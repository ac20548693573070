/** Types shared by the user and analysis models: timestamps, optional values
    (the source's `null`), and the outcome of a save that the schema validator
    may reject. */
module Common {

  /** A point in time, in whole milliseconds since the epoch (a JavaScript Date). */
  type Time = int

  datatype Option<T> = None | Some(value: T)

  /** The only failure the modelled code raises: a save rejected by a schema
      validator (a bound, an enum or a required field). */
  datatype Error = ValidationError

  /** The result of a save that returns nothing. */
  datatype Outcome = Pass | Fail(error: Error)

  /** The result of an operation that returns a value once its save succeeds. */
  datatype Result<T> = Success(value: T) | Failure(error: Error)
}
