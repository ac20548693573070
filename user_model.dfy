/** The rolling weekly analysis quota kept on each user (backend/models/User.js).
    The quota state is the embedded `weeklyUsage` sub-document; the admission
    check and the two derived reads are pure functions of it and the current
    time, and `incrementUsage` updates it in place on the user document. */
module UserModel {
  import opened Common

  /** Milliseconds in a day: 1000 * 60 * 60 * 24. */
  const DAY: int := 86400000
  /** The schema's `max` on `weeklyUsage.count`: analyses allowed per window. */
  const WEEKLY_LIMIT: int := 4
  /** Length of the rolling window, in whole days. */
  const WINDOW_DAYS: int := 7

  /** Whole days elapsed from `start` to `now`: `Math.floor((now - start) / DAY)`.
      Dafny's division by a positive divisor rounds down, as `Math.floor` does,
      also when `now` is before `start`. */
  function DaysSince(start: Time, now: Time): (d: int)
    ensures d * DAY <= now - start < (d + 1) * DAY
  {
    (now - start) / DAY
  }

  /** Whole days elapsed never decrease as time goes on. */
  lemma DaysSinceMonotone(start: Time, earlier: Time, later: Time)
    requires earlier <= later
    ensures DaysSince(start, earlier) <= DaysSince(start, later)
  {
    var d1, d2 := DaysSince(start, earlier), DaysSince(start, later);
    assert d1 * DAY < (d2 + 1) * DAY;
  }

  /** A full window has passed exactly when at least seven whole days of
      milliseconds have elapsed: the seven-day boundary itself counts. */
  lemma WindowBoundary(start: Time, now: Time)
    ensures DaysSince(start, now) >= WINDOW_DAYS <==> now - start >= WINDOW_DAYS * DAY
  {
    var d := DaysSince(start, now);
    if d >= WINDOW_DAYS {
      assert d * DAY >= WINDOW_DAYS * DAY;
    } else {
      assert (d + 1) * DAY <= WINDOW_DAYS * DAY;
    }
  }

  /** The `weeklyUsage` sub-document: how many analyses were created in the
      current window, when the window started, and when it was last reset
      (both null until the first analysis). */
  datatype WeeklyUsage = WeeklyUsage(count: int, weekStartDate: Option<Time>, lastResetDate: Option<Time>)
  {
    /** The schema bounds `min: 0, max: 4` that a save enforces. */
    predicate InBounds()
    {
      0 <= count <= WEEKLY_LIMIT
    }

    /** A window has started and fewer than seven whole days have passed since. */
    predicate WindowOpen(now: Time)
    {
      weekStartDate.Some? && DaysSince(weekStartDate.value, now) < WINDOW_DAYS
    }

    /** `canCreateAnalysis`: admission for one more analysis. It changes nothing;
        an elapsed window is reported as admissible but is reset only by the
        next `incrementUsage`. */
    function CanCreateAnalysis(now: Time): (r: bool)
      ensures weekStartDate.None? ==> r
      ensures weekStartDate.Some? && DaysSince(weekStartDate.value, now) >= WINDOW_DAYS ==> r
      ensures WindowOpen(now) ==> (r <==> count < WEEKLY_LIMIT)
      ensures !r ==> WindowOpen(now) && count >= WEEKLY_LIMIT
    {
      if weekStartDate.None? then true
      else if DaysSince(weekStartDate.value, now) >= WINDOW_DAYS then true
      else count < WEEKLY_LIMIT
    }

    /** `getRemainingAnalyses`: the full quota when no window is open, otherwise
        what is left of it, never negative. It is positive exactly when
        admission would be granted. */
    function RemainingAnalyses(now: Time): (r: int)
      ensures r >= 0
      ensures count >= 0 ==> r <= WEEKLY_LIMIT
      ensures !WindowOpen(now) ==> r == WEEKLY_LIMIT
      ensures WindowOpen(now) && count <= WEEKLY_LIMIT ==> r + count == WEEKLY_LIMIT
      ensures count >= 0 ==> (r > 0 <==> CanCreateAnalysis(now))
    {
      if weekStartDate.None? || DaysSince(weekStartDate.value, now) >= WINDOW_DAYS then WEEKLY_LIMIT
      else if WEEKLY_LIMIT - count > 0 then WEEKLY_LIMIT - count
      else 0
    }

    /** `getDaysUntilReset`: whole days left in the open window, and 0 when no
        window is open. It never exceeds seven once the clock has reached the
        window start. */
    function DaysUntilReset(now: Time): (r: int)
      ensures r >= 0
      ensures r == 0 <==> !WindowOpen(now)
      ensures WindowOpen(now) ==> r + DaysSince(weekStartDate.value, now) == WINDOW_DAYS
      ensures weekStartDate.Some? && weekStartDate.value <= now ==> r <= WINDOW_DAYS
    {
      if weekStartDate.None? then 0
      else
        var daysUntilReset := WINDOW_DAYS - DaysSince(weekStartDate.value, now);
        if daysUntilReset > 0 then daysUntilReset else 0
    }

    /** The sub-document as `incrementUsage` leaves it: a fresh window of one
        analysis starting now when none is open (whatever the old count),
        otherwise one more analysis in the same window. In both cases the
        window is open at `now`, and an increment that admission allowed
        stays within the schema bound. */
    function Incremented(now: Time): (w: WeeklyUsage)
      ensures w.WindowOpen(now)
      ensures !WindowOpen(now) ==> w.count == 1 && w.weekStartDate == w.lastResetDate == Some(now)
      ensures WindowOpen(now) ==> w.count == count + 1
      ensures WindowOpen(now) ==> w.weekStartDate == weekStartDate && w.lastResetDate == lastResetDate
      ensures InBounds() && CanCreateAnalysis(now) ==> w.InBounds()
    {
      if weekStartDate.None? || DaysSince(weekStartDate.value, now) >= WINDOW_DAYS then
        WeeklyUsage(1, Some(now), Some(now))
      else
        this.(count := count + 1)
    }
  }

  /** The quota state of a user who has never created an analysis. */
  const Unused: WeeklyUsage := WeeklyUsage(0, None, None)

  /** The `weeklyUsage` block of the `profile` virtual. */
  /** A window open at some instant was already open at every earlier one
      (once it has been started). */
  lemma WindowOpenEarlier(w: WeeklyUsage, t1: Time, t2: Time)
    ensures t1 <= t2 && w.WindowOpen(t2) ==> w.WindowOpen(t1)
  {
    if t1 <= t2 && w.weekStartDate.Some? {
      DaysSinceMonotone(w.weekStartDate.value, t1, t2);
    }
  }

  datatype UsageProfile = UsageProfile(used: int, remaining: int, daysUntilReset: int)

  /** A user with no window creates four analyses within one day, each
      admitted; a fifth request in that day is refused, nothing remains, and
      the window has all seven days left. */
  lemma {:induction false} FourAnalysesInOneDay(t1: Time, t2: Time, t3: Time, t4: Time, t5: Time)
    requires t1 <= t2 <= t3 <= t4 <= t5 < t1 + DAY
    ensures Unused.CanCreateAnalysis(t1)
    ensures Unused.Incremented(t1).CanCreateAnalysis(t2)
    ensures Unused.Incremented(t1).Incremented(t2).CanCreateAnalysis(t3)
    ensures Unused.Incremented(t1).Incremented(t2).Incremented(t3).CanCreateAnalysis(t4)
    ensures var w := Unused.Incremented(t1).Incremented(t2).Incremented(t3).Incremented(t4);
      w.count == WEEKLY_LIMIT && !w.CanCreateAnalysis(t5)
      && w.RemainingAnalyses(t5) == 0 && w.DaysUntilReset(t5) == WINDOW_DAYS
  {
    forall t: Time | t1 <= t < t1 + DAY ensures DaysSince(t1, t) == 0 {
      var d := DaysSince(t1, t);
      assert d * DAY < DAY && (d + 1) * DAY > 0;
    }
    var w1 := Unused.Incremented(t1);
    assert w1 == WeeklyUsage(1, Some(t1), Some(t1));
    var w2 := w1.Incremented(t2);
    assert w2 == WeeklyUsage(2, Some(t1), Some(t1));
    var w3 := w2.Incremented(t3);
    assert w3 == WeeklyUsage(3, Some(t1), Some(t1));
    var w4 := w3.Incremented(t4);
    assert w4 == WeeklyUsage(4, Some(t1), Some(t1));
  }

  /** A user document, reduced to what the quota logic touches. */
  class User {
    var email: string
    var weeklyUsage: WeeklyUsage

    /** What every stored user satisfies: the count is within the schema
        bounds, the window start and the last reset are always written
        together, and a count of zero means no window was ever started. */
    ghost predicate Valid()
      reads this
    {
      weeklyUsage.InBounds()
      && weeklyUsage.lastResetDate == weeklyUsage.weekStartDate
      && (weeklyUsage.count == 0 <==> weeklyUsage.weekStartDate.None?)
    }

    /** A new user: the schema defaults for `weeklyUsage`. */
    constructor (email: string)
      ensures Valid()
      ensures this.email == email && weeklyUsage == Unused
    {
      this.email := email;
      weeklyUsage := Unused;
    }

    /** `incrementUsage` followed by its save. It does not consult the quota
        itself: only the schema's `max: 4` rejects the save, and then the
        stored user is unchanged. When `canCreateAnalysis` allowed it at the
        same time, the save always succeeds. */
    method IncrementUsage(now: Time) returns (r: Outcome)
      requires Valid()
      modifies this
      ensures Valid()
      ensures email == old(email)
      ensures r.Pass? <==> old(weeklyUsage).Incremented(now).InBounds()
      ensures r.Pass? ==> weeklyUsage == old(weeklyUsage).Incremented(now)
      ensures r.Fail? ==> weeklyUsage == old(weeklyUsage)
      ensures old(weeklyUsage).CanCreateAnalysis(now) ==> r.Pass?
    {
      var start := weeklyUsage.weekStartDate;
      if start.None? || DaysSince(start.value, now) >= WINDOW_DAYS {
        weeklyUsage := weeklyUsage.(count := 1, weekStartDate := Some(now), lastResetDate := Some(now));
        r := Pass;
      } else if weeklyUsage.count + 1 > WEEKLY_LIMIT {
        r := Fail(ValidationError);
      } else {
        weeklyUsage := weeklyUsage.(count := weeklyUsage.count + 1);
        r := Pass;
      }
    }

    /** The `weeklyUsage` block of the `profile` virtual. Its two derived
        figures each read the clock: `remaining` at `remainingAt`, then
        `daysUntilReset` at `resetAt`, no earlier. While a window is open,
        used and remaining add up to the quota; once no window is open the
        full quota is reported whatever the stale count says. A window that
        is still open at the second read was open at the first, but one that
        closed between the reads can show no remaining analyses and no days
        until reset together. */
    function Profile(remainingAt: Time, resetAt: Time): (p: UsageProfile)
      reads this
      ensures p.used == weeklyUsage.count
      ensures p.remaining == weeklyUsage.RemainingAnalyses(remainingAt)
      ensures p.daysUntilReset == weeklyUsage.DaysUntilReset(resetAt)
      ensures Valid() ==> 0 <= p.remaining <= WEEKLY_LIMIT && 0 <= p.used <= WEEKLY_LIMIT
      ensures Valid() && weeklyUsage.WindowOpen(remainingAt) ==> p.used + p.remaining == WEEKLY_LIMIT
      ensures Valid() && remainingAt <= resetAt && p.daysUntilReset > 0 ==> p.used + p.remaining == WEEKLY_LIMIT
      ensures remainingAt == resetAt && p.daysUntilReset == 0 ==> p.remaining == WEEKLY_LIMIT
      ensures Valid() ==> (p.remaining > 0 <==> weeklyUsage.CanCreateAnalysis(remainingAt))
    {
      WindowOpenEarlier(weeklyUsage, remainingAt, resetAt);
      UsageProfile(weeklyUsage.count, weeklyUsage.RemainingAnalyses(remainingAt), weeklyUsage.DaysUntilReset(resetAt))
    }
  }
}
