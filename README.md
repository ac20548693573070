# Resume ATS: weekly quota and versioned analyses, modelled in Dafny

This project models the two backend model files of a resume-scoring service.

- **The rolling weekly quota** (`backend/models/User.js`). Each user carries a `weeklyUsage` sub-document with fields `count`, `weekStartDate` and `lastResetDate`. `canCreateAnalysis` decides whether one more analysis is admitted. `incrementUsage` either starts a new seven-day window or counts one more analysis in the current one. `getRemainingAnalyses`, `getDaysUntilReset` and the `profile` virtual are derived reads. Time is an integer number of milliseconds. The current time `now` is passed as a parameter instead of being read from the clock.
- **The analysis record** (`backend/models/Analysis.js`). Each analysis keeps an append-only version history, a list of suggestions with implemented flags, and an in-progress/completed status. The save hook creates version 1. `addVersion`, `complete` and `implementSuggestion` update the record. `currentVersion`, `scoreImprovement`, `getSummary` and `getHighPrioritySuggestions` are derived views. The statics `getUserAnalyses` (pagination) and `getUserAnalytics` (counts, rounded average, extremes) work over the user's records. Here the record collection is a sequence of rows and the query is a filter.

Files and modules:

| file | module | contents |
|---|---|---|
| `common.dfy` | `Common` | `Time`, `Option`, `Outcome`, `Result`, the `ValidationError` a rejected save raises |
| `sorting.dfy` | `Sorting` | a stable insertion sort by an integer key, proved sorted, a permutation and stable |
| `user_model.dfy` | `UserModel` | the `WeeklyUsage` value with its reads, and the `User` class with `IncrementUsage` and `Profile` |
| `suggestions.dfy` | `Suggestions` | category/priority enumerations, the order of category names, filters, counts, the lookup by id and the implemented-flag update |
| `analysis_model.dfy` | `AnalysisModel` | versions, the `Analysis` class (save hook, save, `AddVersion`, `Complete`, `ImplementSuggestion`, views) |
| `analysis_queries.dfy` | `AnalysisQueries` | `GetUserAnalyses` and `GetUserAnalytics` over a sequence of rows |

Modelling choices:

- **Days elapsed.** `Math.floor((now - start) / 86400000)` is Dafny's `(now - start) / DAY`. Dafny's division by a positive divisor rounds down, so it agrees with `Math.floor` for every sign of `now - start`. A window counts as elapsed from exactly seven days on.
- **Documents as classes.** `User` and `Analysis` are classes whose methods update their fields. Each mutating method includes its `save()`. A save runs the schema validator: the count bounds 0..4, score bounds 0..100, required non-empty strings. If the validator rejects the save, the method returns `ValidationError` and the object keeps its stored state. Enumerations hold by typing.
- **Object invariants.** `Valid()` states what every stored document satisfies.
  - For a user: `count` is in 0..4, `lastResetDate == weekStartDate`, and `count == 0` exactly when no window was ever started.
  - For an analysis: versions are numbered `1..n`, suggestion ids are distinct, and `completedAt` is set exactly when the status is completed. A stored analysis has at least one version, passes the schema, and its current resume text and score are those of its latest version.
- **Category order.** The sort in `getHighPrioritySuggestions` uses `localeCompare`. Here it is modelled as ordinal string comparison (`NameLe`). `RankAgreesWithNames` proves that sorting by a category's rank is sorting by its name. For these nine names, locale order and ordinal order agree.
- **The average.** `Math.round(avg * 10) / 10` is kept exactly, as a whole number of tenths: `(20 * sum + n) / (2 * n)`, which rounds half up as `Math.round` does.

Behaviour of the code that a stricter reading might not expect; the model follows the code:

- `complete` never rejects a second call. It overwrites `completedAt` (`Analysis.Complete`).
- `incrementUsage` does not check the quota. Only the schema's `max: 4` rejects the save (`User.IncrementUsage`).
- `implementSuggestion` returns `null` for an unknown id. It raises no not-found error.
- `getUserAnalyses` does not validate `page` and `limit`. The model takes `page >= 1` and `limit >= 1` as preconditions.
- The `highPrioritySuggestions` count of `getSummary` includes implemented suggestions.
- No atomic `create` operation exists. A record is built by the constructor and gets its first version from the save hook.

## Model

| member | source | states |
|---|---|---|
| `UserModel.DaysSince` | backend/models/User.js:86 | the elapsed whole days `d` satisfy `d*DAY <= now-start < (d+1)*DAY`, i.e. the floor of the elapsed time in days |
| `UserModel.WindowOpenEarlier` | backend/models/User.js:116-140 | a window open at the later of two clock reads was open at the earlier one |
| `UserModel.DaysSinceMonotone` | backend/models/User.js:121-123 | the elapsed whole days never decrease as the clock advances, so a window open at a later read was open at an earlier one |
| `UserModel.WindowBoundary` | backend/models/User.js:86-89 | seven or more whole days have passed exactly when at least `7*DAY` milliseconds have passed, so the boundary itself counts as elapsed |
| `UserModel.WeeklyUsage.CanCreateAnalysis` | backend/models/User.js:76-95 | true when no window was started and true when seven days have elapsed; inside an open window true exactly when `count < 4`; false only inside an open window with `count >= 4` |
| `UserModel.WeeklyUsage.RemainingAnalyses` | backend/models/User.js:130-140 | 4 when no window is open; otherwise `4 - count` floored at 0; always non-negative and at most 4 for a non-negative count; positive exactly when `CanCreateAnalysis` holds |
| `UserModel.WeeklyUsage.DaysUntilReset` | backend/models/User.js:116-127 | non-negative; 0 exactly when no window is open; inside a window it adds up with the elapsed days to 7; at most 7 once `now` has reached the window start |
| `UserModel.WeeklyUsage.Incremented` | backend/models/User.js:98-110 | with no open window: count 1 and window start and last reset set to `now`, whatever the old count; inside a window: count + 1 with both dates unchanged; the window is open at `now` afterwards; an increment that admission allowed keeps the count within 0..4 |
| `UserModel.FourAnalysesInOneDay` | backend/models/User.js:76-140 | a fresh user is admitted four times within one day; a fifth request that day is refused, with 0 remaining and 7 days until reset |
| `UserModel.User.constructor` | backend/models/User.js:22-37 | a new user has the defaults count 0 and no dates, and satisfies the invariant |
| `UserModel.User.IncrementUsage` | backend/models/User.js:98-113 | keeps the invariant; succeeds exactly when the incremented state is within the schema bounds; then the stored state is `Incremented(now)`, otherwise it is unchanged; always succeeds right after `canCreateAnalysis` returned true at the same time |
| `UserModel.User.Profile` | backend/models/User.js:143-154 | `used` is the count, `remaining` is `RemainingAnalyses` at the first clock read and `daysUntilReset` is `DaysUntilReset` at the second; for a valid user both figures lie in 0..4; used + remaining == 4 when the window is open at the first read, and also when days remain at a later second read; with both reads at one instant, `daysUntilReset == 0` implies the full quota; remaining > 0 exactly when admission holds at the first read |
| `Sorting.SortBy` | backend/models/Analysis.js:175 | the result is in ascending key order, is a permutation of the input, and keeps the input order among equal keys (stability) |
| `Suggestions.RankAgreesWithNames` | backend/models/Analysis.js:175 | category ranks order the categories exactly as their names compare as strings, and equal ranks mean equal categories |
| `Suggestions.PendingHighPriority` | backend/models/Analysis.js:174 | the result holds exactly the high-priority, not-implemented suggestions of the input, and is no longer than it |
| `Suggestions.PendingHighPriorityOccurrences` | backend/models/Analysis.js:174 | every suggestion occurs in the filtered list as often as in the input when it is high priority and not implemented, and never otherwise |
| `Suggestions.PendingHighPriorityConcat` | backend/models/Analysis.js:173-174 | filtering a list is filtering its two parts and joining the results, so the filter keeps the input order |
| `Suggestions.PendingCommutesWithCategory` | backend/models/Analysis.js:173-175 | taking the pending high-priority suggestions and then those of one category gives the same list, in the same order, as the other way round |
| `Suggestions.CountHighPriority` | backend/models/Analysis.js:164 | the count of high-priority suggestions is at most the total, 0 exactly when none is high priority, and the total exactly when all are |
| `Suggestions.CountImplemented` | backend/models/Analysis.js:165 | the count of implemented suggestions is at most the total, 0 exactly when none is implemented, and the total exactly when all are |
| `Suggestions.CountsConcat` | backend/models/Analysis.js:164-165 | both counts add up over the two parts of a list, so each suggestion of the counted kind adds exactly one |
| `Suggestions.PendingWithinCounts` | backend/models/Analysis.js:164-174 | the pending high-priority suggestions number at most the high-priority count, and together with the implemented ones at most the total |
| `Suggestions.SortByCategory` | backend/models/Analysis.js:175 | the result is ordered by category name, is a permutation of the input, and keeps the input order within each category |
| `Suggestions.HighPriorityExample` | backend/models/Analysis.js:172-176 | pending Keywords, implemented Skills and pending Formatting suggestions, all high priority, give the list Formatting then Keywords |
| `Suggestions.FindSuggestion` | backend/models/Analysis.js:180 | returns the first position holding the id, or none exactly when no suggestion has that id |
| `Suggestions.MarkImplemented` | backend/models/Analysis.js:179-187 | same length, ids and texts; unchanged when the id is absent; with distinct ids the suggestion with that id gets `implemented = true` and every other one is unchanged; distinct ids stay distinct |
| `Suggestions.MarkImplementedIdempotent` | backend/models/Analysis.js:179-187 | implementing a suggestion twice leaves the same list as implementing it once |
| `Suggestions.MarkImplementedCounts` | backend/models/Analysis.js:179-187 | implementing a suggestion keeps the high-priority count, and raises the implemented count by one exactly when a suggestion with that id exists and was not implemented yet |
| `AnalysisModel.InitialVersion` | backend/models/Analysis.js:193-199 | the version the hook creates is number 1 with the note "Initial analysis", carrying the record's resume text and score and the save time |
| `AnalysisModel.Storable` | backend/models/Analysis.js:15-79 | the schema's validators: job description and resume text are non-empty, the score is within 0..100, every suggestion has a text, and every version has a resume text and a score within 0..100 |
| `AnalysisModel.Analysis.constructor` | backend/models/Analysis.js:49-107 | a new, unsaved record: the given fields, "Untitled Position" when no title is given, in progress, no completion time, no versions; it satisfies the invariant |
| `AnalysisModel.Analysis.PreSave` | backend/models/Analysis.js:190-202 | a new record without versions gets exactly the initial version, copying its resume text and score; any other record keeps its versions |
| `AnalysisModel.Analysis.Save` | backend/models/Analysis.js:15-79 | runs the schema's validators and then the save hook (`PreSave`, lines 190-202): succeeds exactly when the record passes the schema (required strings, scores 0..100); a stored valid record always saves; a first save adds version 1; a failed save changes nothing |
| `AnalysisModel.Analysis.CurrentVersion` | backend/models/Analysis.js:115-117 | the number of versions; on a stored record it is at least 1 and equals the number of the latest version |
| `AnalysisModel.Analysis.ScoreImprovement` | backend/models/Analysis.js:120-127 | 0 with fewer than two versions; on a stored record it is the latest version's score minus the first version's, within -100..100, possibly negative |
| `AnalysisModel.Analysis.AddVersion` | backend/models/Analysis.js:130-145 | appends exactly one version numbered old length + 1 and leaves earlier versions untouched; the record's text and score become the new ones; `CurrentVersion` grows by one; succeeds exactly when the record with the new version appended passes the schema, on a stored and on a never-saved record alike, and fails with nothing changed otherwise (on a stored record: exactly when text is empty or score outside 0..100); keeps the invariant, including numbering `1..n` |
| `AnalysisModel.Analysis.Complete` | backend/models/Analysis.js:148-152 | afterwards the status is completed and `completedAt` is `now`; on a stored record it always succeeds, including a second time |
| `AnalysisModel.Analysis.ImplementSuggestion` | backend/models/Analysis.js:179-187 | with no suggestion of that id: returns null and changes nothing; when one exists: succeeds exactly when the record passes the schema, and then returns that suggestion with the flag set, the list becomes `MarkImplemented` of the old one, and the versions change only by the hook's version 1 on a first save; a suggestion is returned exactly when one has that id; on a stored record it always succeeds |
| `AnalysisModel.Analysis.GetHighPrioritySuggestions` | backend/models/Analysis.js:172-176 | exactly the high-priority, not-implemented suggestions, as a permutation of the filter, ordered by category name, and stable within a category; the suggestions of each category are exactly that category's pending high-priority suggestions in stored order |
| `AnalysisModel.Analysis.GetSummary` | backend/models/Analysis.js:155-169 | `jobTitle`, `atsScore`, `status` and `createdAt` are the record's; `versionsCount` is the number of versions and `totalSuggestions` the number of suggestions; `highPrioritySuggestions` is `CountHighPriority` and `implementedSuggestions` is `CountImplemented` of the suggestions; implemented and high-priority counts are at most the total; the high-priority list fits inside the high-priority count and, with the implemented ones, inside the total |
| `AnalysisModel.Analysis.Row` | backend/models/Analysis.js:208-212 | the row of a stored record: the fields the listing selects (id, title, score, status, creation time), each the record's own, together with the owner the query filters on; a stored record's score is within 0..100 |
| `AnalysisQueries.OwnedBy` | backend/models/Analysis.js:208 | the result holds exactly the rows of that user, all taken from the collection |
| `AnalysisQueries.OwnedByOccurrences` | backend/models/Analysis.js:208 | every row occurs in the user's rows as often as in the collection when it belongs to the user, and never otherwise |
| `AnalysisQueries.NewestFirst` | backend/models/Analysis.js:209 | the user's rows, as a permutation, in non-increasing creation time |
| `AnalysisQueries.SkipLimit` | backend/models/Analysis.js:210-211 | the slice has `min(limit, total - skip)` entries (0 past the end), entry `k` being entry `skip + k` of the input |
| `AnalysisQueries.CeilDiv` | backend/models/Analysis.js:220 | `q` is the least number of pages of size `limit` holding `total` entries: `(q-1)*limit < total <= q*limit` |
| `AnalysisQueries.MoreIffNotLastPage` | backend/models/Analysis.js:216-222 | `skip + shown < total` holds exactly when `page < ceil(total/limit)` |
| `AnalysisQueries.GetUserAnalyses` | backend/models/Analysis.js:205-225 | at most `limit` of the user's rows, newest first, the slice starting at `(page-1)*limit`; `totalPages` is `ceil(total/limit)`; `hasMore` holds exactly when `skip + length < total`, and exactly when the page is not the last |
| `AnalysisQueries.SkipLimitCovers` | backend/models/Analysis.js:206-211 | entry `i` of a list is entry `i % limit` of the slice skipping `(i / limit) * limit` |
| `AnalysisQueries.PagesCoverHistory` | backend/models/Analysis.js:205-225 | the user's `i`-th analysis, newest first, is entry `i % limit` of page `i / limit + 1`, so every analysis appears on a page |
| `AnalysisQueries.HighestScore` | backend/models/Analysis.js:244 | a score of the list, no smaller than any score in it |
| `AnalysisQueries.LowestScore` | backend/models/Analysis.js:245 | a score of the list, no larger than any score in it |
| `AnalysisQueries.SumScores` | backend/models/Analysis.js:233 | the sum of the rows' scores, non-negative when every score is |
| `AnalysisQueries.SumScoresConcat` | backend/models/Analysis.js:233 | the score sum adds up over the two parts of a list, so every row's score is added exactly once |
| `AnalysisQueries.CountStatus` | backend/models/Analysis.js:236-237 | the count is at most the number of rows, 0 exactly when no row has the status, and the number of rows exactly when all have it |
| `AnalysisQueries.CountStatusConcat` | backend/models/Analysis.js:236-237 | the count adds up over the two parts of a list, so every row of the status counts exactly once |
| `AnalysisQueries.StatusCountsPartition` | backend/models/Analysis.js:236-237 | completed and in-progress counts add up to the number of rows, because the status has only those two values |
| `AnalysisQueries.SumBetweenExtremes` | backend/models/Analysis.js:232-233 | the score sum lies between count times a lower bound and count times an upper bound of the scores |
| `AnalysisQueries.RoundedMeanTenths` | backend/models/Analysis.js:243 | the result `t` satisfies `20*sum - n < 2*n*t <= 20*sum + n`, so `t/10` is the mean rounded to the nearest tenth with halves rounded up |
| `AnalysisQueries.RoundedMeanBetween` | backend/models/Analysis.js:232-243 | a rounded mean of values in `lo..hi` lies in `10*lo..10*hi` tenths |
| `AnalysisQueries.GetUserAnalytics` | backend/models/Analysis.js:228-247 | all zero with no analyses; the completed and in-progress counts are `CountStatus` of the user's rows and add up to the total; with analyses the average is `RoundedMeanTenths` of their score sum and count; lowest <= highest, both scores of the user's analyses and bounding all of them; average between them; all within 0..100 (average within 0..1000 tenths) when the stored scores are |
| `AnalysisQueries.Rows` | backend/models/Analysis.js:208-212 | one row per stored document, in collection order, each the document's `Row()` |
| `AnalysisQueries.StoredAnalyticsInRange` | backend/models/Analysis.js:228-247 | over stored documents, whose scores the schema keeps within 0..100, the lowest and highest score lie within 0..100 and the average within 0..1000 tenths |

## Left out

- Password hashing and comparison (`bcrypt`): a foreign library call.
- The e-mail format regular expression, and the lower-casing and trimming of strings (`email`, `jobTitle`, `jobDescription`). A `jobDescription` of blanks, which trimming would turn empty, is therefore accepted by the model.
- Persistence mechanics: indexes, `timestamps` (`updatedAt` is not in the summary), `toJSON` settings, `resumeFileName` and `analysisMetadata` defaults, and the `_id` generation. Suggestion ids are taken as given and distinct.
- The clock. Every operation that reads the current time takes `now` as a parameter (`Profile` takes one instant per read, as its two figures read the clock separately), and version and completion timestamps are that `now`.
- Concurrency and the atomicity of check-then-increment across requests. These belong to the storage layer.
- Database connection, the HTTP server, the HTTP client and every frontend page and component. These are I/O and rendering.
- Scores are modelled as integers. A fractional score is not modelled.
- `UserModel.User.IncrementUsage`: after a rejected save, mongoose keeps the incremented count on the in-memory document. The model keeps the stored state, because the class stands for the stored document.
- `AnalysisModel.Analysis.AddVersion`: after a rejected save, mongoose keeps the pushed version and the new text and score on the in-memory document. The model leaves the record unchanged, for the same reason.
- `AnalysisModel.Analysis.Complete` and `AnalysisModel.Analysis.ImplementSuggestion`: the save of these can only be rejected for a record never stored. In that case the model leaves the record unchanged, whereas mongoose keeps the change in memory.
- `AnalysisQueries.GetUserAnalyses`: the database's order among records created in the same millisecond is unspecified. The model keeps collection order for them. An `AnalysisRow` holds the selected fields (`_id`, `jobTitle`, `atsScore`, `status`, `createdAt`) and also the `userId` the query filters on, which the real selection does not return; the selected `updatedAt` is not modelled.
- `AnalysisQueries.GetUserAnalytics`: the average is computed exactly in tenths. Floating-point rounding of `Math.round(avg * 10) / 10` is not modelled.
- `AnalysisModel.Analysis.GetHighPrioritySuggestions`: `localeCompare` is modelled as ordinal comparison of the category names. For the nine fixed names the two orders agree.
- Default arguments: `getUserAnalyses` defaults to `page = 1` and `limit = 10`, and `addVersion` to `improvementNotes = ''`. Dafny has no default arguments, so callers pass these values explicitly.
