/** The two statics of the analysis model (backend/models/Analysis.js): a
    user's analyses, newest first, one page at a time, and aggregate figures
    over all of them. The collection is given as a sequence of rows in
    insertion order; the query `find({ userId })` becomes a filter. */
module AnalysisQueries {
  import opened Sorting
  import opened AnalysisModel

  /** `find({ userId })`: the user's rows, in collection order. */
  function OwnedBy(db: seq<AnalysisRow>, userId: nat): (r: seq<AnalysisRow>)
    ensures |r| <= |db|
    ensures forall i :: 0 <= i < |r| ==> r[i] in db && r[i].userId == userId
    ensures forall i :: 0 <= i < |db| && db[i].userId == userId ==> db[i] in r
  {
    if db == [] then []
    else if db[0].userId == userId then [db[0]] + OwnedBy(db[1..], userId)
    else OwnedBy(db[1..], userId)
  }

  /** A row occurs in the user's rows exactly as often as in the collection
      when it is the user's, and not at all otherwise. */
  lemma {:induction false} OwnedByOccurrences(db: seq<AnalysisRow>, userId: nat)
    ensures forall x :: multiset(OwnedBy(db, userId))[x] == if x.userId == userId then multiset(db)[x] else 0
  {
    if db != [] {
      assert db == [db[0]] + db[1..];
      OwnedByOccurrences(db[1..], userId);
    }
  }

  /** The sort key of `sort({ createdAt: -1 })`. */
  function NewestKey(row: AnalysisRow): int
  {
    -row.createdAt
  }

  /** The user's rows, newest first (rows created at the same instant keep
      their collection order). */
  function NewestFirst(db: seq<AnalysisRow>, userId: nat): (r: seq<AnalysisRow>)
    ensures multiset(r) == multiset(OwnedBy(db, userId))
    ensures |r| == |OwnedBy(db, userId)|
    ensures forall i :: 0 <= i < |r| ==> r[i] in db && r[i].userId == userId
    ensures forall i, j :: 0 <= i < j < |r| ==> r[i].createdAt >= r[j].createdAt
  {
    var r := SortBy(OwnedBy(db, userId), NewestKey);
    assert forall i, j :: 0 <= i < j < |r| ==> NewestKey(r[i]) <= NewestKey(r[j]);
    assert forall i :: 0 <= i < |r| ==> r[i] in multiset(OwnedBy(db, userId));
    r
  }

  datatype Pagination = Pagination(currentPage: int, totalPages: int, totalAnalyses: int, hasMore: bool)
  datatype AnalysesPage = AnalysesPage(analyses: seq<AnalysisRow>, pagination: Pagination)

  /** `Math.ceil(total / limit)` for a positive limit. */
  function CeilDiv(total: nat, limit: int): (q: nat)
    requires limit >= 1
    ensures (q - 1) * limit < total <= q * limit
  {
    (total + limit - 1) / limit
  }

  lemma MultiplyMonotone(a: int, b: int, k: nat)
    requires a <= b
    ensures a * k <= b * k
  {
  }

  /** With `total` analyses and pages of `limit`, an entry beyond page `page`
      exists exactly when `page` is not the last of `ceil(total / limit)`
      pages. `shown` is the number of entries on page `page`. */
  lemma MoreIffNotLastPage(page: int, limit: int, total: nat, shown: nat)
    requires page >= 1 && limit >= 1
    requires var skip := (page - 1) * limit;
      shown == if skip >= total then 0 else if skip + limit <= total then limit else total - skip
    ensures (page - 1) * limit + shown < total <==> page < CeilDiv(total, limit)
  {
    var q := CeilDiv(total, limit);
    var skip := (page - 1) * limit;
    assert page * limit == skip + limit;
    if page < q {
      MultiplyMonotone(page, q - 1, limit);
    } else {
      MultiplyMonotone(q, page, limit);
      if skip < total {
        assert total <= page * limit;
      }
    }
  }

  /** `.skip(skip).limit(limit)` on a sorted result: the entries from
      position `skip` on, at most `limit` of them. */
  function SkipLimit<T>(all: seq<T>, skip: nat, limit: nat): (r: seq<T>)
    ensures |r| == if skip >= |all| then 0 else if skip + limit <= |all| then limit else |all| - skip
    ensures forall k :: 0 <= k < |r| ==> r[k] == all[skip + k]
  {
    if skip >= |all| then []
    else if skip + limit <= |all| then all[skip..skip + limit]
    else all[skip..]
  }

  /** `getUserAnalyses(userId, page, limit)`: skips `(page - 1) * limit` of the
      user's analyses, newest first, and returns the next ones, at most
      `limit`, with the pagination figures. More pages exist exactly when
      this page is not the last. */
  function GetUserAnalyses(db: seq<AnalysisRow>, userId: nat, page: int, limit: int): (p: AnalysesPage)
    requires page >= 1 && limit >= 1
    ensures |p.analyses| <= limit
    ensures p.analyses == SkipLimit(NewestFirst(db, userId), (page - 1) * limit, limit)
    ensures forall i :: 0 <= i < |p.analyses| ==> p.analyses[i] in db && p.analyses[i].userId == userId
    ensures forall i, j :: 0 <= i < j < |p.analyses| ==> p.analyses[i].createdAt >= p.analyses[j].createdAt
    ensures p.pagination.currentPage == page
    ensures p.pagination.totalAnalyses == |OwnedBy(db, userId)|
    ensures (p.pagination.totalPages - 1) * limit < p.pagination.totalAnalyses <= p.pagination.totalPages * limit
    ensures p.pagination.hasMore <==> (page - 1) * limit + |p.analyses| < p.pagination.totalAnalyses
    ensures p.pagination.hasMore <==> page < p.pagination.totalPages
  {
    var all := NewestFirst(db, userId);
    var skip: nat := (page - 1) * limit;
    var analyses := SkipLimit(all, skip, limit);
    MoreIffNotLastPage(page, limit, |all|, |analyses|);
    AnalysesPage(analyses, Pagination(page, CeilDiv(|all|, limit), |all|, skip + |analyses| < |all|))
  }

  /** Entry `i` of a list is entry `i % limit` of the slice that skips
      `(i / limit) * limit` entries. */
  lemma SkipLimitCovers<T>(all: seq<T>, limit: int, i: int)
    requires limit >= 1 && 0 <= i < |all|
    ensures var page := SkipLimit(all, (i / limit) * limit, limit);
      i % limit < |page| && page[i % limit] == all[i]
  {
    var q, r := i / limit, i % limit;
    assert q * limit + r == i && 0 <= r < limit;
    assert q * limit >= 0;
  }

  /** Every one of the user's analyses is on exactly one page: the one at
      position `i`, newest first, is entry `i % limit` of page `i / limit + 1`. */
  lemma PagesCoverHistory(db: seq<AnalysisRow>, userId: nat, limit: int, i: int)
    requires limit >= 1 && 0 <= i < |OwnedBy(db, userId)|
    ensures var p := GetUserAnalyses(db, userId, i / limit + 1, limit);
      i % limit < |p.analyses| && p.analyses[i % limit] == NewestFirst(db, userId)[i]
  {
    var q := i / limit;
    SkipLimitCovers(NewestFirst(db, userId), limit, i);
    assert (q + 1 - 1) * limit == q * limit;
  }

  /** What `getUserAnalytics` reports. The average is kept in tenths, so that
      `averageTenths / 10` is `Math.round(average * 10) / 10`. */
  datatype Analytics = Analytics(
    totalAnalyses: nat, completedAnalyses: nat, inProgressAnalyses: nat,
    averageTenths: int, highestScore: int, lowestScore: int)

  /** The sum of the scores, `analyses.reduce((sum, a) => sum + a.atsScore, 0)`;
      `SumScoresConcat` shows that the order of adding does not matter. */
  function SumScores(rows: seq<AnalysisRow>): (sum: int)
    ensures (forall i :: 0 <= i < |rows| ==> rows[i].atsScore >= 0) ==> sum >= 0
  {
    if rows == [] then 0 else rows[0].atsScore + SumScores(rows[1..])
  }

  /** The sum adds up over the parts of a list, so it takes every score once. */
  lemma {:induction false} SumScoresConcat(a: seq<AnalysisRow>, b: seq<AnalysisRow>)
    ensures SumScores(a + b) == SumScores(a) + SumScores(b)
  {
    if a == [] {
      assert a + b == b;
    } else {
      assert (a + b)[0] == a[0] && (a + b)[1..] == a[1..] + b;
      SumScoresConcat(a[1..], b);
    }
  }

  /** `Math.max(...scores)` of a non-empty list: a score of the list and no
      smaller than any of them. */
  function HighestScore(rows: seq<AnalysisRow>): (m: int)
    requires rows != []
    ensures exists i :: 0 <= i < |rows| && rows[i].atsScore == m
    ensures forall i :: 0 <= i < |rows| ==> rows[i].atsScore <= m
  {
    if |rows| == 1 then rows[0].atsScore
    else
      var rest := HighestScore(rows[1..]);
      if rows[0].atsScore >= rest then rows[0].atsScore else rest
  }

  /** `Math.min(...scores)` of a non-empty list. */
  function LowestScore(rows: seq<AnalysisRow>): (m: int)
    requires rows != []
    ensures exists i :: 0 <= i < |rows| && rows[i].atsScore == m
    ensures forall i :: 0 <= i < |rows| ==> m <= rows[i].atsScore
  {
    if |rows| == 1 then rows[0].atsScore
    else
      var rest := LowestScore(rows[1..]);
      if rows[0].atsScore <= rest then rows[0].atsScore else rest
  }

  /** `analyses.filter(a => a.status === status).length`. */
  function CountStatus(rows: seq<AnalysisRow>, status: Status): (n: nat)
    ensures n <= |rows|
    ensures n == 0 <==> forall i :: 0 <= i < |rows| ==> rows[i].status != status
    ensures n == |rows| <==> forall i :: 0 <= i < |rows| ==> rows[i].status == status
  {
    if rows == [] then 0
    else (if rows[0].status == status then 1 else 0) + CountStatus(rows[1..], status)
  }

  /** The count adds up over the parts of a list, so it counts every row of
      that status once. */
  lemma {:induction false} CountStatusConcat(a: seq<AnalysisRow>, b: seq<AnalysisRow>, status: Status)
    ensures CountStatus(a + b, status) == CountStatus(a, status) + CountStatus(b, status)
  {
    if a == [] {
      assert a + b == b;
    } else {
      var ab := a + b;
      assert ab[0] == a[0] && ab[1..] == a[1..] + b;
      CountStatusConcat(a[1..], b, status);
      assert CountStatus(ab, status) == (if a[0].status == status then 1 else 0) + CountStatus(ab[1..], status);
    }
  }

  /** Every row is either completed or in progress, so the two counts add up
      to the number of rows. */
  lemma {:induction false} StatusCountsPartition(rows: seq<AnalysisRow>)
    ensures CountStatus(rows, Completed) + CountStatus(rows, InProgress) == |rows|
  {
    if rows != [] { StatusCountsPartition(rows[1..]); }
  }

  /** The sum of scores lies between the count times the lowest and the
      count times the highest score. */
  lemma {:induction false} SumBetweenExtremes(rows: seq<AnalysisRow>, lo: int, hi: int)
    requires forall i :: 0 <= i < |rows| ==> lo <= rows[i].atsScore <= hi
    ensures |rows| * lo <= SumScores(rows) <= |rows| * hi
  {
    if rows != [] {
      var n := |rows[1..]|;
      var rest := SumScores(rows[1..]);
      SumBetweenExtremes(rows[1..], lo, hi);
      assert n * lo <= rest <= n * hi;
      assert SumScores(rows) == rows[0].atsScore + rest;
      TimesSuccessor(n, lo);
      TimesSuccessor(n, hi);
    }
  }

  lemma TimesSuccessor(n: int, x: int)
    ensures (n + 1) * x == n * x + x
  {
  }

  /** `Math.round(sum / n * 10)` computed exactly: the nearest whole number
      of tenths to the mean, halves rounded up. */
  function RoundedMeanTenths(sum: int, n: int): (t: int)
    requires n >= 1
    ensures 20 * sum - n < 2 * n * t <= 20 * sum + n
  {
    (20 * sum + n) / (2 * n)
  }

  /** A mean of values between `lo` and `hi`, rounded to tenths, stays between
      them. */
  lemma RoundedMeanBetween(sum: int, n: int, lo: int, hi: int)
    requires n >= 1 && n * lo <= sum <= n * hi
    ensures 10 * lo <= RoundedMeanTenths(sum, n) <= 10 * hi
  {
    var t := RoundedMeanTenths(sum, n);
    assert n * (20 * lo - 1) < n * (2 * t);
    CancelPositive(n, 20 * lo - 1, 2 * t);
    assert n * (2 * t) < n * (20 * hi + 2);
    CancelPositive(n, 2 * t, 20 * hi + 2);
  }

  lemma CancelPositive(n: int, a: int, b: int)
    requires n >= 1 && n * a < n * b
    ensures a < b
  {
    if a >= b { MultiplyMonotone(b, a, n); }
  }

  /** `getUserAnalytics(userId)`: all zero for a user without analyses;
      otherwise the completed and in-progress counts partition the total,
      and the rounded average lies between the lowest and highest score,
      which are scores of the user's analyses and within 0..100 when the
      stored scores are. */
  function GetUserAnalytics(db: seq<AnalysisRow>, userId: nat): (a: Analytics)
    ensures a.totalAnalyses == |OwnedBy(db, userId)|
    ensures a.totalAnalyses == 0 ==> a == Analytics(0, 0, 0, 0, 0, 0)
    ensures a.completedAnalyses == CountStatus(OwnedBy(db, userId), Completed)
    ensures a.inProgressAnalyses == CountStatus(OwnedBy(db, userId), InProgress)
    ensures a.completedAnalyses + a.inProgressAnalyses == a.totalAnalyses
    ensures a.totalAnalyses > 0 ==>
      a.averageTenths == RoundedMeanTenths(SumScores(OwnedBy(db, userId)), a.totalAnalyses)
    ensures a.totalAnalyses > 0 ==>
      a.lowestScore <= a.highestScore
      && 10 * a.lowestScore <= a.averageTenths <= 10 * a.highestScore
      && (exists i :: 0 <= i < |db| && db[i].userId == userId && db[i].atsScore == a.highestScore)
      && (exists i :: 0 <= i < |db| && db[i].userId == userId && db[i].atsScore == a.lowestScore)
    ensures forall i :: 0 <= i < |db| && db[i].userId == userId ==>
      a.lowestScore <= db[i].atsScore <= a.highestScore
    ensures (forall i :: 0 <= i < |db| ==> ScoreInRange(db[i].atsScore)) ==>
      0 <= a.lowestScore && a.highestScore <= 100 && 0 <= a.averageTenths <= 1000
  {
    var rows := OwnedBy(db, userId);
    var n := |rows|;
    StatusCountsPartition(rows);
    if n == 0 then
      Analytics(0, 0, 0, 0, 0, 0)
    else
      var hi := HighestScore(rows);
      var lo := LowestScore(rows);
      SumBetweenExtremes(rows, lo, hi);
      RoundedMeanBetween(SumScores(rows), n, lo, hi);
      Analytics(n, CountStatus(rows, Completed), CountStatus(rows, InProgress),
                RoundedMeanTenths(SumScores(rows), n), hi, lo)
  }

  /** The rows a listing reads from a collection of stored documents. */
  function Rows(docs: seq<Analysis>): (r: seq<AnalysisRow>)
    reads set i | 0 <= i < |docs| :: docs[i]
    ensures |r| == |docs|
    ensures forall i :: 0 <= i < |docs| ==> r[i] == docs[i].Row()
  {
    if docs == [] then [] else [docs[0].Row()] + Rows(docs[1..])
  }

  /** Over stored documents, whose scores the schema keeps within 0..100,
      the reported extremes and average stay within that range too. */
  lemma StoredAnalyticsInRange(docs: seq<Analysis>, userId: nat)
    requires forall i :: 0 <= i < |docs| ==> docs[i].Valid() && !docs[i].isNew
    ensures var a := GetUserAnalytics(Rows(docs), userId);
      0 <= a.lowestScore && a.highestScore <= 100 && 0 <= a.averageTenths <= 1000
  {
    var rows := Rows(docs);
    assert forall i :: 0 <= i < |rows| ==> ScoreInRange(rows[i].atsScore) by {
      forall i | 0 <= i < |rows| ensures ScoreInRange(rows[i].atsScore) {
        assert rows[i] == docs[i].Row();
      }
    }
  }
}
