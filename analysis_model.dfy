/** One analysis document (backend/models/Analysis.js): the current resume and
    score, an append-only history of versions, the suggestions with their
    implemented flags, and the in-progress/completed status. The class stands
    for the stored document: an update whose save the schema validator would
    reject leaves it as it was. */
module AnalysisModel {
  import opened Common
  import opened Sorting
  import opened Suggestions

  /** The `status` enumeration (default in-progress). */
  datatype Status = InProgress | Completed

  /** One entry of the version history. */
  datatype Version = Version(versionNumber: int, resumeText: string, atsScore: int, timestamp: Time, improvementNotes: string)

  /** The fields selected when a user's analyses are listed or aggregated. */
  datatype AnalysisRow = AnalysisRow(id: nat, userId: nat, jobTitle: string, atsScore: int, status: Status, createdAt: Time)

  /** What `getSummary` reports. */
  datatype AnalysisSummary = AnalysisSummary(
    id: nat, jobTitle: string, atsScore: int, status: Status, createdAt: Time,
    versionsCount: nat, highPrioritySuggestions: nat, implementedSuggestions: nat,
    totalSuggestions: nat, scoreImprovement: int)

  const DEFAULT_JOB_TITLE: string := "Untitled Position"
  const INITIAL_NOTES: string := "Initial analysis"

  /** The `min: 0, max: 100` bounds on every `atsScore`. */
  predicate ScoreInRange(score: int)
  {
    0 <= score <= 100
  }

  /** The version the save hook creates for a new analysis. */
  function InitialVersion(resumeText: string, atsScore: int, now: Time): (v: Version)
    ensures v.versionNumber == 1 && v.improvementNotes == INITIAL_NOTES
    ensures v.resumeText == resumeText && v.atsScore == atsScore && v.timestamp == now
  {
    Version(1, resumeText, atsScore, now, INITIAL_NOTES)
  }

  /** What the schema validator checks on save: the required strings are
      non-empty and every score is within bounds, on the record, on each
      suggestion and on each version. (The enumerations hold by typing.) */
  predicate Storable(jobDescription: string, resumeText: string, atsScore: int,
                     suggestions: seq<Suggestion>, versions: seq<Version>)
  {
    jobDescription != [] && resumeText != [] && ScoreInRange(atsScore)
    && (forall i :: 0 <= i < |suggestions| ==> suggestions[i].text != [])
    && (forall i :: 0 <= i < |versions| ==> versions[i].resumeText != [] && ScoreInRange(versions[i].atsScore))
  }

  /** Version numbers are 1, 2, 3, ... in history order. */
  ghost predicate NumberedFromOne(versions: seq<Version>)
  {
    forall i :: 0 <= i < |versions| ==> versions[i].versionNumber == i + 1
  }

  class Analysis {
    const id: nat
    const userId: nat
    const createdAt: Time
    var jobTitle: string
    var jobDescription: string
    var resumeText: string
    var atsScore: int
    var suggestions: seq<Suggestion>
    var versions: seq<Version>
    var status: Status
    var completedAt: Option<Time>
    /** Not yet saved for the first time (mongoose's `isNew`). */
    var isNew: bool

    /** The document invariant. Versions are numbered from one; suggestion
        ids are distinct; a completion time exists exactly for a completed
        analysis. A document not yet saved has no versions; a stored one has
        at least one, passes the schema, and its current resume and score
        are those of its latest version. */
    ghost predicate Valid()
      reads this
    {
      NumberedFromOne(versions)
      && UniqueIds(suggestions)
      && (status == Completed <==> completedAt.Some?)
      && (isNew ==> versions == [])
      && (!isNew ==>
            versions != []
            && Storable(jobDescription, resumeText, atsScore, suggestions, versions)
            && versions[|versions| - 1].resumeText == resumeText
            && versions[|versions| - 1].atsScore == atsScore)
    }

    /** Whether a save of the document as it stands would pass validation. */
    predicate CanSave()
      reads this
    {
      Storable(jobDescription, resumeText, atsScore, suggestions, versions)
    }

    /** `new Analysis({...})`: an unsaved document with the schema defaults
        (untitled when no job title is given, in progress, no versions). */
    constructor (id: nat, userId: nat, jobTitle: Option<string>, jobDescription: string,
                 resumeText: string, atsScore: int, suggestions: seq<Suggestion>, now: Time)
      requires UniqueIds(suggestions)
      ensures Valid() && isNew
      ensures this.id == id && this.userId == userId && createdAt == now
      ensures this.jobTitle == (if jobTitle.Some? then jobTitle.value else DEFAULT_JOB_TITLE)
      ensures this.jobDescription == jobDescription && this.resumeText == resumeText
      ensures this.atsScore == atsScore && this.suggestions == suggestions
      ensures versions == [] && status == InProgress && completedAt == None
    {
      this.id := id;
      this.userId := userId;
      this.createdAt := now;
      this.jobTitle := if jobTitle.Some? then jobTitle.value else DEFAULT_JOB_TITLE;
      this.jobDescription := jobDescription;
      this.resumeText := resumeText;
      this.atsScore := atsScore;
      this.suggestions := suggestions;
      versions := [];
      status := InProgress;
      completedAt := None;
      isNew := true;
    }

    /** The pre-save hook: a new document without versions gets version 1,
        a copy of its resume text and score noted as the initial analysis.
        Any other document is left as it is. */
    method PreSave(now: Time)
      modifies this`versions
      ensures old(isNew) && old(versions) == [] ==> versions == [InitialVersion(resumeText, atsScore, now)]
      ensures !(old(isNew) && old(versions) == []) ==> versions == old(versions)
    {
      if isNew && |versions| == 0 {
        versions := versions + [InitialVersion(resumeText, atsScore, now)];
      }
    }

    /** `save()`: validation first, then the pre-save hook, then the document
        is stored. A stored valid document always saves. */
    method Save(now: Time) returns (r: Outcome)
      requires Valid()
      modifies this
      ensures Valid()
      ensures r.Pass? <==> old(CanSave())
      ensures old(!isNew) ==> r.Pass?
      ensures r.Pass? ==> !isNew && versions == if old(isNew) then [InitialVersion(resumeText, atsScore, now)] else old(versions)
      ensures r.Fail? ==> isNew == old(isNew) && versions == old(versions)
      ensures jobTitle == old(jobTitle) && jobDescription == old(jobDescription)
      ensures resumeText == old(resumeText) && atsScore == old(atsScore)
      ensures suggestions == old(suggestions) && status == old(status) && completedAt == old(completedAt)
    {
      if !CanSave() {
        r := Fail(ValidationError);
        return;
      }
      PreSave(now);
      isNew := false;
      r := Pass;
    }

    /** The `currentVersion` virtual: the length of the history, which for a
        stored document is the number of its latest version. */
    function CurrentVersion(): (n: nat)
      reads this
      ensures n == |versions|
      ensures Valid() && !isNew ==> n >= 1 && versions[n - 1].versionNumber == n
    {
      |versions|
    }

    /** The `scoreImprovement` virtual: 0 with fewer than two versions,
        otherwise the current score less the first version's. On a stored
        document that is the change from the first to the latest version,
        within -100..100; it may be negative. */
    function ScoreImprovement(): (d: int)
      reads this
      ensures |versions| < 2 ==> d == 0
      ensures Valid() && !isNew ==> -100 <= d <= 100
      ensures Valid() && !isNew && |versions| >= 2 ==>
        d == versions[|versions| - 1].atsScore - versions[0].atsScore
    {
      if |versions| < 2 then 0 else atsScore - versions[0].atsScore
    }

    /** `addVersion` followed by its save: appends version `|versions| + 1`
        and makes its text and score the current ones. Earlier versions are
        untouched. When the schema rejects the new text or score, nothing
        changes. */
    method AddVersion(text: string, score: int, notes: string, now: Time) returns (r: Result<Version>)
      requires Valid()
      modifies this
      ensures Valid()
      ensures r.Success? ==> text != [] && ScoreInRange(score)
      ensures old(!isNew) ==> (r.Success? <==> text != [] && ScoreInRange(score))
      ensures r.Success? <==> Storable(old(jobDescription), text, score, old(suggestions),
                                       old(versions) + [Version(|old(versions)| + 1, text, score, now, notes)])
      ensures r.Success? ==> r.value == Version(|old(versions)| + 1, text, score, now, notes)
      ensures r.Success? ==> versions == old(versions) + [r.value] && !isNew
      ensures r.Success? ==> resumeText == text && atsScore == score
      ensures r.Success? ==> CurrentVersion() == old(CurrentVersion()) + 1
      ensures r.Success? && |old(versions)| >= 1 ==> ScoreImprovement() == score - versions[0].atsScore
      ensures r.Failure? ==> versions == old(versions) && resumeText == old(resumeText)
                             && atsScore == old(atsScore) && isNew == old(isNew)
      ensures jobTitle == old(jobTitle) && jobDescription == old(jobDescription)
      ensures suggestions == old(suggestions) && status == old(status) && completedAt == old(completedAt)
    {
      var v := Version(|versions| + 1, text, score, now, notes);
      if !Storable(jobDescription, text, score, suggestions, versions + [v]) {
        r := Failure(ValidationError);
        return;
      }
      versions := versions + [v];
      resumeText := text;
      atsScore := score;
      // the save; its hook adds nothing to a non-empty history
      isNew := false;
      r := Success(v);
    }

    /** `complete` followed by its save: the analysis becomes completed at
        `now`. A second call is not rejected; it completes again with the
        new time. */
    method Complete(now: Time) returns (r: Outcome)
      requires Valid()
      modifies this
      ensures Valid()
      ensures r.Pass? <==> old(CanSave())
      ensures old(!isNew) ==> r.Pass?
      ensures r.Pass? ==> status == Completed && completedAt == Some(now) && !isNew
      ensures r.Pass? ==> versions == if old(isNew) then [InitialVersion(resumeText, atsScore, now)] else old(versions)
      ensures r.Fail? ==> status == old(status) && completedAt == old(completedAt)
                          && versions == old(versions) && isNew == old(isNew)
      ensures jobTitle == old(jobTitle) && jobDescription == old(jobDescription)
      ensures resumeText == old(resumeText) && atsScore == old(atsScore) && suggestions == old(suggestions)
    {
      if !CanSave() {
        r := Fail(ValidationError);
        return;
      }
      status := Completed;
      completedAt := Some(now);
      r := Save(now);
    }

    /** `implementSuggestion` and its save: the suggestion with that id is
        flagged as implemented and returned; with no such suggestion the
        result is null and nothing changes. */
    method ImplementSuggestion(suggestionId: nat, now: Time) returns (r: Result<Option<Suggestion>>)
      requires Valid()
      modifies this
      ensures Valid()
      ensures FindSuggestion(old(suggestions), suggestionId).None? ==>
        r == Success(None) && suggestions == old(suggestions)
        && versions == old(versions) && isNew == old(isNew)
      ensures old(!isNew) ==> r.Success?
      ensures FindSuggestion(old(suggestions), suggestionId).Some? ==> (r.Success? <==> old(CanSave()))
      ensures r.Success? ==> (r.value.Some? <==> FindSuggestion(old(suggestions), suggestionId).Some?)
      ensures r.Success? ==> suggestions == MarkImplemented(old(suggestions), suggestionId)
      ensures r.Success? && r.value.Some? ==>
        r.value.value.id == suggestionId && r.value.value.implemented && r.value.value in suggestions
      ensures r.Success? && FindSuggestion(old(suggestions), suggestionId).Some? ==>
        var i := FindSuggestion(old(suggestions), suggestionId).value;
        r.value == Some(old(suggestions)[i].(implemented := true))
        && !isNew && versions == (if old(isNew) then [InitialVersion(resumeText, atsScore, now)] else old(versions))
      ensures r.Failure? ==> suggestions == old(suggestions) && versions == old(versions) && isNew == old(isNew)
      ensures jobTitle == old(jobTitle) && jobDescription == old(jobDescription)
      ensures resumeText == old(resumeText) && atsScore == old(atsScore)
      ensures status == old(status) && completedAt == old(completedAt)
    {
      var found := FindSuggestion(suggestions, suggestionId);
      if found.None? {
        r := Success(None);
        return;
      }
      if !CanSave() {
        r := Failure(ValidationError);
        return;
      }
      var i := found.value;
      suggestions := suggestions[i := suggestions[i].(implemented := true)];
      var saved := Save(now);
      r := Success(Some(suggestions[i]));
    }

    /** `getHighPrioritySuggestions`: exactly the high-priority suggestions
        not yet implemented, in ascending order of category name, suggestions
        of one category in their original order. */
    function GetHighPrioritySuggestions(): (r: seq<Suggestion>)
      reads this
      ensures forall x :: x in r <==> x in suggestions && IsPendingHigh(x)
      ensures multiset(r) == multiset(PendingHighPriority(suggestions))
      ensures forall i, j :: 0 <= i < j < |r| ==> NameLe(r[i].category.Name(), r[j].category.Name())
      ensures forall c: Category ::
        WithKey(r, CategoryKey, c.Rank()) == WithKey(PendingHighPriority(suggestions), CategoryKey, c.Rank())
      ensures forall c: Category ::
        WithKey(r, CategoryKey, c.Rank()) == PendingHighPriority(WithKey(suggestions, CategoryKey, c.Rank()))
    {
      var r := SortByCategory(PendingHighPriority(suggestions));
      forall c: Category
        ensures WithKey(PendingHighPriority(suggestions), CategoryKey, c.Rank())
             == PendingHighPriority(WithKey(suggestions, CategoryKey, c.Rank()))
      {
        PendingCommutesWithCategory(suggestions, c.Rank());
      }
      assert forall x :: x in r <==> x in multiset(r);
      r
    }

    /** `getSummary`. The counts are bounded by the number of suggestions,
        and the high-priority count covers every suggestion that
        `getHighPrioritySuggestions` returns (it also counts implemented
        ones). */
    function GetSummary(): (s: AnalysisSummary)
      reads this
      ensures s.id == id && s.versionsCount == |versions| && s.totalSuggestions == |suggestions|
      ensures s.jobTitle == jobTitle && s.atsScore == atsScore && s.status == status && s.createdAt == createdAt
      ensures s.highPrioritySuggestions == CountHighPriority(suggestions)
      ensures s.implementedSuggestions == CountImplemented(suggestions)
      ensures s.implementedSuggestions <= s.totalSuggestions
      ensures s.highPrioritySuggestions <= s.totalSuggestions
      ensures |GetHighPrioritySuggestions()| <= s.highPrioritySuggestions
      ensures |GetHighPrioritySuggestions()| + s.implementedSuggestions <= s.totalSuggestions
      ensures s.scoreImprovement == ScoreImprovement()
    {
      PendingWithinCounts(suggestions);
      AnalysisSummary(id, jobTitle, atsScore, status, createdAt, |versions|,
              CountHighPriority(suggestions), CountImplemented(suggestions),
              |suggestions|, ScoreImprovement())
    }

    /** The fields a listing selects; a stored document's score is in bounds. */
    function Row(): (row: AnalysisRow)
      reads this
      ensures row.id == id && row.userId == userId && row.createdAt == createdAt
      ensures row.jobTitle == jobTitle && row.atsScore == atsScore && row.status == status
      ensures Valid() && !isNew ==> ScoreInRange(row.atsScore)
    {
      AnalysisRow(id, userId, jobTitle, atsScore, status, createdAt)
    }
  }
}
