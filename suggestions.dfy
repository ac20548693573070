/** The suggestion sub-documents of an analysis (backend/models/Analysis.js):
    the schema's enumerations, the filters behind `getSummary` and
    `getHighPrioritySuggestions`, the order of categories used by the latter's
    sort, and the lookup and flag update behind `implementSuggestion`. */
module Suggestions {
  import opened Common
  import opened Sorting

  /** The `category` enumeration of the suggestion schema. */
  datatype Category =
    | Keywords | Formatting | Experience | Skills | Education
    | Summary | ActionVerbs | Quantification | Other
  {
    /** The string stored for the category. */
    function Name(): string
    {
      match this
      case Keywords => "Keywords"
      case Formatting => "Formatting"
      case Experience => "Experience"
      case Skills => "Skills"
      case Education => "Education"
      case Summary => "Summary"
      case ActionVerbs => "Action Verbs"
      case Quantification => "Quantification"
      case Other => "Other"
    }

    /** The position of the category's name in ascending string order. */
    function Rank(): (r: int)
      ensures 0 <= r < 9
    {
      match this
      case ActionVerbs => 0
      case Education => 1
      case Experience => 2
      case Formatting => 3
      case Keywords => 4
      case Other => 5
      case Quantification => 6
      case Skills => 7
      case Summary => 8
    }
  }

  /** The `priority` enumeration of the suggestion schema (default Medium). */
  datatype Priority = High | Medium | Low

  /** One suggestion sub-document; `id` is its `_id`, `text` its `suggestion`. */
  datatype Suggestion = Suggestion(id: nat, category: Category, priority: Priority, text: string, implemented: bool)

  /** `a` sorts before or together with `b` when strings are compared code
      unit by code unit, which is how `a.localeCompare(b) <= 0` orders the
      category names. */
  predicate NameLe(a: string, b: string)
  {
    if a == [] then true
    else if b == [] then false
    else if a[0] != b[0] then a[0] < b[0]
    else NameLe(a[1..], b[1..])
  }

  lemma {:induction false} NameLeReflexive(a: string)
    ensures NameLe(a, a)
  {
    if a != [] { NameLeReflexive(a[1..]); }
  }

  lemma {:induction false} NameLeTransitive(a: string, b: string, c: string)
    requires NameLe(a, b) && NameLe(b, c)
    ensures NameLe(a, c)
  {
    if a != [] && b != [] && c != [] && a[0] == b[0] == c[0] {
      NameLeTransitive(a[1..], b[1..], c[1..]);
    }
  }

  lemma {:induction false} NameLeAntisymmetric(a: string, b: string)
    requires NameLe(a, b) && NameLe(b, a)
    ensures a == b
  {
    if a != [] && b != [] {
      NameLeAntisymmetric(a[1..], b[1..]);
      assert a == [a[0]] + a[1..] && b == [b[0]] + b[1..];
    }
  }

  /** The category of rank `i`. */
  function CategoryAt(i: int): (c: Category)
    requires 0 <= i < 9
    ensures c.Rank() == i
  {
    [ActionVerbs, Education, Experience, Formatting, Keywords, Other, Quantification, Skills, Summary][i]
  }

  /** Consecutive ranks have strictly ascending names. */
  lemma NextNameIsGreater(i: int)
    requires 0 <= i < 8
    ensures NameLe(CategoryAt(i).Name(), CategoryAt(i + 1).Name())
    ensures CategoryAt(i).Name() != CategoryAt(i + 1).Name()
  {
    match i
    case 0 => case 1 => case 2 => case 3 => case 4 => case 5 => case 6 => case 7 =>
  }

  lemma {:induction false} NamesAscendWithRank(i: int, j: int)
    requires 0 <= i <= j < 9
    ensures NameLe(CategoryAt(i).Name(), CategoryAt(j).Name())
  {
    if i == j {
      NameLeReflexive(CategoryAt(i).Name());
    } else {
      NamesAscendWithRank(i, j - 1);
      NextNameIsGreater(j - 1);
      NameLeTransitive(CategoryAt(i).Name(), CategoryAt(j - 1).Name(), CategoryAt(j).Name());
    }
  }

  /** Ranks order the categories exactly as their names compare, so sorting
      by rank is sorting by name; and the rank identifies the category. */
  lemma RankAgreesWithNames(a: Category, b: Category)
    ensures a.Rank() <= b.Rank() <==> NameLe(a.Name(), b.Name())
    ensures a.Rank() == b.Rank() <==> a == b
  {
    assert CategoryAt(a.Rank()) == a && CategoryAt(b.Rank()) == b;
    if a.Rank() <= b.Rank() {
      NamesAscendWithRank(a.Rank(), b.Rank());
    } else {
      var n := b.Rank() + 1;
      NextNameIsGreater(b.Rank());
      NamesAscendWithRank(n, a.Rank());
      if NameLe(a.Name(), b.Name()) {
        NameLeTransitive(CategoryAt(n).Name(), a.Name(), b.Name());
        NameLeAntisymmetric(b.Name(), CategoryAt(n).Name());
      }
    }
  }

  /** Selected by `getHighPrioritySuggestions`: high priority and not yet implemented. */
  predicate IsPendingHigh(x: Suggestion)
  {
    x.priority == High && !x.implemented
  }

  /** The filter `priority === 'High' && !implemented`, keeping the order. */
  function PendingHighPriority(s: seq<Suggestion>): (r: seq<Suggestion>)
    ensures |r| <= |s|
    ensures forall i :: 0 <= i < |r| ==> r[i] in s && IsPendingHigh(r[i])
    ensures forall i :: 0 <= i < |s| && IsPendingHigh(s[i]) ==> s[i] in r
  {
    if s == [] then []
    else if IsPendingHigh(s[0]) then [s[0]] + PendingHighPriority(s[1..])
    else PendingHighPriority(s[1..])
  }

  /** Each suggestion occurs in the filtered list exactly as often as in the
      input when it is pending and of high priority, and not at all otherwise. */
  lemma {:induction false} PendingHighPriorityOccurrences(s: seq<Suggestion>)
    ensures forall x :: multiset(PendingHighPriority(s))[x] == if IsPendingHigh(x) then multiset(s)[x] else 0
  {
    if s != [] {
      assert s == [s[0]] + s[1..];
      PendingHighPriorityOccurrences(s[1..]);
    }
  }

  /** The filter keeps the input order: filtering a list is filtering its
      two parts and joining the results. */
  lemma {:induction false} PendingHighPriorityConcat(a: seq<Suggestion>, b: seq<Suggestion>)
    ensures PendingHighPriority(a + b) == PendingHighPriority(a) + PendingHighPriority(b)
  {
    if a == [] {
      assert a + b == b;
    } else {
      var ab := a + b;
      assert ab[0] == a[0] && ab[1..] == a[1..] + b;
      PendingHighPriorityConcat(a[1..], b);
    }
  }

  /** Taking the pending high-priority suggestions and then those of one
      category is the same as the other way round. */
  lemma {:induction false} PendingCommutesWithCategory(s: seq<Suggestion>, k: int)
    ensures WithKey(PendingHighPriority(s), CategoryKey, k) == PendingHighPriority(WithKey(s, CategoryKey, k))
  {
    if s != [] {
      PendingCommutesWithCategory(s[1..], k);
      var p := PendingHighPriority(s[1..]);
      var w := WithKey(s[1..], CategoryKey, k);
      if IsPendingHigh(s[0]) && CategoryKey(s[0]) == k {
        assert ([s[0]] + p)[0] == s[0] && ([s[0]] + p)[1..] == p;
        assert ([s[0]] + w)[0] == s[0] && ([s[0]] + w)[1..] == w;
      } else if IsPendingHigh(s[0]) {
        assert ([s[0]] + p)[0] == s[0] && ([s[0]] + p)[1..] == p;
      } else if CategoryKey(s[0]) == k {
        assert ([s[0]] + w)[0] == s[0] && ([s[0]] + w)[1..] == w;
      }
    }
  }

  /** The number counted as `highPrioritySuggestions` by `getSummary`: every
      high-priority suggestion, implemented or not. */
  function CountHighPriority(s: seq<Suggestion>): (n: nat)
    ensures n <= |s|
    ensures n == 0 <==> forall i :: 0 <= i < |s| ==> s[i].priority != High
    ensures n == |s| <==> forall i :: 0 <= i < |s| ==> s[i].priority == High
  {
    if s == [] then 0
    else (if s[0].priority == High then 1 else 0) + CountHighPriority(s[1..])
  }

  /** The number counted as `implementedSuggestions` by `getSummary`. */
  function CountImplemented(s: seq<Suggestion>): (n: nat)
    ensures n <= |s|
    ensures n == 0 <==> forall i :: 0 <= i < |s| ==> !s[i].implemented
    ensures n == |s| <==> forall i :: 0 <= i < |s| ==> s[i].implemented
  {
    if s == [] then 0
    else (if s[0].implemented then 1 else 0) + CountImplemented(s[1..])
  }

  /** Both counts add up over the parts of a list, so each is the number
      of suggestions of its kind, one per suggestion. */
  lemma {:induction false} CountsConcat(a: seq<Suggestion>, b: seq<Suggestion>)
    ensures CountHighPriority(a + b) == CountHighPriority(a) + CountHighPriority(b)
    ensures CountImplemented(a + b) == CountImplemented(a) + CountImplemented(b)
  {
    if a == [] {
      assert a + b == b;
    } else {
      var ab := a + b;
      assert ab[0] == a[0] && ab[1..] == a[1..] + b;
      CountsConcat(a[1..], b);
      assert CountHighPriority(ab) == (if a[0].priority == High then 1 else 0) + CountHighPriority(ab[1..]);
      assert CountImplemented(ab) == (if a[0].implemented then 1 else 0) + CountImplemented(ab[1..]);
    }
  }

  /** The pending high-priority suggestions are among the high-priority ones,
      and are disjoint from the implemented ones. */
  lemma {:induction false} PendingWithinCounts(s: seq<Suggestion>)
    ensures |PendingHighPriority(s)| <= CountHighPriority(s)
    ensures |PendingHighPriority(s)| + CountImplemented(s) <= |s|
  {
    if s != [] { PendingWithinCounts(s[1..]); }
  }

  /** The sort key of `getHighPrioritySuggestions`: the category's position in
      name order. */
  function CategoryKey(x: Suggestion): int
  {
    x.category.Rank()
  }

  /** `.sort((a, b) => a.category.localeCompare(b.category))` on a list of
      suggestions: ascending by category name, a permutation of its input,
      and stable, so that suggestions of one category keep their order. */
  function SortByCategory(s: seq<Suggestion>): (r: seq<Suggestion>)
    ensures multiset(r) == multiset(s)
    ensures forall i, j :: 0 <= i < j < |r| ==> NameLe(r[i].category.Name(), r[j].category.Name())
    ensures forall c: Category :: WithKey(r, CategoryKey, c.Rank()) == WithKey(s, CategoryKey, c.Rank())
  {
    var r := SortBy(s, CategoryKey);
    assert forall i, j :: 0 <= i < j < |r| ==> NameLe(r[i].category.Name(), r[j].category.Name()) by {
      forall i, j | 0 <= i < j < |r| ensures NameLe(r[i].category.Name(), r[j].category.Name()) {
        RankAgreesWithNames(r[i].category, r[j].category);
      }
    }
    r
  }

  /** Of a pending Keywords, an implemented Skills and a pending Formatting
      suggestion, all of high priority, the high-priority list is the
      Formatting one followed by the Keywords one. */
  lemma HighPriorityExample(k: Suggestion, s: Suggestion, f: Suggestion)
    requires k.category == Keywords && k.priority == High && !k.implemented
    requires s.category == Skills && s.priority == High && s.implemented
    requires f.category == Formatting && f.priority == High && !f.implemented
    ensures SortByCategory(PendingHighPriority([k, s, f])) == [f, k]
  {
    assert PendingHighPriority([k, s, f]) == [k, f] by {
      assert [k, s, f][1..] == [s, f] && [s, f][1..] == [f] && [f][1..] == [];
      assert PendingHighPriority([f]) == [f];
      assert PendingHighPriority([s, f]) == [f];
    }
    assert SortBy([k, f], CategoryKey) == [f, k] by {
      assert [k, f][1..] == [f] && [f][1..] == [];
      assert SortBy([f], CategoryKey) == [f];
      assert Insert(k, [f], CategoryKey) == [f] + Insert(k, [], CategoryKey);
    }
  }

  /** Suggestion ids are distinct, as the generated `_id`s are. */
  ghost predicate UniqueIds(s: seq<Suggestion>)
  {
    forall i, j :: 0 <= i < j < |s| ==> s[i].id != s[j].id
  }

  /** `suggestions.id(suggestionId)`: the position of the first suggestion with
      that id, or none when no suggestion has it. */
  function FindSuggestion(s: seq<Suggestion>, id: nat): (r: Option<nat>)
    ensures r.Some? ==> r.value < |s| && s[r.value].id == id
    ensures r.Some? ==> forall j :: 0 <= j < r.value ==> s[j].id != id
    ensures r.None? <==> forall j :: 0 <= j < |s| ==> s[j].id != id
  {
    if s == [] then None
    else if s[0].id == id then Some(0)
    else match FindSuggestion(s[1..], id)
      case None => None
      case Some(k) => Some(k + 1)
  }

  /** The suggestions after `implementSuggestion(id)`: the found suggestion is
      flagged as implemented, and the list is unchanged when none is found. */
  function MarkImplemented(s: seq<Suggestion>, id: nat): (r: seq<Suggestion>)
    ensures |r| == |s|
    ensures forall i :: 0 <= i < |s| ==> r[i].id == s[i].id && r[i].text == s[i].text
    ensures FindSuggestion(s, id).None? ==> r == s
    ensures UniqueIds(s) ==> UniqueIds(r)
    ensures UniqueIds(s) ==> forall i :: 0 <= i < |s| ==>
      r[i] == if s[i].id == id then s[i].(implemented := true) else s[i]
  {
    match FindSuggestion(s, id)
    case None => s
    case Some(i) => s[i := s[i].(implemented := true)]
  }

  /** Implementing a suggestion twice is the same as implementing it once. */
  lemma MarkImplementedIdempotent(s: seq<Suggestion>, id: nat)
    ensures MarkImplemented(MarkImplemented(s, id), id) == MarkImplemented(s, id)
  {
    var r := MarkImplemented(s, id);
    match FindSuggestion(s, id)
    case None =>
    case Some(i) =>
      var f := FindSuggestion(r, id);
      assert f.Some? && f.value == i by {
        assert r[i].id == id;
        assert forall j :: 0 <= j < i ==> r[j].id != id;
      }
  }

  /** Implementing a suggestion leaves the high-priority count as it is and
      raises the implemented count by one exactly when the suggestion was
      found and not implemented yet. */
  lemma MarkImplementedCounts(s: seq<Suggestion>, id: nat)
    ensures CountHighPriority(MarkImplemented(s, id)) == CountHighPriority(s)
    ensures CountImplemented(MarkImplemented(s, id))
         == CountImplemented(s) + match FindSuggestion(s, id)
                                  case Some(i) => if s[i].implemented then 0 else 1
                                  case None => 0
  {
    match FindSuggestion(s, id)
    case None =>
    case Some(i) =>
      var r := MarkImplemented(s, id);
      assert s == s[..i] + [s[i]] + s[i + 1..];
      assert r == s[..i] + [r[i]] + s[i + 1..];
      CountsConcat(s[..i] + [s[i]], s[i + 1..]);
      CountsConcat(s[..i], [s[i]]);
      CountsConcat(s[..i] + [r[i]], s[i + 1..]);
      CountsConcat(s[..i], [r[i]]);
  }
}
