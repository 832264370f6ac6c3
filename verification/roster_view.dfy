/**
 * The list the check-in screen displays: the roster filtered by the search text
 * and then sorted by classroom number, ascending or descending.
 */
module RosterView {
  import opened Roster
  import Strings
  import Sequences

  /** The search filter: empty search text keeps every record. */
  predicate MatchesSearch(searchText: string, c: ClassData)
    ensures MatchesSearch(searchText, c) <==>
      |searchText| == 0 || exists i :: Strings.OccursAt(c.classroomNumber, searchText, i)
  {
    |searchText| == 0 || Strings.ContainsIgnoringCase(c.classroomNumber, searchText)
  }

  function SearchFilter(searchText: string): ClassData -> bool {
    (c: ClassData) => MatchesSearch(searchText, c)
  }

  /** The records kept by the search box, in roster order. */
  function FilterBySearch(records: seq<ClassData>, searchText: string): (r: seq<ClassData>)
    ensures forall c :: c in r <==> c in records && MatchesSearch(searchText, c)
    ensures forall c :: multiset(r)[c] == if MatchesSearch(searchText, c) then multiset(records)[c] else 0
    ensures Sequences.IsSubsequence(r, records)
  {
    Sequences.Filter(SearchFilter(searchText), records)
  }

  /** With no search text the filter keeps the roster as it is. */
  lemma EmptySearchKeepsAll(records: seq<ClassData>)
    ensures FilterBySearch(records, "") == records
  {
    Sequences.FilterKeepsAll(SearchFilter(""), records);
  }

  /** The sort comparator: `a` must come before `b`. */
  predicate InIncreasingOrder(ascending: bool, a: ClassData, b: ClassData)
    ensures InIncreasingOrder(ascending, a, b) ==> a.classroomNumber != b.classroomNumber
    ensures |a.classroomNumber| < |b.classroomNumber| && a.classroomNumber == b.classroomNumber[..|a.classroomNumber|]
      ==> InIncreasingOrder(ascending, a, b) == ascending
  {
    if ascending then Strings.Less(a.classroomNumber, b.classroomNumber)
    else
      assert Strings.Less(a.classroomNumber, b.classroomNumber) ==> !Strings.Less(b.classroomNumber, a.classroomNumber) by {
        if Strings.Less(a.classroomNumber, b.classroomNumber) {
          Strings.LessAsymmetric(a.classroomNumber, b.classroomNumber);
        }
      }
      Strings.Less(b.classroomNumber, a.classroomNumber)
  }

  /** No record is displayed after one it must precede. */
  ghost predicate IsSorted(ascending: bool, s: seq<ClassData>) {
    forall i, j :: 0 <= i < j < |s| ==> !InIncreasingOrder(ascending, s[j], s[i])
  }

  lemma ComparatorAsymmetric(ascending: bool, a: ClassData, b: ClassData)
    requires InIncreasingOrder(ascending, a, b)
    ensures !InIncreasingOrder(ascending, b, a)
  {
    if ascending {
      Strings.LessAsymmetric(a.classroomNumber, b.classroomNumber);
    } else {
      Strings.LessAsymmetric(b.classroomNumber, a.classroomNumber);
    }
  }

  /** "Not before" is transitive for the comparator. */
  lemma ComparatorNotBeforeTransitive(ascending: bool, a: ClassData, b: ClassData, c: ClassData)
    requires !InIncreasingOrder(ascending, b, a) && !InIncreasingOrder(ascending, c, b)
    ensures !InIncreasingOrder(ascending, c, a)
  {
    if ascending {
      Strings.NotLessTransitive(a.classroomNumber, b.classroomNumber, c.classroomNumber);
    } else {
      Strings.NotLessTransitive(c.classroomNumber, b.classroomNumber, a.classroomNumber);
    }
  }

  /** A record that no element of a sorted list must precede can head that list. */
  lemma ConsSorted(ascending: bool, h: ClassData, t: seq<ClassData>)
    requires IsSorted(ascending, t)
    requires forall j :: 0 <= j < |t| ==> !InIncreasingOrder(ascending, t[j], h)
    ensures IsSorted(ascending, [h] + t)
  {
    var r := [h] + t;
    forall i, j | 0 <= i < j < |r|
      ensures !InIncreasingOrder(ascending, r[j], r[i])
    {
      assert r[j] == t[j - 1];
      if i > 0 {
        assert r[i] == t[i - 1];
      }
    }
  }

  /** Inserts `x` into a sorted list after every record that must precede it. */
  function Insert(ascending: bool, x: ClassData, s: seq<ClassData>): (r: seq<ClassData>)
    requires IsSorted(ascending, s)
    ensures IsSorted(ascending, r)
    ensures multiset(r) == multiset(s) + multiset{x}
  {
    if |s| == 0 then [x]
    else if InIncreasingOrder(ascending, s[0], x) then
      var tail := Insert(ascending, x, s[1..]);
      assert s == [s[0]] + s[1..];
      assert forall j :: 0 <= j < |tail| ==> !InIncreasingOrder(ascending, tail[j], s[0]) by {
        forall j | 0 <= j < |tail|
          ensures !InIncreasingOrder(ascending, tail[j], s[0])
        {
          assert tail[j] in multiset(tail);
          if tail[j] == x {
            ComparatorAsymmetric(ascending, s[0], x);
          } else {
            assert tail[j] in s[1..];
          }
        }
      }
      ConsSorted(ascending, s[0], tail);
      [s[0]] + tail
    else
      assert forall j :: 0 <= j < |s| ==> !InIncreasingOrder(ascending, s[j], x) by {
        forall j | 0 < j < |s|
          ensures !InIncreasingOrder(ascending, s[j], x)
        {
          ComparatorNotBeforeTransitive(ascending, x, s[0], s[j]);
        }
      }
      ConsSorted(ascending, x, s);
      [x] + s
  }

  /** Sorting by classroom number (`sorted(by:)`), as a stable insertion sort. */
  function SortByClassroom(ascending: bool, s: seq<ClassData>): (r: seq<ClassData>)
    ensures IsSorted(ascending, r)
    ensures multiset(r) == multiset(s)
  {
    if |s| == 0 then []
    else
      assert s == [s[0]] + s[1..];
      Insert(ascending, s[0], SortByClassroom(ascending, s[1..]))
  }

  /** A list already in order is left exactly as it is. */
  lemma {:induction false} SortSortedIsIdentity(ascending: bool, s: seq<ClassData>)
    requires IsSorted(ascending, s)
    ensures SortByClassroom(ascending, s) == s
  {
    if |s| > 0 {
      assert IsSorted(ascending, s[1..]);
      SortSortedIsIdentity(ascending, s[1..]);
      if |s| > 1 {
        assert !InIncreasingOrder(ascending, s[1], s[0]);
      }
      assert s == [s[0]] + s[1..];
    }
  }

  /** The list the screen shows: filter by the search text, then sort. */
  function Displayed(records: seq<ClassData>, searchText: string, ascending: bool): (r: seq<ClassData>)
    ensures IsSorted(ascending, r)
    ensures forall c :: multiset(r)[c] == if MatchesSearch(searchText, c) then multiset(records)[c] else 0
    ensures forall c :: c in r <==> c in records && MatchesSearch(searchText, c)
  {
    var r := SortByClassroom(ascending, FilterBySearch(records, searchText));
    assert forall c :: c in r <==> c in multiset(r);
    r
  }

  /** Displaying the displayed list again changes nothing. */
  lemma DisplayedIdempotent(records: seq<ClassData>, searchText: string, ascending: bool)
    ensures Displayed(Displayed(records, searchText, ascending), searchText, ascending)
      == Displayed(records, searchText, ascending)
  {
    var shown := Displayed(records, searchText, ascending);
    Sequences.FilterKeepsAll(SearchFilter(searchText), shown);
    SortSortedIsIdentity(ascending, shown);
  }

  /** With no search text every record is shown, as often as it occurs in the roster. */
  lemma EmptySearchShowsAll(records: seq<ClassData>, ascending: bool)
    ensures multiset(Displayed(records, "", ascending)) == multiset(records)
  {
    EmptySearchKeepsAll(records);
  }
}
