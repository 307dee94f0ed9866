/**
 * Stable sorting by a comparison, the model of Python's `sorted(..., key=...)`,
 * `list.sort(key=...)` and JavaScript's `Array.prototype.sort` with a comparator.
 * All three are stable: elements that compare equal keep their input order.
 */
module Sorting {

  /** `le` orders like `key(a) <= key(b)` for some totally ordered key. */
  ghost predicate TotalPreorder<T(!new)>(le: (T, T) -> bool)
  {
    && (forall a, b :: le(a, b) || le(b, a))
    && (forall a, b, c :: le(a, b) && le(b, c) ==> le(a, c))
  }

  ghost predicate SortedBy<T>(s: seq<T>, le: (T, T) -> bool)
  {
    forall i, j :: 0 <= i < j < |s| ==> le(s[i], s[j])
  }

  /** Puts `x` in front of the first element of `s` that it may precede. */
  function Insert<T>(x: T, s: seq<T>, le: (T, T) -> bool): (r: seq<T>)
    ensures |r| == |s| + 1
    ensures multiset(r) == multiset(s) + multiset{x}
  {
    if s == [] || le(x, s[0]) then [x] + s
    else
      assert s == [s[0]] + s[1..];
      [s[0]] + Insert(x, s[1..], le)
  }

  /** Insertion sort; each element is placed before the elements it ties with, so the sort is stable. */
  function SortBy<T>(s: seq<T>, le: (T, T) -> bool): (r: seq<T>)
    ensures |r| == |s|
    ensures multiset(r) == multiset(s)
  {
    if s == [] then []
    else
      assert s == [s[0]] + s[1..];
      Insert(s[0], SortBy(s[1..], le), le)
  }

  lemma {:induction false} InsertSorted<T(!new)>(x: T, s: seq<T>, le: (T, T) -> bool)
    requires TotalPreorder(le) && SortedBy(s, le)
    ensures SortedBy(Insert(x, s, le), le)
  {
    if s == [] || le(x, s[0]) {
    } else {
      var r := Insert(x, s[1..], le);
      InsertSorted(x, s[1..], le);
      forall j | 0 <= j < |r|
        ensures le(s[0], r[j])
      {
        assert r[j] in multiset(r);
        if r[j] != x {
          assert r[j] in multiset(s[1..]);
          var m :| 0 <= m < |s[1..]| && s[1..][m] == r[j];
          assert s[m + 1] == r[j];
        }
      }
    }
  }

  /** The result of `SortBy` is ordered by `le`. */
  lemma {:induction false} SortBySorted<T(!new)>(s: seq<T>, le: (T, T) -> bool)
    requires TotalPreorder(le)
    ensures SortedBy(SortBy(s, le), le)
  {
    if s != [] {
      SortBySorted(s[1..], le);
      InsertSorted(s[0], SortBy(s[1..], le), le);
    }
  }

  /** The last element of a sorted non-empty sequence is one of its elements, and every element may precede it. */
  lemma SortByLast<T(!new)>(s: seq<T>, le: (T, T) -> bool)
    requires TotalPreorder(le) && s != []
    ensures exists i :: 0 <= i < |s| && s[i] == SortBy(s, le)[|s| - 1]
    ensures forall i :: 0 <= i < |s| ==> le(s[i], SortBy(s, le)[|s| - 1])
  {
    var sorted := SortBy(s, le);
    var last := sorted[|s| - 1];
    SortBySorted(s, le);
    assert last in multiset(s);
    forall i | 0 <= i < |s|
      ensures le(s[i], last)
    {
      assert s[i] in multiset(sorted);
      var j :| 0 <= j < |sorted| && sorted[j] == s[i];
      if j < |sorted| - 1 {
        assert le(sorted[j], last);
      }
    }
  }
}
