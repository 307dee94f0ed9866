/**
 * Run-length grouping, the model of `itertools.groupby`: consecutive elements with
 * equal keys form one group, and a key that comes back later starts a new group.
 */
module Runs {
  import opened Sorting

  function Flatten<T>(groups: seq<seq<T>>): seq<T>
  {
    if groups == [] then [] else groups[0] + Flatten(groups[1..])
  }

  /** `[list(g) for _, g in itertools.groupby(s, key=key)]`. */
  function GroupRuns<T, K(==)>(s: seq<T>, key: T -> K): (runs: seq<seq<T>>)
    ensures Flatten(runs) == s
    ensures forall j :: 0 <= j < |runs| ==> runs[j] != []
    ensures forall j, m :: 0 <= j < |runs| && 0 <= m < |runs[j]| ==> key(runs[j][m]) == key(runs[j][0])
    ensures forall j :: 0 < j < |runs| ==> key(runs[j][0]) != key(runs[j - 1][0])
    ensures s != [] ==> runs != [] && runs[0][0] == s[0]
  {
    if s == [] then []
    else
      var rest := GroupRuns(s[1..], key);
      if rest != [] && key(rest[0][0]) == key(s[0]) then
        var runs := [[s[0]] + rest[0]] + rest[1..];
        assert runs[1..] == rest[1..];
        assert Flatten(rest) == rest[0] + Flatten(rest[1..]);
        assert s == [s[0]] + s[1..];
        runs
      else
        var runs := [[s[0]]] + rest;
        assert runs[1..] == rest;
        runs
  }

  /** The elements of `s` whose key is `k`, in their order in `s`. */
  function KeyFilter<T, K(==)>(s: seq<T>, key: T -> K, k: K): seq<T>
  {
    if s == [] then []
    else (if key(s[0]) == k then [s[0]] else []) + KeyFilter(s[1..], key, k)
  }

  /** The filter keeps exactly the elements with key `k`, so it is empty exactly when no element has that key. */
  lemma {:induction false} KeyFilterMembers<T, K>(s: seq<T>, key: T -> K, k: K)
    ensures |KeyFilter(s, key, k)| <= |s|
    ensures forall x :: x in KeyFilter(s, key, k) ==> x in s && key(x) == k
    ensures forall x :: x in s && key(x) == k ==> x in KeyFilter(s, key, k)
    ensures KeyFilter(s, key, k) == [] <==> forall x :: x in s ==> key(x) != k
  {
    if s != [] {
      KeyFilterMembers(s[1..], key, k);
      assert s == [s[0]] + s[1..];
    }
  }

  /** Equal keys stand next to each other: what sorting by the key guarantees. */
  ghost predicate Clustered<T, K>(s: seq<T>, key: T -> K)
  {
    forall i, j, m :: 0 <= i < j < m < |s| && key(s[i]) == key(s[m]) ==> key(s[j]) == key(s[i])
  }

  lemma ClusteredTail<T, K>(s: seq<T>, key: T -> K)
    requires s != [] && Clustered(s, key)
    ensures Clustered(s[1..], key)
  {
    var t := s[1..];
    forall i, j, m | 0 <= i < j < m < |t| && key(t[i]) == key(t[m])
      ensures key(t[j]) == key(t[i])
    {
      assert key(s[i + 1]) == key(s[m + 1]);
    }
  }

  /** In clustered input, a key that differs from its successor's does not occur again. */
  lemma ClusteredKeyEnds<T, K>(s: seq<T>, key: T -> K)
    requires |s| >= 2 && Clustered(s, key) && key(s[1]) != key(s[0])
    ensures forall m :: 1 <= m < |s| ==> key(s[m]) != key(s[0])
  {
    forall m | 1 < m < |s|
      ensures key(s[m]) != key(s[0])
    {
      var first, second, later := s[0], s[1], s[m];
      assert key(first) == key(later) ==> key(second) == key(first);
    }
  }

  /** Every group holds exactly the elements of `s` with its key, in input order. */
  ghost predicate RunsAreFilters<T, K>(s: seq<T>, key: T -> K, runs: seq<seq<T>>)
  {
    forall j :: 0 <= j < |runs| ==> runs[j] != [] && runs[j] == KeyFilter(s, key, key(runs[j][0]))
  }

  ghost predicate DistinctRunKeys<T, K>(key: T -> K, runs: seq<seq<T>>)
  {
    forall j, m :: 0 <= j < m < |runs| ==> runs[j] != [] && runs[m] != [] && key(runs[j][0]) != key(runs[m][0])
  }

  /** The step of `RunsOfClustered` where the head joins the first group of the tail. */
  lemma RunsExtend<T, K>(x: T, t: seq<T>, key: T -> K, rest: seq<seq<T>>)
    requires rest != [] && rest[0] != [] && key(rest[0][0]) == key(x)
    requires RunsAreFilters(t, key, rest) && DistinctRunKeys(key, rest)
    ensures RunsAreFilters([x] + t, key, [[x] + rest[0]] + rest[1..])
    ensures DistinctRunKeys(key, [[x] + rest[0]] + rest[1..])
  {
    var s := [x] + t;
    assert s[1..] == t;
    var runs := [[x] + rest[0]] + rest[1..];
    forall j | 0 <= j < |runs|
      ensures runs[j] != [] && runs[j] == KeyFilter(s, key, key(runs[j][0]))
    {
      if j == 0 {
        assert KeyFilter(s, key, key(x)) == [x] + KeyFilter(t, key, key(x));
      } else {
        assert runs[j] == rest[j];
        assert key(rest[j][0]) != key(rest[0][0]);
      }
    }
  }

  /** The step of `RunsOfClustered` where the head starts a group of its own. */
  lemma RunsStart<T, K>(x: T, t: seq<T>, key: T -> K, rest: seq<seq<T>>)
    requires forall y :: y in t ==> key(y) != key(x)
    requires RunsAreFilters(t, key, rest) && DistinctRunKeys(key, rest)
    ensures RunsAreFilters([x] + t, key, [[x]] + rest)
    ensures DistinctRunKeys(key, [[x]] + rest)
  {
    var s := [x] + t;
    assert s[1..] == t;
    var runs := [[x]] + rest;
    KeyFilterMembers(t, key, key(x));
    assert KeyFilter(t, key, key(x)) == [];
    forall j | 0 <= j < |runs|
      ensures runs[j] != [] && runs[j] == KeyFilter(s, key, key(runs[j][0]))
    {
      if j > 0 {
        assert runs[j] == rest[j - 1];
        assert rest[j - 1][0] in KeyFilter(t, key, key(rest[j - 1][0]));
      }
    }
    forall j, m | 0 <= j < m < |runs|
      ensures key(runs[j][0]) != key(runs[m][0])
    {
      if j == 0 {
        assert rest[m - 1][0] in KeyFilter(t, key, key(rest[m - 1][0]));
      }
    }
  }

  /**
   * When equal keys stand together, each group holds exactly the elements with its key,
   * in input order, and no key has two groups.
   */
  lemma {:induction false} RunsOfClustered<T, K>(s: seq<T>, key: T -> K)
    requires Clustered(s, key)
    ensures RunsAreFilters(s, key, GroupRuns(s, key))
    ensures DistinctRunKeys(key, GroupRuns(s, key))
  {
    if s != [] {
      var t := s[1..];
      assert s == [s[0]] + t;
      ClusteredTail(s, key);
      RunsOfClustered(t, key);
      var rest := GroupRuns(t, key);
      if rest != [] && key(rest[0][0]) == key(s[0]) {
        RunsExtend(s[0], t, key, rest);
      } else {
        if t != [] {
          assert rest[0][0] == t[0];
          ClusteredKeyEnds(s, key);
        }
        forall y | y in t
          ensures key(y) != key(s[0])
        {
          var m :| 0 <= m < |t| && t[m] == y;
          assert s[m + 1] == y;
        }
        RunsStart(s[0], t, key, rest);
      }
    }
  }

  /** Every element of every group appears in the concatenation. */
  lemma {:induction false} FlattenMember<T>(groups: seq<seq<T>>, j: nat, i: nat)
    requires j < |groups| && i < |groups[j]|
    ensures groups[j][i] in Flatten(groups)
  {
    if j > 0 {
      FlattenMember(groups[1..], j - 1, i);
    } else {
      assert Flatten(groups) == groups[0] + Flatten(groups[1..]);
      assert Flatten(groups)[i] == groups[0][i];
    }
  }

  /** Every element of the concatenation comes from some group. */
  lemma {:induction false} FlattenIndex<T>(groups: seq<seq<T>>, i: nat) returns (j: nat, m: nat)
    requires i < |Flatten(groups)|
    ensures j < |groups| && m < |groups[j]| && groups[j][m] == Flatten(groups)[i]
  {
    var rest := Flatten(groups[1..]);
    assert Flatten(groups) == groups[0] + rest;
    if i < |groups[0]| {
      j, m := 0, i;
    } else {
      var j', m' := FlattenIndex(groups[1..], i - |groups[0]|);
      j, m := j' + 1, m';
    }
  }

  lemma FlattenSingle<T>(groups: seq<seq<T>>)
    requires |groups| == 1
    ensures Flatten(groups) == groups[0]
  {
    assert Flatten(groups[1..]) == [];
  }

  lemma KeyFilterCons<T, K>(x: T, s: seq<T>, key: T -> K, k: K)
    ensures KeyFilter([x] + s, key, k) == (if key(x) == k then [x] else []) + KeyFilter(s, key, k)
  {
    assert ([x] + s)[1..] == s;
  }

  /** The filter starts with the first element that has the key. */
  lemma {:induction false} KeyFilterFirst<T, K>(s: seq<T>, key: T -> K, k: K, i: nat)
    requires i < |s| && key(s[i]) == k
    requires forall j :: 0 <= j < i ==> key(s[j]) != k
    ensures KeyFilter(s, key, k) != [] && KeyFilter(s, key, k)[0] == s[i]
  {
    assert s == [s[0]] + s[1..];
    KeyFilterCons(s[0], s[1..], key, k);
    if i > 0 {
      KeyFilterFirst(s[1..], key, k, i - 1);
    }
  }

  lemma {:induction false} InsertKeepsKeyOrder<T, K>(x: T, s: seq<T>, le: (T, T) -> bool, key: T -> K, k: K)
    requires forall a, b :: key(a) == key(b) ==> le(a, b)
    ensures KeyFilter(Insert(x, s, le), key, k) == KeyFilter([x] + s, key, k)
  {
    if s != [] && !le(x, s[0]) {
      var y, t := s[0], s[1..];
      InsertKeepsKeyOrder(x, t, le, key, k);
      var inserted := Insert(x, t, le);
      assert Insert(x, s, le) == [y] + inserted;
      assert s == [y] + t;
      KeyFilterCons(y, inserted, key, k);
      KeyFilterCons(x, t, key, k);
      KeyFilterCons(x, s, key, k);
      KeyFilterCons(y, t, key, k);
      if key(y) == k {
        assert key(x) != k;
      }
    }
  }

  /**
   * Sorting by a key is stable: for every key, the elements with that key come out in
   * the order they went in.
   */
  lemma {:induction false} SortByKeepsKeyOrder<T, K>(s: seq<T>, le: (T, T) -> bool, key: T -> K, k: K)
    requires forall a, b :: key(a) == key(b) ==> le(a, b)
    ensures KeyFilter(SortBy(s, le), key, k) == KeyFilter(s, key, k)
  {
    if s != [] {
      SortByKeepsKeyOrder(s[1..], le, key, k);
      InsertKeepsKeyOrder(s[0], SortBy(s[1..], le), le, key, k);
      KeyFilterCons(s[0], SortBy(s[1..], le), key, k);
      assert s == [s[0]] + s[1..];
      KeyFilterCons(s[0], s[1..], key, k);
    }
  }
}
