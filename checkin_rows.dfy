/**
 * The check-in rows both heat-map builders start from, and the two steps they share:
 * grouping the rows by participant (sort by name, `itertools.groupby` into a dict, then
 * an empty entry for every roster name without rows) and finding a weekday's row.
 */
module CheckinRows {
  import opened Wrappers
  import opened Weekdays
  import opened Text
  import opened Sorting
  import opened Runs

  /**
   * One check-in as fetched: who, when (minutes on the local clock), the tier label,
   * the weekday label and whether the week was a bye week for the participant.
   */
  datatype Checkin = Checkin(name: string, time: int, tier: string, day: Weekday, byeWeek: bool)

  function NameOf(c: Checkin): string { c.name }

  function DayOf(c: Checkin): Weekday { c.day }

  /** The order of `sort(key=lambda x: x.name)`. */
  predicate NameLe(a: Checkin, b: Checkin) { StrLe(a.name, b.name) }

  /** The order of `sorted(key=lambda x: weekdays.index(x.day_of_week))`. */
  predicate DayLe(a: Checkin, b: Checkin) { a.day.Index() <= b.day.Index() }

  lemma NameLeTotalPreorder()
    ensures TotalPreorder(NameLe)
    ensures forall a, b :: NameOf(a) == NameOf(b) ==> NameLe(a, b)
  {
    forall a, b
      ensures NameLe(a, b) || NameLe(b, a)
    {
      StrLeTotal(a.name, b.name);
    }
    forall a, b, c | NameLe(a, b) && NameLe(b, c)
      ensures NameLe(a, c)
    {
      StrLeTransitive(a.name, b.name, c.name);
    }
    forall a, b | NameOf(a) == NameOf(b)
      ensures NameLe(a, b)
    {
      StrLeTotal(a.name, b.name);
    }
  }

  lemma DayLeTotalPreorder()
    ensures TotalPreorder(DayLe)
    ensures forall a, b :: DayOf(a) == DayOf(b) ==> DayLe(a, b)
  {
  }

  /** `sortCheckinByWeekday`: the rows ordered by the weekday's place in the week. */
  function SortByWeekday(rows: seq<Checkin>): (r: seq<Checkin>)
    ensures |r| == |rows| && multiset(r) == multiset(rows)
  {
    SortBy(rows, DayLe)
  }

  /** The weekday sort keeps the same rows, orders them Monday to Sunday and keeps each weekday's rows in their input order. */
  lemma SortByWeekdaySpec(rows: seq<Checkin>)
    ensures multiset(SortByWeekday(rows)) == multiset(rows)
    ensures SortedBy(SortByWeekday(rows), DayLe)
    ensures forall d :: KeyFilter(SortByWeekday(rows), DayOf, d) == KeyFilter(rows, DayOf, d)
  {
    DayLeTotalPreorder();
    SortBySorted(rows, DayLe);
    forall d
      ensures KeyFilter(SortBy(rows, DayLe), DayOf, d) == KeyFilter(rows, DayOf, d)
    {
      SortByKeepsKeyOrder(rows, DayLe, DayOf, d);
    }
  }

  /** `next((index for index, c in enumerate(s) if c.day_of_week == d), -1)`. */
  function MatchIndex(s: seq<Checkin>, d: Weekday): (k: int)
    ensures -1 <= k < |s|
    ensures k >= 0 ==> s[k].day == d && forall j :: 0 <= j < k ==> s[j].day != d
    ensures k == -1 <==> forall j :: 0 <= j < |s| ==> s[j].day != d
  {
    if s == [] then -1
    else if s[0].day == d then 0
    else
      var k := MatchIndex(s[1..], d);
      if k == -1 then -1 else k + 1
  }

  /** The row `MatchIndex` finds is the first row of that weekday. */
  lemma {:induction false} MatchIndexIsFirstOfDay(s: seq<Checkin>, d: Weekday)
    ensures MatchIndex(s, d) == -1 <==> KeyFilter(s, DayOf, d) == []
    ensures MatchIndex(s, d) >= 0 ==> KeyFilter(s, DayOf, d)[0] == s[MatchIndex(s, d)]
  {
    if s != [] {
      MatchIndexIsFirstOfDay(s[1..], d);
      assert s == [s[0]] + s[1..];
      KeyFilterCons(s[0], s[1..], DayOf, d);
      if s[0].day != d && MatchIndex(s[1..], d) >= 0 {
        assert s[MatchIndex(s, d)] == s[1..][MatchIndex(s[1..], d)];
      }
    }
  }

  /**
   * After sorting by weekday, the row found for a weekday is that weekday's first row in
   * the order the rows came in, and there is one exactly when some row has that weekday.
   */
  lemma FirstRowOfDay(rows: seq<Checkin>, d: Weekday)
    ensures MatchIndex(SortByWeekday(rows), d) == -1 <==> forall j :: 0 <= j < |rows| ==> rows[j].day != d
    ensures MatchIndex(SortByWeekday(rows), d) >= 0 ==>
      KeyFilter(rows, DayOf, d) != [] &&
      SortByWeekday(rows)[MatchIndex(SortByWeekday(rows), d)] == KeyFilter(rows, DayOf, d)[0]
  {
    var sorted := SortByWeekday(rows);
    SortByWeekdaySpec(rows);
    MatchIndexIsFirstOfDay(sorted, d);
    KeyFilterMembers(rows, DayOf, d);
    forall j | 0 <= j < |rows| && rows[j].day == d
      ensures rows[j] in KeyFilter(rows, DayOf, d)
    {
      assert rows[j] in rows;
    }
  }

  // ---------------------------------------------------------------------------
  // The latest check-in of the week

  function TimeOf(c: Checkin): int { c.time }

  /** The order of `sorted(key=lambda x: x.time, reverse=True)`: later rows first. */
  predicate LaterOrSame(a: Checkin, b: Checkin) { a.time >= b.time }

  /** `sorted(checkins, key=lambda x: x.time, reverse=True)[0]`. */
  function LastCheckin(rows: seq<Checkin>): Checkin
    requires rows != []
  {
    SortBy(rows, LaterOrSame)[0]
  }

  /** The position of the first row with the latest time. */
  function LatestIndex(rows: seq<Checkin>): (k: nat)
    requires rows != []
    ensures k < |rows|
    ensures forall j :: 0 <= j < |rows| ==> rows[j].time <= rows[k].time
    ensures forall j :: 0 <= j < k ==> rows[j].time < rows[k].time
  {
    if |rows| == 1 then 0
    else
      var k := LatestIndex(rows[1..]);
      if rows[0].time >= rows[1..][k].time then 0 else k + 1
  }

  /**
   * The row `LastCheckin` picks is the first row, in the order given, with the latest
   * time: a reversed sort in Python still keeps rows with equal times in their order.
   */
  lemma LastCheckinIsLatest(rows: seq<Checkin>)
    requires rows != []
    ensures LastCheckin(rows) == rows[LatestIndex(rows)]
  {
    var sorted := SortBy(rows, LaterOrSame);
    var k := LatestIndex(rows);
    var latest := rows[k].time;
    assert TotalPreorder(LaterOrSame);
    SortBySorted(rows, LaterOrSame);
    assert sorted[0].time == latest by {
      assert sorted[0] in multiset(rows);
      assert rows[k] in multiset(sorted);
    }
    assert sorted == [sorted[0]] + sorted[1..];
    KeyFilterCons(sorted[0], sorted[1..], TimeOf, latest);
    SortByKeepsKeyOrder(rows, LaterOrSame, TimeOf, latest);
    KeyFilterFirst(rows, TimeOf, latest, k);
  }

  // ---------------------------------------------------------------------------
  // The dict `weeks_grouped_by_name`, kept in insertion order

  /** One entry of the dict: a participant's name and their rows. */
  datatype Group = Group(name: string, rows: seq<Checkin>)

  /** The names of some check-in rows. */
  function Names(rows: seq<Checkin>): set<string>
  {
    set c | c in rows :: c.name
  }

  /** The names of a roster. */
  function Members(roster: seq<string>): set<string>
  {
    set n | n in roster
  }

  function NameSet(groups: seq<Group>): set<string>
  {
    set g | g in groups :: g.name
  }

  predicate DistinctNames(groups: seq<Group>)
  {
    forall i, j :: 0 <= i < j < |groups| ==> groups[i].name != groups[j].name
  }

  /** `d[name] = rows`: an existing key keeps its place and takes the new value; a new key goes last. */
  function Put(groups: seq<Group>, name: string, rows: seq<Checkin>): (r: seq<Group>)
    ensures NameSet(r) == NameSet(groups) + {name}
    ensures name in NameSet(groups) ==> |r| == |groups|
    ensures name !in NameSet(groups) ==> r == groups + [Group(name, rows)]
    ensures forall j :: 0 <= j < |groups| && groups[j].name != name ==> r[j] == groups[j]
    ensures forall j :: 0 <= j < |r| && r[j].name == name ==> r[j].rows == rows
    ensures DistinctNames(groups) ==> DistinctNames(r)
  {
    if name in NameSet(groups) then
      var r := seq(|groups|, j requires 0 <= j < |groups| =>
        if groups[j].name == name then Group(name, rows) else groups[j]);
      assert NameSet(r) == NameSet(groups) by {
        forall n | n in NameSet(groups)
          ensures n in NameSet(r)
        {
          var g :| g in groups && g.name == n;
          var j :| 0 <= j < |groups| && groups[j] == g;
          assert r[j].name == n;
        }
      }
      r
    else
      groups + [Group(name, rows)]
  }

  /** The dict comprehension over the groups of `itertools.groupby`: one `Put` per group, in order. */
  function DictFromRuns(runs: seq<seq<Checkin>>): seq<Group>
    requires forall j :: 0 <= j < |runs| ==> runs[j] != []
  {
    if runs == [] then []
    else
      var last := runs[|runs| - 1];
      Put(DictFromRuns(runs[..|runs| - 1]), last[0].name, last)
  }

  /** When no name starts two groups, every group becomes its own entry, in order. */
  lemma {:induction false} DictOfDistinctRuns(runs: seq<seq<Checkin>>)
    requires forall j :: 0 <= j < |runs| ==> runs[j] != []
    requires DistinctRunKeys(NameOf, runs)
    ensures |DictFromRuns(runs)| == |runs|
    ensures forall j :: 0 <= j < |runs| ==> DictFromRuns(runs)[j] == Group(runs[j][0].name, runs[j])
    ensures DistinctNames(DictFromRuns(runs))
  {
    if runs != [] {
      var n := |runs| - 1;
      var front := runs[..n];
      DictOfDistinctRuns(front);
      var d := DictFromRuns(front);
      var name := runs[n][0].name;
      forall g | g in d
        ensures g.name != name
      {
        var j :| 0 <= j < |d| && d[j] == g;
        assert NameOf(runs[j][0]) != NameOf(runs[n][0]);
      }
      assert name !in NameSet(d);
    }
  }

  /** `{name: list(value) for name, value in itertools.groupby(rows, key=lambda x: x.name)}`. */
  function NameGroups(rows: seq<Checkin>): seq<Group>
  {
    DictFromRuns(GroupRuns(rows, NameOf))
  }

  /** Name-sorted rows stand in one block per name. */
  lemma NameSortedIsClustered(rows: seq<Checkin>)
    requires SortedBy(rows, NameLe)
    ensures Clustered(rows, NameOf)
  {
    forall i, j, m | 0 <= i < j < m < |rows| && NameOf(rows[i]) == NameOf(rows[m])
      ensures NameOf(rows[j]) == NameOf(rows[i])
    {
      assert NameLe(rows[i], rows[j]) && NameLe(rows[j], rows[m]);
      StrLeAntisymmetric(rows[i].name, rows[j].name);
    }
  }

  /**
   * Grouping name-sorted rows gives one entry per participant who has rows, holding
   * exactly that participant's rows in their input order.
   */
  lemma NameGroupsOfSorted(input: seq<Checkin>)
    ensures DistinctNames(NameGroups(SortBy(input, NameLe)))
    ensures NameSet(NameGroups(SortBy(input, NameLe))) == Names(input)
    ensures forall g :: g in NameGroups(SortBy(input, NameLe)) ==> g.rows == KeyFilter(input, NameOf, g.name)
  {
    var sorted := SortBy(input, NameLe);
    var runs := GroupRuns(sorted, NameOf);
    SortedRunsAreGroups(input);
    var groups := NameGroups(sorted);
    forall g | g in groups
      ensures g.rows == KeyFilter(input, NameOf, g.name)
    {
      var j :| 0 <= j < |groups| && groups[j] == g;
      NameLeTotalPreorder();
      SortByKeepsKeyOrder(input, NameLe, NameOf, g.name);
    }
    GroupNamesAreRowNames(sorted, runs, groups);
    SameNames(sorted, input);
  }

  /** Each entry built from name-sorted rows is one run, holding every sorted row with its name. */
  lemma SortedRunsAreGroups(input: seq<Checkin>)
    ensures var runs := GroupRuns(SortBy(input, NameLe), NameOf);
      && |NameGroups(SortBy(input, NameLe))| == |runs|
      && DistinctNames(NameGroups(SortBy(input, NameLe)))
      && forall j :: 0 <= j < |runs| ==>
        NameGroups(SortBy(input, NameLe))[j] == Group(runs[j][0].name, runs[j])
        && runs[j] == KeyFilter(SortBy(input, NameLe), NameOf, runs[j][0].name)
  {
    var sorted := SortBy(input, NameLe);
    NameLeTotalPreorder();
    SortBySorted(input, NameLe);
    NameSortedIsClustered(sorted);
    var runs := GroupRuns(sorted, NameOf);
    RunsOfClustered(sorted, NameOf);
    DictOfDistinctRuns(runs);
  }

  lemma SameNames(a: seq<Checkin>, b: seq<Checkin>)
    requires multiset(a) == multiset(b)
    ensures Names(a) == Names(b)
  {
    assert forall c :: c in a <==> c in multiset(a);
    assert forall c :: c in b <==> c in multiset(b);
  }

  lemma GroupNamesAreRowNames(sorted: seq<Checkin>, runs: seq<seq<Checkin>>, groups: seq<Group>)
    requires runs == GroupRuns(sorted, NameOf)
    requires |groups| == |runs|
    requires forall j :: 0 <= j < |runs| ==> groups[j] == Group(runs[j][0].name, runs[j])
    ensures NameSet(groups) == Names(sorted)
  {
    forall c | c in sorted
      ensures c.name in NameSet(groups)
    {
      var i :| 0 <= i < |sorted| && sorted[i] == c;
      var j, m := FlattenIndex(runs, i);
      assert groups[j].name == NameOf(runs[j][0]) == NameOf(runs[j][m]);
      assert groups[j] in groups;
    }
    forall g | g in groups
      ensures g.name in Names(sorted)
    {
      var j :| 0 <= j < |groups| && groups[j] == g;
      FlattenMember(runs, j, 0);
    }
  }

  // ---------------------------------------------------------------------------
  // Shared steps of both builders

  /** The dict after `for name in names: if name not in d: d[name] = []`. */
  function WithRoster(groups: seq<Group>, roster: seq<string>): seq<Group>
    decreases |roster|
  {
    if roster == [] then groups
    else
      var front := WithRoster(groups, roster[..|roster| - 1]);
      var name := roster[|roster| - 1];
      if name in NameSet(front) then front else front + [Group(name, [])]
  }

  /**
   * The roster step keeps every entry it was given, in place, and appends only empty
   * entries for roster names, so no name appears twice.
   */
  lemma {:induction false} WithRosterKeeps(groups: seq<Group>, roster: seq<string>)
    requires DistinctNames(groups)
    ensures DistinctNames(WithRoster(groups, roster))
    ensures |groups| <= |WithRoster(groups, roster)|
    ensures WithRoster(groups, roster)[..|groups|] == groups
    ensures forall j :: |groups| <= j < |WithRoster(groups, roster)| ==>
      WithRoster(groups, roster)[j] == Group(WithRoster(groups, roster)[j].name, [])
      && WithRoster(groups, roster)[j].name in roster
  {
    if roster != [] {
      var n := |roster| - 1;
      WithRosterKeeps(groups, roster[..n]);
      var front := WithRoster(groups, roster[..n]);
      if roster[n] !in NameSet(front) {
        forall j | 0 <= j < |front|
          ensures front[j].name != roster[n]
        {
          assert front[j] in front;
        }
        assert (front + [Group(roster[n], [])])[..|groups|] == front[..|groups|];
      }
    }
  }

  /** After the roster step the names are those of the entries given plus those of the roster. */
  lemma {:induction false} WithRosterNames(groups: seq<Group>, roster: seq<string>)
    ensures NameSet(WithRoster(groups, roster)) == NameSet(groups) + Members(roster)
  {
    if roster != [] {
      var n := |roster| - 1;
      WithRosterNames(groups, roster[..n]);
      var front := WithRoster(groups, roster[..n]);
      assert roster == roster[..n] + [roster[n]];
      assert Members(roster) == Members(roster[..n]) + {roster[n]};
      if roster[n] !in NameSet(front) {
        assert NameSet(front + [Group(roster[n], [])]) == NameSet(front) + {roster[n]};
      }
    }
  }

  /** The roster loop, one name at a time. */
  method AddRoster(groups: seq<Group>, roster: seq<string>) returns (out: seq<Group>)
    ensures out == WithRoster(groups, roster)
  {
    out := groups;
    for i := 0 to |roster|
      invariant out == WithRoster(groups, roster[..i])
    {
      assert roster[..i + 1][..i] == roster[..i];
      if roster[i] !in NameSet(out) {
        out := out + [Group(roster[i], [])];
      }
    }
    assert roster[..|roster|] == roster;
  }

  /** `weeks_grouped_by_name` once the roster names are in: the participants of the week, in order. */
  function Participants(input: seq<Checkin>, roster: seq<string>): (groups: seq<Group>)
    ensures NameSet(groups) == Names(input) + Members(roster)
  {
    NameGroupsOfSorted(input);
    WithRosterNames(NameGroups(SortBy(input, NameLe)), roster);
    WithRoster(NameGroups(SortBy(input, NameLe)), roster)
  }

  /**
   * One entry per participant: everyone with rows, then every roster name without rows,
   * with no name twice. An entry holds exactly that participant's rows, in their input order.
   */
  lemma ParticipantsSpec(input: seq<Checkin>, roster: seq<string>)
    ensures DistinctNames(Participants(input, roster))
    ensures NameSet(Participants(input, roster)) == Names(input) + Members(roster)
    ensures forall g :: g in Participants(input, roster) ==> g.rows == KeyFilter(input, NameOf, g.name)
  {
    var fromRows := NameGroups(SortBy(input, NameLe));
    NameGroupsOfSorted(input);
    WithRosterKeeps(fromRows, roster);
    WithRosterNames(fromRows, roster);
    forall g | g in Participants(input, roster)
      ensures g.rows == KeyFilter(input, NameOf, g.name)
    {
      ParticipantRows(fromRows, roster, input, g);
    }
  }

  lemma ParticipantRows(fromRows: seq<Group>, roster: seq<string>, input: seq<Checkin>, g: Group)
    requires DistinctNames(fromRows)
    requires NameSet(fromRows) == Names(input)
    requires forall h :: h in fromRows ==> h.rows == KeyFilter(input, NameOf, h.name)
    requires g in WithRoster(fromRows, roster)
    ensures g.rows == KeyFilter(input, NameOf, g.name)
  {
    var groups := WithRoster(fromRows, roster);
    WithRosterKeeps(fromRows, roster);
    var j :| 0 <= j < |groups| && groups[j] == g;
    if j < |fromRows| {
      assert g == fromRows[j];
    } else {
      assert g.rows == [];
      assert g.name !in NameSet(fromRows) by {
        forall k | 0 <= k < |fromRows|
          ensures fromRows[k].name != g.name
        {
          assert groups[k] == fromRows[k];
        }
      }
      forall x | x in input
        ensures NameOf(x) != g.name
      {
        assert x.name in Names(input);
      }
      KeyFilterMembers(input, NameOf, g.name);
    }
  }

  /** Sorts the caller's rows by name in place and returns the participants of the week. */
  method GroupByName(rows: array<Checkin>, roster: seq<string>) returns (groups: seq<Group>)
    modifies rows
    ensures rows[..] == SortBy(old(rows[..]), NameLe)
    ensures groups == Participants(old(rows[..]), roster)
  {
    var sorted := SortBy(rows[..], NameLe);
    forall i | 0 <= i < rows.Length {
      rows[i] := sorted[i];
    }
    assert rows[..] == sorted;
    var fromRows := NameGroups(rows[..]);
    groups := AddRoster(fromRows, roster);
  }
}
