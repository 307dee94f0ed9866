/**
 * `week_heat_map_from_checkins` as a whole: group the week's rows by participant, start
 * the achievements, scan every participant in turn, and return the rows of the heat map,
 * the most recent check-in time and the achievements.
 */
module HeatMap {
  import opened Wrappers
  import opened Sorting
  import opened Runs
  import opened RuleSets
  import opened CheckinRows
  import opened Clock
  import opened Chart

  /** What `week_heat_map_from_checkins` returns. */
  datatype WeekChart = WeekChart(rows: seq<CheckinChartData>, latestDate: int, achievements: Achievements)

  /** Every participant's rows, sorted by weekday. */
  function SortedRows(groups: seq<Group>): (ss: seq<seq<Checkin>>)
    ensures |ss| == |groups|
  {
    seq(|groups|, j requires 0 <= j < |groups| => SortByWeekday(groups[j].rows))
  }

  lemma SortedRowsPrefix(groups: seq<Group>, n: int)
    requires 0 <= n <= |groups|
    ensures SortedRows(groups[..n]) == SortedRows(groups)[..n]
  {
  }

  /** The heat map rows and the achievements after the participants `groups`, or the first failing score. */
  function WeekScan(groups: seq<Group>, ruleSet: int, acc0: Achievements): Result<(seq<CheckinChartData>, Achievements)>
  {
    if groups == [] then Ok(([], acc0))
    else
      match WeekScan(groups[..|groups| - 1], ruleSet, acc0)
      case Err(e) => Err(e)
      case Ok(done) =>
        var g := groups[|groups| - 1];
        match ScanOf(g.name, SortByWeekday(g.rows), ruleSet, done.1)
        case Err(e) => Err(e)
        case Ok(scan) => Ok((done.0 + [scan.row], scan.acc))
  }

  /** Once a participant's scan fails, the whole scan fails with the same error. */
  lemma {:induction false} WeekScanFailLater(groups: seq<Group>, ruleSet: int, acc0: Achievements, n: int)
    requires 0 <= n <= |groups| && WeekScan(groups[..n], ruleSet, acc0).Err?
    ensures WeekScan(groups, ruleSet, acc0) == WeekScan(groups[..n], ruleSet, acc0)
  {
    if n < |groups| {
      var prefix := groups[..|groups| - 1];
      assert prefix[..n] == groups[..n];
      WeekScanFailLater(prefix, ruleSet, acc0, n);
    } else {
      assert groups[..n] == groups;
    }
  }

  /**
   * The outer loop of `week_heat_map_from_checkins`: every participant in dict order, each
   * continuing from the achievements the previous one left.
   */
  method ScanGroups(groups: seq<Group>, ruleSet: int, acc0: Achievements) returns (r: Result<(seq<CheckinChartData>, Achievements)>)
    ensures r == WeekScan(groups, ruleSet, acc0)
  {
    var heatmap: seq<CheckinChartData> := [];
    var acc := acc0;
    for j := 0 to |groups|
      invariant WeekScan(groups[..j], ruleSet, acc0) == Ok((heatmap, acc))
    {
      assert groups[..j + 1][..j] == groups[..j];
      var scan := ScanParticipant(groups[j].name, groups[j].rows, ruleSet, acc);
      if scan.Err? {
        WeekScanFailLater(groups, ruleSet, acc0, j + 1);
        return Err(scan.error);
      }
      heatmap := heatmap + [scan.value.row];
      acc := scan.value.acc;
    }
    assert groups[..|groups|] == groups;
    r := Ok((heatmap, acc));
  }

  // ---------------------------------------------------------------------------
  // The rows of the heat map

  /** Every participant's scores succeed. */
  ghost predicate AllScore(ss: seq<seq<Checkin>>, ruleSet: int)
  {
    forall j :: 0 <= j < |ss| ==> PointScores(ss[j], ruleSet, 7).Ok?
  }

  lemma AllScoreSnoc(ss: seq<seq<Checkin>>, ruleSet: int)
    requires ss != []
    ensures AllScore(ss, ruleSet) <==> AllScore(ss[..|ss| - 1], ruleSet) && PointScores(ss[|ss| - 1], ruleSet, 7).Ok?
  {
    var n := |ss| - 1;
    if AllScore(ss[..n], ruleSet) && PointScores(ss[n], ruleSet, 7).Ok? {
      forall j | 0 <= j < |ss|
        ensures PointScores(ss[j], ruleSet, 7).Ok?
      {
        if j < n {
          assert ss[..n][j] == ss[j];
        }
      }
    }
  }

  /** The whole scan succeeds exactly when every participant's scores do. */
  lemma {:induction false} WeekScanOk(groups: seq<Group>, ruleSet: int, acc0: Achievements)
    ensures WeekScan(groups, ruleSet, acc0).Ok? <==> AllScore(SortedRows(groups), ruleSet)
  {
    if groups != [] {
      var n := |groups| - 1;
      var prefix := groups[..n];
      WeekScanOk(prefix, ruleSet, acc0);
      SortedRowsPrefix(groups, n);
      AllScoreSnoc(SortedRows(groups), ruleSet);
      var ss := SortedRows(groups);
      assert ss[..n] == SortedRows(prefix);
      assert ss[n] == SortByWeekday(groups[n].rows);
      var before := WeekScan(prefix, ruleSet, acc0);
      if before.Ok? {
        var scan := ScanOf(groups[n].name, ss[n], ruleSet, before.value.1);
        ScanOfOk(groups[n].name, ss[n], ruleSet, before.value.1);
        assert WeekScan(groups, ruleSet, acc0).Ok? <==> scan.Ok?;
      } else {
        assert WeekScan(groups, ruleSet, acc0).Err?;
      }
    }
  }

  /** The row of a participant of the heat map: their name, their seven cells, the count of checked-in days and their best five points. */
  ghost predicate RowOf(groups: seq<Group>, ruleSet: int, j: int, row: CheckinChartData)
    requires 0 <= j < |groups|
  {
    var s := SortedRows(groups)[j];
    PointScores(s, ruleSet, 7).Ok? &&
    row == CheckinChartData(groups[j].name, Cells(s), CountChecked(Cells(s)), TopFiveSum(PointScores(s, ruleSet, 7).value))
  }

  /** One row of the heat map per participant, in dict order, each that participant's scan. */
  lemma {:induction false} WeekScanRows(groups: seq<Group>, ruleSet: int, acc0: Achievements)
    requires WeekScan(groups, ruleSet, acc0).Ok?
    ensures |WeekScan(groups, ruleSet, acc0).value.0| == |groups|
    ensures forall j :: 0 <= j < |groups| ==> RowOf(groups, ruleSet, j, WeekScan(groups, ruleSet, acc0).value.0[j])
  {
    if groups != [] {
      var n := |groups| - 1;
      var prefix := groups[..n];
      var before := WeekScan(prefix, ruleSet, acc0);
      assert before.Ok?;
      WeekScanRows(prefix, ruleSet, acc0);
      SortedRowsPrefix(groups, n);
      ScanOfParts(groups[n].name, SortedRows(groups)[n], ruleSet, before.value.1);
      var rows := WeekScan(groups, ruleSet, acc0).value.0;
      assert rows[..n] == before.value.0;
      forall j | 0 <= j < |groups|
        ensures RowOf(groups, ruleSet, j, rows[j])
      {
        if j < n {
          assert RowOf(prefix, ruleSet, j, before.value.0[j]);
          assert rows[j] == before.value.0[j];
          assert prefix[j] == groups[j];
        }
      }
    }
  }

  /** The achievements after the participants `groups` are the last participant's, from those after the others. */
  lemma WeekScanLast(groups: seq<Group>, ruleSet: int, acc0: Achievements)
    requires groups != [] && WeekScan(groups, ruleSet, acc0).Ok?
    ensures var n := |groups| - 1;
      var acc := WeekScan(groups[..n], ruleSet, acc0).value.1;
      var s := SortedRows(groups)[n];
      && WeekScan(groups[..n], ruleSet, acc0).Ok?
      && WeekScan(groups, ruleSet, acc0).value.1
         == Achievements(Earliest(s, 7, acc.earliest), Latest(s, 7, acc.latest),
                         FirstToFive(groups[n].name, s, 7, acc.firstToFive), HighestAfter(s, ruleSet, 7, acc.highest))
  {
    var n := |groups| - 1;
    var acc := WeekScan(groups[..n], ruleSet, acc0).value.1;
    ScanOfParts(groups[n].name, SortedRows(groups)[n], ruleSet, acc);
  }

  // ---------------------------------------------------------------------------
  // The achievements over the whole week

  /** `e` and `l` are the least and greatest of `e0`, `l0` and the times of day in every participant's cells. */
  ghost predicate WeekBounds(ss: seq<seq<Checkin>>, e0: int, l0: int, e: int, l: int)
  {
    && e <= e0 && l0 <= l
    && (forall j, i :: 0 <= j < |ss| && 0 <= i < 7 && TimeOn(ss[j], i).Some? ==> e <= Minute(ss[j], i) <= l)
    && (e == e0 || exists j, i :: 0 <= j < |ss| && 0 <= i < 7 && TimeOn(ss[j], i).Some? && Minute(ss[j], i) == e)
    && (l == l0 || exists j, i :: 0 <= j < |ss| && 0 <= i < 7 && TimeOn(ss[j], i).Some? && Minute(ss[j], i) == l)
  }

  lemma WeekBoundsStep(ss: seq<seq<Checkin>>, e0: int, l0: int, e: int, l: int, e': int, l': int)
    requires ss != [] && WeekBounds(ss[..|ss| - 1], e0, l0, e, l)
    requires Bounds(ss[|ss| - 1], 7, e, l, e', l')
    ensures WeekBounds(ss, e0, l0, e', l')
  {
    var n := |ss| - 1;
    var prefix, s := ss[..n], ss[n];
    forall j, i | 0 <= j < |ss| && 0 <= i < 7 && TimeOn(ss[j], i).Some?
      ensures e' <= Minute(ss[j], i) <= l'
    {
      if j < n {
        assert prefix[j] == ss[j];
      }
    }
    if e' != e0 {
      if e' == e {
        var j, i :| 0 <= j < n && 0 <= i < 7 && TimeOn(prefix[j], i).Some? && Minute(prefix[j], i) == e;
        assert prefix[j] == ss[j];
      } else {
        var i :| 0 <= i < 7 && TimeOn(s, i).Some? && Minute(s, i) == e';
        assert TimeOn(ss[n], i).Some?;
      }
    }
    if l' != l0 {
      if l' == l {
        var j, i :| 0 <= j < n && 0 <= i < 7 && TimeOn(prefix[j], i).Some? && Minute(prefix[j], i) == l;
        assert prefix[j] == ss[j];
      } else {
        var i :| 0 <= i < 7 && TimeOn(s, i).Some? && Minute(s, i) == l';
        assert TimeOn(ss[n], i).Some?;
      }
    }
  }

  /** Over the whole week, `earliest` and `latest` are the least and greatest time of day shown, or where they started. */
  lemma {:induction false} WeekScanBounds(groups: seq<Group>, ruleSet: int, acc0: Achievements)
    requires WeekScan(groups, ruleSet, acc0).Ok?
    ensures var acc := WeekScan(groups, ruleSet, acc0).value.1;
      WeekBounds(SortedRows(groups), acc0.earliest, acc0.latest, acc.earliest, acc.latest)
  {
    if groups != [] {
      var n := |groups| - 1;
      WeekScanBounds(groups[..n], ruleSet, acc0);
      SortedRowsPrefix(groups, n);
      WeekScanLast(groups, ruleSet, acc0);
      var acc := WeekScan(groups[..n], ruleSet, acc0).value.1;
      var s := SortedRows(groups)[n];
      EarliestLatestBounds(s, 7, acc.earliest, acc.latest);
      var acc' := WeekScan(groups, ruleSet, acc0).value.1;
      WeekBoundsStep(SortedRows(groups), acc0.earliest, acc0.latest, acc.earliest, acc.latest, acc'.earliest, acc'.latest);
    }
  }

  /**
   * `f` is `None` exactly when `f0` is; otherwise it is no later than `f0` or any qualifying
   * day of any participant, and unless it is `f0` it is strictly earlier and is some
   * participant's name with the time of one of their qualifying days.
   */
  ghost predicate WeekFirstToFive(groups: seq<Group>, ss: seq<seq<Checkin>>, f0: Option<Moment>, f: Option<Moment>)
    requires |ss| == |groups|
  {
    && (f.None? <==> f0.None?)
    && (f0.Some? ==>
      && f.value.time <= f0.value.time
      && (forall j, i :: 0 <= j < |ss| && 0 <= i < 7 && Qualifies(ss[j], i) ==> f.value.time <= TimeOn(ss[j], i).value)
      && (f == f0 || (f.value.time < f0.value.time &&
                      exists j, i :: 0 <= j < |ss| && 0 <= i < 7 && Qualifies(ss[j], i) &&
                                     f.value == Moment(groups[j].name, TimeOn(ss[j], i).value))))
  }

  lemma WeekFirstToFiveStep(groups: seq<Group>, ss: seq<seq<Checkin>>, f0: Option<Moment>, f: Option<Moment>, f': Option<Moment>)
    requires |ss| == |groups| && groups != []
    requires WeekFirstToFive(groups[..|groups| - 1], ss[..|ss| - 1], f0, f)
    requires FirstToFiveKept(groups[|groups| - 1].name, ss[|ss| - 1], 7, f, f')
    ensures WeekFirstToFive(groups, ss, f0, f')
  {
    if f0.Some? {
      WeekFirstToFiveBound(groups, ss, f0, f, f');
      if f' != f0 {
        if f' == f {
          WeekFirstToFiveKept(groups, ss, f0, f);
        } else {
          WeekFirstToFiveTaken(groups, ss, f0, f, f');
        }
      }
    }
  }

  /** After one more participant no qualifying day is earlier than the new "first to five". */
  lemma WeekFirstToFiveBound(groups: seq<Group>, ss: seq<seq<Checkin>>, f0: Option<Moment>, f: Option<Moment>, f': Option<Moment>)
    requires |ss| == |groups| && groups != [] && f0.Some?
    requires WeekFirstToFive(groups[..|groups| - 1], ss[..|ss| - 1], f0, f)
    requires FirstToFiveKept(groups[|groups| - 1].name, ss[|ss| - 1], 7, f, f')
    ensures f'.Some?
    ensures forall j, i :: 0 <= j < |ss| && 0 <= i < 7 && Qualifies(ss[j], i) ==> f'.value.time <= TimeOn(ss[j], i).value
  {
    var n := |ss| - 1;
    var prefix := ss[..n];
    forall j, i | 0 <= j < |ss| && 0 <= i < 7 && Qualifies(ss[j], i)
      ensures f'.value.time <= TimeOn(ss[j], i).value
    {
      if j < n {
        assert prefix[j] == ss[j];
      }
    }
  }

  /** A "first to five" set by an earlier participant keeps its witness when one more participant is scanned. */
  lemma WeekFirstToFiveKept(groups: seq<Group>, ss: seq<seq<Checkin>>, f0: Option<Moment>, f: Option<Moment>)
    requires |ss| == |groups| && groups != [] && f0.Some? && f != f0
    requires WeekFirstToFive(groups[..|groups| - 1], ss[..|ss| - 1], f0, f)
    ensures exists j, i :: 0 <= j < |ss| && 0 <= i < 7 && Qualifies(ss[j], i) &&
                           f.value == Moment(groups[j].name, TimeOn(ss[j], i).value)
  {
    var n := |ss| - 1;
    var prefix := ss[..n];
    var j, i :| 0 <= j < n && 0 <= i < 7 && Qualifies(prefix[j], i) &&
                f.value == Moment(groups[..n][j].name, TimeOn(prefix[j], i).value);
    assert prefix[j] == ss[j] && groups[..n][j] == groups[j];
  }

  /** A "first to five" taken by the last participant is their name at one of their qualifying days. */
  lemma WeekFirstToFiveTaken(groups: seq<Group>, ss: seq<seq<Checkin>>, f0: Option<Moment>, f: Option<Moment>, f': Option<Moment>)
    requires |ss| == |groups| && groups != [] && f0.Some?
    requires FirstToFiveKept(groups[|groups| - 1].name, ss[|ss| - 1], 7, f, f') && f' != f
    ensures exists j, i :: 0 <= j < |ss| && 0 <= i < 7 && Qualifies(ss[j], i) &&
                           f'.value == Moment(groups[j].name, TimeOn(ss[j], i).value)
  {
    var n := |ss| - 1;
    var i :| 0 <= i < 7 && Qualifies(ss[n], i) && TimeOn(ss[n], i).value == f'.value.time < f.value.time;
    assert f'.value == Moment(groups[n].name, TimeOn(ss[n], i).value);
  }

  /** Over the whole week, "first to five" is the earliest qualifying check-in of anyone, when it beats where it started. */
  lemma {:induction false} WeekScanFirstToFive(groups: seq<Group>, ruleSet: int, acc0: Achievements)
    requires WeekScan(groups, ruleSet, acc0).Ok?
    ensures WeekFirstToFive(groups, SortedRows(groups), acc0.firstToFive, WeekScan(groups, ruleSet, acc0).value.1.firstToFive)
  {
    if groups != [] {
      var n := |groups| - 1;
      WeekScanFirstToFive(groups[..n], ruleSet, acc0);
      SortedRowsPrefix(groups, n);
      WeekScanLast(groups, ruleSet, acc0);
      var acc := WeekScan(groups[..n], ruleSet, acc0).value.1;
      var s := SortedRows(groups)[n];
      FirstToFiveEarliest(groups[n].name, s, 7, acc.firstToFive);
      WeekFirstToFiveStep(groups, SortedRows(groups), acc0.firstToFive, acc.firstToFive,
                          WeekScan(groups, ruleSet, acc0).value.1.firstToFive);
    }
  }

  /**
   * No score of any participant is above `h`, and `h` is either `h0` or the first score in
   * scan order that reaches its value, strictly above `h0`.
   */
  ghost predicate WeekHighest(ss: seq<seq<Checkin>>, ruleSet: int, h0: Highest, h: Highest)
  {
    && h0.points <= h.points
    && (forall j, i :: 0 <= j < |ss| && 0 <= i < 7 && Scoring(ss[j], i) && ScoreAt(ss[j], i, ruleSet).Ok? ==>
          ScoreAt(ss[j], i, ruleSet).value <= h.points)
    && (h == h0 || exists j, i :: 0 <= j < |ss| && 0 <= i < 7 && Scoring(ss[j], i) && ScoreAt(ss[j], i, ruleSet).Ok? &&
                                WeekFirstToReach(ss, ruleSet, j, i, h0, h))
  }

  /** Day `i` of participant `j` sets `h`, and no participant before `j` scored as much. */
  ghost predicate WeekFirstToReach(ss: seq<seq<Checkin>>, ruleSet: int, j: int, i: int, h0: Highest, h: Highest)
    requires 0 <= j < |ss| && 0 <= i < 7 && Scoring(ss[j], i) && ScoreAt(ss[j], i, ruleSet).Ok?
  {
    && FirstToReach(ss[j], ruleSet, i, h0, h)
    && forall k, m :: 0 <= k < j && 0 <= m < 7 && Scoring(ss[k], m) && ScoreAt(ss[k], m, ruleSet).Ok? ==>
         ScoreAt(ss[k], m, ruleSet).value < h.points
  }

  lemma WeekHighestStep(ss: seq<seq<Checkin>>, ruleSet: int, h0: Highest, h: Highest, h': Highest)
    requires ss != [] && WeekHighest(ss[..|ss| - 1], ruleSet, h0, h)
    requires HighestKept(ss[|ss| - 1], ruleSet, 7, h, h')
    ensures WeekHighest(ss, ruleSet, h0, h')
  {
    WeekHighestBound(ss, ruleSet, h0, h, h');
    if h' != h0 {
      if h' == h {
        WeekHighestKept(ss, ruleSet, h0, h);
      } else {
        WeekHighestTaken(ss, ruleSet, h0, h, h');
      }
    }
  }

  /** After one more participant no score is above the new highest. */
  lemma WeekHighestBound(ss: seq<seq<Checkin>>, ruleSet: int, h0: Highest, h: Highest, h': Highest)
    requires ss != [] && WeekHighest(ss[..|ss| - 1], ruleSet, h0, h)
    requires HighestKept(ss[|ss| - 1], ruleSet, 7, h, h')
    ensures forall j, i :: 0 <= j < |ss| && 0 <= i < 7 && Scoring(ss[j], i) && ScoreAt(ss[j], i, ruleSet).Ok? ==>
      ScoreAt(ss[j], i, ruleSet).value <= h'.points
  {
    var n := |ss| - 1;
    var prefix := ss[..n];
    forall j, i | 0 <= j < |ss| && 0 <= i < 7 && Scoring(ss[j], i) && ScoreAt(ss[j], i, ruleSet).Ok?
      ensures ScoreAt(ss[j], i, ruleSet).value <= h'.points
    {
      if j < n {
        assert prefix[j] == ss[j];
      }
    }
  }

  /** A highest set by an earlier participant keeps its witness when one more participant is scanned. */
  lemma WeekHighestKept(ss: seq<seq<Checkin>>, ruleSet: int, h0: Highest, h: Highest)
    requires ss != [] && WeekHighest(ss[..|ss| - 1], ruleSet, h0, h) && h != h0
    ensures exists j, i :: 0 <= j < |ss| && 0 <= i < 7 && Scoring(ss[j], i) && ScoreAt(ss[j], i, ruleSet).Ok? &&
                           WeekFirstToReach(ss, ruleSet, j, i, h0, h)
  {
    var n := |ss| - 1;
    var prefix := ss[..n];
    var j, i :| 0 <= j < n && 0 <= i < 7 && Scoring(prefix[j], i) && ScoreAt(prefix[j], i, ruleSet).Ok? &&
                WeekFirstToReach(prefix, ruleSet, j, i, h0, h);
    WeekFirstToReachPrefix(ss, n, ruleSet, j, i, h0, h);
  }

  /** A highest taken by the last participant is reached by none before it. */
  lemma WeekHighestTaken(ss: seq<seq<Checkin>>, ruleSet: int, h0: Highest, h: Highest, h': Highest)
    requires ss != [] && WeekHighest(ss[..|ss| - 1], ruleSet, h0, h)
    requires HighestKept(ss[|ss| - 1], ruleSet, 7, h, h') && h' != h
    ensures exists j, i :: 0 <= j < |ss| && 0 <= i < 7 && Scoring(ss[j], i) && ScoreAt(ss[j], i, ruleSet).Ok? &&
                           WeekFirstToReach(ss, ruleSet, j, i, h0, h')
  {
    var n := |ss| - 1;
    var prefix, s := ss[..n], ss[n];
    var i :| 0 <= i < 7 && Scoring(s, i) && ScoreAt(s, i, ruleSet).Ok? && FirstToReach(s, ruleSet, i, h, h');
    forall k, m | 0 <= k < n && 0 <= m < 7 && Scoring(ss[k], m) && ScoreAt(ss[k], m, ruleSet).Ok?
      ensures ScoreAt(ss[k], m, ruleSet).value < h'.points
    {
      assert prefix[k] == ss[k];
    }
    assert WeekFirstToReach(ss, ruleSet, n, i, h0, h');
  }

  lemma WeekFirstToReachPrefix(ss: seq<seq<Checkin>>, n: int, ruleSet: int, j: int, i: int, h0: Highest, h: Highest)
    requires 0 <= j < n <= |ss| && 0 <= i < 7 && Scoring(ss[j], i) && ScoreAt(ss[j], i, ruleSet).Ok?
    requires WeekFirstToReach(ss[..n], ruleSet, j, i, h0, h)
    ensures WeekFirstToReach(ss, ruleSet, j, i, h0, h)
  {
    var prefix := ss[..n];
    assert prefix[j] == ss[j];
    forall k, m | 0 <= k < j && 0 <= m < 7 && Scoring(ss[k], m) && ScoreAt(ss[k], m, ruleSet).Ok?
      ensures ScoreAt(ss[k], m, ruleSet).value < h.points
    {
      assert prefix[k] == ss[k];
    }
  }

  /** Over the whole week, the highest tier is the first highest score in scan order, when it beats where it started. */
  lemma {:induction false} WeekScanHighest(groups: seq<Group>, ruleSet: int, acc0: Achievements)
    requires WeekScan(groups, ruleSet, acc0).Ok?
    ensures WeekHighest(SortedRows(groups), ruleSet, acc0.highest, WeekScan(groups, ruleSet, acc0).value.1.highest)
  {
    if groups != [] {
      var n := |groups| - 1;
      WeekScanHighest(groups[..n], ruleSet, acc0);
      SortedRowsPrefix(groups, n);
      WeekScanLast(groups, ruleSet, acc0);
      var acc := WeekScan(groups[..n], ruleSet, acc0).value.1;
      var s := SortedRows(groups)[n];
      HighestIsFirstMaximum(s, ruleSet, 7, acc.highest);
      WeekHighestStep(SortedRows(groups), ruleSet, acc0.highest, acc.highest, WeekScan(groups, ruleSet, acc0).value.1.highest);
    }
  }

  // ---------------------------------------------------------------------------
  // `week_heat_map_from_checkins`

  /**
   * The achievements before the first participant: "23:59", "00:00", the week's last
   * check-in (if any) standing in for "first to five", and `(1, "")`, one point at no time.
   */
  function InitialAchievements(sorted: seq<Checkin>): Achievements
  {
    var firstToFive := if sorted == [] then None else Some(Moment(LastCheckin(sorted).name, LastCheckin(sorted).time));
    Achievements(MinutesPerDay - 1, 0, firstToFive, Highest(10, None))
  }

  /**
   * The result of `week_heat_map_from_checkins` on the week's rows `input`, the roster,
   * the rule set and the row of the latest-check-in query (`None` when the table is empty).
   */
  function WeekHeatMap(input: seq<Checkin>, roster: seq<string>, ruleSet: int, latestRow: Option<int>): (r: Result<WeekChart>)
    ensures latestRow.None? ==> r.Err?
    ensures r.Ok? ==> r.value.latestDate == latestRow.value
    ensures WeekScan(Participants(input, roster), ruleSet, InitialAchievements(SortBy(input, NameLe))).Err? ==>
      r == Err(WeekScan(Participants(input, roster), ruleSet, InitialAchievements(SortBy(input, NameLe))).error)
  {
    match WeekScan(Participants(input, roster), ruleSet, InitialAchievements(SortBy(input, NameLe)))
    case Err(e) => Err(e)
    case Ok(done) =>
      if latestRow.None? then Err(NoneSubscripted)
      else Ok(WeekChart(done.0, latestRow.value, done.1))
  }

  /** Sorts the caller's rows by name in place, as `checkins.sort` does, and builds the week's heat map. */
  method WeekHeatMapFromCheckins(checkins: array<Checkin>, roster: seq<string>, ruleSet: int, latestRow: Option<int>)
    returns (r: Result<WeekChart>)
    modifies checkins
    ensures checkins[..] == SortBy(old(checkins[..]), NameLe)
    ensures r == WeekHeatMap(old(checkins[..]), roster, ruleSet, latestRow)
  {
    var groups := GroupByName(checkins, roster);
    var firstToFive: Option<Moment> := None;
    if checkins.Length > 0 {
      var last := LastCheckin(checkins[..]);
      firstToFive := Some(Moment(last.name, last.time));
    }
    var acc0 := Achievements(MinutesPerDay - 1, 0, firstToFive, Highest(10, None));
    var scanned := ScanGroups(groups, ruleSet, acc0);
    if scanned.Err? {
      return Err(scanned.error);
    }
    if latestRow.None? {
      return Err(NoneSubscripted);
    }
    r := Ok(WeekChart(scanned.value.0, latestRow.value, scanned.value.1));
  }

  /**
   * The heat map is built exactly when every participant's scores can be computed and the
   * latest-check-in query returned a row; with scores computed and no row, the failure is
   * the subscript of `None`.
   */
  lemma WeekHeatMapOk(input: seq<Checkin>, roster: seq<string>, ruleSet: int, latestRow: Option<int>)
    ensures WeekHeatMap(input, roster, ruleSet, latestRow).Ok? <==>
      latestRow.Some? && AllScore(SortedRows(Participants(input, roster)), ruleSet)
    ensures AllScore(SortedRows(Participants(input, roster)), ruleSet) && latestRow.None? ==>
      WeekHeatMap(input, roster, ruleSet, latestRow) == Err(NoneSubscripted)
    ensures WeekHeatMap(input, roster, ruleSet, latestRow).Ok? ==>
      WeekHeatMap(input, roster, ruleSet, latestRow).value.latestDate == latestRow.value
  {
    WeekScanOk(Participants(input, roster), ruleSet, InitialAchievements(SortBy(input, NameLe)));
  }

  /**
   * One heat-map row per participant (everyone with rows, then the roster names without),
   * each built from exactly that participant's rows.
   */
  lemma WeekHeatMapRows(input: seq<Checkin>, roster: seq<string>, ruleSet: int, latestRow: Option<int>)
    requires WeekHeatMap(input, roster, ruleSet, latestRow).Ok?
    ensures var groups := Participants(input, roster);
      var rows := WeekHeatMap(input, roster, ruleSet, latestRow).value.rows;
      && |rows| == |groups|
      && (forall j :: 0 <= j < |groups| ==> RowOf(groups, ruleSet, j, rows[j]))
      && (forall j :: 0 <= j < |groups| ==> groups[j].rows == KeyFilter(input, NameOf, groups[j].name))
      && NameSet(groups) == Names(input) + Members(roster)
      && DistinctNames(groups)
  {
    var groups := Participants(input, roster);
    WeekScanRows(groups, ruleSet, InitialAchievements(SortBy(input, NameLe)));
    ParticipantsSpec(input, roster);
    forall j | 0 <= j < |groups|
      ensures groups[j].rows == KeyFilter(input, NameOf, groups[j].name)
    {
      assert groups[j] in groups;
    }
  }

  /** "First to five" starts as the latest check-in of the week, and is absent only in a week without check-ins. */
  lemma InitialFirstToFive(input: seq<Checkin>)
    ensures InitialAchievements(SortBy(input, NameLe)).firstToFive.None? <==> input == []
    ensures input != [] ==>
      var f := InitialAchievements(SortBy(input, NameLe)).firstToFive.value;
      (exists c :: c in input && f == Moment(c.name, c.time)) && forall c :: c in input ==> c.time <= f.time
  {
    if input != [] {
      var sorted := SortBy(input, NameLe);
      LastCheckinIsLatest(sorted);
      var c := sorted[LatestIndex(sorted)];
      assert c in multiset(input);
      forall x | x in input
        ensures x.time <= c.time
      {
        assert x in multiset(sorted);
      }
    }
  }

  /**
   * The week's achievements: `earliest` and `latest` bound every time of day shown, starting
   * from "23:59" and "00:00"; "first to five" is the earliest check-in that was someone's fifth
   * day or later, if earlier than the week's last check-in; the highest tier is the first
   * highest score of the week, if above one point.
   */
  lemma WeekHeatMapAchievements(input: seq<Checkin>, roster: seq<string>, ruleSet: int, latestRow: Option<int>)
    requires WeekHeatMap(input, roster, ruleSet, latestRow).Ok?
    ensures var groups := Participants(input, roster);
      var acc0 := InitialAchievements(SortBy(input, NameLe));
      var acc := WeekHeatMap(input, roster, ruleSet, latestRow).value.achievements;
      && WeekBounds(SortedRows(groups), MinutesPerDay - 1, 0, acc.earliest, acc.latest)
      && WeekFirstToFive(groups, SortedRows(groups), acc0.firstToFive, acc.firstToFive)
      && (acc.firstToFive.None? <==> input == [])
      && WeekHighest(SortedRows(groups), ruleSet, Highest(10, None), acc.highest)
  {
    var groups := Participants(input, roster);
    var acc0 := InitialAchievements(SortBy(input, NameLe));
    WeekScanBounds(groups, ruleSet, acc0);
    WeekScanFirstToFive(groups, ruleSet, acc0);
    WeekScanHighest(groups, ruleSet, acc0);
    InitialFirstToFive(input);
  }

  /**
   * Under rule set 1 no score fails, so the heat map is built exactly when the
   * latest-check-in query returned a row, and every participant's points lie between 0 and 7.5.
   */
  lemma Version1HeatMap(input: seq<Checkin>, roster: seq<string>, latestRow: Option<int>)
    ensures WeekHeatMap(input, roster, 1, latestRow).Ok? <==> latestRow.Some?
    ensures WeekHeatMap(input, roster, 1, latestRow).Ok? ==>
      var rows := WeekHeatMap(input, roster, 1, latestRow).value.rows;
      forall j :: 0 <= j < |rows| ==> 0 <= rows[j].points <= 75
  {
    var ss := SortedRows(Participants(input, roster));
    forall j | 0 <= j < |ss|
      ensures PointScores(ss[j], 1, 7).Ok?
    {
      Version1WeekPoints(ss[j]);
    }
    WeekHeatMapOk(input, roster, 1, latestRow);
    if latestRow.Some? {
      WeekHeatMapRows(input, roster, 1, latestRow);
      var rows := WeekHeatMap(input, roster, 1, latestRow).value.rows;
      forall j | 0 <= j < |rows|
        ensures 0 <= rows[j].points <= 75
      {
        Version1WeekPoints(ss[j]);
      }
    }
  }
}
