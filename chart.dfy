/**
 * The single-week heat map of `week_heat_map_from_checkins`: seven cells per participant,
 * each participant's count of days and capped points, and the week's achievements
 * (earliest and latest check-in time of day, "first to five", highest tier).
 */
module Chart {
  import opened Wrappers
  import opened Weekdays
  import opened Sorting
  import opened Runs
  import opened RuleSets
  import opened Clock
  import opened CheckinRows

  /** One cell: the weekday label, 1 + the index of its row (0 for none), and that row's time and tier. */
  datatype DataUnit = DataUnit(x: string, y: int, checkedIn: bool, time: Option<int>, tier: Option<string>)

  /** One participant's row of the heat map. */
  datatype CheckinChartData = CheckinChartData(name: string, data: seq<DataUnit>, totalCheckins: int, points: Points)

  /** `(name, time)` of "first to five". */
  datatype Moment = Moment(name: string, time: int)

  /** `(points, "HH:MM")` of the highest tier; `at` is the minute of the day, None for the initial "". */
  datatype Highest = Highest(points: Points, at: Option<int>)

  /**
   * The values the loops carry across participants. `earliest` and `latest` are minutes
   * of the day standing for their "HH:MM" strings, which order the same way
   * (`Clock.HourMinuteOrder`).
   */
  datatype Achievements = Achievements(earliest: int, latest: int, firstToFive: Option<Moment>, highest: Highest)

  /** The result of one participant's scan. */
  datatype Scan = Scan(row: CheckinChartData, acc: Achievements)

  /** What the scan of one participant carries from day to day: the cells so far, their count, the points so far and the achievements. */
  datatype Tally = Tally(data: seq<DataUnit>, total: int, points: seq<Points>, acc: Achievements)


  // ---------------------------------------------------------------------------
  // The cells of one participant, over their weekday-sorted rows `s`

  /** The cell of day `i` (Monday = 0). */
  function Cell(s: seq<Checkin>, i: int): DataUnit
    requires 0 <= i < 7
  {
    var d := Week[i];
    var k := MatchIndex(s, d);
    DataUnit(d.Name(), k + 1, k + 1 != 0, TimeOn(s, i), if k >= 0 then Some(s[k].tier) else None)
  }

  /** The time of day `i`'s row, if it has one. */
  function TimeOn(s: seq<Checkin>, i: int): Option<int>
    requires 0 <= i < 7
  {
    var k := MatchIndex(s, Week[i]);
    if k >= 0 then Some(s[k].time) else None
  }

  function Cells(s: seq<Checkin>): seq<DataUnit>
  {
    seq(7, i requires 0 <= i < 7 => Cell(s, i))
  }

  /** `total_checkins`: the number of checked-in cells. */
  function CountChecked(cells: seq<DataUnit>): (n: nat)
    ensures n <= |cells|
  {
    if cells == [] then 0
    else CountChecked(cells[..|cells| - 1]) + (if cells[|cells| - 1].checkedIn then 1 else 0)
  }

  /** Day `i`'s row scores: it has a non-empty tier and is not in a bye week. */
  predicate Scoring(s: seq<Checkin>, i: int)
    requires 0 <= i < 7
  {
    var k := MatchIndex(s, Week[i]);
    k >= 0 && s[k].tier != "" && !s[k].byeWeek
  }

  function ScoreAt(s: seq<Checkin>, i: int, ruleSet: int): Result<Points>
    requires 0 <= i < 7 && Scoring(s, i)
  {
    Score(s[MatchIndex(s, Week[i])].tier, ruleSet)
  }

  function Minute(s: seq<Checkin>, i: int): int
    requires 0 <= i < 7 && TimeOn(s, i).Some?
  {
    MinuteOfDay(TimeOn(s, i).value)
  }

  /** Day `i` may set "first to five": it has a time and the running count has passed four. */
  predicate Qualifies(s: seq<Checkin>, i: int)
    requires 0 <= i < 7
  {
    TimeOn(s, i).Some? && CountChecked(Cells(s)[..i + 1]) > 4
  }

  /** `point_checkins` after the first `n` days, or the failure of the first score that fails. */
  function PointScores(s: seq<Checkin>, ruleSet: int, n: int): Result<seq<Points>>
    requires 0 <= n <= 7
  {
    if n == 0 then Ok([])
    else
      match PointScores(s, ruleSet, n - 1)
      case Err(e) => Err(e)
      case Ok(points) =>
        if Scoring(s, n - 1) then
          match ScoreAt(s, n - 1, ruleSet)
          case Err(e) => Err(e)
          case Ok(p) => Ok(points + [p])
        else Ok(points)
  }

  // ---------------------------------------------------------------------------
  // The achievements after the first `n` days of one participant, as the scan updates them

  /** `earliest` after the first `n` days, from `e0`: lowered to each earlier time of day. */
  function Earliest(s: seq<Checkin>, n: int, e0: int): int
    requires 0 <= n <= 7
  {
    if n == 0 then e0
    else
      var e := Earliest(s, n - 1, e0);
      if TimeOn(s, n - 1).Some? && Minute(s, n - 1) < e then Minute(s, n - 1) else e
  }

  /** `latest` after the first `n` days, from `l0`: raised to each later time of day. */
  function Latest(s: seq<Checkin>, n: int, l0: int): int
    requires 0 <= n <= 7
  {
    if n == 0 then l0
    else
      var l := Latest(s, n - 1, l0);
      if TimeOn(s, n - 1).Some? && Minute(s, n - 1) > l then Minute(s, n - 1) else l
  }

  /** `first_to_five` after the first `n` days, from `f0`: taken by a qualifying day with a strictly earlier time. */
  function FirstToFive(name: string, s: seq<Checkin>, n: int, f0: Option<Moment>): Option<Moment>
    requires 0 <= n <= 7
  {
    if n == 0 then f0
    else
      var f := FirstToFive(name, s, n - 1, f0);
      if f.Some? && Qualifies(s, n - 1) && TimeOn(s, n - 1).value < f.value.time
      then Some(Moment(name, TimeOn(s, n - 1).value)) else f
  }

  /** `highest_tier` after the first `n` days, from `h0`: taken by a score strictly above it. */
  function HighestAfter(s: seq<Checkin>, ruleSet: int, n: int, h0: Highest): Highest
    requires 0 <= n <= 7
  {
    if n == 0 then h0
    else
      var h := HighestAfter(s, ruleSet, n - 1, h0);
      if !Scoring(s, n - 1) then h
      else
        var p := ScoreAt(s, n - 1, ruleSet);
        if p.Ok? && p.value > h.points then Highest(p.value, Some(Minute(s, n - 1))) else h
  }

  /** The scan of one participant after its first `n` days, or the first failing score. */
  function TallyAfter(name: string, s: seq<Checkin>, ruleSet: int, n: int, acc0: Achievements): Result<Tally>
    requires 0 <= n <= 7
  {
    match PointScores(s, ruleSet, n)
    case Err(e) => Err(e)
    case Ok(points) =>
      Ok(Tally(Cells(s)[..n], CountChecked(Cells(s)[..n]), points,
               Achievements(Earliest(s, n, acc0.earliest), Latest(s, n, acc0.latest),
                            FirstToFive(name, s, n, acc0.firstToFive), HighestAfter(s, ruleSet, n, acc0.highest))))
  }

  /** One participant's row of the heat map and the achievements after it, or the first failing score. */
  function ScanOf(name: string, s: seq<Checkin>, ruleSet: int, acc0: Achievements): (r: Result<Scan>)
    ensures r.Ok? ==> r.value.row.name == name && |r.value.row.data| == 7
  {
    match TallyAfter(name, s, ruleSet, 7, acc0)
    case Err(e) => Err(e)
    case Ok(t) => Ok(Scan(CheckinChartData(name, t.data, t.total, TopFiveSum(t.points)), t.acc))
  }

  // ---------------------------------------------------------------------------
  // What the achievements mean

  /** `e` and `l` are the least and greatest of `e0`, `l0` and the times of day of the first `n` days. */
  ghost predicate Bounds(s: seq<Checkin>, n: int, e0: int, l0: int, e: int, l: int)
    requires 0 <= n <= 7
  {
    && e <= e0 && l0 <= l
    && (forall i :: 0 <= i < n && TimeOn(s, i).Some? ==> e <= Minute(s, i) <= l)
    && (e == e0 || exists i :: 0 <= i < n && TimeOn(s, i).Some? && Minute(s, i) == e)
    && (l == l0 || exists i :: 0 <= i < n && TimeOn(s, i).Some? && Minute(s, i) == l)
  }

  /**
   * `f` is `None` exactly when `f0` is; otherwise it is no later than `f0` or any qualifying
   * day, and unless it is `f0` it is this participant at a qualifying day's time.
   */
  ghost predicate FirstToFiveKept(name: string, s: seq<Checkin>, n: int, f0: Option<Moment>, f: Option<Moment>)
    requires 0 <= n <= 7
  {
    && (f.None? <==> f0.None?)
    && (f0.Some? ==>
      && f.value.time <= f0.value.time
      && (forall i :: 0 <= i < n && Qualifies(s, i) ==> f.value.time <= TimeOn(s, i).value)
      && (f == f0 || (f.value.name == name && (exists i :: 0 <= i < n && Qualifies(s, i)
                                                  && TimeOn(s, i).value == f.value.time < f0.value.time))))
  }

  /**
   * No score of the first `n` days is above `h`, and `h` is either `h0` or the first score
   * that reaches its value, strictly above `h0`.
   */
  ghost predicate HighestKept(s: seq<Checkin>, ruleSet: int, n: int, h0: Highest, h: Highest)
    requires 0 <= n <= 7
  {
    && h0.points <= h.points
    && (forall i :: 0 <= i < n && Scoring(s, i) && ScoreAt(s, i, ruleSet).Ok? ==> ScoreAt(s, i, ruleSet).value <= h.points)
    && (h == h0 || HighestFrom(s, ruleSet, n, h0, h))
  }

  /** `h` is the score of some day before `n`, strictly above `h0`, and no earlier day scored as much. */
  ghost predicate HighestFrom(s: seq<Checkin>, ruleSet: int, n: int, h0: Highest, h: Highest)
    requires 0 <= n <= 7
  {
    exists i :: 0 <= i < n && Scoring(s, i) && ScoreAt(s, i, ruleSet).Ok? && FirstToReach(s, ruleSet, i, h0, h)
  }

  ghost predicate FirstToReach(s: seq<Checkin>, ruleSet: int, i: int, h0: Highest, h: Highest)
    requires 0 <= i < 7 && Scoring(s, i) && ScoreAt(s, i, ruleSet).Ok?
  {
    && h == Highest(ScoreAt(s, i, ruleSet).value, Some(Minute(s, i)))
    && h0.points < h.points
    && forall k :: 0 <= k < i && Scoring(s, k) && ScoreAt(s, k, ruleSet).Ok? ==> ScoreAt(s, k, ruleSet).value < h.points
  }

  lemma CellsStep(s: seq<Checkin>, n: int)
    requires 0 <= n < 7
    ensures Cells(s)[..n + 1] == Cells(s)[..n] + [Cell(s, n)]
    ensures CountChecked(Cells(s)[..n + 1]) == CountChecked(Cells(s)[..n]) + (if Cell(s, n).checkedIn then 1 else 0)
  {
    assert Cells(s)[..n + 1][..n] == Cells(s)[..n];
  }

  /** Once a score fails, the scan of the remaining days fails with the same error. */
  lemma {:induction false} PointScoresFailLater(s: seq<Checkin>, ruleSet: int, n: int, m: int)
    requires 0 <= n <= m <= 7 && PointScores(s, ruleSet, n).Err?
    ensures PointScores(s, ruleSet, m) == PointScores(s, ruleSet, n)
  {
    if n < m {
      PointScoresFailLater(s, ruleSet, n, m - 1);
    }
  }

  lemma BoundsStep(s: seq<Checkin>, n: int, e0: int, l0: int)
    requires 0 <= n < 7 && Bounds(s, n, e0, l0, Earliest(s, n, e0), Latest(s, n, l0))
    ensures Bounds(s, n + 1, e0, l0, Earliest(s, n + 1, e0), Latest(s, n + 1, l0))
  {
    var e, l := Earliest(s, n, e0), Latest(s, n, l0);
    var e', l' := Earliest(s, n + 1, e0), Latest(s, n + 1, l0);
    forall i | 0 <= i < n + 1 && TimeOn(s, i).Some?
      ensures e' <= Minute(s, i) <= l'
    {
      if i < n {
        assert e <= Minute(s, i) <= l;
      }
    }
    if e' != e0 {
      if e' == e {
        var i :| 0 <= i < n && TimeOn(s, i).Some? && Minute(s, i) == e;
        assert 0 <= i < n + 1;
      } else {
        assert Minute(s, n) == e';
      }
    }
    if l' != l0 {
      if l' == l {
        var i :| 0 <= i < n && TimeOn(s, i).Some? && Minute(s, i) == l;
        assert 0 <= i < n + 1;
      } else {
        assert Minute(s, n) == l';
      }
    }
  }

  /** `earliest` and `latest` are the least and greatest time of day seen, or where they started. */
  lemma {:induction false} EarliestLatestBounds(s: seq<Checkin>, n: int, e0: int, l0: int)
    requires 0 <= n <= 7
    ensures Bounds(s, n, e0, l0, Earliest(s, n, e0), Latest(s, n, l0))
  {
    if n > 0 {
      EarliestLatestBounds(s, n - 1, e0, l0);
      BoundsStep(s, n - 1, e0, l0);
    }
  }

  /** "First to five" is the earliest qualifying time, when it beats where it started. */
  lemma {:induction false} FirstToFiveEarliest(name: string, s: seq<Checkin>, n: int, f0: Option<Moment>)
    requires 0 <= n <= 7
    ensures FirstToFiveKept(name, s, n, f0, FirstToFive(name, s, n, f0))
  {
    if n > 0 {
      FirstToFiveEarliest(name, s, n - 1, f0);
    }
  }

  lemma HighestStep(s: seq<Checkin>, ruleSet: int, n: int, h0: Highest)
    requires 0 <= n < 7 && HighestKept(s, ruleSet, n, h0, HighestAfter(s, ruleSet, n, h0))
    ensures HighestKept(s, ruleSet, n + 1, h0, HighestAfter(s, ruleSet, n + 1, h0))
  {
    var h, h' := HighestAfter(s, ruleSet, n, h0), HighestAfter(s, ruleSet, n + 1, h0);
    HighestStepBound(s, ruleSet, n, h0);
    if h' != h {
      assert FirstToReach(s, ruleSet, n, h0, h');
    } else if h != h0 {
      HighestFromLonger(s, ruleSet, n, h0, h);
    }
  }

  /** One more day leaves no score of the first `n + 1` days above the highest. */
  lemma HighestStepBound(s: seq<Checkin>, ruleSet: int, n: int, h0: Highest)
    requires 0 <= n < 7 && HighestKept(s, ruleSet, n, h0, HighestAfter(s, ruleSet, n, h0))
    ensures h0.points <= HighestAfter(s, ruleSet, n + 1, h0).points
    ensures forall i :: 0 <= i < n + 1 && Scoring(s, i) && ScoreAt(s, i, ruleSet).Ok? ==>
      ScoreAt(s, i, ruleSet).value <= HighestAfter(s, ruleSet, n + 1, h0).points
  {
  }

  /** A day that reached the highest among the first `n` days still does among the first `n + 1`. */
  lemma HighestFromLonger(s: seq<Checkin>, ruleSet: int, n: int, h0: Highest, h: Highest)
    requires 0 <= n < 7 && HighestFrom(s, ruleSet, n, h0, h)
    ensures HighestFrom(s, ruleSet, n + 1, h0, h)
  {
    var i :| 0 <= i < n && Scoring(s, i) && ScoreAt(s, i, ruleSet).Ok? && FirstToReach(s, ruleSet, i, h0, h);
    assert 0 <= i < n + 1;
  }

  /** The highest tier is the first highest score, when it beats where it started. */
  lemma {:induction false} HighestIsFirstMaximum(s: seq<Checkin>, ruleSet: int, n: int, h0: Highest)
    requires 0 <= n <= 7
    ensures HighestKept(s, ruleSet, n, h0, HighestAfter(s, ruleSet, n, h0))
  {
    if n > 0 {
      HighestIsFirstMaximum(s, ruleSet, n - 1, h0);
      HighestStep(s, ruleSet, n - 1, h0);
    }
  }

  /** A participant's scan succeeds exactly when every scoring day's score does. */
  lemma ScanOfOk(name: string, s: seq<Checkin>, ruleSet: int, acc0: Achievements)
    ensures ScanOf(name, s, ruleSet, acc0).Ok? <==> PointScores(s, ruleSet, 7).Ok?
  {
  }

  /**
   * A participant's scan succeeds exactly when every scoring day's score does; its row then
   * holds the seven cells, their count and the best five points, and its achievements are
   * those after the seventh day.
   */
  lemma ScanOfParts(name: string, s: seq<Checkin>, ruleSet: int, acc0: Achievements)
    ensures ScanOf(name, s, ruleSet, acc0).Ok? <==> PointScores(s, ruleSet, 7).Ok?
    ensures ScanOf(name, s, ruleSet, acc0).Ok? ==>
      && ScanOf(name, s, ruleSet, acc0).value.row
         == CheckinChartData(name, Cells(s), CountChecked(Cells(s)), TopFiveSum(PointScores(s, ruleSet, 7).value))
      && ScanOf(name, s, ruleSet, acc0).value.acc
         == Achievements(Earliest(s, 7, acc0.earliest), Latest(s, 7, acc0.latest),
                         FirstToFive(name, s, 7, acc0.firstToFive), HighestAfter(s, ruleSet, 7, acc0.highest))
  {
    assert Cells(s)[..7] == Cells(s);
  }

  /** How one more day changes each part of the scan, in terms of the scan so far. */
  lemma TallyNext(name: string, s: seq<Checkin>, ruleSet: int, acc0: Achievements, i: int, t: Tally)
    requires 0 <= i < 7 && TallyAfter(name, s, ruleSet, i, acc0) == Ok(t)
    ensures Cells(s)[..i + 1] == t.data + [Cell(s, i)]
    ensures CountChecked(Cells(s)[..i + 1]) == t.total + (if Cell(s, i).checkedIn then 1 else 0)
    ensures Earliest(s, i + 1, acc0.earliest)
      == if TimeOn(s, i).Some? && Minute(s, i) < t.acc.earliest then Minute(s, i) else t.acc.earliest
    ensures Latest(s, i + 1, acc0.latest)
      == if TimeOn(s, i).Some? && Minute(s, i) > t.acc.latest then Minute(s, i) else t.acc.latest
    ensures FirstToFive(name, s, i + 1, acc0.firstToFive)
      == if t.acc.firstToFive.Some? && Qualifies(s, i) && TimeOn(s, i).value < t.acc.firstToFive.value.time
         then Some(Moment(name, TimeOn(s, i).value)) else t.acc.firstToFive
    ensures HighestAfter(s, ruleSet, i + 1, acc0.highest)
      == if Scoring(s, i) && ScoreAt(s, i, ruleSet).Ok? && ScoreAt(s, i, ruleSet).value > t.acc.highest.points
         then Highest(ScoreAt(s, i, ruleSet).value, Some(Minute(s, i))) else t.acc.highest
    ensures PointScores(s, ruleSet, i + 1)
      == if !Scoring(s, i) then Ok(t.points)
         else if ScoreAt(s, i, ruleSet).Err? then Err(ScoreAt(s, i, ruleSet).error)
         else Ok(t.points + [ScoreAt(s, i, ruleSet).value])
  {
    CellsStep(s, i);
  }

  /**
   * One turn of the inner loop of `week_heat_map_from_checkins`: finds day `i`'s row, moves
   * `latest` and `earliest`, counts the day, may take "first to five", scores the day when
   * it scores (failing when the score fails) and appends its cell.
   */
  method VisitDay(name: string, s: seq<Checkin>, ruleSet: int, acc0: Achievements, i: int, t: Tally) returns (r: Result<Tally>)
    requires 0 <= i < 7 && TallyAfter(name, s, ruleSet, i, acc0) == Ok(t)
    ensures r == TallyAfter(name, s, ruleSet, i + 1, acc0)
  {
    var weekday := Week[i];
    var k := MatchIndex(s, weekday);
    var tier := if k >= 0 then Some(s[k].tier) else None;
    var time := if k >= 0 then Some(s[k].time) else None;
    var timeHour := if time.Some? then Some(MinuteOfDay(time.value)) else None;
    var checkedIn := k + 1 != 0;
    assert DataUnit(weekday.Name(), k + 1, checkedIn, time, tier) == Cell(s, i);
    assert (tier.Some? && tier.value != "" && !s[k].byeWeek) == Scoring(s, i);
    assert time == TimeOn(s, i);
    assert timeHour == if TimeOn(s, i).Some? then Some(Minute(s, i)) else None;
    var earliest, latest, firstToFive, highest := t.acc.earliest, t.acc.latest, t.acc.firstToFive, t.acc.highest;
    latest := if timeHour.Some? && timeHour.value > latest then timeHour.value else latest;
    earliest := if timeHour.Some? && timeHour.value < earliest then timeHour.value else earliest;
    TallyNext(name, s, ruleSet, acc0, i, t);
    var total := t.total + if checkedIn then 1 else 0;
    assert (total > 4 && time.Some?) == Qualifies(s, i);
    firstToFive := if firstToFive.Some? && total > 4 && time.Some? && time.value < firstToFive.value.time
      then Some(Moment(name, time.value)) else firstToFive;
    var points := t.points;
    if tier.Some? && tier.value != "" && !s[k].byeWeek {
      var p := Score(tier.value, ruleSet);
      assert p == ScoreAt(s, i, ruleSet);
      if p.Err? {
        return Err(p.error);
      }
      points := points + [p.value];
      highest := if p.value > highest.points then Highest(p.value, timeHour) else highest;
    }
    var data := t.data + [DataUnit(weekday.Name(), k + 1, checkedIn, time, tier)];
    r := Ok(Tally(data, total, points, Achievements(earliest, latest, firstToFive, highest)));
  }

  /**
   * The inner loop of `week_heat_map_from_checkins` for one participant: sorts their rows
   * by weekday and visits the seven days in order. Fails exactly when a score fails.
   */
  method ScanParticipant(name: string, rows: seq<Checkin>, ruleSet: int, acc0: Achievements) returns (r: Result<Scan>)
    ensures r == ScanOf(name, SortByWeekday(rows), ruleSet, acc0)
  {
    var s := SortByWeekday(rows);
    var tally := Tally([], 0, [], acc0);
    for i := 0 to 7
      invariant TallyAfter(name, s, ruleSet, i, acc0) == Ok(tally)
    {
      var next := VisitDay(name, s, ruleSet, acc0, i, tally);
      if next.Err? {
        PointScoresFailLater(s, ruleSet, i + 1, 7);
        return Err(next.error);
      }
      tally := next.value;
    }
    r := Ok(Scan(CheckinChartData(name, tally.data, tally.total, TopFiveSum(tally.points)), tally.acc));
  }

  // ---------------------------------------------------------------------------
  // What the cells and points of one participant mean

  /**
   * Day `i`'s cell carries the weekday's name; it is checked in exactly when `y` is not 0,
   * which is exactly when some row has that weekday, and then its time and tier are those
   * of the first such row in the order the rows came in.
   */
  lemma CellOfDay(rows: seq<Checkin>, i: int)
    requires 0 <= i < 7
    ensures var c := Cells(SortByWeekday(rows))[i];
      var f := KeyFilter(rows, DayOf, Week[i]);
      && c.x == Week[i].Name()
      && (c.checkedIn <==> c.y != 0)
      && (c.y == 0 <==> f == [])
      && (f == [] ==> c.time == None && c.tier == None)
      && (f != [] ==> c.time == Some(f[0].time) && c.tier == Some(f[0].tier))
  {
    FirstRowOfDay(rows, Week[i]);
    KeyFilterMembers(rows, DayOf, Week[i]);
    if KeyFilter(rows, DayOf, Week[i]) == [] {
      forall j | 0 <= j < |rows|
        ensures rows[j].day != Week[i]
      {
        assert rows[j] in rows;
      }
    }
  }

  /** Counting the checked-in cells of a prefix is the size of the set of their positions. */
  lemma {:induction false} CountCheckedIsCount(cells: seq<DataUnit>, n: nat)
    requires n <= |cells|
    ensures CountChecked(cells[..n]) == |set i | 0 <= i < n && cells[i].checkedIn|
  {
    if n > 0 {
      CountCheckedIsCount(cells, n - 1);
      assert cells[..n][..n - 1] == cells[..n - 1];
      var before := set i | 0 <= i < n - 1 && cells[i].checkedIn;
      if cells[n - 1].checkedIn {
        assert (set i | 0 <= i < n && cells[i].checkedIn) == before + {n - 1};
      } else {
        assert (set i | 0 <= i < n && cells[i].checkedIn) == before;
      }
    }
  }

  /** `total_checkins` is the number of weekdays on which the participant has a row. */
  lemma CountCheckedDays(rows: seq<Checkin>)
    ensures CountChecked(Cells(SortByWeekday(rows))) == |set i | 0 <= i < 7 && KeyFilter(rows, DayOf, Week[i]) != []|
  {
    var cells := Cells(SortByWeekday(rows));
    assert cells[..7] == cells;
    CountCheckedIsCount(cells, 7);
    forall i | 0 <= i < 7
      ensures cells[i].checkedIn <==> KeyFilter(rows, DayOf, Week[i]) != []
    {
      CellOfDay(rows, i);
    }
    SameDays(cells, rows);
  }

  lemma SameDays(cells: seq<DataUnit>, rows: seq<Checkin>)
    requires |cells| == 7
    requires forall i :: 0 <= i < 7 ==> (cells[i].checkedIn <==> KeyFilter(rows, DayOf, Week[i]) != [])
    ensures (set i | 0 <= i < 7 && cells[i].checkedIn) == set i | 0 <= i < 7 && KeyFilter(rows, DayOf, Week[i]) != []
  {
  }

  /** Rows that are all in bye weeks or without a tier collect no points. */
  lemma {:induction false} NothingScored(s: seq<Checkin>, ruleSet: int, n: int)
    requires 0 <= n <= 7
    requires forall c :: c in s ==> c.byeWeek || c.tier == ""
    ensures PointScores(s, ruleSet, n) == Ok([])
  {
    if n > 0 {
      NothingScored(s, ruleSet, n - 1);
      var k := MatchIndex(s, Week[n - 1]);
      if k >= 0 {
        assert s[k] in s;
      }
    }
  }

  /** A participant whose every row is in a bye week or untiered gets no points for the week. */
  lemma ByeWeekScoresNothing(rows: seq<Checkin>, ruleSet: int)
    requires forall c :: c in rows ==> c.byeWeek || c.tier == ""
    ensures PointScores(SortByWeekday(rows), ruleSet, 7) == Ok([])
    ensures TopFiveSum(PointScores(SortByWeekday(rows), ruleSet, 7).value) == 0
  {
    SortByWeekdaySpec(rows);
    forall c | c in SortByWeekday(rows)
      ensures c.byeWeek || c.tier == ""
    {
      assert c in multiset(SortByWeekday(rows));
    }
    NothingScored(SortByWeekday(rows), ruleSet, 7);
  }

  /** Under rule set 1 every score succeeds, one per scoring day among the first `n`, each between 0 and 1.5. */
  lemma {:induction false} Version1PointScores(s: seq<Checkin>, n: int)
    requires 0 <= n <= 7
    ensures PointScores(s, 1, n).Ok?
    ensures |PointScores(s, 1, n).value| <= n
    ensures forall k :: 0 <= k < |PointScores(s, 1, n).value| ==> 0 <= PointScores(s, 1, n).value[k] <= 15
  {
    if n > 0 {
      Version1PointScores(s, n - 1);
    }
  }

  /** Under rule set 1 a participant's week is worth between 0 and 7.5 points: five days at 1.5 at most. */
  lemma Version1WeekPoints(s: seq<Checkin>)
    ensures PointScores(s, 1, 7).Ok?
    ensures 0 <= TopFiveSum(PointScores(s, 1, 7).value) <= 75
  {
    Version1PointScores(s, 7);
    var values := PointScores(s, 1, 7).value;
    TopFiveSumBound(values, 15);
  }
}
