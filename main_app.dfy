/**
 * The parts of `main.py` that compute rather than fetch or draw: the dates that bound a
 * challenge week, the older heat-map builder `week_heat_map_from_db` over the rows its
 * queries return, and `fiveCheckinsThisWeek`.
 */
module MainApp {
  import opened Wrappers
  import opened Weekdays
  import opened Sorting
  import opened Runs
  import opened CheckinRows
  import Chart

  // ---------------------------------------------------------------------------
  // Calendar: days are proleptic Gregorian ordinals, as `date.toordinal()` numbers them
  // (1 January of year 1 is day 1, a Monday)

  /** The ordinal of 31 December 9999, the last day `datetime` can hold. */
  const MaxOrdinal := 3652059

  predicate Leap(year: int)
  {
    year % 4 == 0 && (year % 100 != 0 || year % 400 == 0)
  }

  /** The ordinal of 1 January of `year`. */
  function Jan1Ordinal(year: int): int
    requires year >= 1
  {
    var y := year - 1;
    365 * y + y / 4 - y / 100 + y / 400 + 1
  }

  /** `date.weekday()`: Monday is 0 and Sunday is 6. */
  function WeekdayOf(ordinal: int): (w: int)
    ensures 0 <= w < 7
  {
    (ordinal + 6) % 7
  }

  /**
   * The ordinals count every day once: year 1 starts on day 1, a Monday, a year lasts 365
   * days or 366 in a leap year, and day `MaxOrdinal` is the eve of year 10000.
   */
  lemma Jan1Steps(year: int)
    requires year >= 1
    ensures Jan1Ordinal(1) == 1 && WeekdayOf(1) == 0
    ensures Jan1Ordinal(year + 1) == Jan1Ordinal(year) + (if Leap(year) then 366 else 365)
    ensures Jan1Ordinal(10000) == MaxOrdinal + 1
  {
    var y := year - 1;
    SuccDiv4(y);
    SuccDiv100(y);
    SuccDiv400(y);
    LeapDivisors(year);
  }

  lemma SuccDiv4(y: int)
    ensures (y + 1) / 4 == y / 4 + (if (y + 1) % 4 == 0 then 1 else 0)
  {
    if y % 4 == 3 {
      DivMod(y + 1, 4, y / 4 + 1, 0);
    } else {
      DivMod(y + 1, 4, y / 4, y % 4 + 1);
    }
  }

  lemma SuccDiv100(y: int)
    ensures (y + 1) / 100 == y / 100 + (if (y + 1) % 100 == 0 then 1 else 0)
  {
    if y % 100 == 99 {
      DivMod(y + 1, 100, y / 100 + 1, 0);
    } else {
      DivMod(y + 1, 100, y / 100, y % 100 + 1);
    }
  }

  lemma SuccDiv400(y: int)
    ensures (y + 1) / 400 == y / 400 + (if (y + 1) % 400 == 0 then 1 else 0)
  {
    if y % 400 == 399 {
      DivMod(y + 1, 400, y / 400 + 1, 0);
    } else {
      DivMod(y + 1, 400, y / 400, y % 400 + 1);
    }
  }

  lemma LeapDivisors(year: int)
    ensures year % 400 == 0 ==> year % 100 == 0
    ensures year % 100 == 0 ==> year % 4 == 0
  {
    if year % 400 == 0 {
      DivMod(year, 100, 4 * (year / 400), 0);
    }
    if year % 100 == 0 {
      DivMod(year, 4, 25 * (year / 100), 0);
    }
  }

  /** The quotient and remainder of Euclidean division are unique. */
  lemma DivMod(a: int, k: int, q: int, r: int)
    requires (k == 4 || k == 7 || k == 100 || k == 400) && a == k * q + r && 0 <= r < k
    ensures a / k == q && a % k == r
  {
  }

  /** Moving by whole weeks keeps the weekday. */
  lemma WeekdayShift(d: int, m: int)
    ensures WeekdayOf(d + 7 * m) == WeekdayOf(d)
  {
    DivMod(d + 6 + 7 * m, 7, (d + 6) / 7 + m, (d + 6) % 7);
  }

  /** The first Monday of a year is a Monday, at most six days after 1 January. */
  lemma FirstMondayIsMonday(year: int)
    requires year >= 1
    ensures WeekdayOf(FirstMonday(year)) == 0
    ensures Jan1Ordinal(year) <= FirstMonday(year) <= Jan1Ordinal(year) + 6
    ensures FirstMonday(year) == Jan1Ordinal(year) <==> WeekdayOf(Jan1Ordinal(year)) == 0
    ensures forall d :: Jan1Ordinal(year) <= d < FirstMonday(year) ==> WeekdayOf(d) != 0
  {
    var jan1 := Jan1Ordinal(year);
    var w := WeekdayOf(jan1);
    var q := (jan1 + 6) / 7;
    if w > 0 {
      DivMod(jan1 + 7 - w + 6, 7, q + 1, 0);
      forall d | jan1 <= d < FirstMonday(year)
        ensures WeekdayOf(d) != 0
      {
        DivMod(d + 6, 7, q, w + (d - jan1));
      }
    }
  }

  /** The first Monday on or after 1 January: the start of week 1. */
  function FirstMonday(year: int): int
    requires year >= 1
  {
    var jan1 := Jan1Ordinal(year);
    if WeekdayOf(jan1) > 0 then jan1 + (7 - WeekdayOf(jan1)) else jan1
  }

  /**
   * `get_start_end_dates(year, week_num)`: the ordinals of the Monday that starts the week
   * and of the Monday after it. A year outside 1 to 9999, or a week whose dates leave that
   * range, fails as `datetime` does.
   */
  function GetStartEndDates(year: int, weekNum: int): (r: Result<(int, int)>)
    ensures year < 1 || 9999 < year ==> r.Err?
    ensures r.Err? ==> r.error == DateOutOfRange
    ensures r.Ok? ==> 1 <= r.value.0 && r.value.1 == r.value.0 + 7 && r.value.1 <= MaxOrdinal
    ensures r.Ok? ==> r.value.0 == FirstMonday(year) + (weekNum - 1) * 7
  {
    if year < 1 || 9999 < year then Err(DateOutOfRange)
    else
      var start := FirstMonday(year) + (weekNum - 1) * 7;
      if start < 1 || MaxOrdinal < start then Err(DateOutOfRange)
      else if MaxOrdinal < start + 7 then Err(DateOutOfRange)
      else Ok((start, start + 7))
  }

  /** A week runs from a Monday to the next Monday, seven days later. */
  lemma WeekIsMondayToMonday(year: int, weekNum: int)
    requires GetStartEndDates(year, weekNum).Ok?
    ensures var (start, end) := GetStartEndDates(year, weekNum).value;
      end == start + 7 && WeekdayOf(start) == 0 && WeekdayOf(end) == 0
      && 1 <= start && end <= MaxOrdinal
  {
    var first := FirstMonday(year);
    FirstMondayIsMonday(year);
    WeekdayShift(first, weekNum - 1);
    WeekdayShift(first, weekNum);
  }

  /**
   * Week 1 starts on 1 January when that is a Monday and otherwise on the next Monday,
   * 1 to 6 days later, with no Monday in between.
   */
  lemma FirstWeekStart(year: int)
    requires 1 <= year <= 9999
    ensures GetStartEndDates(year, 1).Ok?
    ensures var start := GetStartEndDates(year, 1).value.0;
      && Jan1Ordinal(year) <= start <= Jan1Ordinal(year) + 6
      && (start == Jan1Ordinal(year) <==> WeekdayOf(Jan1Ordinal(year)) == 0)
      && forall d :: Jan1Ordinal(year) <= d < start ==> WeekdayOf(d) != 0
  {
    Jan1Steps(9999);
    Jan1Bound(year);
    FirstMondayIsMonday(year);
  }

  lemma {:induction false} Jan1Bound(year: int)
    requires 1 <= year <= 9999
    ensures 1 <= Jan1Ordinal(year) <= Jan1Ordinal(9999)
    decreases 9999 - year
  {
    if year < 9999 {
      Jan1Steps(year);
      Jan1Bound(year + 1);
    }
  }

  /** Week `n + 1` starts where week `n` ends. */
  lemma ConsecutiveWeeks(year: int, weekNum: int)
    requires GetStartEndDates(year, weekNum).Ok? && GetStartEndDates(year, weekNum + 1).Ok?
    ensures GetStartEndDates(year, weekNum + 1).value.0 == GetStartEndDates(year, weekNum).value.1
  {
  }

  /** Weeks 1 to 53 of the years 1 to 9998 all lie within the calendar, so only its edges fail. */
  lemma WeeksOfYearInRange(year: int, weekNum: int)
    requires 1 <= year <= 9998 && 1 <= weekNum <= 53
    ensures GetStartEndDates(year, weekNum).Ok?
  {
    Jan1Steps(9998);
    Jan1Steps(9999);
    Jan1Bound(year);
    FirstMondayIsMonday(year);
  }

  // ---------------------------------------------------------------------------
  // `week_heat_map_from_db`

  /** A cell of the older builder: the weekday label, 1 + the index of its row (0 for none), and that row's time. */
  datatype DataUnit = DataUnit(x: string, y: int, checkedIn: bool, time: Option<int>)

  datatype ChallengerRow = ChallengerRow(name: string, data: seq<DataUnit>)

  /** The cell of day `i` (Monday = 0) of weekday-sorted rows `s`. */
  function DbCell(s: seq<Checkin>, i: int): DataUnit
    requires 0 <= i < 7
  {
    var k := MatchIndex(s, Week[i]);
    DataUnit(Week[i].Name(), k + 1, k + 1 != 0, if |s| > k && k >= 0 then Some(s[k].time) else None)
  }

  function DbCells(s: seq<Checkin>): seq<DataUnit>
  {
    seq(7, i requires 0 <= i < 7 => DbCell(s, i))
  }

  function DbRow(g: Group): ChallengerRow
  {
    ChallengerRow(g.name, DbCells(SortByWeekday(g.rows)))
  }

  /** One row per participant, in dict order. */
  function DbRows(groups: seq<Group>): (rows: seq<ChallengerRow>)
    ensures |rows| == |groups|
  {
    seq(|groups|, j requires 0 <= j < |groups| => DbRow(groups[j]))
  }

  /** The cells of the two builders agree, except that the older one carries no tier. */
  lemma DbCellAgrees(s: seq<Checkin>, i: int)
    requires 0 <= i < 7
    ensures var c := Chart.Cell(s, i);
      DbCell(s, i) == DataUnit(c.x, c.y, c.checkedIn, c.time)
  {
  }

  /** The order of `rows.sort(key=lambda x: getWeekNumber(x[time_index]))`. */
  function WeekOrder(weekNumber: int -> int): (Checkin, Checkin) -> bool
  {
    (a: Checkin, b: Checkin) => weekNumber(a.time) <= weekNumber(b.time)
  }

  /**
   * The result of `week_heat_map_from_db` on the fetched rows `input`: the week's bounds
   * must exist; the rows are sorted by week number (a calendar function, `weekNumber`) and
   * then by name, grouped by participant with the roster added, and each participant's
   * cells are assembled; `latestRow` is the row of the latest-check-in query.
   */
  function DbHeatMap(input: seq<Checkin>, roster: seq<string>, year: int, weekNum: int,
                     weekNumber: int -> int, latestRow: Option<int>): (r: Result<(seq<ChallengerRow>, int)>)
    ensures GetStartEndDates(year, weekNum).Err? ==> r == Err(DateOutOfRange)
    ensures GetStartEndDates(year, weekNum).Ok? && latestRow.None? ==> r == Err(NoneSubscripted)
    ensures r.Ok? ==> r.value.1 == latestRow.value
    ensures r.Ok? ==> |r.value.0| == |Participants(SortBy(input, WeekOrder(weekNumber)), roster)|
  {
    if GetStartEndDates(year, weekNum).Err? then Err(GetStartEndDates(year, weekNum).error)
    else
      var groups := Participants(SortBy(input, WeekOrder(weekNumber)), roster);
      if latestRow.None? then Err(NoneSubscripted) else Ok((DbRows(groups), latestRow.value))
  }

  /** The inner loop over the weekdays: one participant's cells. */
  method AssembleCells(sorted: seq<Checkin>) returns (data: seq<DataUnit>)
    ensures data == DbCells(sorted)
  {
    data := [];
    for i := 0 to 7
      invariant |data| == i
      invariant forall m :: 0 <= m < i ==> data[m] == DbCell(sorted, m)
    {
      var k := MatchIndex(sorted, Week[i]);
      var time := if |sorted| > k && k >= 0 then Some(sorted[k].time) else None;
      data := data + [DataUnit(Week[i].Name(), k + 1, k + 1 != 0, time)];
    }
  }

  /** The nested loop over participants and weekdays. */
  method AssembleRows(groups: seq<Group>) returns (heatmap: seq<ChallengerRow>)
    ensures heatmap == DbRows(groups)
  {
    heatmap := [];
    for j := 0 to |groups|
      invariant |heatmap| == j
      invariant forall m :: 0 <= m < j ==> heatmap[m] == DbRow(groups[m])
    {
      var data := AssembleCells(SortByWeekday(groups[j].rows));
      heatmap := heatmap + [ChallengerRow(groups[j].name, data)];
    }
  }

  /**
   * Sorts the caller's rows in place, first by week number and then by name, and builds
   * the heat map. A failing date computation comes first and leaves the rows as they were.
   */
  method WeekHeatMapFromDb(rows: array<Checkin>, roster: seq<string>, year: int, weekNum: int,
                           weekNumber: int -> int, latestRow: Option<int>)
    returns (r: Result<(seq<ChallengerRow>, int)>)
    modifies rows
    ensures r == DbHeatMap(old(rows[..]), roster, year, weekNum, weekNumber, latestRow)
    ensures GetStartEndDates(year, weekNum).Err? ==> rows[..] == old(rows[..])
    ensures GetStartEndDates(year, weekNum).Ok? ==> rows[..] == SortBy(SortBy(old(rows[..]), WeekOrder(weekNumber)), NameLe)
  {
    ghost var input := rows[..];
    var bounds := GetStartEndDates(year, weekNum);
    if bounds.Err? {
      return Err(bounds.error);
    }
    var byWeek := SortBy(rows[..], WeekOrder(weekNumber));
    forall i | 0 <= i < rows.Length {
      rows[i] := byWeek[i];
    }
    assert rows[..] == byWeek;
    var groups := GroupByName(rows, roster);
    assert groups == Participants(SortBy(input, WeekOrder(weekNumber)), roster);
    var heatmap := AssembleRows(groups);
    if latestRow.None? {
      return Err(NoneSubscripted);
    }
    r := Ok((heatmap, latestRow.value));
  }

  /**
   * The older builder gives one row per participant, everyone with rows and every roster
   * name, with no name twice, each with seven cells built from exactly that participant's
   * rows in week-number order.
   */
  lemma DbHeatMapRows(input: seq<Checkin>, roster: seq<string>, year: int, weekNum: int,
                      weekNumber: int -> int, latestRow: Option<int>)
    ensures DbHeatMap(input, roster, year, weekNum, weekNumber, latestRow).Ok? <==>
      GetStartEndDates(year, weekNum).Ok? && latestRow.Some?
    ensures DbHeatMap(input, roster, year, weekNum, weekNumber, latestRow).Ok? ==>
      var byWeek := SortBy(input, WeekOrder(weekNumber));
      var rows := DbHeatMap(input, roster, year, weekNum, weekNumber, latestRow).value.0;
      && |rows| == |Participants(byWeek, roster)|
      && RowNames(rows) == Names(input) + Members(roster)
      && (forall j, m :: 0 <= j < m < |rows| ==> rows[j].name != rows[m].name)
      && (forall j :: 0 <= j < |rows| ==> rows[j].data == DbCells(SortByWeekday(KeyFilter(byWeek, NameOf, rows[j].name))))
  {
    if DbHeatMap(input, roster, year, weekNum, weekNumber, latestRow).Ok? {
      var byWeek := SortBy(input, WeekOrder(weekNumber));
      var groups := Participants(byWeek, roster);
      ParticipantsSpec(byWeek, roster);
      SameNames(byWeek, input);
      RowsOfGroups(groups, byWeek);
      var rows := DbRows(groups);
      assert DbHeatMap(input, roster, year, weekNum, weekNumber, latestRow).value.0 == rows;
      assert RowNames(rows) == NameSet(groups);
      assert NameSet(groups) == Names(byWeek) + Members(roster);
      assert Names(byWeek) == Names(input);
    }
  }

  function RowNames(rows: seq<ChallengerRow>): set<string>
  {
    set j | 0 <= j < |rows| :: rows[j].name
  }

  lemma RowsOfGroups(groups: seq<Group>, input: seq<Checkin>)
    requires DistinctNames(groups)
    requires forall g :: g in groups ==> g.rows == KeyFilter(input, NameOf, g.name)
    ensures var rows := DbRows(groups);
      && RowNames(rows) == NameSet(groups)
      && (forall j, m :: 0 <= j < m < |rows| ==> rows[j].name != rows[m].name)
      && (forall j :: 0 <= j < |rows| ==> rows[j].data == DbCells(SortByWeekday(KeyFilter(input, NameOf, rows[j].name))))
  {
    var rows := DbRows(groups);
    forall j | 0 <= j < |rows|
      ensures rows[j].data == DbCells(SortByWeekday(KeyFilter(input, NameOf, rows[j].name)))
    {
      assert groups[j] in groups;
    }
    forall n | n in NameSet(groups)
      ensures n in RowNames(rows)
    {
      var g :| g in groups && g.name == n;
      var j :| 0 <= j < |groups| && groups[j] == g;
      assert rows[j].name == n;
    }
  }

  /**
   * Cell `i` of the older builder carries the weekday's name; it is checked in exactly when
   * `y` is not 0, which is exactly when some row has that weekday, and then its time is
   * that of the first such row in the order the rows came in.
   */
  lemma DbCellOfDay(rows: seq<Checkin>, i: int)
    requires 0 <= i < 7
    ensures var c := DbCells(SortByWeekday(rows))[i];
      var f := KeyFilter(rows, DayOf, Week[i]);
      && c.x == Week[i].Name()
      && (c.checkedIn <==> c.y != 0)
      && (c.y == 0 <==> f == [])
      && (f == [] ==> c.time == None)
      && (f != [] ==> c.time == Some(f[0].time))
  {
    DbCellAgrees(SortByWeekday(rows), i);
    Chart.CellOfDay(rows, i);
  }

  // ---------------------------------------------------------------------------
  // `fiveCheckinsThisWeek`

  /** Whether the Sunday, Saturday or Friday cell (read in that order) has `y` of 5 or more. */
  function FiveCheckinsThisWeek(data: seq<DataUnit>): (r: Result<bool>)
    ensures r.Err? <==> |data| < 7
    ensures r.Err? ==> r.error == IndexOutOfRange
    ensures r.Ok? ==> (r.value <==> exists d :: 4 <= d < 7 && data[d].y >= 5)
  {
    if |data| < 7 then Err(IndexOutOfRange)
    else Ok(data[6].y >= 5 || data[5].y >= 5 || data[4].y >= 5)
  }

  /** The rows on weekdays before day `i`, in their order. */
  function Earlier(s: seq<Checkin>, i: int): seq<Checkin>
  {
    if s == [] then [] else (if s[0].day.Index() < i then [s[0]] else []) + Earlier(s[1..], i)
  }

  /** The participant checked in on day `i` and had at least four rows on earlier days. */
  predicate FifthDayOn(rows: seq<Checkin>, i: int)
    requires 0 <= i < 7
  {
    KeyFilter(rows, DayOf, Week[i]) != [] && |Earlier(rows, i)| >= 4
  }

  lemma {:induction false} EarlierConcat(a: seq<Checkin>, b: seq<Checkin>, i: int)
    ensures Earlier(a + b, i) == Earlier(a, i) + Earlier(b, i)
  {
    if a == [] {
      assert a + b == b;
    } else {
      var ab := a + b;
      var head := if a[0].day.Index() < i then [a[0]] else [];
      var tail := Earlier(a[1..], i);
      assert ab[0] == a[0] && ab[1..] == a[1..] + b;
      assert Earlier(ab, i) == head + Earlier(a[1..] + b, i);
      EarlierConcat(a[1..], b, i);
      assert head + (tail + Earlier(b, i)) == (head + tail) + Earlier(b, i);
    }
  }

  /** Reordering the rows does not change how many fall before a weekday. */
  lemma {:induction false} EarlierCountPermutation(a: seq<Checkin>, b: seq<Checkin>, i: int)
    requires multiset(a) == multiset(b)
    ensures |Earlier(a, i)| == |Earlier(b, i)|
    decreases |a|
  {
    if a != [] {
      assert a[0] in multiset(b);
      var p :| 0 <= p < |b| && b[p] == a[0];
      var rest := b[..p] + b[p + 1..];
      assert b == b[..p] + [b[p]] + b[p + 1..];
      assert a == [a[0]] + a[1..];
      assert multiset(a[1..]) == multiset(rest) by {
        assert multiset(b) == multiset(b[..p]) + multiset{b[p]} + multiset(b[p + 1..]);
        assert multiset(a) == multiset{a[0]} + multiset(a[1..]);
        assert multiset(rest) == multiset(b[..p]) + multiset(b[p + 1..]);
        assert multiset(a[1..]) == multiset(a) - multiset{a[0]};
        assert multiset(rest) == multiset(b) - multiset{a[0]};
      }
      EarlierCountPermutation(a[1..], rest, i);
      EarlierRemove(b, p, i);
    }
  }

  /** Taking one row out lowers the count by one exactly when that row is before the weekday. */
  lemma {:induction false} EarlierRemove(b: seq<Checkin>, p: int, i: int)
    requires 0 <= p < |b|
    ensures |Earlier(b, i)| == |Earlier(b[..p] + b[p + 1..], i)| + (if b[p].day.Index() < i then 1 else 0)
  {
    if p == 0 {
      assert b[..p] + b[p + 1..] == b[1..];
    } else {
      var tail := b[1..];
      EarlierRemove(tail, p - 1, i);
      assert b[..p] + b[p + 1..] == [b[0]] + (tail[..p - 1] + tail[p..]);
    }
  }

  lemma {:induction false} EarlierAll(s: seq<Checkin>, i: int)
    requires forall j :: 0 <= j < |s| ==> s[j].day.Index() < i
    ensures Earlier(s, i) == s
  {
    if s != [] {
      EarlierAll(s[1..], i);
    }
  }

  lemma {:induction false} EarlierNone(s: seq<Checkin>, i: int)
    requires forall j :: 0 <= j < |s| ==> s[j].day.Index() >= i
    ensures Earlier(s, i) == []
  {
    if s != [] {
      EarlierNone(s[1..], i);
    }
  }

  /** In weekday-sorted rows, the first row of a weekday stands right after all rows of earlier weekdays. */
  lemma EarlierOfSorted(s: seq<Checkin>, i: int)
    requires 0 <= i < 7 && SortedBy(s, DayLe) && MatchIndex(s, Week[i]) >= 0
    ensures |Earlier(s, i)| == MatchIndex(s, Week[i])
  {
    var k := MatchIndex(s, Week[i]);
    assert s[k].day.Index() == i by {
      WeekIndex();
    }
    forall j | 0 <= j < k
      ensures s[j].day.Index() < i
    {
      assert DayLe(s[j], s[k]);
      WeekIndex();
    }
    forall j | k <= j < |s|
      ensures s[j].day.Index() >= i
    {
      if j > k {
        assert DayLe(s[k], s[j]);
      }
    }
    EarlierSplit(s, k, i);
  }

  /** When the rows before position `k` are exactly those before the weekday, `k` of them count. */
  lemma EarlierSplit(s: seq<Checkin>, k: int, i: int)
    requires 0 <= k <= |s|
    requires forall j :: 0 <= j < k ==> s[j].day.Index() < i
    requires forall j :: k <= j < |s| ==> s[j].day.Index() >= i
    ensures |Earlier(s, i)| == k
  {
    EarlierAll(s[..k], i);
    EarlierNone(s[k..], i);
    EarlierConcat(s[..k], s[k..], i);
    assert s == s[..k] + s[k..];
  }

  /** `y` of day `i` is at least 5 exactly when the participant checked in that day after four or more rows on earlier days. */
  lemma FifthDayCell(rows: seq<Checkin>, i: int)
    requires 0 <= i < 7
    ensures DbCells(SortByWeekday(rows))[i].y >= 5 <==> FifthDayOn(rows, i)
  {
    var s := SortByWeekday(rows);
    SortByWeekdaySpec(rows);
    DbCellOfDay(rows, i);
    FirstRowOfDay(rows, Week[i]);
    EarlierCountPermutation(s, rows, i);
    if MatchIndex(s, Week[i]) >= 0 {
      EarlierOfSorted(s, i);
    }
  }

  /**
   * On a participant's assembled cells `fiveCheckinsThisWeek` succeeds, and holds exactly
   * when on Friday, Saturday or Sunday they checked in after four or more rows on earlier days.
   */
  lemma FiveCheckinsMeaning(rows: seq<Checkin>)
    ensures FiveCheckinsThisWeek(DbCells(SortByWeekday(rows))).Ok?
    ensures FiveCheckinsThisWeek(DbCells(SortByWeekday(rows))).value <==>
      FifthDayOn(rows, 4) || FifthDayOn(rows, 5) || FifthDayOn(rows, 6)
  {
    FifthDayCell(rows, 4);
    FifthDayCell(rows, 5);
    FifthDayCell(rows, 6);
  }
}
