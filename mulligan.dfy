/**
 * The day selection of `insert_mulligan_for`: from a participant's check-in rows of one
 * challenge week, pick the first weekday without a check-in and build the "T1" check-in
 * that fills it, dated at noon of that day by `find_date`.
 */
module Mulligan {
  import opened Wrappers
  import opened Weekdays

  // ---------------------------------------------------------------------------
  // `find_date`

  /** The `days` table of `find_date`: the weekday numbers of `%w`, Sunday first. */
  function DayNumber(day: string): Option<int>
  {
    if day == "Sunday" then Some(0)
    else if day == "Monday" then Some(1)
    else if day == "Tuesday" then Some(2)
    else if day == "Wednesday" then Some(3)
    else if day == "Thursday" then Some(4)
    else if day == "Friday" then Some(5)
    else if day == "Saturday" then Some(6)
    else None
  }

  /**
   * The table gives the seven day names the distinct numbers 0 to 6, Sunday 0 and every
   * other day one more than its place in the Monday-first week; any other text is missing.
   */
  lemma DayTable(day: string)
    ensures forall d: Weekday :: DayNumber(d.Name()) == Some((d.Index() + 1) % 7)
    ensures DayNumber(day).None? <==> forall d: Weekday :: d.Name() != day
  {
    if DayNumber(day).Some? {
      var d := if day == "Sunday" then Sunday else if day == "Monday" then Monday
        else if day == "Tuesday" then Tuesday else if day == "Wednesday" then Wednesday
        else if day == "Thursday" then Thursday else if day == "Friday" then Friday else Saturday;
      assert d.Name() == day;
    }
  }

  lemma DayNumbersDistinct(a: Weekday, b: Weekday)
    ensures DayNumber(a.Name()) == DayNumber(b.Name()) ==> a == b
  {
    DayTable("");
  }

  datatype Date = Date(year: int, month: int, day: int)

  datatype DateTime = DateTime(year: int, month: int, day: int, hour: int)

  /**
   * `find_date(week, day)`. The current year comes from the clock and is a parameter, and
   * `strptime("<year> <week> <number>", "%Y %W %w").date()` is the calendar function
   * `strptime`, `None` where it raises. An unknown day name fails the table lookup.
   */
  function FindDate(year: int, week: int, day: string, strptime: (int, int, int) -> Option<Date>): (r: Result<DateTime>)
    ensures DayNumber(day).None? ==> r == Err(KeyMissing(day))
    ensures DayNumber(day).Some? && strptime(year, week, DayNumber(day).value).None? ==> r == Err(DateOutOfRange)
    ensures r.Ok? <==> DayNumber(day).Some? && strptime(year, week, DayNumber(day).value).Some?
    ensures r.Ok? ==> r.value.hour == 12
    ensures r.Ok? ==> strptime(year, week, DayNumber(day).value) == Some(Date(r.value.year, r.value.month, r.value.day))
  {
    match DayNumber(day)
    case None => Err(KeyMissing(day))
    case Some(n) =>
      match strptime(year, week, n)
      case None => Err(DateOutOfRange)
      case Some(d) => Ok(DateTime(d.year, d.month, d.day, 12))
  }

  // ---------------------------------------------------------------------------
  // `insert_mulligan_for`

  /** One fetched row: the weekday label, the participant's id and time zone, and the challenge week's number, id and challenge. */
  datatype MulliganRow = MulliganRow(dayOfWeek: string, challenger: int, tz: string,
                                     weekOfYear: int, weekId: int, challengeId: int, time: int)

  datatype Challenger = Challenger(id: int, name: string, tz: string)

  /** The check-in `insert_checkin` writes: its text, tier, participant, challenge week, day label and time. */
  datatype MulliganCheckin = MulliganCheckin(text: string, tier: string, challenger: Challenger,
                                             challengeWeekId: int, day: string, time: DateTime)

  /** What the mulligan writes: the new check-in, and the challenge whose `mulligan` column it is recorded in. */
  datatype MulliganWrite = MulliganWrite(checkin: MulliganCheckin, challengeId: int)

  /** The module-level `days_of_week` list. */
  function DaysOfWeek(): (days: seq<string>)
    ensures |days| == 7
    ensures forall k :: 0 <= k < 7 ==> days[k] == Week[k].Name()
  {
    WeekIndex();
    ["Monday", "Tuesday", "Wednesday", "Thursday", "Friday", "Saturday", "Sunday"]
  }

  /** The entries of `days` missing from `checked`, in their order. */
  function Absent(days: seq<string>, checked: seq<string>): seq<string>
  {
    if days == [] then []
    else (if days[0] in checked then [] else [days[0]]) + Absent(days[1..], checked)
  }

  /** `checkedin_days`: the weekday label of every fetched row, in order. */
  function CheckedDays(rows: seq<MulliganRow>): (days: seq<string>)
    ensures |days| == |rows|
    ensures forall j :: 0 <= j < |rows| ==> days[j] == rows[j].dayOfWeek
  {
    seq(|rows|, j requires 0 <= j < |rows| => rows[j].dayOfWeek)
  }

  /** `days_not_checked_in`. */
  function DaysNotCheckedIn(checked: seq<string>): seq<string>
  {
    Absent(DaysOfWeek(), checked)
  }

  /** The place of `day` in `days`, or `|days|` when it is not there. */
  function Position(days: seq<string>, day: string): (k: nat)
    ensures k <= |days|
    ensures k < |days| ==> days[k] == day
    ensures forall j :: 0 <= j < k ==> days[j] != day
  {
    if days == [] || days[0] == day then 0 else Position(days[1..], day) + 1
  }

  /** No entry of `days` appears twice. */
  predicate Distinct(days: seq<string>)
  {
    forall i, j :: 0 <= i < j < |days| ==> days[i] != days[j]
  }

  /** `Absent` keeps exactly the entries of `days` that were not checked. */
  lemma {:induction false} AbsentMembers(days: seq<string>, checked: seq<string>)
    ensures forall x :: x in Absent(days, checked) <==> x in days && x !in checked
  {
    if days != [] {
      AbsentMembers(days[1..], checked);
      assert days == [days[0]] + days[1..];
    }
  }

  /** Nothing is absent once every entry is checked. */
  lemma {:induction false} AbsentNone(days: seq<string>, checked: seq<string>)
    requires forall x :: x in days ==> x in checked
    ensures Absent(days, checked) == []
  {
    if days != [] {
      AbsentNone(days[1..], checked);
    }
  }

  lemma BehindHead(days: seq<string>, x: string)
    requires Distinct(days) && days != [] && x in days[1..]
    ensures x != days[0] && Position(days, x) == Position(days[1..], x) + 1
  {
    var k :| 0 <= k < |days[1..]| && days[1..][k] == x;
    assert days[k + 1] == x;
  }

  /** `Absent` keeps the entries in their order in `days`. */
  lemma {:induction false} AbsentOrdered(days: seq<string>, checked: seq<string>)
    requires Distinct(days)
    ensures forall i, j :: 0 <= i < j < |Absent(days, checked)| ==>
      Position(days, Absent(days, checked)[i]) < Position(days, Absent(days, checked)[j])
  {
    if days != [] {
      var rest := Absent(days[1..], checked);
      var r := Absent(days, checked);
      assert Distinct(days[1..]) by {
        forall i, j | 0 <= i < j < |days[1..]|
          ensures days[1..][i] != days[1..][j]
        {
          assert days[1..][i] == days[i + 1] && days[1..][j] == days[j + 1];
        }
      }
      AbsentOrdered(days[1..], checked);
      AbsentMembers(days[1..], checked);
      forall i, j | 0 <= i < j < |r|
        ensures Position(days, r[i]) < Position(days, r[j])
      {
        if days[0] in checked {
          assert r[i] == rest[i] && r[j] == rest[j];
          BehindHead(days, rest[i]);
          BehindHead(days, rest[j]);
        } else {
          assert r == [days[0]] + rest;
          assert r[j] == rest[j - 1];
          BehindHead(days, rest[j - 1]);
          if i > 0 {
            assert r[i] == rest[i - 1];
            BehindHead(days, rest[i - 1]);
          }
        }
      }
    }
  }

  /** Every entry of `days` before the first one `Absent` keeps was checked. */
  lemma {:induction false} AbsentFirst(days: seq<string>, checked: seq<string>)
    requires Distinct(days) && Absent(days, checked) != []
    ensures forall k :: 0 <= k < Position(days, Absent(days, checked)[0]) ==> days[k] in checked
  {
    var r := Absent(days, checked);
    if days[0] in checked {
      var rest := Absent(days[1..], checked);
      assert r == rest;
      assert Distinct(days[1..]) by {
        forall i, j | 0 <= i < j < |days[1..]|
          ensures days[1..][i] != days[1..][j]
        {
          assert days[1..][i] == days[i + 1] && days[1..][j] == days[j + 1];
        }
      }
      AbsentFirst(days[1..], checked);
      AbsentMembers(days[1..], checked);
      assert rest[0] in rest;
      BehindHead(days, rest[0]);
      forall k | 0 <= k < Position(days, r[0])
        ensures days[k] in checked
      {
        if k > 0 {
          assert days[k] == days[1..][k - 1];
        }
      }
    }
  }

  /** The seven names of `days_of_week` are distinct. */
  lemma DaysDistinct()
    ensures Distinct(DaysOfWeek())
  {
  }

  /**
   * `days_not_checked_in` holds the weekdays missing from the labels checked in, and no
   * other text, in Monday-to-Sunday order.
   */
  lemma DaysNotCheckedInSpec(checked: seq<string>)
    ensures forall x :: x in DaysNotCheckedIn(checked) <==> x in DaysOfWeek() && x !in checked
    ensures forall i, j :: 0 <= i < j < |DaysNotCheckedIn(checked)| ==>
      Position(DaysOfWeek(), DaysNotCheckedIn(checked)[i]) < Position(DaysOfWeek(), DaysNotCheckedIn(checked)[j])
  {
    DaysDistinct();
    AbsentMembers(DaysOfWeek(), checked);
    AbsentOrdered(DaysOfWeek(), checked);
  }

  /**
   * The mulligan for a participant's rows of one week, or the failure: no rows to read
   * the participant and week from, every weekday already checked in, or a date the
   * calendar rejects.
   */
  function InsertMulliganFor(name: string, rows: seq<MulliganRow>, year: int,
                             strptime: (int, int, int) -> Option<Date>): (r: Result<MulliganWrite>)
    ensures rows == [] ==> r == Err(IndexOutOfRange)
    ensures r.Ok? <==> (rows != [] && DaysNotCheckedIn(CheckedDays(rows)) != [] &&
      FindDate(year, rows[0].weekOfYear, DaysNotCheckedIn(CheckedDays(rows))[0], strptime).Ok?)
    ensures r.Ok? ==> r.value.checkin.day == DaysNotCheckedIn(CheckedDays(rows))[0]
    ensures r.Ok? ==> r.value.checkin.time == FindDate(year, rows[0].weekOfYear, r.value.checkin.day, strptime).value
    ensures r.Ok? ==> r.value.checkin.tier == "T1" && r.value.checkin.time.hour == 12
    ensures r.Ok? ==> r.value.checkin.challengeWeekId == rows[0].weekId && r.value.challengeId == rows[0].challengeId
  {
    if rows == [] then Err(IndexOutOfRange)
    else
      var challenger := Challenger(rows[0].challenger, name, rows[0].tz);
      var checked := CheckedDays(rows);
      var missing := DaysNotCheckedIn(checked);
      if missing == [] then Err(IndexOutOfRange)
      else
        var day := missing[0];
        match FindDate(year, rows[0].weekOfYear, day, strptime)
        case Err(e) => Err(e)
        case Ok(time) =>
          Ok(MulliganWrite(MulliganCheckin("MULLIGAN T1 checkin", "T1", challenger, rows[0].weekId, day, time),
                           rows[0].challengeId))
  }

  /** Some row has that weekday label. */
  predicate CheckedIn(rows: seq<MulliganRow>, day: string)
  {
    exists j :: 0 <= j < |rows| && rows[j].dayOfWeek == day
  }

  /**
   * The mulligan fills the first weekday, Monday to Sunday, on which the participant has
   * no row: a day they did not check in, with every earlier day checked in. It is a "T1"
   * check-in at noon, for the participant and challenge week of the first row.
   */
  lemma MulliganDay(name: string, rows: seq<MulliganRow>, year: int, strptime: (int, int, int) -> Option<Date>)
    requires InsertMulliganFor(name, rows, year, strptime).Ok?
    ensures var m := InsertMulliganFor(name, rows, year, strptime).value;
      && m.checkin.day in DaysOfWeek()
      && !CheckedIn(rows, m.checkin.day)
      && (forall k :: 0 <= k < Position(DaysOfWeek(), m.checkin.day) ==> CheckedIn(rows, DaysOfWeek()[k]))
      && m.checkin.text == "MULLIGAN T1 checkin" && m.checkin.tier == "T1"
      && m.checkin.time == FindDate(year, rows[0].weekOfYear, m.checkin.day, strptime).value
      && m.checkin.time.hour == 12
      && m.checkin.challenger == Challenger(rows[0].challenger, name, rows[0].tz)
      && m.checkin.challengeWeekId == rows[0].weekId && m.challengeId == rows[0].challengeId
  {
    var checked := CheckedDays(rows);
    DaysDistinct();
    AbsentMembers(DaysOfWeek(), checked);
    AbsentFirst(DaysOfWeek(), checked);
    var day := DaysNotCheckedIn(checked)[0];
    assert day in DaysNotCheckedIn(checked);
    forall j | 0 <= j < |rows|
      ensures rows[j].dayOfWeek != day
    {
      assert checked[j] == rows[j].dayOfWeek;
    }
    forall k | 0 <= k < Position(DaysOfWeek(), day)
      ensures CheckedIn(rows, DaysOfWeek()[k])
    {
      var j :| 0 <= j < |checked| && checked[j] == DaysOfWeek()[k];
      assert rows[j].dayOfWeek == DaysOfWeek()[k];
    }
  }

  /** The mulligan fails without rows, and when the rows cover all seven weekdays. */
  lemma MulliganFailures(name: string, rows: seq<MulliganRow>, year: int, strptime: (int, int, int) -> Option<Date>)
    ensures rows == [] ==> InsertMulliganFor(name, rows, year, strptime) == Err(IndexOutOfRange)
    ensures (forall k :: 0 <= k < 7 ==> CheckedIn(rows, Week[k].Name())) ==>
      InsertMulliganFor(name, rows, year, strptime) == Err(IndexOutOfRange)
  {
    if rows != [] && forall k :: 0 <= k < 7 ==> CheckedIn(rows, Week[k].Name()) {
      var checked := CheckedDays(rows);
      forall x | x in DaysOfWeek()
        ensures x in checked
      {
        var k :| 0 <= k < 7 && DaysOfWeek()[k] == x;
        var j :| 0 <= j < |rows| && rows[j].dayOfWeek == Week[k].Name();
        assert checked[j] == x;
      }
      AbsentNone(DaysOfWeek(), checked);
    }
  }
}
