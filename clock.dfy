/**
 * Times of day. A check-in time is a whole number of minutes on the local clock;
 * `strftime("%H:%M")` shows its minute of the day as a zero-padded "HH:MM" string.
 */
module Clock {
  import opened Text

  const MinutesPerDay := 1440

  /** The minute of the day, 0 to 1439. */
  function MinuteOfDay(t: int): (m: int)
    ensures 0 <= m < MinutesPerDay
  {
    t % MinutesPerDay
  }

  function Digit(k: int): char
    requires 0 <= k < 10
  {
    ('0' as int + k) as char
  }

  /** `time.strftime("%H:%M")`. */
  function HourMinute(t: int): (s: string)
    ensures |s| == 5 && s[2] == ':'
  {
    var m := MinuteOfDay(t);
    var h := m / 60;
    var mm := m % 60;
    [Digit(h / 10), Digit(h % 10), ':', Digit(mm / 10), Digit(mm % 10)]
  }

  /** The two strings the heat map starts from name the last and the first minute of the day. */
  lemma ClockBounds()
    ensures HourMinute(0) == "00:00" && HourMinute(MinutesPerDay - 1) == "23:59"
  {
  }

  lemma DigitOrder(x: int, y: int)
    requires 0 <= x < 10 && 0 <= y < 10
    ensures Digit(x) < Digit(y) <==> x < y
    ensures Digit(x) == Digit(y) <==> x == y
  {
  }

  /**
   * Comparing two "HH:MM" strings as Python compares strings is comparing their minutes
   * of the day, so the heat map may keep minutes instead of strings.
   */
  lemma HourMinuteOrder(a: int, b: int)
    ensures StrLe(HourMinute(a), HourMinute(b)) <==> MinuteOfDay(a) <= MinuteOfDay(b)
  {
    var x1, x2, x3, x4 := ClockDigits(a);
    var y1, y2, y3, y4 := ClockDigits(b);
    var s, t := HourMinute(a), HourMinute(b);
    DigitOrder(x1, y1);
    DigitOrder(x2, y2);
    DigitOrder(x3, y3);
    DigitOrder(x4, y4);
    StrLeOfFive(s, t);
    PlaceValueOrder(x1, x2, x3, x4, y1, y2, y3, y4);
  }

  /** The four digits "HH:MM" shows for `t`, and the minute of the day they make up. */
  lemma ClockDigits(t: int) returns (d1: int, d2: int, d3: int, d4: int)
    ensures 0 <= d1 < 10 && 0 <= d2 < 10 && 0 <= d3 < 6 && 0 <= d4 < 10
    ensures MinuteOfDay(t) == 600 * d1 + 60 * d2 + 10 * d3 + d4
    ensures HourMinute(t) == [Digit(d1), Digit(d2), ':', Digit(d3), Digit(d4)]
  {
    var m := MinuteOfDay(t);
    d1, d2, d3, d4 := m / 600, m / 60 % 10, m % 60 / 10, m % 10;
    assert m / 60 / 10 == d1;
    assert m % 60 % 10 == d4;
  }

  /** Numbers written with place values 600, 60, 10 and 1 compare digit by digit. */
  lemma PlaceValueOrder(x1: int, x2: int, x3: int, x4: int, y1: int, y2: int, y3: int, y4: int)
    requires 0 <= x2 < 10 && 0 <= x3 < 6 && 0 <= x4 < 10
    requires 0 <= y2 < 10 && 0 <= y3 < 6 && 0 <= y4 < 10
    ensures 600 * x1 + 60 * x2 + 10 * x3 + x4 <= 600 * y1 + 60 * y2 + 10 * y3 + y4 <==>
      x1 < y1 || (x1 == y1 && (x2 < y2 || (x2 == y2 && (x3 < y3 || (x3 == y3 && x4 <= y4)))))
  {
  }

  /** Lexicographic order on two strings of five characters with the same third character. */
  lemma StrLeOfFive(s: string, t: string)
    requires |s| == 5 && |t| == 5 && s[2] == t[2]
    ensures StrLe(s, t) <==>
      s[0] < t[0] || (s[0] == t[0] && (s[1] < t[1] || (s[1] == t[1] && (s[3] < t[3] || (s[3] == t[3] && s[4] <= t[4])))))
  {
    var s1, t1 := s[1..], t[1..];
    var s2, t2 := s1[1..], t1[1..];
    var s3, t3 := s2[1..], t2[1..];
    var s4, t4 := s3[1..], t3[1..];
    assert StrLe(s4, t4) <==> s[4] <= t[4] by {
      assert s4 == [s[4]] && t4 == [t[4]];
      assert s4[1..] == [] && t4[1..] == [];
    }
    assert StrLe(s3, t3) <==> s[3] < t[3] || (s[3] == t[3] && StrLe(s4, t4));
    assert StrLe(s2, t2) <==> StrLe(s3, t3);
    assert StrLe(s1, t1) <==> s[1] < t[1] || (s[1] == t[1] && StrLe(s2, t2));
  }
}
