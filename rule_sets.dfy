/**
 * Tier scoring under the two rule sets, the best-five weekly cap, and the cumulative
 * per-participant total of a challenge (`calculate_total_score` after its query).
 *
 * Points are kept exactly, as integers counting tenths of a point: 1.2 points is 12.
 */
module RuleSets {
  import opened Wrappers
  import opened Sorting
  import opened Runs

  /** A number of tenths of a point. */
  type Points = int

  // ---------------------------------------------------------------------------
  // Reading the number of a tier label: `int(tier.lstrip("T"))`

  /** `s.lstrip("T")`. */
  function LStripT(s: string): (r: string)
    ensures |r| <= |s| && r == s[|s| - |r|..]
    ensures r == [] || r[0] != 'T'
    ensures forall i :: 0 <= i < |s| - |r| ==> s[i] == 'T'
  {
    if s != [] && s[0] == 'T' then LStripT(s[1..]) else s
  }

  predicate IsDigit(c: char) { '0' <= c <= '9' }

  predicate AllDigits(s: string) { forall i :: 0 <= i < |s| ==> IsDigit(s[i]) }

  function DigitsValue(s: string): nat
    requires AllDigits(s)
  {
    if s == [] then 0 else DigitsValue(s[..|s| - 1]) * 10 + (s[|s| - 1] as int - '0' as int)
  }

  /** `int(s)` for an optional sign followed by one or more decimal digits; anything else is rejected. */
  function ParseInt(s: string): Option<int>
  {
    var negative := |s| > 0 && s[0] == '-';
    var body := if |s| > 0 && (s[0] == '-' || s[0] == '+') then s[1..] else s;
    if body != [] && AllDigits(body) then
      var magnitude: int := DigitsValue(body);
      Some(if negative then -magnitude else magnitude)
    else None
  }

  /** The decimal numeral of `n`, without leading zeros. */
  function ShowNat(n: nat): (s: string)
    ensures s != [] && AllDigits(s)
  {
    if n < 10 then [('0' as int + n) as char]
    else ShowNat(n / 10) + [('0' as int + n % 10) as char]
  }

  lemma {:induction false} ShowNatValue(n: nat)
    ensures DigitsValue(ShowNat(n)) == n
  {
    if n >= 10 {
      var s := ShowNat(n);
      assert s[..|s| - 1] == ShowNat(n / 10);
      ShowNatValue(n / 10);
    }
  }

  /** The numeral is read back by `int()`. */
  lemma ParseShowNat(n: nat)
    ensures ParseInt(ShowNat(n)) == Some(n)
  {
    ShowNatValue(n);
  }

  /** The canonical label of tier `n`: "T0", "T1", ... */
  function Label(n: nat): string
  {
    "T" + ShowNat(n)
  }

  // ---------------------------------------------------------------------------
  // The two rule sets

  /** Rule set 1: a fixed table, with 1 point for every label the table does not name. */
  function Version1Score(tier: string): (p: Points)
    ensures 0 <= p <= 15
    ensures p == 0 <==> tier == "T0" || tier == "T1"
    ensures p == 10 <==> tier != "T0" && tier != "T1" && tier != "T3" && tier != "T4"
  {
    match tier
    case "T0" => 0
    case "T1" => 0
    case "T2" => 10
    case "T3" => 12
    case "T4" => 15
    case _ => 10
  }

  /** Rule set 2: "T0" is worth nothing, every other tier 0.9 + 0.1 * its number. */
  function Version2Score(tier: string): (r: Result<Points>)
    ensures tier == "T0" ==> r == Ok(0)
    ensures r.Err? <==> tier != "T0" && ParseInt(LStripT(tier)).None?
    ensures r.Err? ==> r.error == InvalidLiteral(LStripT(tier))
    ensures r.Ok? && tier != "T0" ==> r.value == 9 + ParseInt(LStripT(tier)).value
  {
    if tier == "T0" then Ok(0)
    else
      match ParseInt(LStripT(tier))
      case None => Err(InvalidLiteral(LStripT(tier)))
      case Some(n) => Ok(9 + n)
  }

  /** `score(tier, rule_set)`: rule set 1 only when the version is exactly 1, rule set 2 otherwise. */
  function Score(tier: string, ruleSet: int): (r: Result<Points>)
    ensures ruleSet == 1 ==> r.Ok?
    ensures tier == "T0" ==> r == Ok(0)
  {
    if ruleSet == 1 then Ok(Version1Score(tier)) else Version2Score(tier)
  }

  /** Rule set 1 is the fixed table; every other version, 0 and 3 included, is rule set 2. */
  lemma ScoreDispatch(tier: string, ruleSet: int)
    ensures ruleSet == 1 ==> Score(tier, ruleSet) == Ok(Version1Score(tier))
    ensures ruleSet != 1 ==> Score(tier, ruleSet) == Version2Score(tier)
  {
  }

  /** Rule set 2 gives the canonical label of tier `n` the score 0.9 + 0.1 * n, except 0 for "T0". */
  lemma Version2OfLabel(n: nat)
    ensures Version2Score(Label(n)) == Ok(if n == 0 then 0 else 9 + n)
  {
    var digits := ShowNat(n);
    assert Label(n)[1..] == digits;
    assert LStripT(Label(n)) == LStripT(digits);
    assert digits[0] != 'T' && digits[0] != '-' && digits[0] != '+' by {
      assert IsDigit(digits[0]);
    }
    ParseShowNat(n);
    if n == 0 {
      assert Label(0) == "T0";
    }
  }

  /** Rule set 2 is strictly increasing in the tier number. */
  lemma Version2StrictlyIncreasing(m: nat, n: nat)
    requires m < n
    ensures Version2Score(Label(m)).Ok? && Version2Score(Label(n)).Ok?
    ensures Version2Score(Label(m)).value < Version2Score(Label(n)).value
  {
    Version2OfLabel(m);
    Version2OfLabel(n);
  }

  /**
   * Without a minus sign a tier never scores below zero under rule set 2: either it is
   * worth 0 ("T0") or at least 0.9.
   */
  lemma Version2NonNegative(tier: string)
    requires forall i :: 0 <= i < |tier| ==> tier[i] != '-'
    requires Version2Score(tier).Ok?
    ensures Version2Score(tier).value == 0 || Version2Score(tier).value >= 9
  {
    var stripped := LStripT(tier);
    if tier != "T0" && stripped != [] {
      assert stripped[0] == tier[|tier| - |stripped|];
    }
  }

  /** Only the exact label "T0" scores 0 under rule set 2: "T00" is read as tier 0 and gets 0.9. */
  lemma Version2ZeroPadded()
    ensures Version2Score("T00") == Ok(9)
    ensures Version2Score("TT3") == Ok(12)
    ensures Version2Score("T").Err?
  {
    PaddedZero();
    DoubleT();
    StripExample("T", "");
  }

  lemma PaddedZero()
    ensures Version2Score("T00") == Ok(9)
  {
    StripExample("T00", "00");
    assert DigitsValue("00") == 0 by {
      assert "00"[..1] == "0";
      assert "0"[..0] == [];
    }
  }

  lemma DoubleT()
    ensures Version2Score("TT3") == Ok(12)
  {
    assert "TT3"[1..] == "T3";
    StripExample("T3", "3");
    assert DigitsValue("3") == 3 by { assert "3"[..0] == []; }
  }

  lemma StripExample(tier: string, digits: string)
    requires |tier| >= 1 && tier[0] == 'T' && tier[1..] == digits
    requires digits == [] || digits[0] != 'T'
    ensures LStripT(tier) == digits
  {
  }

  /** Tiers T0 through T4 score in order of their numbers under every rule set. */
  lemma TierOrderThroughT4(m: nat, n: nat, ruleSet: int)
    requires m <= n <= 4
    ensures Score(Label(m), ruleSet).Ok? && Score(Label(n), ruleSet).Ok?
    ensures Score(Label(m), ruleSet).value <= Score(Label(n), ruleSet).value
  {
    Version2OfLabel(m);
    Version2OfLabel(n);
    if ruleSet == 1 {
      Version1OfSmallLabel(m);
      Version1OfSmallLabel(n);
      assert Score(Label(m), ruleSet) == Ok(Version1Score(Label(m)));
      assert Score(Label(n), ruleSet) == Ok(Version1Score(Label(n)));
    } else {
      assert Score(Label(m), ruleSet) == Version2Score(Label(m));
      assert Score(Label(n), ruleSet) == Version2Score(Label(n));
    }
  }

  /** Rule set 1 on the labels T0 through T4. */
  lemma Version1OfSmallLabel(n: nat)
    requires n <= 4
    ensures Version1Score(Label(n)) == if n <= 1 then 0 else if n == 2 then 10 else if n == 3 then 12 else 15
  {
    SmallLabel(n);
    if n == 0 { assert Label(n) == "T0"; }
    else if n == 1 { assert Label(n) == "T1"; }
    else if n == 2 { assert Label(n) == "T2"; }
    else if n == 3 { assert Label(n) == "T3"; }
    else { assert Label(n) == "T4"; }
  }

  /** The label of a one-digit tier is two characters long. */
  lemma SmallLabel(n: nat)
    requires n < 10
    ensures Label(n) == ['T', ('0' as int + n) as char]
  {
  }

  /** Rule set 1 is not monotonic past T4: T5 falls back to 1 point, below T4's 1.5. */
  lemma Version1DropsAfterT4()
    ensures Score(Label(5), 1).value < Score(Label(4), 1).value
    ensures forall n: nat :: n >= 5 ==> Score(Label(n), 1) == Ok(10)
  {
    assert Label(4) == "T4" && Label(5) == "T5";
    forall n: nat | n >= 5
      ensures Score(Label(n), 1) == Ok(10)
    {
      if n < 10 {
        SmallLabel(n);
        var c := ('0' as int + n) as char;
        assert c != '0' && c != '1' && c != '3' && c != '4';
        assert Label(n)[1] == c;
      } else {
        assert |ShowNat(n)| >= 2;
        assert |Label(n)| >= 3;
      }
    }
  }

  // ---------------------------------------------------------------------------
  // The best-five weekly cap: `sum(sorted(values, reverse=True)[:5])`

  function Sum(s: seq<int>): int
  {
    if s == [] then 0 else s[0] + Sum(s[1..])
  }

  lemma {:induction false} SumConcat(a: seq<int>, b: seq<int>)
    ensures Sum(a + b) == Sum(a) + Sum(b)
  {
    if a != [] {
      assert (a + b)[0] == a[0];
      assert (a + b)[1..] == a[1..] + b;
      SumConcat(a[1..], b);
    } else {
      assert a + b == b;
    }
  }

  /** Reordering does not change a sum. */
  lemma {:induction false} SumPermutation(a: seq<int>, b: seq<int>)
    requires multiset(a) == multiset(b)
    ensures Sum(a) == Sum(b)
  {
    if a != [] {
      assert a[0] in multiset(b);
      var k :| 0 <= k < |b| && b[k] == a[0];
      RemoveMatching(a, b, k);
      SumPermutation(a[1..], b[..k] + b[k + 1..]);
      SumSplice(b, k);
    }
  }

  lemma RemoveMatching(a: seq<int>, b: seq<int>, k: nat)
    requires multiset(a) == multiset(b) && a != [] && k < |b| && b[k] == a[0]
    ensures multiset(a[1..]) == multiset(b[..k] + b[k + 1..])
  {
    var front, back := b[..k], b[k + 1..];
    assert b == front + [a[0]] + back;
    assert a == [a[0]] + a[1..];
    assert multiset(a[1..]) == multiset(a) - multiset{a[0]};
    assert multiset(b) == multiset(front) + multiset{a[0]} + multiset(back);
  }

  /** Taking one element out of a sequence takes its value out of the sum. */
  lemma SumSplice(b: seq<int>, k: nat)
    requires k < |b|
    ensures Sum(b) == b[k] + Sum(b[..k] + b[k + 1..])
  {
    var front, back := b[..k], b[k + 1..];
    var tail := [b[k]] + back;
    assert b == front + tail;
    SumConcat(front, tail);
    assert tail[0] == b[k] && tail[1..] == back;
    SumConcat(front, back);
  }

  lemma {:induction false} SumBound(s: seq<int>, m: int)
    requires forall i :: 0 <= i < |s| ==> s[i] <= m
    ensures Sum(s) <= |s| * m
  {
    if s != [] {
      SumBound(s[1..], m);
    }
  }

  lemma {:induction false} SumNonNegative(s: seq<int>)
    requires forall i :: 0 <= i < |s| ==> s[i] >= 0
    ensures Sum(s) >= 0
  {
    if s != [] {
      SumNonNegative(s[1..]);
    }
  }

  /** The order of `sorted(..., reverse=True)` on numbers. */
  function AtLeast(a: Points, b: Points): bool { a >= b }

  lemma AtLeastIsTotalPreorder()
    ensures TotalPreorder(AtLeast)
  {
  }

  function Descending(values: seq<Points>): seq<Points>
  {
    SortBy(values, AtLeast)
  }

  /** `sorted(values, reverse=True)[:5]`: the values that count. */
  function TopFive(values: seq<Points>): seq<Points>
  {
    Descending(values)[..Min(5, |values|)]
  }

  /** `sorted(values, reverse=True)[5:]`: the values the cap drops. */
  function Dropped(values: seq<Points>): seq<Points>
  {
    Descending(values)[Min(5, |values|)..]
  }

  function TopFiveSum(values: seq<Points>): (r: Points)
    ensures |values| <= 5 ==> r == Sum(values)
    ensures (forall i :: 0 <= i < |values| ==> values[i] >= 0) ==> 0 <= r <= Sum(values)
  {
    CappedSum(values);
    Sum(TopFive(values))
  }

  /**
   * The cap keeps at most five values and drops the rest, and no dropped value is larger
   * than a kept one.
   */
  lemma TopFiveKeepsLargest(values: seq<Points>)
    ensures |TopFive(values)| == Min(5, |values|)
    ensures multiset(TopFive(values)) + multiset(Dropped(values)) == multiset(values)
    ensures forall i, j :: 0 <= i < |TopFive(values)| && 0 <= j < |Dropped(values)| ==>
      Dropped(values)[j] <= TopFive(values)[i]
  {
    var d := Descending(values);
    var k := Min(5, |values|);
    assert d == d[..k] + d[k..];
    AtLeastIsTotalPreorder();
    SortBySorted(values, AtLeast);
    forall i, j | 0 <= i < |TopFive(values)| && 0 <= j < |Dropped(values)|
      ensures Dropped(values)[j] <= TopFive(values)[i]
    {
      assert AtLeast(d[i], d[k + j]);
    }
  }

  /** A week counts for at most five times its best value. */
  lemma TopFiveSumBound(values: seq<Points>, best: Points)
    requires forall i :: 0 <= i < |values| ==> values[i] <= best
    ensures TopFiveSum(values) <= Min(5, |values|) * best
  {
    TopFiveKeepsLargest(values);
    var top := TopFive(values);
    forall i | 0 <= i < |top|
      ensures top[i] <= best
    {
      assert top[i] in multiset(values);
    }
    SumBound(top, best);
  }

  /** The capped sum of at most five values is their full sum; with no negative values it lies between 0 and the full sum. */
  lemma CappedSum(values: seq<Points>)
    ensures |values| <= 5 ==> Sum(TopFive(values)) == Sum(values)
    ensures (forall i :: 0 <= i < |values| ==> values[i] >= 0) ==> 0 <= Sum(TopFive(values)) <= Sum(values)
  {
    var d := Descending(values);
    var k := Min(5, |values|);
    SumPermutation(d, values);
    if |values| <= 5 {
      assert TopFive(values) == d;
    }
    if forall i :: 0 <= i < |values| ==> values[i] >= 0 {
      DescendingNonNegative(values);
      SumPrefixBetween(d, k);
    }
  }

  lemma SumPrefixBetween(d: seq<int>, k: nat)
    requires k <= |d|
    requires forall i :: 0 <= i < |d| ==> d[i] >= 0
    ensures 0 <= Sum(d[..k]) <= Sum(d)
  {
    assert d == d[..k] + d[k..];
    SumConcat(d[..k], d[k..]);
    SumNonNegative(d[..k]);
    SumNonNegative(d[k..]);
  }

  lemma DescendingNonNegative(values: seq<Points>)
    requires forall i :: 0 <= i < |values| ==> values[i] >= 0
    ensures forall i :: 0 <= i < |Descending(values)| ==> Descending(values)[i] >= 0
  {
    var d := Descending(values);
    forall i | 0 <= i < |d|
      ensures d[i] >= 0
    {
      assert d[i] in multiset(values);
    }
  }

  // ---------------------------------------------------------------------------
  // The cumulative total of a challenge

  /**
   * One row of the per-day query: a participant's highest tier of one calendar day,
   * the challenge week it belongs to and the challenge's rule set.
   */
  datatype DayMax = DayMax(name: string, tier: string, week: int, ruleSet: int)

  /** One entry of `nums`. */
  datatype Scored = Scored(name: string, value: Points, week: int, tier: string)

  function WeekOf(x: Scored): int { x.week }

  /** The `nums` comprehension: every row scored under one version, failing at the first bad tier. */
  function ScoreAll(rows: seq<DayMax>, version: int): (r: Result<seq<Scored>>)
    ensures r.Ok? <==> forall i :: 0 <= i < |rows| ==> Score(rows[i].tier, version).Ok?
    ensures r.Ok? ==> |r.value| == |rows|
    ensures r.Ok? ==> forall i :: 0 <= i < |rows| ==>
      r.value[i] == Scored(rows[i].name, Score(rows[i].tier, version).value, rows[i].week, rows[i].tier)
  {
    if rows == [] then Ok([])
    else
      match Score(rows[0].tier, version)
      case Err(e) => Err(e)
      case Ok(v) =>
        match ScoreAll(rows[1..], version)
        case Err(e) => Err(e)
        case Ok(rest) => Ok([Scored(rows[0].name, v, rows[0].week, rows[0].tier)] + rest)
  }

  /** A participant's values in one week, in row order. */
  function WeekValues(week: seq<Scored>, name: string): seq<Points>
  {
    if week == [] then []
    else (if week[0].name == name then [week[0].value] else []) + WeekValues(week[1..], name)
  }

  /** `round(sum(sorted(...)[:5]), 4)`; with exact tenths the rounding changes nothing. */
  function WeekContribution(week: seq<Scored>, name: string): Points
  {
    TopFiveSum(WeekValues(week, name))
  }

  /** The sum over all weeks of a participant's capped weekly totals. */
  function Cumulative(weeks: seq<seq<Scored>>, name: string): Points
  {
    if weeks == [] then 0 else WeekContribution(weeks[0], name) + Cumulative(weeks[1..], name)
  }

  /** The participants named by the rows. */
  function RowNames(rows: seq<DayMax>): set<string>
  {
    set i | 0 <= i < |rows| :: rows[i].name
  }

  function ScoredNames(nums: seq<Scored>): set<string>
  {
    set i | 0 <= i < |nums| :: nums[i].name
  }

  /**
   * `calculate_total_score` applied to the rows of its query. The version is read from the
   * first row, so no rows at all is an IndexError; a tier that rule set 2 cannot read is a
   * ValueError. A participant is a key exactly when some row names them.
   */
  function TotalScore(rows: seq<DayMax>): (r: Result<map<string, Points>>)
    ensures rows == [] ==> r == Err(IndexOutOfRange)
    ensures r.Ok? <==> rows != [] && forall i :: 0 <= i < |rows| ==> Score(rows[i].tier, rows[0].ruleSet).Ok?
    ensures r.Ok? ==> r.value.Keys == RowNames(rows)
  {
    if rows == [] then Err(IndexOutOfRange)
    else
      var version := rows[0].ruleSet;
      match ScoreAll(rows, version)
      case Err(e) => Err(e)
      case Ok(nums) =>
        var names := ScoredNames(nums);
        assert names == RowNames(rows) by {
          forall i | 0 <= i < |rows| ensures nums[i].name == rows[i].name { }
        }
        var weeks := GroupRuns(nums, WeekOf);
        Ok(map n | n in names :: Cumulative(weeks, n))
  }

  // ---------------------------------------------------------------------------
  // Properties of the fold

  /** The query orders its rows by week id. */
  predicate WeekOrdered(nums: seq<Scored>)
  {
    forall i, j :: 0 <= i < j < |nums| ==> nums[i].week <= nums[j].week
  }

  /** With rows ordered by week id, each group of `groupby` holds exactly the rows of one week, and no week is split. */
  lemma WeeksOfOrderedRows(nums: seq<Scored>)
    requires WeekOrdered(nums)
    ensures RunsAreFilters(nums, WeekOf, GroupRuns(nums, WeekOf))
    ensures DistinctRunKeys(WeekOf, GroupRuns(nums, WeekOf))
  {
    forall i, j, m | 0 <= i < j < m < |nums| && WeekOf(nums[i]) == WeekOf(nums[m])
      ensures WeekOf(nums[j]) == WeekOf(nums[i])
    {
      assert nums[i].week <= nums[j].week <= nums[m].week;
    }
    RunsOfClustered(nums, WeekOf);
  }

  lemma {:induction false} WeekValuesConcat(a: seq<Scored>, b: seq<Scored>, name: string)
    ensures WeekValues(a + b, name) == WeekValues(a, name) + WeekValues(b, name)
  {
    if a == [] {
      assert a + b == b;
    } else {
      var head := if a[0].name == name then [a[0].value] else [];
      assert (a + b)[0] == a[0];
      assert (a + b)[1..] == a[1..] + b;
      assert WeekValues(a + b, name) == head + WeekValues(a[1..] + b, name);
      assert WeekValues(a, name) == head + WeekValues(a[1..], name);
      WeekValuesConcat(a[1..], b, name);
    }
  }

  /** Every value of a participant in a week comes from one of that participant's rows. */
  lemma {:induction false} WeekValuesFromRows(week: seq<Scored>, name: string)
    ensures |WeekValues(week, name)| <= |week|
    ensures forall v :: v in WeekValues(week, name) ==> exists i :: 0 <= i < |week| && week[i].name == name && week[i].value == v
  {
    if week != [] {
      WeekValuesFromRows(week[1..], name);
      forall v | v in WeekValues(week, name)
        ensures exists i :: 0 <= i < |week| && week[i].name == name && week[i].value == v
      {
        if week[0].name == name && v == week[0].value {
        } else {
          assert v in WeekValues(week[1..], name);
          var i :| 0 <= i < |week[1..]| && week[1..][i].name == name && week[1..][i].value == v;
          assert week[i + 1] == week[1..][i];
        }
      }
    }
  }

  /** An upper bound on a participant's rows bounds their values of the week. */
  lemma {:induction false} WeekValuesAtMost(week: seq<Scored>, name: string, hi: int)
    requires forall i :: 0 <= i < |week| && week[i].name == name ==> week[i].value <= hi
    ensures forall k :: 0 <= k < |WeekValues(week, name)| ==> WeekValues(week, name)[k] <= hi
  {
    if week != [] {
      WeekValuesAtMost(week[1..], name, hi);
      var head := if week[0].name == name then [week[0].value] else [];
      var rest := WeekValues(week[1..], name);
      assert WeekValues(week, name) == head + rest;
      forall k | 0 <= k < |head + rest|
        ensures (head + rest)[k] <= hi
      {
        if k >= |head| {
          assert (head + rest)[k] == rest[k - |head|];
        }
      }
    }
  }

  /** A lower bound on a participant's rows bounds their values of the week. */
  lemma {:induction false} WeekValuesAtLeast(week: seq<Scored>, name: string, lo: int)
    requires forall i :: 0 <= i < |week| && week[i].name == name ==> lo <= week[i].value
    ensures forall k :: 0 <= k < |WeekValues(week, name)| ==> lo <= WeekValues(week, name)[k]
  {
    if week != [] {
      WeekValuesAtLeast(week[1..], name, lo);
      var head := if week[0].name == name then [week[0].value] else [];
      var rest := WeekValues(week[1..], name);
      assert WeekValues(week, name) == head + rest;
      forall k | 0 <= k < |head + rest|
        ensures lo <= (head + rest)[k]
      {
        if k >= |head| {
          assert (head + rest)[k] == rest[k - |head|];
        }
      }
    }
  }

  lemma {:induction false} WeekValuesAbsent(week: seq<Scored>, name: string)
    requires forall i :: 0 <= i < |week| ==> week[i].name != name
    ensures WeekValues(week, name) == []
  {
    if week != [] {
      WeekValuesAbsent(week[1..], name);
    }
  }

  /** A week in which the participant has no row adds nothing to their total. */
  lemma AbsentWeekContributesNothing(week: seq<Scored>, name: string)
    requires forall i :: 0 <= i < |week| ==> week[i].name != name
    ensures WeekContribution(week, name) == 0
  {
    WeekValuesAbsent(week, name);
  }

  /** A participant's week never counts for more than five times their best value of that week. */
  lemma WeekContributionBound(week: seq<Scored>, name: string, best: Points)
    requires best >= 0
    requires forall i :: 0 <= i < |week| && week[i].name == name ==> week[i].value <= best
    ensures WeekContribution(week, name) <= 5 * best
  {
    var values := WeekValues(week, name);
    WeekValuesAtMost(week, name, best);
    TopFiveSumBound(values, best);
    var n := Min(5, |values|);
    assert n * best <= 5 * best by {
      assert n == 0 || n == 1 || n == 2 || n == 3 || n == 4 || n == 5;
    }
  }

  /** When no week holds more than five values of a participant, their total is the plain sum of their values. */
  lemma {:induction false} CumulativeWithoutCap(weeks: seq<seq<Scored>>, name: string)
    requires forall j :: 0 <= j < |weeks| ==> |WeekValues(weeks[j], name)| <= 5
    ensures Cumulative(weeks, name) == Sum(WeekValues(Flatten(weeks), name))
  {
    if weeks != [] {
      CumulativeWithoutCap(weeks[1..], name);
      WeekValuesConcat(weeks[0], Flatten(weeks[1..]), name);
      SumConcat(WeekValues(weeks[0], name), WeekValues(Flatten(weeks[1..]), name));
    }
  }

  /** With no negative values, the capped total never exceeds the plain sum of a participant's values. */
  lemma {:induction false} CumulativeAtMostUncapped(weeks: seq<seq<Scored>>, name: string)
    requires forall j, i :: 0 <= j < |weeks| && 0 <= i < |weeks[j]| ==> weeks[j][i].value >= 0
    ensures 0 <= Cumulative(weeks, name) <= Sum(WeekValues(Flatten(weeks), name))
  {
    if weeks != [] {
      CumulativeAtMostUncapped(weeks[1..], name);
      var values := WeekValues(weeks[0], name);
      WeekValuesAtLeast(weeks[0], name, 0);
      WeekValuesConcat(weeks[0], Flatten(weeks[1..]), name);
      SumConcat(values, WeekValues(Flatten(weeks[1..]), name));
    }
  }

  /** With every value between 0 and 1.5, a participant's capped total is between 0 and 1.5 per row. */
  lemma CumulativeOfSmallValues(nums: seq<Scored>, name: string)
    requires forall i :: 0 <= i < |nums| ==> 0 <= nums[i].value <= 15
    ensures 0 <= Cumulative(GroupRuns(nums, WeekOf), name) <= 15 * |nums|
  {
    var weeks: seq<seq<Scored>> := GroupRuns(nums, WeekOf);
    forall j, i | 0 <= j < |weeks| && 0 <= i < |weeks[j]|
      ensures weeks[j][i].value >= 0
    {
      FlattenMember(weeks, j, i);
    }
    CumulativeAtMostUncapped(weeks, name);
    var values := WeekValues(nums, name);
    WeekValuesFromRows(nums, name);
    WeekValuesAtMost(nums, name, 15);
    SumBound(values, 15);
  }

  /**
   * Under rule set 1 every total lies between 0 and 1.5 points per row: a score is at most
   * 1.5 and the cap only ever removes values.
   */
  lemma TotalScoreVersion1Bound(rows: seq<DayMax>)
    requires TotalScore(rows).Ok? && rows[0].ruleSet == 1
    ensures forall n :: n in TotalScore(rows).value ==> 0 <= TotalScore(rows).value[n] <= 15 * |rows|
  {
    var nums := ScoreAll(rows, 1).value;
    forall i | 0 <= i < |nums|
      ensures 0 <= nums[i].value <= 15
    {
      assert nums[i].value == Version1Score(rows[i].tier);
    }
    forall n | n in TotalScore(rows).value
      ensures 0 <= TotalScore(rows).value[n] <= 15 * |rows|
    {
      assert TotalScore(rows).value[n] == Cumulative(GroupRuns(nums, WeekOf), n);
      CumulativeOfSmallValues(nums, n);
    }
  }

  /** Rows that all belong to one week form a single group. */
  lemma SingleWeek(nums: seq<Scored>)
    requires nums != [] && forall i :: 0 <= i < |nums| ==> nums[i].week == nums[0].week
    ensures GroupRuns(nums, WeekOf) == [nums]
  {
    var weeks: seq<seq<Scored>> := GroupRuns(nums, WeekOf);
    assert |weeks| == 1 by {
      if |weeks| >= 2 {
        FlattenMember(weeks, 1, 0);
      }
    }
    FlattenSingle(weeks);
    assert weeks == [weeks[0]];
  }

  /** Three copies of one row score to three copies of one entry. */
  lemma ScoreAllOfCopies(row: DayMax, version: int)
    requires Score(row.tier, version).Ok?
    ensures var x := Scored(row.name, Score(row.tier, version).value, row.week, row.tier);
      ScoreAll([row, row, row], version) == Ok([x, x, x])
  {
    var x := Scored(row.name, Score(row.tier, version).value, row.week, row.tier);
    var rows := [row, row, row];
    var r := ScoreAll(rows, version);
    assert rows[0] == row && rows[1] == row && rows[2] == row;
    assert r.Ok?;
    assert r.value[0] == x && r.value[1] == x && r.value[2] == x;
    assert r.value == [x, x, x];
  }

  lemma ThreeEqualValues(x: Scored)
    ensures WeekContribution([x, x, x], x.name) == 3 * x.value
  {
    var nums := [x, x, x];
    assert nums[1..] == [x, x] && nums[1..][1..] == [x];
    assert WeekValues([x], x.name) == [x.value];
    var v := x.value;
    assert WeekValues(nums, x.name) == [v, v, v];
    assert [v, v, v][1..] == [v, v] && [v, v][1..] == [v] && [v][1..] == [];
    assert Sum([v]) == v;
    assert Sum([v, v]) == 2 * v;
    assert Sum([v, v, v]) == 3 * v;
  }

  /** A participant with the same highest tier on three days of one week scores that tier three times. */
  lemma TotalOfThreeDays(row: DayMax)
    requires Score(row.tier, row.ruleSet).Ok?
    ensures TotalScore([row, row, row]) == Ok(map[row.name := 3 * Score(row.tier, row.ruleSet).value])
  {
    var rows := [row, row, row];
    var x := Scored(row.name, Score(row.tier, row.ruleSet).value, row.week, row.tier);
    var nums := [x, x, x];
    ScoreAllOfCopies(row, row.ruleSet);
    SingleWeek(nums);
    ThreeEqualValues(x);
    var names := ScoredNames(nums);
    assert names == {row.name} by {
      assert nums[0].name == row.name;
    }
    assert Cumulative([nums], row.name) == 3 * x.value;
    var totals := map n | n in names :: Cumulative(GroupRuns(nums, WeekOf), n);
    assert totals == map[row.name := 3 * x.value];
    assert TotalScore(rows) == Ok(totals);
  }
}
