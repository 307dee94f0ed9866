/**
 * The web client's `dataFormatting.ts`: the sheet rows (lists of cell texts) grouped by
 * week and by name into a heat map per week, with the same seven-cell rows as the
 * Python chart, and the latest check-in time of the sheet.
 */
module DataFormatting {
  import opened Wrappers
  import opened Sorting
  import opened Runs

  /** One sheet row: its cell texts in header order. */
  type Row = seq<string>

  /** The fetched sheet: the header texts and the rows. */
  datatype Data = Data(headers: seq<string>, rows: seq<Row>)

  /** The module-level `weekdays` list. */
  const Weekdays: seq<string> := ["Monday", "Tuesday", "Wednesday", "Thursday", "Friday", "Saturday", "Sunday"]

  /** `row[index]`: reading outside the array, at a negative index included, gives `undefined`. */
  function At(row: Row, index: int): Option<string>
  {
    if 0 <= index < |row| then Some(row[index]) else None
  }

  /** The text JavaScript makes of a cell: `undefined` becomes "undefined". */
  function JsString(v: Option<string>): string
  {
    match v
    case None => "undefined"
    case Some(t) => t
  }

  /** `xs.indexOf(x)`: the first position holding `x`, or -1; `undefined` is never found. */
  function IndexOf(xs: seq<string>, x: Option<string>): (k: int)
    ensures -1 <= k < |xs|
    ensures k >= 0 ==> Some(xs[k]) == x
    ensures forall j :: 0 <= j < (if k < 0 then |xs| else k) ==> Some(xs[j]) != x
  {
    if xs == [] then -1
    else if Some(xs[0]) == x then 0
    else
      var k := IndexOf(xs[1..], x);
      if k < 0 then -1 else k + 1
  }

  // ---------------------------------------------------------------------------
  // `groupBy`

  /** One property of the `groupBy` accumulator: a key and the array of rows pushed under it. */
  datatype Bucket<K> = Bucket(key: K, rows: seq<Row>)

  /** The key `groupBy` files a row under: `fn(row[index])`. */
  function Keyed<K>(index: int, fn: Option<string> -> K): Row -> K
  {
    row => fn(At(row, index))
  }

  /** The place of the bucket for `k`, or `|buckets|` when there is none yet. */
  function BucketIndex<K(==)>(buckets: seq<Bucket<K>>, k: K): (j: nat)
    ensures j <= |buckets|
    ensures j < |buckets| ==> buckets[j].key == k
    ensures forall m :: 0 <= m < j ==> buckets[m].key != k
  {
    if buckets == [] || buckets[0].key == k then 0 else BucketIndex(buckets[1..], k) + 1
  }

  /** One step of the `reduce`: `(acc[val] || (acc[val] = [])).push(row)`. */
  function Push<K(==)>(buckets: seq<Bucket<K>>, k: K, row: Row): seq<Bucket<K>>
  {
    var j := BucketIndex(buckets, k);
    if j < |buckets| then buckets[j := Bucket(k, buckets[j].rows + [row])]
    else buckets + [Bucket(k, [row])]
  }

  /** The accumulator after the `reduce` has pushed every row of `data`. */
  function Buckets<K(==)>(data: seq<Row>, key: Row -> K): seq<Bucket<K>>
  {
    if data == [] then []
    else Push(Buckets(data[..|data| - 1], key), key(data[|data| - 1]), data[|data| - 1])
  }

  /** `groupBy(data, index, fn)`, the `reduce` written as the loop it runs. */
  method GroupBy<K(==)>(data: seq<Row>, index: int, fn: Option<string> -> K) returns (groups: seq<Bucket<K>>)
    ensures groups == Buckets(data, Keyed(index, fn))
  {
    groups := [];
    for i := 0 to |data|
      invariant groups == Buckets(data[..i], Keyed(index, fn))
    {
      var val := fn(At(data[i], index));
      var j := 0;
      while j < |groups| && groups[j].key != val
        invariant j <= |groups|
        invariant forall m :: 0 <= m < j ==> groups[m].key != val
      {
        j := j + 1;
      }
      assert j == BucketIndex(groups, val);
      if j < |groups| {
        groups := groups[j := Bucket(val, groups[j].rows + [data[i]])];
      } else {
        groups := groups + [Bucket(val, [data[i]])];
      }
      assert data[..i + 1][..i] == data[..i];
    }
    assert data[..|data|] == data;
  }

  /** The keys of the buckets, in order. */
  function Keys<K>(buckets: seq<Bucket<K>>): (keys: seq<K>)
    ensures |keys| == |buckets|
    ensures forall j :: 0 <= j < |buckets| ==> keys[j] == buckets[j].key
  {
    seq(|buckets|, j requires 0 <= j < |buckets| => buckets[j].key)
  }

  /** How many rows the buckets hold together. */
  function TotalSize<K>(buckets: seq<Bucket<K>>): nat
  {
    if buckets == [] then 0 else TotalSize(buckets[..|buckets| - 1]) + |buckets[|buckets| - 1].rows|
  }

  lemma {:induction false} TotalSizeUpdate<K>(buckets: seq<Bucket<K>>, j: nat, b: Bucket<K>)
    requires j < |buckets|
    ensures TotalSize(buckets[j := b]) == TotalSize(buckets) - |buckets[j].rows| + |b.rows|
  {
    var n := |buckets| - 1;
    if j == n {
      assert buckets[j := b][..n] == buckets[..n];
    } else {
      assert buckets[j := b][..n] == buckets[..n][j := b];
      TotalSizeUpdate(buckets[..n], j, b);
    }
  }

  lemma {:induction false} KeyFilterSnoc<T, K>(s: seq<T>, x: T, key: T -> K, k: K)
    ensures KeyFilter(s + [x], key, k) == KeyFilter(s, key, k) + (if key(x) == k then [x] else [])
  {
    if s == [] {
      assert KeyFilter([x], key, k) == (if key(x) == k then [x] else []) + KeyFilter([], key, k);
    } else {
      var sx := s + [x];
      assert sx[0] == s[0] && sx[1..] == s[1..] + [x];
      KeyFilterSnoc(s[1..], x, key, k);
      var head := if key(s[0]) == k then [s[0]] else [];
      var tail := if key(x) == k then [x] else [];
      assert KeyFilter(sx, key, k) == head + (KeyFilter(s[1..], key, k) + tail);
      assert KeyFilter(s, key, k) == head + KeyFilter(s[1..], key, k);
    }
  }

  /**
   * What the accumulator holds: each bucket is non-empty and holds exactly the rows with
   * its key, in input order; no key has two buckets; every row's key has a bucket.
   */
  ghost predicate Grouped<K>(data: seq<Row>, key: Row -> K, buckets: seq<Bucket<K>>)
  {
    && (forall j :: 0 <= j < |buckets| ==> buckets[j].rows != [] && buckets[j].rows == KeyFilter(data, key, buckets[j].key))
    && (forall j, m :: 0 <= j < m < |buckets| ==> buckets[j].key != buckets[m].key)
    && (forall i :: 0 <= i < |data| ==> key(data[i]) in Keys(buckets))
  }

  /** No key has two buckets. */
  lemma {:induction false} BucketsDistinct<K>(data: seq<Row>, key: Row -> K)
    ensures forall j, m :: 0 <= j < m < |Buckets(data, key)| ==> Buckets(data, key)[j].key != Buckets(data, key)[m].key
  {
    if data != [] {
      var n := |data| - 1;
      var before := Buckets(data[..n], key);
      BucketsDistinct(data[..n], key);
      if BucketIndex(before, key(data[n])) < |before| {
        assert Keys(Buckets(data, key)) == Keys(before);
      } else {
        assert Buckets(data, key) == before + [Bucket(key(data[n]), [data[n]])];
      }
    }
  }

  /** Every row's key has a bucket. */
  lemma {:induction false} BucketsListed<K>(data: seq<Row>, key: Row -> K)
    ensures forall i :: 0 <= i < |data| ==> key(data[i]) in Keys(Buckets(data, key))
  {
    if data != [] {
      var n := |data| - 1;
      var before := Buckets(data[..n], key);
      BucketsListed(data[..n], key);
      if BucketIndex(before, key(data[n])) < |before| {
        assert Keys(Buckets(data, key)) == Keys(before);
      } else {
        assert Keys(Buckets(data, key)) == Keys(before) + [key(data[n])];
      }
      forall i | 0 <= i < |data|
        ensures key(data[i]) in Keys(Buckets(data, key))
      {
        if i < n {
          assert data[i] == data[..n][i];
        }
      }
    }
  }

  /** Each bucket is non-empty and holds exactly the rows with its key, in input order. */
  lemma {:induction false} BucketsFilter<K>(data: seq<Row>, key: Row -> K)
    ensures forall j :: 0 <= j < |Buckets(data, key)| ==>
      Buckets(data, key)[j].rows != [] && Buckets(data, key)[j].rows == KeyFilter(data, key, Buckets(data, key)[j].key)
  {
    if data != [] {
      var n := |data| - 1;
      var x := data[n];
      var before := Buckets(data[..n], key);
      var after := Buckets(data, key);
      var b := BucketIndex(before, key(x));
      BucketsFilter(data[..n], key);
      BucketsDistinct(data[..n], key);
      assert data[..n] + [x] == data;
      if b == |before| {
        BucketsListed(data[..n], key);
        KeyFilterMembers(data[..n], key, key(x));
        assert KeyFilter(data[..n], key, key(x)) == [] by {
          forall y | y in data[..n]
            ensures key(y) != key(x)
          {
            var i :| 0 <= i < n && data[..n][i] == y;
          }
        }
      }
      forall m | 0 <= m < |after|
        ensures after[m].rows != [] && after[m].rows == KeyFilter(data, key, after[m].key)
      {
        var km := after[m].key;
        KeyFilterSnoc(data[..n], x, key, km);
        if m == b {
          assert km == key(x);
        } else {
          assert after[m] == before[m] && km != key(x);
        }
      }
    }
  }

  /** The buckets hold as many rows as the input has. */
  lemma {:induction false} BucketsSize<K>(data: seq<Row>, key: Row -> K)
    ensures TotalSize(Buckets(data, key)) == |data|
  {
    if data != [] {
      var n := |data| - 1;
      var before := Buckets(data[..n], key);
      var b := BucketIndex(before, key(data[n]));
      BucketsSize(data[..n], key);
      if b < |before| {
        TotalSizeUpdate(before, b, Bucket(key(data[n]), before[b].rows + [data[n]]));
      } else {
        assert (before + [Bucket(key(data[n]), [data[n]])])[..|before|] == before;
      }
    }
  }

  /**
   * `groupBy` files each row under exactly the bucket keyed by `fn(row[index])`, keeps
   * input order within a bucket, gives no key two buckets, and loses and adds no row.
   */
  lemma BucketsGrouped<K>(data: seq<Row>, key: Row -> K)
    ensures Grouped(data, key, Buckets(data, key))
    ensures TotalSize(Buckets(data, key)) == |data|
  {
    BucketsDistinct(data, key);
    BucketsListed(data, key);
    BucketsFilter(data, key);
    BucketsSize(data, key);
  }

  // ---------------------------------------------------------------------------
  // `sortCheckinByWeekday`

  /** `weekdays.indexOf(row[weekdayIndex])`: the day's place in the week, -1 for any other label. */
  function Rank(row: Row, weekdayIndex: int): (r: int)
    ensures -1 <= r < 7
    ensures r >= 0 ==> At(row, weekdayIndex) == Some(Weekdays[r])
  {
    IndexOf(Weekdays, At(row, weekdayIndex))
  }

  /** The comparator `indexOf(a) - indexOf(b)`, read as "may stand before". */
  function WeekdayOrder(weekdayIndex: int): (Row, Row) -> bool
  {
    (a: Row, b: Row) => Rank(a, weekdayIndex) <= Rank(b, weekdayIndex)
  }

  /** `sortCheckinByWeekday(data, weekdayIndex)`: `data.sort(...)` reorders the array in place. */
  method SortCheckinByWeekday(data: array<Row>, weekdayIndex: int)
    modifies data
    ensures data[..] == SortBy(old(data[..]), WeekdayOrder(weekdayIndex))
  {
    var sorted := SortBy(data[..], WeekdayOrder(weekdayIndex));
    forall i | 0 <= i < data.Length {
      data[i] := sorted[i];
    }
  }

  /** The sorted rows are the same rows, with the weekday ranks ascending. */
  lemma WeekdaySortSpec(rows: seq<Row>, weekdayIndex: int)
    ensures multiset(SortBy(rows, WeekdayOrder(weekdayIndex))) == multiset(rows)
    ensures forall i, j :: 0 <= i < j < |rows| ==>
      Rank(SortBy(rows, WeekdayOrder(weekdayIndex))[i], weekdayIndex) <= Rank(SortBy(rows, WeekdayOrder(weekdayIndex))[j], weekdayIndex)
  {
    WeekdayOrderPreorder(weekdayIndex);
    SortBySorted(rows, WeekdayOrder(weekdayIndex));
    RanksAscend(SortBy(rows, WeekdayOrder(weekdayIndex)), weekdayIndex);
  }

  lemma RanksAscend(sorted: seq<Row>, weekdayIndex: int)
    requires SortedBy(sorted, WeekdayOrder(weekdayIndex))
    ensures forall i, j :: 0 <= i < j < |sorted| ==> Rank(sorted[i], weekdayIndex) <= Rank(sorted[j], weekdayIndex)
  {
    forall i, j | 0 <= i < j < |sorted|
      ensures Rank(sorted[i], weekdayIndex) <= Rank(sorted[j], weekdayIndex)
    {
      assert WeekdayOrder(weekdayIndex)(sorted[i], sorted[j]);
    }
  }

  lemma WeekdayOrderPreorder(weekdayIndex: int)
    ensures TotalPreorder(WeekdayOrder(weekdayIndex))
  {
    var le := WeekdayOrder(weekdayIndex);
    forall a, b
      ensures le(a, b) || le(b, a)
    {
    }
    forall a, b, c | le(a, b) && le(b, c)
      ensures le(a, c)
    {
    }
  }

  // ---------------------------------------------------------------------------
  // `dataToHeatmapData`

  /** One heat-map cell: the weekday, one past the position of its first row in the sorted rows (0 when none), and whether there is one. */
  datatype HeatCell = HeatCell(x: string, y: int, checkedIn: bool)

  /** One participant's row of a week: the name key and the seven cells. */
  datatype HeatRow = HeatRow(id: string, data: seq<HeatCell>)

  /** `sortedCheckins.findIndex(checkin => checkin[weekdayIndex] === day)`. */
  function FindDay(rows: seq<Row>, weekdayIndex: int, day: string): (k: int)
    ensures -1 <= k < |rows|
    ensures k >= 0 ==> At(rows[k], weekdayIndex) == Some(day)
    ensures forall j :: 0 <= j < (if k < 0 then |rows| else k) ==> At(rows[j], weekdayIndex) != Some(day)
  {
    if rows == [] then -1
    else if At(rows[0], weekdayIndex) == Some(day) then 0
    else
      var k := FindDay(rows[1..], weekdayIndex, day);
      if k < 0 then -1 else k + 1
  }

  /** The `weekdays.map(...)` of one participant, over their rows sorted by weekday. */
  function HeatCells(sorted: seq<Row>, weekdayIndex: int): seq<HeatCell>
  {
    seq(7, i requires 0 <= i < 7 =>
      var k := FindDay(sorted, weekdayIndex, Weekdays[i]);
      HeatCell(Weekdays[i], k + 1, k + 1 != 0))
  }

  /** The key of the name grouping: the name cell, as a property key. */
  function NameKey(nameIndex: int): Row -> string
  {
    Keyed(nameIndex, JsString)
  }

  /** The key of the week grouping: `getWeekNumber(row[timeIndex])`, `None` where Temporal throws. */
  function WeekKey(timeIndex: int, instantWeek: string -> Option<int>): Row -> Option<int>
  {
    Keyed(timeIndex, (t: Option<string>) => instantWeek(JsString(t) + "Z"))
  }

  /** The rows of one week: one heat-map row per name, in the order the names first appear. */
  function PersonRows(rows: seq<Row>, nameIndex: int, weekdayIndex: int): seq<HeatRow>
  {
    var byName := Buckets(rows, NameKey(nameIndex));
    seq(|byName|, j requires 0 <= j < |byName| =>
      HeatRow(byName[j].key, HeatCells(SortBy(byName[j].rows, WeekdayOrder(weekdayIndex)), weekdayIndex)))
  }

  /** The spread-`reduce` over the week keys. */
  function WeekMap(weeks: seq<Bucket<Option<int>>>, nameIndex: int, weekdayIndex: int): map<int, seq<HeatRow>>
  {
    if weeks == [] then map[]
    else
      var last := weeks[|weeks| - 1];
      var m := WeekMap(weeks[..|weeks| - 1], nameIndex, weekdayIndex);
      match last.key
      case None => m
      case Some(w) => m[w := PersonRows(last.rows, nameIndex, weekdayIndex)]
  }

  /** The time text of the first row whose week Temporal cannot compute, if any. */
  function FirstBadTime(rows: seq<Row>, timeIndex: int, instantWeek: string -> Option<int>): (bad: Option<string>)
    ensures bad.Some? ==> instantWeek(bad.value).None?
  {
    if rows == [] then None
    else
      var text := JsString(At(rows[0], timeIndex)) + "Z";
      if instantWeek(text).None? then Some(text) else FirstBadTime(rows[1..], timeIndex, instantWeek)
  }

  /**
   * `dataToHeatmapData(data)`. `getWeekNumber` calls into Temporal: `instantWeek` is its
   * week of the year for an instant text, `None` where `Temporal.Instant.from` throws,
   * which aborts the whole computation at the first such row.
   */
  function DataToHeatmapData(data: Data, instantWeek: string -> Option<int>): (r: Result<map<int, seq<HeatRow>>>)
    ensures r.Err? ==> r.error.InvalidInstant? && instantWeek(r.error.text).None?
  {
    var weekdayIndex := IndexOf(data.headers, Some("Day of Week"));
    var timeIndex := IndexOf(data.headers, Some("time"));
    var nameIndex := IndexOf(data.headers, Some("Name"));
    match FirstBadTime(data.rows, timeIndex, instantWeek)
    case Some(text) => Err(InvalidInstant(text))
    case None => Ok(WeekMap(Buckets(data.rows, WeekKey(timeIndex, instantWeek)), nameIndex, weekdayIndex))
  }

  lemma WeekdaysDistinct()
    ensures forall i, j :: 0 <= i < j < 7 ==> Weekdays[i] != Weekdays[j]
  {
  }

  /** A row whose label is the `i`-th weekday has rank `i`. */
  lemma RankOfDay(row: Row, weekdayIndex: int, i: nat)
    requires i < 7 && At(row, weekdayIndex) == Some(Weekdays[i])
    ensures Rank(row, weekdayIndex) == i
  {
    WeekdaysDistinct();
  }

  /**
   * What the `i`-th cell says about one participant's rows: it is the `i`-th weekday; it
   * is checked in exactly when `y` is not 0; `y` is 0 exactly when none of the rows has
   * that weekday label; otherwise `y - 1` is the place of the day's first row in the
   * sorted rows, and every row before it has an earlier weekday or no weekday label.
   */
  ghost predicate CellOfDay(rows: seq<Row>, sorted: seq<Row>, weekdayIndex: int, i: nat, cell: HeatCell)
    requires i < 7
  {
    && cell.x == Weekdays[i]
    && (cell.checkedIn <==> cell.y != 0)
    && (cell.y == 0 <==> forall r :: r in rows ==> At(r, weekdayIndex) != Some(Weekdays[i]))
    && (cell.y != 0 ==> 0 < cell.y <= |sorted| && At(sorted[cell.y - 1], weekdayIndex) == Some(Weekdays[i]))
    && (forall j :: 0 <= j < cell.y - 1 && j < |sorted| ==> Rank(sorted[j], weekdayIndex) < i)
  }

  /** The seven cells of one participant, in `weekdays` order, each as `CellOfDay` states. */
  lemma HeatCellsSpec(rows: seq<Row>, weekdayIndex: int)
    ensures var sorted := SortBy(rows, WeekdayOrder(weekdayIndex));
      var cells := HeatCells(sorted, weekdayIndex);
      && |cells| == 7
      && forall i :: 0 <= i < 7 ==> CellOfDay(rows, sorted, weekdayIndex, i, cells[i])
  {
    forall i | 0 <= i < 7
      ensures CellOfDay(rows, SortBy(rows, WeekdayOrder(weekdayIndex)), weekdayIndex, i,
                        HeatCells(SortBy(rows, WeekdayOrder(weekdayIndex)), weekdayIndex)[i])
    {
      HeatCellSpec(rows, weekdayIndex, i);
    }
  }

  lemma HeatCellSpec(rows: seq<Row>, weekdayIndex: int, i: nat)
    requires i < 7
    ensures CellOfDay(rows, SortBy(rows, WeekdayOrder(weekdayIndex)), weekdayIndex, i,
                      HeatCells(SortBy(rows, WeekdayOrder(weekdayIndex)), weekdayIndex)[i])
  {
    var sorted := SortBy(rows, WeekdayOrder(weekdayIndex));
    WeekdaySortSpec(rows, weekdayIndex);
    assert forall r :: r in rows <==> r in sorted by {
      assert forall r :: r in rows <==> r in multiset(rows);
      assert forall r :: r in sorted <==> r in multiset(sorted);
    }
    FirstOfDay(sorted, weekdayIndex, i);
  }

  /** In rows sorted by weekday, the rows before the first row of the `i`-th weekday have smaller ranks. */
  lemma FirstOfDay(sorted: seq<Row>, weekdayIndex: int, i: nat)
    requires i < 7
    requires forall a, b :: 0 <= a < b < |sorted| ==> Rank(sorted[a], weekdayIndex) <= Rank(sorted[b], weekdayIndex)
    ensures var k := FindDay(sorted, weekdayIndex, Weekdays[i]);
      forall j :: 0 <= j < k ==> Rank(sorted[j], weekdayIndex) < i
  {
    var k := FindDay(sorted, weekdayIndex, Weekdays[i]);
    if k >= 0 {
      RankOfDay(sorted[k], weekdayIndex, i);
      forall j | 0 <= j < k
        ensures Rank(sorted[j], weekdayIndex) < i
      {
        assert Rank(sorted[j], weekdayIndex) <= i;
        assert At(sorted[j], weekdayIndex) != Some(Weekdays[i]);
      }
    }
  }

  /** The name keys of the heat-map rows, in order. */
  function Ids(people: seq<HeatRow>): (ids: seq<string>)
    ensures |ids| == |people|
    ensures forall j :: 0 <= j < |people| ==> ids[j] == people[j].id
  {
    seq(|people|, j requires 0 <= j < |people| => people[j].id)
  }

  /**
   * A week has one heat-map row per distinct name key of its rows, and each holds the
   * cells of exactly that name's rows, which are never none.
   */
  lemma PersonRowsSpec(rows: seq<Row>, nameIndex: int, weekdayIndex: int)
    ensures var people := PersonRows(rows, nameIndex, weekdayIndex);
      && (forall j, m :: 0 <= j < m < |people| ==> people[j].id != people[m].id)
      && (forall i :: 0 <= i < |rows| ==> NameKey(nameIndex)(rows[i]) in Ids(people))
      && (forall j :: 0 <= j < |people| ==>
            var mine := KeyFilter(rows, NameKey(nameIndex), people[j].id);
            mine != [] && people[j].data == HeatCells(SortBy(mine, WeekdayOrder(weekdayIndex)), weekdayIndex))
  {
    var byName := Buckets(rows, NameKey(nameIndex));
    var people := PersonRows(rows, nameIndex, weekdayIndex);
    forall j | 0 <= j < |people|
      ensures people[j] == HeatRow(byName[j].key, HeatCells(SortBy(byName[j].rows, WeekdayOrder(weekdayIndex)), weekdayIndex))
    {
    }
    assert Ids(people) == Keys(byName);
    BucketsDistinct(rows, NameKey(nameIndex));
    BucketsListed(rows, NameKey(nameIndex));
    BucketsFilter(rows, NameKey(nameIndex));
  }

  /** Distinct week keys: each week's rows land under their week number, and nothing else does. */
  lemma {:induction false} WeekMapSpec(weeks: seq<Bucket<Option<int>>>, nameIndex: int, weekdayIndex: int)
    requires forall j, m :: 0 <= j < m < |weeks| ==> weeks[j].key != weeks[m].key
    ensures forall j :: 0 <= j < |weeks| && weeks[j].key.Some? ==>
      weeks[j].key.value in WeekMap(weeks, nameIndex, weekdayIndex) &&
      WeekMap(weeks, nameIndex, weekdayIndex)[weeks[j].key.value] == PersonRows(weeks[j].rows, nameIndex, weekdayIndex)
    ensures forall w :: w in WeekMap(weeks, nameIndex, weekdayIndex) ==> Some(w) in Keys(weeks)
  {
    if weeks != [] {
      var n := |weeks| - 1;
      WeekMapSpec(weeks[..n], nameIndex, weekdayIndex);
      assert Keys(weeks) == Keys(weeks[..n]) + [weeks[n].key];
      forall j | 0 <= j < n
        ensures weeks[j] == weeks[..n][j]
      {
      }
    }
  }

  /** Every row's week Temporal can compute exactly when no time text is rejected. */
  lemma {:induction false} FirstBadTimeSpec(rows: seq<Row>, timeIndex: int, instantWeek: string -> Option<int>)
    ensures FirstBadTime(rows, timeIndex, instantWeek).None? <==>
      forall i :: 0 <= i < |rows| ==> WeekKey(timeIndex, instantWeek)(rows[i]).Some?
  {
    if rows != [] {
      FirstBadTimeSpec(rows[1..], timeIndex, instantWeek);
      forall i | 0 < i < |rows|
        ensures rows[i] == rows[1..][i - 1]
      {
      }
    }
  }

  /** `data.headers.indexOf(header)`. */
  function Column(data: Data, header: string): int
  {
    IndexOf(data.headers, Some(header))
  }

  /**
   * The heat map fails exactly when some row's time text is not an instant Temporal
   * accepts. Otherwise its weeks are exactly the week numbers of the rows, and each
   * week's rows are the rows of that week, grouped by name as `PersonRowsSpec` states.
   */
  lemma HeatmapSpec(data: Data, instantWeek: string -> Option<int>)
    ensures var weekKey := WeekKey(Column(data, "time"), instantWeek);
      DataToHeatmapData(data, instantWeek).Ok? <==> forall i :: 0 <= i < |data.rows| ==> weekKey(data.rows[i]).Some?
    ensures var weekKey := WeekKey(Column(data, "time"), instantWeek);
      DataToHeatmapData(data, instantWeek).Ok? ==>
      var weeks := DataToHeatmapData(data, instantWeek).value;
      && (forall i :: 0 <= i < |data.rows| ==> weekKey(data.rows[i]).value in weeks)
      && (forall w :: w in weeks ==>
            var mine := KeyFilter(data.rows, weekKey, Some(w));
            mine != [] && weeks[w] == PersonRows(mine, Column(data, "Name"), Column(data, "Day of Week")))
  {
    var weekKey := WeekKey(Column(data, "time"), instantWeek);
    FirstBadTimeSpec(data.rows, Column(data, "time"), instantWeek);
    if DataToHeatmapData(data, instantWeek).Ok? {
      WeeksListed(data.rows, weekKey, Column(data, "Name"), Column(data, "Day of Week"));
      WeeksHoldTheirRows(data.rows, weekKey, Column(data, "Name"), Column(data, "Day of Week"));
    }
  }

  lemma WeeksListed(rows: seq<Row>, weekKey: Row -> Option<int>, nameIndex: int, weekdayIndex: int)
    ensures forall i :: 0 <= i < |rows| && weekKey(rows[i]).Some? ==>
      weekKey(rows[i]).value in WeekMap(Buckets(rows, weekKey), nameIndex, weekdayIndex)
  {
    var byWeek := Buckets(rows, weekKey);
    BucketsDistinct(rows, weekKey);
    BucketsListed(rows, weekKey);
    WeekMapSpec(byWeek, nameIndex, weekdayIndex);
    forall i | 0 <= i < |rows| && weekKey(rows[i]).Some?
      ensures weekKey(rows[i]).value in WeekMap(byWeek, nameIndex, weekdayIndex)
    {
      var j :| 0 <= j < |byWeek| && Keys(byWeek)[j] == weekKey(rows[i]);
    }
  }

  lemma WeeksHoldTheirRows(rows: seq<Row>, weekKey: Row -> Option<int>, nameIndex: int, weekdayIndex: int)
    ensures var weeks := WeekMap(Buckets(rows, weekKey), nameIndex, weekdayIndex);
      forall w :: w in weeks ==>
        var mine := KeyFilter(rows, weekKey, Some(w));
        mine != [] && weeks[w] == PersonRows(mine, nameIndex, weekdayIndex)
  {
    var byWeek := Buckets(rows, weekKey);
    BucketsDistinct(rows, weekKey);
    BucketsFilter(rows, weekKey);
    WeekMapSpec(byWeek, nameIndex, weekdayIndex);
    var weeks := WeekMap(byWeek, nameIndex, weekdayIndex);
    forall w | w in weeks
      ensures KeyFilter(rows, weekKey, Some(w)) != []
      ensures weeks[w] == PersonRows(KeyFilter(rows, weekKey, Some(w)), nameIndex, weekdayIndex)
    {
      var j :| 0 <= j < |byWeek| && Keys(byWeek)[j] == Some(w);
    }
  }

  // ---------------------------------------------------------------------------
  // `getLatestDate`

  /** The comparator `new Date(a[timeIndex]).getTime() - new Date(b[timeIndex]).getTime()`; `dateTime` is the `Date` parse. */
  function TimeOrder(timeIndex: int, dateTime: Option<string> -> int): (Row, Row) -> bool
  {
    (a: Row, b: Row) => dateTime(At(a, timeIndex)) <= dateTime(At(b, timeIndex))
  }

  /** The time cell of the last row once the rows are sorted by time; reading past an empty list fails. */
  function LatestDate(data: Data, dateTime: Option<string> -> int): (r: Result<Option<string>>)
    ensures r.Err? <==> data.rows == []
    ensures r.Err? ==> r.error == IndexOutOfRange
    ensures r.Ok? ==> exists i :: 0 <= i < |data.rows| && r.value == At(data.rows[i], Column(data, "time"))
  {
    var timeIndex := Column(data, "time");
    var sorted := SortBy(data.rows, TimeOrder(timeIndex, dateTime));
    if sorted == [] then Err(IndexOutOfRange)
    else
      assert sorted[|sorted| - 1] in multiset(data.rows);
      Ok(At(sorted[|sorted| - 1], timeIndex))
  }

  /** `getLatestDate(data)`, where `rows` is the array `data.rows`, which the sort reorders in place. */
  method GetLatestDate(headers: seq<string>, rows: array<Row>, dateTime: Option<string> -> int)
    returns (latest: Result<Option<string>>)
    modifies rows
    ensures rows[..] == SortBy(old(rows[..]), TimeOrder(Column(Data(headers, old(rows[..])), "time"), dateTime))
    ensures latest == LatestDate(Data(headers, old(rows[..])), dateTime)
  {
    var timeIndex := IndexOf(headers, Some("time"));
    var sorted := SortBy(rows[..], TimeOrder(timeIndex, dateTime));
    forall i | 0 <= i < rows.Length {
      rows[i] := sorted[i];
    }
    if rows.Length == 0 {
      latest := Err(IndexOutOfRange);
    } else {
      latest := Ok(At(rows[rows.Length - 1], timeIndex));
    }
  }

  lemma TimeOrderPreorder(timeIndex: int, dateTime: Option<string> -> int)
    ensures TotalPreorder(TimeOrder(timeIndex, dateTime))
  {
    var le := TimeOrder(timeIndex, dateTime);
    forall a, b
      ensures le(a, b) || le(b, a)
    {
    }
    forall a, b, c | le(a, b) && le(b, c)
      ensures le(a, c)
    {
    }
  }

  /**
   * The latest date fails exactly on an empty sheet; otherwise it is the time cell of one
   * of the rows, and no row's time is later.
   */
  lemma LatestDateIsLatest(data: Data, dateTime: Option<string> -> int)
    ensures LatestDate(data, dateTime).Ok? <==> data.rows != []
    ensures LatestDate(data, dateTime).Ok? ==>
      var latest := LatestDate(data, dateTime).value;
      && (exists i :: 0 <= i < |data.rows| && At(data.rows[i], Column(data, "time")) == latest)
      && forall i :: 0 <= i < |data.rows| ==> dateTime(At(data.rows[i], Column(data, "time"))) <= dateTime(latest)
  {
    if data.rows != [] {
      var timeIndex := Column(data, "time");
      TimeOrderPreorder(timeIndex, dateTime);
      SortByLast(data.rows, TimeOrder(timeIndex, dateTime));
    }
  }
}
