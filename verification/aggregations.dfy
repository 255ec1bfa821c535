/** The five cached aggregations the charts draw (app.py lines 136-138,
    165-178, 225-233 and 259-261), each a function of a filtered table. */
module Aggregations {
  import opened Tables
  import opened Ordering
  import opened Grouping

  // ---------------------------------------------------------------------
  // get_daily_rentals
  // ---------------------------------------------------------------------

  /** The day rows keyed by date. */
  function ByDate(days: seq<DayRow>): seq<Keyed<int>> {
    Project(days, DayDate, DayCounts)
  }

  /** `day.groupby(by=['dteday'])[[...]].sum().reset_index()`: one row per
      distinct date, dates ascending, each holding the sums over the days
      with that date; the grand totals are those of the input. */
  function DailyRentals(days: seq<DayRow>): (r: seq<Keyed<int>>)
    ensures forall i, j :: 0 <= i < j < |r| ==> r[i].key < r[j].key
    ensures forall t :: t in KeySet(r) <==> exists d :: d in days && d.dteday == t
    ensures forall g :: g in r ==> g.counts == SumWhere(ByDate(days), g.key)
    ensures SumCounts(r) == SumRows(days, DayCounts)
  {
    IntLessIsStrictTotal();
    GroupSumsExact(ByDate(days), IntLess);
    ProjectKeySet(days, DayDate, DayCounts);
    ProjectSum(days, DayDate, DayCounts);
    GroupSums(ByDate(days), IntLess)
  }

  // ---------------------------------------------------------------------
  // get_rent_by_hour
  // ---------------------------------------------------------------------

  /** The hour rows keyed by hour of the day. */
  function ByJam(hours: seq<HourRow>): seq<Keyed<int>> {
    Project(hours, HourJam, HourCounts)
  }

  ghost predicate NonIncreasingTotal<K>(s: seq<Keyed<K>>) {
    forall i, j :: 0 <= i < j < |s| ==> s[i].counts.total >= s[j].counts.total
  }

  ghost predicate DistinctKeys<K>(s: seq<Keyed<K>>) {
    forall i, j :: 0 <= i < j < |s| ==> s[i].key != s[j].key
  }

  lemma DistinctCons<K>(x: Keyed<K>, s: seq<Keyed<K>>)
    ensures DistinctKeys(s) && x.key !in KeySet(s) ==> DistinctKeys([x] + s)
  {
    var t := [x] + s;
    forall i, j | 0 <= i < j < |t| && DistinctKeys(s) && x.key !in KeySet(s)
      ensures t[i].key != t[j].key
    {
      if i == 0 {
        KeySetIndex(s, t[j].key);
        assert t[j] == s[j - 1];
      } else {
        assert t[i] == s[i - 1] && t[j] == s[j - 1];
      }
    }
  }

  /** A row whose total bounds every total of a non-increasing table can be
      put in front of it. */
  lemma TotalAboveCons<K>(x: Keyed<K>, s: seq<Keyed<K>>)
    requires NonIncreasingTotal(s)
    requires forall y :: y in s ==> y.counts.total <= x.counts.total
    ensures NonIncreasingTotal([x] + s)
  {
    var t := [x] + s;
    forall i, j | 0 <= i < j < |t|
      ensures t[i].counts.total >= t[j].counts.total
    {
      assert t[j] == s[j - 1];
      if i > 0 {
        assert t[i] == s[i - 1];
      }
    }
  }

  /** Puts `x` in front of the first row whose total is not larger. */
  function InsertByTotal<K>(s: seq<Keyed<K>>, x: Keyed<K>): (r: seq<Keyed<K>>)
    requires NonIncreasingTotal(s)
    ensures NonIncreasingTotal(r)
    ensures multiset(r) == multiset(s) + multiset{x}
    ensures KeySet(r) == KeySet(s) + {x.key}
    ensures DistinctKeys(s) && x.key !in KeySet(s) ==> DistinctKeys(r)
  {
    if s == [] then [x]
    else if x.counts.total >= s[0].counts.total then
      TotalAboveCons(x, s);
      DistinctCons(x, s);
      [x] + s
    else
      var rest := InsertByTotal(s[1..], x);
      InsertAfterHead(s, x, rest);
      [s[0]] + rest
  }

  /** The step of InsertByTotal that keeps the head in front. */
  lemma InsertAfterHead<K>(s: seq<Keyed<K>>, x: Keyed<K>, rest: seq<Keyed<K>>)
    requires s != [] && NonIncreasingTotal(s)
    requires x.counts.total < s[0].counts.total
    requires NonIncreasingTotal(rest)
    requires multiset(rest) == multiset(s[1..]) + multiset{x}
    requires KeySet(rest) == KeySet(s[1..]) + {x.key}
    requires DistinctKeys(s[1..]) && x.key !in KeySet(s[1..]) ==> DistinctKeys(rest)
    ensures NonIncreasingTotal([s[0]] + rest)
    ensures multiset([s[0]] + rest) == multiset(s) + multiset{x}
    ensures KeySet([s[0]] + rest) == KeySet(s) + {x.key}
    ensures DistinctKeys(s) && x.key !in KeySet(s) ==> DistinctKeys([s[0]] + rest)
  {
    ContentsAfterHead(s, x, rest);
    HeadTotalAbove(s, x, rest);
    TotalAboveCons(s[0], rest);
    DistinctAfterHead(s, x, rest);
  }

  lemma ContentsAfterHead<K>(s: seq<Keyed<K>>, x: Keyed<K>, rest: seq<Keyed<K>>)
    requires s != []
    requires multiset(rest) == multiset(s[1..]) + multiset{x}
    requires KeySet(rest) == KeySet(s[1..]) + {x.key}
    ensures multiset([s[0]] + rest) == multiset(s) + multiset{x}
    ensures KeySet([s[0]] + rest) == KeySet(s) + {x.key}
  {
    assert s == [s[0]] + s[1..];
    assert ([s[0]] + rest)[1..] == rest;
  }

  lemma DistinctAfterHead<K>(s: seq<Keyed<K>>, x: Keyed<K>, rest: seq<Keyed<K>>)
    requires s != []
    requires KeySet(rest) == KeySet(s[1..]) + {x.key}
    requires DistinctKeys(s[1..]) && x.key !in KeySet(s[1..]) ==> DistinctKeys(rest)
    ensures DistinctKeys(s) && x.key !in KeySet(s) ==> DistinctKeys([s[0]] + rest)
  {
    DistinctTail(s);
    DistinctCons(s[0], rest);
  }

  lemma HeadTotalAbove<K>(s: seq<Keyed<K>>, x: Keyed<K>, rest: seq<Keyed<K>>)
    requires s != [] && NonIncreasingTotal(s)
    requires x.counts.total < s[0].counts.total
    requires multiset(rest) == multiset(s[1..]) + multiset{x}
    ensures forall y :: y in rest ==> y.counts.total <= s[0].counts.total
  {
    forall y | y in rest
      ensures y.counts.total <= s[0].counts.total
    {
      assert y in multiset(rest);
      if y != x {
        assert y in s[1..];
        var i :| 0 <= i < |s[1..]| && s[1..][i] == y;
        assert s[i + 1] == y;
      }
    }
  }

  lemma DistinctTail<K>(s: seq<Keyed<K>>)
    requires s != []
    ensures DistinctKeys(s) ==> DistinctKeys(s[1..]) && s[0].key !in KeySet(s[1..])
  {
    KeySetIndex(s[1..], s[0].key);
  }

  /** `sort_values(by=['Total Penyewa'], ascending=False)`: the same rows,
      totals non-increasing. Ties keep their input order here; pandas'
      default sort does not promise that, so no contract depends on it. */
  function SortByTotalDesc<K>(s: seq<Keyed<K>>): (r: seq<Keyed<K>>)
    ensures NonIncreasingTotal(r)
    ensures multiset(r) == multiset(s)
    ensures KeySet(r) == KeySet(s)
    ensures DistinctKeys(s) ==> DistinctKeys(r)
  {
    if s == [] then []
    else
      assert s == [s[0]] + s[1..];
      DistinctTail(s);
      InsertByTotal(SortByTotalDesc(s[1..]), s[0])
  }

  /** The grouped-and-sorted frame `hourly_rentals` before it is melted:
      one row per distinct hour, holding the sums over the hour rows of
      that hour, totals non-increasing. */
  function HourlyRentals(hours: seq<HourRow>): (r: seq<Keyed<int>>)
    ensures NonIncreasingTotal(r)
    ensures DistinctKeys(r)
    ensures forall h :: h in KeySet(r) <==> exists x :: x in hours && x.jam == h
    ensures forall g :: g in r ==> g.counts == SumWhere(ByJam(hours), g.key)
  {
    IntLessIsStrictTotal();
    var groups := GroupSums(ByJam(hours), IntLess);
    GroupSumsExact(ByJam(hours), IntLess);
    ProjectKeySet(hours, HourJam, HourCounts);
    AscendingDistinct(groups, IntLess);
    var r := SortByTotalDesc(groups);
    SortedRowsGrouped(groups, r, hours);
    r
  }

  lemma AscendingDistinct<K(!new)>(s: seq<Keyed<K>>, less: (K, K) -> bool)
    requires StrictTotalOrder(less) && StrictlyAscending(s, less)
    ensures DistinctKeys(s)
  {
  }

  lemma SortedRowsGrouped(groups: seq<Keyed<int>>, r: seq<Keyed<int>>, hours: seq<HourRow>)
    requires multiset(r) == multiset(groups)
    requires forall g :: g in groups ==> g.counts == SumWhere(ByJam(hours), g.key)
    ensures forall g :: g in r ==> g.counts == SumWhere(ByJam(hours), g.key)
  {
    forall g | g in r
      ensures g.counts == SumWhere(ByJam(hours), g.key)
    {
      assert g in multiset(groups);
    }
  }

  /** The three count columns, in the order `value_vars` lists them. */
  datatype CountColumn = TotalColumn | NonAktifColumn | AktifColumn

  /** The column's name, which `melt` writes into 'User Type'. */
  function ColumnName(c: CountColumn): string {
    match c
    case TotalColumn => "Total Penyewa"
    case NonAktifColumn => "non aktif"
    case AktifColumn => "aktif"
  }

  function ColumnValue(counts: Counts, c: CountColumn): int {
    match c
    case TotalColumn => counts.total
    case NonAktifColumn => counts.nonAktif
    case AktifColumn => counts.aktif
  }

  /** Position of the column among `value_vars`. */
  function ColumnIndex(c: CountColumn): nat {
    match c
    case TotalColumn => 0
    case NonAktifColumn => 1
    case AktifColumn => 2
  }

  /** A row of the long-form frame: 'Jam', 'User Type', 'Total Rentals'. */
  datatype MeltedRow = MeltedRow(jam: int, userType: string, totalRentals: int)

  /** The melted row of one frame row and one column. */
  function MeltRow(g: Keyed<int>, c: CountColumn): MeltedRow {
    MeltedRow(g.key, ColumnName(c), ColumnValue(g.counts, c))
  }

  function MeltColumn(s: seq<Keyed<int>>, c: CountColumn): seq<MeltedRow> {
    seq(|s|, i requires 0 <= i < |s| => MeltRow(s[i], c))
  }

  /** `melt(id_vars=['Jam'], value_vars=[...])`: one block per column in
      `value_vars` order, each block following the frame's row order. */
  function Melt(s: seq<Keyed<int>>): (r: seq<MeltedRow>)
    ensures |r| == 3 * |s|
    ensures forall i :: 0 <= i < |s| ==>
              && r[i] == MeltRow(s[i], TotalColumn)
              && r[|s| + i] == MeltRow(s[i], NonAktifColumn)
              && r[2 * |s| + i] == MeltRow(s[i], AktifColumn)
  {
    MeltColumn(s, TotalColumn) + MeltColumn(s, NonAktifColumn) + MeltColumn(s, AktifColumn)
  }

  /** The frame row and the column a position of the melted frame comes
      from. */
  lemma MeltAt(s: seq<Keyed<int>>, p: nat) returns (c: CountColumn, i: nat)
    requires p < 3 * |s|
    ensures i < |s| && p == ColumnIndex(c) * |s| + i
    ensures Melt(s)[p] == MeltRow(s[i], c)
  {
    var n := |s|;
    if p < n {
      c, i := TotalColumn, p;
    } else if p < 2 * n {
      c, i := NonAktifColumn, p - n;
    } else {
      c, i := AktifColumn, p - 2 * n;
    }
  }

  lemma ColumnNameInjective(c: CountColumn, d: CountColumn)
    requires ColumnName(c) == ColumnName(d)
    ensures c == d
  {
    assert |ColumnName(c)| == |ColumnName(d)|;
  }

  /** The melted frame has a row for an hour and a column exactly when the
      hour is in the frame. */
  lemma MeltHasPair(s: seq<Keyed<int>>, h: int, c: CountColumn)
    ensures h in KeySet(s) <==>
              exists p :: 0 <= p < |Melt(s)| && Melt(s)[p].jam == h && Melt(s)[p].userType == ColumnName(c)
  {
    var r := Melt(s);
    KeySetIndex(s, h);
    if h in KeySet(s) {
      var i :| 0 <= i < |s| && s[i].key == h;
      var p := ColumnIndex(c) * |s| + i;
      var c', i' := MeltAt(s, p);
      assert r[p] == MeltRow(s[i], c);
    }
    if exists p :: 0 <= p < |r| && r[p].jam == h && r[p].userType == ColumnName(c) {
      var p :| 0 <= p < |r| && r[p].jam == h && r[p].userType == ColumnName(c);
      var c', i := MeltAt(s, p);
      assert s[i].key == h;
    }
  }

  /** Two rows of the melted frame with the same hour and column are the
      same row when the frame has no repeated hours. */
  lemma MeltPairUnique(s: seq<Keyed<int>>, p: nat, q: nat)
    requires DistinctKeys(s)
    requires p < |Melt(s)| && q < |Melt(s)|
    requires Melt(s)[p].jam == Melt(s)[q].jam && Melt(s)[p].userType == Melt(s)[q].userType
    ensures p == q
  {
    var cp, i := MeltAt(s, p);
    var cq, j := MeltAt(s, q);
    ColumnNameInjective(cp, cq);
    assert s[i].key == s[j].key;
  }

  /** For a frame without repeated hours, the melted frame holds exactly
      one row for each pair of an hour of the frame and a column, and no
      row for any other hour. */
  lemma MeltOnePerPair(s: seq<Keyed<int>>, h: int, c: CountColumn)
    requires DistinctKeys(s)
    ensures h in KeySet(s) <==>
              exists p :: 0 <= p < |Melt(s)| && Melt(s)[p].jam == h && Melt(s)[p].userType == ColumnName(c)
    ensures forall p, q ::
              && 0 <= p < |Melt(s)| && Melt(s)[p].jam == h && Melt(s)[p].userType == ColumnName(c)
              && 0 <= q < |Melt(s)| && Melt(s)[q].jam == h && Melt(s)[q].userType == ColumnName(c)
              ==> p == q
  {
    MeltHasPair(s, h, c);
    var r := Melt(s);
    forall p, q |
      && 0 <= p < |r| && r[p].jam == h && r[p].userType == ColumnName(c)
      && 0 <= q < |r| && r[q].jam == h && r[q].userType == ColumnName(c)
      ensures p == q
    {
      MeltPairUnique(s, p, q);
    }
  }

  /** `get_rent_by_hour`: the grouped-and-sorted frame in long form. */
  function RentByHour(hours: seq<HourRow>): (r: seq<MeltedRow>)
    ensures |r| == 3 * |HourlyRentals(hours)|
  {
    Melt(HourlyRentals(hours))
  }

  /** Every long-form row names one of the three columns and holds that
      column's sum over the hour rows of its hour, an hour that occurs. */
  lemma RentByHourValues(hours: seq<HourRow>, p: nat) returns (c: CountColumn)
    requires p < |RentByHour(hours)|
    ensures RentByHour(hours)[p].userType == ColumnName(c)
    ensures RentByHour(hours)[p].totalRentals == ColumnValue(SumWhere(ByJam(hours), RentByHour(hours)[p].jam), c)
    ensures exists x :: x in hours && x.jam == RentByHour(hours)[p].jam
  {
    var s := HourlyRentals(hours);
    var i;
    c, i := MeltAt(s, p);
    assert s[i] in s;
    KeySetIndex(s, s[i].key);
  }

  /** The 'Total Penyewa' block comes first and lists the hours by total,
      largest first. */
  lemma RentByHourOrdered(hours: seq<HourRow>)
    ensures forall p :: 0 <= p < |HourlyRentals(hours)| ==> RentByHour(hours)[p].userType == "Total Penyewa"
    ensures forall p, q :: 0 <= p < q < |HourlyRentals(hours)| ==>
              RentByHour(hours)[p].totalRentals >= RentByHour(hours)[q].totalRentals
  {
    var s := HourlyRentals(hours);
    var r := RentByHour(hours);
    forall p | 0 <= p < |s|
      ensures r[p].userType == "Total Penyewa"
    {
      assert r[p] == MeltRow(s[p], TotalColumn);
    }
    forall p, q | 0 <= p < q < |s|
      ensures r[p].totalRentals >= r[q].totalRentals
    {
      assert r[p] == MeltRow(s[p], TotalColumn);
      assert r[q] == MeltRow(s[q], TotalColumn);
    }
  }

  /** Exactly one long-form row per pair of an hour that occurs and a
      column; none for an hour that does not occur. */
  lemma RentByHourOnePerPair(hours: seq<HourRow>, h: int, c: CountColumn)
    ensures (exists x :: x in hours && x.jam == h) <==>
              exists p :: 0 <= p < |RentByHour(hours)| && RentByHour(hours)[p].jam == h
                          && RentByHour(hours)[p].userType == ColumnName(c)
    ensures forall p, q ::
              && 0 <= p < |RentByHour(hours)| && RentByHour(hours)[p].jam == h
              && RentByHour(hours)[p].userType == ColumnName(c)
              && 0 <= q < |RentByHour(hours)| && RentByHour(hours)[q].jam == h
              && RentByHour(hours)[q].userType == ColumnName(c)
              ==> p == q
  {
    var s := HourlyRentals(hours);
    assert RentByHour(hours) == Melt(s);
    assert h in KeySet(s) <==> exists x :: x in hours && x.jam == h;
    MeltOnePerPair(s, h, c);
  }

  // ---------------------------------------------------------------------
  // get_rent_by_hour_trend
  // ---------------------------------------------------------------------

  /** An hour row with the 'Waktu' column added. */
  datatype TrendRow = TrendRow(row: HourRow, waktu: string)

  /** `hour[(hour['Jam'] >= lo) & (hour['Jam'] <= hi)].copy()` with
      `.loc[:, 'Waktu'] = waktu`: the hour rows inside the window, each as
      often as in the input and otherwise unchanged, tagged. */
  function Window(hours: seq<HourRow>, lo: int, hi: int, waktu: string): (r: seq<TrendRow>)
    ensures forall t :: multiset(r)[t] ==
                        if t.waktu == waktu && lo <= t.row.jam <= hi then multiset(hours)[t.row] else 0
  {
    if hours == [] then []
    else
      assert hours == [hours[0]] + hours[1..];
      (if lo <= hours[0].jam <= hi then [TrendRow(hours[0], waktu)] else []) + Window(hours[1..], lo, hi, waktu)
  }

  /** A window keeps the input order. */
  lemma {:induction false} WindowConcat(a: seq<HourRow>, b: seq<HourRow>, lo: int, hi: int, waktu: string)
    ensures Window(a + b, lo, hi, waktu) == Window(a, lo, hi, waktu) + Window(b, lo, hi, waktu)
  {
    if a == [] {
      assert a + b == b;
    } else {
      assert (a + b)[0] == a[0];
      assert (a + b)[1..] == a[1..] + b;
      WindowConcat(a[1..], b, lo, hi, waktu);
    }
  }

  lemma {:induction false} WindowTagged(hours: seq<HourRow>, lo: int, hi: int, waktu: string)
    ensures forall t :: t in Window(hours, lo, hi, waktu) ==> t.waktu == waktu && lo <= t.row.jam <= hi
  {
    forall t | t in Window(hours, lo, hi, waktu)
      ensures t.waktu == waktu && lo <= t.row.jam <= hi
    {
      assert multiset(Window(hours, lo, hi, waktu))[t] > 0;
    }
  }

  /** `get_rent_by_hour_trend`: the morning rows (6 to 9) tagged "Pagi",
      then the evening rows (18 to 21) tagged "Malam". */
  function RentByHourTrend(hours: seq<HourRow>): (r: seq<TrendRow>)
    ensures forall t :: multiset(r)[t] ==
                        if (t.waktu == "Pagi" && 6 <= t.row.jam <= 9) || (t.waktu == "Malam" && 18 <= t.row.jam <= 21)
                        then multiset(hours)[t.row] else 0
    ensures forall i, j :: 0 <= i < j < |r| && r[j].waktu == "Pagi" ==> r[i].waktu == "Pagi"
  {
    var pagi := Window(hours, 6, 9, "Pagi");
    var malam := Window(hours, 18, 21, "Malam");
    WindowTagged(hours, 6, 9, "Pagi");
    WindowTagged(hours, 18, 21, "Malam");
    PagiFirst(pagi, malam);
    pagi + malam
  }

  lemma PagiFirst(pagi: seq<TrendRow>, malam: seq<TrendRow>)
    requires forall t :: t in pagi ==> t.waktu == "Pagi"
    requires forall t :: t in malam ==> t.waktu == "Malam"
    ensures forall i, j :: 0 <= i < j < |pagi + malam| && (pagi + malam)[j].waktu == "Pagi" ==>
              (pagi + malam)[i].waktu == "Pagi"
  {
    var r := pagi + malam;
    forall i | 0 <= i < |r|
      ensures r[i].waktu == "Pagi" <==> i < |pagi|
    {
      if i < |pagi| {
        assert r[i] == pagi[i] && pagi[i] in pagi;
      } else {
        assert r[i] == malam[i - |pagi|] && malam[i - |pagi|] in malam;
        assert "Pagi" != "Malam";
      }
    }
  }

  /** Every row of the trend table lies in one of the two commute windows,
      and its tag names the window. */
  lemma TrendWindows(hours: seq<HourRow>)
    ensures forall t :: t in RentByHourTrend(hours) ==>
              || (t.waktu == "Pagi" && 6 <= t.row.jam <= 9)
              || (t.waktu == "Malam" && 18 <= t.row.jam <= 21)
  {
    var r := RentByHourTrend(hours);
    forall t | t in r
      ensures (t.waktu == "Pagi" && 6 <= t.row.jam <= 9) || (t.waktu == "Malam" && 18 <= t.row.jam <= 21)
    {
      assert multiset(r)[t] > 0;
    }
  }

  /** The window edges: an hour row at 6 is tagged "Pagi", one at 21 is
      tagged "Malam", one at 10 is in neither window. */
  lemma TrendBoundaries(hours: seq<HourRow>, x: HourRow)
    requires x in hours
    ensures x.jam == 6 ==> TrendRow(x, "Pagi") in RentByHourTrend(hours)
    ensures x.jam == 21 ==> TrendRow(x, "Malam") in RentByHourTrend(hours)
    ensures x.jam == 10 ==> forall t :: t in RentByHourTrend(hours) ==> t.row != x
  {
    if x.jam == 6 {
      TrendKeeps(hours, x, "Pagi");
    }
    if x.jam == 21 {
      TrendKeeps(hours, x, "Malam");
    }
    if x.jam == 10 {
      TrendDrops(hours, x);
    }
  }

  lemma TrendKeeps(hours: seq<HourRow>, x: HourRow, waktu: string)
    requires x in hours
    requires (waktu == "Pagi" && 6 <= x.jam <= 9) || (waktu == "Malam" && 18 <= x.jam <= 21)
    ensures TrendRow(x, waktu) in RentByHourTrend(hours)
  {
    var t := TrendRow(x, waktu);
    assert multiset(hours)[t.row] > 0;
    assert multiset(RentByHourTrend(hours))[t] > 0;
  }

  lemma TrendDrops(hours: seq<HourRow>, x: HourRow)
    requires !(6 <= x.jam <= 9) && !(18 <= x.jam <= 21)
    ensures forall t :: t in RentByHourTrend(hours) ==> t.row != x
  {
    TrendWindows(hours);
  }

  // ---------------------------------------------------------------------
  // get_weather_impact
  // ---------------------------------------------------------------------

  /** The day rows keyed by weather code. */
  function ByWeather(days: seq<DayRow>): seq<Keyed<int>> {
    Project(days, DayWeather, DayCounts)
  }

  /** The dictionary given to `Series.map`; a code outside it maps to a
      missing value. */
  function WeatherLabel(code: int): (r: Option<string>)
    ensures r.Some? <==> 1 <= code <= 4
  {
    if code == 1 then Some("Cerah")
    else if code == 2 then Some("Berawan")
    else if code == 3 then Some("Hujan Ringan")
    else if code == 4 then Some("Hujan Lebat")
    else None
  }

  /** No two codes of the dictionary share a label. */
  lemma WeatherLabelInjective(a: int, b: int)
    requires WeatherLabel(a).Some? && WeatherLabel(a) == WeatherLabel(b)
    ensures a == b
  {
  }

  /** A row of the weather table: the label that replaced the code, and the
      three means. */
  datatype WeatherRow = WeatherRow(weathersit: Option<string>, means: Means)

  /** `weather_impact['weathersit'] = weather_impact['weathersit'].map({...})`:
      the means stay, each code gives way to its label, and rows of distinct
      known codes stay distinguishable. */
  function Relabel(avgs: seq<Averaged<int>>): (r: seq<WeatherRow>)
    ensures |r| == |avgs|
    ensures forall i :: 0 <= i < |r| ==> r[i].means == avgs[i].means
    ensures forall i :: 0 <= i < |r| ==> (r[i].weathersit.Some? <==> 1 <= avgs[i].key <= 4)
    ensures forall i, j :: 0 <= i < |r| && 0 <= j < |r| && avgs[i].key != avgs[j].key && r[i].weathersit.Some? ==>
              r[i].weathersit != r[j].weathersit
  {
    seq(|avgs|, i requires 0 <= i < |avgs| => WeatherRow(WeatherLabel(avgs[i].key), avgs[i].means))
  }

  /** `get_weather_impact`: the means per weather code, codes ascending, with
      each code replaced by its label (see WeatherRowSource). When every
      code is in the dictionary, no label is missing. */
  function WeatherImpact(days: seq<DayRow>): (r: seq<WeatherRow>)
    ensures (forall d :: d in days ==> 1 <= d.weathersit <= 4) ==> forall w :: w in r ==> w.weathersit.Some?
  {
    IntLessIsStrictTotal();
    var avgs := GroupMeans(ByWeather(days), IntLess);
    WeatherCodesKnown(days, avgs);
    Relabel(avgs)
  }

  lemma WeatherCodesKnown(days: seq<DayRow>, avgs: seq<Averaged<int>>)
    requires StrictTotalOrder(IntLess)
    requires avgs == GroupMeans(ByWeather(days), IntLess)
    ensures (forall d :: d in days ==> 1 <= d.weathersit <= 4) ==>
              forall w :: w in Relabel(avgs) ==> w.weathersit.Some?
  {
    if forall d :: d in days ==> 1 <= d.weathersit <= 4 {
      forall w | w in Relabel(avgs)
        ensures w.weathersit.Some?
      {
        var i :| 0 <= i < |Relabel(avgs)| && Relabel(avgs)[i] == w;
        WeatherRowCode(days, avgs, i);
      }
    }
  }

  /** Where a grouped row's code comes from: a day with that code. */
  lemma WeatherRowCode(days: seq<DayRow>, avgs: seq<Averaged<int>>, i: nat)
    requires StrictTotalOrder(IntLess)
    requires avgs == GroupMeans(ByWeather(days), IntLess)
    requires i < |avgs|
    ensures exists d :: d in days && d.weathersit == avgs[i].key
    ensures CountWhere(ByWeather(days), avgs[i].key) > 0
    ensures IsMean(avgs[i].means, SumWhere(ByWeather(days), avgs[i].key), CountWhere(ByWeather(days), avgs[i].key))
  {
    assert avgs[i] in avgs;
    CountWherePositive(ByWeather(days), avgs[i].key);
    ProjectKeySet(days, DayWeather, DayCounts);
  }

  /** Each row of the weather table carries the label of a code that some
      filtered day has, and the means over the days with that code. */
  lemma WeatherRowSource(days: seq<DayRow>, i: nat) returns (code: int)
    requires i < |WeatherImpact(days)|
    ensures WeatherImpact(days)[i].weathersit == WeatherLabel(code)
    ensures exists d :: d in days && d.weathersit == code
    ensures CountWhere(ByWeather(days), code) > 0
    ensures IsMean(WeatherImpact(days)[i].means, SumWhere(ByWeather(days), code), CountWhere(ByWeather(days), code))
  {
    IntLessIsStrictTotal();
    var avgs := GroupMeans(ByWeather(days), IntLess);
    WeatherRowCode(days, avgs, i);
    code := avgs[i].key;
  }

  /** The codes of the grouped weather rows, in row order. */
  function Codes(avgs: seq<Averaged<int>>): (r: seq<int>)
    ensures |r| == |avgs| && forall i :: 0 <= i < |r| ==> r[i] == avgs[i].key
  {
    seq(|avgs|, i requires 0 <= i < |avgs| => avgs[i].key)
  }

  /** The grouped codes are strictly ascending and exactly the days' codes. */
  lemma WeatherCodesExact(days: seq<DayRow>, avgs: seq<Averaged<int>>)
    requires StrictTotalOrder(IntLess)
    requires avgs == GroupMeans(ByWeather(days), IntLess)
    ensures forall i, j :: 0 <= i < j < |Codes(avgs)| ==> Codes(avgs)[i] < Codes(avgs)[j]
    ensures forall c :: c in Codes(avgs) <==> exists d :: d in days && d.weathersit == c
  {
    GroupMeansKeys(ByWeather(days), IntLess);
    WeatherCodesAscending(avgs);
    WeatherCodesSound(days, avgs);
    WeatherCodesComplete(days, avgs);
  }

  lemma WeatherCodesAscending(avgs: seq<Averaged<int>>)
    requires forall i, j :: 0 <= i < j < |avgs| ==> IntLess(avgs[i].key, avgs[j].key)
    ensures forall i, j :: 0 <= i < j < |Codes(avgs)| ==> Codes(avgs)[i] < Codes(avgs)[j]
  {
  }

  lemma WeatherCodesSound(days: seq<DayRow>, avgs: seq<Averaged<int>>)
    requires forall a :: a in avgs ==> a.key in KeySet(ByWeather(days))
    ensures forall c :: c in Codes(avgs) ==> exists d :: d in days && d.weathersit == c
  {
    var codes := Codes(avgs);
    ProjectKeySet(days, DayWeather, DayCounts);
    forall c | c in codes
      ensures exists d :: d in days && d.weathersit == c
    {
      var i :| 0 <= i < |codes| && codes[i] == c;
      assert avgs[i] in avgs;
      assert exists d :: d in days && DayWeather(d) == c;
    }
  }

  lemma WeatherCodesComplete(days: seq<DayRow>, avgs: seq<Averaged<int>>)
    requires forall k :: k in KeySet(ByWeather(days)) ==> exists a :: a in avgs && a.key == k
    ensures forall c :: (exists d :: d in days && d.weathersit == c) ==> c in Codes(avgs)
  {
    var codes := Codes(avgs);
    ProjectKeySet(days, DayWeather, DayCounts);
    forall c | exists d :: d in days && d.weathersit == c
      ensures c in codes
    {
      var d :| d in days && d.weathersit == c;
      assert c in KeySet(ByWeather(days)) by {
        assert DayWeather(d) == c;
      }
      var a :| a in avgs && a.key == c;
      var i :| 0 <= i < |avgs| && avgs[i] == a;
      assert codes[i] == c;
    }
  }

  /** The codes behind the weather table, row by row: strictly ascending
      (`groupby` sorts its keys), exactly the codes the days have, and each
      row holds its code's label and its code's means. */
  lemma WeatherRowCodes(days: seq<DayRow>) returns (codes: seq<int>)
    ensures |codes| == |WeatherImpact(days)|
    ensures forall i, j :: 0 <= i < j < |codes| ==> codes[i] < codes[j]
    ensures forall c :: c in codes <==> exists d :: d in days && d.weathersit == c
    ensures forall i :: 0 <= i < |codes| ==> WeatherImpact(days)[i].weathersit == WeatherLabel(codes[i])
    ensures forall i :: 0 <= i < |codes| ==>
              && CountWhere(ByWeather(days), codes[i]) > 0
              && IsMean(WeatherImpact(days)[i].means, SumWhere(ByWeather(days), codes[i]),
                        CountWhere(ByWeather(days), codes[i]))
  {
    IntLessIsStrictTotal();
    var avgs := GroupMeans(ByWeather(days), IntLess);
    var w := Relabel(avgs);
    assert WeatherImpact(days) == w;
    codes := Codes(avgs);
    WeatherCodesExact(days, avgs);
    forall i | 0 <= i < |codes|
      ensures w[i].weathersit == WeatherLabel(codes[i])
      ensures CountWhere(ByWeather(days), codes[i]) > 0
      ensures IsMean(w[i].means, SumWhere(ByWeather(days), codes[i]), CountWhere(ByWeather(days), codes[i]))
    {
      WeatherRowCode(days, avgs, i);
    }
  }

  /** Every weather code among the days has a row carrying its label, and
      no two rows carry the same label: one row per known code. */
  lemma WeatherCodesCovered(days: seq<DayRow>)
    ensures forall d :: d in days ==>
              exists i :: 0 <= i < |WeatherImpact(days)| && WeatherImpact(days)[i].weathersit == WeatherLabel(d.weathersit)
    ensures forall i, j :: 0 <= i < j < |WeatherImpact(days)| && WeatherImpact(days)[i].weathersit.Some? ==>
              WeatherImpact(days)[i].weathersit != WeatherImpact(days)[j].weathersit
  {
    var codes := WeatherRowCodes(days);
    WeatherRowFor(days, codes, WeatherImpact(days));
    WeatherLabelsDistinct(days, codes);
  }

  lemma WeatherRowFor(days: seq<DayRow>, codes: seq<int>, w: seq<WeatherRow>)
    requires |codes| == |w|
    requires forall c :: c in codes <==> exists d :: d in days && d.weathersit == c
    requires forall i :: 0 <= i < |codes| ==> w[i].weathersit == WeatherLabel(codes[i])
    ensures forall d :: d in days ==> exists i :: 0 <= i < |w| && w[i].weathersit == WeatherLabel(d.weathersit)
  {
    forall d | d in days
      ensures exists i :: 0 <= i < |w| && w[i].weathersit == WeatherLabel(d.weathersit)
    {
      assert d.weathersit in codes;
      var i :| 0 <= i < |codes| && codes[i] == d.weathersit;
      assert w[i].weathersit == WeatherLabel(d.weathersit);
    }
  }

  lemma WeatherLabelsDistinct(days: seq<DayRow>, codes: seq<int>)
    requires |codes| == |WeatherImpact(days)|
    requires forall i, j :: 0 <= i < j < |codes| ==> codes[i] < codes[j]
    requires forall i :: 0 <= i < |codes| ==> WeatherImpact(days)[i].weathersit == WeatherLabel(codes[i])
    ensures forall i, j :: 0 <= i < j < |WeatherImpact(days)| && WeatherImpact(days)[i].weathersit.Some? ==>
              WeatherImpact(days)[i].weathersit != WeatherImpact(days)[j].weathersit
  {
    var w := WeatherImpact(days);
    forall i, j | 0 <= i < j < |w| && w[i].weathersit.Some?
      ensures w[i].weathersit != w[j].weathersit
    {
      WeatherLabelsDiffer(codes[i], codes[j]);
    }
  }

  /** Distinct codes of the dictionary have distinct labels. */
  lemma WeatherLabelsDiffer(a: int, b: int)
    requires a != b && WeatherLabel(a).Some?
    ensures WeatherLabel(a) != WeatherLabel(b)
  {
  }

  // ---------------------------------------------------------------------
  // get_season_analysis
  // ---------------------------------------------------------------------

  /** The day rows keyed by season. */
  function BySeason(days: seq<DayRow>): seq<Keyed<string>> {
    Project(days, DaySeason, DayCounts)
  }

  /** `get_season_analysis`: one row per season that occurs, seasons in
      Python's string order, each column the season's mean. */
  function SeasonAnalysis(days: seq<DayRow>): (r: seq<Averaged<string>>)
    ensures forall i, j :: 0 <= i < j < |r| ==> StrLess(r[i].key, r[j].key)
    ensures forall a :: a in r ==> exists d :: d in days && d.musim == a.key
    ensures forall d :: d in days ==> exists a :: a in r && a.key == d.musim
    ensures forall a :: a in r ==>
              && CountWhere(BySeason(days), a.key) > 0
              && IsMean(a.means, SumWhere(BySeason(days), a.key), CountWhere(BySeason(days), a.key))
  {
    StrLessIsStrictTotal();
    var r := GroupMeans(BySeason(days), StrLess);
    SeasonKeys(days, r);
    r
  }

  lemma SeasonKeys(days: seq<DayRow>, r: seq<Averaged<string>>)
    requires StrictTotalOrder(StrLess)
    requires r == GroupMeans(BySeason(days), StrLess)
    ensures forall i, j :: 0 <= i < j < |r| ==> StrLess(r[i].key, r[j].key)
    ensures forall a :: a in r ==> exists d :: d in days && d.musim == a.key
    ensures forall d :: d in days ==> exists a :: a in r && a.key == d.musim
  {
    GroupMeansKeys(BySeason(days), StrLess);
    ProjectKeySet(days, DaySeason, DayCounts);
    forall a | a in r
      ensures exists d :: d in days && d.musim == a.key
    {
      assert exists d :: d in days && DaySeason(d) == a.key;
    }
    forall d | d in days
      ensures exists a :: a in r && a.key == d.musim
    {
      assert d.musim in KeySet(BySeason(days)) by {
        assert DaySeason(d) == d.musim;
      }
    }
  }
}
