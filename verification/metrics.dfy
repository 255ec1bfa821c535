/** The three headline numbers above the charts (app.py lines 109, 117 and
    125). `np.mean` of an empty column is NaN; here it is `None`. */
module Metrics {
  import opened Tables

  /** `day_filtered['Total Penyewa'].sum()`: with no negative counts, at
      least every single day's rentals. */
  function TotalPenyewa(days: seq<DayRow>): (r: int)
    ensures (forall d :: d in days ==> d.counts.total >= 0) ==>
              r >= 0 && forall d :: d in days ==> d.counts.total <= r
  {
    TotalCoversEachDay(days);
    SumRows(days, DayCounts).total
  }

  lemma {:induction false} TotalCoversEachDay(days: seq<DayRow>)
    ensures (forall d :: d in days ==> d.counts.total >= 0) ==>
              SumRows(days, DayCounts).total >= 0 &&
              forall d :: d in days ==> d.counts.total <= SumRows(days, DayCounts).total
  {
    if days != [] {
      TotalCoversEachDay(days[1..]);
      assert forall d :: d in days[1..] ==> d in days;
      assert days[0] in days;
      assert forall d :: d in days ==> d == days[0] || d in days[1..];
    }
  }

  /** The total of a table split in two is the sum of the parts' totals. */
  lemma {:induction false} TotalPenyewaConcat(a: seq<DayRow>, b: seq<DayRow>)
    ensures TotalPenyewa(a + b) == TotalPenyewa(a) + TotalPenyewa(b)
  {
    if a == [] {
      assert a + b == b;
    } else {
      assert (a + b)[0] == a[0];
      assert (a + b)[1..] == a[1..] + b;
      TotalPenyewaConcat(a[1..], b);
    }
  }

  /** `np.mean(day_filtered['Total Penyewa'])`: the total spread evenly over
      the filtered days; undefined when there are none. */
  function MeanPenyewa(days: seq<DayRow>): (r: Option<real>)
    ensures r.Some? <==> |days| > 0
    ensures r.Some? ==> r.value * |days| as real == TotalPenyewa(days) as real
  {
    if |days| == 0 then None else Some(TotalPenyewa(days) as real / |days| as real)
  }

  /** Sum of the `Jam` column. */
  function SumJam(hours: seq<HourRow>): int {
    if hours == [] then 0 else hours[0].jam + SumJam(hours[1..])
  }

  /** `np.mean(hour_filtered['Jam'])` */
  function MeanJam(hours: seq<HourRow>): (r: Option<real>)
    ensures r.Some? <==> |hours| > 0
    ensures r.Some? ==> r.value * |hours| as real == SumJam(hours) as real
  {
    if |hours| == 0 then None else Some(SumJam(hours) as real / |hours| as real)
  }

  /** The mean hour lies within the hours that occur: with hours of the day
      between 0 and 23 it is between 0 and 23. */
  lemma {:induction false} SumJamBounds(hours: seq<HourRow>, lo: int, hi: int)
    requires forall h :: h in hours ==> lo <= h.jam <= hi
    ensures |hours| * lo <= SumJam(hours) <= |hours| * hi
  {
    if hours != [] {
      var n := |hours[1..]|;
      assert hours[0] in hours;
      assert forall h :: h in hours[1..] ==> h in hours;
      SumJamBounds(hours[1..], lo, hi);
      MulSucc(n, lo);
      MulSucc(n, hi);
    }
  }

  lemma MulSucc(n: int, x: int)
    ensures (n + 1) * x == n * x + x
  {
  }

  /** A mean lies between the bounds of what it averages. */
  lemma MeanBetween(m: real, n: real, total: real, lo: real, hi: real)
    requires n > 0.0 && m * n == total
    requires lo * n <= total <= hi * n
    ensures lo <= m <= hi
  {
    assert (m - lo) * n >= 0.0;
    assert (hi - m) * n >= 0.0;
  }

  lemma CastMul(x: int, y: int)
    ensures (x * y) as real == x as real * y as real
  {
  }

  lemma MeanJamBounds(hours: seq<HourRow>, lo: int, hi: int)
    requires |hours| > 0
    requires forall h :: h in hours ==> lo <= h.jam <= hi
    ensures lo as real <= MeanJam(hours).value <= hi as real
  {
    SumJamBounds(hours, lo, hi);
    CastMul(|hours|, lo);
    CastMul(|hours|, hi);
    MeanBetween(MeanJam(hours).value, |hours| as real, SumJam(hours) as real, lo as real, hi as real);
  }
}
