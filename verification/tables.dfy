/** The two cleaned tables the dashboard loads (one row per day, one row per
    hour), the three count columns they share, and the column sums every
    aggregation is specified against. */
module Tables {

  datatype Option<T> = None | Some(value: T)

  /** The columns 'Total Penyewa', 'non aktif' and 'aktif' of either table. */
  datatype Counts = Counts(total: int, nonAktif: int, aktif: int)

  const Zero: Counts := Counts(0, 0, 0)

  function Add(a: Counts, b: Counts): Counts {
    Counts(a.total + b.total, a.nonAktif + b.nonAktif, a.aktif + b.aktif)
  }

  /** The invariant the upstream cleaning establishes on every row: each
      renter is either non-active or active. Nothing here checks it. */
  predicate Balanced(c: Counts) {
    c.total == c.nonAktif + c.aktif
  }

  /** A row of the day table. Dates are integers in calendar order (day
      numbers, say): the semi-join on dates uses only their equality, and the
      daily group-by sorts by them. */
  datatype DayRow = DayRow(dteday: int, musim: string, weathersit: int, counts: Counts)

  /** A row of the hour table; `jam` is the hour of the day. */
  datatype HourRow = HourRow(dteday: int, jam: int, counts: Counts)

  function DayDate(d: DayRow): int { d.dteday }
  function DaySeason(d: DayRow): string { d.musim }
  function DayWeather(d: DayRow): int { d.weathersit }
  function DayCounts(d: DayRow): Counts { d.counts }
  function HourJam(h: HourRow): int { h.jam }
  function HourCounts(h: HourRow): Counts { h.counts }

  /** A grouping key with the three count columns: both the selection
      `table[[key, 'Total Penyewa', 'non aktif', 'aktif']]` that a group-by
      works on and a row of what `groupby(key).sum().reset_index()` returns. */
  datatype Keyed<K> = Keyed(key: K, counts: Counts)

  /** The key column and the three count columns of a table, row by row. */
  function Project<R, K>(rows: seq<R>, key: R -> K, counts: R -> Counts): seq<Keyed<K>> {
    seq(|rows|, i requires 0 <= i < |rows| => Keyed(key(rows[i]), counts(rows[i])))
  }

  /** The distinct keys that occur in a keyed table. */
  function KeySet<K>(s: seq<Keyed<K>>): set<K> {
    if s == [] then {} else {s[0].key} + KeySet(s[1..])
  }

  /** Column sums over the whole table. */
  function SumCounts<K>(s: seq<Keyed<K>>): Counts {
    if s == [] then Zero else Add(s[0].counts, SumCounts(s[1..]))
  }

  /** Column sums over the rows whose key is `k`. */
  function SumWhere<K(==)>(s: seq<Keyed<K>>, k: K): Counts {
    if s == [] then Zero
    else if s[0].key == k then Add(s[0].counts, SumWhere(s[1..], k))
    else SumWhere(s[1..], k)
  }

  /** Number of rows whose key is `k`. */
  function CountWhere<K(==)>(s: seq<Keyed<K>>, k: K): nat {
    if s == [] then 0
    else (if s[0].key == k then 1 else 0) + CountWhere(s[1..], k)
  }

  lemma {:induction false} KeySetIndex<K>(s: seq<Keyed<K>>, k: K)
    ensures k in KeySet(s) <==> exists i :: 0 <= i < |s| && s[i].key == k
  {
    if s != [] {
      KeySetIndex(s[1..], k);
      if k in KeySet(s[1..]) {
        var i :| 0 <= i < |s[1..]| && s[1..][i].key == k;
        assert s[i + 1].key == k;
      }
      if exists i :: 0 <= i < |s| && s[i].key == k {
        var i :| 0 <= i < |s| && s[i].key == k;
        if i > 0 {
          assert s[1..][i - 1].key == k;
        }
      }
    }
  }

  lemma KeySetMember<K>(s: seq<Keyed<K>>, k: K)
    ensures k in KeySet(s) <==> exists x :: x in s && x.key == k
  {
    KeySetIndex(s, k);
  }

  lemma {:induction false} SumWhereAbsent<K>(s: seq<Keyed<K>>, k: K)
    requires k !in KeySet(s)
    ensures SumWhere(s, k) == Zero
    ensures CountWhere(s, k) == 0
  {
    if s != [] {
      SumWhereAbsent(s[1..], k);
    }
  }

  lemma {:induction false} CountWherePositive<K>(s: seq<Keyed<K>>, k: K)
    ensures CountWhere(s, k) > 0 <==> k in KeySet(s)
  {
    if s != [] {
      CountWherePositive(s[1..], k);
    }
  }

  lemma AddZero(c: Counts)
    ensures Add(Zero, c) == c && Add(c, Zero) == c
  {
  }

  lemma {:induction false} SumWhereConcat<K>(a: seq<Keyed<K>>, b: seq<Keyed<K>>, k: K)
    ensures SumWhere(a + b, k) == Add(SumWhere(a, k), SumWhere(b, k))
  {
    if a == [] {
      assert a + b == b;
      AddZero(SumWhere(b, k));
    } else {
      var ab := a + b;
      assert ab[0] == a[0];
      assert ab[1..] == a[1..] + b;
      SumWhereConcat(a[1..], b, k);
    }
  }

  lemma {:induction false} CountWhereConcat<K>(a: seq<Keyed<K>>, b: seq<Keyed<K>>, k: K)
    ensures CountWhere(a + b, k) == CountWhere(a, k) + CountWhere(b, k)
  {
    if a == [] {
      assert a + b == b;
    } else {
      var ab := a + b;
      assert ab[0] == a[0];
      assert ab[1..] == a[1..] + b;
      CountWhereConcat(a[1..], b, k);
    }
  }

  /** The keys of a projected table are exactly the key values of its rows. */
  lemma ProjectKeySet<R, K>(rows: seq<R>, key: R -> K, counts: R -> Counts)
    ensures forall k :: k in KeySet(Project(rows, key, counts)) <==> exists x :: x in rows && key(x) == k
  {
    var p := Project(rows, key, counts);
    forall k
      ensures k in KeySet(p) <==> exists x :: x in rows && key(x) == k
    {
      KeySetIndex(p, k);
      if exists x :: x in rows && key(x) == k {
        var x :| x in rows && key(x) == k;
        var i :| 0 <= i < |rows| && rows[i] == x;
        assert p[i].key == k;
      }
    }
  }

  /** Column sums over a table of any row type. */
  function SumRows<R>(rows: seq<R>, counts: R -> Counts): Counts {
    if rows == [] then Zero else Add(counts(rows[0]), SumRows(rows[1..], counts))
  }

  /** Projecting onto any key keeps the column totals. */
  lemma {:induction false} ProjectSum<R, K>(rows: seq<R>, key: R -> K, counts: R -> Counts)
    ensures SumCounts(Project(rows, key, counts)) == SumRows(rows, counts)
  {
    if rows != [] {
      assert Project(rows, key, counts)[1..] == Project(rows[1..], key, counts);
      ProjectSum(rows[1..], key, counts);
    }
  }

  /** Sums of balanced rows are balanced: the per-row identity
      total = non-active + active survives every grouping. */
  lemma {:induction false} SumWhereBalanced<K>(s: seq<Keyed<K>>, k: K)
    requires forall x :: x in s ==> Balanced(x.counts)
    ensures Balanced(SumWhere(s, k))
    ensures Balanced(SumCounts(s))
  {
    if s != [] {
      assert s[0] in s;
      SumWhereBalanced(s[1..], k);
    }
  }
}
