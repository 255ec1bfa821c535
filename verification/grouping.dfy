/** `groupby(key)[['Total Penyewa', 'non aktif', 'aktif']].sum()` and
    `.mean()`, with pandas' default `sort=True`: one row per distinct key, in
    ascending key order. Every aggregation of the dashboard is one of these
    two on a different key column. */
module Grouping {
  import opened Tables
  import opened Ordering

  /** Keys strictly ascending: sorted and free of duplicates. */
  ghost predicate StrictlyAscending<K>(s: seq<Keyed<K>>, less: (K, K) -> bool) {
    forall i, j :: 0 <= i < j < |s| ==> less(s[i].key, s[j].key)
  }

  /** Adds one row into a grouped table: onto the group of its key when
      there is one, otherwise as a new group at its place in key order. */
  function Insert<K(==,!new)>(groups: seq<Keyed<K>>, x: Keyed<K>, less: (K, K) -> bool): (r: seq<Keyed<K>>)
    requires StrictTotalOrder(less)
    requires StrictlyAscending(groups, less)
    ensures StrictlyAscending(r, less)
    ensures KeySet(r) == KeySet(groups) + {x.key}
    ensures forall k :: SumWhere(r, k) == SumWhere([x] + groups, k)
    ensures SumCounts(r) == Add(x.counts, SumCounts(groups))
    decreases |groups|
  {
    if groups == [] then [x]
    else if x.key == groups[0].key then [Keyed(x.key, Add(x.counts, groups[0].counts))] + groups[1..]
    else if less(x.key, groups[0].key) then
      HeadBelow(groups, less);
      AscendingCons(x, groups, less);
      [x] + groups
    else
      var rest := Insert(groups[1..], x, less);
      HeadBelow(groups, less);
      AscendingCons(groups[0], rest, less);
      [groups[0]] + rest
  }

  /** A row whose key is below every key of an ascending table can be put
      in front of it. */
  lemma AscendingCons<K(!new)>(x: Keyed<K>, s: seq<Keyed<K>>, less: (K, K) -> bool)
    requires StrictTotalOrder(less)
    requires StrictlyAscending(s, less)
    requires forall k :: k in KeySet(s) ==> less(x.key, k)
    ensures StrictlyAscending([x] + s, less)
  {
    var t := [x] + s;
    forall i, j | 0 <= i < j < |t|
      ensures less(t[i].key, t[j].key)
    {
      if i == 0 {
        KeySetIndex(s, t[j].key);
        assert s[j - 1].key == t[j].key;
      } else {
        assert t[i] == s[i - 1] && t[j] == s[j - 1];
      }
    }
  }

  /** The first key of an ascending table is below all the others. */
  lemma HeadBelow<K(!new)>(s: seq<Keyed<K>>, less: (K, K) -> bool)
    requires StrictlyAscending(s, less)
    requires s != []
    ensures forall k :: k in KeySet(s[1..]) ==> less(s[0].key, k)
    ensures StrictlyAscending(s[1..], less)
  {
    forall k | k in KeySet(s[1..])
      ensures less(s[0].key, k)
    {
      KeySetIndex(s[1..], k);
      var i :| 0 <= i < |s[1..]| && s[1..][i].key == k;
      assert s[i + 1].key == k;
    }
  }

  /** The grouped sums: one row per distinct key, keys ascending. */
  function GroupSums<K(==,!new)>(rows: seq<Keyed<K>>, less: (K, K) -> bool): (r: seq<Keyed<K>>)
    requires StrictTotalOrder(less)
    ensures StrictlyAscending(r, less)
    ensures KeySet(r) == KeySet(rows)
    ensures forall k :: SumWhere(r, k) == SumWhere(rows, k)
    ensures SumCounts(r) == SumCounts(rows)
  {
    if rows == [] then []
    else
      var r := Insert(GroupSums(rows[1..], less), rows[0], less);
      assert rows == [rows[0]] + rows[1..];
      r
  }

  /** In a table without duplicate keys, a row's counts are the sums for
      its key. */
  lemma {:induction false} AscendingSumWhere<K(!new)>(s: seq<Keyed<K>>, g: Keyed<K>, less: (K, K) -> bool)
    requires StrictTotalOrder(less)
    requires StrictlyAscending(s, less)
    requires g in s
    ensures g.counts == SumWhere(s, g.key)
    ensures CountWhere(s, g.key) == 1
  {
    HeadBelow(s, less);
    if g == s[0] {
      SumWhereAbsent(s[1..], g.key);
      AddZero(g.counts);
    } else {
      assert g in s[1..];
      KeySetMember(s[1..], g.key);
      AscendingSumWhere(s[1..], g, less);
    }
  }

  /** Every grouped row holds the column sums of exactly the input rows
      with its key. */
  lemma GroupSumsExact<K(!new)>(rows: seq<Keyed<K>>, less: (K, K) -> bool)
    requires StrictTotalOrder(less)
    ensures forall g :: g in GroupSums(rows, less) ==>
      g.key in KeySet(rows) && g.counts == SumWhere(rows, g.key)
  {
    var r := GroupSums(rows, less);
    forall g | g in r
      ensures g.key in KeySet(rows) && g.counts == SumWhere(rows, g.key)
    {
      AscendingSumWhere(r, g, less);
      KeySetMember(r, g.key);
    }
  }

  /** Grouping keeps the row identity total = non-active + active. */
  lemma GroupSumsBalanced<K(!new)>(rows: seq<Keyed<K>>, less: (K, K) -> bool)
    requires StrictTotalOrder(less)
    requires forall x :: x in rows ==> Balanced(x.counts)
    ensures forall g :: g in GroupSums(rows, less) ==> Balanced(g.counts)
  {
    GroupSumsExact(rows, less);
    forall g | g in GroupSums(rows, less)
      ensures Balanced(g.counts)
    {
      SumWhereBalanced(rows, g.key);
    }
  }

  /** An ascending table is determined by its keys and its per-key sums. */
  lemma {:induction false} AscendingUnique<K(!new)>(r1: seq<Keyed<K>>, r2: seq<Keyed<K>>, less: (K, K) -> bool)
    requires StrictTotalOrder(less)
    requires StrictlyAscending(r1, less) && StrictlyAscending(r2, less)
    requires KeySet(r1) == KeySet(r2)
    requires forall k :: SumWhere(r1, k) == SumWhere(r2, k)
    ensures r1 == r2
    decreases |r1|
  {
    if r1 == [] {
    } else {
      assert r1[0].key in KeySet(r1);
      assert r2 != [];
      HeadBelow(r1, less);
      HeadBelow(r2, less);
      var a, b := r1[0].key, r2[0].key;
      assert a == b;
      AscendingSumWhere(r1, r1[0], less);
      AscendingSumWhere(r2, r2[0], less);
      var t1, t2 := r1[1..], r2[1..];
      assert r1 == [r1[0]] + t1 && r2 == [r2[0]] + t2;
      assert a !in KeySet(t1) && a !in KeySet(t2);
      forall k
        ensures SumWhere(t1, k) == SumWhere(t2, k)
      {
        if k == a {
          SumWhereAbsent(t1, k);
          SumWhereAbsent(t2, k);
        } else {
          assert SumWhere(r1, k) == SumWhere(r2, k);
        }
      }
      AscendingUnique(t1, t2, less);
    }
  }

  /** Taking one row out of a table takes its counts out of the sums. */
  lemma SumWhereRemove<K>(b: seq<Keyed<K>>, i: nat, k: K)
    requires i < |b|
    ensures SumWhere(b, k) == Add(SumWhere([b[i]], k), SumWhere(b[..i] + b[i + 1..], k))
  {
    assert b == b[..i] + b[i..];
    assert b[i..] == [b[i]] + b[i + 1..];
    SumWhereConcat(b[..i], b[i..], k);
    SumWhereConcat([b[i]], b[i + 1..], k);
    SumWhereConcat(b[..i], b[i + 1..], k);
  }

  lemma MultisetRemove<T>(b: seq<T>, i: nat)
    requires i < |b|
    ensures multiset(b[..i] + b[i + 1..]) == multiset(b) - multiset{b[i]}
  {
    assert b == b[..i] + [b[i]] + b[i + 1..];
  }

  /** Reordering the input rows does not change the sums for any key. */
  lemma {:induction false} SumWherePermutation<K>(a: seq<Keyed<K>>, b: seq<Keyed<K>>, k: K)
    requires multiset(a) == multiset(b)
    ensures SumWhere(a, k) == SumWhere(b, k)
    decreases |a|
  {
    if a == [] {
      assert |b| == |multiset(b)| == 0;
    } else {
      var x, a' := a[0], a[1..];
      assert a == [x] + a';
      assert x in multiset(b);
      var i :| 0 <= i < |b| && b[i] == x;
      var b' := b[..i] + b[i + 1..];
      assert multiset(a') == multiset(b') by {
        MultisetRemove(b, i);
      }
      SumWherePermutation(a', b', k);
      SumWhereConcat([x], a', k);
      SumWhereRemove(b, i, k);
    }
  }

  /** Reordering the input rows changes nothing in the grouped table. */
  lemma GroupSumsPermutation<K(!new)>(a: seq<Keyed<K>>, b: seq<Keyed<K>>, less: (K, K) -> bool)
    requires StrictTotalOrder(less)
    requires multiset(a) == multiset(b)
    ensures GroupSums(a, less) == GroupSums(b, less)
  {
    forall k
      ensures k in KeySet(a) <==> k in KeySet(b)
    {
      KeySetMember(a, k);
      KeySetMember(b, k);
      if k in KeySet(a) {
        var x :| x in a && x.key == k;
        assert x in multiset(a);
        assert x in b;
      }
      if k in KeySet(b) {
        var x :| x in b && x.key == k;
        assert x in multiset(b);
        assert x in a;
      }
    }
    forall k
      ensures SumWhere(a, k) == SumWhere(b, k)
    {
      SumWherePermutation(a, b, k);
    }
    AscendingUnique(GroupSums(a, less), GroupSums(b, less), less);
  }

  /** The three column means of a group, as exact reals. */
  datatype Means = Means(total: real, nonAktif: real, aktif: real)

  /** `m` holds the means of `n` rows whose column sums are `c`. */
  predicate IsMean(m: Means, c: Counts, n: nat) {
    && m.total * n as real == c.total as real
    && m.nonAktif * n as real == c.nonAktif as real
    && m.aktif * n as real == c.aktif as real
  }

  function MeanOf(c: Counts, n: nat): (m: Means)
    requires n > 0
    ensures IsMean(m, c, n)
  {
    Means(c.total as real / n as real, c.nonAktif as real / n as real, c.aktif as real / n as real)
  }

  /** A row of `groupby(key).mean().reset_index()`. */
  datatype Averaged<K> = Averaged(key: K, means: Means)

  /** Divides each group's sums by the number of input rows with its key. */
  function AverageGroups<K(==)>(groups: seq<Keyed<K>>, rows: seq<Keyed<K>>): (r: seq<Averaged<K>>)
    requires forall g :: g in groups ==> g.key in KeySet(rows)
    ensures |r| == |groups|
    ensures forall i :: 0 <= i < |r| ==>
      && r[i].key == groups[i].key
      && CountWhere(rows, r[i].key) > 0
      && IsMean(r[i].means, groups[i].counts, CountWhere(rows, r[i].key))
  {
    if groups == [] then []
    else
      var g := groups[0];
      CountWherePositive(rows, g.key);
      [Averaged(g.key, MeanOf(g.counts, CountWhere(rows, g.key)))] + AverageGroups(groups[1..], rows)
  }

  /** The grouped means: one row per distinct key, keys in the same
      ascending order as the grouped sums, each column the sum over the
      rows with that key divided by their number. */
  function GroupMeans<K(==,!new)>(rows: seq<Keyed<K>>, less: (K, K) -> bool): (r: seq<Averaged<K>>)
    requires StrictTotalOrder(less)
    ensures |r| == |GroupSums(rows, less)|
    ensures forall i :: 0 <= i < |r| ==> r[i].key == GroupSums(rows, less)[i].key
    ensures forall a :: a in r ==>
      && CountWhere(rows, a.key) > 0
      && IsMean(a.means, SumWhere(rows, a.key), CountWhere(rows, a.key))
  {
    GroupSumsExact(rows, less);
    AverageGroups(GroupSums(rows, less), rows)
  }

  /** The grouped means have one row per distinct key, keys ascending. */
  lemma GroupMeansKeys<K(!new)>(rows: seq<Keyed<K>>, less: (K, K) -> bool)
    requires StrictTotalOrder(less)
    ensures forall i, j :: 0 <= i < j < |GroupMeans(rows, less)| ==>
              less(GroupMeans(rows, less)[i].key, GroupMeans(rows, less)[j].key)
    ensures forall a :: a in GroupMeans(rows, less) ==> a.key in KeySet(rows)
    ensures forall k :: k in KeySet(rows) ==> exists a :: a in GroupMeans(rows, less) && a.key == k
  {
    var r := GroupMeans(rows, less);
    var groups := GroupSums(rows, less);
    forall a | a in r
      ensures a.key in KeySet(rows)
    {
      var i :| 0 <= i < |r| && r[i] == a;
      KeySetIndex(groups, a.key);
    }
    forall k | k in KeySet(rows)
      ensures exists a :: a in r && a.key == k
    {
      KeySetIndex(groups, k);
      var i :| 0 <= i < |groups| && groups[i].key == k;
      assert r[i] in r;
    }
  }

  /** The means of a table weighted by the sizes of their groups: the
      'Total Penyewa' column that the means stand for. */
  function WeightedTotal<K(==)>(avgs: seq<Averaged<K>>, rows: seq<Keyed<K>>): real {
    if avgs == [] then 0.0
    else avgs[0].means.total * CountWhere(rows, avgs[0].key) as real + WeightedTotal(avgs[1..], rows)
  }

  lemma {:induction false} AverageGroupsWeighted<K>(groups: seq<Keyed<K>>, rows: seq<Keyed<K>>)
    requires forall g :: g in groups ==> g.key in KeySet(rows)
    ensures WeightedTotal(AverageGroups(groups, rows), rows) == SumCounts(groups).total as real
  {
    if groups != [] {
      var r := AverageGroups(groups, rows);
      var rest := AverageGroups(groups[1..], rows);
      assert r[1..] == rest;
      var n := CountWhere(rows, groups[0].key);
      var w := r[0].means.total * n as real;
      assert w == groups[0].counts.total as real by {
        assert IsMean(r[0].means, groups[0].counts, n);
      }
      AverageGroupsWeighted(groups[1..], rows);
      assert WeightedTotal(r, rows) == w + WeightedTotal(rest, rows);
    }
  }

  /** Mean times group size, added over the groups, gives back the column
      total of the input: averaging loses no rental. */
  lemma GroupMeansWeighted<K(!new)>(rows: seq<Keyed<K>>, less: (K, K) -> bool)
    requires StrictTotalOrder(less)
    ensures WeightedTotal(GroupMeans(rows, less), rows) == SumCounts(rows).total as real
  {
    GroupSumsExact(rows, less);
    AverageGroupsWeighted(GroupSums(rows, less), rows);
  }
}
