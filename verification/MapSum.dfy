/** Sums over finite maps, independent of the order in which keys are visited. */
module MapSum {

  ghost function Total<K>(m: map<K, nat>): nat
    decreases |m|
  {
    if m == map[] then 0
    else
      var k :| k in m;
      ShrinkSize(m, k);
      m[k] + Total(m - {k})
  }

  lemma ShrinkSize<K, V>(m: map<K, V>, k: K)
    requires k in m
    ensures |m - {k}| == |m| - 1
  {
    assert (m - {k}).Keys == m.Keys - {k};
  }

  /** Any key may be taken out first. */
  lemma {:induction false} TotalRemove<K>(m: map<K, nat>, k: K)
    requires k in m
    ensures Total(m) == m[k] + Total(m - {k})
    decreases |m|
  {
    var c :| c in m && Total(m) == m[c] + Total(m - {c});
    if c != k {
      ShrinkSize(m, c);
      ShrinkSize(m, k);
      TotalRemove(m - {c}, k);
      TotalRemove(m - {k}, c);
      assert m - {c} - {k} == m - {k} - {c};
    }
  }

  lemma TotalAdd<K>(m: map<K, nat>, k: K, n: nat)
    requires k !in m
    ensures Total(m[k := n]) == Total(m) + n
  {
    TotalRemove(m[k := n], k);
    assert m[k := n] - {k} == m;
  }

  /** Two different keys contribute both their values. */
  lemma TotalPair<K>(m: map<K, nat>, j: K, k: K)
    requires j in m && k in m && j != k
    ensures m[j] + m[k] <= Total(m)
  {
    TotalRemove(m, j);
    TotalRemove(m - {j}, k);
  }

  lemma TotalAtLeast<K>(m: map<K, nat>, k: K)
    requires k in m
    ensures m[k] <= Total(m)
  {
    TotalRemove(m, k);
  }

  ghost function At<K>(m: map<K, nat>, k: K): nat {
    if k in m then m[k] else 0
  }

  /** Maps that agree off `k` have totals that differ by their values at `k`. */
  lemma TotalDiffer<K>(m: map<K, nat>, n: map<K, nat>, k: K)
    requires m - {k} == n - {k}
    ensures Total(m) + At(n, k) == Total(n) + At(m, k)
  {
    if k in m { TotalRemove(m, k); } else { assert m - {k} == m; }
    if k in n { TotalRemove(n, k); } else { assert n - {k} == n; }
  }
}
