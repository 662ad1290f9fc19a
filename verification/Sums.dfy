/** Sums over the values of a finite map: the meaning of a cached ledger aggregate. */
module Sums {
  ghost function SumOf<K, V>(m: map<K, V>, f: V -> int): int
    decreases |m|
  {
    if m == map[] then 0 else
      var k :| k in m;
      f(m[k]) + SumOf(m - {k}, f)
  }

  lemma {:induction false} SumRemove<K, V>(m: map<K, V>, f: V -> int, k: K)
    requires k in m
    ensures SumOf(m, f) == f(m[k]) + SumOf(m - {k}, f)
    decreases |m|
  {
    var x :| x in m && SumOf(m, f) == f(m[x]) + SumOf(m - {x}, f);
    if x != k {
      SumRemove(m - {x}, f, k);
      SumRemove(m - {k}, f, x);
      assert m - {x} - {k} == m - {k} - {x};
    }
  }

  /** Writing one key changes the sum by the difference at that key; an absent key counts as 0. */
  lemma SumUpdate<K, V>(m: map<K, V>, f: V -> int, k: K, v: V)
    ensures SumOf(m[k := v], f) == SumOf(m, f) + f(v) - (if k in m then f(m[k]) else 0)
  {
    var n := m[k := v];
    SumRemove(n, f, k);
    if k in m {
      SumRemove(m, f, k);
      assert n - {k} == m - {k};
    } else {
      assert n - {k} == m;
    }
  }
}
