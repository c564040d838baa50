/** Sums over the values of a finite map. */
module Totals {

  ghost function Total<K, V>(m: map<K, V>, weight: V -> nat): nat {
    if m == map[] then 0
    else
      var k :| k in m;
      weight(m[k]) + Total(m - {k}, weight)
  }

  lemma {:induction false} TotalSplits<K, V>(m: map<K, V>, weight: V -> nat, k: K)
    requires k in m
    ensures Total(m, weight) == weight(m[k]) + Total(m - {k}, weight)
    decreases m
  {
    var d :| d in m && Total(m, weight) == weight(m[d]) + Total(m - {d}, weight);
    if d != k {
      TotalSplits(m - {d}, weight, k);
      TotalSplits(m - {k}, weight, d);
      assert m - {d} - {k} == m - {k} - {d};
    }
  }

  lemma TotalGrows<K, V>(m: map<K, V>, weight: V -> nat, k: K, v: V)
    requires k !in m
    ensures Total(m[k := v], weight) == Total(m, weight) + weight(v)
  {
    TotalSplits(m[k := v], weight, k);
    assert m[k := v] - {k} == m;
  }

  lemma {:induction false} TotalOfBoth<K, V>(m: map<K, V>, n: map<K, V>, weight: V -> nat)
    requires m.Keys !! n.Keys
    ensures Total(m + n, weight) == Total(m, weight) + Total(n, weight)
    decreases n
  {
    if n == map[] {
      assert m + n == m;
    } else {
      var k :| k in n;
      assert (m + n) - {k} == m + (n - {k});
      TotalSplits(m + n, weight, k);
      TotalSplits(n, weight, k);
      TotalOfBoth(m, n - {k}, weight);
    }
  }
}
