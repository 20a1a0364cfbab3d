/** Adding up the values of a map. */
module Sums {

  ghost function MapSum<K>(m: map<K, int>): int
    decreases |m|
  {
    if m == map[] then 0
    else
      var k :| k in m;
      assert |m - {k}| < |m| by { MapShrinks(m, k); }
      m[k] + MapSum(m - {k})
  }

  lemma MapShrinks<K>(m: map<K, int>, k: K)
    requires k in m
    ensures |m - {k}| < |m|
  {
    assert m == (m - {k})[k := m[k]];
    assert (m - {k}).Keys == m.Keys - {k};
    assert |m.Keys - {k}| < |m.Keys|;
    assert |m - {k}| == |(m - {k}).Keys| && |m| == |m.Keys|;
  }

  lemma {:induction false} SumOut<K>(m: map<K, int>, k: K)
    requires k in m
    ensures MapSum(m) == m[k] + MapSum(m - {k})
    decreases |m|
  {
    assert m != map[];
    var j :| j in m && MapSum(m) == m[j] + MapSum(m - {j});
    if j != k {
      MapShrinks(m, j);
      SumOut(m - {j}, k);
      MapShrinks(m, k);
      SumOut(m - {k}, j);
      assert m - {j} - {k} == m - {k} - {j};
    }
  }

  lemma SumPut<K>(m: map<K, int>, k: K, v: int)
    ensures k in m ==> MapSum(m[k := v]) == MapSum(m) - m[k] + v
    ensures k !in m ==> MapSum(m[k := v]) == MapSum(m) + v
  {
    SumOut(m[k := v], k);
    if k in m {
      SumOut(m, k);
      assert m[k := v] - {k} == m - {k};
    } else {
      assert m[k := v] - {k} == m;
    }
  }

  lemma {:induction false} SumNonNegative<K>(m: map<K, int>)
    requires forall p :: p in m ==> m[p] >= 0
    ensures MapSum(m) >= 0
    decreases |m|
  {
    if m != map[] {
      var j :| j in m && MapSum(m) == m[j] + MapSum(m - {j});
      MapShrinks(m, j);
      SumNonNegative(m - {j});
    }
  }
}
