/** Sums over the values of a map, independent of the order in which a hash
    table would enumerate them. */
module Folds {

  /** The sum of all values of `m`; which key is taken first does not matter
      (SumValuesRemove). */
  ghost function SumValues<K>(m: map<K, int>): int
    decreases |m|
  {
    if m == map[] then 0
    else
      var k :| k in m;
      m[k] + SumValues(m - {k})
  }

  lemma {:induction false} SumValuesRemove<K>(m: map<K, int>, k: K)
    requires k in m
    ensures SumValues(m) == m[k] + SumValues(m - {k})
    decreases |m|
  {
    assert m != map[];
    var j :| j in m && SumValues(m) == m[j] + SumValues(m - {j});
    if j != k {
      var mj, mk := m - {j}, m - {k};
      assert k in mj && j in mk;
      RemoveShrinks(m, j);
      RemoveShrinks(m, k);
      assert mj[k] == m[k] && mk[j] == m[j];
      SumValuesRemove(mj, k);
      SumValuesRemove(mk, j);
      var both := mj - {k};
      assert both == mk - {j};
      assert SumValues(mj) == m[k] + SumValues(both);
      assert SumValues(mk) == m[j] + SumValues(both);
    }
  }

  lemma RemoveShrinks<K>(m: map<K, int>, k: K)
    requires k in m
    ensures |m - {k}| == |m| - 1
  {
    assert (m - {k}).Keys == m.Keys - {k};
  }

  /** Adding a fresh key adds its value to the sum. */
  lemma SumValuesInsert<K>(m: map<K, int>, k: K, v: int)
    requires k !in m
    ensures SumValues(m[k := v]) == v + SumValues(m)
  {
    SumValuesRemove(m[k := v], k);
    assert m[k := v] - {k} == m;
  }

  /** Replacing the value of an existing key changes the sum by the difference. */
  lemma SumValuesUpdate<K>(m: map<K, int>, k: K, v: int)
    requires k in m
    ensures SumValues(m[k := v]) == SumValues(m) - m[k] + v
  {
    SumValuesRemove(m[k := v], k);
    SumValuesRemove(m, k);
    assert m[k := v] - {k} == m - {k};
  }

  /** Iterates over the keys of `m` in an unspecified order and adds up the
      values, as `values().sum()` does over a hash map. */
  method SumMap<K>(m: map<K, int>) returns (s: int)
    ensures s == SumValues(m)
  {
    var rest := m;
    s := 0;
    while |rest| > 0
      invariant s + SumValues(rest) == SumValues(m)
      decreases |rest|
    {
      var k :| k in rest;
      SumValuesRemove(rest, k);
      s := s + rest[k];
      rest := rest - {k};
    }
  }

  /** A map whose values are all non-negative has a non-negative sum. */
  lemma {:induction false} SumValuesNonNegative<K>(m: map<K, int>)
    requires forall k | k in m :: m[k] >= 0
    ensures SumValues(m) >= 0
    decreases |m|
  {
    if |m| > 0 {
      var k :| k in m;
      SumValuesRemove(m, k);
      SumValuesNonNegative(m - {k});
    }
  }
}
