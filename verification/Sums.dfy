/** Sums of the values of a finite map. */
module Sums {

  ghost function MapSum<K>(m: map<K, nat>): nat
    decreases |m|
  {
    if m == map[] then 0 else
      var k :| k in m;
      m[k] + MapSum(m - {k})
  }

  /** The sum does not depend on the order in which entries are taken. */
  lemma {:induction false} MapSumRemove<K>(m: map<K, nat>, k: K)
    requires k in m
    ensures MapSum(m) == m[k] + MapSum(m - {k})
    decreases |m|
  {
    var j :| j in m && MapSum(m) == m[j] + MapSum(m - {j});
    if j != k {
      MapSumRemove(m - {j}, k);
      MapSumRemove(m - {k}, j);
      assert (m - {j}) - {k} == (m - {k}) - {j};
    }
  }

  lemma MapSumUpdate<K>(m: map<K, nat>, k: K, v: nat)
    ensures MapSum(m[k := v]) == MapSum(m) - (if k in m then m[k] else 0) + v
  {
    MapSumRemove(m[k := v], k);
    assert m[k := v] - {k} == m - {k};
    if k in m {
      MapSumRemove(m, k);
    } else {
      assert m - {k} == m;
    }
  }

  lemma {:induction false} MapSumUnion<K>(a: map<K, nat>, b: map<K, nat>)
    requires a.Keys !! b.Keys
    ensures MapSum(a + b) == MapSum(a) + MapSum(b)
    decreases |a|
  {
    if a == map[] {
      assert a + b == b;
    } else {
      var k :| k in a;
      var c := a - {k};
      assert |c| < |a| && c.Keys !! b.Keys;
      MapSumUnion(c, b);
      MapSumRemove(a, k);
      assert k !in b && k in a + b;
      RemoveFromUnion(a, b, k);
      MapSumRemove(a + b, k);
    }
  }

  lemma RemoveFromUnion<K>(a: map<K, nat>, b: map<K, nat>, k: K)
    requires k in a && k !in b
    ensures (a + b) - {k} == (a - {k}) + b
    ensures (a + b)[k] == a[k]
  {
  }

  lemma {:induction false} MapSumBound<K>(m: map<K, nat>, k: K)
    requires k in m
    ensures m[k] <= MapSum(m)
  {
    MapSumRemove(m, k);
  }

  /** Two different entries fit in the sum together. */
  lemma MapSumTwo<K>(m: map<K, nat>, j: K, k: K)
    requires j in m && k in m && j != k
    ensures m[j] + m[k] <= MapSum(m)
  {
    MapSumRemove(m, j);
    MapSumBound(m - {j}, k);
  }
}
