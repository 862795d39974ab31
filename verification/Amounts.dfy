/** Sums over the amounts an object holds under its keys, whatever order the keys come in. */
module Amounts {

  ghost function SumOf<K>(m: map<K, real>): real {
    if m == map[] then 0.0
    else
      var k :| k in m;
      m[k] + SumOf(m - {k})
  }

  /** Any key may be taken out first. */
  lemma {:induction false} SumSplit<K>(m: map<K, real>, k: K)
    requires k in m
    ensures SumOf(m) == m[k] + SumOf(m - {k})
    decreases |m|
  {
    var j :| j in m && SumOf(m) == m[j] + SumOf(m - {j});
    if j != k {
      SumSplit(m - {j}, k);
      SumSplit(m - {k}, j);
      assert m - {j} - {k} == m - {k} - {j};
    }
  }

  lemma SumPut<K>(m: map<K, real>, k: K, v: real)
    ensures SumOf(m[k := v]) == SumOf(m) - (if k in m then m[k] else 0.0) + v
  {
    var m' := m[k := v];
    SumSplit(m', k);
    assert m' - {k} == m - {k};
    if k in m {
      SumSplit(m, k);
    } else {
      assert m - {k} == m;
    }
  }

  lemma SumDrop<K>(m: map<K, real>, k: K)
    ensures SumOf(m - {k}) == SumOf(m) - (if k in m then m[k] else 0.0)
  {
    if k in m {
      SumSplit(m, k);
    } else {
      assert m - {k} == m;
    }
  }

  function At<K>(m: map<K, real>, k: K): real {
    if k in m then m[k] else 0.0
  }

  /** More under every key is more in total; a missing key counts as zero. */
  lemma {:induction false} SumMonotone<K(!new)>(a: map<K, real>, b: map<K, real>)
    requires a.Keys <= b.Keys && forall k :: k in b ==> At(a, k) <= b[k]
    ensures SumOf(a) <= SumOf(b)
    decreases |b|
  {
    if b == map[] {
      assert a == map[];
    } else {
      var k :| k in b;
      SumMonotone(a - {k}, b - {k});
      SumSplit(b, k);
      SumDrop(a, k);
    }
  }

  /** If each amount is at most the sum of two others, so is the total. */
  lemma {:induction false} SumSubadditive<K(!new)>(m: map<K, real>, a: map<K, real>, b: map<K, real>)
    requires a.Keys <= m.Keys && b.Keys <= m.Keys && forall k :: k in m ==> m[k] <= At(a, k) + At(b, k)
    ensures SumOf(m) <= SumOf(a) + SumOf(b)
    decreases |m|
  {
    if m == map[] {
      assert a == map[] && b == map[];
    } else {
      var k :| k in m;
      SumSubadditive(m - {k}, a - {k}, b - {k});
      SumSplit(m, k);
      SumDrop(a, k);
      SumDrop(b, k);
    }
  }

  method Total<K>(m: map<K, real>) returns (total: real)
    ensures total == SumOf(m)
  {
    total := 0.0;
    var left := m;
    while left != map[]
      invariant total + SumOf(left) == SumOf(m)
      decreases |left|
    {
      var k :| k in left;
      SumSplit(left, k);
      total := total + left[k];
      left := left - {k};
    }
  }
}
