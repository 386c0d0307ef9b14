/** Sums of an integer measure over the values of a finite map. */
module Sums {

  ghost function PickKey<K, V>(m: map<K, V>): (k: K)
    requires m != map[]
    ensures k in m
  {
    assert m.Keys != {};
    var k :| k in m.Keys; k
  }

  ghost function Sum<K, V>(m: map<K, V>, f: V -> int): int
    decreases |m|
  {
    if m == map[] then 0
    else
      var k := PickKey(m);
      f(m[k]) + Sum(m - {k}, f)
  }

  /** The sum does not depend on the order in which the keys are visited. */
  lemma {:induction false} SumRemove<K, V>(m: map<K, V>, f: V -> int, k: K)
    requires k in m
    ensures Sum(m, f) == f(m[k]) + Sum(m - {k}, f)
    decreases |m|
  {
    var p := PickKey(m);
    if p != k {
      SumRemove(m - {p}, f, k);
      SumRemove(m - {k}, f, p);
      assert m - {p} - {k} == m - {k} - {p};
    }
  }

  lemma SumUpdate<K, V>(m: map<K, V>, f: V -> int, k: K, v: V)
    ensures Sum(m[k := v], f) == f(v) + (if k in m then Sum(m, f) - f(m[k]) else Sum(m, f))
  {
    SumRemove(m[k := v], f, k);
    if k in m {
      SumRemove(m, f, k);
      assert m[k := v] - {k} == m - {k};
    } else {
      assert m[k := v] - {k} == m;
    }
  }

  lemma {:induction false} SumNonNegative<K, V>(m: map<K, V>, f: V -> int)
    requires forall k :: k in m ==> f(m[k]) >= 0
    ensures Sum(m, f) >= 0
    decreases |m|
  {
    if m != map[] {
      SumNonNegative(m - {PickKey(m)}, f);
    }
  }

  lemma MoveKey<K, V>(a: map<K, V>, b: map<K, V>, k: K)
    requires a.Keys !! b.Keys && k in b
    ensures a + b == (a + (b - {k}))[k := b[k]]
    ensures k !in a + (b - {k}) && a.Keys !! (b - {k}).Keys
  {
  }

  /** Splitting a map into two parts splits its sum. */
  lemma {:induction false} SumSplit<K, V>(a: map<K, V>, b: map<K, V>, f: V -> int)
    requires a.Keys !! b.Keys
    ensures Sum(a + b, f) == Sum(a, f) + Sum(b, f)
    decreases |b|
  {
    if b == map[] {
      assert a + b == a;
    } else {
      var k := PickKey(b);
      MoveKey(a, b, k);
      SumSplit(a, b - {k}, f);
      SumUpdate(a + (b - {k}), f, k, b[k]);
    }
  }

  lemma {:induction false} SumAtMost<K, V>(m: map<K, V>, n: map<K, V>, f: V -> int)
    requires m.Keys == n.Keys
    requires forall k :: k in m ==> f(m[k]) <= f(n[k])
    ensures Sum(m, f) <= Sum(n, f)
    decreases |m|
  {
    if m == map[] {
      assert n.Keys == {};
      assert n == map[];
    } else {
      var k := PickKey(m);
      SumRemove(n, f, k);
      SumAtMost(m - {k}, n - {k}, f);
    }
  }
}
