/** Finite sums over maps, the measure behind every byte count in the model. */
module Sums {

  ghost function Pick<K, V>(m: map<K, V>): (k: K)
    requires m != map[]
    ensures k in m
  {
    assert m.Keys != {};
    var k :| k in m;
    k
  }

  /** The total weight of a map's entries. */
  ghost function Sum<K(!new), V(!new)>(m: map<K, V>, w: (K, V) -> nat): nat
    decreases |m|
  {
    if m == map[] then 0
    else
      var k := Pick(m);
      RemoveShrinks(m, k);
      w(k, m[k]) + Sum(m - {k}, w)
  }

  lemma RemoveShrinks<K, V>(m: map<K, V>, k: K)
    requires k in m
    ensures |m - {k}| == |m| - 1
  {
    assert (m - {k}).Keys == m.Keys - {k};
    assert |m.Keys - {k}| == |m.Keys| - 1;
  }

  /** The sum does not depend on the order entries are taken out in. */
  lemma {:induction false} SumRemove<K(!new), V(!new)>(m: map<K, V>, w: (K, V) -> nat, k: K)
    requires k in m
    ensures Sum(m, w) == w(k, m[k]) + Sum(m - {k}, w)
    decreases |m|
  {
    var p := Pick(m);
    if p != k {
      RemoveShrinks(m, p);
      RemoveShrinks(m, k);
      SumRemove(m - {p}, w, k);
      SumRemove(m - {k}, w, p);
      assert m - {p} - {k} == m - {k} - {p};
    }
  }

  /** Replacing or adding one entry moves the sum by the difference of the two weights. */
  lemma SumUpdate<K(!new), V(!new)>(m: map<K, V>, w: (K, V) -> nat, k: K, v: V)
    ensures Sum(m[k := v], w) == Sum(m, w) - (if k in m then w(k, m[k]) else 0) + w(k, v)
    ensures k in m ==> Sum(m, w) >= w(k, m[k])
  {
    SumRemove(m[k := v], w, k);
    if k in m {
      SumRemove(m, w, k);
      assert m[k := v] - {k} == m - {k};
    } else {
      assert m[k := v] - {k} == m;
    }
  }

  /** A map whose entries each weigh no more than the same key's entry elsewhere weighs no more. */
  lemma {:induction false} SumMonotone<K(!new), V(!new)>(m: map<K, V>, n: map<K, V>, w: (K, V) -> nat)
    requires forall k :: k in m ==> k in n && w(k, m[k]) <= w(k, n[k])
    ensures Sum(m, w) <= Sum(n, w)
    decreases |m|
  {
    if m != map[] {
      var k := Pick(m);
      RemoveShrinks(m, k);
      SumRemove(n, w, k);
      SumMonotone(m - {k}, n - {k}, w);
    }
  }

  /** An entry-wise bound by two maps together bounds the sum by both sums. */
  lemma {:induction false} SumCovered<K(!new), V(!new)>(m: map<K, V>, a: map<K, V>, b: map<K, V>, w: (K, V) -> nat)
    requires forall k :: k in m ==>
      w(k, m[k]) <= (if k in a then w(k, a[k]) else 0) + (if k in b then w(k, b[k]) else 0)
    ensures Sum(m, w) <= Sum(a, w) + Sum(b, w)
    decreases |m|
  {
    if m != map[] {
      var k := Pick(m);
      RemoveShrinks(m, k);
      if k in a { SumRemove(a, w, k); } else { assert a - {k} == a; }
      if k in b { SumRemove(b, w, k); } else { assert b - {k} == b; }
      SumCovered(m - {k}, a - {k}, b - {k}, w);
    }
  }

  /** A weight that is the total of two sums to the total of their sums. */
  lemma {:induction false} SumSplit<K(!new), V(!new)>(m: map<K, V>, w: (K, V) -> nat, a: (K, V) -> nat, b: (K, V) -> nat)
    requires forall k :: k in m ==> w(k, m[k]) == a(k, m[k]) + b(k, m[k])
    ensures Sum(m, w) == Sum(m, a) + Sum(m, b)
    decreases |m|
  {
    if m != map[] {
      var k := Pick(m);
      RemoveShrinks(m, k);
      SumSplit(m - {k}, w, a, b);
    }
  }

  /** The same weight everywhere counts the entries. */
  lemma {:induction false} SumConstant<K(!new), V(!new)>(m: map<K, V>, w: (K, V) -> nat, c: nat)
    requires forall k :: k in m ==> w(k, m[k]) == c
    ensures Sum(m, w) == c * |m|
    decreases |m|
  {
    if m != map[] {
      var k := Pick(m);
      RemoveShrinks(m, k);
      SumConstant(m - {k}, w, c);
      assert c * |m| == c * (|m| - 1) + c;
    }
  }

  /** A map whose entries each weigh no more than another map's entry under the same key. */
  lemma {:induction false} SumAcross<K(!new), V(!new), W(!new)>(m: map<K, V>, n: map<K, W>, a: (K, V) -> nat, b: (K, W) -> nat)
    requires forall k :: k in m ==> k in n && a(k, m[k]) <= b(k, n[k])
    ensures Sum(m, a) <= Sum(n, b)
    decreases |m|
  {
    if m != map[] {
      var k := Pick(m);
      RemoveShrinks(m, k);
      SumRemove(n, b, k);
      SumAcross(m - {k}, n - {k}, a, b);
    }
  }

  lemma {:induction false} SumJoin<K(!new), V(!new)>(m: map<K, V>, n: map<K, V>, w: (K, V) -> nat)
    requires m.Keys !! n.Keys
    ensures Sum(m + n, w) == Sum(m, w) + Sum(n, w)
    decreases |m|
  {
    if m == map[] {
      assert m + n == n;
    } else {
      var k := Pick(m);
      RemoveShrinks(m, k);
      SumJoin(m - {k}, n, w);
      SumRemove(m + n, w, k);
      SumRemove(m, w, k);
      JoinRemove(m, n, k);
    }
  }

  lemma JoinRemove<K, V>(m: map<K, V>, n: map<K, V>, k: K)
    requires k in m && k !in n
    ensures (m + n) - {k} == (m - {k}) + n && (m + n)[k] == m[k]
  {
  }
}
