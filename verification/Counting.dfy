/** Sums over the values of a map, and cardinalities of images and of grouped keys. */
module Counting {

  /** The sum of `f` over the values of `m`. */
  ghost function Sum<K, V>(m: map<K, V>, f: V -> nat): nat
    decreases |m|
  {
    if m == map[] then 0
    else
      var k :| k in m;
      assert (m - {k}).Keys == m.Keys - {k};
      f(m[k]) + Sum(m - {k}, f)
  }

  /** The sum does not depend on which key is taken out first. */
  lemma {:induction false} SumRemove<K, V>(m: map<K, V>, f: V -> nat, k: K)
    requires k in m
    ensures Sum(m, f) == f(m[k]) + Sum(m - {k}, f)
    decreases |m|
  {
    var c :| c in m && Sum(m, f) == f(m[c]) + Sum(m - {c}, f);
    if c != k {
      assert (m - {c}).Keys == m.Keys - {c};
      assert (m - {k}).Keys == m.Keys - {k};
      SumRemove(m - {c}, f, k);
      SumRemove(m - {k}, f, c);
      assert m - {c} - {k} == m - {k} - {c};
    }
  }

  lemma SumUpdate<K, V>(m: map<K, V>, f: V -> nat, k: K, v: V)
    ensures Sum(m[k := v], f) == f(v) + Sum(m - {k}, f)
    ensures k in m ==> Sum(m[k := v], f) + f(m[k]) == Sum(m, f) + f(v)
    ensures k !in m ==> Sum(m[k := v], f) == Sum(m, f) + f(v)
  {
    var n := m[k := v];
    SumRemove(n, f, k);
    assert n - {k} == m - {k};
    if k in m {
      SumRemove(m, f, k);
    } else {
      assert m - {k} == m;
    }
  }

  /** Sums of pointwise related maps: if `f` of one map splits into `g` and `h` of another, so do the sums. */
  lemma {:induction false} SumSplit<K, V, W>(m: map<K, V>, f: V -> nat, n: map<K, W>, g: W -> nat, h: W -> nat)
    requires m.Keys == n.Keys
    requires forall k :: k in m ==> f(m[k]) == g(n[k]) + h(n[k])
    ensures Sum(m, f) == Sum(n, g) + Sum(n, h)
    decreases |m|
  {
    if m == map[] {
      assert n == map[];
    } else {
      var k :| k in m;
      SumRemove(m, f, k);
      SumRemove(n, g, k);
      SumRemove(n, h, k);
      assert (m - {k}).Keys == m.Keys - {k};
      SumSplit(m - {k}, f, n - {k}, g, h);
    }
  }

  lemma {:induction false} SumZero<K, V>(m: map<K, V>, f: V -> nat)
    requires forall k :: k in m ==> f(m[k]) == 0
    ensures Sum(m, f) == 0
    decreases |m|
  {
    if m != map[] {
      var k :| k in m;
      SumRemove(m, f, k);
      assert (m - {k}).Keys == m.Keys - {k};
      SumZero(m - {k}, f);
    }
  }

  lemma Overwrite<K, V>(m: map<K, V>, k: K, a: V, b: V)
    ensures m[k := a][k := b] == m[k := b]
  {}

  lemma RemoveAdded<K, V>(m: map<K, V>, k: K, v: V)
    ensures m[k := v] - {k} == m - {k}
  {}

  /** The keys that `m` maps to `v`. */
  function KeysOf<K, V(==)>(m: map<K, V>, v: V): (r: set<K>)
    ensures r <= m.Keys
  {
    set k | k in m && m[k] == v
  }

  lemma KeysOfInsert<K, V>(m: map<K, V>, k: K, w: V, v: V)
    requires k !in m
    ensures |KeysOf(m[k := w], v)| == |KeysOf(m, v)| + if v == w then 1 else 0
  {
    assert KeysOf(m[k := w], v) == if v == w then KeysOf(m, v) + {k} else KeysOf(m, v);
  }

  lemma KeysOfRemove<K, V>(m: map<K, V>, k: K, v: V)
    requires k in m
    ensures |KeysOf(m, v)| == |KeysOf(m - {k}, v)| + if v == m[k] then 1 else 0
  {
    assert KeysOf(m, v) == if v == m[k] then KeysOf(m - {k}, v) + {k} else KeysOf(m - {k}, v);
  }

  lemma {:induction false} SubsetSize<T>(a: set<T>, b: set<T>)
    requires a <= b
    ensures |a| <= |b|
    decreases a
  {
    if a != {} {
      var x :| x in a;
      SubsetSize(a - {x}, b - {x});
    }
  }

  ghost predicate Injective<K, V>(m: map<K, V>) {
    forall a, b :: a in m && b in m && m[a] == m[b] ==> a == b
  }

  /** An injective map has as many values as keys. */
  lemma {:induction false} InjectiveSize<K, V>(m: map<K, V>)
    requires Injective(m)
    ensures |m.Values| == |m|
    decreases |m|
  {
    if m == map[] {
      assert m.Values == {};
    } else {
      var k :| k in m;
      var r := m - {k};
      assert r.Keys == m.Keys - {k};
      InjectiveSize(r);
      forall v | v in m.Values ensures v in r.Values + {m[k]} {
        var j :| j in m && m[j] == v;
        assert j != k ==> j in r && r[j] == v;
      }
      assert forall j :: j in r ==> j in m && m[j] == r[j];
      assert m.Values == r.Values + {m[k]};
      assert m[k] !in r.Values;
    }
  }
}
