/** Bags gathered from a map, in any order of its keys. */
module Bags {

  /** Everything `f` yields over the entries of a map, with multiplicity and without order. */
  ghost function Bag<K, V, T>(m: map<K, V>, f: (K, V) -> multiset<T>): multiset<T> {
    if m == map[] then multiset{}
    else
      var k :| k in m;
      f(k, m[k]) + Bag(m - {k}, f)
  }

  /** Any key may be taken first. */
  lemma {:induction false} BagTake<K, V, T>(m: map<K, V>, f: (K, V) -> multiset<T>, k: K)
    requires k in m
    ensures Bag(m, f) == f(k, m[k]) + Bag(m - {k}, f)
    decreases |m|
  {
    var c :| c in m && Bag(m, f) == f(c, m[c]) + Bag(m - {c}, f);
    if c != k {
      BagTake(m - {c}, f, k);
      BagTake(m - {k}, f, c);
      assert m - {c} - {k} == m - {k} - {c};
    }
  }

  /** An entry that yields nothing may be added, changed or dropped freely. */
  lemma BagIgnores<K, V, T>(m: map<K, V>, f: (K, V) -> multiset<T>, k: K, v: V)
    requires f(k, v) == multiset{} && (k in m ==> f(k, m[k]) == multiset{})
    ensures Bag(m[k := v], f) == Bag(m, f)
  {
    BagTake(m[k := v], f, k);
    assert m[k := v] - {k} == m - {k};
    if k in m {
      BagTake(m, f, k);
    } else {
      assert m - {k} == m;
    }
  }

  /** Two values that yield the same are interchangeable. */
  lemma BagSwaps<K, V, T>(m: map<K, V>, f: (K, V) -> multiset<T>, k: K, v: V, w: V)
    requires f(k, v) == f(k, w)
    ensures Bag(m[k := v], f) == Bag(m[k := w], f)
  {
    BagTake(m[k := v], f, k);
    BagTake(m[k := w], f, k);
    assert m[k := v] - {k} == m[k := w] - {k};
  }
}
