/** Sums over finite maps. */
module Sums {

  ghost function SumBy<K(!new), V>(m: map<K, V>, f: V -> nat): nat {
    if m == map[] then 0 else var k :| k in m; f(m[k]) + SumBy(m - {k}, f)
  }

  lemma {:induction false} SumByRemove<K(!new), V>(m: map<K, V>, f: V -> nat, k: K)
    requires k in m
    ensures SumBy(m, f) == f(m[k]) + SumBy(m - {k}, f)
    decreases |m|
  {
    var c :| c in m && SumBy(m, f) == f(m[c]) + SumBy(m - {c}, f);
    if c != k {
      SumByRemove(m - {c}, f, k);
      SumByRemove(m - {k}, f, c);
      assert m - {c} - {k} == m - {k} - {c};
    }
  }

  lemma SumByInsert<K(!new), V>(m: map<K, V>, f: V -> nat, k: K, v: V)
    requires k !in m
    ensures SumBy(m[k := v], f) == f(v) + SumBy(m, f)
  {
    SumByRemove(m[k := v], f, k);
    assert m[k := v] - {k} == m;
  }

  /** Moving a value from one key to another keeps the sum. */
  lemma SumByMove<K(!new), V>(m: map<K, V>, f: V -> nat, k: K, k': K)
    requires k in m && k' !in m
    ensures SumBy((m - {k})[k' := m[k]], f) == SumBy(m, f)
  {
    SumByRemove(m, f, k);
    SumByInsert(m - {k}, f, k', m[k]);
  }

  lemma SumByUpdate<K(!new), V>(m: map<K, V>, f: V -> nat, k: K, v: V)
    requires k in m
    ensures SumBy(m[k := v], f) + f(m[k]) == SumBy(m, f) + f(v)
  {
    SumByRemove(m, f, k);
    SumByInsert(m - {k}, f, k, v);
    assert (m - {k})[k := v] == m[k := v];
  }

  /** If counted entries have distinct tags from a set, there are at most as many as the set has elements. */
  lemma {:induction false} CountAtMost<K(!new), V, T>(m: map<K, V>, f: V -> nat, tag: V -> T, tags: set<T>)
    requires forall k | k in m :: f(m[k]) <= 1
    requires forall k | k in m && f(m[k]) == 1 :: tag(m[k]) in tags
    requires forall j, k | j in m && k in m && j != k && f(m[j]) == 1 && f(m[k]) == 1 :: tag(m[j]) != tag(m[k])
    ensures SumBy(m, f) <= |tags|
    decreases |m|
  {
    if m == map[] {
    } else {
      var k :| k in m;
      SumByRemove(m, f, k);
      CountAtMost(m - {k}, f, tag, if f(m[k]) == 1 then tags - {tag(m[k])} else tags);
    }
  }
}
