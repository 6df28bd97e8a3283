/** Totals over finite maps.

    Both runtimes and the compiler argue about quantities that are summed over
    the entries of a map: the references recorded in all block headers, the
    pointers held by all variables of a scope, the bytes of all live blocks.
    `MapBag` collects a multiset contributed by each entry, `MapSum` adds up a
    number contributed by each entry. The lemmas say how a total moves when one
    entry is added, removed or replaced. */
module Bags {

  ghost function MapBag<K, V, A>(m: map<K, V>, f: V -> multiset<A>): multiset<A>
    decreases |m|, 1
  {
    if m == map[] then multiset{} else
      var k :| k in m;
      BagFrom(m, f, k)
  }

  /** The bag with the entry `k` taken first. */
  ghost function BagFrom<K, V, A>(m: map<K, V>, f: V -> multiset<A>, k: K): multiset<A>
    requires k in m
    decreases |m|, 0
  {
    f(m[k]) + MapBag(m - {k}, f)
  }

  /** Any entry may be taken out first. */
  lemma {:induction false} MapBagTake<K, V, A>(m: map<K, V>, f: V -> multiset<A>, k: K)
    requires k in m
    ensures MapBag(m, f) == f(m[k]) + MapBag(m - {k}, f)
    decreases |m|
  {
    var j :| j in m && MapBag(m, f) == BagFrom(m, f, j);
    assert BagFrom(m, f, j) == f(m[j]) + MapBag(m - {j}, f);
    if j != k {
      MapBagTake(m - {j}, f, k);
      MapBagTake(m - {k}, f, j);
      assert m - {j} - {k} == m - {k} - {j};
    }
  }

  lemma MapBagInsert<K, V, A>(m: map<K, V>, f: V -> multiset<A>, k: K, v: V)
    requires k !in m
    ensures MapBag(m[k := v], f) == MapBag(m, f) + f(v)
  {
    MapBagTake(m[k := v], f, k);
    assert m[k := v] - {k} == m;
  }

  lemma MapBagUpdate<K, V, A>(m: map<K, V>, f: V -> multiset<A>, k: K, v: V)
    requires k in m
    ensures MapBag(m[k := v], f) + f(m[k]) == MapBag(m, f) + f(v)
  {
    MapBagTake(m, f, k);
    MapBagTake(m[k := v], f, k);
    assert m[k := v] - {k} == m - {k};
  }

  lemma {:induction false} MapBagMember<K, V, A>(m: map<K, V>, f: V -> multiset<A>, a: A)
    ensures a in MapBag(m, f) <==> exists k :: k in m && a in f(m[k])
    decreases |m|
  {
    if m != map[] {
      var j :| j in m && MapBag(m, f) == BagFrom(m, f, j);
      assert BagFrom(m, f, j) == f(m[j]) + MapBag(m - {j}, f);
      MapBagMember(m - {j}, f, a);
      forall k | k in m - {j} ensures (m - {j})[k] == m[k] {}
      if k :| k in m && a in f(m[k]) {
        assert k == j || k in m - {j};
      }
    }
  }

  /** Two maps with the same keys and the same contributions have the same bag. */
  lemma {:induction false} MapBagSame<K, V, A>(m: map<K, V>, n: map<K, V>, f: V -> multiset<A>)
    requires m.Keys == n.Keys
    requires forall k :: k in m ==> f(m[k]) == f(n[k])
    ensures MapBag(m, f) == MapBag(n, f)
    decreases |m|
  {
    if m == map[] {
      assert n == map[];
    } else {
      var k :| k in m;
      MapBagTake(m, f, k);
      MapBagTake(n, f, k);
      MapBagSame(m - {k}, n - {k}, f);
    }
  }

  ghost function MapSum<K, V>(m: map<K, V>, f: V -> int): int
    decreases |m|, 1
  {
    if m == map[] then 0 else
      var k :| k in m;
      SumFrom(m, f, k)
  }

  ghost function SumFrom<K, V>(m: map<K, V>, f: V -> int, k: K): int
    requires k in m
    decreases |m|, 0
  {
    f(m[k]) + MapSum(m - {k}, f)
  }

  lemma {:induction false} MapSumTake<K, V>(m: map<K, V>, f: V -> int, k: K)
    requires k in m
    ensures MapSum(m, f) == f(m[k]) + MapSum(m - {k}, f)
    decreases |m|
  {
    var j :| j in m && MapSum(m, f) == SumFrom(m, f, j);
    assert SumFrom(m, f, j) == f(m[j]) + MapSum(m - {j}, f);
    if j != k {
      MapSumTake(m - {j}, f, k);
      MapSumTake(m - {k}, f, j);
      assert m - {j} - {k} == m - {k} - {j};
    }
  }

  lemma MapSumUpdate<K, V>(m: map<K, V>, f: V -> int, k: K, v: V)
    ensures MapSum(m[k := v], f) == MapSum(m - {k}, f) + f(v)
  {
    MapSumTake(m[k := v], f, k);
    assert m[k := v] - {k} == m - {k};
  }

  lemma {:induction false} MapSumNonNegative<K, V>(m: map<K, V>, f: V -> int)
    requires forall k :: k in m ==> f(m[k]) >= 0
    ensures MapSum(m, f) >= 0
    decreases |m|
  {
    if m != map[] {
      var k :| k in m && MapSum(m, f) == SumFrom(m, f, k);
      assert SumFrom(m, f, k) == f(m[k]) + MapSum(m - {k}, f);
      MapSumNonNegative(m - {k}, f);
    }
  }
}

