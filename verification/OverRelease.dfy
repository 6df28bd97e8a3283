/** Releases that nobody checked: what a `dec` does to a heap whose counts may be wrong. Every
    count stays the number of references minus the releases too many, and a block that is
    gone had none left. */
module OverRelease {
  import opened Bags
  import opened RefCountStore
  import opened RefCountCascade

  /** What refers to `b`: handles `plus`, less releases `minus`, lost increments and edges. */
  ghost function Due(h: Heap, plus: multiset<Addr>, minus: multiset<Addr>, lost: multiset<Addr>, b: Addr): int {
    plus[b] as int - minus[b] as int + lost[b] + Edges(h)[b]
  }

  ghost predicate DueOk(h: Heap, plus: multiset<Addr>, minus: multiset<Addr>, lost: multiset<Addr>, b: Addr) {
    if b in h then h[b].count == Due(h, plus, minus, lost, b) else Due(h, plus, minus, lost, b) <= 0
  }

  ghost predicate Tracked(h: Heap, plus: multiset<Addr>, minus: multiset<Addr>, lost: multiset<Addr>) {
    forall b :: DueOk(h, plus, minus, lost, b)
  }

  /** The blocks in the middle of their release are allocated and have no count left. */
  ghost predicate Spent(s: Store, dying: set<Addr>) {
    NULL !in s.heap && dying <= s.heap.Keys && forall d :: d in dying ==> s.heap[d].count <= 0
  }

  /** One `dec`, of anything, in the middle of any number of unfinished releases. */
  lemma {:induction false} DecTracks(s: Store, plus: multiset<Addr>, minus: multiset<Addr>, p: Addr, dying: set<Addr>)
    requires Tracked(Live(s, dying), plus, minus, s.lost) && Spent(s, dying) && DecRef(s, p).Ok?
    ensures var s' := DecRef(s, p).store;
            Spent(s', dying) && s'.lost == s.lost && Tracked(Live(s', dying), plus, minus + multiset{p}, s.lost)
    decreases Positive(s.heap), 0
  {
    if p == NULL || p in dying || s.heap[p].count != 1 {
      OneLess(s, plus, minus, p, dying);
    } else {
      var s1, ts := StartRelease(s, p), s.heap[p].targets;
      StartTracks(s, plus, minus, p, dying);
      DecAllTracks(s1, plus + multiset(ts), minus + multiset{p}, ts, dying + {p});
      EndTracks(s, plus, minus + multiset{p}, p, dying);
    }
  }

  lemma StartTracks(s: Store, plus: multiset<Addr>, minus: multiset<Addr>, p: Addr, dying: set<Addr>)
    requires Tracked(Live(s, dying), plus, minus, s.lost) && Spent(s, dying)
    requires p in s.heap && p !in dying && s.heap[p].count == 1
    ensures var s1 := StartRelease(s, p);
            && Spent(s1, dying + {p}) && s1.lost == s.lost
            && Tracked(Live(s1, dying + {p}), plus + multiset(s.heap[p].targets), minus + multiset{p}, s.lost)
  {
    LastTracks(Live(s, dying), plus, minus, s.lost, p);
    assert Live(StartRelease(s, p), dying + {p}) == Live(s, dying) - {p};
  }

  lemma EndTracks(s: Store, plus: multiset<Addr>, minus: multiset<Addr>, p: Addr, dying: set<Addr>)
    requires p in s.heap && p != NULL && p !in dying && s.heap[p].count == 1
    requires DecAll(StartRelease(s, p), s.heap[p].targets).Ok?
    requires var s2, ts := DecAll(StartRelease(s, p), s.heap[p].targets).store, multiset(s.heap[p].targets);
             Spent(s2, dying + {p}) && s2.lost == s.lost
             && Tracked(Live(s2, dying + {p}), plus + ts, minus + ts, s.lost)
    ensures DecRef(s, p).Ok?
    ensures var s' := DecRef(s, p).store;
            Spent(s', dying) && s'.lost == s.lost && Tracked(Live(s', dying), plus, minus, s.lost)
  {
    var s2 := DecAll(StartRelease(s, p), s.heap[p].targets).store;
    Settle(Live(s2, dying + {p}), plus, minus, multiset(s.heap[p].targets), s.lost);
    assert Live(DecRef(s, p).store, dying) == Live(s2, dying + {p});
  }

  lemma {:induction false} DecAllTracks(s: Store, plus: multiset<Addr>, minus: multiset<Addr>, ts: seq<Addr>,
                                        dying: set<Addr>)
    requires Tracked(Live(s, dying), plus, minus, s.lost) && Spent(s, dying) && DecAll(s, ts).Ok?
    ensures var s' := DecAll(s, ts).store;
            Spent(s', dying) && s'.lost == s.lost && Tracked(Live(s', dying), plus, minus + multiset(ts), s.lost)
    decreases Positive(s.heap), |ts|
  {
    if ts == [] {
      assert minus + multiset(ts) == minus;
    } else {
      DecTracks(s, plus, minus, ts[0], dying);
      var s1 := DecRef(s, ts[0]).store;
      assert Positive(s1.heap) <= Positive(s.heap);
      DecAllTracks(s1, plus, minus + multiset{ts[0]}, ts[1..], dying);
      assert ts == [ts[0]] + ts[1..];
      assert minus + multiset{ts[0]} + multiset(ts[1..]) == minus + multiset(ts);
    }
  }

  /** A `dec` that does not start a release. */
  lemma OneLess(s: Store, plus: multiset<Addr>, minus: multiset<Addr>, p: Addr, dying: set<Addr>)
    requires Tracked(Live(s, dying), plus, minus, s.lost) && Spent(s, dying)
    requires p == NULL || (p in s.heap && (p in dying || s.heap[p].count != 1))
    ensures DecRef(s, p).Ok?
    ensures var s' := DecRef(s, p).store;
            Spent(s', dying) && s'.lost == s.lost && Tracked(Live(s', dying), plus, minus + multiset{p}, s.lost)
  {
    var h, g := Live(s, dying), Live(DecRef(s, p).store, dying);
    assert g.Keys == h.Keys;
    EdgesSame(g, h);
    forall b ensures DueOk(g, plus, minus + multiset{p}, s.lost, b) { assert DueOk(h, plus, minus, s.lost, b); }
  }

  /** Taking a block out turns its edges into handles. */
  lemma LastTracks(h: Heap, plus: multiset<Addr>, minus: multiset<Addr>, lost: multiset<Addr>, p: Addr)
    requires Tracked(h, plus, minus, lost) && p in h && h[p].count == 1
    ensures Tracked(h - {p}, plus + multiset(h[p].targets), minus + multiset{p}, lost)
  {
    MapBagTake(h, TargetBag, p);
    forall b ensures DueOk(h - {p}, plus + multiset(h[p].targets), minus + multiset{p}, lost, b) {
      assert DueOk(h, plus, minus, lost, b);
    }
  }

  /** Handles that have been released again do not matter. */
  lemma Settle(h: Heap, plus: multiset<Addr>, minus: multiset<Addr>, both: multiset<Addr>, lost: multiset<Addr>)
    requires Tracked(h, plus + both, minus + both, lost)
    ensures Tracked(h, plus, minus, lost)
  {
    forall b ensures DueOk(h, plus, minus, lost, b) { assert DueOk(h, plus + both, minus + both, lost, b); }
  }

  lemma BalancedTracked(h: Heap, held: multiset<Addr>, lost: multiset<Addr>)
    requires Balanced(h, held, lost)
    ensures Tracked(h, held, multiset{}, lost)
  {
    forall b ensures DueOk(h, held, multiset{}, lost, b) { assert CountOk(h, held, lost, b); }
  }

  /** When the counts come out right for `held` after all, the releases were exactly the
      handles that were too many, provided nothing was released that is not held. */
  lemma TrackedBalanced(h: Heap, held: multiset<Addr>, owed: multiset<Addr>, released: multiset<Addr>,
                        lost: multiset<Addr>)
    requires Tracked(h, held + owed, released, lost) && Balanced(h, held, lost)
    requires forall b :: b in released ==> b in held
    ensures owed == released
  {
    forall b ensures owed[b] == released[b] {
      assert DueOk(h, held + owed, released, lost, b) && CountOk(h, held, lost, b);
    }
  }
}
