/** What a release does to a balanced heap: the cascade is safe, keeps every count
    exact, and leaves the greatest set of blocks that still has support. */
module RefCountCascade {
  import opened Bags
  import opened RefCountStore

  function TargetBag(x: Header): multiset<Addr> { multiset(x.targets) }

  /** All recorded edges of a heap, as the bag of their end points. */
  ghost function Edges(h: Heap): multiset<Addr> { MapBag(h, TargetBag) }

  /** What refers to block `b`: handles held from outside, lost increments and
      recorded edges. */
  ghost function Refs(h: Heap, held: multiset<Addr>, lost: multiset<Addr>, b: Addr): nat {
    held[b] + lost[b] + Edges(h)[b]
  }

  /** Block `b` is live exactly if something refers to it, and then its count is exact. */
  ghost predicate CountOk(h: Heap, held: multiset<Addr>, lost: multiset<Addr>, b: Addr) {
    && (b in h <==> Refs(h, held, lost, b) > 0)
    && (b in h ==> h[b].count == Refs(h, held, lost, b) && |h[b].targets| <= SLOTS)
  }

  /** Every count is exact, no block without a reference is live, and no reference
      points at a block that is not. */
  ghost predicate Balanced(h: Heap, held: multiset<Addr>, lost: multiset<Addr>) {
    NULL !in h && forall b :: CountOk(h, held, lost, b)
  }

  /** Each member of `keep` has a handle, a lost increment, or a recorded edge from `keep`. */
  ghost predicate Supported(h: Heap, held: multiset<Addr>, lost: multiset<Addr>, keep: set<Addr>) {
    && keep <= h.Keys
    && forall b :: b in keep ==> b in held || b in lost || exists a :: a in keep && b in h[a].targets
  }

  /** `after` is what is left of `before` once only `held` handles remain: exact
      counts, unchanged blocks, and every supported set survives. Since the keys
      of `after` are themselves supported, they are the greatest supported set. */
  ghost predicate Settled(before: Heap, held: multiset<Addr>, lost: multiset<Addr>, after: Heap) {
    && Balanced(after, held, lost)
    && after.Keys <= before.Keys
    && (forall b :: b in after ==> after[b].size == before[b].size && after[b].targets == before[b].targets)
    && (forall keep :: Supported(before, held, lost, keep) ==> keep <= after.Keys)
  }

  lemma EdgeInto(h: Heap, b: Addr)
    ensures b in Edges(h) <==> exists a :: a in h && b in h[a].targets
  {
    MapBagMember(h, TargetBag, b);
    if b in Edges(h) {
      var a :| a in h && b in TargetBag(h[a]);
      assert b in h[a].targets;
    }
    if a :| a in h && b in h[a].targets {
      assert b in TargetBag(h[a]);
    }
  }

  lemma LiveIsSupported(h: Heap, held: multiset<Addr>, lost: multiset<Addr>)
    requires Balanced(h, held, lost)
    ensures Supported(h, held, lost, h.Keys)
  {
    forall b | b in h ensures b in held || b in lost || exists a :: a in h.Keys && b in h[a].targets {
      EdgeInto(h, b);
      assert CountOk(h, held, lost, b);
    }
  }

  /** Changing a count does not change the edges. */
  lemma EdgesSame(g: Heap, h: Heap)
    requires g.Keys == h.Keys && forall b :: b in h ==> g[b].targets == h[b].targets
    ensures Edges(g) == Edges(h)
  {
    MapBagSame(g, h, TargetBag);
  }

  /** The part of the heap that is not being released. */
  function Live(s: Store, dying: set<Addr>): Heap { s.heap - dying }

  /** One `dec` in the middle of any number of unfinished releases. The blocks in
      `dying` have reached count zero and are waiting for their loops to finish;
      the edges they have not released yet count as handles. */
  lemma {:induction false} DecSettles(s: Store, held: multiset<Addr>, p: Addr, dying: set<Addr>, keep: set<Addr>)
    requires Balanced(Live(s, dying), held, s.lost)
    requires dying <= s.heap.Keys && p in held
    ensures DecRef(s, p).Ok?
    ensures var s' := DecRef(s, p).store;
            && Untouched(s, s', dying)
            && Balanced(Live(s', dying), held - multiset{p}, s.lost)
            && (Supported(Live(s, dying), held - multiset{p}, s.lost, keep) ==> keep <= Live(s', dying).Keys)
    decreases Positive(s.heap), 0
  {
    assert CountOk(Live(s, dying), held, s.lost, p);
    if s.heap[p].count != 1 {
      DecAboveOne(s, held, p, dying);
    } else {
      var s1, ts := StartRelease(s, p), s.heap[p].targets;
      assert Live(s1, dying + {p}) == Live(s, dying) - {p};
      LastHandle(Live(s, dying), held, s.lost, p);
      DecAllSettles(s1, held - multiset{p} + multiset(ts), ts, dying + {p}, keep);
      assert held - multiset{p} + multiset(ts) - multiset(ts) == held - multiset{p};
      EndRelease(s, p, dying);
      if Supported(Live(s, dying), held - multiset{p}, s.lost, keep) {
        LastHandleSupport(Live(s, dying), held, s.lost, p, keep);
      }
    }
  }

  lemma DecAboveOne(s: Store, held: multiset<Addr>, p: Addr, dying: set<Addr>)
    requires Balanced(Live(s, dying), held, s.lost)
    requires dying <= s.heap.Keys && p in held && p in Live(s, dying) && s.heap[p].count != 1
    ensures DecRef(s, p).Ok? && Untouched(s, DecRef(s, p).store, dying)
    ensures Live(DecRef(s, p).store, dying).Keys == Live(s, dying).Keys
    ensures Balanced(Live(DecRef(s, p).store, dying), held - multiset{p}, s.lost)
  {
    var x := s.heap[p].(count := s.heap[p].count - 1);
    assert p != NULL && DecRef(s, p) == Ok(s.(heap := s.heap[p := x]));
    LiveDown(s, held, p, dying, x);
  }

  lemma LiveDown(s: Store, held: multiset<Addr>, p: Addr, dying: set<Addr>, x: Header)
    requires Balanced(Live(s, dying), held, s.lost) && p in held && p in Live(s, dying)
    requires s.heap[p].count != 1 && x == s.heap[p].(count := s.heap[p].count - 1)
    ensures Live(s.(heap := s.heap[p := x]), dying).Keys == Live(s, dying).Keys
    ensures Balanced(Live(s.(heap := s.heap[p := x]), dying), held - multiset{p}, s.lost)
  {
    CountDown(Live(s, dying), held, s.lost, p);
    LiveUpdate(s, dying, p, x);
  }

  lemma LiveUpdate(s: Store, dying: set<Addr>, p: Addr, x: Header)
    requires p !in dying
    ensures Live(s.(heap := s.heap[p := x]), dying) == Live(s, dying)[p := x]
  {}

  lemma EndRelease(s: Store, p: Addr, dying: set<Addr>)
    requires p in s.heap && p != NULL && p !in dying && s.heap[p].count == 1
    requires DecAll(StartRelease(s, p), s.heap[p].targets).Ok?
    requires Untouched(StartRelease(s, p), DecAll(StartRelease(s, p), s.heap[p].targets).store, dying + {p})
    ensures DecRef(s, p).Ok? && Untouched(s, DecRef(s, p).store, dying)
    ensures Live(DecRef(s, p).store, dying) == Live(DecAll(StartRelease(s, p), s.heap[p].targets).store, dying + {p})
  {
  }

  /** The store in which the last reference of `p` has just been given up. */
  ghost function StartRelease(s: Store, p: Addr): (s1: Store)
    requires p in s.heap && s.heap[p].count == 1
    ensures Positive(s1.heap) < Positive(s.heap)
  {
    var s1 := s.(heap := s.heap[p := s.heap[p].(count := 0)]);
    assert p in Positive(s.heap) && p !in Positive(s1.heap);
    s1
  }

  /** The blocks being released are neither read nor written by other releases. */
  ghost predicate Untouched(s: Store, s': Store, dying: set<Addr>) {
    && dying <= s.heap.Keys && dying <= s'.heap.Keys
    && forall d :: d in dying ==> s'.heap[d] == s.heap[d]
  }

  lemma {:induction false} DecAllSettles(s: Store, held: multiset<Addr>, ts: seq<Addr>, dying: set<Addr>,
                                         keep: set<Addr>)
    requires Balanced(Live(s, dying), held, s.lost)
    requires dying <= s.heap.Keys && multiset(ts) <= held
    ensures DecAll(s, ts).Ok?
    ensures var s' := DecAll(s, ts).store;
            && Untouched(s, s', dying)
            && Balanced(Live(s', dying), held - multiset(ts), s.lost)
            && (Supported(Live(s, dying), held - multiset(ts), s.lost, keep) ==> keep <= Live(s', dying).Keys)
    decreases Positive(s.heap), |ts|
  {
    if ts == [] {
      assert held - multiset(ts) == held;
    } else {
      var t, us := ts[0], ts[1..];
      assert ts == [t] + us;
      assert t in multiset(ts);
      DecSettles(s, held, t, dying, keep);
      var s1 := DecRef(s, t).store;
      assert Positive(s1.heap) <= Positive(s.heap);
      assert held - multiset(ts) == held - multiset{t} - multiset(us);
      DecAllSettles(s1, held - multiset{t}, us, dying, keep);
      if Supported(Live(s, dying), held - multiset(ts), s.lost, keep) {
        SupportGrows(Live(s, dying), Live(s, dying), held - multiset(ts), held - multiset{t}, s.lost, keep);
        SupportGrows(Live(s, dying), Live(s1, dying), held - multiset(ts), held - multiset(ts), s.lost, keep);
      }
    }
  }

  /** A supported set stays supported with more handles, in any heap that still has its blocks. */
  lemma SupportGrows(g: Heap, h: Heap, fewer: multiset<Addr>, more: multiset<Addr>, lost: multiset<Addr>,
                     keep: set<Addr>)
    requires Supported(g, fewer, lost, keep) && fewer <= more && keep <= h.Keys
    requires forall b :: b in keep ==> g[b].targets == h[b].targets
    ensures Supported(h, more, lost, keep)
  {
  }

  /** Giving up a handle of a block with others left. */
  lemma CountDown(h: Heap, held: multiset<Addr>, lost: multiset<Addr>, p: Addr)
    requires Balanced(h, held, lost) && p in held && p in h && h[p].count != 1
    ensures Balanced(h[p := h[p].(count := h[p].count - 1)], held - multiset{p}, lost)
  {
    var g := h[p := h[p].(count := h[p].count - 1)];
    EdgesSame(g, h);
    forall b ensures CountOk(g, held - multiset{p}, lost, b) { assert CountOk(h, held, lost, b); }
  }

  /** Giving up the last handle: nothing else refers to the block, and taking it out
      of the heap turns its recorded edges into handles to be released. */
  lemma LastHandle(h: Heap, held: multiset<Addr>, lost: multiset<Addr>, p: Addr)
    requires Balanced(h, held, lost) && p in held && p in h && h[p].count == 1
    ensures held[p] == 1 && p !in lost && p !in Edges(h)
    ensures Balanced(h - {p}, held - multiset{p} + multiset(h[p].targets), lost)
  {
    MapBagTake(h, TargetBag, p);
    var held' := held - multiset{p} + multiset(h[p].targets);
    assert CountOk(h, held, lost, p);
    forall b ensures CountOk(h - {p}, held', lost, b) { assert CountOk(h, held, lost, b); }
  }

  /** A block that has lost its last handle is in no supported set. */
  lemma LastHandleSupport(h: Heap, held: multiset<Addr>, lost: multiset<Addr>, p: Addr, keep: set<Addr>)
    requires Balanced(h, held, lost) && p in held && p in h && h[p].count == 1
    requires Supported(h, held - multiset{p}, lost, keep)
    ensures p !in keep && Supported(h - {p}, held - multiset{p}, lost, keep)
  {
    LastHandle(h, held, lost, p);
    EdgeInto(h, p);
  }

  /** Main result for one release: no fault, and the outcome is the settled heap. */
  lemma ReleaseSettles(s: Store, held: multiset<Addr>, p: Addr)
    requires Balanced(s.heap, held, s.lost) && p in held
    ensures DecRef(s, p).Ok? && Settled(s.heap, held - multiset{p}, s.lost, DecRef(s, p).store.heap)
  {
    assert forall t: Store :: Live(t, {}) == t.heap;
    DecSettles(s, held, p, {}, {});
    forall keep | Supported(s.heap, held - multiset{p}, s.lost, keep)
      ensures keep <= DecRef(s, p).store.heap.Keys
    {
      DecSettles(s, held, p, {}, keep);
    }
  }

  /** The same for any list of releases. */
  lemma ReleaseAllSettles(s: Store, held: multiset<Addr>, ps: seq<Addr>)
    requires Balanced(s.heap, held, s.lost) && multiset(ps) <= held
    ensures DecAll(s, ps).Ok? && Settled(s.heap, held - multiset(ps), s.lost, DecAll(s, ps).store.heap)
  {
    assert forall t: Store :: Live(t, {}) == t.heap;
    DecAllSettles(s, held, ps, {}, {});
    forall keep | Supported(s.heap, held - multiset(ps), s.lost, keep)
      ensures keep <= DecAll(s, ps).store.heap.Keys
    {
      DecAllSettles(s, held, ps, {}, keep);
    }
  }

  /** The settled heap is determined by what is still held. */
  lemma SettledUnique(before: Heap, held: multiset<Addr>, lost: multiset<Addr>, a: Heap, b: Heap)
    requires Settled(before, held, lost, a) && Settled(before, held, lost, b)
    ensures a == b
  {
    SettledSupported(before, held, lost, a);
    SettledSupported(before, held, lost, b);
    assert a.Keys == b.Keys;
    EdgesSame(a, b);
    forall x | x in a ensures a[x] == b[x] {
      assert CountOk(a, held, lost, x) && CountOk(b, held, lost, x);
    }
  }

  /** The survivors are a supported set of the heap before, hence its greatest one. */
  lemma SettledSupported(before: Heap, held: multiset<Addr>, lost: multiset<Addr>, after: Heap)
    requires Settled(before, held, lost, after)
    ensures Supported(before, held, lost, after.Keys)
  {
    LiveIsSupported(after, held, lost);
    SupportGrows(after, before, held, held, lost, after.Keys);
  }
}

