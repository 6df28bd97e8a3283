/** Whole runs of the reference-count runtime: what every run keeps, which blocks
    can never be freed, and how the live set compares with reachability. */
module RefCountRuns {
  import opened Bags
  import opened RefCountStore
  import opened RefCountCascade

  function SizeOf(x: Header): int { x.size }

  ghost function Bytes(h: Heap): int { MapSum(h, SizeOf) }

  /** The statistics agree with the heap. */
  ghost predicate Accounted(s: Store) {
    && s.stats.current == Bytes(s.heap)
    && s.stats.allocations == |s.heap| + s.stats.collections
    && 0 <= s.stats.current <= s.stats.peak
  }

  // ---------- one release ----------

  /** A release moves the statistics exactly with the heap, on every heap. */
  lemma {:induction false} DecAccounts(s: Store, p: Addr)
    requires DecRef(s, p).Ok?
    ensures var r := DecRef(s, p).store;
            && r.stats.current - Bytes(r.heap) == s.stats.current - Bytes(s.heap)
            && r.stats.collections + |r.heap| == s.stats.collections + |s.heap|
            && r.stats.collections >= s.stats.collections
    decreases Positive(s.heap), 0
  {
    if p != NULL {
      var h := s.heap[p];
      var s1 := s.(heap := s.heap[p := h.(count := h.count - 1)]);
      MapSumUpdate(s.heap, SizeOf, p, h.(count := h.count - 1));
      MapSumTake(s.heap, SizeOf, p);
      if h.count == 1 {
        assert s1 == StartRelease(s, p);
        DecAllAccounts(s1, h.targets);
        var s2 := DecAll(s1, h.targets).store;
        MapSumTake(s2.heap, SizeOf, p);
        assert |s2.heap - {p}| == |s2.heap| - 1 by { assert (s2.heap - {p}).Keys == s2.heap.Keys - {p}; }
      }
    }
  }

  lemma {:induction false} DecAllAccounts(s: Store, ts: seq<Addr>)
    requires DecAll(s, ts).Ok?
    ensures var r := DecAll(s, ts).store;
            && r.stats.current - Bytes(r.heap) == s.stats.current - Bytes(s.heap)
            && r.stats.collections + |r.heap| == s.stats.collections + |s.heap|
            && r.stats.collections >= s.stats.collections
    decreases Positive(s.heap), |ts|
  {
    if ts != [] {
      DecAccounts(s, ts[0]);
      var s1 := DecRef(s, ts[0]).store;
      assert Positive(s1.heap) <= Positive(s.heap);
      DecAllAccounts(s1, ts[1..]);
    }
  }

  /** Releasing the same handles in any order ends in the same store: live blocks,
      counts, recorded edges and statistics. */
  lemma ReleaseOrderImmaterial(s: Store, held: multiset<Addr>, ps: seq<Addr>, qs: seq<Addr>)
    requires Balanced(s.heap, held, s.lost) && multiset(ps) <= held
    requires multiset(ps) == multiset(qs)
    ensures DecAll(s, ps).Ok? && DecAll(s, ps) == DecAll(s, qs)
  {
    ReleaseAllSettles(s, held, ps);
    ReleaseAllSettles(s, held, qs);
    SettledUnique(s.heap, held - multiset(ps), s.lost, DecAll(s, ps).store.heap, DecAll(s, qs).store.heap);
    DecAllAccounts(s, ps);
    DecAllAccounts(s, qs);
  }

  // ---------- runs ----------

  /** The calls a program makes: allocate, copy a handle, store a pointer to `p`
      in block `o`, give up a handle. */
  datatype Call = Alloc(p: Addr, bytes: nat) | Share(p: Addr) | Record(p: Addr, o: Addr) | Drop(p: Addr)

  datatype State = State(store: Store, held: multiset<Addr>)

  const Start := State(EmptyStore, multiset{})

  /** What the C code demands of its callers. */
  ghost predicate Allowed(st: State, c: Call) {
    match c
    case Alloc(p, _) => p != NULL && p !in st.store.heap
    case Share(p) => p == NULL || p in st.store.heap
    case Record(p, o) => (p == NULL || p in st.store.heap) && (o == NULL || o in st.store.heap)
    case Drop(p) => p == NULL || p in st.held
  }

  function Handle(p: Addr): multiset<Addr> { if p == NULL then multiset{} else multiset{p} }

  datatype Progress = Next(state: State) | Crash

  function After(r: Result, held: multiset<Addr>): Progress {
    if r.Ok? then Next(State(r.store, held)) else Crash
  }

  function Step(st: State, c: Call): (r: Progress) {
    match c
    case Alloc(p, bytes) => Next(State(AllocAt(st.store, p, bytes), st.held + multiset{p}))
    case Share(p) => After(IncRef(st.store, p, NULL), st.held + Handle(p))
    case Record(p, o) => After(IncRef(st.store, p, o), if o == NULL then st.held + Handle(p) else st.held)
    case Drop(p) => After(DecRef(st.store, p), st.held - Handle(p))
  }

  ghost predicate AllowedAll(st: State, cs: seq<Call>)
    decreases |cs|
  {
    cs != [] ==> Allowed(st, cs[0]) && (Step(st, cs[0]).Next? ==> AllowedAll(Step(st, cs[0]).state, cs[1..]))
  }

  function Run(st: State, cs: seq<Call>): Progress
    decreases |cs|
  {
    if cs == [] then Next(st)
    else
      match Step(st, cs[0])
      case Crash => Crash
      case Next(t) => Run(t, cs[1..])
  }

  ghost predicate Sound(st: State) {
    Balanced(st.store.heap, st.held, st.store.lost) && Accounted(st.store)
  }

  lemma AllocBalanced(s: Store, held: multiset<Addr>, p: Addr, bytes: nat)
    requires Balanced(s.heap, held, s.lost) && p != NULL && p !in s.heap
    ensures Balanced(AllocAt(s, p, bytes).heap, held + multiset{p}, s.lost)
  {
    var g := AllocAt(s, p, bytes).heap;
    MapBagInsert(s.heap, TargetBag, p, g[p]);
    assert Edges(g) == Edges(s.heap);
    SlotsOk(s.heap, held, s.lost);
    OneMoreRef(s.heap, held, s.lost, p, g, held + multiset{p}, s.lost);
  }

  lemma AllocAccounts(s: Store, p: Addr, bytes: nat)
    requires Accounted(s) && p !in s.heap
    ensures Accounted(AllocAt(s, p, bytes))
  {
    var g := AllocAt(s, p, bytes).heap;
    MapSumUpdate(s.heap, SizeOf, p, g[p]);
    assert s.heap - {p} == s.heap;
    assert |g| == |s.heap| + 1 by { assert g.Keys == s.heap.Keys + {p}; }
  }

  /** A heap in which only the count of `p` went up, by one, balances one more
      reference to `p`, of whichever kind. */
  lemma OneMoreRef(h: Heap, held: multiset<Addr>, lost: multiset<Addr>, p: Addr, g: Heap, held': multiset<Addr>,
                   lost': multiset<Addr>)
    requires Balanced(h, held, lost) && g.Keys == h.Keys + {p} && p != NULL
    requires forall b :: b in g && b != p ==> g[b].count == h[b].count
    requires g[p].count == 1 + if p in h then h[p].count else 0
    requires forall b :: b in g ==> |g[b].targets| <= SLOTS
    requires forall b :: Refs(g, held', lost', b) == Refs(h, held, lost, b) + if b == p then 1 else 0
    ensures Balanced(g, held', lost')
  {
    forall b ensures CountOk(g, held', lost', b) { assert CountOk(h, held, lost, b); }
  }

  /** No block has more than three recorded targets. */
  lemma SlotsOk(h: Heap, held: multiset<Addr>, lost: multiset<Addr>)
    requires Balanced(h, held, lost)
    ensures forall b :: b in h ==> |h[b].targets| <= SLOTS
  {
    forall b | b in h ensures |h[b].targets| <= SLOTS { assert CountOk(h, held, lost, b); }
  }

  lemma ShareBalanced(s: Store, held: multiset<Addr>, p: Addr)
    requires Balanced(s.heap, held, s.lost) && p in s.heap
    ensures IncRef(s, p, NULL).Ok?
    ensures Balanced(IncRef(s, p, NULL).store.heap, held + multiset{p}, s.lost)
  {
    var g := IncRef(s, p, NULL).store.heap;
    EdgesSame(g, s.heap);
    SlotsOk(s.heap, held, s.lost);
    OneMoreRef(s.heap, held, s.lost, p, g, held + multiset{p}, s.lost);
  }

  lemma RecordBalanced(s: Store, held: multiset<Addr>, p: Addr, o: Addr)
    requires Balanced(s.heap, held, s.lost) && p in s.heap && o in s.heap
    ensures IncRef(s, p, o).Ok?
    ensures Balanced(IncRef(s, p, o).store.heap, held, IncRef(s, p, o).store.lost)
  {
    var s' := IncRef(s, p, o).store;
    RecordEdges(s, p, o);
    SlotsOk(s.heap, held, s.lost);
    OneMoreRef(s.heap, held, s.lost, p, s'.heap, held, s'.lost);
  }

  /** A store either records one edge or loses one increment. */
  lemma RecordEdges(s: Store, p: Addr, o: Addr)
    requires p != NULL && o != NULL && p in s.heap && o in s.heap
    ensures var s' := IncRef(s, p, o).store;
            if |s.heap[o].targets| < SLOTS
            then Edges(s'.heap) == Edges(s.heap) + multiset{p} && s'.lost == s.lost
            else Edges(s'.heap) == Edges(s.heap) && s'.lost == s.lost + multiset{p}
  {
    var up := s.heap[p := s.heap[p].(count := s.heap[p].count + 1)];
    EdgesSame(up, s.heap);
    AppendTarget(up, o, p);
  }

  lemma AppendTarget(h: Heap, o: Addr, p: Addr)
    requires o in h
    ensures Edges(h[o := h[o].(targets := h[o].targets + [p])]) == Edges(h) + multiset{p}
  {
    var x := h[o].(targets := h[o].targets + [p]);
    MapBagUpdate(h, TargetBag, o, x);
    assert TargetBag(x) == TargetBag(h[o]) + multiset{p};
    MultisetCancel(Edges(h[o := x]), Edges(h) + multiset{p}, TargetBag(h[o]));
  }

  lemma MultisetCancel(a: multiset<Addr>, b: multiset<Addr>, c: multiset<Addr>)
    requires a + c == b + c
    ensures a == b
  {
    assert a == (a + c) - c && b == (b + c) - c;
  }

  lemma IncAccounts(s: Store, p: Addr, o: Addr)
    requires IncRef(s, p, o).Ok? && Accounted(s)
    ensures Accounted(IncRef(s, p, o).store)
  {
    var g := IncRef(s, p, o).store.heap;
    SameBytes(s.heap, g);
    assert |g| == |g.Keys| == |s.heap.Keys|;
  }

  lemma SameBytes(g: Heap, h: Heap)
    requires g.Keys == h.Keys && forall b :: b in g ==> g[b].size == h[b].size
    ensures Bytes(g) == Bytes(h)
  {
    BytesShrink(g, h);
    BytesShrink(h, g);
  }

  /** Every call that its caller may make succeeds and keeps the runtime sound. */
  lemma StepSound(st: State, c: Call)
    requires Sound(st) && Allowed(st, c)
    ensures Step(st, c).Next? && Sound(Step(st, c).state)
  {
    match c
    case Alloc(p, bytes) =>
      AllocBalanced(st.store, st.held, p, bytes);
      AllocAccounts(st.store, p, bytes);
    case Share(p) => IncSound(st, p, NULL);
    case Record(p, o) => IncSound(st, p, o);
    case Drop(p) => DropSound(st, p);
  }

  lemma IncSound(st: State, p: Addr, o: Addr)
    requires Sound(st) && Allowed(st, Record(p, o))
    ensures Step(st, Record(p, o)).Next? && Sound(Step(st, Record(p, o)).state)
  {
    if p == NULL {
      assert st.held + Handle(p) == st.held;
    } else if o == NULL {
      ShareBalanced(st.store, st.held, p);
    } else {
      RecordBalanced(st.store, st.held, p, o);
    }
    IncAccounts(st.store, p, o);
  }

  lemma DropSound(st: State, p: Addr)
    requires Sound(st) && Allowed(st, Drop(p))
    ensures Step(st, Drop(p)).Next? && Sound(Step(st, Drop(p)).state)
  {
    if p == NULL {
      assert st.held - Handle(p) == st.held;
    } else {
      ReleaseSettles(st.store, st.held, p);
      DropAccounts(st.store, p);
    }
  }

  /** A release keeps the statistics true, on every heap. */
  lemma DropAccounts(s: Store, p: Addr)
    requires DecRef(s, p).Ok? && Accounted(s)
    ensures Accounted(DecRef(s, p).store)
  {
    DecAccounts(s, p);
    var s' := DecRef(s, p).store;
    MapSumNonNegative(s'.heap, SizeOf);
    BytesShrink(s.heap, s'.heap);
  }

  lemma {:induction false} BytesShrink(h: Heap, g: Heap)
    requires g.Keys <= h.Keys && forall b :: b in g ==> g[b].size == h[b].size
    ensures Bytes(g) <= Bytes(h)
    decreases |g|
  {
    if g == map[] {
      MapSumNonNegative(h, SizeOf);
    } else {
      var b :| b in g;
      MapSumTake(g, SizeOf, b);
      MapSumTake(h, SizeOf, b);
      BytesShrink(h - {b}, g - {b});
    }
  }

  /** Whole runs never fault and stay sound. */
  lemma {:induction false} RunSound(st: State, cs: seq<Call>)
    requires Sound(st) && AllowedAll(st, cs)
    ensures Run(st, cs).Next? && Sound(Run(st, cs).state)
    decreases |cs|
  {
    if cs != [] {
      StepSound(st, cs[0]);
      RunSound(Step(st, cs[0]).state, cs[1..]);
    }
  }

  lemma EveryRunSound(cs: seq<Call>)
    requires AllowedAll(Start, cs)
    ensures Run(Start, cs).Next? && Sound(Run(Start, cs).state)
  {
    assert Edges(map[]) == multiset{};
    RunSound(Start, cs);
  }

  /** The values of current_bytes before the first call and after each one. */
  function Moments(st: State, cs: seq<Call>): seq<int>
    decreases |cs|
  {
    if cs == [] then [st.store.stats.current]
    else [st.store.stats.current] + (if Step(st, cs[0]).Next? then Moments(Step(st, cs[0]).state, cs[1..]) else [])
  }

  /** A call raises the peak only to the bytes then in use. */
  lemma StepPeak(st: State, c: Call)
    requires Sound(st) && Allowed(st, c)
    ensures Step(st, c).Next?
    ensures var s, s' := st.store.stats, Step(st, c).state.store.stats;
            s.peak <= s'.peak && (s'.peak == s.peak || s'.peak == s'.current)
  {
    StepSound(st, c);
  }

  lemma {:induction false} RunPeak(st: State, cs: seq<Call>)
    requires Sound(st) && AllowedAll(st, cs)
    ensures Run(st, cs).Next?
    ensures var peak := Run(st, cs).state.store.stats.peak;
            && st.store.stats.peak <= peak
            && (forall c :: c in Moments(st, cs) ==> 0 <= c <= peak)
            && (peak == st.store.stats.peak || peak in Moments(st, cs))
    decreases |cs|
  {
    if cs != [] {
      StepSound(st, cs[0]);
      StepPeak(st, cs[0]);
      var t := Step(st, cs[0]).state;
      RunPeak(t, cs[1..]);
      var rest := Moments(t, cs[1..]);
      assert t.store.stats.current in rest by { assert rest[0] == t.store.stats.current; }
      assert forall c :: c in Moments(st, cs) <==> c == st.store.stats.current || c in rest;
    }
  }

  /** Over every run, peak_bytes is the maximum that current_bytes ever was. */
  lemma EveryRunPeak(cs: seq<Call>)
    requires AllowedAll(Start, cs)
    ensures Run(Start, cs).Next?
    ensures var peak := Run(Start, cs).state.store.stats.peak;
            peak in Moments(Start, cs) && forall c :: c in Moments(Start, cs) ==> 0 <= c <= peak
  {
    assert Edges(map[]) == multiset{};
    RunPeak(Start, cs);
    assert Moments(Start, cs)[0] == 0;
  }

  // ---------- blocks that are never freed ----------

  /** A set that needs no handle to stay alive. */
  ghost predicate SelfSupported(s: Store, keep: set<Addr>) {
    Supported(s.heap, multiset{}, s.lost, keep)
  }

  lemma StepKeepsSelfSupported(st: State, c: Call, keep: set<Addr>)
    requires Sound(st) && Allowed(st, c) && SelfSupported(st.store, keep)
    ensures Step(st, c).Next? && SelfSupported(Step(st, c).state.store, keep)
  {
    match c
    case Alloc(p, bytes) => SupportGrowsWith(st.store, AllocAt(st.store, p, bytes), keep);
    case Share(p) => IncKeepsSelfSupported(st, p, NULL, keep);
    case Record(p, o) => IncKeepsSelfSupported(st, p, o, keep);
    case Drop(p) => if p != NULL { DropKeepsSelfSupported(st, p, keep); }
  }

  lemma IncKeepsSelfSupported(st: State, p: Addr, o: Addr, keep: set<Addr>)
    requires Sound(st) && Allowed(st, Record(p, o)) && SelfSupported(st.store, keep)
    ensures IncRef(st.store, p, o).Ok? && SelfSupported(IncRef(st.store, p, o).store, keep)
  {
    IncOnlyAdds(st.store, p, o);
    SupportGrowsWith(st.store, IncRef(st.store, p, o).store, keep);
  }

  lemma IncOnlyAdds(s: Store, p: Addr, o: Addr)
    requires IncRef(s, p, o).Ok?
    ensures var s' := IncRef(s, p, o).store;
            && s'.heap.Keys == s.heap.Keys && s.lost <= s'.lost
            && forall a :: a in s.heap ==> s.heap[a].targets <= s'.heap[a].targets
  {
  }

  lemma DropKeepsSelfSupported(st: State, p: Addr, keep: set<Addr>)
    requires Sound(st) && p in st.held && SelfSupported(st.store, keep)
    ensures DecRef(st.store, p).Ok? && SelfSupported(DecRef(st.store, p).store, keep)
  {
    var s := st.store;
    ReleaseSettles(s, st.held, p);
    SupportGrows(s.heap, s.heap, multiset{}, st.held - multiset{p}, s.lost, keep);
    SupportGrows(s.heap, DecRef(s, p).store.heap, multiset{}, multiset{}, s.lost, keep);
  }

  /** Recording edges and losing increments only adds support. */
  lemma SupportGrowsWith(s: Store, s': Store, keep: set<Addr>)
    requires SelfSupported(s, keep) && s.heap.Keys <= s'.heap.Keys && s.lost <= s'.lost
    requires forall a :: a in s.heap ==> s.heap[a].targets <= s'.heap[a].targets
    ensures SelfSupported(s', keep)
  {
    forall b | b in keep ensures b in s'.lost || exists a :: a in keep && b in s'.heap[a].targets {
      if b !in s.lost {
        var a :| a in keep && b in s.heap[a].targets;
        assert a in keep && b in s'.heap[a].targets;
      }
    }
  }

  lemma {:induction false} RunKeepsSelfSupported(st: State, cs: seq<Call>, keep: set<Addr>)
    requires Sound(st) && AllowedAll(st, cs) && SelfSupported(st.store, keep)
    ensures Run(st, cs).Next? && keep <= Run(st, cs).state.store.heap.Keys
    decreases |cs|
  {
    if cs != [] {
      StepSound(st, cs[0]);
      StepKeepsSelfSupported(st, cs[0], keep);
      RunKeepsSelfSupported(Step(st, cs[0]).state, cs[1..], keep);
    }
  }

  function Members(c: seq<Addr>): set<Addr> { set x | x in c }

  /** The recorded edges out of `a`; a block that is not live has none. */
  function Targets(h: Heap, a: Addr): seq<Addr> { if a in h then h[a].targets else [] }

  /** A sequence of addresses, each with a recorded edge to the next. Where it leads is
      not assumed to be live. */
  ghost predicate Walk(h: Heap, w: seq<Addr>) {
    && |w| > 0
    && forall i, j :: 0 <= i && j == i + 1 < |w| ==> w[j] in Targets(h, w[i])
  }

  /** A cycle of recorded edges. */
  ghost predicate IsCycle(h: Heap, c: seq<Addr>) {
    Walk(h, c) && c[0] in Targets(h, c[|c|-1])
  }

  /** On a cycle every block is live and has its predecessor's edge. */
  lemma OnCycle(h: Heap, c: seq<Addr>, i: nat) returns (a: Addr)
    requires IsCycle(h, c) && i < |c|
    ensures c[i] in h && a in Members(c) && a in h && c[i] in h[a].targets
  {
    var k := if i == 0 then |c| - 1 else i - 1;
    a := c[k];
    assert c[i] in Targets(h, a);
    var j := if i == |c| - 1 then 0 else i + 1;
    assert c[j] in Targets(h, c[i]);
  }

  lemma CycleSelfSupported(s: Store, c: seq<Addr>)
    requires IsCycle(s.heap, c)
    ensures SelfSupported(s, Members(c))
  {
    forall b | b in Members(c) ensures b in s.heap {
      var i :| 0 <= i < |c| && c[i] == b;
      var a := OnCycle(s.heap, c, i);
    }
    forall b | b in Members(c) ensures exists a :: a in Members(c) && b in s.heap[a].targets {
      var i :| 0 <= i < |c| && c[i] == b;
      var a := OnCycle(s.heap, c, i);
    }
  }

  /** Blocks on a recorded cycle are never freed, whatever the program does next. */
  lemma CyclesNeverFreed(st: State, c: seq<Addr>, cs: seq<Call>)
    requires Sound(st) && IsCycle(st.store.heap, c) && AllowedAll(st, cs)
    ensures Run(st, cs).Next? && forall b :: b in c ==> b in Run(st, cs).state.store.heap
  {
    CycleSelfSupported(st.store, c);
    RunKeepsSelfSupported(st, cs, Members(c));
    assert forall b :: b in c ==> b in Members(c);
  }

  /** Nor is a block with a lost increment. */
  lemma LostNeverFreed(st: State, b: Addr, cs: seq<Call>)
    requires Sound(st) && b in st.store.lost && AllowedAll(st, cs)
    ensures Run(st, cs).Next? && b in Run(st, cs).state.store.heap
  {
    assert CountOk(st.store.heap, st.held, st.store.lost, b);
    RunKeepsSelfSupported(st, cs, {b});
  }

  /** `b` survives every continuation. */
  ghost predicate NeverFreed(st: State, b: Addr) {
    forall cs :: AllowedAll(st, cs) ==> Run(st, cs).Next? && b in Run(st, cs).state.store.heap
  }

  /** What can never go away by itself: a lost increment, or a cycle. */
  ghost predicate Stuck(s: Store, a: Addr) {
    a in s.lost || exists c :: IsCycle(s.heap, c) && a in c
  }

  /** `b` is stuck, or recorded edges lead to it from a block that is. */
  ghost predicate KeptByStuck(s: Store, b: Addr) {
    exists w :: Walk(s.heap, w) && w[|w|-1] == b && Stuck(s, w[0])
  }

  /** The exact condition: a block outlives every continuation if and only if it is on a
      cycle or has a lost increment, or recorded edges lead to it from such a block. */
  lemma NeverFreedIff(st: State, b: Addr)
    requires Sound(st)
    ensures NeverFreed(st, b) <==> KeptByStuck(st.store, b)
  {
    if KeptByStuck(st.store, b) {
      var w :| Walk(st.store.heap, w) && w[|w|-1] == b && Stuck(st.store, w[0]);
      var keep := StuckSupports(st, w);
      forall cs | AllowedAll(st, cs) ensures Run(st, cs).Next? && b in Run(st, cs).state.store.heap {
        RunKeepsSelfSupported(st, cs, keep);
      }
    }
    if NeverFreed(st, b) {
      var cs := DropEverything(st);
      var left := Run(st, cs).state.store.heap.Keys;
      assert b in left && SelfSupported(st.store, left);
      SelfSupportedIsStuck(st.store, left, b);
    }
  }

  /** Everything a stuck block leads to belongs to a self-supported set. */
  lemma StuckSupports(st: State, w: seq<Addr>) returns (keep: set<Addr>)
    requires Sound(st) && Walk(st.store.heap, w) && Stuck(st.store, w[0])
    ensures SelfSupported(st.store, keep) && w[|w|-1] in keep
  {
    var s := st.store;
    if w[0] in s.lost {
      assert CountOk(s.heap, st.held, s.lost, w[0]);
      keep := {w[0]};
    } else {
      var c :| IsCycle(s.heap, c) && w[0] in c;
      CycleSelfSupported(s, c);
      keep := Members(c);
    }
    keep := SupportAlong(st, w, keep, |w| - 1);
  }

  lemma {:induction false} SupportAlong(st: State, w: seq<Addr>, keep: set<Addr>, n: nat) returns (more: set<Addr>)
    requires Sound(st) && Walk(st.store.heap, w) && SelfSupported(st.store, keep) && w[0] in keep && n < |w|
    ensures SelfSupported(st.store, more) && w[n] in more
    decreases n
  {
    more := keep;
    if n > 0 {
      var less := SupportAlong(st, w, keep, n - 1);
      EdgesStayLive(st.store.heap, st.held, st.store.lost, w[n-1], w[n]);
      more := less + {w[n]};
      assert w[n-1] in more && w[n] in st.store.heap[w[n-1]].targets;
      SupportOneMore(st.store, less, w[n-1], w[n]);
    }
  }

  lemma SupportOneMore(s: Store, keep: set<Addr>, a: Addr, b: Addr)
    requires SelfSupported(s, keep) && a in keep && b in s.heap && b in s.heap[a].targets
    ensures SelfSupported(s, keep + {b})
  {
    forall x | x in keep + {b} ensures x in s.lost || exists y :: y in keep + {b} && x in s.heap[y].targets {
      if x == b {
        assert a in keep + {b};
      } else if x !in s.lost {
        var y :| y in keep && x in s.heap[y].targets;
        assert y in keep + {b};
      }
    }
  }

  lemma SelfSupportedIsStuck(s: Store, keep: set<Addr>, b: Addr)
    requires SelfSupported(s, keep) && b in keep
    ensures KeptByStuck(s, b)
  {
    assert Members([b]) == {b};
    var w, c := FindStuck(s.heap, s.lost, keep, [b]);
    if w[0] !in s.lost { assert IsCycle(s.heap, c) && w[0] in c; }
    assert Stuck(s, w[0]) && w[|w|-1] == b;
  }

  /** Walk backwards inside a self-supported set, to a lost increment or until a block
      repeats. */
  lemma {:induction false} FindStuck(h: Heap, lost: multiset<Addr>, keep: set<Addr>, v: seq<Addr>)
      returns (w: seq<Addr>, c: seq<Addr>)
    requires Supported(h, multiset{}, lost, keep) && Walk(h, v) && Members(v) <= keep
    ensures Walk(h, w) && w[|w|-1] == v[|v|-1] && Members(w) <= keep
    ensures w[0] in lost || (IsCycle(h, c) && w[0] in c && Members(c) <= keep)
    decreases keep - Members(v)
  {
    w, c := v, [];
    assert v[0] in Members(v);
    if v[0] !in lost {
      var a :| a in keep && v[0] in h[a].targets;
      if a in v {
        var j :| 0 <= j < |v| && v[j] == a;
        c := v[..j+1];
        assert forall i :: 0 <= i < |c| ==> c[i] == v[i];
        assert Members(c) <= Members(v) && v[0] == c[0];
      } else {
        assert a !in Members(v);
        assert Members([a] + v) == {a} + Members(v);
        PrependWalk(h, a, v);
        w, c := FindStuck(h, lost, keep, [a] + v);
      }
    }
  }

  lemma PrependWalk(h: Heap, a: Addr, w: seq<Addr>)
    requires Walk(h, w) && w[0] in Targets(h, a)
    ensures Walk(h, [a] + w)
  {
    var v := [a] + w;
    forall i, j | 0 <= i && j == i + 1 < |v| ensures v[j] in Targets(h, v[i]) {
      if i > 0 { assert v[i] == w[i-1] && v[j] == w[i]; }
    }
  }

  /** Every sound state can be run to one with no handles, whose survivors are a
      self-supported set of the state it started from. */
  lemma {:induction false} DropEverything(st: State) returns (cs: seq<Call>)
    requires Sound(st)
    ensures AllowedAll(st, cs) && Run(st, cs).Next?
    ensures Run(st, cs).state.held == multiset{}
    ensures Run(st, cs).state.store.lost == st.store.lost
    ensures SelfSupported(st.store, Run(st, cs).state.store.heap.Keys)
    decreases |st.held|
  {
    cs := [];
    if st.held == multiset{} {
      LiveIsSupported(st.store.heap, st.held, st.store.lost);
    } else {
      var p :| p in st.held;
      assert CountOk(st.store.heap, st.held, st.store.lost, p);
      DropSound(st, p);
      var t := Step(st, Drop(p)).state;
      var rest := DropEverything(t);
      cs := Prepend(st, Drop(p), rest);
      SelfSupportedBefore(st.store, p, Run(t, rest).state.store.heap.Keys);
    }
  }

  lemma Prepend(st: State, c: Call, rest: seq<Call>) returns (cs: seq<Call>)
    requires Allowed(st, c) && Step(st, c).Next? && AllowedAll(Step(st, c).state, rest)
    ensures AllowedAll(st, cs) && Run(st, cs) == Run(Step(st, c).state, rest)
  {
    cs := [c] + rest;
    assert cs[1..] == rest;
  }

  lemma SelfSupportedBefore(s: Store, p: Addr, keep: set<Addr>)
    requires DecRef(s, p).Ok? && SelfSupported(DecRef(s, p).store, keep)
    ensures SelfSupported(s, keep)
  {
    SupportGrows(DecRef(s, p).store.heap, s.heap, multiset{}, multiset{}, s.lost, keep);
  }

  // ---------- counting against reachability ----------

  /** A path of recorded edges from a held address. */
  ghost predicate HeldPath(h: Heap, held: multiset<Addr>, path: seq<Addr>) {
    Walk(h, path) && path[0] in held
  }

  ghost predicate Reachable(h: Heap, held: multiset<Addr>, b: Addr) {
    exists path :: HeldPath(h, held, path) && path[|path|-1] == b
  }

  lemma HeldIsReachable(h: Heap, held: multiset<Addr>, b: Addr)
    requires b in held
    ensures Reachable(h, held, b)
  {
    assert HeldPath(h, held, [b]);
    assert [b][|[b]|-1] == b;
  }

  lemma EdgeReachable(h: Heap, held: multiset<Addr>, a: Addr, b: Addr)
    requires Reachable(h, held, a) && b in Targets(h, a)
    ensures Reachable(h, held, b)
  {
    var path :| HeldPath(h, held, path) && path[|path|-1] == a;
    var longer := path + [b];
    assert HeldPath(h, held, longer);
    assert longer[|longer|-1] == b;
  }

  /** A handle and a recorded edge of a balanced heap end at a live block. */
  lemma EdgesStayLive(h: Heap, held: multiset<Addr>, lost: multiset<Addr>, a: Addr, b: Addr)
    requires Balanced(h, held, lost)
    requires b in held || b in Targets(h, a)
    ensures b in h
  {
    EdgeInto(h, b);
    assert CountOk(h, held, lost, b);
  }

  /** So every block on a path from a handle is live, at any distance. */
  lemma {:induction false} PathLive(h: Heap, held: multiset<Addr>, lost: multiset<Addr>, path: seq<Addr>, i: nat)
    requires Balanced(h, held, lost) && HeldPath(h, held, path) && i < |path|
    ensures path[i] in h
    decreases i
  {
    if i > 0 { PathLive(h, held, lost, path, i - 1); }
    EdgesStayLive(h, held, lost, if i > 0 then path[i-1] else path[0], path[i]);
  }

  /** The live set contains everything reachable. */
  lemma ReachableIsLive(h: Heap, held: multiset<Addr>, lost: multiset<Addr>, b: Addr)
    requires Balanced(h, held, lost) && Reachable(h, held, b)
    ensures b in h
  {
    var path :| HeldPath(h, held, path) && path[|path|-1] == b;
    PathLive(h, held, lost, path, |path| - 1);
  }

  /** The same in every run: what the handles reach has not been freed. */
  lemma RunReachableIsLive(cs: seq<Call>, b: Addr)
    requires AllowedAll(Start, cs)
    ensures Run(Start, cs).Next?
    ensures Reachable(Run(Start, cs).state.store.heap, Run(Start, cs).state.held, b)
        ==> b in Run(Start, cs).state.store.heap
  {
    EveryRunSound(cs);
    var st := Run(Start, cs).state;
    if Reachable(st.store.heap, st.held, b) { ReachableIsLive(st.store.heap, st.held, st.store.lost, b); }
  }

  ghost function Unreachable(h: Heap, held: multiset<Addr>): set<Addr> {
    set b | b in h && !Reachable(h, held, b)
  }

  /** Exactly what leaks: some live block cannot be reached from the handles if and
      only if an unreachable block has a lost increment or lies on a cycle. */
  lemma LeakIff(h: Heap, held: multiset<Addr>, lost: multiset<Addr>)
    requires Balanced(h, held, lost)
    ensures Unreachable(h, held) != {} <==>
            || (exists b :: b in lost && b in Unreachable(h, held))
            || (exists c :: IsCycle(h, c) && Members(c) <= Unreachable(h, held))
  {
    var u := Unreachable(h, held);
    if u != {} {
      var b :| b in u;
      assert Members([b]) == {b};
      UnreachableSupported(h, held, lost);
      var w, c := FindStuck(h, lost, u, [b]);
      assert w[0] in Members(w);
    }
    if c :| IsCycle(h, c) && Members(c) <= u {
      assert c[0] in Members(c);
    }
  }

  /** Only an unreachable block can keep an unreachable block alive. */
  lemma UnreachableSupported(h: Heap, held: multiset<Addr>, lost: multiset<Addr>)
    requires Balanced(h, held, lost)
    ensures Supported(h, multiset{}, lost, Unreachable(h, held))
  {
    var u := Unreachable(h, held);
    forall b | b in u ensures b in lost || exists a :: a in u && b in h[a].targets {
      if b in held { HeldIsReachable(h, held, b); }
      assert CountOk(h, held, lost, b);
      EdgeInto(h, b);
      if b !in lost {
        var a :| a in h && b in h[a].targets;
        if Reachable(h, held, a) { EdgeReachable(h, held, a, b); }
        assert a in u;
      }
    }
  }

  /** Without lost increments and cycles, counting is exact garbage collection: the
      live blocks are the reachable ones. */
  lemma AcyclicIsExact(h: Heap, held: multiset<Addr>)
    requires Balanced(h, held, multiset{}) && !exists c :: IsCycle(h, c)
    ensures forall b :: b in h <==> Reachable(h, held, b)
  {
    LeakIff(h, held, multiset{});
    assert forall b :: b in h ==> b !in Unreachable(h, held);
    forall b | Reachable(h, held, b) ensures b in h { ReachableIsLive(h, held, multiset{}, b); }
  }

  /** A heap without handles, lost increments and cycles is empty. */
  lemma NothingLeft(h: Heap)
    requires Balanced(h, multiset{}, multiset{}) && !exists c :: IsCycle(h, c)
    ensures h == map[]
  {
    LeakIff(h, multiset{}, multiset{});
    assert Unreachable(h, multiset{}) == h.Keys;
  }

  /** So once every handle has been given up, all memory has been returned. */
  lemma AllDroppedAllFreed(st: State)
    requires Sound(st) && st.held == multiset{} && st.store.lost == multiset{}
    requires !exists c :: IsCycle(st.store.heap, c)
    ensures st.store.heap == map[] && st.store.stats.current == 0
    ensures st.store.stats.allocations == st.store.stats.collections
  {
    NothingLeft(st.store.heap);
  }

  // ---------- leaks that programs can reach ----------

  /** One more call at the end of a run. */
  lemma {:induction false} RunMore(st: State, cs: seq<Call>, ds: seq<Call>)
    requires AllowedAll(st, cs) && Run(st, cs).Next? && AllowedAll(Run(st, cs).state, ds)
    ensures AllowedAll(st, cs + ds) && Run(st, cs + ds) == Run(Run(st, cs).state, ds)
    decreases |cs|
  {
    if cs == [] {
      assert cs + ds == ds;
    } else {
      assert (cs + ds)[1..] == cs[1..] + ds;
      RunMore(Step(st, cs[0]).state, cs[1..], ds);
    }
  }

  lemma RunOne(st: State, c: Call)
    requires Allowed(st, c) && Step(st, c).Next?
    ensures AllowedAll(st, [c]) && Run(st, [c]) == Step(st, c)
  {
    assert [c][1..] == [];
  }

  /** A block stored in itself and then dropped: no handle is left, and the block stays. */
  lemma SelfStoreLeaks(bytes: nat)
    ensures var cs := [Alloc(1, bytes)] + [Record(1, 1)] + [Drop(1)];
            && AllowedAll(Start, cs) && Run(Start, cs).Next?
            && var st := Run(Start, cs).state;
               st.held == multiset{} && IsCycle(st.store.heap, [1]) && NeverFreed(st, 1)
  {
    var a := Step(Start, Alloc(1, bytes)).state;
    var b := Step(a, Record(1, 1)).state;
    RunOne(Start, Alloc(1, bytes));
    RunOne(a, Record(1, 1));
    RunOne(b, Drop(1));
    RunMore(Start, [Alloc(1, bytes)], [Record(1, 1)]);
    RunMore(Start, [Alloc(1, bytes)] + [Record(1, 1)], [Drop(1)]);
    var cs := [Alloc(1, bytes)] + [Record(1, 1)] + [Drop(1)];
    var st := Run(Start, cs).state;
    EveryRunSound(cs);
    assert st.store.heap[1].targets == [1];
    assert IsCycle(st.store.heap, [1]);
    forall ds | AllowedAll(st, ds) ensures Run(st, ds).Next? && 1 in Run(st, ds).state.store.heap {
      CyclesNeverFreed(st, [1], ds);
    }
  }

  /** `n` stores of block 1 in block 2. */
  function Stores(n: nat): seq<Call> {
    if n == 0 then [Alloc(1, 0)] + [Alloc(2, 0)] else Stores(n - 1) + [Record(1, 2)]
  }

  lemma {:induction false} StoresRun(n: nat)
    requires n <= 4
    ensures AllowedAll(Start, Stores(n)) && Run(Start, Stores(n)).Next?
    ensures var st := Run(Start, Stores(n)).state;
            && 1 in st.store.heap && 2 in st.store.heap
            && |st.store.heap[2].targets| == (if n <= 3 then n else 3)
            && st.store.lost == if n <= 3 then multiset{} else multiset{1}
  {
    if n == 0 {
      var a := Step(Start, Alloc(1, 0)).state;
      RunOne(Start, Alloc(1, 0));
      RunOne(a, Alloc(2, 0));
      RunMore(Start, [Alloc(1, 0)], [Alloc(2, 0)]);
    } else {
      StoresRun(n - 1);
      var st := Run(Start, Stores(n - 1)).state;
      RunOne(st, Record(1, 2));
      RunMore(Start, Stores(n - 1), [Record(1, 2)]);
    }
  }

  /** Four stores in one block, and then all handles dropped: the fourth increment is
      lost, and the block stays. */
  lemma FourStoresLeak() returns (cs: seq<Call>)
    ensures AllowedAll(Start, cs) && Run(Start, cs).Next?
    ensures var st := Run(Start, cs).state;
            st.held == multiset{} && 1 in st.store.lost && NeverFreed(st, 1)
  {
    StoresRun(4);
    EveryRunSound(Stores(4));
    var full := Run(Start, Stores(4)).state;
    var drops := DropEverything(full);
    RunMore(Start, Stores(4), drops);
    cs := Stores(4) + drops;
    EveryRunSound(cs);
    var st := Run(Start, cs).state;
    forall ds | AllowedAll(st, ds) ensures Run(st, ds).Next? && 1 in Run(st, ds).state.store.heap {
      LostNeverFreed(st, 1, ds);
    }
  }
}

