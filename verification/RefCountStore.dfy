/** The reference-count runtime (runtime/src/reference_count_allocator.c).

    Memory is a map from block addresses to headers, so that touching an
    address outside the map is visible as a `Fault`: in C that is a read or
    write of memory already handed back to `free`. The functions of this module
    are total and follow the C code branch by branch; `RefCountRuntime` is the
    same code in imperative form. */
module RefCountStore {
  import opened RuntimeStats

  /** Address 0 is NULL. */
  type Addr = nat

  const NULL: Addr := 0

  /** sizeof(RefcountHeader): count, size, three recorded targets, idx, padding. */
  const HEADER_SIZE := 48

  /** Length of the `to_free` array. */
  const SLOTS := 3

  /** A block header. `targets` is the filled part `to_free[0..idx]`. */
  datatype Header = Header(count: int, size: nat, targets: seq<Addr>)

  type Heap = map<Addr, Header>

  /** `lost` is bookkeeping that the C code does not keep: the increments made by
      a store into a block whose three slots were already taken. */
  datatype Store = Store(heap: Heap, stats: Stats, lost: multiset<Addr>)

  datatype Result = Ok(store: Store) | Fault

  const EmptyStore := Store(map[], Stats(0, 0, 0, 0), multiset{})

  /** The blocks whose count has not yet reached zero. */
  function Positive(h: Heap): set<Addr> {
    set a | a in h && h[a].count > 0
  }

  /** rc_alloc, at an address `p` chosen by malloc. */
  function AllocAt(s: Store, p: Addr, bytes: nat): (r: Store) {
    var size := bytes + HEADER_SIZE;
    var current := s.stats.current + size;
    s.(heap := s.heap[p := Header(1, size, [])],
       stats := s.stats.(allocations := s.stats.allocations + 1, current := current,
                         peak := if current > s.stats.peak then current else s.stats.peak))
  }

  /** inc_ref_count(p, o). */
  function IncRef(s: Store, p: Addr, o: Addr): (r: Result) {
    if p == NULL then Ok(s)
    else if p !in s.heap then Fault
    else
      var s1 := s.(heap := s.heap[p := s.heap[p].(count := s.heap[p].count + 1)]);
      if o == NULL then Ok(s1)
      else if o !in s.heap then Fault
      else if |s.heap[o].targets| < SLOTS then
        Ok(s1.(heap := s1.heap[o := s1.heap[o].(targets := s1.heap[o].targets + [p])]))
      else Ok(s1.(lost := s1.lost + multiset{p}))
  }

  /** free(header) with its accounting. */
  function Free(s: Store, p: Addr): (r: Result) {
    if p !in s.heap then Fault
    else Ok(s.(heap := s.heap - {p},
               stats := s.stats.(collections := s.stats.collections + 1,
                                 current := s.stats.current - s.heap[p].size)))
  }

  /** What a release leaves alone: it adds no block, never touches sizes or
      recorded targets, never frees a block whose count is not positive, and
      never raises a count. */
  ghost predicate Shrinks(a: Store, b: Store) {
    && b.heap.Keys <= a.heap.Keys
    && b.lost == a.lost
    && b.stats.allocations == a.stats.allocations
    && b.stats.peak == a.stats.peak
    && (forall x :: x in b.heap ==> b.heap[x].size == a.heap[x].size && b.heap[x].targets == a.heap[x].targets)
    && (forall x :: x in b.heap ==> b.heap[x].count <= a.heap[x].count)
    && (forall x :: x in a.heap && a.heap[x].count <= 0 ==> x in b.heap)
  }

  /** dec_ref_count(p, 0), including the recursive cascade. It terminates on every
      heap, balanced or not, because it recurses only after taking a block out of
      `Positive`. */
  function DecRef(s: Store, p: Addr): (r: Result)
    ensures r.Ok? ==> Shrinks(s, r.store)
    decreases Positive(s.heap), 0
  {
    if p == NULL then Ok(s)
    else if p !in s.heap then Fault
    else
      var h := s.heap[p];
      var s1 := s.(heap := s.heap[p := h.(count := h.count - 1)]);
      if h.count - 1 != 0 then Ok(s1)
      else
        assert p in Positive(s.heap) && p !in Positive(s1.heap);
        assert Positive(s1.heap) <= Positive(s.heap);
        match DecAll(s1, h.targets)
        case Fault => Fault
        case Ok(s2) => Free(s2, p)
  }

  /** The cascade loop over `to_free[0..idx]`. */
  function DecAll(s: Store, ts: seq<Addr>): (r: Result)
    ensures r.Ok? ==> Shrinks(s, r.store)
    decreases Positive(s.heap), |ts|
  {
    if ts == [] then Ok(s)
    else
      match DecRef(s, ts[0])
      case Fault => Fault
      case Ok(s1) =>
        assert Positive(s1.heap) <= Positive(s.heap);
        DecAll(s1, ts[1..])
  }

  lemma {:induction false} DecAllAppend(s: Store, ts: seq<Addr>, us: seq<Addr>)
    ensures DecAll(s, ts + us) ==
            match DecAll(s, ts) { case Fault => Fault case Ok(s1) => DecAll(s1, us) }
    decreases |ts|
  {
    if ts == [] {
      assert ts + us == us;
    } else {
      assert (ts + us)[1..] == ts[1..] + us;
      match DecRef(s, ts[0]) {
        case Fault =>
        case Ok(s1) => DecAllAppend(s1, ts[1..], us);
      }
    }
  }
}

/** The runtime as the C code has it: static state updated in place, the cascade a
    recursive method with a loop over the recorded targets. */
module RefCountRuntime {
  import opened RuntimeStats
  import opened RefCountStore

  class Runtime {
    var heap: Heap
    var stats: Stats
    ghost var lost: multiset<Addr>

    ghost function State(): Store
      reads this
    {
      Store(heap, stats, lost)
    }

    constructor ()
      ensures State() == EmptyStore
    {
      heap := map[];
      stats := Stats(0, 0, 0, 0);
      lost := multiset{};
    }

    method Alloc(bytes: nat, block: Addr) returns (p: Addr)
      requires block != NULL && block !in heap
      modifies this
      ensures p == block && State() == AllocAt(old(State()), block, bytes)
    {
      var size := bytes + HEADER_SIZE;
      heap := heap[block := Header(1, size, [])];
      stats := stats.(allocations := stats.allocations + 1, current := stats.current + size);
      if stats.current > stats.peak {
        stats := stats.(peak := stats.current);
      }
      p := block;
    }

    method Inc(p: Addr, other: Addr)
      requires IncRef(State(), p, other).Ok?
      modifies this
      ensures Ok(State()) == IncRef(old(State()), p, other)
    {
      if p == NULL { return; }
      heap := heap[p := heap[p].(count := heap[p].count + 1)];
      if other != NULL {
        if |heap[other].targets| < SLOTS {
          heap := heap[other := heap[other].(targets := heap[other].targets + [p])];
        } else {
          lost := lost + multiset{p};
        }
      }
    }

    method Dec(p: Addr)
      requires DecRef(State(), p).Ok?
      modifies this
      ensures Ok(State()) == DecRef(old(State()), p)
      decreases Positive(heap), 0
    {
      if p == NULL { return; }
      heap := heap[p := heap[p].(count := heap[p].count - 1)];
      if heap[p].count == 0 {
        PositiveFalls(old(State()), State(), p);
        ReleaseTargets(p);
        FreeBlock(p);
      }
    }

    method FreeBlock(p: Addr)
      requires p in heap
      modifies this`heap, this`stats
      ensures Ok(State()) == Free(old(State()), p)
    {
      stats := stats.(collections := stats.collections + 1, current := stats.current - heap[p].size);
      heap := heap - {p};
    }

    /** The loop of dec_ref_count over the recorded targets of a block whose count is 0. */
    method ReleaseTargets(p: Addr)
      requires p in heap && heap[p].count == 0 && DecAll(State(), heap[p].targets).Ok?
      modifies this
      ensures Ok(State()) == DecAll(old(State()), old(heap[p].targets))
      decreases Positive(heap), 1
    {
      ghost var s1, ts := State(), heap[p].targets;
      var i := 0;
      LoopPrefix(s1, p, 0);
      while i < |heap[p].targets|
        invariant p in heap && heap[p].targets == ts && i <= |ts|
        invariant DecAll(s1, ts[..i]) == Ok(State())
        invariant Positive(heap) <= Positive(s1.heap)
        decreases |ts| - i
      {
        LoopPrefix(s1, p, i);
        Dec(heap[p].targets[i]);
        i := i + 1;
        LoopPrefix(s1, p, i);
      }
      assert ts[..i] == ts;
    }
  }

  lemma PositiveFalls(s: Store, s1: Store, p: Addr)
    requires p in s.heap && s.heap[p].count == 1
    requires s1.heap == s.heap[p := s.heap[p].(count := 0)]
    ensures Positive(s1.heap) < Positive(s.heap)
  {
    assert p in Positive(s.heap) && p !in Positive(s1.heap);
  }

  /** While block `p` is being released, the loop over its targets succeeds up to
      every index, each iteration is one release, and `p` itself stays allocated
      with its targets untouched. */
  lemma LoopPrefix(s: Store, p: Addr, i: nat)
    requires p in s.heap && s.heap[p].count == 0 && i <= |s.heap[p].targets|
    requires DecAll(s, s.heap[p].targets).Ok?
    ensures var ts := s.heap[p].targets;
            var r := DecAll(s, ts[..i]);
            && r.Ok?
            && p in r.store.heap && r.store.heap[p].targets == ts
            && Positive(r.store.heap) <= Positive(s.heap)
            && (i < |ts| ==> DecRef(r.store, ts[i]).Ok? && DecAll(s, ts[..i+1]) == DecRef(r.store, ts[i]))
  {
    var ts := s.heap[p].targets;
    assert ts == ts[..i] + ts[i..];
    DecAllAppend(s, ts[..i], ts[i..]);
    if i < |ts| { LoopStep(s, ts, i); }
  }

  lemma LoopStep(s: Store, ts: seq<Addr>, i: nat)
    requires i < |ts| && DecAll(s, ts[..i]).Ok? && DecAll(DecAll(s, ts[..i]).store, ts[i..]).Ok?
    ensures var s1 := DecAll(s, ts[..i]).store;
            DecRef(s1, ts[i]).Ok? && DecAll(s, ts[..i+1]) == DecRef(s1, ts[i])
  {
    var s1 := DecAll(s, ts[..i]).store;
    assert ts[..i+1] == ts[..i] + [ts[i]];
    DecAllAppend(s, ts[..i], [ts[i]]);
    DecAllSingle(s1, ts[i]);
  }

  lemma DecAllSingle(s: Store, t: Addr)
    ensures DecAll(s, [t]) == DecRef(s, t)
  {
    match DecRef(s, t) {
      case Fault =>
      case Ok(s1) => assert [t][1..] == [] && DecAll(s1, []) == Ok(s1);
    }
  }
}

