/** What the heap of the reference-count runtime contains, told from the calls alone: which
    block a store is recorded in, what was asked of malloc, and that a stored block lives as
    long as the block it was stored in. */
module RefCountHistory {
  import opened RefCountStore
  import opened RefCountCascade
  import opened RefCountRuns

  // ---------- one store ----------

  /** `p` has one more reference. It is an edge out of `o` if `o` has room for it, and lost
      otherwise. Nothing else changes. */
  ghost predicate OneMoreIn(s: Store, s': Store, p: Addr, o: Addr) {
    && p in s.heap && o in s.heap && s'.heap.Keys == s.heap.Keys && s'.stats == s.stats
    && (if |Targets(s.heap, o)| < SLOTS
        then Targets(s'.heap, o) == Targets(s.heap, o) + [p] && s'.lost == s.lost
        else Targets(s'.heap, o) == Targets(s.heap, o) && s'.lost == s.lost + multiset{p})
    && (forall a :: a != o ==> Targets(s'.heap, a) == Targets(s.heap, a))
    && (forall a :: a in s.heap ==> s'.heap[a].size == s.heap[a].size)
    && (forall a :: a in s.heap ==> s'.heap[a].count == s.heap[a].count + if a == p then 1 else 0)
  }

  /** inc_ref_count(p, o). */
  lemma IncRecords(s: Store, p: Addr, o: Addr)
    requires p != NULL && o != NULL && p in s.heap && o in s.heap
    ensures IncRef(s, p, o).Ok? && OneMoreIn(s, IncRef(s, p, o).store, p, o)
  {
  }

  /** `p` was stored in `o`: there is an edge, or an increment that nobody gives back. */
  ghost predicate StoredIn(s: Store, p: Addr, o: Addr) { p in Targets(s.heap, o) || p in s.lost }

  /** `a` is live in every state of the run. */
  ghost predicate LivesThrough(st: State, cs: seq<Call>, a: Addr)
    decreases |cs|
  {
    a in st.store.heap && (cs != [] && Step(st, cs[0]).Next? ==> LivesThrough(Step(st, cs[0]).state, cs[1..], a))
  }

  lemma StepKeepsStored(st: State, c: Call, p: Addr, o: Addr)
    requires Allowed(st, c) && Step(st, c).Next?
    requires o in st.store.heap && o in Step(st, c).state.store.heap && StoredIn(st.store, p, o)
    ensures StoredIn(Step(st, c).state.store, p, o)
  {
    match c
    case Alloc(_, _) =>
    case Share(q) => IncOnlyAdds(st.store, q, NULL);
    case Record(q, a) => IncOnlyAdds(st.store, q, a);
    case Drop(_) =>
  }

  /** Over every run, a block stored in another lives as long as that block does, whatever
      becomes of the handles. */
  lemma {:induction false} StoredLivesOn(st: State, cs: seq<Call>, p: Addr, o: Addr)
    requires Sound(st) && AllowedAll(st, cs) && StoredIn(st.store, p, o) && LivesThrough(st, cs, o)
    ensures LivesThrough(st, cs, p)
    decreases |cs|
  {
    EdgeInto(st.store.heap, p);
    assert CountOk(st.store.heap, st.held, st.store.lost, p);
    if cs != [] {
      StepSound(st, cs[0]);
      StepKeepsStored(st, cs[0], p, o);
      StoredLivesOn(Step(st, cs[0]).state, cs[1..], p, o);
    }
  }

  lemma RecordStores(st: State, p: Addr, o: Addr)
    requires p != NULL && p in st.store.heap && o != NULL && o in st.store.heap
    ensures Step(st, Record(p, o)).Next? && StoredIn(Step(st, Record(p, o)).state.store, p, o)
  {
    IncRecords(st.store, p, o);
  }

  /** And no longer: with one handle each and no other reference, storing `p` in `o` and
      giving up both handles, in either order, frees both. */
  lemma PairFreed(st: State, p: Addr, o: Addr, pFirst: bool)
    requires Sound(st) && p != o && st.held[p] == 1 && st.held[o] == 1
    requires Refs(st.store.heap, st.held, st.store.lost, p) == 1
    requires Refs(st.store.heap, st.held, st.store.lost, o) == 1
    requires |Targets(st.store.heap, o)| < SLOTS
    ensures var cs := [Record(p, o)] + if pFirst then [Drop(p), Drop(o)] else [Drop(o), Drop(p)];
            && AllowedAll(st, cs) && Run(st, cs).Next?
            && p !in Run(st, cs).state.store.heap && o !in Run(st, cs).state.store.heap
  {
    var a, b := if pFirst then p else o, if pFirst then o else p;
    assert CountOk(st.store.heap, st.held, st.store.lost, p) && CountOk(st.store.heap, st.held, st.store.lost, o);
    RecordStep(st, p, o);
    var st1 := Step(st, Record(p, o)).state;
    TwoDrops(st1, a, b);
    RunCons(st, Record(p, o), [Drop(a), Drop(b)]);
    PairUnreferenced(st, Run(st1, [Drop(a), Drop(b)]).state, p, o);
  }

  lemma RecordStep(st: State, p: Addr, o: Addr)
    requires Sound(st) && p in st.store.heap && o in st.store.heap && |Targets(st.store.heap, o)| < SLOTS
    ensures Allowed(st, Record(p, o)) && Step(st, Record(p, o)).Next?
    ensures var st1 := Step(st, Record(p, o)).state;
            && Sound(st1) && st1.held == st.held && st1.store.lost == st.store.lost
            && Targets(st1.store.heap, o) == Targets(st.store.heap, o) + [p]
            && forall a :: a != o ==> Targets(st1.store.heap, a) == Targets(st.store.heap, a)
  {
    IncRecords(st.store, p, o);
    StepSound(st, Record(p, o));
  }

  lemma TwoDrops(st: State, a: Addr, b: Addr)
    requires Sound(st) && a != b && a != NULL && b != NULL && st.held[a] == 1 && st.held[b] == 1
    ensures AllowedAll(st, [Drop(a), Drop(b)]) && Run(st, [Drop(a), Drop(b)]).Next?
    ensures var end := Run(st, [Drop(a), Drop(b)]).state;
            && Sound(end) && end.held[a] == 0 && end.held[b] == 0 && end.store.lost == st.store.lost
            && forall x :: x in end.store.heap ==> Targets(end.store.heap, x) == Targets(st.store.heap, x)
  {
    StepSound(st, Drop(a));
    var st1 := Step(st, Drop(a)).state;
    StepSound(st1, Drop(b));
    RunCons(st1, Drop(b), []);
    RunCons(st, Drop(a), [Drop(b)]);
    assert [Drop(b)] + [] == [Drop(b)] && [Drop(a)] + [Drop(b)] == [Drop(a), Drop(b)];
  }

  lemma RunCons(st: State, c: Call, rest: seq<Call>)
    requires Allowed(st, c) && Step(st, c).Next? && AllowedAll(Step(st, c).state, rest)
    ensures AllowedAll(st, [c] + rest) && Run(st, [c] + rest) == Run(Step(st, c).state, rest)
  {
    assert ([c] + rest)[1..] == rest;
  }

  /** All that is left of the references to `p` and `o` is the edge between them. */
  lemma PairUnreferenced(st: State, end: State, p: Addr, o: Addr)
    requires Sound(end) && p != o && end.held[p] == 0 && end.held[o] == 0
    requires end.store.lost[p] == 0 && end.store.lost[o] == 0
    requires Edges(st.store.heap)[p] == 0 && Edges(st.store.heap)[o] == 0
    requires forall a :: a in end.store.heap && a != o ==> Targets(end.store.heap, a) == Targets(st.store.heap, a)
    requires o in end.store.heap ==> Targets(end.store.heap, o) == Targets(st.store.heap, o) + [p]
    ensures p !in end.store.heap && o !in end.store.heap
  {
    var h := end.store.heap;
    EdgeInto(st.store.heap, p);
    EdgeInto(st.store.heap, o);
    EdgeInto(h, p);
    EdgeInto(h, o);
    assert CountOk(h, end.held, end.store.lost, p) && CountOk(h, end.held, end.store.lost, o);
    forall a | a in h ensures o !in h[a].targets { assert o !in Targets(st.store.heap, a); }
  }

  // ---------- whole runs ----------

  /** What a run wrote down: for each address the stores made into the block last allocated
      there, up to three, and the bytes asked for it; and the stores that found no room. */
  datatype Book = Book(stores: map<Addr, seq<Addr>>, asked: map<Addr, nat>, lost: multiset<Addr>)

  function Enter(b: Book, c: Call): Book {
    match c
    case Alloc(p, bytes) => b.(stores := b.stores[p := []], asked := b.asked[p := bytes])
    case Record(p, o) =>
      if p == NULL || o !in b.stores then b
      else if |b.stores[o]| < 3 then b.(stores := b.stores[o := b.stores[o] + [p]])
      else b.(lost := b.lost + multiset{p})
    case Share(_) => b
    case Drop(_) => b
  }

  function EnterAll(b: Book, cs: seq<Call>): Book
    decreases |cs|
  {
    if cs == [] then b else EnterAll(Enter(b, cs[0]), cs[1..])
  }

  const Blank := Book(map[], map[], multiset{})

  /** Edges and sizes of the live blocks, and the lost increments, are as written down. */
  ghost predicate Agrees(s: Store, b: Book) {
    s.lost == b.lost && NULL !in b.stores && forall a :: a in s.heap ==> AgreesAt(s, b, a)
  }

  ghost predicate AgreesAt(s: Store, b: Book, a: Addr)
    requires a in s.heap
  {
    && a in b.stores && s.heap[a].targets == b.stores[a]
    && a in b.asked && s.heap[a].size == b.asked[a] + 48
  }

  lemma IncAgrees(s: Store, b: Book, p: Addr, o: Addr)
    requires Agrees(s, b) && IncRef(s, p, o).Ok?
    ensures Agrees(IncRef(s, p, o).store, Enter(b, Record(p, o)))
  {
    var s', b' := IncRef(s, p, o).store, Enter(b, Record(p, o));
    assert o in s.heap ==> AgreesAt(s, b, o);
    forall a | a in s'.heap ensures AgreesAt(s', b', a) { assert AgreesAt(s, b, a); }
  }

  lemma StepAgrees(st: State, b: Book, c: Call)
    requires Agrees(st.store, b) && Allowed(st, c) && Step(st, c).Next?
    ensures Agrees(Step(st, c).state.store, Enter(b, c))
  {
    var s', b' := Step(st, c).state.store, Enter(b, c);
    match c
    case Alloc(p, bytes) =>
      forall a | a in s'.heap ensures AgreesAt(s', b', a) { assert a != p ==> AgreesAt(st.store, b, a); }
    case Share(p) =>
      IncAgrees(st.store, b, p, NULL);
    case Record(p, o) => IncAgrees(st.store, b, p, o);
    case Drop(p) =>
      forall a | a in s'.heap ensures AgreesAt(s', b', a) { assert AgreesAt(st.store, b, a); }
  }

  lemma {:induction false} RunAgrees(st: State, b: Book, cs: seq<Call>)
    requires Agrees(st.store, b) && Sound(st) && AllowedAll(st, cs)
    ensures Run(st, cs).Next? && Agrees(Run(st, cs).state.store, EnterAll(b, cs))
    decreases |cs|
  {
    if cs != [] {
      StepSound(st, cs[0]);
      StepAgrees(st, b, cs[0]);
      RunAgrees(Step(st, cs[0]).state, Enter(b, cs[0]), cs[1..]);
    }
  }

  /** Every run, from the start: the live blocks have exactly the edges that were stored in
      them and the bytes asked for them with a header, and the bytes in use are their sum. */
  lemma EveryRunAgrees(cs: seq<Call>)
    requires AllowedAll(Start, cs)
    ensures Run(Start, cs).Next? && Agrees(Run(Start, cs).state.store, EnterAll(Blank, cs))
    ensures var s := Run(Start, cs).state.store; s.stats.current == Bytes(s.heap)
  {
    assert Edges(map[]) == multiset{};
    RunAgrees(Start, Blank, cs);
    EveryRunSound(cs);
  }
}
