/** Whole runs of the mark-sweep runtime: allocation, threshold-triggered and
    explicit collection, shutdown, and arbitrary writes by the program in between. */
module MarkSweepRuns {
  import opened RuntimeStats
  import opened MarkSweepModel

  /** `blocks` is the allocation list from its head. `freed` logs the serial numbers
      of the blocks handed to free, in order. */
  datatype State = State(blocks: seq<Block>, stats: Stats, threshold: nat, freed: seq<nat>)

  function Start(threshold: nat): State { State([], Stats(0, 0, 0, 0), threshold, []) }

  /** ms_alloc up to its threshold test: malloc has chosen `addr`, and the fresh
      payload holds whatever words were there. */
  function Add(s: State, addr: nat, payload: seq<Word>): State {
    var b := Block(s.stats.allocations, addr, payload);
    var current := s.stats.current + Size(b);
    s.(blocks := [b] + s.blocks,
       stats := s.stats.(allocations := s.stats.allocations + 1, current := current,
                         peak := if current > s.stats.peak then current else s.stats.peak))
  }

  /** collect_garbage, with `ws` the words found on the stack and in the root cells. */
  function Collect(s: State, ws: seq<Word>): State {
    var m := MarkPhase(s.blocks, ws);
    var garbage := Drop(s.blocks, m);
    s.(blocks := Keep(s.blocks, m),
       stats := s.stats.(current := s.stats.current - Bytes(garbage),
                         collections := s.stats.collections + |garbage|),
       freed := s.freed + Ids(garbage))
  }

  /** ms_alloc. */
  function Alloc(s: State, addr: nat, payload: seq<Word>, ws: seq<Word>): State {
    var a := Add(s, addr, payload);
    if a.stats.current > a.threshold then Collect(a, ws) else a
  }

  /** ms_shutdown: collect, then free what is left without touching the statistics. */
  function Shutdown(s: State, ws: seq<Word>): State {
    var c := Collect(s, ws);
    c.(blocks := [], freed := c.freed + Ids(c.blocks))
  }

  /** malloc returns memory outside every listed block. */
  ghost predicate Unused(h: seq<Block>, addr: nat, payload: seq<Word>) {
    forall b :: b in h ==> Apart(Block(0, addr, payload), b)
  }

  /** Each allocation is listed once or freed once, and never both. */
  ghost predicate EachOnce(listed: seq<nat>, freed: seq<nat>, allocations: nat) {
    forall id: nat :: Times(listed, id) + Times(freed, id) == if id < allocations then 1 else 0
  }

  ghost predicate Sound(s: State) {
    && Disjoint(s.blocks)
    && s.stats.current == Bytes(s.blocks)
    && s.stats.allocations == |s.blocks| + s.stats.collections
    && s.stats.current <= s.stats.peak
    && EachOnce(Ids(s.blocks), s.freed, s.stats.allocations)
  }

  lemma AddSound(s: State, addr: nat, payload: seq<Word>)
    requires Sound(s) && Unused(s.blocks, addr, payload)
    ensures Sound(Add(s, addr, payload))
  {
    var t := Add(s, addr, payload);
    var b := t.blocks[0];
    PushTotals(b, s.blocks, |s.blocks|);
    assert ([b.id] + Ids(s.blocks))[1..] == Ids(s.blocks);
    PushDisjoint(s.blocks, b);
  }

  lemma PushDisjoint(h: seq<Block>, b: Block)
    requires Disjoint(h) && Unused(h, b.addr, b.payload)
    ensures Disjoint([b] + h)
  {
    forall i, j | 0 <= i < j < |[b] + h| ensures ApartAt([b] + h, i, j) {
      assert h[j-1] in h && Apart(Block(0, b.addr, b.payload), h[j-1]);
      if i > 0 { assert ApartAt(h, i - 1, j - 1); }
    }
  }

  lemma CollectSound(s: State, ws: seq<Word>)
    requires Sound(s)
    ensures Sound(Collect(s, ws))
    ensures Collect(s, ws).stats.current <= s.stats.current
  {
    var m := MarkPhase(s.blocks, ws);
    KeepDropTo(s.blocks, m, |s.blocks|);
    KeepDisjoint(s.blocks, m);
    var garbage := Ids(Drop(s.blocks, m));
    forall id: nat ensures Times(Ids(Keep(s.blocks, m)), id) + Times(s.freed + garbage, id)
            == Times(Ids(s.blocks), id) + Times(s.freed, id) {
      KeepDropIds(s.blocks, m, |s.blocks|, id);
      TimesConcat(s.freed, garbage, id);
    }
  }

  lemma AllocSound(s: State, addr: nat, payload: seq<Word>, ws: seq<Word>)
    requires Sound(s) && Unused(s.blocks, addr, payload)
    ensures Sound(Alloc(s, addr, payload, ws))
  {
    AddSound(s, addr, payload);
    var a := Add(s, addr, payload);
    if a.stats.current > a.threshold { CollectSound(a, ws); }
  }

  /** The bytes that a block of the given payload takes. */
  function Needs(payload: seq<Word>): nat { HEADER_SIZE + WORD_SIZE * |payload| }

  /** An allocation within the threshold: the new block comes before the older ones, nothing
      is freed, and every address of its payload, from the one returned, finds it. */
  lemma AllocWithin(s: State, addr: nat, payload: seq<Word>, ws: seq<Word>)
    requires s.stats.current + Needs(payload) <= s.threshold
    ensures var b, r := Block(s.stats.allocations, addr, payload), Alloc(s, addr, payload, ws);
            && r.blocks == [b] + s.blocks && r.freed == s.freed && r.threshold == s.threshold
            && r.stats.current == s.stats.current + HEADER_SIZE + WORD_SIZE * |payload|
            && r.stats.allocations == s.stats.allocations + 1 && r.stats.collections == s.stats.collections
            && forall w :: addr + HEADER_SIZE <= w < addr + HEADER_SIZE + WORD_SIZE * |payload|
                       ==> Find(r.blocks, w) == Some(b)
  {
    var b, r := Block(s.stats.allocations, addr, payload), Alloc(s, addr, payload, ws);
    assert r.blocks[0] == b;
  }

  /** An allocation past the threshold: what is left, of the new block and the older ones, is
      exactly what the scanned words reach. */
  lemma AllocBeyond(s: State, addr: nat, payload: seq<Word>, ws: seq<Word>)
    requires Sound(s) && Unused(s.blocks, addr, payload)
    requires s.stats.current + Needs(payload) > s.threshold
    ensures var all, r := [Block(s.stats.allocations, addr, payload)] + s.blocks, Alloc(s, addr, payload, ws);
            && (forall c :: c in r.blocks <==> c in all && Reach(all, ws, c))
            && (forall c :: c in r.blocks ==> Reach(r.blocks, ws, c))
            && r.stats.allocations == s.stats.allocations + 1
  {
    var a := Add(s, addr, payload);
    AddSound(s, addr, payload);
    assert a.blocks == [Block(s.stats.allocations, addr, payload)] + s.blocks;
    CollectedExact(a.blocks, ws);
    forall b | b in Collected(a.blocks, ws) ensures Reach(Collected(a.blocks, ws), ws, b) {
      ReachAfterCollection(a.blocks, ws, b);
    }
  }

  /** The new block is still listed exactly when no collection ran or a scanned word leads
      into its payload. */
  lemma AllocOutcome(s: State, addr: nat, payload: seq<Word>, ws: seq<Word>)
    requires Sound(s) && Unused(s.blocks, addr, payload)
    ensures var b, r := Block(s.stats.allocations, addr, payload), Alloc(s, addr, payload, ws);
            && (r.stats.current <= r.threshold || forall c :: c in r.blocks ==> Reach(r.blocks, ws, c))
            && (b in r.blocks <==>
                s.stats.current + Needs(payload) <= s.threshold || Reach([b] + s.blocks, ws, b))
  {
    if s.stats.current + Needs(payload) <= s.threshold {
      AllocWithin(s, addr, payload, ws);
    } else {
      AllocBeyond(s, addr, payload, ws);
    }
  }

  /** A collection triggered by an allocation frees the new block itself unless a scanned
      word or the payload of an older block points past its header. Pointers to the header
      itself do not help, see `HeaderWordsIgnored`. */
  lemma HeaderOnlyIsFreed(s: State, addr: nat, payload: seq<Word>, ws: seq<Word>)
    requires Sound(s) && Unused(s.blocks, addr, payload)
    requires s.stats.current + Needs(payload) > s.threshold
    requires var b := Block(s.stats.allocations, addr, payload);
             !Hit(ws, b) && forall c :: c in s.blocks ==> !Hit(c.payload, b)
    ensures Block(s.stats.allocations, addr, payload) !in Alloc(s, addr, payload, ws).blocks
  {
    var a := Add(s, addr, payload);
    AddSound(s, addr, payload);
    UnreachedFreed(a.blocks, ws, {Block(s.stats.allocations, addr, payload)});
  }

  /** The first allocation of a program with threshold 0, and only its header address on the
      stack: the block is freed before its address is returned. */
  lemma FirstBlockFreed(addr: nat, payload: seq<Word>)
    requires addr > 0
    ensures var s := Start(0);
            && Sound(s) && Unused(s.blocks, addr, payload)
            && Block(0, addr, payload) !in Alloc(s, addr, payload, [addr]).blocks
  {
    EmptyTotals();
    HeaderOnlyIsFreed(Start(0), addr, payload, [addr]);
  }

  lemma EmptyTotals()
    ensures Sound(Start(0))
  {
    forall id: nat ensures Times(Ids(Start(0).blocks), id) + Times([], id) == 0 {}
  }

  /** Collecting twice in a row is collecting once, statistics included. */
  lemma CollectIdempotent(s: State, ws: seq<Word>)
    requires Sound(s)
    ensures Collect(Collect(s, ws), ws) == Collect(s, ws)
  {
    CollectTwice(s.blocks, ws);
  }

  /** After shutdown every allocation ever made has been freed exactly once. The statistics
      still have the blocks that were reachable. */
  lemma ShutdownFreesEachOnce(s: State, ws: seq<Word>)
    requires Sound(s)
    ensures Shutdown(s, ws).blocks == []
    ensures var kept, stats := Collected(s.blocks, ws), Shutdown(s, ws).stats;
            stats.current == Bytes(kept) && stats.collections == s.stats.allocations - |kept|
    ensures EachOnce([], Shutdown(s, ws).freed, Shutdown(s, ws).stats.allocations)
  {
    CollectSound(s, ws);
    var c := Collect(s, ws);
    forall id: nat ensures Times(c.freed + Ids(c.blocks), id) == Times(Ids(c.blocks), id) + Times(c.freed, id) {
      TimesConcat(c.freed, Ids(c.blocks), id);
    }
  }

  // ---------- runs ----------

  datatype Op =
    | DoAlloc(addr: nat, payload: seq<Word>, scanned: seq<Word>)
    | DoGc(scanned: seq<Word>)
    | DoWrite(block: nat, offset: nat, word: Word)
    | SetThreshold(bytes: nat)

  function Write(h: seq<Block>, i: nat, k: nat, w: Word): seq<Block> {
    if i < |h| && k < |h[i].payload| then h[i := h[i].(payload := h[i].payload[k := w])] else h
  }

  function Step(s: State, op: Op): State {
    match op
    case DoAlloc(addr, payload, ws) => Alloc(s, addr, payload, ws)
    case DoGc(ws) => Collect(s, ws)
    case DoWrite(i, k, w) => s.(blocks := Write(s.blocks, i, k, w))
    case SetThreshold(n) => s.(threshold := n)
  }

  ghost predicate Allowed(s: State, op: Op) {
    op.DoAlloc? ==> Unused(s.blocks, op.addr, op.payload)
  }

  ghost predicate AllowedAll(s: State, ops: seq<Op>)
    decreases |ops|
  {
    ops != [] ==> Allowed(s, ops[0]) && AllowedAll(Step(s, ops[0]), ops[1..])
  }

  function Run(s: State, ops: seq<Op>): State
    decreases |ops|
  {
    if ops == [] then s else Run(Step(s, ops[0]), ops[1..])
  }

  /** The value of current_bytes between the two halves of an allocation. */
  function Between(s: State, op: Op): seq<int> {
    if op.DoAlloc? then [s.stats.current + Needs(op.payload)] else []
  }

  /** The value of current_bytes at every moment of a run. */
  function Moments(s: State, ops: seq<Op>): seq<int>
    decreases |ops|
  {
    if ops == [] then [s.stats.current]
    else [s.stats.current] + Between(s, ops[0]) + Moments(Step(s, ops[0]), ops[1..])
  }

  lemma WriteTotals(h: seq<Block>, i: nat, k: nat, w: Word)
    ensures Bytes(Write(h, i, k, w)) == Bytes(h) && Ids(Write(h, i, k, w)) == Ids(h)
  {
    SameTotals(Write(h, i, k, w), h, |h|);
  }

  lemma WriteDisjoint(h: seq<Block>, i: nat, k: nat, w: Word)
    requires Disjoint(h)
    ensures Disjoint(Write(h, i, k, w))
  {
    forall x, y | 0 <= x < y < |h| ensures ApartAt(Write(h, i, k, w), x, y) { assert ApartAt(h, x, y); }
  }

  lemma StepSound(s: State, op: Op)
    requires Sound(s) && Allowed(s, op)
    ensures Sound(Step(s, op))
  {
    match op
    case DoAlloc(addr, payload, ws) => AllocSound(s, addr, payload, ws);
    case DoGc(ws) => CollectSound(s, ws);
    case DoWrite(i, k, w) =>
      WriteTotals(s.blocks, i, k, w);
      WriteDisjoint(s.blocks, i, k, w);
    case SetThreshold(_) =>
  }

  /** Conservation over whole runs: sound at the end, and the peak is the maximum
      value current_bytes ever had. */
  lemma {:induction false} RunConserves(s: State, ops: seq<Op>)
    requires Sound(s) && AllowedAll(s, ops)
    ensures Sound(Run(s, ops))
    ensures forall c :: c in Moments(s, ops) ==> 0 <= c <= Run(s, ops).stats.peak
    ensures Run(s, ops).stats.peak == s.stats.peak || Run(s, ops).stats.peak in Moments(s, ops)
    ensures s.stats.peak <= Run(s, ops).stats.peak
    decreases |ops|
  {
    if ops != [] {
      StepSound(s, ops[0]);
      StepPeak(s, ops[0]);
      var t, us := Step(s, ops[0]), ops[1..];
      RunConserves(t, us);
      var rest := Moments(t, us);
      assert t.stats.current in rest by { assert rest[0] == t.stats.current; }
      assert forall c :: c in Moments(s, ops) <==> c == s.stats.current || c in Between(s, ops[0]) || c in rest;
    }
  }

  /** One step raises the peak only to a value reached on the way. */
  lemma StepPeak(s: State, op: Op)
    requires Sound(s) && Allowed(s, op)
    ensures s.stats.peak <= Step(s, op).stats.peak
    ensures Step(s, op).stats.peak == s.stats.peak || Step(s, op).stats.peak in Between(s, op)
    ensures forall c :: c in Between(s, op) ==> 0 <= c <= Step(s, op).stats.peak
  {
    if op.DoAlloc? { AddSound(s, op.addr, op.payload); }
  }

  /** The same from the start of the program. */
  lemma EveryRunConserves(threshold: nat, ops: seq<Op>, ws: seq<Word>)
    requires AllowedAll(Start(threshold), ops)
    ensures var s := Run(Start(threshold), ops);
            && Sound(s)
            && s.stats.peak in Moments(Start(threshold), ops)
            && (forall c :: c in Moments(Start(threshold), ops) ==> 0 <= c <= s.stats.peak)
            && EachOnce([], Shutdown(s, ws).freed, s.stats.allocations)
  {
    RunConserves(Start(threshold), ops);
    assert Moments(Start(threshold), ops)[0] == 0;
    ShutdownFreesEachOnce(Run(Start(threshold), ops), ws);
  }

  // ---------- what the listed blocks are ----------

  /** Address and length, in words, of the allocations that a run asks for. */
  function Requests(ops: seq<Op>): seq<(nat, nat)>
    decreases |ops|
  {
    if ops == [] then [] else Request(ops[0]) + Requests(ops[1..])
  }

  function Request(op: Op): seq<(nat, nat)> {
    if op.DoAlloc? then [(op.addr, |op.payload|)] else []
  }

  /** Every listed block is the one that was asked for under its serial number. */
  ghost predicate Serves(s: State, asked: seq<(nat, nat)>) {
    s.stats.allocations == |asked| && forall b :: b in s.blocks ==> Serving(b, asked)
  }

  predicate Serving(b: Block, asked: seq<(nat, nat)>) {
    b.id < |asked| && asked[b.id] == (b.addr, |b.payload|)
  }

  lemma CollectServes(s: State, asked: seq<(nat, nat)>, ws: seq<Word>)
    requires Serves(s, asked)
    ensures Serves(Collect(s, ws), asked)
  {
    KeepMembers(s.blocks, MarkPhase(s.blocks, ws));
  }

  lemma AddServes(s: State, asked: seq<(nat, nat)>, addr: nat, payload: seq<Word>)
    requires Serves(s, asked)
    ensures Serves(Add(s, addr, payload), asked + [(addr, |payload|)])
  {
    var t, all := Add(s, addr, payload), asked + [(addr, |payload|)];
    forall b | b in t.blocks ensures Serving(b, all) {
      if b in s.blocks { assert Serving(b, asked); } else { assert b == t.blocks[0]; }
    }
  }

  lemma WriteServes(s: State, asked: seq<(nat, nat)>, i: nat, k: nat, w: Word)
    requires Serves(s, asked)
    ensures Serves(s.(blocks := Write(s.blocks, i, k, w)), asked)
  {
    var h := Write(s.blocks, i, k, w);
    forall b | b in h ensures Serving(b, asked) {
      var j :| 0 <= j < |h| && h[j] == b;
      assert Serving(s.blocks[j], asked);
    }
  }

  lemma StepServes(s: State, asked: seq<(nat, nat)>, op: Op)
    requires Serves(s, asked)
    ensures Serves(Step(s, op), asked + Request(op))
  {
    assert asked + [] == asked;
    match op
    case DoAlloc(addr, payload, ws) =>
      AddServes(s, asked, addr, payload);
      CollectServes(Add(s, addr, payload), asked + Request(op), ws);
    case DoGc(ws) => CollectServes(s, asked, ws);
    case DoWrite(i, k, w) => WriteServes(s, asked, i, k, w);
    case SetThreshold(_) =>
  }

  lemma RequestsAfter(asked: seq<(nat, nat)>, ops: seq<Op>)
    requires ops != []
    ensures asked + Request(ops[0]) + Requests(ops[1..]) == asked + Requests(ops)
  {}

  lemma {:induction false} RunServes(s: State, asked: seq<(nat, nat)>, ops: seq<Op>)
    requires Serves(s, asked)
    ensures Serves(Run(s, ops), asked + Requests(ops))
    decreases |ops|
  {
    if ops == [] {
      assert asked + [] == asked;
    } else {
      StepServes(s, asked, ops[0]);
      RunServes(Step(s, ops[0]), asked + Request(ops[0]), ops[1..]);
      RequestsAfter(asked, ops);
    }
  }

  /** In every state of every run, the listed blocks have the addresses and lengths asked for. */
  lemma EveryRunServes(threshold: nat, ops: seq<Op>)
    ensures Serves(Run(Start(threshold), ops), Requests(ops))
  {
    RunServes(Start(threshold), [], ops);
    assert [] + Requests(ops) == Requests(ops);
  }
}
