/** The mark-sweep runtime as the C code has it: an intrusive doubly linked list of
    headers updated in place, a recursive marker that sets flags, and a sweep that
    unlinks from the list it is walking. Memory is a map from header addresses to
    headers; links are addresses, 0 is NULL, and `free` takes a header out of the
    map, so a header that is read or written is proved to be still allocated. */
module MarkSweepHeaders {
  import opened MarkSweepModel

  datatype Header = Header(id: nat, marked: bool, size: nat, next: nat, prev: nat, payload: seq<Word>)

  type Memory = map<nat, Header>

  const NULL := 0

  function BlockAt(mem: Memory, a: nat): Block
    requires a in mem
  {
    Block(mem[a].id, a, mem[a].payload)
  }

  function Elements(list: seq<nat>): set<nat> { set a | a in list }

  /** Named so that the verifier compares two positions only when asked to. */
  ghost predicate DifferAt(list: seq<nat>, i: int, j: int) {
    0 <= i < |list| && 0 <= j < |list| && list[i] != list[j]
  }

  ghost predicate Distinct(list: seq<nat>) {
    forall i, j :: 0 <= i < j < |list| ==> DifferAt(list, i, j)
  }

  lemma DiffersFromAll(list: seq<nat>, i: nat)
    requires Distinct(list) && i < |list|
    ensures forall j :: 0 <= j < |list| && j != i ==> list[j] != list[i]
  {
    forall j | 0 <= j < |list| && j != i ensures list[j] != list[i] {
      assert if i < j then DifferAt(list, i, j) else DifferAt(list, j, i);
    }
  }

  /** The address at a position, NULL off either end. */
  function At(list: seq<nat>, i: int): nat {
    if 0 <= i < |list| then list[i] else NULL
  }

  /** The header at position `i` links to its neighbours in the list. */
  ghost predicate LinkedAt(mem: Memory, list: seq<nat>, i: int) {
    && 0 <= i < |list| && list[i] in mem
    && mem[list[i]].next == At(list, i + 1)
    && mem[list[i]].prev == At(list, i - 1)
  }

  /** The headers at `list`, in this order, are all there is in memory and form the
      doubly linked list that starts at `head`. */
  ghost predicate Linked(mem: Memory, list: seq<nat>, head: nat) {
    && NULL !in mem
    && mem.Keys == Elements(list)
    && Distinct(list)
    && head == At(list, 0)
    && forall i :: 0 <= i < |list| ==> LinkedAt(mem, list, i)
  }

  ghost predicate Sized(mem: Memory) {
    forall a :: a in mem ==> mem[a].size == Size(BlockAt(mem, a))
  }

  ghost function View(mem: Memory, list: seq<nat>): (r: seq<Block>)
    requires Elements(list) <= mem.Keys
    ensures |r| == |list| && forall i :: 0 <= i < |list| ==> list[i] in mem && r[i] == BlockAt(mem, list[i])
  {
    seq(|list|, i requires 0 <= i < |list| => assert list[i] in Elements(list); BlockAt(mem, list[i]))
  }

  /** Exactly the blocks of `m` carry the mark. */
  ghost predicate Marks(mem: Memory, m: set<Block>) {
    forall a :: a in mem ==> (mem[a].marked <==> BlockAt(mem, a) in m)
  }

  /** Two memories that differ in mark flags only. */
  ghost predicate SameButMarks(mem: Memory, mem': Memory) {
    && mem.Keys == mem'.Keys
    && forall a :: a in mem ==> mem'[a] == mem[a].(marked := mem'[a].marked)
  }

  /** Everything the allocator's memory satisfies between calls. */
  ghost predicate Intact(mem: Memory, list: seq<nat>, head: nat) {
    && Linked(mem, list, head)
    && Sized(mem)
    && Disjoint(View(mem, list))
  }

  lemma IntactButMarks(mem: Memory, mem': Memory, list: seq<nat>, head: nat)
    requires Intact(mem, list, head) && SameButMarks(mem, mem')
    ensures Intact(mem', list, head) && View(mem', list) == View(mem, list)
  {
    assert View(mem', list) == View(mem, list);
    forall i | 0 <= i < |list| ensures LinkedAt(mem', list, i) { assert LinkedAt(mem, list, i); }
  }

  /** One turn of the loop that clears the marks. */
  lemma ClearNext(mem0: Memory, mem: Memory, list: seq<nat>, head: nat, i: nat)
    requires Intact(mem0, list, head) && SameButMarks(mem0, mem) && i <= |list| && At(list, i) != NULL
    requires forall j :: 0 <= j < i ==> list[j] in mem && !mem[list[j]].marked
    ensures i < |list| && list[i] in mem && mem[list[i]].next == At(list, i + 1)
    ensures var mem' := mem[list[i] := mem[list[i]].(marked := false)];
            SameButMarks(mem0, mem') && forall j :: 0 <= j <= i ==> list[j] in mem' && !mem'[list[j]].marked
  {
    assert LinkedAt(mem0, list, i);
  }

  // ---------- add_allocation and remove_allocation ----------

  /** The memory after `header` has been pushed at the head of the list. */
  function Pushed(mem: Memory, head: nat, a: nat, header: Header): Memory
    requires head == NULL || head in mem
  {
    var mem1 := mem[a := header.(next := head, prev := NULL)];
    if head == NULL then mem1 else mem1[head := mem1[head].(prev := a)]
  }

  lemma PushLinks(mem: Memory, list: seq<nat>, head: nat, a: nat, header: Header)
    requires Linked(mem, list, head) && a != NULL && a !in mem
    ensures Linked(Pushed(mem, head, a, header), [a] + list, a)
  {
    var mem', list' := Pushed(mem, head, a, header), [a] + list;
    assert Elements(list') == Elements(list) + {a};
    forall i, j | 0 <= i < j < |list'| ensures DifferAt(list', i, j) {
      assert list[j-1] in Elements(list);
      if i > 0 { assert DifferAt(list, i - 1, j - 1); }
    }
    if list != [] { DiffersFromAll(list, 0); }
    forall i | 0 <= i < |list'| ensures LinkedAt(mem', list', i) {
      if i > 0 { assert LinkedAt(mem, list, i - 1); }
    }
  }

  /** The memory and head after the header at `a` has been unlinked. It keeps its own links. */
  function Unlinked(mem: Memory, head: nat, a: nat): (Memory, nat)
    requires a in mem
    requires mem[a].prev == NULL || mem[a].prev in mem
    requires mem[a].next == NULL || mem[a].next in mem
  {
    var h := mem[a];
    var mem1 := if h.prev == NULL then mem else mem[h.prev := mem[h.prev].(next := h.next)];
    var head1 := if h.prev == NULL then h.next else head;
    var mem2 := if h.next == NULL then mem1 else mem1[h.next := mem1[h.next].(prev := h.prev)];
    (mem2, head1)
  }

  function Without(list: seq<nat>, k: nat): seq<nat>
    requires k < |list|
  {
    list[..k] + list[k+1..]
  }

  /** Unlinking and freeing position `k` leaves the list without it, well formed, with
      every other header's contents untouched. */
  lemma UnlinkLinks(mem: Memory, list: seq<nat>, head: nat, k: nat)
    requires Linked(mem, list, head) && k < |list|
    ensures NeighboursAllocated(mem, list[k])
    ensures var (mem', head') := Unlinked(mem, head, list[k]);
            && mem'.Keys == mem.Keys
            && SameButLinks(mem, mem')
            && Linked(mem' - {list[k]}, Without(list, k), head')
  {
    Neighbours(mem, list, head, k);
    WithoutElements(list, k);
    forall i | 0 <= i < |Without(list, k)|
      ensures LinkedAt(Unlinked(mem, head, list[k]).0 - {list[k]}, Without(list, k), i)
    {
      UnlinkLinksAt(mem, list, head, k, i);
    }
  }

  lemma Neighbours(mem: Memory, list: seq<nat>, head: nat, k: nat)
    requires Linked(mem, list, head) && k < |list|
    ensures LinkedAt(mem, list, k) && NeighboursAllocated(mem, list[k])
  {
    assert forall i :: 0 <= i < |list| ==> list[i] in Elements(list);
    assert LinkedAt(mem, list, k);
  }

  lemma UnlinkLinksAt(mem: Memory, list: seq<nat>, head: nat, k: nat, i: nat)
    requires Linked(mem, list, head) && k < |list| && i < |list| - 1 && NeighboursAllocated(mem, list[k])
    ensures LinkedAt(Unlinked(mem, head, list[k]).0 - {list[k]}, Without(list, k), i)
  {
    var j := if i < k then i else i + 1;
    assert LinkedAt(mem, list, k) && LinkedAt(mem, list, j);
    DiffersFromAll(list, k);
    DiffersFromAll(list, j);
  }

  lemma WithoutElements(list: seq<nat>, k: nat)
    requires Distinct(list) && k < |list|
    ensures Distinct(Without(list, k)) && Elements(Without(list, k)) == Elements(list) - {list[k]}
  {
    var short := Without(list, k);
    DiffersFromAll(list, k);
    assert forall i :: 0 <= i < |short| ==> short[i] == list[if i < k then i else i + 1];
    forall i, j | 0 <= i < j < |short| ensures DifferAt(short, i, j) {
      DiffersFromAll(list, if i < k then i else i + 1);
    }
    forall x | x in Elements(list) - {list[k]} ensures x in short {
      var j :| 0 <= j < |list| && list[j] == x;
      assert short[if j < k then j else j - 1] == x;
    }
  }

  ghost predicate NeighboursAllocated(mem: Memory, a: nat) {
    && a in mem
    && (mem[a].prev == NULL || mem[a].prev in mem)
    && (mem[a].next == NULL || mem[a].next in mem)
  }

  ghost predicate SameButLinks(mem: Memory, mem': Memory)
    requires mem.Keys == mem'.Keys
  {
    forall x :: x in mem ==> mem'[x] == mem[x].(next := mem'[x].next, prev := mem'[x].prev)
  }
}

module MarkSweepRuntime {
  import opened RuntimeStats
  import opened MarkSweepModel
  import opened MarkSweepHeaders
  import Runs = MarkSweepRuns

  /** Entries of the table of global root cells. */
  const MAX_ROOTS := 50

  class Allocator {
    var mem: Memory
    var allocationList: nat
    var roots: seq<nat>
    var stats: Stats
    var threshold: nat
    ghost var list: seq<nat>
    ghost var freed: seq<nat>

    ghost predicate Valid()
      reads this
    {
      Intact(mem, list, allocationList)
    }

    ghost function State(): Runs.State
      requires Valid()
      reads this
    {
      Runs.State(View(mem, list), stats, threshold, freed)
    }

    /** ms_init, with the threshold the program starts from. */
    constructor (threshold: nat)
      ensures Valid() && State() == Runs.Start(threshold) && roots == []
    {
      mem := map[];
      allocationList := NULL;
      roots := [];
      stats := Stats(0, 0, 0, 0);
      this.threshold := threshold;
      list := [];
      freed := [];
    }

    /** ms_register_root: refuse when the table is full (the C code exits). */
    method RegisterRoot(cell: nat) returns (ok: bool)
      requires |roots| <= MAX_ROOTS
      modifies this`roots
      ensures ok <==> old(|roots|) < MAX_ROOTS
      ensures roots == if ok then old(roots) + [cell] else old(roots)
      ensures |roots| <= MAX_ROOTS
    {
      if |roots| >= MAX_ROOTS { return false; }
      roots := roots + [cell];
      ok := true;
    }

    /** add_allocation. */
    method AddAllocation(a: nat, header: Header)
      requires Linked(mem, list, allocationList) && a != NULL && a !in mem
      modifies this`mem, this`allocationList, this`list
      ensures list == [a] + old(list) && allocationList == a && Linked(mem, list, allocationList)
      ensures mem == Pushed(old(mem), old(allocationList), a, header)
    {
      PushLinks(mem, list, allocationList, a, header);
      mem := mem[a := header.(next := allocationList, prev := NULL)];
      if allocationList != NULL {
        mem := mem[allocationList := mem[allocationList].(prev := a)];
      }
      allocationList := a;
      list := [a] + list;
    }

    /** remove_allocation, on a header that has valid links. */
    method RemoveAllocation(a: nat)
      requires NeighboursAllocated(mem, a)
      modifies this`mem, this`allocationList
      ensures (mem, allocationList) == Unlinked(old(mem), old(allocationList), a)
    {
      var header := mem[a];
      if header.prev != NULL {
        mem := mem[header.prev := mem[header.prev].(next := header.next)];
      } else {
        allocationList := header.next;
      }
      if header.next != NULL {
        mem := mem[header.next := mem[header.next].(prev := header.prev)];
      }
    }

    /** find_header: walk the list for the block whose payload contains `w`. */
    method FindHeader(w: Word) returns (a: nat)
      requires Valid()
      ensures a == NULL <==> Find(View(mem, list), w).None?
      ensures a != NULL ==> a in mem && Find(View(mem, list), w) == Some(BlockAt(mem, a))
    {
      if w == 0 { return NULL; }
      ghost var h, i := View(mem, list), 0;
      var current := allocationList;
      assert h[0..] == h;
      while current != NULL
        invariant i <= |list| && current == At(list, i)
        invariant Find(h, w) == Find(h[i..], w)
        decreases |list| - i
      {
        assert LinkedAt(mem, list, i) && h[i] == BlockAt(mem, current) && h[i..][1..] == h[i+1..];
        if current + HEADER_SIZE <= w < current + mem[current].size {
          return current;
        }
        current := mem[current].next;
        i := i + 1;
      }
      a := NULL;
    }

    /** is_valid_pointer. */
    method IsValidPointer(w: Word) returns (valid: bool)
      requires Valid()
      ensures valid <==> Find(View(mem, list), w).Some?
    {
      var a := FindHeader(w);
      valid := a != NULL;
    }

    /** mark: flag the block `w` points into and everything its payload leads to.
        `m` is what is marked before the call. */
    method MarkFrom(w: Word, ghost m: set<Block>)
      requires Valid() && Marks(mem, m)
      modifies this`mem
      ensures Valid() && SameButMarks(old(mem), mem)
      ensures Marks(mem, Mark(old(View(mem, list)), m, w))
      decreases Members(View(mem, list)) - m, 0
    {
      ghost var h := View(mem, list);
      var a := FindHeader(w);
      if a == NULL || mem[a].marked { return; }
      ghost var b := BlockAt(mem, a);
      MarkOne(mem, list, allocationList, m, a);
      mem := mem[a := mem[a].(marked := true)];
      MarkWords(mem[a].payload, m + {b});
    }

    /** The loop that marks from every word of a payload, of the stack, or of the root cells. */
    method MarkWords(ws: seq<Word>, ghost m: set<Block>)
      requires Valid() && Marks(mem, m)
      modifies this`mem
      ensures Valid() && SameButMarks(old(mem), mem)
      ensures Marks(mem, MarkAll(old(View(mem, list)), m, ws))
      decreases Members(View(mem, list)) - m, 1
    {
      ghost var h := View(mem, list);
      ghost var now := m;
      assert ws[..0] == [];
      for i := 0 to |ws|
        invariant Valid() && SameButMarks(old(mem), mem) && View(mem, list) == h
        invariant now == MarkAll(h, m, ws[..i]) && Members(h) - now <= Members(h) - m
        invariant Marks(mem, now)
      {
        MarkAllNext(h, m, ws, i);
        ghost var mem1 := mem;
        var valid := IsValidPointer(ws[i]);
        if valid {
          MarkFrom(ws[i], now);
          IntactButMarks(mem1, mem, list, allocationList);
        }
        now := Mark(h, now, ws[i]);
      }
      assert ws[..|ws|] == ws;
    }

    /** mark_phase: clear every flag, then mark from the stack words and the root cells.
        `globals` gives the contents of the global cells. */
    method DoMarkPhase(stack: seq<Word>, globals: nat -> Word)
      requires Valid()
      modifies this`mem
      ensures Valid() && View(mem, list) == old(View(mem, list))
      ensures Marks(mem, MarkPhase(old(View(mem, list)), stack + RootWords(roots, globals)))
      ensures forall a :: a in mem ==>
                (mem[a].marked <==> Rooted(View(mem, list), stack, roots, globals, BlockAt(mem, a)))
    {
      ghost var mem0, h := mem, View(mem, list);
      ClearMarks();
      IntactButMarks(mem0, mem, list, allocationList);
      mem0 := mem;
      MarkWords(stack, {});
      IntactButMarks(mem0, mem, list, allocationList);
      MarkAllAppend(h, {}, stack, RootWords(roots, globals));
      mem0 := mem;
      MarkWords(RootWords(roots, globals), MarkAll(h, {}, stack));
      IntactButMarks(mem0, mem, list, allocationList);
      MarkedIffRooted(mem, list, allocationList, stack, roots, globals);
    }

    /** The first loop of mark_phase. */
    method ClearMarks()
      requires Valid()
      modifies this`mem
      ensures Valid() && SameButMarks(old(mem), mem) && Marks(mem, {})
    {
      ghost var i := 0;
      var current := allocationList;
      while current != NULL
        invariant i <= |list| && current == At(list, i)
        invariant SameButMarks(old(mem), mem)
        invariant forall j :: 0 <= j < i ==> list[j] in mem && !mem[list[j]].marked
        decreases |list| - i
      {
        ClearNext(old(mem), mem, list, allocationList, i);
        mem := mem[current := mem[current].(marked := false)];
        current := mem[current].next;
        i := i + 1;
      }
      IntactButMarks(old(mem), mem, list, allocationList);
      AtNull(mem, list, i);
      NoneMarked(mem, list);
    }

    /** What sweep_phase does with an unmarked header, at position `n` of the list:
        account for it, unlink it, free it. */
    method Reclaim(a: nat, ghost n: nat)
      requires NeighboursAllocated(mem, a) && n < |list|
      modifies this`mem, this`allocationList, this`stats, this`list, this`freed
      ensures var (mem', head') := old(Unlinked(mem, allocationList, a)); mem == mem' - {a} && allocationList == head'
      ensures stats == old(stats.(current := stats.current - mem[a].size, collections := stats.collections + 1))
      ensures freed == old(freed + [mem[a].id]) && list == old(Without(list, n))
    {
      stats := stats.(current := stats.current - mem[a].size, collections := stats.collections + 1);
      freed := freed + [mem[a].id];
      RemoveAllocation(a);
      mem := mem - {a};
      list := Without(list, n);
    }

    /** One round of sweep_phase: free the header unless it is marked, and go on to the next. */
    method SweepOne(a: nat, ghost s0: Snapshot, ghost k: nat) returns (next: nat)
      requires Midway(s0, k, mem, allocationList, list, stats, freed) && k < |s0.list| && a == s0.list[k]
      modifies this`mem, this`allocationList, this`stats, this`list, this`freed
      ensures Midway(s0, k + 1, mem, allocationList, list, stats, freed) && next == At(s0.list, k + 1)
    {
      SweepVisit(s0, k, mem, allocationList, list, stats, freed);
      next := mem[a].next;
      if !mem[a].marked {
        Reclaim(a, |KeepTo(s0.Blocks(), s0.marked, k)|);
      }
    }

    /** sweep_phase: walk the list, unlinking and freeing what is not marked. */
    method SweepPhase(ghost m: set<Block>)
      requires Valid() && Marks(mem, m)
      modifies this`mem, this`allocationList, this`stats, this`list, this`freed
      ensures Valid()
      ensures View(mem, list) == Keep(old(View(mem, list)), m)
      ensures Swept(old(stats), old(freed), Drop(old(View(mem, list)), m), stats, freed)
    {
      ghost var s0 := Snapshot(mem, list, allocationList, m, stats, freed);
      ghost var k := 0;
      var current := allocationList;
      StartSweep(s0);
      while current != NULL
        invariant k <= |s0.list| && current == At(s0.list, k)
        invariant Midway(s0, k, mem, allocationList, list, stats, freed)
        decreases |s0.list| - k
      {
        AtNull(s0.mem, s0.list, k);
        current := SweepOne(current, s0, k);
        k := k + 1;
      }
      EndSweep(s0, k, mem, allocationList, list, stats, freed);
    }

    /** collect_garbage, and ms_gc. */
    method CollectGarbage(stack: seq<Word>, globals: nat -> Word)
      requires Valid()
      modifies this`mem, this`allocationList, this`stats, this`list, this`freed
      ensures Valid()
      ensures State() == Runs.Collect(old(State()), stack + RootWords(roots, globals))
      ensures forall b :: b in View(mem, list) <==>
                b in old(View(mem, list)) && Rooted(old(View(mem, list)), stack, roots, globals, b)
    {
      ghost var s0, ws := State(), stack + RootWords(roots, globals);
      DoMarkPhase(stack, globals);
      SweepPhase(MarkPhase(s0.blocks, ws));
      CollectAgrees(s0, ws, View(mem, list), stats, freed);
      CollectedExact(s0.blocks, ws);
      RootedIff(s0.blocks, stack, roots, globals);
    }

    /** ms_alloc up to its threshold test. */
    method AddBlock(size: nat, a: nat, garbage: seq<Word>)
      requires Valid() && size == WORD_SIZE * |garbage|
      requires a != NULL && a !in mem && Runs.Unused(View(mem, list), a, garbage)
      modifies this`mem, this`allocationList, this`stats, this`list
      ensures Valid() && State() == Runs.Add(old(State()), a, garbage)
    {
      var total := HEADER_SIZE + size;
      var header := Header(stats.allocations, false, total, NULL, NULL, garbage);
      PushIntact(mem, list, allocationList, a, header);
      AddAllocation(a, header);
      stats := stats.(current := stats.current + total, allocations := stats.allocations + 1);
      if stats.current > stats.peak {
        stats := stats.(peak := stats.current);
      }
    }

    /** ms_alloc of `size` bytes, a whole number of words. malloc has returned the unused
        memory at `a`, which still holds the words `garbage`, or NULL. */
    method Alloc(size: nat, a: nat, garbage: seq<Word>, stack: seq<Word>, globals: nat -> Word) returns (p: nat)
      requires Valid() && size == WORD_SIZE * |garbage|
      requires a != NULL ==> a !in mem && Runs.Unused(View(mem, list), a, garbage)
      modifies this`mem, this`allocationList, this`stats, this`list, this`freed
      ensures Valid() && p == if a == NULL then NULL else a + HEADER_SIZE
      ensures State() == if a == NULL then old(State())
                         else Runs.Alloc(old(State()), a, garbage, stack + RootWords(roots, globals))
    {
      if a == NULL { return NULL; }
      AddBlock(size, a, garbage);
      if stats.current > threshold {
        CollectGarbage(stack, globals);
      }
      p := a + HEADER_SIZE;
    }

    /** ms_shutdown: collect, then free the rest of the list from its head. */
    method Shutdown(stack: seq<Word>, globals: nat -> Word)
      requires Valid()
      modifies this`mem, this`allocationList, this`stats, this`list, this`freed
      ensures Valid()
      ensures State() == Runs.Shutdown(old(State()), stack + RootWords(roots, globals))
    {
      CollectGarbage(stack, globals);
      FreeAll();
    }

    method FreeAll()
      requires Valid()
      modifies this`mem, this`allocationList, this`list, this`freed
      ensures Valid() && View(mem, list) == []
      ensures freed == old(freed + Ids(View(mem, list)))
    {
      ghost var mem0, list0, h, i := mem, list, View(mem, list), 0;
      Taken(mem0, list0, 0);
      while allocationList != NULL
        invariant i <= |list0| && allocationList == At(list0, i)
        invariant mem == After(mem0, list0, i)
        invariant freed == old(freed) + IdsTo(h, i)
        decreases |list0| - i
      {
        assert LinkedAt(mem0, list0, i);
        Taken(mem0, list0, i);
        var next := mem[allocationList].next;
        freed := freed + [mem[allocationList].id];
        mem := mem - {allocationList};
        allocationList := next;
        i := i + 1;
      }
      AtNull(mem0, list0, i);
      Taken(mem0, list0, i);
      list := [];
      EmptyIntact();
    }
  }

  /** What the registered root cells hold at the time of a collection. */
  function RootWords(roots: seq<nat>, globals: nat -> Word): seq<Word> {
    seq(|roots|, i requires 0 <= i < |roots| => globals(roots[i]))
  }

  /** A word that a collection has to scan: it is on the stack, or a registered root cell
      holds it. */
  ghost predicate Scanned(stack: seq<Word>, roots: seq<nat>, globals: nat -> Word, w: Word) {
    w in stack || exists i :: 0 <= i < |roots| && globals(roots[i]) == w
  }

  ghost predicate JustScanned(stack: seq<Word>, roots: seq<nat>, globals: nat -> Word, ws: seq<Word>) {
    forall w :: w in ws <==> Scanned(stack, roots, globals, w)
  }

  /** The words to be scanned lead to `b`. */
  ghost predicate Rooted(h: seq<Block>, stack: seq<Word>, roots: seq<nat>, globals: nat -> Word, b: Block) {
    exists ws :: JustScanned(stack, roots, globals, ws) && Reach(h, ws, b)
  }

  lemma RootedIff(h: seq<Block>, stack: seq<Word>, roots: seq<nat>, globals: nat -> Word)
    ensures forall b :: Reach(h, stack + RootWords(roots, globals), b) <==> Rooted(h, stack, roots, globals, b)
  {
    var ws := stack + RootWords(roots, globals);
    forall i | 0 <= i < |roots| ensures globals(roots[i]) in ws {
      assert RootWords(roots, globals)[i] == globals(roots[i]);
    }
    assert JustScanned(stack, roots, globals, ws);
    forall b | Rooted(h, stack, roots, globals, b) ensures Reach(h, ws, b) {
      var vs :| JustScanned(stack, roots, globals, vs) && Reach(h, vs, b);
      var p :| Path(h, vs, p) && p[|p|-1] == b;
      assert Path(h, ws, p);
    }
  }

  lemma MarkedIffRooted(mem: Memory, list: seq<nat>, head: nat, stack: seq<Word>, roots: seq<nat>,
                        globals: nat -> Word)
    requires Intact(mem, list, head) && Marks(mem, MarkPhase(View(mem, list), stack + RootWords(roots, globals)))
    ensures forall a :: a in mem ==>
              (mem[a].marked <==> Rooted(View(mem, list), stack, roots, globals, BlockAt(mem, a)))
  {
    var h := View(mem, list);
    MarkExact(h, stack + RootWords(roots, globals));
    RootedIff(h, stack, roots, globals);
    forall a | a in mem ensures BlockAt(mem, a) in h {
      assert a in Elements(list);
      var i :| 0 <= i < |list| && list[i] == a;
      assert h[i] == BlockAt(mem, a);
    }
  }

  /** In particular a block that a registered root cell points into survives. */
  lemma RootKeeps(h: seq<Block>, stack: seq<Word>, roots: seq<nat>, globals: nat -> Word, i: nat, b: Block)
    requires i < |roots| && b in h && InPayload(b, globals(roots[i]))
    ensures Rooted(h, stack, roots, globals, b)
  {
    var ws := stack + RootWords(roots, globals);
    assert RootWords(roots, globals)[i] in ws;
    ReachFirst(h, ws, b);
    RootedIff(h, stack, roots, globals);
  }

  lemma EmptyIntact()
    ensures Intact(map[], [], NULL) && View(map[], []) == []
  {
    assert Elements([]) == {};
  }

  lemma NoneMarked(mem: Memory, list: seq<nat>)
    requires mem.Keys == Elements(list)
    requires forall j :: 0 <= j < |list| ==> list[j] in mem && !mem[list[j]].marked
    ensures Marks(mem, {})
  {
    forall a | a in mem ensures !mem[a].marked { assert a in Elements(list); }
  }

  lemma PushIntact(mem: Memory, list: seq<nat>, head: nat, a: nat, header: Header)
    requires Intact(mem, list, head) && a != NULL && a !in mem
    requires Runs.Unused(View(mem, list), a, header.payload)
    requires header.size == HEADER_SIZE + WORD_SIZE * |header.payload|
    ensures var mem' := Pushed(mem, head, a, header);
            && Intact(mem', [a] + list, a)
            && View(mem', [a] + list) == [Block(header.id, a, header.payload)] + View(mem, list)
  {
    PushLinks(mem, list, head, a, header);
    PushView(mem, list, head, a, header);
    Runs.PushDisjoint(View(mem, list), Block(header.id, a, header.payload));
  }

  lemma PushView(mem: Memory, list: seq<nat>, head: nat, a: nat, header: Header)
    requires Linked(mem, list, head) && a !in mem && Linked(Pushed(mem, head, a, header), [a] + list, a)
    ensures View(Pushed(mem, head, a, header), [a] + list) == [Block(header.id, a, header.payload)] + View(mem, list)
  {
    var mem' := Pushed(mem, head, a, header);
    forall i | 0 <= i < |list| ensures list[i] in mem && BlockAt(mem', list[i]) == BlockAt(mem, list[i]) {
      assert list[i] in Elements(list);
    }
  }

  /** What is left in memory after the first `i` headers of the list are freed. */
  ghost function After(mem: Memory, list: seq<nat>, i: nat): Memory
    requires i <= |list|
  {
    if i == 0 then mem else After(mem, list, i - 1) - {list[i-1]}
  }

  /** Freeing from the head: the next header is still there, and at the end nothing is. */
  lemma {:induction false} Taken(mem: Memory, list: seq<nat>, i: nat)
    requires Distinct(list) && mem.Keys == Elements(list) && i <= |list|
    ensures forall j :: i <= j < |list| ==> list[j] in After(mem, list, i)
    ensures forall j :: i <= j < |list| ==> After(mem, list, i)[list[j]] == mem[list[j]]
    ensures i == |list| ==> After(mem, list, i) == map[]
  {
    AfterIs(mem, list, i);
    forall j | i <= j < |list|
      ensures list[j] in After(mem, list, i)
    {
      DiffersFromAll(list, j);
      assert list[j] in Elements(list);
    }
  }

  lemma {:induction false} AfterIs(mem: Memory, list: seq<nat>, i: nat)
    requires i <= |list|
    ensures forall x :: x in After(mem, list, i) <==> x in mem && forall j :: 0 <= j < i ==> list[j] != x
    ensures forall x :: x in After(mem, list, i) ==> After(mem, list, i)[x] == mem[x]
    decreases i
  {
    if i > 0 { AfterIs(mem, list, i - 1); }
  }

  // ---------- the sweep, one position at a time ----------

  /** The accounting of freeing the blocks `garbage`. */
  ghost predicate Swept(stats0: Stats, freed0: seq<nat>, garbage: seq<Block>, stats: Stats, freed: seq<nat>) {
    && freed == freed0 + Ids(garbage)
    && stats == stats0.(current := stats0.current - Bytes(garbage), collections := stats0.collections + |garbage|)
  }

  lemma CollectAgrees(s: Runs.State, ws: seq<Word>, blocks: seq<Block>, stats: Stats, freed: seq<nat>)
    requires blocks == Keep(s.blocks, MarkPhase(s.blocks, ws))
    requires Swept(s.stats, s.freed, Drop(s.blocks, MarkPhase(s.blocks, ws)), stats, freed)
    ensures Runs.State(blocks, stats, s.threshold, freed) == Runs.Collect(s, ws)
  {}

  /** The state in which a sweep starts, with the marked set. */
  datatype Snapshot = Snapshot(mem: Memory, list: seq<nat>, head: nat, marked: set<Block>, stats: Stats,
                               freed: seq<nat>) {
    ghost predicate Ready() {
      Intact(mem, list, head) && Marks(mem, marked)
    }

    ghost function Blocks(): seq<Block>
      requires Elements(list) <= mem.Keys
    {
      View(mem, list)
    }
  }

  /** A sweep that started in `s0` and has visited `k` headers. */
  ghost predicate Midway(s0: Snapshot, k: nat, mem: Memory, head: nat, list: seq<nat>, stats: Stats, freed: seq<nat>) {
    && s0.Ready() && k <= |s0.list|
    && Sweeping(s0.mem, s0.list, mem, head, list, KeepTo(s0.Blocks(), s0.marked, k), k)
    && Swept(s0.stats, s0.freed, DropTo(s0.Blocks(), s0.marked, k), stats, freed)
  }

  /** Position `j` of the original list is now found `j - k + n` from the head. */
  ghost predicate MovedTo(list0: seq<nat>, list: seq<nat>, k: nat, n: nat, j: int) {
    0 <= j < |list0| && 0 <= j - k + n < |list| && list[j - k + n] == list0[j]
  }

  /** The block at position `i` is the `i`-th survivor. */
  ghost predicate Survivor(mem0: Memory, list: seq<nat>, kept: seq<Block>, i: int) {
    0 <= i < |list| && i < |kept| && list[i] in mem0 && BlockAt(mem0, list[i]) == kept[i]
  }

  /** Position `k` of the walk over `list0`: the survivors `kept` are at the front of the
      list, what has not been visited is the rest, and the headers in it differ from
      the start only in links. */
  ghost predicate Sweeping(mem0: Memory, list0: seq<nat>, mem: Memory, head: nat,
                           list: seq<nat>, kept: seq<Block>, k: nat)
  {
    && Linked(mem, list, head) && mem.Keys <= mem0.Keys
    && k <= |list0| && |list| - |kept| == |list0| - k
    && (forall j :: k <= j < |list0| ==> MovedTo(list0, list, k, |kept|, j))
    && (forall i :: 0 <= i < |kept| ==> Survivor(mem0, list, kept, i))
    && (forall x :: x in mem ==> mem[x] == mem0[x].(next := mem[x].next, prev := mem[x].prev))
  }

  lemma SweepHere(mem0: Memory, list0: seq<nat>, mem: Memory, head: nat, list: seq<nat>, kept: seq<Block>, k: nat)
    requires Sweeping(mem0, list0, mem, head, list, kept, k) && k < |list0|
    ensures |kept| < |list| && list[|kept|] == list0[k]
    ensures LinkedAt(mem, list, |kept|) && NeighboursAllocated(mem, list0[k])
    ensures mem[list0[k]].next == At(list0, k + 1)
    ensures list0[k] in mem0 && mem[list0[k]] == mem0[list0[k]].(next := mem[list0[k]].next, prev := mem[list0[k]].prev)
  {
    assert MovedTo(list0, list, k, |kept|, k);
    assert k + 1 < |list0| ==> MovedTo(list0, list, k, |kept|, k + 1);
    Neighbours(mem, list, head, |kept|);
  }

  lemma SweepDrop(mem0: Memory, list0: seq<nat>, mem: Memory, head: nat, list: seq<nat>, kept: seq<Block>, k: nat)
    requires Sweeping(mem0, list0, mem, head, list, kept, k) && k < |list0|
    ensures |kept| < |list| && NeighboursAllocated(mem, list0[k])
    ensures var (mem', head') := Unlinked(mem, head, list0[k]);
            Sweeping(mem0, list0, mem' - {list0[k]}, head', Without(list, |kept|), kept, k + 1)
  {
    SweepHere(mem0, list0, mem, head, list, kept, k);
    UnlinkLinks(mem, list, head, |kept|);
    var short, k' := Without(list, |kept|), k + 1;
    forall j | k' <= j < |list0| ensures MovedTo(list0, short, k', |kept|, j) {
      assert MovedTo(list0, list, k, |kept|, j);
    }
    forall i | 0 <= i < |kept| ensures Survivor(mem0, short, kept, i) {
      assert Survivor(mem0, list, kept, i);
    }
  }

  lemma SweepKeep(mem0: Memory, list0: seq<nat>, mem: Memory, head: nat, list: seq<nat>, kept: seq<Block>, k: nat)
    requires Sweeping(mem0, list0, mem, head, list, kept, k) && k < |list0|
    ensures list0[k] in mem0 && Sweeping(mem0, list0, mem, head, list, kept + [BlockAt(mem0, list0[k])], k + 1)
  {
    SweepHere(mem0, list0, mem, head, list, kept, k);
    var more, k' := kept + [BlockAt(mem0, list0[k])], k + 1;
    forall j | k' <= j < |list0| ensures MovedTo(list0, list, k', |more|, j) {
      assert MovedTo(list0, list, k, |kept|, j);
    }
    forall i | 0 <= i < |more| ensures Survivor(mem0, list, more, i) {
      assert i < |kept| ==> Survivor(mem0, list, kept, i);
    }
  }

  lemma StartSweep(s: Snapshot)
    requires s.Ready()
    ensures Midway(s, 0, s.mem, s.head, s.list, s.stats, s.freed)
  {
    forall j | 0 <= j < |s.list| ensures MovedTo(s.list, s.list, 0, 0, j) {}
  }

  /** Visiting one header: a marked one needs nothing done, an unmarked one is accounted
      for, unlinked and freed. */
  lemma SweepVisit(s0: Snapshot, k: nat, mem: Memory, head: nat, list: seq<nat>, stats: Stats, freed: seq<nat>)
    requires Midway(s0, k, mem, head, list, stats, freed) && k < |s0.list|
    ensures var a := s0.list[k];
            var kept := KeepTo(s0.Blocks(), s0.marked, k);
            && NeighboursAllocated(mem, a) && mem[a].next == At(s0.list, k + 1) && |kept| < |list|
            && (mem[a].marked ==> Midway(s0, k + 1, mem, head, list, stats, freed))
            && (!mem[a].marked ==>
                var (mem', head') := Unlinked(mem, head, a);
                Midway(s0, k + 1, mem' - {a}, head', Without(list, |kept|),
                       stats.(current := stats.current - mem[a].size, collections := stats.collections + 1),
                       freed + [mem[a].id]))
  {
    var h, a := s0.Blocks(), s0.list[k];
    var kept := KeepTo(h, s0.marked, k);
    SweepHere(s0.mem, s0.list, mem, head, list, kept, k);
    KeepDropNext(h, s0.marked, k);
    assert h[k] == BlockAt(s0.mem, a);
    if mem[a].marked {
      SweepKeep(s0.mem, s0.list, mem, head, list, kept, k);
    } else {
      SweepDrop(s0.mem, s0.list, mem, head, list, kept, k);
    }
  }

  lemma EndSweep(s0: Snapshot, k: nat, mem: Memory, head: nat, list: seq<nat>, stats: Stats, freed: seq<nat>)
    requires Midway(s0, k, mem, head, list, stats, freed) && At(s0.list, k) == NULL
    ensures Intact(mem, list, head) && View(mem, list) == Keep(s0.Blocks(), s0.marked)
    ensures Swept(s0.stats, s0.freed, Drop(s0.Blocks(), s0.marked), stats, freed)
  {
    AtNull(s0.mem, s0.list, k);
    var kept := Keep(s0.Blocks(), s0.marked);
    forall i | 0 <= i < |list| ensures View(mem, list)[i] == kept[i] {
      assert Survivor(s0.mem, list, kept, i);
    }
    assert View(mem, list) == kept;
    KeepDisjoint(s0.Blocks(), s0.marked);
  }

  lemma AtNull(mem: Memory, list: seq<nat>, k: nat)
    requires NULL !in mem && mem.Keys == Elements(list) && k <= |list|
    ensures At(list, k) == NULL <==> k == |list|
  {
    if k < |list| { assert list[k] in Elements(list); }
  }

  /** Setting one flag adds one block to the marked set, because blocks differ in address. */
  lemma MarkOne(mem: Memory, list: seq<nat>, head: nat, m: set<Block>, a: nat)
    requires Intact(mem, list, head) && Marks(mem, m) && a in mem && !mem[a].marked
    ensures var mem' := mem[a := mem[a].(marked := true)];
            && Intact(mem', list, head) && View(mem', list) == View(mem, list)
            && SameButMarks(mem, mem') && Marks(mem', m + {BlockAt(mem, a)})
            && BlockAt(mem, a) in Members(View(mem, list)) - m
  {
    var mem' := mem[a := mem[a].(marked := true)];
    IntactButMarks(mem, mem', list, head);
    assert a in Elements(list);
    var i :| 0 <= i < |list| && list[i] == a;
    assert View(mem, list)[i] == BlockAt(mem, a);
  }

  lemma {:induction false} MarkAllAppend(h: seq<Block>, m: set<Block>, ws: seq<Word>, vs: seq<Word>)
    ensures MarkAll(h, m, ws + vs) == MarkAll(h, MarkAll(h, m, ws), vs)
    decreases |ws|
  {
    if ws == [] {
      assert ws + vs == vs;
    } else {
      assert (ws + vs)[1..] == ws[1..] + vs;
      MarkAllAppend(h, Mark(h, m, ws[0]), ws[1..], vs);
    }
  }

  lemma MarkAllNext(h: seq<Block>, m: set<Block>, ws: seq<Word>, i: nat)
    requires i < |ws|
    ensures MarkAll(h, m, ws[..i+1]) == Mark(h, MarkAll(h, m, ws[..i]), ws[i])
  {
    assert ws[..i+1] == ws[..i] + [ws[i]];
    MarkAllAppend(h, m, ws[..i], [ws[i]]);
    var m1 := MarkAll(h, m, ws[..i]);
    assert MarkAll(h, m1, [ws[i]]) == MarkAll(h, Mark(h, m1, ws[i]), []) by { assert [ws[i]][1..] == []; }
  }
}

