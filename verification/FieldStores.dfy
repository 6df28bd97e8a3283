/** Pointers stored in fields: what a store adds to the counts, and that a block is live as long
    as a live block has it in a field. */
module FieldStores {
  import opened RefCountStore
  import opened RefCountCascade
  import Rc = RefCountRuns
  import History = RefCountHistory
  import opened Scopes
  import opened Source
  import opened Emit
  import opened Machine
  import opened Accounts
  import opened FrameFacts
  import opened CountingOps
  import opened Counting

  /** A field of a live block that holds a pointer. */
  predicate PointerAt(mem: Memory, o: Addr, f: Name) {
    o in mem.store.heap && (o, f) in mem.fields && mem.fields[(o, f)].pointer && mem.fields[(o, f)].value != NULL
  }

  /** Running the translation of `v->f = w` on pointers to `o` and `p`: the field holds `p`, and
      `p` is counted for it. */
  lemma StoreCounts(code: map<Name, Code>, fuel: nat, t: Table, v: Name, f: Name, w: Name, below: seq<Suspended>,
                    fr: Frame, mem: Memory, o: Addr, p: Addr)
    requires Ready(t, fr, mem, below) && Lookup(t, v) == Some(true) && Lookup(t, w) == Some(true)
    requires Eval(fr, V(v)) == Some(o) && Eval(fr, V(w)) == Some(p) && o != NULL && p != NULL
    ensures var r := Exec(code, fuel, Translate(true, t, Stmt.Store(v, f, V(w))), below, fr, mem);
            && r.Normal? && r.frame == fr && r.mem.next == mem.next
            && r.mem.fields == mem.fields[(o, f) := Cell(true, p)]
            && History.OneMoreIn(mem.store, r.mem.store, p, o)
  {
    MatchLookup(t, fr, v);
    MatchLookup(t, fr, w);
    LiveBase(mem, below, fr, v);
    LiveBase(mem, below, fr, w);
    StoreRuns(code, fuel, t, v, f, V(w), below, fr, mem);
    ExecOne(code, fuel, Inc(w, Some(v)), below, fr, mem);
    History.IncRecords(mem.store, p, o);
  }

  /** From a memory in which `p` is stored in `o`, to any later one with exact counts: if `o` is
      still live, so is `p`. What runs in between may be anything. */
  lemma StoredOutlives(mem: Memory, mem': Memory, held: multiset<Addr>, p: Addr, o: Addr)
    requires History.StoredIn(mem.store, p, o) && o < mem.next && Since(mem, mem')
    requires Exact(mem', held) && o in mem'.store.heap
    ensures p in mem'.store.heap
  {
    assert SinceAt(mem, mem', o);
    EdgeInto(mem'.store.heap, p);
    assert CountOk(mem'.store.heap, held, mem'.store.lost, p);
  }

  /** Whole runs: after `v->f = w`, at every later moment at which the counts are exact, the
      block stored is live if the block it was stored in is. This is so even if the field or
      the variables have changed since. */
  lemma StoreOutlives(code: map<Name, Code>, fuel: nat, t: Table, v: Name, f: Name, w: Name, below: seq<Suspended>,
                      fr: Frame, mem: Memory, o: Addr, p: Addr, fuel': nat, ops: seq<Op>, held: multiset<Addr>)
    requires Ready(t, fr, mem, below) && Lookup(t, v) == Some(true) && Lookup(t, w) == Some(true)
    requires Eval(fr, V(v)) == Some(o) && Eval(fr, V(w)) == Some(p) && o != NULL && p != NULL
    ensures var r := Exec(code, fuel, Translate(true, t, Stmt.Store(v, f, V(w))), below, fr, mem);
            && r.Normal?
            && var end := Exec(code, fuel', ops, below, r.frame, r.mem);
               (end.Normal? || end.Returned?) && Exact(end.mem, held) && o in end.mem.store.heap
               ==> p in end.mem.store.heap
  {
    StoreCounts(code, fuel, t, v, f, w, below, fr, mem, o, p);
    var mem1 := Exec(code, fuel, Translate(true, t, Stmt.Store(v, f, V(w))), below, fr, mem).mem;
    StartKept(mem, mem1, StackBag(below) + FrameBag(fr), o);
    ExecKeeps(mem1, code, fuel', ops, below, fr, mem1);
    var end := Exec(code, fuel', ops, below, fr, mem1);
    if (end.Normal? || end.Returned?) && Exact(end.mem, held) && o in end.mem.store.heap {
      StoredOutlives(mem1, end.mem, held, p, o);
    }
  }

  lemma StartKept(mem: Memory, mem1: Memory, held: multiset<Addr>, o: Addr)
    requires Exact(mem, held) && o in mem.store.heap
    requires mem1.next == mem.next && mem1.store.heap.Keys == mem.store.heap.Keys
    ensures Kept(mem1, mem1) && o < mem1.next
  {
    forall a ensures Unissued(mem1, a) && SinceAt(mem1, mem1, a) { assert Unissued(mem, a); }
    assert Unissued(mem, o);
  }

  /** With exact counts, a pointer in a field of a live block points to a live block. */
  lemma FieldLive(mem: Memory, held: multiset<Addr>, o: Addr, f: Name)
    requires Exact(mem, held) && PointerAt(mem, o, f)
    ensures mem.fields[(o, f)].value in mem.store.heap
  {
    var p := mem.fields[(o, f)].value;
    assert FieldCounted(mem, o, f);
    assert p in CellBag(mem.fields[(o, f)]);
    EdgeInto(mem.store.heap, p);
    assert CountOk(mem.store.heap, held, mem.store.lost, p);
  }

  /** Every run of every well-formed program ends with no field of a live block dangling. */
  lemma ProgramFieldsLive(p: Program, fuel: nat, o: Addr, f: Name)
    requires ProgramOk(p) && "main" in p && p["main"].params == [] && Run(Counted(p), fuel).Got?
    ensures var mem := Run(Counted(p), fuel).mem;
            PointerAt(mem, o, f) ==> mem.fields[(o, f)].value in mem.store.heap
  {
    ProgramSafe(p, fuel);
    var r := Run(Counted(p), fuel);
    var mem, held := r.mem, ResultBag(p["main"].result, r.value);
    if PointerAt(mem, o, f) { FieldLive(mem, held, o, f); }
  }
}
