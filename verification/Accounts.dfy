/** What stays true whatever code runs, with right or wrong counts. Of the statistics: bytes in
    use are the sizes of the live blocks, every allocation is live or collected, and the peak
    is never below the bytes in use. Of the blocks: while one lives it keeps its edges. */
module Accounts {
  import opened RefCountStore
  import Rc = RefCountRuns
  import opened Scopes
  import opened Source
  import opened Emit
  import opened Machine

  /** What has become of the blocks of an earlier memory: those still live have kept their
      edges, and increments that were lost are lost for good. */
  ghost predicate Since(mem0: Memory, mem: Memory) {
    mem0.next <= mem.next && mem0.store.lost <= mem.store.lost && forall a :: SinceAt(mem0, mem, a)
  }

  ghost predicate SinceAt(mem0: Memory, mem: Memory, a: Addr) {
    a in mem.store.heap && a < mem0.next ==>
      a in mem0.store.heap && mem0.store.heap[a].targets <= mem.store.heap[a].targets
  }

  /** The statistics are true if they were, `malloc` has not issued what it will issue next,
      and the edges of `mem0` are kept. */
  ghost predicate Kept(mem0: Memory, mem: Memory) {
    && (Rc.Accounted(mem0.store) ==> Rc.Accounted(mem.store))
    && mem.next != NULL && (forall a :: Unissued(mem, a)) && Since(mem0, mem)
  }

  ghost predicate KeptAfter(mem0: Memory, o: Outcome) { o.Normal? || o.Returned? ==> Kept(mem0, o.mem) }

  ghost predicate KeptResult(mem0: Memory, o: Value) { o.Got? ==> Kept(mem0, o.mem) }

  lemma SameIssued(mem0: Memory, mem: Memory, mem': Memory)
    requires Kept(mem0, mem) && (Rc.Accounted(mem.store) ==> Rc.Accounted(mem'.store)) && mem'.next == mem.next
    requires mem'.store.heap.Keys <= mem.store.heap.Keys && mem.store.lost <= mem'.store.lost
    requires forall a :: a in mem'.store.heap ==> mem.store.heap[a].targets <= mem'.store.heap[a].targets
    ensures Kept(mem0, mem')
  {
    forall a ensures Unissued(mem', a) && SinceAt(mem0, mem', a) { assert Unissued(mem, a) && SinceAt(mem0, mem, a); }
  }

  lemma IncKeeps(mem0: Memory, fr: Frame, mem: Memory, x: Name, other: Option<Name>)
    requires Kept(mem0, mem)
    ensures KeptAfter(mem0, DoInc(fr, mem, x, other))
  {
    var o := DoInc(fr, mem, x, other);
    if o.Normal? {
      var p, q := Eval(fr, V(x)).value, if other.Some? then Eval(fr, V(other.value)).value else NULL;
      if Rc.Accounted(mem.store) { Rc.IncAccounts(mem.store, p, q); }
      Rc.IncOnlyAdds(mem.store, p, q);
      SameIssued(mem0, mem, o.mem);
    }
  }

  lemma DecKeeps(mem0: Memory, fr: Frame, mem: Memory, x: Name)
    requires Kept(mem0, mem)
    ensures KeptAfter(mem0, DoDec(fr, mem, x))
  {
    var o := DoDec(fr, mem, x);
    if o.Normal? {
      if Rc.Accounted(mem.store) { Rc.DropAccounts(mem.store, Eval(fr, V(x)).value); }
      SameIssued(mem0, mem, o.mem);
    }
  }

  lemma NewKeeps(mem0: Memory, mem: Memory, bytes: nat)
    requires Kept(mem0, mem)
    ensures KeptResult(mem0, DoNew(mem, bytes))
  {
    assert Unissued(mem, mem.next);
    if Rc.Accounted(mem.store) { Rc.AllocAccounts(mem.store, mem.next, bytes); }
    var mem' := DoNew(mem, bytes).mem;
    forall a ensures Unissued(mem', a) && SinceAt(mem0, mem', a) { assert Unissued(mem, a) && SinceAt(mem0, mem, a); }
  }

  lemma {:induction false} ExecKeeps(mem0: Memory, code: map<Name, Code>, fuel: nat, ops: seq<Op>,
                                     below: seq<Suspended>, fr: Frame, mem: Memory)
    requires Kept(mem0, mem)
    ensures KeptAfter(mem0, Exec(code, fuel, ops, below, fr, mem))
    decreases fuel, 1, ops
  {
    if ops != [] {
      OpKeeps(mem0, code, fuel, ops[0], below, fr, mem);
      var o := ExecOp(code, fuel, ops[0], below, fr, mem);
      if o.Normal? { ExecKeeps(mem0, code, fuel, ops[1..], below, o.frame, o.mem); }
    }
  }

  lemma {:induction false} OpKeeps(mem0: Memory, code: map<Name, Code>, fuel: nat, op: Op, below: seq<Suspended>,
                                   fr: Frame, mem: Memory)
    requires Kept(mem0, mem)
    ensures KeptAfter(mem0, ExecOp(code, fuel, op, below, fr, mem))
    decreases fuel, 1, op
  {
    match op
    case Inc(x, other) => IncKeeps(mem0, fr, mem, x, other);
    case Dec(x) => DecKeeps(mem0, fr, mem, x);
    case Declare(x, pointer, rhs) => RhsKeeps(mem0, code, fuel, rhs, below, fr, mem, None);
    case Set(x, rhs) => RhsKeeps(mem0, code, fuel, rhs, below, fr, mem, Some(x));
    case SetField(v, f, a) => FieldKeeps(mem0, fr, mem, v, f, a);
    case Invoke(fn, args) => CallKeeps(mem0, code, fuel, fn, args, below, fr, mem, None);
    case Scope(body) => ExecKeeps(mem0, code, fuel, body, below, Enter(fr), mem);
    case Branch(c, thn, els) =>
      ExecKeeps(mem0, code, fuel, thn, below, fr, mem);
      ExecKeeps(mem0, code, fuel, els, below, fr, mem);
    case Loop(c, loop) => LoopKeeps(mem0, code, fuel, c, loop, below, fr, mem);
    case Ret(a) =>
    case Audit =>
  }

  lemma FieldKeeps(mem0: Memory, fr: Frame, mem: Memory, v: Name, f: Name, a: Atom)
    requires Kept(mem0, mem)
    ensures KeptAfter(mem0, DoSetField(fr, mem, v, f, a))
  {
    var o := DoSetField(fr, mem, v, f, a);
    if o.Normal? { SameIssued(mem0, mem, o.mem); }
  }

  lemma LoopKeeps(mem0: Memory, code: map<Name, Code>, fuel: nat, c: Name, loop: seq<Op>, below: seq<Suspended>,
                  fr: Frame, mem: Memory)
    requires Kept(mem0, mem)
    ensures KeptAfter(mem0, ExecOp(code, fuel, Loop(c, loop), below, fr, mem))
    decreases fuel, 1, Loop(c, loop), 0
  {
    if fuel > 0 {
      ExecKeeps(mem0, code, fuel - 1, loop, below, fr, mem);
      var o := Exec(code, fuel - 1, loop, below, fr, mem);
      if o.Normal? { OpKeeps(mem0, code, fuel - 1, Loop(c, loop), below, o.frame, o.mem); }
    }
  }

  lemma RhsKeeps(mem0: Memory, code: map<Name, Code>, fuel: nat, rhs: Rhs, below: seq<Suspended>, fr: Frame,
                 mem: Memory, pending: Option<Name>)
    requires Kept(mem0, mem)
    ensures KeptResult(mem0, ExecRhs(code, fuel, rhs, below, fr, mem, pending))
    decreases fuel, 0, 1
  {
    match rhs
    case Val(a) =>
    case New(bytes) => NewKeeps(mem0, mem, bytes);
    case Call(fn, args) => CallKeeps(mem0, code, fuel, fn, args, below, fr, mem, pending);
  }

  lemma CallKeeps(mem0: Memory, code: map<Name, Code>, fuel: nat, fn: Name, args: seq<Atom>, below: seq<Suspended>,
                  fr: Frame, mem: Memory, pending: Option<Name>)
    requires Kept(mem0, mem)
    ensures KeptResult(mem0, ExecCall(code, fuel, fn, args, below, fr, mem, pending))
    decreases fuel, 0, 0
  {
    if fuel > 0 && fn in code && Bind(fr, code[fn].params, args).Some? {
      ExecKeeps(mem0, code, fuel - 1, code[fn].body, below + [Suspended(fr, pending)],
               Env([map[]], Bind(fr, code[fn].params, args).value), mem);
    }
  }

  /** Every run of every emitted program ends with true statistics. */
  lemma RunAccounted(code: map<Name, Code>, fuel: nat)
    ensures Run(code, fuel).Got? ==> Rc.Accounted(Run(code, fuel).mem.store)
  {
    forall a ensures Unissued(Fresh, a) {}
    CallKeeps(Fresh, code, fuel, "main", [], [], Env([], map[]), Fresh, None);
  }
}

