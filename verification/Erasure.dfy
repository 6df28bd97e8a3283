/** Turning counting off (CCodeGenerator constructed with useRefCounts = false): the
    emitted code is the counted code without its counting calls, and it computes the
    same values of variables and fields. */
module Erasure {
  import opened RefCountStore
  import opened Scopes
  import opened Source
  import opened Emit
  import opened Machine
  import opened CountingOps
  import opened Counting

  /** Strike out every counting call and audit mark, at every depth. */
  function Erase(ops: seq<Op>): seq<Op>
    decreases ops
  {
    if ops == [] then [] else EraseOp(ops[0]) + Erase(ops[1..])
  }

  function EraseOp(op: Op): seq<Op>
    decreases op
  {
    match op
    case Inc(_, _) => []
    case Dec(_) => []
    case Audit => []
    case Scope(body) => [Scope(Erase(body))]
    case Branch(c, thn, els) => [Branch(c, Erase(thn), Erase(els))]
    case Loop(c, loop) => [Loop(c, Erase(loop))]
    case _ => [op]
  }

  lemma {:induction false} EraseConcat(a: seq<Op>, b: seq<Op>)
    ensures Erase(a + b) == Erase(a) + Erase(b)
    decreases |a|
  {
    if a == [] {
      assert a + b == b;
    } else {
      assert (a + b)[1..] == a[1..] + b;
      EraseConcat(a[1..], b);
    }
  }

  lemma EraseOne(op: Op)
    ensures Erase([op]) == EraseOp(op)
  {
    assert [op][1..] == [];
    assert Erase([]) == [];
  }

  lemma EraseIncAtom(t: Table, a: Atom, other: Option<Name>)
    ensures Erase(IncAtom(true, t, a, other)) == []
  {
    if IsPointerVar(t, a) { EraseOne(Inc(a.name, other)); }
  }

  lemma EraseDecAtom(t: Table, a: Atom)
    ensures Erase(DecAtom(true, t, a)) == []
  {
    if IsPointerVar(t, a) { EraseOne(Dec(a.name)); }
  }

  lemma {:induction false} EraseArgs(t: Table, args: seq<Atom>)
    ensures Erase(IncArgs(true, t, args)) == [] && Erase(DecArgs(true, t, args)) == []
    ensures IncArgs(false, t, args) == [] && DecArgs(false, t, args) == []
    decreases |args|
  {
    if args != [] {
      EraseIncAtom(t, args[0], None);
      EraseDecAtom(t, args[0]);
      EraseArgs(t, args[1..]);
      EraseConcat(IncAtom(true, t, args[0], None), IncArgs(true, t, args[1..]));
      EraseConcat(DecAtom(true, t, args[0]), DecArgs(true, t, args[1..]));
    }
  }

  lemma {:induction false} EraseDecs(xs: seq<Name>)
    ensures Erase(Decs(xs)) == []
    decreases |xs|
  {
    if xs != [] {
      EraseDecs(xs[1..]);
      assert Decs(xs)[1..] == Decs(xs[1..]);
    }
  }

  lemma EraseAround(t: Table, rhs: Rhs)
    ensures Erase(Before(true, t, rhs)) == [] && Erase(Behind(true, t, rhs)) == []
    ensures Before(false, t, rhs) == [] && Behind(false, t, rhs) == []
  {
    match rhs
    case Val(a) => EraseIncAtom(t, a, None);
    case New(_) =>
    case Call(_, args) => EraseArgs(t, args);
  }

  /** A counted statement of the shape: counting, one statement, counting. */
  lemma EraseSandwich(a: seq<Op>, op: Op, b: seq<Op>)
    requires Erase(a) == [] && Erase(b) == []
    ensures Erase(a + [op] + b) == EraseOp(op)
  {
    EraseConcat(a + [op], b);
    EraseConcat(a, [op]);
    EraseOne(op);
  }

  lemma EraseDecl(t: Table, x: Name, pointer: bool, rhs: Rhs)
    requires t.scopes != []
    ensures Translate(false, t, Decl(x, pointer, rhs)) == Erase(Translate(true, t, Decl(x, pointer, rhs)))
  {
    EraseAround(t, rhs);
    EraseSandwich(Before(true, t, rhs), Declare(x, pointer, rhs), Behind(true, t, rhs));
  }

  lemma EraseCall(t: Table, fn: Name, args: seq<Atom>)
    requires t.scopes != []
    ensures Translate(false, t, CallStmt(fn, args)) == Erase(Translate(true, t, CallStmt(fn, args)))
  {
    EraseArgs(t, args);
    EraseSandwich(IncArgs(true, t, args), Invoke(fn, args), DecArgs(true, t, args));
  }

  lemma EraseAssign(t: Table, x: Name, rhs: Rhs)
    requires t.scopes != []
    ensures Translate(false, t, Assign(x, rhs)) == Erase(Translate(true, t, Assign(x, rhs)))
  {
    EraseAround(t, rhs);
    EraseDecAtom(t, V(x));
    EraseConcat(Before(true, t, rhs), DecAtom(true, t, V(x)));
    EraseSandwich(Before(true, t, rhs) + DecAtom(true, t, V(x)), Set(x, rhs), Behind(true, t, rhs));
  }

  lemma EraseStore(t: Table, v: Name, f: Name, a: Atom)
    requires t.scopes != []
    ensures Translate(false, t, Stmt.Store(v, f, a)) == Erase(Translate(true, t, Stmt.Store(v, f, a)))
  {
    EraseIncAtom(t, a, Some(v));
    EraseConcat(IncStored(true, t, v, a), [SetField(v, f, a)]);
    EraseOne(SetField(v, f, a));
  }

  lemma EraseReturn(t: Table, a: Atom)
    requires t.scopes != []
    ensures Translate(false, t, Return(a)) == Erase(Translate(true, t, Return(a)))
  {
    EraseIncAtom(t, a, None);
    EraseDecs(InOrder(PointerNames(Top(t))));
    EraseConcat(IncAtom(true, t, a, None), ScopeDecs(true, t));
    EraseConcat(IncAtom(true, t, a, None) + ScopeDecs(true, t), [Ret(a)]);
    EraseOne(Ret(a));
  }

  lemma EraseIf(t: Table, c: Name, thn: Stmt, els: Option<Stmt>)
    requires t.scopes != [] && Translate(false, t, thn) == Erase(Translate(true, t, thn))
    requires els.Some? ==>
               Translate(false, After(t, thn), els.value) == Erase(Translate(true, After(t, thn), els.value))
    ensures Translate(false, t, If(c, thn, els)) == Erase(Translate(true, t, If(c, thn, els)))
  {
    var thnOps := Translate(true, t, thn);
    var elsOps := if els.Some? then Translate(true, After(t, thn), els.value) else [];
    assert Translate(true, t, If(c, thn, els)) == [Branch(c, thnOps, elsOps)];
    EraseOne(Branch(c, thnOps, elsOps));
    assert Erase([]) == [];
  }

  /** Translating with counting off is erasing the counted translation, for every statement. */
  lemma {:induction false} OffIsErased(t: Table, s: Stmt)
    requires t.scopes != []
    ensures Translate(false, t, s) == Erase(Translate(true, t, s))
    decreases s
  {
    match s
    case Decl(x, pointer, rhs) => EraseDecl(t, x, pointer, rhs);
    case Assign(x, rhs) => EraseAssign(t, x, rhs);
    case Store(v, f, a) => EraseStore(t, v, f, a);
    case CallStmt(fn, args) => EraseCall(t, fn, args);
    case Block(body) =>
      EraseOne(Scope(TranslateBlock(true, t, body)));
      BlockOffIsErased(t, body);
    case If(c, thn, els) =>
      OffIsErased(t, thn);
      if els.Some? { OffIsErased(After(t, thn), els.value); }
      EraseIf(t, c, thn, els);
    case While(c, loop) =>
      OffIsErased(t, loop);
      EraseOne(Loop(c, Translate(true, t, loop)));
    case Return(a) => EraseReturn(t, a);
  }

  lemma {:induction false} BlockOffIsErased(t: Table, body: seq<Stmt>)
    ensures TranslateBlock(false, t, body) == Erase(TranslateBlock(true, t, body))
    decreases body, 1
  {
    var t1 := AfterAll(Enter(t), body);
    AllOffIsErased(Enter(t), body);
    EraseDecs(InOrder(PointerNames(Top(t1))));
    EraseConcat(TranslateAll(true, Enter(t), body), ScopeDecs(true, t1));
  }

  lemma {:induction false} AllOffIsErased(t: Table, ss: seq<Stmt>)
    requires t.scopes != []
    ensures TranslateAll(false, t, ss) == Erase(TranslateAll(true, t, ss))
    decreases ss, 0
  {
    EraseOne(Audit);
    if ss != [] {
      var first, rest := Translate(true, t, ss[0]), TranslateAll(true, After(t, ss[0]), ss[1..]);
      OffIsErased(t, ss[0]);
      AllOffIsErased(After(t, ss[0]), ss[1..]);
      EraseConcat([Audit] + first, rest);
      EraseConcat([Audit], first);
    }
  }

  ghost function EraseCode(code: map<Name, Code>): map<Name, Code> {
    map fn | fn in code :: Code(code[fn].params, Erase(code[fn].body))
  }

  lemma FunctionOffIsErased(f: Func)
    ensures Compile(false, f) == Code(f.params, Erase(Compile(true, f).body))
  {
    BlockOffIsErased(StartTable(f), f.body);
    EraseOne(Scope(TranslateBlock(true, StartTable(f), f.body)));
  }

  lemma ProgramOffIsErased(p: Program)
    ensures CompileAll(false, p) == EraseCode(CompileAll(true, p))
  {
    forall fn | fn in p ensures CompileAll(false, p)[fn] == EraseCode(CompileAll(true, p))[fn] {
      FunctionOffIsErased(p[fn]);
    }
  }

  // ---------- the two runs ----------

  /** The same field contents and sizes of blocks, while the uncounted run may have freed less. */
  ghost predicate Alike(mem: Memory, mem': Memory) {
    mem.fields == mem'.fields && mem.next == mem'.next && forall a :: AlikeAt(mem, mem', a)
  }

  ghost predicate AlikeAt(mem: Memory, mem': Memory, a: Addr) {
    a in mem.store.heap ==> a in mem'.store.heap && mem.store.heap[a].size == mem'.store.heap[a].size
  }

  ghost predicate AlikeOutcome(o: Outcome, o': Outcome) {
    match (o, o')
    case (Normal(fr, mem), Normal(fr', mem')) => fr == fr' && Alike(mem, mem')
    case (Returned(v, mem), Returned(v', mem')) => v == v' && Alike(mem, mem')
    case (Stop(r), Stop(r')) => r == r'
    case _ => false
  }

  ghost predicate AlikeValue(o: Value, o': Value) {
    match (o, o')
    case (Got(v, mem), Got(v', mem')) => v == v' && Alike(mem, mem')
    case (Failed(r), Failed(r')) => r == r'
    case _ => false
  }

  ghost predicate Sensible(o: Outcome) { o.Stop? ==> Benign(o.reason) }

  ghost predicate SensibleValue(o: Value) { o.Failed? ==> Benign(o.reason) }

  lemma {:induction false} SameRun(code: map<Name, Code>, fuel: nat, ops: seq<Op>, below: seq<Suspended>,
                                   below': seq<Suspended>, fr: Frame, mem: Memory, mem': Memory)
    requires Alike(mem, mem') && Sensible(Exec(code, fuel, ops, below, fr, mem))
    ensures AlikeOutcome(Exec(code, fuel, ops, below, fr, mem),
                         Exec(EraseCode(code), fuel, Erase(ops), below', fr, mem'))
    decreases fuel, 1, ops
  {
    if ops != [] {
      var o := ExecOp(code, fuel, ops[0], below, fr, mem);
      SameOp(code, fuel, ops[0], below, below', fr, mem, mem');
      ExecConcat(EraseCode(code), fuel, EraseOp(ops[0]), Erase(ops[1..]), below', fr, mem');
      if o.Normal? {
        SameRun(code, fuel, ops[1..], below, below', o.frame, o.mem,
                Exec(EraseCode(code), fuel, EraseOp(ops[0]), below', fr, mem').mem);
      }
    }
  }

  lemma {:induction false} SameOp(code: map<Name, Code>, fuel: nat, op: Op, below: seq<Suspended>,
                                  below': seq<Suspended>, fr: Frame, mem: Memory, mem': Memory)
    requires Alike(mem, mem') && Sensible(ExecOp(code, fuel, op, below, fr, mem))
    ensures AlikeOutcome(ExecOp(code, fuel, op, below, fr, mem),
                         Exec(EraseCode(code), fuel, EraseOp(op), below', fr, mem'))
    decreases fuel, 1, op
  {
    match op
    case Inc(x, other) => IncAlike(fr, mem, mem', x, other);
    case Dec(x) => DecAlike(fr, mem, mem', x);
    case Audit =>
    case _ =>
      ExecOne(EraseCode(code), fuel, EraseOp(op)[0], below', fr, mem');
      SameStatement(code, fuel, op, below, below', fr, mem, mem');
  }

  lemma IncAlike(fr: Frame, mem: Memory, mem': Memory, x: Name, other: Option<Name>)
    requires Alike(mem, mem') && DoInc(fr, mem, x, other).Normal?
    ensures AlikeOutcome(DoInc(fr, mem, x, other), Normal(fr, mem'))
  {
    forall a ensures AlikeAt(DoInc(fr, mem, x, other).mem, mem', a) { assert AlikeAt(mem, mem', a); }
  }

  lemma DecAlike(fr: Frame, mem: Memory, mem': Memory, x: Name)
    requires Alike(mem, mem') && DoDec(fr, mem, x).Normal?
    ensures AlikeOutcome(DoDec(fr, mem, x), Normal(fr, mem'))
  {
    forall a ensures AlikeAt(DoDec(fr, mem, x).mem, mem', a) { assert AlikeAt(mem, mem', a); }
  }

  lemma FieldAlike(fr: Frame, mem: Memory, mem': Memory, v: Name, f: Name, a: Atom)
    requires Alike(mem, mem') && Sensible(DoSetField(fr, mem, v, f, a))
    ensures AlikeOutcome(DoSetField(fr, mem, v, f, a), DoSetField(fr, mem', v, f, a))
  {
    var o, o' := DoSetField(fr, mem, v, f, a), DoSetField(fr, mem', v, f, a);
    if o.Normal? {
      assert AlikeAt(mem, mem', Eval(fr, V(v)).value);
      forall b ensures AlikeAt(o.mem, o'.mem, b) { assert AlikeAt(mem, mem', b); }
    }
  }

  lemma NewAlike(mem: Memory, mem': Memory, bytes: nat)
    requires Alike(mem, mem')
    ensures AlikeValue(DoNew(mem, bytes), DoNew(mem', bytes))
  {
    forall a ensures AlikeAt(DoNew(mem, bytes).mem, DoNew(mem', bytes).mem, a) { assert AlikeAt(mem, mem', a); }
  }

  /** The statements that are not struck out. */
  lemma {:induction false} SameStatement(code: map<Name, Code>, fuel: nat, op: Op, below: seq<Suspended>,
                                         below': seq<Suspended>, fr: Frame, mem: Memory, mem': Memory)
    requires !op.Inc? && !op.Dec? && !op.Audit?
    requires Alike(mem, mem') && Sensible(ExecOp(code, fuel, op, below, fr, mem))
    ensures AlikeOutcome(ExecOp(code, fuel, op, below, fr, mem),
                         ExecOp(EraseCode(code), fuel, EraseOp(op)[0], below', fr, mem'))
    decreases fuel, 1, op, 0
  {
    match op
    case Declare(x, pointer, rhs) => SameRhs(code, fuel, rhs, below, below', fr, mem, mem', None);
    case Set(x, rhs) => SameRhs(code, fuel, rhs, below, below', fr, mem, mem', Some(x));
    case Invoke(fn, args) => SameCall(code, fuel, fn, args, below, below', fr, mem, mem', None);
    case Scope(body) => SameRun(code, fuel, body, below, below', Enter(fr), mem, mem');
    case Branch(c, thn, els) =>
      var v := Eval(fr, V(c));
      if v.Some? { SameRun(code, fuel, if v.value != 0 then thn else els, below, below', fr, mem, mem'); }
    case Loop(c, loop) => SameLoop(code, fuel, op, below, below', fr, mem, mem');
    case SetField(v, f, a) => FieldAlike(fr, mem, mem', v, f, a);
    case Ret(_) =>
  }

  lemma {:induction false} SameLoop(code: map<Name, Code>, fuel: nat, op: Op, below: seq<Suspended>,
                                    below': seq<Suspended>, fr: Frame, mem: Memory, mem': Memory)
    requires op.Loop? && Alike(mem, mem') && Sensible(ExecOp(code, fuel, op, below, fr, mem))
    ensures AlikeOutcome(ExecOp(code, fuel, op, below, fr, mem),
                         ExecOp(EraseCode(code), fuel, EraseOp(op)[0], below', fr, mem'))
    decreases fuel, 0, 2
  {
    var v := Eval(fr, V(op.c));
    if v.Some? && v.value != 0 && fuel > 0 {
      SameRun(code, fuel - 1, op.loop, below, below', fr, mem, mem');
      var o := Exec(code, fuel - 1, op.loop, below, fr, mem);
      var o' := Exec(EraseCode(code), fuel - 1, Erase(op.loop), below', fr, mem');
      if o.Normal? { SameLoop(code, fuel - 1, op, below, below', o.frame, o.mem, o'.mem); }
    }
  }

  lemma SameRhs(code: map<Name, Code>, fuel: nat, rhs: Rhs, below: seq<Suspended>, below': seq<Suspended>, fr: Frame,
                mem: Memory, mem': Memory, pending: Option<Name>)
    requires Alike(mem, mem') && SensibleValue(ExecRhs(code, fuel, rhs, below, fr, mem, pending))
    ensures AlikeValue(ExecRhs(code, fuel, rhs, below, fr, mem, pending),
                       ExecRhs(EraseCode(code), fuel, rhs, below', fr, mem', pending))
    decreases fuel, 0, 1
  {
    match rhs
    case Val(_) =>
    case New(bytes) => NewAlike(mem, mem', bytes);
    case Call(fn, args) => SameCall(code, fuel, fn, args, below, below', fr, mem, mem', pending);
  }

  lemma SameCall(code: map<Name, Code>, fuel: nat, fn: Name, args: seq<Atom>, below: seq<Suspended>,
                 below': seq<Suspended>, fr: Frame, mem: Memory, mem': Memory, pending: Option<Name>)
    requires Alike(mem, mem') && SensibleValue(ExecCall(code, fuel, fn, args, below, fr, mem, pending))
    ensures AlikeValue(ExecCall(code, fuel, fn, args, below, fr, mem, pending),
                       ExecCall(EraseCode(code), fuel, fn, args, below', fr, mem', pending))
    decreases fuel, 0, 0
  {
    if fn in code && Bind(fr, code[fn].params, args).Some? && fuel > 0 {
      var s := Suspended(fr, pending);
      SameRun(code, fuel - 1, code[fn].body, below + [s], below' + [s],
              Env([map[]], Bind(fr, code[fn].params, args).value), mem, mem');
    }
  }

  /** For every well-formed program the counted and the uncounted translation behave the
      same: same result, same field contents, same way of stopping. */
  lemma CountingInvisible(p: Program, fuel: nat)
    requires ProgramOk(p) && "main" in p && p["main"].params == []
    ensures AlikeValue(Run(CompileAll(true, p), fuel), Run(CompileAll(false, p), fuel))
  {
    ProgramSafe(p, fuel);
    ProgramOffIsErased(p);
    SameCall(CompileAll(true, p), fuel, "main", [], [], [], Env([], map[]), Fresh, Fresh, None);
  }
}

