/** What a source program means, without emitted code, symbol tables or counts: statements act
    on variables and on objects that are never freed. The emitted code computes just that. */
module Meaning {
  import opened RefCountStore
  import opened Scopes
  import opened Source
  import opened Emit
  import opened Machine
  import opened CountingOps
  import opened Counting
  import opened Erasure

  /** The objects made so far have the addresses from 1 up to `next`; `sizes` has what was asked
      for each of them. */
  datatype World = World(fields: map<(Addr, Name), Cell>, sizes: map<Addr, nat>, next: Addr)

  datatype Done = Goes(frame: Frame, world: World) | Gives(value: nat, world: World) | Fails(reason: Reason)

  datatype Answer = Is(value: nat, world: World) | NoAnswer(reason: Reason)

  /** One statement. As in the machine, `fuel` bounds calls and loop iterations. */
  function Do(p: Program, fuel: nat, s: Stmt, fr: Frame, w: World): Done
    decreases fuel, 1, s
  {
    match s
    case Decl(x, pointer, rhs) =>
      (match Value(p, fuel, rhs, fr, w)
       case NoAnswer(r) => Fails(r)
       case Is(v, w1) => if fr.scopes == [] then Fails(Undefined) else Goes(Add(fr, x, Cell(pointer, v)), w1))
    case Assign(x, rhs) =>
      (match Value(p, fuel, rhs, fr, w)
       case NoAnswer(r) => Fails(r)
       case Is(v, w1) => if Lookup(fr, x).None? then Fails(Undefined) else Goes(Assigned(fr, x, v), w1))
    case Store(v, f, a) => SetIn(fr, w, v, f, a)
    case CallStmt(fn, args) =>
      (match Apply(p, fuel, fn, args, fr, w)
       case NoAnswer(r) => Fails(r)
       case Is(_, w1) => Goes(fr, w1))
    case Block(body) =>
      (match DoAll(p, fuel, body, Enter(fr), w)
       case Goes(fr1, w1) => Goes(Exit(fr1), w1)
       case Gives(v, w1) => Gives(v, w1)
       case Fails(r) => Fails(r))
    case If(c, thn, els) =>
      (match Eval(fr, V(c))
       case None => Fails(Undefined)
       case Some(v) =>
         if v != 0 then Do(p, fuel, thn, fr, w)
         else if els.Some? then Do(p, fuel, els.value, fr, w)
         else Goes(fr, w))
    case While(c, loop) =>
      (match Eval(fr, V(c))
       case None => Fails(Undefined)
       case Some(v) =>
         if v == 0 then Goes(fr, w)
         else if fuel == 0 then Fails(OutOfFuel)
         else
           match Do(p, fuel - 1, loop, fr, w)
           case Goes(fr1, w1) => Do(p, fuel - 1, s, fr1, w1)
           case Gives(x, w1) => Gives(x, w1)
           case Fails(r) => Fails(r))
    case Return(a) =>
      (match Eval(fr, a)
       case None => Fails(Undefined)
       case Some(v) => Gives(v, w))
  }

  function SetIn(fr: Frame, w: World, v: Name, f: Name, a: Atom): Done {
    match (Eval(fr, V(v)), Operand(fr, a))
    case (Some(o), Some(c)) =>
      if o == NULL then Fails(NullDereference)
      else if o >= w.next then Fails(UseAfterFree)
      else Goes(fr, w.(fields := w.fields[(o, f) := c]))
    case _ => Fails(Undefined)
  }

  function DoAll(p: Program, fuel: nat, ss: seq<Stmt>, fr: Frame, w: World): Done
    decreases fuel, 1, ss
  {
    if ss == [] then Goes(fr, w)
    else
      match Do(p, fuel, ss[0], fr, w)
      case Goes(fr1, w1) => DoAll(p, fuel, ss[1..], fr1, w1)
      case Gives(v, w1) => Gives(v, w1)
      case Fails(r) => Fails(r)
  }

  function Value(p: Program, fuel: nat, rhs: Rhs, fr: Frame, w: World): Answer
    decreases fuel, 0, 1
  {
    match rhs
    case Val(a) => (match Eval(fr, a) case None => NoAnswer(Undefined) case Some(v) => Is(v, w))
    case New(bytes) => Is(w.next, w.(sizes := w.sizes[w.next := bytes], next := w.next + 1))
    case Call(fn, args) => Apply(p, fuel, fn, args, fr, w)
  }

  /** A call: the arguments become variables of the body, which sees nothing of its caller. */
  function Apply(p: Program, fuel: nat, fn: Name, args: seq<Atom>, fr: Frame, w: World): Answer
    decreases fuel, 0, 0
  {
    if fn !in p then NoAnswer(Undefined)
    else
      match Bind(fr, p[fn].params, args)
      case None => NoAnswer(Undefined)
      case Some(params) =>
        if fuel == 0 then NoAnswer(OutOfFuel)
        else
          match Do(p, fuel - 1, Block(p[fn].body), Env([map[]], params), w)
          case Goes(_, w1) => Is(0, w1)
          case Gives(v, w1) => Is(v, w1)
          case Fails(r) => NoAnswer(r)
  }

  function RunSource(p: Program, fuel: nat): Answer {
    Apply(p, fuel, "main", [], Env([], map[]), World(map[], map[], 1))
  }

  // ---------- the emitted code ----------

  ghost predicate IssuedAt(mem: Memory, a: Addr) { a in mem.store.heap <==> 0 < a < mem.next }

  /** A block has the size asked for and a header. */
  ghost predicate SizedAt(mem: Memory, w: World, a: Addr) {
    a in mem.store.heap ==> a in w.sizes && mem.store.heap[a].size == w.sizes[a] + HEADER_SIZE
  }

  /** The memory of a run without counts, in which nothing is freed. */
  ghost predicate Shows(mem: Memory, w: World) {
    && mem.fields == w.fields && mem.next == w.next && mem.next != NULL
    && (forall a :: IssuedAt(mem, a)) && (forall a :: SizedAt(mem, w, a))
  }

  ghost predicate SameEnd(o: Outcome, d: Done) {
    match (o, d)
    case (Normal(fr, mem), Goes(fr', w)) => fr == fr' && Shows(mem, w)
    case (Returned(v, mem), Gives(v', w)) => v == v' && Shows(mem, w)
    case (Stop(r), Fails(r')) => r == r'
    case _ => false
  }

  ghost predicate SameAnswer(o: Machine.Value, d: Answer) {
    match (o, d)
    case (Got(v, mem), Is(v', w)) => v == v' && Shows(mem, w)
    case (Failed(r), NoAnswer(r')) => r == r'
    case _ => false
  }

  ghost function Plain(p: Program): map<Name, Code> { CompileAll(false, p) }

  predicate Simple(s: Stmt) { !s.Block? && !s.If? && !s.While? }

  /** The statement of C for a simple statement. */
  function PlainOp(s: Stmt): Op
    requires Simple(s)
  {
    match s
    case Decl(x, pointer, rhs) => Declare(x, pointer, rhs)
    case Assign(x, rhs) => Set(x, rhs)
    case Store(v, f, a) => SetField(v, f, a)
    case CallStmt(fn, args) => Invoke(fn, args)
    case Return(a) => Ret(a)
  }

  lemma PlainOne(t: Table, s: Stmt)
    requires t.scopes != [] && Simple(s)
    ensures Translate(false, t, s) == [PlainOp(s)]
  {
    match s
    case Decl(_, _, rhs) => EraseAround(t, rhs);
    case Assign(_, rhs) => EraseAround(t, rhs);
    case CallStmt(_, args) => EraseArgs(t, args);
    case _ =>
  }

  lemma NewShows(mem: Memory, w: World, bytes: nat)
    requires Shows(mem, w)
    ensures Shows(DoNew(mem, bytes).mem, w.(sizes := w.sizes[w.next := bytes], next := w.next + 1))
  {
    var mem', w' := DoNew(mem, bytes).mem, w.(sizes := w.sizes[w.next := bytes], next := w.next + 1);
    forall a ensures IssuedAt(mem', a) && SizedAt(mem', w', a) { assert IssuedAt(mem, a) && SizedAt(mem, w, a); }
  }

  lemma StoreShows(fr: Frame, mem: Memory, w: World, v: Name, f: Name, a: Atom)
    requires Shows(mem, w)
    ensures SameEnd(DoSetField(fr, mem, v, f, a), SetIn(fr, w, v, f, a))
  {
    var o := DoSetField(fr, mem, v, f, a);
    if Eval(fr, V(v)).Some? { assert IssuedAt(mem, Eval(fr, V(v)).value); }
    if o.Normal? {
      var w' := SetIn(fr, w, v, f, a).world;
      forall b ensures IssuedAt(o.mem, b) && SizedAt(o.mem, w', b) { assert IssuedAt(mem, b) && SizedAt(mem, w, b); }
    }
  }

  /** The translation without counts does what the statement means, for every statement of
      every program. */
  lemma {:induction false} StmtMeans(p: Program, fuel: nat, t: Table, s: Stmt, below: seq<Suspended>, fr: Frame,
                                     mem: Memory, w: World)
    requires t.scopes != [] && Shows(mem, w)
    ensures SameEnd(Exec(Plain(p), fuel, Translate(false, t, s), below, fr, mem), Do(p, fuel, s, fr, w))
    decreases fuel, 1, s, 1
  {
    match s
    case Block(body) => BlockMeans(p, fuel, t, body, below, fr, mem, w);
    case If(c, thn, els) => IfMeans(p, fuel, t, c, thn, els, below, fr, mem, w);
    case While(c, loop) => WhileMeans(p, fuel, t, c, loop, below, fr, mem, w);
    case _ => SimpleMeans(p, fuel, t, s, below, fr, mem, w);
  }

  lemma {:induction false} SimpleMeans(p: Program, fuel: nat, t: Table, s: Stmt, below: seq<Suspended>, fr: Frame,
                                       mem: Memory, w: World)
    requires t.scopes != [] && Shows(mem, w) && Simple(s)
    ensures SameEnd(Exec(Plain(p), fuel, Translate(false, t, s), below, fr, mem), Do(p, fuel, s, fr, w))
    decreases fuel, 0, 3
  {
    PlainOne(t, s);
    ExecOne(Plain(p), fuel, PlainOp(s), below, fr, mem);
    OpMeans(p, fuel, s, below, fr, mem, w);
  }

  lemma {:induction false} OpMeans(p: Program, fuel: nat, s: Stmt, below: seq<Suspended>, fr: Frame, mem: Memory,
                                   w: World)
    requires Shows(mem, w) && Simple(s)
    ensures SameEnd(ExecOp(Plain(p), fuel, PlainOp(s), below, fr, mem), Do(p, fuel, s, fr, w))
    decreases fuel, 0, 2
  {
    match s
    case Decl(_, _, rhs) => ValueMeans(p, fuel, rhs, below, fr, mem, w, None);
    case Assign(x, rhs) => ValueMeans(p, fuel, rhs, below, fr, mem, w, Some(x));
    case Store(v, f, a) => StoreShows(fr, mem, w, v, f, a);
    case CallStmt(fn, args) => ApplyMeans(p, fuel, fn, args, below, fr, mem, w, None);
    case Return(_) =>
  }

  lemma {:induction false} BlockMeans(p: Program, fuel: nat, t: Table, body: seq<Stmt>, below: seq<Suspended>,
                                      fr: Frame, mem: Memory, w: World)
    requires Shows(mem, w)
    ensures SameEnd(Exec(Plain(p), fuel, [Scope(TranslateBlock(false, t, body))], below, fr, mem),
                    Do(p, fuel, Block(body), fr, w))
    decreases fuel, 1, Block(body), 0
  {
    var ops := TranslateBlock(false, t, body);
    assert ops == TranslateAll(false, Enter(t), body);
    ExecOne(Plain(p), fuel, Scope(ops), below, fr, mem);
    AllMeans(p, fuel, Enter(t), body, below, Enter(fr), mem, w);
  }

  lemma {:induction false} AllMeans(p: Program, fuel: nat, t: Table, ss: seq<Stmt>, below: seq<Suspended>, fr: Frame,
                                    mem: Memory, w: World)
    requires t.scopes != [] && Shows(mem, w)
    ensures SameEnd(Exec(Plain(p), fuel, TranslateAll(false, t, ss), below, fr, mem), DoAll(p, fuel, ss, fr, w))
    decreases fuel, 1, ss, 0
  {
    if ss != [] {
      AllRuns(Plain(p), fuel, t, ss, below, fr, mem);
      StmtMeans(p, fuel, t, ss[0], below, fr, mem, w);
      var o := Exec(Plain(p), fuel, Translate(false, t, ss[0]), below, fr, mem);
      if o.Normal? {
        AllMeans(p, fuel, After(t, ss[0]), ss[1..], below, o.frame, o.mem, Do(p, fuel, ss[0], fr, w).world);
      }
    }
  }

  lemma AllRuns(code: map<Name, Code>, fuel: nat, t: Table, ss: seq<Stmt>, below: seq<Suspended>, fr: Frame,
                mem: Memory)
    requires t.scopes != [] && ss != []
    ensures var o := Exec(code, fuel, Translate(false, t, ss[0]), below, fr, mem);
            Exec(code, fuel, TranslateAll(false, t, ss), below, fr, mem) ==
            if o.Normal? then Exec(code, fuel, TranslateAll(false, After(t, ss[0]), ss[1..]), below, o.frame, o.mem)
            else o
  {
    var first, rest := Translate(false, t, ss[0]), TranslateAll(false, After(t, ss[0]), ss[1..]);
    assert TranslateAll(false, t, ss) == first + rest;
    ExecConcat(code, fuel, first, rest, below, fr, mem);
  }

  lemma {:induction false} IfMeans(p: Program, fuel: nat, t: Table, c: Name, thn: Stmt, els: Option<Stmt>,
                                   below: seq<Suspended>, fr: Frame, mem: Memory, w: World)
    requires t.scopes != [] && Shows(mem, w)
    ensures SameEnd(Exec(Plain(p), fuel, Translate(false, t, If(c, thn, els)), below, fr, mem),
                    Do(p, fuel, If(c, thn, els), fr, w))
    decreases fuel, 1, If(c, thn, els), 0
  {
    IfRuns(Plain(p), fuel, t, c, thn, els, below, fr, mem);
    StmtMeans(p, fuel, t, thn, below, fr, mem, w);
    if els.Some? { StmtMeans(p, fuel, After(t, thn), els.value, below, fr, mem, w); }
  }

  lemma IfRuns(code: map<Name, Code>, fuel: nat, t: Table, c: Name, thn: Stmt, els: Option<Stmt>,
               below: seq<Suspended>, fr: Frame, mem: Memory)
    requires t.scopes != []
    ensures Exec(code, fuel, Translate(false, t, If(c, thn, els)), below, fr, mem) ==
            if Lookup(fr, c).None? then Stop(Undefined)
            else if Lookup(fr, c).value.value != 0 then Exec(code, fuel, Translate(false, t, thn), below, fr, mem)
            else if els.Some? then Exec(code, fuel, Translate(false, After(t, thn), els.value), below, fr, mem)
            else Normal(fr, mem)
  {
    var thnOps := Translate(false, t, thn);
    var elsOps := if els.Some? then Translate(false, After(t, thn), els.value) else [];
    assert Translate(false, t, If(c, thn, els)) == [Branch(c, thnOps, elsOps)];
    ExecOne(code, fuel, Branch(c, thnOps, elsOps), below, fr, mem);
  }

  lemma {:induction false} WhileMeans(p: Program, fuel: nat, t: Table, c: Name, loop: Stmt, below: seq<Suspended>,
                                      fr: Frame, mem: Memory, w: World)
    requires t.scopes != [] && Shows(mem, w)
    ensures SameEnd(Exec(Plain(p), fuel, Translate(false, t, While(c, loop)), below, fr, mem),
                    Do(p, fuel, While(c, loop), fr, w))
    decreases fuel, 1, While(c, loop), 0
  {
    var ops := Translate(false, t, loop);
    if Lookup(fr, c).None? {
      ExecOne(Plain(p), fuel, Loop(c, ops), below, fr, mem);
    } else {
      LoopUnfolds(Plain(p), fuel, c, ops, below, fr, mem);
      if Lookup(fr, c).value.value != 0 && fuel > 0 {
        StmtMeans(p, fuel - 1, t, loop, below, fr, mem, w);
        var o := Exec(Plain(p), fuel - 1, ops, below, fr, mem);
        if o.Normal? {
          WhileMeans(p, fuel - 1, t, c, loop, below, o.frame, o.mem, Do(p, fuel - 1, loop, fr, w).world);
        }
      }
    }
  }

  lemma {:induction false} ValueMeans(p: Program, fuel: nat, rhs: Rhs, below: seq<Suspended>, fr: Frame, mem: Memory,
                                      w: World, pending: Option<Name>)
    requires Shows(mem, w)
    ensures SameAnswer(ExecRhs(Plain(p), fuel, rhs, below, fr, mem, pending), Value(p, fuel, rhs, fr, w))
    decreases fuel, 0, 1
  {
    match rhs
    case Val(_) =>
    case New(bytes) => NewShows(mem, w, bytes);
    case Call(fn, args) => ApplyMeans(p, fuel, fn, args, below, fr, mem, w, pending);
  }

  lemma {:induction false} ApplyMeans(p: Program, fuel: nat, fn: Name, args: seq<Atom>, below: seq<Suspended>,
                                      fr: Frame, mem: Memory, w: World, pending: Option<Name>)
    requires Shows(mem, w)
    ensures SameAnswer(ExecCall(Plain(p), fuel, fn, args, below, fr, mem, pending), Apply(p, fuel, fn, args, fr, w))
    decreases fuel, 0, 0
  {
    if fn in p && fuel > 0 && Bind(fr, p[fn].params, args).Some? {
      BlockMeans(p, fuel - 1, StartTable(p[fn]), p[fn].body, below + [Suspended(fr, pending)],
                 Env([map[]], Bind(fr, p[fn].params, args).value), mem, w);
    }
  }

  /** Every run of every program without counts is a run of its source. */
  lemma PlainMeans(p: Program, fuel: nat)
    ensures SameAnswer(Run(Plain(p), fuel), RunSource(p, fuel))
  {
    forall a ensures IssuedAt(Fresh, a) && SizedAt(Fresh, World(map[], map[], 1), a) {}
    ApplyMeans(p, fuel, "main", [], [], Env([], map[]), Fresh, World(map[], map[], 1), None);
  }

  /** And so is every run of a well-formed program with counts: the same result, the same
      contents of fields, the same way of stopping, and live blocks of the sizes asked for. */
  lemma CountedMeans(p: Program, fuel: nat)
    requires ProgramOk(p) && "main" in p && p["main"].params == []
    ensures match (Run(Counted(p), fuel), RunSource(p, fuel))
            case (Got(v, mem), Is(v', w)) =>
              v == v' && mem.fields == w.fields && mem.next == w.next && forall a :: SizedAt(mem, w, a)
            case (Failed(r), NoAnswer(r')) => r == r'
            case _ => false
  {
    CountingInvisible(p, fuel);
    PlainMeans(p, fuel);
    var o, o' := Run(Counted(p), fuel), Run(Plain(p), fuel);
    if o.Got? { SizesShow(o.mem, o'.mem, RunSource(p, fuel).world); }
  }

  lemma SizesShow(mem: Memory, mem': Memory, w: World)
    requires Alike(mem, mem') && Shows(mem', w)
    ensures forall a :: SizedAt(mem, w, a)
  {
    forall a ensures SizedAt(mem, w, a) { assert SizedAt(mem', w, a) && AlikeAt(mem, mem', a); }
  }
}
