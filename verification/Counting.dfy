/** The inserted counts are right: running the translation of any well-formed program,
    every count is exact at every statement boundary, and nothing freed is touched. */
module Counting {
  import opened Bags
  import opened RefCountStore
  import opened RefCountCascade
  import Rc = RefCountRuns
  import History = RefCountHistory
  import opened Scopes
  import opened Source
  import opened Emit
  import opened Machine
  import opened FrameFacts
  import opened CountingOps
  import opened Accounts

  /** The program with counting switched on. */
  ghost function Counted(p: Program): map<Name, Code> { CompileAll(true, p) }

  /** `code` has the translation of `p`, a well-formed program closed under calls. The rest of
      the code may be anything. */
  ghost predicate Includes(code: map<Name, Code>, p: Program) {
    ProgramOk(p) && forall fn :: IncludesAt(code, p, fn)
  }

  ghost predicate IncludesAt(code: map<Name, Code>, p: Program, fn: Name) {
    fn in p ==> fn in code && code[fn] == Compile(true, p[fn])
  }

  lemma IncludesAll(p: Program)
    requires ProgramOk(p)
    ensures Includes(Counted(p), p)
  {
    forall fn ensures IncludesAt(Counted(p), p, fn) {}
  }

  /** Ways for a run to end that are not the fault of the inserted counts. */
  predicate Benign(r: Reason) { r == NullDereference || r == OutOfFuel }

  /** A statement has done its part: the frame fits the table, the parameters are as
      they were, and every count is exact. */
  ghost predicate Safe(o: Outcome, t: Table, params: map<Name, Cell>, below: seq<Suspended>) {
    match o
    case Normal(fr, mem) => Match(t, fr) && fr.params == params && Exact(mem, StackBag(below) + FrameBag(fr))
    case Returned(_, _) => false
    case Stop(r) => Benign(r)
  }

  /** A statement of a function that returns a `result` is done, or it has returned: then the
      result is counted, and besides it just what the caller counted for the arguments. */
  ghost predicate Ends(o: Outcome, t: Table, params: map<Name, Cell>, below: seq<Suspended>, result: Source.Result) {
    if o.Returned?
    then Exact(o.mem, StackBag(below) + ScopeBag(params) + ResultBag(result, o.value))
    else Safe(o, t, params, below)
  }

  ghost predicate Ready(t: Table, fr: Frame, mem: Memory, below: seq<Suspended>) {
    t.scopes != [] && Match(t, fr) && Exact(mem, StackBag(below) + FrameBag(fr))
  }

  function ResultBag(r: Source.Result, v: nat): multiset<Addr> { CellBag(Cell(r == PointerResult, v)) }

  /** A value has arrived: besides `held`, its own reference is accounted for. */
  ghost predicate Arrived(o: Value, held: multiset<Addr>, pointer: bool) {
    match o
    case Got(v, mem) => Exact(mem, held + CellBag(Cell(pointer, v)))
    case Failed(r) => Benign(r)
  }

  // ---------- right-hand sides ----------

  function BeforeBag(fr: Frame, rhs: Rhs): multiset<Addr> {
    match rhs
    case Val(a) => AtomBag(fr, a)
    case New(_) => multiset{}
    case Call(_, args) => ArgsBag(fr, args)
  }

  function BehindBag(fr: Frame, rhs: Rhs): multiset<Addr> {
    if rhs.Call? then ArgsBag(fr, rhs.args) else multiset{}
  }

  lemma CallArgsDefined(p: Program, t: Table, fn: Name, args: seq<Atom>)
    requires CallOk(p, t, fn, args)
    ensures forall a :: a in args ==> AtomDefined(t, a)
  {
    forall a | a in args ensures AtomDefined(t, a) {
      var i :| 0 <= i < |args| && args[i] == a;
      assert AtomOk(t, args[i], p[fn].params[i].pointer);
    }
  }

  lemma BeforeExact(code: map<Name, Code>, p: Program, fuel: nat, t: Table, rhs: Rhs, pointer: bool,
                    below: seq<Suspended>, fr: Frame, mem: Memory)
    requires Ready(t, fr, mem, below) && RhsOk(p, t, rhs, pointer)
    ensures GoesOn(Exec(code, fuel, Before(true, t, rhs), below, fr, mem), fr,
                   StackBag(below) + FrameBag(fr) + BeforeBag(fr, rhs))
  {
    var held := StackBag(below) + FrameBag(fr);
    match rhs
    case Val(a) => IncAtomExact(code, fuel, t, a, below, fr, mem, held);
    case New(_) => Nothing(held);
    case Call(fn, args) =>
      CallArgsDefined(p, t, fn, args);
      IncArgsExact(code, fuel, t, args, below, fr, mem, held);
  }

  lemma BehindExact(code: map<Name, Code>, p: Program, fuel: nat, t: Table, rhs: Rhs, pointer: bool,
                    below: seq<Suspended>, fr: Frame, fr': Frame, mem: Memory, held: multiset<Addr>)
    requires Match(t, fr) && RhsOk(p, t, rhs, pointer)
    requires rhs.Call? ==> forall a :: a in rhs.args && a.V? ==> Lookup(fr', a.name) == Lookup(fr, a.name)
    requires Exact(mem, held + BehindBag(fr, rhs))
    ensures GoesOn(Exec(code, fuel, Behind(true, t, rhs), below, fr', mem), fr', held)
  {
    if rhs.Call? {
      CallArgsDefined(p, t, rhs.fn, rhs.args);
      DecArgsExact(code, fuel, t, rhs.args, below, fr, fr', mem, held);
    } else {
      Nothing(held);
    }
  }

  /** Evaluating a right-hand side whose operands have been counted. */
  lemma RhsSafe(code: map<Name, Code>, p: Program, fuel: nat, t: Table, rhs: Rhs, pointer: bool, below: seq<Suspended>,
                fr: Frame, mem: Memory, pending: Option<Name>, held: multiset<Addr>)
    requires Includes(code, p) && Match(t, fr) && RhsOk(p, t, rhs, pointer)
    requires held == StackBag(below) + SuspendedBag(Suspended(fr, pending))
    requires Exact(mem, held + BeforeBag(fr, rhs))
    ensures Arrived(ExecRhs(code, fuel, rhs, below, fr, mem, pending), held + BehindBag(fr, rhs), pointer)
    decreases fuel, 0, 1
  {
    match rhs
    case Val(a) =>
      BindFirst(t, fr, Param("", pointer), a);
      Nothing(held);
    case New(bytes) =>
      Nothing(held);
      NewExact(mem, held, bytes);
    case Call(fn, args) =>
      CallSafe(code, p, fuel, t, fn, args, below, fr, mem, pending, held);
  }

  // ---------- calls ----------

  /** A call whose pointer arguments have been counted gives them back untouched and
      hands over a result that is counted once. */
  lemma CallSafe(code: map<Name, Code>, p: Program, fuel: nat, t: Table, fn: Name, args: seq<Atom>,
                 below: seq<Suspended>, fr: Frame, mem: Memory, pending: Option<Name>, held: multiset<Addr>)
    requires Includes(code, p) && Match(t, fr) && CallOk(p, t, fn, args)
    requires held == StackBag(below) + SuspendedBag(Suspended(fr, pending))
    requires Exact(mem, held + ArgsBag(fr, args))
    ensures Arrived(ExecCall(code, fuel, fn, args, below, fr, mem, pending),
                    held + ArgsBag(fr, args), p[fn].result == PointerResult)
    decreases fuel, 0, 0, 1
  {
    ArgumentsBound(p, t, fn, args, fr);
    BoundCallSafe(code, p, fuel, fn, args, below, fr, mem, pending, held, Bind(fr, p[fn].params, args).value);
  }

  lemma BoundCallSafe(code: map<Name, Code>, p: Program, fuel: nat, fn: Name, args: seq<Atom>, below: seq<Suspended>,
                      fr: Frame, mem: Memory, pending: Option<Name>, held: multiset<Addr>, params: map<Name, Cell>)
    requires Includes(code, p) && fn in p && Bind(fr, p[fn].params, args) == Some(params)
    requires SameScope(ParamTable(p[fn].params), params)
    requires held == StackBag(below) + SuspendedBag(Suspended(fr, pending)) && Exact(mem, held + ScopeBag(params))
    ensures Arrived(ExecCall(code, fuel, fn, args, below, fr, mem, pending),
                    held + ScopeBag(params), p[fn].result == PointerResult)
    decreases fuel, 0, 0, 0
  {
    assert IncludesAt(code, p, fn);
    if fuel > 0 { CalleeRuns(code, p, fuel - 1, fn, below, Suspended(fr, pending), params, mem, held); }
    CallArrives(code, p, fuel, fn, args, below, fr, mem, pending, params, held + ScopeBag(params),
                p[fn].result == PointerResult);
  }

  lemma ArgumentsBound(p: Program, t: Table, fn: Name, args: seq<Atom>, fr: Frame)
    requires ProgramOk(p) && Match(t, fr) && CallOk(p, t, fn, args)
    ensures Bind(fr, p[fn].params, args).Some?
    ensures SameScope(ParamTable(p[fn].params), Bind(fr, p[fn].params, args).value)
    ensures ScopeBag(Bind(fr, p[fn].params, args).value) == ArgsBag(fr, args)
  {
    ParamsDistinct(p, fn);
    BindExact(t, fr, p[fn].params, args);
  }

  lemma CalleeRuns(code: map<Name, Code>, p: Program, fuel: nat, fn: Name, below: seq<Suspended>, caller: Suspended,
                   params: map<Name, Cell>, mem: Memory, held: multiset<Addr>)
    requires Includes(code, p) && fn in p && SameScope(ParamTable(p[fn].params), params)
    requires held == StackBag(below) + SuspendedBag(caller) && Exact(mem, held + ScopeBag(params))
    ensures Arrived(Callee(code, p, fuel, fn, below + [caller], params, mem), held + ScopeBag(params),
                    p[fn].result == PointerResult)
    decreases fuel, 3
  {
    PushBag(below, caller);
    BodyRuns(code, p, fuel, fn, below + [caller], params, mem);
  }

  /** What a function does when it is called, in a frame with its parameters. */
  ghost function Callee(code: map<Name, Code>, p: Program, fuel: nat, fn: Name, below: seq<Suspended>,
                        params: map<Name, Cell>, mem: Memory): Value
    requires fn in p
  {
    Finish(Exec(code, fuel, Compile(true, p[fn]).body, below, Env([map[]], params), mem))
  }

  lemma CallArrives(code: map<Name, Code>, p: Program, fuel: nat, fn: Name, args: seq<Atom>, below: seq<Suspended>,
                    fr: Frame, mem: Memory, pending: Option<Name>, params: map<Name, Cell>, held: multiset<Addr>,
                    pointer: bool)
    requires IncludesAt(code, p, fn) && fn in p && Bind(fr, p[fn].params, args) == Some(params)
    requires fuel > 0 ==>
               Arrived(Callee(code, p, fuel - 1, fn, below + [Suspended(fr, pending)], params, mem), held, pointer)
    ensures Arrived(ExecCall(code, fuel, fn, args, below, fr, mem, pending), held, pointer)
  {
  }

  lemma PushBag(below: seq<Suspended>, s: Suspended)
    ensures StackBag(below + [s]) == StackBag(below) + SuspendedBag(s)
  {
    assert (below + [s])[..|below|] == below;
  }

  lemma ParamsDistinct(p: Program, fn: Name)
    requires ProgramOk(p) && fn in p
    ensures DistinctParams(p[fn].params)
  {
    assert Declared(p, fn);
  }

  /** Running a function body in a fresh frame. */
  lemma BodyRuns(code: map<Name, Code>, p: Program, fuel: nat, fn: Name, below: seq<Suspended>,
                 params: map<Name, Cell>, mem: Memory)
    requires Includes(code, p) && fn in p && SameScope(ParamTable(p[fn].params), params)
    requires Exact(mem, StackBag(below) + ScopeBag(params))
    ensures Arrived(Finish(Exec(code, fuel, Compile(true, p[fn]).body, below, Env([map[]], params), mem)),
                    StackBag(below) + ScopeBag(params), p[fn].result == PointerResult)
    decreases fuel, 2
  {
    assert Declared(p, fn);
    var f := p[fn];
    var t, fr := StartTable(f), Env([map[]], params);
    ExecOne(code, fuel, Scope(TranslateBlock(true, t, f.body)), below, fr, mem);
    EmptyFrame(fr);
    MatchEnter(t, fr);
    EnterBag(fr);
    BodySafe(code, p, fuel, Enter(t), f.body, f.result, below, Enter(fr), mem);
  }

  lemma EmptyFrame(fr: Frame)
    requires fr.scopes == [map[]]
    ensures FrameBag(fr) == ScopeBag(fr.params)
  {
    assert ScopesBag([map[]][..0]) == multiset{};
  }

  /** The statements of a function body, its final releases or its `return`. */
  lemma {:induction false} BodySafe(code: map<Name, Code>, p: Program, fuel: nat, t: Table, ss: seq<Stmt>,
                                    result: Source.Result, below: seq<Suspended>, fr: Frame, mem: Memory)
    requires Includes(code, p) && |t.scopes| == 2 && t.scopes[0] == map[]
    requires BodyOk(p, t, ss, result) && Ready(t, fr, mem, below)
    ensures Arrived(Finish(Exec(code, fuel, TranslateAll(true, t, ss) + ScopeDecs(true, AfterAll(t, ss)), below,
                                fr, mem)),
                    StackBag(below) + ScopeBag(fr.params), result == PointerResult)
    decreases fuel, 1, ss, 2
  {
    if ss == [] {
      AuditPasses(code, fuel, ScopeDecs(true, t), t, below, fr, mem);
      BodyEnds(code, fuel, t, below, fr, mem);
      Nothing(StackBag(below) + ScopeBag(fr.params));
    } else if |ss| == 1 && ss[0].Return? {
      BodyUnfolds(code, fuel, t, ss, ScopeDecs(true, AfterAll(t, ss)), below, fr, mem);
      ReturnSafe(code, fuel, t, ss[0].atom, result, below, fr, mem);
    } else {
      BodyNext(code, p, fuel, t, ss, result, below, fr, mem);
    }
  }

  lemma BodyNext(code: map<Name, Code>, p: Program, fuel: nat, t: Table, ss: seq<Stmt>, result: Source.Result,
                 below: seq<Suspended>, fr: Frame, mem: Memory)
    requires Includes(code, p) && |t.scopes| == 2 && t.scopes[0] == map[] && Ready(t, fr, mem, below)
    requires ss != [] && StmtOk(p, t, ss[0], result) && BodyOk(p, After(t, ss[0]), ss[1..], result)
    ensures Arrived(Finish(Exec(code, fuel, TranslateAll(true, t, ss) + ScopeDecs(true, AfterAll(t, ss)), below,
                                fr, mem)),
                    StackBag(below) + ScopeBag(fr.params), result == PointerResult)
    decreases fuel, 1, ss, 1
  {
    BodyUnfolds(code, fuel, t, ss, ScopeDecs(true, AfterAll(t, ss)), below, fr, mem);
    StmtSafe(code, p, fuel, t, ss[0], result, below, fr, mem);
    var o := Exec(code, fuel, Translate(true, t, ss[0]), below, fr, mem);
    if o.Normal? { BodySafe(code, p, fuel, After(t, ss[0]), ss[1..], result, below, o.frame, o.mem); }
  }

  lemma BodyUnfolds(code: map<Name, Code>, fuel: nat, t: Table, ss: seq<Stmt>, decs: seq<Op>, below: seq<Suspended>,
                    fr: Frame, mem: Memory)
    requires ss != [] && Ready(t, fr, mem, below)
    ensures var o := Exec(code, fuel, Translate(true, t, ss[0]), below, fr, mem);
            Exec(code, fuel, TranslateAll(true, t, ss) + decs, below, fr, mem) ==
            if o.Normal? then
              Exec(code, fuel, TranslateAll(true, After(t, ss[0]), ss[1..]) + decs, below, o.frame, o.mem)
            else o
  {
    var first, rest := Translate(true, t, ss[0]), TranslateAll(true, After(t, ss[0]), ss[1..]);
    OpsAssoc(Mark(true) + first, rest, decs);
    OpsAssoc(Mark(true), first, rest + decs);
    AuditPasses(code, fuel, first + (rest + decs), t, below, fr, mem);
    ExecConcat(code, fuel, first, rest + decs, below, fr, mem);
  }

  /** With exact counts an audit has nothing to report. */
  lemma AuditPasses(code: map<Name, Code>, fuel: nat, rest: seq<Op>, t: Table, below: seq<Suspended>, fr: Frame,
                    mem: Memory)
    requires Ready(t, fr, mem, below)
    ensures Exec(code, fuel, Mark(true) + rest, below, fr, mem) == Exec(code, fuel, rest, below, fr, mem)
  {
    ExecConcat(code, fuel, Mark(true), rest, below, fr, mem);
    ExecOne(code, fuel, Audit, below, fr, mem);
  }

  /** Where no enclosing scope declares a pointer, everything below the innermost scope is the
      parameters. */
  lemma OuterBag(t: Table, fr: Frame)
    requires Match(t, fr) && t.scopes != [] && NoOuterPointers(t)
    ensures FrameBag(fr) == ScopeBag(fr.params) + ScopeBag(Top(fr))
  {
    var n := |fr.scopes| - 1;
    NoneHeld(t.scopes[..n], fr.scopes[..n]);
    ExitBag(fr);
    assert FrameBag(Exit(fr)) == multiset{} + ScopeBag(fr.params) == ScopeBag(fr.params);
  }

  lemma BodyEnds(code: map<Name, Code>, fuel: nat, t: Table, below: seq<Suspended>, fr: Frame, mem: Memory)
    requires Ready(t, fr, mem, below) && |t.scopes| == 2 && t.scopes[0] == map[]
    ensures GoesOn(Exec(code, fuel, ScopeDecs(true, t), below, fr, mem), fr,
                   StackBag(below) + ScopeBag(fr.params))
  {
    OuterBag(t, fr);
    Regroup(StackBag(below), ScopeBag(fr.params), multiset{}, ScopeBag(Top(fr)));
    ScopeDecsExact(code, fuel, t, below, fr, mem, StackBag(below) + ScopeBag(fr.params));
  }

  /** `return`, from any depth: the result is counted before the locals are released. */
  lemma ReturnSafe(code: map<Name, Code>, fuel: nat, t: Table, a: Atom, result: Source.Result, below: seq<Suspended>,
                   fr: Frame, mem: Memory)
    requires Ready(t, fr, mem, below) && NoOuterPointers(t) && AtomOk(t, a, result == PointerResult)
    ensures var o := Exec(code, fuel, Translate(true, t, Return(a)), below, fr, mem);
            o.Returned? && Exact(o.mem, StackBag(below) + ScopeBag(fr.params) + ResultBag(result, o.value))
  {
    var inc, decs := IncAtom(true, t, a, None), ScopeDecs(true, t);
    var outer := StackBag(below) + ScopeBag(fr.params);
    OpsAssoc(inc, decs, [Ret(a)]);
    ExecConcat(code, fuel, inc, decs + [Ret(a)], below, fr, mem);
    IncAtomExact(code, fuel, t, a, below, fr, mem, StackBag(below) + FrameBag(fr));
    OuterBag(t, fr);
    BindFirst(t, fr, Param("", result == PointerResult), a);
    Regroup(StackBag(below), ScopeBag(fr.params), AtomBag(fr, a), ScopeBag(Top(fr)));
    ReturnReleases(code, fuel, t, a, below, fr, Exec(code, fuel, inc, below, fr, mem).mem, outer + AtomBag(fr, a));
  }

  lemma ReturnReleases(code: map<Name, Code>, fuel: nat, t: Table, a: Atom, below: seq<Suspended>, fr: Frame,
                       mem: Memory, held: multiset<Addr>)
    requires Match(t, fr) && t.scopes != [] && Eval(fr, a).Some? && Exact(mem, held + ScopeBag(Top(fr)))
    ensures var o := Exec(code, fuel, ScopeDecs(true, t) + [Ret(a)], below, fr, mem);
            o.Returned? && o.value == Eval(fr, a).value && Exact(o.mem, held)
  {
    var decs := ScopeDecs(true, t);
    ExecConcat(code, fuel, decs, [Ret(a)], below, fr, mem);
    ScopeDecsExact(code, fuel, t, below, fr, mem, held);
    ExecOne(code, fuel, Ret(a), below, fr, Exec(code, fuel, decs, below, fr, mem).mem);
  }

  // ---------- statements ----------

  lemma {:induction false} StmtsSafe(code: map<Name, Code>, p: Program, fuel: nat, t: Table, ss: seq<Stmt>,
                                     result: Source.Result, below: seq<Suspended>, fr: Frame, mem: Memory)
    requires Includes(code, p) && Ready(t, fr, mem, below) && StmtsOk(p, t, ss, result)
    ensures Ends(Exec(code, fuel, TranslateAll(true, t, ss), below, fr, mem), AfterAll(t, ss), fr.params, below, result)
    decreases fuel, 1, ss, 0
  {
    if ss == [] {
      assert Mark(true) + [] == Mark(true);
      AuditPasses(code, fuel, [], t, below, fr, mem);
    } else {
      StmtsUnfold(code, fuel, t, ss, below, fr, mem);
      StmtSafe(code, p, fuel, t, ss[0], result, below, fr, mem);
      var o := Exec(code, fuel, Translate(true, t, ss[0]), below, fr, mem);
      if o.Normal? { StmtsSafe(code, p, fuel, After(t, ss[0]), ss[1..], result, below, o.frame, o.mem); }
    }
  }

  lemma StmtsUnfold(code: map<Name, Code>, fuel: nat, t: Table, ss: seq<Stmt>, below: seq<Suspended>, fr: Frame,
                    mem: Memory)
    requires ss != [] && Ready(t, fr, mem, below)
    ensures var o := Exec(code, fuel, Translate(true, t, ss[0]), below, fr, mem);
            Exec(code, fuel, TranslateAll(true, t, ss), below, fr, mem) ==
            if o.Normal? then Exec(code, fuel, TranslateAll(true, After(t, ss[0]), ss[1..]), below, o.frame, o.mem)
            else o
  {
    var first, rest := Translate(true, t, ss[0]), TranslateAll(true, After(t, ss[0]), ss[1..]);
    OpsAssoc(Mark(true), first, rest);
    AuditPasses(code, fuel, first + rest, t, below, fr, mem);
    ExecConcat(code, fuel, first, rest, below, fr, mem);
  }

  lemma {:induction false} StmtSafe(code: map<Name, Code>, p: Program, fuel: nat, t: Table, s: Stmt,
                                    result: Source.Result, below: seq<Suspended>, fr: Frame, mem: Memory)
    requires Includes(code, p) && Ready(t, fr, mem, below) && StmtOk(p, t, s, result)
    ensures Ends(Exec(code, fuel, Translate(true, t, s), below, fr, mem), After(t, s), fr.params, below, result)
    decreases fuel, 1, s, 1
  {
    if !s.Decl? { OnlyDeclsAdd(p, t, s, result); }
    match s
    case Decl(x, pointer, rhs) => DeclSafe(code, p, fuel, t, x, pointer, rhs, below, fr, mem);
    case Assign(x, rhs) => AssignSafe(code, p, fuel, t, x, rhs, below, fr, mem);
    case Store(v, f, a) => StoreSafe(code, p, fuel, t, v, f, a, below, fr, mem);
    case CallStmt(fn, args) => CallStmtSafe(code, p, fuel, t, fn, args, below, fr, mem);
    case Block(body) => BlockSafe(code, p, fuel, t, body, result, below, fr, mem);
    case If(c, thn, els) => IfSafe(code, p, fuel, t, c, thn, els, result, below, fr, mem);
    case While(c, loop) => WhileSafe(code, p, fuel, t, c, loop, result, below, fr, mem);
    case Return(a) => ReturnSafe(code, fuel, t, a, result, below, fr, mem);
  }

  lemma DeclSafe(code: map<Name, Code>, p: Program, fuel: nat, t: Table, x: Name, pointer: bool, rhs: Rhs,
                 below: seq<Suspended>, fr: Frame, mem: Memory)
    requires Includes(code, p) && Ready(t, fr, mem, below) && StmtOk(p, t, Decl(x, pointer, rhs), NoResult)
    ensures Safe(Exec(code, fuel, Translate(true, t, Decl(x, pointer, rhs)), below, fr, mem),
                 Add(t, x, pointer), fr.params, below)
    decreases fuel, 0, 3
  {
    var before := Before(true, t, rhs);
    var after := [Declare(x, pointer, rhs)] + Behind(true, t, rhs);
    OpsAssoc(before, [Declare(x, pointer, rhs)], Behind(true, t, rhs));
    ExecConcat(code, fuel, before, after, below, fr, mem);
    BeforeExact(code, p, fuel, t, rhs, pointer, below, fr, mem);
    DeclFinish(code, p, fuel, t, x, pointer, rhs, below, fr, Exec(code, fuel, before, below, fr, mem).mem);
  }

  lemma DeclFinish(code: map<Name, Code>, p: Program, fuel: nat, t: Table, x: Name, pointer: bool, rhs: Rhs,
                   below: seq<Suspended>, fr: Frame, mem: Memory)
    requires Includes(code, p) && t.scopes != [] && Match(t, fr) && StmtOk(p, t, Decl(x, pointer, rhs), NoResult)
    requires Exact(mem, StackBag(below) + FrameBag(fr) + BeforeBag(fr, rhs))
    ensures Safe(Exec(code, fuel, [Declare(x, pointer, rhs)] + Behind(true, t, rhs), below, fr, mem),
                 Add(t, x, pointer), fr.params, below)
    decreases fuel, 0, 2
  {
    DeclareThen(code, fuel, x, pointer, rhs, Behind(true, t, rhs), below, fr, mem);
    RhsSafe(code, p, fuel, t, rhs, pointer, below, fr, mem, None, StackBag(below) + FrameBag(fr));
    var r := ExecRhs(code, fuel, rhs, below, fr, mem, None);
    if r.Got? {
      var c := Cell(pointer, r.value);
      DeclFrame(t, fr, x, c, rhs);
      Regroup(StackBag(below), FrameBag(fr), BehindBag(fr, rhs), CellBag(c));
      var fr' := Add(fr, x, c);
      BehindExact(code, p, fuel, t, rhs, pointer, below, fr, fr', r.mem, StackBag(below) + FrameBag(fr'));
    }
  }

  lemma DeclFrame(t: Table, fr: Frame, x: Name, c: Cell, rhs: Rhs)
    requires Match(t, fr) && t.scopes != [] && x !in Top(t) && !Mentions(rhs, x)
    ensures fr.scopes != [] && Match(Add(t, x, c.pointer), Add(fr, x, c))
    ensures FrameBag(Add(fr, x, c)) == FrameBag(fr) + CellBag(c)
    ensures rhs.Call? ==> forall a :: a in rhs.args && a.V? ==> Lookup(Add(fr, x, c), a.name) == Lookup(fr, a.name)
  {
    MatchAdd(t, fr, x, c);
    assert SameScope(Top(t), Top(fr));
    AddBag(fr, x, c);
    if rhs.Call? {
      forall a | a in rhs.args && a.V? ensures Lookup(Add(fr, x, c), a.name) == Lookup(fr, a.name) {
        AddLookup(fr, x, c, a.name);
      }
    }
  }

  lemma AssignSafe(code: map<Name, Code>, p: Program, fuel: nat, t: Table, x: Name, rhs: Rhs, below: seq<Suspended>,
                   fr: Frame, mem: Memory)
    requires Includes(code, p) && Ready(t, fr, mem, below) && StmtOk(p, t, Assign(x, rhs), NoResult)
    ensures Safe(Exec(code, fuel, Translate(true, t, Assign(x, rhs)), below, fr, mem), t, fr.params, below)
    decreases fuel, 0, 4
  {
    AssignSettles(code, p, fuel, t, x, rhs, below, fr, mem);
  }

  /** Like `Safe`, but parameters may have been assigned to, unless `x` is a local variable. */
  ghost predicate Assigns(o: Outcome, t: Table, x: Name, params: map<Name, Cell>, below: seq<Suspended>) {
    match o
    case Normal(fr, mem) =>
      && Match(t, fr) && Exact(mem, StackBag(below) + FrameBag(fr))
      && (LookupScopes(t.scopes, x).Some? ==> fr.params == params)
    case Returned(_, _) => false
    case Stop(r) => Benign(r)
  }

  /** An assignment to a variable or a parameter ends with exact counts, whatever the code
      around it. Without a call, `p` can be empty. */
  lemma AssignSettles(code: map<Name, Code>, p: Program, fuel: nat, t: Table, x: Name, rhs: Rhs,
                      below: seq<Suspended>, fr: Frame, mem: Memory)
    requires Includes(code, p) && Ready(t, fr, mem, below) && Lookup(t, x).Some?
    requires RhsOk(p, t, rhs, Lookup(t, x).value) && (rhs.Call? ==> !Mentions(rhs, x))
    ensures Assigns(Exec(code, fuel, Translate(true, t, Assign(x, rhs)), below, fr, mem), t, x, fr.params, below)
    decreases fuel, 0, 3
  {
    AssignStarts(code, p, fuel, t, x, rhs, below, fr, mem);
    AssignFinish(code, p, fuel, t, x, rhs, below, fr, AssignMem(code, fuel, t, x, rhs, below, fr, mem));
  }

  /** The memory in which the right-hand side of an assignment is evaluated. */
  ghost function AssignMem(code: map<Name, Code>, fuel: nat, t: Table, x: Name, rhs: Rhs, below: seq<Suspended>,
                           fr: Frame, mem: Memory): Memory
  {
    var o := Exec(code, fuel, Before(true, t, rhs) + DecAtom(true, t, V(x)), below, fr, mem);
    if o.Normal? then o.mem else mem
  }

  /** Operands are counted and the old value is released before anything is evaluated. */
  lemma AssignStarts(code: map<Name, Code>, p: Program, fuel: nat, t: Table, x: Name, rhs: Rhs, below: seq<Suspended>,
                     fr: Frame, mem: Memory)
    requires Ready(t, fr, mem, below) && Lookup(t, x).Some? && RhsOk(p, t, rhs, Lookup(t, x).value)
    ensures var mem1 := AssignMem(code, fuel, t, x, rhs, below, fr, mem);
            && Exec(code, fuel, Translate(true, t, Assign(x, rhs)), below, fr, mem)
               == Exec(code, fuel, [Set(x, rhs)] + Behind(true, t, rhs), below, fr, mem1)
            && Exact(mem1, StackBag(below) + SuspendedBag(Suspended(fr, Some(x))) + BeforeBag(fr, rhs))
  {
    var before, dec := Before(true, t, rhs), DecAtom(true, t, V(x));
    OpsAssoc(before + dec, [Set(x, rhs)], Behind(true, t, rhs));
    ExecConcat(code, fuel, before + dec, [Set(x, rhs)] + Behind(true, t, rhs), below, fr, mem);
    ExecConcat(code, fuel, before, dec, below, fr, mem);
    BeforeExact(code, p, fuel, t, rhs, Lookup(t, x).value, below, fr, mem);
    AssignVacates(code, fuel, t, x, rhs, below, fr, Exec(code, fuel, before, below, fr, mem).mem);
  }

  lemma AssignFinish(code: map<Name, Code>, p: Program, fuel: nat, t: Table, x: Name, rhs: Rhs, below: seq<Suspended>,
                     fr: Frame, mem: Memory)
    requires Includes(code, p) && Match(t, fr) && Lookup(t, x).Some?
    requires RhsOk(p, t, rhs, Lookup(t, x).value) && (rhs.Call? ==> !Mentions(rhs, x))
    requires Exact(mem, StackBag(below) + SuspendedBag(Suspended(fr, Some(x))) + BeforeBag(fr, rhs))
    ensures Assigns(Exec(code, fuel, [Set(x, rhs)] + Behind(true, t, rhs), below, fr, mem), t, x, fr.params,
                    below)
    decreases fuel, 0, 2
  {
    var pointer := Lookup(t, x).value;
    MatchLookup(t, fr, x);
    SetThen(code, fuel, x, rhs, Behind(true, t, rhs), below, fr, mem);
    var waiting := SuspendedBag(Suspended(fr, Some(x)));
    RhsSafe(code, p, fuel, t, rhs, pointer, below, fr, mem, Some(x), StackBag(below) + waiting);
    var r := ExecRhs(code, fuel, rhs, below, fr, mem, Some(x));
    if r.Got? {
      var fr' := Assigned(fr, x, r.value);
      AssignFrame(t, fr, x, r.value);
      if rhs.Call? { ArgumentsKept(t, fr, x, r.value, rhs); }
      Regroup(StackBag(below), waiting, BehindBag(fr, rhs), CellBag(Cell(pointer, r.value)));
      BehindExact(code, p, fuel, t, rhs, pointer, below, fr, fr', r.mem, StackBag(below) + FrameBag(fr'));
    }
  }

  /** Releasing the old value leaves the frame holding everything but the variable. */
  lemma AssignVacates(code: map<Name, Code>, fuel: nat, t: Table, x: Name, rhs: Rhs, below: seq<Suspended>, fr: Frame,
                      mem: Memory)
    requires Match(t, fr) && Lookup(t, x).Some?
    requires Exact(mem, StackBag(below) + FrameBag(fr) + BeforeBag(fr, rhs))
    ensures GoesOn(Exec(code, fuel, DecAtom(true, t, V(x)), below, fr, mem), fr,
                   StackBag(below) + SuspendedBag(Suspended(fr, Some(x))) + BeforeBag(fr, rhs))
  {
    MatchLookup(t, fr, x);
    FrameHolds(fr, x);
    VacatedBag(fr, x, NULL);
    TakeOut(StackBag(below), FrameBag(fr), BeforeBag(fr, rhs), AtomBag(fr, V(x)));
    DecAtomExact(code, fuel, t, V(x), below, fr, fr, mem, StackBag(below) + FrameBag(fr) + BeforeBag(fr, rhs));
  }

  lemma AssignFrame(t: Table, fr: Frame, x: Name, v: nat)
    requires Match(t, fr) && Lookup(t, x).Some?
    ensures var fr' := Assigned(fr, x, v);
            && Lookup(fr, x).Some? && Match(t, fr')
            && (LookupScopes(t.scopes, x).Some? ==> fr'.params == fr.params)
            && FrameBag(fr') == SuspendedBag(Suspended(fr, Some(x))) + CellBag(Cell(Lookup(t, x).value, v))
  {
    MatchLookup(t, fr, x);
    SameScopesLookup(t.scopes, fr.scopes, x);
    MatchAssigned(t, fr, x, v);
    VacatedBag(fr, x, v);
  }

  /** Assignment does not disturb the other variables. */
  lemma OthersKept(fr: Frame, x: Name, v: nat, y: Name)
    requires Lookup(fr, x).Some? && y != x
    ensures Lookup(Assigned(fr, x, v), y) == Lookup(fr, y)
  {
    if LookupScopes(fr.scopes, x).Some? {
      UpdateLookup(fr.scopes, x, Cell(LookupScopes(fr.scopes, x).value.pointer, v), y);
    }
  }

  lemma ArgumentsKept(t: Table, fr: Frame, x: Name, v: nat, rhs: Rhs)
    requires Match(t, fr) && Lookup(fr, x).Some? && rhs.Call? && !Mentions(rhs, x)
    ensures forall a :: a in rhs.args && a.V? ==> Lookup(Assigned(fr, x, v), a.name) == Lookup(fr, a.name)
  {
    forall a | a in rhs.args && a.V? ensures Lookup(Assigned(fr, x, v), a.name) == Lookup(fr, a.name) {
      OthersKept(fr, x, v, a.name);
    }
  }

  lemma StoreSafe(code: map<Name, Code>, p: Program, fuel: nat, t: Table, v: Name, f: Name, a: Atom,
                  below: seq<Suspended>, fr: Frame, mem: Memory)
    requires Includes(code, p) && Ready(t, fr, mem, below) && StmtOk(p, t, Stmt.Store(v, f, a), NoResult)
    ensures Safe(Exec(code, fuel, Translate(true, t, Stmt.Store(v, f, a)), below, fr, mem), t, fr.params, below)
  {
    StoreRuns(code, fuel, t, v, f, a, below, fr, mem);
    StoreRecords(code, fuel, t, v, a, below, fr, mem);
    StoreWrites(t, v, f, a, below, fr, Exec(code, fuel, IncStored(true, t, v, a), below, fr, mem).mem);
  }

  /** A store is the count of what is stored, and then the assignment. */
  lemma StoreRuns(code: map<Name, Code>, fuel: nat, t: Table, v: Name, f: Name, a: Atom, below: seq<Suspended>,
                  fr: Frame, mem: Memory)
    requires t.scopes != []
    ensures var o := Exec(code, fuel, IncStored(true, t, v, a), below, fr, mem);
            Exec(code, fuel, Translate(true, t, Stmt.Store(v, f, a)), below, fr, mem) ==
            if o.Normal? then DoSetField(o.frame, o.mem, v, f, a) else o
  {
    ExecConcat(code, fuel, IncStored(true, t, v, a), [SetField(v, f, a)], below, fr, mem);
    var o := Exec(code, fuel, IncStored(true, t, v, a), below, fr, mem);
    if o.Normal? { ExecOne(code, fuel, SetField(v, f, a), below, o.frame, o.mem); }
  }

  /** What is about to be stored in the block that `v` points to is counted there. */
  ghost predicate Prepared(fr: Frame, mem: Memory, v: Name, a: Atom) {
    Lookup(fr, v).Some? && Operand(fr, a).Some? && CountedIn(mem, Lookup(fr, v).value.value, Operand(fr, a).value)
  }

  ghost predicate CountedIn(mem: Memory, o: Addr, c: Cell) {
    o in mem.store.heap && CellBag(c) <= multiset(mem.store.heap[o].targets) + mem.store.lost
  }

  /** The store itself: the block written to is live, and the field is counted. */
  lemma StoreWrites(t: Table, v: Name, f: Name, a: Atom, below: seq<Suspended>, fr: Frame, mem: Memory)
    requires Match(t, fr) && Lookup(t, v) == Some(true) && AtomDefined(t, a)
    requires Eval(fr, V(v)) != Some(NULL) ==>
               Exact(mem, StackBag(below) + FrameBag(fr)) && Prepared(fr, mem, v, a)
    ensures Safe(DoSetField(fr, mem, v, f, a), t, fr.params, below)
  {
    MatchLookup(t, fr, v);
    if a.V? { MatchLookup(t, fr, a.name); }
    var o := Lookup(fr, v).value.value;
    if o != NULL { WriteCounted(mem, o, f, Operand(fr, a).value, StackBag(below) + FrameBag(fr)); }
  }

  lemma WriteCounted(mem: Memory, o: Addr, f: Name, c: Cell, held: multiset<Addr>)
    requires Exact(mem, held) && CountedIn(mem, o, c)
    ensures Exact(mem.(fields := mem.fields[(o, f) := c]), held)
  {
    var mem' := mem.(fields := mem.fields[(o, f) := c]);
    StillUnissued(mem, mem');
    assert Unissued(mem, o);
    forall q, g ensures FieldCounted(mem', q, g) { assert FieldCounted(mem, q, g); }
  }

  /** The count made for a store into a field: an edge or a lost increment of the
      block stored into, unless there is no such block. */
  lemma StoreRecords(code: map<Name, Code>, fuel: nat, t: Table, v: Name, a: Atom, below: seq<Suspended>, fr: Frame,
                     mem: Memory)
    requires Ready(t, fr, mem, below) && Lookup(t, v) == Some(true) && AtomDefined(t, a)
    ensures var o := Exec(code, fuel, IncStored(true, t, v, a), below, fr, mem);
            && o.Normal? && o.frame == fr
            && (Eval(fr, V(v)) != Some(NULL) ==>
                Exact(o.mem, StackBag(below) + FrameBag(fr)) && Prepared(fr, o.mem, v, a))
  {
    MatchLookup(t, fr, v);
    if a.V? { MatchLookup(t, fr, a.name); }
    if IsPointerVar(t, a) {
      ExecOne(code, fuel, Inc(a.name, Some(v)), below, fr, mem);
      StoredExact(mem, below, fr, a.name, v);
    } else {
      LiveBase(mem, below, fr, v);
      assert CellBag(Operand(fr, a).value) == multiset{};
    }
  }

  lemma LiveBase(mem: Memory, below: seq<Suspended>, fr: Frame, v: Name)
    requires Lookup(fr, v).Some? && Lookup(fr, v).value.pointer && Exact(mem, StackBag(below) + FrameBag(fr))
    ensures Lookup(fr, v).value.value != NULL ==>
              Lookup(fr, v).value.value in mem.store.heap && Lookup(fr, v).value.value in FrameBag(fr)
  {
    var o := Lookup(fr, v).value.value;
    FrameHolds(fr, v);
    if o != NULL {
      assert o in CellBag(Lookup(fr, v).value);
      assert CountOk(mem.store.heap, StackBag(below) + FrameBag(fr), mem.store.lost, o);
    }
  }

  lemma StoredExact(mem: Memory, below: seq<Suspended>, fr: Frame, x: Name, v: Name)
    requires Lookup(fr, x).Some? && Lookup(fr, x).value.pointer && Lookup(fr, v).Some? && Lookup(fr, v).value.pointer
    requires Exact(mem, StackBag(below) + FrameBag(fr))
    ensures var r := IncRef(mem.store, Lookup(fr, x).value.value, Lookup(fr, v).value.value);
            && r.Ok?
            && (Lookup(fr, v).value.value != NULL ==>
                && Exact(With(mem, r), StackBag(below) + FrameBag(fr))
                && CountedIn(With(mem, r), Lookup(fr, v).value.value, Lookup(fr, x).value))
  {
    var held, w, o := StackBag(below) + FrameBag(fr), Lookup(fr, x).value.value, Lookup(fr, v).value.value;
    LiveBase(mem, below, fr, x);
    LiveBase(mem, below, fr, v);
    if o == NULL {
      IncExact(mem, held, w);
    } else {
      RecordExact(mem, held, w, o);
      if w != NULL { History.IncRecords(mem.store, w, o); }
    }
  }

  lemma CallStmtSafe(code: map<Name, Code>, p: Program, fuel: nat, t: Table, fn: Name, args: seq<Atom>,
                     below: seq<Suspended>, fr: Frame, mem: Memory)
    requires Includes(code, p) && Ready(t, fr, mem, below) && StmtOk(p, t, CallStmt(fn, args), NoResult)
    ensures Safe(Exec(code, fuel, Translate(true, t, CallStmt(fn, args)), below, fr, mem), t, fr.params, below)
    decreases fuel, 0, 3
  {
    var incs := IncArgs(true, t, args);
    OpsAssoc(incs, [Invoke(fn, args)], DecArgs(true, t, args));
    ExecConcat(code, fuel, incs, [Invoke(fn, args)] + DecArgs(true, t, args), below, fr, mem);
    CallArgsDefined(p, t, fn, args);
    IncArgsExact(code, fuel, t, args, below, fr, mem, StackBag(below) + FrameBag(fr));
    CallStmtFinish(code, p, fuel, t, fn, args, below, fr, Exec(code, fuel, incs, below, fr, mem).mem);
  }

  lemma CallStmtFinish(code: map<Name, Code>, p: Program, fuel: nat, t: Table, fn: Name, args: seq<Atom>,
                       below: seq<Suspended>, fr: Frame, mem: Memory)
    requires Includes(code, p) && Match(t, fr) && CallOk(p, t, fn, args) && p[fn].result != PointerResult
    requires Exact(mem, StackBag(below) + FrameBag(fr) + ArgsBag(fr, args))
    ensures Safe(Exec(code, fuel, [Invoke(fn, args)] + DecArgs(true, t, args), below, fr, mem), t, fr.params,
                 below)
    decreases fuel, 0, 2
  {
    var held := StackBag(below) + FrameBag(fr);
    InvokeThen(code, fuel, fn, args, DecArgs(true, t, args), below, fr, mem);
    CallSafe(code, p, fuel, t, fn, args, below, fr, mem, None, held);
    var r := ExecCall(code, fuel, fn, args, below, fr, mem, None);
    if r.Got? {
      Nothing(held + ArgsBag(fr, args));
      CallArgsDefined(p, t, fn, args);
      DecArgsExact(code, fuel, t, args, below, fr, fr, r.mem, held);
    }
  }

  lemma {:induction false} BlockSafe(code: map<Name, Code>, p: Program, fuel: nat, t: Table, body: seq<Stmt>,
                                     result: Source.Result, below: seq<Suspended>, fr: Frame, mem: Memory)
    requires Includes(code, p) && Ready(t, fr, mem, below) && StmtsOk(p, Enter(t), body, result)
    ensures Ends(Exec(code, fuel, Translate(true, t, Block(body)), below, fr, mem), t, fr.params, below, result)
    decreases fuel, 1, body, 1
  {
    var t1 := AfterAll(Enter(t), body);
    var stmts, decs := TranslateAll(true, Enter(t), body), ScopeDecs(true, t1);
    assert Translate(true, t, Block(body)) == [Scope(stmts + decs)];
    BlockUnfolds(code, fuel, stmts, decs, below, fr, mem);
    MatchEnter(t, fr);
    EnterBag(fr);
    StmtsSafe(code, p, fuel, Enter(t), body, result, below, Enter(fr), mem);
    BlockTable(t, body);
    var o := Exec(code, fuel, stmts, below, Enter(fr), mem);
    if o.Normal? { BlockEnds(code, fuel, t, t1, below, o.frame, o.mem); }
  }

  lemma BlockUnfolds(code: map<Name, Code>, fuel: nat, stmts: seq<Op>, decs: seq<Op>, below: seq<Suspended>,
                     fr: Frame, mem: Memory)
    ensures var o := Exec(code, fuel, stmts, below, Enter(fr), mem);
            Exec(code, fuel, [Scope(stmts + decs)], below, fr, mem) ==
            if o.Normal? then Leave(Exec(code, fuel, decs, below, o.frame, o.mem)) else o
  {
    ExecOne(code, fuel, Scope(stmts + decs), below, fr, mem);
    ExecConcat(code, fuel, stmts, decs, below, Enter(fr), mem);
  }

  lemma BlockEnds(code: map<Name, Code>, fuel: nat, t: Table, t1: Table, below: seq<Suspended>, fr: Frame, mem: Memory)
    requires Ready(t1, fr, mem, below) && Exit(t1) == t
    ensures GoesOn(Exec(code, fuel, ScopeDecs(true, t1), below, fr, mem), fr,
                   StackBag(below) + FrameBag(Exit(fr)))
    ensures Match(t, Exit(fr))
  {
    ExitBag(fr);
    Regroup(StackBag(below), FrameBag(Exit(fr)), multiset{}, ScopeBag(Top(fr)));
    ScopeDecsExact(code, fuel, t1, below, fr, mem, StackBag(below) + FrameBag(Exit(fr)));
    MatchExit(t1, fr);
  }

  lemma {:induction false} IfSafe(code: map<Name, Code>, p: Program, fuel: nat, t: Table, c: Name, thn: Stmt,
                                  els: Option<Stmt>, result: Source.Result, below: seq<Suspended>, fr: Frame,
                                  mem: Memory)
    requires Includes(code, p) && Ready(t, fr, mem, below) && StmtOk(p, t, If(c, thn, els), result)
    ensures Ends(Exec(code, fuel, Translate(true, t, If(c, thn, els)), below, fr, mem), t, fr.params, below, result)
    decreases fuel, 1, If(c, thn, els), 0
  {
    MatchLookup(t, fr, c);
    OnlyDeclsAdd(p, t, thn, result);
    if els.Some? { OnlyDeclsAdd(p, t, els.value, result); }
    IfUnfolds(code, fuel, t, c, thn, els, below, fr, mem);
    if Lookup(fr, c).value.value != 0 {
      StmtSafe(code, p, fuel, t, thn, result, below, fr, mem);
    } else if els.Some? {
      StmtSafe(code, p, fuel, t, els.value, result, below, fr, mem);
    }
  }

  lemma IfUnfolds(code: map<Name, Code>, fuel: nat, t: Table, c: Name, thn: Stmt, els: Option<Stmt>,
                  below: seq<Suspended>, fr: Frame, mem: Memory)
    requires t.scopes != [] && After(t, thn) == t && Lookup(fr, c).Some?
    ensures Exec(code, fuel, Translate(true, t, If(c, thn, els)), below, fr, mem) ==
            if Lookup(fr, c).value.value != 0 then Exec(code, fuel, Translate(true, t, thn), below, fr, mem)
            else if els.Some? then Exec(code, fuel, Translate(true, t, els.value), below, fr, mem)
            else Normal(fr, mem)
  {
    var thnOps, elsOps := Translate(true, t, thn), if els.Some? then Translate(true, t, els.value) else [];
    assert Translate(true, t, If(c, thn, els)) == [Branch(c, thnOps, elsOps)];
    ExecOne(code, fuel, Branch(c, thnOps, elsOps), below, fr, mem);
  }

  lemma {:induction false} WhileSafe(code: map<Name, Code>, p: Program, fuel: nat, t: Table, c: Name, loop: Stmt,
                                     result: Source.Result, below: seq<Suspended>, fr: Frame, mem: Memory)
    requires Includes(code, p) && Ready(t, fr, mem, below) && StmtOk(p, t, While(c, loop), result)
    ensures Ends(Exec(code, fuel, Translate(true, t, While(c, loop)), below, fr, mem), t, fr.params, below, result)
    decreases fuel, 1, While(c, loop), 0
  {
    LoopSafe(code, p, fuel, t, c, loop, Translate(true, t, loop), result, below, fr, mem);
  }

  lemma {:induction false} LoopSafe(code: map<Name, Code>, p: Program, fuel: nat, t: Table, c: Name, loop: Stmt,
                                    ops: seq<Op>, result: Source.Result, below: seq<Suspended>, fr: Frame, mem: Memory)
    requires Includes(code, p) && Ready(t, fr, mem, below) && Lookup(t, c).Some? && BranchOk(p, t, loop, result)
    requires ops == Translate(true, t, loop)
    ensures Ends(Exec(code, fuel, [Loop(c, ops)], below, fr, mem), t, fr.params, below, result)
    decreases fuel, 1, loop, 3
  {
    MatchLookup(t, fr, c);
    LoopUnfolds(code, fuel, c, ops, below, fr, mem);
    if Lookup(fr, c).value.value != 0 && fuel > 0 {
      LoopOnce(code, p, fuel - 1, t, loop, result, below, fr, mem);
      var o := Exec(code, fuel - 1, ops, below, fr, mem);
      if o.Normal? { LoopSafe(code, p, fuel - 1, t, c, loop, ops, result, below, o.frame, o.mem); }
    }
  }

  lemma {:induction false} LoopOnce(code: map<Name, Code>, p: Program, fuel: nat, t: Table, loop: Stmt,
                                    result: Source.Result, below: seq<Suspended>, fr: Frame, mem: Memory)
    requires Includes(code, p) && Ready(t, fr, mem, below) && BranchOk(p, t, loop, result)
    ensures Ends(Exec(code, fuel, Translate(true, t, loop), below, fr, mem), t, fr.params, below, result)
    decreases fuel, 1, loop, 2
  {
    OnlyDeclsAdd(p, t, loop, result);
    StmtSafe(code, p, fuel, t, loop, result, below, fr, mem);
  }

  lemma LoopUnfolds(code: map<Name, Code>, fuel: nat, c: Name, ops: seq<Op>, below: seq<Suspended>, fr: Frame,
                    mem: Memory)
    requires Lookup(fr, c).Some?
    ensures Exec(code, fuel, [Loop(c, ops)], below, fr, mem) ==
            if Lookup(fr, c).value.value == 0 then Normal(fr, mem)
            else if fuel == 0 then Stop(OutOfFuel)
            else
              var o := Exec(code, fuel - 1, ops, below, fr, mem);
              if o.Normal? then Exec(code, fuel - 1, [Loop(c, ops)], below, o.frame, o.mem) else o
  {
    ExecOne(code, fuel, Loop(c, ops), below, fr, mem);
    if fuel > 0 {
      var o := Exec(code, fuel - 1, ops, below, fr, mem);
      if o.Normal? { ExecOne(code, fuel - 1, Loop(c, ops), below, o.frame, o.mem); }
    }
  }

  // ---------- whole programs ----------

  /** Every run of every well-formed program: no emitted count and no store touches a
      freed block, every count is exact at every statement boundary, and when `main`
      is done the only references left are its own result, recorded edges and lost
      increments. */
  lemma ProgramSafe(p: Program, fuel: nat)
    requires ProgramOk(p) && "main" in p && p["main"].params == []
    ensures var r := Run(Counted(p), fuel);
            && (r.Failed? ==> Benign(r.reason))
            && (r.Got? ==> Exact(r.mem, ResultBag(p["main"].result, r.value)))
  {
    var fr: Frame, t: Table := Env([], map[]), Env([], map[]);
    assert Edges(map[]) == multiset{};
    assert FrameBag(fr) == multiset{};
    IncludesAll(p);
    CallSafe(Counted(p), p, fuel, t, "main", [], [], fr, Fresh, None, multiset{});
    var r := Run(Counted(p), fuel);
    if r.Got? {
      assert multiset{} + ArgsBag(fr, []) + ResultBag(p["main"].result, r.value)
              == ResultBag(p["main"].result, r.value);
    }
  }

  /** So a program whose `main` returns no pointer, which loses no increment and leaves no
      cycle of stored pointers behind, frees everything it allocated: no block is left, no
      bytes are in use, and every allocation has been counted as collected. */
  lemma ProgramFreesAll(p: Program, fuel: nat)
    requires ProgramOk(p) && "main" in p && p["main"].params == [] && p["main"].result != PointerResult
    requires Run(Counted(p), fuel).Got?
    requires Run(Counted(p), fuel).mem.store.lost == multiset{}
    requires !exists c :: Rc.IsCycle(Run(Counted(p), fuel).mem.store.heap, c)
    ensures var store := Run(Counted(p), fuel).mem.store;
            store.heap == map[] && store.stats.current == 0 && store.stats.allocations == store.stats.collections
  {
    ProgramSafe(p, fuel);
    RunAccounted(Counted(p), fuel);
    Rc.AllDroppedAllFreed(Rc.State(Run(Counted(p), fuel).mem.store, multiset{}));
  }

  /** The order in which the pointers of a scope are released makes no difference: any
      list of the same variables leads to the same memory. */
  lemma ReleaseOrder(code: map<Name, Code>, fuel: nat, xs: seq<Name>, ys: seq<Name>, below: seq<Suspended>, fr: Frame,
                     mem: Memory, held: multiset<Addr>)
    requires fr.scopes != [] && Lists(xs, Top(fr), fr) && Lists(ys, Top(fr), fr)
    requires Exact(mem, held + ScopeBag(Top(fr)))
    ensures Exec(code, fuel, Decs(xs), below, fr, mem) == Exec(code, fuel, Decs(ys), below, fr, mem)
  {
    DecsExact(code, fuel, xs, Top(fr), below, fr, mem, held);
    DecsExact(code, fuel, ys, Top(fr), below, fr, mem, held);
    DecsAreDecAll(code, fuel, xs, below, fr, mem);
    DecsAreDecAll(code, fuel, ys, below, fr, mem);
    SamePointers(xs, ys, Top(fr), fr);
    Rc.ReleaseOrderImmaterial(mem.store, held + ScopeBag(Top(fr)), Pointers(xs, Top(fr)), Pointers(ys, Top(fr)));
  }

  /** The non-null pointers of the listed variables, in the order listed. */
  function Pointers(xs: seq<Name>, scope: map<Name, Cell>): seq<Addr> {
    if xs == [] then []
    else if xs[0] in scope && scope[xs[0]].value != NULL then [scope[xs[0]].value] + Pointers(xs[1..], scope)
    else Pointers(xs[1..], scope)
  }

  lemma {:induction false} DecsAreDecAll(code: map<Name, Code>, fuel: nat, xs: seq<Name>, below: seq<Suspended>,
                                         fr: Frame, mem: Memory)
    requires fr.scopes != [] && forall x :: x in xs ==> x in Top(fr)
    ensures Exec(code, fuel, Decs(xs), below, fr, mem) ==
            match DecAll(mem.store, Pointers(xs, Top(fr)))
            case Fault => Stop(UseAfterFree)
            case Ok(s) => Normal(fr, mem.(store := s))
    decreases |xs|
  {
    if xs == [] {
      assert mem.(store := mem.store) == mem;
    } else {
      var c := Top(fr)[xs[0]];
      assert Lookup(fr, xs[0]) == Some(c);
      assert Decs(xs)[1..] == Decs(xs[1..]);
      if c.value != NULL { assert Pointers(xs, Top(fr))[1..] == Pointers(xs[1..], Top(fr)); }
      var r := DecRef(mem.store, c.value);
      if r.Ok? { DecsAreDecAll(code, fuel, xs[1..], below, fr, mem.(store := r.store)); }
    }
  }

  lemma {:induction false} PointersBag(xs: seq<Name>, rest: map<Name, Cell>, scope: map<Name, Cell>, fr: Frame)
    requires Lists(xs, rest, fr) && scope == Top(fr)
    ensures multiset(Pointers(xs, scope)) == ScopeBag(rest)
    decreases |xs|
  {
    if xs == [] {
      NoPointers(rest);
    } else {
      var x := xs[0];
      assert x in xs;
      ListsRest(xs, rest, fr);
      PointersBag(xs[1..], rest - {x}, scope, fr);
      MapBagTake(rest, CellBag, x);
    }
  }

  lemma SamePointers(xs: seq<Name>, ys: seq<Name>, scope: map<Name, Cell>, fr: Frame)
    requires scope == Top(fr) && Lists(xs, scope, fr) && Lists(ys, scope, fr)
    ensures multiset(Pointers(xs, scope)) == multiset(Pointers(ys, scope)) == ScopeBag(scope)
  {
    PointersBag(xs, scope, scope, fr);
    PointersBag(ys, scope, scope, fr);
  }
}

