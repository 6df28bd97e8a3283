/** Programs outside the fragment of `Source.StmtOk` whose inserted counts go wrong: the
    translation is the same, and an audit finds a count that is not the number of holders. */
module Limits {
  import opened RuntimeStats
  import opened Bags
  import opened RefCountStore
  import opened RefCountCascade
  import opened Scopes
  import opened Source
  import opened Emit
  import opened Machine
  import opened FrameFacts
  import opened CountingOps
  import opened Counting
  import Exactness

  // ---------- a memory with one block, at address 1 ----------

  const AfterNew := Stats(1, 0, HEADER_SIZE, HEADER_SIZE)

  function Mem(count: int): Memory {
    Memory(Store.Store(map[1 := Header(count, HEADER_SIZE, [])], AfterNew, multiset{}), map[], 2)
  }

  function At(fr: Frame, x: Name): Option<nat> { Eval(fr, V(x)) }

  lemma NewStep()
    ensures DoNew(Fresh, 0) == Got(1, Mem(1))
  {
    assert map[][1 := Header(1, HEADER_SIZE, [])] == map[1 := Header(1, HEADER_SIZE, [])];
  }

  lemma IncStep(fr: Frame, n: int, x: Name)
    requires At(fr, x) == Some(1)
    ensures DoInc(fr, Mem(n), x, None) == Normal(fr, Mem(n + 1))
  {
    assert Mem(n).store.heap[1 := Header(n + 1, HEADER_SIZE, [])] == Mem(n + 1).store.heap;
  }

  lemma DecStep(fr: Frame, n: int, x: Name)
    requires At(fr, x) == Some(1) && n != 1
    ensures DoDec(fr, Mem(n), x) == Normal(fr, Mem(n - 1))
  {
    assert Mem(n).store.heap[1 := Header(n - 1, HEADER_SIZE, [])] == Mem(n - 1).store.heap;
  }

  /** The last count: the block is freed. */
  lemma DecLast(fr: Frame, x: Name)
    requires At(fr, x) == Some(1)
    ensures var o := DoDec(fr, Mem(1), x); o.Normal? && o.frame == fr && o.mem.store.heap == map[]
  {
    var s := Mem(1).store.(heap := Mem(1).store.heap[1 := Header(0, HEADER_SIZE, [])]);
    assert DecAll(s, []) == Ok(s);
    assert s.heap - {1} == map[];
  }

  // ---------- running towards a failing audit ----------

  /** A run of these statements ends in a failing audit, here or later. */
  ghost predicate Fails(code: map<Name, Code>, fuel: nat, ops: seq<Op>, below: seq<Suspended>, fr: Frame, mem: Memory) {
    Exec(code, fuel, ops, below, fr, mem) == Stop(BadCount)
  }

  lemma FailsLater(code: map<Name, Code>, fuel: nat, op: Op, rest: seq<Op>, below: seq<Suspended>,
                   fr: Frame, mem: Memory)
    requires var o := ExecOp(code, fuel, op, below, fr, mem);
             o == Stop(BadCount) || (o.Normal? && Fails(code, fuel, rest, below, o.frame, o.mem))
    ensures Fails(code, fuel, [op] + rest, below, fr, mem)
  {
    assert ([op] + rest)[1..] == rest;
  }

  lemma AuditLater(code: map<Name, Code>, fuel: nat, rest: seq<Op>, below: seq<Suspended>, fr: Frame, mem: Memory)
    requires Fails(code, fuel, rest, below, fr, mem)
    ensures Fails(code, fuel, [Audit] + rest, below, fr, mem)
  {
    FailsLater(code, fuel, Audit, rest, below, fr, mem);
  }

  /** An audit fails when block 1 is live and has neither holder nor edge. */
  lemma UnheldFails(code: map<Name, Code>, fuel: nat, rest: seq<Op>, below: seq<Suspended>, fr: Frame, n: int)
    requires 1 !in StackBag(below) && 1 !in FrameBag(fr)
    ensures Fails(code, fuel, [Audit] + rest, below, fr, Mem(n))
  {
    var mem, held := Mem(n), StackBag(below) + FrameBag(fr);
    EdgeInto(mem.store.heap, 1);
    assert !CountOk(mem.store.heap, held, mem.store.lost, 1);
    assert !Exact(mem, held);
    FailsLater(code, fuel, Audit, rest, below, fr, mem);
  }

  /** And when a variable holds block 1, which has been freed. */
  lemma DanglingFails(code: map<Name, Code>, fuel: nat, rest: seq<Op>, below: seq<Suspended>, fr: Frame, mem: Memory)
    requires 1 in FrameBag(fr) && mem.store.heap == map[]
    ensures Fails(code, fuel, [Audit] + rest, below, fr, mem)
  {
    var held := StackBag(below) + FrameBag(fr);
    assert !CountOk(mem.store.heap, held, mem.store.lost, 1);
    assert !Exact(mem, held);
    FailsLater(code, fuel, Audit, rest, below, fr, mem);
  }

  /** And when block 1 has one holder but another count. */
  lemma WrongCount(held: multiset<Addr>, n: int)
    requires held == multiset{1} && n != 1
    ensures !Exact(Mem(n), held)
  {
    EdgeInto(Mem(n).store.heap, 1);
    assert !CountOk(Mem(n).store.heap, held, Mem(n).store.lost, 1);
  }

  lemma WrongCountFails(code: map<Name, Code>, fuel: nat, rest: seq<Op>, below: seq<Suspended>, fr: Frame, n: int)
    requires StackBag(below) + FrameBag(fr) == multiset{1} && n != 1
    ensures Fails(code, fuel, [Audit] + rest, below, fr, Mem(n))
  {
    WrongCount(StackBag(below) + FrameBag(fr), n);
    FailsLater(code, fuel, Audit, rest, below, fr, Mem(n));
  }

  /** `main` with one pointer variable `x` in its body. */
  function MainFrame(v: nat): Frame { Env([map[], map["x" := Cell(true, v)]], map[]) }

  const Outside: seq<Suspended> := [Suspended(Env([], map[]), None)]

  lemma MainHolds(v: nat)
    ensures FrameBag(MainFrame(v)) == CellBag(Cell(true, v)) && StackBag(Outside) == multiset{}
  {
    var fr := MainFrame(v);
    ExitBag(fr);
    assert Exit(fr).scopes == [map[]];
    EmptyFrame(Exit(fr));
    OneHeld("x", Cell(true, v));
    PushBag([], Outside[0]);
    assert [] + [Outside[0]] == Outside && FrameBag(Env([], map[])) == multiset{};
  }

  lemma OneHeld(x: Name, c: Cell)
    ensures ScopeBag(map[x := c]) == CellBag(c)
  {
    MapBagInsert(map[], CellBag, x, c);
    assert map[][x := c] == map[x := c];
  }

  /** The table in the body of `main`, after `x`. */
  const MainTable: Table := Env([map[], map["x" := true]], map[])

  lemma MainTranslates(rest: seq<Stmt>)
    ensures TranslateBlock(true, Env([map[]], map[]), [Decl("x", true, New(0))] + rest)
         == [Audit] + ([Declare("x", true, New(0))]
                       + (TranslateAll(true, MainTable, rest) + ScopeDecs(true, AfterAll(MainTable, rest))))
  {
    var d := Decl("x", true, New(0));
    var t: Table := Env([map[], map[]], map[]);
    assert ([d] + rest)[1..] == rest && ([d] + rest)[0] == d;
    assert Enter<bool>(Env([map[]], map[])) == t && After(t, d) == MainTable;
    assert Translate(true, t, d) == [Declare("x", true, New(0))];
    var all, decs := TranslateAll(true, MainTable, rest), ScopeDecs(true, AfterAll(MainTable, rest));
    assert TranslateAll(true, t, [d] + rest) == [Audit] + [Declare("x", true, New(0))] + all;
    assert AfterAll(t, [d] + rest) == AfterAll(MainTable, rest);
    OpsAssoc([Audit] + [Declare("x", true, New(0))], all, decs);
    OpsAssoc([Audit], [Declare("x", true, New(0))], all + decs);
  }

  /** A program whose `main` starts with `ptr x = new;` fails if the rest does. */
  lemma MainFails(p: Program, fuel: nat, rest: seq<Stmt>)
    requires "main" in p && p["main"] == Func([], NoResult, [Decl("x", true, New(0))] + rest) && fuel > 0
    requires Fails(Counted(p), fuel - 1,
                   TranslateAll(true, MainTable, rest) + ScopeDecs(true, AfterAll(MainTable, rest)), Outside,
                   MainFrame(1), Mem(1))
    ensures Run(Counted(p), fuel) == Failed(BadCount)
  {
    var tail := TranslateAll(true, MainTable, rest) + ScopeDecs(true, AfterAll(MainTable, rest));
    DeclareFails(Counted(p), fuel - 1, tail);
    MainTranslates(rest);
    BodyStops(p, fuel, [Decl("x", true, New(0))] + rest, [Audit] + ([Declare("x", true, New(0))] + tail));
  }

  lemma BodyStops(p: Program, fuel: nat, body: seq<Stmt>, ops: seq<Op>)
    requires "main" in p && p["main"] == Func([], NoResult, body) && fuel > 0
    requires ops == TranslateBlock(true, Env([map[]], map[]), body)
    requires Fails(Counted(p), fuel - 1, ops, Outside, Env([map[], map[]], map[]), Fresh)
    ensures Run(Counted(p), fuel) == Failed(BadCount)
  {
    MainStops(p, fuel, ops);
  }

  lemma DeclareFails(code: map<Name, Code>, fuel: nat, tail: seq<Op>)
    requires Fails(code, fuel, tail, Outside, MainFrame(1), Mem(1))
    ensures Fails(code, fuel, [Audit] + ([Declare("x", true, New(0))] + tail), Outside, Env([map[], map[]], map[]),
                  Fresh)
  {
    var fr: Frame := Env([map[], map[]], map[]);
    NewStep();
    assert Add(fr, "x", Cell(true, 1)) == MainFrame(1);
    FailsLater(code, fuel, Declare("x", true, New(0)), tail, Outside, fr, Fresh);
    AuditLater(code, fuel, [Declare("x", true, New(0))] + tail, Outside, fr, Fresh);
  }

  lemma MainStops(p: Program, fuel: nat, ops: seq<Op>)
    requires "main" in p && p["main"].params == [] && fuel > 0
    requires ops == TranslateBlock(true, Env([map[]], map[]), p["main"].body)
    requires Fails(Counted(p), fuel - 1, ops, Outside, Env([map[], map[]], map[]), Fresh)
    ensures Run(Counted(p), fuel) == Failed(BadCount)
  {
    assert StartTable(p["main"]) == Env([map[]], map[]);
    assert [] + [Suspended(Env([], map[]), None)] == Outside;
    CallRuns(Counted(p), fuel, "main", [], [], Env([], map[]), Fresh, None, map[], ops);
  }

  lemma BlockRuns(code: map<Name, Code>, fuel: nat, ops: seq<Op>, below: seq<Suspended>, params: map<Name, Cell>,
                  mem: Memory)
    ensures Exec(code, fuel, [Scope(ops)], below, Env([map[]], params), mem)
         == Leave(Exec(code, fuel, ops, below, Env([map[], map[]], params), mem))
  {
    assert Enter<Cell>(Env([map[]], params)) == Env([map[], map[]], params);
    ExecOne(code, fuel, Scope(ops), below, Env([map[]], params), mem);
  }

  /** A call runs the callee's statements `ops` in a scope of their own. */
  lemma CallRuns(code: map<Name, Code>, fuel: nat, fn: Name, args: seq<Atom>, below: seq<Suspended>, fr: Frame,
                 mem: Memory, pending: Option<Name>, params: map<Name, Cell>, ops: seq<Op>)
    requires fn in code && fuel > 0 && Bind(fr, code[fn].params, args) == Some(params) && code[fn].body == [Scope(ops)]
    ensures var o := Exec(code, fuel - 1, ops, below + [Suspended(fr, pending)], Env([map[], map[]], params), mem);
            ExecCall(code, fuel, fn, args, below, fr, mem, pending) == Finish(Leave(o))
  {
    BlockRuns(code, fuel - 1, ops, below + [Suspended(fr, pending)], params, mem);
  }

  lemma OneStatement(t: Table, s: Stmt)
    requires t.scopes != []
    ensures TranslateAll(true, t, [s]) == [Audit] + Translate(true, t, s) + [Audit]
    ensures AfterAll(t, [s]) == After(t, s)
  {
    assert [s][1..] == [];
    assert TranslateAll(true, After(t, s), []) == [Audit] && AfterAll(After(t, s), []) == After(t, s);
  }

  lemma NothingToRelease(t: Table)
    ensures ScopeDecs(true, Enter(t)) == []
  {
    assert Top(Enter(t)) == map[] && PointerNames(map[]) == {};
  }

  // ---------- x = f(x) ----------

  /** ptr f(ptr p) { return NIL; }  void main() { ptr x = new; x = f(x); } */
  const SelfCall: Program :=
    map["f" := Func([Param("p", true)], PointerResult, [Return(K(0))]),
        "main" := Func([], NoResult, [Decl("x", true, New(0))] + [Assign("x", Call("f", [V("x")]))])]

  const NilOps := [Audit] + ([Ret(K(0))] + [Audit])

  lemma NilTranslates(t: Table)
    ensures TranslateBlock(true, t, [Return(K(0))]) == NilOps
  {
    NothingToRelease(t);
    OneStatement(Enter(t), Return(K(0)));
    assert Translate(true, Enter(t), Return(K(0))) == [Ret(K(0))];
    OpsAssoc([Audit], [Ret(K(0))], [Audit]);
  }

  lemma NilCompiles()
    ensures "f" in Counted(SelfCall) && Counted(SelfCall)["f"] == Code([Param("p", true)], [Scope(NilOps)])
  {
    NilTranslates(Env([map[]], map["p" := true]));
    assert [Param("p", true)][1..] == [];
    assert StartTable(SelfCall["f"]) == Env([map[]], map["p" := true]);
  }

  lemma NilRuns(code: map<Name, Code>, fuel: nat, below: seq<Suspended>, fr: Frame, mem: Memory)
    ensures var o := Exec(code, fuel, NilOps, below, fr, mem);
            o == Returned(0, mem) || o == Stop(BadCount)
  {
    ExecConcat(code, fuel, [Audit], [Ret(K(0))] + [Audit], below, fr, mem);
    ExecConcat(code, fuel, [Ret(K(0))], [Audit], below, fr, mem);
    ExecOne(code, fuel, Audit, below, fr, mem);
    ExecOne(code, fuel, Ret(K(0)), below, fr, mem);
  }

  /** The call of `f` returns NIL and leaves the memory alone, unless an audit fails in it. */
  lemma ReturnsNil(code: map<Name, Code>, fuel: nat, below: seq<Suspended>, fr: Frame, mem: Memory,
                   params: map<Name, Cell>)
    requires "f" in code && code["f"].body == [Scope(NilOps)] && fuel > 0
    requires Bind(fr, code["f"].params, [V("x")]) == Some(params)
    ensures var r := ExecCall(code, fuel, "f", [V("x")], below, fr, mem, Some("x"));
            r == Got(0, mem) || r == Failed(BadCount)
  {
    CallRuns(code, fuel, "f", [V("x")], below, fr, mem, Some("x"), params, NilOps);
    NilRuns(code, fuel - 1, below + [Suspended(fr, Some("x"))], Env([map[], map[]], params), mem);
  }

  lemma AssignX()
    ensures Lookup(MainFrame(1), "x") == Some(Cell(true, 1)) && Assigned(MainFrame(1), "x", 0) == MainFrame(0)
  {
    var ss := MainFrame(1).scopes;
    assert LookupScopes(ss, "x") == Some(Cell(true, 1));
    assert UpdateScopes(ss, "x", Cell(true, 0)) == ss[..1] + [ss[1]["x" := Cell(true, 0)]];
    assert ss[1]["x" := Cell(true, 0)] == map["x" := Cell(true, 0)];
    assert ss[..1] + [map["x" := Cell(true, 0)]] == MainFrame(0).scopes;
  }

  lemma BindsX()
    ensures Bind(MainFrame(1), [Param("p", true)], [V("x")]) == Some(map["p" := Cell(true, 1)])
  {
    assert [Param("p", true)][1..] == [] && [V("x")][1..] == [];
    assert map[]["p" := Cell(true, 1)] == map["p" := Cell(true, 1)];
  }

  const Reassign := Set("x", Call("f", [V("x")]))

  lemma SelfCallTranslates()
    ensures var s := Assign("x", Call("f", [V("x")]));
            && TranslateAll(true, MainTable, [s]) + ScopeDecs(true, AfterAll(MainTable, [s]))
               == [Audit] + ([Inc("x", None)] + ([Dec("x")] + ([Reassign] + ([Dec("x")]
                   + ([Audit] + ScopeDecs(true, MainTable))))))
  {
    var s := Assign("x", Call("f", [V("x")]));
    OneStatement(MainTable, s);
    assert [V("x")][1..] == [];
    assert Translate(true, MainTable, s) == [Inc("x", None)] + [Dec("x")] + [Reassign] + [Dec("x")];
    SelfCallRegroup(ScopeDecs(true, MainTable));
  }

  lemma SelfCallRegroup(decs: seq<Op>)
    ensures [Audit] + ([Inc("x", None)] + [Dec("x")] + [Reassign] + [Dec("x")]) + [Audit] + decs
         == [Audit] + ([Inc("x", None)] + ([Dec("x")] + ([Reassign] + ([Dec("x")] + ([Audit] + decs)))))
  {}

  /** Assigning to a variable that is also passed: the count of its old value is never
      given back. */
  lemma SelfCallFails(fuel: nat)
    requires fuel > 1
    ensures Run(Counted(SelfCall), fuel) == Failed(BadCount)
  {
    var code, fr, decs := Counted(SelfCall), MainFrame(1), ScopeDecs(true, MainTable);
    var end := [Dec("x")] + ([Audit] + decs);
    MainHolds(0);
    UnheldFails(code, fuel - 1, decs, Outside, MainFrame(0), 1);
    FailsLater(code, fuel - 1, Dec("x"), [Audit] + decs, Outside, MainFrame(0), Mem(1));
    BindsX();
    AssignX();
    NilCompiles();
    ReassignFails(code, fuel - 1, end, Outside, fr, Mem(1), map["p" := Cell(true, 1)]);
    DecStep(fr, 2, "x");
    FailsLater(code, fuel - 1, Dec("x"), [Reassign] + end, Outside, fr, Mem(2));
    IncStep(fr, 1, "x");
    FailsLater(code, fuel - 1, Inc("x", None), [Dec("x")] + ([Reassign] + end), Outside, fr, Mem(1));
    AuditLater(code, fuel - 1, [Inc("x", None)] + ([Dec("x")] + ([Reassign] + end)), Outside, fr, Mem(1));
    SelfCallTranslates();
    MainFails(SelfCall, fuel, [Assign("x", Call("f", [V("x")]))]);
  }

  lemma ReassignFails(code: map<Name, Code>, fuel: nat, end: seq<Op>, below: seq<Suspended>, fr: Frame, mem: Memory,
                      params: map<Name, Cell>)
    requires "f" in code && code["f"].body == [Scope(NilOps)] && fuel > 0
    requires Bind(fr, code["f"].params, [V("x")]) == Some(params) && Lookup(fr, "x").Some?
    requires Fails(code, fuel, end, below, Assigned(fr, "x", 0), mem)
    ensures Fails(code, fuel, [Reassign] + end, below, fr, mem)
  {
    ReturnsNil(code, fuel, below, fr, mem, params);
    FailsLater(code, fuel, Reassign, end, below, fr, mem);
  }

  // ---------- assigning to a parameter ----------

  /** void f(ptr p) { p = NIL; }  void main() { ptr x = new; f(x); } */
  const AssignedParameter: Program :=
    map["f" := Func([Param("p", true)], NoResult, [Assign("p", Val(K(0)))]),
        "main" := Func([], NoResult, [Decl("x", true, New(0))] + [CallStmt("f", [V("x")])])]

  lemma OneScope<V>(x: Name)
    ensures LookupScopes<V>([map[]], x) == None
  {
    var one: seq<map<Name, V>> := [map[]];
    assert one[..0] == [];
  }

  lemma NoNames<V>(x: Name)
    ensures LookupScopes<V>([map[], map[]], x) == None
  {
    var one: seq<map<Name, V>> := [map[]];
    assert one[..0] == [] && (one + one)[..1] == one && one + one == [map[], map[]];
    assert LookupScopes(one, x) == None;
  }

  const ClearOps := [Audit] + ([Dec("p")] + ([Set("p", Val(K(0)))] + [Audit]))

  lemma ClearTranslates()
    ensures TranslateBlock(true, Env([map[]], map["p" := true]), [Assign("p", Val(K(0)))]) == ClearOps
  {
    var t: Table := Env([map[]], map["p" := true]);
    var s := Assign("p", Val(K(0)));
    NothingToRelease(t);
    OneStatement(Enter(t), s);
    EnterLookup(t, "p");
    OneScope<bool>("p");
    assert Translate(true, Enter(t), s) == [Dec("p"), Set("p", Val(K(0)))];
  }

  lemma ClearCompiles()
    ensures "f" in Counted(AssignedParameter)
    ensures Counted(AssignedParameter)["f"] == Code([Param("p", true)], [Scope(ClearOps)])
  {
    ClearTranslates();
    assert [Param("p", true)][1..] == [];
    assert StartTable(AssignedParameter["f"]) == Env([map[]], map["p" := true]);
  }

  /** In `f`, whose parameter is block 1. */
  function CalleeFrame(): Frame { Env([map[], map[]], map["p" := Cell(true, 1)]) }

  lemma InCallee()
    ensures LookupScopes(CalleeFrame().scopes, "p") == None && At(CalleeFrame(), "p") == Some(1)
  {
    NoNames<Cell>("p");
  }

  lemma ClearRuns(code: map<Name, Code>, fuel: nat, below: seq<Suspended>)
    ensures var o := Exec(code, fuel, ClearOps, below, CalleeFrame(), Mem(2));
            (o.Normal? && o.mem == Mem(1)) || o == Stop(BadCount)
  {
    var fr, set0 := CalleeFrame(), Set("p", Val(K(0)));
    InCallee();
    DecStep(fr, 2, "p");
    ExecConcat(code, fuel, [Audit], [Dec("p")] + ([set0] + [Audit]), below, fr, Mem(2));
    ExecOne(code, fuel, Audit, below, fr, Mem(2));
    ExecConcat(code, fuel, [Dec("p")], [set0] + [Audit], below, fr, Mem(2));
    ExecOne(code, fuel, Dec("p"), below, fr, Mem(2));
    ExecConcat(code, fuel, [set0], [Audit], below, fr, Mem(1));
    ExecOne(code, fuel, set0, below, fr, Mem(1));
    ExecOne(code, fuel, Audit, below, Assigned(fr, "p", 0), Mem(1));
  }

  lemma PassTranslates()
    ensures var s := CallStmt("f", [V("x")]);
            TranslateAll(true, MainTable, [s]) + ScopeDecs(true, AfterAll(MainTable, [s]))
            == [Audit] + ([Inc("x", None)] + ([Invoke("f", [V("x")])] + ([Dec("x")]
                + ([Audit] + ScopeDecs(true, MainTable)))))
  {
    var s := CallStmt("f", [V("x")]);
    OneStatement(MainTable, s);
    assert [V("x")][1..] == [];
    assert Translate(true, MainTable, s) == [Inc("x", None)] + [Pass] + [Dec("x")];
    PassRegroup(ScopeDecs(true, MainTable));
  }

  lemma PassRegroup(decs: seq<Op>)
    ensures [Audit] + ([Inc("x", None)] + [Pass] + [Dec("x")]) + [Audit] + decs
         == [Audit] + ([Inc("x", None)] + ([Pass] + ([Dec("x")] + ([Audit] + decs))))
  {}

  const Pass := Invoke("f", [V("x")])

  /** `main` passes `x` to `f`, which leaves the count at `n`. */
  lemma PassRuns(code: map<Name, Code>, fuel: nat, end: seq<Op>, below: seq<Suspended>, fr: Frame, n: int)
    requires At(fr, "x") == Some(1) && Fails(code, fuel, end, below, fr, Mem(n))
    requires var r := ExecCall(code, fuel, "f", [V("x")], below, fr, Mem(2), None);
             r == Failed(BadCount) || (r.Got? && r.mem == Mem(n))
    ensures Fails(code, fuel, [Audit] + ([Inc("x", None)] + ([Pass] + end)), below, fr, Mem(1))
  {
    FailsLater(code, fuel, Pass, end, below, fr, Mem(2));
    IncStep(fr, 1, "x");
    FailsLater(code, fuel, Inc("x", None), [Pass] + end, below, fr, Mem(1));
    AuditLater(code, fuel, [Inc("x", None)] + ([Pass] + end), below, fr, Mem(1));
  }

  lemma PassFails(p: Program, fuel: nat, end: seq<Op>)
    requires "main" in p && fuel > 0 && end == [Dec("x")] + ([Audit] + ScopeDecs(true, MainTable))
    requires p["main"] == Func([], NoResult, [Decl("x", true, New(0))] + [CallStmt("f", [V("x")])])
    requires Fails(Counted(p), fuel - 1, [Audit] + ([Inc("x", None)] + ([Pass] + end)), Outside, MainFrame(1), Mem(1))
    ensures Run(Counted(p), fuel) == Failed(BadCount)
  {
    PassTranslates();
    MainFails(p, fuel, [CallStmt("f", [V("x")])]);
  }

  lemma ClearCall(code: map<Name, Code>, fuel: nat, below: seq<Suspended>, fr: Frame)
    requires "f" in code && code["f"] == Code([Param("p", true)], [Scope(ClearOps)]) && fuel > 0
    requires Bind(fr, [Param("p", true)], [V("x")]) == Some(map["p" := Cell(true, 1)])
    ensures var r := ExecCall(code, fuel, "f", [V("x")], below, fr, Mem(2), None);
            r == Failed(BadCount) || (r.Got? && r.mem == Mem(1))
  {
    CallRuns(code, fuel, "f", [V("x")], below, fr, Mem(2), None, map["p" := Cell(true, 1)], ClearOps);
    ClearRuns(code, fuel - 1, below + [Suspended(fr, None)]);
  }

  lemma ReleaseDangles(code: map<Name, Code>, fuel: nat, decs: seq<Op>, below: seq<Suspended>, fr: Frame)
    requires At(fr, "x") == Some(1) && 1 in FrameBag(fr)
    ensures Fails(code, fuel, [Dec("x")] + ([Audit] + decs), below, fr, Mem(1))
  {
    DecLast(fr, "x");
    DanglingFails(code, fuel, decs, below, fr, DoDec(fr, Mem(1), "x").mem);
    FailsLater(code, fuel, Dec("x"), [Audit] + decs, below, fr, Mem(1));
  }

  /** The callee gives up a reference that its caller gives up again. */
  lemma AssignedParameterFails(fuel: nat)
    requires fuel > 1
    ensures Run(Counted(AssignedParameter), fuel) == Failed(BadCount)
  {
    var code, decs := Counted(AssignedParameter), ScopeDecs(true, MainTable);
    ClearCompiles();
    BindsX();
    ClearCall(code, fuel - 1, Outside, MainFrame(1));
    AssignX();
    MainHolds(1);
    ReleaseDangles(code, fuel - 1, decs, Outside, MainFrame(1));
    PassRuns(code, fuel - 1, [Dec("x")] + ([Audit] + decs), Outside, MainFrame(1), 1);
    PassFails(AssignedParameter, fuel, [Dec("x")] + ([Audit] + decs));
  }

  // ---------- a pointer result that nobody takes ----------

  /** ptr f(ptr p) { return p; }  void main() { ptr x = new; f(x); } */
  const Discarded: Program :=
    map["f" := Func([Param("p", true)], PointerResult, [Return(V("p"))]),
        "main" := Func([], NoResult, [Decl("x", true, New(0))] + [CallStmt("f", [V("x")])])]

  const EchoOps := [Audit] + ([Inc("p", None)] + ([Ret(V("p"))] + [Audit]))

  lemma EchoTranslates()
    ensures TranslateBlock(true, Env([map[]], map["p" := true]), [Return(V("p"))]) == EchoOps
  {
    var t: Table := Env([map[]], map["p" := true]);
    var s := Return(V("p"));
    NothingToRelease(t);
    OneStatement(Enter(t), s);
    EnterLookup(t, "p");
    OneScope<bool>("p");
    assert Translate(true, Enter(t), s) == [Inc("p", None), Ret(V("p"))];
  }

  lemma EchoCompiles()
    ensures "f" in Counted(Discarded) && Counted(Discarded)["f"] == Code([Param("p", true)], [Scope(EchoOps)])
  {
    EchoTranslates();
    assert [Param("p", true)][1..] == [];
    assert StartTable(Discarded["f"]) == Env([map[]], map["p" := true]);
  }

  lemma EchoRuns(code: map<Name, Code>, fuel: nat, below: seq<Suspended>)
    ensures var o := Exec(code, fuel, EchoOps, below, CalleeFrame(), Mem(2));
            o == Returned(1, Mem(3)) || o == Stop(BadCount)
  {
    var fr := CalleeFrame();
    InCallee();
    IncStep(fr, 2, "p");
    ExecConcat(code, fuel, [Audit], [Inc("p", None)] + ([Ret(V("p"))] + [Audit]), below, fr, Mem(2));
    ExecOne(code, fuel, Audit, below, fr, Mem(2));
    ExecConcat(code, fuel, [Inc("p", None)], [Ret(V("p"))] + [Audit], below, fr, Mem(2));
    ExecOne(code, fuel, Inc("p", None), below, fr, Mem(2));
    ExecConcat(code, fuel, [Ret(V("p"))], [Audit], below, fr, Mem(3));
    ExecOne(code, fuel, Ret(V("p")), below, fr, Mem(3));
  }

  lemma EchoCall(code: map<Name, Code>, fuel: nat, below: seq<Suspended>, fr: Frame)
    requires "f" in code && code["f"] == Code([Param("p", true)], [Scope(EchoOps)]) && fuel > 0
    requires Bind(fr, [Param("p", true)], [V("x")]) == Some(map["p" := Cell(true, 1)])
    ensures var r := ExecCall(code, fuel, "f", [V("x")], below, fr, Mem(2), None);
            r == Failed(BadCount) || r == Got(1, Mem(3))
  {
    CallRuns(code, fuel, "f", [V("x")], below, fr, Mem(2), None, map["p" := Cell(true, 1)], EchoOps);
    EchoRuns(code, fuel - 1, below + [Suspended(fr, None)]);
  }

  lemma ReleaseLeaves(code: map<Name, Code>, fuel: nat, decs: seq<Op>, below: seq<Suspended>, fr: Frame)
    requires At(fr, "x") == Some(1) && StackBag(below) + FrameBag(fr) == multiset{1}
    ensures Fails(code, fuel, [Dec("x")] + ([Audit] + decs), below, fr, Mem(3))
  {
    WrongCountFails(code, fuel, decs, below, fr, 2);
    DecStep(fr, 3, "x");
    FailsLater(code, fuel, Dec("x"), [Audit] + decs, below, fr, Mem(3));
  }

  /** The count made for a result that is not kept is never given back. */
  lemma DiscardedFails(fuel: nat)
    requires fuel > 1
    ensures Run(Counted(Discarded), fuel) == Failed(BadCount)
  {
    var code, decs := Counted(Discarded), ScopeDecs(true, MainTable);
    EchoCompiles();
    BindsX();
    EchoCall(code, fuel - 1, Outside, MainFrame(1));
    AssignX();
    MainHolds(1);
    ReleaseLeaves(code, fuel - 1, decs, Outside, MainFrame(1));
    PassRuns(code, fuel - 1, [Dec("x")] + ([Audit] + decs), Outside, MainFrame(1), 3);
    PassFails(Discarded, fuel, [Dec("x")] + ([Audit] + decs));
  }

  // ---------- returning from an inner block ----------

  /** int f(ptr p) { ptr q = p; { return 0; } }  void main() { ptr x = new; f(x); } */
  const NestedReturn: Program :=
    map["f" := Func([Param("p", true)], IntResult, [Decl("q", true, Val(V("p")))] + [Block([Return(K(0))])]),
        "main" := Func([], NoResult, [Decl("x", true, New(0))] + [CallStmt("f", [V("x")])])]

  const Copy: Op := Declare("q", true, Val(V("p")))

  ghost function InnerOps(decs: seq<Op>): seq<Op> {
    [Audit] + ([Inc("p", None)] + ([Copy] + ([Audit] + ([Scope(NilOps)] + ([Audit] + decs)))))
  }

  lemma InnerTranslates() returns (decs: seq<Op>)
    ensures TranslateBlock(true, Env([map[]], map["p" := true]), NestedReturn["f"].body) == InnerOps(decs)
  {
    var d, b := Decl("q", true, Val(V("p"))), Block([Return(K(0))]);
    var t: Table := Enter(Env([map[]], map["p" := true]));
    EnterLookup(Env([map[]], map["p" := true]), "p");
    OneScope<bool>("p");
    var t1, first := After(t, d), [Inc("p", None)] + [Copy];
    assert ([d] + [b])[1..] == [b] && ([d] + [b])[0] == d;
    assert Translate(true, t, d) == first;
    decs := ScopeDecs(true, AfterAll(t, [d] + [b]));
    InnerRest(t1);
    assert TranslateAll(true, t, [d] + [b]) == [Audit] + first + ([Audit] + [Scope(NilOps)] + [Audit]);
    InnerRegroup(decs);
  }

  lemma InnerRegroup(decs: seq<Op>)
    ensures [Audit] + ([Inc("p", None)] + [Copy]) + ([Audit] + [Scope(NilOps)] + [Audit]) + decs == InnerOps(decs)
  {}

  lemma InnerRest(t: Table)
    requires t.scopes != []
    ensures TranslateAll(true, t, [Block([Return(K(0))])]) == [Audit] + [Scope(NilOps)] + [Audit]
  {
    InnerBlock(t);
    OneStatement(t, Block([Return(K(0))]));
  }

  lemma InnerBlock(t: Table)
    requires t.scopes != []
    ensures Translate(true, t, Block([Return(K(0))])) == [Scope(NilOps)]
  {
    NilTranslates(t);
  }

  lemma InnerCompiles() returns (decs: seq<Op>)
    ensures "f" in Counted(NestedReturn)
    ensures Counted(NestedReturn)["f"] == Code([Param("p", true)], [Scope(InnerOps(decs))])
  {
    decs := InnerTranslates();
    assert [Param("p", true)][1..] == [];
    assert StartTable(NestedReturn["f"]) == Env([map[]], map["p" := true]);
  }

  lemma InnerRuns(code: map<Name, Code>, fuel: nat, below: seq<Suspended>, decs: seq<Op>)
    ensures var o := Exec(code, fuel, InnerOps(decs), below, CalleeFrame(), Mem(2));
            o == Returned(0, Mem(3)) || o == Stop(BadCount)
  {
    var fr := CalleeFrame();
    var fr1, rest := Add(fr, "q", Cell(true, 1)), [Scope(NilOps)] + ([Audit] + decs);
    InCallee();
    IncStep(fr, 2, "p");
    ReturnsInside(code, fuel, below, fr1, Mem(3), [Audit] + decs);
    ExecConcat(code, fuel, [Copy], [Audit] + rest, below, fr, Mem(3));
    ExecOne(code, fuel, Copy, below, fr, Mem(3));
    ExecConcat(code, fuel, [Inc("p", None)], [Copy] + ([Audit] + rest), below, fr, Mem(2));
    ExecOne(code, fuel, Inc("p", None), below, fr, Mem(2));
    ExecConcat(code, fuel, [Audit], [Inc("p", None)] + ([Copy] + ([Audit] + rest)), below, fr, Mem(2));
    ExecOne(code, fuel, Audit, below, fr, Mem(2));
  }

  lemma ReturnsInside(code: map<Name, Code>, fuel: nat, below: seq<Suspended>, fr: Frame, mem: Memory, rest: seq<Op>)
    ensures var o := Exec(code, fuel, [Audit] + ([Scope(NilOps)] + rest), below, fr, mem);
            o == Returned(0, mem) || o == Stop(BadCount)
  {
    NilRuns(code, fuel, below, Enter(fr), mem);
    ExecOne(code, fuel, Scope(NilOps), below, fr, mem);
    ExecConcat(code, fuel, [Scope(NilOps)], rest, below, fr, mem);
    ExecOne(code, fuel, Audit, below, fr, mem);
    ExecConcat(code, fuel, [Audit], [Scope(NilOps)] + rest, below, fr, mem);
  }

  lemma InnerCall(code: map<Name, Code>, fuel: nat, below: seq<Suspended>, fr: Frame, decs: seq<Op>)
    requires "f" in code && code["f"] == Code([Param("p", true)], [Scope(InnerOps(decs))]) && fuel > 0
    requires Bind(fr, [Param("p", true)], [V("x")]) == Some(map["p" := Cell(true, 1)])
    ensures var r := ExecCall(code, fuel, "f", [V("x")], below, fr, Mem(2), None);
            r == Failed(BadCount) || (r.Got? && r.mem == Mem(3))
  {
    CallRuns(code, fuel, "f", [V("x")], below, fr, Mem(2), None, map["p" := Cell(true, 1)], InnerOps(decs));
    InnerRuns(code, fuel - 1, below + [Suspended(fr, None)], decs);
  }

  /** A return releases the innermost scope only; the pointers of the scopes around it keep
      their counts. */
  lemma NestedReturnFails(fuel: nat)
    requires fuel > 1
    ensures Run(Counted(NestedReturn), fuel) == Failed(BadCount)
  {
    var code, decs := Counted(NestedReturn), ScopeDecs(true, MainTable);
    var inner := InnerCompiles();
    BindsX();
    InnerCall(code, fuel - 1, Outside, MainFrame(1), inner);
    AssignX();
    MainHolds(1);
    ReleaseLeaves(code, fuel - 1, decs, Outside, MainFrame(1));
    PassRuns(code, fuel - 1, [Dec("x")] + ([Audit] + decs), Outside, MainFrame(1), 3);
    PassFails(NestedReturn, fuel, [Dec("x")] + ([Audit] + decs));
  }

  // ---------- the conditions of Exactness at these programs ----------

  lemma RightCount(held: multiset<Addr>, n: nat)
    requires held[1] == n > 0 && forall b :: b != 1 ==> b !in held
    ensures Exact(Mem(n), held)
  {
    var mem := Mem(n);
    forall b ensures CountOk(mem.store.heap, held, mem.store.lost, b) { EdgeInto(mem.store.heap, b); }
  }

  lemma MainReady()
    ensures Ready(MainTable, MainFrame(1), Mem(1), Outside)
  {
    MainHolds(1);
    RightCount(StackBag(Outside) + FrameBag(MainFrame(1)), 1);
    assert LookupScopes(MainTable.scopes, "x") == Some(true);
  }

  /** `ptr f(ptr p)` on its own. */
  function Only(a: Atom): Program { map["f" := Func([Param("p", true)], PointerResult, [Return(a)])] }

  lemma OnlyOk(a: Atom)
    requires a == K(0) || a == V("p")
    ensures ProgramOk(Only(a))
  {
    var f := Only(a)["f"];
    var t := StartTable(f);
    assert [Param("p", true)][1..] == [];
    assert t == Env([map[]], map["p" := true]);
    EnterLookup(t, "p");
    OneScope<bool>("p");
    assert StmtOk(Only(a), Enter(t), Return(a), PointerResult);
    assert FuncOk(Only(a), f);
  }

  lemma PassesX(a: Atom)
    ensures CallOk(Only(a), MainTable, "f", [V("x")])
  {
    assert LookupScopes(MainTable.scopes, "x") == Some(true);
  }

  /** In `SelfCall`, `x` is passed and does not get the value it had. */
  lemma SelfCallCondition(fuel: nat)
    requires fuel > 0
    ensures Includes(Counted(SelfCall), Only(K(0)))
    ensures var o := Exec(Counted(SelfCall), fuel, Translate(true, MainTable, Assign("x", Call("f", [V("x")]))),
                          Outside, MainFrame(1), Mem(1));
            !GoesOn(o, MainFrame(0), StackBag(Outside) + FrameBag(MainFrame(0)))
  {
    var code, fr, rhs := Counted(SelfCall), MainFrame(1), Call("f", [V("x")]);
    OnlyOk(K(0));
    forall fn ensures IncludesAt(code, Only(K(0)), fn) {}
    MainReady();
    PassesX(K(0));
    NilCompiles();
    BindsX();
    AssignX();
    ReturnsNil(code, fuel, Outside, fr, AssignMem(code, fuel, MainTable, "x", rhs, Outside, fr, Mem(1)),
               map["p" := Cell(true, 1)]);
    Exactness.AssignCallExactIff(code, Only(K(0)), fuel, MainTable, "x", "f", [V("x")], Outside, fr, Mem(1));
  }

  lemma CountsX(code: map<Name, Code>, fuel: nat)
    ensures Exec(code, fuel, IncArgs(true, MainTable, [V("x")]), Outside, MainFrame(1), Mem(1))
         == Normal(MainFrame(1), Mem(2))
  {
    AssignX();
    assert [V("x")][1..] == [];
    assert IncArgs(true, MainTable, [V("x")]) == [Inc("x", None)];
    IncStep(MainFrame(1), 1, "x");
    ExecOne(code, fuel, Inc("x", None), Outside, MainFrame(1), Mem(1));
  }

  /** In `Discarded`, the result is a pointer, and not NIL. */
  lemma DiscardedCondition(fuel: nat)
    requires fuel > 0
    ensures Includes(Counted(Discarded), Only(V("p")))
    ensures var o := Exec(Counted(Discarded), fuel, Translate(true, MainTable, CallStmt("f", [V("x")])),
                          Outside, MainFrame(1), Mem(1));
            !GoesOn(o, MainFrame(1), StackBag(Outside) + FrameBag(MainFrame(1)))
  {
    var code, fr := Counted(Discarded), MainFrame(1);
    OnlyOk(V("p"));
    forall fn ensures IncludesAt(code, Only(V("p")), fn) {}
    MainReady();
    PassesX(V("p"));
    EchoCompiles();
    BindsX();
    AssignX();
    CountsX(code, fuel);
    EchoCall(code, fuel, Outside, fr);
    Exactness.CallStmtExactIff(code, Only(V("p")), fuel, MainTable, "f", [V("x")], Outside, fr, Mem(1));
  }

  /** In `f` of `AssignedParameter`, called from `main`. */
  const CalleeTable: Table := Env([map[], map[]], map["p" := true])

  const InMain: seq<Suspended> := Outside + [Suspended(MainFrame(1), None)]

  lemma CalleeReady()
    ensures Ready(CalleeTable, CalleeFrame(), Mem(2), InMain) && Lookup(CalleeTable, "p") == Some(true)
  {
    MainHolds(1);
    PushBag(Outside, Suspended(MainFrame(1), None));
    EmptyBelow(CalleeFrame());
    OneHeld("p", Cell(true, 1));
    RightCount(StackBag(InMain) + FrameBag(CalleeFrame()), 2);
    NoNames<bool>("p");
  }

  lemma EmptyBelow(fr: Frame)
    requires fr.scopes == [map[], map[]]
    ensures FrameBag(fr) == ScopeBag(fr.params)
  {
    ExitBag(fr);
    assert Exit(fr).scopes == [map[]];
    EmptyFrame(Exit(fr));
  }

  lemma ClearsP(code: map<Name, Code>, fuel: nat)
    ensures Exec(code, fuel, Translate(true, CalleeTable, Assign("p", Val(K(0)))), InMain, CalleeFrame(), Mem(2))
         == Normal(Env([map[], map[]], map["p" := Cell(true, 0)]), Mem(1))
  {
    var fr, set0 := CalleeFrame(), Set("p", Val(K(0)));
    NoNames<bool>("p");
    InCallee();
    DecStep(fr, 2, "p");
    assert Translate(true, CalleeTable, Assign("p", Val(K(0)))) == [Dec("p")] + [set0];
    ExecConcat(code, fuel, [Dec("p")], [set0], InMain, fr, Mem(2));
    ExecOne(code, fuel, Dec("p"), InMain, fr, Mem(2));
    ExecOne(code, fuel, set0, InMain, fr, Mem(1));
    assert map["p" := Cell(true, 1)]["p" := Cell(true, 0)] == map["p" := Cell(true, 0)];
  }

  /** In `AssignedParameter`, the assignment is counted rightly. But then the parameter does not
      hold the block that the caller has counted for it, when the body ends. */
  lemma AssignedParameterCondition(fuel: nat)
    ensures var code := Counted(AssignedParameter);
            var o := Exec(code, fuel, Translate(true, CalleeTable, Assign("p", Val(K(0)))), InMain, CalleeFrame(),
                          Mem(2));
            && Includes(code, map[]) && o.Normal? && Exact(o.mem, StackBag(InMain) + FrameBag(o.frame))
            && !GoesOn(Exec(code, fuel, ScopeDecs(true, CalleeTable), InMain, o.frame, o.mem), o.frame,
                       StackBag(InMain) + ScopeBag(CalleeFrame().params))
  {
    var code, fr := Counted(AssignedParameter), Env([map[], map[]], map["p" := Cell(true, 0)]);
    ClearsP(code, fuel);
    CalleeReady();
    AssignSettles(code, map[], fuel, CalleeTable, "p", Val(K(0)), InMain, CalleeFrame(), Mem(2));
    OneHeld("p", Cell(true, 0));
    OneHeld("p", Cell(true, 1));
    Exactness.BodyEndExactIff(code, fuel, CalleeTable, InMain, fr, Mem(1), ScopeBag(CalleeFrame().params));
  }
}
