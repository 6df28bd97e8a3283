/** The statements of a JBLang function and the C statements emitted for them, with
    the reference-count calls the transpiler inserts (visitVarDecl, visitAssignExpr,
    visitFunctionCall, visitBlock and visitReturnStmt in src/ast/TranspilerVisitor.cpp).

    The fragment has pointer and integer variables. A `true` in a symbol table or a
    declaration stands for a pointer type. */
module Source {
  import opened Scopes

  /** An operand: a variable, or a constant. NIL is the constant 0. */
  datatype Atom = V(name: Name) | K(n: nat)

  datatype Rhs = Val(atom: Atom) | New(bytes: nat) | Call(fn: Name, args: seq<Atom>)

  datatype Stmt =
    | Decl(x: Name, pointer: bool, rhs: Rhs)
    | Assign(x: Name, rhs: Rhs)
    | Store(v: Name, field: Name, atom: Atom)
    | CallStmt(fn: Name, args: seq<Atom>)
    | Block(body: seq<Stmt>)
    | If(c: Name, thn: Stmt, els: Option<Stmt>)
    | While(c: Name, loop: Stmt)
    | Return(atom: Atom)

  datatype Param = Param(name: Name, pointer: bool)

  datatype Result = NoResult | IntResult | PointerResult

  datatype Func = Func(params: seq<Param>, result: Result, body: seq<Stmt>)

  type Program = map<Name, Func>

  type Table = Env<bool>

  /** The symbol table after a statement. A block leaves it as it was; a declaration
      adds to the current scope, even as the branch of an `if` or `while`, because
      branches that are not blocks have no scope of their own. */
  function After(t: Table, s: Stmt): (r: Table)
    requires t.scopes != []
    ensures |r.scopes| == |t.scopes| && r.scopes[..|t.scopes|-1] == t.scopes[..|t.scopes|-1]
    ensures r.params == t.params
    decreases s
  {
    match s
    case Decl(x, pointer, _) => Add(t, x, pointer)
    case If(_, thn, els) => if els.Some? then After(After(t, thn), els.value) else After(t, thn)
    case While(_, loop) => After(t, loop)
    case _ => t
  }

  function AfterAll(t: Table, ss: seq<Stmt>): (r: Table)
    requires t.scopes != []
    ensures |r.scopes| == |t.scopes| && r.scopes[..|t.scopes|-1] == t.scopes[..|t.scopes|-1]
    ensures r.params == t.params
    decreases |ss|
  {
    if ss == [] then t else AfterAll(After(t, ss[0]), ss[1..])
  }

  /** A block's own scope is all that its statements add to. */
  lemma BlockTable(t: Table, body: seq<Stmt>)
    ensures Exit(AfterAll(Enter(t), body)) == t
  {
    var r := AfterAll(Enter(t), body);
    assert Enter(t).scopes[..|t.scopes|] == t.scopes;
    assert r.scopes[..|r.scopes|-1] == t.scopes;
  }

  /** In a well-formed program only declarations change the table. */
  lemma {:induction false} OnlyDeclsAdd(p: Program, t: Table, s: Stmt, result: Result)
    requires t.scopes != [] && BranchOk(p, t, s, result)
    ensures After(t, s) == t
    decreases s
  {
    match s
    case If(_, thn, els) =>
      OnlyDeclsAdd(p, t, thn, result);
      if els.Some? { OnlyDeclsAdd(p, t, els.value, result); }
    case While(_, loop) => OnlyDeclsAdd(p, t, loop, result);
    case _ =>
  }

  // ---------- well-formed programs ----------

  predicate AtomOk(t: Table, a: Atom, pointer: bool) {
    match a
    case V(y) => Lookup(t, y) == Some(pointer)
    case K(n) => pointer ==> n == 0
  }

  predicate CallOk(p: Program, t: Table, fn: Name, args: seq<Atom>) {
    && fn in p && |args| == |p[fn].params|
    && forall i :: 0 <= i < |args| ==> AtomOk(t, args[i], p[fn].params[i].pointer)
  }

  predicate RhsOk(p: Program, t: Table, rhs: Rhs, pointer: bool) {
    match rhs
    case Val(a) => AtomOk(t, a, pointer)
    case New(_) => pointer
    case Call(fn, args) => CallOk(p, t, fn, args) && p[fn].result == (if pointer then PointerResult else IntResult)
  }

  predicate Mentions(rhs: Rhs, x: Name) {
    match rhs
    case Val(a) => a == V(x)
    case New(_) => false
    case Call(_, args) => V(x) in args
  }

  /** No enclosing scope declares a pointer. */
  predicate NoOuterPointers(t: Table) {
    forall i, x :: 0 <= i < |t.scopes| - 1 && x in t.scopes[i] ==> !t.scopes[i][x]
  }

  /** What C asks of the source (names declared, once per scope, types agreeing) and
      what the inserted counts rely on: pointers are initialised, parameters are not
      assigned, a call does not pass the variable its result is assigned to, the result
      of a call statement is not a pointer, and around a `return` only the innermost scope
      declares pointers. `result` is what the function returns. */
  predicate StmtOk(p: Program, t: Table, s: Stmt, result: Result)
    requires t.scopes != []
    decreases s, 0
  {
    match s
    case Decl(x, pointer, rhs) => x !in Top(t) && !Mentions(rhs, x) && RhsOk(p, t, rhs, pointer)
    case Assign(x, rhs) =>
      && LookupScopes(t.scopes, x).Some?
      && RhsOk(p, t, rhs, LookupScopes(t.scopes, x).value)
      && (rhs.Call? ==> !Mentions(rhs, x))
    case Store(v, _, a) => Lookup(t, v) == Some(true) && (AtomOk(t, a, true) || AtomOk(t, a, false))
    case CallStmt(fn, args) => CallOk(p, t, fn, args) && p[fn].result != PointerResult
    case Block(body) => StmtsOk(p, Enter(t), body, result)
    case If(c, thn, els) =>
      && Lookup(t, c).Some?
      && BranchOk(p, t, thn, result)
      && (els.Some? ==> BranchOk(p, t, els.value, result))
    case While(c, loop) => Lookup(t, c).Some? && BranchOk(p, t, loop, result)
    case Return(a) => result != NoResult && AtomOk(t, a, result == PointerResult) && NoOuterPointers(t)
  }

  predicate BranchOk(p: Program, t: Table, s: Stmt, result: Result)
    requires t.scopes != []
    decreases s, 1
  {
    !s.Decl? && StmtOk(p, t, s, result)
  }

  predicate StmtsOk(p: Program, t: Table, ss: seq<Stmt>, result: Result)
    requires t.scopes != []
    decreases ss
  {
    ss == [] || (StmtOk(p, t, ss[0], result) && StmtsOk(p, After(t, ss[0]), ss[1..], result))
  }

  /** A function body: statements, the last one a `return` if there is a result. */
  predicate BodyOk(p: Program, t: Table, ss: seq<Stmt>, result: Result)
    requires t.scopes != []
    decreases |ss|
  {
    if ss == [] then result == NoResult
    else StmtOk(p, t, ss[0], result) && ((|ss| == 1 && ss[0].Return?) || BodyOk(p, After(t, ss[0]), ss[1..], result))
  }

  /** As in lookupSymbol, the first parameter of a name counts. */
  function ParamTable(ps: seq<Param>): map<Name, bool> {
    if ps == [] then map[] else ParamTable(ps[1..])[ps[0].name := ps[0].pointer]
  }

  ghost predicate DistinctParams(ps: seq<Param>) {
    forall i, j :: 0 <= i < j < |ps| ==> ps[i].name != ps[j].name
  }

  /** The table a function is translated in: an empty global scope, and its parameters. */
  function StartTable(f: Func): Table { Env([map[]], ParamTable(f.params)) }

  ghost predicate FuncOk(p: Program, f: Func) {
    DistinctParams(f.params) && BodyOk(p, Enter(StartTable(f)), f.body, f.result)
  }

  ghost predicate ProgramOk(p: Program) {
    forall fn :: Declared(p, fn)
  }

  ghost predicate Declared(p: Program, fn: Name) { fn in p ==> FuncOk(p, p[fn]) }
}

module Emit {
  import opened Scopes
  import opened Source

  /** Emitted C statements. `Audit` prints nothing: it marks a boundary between source
      statements, where the machine of `Machine` checks every count. */
  datatype Op =
    | Inc(x: Name, other: Option<Name>)
    | Dec(x: Name)
    | Declare(x: Name, pointer: bool, rhs: Rhs)
    | Set(x: Name, rhs: Rhs)
    | SetField(v: Name, field: Name, atom: Atom)
    | Invoke(fn: Name, args: seq<Atom>)
    | Scope(body: seq<Op>)
    | Branch(c: Name, thn: seq<Op>, els: seq<Op>)
    | Loop(c: Name, loop: seq<Op>)
    | Ret(atom: Atom)
    | Audit

  predicate IsPointerVar(t: Table, a: Atom) { a.V? && Lookup(t, a.name) == Some(true) }

  /** generateIncRef for an operand that names a pointer variable; nothing otherwise. */
  function IncAtom(rc: bool, t: Table, a: Atom, other: Option<Name>): seq<Op> {
    if rc && IsPointerVar(t, a) then [Inc(a.name, other)] else []
  }

  function DecAtom(rc: bool, t: Table, a: Atom): seq<Op> {
    if rc && IsPointerVar(t, a) then [Dec(a.name)] else []
  }

  /** The increment of a store to a field of `v`: only if `v` is a pointer variable too. */
  function IncStored(rc: bool, t: Table, v: Name, a: Atom): seq<Op> {
    if IsPointerVar(t, V(v)) then IncAtom(rc, t, a, Some(v)) else []
  }

  /** visitFunctionCall: count each pointer argument up before the call, down after it. */
  function IncArgs(rc: bool, t: Table, args: seq<Atom>): seq<Op> {
    if args == [] then [] else IncAtom(rc, t, args[0], None) + IncArgs(rc, t, args[1..])
  }

  function DecArgs(rc: bool, t: Table, args: seq<Atom>): seq<Op> {
    if args == [] then [] else DecAtom(rc, t, args[0]) + DecArgs(rc, t, args[1..])
  }

  /** What is emitted before and after a statement that evaluates `rhs`. */
  function Before(rc: bool, t: Table, rhs: Rhs): seq<Op> {
    match rhs
    case Val(a) => IncAtom(rc, t, a, None)
    case New(_) => []
    case Call(_, args) => IncArgs(rc, t, args)
  }

  function Behind(rc: bool, t: Table, rhs: Rhs): seq<Op> {
    if rhs.Call? then DecArgs(rc, t, rhs.args) else []
  }

  function PointerNames(scope: map<Name, bool>): set<Name> { set x | x in scope && scope[x] }

  function Decs(xs: seq<Name>): seq<Op> {
    if xs == [] then [] else [Dec(xs[0])] + Decs(xs[1..])
  }

  /** The releases at the end of a scope, in the order of std::map. */
  ghost function ScopeDecs(rc: bool, t: Table): seq<Op> {
    if rc then Decs(InOrder(PointerNames(Top(t)))) else []
  }

  lemma {:induction false} DecsAt(xs: seq<Name>)
    ensures |Decs(xs)| == |xs| && forall i :: 0 <= i < |xs| ==> Decs(xs)[i] == Dec(xs[i])
    decreases |xs|
  {
    if xs != [] { DecsAt(xs[1..]); }
  }

  /** A scope ends with the release of each of its pointers, once, in ascending order. */
  lemma ScopeDecsSorted(t: Table)
    ensures forall x :: Dec(x) in ScopeDecs(true, t) <==> x in Top(t) && Top(t)[x]
    ensures var ds := ScopeDecs(true, t);
            forall i, j :: 0 <= i < j < |ds| ==> ds[i].Dec? && ds[j].Dec? && NameLe(ds[i].x, ds[j].x) && ds[i] != ds[j]
  {
    var xs := InOrder(PointerNames(Top(t)));
    DecsAt(xs);
    forall x ensures Dec(x) in Decs(xs) <==> x in xs {
      if x in xs {
        var i :| 0 <= i < |xs| && xs[i] == x;
        assert Decs(xs)[i] == Dec(x);
      }
    }
    forall i, j | 0 <= i < j < |xs| ensures NameLe(xs[i], xs[j]) && xs[i] != xs[j] {
      InOrderSorted(PointerNames(Top(t)), i, j);
    }
  }

  function Mark(rc: bool): seq<Op> { if rc then [Audit] else [] }

  ghost function Translate(rc: bool, t: Table, s: Stmt): seq<Op>
    requires t.scopes != []
    decreases s, 0
  {
    match s
    case Decl(x, pointer, rhs) => Before(rc, t, rhs) + [Declare(x, pointer, rhs)] + Behind(rc, t, rhs)
    case Assign(x, rhs) => Before(rc, t, rhs) + DecAtom(rc, t, V(x)) + [Set(x, rhs)] + Behind(rc, t, rhs)
    case Store(v, f, a) => IncStored(rc, t, v, a) + [SetField(v, f, a)]
    case CallStmt(fn, args) => IncArgs(rc, t, args) + [Invoke(fn, args)] + DecArgs(rc, t, args)
    case Block(body) => [Scope(TranslateBlock(rc, t, body))]
    case If(c, thn, els) =>
      [Branch(c, Translate(rc, t, thn), if els.Some? then Translate(rc, After(t, thn), els.value) else [])]
    case While(c, loop) => [Loop(c, Translate(rc, t, loop))]
    case Return(a) => IncAtom(rc, t, a, None) + ScopeDecs(rc, t) + [Ret(a)]
  }

  /** visitBlock: the statements in a scope of their own, then the releases of its pointers. */
  ghost function TranslateBlock(rc: bool, t: Table, body: seq<Stmt>): seq<Op>
    decreases body, 1
  {
    TranslateAll(rc, Enter(t), body) + ScopeDecs(rc, AfterAll(Enter(t), body))
  }

  ghost function TranslateAll(rc: bool, t: Table, ss: seq<Stmt>): seq<Op>
    requires t.scopes != []
    decreases ss, 0
  {
    if ss == [] then Mark(rc)
    else Mark(rc) + Translate(rc, t, ss[0]) + TranslateAll(rc, After(t, ss[0]), ss[1..])
  }

  /** A compiled function, and a compiled program. */
  datatype Code = Code(params: seq<Param>, body: seq<Op>)

  ghost function Compile(rc: bool, f: Func): Code {
    Code(f.params, [Scope(TranslateBlock(rc, StartTable(f), f.body))])
  }

  ghost function CompileAll(rc: bool, p: Program): map<Name, Code> {
    map fn | fn in p :: Compile(rc, p[fn])
  }
}

