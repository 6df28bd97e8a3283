/** The symbol table and the count-inserting visitor as the transpiler has them: scopes
    pushed, popped and written in place, and output appended line by line. */
module SymbolTables {
  import opened Scopes
  import opened Source

  class SymbolTable {
    var scopes: seq<map<Name, bool>>
    var currentParams: seq<Param>

    ghost function Table(): Env<bool>
      reads this
    {
      Env(scopes, ParamTable(currentParams))
    }

    constructor ()
      ensures Table() == Env([map[]], map[]) && currentParams == []
    {
      scopes := [map[]];
      currentParams := [];
    }

    method EnterScope()
      modifies this`scopes
      ensures Table() == Enter(old(Table()))
    {
      scopes := scopes + [map[]];
    }

    method ExitScope()
      modifies this`scopes
      ensures Table() == Exit(old(Table()))
    {
      if scopes != [] { scopes := scopes[..|scopes|-1]; }
    }

    /** Fails, where the C++ code throws, when there is no scope. */
    method AddSymbol(x: Name, pointer: bool) returns (ok: bool)
      modifies this`scopes
      ensures ok <==> old(scopes) != []
      ensures Table() == if ok then Add(old(Table()), x, pointer) else old(Table())
    {
      if scopes == [] { return false; }
      var n := |scopes| - 1;
      scopes := scopes[n := scopes[n][x := pointer]];
      assert scopes == old(scopes)[..n] + [old(scopes)[n][x := pointer]];
      ok := true;
    }

    method LookupSymbol(x: Name) returns (r: Option<bool>)
      ensures r == Lookup(Table(), x)
    {
      var i := |scopes|;
      assert scopes[..i] == scopes;
      while i > 0
        invariant 0 <= i <= |scopes|
        invariant LookupScopes(scopes, x) == LookupScopes(scopes[..i], x)
      {
        i := i - 1;
        assert scopes[..i+1][..i] == scopes[..i];
        if x in scopes[i] { return Some(scopes[i][x]); }
      }
      var j := 0;
      assert currentParams[0..] == currentParams;
      while j < |currentParams|
        invariant 0 <= j <= |currentParams|
        invariant x in ParamTable(currentParams) <==> x in ParamTable(currentParams[j..])
        invariant x in ParamTable(currentParams) ==> ParamTable(currentParams)[x] == ParamTable(currentParams[j..])[x]
      {
        assert currentParams[j..][1..] == currentParams[j+1..];
        if currentParams[j].name == x { return Some(currentParams[j].pointer); }
        j := j + 1;
      }
      r := None;
    }

    method CurrentScopeSymbols() returns (r: map<Name, bool>)
      ensures r == Top(Table())
    {
      if scopes == [] { r := map[]; } else { r := scopes[|scopes|-1]; }
    }
  }
}

module Visitors {
  import opened Scopes
  import opened Source
  import opened Emit
  import opened SymbolTables

  /** A line of emitted C: a simple statement, or the opening or closing of a block. */
  datatype Line = Text(op: Op) | Open | IfOpen(c: Name) | ElseOpen | WhileOpen(c: Name) | Close

  /** How emitted statements are laid out as lines. Audit marks leave no trace. */
  function Lines(ops: seq<Op>): seq<Line>
    decreases ops
  {
    if ops == [] then [] else LinesOf(ops[0]) + Lines(ops[1..])
  }

  function LinesOf(op: Op): seq<Line>
    decreases op
  {
    match op
    case Audit => []
    case Scope(body) => [Open] + Lines(body) + [Close]
    case Branch(c, thn, els) =>
      [IfOpen(c)] + Lines(thn) + [Close] + if els == [] then [] else [ElseOpen] + Lines(els) + [Close]
    case Loop(c, loop) => [WhileOpen(c)] + Lines(loop) + [Close]
    case _ => [Text(op)]
  }

  lemma {:induction false} LinesConcat(a: seq<Op>, b: seq<Op>)
    ensures Lines(a + b) == Lines(a) + Lines(b)
    decreases |a|
  {
    if a == [] {
      assert a + b == b;
    } else {
      assert (a + b)[1..] == a[1..] + b;
      LinesConcat(a[1..], b);
    }
  }

  lemma LinesAssoc(a: seq<Line>, b: seq<Line>, c: seq<Line>)
    ensures (a + b) + c == a + (b + c)
  {
  }

  lemma LinesOne(op: Op)
    ensures Lines([op]) == LinesOf(op)
  {
    assert [op][1..] == [] && Lines([]) == [];
  }

  lemma IncArgsNext(rc: bool, t: Table, args: seq<Atom>, i: nat, out: seq<Line>)
    requires i < |args|
    ensures out + Lines(IncArgs(rc, t, args[i..]))
         == (out + Lines(IncAtom(rc, t, args[i], None))) + Lines(IncArgs(rc, t, args[i+1..]))
  {
    assert args[i..][1..] == args[i+1..];
    LinesConcat(IncAtom(rc, t, args[i], None), IncArgs(rc, t, args[i+1..]));
    LinesAssoc(out, Lines(IncAtom(rc, t, args[i], None)), Lines(IncArgs(rc, t, args[i+1..])));
  }

  lemma DecArgsNext(rc: bool, t: Table, args: seq<Atom>, i: nat, out: seq<Line>)
    requires i < |args|
    ensures out + Lines(DecArgs(rc, t, args[i..]))
         == (out + Lines(DecAtom(rc, t, args[i]))) + Lines(DecArgs(rc, t, args[i+1..]))
  {
    assert args[i..][1..] == args[i+1..];
    LinesConcat(DecAtom(rc, t, args[i]), DecArgs(rc, t, args[i+1..]));
    LinesAssoc(out, Lines(DecAtom(rc, t, args[i])), Lines(DecArgs(rc, t, args[i+1..])));
  }

  /** The lines of a block: its statements, then the releases of its scope. */
  lemma LinesOfBlock(rc: bool, t: Table, body: seq<Stmt>, out: seq<Line>)
    ensures out + [Open] + Lines(TranslateAll(rc, Enter(t), body)) + Lines(ScopeDecs(rc, AfterAll(Enter(t), body)))
         == out + [Open] + Lines(TranslateBlock(rc, t, body))
  {
    var stmts, decs := TranslateAll(rc, Enter(t), body), ScopeDecs(rc, AfterAll(Enter(t), body));
    LinesConcat(stmts, decs);
    LinesAssoc(out + [Open], Lines(stmts), Lines(decs));
  }

  class Visitor {
    const useRefCounts: bool
    const symbols: SymbolTable
    var output: seq<Line>

    constructor (useRefCounts: bool)
      ensures this.useRefCounts == useRefCounts && output == []
      ensures fresh(symbols) && symbols.Table() == Env([map[]], map[])
    {
      this.useRefCounts := useRefCounts;
      symbols := new SymbolTable();
      output := [];
    }

    /** generateIncRef for an operand, after looking it up. */
    method IncOperand(a: Atom, other: Option<Name>)
      modifies this`output
      ensures output == old(output) + Lines(IncAtom(useRefCounts, symbols.Table(), a, other))
    {
      if a.V? {
        var found := symbols.LookupSymbol(a.name);
        if found == Some(true) && useRefCounts {
          LinesOne(Inc(a.name, other));
          output := output + [Text(Inc(a.name, other))];
        }
      }
    }

    method DecOperand(a: Atom)
      modifies this`output
      ensures output == old(output) + Lines(DecAtom(useRefCounts, symbols.Table(), a))
    {
      if a.V? {
        var found := symbols.LookupSymbol(a.name);
        if found == Some(true) && useRefCounts {
          LinesOne(Dec(a.name));
          output := output + [Text(Dec(a.name))];
        }
      }
    }

    /** The two loops of visitFunctionCall over the arguments. */
    method IncArguments(args: seq<Atom>)
      modifies this`output
      ensures output == old(output) + Lines(IncArgs(useRefCounts, symbols.Table(), args))
    {
      var i := 0;
      ghost var t := symbols.Table();
      assert args[0..] == args;
      while i < |args|
        invariant 0 <= i <= |args|
        invariant output + Lines(IncArgs(useRefCounts, t, args[i..]))
                == old(output) + Lines(IncArgs(useRefCounts, t, args))
      {
        IncArgsNext(useRefCounts, t, args, i, output);
        IncOperand(args[i], None);
        i := i + 1;
      }
    }

    method DecArguments(args: seq<Atom>)
      modifies this`output
      ensures output == old(output) + Lines(DecArgs(useRefCounts, symbols.Table(), args))
    {
      var i := 0;
      ghost var t := symbols.Table();
      assert args[0..] == args;
      while i < |args|
        invariant 0 <= i <= |args|
        invariant output + Lines(DecArgs(useRefCounts, t, args[i..]))
                == old(output) + Lines(DecArgs(useRefCounts, t, args))
      {
        DecArgsNext(useRefCounts, t, args, i, output);
        DecOperand(args[i]);
        i := i + 1;
      }
    }

    /** Visiting an initializer or right-hand side emits what has to precede the statement. */
    method VisitRhs(rhs: Rhs)
      modifies this`output
      ensures output == old(output) + Lines(Before(useRefCounts, symbols.Table(), rhs))
    {
      match rhs
      case Val(a) => IncOperand(a, None);
      case New(_) =>
      case Call(_, args) => IncArguments(args);
    }

    /** The releases that the text of a call carries behind it. */
    method FinishRhs(rhs: Rhs)
      modifies this`output
      ensures output == old(output) + Lines(Behind(useRefCounts, symbols.Table(), rhs))
    {
      if rhs.Call? { DecArguments(rhs.args); }
    }

    method Put(op: Op)
      requires LinesOf(op) == [Text(op)]
      modifies this`output
      ensures output == old(output) + Lines([op])
    {
      LinesOne(op);
      output := output + [Text(op)];
    }

    /** The loop over the symbols of the current scope, in name order. */
    method ReleaseScope()
      modifies this`output
      ensures output == old(output) + Lines(ScopeDecs(useRefCounts, symbols.Table()))
    {
      var scope := symbols.CurrentScopeSymbols();
      if useRefCounts {
        var rest := PointerNames(scope);
        ghost var all := ReleaseLines(rest);
        while rest != {}
          invariant output + ReleaseLines(rest) == old(output) + all
          decreases |rest|
        {
          var x := Smallest(rest);
          ReleaseStep(rest, x);
          LinesAssoc(output, [Text(Dec(x))], ReleaseLines(rest - {x}));
          output := output + [Text(Dec(x))];
          rest := rest - {x};
        }
        ReleaseNone();
      }
    }

    /** visitVarDecl. The name is added to the table after its initializer is looked up. */
    method VisitVarDecl(x: Name, pointer: bool, rhs: Rhs)
      requires symbols.scopes != []
      modifies this`output, symbols`scopes
      ensures output == old(output) + Lines(Translate(useRefCounts, old(symbols.Table()), Decl(x, pointer, rhs)))
      ensures symbols.Table() == After(old(symbols.Table()), Decl(x, pointer, rhs))
    {
      ghost var t := symbols.Table();
      Lines3(output, Before(useRefCounts, t, rhs), [Declare(x, pointer, rhs)], Behind(useRefCounts, t, rhs));
      VisitRhs(rhs);
      Put(Declare(x, pointer, rhs));
      FinishRhs(rhs);
      var ok := symbols.AddSymbol(x, pointer);
    }

    /** visitAssignExpr with a variable on the left. */
    method VisitAssign(x: Name, rhs: Rhs)
      requires symbols.scopes != []
      modifies this`output
      ensures output == old(output) + Lines(Translate(useRefCounts, symbols.Table(), Assign(x, rhs)))
    {
      ghost var t := symbols.Table();
      Lines4(output, Before(useRefCounts, t, rhs), DecAtom(useRefCounts, t, V(x)), [Set(x, rhs)],
             Behind(useRefCounts, t, rhs));
      VisitRhs(rhs);
      DecOperand(V(x));
      Put(Set(x, rhs));
      FinishRhs(rhs);
    }

    /** visitAssignExpr with `v->field` on the left. */
    method VisitStore(v: Name, field: Name, a: Atom)
      requires symbols.scopes != []
      modifies this`output
      ensures output == old(output) + Lines(Translate(useRefCounts, symbols.Table(), Store(v, field, a)))
    {
      LinesConcat(IncStored(useRefCounts, symbols.Table(), v, a), [SetField(v, field, a)]);
      var base := symbols.LookupSymbol(v);
      if base == Some(true) { IncOperand(a, Some(v)); }
      Put(SetField(v, field, a));
    }

    /** visitFunctionCall as a statement. */
    method VisitCall(fn: Name, args: seq<Atom>)
      requires symbols.scopes != []
      modifies this`output
      ensures output == old(output) + Lines(Translate(useRefCounts, symbols.Table(), CallStmt(fn, args)))
    {
      ghost var t := symbols.Table();
      Lines3(output, IncArgs(useRefCounts, t, args), [Invoke(fn, args)], DecArgs(useRefCounts, t, args));
      IncArguments(args);
      Put(Invoke(fn, args));
      DecArguments(args);
    }

    /** visitReturnStmt: count the result, release the scope, return. */
    method VisitReturn(a: Atom)
      requires symbols.scopes != []
      modifies this`output
      ensures output == old(output) + Lines(Translate(useRefCounts, symbols.Table(), Return(a)))
    {
      ghost var t := symbols.Table();
      Lines3(output, IncAtom(useRefCounts, t, a, None), ScopeDecs(useRefCounts, t), [Ret(a)]);
      IncOperand(a, None);
      ReleaseScope();
      Put(Ret(a));
    }

    /** visitBlock. */
    method VisitBlock(body: seq<Stmt>)
      requires symbols.scopes != []
      modifies this`output, symbols`scopes
      ensures output == old(output) + [Open] + Lines(TranslateBlock(useRefCounts, old(symbols.Table()), body)) + [Close]
      ensures symbols.Table() == old(symbols.Table())
      decreases body, 1
    {
      ghost var t := symbols.Table();
      LinesOfBlock(useRefCounts, t, body, output);
      BlockTable(t, body);
      symbols.EnterScope();
      output := output + [Open];
      VisitAll(body);
      ReleaseScope();
      symbols.ExitScope();
      output := output + [Close];
    }

    method VisitAll(ss: seq<Stmt>)
      requires symbols.scopes != []
      modifies this`output, symbols`scopes
      ensures output == old(output) + Lines(TranslateAll(useRefCounts, old(symbols.Table()), ss))
      ensures symbols.Table() == AfterAll(old(symbols.Table()), ss)
      decreases ss, 0
    {
      ghost var t := symbols.Table();
      AllLines(useRefCounts, t, ss);
      if ss != [] {
        LinesAssoc(output, Lines(Translate(useRefCounts, t, ss[0])),
                   Lines(TranslateAll(useRefCounts, After(t, ss[0]), ss[1..])));
        VisitStatement(ss[0]);
        VisitAll(ss[1..]);
      }
    }

    method VisitStatement(s: Stmt)
      requires symbols.scopes != []
      modifies this`output, symbols`scopes
      ensures output == old(output) + Lines(Translate(useRefCounts, old(symbols.Table()), s))
      ensures symbols.Table() == After(old(symbols.Table()), s)
      decreases s, 1
    {
      ghost var t := symbols.Table();
      match s
      case Decl(x, pointer, rhs) => VisitVarDecl(x, pointer, rhs);
      case Assign(x, rhs) => VisitAssign(x, rhs);
      case Store(v, f, a) => VisitStore(v, f, a);
      case CallStmt(fn, args) => VisitCall(fn, args);
      case Block(body) =>
        LinesOne(Scope(TranslateBlock(useRefCounts, t, body)));
        LinesBlock(output, Open, Lines(TranslateBlock(useRefCounts, t, body)));
        VisitBlock(body);
      case If(c, thn, els) => VisitIf(c, thn, els);
      case While(c, loop) => VisitWhile(c, loop);
      case Return(a) => VisitReturn(a);
    }

    /** visitWhileStmt. */
    method VisitWhile(c: Name, loop: Stmt)
      requires symbols.scopes != []
      modifies this`output, symbols`scopes
      ensures output == old(output) + Lines(Translate(useRefCounts, old(symbols.Table()), While(c, loop)))
      ensures symbols.Table() == After(old(symbols.Table()), loop)
      decreases loop, 3
    {
      ghost var out, t := output, symbols.Table();
      VisitBranch(WhileOpen(c), loop);
      WhileLines(useRefCounts, t, c, loop, out);
    }

    /** visitIfStmt. */
    method VisitIf(c: Name, thn: Stmt, els: Option<Stmt>)
      requires symbols.scopes != []
      modifies this`output, symbols`scopes
      ensures output == old(output) + Lines(Translate(useRefCounts, old(symbols.Table()), If(c, thn, els)))
      ensures symbols.Table() == After(old(symbols.Table()), If(c, thn, els))
      decreases If(c, thn, els), 0
    {
      IfLines(output, useRefCounts, symbols.Table(), c, thn, els);
      VisitBranch(IfOpen(c), thn);
      if els.Some? { VisitBranch(ElseOpen, els.value); }
    }

    /** A branch between the braces that visitIfStmt and visitWhileStmt write. */
    method VisitBranch(opening: Line, s: Stmt)
      requires symbols.scopes != []
      modifies this`output, symbols`scopes
      ensures output == old(output) + [opening] + Lines(Translate(useRefCounts, old(symbols.Table()), s)) + [Close]
      ensures symbols.Table() == After(old(symbols.Table()), s)
      decreases s, 2
    {
      output := output + [opening];
      VisitStatement(s);
      output := output + [Close];
    }

    /** visitFunctionDecl in the second pass: the body of a function, in a table that has
        only the global scope. */
    method VisitFunction(f: Func)
      requires symbols.scopes == [map[]]
      modifies this`output, symbols
      ensures output == old(output) + Lines(Compile(useRefCounts, f).body)
      ensures symbols.scopes == [map[]]
    {
      ghost var out := output;
      symbols.currentParams := f.params;
      assert symbols.Table() == StartTable(f);
      VisitBlock(f.body);
      symbols.currentParams := [];
      FunctionLines(useRefCounts, f, out);
    }
  }

  lemma WhileLines(rc: bool, t: Table, c: Name, loop: Stmt, out: seq<Line>)
    requires t.scopes != []
    ensures out + Lines(Translate(rc, t, While(c, loop)))
         == out + [WhileOpen(c)] + Lines(Translate(rc, t, loop)) + [Close]
  {
    LinesOne(Loop(c, Translate(rc, t, loop)));
    LinesBlock(out, WhileOpen(c), Lines(Translate(rc, t, loop)));
  }

  lemma FunctionLines(rc: bool, f: Func, out: seq<Line>)
    ensures out + Lines(Compile(rc, f).body)
         == out + [Open] + Lines(TranslateBlock(rc, StartTable(f), f.body)) + [Close]
  {
    LinesOne(Scope(TranslateBlock(rc, StartTable(f), f.body)));
    LinesBlock(out, Open, Lines(TranslateBlock(rc, StartTable(f), f.body)));
  }

  /** Writing three pieces one after the other writes their concatenation. */
  lemma Lines3(o: seq<Line>, a: seq<Op>, b: seq<Op>, c: seq<Op>)
    ensures o + Lines(a + b + c) == o + Lines(a) + Lines(b) + Lines(c)
  {
    LinesConcat(a + b, c);
    LinesConcat(a, b);
  }

  lemma Lines4(o: seq<Line>, a: seq<Op>, b: seq<Op>, c: seq<Op>, d: seq<Op>)
    ensures o + Lines(a + b + c + d) == o + Lines(a) + Lines(b) + Lines(c) + Lines(d)
  {
    LinesConcat(a, b);
    Lines3(o, a + b, c, d);
  }

  lemma LinesBlock(o: seq<Line>, first: Line, a: seq<Line>)
    ensures o + ([first] + a + [Close]) == o + [first] + a + [Close]
  {
  }

  lemma AllLines(rc: bool, t: Table, ss: seq<Stmt>)
    requires t.scopes != []
    ensures ss == [] ==> Lines(TranslateAll(rc, t, ss)) == []
    ensures ss != [] ==> Lines(TranslateAll(rc, t, ss)) ==
                         Lines(Translate(rc, t, ss[0])) + Lines(TranslateAll(rc, After(t, ss[0]), ss[1..]))
  {
    if rc { LinesOne(Audit); }
    assert Lines(Mark(rc)) == [];
    if ss != [] {
      var first, rest := Translate(rc, t, ss[0]), TranslateAll(rc, After(t, ss[0]), ss[1..]);
      LinesConcat(Mark(rc) + first, rest);
      LinesConcat(Mark(rc), first);
      assert [] + Lines(first) == Lines(first);
    }
  }

  lemma IfLines(o: seq<Line>, rc: bool, t: Table, c: Name, thn: Stmt, els: Option<Stmt>)
    requires t.scopes != []
    ensures var first := o + [IfOpen(c)] + Lines(Translate(rc, t, thn)) + [Close];
            o + Lines(Translate(rc, t, If(c, thn, els))) ==
            if els.None? then first
            else first + [ElseOpen] + Lines(Translate(rc, After(t, thn), els.value)) + [Close]
  {
    var a := Translate(rc, t, thn);
    if els.None? {
      BranchLines(o, c, a, []);
    } else {
      NeverEmpty(rc, After(t, thn), els.value);
      BranchLines(o, c, a, Translate(rc, After(t, thn), els.value));
    }
  }

  lemma BranchLines(o: seq<Line>, c: Name, a: seq<Op>, b: seq<Op>)
    ensures var first := o + [IfOpen(c)] + Lines(a) + [Close];
            o + Lines([Branch(c, a, b)]) == if b == [] then first else first + [ElseOpen] + Lines(b) + [Close]
  {
    LinesOne(Branch(c, a, b));
    if b == [] {
      assert [IfOpen(c)] + Lines(a) + [Close] + [] == [IfOpen(c)] + Lines(a) + [Close];
      LinesBlock(o, IfOpen(c), Lines(a));
    } else {
      LinesTwoBlocks(o, IfOpen(c), Lines(a), ElseOpen, Lines(b));
    }
  }

  lemma LinesTwoBlocks(o: seq<Line>, first: Line, a: seq<Line>, second: Line, b: seq<Line>)
    ensures o + ([first] + a + [Close] + ([second] + b + [Close])) == o + [first] + a + [Close] + [second] + b + [Close]
  {
    LinesBlock(o, first, a);
    LinesAssoc(o, [first] + a + [Close], [second] + b + [Close]);
    LinesBlock(o + [first] + a + [Close], second, b);
  }

  lemma NeverEmpty(rc: bool, t: Table, s: Stmt)
    requires t.scopes != []
    ensures Translate(rc, t, s) != []
  {
  }

  ghost function ReleaseLines(xs: set<Name>): seq<Line> { Lines(Decs(InOrder(xs))) }

  method Smallest(s: set<Name>) returns (x: Name)
    requires s != {}
    ensures Least(s, x)
  {
    LeastExists(s);
    x :| x in s && Least(s, x);
  }

  lemma ReleaseStep(xs: set<Name>, x: Name)
    requires Least(xs, x)
    ensures ReleaseLines(xs) == [Text(Dec(x))] + ReleaseLines(xs - {x})
  {
    var rest := InOrder(xs - {x});
    InOrderStep(xs, x);
    assert ([x] + rest)[1..] == rest;
    LinesOne(Dec(x));
    LinesConcat([Dec(x)], Decs(rest));
  }

  lemma ReleaseNone()
    ensures ReleaseLines({}) == []
  {
  }
}

