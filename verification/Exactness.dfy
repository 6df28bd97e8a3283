/** Exactly when the inserted counts are right, for the statements that the fragment of
    `Source.StmtOk` leaves out: assigning the result of a call to one of its arguments,
    discarding a pointer result, returning from an inner block, and assigning to a parameter.
    Each condition can be read off the variables at the moment in question. The code that is
    run may be anything, apart from the functions that the statement calls. */
module Exactness {
  import opened RefCountStore
  import opened RefCountCascade
  import opened Scopes
  import opened Source
  import opened Emit
  import opened Machine
  import opened FrameFacts
  import opened CountingOps
  import opened Counting
  import opened OverRelease

  /** Exact counts determine who the holders are. */
  lemma UniqueHolders(mem: Memory, a: multiset<Addr>, b: multiset<Addr>)
    requires Exact(mem, a) && Exact(mem, b)
    ensures a == b
  {
    forall x ensures a[x] == b[x] {
      assert CountOk(mem.store.heap, a, mem.store.lost, x) && CountOk(mem.store.heap, b, mem.store.lost, x);
    }
  }

  // ---------- the releases behind a call ----------

  lemma DecAtomTracks(code: map<Name, Code>, fuel: nat, t: Table, a: Atom, below: seq<Suspended>, fr: Frame,
                      mem: Memory, plus: multiset<Addr>, minus: multiset<Addr>)
    requires Match(t, fr) && AtomDefined(t, a) && NULL !in mem.store.heap
    requires Tracked(mem.store.heap, plus, minus, mem.store.lost)
    ensures var o := Exec(code, fuel, DecAtom(true, t, a), below, fr, mem);
            o.Normal? ==> && o.frame == fr && NULL !in o.mem.store.heap && o.mem.store.lost == mem.store.lost
                          && Tracked(o.mem.store.heap, plus, minus + AtomBag(fr, a), mem.store.lost)
  {
    if a.V? { MatchLookup(t, fr, a.name); }
    assert minus + multiset{} == minus;
    if IsPointerVar(t, a) {
      ExecOne(code, fuel, Dec(a.name), below, fr, mem);
      var v := Lookup(fr, a.name).value.value;
      if v != NULL && DecRef(mem.store, v).Ok? { ReleaseTracks(mem.store, plus, minus, v); }
    }
  }

  lemma ReleaseTracks(s: Store, plus: multiset<Addr>, minus: multiset<Addr>, v: Addr)
    requires Tracked(s.heap, plus, minus, s.lost) && NULL !in s.heap && DecRef(s, v).Ok?
    ensures var s' := DecRef(s, v).store;
            NULL !in s'.heap && s'.lost == s.lost && Tracked(s'.heap, plus, minus + multiset{v}, s.lost)
  {
    assert Live(s, {}) == s.heap && Live(DecRef(s, v).store, {}) == DecRef(s, v).store.heap;
    DecTracks(s, plus, minus, v, {});
  }

  lemma {:induction false} DecArgsTracks(code: map<Name, Code>, fuel: nat, t: Table, args: seq<Atom>,
                                         below: seq<Suspended>, fr: Frame, mem: Memory, plus: multiset<Addr>,
                                         minus: multiset<Addr>)
    requires Match(t, fr) && (forall a :: a in args ==> AtomDefined(t, a)) && NULL !in mem.store.heap
    requires Tracked(mem.store.heap, plus, minus, mem.store.lost)
    ensures var o := Exec(code, fuel, DecArgs(true, t, args), below, fr, mem);
            o.Normal? ==> && o.frame == fr && o.mem.store.lost == mem.store.lost
                          && Tracked(o.mem.store.heap, plus, minus + ArgsBag(fr, args), mem.store.lost)
    decreases |args|
  {
    if args == [] {
      assert minus + multiset{} == minus;
    } else {
      var first, rest := DecAtom(true, t, args[0]), DecArgs(true, t, args[1..]);
      ExecConcat(code, fuel, first, rest, below, fr, mem);
      DecAtomTracks(code, fuel, t, args[0], below, fr, mem, plus, minus);
      var o := Exec(code, fuel, first, below, fr, mem);
      if o.Normal? {
        DecArgsTracks(code, fuel, t, args[1..], below, fr, o.mem, plus, minus + AtomBag(fr, args[0]));
        Regroup(minus, AtomBag(fr, args[0]), multiset{}, ArgsBag(fr, args[1..]));
      }
    }
  }

  lemma {:induction false} ArgsHeld(fr: Frame, args: seq<Atom>, b: Addr)
    requires b in ArgsBag(fr, args)
    ensures b in FrameBag(fr)
    decreases |args|
  {
    if b in AtomBag(fr, args[0]) { FrameHolds(fr, args[0].name); } else { ArgsHeld(fr, args[1..], b); }
  }

  /** The releases behind a call settle the counts if and only if what was left to release is
      what they release: `held` is what the variables hold, `owed` what is counted beside it. */
  lemma ReleasesExactIff(code: map<Name, Code>, fuel: nat, t: Table, args: seq<Atom>, below: seq<Suspended>, fr: Frame,
                         mem: Memory, held: multiset<Addr>, owed: multiset<Addr>)
    requires Match(t, fr) && (forall a :: a in args ==> AtomDefined(t, a))
    requires FrameBag(fr) <= held && Exact(mem, held + owed)
    ensures GoesOn(Exec(code, fuel, DecArgs(true, t, args), below, fr, mem), fr, held) <==> owed == ArgsBag(fr, args)
  {
    if owed == ArgsBag(fr, args) { DecArgsExact(code, fuel, t, args, below, fr, fr, mem, held); }
    if GoesOn(Exec(code, fuel, DecArgs(true, t, args), below, fr, mem), fr, held) {
      BalancedTracked(mem.store.heap, held + owed, mem.store.lost);
      DecArgsTracks(code, fuel, t, args, below, fr, mem, held + owed, multiset{});
      Nothing(ArgsBag(fr, args));
      assert multiset{} + ArgsBag(fr, args) == ArgsBag(fr, args);
      forall b | b in ArgsBag(fr, args) ensures b in held { ArgsHeld(fr, args, b); }
      var o := Exec(code, fuel, DecArgs(true, t, args), below, fr, mem);
      TrackedBalanced(o.mem.store.heap, held, owed, ArgsBag(fr, args), mem.store.lost);
    }
  }

  // ---------- x = f(x) ----------

  /** Assigning `r` to `x` leaves the pointers passed to the call as they were. */
  predicate Unmoved(fr: Frame, x: Name, args: seq<Atom>, r: nat)
    requires Lookup(fr, x).Some?
  {
    Lookup(fr, x).value.pointer && V(x) in args ==> r == Lookup(fr, x).value.value
  }

  lemma {:induction false} ArgsSame(fr: Frame, x: Name, args: seq<Atom>, r: nat)
    requires Lookup(fr, x).Some? && (!Lookup(fr, x).value.pointer || V(x) !in args || r == Lookup(fr, x).value.value)
    ensures ArgsBag(Assigned(fr, x, r), args) == ArgsBag(fr, args)
    decreases |args|
  {
    if args != [] {
      AssignedLookup(fr, x, r);
      if args[0].V? && args[0].name != x { OthersKept(fr, x, r, args[0].name); }
      assert args[0] in args;
      ArgsSame(fr, x, args[1..], r);
    }
  }

  lemma AssignedLookup(fr: Frame, x: Name, r: nat)
    requires Lookup(fr, x).Some?
    ensures Lookup(Assigned(fr, x, r), x) == Some(Cell(Lookup(fr, x).value.pointer, r))
  {
    if LookupScopes(fr.scopes, x).Some? {
      UpdatedLookup(fr.scopes, x, Cell(LookupScopes(fr.scopes, x).value.pointer, r));
    }
  }

  lemma {:induction false} UpdatedLookup(ss: seq<map<Name, Cell>>, x: Name, c: Cell)
    requires LookupScopes(ss, x).Some?
    ensures LookupScopes(UpdateScopes(ss, x, c), x) == Some(c)
    decreases |ss|
  {
    var n, rs := |ss| - 1, UpdateScopes(ss, x, c);
    if x !in ss[n] {
      UpdatedLookup(ss[..n], x, c);
      assert rs[..n] == UpdateScopes(ss[..n], x, c);
    }
  }

  /** The frames differ at `x` only: where it held `v`, the other passes `v` less often. */
  lemma {:induction false} PassesLess(fr: Frame, fr': Frame, x: Name, args: seq<Atom>, v: Addr)
    requires v != NULL && Lookup(fr, x) == Some(Cell(true, v))
    requires Lookup(fr', x).Some? && Lookup(fr', x).value.value != v
    requires forall y :: y != x ==> Lookup(fr', y) == Lookup(fr, y)
    ensures ArgsBag(fr', args)[v] <= ArgsBag(fr, args)[v]
    ensures V(x) in args ==> ArgsBag(fr', args)[v] < ArgsBag(fr, args)[v]
    decreases |args|
  {
    if args != [] {
      PassesLess(fr, fr', x, args[1..], v);
      assert args == [args[0]] + args[1..];
    }
  }

  lemma UnmovedIff(fr: Frame, x: Name, args: seq<Atom>, r: nat)
    requires Lookup(fr, x).Some?
    ensures ArgsBag(fr, args) == ArgsBag(Assigned(fr, x, r), args) <==> Unmoved(fr, x, args, r)
  {
    var fr', c := Assigned(fr, x, r), Lookup(fr, x).value;
    if Unmoved(fr, x, args, r) {
      ArgsSame(fr, x, args, r);
    } else {
      AssignedLookup(fr, x, r);
      forall y | y != x ensures Lookup(fr', y) == Lookup(fr, y) { OthersKept(fr, x, r, y); }
      if c.value != NULL { PassesLess(fr, fr', x, args, c.value); } else { PassesLess(fr', fr, x, args, r); }
    }
  }

  /** `x = f(..)`, whether or not `x` is passed: the counts are exact afterwards if and only
      if `x` is not passed as a pointer, or gets the value it had. */
  lemma AssignCallExactIff(code: map<Name, Code>, p: Program, fuel: nat, t: Table, x: Name, fn: Name, args: seq<Atom>,
                           below: seq<Suspended>, fr: Frame, mem: Memory)
    requires Includes(code, p) && Ready(t, fr, mem, below) && Lookup(t, x).Some?
    requires RhsOk(p, t, Call(fn, args), Lookup(t, x).value)
    ensures var o := Exec(code, fuel, Translate(true, t, Assign(x, Call(fn, args))), below, fr, mem);
            var mem1 := AssignMem(code, fuel, t, x, Call(fn, args), below, fr, mem);
            var r := ExecCall(code, fuel, fn, args, below, fr, mem1, Some(x));
            && Lookup(fr, x).Some?
            && (r.Failed? ==> Benign(r.reason) && o == Stop(r.reason))
            && (r.Got? ==> var fr' := Assigned(fr, x, r.value);
                           GoesOn(o, fr', StackBag(below) + FrameBag(fr')) <==> Unmoved(fr, x, args, r.value))
  {
    var rhs := Call(fn, args);
    var mem1 := AssignMem(code, fuel, t, x, rhs, below, fr, mem);
    MatchLookup(t, fr, x);
    AssignStarts(code, p, fuel, t, x, rhs, below, fr, mem);
    SetThen(code, fuel, x, rhs, Behind(true, t, rhs), below, fr, mem1);
    var waiting := SuspendedBag(Suspended(fr, Some(x)));
    CallSafe(code, p, fuel, t, fn, args, below, fr, mem1, Some(x), StackBag(below) + waiting);
    var r := ExecCall(code, fuel, fn, args, below, fr, mem1, Some(x));
    if r.Got? { AssignedExactIff(code, p, fuel, t, x, fn, args, below, fr, r.mem, r.value); }
  }

  lemma AssignedExactIff(code: map<Name, Code>, p: Program, fuel: nat, t: Table, x: Name, fn: Name, args: seq<Atom>,
                         below: seq<Suspended>, fr: Frame, mem: Memory, r: nat)
    requires Match(t, fr) && Lookup(t, x).Some? && Lookup(fr, x).Some? && CallOk(p, t, fn, args)
    requires Exact(mem, StackBag(below) + SuspendedBag(Suspended(fr, Some(x))) + ArgsBag(fr, args)
                        + CellBag(Cell(Lookup(t, x).value, r)))
    ensures var fr' := Assigned(fr, x, r);
            GoesOn(Exec(code, fuel, DecArgs(true, t, args), below, fr', mem), fr',
                   StackBag(below) + FrameBag(fr'))
            <==> Unmoved(fr, x, args, r)
  {
    var fr' := Assigned(fr, x, r);
    AssignFrame(t, fr, x, r);
    Regroup(StackBag(below), SuspendedBag(Suspended(fr, Some(x))), ArgsBag(fr, args),
            CellBag(Cell(Lookup(t, x).value, r)));
    CallArgsDefined(p, t, fn, args);
    ReleasesExactIff(code, fuel, t, args, below, fr', mem, StackBag(below) + FrameBag(fr'), ArgsBag(fr, args));
    UnmovedIff(fr, x, args, r);
  }

  // ---------- a result that nobody takes ----------

  /** A call statement: the counts are exact afterwards if and only if its result is not a
      pointer, or NIL. */
  lemma CallStmtExactIff(code: map<Name, Code>, p: Program, fuel: nat, t: Table, fn: Name, args: seq<Atom>,
                         below: seq<Suspended>, fr: Frame, mem: Memory)
    requires Includes(code, p) && Ready(t, fr, mem, below) && CallOk(p, t, fn, args)
    ensures var o := Exec(code, fuel, Translate(true, t, CallStmt(fn, args)), below, fr, mem);
            var o1 := Exec(code, fuel, IncArgs(true, t, args), below, fr, mem);
            && o1.Normal?
            && var r := ExecCall(code, fuel, fn, args, below, fr, o1.mem, None);
               && (r.Failed? ==> Benign(r.reason) && o == Stop(r.reason))
               && (r.Got? ==> (GoesOn(o, fr, StackBag(below) + FrameBag(fr))
                               <==> (p[fn].result == PointerResult ==> r.value == NULL)))
  {
    var held := StackBag(below) + FrameBag(fr);
    CallArgsDefined(p, t, fn, args);
    IncArgsExact(code, fuel, t, args, below, fr, mem, held);
    var mem1 := Exec(code, fuel, IncArgs(true, t, args), below, fr, mem).mem;
    CallStmtUnfolds(code, fuel, t, fn, args, below, fr, mem, mem1);
    CallSafe(code, p, fuel, t, fn, args, below, fr, mem1, None, held);
    var r := ExecCall(code, fuel, fn, args, below, fr, mem1, None);
    if r.Got? {
      LeftoverIff(code, fuel, t, args, below, fr, r.mem, held, Cell(p[fn].result == PointerResult, r.value));
    }
  }

  lemma CallStmtUnfolds(code: map<Name, Code>, fuel: nat, t: Table, fn: Name, args: seq<Atom>, below: seq<Suspended>,
                        fr: Frame, mem: Memory, mem1: Memory)
    requires t.scopes != [] && Exec(code, fuel, IncArgs(true, t, args), below, fr, mem) == Normal(fr, mem1)
    ensures var r := ExecCall(code, fuel, fn, args, below, fr, mem1, None);
            Exec(code, fuel, Translate(true, t, CallStmt(fn, args)), below, fr, mem) ==
            if r.Got? then Exec(code, fuel, DecArgs(true, t, args), below, fr, r.mem) else Stop(r.reason)
  {
    OpsAssoc(IncArgs(true, t, args), [Invoke(fn, args)], DecArgs(true, t, args));
    ExecConcat(code, fuel, IncArgs(true, t, args), [Invoke(fn, args)] + DecArgs(true, t, args), below, fr, mem);
    InvokeThen(code, fuel, fn, args, DecArgs(true, t, args), below, fr, mem1);
  }

  lemma LeftoverIff(code: map<Name, Code>, fuel: nat, t: Table, args: seq<Atom>, below: seq<Suspended>, fr: Frame,
                    mem: Memory, held: multiset<Addr>, result: Cell)
    requires Match(t, fr) && (forall a :: a in args ==> AtomDefined(t, a))
    requires FrameBag(fr) <= held && Exact(mem, held + ArgsBag(fr, args) + CellBag(result))
    ensures GoesOn(Exec(code, fuel, DecArgs(true, t, args), below, fr, mem), fr, held)
        <==> (result.pointer ==> result.value == NULL)
  {
    var owed := ArgsBag(fr, args) + CellBag(result);
    assert held + ArgsBag(fr, args) + CellBag(result) == held + owed;
    ReleasesExactIff(code, fuel, t, args, below, fr, mem, held, owed);
    if owed == ArgsBag(fr, args) {
      assert |owed| == |ArgsBag(fr, args)| + |CellBag(result)|;
    } else if CellBag(result) == multiset{} {
      Nothing(ArgsBag(fr, args));
    }
  }

  // ---------- returning, from any depth, with parameters assigned or not ----------

  /** `return` anywhere: beside its result it leaves what the enclosing scopes and the
      parameters hold at that moment. So it is exact for a caller that has counted `entry`
      for the arguments if and only if that is what they hold. */
  lemma ReturnExactIff(code: map<Name, Code>, fuel: nat, t: Table, a: Atom, pointer: bool, below: seq<Suspended>,
                       fr: Frame, mem: Memory, entry: multiset<Addr>)
    requires Ready(t, fr, mem, below) && AtomOk(t, a, pointer)
    ensures var o := Exec(code, fuel, Translate(true, t, Return(a)), below, fr, mem);
            && o.Returned?
            && (Exact(o.mem, StackBag(below) + entry + CellBag(Cell(pointer, o.value)))
                <==> FrameBag(Exit(fr)) == entry)
  {
    var inc, outer := IncAtom(true, t, a, None), StackBag(below) + FrameBag(Exit(fr));
    OpsAssoc(inc, ScopeDecs(true, t), [Ret(a)]);
    ExecConcat(code, fuel, inc, ScopeDecs(true, t) + [Ret(a)], below, fr, mem);
    IncAtomExact(code, fuel, t, a, below, fr, mem, StackBag(below) + FrameBag(fr));
    ExitBag(fr);
    BindFirst(t, fr, Param("", pointer), a);
    Regroup(StackBag(below), FrameBag(Exit(fr)), AtomBag(fr, a), ScopeBag(Top(fr)));
    ReturnReleases(code, fuel, t, a, below, fr, Exec(code, fuel, inc, below, fr, mem).mem, outer + AtomBag(fr, a));
    var o := Exec(code, fuel, Translate(true, t, Return(a)), below, fr, mem);
    SameRest(o.mem, StackBag(below), FrameBag(Exit(fr)), entry, CellBag(Cell(pointer, o.value)));
  }

  lemma SameRest(mem: Memory, a: multiset<Addr>, b: multiset<Addr>, c: multiset<Addr>, d: multiset<Addr>)
    requires Exact(mem, a + b + d)
    ensures Exact(mem, a + c + d) <==> b == c
  {
    if Exact(mem, a + c + d) {
      UniqueHolders(mem, a + b + d, a + c + d);
      forall x ensures b[x] == c[x] { assert (a + b + d)[x] == (a + c + d)[x]; }
    }
  }

  /** With parameters as they were passed: exact if and only if the enclosing scopes hold
      nothing. */
  lemma NestedReturnExactIff(code: map<Name, Code>, fuel: nat, t: Table, a: Atom, pointer: bool, below: seq<Suspended>,
                             fr: Frame, mem: Memory)
    requires Ready(t, fr, mem, below) && AtomOk(t, a, pointer)
    ensures var o := Exec(code, fuel, Translate(true, t, Return(a)), below, fr, mem);
            && o.Returned?
            && (Exact(o.mem, StackBag(below) + ScopeBag(fr.params) + CellBag(Cell(pointer, o.value)))
                <==> ScopesBag(fr.scopes[..|fr.scopes|-1]) == multiset{})
  {
    ReturnExactIff(code, fuel, t, a, pointer, below, fr, mem, ScopeBag(fr.params));
    var outer := ScopesBag(fr.scopes[..|fr.scopes|-1]);
    assert FrameBag(Exit(fr)) == outer + ScopeBag(fr.params);
    if outer + ScopeBag(fr.params) == ScopeBag(fr.params) {
      assert |outer| + |ScopeBag(fr.params)| == |ScopeBag(fr.params)|;
    }
  }

  /** The end of a function body without `return`: exact for the caller if and only if the
      parameters hold what was counted for them. */
  lemma BodyEndExactIff(code: map<Name, Code>, fuel: nat, t: Table, below: seq<Suspended>, fr: Frame, mem: Memory,
                        entry: multiset<Addr>)
    requires Ready(t, fr, mem, below) && |t.scopes| == 2 && t.scopes[0] == map[]
    ensures GoesOn(Exec(code, fuel, ScopeDecs(true, t), below, fr, mem), fr, StackBag(below) + entry)
        <==> ScopeBag(fr.params) == entry
  {
    BodyEnds(code, fuel, t, below, fr, mem);
    var o := Exec(code, fuel, ScopeDecs(true, t), below, fr, mem);
    Nothing(StackBag(below) + ScopeBag(fr.params));
    Nothing(StackBag(below) + entry);
    SameRest(o.mem, StackBag(below), ScopeBag(fr.params), entry, multiset{});
  }
}
