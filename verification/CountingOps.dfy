/** What single emitted statements do to exact counts: increments, releases, allocations,
    the arguments of a call, and the releases at the end of a scope. */
module CountingOps {
  import opened Bags
  import opened RefCountStore
  import opened RefCountCascade
  import Rc = RefCountRuns
  import opened Scopes
  import opened Source
  import opened Emit
  import opened Machine
  import opened FrameFacts

  function Handle(v: Addr): multiset<Addr> { Rc.Handle(v) }

  // Multiset arithmetic, kept apart from everything else.

  lemma Regroup(s: multiset<Addr>, f: multiset<Addr>, a: multiset<Addr>, c: multiset<Addr>)
    ensures s + f + a + c == s + (f + c) + a
    ensures s + (f + c) + a == s + f + a + c
    ensures s + (f + c) == s + f + c
    ensures s + f + a == s + a + f
  {
  }

  lemma Nothing(s: multiset<Addr>)
    ensures s + multiset{} == s && s - multiset{} == s
  {
  }

  lemma TakeOut(s: multiset<Addr>, f: multiset<Addr>, a: multiset<Addr>, c: multiset<Addr>)
    requires c <= f
    ensures s + f + a - c == s + (f - c) + a
  {
  }

  lemma TakeFirst(held: multiset<Addr>, first: multiset<Addr>, rest: multiset<Addr>)
    ensures held + (first + rest) - first == held + rest
  {
  }

  function With(mem: Memory, r: RefCountStore.Result): Memory
    requires r.Ok?
  {
    mem.(store := r.store)
  }

  // ---------- runtime calls ----------

  lemma StillUnissued(mem: Memory, mem': Memory)
    requires (forall a :: Unissued(mem, a)) && mem'.store.heap.Keys <= mem.store.heap.Keys && mem'.next == mem.next
    ensures forall a :: Unissued(mem', a)
  {
    forall a ensures Unissued(mem', a) { assert Unissued(mem, a); }
  }

  /** What the runtime does to a store keeps the fields counted: edges and lost increments
      are only added, as long as a block lives. */
  lemma StillCounted(mem: Memory, mem': Memory)
    requires FieldsCounted(mem) && mem'.fields == mem.fields && mem.next <= mem'.next
    requires mem.store.lost <= mem'.store.lost
    requires forall a :: a in mem'.store.heap && a < mem.next ==>
               a in mem.store.heap && mem.store.heap[a].targets <= mem'.store.heap[a].targets
    ensures FieldsCounted(mem')
  {
    forall o, f ensures FieldCounted(mem', o, f) {
      assert FieldCounted(mem, o, f);
      if (o, f) in mem.fields && o in mem'.store.heap {
        PrefixBag(mem.store.heap[o].targets, mem'.store.heap[o].targets);
      }
    }
  }

  lemma PrefixBag(a: seq<Addr>, b: seq<Addr>)
    requires a <= b
    ensures multiset(a) <= multiset(b)
  {
    assert b == a + b[|a|..];
  }

  lemma IncExact(mem: Memory, held: multiset<Addr>, v: Addr)
    requires Exact(mem, held) && (v == NULL || v in held)
    ensures IncRef(mem.store, v, NULL).Ok? && Exact(With(mem, IncRef(mem.store, v, NULL)), held + Handle(v))
  {
    if v == NULL {
      Nothing(held);
    } else {
      assert CountOk(mem.store.heap, held, mem.store.lost, v);
      Rc.ShareBalanced(mem.store, held, v);
      StillUnissued(mem, With(mem, IncRef(mem.store, v, NULL)));
      StillCounted(mem, With(mem, IncRef(mem.store, v, NULL)));
    }
  }

  lemma RecordExact(mem: Memory, held: multiset<Addr>, v: Addr, o: Addr)
    requires Exact(mem, held) && (v == NULL || v in held) && o in held
    ensures IncRef(mem.store, v, o).Ok? && Exact(With(mem, IncRef(mem.store, v, o)), held)
  {
    assert CountOk(mem.store.heap, held, mem.store.lost, o);
    if v != NULL {
      assert CountOk(mem.store.heap, held, mem.store.lost, v);
      Rc.RecordBalanced(mem.store, held, v, o);
      Rc.IncOnlyAdds(mem.store, v, o);
      StillUnissued(mem, With(mem, IncRef(mem.store, v, o)));
      StillCounted(mem, With(mem, IncRef(mem.store, v, o)));
    }
  }

  lemma DecExact(mem: Memory, held: multiset<Addr>, v: Addr)
    requires Exact(mem, held) && (v == NULL || v in held)
    ensures DecRef(mem.store, v).Ok? && Exact(With(mem, DecRef(mem.store, v)), held - Handle(v))
  {
    if v == NULL {
      Nothing(held);
    } else {
      ReleaseSettles(mem.store, held, v);
      StillUnissued(mem, With(mem, DecRef(mem.store, v)));
      StillCounted(mem, With(mem, DecRef(mem.store, v)));
    }
  }

  lemma NewExact(mem: Memory, held: multiset<Addr>, bytes: nat)
    requires Exact(mem, held)
    ensures DoNew(mem, bytes).Got? && DoNew(mem, bytes).value == mem.next != NULL
    ensures Exact(DoNew(mem, bytes).mem, held + multiset{mem.next})
  {
    assert Unissued(mem, mem.next);
    Rc.AllocBalanced(mem.store, held, mem.next, bytes);
    forall a ensures Unissued(DoNew(mem, bytes).mem, a) { assert Unissued(mem, a); }
    StillCounted(mem, DoNew(mem, bytes).mem);
  }

  // ---------- sequencing ----------

  lemma {:induction false} ExecConcat(code: map<Name, Code>, fuel: nat, a: seq<Op>, b: seq<Op>, below: seq<Suspended>,
                                      fr: Frame, mem: Memory)
    ensures var o := Exec(code, fuel, a, below, fr, mem);
            Exec(code, fuel, a + b, below, fr, mem) ==
            if o.Normal? then Exec(code, fuel, b, below, o.frame, o.mem) else o
    decreases |a|
  {
    if a == [] {
      assert a + b == b;
    } else {
      assert (a + b)[1..] == a[1..] + b;
      var o := ExecOp(code, fuel, a[0], below, fr, mem);
      if o.Normal? { ExecConcat(code, fuel, a[1..], b, below, o.frame, o.mem); }
    }
  }

  lemma ExecOne(code: map<Name, Code>, fuel: nat, op: Op, below: seq<Suspended>, fr: Frame, mem: Memory)
    ensures Exec(code, fuel, [op], below, fr, mem) == ExecOp(code, fuel, op, below, fr, mem)
  {
    assert [op][1..] == [];
    var o := ExecOp(code, fuel, op, below, fr, mem);
    if o.Normal? { assert Exec(code, fuel, [], below, o.frame, o.mem) == o; }
  }

  lemma InvokeThen(code: map<Name, Code>, fuel: nat, fn: Name, args: seq<Atom>, rest: seq<Op>, below: seq<Suspended>,
                   fr: Frame, mem: Memory)
    ensures var r := ExecCall(code, fuel, fn, args, below, fr, mem, None);
            Exec(code, fuel, [Invoke(fn, args)] + rest, below, fr, mem) ==
            if r.Got? then Exec(code, fuel, rest, below, fr, r.mem) else Stop(r.reason)
  {
    ExecConcat(code, fuel, [Invoke(fn, args)], rest, below, fr, mem);
    ExecOne(code, fuel, Invoke(fn, args), below, fr, mem);
  }

  lemma DeclareThen(code: map<Name, Code>, fuel: nat, x: Name, pointer: bool, rhs: Rhs, rest: seq<Op>,
                    below: seq<Suspended>, fr: Frame, mem: Memory)
    requires fr.scopes != []
    ensures var r := ExecRhs(code, fuel, rhs, below, fr, mem, None);
            Exec(code, fuel, [Declare(x, pointer, rhs)] + rest, below, fr, mem) ==
            if r.Got? then Exec(code, fuel, rest, below, Add(fr, x, Cell(pointer, r.value)), r.mem) else Stop(r.reason)
  {
    ExecConcat(code, fuel, [Declare(x, pointer, rhs)], rest, below, fr, mem);
    ExecOne(code, fuel, Declare(x, pointer, rhs), below, fr, mem);
  }

  lemma SetThen(code: map<Name, Code>, fuel: nat, x: Name, rhs: Rhs, rest: seq<Op>, below: seq<Suspended>, fr: Frame,
                mem: Memory)
    requires Lookup(fr, x).Some?
    ensures var r := ExecRhs(code, fuel, rhs, below, fr, mem, Some(x));
            Exec(code, fuel, [Set(x, rhs)] + rest, below, fr, mem) ==
            if r.Got? then Exec(code, fuel, rest, below, Assigned(fr, x, r.value), r.mem) else Stop(r.reason)
  {
    ExecConcat(code, fuel, [Set(x, rhs)], rest, below, fr, mem);
    ExecOne(code, fuel, Set(x, rhs), below, fr, mem);
  }

  lemma OpsAssoc(a: seq<Op>, b: seq<Op>, c: seq<Op>)
    ensures (a + b) + c == a + (b + c)
  {
  }

  // ---------- arguments ----------

  /** The reference a pointer operand stands for. */
  function AtomBag(fr: Frame, a: Atom): multiset<Addr> {
    if a.V? && Lookup(fr, a.name).Some? then CellBag(Lookup(fr, a.name).value) else multiset{}
  }

  function ArgsBag(fr: Frame, args: seq<Atom>): multiset<Addr> {
    if args == [] then multiset{} else AtomBag(fr, args[0]) + ArgsBag(fr, args[1..])
  }

  predicate AtomDefined(t: Table, a: Atom) { AtomOk(t, a, true) || AtomOk(t, a, false) }

  /** Execution goes on in the same frame, with exact counts for `held`. */
  ghost predicate GoesOn(o: Outcome, fr: Frame, held: multiset<Addr>) {
    o.Normal? && o.frame == fr && Exact(o.mem, held)
  }

  lemma IncAtomExact(code: map<Name, Code>, fuel: nat, t: Table, a: Atom, below: seq<Suspended>, fr: Frame,
                     mem: Memory, held: multiset<Addr>)
    requires Match(t, fr) && AtomDefined(t, a) && FrameBag(fr) <= held && Exact(mem, held)
    ensures GoesOn(Exec(code, fuel, IncAtom(true, t, a, None), below, fr, mem), fr, held + AtomBag(fr, a))
  {
    if a.V? { MatchLookup(t, fr, a.name); }
    if IsPointerVar(t, a) {
      ExecOne(code, fuel, Inc(a.name, None), below, fr, mem);
      FrameHolds(fr, a.name);
      var v := Lookup(fr, a.name).value.value;
      if v != NULL { assert v in CellBag(Lookup(fr, a.name).value); }
      IncExact(mem, held, v);
    } else {
      Nothing(held);
    }
  }

  /** Releasing an operand, possibly in a later frame where it still has the same value. */
  lemma DecAtomExact(code: map<Name, Code>, fuel: nat, t: Table, a: Atom, below: seq<Suspended>, fr: Frame,
                     fr': Frame, mem: Memory, held: multiset<Addr>)
    requires Match(t, fr) && AtomDefined(t, a) && AtomBag(fr, a) <= held && Exact(mem, held)
    requires a.V? ==> Lookup(fr', a.name) == Lookup(fr, a.name)
    ensures GoesOn(Exec(code, fuel, DecAtom(true, t, a), below, fr', mem), fr', held - AtomBag(fr, a))
  {
    if a.V? { MatchLookup(t, fr, a.name); }
    if IsPointerVar(t, a) {
      ExecOne(code, fuel, Dec(a.name), below, fr', mem);
      var v := Lookup(fr, a.name).value.value;
      if v != NULL { assert v in AtomBag(fr, a); }
      DecExact(mem, held, v);
    } else {
      Nothing(held);
    }
  }

  lemma {:induction false} IncArgsExact(code: map<Name, Code>, fuel: nat, t: Table, args: seq<Atom>,
                                        below: seq<Suspended>, fr: Frame, mem: Memory, held: multiset<Addr>)
    requires Match(t, fr) && (forall a :: a in args ==> AtomDefined(t, a)) && FrameBag(fr) <= held && Exact(mem, held)
    ensures GoesOn(Exec(code, fuel, IncArgs(true, t, args), below, fr, mem), fr, held + ArgsBag(fr, args))
    decreases |args|
  {
    if args == [] {
      Nothing(held);
    } else {
      var first, rest := IncAtom(true, t, args[0], None), IncArgs(true, t, args[1..]);
      ExecConcat(code, fuel, first, rest, below, fr, mem);
      IncAtomExact(code, fuel, t, args[0], below, fr, mem, held);
      var mem1 := Exec(code, fuel, first, below, fr, mem).mem;
      IncArgsExact(code, fuel, t, args[1..], below, fr, mem1, held + AtomBag(fr, args[0]));
      Regroup(held, AtomBag(fr, args[0]), multiset{}, ArgsBag(fr, args[1..]));
    }
  }

  lemma {:induction false} DecArgsExact(code: map<Name, Code>, fuel: nat, t: Table, args: seq<Atom>,
                                        below: seq<Suspended>, fr: Frame, fr': Frame, mem: Memory,
                                        held: multiset<Addr>)
    requires Match(t, fr) && (forall a :: a in args ==> AtomDefined(t, a))
    requires forall a :: a in args && a.V? ==> Lookup(fr', a.name) == Lookup(fr, a.name)
    requires Exact(mem, held + ArgsBag(fr, args))
    ensures GoesOn(Exec(code, fuel, DecArgs(true, t, args), below, fr', mem), fr', held)
    decreases |args|
  {
    if args == [] {
      Nothing(held);
    } else {
      var first, rest := DecAtom(true, t, args[0]), DecArgs(true, t, args[1..]);
      var all := held + ArgsBag(fr, args);
      ExecConcat(code, fuel, first, rest, below, fr', mem);
      DecAtomExact(code, fuel, t, args[0], below, fr, fr', mem, all);
      TakeFirst(held, AtomBag(fr, args[0]), ArgsBag(fr, args[1..]));
      var mem1 := Exec(code, fuel, first, below, fr', mem).mem;
      DecArgsExact(code, fuel, t, args[1..], below, fr, fr', mem1, held);
    }
  }

  lemma {:induction false} ParamNames(ps: seq<Param>, x: Name)
    requires x in ParamTable(ps)
    ensures exists i :: 0 <= i < |ps| && ps[i].name == x
    decreases |ps|
  {
    if x == ps[0].name {
    } else {
      ParamNames(ps[1..], x);
      var i :| 0 <= i < |ps[1..]| && ps[1..][i].name == x;
      assert ps[i+1].name == x;
    }
  }

  /** Binding well-typed arguments: the parameters hold what was counted for them. */
  lemma {:induction false} BindExact(t: Table, fr: Frame, ps: seq<Param>, args: seq<Atom>)
    requires Match(t, fr) && |ps| == |args| && DistinctParams(ps)
    requires forall i :: 0 <= i < |ps| ==> AtomOk(t, args[i], ps[i].pointer)
    ensures Bind(fr, ps, args).Some?
    ensures SameScope(ParamTable(ps), Bind(fr, ps, args).value)
    ensures ScopeBag(Bind(fr, ps, args).value) == ArgsBag(fr, args)
    decreases |ps|
  {
    if ps != [] {
      var qs := ps[1..];
      assert forall i :: 0 <= i < |qs| ==> qs[i] == ps[i+1] && args[1..][i] == args[i+1];
      BindExact(t, fr, qs, args[1..]);
      if ps[0].name in ParamTable(qs) { ParamNames(qs, ps[0].name); }
      BindFirst(t, fr, ps[0], args[0]);
      MapBagInsert(Bind(fr, qs, args[1..]).value, CellBag, ps[0].name, Cell(ps[0].pointer, Eval(fr, args[0]).value));
    }
  }

  /** Each parameter gets the value of its own argument. */
  lemma {:induction false} BindAt(fr: Frame, ps: seq<Param>, args: seq<Atom>, i: nat)
    requires DistinctParams(ps) && Bind(fr, ps, args).Some? && i < |ps|
    ensures |ps| == |args| && Eval(fr, args[i]).Some? && ps[i].name in Bind(fr, ps, args).value
    ensures Bind(fr, ps, args).value[ps[i].name] == Cell(ps[i].pointer, Eval(fr, args[i]).value)
    decreases |ps|
  {
    if i > 0 {
      assert forall j, k :: 0 <= j < k < |ps[1..]| ==> ps[1..][j] == ps[j+1] && ps[1..][k] == ps[k+1];
      BindAt(fr, ps[1..], args[1..], i - 1);
    }
  }

  lemma BindFirst(t: Table, fr: Frame, q: Param, a: Atom)
    requires Match(t, fr) && AtomOk(t, a, q.pointer)
    ensures Eval(fr, a).Some? && CellBag(Cell(q.pointer, Eval(fr, a).value)) == AtomBag(fr, a)
  {
    if a.V? { MatchLookup(t, fr, a.name); }
  }

  // ---------- the end of a scope ----------

  lemma {:induction false} NoPointers(m: map<Name, Cell>)
    requires forall x :: x in m ==> !m[x].pointer
    ensures ScopeBag(m) == multiset{}
    decreases |m|
  {
    if m != map[] {
      var x :| x in m;
      MapBagTake(m, CellBag, x);
      NoPointers(m - {x});
    }
  }

  lemma {:induction false} NoneHeld(ts: seq<map<Name, bool>>, ss: seq<map<Name, Cell>>)
    requires |ts| == |ss| && forall i :: 0 <= i < |ts| ==> SameScope(ts[i], ss[i])
    requires forall i, x :: 0 <= i < |ts| && x in ts[i] ==> !ts[i][x]
    ensures ScopesBag(ss) == multiset{}
    decreases |ss|
  {
    if ss != [] {
      var n := |ss| - 1;
      NoneHeld(ts[..n], ss[..n]);
      assert SameScope(ts[n], ss[n]);
      NoPointers(ss[n]);
    }
  }

  /** `xs` lists the pointer variables of `rest`, a part of the innermost scope. */
  ghost predicate Lists(xs: seq<Name>, rest: map<Name, Cell>, fr: Frame) {
    && (forall x :: x in rest ==> x in Top(fr) && Top(fr)[x] == rest[x])
    && (forall x :: x in xs <==> x in rest && rest[x].pointer)
    && (forall i, j :: 0 <= i < j < |xs| ==> xs[i] != xs[j])
  }

  /** Releasing the listed variables, in whatever order they are listed. */
  lemma {:induction false} DecsExact(code: map<Name, Code>, fuel: nat, xs: seq<Name>, rest: map<Name, Cell>,
                                     below: seq<Suspended>, fr: Frame, mem: Memory, held: multiset<Addr>)
    requires fr.scopes != [] && Lists(xs, rest, fr) && Exact(mem, held + ScopeBag(rest))
    ensures GoesOn(Exec(code, fuel, Decs(xs), below, fr, mem), fr, held)
    decreases |xs|
  {
    if xs == [] {
      NoPointers(rest);
      Nothing(held);
    } else {
      assert xs[0] in xs;
      DecStep(code, fuel, xs[0], rest, below, fr, mem, held);
      assert Decs(xs)[1..] == Decs(xs[1..]);
      ListsRest(xs, rest, fr);
      DecsExact(code, fuel, xs[1..], rest - {xs[0]}, below, fr, ExecOp(code, fuel, Dec(xs[0]), below, fr, mem).mem,
                held);
    }
  }

  lemma DecStep(code: map<Name, Code>, fuel: nat, x: Name, rest: map<Name, Cell>, below: seq<Suspended>, fr: Frame,
                mem: Memory, held: multiset<Addr>)
    requires fr.scopes != [] && x in rest && x in Top(fr) && Top(fr)[x] == rest[x] && rest[x].pointer
    requires Exact(mem, held + ScopeBag(rest))
    ensures GoesOn(ExecOp(code, fuel, Dec(x), below, fr, mem), fr, held + ScopeBag(rest - {x}))
  {
    MapBagTake(rest, CellBag, x);
    var v := rest[x].value;
    TakeFirst(held, Handle(v), ScopeBag(rest - {x}));
    if v != NULL { assert v in CellBag(rest[x]); }
    DecExact(mem, held + ScopeBag(rest), v);
  }

  lemma ListsRest(xs: seq<Name>, rest: map<Name, Cell>, fr: Frame)
    requires xs != [] && Lists(xs, rest, fr)
    ensures Lists(xs[1..], rest - {xs[0]}, fr)
  {
    var ys := xs[1..];
    forall x ensures x in ys <==> x in rest - {xs[0]} && rest[x].pointer {
      if x in ys {
        var i :| 0 <= i < |ys| && ys[i] == x;
        assert xs[i+1] == x && xs[0] != xs[i+1];
      }
      if x in xs && x != xs[0] {
        var i :| 0 <= i < |xs| && xs[i] == x;
        assert ys[i-1] == x;
      }
    }
  }

  /** The releases emitted at the end of a block or before a return. */
  lemma ScopeDecsExact(code: map<Name, Code>, fuel: nat, t: Table, below: seq<Suspended>, fr: Frame, mem: Memory,
                       held: multiset<Addr>)
    requires Match(t, fr) && t.scopes != [] && Exact(mem, held + ScopeBag(Top(fr)))
    ensures GoesOn(Exec(code, fuel, ScopeDecs(true, t), below, fr, mem), fr, held)
  {
    var xs := InOrder(PointerNames(Top(t)));
    assert SameScope(Top(t), Top(fr));
    forall i, j | 0 <= i < j < |xs| ensures xs[i] != xs[j] { InOrderSorted(PointerNames(Top(t)), i, j); }
    DecsExact(code, fuel, xs, Top(fr), below, fr, mem, held);
  }
}

