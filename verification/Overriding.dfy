/** How classes and their methods are declared (the first pass of visitClassDecl in
    src/ast/TranspilerVisitor.cpp), which methods become virtual by it, and what that
    means for a call through a vtable. */
module Overriding {
  import opened Mangling
  import opened Hierarchy
  import opened Dispatch

  // ---------- declaring methods ----------

  /** methodText.find("virtual") != npos: anywhere in the method, its body included. */
  predicate MentionsVirtual(text: string) {
    exists i :: 0 <= i <= |text| && "virtual" <= text[i..]
  }

  /** The word is found exactly in the texts that contain it. */
  lemma SaysVirtual(a: string, b: string)
    ensures MentionsVirtual(a + "virtual" + b)
  {
    var text := a + "virtual" + b;
    assert text[|a|..] == "virtual" + b;
  }

  lemma VirtualSplit(text: string) returns (a: string, b: string)
    requires MentionsVirtual(text)
    ensures text == a + "virtual" + b
  {
    var i :| 0 <= i <= |text| && "virtual" <= text[i..];
    a, b := text[..i], text[i+7..];
  }

  /** A method of class `c`: virtual if it says so, or if it overrides a virtual method. */
  function NewMethod(ts: Types, ghost rank: Rank, c: string, md: MethodDecl): Method
    requires Ranked(ts.classes, rank) && c in ts.classes
  {
    var overrides := ts.classes[c].HasParent()
                     && HasBase(AllVirtuals(ts, rank, ts.classes[c].parent, []), md.name);
    Method(Mangle(c, md.name), MentionsVirtual(md.text) || overrides)
  }

  /** registerClassMethod. */
  function AddMethod(ts: Types, c: string, m: Method): Types {
    ts.(methods := ts.methods[c := MethodsOf(ts, c) + [m]])
  }

  function AddMethods(ts: Types, ghost rank: Rank, c: string, mds: seq<MethodDecl>): (r: Types)
    requires Ranked(ts.classes, rank) && c in ts.classes
    ensures r.classes == ts.classes
    decreases |mds|
  {
    if mds == [] then ts else AddMethods(AddMethod(ts, c, NewMethod(ts, rank, c, mds[0])), rank, c, mds[1..])
  }

  /** Methods are only ever appended, one per declaration, to their own class. */
  lemma {:induction false} AddMethodsAppends(ts: Types, rank: Rank, c: string, mds: seq<MethodDecl>, x: string)
    requires Ranked(ts.classes, rank) && c in ts.classes
    ensures var r := AddMethods(ts, rank, c, mds);
            && (x != c ==> MethodsOf(r, x) == MethodsOf(ts, x))
            && MethodsOf(ts, c) <= MethodsOf(r, c) && |MethodsOf(r, c)| == |MethodsOf(ts, c)| + |mds|
    decreases |mds|
  {
    if mds != [] {
      var ts1 := AddMethod(ts, c, NewMethod(ts, rank, c, mds[0]));
      assert MethodsOf(ts1, c) == MethodsOf(ts, c) + [NewMethod(ts, rank, c, mds[0])];
      AddMethodsAppends(ts1, rank, c, mds[1..], x);
    }
  }

  /** visitClassDecl, first pass, for a new class or one that was declared before. Methods
      of an earlier declaration stay. The rank says that the walks over the ancestors end,
      which they do exactly if there is no cycle (`Hierarchy.RankedIff`). */
  function DeclareClass(ts: Types, ghost rank: Rank, d: ClassDecl): (r: Outcome<Types>)
    requires Register(ts.classes, d).Done? ==> Ranked(Register(ts.classes, d).value, rank)
    ensures Register(ts.classes, d) == if r.Done? then Done(r.value.classes) else Error(r.message)
  {
    match Register(ts.classes, d)
    case Error(e) => Error(e)
    case Done(cs) =>
      RegisterGives(ts.classes, d);
      Done(AddMethods(ts.(classes := cs), rank, d.name, d.methods))
  }

  ghost predicate Declarable(cs: Classes, ds: seq<ClassDecl>) {
    DeclaredOnce(cs, ds) && forall i :: 0 <= i < |ds| ==> ds[i].parent != ds[i].name
  }

  lemma DeclarableTail(cs: Classes, ds: seq<ClassDecl>)
    requires ds != [] && Declarable(cs, ds) && Register(cs, ds[0]).Done?
    ensures Declarable(Register(cs, ds[0]).value, ds[1..])
  {
    RegisterGives(cs, ds[0]);
    assert forall i :: 0 <= i < |ds[1..]| ==> ds[1..][i] == ds[i+1];
  }

  function DeclareAll(ts: Types, ghost rank: Rank, ghost n: nat, ds: seq<ClassDecl>): (r: Outcome<Types>)
    requires RankedBelow(ts.classes, rank, n) && Declarable(ts.classes, ds)
    ensures r.Done? ==> Ranked(r.value.classes, RankAll(rank, n, ds))
    decreases |ds|
  {
    if ds == [] then Done(ts)
    else
      NewRank(ts.classes, rank, n, ds[0]);
      match DeclareClass(ts, rank[ds[0].name := n], ds[0])
      case Error(e) => Error(e)
      case Done(ts1) =>
        DeclarableTail(ts.classes, ds);
        DeclareAll(ts1, rank[ds[0].name := n], n + 1, ds[1..])
  }

  lemma NewRank(cs: Classes, rank: Rank, n: nat, d: ClassDecl)
    requires RankedBelow(cs, rank, n) && d.name !in cs && d.parent != d.name
    ensures Register(cs, d).Done? ==> RankedBelow(Register(cs, d).value, rank[d.name := n], n + 1)
  {
    if Register(cs, d).Done? { RegisterRanked(cs, rank, n, d); }
  }

  // ---------- what declaring keeps ----------

  /** A method that overrides a virtual method is virtual. */
  ghost predicate ClosedAt(ts: Types, c: string) {
    c in ts.classes && ts.classes[c].HasParent() ==>
      forall m :: m in MethodsOf(ts, c) && VirtualIn(ts, ts.classes[c].parent, BaseName(m.name)) ==> m.isVirtual
  }

  ghost predicate VirtualClosed(ts: Types) {
    forall c {:trigger ClosedAt(ts, c)} :: c in ts.classes ==> ClosedAt(ts, c)
  }

  ghost predicate Sound(ts: Types) {
    && Named(ts) && VirtualClosed(ts)
    && forall c :: c in ts.methods ==> c in ts.classes
  }

  /** The tables differ at most at class `x`. */
  ghost predicate SameBut(ts: Types, us: Types, x: string) {
    && (forall c :: c != x ==> (c in ts.classes <==> c in us.classes))
    && (forall c :: c != x && c in ts.classes ==> ts.classes[c] == us.classes[c])
    && (forall c :: c != x ==> MethodsOf(ts, c) == MethodsOf(us, c))
  }

  lemma UpInside(ts: Types, us: Types, rank: Rank, x: string, c: string, n: nat)
    requires Ranked(ts.classes, rank) && x !in ts.classes && SameBut(ts, us, x) && c in ts.classes
    ensures Up(us.classes, c, n) == Up(ts.classes, c, n)
    ensures forall k :: Up(ts.classes, c, n) == [k] ==> k in ts.classes
  {
    forall j: nat, k | Up(ts.classes, c, j) == [k] ensures k in ts.classes {
      if j > 0 { UpRank(ts.classes, rank, c, j, k); }
    }
    UpSame(ts.classes, us.classes, x, c, n);
  }

  /** A class added below changes nothing for the classes that were there. */
  lemma VirtualInSame(ts: Types, us: Types, rank: Rank, x: string, c: string, b: string)
    requires Ranked(ts.classes, rank) && x !in ts.classes && SameBut(ts, us, x) && c in ts.classes
    ensures VirtualIn(ts, c, b) <==> VirtualIn(us, c, b)
  {
    if VirtualIn(ts, c, b) {
      var n: nat, k :| Up(ts.classes, c, n) == [k] && k in ts.classes && OwnVirtual(ts, k, b);
      UpInside(ts, us, rank, x, c, n);
      assert Up(us.classes, c, n) == [k] && OwnVirtual(us, k, b);
    }
    if VirtualIn(us, c, b) {
      var n: nat, k :| Up(us.classes, c, n) == [k] && k in us.classes && OwnVirtual(us, k, b);
      UpInside(ts, us, rank, x, c, n);
      assert Up(ts.classes, c, n) == [k] && OwnVirtual(ts, k, b);
    }
  }

  /** A method of the new class `x`, judged by the classes `ts` above it. */
  ghost predicate NewMethodOk(ts: Types, x: string, parent: string, m: Method) {
    && m.name == Mangle(x, BaseName(m.name))
    && (parent != "" && VirtualIn(ts, parent, BaseName(m.name)) ==> m.isVirtual)
  }

  lemma {:induction false} AddMethodsOk(ts: Types, rank: Rank, us: Types, rank1: Rank, x: string, mds: seq<MethodDecl>)
    requires Ranked(ts.classes, rank) && Ranked(us.classes, rank1) && SameBut(ts, us, x)
    requires x !in ts.classes && x in us.classes && '_' !in x
    requires us.classes[x].HasParent() ==> us.classes[x].parent in ts.classes
    requires forall m :: m in MethodsOf(us, x) ==> NewMethodOk(ts, x, us.classes[x].parent, m)
    ensures var r := AddMethods(us, rank1, x, mds);
            SameBut(ts, r, x) && forall m :: m in MethodsOf(r, x) ==> NewMethodOk(ts, x, us.classes[x].parent, m)
    ensures forall c :: c in AddMethods(us, rank1, x, mds).methods ==> c == x || c in us.methods
    decreases |mds|
  {
    if mds != [] {
      var m := NewMethod(us, rank1, x, mds[0]);
      var us1 := AddMethod(us, x, m);
      var p := us.classes[x].parent;
      BaseNameIff(x, mds[0].name);
      if p != "" {
        VirtualInSame(ts, us, rank, x, p, mds[0].name);
        AllVirtualsExact(us, rank1, p, mds[0].name);
      }
      assert NewMethodOk(ts, x, p, m);
      assert MethodsOf(us1, x) == MethodsOf(us, x) + [m];
      AddMethodsOk(ts, rank, us1, rank1, x, mds[1..]);
    }
  }

  /** A class of the table after one declaration: the new one, or one that was there. */
  lemma ClassStaysSound(ts: Types, rank: Rank, r: Types, x: string, c: string)
    requires Ranked(ts.classes, rank) && Sound(ts) && x !in ts.classes && SameBut(ts, r, x) && '_' !in x
    requires c in r.classes && (r.classes[c].HasParent() ==> r.classes[c].parent in ts.classes)
    requires c == x ==> forall m :: m in MethodsOf(r, x) ==> NewMethodOk(ts, x, r.classes[x].parent, m)
    ensures NamedIn(r, c) && ClosedAt(r, c)
  {
    if c != x { assert NamedIn(ts, c) && ClosedAt(ts, c); }
    if r.classes[c].HasParent() {
      forall b ensures VirtualIn(ts, r.classes[c].parent, b) <==> VirtualIn(r, r.classes[c].parent, b) {
        VirtualInSame(ts, r, rank, x, r.classes[c].parent, b);
      }
    }
  }

  lemma DeclareClassSound(ts: Types, rank: Rank, rank1: Rank, d: ClassDecl, r: Types)
    requires Ranked(ts.classes, rank) && d.name !in ts.classes && d.parent != d.name && Sound(ts) && '_' !in d.name
    requires Register(ts.classes, d).Done? && Ranked(Register(ts.classes, d).value, rank1)
    requires DeclareClass(ts, rank1, d) == Done(r)
    ensures Sound(r)
  {
    RegisterGives(ts.classes, d);
    var us := ts.(classes := Register(ts.classes, d).value);
    AddMethodsOk(ts, rank, us, rank1, d.name, d.methods);
    forall c | c in r.classes ensures NamedIn(r, c) && ClosedAt(r, c) {
      if c != d.name { assert ParentBelow(ts.classes, rank, c); }
      ClassStaysSound(ts, rank, r, d.name, c);
    }
  }

  lemma {:induction false} DeclareAllSound(ts: Types, rank: Rank, n: nat, ds: seq<ClassDecl>)
    requires RankedBelow(ts.classes, rank, n) && Declarable(ts.classes, ds) && Sound(ts)
    requires forall i :: 0 <= i < |ds| ==> '_' !in ds[i].name
    requires DeclareAll(ts, rank, n, ds).Done?
    ensures Sound(DeclareAll(ts, rank, n, ds).value)
    decreases |ds|
  {
    if ds != [] {
      var rank1 := rank[ds[0].name := n];
      NewRank(ts.classes, rank, n, ds[0]);
      DeclareClassSound(ts, rank, rank1, ds[0], DeclareClass(ts, rank1, ds[0]).value);
      DeclarableTail(ts.classes, ds);
      assert forall i :: 0 <= i < |ds[1..]| ==> ds[1..][i] == ds[i+1];
      DeclareAllSound(DeclareClass(ts, rank1, ds[0]).value, rank1, n + 1, ds[1..]);
    }
  }

  // ---------- the second pass ----------

  /** What a method of class `c` is recorded as, judged by what is virtual above it. */
  ghost function Expected(ts: Types, parent: string, c: string, md: MethodDecl): Method {
    Method(Mangle(c, md.name), MentionsVirtual(md.text) || (parent != "" && VirtualIn(ts, parent, md.name)))
  }

  lemma NewMethodIs(ts: Types, rank: Rank, c: string, md: MethodDecl)
    requires Ranked(ts.classes, rank) && c in ts.classes
    ensures NewMethod(ts, rank, c, md) == Expected(ts, ts.classes[c].parent, c, md)
  {
    if ts.classes[c].HasParent() { AllVirtualsExact(ts, rank, ts.classes[c].parent, md.name); }
  }

  /** Class `d` is recorded in `ts` as `d` is written. */
  ghost predicate Recorded(ts: Types, d: ClassDecl) {
    && d.name in ts.classes && ts.classes[d.name] == ClassType(d.parent, d.fields)
    && (d.parent != "" ==> d.parent in ts.classes)
    && |MethodsOf(ts, d.name)| == |d.methods|
    && forall i :: 0 <= i < |d.methods| ==> MethodsOf(ts, d.name)[i] == Expected(ts, d.parent, d.name, d.methods[i])
  }

  /** The methods `ms` from position `n` on are those of `mds`. */
  ghost predicate AsExpected(ts: Types, parent: string, c: string, ms: seq<Method>, n: nat, mds: seq<MethodDecl>) {
    |ms| == n + |mds| && forall i :: 0 <= i < |mds| ==> ms[n + i] == Expected(ts, parent, c, mds[i])
  }

  lemma {:induction false} AddMethodsExpected(ts: Types, rank: Rank, us: Types, rank1: Rank, x: string,
                                              mds: seq<MethodDecl>)
    requires Ranked(ts.classes, rank) && Ranked(us.classes, rank1) && SameBut(ts, us, x)
    requires x !in ts.classes && x in us.classes
    requires us.classes[x].HasParent() ==> us.classes[x].parent in ts.classes
    ensures var r := AddMethods(us, rank1, x, mds);
            SameBut(ts, r, x) && AsExpected(ts, us.classes[x].parent, x, MethodsOf(r, x), |MethodsOf(us, x)|, mds)
    decreases |mds|
  {
    if mds != [] {
      var p, n := us.classes[x].parent, |MethodsOf(us, x)|;
      var m := NewMethod(us, rank1, x, mds[0]);
      var us1 := AddMethod(us, x, m);
      FirstExpected(ts, rank, us, rank1, x, mds[0]);
      assert MethodsOf(us1, x) == MethodsOf(us, x) + [m];
      AddMethodsExpected(ts, rank, us1, rank1, x, mds[1..]);
      AddMethodsAppends(us1, rank1, x, mds[1..], x);
      ExpectedNext(ts, p, x, MethodsOf(us, x), m, MethodsOf(AddMethods(us1, rank1, x, mds[1..]), x), mds);
    }
  }

  lemma FirstExpected(ts: Types, rank: Rank, us: Types, rank1: Rank, x: string, md: MethodDecl)
    requires Ranked(ts.classes, rank) && Ranked(us.classes, rank1) && SameBut(ts, us, x)
    requires x !in ts.classes && x in us.classes
    requires us.classes[x].HasParent() ==> us.classes[x].parent in ts.classes
    ensures NewMethod(us, rank1, x, md) == Expected(ts, us.classes[x].parent, x, md)
    ensures SameBut(ts, AddMethod(us, x, NewMethod(us, rank1, x, md)), x)
  {
    NewMethodIs(us, rank1, x, md);
    if us.classes[x].HasParent() { VirtualInSame(ts, us, rank, x, us.classes[x].parent, md.name); }
  }

  lemma ExpectedNext(ts: Types, p: string, x: string, before: seq<Method>, m: Method, ms: seq<Method>,
                     mds: seq<MethodDecl>)
    requires mds != [] && m == Expected(ts, p, x, mds[0]) && before + [m] <= ms
    requires AsExpected(ts, p, x, ms, |before| + 1, mds[1..])
    ensures AsExpected(ts, p, x, ms, |before|, mds)
  {
    forall i | 0 <= i < |mds| ensures ms[|before| + i] == Expected(ts, p, x, mds[i]) {
      if i == 0 {
        assert ms[|before|] == (before + [m])[|before|];
      } else {
        assert ms[|before| + 1 + (i - 1)] == Expected(ts, p, x, mds[1..][i-1]);
      }
    }
  }

  lemma DeclareClassRecords(ts: Types, rank: Rank, rank1: Rank, d: ClassDecl)
    requires Ranked(ts.classes, rank) && d.name !in ts.classes && d.parent != d.name && MethodsOf(ts, d.name) == []
    requires Register(ts.classes, d).Done? && Ranked(Register(ts.classes, d).value, rank1)
    ensures DeclareClass(ts, rank1, d).Done? && Recorded(DeclareClass(ts, rank1, d).value, d)
    ensures SameBut(ts, DeclareClass(ts, rank1, d).value, d.name)
  {
    var us := ts.(classes := Register(ts.classes, d).value);
    RegisterGives(ts.classes, d);
    AddMethodsExpected(ts, rank, us, rank1, d.name, d.methods);
    var r := DeclareClass(ts, rank1, d).value;
    forall i | 0 <= i < |d.methods| ensures MethodsOf(r, d.name)[i] == Expected(r, d.parent, d.name, d.methods[i]) {
      assert MethodsOf(r, d.name)[0 + i] == Expected(ts, d.parent, d.name, d.methods[i]);
      if d.parent != "" { VirtualInSame(ts, r, rank, d.name, d.parent, d.methods[i].name); }
    }
  }

  /** A class declared later changes nothing recorded before. */
  lemma StaysRecorded(ts: Types, rank: Rank, us: Types, x: string, d: ClassDecl)
    requires Ranked(ts.classes, rank) && x !in ts.classes && SameBut(ts, us, x) && Recorded(ts, d)
    ensures Recorded(us, d)
  {
    forall i | 0 <= i < |d.methods| ensures MethodsOf(us, d.name)[i] == Expected(us, d.parent, d.name, d.methods[i]) {
      if d.parent != "" { VirtualInSame(ts, us, rank, x, d.parent, d.methods[i].name); }
    }
  }

  /** Only declared classes have methods. */
  ghost predicate NoStrays(ts: Types) {
    forall c :: c !in ts.classes ==> MethodsOf(ts, c) == []
  }

  lemma {:induction false} DeclareAllRecords(ts: Types, rank: Rank, n: nat, ds: seq<ClassDecl>, d: ClassDecl)
    requires RankedBelow(ts.classes, rank, n) && Declarable(ts.classes, ds) && DeclareAll(ts, rank, n, ds).Done?
    requires NoStrays(ts) && (d in ds || Recorded(ts, d))
    ensures Recorded(DeclareAll(ts, rank, n, ds).value, d)
    decreases |ds|
  {
    if ds != [] {
      var rank1 := rank[ds[0].name := n];
      NewRank(ts.classes, rank, n, ds[0]);
      RecordsNext(ts, rank, rank1, ds[0], d);
      DeclarableTail(ts.classes, ds);
      assert ds == [ds[0]] + ds[1..];
      DeclareAllRecords(DeclareClass(ts, rank1, ds[0]).value, rank1, n + 1, ds[1..], d);
    }
  }

  lemma RecordsNext(ts: Types, rank: Rank, rank1: Rank, first: ClassDecl, d: ClassDecl)
    requires Ranked(ts.classes, rank) && first.name !in ts.classes && first.parent != first.name && NoStrays(ts)
    requires Register(ts.classes, first).Done? && Ranked(Register(ts.classes, first).value, rank1)
    ensures DeclareClass(ts, rank1, first).Done? && NoStrays(DeclareClass(ts, rank1, first).value)
    ensures d == first || Recorded(ts, d) ==> Recorded(DeclareClass(ts, rank1, first).value, d)
  {
    DeclareClassRecords(ts, rank, rank1, first);
    if Recorded(ts, d) { StaysRecorded(ts, rank, DeclareClass(ts, rank1, first).value, first.name, d); }
  }

  /** The second pass works out `isVirtual` again, on the finished table, and emits the
      method by it: it comes to what the first pass recorded, for every method. */
  lemma SecondPassAgrees(ds: seq<ClassDecl>, i: nat, j: nat)
    requires Declarable(map[], ds) && DeclareAll(Types(map[], map[]), map[], 0, ds).Done?
    requires i < |ds| && j < |ds[i].methods|
    ensures var ts, rank := DeclareAll(Types(map[], map[]), map[], 0, ds).value, RankAll(map[], 0, ds);
            && ds[i].name in ts.classes && |MethodsOf(ts, ds[i].name)| == |ds[i].methods|
            && NewMethod(ts, rank, ds[i].name, ds[i].methods[j]) == MethodsOf(ts, ds[i].name)[j]
  {
    var ts, rank := DeclareAll(Types(map[], map[]), map[], 0, ds).value, RankAll(map[], 0, ds);
    DeclareAllRecords(Types(map[], map[]), map[], 0, ds, ds[i]);
    NewMethodIs(ts, rank, ds[i].name, ds[i].methods[j]);
  }

  // ---------- dispatch ----------

  lemma CallVirtual(ts: Types, rank: Rank, start: string, c: string, b: string)
    requires Ranked(ts.classes, rank) && Named(ts) && c in ts.classes
    requires var r := CallFrom(ts, rank, start, c, b); r.Found? && r.target.isVirtual
    ensures VirtualIn(ts, c, b)
  {
    CallFindsNearest(ts, rank, start, c, b);
    var m := CallFrom(ts, rank, start, c, b).target;
    var n: nat, k :| Up(ts.classes, c, n) == [k] && Declares(ts, k, b, m);
    if n > 0 { UpRank(ts.classes, rank, c, n, k); }
    assert NamedIn(ts, k);
    BaseNameIff(k, b);
    assert OwnVirtual(ts, k, b);
  }

  /** Once virtual, virtual in every class below, whichever of them overrides it. */
  lemma {:induction false} VirtualBelow(ts: Types, rank: Rank, s: string, d: string, n: nat, b: string)
    requires Ranked(ts.classes, rank) && Sound(ts) && d in ts.classes && Up(ts.classes, d, n) == [s]
    requires var r := CallFrom(ts, rank, s, s, b); r.Found? && r.target.isVirtual
    ensures var r := CallFrom(ts, rank, s, d, b); r.Found? && r.target.isVirtual
    decreases n
  {
    if n > 0 {
      var p := ts.classes[d].parent;
      assert ParentBelow(ts.classes, rank, d);
      VirtualBelow(ts, rank, s, p, n - 1, b);
      CallVirtual(ts, rank, s, p, b);
      assert NamedIn(ts, d) && ClosedAt(ts, d);
      var own := OwnByName(MethodsOf(ts, d), Mangle(d, b));
      if own != [] { BaseNameIff(d, b); }
    }
  }

  lemma {:induction false} SameFromAnyStart(ts: Types, rank: Rank, s: string, t: string, c: string, b: string)
    requires Ranked(ts.classes, rank) && c in ts.classes && CallFrom(ts, rank, s, c, b).Found?
    ensures CallFrom(ts, rank, t, c, b) == CallFrom(ts, rank, s, c, b)
    decreases if c in rank then rank[c] else 0
  {
    assert ParentBelow(ts.classes, rank, c);
    if OwnByName(MethodsOf(ts, c), Mangle(c, b)) == [] && ts.classes[c].HasParent() {
      SameFromAnyStart(ts, rank, s, t, ts.classes[c].parent, b);
    }
  }

  /** Dynamic dispatch. When a call on a variable of class `s` is virtual, then for every
      class `d` at or below `s` the slot exists in the vtable type, and the vtable of `d`
      has exactly one initialiser for it, the nearest declaration at or above `d`, and that
      function is virtual too. The second pass, which emits it, agrees (`SecondPassAgrees`),
      so it gets the slot's signature. */
  lemma Dispatches(ts: Types, rank: Rank, s: string, d: string, n: nat, b: string)
    requires Ranked(ts.classes, rank) && Sound(ts) && d in ts.classes && Up(ts.classes, d, n) == [s]
    requires CallSite(ts, rank, s, b).Found? && CallSite(ts, rank, s, b).target.isVirtual
    ensures b in VTableSlots(ts, rank)
    ensures var r := CallSite(ts, rank, d, b);
            && r.Found? && r.target.isVirtual && Nearest(ts, d, b, r.target)
            && Slot(b, r.target.name) in VTable(ts, rank, d)
            && forall x :: x in VTable(ts, rank, d) && x.name == b ==> x.impl == r.target.name
  {
    VirtualBelow(ts, rank, s, d, n, b);
    SameFromAnyStart(ts, rank, s, d, d, b);
    CallVirtual(ts, rank, d, d, b);
    CallFindsNearest(ts, rank, d, d, b);
    LookupsAgree(ts, rank, d, d, b);
    VTableSlotsExact(ts, rank, b);
    VTableExact(ts, rank, d, b);
  }

  /** The same for a whole program as the first pass declares it. */
  lemma ProgramDispatches(ds: seq<ClassDecl>, s: string, d: string, n: nat, b: string)
    requires Declarable(map[], ds) && forall i :: 0 <= i < |ds| ==> '_' !in ds[i].name
    requires DeclareAll(Types(map[], map[]), map[], 0, ds).Done?
    requires var ts, rank := DeclareAll(Types(map[], map[]), map[], 0, ds).value, RankAll(map[], 0, ds);
             && d in ts.classes && Up(ts.classes, d, n) == [s]
             && CallSite(ts, rank, s, b).Found? && CallSite(ts, rank, s, b).target.isVirtual
    ensures var ts, rank := DeclareAll(Types(map[], map[]), map[], 0, ds).value, RankAll(map[], 0, ds);
            && b in VTableSlots(ts, rank)
            && CallSite(ts, rank, d, b).Found? && CallSite(ts, rank, d, b).target.isVirtual
            && Nearest(ts, d, b, CallSite(ts, rank, d, b).target)
            && Slot(b, CallSite(ts, rank, d, b).target.name) in VTable(ts, rank, d)
            && WellFilled(ts, rank, d, VTable(ts, rank, d))
  {
    var ts, rank := DeclareAll(Types(map[], map[]), map[], 0, ds).value, RankAll(map[], 0, ds);
    DeclareAllSound(Types(map[], map[]), map[], 0, ds);
    Dispatches(ts, rank, s, d, n, b);
    VTableExact(ts, rank, d, b);
  }

  // ---------- where the vtable pointer is ----------

  /** hasVirtualMethods. */
  predicate HasVirtuals(ts: Types, c: string) {
    exists m :: m in MethodsOf(ts, c) && m.isVirtual
  }

  /** visitClassDecl gives the struct of `c` a vtable field of its own. */
  predicate HasVTableField(ts: Types, c: string) {
    c in ts.classes && !ts.classes[c].HasParent() && HasVirtuals(ts, c)
  }

  /** The field named by a virtual call on a variable of class `c` exists. */
  predicate AccessOk(ts: Types, c: string)
    requires c in ts.classes
  {
    if ts.classes[c].HasParent() then HasVTableField(ts, ts.classes[c].parent) else HasVTableField(ts, c)
  }

  /** Some class at or above `c` has the field. */
  ghost predicate FieldAtOrAbove(ts: Types, c: string) {
    exists k :: (k == c || Above(ts.classes, c, k)) && HasVTableField(ts, k)
  }

  /** A virtual call names an existing field exactly when the class is at most one step
      below the topmost class, and the topmost class has the field. */
  lemma AccessOkIff(ts: Types, rank: Rank, c: string)
    requires Ranked(ts.classes, rank) && c in ts.classes
    ensures AccessOk(ts, c) <==> Up(ts.classes, c, 2) == [] && FieldAtOrAbove(ts, c)
  {
    var cs := ts.classes;
    assert ParentBelow(cs, rank, c);
    if cs[c].HasParent() {
      var p := cs[c].parent;
      assert Up(cs, p, 0) == [p] && Up(cs, c, 1) == [p] && Up(cs, c, 2) == Up(cs, p, 1);
      assert Above(cs, c, p);
      if cs[p].HasParent() {
        assert Up(cs, p, 1) == Up(cs, cs[p].parent, 0) != [];
      } else {
        assert Up(cs, p, 1) == [];
        if FieldAtOrAbove(ts, c) {
          var k :| (k == c || Above(cs, c, k)) && HasVTableField(ts, k);
          var n: nat :| n > 0 && Up(cs, c, n) == [k];
          assert Up(cs, p, n - 1) == [k];
          assert k == p;
        }
      }
    } else {
      assert Up(cs, c, 2) == [];
      assert forall k :: !Above(cs, c, k);
    }
  }

  /** Three classes, of which the first has a virtual method. */
  function ThreeLevels(text: string): seq<ClassDecl> {
    [ClassDecl("A", "", [], [MethodDecl("f", text)])] + [ClassDecl("B", "A", [], [])] + [ClassDecl("C", "B", [], [])]
  }

  /** Declaring a class without methods. */
  lemma PlainClass(ts: Types, rank: Rank, name: string, parent: string)
    requires name != parent && parent in ts.classes && parent != ""
    requires Ranked(ts.classes[name := ClassType(parent, [])], rank)
    ensures Register(ts.classes, ClassDecl(name, parent, [], [])) == Done(ts.classes[name := ClassType(parent, [])])
    ensures DeclareClass(ts, rank, ClassDecl(name, parent, [], []))
         == Done(ts.(classes := ts.classes[name := ClassType(parent, [])]))
  {
    RegisterGives(ts.classes, ClassDecl(name, parent, [], []));
  }

  lemma FirstClass(text: string, rank: Rank)
    requires MentionsVirtual(text) && rank == map["A" := 0]
    ensures var d := ClassDecl("A", "", [], [MethodDecl("f", text)]);
            && Register(map[], d) == Done(map["A" := ClassType("", [])])
            && Ranked(map["A" := ClassType("", [])], rank)
            && DeclareClass(Types(map[], map[]), rank, d)
               == Done(Types(map["A" := ClassType("", [])], map["A" := [Method("A_f", true)]]))
  {
    var d := ClassDecl("A", "", [], [MethodDecl("f", text)]);
    var cs := map["A" := ClassType("", [])];
    RegisterGives(map[], d);
    assert map[]["A" := ClassType("", [])] == cs && ParentBelow(cs, rank, "A");
    assert d.methods[1..] == [] && Mangle("A", "f") == "A_f";
    var us := Types(cs, map[]);
    assert NewMethod(us, rank, "A", d.methods[0]) == Method("A_f", true);
    var ms := [Method("A_f", true)];
    assert MethodsOf(us, "A") + ms == ms && us.methods["A" := ms] == map["A" := ms];
    assert AddMethod(us, "A", ms[0]) == Types(cs, map["A" := ms]);
    assert AddMethods(us, rank, "A", d.methods) == AddMethods(Types(cs, map["A" := ms]), rank, "A", []);
  }

  lemma ThreeDeclare(text: string)
    requires MentionsVirtual(text)
    ensures Declarable(map[], ThreeLevels(text))
    ensures DeclareAll(Types(map[], map[]), map[], 0, ThreeLevels(text))
         == Done(Types(map["A" := ClassType("", []), "B" := ClassType("A", []), "C" := ClassType("B", [])],
                       map["A" := [Method("A_f", true)]]))
    ensures RankAll(map[], 0, ThreeLevels(text)) == map["A" := 0, "B" := 1, "C" := 2]
  {
    var a, b, c := ThreeLevels(text)[0], ThreeLevels(text)[1], ThreeLevels(text)[2];
    var t0 := Types(map[], map[]);
    var t1 := Types(map["A" := ClassType("", [])], map["A" := [Method("A_f", true)]]);
    var t2 := t1.(classes := t1.classes["B" := ClassType("A", [])]);
    var t3 := t2.(classes := t2.classes["C" := ClassType("B", [])]);
    assert ThreeLevels(text)[1..] == [b] + [c] && ([b] + [c])[1..] == [c] && [c][1..] == [];
    var r0: Rank, r1, r2 := map[], map["A" := 0], map["A" := 0, "B" := 1];
    assert r0["A" := 0] == r1 && r1["B" := 1] == r2;
    FirstClass(text, r1);
    NewRank(t0.classes, r0, 0, a);
    NewRank(t1.classes, r1, 1, b);
    PlainClass(t1, r2, "B", "A");
    NewRank(t2.classes, r2, 2, c);
    PlainClass(t2, r2["C" := 2], "C", "B");
    assert DeclareAll(t3, r2["C" := 2], 3, []) == Done(t3);
    assert DeclareAll(t2, r2, 2, [c]) == Done(t3);
    assert DeclareAll(t1, r1, 1, [b] + [c]) == Done(t3);
  }

  /** The code accepts them; a virtual call on the third is found, and names a missing
      field. */
  lemma ThirdLevelMisses(text: string)
    requires MentionsVirtual(text)
    ensures Declarable(map[], ThreeLevels(text))
    ensures var r := DeclareAll(Types(map[], map[]), map[], 0, ThreeLevels(text));
            && r.Done? && "C" in r.value.classes
            && CallSite(r.value, RankAll(map[], 0, ThreeLevels(text)), "C", "f") == Found(Method("A_f", true))
            && !AccessOk(r.value, "C")
  {
    var ds, rank := ThreeLevels(text), RankAll(map[], 0, ThreeLevels(text));
    var cs := map["A" := ClassType("", []), "B" := ClassType("A", []), "C" := ClassType("B", [])];
    ThreeDeclare(text);
    var ts := DeclareAll(Types(map[], map[]), map[], 0, ds).value;
    assert ParentBelow(cs, rank, "C") && ParentBelow(cs, rank, "B");
    assert OwnByName([], "C_f") == [] && OwnByName([], "B_f") == [];
    assert Mangle("A", "f") == "A_f" && Mangle("B", "f") == "B_f" && Mangle("C", "f") == "C_f";
    assert CallFrom(ts, rank, "C", "A", "f") == Found(Method("A_f", true));
    assert CallFrom(ts, rank, "C", "B", "f") == Found(Method("A_f", true));
  }
}

