/** What walking up the parent chain finds: subclasses, members, virtual methods, method
    implementations and vtables (src/types/TypeSystem.cpp), and the lookup of a method
    call (visitMethodCallExpr in src/ast/TranspilerVisitor.cpp). */
module Dispatch {
  import opened Mangling
  import opened Hierarchy

  // ---------- subclasses and members ----------

  /** isSubclassOf. */
  predicate IsSubclass(cs: Classes, ghost rank: Rank, c: string, p: string)
    requires Ranked(cs, rank)
    decreases if c in rank then rank[c] else 0
  {
    if c !in cs || !cs[c].HasParent() then false
    else
      assert ParentBelow(cs, rank, c);
      cs[c].parent == p || IsSubclass(cs, rank, cs[c].parent, p)
  }

  /** isSubclassOf decides the strict transitive closure of the parent relation. */
  lemma {:induction false} SubclassIsClosure(cs: Classes, rank: Rank, c: string, p: string)
    requires Ranked(cs, rank)
    ensures IsSubclass(cs, rank, c, p) <==> Above(cs, c, p)
    decreases if c in rank then rank[c] else 0
  {
    if c in cs && cs[c].HasParent() {
      assert ParentBelow(cs, rank, c);
      var q := cs[c].parent;
      SubclassIsClosure(cs, rank, q, p);
      if q == p { assert Up(cs, c, 1) == Up(cs, q, 0) == [p]; }
      if Above(cs, q, p) {
        var n: nat :| n > 0 && Up(cs, q, n) == [p];
        assert Up(cs, c, n + 1) == [p];
      }
      if Above(cs, c, p) {
        var n: nat :| n > 0 && Up(cs, c, n) == [p];
        assert Up(cs, q, n - 1) == [p];
        if n == 1 { assert q == p; }
      }
    }
  }

  /** The types a variable can have here, printed as C spells them. */
  datatype Base = Void | Int | Bool | Struct(name: string) | Class(name: string) {
    function Spelling(): string {
      match this
      case Void => "void"
      case Int => "int"
      case Bool => "bool"
      case Struct(n) => "struct " + n
      case Class(n) => "struct " + n
    }
  }
  datatype Type = Type(base: Base, isPointer: bool) {
    function ToString(): string { base.Spelling() + (if isPointer then "*" else "") }
  }

  /** isCompatible. */
  predicate IsCompatible(cs: Classes, ghost rank: Rank, from: Type, to: Type)
    requires Ranked(cs, rank)
  {
    || from.ToString() == to.ToString()
    || (from.isPointer && to.isPointer && from.base.Class? && to.base.Class?
        && IsSubclass(cs, rank, from.base.name, to.base.name))
  }

  /** C spells both the same: struct and class types go by their name. */
  predicate SameSpelling(a: Base, b: Base) { a == b || (IsNamed(a) && IsNamed(b) && a.name == b.name) }

  predicate IsNamed(b: Base) { b.Struct? || b.Class? }

  /** The name of `b` is that of `a` and a star, which no identifier ends with. */
  predicate StarredName(a: Base, b: Base) { IsNamed(a) && IsNamed(b) && b.name == a.name + "*" }

  lemma SameText(s: Type, t: Type)
    ensures s.ToString() == t.ToString() <==>
            if s.isPointer == t.isPointer then SameSpelling(s.base, t.base)
            else if s.isPointer then StarredName(s.base, t.base)
            else StarredName(t.base, s.base)
  {
    var a, b := s.base.Spelling(), t.base.Spelling();
    assert a + "" == a && b + "" == b;
    assert s.isPointer ==> s.ToString()[..|a|] == a && s.ToString()[|a|] == '*';
    assert t.isPointer ==> t.ToString()[..|b|] == b && t.ToString()[|b|] == '*';
    SpellingIff(s.base, t.base);
    StarIff(s.base, t.base);
    StarIff(t.base, s.base);
  }

  lemma SpellingIff(a: Base, b: Base)
    ensures a.Spelling() == b.Spelling() <==> SameSpelling(a, b)
  {
    if IsNamed(a) { assert a.Spelling()[0] == 's' && a.Spelling()[7..] == a.name; }
    if IsNamed(b) { assert b.Spelling()[0] == 's' && b.Spelling()[7..] == b.name; }
  }

  lemma StarIff(a: Base, b: Base)
    ensures a.Spelling() + "*" == b.Spelling() <==> StarredName(a, b)
  {
    var s, t := a.Spelling() + "*", b.Spelling();
    if IsNamed(a) { assert s[0] == 's' && s[7..] == a.name + "*"; }
    if IsNamed(b) { assert t[0] == 's' && t[7..] == b.name; }
    if StarredName(a, b) { assert s == "struct " + (a.name + "*"); }
    if !IsNamed(b) { assert s[|s|-1] == '*' && t[|t|-1] != '*'; }
  }

  /** isCompatible, for all types: the same type in C, or pointers to a class and to a class
      above it. Names ending with a star do not come out of the parser. */
  lemma CompatibleExact(cs: Classes, rank: Rank, from: Type, to: Type)
    requires Ranked(cs, rank)
    ensures IsCompatible(cs, rank, from, to) <==>
            if from.isPointer == to.isPointer
            then
              || SameSpelling(from.base, to.base)
              || (from.isPointer && from.base.Class? && to.base.Class? && Above(cs, from.base.name, to.base.name))
            else if from.isPointer then StarredName(from.base, to.base)
            else StarredName(to.base, from.base)
  {
    SameText(from, to);
    if from.base.Class? && to.base.Class? { SubclassIsClosure(cs, rank, from.base.name, to.base.name); }
  }

  function ClassPointer(c: string): Type { Type(Class(c), true) }

  /** Compatibility of class pointers: the class itself or a class above it. */
  lemma CompatibleIff(cs: Classes, rank: Rank, c: string, d: string)
    requires Ranked(cs, rank)
    ensures IsCompatible(cs, rank, ClassPointer(c), ClassPointer(d)) <==> c == d || Above(cs, c, d)
  {
    SameText(ClassPointer(c), ClassPointer(d));
    SubclassIsClosure(cs, rank, c, d);
  }

  lemma AboveOnlyDeclared(cs: Classes, c: string, d: string)
    requires Above(cs, c, d)
    ensures c in cs
  {}

  /** Assignability between class pointers is a partial order. */
  lemma CompatiblePartialOrder(cs: Classes, rank: Rank, c: string, d: string, e: string)
    requires Ranked(cs, rank)
    ensures IsCompatible(cs, rank, ClassPointer(c), ClassPointer(c))
    ensures (IsCompatible(cs, rank, ClassPointer(c), ClassPointer(d))
             && IsCompatible(cs, rank, ClassPointer(d), ClassPointer(c))) ==> c == d
    ensures (IsCompatible(cs, rank, ClassPointer(c), ClassPointer(d))
             && IsCompatible(cs, rank, ClassPointer(d), ClassPointer(e)))
        ==> IsCompatible(cs, rank, ClassPointer(c), ClassPointer(e))
  {
    CompatibleIff(cs, rank, c, c);
    CompatibleIff(cs, rank, c, d);
    CompatibleIff(cs, rank, d, c);
    CompatibleIff(cs, rank, d, e);
    CompatibleIff(cs, rank, c, e);
    if Above(cs, c, d) && Above(cs, d, c) {
      AboveTransitive(cs, c, d, c);
      AboveOnlyDeclared(cs, c, c);
      RankedAcyclic(cs, rank);
      assert false;
    }
    if Above(cs, c, d) && Above(cs, d, e) { AboveTransitive(cs, c, d, e); }
  }

  /** getAllClassMembers: the parent's members first. */
  function AllMembers(cs: Classes, ghost rank: Rank, c: string): Outcome<seq<Field>>
    requires Ranked(cs, rank)
    decreases if c in rank then rank[c] else 0
  {
    if c !in cs then Error("Class not found: " + c)
    else if !cs[c].HasParent() then Done(cs[c].members)
    else
      assert ParentBelow(cs, rank, c);
      match AllMembers(cs, rank, cs[c].parent)
      case Error(e) => Error(e)
      case Done(ms) => Done(ms + cs[c].members)
  }

  /** The members that the class `n` steps above `c` declares itself. */
  function MembersAt(cs: Classes, c: string, n: nat): seq<Field> {
    var k := Up(cs, c, n);
    if k != [] && k[0] in cs then cs[k[0]].members else []
  }

  /** The members declared less than `n` steps above `c`, the highest class first. */
  function Layout(cs: Classes, c: string, n: nat): seq<Field>
    decreases n
  {
    if n == 0 then [] else MembersAt(cs, c, n - 1) + Layout(cs, c, n - 1)
  }

  lemma {:induction false} LayoutUp(cs: Classes, c: string, n: nat)
    requires c in cs && cs[c].HasParent()
    ensures Layout(cs, c, n + 1) == Layout(cs, cs[c].parent, n) + cs[c].members
    decreases n
  {
    if n > 0 { LayoutUp(cs, c, n - 1); }
  }

  /** The layout of a class is that of its whole chain, and ends with its own members. */
  lemma {:induction false} LayoutExact(cs: Classes, rank: Rank, c: string) returns (n: nat)
    requires Ranked(cs, rank)
    ensures c !in cs ==> AllMembers(cs, rank, c) == Error("Class not found: " + c)
    ensures c in cs ==> && Up(cs, c, n) == [] && AllMembers(cs, rank, c) == Done(Layout(cs, c, n))
                        && exists ms :: AllMembers(cs, rank, c) == Done(ms + cs[c].members)
    decreases if c in rank then rank[c] else 0
  {
    n := 0;
    if c in cs && cs[c].HasParent() {
      assert ParentBelow(cs, rank, c);
      var m := LayoutExact(cs, rank, cs[c].parent);
      n := m + 1;
      LayoutUp(cs, c, m);
    } else if c in cs {
      n := 1;
      var own := cs[c].members;
      assert MembersAt(cs, c, 0) == own && Layout(cs, c, 0) == [] && own + [] == [] + own == own;
    }
  }

  /** `f` is declared in `c` or in a class above it. */
  ghost predicate MemberIn(cs: Classes, c: string, f: Field) {
    exists n: nat :: f in MembersAt(cs, c, n)
  }

  lemma {:induction false} LayoutHas(cs: Classes, c: string, n: nat, f: Field)
    ensures f in Layout(cs, c, n) <==> exists i: nat :: i < n && f in MembersAt(cs, c, i)
    decreases n
  {
    if n > 0 { LayoutHas(cs, c, n - 1, f); }
  }

  lemma {:induction false} UpEnded(cs: Classes, c: string, n: nat, m: nat)
    requires Up(cs, c, n) == [] && n <= m
    ensures Up(cs, c, m) == []
    decreases n
  {
    if n > 0 && c in cs && cs[c].HasParent() { UpEnded(cs, cs[c].parent, n - 1, m - 1); }
  }

  /** A class has exactly the members declared in it or above it. */
  lemma MemberIff(cs: Classes, rank: Rank, c: string, f: Field)
    requires Ranked(cs, rank) && c in cs
    ensures AllMembers(cs, rank, c).Done? && (f in AllMembers(cs, rank, c).value <==> MemberIn(cs, c, f))
  {
    var n := LayoutExact(cs, rank, c);
    LayoutHas(cs, c, n, f);
    forall m: nat | f in MembersAt(cs, c, m) ensures m < n {
      if n <= m { UpEnded(cs, c, n, m); }
    }
  }

  /** The layout of an ancestor is a prefix of the layout of its descendants. */
  lemma {:induction false} AncestorLayoutIsPrefix(cs: Classes, rank: Rank, c: string, n: nat, a: string)
    requires Ranked(cs, rank) && c in cs && Up(cs, c, n) == [a]
    ensures AllMembers(cs, rank, a).Done? && AllMembers(cs, rank, c).Done?
    ensures AllMembers(cs, rank, a).value <= AllMembers(cs, rank, c).value
    decreases n
  {
    var _ := LayoutExact(cs, rank, c);
    if n > 0 {
      assert ParentBelow(cs, rank, c);
      AncestorLayoutIsPrefix(cs, rank, cs[c].parent, n - 1, a);
    }
  }

  // ---------- virtual methods ----------

  predicate HasName(ms: seq<Method>, name: string) {
    exists m :: m in ms && m.name == name
  }

  /** One class's turn in getAllVirtualMethods: its virtual methods not yet seen. */
  function Gather(ms: seq<Method>, acc: seq<Method>): seq<Method>
    decreases |ms|
  {
    if ms == [] then acc
    else Gather(ms[1..], if ms[0].isVirtual && !HasName(acc, ms[0].name) then acc + [ms[0]] else acc)
  }

  /** getAllVirtualMethods from `c` upwards, after the methods in `acc`. */
  function AllVirtuals(ts: Types, ghost rank: Rank, c: string, acc: seq<Method>): seq<Method>
    requires Ranked(ts.classes, rank)
    decreases if c in rank then rank[c] else 0
  {
    if c !in ts.classes then acc
    else
      assert ParentBelow(ts.classes, rank, c);
      var acc1 := Gather(MethodsOf(ts, c), acc);
      if !ts.classes[c].HasParent() then acc1 else AllVirtuals(ts, rank, ts.classes[c].parent, acc1)
  }

  predicate HasBase(ms: seq<Method>, b: string) {
    exists m :: m in ms && BaseName(m.name) == b
  }

  /** `c` itself has a virtual method called `b`. */
  ghost predicate OwnVirtual(ts: Types, c: string, b: string) {
    exists m :: m in MethodsOf(ts, c) && m.isVirtual && BaseName(m.name) == b
  }

  /** `c` or a class above it has a virtual method called `b`. */
  ghost predicate VirtualIn(ts: Types, c: string, b: string) {
    exists n: nat, k :: Up(ts.classes, c, n) == [k] && k in ts.classes && OwnVirtual(ts, k, b)
  }

  lemma VirtualInStep(ts: Types, c: string, b: string)
    requires c in ts.classes
    ensures VirtualIn(ts, c, b)
       <==> OwnVirtual(ts, c, b) || (ts.classes[c].HasParent() && VirtualIn(ts, ts.classes[c].parent, b))
  {
    var cs := ts.classes;
    if OwnVirtual(ts, c, b) { assert Up(cs, c, 0) == [c]; }
    if cs[c].HasParent() && VirtualIn(ts, cs[c].parent, b) {
      var n: nat, k :| Up(cs, cs[c].parent, n) == [k] && k in cs && OwnVirtual(ts, k, b);
      assert Up(cs, c, n + 1) == [k];
    }
    if VirtualIn(ts, c, b) {
      var n: nat, k :| Up(cs, c, n) == [k] && k in cs && OwnVirtual(ts, k, b);
      if n > 0 { assert Up(cs, cs[c].parent, n - 1) == [k]; }
    }
  }

  lemma {:induction false} GatherBase(ms: seq<Method>, acc: seq<Method>, b: string)
    ensures HasBase(Gather(ms, acc), b)
       <==> HasBase(acc, b) || exists m :: m in ms && m.isVirtual && BaseName(m.name) == b
    decreases |ms|
  {
    if ms != [] {
      var acc1 := if ms[0].isVirtual && !HasName(acc, ms[0].name) then acc + [ms[0]] else acc;
      assert ms == [ms[0]] + ms[1..];
      GatherBase(ms[1..], acc1, b);
      GatherOne(ms[0], acc, b);
    }
  }

  lemma GatherOne(m: Method, acc: seq<Method>, b: string)
    ensures var acc1 := if m.isVirtual && !HasName(acc, m.name) then acc + [m] else acc;
            HasBase(acc1, b) <==> HasBase(acc, b) || (m.isVirtual && BaseName(m.name) == b)
  {
    if m.isVirtual && !HasName(acc, m.name) {
      assert m in acc + [m];
      if HasBase(acc, b) {
        var a :| a in acc && BaseName(a.name) == b;
        assert a in acc + [m];
      }
    }
  }

  lemma {:induction false} AllVirtualsBase(ts: Types, rank: Rank, c: string, acc: seq<Method>, b: string)
    requires Ranked(ts.classes, rank)
    ensures HasBase(AllVirtuals(ts, rank, c, acc), b) <==> HasBase(acc, b) || VirtualIn(ts, c, b)
    decreases if c in rank then rank[c] else 0
  {
    var cs := ts.classes;
    if c in cs {
      assert ParentBelow(cs, rank, c);
      GatherBase(MethodsOf(ts, c), acc, b);
      VirtualInStep(ts, c, b);
      if cs[c].HasParent() {
        AllVirtualsBase(ts, rank, cs[c].parent, Gather(MethodsOf(ts, c), acc), b);
      }
    } else {
      assert forall n: nat :: n > 0 ==> Up(cs, c, n) == [];
    }
  }

  /** getAllVirtualMethods names exactly the methods virtual in the class or above it. */
  lemma AllVirtualsExact(ts: Types, rank: Rank, c: string, b: string)
    requires Ranked(ts.classes, rank)
    ensures HasBase(AllVirtuals(ts, rank, c, []), b) <==> VirtualIn(ts, c, b)
  {
    AllVirtualsBase(ts, rank, c, [], b);
  }

  // ---------- finding a method ----------

  /** The first method of a class called `b`, by its base name. */
  function OwnByBase(ms: seq<Method>, b: string): (r: seq<Method>)
    ensures |r| <= 1
    ensures r != [] ==> r[0] in ms && BaseName(r[0].name) == b
    ensures r == [] ==> !HasBase(ms, b)
    decreases |ms|
  {
    if ms == [] then [] else if BaseName(ms[0].name) == b then [ms[0]] else OwnByBase(ms[1..], b)
  }

  /** The first method of a class with the given emitted name. */
  function OwnByName(ms: seq<Method>, name: string): (r: seq<Method>)
    ensures |r| <= 1
    ensures r != [] ==> r[0] in ms && r[0].name == name
    ensures r == [] ==> !HasName(ms, name)
    decreases |ms|
  {
    if ms == [] then [] else if ms[0].name == name then [ms[0]] else OwnByName(ms[1..], name)
  }

  /** `i` is the first position of a method called `b`, and of one with the emitted name `b`. */
  predicate FirstBase(ms: seq<Method>, b: string, i: nat) {
    i < |ms| && BaseName(ms[i].name) == b && forall j :: 0 <= j < i ==> BaseName(ms[j].name) != b
  }

  predicate FirstName(ms: seq<Method>, name: string, i: nat) {
    i < |ms| && ms[i].name == name && forall j :: 0 <= j < i ==> ms[j].name != name
  }

  /** Both searches take the first method they find. */
  lemma {:induction false} OwnByBaseFirst(ms: seq<Method>, b: string, i: nat)
    requires FirstBase(ms, b, i)
    ensures OwnByBase(ms, b) == [ms[i]]
    decreases i
  {
    if i > 0 { OwnByBaseFirst(ms[1..], b, i - 1); }
  }

  lemma {:induction false} OwnByNameFirst(ms: seq<Method>, name: string, i: nat)
    requires FirstName(ms, name, i)
    ensures OwnByName(ms, name) == [ms[i]]
    decreases i
  {
    if i > 0 { OwnByNameFirst(ms[1..], name, i - 1); }
  }

  /** The walk of findMethodImplementation. */
  function FindFrom(ts: Types, ghost rank: Rank, c: string, b: string): seq<string>
    requires Ranked(ts.classes, rank)
    decreases if c in rank then rank[c] else 0
  {
    var own := OwnByBase(MethodsOf(ts, c), b);
    if own != [] then [own[0].name]
    else if c !in ts.classes || !ts.classes[c].HasParent() then []
    else
      assert ParentBelow(ts.classes, rank, c);
      FindFrom(ts, rank, ts.classes[c].parent, b)
  }

  /** findMethodImplementation: with the class's own emitted name where the walk fails. */
  function FindImplementation(ts: Types, ghost rank: Rank, c: string, b: string): string
    requires Ranked(ts.classes, rank)
  {
    var found := FindFrom(ts, rank, c, b);
    if found != [] then found[0] else Mangle(c, b)
  }

  datatype CallTarget = Found(target: Method) | NotFound(message: string)

  /** The walk of visitMethodCallExpr, for a call on a variable of class `start`. */
  function CallFrom(ts: Types, ghost rank: Rank, start: string, c: string, b: string): CallTarget
    requires Ranked(ts.classes, rank)
    decreases if c in rank then rank[c] else 0
  {
    var own := OwnByName(MethodsOf(ts, c), Mangle(c, b));
    if own != [] then Found(own[0])
    else if c !in ts.classes || !ts.classes[c].HasParent() then
      NotFound("Method not found: " + b + " in class " + start)
    else
      assert ParentBelow(ts.classes, rank, c);
      CallFrom(ts, rank, start, ts.classes[c].parent, b)
  }

  function CallSite(ts: Types, ghost rank: Rank, c: string, b: string): CallTarget
    requires Ranked(ts.classes, rank)
  {
    CallFrom(ts, rank, c, c, b)
  }

  /** Registered methods carry their class's name, and the class name has no underscore. */
  ghost predicate NamedIn(ts: Types, c: string) {
    && '_' !in c
    && (forall m :: m in MethodsOf(ts, c) ==> m.name == Mangle(c, BaseName(m.name)))
  }

  ghost predicate Named(ts: Types) {
    forall c {:trigger NamedIn(ts, c)} :: c in ts.classes ==> NamedIn(ts, c)
  }

  /** `m` is the method `b` of class `k`. */
  ghost predicate Declares(ts: Types, k: string, b: string, m: Method) {
    m in MethodsOf(ts, k) && m.name == Mangle(k, b)
  }

  lemma {:induction false} OwnAgree(ms: seq<Method>, c: string, b: string)
    requires '_' !in c && forall m :: m in ms ==> m.name == Mangle(c, BaseName(m.name))
    ensures OwnByBase(ms, b) == OwnByName(ms, Mangle(c, b))
    decreases |ms|
  {
    if ms != [] {
      BaseNameIff(c, b);
      assert ms[0] in ms;
      OwnAgree(ms[1..], c, b);
    }
  }

  /** The call site and the vtable agree on which function a method name means. */
  lemma {:induction false} LookupsAgree(ts: Types, rank: Rank, start: string, c: string, b: string)
    requires Ranked(ts.classes, rank) && Named(ts) && c in ts.classes
    ensures FindFrom(ts, rank, c, b) != [] <==> CallFrom(ts, rank, start, c, b).Found?
    ensures CallFrom(ts, rank, start, c, b).Found?
        ==> FindFrom(ts, rank, c, b) == [CallFrom(ts, rank, start, c, b).target.name]
    decreases if c in rank then rank[c] else 0
  {
    assert ParentBelow(ts.classes, rank, c);
    assert NamedIn(ts, c);
    OwnAgree(MethodsOf(ts, c), c, b);
    if OwnByBase(MethodsOf(ts, c), b) == [] && ts.classes[c].HasParent() {
      LookupsAgree(ts, rank, start, ts.classes[c].parent, b);
    }
  }

  /** What a successful lookup returns: the nearest declaration at or above the class. */
  ghost predicate Nearest(ts: Types, c: string, b: string, m: Method) {
    exists n: nat, k :: Up(ts.classes, c, n) == [k] && Declares(ts, k, b, m) && NoneBelow(ts, c, b, n)
  }

  ghost predicate NoneBelow(ts: Types, c: string, b: string, n: nat) {
    forall j: nat, k, m :: j < n && Up(ts.classes, c, j) == [k] ==> !Declares(ts, k, b, m)
  }

  lemma {:induction false} CallFindsNearest(ts: Types, rank: Rank, start: string, c: string, b: string)
    requires Ranked(ts.classes, rank) && c in ts.classes
    ensures var r := CallFrom(ts, rank, start, c, b);
            if r.Found? then Nearest(ts, c, b, r.target) else forall n: nat :: NoneBelow(ts, c, b, n)
    decreases if c in rank then rank[c] else 0
  {
    var cs := ts.classes;
    assert ParentBelow(cs, rank, c);
    var own := OwnByName(MethodsOf(ts, c), Mangle(c, b));
    if own != [] {
      assert Up(cs, c, 0) == [c] && Declares(ts, c, b, own[0]) && NoneBelow(ts, c, b, 0);
    } else {
      assert forall m :: !Declares(ts, c, b, m);
      if cs[c].HasParent() {
        var p := cs[c].parent;
        CallFindsNearest(ts, rank, start, p, b);
        forall n: nat | NoneBelow(ts, p, b, n) ensures NoneBelow(ts, c, b, n + 1) { NoneBelowUp(ts, c, b, n); }
        var r := CallFrom(ts, rank, start, c, b);
        if r.Found? {
          var n: nat, k :| Up(cs, p, n) == [k] && Declares(ts, k, b, r.target) && NoneBelow(ts, p, b, n);
          assert Up(cs, c, n + 1) == [k];
        } else {
          forall n: nat ensures NoneBelow(ts, c, b, n) {
            if n > 0 { assert NoneBelow(ts, p, b, n - 1); assert NoneBelow(ts, c, b, n - 1 + 1); }
          }
        }
      } else {
        assert forall n: nat :: n > 0 ==> Up(cs, c, n) == [];
      }
    }
  }

  lemma NoneBelowUp(ts: Types, c: string, b: string, n: nat)
    requires c in ts.classes && ts.classes[c].HasParent() && NoneBelow(ts, ts.classes[c].parent, b, n)
    requires forall m :: !Declares(ts, c, b, m)
    ensures NoneBelow(ts, c, b, n + 1)
  {
    forall j: nat, k, m | j < n + 1 && Up(ts.classes, c, j) == [k] ensures !Declares(ts, k, b, m) {
      if j > 0 { assert Up(ts.classes, ts.classes[c].parent, j - 1) == [k]; }
    }
  }

  // ---------- vtables ----------

  /** generateVTableStruct: one slot per virtual method name of the program. */
  ghost function VTableSlots(ts: Types, rank: Rank): set<string>
    requires Ranked(ts.classes, rank)
  {
    set c, m | c in ts.classes && m in AllVirtuals(ts, rank, c, []) :: BaseName(m.name)
  }

  datatype Slot = Slot(name: string, impl: string)

  predicate HasSlot(slots: seq<Slot>, b: string) {
    exists s :: s in slots && s.name == b
  }

  /** The loop of generateVTableInstance, after the slots in `acc`. */
  function Fill(ts: Types, ghost rank: Rank, c: string, ms: seq<Method>, acc: seq<Slot>): seq<Slot>
    requires Ranked(ts.classes, rank)
    decreases |ms|
  {
    if ms == [] then acc
    else
      var b := BaseName(ms[0].name);
      Fill(ts, rank, c, ms[1..],
           if HasSlot(acc, b) then acc else acc + [Slot(b, FindImplementation(ts, rank, c, b))])
  }

  /** generateVTableInstance: the initialisers of `c`_vtable. */
  function VTable(ts: Types, ghost rank: Rank, c: string): seq<Slot>
    requires Ranked(ts.classes, rank)
  {
    Fill(ts, rank, c, AllVirtuals(ts, rank, c, []), [])
  }

  /** Each slot once, and each holding what findMethodImplementation says. */
  ghost predicate WellFilled(ts: Types, rank: Rank, c: string, slots: seq<Slot>)
    requires Ranked(ts.classes, rank)
  {
    && (forall i, j :: 0 <= i < j < |slots| ==> slots[i].name != slots[j].name)
    && (forall s :: s in slots ==> s.impl == FindImplementation(ts, rank, c, s.name))
  }

  lemma {:induction false} FillExact(ts: Types, rank: Rank, c: string, ms: seq<Method>, acc: seq<Slot>, b: string)
    requires Ranked(ts.classes, rank) && WellFilled(ts, rank, c, acc)
    ensures WellFilled(ts, rank, c, Fill(ts, rank, c, ms, acc))
    ensures HasSlot(Fill(ts, rank, c, ms, acc), b) <==> HasSlot(acc, b) || HasBase(ms, b)
    decreases |ms|
  {
    if ms != [] {
      assert ms == [ms[0]] + ms[1..];
      var x := BaseName(ms[0].name);
      var acc1 := if HasSlot(acc, x) then acc else acc + [Slot(x, FindImplementation(ts, rank, c, x))];
      FillOne(ts, rank, c, x, acc, b);
      FillExact(ts, rank, c, ms[1..], acc1, b);
    }
  }

  lemma FillOne(ts: Types, rank: Rank, c: string, x: string, acc: seq<Slot>, b: string)
    requires Ranked(ts.classes, rank) && WellFilled(ts, rank, c, acc)
    ensures var acc1 := if HasSlot(acc, x) then acc else acc + [Slot(x, FindImplementation(ts, rank, c, x))];
            WellFilled(ts, rank, c, acc1) && (HasSlot(acc1, b) <==> HasSlot(acc, b) || b == x)
  {
    if !HasSlot(acc, x) {
      var s := Slot(x, FindImplementation(ts, rank, c, x));
      assert s in acc + [s];
      if HasSlot(acc, b) {
        var a :| a in acc && a.name == b;
        assert a in acc + [s];
      }
    }
  }

  /** A class's vtable has exactly one slot for each method virtual in it or above it. */
  lemma VTableExact(ts: Types, rank: Rank, c: string, b: string)
    requires Ranked(ts.classes, rank)
    ensures WellFilled(ts, rank, c, VTable(ts, rank, c))
    ensures HasSlot(VTable(ts, rank, c), b) <==> VirtualIn(ts, c, b)
  {
    FillExact(ts, rank, c, AllVirtuals(ts, rank, c, []), [], b);
    AllVirtualsExact(ts, rank, c, b);
  }

  lemma VTableSlotsExact(ts: Types, rank: Rank, b: string)
    requires Ranked(ts.classes, rank)
    ensures b in VTableSlots(ts, rank) <==> exists c :: c in ts.classes && VirtualIn(ts, c, b)
  {
    forall c ensures HasBase(AllVirtuals(ts, rank, c, []), b) <==> VirtualIn(ts, c, b) {
      AllVirtualsExact(ts, rank, c, b);
    }
  }
}

