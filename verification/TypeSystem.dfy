/** The type system as the object the visitor updates and queries
    (src/types/TypeSystem.cpp). The walks up the parent chain take the rank that makes
    them end as a ghost argument. */
module TypeSystems {
  import opened Mangling
  import opened Hierarchy
  import opened Dispatch
  import opened Overriding

  class TypeSystem {
    var classes: Classes
    var methods: map<string, seq<Method>>

    constructor ()
      ensures Value() == Types(map[], map[])
    {
      classes := map[];
      methods := map[];
    }

    function Value(): Types reads this { Types(classes, methods) }

    method RegisterClass(name: string)
      modifies this
      ensures Value() == old(Value()).(classes := old(classes)[name := ClassType("", [])])
    {
      classes := classes[name := ClassType("", [])];
    }

    method SetClassParent(name: string, parent: string) returns (r: Outcome<()>)
      modifies this
      ensures name !in old(classes) ==> r == Error("Class not found: " + name)
      ensures name in old(classes) && parent !in old(classes) ==> r == Error("Parent class not found: " + parent)
      ensures r.Done? <==> name in old(classes) && parent in old(classes)
      ensures Value() == if r.Done? then
                           old(Value()).(classes := old(classes)[name := old(classes)[name].(parent := parent)])
                         else old(Value())
    {
      if name !in classes { return Error("Class not found: " + name); }
      if parent !in classes { return Error("Parent class not found: " + parent); }
      classes := classes[name := classes[name].(parent := parent)];
      r := Done(());
    }

    method SetClassMembers(name: string, members: seq<Field>) returns (r: Outcome<()>)
      modifies this
      ensures name !in old(classes) ==> r == Error("Class not found: " + name) && Value() == old(Value())
      ensures name in old(classes) ==>
                r.Done? && Value()
                        == old(Value()).(classes := old(classes)[name := old(classes)[name].(members := members)])
    {
      if name !in classes { return Error("Class not found: " + name); }
      classes := classes[name := classes[name].(members := members)];
      r := Done(());
    }

    method RegisterClassMethod(c: string, m: Method)
      modifies this
      ensures Value() == AddMethod(old(Value()), c, m)
    {
      methods := methods[c := (if c in methods then methods[c] else []) + [m]];
    }

    /** getClassFromCode, both passes. A failure part-way keeps what was done before it. */
    method ClassFromCode(d: ClassDecl, firstPass: bool) returns (r: Outcome<()>)
      modifies this
      ensures methods == old(methods)
      ensures var spec := if firstPass then Register(old(classes), d) else Revisit(old(classes), d);
              match spec case Error(e) => r == Error(e) case Done(cs) => r.Done? && classes == cs
    {
      if firstPass { RegisterClass(d.name); }
      if d.parent != "" {
        r := SetClassParent(d.name, d.parent);
        if r.Error? { return; }
      }
      r := SetClassMembers(d.name, d.fields);
    }

    method IsSubclassOf(child: string, parent: string, ghost rank: Rank) returns (r: bool)
      requires Ranked(classes, rank)
      ensures r <==> Above(classes, child, parent)
    {
      SubclassIsClosure(classes, rank, child, parent);
      if child !in classes { return false; }
      var current := child;
      while true
        invariant IsSubclass(classes, rank, child, parent) <==> IsSubclass(classes, rank, current, parent)
        decreases if current in rank then rank[current] else 0
      {
        if current !in classes { break; }
        if !classes[current].HasParent() { break; }
        assert ParentBelow(classes, rank, current);
        var parentClass := classes[current].parent;
        if parentClass == parent { return true; }
        current := parentClass;
      }
      return false;
    }

    /** getAllClassMembers. */
    method GetAllClassMembers(c: string, ghost rank: Rank) returns (r: Outcome<seq<Field>>)
      requires Ranked(classes, rank)
      ensures r == AllMembers(classes, rank, c)
      decreases if c in rank then rank[c] else 0
    {
      if c !in classes { return Error("Class not found: " + c); }
      var all := [];
      if classes[c].HasParent() {
        assert ParentBelow(classes, rank, c);
        r := GetAllClassMembers(classes[c].parent, rank);
        if r.Error? { return; }
        assert [] + r.value == r.value;
        all := all + r.value;
      }
      assert [] + classes[c].members == classes[c].members;
      r := Done(all + classes[c].members);
    }

    method GetAllVirtualMethods(c: string, ghost rank: Rank) returns (all: seq<Method>)
      requires Ranked(classes, rank)
      ensures all == AllVirtuals(Value(), rank, c, [])
    {
      all := [];
      var seen: set<string> := {};
      var current := c;
      while true
        invariant AllVirtuals(Value(), rank, c, []) == AllVirtuals(Value(), rank, current, all)
        invariant forall s :: s in seen <==> HasName(all, s)
        decreases if current in rank then rank[current] else 0
      {
        if current !in classes { break; }
        assert ParentBelow(classes, rank, current);
        var ms := MethodsOf(Value(), current);
        ghost var before := all;
        var i := 0;
        while i < |ms|
          invariant 0 <= i <= |ms|
          invariant Gather(ms, before) == Gather(ms[i..], all)
          invariant forall s :: s in seen <==> HasName(all, s)
        {
          assert ms[i..][0] == ms[i] && ms[i..][1..] == ms[i+1..];
          if ms[i].isVirtual && ms[i].name !in seen {
            NameAdded(all, ms[i]);
            all := all + [ms[i]];
            seen := seen + {ms[i].name};
          }
          i := i + 1;
        }
        if !classes[current].HasParent() { break; }
        current := classes[current].parent;
      }
    }

    method FindMethodImplementation(c: string, b: string, ghost rank: Rank) returns (impl: string)
      requires Ranked(classes, rank)
      ensures impl == FindImplementation(Value(), rank, c, b)
    {
      var current := c;
      while true
        invariant FindFrom(Value(), rank, c, b) == FindFrom(Value(), rank, current, b)
        decreases if current in rank then rank[current] else 0
      {
        var own := FirstByBase(MethodsOf(Value(), current), b);
        if own != [] { return own[0].name; }
        if current !in classes || !classes[current].HasParent() { break; }
        assert ParentBelow(classes, rank, current);
        current := classes[current].parent;
      }
      return Mangle(c, b);
    }

    /** The initialisers of generateVTableInstance, in order. */
    method GenerateVTableInstance(c: string, ghost rank: Rank) returns (slots: seq<Slot>)
      requires Ranked(classes, rank)
      ensures slots == VTable(Value(), rank, c)
    {
      var virtuals := GetAllVirtualMethods(c, rank);
      slots := [];
      var processed: set<string> := {};
      var i := 0;
      while i < |virtuals|
        invariant 0 <= i <= |virtuals|
        invariant Fill(Value(), rank, c, virtuals, []) == Fill(Value(), rank, c, virtuals[i..], slots)
        invariant forall s :: s in processed <==> HasSlot(slots, s)
      {
        FillNext(Value(), rank, c, virtuals, i, slots);
        var b := BaseName(virtuals[i].name);
        if b !in processed {
          var impl := FindMethodImplementation(c, b, rank);
          SlotAdded(slots, Slot(b, impl));
          slots := slots + [Slot(b, impl)];
          processed := processed + {b};
        }
        i := i + 1;
      }
    }

    /** The slot names of generateVTableStruct. */
    method GenerateVTableStruct(ghost rank: Rank) returns (slots: set<string>)
      requires Ranked(classes, rank)
      ensures forall b :: b in slots <==> exists c :: c in classes && VirtualIn(Value(), c, b)
    {
      slots := {};
      var left := classes.Keys;
      while left != {}
        invariant left <= classes.Keys
        invariant forall b :: b in slots <==> exists c :: c in classes && c !in left && VirtualIn(Value(), c, b)
        decreases |left|
      {
        var c :| c in left;
        var virtuals := GetAllVirtualMethods(c, rank);
        forall b ensures HasBase(virtuals, b) <==> VirtualIn(Value(), c, b) {
          AllVirtualsExact(Value(), rank, c, b);
        }
        slots := slots + BaseNames(virtuals);
        left := left - {c};
      }
    }

    /** Which method a call on a variable of class `c` means (visitMethodCallExpr). */
    method ResolveCall(c: string, b: string, ghost rank: Rank) returns (r: CallTarget)
      requires Ranked(classes, rank)
      ensures r == CallSite(Value(), rank, c, b)
    {
      var current := c;
      while true
        invariant CallSite(Value(), rank, c, b) == CallFrom(Value(), rank, c, current, b)
        decreases if current in rank then rank[current] else 0
      {
        var own := FirstByName(MethodsOf(Value(), current), Mangle(current, b));
        if own != [] { return Found(own[0]); }
        if current !in classes || !classes[current].HasParent() {
          return NotFound("Method not found: " + b + " in class " + c);
        }
        assert ParentBelow(classes, rank, current);
        current := classes[current].parent;
      }
    }

    /** What visitClassDecl does with one method, in its first pass. */
    method DeclareMethod(c: string, md: MethodDecl, ghost rank: Rank)
      requires Ranked(classes, rank) && c in classes
      modifies this
      ensures Value() == AddMethod(old(Value()), c, NewMethod(old(Value()), rank, c, md))
    {
      var isVirtual := MentionsVirtual(md.text);
      if !isVirtual && classes[c].HasParent() {
        var parentVirtuals := GetAllVirtualMethods(classes[c].parent, rank);
        isVirtual := HasBase(parentVirtuals, md.name);
      }
      RegisterClassMethod(c, Method(Mangle(c, md.name), isVirtual));
    }

    /** visitClassDecl, first pass. */
    method DeclareClass(d: ClassDecl, ghost rank: Rank) returns (r: Outcome<()>)
      requires Register(classes, d).Done? ==> Ranked(Register(classes, d).value, rank)
      modifies this
      ensures match Overriding.DeclareClass(old(Value()), rank, d)
              case Error(e) => r == Error(e)
              case Done(ts) => r.Done? && Value() == ts
    {
      r := ClassFromCode(d, true);
      if r.Error? { return; }
      ghost var start := Value();
      RegisterGives(old(classes), d);
      var i := 0;
      while i < |d.methods|
        invariant 0 <= i <= |d.methods| && classes == start.classes
        invariant AddMethods(start, rank, d.name, d.methods) == AddMethods(Value(), rank, d.name, d.methods[i..])
      {
        AddMethodsNext(Value(), rank, d.name, d.methods, i);
        DeclareMethod(d.name, d.methods[i], rank);
        i := i + 1;
      }
    }
  }

  /** The search of findMethodImplementation among the methods of one class. */
  method FirstByBase(ms: seq<Method>, b: string) returns (r: seq<Method>)
    ensures r == OwnByBase(ms, b)
  {
    var i := 0;
    while i < |ms|
      invariant 0 <= i <= |ms|
      invariant OwnByBase(ms, b) == OwnByBase(ms[i..], b)
    {
      assert ms[i..][0] == ms[i] && ms[i..][1..] == ms[i+1..];
      if BaseName(ms[i].name) == b { return [ms[i]]; }
      i := i + 1;
    }
    r := [];
  }

  /** The search of visitMethodCallExpr among the methods of one class. */
  method FirstByName(ms: seq<Method>, name: string) returns (r: seq<Method>)
    ensures r == OwnByName(ms, name)
  {
    var i := 0;
    while i < |ms|
      invariant 0 <= i <= |ms|
      invariant OwnByName(ms, name) == OwnByName(ms[i..], name)
    {
      assert ms[i..][0] == ms[i] && ms[i..][1..] == ms[i+1..];
      if ms[i].name == name { return [ms[i]]; }
      i := i + 1;
    }
    r := [];
  }

  lemma AddMethodsNext(ts: Types, rank: Rank, c: string, mds: seq<MethodDecl>, i: nat)
    requires Ranked(ts.classes, rank) && c in ts.classes && i < |mds|
    ensures AddMethods(ts, rank, c, mds[i..])
         == AddMethods(AddMethod(ts, c, NewMethod(ts, rank, c, mds[i])), rank, c, mds[i+1..])
  {
    assert mds[i..][0] == mds[i] && mds[i..][1..] == mds[i+1..];
  }

  lemma FillNext(ts: Types, rank: Rank, c: string, ms: seq<Method>, i: nat, slots: seq<Slot>)
    requires Ranked(ts.classes, rank) && i < |ms|
    ensures var b := BaseName(ms[i].name);
            Fill(ts, rank, c, ms[i..], slots)
            == Fill(ts, rank, c, ms[i+1..], if HasSlot(slots, b) then slots
                    else slots + [Slot(b, FindImplementation(ts, rank, c, b))])
  {
    assert ms[i..][0] == ms[i] && ms[i..][1..] == ms[i+1..];
  }

  function BaseNames(ms: seq<Method>): (r: set<string>)
    ensures forall b :: b in r <==> HasBase(ms, b)
  {
    set m | m in ms :: BaseName(m.name)
  }

  lemma NameAdded(ms: seq<Method>, m: Method)
    ensures forall s :: HasName(ms + [m], s) <==> HasName(ms, s) || s == m.name
  {
    forall s ensures HasName(ms + [m], s) <==> HasName(ms, s) || s == m.name {
      assert m in ms + [m];
      if HasName(ms, s) {
        var k :| k in ms && k.name == s;
        assert k in ms + [m];
      }
    }
  }

  lemma SlotAdded(slots: seq<Slot>, x: Slot)
    ensures forall s :: HasSlot(slots + [x], s) <==> HasSlot(slots, s) || s == x.name
  {
    forall s ensures HasSlot(slots + [x], s) <==> HasSlot(slots, s) || s == x.name {
      assert x in slots + [x];
      if HasSlot(slots, s) {
        var k :| k in slots && k.name == s;
        assert k in slots + [x];
      }
    }
  }
}

