/** Method names as emitted: `Class_method` (src/ast/TranspilerVisitor.cpp). The method
    part is recovered by cutting at the first underscore (src/types/TypeSystem.cpp). */
module Mangling {
  function Mangle(c: string, m: string): string { c + "_" + m }

  /** std::string::find('_'): the first position, or -1 where it returns npos. */
  function FindUnderscore(s: string): (r: int)
    ensures -1 <= r < |s|
    ensures r >= 0 ==> s[r] == '_' && '_' !in s[..r]
    ensures r == -1 ==> '_' !in s
  {
    if s == [] then -1
    else if s[0] == '_' then 0
    else
      var k := FindUnderscore(s[1..]);
      assert s == [s[0]] + s[1..];
      if k == -1 then -1
      else
        assert s[..k+1] == [s[0]] + s[1..][..k];
        k + 1
  }

  /** name.substr(name.find('_') + 1); without an underscore, npos + 1 is 0. */
  function BaseName(name: string): string { name[FindUnderscore(name) + 1..] }

  lemma {:induction false} FirstUnderscore(s: string, k: nat)
    requires k < |s| && s[k] == '_' && '_' !in s[..k]
    ensures FindUnderscore(s) == k
    decreases k
  {
    if k > 0 {
      assert s[0] in s[..k];
      assert s[..k] == [s[0]] + s[1..][..k-1];
      FirstUnderscore(s[1..], k - 1);
    }
  }

  /** Cutting at the first underscore gives back the method name exactly when the class
      name has no underscore. */
  lemma BaseNameIff(c: string, m: string)
    ensures BaseName(Mangle(c, m)) == m <==> '_' !in c
  {
    var s := Mangle(c, m);
    if '_' in c {
      var k := FindUnderscore(c);
      assert s[..k] == c[..k];
      FirstUnderscore(s, k);
      assert |BaseName(s)| > |m|;
    } else {
      assert s[..|c|] == c;
      FirstUnderscore(s, |c|);
      assert s[|c|+1..] == m;
    }
  }

  lemma ShorterClass(c: string, m: string, d: string, n: string)
    requires Mangle(c, m) == Mangle(d, n) && |c| < |d|
    ensures c + "_" <= d && m == d[|c|+1..] + "_" + n
  {
    var s, k := Mangle(c, m), |c|;
    assert s[..k] == c && s[..|d|] == d && s[k] == '_' == d[k];
    assert d[..k] == s[..|d|][..k] == s[..k];
    assert d[..k+1] == d[..k] + [d[k]] == c + "_";
    assert m == s[k+1..] == (d + "_" + n)[k+1..] == d[k+1..] + "_" + n;
  }

  lemma SameLength(c: string, m: string, d: string, n: string)
    requires Mangle(c, m) == Mangle(d, n)
    ensures |c| == |d| ==> c == d && m == n
  {
    var s, t := Mangle(c, m), Mangle(d, n);
    assert s[..|c|] == c && t[..|d|] == d && s[|c|+1..] == m && t[|d|+1..] == n;
  }

  /** Two methods share an emitted name exactly if they are the same, or the longer class
      name is the shorter one, an underscore and some `k` that the other method starts with. */
  lemma MangleSameIff(c: string, m: string, d: string, n: string)
    ensures Mangle(c, m) == Mangle(d, n) <==>
            || (c == d && m == n)
            || (exists k :: d == c + "_" + k && m == k + "_" + n)
            || (exists k :: c == d + "_" + k && n == k + "_" + m)
  {
    if Mangle(c, m) == Mangle(d, n) {
      SameLength(c, m, d, n);
      if |c| < |d| {
        ShorterClass(c, m, d, n);
        assert d == c + "_" + d[|c|+1..];
      } else if |d| < |c| {
        ShorterClass(d, n, c, m);
        assert c == d + "_" + c[|d|+1..];
      }
    }
    if k :| d == c + "_" + k && m == k + "_" + n { MangleCollides(c, k, n); }
    if k :| c == d + "_" + k && n == k + "_" + m { MangleCollides(d, k, m); }
  }

  /** Some methods of two classes can collide exactly if one class name, followed by an
      underscore, begins the other. */
  lemma ClassesCollideIff(c: string, d: string)
    requires c != d
    ensures (exists m, n :: Mangle(c, m) == Mangle(d, n)) <==> c + "_" <= d || d + "_" <= c
  {
    if m, n :| Mangle(c, m) == Mangle(d, n) {
      SameLength(c, m, d, n);
      if |c| < |d| { ShorterClass(c, m, d, n); } else if |d| < |c| { ShorterClass(d, n, c, m); }
    }
    if c + "_" <= d {
      MangleCollides(c, d[|c|+1..], "");
      assert d == c + "_" + d[|c|+1..];
      assert Mangle(c, d[|c|+1..] + "_" + "") == Mangle(d, "");
    }
    if d + "_" <= c {
      MangleCollides(d, c[|d|+1..], "");
      assert c == d + "_" + c[|d|+1..];
      assert Mangle(c, "") == Mangle(d, c[|d|+1..] + "_" + "");
    }
  }

  /** So class names without underscores give every method its own name. */
  lemma MangleInjective(c: string, m: string, d: string, n: string)
    requires '_' !in c && '_' !in d && Mangle(c, m) == Mangle(d, n)
    ensures c == d && m == n
  {
    forall k: string ensures '_' in c + "_" + k && '_' in d + "_" + k {
      assert (c + "_" + k)[|c|] == '_' == (d + "_" + k)[|d|];
    }
    MangleSameIff(c, m, d, n);
  }

  /** With an underscore in a class name, two methods can collide. */
  lemma MangleCollides(a: string, b: string, m: string)
    ensures Mangle(a, b + "_" + m) == Mangle(a + "_" + b, m)
  {
    assert a + "_" + (b + "_" + m) == (a + "_" + b) + "_" + m;
  }
}

/** The class hierarchy: parents, members, virtual methods, vtables and method lookup
    (src/types/TypeSystem.cpp), and how the two passes over a program fill it in
    (getClassFromCode and visitClassDecl in src/ast/TranspilerVisitor.cpp). */
module Hierarchy {
  import opened Mangling

  datatype Field = Field(name: string, ctype: string)

  /** A class of the type system. An empty parent name means no parent. */
  datatype ClassType = ClassType(parent: string, members: seq<Field>) {
    predicate HasParent() { parent != "" }
  }

  /** A registered method, under its emitted name. */
  datatype Method = Method(name: string, isVirtual: bool)

  type Classes = map<string, ClassType>

  datatype Types = Types(classes: Classes, methods: map<string, seq<Method>>)

  /** getClassMethods. */
  function MethodsOf(ts: Types, c: string): seq<Method> {
    if c in ts.methods then ts.methods[c] else []
  }

  /** A class as written in the source; of a method, its name and its whole text. */
  datatype MethodDecl = MethodDecl(name: string, text: string)
  datatype ClassDecl = ClassDecl(name: string, parent: string, fields: seq<Field>, methods: seq<MethodDecl>)

  // ---------- the parent relation ----------

  /** The class `n` parent steps above `c`, if there are that many. */
  function Up(cs: Classes, c: string, n: nat): (r: seq<string>)
    ensures |r| <= 1
    decreases n
  {
    if n == 0 then [c]
    else if c in cs && cs[c].HasParent() then Up(cs, cs[c].parent, n - 1)
    else []
  }

  /** `p` is above `c`: the strict transitive closure of the parent relation. */
  ghost predicate Above(cs: Classes, c: string, p: string) {
    exists n: nat :: n > 0 && Up(cs, c, n) == [p]
  }

  ghost predicate Acyclic(cs: Classes) {
    forall c :: c in cs ==> !Above(cs, c, c)
  }

  type Rank = map<string, nat>

  /** The parent of `c`, if any, is a class ranked below it. */
  ghost predicate ParentBelow(cs: Classes, rank: Rank, c: string) {
    && c in cs && c in rank
    && (cs[c].HasParent() ==> cs[c].parent in cs && cs[c].parent in rank && rank[cs[c].parent] < rank[c])
  }

  ghost predicate Ranked(cs: Classes, rank: Rank) {
    forall c {:trigger ParentBelow(cs, rank, c)} :: c in cs ==> ParentBelow(cs, rank, c)
  }

  lemma {:induction false} UpRank(cs: Classes, rank: Rank, c: string, n: nat, p: string)
    requires Ranked(cs, rank) && c in cs && n > 0 && Up(cs, c, n) == [p]
    ensures p in cs && p in rank && c in rank && rank[p] < rank[c]
    decreases n
  {
    assert ParentBelow(cs, rank, c);
    if n > 1 { UpRank(cs, rank, cs[c].parent, n - 1, p); }
  }

  lemma RankedAcyclic(cs: Classes, rank: Rank)
    requires Ranked(cs, rank)
    ensures Acyclic(cs)
  {
    forall c | c in cs ensures !Above(cs, c, c) {
      if n: nat :| n > 0 && Up(cs, c, n) == [c] { UpRank(cs, rank, c, n, c); }
    }
  }

  /** Every parent is a class. */
  ghost predicate Closed(cs: Classes) {
    forall c :: c in cs ==> ParentKnown(cs, c)
  }

  ghost predicate ParentKnown(cs: Classes, c: string) {
    c in cs && (cs[c].HasParent() ==> cs[c].parent in cs)
  }

  ghost function Ancestors(cs: Classes, c: string): set<string> {
    set x | x in cs && Above(cs, c, x)
  }

  /** The number of classes above a class ranks any acyclic hierarchy. */
  lemma AcyclicHasRank(cs: Classes) returns (rank: Rank)
    requires Closed(cs) && Acyclic(cs)
    ensures Ranked(cs, rank)
  {
    rank := map c | c in cs :: |Ancestors(cs, c)|;
    forall c | c in cs ensures ParentBelow(cs, rank, c) {
      assert ParentKnown(cs, c);
      if cs[c].HasParent() { FewerAbove(cs, c); }
    }
  }

  lemma FewerAbove(cs: Classes, c: string)
    requires Acyclic(cs) && c in cs && cs[c].HasParent() && cs[c].parent in cs
    ensures |Ancestors(cs, cs[c].parent)| < |Ancestors(cs, c)|
  {
    var p := cs[c].parent;
    assert Up(cs, p, 0) == [p] && Up(cs, c, 1) == [p];
    forall x | x in Ancestors(cs, p) ensures x in Ancestors(cs, c) { AboveTransitive(cs, c, p, x); }
    SmallerSet(Ancestors(cs, p), Ancestors(cs, c), p);
  }

  lemma SmallerSet(a: set<string>, b: set<string>, x: string)
    requires a <= b && x in b && x !in a
    ensures |a| < |b|
  {
    assert b == a + (b - a) && x in b - a;
    assert |b| == |a| + |b - a|;
  }

  /** A rank exists, and so every walk up ends, exactly if there is no cycle. */
  lemma RankedIff(cs: Classes)
    requires Closed(cs)
    ensures (exists rank :: Ranked(cs, rank)) <==> Acyclic(cs)
  {
    if rank :| Ranked(cs, rank) { RankedAcyclic(cs, rank); }
    if Acyclic(cs) { var rank := AcyclicHasRank(cs); }
  }

  lemma {:induction false} UpAdd(cs: Classes, c: string, m: nat, d: string, n: nat)
    requires Up(cs, c, m) == [d]
    ensures Up(cs, c, m + n) == Up(cs, d, n)
    decreases m
  {
    if m > 0 { UpAdd(cs, cs[c].parent, m - 1, d, n); }
  }

  lemma AboveTransitive(cs: Classes, c: string, d: string, e: string)
    requires Above(cs, c, d) && Above(cs, d, e)
    ensures Above(cs, c, e)
  {
    var m: nat :| m > 0 && Up(cs, c, m) == [d];
    var n: nat :| n > 0 && Up(cs, d, n) == [e];
    UpAdd(cs, c, m, d, n);
    assert m + n > 0 && Up(cs, c, m + n) == [e];
  }

  // ---------- declaring classes ----------

  datatype Outcome<T> = Done(value: T) | Error(message: string)

  /** getClassFromCode in the first pass: registerClass, setClassParent, setClassMembers. */
  function Register(cs: Classes, d: ClassDecl): (r: Outcome<Classes>) {
    var cs1 := cs[d.name := ClassType("", [])];
    if d.parent == "" then Done(cs1[d.name := ClassType("", d.fields)])
    else if d.parent !in cs1 then Error("Parent class not found: " + d.parent)
    else Done(cs1[d.name := ClassType(d.parent, d.fields)])
  }

  function RegisterAll(cs: Classes, ds: seq<ClassDecl>): (r: Outcome<Classes>)
    decreases |ds|
  {
    if ds == [] then Done(cs)
    else
      match Register(cs, ds[0])
      case Error(e) => Error(e)
      case Done(cs1) => RegisterAll(cs1, ds[1..])
  }

  /** getClassFromCode in the second pass: the class is not registered again. */
  function Revisit(cs: Classes, d: ClassDecl): (r: Outcome<Classes>) {
    if d.name !in cs then Error("Class not found: " + d.name)
    else if d.parent == "" then Done(cs[d.name := cs[d.name].(members := d.fields)])
    else if d.parent !in cs then Error("Parent class not found: " + d.parent)
    else Done(cs[d.name := ClassType(d.parent, d.fields)])
  }

  function RevisitAll(cs: Classes, ds: seq<ClassDecl>): (r: Outcome<Classes>)
    decreases |ds|
  {
    if ds == [] then Done(cs)
    else
      match Revisit(cs, ds[0])
      case Error(e) => Error(e)
      case Done(cs1) => RevisitAll(cs1, ds[1..])
  }

  /** Each class is declared once, and not already known. */
  ghost predicate DeclaredOnce(cs: Classes, ds: seq<ClassDecl>) {
    && (forall i :: 0 <= i < |ds| ==> ds[i].name !in cs)
    && (forall i, j :: 0 <= i < j < |ds| ==> ds[i].name != ds[j].name)
  }

  /** Ranks by declaration order, numbering from `n`. */
  function RankAll(rank: Rank, n: nat, ds: seq<ClassDecl>): Rank
    decreases |ds|
  {
    if ds == [] then rank else RankAll(rank[ds[0].name := n], n + 1, ds[1..])
  }

  ghost predicate RankedBelow(cs: Classes, rank: Rank, n: nat) {
    Ranked(cs, rank) && forall c :: c in rank ==> rank[c] < n
  }

  /** A declaration fails exactly if its parent is neither known nor the class itself, and
      otherwise sets just this class. */
  lemma RegisterIff(cs: Classes, d: ClassDecl)
    ensures Register(cs, d) == if d.parent == "" || d.parent == d.name || d.parent in cs
                               then Done(cs[d.name := ClassType(d.parent, d.fields)])
                               else Error("Parent class not found: " + d.parent)
  {
    var known := cs[d.name := ClassType("", [])];
    assert known[d.name := ClassType(d.parent, d.fields)] == cs[d.name := ClassType(d.parent, d.fields)];
  }

  lemma RegisterGives(cs: Classes, d: ClassDecl)
    requires Register(cs, d).Done?
    ensures Register(cs, d).value == cs[d.name := ClassType(d.parent, d.fields)]
    ensures d.parent != "" && d.parent != d.name ==> d.parent in cs
  {}

  lemma RegisterClosed(cs: Classes, d: ClassDecl)
    requires Closed(cs) && Register(cs, d).Done?
    ensures Closed(Register(cs, d).value)
  {
    RegisterGives(cs, d);
    var r := Register(cs, d).value;
    forall c | c in r ensures ParentKnown(r, c) {
      if c != d.name { assert ParentKnown(cs, c); }
    }
  }

  lemma RegisterRanked(cs: Classes, rank: Rank, n: nat, d: ClassDecl)
    requires RankedBelow(cs, rank, n) && d.name !in cs && d.parent != d.name && Register(cs, d).Done?
    ensures RankedBelow(Register(cs, d).value, rank[d.name := n], n + 1)
  {
    RegisterGives(cs, d);
    var r := cs[d.name := ClassType(d.parent, d.fields)];
    var rank1 := rank[d.name := n];
    assert d.parent != "" ==> ParentBelow(cs, rank, d.parent);
    forall c | c in r ensures ParentBelow(r, rank1, c) {
      if c != d.name { assert ParentBelow(cs, rank, c); }
    }
  }

  /** Declaring each class once, after its parent, gives an acyclic hierarchy. */
  lemma {:induction false} RegisterAllRanked(cs: Classes, rank: Rank, n: nat, ds: seq<ClassDecl>)
    requires RankedBelow(cs, rank, n) && DeclaredOnce(cs, ds) && RegisterAll(cs, ds).Done?
    requires forall i :: 0 <= i < |ds| ==> ds[i].parent != ds[i].name
    ensures Ranked(RegisterAll(cs, ds).value, RankAll(rank, n, ds))
    decreases |ds|
  {
    if ds != [] {
      RegisterRanked(cs, rank, n, ds[0]);
      assert forall i :: 0 <= i < |ds[1..]| ==> ds[1..][i] == ds[i+1];
      RegisterAllRanked(Register(cs, ds[0]).value, rank[ds[0].name := n], n + 1, ds[1..]);
    }
  }

  /** What is registered stays as it was registered. */
  lemma {:induction false} RegisterAllKeeps(cs: Classes, ds: seq<ClassDecl>, c: string)
    requires RegisterAll(cs, ds).Done? && c in cs && forall i :: 0 <= i < |ds| ==> ds[i].name != c
    ensures c in RegisterAll(cs, ds).value && RegisterAll(cs, ds).value[c] == cs[c]
    decreases |ds|
  {
    if ds != [] {
      assert forall i :: 0 <= i < |ds[1..]| ==> ds[1..][i] == ds[i+1];
      RegisterAllKeeps(Register(cs, ds[0]).value, ds[1..], c);
    }
  }

  lemma {:induction false} RegisterAllHas(cs: Classes, ds: seq<ClassDecl>, i: nat)
    requires DeclaredOnce(cs, ds) && RegisterAll(cs, ds).Done? && i < |ds|
    ensures var r := RegisterAll(cs, ds).value;
            && ds[i].name in r && r[ds[i].name] == ClassType(ds[i].parent, ds[i].fields)
            && (ds[i].parent != "" ==> ds[i].parent in r)
    decreases |ds|
  {
    var cs1, es := Register(cs, ds[0]).value, ds[1..];
    assert forall j :: 0 <= j < |es| ==> es[j] == ds[j+1];
    if i == 0 {
      RegisterAllKeeps(cs1, es, ds[0].name);
      if ds[0].parent != "" { RegisterAllNames(cs1, es, ds[0].parent); }
    } else {
      RegisterAllHas(cs1, es, i - 1);
    }
  }

  lemma {:induction false} RegisterAllNames(cs: Classes, ds: seq<ClassDecl>, c: string)
    requires RegisterAll(cs, ds).Done? && c in cs
    ensures c in RegisterAll(cs, ds).value
    decreases |ds|
  {
    if ds != [] { RegisterAllNames(Register(cs, ds[0]).value, ds[1..], c); }
  }

  /** Among programs that declare each class once, the hierarchy is acyclic exactly when
      no class names itself as its parent. */
  lemma AcyclicIff(ds: seq<ClassDecl>)
    requires DeclaredOnce(map[], ds) && RegisterAll(map[], ds).Done?
    requires forall i :: 0 <= i < |ds| ==> ds[i].name != ""
    ensures Acyclic(RegisterAll(map[], ds).value) <==> forall i :: 0 <= i < |ds| ==> ds[i].parent != ds[i].name
  {
    var cs := RegisterAll(map[], ds).value;
    if forall i :: 0 <= i < |ds| ==> ds[i].parent != ds[i].name {
      RegisterAllRanked(map[], map[], 0, ds);
      RankedAcyclic(cs, RankAll(map[], 0, ds));
    } else {
      var i :| 0 <= i < |ds| && ds[i].parent == ds[i].name;
      RegisterAllHas(map[], ds, i);
      var c := ds[i].name;
      assert Up(cs, c, 1) == Up(cs, c, 0) == [c];
      assert Above(cs, c, c);
    }
  }

  /** Two tables that differ only at `x` agree on paths up to the first visit of `x`. */
  lemma {:induction false} UpSame(cs: Classes, ds: Classes, x: string, c: string, n: nat)
    requires forall y :: y != x ==> (y in cs <==> y in ds) && (y in cs ==> cs[y] == ds[y])
    requires forall j: nat :: j < n ==> Up(cs, c, j) != [x]
    ensures Up(ds, c, n) == Up(cs, c, n)
    decreases n
  {
    if n > 0 {
      assert Up(cs, c, 0) == [c];
      if c in cs && cs[c].HasParent() {
        forall j: nat | j < n - 1 ensures Up(cs, cs[c].parent, j) != [x] {
          assert Up(cs, c, j + 1) != [x];
        }
        UpSame(cs, ds, x, cs[c].parent, n - 1);
      }
    }
  }

  lemma {:induction false} FirstVisit(cs: Classes, c: string, x: string, n: nat) returns (m: nat)
    requires Up(cs, c, n) == [x]
    ensures m <= n && Up(cs, c, m) == [x] && forall j: nat :: j < m ==> Up(cs, c, j) != [x]
    decreases n
  {
    if j: nat :| j < n && Up(cs, c, j) == [x] { m := FirstVisit(cs, c, x, j); } else { m := n; }
  }

  /** Whether a declaration, also one that redeclares a class, keeps the hierarchy acyclic:
      exactly when the parent it names is not the class itself and not below it. */
  lemma RegisterAcyclicIff(cs: Classes, d: ClassDecl)
    requires Acyclic(cs) && d.name != "" && Register(cs, d).Done?
    ensures Acyclic(Register(cs, d).value)
       <==> (d.parent == "" || (d.parent != d.name && !Above(cs, d.parent, d.name)))
  {
    RegisterGives(cs, d);
    var r := Register(cs, d).value;
    if d.parent == d.name || (d.parent != "" && Above(cs, d.parent, d.name)) {
      RegisterCycles(cs, r, d);
    } else {
      forall c | c in r ensures !Above(r, c, c) {
        if n: nat :| n > 0 && Up(r, c, n) == [c] { RegisterNoCycle(cs, r, d, c, n); }
      }
    }
  }

  /** The code accepts a class that names itself as its parent, and the hierarchy has a
      cycle then; so it does when a class is declared again below its own child. */
  lemma SelfParentCycles(name: string, fields: seq<Field>, methods: seq<MethodDecl>)
    requires name != ""
    ensures var r := Register(map[], ClassDecl(name, name, fields, methods)); r.Done? && !Acyclic(r.value)
  {
    var d := ClassDecl(name, name, fields, methods);
    RegisterCycles(map[], Register(map[], d).value, d);
  }

  lemma RedeclaringCycles(a: string, b: string)
    requires a != "" && b != "" && a != b
    ensures var r := RegisterAll(map[], [ClassDecl(a, "", [], []), ClassDecl(b, a, [], []), ClassDecl(a, b, [], [])]);
            r.Done? && !Acyclic(r.value)
  {
    var x, y, z := ClassDecl(a, "", [], []), ClassDecl(b, a, [], []), ClassDecl(a, b, [], []);
    assert [x, y, z][1..] == [y, z] && [y, z][1..] == [z] && [z][1..] == [];
    var c1 := Register(map[], x).value;
    var c2 := Register(c1, y).value;
    assert RegisterAll(map[], [x, y, z]) == RegisterAll(c1, [y, z]) == RegisterAll(c2, [z]);
    assert RegisterAll(c2, [z]) == Done(Register(c2, z).value);
    assert Up(c2, b, 1) == Up(c2, a, 0) == [a];
    RegisterCycles(c2, Register(c2, z).value, z);
  }

  lemma RegisterCycles(cs: Classes, r: Classes, d: ClassDecl)
    requires r == cs[d.name := ClassType(d.parent, d.fields)] && d.parent != ""
    requires d.parent == d.name || Above(cs, d.parent, d.name)
    ensures Above(r, d.name, d.name) && !Acyclic(r)
  {
    var n: nat :| Up(cs, d.parent, n) == [d.name];
    var m := FirstVisit(cs, d.parent, d.name, n);
    UpSame(cs, r, d.name, d.parent, m);
    assert Up(r, d.name, m + 1) == [d.name];
  }

  lemma RegisterNoCycle(cs: Classes, r: Classes, d: ClassDecl, c: string, n: nat)
    requires Acyclic(cs) && r == cs[d.name := ClassType(d.parent, d.fields)]
    requires c in r && n > 0 && Up(r, c, n) == [c]
    ensures d.parent != "" && (d.parent == d.name || Above(cs, d.parent, d.name))
  {
    var x := d.name;
    if j: nat :| j < n && Up(r, c, j) == [x] {
      UpAdd(r, c, j, x, n - j);
      UpAdd(r, x, n - j, c, j);
      assert Up(r, x, n) == [x];
      var m := FirstVisit(r, d.parent, x, n - 1);
      UpSame(r, cs, x, d.parent, m);
      assert Up(cs, d.parent, m) == [x];
    } else {
      assert Up(r, c, 0) == [c];
      UpSame(r, cs, x, c, n);
      assert Above(cs, c, c);
    }
  }

  /** The second pass changes nothing. */
  lemma {:induction false} RevisitChangesNothing(cs: Classes, ds: seq<ClassDecl>)
    requires forall i :: 0 <= i < |ds| ==> ds[i].name in cs && cs[ds[i].name] == ClassType(ds[i].parent, ds[i].fields)
    requires forall i :: 0 <= i < |ds| && ds[i].parent != "" ==> ds[i].parent in cs
    ensures RevisitAll(cs, ds) == Done(cs)
    decreases |ds|
  {
    if ds != [] {
      assert cs[ds[0].name := ClassType(ds[0].parent, ds[0].fields)] == cs;
      assert forall i :: 0 <= i < |ds[1..]| ==> ds[1..][i] == ds[i+1];
      RevisitChangesNothing(cs, ds[1..]);
    }
  }

  lemma BothPasses(ds: seq<ClassDecl>)
    requires DeclaredOnce(map[], ds) && RegisterAll(map[], ds).Done?
    ensures RevisitAll(RegisterAll(map[], ds).value, ds) == RegisterAll(map[], ds)
  {
    forall i | 0 <= i < |ds| ensures
      var cs := RegisterAll(map[], ds).value;
      ds[i].name in cs && cs[ds[i].name] == ClassType(ds[i].parent, ds[i].fields)
              && (ds[i].parent != "" ==> ds[i].parent in cs)
    {
      RegisterAllHas(map[], ds, i);
    }
    RevisitChangesNothing(RegisterAll(map[], ds).value, ds);
  }
}

