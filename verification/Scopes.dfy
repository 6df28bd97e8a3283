/** Nested scopes of names (include/jblang/types/SymbolTable.h). The transpiler looks
    names up innermost scope first and then among the parameters of the current
    function; C resolves the names of the emitted code the same way, so the same
    environment serves the symbol table, with what is declared, and the running
    program, with what the variables hold. */
module Scopes {
  type Name = string

  datatype Option<+T> = None | Some(value: T)

  datatype Env<V> = Env(scopes: seq<map<Name, V>>, params: map<Name, V>)

  /** Search from the innermost scope, which is the last one. */
  function LookupScopes<V>(ss: seq<map<Name, V>>, x: Name): (r: Option<V>) {
    if ss == [] then None
    else if x in ss[|ss|-1] then Some(ss[|ss|-1][x])
    else LookupScopes(ss[..|ss|-1], x)
  }

  /** lookupSymbol. */
  function Lookup<V>(e: Env<V>, x: Name): (r: Option<V>) {
    match LookupScopes(e.scopes, x)
    case Some(v) => Some(v)
    case None => if x in e.params then Some(e.params[x]) else None
  }

  /** enterScope. */
  function Enter<V>(e: Env<V>): (r: Env<V>) { e.(scopes := e.scopes + [map[]]) }

  /** exitScope. */
  function Exit<V>(e: Env<V>): (r: Env<V>) {
    if e.scopes == [] then e else e.(scopes := e.scopes[..|e.scopes|-1])
  }

  /** getCurrentScopeSymbols. */
  function Top<V>(e: Env<V>): map<Name, V> {
    if e.scopes == [] then map[] else e.scopes[|e.scopes|-1]
  }

  /** addSymbol, in an environment that has a scope. */
  function Add<V>(e: Env<V>, x: Name, v: V): (r: Env<V>)
    requires e.scopes != []
  {
    e.(scopes := e.scopes[..|e.scopes|-1] + [Top(e)[x := v]])
  }

  /** Assignment: replace the innermost binding of `x`. */
  function UpdateScopes<V>(ss: seq<map<Name, V>>, x: Name, v: V): (r: seq<map<Name, V>>)
    requires LookupScopes(ss, x).Some?
    ensures |r| == |ss|
  {
    var n := |ss| - 1;
    if x in ss[n] then ss[..n] + [ss[n][x := v]] else UpdateScopes(ss[..n], x, v) + [ss[n]]
  }

  /** Any number of declarations, one after the other. */
  function AddEach<V>(e: Env<V>, ds: seq<(Name, V)>): (r: Env<V>)
    requires e.scopes != []
    decreases |ds|
  {
    if ds == [] then e else AddEach(Add(e, ds[0].0, ds[0].1), ds[1..])
  }

  predicate Declares<V>(ds: seq<(Name, V)>, x: Name) {
    exists i :: 0 <= i < |ds| && ds[i].0 == x
  }

  /** Declarations add to the innermost scope and leave the others alone. */
  lemma {:induction false} AddEachBelow<V>(e: Env<V>, ds: seq<(Name, V)>)
    requires e.scopes != []
    ensures AddEach(e, ds).scopes != [] && Exit(AddEach(e, ds)) == Exit(e)
    ensures forall x :: x in Top(AddEach(e, ds)) <==> x in Top(e) || Declares(ds, x)
    decreases |ds|
  {
    if ds != [] {
      var e1, rest := Add(e, ds[0].0, ds[0].1), ds[1..];
      assert Exit(e1).scopes == Exit(e).scopes;
      AddEachBelow(e1, rest);
      forall x ensures Declares(ds, x) <==> x == ds[0].0 || Declares(rest, x) {
        if i :| 0 <= i < |rest| && rest[i].0 == x { assert ds[i+1].0 == x; }
        if i :| 0 < i < |ds| && ds[i].0 == x { assert rest[i-1].0 == x; }
      }
    }
  }

  /** Leaving a scope undoes entering it and whatever was declared in between. */
  lemma ExitUndoes<V>(e: Env<V>, ds: seq<(Name, V)>)
    ensures Exit(AddEach(Enter(e), ds)) == e
    ensures forall x :: x in Top(AddEach(Enter(e), ds)) <==> Declares(ds, x)
  {
    AddEachBelow(Enter(e), ds);
    assert Exit(Enter(e)).scopes == e.scopes;
  }

  /** A declaration shadows: it decides the lookup of its own name and of no other. */
  lemma AddLookup<V>(e: Env<V>, x: Name, v: V, y: Name)
    requires e.scopes != []
    ensures Lookup(Add(e, x, v), y) == if y == x then Some(v) else Lookup(e, y)
  {
    var r := Add(e, x, v).scopes;
    assert r[..|r|-1] == e.scopes[..|e.scopes|-1];
  }

  lemma EnterLookup<V>(e: Env<V>, y: Name)
    ensures Lookup(Enter(e), y) == Lookup(e, y)
  {
    var r := Enter(e).scopes;
    assert r[..|r|-1] == e.scopes;
  }

  // ---------- name order ----------

  /** The order of std::map<std::string, ...>: by characters, a prefix first. */
  predicate NameLe(a: Name, b: Name) {
    a == [] || (b != [] && (a[0] < b[0] || (a[0] == b[0] && NameLe(a[1..], b[1..]))))
  }

  lemma {:induction false} NameTotal(a: Name, b: Name)
    ensures NameLe(a, b) || NameLe(b, a)
    decreases |a|
  {
    if a != [] && b != [] { NameTotal(a[1..], b[1..]); }
  }

  lemma {:induction false} NameTransitive(a: Name, b: Name, c: Name)
    requires NameLe(a, b) && NameLe(b, c)
    ensures NameLe(a, c)
    decreases |a|
  {
    if a != [] && a[0] == b[0] == c[0] { NameTransitive(a[1..], b[1..], c[1..]); }
  }

  lemma {:induction false} NameAntisymmetric(a: Name, b: Name)
    requires NameLe(a, b) && NameLe(b, a)
    ensures a == b
    decreases |a|
  {
    if a != [] {
      NameAntisymmetric(a[1..], b[1..]);
      assert a == [a[0]] + a[1..] && b == [b[0]] + b[1..];
    }
  }

  predicate Least(s: set<Name>, x: Name) {
    x in s && forall y :: y in s ==> NameLe(x, y)
  }

  lemma {:induction false} HasLeast(s: set<Name>) returns (x: Name)
    requires s != {}
    ensures Least(s, x)
    decreases |s|
  {
    x :| x in s;
    var rest := s - {x};
    if rest == {} {
      assert s == {x};
      NameTotal(x, x);
    } else {
      var y := HasLeast(rest);
      NameTotal(x, y);
      NameTotal(x, x);
      if !NameLe(x, y) {
        x := y;
      } else {
        forall z | z in s ensures NameLe(x, z) {
          if z != x { NameTransitive(x, y, z); }
        }
      }
    }
  }

  lemma LeastExists(s: set<Name>)
    requires s != {}
    ensures exists x :: Least(s, x)
  {
    var x := HasLeast(s);
  }

  /** The iteration order of a scope: each name once, by ascending name. */
  ghost function InOrder(s: set<Name>): (r: seq<Name>)
    ensures forall x :: x in r <==> x in s
    ensures |r| == |s|
    decreases |s|
  {
    if s == {} then [] else
      LeastExists(s);
      var x :| Least(s, x);
      [x] + InOrder(s - {x})
  }

  /** The order is found by taking the least name again and again. */
  lemma InOrderStep(s: set<Name>, x: Name)
    requires Least(s, x)
    ensures InOrder(s) == [x] + InOrder(s - {x})
  {
    var y :| Least(s, y) && InOrder(s) == [y] + InOrder(s - {y});
    assert Least(s, y);
    assert x in s && y in s && NameLe(x, y) && NameLe(y, x);
    NameAntisymmetric(x, y);
  }

  lemma {:induction false} InOrderSorted(s: set<Name>, i: nat, j: nat)
    requires i < j < |InOrder(s)|
    ensures NameLe(InOrder(s)[i], InOrder(s)[j]) && InOrder(s)[i] != InOrder(s)[j]
    decreases |s|
  {
    var x := HasLeast(s);
    InOrderStep(s, x);
    var rest := InOrder(s - {x});
    if i == 0 {
      assert rest[j-1] in rest;
    } else {
      InOrderSorted(s - {x}, i - 1, j - 1);
    }
  }
}

