/** How a symbol table describes a frame, and how declaring, assigning and leaving a scope
    change what the frame holds. */
module FrameFacts {
  import opened Bags
  import opened RefCountStore
  import opened Scopes
  import opened Source
  import opened Machine

  // ---------- the symbol table describes the frame ----------

  ghost predicate SameScope(s: map<Name, bool>, r: map<Name, Cell>) {
    s.Keys == r.Keys && forall x :: x in s ==> s[x] == r[x].pointer
  }

  ghost predicate SameScopes(ss: seq<map<Name, bool>>, rs: seq<map<Name, Cell>>) {
    |ss| == |rs| && forall i :: 0 <= i < |ss| ==> SameScope(ss[i], rs[i])
  }

  /** The running function has exactly the declared variables, with the declared types. */
  ghost predicate Match(t: Table, fr: Frame) {
    SameScopes(t.scopes, fr.scopes) && SameScope(t.params, fr.params)
  }

  lemma {:induction false} SameScopesLookup(ss: seq<map<Name, bool>>, rs: seq<map<Name, Cell>>, x: Name)
    requires SameScopes(ss, rs)
    ensures LookupScopes(ss, x).Some? == LookupScopes(rs, x).Some?
    ensures LookupScopes(ss, x).Some? ==> LookupScopes(ss, x).value == LookupScopes(rs, x).value.pointer
    decreases |ss|
  {
    if ss != [] {
      var n := |ss| - 1;
      assert SameScope(ss[n], rs[n]);
      SameScopesLookup(ss[..n], rs[..n], x);
    }
  }

  lemma MatchLookup(t: Table, fr: Frame, x: Name)
    requires Match(t, fr)
    ensures Lookup(t, x).Some? == Lookup(fr, x).Some?
    ensures Lookup(t, x).Some? ==> Lookup(t, x).value == Lookup(fr, x).value.pointer
  {
    SameScopesLookup(t.scopes, fr.scopes, x);
  }

  lemma MatchEnter(t: Table, fr: Frame)
    requires Match(t, fr)
    ensures Match(Enter(t), Enter(fr))
  {
  }

  lemma MatchAdd(t: Table, fr: Frame, x: Name, c: Cell)
    requires Match(t, fr) && t.scopes != []
    ensures fr.scopes != [] && Match(Add(t, x, c.pointer), Add(fr, x, c))
  {
    assert SameScope(Top(t), Top(fr));
  }

  lemma MatchExit(t: Table, fr: Frame)
    requires Match(t, fr)
    ensures Match(Exit(t), Exit(fr))
  {
  }

  lemma {:induction false} SameScopesUpdate(ss: seq<map<Name, bool>>, rs: seq<map<Name, Cell>>, x: Name, c: Cell)
    requires SameScopes(ss, rs) && LookupScopes(rs, x).Some? && LookupScopes(rs, x).value.pointer == c.pointer
    ensures SameScopes(ss, UpdateScopes(rs, x, c))
    decreases |ss|
  {
    var n := |ss| - 1;
    assert SameScope(ss[n], rs[n]);
    if x !in rs[n] {
      SameScopesUpdate(ss[..n], rs[..n], x, c);
      forall i | 0 <= i < |ss| ensures SameScope(ss[i], UpdateScopes(rs, x, c)[i]) {
        if i < n { assert SameScope(ss[..n][i], UpdateScopes(rs[..n], x, c)[i]); }
      }
    }
  }

  /** Assignment does not disturb other names. */
  lemma {:induction false} UpdateLookup(rs: seq<map<Name, Cell>>, x: Name, c: Cell, y: Name)
    requires LookupScopes(rs, x).Some? && y != x
    ensures LookupScopes(UpdateScopes(rs, x, c), y) == LookupScopes(rs, y)
    decreases |rs|
  {
    var n, us := |rs| - 1, UpdateScopes(rs, x, c);
    if x in rs[n] {
      assert us[..n] == rs[..n];
    } else {
      assert us[..n] == UpdateScopes(rs[..n], x, c);
      UpdateLookup(rs[..n], x, c, y);
    }
  }

  lemma MatchAssigned(t: Table, fr: Frame, x: Name, v: nat)
    requires Match(t, fr)
    ensures Match(t, Assigned(fr, x, v))
  {
    if LookupScopes(fr.scopes, x).Some? {
      SameScopesUpdate(t.scopes, fr.scopes, x, Cell(LookupScopes(fr.scopes, x).value.pointer, v));
    }
  }

  // ---------- what the frame holds ----------

  lemma MapBagHas(m: map<Name, Cell>, x: Name)
    requires x in m
    ensures CellBag(m[x]) <= ScopeBag(m)
  {
    MapBagTake(m, CellBag, x);
  }

  lemma {:induction false} ScopesHold(ss: seq<map<Name, Cell>>, x: Name)
    requires LookupScopes(ss, x).Some?
    ensures CellBag(LookupScopes(ss, x).value) <= ScopesBag(ss)
    decreases |ss|
  {
    var n := |ss| - 1;
    if x in ss[n] { MapBagHas(ss[n], x); } else { ScopesHold(ss[..n], x); }
  }

  /** A variable's pointer is among those its frame holds. */
  lemma FrameHolds(fr: Frame, x: Name)
    requires Lookup(fr, x).Some?
    ensures CellBag(Lookup(fr, x).value) <= FrameBag(fr)
  {
    if LookupScopes(fr.scopes, x).Some? { ScopesHold(fr.scopes, x); } else { MapBagHas(fr.params, x); }
  }

  lemma {:induction false} UpdateBag(ss: seq<map<Name, Cell>>, x: Name, c: Cell)
    requires LookupScopes(ss, x).Some?
    ensures ScopesBag(UpdateScopes(ss, x, c)) + CellBag(LookupScopes(ss, x).value) == ScopesBag(ss) + CellBag(c)
    decreases |ss|
  {
    var n, rs := |ss| - 1, UpdateScopes(ss, x, c);
    if x in ss[n] {
      assert rs[..n] == ss[..n];
      MapBagUpdate(ss[n], CellBag, x, c);
      Beside(ScopeBag(rs[n]), CellBag(ss[n][x]), ScopeBag(ss[n]), CellBag(c), ScopesBag(ss[..n]));
    } else {
      assert rs[..n] == UpdateScopes(ss[..n], x, c);
      UpdateBag(ss[..n], x, c);
      Beside(ScopesBag(rs[..n]), CellBag(LookupScopes(ss, x).value), ScopesBag(ss[..n]), CellBag(c), ScopeBag(ss[n]));
    }
  }

  lemma Beside(a: multiset<Addr>, c: multiset<Addr>, b: multiset<Addr>, d: multiset<Addr>, rest: multiset<Addr>)
    requires a + c == b + d
    ensures (a + rest) + c == (b + rest) + d && (rest + a) + c == (rest + b) + d
  {
    assert (a + rest) + c == (a + c) + rest;
    assert (b + rest) + d == (b + d) + rest;
    assert (rest + a) + c == (a + c) + rest;
    assert (rest + b) + d == (b + d) + rest;
  }

  /** Assignment replaces what the variable held. */
  lemma AssignedBag(fr: Frame, x: Name, v: nat)
    requires Lookup(fr, x).Some?
    ensures var c := Lookup(fr, x).value;
            FrameBag(Assigned(fr, x, v)) + CellBag(c) == FrameBag(fr) + CellBag(Cell(c.pointer, v))
  {
    var was, now := Lookup(fr, x).value, Cell(Lookup(fr, x).value.pointer, v);
    if LookupScopes(fr.scopes, x).Some? {
      UpdateBag(fr.scopes, x, now);
      Beside(ScopesBag(Assigned(fr, x, v).scopes), CellBag(was), ScopesBag(fr.scopes), CellBag(now),
             ScopeBag(fr.params));
    } else {
      MapBagUpdate(fr.params, CellBag, x, now);
      Beside(ScopeBag(Assigned(fr, x, v).params), CellBag(was), ScopeBag(fr.params), CellBag(now),
             ScopesBag(fr.scopes));
    }
  }

  lemma AddBag(fr: Frame, x: Name, c: Cell)
    requires fr.scopes != [] && x !in Top(fr)
    ensures FrameBag(Add(fr, x, c)) == FrameBag(fr) + CellBag(c)
  {
    var rs := Add(fr, x, c).scopes;
    assert rs[..|rs|-1] == fr.scopes[..|fr.scopes|-1];
    MapBagInsert(Top(fr), CellBag, x, c);
  }

  lemma EnterBag(fr: Frame)
    ensures FrameBag(Enter(fr)) == FrameBag(fr)
  {
    assert Enter(fr).scopes[..|fr.scopes|] == fr.scopes;
  }

  lemma ExitBag(fr: Frame)
    requires fr.scopes != []
    ensures FrameBag(fr) == FrameBag(Exit(fr)) + ScopeBag(Top(fr))
  {
  }

  /** Giving up the old value first and then assigning, as the emitted code does. */
  lemma VacatedBag(fr: Frame, x: Name, v: nat)
    requires Lookup(fr, x).Some?
    ensures var c := Lookup(fr, x).value;
            && FrameBag(Assigned(fr, x, NULL)) == FrameBag(fr) - CellBag(c)
            && FrameBag(Assigned(fr, x, v)) == FrameBag(fr) - CellBag(c) + CellBag(Cell(c.pointer, v))
  {
    AssignedBag(fr, x, NULL);
    AssignedBag(fr, x, v);
    FrameHolds(fr, x);
    var c := Lookup(fr, x).value;
    Cancel(FrameBag(Assigned(fr, x, NULL)), FrameBag(fr), CellBag(c), multiset{});
    Cancel(FrameBag(Assigned(fr, x, v)), FrameBag(fr), CellBag(c), CellBag(Cell(c.pointer, v)));
  }

  lemma Cancel(a: multiset<Addr>, b: multiset<Addr>, c: multiset<Addr>, d: multiset<Addr>)
    requires a + c == b + d && c <= b
    ensures a == b - c + d
  {
    assert (a + c) - c == a;
    assert (b + d) - c == b - c + d;
  }
}

