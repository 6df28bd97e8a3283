/** The mark-sweep runtime (runtime/src/mark_sweep_allocator.c) on values: which
    blocks a collection keeps, what it frees, and what every run preserves.
    `MarkSweepRuntime` is the same code over linked headers updated in place. */
module MarkSweepModel {

  type Word = nat

  /** sizeof(MSHeader): marked, size, next, prev. */
  const HEADER_SIZE := 32
  const WORD_SIZE := 8

  /** A block of the allocation list. `addr` is the address of its header, `payload`
      the words after it; `id` is the serial number of the allocation. */
  datatype Block = Block(id: nat, addr: nat, payload: seq<Word>)

  function Size(b: Block): nat { HEADER_SIZE + WORD_SIZE * |b.payload| }

  /** An address inside the payload of `b`, not necessarily its start. */
  predicate InPayload(b: Block, w: Word) {
    b.addr + HEADER_SIZE <= w < b.addr + Size(b)
  }

  /** Some word of `ws` points into the payload of `b`. */
  predicate Hit(ws: seq<Word>, b: Block) {
    exists w :: w in ws && InPayload(b, w)
  }

  /** malloc hands out disjoint ranges of memory. */
  predicate Apart(b: Block, c: Block) {
    b.addr + Size(b) <= c.addr || c.addr + Size(c) <= b.addr
  }

  /** Named so that the verifier compares two positions only when asked to. */
  ghost predicate ApartAt(h: seq<Block>, i: int, j: int) {
    0 <= i < |h| && 0 <= j < |h| && Apart(h[i], h[j])
  }

  ghost predicate Disjoint(h: seq<Block>) {
    forall i, j :: 0 <= i < j < |h| ==> ApartAt(h, i, j)
  }

  function Members(h: seq<Block>): set<Block> { set b | b in h }

  // ---------- reachability ----------

  /** A chain of listed blocks: a word of `ws` points into the first, and the payload
      of each points into the next. */
  ghost predicate Path(h: seq<Block>, ws: seq<Word>, p: seq<Block>) {
    && |p| > 0 && Hit(ws, p[0])
    && (forall i :: 0 <= i < |p| ==> p[i] in h)
    && (forall i, j :: 0 <= i && j == i + 1 < |p| ==> Hit(p[i].payload, p[j]))
  }

  ghost predicate Reach(h: seq<Block>, ws: seq<Word>, b: Block) {
    exists p :: Path(h, ws, p) && p[|p|-1] == b
  }

  ghost function Reached(h: seq<Block>, ws: seq<Word>): set<Block> {
    set b | b in h && Reach(h, ws, b)
  }

  lemma ReachFirst(h: seq<Block>, ws: seq<Word>, b: Block)
    requires b in h && Hit(ws, b)
    ensures Reach(h, ws, b)
  {
    assert Path(h, ws, [b]);
    assert [b][|[b]|-1] == b;
  }

  lemma ReachNext(h: seq<Block>, ws: seq<Word>, a: Block, b: Block)
    requires Reach(h, ws, a) && b in h && Hit(a.payload, b)
    ensures Reach(h, ws, b)
  {
    var p :| Path(h, ws, p) && p[|p|-1] == a;
    var q := p + [b];
    assert Path(h, ws, q) && q[|q|-1] == b;
  }

  /** A set that contains the blocks `ws` points into. */
  ghost predicate Covers(h: seq<Block>, ws: seq<Word>, m: set<Block>) {
    forall b :: b in h && Hit(ws, b) ==> b in m
  }

  /** The payloads of `part` point only into `m`. */
  ghost predicate ClosedIn(h: seq<Block>, part: set<Block>, m: set<Block>) {
    forall a :: a in part ==> Covers(h, a.payload, m)
  }

  lemma {:induction false} PathStaysInside(h: seq<Block>, ws: seq<Word>, m: set<Block>, p: seq<Block>, i: nat)
    requires Covers(h, ws, m) && ClosedIn(h, m, m) && Path(h, ws, p) && i < |p|
    ensures p[i] in m
    decreases i
  {
    if i > 0 { PathStaysInside(h, ws, m, p, i - 1); }
  }

  // ---------- marking ----------

  datatype Found = None | Some(block: Block)

  /** find_header: the first listed block whose payload contains `w`. */
  function Find(h: seq<Block>, w: Word): (r: Found)
    ensures r.Some? ==> r.block in h && InPayload(r.block, w)
    ensures r.None? ==> forall b :: b in h ==> !InPayload(b, w)
  {
    if h == [] then None
    else if InPayload(h[0], w) then Some(h[0])
    else
      assert h == [h[0]] + h[1..];
      Find(h[1..], w)
  }

  /** mark(w): depth-first, over a graph that may be cyclic. It terminates because
      each recursion has one more block marked. */
  function Mark(h: seq<Block>, m: set<Block>, w: Word): (r: set<Block>)
    ensures m <= r <= m + Members(h)
    decreases Members(h) - m, 0
  {
    match Find(h, w)
    case None => m
    case Some(b) => if b in m then m else MarkAll(h, m + {b}, b.payload)
  }

  /** The word loops of mark, conservative_scan_stack and mark_phase. */
  function MarkAll(h: seq<Block>, m: set<Block>, ws: seq<Word>): (r: set<Block>)
    ensures m <= r <= m + Members(h)
    decreases Members(h) - m, |ws|
  {
    if ws == [] then m
    else
      var m1 := Mark(h, m, ws[0]);
      assert Members(h) - m1 <= Members(h) - m;
      MarkAll(h, m1, ws[1..])
  }

  lemma MembersApart(h: seq<Block>, b: Block, c: Block)
    requires Disjoint(h) && b in h && c in h && b != c
    ensures Apart(b, c)
  {
    var i :| 0 <= i < |h| && h[i] == b;
    var j :| 0 <= j < |h| && h[j] == c;
    assert if i < j then ApartAt(h, i, j) else ApartAt(h, j, i);
  }

  lemma FindUnique(h: seq<Block>, w: Word, b: Block)
    requires Disjoint(h) && b in h && InPayload(b, w)
    ensures Find(h, w) == Some(b)
  {
    if Find(h, w) != Some(b) { MembersApart(h, b, Find(h, w).block); }
  }

  /** Marking from `w` marks the block `w` points into, and everything that the
      newly marked blocks point into. No assumption on what was marked before. */
  lemma {:induction false} MarkCloses(h: seq<Block>, m: set<Block>, w: Word)
    requires Disjoint(h)
    ensures Covers(h, [w], Mark(h, m, w))
    ensures ClosedIn(h, Mark(h, m, w) - m, Mark(h, m, w))
    decreases Members(h) - m, 0
  {
    match Find(h, w)
    case None =>
    case Some(b) =>
      forall c | c in h && InPayload(c, w) ensures c == b { FindUnique(h, w, c); }
      if b !in m {
        MarkAllCloses(h, m + {b}, b.payload);
        assert Mark(h, m, w) - m == Mark(h, m, w) - (m + {b}) + {b};
      }
  }

  lemma {:induction false} MarkAllCloses(h: seq<Block>, m: set<Block>, ws: seq<Word>)
    requires Disjoint(h)
    ensures Covers(h, ws, MarkAll(h, m, ws))
    ensures ClosedIn(h, MarkAll(h, m, ws) - m, MarkAll(h, m, ws))
    decreases Members(h) - m, |ws|
  {
    if ws != [] {
      var m1 := Mark(h, m, ws[0]);
      MarkCloses(h, m, ws[0]);
      assert Members(h) - m1 <= Members(h) - m;
      MarkAllCloses(h, m1, ws[1..]);
      assert ws == [ws[0]] + ws[1..];
      forall b | b in h && Hit(ws, b) ensures b in MarkAll(h, m, ws) {
        assert Hit([ws[0]], b) || Hit(ws[1..], b);
      }
    }
  }

  /** Marking never leaves a closed set that covers its words. */
  lemma {:induction false} MarkStays(h: seq<Block>, m: set<Block>, w: Word, x: set<Block>)
    requires Covers(h, [w], x) && ClosedIn(h, x, x) && m <= x
    ensures Mark(h, m, w) <= x
    decreases Members(h) - m, 0
  {
    match Find(h, w)
    case None =>
    case Some(b) =>
      assert Hit([w], b);
      if b !in m { MarkAllStays(h, m + {b}, b.payload, x); }
  }

  lemma {:induction false} MarkAllStays(h: seq<Block>, m: set<Block>, ws: seq<Word>, x: set<Block>)
    requires Covers(h, ws, x) && ClosedIn(h, x, x) && m <= x
    ensures MarkAll(h, m, ws) <= x
    decreases Members(h) - m, |ws|
  {
    if ws != [] {
      var m1 := Mark(h, m, ws[0]);
      forall b | b in h && Hit([ws[0]], b) ensures b in x { assert Hit(ws, b); }
      forall b | b in h && Hit(ws[1..], b) ensures b in x { assert Hit(ws, b); }
      MarkStays(h, m, ws[0], x);
      assert Members(h) - m1 <= Members(h) - m;
      MarkAllStays(h, m1, ws[1..], x);
    }
  }

  /** The marks after mark_phase: all flags cleared, then every word marked from. */
  function MarkPhase(h: seq<Block>, ws: seq<Word>): set<Block> { MarkAll(h, {}, ws) }

  /** Marking is exact, on cyclic heaps too. */
  lemma MarkExact(h: seq<Block>, ws: seq<Word>)
    requires Disjoint(h)
    ensures MarkPhase(h, ws) == Reached(h, ws)
  {
    var m, x := MarkPhase(h, ws), Reached(h, ws);
    MarkAllCloses(h, {}, ws);
    assert m - {} == m;
    forall b | b in x ensures b in m {
      var p :| Path(h, ws, p) && p[|p|-1] == b;
      PathStaysInside(h, ws, m, p, |p| - 1);
    }
    forall b | b in h && Hit(ws, b) ensures b in x { ReachFirst(h, ws, b); }
    forall a, b | a in x && b in h && Hit(a.payload, b) ensures b in x { ReachNext(h, ws, a, b); }
    MarkAllStays(h, {}, ws, x);
  }

  // ---------- sweeping ----------

  /** The marked ones among the first `k` blocks, in list order. */
  function KeepTo(h: seq<Block>, m: set<Block>, k: nat): seq<Block>
    requires k <= |h|
  {
    if k == 0 then [] else KeepTo(h, m, k - 1) + if h[k-1] in m then [h[k-1]] else []
  }

  /** The unmarked ones among the first `k` blocks, in list order. */
  function DropTo(h: seq<Block>, m: set<Block>, k: nat): seq<Block>
    requires k <= |h|
  {
    if k == 0 then [] else DropTo(h, m, k - 1) + if h[k-1] in m then [] else [h[k-1]]
  }

  /** What a sweep leaves in the list, and what it frees. */
  function Keep(h: seq<Block>, m: set<Block>): seq<Block> { KeepTo(h, m, |h|) }
  function Drop(h: seq<Block>, m: set<Block>): seq<Block> { DropTo(h, m, |h|) }

  lemma {:induction false} KeepToMembers(h: seq<Block>, m: set<Block>, k: nat)
    requires k <= |h|
    ensures forall i :: 0 <= i < k && h[i] in m ==> h[i] in KeepTo(h, m, k)
    ensures forall b :: b in KeepTo(h, m, k) ==> b in h && b in m
    decreases k
  {
    if k > 0 { KeepToMembers(h, m, k - 1); }
  }

  lemma KeepMembers(h: seq<Block>, m: set<Block>)
    ensures forall b :: b in Keep(h, m) <==> b in h && b in m
  {
    KeepToMembers(h, m, |h|);
  }

  /** Totals over the first `k` blocks, and over all of them. */
  function BytesTo(h: seq<Block>, k: nat): nat
    requires k <= |h|
  {
    if k == 0 then 0 else BytesTo(h, k - 1) + Size(h[k-1])
  }

  function IdsTo(h: seq<Block>, k: nat): seq<nat>
    requires k <= |h|
  {
    if k == 0 then [] else IdsTo(h, k - 1) + [h[k-1].id]
  }

  function Bytes(h: seq<Block>): nat { BytesTo(h, |h|) }
  function Ids(h: seq<Block>): seq<nat> { IdsTo(h, |h|) }

  lemma {:induction false} SameTotals(g: seq<Block>, h: seq<Block>, k: nat)
    requires k <= |g| && k <= |h| && forall i :: 0 <= i < k ==> g[i].id == h[i].id && Size(g[i]) == Size(h[i])
    ensures BytesTo(g, k) == BytesTo(h, k) && IdsTo(g, k) == IdsTo(h, k)
    decreases k
  {
    if k > 0 { SameTotals(g, h, k - 1); }
  }

  lemma AppendTotals(h: seq<Block>, b: Block)
    ensures Bytes(h + [b]) == Bytes(h) + Size(b) && Ids(h + [b]) == Ids(h) + [b.id]
  {
    SameTotals(h + [b], h, |h|);
  }

  /** How often `id` occurs. */
  function Times(ids: seq<nat>, id: nat): nat {
    if ids == [] then 0 else Times(ids[1..], id) + if ids[0] == id then 1 else 0
  }

  lemma {:induction false} TimesConcat(a: seq<nat>, b: seq<nat>, id: nat)
    ensures Times(a + b, id) == Times(a, id) + Times(b, id)
    decreases |a|
  {
    if a == [] {
      assert a + b == b;
    } else {
      assert (a + b)[1..] == a[1..] + b;
      TimesConcat(a[1..], b, id);
    }
  }

  lemma TimesAppend(ids: seq<nat>, x: nat, id: nat)
    ensures Times(ids + [x], id) == Times(ids, id) + if x == id then 1 else 0
  {
    TimesConcat(ids, [x], id);
  }

  /** The same with the new block at the front, where allocation puts it. */
  lemma {:induction false} PushTotals(b: Block, h: seq<Block>, k: nat)
    requires k <= |h|
    ensures BytesTo([b] + h, k + 1) == Size(b) + BytesTo(h, k) && IdsTo([b] + h, k + 1) == [b.id] + IdsTo(h, k)
    decreases k
  {
    if k == 0 {
      assert BytesTo([b] + h, 0) == 0 && IdsTo([b] + h, 0) == [];
    } else {
      PushTotals(b, h, k - 1);
      assert ([b] + h)[k] == h[k-1];
    }
  }

  /** Keeping and dropping split the list: bytes and length. */
  lemma {:induction false} KeepDropTo(h: seq<Block>, m: set<Block>, k: nat)
    requires k <= |h|
    ensures BytesTo(h, k) == Bytes(KeepTo(h, m, k)) + Bytes(DropTo(h, m, k))
    ensures k == |KeepTo(h, m, k)| + |DropTo(h, m, k)|
    decreases k
  {
    if k > 0 {
      KeepDropTo(h, m, k - 1);
      KeepDropNext(h, m, k - 1);
    }
  }

  /** And identities. */
  lemma {:induction false} KeepDropIds(h: seq<Block>, m: set<Block>, k: nat, id: nat)
    requires k <= |h|
    ensures Times(IdsTo(h, k), id) == Times(Ids(KeepTo(h, m, k)), id) + Times(Ids(DropTo(h, m, k)), id)
    decreases k
  {
    if k > 0 {
      KeepDropIds(h, m, k - 1, id);
      KeepDropNext(h, m, k - 1);
      TimesAppend(IdsTo(h, k - 1), h[k-1].id, id);
      if h[k-1] in m {
        TimesAppend(Ids(KeepTo(h, m, k - 1)), h[k-1].id, id);
      } else {
        TimesAppend(Ids(DropTo(h, m, k - 1)), h[k-1].id, id);
      }
    }
  }

  /** One block further along: it is added to one side, the other is unchanged. */
  lemma KeepDropNext(h: seq<Block>, m: set<Block>, k: nat)
    requires k < |h|
    ensures h[k] in m ==> KeepTo(h, m, k + 1) == KeepTo(h, m, k) + [h[k]] && DropTo(h, m, k + 1) == DropTo(h, m, k)
    ensures h[k] !in m ==> KeepTo(h, m, k + 1) == KeepTo(h, m, k) && DropTo(h, m, k + 1) == DropTo(h, m, k) + [h[k]]
    ensures var more := if h[k] in m then KeepTo(h, m, k) else DropTo(h, m, k);
            && Bytes(more + [h[k]]) == Bytes(more) + Size(h[k])
            && Ids(more + [h[k]]) == Ids(more) + [h[k].id]
  {
    AppendTotals(if h[k] in m then KeepTo(h, m, k) else DropTo(h, m, k), h[k]);
  }

  lemma {:induction false} KeepAll(h: seq<Block>, m: set<Block>, k: nat)
    requires Members(h) <= m && k <= |h|
    ensures KeepTo(h, m, k) == h[..k] && DropTo(h, m, k) == []
    decreases k
  {
    if k > 0 {
      assert h[k-1] in Members(h);
      KeepAll(h, m, k - 1);
      assert h[..k] == h[..k-1] + [h[k-1]];
    }
  }

  /** Keeping preserves the order of the list. */
  lemma {:induction false} KeepOrder(h: seq<Block>, m: set<Block>, k: nat, i: nat, j: nat) returns (x: nat, y: nat)
    requires k <= |h| && i < j < |KeepTo(h, m, k)|
    ensures x < y < k && h[x] == KeepTo(h, m, k)[i] && h[y] == KeepTo(h, m, k)[j]
    decreases k
  {
    if j < |KeepTo(h, m, k - 1)| {
      x, y := KeepOrder(h, m, k - 1, i, j);
    } else {
      x := KeepSource(h, m, k - 1, i);
      y := k - 1;
    }
  }

  lemma {:induction false} KeepSource(h: seq<Block>, m: set<Block>, k: nat, i: nat) returns (x: nat)
    requires k <= |h| && i < |KeepTo(h, m, k)|
    ensures x < k && h[x] == KeepTo(h, m, k)[i]
    decreases k
  {
    x := k - 1;
    if i < |KeepTo(h, m, k - 1)| { x := KeepSource(h, m, k - 1, i); }
  }

  lemma KeepDisjoint(h: seq<Block>, m: set<Block>)
    requires Disjoint(h)
    ensures Disjoint(Keep(h, m))
  {
    forall i, j | 0 <= i < j < |Keep(h, m)| ensures ApartAt(Keep(h, m), i, j) {
      var x, y := KeepOrder(h, m, |h|, i, j);
      assert ApartAt(h, x, y);
    }
  }

  /** The list after one collection that scanned the words `ws`. */
  function Collected(h: seq<Block>, ws: seq<Word>): seq<Block> { Keep(h, MarkPhase(h, ws)) }

  /** A collection keeps exactly the reachable blocks. */
  lemma CollectedExact(h: seq<Block>, ws: seq<Word>)
    requires Disjoint(h)
    ensures Disjoint(Collected(h, ws))
    ensures forall b :: b in Collected(h, ws) <==> b in h && Reach(h, ws, b)
  {
    MarkExact(h, ws);
    KeepMembers(h, MarkPhase(h, ws));
    KeepDisjoint(h, MarkPhase(h, ws));
  }

  /** Every block on a path is reachable. */
  lemma PathReaches(h: seq<Block>, ws: seq<Word>, p: seq<Block>, i: nat)
    requires Path(h, ws, p) && i < |p|
    ensures Reach(h, ws, p[i])
  {
    var q := p[..i+1];
    assert Path(h, ws, q) && q[|q|-1] == p[i];
  }

  /** Taking out unreachable blocks does not change what is reachable. */
  lemma ReachAfterCollection(h: seq<Block>, ws: seq<Word>, b: Block)
    requires Disjoint(h)
    ensures Reach(Collected(h, ws), ws, b) <==> Reach(h, ws, b)
  {
    CollectedExact(h, ws);
    var g := Collected(h, ws);
    if p :| Path(g, ws, p) && p[|p|-1] == b {
      assert Path(h, ws, p);
    }
    if p :| Path(h, ws, p) && p[|p|-1] == b {
      forall i | 0 <= i < |p| ensures p[i] in g { PathReaches(h, ws, p, i); }
      assert Path(g, ws, p);
    }
  }

  /** A second collection with the same words finds nothing to free. */
  lemma CollectTwice(h: seq<Block>, ws: seq<Word>)
    requires Disjoint(h)
    ensures Collected(Collected(h, ws), ws) == Collected(h, ws)
    ensures Drop(Collected(h, ws), MarkPhase(Collected(h, ws), ws)) == []
  {
    var g := Collected(h, ws);
    CollectedExact(h, ws);
    MarkExact(g, ws);
    forall b | b in Members(g) ensures b in MarkPhase(g, ws) { ReachAfterCollection(h, ws, b); }
    KeepAll(g, MarkPhase(g, ws), |g|);
    assert g[..|g|] == g;
  }

  /** Scanning more words never frees more. */
  lemma CollectMonotone(h: seq<Block>, ws: seq<Word>, vs: seq<Word>)
    requires Disjoint(h) && forall w :: w in ws ==> w in vs
    ensures forall b :: b in Collected(h, ws) ==> b in Collected(h, vs)
  {
    CollectedExact(h, ws);
    CollectedExact(h, vs);
    forall b | b in h && Reach(h, ws, b) ensures Reach(h, vs, b) {
      var p :| Path(h, ws, p) && p[|p|-1] == b;
      assert Path(h, vs, p);
    }
  }

  /** One collection frees any set of blocks that nothing outside it points into, such
      as a cycle no scanned word reaches. */
  lemma UnreachedFreed(h: seq<Block>, ws: seq<Word>, garbage: set<Block>)
    requires Disjoint(h)
    requires forall b :: b in garbage ==> !Hit(ws, b)
    requires forall a, b :: a in h && a !in garbage && b in garbage ==> !Hit(a.payload, b)
    ensures forall b :: b in garbage ==> b !in Collected(h, ws)
  {
    CollectedExact(h, ws);
    var rest := Members(h) - garbage;
    forall b | b in garbage && b in h && Reach(h, ws, b) ensures false {
      var p :| Path(h, ws, p) && p[|p|-1] == b;
      PathStaysInside(h, ws, rest, p, |p| - 1);
    }
  }

  /** A pointer to a block's own header points into no block at all. */
  lemma HeaderPointerMisses(h: seq<Block>, b: Block, w: Word)
    requires Disjoint(h) && b in h && b.addr <= w < b.addr + HEADER_SIZE
    ensures Find(h, w) == None
  {
    if Find(h, w).Some? && Find(h, w).block != b { MembersApart(h, b, Find(h, w).block); }
  }

  /** An address inside some listed header. */
  ghost predicate InHeader(h: seq<Block>, w: Word) {
    exists b :: b in h && b.addr <= w < b.addr + HEADER_SIZE
  }

  /** Words that point at headers never matter: scanning them too reaches nothing more. */
  lemma HeaderWordsIgnored(h: seq<Block>, ws: seq<Word>, vs: seq<Word>, b: Block)
    requires Disjoint(h) && forall v :: v in vs ==> InHeader(h, v)
    ensures Reach(h, ws + vs, b) <==> Reach(h, ws, b)
  {
    forall c | c in h ensures Hit(ws + vs, c) <==> Hit(ws, c) { HeaderWordsMiss(h, ws, vs, c); }
    if p :| Path(h, ws + vs, p) && p[|p|-1] == b { assert Path(h, ws, p); }
    if p :| Path(h, ws, p) && p[|p|-1] == b { assert Path(h, ws + vs, p); }
  }

  lemma HeaderWordsMiss(h: seq<Block>, ws: seq<Word>, vs: seq<Word>, c: Block)
    requires Disjoint(h) && c in h && forall v :: v in vs ==> InHeader(h, v)
    ensures Hit(ws + vs, c) <==> Hit(ws, c)
  {
    if w :| w in ws + vs && InPayload(c, w) {
      if w !in ws {
        var b :| b in h && b.addr <= w < b.addr + HEADER_SIZE;
        HeaderPointerMisses(h, b, w);
        FindUnique(h, w, c);
        assert false;
      }
    }
    if w :| w in ws && InPayload(c, w) { assert w in ws + vs; }
  }
}

