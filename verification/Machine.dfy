/** A machine for the emitted C. Its memory is the reference-count runtime's store plus
    the contents of fields; its variables live in scopes; calls nest. It stops when the
    program touches memory that has been freed, and at an `Audit` where some count is
    not the number of holders, so a run that does not stop for these reasons has
    exact counts at every statement boundary.

    Runs are bounded by `fuel`, which limits the depth of calls plus loop iterations.
    The theorems about runs hold for every fuel. */
module Machine {
  import opened Bags
  import opened RefCountStore
  import opened RefCountCascade
  import opened Scopes
  import opened Source
  import opened Emit

  datatype Cell = Cell(pointer: bool, value: nat)

  type Frame = Env<Cell>

  /** malloc hands out the addresses `next`, `next + 1`, ...: no address is used twice, so
      a pointer to a freed block is never mistaken for a pointer to a newer one. A field
      remembers whether a pointer was stored in it. */
  datatype Memory = Memory(store: Store, fields: map<(Addr, Name), Cell>, next: Addr)

  /** A caller waiting for a call to return. `pending` is the variable the result is going
      to be assigned to, whose old value has already been released. */
  datatype Suspended = Suspended(frame: Frame, pending: Option<Name>)

  datatype Reason = UseAfterFree | BadCount | Undefined | NullDereference | OutOfFuel

  datatype Outcome =
    | Normal(frame: Frame, mem: Memory)
    | Returned(value: nat, mem: Memory)
    | Stop(reason: Reason)

  datatype Value = Got(value: nat, mem: Memory) | Failed(reason: Reason)

  // ---------- holders ----------

  /** What a variable holds: a non-null pointer is one reference. */
  function CellBag(c: Cell): multiset<Addr> {
    if c.pointer && c.value != NULL then multiset{c.value} else multiset{}
  }

  ghost function ScopeBag(scope: map<Name, Cell>): multiset<Addr> { MapBag(scope, CellBag) }

  ghost function ScopesBag(ss: seq<map<Name, Cell>>): multiset<Addr> {
    if ss == [] then multiset{} else ScopesBag(ss[..|ss|-1]) + ScopeBag(ss[|ss|-1])
  }

  /** All pointers held by the variables and parameters of a frame. */
  ghost function FrameBag(fr: Frame): multiset<Addr> { ScopesBag(fr.scopes) + ScopeBag(fr.params) }

  function Assigned(fr: Frame, x: Name, v: nat): Frame {
    if LookupScopes(fr.scopes, x).Some?
    then fr.(scopes := UpdateScopes(fr.scopes, x, Cell(LookupScopes(fr.scopes, x).value.pointer, v)))
    else if x in fr.params then fr.(params := fr.params[x := Cell(fr.params[x].pointer, v)])
    else fr
  }

  /** A waiting frame still holds everything but the variable about to be overwritten. */
  ghost function SuspendedBag(s: Suspended): multiset<Addr> {
    FrameBag(if s.pending.Some? then Assigned(s.frame, s.pending.value, NULL) else s.frame)
  }

  ghost function StackBag(below: seq<Suspended>): multiset<Addr> {
    if below == [] then multiset{} else StackBag(below[..|below|-1]) + SuspendedBag(below[|below|-1])
  }

  /** Every count is the number of variables, parameters, recorded edges and lost
      increments that refer to the block, and every pointer in a field is counted. */
  ghost predicate Exact(mem: Memory, held: multiset<Addr>) {
    && Balanced(mem.store.heap, held, mem.store.lost)
    && mem.next != NULL && (forall a :: Unissued(mem, a)) && FieldsCounted(mem)
  }

  /** A pointer in a field of a live block is among the edges of that block, or is a lost
      increment. */
  ghost predicate FieldCounted(mem: Memory, o: Addr, f: Name) {
    (o, f) in mem.fields ==>
      && o < mem.next
      && (o in mem.store.heap ==>
            CellBag(mem.fields[(o, f)]) <= multiset(mem.store.heap[o].targets) + mem.store.lost)
  }

  ghost predicate FieldsCounted(mem: Memory) { forall o, f :: FieldCounted(mem, o, f) }

  ghost predicate Unissued(mem: Memory, a: Addr) { a in mem.store.heap ==> a < mem.next }

  // ---------- execution ----------

  function Eval(fr: Frame, a: Atom): Option<nat> {
    match a
    case K(n) => Some(n)
    case V(x) => if Lookup(fr, x).Some? then Some(Lookup(fr, x).value.value) else None
  }

  function DoInc(fr: Frame, mem: Memory, x: Name, other: Option<Name>): Outcome {
    var p := Eval(fr, V(x));
    var o := if other.Some? then Eval(fr, V(other.value)) else Some(NULL);
    if p.None? || o.None? then Stop(Undefined)
    else
      match IncRef(mem.store, p.value, o.value)
      case Fault => Stop(UseAfterFree)
      case Ok(s) => Normal(fr, mem.(store := s))
  }

  function DoDec(fr: Frame, mem: Memory, x: Name): Outcome {
    var p := Eval(fr, V(x));
    if p.None? then Stop(Undefined)
    else
      match DecRef(mem.store, p.value)
      case Fault => Stop(UseAfterFree)
      case Ok(s) => Normal(fr, mem.(store := s))
  }

  /** An operand with its type. */
  function Operand(fr: Frame, a: Atom): Option<Cell> {
    match a
    case K(n) => Some(Cell(false, n))
    case V(x) => Lookup(fr, x)
  }

  function DoSetField(fr: Frame, mem: Memory, v: Name, f: Name, a: Atom): Outcome {
    var p, w := Eval(fr, V(v)), Operand(fr, a);
    if p.None? || w.None? then Stop(Undefined)
    else if p.value == NULL then Stop(NullDereference)
    else if p.value !in mem.store.heap then Stop(UseAfterFree)
    else Normal(fr, mem.(fields := mem.fields[(p.value, f) := w.value]))
  }

  function DoNew(mem: Memory, bytes: nat): Value {
    Got(mem.next, mem.(store := AllocAt(mem.store, mem.next, bytes), next := mem.next + 1))
  }

  /** The parameters of a call: None if an argument is not defined. */
  function Bind(fr: Frame, ps: seq<Param>, args: seq<Atom>): Option<map<Name, Cell>> {
    if |ps| != |args| then None
    else if ps == [] then Some(map[])
    else
      match (Bind(fr, ps[1..], args[1..]), Eval(fr, args[0]))
      case (Some(m), Some(v)) => Some(m[ps[0].name := Cell(ps[0].pointer, v)])
      case _ => None
  }

  ghost function Exec(code: map<Name, Code>, fuel: nat, ops: seq<Op>, below: seq<Suspended>, fr: Frame,
                      mem: Memory): Outcome
    decreases fuel, 1, ops
  {
    if ops == [] then Normal(fr, mem)
    else
      match ExecOp(code, fuel, ops[0], below, fr, mem)
      case Normal(fr1, mem1) => Exec(code, fuel, ops[1..], below, fr1, mem1)
      case Returned(v, mem1) => Returned(v, mem1)
      case Stop(r) => Stop(r)
  }

  ghost function ExecOp(code: map<Name, Code>, fuel: nat, op: Op, below: seq<Suspended>, fr: Frame,
                        mem: Memory): Outcome
    decreases fuel, 1, op
  {
    match op
    case Inc(x, other) => DoInc(fr, mem, x, other)
    case Dec(x) => DoDec(fr, mem, x)
    case Declare(x, pointer, rhs) =>
      (match ExecRhs(code, fuel, rhs, below, fr, mem, None)
       case Failed(r) => Stop(r)
       case Got(v, mem1) => if fr.scopes == [] then Stop(Undefined) else Normal(Add(fr, x, Cell(pointer, v)), mem1))
    case Set(x, rhs) =>
      (match ExecRhs(code, fuel, rhs, below, fr, mem, Some(x))
       case Failed(r) => Stop(r)
       case Got(v, mem1) => if Lookup(fr, x).None? then Stop(Undefined) else Normal(Assigned(fr, x, v), mem1))
    case SetField(v, f, a) => DoSetField(fr, mem, v, f, a)
    case Invoke(fn, args) =>
      (match ExecCall(code, fuel, fn, args, below, fr, mem, None)
       case Failed(r) => Stop(r)
       case Got(_, mem1) => Normal(fr, mem1))
    case Scope(body) => Leave(Exec(code, fuel, body, below, Enter(fr), mem))
    case Branch(c, thn, els) =>
      (match Eval(fr, V(c))
       case None => Stop(Undefined)
       case Some(v) => Exec(code, fuel, if v != 0 then thn else els, below, fr, mem))
    case Loop(c, loop) =>
      (match Eval(fr, V(c))
       case None => Stop(Undefined)
       case Some(v) =>
         if v == 0 then Normal(fr, mem)
         else if fuel == 0 then Stop(OutOfFuel)
         else
           match Exec(code, fuel - 1, loop, below, fr, mem)
           case Normal(fr1, mem1) => ExecOp(code, fuel - 1, op, below, fr1, mem1)
           case Returned(w, mem1) => Returned(w, mem1)
           case Stop(r) => Stop(r))
    case Ret(a) =>
      (match Eval(fr, a)
       case None => Stop(Undefined)
       case Some(v) => Returned(v, mem))
    case Audit => if Exact(mem, StackBag(below) + FrameBag(fr)) then Normal(fr, mem) else Stop(BadCount)
  }

  /** The end of a block discards its scope. */
  function Leave(o: Outcome): Outcome {
    if o.Normal? then Normal(Exit(o.frame), o.mem) else o
  }

  ghost function ExecRhs(code: map<Name, Code>, fuel: nat, rhs: Rhs, below: seq<Suspended>, fr: Frame, mem: Memory,
                         pending: Option<Name>): Value
    decreases fuel, 0, 1
  {
    match rhs
    case Val(a) => (match Eval(fr, a) case None => Failed(Undefined) case Some(v) => Got(v, mem))
    case New(bytes) => DoNew(mem, bytes)
    case Call(fn, args) => ExecCall(code, fuel, fn, args, below, fr, mem, pending)
  }

  ghost function ExecCall(code: map<Name, Code>, fuel: nat, fn: Name, args: seq<Atom>, below: seq<Suspended>,
                          fr: Frame, mem: Memory, pending: Option<Name>): Value
    decreases fuel, 0, 0
  {
    if fn !in code then Failed(Undefined)
    else
      match Bind(fr, code[fn].params, args)
      case None => Failed(Undefined)
      case Some(params) =>
        if fuel == 0 then Failed(OutOfFuel)
        else Finish(Exec(code, fuel - 1, code[fn].body, below + [Suspended(fr, pending)], Env([map[]], params), mem))
  }

  function Finish(o: Outcome): Value {
    match o
    case Normal(_, mem) => Got(0, mem)
    case Returned(v, mem) => Got(v, mem)
    case Stop(r) => Failed(r)
  }

  /** A program starts with nothing allocated and calls its `main`. */
  const Fresh := Memory(EmptyStore, map[], 1)

  ghost function Run(code: map<Name, Code>, fuel: nat): Value {
    ExecCall(code, fuel, "main", [], [], Env([], map[]), Fresh, None)
  }
}

