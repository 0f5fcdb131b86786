/**
What code that measures collections does when it runs.

A collection is named by one local: a local that holds it, or a reference or pointer parameter it is reached through.
Other locals are handles to it, or carry handles inside. A temporary remembers what it measured and how often its
collection could have changed by then (the epoch), so that a stale measurement can be told from a current one.
*/
module CapMachine {
  import opened Mir
  import opened State
  import opened C = CapTransfer
  import M = Machine

  datatype Value =
    | Plain(n: nat)
    | Measured(m: Measure, base: Local, epoch: nat, n: nat)
    | Compared(bop: BinOp, x: Value, y: Value)

  function Number(v: Value): nat {
    match v
    case Plain(n) => n
    case Measured(_, _, _, n) => n
    case Compared(bop, x, y) => if M.IsCmp(bop) && M.EvalCmp(bop, Number(x), Number(y)) then 1 else 0
  }

  /**
  Sizes and epoch of the collection a local names; the collection a handle refers to (a local that is no handle refers
  to itself); the other collections that can be changed through what a local holds, and through memory; values.
  */
  datatype Mem = Mem(
    size: (Measure, Local) -> nat,
    epoch: Local -> nat,
    target: Local -> Local,
    carries: Local -> set<Local>,
    stored: set<Local>,
    val: Local -> Value)

  predicate IsHandle(ty: Ty) { ty.Ref? || ty.RawPtr? }

  /** A handle through which its target can be changed: any but a shared reference. */
  predicate Grants(body: Body, l: Local) { IsHandle(TyOf(body, l)) && TyOf(body, l) != Ref(false) }

  predicate Simple(p: Place) { p.proj == [] || p.proj == [Deref] }

  // ----- what values give access to -----

  /** The collections that can be changed through the value of an operand. */
  function Content(body: Body, m: Mem, op: Operand): set<Local> {
    if op.Const? then {}
    else
      var l := op.place.local;
      if op.place.proj != [] then m.carries(l) + (if Deref in op.place.proj then m.stored else {})
      else if TyOf(body, l) == Ref(false) then {}
      else m.carries(l) + (if Grants(body, l) then {m.target(l)} else {})
  }

  function AllContent(body: Body, m: Mem, ops: seq<Operand>): set<Local> {
    set i, c | 0 <= i < |ops| && c in Content(body, m, ops[i]) :: c
  }

  /** A handle to a part of `p` gives access to what `p` is part of. */
  function Inside(m: Mem, p: Place): set<Local> {
    m.carries(p.local) + (if Simple(p) then {} else {m.target(p.local)} + (if Deref in p.proj then m.stored else {}))
  }

  /** What the value carries besides the collection it is a handle to. */
  function RvalueContent(body: Body, m: Mem, rv: Rvalue): set<Local> {
    match rv
    case Use(op) => if OperandLocal(op).Some? then m.carries(OperandLocal(op).value) else Content(body, m, op)
    case BorrowOf(p) => Inside(m, p)
    case AddrOf(p) => Inside(m, p)
    case Aggregate(ops) => AllContent(body, m, ops)
    case PtrCast(op) => if OperandLocal(op).Some? then m.carries(OperandLocal(op).value) else Content(body, m, op)
    case IntCast(op, _) => Content(body, m, op)
    case PtrMetadata(_) => {}
    case Binary(bop, a, b) => if M.IsCmp(bop) then {} else Content(body, m, a) + Content(body, m, b)
    case Opaque(ops) => AllContent(body, m, ops)
  }

  /** The collection `d` refers to after `d = rv`: references, raw addresses, casts and copies of handles keep it. */
  function RvalueTarget(body: Body, m: Mem, d: Local, rv: Rvalue): Local {
    if !IsHandle(TyOf(body, d)) then d
    else
      match rv
      case BorrowOf(p) => if Simple(p) then m.target(p.local) else d
      case AddrOf(p) => if Simple(p) then m.target(p.local) else d
      case Use(op) => CopiedTarget(body, m, d, op)
      case PtrCast(op) => CopiedTarget(body, m, d, op)
      case _ => d
  }

  function CopiedTarget(body: Body, m: Mem, d: Local, op: Operand): Local {
    if OperandLocal(op).Some? && IsHandle(TyOf(body, OperandLocal(op).value)) then m.target(OperandLocal(op).value) else d
  }

  // ----- steps -----

  /** Locals outside `vals` keep value and target, collections outside `hit` sizes and epoch; the others age. */
  ghost predicate Kept(m: Mem, m': Mem, vals: set<Local>, hit: set<Local>) {
    && (forall l: Local :: l !in vals ==> m'.val(l) == m.val(l) && m'.target(l) == m.target(l))
    && (forall l: Local :: m'.epoch(l) == if l in hit then m.epoch(l) + 1 else m.epoch(l))
    && (forall k, l: Local :: l !in hit ==> m'.size(k, l) == m.size(k, l))
  }

  /** `d` may come to carry `more`, memory `put`. */
  ghost predicate Carried(m: Mem, m': Mem, d: set<Local>, had: bool, more: set<Local>, put: set<Local>) {
    && (forall l: Local :: l !in d ==> m'.carries(l) == m.carries(l))
    && (forall l <- d :: m'.carries(l) <= more + (if had then m.carries(l) else {}))
    && m'.stored <= m.stored + put
  }

  ghost function MeasureNow(m: Mem, k: Measure, base: Local): Value {
    Measured(k, base, m.epoch(base), m.size(k, base))
  }

  /** What `d = rv` leaves in `d`: a copied collection keeps its sizes. */
  ghost predicate Defines(body: Body, m: Mem, m': Mem, d: Local, rv: Rvalue) {
    && m'.target(d) == RvalueTarget(body, m, d, rv)
    && match rv
       case Use(op) =>
         OperandLocal(op).Some? && !IsHandle(TyOf(body, OperandLocal(op).value)) ==>
           forall k: Measure :: m'.size(k, d) == m.size(k, OperandLocal(op).value)
       case PtrMetadata(op) =>
         OperandLocal(op).Some? ==> m'.val(d) == MeasureNow(m, Length, m.target(OperandLocal(op).value))
       case Binary(bop, a, b) =>
         M.IsCmp(bop) && OperandLocal(a).Some? && OperandLocal(b).Some? ==>
           m'.val(d) == Compared(bop, m.val(OperandLocal(a).value), m.val(OperandLocal(b).value))
       case _ => true
  }

  /** The collections a store into a projection may change: writing a field of a collection may change its sizes. */
  ghost function StoreHits(m: Mem, dst: Place): set<Local> {
    {m.target(dst.local)} + (if Deref in dst.proj then m.carries(dst.local) + m.stored else {})
  }

  /** All a stored value gives access to. */
  ghost function StoredContent(body: Body, m: Mem, rv: Rvalue): set<Local> {
    match rv
    case Use(op) => Content(body, m, op)
    case PtrCast(op) => Content(body, m, op)
    case BorrowOf(p) => Inside(m, p) + {m.target(p.local)}
    case AddrOf(p) => Inside(m, p) + {m.target(p.local)}
    case _ => RvalueContent(body, m, rv)
  }

  ghost predicate StepStatement(body: Body, stmt: Statement, m: Mem, m': Mem) {
    if stmt.Nop? then m' == m
    else
      var d, rv := stmt.dst.local, stmt.rv;
      if stmt.dst.proj != [] then
        && Kept(m, m', {}, StoreHits(m, stmt.dst))
        && Carried(m, m', {d}, true, StoredContent(body, m, rv), if Deref in stmt.dst.proj then StoredContent(body, m, rv) else {})
      else
        && Kept(m, m', {d}, {d}) && Defines(body, m, m', d, rv)
        && Carried(m, m', {d}, false, RvalueContent(body, m, rv), {})
  }

  /** The collections a call can change: through the handles it is given, and those kept in memory. */
  ghost function Reached(body: Body, m: Mem, args: seq<Operand>): set<Local> { AllContent(body, m, args) + m.stored }

  /** A callee that may keep, or return, a handle to a collection its arguments give access to. */
  predicate Retains(callee: Option<Callee>) { callee.None? || callee.value.retains }

  /** What the result carries; a dereferenced view carries what its receiver does. */
  ghost function ResultContent(body: Body, m: Mem, callee: Option<Callee>, args: seq<Operand>): set<Local> {
    if Retains(callee) then Reached(body, m, args)
    else if callee.value.view.DerefView? && FirstArgLocal(args).Some? then m.carries(FirstArgLocal(args).value)
    else {}
  }

  /** What a call that returns leaves in its destination. */
  ghost predicate Answers(callee: Callee, args: seq<Operand>, d: Local, m: Mem, m': Mem) {
    var recv := FirstArgLocal(args);
    if recv.None? then m'.target(d) == d
    else
      match callee.view
      case LenView => m'.target(d) == d && m'.val(d) == MeasureNow(m', Length, m.target(recv.value))
      case CapacityView => m'.target(d) == d && m'.val(d) == MeasureNow(m', Capacity, m.target(recv.value))
      case DerefView => m'.target(d) == m.target(recv.value)
      case NoView => m'.target(d) == d
  }

  ghost predicate StepCall(body: Body, term: Terminator, m: Mem, succ: Block, m': Mem)
    requires term.Call?
  {
    var callee, args, dest := term.callee, term.args, term.dest;
    var d, result := dest.local, ResultContent(body, m, callee, args);
    && Kept(m, m', {d}, Reached(body, m, args) + {d} + (if dest.proj != [] then StoreHits(m, dest) else {}))
    && Carried(m, m', {d}, dest.proj != [], result,
               (if Retains(callee) then Reached(body, m, args) else {}) + (if Deref in dest.proj then result else {}))
    && (if callee.Some? && term.next == Some(succ) && dest.proj == [] then Answers(callee.value, args, d, m, m')
        else m'.target(d) == if dest.proj == [] then d else m.target(d))
  }

  ghost predicate StepTerminator(body: Body, term: Terminator, m: Mem, succ: Block, m': Mem) {
    && succ in Successors(term)
    && match term
       case Call(_, _, _, _, _) => StepCall(body, term, m, succ, m')
       case SwitchInt(discr, targets, otherwise) =>
         && m' == m
         && (OperandLocal(discr).Some? ==> succ == M.Route(targets, otherwise, Number(m.val(OperandLocal(discr).value))))
       case Drop(place, _, _) =>
         // drop glue may use the handles inside the value
         Kept(m, m', {}, m.carries(place.local) + m.stored) && Carried(m, m', {}, true, {}, {})
       case Leave(ins, outs, _) =>
         var reach := Reached(body, m, ins);
         && Kept(m, m', M.Written(outs), reach + M.Written(outs))
         && Carried(m, m', M.Written(outs), true, reach, reach)
       case _ => m' == m
  }
}
