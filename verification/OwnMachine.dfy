/**
Ownership on real runs: which allocations the raw pointers held by each local and by memory belong to, which of them
owners hold, and which were freed.

An allocation is named by the block whose call made it; runs in which an allocation site executes twice are not
considered (`Limits.SiteReuseExact` says when that matters). It counts as freed from the moment it is handed to
`from_raw` or deallocated: from then on it belongs to the owner returned, and raw pointers to it must not be used.
*/
module OwnMachine {
  import opened Mir
  import opened Lattice
  import opened State
  import opened O = OwnTransfer

  /**
  `holds[l]`: the allocations whose raw pointers are in `l` or in a field of it. `owns[l]`: those that owners in `l`, as
  `from_raw` returns them, own. `stored`: those whose pointers or owners were written to memory; reading memory may give
  any of them.
  */
  datatype Mem = Mem(
    holds: map<Local, set<ObjectId>>,
    owns: map<Local, set<ObjectId>>,
    stored: set<ObjectId>,
    freed: set<ObjectId>,
    made: set<ObjectId>)

  /** The local whose address, or the address of whose part, the statement takes. */
  function AddressTaken(stmt: Statement): Option<Local> {
    if stmt.Nop? then None
    else
      match stmt.rv
      case BorrowOf(p) => if Deref in p.proj then None else Some(p.local)
      case AddrOf(p) => if Deref in p.proj then None else Some(p.local)
      case _ => None
  }

  /** The locals whose address the body takes: memory accesses may read and write them. */
  function Exposed(body: Body): set<Local> {
    set b, i | 0 <= b < |body.blocks| && 0 <= i < |body.blocks[b].stmts| && AddressTaken(body.blocks[b].stmts[i]).Some?
      :: AddressTaken(body.blocks[b].stmts[i]).value
  }

  // ----- values -----

  /** The raw pointers read from an operand. */
  function OperandHolds(m: Mem, op: Operand): set<ObjectId> {
    if op.Const? then {} else if Deref in op.place.proj then m.stored else Get(m.holds, op.place.local)
  }

  /** What the owners read from an operand own. */
  function OperandOwns(m: Mem, op: Operand): set<ObjectId> {
    if op.Const? then {} else if Deref in op.place.proj then m.stored else Get(m.owns, op.place.local)
  }

  function AllHold(m: Mem, ops: seq<Operand>): set<ObjectId> {
    set i, o | 0 <= i < |ops| && o in OperandHolds(m, ops[i]) :: o
  }

  function AllOwn(m: Mem, ops: seq<Operand>): set<ObjectId> {
    set i, o | 0 <= i < |ops| && o in OperandOwns(m, ops[i]) :: o
  }

  predicate IsComparison(bop: BinOp) { bop.Order? || bop.Eq? || bop.Ne? }

  /** The allocations an assigned value may point into through the raw pointers it is made from. */
  function Sources(m: Mem, rv: Rvalue): set<ObjectId> {
    match rv
    case Use(op) => OperandHolds(m, op)
    case BorrowOf(p) => Get(m.holds, p.local) + (if Deref in p.proj then m.stored else {})
    case AddrOf(p) => Get(m.holds, p.local) + (if Deref in p.proj then m.stored else {})
    case Aggregate(ops) => AllHold(m, ops)
    case PtrCast(op) => OperandHolds(m, op)
    case IntCast(op, _) => OperandHolds(m, op)
    case PtrMetadata(_) => {}
    case Binary(bop, a, b) => if IsComparison(bop) then {} else OperandHolds(m, a) + OperandHolds(m, b)
    case Opaque(ops) => AllHold(m, ops)
  }

  /** The raw pointers taken out of owners: by `&*b`, by a cast, or by reading the pointer field of a `Box`. */
  function TakenOut(m: Mem, rv: Rvalue): set<ObjectId> {
    match rv
    case Use(op) => if op.Const? || op.place.proj == [] then {} else OperandOwns(m, op)
    case BorrowOf(p) => Get(m.owns, p.local)
    case AddrOf(p) => Get(m.owns, p.local)
    case Aggregate(ops) => {}
    case PtrCast(op) => OperandOwns(m, op)
    case IntCast(op, _) => OperandOwns(m, op)
    case PtrMetadata(_) => {}
    case Binary(bop, a, b) => if IsComparison(bop) then {} else OperandOwns(m, a) + OperandOwns(m, b)
    case Opaque(ops) => AllOwn(m, ops)
  }

  /** What the owners in an assigned value own. */
  function OwnerSources(m: Mem, rv: Rvalue): set<ObjectId> {
    match rv
    case Use(op) => OperandOwns(m, op)
    case Aggregate(ops) => AllOwn(m, ops)
    case PtrCast(op) => OperandOwns(m, op)
    case Opaque(ops) => AllOwn(m, ops)
    case _ => {}
  }

  function MovedLocal(rv: Rvalue): set<Local> {
    if rv.Use? && rv.op.Move? && rv.op.place.proj == [] then {rv.op.place.local} else {}
  }

  // ----- steps -----

  /** Locals other than `d` gain nothing but, if exposed, what is written to memory; those moved from are dead. */
  ghost predicate OthersShrink(
    was: map<Local, set<ObjectId>>, now: map<Local, set<ObjectId>>, d: set<Local>, moved: set<Local>, x: set<Local>, put: set<ObjectId>)
  {
    && (forall l: Local :: l !in d && l !in x && l in moved ==> Get(now, l) == {})
    && (forall l: Local :: l !in d ==> Get(now, l) <= Get(was, l) + (if l in x then put else {}))
  }

  /** The assigned place is memory, or a local that memory accesses reach. */
  predicate ToMemory(x: set<Local>, dst: Place) { Deref in dst.proj || dst.local in x }

  /** `got` is assigned to `dst`, and to exposed locals if `dst` is in memory. */
  ghost predicate Assigned(
    was: map<Local, set<ObjectId>>, now: map<Local, set<ObjectId>>, x: set<Local>, dst: Place, rv: Rvalue, got: set<ObjectId>)
  {
    var d := dst.local;
    && OthersShrink(was, now, {d}, MovedLocal(rv), x, if ToMemory(x, dst) then got else {})
    && Get(now, d) <= (if dst.proj == [] then {} else Get(was, d)) + (if Deref in dst.proj && d !in x then {} else got)
  }

  ghost predicate StepStatement(x: set<Local>, stmt: Statement, m: Mem, m': Mem) {
    if stmt.Nop? then m' == m
    else
      var got, owned := Sources(m, stmt.rv) + TakenOut(m, stmt.rv), OwnerSources(m, stmt.rv);
      && m'.freed == m.freed && m'.made == m.made
      && Assigned(m.holds, m'.holds, x, stmt.dst, stmt.rv, got)
      && Assigned(m.owns, m'.owns, x, stmt.dst, stmt.rv, owned)
      && m.stored <= m'.stored <= m.stored + (if ToMemory(x, stmt.dst) then got + owned else {})
  }

  predicate Allocates(c: Callee) { c.role.IntoRaw? || c.role.RawRealloc? }

  function FirstHolds(m: Mem, args: seq<Operand>): set<ObjectId> { if |args| > 0 then OperandHolds(m, args[0]) else {} }
  function FirstOwns(m: Mem, args: seq<Operand>): set<ObjectId> { if |args| > 0 then OperandOwns(m, args[0]) else {} }

  /** A callee nothing is known about. */
  predicate Free(callee: Option<Callee>) {
    callee.None? || (callee.value.role.Plain? && callee.value.role.touch.Anything? && !callee.value.accessor)
  }

  /** What a call may free; what an owner among its arguments owns has been freed already. */
  function MayFree(m: Mem, callee: Option<Callee>, args: seq<Operand>): set<ObjectId> {
    if Free(callee) then AllHold(m, args) + m.stored
    else if callee.value.role.FromRaw? || callee.value.role.RawRealloc? then FirstHolds(m, args)
    else {}
  }

  /** The raw pointers among its arguments a call may write to memory. */
  function MayStore(m: Mem, callee: Option<Callee>, args: seq<Operand>): set<ObjectId> {
    if Free(callee) then AllHold(m, args)
    else
      match callee.value.role
      case Plain(touch) => if touch.WritesFirst? && !callee.value.accessor && |args| > 0 then AllHold(m, args[1..]) else {}
      case IntoRaw => AllHold(m, args)
      case MuAccess => AllHold(m, args)
      case BufWrite => AllHold(m, args)
      case Acquire => AllHold(m, args)
      case _ => {}
  }

  /** The same for owners, or pointers taken out of them. */
  function OwnersStore(m: Mem, callee: Option<Callee>, args: seq<Operand>): set<ObjectId> {
    if Free(callee) then AllOwn(m, args)
    else
      match callee.value.role
      case Plain(touch) => if touch.WritesFirst? && !callee.value.accessor && |args| > 0 then AllOwn(m, args[1..]) else {}
      case IntoRaw => AllOwn(m, args)
      case MuAccess => AllOwn(m, args)
      case BufWrite => AllOwn(m, args)
      case Acquire => AllOwn(m, args)
      case _ => {}
  }

  /** The raw pointers a call may return, from its pointer arguments or from memory. */
  function MayReturn(m: Mem, callee: Option<Callee>, args: seq<Operand>, bb: Block): set<ObjectId> {
    if Free(callee) then AllHold(m, args) + m.stored
    else if Allocates(callee.value) then {Site(bb)}
    else
      match callee.value.role
      case Plain(_) => if callee.value.accessor then FirstHolds(m, args) else {}
      case PtrRead => FirstHolds(m, args) + m.stored
      case MuAccess => AllHold(m, args) + m.stored
      case BufWrite => AllHold(m, args) + m.stored
      case Acquire => AllHold(m, args) + m.stored
      case _ => {}
  }

  /** The raw pointers it may take out of owners among its arguments: accessors do, and `into_raw` of such an owner. */
  function OwnersReturn(m: Mem, callee: Option<Callee>, args: seq<Operand>): set<ObjectId> {
    if Free(callee) then AllOwn(m, args)
    else
      match callee.value.role
      case Plain(_) => if callee.value.accessor then FirstOwns(m, args) else {}
      case RawRealloc => FirstOwns(m, args)
      case PtrRead => FirstOwns(m, args)
      case IntoRaw => AllOwn(m, args)
      case MuAccess => AllOwn(m, args)
      case BufWrite => AllOwn(m, args)
      case Acquire => AllOwn(m, args)
      case _ => {}
  }

  /** What the owner a call returns may own: `from_raw` makes one of its argument. */
  function MayOwn(m: Mem, callee: Option<Callee>, args: seq<Operand>): set<ObjectId> {
    if Free(callee) then AllHold(m, args) + AllOwn(m, args) + m.stored
    else
      match callee.value.role
      case FromRaw => FirstHolds(m, args) + FirstOwns(m, args)
      case PtrRead => FirstOwns(m, args) + m.stored
      case MuAccess => AllOwn(m, args) + m.stored
      case BufWrite => AllOwn(m, args) + m.stored
      case Acquire => AllOwn(m, args) + m.stored
      case _ => {}
  }

  /** A result reaches the destination of a call, and memory if the destination is there. */
  ghost predicate Received(
    was: map<Local, set<ObjectId>>, now: map<Local, set<ObjectId>>, x: set<Local>, dest: Place, result: set<ObjectId>, put: set<ObjectId>)
  {
    var d := dest.local;
    && OthersShrink(was, now, {d}, {}, x, put)
    && Get(now, d) <= (if dest.proj == [] then {} else Get(was, d)) + (if Deref in dest.proj && d !in x then {} else result) +
                      (if d in x then put else {})
  }

  /** A call returns or unwinds; an allocation site has not executed before, and what is owned counts as freed. */
  ghost predicate StepCall(x: set<Local>, callee: Option<Callee>, args: seq<Operand>, dest: Place, bb: Block, m: Mem, m': Mem) {
    var d, allocates := dest.local, callee.Some? && Allocates(callee.value);
    var result, owned := MayReturn(m, callee, args, bb) + OwnersReturn(m, callee, args), MayOwn(m, callee, args);
    var put := MayStore(m, callee, args) + OwnersStore(m, callee, args) + (if ToMemory(x, dest) then result + owned else {});
    && m.freed <= m'.freed <= m.freed + MayFree(m, callee, args)
    && (allocates ==> Site(bb) !in m.made)
    && m.made <= m'.made <= m.made + (if allocates then {Site(bb)} else {})
    && Received(m.holds, m'.holds, x, dest, result, put)
    && Received(m.owns, m'.owns, x, dest, owned, put)
    && Get(m'.holds, d) <= m'.made && Get(m'.owns, d) <= m'.freed
    && m.stored <= m'.stored <= m.stored + put
  }

  ghost predicate StepTerminator(x: set<Local>, bb: Block, term: Terminator, m: Mem, succ: Block, m': Mem) {
    && succ in Successors(term)
    && match term
       case Call(callee, args, dest, _, _) => StepCall(x, callee, args, dest, bb, m, m')
       case Drop(place, _, _) =>
         // drop glue may run any code on the pointers in the value; an owner frees what it owns and keeps nothing
         var reach, dead := Get(m.holds, place.local) + m.stored, if place.proj == [] then {place.local} else {};
         && m.freed <= m'.freed <= m.freed + reach && m.stored <= m'.stored <= m.stored + reach && m'.made == m.made
         && OthersShrink(m.holds, m'.holds, {}, dead, x, reach) && OthersShrink(m.owns, m'.owns, {}, dead, x, reach)
       case Leave(ins, outs, _) =>
         var reach := AllHold(m, ins) + AllOwn(m, ins) + m.stored;
         && m.freed <= m'.freed <= m.freed + reach && m.stored <= m'.stored <= m.stored + reach && m'.made == m.made
         && (forall l: Local :: Get(m'.holds, l) <= Get(m.holds, l) + reach)
         && (forall l: Local :: Get(m'.owns, l) <= Get(m.owns, l) + reach)
       case _ => m' == m
  }
}
