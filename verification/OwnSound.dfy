/**
One step of the ownership slice against the ownership machine: tracking covers what locals hold, and every freed
allocation is known to be, or possibly, freed.

Nothing is claimed of bodies that write tracked pointers to memory (`Limits.WrittenPointerExact`) or take pointers out
of the owners `from_raw` returns (`Limits.ReborrowedOwnerExact`).
*/
module OwnSound {
  import opened Mir
  import opened Lattice
  import opened State
  import opened O = OwnTransfer
  import opened OwnMachine

  // ----- the fragment, read off the state -----

  /** The operand is a constant, is read from memory, or its local is not tracked. */
  predicate Empty(s: Ownership, op: Operand) {
    op.Const? || Deref in op.place.proj || op.place.local !in s.pointsTo
  }

  predicate AllEmpty(s: Ownership, ops: seq<Operand>) { forall i :: 0 <= i < |ops| ==> Empty(s, ops[i]) }

  /** The transfer follows the operand: it is a plain local, or there is nothing to follow. */
  predicate Followed(s: Ownership, op: Operand) { Empty(s, op) || op.place.proj == [] }

  predicate BorrowsNothing(s: Ownership, p: Place) { p.local !in s.pointsTo }

  /** The value holds no tracked pointer. */
  predicate RvalueEmpty(s: Ownership, rv: Rvalue) {
    match rv
    case Use(op) => Empty(s, op)
    case BorrowOf(p) => BorrowsNothing(s, p)
    case AddrOf(p) => BorrowsNothing(s, p)
    case Aggregate(ops) => AllEmpty(s, ops)
    case PtrCast(op) => Empty(s, op)
    case IntCast(op, _) => Empty(s, op)
    case PtrMetadata(_) => true
    case Binary(bop, a, b) => IsComparison(bop) || (Empty(s, a) && Empty(s, b))
    case Opaque(ops) => AllEmpty(s, ops)
  }

  /** The transfer follows every tracked pointer of the value: copies, moves, casts, offsets, aggregates, `&raw *p`. */
  predicate RvalueFollowed(s: Ownership, rv: Rvalue) {
    match rv
    case Use(Move(p)) => AtMostLeadingDeref(p.proj) || p.local !in s.pointsTo
    case Use(_) => true
    case AddrOf(p) => p.proj == [Deref] || BorrowsNothing(s, p)
    case Aggregate(ops) => forall i :: 0 <= i < |ops| ==> Followed(s, ops[i])
    case PtrCast(op) => Followed(s, op)
    case Binary(bop, a, b) =>
      if bop == Offset || bop == Add || bop == Sub then Followed(s, a) && Followed(s, b) && (Empty(s, a) || Empty(s, b))
      else RvalueEmpty(s, rv)
    case _ => RvalueEmpty(s, rv)
  }

  /** No tracked pointer is written to a field or to memory, and no tracked local is borrowed. */
  predicate StatementClean(s: Ownership, stmt: Statement) {
    stmt.Assign? ==> if stmt.dst.proj == [] then RvalueFollowed(s, stmt.rv) else RvalueEmpty(s, stmt.rv)
  }

  predicate PlainCallee(sums: SummaryMap, c: Callee) { !c.growsBuffer && c.def !in sums }

  predicate FirstFollowed(s: Ownership, args: seq<Operand>) { |args| > 0 ==> Followed(s, args[0]) }

  /** Allocation, free, raw realloc, pointer reads and arithmetic; other calls get no tracked pointer. */
  predicate CallClean(sums: SummaryMap, s: Ownership, callee: Option<Callee>, args: seq<Operand>, dest: Place) {
    && (callee.Some? ==> PlainCallee(sums, callee.value))
    && if callee.None? || dest.proj != [] then AllEmpty(s, args) && (callee.Some? ==> !Allocates(callee.value))
       else
         var c := callee.value;
         match c.role
         case FromRaw => true
         case RawRealloc => FirstFollowed(s, args)
         case PtrRead => FirstFollowed(s, args)
         case MemForget => forall i :: 0 <= i < |args| ==> args[i].Const? || args[i].place.local !in s.pointsTo
         case Plain(touch) =>
           if c.accessor then FirstFollowed(s, args)
           else if touch.Anything? then AllEmpty(s, args)
           else touch.WritesFirst? && |args| > 0 ==> AllEmpty(s, args[1..])
         case _ => AllEmpty(s, args)
  }

  predicate TerminatorClean(sums: SummaryMap, s: Ownership, term: Terminator) {
    match term
    case Call(callee, args, dest, _, _) => CallClean(sums, s, callee, args, dest)
    case Drop(place, _, _) => place.local !in s.pointsTo
    case Leave(ins, _, _) => AllEmpty(s, ins)
    case _ => true
  }

  // ----- owners and exposed locals -----

  /** The operand is no owner: `boxes` lists the locals that may hold one. */
  predicate Apart(boxes: set<Local>, op: Operand) { op.Const? || Deref in op.place.proj || op.place.local !in boxes }

  predicate AllApart(boxes: set<Local>, ops: seq<Operand>) { forall i :: 0 <= i < |ops| ==> Apart(boxes, ops[i]) }

  /** An owner as a whole, on its way to another local of `boxes`. */
  predicate PassesOwner(boxes: set<Local>, dst: Place, op: Operand) {
    !op.Const? && op.place.proj == [] && dst.local in boxes && Deref !in dst.proj
  }

  /** Owners are moved about but nothing is taken out of them. */
  predicate RvalueApart(boxes: set<Local>, dst: Place, rv: Rvalue) {
    match rv
    case Use(op) => Apart(boxes, op) || PassesOwner(boxes, dst, op)
    case BorrowOf(p) => p.local !in boxes
    case AddrOf(p) => p.local !in boxes
    case Aggregate(ops) => forall i :: 0 <= i < |ops| ==> Apart(boxes, ops[i]) || PassesOwner(boxes, dst, ops[i])
    case PtrCast(op) => Apart(boxes, op)
    case IntCast(op, _) => Apart(boxes, op)
    case PtrMetadata(_) => true
    case Binary(bop, a, b) => IsComparison(bop) || (Apart(boxes, a) && Apart(boxes, b))
    case Opaque(ops) => AllApart(boxes, ops)
  }

  /** And no tracked pointer is put into a local whose address is taken. */
  predicate StatementApart(x: set<Local>, boxes: set<Local>, s: Ownership, stmt: Statement) {
    stmt.Assign? ==> RvalueApart(boxes, stmt.dst, stmt.rv) && (stmt.dst.local in x ==> RvalueEmpty(s, stmt.rv))
  }

  predicate FirstApart(boxes: set<Local>, args: seq<Operand>) { |args| > 0 ==> Apart(boxes, args[0]) }

  /** The owner `from_raw` returns is one of `boxes`; other calls are given none, except to forget it or write through it. */
  predicate OwnersApart(boxes: set<Local>, callee: Option<Callee>, args: seq<Operand>, dest: Place) {
    if callee.None? || dest.proj != [] then AllApart(boxes, args)
    else
      match callee.value.role
      case FromRaw => AllApart(boxes, args) && dest.local in boxes
      case MemForget => true
      case RawRealloc => FirstApart(boxes, args)
      case PtrRead => FirstApart(boxes, args)
      case Plain(touch) =>
        if callee.value.accessor then FirstApart(boxes, args)
        else if touch.Anything? then AllApart(boxes, args)
        else touch.WritesFirst? && |args| > 0 ==> AllApart(boxes, args[1..])
      case _ => AllApart(boxes, args)
  }

  /** What a call hands through to its destination. */
  function PassedOn(s: Ownership, c: Callee, args: seq<Operand>): set<ObjectId> {
    if (c.role.PtrRead? || (c.role.Plain? && c.accessor)) && FirstArgLocal(args).Some?
    then Get(s.pointsTo, FirstArgLocal(args).value) else {}
  }

  /** The call returns no tracked pointer. */
  predicate ReturnsNothing(s: Ownership, callee: Option<Callee>, args: seq<Operand>) {
    callee.Some? ==> !Allocates(callee.value) && PassedOn(s, callee.value, args) == {}
  }

  predicate TerminatorApart(x: set<Local>, boxes: set<Local>, s: Ownership, term: Terminator) {
    match term
    case Call(callee, args, dest, _, _) =>
      OwnersApart(boxes, callee, args, dest) && (dest.local in x ==> ReturnsNothing(s, callee, args))
    case Leave(ins, _, _) => AllApart(boxes, ins)
    case _ => true
  }

  // ----- the invariant -----

  ghost predicate NoEscape(s: Ownership) {
    forall id <- s.heap.Keys :: s.heap[id] != Escaped
  }

  /** Tracking covers what locals hold, memory holds nothing, and every freed allocation is known to be or possibly freed. */
  ghost predicate Covers(m: Mem, s: Ownership) {
    && (forall l: Local :: Get(m.holds, l) <= Get(s.pointsTo, l) && Get(m.holds, l) <= m.made)
    && m.stored == {}
    && m.freed <= m.made <= s.heap.Keys
    && (forall id <- m.freed :: IsFreed(s.heap, id))
    && NoEscape(s)
  }

  /** Only the locals of `boxes` hold owners. */
  ghost predicate OwnersIn(m: Mem, boxes: set<Local>) { forall l: Local :: l !in boxes ==> Get(m.owns, l) == {} }

  /** Locals whose address is taken hold no pointer. */
  ghost predicate Shielded(m: Mem, x: set<Local>) { forall l <- x :: Get(m.holds, l) == {} }

  /** The invariant of a run: tracking covers it, and owners and exposed locals are out of the way. */
  ghost predicate Tracks(x: set<Local>, boxes: set<Local>, m: Mem, s: Ownership) {
    Covers(m, s) && OwnersIn(m, boxes) && Shielded(m, x) && boxes !! x
  }

  lemma CoversWeaker(m: Mem, s: Ownership, t: Ownership)
    requires Covers(m, s) && OwnLeq(s, t) && NoEscape(t)
    ensures Covers(m, t)
  {
    forall l: Local ensures Get(m.holds, l) <= Get(t.pointsTo, l) {
      assert Get(s.pointsTo, l) <= Get(t.pointsTo, l);
    }
  }

  lemma LocalCovered(m: Mem, s: Ownership, l: Local)
    requires Covers(m, s)
    ensures Get(m.holds, l) <= Get(s.pointsTo, l) && Get(m.holds, l) <= m.made
  {
  }

  lemma EmptyHolds(m: Mem, s: Ownership, op: Operand)
    requires Covers(m, s) && Empty(s, op)
    ensures OperandHolds(m, op) == {}
  {
    if !op.Const? { LocalCovered(m, s, op.place.local); }
  }

  lemma AllEmptyHold(m: Mem, s: Ownership, ops: seq<Operand>)
    requires Covers(m, s) && AllEmpty(s, ops)
    ensures AllHold(m, ops) == {}
  {
    forall i | 0 <= i < |ops| ensures OperandHolds(m, ops[i]) == {} {
      EmptyHolds(m, s, ops[i]);
    }
  }

  lemma RvalueEmptyHolds(m: Mem, s: Ownership, rv: Rvalue)
    requires Covers(m, s) && RvalueEmpty(s, rv)
    ensures Sources(m, rv) == {}
  {
    match rv
    case Use(op) => EmptyHolds(m, s, op);
    case BorrowOf(p) => LocalCovered(m, s, p.local);
    case AddrOf(p) => LocalCovered(m, s, p.local);
    case Aggregate(ops) => AllEmptyHold(m, s, ops);
    case PtrCast(op) => EmptyHolds(m, s, op);
    case IntCast(op, _) => EmptyHolds(m, s, op);
    case PtrMetadata(_) =>
    case Binary(bop, a, b) => if !IsComparison(bop) { EmptyHolds(m, s, a); EmptyHolds(m, s, b); }
    case Opaque(ops) => AllEmptyHold(m, s, ops);
  }

  // ----- statements -----

  /** The step of a statement from whose value no owner is taken and nothing is written to exposed locals. */
  ghost predicate PlainStatement(stmt: Statement, m: Mem, m': Mem) {
    && m'.freed == m.freed && m'.made == m.made
    && if stmt.Nop? then m'.holds == m.holds && m'.stored == m.stored
       else
         && Assigned(m.holds, m'.holds, {}, stmt.dst, stmt.rv, Sources(m, stmt.rv))
         && m.stored <= m'.stored <= m.stored + (if Deref in stmt.dst.proj then Sources(m, stmt.rv) else {})
  }

  /** Only tracking and aliases change; the tracked objects of every local cover what it holds. */
  lemma CoversIf(m: Mem, s: Ownership, m': Mem, s': Ownership)
    requires Covers(m, s) && s'.heap == s.heap && m'.freed == m.freed && m'.made == m.made && m'.stored == {}
    requires forall l: Local :: Get(m'.holds, l) <= Get(s'.pointsTo, l) && Get(m'.holds, l) <= m.made
    ensures Covers(m', s')
  {
  }

  /** What `d` gets after `d = rv`, and what every other local keeps. */
  ghost predicate Follows(m: Mem, s: Ownership, s': Ownership, d: Local, rv: Rvalue, l: Local) {
    && s'.heap == s.heap
    && (l == d ==> Sources(m, rv) <= Get(s'.pointsTo, d) && Sources(m, rv) <= m.made)
    && (l != d && l !in MovedLocal(rv) ==> Get(m.holds, l) <= Get(s'.pointsTo, l))
  }

  lemma OperandCovered(m: Mem, s: Ownership, op: Operand)
    requires Covers(m, s) && !op.Const?
    ensures OperandHolds(m, op) <= Get(s.pointsTo, op.place.local) && OperandHolds(m, op) <= m.made
  {
    LocalCovered(m, s, op.place.local);
  }

  lemma GatherFollows(m: Mem, s: Ownership, d: Local, ops: seq<Operand>, l: Local)
    requires Covers(m, s) && RvalueFollowed(s, Aggregate(ops))
    ensures Follows(m, s, Track(s, d, Aggregate(ops)), d, Aggregate(ops), l)
  {
    LocalCovered(m, s, l);
    forall o | o in AllHold(m, ops) ensures o in GatherObjects(s, ops) && o in m.made {
      var i :| 0 <= i < |ops| && o in OperandHolds(m, ops[i]);
      assert Followed(s, ops[i]);
      if Empty(s, ops[i]) {
        EmptyHolds(m, s, ops[i]);
      } else {
        OperandCovered(m, s, ops[i]);
        assert OperandLocal(ops[i]) == Some(ops[i].place.local);
      }
    }
    assert Track(s, d, Aggregate(ops)) == DropProto(SetPts(s, d, GatherObjects(s, ops)), d);
  }

  lemma CastFollows(m: Mem, s: Ownership, d: Local, op: Operand, l: Local)
    requires Covers(m, s) && RvalueFollowed(s, PtrCast(op))
    ensures Follows(m, s, Track(s, d, PtrCast(op)), d, PtrCast(op), l)
  {
    LocalCovered(m, s, l);
    if Empty(s, op) { EmptyHolds(m, s, op); } else { OperandCovered(m, s, op); }
    assert OperandLocal(op).Some? ==> Track(s, d, PtrCast(op)) == DropProto(CopyPts(s, d, OperandLocal(op).value), d);
  }

  lemma OffsetFollows(m: Mem, s: Ownership, d: Local, bop: BinOp, a: Operand, b: Operand, l: Local)
    requires Covers(m, s) && RvalueFollowed(s, Binary(bop, a, b)) && (bop == Offset || bop == Add || bop == Sub)
    ensures Follows(m, s, DropProto(BinaryPts(s, d, bop, a, b), d), d, Binary(bop, a, b), l)
  {
    LocalCovered(m, s, l);
    BinaryKept(s, d, bop, a, b, l);
    BinaryShape(s, d, bop, a, b);
    OffsetSources(m, s, bop, a, b);
    if PtrOperand(s, bop, a, b).Some? { CopyShape(s, d, PtrOperand(s, bop, a, b).value, l); }
  }

  /** The operand an offset follows covers all it may point into. */
  lemma OffsetSources(m: Mem, s: Ownership, bop: BinOp, a: Operand, b: Operand)
    requires Covers(m, s) && RvalueFollowed(s, Binary(bop, a, b)) && (bop == Offset || bop == Add || bop == Sub)
    ensures var got, src := Sources(m, Binary(bop, a, b)), PtrOperand(s, bop, a, b);
            got <= m.made && if src.Some? then got <= Get(s.pointsTo, src.value) else got == {}
  {
    if Empty(s, a) { EmptyHolds(m, s, a); } else { OperandCovered(m, s, a); }
    if Empty(s, b) { EmptyHolds(m, s, b); } else { OperandCovered(m, s, b); }
  }

  lemma MoveShape(s: Ownership, d: Local, src: Local, l: Local)
    ensures MoveLocal(s, d, src).heap == s.heap && CopyLocal(s, d, src).heap == s.heap
    ensures Get(MoveLocal(s, d, src).pointsTo, d) == Get(s.pointsTo, src) == Get(CopyLocal(s, d, src).pointsTo, d)
    ensures l != d && l != src ==> Get(MoveLocal(s, d, src).pointsTo, l) == Get(s.pointsTo, l)
    ensures l != d ==> Get(CopyLocal(s, d, src).pointsTo, l) == Get(s.pointsTo, l)
  {
  }

  lemma FieldReadShape(s: Ownership, d: Local, p: Place, l: Local)
    ensures FieldRead(s, d, p).heap == s.heap
    ensures Get(s.pointsTo, p.local) <= Get(FieldRead(s, d, p).pointsTo, d)
    ensures l != d ==> Get(FieldRead(s, d, p).pointsTo, l) == Get(s.pointsTo, l)
  {
  }

  lemma PlainUseFollows(m: Mem, s: Ownership, d: Local, op: Operand, l: Local)
    requires Covers(m, s) && !op.Const? && op.place.proj == []
    ensures Follows(m, s, if op.Move? then MoveLocal(s, d, op.place.local) else CopyLocal(s, d, op.place.local), d, Use(op), l)
  {
    LocalCovered(m, s, l);
    LocalCovered(m, s, op.place.local);
    MoveShape(s, d, op.place.local, l);
  }

  lemma FieldUseFollows(m: Mem, s: Ownership, d: Local, op: Operand, l: Local)
    requires Covers(m, s) && !op.Const? && op.place.proj != []
    ensures Follows(m, s, DropProto(FieldRead(s, d, op.place), d), d, Use(op), l)
  {
    LocalCovered(m, s, l);
    LocalCovered(m, s, op.place.local);
    FieldReadShape(s, d, op.place, l);
  }

  lemma UseFollows(m: Mem, s: Ownership, d: Local, op: Operand, l: Local)
    requires Covers(m, s) && RvalueFollowed(s, Use(op)) && !op.Const?
    ensures Follows(m, s, Track(s, d, Use(op)), d, Use(op), l)
  {
    var p := op.place;
    if p.proj == [] {
      PlainUseFollows(m, s, d, op, l);
    } else if AtMostLeadingDeref(p.proj) {
      FieldUseFollows(m, s, d, op, l);
      assert Track(s, d, Use(op)) == DropProto(FieldRead(s, d, p), d);
    } else {
      LocalCovered(m, s, l);
      assert Deref in p.proj;
      assert Track(s, d, Use(op)) == if op.Move? then Forget(Forget(s, d), p.local) else Forget(s, d);
    }
  }

  lemma NothingFollows(m: Mem, s: Ownership, d: Local, rv: Rvalue, l: Local)
    requires Covers(m, s) && RvalueEmpty(s, rv) && !rv.Use? && !rv.Aggregate?
    ensures Follows(m, s, Track(s, d, rv), d, rv, l)
  {
    RvalueEmptyHolds(m, s, rv);
    LocalCovered(m, s, l);
    OtherLocalsKept(s, d, rv, l);
  }

  lemma SetKept(s: Ownership, d: Local, objs: set<ObjectId>, l: Local)
    ensures var s' := DropProto(SetPts(s, d, objs), d);
            s'.heap == s.heap && (l != d ==> Get(s'.pointsTo, l) == Get(s.pointsTo, l))
    ensures Forget(s, d).heap == s.heap && (l != d ==> Get(Forget(s, d).pointsTo, l) == Get(s.pointsTo, l))
  {
  }

  /** Apart from moves, tracking one local touches no other. */
  lemma OtherLocalsKept(s: Ownership, d: Local, rv: Rvalue, l: Local)
    requires !rv.Use?
    ensures Track(s, d, rv).heap == s.heap && (l != d ==> Get(Track(s, d, rv).pointsTo, l) == Get(s.pointsTo, l))
  {
    match rv
    case Binary(bop, a, b) => BinaryKept(s, d, bop, a, b, l);
    case PtrCast(op) =>
      SetKept(s, d, {}, l);
      if OperandLocal(op).Some? { CopyShape(s, d, OperandLocal(op).value, l); }
    case BorrowOf(p) => SetKept(s, d, Get(s.pointsTo, p.local), l);
    case AddrOf(p) => SetKept(s, d, Get(s.pointsTo, p.local), l);
    case Aggregate(ops) => SetKept(s, d, GatherObjects(s, ops), l);
    case _ => SetKept(s, d, {}, l);
  }

  lemma BinaryKept(s: Ownership, d: Local, bop: BinOp, a: Operand, b: Operand, l: Local)
    ensures var s' := DropProto(BinaryPts(s, d, bop, a, b), d);
            s'.heap == s.heap && (l != d ==> Get(s'.pointsTo, l) == Get(s.pointsTo, l))
  {
    BinaryShape(s, d, bop, a, b);
    CopyShape(s, d, if PtrOperand(s, bop, a, b).Some? then PtrOperand(s, bop, a, b).value else d, l);
  }

  lemma AddrFollows(m: Mem, s: Ownership, d: Local, p: Place, l: Local)
    requires Covers(m, s) && RvalueFollowed(s, AddrOf(p))
    ensures Follows(m, s, Track(s, d, AddrOf(p)), d, AddrOf(p), l)
  {
    if p.proj == [Deref] {
      LocalCovered(m, s, l);
      LocalCovered(m, s, p.local);
      assert Track(s, d, AddrOf(p)) == DropProto(SetPts(s, d, Get(s.pointsTo, p.local)), d);
    } else {
      NothingFollows(m, s, d, AddrOf(p), l);
    }
  }

  /** The destination's tracked objects cover the assigned value; no other local loses tracking unless it was moved. */
  lemma TrackFollows(m: Mem, s: Ownership, d: Local, rv: Rvalue, l: Local)
    requires Covers(m, s) && RvalueFollowed(s, rv)
    ensures Follows(m, s, Track(s, d, rv), d, rv, l)
  {
    match rv
    case Use(op) => if op.Const? { LocalCovered(m, s, l); } else { UseFollows(m, s, d, op, l); }
    case AddrOf(p) => AddrFollows(m, s, d, p, l);
    case Aggregate(ops) => GatherFollows(m, s, d, ops, l);
    case PtrCast(op) => CastFollows(m, s, d, op, l);
    case Binary(bop, a, b) =>
      if bop == Offset || bop == Add || bop == Sub { OffsetFollows(m, s, d, bop, a, b, l); } else { NothingFollows(m, s, d, rv, l); }
    case _ => NothingFollows(m, s, d, rv, l);
  }

  lemma AssignCovers(m: Mem, s: Ownership, d: Local, rv: Rvalue, m': Mem)
    requires Covers(m, s) && RvalueFollowed(s, rv) && PlainStatement(Assign(Place(d, []), rv), m, m')
    ensures Covers(m', Track(s, d, rv))
  {
    forall l: Local ensures Get(m'.holds, l) <= Get(Track(s, d, rv).pointsTo, l) && Get(m'.holds, l) <= m.made {
      TrackFollows(m, s, d, rv, l);
      LocalCovered(m, s, l);
    }
    TrackFollows(m, s, d, rv, d);
    CoversIf(m, s, m', Track(s, d, rv));
  }

  /** A projected store of a value without tracked pointers changes neither heap nor tracking. */
  lemma StoreNothing(s: Ownership, dst: Place, rv: Rvalue)
    requires RvalueEmpty(s, rv)
    ensures Store(s, dst, rv).heap == s.heap && Store(s, dst, rv).pointsTo == s.pointsTo
  {
  }

  lemma StoreCovers(m: Mem, s: Ownership, dst: Place, rv: Rvalue, m': Mem)
    requires Covers(m, s) && dst.proj != [] && RvalueEmpty(s, rv) && PlainStatement(Assign(dst, rv), m, m')
    ensures Covers(m', Store(s, dst, rv))
  {
    RvalueEmptyHolds(m, s, rv);
    StoreNothing(s, dst, rv);
    forall l: Local ensures Get(m'.holds, l) <= Get(s.pointsTo, l) && Get(m'.holds, l) <= m.made { LocalCovered(m, s, l); }
    CoversIf(m, s, m', Store(s, dst, rv));
  }

  lemma PlainCovers(body: Body, m: Mem, s: Ownership, stmt: Statement, m': Mem)
    requires Covers(m, s) && StatementClean(s, stmt) && PlainStatement(stmt, m, m')
    ensures Covers(m', ApplyStatement(body, s, stmt))
  {
    if stmt.Assign? {
      var d, rv := stmt.dst.local, stmt.rv;
      var s1 := InvalidateOwners(s, {d});
      CoversIf(m, s, m, s1);
      CleanStays(s, s1, stmt);
      if stmt.dst.proj == [] {
        var s2 := ClearFields(SetAlias(s1, d, RvalueOwners(body, s1, d, rv)), d);
        CoversIf(m, s, m, s2);
        CleanStays(s, s2, stmt);
        assert stmt == Assign(Place(d, []), rv);
        AssignCovers(m, s2, d, rv, m');
      } else {
        assert stmt == Assign(stmt.dst, rv);
        StoreCovers(m, s1, stmt.dst, rv, m');
      }
    }
  }

  lemma CleanStays(s: Ownership, s': Ownership, stmt: Statement)
    requires StatementClean(s, stmt) && s'.pointsTo == s.pointsTo
    ensures StatementClean(s', stmt)
  {
  }

  lemma NoOwner(m: Mem, boxes: set<Local>, op: Operand)
    requires OwnersIn(m, boxes) && m.stored == {} && Apart(boxes, op)
    ensures OperandOwns(m, op) == {}
  {
  }

  lemma NoOwners(m: Mem, boxes: set<Local>, ops: seq<Operand>)
    requires OwnersIn(m, boxes) && m.stored == {} && AllApart(boxes, ops)
    ensures AllOwn(m, ops) == {}
  {
    forall i | 0 <= i < |ops| ensures OperandOwns(m, ops[i]) == {} { NoOwner(m, boxes, ops[i]); }
  }

  lemma NothingTaken(m: Mem, boxes: set<Local>, dst: Place, rv: Rvalue)
    requires OwnersIn(m, boxes) && m.stored == {} && RvalueApart(boxes, dst, rv)
    ensures TakenOut(m, rv) == {}
  {
    match rv
    case Use(op) => if Apart(boxes, op) { NoOwner(m, boxes, op); }
    case PtrCast(op) => NoOwner(m, boxes, op);
    case IntCast(op, _) => NoOwner(m, boxes, op);
    case Binary(bop, a, b) => if !IsComparison(bop) { NoOwner(m, boxes, a); NoOwner(m, boxes, b); }
    case Opaque(ops) => NoOwners(m, boxes, ops);
    case _ =>
  }

  /** Owners only reach locals of `boxes`. */
  lemma OwnersStay(m: Mem, boxes: set<Local>, dst: Place, rv: Rvalue)
    requires OwnersIn(m, boxes) && m.stored == {} && RvalueApart(boxes, dst, rv) && (dst.local !in boxes || Deref in dst.proj)
    ensures OwnerSources(m, rv) == {}
  {
    match rv
    case Use(op) => NoOwner(m, boxes, op);
    case Aggregate(ops) => NoOwners(m, boxes, ops);
    case PtrCast(op) => NoOwner(m, boxes, op);
    case Opaque(ops) => NoOwners(m, boxes, ops);
    case _ =>
  }

  lemma StatementIsPlain(x: set<Local>, boxes: set<Local>, m: Mem, s: Ownership, stmt: Statement, m': Mem)
    requires Tracks(x, boxes, m, s) && StatementClean(s, stmt) && StatementApart(x, boxes, s, stmt) && StepStatement(x, stmt, m, m')
    ensures PlainStatement(stmt, m, m') && OwnersIn(m', boxes) && Shielded(m', x)
  {
    if stmt.Assign? {
      NothingTaken(m, boxes, stmt.dst, stmt.rv);
      if ToMemory(x, stmt.dst) { RvalueEmptyHolds(m, s, stmt.rv); }
      if stmt.dst.local !in boxes || Deref in stmt.dst.proj { OwnersStay(m, boxes, stmt.dst, stmt.rv); }
      ExposedPlain(x, m.holds, m'.holds, stmt.dst, stmt.rv, Sources(m, stmt.rv));
    }
  }

  /** With nothing to write to memory, exposed locals are like any other. */
  lemma ExposedPlain(x: set<Local>, was: map<Local, set<ObjectId>>, now: map<Local, set<ObjectId>>, dst: Place, rv: Rvalue, got: set<ObjectId>)
    requires Assigned(was, now, x, dst, rv, got) && (ToMemory(x, dst) ==> got == {}) && forall l <- x :: Get(was, l) == {}
    ensures Assigned(was, now, {}, dst, rv, got) && forall l <- x :: Get(now, l) == {}
  {
  }

  /** A statement keeps every held allocation tracked, and owners and exposed locals out of the way. */
  lemma StatementCovers(body: Body, x: set<Local>, boxes: set<Local>, m: Mem, s: Ownership, stmt: Statement, m': Mem)
    requires Tracks(x, boxes, m, s) && StatementClean(s, stmt) && StatementApart(x, boxes, s, stmt) && StepStatement(x, stmt, m, m')
    ensures Tracks(x, boxes, m', ApplyStatement(body, s, stmt))
  {
    StatementIsPlain(x, boxes, m, s, stmt, m');
    PlainCovers(body, m, s, stmt, m');
  }

  // ----- terminators -----

  /** The step of a call that takes nothing out of owners and writes nothing to exposed locals. */
  ghost predicate PlainCall(callee: Option<Callee>, args: seq<Operand>, dest: Place, bb: Block, m: Mem, m': Mem) {
    var d, result, allocates := dest.local, MayReturn(m, callee, args, bb), callee.Some? && Allocates(callee.value);
    && m.freed <= m'.freed <= m.freed + MayFree(m, callee, args)
    && (allocates ==> Site(bb) !in m.made)
    && m.made <= m'.made <= m.made + (if allocates then {Site(bb)} else {})
    && Received(m.holds, m'.holds, {}, dest, result, {})
    && Get(m'.holds, d) <= m'.made
    && m.stored <= m'.stored <= m.stored + MayStore(m, callee, args) + (if Deref in dest.proj then result else {})
  }

  lemma EscapeNothing(body: Body, s: Ownership, args: seq<Operand>)
    requires AllEmpty(s, args)
    ensures EscapeArgs(body, s, args).heap == s.heap && EscapeArgs(body, s, args).pointsTo == s.pointsTo
    decreases |args|
  {
    if args != [] {
      var l := OperandLocal(args[0]);
      var s1 := if l.Some? && (TyOf(body, l.value).RawPtr? || l.value in s.pointsTo) then EscapeLocal(s, l.value) else s;
      assert Empty(s, args[0]);
      assert s1.heap == s.heap && s1.pointsTo == s.pointsTo;
      EscapeNothing(body, s1, args[1..]);
    }
  }

  lemma BeforeCallSame(body: Body, sums: SummaryMap, s: Ownership, callee: Option<Callee>, args: seq<Operand>, dest: Local)
    requires callee.Some? ==> PlainCallee(sums, callee.value)
    ensures var s' := BeforeCall(body, sums, s, callee, args, dest); s'.heap == s.heap && s'.pointsTo == s.pointsTo
  {
  }

  lemma FirstCovered(m: Mem, s: Ownership, args: seq<Operand>)
    requires Covers(m, s) && FirstFollowed(s, args)
    ensures FirstHolds(m, args) <= m.made
    ensures if FirstArgLocal(args).Some? then FirstHolds(m, args) <= Get(s.pointsTo, FirstArgLocal(args).value) else FirstHolds(m, args) == {}
  {
    if |args| > 0 {
      if Empty(s, args[0]) { EmptyHolds(m, s, args[0]); } else { OperandCovered(m, s, args[0]); }
    }
  }

  /** Freeing marks everything the argument may point to: freed allocations stay visible. */
  lemma FreeCovers(m: Mem, s: Ownership, src: Option<Local>, freed: set<ObjectId>, got: set<ObjectId>)
    requires Covers(m, s) && m.freed <= freed <= m.freed + got && got <= m.made
    requires if src.Some? then got <= Get(s.pointsTo, src.value) else got == {}
    ensures var heap := if src.Some? then Reconstitute(s.heap, Get(s.pointsTo, src.value)) else s.heap;
            heap.Keys == s.heap.Keys && Covers(m.(freed := freed), s.(heap := heap))
  {
  }

  /** A fresh allocation: its site has not executed before, so resetting its object loses nothing. */
  lemma AllocateCovers(m: Mem, s: Ownership, d: Local, bb: Block, m': Mem)
    requires Covers(m, s) && Site(bb) !in m.made && m'.freed == m.freed && m'.stored == {}
    requires m.made <= m'.made <= m.made + {Site(bb)} && Get(m'.holds, d) <= {Site(bb)} && Get(m'.holds, d) <= m'.made
    requires forall l: Local :: l != d ==> Get(m'.holds, l) <= Get(m.holds, l)
    ensures Covers(m', AllocateAt(s, d, bb))
  {
    var s' := AllocateAt(s, d, bb);
    forall l: Local ensures Get(m'.holds, l) <= Get(s'.pointsTo, l) && Get(m'.holds, l) <= m'.made {
      LocalCovered(m, s, l);
    }
  }

  /** Only the destination changes, and its tracked objects cover the result. */
  lemma DestCovers(m: Mem, s: Ownership, m': Mem, s': Ownership, d: Local)
    requires Covers(m, s) && s'.heap == s.heap && m'.freed == m.freed && m'.made == m.made && m'.stored == {}
    requires forall l: Local :: l != d ==> Get(m'.holds, l) <= Get(m.holds, l) && Get(s'.pointsTo, l) == Get(s.pointsTo, l)
    requires Get(m'.holds, d) <= Get(s'.pointsTo, d) && Get(m'.holds, d) <= m.made
    ensures Covers(m', s')
  {
    forall l: Local ensures Get(m'.holds, l) <= Get(s'.pointsTo, l) && Get(m'.holds, l) <= m.made { LocalCovered(m, s, l); }
  }

  lemma FromRawShape(s: Ownership, args: seq<Operand>, dest: Local)
    ensures var s' := FromRawCall(s, args, dest);
            var src := if FirstArgLocal(args).Some? then FirstArgLocal(args) else FirstArgBase(args);
            && s'.heap == (if src.Some? then Reconstitute(s.heap, Get(s.pointsTo, src.value)) else s.heap)
            && s'.pointsTo == s.pointsTo - {dest}
  {
  }

  lemma FromRawFrees(m: Mem, s: Ownership, args: seq<Operand>, freed: set<ObjectId>)
    requires Covers(m, s) && m.freed <= freed <= m.freed + FirstHolds(m, args)
    ensures var src := if FirstArgLocal(args).Some? then FirstArgLocal(args) else FirstArgBase(args);
            var heap := if src.Some? then Reconstitute(s.heap, Get(s.pointsTo, src.value)) else s.heap;
            Covers(m.(freed := freed), s.(heap := heap))
  {
    var src := if FirstArgLocal(args).Some? then FirstArgLocal(args) else FirstArgBase(args);
    if |args| > 0 && !args[0].Const? { OperandCovered(m, s, args[0]); }
    FreeCovers(m, s, src, freed, FirstHolds(m, args));
  }

  /** The destination loses its tracking and holds nothing. */
  lemma GoneCovers(m: Mem, s: Ownership, m': Mem, s': Ownership, d: Local)
    requires Covers(m, s) && s'.heap == s.heap && s'.pointsTo == s.pointsTo - {d}
    requires m'.freed == m.freed && m'.made == m.made && m'.stored == {} && Get(m'.holds, d) == {}
    requires forall l: Local :: l != d ==> Get(m'.holds, l) <= Get(m.holds, l)
    ensures Covers(m', s')
  {
    DestCovers(m, s, m', s', d);
  }

  lemma FromRawCovers(m: Mem, s: Ownership, c: Callee, args: seq<Operand>, dest: Local, bb: Block, m': Mem)
    requires Covers(m, s) && c.role.FromRaw? && PlainCall(Some(c), args, Place(dest, []), bb, m, m')
    ensures Covers(m', FromRawCall(s, args, dest))
  {
    var src := if FirstArgLocal(args).Some? then FirstArgLocal(args) else FirstArgBase(args);
    var heap := if src.Some? then Reconstitute(s.heap, Get(s.pointsTo, src.value)) else s.heap;
    FromRawFrees(m, s, args, m'.freed);
    FromRawShape(s, args, dest);
    GoneCovers(m.(freed := m'.freed), s.(heap := heap), m', FromRawCall(s, args, dest), dest);
  }

  lemma RawReallocCovers(m: Mem, s: Ownership, c: Callee, args: seq<Operand>, dest: Local, bb: Block, m': Mem)
    requires Covers(m, s) && c.role.RawRealloc? && FirstFollowed(s, args) && PlainCall(Some(c), args, Place(dest, []), bb, m, m')
    ensures Covers(m', RawReallocCall(s, args, dest, bb))
  {
    var src := FirstArgLocal(args);
    FirstCovered(m, s, args);
    FreeCovers(m, s, src, m'.freed, FirstHolds(m, args));
    var heap := if src.Some? then Reconstitute(s.heap, Get(s.pointsTo, src.value)) else s.heap;
    AllocateCovers(m.(freed := m'.freed), s.(heap := heap), dest, bb, m');
  }

  lemma IntoRawCovers(m: Mem, s: Ownership, c: Callee, args: seq<Operand>, dest: Local, bb: Block, m': Mem)
    requires Covers(m, s) && c.role.IntoRaw? && AllEmpty(s, args) && PlainCall(Some(c), args, Place(dest, []), bb, m, m')
    ensures Covers(m', AllocateAt(s, dest, bb))
  {
    AllEmptyHold(m, s, args);
    AllocateCovers(m, s, dest, bb, m');
  }

  /** Calls that neither free nor allocate: what they may do, and what the transfer makes of them. */
  predicate Passive(c: Callee) { !Allocates(c) && !c.role.FromRaw? }

  /** A clean passive call frees nothing, stores nothing and returns at most what its first argument holds. */
  lemma PassiveDoes(sums: SummaryMap, m: Mem, s: Ownership, c: Callee, args: seq<Operand>, dest: Local, bb: Block)
    requires Covers(m, s) && Passive(c) && CallClean(sums, s, Some(c), args, Place(dest, []))
    ensures MayFree(m, Some(c), args) == {} && MayStore(m, Some(c), args) == {}
    ensures MayReturn(m, Some(c), args, bb) <= PassedOn(s, c, args) && MayReturn(m, Some(c), args, bb) <= m.made
  {
    match c.role
    case Plain(touch) =>
      if c.accessor { FirstCovered(m, s, args); }
      if Free(Some(c)) { AllEmptyHold(m, s, args); }
      if touch.WritesFirst? && |args| > 0 && !c.accessor { AllEmptyHold(m, s, args[1..]); }
    case PtrRead => FirstCovered(m, s, args);
    case MemForget =>
    case MuAccess => AllEmptyHold(m, s, args);
    case BufWrite => AllEmptyHold(m, s, args);
    case Acquire => AllEmptyHold(m, s, args);
  }

  lemma PlainShape(body: Body, sums: SummaryMap, s: Ownership, c: Callee, args: seq<Operand>, dest: Local)
    requires c.role.Plain? && (c.role.touch.Anything? && !c.accessor ==> AllEmpty(s, args))
    ensures var s' := UnknownCall(body, s, c, args, dest);
            && s'.heap == s.heap
            && s'.pointsTo == (if PassedOn(s, c, args) != {} then s.pointsTo[dest := PassedOn(s, c, args)] else s.pointsTo)
  {
    if !c.accessor && c.role.touch.Anything? { EscapeNothing(body, s, args); }
  }

  lemma ForgetShape(s: Ownership, args: seq<Operand>, dest: Local)
    requires FirstArgBase(args).Some? ==> FirstArgBase(args).value !in s.pointsTo
    ensures ForgetCall(s, args, dest).heap == s.heap && ForgetCall(s, args, dest).pointsTo == s.pointsTo - {dest}
  {
  }

  lemma ApartFrom<K, V>(m: map<K, V>, k: K, v: V)
    ensures m[k := v] - {k} == m - {k} && m - {k} - {k} == m - {k}
  {
  }

  /** A passive call touches only its destination, which takes over at least what is passed on. */
  lemma PassiveShape(body: Body, sums: SummaryMap, s: Ownership, c: Callee, args: seq<Operand>, dest: Local, bb: Block)
    requires CallClean(sums, s, Some(c), args, Place(dest, [])) && Passive(c)
    ensures var s' := ByRole(body, sums, s, c, args, dest, bb);
            && s'.heap == s.heap
            && s'.pointsTo - {dest} == s.pointsTo - {dest}
            && PassedOn(s, c, args) <= Get(s'.pointsTo, dest)
  {
    var objs := PassedOn(s, c, args);
    ApartFrom(s.pointsTo, dest, objs);
    if c.role.Plain? {
      PlainShape(body, sums, s, c, args, dest);
      assert ByRole(body, sums, s, c, args, dest, bb) == DropProto(UnknownCall(body, s, c, args, dest), dest);
    } else if c.role.PtrRead? {
      assert ByRole(body, sums, s, c, args, dest, bb) == DropProto(SetPts(s, dest, objs), dest);
    } else if c.role.MemForget? {
      ForgetShape(s, args, dest);
      assert ByRole(body, sums, s, c, args, dest, bb) == ForgetCall(s, args, dest);
    } else {
      GuardShape(body, sums, s, c, args, dest, bb);
    }
  }

  lemma GuardShape(body: Body, sums: SummaryMap, s: Ownership, c: Callee, args: seq<Operand>, dest: Local, bb: Block)
    requires c.role.MuAccess? || c.role.BufWrite? || c.role.Acquire?
    ensures var s' := ByRole(body, sums, s, c, args, dest, bb);
            s'.heap == s.heap && (s'.pointsTo == s.pointsTo || s'.pointsTo == s.pointsTo - {dest})
  {
    match c.role
    case MuAccess => assert ByRole(body, sums, s, c, args, dest, bb) == DropProto(s, dest);
    case BufWrite => assert ByRole(body, sums, s, c, args, dest, bb) == Forget(s, dest);
    case Acquire =>
  }

  lemma PassiveCovers(body: Body, sums: SummaryMap, m: Mem, s: Ownership, c: Callee, args: seq<Operand>, dest: Local, bb: Block, m': Mem)
    requires Covers(m, s) && CallClean(sums, s, Some(c), args, Place(dest, [])) && Passive(c)
    requires PlainCall(Some(c), args, Place(dest, []), bb, m, m')
    ensures Covers(m', ByRole(body, sums, s, c, args, dest, bb))
  {
    var s' := ByRole(body, sums, s, c, args, dest, bb);
    PassiveDoes(sums, m, s, c, args, dest, bb);
    PassiveShape(body, sums, s, c, args, dest, bb);
    forall l: Local | l != dest ensures Get(s'.pointsTo, l) == Get(s.pointsTo, l) {
      assert Get(s'.pointsTo - {dest}, l) == Get(s.pointsTo - {dest}, l);
    }
    DestCovers(m, s, m', s', dest);
  }

  lemma RoleCovers(body: Body, sums: SummaryMap, m: Mem, s: Ownership, c: Callee, args: seq<Operand>, dest: Local, bb: Block, m': Mem)
    requires Covers(m, s) && CallClean(sums, s, Some(c), args, Place(dest, []))
    requires PlainCall(Some(c), args, Place(dest, []), bb, m, m')
    ensures Covers(m', ByRole(body, sums, s, c, args, dest, bb))
  {
    if c.role.FromRaw? {
      FromRawCovers(m, s, c, args, dest, bb, m');
    } else if c.role.RawRealloc? {
      RawReallocCovers(m, s, c, args, dest, bb, m');
    } else if c.role.IntoRaw? {
      IntoRawCovers(m, s, c, args, dest, bb, m');
    } else {
      PassiveCovers(body, sums, m, s, c, args, dest, bb, m');
    }
  }

  /** With nothing tracked among its arguments, a call whose handler is not reached does nothing to tracked pointers. */
  lemma OtherCallDoes(sums: SummaryMap, m: Mem, s: Ownership, callee: Option<Callee>, args: seq<Operand>, dest: Place, bb: Block)
    requires Covers(m, s) && CallClean(sums, s, callee, args, dest) && (callee.None? || dest.proj != [])
    ensures MayFree(m, callee, args) == {} && MayStore(m, callee, args) == {} && MayReturn(m, callee, args, bb) == {}
    ensures callee.Some? ==> !Allocates(callee.value)
  {
    AllEmptyHold(m, s, args);
    if |args| > 0 { EmptyHolds(m, s, args[0]); AllEmptyHold(m, s, args[1..]); }
  }

  lemma OtherCallCovers(body: Body, sums: SummaryMap, m: Mem, s: Ownership, callee: Option<Callee>, args: seq<Operand>, dest: Place, bb: Block, m': Mem)
    requires Covers(m, s) && CallClean(sums, s, callee, args, dest) && (callee.None? || dest.proj != [])
    requires PlainCall(callee, args, dest, bb, m, m')
    ensures Covers(m', EscapeArgs(body, s, args))
  {
    EscapeNothing(body, s, args);
    OtherCallDoes(sums, m, s, callee, args, dest, bb);
    forall l: Local ensures Get(m'.holds, l) <= Get(s.pointsTo, l) && Get(m'.holds, l) <= m.made { LocalCovered(m, s, l); }
    CoversIf(m, s, m', EscapeArgs(body, s, args));
  }

  lemma ResultEmpty(sums: SummaryMap, m: Mem, s: Ownership, callee: Option<Callee>, args: seq<Operand>, dest: Place, bb: Block)
    requires Covers(m, s) && CallClean(sums, s, callee, args, dest) && ReturnsNothing(s, callee, args)
    ensures MayReturn(m, callee, args, bb) == {}
  {
    if callee.None? || dest.proj != [] {
      AllEmptyHold(m, s, args);
      if |args| > 0 { EmptyHolds(m, s, args[0]); }
    } else if !callee.value.role.FromRaw? {
      PassiveDoes(sums, m, s, callee.value, args, dest.local, bb);
    }
  }

  /** What a clean call puts into memory, takes out of owners and returns as an owner. */
  lemma OwnersIdle(sums: SummaryMap, boxes: set<Local>, m: Mem, s: Ownership, callee: Option<Callee>, args: seq<Operand>, dest: Place)
    requires Covers(m, s) && OwnersIn(m, boxes) && CallClean(sums, s, callee, args, dest) && OwnersApart(boxes, callee, args, dest)
    ensures OwnersStore(m, callee, args) == {} && OwnersReturn(m, callee, args) == {}
    ensures MayStore(m, callee, args) == {}
    ensures dest.local !in boxes || dest.proj != [] ==> MayOwn(m, callee, args) == {}
  {
    if callee.None? || dest.proj != [] {
      NoOwners(m, boxes, args);
      AllEmptyHold(m, s, args);
      if |args| > 0 { EmptyHolds(m, s, args[0]); NoOwner(m, boxes, args[0]); AllEmptyHold(m, s, args[1..]); NoOwners(m, boxes, args[1..]); }
    } else {
      RoleIdle(sums, boxes, m, s, callee.value, args, dest.local);
    }
  }

  lemma RoleIdle(sums: SummaryMap, boxes: set<Local>, m: Mem, s: Ownership, c: Callee, args: seq<Operand>, dest: Local)
    requires Covers(m, s) && OwnersIn(m, boxes)
    requires CallClean(sums, s, Some(c), args, Place(dest, [])) && OwnersApart(boxes, Some(c), args, Place(dest, []))
    ensures OwnersStore(m, Some(c), args) == {} && OwnersReturn(m, Some(c), args) == {} && MayStore(m, Some(c), args) == {}
    ensures dest !in boxes ==> MayOwn(m, Some(c), args) == {}
  {
    match c.role
    case Plain(touch) =>
      if c.accessor {
        if |args| > 0 { NoOwner(m, boxes, args[0]); }
      } else if touch.Anything? {
        NoOwners(m, boxes, args);
        AllEmptyHold(m, s, args);
      } else if touch.WritesFirst? && |args| > 0 {
        NoOwners(m, boxes, args[1..]);
        AllEmptyHold(m, s, args[1..]);
      }
    case RawRealloc => if |args| > 0 { NoOwner(m, boxes, args[0]); }
    case PtrRead => if |args| > 0 { NoOwner(m, boxes, args[0]); }
    case FromRaw => NoOwners(m, boxes, args);
    case MemForget =>
    case IntoRaw => NoOwners(m, boxes, args); AllEmptyHold(m, s, args);
    case MuAccess => NoOwners(m, boxes, args); AllEmptyHold(m, s, args);
    case BufWrite => NoOwners(m, boxes, args); AllEmptyHold(m, s, args);
    case Acquire => NoOwners(m, boxes, args); AllEmptyHold(m, s, args);
  }

  lemma ReceivedPlain(x: set<Local>, was: map<Local, set<ObjectId>>, now: map<Local, set<ObjectId>>, dest: Place, result: set<ObjectId>)
    requires Received(was, now, x, dest, result, {}) && (forall l <- x :: Get(was, l) == {}) && (dest.local in x ==> result == {})
    ensures Received(was, now, {}, dest, result, {}) && forall l <- x :: Get(now, l) == {}
  {
  }

  lemma CallIsPlain(sums: SummaryMap, x: set<Local>, boxes: set<Local>, m: Mem, s: Ownership, callee: Option<Callee>, args: seq<Operand>, dest: Place, bb: Block, m': Mem)
    requires Tracks(x, boxes, m, s) && CallClean(sums, s, callee, args, dest) && OwnersApart(boxes, callee, args, dest)
    requires (dest.local in x ==> ReturnsNothing(s, callee, args)) && StepCall(x, callee, args, dest, bb, m, m')
    ensures PlainCall(callee, args, dest, bb, m, m') && OwnersIn(m', boxes) && Shielded(m', x)
  {
    var result := MayReturn(m, callee, args, bb);
    OwnersIdle(sums, boxes, m, s, callee, args, dest);
    if dest.local in x { ResultEmpty(sums, m, s, callee, args, dest, bb); }
    if Deref in dest.proj { ProjectedReturns(sums, m, s, callee, args, dest, bb); }
    ReceivedPlain(x, m.holds, m'.holds, dest, result);
  }

  lemma ProjectedReturns(sums: SummaryMap, m: Mem, s: Ownership, callee: Option<Callee>, args: seq<Operand>, dest: Place, bb: Block)
    requires Covers(m, s) && CallClean(sums, s, callee, args, dest) && dest.proj != []
    ensures MayReturn(m, callee, args, bb) == {}
  {
    AllEmptyHold(m, s, args);
    if |args| > 0 { EmptyHolds(m, s, args[0]); }
  }

  lemma CallCovers(body: Body, sums: SummaryMap, m: Mem, s: Ownership, bb: Block, term: Terminator, m': Mem)
    requires term.Call? && Covers(m, s) && TerminatorClean(sums, s, term) && PlainCall(term.callee, term.args, term.dest, bb, m, m')
    ensures Covers(m', ApplyTerminator(body, sums, s, bb, term))
  {
    var callee, args, dest := term.callee, term.args, term.dest;
    BeforeCallSame(body, sums, s, callee, args, dest.local);
    var s1 := BeforeCall(body, sums, s, callee, args, dest.local);
    CoversIf(m, s, m, s1);
    assert CallClean(sums, s1, callee, args, dest);
    if callee.None? || dest.proj != [] {
      OtherCallCovers(body, sums, m, s1, callee, args, dest, bb, m');
    } else {
      assert dest == Place(dest.local, []) && callee == Some(callee.value);
      RoleCovers(body, sums, m, s1, callee.value, args, dest.local, bb, m');
    }
  }

  lemma DroppedShape(s: Ownership, place: Place, l: Local)
    requires place.local !in s.pointsTo
    ensures var s' := if place.proj == [] then DropLocal(s, place.local) else s;
            s'.heap == s.heap && Get(s'.pointsTo, l) == Get(s.pointsTo, l)
  {
  }

  /** Dropping a local that holds no pointer frees nothing more and lets no local gain anything. */
  lemma DropDoes(x: set<Local>, m: Mem, bb: Block, term: Terminator, succ: Block, m': Mem)
    requires term.Drop? && StepTerminator(x, bb, term, m, succ, m') && Get(m.holds, term.place.local) == {} && m.stored == {}
    ensures m'.freed == m.freed && m'.made == m.made && m'.stored == {}
    ensures forall l: Local :: Get(m'.holds, l) <= Get(m.holds, l) && Get(m'.owns, l) <= Get(m.owns, l)
  {
  }

  lemma DropCovers(body: Body, sums: SummaryMap, x: set<Local>, boxes: set<Local>, m: Mem, s: Ownership, bb: Block, term: Terminator, succ: Block, m': Mem)
    requires term.Drop? && Tracks(x, boxes, m, s) && TerminatorClean(sums, s, term) && StepTerminator(x, bb, term, m, succ, m')
    ensures Tracks(x, boxes, m', ApplyTerminator(body, sums, s, bb, term))
  {
    var s' := ApplyTerminator(body, sums, s, bb, term);
    LocalCovered(m, s, term.place.local);
    DropDoes(x, m, bb, term, succ, m');
    DroppedShape(s, term.place, term.place.local);
    forall l: Local ensures Get(m'.holds, l) <= Get(s'.pointsTo, l) && Get(m'.holds, l) <= m.made {
      LocalCovered(m, s, l);
      DroppedShape(s, term.place, l);
    }
    CoversIf(m, s, m', s');
  }

  lemma LeaveCovers(sums: SummaryMap, x: set<Local>, boxes: set<Local>, m: Mem, s: Ownership, bb: Block, term: Terminator, succ: Block, m': Mem)
    requires term.Leave? && Tracks(x, boxes, m, s) && TerminatorClean(sums, s, term) && TerminatorApart(x, boxes, s, term)
    requires StepTerminator(x, bb, term, m, succ, m')
    ensures Tracks(x, boxes, m', s)
  {
    AllEmptyHold(m, s, term.ins);
    NoOwners(m, boxes, term.ins);
    forall l: Local ensures Get(m'.holds, l) <= Get(s.pointsTo, l) && Get(m'.holds, l) <= m.made { LocalCovered(m, s, l); }
    CoversIf(m, s, m', s);
  }

  /** So does every terminator. */
  lemma TerminatorCovers(body: Body, sums: SummaryMap, x: set<Local>, boxes: set<Local>, m: Mem, s: Ownership, bb: Block, term: Terminator, succ: Block, m': Mem)
    requires Tracks(x, boxes, m, s) && TerminatorClean(sums, s, term) && TerminatorApart(x, boxes, s, term)
    requires StepTerminator(x, bb, term, m, succ, m')
    ensures Tracks(x, boxes, m', ApplyTerminator(body, sums, s, bb, term))
  {
    match term
    case Call(callee, args, dest, _, _) =>
      CallIsPlain(sums, x, boxes, m, s, callee, args, dest, bb, m');
      CallCovers(body, sums, m, s, bb, term, m');
    case Drop(_, _, _) => DropCovers(body, sums, x, boxes, m, s, bb, term, succ, m');
    case Leave(_, _, _) => LeaveCovers(sums, x, boxes, m, s, bb, term, succ, m');
    case _ =>
  }
}
