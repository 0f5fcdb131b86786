/** The capacity slice of the transfer: which collection a length came from, and spare/full proofs. */
module CapTransfer {
  import opened Mir
  import opened State
  import R = RangeTransfer

  /** `deref_base`: one reborrow hop. */
  function DerefBase(s: Capacities, l: Local): Local {
    if l in s.refBase then s.refBase[l] else l
  }

  function Kill(s: Capacities, d: Local): Capacities {
    Capacities(
      s.refBase - {d},
      map k | k in s.sizeOf && k.1 != d :: s.sizeOf[k],
      map k | k in s.capIf && k.2 != d :: s.capIf[k],
      set p | p in s.capProof && p.1 != d)
  }

  function SizeOfOperand(s: Capacities, m: Measure, op: Operand): Option<Local> {
    if OperandLocal(op).Some? && (m, OperandLocal(op).value) in s.sizeOf
    then Some(s.sizeOf[(m, OperandLocal(op).value)]) else None
  }

  /** The collection `a` measures the length of and `b` the capacity of, if it is the same one. */
  function SameCollection(s: Capacities, a: Operand, b: Operand): Option<Local> {
    var c := SizeOfOperand(s, Length, a);
    if c.Some? && c == SizeOfOperand(s, Capacity, b) then c else None
  }

  /** The proof a comparison of length and capacity carries, and the edge it holds on (`record_spare`, `record_full`). */
  function CapPromise(s: Capacities, bop: BinOp, a: Operand, b: Operand): Option<(CapKind, bool, Local)> {
    var lenCap, capLen := SameCollection(s, a, b), SameCollection(s, b, a);
    var either := if lenCap.Some? then lenCap else capLen;
    match bop
    case Order(Lt) => if lenCap.Some? then Some((Spare, true, lenCap.value)) else None
    case Order(Ge) => if lenCap.Some? then Some((Spare, false, lenCap.value)) else None
    case Order(Le) => if capLen.Some? then Some((Spare, false, capLen.value)) else None
    case Order(Gt) => if capLen.Some? then Some((Spare, true, capLen.value)) else None
    case Eq => if either.Some? then Some((Full, true, either.value)) else None
    case Ne => if either.Some? then Some((Full, false, either.value)) else None
    case _ => None
  }

  /** A plain copy shares the proofs of the collection, a move transfers them. */
  function Propagate(s: Capacities, d: Local, src: Local, isMove: bool): Capacities {
    var got := set p | p in s.capProof && p.1 == src :: (p.0, d);
    s.(capProof := (if isMove then (set p | p in s.capProof && p.1 != src) else s.capProof) + got)
  }

  function AssignLocal(s0: Capacities, d: Local, rv: Rvalue): Capacities {
    var s := Kill(s0, d);
    match rv
    case BorrowOf(p) =>
      if p.proj == [] || p.proj == [Deref] then s.(refBase := s.refBase[d := p.local]) else s
    case Use(op) =>
      if OperandLocal(op).Some? then Propagate(s, d, OperandLocal(op).value, op.Move?) else s
    case PtrMetadata(op) =>
      if OperandLocal(op).Some? then s.(sizeOf := s.sizeOf[(Length, d) := DerefBase(s, OperandLocal(op).value)]) else s
    case Binary(bop, a, b) =>
      var p := CapPromise(s, bop, a, b);
      if p.Some? then s.(capIf := s.capIf[(p.value.0, p.value.1, d) := p.value.2]) else s
    case _ => s
  }

  /** `apply_statement`. */
  function ApplyStatement(s: Capacities, stmt: Statement): Capacities {
    if stmt.Assign? && stmt.dst.proj == [] then AssignLocal(s, stmt.dst.local, stmt.rv) else s
  }

  predicate IsMutableHandle(ty: Ty) {
    (ty.Ref? || ty.RawPtr?) && ty.mutable
  }

  /** The collections a call may change through its `&mut` and `*mut` arguments. */
  function Mutated(body: Body, s: Capacities, args: seq<Operand>): set<Local> {
    set i | 0 <= i < |args| && OperandLocal(args[i]).Some? && IsMutableHandle(TyOf(body, OperandLocal(args[i]).value))
      :: DerefBase(s, OperandLocal(args[i]).value)
  }

  /** What a `len`, `capacity` or `deref` call on the collection `base` says about its destination. */
  function NoteView(s: Capacities, view: View, d: Local, base: Local): Capacities {
    match view
    case LenView => s.(sizeOf := s.sizeOf[(Length, d) := base])
    case CapacityView => s.(sizeOf := s.sizeOf[(Capacity, d) := base])
    case DerefView => s.(refBase := s.refBase[d := base])
    case NoView => s
  }

  function DropProofs(s: Capacities, hit: set<Local>): Capacities {
    s.(capProof := (set p | p in s.capProof && p.1 !in hit))
  }

  /** `apply_terminator`. */
  function ApplyTerminator(body: Body, s: Capacities, term: Terminator): Capacities {
    if !term.Call? then s
    else
      var s1 := DropProofs(s, Mutated(body, s, term.args));
      if term.callee.None? || term.dest.proj != [] then s1
      else
        var s2 := Kill(s1, term.dest.local);
        var recv := FirstArgLocal(term.args);
        if recv.None? then s2
        else NoteView(s2, term.callee.value.view, term.dest.local, DerefBase(s2, recv.value))
  }

  function ProveBy(s: Capacities, kind: CapKind, d: Local, truth: bool): Capacities {
    if (kind, truth, d) in s.capIf then s.(capProof := s.capProof + {(kind, s.capIf[(kind, truth, d)])}) else s
  }

  function Refine(s: Capacities, d: Local, truth: bool): Capacities {
    ProveBy(ProveBy(s, Spare, d, truth), Full, d, truth)
  }

  /** `refine_switchint_edge`. */
  function RefineEdge(s: Capacities, term: Terminator, succ: Block): Capacities {
    if term.SwitchInt? && OperandLocal(term.discr).Some? then
      var verdict := R.EdgeVerdict(term.targets, term.otherwise, succ);
      if verdict.Some? then Refine(s, OperandLocal(term.discr).value, verdict.value) else s
    else s
  }

  /** Replay of a statement list. */
  function Replay(s: Capacities, stmts: seq<Statement>): Capacities
    decreases |stmts|
  {
    if stmts == [] then s else ApplyStatement(Replay(s, stmts[..|stmts| - 1]), stmts[|stmts| - 1])
  }

  /** What flows from the entry of a block along one of its edges. */
  function Along(body: Body, block: BasicBlock, succ: Block, s: Capacities): Capacities {
    RefineEdge(ApplyTerminator(body, Replay(s, block.stmts), block.term), block.term, succ)
  }
}
