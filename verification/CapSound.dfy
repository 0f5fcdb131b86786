/**
The soundness of one step of the capacity slice against the machine of collections.

The fragment has a plan: what every temporary is for, and which locals may be unrecorded handles to a measured
collection (`hands`). A call that may change a measured collection must be given the collection or a recorded borrow.
*/
module CapSound {
  import opened Mir
  import opened State
  import opened C = CapTransfer
  import opened CapMachine
  import M = Machine
  import R = RangeTransfer
  import RF = RangeFlow

  // ----- the fragment: every temporary has one purpose and is assigned before it is read -----

  /** `Loose` locals are handles of which nothing is recorded. */
  datatype Purpose =
    | General
    | Loose
    | Borrows(base: Local)
    | Measures(m: Measure, base: Local)
    | Compares(bop: BinOp, x: Local, y: Local)

  type Plan = Local -> Purpose

  /** The measured collections, and the locals through which one may be changed without it being recorded. */
  datatype Scope = Scope(body: Body, plan: Plan, colls: set<Local>, hands: set<Local>)

  /** The collection a handle refers to, by the plan. */
  function Base(plan: Plan, l: Local): Local {
    if plan(l).Borrows? then plan(l).base else l
  }

  /** The collection a measurement is of. */
  function MeasuredBase(p: Purpose): set<Local> { if p.Measures? then {p.base} else {} }

  /** The collections whose sizes a local remembers, or compares. */
  function Bases(plan: Plan, l: Local): set<Local> {
    match plan(l)
    case Measures(_, base) => {base}
    case Compares(_, x, y) => MeasuredBase(plan(x)) + MeasuredBase(plan(y))
    case _ => {}
  }

  /** What is measured is one of the collections spoken of, and a collection is no borrow. */
  ghost predicate PlanOk(sc: Scope) {
    (forall l: Local :: sc.plan(l).Measures? ==> sc.plan(l).base in sc.colls) && forall l <- sc.colls :: Base(sc.plan, l) == l
  }

  /** A comparison of two measurements. */
  predicate Weighs(plan: Plan, d: Local) { plan(d).Compares? && plan(plan(d).x).Measures? && plan(plan(d).y).Measures? }

  predicate Reads(avail: set<Local>, op: Operand) { OperandLocal(op).Some? ==> OperandLocal(op).value in avail }

  /** A handle whose target the plan knows. */
  predicate Known(sc: Scope, avail: set<Local>, l: Local) { l in avail && !sc.plan(l).Loose? }

  // ----- who gives access to a measured collection -----

  /** `l` is no unrecorded handle, and its target is known not to be a measured collection. */
  predicate Elsewhere(sc: Scope, avail: set<Local>, l: Local) {
    && l !in sc.hands && l !in sc.colls && Base(sc.plan, l) !in sc.colls
    && (Known(sc, avail, l) || Grants(sc.body, l) || !IsHandle(TyOf(sc.body, l)))
  }

  /** The value of the operand gives no access to a measured collection. */
  predicate Quiet(sc: Scope, op: Operand) {
    || op.Const?
    || (op.place.proj == [] && TyOf(sc.body, op.place.local) == Ref(false))
    || (op.place.local !in sc.hands && (op.place.proj != [] || !Grants(sc.body, op.place.local) || Base(sc.plan, op.place.local) !in sc.colls))
  }

  predicate AllQuiet(sc: Scope, ops: seq<Operand>) { forall i :: 0 <= i < |ops| ==> Quiet(sc, ops[i]) }

  /** The handle `d` made from `l` refers to no measured collection, or is a recorded borrow of it. */
  predicate Follow(sc: Scope, avail: set<Local>, d: Local, l: Local) {
    l !in sc.hands && (Grants(sc.body, d) ==> Elsewhere(sc, avail, l) || (Known(sc, avail, l) && Base(sc.plan, d) == Base(sc.plan, l)))
  }

  /** `d = rv` makes `d` no unrecorded handle to a measured collection. */
  predicate Recorded(sc: Scope, avail: set<Local>, d: Local, rv: Rvalue) {
    match rv
    case BorrowOf(p) => if Simple(p) then Follow(sc, avail, d, p.local) else Elsewhere(sc, avail, p.local)
    case AddrOf(p) => if Simple(p) then Follow(sc, avail, d, p.local) else Elsewhere(sc, avail, p.local)
    case Use(op) => CopyRecorded(sc, avail, d, op)
    case PtrCast(op) => CopyRecorded(sc, avail, d, op)
    case Aggregate(ops) => AllQuiet(sc, ops)
    case IntCast(op, _) => Quiet(sc, op)
    case PtrMetadata(_) => true
    case Binary(bop, a, b) => M.IsCmp(bop) || (Quiet(sc, a) && Quiet(sc, b))
    case Opaque(ops) => AllQuiet(sc, ops)
  }

  predicate CopyRecorded(sc: Scope, avail: set<Local>, d: Local, op: Operand) {
    if OperandLocal(op).None? then Quiet(sc, op)
    else if IsHandle(TyOf(sc.body, OperandLocal(op).value)) then Follow(sc, avail, d, OperandLocal(op).value)
    else OperandLocal(op).value !in sc.hands
  }

  /** A stored value gives no access to a measured collection. */
  predicate StoresQuietly(sc: Scope, avail: set<Local>, rv: Rvalue) {
    match rv
    case Use(op) => Quiet(sc, op)
    case PtrCast(op) => Quiet(sc, op)
    case BorrowOf(p) => Elsewhere(sc, avail, p.local)
    case AddrOf(p) => Elsewhere(sc, avail, p.local)
    case Aggregate(ops) => AllQuiet(sc, ops)
    case IntCast(op, _) => Quiet(sc, op)
    case PtrMetadata(_) => true
    case Binary(bop, a, b) => M.IsCmp(bop) || (Quiet(sc, a) && Quiet(sc, b))
    case Opaque(ops) => AllQuiet(sc, ops)
  }

  // ----- definitions -----

  /** Borrows are one hop deep, and every definition of a local serves its purpose. */
  predicate AssignFits(sc: Scope, avail: set<Local>, d: Local, rv: Rvalue) {
    var plan := sc.plan;
    match rv
    case BorrowOf(p) =>
      if Simple(p)
      then Known(sc, avail, p.local) && plan(d) == Borrows(p.local) && !plan(p.local).Borrows? && IsHandle(TyOf(sc.body, d))
      else plan(d).General?
    case AddrOf(p) => if Simple(p) then plan(d).Loose? else plan(d).General?
    case Use(op) =>
      Reads(avail, op) &&
      if OperandLocal(op).None? then plan(d).General?
      else if IsHandle(TyOf(sc.body, OperandLocal(op).value)) then plan(d).Loose? && OperandLocal(op).value !in sc.colls
      else plan(d).General? && (OperandLocal(op).value in sc.colls ==> d in sc.colls)
    case PtrCast(op) =>
      if OperandLocal(op).Some? && IsHandle(TyOf(sc.body, OperandLocal(op).value)) then plan(d).Loose? else plan(d).General?
    case PtrMetadata(op) =>
      if OperandLocal(op).Some?
      then Known(sc, avail, OperandLocal(op).value) && plan(d) == Measures(Length, Base(plan, OperandLocal(op).value))
      else plan(d).General?
    case Binary(bop, a, b) =>
      Reads(avail, a) && Reads(avail, b) &&
      if M.IsCmp(bop) && OperandLocal(a).Some? && OperandLocal(b).Some?
      then plan(d) == Compares(bop, OperandLocal(a).value, OperandLocal(b).value) else plan(d).General?
    case _ => plan(d).General?
  }

  /** A projected store writes neither a measured collection nor a handle to one. */
  predicate StatementFits(sc: Scope, avail: set<Local>, stmt: Statement) {
    stmt.Assign? ==>
      if stmt.dst.proj == []
      then AssignFits(sc, avail, stmt.dst.local, stmt.rv) && (stmt.dst.local in sc.hands || Recorded(sc, avail, stmt.dst.local, stmt.rv))
      else Elsewhere(sc, avail, stmt.dst.local) && StoresQuietly(sc, avail, stmt.rv)
  }

  /** The local a statement assigns. */
  function Assigned(stmt: Statement): set<Local> {
    if stmt.Assign? && stmt.dst.proj == [] then {stmt.dst.local} else {}
  }

  predicate CallFits(sc: Scope, avail: set<Local>, callee: Callee, args: seq<Operand>, d: Local) {
    var recv, plan := FirstArgLocal(args), sc.plan;
    if recv.None? then plan(d).General?
    else
      match callee.view
      case LenView => Known(sc, avail, recv.value) && plan(d) == Measures(Length, Base(plan, recv.value))
      case CapacityView => Known(sc, avail, recv.value) && plan(d) == Measures(Capacity, Base(plan, recv.value))
      case DerefView =>
        && Known(sc, avail, recv.value) && d != recv.value && IsHandle(TyOf(sc.body, d))
        && plan(d) == Borrows(Base(plan, recv.value)) && !plan(Base(plan, recv.value)).Borrows?
        && (d in sc.hands || recv.value !in sc.hands)
      case NoView => plan(d).General?
  }

  /** The argument gives no access to a measured collection, or is the collection or a recorded borrow, given mutably. */
  predicate Passable(sc: Scope, avail: set<Local>, op: Operand) {
    || Quiet(sc, op)
    || (OperandLocal(op).Some? && OperandLocal(op).value !in sc.hands && Known(sc, avail, OperandLocal(op).value)
        && IsMutableHandle(TyOf(sc.body, OperandLocal(op).value)))
  }

  predicate TerminatorFits(sc: Scope, avail: set<Local>, cur: set<Local>, term: Terminator) {
    match term
    case Call(callee, args, dest, _, _) =>
      && callee.Some? && dest.proj == [] && CallFits(sc, avail, callee.value, args, dest.local)
      && (forall i :: 0 <= i < |args| ==> Passable(sc, avail, args[i]) && (callee.value.retains ==> Quiet(sc, args[i])))
    case SwitchInt(discr, targets, otherwise) =>
      Reads(avail, discr) &&
      (OperandLocal(discr).Some? && Weighs(sc.plan, OperandLocal(discr).value) ==>
         OperandLocal(discr).value in cur && RF.ShapeOk(targets, otherwise))
    case Drop(place, _, _) => place.local !in sc.hands
    case Leave(ins, outs, _) => M.Written(outs) == {} && AllQuiet(sc, ins)
    case _ => true
  }

  // ----- current measurements: nothing could change the collection since -----

  /** What remains current when the locals `vals` are assigned and the collections `colls` may change. */
  function Survivors(plan: Plan, cur: set<Local>, vals: set<Local>, colls: set<Local>): set<Local> {
    set l | l in cur && l !in vals && Bases(plan, l) !! colls
  }

  predicate CurrentOperand(plan: Plan, cur: set<Local>, op: Operand) {
    OperandLocal(op).Some? && plan(OperandLocal(op).value).Measures? ==> OperandLocal(op).value in cur
  }

  predicate DefinesCurrent(plan: Plan, cur: set<Local>, d: Local, rv: Rvalue) {
    && d !in Bases(plan, d)
    && match rv
       case PtrMetadata(_) => true
       case Binary(_, a, b) => CurrentOperand(plan, cur, a) && CurrentOperand(plan, cur, b)
       case _ => false
  }

  function CurrentAfter(plan: Plan, cur: set<Local>, stmt: Statement): set<Local> {
    if stmt.Assign? && stmt.dst.proj == [] then
      var d := stmt.dst.local;
      Survivors(plan, cur, {d}, {d}) + (if DefinesCurrent(plan, cur, d, stmt.rv) then {d} else {})
    else cur
  }

  /** The collections the call may change, by the plan. */
  function ChangedBy(plan: Plan, body: Body, args: seq<Operand>): set<Local> {
    set i | 0 <= i < |args| && OperandLocal(args[i]).Some? && IsMutableHandle(TyOf(body, OperandLocal(args[i]).value))
      :: Base(plan, OperandLocal(args[i]).value)
  }

  predicate IsMeasuring(callee: Option<Callee>) { callee.Some? && (callee.value.view.LenView? || callee.value.view.CapacityView?) }

  /** A mutable call on a collection makes what was measured of it stale; `len` and `capacity` measure anew. */
  function CurrentOn(plan: Plan, body: Body, cur: set<Local>, term: Terminator, succ: Block): set<Local> {
    if term.Call? then
      var d := term.dest.local;
      Survivors(plan, cur, {d}, ChangedBy(plan, body, term.args) + {d}) +
      (if term.next == Some(succ) && IsMeasuring(term.callee) && FirstArgLocal(term.args).Some? then {d} else {})
    else cur
  }

  /** What is assigned on the edge to `succ`: the destination of a call that returns. */
  function AssignedOn(term: Terminator, succ: Block): set<Local> {
    if term.Call? && term.next == Some(succ) then {term.dest.local} else {}
  }

  // ----- what the facts mean -----

  /** What a proof claims of the sizes of a collection. */
  predicate Claims(kind: CapKind, len: nat, cap: nat) {
    match kind
    case Spare => len < cap
    case Full => len == cap
  }

  ghost predicate ProofsHold(s: Capacities, m: Mem) {
    forall p <- s.capProof :: Claims(p.0, m.size(Length, p.1), m.size(Capacity, p.1))
  }

  function Swap(k: Measure): Measure { if k.Length? then Capacity else Length }

  /** Whenever the comparison of the two sizes, `first` on the left, comes out as `truth`, the claim is true. */
  ghost predicate Justifies(bop: BinOp, first: Measure, truth: bool, kind: CapKind) {
    && M.IsCmp(bop)
    && forall len: nat, cap: nat ::
         (M.EvalCmp(bop, if first.Length? then len else cap, if first.Length? then cap else len) <==> truth) ==>
           Claims(kind, len, cap)
  }

  ghost predicate PromiseFitsOrder(plan: Plan, kind: CapKind, truth: bool, d: Local, c: Local, first: Measure) {
    && plan(d).Compares?
    && plan(plan(d).x) == Measures(first, c) && plan(plan(d).y) == Measures(Swap(first), c)
    && Justifies(plan(d).bop, first, truth, kind)
  }

  ghost predicate PromiseFits(plan: Plan, kind: CapKind, truth: bool, d: Local, c: Local) {
    exists first :: PromiseFitsOrder(plan, kind, truth, d, c, first)
  }

  /** The abstract facts agree with the plan, and every borrow among `avail` is known as one. */
  ghost predicate Agrees(plan: Plan, avail: set<Local>, s: Capacities) {
    && (forall r <- s.refBase.Keys :: plan(r) == Borrows(s.refBase[r]))
    && (forall k <- s.sizeOf.Keys :: plan(k.1) == Measures(k.0, s.sizeOf[k]))
    && (forall k <- s.capIf.Keys :: PromiseFits(plan, k.0, k.1, k.2, s.capIf[k]))
    && (forall r <- avail :: plan(r).Borrows? ==> r in s.refBase)
  }

  /** A value serves the purpose; a measurement taken in the current epoch is current. */
  ghost predicate Serves(plan: Plan, m: Mem, p: Purpose, v: Value)
    decreases v
  {
    match p
    case Measures(k, base) =>
      v.Measured? && v.m == k && v.base == base && v.epoch <= m.epoch(base) &&
      (v.epoch == m.epoch(base) ==> v.n == m.size(k, base))
    case Compares(bop, x, y) =>
      v.Compared? && v.bop == bop && Serves(plan, m, plan(x), v.x) && Serves(plan, m, plan(y), v.y)
    case _ => true
  }

  /** Every available local serves its purpose and refers to the collection the plan says. */
  ghost predicate Follows(plan: Plan, avail: set<Local>, m: Mem) {
    forall l <- avail :: Serves(plan, m, plan(l), m.val(l)) && (!plan(l).Loose? ==> m.target(l) == Base(plan, l))
  }

  /** Outside `hands`, nothing gives access to a measured collection but a handle the plan knows. */
  ghost predicate Clear(sc: Scope, m: Mem) {
    && m.stored !! sc.colls
    && (forall l: Local :: l !in sc.hands ==> m.carries(l) !! sc.colls)
    && (forall l: Local :: l !in sc.hands && Grants(sc.body, l) && m.target(l) in sc.colls ==> m.target(l) == Base(sc.plan, l))
    && (forall l: Local :: !IsHandle(TyOf(sc.body, l)) ==> m.target(l) == l)
  }

  /** Proofs are about measured collections. */
  ghost predicate Scoped(sc: Scope, s: Capacities) { forall p <- s.capProof :: p.1 in sc.colls }

  /** A measurement taken in the current epoch of its collection. */
  ghost predicate InEpoch(m: Mem, p: Purpose, v: Value) {
    p.Measures? ==> v.Measured? && v.epoch == m.epoch(p.base)
  }

  /** Nothing that could change the collection happened since the local, or what it compares, was measured. */
  ghost predicate Current(plan: Plan, m: Mem, l: Local) {
    match plan(l)
    case Compares(_, x, y) => m.val(l).Compared? && InEpoch(m, plan(x), m.val(l).x) && InEpoch(m, plan(y), m.val(l).y)
    case _ => InEpoch(m, plan(l), m.val(l))
  }

  ghost predicate AllCurrent(plan: Plan, cur: set<Local>, m: Mem) { forall l <- cur :: Current(plan, m, l) }

  // ----- comparisons -----

  /** Each of the six comparison forms, in either operand order, justifies the claim recorded for it. */
  lemma PromiseMeans(plan: Plan, s: Capacities, bop: BinOp, a: Operand, b: Operand, d: Local)
    requires Agrees(plan, {}, s) && CapPromise(s, bop, a, b).Some? && OperandLocal(a).Some? && OperandLocal(b).Some?
    requires plan(d) == Compares(bop, OperandLocal(a).value, OperandLocal(b).value)
    ensures var p := CapPromise(s, bop, a, b).value; PromiseFits(plan, p.0, p.1, d, p.2)
  {
    var p := CapPromise(s, bop, a, b).value;
    if SameCollection(s, a, b).Some? && SameCollection(s, a, b).value == p.2 && !(bop == Order(Le) || bop == Order(Gt)) {
      assert PromiseFitsOrder(plan, p.0, p.1, d, p.2, Length);
    } else {
      assert PromiseFitsOrder(plan, p.0, p.1, d, p.2, Capacity);
    }
  }

  /** On the edge its comparison decides, a current promise comes true. */
  lemma PromiseComesTrue(plan: Plan, m: Mem, kind: CapKind, truth: bool, d: Local, c: Local)
    requires PromiseFits(plan, kind, truth, d, c) && Serves(plan, m, plan(d), m.val(d)) && Current(plan, m, d)
    requires truth <==> Number(m.val(d)) != 0
    ensures Claims(kind, m.size(Length, c), m.size(Capacity, c))
  {
    var first :| PromiseFitsOrder(plan, kind, truth, d, c, first);
    var v, len, cap := m.val(d), m.size(Length, c), m.size(Capacity, c);
    assert Number(v.x) == m.size(first, c) && Number(v.y) == m.size(Swap(first), c);
    assert M.EvalCmp(v.bop, if first.Length? then len else cap, if first.Length? then cap else len) <==> truth;
  }

  // ----- epochs -----

  ghost predicate Evolves(m: Mem, m': Mem) {
    && (forall l: Local :: m.epoch(l) <= m'.epoch(l))
    && (forall l: Local, k: Measure :: m.epoch(l) == m'.epoch(l) ==> m'.size(k, l) == m.size(k, l))
  }

  lemma ServesStays(plan: Plan, m: Mem, m': Mem, p: Purpose, v: Value)
    requires Evolves(m, m') && Serves(plan, m, p, v)
    ensures Serves(plan, m', p, v)
    decreases v
  {
    if p.Measures? && m.epoch(p.base) == m'.epoch(p.base) {
      assert m'.size(p.m, p.base) == m.size(p.m, p.base);
    }
    if p.Compares? {
      ServesStays(plan, m, m', plan(p.x), v.x);
      ServesStays(plan, m, m', plan(p.y), v.y);
    }
  }

  lemma KeptFollows(plan: Plan, avail: set<Local>, m: Mem, m': Mem, vals: set<Local>, colls: set<Local>)
    requires Follows(plan, avail, m) && Kept(m, m', vals, colls)
    ensures Follows(plan, avail - vals, m')
  {
    forall l <- avail - vals ensures Serves(plan, m', plan(l), m'.val(l)) && (!plan(l).Loose? ==> m'.target(l) == Base(plan, l)) {
      ServesStays(plan, m, m', plan(l), m.val(l));
    }
  }

  // ----- who can change what -----

  lemma TargetElsewhere(sc: Scope, avail: set<Local>, m: Mem, l: Local)
    requires Clear(sc, m) && Follows(sc.plan, avail, m) && Elsewhere(sc, avail, l)
    ensures m.target(l) !in sc.colls && m.carries(l) !! sc.colls
  {
  }

  lemma QuietContent(sc: Scope, m: Mem, op: Operand)
    requires Clear(sc, m) && Quiet(sc, op)
    ensures Content(sc.body, m, op) !! sc.colls
  {
  }

  lemma AllQuietContent(sc: Scope, m: Mem, ops: seq<Operand>)
    requires Clear(sc, m) && AllQuiet(sc, ops)
    ensures AllContent(sc.body, m, ops) !! sc.colls
  {
    forall i | 0 <= i < |ops| ensures Content(sc.body, m, ops[i]) !! sc.colls { QuietContent(sc, m, ops[i]); }
  }

  lemma InsideQuiet(sc: Scope, avail: set<Local>, m: Mem, p: Place)
    requires Clear(sc, m) && Follows(sc.plan, avail, m) && p.local !in sc.hands && (Simple(p) || Elsewhere(sc, avail, p.local))
    ensures Inside(m, p) !! sc.colls
  {
    if !Simple(p) { TargetElsewhere(sc, avail, m, p.local); }
  }

  lemma RecordedContent(sc: Scope, avail: set<Local>, m: Mem, d: Local, rv: Rvalue)
    requires Clear(sc, m) && Follows(sc.plan, avail, m) && Recorded(sc, avail, d, rv)
    ensures RvalueContent(sc.body, m, rv) !! sc.colls
  {
    match rv
    case BorrowOf(p) => InsideQuiet(sc, avail, m, p);
    case AddrOf(p) => InsideQuiet(sc, avail, m, p);
    case Use(op) => if OperandLocal(op).None? { QuietContent(sc, m, op); }
    case PtrCast(op) => if OperandLocal(op).None? { QuietContent(sc, m, op); }
    case Aggregate(ops) => AllQuietContent(sc, m, ops);
    case IntCast(op, _) => QuietContent(sc, m, op);
    case PtrMetadata(_) =>
    case Binary(bop, a, b) => if !M.IsCmp(bop) { QuietContent(sc, m, a); QuietContent(sc, m, b); }
    case Opaque(ops) => AllQuietContent(sc, m, ops);
  }

  lemma FollowTarget(sc: Scope, avail: set<Local>, m: Mem, d: Local, l: Local)
    requires Clear(sc, m) && Follows(sc.plan, avail, m) && Follow(sc, avail, d, l) && Grants(sc.body, d)
    ensures m.target(l) in sc.colls ==> m.target(l) == Base(sc.plan, d)
  {
    if Elsewhere(sc, avail, l) { TargetElsewhere(sc, avail, m, l); }
  }

  lemma RecordedTarget(sc: Scope, avail: set<Local>, m: Mem, d: Local, rv: Rvalue)
    requires Clear(sc, m) && Follows(sc.plan, avail, m) && Recorded(sc, avail, d, rv) && AssignFits(sc, avail, d, rv) && Grants(sc.body, d)
    ensures var t := RvalueTarget(sc.body, m, d, rv); t in sc.colls ==> t == Base(sc.plan, d)
  {
    match rv
    case BorrowOf(p) => if Simple(p) { FollowTarget(sc, avail, m, d, p.local); }
    case AddrOf(p) => if Simple(p) { FollowTarget(sc, avail, m, d, p.local); }
    case Use(op) =>
      if OperandLocal(op).Some? && IsHandle(TyOf(sc.body, OperandLocal(op).value)) { FollowTarget(sc, avail, m, d, OperandLocal(op).value); }
    case PtrCast(op) =>
      if OperandLocal(op).Some? && IsHandle(TyOf(sc.body, OperandLocal(op).value)) { FollowTarget(sc, avail, m, d, OperandLocal(op).value); }
    case _ =>
  }

  lemma StoredQuiet(sc: Scope, avail: set<Local>, m: Mem, rv: Rvalue)
    requires Clear(sc, m) && Follows(sc.plan, avail, m) && StoresQuietly(sc, avail, rv)
    ensures StoredContent(sc.body, m, rv) !! sc.colls
  {
    match rv
    case Use(op) => QuietContent(sc, m, op);
    case PtrCast(op) => QuietContent(sc, m, op);
    case BorrowOf(p) => TargetElsewhere(sc, avail, m, p.local); InsideQuiet(sc, avail, m, p);
    case AddrOf(p) => TargetElsewhere(sc, avail, m, p.local); InsideQuiet(sc, avail, m, p);
    case Aggregate(ops) => AllQuietContent(sc, m, ops);
    case IntCast(op, _) => QuietContent(sc, m, op);
    case PtrMetadata(_) =>
    case Binary(bop, a, b) => if !M.IsCmp(bop) { QuietContent(sc, m, a); QuietContent(sc, m, b); }
    case Opaque(ops) => AllQuietContent(sc, m, ops);
  }

  /** An assignment or store keeps every handle to a measured collection recorded. */
  lemma StatementClear(sc: Scope, avail: set<Local>, stmt: Statement, m: Mem, m': Mem)
    requires Clear(sc, m) && Follows(sc.plan, avail, m) && StatementFits(sc, avail, stmt) && StepStatement(sc.body, stmt, m, m')
    ensures Clear(sc, m')
  {
    if stmt.Assign? {
      var d := stmt.dst.local;
      if stmt.dst.proj != [] {
        StoredQuiet(sc, avail, m, stmt.rv);
      } else if d !in sc.hands {
        RecordedContent(sc, avail, m, d, stmt.rv);
        if Grants(sc.body, d) { RecordedTarget(sc, avail, m, d, stmt.rv); }
      }
    }
  }

  /** A projected store changes no measured collection. */
  lemma StoreMisses(sc: Scope, avail: set<Local>, stmt: Statement, m: Mem)
    requires Clear(sc, m) && Follows(sc.plan, avail, m) && StatementFits(sc, avail, stmt) && stmt.Assign? && stmt.dst.proj != []
    ensures StoreHits(m, stmt.dst) !! sc.colls
  {
    TargetElsewhere(sc, avail, m, stmt.dst.local);
  }

  // ----- statements -----

  lemma DerefAgrees(plan: Plan, avail: set<Local>, s: Capacities, l: Local)
    requires Agrees(plan, avail, s) && l in avail
    ensures DerefBase(s, l) == Base(plan, l)
  {
  }

  lemma KillAgrees(plan: Plan, avail: set<Local>, s: Capacities, d: Local)
    requires Agrees(plan, avail, s)
    ensures Agrees(plan, avail - {d}, Kill(s, d))
    ensures !plan(d).Borrows? ==> Kill(s, d).refBase == s.refBase
  {
  }

  lemma MeasureAgrees(plan: Plan, avail: set<Local>, s: Capacities, k: Measure, d: Local, base: Local)
    requires Agrees(plan, avail - {d}, s) && plan(d) == Measures(k, base)
    ensures Agrees(plan, avail + {d}, s.(sizeOf := s.sizeOf[(k, d) := base]))
  {
  }

  lemma BorrowAgrees(plan: Plan, avail: set<Local>, s: Capacities, d: Local, base: Local)
    requires Agrees(plan, avail - {d}, s) && plan(d) == Borrows(base)
    ensures Agrees(plan, avail + {d}, s.(refBase := s.refBase[d := base]))
  {
  }

  lemma CompareAgrees(sc: Scope, avail: set<Local>, s: Capacities, d: Local, bop: BinOp, a: Operand, b: Operand)
    requires Agrees(sc.plan, avail - {d}, s) && AssignFits(sc, avail, d, Binary(bop, a, b)) && CapPromise(s, bop, a, b).Some?
    ensures var p := CapPromise(s, bop, a, b).value;
            Agrees(sc.plan, avail + {d}, s.(capIf := s.capIf[(p.0, p.1, d) := p.2]))
  {
    PromiseMeans(sc.plan, s, bop, a, b, d);
  }

  lemma AssignAgrees(sc: Scope, avail: set<Local>, s: Capacities, d: Local, rv: Rvalue)
    requires Agrees(sc.plan, avail, s) && AssignFits(sc, avail, d, rv)
    ensures Agrees(sc.plan, avail + {d}, AssignLocal(s, d, rv))
  {
    var s1, plan := Kill(s, d), sc.plan;
    KillAgrees(plan, avail, s, d);
    match rv
    case BorrowOf(p) =>
      if Simple(p) { BorrowAgrees(plan, avail, s1, d, p.local); }
    case PtrMetadata(op) =>
      if OperandLocal(op).Some? {
        DerefAgrees(plan, avail, s, OperandLocal(op).value);
        MeasureAgrees(plan, avail, s1, Length, d, Base(plan, OperandLocal(op).value));
      }
    case Binary(bop, a, b) =>
      if CapPromise(s1, bop, a, b).Some? { CompareAgrees(sc, avail, s1, d, bop, a, b); }
    case _ =>
  }

  lemma DefinedFollows(sc: Scope, avail: set<Local>, m: Mem, m': Mem, d: Local, rv: Rvalue)
    requires Clear(sc, m) && Follows(sc.plan, avail, m) && AssignFits(sc, avail, d, rv) && Kept(m, m', {d}, {d}) && Defines(sc.body, m, m', d, rv)
    ensures Serves(sc.plan, m', sc.plan(d), m'.val(d)) && (!sc.plan(d).Loose? ==> m'.target(d) == Base(sc.plan, d))
  {
    match rv
    case Binary(bop, a, b) =>
      if M.IsCmp(bop) && OperandLocal(a).Some? && OperandLocal(b).Some? {
        var x, y := OperandLocal(a).value, OperandLocal(b).value;
        ServesStays(sc.plan, m, m', sc.plan(x), m.val(x));
        ServesStays(sc.plan, m, m', sc.plan(y), m.val(y));
      }
    case _ =>
  }

  lemma AssignProofs(sc: Scope, avail: set<Local>, s: Capacities, m: Mem, m': Mem, d: Local, rv: Rvalue)
    requires ProofsHold(s, m) && Scoped(sc, s) && AssignFits(sc, avail, d, rv)
    requires Kept(m, m', {d}, {d}) && Defines(sc.body, m, m', d, rv)
    ensures ProofsHold(AssignLocal(s, d, rv), m') && Scoped(sc, AssignLocal(s, d, rv))
  {
    var s1 := Kill(s, d);
    assert ProofsHold(s1, m') && forall p <- s1.capProof :: p in s.capProof && p.1 != d;
    if rv.Use? && OperandLocal(rv.op).Some? {
      var src := OperandLocal(rv.op).value;
      var s2 := Propagate(s1, d, src, rv.op.Move?);
      forall p <- s2.capProof ensures Claims(p.0, m'.size(Length, p.1), m'.size(Capacity, p.1)) && p.1 in sc.colls {
        if p !in s1.capProof {
          assert (p.0, src) in s1.capProof;
        }
      }
    }
  }

  lemma SurvivorsCurrent(plan: Plan, cur: set<Local>, m: Mem, m': Mem, vals: set<Local>, colls: set<Local>)
    requires AllCurrent(plan, cur, m) && Kept(m, m', vals, colls)
    ensures AllCurrent(plan, Survivors(plan, cur, vals, colls), m')
  {
    forall l <- Survivors(plan, cur, vals, colls) ensures Current(plan, m', l) {
      assert Current(plan, m, l) && m'.val(l) == m.val(l);
      match plan(l)
      case Measures(_, base) => assert base in Bases(plan, l);
      case Compares(_, x, y) =>
        assert MeasuredBase(plan(x)) <= Bases(plan, l) && MeasuredBase(plan(y)) <= Bases(plan, l);
        assert plan(x).Measures? ==> plan(x).base in MeasuredBase(plan(x));
        assert plan(y).Measures? ==> plan(y).base in MeasuredBase(plan(y));
      case _ =>
    }
  }

  lemma OperandCurrent(plan: Plan, cur: set<Local>, m: Mem, m': Mem, d: Local, op: Operand)
    requires AllCurrent(plan, cur, m) && Kept(m, m', {d}, {d}) && OperandLocal(op).Some? && CurrentOperand(plan, cur, op)
    requires d !in MeasuredBase(plan(OperandLocal(op).value))
    ensures InEpoch(m', plan(OperandLocal(op).value), m.val(OperandLocal(op).value))
  {
    var x := OperandLocal(op).value;
    if plan(x).Measures? { assert Current(plan, m, x) && plan(x).base in MeasuredBase(plan(x)); }
  }

  lemma DefinedCurrent(sc: Scope, avail: set<Local>, cur: set<Local>, m: Mem, m': Mem, d: Local, rv: Rvalue)
    requires Follows(sc.plan, avail, m) && AllCurrent(sc.plan, cur, m) && AssignFits(sc, avail, d, rv)
    requires Kept(m, m', {d}, {d}) && Defines(sc.body, m, m', d, rv) && DefinesCurrent(sc.plan, cur, d, rv)
    ensures Current(sc.plan, m', d)
  {
    match rv
    case PtrMetadata(op) => if OperandLocal(op).Some? { assert sc.plan(d).base in Bases(sc.plan, d); }
    case Binary(bop, a, b) =>
      if M.IsCmp(bop) && OperandLocal(a).Some? && OperandLocal(b).Some? {
        OperandCurrent(sc.plan, cur, m, m', d, a);
        OperandCurrent(sc.plan, cur, m, m', d, b);
      }
    case _ =>
  }

  /** What the step from `m` to `m'` may change are no measured collections. */
  lemma MissedCurrent(sc: Scope, cur: set<Local>, m: Mem, m': Mem, hit: set<Local>)
    requires PlanOk(sc) && AllCurrent(sc.plan, cur, m) && Kept(m, m', {}, hit) && hit !! sc.colls
    ensures AllCurrent(sc.plan, cur, m')
  {
    SurvivorsCurrent(sc.plan, cur, m, m', {}, hit);
    forall l <- cur ensures l in Survivors(sc.plan, cur, {}, hit) { BasesMeasured(sc, l); }
  }

  lemma BasesMeasured(sc: Scope, l: Local)
    requires PlanOk(sc)
    ensures Bases(sc.plan, l) <= sc.colls
  {
  }

  lemma MissedProofs(sc: Scope, s: Capacities, m: Mem, m': Mem, hit: set<Local>)
    requires ProofsHold(s, m) && Scoped(sc, s) && Kept(m, m', {}, hit) && hit !! sc.colls
    ensures ProofsHold(s, m')
  {
  }

  /** What holds of the state and the machine at every point of a run. */
  ghost predicate Sound(sc: Scope, avail: set<Local>, cur: set<Local>, s: Capacities, m: Mem) {
    && Agrees(sc.plan, avail, s) && Scoped(sc, s)
    && Follows(sc.plan, avail, m) && Clear(sc, m) && AllCurrent(sc.plan, cur, m) && ProofsHold(s, m)
  }

  lemma AssignSound(sc: Scope, avail: set<Local>, cur: set<Local>, s: Capacities, stmt: Statement, m: Mem, m': Mem)
    requires Sound(sc, avail, cur, s, m) && stmt.Assign? && stmt.dst.proj == []
    requires StatementFits(sc, avail, stmt) && StepStatement(sc.body, stmt, m, m')
    ensures Sound(sc, avail + {stmt.dst.local}, CurrentAfter(sc.plan, cur, stmt), AssignLocal(s, stmt.dst.local, stmt.rv), m')
  {
    var d := stmt.dst.local;
    StatementClear(sc, avail, stmt, m, m');
    AssignAgrees(sc, avail, s, d, stmt.rv);
    KeptFollows(sc.plan, avail, m, m', {d}, {d});
    DefinedFollows(sc, avail, m, m', d, stmt.rv);
    AssignProofs(sc, avail, s, m, m', d, stmt.rv);
    SurvivorsCurrent(sc.plan, cur, m, m', {d}, {d});
    if DefinesCurrent(sc.plan, cur, d, stmt.rv) { DefinedCurrent(sc, avail, cur, m, m', d, stmt.rv); }
  }

  lemma StatementSound(sc: Scope, avail: set<Local>, cur: set<Local>, s: Capacities, stmt: Statement, m: Mem, m': Mem)
    requires PlanOk(sc) && Sound(sc, avail, cur, s, m)
    requires StatementFits(sc, avail, stmt) && StepStatement(sc.body, stmt, m, m')
    ensures Sound(sc, avail + Assigned(stmt), CurrentAfter(sc.plan, cur, stmt), ApplyStatement(s, stmt), m')
  {
    if stmt.Assign? && stmt.dst.proj == [] {
      AssignSound(sc, avail, cur, s, stmt, m, m');
    } else if stmt.Assign? {
      StoreMisses(sc, avail, stmt, m);
      StatementClear(sc, avail, stmt, m, m');
      KeptFollows(sc.plan, avail, m, m', {}, StoreHits(m, stmt.dst));
      MissedCurrent(sc, cur, m, m', StoreHits(m, stmt.dst));
      MissedProofs(sc, s, m, m', StoreHits(m, stmt.dst));
      assert avail - {} == avail && avail + Assigned(stmt) == avail;
    } else {
      assert avail + Assigned(stmt) == avail;
    }
  }

  // ----- terminators -----

  /** What a call can change among the measured collections is what the analysis drops the proofs of. */
  lemma ReachKnown(sc: Scope, avail: set<Local>, s: Capacities, m: Mem, args: seq<Operand>)
    requires Agrees(sc.plan, avail, s) && Follows(sc.plan, avail, m) && Clear(sc, m)
    requires forall i :: 0 <= i < |args| ==> Passable(sc, avail, args[i])
    ensures Reached(sc.body, m, args) * sc.colls <= Mutated(sc.body, s, args)
    ensures Reached(sc.body, m, args) * sc.colls <= ChangedBy(sc.plan, sc.body, args)
  {
    forall c | c in Reached(sc.body, m, args) && c in sc.colls
      ensures c in Mutated(sc.body, s, args) && c in ChangedBy(sc.plan, sc.body, args)
    {
      var i :| 0 <= i < |args| && c in Content(sc.body, m, args[i]);
      ArgReach(sc, avail, s, m, args[i], c);
    }
  }

  lemma ArgReach(sc: Scope, avail: set<Local>, s: Capacities, m: Mem, op: Operand, c: Local)
    requires Agrees(sc.plan, avail, s) && Follows(sc.plan, avail, m) && Clear(sc, m) && Passable(sc, avail, op)
    requires c in Content(sc.body, m, op) && c in sc.colls
    ensures OperandLocal(op).Some? && IsMutableHandle(TyOf(sc.body, OperandLocal(op).value))
    ensures c == DerefBase(s, OperandLocal(op).value) == Base(sc.plan, OperandLocal(op).value)
  {
    if Quiet(sc, op) {
      QuietContent(sc, m, op);
      assert false;
    } else {
      DerefAgrees(sc.plan, avail, s, OperandLocal(op).value);
    }
  }

  lemma NoteAgrees(sc: Scope, avail: set<Local>, s: Capacities, callee: Callee, args: seq<Operand>, d: Local)
    requires Agrees(sc.plan, avail - {d}, s) && CallFits(sc, avail, callee, args, d) && FirstArgLocal(args).Some?
    ensures Agrees(sc.plan, avail + {d}, NoteView(s, callee.view, d, Base(sc.plan, FirstArgLocal(args).value)))
  {
    var base := Base(sc.plan, FirstArgLocal(args).value);
    match callee.view
    case LenView => MeasureAgrees(sc.plan, avail, s, Length, d, base);
    case CapacityView => MeasureAgrees(sc.plan, avail, s, Capacity, d, base);
    case DerefView => BorrowAgrees(sc.plan, avail, s, d, base);
    case NoView =>
  }

  /** What is available on the edge to `succ`. */
  function AvailableOn(avail: set<Local>, term: Terminator, succ: Block): set<Local> {
    (avail - (if term.Call? then {term.dest.local} else {})) + AssignedOn(term, succ)
  }

  lemma FewerAgree(plan: Plan, avail: set<Local>, fewer: set<Local>, s: Capacities)
    requires Agrees(plan, avail, s) && fewer <= avail
    ensures Agrees(plan, fewer, s)
  {
  }

  lemma CallAgrees(sc: Scope, avail: set<Local>, cur: set<Local>, s: Capacities, term: Terminator, succ: Block)
    requires Agrees(sc.plan, avail, s) && term.Call? && TerminatorFits(sc, avail, cur, term)
    ensures Agrees(sc.plan, AvailableOn(avail, term, succ), ApplyTerminator(sc.body, s, term))
  {
    var d, recv, callee := term.dest.local, FirstArgLocal(term.args), term.callee.value;
    var s1 := DropProofs(s, Mutated(sc.body, s, term.args));
    assert Agrees(sc.plan, avail, s1);
    KillAgrees(sc.plan, avail, s1, d);
    if recv.Some? {
      if !callee.view.NoView? {
        DerefAgrees(sc.plan, avail, s1, recv.value);
        assert DerefBase(Kill(s1, d), recv.value) == Base(sc.plan, recv.value);
      }
      NoteAgrees(sc, avail, Kill(s1, d), callee, term.args, d);
    }
    FewerAgree(sc.plan, avail + {d}, AvailableOn(avail, term, succ), ApplyTerminator(sc.body, s, term));
  }

  lemma CallFollows(sc: Scope, avail: set<Local>, cur: set<Local>, m: Mem, m': Mem, term: Terminator, succ: Block)
    requires Follows(sc.plan, avail, m) && term.Call? && TerminatorFits(sc, avail, cur, term) && StepCall(sc.body, term, m, succ, m')
    ensures Follows(sc.plan, AvailableOn(avail, term, succ), m')
  {
    var d := term.dest.local;
    KeptFollows(sc.plan, avail, m, m', {d}, Reached(sc.body, m, term.args) + {d});
  }

  /** A call keeps exactly the proofs of collections it is given no recorded mutable handle to and does not redefine. */
  lemma CallKeepsProofs(body: Body, s: Capacities, term: Terminator)
    requires term.Call? && term.callee.Some? && term.dest.proj == []
    ensures ApplyTerminator(body, s, term).capProof ==
            set p | p in s.capProof && p.1 !in Mutated(body, s, term.args) && p.1 != term.dest.local
  {
    var s2 := Kill(DropProofs(s, Mutated(body, s, term.args)), term.dest.local);
    assert ApplyTerminator(body, s, term).capProof == s2.capProof;
  }

  lemma CallProofs(sc: Scope, avail: set<Local>, cur: set<Local>, s: Capacities, m: Mem, m': Mem, term: Terminator, succ: Block)
    requires Sound(sc, avail, cur, s, m) && term.Call? && TerminatorFits(sc, avail, cur, term) && StepCall(sc.body, term, m, succ, m')
    ensures ProofsHold(ApplyTerminator(sc.body, s, term), m') && Scoped(sc, ApplyTerminator(sc.body, s, term))
  {
    CallKeepsProofs(sc.body, s, term);
    ReachKnown(sc, avail, s, m, term.args);
  }

  lemma ResultQuiet(sc: Scope, avail: set<Local>, cur: set<Local>, m: Mem, term: Terminator)
    requires Clear(sc, m) && term.Call? && TerminatorFits(sc, avail, cur, term)
    ensures term.dest.local !in sc.hands ==> ResultContent(sc.body, m, term.callee, term.args) !! sc.colls
    ensures Retains(term.callee) ==> Reached(sc.body, m, term.args) !! sc.colls
  {
    if term.callee.value.retains {
      assert AllQuiet(sc, term.args);
      AllQuietContent(sc, m, term.args);
    }
  }

  lemma ResultTarget(sc: Scope, avail: set<Local>, cur: set<Local>, m: Mem, m': Mem, term: Terminator, succ: Block)
    requires Clear(sc, m) && Follows(sc.plan, avail, m) && term.Call? && TerminatorFits(sc, avail, cur, term)
    requires StepCall(sc.body, term, m, succ, m')
    ensures var d := term.dest.local; m'.target(d) == d || (IsHandle(TyOf(sc.body, d)) && m'.target(d) == Base(sc.plan, d))
  {
  }

  lemma CallClear(sc: Scope, avail: set<Local>, cur: set<Local>, m: Mem, m': Mem, term: Terminator, succ: Block)
    requires Clear(sc, m) && Follows(sc.plan, avail, m) && term.Call? && TerminatorFits(sc, avail, cur, term)
    requires StepCall(sc.body, term, m, succ, m') && PlanOk(sc)
    ensures Clear(sc, m')
  {
    var d := term.dest.local;
    ResultQuiet(sc, avail, cur, m, term);
    ResultTarget(sc, avail, cur, m, m', term, succ);
    assert forall l: Local :: l != d ==> m'.carries(l) == m.carries(l) && m'.target(l) == m.target(l);
    assert m'.carries(d) <= ResultContent(sc.body, m, term.callee, term.args);
  }

  lemma CallCurrent(sc: Scope, avail: set<Local>, cur: set<Local>, s: Capacities, m: Mem, m': Mem, term: Terminator, succ: Block)
    requires PlanOk(sc) && Sound(sc, avail, cur, s, m)
    requires term.Call? && TerminatorFits(sc, avail, cur, term) && StepCall(sc.body, term, m, succ, m')
    ensures AllCurrent(sc.plan, CurrentOn(sc.plan, sc.body, cur, term, succ), m')
  {
    var d, colls := term.dest.local, ChangedBy(sc.plan, sc.body, term.args) + {term.dest.local};
    var hit := Reached(sc.body, m, term.args) + {d};
    ReachKnown(sc, avail, s, m, term.args);
    SurvivorsCurrent(sc.plan, cur, m, m', {d}, hit);
    forall l <- Survivors(sc.plan, cur, {d}, colls) ensures l in Survivors(sc.plan, cur, {d}, hit) { BasesMeasured(sc, l); }
    forall l <- CurrentOn(sc.plan, sc.body, cur, term, succ) ensures Current(sc.plan, m', l) {
      if l == d { assert d !in Survivors(sc.plan, cur, {d}, colls); }
    }
  }

  lemma VerdictRight(targets: seq<(nat, Block)>, otherwise: Block, v: nat)
    requires RF.ShapeOk(targets, otherwise)
    ensures var verdict := R.EdgeVerdict(targets, otherwise, M.Route(targets, otherwise, v));
            verdict.Some? ==> (verdict.value <==> v != 0)
  {
    RF.VerdictExact(targets, otherwise);
  }

  lemma EdgeClaim(plan: Plan, avail: set<Local>, cur: set<Local>, s: Capacities, m: Mem, d: Local, kind: CapKind, truth: bool)
    requires Agrees(plan, avail, s) && Follows(plan, avail, m) && AllCurrent(plan, cur, m) && d in avail
    requires (kind, truth, d) in s.capIf && (Weighs(plan, d) ==> d in cur) && (truth <==> Number(m.val(d)) != 0)
    ensures Claims(kind, m.size(Length, s.capIf[(kind, truth, d)]), m.size(Capacity, s.capIf[(kind, truth, d)]))
  {
    assert PromiseFits(plan, kind, truth, d, s.capIf[(kind, truth, d)]) && Weighs(plan, d);
    PromiseComesTrue(plan, m, kind, truth, d, s.capIf[(kind, truth, d)]);
  }

  lemma ProvedOn(s: Capacities, m: Mem, d: Local, truth: bool)
    requires ProofsHold(s, m)
    requires forall kind :: (kind, truth, d) in s.capIf ==>
               Claims(kind, m.size(Length, s.capIf[(kind, truth, d)]), m.size(Capacity, s.capIf[(kind, truth, d)]))
    ensures ProofsHold(Refine(s, d, truth), m)
  {
  }

  lemma SwitchProofs(sc: Scope, avail: set<Local>, cur: set<Local>, s: Capacities, m: Mem, term: Terminator, succ: Block)
    requires Sound(sc, avail, cur, s, m) && term.SwitchInt? && TerminatorFits(sc, avail, cur, term)
    requires OperandLocal(term.discr).Some? ==> succ == M.Route(term.targets, term.otherwise, Number(m.val(OperandLocal(term.discr).value)))
    ensures ProofsHold(RefineEdge(s, term, succ), m)
  {
    var verdict := R.EdgeVerdict(term.targets, term.otherwise, succ);
    if OperandLocal(term.discr).Some? && verdict.Some? {
      var d := OperandLocal(term.discr).value;
      forall kind | (kind, verdict.value, d) in s.capIf
        ensures Claims(kind, m.size(Length, s.capIf[(kind, verdict.value, d)]), m.size(Capacity, s.capIf[(kind, verdict.value, d)]))
      {
        assert PromiseFits(sc.plan, kind, verdict.value, d, s.capIf[(kind, verdict.value, d)]) && Weighs(sc.plan, d);
        VerdictRight(term.targets, term.otherwise, Number(m.val(d)));
        EdgeClaim(sc.plan, avail, cur, s, m, d, kind, verdict.value);
      }
      ProvedOn(s, m, d, verdict.value);
    }
  }

  lemma PromisedScoped(sc: Scope, s: Capacities, k: (CapKind, bool, Local))
    requires PlanOk(sc) && k in s.capIf && PromiseFits(sc.plan, k.0, k.1, k.2, s.capIf[k])
    ensures s.capIf[k] in sc.colls
  {
    var first :| PromiseFitsOrder(sc.plan, k.0, k.1, k.2, s.capIf[k], first);
    assert sc.plan(sc.plan(k.2).x).Measures?;
  }

  lemma RefineShape(s: Capacities, term: Terminator, succ: Block)
    ensures var s' := RefineEdge(s, term, succ);
            && s'.refBase == s.refBase && s'.sizeOf == s.sizeOf && s'.capIf == s.capIf
            && forall p <- s'.capProof :: p in s.capProof || exists k <- s.capIf.Keys :: s.capIf[k] == p.1
  {
  }

  lemma RefineAgrees(sc: Scope, avail: set<Local>, s: Capacities, term: Terminator, succ: Block)
    requires Agrees(sc.plan, avail, s) && Scoped(sc, s) && PlanOk(sc)
    ensures Agrees(sc.plan, avail, RefineEdge(s, term, succ)) && Scoped(sc, RefineEdge(s, term, succ))
  {
    RefineShape(s, term, succ);
    forall k <- s.capIf.Keys ensures s.capIf[k] in sc.colls { PromisedScoped(sc, s, k); }
  }

  lemma TerminatorAgrees(sc: Scope, avail: set<Local>, cur: set<Local>, s: Capacities, term: Terminator, succ: Block)
    requires PlanOk(sc) && Agrees(sc.plan, avail, s) && Scoped(sc, s) && TerminatorFits(sc, avail, cur, term)
    ensures var s' := RefineEdge(ApplyTerminator(sc.body, s, term), term, succ);
            Agrees(sc.plan, AvailableOn(avail, term, succ), s') && Scoped(sc, s')
  {
    if term.Call? {
      CallAgrees(sc, avail, cur, s, term, succ);
      CallKeepsProofs(sc.body, s, term);
    } else {
      assert AvailableOn(avail, term, succ) == avail;
    }
    RefineAgrees(sc, AvailableOn(avail, term, succ), ApplyTerminator(sc.body, s, term), term, succ);
  }

  /** Drops and outside code change no measured collection. */
  lemma QuietStep(sc: Scope, avail: set<Local>, cur: set<Local>, s: Capacities, m: Mem, m': Mem, term: Terminator, succ: Block)
    requires PlanOk(sc) && Sound(sc, avail, cur, s, m) && (term.Drop? || term.Leave?)
    requires TerminatorFits(sc, avail, cur, term) && StepTerminator(sc.body, term, m, succ, m')
    ensures Follows(sc.plan, avail, m') && Clear(sc, m') && AllCurrent(sc.plan, cur, m') && ProofsHold(s, m')
  {
    if term.Leave? { AllQuietContent(sc, m, term.ins); }
    var hit := if term.Drop? then m.carries(term.place.local) + m.stored else Reached(sc.body, m, term.ins);
    assert Kept(m, m', {}, hit) && hit !! sc.colls;
    KeptFollows(sc.plan, avail, m, m', {}, hit);
    MissedCurrent(sc, cur, m, m', hit);
    MissedProofs(sc, s, m, m', hit);
    assert avail - {} == avail;
  }

  lemma TerminatorSound(sc: Scope, avail: set<Local>, cur: set<Local>, s: Capacities, m: Mem, m': Mem, term: Terminator, succ: Block)
    requires PlanOk(sc) && Sound(sc, avail, cur, s, m)
    requires TerminatorFits(sc, avail, cur, term) && StepTerminator(sc.body, term, m, succ, m')
    ensures Sound(sc, AvailableOn(avail, term, succ), CurrentOn(sc.plan, sc.body, cur, term, succ),
                  RefineEdge(ApplyTerminator(sc.body, s, term), term, succ), m')
  {
    TerminatorAgrees(sc, avail, cur, s, term, succ);
    if term.Call? {
      CallFollows(sc, avail, cur, m, m', term, succ);
      CallProofs(sc, avail, cur, s, m, m', term, succ);
      CallClear(sc, avail, cur, m, m', term, succ);
      CallCurrent(sc, avail, cur, s, m, m', term, succ);
    } else {
      assert AvailableOn(avail, term, succ) == avail;
      if term.SwitchInt? { SwitchProofs(sc, avail, cur, s, m, term, succ); }
      if term.Drop? || term.Leave? { QuietStep(sc, avail, cur, s, m, m', term, succ); }
    }
  }

  // ----- stale measurements -----

  /** The machine whose collections have these sizes, and whose local `d` compares measurements taken so many epochs ago. */
  ghost function Lagging(len: nat, cap: nat, d: Local, c: Local, bop: BinOp, first: Measure, lagX: nat, x: nat, lagY: nat, y: nat): Mem {
    var now := lagX + lagY;
    Mem((k: Measure, l: Local) => if k.Length? then len else cap,
        (l: Local) => now,
        (l: Local) => l,
        (l: Local) => {},
        {},
        (l: Local) => if l == d then Compared(bop, Measured(first, c, now - lagX, x), Measured(Swap(first), c, now - lagY, y)) else Value.Plain(0))
  }

  /** On every machine whose `d` compares measurements that old, and takes the edge, the claim is true. */
  ghost predicate SafeAtAge(plan: Plan, kind: CapKind, truth: bool, d: Local, c: Local, lagX: nat, lagY: nat) {
    forall m: Mem ::
      plan(d).Compares? && Serves(plan, m, plan(d), m.val(d)) && m.val(d).Compared? &&
      m.val(d).x.Measured? && m.val(d).x.epoch + lagX == m.epoch(c) &&
      m.val(d).y.Measured? && m.val(d).y.epoch + lagY == m.epoch(c) &&
      (truth <==> Number(m.val(d)) != 0) ==>
        Claims(kind, m.size(Length, c), m.size(Capacity, c))
  }

  lemma StaleFails(plan: Plan, kind: CapKind, truth: bool, d: Local, c: Local, lagX: nat, lagY: nat)
    requires PromiseFits(plan, kind, truth, d, c) && lagX + lagY > 0
    ensures !SafeAtAge(plan, kind, truth, d, c, lagX, lagY)
  {
    var first :| PromiseFitsOrder(plan, kind, truth, d, c, first);
    var bop := plan(d).bop;
    var len, cap := if kind.Spare? then 5 else 0, 5;
    var left, right := if first.Length? then len else cap, if first.Length? then cap else len;
    StrictOrEqual(bop, first, truth, kind);
    var x := if lagX == 0 then left else if kind.Full? then right else if first.Length? then 4 else 6;
    var y := if lagY == 0 then right else if kind.Full? then x else if first.Length? then x + 1 else if x > 0 then x - 1 else 0;
    var m := Lagging(len, cap, d, c, bop, first, lagX, x, lagY, y);
    assert Serves(plan, m, plan(plan(d).x), m.val(d).x) && Serves(plan, m, plan(plan(d).y), m.val(d).y);
    assert Number(m.val(d).x) == x && Number(m.val(d).y) == y;
    assert truth <==> Number(m.val(d)) != 0;
    assert !Claims(kind, m.size(Length, c), m.size(Capacity, c));
  }

  /** The only outcome that justifies a spare claim is a strict comparison, the only one for a full claim equality. */
  lemma StrictOrEqual(bop: BinOp, first: Measure, truth: bool, kind: CapKind)
    requires Justifies(bop, first, truth, kind)
    ensures forall x: nat, y: nat :: (M.EvalCmp(bop, x, y) <==> truth) <==>
              (if kind.Full? then x == y else if first.Length? then x < y else y < x)
  {
    assert Claims(kind, 0, 0) || !(M.EvalCmp(bop, 0, 0) <==> truth);
    assert Claims(kind, 1, 0) || !(M.EvalCmp(bop, if first.Length? then 1 else 0, if first.Length? then 0 else 1) <==> truth);
    assert Claims(kind, 0, 1) || !(M.EvalCmp(bop, if first.Length? then 0 else 1, if first.Length? then 1 else 0) <==> truth);
  }

  /**
  A recorded comparison is right on its edge, for every machine, exactly when nothing could change the collection
  between either measurement and the branch; and no call but one that assigns the comparison withdraws it.
  */
  lemma StaleBranchExact(plan: Plan, kind: CapKind, truth: bool, d: Local, c: Local, lagX: nat, lagY: nat)
    requires PromiseFits(plan, kind, truth, d, c)
    ensures SafeAtAge(plan, kind, truth, d, c, lagX, lagY) <==> lagX == 0 && lagY == 0
    ensures forall body: Body, s: Capacities, term: Terminator :: (kind, truth, d) in s.capIf && (term.Call? ==> term.dest.local != d) ==>
              (kind, truth, d) in ApplyTerminator(body, s, term).capIf &&
              ApplyTerminator(body, s, term).capIf[(kind, truth, d)] == s.capIf[(kind, truth, d)]
  {
    if lagX == 0 && lagY == 0 {
      forall m: Mem | plan(d).Compares? && Serves(plan, m, plan(d), m.val(d)) && m.val(d).Compared? &&
                      m.val(d).x.Measured? && m.val(d).x.epoch + lagX == m.epoch(c) &&
                      m.val(d).y.Measured? && m.val(d).y.epoch + lagY == m.epoch(c) &&
                      (truth <==> Number(m.val(d)) != 0)
        ensures Claims(kind, m.size(Length, c), m.size(Capacity, c))
      {
        PromiseComesTrue(plan, m, kind, truth, d, c);
      }
    } else {
      StaleFails(plan, kind, truth, d, c, lagX, lagY);
    }
  }
}
