/** Every recorded range, nonzero, equality and size fact is true of the machine values, statement by statement. */
module RangeSound {
  import opened Mir
  import opened State
  import opened Machine
  import opened R = RangeTransfer

  // ----- what the recorded facts mean -----

  predicate FactHolds(f: Fact, v: Val) {
    && (f.upper.Some? ==> v.bits <= f.upper.value)
    && (f.lower.Some? ==> f.lower.value <= v.bits)
    && (f.nonzero ==> v.bits != 0)
  }

  ghost predicate LocalsHold(body: Body, e: Env, s: Ranges) {
    |e| == |body.tys| && forall l: Local :: ScalarLocal(body, l) ==> FactHolds(FactOf(s, l), e[l])
  }

  ghost predicate PairsHold(body: Body, e: Env, s: Ranges) {
    && |e| == |body.tys|
    && forall t, a, b :: (t, a, b) in s.pairs && ScalarLocal(body, a) && ScalarLocal(body, b) ==>
         (t <==> e[a].bits == e[b].bits)
  }

  /** All facts hold except those of `d`, about which nothing is recorded. */
  ghost predicate OthersHold(body: Body, e: Env, s: Ranges, d: Local) {
    && |e| == |body.tys|
    && d !in s.upper && d !in s.lower && d !in s.nonzero
    && forall l: Local :: ScalarLocal(body, l) && l != d ==> FactHolds(FactOf(s, l), e[l])
  }

  /** The values satisfy everything the state records about them. */
  ghost predicate Holds(body: Body, e: Env, s: Ranges) {
    LocalsHold(body, e, s) && PairsHold(body, e, s)
  }

  /** Weaker claims hold of the same values: this is what carries facts through a merge. */
  lemma HoldsWeaker(body: Body, e: Env, s: Ranges, t: Ranges)
    requires Holds(body, e, s) && RangeLeq(s, t)
    ensures Holds(body, e, t)
  {
    forall l: Local | ScalarLocal(body, l) ensures FactHolds(FactOf(t, l), e[l]) {
      assert FactHolds(FactOf(s, l), e[l]);
    }
  }

  // ----- the fragment -----

  predicate OperandOk(body: Body, op: Operand) {
    OperandLocal(op).Some? ==> ScalarLocal(body, OperandLocal(op).value)
  }

  predicate OperandHasType(body: Body, op: Operand, ty: Ty) {
    OperandLocal(op).Some? ==> TyOf(body, OperandLocal(op).value) == ty
  }

  predicate Multiplies(bop: BinOp) { bop == Mul || bop == MulWithOverflow }
  predicate Adds(bop: BinOp) { bop == Add || bop == AddWithOverflow }

  predicate BinaryOk(body: Body, bop: BinOp, a: Operand, b: Operand, ty: Ty) {
    && OperandOk(body, a) && OperandOk(body, b)
    && (bop == Shr ==> ty.Uint? && (ConstU64(b).Some? ==> b.bits < BitsOf(ty.width)))
    && (bop == Mul || bop == Add ==> ty.Uint?)
    && (bop == MulWithOverflow || bop == AddWithOverflow ==> ty.Checked?)
    && (Multiplies(bop) || Adds(bop) ==> OperandHasType(body, a, Uint(ty.width)) && OperandHasType(body, b, Uint(ty.width)))
  }

  /** Well-typed assignment to a scalar, not of a local to itself; integer casts widen. */
  predicate RvalueOk(body: Body, d: Local, rv: Rvalue) {
    var ty := TyOf(body, d);
    match rv
    case Use(Const(_)) => true
    case Use(op) =>
      var src := TyOf(body, op.place.local);
      && (op.place.proj == [] ==> ScalarLocal(body, op.place.local) && src == ty && op.place.local != d)
      && (op.place.proj == [Field(0)] && src.Checked? ==> ScalarLocal(body, op.place.local) && ty == Uint(src.width))
    case IntCast(op, castTy) =>
      castTy == ty && ty.Uint? && OperandLocal(op).Some? && ScalarLocal(body, OperandLocal(op).value)
      && Widens(TyOf(body, OperandLocal(op).value), ty)
    case BorrowOf(_) => false
    case Binary(bop, a, b) => BinaryOk(body, bop, a, b, ty)
    case _ => true
  }

  predicate Widens(src: Ty, dst: Ty) {
    UintTypeMax(src).Some? && UintTypeMax(dst).Some? && UintTypeMax(src).value <= UintTypeMax(dst).value
  }

  /** The address of a scalar local is not taken and it is not written through a projection. */
  predicate StatementOk(body: Body, stmt: Statement) {
    stmt.Assign? ==>
      && (stmt.dst.proj == [] && ScalarLocal(body, stmt.dst.local) ==> RvalueOk(body, stmt.dst.local, stmt.rv))
      && (stmt.dst.proj == [] ==> stmt.dst.local !in MovedFrom(stmt.rv))
      && (stmt.dst.proj != [] ==> stmt.dst.proj[0] == Deref || !ScalarLocal(body, stmt.dst.local))
      && (stmt.rv.BorrowOf? || stmt.rv.AddrOf? ==> !ScalarLocal(body, stmt.rv.place.local))
  }

  // ----- rvalues -----

  lemma ShiftMono(a: nat, b: nat, n: nat)
    requires a <= b
    ensures ShiftRight(a, n) <= ShiftRight(b, n)
  {
    if n > 0 { ShiftMono(a / 2, b / 2, n - 1); }
  }

  lemma MulMono(a: nat, b: nat, ua: nat, ub: nat)
    requires a <= ua && b <= ub
    ensures a * b <= ua * ub
  {
    assert a * b <= ua * b;
    assert ua * b <= ua * ub;
  }

  lemma UpperHolds(body: Body, e: Env, s: Ranges, d: Local, op: Operand, x: Val)
    requires OthersHold(body, e, s, d) && OperandOk(body, op) && OperandMay(e, op, x)
    ensures OperandUpper(s, op).Some? ==> x.bits <= OperandUpper(s, op).value
    ensures LocalUpper(s, op).Some? ==> x.bits <= LocalUpper(s, op).value
    ensures OperandNonzero(s, op) ==> x.bits != 0
  {
    if OperandLocal(op).Some? {
      var l := OperandLocal(op).value;
      assert l != d ==> FactHolds(FactOf(s, l), e[l]);
    }
  }

  /** A wrapped result never exceeds the exact one, so that a bound of the exact one covers it. */
  lemma SizeSound(a: Option<U64>, b: Option<U64>, bound: nat, ty: Ty, exact: nat, v: Val)
    requires ty.Uint? || ty.Checked?
    requires v.bits == Wrap(ty, exact) <= U64_MAX
    requires a.Some? && b.Some? ==> exact <= bound
    ensures FactHolds(SizeFact(a, b, bound), v)
  {
    assert Wrap(ty, exact) <= exact;
  }

  lemma MulSound(s: Ranges, bop: BinOp, a: Operand, b: Operand, ty: Ty, m: nat, n: nat, v: Val)
    requires (bop == Mul && ty.Uint?) || (bop == MulWithOverflow && ty.Checked?)
    requires OperandUpper(s, a).Some? ==> m <= OperandUpper(s, a).value
    requires OperandUpper(s, b).Some? ==> n <= OperandUpper(s, b).value
    requires v.bits == Wrap(ty, m * n) <= U64_MAX
    ensures FactHolds(BinaryFact(s, bop, a, b, ty), v)
  {
    var ua, ub := OperandUpper(s, a), OperandUpper(s, b);
    var bound := BoundProduct(ua, ub);
    if ua.Some? && ub.Some? { MulMono(m, n, ua.value, ub.value); }
    SizeSound(ua, ub, bound, ty, m * n, v);
    assert BinaryFact(s, bop, a, b, ty) == SizeFact(ua, ub, bound);
  }

  lemma AddSound(s: Ranges, bop: BinOp, a: Operand, b: Operand, ty: Ty, m: nat, n: nat, v: Val)
    requires (bop == Add && ty.Uint?) || (bop == AddWithOverflow && ty.Checked?)
    requires OperandUpper(s, a).Some? ==> m <= OperandUpper(s, a).value
    requires OperandUpper(s, b).Some? ==> n <= OperandUpper(s, b).value
    requires v.bits == Wrap(ty, m + n) <= U64_MAX
    ensures FactHolds(BinaryFact(s, bop, a, b, ty), v)
  {
    var ua, ub := OperandUpper(s, a), OperandUpper(s, b);
    var bound := BoundSum(ua, ub);
    SizeSound(ua, ub, bound, ty, m + n, v);
    assert BinaryFact(s, bop, a, b, ty) == SizeFact(ua, ub, bound);
  }

  lemma ShiftSound(s: Ranges, a: Operand, b: Operand, ty: Ty, m: U64, n: nat, v: Val)
    requires ty.Uint? && ConstU64(b).Some? && n == b.bits < BitsOf(ty.width)
    requires LocalUpper(s, a).Some? ==> m <= LocalUpper(s, a).value
    requires v.bits <= U64_MAX && v.bits == ShiftRight(m, n % BitsOf(ty.width))
    ensures FactHolds(BinaryFact(s, Shr, a, b, ty), v)
  {
    var ub: U64 := if LocalUpper(s, a).Some? then LocalUpper(s, a).value else U64_MAX;
    assert n % BitsOf(ty.width) == n < 64 && n % 0x1_0000_0000 == n;
    ShiftMono(m, ub, n);
    assert BinaryFact(s, Shr, a, b, ty) == NoFact.(upper := Some(ShiftRight(ub, n)));
  }

  lemma BinarySound(body: Body, e: Env, s: Ranges, d: Local, bop: BinOp, a: Operand, b: Operand, ty: Ty, x: Val, y: Val, v: Val)
    requires OthersHold(body, e, s, d) && BinaryOk(body, bop, a, b, ty)
    requires OperandMay(e, a, x) && OperandMay(e, b, y) && BinaryResult(bop, ty, x, y, v) && v.bits <= U64_MAX
    ensures FactHolds(BinaryFact(s, bop, a, b, ty), v)
  {
    UpperHolds(body, e, s, d, a, x);
    UpperHolds(body, e, s, d, b, y);
    match bop
    case Mul => MulSound(s, bop, a, b, ty, x.bits, y.bits, v);
    case MulWithOverflow => MulSound(s, bop, a, b, ty, x.bits, y.bits, v);
    case Add => AddSound(s, bop, a, b, ty, x.bits, y.bits, v);
    case AddWithOverflow => AddSound(s, bop, a, b, ty, x.bits, y.bits, v);
    case Shr => if ConstU64(b).Some? { ShiftSound(s, a, b, ty, x.bits, y.bits, v); }
    case _ =>
  }

  lemma CastSound(body: Body, e: Env, s: Ranges, d: Local, op: Operand, ty: Ty, v: Val)
    requires OthersHold(body, e, s, d) && Typed(body, e) && RvalueOk(body, d, IntCast(op, ty))
    requires RvalueMay(body, e, IntCast(op, ty), ty, v) && HasType(v, ty)
    ensures FactHolds(RvalueFact(s, IntCast(op, ty), ty), v)
  {
    var l := OperandLocal(op).value;
    assert l != d ==> FactHolds(FactOf(s, l), e[l]);
    assert HasType(e[l], body.tys[l]);
    assert v.bits == e[l].bits;
  }

  lemma RvalueSound(body: Body, e: Env, s: Ranges, d: Local, rv: Rvalue, v: Val)
    requires Typed(body, e) && OthersHold(body, e, s, d) && ScalarLocal(body, d)
    requires RvalueOk(body, d, rv) && RvalueMay(body, e, rv, body.tys[d], v) && HasType(v, body.tys[d])
    ensures FactHolds(RvalueFact(s, rv, body.tys[d]), v)
  {
    match rv
    case Use(Const(_)) =>
    case Use(op) =>
      var l := op.place.local;
      if ScalarLocal(body, l) && l != d { assert FactHolds(FactOf(s, l), e[l]); }
    case IntCast(op, _) => CastSound(body, e, s, d, op, body.tys[d], v);
    case Binary(bop, a, b) =>
      var x, y :| OperandMay(e, a, x) && OperandMay(e, b, y) && BinaryResult(bop, body.tys[d], x, y, v);
      BinarySound(body, e, s, d, bop, a, b, body.tys[d], x, y, v);
    case _ =>
  }

  // ----- statements -----

  function WithType(f: Fact, ty: Ty): Fact {
    f.(upper := if UintTypeMax(ty).Some? then MinOpt(f.upper, UintTypeMax(ty)) else f.upper, nonzero := f.nonzero || ty.NonZero?)
  }

  lemma BindFacts(s: Ranges, d: Local, f: Fact, l: Local)
    requires FactOf(s, d) == NoFact
    ensures FactOf(Bind(s, d, f), l) == if l == d then f else FactOf(s, l)
  {
  }

  /** What the steps of an assignment make of the fact `f` its value has. */
  lemma StepFacts(s: Ranges, d: Local, f: Fact, moved: Option<Local>, p: Promise, ty: Ty, l: Local)
    requires FactOf(s, d) == NoFact && moved != Some(d)
    ensures var s2 := Bind(s, d, f);
            var s3 := if moved.Some? then Consume(s2, moved.value) else s2;
            var g := FactOf(TypeFacts(Record(s3, d, p), d, ty), l);
            && (l == d ==> g == WithType(f, ty))
            && (l != d && moved == Some(l) ==> g == NoFact)
            && (l != d && moved != Some(l) ==> g == FactOf(s, l))
  {
    BindFacts(s, d, f, l);
  }

  /** An assignment replaces the facts of its destination, empties a moved-from source and leaves the rest. */
  lemma AssignFacts(body: Body, s: Ranges, d: Local, rv: Rvalue, l: Local)
    requires d !in MovedFrom(rv)
    ensures var f := FactOf(AssignLocal(body, s, d, rv), l);
            && (l == d ==> f == WithType(RvalueFact(Kill(s, d, true), rv, TyOf(body, d)), TyOf(body, d)))
            && (l != d && l in MovedFrom(rv) ==> f == NoFact)
            && (l != d && l !in MovedFrom(rv) ==> f == FactOf(s, l))
  {
    var moved := if rv.Use? && rv.op.Move? && rv.op.place.proj == [] then Some(rv.op.place.local) else None;
    var s1 := Kill(s, d, true);
    StepFacts(s1, d, RvalueFact(s1, rv, TyOf(body, d)), moved, RvaluePromise(rv), TyOf(body, d), l);
    KillFacts(s, d, l);
  }

  lemma KillFacts(s: Ranges, d: Local, l: Local)
    ensures FactOf(Kill(s, d, true), l) == if l == d then NoFact else FactOf(s, l)
  {
  }

  lemma WithTypeHolds(f: Fact, v: Val, ty: Ty)
    requires FactHolds(f, v) && HasType(v, ty)
    ensures FactHolds(WithType(f, ty), v)
  {
  }

  lemma LocalsSound(body: Body, e: Env, s: Ranges, d: Local, rv: Rvalue, e': Env, l: Local)
    requires LocalsHold(body, e, s) && ScalarLocal(body, l)
    requires StatementOk(body, Assign(Place(d, []), rv)) && StepStatement(body, Assign(Place(d, []), rv), e, e')
    requires d !in MovedFrom(rv)
    ensures FactHolds(FactOf(AssignLocal(body, s, d, rv), l), e'[l])
  {
    AssignFacts(body, s, d, rv, l);
    if l == d {
      var s1 := Kill(s, d, true);
      assert OthersHold(body, e, s1, d) by {
        forall x: Local | ScalarLocal(body, x) && x != d ensures FactHolds(FactOf(s1, x), e[x]) {
          assert FactOf(s1, x) == FactOf(s, x);
        }
      }
      RvalueSound(body, e, s1, d, rv, e'[d]);
      WithTypeHolds(RvalueFact(s1, rv, body.tys[d]), e'[d], body.tys[d]);
    } else {
      assert FactHolds(FactOf(s, l), e[l]);
    }
  }

  lemma AssignSound(body: Body, e: Env, s: Ranges, d: Local, rv: Rvalue, e': Env)
    requires Holds(body, e, s)
    requires StatementOk(body, Assign(Place(d, []), rv)) && StepStatement(body, Assign(Place(d, []), rv), e, e')
    ensures Holds(body, e', AssignLocal(body, s, d, rv))
  {
    forall l: Local | ScalarLocal(body, l)
      ensures FactHolds(FactOf(AssignLocal(body, s, d, rv), l), e'[l])
    {
      LocalsSound(body, e, s, d, rv, e', l);
    }
    PairsStay(body, e, s, d, rv, e');
  }

  lemma PairsStay(body: Body, e: Env, s: Ranges, d: Local, rv: Rvalue, e': Env)
    requires PairsHold(body, e, s) && StepStatement(body, Assign(Place(d, []), rv), e, e')
    ensures PairsHold(body, e', AssignLocal(body, s, d, rv))
  {
    forall t, a, b | (t, a, b) in AssignLocal(body, s, d, rv).pairs && ScalarLocal(body, a) && ScalarLocal(body, b)
      ensures t <==> e'[a].bits == e'[b].bits
    {
      assert (t, a, b) in s.pairs && a != d && b != d;
      assert e'[a].bits == e[a].bits && e'[b].bits == e[b].bits;
    }
  }

  lemma KeptHolds(body: Body, e: Env, e': Env, s: Ranges)
    requires Holds(body, e, s) && Kept(body, e, e', {})
    ensures Holds(body, e', s)
  {
    forall l: Local | ScalarLocal(body, l) ensures FactHolds(FactOf(s, l), e'[l]) {
      assert FactHolds(FactOf(s, l), e[l]);
    }
  }

  lemma StatementSound(body: Body, e: Env, s: Ranges, stmt: Statement, e': Env)
    requires Holds(body, e, s) && StatementOk(body, stmt) && StepStatement(body, stmt, e, e')
    ensures Holds(body, e', ApplyStatement(body, s, stmt))
  {
    if stmt.Assign? && stmt.dst.proj == [] {
      assert stmt == Assign(Place(stmt.dst.local, []), stmt.rv);
      AssignSound(body, e, s, stmt.dst.local, stmt.rv, e');
    } else {
      KeptHolds(body, e, e', s);
    }
  }

  // ----- sizes -----

  /** The tree of operations behind the value wrapped nowhere and stayed within `isize::MAX`. */
  predicate Exact(v: Val) {
    v.arith.Some? ==> v.arith.value == v.bits && v.bits <= ISIZE_MAX
  }

  predicate Is64(ty: Ty) {
    ty == Uint(W64) || ty == Checked(W64)
  }

  predicate SizeHolds(f: Fact, v: Val, ty: Ty) {
    (Is64(ty) && !f.overflow ==> Exact(v)) && (ty.Layout? && !f.layout ==> Exact(v))
  }

  /** Outside `hid`, the locals that may hide a wrap, unflagged sizes are exact. */
  ghost predicate SizesHold(body: Body, e: Env, s: Ranges, hid: set<Local>) {
    |e| == |body.tys| && forall l: Local :: ScalarLocal(body, l) && l !in hid ==> SizeHolds(FactOf(s, l), e[l], body.tys[l])
  }

  lemma SizesWeaker(body: Body, e: Env, s: Ranges, t: Ranges, hid: set<Local>)
    requires SizesHold(body, e, s, hid) && RangeLeq(s, t)
    ensures SizesHold(body, e, t, hid)
  {
    forall l: Local | ScalarLocal(body, l) && l !in hid ensures SizeHolds(FactOf(t, l), e[l], body.tys[l]) {
      assert SizeHolds(FactOf(s, l), e[l], body.tys[l]);
    }
  }

  /** The operand is neither flagged nor may it hide a wrap. */
  predicate OperandClean(s: Ranges, hid: set<Local>, op: Operand) {
    OperandLocal(op).Some? ==> OperandLocal(op).value !in s.mulOverflow && OperandLocal(op).value !in hid
  }

  /** The operand is clean and known to be 0. */
  predicate CleanZero(s: Ranges, hid: set<Local>, op: Operand) { OperandClean(s, hid, op) && OperandUpper(s, op) == Some(0) }

  /** Both operands are clean, or one factor is a clean 0. */
  predicate CleanOperands(s: Ranges, hid: set<Local>, bop: BinOp, a: Operand, b: Operand) {
    || (OperandClean(s, hid, a) && OperandClean(s, hid, b))
    || (Multiplies(bop) && (CleanZero(s, hid, a) || CleanZero(s, hid, b)))
  }

  /**
  A local outside `hid` is not copied from one inside, and a 64-bit product or sum assigned to it is flagged or built
  from clean operands.
  */
  predicate BuildsCleanly(body: Body, s: Ranges, hid: set<Local>, stmt: Statement) {
    stmt.Assign? && stmt.dst.proj == [] && stmt.dst.local !in hid ==>
      var d, rv := stmt.dst.local, stmt.rv;
      && (rv.Use? && !rv.op.Const? ==> rv.op.place.local !in hid)
      && (rv.Binary? && Is64(TyOf(body, d)) && (Multiplies(rv.bop) || Adds(rv.bop))
            && !BinaryFact(Kill(s, d, true), rv.bop, rv.op1, rv.op2, TyOf(body, d)).overflow ==>
          CleanOperands(s, hid, rv.bop, rv.op1, rv.op2))
  }

  lemma OperandExact(body: Body, e: Env, s: Ranges, hid: set<Local>, op: Operand, x: Val)
    requires SizesHold(body, e, s, hid) && OperandOk(body, op) && OperandHasType(body, op, Uint(W64))
    requires OperandClean(s, hid, op) && OperandMay(e, op, x)
    ensures Math(x) == x.bits
  {
    if OperandLocal(op).Some? {
      var l := OperandLocal(op).value;
      assert SizeHolds(FactOf(s, l), e[l], body.tys[l]);
    }
  }

  lemma NoWrap(ty: Ty, n: nat)
    requires Is64(ty) && n <= ISIZE_MAX
    ensures Wrap(ty, n) == n
  {
  }

  lemma UnflaggedProduct(s: Ranges, bop: BinOp, a: Operand, b: Operand, ty: Ty, m: nat, n: nat)
    requires Is64(ty) && Multiplies(bop) && !BinaryFact(s, bop, a, b, ty).overflow
    requires OperandUpper(s, a).Some? ==> m <= OperandUpper(s, a).value
    requires OperandUpper(s, b).Some? ==> n <= OperandUpper(s, b).value
    ensures m * n <= ISIZE_MAX
  {
    var ua, ub := OperandUpper(s, a), OperandUpper(s, b);
    assert BinaryFact(s, bop, a, b, ty) == SizeFact(ua, ub, BoundProduct(ua, ub));
    MulMono(m, n, ua.value, ub.value);
  }

  lemma UnflaggedSum(s: Ranges, bop: BinOp, a: Operand, b: Operand, ty: Ty, m: nat, n: nat)
    requires Is64(ty) && Adds(bop) && (bop == Add ==> ty.Uint?) && !BinaryFact(s, bop, a, b, ty).overflow
    requires OperandUpper(s, a).Some? ==> m <= OperandUpper(s, a).value
    requires OperandUpper(s, b).Some? ==> n <= OperandUpper(s, b).value
    ensures m + n <= ISIZE_MAX
  {
    var ua, ub := OperandUpper(s, a), OperandUpper(s, b);
    assert BinaryFact(s, bop, a, b, ty) == SizeFact(ua, ub, BoundSum(ua, ub));
  }

  /** From operands that wrapped nowhere, an unflagged 64-bit result wraps nowhere either. */
  lemma UnflaggedExact(s: Ranges, bop: BinOp, a: Operand, b: Operand, ty: Ty, x: Val, y: Val, v: Val)
    requires Is64(ty) && (Multiplies(bop) || Adds(bop)) && (bop == Add ==> ty.Uint?)
    requires OperandUpper(s, a).Some? ==> x.bits <= OperandUpper(s, a).value
    requires OperandUpper(s, b).Some? ==> y.bits <= OperandUpper(s, b).value
    requires Math(x) == x.bits && Math(y) == y.bits && BinaryResult(bop, ty, x, y, v)
    requires !BinaryFact(s, bop, a, b, ty).overflow
    ensures Exact(v)
  {
    if Multiplies(bop) {
      UnflaggedProduct(s, bop, a, b, ty, x.bits, y.bits);
      NoWrap(ty, x.bits * y.bits);
    } else {
      UnflaggedSum(s, bop, a, b, ty, x.bits, y.bits);
      NoWrap(ty, x.bits + y.bits);
    }
  }

  lemma ZeroFactor(bop: BinOp, ty: Ty, x: Val, y: Val, v: Val)
    requires Is64(ty) && Multiplies(bop) && BinaryResult(bop, ty, x, y, v)
    requires (x.bits == 0 && Math(x) == 0) || (y.bits == 0 && Math(y) == 0)
    ensures Exact(v)
  {
    NoWrap(ty, 0);
    if x.bits == 0 && Math(x) == 0 {
      assert x.bits * y.bits == 0 && Math(x) * Math(y) == 0;
    } else {
      assert x.bits * y.bits == 0 && Math(x) * Math(y) == 0;
    }
  }

  lemma ZeroOperand(body: Body, e: Env, s: Ranges, hid: set<Local>, op: Operand, x: Val)
    requires LocalsHold(body, e, s) && SizesHold(body, e, s, hid) && OperandOk(body, op) && OperandHasType(body, op, Uint(W64))
    requires CleanZero(s, hid, op) && OperandMay(e, op, x)
    ensures x.bits == 0 && Math(x) == 0
  {
    OperandExact(body, e, s, hid, op, x);
    if OperandLocal(op).Some? {
      assert FactHolds(FactOf(s, OperandLocal(op).value), e[OperandLocal(op).value]);
    }
  }

  lemma BinarySizes(body: Body, e: Env, s: Ranges, hid: set<Local>, d: Local, bop: BinOp, a: Operand, b: Operand, v: Val)
    requires LocalsHold(body, e, s) && SizesHold(body, e, s, hid) && OthersHold(body, e, Kill(s, d, true), d) && ScalarLocal(body, d) && d !in hid
    requires BinaryOk(body, bop, a, b, body.tys[d]) && RvalueMay(body, e, Binary(bop, a, b), body.tys[d], v)
    requires BuildsCleanly(body, s, hid, Assign(Place(d, []), Binary(bop, a, b)))
    ensures SizeHolds(BinaryFact(Kill(s, d, true), bop, a, b, body.tys[d]), v, body.tys[d])
  {
    var ty, s1 := body.tys[d], Kill(s, d, true);
    var x, y :| OperandMay(e, a, x) && OperandMay(e, b, y) && BinaryResult(bop, ty, x, y, v);
    if (Multiplies(bop) || Adds(bop)) && Is64(ty) && !BinaryFact(s1, bop, a, b, ty).overflow {
      if OperandClean(s, hid, a) && OperandClean(s, hid, b) {
        OperandExact(body, e, s, hid, a, x);
        OperandExact(body, e, s, hid, b, y);
        UpperHolds(body, e, s1, d, a, x);
        UpperHolds(body, e, s1, d, b, y);
        UnflaggedExact(s1, bop, a, b, ty, x, y, v);
      } else {
        if CleanZero(s, hid, a) { ZeroOperand(body, e, s, hid, a, x); } else { ZeroOperand(body, e, s, hid, b, y); }
        ZeroFactor(bop, ty, x, y, v);
      }
    }
  }

  lemma RvalueSizes(body: Body, e: Env, s: Ranges, hid: set<Local>, d: Local, rv: Rvalue, v: Val)
    requires Typed(body, e) && Holds(body, e, s) && SizesHold(body, e, s, hid) && ScalarLocal(body, d) && RvalueOk(body, d, rv) && d !in hid
    requires RvalueMay(body, e, rv, body.tys[d], v) && BuildsCleanly(body, s, hid, Assign(Place(d, []), rv))
    ensures SizeHolds(RvalueFact(Kill(s, d, true), rv, body.tys[d]), v, body.tys[d])
  {
    match rv
    case Use(Const(_)) =>
    case Use(op) =>
      var l := op.place.local;
      if ScalarLocal(body, l) {
        KillFacts(s, d, l);
        assert SizeHolds(FactOf(s, l), e[l], body.tys[l]);
      }
    case Binary(bop, a, b) =>
      OthersAfterKill(body, e, s, d);
      BinarySizes(body, e, s, hid, d, bop, a, b, v);
    case _ =>
  }

  lemma OthersAfterKill(body: Body, e: Env, s: Ranges, d: Local)
    requires LocalsHold(body, e, s)
    ensures OthersHold(body, e, Kill(s, d, true), d)
  {
    forall x: Local | ScalarLocal(body, x) && x != d ensures FactHolds(FactOf(Kill(s, d, true), x), e[x]) {
      KillFacts(s, d, x);
      assert FactHolds(FactOf(s, x), e[x]);
    }
  }

  lemma StatementSizes(body: Body, e: Env, s: Ranges, hid: set<Local>, stmt: Statement, e': Env)
    requires Holds(body, e, s) && SizesHold(body, e, s, hid) && StatementOk(body, stmt) && StepStatement(body, stmt, e, e')
    requires BuildsCleanly(body, s, hid, stmt)
    ensures SizesHold(body, e', ApplyStatement(body, s, stmt), hid)
  {
    forall l: Local | ScalarLocal(body, l) && l !in hid
      ensures SizeHolds(FactOf(ApplyStatement(body, s, stmt), l), e'[l], body.tys[l])
    {
      assert SizeHolds(FactOf(s, l), e[l], body.tys[l]);
      if stmt.Assign? && stmt.dst.proj == [] {
        var d := stmt.dst.local;
        assert stmt == Assign(Place(d, []), stmt.rv);
        AssignFacts(body, s, d, stmt.rv, l);
        if l == d { RvalueSizes(body, e, s, hid, d, stmt.rv, e'[d]); }
      }
    }
  }
}
