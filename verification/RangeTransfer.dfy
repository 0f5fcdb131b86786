/** The value-range slice of the transfer: bounds, nonzero, equality pairs, size overflow. */
module RangeTransfer {
  import opened Mir
  import opened State

  function Lookup<K, V>(m: map<K, V>, k: K): Option<V> {
    if k in m then Some(m[k]) else None
  }

  function Min(a: U64, b: U64): U64 { if a <= b then a else b }
  function Max(a: U64, b: U64): U64 { if a <= b then b else a }

  function MinOpt(a: Option<U64>, b: Option<U64>): Option<U64> {
    if a.None? then b else if b.None? then a else Some(Min(a.value, b.value))
  }

  // ----- assignment -----

  /** Forget everything recorded about `d`; a call keeps the two overflow taints of its destination. */
  function Kill(s: Ranges, d: Local, taints: bool): Ranges {
    s.(upper := s.upper - {d}, lower := s.lower - {d}, nonzero := s.nonzero - {d},
       pairs := (set p | p in s.pairs && p.1 != d && p.2 != d),
       constIf := (map k | k in s.constIf && k.1 != d :: s.constIf[k]),
       nonzeroIf := (map k | k in s.nonzeroIf && k.1 != d :: s.nonzeroIf[k]),
       pairIf := (map k | k in s.pairIf && k.1 != d :: s.pairIf[k]),
       mulOverflow := if taints then s.mulOverflow - {d} else s.mulOverflow,
       layoutOverflow := if taints then s.layoutOverflow - {d} else s.layoutOverflow)
  }

  /** What an assigned value is known to satisfy. */
  datatype Fact = Fact(upper: Option<U64>, lower: Option<U64>, nonzero: bool, overflow: bool, layout: bool)

  const NoFact := Fact(None, None, false, false, false)

  function FactOf(s: Ranges, l: Local): Fact {
    Fact(Lookup(s.upper, l), Lookup(s.lower, l), l in s.nonzero, l in s.mulOverflow, l in s.layoutOverflow)
  }

  function LocalUpper(s: Ranges, op: Operand): Option<U64> {
    if OperandLocal(op).Some? then Lookup(s.upper, OperandLocal(op).value) else None
  }

  function OperandUpper(s: Ranges, op: Operand): Option<U64> {
    if ConstU64(op).Some? then ConstU64(op) else LocalUpper(s, op)
  }

  predicate OperandNonzero(s: Ranges, op: Operand) {
    || (OperandLocal(op).Some? && OperandLocal(op).value in s.nonzero)
    || (ConstU64(op).Some? && ConstU64(op).value != 0)
  }

  /** The bound and overflow flag of a result that lies below `bound` whenever both operands are bounded. */
  function SizeFact(a: Option<U64>, b: Option<U64>, bound: nat): Fact {
    if a.Some? && b.Some? then
      NoFact.(upper := Some(if bound <= U64_MAX then bound else U64_MAX), overflow := bound > ISIZE_MAX)
    else NoFact.(overflow := true)
  }

  function BoundProduct(a: Option<U64>, b: Option<U64>): nat { if a.Some? && b.Some? then a.value * b.value else 0 }
  function BoundSum(a: Option<U64>, b: Option<U64>): nat { if a.Some? && b.Some? then a.value + b.value else 0 }

  predicate IsInteger(ty: Ty) { ty.Uint? || ty.Signed? || ty.Checked? }

  function ShiftRight(v: nat, n: nat): (r: nat)
    ensures r <= v
  {
    if n == 0 then v else ShiftRight(v / 2, n - 1)
  }

  /** `u64::checked_shr(shift as u32).unwrap_or(0)`. */
  function ShiftedBound(ub: U64, shift: U64): U64 {
    var n := shift % 0x1_0000_0000;
    if n < 64 then ShiftRight(ub, n) else 0
  }

  function BinaryFact(s: Ranges, bop: BinOp, a: Operand, b: Operand, ty: Ty): Fact {
    var ua, ub := OperandUpper(s, a), OperandUpper(s, b);
    match bop
    case BitOr => NoFact.(nonzero := OperandNonzero(s, a) || OperandNonzero(s, b))
    case BitAnd =>
      var c := if ConstU64(b).Some? then ConstU64(b) else ConstU64(a);
      NoFact.(upper := MinOpt(c, MinOpt(LocalUpper(s, a), LocalUpper(s, b))))
    case Rem =>
      if ConstU64(b).Some? && ConstU64(b).value > 0 then NoFact.(upper := Some(ConstU64(b).value - 1)) else NoFact
    case Shr =>
      if ConstU64(b).Some? then
        var src := LocalUpper(s, a);
        NoFact.(upper := Some(ShiftedBound(if src.Some? then src.value else U64_MAX, ConstU64(b).value)))
      else NoFact
    case Mul => SizeFact(ua, ub, BoundProduct(ua, ub))
    case MulWithOverflow => SizeFact(ua, ub, BoundProduct(ua, ub))
    case Add =>
      if ty.Uint? || ty.Signed? then SizeFact(ua, ub, BoundSum(ua, ub)) else NoFact
    case AddWithOverflow =>
      if IsInteger(ty) then SizeFact(ua, ub, BoundSum(ua, ub)) else NoFact
    case _ => NoFact
  }

  /** The fact an rvalue yields in the state where its destination has been forgotten. */
  function RvalueFact(s: Ranges, rv: Rvalue, ty: Ty): Fact {
    match rv
    case Use(Const(_)) =>
      var c := ConstU64(rv.op);
      if c.Some? then Fact(c, c, c.value != 0, false, false) else NoFact
    case Use(op) =>
      if op.place.proj == [] then FactOf(s, op.place.local)
      else if AtMostLeadingDeref(op.place.proj) then NoFact.(overflow := op.place.local in s.mulOverflow)
      else NoFact
    case IntCast(op, castTy) =>
      var src := OperandLocal(op);
      if src.None? then NoFact
      else NoFact.(upper := MinOpt(UintTypeMax(castTy), Lookup(s.upper, src.value)), nonzero := src.value in s.nonzero)
    case Binary(bop, a, b) => BinaryFact(s, bop, a, b, ty)
    case _ => NoFact
  }

  function Put<V>(m: map<Local, V>, d: Local, o: Option<V>): map<Local, V> {
    if o.Some? then m[d := o.value] else m
  }

  function Bind(s: Ranges, d: Local, f: Fact): Ranges {
    s.(upper := Put(s.upper, d, f.upper), lower := Put(s.lower, d, f.lower),
       nonzero := if f.nonzero then s.nonzero + {d} else s.nonzero,
       mulOverflow := if f.overflow then s.mulOverflow + {d} else s.mulOverflow,
       layoutOverflow := if f.layout then s.layoutOverflow + {d} else s.layoutOverflow)
  }

  /** A moved-from local keeps none of what was transferred. */
  function Consume(s: Ranges, l: Local): Ranges {
    s.(upper := s.upper - {l}, lower := s.lower - {l}, nonzero := s.nonzero - {l},
       mulOverflow := s.mulOverflow - {l}, layoutOverflow := s.layoutOverflow - {l})
  }

  /** `enforce_type_facts`. */
  function TypeFacts(s: Ranges, l: Local, ty: Ty): Ranges {
    s.(nonzero := if ty.NonZero? then s.nonzero + {l} else s.nonzero,
       upper := Put(s.upper, l, if UintTypeMax(ty).Some? then MinOpt(Lookup(s.upper, l), UintTypeMax(ty)) else None))
  }

  // ----- comparison facts -----

  function Flip(r: Rel): Rel {
    match r
    case Lt => Gt
    case Le => Ge
    case Gt => Lt
    case Ge => Le
  }

  function Negate(r: Rel): Rel {
    match r
    case Lt => Ge
    case Le => Gt
    case Gt => Le
    case Ge => Lt
  }

  /** What a comparison temporary promises on its two edges. */
  datatype Promise = Promise(
    bound: Option<(Rel, Local, U64)>,      // it is `l rel k`
    nonzero: Option<(bool, Local)>,        // l != 0 on that edge
    pair: Option<(bool, Local, Local)>)    // it is Eq(a, b) (true) or Ne(a, b) (false)

  const NoPromise := Promise(None, None, None)

  function ConstSide(a: Operand, b: Operand): Option<(Local, U64)> {
    if OperandLocal(a).Some? && ConstU64(b).Some? then Some((OperandLocal(a).value, ConstU64(b).value)) else None
  }

  function PromiseOf(bop: BinOp, a: Operand, b: Operand): Promise {
    var fwd, bwd := ConstSide(a, b), ConstSide(b, a);
    var other := if fwd.Some? then fwd else bwd;
    match bop
    case Order(rel) =>
      if other.None? then NoPromise
      else
        var r := if fwd.Some? then rel else Flip(rel);
        var (l, k) := other.value;
        Promise(Some((r, l, k)),
                if (r == Gt && k == 0) || (r == Ge && k >= 1) then Some((true, l)) else None, None)
    case Eq => EqPromise(true, a, b, other)
    case Ne => EqPromise(false, a, b, other)
    case _ => NoPromise
  }

  function EqPromise(isEq: bool, a: Operand, b: Operand, other: Option<(Local, U64)>): Promise {
    Promise(None,
            if other.Some? && other.value.1 == 0 then Some((!isEq, other.value.0)) else None,
            if OperandLocal(a).Some? && OperandLocal(b).Some?
            then Some((isEq, OperandLocal(a).value, OperandLocal(b).value)) else None)
  }

  function Record(s: Ranges, d: Local, p: Promise): Ranges {
    s.(constIf := if p.bound.Some? then s.constIf[(p.bound.value.0, d) := (p.bound.value.1, p.bound.value.2)] else s.constIf,
       nonzeroIf := if p.nonzero.Some? then s.nonzeroIf[(p.nonzero.value.0, d) := p.nonzero.value.1] else s.nonzeroIf,
       pairIf := if p.pair.Some? then s.pairIf[(p.pair.value.0, d) := (p.pair.value.1, p.pair.value.2)] else s.pairIf)
  }

  function RvaluePromise(rv: Rvalue): Promise {
    if rv.Binary? then PromiseOf(rv.bop, rv.op1, rv.op2) else NoPromise
  }

  // ----- statements and terminators -----

  function AssignLocal(body: Body, s: Ranges, d: Local, rv: Rvalue): Ranges {
    var s1 := Kill(s, d, true);
    var s2 := Bind(s1, d, RvalueFact(s1, rv, TyOf(body, d)));
    var s3 := if rv.Use? && rv.op.Move? && rv.op.place.proj == [] then Consume(s2, rv.op.place.local) else s2;
    TypeFacts(Record(s3, d, RvaluePromise(rv)), d, TyOf(body, d))
  }

  /** `apply_statement`: a store into a projection leaves this slice alone. */
  function ApplyStatement(body: Body, s: Ranges, stmt: Statement): Ranges {
    if stmt.Assign? && stmt.dst.proj == [] then AssignLocal(body, s, stmt.dst.local, stmt.rv) else s
  }

  predicate Tainted(s: Ranges, args: seq<Operand>) {
    FirstArgLocal(args).Some? && FirstArgLocal(args).value in s.mulOverflow
  }

  function BaseIn(refs: map<Local, Local>, l: Local): Local { if l in refs then refs[l] else l }

  /** An `eq` or `ne` call on two locals promises a comparison of what they refer to. */
  function CallPromise(refs: map<Local, Local>, c: Callee, args: seq<Operand>): Promise {
    if c.comparison.Some? && |args| == 2 && OperandLocal(args[0]).Some? && OperandLocal(args[1]).Some? then
      Promise(None, None,
        Some((c.comparison.value, BaseIn(refs, OperandLocal(args[0]).value), BaseIn(refs, OperandLocal(args[1]).value))))
    else NoPromise
  }

  /**
  `apply_terminator`; `refs` is what the borrows in scope refer to. An unresolved callee or a projected destination
  clears nothing.
  */
  function ApplyTerminator(body: Body, s: Ranges, refs: map<Local, Local>, term: Terminator): Ranges {
    if term.Call? && term.callee.Some? && term.dest.proj == [] then
      var d, c := term.dest.local, term.callee.value;
      var s1 := TypeFacts(Record(Kill(s, d, false), d, CallPromise(refs - {d}, c, term.args)), d, TyOf(body, d));
      var s2 := if c.nonNull then s1.(nonzero := s1.nonzero + {d}) else s1;
      if c.layoutUnchecked && Tainted(s2, term.args)
      then s2.(layoutOverflow := s2.layoutOverflow + {d}) else s2
    else s
  }

  // ----- edge refinement -----

  function TargetOf(targets: seq<(nat, Block)>, v: nat): Option<Block> {
    if targets == [] then None
    else if targets[0].0 == v then Some(targets[0].1)
    else TargetOf(targets[1..], v)
  }

  /** Which truth value `refine_switchint_edge` assumes on the edge into `succ`, if any. */
  function EdgeVerdict(targets: seq<(nat, Block)>, otherwise: Block, succ: Block): Option<bool> {
    var zero := TargetOf(targets, 0);
    if succ == otherwise && Some(succ) != zero then Some(true)
    else if Some(succ) == zero && succ != otherwise then Some(false)
    else None
  }

  /** Record `l rel k`, with saturating `k - 1` and `k + 1`. */
  function Tighten(s: Ranges, rel: Rel, l: Local, k: U64): Ranges {
    var up := if l in s.upper then s.upper[l] else U64_MAX;
    var low := if l in s.lower then s.lower[l] else 0;
    match rel
    case Lt => s.(upper := s.upper[l := Min(up, if k == 0 then 0 else k - 1)])
    case Le => s.(upper := s.upper[l := Min(up, k)])
    case Gt => s.(lower := s.lower[l := Max(low, if k == U64_MAX then U64_MAX else k + 1)])
    case Ge => s.(lower := s.lower[l := Max(low, k)])
  }

  function TightenBy(s: Ranges, rel: Rel, d: Local, truth: bool): Ranges {
    if (rel, d) in s.constIf then
      var (l, k) := s.constIf[(rel, d)];
      Tighten(s, if truth then rel else Negate(rel), l, k)
    else s
  }

  function TightenAll(s: Ranges, rels: seq<Rel>, d: Local, truth: bool): Ranges
    decreases |rels|
  {
    if rels == [] then s else TightenAll(TightenBy(s, rels[0], d, truth), rels[1..], d, truth)
  }

  function Ordered(tag: bool, a: Local, b: Local): (bool, Local, Local) {
    if a <= b then (tag, a, b) else (tag, b, a)
  }

  function PairBy(s: Ranges, isEq: bool, d: Local, truth: bool): Ranges {
    if (isEq, d) in s.pairIf then
      s.(pairs := s.pairs + {Ordered(isEq == truth, s.pairIf[(isEq, d)].0, s.pairIf[(isEq, d)].1)})
    else s
  }

  /** Use the facts recorded for `d` knowing that its comparison evaluated to `truth`. */
  function Refine(s: Ranges, d: Local, truth: bool): Ranges {
    var s1 := if (truth, d) in s.nonzeroIf then s.(nonzero := s.nonzero + {s.nonzeroIf[(truth, d)]}) else s;
    var s2 := TightenAll(s1, [Lt, Le, Gt, Ge], d, truth);
    PairBy(PairBy(s2, false, d, truth), true, d, truth)
  }

  /** `refine_switchint_edge`. */
  function RefineEdge(s: Ranges, term: Terminator, succ: Block): Ranges {
    if term.SwitchInt? && OperandLocal(term.discr).Some? then
      var verdict := EdgeVerdict(term.targets, term.otherwise, succ);
      if verdict.Some? then Refine(s, OperandLocal(term.discr).value, verdict.value) else s
    else s
  }

  /** Replay of a statement list. */
  function Replay(body: Body, s: Ranges, stmts: seq<Statement>): Ranges
    decreases |stmts|
  {
    if stmts == [] then s else ApplyStatement(body, Replay(body, s, stmts[..|stmts| - 1]), stmts[|stmts| - 1])
  }

  /** What flows from the entry of a block along one of its edges; `refs` are its borrows before the terminator. */
  function Along(body: Body, block: BasicBlock, succ: Block, s: Ranges, refs: map<Local, Local>): Ranges {
    RefineEdge(ApplyTerminator(body, Replay(body, s, block.stmts), refs, block.term), block.term, succ)
  }

  /** `seed_param_type_facts` for parameters `from..=argCount`. */
  function SeedParams(body: Body, s: Ranges, from: nat): Ranges
    decreases body.argCount + 1 - from
  {
    if from > body.argCount || from >= 0x1_0000_0000 then s
    else SeedParams(body, TypeFacts(s, from, TyOf(body, from)), from + 1)
  }

  // ----- queries -----

  predicate IsNonzero(s: Ranges, l: Local) {
    l in s.nonzero || (l in s.lower && s.lower[l] >= 1)
  }

  predicate IsValidScalar(s: Ranges, l: Local) {
    && l in s.upper && s.upper[l] <= 0x10FFFF
    && (s.upper[l] < 0xD800 || (l in s.lower && s.lower[l] > 0xDFFF))
  }

  predicate IsAscii(s: Ranges, l: Local) {
    l in s.upper && s.upper[l] <= 127
  }
}
