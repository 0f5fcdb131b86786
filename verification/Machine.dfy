/**
What scalar code does when it runs: machine values of the unsigned scalar locals of a body.

Locals of other types may change arbitrarily at every step. A value built by multiplications and additions remembers
the mathematical result of that whole tree of operations, so that wrapping anywhere in it can be spoken of.
*/
module Machine {
  import opened Mir
  import R = RangeTransfer

  datatype Val = Val(bits: nat, arith: Option<nat>)

  type Env = seq<Val>

  /** The value the operations would have given without wrapping; other values are leaves. */
  function Math(v: Val): nat { if v.arith.Some? then v.arith.value else v.bits }

  predicate IsScalar(ty: Ty) {
    ty.Bool? || ty.Char? || ty.Uint? || ty.NonZero? || ty.Checked? || ty.Layout?
  }

  predicate ScalarLocal(body: Body, l: Local) {
    l < |body.tys| && IsScalar(body.tys[l])
  }

  predicate HasType(v: Val, ty: Ty) {
    && v.bits <= U64_MAX
    && (UintTypeMax(ty).Some? ==> v.bits <= UintTypeMax(ty).value)
    && (ty.NonZero? ==> v.bits != 0)
    && (ty.Checked? ==> v.bits <= MaxOf(ty.width))
  }

  ghost predicate Typed(body: Body, e: Env) {
    |e| == |body.tys| && forall l: Local :: ScalarLocal(body, l) ==> HasType(e[l], body.tys[l])
  }

  // ----- operators -----

  predicate Compare(rel: Rel, a: nat, b: nat) {
    match rel
    case Lt => a < b
    case Le => a <= b
    case Gt => a > b
    case Ge => a >= b
  }

  predicate IsCmp(bop: BinOp) { bop.Order? || bop.Eq? || bop.Ne? }

  predicate EvalCmp(bop: BinOp, a: nat, b: nat)
    requires IsCmp(bop)
  {
    match bop
    case Order(rel) => Compare(rel, a, b)
    case Eq => a == b
    case Ne => a != b
  }

  function BitAndN(a: nat, b: nat): (r: nat)
    ensures r <= a && r <= b
  {
    if a == 0 || b == 0 then 0
    else (if a % 2 == 1 && b % 2 == 1 then 1 else 0) + 2 * BitAndN(a / 2, b / 2)
  }

  function BitOrN(a: nat, b: nat): (r: nat)
    ensures r >= a && r >= b
  {
    if a == 0 then b else if b == 0 then a
    else (if a % 2 == 1 || b % 2 == 1 then 1 else 0) + 2 * BitOrN(a / 2, b / 2)
  }

  function Wrap(ty: Ty, n: nat): nat {
    if ty.Uint? || ty.Checked? then n % (MaxOf(ty.width) + 1) else n
  }

  /** `v` is a possible result of `a bop b` at type `ty`. */
  predicate BinaryResult(bop: BinOp, ty: Ty, a: Val, b: Val, v: Val) {
    match bop
    case Order(_) => v == Val(if EvalCmp(bop, a.bits, b.bits) then 1 else 0, None)
    case Eq => v == Val(if EvalCmp(bop, a.bits, b.bits) then 1 else 0, None)
    case Ne => v == Val(if EvalCmp(bop, a.bits, b.bits) then 1 else 0, None)
    case BitOr => v == Val(BitOrN(a.bits, b.bits), None)
    case BitAnd => v == Val(BitAndN(a.bits, b.bits), None)
    case Rem => b.bits != 0 && v == Val(a.bits % b.bits, None)
    case Shr => v == Val(R.ShiftRight(a.bits, if ty.Uint? then b.bits % BitsOf(ty.width) else b.bits), None)
    case Mul => v == Val(Wrap(ty, a.bits * b.bits), Some(Math(a) * Math(b)))
    case Add => v == Val(Wrap(ty, a.bits + b.bits), Some(Math(a) + Math(b)))
    case MulWithOverflow => v == Val(Wrap(ty, a.bits * b.bits), Some(Math(a) * Math(b)))
    case AddWithOverflow => v == Val(Wrap(ty, a.bits + b.bits), Some(Math(a) + Math(b)))
    case _ => v.arith.None?
  }

  /** `v` is a possible value of an operand; what a projected place holds is not known here. */
  predicate OperandMay(e: Env, op: Operand, v: Val) {
    && v.bits <= U64_MAX
    && (OperandLocal(op).None? ==> v.arith.None?)
    && (op.Const? ==> v.bits == op.bits)
    && (OperandLocal(op).Some? && OperandLocal(op).value < |e| ==> v == e[OperandLocal(op).value])
  }

  ghost predicate RvalueMay(body: Body, e: Env, rv: Rvalue, ty: Ty, v: Val) {
    match rv
    case Use(Const(c)) => v == Val(c, None)
    case Use(op) =>
      var l := op.place.local;
      if op.place.proj == [] || (op.place.proj == [Field(0)] && TyOf(body, l).Checked?) then l < |e| && v == e[l]
      else v.arith.None?
    case IntCast(op, _) => exists x :: OperandMay(e, op, x) && v == Val(Wrap(ty, x.bits), None)
    case Binary(bop, a, b) => exists x, y :: OperandMay(e, a, x) && OperandMay(e, b, y) && BinaryResult(bop, ty, x, y, v)
    case _ => v.arith.None?
  }

  // ----- steps -----

  /** Scalar locals outside `but` keep their value. */
  ghost predicate Kept(body: Body, e: Env, e': Env, but: set<Local>) {
    && |e| == |e'|
    && forall l: Local :: l < |e| && ScalarLocal(body, l) && l !in but ==> e'[l] == e[l]
  }

  function MovedFrom(rv: Rvalue): set<Local> {
    if rv.Use? && rv.op.Move? && rv.op.place.proj == [] then {rv.op.place.local} else {}
  }

  /** A moved-from local no longer counts as built by arithmetic. */
  ghost predicate StepStatement(body: Body, stmt: Statement, e: Env, e': Env) {
    && Typed(body, e) && Typed(body, e')
    && if stmt.Nop? || stmt.dst.proj != [] then Kept(body, e, e', {})
       else
         var d, moved := stmt.dst.local, MovedFrom(stmt.rv);
         && Kept(body, e, e', {d} + moved)
         && (forall l <- moved :: l < |e| && l != d ==> e'[l] == Val(e[l].bits, None))
         && (ScalarLocal(body, d) ==> RvalueMay(body, e, stmt.rv, body.tys[d], e'[d]))
  }

  function Route(targets: seq<(nat, Block)>, otherwise: Block, v: nat): Block {
    var t := R.TargetOf(targets, v);
    if t.Some? then t.value else otherwise
  }

  /** The two scalar locals a comparing call is given by value. */
  function ComparedArgs(body: Body, args: seq<Operand>): Option<(Local, Local)> {
    if |args| == 2 && OperandLocal(args[0]).Some? && OperandLocal(args[1]).Some?
       && ScalarLocal(body, OperandLocal(args[0]).value) && ScalarLocal(body, OperandLocal(args[1]).value)
    then Some((OperandLocal(args[0]).value, OperandLocal(args[1]).value)) else None
  }

  /**
  A layout built from a size carries that size; a non-null accessor returns a non-null pointer; an honest `eq` or `ne`
  says whether its arguments are equal. Any other result is possible.
  */
  ghost predicate CallResult(body: Body, term: Terminator, e: Env, v: Val)
    requires term.Call? && |e| == |body.tys|
  {
    && (term.callee.Some? && term.callee.value.comparison.Some? && term.callee.value.honest ==>
          var ab := ComparedArgs(body, term.args);
          ab.Some? ==> (v.bits != 0 <==> (e[ab.value.0].bits == e[ab.value.1].bits) == term.callee.value.comparison.value))
    && (term.callee.Some? && term.callee.value.nonNull ==> v.bits != 0)
    && (v.arith.Some? ==>
          && term.callee.Some? && term.callee.value.layoutUnchecked
          && FirstArgLocal(term.args).Some? && FirstArgLocal(term.args).value < |e|
          && v == e[FirstArgLocal(term.args).value])
  }

  /** The place is a local or a part of it, not memory it points to. */
  predicate WritesLocal(p: Place) { p.proj == [] || p.proj[0] != Deref }

  /** The locals outside code writes, whole or in part. */
  function Written(outs: seq<Place>): set<Local> { set i | 0 <= i < |outs| && WritesLocal(outs[i]) :: outs[i].local }

  /** The terminator hands control to `succ`. After unwinding the destination of a call is not read again. */
  ghost predicate StepTerminator(body: Body, term: Terminator, e: Env, succ: Block, e': Env) {
    && Typed(body, e) && Typed(body, e')
    && succ in Successors(term)
    && match term
       case Call(_, _, dest, _, _) =>
         && Kept(body, e, e', if dest.proj == [] then {dest.local} else {})
         && (dest.proj == [] && ScalarLocal(body, dest.local) ==> CallResult(body, term, e, e'[dest.local]))
       case SwitchInt(discr, targets, otherwise) =>
         && Kept(body, e, e', {})
         && (exists v :: OperandMay(e, discr, v) && succ == Route(targets, otherwise, v.bits))
       case Leave(_, outs, _) => Kept(body, e, e', Written(outs))
       case _ => Kept(body, e, e', {})
  }

  /** A program point with the values there. */
  datatype Config = Config(bb: Block, at: nat, env: Env)

  ghost predicate Step(body: Body, c: Config, c': Config) {
    && c.bb < |body.blocks|
    && var block := body.blocks[c.bb];
       if c.at < |block.stmts| then
         c'.bb == c.bb && c'.at == c.at + 1 && StepStatement(body, block.stmts[c.at], c.env, c'.env)
       else c'.at == 0 && StepTerminator(body, block.term, c.env, c'.bb, c'.env)
  }

  /** A run from function entry; parameters hold any value of their type. */
  ghost predicate IsRun(body: Body, run: seq<Config>) {
    && 0 < |run| && run[0].bb == 0 && run[0].at == 0
    && Typed(body, run[0].env) && (forall l :: 0 <= l < |run[0].env| ==> run[0].env[l].arith.None?)
    && forall k :: 0 <= k < |run| - 1 ==> Step(body, run[k], run[k + 1])
  }
}
