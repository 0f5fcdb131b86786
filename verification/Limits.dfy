/** Where the analysis stops being sound: concrete inputs, and the exact conditions under which a rule is right. */
module Limits {
  import opened Mir
  import opened Lattice
  import opened State
  import M = Machine
  import O = OwnTransfer
  import R = RangeTransfer
  import RS = RangeSound
  import S = Summary
  import OS = OwnMachine
  import C = CapTransfer
  import CM = CapMachine
  import CS = CapSound

  // ----- value ranges -----

  /**
  `nonzero` crosses every integer cast. The claim is right for all nonzero sources if and only if the cast does not
  narrow: 256 as u8 is 0.
  */
  lemma NonzeroCastExact(s: Ranges, l: Local, src: Width, dst: Width)
    requires l in s.nonzero
    ensures R.RvalueFact(s, IntCast(Copy(Place(l, [])), Uint(dst)), Uint(dst)).nonzero
    ensures (forall n: nat :: 0 < n <= MaxOf(src) ==> M.Wrap(Uint(dst), n) != 0) <==> MaxOf(src) <= MaxOf(dst)
  {
    var wrapped := MaxOf(dst) + 1;
    if MaxOf(src) <= MaxOf(dst) {
      forall n: nat | 0 < n <= MaxOf(src) ensures M.Wrap(Uint(dst), n) != 0 { assert n < wrapped; }
    } else {
      assert M.Wrap(Uint(dst), wrapped) == 0 && 0 < wrapped <= MaxOf(src);
    }
  }

  lemma {:induction false} ShiftAll(b: nat, n: nat)
    requires b == 8 || b == 16 || b == 32 || b == 64
    ensures n < b ==> R.ShiftRight(Ones(b), n) >= 1
    ensures n >= b ==> R.ShiftRight(Ones(b), n) == 0
  {
    ShiftOnes(b, n);
  }

  function Ones(b: nat): nat { if b == 0 then 0 else 2 * Ones(b - 1) + 1 }

  lemma {:induction false} ShiftOnes(b: nat, n: nat)
    ensures R.ShiftRight(Ones(b), n) == if n < b then Ones(b - n) else 0
  {
    if n > 0 && b > 0 {
      assert Ones(b) / 2 == Ones(b - 1);
      ShiftOnes(b - 1, n - 1);
    } else if n > 0 {
      ShiftZero(n);
    }
  }

  lemma {:induction false} ShiftZero(n: nat)
    ensures R.ShiftRight(0, n) == 0
  {
    if n > 0 { ShiftZero(n - 1); }
  }

  lemma MaxIsOnes(w: Width)
    ensures MaxOf(w) == Ones(BitsOf(w))
  {
    assert Ones(8) == 0xFF;
    assert Ones(16) == 0xFFFF;
    assert Ones(24) == 0xFF_FFFF;
    assert Ones(32) == 0xFFFF_FFFF;
    assert Ones(40) == 0xFF_FFFF_FFFF;
    assert Ones(48) == 0xFFFF_FFFF_FFFF;
    assert Ones(56) == 0xFF_FFFF_FFFF_FFFF;
    assert Ones(64) == 0xFFFF_FFFF_FFFF_FFFF;
  }

  /**
  The bound recorded for a right shift by a constant covers every value the shift can produce, with the amount taken
  modulo the width as machines do, if and only if the amount (as a `u32`) is below the width.
  */
  lemma ShiftBoundExact(w: Width, shift: U64)
    ensures (forall v: nat :: v <= MaxOf(w) ==> R.ShiftRight(v, shift % BitsOf(w)) <= R.ShiftedBound(MaxOf(w), shift)) <==>
            shift % 0x1_0000_0000 < BitsOf(w)
  {
    if shift % 0x1_0000_0000 < BitsOf(w) {
      forall v: nat | v <= MaxOf(w) ensures R.ShiftRight(v, shift % BitsOf(w)) <= R.ShiftedBound(MaxOf(w), shift) {
        ShiftWithin(w, shift, v);
      }
    } else {
      ShiftTooFar(w, shift);
    }
  }

  lemma ShiftWithin(w: Width, shift: U64, v: nat)
    requires shift % 0x1_0000_0000 < BitsOf(w) && v <= MaxOf(w)
    ensures R.ShiftRight(v, shift % BitsOf(w)) <= R.ShiftedBound(MaxOf(w), shift)
  {
    var n := shift % 0x1_0000_0000;
    SmallShift(w, shift);
    RS.ShiftMono(v, MaxOf(w), n);
  }

  lemma SmallShift(w: Width, shift: nat)
    requires shift % 0x1_0000_0000 < BitsOf(w)
    ensures shift % BitsOf(w) == shift % 0x1_0000_0000 < 64
  {
    ModMod(shift, BitsOf(w));
    match w
    case W8 => assert (shift % 0x1_0000_0000) % 8 == shift % 0x1_0000_0000;
    case W16 => assert (shift % 0x1_0000_0000) % 16 == shift % 0x1_0000_0000;
    case W32 => assert (shift % 0x1_0000_0000) % 32 == shift % 0x1_0000_0000;
    case W64 => assert (shift % 0x1_0000_0000) % 64 == shift % 0x1_0000_0000;
  }

  lemma ShiftTooFar(w: Width, shift: U64)
    requires shift % 0x1_0000_0000 >= BitsOf(w)
    ensures R.ShiftRight(MaxOf(w), shift % BitsOf(w)) > R.ShiftedBound(MaxOf(w), shift)
  {
    MaxIsOnes(w);
    ShiftAll(BitsOf(w), shift % 0x1_0000_0000);
    ShiftAll(BitsOf(w), shift % BitsOf(w));
  }

  lemma ModMod(x: nat, b: nat)
    requires b == 8 || b == 16 || b == 32 || b == 64
    ensures x % b == (x % 0x1_0000_0000) % b
  {
    var r := x % 0x1_0000_0000;
    if b == 8 {
      assert x % 8 == r % 8;
    } else if b == 16 {
      assert x % 16 == r % 16;
    } else if b == 32 {
      assert x % 32 == r % 32;
    } else {
      assert x % 64 == r % 64;
    }
  }

  /** The values of `l` the recorded bounds allow. */
  predicate Allows(s: Ranges, l: Local, v: U64) {
    (l in s.upper ==> v <= s.upper[l]) && (l in s.lower ==> s.lower[l] <= v)
  }

  /**
  Refining by `l rel k` loses nothing and admits nothing else: afterwards exactly the values allowed before that
  satisfy the comparison are allowed, except that an impossible comparison (`< 0`, `> u64::MAX`) saturates and keeps
  the one value at the end of the range, if that was allowed.
  */
  lemma TightenExact(s: Ranges, rel: Rel, l: Local, k: U64)
    ensures (forall v: U64 :: Allows(R.Tighten(s, rel, l, k), l, v) <==> Allows(s, l, v) && M.Compare(rel, v, k)) <==>
            !(rel == Lt && k == 0 && Allows(s, l, 0)) && !(rel == Gt && k == U64_MAX && Allows(s, l, U64_MAX))
  {
    if rel == Lt && k == 0 {
      assert Allows(R.Tighten(s, rel, l, k), l, 0) <==> Allows(s, l, 0);
    }
    if rel == Gt && k == U64_MAX {
      assert Allows(R.Tighten(s, rel, l, k), l, U64_MAX) <==> Allows(s, l, U64_MAX);
    }
  }

  // ----- comparisons of other values -----

  function Lo(s: Ranges, l: Local): U64 { if l in s.lower then s.lower[l] else 0 }
  function Hi(s: Ranges, l: Local): U64 { if l in s.upper then s.upper[l] else U64_MAX }

  /** The bound recorded for `l rel k` admits the value. */
  predicate Admits(rel: Rel, k: U64, v: U64) {
    match rel
    case Lt => v <= if k == 0 then 0 else k - 1
    case Le => v <= k
    case Gt => v >= if k == U64_MAX then U64_MAX else k + 1
    case Ge => v >= k
  }

  /** The last value between `lo` and `hi` that a bound from above, or below, lets go of. */
  function Far(rel: Rel, lo: U64, hi: U64): U64 { if rel == Lt || rel == Le then hi else lo }

  lemma TightenAdmits(s: Ranges, rel: Rel, l: Local, k: U64, v: U64)
    ensures Allows(R.Tighten(s, rel, l, k), l, v) <==> Allows(s, l, v) && Admits(rel, k, v)
  {
  }

  lemma AllAdmitted(s: Ranges, rel: Rel, l: Local, k: U64)
    ensures (forall v: U64 :: Allows(s, l, v) ==> Allows(R.Tighten(s, rel, l, k), l, v)) <==>
            (Lo(s, l) <= Hi(s, l) ==> Admits(rel, k, Far(rel, Lo(s, l), Hi(s, l))))
  {
    var far := Far(rel, Lo(s, l), Hi(s, l));
    if Lo(s, l) <= Hi(s, l) {
      assert Allows(s, l, far);
      TightenAdmits(s, rel, l, k, far);
    }
    forall v: U64 | Allows(s, l, v) && Admits(rel, k, far) ensures Allows(R.Tighten(s, rel, l, k), l, v) {
      TightenAdmits(s, rel, l, k, v);
    }
  }

  /**
  A comparison recorded for `d` is withdrawn by an assignment exactly when `d` itself is assigned; rewriting the
  compared local keeps it. What the true edge then says is right for every new value the state allows if and only if
  the new bounds already satisfy the old comparison at their far end.
  */
  lemma ComparisonOutlivesOperand(body: Body, s: Ranges, rel: Rel, d: Local, l: Local, k: U64, x: Local, rv: Rvalue)
    requires (rel, d) in s.constIf && s.constIf[(rel, d)] == (l, k) && R.RvaluePromise(rv).bound != Some((rel, l, k))
    ensures var s' := R.AssignLocal(body, s, x, rv);
            ((rel, d) in s'.constIf && s'.constIf[(rel, d)] == (l, k)) <==> x != d
    ensures var s' := R.AssignLocal(body, s, x, rv);
            x != d ==>
              ((forall v: U64 :: Allows(s', l, v) ==> Allows(R.TightenBy(s', rel, d, true), l, v)) <==>
               (Lo(s', l) <= Hi(s', l) ==> Admits(rel, k, Far(rel, Lo(s', l), Hi(s', l)))))
  {
    var s' := R.AssignLocal(body, s, x, rv);
    if x != d {
      assert (rel, d) in s'.constIf && s'.constIf[(rel, d)] == (l, k);
      AllAdmitted(s', rel, l, k);
    }
  }

  // ----- comparisons at merges -----

  /** Some value between the bounds satisfies the comparison. */
  predicate Meets(rel: Rel, lo: U64, hi: U64, k: U64) {
    lo <= hi && M.Compare(rel, if rel == Lt || rel == Le then lo else hi, k)
  }

  /** The largest, or smallest, value between the bounds that satisfies the comparison, if one does. */
  function Furthest(rel: Rel, lo: U64, hi: U64, k: U64): U64 {
    match rel
    case Lt => R.Min(hi, if k == 0 then 0 else k - 1)
    case Le => R.Min(hi, k)
    case Gt => R.Max(lo, if k == U64_MAX then U64_MAX else k + 1)
    case Ge => R.Max(lo, k)
  }

  lemma FurthestSatisfies(rel: Rel, lo: U64, hi: U64, k: U64)
    requires Meets(rel, lo, hi, k)
    ensures lo <= Furthest(rel, lo, hi, k) <= hi && M.Compare(rel, Furthest(rel, lo, hi, k), k)
  {
  }

  lemma FurthestDecides(rel: Rel, lo: U64, hi: U64, k: U64, k': U64, v: U64)
    requires lo <= v <= hi && M.Compare(rel, v, k)
    ensures Meets(rel, lo, hi, k) && (Admits(rel, k', Furthest(rel, lo, hi, k)) ==> Admits(rel, k', v))
  {
  }

  ghost predicate RightAfterMerge(a: Ranges, b: Ranges, rel: Rel, d: Local, l: Local, kb: U64) {
    forall v: U64 :: Allows(b, l, v) && M.Compare(rel, v, kb) ==> Allows(R.TightenBy(JoinRange(a, b), rel, d, true), l, v)
  }

  lemma MergedAdmits(a: Ranges, b: Ranges, rel: Rel, d: Local, l: Local, ka: U64, v: U64)
    requires (rel, d) in a.constIf && a.constIf[(rel, d)] == (l, ka) && Allows(b, l, v)
    ensures Allows(R.TightenBy(JoinRange(a, b), rel, d, true), l, v) <==> Admits(rel, ka, v)
  {
    var j := JoinRange(a, b);
    assert j.constIf[(rel, d)] == (l, ka) && Allows(j, l, v);
    TightenAdmits(j, rel, l, ka, v);
  }

  /**
  Two arms compare `l` with `ka` and with `kb` into the same temporary. The merge keeps the first arm's constant, and
  refines by it whichever arm was run: on the second arm this is right for every value that passed its test if and only
  if the furthest such value also satisfies the first arm's bound.
  */
  lemma FirstComparisonExact(a: Ranges, b: Ranges, rel: Rel, d: Local, l: Local, ka: U64, kb: U64)
    requires (rel, d) in a.constIf && a.constIf[(rel, d)] == (l, ka)
    requires (rel, d) in b.constIf && b.constIf[(rel, d)] == (l, kb)
    ensures RightAfterMerge(a, b, rel, d, l, kb) <==>
            (Meets(rel, Lo(b, l), Hi(b, l), kb) ==> Admits(rel, ka, Furthest(rel, Lo(b, l), Hi(b, l), kb)))
  {
    var far := Furthest(rel, Lo(b, l), Hi(b, l), kb);
    if Meets(rel, Lo(b, l), Hi(b, l), kb) {
      FurthestSatisfies(rel, Lo(b, l), Hi(b, l), kb);
      assert Allows(b, l, far);
      MergedAdmits(a, b, rel, d, l, ka, far);
    }
    forall v: U64 | Allows(b, l, v) && M.Compare(rel, v, kb) && Admits(rel, ka, far)
      ensures Allows(R.TightenBy(JoinRange(a, b), rel, d, true), l, v)
    {
      FurthestDecides(rel, Lo(b, l), Hi(b, l), kb, ka, v);
      MergedAdmits(a, b, rel, d, l, ka, v);
    }
    forall v: U64 | Allows(b, l, v) && M.Compare(rel, v, kb) ensures Meets(rel, Lo(b, l), Hi(b, l), kb) {
      FurthestDecides(rel, Lo(b, l), Hi(b, l), kb, ka, v);
    }
  }

  /**
  If the arms compare different locals, the refined one is not the one the second arm tested: right for every value the
  second arm allows it if and only if its bounds there satisfy the first arm's comparison at their far end.
  */
  lemma FirstComparisonOtherLocal(a: Ranges, b: Ranges, rel: Rel, d: Local, l: Local, ka: U64)
    requires (rel, d) in a.constIf && a.constIf[(rel, d)] == (l, ka)
    ensures (forall v: U64 :: Allows(b, l, v) ==> Allows(R.TightenBy(JoinRange(a, b), rel, d, true), l, v)) <==>
            (Lo(b, l) <= Hi(b, l) ==> Admits(rel, ka, Far(rel, Lo(b, l), Hi(b, l))))
  {
    forall v: U64 | Allows(b, l, v)
      ensures Allows(R.TightenBy(JoinRange(a, b), rel, d, true), l, v) <==> Allows(R.Tighten(b, rel, l, ka), l, v)
    {
      MergedAdmits(a, b, rel, d, l, ka, v);
      TightenAdmits(b, rel, l, ka, v);
    }
    AllAdmitted(b, rel, l, ka);
  }

  /** So with `_1 < 10` on one arm and `_1 < 20` on the other, 15 passes the test and is then bounded by 9. */
  lemma FirstComparisonFails(d: Local, l: Local)
    ensures var a := EmptyState.range.(constIf := map[(Lt, d) := (l, 10)]);
            var b := EmptyState.range.(constIf := map[(Lt, d) := (l, 20)]);
            !RightAfterMerge(a, b, Lt, d, l, 20)
  {
    var a := EmptyState.range.(constIf := map[(Lt, d) := (l, 10)]);
    var b := EmptyState.range.(constIf := map[(Lt, d) := (l, 20)]);
    FirstComparisonExact(a, b, Lt, d, l, 10, 20);
  }

  // ----- calls and outside code -----

  /** Of `d` only what its type says is known, and that a non-null accessor returned it; the pair map apart. */
  ghost predicate OnlyByType(body: Body, s: Ranges, d: Local, nonNull: bool) {
    && d !in s.lower
    && (d in s.upper <==> UintTypeMax(TyOf(body, d)).Some?)
    && (d in s.upper ==> Some(s.upper[d]) == UintTypeMax(TyOf(body, d)))
    && (d in s.nonzero <==> TyOf(body, d).NonZero? || nonNull)
    && (forall p <- s.pairs :: p.1 != d && p.2 != d)
    && (forall k <- s.constIf.Keys :: k.1 != d) && (forall k <- s.nonzeroIf.Keys :: k.1 != d)
  }

  ghost predicate Cleared(body: Body, term: Terminator, s: Ranges, refs: map<Local, Local>)
    requires term.Call?
  {
    OnlyByType(body, R.ApplyTerminator(body, s, refs, term), term.dest.local, term.callee.Some? && term.callee.value.nonNull)
  }

  /** The overflow marks are kept by every call, also those of the destination. */
  ghost predicate MarksKept(body: Body, term: Terminator, s: Ranges, refs: map<Local, Local>) {
    var s' := R.ApplyTerminator(body, s, refs, term);
    s'.mulOverflow == s.mulOverflow && s.layoutOverflow <= s'.layoutOverflow
  }

  /**
  A call replaces the bounds, pairs and comparison facts of its destination by those of its type if and only if it is
  resolved and the destination a plain local. The overflow marks stay in either case.
  */
  lemma DestinationCleared(body: Body, term: Terminator)
    requires term.Call?
    ensures (forall s: Ranges, refs: map<Local, Local> :: Cleared(body, term, s, refs)) <==> term.callee.Some? && term.dest.proj == []
    ensures forall s: Ranges, refs: map<Local, Local> :: MarksKept(body, term, s, refs)
  {
    if term.callee.None? || term.dest.proj != [] {
      var s := EmptyState.range.(lower := map[term.dest.local := 1]);
      assert !Cleared(body, term, s, map[]);
    }
  }

  ghost predicate PairRight(e: M.Env, isEq: bool, d: Local, a: Local, b: Local)
    requires d < |e| && a < |e| && b < |e|
  {
    e[a].bits == e[b].bits <==> isEq == (e[d].bits != 0)
  }

  /** The environment in which every local is 1. */
  function AllOne(body: Body): M.Env { seq(|body.tys|, i => M.Val(1, None)) }

  lemma AllOneTyped(body: Body)
    ensures M.Typed(body, AllOne(body))
  {
    forall l: Local | M.ScalarLocal(body, l) ensures M.HasType(AllOne(body)[l], body.tys[l]) {
      if body.tys[l].Uint? || body.tys[l].Checked? { assert MaxOf(body.tys[l].width) >= 0xFF; }
    }
  }

  /** An `eq` or `ne` call on two scalar locals given by value, into a `bool` that is neither. */
  predicate Comparing(body: Body, refs: map<Local, Local>, term: Terminator, isEq: bool, a: Local, b: Local) {
    && term.Call? && term.callee.Some? && term.dest.proj == []
    && var c, d := term.callee.value, term.dest.local;
    && c.comparison == Some(isEq) && !c.nonNull && d < |body.tys| && body.tys[d] == Bool
    && M.ComparedArgs(body, term.args) == Some((a, b)) && a !in refs && b !in refs && d != a && d != b
  }

  /** `x = k`, with `k` a value of its type. */
  predicate Resets(body: Body, x: Local, k: nat) { M.ScalarLocal(body, x) && M.HasType(M.Val(k, None), body.tys[x]) }

  function Reset(x: Local, k: nat): Statement { Assign(Place(x, []), Use(Const(k))) }

  ghost predicate AnswerStep(body: Body, term: Terminator, succ: Block, x: Local, k: nat, e: M.Env, e': M.Env, e'': M.Env) {
    M.StepTerminator(body, term, e, succ, e') && M.StepStatement(body, Reset(x, k), e', e'')
  }

  /** The call answers `t` in an environment, and then `x` is reset. */
  lemma MayAnswer(body: Body, refs: map<Local, Local>, term: Terminator, isEq: bool, a: Local, b: Local, succ: Block, x: Local, k: nat, e: M.Env, t: nat)
    requires Comparing(body, refs, term, isEq, a, b) && succ in Successors(term) && Resets(body, x, k) && M.Typed(body, e) && t <= 1
    requires term.callee.value.honest ==> (t != 0 <==> (e[a].bits == e[b].bits) == isEq)
    ensures var d := term.dest.local;
            AnswerStep(body, term, succ, x, k, e, e[d := M.Val(t, None)], e[d := M.Val(t, None)][x := M.Val(k, None)])
  {
    var d := term.dest.local;
    var e' := e[d := M.Val(t, None)];
    assert M.Typed(body, e') && M.CallResult(body, term, e, e'[d]);
    assert M.Typed(body, e'[x := M.Val(k, None)]);
  }

  /** An environment in which resetting `x` changes whether `x` and `other` are equal. */
  lemma ChangesEquality(body: Body, x: Local, other: Local, k: nat) returns (e: M.Env)
    requires Resets(body, x, k) && M.ScalarLocal(body, other) && x != other
    ensures M.Typed(body, e) && |e| == |body.tys| && (e[x].bits == e[other].bits) != (k == e[other].bits)
  {
    AllOneTyped(body);
    e := AllOne(body);
    if k == 1 { e := e[x := M.Val(if body.tys[x].NonZero? then 2 else 0, None)]; }
  }

  ghost predicate PairStaysRight(body: Body, term: Terminator, isEq: bool, a: Local, b: Local, succ: Block, x: Local, k: nat)
    requires term.Call?
  {
    forall e, e', e'' :: AnswerStep(body, term, succ, x, k, e, e', e'') ==>
      term.dest.local < |e''| && a < |e''| && b < |e''| && PairRight(e'', isEq, term.dest.local, a, b)
  }

  /**
  Every callee whose path ends in `::eq` or `::ne` is taken to compare its two arguments, and the pair recorded for its
  destination outlives assignments of the arguments. After the call and an assignment of another local it is still
  recorded, and right on every run if and only if the callee returns that comparison and no compared local was assigned.
  */
  lemma ComparingCallExact(body: Body, s: Ranges, refs: map<Local, Local>, term: Terminator, isEq: bool, a: Local, b: Local, succ: Block, x: Local, k: nat)
    requires Comparing(body, refs, term, isEq, a, b) && succ in Successors(term) && Resets(body, x, k) && x != term.dest.local
    ensures var s' := R.ApplyStatement(body, R.ApplyTerminator(body, s, refs, term), Reset(x, k));
            (isEq, term.dest.local) in s'.pairIf && s'.pairIf[(isEq, term.dest.local)] == (a, b)
    ensures PairStaysRight(body, term, isEq, a, b, succ, x, k) <==> term.callee.value.honest && (a == b || (x != a && x != b))
  {
    PairRecorded(body, s, refs, term, isEq, a, b, x, k);
    if !term.callee.value.honest {
      DishonestFails(body, refs, term, isEq, a, b, succ, x, k);
    } else if a != b && (x == a || x == b) {
      RewrittenFails(body, refs, term, isEq, a, b, succ, x, k);
    } else {
      HonestHolds(body, refs, term, isEq, a, b, succ, x, k);
    }
  }

  lemma HonestHolds(body: Body, refs: map<Local, Local>, term: Terminator, isEq: bool, a: Local, b: Local, succ: Block, x: Local, k: nat)
    requires Comparing(body, refs, term, isEq, a, b) && Resets(body, x, k) && x != term.dest.local
    requires term.callee.value.honest && (a == b || (x != a && x != b))
    ensures PairStaysRight(body, term, isEq, a, b, succ, x, k)
  {
    var d := term.dest.local;
    forall e, e', e'' | AnswerStep(body, term, succ, x, k, e, e', e'')
      ensures d < |e''| && a < |e''| && b < |e''| && PairRight(e'', isEq, d, a, b)
    {
      assert e'[a] == e[a] && e'[b] == e[b] && e''[d] == e'[d];
      assert M.CallResult(body, term, e, e'[d]);
      if a != b { assert e''[a] == e'[a] && e''[b] == e'[b]; }
    }
  }

  lemma PairRecorded(body: Body, s: Ranges, refs: map<Local, Local>, term: Terminator, isEq: bool, a: Local, b: Local, x: Local, k: nat)
    requires Comparing(body, refs, term, isEq, a, b) && x != term.dest.local
    ensures var s' := R.ApplyStatement(body, R.ApplyTerminator(body, s, refs, term), Reset(x, k));
            (isEq, term.dest.local) in s'.pairIf && s'.pairIf[(isEq, term.dest.local)] == (a, b)
  {
    assert R.CallPromise(refs - {term.dest.local}, term.callee.value, term.args).pair == Some((isEq, a, b));
  }

  lemma DishonestFails(body: Body, refs: map<Local, Local>, term: Terminator, isEq: bool, a: Local, b: Local, succ: Block, x: Local, k: nat)
    requires Comparing(body, refs, term, isEq, a, b) && succ in Successors(term) && Resets(body, x, k) && x != term.dest.local
    requires !term.callee.value.honest
    ensures !PairStaysRight(body, term, isEq, a, b, succ, x, k)
  {
    var d, e := term.dest.local, AllOne(body);
    AllOneTyped(body);
    var after := e[x := M.Val(k, None)];
    var t := if (after[a].bits == after[b].bits) == isEq then 0 else 1;
    MayAnswer(body, refs, term, isEq, a, b, succ, x, k, e, t);
    var e' := e[d := M.Val(t, None)];
    assert !PairRight(e'[x := M.Val(k, None)], isEq, d, a, b);
  }

  lemma RewrittenFails(body: Body, refs: map<Local, Local>, term: Terminator, isEq: bool, a: Local, b: Local, succ: Block, x: Local, k: nat)
    requires Comparing(body, refs, term, isEq, a, b) && succ in Successors(term) && Resets(body, x, k) && x != term.dest.local
    requires a != b && (x == a || x == b)
    ensures !PairStaysRight(body, term, isEq, a, b, succ, x, k)
  {
    var d := term.dest.local;
    var e := ChangesEquality(body, x, if x == a then b else a, k);
    var t := if (e[a].bits == e[b].bits) == isEq then 1 else 0;
    MayAnswer(body, refs, term, isEq, a, b, succ, x, k, e, t);
    var e' := e[d := M.Val(t, None)];
    assert !PairRight(e'[x := M.Val(k, None)], isEq, d, a, b);
  }

  function Bottom(ty: Ty): nat { if ty.NonZero? then 1 else 0 }

  function Top(ty: Ty): nat {
    if UintTypeMax(ty).Some? then UintTypeMax(ty).value else if ty.Checked? then MaxOf(ty.width) else U64_MAX
  }

  /** The least and the greatest value of the type that satisfy the fact, if one does. */
  function Least(f: R.Fact, ty: Ty): nat {
    var low := if f.lower.Some? && f.lower.value > Bottom(ty) then f.lower.value else Bottom(ty);
    if f.nonzero && low == 0 then 1 else low
  }

  function Greatest(f: R.Fact, ty: Ty): nat { if f.upper.Some? && f.upper.value < Top(ty) then f.upper.value else Top(ty) }

  lemma FactRange(f: R.Fact, ty: Ty, v: M.Val)
    requires M.IsScalar(ty)
    ensures M.HasType(v, ty) <==> Bottom(ty) <= v.bits <= Top(ty)
    ensures M.HasType(v, ty) && RS.FactHolds(f, v) <==> Least(f, ty) <= v.bits <= Greatest(f, ty)
  {
  }

  ghost predicate FactSurvives(body: Body, f: R.Fact, term: Terminator, l: Local, succ: Block)
    requires l < |body.tys|
  {
    forall e, e' :: M.StepTerminator(body, term, e, succ, e') && RS.FactHolds(f, e[l]) ==> RS.FactHolds(f, e'[l])
  }

  lemma MayBecome(body: Body, term: Terminator, l: Local, succ: Block, a: M.Val, b: M.Val)
    requires term.Leave? && M.ScalarLocal(body, l) && succ in Successors(term) && l in M.Written(term.outs)
    requires M.HasType(a, body.tys[l]) && M.HasType(b, body.tys[l])
    ensures M.StepTerminator(body, term, AllOne(body)[l := a], succ, AllOne(body)[l := b])
  {
    AllOneTyped(body);
  }

  /**
  Inline assembly and coroutine suspension withdraw no fact. The bounds recorded for a scalar local stay true on every
  run if and only if it is not written, or the bounds admit no value of its type, or all of them.
  */
  lemma OutsideCodeExact(body: Body, s: Ranges, refs: map<Local, Local>, term: Terminator, l: Local, succ: Block)
    requires term.Leave? && M.ScalarLocal(body, l) && succ in Successors(term)
    ensures R.ApplyTerminator(body, s, refs, term) == s
    ensures var f, ty := R.FactOf(s, l), body.tys[l];
            FactSurvives(body, f, term, l, succ) <==>
            || l !in M.Written(term.outs) || Least(f, ty) > Greatest(f, ty)
            || (Least(f, ty) == Bottom(ty) && Greatest(f, ty) == Top(ty))
  {
    var f, ty := R.FactOf(s, l), body.tys[l];
    forall v: M.Val { FactRange(f, ty, v); }
    var lo, hi := Least(f, ty), Greatest(f, ty);
    if l in M.Written(term.outs) && lo <= hi && (lo != Bottom(ty) || hi != Top(ty)) {
      var a, b := M.Val(lo, None), M.Val(if lo != Bottom(ty) then Bottom(ty) else Top(ty), None);
      MayBecome(body, term, l, succ, a, b);
      assert AllOne(body)[l := a][l] == a && AllOne(body)[l := b][l] == b;
    }
  }

  // ----- sizes -----

  /** What the state allows `l` to be: an unflagged size wrapped nowhere. */
  predicate Possible(s: Ranges, l: Local, v: M.Val) {
    RS.FactHolds(R.FactOf(s, l), v) && v.bits <= U64_MAX && (l !in s.mulOverflow ==> RS.Exact(v))
  }

  ghost predicate SumsExact(s: Ranges, a: Local, b: Local) {
    forall x: M.Val, y: M.Val, v: M.Val ::
      Possible(s, a, x) && Possible(s, b, y) && (a == b ==> x == y) && M.BinaryResult(Add, Uint(W64), x, y, v) ==> RS.Exact(v)
  }

  function Plain(l: Local): Operand { Copy(Place(l, [])) }

  /**
  An unflagged 64-bit sum is the exact mathematical value of its whole tree, for all operands the state allows, if and
  only if neither operand is flagged.
  */
  lemma FlaggedSumExact(s: Ranges, a: Local, b: Local, x: M.Val, y: M.Val)
    requires !R.BinaryFact(s, Add, Plain(a), Plain(b), Uint(W64)).overflow
    requires Possible(s, a, x) && Possible(s, b, y) && (a == b ==> x == y)
    ensures SumsExact(s, a, b) <==> a !in s.mulOverflow && b !in s.mulOverflow
  {
    if a in s.mulOverflow || b in s.mulOverflow {
      var wrapped := M.Val(x.bits, Some(x.bits + 0x1_0000_0000_0000_0000));
      var wrapped' := M.Val(y.bits, Some(y.bits + 0x1_0000_0000_0000_0000));
      var x', y' := if a in s.mulOverflow then wrapped else M.Val(x.bits, None), if b in s.mulOverflow then wrapped' else M.Val(y.bits, None);
      var v := M.Val(M.Wrap(Uint(W64), x'.bits + y'.bits), Some(M.Math(x') + M.Math(y')));
      assert Possible(s, a, x') && Possible(s, b, y') && M.BinaryResult(Add, Uint(W64), x', y', v);
      assert !RS.Exact(v);
    } else {
      forall x': M.Val, y': M.Val, v: M.Val | Possible(s, a, x') && Possible(s, b, y') && M.BinaryResult(Add, Uint(W64), x', y', v)
        ensures RS.Exact(v)
      {
        RS.UnflaggedExact(s, Add, Plain(a), Plain(b), Uint(W64), x', y', v);
      }
    }
  }

  ghost predicate ProductsExact(s: Ranges, a: Local, b: Local) {
    forall x: M.Val, y: M.Val, v: M.Val ::
      Possible(s, a, x) && Possible(s, b, y) && (a == b ==> x == y) && M.BinaryResult(Mul, Uint(W64), x, y, v) ==> RS.Exact(v)
  }

  /** A value that wrapped by 2^64 on its way. */
  function Wrapped(x: M.Val): M.Val { M.Val(x.bits, Some(x.bits + 0x1_0000_0000_0000_0000)) }

  lemma WrapShows(x: M.Val, y: M.Val) returns (v: M.Val)
    requires M.Math(x) >= 0x1_0000_0000_0000_0000 && M.Math(y) >= 1
    ensures M.BinaryResult(Mul, Uint(W64), x, y, v) && M.BinaryResult(Mul, Uint(W64), y, x, v) && !RS.Exact(v)
  {
    v := M.Val(M.Wrap(Uint(W64), x.bits * y.bits), Some(M.Math(x) * M.Math(y)));
    assert x.bits * y.bits == y.bits * x.bits && M.Math(x) * M.Math(y) == M.Math(y) * M.Math(x);
    AtLeast(M.Math(x), M.Math(y));
    assert v.bits < 0x1_0000_0000_0000_0000;
  }

  lemma AtLeast(x: nat, y: nat)
    requires y >= 1
    ensures x * y >= x
  {
  }

  /** With a flagged factor, and another that can be nonzero or is flagged too, some product hides a wrap. */
  lemma ProductHides(s: Ranges, a: Local, b: Local, x: M.Val, y: M.Val)
    requires Possible(s, a, x) && Possible(s, b, y) && a in s.mulOverflow && M.Math(y) >= 1 && (a == b ==> y == Wrapped(x))
    ensures !ProductsExact(s, a, b) && !ProductsExact(s, b, a)
  {
    assert Possible(s, a, Wrapped(x));
    var v := WrapShows(Wrapped(x), y);
  }

  /** The largest value the facts of `l` allow. */
  lemma LargestPossible(s: Ranges, l: Local, x: M.Val)
    requires Possible(s, l, x) && l in s.upper
    ensures Possible(s, l, M.Val(s.upper[l], None))
  {
  }

  /**
  An unflagged 64-bit product is exact, for all operands the state allows, if and only if neither operand is flagged, or
  one is unflagged and bounded by 0.
  */
  lemma FlaggedProductExact(s: Ranges, a: Local, b: Local, x: M.Val, y: M.Val)
    requires !R.BinaryFact(s, Mul, Plain(a), Plain(b), Uint(W64)).overflow
    requires Possible(s, a, x) && Possible(s, b, y) && (a == b ==> x == y)
    ensures ProductsExact(s, a, b) <==> RS.CleanOperands(s, {}, Mul, Plain(a), Plain(b))
  {
    if RS.CleanOperands(s, {}, Mul, Plain(a), Plain(b)) {
      forall x': M.Val, y': M.Val, v: M.Val | Possible(s, a, x') && Possible(s, b, y') && M.BinaryResult(Mul, Uint(W64), x', y', v)
        ensures RS.Exact(v)
      {
        CleanProduct(s, a, b, x', y', v);
      }
    } else if a in s.mulOverflow {
      if b in s.mulOverflow {
        ProductHides(s, a, b, x, Wrapped(y));
      } else {
        LargestPossible(s, b, y);
        ProductHides(s, a, b, x, M.Val(s.upper[b], None));
      }
    } else {
      LargestPossible(s, a, x);
      ProductHides(s, b, a, y, M.Val(s.upper[a], None));
    }
  }

  lemma CleanProduct(s: Ranges, a: Local, b: Local, x: M.Val, y: M.Val, v: M.Val)
    requires !R.BinaryFact(s, Mul, Plain(a), Plain(b), Uint(W64)).overflow && RS.CleanOperands(s, {}, Mul, Plain(a), Plain(b))
    requires Possible(s, a, x) && Possible(s, b, y) && M.BinaryResult(Mul, Uint(W64), x, y, v)
    ensures RS.Exact(v)
  {
    if RS.CleanZero(s, {}, Plain(a)) || RS.CleanZero(s, {}, Plain(b)) {
      RS.ZeroFactor(Mul, Uint(W64), x, y, v);
    } else {
      RS.UnflaggedExact(s, Mul, Plain(a), Plain(b), Uint(W64), x, y, v);
    }
  }

  /**
  A test re-bounds a flagged product without clearing the flag, and a sum with it is then unflagged: with
  `t = n * m; if t < k { t + c }` and n = m = 2^32, the machine has c where the mathematical result is 2^64 + c.
  */
  lemma ReboundedProductHidesWrap(s: Ranges, d: Local, t: Local, k: U64, c: U64)
    requires (Lt, d) in s.constIf && s.constIf[(Lt, d)] == (t, k) && t in s.mulOverflow && 0 < k && k - 1 + c <= ISIZE_MAX
    ensures var s' := R.TightenBy(s, Lt, d, true);
            t in s'.mulOverflow && !R.BinaryFact(s', Add, Plain(t), Const(c), Uint(W64)).overflow
    ensures var n := M.Val(0x1_0000_0000, None);
            exists p, v :: M.BinaryResult(Mul, Uint(W64), n, n, p) && p.bits < k &&
                           M.BinaryResult(Add, Uint(W64), p, M.Val(c, None), v) && v.bits == c && !RS.Exact(v)
  {
    var n := M.Val(0x1_0000_0000, None);
    var p := M.Val(0, Some(0x1_0000_0000_0000_0000));
    var v := M.Val(c, Some(0x1_0000_0000_0000_0000 + c));
    assert M.BinaryResult(Mul, Uint(W64), n, n, p);
    assert M.BinaryResult(Add, Uint(W64), p, M.Val(c, None), v);
  }

  // ----- capacities -----

  /** A definition of `d` records it as a handle to `v` if and only if it is a borrow of `v` or of what `v` points to. */
  lemma HandleRecordedExact(s: Capacities, d: Local, v: Local, rv: Rvalue)
    requires v != d
    ensures C.DerefBase(C.ApplyStatement(s, Assign(Place(d, []), rv)), d) == v <==>
            rv.BorrowOf? && CM.Simple(rv.place) && rv.place.local == v
  {
  }

  /** The call `f(l)` never leaves a proof of `v` behind that is false, if `l` refers to `v`. */
  ghost predicate CallSafe(body: Body, s: Capacities, kind: CapKind, v: Local, l: Local, d: Local) {
    forall m: CM.Mem, m': CM.Mem ::
      CallOn(body, l, d, m, m') && m.target(l) == v && CS.Claims(kind, m.size(Length, v), m.size(Capacity, v)) &&
      (kind, v) in C.ApplyTerminator(body, s, CallOf(Role.Plain(Anything), [Plain(l)], d)).capProof ==>
        CS.Claims(kind, m'.size(Length, v), m'.size(Capacity, v))
  }

  ghost predicate CallOn(body: Body, l: Local, d: Local, m: CM.Mem, m': CM.Mem) {
    CM.StepCall(body, CallOf(Role.Plain(Anything), [Plain(l)], d), m, 0, m')
  }

  /** A machine in which `l` refers to `v`, and every collection has these sizes; `v` has aged by `age` and has its own. */
  ghost function Sized(l: Local, v: Local, d: Local, len: nat, cap: nat, age: nat, len': nat, cap': nat): CM.Mem {
    CM.Mem((k: Measure, c: Local) => if c == v then (if k.Length? then len' else cap') else if k.Length? then len else cap,
           (c: Local) => if c == v || c == d then age else 0,
           (c: Local) => if c == l then v else c,
           (c: Local) => {},
           {},
           (c: Local) => CM.Value.Plain(0))
  }

  lemma CallGrows(body: Body, l: Local, v: Local, d: Local, len: nat, cap: nat, len': nat, cap': nat)
    requires CM.Grants(body, l) && d != l && d != v
    ensures CallOn(body, l, d, Sized(l, v, d, len, cap, 0, len, cap), Sized(l, v, d, len, cap, 1, len', cap'))
  {
    var m := Sized(l, v, d, len, cap, 0, len, cap);
    assert CM.Content(body, m, [Plain(l)][0]) == {v};
    assert CM.Reached(body, m, [Plain(l)]) == {v};
  }

  /**
  A proof about `v` survives a call that is given a mutable handle to `v`, and can then be false, unless the handle is `v`
  itself or recorded as a borrow of it: `p = &raw mut v; fill(p)` keeps `has_spare(v)`.
  */
  lemma UnrecordedHandleExact(body: Body, s: Capacities, kind: CapKind, v: Local, l: Local, d: Local)
    requires C.IsMutableHandle(TyOf(body, l)) && d != l && d != v && (kind, v) in s.capProof
    ensures CallSafe(body, s, kind, v, l, d) <==> C.DerefBase(s, l) == v
  {
    var term := CallOf(Role.Plain(Anything), [Plain(l)], d);
    CS.CallKeepsProofs(body, s, term);
    assert C.Mutated(body, s, [Plain(l)]) == {C.DerefBase(s, l)} by { assert OperandLocal([Plain(l)][0]) == Some(l); }
    if C.DerefBase(s, l) != v {
      var len := if kind.Spare? then 0 else 1;
      CallGrows(body, l, v, d, len, 1, 1 - len, 1);
      var m, m' := Sized(l, v, d, len, 1, 0, len, 1), Sized(l, v, d, len, 1, 1, 1 - len, 1);
      assert CallOn(body, l, d, m, m') && m.target(l) == v && CS.Claims(kind, m.size(Length, v), m.size(Capacity, v));
      assert !CS.Claims(kind, m'.size(Length, v), m'.size(Capacity, v));
    }
  }

  /** A store into a field of what `t` names leaves the proof of `v` true. */
  ghost predicate StoreSafe(body: Body, kind: CapKind, v: Local, t: Local, dst: Place, rv: Rvalue) {
    forall m: CM.Mem, m': CM.Mem ::
      CM.StepStatement(body, Assign(dst, rv), m, m') && m.target(dst.local) == t && v !in m.carries(dst.local) && v !in m.stored &&
      CS.Claims(kind, m.size(Length, v), m.size(Capacity, v)) ==>
        CS.Claims(kind, m'.size(Length, v), m'.size(Capacity, v))
  }

  /**
  A store into a projection drops no proof. The proof of a collection stays right if and only if the store does not go
  into that collection: `(*v).len = n` keeps `has_spare(v)`.
  */
  lemma FieldWriteExact(body: Body, s: Capacities, kind: CapKind, v: Local, t: Local, dst: Place, rv: Rvalue)
    requires dst.proj != []
    ensures C.ApplyStatement(s, Assign(dst, rv)) == s
    ensures StoreSafe(body, kind, v, t, dst, rv) <==> t != v
  {
    if t == v {
      var len, l := if kind.Spare? then 0 else 1, dst.local;
      var m := Sized(l, v, v, len, 1, 0, len, 1);
      var m' := Sized(l, v, v, len, 1, 1, 1 - len, 1);
      assert CM.StoreHits(m, dst) == {v};
      assert CM.StepStatement(body, Assign(dst, rv), m, m');
      assert CS.Claims(kind, m.size(Length, v), m.size(Capacity, v)) && !CS.Claims(kind, m'.size(Length, v), m'.size(Capacity, v));
    }
  }

  // ----- ownership -----

  /**
  Running an allocation site again gives its object back to the new allocation. A pointer reported as freed stops being
  reported if and only if every freed object it points to is the one of that site.
  */
  lemma SiteReuseExact(s: Ownership, p: Local, d: Local, bb: Block)
    requires p != d && O.FreedKindOf(s, p) != O.NotFreed
    ensures O.FreedKindOf(O.AllocateAt(s, d, bb), p) == O.NotFreed <==>
            forall id <- Get(s.pointsTo, p) :: O.IsFreed(s.heap, id) ==> id == O.Site(bb)
  {
    var s' := O.AllocateAt(s, d, bb);
    assert Get(s'.pointsTo, p) == Get(s.pointsTo, p);
    forall id <- Get(s.pointsTo, p) ensures O.IsFreed(s'.heap, id) <==> O.IsFreed(s.heap, id) && id != O.Site(bb) { }
  }

  predicate HasLive(s: Ownership, p: Local) { exists id <- Get(s.pointsTo, p) :: id in s.heap && s.heap[id] == RawOwned }

  /**
  Copying a pointer into a projection untracks the original, so that no later free shows on it, if and only if the
  store is not one into the return place.
  */
  lemma FieldStoreForgetsCopy(s: Ownership, dst: Place, p: Local)
    requires dst.proj != [] && HasLive(s, p)
    ensures var s' := O.Store(s, dst, Use(Copy(Place(p, []))));
            (forall objs: set<ObjectId> :: O.FreedKindOf(s'.(heap := O.Reconstitute(s'.heap, objs)), p) == O.NotFreed) <==>
            !(dst.local == 0 && Deref !in dst.proj)
  {
    var s' := O.Store(s, dst, Use(Copy(Place(p, []))));
    if dst.local == 0 && Deref !in dst.proj {
      var id :| id in Get(s.pointsTo, p) && id in s.heap && s.heap[id] == RawOwned;
      var heap := O.Reconstitute(s'.heap, {id});
      assert id in Get(s'.pointsTo, p) && O.IsFreed(heap, id);
      assert O.FreedKindOf(s'.(heap := heap), p) != O.NotFreed;
    } else {
      assert p !in s'.pointsTo;
    }
  }

  /** A call of this role on these arguments, with a result nobody looks at the type of. */
  function CallOf(role: Role, args: seq<Operand>, dest: Local): Terminator {
    Call(Some(Callee(0, role, false, NoView, false, false, false, false, false, None, false, false)), args, Place(dest, []), None, None)
  }

  /** `q.write(p); from_raw(p); x = q.read()`, in blocks without other statements. */
  function WriteFreeRead(body: Body, s: Ownership, bb: Block, q: Local, p: Local, u: Local, f: Local, x: Local): Ownership {
    var s1 := O.ApplyTerminator(body, map[], s, bb, CallOf(Role.Plain(WritesFirst), [Plain(q), Plain(p)], u));
    var s2 := O.ApplyTerminator(body, map[], s1, bb, CallOf(FromRaw, [Plain(p)], f));
    O.ApplyTerminator(body, map[], s2, bb, CallOf(PtrRead, [Plain(q)], x))
  }

  lemma BeforeStep(body: Body, s: Ownership, role: Role, args: seq<Operand>, d: Local)
    ensures var s' := O.BeforeCall(body, map[], s, CallOf(role, args, d).callee, args, d);
            s'.heap == s.heap && s'.pointsTo == s.pointsTo
  {
  }

  lemma FromRawStep(s: Ownership, p: Local, f: Local)
    ensures var s' := O.FromRawCall(s, [Plain(p)], f);
            s'.heap == O.Reconstitute(s.heap, Get(s.pointsTo, p)) && s'.pointsTo == s.pointsTo - {f}
  {
    assert FirstArgLocal([Plain(p)]) == Some(p);
  }

  lemma WriteStep(body: Body, s: Ownership, bb: Block, q: Local, p: Local, u: Local)
    ensures var s' := O.ApplyTerminator(body, map[], s, bb, CallOf(Role.Plain(WritesFirst), [Plain(q), Plain(p)], u));
            s'.heap == s.heap && s'.pointsTo == s.pointsTo
  {
    BeforeStep(body, s, Role.Plain(WritesFirst), [Plain(q), Plain(p)], u);
  }

  lemma FreeStep(body: Body, s: Ownership, bb: Block, p: Local, f: Local)
    ensures var s' := O.ApplyTerminator(body, map[], s, bb, CallOf(FromRaw, [Plain(p)], f));
            s'.heap == O.Reconstitute(s.heap, Get(s.pointsTo, p)) && s'.pointsTo == s.pointsTo - {f}
  {
    BeforeStep(body, s, FromRaw, [Plain(p)], f);
    FromRawStep(O.BeforeCall(body, map[], s, CallOf(FromRaw, [Plain(p)], f).callee, [Plain(p)], f), p, f);
  }

  lemma ReadStep(body: Body, s: Ownership, bb: Block, q: Local, x: Local)
    ensures var s' := O.ApplyTerminator(body, map[], s, bb, CallOf(PtrRead, [Plain(q)], x));
            s'.heap == s.heap && Get(s'.pointsTo, x) == Get(s.pointsTo, q)
  {
    BeforeStep(body, s, PtrRead, [Plain(q)], x);
  }

  /**
  A pointer written to memory, freed and read back. What is read is taken to point where the pointer it was read
  through points: the free shows on it if and only if that one points to an object the freed pointer points to and that
  was owned, or to one freed before.
  */
  lemma WrittenPointerExact(body: Body, s: Ownership, bb: Block, q: Local, p: Local, u: Local, f: Local, x: Local)
    requires f != q
    ensures O.FreedKindOf(WriteFreeRead(body, s, bb, q, p, u, f, x), x) != O.NotFreed <==>
            exists id <- Get(s.pointsTo, q) ::
              O.IsFreed(s.heap, id) || (id in Get(s.pointsTo, p) && id in s.heap && s.heap[id] == RawOwned)
  {
    var s1 := O.ApplyTerminator(body, map[], s, bb, CallOf(Role.Plain(WritesFirst), [Plain(q), Plain(p)], u));
    var s2 := O.ApplyTerminator(body, map[], s1, bb, CallOf(FromRaw, [Plain(p)], f));
    var s3 := WriteFreeRead(body, s, bb, q, p, u, f, x);
    WriteStep(body, s, bb, q, p, u);
    FreeStep(body, s1, bb, p, f);
    ReadStep(body, s2, bb, q, x);
    assert Get(s2.pointsTo, q) == Get(s.pointsTo, q);
    forall id: ObjectId
      ensures O.IsFreed(s3.heap, id) <==> O.IsFreed(s.heap, id) || (id in Get(s.pointsTo, p) && id in s.heap && s.heap[id] == RawOwned)
    {
    }
  }

  ghost predicate Writes(q: Local, p: Local, u: Local, bb: Block, m: OS.Mem, m': OS.Mem) {
    OS.StepCall({}, CallOf(Role.Plain(WritesFirst), [Plain(q), Plain(p)], u).callee, [Plain(q), Plain(p)], Place(u, []), bb, m, m')
  }

  ghost predicate Frees(p: Local, f: Local, bb: Block, m: OS.Mem, m': OS.Mem) {
    OS.StepCall({}, CallOf(FromRaw, [Plain(p)], f).callee, [Plain(p)], Place(f, []), bb, m, m')
  }

  ghost predicate Reads(q: Local, x: Local, bb: Block, m: OS.Mem, m': OS.Mem) {
    OS.StepCall({}, CallOf(PtrRead, [Plain(q)], x).callee, [Plain(q)], Place(x, []), bb, m, m')
  }

  lemma MayWrite(m: OS.Mem, o: ObjectId, q: Local, p: Local, u: Local, bb: Block)
    requires o in Get(m.holds, p)
    ensures Writes(q, p, u, bb, m, m.(holds := m.holds - {u}, owns := m.owns - {u}, stored := m.stored + {o}))
  {
    var rest := [Plain(q), Plain(p)][1..];
    assert rest == [Plain(p)] && o in OS.OperandHolds(m, rest[0]);
    assert o in OS.AllHold(m, rest);
  }

  lemma MayBeFreed(m: OS.Mem, o: ObjectId, p: Local, f: Local, bb: Block)
    requires o in Get(m.holds, p)
    ensures Frees(p, f, bb, m, m.(holds := m.holds - {f}, owns := m.owns - {f}, freed := m.freed + {o}))
  {
    assert o in OS.FirstHolds(m, [Plain(p)]);
  }

  lemma MayRead(m: OS.Mem, o: ObjectId, q: Local, x: Local, bb: Block)
    requires o in m.stored && o in m.made
    ensures Reads(q, x, bb, m, m.(holds := m.holds[x := {o}], owns := m.owns - {x}))
  {
  }

  /** And on the machine, what is read back may be that freed pointer, whatever `q` points to. */
  lemma WrittenPointerIsFreed(m: OS.Mem, o: ObjectId, q: Local, p: Local, u: Local, f: Local, x: Local, bb: Block)
    requires o in Get(m.holds, p) && o in m.made && u != p
    ensures exists m1: OS.Mem, m2: OS.Mem, m3: OS.Mem ::
              && Writes(q, p, u, bb, m, m1) && Frees(p, f, bb, m1, m2) && Reads(q, x, bb, m2, m3)
              && o in Get(m3.holds, x) && o in m3.freed
  {
    var m1 := m.(holds := m.holds - {u}, owns := m.owns - {u}, stored := m.stored + {o});
    var m2 := m1.(holds := m1.holds - {f}, owns := m1.owns - {f}, freed := m.freed + {o});
    var m3 := m2.(holds := m2.holds[x := {o}], owns := m2.owns - {x});
    MayWrite(m, o, q, p, u, bb);
    MayBeFreed(m1, o, p, f, bb);
    MayRead(m2, o, q, x, bb);
  }

  /** `r = &raw *y`. */
  function Reborrow(y: Local, r: Local): Statement { Assign(Place(r, []), AddrOf(Place(y, [Deref]))) }

  /** `b = from_raw(p); r = &raw *y; drop(b)`. */
  function FreeReborrowDrop(body: Body, s: Ownership, bb: Block, p: Local, b: Local, y: Local, r: Local): Ownership {
    var s1 := O.ApplyTerminator(body, map[], s, bb, CallOf(FromRaw, [Plain(p)], b));
    var s2 := O.ApplyStatement(body, s1, Reborrow(y, r));
    O.ApplyTerminator(body, map[], s2, bb + 1, Drop(Place(b, []), bb + 2, None))
  }

  lemma ReborrowStep(body: Body, s: Ownership, y: Local, r: Local)
    ensures var s' := O.ApplyStatement(body, s, Reborrow(y, r)); s'.heap == s.heap && Get(s'.pointsTo, r) == Get(s.pointsTo, y)
  {
    var s1 := O.InvalidateOwners(s, {r});
    var s2 := O.ClearFields(O.SetAlias(s1, r, O.RvalueOwners(body, s1, r, AddrOf(Place(y, [Deref])))), r);
    assert O.Track(s2, r, AddrOf(Place(y, [Deref]))) == O.DropProto(O.SetPts(s2, r, Get(s2.pointsTo, y)), r);
  }

  /**
  A pointer taken through `y` after `from_raw`. The free shows on it if and only if `y` is not the owner returned, which
  is never tracked, and points to an object the freed pointer points to and that was owned, or to one freed before.
  */
  lemma ReborrowedOwnerExact(body: Body, s: Ownership, bb: Block, p: Local, b: Local, y: Local, r: Local)
    requires r != b
    ensures O.FreedKindOf(FreeReborrowDrop(body, s, bb, p, b, y, r), r) != O.NotFreed <==>
            y != b && exists id <- Get(s.pointsTo, y) ::
              O.IsFreed(s.heap, id) || (id in Get(s.pointsTo, p) && id in s.heap && s.heap[id] == RawOwned)
  {
    var s1 := O.ApplyTerminator(body, map[], s, bb, CallOf(FromRaw, [Plain(p)], b));
    var s2 := O.ApplyStatement(body, s1, Reborrow(y, r));
    var s3 := FreeReborrowDrop(body, s, bb, p, b, y, r);
    FreeStep(body, s, bb, p, b);
    ReborrowStep(body, s1, y, r);
    assert s3.heap == s1.heap && Get(s3.pointsTo, r) == Get(s1.pointsTo, y) == if y == b then {} else Get(s.pointsTo, y);
    forall id: ObjectId
      ensures O.IsFreed(s3.heap, id) <==> O.IsFreed(s.heap, id) || (id in Get(s.pointsTo, p) && id in s.heap && s.heap[id] == RawOwned)
    {
    }
  }

  ghost predicate Owns(p: Local, b: Local, o: ObjectId, bb: Block, m: OS.Mem, m': OS.Mem) {
    Frees(p, b, bb, m, m') && o in Get(m'.owns, b) && o in m'.freed
  }

  /** And on the machine a pointer taken out of the owner is a freed one, before and after the owner is dropped. */
  lemma ReborrowedOwnerIsFreed(m: OS.Mem, o: ObjectId, p: Local, b: Local, r: Local, bb: Block)
    requires o in Get(m.holds, p) && r != b
    ensures exists m1: OS.Mem, m2: OS.Mem, m3: OS.Mem ::
              Owns(p, b, o, bb, m, m1) && Reborrows(b, r, m1, m2) && Drops(b, bb, m2, m3) && o in Get(m3.holds, r) && o in m3.freed
  {
    var m1 := m.(holds := m.holds - {b}, owns := m.owns[b := {o}], freed := m.freed + {o});
    var m2 := m1.(holds := m1.holds[r := {o}], owns := m1.owns - {r});
    var m3 := m2.(holds := m2.holds - {b}, owns := m2.owns - {b});
    MayBeOwned(m, o, p, b, bb);
    MayReborrow(m1, o, b, r);
    MayDrop(m2, b, bb);
  }

  ghost predicate Reborrows(b: Local, r: Local, m: OS.Mem, m': OS.Mem) { OS.StepStatement({}, Reborrow(b, r), m, m') }

  ghost predicate Drops(b: Local, bb: Block, m: OS.Mem, m': OS.Mem) {
    OS.StepTerminator({}, bb + 1, Drop(Place(b, []), bb + 2, None), m, bb + 2, m')
  }

  lemma MayReborrow(m: OS.Mem, o: ObjectId, b: Local, r: Local)
    requires o in Get(m.owns, b)
    ensures Reborrows(b, r, m, m.(holds := m.holds[r := {o}], owns := m.owns - {r}))
  {
    assert o in OS.TakenOut(m, Reborrow(b, r).rv);
  }

  lemma MayDrop(m: OS.Mem, b: Local, bb: Block)
    ensures Drops(b, bb, m, m.(holds := m.holds - {b}, owns := m.owns - {b}))
  {
  }

  lemma MayBeOwned(m: OS.Mem, o: ObjectId, p: Local, b: Local, bb: Block)
    requires o in Get(m.holds, p)
    ensures Owns(p, b, o, bb, m, m.(holds := m.holds - {b}, owns := m.owns[b := {o}], freed := m.freed + {o}))
  {
    assert o in OS.FirstHolds(m, [Plain(p)]);
  }

  /** Freeing a local that may point to two objects frees both: the transfer is not monotone. */
  lemma FreeingIsNotMonotone(p: Local, a: ObjectId, b: ObjectId, d: Local)
    requires a != b && p != d
    ensures exists s, t :: OwnLeq(s, t) &&
              !OwnLeq(O.FromRawCall(s, [Copy(Place(p, []))], d), O.FromRawCall(t, [Copy(Place(p, []))], d))
  {
    var heap := map[a := RawOwned, b := RawOwned];
    var s := EmptyState.own.(heap := heap, pointsTo := map[p := {a}]);
    var t := EmptyState.own.(heap := heap, pointsTo := map[p := {a, b}]);
    var s', t' := O.FromRawCall(s, [Copy(Place(p, []))], d), O.FromRawCall(t, [Copy(Place(p, []))], d);
    assert OwnLeq(s, t);
    assert s'.heap[b] == RawOwned && t'.heap[b] == Reconstituted;
    assert !OwnLeq(s', t');
  }

  /** An allocation made in block `k + 1` and returned is taken for parameter `k` being handed back. */
  lemma SiteReadAsParameter(body: Body, s: Ownership, k: nat)
    requires k < body.argCount && k + 1 < O.SUMMARY_BASE && Get(s.pointsTo, 0) == {O.Site(k + 1)}
    ensures S.FromReturn(body, s).ptrOf == Some(k)
  {
  }

  /** `k` is the first parameter whose object is among those returned. */
  predicate FirstParam(body: Body, objs: set<ObjectId>, k: nat) {
    k < body.argCount && S.ParamId(k) in objs && forall i: nat :: i < k ==> S.ParamId(i) !in objs
  }

  /** `k + 1` is the smallest returned id that could be taken for a parameter local. */
  predicate FirstLegacy(body: Body, objs: set<ObjectId>, k: nat) {
    k < body.argCount && k + 1 < 0x1_0000_0000 && k + 1 in objs && forall id <- objs :: !(1 <= id <= k)
  }

  ghost predicate ReturnRight(body: Body, objs: set<ObjectId>, r: Option<nat>) {
    match r
    case Some(k) => FirstParam(body, objs, k)
    case None => forall i: nat :: i < body.argCount ==> S.ParamId(i) !in objs
  }

  /**
  The pointer recorded is exactly the first parameter object returned if and only if the smallest returned id between
  1 and the number of parameters, if there is one, happens to name that parameter.
  */
  lemma ReturnedPointerExact(body: Body, s: Ownership)
    requires S.FewParams(body)
    ensures ReturnRight(body, Get(s.pointsTo, 0), S.FromReturn(body, s).ptrOf) <==>
            forall k: nat :: FirstLegacy(body, Get(s.pointsTo, 0), k) ==> FirstParam(body, Get(s.pointsTo, 0), k)
  {
    var objs, r := Get(s.pointsTo, 0), S.FromReturn(body, s).ptrOf;
    var legacy := S.FirstFrom(objs, 1, 0, body.argCount);
    assert forall i: nat :: i < body.argCount ==> S.ParamId(i) == O.SUMMARY_BASE + i;
    if legacy.Some? {
      assert r == legacy && FirstLegacy(body, objs, legacy.value);
      forall k: nat | FirstLegacy(body, objs, k) ensures k == legacy.value {
        assert !(1 <= k + 1 < 1 + legacy.value);
      }
    } else {
      assert forall k: nat :: !FirstLegacy(body, objs, k);
      assert r == S.FirstFrom(objs, O.SUMMARY_BASE, 0, body.argCount);
    }
  }
}
