/** The value-range results for the computed flow, and the two checkers that rely on them. */
module RangeVerdicts {
  import opened Mir
  import opened State
  import opened Engine
  import opened Machine
  import opened RangeSound
  import opened RangeFlow
  import R = RangeTransfer
  import C = CapTransfer
  import O = OwnTransfer
  import T = Transfer

  // ----- the computed flow solves the range equations -----

  ghost function RangesOf(es: Entries<BlockState>): (rs: seq<Option<Ranges>>)
    ensures |rs| == |es|
  {
    seq(|es|, b requires 0 <= b < |es| => if es[b].Some? then Some(es[b].value.range) else None)
  }

  /** The borrows known before each terminator. */
  ghost function RefsOf(body: Body, es: Entries<BlockState>): (refs: seq<Refs>)
    requires |es| == |body.blocks|
    ensures |refs| == |es|
  {
    seq(|es|, b requires 0 <= b < |es| =>
      if es[b].Some? then C.Replay(es[b].value.cap, body.blocks[b].stmts).refBase else map[])
  }

  lemma RefsReplay(body: Body, cap: Capacities, stmts: seq<Statement>)
    requires RefsOk(body, cap.refBase) && forall i :: 0 <= i < |stmts| ==> StatementOk(body, stmts[i])
    ensures RefsOk(body, C.Replay(cap, stmts).refBase)
    decreases |stmts|
  {
    if stmts != [] {
      RefsReplay(body, cap, stmts[..|stmts| - 1]);
      RefsStatement(body, C.Replay(cap, stmts[..|stmts| - 1]), stmts[|stmts| - 1]);
    }
  }

  lemma RefsStatement(body: Body, cap: Capacities, stmt: Statement)
    requires RefsOk(body, cap.refBase) && StatementOk(body, stmt)
    ensures RefsOk(body, C.ApplyStatement(cap, stmt).refBase)
  {
    if stmt.Assign? && stmt.dst.proj == [] {
      assert C.ApplyStatement(cap, stmt).refBase ==
        if stmt.rv.BorrowOf? && (stmt.rv.place.proj == [] || stmt.rv.place.proj == [Deref])
        then (cap.refBase - {stmt.dst.local})[stmt.dst.local := stmt.rv.place.local] else cap.refBase - {stmt.dst.local};
    }
  }

  lemma RefsCall(body: Body, cap: Capacities, term: Terminator)
    requires term.Call? && term.callee.Some? && term.dest.proj == []
    ensures var refs, d, recv := cap.refBase - {term.dest.local}, term.dest.local, FirstArgLocal(term.args);
            C.ApplyTerminator(body, cap, term).refBase ==
            if recv.Some? && term.callee.value.view.DerefView? then refs[d := R.BaseIn(refs, recv.value)] else refs
  {
  }

  lemma RefsTerminator(body: Body, ev: Evidence, cap: Capacities, term: Terminator, succ: Block)
    requires RefsOk(body, cap.refBase) && (term.Call? ==> CallOk(body, ev, term))
    ensures RefsOk(body, C.RefineEdge(C.ApplyTerminator(body, cap, term), term, succ).refBase)
  {
    assert C.RefineEdge(C.ApplyTerminator(body, cap, term), term, succ).refBase == C.ApplyTerminator(body, cap, term).refBase;
    if term.Call? && term.callee.Some? && term.dest.proj == [] { RefsCall(body, cap, term); }
  }

  lemma RefsAlong(body: Body, ev: Evidence, b: Block, succ: Block, cap: Capacities)
    requires FragmentWith(body, ev) && b < |body.blocks| && RefsOk(body, cap.refBase)
    ensures RefsOk(body, C.Replay(cap, body.blocks[b].stmts).refBase) && RefsOk(body, C.Along(body, body.blocks[b], succ, cap).refBase)
  {
    var block := body.blocks[b];
    assert BlockOk(body, ev, ev.live[b], block);
    RefsReplay(body, cap, block.stmts);
    RefsTerminator(body, ev, C.Replay(cap, block.stmts), block.term, succ);
  }

  ghost predicate QuietBoth(body: Body, ev: Evidence, d: Local, range: Ranges, refs: Refs) {
    RefsOk(body, refs) && Quiet(body, ev, range, d)
  }

  ghost function QuietInv(body: Body, ev: Evidence, d: Local): BlockState -> bool {
    (s: BlockState) => QuietBoth(body, ev, d, s.range, s.cap.refBase)
  }

  lemma QuietStep(body: Body, ev: Evidence, d: Local, b: Block, succ: Block, range: Ranges, cap: Capacities)
    requires FragmentWith(body, ev) && NeverCompared(body, d) && b < |body.blocks| && QuietBoth(body, ev, d, range, cap.refBase)
    ensures QuietBoth(body, ev, d, R.Along(body, body.blocks[b], succ, range, C.Replay(cap, body.blocks[b].stmts).refBase),
                      C.Along(body, body.blocks[b], succ, cap).refBase)
  {
    RefsAlong(body, ev, b, succ, cap);
    assert BlockOk(body, ev, ev.live[b], body.blocks[b]);
    QuietAlong(body, ev, b, succ, range, C.Replay(cap, body.blocks[b].stmts).refBase, d);
  }

  lemma QuietJoin(body: Body, ev: Evidence, d: Local, s: BlockState, t: BlockState)
    requires QuietBoth(body, ev, d, s.range, s.cap.refBase) && QuietBoth(body, ev, d, t.range, t.cap.refBase)
    ensures QuietBoth(body, ev, d, Join(s, t).range, Join(s, t).cap.refBase)
  {
    JoinQuiet(body, ev, s.range, t.range, d);
  }

  lemma QuietPreserved(body: Body, ev: Evidence, sums: O.SummaryMap, d: Local)
    requires FragmentWith(body, ev) && NeverCompared(body, d)
    ensures T.Preserved(body, sums, T.FlowInitial(body), QuietInv(body, ev, d))
  {
    var inv := QuietInv(body, ev, d);
    SeedQuiet(body, ev, EmptyState.range, 1, d);
    forall b, succ, s | 0 <= b < |body.blocks| && succ in Successors(body.blocks[b].term) && inv(s)
      ensures inv(T.Along(body, sums, b, succ, s))
    {
      QuietStep(body, ev, d, b, succ, s.range, s.cap);
    }
    forall s, t | inv(s) && inv(t) ensures inv(Join(s, t)) { QuietJoin(body, ev, d, s, t); }
  }

  lemma QuietAt(body: Body, ev: Evidence, sums: O.SummaryMap, es: Entries<BlockState>, b: Block, d: Local)
    requires FragmentWith(body, ev) && NeverCompared(body, d) && es == T.FlowFrom(body, sums, T.FlowInitial(body))
    requires b < |es| && es[b].Some?
    ensures Quiet(body, ev, es[b].value.range, d)
  {
    QuietPreserved(body, ev, sums, d);
    T.FlowInvariant(body, sums, T.FlowInitial(body), QuietInv(body, ev, d));
    assert QuietInv(body, ev, d)(es[b].value);
  }

  lemma RangeEdge(body: Body, sums: O.SummaryMap, es: Entries<BlockState>, b: Block, succ: Block)
    requires WellFormed(body) && es == T.FlowFrom(body, sums, T.FlowInitial(body))
    requires b < |es| && es[b].Some? && succ in Successors(body.blocks[b].term)
    ensures succ < |es| && es[succ].Some?
    ensures RangeLeq(R.Along(body, body.blocks[b], succ, es[b].value.range, C.Replay(es[b].value.cap, body.blocks[b].stmts).refBase),
                     es[succ].value.range)
  {
    T.FlowEdge(body, sums, T.FlowInitial(body), b, succ);
  }

  lemma RangeStart(body: Body, sums: O.SummaryMap, es: Entries<BlockState>)
    requires WellFormed(body) && es == T.FlowFrom(body, sums, T.FlowInitial(body))
    ensures es[0].Some? && RangeLeq(R.SeedParams(body, EmptyState.range, 1), es[0].value.range)
  {
    T.FlowStart(body, sums, T.FlowInitial(body));
  }

  /** The edge claim, read off the entries and off their slices. */
  lemma SliceEdge(body: Body, es: Entries<BlockState>, b: Block, succ: Block)
    requires |es| == |body.blocks| && b < |es| && es[b].Some? && succ < |es| && es[succ].Some?
    requires RangeLeq(R.Along(body, body.blocks[b], succ, es[b].value.range, C.Replay(es[b].value.cap, body.blocks[b].stmts).refBase),
                      es[succ].value.range)
    ensures EdgeHolds(body, RangesOf(es), RefsOf(body, es), b, succ)
  {
  }

  lemma FlowEdgeHolds(body: Body, sums: O.SummaryMap, es: Entries<BlockState>, b: Block, succ: Block)
    requires WellFormed(body) && es == T.FlowFrom(body, sums, T.FlowInitial(body))
    requires b < |es| && es[b].Some? && succ in Successors(body.blocks[b].term)
    ensures EdgeHolds(body, RangesOf(es), RefsOf(body, es), b, succ)
  {
    RangeEdge(body, sums, es, b, succ);
    SliceEdge(body, es, b, succ);
  }

  lemma FlowEdgesHold(body: Body, sums: O.SummaryMap, es: Entries<BlockState>)
    requires WellFormed(body) && es == T.FlowFrom(body, sums, T.FlowInitial(body))
    ensures EdgesHold(body, RangesOf(es), RefsOf(body, es))
  {
    var rs, refs := RangesOf(es), RefsOf(body, es);
    forall b, succ | 0 <= b < |rs| && rs[b].Some? && succ in Successors(body.blocks[b].term)
      ensures EdgeHolds(body, rs, refs, b, succ)
    {
      FlowEdgeHolds(body, sums, es, b, succ);
    }
  }

  lemma FlowQuiet(body: Body, ev: Evidence, sums: O.SummaryMap, es: Entries<BlockState>)
    requires FragmentWith(body, ev) && es == T.FlowFrom(body, sums, T.FlowInitial(body))
    ensures AllQuiet(body, ev, RangesOf(es))
  {
    var rs := RangesOf(es);
    forall b, d: Local | 0 <= b < |rs| && rs[b].Some? && NeverCompared(body, d) ensures Quiet(body, ev, rs[b].value, d) {
      QuietAt(body, ev, sums, es, b, d);
    }
  }

  lemma FlowSolves(body: Body, ev: Evidence, sums: O.SummaryMap, es: Entries<BlockState>)
    requires FragmentWith(body, ev) && es == T.FlowFrom(body, sums, T.FlowInitial(body))
    ensures Solves(body, ev, RangesOf(es), RefsOf(body, es))
  {
    RangeStart(body, sums, es);
    FlowEdgesHold(body, sums, es);
    FlowQuiet(body, ev, sums, es);
  }

  /** `state_at_location` of the computed flow. */
  ghost function FlowAt(body: Body, sums: O.SummaryMap, bb: Block, at: nat): Option<BlockState>
    requires WellFormed(body)
  {
    EntryAt(body, T.FlowFrom(body, sums, T.FlowInitial(body)), bb, at)
  }

  ghost function EntryAt(body: Body, es: Entries<BlockState>, bb: Block, at: nat): Option<BlockState>
    requires |es| == |body.blocks|
  {
    if bb < |es| && es[bb].Some? && at <= |body.blocks[bb].stmts|
    then Some(T.Replay(body, es[bb].value, body.blocks[bb].stmts[..at])) else None
  }

  /** In the computed flow, only the locals `hid` may hide a wrap. */
  ghost predicate HidesOnly(body: Body, sums: O.SummaryMap, hid: set<Local>)
    requires WellFormed(body)
  {
    CleanFlow(body, RangesOf(T.FlowFrom(body, sums, T.FlowInitial(body))), hid)
  }

  lemma PointAt(body: Body, ev: Evidence, es: Entries<BlockState>, c: Config)
    requires |es| == |body.blocks| && PointSound(body, ev, RangesOf(es), c)
    ensures EntryAt(body, es, c.bb, c.at).Some?
    ensures Typed(body, c.env) && Holds(body, c.env, EntryAt(body, es, c.bb, c.at).value.range)
    ensures SizesAt(body, RangesOf(es), c.env, EntryAt(body, es, c.bb, c.at).value.range)
  {
  }

  lemma RangesAtPoint(body: Body, ev: Evidence, sums: O.SummaryMap, es: Entries<BlockState>, run: seq<Config>)
    requires FragmentWith(body, ev) && IsRun(body, run) && es == T.FlowFrom(body, sums, T.FlowInitial(body))
    ensures PointSound(body, ev, RangesOf(es), run[|run| - 1])
  {
    FlowSolves(body, ev, sums, es);
    RunSound(body, ev, RangesOf(es), RefsOf(body, es), run);
  }

  /**
  Value-range soundness: at every program point of every run in the fragment, the machine values satisfy every
  bound, nonzero, equality and disequality fact of the state replayed from the computed fixpoint; and an unflagged
  size is exact outside the locals that may hide a wrap.
  */
  lemma RangesHoldOnEveryRun(body: Body, sums: O.SummaryMap, run: seq<Config>)
    requires InFragment(body) && IsRun(body, run)
    ensures WellFormed(body)
    ensures var c := run[|run| - 1];
            && FlowAt(body, sums, c.bb, c.at).Some?
            && Typed(body, c.env) && Holds(body, c.env, FlowAt(body, sums, c.bb, c.at).value.range)
            && (forall hid: set<Local> :: HidesOnly(body, sums, hid) ==>
                  SizesHold(body, c.env, FlowAt(body, sums, c.bb, c.at).value.range, hid))
  {
    var ev :| FragmentWith(body, ev);
    var es := T.FlowFrom(body, sums, T.FlowInitial(body));
    RangesAtPoint(body, ev, sums, es, run);
    PointAt(body, ev, es, run[|run| - 1]);
  }

  // ----- scalar verdicts -----

  /** A Unicode scalar value: any code point except the surrogates (definition D76 of The Unicode Standard). */
  predicate UnicodeScalar(n: nat) {
    n <= 0xD7FF || 0xE000 <= n <= 0x10FFFF
  }

  /** The suppression queries mean what they say, on every run. */
  lemma ScalarVerdicts(body: Body, sums: O.SummaryMap, run: seq<Config>, l: Local)
    requires InFragment(body) && IsRun(body, run) && WellFormed(body) && ScalarLocal(body, l)
    ensures var c := run[|run| - 1];
            && FlowAt(body, sums, c.bb, c.at).Some? && l < |c.env|
            && var s, n := FlowAt(body, sums, c.bb, c.at).value.range, c.env[l].bits;
               && (R.IsNonzero(s, l) ==> n != 0)
               && (R.IsValidScalar(s, l) ==> UnicodeScalar(n))
               && (R.IsAscii(s, l) ==> n <= 127)
  {
    RangesHoldOnEveryRun(body, sums, run);
    var c := run[|run| - 1];
    assert FactHolds(R.FactOf(FlowAt(body, sums, c.bb, c.at).value.range, l), c.env[l]);
  }

  // ----- rounding a layout size up to its alignment -----

  function Pow2(k: nat): nat { if k == 0 then 1 else 2 * Pow2(k - 1) }

  function RoundUp(size: nat, align: nat): nat
    requires align > 0
  {
    (size + align - 1) / align * align
  }

  /** `isize::MAX / 2`. */
  const SAFE_LAYOUT_SIZE: U64 := 0x3FFF_FFFF_FFFF_FFFF

  lemma Pow2Grows(j: nat, k: nat)
    requires j <= k
    ensures 0 < Pow2(j) <= Pow2(k)
  {
    if j < k { Pow2Grows(j, k - 1); } else if j > 0 { Pow2Grows(j - 1, k - 1); }
  }

  lemma Pow62()
    ensures Pow2(62) == 0x4000_0000_0000_0000 && Pow2(63) == 0x8000_0000_0000_0000
  {
    assert Pow2(8) == 256;
    assert Pow2(16) == 65536;
    assert Pow2(24) == 0x100_0000;
    assert Pow2(32) == 0x1_0000_0000;
    assert Pow2(40) == 0x100_0000_0000;
    assert Pow2(48) == 0x1_0000_0000_0000;
    assert Pow2(56) == 0x100_0000_0000_0000;
    assert Pow2(62) == 0x4000_0000_0000_0000;
  }

  lemma RoundUpBound(size: nat, align: nat)
    requires align > 0
    ensures RoundUp(size, align) <= size + align - 1
    ensures size == 1 ==> RoundUp(size, align) == align
  {
    var x := size + align - 1;
    assert x / align * align + x % align == x;
    if size == 1 { assert x == align && x / align == 1; }
  }

  /** A size up to the suppression limit is safe to round for exactly the alignments up to 2^62. */
  lemma SafeSizeExact(k: nat)
    ensures Pow2(k) > 0
    ensures k <= 62 <==> forall size: nat :: size <= SAFE_LAYOUT_SIZE ==> RoundUp(size, Pow2(k)) <= ISIZE_MAX
  {
    Pow2Grows(0, k);
    Pow62();
    if k <= 62 {
      Pow2Grows(k, 62);
      forall size: nat | size <= SAFE_LAYOUT_SIZE ensures RoundUp(size, Pow2(k)) <= ISIZE_MAX {
        RoundUpBound(size, Pow2(k));
      }
    } else {
      Pow2Grows(63, k);
      RoundUpBound(1, Pow2(k));
    }
  }

  // ----- alloc_size_overflow -----

  /** The call at the end of `block` is reported given the state before it. */
  predicate SizeFinding(block: BasicBlock, s: BlockState) {
    && block.term.Call? && block.term.callee.Some? && FirstArgLocal(block.term.args).Some?
    && var c, l := block.term.callee.value, FirstArgLocal(block.term.args).value;
       if c.layoutUnchecked then l in s.range.mulOverflow else c.allocates && l in s.range.layoutOverflow
  }

  /** The `alloc_size_overflow` checker. */
  method CheckAllocSize(body: Body, es: Entries<BlockState>) returns (findings: seq<Block>)
    requires |es| == |body.blocks|
    ensures forall b :: b in findings <==>
              0 <= b < |es| && es[b].Some? && SizeFinding(body.blocks[b], T.Replay(body, es[b].value, body.blocks[b].stmts))
  {
    findings := [];
    for b := 0 to |body.blocks|
      invariant forall x :: x in findings <==>
                  0 <= x < b && es[x].Some? && SizeFinding(body.blocks[x], T.Replay(body, es[x].value, body.blocks[x].stmts))
    {
      var block := body.blocks[b];
      if !block.term.Call? || block.term.callee.None? || es[b].None? || FirstArgLocal(block.term.args).None? {
        continue;
      }
      var state, l := T.Replay(body, es[b].value, block.stmts), FirstArgLocal(block.term.args).value;
      if block.term.callee.value.layoutUnchecked {
        if l in state.range.mulOverflow { findings := findings + [b]; }
      } else if block.term.callee.value.allocates {
        if l in state.range.layoutOverflow { findings := findings + [b]; }
      }
    }
  }

  /**
  Unreported sizes never wrap: when a run reaches a layout construction or an allocation the checker is silent
  about, the size (or the size inside the layout), if it was built by a tree of `Mul`/`Add`, is the exact mathematical
  result of that whole tree and at most `isize::MAX` - unless it comes from an unflagged product or sum of a flagged
  operand (`hid`), which `Limits.FlaggedSumExact` and `Limits.FlaggedProductExact` show to be the exact exception.
  */
  lemma UnreportedSizesAreExact(body: Body, sums: O.SummaryMap, hid: set<Local>, run: seq<Config>, l: Local)
    requires InFragment(body) && IsRun(body, run) && WellFormed(body) && HidesOnly(body, sums, hid) && l !in hid
    requires var c := run[|run| - 1];
             && c.bb < |body.blocks| && c.at == |body.blocks[c.bb].stmts|
             && var term := body.blocks[c.bb].term;
                && term.Call? && term.callee.Some? && FirstArgLocal(term.args) == Some(l) && ScalarLocal(body, l)
                && if term.callee.value.layoutUnchecked then body.tys[l] == Uint(W64)
                   else term.callee.value.allocates && body.tys[l] == Layout
    ensures var c := run[|run| - 1];
            && FlowAt(body, sums, c.bb, c.at).Some? && l < |c.env|
            && (!SizeFinding(body.blocks[c.bb], FlowAt(body, sums, c.bb, c.at).value) ==> Exact(c.env[l]))
  {
    RangesHoldOnEveryRun(body, sums, run);
    var c := run[|run| - 1];
    assert SizeHolds(R.FactOf(FlowAt(body, sums, c.bb, c.at).value.range, l), c.env[l], body.tys[l]);
  }

  predicate ExactProduct(w: Width, m: nat, n: nat) { Wrap(Uint(w), m * n) == m * n }

  /** Operands within these bounds. */
  predicate Below(m: nat, n: nat, ua: U64, ub: U64) { m <= ua && n <= ub }

  /**
  At any width, the products the flag does not report are exact for all operands within the bounds if and only if the
  bounds' product fits the width, or exceeds `isize::MAX` and is reported: between the two a narrow product wraps silently.
  */
  lemma UnflaggedProductExact(s: Ranges, a: Operand, b: Operand, w: Width, ua: U64, ub: U64)
    requires R.OperandUpper(s, a) == Some(ua) && R.OperandUpper(s, b) == Some(ub)
    ensures (forall m: nat, n: nat :: Below(m, n, ua, ub) && !R.BinaryFact(s, Mul, a, b, Uint(w)).overflow ==> ExactProduct(w, m, n)) <==>
            ua as nat * ub as nat <= MaxOf(w) || ua as nat * ub as nat > ISIZE_MAX
  {
    var f := R.BinaryFact(s, Mul, a, b, Uint(w));
    assert f == R.SizeFact(Some(ua), Some(ub), R.BoundProduct(Some(ua), Some(ub)));
    if ua as nat * ub as nat <= MaxOf(w) {
      forall m: nat, n: nat | Below(m, n, ua, ub) ensures ExactProduct(w, m, n) {
        MulMono(m, n, ua, ub);
      }
    } else if ua as nat * ub as nat <= ISIZE_MAX {
      assert Below(ua, ub, ua, ub) && !ExactProduct(w, ua, ub);
    }
  }

  // ----- layout_unchecked -----

  predicate IsPow2(v: nat) {
    v == 1 || (v > 0 && v % 2 == 0 && IsPow2(v / 2))
  }

  predicate ConstPow2(args: seq<Operand>) {
    1 < |args| && ConstU64(args[1]).Some? && IsPow2(ConstU64(args[1]).value)
  }

  /** The flow facts that silence the checker. */
  predicate Silenced(args: seq<Operand>, s: Ranges) {
    var size := FirstArgLocal(args);
    if size.Some? then
      || (size.value in s.upper && s.upper[size.value] <= SAFE_LAYOUT_SIZE)
      || (ConstPow2(args) && size.value in s.mulOverflow)
    else ConstPow2(args)
  }

  /** `Alignment::new_unchecked` is always reported, a layout construction unless the flow silences it. */
  predicate LayoutFinding(block: BasicBlock, s: Option<BlockState>) {
    && block.term.Call? && block.term.callee.Some?
    && if block.term.callee.value.layoutUnchecked then s.Some? ==> !Silenced(block.term.args, s.value.range)
       else block.term.callee.value.alignUnchecked
  }

  function BeforeTerminator(body: Body, es: Entries<BlockState>, b: Block): Option<BlockState>
    requires |es| == |body.blocks| && b < |es|
  {
    if es[b].Some? then Some(T.Replay(body, es[b].value, body.blocks[b].stmts)) else None
  }

  /** The `layout_unchecked` checker; an unreachable construction is reported too. */
  method CheckLayout(body: Body, es: Entries<BlockState>) returns (findings: seq<Block>)
    requires |es| == |body.blocks|
    ensures forall b :: b in findings <==> 0 <= b < |es| && LayoutFinding(body.blocks[b], BeforeTerminator(body, es, b))
  {
    findings := [];
    for b := 0 to |body.blocks|
      invariant forall x :: x in findings <==> 0 <= x < b && LayoutFinding(body.blocks[x], BeforeTerminator(body, es, x))
    {
      var block := body.blocks[b];
      if !block.term.Call? || block.term.callee.None? { continue; }
      var callee, args := block.term.callee.value, block.term.args;
      if !callee.layoutUnchecked && !callee.alignUnchecked { continue; }
      var state := BeforeTerminator(body, es, b);
      if callee.layoutUnchecked && state.Some? {
        var size := FirstArgLocal(args);
        if size.Some? {
          var l := size.value;
          if l in state.value.range.upper && state.value.range.upper[l] <= SAFE_LAYOUT_SIZE { continue; }
          if ConstPow2(args) && l in state.value.range.mulOverflow { continue; }
        } else if ConstPow2(args) {
          continue;
        }
      }
      findings := findings + [b];
    }
  }

  /** A size the silence of both checkers is right about, for alignment 2^k: a local, or a constant that rounds within range. */
  predicate Covered(size: Operand, k: nat) {
    OperandLocal(size).Some? || (size.Const? && Pow2(k) > 0 && RoundUp(size.bits, Pow2(k)) <= ISIZE_MAX)
  }

  /** `x` is a value of the size operand the recorded facts allow. */
  predicate SizeMay(s: Ranges, size: Operand, x: Val) {
    && x.bits <= U64_MAX
    && (size.Const? ==> x.bits == size.bits)
    && (OperandLocal(size).Some? ==> FactHolds(R.FactOf(s, OperandLocal(size).value), x))
  }

  /** Neither checker reports a layout of these arguments. */
  predicate BothSilent(args: seq<Operand>, s: Ranges) {
    Silenced(args, s) && !(FirstArgLocal(args).Some? && FirstArgLocal(args).value in s.mulOverflow)
  }

  /**
  For every size operand and every alignment up to 2^62, the joint silence is right for all values the facts allow if
  and only if the size is a local or a constant that rounds within `isize::MAX`: a size read through a projection is
  never checked, and a constant is not either.
  */
  lemma SilenceExact(args: seq<Operand>, s: Ranges, k: nat)
    requires |args| > 0 && k <= 62 && BothSilent(args, s) && (args[0].Const? ==> args[0].bits <= U64_MAX)
    ensures Pow2(k) > 0
    ensures (forall x: Val :: SizeMay(s, args[0], x) ==> RoundUp(x.bits, Pow2(k)) <= ISIZE_MAX) <==> Covered(args[0], k)
  {
    SafeSizeExact(k);
    var size := args[0];
    if OperandLocal(size).Some? {
      forall x: Val | SizeMay(s, size, x) ensures RoundUp(x.bits, Pow2(k)) <= ISIZE_MAX {
        assert x.bits <= SAFE_LAYOUT_SIZE;
      }
    } else if size.Const? {
      assert SizeMay(s, size, Val(size.bits, None));
    } else {
      var x := Val(U64_MAX, None);
      assert SizeMay(s, size, x);
      RoundUpAbove(U64_MAX, Pow2(k));
    }
  }

  lemma RoundUpAbove(size: nat, align: nat)
    requires align > 0
    ensures RoundUp(size, align) >= size
  {
    var x := size + align - 1;
    assert x / align * align + x % align == x;
  }

  /**
  The two checkers cover each other: on every run, a covered size about which both are silent rounds up to any
  power-of-two alignment up to 2^62 within `isize::MAX`.
  */
  lemma SilentLayoutsRoundSafely(body: Body, sums: O.SummaryMap, run: seq<Config>, x: Val, k: nat)
    requires InFragment(body) && IsRun(body, run) && WellFormed(body) && k <= 62
    requires var c := run[|run| - 1];
             && c.bb < |body.blocks| && c.at == |body.blocks[c.bb].stmts|
             && var term := body.blocks[c.bb].term;
                && term.Call? && term.callee.Some? && term.callee.value.layoutUnchecked && |term.args| > 0
                && RangeSound.OperandOk(body, term.args[0]) && OperandMay(c.env, term.args[0], x) && Covered(term.args[0], k)
    ensures var c := run[|run| - 1];
            && FlowAt(body, sums, c.bb, c.at).Some? && Pow2(k) > 0
            && var s := FlowAt(body, sums, c.bb, c.at);
               !LayoutFinding(body.blocks[c.bb], s) && !SizeFinding(body.blocks[c.bb], s.value) ==>
                 RoundUp(x.bits, Pow2(k)) <= ISIZE_MAX
  {
    RangesHoldOnEveryRun(body, sums, run);
    var c := run[|run| - 1];
    var s, args := FlowAt(body, sums, c.bb, c.at).value, body.blocks[c.bb].term.args;
    SafeSizeExact(k);
    if OperandLocal(args[0]).Some? {
      var l := OperandLocal(args[0]).value;
      assert FactHolds(R.FactOf(s.range, l), c.env[l]);
    }
    if BothSilent(args, s.range) {
      assert SizeMay(s.range, args[0], x);
      SilenceExact(args, s.range, k);
    }
  }

  /** What `Layout::from_size_align_unchecked` demands. */
  predicate ValidLayout(size: nat, align: nat) { IsPow2(align) && RoundUp(size, align) <= ISIZE_MAX }

  lemma {:induction false} Pow2Of(v: nat) returns (k: nat)
    requires IsPow2(v)
    ensures v == Pow2(k)
  {
    if v == 1 {
      k := 0;
    } else {
      k := Pow2Of(v / 2);
      k := k + 1;
    }
  }

  lemma RoundsPast(size: nat, align: nat)
    requires size > 0 && align > ISIZE_MAX
    ensures RoundUp(size, align) > ISIZE_MAX
  {
    var x := size + align - 1;
    assert x / align * align + x % align == x;
    assert x / align >= 1;
  }

  lemma PowersSplit(k: nat)
    ensures Pow2(k) <= 0x4000_0000_0000_0000 <==> k <= 62
    ensures k > 62 ==> Pow2(k) > ISIZE_MAX
  {
    Pow62();
    if k <= 62 { Pow2Grows(k, 62); } else { Pow2Grows(63, k); }
  }

  /**
  A small size silences the checker whatever the alignment. For all sizes the facts allow this is right if and only if
  the alignment is a power of two, at most 2^62 unless the size is 0.
  */
  lemma SmallSizeSilenceExact(s: Ranges, l: Local, x: Val, align: nat)
    requires l in s.upper && s.upper[l] <= SAFE_LAYOUT_SIZE && SizeMay(s, Copy(Place(l, [])), x)
    ensures (forall y: Val :: SizeMay(s, Copy(Place(l, [])), y) ==> ValidLayout(y.bits, align)) <==>
            IsPow2(align) && (align <= 0x4000_0000_0000_0000 || s.upper[l] == 0)
  {
    var most := Val(s.upper[l], None);
    assert SizeMay(s, Copy(Place(l, [])), most);
    if IsPow2(align) {
      var k := Pow2Of(align);
      PowersSplit(k);
      if k <= 62 { SafeSizeExact(k); } else if most.bits > 0 { RoundsPast(most.bits, align); } else { RoundZero(align); }
    }
  }

  lemma RoundZero(align: nat)
    requires align > 0
    ensures RoundUp(0, align) == 0
  {
  }

  /** Three silences that are wrong: a constant beyond the range, any projected size, an alignment that is no power of two. */
  lemma WrongSilences(s: Ranges, p: Place)
    requires p.proj != []
    ensures BothSilent([Const(0x8000_0000_0000_0000), Const(8)], s) && RoundUp(0x8000_0000_0000_0000, 8) > ISIZE_MAX
    ensures BothSilent([Copy(p), Const(8)], s) && !Covered(Copy(p), 3)
    ensures BothSilent([Copy(Place(1, [])), Const(3)], s.(upper := map[1 := 16], mulOverflow := {})) && !IsPow2(3)
  {
    assert IsPow2(8) by { assert IsPow2(4) by { assert IsPow2(2) by { assert IsPow2(1); } } }
    assert !IsPow2(3);
  }
}
