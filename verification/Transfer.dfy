/** The whole transfer as the product of its slices, block replay, and the fixpoint problem of a body. */
module Transfer {
  import opened Mir
  import opened State
  import opened Rank
  import opened Engine
  import R = RangeTransfer
  import O = OwnTransfer
  import C = CapTransfer

  function ApplyStatement(body: Body, s: BlockState, stmt: Statement): BlockState {
    BlockState(O.ApplyStatement(body, s.own, stmt), R.ApplyStatement(body, s.range, stmt), C.ApplyStatement(s.cap, stmt))
  }

  /** Replay of a statement list (`state_at_location`, `state_before_terminator`). */
  function Replay(body: Body, s: BlockState, stmts: seq<Statement>): BlockState {
    BlockState(O.Replay(body, s.own, stmts), R.Replay(body, s.range, stmts), C.Replay(s.cap, stmts))
  }

  function ApplyTerminator(body: Body, sums: O.SummaryMap, s: BlockState, bb: Block, term: Terminator): BlockState {
    BlockState(
      O.ApplyTerminator(body, sums, s.own, bb, term),
      R.ApplyTerminator(body, s.range, s.cap.refBase, term),
      C.ApplyTerminator(body, s.cap, term))
  }

  /** `refine_switchint_edge`. */
  function RefineEdge(s: BlockState, term: Terminator, succ: Block): BlockState {
    BlockState(s.own, R.RefineEdge(s.range, term, succ), C.RefineEdge(s.cap, term, succ))
  }

  function ExitState(body: Body, sums: O.SummaryMap, b: Block, s: BlockState): BlockState {
    if b < |body.blocks| then
      ApplyTerminator(body, sums, Replay(body, s, body.blocks[b].stmts), b, body.blocks[b].term)
    else s
  }

  function EdgeState(body: Body, b: Block, succ: Block, s: BlockState): BlockState {
    if b < |body.blocks| then RefineEdge(s, body.blocks[b].term, succ) else s
  }

  lemma JoinLaws(d: Domain<BlockState>)
    requires d.join == Join && d.leq == Leq
    ensures forall a, b :: d.leq(a, d.join(a, b)) && d.leq(b, d.join(a, b))
  {
    forall a, b ensures d.leq(a, d.join(a, b)) && d.leq(b, d.join(a, b)) { JoinUpperBound(a, b); }
  }

  lemma OrderLaws(d: Domain<BlockState>)
    requires d.leq == Leq
    ensures forall a :: d.leq(a, a)
    ensures forall a, b, c :: d.leq(a, b) && d.leq(b, c) ==> d.leq(a, c)
  {
    forall a ensures d.leq(a, a) { LeqRefl(a); }
    forall a, b, c | d.leq(a, b) && d.leq(b, c) ensures d.leq(a, c) { LeqTrans(a, b, c); }
  }

  lemma RankLaw(d: Domain<BlockState>, a: BlockState, b: BlockState)
    requires d == Domain(Join, Leq, Headroom, Height())
    ensures d.rank(a) <= d.height
    ensures !d.leq(b, a) ==> d.rank(d.join(a, b)) < d.rank(a)
  {
    RankDrops(a, b);
    assert d.rank(a) == Headroom(a) && d.join(a, b) == Join(a, b) && d.leq(b, a) == Leq(b, a);
  }

  lemma RankLaws(d: Domain<BlockState>)
    requires d == Domain(Join, Leq, Headroom, Height())
    ensures forall a :: d.rank(a) <= d.height
    ensures forall a, b :: !d.leq(b, a) ==> d.rank(d.join(a, b)) < d.rank(a)
  {
    forall a ensures d.rank(a) <= d.height { RankLaw(d, a, a); }
    forall a, b | !d.leq(b, a) ensures d.rank(d.join(a, b)) < d.rank(a) { RankLaw(d, a, b); }
  }

  ghost function BlockDomain(): (d: Domain<BlockState>)
    ensures Lawful(d)
  {
    var d := Domain(Join, Leq, Headroom, Height());
    JoinLaws(d);
    OrderLaws(d);
    RankLaws(d);
    d
  }

  /** The fixpoint problem `run_fixpoint` solves for a body under given summaries. */
  ghost function FlowProblem(body: Body, sums: O.SummaryMap): (p: Problem<BlockState>)
    requires WellFormed(body)
    ensures Valid(p)
  {
    Problem(
      seq(|body.blocks|, b requires 0 <= b < |body.blocks| => Successors(body.blocks[b].term)),
      (b, s) => ExitState(body, sums, b, s),
      (b, succ, s) => EdgeState(body, b, succ, s),
      BlockDomain())
  }

  function FlowInitial(body: Body): BlockState {
    EmptyState.(range := R.SeedParams(body, EmptyState.range, 1))
  }

  // ----- what the engine guarantees, in terms of blocks and edges -----

  ghost function FlowFrom(body: Body, sums: O.SummaryMap, initial: BlockState): (es: Entries<BlockState>)
    requires WellFormed(body)
    ensures |es| == |body.blocks|
  {
    Fixpoint(FlowProblem(body, sums), initial)
  }

  /** How many blocks `run_fixpoint` pops. */
  ghost function FlowPops(body: Body, sums: O.SummaryMap, initial: BlockState): nat
    requires WellFormed(body)
  {
    var p := FlowProblem(body, sums);
    Run(p, Start(p, initial)).1
  }

  /** `run_fixpoint` pops at most 1 + blocks * (height + 1) blocks, whatever the body does. */
  lemma FlowPopBound(body: Body, sums: O.SummaryMap, initial: BlockState, height: nat)
    requires WellFormed(body) && height >= Height()
    ensures FlowPops(body, sums, initial) <= 1 + |body.blocks| * (height + 1)
  {
    PopBoundAt(FlowProblem(body, sums), initial, |body.blocks|, height);
  }

  /** The state flowing along the edge from `b` to `succ` when `b` is entered with `s`, slice by slice. */
  function Along(body: Body, sums: O.SummaryMap, b: Block, succ: Block, s: BlockState): BlockState
    requires b < |body.blocks|
  {
    var block := body.blocks[b];
    BlockState(
      O.Along(body, sums, b, block, s.own),
      R.Along(body, block, succ, s.range, C.Replay(s.cap, block.stmts).refBase),
      C.Along(body, block, succ, s.cap))
  }

  lemma AlongEdge(body: Body, sums: O.SummaryMap, b: Block, succ: Block, s: BlockState)
    requires b < |body.blocks|
    ensures EdgeState(body, b, succ, ExitState(body, sums, b, s)) == Along(body, sums, b, succ, s)
  {
  }

  lemma FlowStart(body: Body, sums: O.SummaryMap, initial: BlockState)
    requires WellFormed(body)
    ensures var es := FlowFrom(body, sums, initial); es[0].Some? && Leq(initial, es[0].value)
  {
    FixpointCorrect(FlowProblem(body, sums), initial);
  }

  /** Along every edge out of a reached block, the successor's entry claims no more than what flows in. */
  lemma FlowEdge(body: Body, sums: O.SummaryMap, initial: BlockState, b: Block, succ: Block)
    requires WellFormed(body) && b < |body.blocks| && succ in Successors(body.blocks[b].term)
    requires FlowFrom(body, sums, initial)[b].Some?
    ensures succ < |body.blocks|
    ensures var es := FlowFrom(body, sums, initial);
            es[succ].Some? && Leq(Along(body, sums, b, succ, es[b].value), es[succ].value)
  {
    var p, es := FlowProblem(body, sums), FlowFrom(body, sums, initial);
    FixpointCorrect(p, initial);
    var i :| 0 <= i < |p.succs[b]| && p.succs[b][i] == succ;
    AlongEdge(body, sums, b, succ, es[b].value);
    assert Settled(p, es, b, p.succs[b][i]);
  }

  /** A property of block and state that holds initially, flows along edges and survives merging. */
  ghost predicate PreservedAt(body: Body, sums: O.SummaryMap, initial: BlockState, inv: (Block, BlockState) -> bool) {
    && inv(0, initial)
    && (forall b, succ, s :: 0 <= b < |body.blocks| && succ in Successors(body.blocks[b].term) && inv(b, s) ==>
          inv(succ, Along(body, sums, b, succ, s)))
    && (forall b: Block, s, t :: inv(b, s) && inv(b, t) ==> inv(b, Join(s, t)))
  }

  /** Such a property holds of every entry state. */
  lemma FlowInvariantAt(body: Body, sums: O.SummaryMap, initial: BlockState, inv: (Block, BlockState) -> bool)
    requires WellFormed(body) && PreservedAt(body, sums, initial, inv)
    ensures forall b :: 0 <= b < |body.blocks| && FlowFrom(body, sums, initial)[b].Some? ==>
              inv(b, FlowFrom(body, sums, initial)[b].value)
  {
    var p := FlowProblem(body, sums);
    forall b, i, s | 0 <= b < |p.succs| && 0 <= i < |p.succs[b]| && inv(b, s)
      ensures inv(p.succs[b][i], p.edge(b, p.succs[b][i], p.exit(b, s)))
    {
      AlongEdge(body, sums, b, p.succs[b][i], s);
    }
    InvariantEverywhere(p, initial, inv);
  }

  ghost predicate Preserved(body: Body, sums: O.SummaryMap, initial: BlockState, inv: BlockState -> bool) {
    && inv(initial)
    && (forall b, succ, s :: 0 <= b < |body.blocks| && succ in Successors(body.blocks[b].term) && inv(s) ==>
          inv(Along(body, sums, b, succ, s)))
    && (forall s, t :: inv(s) && inv(t) ==> inv(Join(s, t)))
  }

  /** The same for a property of states alone. */
  lemma FlowInvariant(body: Body, sums: O.SummaryMap, initial: BlockState, inv: BlockState -> bool)
    requires WellFormed(body) && Preserved(body, sums, initial, inv)
    ensures forall b :: 0 <= b < |body.blocks| && FlowFrom(body, sums, initial)[b].Some? ==>
              inv(FlowFrom(body, sums, initial)[b].value)
  {
    var binv := (b: Block, s: BlockState) => inv(s);
    FlowInvariantAt(body, sums, initial, binv);
    forall b | 0 <= b < |body.blocks| && FlowFrom(body, sums, initial)[b].Some?
      ensures inv(FlowFrom(body, sums, initial)[b].value)
    {
      assert binv(b, FlowFrom(body, sums, initial)[b].value);
    }
  }

  /** A path of successor edges from the entry block. */
  ghost predicate IsPath(body: Body, q: seq<Block>) {
    && 0 < |q| && q[0] == 0
    && (forall k :: 0 <= k < |q| ==> q[k] < |body.blocks|)
    && (forall k :: 0 < k < |q| ==> q[k] in Successors(body.blocks[q[k - 1]].term))
  }

  lemma PathIsChain(body: Body, sums: O.SummaryMap, q: seq<Block>)
    requires WellFormed(body) && IsPath(body, q)
    ensures Chain(FlowProblem(body, sums), q)
  {
    var p := FlowProblem(body, sums);
    forall k | 0 < k < |q| ensures q[k] in p.succs[q[k - 1]] {
      assert p.succs[q[k - 1]] == Successors(body.blocks[q[k - 1]].term);
    }
  }

  /** The end of every path from the entry has an entry state. */
  lemma FlowReaches(body: Body, sums: O.SummaryMap, initial: BlockState, q: seq<Block>)
    requires WellFormed(body) && IsPath(body, q)
    ensures FlowFrom(body, sums, initial)[q[|q| - 1]].Some?
  {
    PathIsChain(body, sums, q);
    ChainReached(FlowProblem(body, sums), initial, q);
  }
}
