/** Ownership results for the computed flow: no missed double free or use after free. */
module OwnFlow {
  import opened Mir
  import opened Lattice
  import opened State
  import opened Engine
  import opened O = OwnTransfer
  import opened OwnMachine
  import opened OwnSound
  import T = Transfer

  // ----- runs -----

  datatype Config = Config(bb: Block, at: nat, mem: Mem)

  const NoMem := Mem(map[], map[], {}, {}, {})

  ghost predicate Step(body: Body, c: Config, c': Config) {
    && c.bb < |body.blocks|
    && var block := body.blocks[c.bb];
       if c.at < |block.stmts| then c'.bb == c.bb && c'.at == c.at + 1 && StepStatement(Exposed(body), block.stmts[c.at], c.mem, c'.mem)
       else c'.at == 0 && StepTerminator(Exposed(body), c.bb, block.term, c.mem, c'.bb, c'.mem)
  }

  /** A run from function entry, before anything is allocated. */
  ghost predicate IsRun(body: Body, run: seq<Config>) {
    && 0 < |run| && run[0] == Config(0, 0, NoMem)
    && forall k :: 0 <= k < |run| - 1 ==> Step(body, run[k], run[k + 1])
  }

  // ----- whole runs, against any solution -----

  ghost predicate EdgesCover(body: Body, sums: SummaryMap, os: seq<Option<Ownership>>)
    requires |os| == |body.blocks|
  {
    forall b, succ :: 0 <= b < |os| && os[b].Some? && succ in Successors(body.blocks[b].term) ==> EdgeCovers(body, sums, os, b, succ)
  }

  ghost predicate EdgeCovers(body: Body, sums: SummaryMap, os: seq<Option<Ownership>>, b: Block, succ: Block)
    requires |os| == |body.blocks| && b < |os| && os[b].Some?
  {
    succ < |os| && os[succ].Some? && OwnLeq(Along(body, sums, b, body.blocks[b], os[b].value), os[succ].value)
  }

  /** In the state before it, every statement and terminator of the block is one the transfer follows. */
  ghost predicate BlockClean(body: Body, sums: SummaryMap, boxes: set<Local>, block: BasicBlock, s: Ownership) {
    && NoEscape(s)
    && (forall i :: 0 <= i < |block.stmts| ==> StatementFine(body, boxes, Replay(body, s, block.stmts[..i]), block.stmts[i]))
    && TerminatorClean(sums, Replay(body, s, block.stmts), block.term)
    && TerminatorApart(Exposed(body), boxes, Replay(body, s, block.stmts), block.term)
  }

  predicate StatementFine(body: Body, boxes: set<Local>, s: Ownership, stmt: Statement) {
    StatementClean(s, stmt) && StatementApart(Exposed(body), boxes, s, stmt)
  }

  /** `boxes` lists the locals that may hold an owner `from_raw` returned; none of them has its address taken. */
  ghost predicate CleanFlow(body: Body, sums: SummaryMap, boxes: set<Local>, os: seq<Option<Ownership>>)
    requires |os| == |body.blocks|
  {
    boxes !! Exposed(body) && forall b :: 0 <= b < |os| && os[b].Some? ==> BlockClean(body, sums, boxes, body.blocks[b], os[b].value)
  }

  ghost predicate Solves(body: Body, sums: SummaryMap, boxes: set<Local>, os: seq<Option<Ownership>>) {
    |os| == |body.blocks| && 0 < |os| && os[0].Some? && EdgesCover(body, sums, os) && CleanFlow(body, sums, boxes, os)
  }

  ghost predicate PointCovered(body: Body, boxes: set<Local>, os: seq<Option<Ownership>>, c: Config)
    requires |os| == |body.blocks|
  {
    && c.bb < |os| && os[c.bb].Some? && c.at <= |body.blocks[c.bb].stmts|
    && Tracks(Exposed(body), boxes, c.mem, Replay(body, os[c.bb].value, body.blocks[c.bb].stmts[..c.at]))
  }

  lemma StatementPoint(body: Body, sums: SummaryMap, boxes: set<Local>, os: seq<Option<Ownership>>, c: Config, c': Config)
    requires |os| == |body.blocks| && CleanFlow(body, sums, boxes, os)
    requires PointCovered(body, boxes, os, c) && Step(body, c, c') && c.at < |body.blocks[c.bb].stmts|
    ensures PointCovered(body, boxes, os, c')
  {
    var stmts := body.blocks[c.bb].stmts;
    assert BlockClean(body, sums, boxes, body.blocks[c.bb], os[c.bb].value);
    assert stmts[..c'.at][..|stmts[..c'.at]| - 1] == stmts[..c.at];
    StatementCovers(body, Exposed(body), boxes, c.mem, Replay(body, os[c.bb].value, stmts[..c.at]), stmts[c.at], c'.mem);
  }

  lemma TerminatorPoint(body: Body, sums: SummaryMap, boxes: set<Local>, os: seq<Option<Ownership>>, c: Config, c': Config)
    requires Solves(body, sums, boxes, os)
    requires PointCovered(body, boxes, os, c) && Step(body, c, c') && c.at == |body.blocks[c.bb].stmts|
    ensures PointCovered(body, boxes, os, c')
  {
    var block := body.blocks[c.bb];
    assert block.stmts[..c.at] == block.stmts;
    assert BlockClean(body, sums, boxes, block, os[c.bb].value);
    assert EdgeCovers(body, sums, os, c.bb, c'.bb);
    assert BlockClean(body, sums, boxes, body.blocks[c'.bb], os[c'.bb].value);
    TerminatorCovers(body, sums, Exposed(body), boxes, c.mem, Replay(body, os[c.bb].value, block.stmts), c.bb, block.term, c'.bb, c'.mem);
    CoversWeaker(c'.mem, Along(body, sums, c.bb, block, os[c.bb].value), os[c'.bb].value);
    assert body.blocks[c'.bb].stmts[..0] == [];
  }

  lemma RunCovered(body: Body, sums: SummaryMap, boxes: set<Local>, os: seq<Option<Ownership>>, run: seq<Config>)
    requires Solves(body, sums, boxes, os) && IsRun(body, run)
    ensures PointCovered(body, boxes, os, run[|run| - 1])
  {
    if |run| == 1 {
      assert body.blocks[0].stmts[..0] == [];
      assert BlockClean(body, sums, boxes, body.blocks[0], os[0].value);
    } else {
      var prefix := run[..|run| - 1];
      RunCovered(body, sums, boxes, os, prefix);
      var c, c' := prefix[|prefix| - 1], run[|run| - 1];
      assert Step(body, run[|run| - 2], run[|run| - 1]);
      if c.at < |body.blocks[c.bb].stmts| { StatementPoint(body, sums, boxes, os, c, c'); } else { TerminatorPoint(body, sums, boxes, os, c, c'); }
    }
  }

  // ----- the computed flow -----

  ghost function OwnOf(es: Entries<BlockState>): (os: seq<Option<Ownership>>)
    ensures |os| == |es|
  {
    seq(|es|, b requires 0 <= b < |es| => if es[b].Some? then Some(es[b].value.own) else None)
  }

  lemma OwnEdge(body: Body, sums: SummaryMap, initial: BlockState, es: Entries<BlockState>, b: Block, succ: Block)
    requires WellFormed(body) && es == T.FlowFrom(body, sums, initial)
    requires b < |es| && es[b].Some? && succ in Successors(body.blocks[b].term)
    ensures succ < |es| && es[succ].Some?
    ensures OwnLeq(Along(body, sums, b, body.blocks[b], es[b].value.own), es[succ].value.own)
  {
    T.FlowEdge(body, sums, initial, b, succ);
  }

  lemma FlowEdgeCovers(body: Body, sums: SummaryMap, es: Entries<BlockState>, b: Block, succ: Block)
    requires WellFormed(body) && es == T.FlowFrom(body, sums, T.FlowInitial(body))
    requires b < |es| && es[b].Some? && succ in Successors(body.blocks[b].term)
    ensures EdgeCovers(body, sums, OwnOf(es), b, succ)
  {
    OwnEdge(body, sums, T.FlowInitial(body), es, b, succ);
  }

  lemma FlowEdgesCover(body: Body, sums: SummaryMap, es: Entries<BlockState>)
    requires WellFormed(body) && es == T.FlowFrom(body, sums, T.FlowInitial(body))
    ensures EdgesCover(body, sums, OwnOf(es))
  {
    var os := OwnOf(es);
    forall b, succ | 0 <= b < |os| && os[b].Some? && succ in Successors(body.blocks[b].term)
      ensures EdgeCovers(body, sums, os, b, succ)
    {
      FlowEdgeCovers(body, sums, es, b, succ);
    }
  }

  lemma FlowReaches0(body: Body, sums: SummaryMap, es: Entries<BlockState>)
    requires WellFormed(body) && es == T.FlowFrom(body, sums, T.FlowInitial(body))
    ensures es[0].Some?
  {
    T.FlowStart(body, sums, T.FlowInitial(body));
  }

  /**
  The body is well formed and, in the state computed before it, every statement and terminator is one whose tracked
  pointers the transfer follows: allocation, copy, move, cast, offset, free, raw realloc, pointer read and arithmetic, and
  anything else that is given no tracked pointer. No object is marked as escaped, no tracked pointer is put into a local
  whose address is taken, and owners returned by `from_raw` are only moved, dropped or forgotten.
  */
  ghost predicate InFragment(body: Body, sums: SummaryMap) {
    WellFormed(body) && exists boxes :: CleanFlow(body, sums, boxes, OwnOf(T.FlowFrom(body, sums, T.FlowInitial(body))))
  }

  lemma FlowSolves(body: Body, sums: SummaryMap, boxes: set<Local>, es: Entries<BlockState>)
    requires WellFormed(body) && es == T.FlowFrom(body, sums, T.FlowInitial(body)) && CleanFlow(body, sums, boxes, OwnOf(es))
    ensures Solves(body, sums, boxes, OwnOf(es))
  {
    FlowReaches0(body, sums, es);
    FlowEdgesCover(body, sums, es);
  }

  lemma CoveredAtPoint(body: Body, sums: SummaryMap, boxes: set<Local>, es: Entries<BlockState>, run: seq<Config>)
    requires WellFormed(body) && es == T.FlowFrom(body, sums, T.FlowInitial(body)) && CleanFlow(body, sums, boxes, OwnOf(es)) && IsRun(body, run)
    ensures PointCovered(body, boxes, OwnOf(es), run[|run| - 1])
  {
    FlowSolves(body, sums, boxes, es);
    RunCovered(body, sums, boxes, OwnOf(es), run);
  }

  /**
  No missed double free or use after free: on every run of the fragment (branches and loops included) in which no
  allocation site executes twice, whenever a local holds a raw pointer to an allocation that was already freed,
  `freed_kind` of that local is definite or potential in the replayed state.
  */
  lemma NoMissedFree(body: Body, sums: SummaryMap, run: seq<Config>, l: Local, o: ObjectId)
    requires InFragment(body, sums) && IsRun(body, run)
    requires var m := run[|run| - 1].mem; o in Get(m.holds, l) && o in m.freed
    ensures var c, es := run[|run| - 1], T.FlowFrom(body, sums, T.FlowInitial(body));
            && c.bb < |es| && es[c.bb].Some? && c.at <= |body.blocks[c.bb].stmts|
            && FreedKindOf(Replay(body, es[c.bb].value.own, body.blocks[c.bb].stmts[..c.at]), l) != NotFreed
  {
    var es := T.FlowFrom(body, sums, T.FlowInitial(body));
    var boxes :| CleanFlow(body, sums, boxes, OwnOf(es));
    CoveredAtPoint(body, sums, boxes, es, run);
    SeenAtPoint(body, boxes, es, run[|run| - 1], l, o);
  }

  lemma SeenAtPoint(body: Body, boxes: set<Local>, es: Entries<BlockState>, c: Config, l: Local, o: ObjectId)
    requires |es| == |body.blocks| && PointCovered(body, boxes, OwnOf(es), c) && o in Get(c.mem.holds, l) && o in c.mem.freed
    ensures c.bb < |es| && es[c.bb].Some? && c.at <= |body.blocks[c.bb].stmts|
    ensures FreedKindOf(Replay(body, es[c.bb].value.own, body.blocks[c.bb].stmts[..c.at]), l) != NotFreed
  {
    FreedSeen(c.mem, Replay(body, es[c.bb].value.own, body.blocks[c.bb].stmts[..c.at]), l, o);
  }

  lemma FreedSeen(m: Mem, s: Ownership, l: Local, o: ObjectId)
    requires Covers(m, s) && o in Get(m.holds, l) && o in m.freed
    ensures FreedKindOf(s, l) != NotFreed
  {
    assert o in Get(s.pointsTo, l) && IsFreed(s.heap, o);
  }
}
