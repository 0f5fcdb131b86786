/** `run_fixpoint` as it is written: a vector of entry states, a FIFO queue and the set of queued blocks. */
module Driver {
  import opened Mir
  import opened State
  import opened Engine
  import opened Merge
  import FS = FlowState
  import O = OwnTransfer
  import R = RangeTransfer
  import T = Transfer

  ghost function QueueSet(q: seq<Block>): set<Block> { set b | b in q }

  /** `p` is the fixpoint problem of `body` under `sums`, said without naming its definition. */
  ghost predicate Poses(body: Body, sums: O.SummaryMap, p: Problem<BlockState>) {
    && Valid(p)
    && |p.succs| == |body.blocks|
    && (forall b :: 0 <= b < |body.blocks| ==> p.succs[b] == Successors(body.blocks[b].term))
    && (forall b: Block, s :: p.exit(b, s) == T.ExitState(body, sums, b, s))
    && (forall b: Block, succ: Block, s :: p.edge(b, succ, s) == T.EdgeState(body, b, succ, s))
    && (forall s, t :: p.dom.join(s, t) == Join(s, t))
    && (forall s, t :: p.dom.leq(s, t) == Leq(s, t))
  }

  lemma FlowPoses(body: Body, sums: O.SummaryMap, initial: BlockState) returns (p: Problem<BlockState>)
    requires WellFormed(body)
    ensures Poses(body, sums, p)
    ensures Run(p, Start(p, initial)) == (T.FlowFrom(body, sums, initial), T.FlowPops(body, sums, initial))
  {
    p := T.FlowProblem(body, sums);
  }

  /** The exit state of a block entered with `entry`. */
  method ExitOf(body: Body, sums: O.SummaryMap, bb: Block, entry: BlockState) returns (exit: BlockState)
    requires bb < |body.blocks|
    ensures exit == T.ExitState(body, sums, bb, entry)
  {
    var state := new FS.FlowState(entry);
    state.Replay(body, body.blocks[bb].stmts);
    state.ApplyTerminator(body, sums, bb, body.blocks[bb].term);
    exit := state.Value();
  }

  /** The exit state refined for one successor. */
  method EdgeOf(body: Body, bb: Block, succ: Block, exit: BlockState) returns (edge: BlockState)
    requires bb < |body.blocks|
    ensures edge == T.EdgeState(body, bb, succ, exit)
  {
    var state := new FS.FlowState(exit);
    state.RefineEdge(body.blocks[bb].term, succ);
    edge := state.Value();
  }

  /** The entry of `succ` after `incoming` arrived, and whether it moved. */
  ghost function Stored(entry: Option<BlockState>, incoming: BlockState): (BlockState, bool) {
    if entry.None? then (incoming, true) else (Join(entry.value, incoming), !Leq(incoming, entry.value))
  }

  /** Store or merge the state of one edge; queue the successor if its entry moved and it is not queued yet. */
  method StoreEdge(entries: Entries<BlockState>, worklist: seq<Block>, inWorklist: set<Block>, succ: Block, edge: BlockState)
    returns (entries': Entries<BlockState>, worklist': seq<Block>, inWorklist': set<Block>)
    requires succ < |entries| && inWorklist == QueueSet(worklist)
    ensures var (merged, changed) := Stored(entries[succ], edge);
            && entries' == (if changed then entries[succ := Some(merged)] else entries)
            && worklist' == (if changed then Enqueue(worklist, succ) else worklist)
    ensures inWorklist' == QueueSet(worklist')
  {
    entries', worklist', inWorklist' := entries, worklist, inWorklist;
    var merged, changed := edge, true;
    if entries[succ].Some? {
      merged, changed := JoinWith(entries[succ].value, edge);
    }
    if changed {
      entries' := entries[succ := Some(merged)];
      if succ !in inWorklist {
        worklist', inWorklist' := worklist + [succ], inWorklist + {succ};
      }
    }
  }

  lemma DeliverIs(body: Body, sums: O.SummaryMap, p: Problem<BlockState>, w: Work<BlockState>, b: Block, s: Block, out: BlockState)
    requires Poses(body, sums, p) && WorkOk(p, w) && s < |p.succs|
    ensures var (merged, changed) := Stored(w.entries[s], T.EdgeState(body, b, s, out));
            Deliver(p, w, b, s, out) ==
            Work(if changed then w.entries[s := Some(merged)] else w.entries, if changed then Enqueue(w.queue, s) else w.queue)
  {
    var e := p.edge(b, s, out);
    if w.entries[s].Some? {
      assert p.dom.leq(e, w.entries[s].value) == Leq(e, w.entries[s].value);
      assert p.dom.join(w.entries[s].value, e) == Join(w.entries[s].value, e);
    }
  }

  /** Process one popped block. A queued block always has an entry state, so the source's `None` guard never fires. */
  method VisitBlock(body: Body, sums: O.SummaryMap, ghost p: Problem<BlockState>, bb: Block,
                    entries: Entries<BlockState>, worklist: seq<Block>, inWorklist: set<Block>)
    returns (entries': Entries<BlockState>, worklist': seq<Block>, inWorklist': set<Block>)
    requires Poses(body, sums, p) && bb < |body.blocks|
    requires WorkOk(p, Work(entries, worklist)) && inWorklist == QueueSet(worklist)
    requires entries[bb].Some?
    ensures Work(entries', worklist') == Visit(p, Work(entries, worklist), bb, p.exit(bb, entries[bb].value), 0)
    ensures inWorklist' == QueueSet(worklist')
  {
    entries', worklist', inWorklist' := entries, worklist, inWorklist;
    var exit := ExitOf(body, sums, bb, entries[bb].value);
    var succs := Successors(body.blocks[bb].term);
    for i := 0 to |succs|
      invariant WorkOk(p, Work(entries', worklist')) && inWorklist' == QueueSet(worklist')
      invariant Visit(p, Work(entries', worklist'), bb, exit, i) == Visit(p, Work(entries, worklist), bb, exit, 0)
    {
      var succ := succs[i];
      assert succ == p.succs[bb][i];
      var edge := EdgeOf(body, bb, succ, exit);
      DeliverIs(body, sums, p, Work(entries', worklist'), bb, succ, exit);
      entries', worklist', inWorklist' := StoreEdge(entries', worklist', inWorklist', succ, edge);
    }
  }

  lemma Dequeue(q: seq<Block>)
    requires q != [] && NoRepeats(q)
    ensures QueueSet(q) - {q[0]} == QueueSet(q[1..]) && NoRepeats(q[1..])
  {
    assert q == [q[0]] + q[1..];
  }

  /** The loop of `run_fixpoint`, for the problem it poses. */
  method RunLoop(body: Body, initial: BlockState, sums: O.SummaryMap, ghost p: Problem<BlockState>)
    returns (entries: Entries<BlockState>, ghost pops: nat)
    requires Poses(body, sums, p)
    ensures (entries, pops) == Run(p, Start(p, initial))
  {
    ghost var start := Start(p, initial);
    entries := seq(|body.blocks|, _ => None)[0 := Some(initial)];
    var worklist, inWorklist := [0], {0};
    pops := 0;
    while worklist != []
      invariant WorkOk(p, Work(entries, worklist)) && inWorklist == QueueSet(worklist) && NoRepeats(worklist)
      invariant Run(p, Work(entries, worklist)).0 == Run(p, start).0
      invariant pops + Run(p, Work(entries, worklist)).1 == Run(p, start).1
      decreases Potential(p, entries) + |worklist|
    {
      ghost var w := Work(entries, worklist);
      var bb := worklist[0];
      Dequeue(worklist);
      worklist, inWorklist := worklist[1..], inWorklist - {bb};
      VisitNoRepeats(p, Work(entries, worklist), bb, p.exit(bb, entries[bb].value), 0);
      entries, worklist, inWorklist := VisitBlock(body, sums, p, bb, entries, worklist, inWorklist);
      assert Work(entries, worklist) == Pop(p, w);
      pops := pops + 1;
    }
  }

  /** `run_fixpoint`: the entry states `FlowFrom` describes, after as many pops as `Engine.PopBound` bounds. */
  method RunFixpoint(body: Body, initial: BlockState, sums: O.SummaryMap)
    returns (entries: Entries<BlockState>, ghost pops: nat)
    requires WellFormed(body)
    ensures entries == T.FlowFrom(body, sums, initial)
    ensures pops == T.FlowPops(body, sums, initial)
  {
    ghost var p := FlowPoses(body, sums, initial);
    entries, pops := RunLoop(body, initial, sums, p);
  }

  /** `seed_param_type_facts`: what the parameter types alone promise. */
  method SeedParamTypeFacts(body: Body) returns (initial: BlockState)
    ensures initial == T.FlowInitial(body)
  {
    var range := EmptyState.range;
    var i := 1;
    while i <= body.argCount && i < 0x1_0000_0000
      invariant 1 <= i
      invariant R.SeedParams(body, range, i) == R.SeedParams(body, EmptyState.range, 1)
      decreases body.argCount + 1 - i
    {
      range := R.TypeFacts(range, i, TyOf(body, i));
      i := i + 1;
    }
    initial := EmptyState.(range := range);
  }

  /** `compute_flow`. */
  method ComputeFlow(body: Body, sums: O.SummaryMap) returns (entries: Entries<BlockState>)
    requires WellFormed(body)
    ensures entries == T.FlowFrom(body, sums, T.FlowInitial(body))
  {
    var initial := SeedParamTypeFacts(body);
    ghost var pops;
    entries, pops := RunFixpoint(body, initial, sums);
  }

  /** `state_at_location`: the entry state with the statements before the location replayed. */
  method StateAtLocation(body: Body, entries: Entries<BlockState>, bb: Block, at: nat) returns (r: Option<BlockState>)
    requires |entries| == |body.blocks|
    ensures r.Some? <==> bb < |entries| && entries[bb].Some?
    ensures r.Some? ==> var stmts := body.blocks[bb].stmts;
                        r.value == T.Replay(body, entries[bb].value, if at <= |stmts| then stmts[..at] else stmts)
  {
    if bb >= |entries| || entries[bb].None? {
      return None;
    }
    var stmts := body.blocks[bb].stmts;
    var state := new FS.FlowState(entries[bb].value);
    state.Replay(body, if at <= |stmts| then stmts[..at] else stmts);
    r := Some(state.Value());
  }
}
