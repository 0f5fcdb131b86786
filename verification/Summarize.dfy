/** The loops that seed, run and extract a summary. */
module Summarize {
  import opened Mir
  import opened State
  import opened Engine
  import opened Merge
  import opened O = OwnTransfer
  import opened Summary
  import D = Driver

  /** `summary_initial_state`: one pass over the parameters. */
  method BuildSeed(body: Body) returns (state: BlockState)
    ensures state == Seed(body)
  {
    var own := EmptyState.own;
    for i := 0 to body.argCount
      invariant SeedFrom(body, own, i) == SeedFrom(body, EmptyState.own, 0)
    {
      if IsPointerParam(body, i) {
        own := own.(pointsTo := own.pointsTo[i + 1 := {ParamId(i)}], heap := own.heap[ParamId(i) := RawOwned]);
      }
    }
    state := EmptyState.(own := own);
  }

  /** The loops of `extract_summary`: merge the return states block by block, then list the effects. */
  method ExtractSummary(body: Body, es: Entries<BlockState>) returns (sum: FnSummary)
    requires |es| == |body.blocks|
    ensures sum == Extract(body, es)
  {
    var joined: Option<BlockState> := None;
    for b := 0 to |body.blocks|
      invariant var ss := ReturnStates(body, es, b); joined == if ss == [] then None else Some(MergeAll(ss))
    {
      if body.blocks[b].term.Return? {
        var state := D.StateAtLocation(body, es, b, |body.blocks[b].stmts|);
        if state.Some? {
          ghost var ss := ReturnStates(body, es, b);
          assert body.blocks[b].stmts[..|body.blocks[b].stmts|] == body.blocks[b].stmts;
          assert ss != [] ==> (ss + [state.value])[..|ss|] == ss;
          if joined.None? {
            joined := state;
          } else {
            var merged, _ := JoinWith(joined.value, state.value);
            joined := Some(merged);
          }
        }
      }
    }
    if joined.None? {
      return NOTHING;
    }
    var effects := [];
    for i := 0 to body.argCount
      invariant effects == EffectsBelow(joined.value.own.heap, i)
    {
      var e := EffectOf(joined.value.own.heap, ParamId(i));
      if e.Some? {
        effects := effects + [(i, e.value)];
      }
    }
    sum := FromReturn(body, joined.value.own).(effects := effects);
  }

  /** `compute_flow_for_summary` followed by `extract_summary`. */
  method ComputeSummary(body: Body, sums: SummaryMap) returns (sum: FnSummary)
    requires WellFormed(body)
    ensures sum == SummaryOfBody(body, sums)
  {
    var seed := BuildSeed(body);
    var es, _ := D.RunFixpoint(body, seed, sums);
    sum := ExtractSummary(body, es);
  }
}
