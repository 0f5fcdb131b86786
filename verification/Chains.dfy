/** Consuming call graphs: a pointer handed on through any control flow to `from_raw` is summarised as freed. */
module Chains {
  import opened Mir
  import opened Lattice
  import opened State
  import opened Engine
  import opened O = OwnTransfer
  import opened I = OwnInvariant
  import opened Consume
  import opened Carry
  import opened Summary
  import opened Rounds
  import T = Transfer

  // ----- one function -----

  /**
  On entry to a block: the object is in `path[0]`, and the statements pass it along `path`; or it is freed already; or
  nothing is said, because no path from here returns (unwinding and cleanup, shared by any number of calls).
  */
  datatype Stage = Held(path: seq<Local>) | Gone | Lost

  /** What a body counts on: functions that free a parameter, and functions whose summaries have no heap effect. */
  datatype Known = Known(frees: set<(nat, nat)>, idle: set<nat>)

  /** The call frees its argument `pos`: it is `from_raw`, or a function known to free that parameter. */
  predicate FreesVia(known: Known, f: Callee, pos: nat) {
    (f.role.FromRaw? && pos == 0) || (f.role.Plain? && (f.def, pos) in known.frees)
  }

  ghost predicate Releases(known: Known, w: set<Local>, c: Local, term: Terminator) {
    && term.Call? && term.callee.Some? && term.dest.proj == []
    && exists pos: nat :: HandsOver(w, c, term.args, pos) && FreesVia(known, term.callee.value, pos)
  }

  predicate AllGone(stages: seq<Stage>, succs: seq<Block>) {
    forall i :: 0 <= i < |succs| ==> succs[i] < |stages| && !stages[succs[i]].Held?
  }

  predicate AllLost(stages: seq<Stage>, succs: seq<Block>) {
    forall i :: 0 <= i < |succs| ==> succs[i] < |stages| && stages[succs[i]].Lost?
  }

  predicate HeldIn(stage: Stage, c: Local) {
    match stage
    case Held(path) => path != [] && path[0] == c
    case Gone => false
    case Lost => true
  }

  predicate AllHeld(stages: seq<Stage>, succs: seq<Block>, c: Local) {
    forall i :: 0 <= i < |succs| ==> succs[i] < |stages| && HeldIn(stages[succs[i]], c)
  }

  /** A call frees what `c` holds, or the terminator leaves it in `c`. */
  ghost predicate PassesOn(known: Known, w: set<Local>, stages: seq<Stage>, c: Local, term: Terminator) {
    || (Releases(known, w, c, term) && AllGone(stages, Successors(term)))
    || (c in w && LeavesAlone(known.idle, w, c, term) && AllHeld(stages, Successors(term), c))
  }

  /**
  A block that holds the object carries it to its end; there a call frees it, or the terminator leaves it alone and
  every successor finds it in the same local. A block past that point forgets none of the locals of `w`. Either may go
  on to blocks that never return.
  */
  ghost predicate BlockForwards(known: Known, w: set<Local>, stages: seq<Stage>, block: BasicBlock, stage: Stage) {
    if stage.Lost? then AllLost(stages, Successors(block.term)) && !block.term.Return?
    else
      && StayIn(w, block.stmts) && TerminatorStaysIn(w, block.term)
      && if stage.Gone? then AllGone(stages, Successors(block.term)) && ForgetsNone(w, block.term)
         else
           && Carries(block.stmts, w, stage.path) && !block.term.Return?
           && PassesOn(known, w, stages, stage.path[|block.stmts|], block.term)
  }

  ghost predicate CanReturn(body: Body) {
    exists q :: T.IsPath(body, q) && body.blocks[q[|q| - 1]].term.Return?
  }

  /** Every path from the entry to a `Return` hands parameter `k` to a freeing call; `stages` is the certificate. */
  ghost predicate Forwards(body: Body, k: nat, w: set<Local>, stages: seq<Stage>, known: Known) {
    && WellFormed(body) && Small(body) && FewParams(body) && IsPointerParam(body, k) && CanReturn(body)
    && |stages| == |body.blocks| && stages[0].Held? && stages[0].path != [] && stages[0].path[0] == k + 1 && k + 1 in w
    && forall b :: 0 <= b < |body.blocks| ==> BlockForwards(known, w, stages, body.blocks[b], stages[b])
  }

  /** The summaries are as the body counts on. */
  predicate Achieved(sums: SummaryMap, known: Known) {
    (forall g <- known.frees :: g.0 in sums && Frees(sums[g.0], g.1)) && Effectless(sums, known.idle)
  }

  lemma SeedReady(body: Body, k: nat, w: set<Local>)
    requires FewParams(body) && IsPointerParam(body, k) && k + 1 in w
    ensures Sane(Seed(body).own) && Ready(Seed(body).own, w, k + 1, ParamId(k)) && ParamId(k) == SUMMARY_BASE + k
  {
    SeedExact(body);
    var s := Seed(body).own;
    forall l: Local | ParamId(k) in Get(s.pointsTo, l) ensures l in w {
      assert ParamId(l - 1) == SUMMARY_BASE + (l - 1);
    }
  }

  // ----- the invariant -----

  ghost predicate StageHolds(w: set<Local>, stages: seq<Stage>, id: ObjectId, b: Block, s: Ownership) {
    && Sane(s) && b < |stages|
    && match stages[b]
       case Held(path) => path != [] && Ready(s, w, path[0], id)
       case Gone => Within(s, w, id) && Freed(s, id)
       case Lost => true
  }

  ghost function StageInv(w: set<Local>, stages: seq<Stage>, id: ObjectId): (Block, BlockState) -> bool {
    (b: Block, s: BlockState) => StageHolds(w, stages, id, b, s.own)
  }

  lemma WithinJoin(s: Ownership, t: Ownership, w: set<Local>, id: ObjectId)
    requires Within(s, w, id) && Within(t, w, id)
    ensures Within(JoinOwn(s, t), w, id)
  {
    forall l: Local | id in Get(JoinOwn(s, t).pointsTo, l) ensures l in w {
      assert id in Get(s.pointsTo, l) || id in Get(t.pointsTo, l);
    }
  }

  lemma StageJoin(w: set<Local>, stages: seq<Stage>, id: ObjectId, b: Block, s: Ownership, t: Ownership)
    requires StageHolds(w, stages, id, b, s) && StageHolds(w, stages, id, b, t)
    ensures StageHolds(w, stages, id, b, JoinOwn(s, t))
  {
    JoinKeeps(s, t);
    if !stages[b].Lost? { WithinJoin(s, t, w, id); }
  }

  lemma SpreadHeld(w: set<Local>, stages: seq<Stage>, id: ObjectId, succs: seq<Block>, c: Local, s: Ownership)
    requires Sane(s) && Ready(s, w, c, id) && AllHeld(stages, succs, c)
    ensures forall succ <- succs :: StageHolds(w, stages, id, succ, s)
  {
  }

  lemma SpreadGone(w: set<Local>, stages: seq<Stage>, id: ObjectId, succs: seq<Block>, s: Ownership)
    requires Sane(s) && Within(s, w, id) && Freed(s, id) && AllGone(stages, succs)
    ensures forall succ <- succs :: StageHolds(w, stages, id, succ, s)
  {
  }

  lemma PassedOn(body: Body, sums: SummaryMap, known: Known, w: set<Local>, stages: seq<Stage>, b: Block, s: Ownership, c: Local, term: Terminator, id: ObjectId)
    requires Achieved(sums, known) && PassesOn(known, w, stages, c, term) && TerminatorStaysIn(w, term)
    requires Named(s) && Ready(s, w, c, id) && SUMMARY_BASE <= id && b < LIMIT && Sane(ApplyTerminator(body, sums, s, b, term))
    ensures forall succ <- Successors(term) :: StageHolds(w, stages, id, succ, ApplyTerminator(body, sums, s, b, term))
  {
    var s' := ApplyTerminator(body, sums, s, b, term);
    if Releases(known, w, c, term) && AllGone(stages, Successors(term)) {
      var pos: nat :| HandsOver(w, c, term.args, pos) && FreesVia(known, term.callee.value, pos);
      HandedOver(body, sums, s, b, term, w, c, pos, id);
      SpreadGone(w, stages, id, Successors(term), s');
    } else {
      TerminatorReady(body, sums, s, b, term, known.idle, w, c, id);
      SpreadHeld(w, stages, id, Successors(term), c, s');
    }
  }

  lemma HeldAlong(body: Body, sums: SummaryMap, known: Known, w: set<Local>, stages: seq<Stage>, b: Block, s: Ownership, path: seq<Local>, id: ObjectId)
    requires Small(body) && b < |body.blocks| && Achieved(sums, known) && SUMMARY_BASE <= id
    requires BlockForwards(known, w, stages, body.blocks[b], Held(path)) && Sane(s) && Ready(s, w, path[0], id)
    ensures forall succ <- Successors(body.blocks[b].term) ::
              StageHolds(w, stages, id, succ, O.Along(body, sums, b, body.blocks[b], s))
  {
    var block := body.blocks[b];
    AlongKeeps(body, sums, b, s);
    ReplayKeeps(body, s, block.stmts);
    ReplayReady(body, s, block.stmts, w, path, id);
    PassedOn(body, sums, known, w, stages, b, O.Replay(body, s, block.stmts), path[|block.stmts|], block.term, id);
  }

  lemma GoneAlong(body: Body, sums: SummaryMap, known: Known, w: set<Local>, stages: seq<Stage>, b: Block, s: Ownership, id: ObjectId)
    requires Small(body) && b < |body.blocks| && SUMMARY_BASE <= id
    requires BlockForwards(known, w, stages, body.blocks[b], Gone) && Sane(s) && Within(s, w, id) && Freed(s, id)
    ensures forall succ <- Successors(body.blocks[b].term) ::
              StageHolds(w, stages, id, succ, O.Along(body, sums, b, body.blocks[b], s))
  {
    var block := body.blocks[b];
    AlongKeeps(body, sums, b, s);
    ReplayKeeps(body, s, block.stmts);
    ReplayWithin(body, s, block.stmts, w, id);
    ReplayKeepsFreed(body, s, block.stmts, id);
    StaysFreed(body, sums, O.Replay(body, s, block.stmts), b, block.term, w, id);
    SpreadGone(w, stages, id, Successors(block.term), O.Along(body, sums, b, block, s));
  }

  lemma StageAlong(body: Body, sums: SummaryMap, known: Known, w: set<Local>, stages: seq<Stage>, b: Block, s: Ownership, id: ObjectId)
    requires Small(body) && b < |body.blocks| == |stages| && Achieved(sums, known) && SUMMARY_BASE <= id
    requires BlockForwards(known, w, stages, body.blocks[b], stages[b]) && StageHolds(w, stages, id, b, s)
    ensures forall succ <- Successors(body.blocks[b].term) ::
              StageHolds(w, stages, id, succ, O.Along(body, sums, b, body.blocks[b], s))
  {
    match stages[b]
    case Held(path) => HeldAlong(body, sums, known, w, stages, b, s, path, id);
    case Gone => GoneAlong(body, sums, known, w, stages, b, s, id);
    case Lost => AlongKeeps(body, sums, b, s);
  }

  lemma StagePreserved(body: Body, sums: SummaryMap, k: nat, w: set<Local>, stages: seq<Stage>, known: Known)
    requires Forwards(body, k, w, stages, known) && Achieved(sums, known)
    ensures T.PreservedAt(body, sums, Seed(body), StageInv(w, stages, ParamId(k)))
  {
    var inv := StageInv(w, stages, ParamId(k));
    SeedReady(body, k, w);
    forall b, succ, s | 0 <= b < |body.blocks| && succ in Successors(body.blocks[b].term) && inv(b, s)
      ensures inv(succ, T.Along(body, sums, b, succ, s))
    {
      StageAlong(body, sums, known, w, stages, b, s.own, ParamId(k));
    }
    forall b: Block, s, t | inv(b, s) && inv(b, t) ensures inv(b, Join(s, t)) {
      StageJoin(w, stages, ParamId(k), b, s.own, t.own);
    }
  }

  lemma StageAt(body: Body, sums: SummaryMap, es: Entries<BlockState>, k: nat, w: set<Local>, stages: seq<Stage>, known: Known, b: Block)
    requires Forwards(body, k, w, stages, known) && Achieved(sums, known)
    requires es == T.FlowFrom(body, sums, Seed(body)) && b < |es| && es[b].Some?
    ensures StageHolds(w, stages, ParamId(k), b, es[b].value.own)
  {
    var inv := StageInv(w, stages, ParamId(k));
    StagePreserved(body, sums, k, w, stages, known);
    T.FlowInvariantAt(body, sums, Seed(body), inv);
    assert inv(b, es[b].value);
  }

  lemma FreedAtReturns(body: Body, sums: SummaryMap, es: Entries<BlockState>, k: nat, w: set<Local>, stages: seq<Stage>, known: Known)
    requires Forwards(body, k, w, stages, known) && Achieved(sums, known)
    requires es == T.FlowFrom(body, sums, Seed(body))
    ensures AtReturns(body, es, ParamId(k), Reconstituted)
  {
    forall b: Block | ReturnsAt(body, es, b)
      ensures ParamId(k) in HeapBefore(body, es, b) && HeapBefore(body, es, b)[ParamId(k)] == Reconstituted
    {
      StageAt(body, sums, es, k, w, stages, known, b);
      assert BlockForwards(known, w, stages, body.blocks[b], stages[b]);
      ReplayKeepsFreed(body, es[b].value.own, body.blocks[b].stmts, ParamId(k));
    }
  }

  lemma ReturnReached(body: Body, sums: SummaryMap, es: Entries<BlockState>)
    requires WellFormed(body) && CanReturn(body) && es == T.FlowFrom(body, sums, Seed(body))
    ensures Returns(body, es)
  {
    var q :| T.IsPath(body, q) && body.blocks[q[|q| - 1]].term.Return?;
    T.FlowReaches(body, sums, Seed(body), q);
    assert ReturnsAt(body, es, q[|q| - 1]);
  }

  /**
  A body that hands its parameter, on every path to a `Return`, to a call that frees it is summarised as freeing it:
  across branches, joins, loops and other calls before the freeing call, and any graph after it.
  */
  lemma ForwardingFrees(body: Body, sums: SummaryMap, k: nat, w: set<Local>, stages: seq<Stage>, known: Known)
    requires Forwards(body, k, w, stages, known) && Achieved(sums, known)
    ensures Frees(SummaryOfBody(body, sums), k)
  {
    var es := T.FlowFrom(body, sums, Seed(body));
    FreedAtReturns(body, sums, es, k, w, stages, known);
    ReturnReached(body, sums, es);
    SummaryExact(body, sums, es, k);
  }

  // ----- the call graph -----

  /** Function `def` frees parameter `param` through calls of functions of smaller depth. */
  datatype Link = Link(def: nat, param: nat, depth: nat, idle: set<nat>, w: set<Local>, stages: seq<Stage>)

  function Shallower(links: seq<Link>, depth: nat): set<(nat, nat)> {
    set i | 0 <= i < |links| && links[i].depth < depth :: (links[i].def, links[i].param)
  }

  function Trusted(links: seq<Link>, link: Link): Known { Known(Shallower(links, link.depth), link.idle) }

  /** A link of depth 0 frees through `from_raw` only, every other one through that or links of smaller depth. */
  ghost predicate IsLink(c: Crate, todo: seq<nat>, links: seq<Link>, i: nat)
    requires Rounds.Valid(c, todo) && i < |links|
  {
    var link := links[i];
    && link.def in todo && link.def in c.isLocal
    && (forall d <- link.idle :: d !in todo || d !in c.isLocal)
    && Forwards(c.bodies[link.def], link.param, link.w, link.stages, Trusted(links, link))
  }

  ghost predicate Links(c: Crate, todo: seq<nat>, links: seq<Link>) {
    Rounds.Valid(c, todo) && forall i :: 0 <= i < |links| ==> IsLink(c, todo, links, i)
  }

  /** The map says that the function of the link frees the parameter of the link. */
  predicate FreedBy(sums: SummaryMap, link: Link) { link.def in sums && Frees(sums[link.def], link.param) }

  /** No summary of an external function has a heap effect, and no other function gets one. */
  lemma {:induction false} ExternalIsIdle(c: Crate, todo: seq<nat>, rounds: nat, d: nat)
    requires Rounds.Valid(c, todo) && (d !in todo || d !in c.isLocal)
    ensures var sums := After(c, todo, rounds); d in sums ==> d in todo && sums[d].effects == []
  {
    if rounds > 0 {
      ExternalIsIdle(c, todo, rounds - 1, d);
      AfterNext(c, todo, rounds);
      PassAt(todo, Found(c, todo, After(c, todo, rounds - 1)), After(c, todo, rounds - 1), d);
    }
  }

  lemma IdleAfter(c: Crate, todo: seq<nat>, links: seq<Link>, i: nat, rounds: nat)
    requires Links(c, todo, links) && i < |links|
    ensures Effectless(After(c, todo, rounds), links[i].idle)
  {
    assert IsLink(c, todo, links, i);
    forall d <- links[i].idle ensures d in After(c, todo, rounds) ==> After(c, todo, rounds)[d].effects == [] {
      ExternalIsIdle(c, todo, rounds, d);
    }
  }

  lemma LinkFreed(c: Crate, todo: seq<nat>, snap: SummaryMap, links: seq<Link>, i: nat)
    requires Links(c, todo, links) && i < |links| && Achieved(snap, Trusted(links, links[i]))
    ensures FreedBy(Round(c, todo, snap), links[i])
  {
    var link := links[i];
    assert IsLink(c, todo, links, i);
    ForwardingFrees(c.bodies[link.def], snap, link.param, link.w, link.stages, Trusted(links, link));
    RoundAt(c, todo, snap, link.def);
  }

  /** A function at depth `d` is summarised as freeing its parameter from round `d + 1` on. */
  lemma {:induction false} LinkAfter(c: Crate, todo: seq<nat>, links: seq<Link>, i: nat, rounds: nat)
    requires Links(c, todo, links) && i < |links| && links[i].depth < rounds
    ensures FreedBy(After(c, todo, rounds), links[i])
    decreases rounds
  {
    var snap := After(c, todo, rounds - 1);
    forall g <- Shallower(links, links[i].depth) ensures g.0 in snap && Frees(snap[g.0], g.1) {
      var j :| 0 <= j < |links| && links[j].depth < links[i].depth && g == (links[j].def, links[j].param);
      LinkAfter(c, todo, links, j, rounds - 1);
    }
    IdleAfter(c, todo, links, i, rounds - 1);
    AfterNext(c, todo, rounds);
    LinkFreed(c, todo, snap, links, i);
  }

  /** At loop exit, every function at a depth below eight is summarised as freeing its parameter. */
  method SummarizeLinks(c: Crate, todo: seq<nat>, ghost links: seq<Link>) returns (sums: SummaryMap)
    requires Links(c, todo, links)
    ensures forall link <- links :: link.depth < MAX_SUMMARY_ROUNDS ==> FreedBy(sums, link)
  {
    var stable;
    sums, stable := RunRounds(c, todo);
    forall link <- links | link.depth < MAX_SUMMARY_ROUNDS ensures FreedBy(sums, link) {
      var i :| 0 <= i < |links| && links[i] == link;
      LinkAfter(c, todo, links, i, MAX_SUMMARY_ROUNDS);
    }
  }
}
