/** Capacity results for the computed flow: on every run, `has_spare` means len < capacity and `is_full` len == capacity. */
module CapFlow {
  import opened Mir
  import opened State
  import opened Engine
  import opened C = CapTransfer
  import opened CapMachine
  import opened CapSound
  import O = OwnTransfer
  import T = Transfer

  // ----- runs -----

  datatype Config = Config(bb: Block, at: nat, mem: Mem)

  ghost predicate Step(body: Body, c: Config, c': Config) {
    && c.bb < |body.blocks|
    && var block := body.blocks[c.bb];
       if c.at < |block.stmts| then c'.bb == c.bb && c'.at == c.at + 1 && StepStatement(body, block.stmts[c.at], c.mem, c'.mem)
       else c'.at == 0 && StepTerminator(body, block.term, c.mem, c'.bb, c'.mem)
  }

  /** A run from function entry: every parameter names a collection of its own, and no handle to it is anywhere else. */
  ghost predicate IsRun(body: Body, run: seq<Config>) {
    && 0 < |run| && run[0].bb == 0 && run[0].at == 0
    && (forall l: Local :: run[0].mem.target(l) == l && run[0].mem.carries(l) == {}) && run[0].mem.stored == {}
    && forall k :: 0 <= k < |run| - 1 ==> Step(body, run[k], run[k + 1])
  }

  // ----- the fragment -----

  /** Locals assigned by the first `n` statements. */
  function AvailableAt(avail: set<Local>, stmts: seq<Statement>): set<Local>
    decreases |stmts|
  {
    if stmts == [] then avail else AvailableAt(avail, stmts[..|stmts| - 1]) + Assigned(stmts[|stmts| - 1])
  }

  /** Measurements, and comparisons of measurements, that are still current after these statements. */
  function CurrentAt(plan: Plan, cur: set<Local>, stmts: seq<Statement>): set<Local>
    decreases |stmts|
  {
    if stmts == [] then cur else CurrentAfter(plan, CurrentAt(plan, cur, stmts[..|stmts| - 1]), stmts[|stmts| - 1])
  }

  predicate BlockFits(sc: Scope, avail: set<Local>, cur: set<Local>, block: BasicBlock) {
    && (forall i :: 0 <= i < |block.stmts| ==> StatementFits(sc, AvailableAt(avail, block.stmts[..i]), block.stmts[i]))
    && TerminatorFits(sc, AvailableAt(avail, block.stmts), CurrentAt(sc.plan, cur, block.stmts), block.term)
  }

  predicate EdgeFits(cert: Cert, b: Block, succ: Block) {
    var body := cert.scope.body;
    && b < |body.blocks| == |cert.avail| == |cert.cur| && succ < |cert.avail|
    && var block := body.blocks[b];
    && cert.avail[succ] <= AvailableOn(AvailableAt(cert.avail[b], block.stmts), block.term, succ)
    && cert.cur[succ] <= CurrentOn(cert.scope.plan, body, CurrentAt(cert.scope.plan, cert.cur[b], block.stmts), block.term, succ)
  }

  /** Per block, the locals assigned on every path to it, and those holding measurements current on every path to it. */
  datatype Cert = Cert(scope: Scope, avail: seq<set<Local>>, cur: seq<set<Local>>)

  /**
  Each local has the one purpose of the plan, is assigned before it is read; a branch on a comparison of two measurements
  comes before any mutable call on, or assignment of, the collections measured; and no unrecorded handle to one of them
  is given to a call, stored or dropped.
  */
  ghost predicate InFragment(body: Body, cert: Cert) {
    && WellFormed(body) && cert.scope.body == body && PlanOk(cert.scope)
    && |cert.avail| == |cert.cur| == |body.blocks| && cert.cur[0] == {}
    && (forall l <- cert.avail[0] :: IsParam(body, l) && cert.scope.plan(l).General?)
    && (forall b :: 0 <= b < |body.blocks| ==> BlockFits(cert.scope, cert.avail[b], cert.cur[b], body.blocks[b]))
    && (forall b, succ :: 0 <= b < |body.blocks| && succ in Successors(body.blocks[b].term) ==> EdgeFits(cert, b, succ))
  }

  // ----- blocks -----

  lemma {:induction false} ReplayAgrees(sc: Scope, avail: set<Local>, s: Capacities, stmts: seq<Statement>)
    requires Agrees(sc.plan, avail, s) && Scoped(sc, s)
    requires forall i :: 0 <= i < |stmts| ==> StatementFits(sc, AvailableAt(avail, stmts[..i]), stmts[i])
    ensures Agrees(sc.plan, AvailableAt(avail, stmts), Replay(s, stmts)) && Scoped(sc, Replay(s, stmts))
    decreases |stmts|
  {
    if stmts != [] {
      var n := |stmts| - 1;
      var init, last := stmts[..n], stmts[n];
      forall i | 0 <= i < n ensures StatementFits(sc, AvailableAt(avail, init[..i]), init[i]) {
        assert init[..i] == stmts[..i];
        assert StatementFits(sc, AvailableAt(avail, stmts[..i]), stmts[i]);
      }
      ReplayAgrees(sc, avail, s, init);
      StatementAgrees(sc, AvailableAt(avail, init), Replay(s, init), last);
    }
  }

  lemma StatementAgrees(sc: Scope, avail: set<Local>, s: Capacities, stmt: Statement)
    requires Agrees(sc.plan, avail, s) && Scoped(sc, s) && StatementFits(sc, avail, stmt)
    ensures Agrees(sc.plan, avail + Assigned(stmt), ApplyStatement(s, stmt)) && Scoped(sc, ApplyStatement(s, stmt))
  {
    if stmt.Assign? && stmt.dst.proj == [] {
      AssignAgrees(sc, avail, s, stmt.dst.local, stmt.rv);
      AssignScoped(sc, avail, s, stmt.dst.local, stmt.rv);
    } else {
      assert avail + Assigned(stmt) == avail;
    }
  }

  lemma AssignScoped(sc: Scope, avail: set<Local>, s: Capacities, d: Local, rv: Rvalue)
    requires Scoped(sc, s) && AssignFits(sc, avail, d, rv)
    ensures Scoped(sc, AssignLocal(s, d, rv))
  {
    var s1 := Kill(s, d);
    assert forall p <- s1.capProof :: p in s.capProof;
    if rv.Use? && OperandLocal(rv.op).Some? {
      var src := OperandLocal(rv.op).value;
      forall p <- Propagate(s1, d, src, rv.op.Move?).capProof ensures p.1 in sc.colls {
        if p !in s1.capProof { assert (p.0, src) in s1.capProof; }
      }
    }
  }

  lemma AlongAgrees(sc: Scope, avail: set<Local>, cur: set<Local>, b: Block, succ: Block, s: Capacities, later: set<Local>)
    requires PlanOk(sc) && b < |sc.body.blocks| && BlockFits(sc, avail, cur, sc.body.blocks[b]) && Agrees(sc.plan, avail, s) && Scoped(sc, s)
    requires later <= AvailableOn(AvailableAt(avail, sc.body.blocks[b].stmts), sc.body.blocks[b].term, succ)
    ensures var s' := Along(sc.body, sc.body.blocks[b], succ, s); Agrees(sc.plan, later, s') && Scoped(sc, s')
  {
    var block := sc.body.blocks[b];
    ReplayAgrees(sc, avail, s, block.stmts);
    TerminatorAgrees(sc, AvailableAt(avail, block.stmts), CurrentAt(sc.plan, cur, block.stmts), Replay(s, block.stmts), block.term, succ);
    FewerAgree(sc.plan, AvailableOn(AvailableAt(avail, block.stmts), block.term, succ), later, Along(sc.body, block, succ, s));
  }

  lemma JoinAgrees(sc: Scope, avail: set<Local>, a: Capacities, b: Capacities)
    requires Agrees(sc.plan, avail, a) && Agrees(sc.plan, avail, b) && Scoped(sc, a)
    ensures Agrees(sc.plan, avail, JoinCap(a, b)) && Scoped(sc, JoinCap(a, b))
  {
  }

  // ----- whole runs, against any solution -----

  ghost predicate EdgesClaim(body: Body, cs: seq<Option<Capacities>>)
    requires |cs| == |body.blocks|
  {
    forall b, succ :: 0 <= b < |cs| && cs[b].Some? && succ in Successors(body.blocks[b].term) ==>
      succ < |cs| && cs[succ].Some? && CapLeq(Along(body, body.blocks[b], succ, cs[b].value), cs[succ].value)
  }

  ghost predicate Solves(body: Body, cert: Cert, cs: seq<Option<Capacities>>) {
    && |cs| == |body.blocks| == |cert.avail| == |cert.cur| && 0 < |cs| && cs[0].Some? && cs[0].value.capProof == {}
    && EdgesClaim(body, cs)
    && (forall b :: 0 <= b < |cs| && cs[b].Some? ==> Agrees(cert.scope.plan, cert.avail[b], cs[b].value) && Scoped(cert.scope, cs[b].value))
  }

  ghost predicate PointSound(body: Body, cert: Cert, cs: seq<Option<Capacities>>, c: Config)
    requires |cs| == |body.blocks| == |cert.avail| == |cert.cur|
  {
    && c.bb < |cs| && cs[c.bb].Some? && c.at <= |body.blocks[c.bb].stmts|
    && var stmts := body.blocks[c.bb].stmts[..c.at];
       Sound(cert.scope, AvailableAt(cert.avail[c.bb], stmts), CurrentAt(cert.scope.plan, cert.cur[c.bb], stmts),
             Replay(cs[c.bb].value, stmts), c.mem)
  }

  lemma StatementPoint(body: Body, cert: Cert, cs: seq<Option<Capacities>>, c: Config, c': Config)
    requires InFragment(body, cert) && |cs| == |body.blocks|
    requires PointSound(body, cert, cs, c) && Step(body, c, c') && c.at < |body.blocks[c.bb].stmts|
    ensures PointSound(body, cert, cs, c')
  {
    var stmts := body.blocks[c.bb].stmts;
    assert BlockFits(cert.scope, cert.avail[c.bb], cert.cur[c.bb], body.blocks[c.bb]);
    assert stmts[..c'.at][..|stmts[..c'.at]| - 1] == stmts[..c.at];
    StatementSound(cert.scope, AvailableAt(cert.avail[c.bb], stmts[..c.at]), CurrentAt(cert.scope.plan, cert.cur[c.bb], stmts[..c.at]),
                   Replay(cs[c.bb].value, stmts[..c.at]), stmts[c.at], c.mem, c'.mem);
  }

  /** Along an edge the state claims less, and less is certified. */
  lemma WeakerSound(sc: Scope, avail: set<Local>, cur: set<Local>, s: Capacities, avail': set<Local>, cur': set<Local>, s': Capacities, m: Mem)
    requires Sound(sc, avail, cur, s, m) && avail' <= avail && cur' <= cur && CapLeq(s, s')
    requires Agrees(sc.plan, avail', s') && Scoped(sc, s')
    ensures Sound(sc, avail', cur', s', m)
  {
  }

  lemma TerminatorPoint(body: Body, cert: Cert, cs: seq<Option<Capacities>>, c: Config, c': Config)
    requires InFragment(body, cert) && Solves(body, cert, cs)
    requires PointSound(body, cert, cs, c) && Step(body, c, c') && c.at == |body.blocks[c.bb].stmts|
    ensures PointSound(body, cert, cs, c')
  {
    var block, sc := body.blocks[c.bb], cert.scope;
    var avail, cur, s := AvailableAt(cert.avail[c.bb], block.stmts), CurrentAt(sc.plan, cert.cur[c.bb], block.stmts), Replay(cs[c.bb].value, block.stmts);
    assert block.stmts[..c.at] == block.stmts;
    assert BlockFits(sc, cert.avail[c.bb], cert.cur[c.bb], block);
    TerminatorSound(sc, avail, cur, s, c.mem, c'.mem, block.term, c'.bb);
    assert body.blocks[c'.bb].stmts[..0] == [];
    assert EdgeFits(cert, c.bb, c'.bb);
    assert CapLeq(Along(body, block, c'.bb, cs[c.bb].value), cs[c'.bb].value);
    WeakerSound(sc, AvailableOn(avail, block.term, c'.bb), CurrentOn(sc.plan, body, cur, block.term, c'.bb),
                Along(body, block, c'.bb, cs[c.bb].value), cert.avail[c'.bb], cert.cur[c'.bb], cs[c'.bb].value, c'.mem);
  }

  lemma StartSound(body: Body, cert: Cert, cs: seq<Option<Capacities>>, c: Config)
    requires InFragment(body, cert) && Solves(body, cert, cs) && c.bb == 0 && c.at == 0
    requires (forall l: Local :: c.mem.target(l) == l && c.mem.carries(l) == {}) && c.mem.stored == {}
    ensures PointSound(body, cert, cs, c)
  {
    assert body.blocks[0].stmts[..0] == [];
    forall l: Local | l !in cert.scope.hands && c.mem.target(l) in cert.scope.colls ensures c.mem.target(l) == Base(cert.scope.plan, l) {
      assert c.mem.target(l) == l;
    }
  }

  lemma RunSound(body: Body, cert: Cert, cs: seq<Option<Capacities>>, run: seq<Config>)
    requires InFragment(body, cert) && Solves(body, cert, cs) && IsRun(body, run)
    ensures PointSound(body, cert, cs, run[|run| - 1])
  {
    if |run| == 1 {
      StartSound(body, cert, cs, run[0]);
    } else {
      var prefix := run[..|run| - 1];
      RunSound(body, cert, cs, prefix);
      var c, c' := prefix[|prefix| - 1], run[|run| - 1];
      assert Step(body, run[|run| - 2], run[|run| - 1]);
      if c.at < |body.blocks[c.bb].stmts| {
        StatementPoint(body, cert, cs, c, c');
      } else {
        TerminatorPoint(body, cert, cs, c, c');
      }
    }
  }

  // ----- the computed flow -----

  ghost function CapsOf(es: Entries<BlockState>): (cs: seq<Option<Capacities>>)
    ensures |cs| == |es|
  {
    seq(|es|, b requires 0 <= b < |es| => if es[b].Some? then Some(es[b].value.cap) else None)
  }

  ghost predicate AgreesAt(cert: Cert, b: Block, s: Capacities) {
    b < |cert.avail| && Agrees(cert.scope.plan, cert.avail[b], s) && Scoped(cert.scope, s)
  }

  ghost function AgreesInv(cert: Cert): (Block, BlockState) -> bool {
    (b: Block, s: BlockState) => AgreesAt(cert, b, s.cap)
  }

  lemma AgreesPreserved(body: Body, sums: O.SummaryMap, cert: Cert)
    requires InFragment(body, cert)
    ensures T.PreservedAt(body, sums, T.FlowInitial(body), AgreesInv(cert))
  {
    var inv := AgreesInv(cert);
    assert inv(0, T.FlowInitial(body));
    forall b, succ, s | 0 <= b < |body.blocks| && succ in Successors(body.blocks[b].term) && inv(b, s)
      ensures inv(succ, T.Along(body, sums, b, succ, s))
    {
      assert EdgeFits(cert, b, succ);
      AlongAgrees(cert.scope, cert.avail[b], cert.cur[b], b, succ, s.cap, cert.avail[succ]);
    }
    forall b: Block, s, t | inv(b, s) && inv(b, t) ensures inv(b, Join(s, t)) {
      JoinAgrees(cert.scope, cert.avail[b], s.cap, t.cap);
    }
  }

  lemma AgreesAtEntry(body: Body, sums: O.SummaryMap, cert: Cert, es: Entries<BlockState>, b: Block)
    requires InFragment(body, cert) && es == T.FlowFrom(body, sums, T.FlowInitial(body)) && b < |es| && es[b].Some?
    ensures Agrees(cert.scope.plan, cert.avail[b], es[b].value.cap) && Scoped(cert.scope, es[b].value.cap)
  {
    AgreesPreserved(body, sums, cert);
    T.FlowInvariantAt(body, sums, T.FlowInitial(body), AgreesInv(cert));
    assert AgreesInv(cert)(b, es[b].value);
  }

  lemma CapEdge(body: Body, sums: O.SummaryMap, initial: BlockState, es: Entries<BlockState>, b: Block, succ: Block)
    requires WellFormed(body) && es == T.FlowFrom(body, sums, initial)
    requires b < |es| && es[b].Some? && succ in Successors(body.blocks[b].term)
    ensures succ < |es| && es[succ].Some?
    ensures CapLeq(Along(body, body.blocks[b], succ, es[b].value.cap), es[succ].value.cap)
  {
    T.FlowEdge(body, sums, initial, b, succ);
  }

  lemma FlowEdgesClaim(body: Body, sums: O.SummaryMap, es: Entries<BlockState>)
    requires WellFormed(body) && es == T.FlowFrom(body, sums, T.FlowInitial(body))
    ensures EdgesClaim(body, CapsOf(es))
  {
    var cs := CapsOf(es);
    forall b, succ | 0 <= b < |cs| && cs[b].Some? && succ in Successors(body.blocks[b].term)
      ensures succ < |cs| && cs[succ].Some? && CapLeq(Along(body, body.blocks[b], succ, cs[b].value), cs[succ].value)
    {
      CapEdge(body, sums, T.FlowInitial(body), es, b, succ);
    }
  }

  lemma FlowStarts(body: Body, sums: O.SummaryMap, es: Entries<BlockState>)
    requires WellFormed(body) && es == T.FlowFrom(body, sums, T.FlowInitial(body))
    ensures es[0].Some? && es[0].value.cap.capProof == {}
  {
    T.FlowStart(body, sums, T.FlowInitial(body));
  }

  lemma FlowSolves(body: Body, sums: O.SummaryMap, cert: Cert, es: Entries<BlockState>)
    requires InFragment(body, cert) && es == T.FlowFrom(body, sums, T.FlowInitial(body))
    ensures Solves(body, cert, CapsOf(es))
  {
    var cs := CapsOf(es);
    FlowStarts(body, sums, es);
    FlowEdgesClaim(body, sums, es);
    forall b | 0 <= b < |cs| && cs[b].Some? ensures Agrees(cert.scope.plan, cert.avail[b], cs[b].value) && Scoped(cert.scope, cs[b].value) {
      AgreesAtEntry(body, sums, cert, es, b);
    }
  }

  lemma ProofsAtPoint(body: Body, sums: O.SummaryMap, cert: Cert, es: Entries<BlockState>, run: seq<Config>)
    requires InFragment(body, cert) && IsRun(body, run) && es == T.FlowFrom(body, sums, T.FlowInitial(body))
    ensures var c := run[|run| - 1];
            && c.bb < |es| && es[c.bb].Some? && c.at <= |body.blocks[c.bb].stmts|
            && ProofsHold(Replay(es[c.bb].value.cap, body.blocks[c.bb].stmts[..c.at]), c.mem)
  {
    FlowSolves(body, sums, cert, es);
    RunSound(body, cert, CapsOf(es), run);
  }

  /**
  Capacity proofs mean what they say: on every run of a body of the fragment, at every point, a collection with a spare proof has len < capacity and one with a full proof len == capacity.
  */
  lemma CapacityProofsHold(body: Body, sums: O.SummaryMap, cert: Cert, run: seq<Config>, b: Local)
    requires InFragment(body, cert) && IsRun(body, run)
    ensures var c, es := run[|run| - 1], T.FlowFrom(body, sums, T.FlowInitial(body));
            && c.bb < |es| && es[c.bb].Some? && c.at <= |body.blocks[c.bb].stmts|
            && var s := Replay(es[c.bb].value.cap, body.blocks[c.bb].stmts[..c.at]);
            && ((Spare, b) in s.capProof ==> c.mem.size(Length, b) < c.mem.size(Capacity, b))
            && ((Full, b) in s.capProof ==> c.mem.size(Length, b) == c.mem.size(Capacity, b))
  {
    ProofsAtPoint(body, sums, cert, T.FlowFrom(body, sums, T.FlowInitial(body)), run);
  }
}
