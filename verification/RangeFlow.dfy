/** Value-range soundness over whole runs: comparison facts, edge refinement, merging and the fixpoint together. */
module RangeFlow {
  import opened Mir
  import opened State
  import opened Machine
  import opened RangeSound
  import opened R = RangeTransfer

  // ----- when the edge verdict of a switch is right -----

  /** There is a 0 target, and no other value is sent to it unless `otherwise` is. */
  predicate ShapeOk(targets: seq<(nat, Block)>, otherwise: Block) {
    var zero := TargetOf(targets, 0);
    && zero.Some?
    && forall i :: 0 <= i < |targets| && targets[i].0 != 0 && TargetOf(targets, targets[i].0) == zero ==> zero.value == otherwise
  }

  lemma TargetListed(targets: seq<(nat, Block)>, v: nat)
    requires TargetOf(targets, v).Some?
    ensures exists i :: 0 <= i < |targets| && targets[i].0 == v
  {
    if targets[0].0 != v {
      TargetListed(targets[1..], v);
      var i :| 0 <= i < |targets[1..]| && targets[1..][i].0 == v;
      assert targets[i + 1].0 == v;
    }
  }

  /**
  The truth value assumed on an edge agrees with every discriminant sent along it if and only if the switch has
  that shape: `find(0)`/`otherwise` alone do not make an edge the true or the false one.
  */
  lemma VerdictExact(targets: seq<(nat, Block)>, otherwise: Block)
    ensures ShapeOk(targets, otherwise) <==>
            forall v: nat :: var verdict := EdgeVerdict(targets, otherwise, Route(targets, otherwise, v));
                             verdict.Some? ==> (verdict.value <==> v != 0)
  {
    var zero := TargetOf(targets, 0);
    if ShapeOk(targets, otherwise) {
      forall v: nat
        ensures var verdict := EdgeVerdict(targets, otherwise, Route(targets, otherwise, v));
                verdict.Some? ==> (verdict.value <==> v != 0)
      {
        if v != 0 && TargetOf(targets, v) == zero {
          TargetListed(targets, v);
        }
      }
    } else if zero.None? {
      assert EdgeVerdict(targets, otherwise, Route(targets, otherwise, 0)) == Some(true);
    } else {
      var i :| 0 <= i < |targets| && targets[i].0 != 0 && TargetOf(targets, targets[i].0) == zero && zero.value != otherwise;
      assert EdgeVerdict(targets, otherwise, Route(targets, otherwise, targets[i].0)) == Some(false);
    }
  }

  // ----- comparison facts -----

  /** The facts recorded for the temporary `d` are exactly those of `p`. */
  ghost predicate Keyed(s: Ranges, d: Local, p: Promise) {
    && (forall r :: (r, d) in s.constIf <==> p.bound.Some? && p.bound.value.0 == r)
    && (p.bound.Some? ==> s.constIf[(p.bound.value.0, d)] == (p.bound.value.1, p.bound.value.2))
    && (forall t :: (t, d) in s.nonzeroIf <==> p.nonzero.Some? && p.nonzero.value.0 == t)
    && (p.nonzero.Some? ==> s.nonzeroIf[(p.nonzero.value.0, d)] == p.nonzero.value.1)
    && (forall t :: (t, d) in s.pairIf <==> p.pair.Some? && p.pair.value.0 == t)
    && (p.pair.Some? ==> s.pairIf[(p.pair.value.0, d)] == (p.pair.value.1, p.pair.value.2))
  }

  lemma AssignKeys(body: Body, s: Ranges, x: Local, rv: Rvalue, d: Local, p: Promise)
    requires x == d ==> p == RvaluePromise(rv)
    requires x != d ==> Keyed(s, d, p)
    ensures Keyed(AssignLocal(body, s, x, rv), d, p)
  {
  }

  /** The promise holds of the values, knowing the comparison evaluated to `truth`. */
  ghost predicate PromiseHolds(body: Body, e: Env, p: Promise, truth: bool) {
    && |e| == |body.tys|
    && (p.bound.Some? ==>
          var (r, l, k) := p.bound.value; ScalarLocal(body, l) ==> (Compare(r, e[l].bits, k) <==> truth))
    && (p.nonzero.Some? && p.nonzero.value.0 == truth ==>
          var l := p.nonzero.value.1; ScalarLocal(body, l) ==> e[l].bits != 0)
    && (p.pair.Some? ==>
          var (q, a, b) := p.pair.value;
          ScalarLocal(body, a) && ScalarLocal(body, b) ==> (e[a].bits == e[b].bits <==> q == truth))
  }

  ghost predicate BoundsTrue(body: Body, e: Env, s: Ranges, d: Local, truth: bool) {
    && |e| == |body.tys|
    && forall r :: (r, d) in s.constIf && ScalarLocal(body, s.constIf[(r, d)].0) ==>
         (Compare(r, e[s.constIf[(r, d)].0].bits, s.constIf[(r, d)].1) <==> truth)
  }

  ghost predicate PairsTrue(body: Body, e: Env, s: Ranges, d: Local, truth: bool) {
    && |e| == |body.tys|
    && forall q :: (q, d) in s.pairIf && ScalarLocal(body, s.pairIf[(q, d)].0) && ScalarLocal(body, s.pairIf[(q, d)].1) ==>
         (e[s.pairIf[(q, d)].0].bits == e[s.pairIf[(q, d)].1].bits <==> q == truth)
  }

  /** Everything recorded for `d` is true of the values, knowing the comparison evaluated to `truth`. */
  ghost predicate RecordTrue(body: Body, e: Env, s: Ranges, d: Local, truth: bool) {
    && BoundsTrue(body, e, s, d, truth) && PairsTrue(body, e, s, d, truth)
    && ((truth, d) in s.nonzeroIf && ScalarLocal(body, s.nonzeroIf[(truth, d)]) ==> e[s.nonzeroIf[(truth, d)]].bits != 0)
  }

  lemma KeyedTrue(body: Body, e: Env, s: Ranges, d: Local, p: Promise, truth: bool)
    requires Keyed(s, d, p) && PromiseHolds(body, e, p, truth)
    ensures RecordTrue(body, e, s, d, truth)
  {
  }

  ghost predicate SameKeys(s: Ranges, t: Ranges) {
    s.constIf == t.constIf && s.nonzeroIf == t.nonzeroIf && s.pairIf == t.pairIf
  }

  ghost predicate SameTaints(s: Ranges, t: Ranges) {
    s.mulOverflow == t.mulOverflow && s.layoutOverflow == t.layoutOverflow
  }

  lemma TightenSound(body: Body, e: Env, s: Ranges, rel: Rel, l: Local, k: U64)
    requires Holds(body, e, s) && Typed(body, e)
    requires ScalarLocal(body, l) ==> Compare(rel, e[l].bits, k)
    ensures Holds(body, e, Tighten(s, rel, l, k))
  {
    var s' := Tighten(s, rel, l, k);
    forall x: Local | ScalarLocal(body, x) ensures FactHolds(FactOf(s', x), e[x]) {
      assert FactHolds(FactOf(s, x), e[x]) && HasType(e[x], body.tys[x]);
    }
  }

  lemma TightenBySound(body: Body, e: Env, s: Ranges, rel: Rel, d: Local, truth: bool)
    requires Holds(body, e, s) && Typed(body, e) && BoundsTrue(body, e, s, d, truth)
    ensures Holds(body, e, TightenBy(s, rel, d, truth))
  {
    if (rel, d) in s.constIf {
      var (l, k) := s.constIf[(rel, d)];
      assert ScalarLocal(body, l) ==> Compare(if truth then rel else Negate(rel), e[l].bits, k);
      TightenSound(body, e, s, if truth then rel else Negate(rel), l, k);
    }
  }

  lemma TightenAllSound(body: Body, e: Env, s: Ranges, rels: seq<Rel>, d: Local, truth: bool)
    requires Holds(body, e, s) && Typed(body, e) && BoundsTrue(body, e, s, d, truth)
    ensures Holds(body, e, TightenAll(s, rels, d, truth))
    decreases |rels|
  {
    if rels != [] {
      TightenBySound(body, e, s, rels[0], d, truth);
      TightenAllSound(body, e, TightenBy(s, rels[0], d, truth), rels[1..], d, truth);
    }
  }

  lemma PairBySound(body: Body, e: Env, s: Ranges, isEq: bool, d: Local, truth: bool)
    requires Holds(body, e, s) && PairsTrue(body, e, s, d, truth)
    ensures Holds(body, e, PairBy(s, isEq, d, truth))
  {
    var s' := PairBy(s, isEq, d, truth);
    assert LocalsHold(body, e, s') by {
      forall x: Local | ScalarLocal(body, x) ensures FactHolds(FactOf(s', x), e[x]) {
        assert FactHolds(FactOf(s, x), e[x]);
      }
    }
  }

  lemma NonzeroSound(body: Body, e: Env, s: Ranges, l: Local)
    requires Holds(body, e, s) && (ScalarLocal(body, l) ==> e[l].bits != 0)
    ensures Holds(body, e, s.(nonzero := s.nonzero + {l}))
  {
    var s' := s.(nonzero := s.nonzero + {l});
    forall x: Local | ScalarLocal(body, x) ensures FactHolds(FactOf(s', x), e[x]) {
      assert FactHolds(FactOf(s, x), e[x]);
    }
  }

  lemma TightenKeys(s: Ranges, rels: seq<Rel>, d: Local, truth: bool)
    ensures SameKeys(s, TightenAll(s, rels, d, truth)) && SameTaints(s, TightenAll(s, rels, d, truth))
    decreases |rels|
  {
    if rels != [] { TightenKeys(TightenBy(s, rels[0], d, truth), rels[1..], d, truth); }
  }

  lemma RefineKeys(s: Ranges, d: Local, truth: bool)
    ensures SameKeys(s, Refine(s, d, truth)) && SameTaints(s, Refine(s, d, truth))
  {
    var s1 := if (truth, d) in s.nonzeroIf then s.(nonzero := s.nonzero + {s.nonzeroIf[(truth, d)]}) else s;
    TightenKeys(s1, [Lt, Le, Gt, Ge], d, truth);
  }

  /** If everything recorded for the comparison is true, so is everything the edge adds. */
  lemma RefineSound(body: Body, e: Env, s: Ranges, d: Local, truth: bool)
    requires Holds(body, e, s) && Typed(body, e) && RecordTrue(body, e, s, d, truth)
    ensures Holds(body, e, Refine(s, d, truth))
  {
    var s1 := if (truth, d) in s.nonzeroIf then s.(nonzero := s.nonzero + {s.nonzeroIf[(truth, d)]}) else s;
    if (truth, d) in s.nonzeroIf { NonzeroSound(body, e, s, s.nonzeroIf[(truth, d)]); }
    TightenAllSound(body, e, s1, [Lt, Le, Gt, Ge], d, truth);
    TightenKeys(s1, [Lt, Le, Gt, Ge], d, truth);
    var s2 := TightenAll(s1, [Lt, Le, Gt, Ge], d, truth);
    PairBySound(body, e, s2, false, d, truth);
    PairBySound(body, e, PairBy(s2, false, d, truth), true, d, truth);
  }

  // ----- the comparison a temporary holds inside one block -----

  predicate Uses(rv: Rvalue, l: Local) {
    rv.Binary? && (OperandLocal(rv.op1) == Some(l) || OperandLocal(rv.op2) == Some(l))
  }

  /** The comparison computed into `d` by these statements, if neither it nor its operands are rewritten after it. */
  function LastCmp(stmts: seq<Statement>, d: Local): Option<Rvalue>
    decreases |stmts|
  {
    if stmts == [] then None
    else
      var stmt, before := stmts[|stmts| - 1], LastCmp(stmts[..|stmts| - 1], d);
      if stmt.Nop? || stmt.dst.proj != [] then before
      else if stmt.dst.local == d then
        if stmt.rv.Binary? && IsCmp(stmt.rv.bop) && !Uses(stmt.rv, d) then Some(stmt.rv) else None
      else if before.Some? && Uses(before.value, stmt.dst.local) then None
      else before
  }

  ghost predicate CmpHolds(body: Body, e: Env, d: Local, rv: Rvalue) {
    && |e| == |body.tys| && ScalarLocal(body, d)
    && rv.Binary? && IsCmp(rv.bop) && OperandOk(body, rv.op1) && OperandOk(body, rv.op2)
    && exists x, y :: OperandMay(e, rv.op1, x) && OperandMay(e, rv.op2, y) && (EvalCmp(rv.bop, x.bits, y.bits) <==> e[d].bits != 0)
  }

  lemma PromiseFollows(body: Body, e: Env, d: Local, rv: Rvalue)
    requires CmpHolds(body, e, d, rv)
    ensures PromiseHolds(body, e, RvaluePromise(rv), e[d].bits != 0)
  {
    var x, y :| OperandMay(e, rv.op1, x) && OperandMay(e, rv.op2, y) && (EvalCmp(rv.bop, x.bits, y.bits) <==> e[d].bits != 0);
  }

  ghost predicate CmpsTracked(body: Body, e: Env, s: Ranges, stmts: seq<Statement>) {
    forall d: Local :: ScalarLocal(body, d) && LastCmp(stmts, d).Some? ==>
      CmpHolds(body, e, d, LastCmp(stmts, d).value) && Keyed(s, d, RvaluePromise(LastCmp(stmts, d).value))
  }

  /** An operand that is not the destination keeps its bits, moved from or not. */
  lemma OperandStays(body: Body, stmt: Statement, e: Env, e': Env, op: Operand, x: Val) returns (x': Val)
    requires StepStatement(body, stmt, e, e') && OperandOk(body, op) && OperandMay(e, op, x)
    requires stmt.Assign? && stmt.dst.proj == [] ==> OperandLocal(op) != Some(stmt.dst.local)
    ensures OperandMay(e', op, x') && x'.bits == x.bits
  {
    x' := if OperandLocal(op).Some? then e'[OperandLocal(op).value] else x;
  }

  lemma CmpStays(body: Body, stmt: Statement, e: Env, e': Env, d: Local, rv: Rvalue)
    requires CmpHolds(body, e, d, rv) && StepStatement(body, stmt, e, e')
    requires stmt.Assign? && stmt.dst.proj == [] ==> stmt.dst.local != d && !Uses(rv, stmt.dst.local)
    ensures CmpHolds(body, e', d, rv)
  {
    var x, y :| OperandMay(e, rv.op1, x) && OperandMay(e, rv.op2, y) && (EvalCmp(rv.bop, x.bits, y.bits) <==> e[d].bits != 0);
    var x' := OperandStays(body, stmt, e, e', rv.op1, x);
    var y' := OperandStays(body, stmt, e, e', rv.op2, y);
    assert e'[d].bits == e[d].bits;
  }

  lemma CmpFresh(body: Body, stmt: Statement, e: Env, e': Env)
    requires stmt.Assign? && stmt.dst.proj == [] && ScalarLocal(body, stmt.dst.local)
    requires stmt.rv.Binary? && IsCmp(stmt.rv.bop) && !Uses(stmt.rv, stmt.dst.local)
    requires StatementOk(body, stmt) && StepStatement(body, stmt, e, e')
    ensures CmpHolds(body, e', stmt.dst.local, stmt.rv)
  {
    var d, rv := stmt.dst.local, stmt.rv;
    var x, y :| OperandMay(e, rv.op1, x) && OperandMay(e, rv.op2, y) && BinaryResult(rv.bop, body.tys[d], x, y, e'[d]);
    var x' := OperandStays(body, stmt, e, e', rv.op1, x);
    var y' := OperandStays(body, stmt, e, e', rv.op2, y);
  }

  lemma CmpsStep(body: Body, e: Env, s: Ranges, stmts: seq<Statement>, stmt: Statement, e': Env)
    requires CmpsTracked(body, e, s, stmts) && StatementOk(body, stmt) && StepStatement(body, stmt, e, e')
    ensures CmpsTracked(body, e', ApplyStatement(body, s, stmt), stmts + [stmt])
  {
    var all, s' := stmts + [stmt], ApplyStatement(body, s, stmt);
    assert all[..|all| - 1] == stmts;
    forall d: Local | ScalarLocal(body, d) && LastCmp(all, d).Some?
      ensures CmpHolds(body, e', d, LastCmp(all, d).value) && Keyed(s', d, RvaluePromise(LastCmp(all, d).value))
    {
      var rv := LastCmp(all, d).value;
      if stmt.Assign? && stmt.dst.proj == [] {
        if stmt.dst.local == d { CmpFresh(body, stmt, e, e'); } else { CmpStays(body, stmt, e, e', d, rv); }
        AssignKeys(body, s, stmt.dst.local, stmt.rv, d, RvaluePromise(rv));
      } else {
        CmpStays(body, stmt, e, e', d, rv);
      }
    }
  }

  // ----- comparisons made by calls -----

  /**
  Evidence that branches on the result of an `eq` or `ne` call are right. `pairs[d] == (t, a, b)`: the calls into `d`
  say whether `a == b` is `t`. `live[b]`: those still true on every path into block `b`.
  */
  datatype Evidence = Evidence(pairs: map<Local, (bool, Local, Local)>, live: seq<set<Local>>)

  predicate PairsOk(body: Body, ev: Evidence) {
    forall d <- ev.pairs.Keys ::
      var (_, a, b) := ev.pairs[d];
      ScalarLocal(body, d) && ScalarLocal(body, a) && ScalarLocal(body, b) && d != a && d != b
  }

  /** Writing `x` ends the life of every comparison it takes part in. */
  function Outlive(ev: Evidence, live: set<Local>, x: Local): set<Local> {
    set d | d in live && d in ev.pairs && x != d && x != ev.pairs[d].1 && x != ev.pairs[d].2
  }

  function LiveAt(ev: Evidence, live: set<Local>, stmts: seq<Statement>): set<Local>
    decreases |stmts|
  {
    if stmts == [] then live
    else
      var before, stmt := LiveAt(ev, live, stmts[..|stmts| - 1]), stmts[|stmts| - 1];
      if stmt.Assign? && stmt.dst.proj == [] then Outlive(ev, before, stmt.dst.local) else before
  }

  /** The comparison of two scalars, given by value, that a call reports truthfully. */
  function Reported(body: Body, term: Terminator): Option<(bool, Local, Local)> {
    if term.Call? && term.callee.Some? && term.dest.proj == [] && term.callee.value.comparison.Some?
       && ComparedArgs(body, term.args).Some?
    then
      var (a, b) := ComparedArgs(body, term.args).value;
      Some((term.callee.value.comparison.value, a, b))
    else None
  }

  function LiveOut(body: Body, ev: Evidence, live: set<Local>, term: Terminator): set<Local> {
    if !term.Call? || term.dest.proj != [] then live
    else
      var d := term.dest.local;
      Outlive(ev, live, d) +
      (if d in ev.pairs && Reported(body, term) == Some(ev.pairs[d]) && term.callee.value.honest then {d} else {})
  }

  ghost predicate LiveHolds(body: Body, ev: Evidence, e: Env, live: set<Local>) {
    && |e| == |body.tys|
    && forall d <- live :: d in ev.pairs &&
         var (t, a, b) := ev.pairs[d];
         d < |e| && a < |e| && b < |e| && (e[d].bits != 0 <==> (e[a].bits == e[b].bits) == t)
  }

  lemma LiveStep(body: Body, ev: Evidence, e: Env, live: set<Local>, stmt: Statement, e': Env)
    requires PairsOk(body, ev) && LiveHolds(body, ev, e, live) && StepStatement(body, stmt, e, e')
    ensures LiveHolds(body, ev, e', if stmt.Assign? && stmt.dst.proj == [] then Outlive(ev, live, stmt.dst.local) else live)
  {
    var live' := if stmt.Assign? && stmt.dst.proj == [] then Outlive(ev, live, stmt.dst.local) else live;
    forall d <- live' ensures var (t, a, b) := ev.pairs[d]; e'[d].bits != 0 <==> (e'[a].bits == e'[b].bits) == t {
      var (t, a, b) := ev.pairs[d];
      assert d in live && ScalarLocal(body, d) && ScalarLocal(body, a) && ScalarLocal(body, b);
      assert e'[d].bits == e[d].bits && e'[a].bits == e[a].bits && e'[b].bits == e[b].bits;
    }
  }

  /** What a terminator leaves alone. */
  function Overwritten(term: Terminator): set<Local> {
    if term.Call? && term.dest.proj == [] then {term.dest.local} else if term.Leave? then Written(term.outs) else {}
  }

  lemma TerminatorKept(body: Body, term: Terminator, e: Env, succ: Block, e': Env)
    requires StepTerminator(body, term, e, succ, e')
    ensures Kept(body, e, e', Overwritten(term))
  {
  }

  lemma LiveTerminator(body: Body, ev: Evidence, e: Env, live: set<Local>, term: Terminator, succ: Block, e': Env)
    requires PairsOk(body, ev) && LiveHolds(body, ev, e, live) && StepTerminator(body, term, e, succ, e')
    requires term.Leave? ==> forall i :: 0 <= i < |term.outs| && WritesLocal(term.outs[i]) ==> !ScalarLocal(body, term.outs[i].local)
    ensures LiveHolds(body, ev, e', LiveOut(body, ev, live, term))
  {
    TerminatorKept(body, term, e, succ, e');
    forall d <- LiveOut(body, ev, live, term)
      ensures d in ev.pairs && var (t, a, b) := ev.pairs[d];
              d < |e'| && a < |e'| && b < |e'| && (e'[d].bits != 0 <==> (e'[a].bits == e'[b].bits) == t)
    {
      if term.Call? && term.dest == Place(d, []) {
        ReportTrue(body, ev, e, term, succ, e');
      } else {
        LiveKept(body, ev, e, live, term, e', d);
      }
    }
  }

  lemma LiveKept(body: Body, ev: Evidence, e: Env, live: set<Local>, term: Terminator, e': Env, d: Local)
    requires PairsOk(body, ev) && LiveHolds(body, ev, e, live) && Kept(body, e, e', Overwritten(term))
    requires d in LiveOut(body, ev, live, term) && !(term.Call? && term.dest == Place(d, []))
    requires term.Leave? ==> forall i :: 0 <= i < |term.outs| && WritesLocal(term.outs[i]) ==> !ScalarLocal(body, term.outs[i].local)
    ensures d in ev.pairs && var (t, a, b) := ev.pairs[d];
            d < |e'| && a < |e'| && b < |e'| && (e'[d].bits != 0 <==> (e'[a].bits == e'[b].bits) == t)
  {
    var (t, a, b) := ev.pairs[d];
    assert d in live && ScalarLocal(body, d) && ScalarLocal(body, a) && ScalarLocal(body, b);
    forall x | x == d || x == a || x == b ensures x !in Overwritten(term) { }
  }

  lemma ReportTrue(body: Body, ev: Evidence, e: Env, term: Terminator, succ: Block, e': Env)
    requires PairsOk(body, ev) && StepTerminator(body, term, e, succ, e') && term.Call? && term.dest.proj == []
    requires term.dest.local in ev.pairs && Reported(body, term) == Some(ev.pairs[term.dest.local]) && term.callee.value.honest
    ensures var (t, a, b) := ev.pairs[term.dest.local];
            ScalarLocal(body, term.dest.local) && ScalarLocal(body, a) && ScalarLocal(body, b)
            && (e'[term.dest.local].bits != 0 <==> (e'[a].bits == e'[b].bits) == t)
  {
    var (t, a, b) := ev.pairs[term.dest.local];
    assert CallResult(body, term, e, e'[term.dest.local]);
    assert e'[a] == e[a] && e'[b] == e[b];
  }

  // ----- terminators -----

  predicate IsCmpStatement(stmt: Statement, d: Local) {
    stmt.Assign? && stmt.dst == Place(d, []) && stmt.rv.Binary? && IsCmp(stmt.rv.bop)
  }

  /** No comparison statement ever writes `d`: it is a parameter, a call result, an enum discriminant, ... */
  predicate NeverCompared(body: Body, d: Local) {
    forall b, i :: 0 <= b < |body.blocks| && 0 <= i < |body.blocks[b].stmts| ==> !IsCmpStatement(body.blocks[b].stmts[i], d)
  }

  /**
  A switch on a comparison has it computed in the same block, or by calls whose evidence is live here, and has the
  shape that makes the verdict right.
  */
  predicate SwitchOk(body: Body, ev: Evidence, live: set<Local>, block: BasicBlock)
    requires block.term.SwitchInt?
  {
    var d := OperandLocal(block.term.discr);
    d.Some? ==>
      if NeverCompared(body, d.value) then
        d.value in ev.pairs ==> d.value in LiveAt(ev, live, block.stmts) && ShapeOk(block.term.targets, block.term.otherwise)
      else
        ScalarLocal(body, d.value) && LastCmp(block.stmts, d.value).Some? && ShapeOk(block.term.targets, block.term.otherwise)
  }

  predicate SwitchedOn(body: Body, d: Local) {
    exists b :: 0 <= b < |body.blocks| && body.blocks[b].term.SwitchInt? && OperandLocal(body.blocks[b].term.discr) == Some(d)
  }

  /**
  A scalar destination is a plain local of a resolved call; a layout is built from a `usize`; a view is no scalar; a
  comparison of scalars that is branched on is the one the evidence names.
  */
  predicate CallOk(body: Body, ev: Evidence, term: Terminator)
    requires term.Call?
  {
    var d := term.dest.local;
    && (term.dest.proj == [] && ScalarLocal(body, d) ==> term.callee.Some?)
    && (term.dest.proj != [] ==> term.dest.proj[0] == Deref || !ScalarLocal(body, d))
    && (term.callee.Some? && term.callee.value.layoutUnchecked && term.dest.proj == [] && ScalarLocal(body, d) ==>
          && body.tys[d] == Layout
          && (FirstArgLocal(term.args).Some? ==>
                ScalarLocal(body, FirstArgLocal(term.args).value) && TyOf(body, FirstArgLocal(term.args).value) == Uint(W64)
                && FirstArgLocal(term.args).value != d))
    && (term.callee.Some? && term.callee.value.view.DerefView? ==>
          !ScalarLocal(body, d) && (FirstArgLocal(term.args).Some? ==> !ScalarLocal(body, FirstArgLocal(term.args).value)))
    && (Reported(body, term).Some? && NeverCompared(body, d) && SwitchedOn(body, d) ==>
          d in ev.pairs && Reported(body, term) == Some(ev.pairs[d]))
  }

  /** Outside code writes no scalar local, nor a part of one. */
  predicate LeaveOk(body: Body, term: Terminator)
    requires term.Leave?
  {
    forall i :: 0 <= i < |term.outs| && WritesLocal(term.outs[i]) ==> !ScalarLocal(body, term.outs[i].local)
  }

  predicate BlockOk(body: Body, ev: Evidence, live: set<Local>, block: BasicBlock) {
    && (forall i :: 0 <= i < |block.stmts| ==> StatementOk(body, block.stmts[i]))
    && (block.term.Call? ==> CallOk(body, ev, block.term))
    && (block.term.Leave? ==> LeaveOk(body, block.term))
    && (block.term.SwitchInt? ==> SwitchOk(body, ev, live, block))
  }

  ghost predicate FragmentWith(body: Body, ev: Evidence) {
    && WellFormed(body) && PairsOk(body, ev) && |ev.live| == |body.blocks| && ev.live[0] == {}
    && (forall b :: 0 <= b < |body.blocks| ==> BlockOk(body, ev, ev.live[b], body.blocks[b]))
    && (forall b, succ :: 0 <= b < |body.blocks| && succ in Successors(body.blocks[b].term) ==>
          succ < |ev.live| && ev.live[succ] <= LiveOut(body, ev, LiveAt(ev, ev.live[b], body.blocks[b].stmts), body.blocks[b].term))
  }

  /** The fragment: unsigned scalars whose address is never taken, widening casts, branches on known comparisons. */
  ghost predicate InFragment(body: Body) {
    exists ev :: FragmentWith(body, ev)
  }

  /** What a call makes of the facts about a local. */
  lemma CallFacts(body: Body, s: Ranges, refs: map<Local, Local>, term: Terminator, l: Local)
    requires term.Call? && term.callee.Some? && term.dest.proj == []
    ensures var f := FactOf(R.ApplyTerminator(body, s, refs, term), l);
            if l != term.dest.local then f == FactOf(s, l)
            else
              && f.lower.None? && f.upper == UintTypeMax(TyOf(body, l))
              && (f.nonzero <==> TyOf(body, l).NonZero? || term.callee.value.nonNull)
              && (f.overflow <==> l in s.mulOverflow)
              && (f.layout <==> l in s.layoutOverflow || (term.callee.value.layoutUnchecked && R.Tainted(s, term.args)))
  {
  }

  lemma CallFact(body: Body, ev: Evidence, e: Env, s: Ranges, refs: map<Local, Local>, term: Terminator, succ: Block, e': Env, l: Local)
    requires term.Call? && CallOk(body, ev, term) && LocalsHold(body, e, s) && StepTerminator(body, term, e, succ, e')
    requires term.dest.proj == [] && ScalarLocal(body, l)
    ensures FactHolds(FactOf(R.ApplyTerminator(body, s, refs, term), l), e'[l])
  {
    assert FactHolds(FactOf(s, l), e[l]);
    assert HasType(e'[l], body.tys[l]);
    if term.callee.Some? { CallFacts(body, s, refs, term, l); }
  }

  lemma CallSound(body: Body, ev: Evidence, e: Env, s: Ranges, refs: map<Local, Local>, term: Terminator, succ: Block, e': Env)
    requires term.Call? && CallOk(body, ev, term) && Holds(body, e, s) && StepTerminator(body, term, e, succ, e')
    ensures Holds(body, e', R.ApplyTerminator(body, s, refs, term))
  {
    if term.dest.proj == [] {
      forall l: Local | ScalarLocal(body, l) ensures FactHolds(FactOf(R.ApplyTerminator(body, s, refs, term), l), e'[l]) {
        CallFact(body, ev, e, s, refs, term, succ, e', l);
      }
      CallPairs(body, ev, e, s, refs, term, succ, e');
    } else {
      KeptHolds(body, e, e', s);
    }
  }

  lemma CallKeepsPairs(body: Body, s: Ranges, refs: map<Local, Local>, term: Terminator)
    requires term.Call? && term.dest.proj == []
    ensures R.ApplyTerminator(body, s, refs, term).pairs ==
            if term.callee.Some? then set p | p in s.pairs && p.1 != term.dest.local && p.2 != term.dest.local else s.pairs
  {
  }

  lemma CallPairs(body: Body, ev: Evidence, e: Env, s: Ranges, refs: map<Local, Local>, term: Terminator, succ: Block, e': Env)
    requires term.Call? && CallOk(body, ev, term) && PairsHold(body, e, s) && StepTerminator(body, term, e, succ, e')
    requires term.dest.proj == []
    ensures PairsHold(body, e', R.ApplyTerminator(body, s, refs, term))
  {
    var s' := R.ApplyTerminator(body, s, refs, term);
    CallKeepsPairs(body, s, refs, term);
    forall t, a, b | (t, a, b) in s'.pairs && ScalarLocal(body, a) && ScalarLocal(body, b)
      ensures t <==> e'[a].bits == e'[b].bits
    {
      assert (t, a, b) in s.pairs && a != term.dest.local && b != term.dest.local;
    }
  }

  /** A layout outside `hid` is not built from a size inside. */
  predicate CallBuildsCleanly(hid: set<Local>, term: Terminator) {
    term.Call? && term.callee.Some? && term.callee.value.layoutUnchecked && FirstArgLocal(term.args).Some? ==>
      (FirstArgLocal(term.args).value in hid ==> term.dest.local in hid)
  }

  lemma CallSizes(body: Body, ev: Evidence, e: Env, s: Ranges, refs: map<Local, Local>, hid: set<Local>, term: Terminator, succ: Block, e': Env)
    requires term.Call? && CallOk(body, ev, term) && SizesHold(body, e, s, hid) && StepTerminator(body, term, e, succ, e')
    requires CallBuildsCleanly(hid, term)
    ensures SizesHold(body, e', R.ApplyTerminator(body, s, refs, term), hid)
  {
    forall l: Local | ScalarLocal(body, l) && l !in hid
      ensures SizeHolds(FactOf(R.ApplyTerminator(body, s, refs, term), l), e'[l], body.tys[l])
    {
      assert SizeHolds(FactOf(s, l), e[l], body.tys[l]);
      if term.callee.Some? && term.dest.proj == [] {
        CallFacts(body, s, refs, term, l);
        if l == term.dest.local && e'[l].arith.Some? {
          var a := FirstArgLocal(term.args).value;
          assert SizeHolds(FactOf(s, a), e[a], body.tys[a]);
        }
      }
    }
  }

  /** Nothing is recorded for `d` but a pair that is not one of scalars, or is the one the evidence names. */
  ghost predicate Quiet(body: Body, ev: Evidence, s: Ranges, d: Local) {
    && (forall r :: (r, d) !in s.constIf)
    && (forall t :: (t, d) !in s.nonzeroIf)
    && (SwitchedOn(body, d) ==>
          forall t :: (t, d) in s.pairIf && ScalarLocal(body, s.pairIf[(t, d)].0) && ScalarLocal(body, s.pairIf[(t, d)].1) ==>
            d in ev.pairs && ev.pairs[d] == (t, s.pairIf[(t, d)].0, s.pairIf[(t, d)].1))
  }

  lemma QuietTrue(body: Body, ev: Evidence, e: Env, s: Ranges, live: set<Local>, d: Local, truth: bool)
    requires Quiet(body, ev, s, d) && SwitchedOn(body, d) && LiveHolds(body, ev, e, live)
    requires d in ev.pairs ==> d in live && d < |e| && (truth <==> e[d].bits != 0)
    ensures RecordTrue(body, e, s, d, truth)
  {
  }

  lemma SwitchSound(body: Body, ev: Evidence, live: set<Local>, e: Env, s: Ranges, b: Block, succ: Block, e': Env)
    requires b < |body.blocks| && body.blocks[b].term.SwitchInt? && Holds(body, e, s)
    requires var block := body.blocks[b];
             && SwitchOk(body, ev, live, block) && StepTerminator(body, block.term, e, succ, e')
             && CmpsTracked(body, e, s, block.stmts) && LiveHolds(body, ev, e, LiveAt(ev, live, block.stmts))
             && var d := OperandLocal(block.term.discr); d.Some? && NeverCompared(body, d.value) ==> Quiet(body, ev, s, d.value)
    ensures Holds(body, e', RefineEdge(s, body.blocks[b].term, succ))
  {
    var block := body.blocks[b];
    var targets, otherwise := block.term.targets, block.term.otherwise;
    KeptHolds(body, e, e', s);
    var v :| OperandMay(e, block.term.discr, v) && succ == Route(targets, otherwise, v.bits);
    var verdict := EdgeVerdict(targets, otherwise, succ);
    var od := OperandLocal(block.term.discr);
    if od.Some? && verdict.Some? {
      var d := od.value;
      if NeverCompared(body, d) {
        assert SwitchedOn(body, d);
        if d in ev.pairs { VerdictRight(targets, otherwise, v.bits); }
        QuietTrue(body, ev, e, s, LiveAt(ev, live, block.stmts), d, verdict.value);
      } else {
        VerdictRight(targets, otherwise, v.bits);
        PromiseFollows(body, e, d, LastCmp(block.stmts, d).value);
        KeyedTrue(body, e, s, d, RvaluePromise(LastCmp(block.stmts, d).value), verdict.value);
      }
      RefineSound(body, e, s, d, verdict.value);
      KeptHolds(body, e, e', Refine(s, d, verdict.value));
    }
  }

  lemma VerdictRight(targets: seq<(nat, Block)>, otherwise: Block, v: nat)
    requires ShapeOk(targets, otherwise)
    ensures var verdict := EdgeVerdict(targets, otherwise, Route(targets, otherwise, v));
            verdict.Some? ==> (verdict.value <==> v != 0)
  {
    VerdictExact(targets, otherwise);
  }

  lemma TerminatorSound(body: Body, ev: Evidence, live: set<Local>, e: Env, s: Ranges, refs: map<Local, Local>, b: Block, succ: Block, e': Env)
    requires b < |body.blocks| && Holds(body, e, s)
    requires var block := body.blocks[b];
             && BlockOk(body, ev, live, block) && StepTerminator(body, block.term, e, succ, e')
             && CmpsTracked(body, e, s, block.stmts) && LiveHolds(body, ev, e, LiveAt(ev, live, block.stmts))
             && (block.term.SwitchInt? ==>
                   var d := OperandLocal(block.term.discr); d.Some? && NeverCompared(body, d.value) ==> Quiet(body, ev, s, d.value))
    ensures var block := body.blocks[b];
            Holds(body, e', RefineEdge(R.ApplyTerminator(body, s, refs, block.term), block.term, succ))
  {
    var block := body.blocks[b];
    if block.term.Call? {
      CallSound(body, ev, e, s, refs, block.term, succ, e');
    } else if block.term.SwitchInt? {
      SwitchSound(body, ev, live, e, s, b, succ, e');
    } else {
      LeaveHolds(body, e, e', s, block.term, succ);
    }
  }

  lemma LeaveHolds(body: Body, e: Env, e': Env, s: Ranges, term: Terminator, succ: Block)
    requires Holds(body, e, s) && StepTerminator(body, term, e, succ, e') && !term.Call? && !term.SwitchInt?
    requires term.Leave? ==> LeaveOk(body, term)
    ensures Holds(body, e', s) && Kept(body, e, e', {})
  {
    if term.Leave? {
      forall l: Local | l < |e| && ScalarLocal(body, l) ensures e'[l] == e[l] {
        assert l !in Written(term.outs);
      }
    }
    KeptHolds(body, e, e', s);
  }

  lemma TerminatorSizes(body: Body, ev: Evidence, live: set<Local>, e: Env, s: Ranges, refs: map<Local, Local>, hid: set<Local>, block: BasicBlock, succ: Block, e': Env)
    requires BlockOk(body, ev, live, block) && Holds(body, e, s) && SizesHold(body, e, s, hid)
    requires StepTerminator(body, block.term, e, succ, e') && CallBuildsCleanly(hid, block.term)
    ensures SizesHold(body, e', RefineEdge(R.ApplyTerminator(body, s, refs, block.term), block.term, succ), hid)
  {
    var s1 := R.ApplyTerminator(body, s, refs, block.term);
    if block.term.Call? {
      CallSizes(body, ev, e, s, refs, hid, block.term, succ, e');
    } else {
      if !block.term.SwitchInt? { LeaveHolds(body, e, e', s, block.term, succ); }
      KeptSizes(body, e, e', s, hid);
    }
    RefineSizes(body, e', s1, hid, block.term, succ);
  }

  lemma KeptSizes(body: Body, e: Env, e': Env, s: Ranges, hid: set<Local>)
    requires SizesHold(body, e, s, hid) && Kept(body, e, e', {})
    ensures SizesHold(body, e', s, hid)
  {
    forall l: Local | ScalarLocal(body, l) && l !in hid ensures SizeHolds(FactOf(s, l), e'[l], body.tys[l]) {
      assert SizeHolds(FactOf(s, l), e[l], body.tys[l]);
    }
  }

  lemma RefineSizes(body: Body, e: Env, s: Ranges, hid: set<Local>, term: Terminator, succ: Block)
    requires SizesHold(body, e, s, hid)
    ensures SizesHold(body, e, RefineEdge(s, term, succ), hid)
  {
    RefineEdgeKeys(s, term, succ);
    forall l: Local | ScalarLocal(body, l) && l !in hid ensures SizeHolds(FactOf(RefineEdge(s, term, succ), l), e[l], body.tys[l]) {
      assert SizeHolds(FactOf(s, l), e[l], body.tys[l]);
    }
  }

  lemma RefineEdgeKeys(s: Ranges, term: Terminator, succ: Block)
    ensures SameKeys(s, RefineEdge(s, term, succ)) && SameTaints(s, RefineEdge(s, term, succ))
  {
    if term.SwitchInt? && OperandLocal(term.discr).Some? {
      var verdict := EdgeVerdict(term.targets, term.otherwise, succ);
      if verdict.Some? { RefineKeys(s, OperandLocal(term.discr).value, verdict.value); }
    }
  }

  // ----- locals no comparison statement writes -----

  /** Borrows and what they refer to are no scalars. */
  ghost predicate RefsOk(body: Body, refs: map<Local, Local>) {
    forall r <- refs.Keys :: !ScalarLocal(body, r) && !ScalarLocal(body, refs[r])
  }

  lemma QuietReplay(body: Body, ev: Evidence, s: Ranges, d: Local, stmts: seq<Statement>)
    requires Quiet(body, ev, s, d)
    requires forall i :: 0 <= i < |stmts| ==> !IsCmpStatement(stmts[i], d)
    ensures Quiet(body, ev, Replay(body, s, stmts), d)
    decreases |stmts|
  {
    if stmts != [] {
      var init, stmt := stmts[..|stmts| - 1], stmts[|stmts| - 1];
      QuietReplay(body, ev, s, d, init);
      if stmt.Assign? && stmt.dst.proj == [] { QuietAssign(body, ev, Replay(body, s, init), d, stmt.dst.local, stmt.rv); }
    }
  }

  lemma QuietAssign(body: Body, ev: Evidence, s: Ranges, d: Local, x: Local, rv: Rvalue)
    requires Quiet(body, ev, s, d) && !IsCmpStatement(Assign(Place(x, []), rv), d)
    ensures Quiet(body, ev, AssignLocal(body, s, x, rv), d)
  {
    if x == d {
      AssignKeys(body, s, x, rv, d, NoPromise);
    } else {
      AssignOtherKeys(body, s, x, rv, d);
    }
  }

  lemma AssignOtherKeys(body: Body, s: Ranges, x: Local, rv: Rvalue, d: Local)
    requires x != d
    ensures var s' := AssignLocal(body, s, x, rv);
            && (forall r :: (r, d) in s'.constIf <==> (r, d) in s.constIf)
            && (forall t :: (t, d) in s'.nonzeroIf <==> (t, d) in s.nonzeroIf)
            && (forall t :: (t, d) in s'.pairIf <==> (t, d) in s.pairIf)
            && (forall t :: (t, d) in s.pairIf ==> s'.pairIf[(t, d)] == s.pairIf[(t, d)])
  {
  }

  lemma RecordKeys(s: Ranges, x: Local, p: Promise, d: Local)
    ensures var s' := Record(Kill(s, x, false), x, p);
            if d == x then Keyed(s', d, p)
            else
              && (forall r :: (r, d) in s'.constIf <==> (r, d) in s.constIf)
              && (forall t :: (t, d) in s'.nonzeroIf <==> (t, d) in s.nonzeroIf)
              && (forall t :: (t, d) in s'.pairIf <==> (t, d) in s.pairIf)
              && (forall t :: (t, d) in s.pairIf ==> s'.pairIf[(t, d)] == s.pairIf[(t, d)])
  {
  }

  lemma CallKeys(body: Body, s: Ranges, refs: map<Local, Local>, term: Terminator)
    requires term.Call? && term.callee.Some? && term.dest.proj == []
    ensures var d := term.dest.local;
            SameKeys(R.ApplyTerminator(body, s, refs, term),
                     Record(Kill(s, d, false), d, CallPromise(refs - {d}, term.callee.value, term.args)))
  {
  }

  /** Among scalars, the pair a call records is the one it reports. */
  lemma RecordedIsReported(body: Body, refs: map<Local, Local>, term: Terminator)
    requires term.Call? && term.callee.Some? && term.dest.proj == [] && RefsOk(body, refs)
    ensures var p := CallPromise(refs, term.callee.value, term.args);
            && p.bound.None? && p.nonzero.None?
            && (p.pair.Some? && ScalarLocal(body, p.pair.value.1) && ScalarLocal(body, p.pair.value.2) ==> Reported(body, term) == p.pair)
  {
  }

  lemma QuietCall(body: Body, ev: Evidence, s: Ranges, refs: map<Local, Local>, d: Local, term: Terminator)
    requires Quiet(body, ev, s, d) && NeverCompared(body, d) && RefsOk(body, refs) && (term.Call? ==> CallOk(body, ev, term))
    ensures Quiet(body, ev, R.ApplyTerminator(body, s, refs, term), d)
  {
    if term.Call? && term.callee.Some? && term.dest.proj == [] {
      var x := term.dest.local;
      CallKeys(body, s, refs, term);
      RecordKeys(s, x, CallPromise(refs - {x}, term.callee.value, term.args), d);
      RecordedIsReported(body, refs - {x}, term);
    }
  }

  lemma QuietAlong(body: Body, ev: Evidence, b: Block, succ: Block, s: Ranges, refs: map<Local, Local>, d: Local)
    requires b < |body.blocks| && NeverCompared(body, d) && Quiet(body, ev, s, d) && RefsOk(body, refs)
    requires body.blocks[b].term.Call? ==> CallOk(body, ev, body.blocks[b].term)
    ensures Quiet(body, ev, Along(body, body.blocks[b], succ, s, refs), d)
  {
    var block := body.blocks[b];
    QuietReplay(body, ev, s, d, block.stmts);
    QuietCall(body, ev, Replay(body, s, block.stmts), refs, d, block.term);
    RefineEdgeKeys(R.ApplyTerminator(body, Replay(body, s, block.stmts), refs, block.term), block.term, succ);
  }

  lemma JoinQuiet(body: Body, ev: Evidence, s: Ranges, t: Ranges, d: Local)
    requires Quiet(body, ev, s, d) && Quiet(body, ev, t, d)
    ensures Quiet(body, ev, JoinRange(s, t), d)
  {
  }

  lemma SeedQuiet(body: Body, ev: Evidence, s: Ranges, from: nat, d: Local)
    requires Quiet(body, ev, s, d)
    ensures Quiet(body, ev, SeedParams(body, s, from), d)
    decreases body.argCount + 1 - from
  {
    if from <= body.argCount && from < 0x1_0000_0000 {
      SeedQuiet(body, ev, TypeFacts(s, from, TyOf(body, from)), from + 1, d);
    }
  }

  lemma SeedSound(body: Body, e: Env, s: Ranges, from: nat)
    requires Typed(body, e) && Holds(body, e, s)
    ensures Holds(body, e, SeedParams(body, s, from))
    decreases body.argCount + 1 - from
  {
    if from <= body.argCount && from < 0x1_0000_0000 {
      var s1 := TypeFacts(s, from, TyOf(body, from));
      forall l: Local | ScalarLocal(body, l) ensures FactHolds(FactOf(s1, l), e[l]) {
        assert FactHolds(FactOf(s, l), e[l]) && HasType(e[l], body.tys[l]);
      }
      SeedSound(body, e, s1, from + 1);
    }
  }

  // ----- whole runs, against any solution -----

  type Refs = map<Local, Local>

  /** `refs[b]`: the borrows known before the terminator of block `b`. */
  ghost predicate EdgeHolds(body: Body, rs: seq<Option<Ranges>>, refs: seq<Refs>, b: Block, succ: Block)
    requires |rs| == |refs| == |body.blocks| && b < |rs| && rs[b].Some?
  {
    succ < |rs| && rs[succ].Some? && RangeLeq(Along(body, body.blocks[b], succ, rs[b].value, refs[b]), rs[succ].value)
  }

  ghost predicate EdgesHold(body: Body, rs: seq<Option<Ranges>>, refs: seq<Refs>)
    requires |rs| == |refs| == |body.blocks|
  {
    forall b, succ :: 0 <= b < |rs| && rs[b].Some? && succ in Successors(body.blocks[b].term) ==> EdgeHolds(body, rs, refs, b, succ)
  }

  ghost predicate AllQuiet(body: Body, ev: Evidence, rs: seq<Option<Ranges>>) {
    forall b, d: Local :: 0 <= b < |rs| && rs[b].Some? && NeverCompared(body, d) ==> Quiet(body, ev, rs[b].value, d)
  }

  /** Entry ranges that no edge can weaken further. */
  ghost predicate Solves(body: Body, ev: Evidence, rs: seq<Option<Ranges>>, refs: seq<Refs>) {
    && WellFormed(body) && |rs| == |refs| == |body.blocks|
    && rs[0].Some? && RangeLeq(SeedParams(body, EmptyState.range, 1), rs[0].value)
    && EdgesHold(body, rs, refs) && AllQuiet(body, ev, rs)
  }

  /** `state_at_location`: replay the statements before the point over the entry of its block. */
  ghost function RangesAt(body: Body, rs: seq<Option<Ranges>>, c: Config): Option<Ranges>
    requires |rs| == |body.blocks|
  {
    if c.bb < |rs| && rs[c.bb].Some? && c.at <= |body.blocks[c.bb].stmts|
    then Some(Replay(body, rs[c.bb].value, body.blocks[c.bb].stmts[..c.at])) else None
  }

  /** Only the locals `hid` may hide a wrap: everywhere else sizes are flagged or built from clean operands. */
  ghost predicate CleanFlow(body: Body, rs: seq<Option<Ranges>>, hid: set<Local>)
    requires |rs| == |body.blocks|
  {
    && (forall b, i :: 0 <= b < |rs| && rs[b].Some? && 0 <= i < |body.blocks[b].stmts| ==>
          BuildsCleanly(body, Replay(body, rs[b].value, body.blocks[b].stmts[..i]), hid, body.blocks[b].stmts[i]))
    && (forall b :: 0 <= b < |rs| && rs[b].Some? ==> CallBuildsCleanly(hid, body.blocks[b].term))
  }

  ghost predicate SizesAt(body: Body, rs: seq<Option<Ranges>>, e: Env, s: Ranges)
    requires |rs| == |body.blocks|
  {
    forall hid: set<Local> :: CleanFlow(body, rs, hid) ==> SizesHold(body, e, s, hid)
  }

  ghost predicate PointSound(body: Body, ev: Evidence, rs: seq<Option<Ranges>>, c: Config)
    requires |rs| == |body.blocks|
  {
    var s := RangesAt(body, rs, c);
    && s.Some? && Typed(body, c.env)
    && Holds(body, c.env, s.value)
    && SizesAt(body, rs, c.env, s.value)
    && CmpsTracked(body, c.env, s.value, body.blocks[c.bb].stmts[..c.at])
    && c.bb < |ev.live| && LiveHolds(body, ev, c.env, LiveAt(ev, ev.live[c.bb], body.blocks[c.bb].stmts[..c.at]))
  }

  lemma EntrySound(body: Body, ev: Evidence, rs: seq<Option<Ranges>>, c: Config)
    requires |rs| == |body.blocks| == |ev.live| && Typed(body, c.env) && c.at == 0
    requires c.bb < |rs| && rs[c.bb].Some? && Holds(body, c.env, rs[c.bb].value)
    requires SizesAt(body, rs, c.env, rs[c.bb].value)
    requires LiveHolds(body, ev, c.env, ev.live[c.bb])
    ensures PointSound(body, ev, rs, c)
  {
    assert body.blocks[c.bb].stmts[..0] == [];
  }

  lemma Extended(body: Body, s: Ranges, stmts: seq<Statement>, at: nat)
    requires at < |stmts|
    ensures stmts[..at + 1] == stmts[..at] + [stmts[at]]
    ensures Replay(body, s, stmts[..at + 1]) == ApplyStatement(body, Replay(body, s, stmts[..at]), stmts[at])
  {
    assert stmts[..at + 1][..|stmts[..at + 1]| - 1] == stmts[..at];
  }

  lemma PointStep(body: Body, ev: Evidence, e: Env, s: Ranges, done: seq<Statement>, live: set<Local>, stmt: Statement, e': Env)
    requires PairsOk(body, ev) && StatementOk(body, stmt) && Typed(body, e) && StepStatement(body, stmt, e, e')
    requires Holds(body, e, s) && CmpsTracked(body, e, s, done) && LiveHolds(body, ev, e, LiveAt(ev, live, done))
    ensures Typed(body, e') && Holds(body, e', ApplyStatement(body, s, stmt))
    ensures CmpsTracked(body, e', ApplyStatement(body, s, stmt), done + [stmt])
    ensures LiveHolds(body, ev, e', LiveAt(ev, live, done + [stmt]))
  {
    StatementSound(body, e, s, stmt, e');
    CmpsStep(body, e, s, done, stmt, e');
    LiveStep(body, ev, e, LiveAt(ev, live, done), stmt, e');
    assert (done + [stmt])[..|done|] == done;
  }

  lemma StatementPoint(body: Body, ev: Evidence, rs: seq<Option<Ranges>>, c: Config, c': Config)
    requires |rs| == |body.blocks| && FragmentWith(body, ev)
    requires PointSound(body, ev, rs, c) && Step(body, c, c') && c.at < |body.blocks[c.bb].stmts|
    ensures PointSound(body, ev, rs, c')
  {
    var stmts := body.blocks[c.bb].stmts;
    var stmt, s := stmts[c.at], Replay(body, rs[c.bb].value, stmts[..c.at]);
    assert BlockOk(body, ev, ev.live[c.bb], body.blocks[c.bb]) && StatementOk(body, stmt);
    Extended(body, rs[c.bb].value, stmts, c.at);
    PointStep(body, ev, c.env, s, stmts[..c.at], ev.live[c.bb], stmt, c'.env);
    forall hid: set<Local> | CleanFlow(body, rs, hid) ensures SizesHold(body, c'.env, ApplyStatement(body, s, stmt), hid) {
      assert BuildsCleanly(body, s, hid, stmts[c.at]);
      StatementSizes(body, c.env, s, hid, stmt, c'.env);
    }
  }

  lemma LiveEdge(body: Body, ev: Evidence, c: Config, c': Config)
    requires FragmentWith(body, ev) && c.bb < |body.blocks| && c.at == |body.blocks[c.bb].stmts| && Step(body, c, c')
    requires LiveHolds(body, ev, c.env, LiveAt(ev, ev.live[c.bb], body.blocks[c.bb].stmts))
    ensures c'.bb < |ev.live| && LiveHolds(body, ev, c'.env, ev.live[c'.bb])
  {
    var block := body.blocks[c.bb];
    assert BlockOk(body, ev, ev.live[c.bb], block);
    LiveTerminator(body, ev, c.env, LiveAt(ev, ev.live[c.bb], block.stmts), block.term, c'.bb, c'.env);
    assert ev.live[c'.bb] <= LiveOut(body, ev, LiveAt(ev, ev.live[c.bb], block.stmts), block.term);
  }

  lemma TerminatorPoint(body: Body, ev: Evidence, rs: seq<Option<Ranges>>, refs: seq<Refs>, c: Config, c': Config)
    requires Solves(body, ev, rs, refs) && FragmentWith(body, ev)
    requires PointSound(body, ev, rs, c) && Step(body, c, c') && c.at == |body.blocks[c.bb].stmts|
    ensures PointSound(body, ev, rs, c')
  {
    var block, s := body.blocks[c.bb], RangesAt(body, rs, c).value;
    assert block.stmts[..c.at] == block.stmts;
    if block.term.SwitchInt? && OperandLocal(block.term.discr).Some? {
      var d := OperandLocal(block.term.discr).value;
      if NeverCompared(body, d) { QuietReplay(body, ev, rs[c.bb].value, d, block.stmts); }
    }
    assert BlockOk(body, ev, ev.live[c.bb], block);
    assert EdgeHolds(body, rs, refs, c.bb, c'.bb);
    var s' := Along(body, block, c'.bb, rs[c.bb].value, refs[c.bb]);
    TerminatorSound(body, ev, ev.live[c.bb], c.env, s, refs[c.bb], c.bb, c'.bb, c'.env);
    HoldsWeaker(body, c'.env, s', rs[c'.bb].value);
    forall hid: set<Local> | CleanFlow(body, rs, hid) ensures SizesHold(body, c'.env, rs[c'.bb].value, hid) {
      TerminatorSizes(body, ev, ev.live[c.bb], c.env, s, refs[c.bb], hid, block, c'.bb, c'.env);
      SizesWeaker(body, c'.env, s', rs[c'.bb].value, hid);
    }
    LiveEdge(body, ev, c, c');
    EntrySound(body, ev, rs, c');
  }

  lemma RunSound(body: Body, ev: Evidence, rs: seq<Option<Ranges>>, refs: seq<Refs>, run: seq<Config>)
    requires Solves(body, ev, rs, refs) && FragmentWith(body, ev) && IsRun(body, run)
    ensures PointSound(body, ev, rs, run[|run| - 1])
  {
    if |run| == 1 {
      var c := run[0];
      assert Holds(body, c.env, EmptyState.range);
      SeedSound(body, c.env, EmptyState.range, 1);
      HoldsWeaker(body, c.env, SeedParams(body, EmptyState.range, 1), rs[0].value);
      StartSizes(body, c.env, rs[0].value);
      EntrySound(body, ev, rs, c);
    } else {
      var prefix := run[..|run| - 1];
      RunSound(body, ev, rs, refs, prefix);
      var c, c' := prefix[|prefix| - 1], run[|run| - 1];
      assert Step(body, run[|run| - 2], run[|run| - 1]);
      if c.at < |body.blocks[c.bb].stmts| { StatementPoint(body, ev, rs, c, c'); } else { TerminatorPoint(body, ev, rs, refs, c, c'); }
    }
  }

  lemma StartSizes(body: Body, e: Env, s: Ranges)
    requires |e| == |body.tys| && forall l :: 0 <= l < |e| ==> e[l].arith.None?
    ensures forall hid: set<Local> :: SizesHold(body, e, s, hid)
  {
  }
}
