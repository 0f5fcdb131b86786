/** Invariants of every state of a flow, and what the freed verdicts mean across merges, calls and copies. */
module OwnVerdicts {
  import opened Mir
  import opened Lattice
  import opened State
  import opened Engine
  import opened O = OwnTransfer
  import opened I = OwnInvariant
  import S = OwnSound
  import F = OwnFlow
  import T = Transfer

  // ----- the invariant at every entry -----

  /** Every site object names a block that ends in a call. */
  ghost predicate Sited(body: Body, s: Ownership) {
    forall id <- s.heap.Keys :: IsSiteId(id) ==> id < |body.blocks| && body.blocks[id].term.Call?
  }

  ghost function SaneInv(body: Body): BlockState -> bool { (s: BlockState) => Sane(s.own) && Sited(body, s.own) }

  lemma SitedAlong(body: Body, sums: SummaryMap, b: Block, s: Ownership)
    requires Small(body) && b < |body.blocks| && Sane(s) && Sited(body, s)
    ensures var s' := Along(body, sums, b, body.blocks[b], s); Sane(s') && Sited(body, s')
  {
    AlongKeeps(body, sums, b, s);
  }

  lemma SitedJoin(body: Body, a: Ownership, b: Ownership)
    requires Sane(a) && Sane(b) && Sited(body, a) && Sited(body, b)
    ensures Sane(JoinOwn(a, b)) && Sited(body, JoinOwn(a, b))
  {
    JoinKeeps(a, b);
  }

  lemma SanePreserved(body: Body, sums: SummaryMap, initial: BlockState)
    requires WellFormed(body) && Small(body) && Sane(initial.own) && Sited(body, initial.own)
    ensures T.Preserved(body, sums, initial, SaneInv(body))
  {
    forall b, succ, s | 0 <= b < |body.blocks| && succ in Successors(body.blocks[b].term) && SaneInv(body)(s)
      ensures SaneInv(body)(T.Along(body, sums, b, succ, s))
    {
      SitedAlong(body, sums, b, s.own);
    }
    forall s, t | SaneInv(body)(s) && SaneInv(body)(t) ensures SaneInv(body)(Join(s, t)) { SitedJoin(body, s.own, t.own); }
  }

  /**
  In every entry state of a computed flow no set-valued entry is empty, every object and guard named has a state,
  a stale-buffer object is possibly freed or escaped, never owned or reconstituted, and a site object names a block
  that ends in a call.
  */
  lemma SaneEverywhere(body: Body, sums: SummaryMap, initial: BlockState, es: Entries<BlockState>, b: Block)
    requires WellFormed(body) && Small(body) && Sane(initial.own) && Sited(body, initial.own) && es == T.FlowFrom(body, sums, initial)
    requires b < |es| && es[b].Some?
    ensures Sane(es[b].value.own) && Sited(body, es[b].value.own)
  {
    SanePreserved(body, sums, initial);
    T.FlowInvariant(body, sums, initial, SaneInv(body));
    assert SaneInv(body)(es[b].value);
  }

  /** The three id ranges are disjoint as long as blocks and locals are numbered below 2^30. */
  lemma IdsDisjoint(bb: Block, p: Local, param: nat)
    requires bb < LIMIT && p < LIMIT && param < 0x8000_0000
    ensures Site(bb) < REALLOC_BASE <= StaleId(p) < SUMMARY_BASE <= SUMMARY_BASE + param < 0x1_0000_0000
  {
  }

  /** A parameter or site object tracked at entry keeps a heap state along every edge. */
  lemma ObjectsPersist(body: Body, sums: SummaryMap, initial: BlockState, es: Entries<BlockState>, b: Block, succ: Block)
    requires WellFormed(body) && Small(body) && Sane(initial.own) && Sited(body, initial.own) && es == T.FlowFrom(body, sums, initial)
    requires b < |es| && es[b].Some? && succ in Successors(body.blocks[b].term)
    ensures succ < |es| && es[succ].Some? && es[b].value.own.heap.Keys <= es[succ].value.own.heap.Keys
  {
    SaneEverywhere(body, sums, initial, es, b);
    AlongKeeps(body, sums, b, es[b].value.own);
    F.OwnEdge(body, sums, initial, es, b, succ);
  }

  // ----- definite verdicts at merges -----

  lemma DefiniteBelow(e: Ownership, t: Ownership, l: Local)
    requires Grounded(e) && OwnLeq(e, t) && FreedKindOf(t, l) == Definite
    ensures l !in e.pointsTo || FreedKindOf(e, l) == Definite
  {
    if l in e.pointsTo {
      var objs := Get(e.pointsTo, l);
      assert objs <= Get(t.pointsTo, l) && objs != {} && objs <= e.heap.Keys;
      forall id <- objs ensures id in e.heap && e.heap[id] == Reconstituted {
        assert HeapJoin(t.heap[id], e.heap[id]) == t.heap[id];
      }
      var id :| id in objs;
      assert IsFreed(e.heap, id);
    }
  }

  /** A definite verdict at a block entry was definite, or the local untracked, on every incoming edge. */
  lemma DefiniteIsUniversal(body: Body, sums: SummaryMap, initial: BlockState, es: Entries<BlockState>, b: Block, succ: Block, l: Local)
    requires WellFormed(body) && Small(body) && Sane(initial.own) && Sited(body, initial.own) && es == T.FlowFrom(body, sums, initial)
    requires b < |es| && es[b].Some? && succ in Successors(body.blocks[b].term)
    requires succ < |es| && es[succ].Some? && FreedKindOf(es[succ].value.own, l) == Definite
    ensures var e := Along(body, sums, b, body.blocks[b], es[b].value.own); l !in e.pointsTo || FreedKindOf(e, l) == Definite
  {
    var e := Along(body, sums, b, body.blocks[b], es[b].value.own);
    SaneEverywhere(body, sums, initial, es, b);
    AlongKeeps(body, sums, b, es[b].value.own);
    F.OwnEdge(body, sums, initial, es, b, succ);
    DefiniteBelow(e, es[succ].value.own, l);
  }

  // ----- stale pointers -----

  /** `p` was redirected to its own possibly freed object. */
  ghost predicate Stale(s: Ownership, p: Local) {
    Get(s.pointsTo, p) == {StaleId(p)} && StaleId(p) in s.heap && s.heap[StaleId(p)] == MaybeFreed
  }

  lemma StaleIsPotential(s: Ownership, p: Local)
    requires Stale(s, p)
    ensures FreedKindOf(s, p) == Potential
  {
    assert StaleId(p) in Get(s.pointsTo, p) && IsFreed(s.heap, StaleId(p));
  }

  predicate NotAnArg(args: seq<Operand>, p: Local) {
    forall i :: 0 <= i < |args| ==> OperandLocal(args[i]) != Some(p)
  }

  lemma MarkedStale(body: Body, s: Ownership, recv: Local, p: Local)
    requires p in StaleSet(body, s, OwnersOrSelf(s, recv))
    ensures Stale(MarkStale(body, s, recv), p)
  {
  }

  lemma EscapeKeepsStale(body: Body, s: Ownership, args: seq<Operand>, p: Local)
    requires Stale(s, p) && NotAnArg(args, p)
    ensures Stale(EscapeArgs(body, s, args), p)
    decreases |args|
  {
    if args != [] {
      var l := OperandLocal(args[0]);
      var s1 := if l.Some? && (TyOf(body, l.value).RawPtr? || l.value in s.pointsTo) then EscapeLocal(s, l.value) else s;
      assert l != Some(p);
      assert IsFreed(s.heap, StaleId(p));
      assert Stale(s1, p);
      EscapeKeepsStale(body, s1, args[1..], p);
    }
  }

  lemma EffectsKeepStale(s: Ownership, args: seq<Operand>, effects: seq<(nat, Effect)>, p: Local)
    requires Stale(s, p) && NotAnArg(args, p)
    ensures Stale(ApplyEffects(s, args, effects), p)
    decreases |effects|
  {
    if effects != [] {
      var arg := NthArgLocal(args, effects[0].0);
      assert arg != Some(p);
      assert IsFreed(s.heap, StaleId(p));
      assert Stale(ApplyEffect(s, arg, effects[0].1), p);
      EffectsKeepStale(ApplyEffect(s, arg, effects[0].1), args, effects[1..], p);
    }
  }

  /** The destination apart, a summary's return part touches no pointer, and no object but the one it allocates. */
  lemma ReturnShape(body: Body, s: Ownership, args: seq<Operand>, dest: Local, bb: Block, sum: FnSummary, l: Local)
    requires l != dest
    ensures var s' := ApplyReturn(body, s, args, dest, bb, sum);
            && s'.heap == (if sum.returnsRawOwned then s.heap[Site(bb) := RawOwned] else s.heap)
            && Get(s'.pointsTo, l) == Get(s.pointsTo, l)
  {
    var s1 := DropAlias(if sum.returnsRawOwned then AllocateAt(s, dest, bb) else Forget(s, dest), dest);
    assert Get(s1.pointsTo, l) == Get(s.pointsTo, l);
    var al := if sum.aliasOf.Some? then NthArgLocal(args, sum.aliasOf.value) else None;
    var s2 := if al.Some? then ReturnAlias(body, s1, al.value, dest) else s1;
    if al.Some? { AliasShape(body, s1, al.value, dest, l); }
    var pt := if sum.ptrOf.Some? then NthArgLocal(args, sum.ptrOf.value) else None;
    if pt.Some? { AddShape(s2, dest, Get(s2.pointsTo, pt.value), l); }
  }

  lemma AddShape(s: Ownership, dest: Local, objs: set<ObjectId>, l: Local)
    requires l != dest
    ensures AddPts(s, dest, objs).heap == s.heap && Get(AddPts(s, dest, objs).pointsTo, l) == Get(s.pointsTo, l)
  {
  }

  lemma AliasShape(body: Body, s: Ownership, arg: Local, dest: Local, l: Local)
    requires l != dest
    ensures var s' := ReturnAlias(body, s, arg, dest); s'.heap == s.heap && Get(s'.pointsTo, l) == Get(s.pointsTo, l)
  {
    var ty := TyOf(body, arg);
    var owners := if IsReferenceParam(body, arg) then {arg}
                  else if ty.Ref? || ty.RawPtr? then Get(s.ownerAlias, arg) else {};
    var s1 := if owners != {} then s.(ownerAlias := s.ownerAlias[dest := Get(s.ownerAlias, dest) + owners]) else s;
    AddShape(s1, dest, Get(s1.pointsTo, arg), l);
  }

  lemma SummaryKeepsStale(body: Body, s: Ownership, args: seq<Operand>, dest: Local, bb: Block, sum: FnSummary, p: Local)
    requires Stale(s, p) && NotAnArg(args, p) && p != dest && p < LIMIT && bb < LIMIT
    ensures Stale(ApplySummary(body, s, args, dest, bb, sum), p)
  {
    EffectsKeepStale(s, args, sum.effects, p);
    ReturnShape(body, ApplyEffects(s, args, sum.effects), args, dest, bb, sum, p);
    IdsDisjoint(bb, p, 0);
  }

  lemma RoleKeepsStale(body: Body, sums: SummaryMap, s: Ownership, c: Callee, args: seq<Operand>, dest: Local, bb: Block, p: Local)
    requires Stale(s, p) && NotAnArg(args, p) && p != dest && p < LIMIT && bb < LIMIT && c.role.Plain?
    ensures Stale(ByRole(body, sums, s, c, args, dest, bb), p)
  {
    if c.def in sums {
      SummaryKeepsStale(body, s, args, dest, bb, sums[c.def], p);
      assert Stale(AccessorFallback(ApplySummary(body, s, args, dest, bb, sums[c.def]), args, dest), p);
    } else {
      EscapeKeepsStale(body, s, args, p);
      assert Stale(UnknownCall(body, s, c, args, dest), p);
    }
  }

  /**
  After a call that reallocates the receiver's buffer, every non-reference local aliasing the receiver's owner
  that is neither an argument nor the destination is potentially freed.
  */
  lemma ReallocMakesStale(body: Body, sums: SummaryMap, s: Ownership, bb: Block, term: Terminator, recv: Local, p: Local)
    requires term.Call? && term.callee.Some? && term.callee.value.role.Plain? && bb < LIMIT && p < LIMIT
    requires ReallocReceiver(sums, term.callee, term.args) == Some(recv)
    requires p in StaleSet(body, s, OwnersOrSelf(s, recv)) && NotAnArg(term.args, p) && p != term.dest.local
    ensures FreedKindOf(ApplyTerminator(body, sums, s, bb, term), p) == Potential
  {
    MarkedStale(body, s, recv, p);
    var s1 := BeforeCall(body, sums, s, term.callee, term.args, term.dest.local);
    assert s1.heap == MarkStale(body, s, recv).heap && s1.pointsTo == MarkStale(body, s, recv).pointsTo;
    if term.dest.proj != [] {
      EscapeKeepsStale(body, s1, term.args, p);
    } else {
      RoleKeepsStale(body, sums, s1, term.callee.value, term.args, term.dest.local, bb, p);
    }
    StaleIsPotential(ApplyTerminator(body, sums, s, bb, term), p);
  }

  // ----- what an unknown call lets escape -----

  /** An argument whose objects an unknown callee may keep: a raw pointer, or any tracked local. */
  ghost predicate Leaks(body: Body, s: Ownership, args: seq<Operand>, id: ObjectId) {
    exists i :: 0 <= i < |args| && OperandLocal(args[i]).Some? && id in Get(s.pointsTo, OperandLocal(args[i]).value)
  }

  /** Exactly the live objects an argument points to escape; freed objects stay freed and all others are untouched. */
  lemma {:induction false} EscapeArgsExact(body: Body, s: Ownership, args: seq<Operand>, id: ObjectId)
    ensures var s' := EscapeArgs(body, s, args);
            if Leaks(body, s, args, id) && !IsFreed(s.heap, id) then id in s'.heap && s'.heap[id] == Escaped
            else (id in s'.heap <==> id in s.heap) && (id in s.heap ==> s'.heap[id] == s.heap[id])
    decreases |args|
  {
    if args != [] {
      var l := OperandLocal(args[0]);
      var s1 := if l.Some? && (TyOf(body, l.value).RawPtr? || l.value in s.pointsTo) then EscapeLocal(s, l.value) else s;
      EscapeArgsExact(body, s1, args[1..], id);
      if l.Some? { EscapeLocalExact(s, l.value, id); }
      LeaksRest(body, s, s1, args, id);
    }
  }

  lemma EscapeLocalExact(s: Ownership, l: Local, id: ObjectId)
    ensures var s' := EscapeLocal(s, l);
            && IsFreed(s'.heap, id) == IsFreed(s.heap, id)
            && if id in Get(s.pointsTo, l) && !IsFreed(s.heap, id) then id in s'.heap && s'.heap[id] == Escaped
               else (id in s'.heap <==> id in s.heap) && (id in s.heap ==> s'.heap[id] == s.heap[id])
  {
  }

  lemma LeaksRest(body: Body, s: Ownership, s1: Ownership, args: seq<Operand>, id: ObjectId)
    requires args != []
    requires var l := OperandLocal(args[0]);
             s1 == if l.Some? && (TyOf(body, l.value).RawPtr? || l.value in s.pointsTo) then EscapeLocal(s, l.value) else s
    ensures Leaks(body, s, args, id) <==>
            (OperandLocal(args[0]).Some? && id in Get(s.pointsTo, OperandLocal(args[0]).value)) || Leaks(body, s1, args[1..], id)
  {
    if Leaks(body, s, args, id) {
      var i :| 0 <= i < |args| && OperandLocal(args[i]).Some? && id in Get(s.pointsTo, OperandLocal(args[i]).value);
      if i > 0 && OperandLocal(args[0]) != OperandLocal(args[i]) {
        assert OperandLocal(args[1..][i - 1]) == OperandLocal(args[i]);
      }
    }
    if Leaks(body, s1, args[1..], id) {
      var i :| 0 <= i < |args[1..]| && OperandLocal(args[1..][i]).Some? && id in Get(s1.pointsTo, OperandLocal(args[1..][i]).value);
      assert OperandLocal(args[i + 1]) == OperandLocal(args[1..][i]);
    }
  }

  // ----- verdicts follow pointers -----

  predicate IsLocal(op: Operand, l: Local) { OperandLocal(op) == Some(l) }

  /** The statement copies, moves, casts or offsets the pointer in `c` into `c'`, or leaves it in `c`. */
  predicate Passes(stmt: Statement, c: Local, c': Local) {
    if stmt.Assign? && stmt.dst.proj == [] && c' == stmt.dst.local then
      match stmt.rv
      case Use(op) => IsLocal(op, c)
      case PtrCast(op) => IsLocal(op, c)
      case Binary(Offset, a, _) => IsLocal(a, c)
      case _ => false
    else
      && c' == c
      && (stmt.Assign? ==>
            && (stmt.dst.proj == [] ==> !(stmt.rv.Use? && stmt.rv.op.Move? && stmt.rv.op.place.local == c))
            && (stmt.dst.proj != [] ==> RvalueLocal(stmt.rv) != Some(c) && c != 0))
  }

  lemma SameObjectsSameVerdict(s: Ownership, s': Ownership, c: Local, c': Local)
    requires s'.heap == s.heap && Get(s'.pointsTo, c') == Get(s.pointsTo, c)
    ensures FreedKindOf(s', c') == FreedKindOf(s, c)
  {
  }

  lemma EscapeKeepsVerdict(s: Ownership, l: Local, c: Local)
    requires l != c && FreedKindOf(s, c) == Potential
    ensures FreedKindOf(EscapeLocal(s, l), c) == Potential
  {
    var s' := EscapeLocal(s, l);
    assert Get(s'.pointsTo, c) == Get(s.pointsTo, c);
    var id :| id in Get(s.pointsTo, c) && IsFreed(s.heap, id);
    assert IsFreed(s'.heap, id);
    var x :| x in Get(s.pointsTo, c) && !(x in s.heap && s.heap[x] == Reconstituted);
    assert !(x in s'.heap && s'.heap[x] == Reconstituted);
  }

  lemma TrackPasses(s: Ownership, d: Local, rv: Rvalue, c: Local, c': Local)
    requires Passes(Assign(Place(d, []), rv), c, c') && c in s.pointsTo
    ensures var s' := Track(s, d, rv); s'.heap == s.heap && Get(s'.pointsTo, c') == Get(s.pointsTo, c)
  {
    match rv
    case Use(op) => if !op.Const? { UsePasses(s, d, op, c, c'); }
    case Binary(bop, a, b) => BinaryPasses(s, d, bop, a, b, c, c');
    case _ =>
  }

  lemma UsePasses(s: Ownership, d: Local, op: Operand, c: Local, c': Local)
    requires !op.Const?
    requires (c' == d && IsLocal(op, c)) || (c' == c != d && !(op.Move? && op.place.local == c))
    ensures var s' := Track(s, d, Use(op)); s'.heap == s.heap && Get(s'.pointsTo, c') == Get(s.pointsTo, c)
  {
    var p := op.place;
    if p.proj == [] {
      S.MoveShape(s, d, p.local, c);
      assert Track(s, d, Use(op)) == if op.Move? then MoveLocal(s, d, p.local) else CopyLocal(s, d, p.local);
    } else if AtMostLeadingDeref(p.proj) {
      S.FieldReadShape(s, d, p, c);
      assert Track(s, d, Use(op)) == DropProto(FieldRead(s, d, p), d);
    } else {
      assert Track(s, d, Use(op)) == if op.Move? then Forget(Forget(s, d), p.local) else Forget(s, d);
    }
  }

  lemma BinaryPasses(s: Ownership, d: Local, bop: BinOp, a: Operand, b: Operand, c: Local, c': Local)
    requires c in s.pointsTo && ((c' == d && bop == Offset && IsLocal(a, c)) || c' == c != d)
    ensures var s' := DropProto(BinaryPts(s, d, bop, a, b), d); s'.heap == s.heap && Get(s'.pointsTo, c') == Get(s.pointsTo, c)
  {
    var src := PtrOperand(s, bop, a, b);
    assert c' == d ==> src == Some(c);
    BinaryShape(s, d, bop, a, b);
    CopyShape(s, d, if src.Some? then src.value else d, c);
  }

  lemma StatementPasses(body: Body, s: Ownership, stmt: Statement, c: Local, c': Local)
    requires Passes(stmt, c, c') && FreedKindOf(s, c) == Potential
    ensures FreedKindOf(ApplyStatement(body, s, stmt), c') == Potential
  {
    assert c in s.pointsTo;
    if stmt.Assign? {
      var d := stmt.dst.local;
      var s1 := InvalidateOwners(s, {d});
      SameObjectsSameVerdict(s, s1, c, c);
      if stmt.dst.proj == [] {
        var s2 := ClearFields(SetAlias(s1, d, RvalueOwners(body, s1, d, stmt.rv)), d);
        assert stmt == Assign(Place(d, []), stmt.rv);
        TrackPasses(s2, d, stmt.rv, c, c');
        SameObjectsSameVerdict(s, Track(s2, d, stmt.rv), c, c');
      } else if RvalueLocal(stmt.rv).Some? {
        EscapeKeepsVerdict(s1, RvalueLocal(stmt.rv).value, c);
        StorePasses(s1, stmt.dst, stmt.rv, c);
      }
    }
  }

  lemma StorePasses(s: Ownership, dst: Place, rv: Rvalue, c: Local)
    requires RvalueLocal(rv).Some? && RvalueLocal(rv).value != c && c != 0 && FreedKindOf(s, c) == Potential
    requires FreedKindOf(EscapeLocal(s, RvalueLocal(rv).value), c) == Potential
    ensures FreedKindOf(Store(s, dst, rv), c) == Potential
  {
    var l := RvalueLocal(rv).value;
    if dst.local == 0 && Deref !in dst.proj {
      SameObjectsSameVerdict(s, Store(s, dst, rv), c, c);
    } else if SimpleField(dst.proj).Some? {
      SameObjectsSameVerdict(s, StoreField(s, (dst.local, SimpleField(dst.proj).value), l), c, c);
    }
  }

  /** Any sequence of copies, moves, pointer casts and offsets carries the potential verdict to its result. */
  lemma {:induction false} VerdictFollowsPointer(body: Body, s: Ownership, stmts: seq<Statement>, path: seq<Local>)
    requires |path| == |stmts| + 1 && FreedKindOf(s, path[0]) == Potential
    requires forall i :: 0 <= i < |stmts| ==> Passes(stmts[i], path[i], path[i + 1])
    ensures FreedKindOf(Replay(body, s, stmts), path[|stmts|]) == Potential
    decreases |stmts|
  {
    if stmts != [] {
      var n := |stmts| - 1;
      VerdictFollowsPointer(body, s, stmts[..n], path[..n + 1]);
      assert Passes(stmts[n], path[n], path[n + 1]);
      StatementPasses(body, Replay(body, s, stmts[..n]), stmts[n], path[n], path[n + 1]);
    }
  }
}
