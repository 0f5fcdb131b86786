/** How a raw-pointer parameter that is handed on and freed shows in the ownership state. */
module Consume {
  import opened Mir
  import opened Lattice
  import opened State
  import opened O = OwnTransfer
  import opened I = OwnInvariant
  import opened V = OwnVerdicts

  // ----- the call -----

  /** Argument `pos` is the local `a`, and it alone reaches the object `id`. */
  ghost predicate OnlyArg(s: Ownership, args: seq<Operand>, pos: nat, a: Local, id: ObjectId) {
    && NthArgLocal(args, pos) == Some(a)
    && id in Get(s.pointsTo, a) && id in s.heap && s.heap[id] == RawOwned
    && forall j :: 0 <= j < |args| && j != pos && OperandLocal(args[j]).Some? ==>
         OperandLocal(args[j]).value != a && id !in Get(s.pointsTo, OperandLocal(args[j]).value)
  }

  ghost predicate Freed(s: Ownership, id: ObjectId) { id in s.heap && s.heap[id] == Reconstituted }

  lemma EscapeKeepsFreed(s: Ownership, l: Local, id: ObjectId)
    requires Freed(s, id)
    ensures Freed(EscapeLocal(s, l), id)
  {
  }

  lemma EffectKeepsFreed(s: Ownership, arg: Option<Local>, e: Effect, id: ObjectId)
    requires Freed(s, id)
    ensures Freed(ApplyEffect(s, arg, e), id)
  {
    if arg.Some? { EscapeKeepsFreed(s, arg.value, id); }
  }

  lemma EffectsKeepFreed(s: Ownership, args: seq<Operand>, effects: seq<(nat, Effect)>, id: ObjectId)
    requires Freed(s, id)
    ensures Freed(ApplyEffects(s, args, effects), id)
    decreases |effects|
  {
    if effects != [] {
      var arg := NthArgLocal(args, effects[0].0);
      EffectKeepsFreed(s, arg, effects[0].1, id);
      EffectsKeepFreed(ApplyEffect(s, arg, effects[0].1), args, effects[1..], id);
    }
  }

  /** The summary frees parameter `k` and does not let it escape. */
  predicate Frees(sum: FnSummary, k: nat) { (k, Reconstitutes) in sum.effects && (k, Escapes) !in sum.effects }

  lemma OtherEffect(s: Ownership, args: seq<Operand>, j: nat, e: Effect, pos: nat, a: Local, id: ObjectId)
    requires OnlyArg(s, args, pos, a, id) && j != pos
    ensures OnlyArg(ApplyEffect(s, NthArgLocal(args, j), e), args, pos, a, id)
  {
    var arg := NthArgLocal(args, j);
    if arg.Some? {
      assert arg.value != a && id !in Get(s.pointsTo, arg.value);
      var s' := ApplyEffect(s, arg, e);
      assert forall l <- s'.pointsTo.Keys :: l in s.pointsTo && s'.pointsTo[l] == s.pointsTo[l];
    }
  }

  /** Applying the effects of a freeing summary frees the argument's object, whatever the other effects are. */
  lemma {:induction false} EffectsFree(s: Ownership, args: seq<Operand>, effects: seq<(nat, Effect)>, pos: nat, a: Local, id: ObjectId)
    requires OnlyArg(s, args, pos, a, id) && (pos, Reconstitutes) in effects && (pos, Escapes) !in effects
    ensures Freed(ApplyEffects(s, args, effects), id)
    decreases |effects|
  {
    var (j, e) := effects[0];
    assert effects == [(j, e)] + effects[1..];
    var s' := ApplyEffect(s, NthArgLocal(args, j), e);
    if j == pos {
      assert e == Reconstitutes;
      EffectsKeepFreed(s', args, effects[1..], id);
    } else {
      OtherEffect(s, args, j, e, pos, a, id);
      EffectsFree(s', args, effects[1..], pos, a, id);
    }
  }

  /** Marking buffers stale touches no parameter object, nor a pointer that is nobody's interior. */
  lemma MarkStaleApart(body: Body, s: Ownership, recv: Local, id: ObjectId, a: Local)
    requires Named(s) && SUMMARY_BASE <= id
    ensures var s' := MarkStale(body, s, recv);
            && (id in s'.heap <==> id in s.heap) && (id in s.heap ==> s'.heap[id] == s.heap[id])
            && (id in Get(s'.pointsTo, a) ==> id in Get(s.pointsTo, a))
            && (a !in s.ownerAlias ==> Get(s'.pointsTo, a) == Get(s.pointsTo, a))
  {
    var stale := StaleSet(body, s, OwnersOrSelf(s, recv));
    forall p <- stale ensures StaleId(p) < SUMMARY_BASE {
      assert p in s.ownerAlias;
    }
  }

  lemma BeforeCallApart(body: Body, sums: SummaryMap, s: Ownership, callee: Option<Callee>, args: seq<Operand>, dest: Local, id: ObjectId, a: Local)
    requires Named(s) && SUMMARY_BASE <= id
    ensures var s' := BeforeCall(body, sums, s, callee, args, dest);
            && (id in s'.heap <==> id in s.heap) && (id in s.heap ==> s'.heap[id] == s.heap[id])
            && (id in Get(s'.pointsTo, a) ==> id in Get(s.pointsTo, a))
            && (a !in s.ownerAlias ==> Get(s'.pointsTo, a) == Get(s.pointsTo, a))
  {
    var recv := ReallocReceiver(sums, callee, args);
    var s1 := if recv.Some? then MarkStale(body, s, recv.value) else s;
    if recv.Some? { MarkStaleApart(body, s, recv.value, id, a); }
    BeforeCallShape(body, sums, s, callee, args, dest);
  }

  lemma BeforeCallShape(body: Body, sums: SummaryMap, s: Ownership, callee: Option<Callee>, args: seq<Operand>, dest: Local)
    ensures var recv := ReallocReceiver(sums, callee, args);
            var s1 := if recv.Some? then MarkStale(body, s, recv.value) else s;
            var s' := BeforeCall(body, sums, s, callee, args, dest);
            s'.heap == s1.heap && s'.pointsTo == s1.pointsTo
  {
  }

  // ----- a freed parameter stays freed -----

  lemma EscapeArgsKeepFreed(body: Body, s: Ownership, args: seq<Operand>, id: ObjectId)
    requires Freed(s, id)
    ensures Freed(EscapeArgs(body, s, args), id)
    decreases |args|
  {
    if args != [] {
      var l := OperandLocal(args[0]);
      if l.Some? { EscapeKeepsFreed(s, l.value, id); }
      EscapeArgsKeepFreed(body,
        if l.Some? && (TyOf(body, l.value).RawPtr? || l.value in s.pointsTo) then EscapeLocal(s, l.value) else s,
        args[1..], id);
    }
  }

  lemma StoreKeepsFreed(s: Ownership, dst: Place, rv: Rvalue, id: ObjectId)
    requires Freed(s, id)
    ensures Freed(Store(s, dst, rv), id)
  {
    if RvalueLocal(rv).Some? {
      EscapeKeepsFreed(s, RvalueLocal(rv).value, id);
    }
  }

  lemma TrackHeap(s: Ownership, d: Local, rv: Rvalue)
    ensures Track(s, d, rv).heap == s.heap
  {
    match rv
    case Binary(bop, a, b) => BinaryShape(s, d, bop, a, b);
    case _ =>
  }

  lemma StatementKeepsFreed(body: Body, s: Ownership, stmt: Statement, id: ObjectId)
    requires Freed(s, id)
    ensures Freed(ApplyStatement(body, s, stmt), id)
  {
    if stmt.Assign? {
      var d := stmt.dst.local;
      var s1 := InvalidateOwners(s, {d});
      if stmt.dst.proj != [] {
        StoreKeepsFreed(s1, stmt.dst, stmt.rv, id);
      } else {
        TrackHeap(ClearFields(SetAlias(s1, d, RvalueOwners(body, s1, d, stmt.rv)), d), d, stmt.rv);
      }
    }
  }

  lemma {:induction false} ReplayKeepsFreed(body: Body, s: Ownership, stmts: seq<Statement>, id: ObjectId)
    requires Freed(s, id)
    ensures Freed(Replay(body, s, stmts), id)
    decreases |stmts|
  {
    if stmts != [] {
      var n := |stmts| - 1;
      ReplayKeepsFreed(body, s, stmts[..n], id);
      StatementKeepsFreed(body, Replay(body, s, stmts[..n]), stmts[n], id);
    }
  }

  lemma SummaryKeepsFreed(body: Body, s: Ownership, args: seq<Operand>, dest: Local, bb: Block, sum: FnSummary, id: ObjectId)
    requires Freed(ApplyEffects(s, args, sum.effects), id) && id != Site(bb)
    ensures Freed(ApplySummary(body, s, args, dest, bb, sum), id)
  {
    var l :| l != dest;
    ReturnShape(body, ApplyEffects(s, args, sum.effects), args, dest, bb, sum, l);
  }

  lemma PlainShape(body: Body, sums: SummaryMap, s: Ownership, c: Callee, args: seq<Operand>, dest: Local, bb: Block)
    requires c.role.Plain?
    ensures ByRole(body, sums, s, c, args, dest, bb).heap ==
            if c.def in sums then ApplySummary(body, s, args, dest, bb, sums[c.def]).heap
            else if c.accessor || !c.role.touch.Anything? then s.heap
            else EscapeArgs(body, s, args).heap
  {
  }

  lemma RoleKeepsFreed(body: Body, sums: SummaryMap, s: Ownership, c: Callee, args: seq<Operand>, dest: Local, bb: Block, id: ObjectId)
    requires Freed(s, id) && id != Site(bb)
    requires c.role.MemForget? && FirstArgBase(args).Some? ==> id !in Get(s.pointsTo, FirstArgBase(args).value)
    ensures Freed(ByRole(body, sums, s, c, args, dest, bb), id)
  {
    match c.role
    case Plain(_) =>
      PlainShape(body, sums, s, c, args, dest, bb);
      EscapeArgsKeepFreed(body, s, args, id);
      if c.def in sums {
        EffectsKeepFreed(s, args, sums[c.def].effects, id);
        SummaryKeepsFreed(body, s, args, dest, bb, sums[c.def], id);
      }
    case RawRealloc => assert ByRole(body, sums, s, c, args, dest, bb) == RawReallocCall(s, args, dest, bb);
    case FromRaw => assert ByRole(body, sums, s, c, args, dest, bb) == FromRawCall(s, args, dest);
    case MemForget => assert ByRole(body, sums, s, c, args, dest, bb) == ForgetCall(s, args, dest);
    case _ =>
  }

  /** `mem::forget` is given a local that points to `id`. */
  predicate Forgets(s: Ownership, term: Terminator, id: ObjectId) {
    && term.Call? && term.callee.Some? && term.callee.value.role.MemForget?
    && FirstArgBase(term.args).Some? && id in Get(s.pointsTo, FirstArgBase(term.args).value)
  }

  /** No statement and no terminator brings a freed parameter back, except `mem::forget` of a local that points to it. */
  lemma TerminatorKeepsFreed(body: Body, sums: SummaryMap, s: Ownership, bb: Block, term: Terminator, id: ObjectId)
    requires Named(s) && SUMMARY_BASE <= id && bb < LIMIT && Freed(s, id) && !Forgets(s, term, id)
    ensures Freed(ApplyTerminator(body, sums, s, bb, term), id)
  {
    match term
    case Call(callee, args, dest, _, _) =>
      var s1 := BeforeCall(body, sums, s, callee, args, dest.local);
      BeforeCallApart(body, sums, s, callee, args, dest.local, id, if FirstArgBase(args).Some? then FirstArgBase(args).value else 0);
      if callee.None? || dest.proj != [] {
        EscapeArgsKeepFreed(body, s1, args, id);
      } else {
        RoleKeepsFreed(body, sums, s1, callee.value, args, dest.local, bb, id);
      }
    case _ =>
  }

  // ----- the freeing call -----

  /** The call frees the object its argument `pos` alone reaches: directly, or by the summary of its callee. */
  predicate CallFrees(sums: SummaryMap, c: Callee, pos: nat) {
    (c.role.FromRaw? && pos == 0) || (c.role.Plain? && c.def in sums && Frees(sums[c.def], pos))
  }

  lemma CallFreesArg(body: Body, sums: SummaryMap, s: Ownership, bb: Block, c: Callee, args: seq<Operand>, dest: Local, pos: nat, a: Local, id: ObjectId)
    requires CallFrees(sums, c, pos) && OnlyArg(s, args, pos, a, id) && id != Site(bb)
    ensures Freed(ByRole(body, sums, s, c, args, dest, bb), id)
  {
    if c.role.Plain? {
      PlainShape(body, sums, s, c, args, dest, bb);
      EffectsFree(s, args, sums[c.def].effects, pos, a, id);
      SummaryKeepsFreed(body, s, args, dest, bb, sums[c.def], id);
    }
  }

  lemma TerminatorFrees(body: Body, sums: SummaryMap, s: Ownership, bb: Block, term: Terminator, pos: nat, a: Local, id: ObjectId)
    requires Named(s) && SUMMARY_BASE <= id && bb < LIMIT && a !in s.ownerAlias
    requires term.Call? && term.callee.Some? && term.dest.proj == []
    requires CallFrees(sums, term.callee.value, pos) && OnlyArg(s, term.args, pos, a, id)
    ensures Freed(ApplyTerminator(body, sums, s, bb, term), id)
  {
    var args, dest := term.args, term.dest.local;
    var s1 := BeforeCall(body, sums, s, term.callee, args, dest);
    BeforeCallApart(body, sums, s, term.callee, args, dest, id, a);
    forall j | 0 <= j < |args| && j != pos && OperandLocal(args[j]).Some?
      ensures OperandLocal(args[j]).value != a && id !in Get(s1.pointsTo, OperandLocal(args[j]).value)
    {
      BeforeCallApart(body, sums, s, term.callee, args, dest, id, OperandLocal(args[j]).value);
    }
    CallFreesArg(body, sums, s1, bb, term.callee.value, args, dest, pos, a, id);
  }

  // ----- a summary acts as the call it stands for -----

  /**
  Applying a summary whose only heap effect is freeing parameter `k` makes the heap transition, and leaves every other
  pointer, exactly as a direct `from_raw` of that argument does.
  */
  lemma SummaryActsAsFromRaw(body: Body, s: Ownership, args: seq<Operand>, dest: Local, bb: Block, sum: FnSummary, k: nat, l: Local)
    requires sum.effects == [(k, Reconstitutes)] && !sum.returnsRawOwned && NthArgLocal(args, k).Some? && l != dest
    ensures var s', s'' := ApplySummary(body, s, args, dest, bb, sum), FromRawCall(s, [args[k]], dest);
            s'.heap == s''.heap && Get(s'.pointsTo, l) == Get(s''.pointsTo, l)
  {
    var a := NthArgLocal(args, k).value;
    assert sum.effects[1..] == [];
    assert ApplyEffects(s, args, sum.effects) == ApplyEffect(s, Some(a), Reconstitutes);
    ReturnShape(body, ApplyEffects(s, args, sum.effects), args, dest, bb, sum, l);
    FromRawIs(s, args[k], a, dest, l);
  }

  lemma FromRawIs(s: Ownership, op: Operand, a: Local, dest: Local, l: Local)
    requires OperandLocal(op) == Some(a) && l != dest
    ensures FromRawCall(s, [op], dest).heap == Reconstitute(s.heap, Get(s.pointsTo, a))
    ensures Get(FromRawCall(s, [op], dest).pointsTo, l) == Get(s.pointsTo, l)
  {
  }
}
