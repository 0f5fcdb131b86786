/**
The transfer as the analyzer runs it: one mutable state updated in place, statement after statement. Every method
is tied to the function on values that specifies it.
*/
module FlowState {
  import opened Mir
  import opened Lattice
  import opened State
  import R = RangeTransfer
  import O = OwnTransfer
  import C = CapTransfer
  import T = Transfer

  class FlowState {
    var own: Ownership
    var range: Ranges
    var cap: Capacities

    function Value(): BlockState
      reads this
    {
      BlockState(own, range, cap)
    }

    constructor (s: BlockState)
      ensures Value() == s
    {
      own, range, cap := s.own, s.range, s.cap;
    }

    // ----- state.rs -----

    /** Remove `owner` from every alias set, then drop the sets left empty. */
    method InvalidateOwner(owner: Local)
      modifies this`own
      ensures own == O.InvalidateOwners(old(own), {owner})
    {
      var alias := SubtractOwner(own.ownerAlias, owner);
      RetainIs(own, alias, owner);
      own := own.(ownerAlias := RetainNonEmpty(alias));
    }

    /** Escape what `l` points to, except what is already freed, and stop tracking it. */
    method EscapeLocal(l: Local)
      modifies this`own
      ensures own == O.EscapeLocal(old(own), l)
    {
      var heap := own.heap;
      if l in own.pointsTo {
        var todo := own.pointsTo[l];
        ghost var objs := set id | id in own.pointsTo[l] && !O.IsFreed(own.heap, id);
        while todo != {}
          invariant todo <= own.pointsTo[l] && own == old(own) && l in own.pointsTo
          invariant heap == O.SetAll(own.heap, objs - todo, Escaped)
        {
          var id :| id in todo;
          if !O.IsFreed(heap, id) {
            heap := heap[id := Escaped];
          }
          todo := todo - {id};
        }
        assert objs - todo == objs;
      }
      own := own.(heap := heap, pointsTo := own.pointsTo - {l},
                  localProto := own.localProto - {l}, ownerAlias := own.ownerAlias - {l});
    }

    /** `RawOwned -> Reconstituted` for every object `src` may point to. */
    method Reconstitute(src: Local)
      modifies this`own
      ensures own == old(own).(heap := O.Reconstitute(old(own).heap, Get(old(own).pointsTo, src)))
    {
      var objs := Get(own.pointsTo, src);
      var todo := objs;
      while todo != {}
        invariant todo <= objs
        invariant own == old(own).(heap := O.Reconstitute(old(own).heap, objs - todo))
      {
        var id :| id in todo;
        if id in own.heap && own.heap[id] == RawOwned {
          own := own.(heap := own.heap[id := Reconstituted]);
        }
        todo := todo - {id};
      }
      assert objs - todo == objs;
    }

    // ----- apply_statement, ownership part -----

    /** `update_owner_alias`: collect the owners of an aggregate operand by operand, or follow the one place. */
    method UpdateOwnerAlias(body: Body, d: Local, rv: Rvalue)
      modifies this`own
      ensures own == O.SetAlias(old(own), d, O.RvalueOwners(body, old(own), d, rv))
    {
      var owners := {};
      if rv.Aggregate? {
        for i := 0 to |rv.ops|
          invariant own == old(own) && owners == O.GatherAliases(own, rv.ops[..i])
        {
          var l := OperandLocal(rv.ops[i]);
          assert rv.ops[..i + 1] == rv.ops[..i] + [rv.ops[i]];
          if l.Some? {
            owners := owners + Get(own.ownerAlias, l.value);
          }
        }
        assert rv.ops[..|rv.ops|] == rv.ops;
      } else if O.RvaluePlace(rv).Some? && !O.IsNumeric(TyOf(body, d)) {
        var place := O.RvaluePlace(rv).value;
        if place.local in own.ownerAlias {
          owners := own.ownerAlias[place.local];
        } else {
          var derefs, fields := false, false;
          for i := 0 to |place.proj|
            invariant derefs <==> Deref in place.proj[..i]
            invariant fields <==> exists k :: 0 <= k < i && place.proj[k].Field?
          {
            if place.proj[i].Deref? { derefs := true; }
            if place.proj[i].Field? { fields := true; }
          }
          assert place.proj[..|place.proj|] == place.proj;
          if (derefs && IsReferenceParam(body, place.local)) || (fields && IsParam(body, place.local)) {
            owners := {place.local};
          }
        }
      }
      if owners == {} {
        own := own.(ownerAlias := own.ownerAlias - {d});
      } else {
        own := own.(ownerAlias := own.ownerAlias[d := owners]);
      }
    }

    /** `d` points to `objs`, or is not tracked if there are none. */
    method SetPointsTo(d: Local, objs: set<ObjectId>)
      modifies this`own
      ensures own == O.SetPts(old(own), d, objs)
    {
      if objs != {} {
        own := own.(pointsTo := own.pointsTo[d := objs]);
      } else {
        own := own.(pointsTo := own.pointsTo - {d});
      }
    }

    method CopyPointsTo(d: Local, src: Local)
      modifies this`own
      ensures own == O.CopyPts(old(own), d, src)
    {
      if src in own.pointsTo {
        own := own.(pointsTo := own.pointsTo[d := own.pointsTo[src]]);
      } else {
        own := own.(pointsTo := own.pointsTo - {d});
      }
    }

    method DropProto(d: Local)
      modifies this`own
      ensures own == O.DropProto(old(own), d)
    {
      own := own.(localProto := own.localProto - {d});
    }

    method Forget(d: Local)
      modifies this`own
      ensures own == O.Forget(old(own), d)
    {
      own := own.(pointsTo := own.pointsTo - {d});
      DropProto(d);
    }

    method MoveTracking(d: Local, src: Local)
      modifies this`own
      ensures own == O.MoveLocal(old(own), d, src)
    {
      var objs, protos := Get(own.pointsTo, src), Get(own.localProto, src);
      own := own.(pointsTo := own.pointsTo - {src}, localProto := own.localProto - {src});
      SetPointsTo(d, objs);
      if protos != {} {
        own := own.(localProto := own.localProto[d := protos]);
      } else {
        own := own.(localProto := own.localProto - {d});
      }
      assert own.localProto == O.MoveLocal(old(own), d, src).localProto;
    }

    method CopyTracking(d: Local, src: Local)
      modifies this`own
      ensures own == O.CopyLocal(old(own), d, src)
    {
      CopyPointsTo(d, src);
      if src in own.localProto {
        own := own.(localProto := own.localProto[d := own.localProto[src]]);
      } else {
        own := own.(localProto := own.localProto - {d});
      }
    }

    /** A field read takes the objects of its base, or else those stored under the field. */
    method ReadField(d: Local, p: Place)
      modifies this`own
      ensures own == O.DropProto(O.FieldRead(old(own), d, p), d)
    {
      var f := SimpleField(p.proj);
      if p.local in own.pointsTo {
        own := own.(pointsTo := own.pointsTo[d := own.pointsTo[p.local]]);
      } else if f.Some? && (p.local, f.value) in own.fieldOwned {
        own := own.(pointsTo := own.pointsTo[d := own.fieldOwned[(p.local, f.value)]]);
      } else {
        own := own.(pointsTo := own.pointsTo - {d});
      }
      DropProto(d);
    }

    method TrackUse(d: Local, op: Operand)
      modifies this`own
      ensures own == O.Track(old(own), d, Use(op))
    {
      if op.Const? {
        Forget(d);
      } else if op.place.proj == [] {
        if op.Move? { MoveTracking(d, op.place.local); } else { CopyTracking(d, op.place.local); }
      } else if AtMostLeadingDeref(op.place.proj) {
        ReadField(d, op.place);
      } else {
        Forget(d);
        if op.Move? { Forget(op.place.local); }
      }
    }

    /** Pointer arithmetic follows the first tracked operand. */
    method TrackBinary(d: Local, bop: BinOp, a: Operand, b: Operand)
      modifies this`own
      ensures own == O.DropProto(O.BinaryPts(old(own), d, bop, a, b), d)
    {
      var src := None;
      if bop == Offset || bop == Add || bop == Sub {
        if OperandLocal(a).Some? && OperandLocal(a).value in own.pointsTo {
          src := OperandLocal(a);
        } else if OperandLocal(b).Some? && OperandLocal(b).value in own.pointsTo {
          src := OperandLocal(b);
        }
      }
      if src.Some? {
        own := own.(pointsTo := own.pointsTo[d := own.pointsTo[src.value]]);
      } else {
        own := own.(pointsTo := own.pointsTo - {d});
      }
      DropProto(d);
    }

    /** An aggregate points to what its operands point to. */
    method TrackAggregate(d: Local, ops: seq<Operand>)
      modifies this`own
      ensures own == O.DropProto(O.SetPts(old(own), d, O.GatherObjects(old(own), ops)), d)
    {
      var objs := {};
      for i := 0 to |ops|
        invariant own == old(own) && objs == O.GatherObjects(own, ops[..i])
      {
        var l := OperandLocal(ops[i]);
        assert ops[..i + 1] == ops[..i] + [ops[i]];
        if l.Some? {
          objs := objs + Get(own.pointsTo, l.value);
        }
      }
      assert ops[..|ops|] == ops;
      SetPointsTo(d, objs);
      DropProto(d);
    }

    /** The rvalue arms that move, copy or drop tracking. */
    method TrackRvalue(d: Local, rv: Rvalue)
      modifies this`own
      ensures own == O.Track(old(own), d, rv)
    {
      match rv
      case Use(op) => TrackUse(d, op);
      case BorrowOf(p) =>
        if p.proj == [] { SetPointsTo(d, Get(own.pointsTo, p.local)); DropProto(d); } else { Forget(d); }
      case AddrOf(p) =>
        if p.proj == [] || p.proj == [Deref] { SetPointsTo(d, Get(own.pointsTo, p.local)); DropProto(d); } else { Forget(d); }
      case Aggregate(ops) => TrackAggregate(d, ops);
      case PtrCast(op) =>
        if OperandLocal(op).Some? { CopyPointsTo(d, OperandLocal(op).value); DropProto(d); } else { Forget(d); }
      case IntCast(op, _) =>
        if OperandLocal(op).None? { Forget(d); }
      case Binary(bop, a, b) => TrackBinary(d, bop, a, b);
      case PtrMetadata(_) => Forget(d);
      case Opaque(_) => Forget(d);
    }

    /** A store into a projection. */
    method StoreProjected(dst: Place, rv: Rvalue)
      modifies this`own
      ensures own == O.Store(old(own), dst, rv)
    {
      var src := RvalueLocal(rv);
      if src.None? { return; }
      var objs := Get(own.pointsTo, src.value);
      if dst.local == 0 && Deref !in dst.proj {
        if objs != {} {
          own := own.(pointsTo := own.pointsTo[0 := Get(own.pointsTo, 0) + objs]);
        }
      } else if SimpleField(dst.proj).Some? {
        var key := (dst.local, SimpleField(dst.proj).value);
        own := own.(pointsTo := own.pointsTo - {src.value});
        if objs != {} {
          own := own.(fieldOwned := own.fieldOwned[key := objs]);
        } else {
          own := own.(fieldOwned := own.fieldOwned - {key});
        }
        own := own.(localProto := own.localProto - {src.value}, ownerAlias := own.ownerAlias - {src.value});
      } else {
        EscapeLocal(src.value);
      }
    }

    // ----- value ranges and capacities -----

    /** `const_upper.entry(l).or_insert(MAX)` lowered to `k`. */
    method LowerUpper(l: Local, k: U64)
      modifies this`range
      ensures range == old(range).(upper := old(range).upper[l := R.Min(if l in old(range).upper then old(range).upper[l] else U64_MAX, k)])
    {
      if l !in range.upper { range := range.(upper := range.upper[l := U64_MAX]); }
      if k < range.upper[l] { range := range.(upper := range.upper[l := k]); }
    }

    /** `const_lower.entry(l).or_insert(0)` raised to `k`. */
    method RaiseLower(l: Local, k: U64)
      modifies this`range
      ensures range == old(range).(lower := old(range).lower[l := R.Max(if l in old(range).lower then old(range).lower[l] else 0, k)])
    {
      if l !in range.lower { range := range.(lower := range.lower[l := 0]); }
      if range.lower[l] < k { range := range.(lower := range.lower[l := k]); }
    }

    /** `enforce_type_facts`. */
    method EnforceTypeFacts(l: Local, ty: Ty)
      modifies this`range
      ensures range == R.TypeFacts(old(range), l, ty)
    {
      if ty.NonZero? { range := range.(nonzero := range.nonzero + {l}); }
      var max := UintTypeMax(ty);
      if max.Some? { LowerUpper(l, max.value); }
    }

    /** Remove what the range maps say of `d`, map by map; the overflow marks are left. */
    method ClearRange(d: Local)
      modifies this`range
      ensures range == R.Kill(old(range), d, false)
    {
      range := range.(nonzero := range.nonzero - {d}, upper := range.upper - {d}, lower := range.lower - {d});
      range := range.(nonzeroIf := range.nonzeroIf - {(true, d)});
      range := range.(nonzeroIf := range.nonzeroIf - {(false, d)});
      range := range.(constIf := range.constIf - {(Lt, d)});
      range := range.(constIf := range.constIf - {(Le, d)});
      range := range.(constIf := range.constIf - {(Gt, d)});
      range := range.(constIf := range.constIf - {(Ge, d)});
      range := range.(pairIf := range.pairIf - {(false, d)});
      range := range.(pairIf := range.pairIf - {(true, d)});
      range := range.(pairs := (set p | p in range.pairs && p.1 != d && p.2 != d));
      BothTags(old(range).nonzeroIf, d);
      BothTags(old(range).pairIf, d);
      AllRels(old(range).constIf, d);
    }

    /** The same for the capacity maps. */
    method ClearCap(d: Local)
      modifies this`cap
      ensures cap == C.Kill(old(cap), d)
    {
      cap := cap.(refBase := cap.refBase - {d});
      cap := cap.(sizeOf := cap.sizeOf - {(Length, d)});
      cap := cap.(sizeOf := cap.sizeOf - {(Capacity, d)});
      cap := cap.(capIf := cap.capIf - {(Spare, true, d), (Spare, false, d)}, capProof := cap.capProof - {(Spare, d)});
      cap := cap.(capIf := cap.capIf - {(Full, true, d), (Full, false, d)}, capProof := cap.capProof - {(Full, d)});
      AllSizes(old(cap), d);
    }

    /** What a comparison promises goes into the map of its kind. */
    method RecordPromise(d: Local, p: R.Promise)
      modifies this`range
      ensures range == R.Record(old(range), d, p)
    {
      if p.bound.Some? {
        var (rel, l, k) := p.bound.value;
        range := range.(constIf := range.constIf[(rel, d) := (l, k)]);
      }
      if p.nonzero.Some? {
        range := range.(nonzeroIf := range.nonzeroIf[(p.nonzero.value.0, d) := p.nonzero.value.1]);
      }
      if p.pair.Some? {
        var (isEq, a, b) := p.pair.value;
        range := range.(pairIf := range.pairIf[(isEq, d) := (a, b)]);
      }
    }

    /** Clear what is known of `d`, evaluate, transfer from a moved source, record comparisons, add type facts. */
    method AssignRange(body: Body, d: Local, rv: Rvalue)
      modifies this`range
      ensures range == R.AssignLocal(body, old(range), d, rv)
    {
      ClearRange(d);
      range := range.(mulOverflow := range.mulOverflow - {d}, layoutOverflow := range.layoutOverflow - {d});
      var fact := R.RvalueFact(range, rv, TyOf(body, d));
      if fact.upper.Some? { range := range.(upper := range.upper[d := fact.upper.value]); }
      if fact.lower.Some? { range := range.(lower := range.lower[d := fact.lower.value]); }
      if fact.nonzero { range := range.(nonzero := range.nonzero + {d}); }
      if fact.overflow { range := range.(mulOverflow := range.mulOverflow + {d}); }
      if fact.layout { range := range.(layoutOverflow := range.layoutOverflow + {d}); }
      if rv.Use? && rv.op.Move? && rv.op.place.proj == [] {
        range := R.Consume(range, rv.op.place.local);
      }
      if rv.Binary? {
        RecordPromise(d, R.PromiseOf(rv.bop, rv.op1, rv.op2));
      }
      EnforceTypeFacts(d, TyOf(body, d));
    }

    method AssignCap(d: Local, rv: Rvalue)
      modifies this`cap
      ensures cap == C.AssignLocal(old(cap), d, rv)
    {
      ClearCap(d);
      if rv.BorrowOf? && (rv.place.proj == [] || rv.place.proj == [Deref]) {
        cap := cap.(refBase := cap.refBase[d := rv.place.local]);
      }
      if rv.Use? && OperandLocal(rv.op).Some? {
        cap := C.Propagate(cap, d, OperandLocal(rv.op).value, rv.op.Move?);
      }
      if rv.PtrMetadata? && OperandLocal(rv.op).Some? {
        cap := cap.(sizeOf := cap.sizeOf[(Length, d) := C.DerefBase(cap, OperandLocal(rv.op).value)]);
      }
      if rv.Binary? {
        var p := C.CapPromise(cap, rv.bop, rv.op1, rv.op2);
        if p.Some? { cap := cap.(capIf := cap.capIf[(p.value.0, p.value.1, d) := p.value.2]); }
      }
    }

    /** `apply_statement`. */
    method ApplyStatement(body: Body, stmt: Statement)
      modifies this
      ensures Value() == T.ApplyStatement(body, old(Value()), stmt)
    {
      if stmt.Nop? { return; }
      var d := stmt.dst.local;
      InvalidateOwner(d);
      if stmt.dst.proj != [] {
        StoreProjected(stmt.dst, stmt.rv);
        return;
      }
      UpdateOwnerAlias(body, d, stmt.rv);
      own := O.ClearFields(own, d);
      AssignRange(body, d, stmt.rv);
      AssignCap(d, stmt.rv);
      TrackRvalue(d, stmt.rv);
    }

    /** Replay of a block's statements, as `state_before_terminator` does. */
    method Replay(body: Body, stmts: seq<Statement>)
      modifies this
      ensures Value() == T.Replay(body, old(Value()), stmts)
    {
      for i := 0 to |stmts|
        invariant Value() == T.Replay(body, old(Value()), stmts[..i])
      {
        assert stmts[..i + 1][..i] == stmts[..i];
        ApplyStatement(body, stmts[i]);
      }
      assert stmts[..|stmts|] == stmts;
    }

    // ----- apply_terminator -----

    /** Redirect every handle into the reallocated buffer to its own possibly freed object. */
    method MarkStale(body: Body, recv: Local)
      modifies this`own
      ensures own == O.MarkStale(body, old(own), recv)
    {
      var owners := O.OwnersOrSelf(own, recv);
      own := O.NoteRealloc(body, own, owners);
      ghost var noted := own;
      var stale := O.StaleSet(body, own, owners);
      var todo := stale;
      RedirectNone(own);
      while todo != {}
        invariant todo <= stale && own == O.Redirect(noted, stale - todo)
      {
        var p :| p in todo;
        RedirectMore(noted, stale - todo, p);
        assert stale - (todo - {p}) == (stale - todo) + {p};
        own := own.(heap := own.heap[O.StaleId(p) := MaybeFreed], pointsTo := own.pointsTo[p := {O.StaleId(p)}],
                    ownerAlias := own.ownerAlias - {p});
        todo := todo - {p};
      }
      assert stale - todo == stale;
    }

    /** `invalidate_owner_args`: collect the owners a callee can reach, then invalidate them one by one. */
    method InvalidateOwnerArgs(body: Body, args: seq<Operand>, skip: Option<nat>)
      modifies this`own
      ensures own == O.InvalidateArgs(body, old(own), args, skip)
    {
      var owners := {};
      for i := 0 to |args|
        invariant own == old(own)
        invariant owners == set k, o | 0 <= k < i && Some(k) != skip && o in O.ReachedOwners(body, own, args[k]) :: o
      {
        if Some(i) == skip { continue; }
        owners := owners + O.ReachedOwners(body, own, args[i]);
      }
      assert owners == O.ArgOwners(body, own, args, skip);
      var todo := owners;
      while todo != {}
        invariant todo <= owners && own == O.InvalidateOwners(old(own), owners - todo)
      {
        var o :| o in todo;
        InvalidateMore(old(own), owners - todo, o);
        assert owners - (todo - {o}) == (owners - todo) + {o};
        InvalidateOwner(o);
        todo := todo - {o};
      }
      assert owners - todo == owners;
    }

    method EscapeArgs(body: Body, args: seq<Operand>)
      modifies this`own
      ensures own == O.EscapeArgs(body, old(own), args)
    {
      assert args[0..] == args;
      for i := 0 to |args|
        invariant O.EscapeArgs(body, own, args[i..]) == O.EscapeArgs(body, old(own), args)
      {
        assert args[i..][0] == args[i] && args[i..][1..] == args[i + 1..];
        var l := OperandLocal(args[i]);
        if l.Some? && (TyOf(body, l.value).RawPtr? || l.value in own.pointsTo) {
          EscapeLocal(l.value);
        }
      }
    }

    /** The parameter effects of `apply_fn_summary`. */
    method ApplyEffects(args: seq<Operand>, effects: seq<(nat, O.Effect)>)
      modifies this`own
      ensures own == O.ApplyEffects(old(own), args, effects)
    {
      assert effects[0..] == effects;
      for i := 0 to |effects|
        invariant O.ApplyEffects(own, args, effects[i..]) == O.ApplyEffects(old(own), args, effects)
      {
        assert effects[i..][0] == effects[i] && effects[i..][1..] == effects[i + 1..];
        var arg := NthArgLocal(args, effects[i].0);
        if arg.None? { continue; }
        if effects[i].1 == O.Reconstitutes {
          Reconstitute(arg.value);
          own := O.DropProto(own, arg.value);
        } else {
          EscapeLocal(arg.value);
        }
      }
    }

    /** `apply_fn_summary`. */
    method ApplySummary(body: Body, args: seq<Operand>, dest: Local, bb: Block, sum: O.FnSummary)
      modifies this`own
      ensures own == O.ApplySummary(body, old(own), args, dest, bb, sum)
    {
      ApplyEffects(args, sum.effects);
      if sum.returnsRawOwned {
        own := O.AllocateAt(own, dest, bb);
      } else {
        own := O.Forget(own, dest);
      }
      own := O.DropAlias(own, dest);
      if sum.aliasOf.Some? && NthArgLocal(args, sum.aliasOf.value).Some? {
        own := O.ReturnAlias(body, own, NthArgLocal(args, sum.aliasOf.value).value, dest);
      }
      if sum.ptrOf.Some? && NthArgLocal(args, sum.ptrOf.value).Some? {
        own := O.AddPts(own, dest, Get(own.pointsTo, NthArgLocal(args, sum.ptrOf.value).value));
      }
    }

    method AddPointsTo(d: Local, objs: set<ObjectId>)
      modifies this`own
      ensures own == O.AddPts(old(own), d, objs)
    {
      if objs != {} { own := own.(pointsTo := own.pointsTo[d := objs]); }
    }

    /** `mem::forget`: the objects escape and the guards are forgotten, one by one; the local is not tracked any more. */
    method ForgetObjects(src: Local)
      modifies this`own
      ensures own == O.Forget(old(own).(heap := O.SetAll(old(own).heap, Get(old(own).pointsTo, src), Escaped),
                                        typestate := O.SetAll(old(own).typestate, Get(old(own).localProto, src), Forgotten)), src)
    {
      var heap := SetEach(own.heap, Get(own.pointsTo, src), Escaped);
      var typestate := SetEach(own.typestate, Get(own.localProto, src), Forgotten);
      own := own.(heap := heap, typestate := typestate);
      Forget(src);
    }

    /** A callee without summary or role: an accessor hands on its receiver, a known reader changes nothing. */
    method CallUnknown(body: Body, c: Callee, args: seq<Operand>, dest: Local)
      modifies this`own
      ensures own == O.UnknownCall(body, old(own), c, args, dest)
    {
      var a := FirstArgLocal(args);
      if c.accessor {
        if a.Some? {
          var owners := Get(own.ownerAlias, a.value);
          if owners != {} { own := own.(ownerAlias := own.ownerAlias[dest := owners]); }
          AddPointsTo(dest, Get(own.pointsTo, a.value));
        }
      } else if !c.role.Plain? || c.role.touch.Anything? {
        EscapeArgs(body, args);
      }
    }

    /** The handler of the callee's role. */
    method DispatchRole(body: Body, sums: O.SummaryMap, c: Callee, args: seq<Operand>, dest: Local, bb: Block)
      modifies this`own
      ensures own == O.ByRole(body, sums, old(own), c, args, dest, bb)
    {
      match c.role
      case RawRealloc =>
        if FirstArgLocal(args).Some? { Reconstitute(FirstArgLocal(args).value); }
        own := O.AllocateAt(own, dest, bb);
      case IntoRaw =>
        own := O.AllocateAt(own, dest, bb);
      case FromRaw =>
        var src := if FirstArgLocal(args).Some? then FirstArgLocal(args) else FirstArgBase(args);
        if src.Some? { Reconstitute(src.value); }
        own := O.DropAlias(O.Forget(own, dest), dest);
        if src.Some? && src.value in own.ownerAlias {
          own := own.(ownerAlias := own.ownerAlias[dest := own.ownerAlias[src.value]]);
        }
      case Plain(touch) =>
        if c.def in sums {
          ApplySummary(body, args, dest, bb, sums[c.def]);
          if c.accessor && dest !in own.pointsTo && FirstArgLocal(args).Some? {
            AddPointsTo(dest, Get(own.pointsTo, FirstArgLocal(args).value));
          }
        } else {
          CallUnknown(body, c, args, dest);
          DropProto(dest);
        }
      case MemForget =>
        var src := FirstArgBase(args);
        if src.Some? {
          ForgetObjects(src.value);
        }
        Forget(dest);
      case Acquire =>
        own := own.(localProto := own.localProto[dest := Get(own.localProto, dest) + {O.Site(bb)}]);
        own := own.(typestate := own.typestate[O.Site(bb) := Active]);
      case PtrRead =>
        var a := FirstArgLocal(args);
        if a.Some? {
          SetPointsTo(dest, Get(own.pointsTo, a.value));
        } else {
          own := own.(pointsTo := own.pointsTo - {dest});
        }
        DropProto(dest);
      case MuAccess => DropProto(dest);
      case BufWrite => Forget(dest);
    }

    /** The call arm of `apply_terminator` on the ownership slice. */
    method CallOwn(body: Body, sums: O.SummaryMap, bb: Block, callee: Option<Callee>, args: seq<Operand>, dest: Place)
      modifies this`own
      ensures own == O.ApplyTerminator(body, sums, old(own), bb, Call(callee, args, dest, None, None))
    {
      var recv := O.ReallocReceiver(sums, callee, args);
      if recv.Some? { MarkStale(body, recv.value); }
      InvalidateOwnerArgs(body, args, O.ReturnedArg(sums, callee));
      InvalidateOwner(dest.local);
      own := O.DropAlias(own, dest.local);
      if callee.None? || dest.proj != [] {
        EscapeArgs(body, args);
      } else {
        DispatchRole(body, sums, callee.value, args, dest.local, bb);
      }
    }

    /** A call drops the proofs of every collection it is given a mutable handle to. */
    method DropCapProofs(body: Body, args: seq<Operand>)
      modifies this`cap
      ensures cap == C.DropProofs(old(cap), C.Mutated(body, old(cap), args))
    {
      for i := 0 to |args|
        invariant cap == C.DropProofs(old(cap), C.Mutated(body, old(cap), args[..i]))
      {
        assert args[..i + 1] == args[..i] + [args[i]];
        var l := OperandLocal(args[i]);
        if l.Some? && C.IsMutableHandle(TyOf(body, l.value)) {
          var base := C.DerefBase(cap, l.value);
          MutatedMore(body, old(cap), args[..i], args[i], base);
          DropMore(old(cap), C.Mutated(body, old(cap), args[..i]), base);
          cap := cap.(capProof := cap.capProof - {(Spare, base)});
          cap := cap.(capProof := cap.capProof - {(Full, base)});
        } else {
          assert C.Mutated(body, old(cap), args[..i + 1]) == C.Mutated(body, old(cap), args[..i]);
        }
      }
      assert args[..|args|] == args;
    }

    /** What `len`, `capacity`, `deref`, `eq` and `ne` say of their destination. */
    method NoteResult(c: Callee, args: seq<Operand>, d: Local)
      modifies this`range, this`cap
      ensures range == R.Record(old(range), d, R.CallPromise(old(cap).refBase, c, args))
      ensures var recv := FirstArgLocal(args);
              cap == if recv.Some? then C.NoteView(old(cap), c.view, d, C.DerefBase(old(cap), recv.value)) else old(cap)
    {
      if c.comparison.Some? && |args| == 2 && OperandLocal(args[0]).Some? && OperandLocal(args[1]).Some? {
        var a, b := C.DerefBase(cap, OperandLocal(args[0]).value), C.DerefBase(cap, OperandLocal(args[1]).value);
        range := range.(pairIf := range.pairIf[(c.comparison.value, d) := (a, b)]);
      }
      var recv := FirstArgLocal(args);
      if recv.Some? {
        var coll := C.DerefBase(cap, recv.value);
        match c.view
        case CapacityView => cap := cap.(sizeOf := cap.sizeOf[(Capacity, d) := coll]);
        case LenView => cap := cap.(sizeOf := cap.sizeOf[(Length, d) := coll]);
        case DerefView => cap := cap.(refBase := cap.refBase[d := coll]);
        case NoView =>
      }
    }

    /** The call arm of `apply_terminator` on value ranges and capacities. */
    method CallFacts(body: Body, callee: Option<Callee>, args: seq<Operand>, dest: Place)
      modifies this`range, this`cap
      ensures var term := Call(callee, args, dest, None, None);
              && range == R.ApplyTerminator(body, old(range), old(cap).refBase, term)
              && cap == C.ApplyTerminator(body, old(cap), term)
    {
      DropCapProofs(body, args);
      if callee.None? || dest.proj != [] { return; }
      var d, c := dest.local, callee.value;
      ClearCap(d);
      ClearRange(d);
      NoteResult(c, args, d);
      EnforceTypeFacts(d, TyOf(body, d));
      if c.nonNull { range := range.(nonzero := range.nonzero + {d}); }
      if c.layoutUnchecked && R.Tainted(range, args) { range := range.(layoutOverflow := range.layoutOverflow + {d}); }
    }

    /** `apply_terminator`. */
    method ApplyTerminator(body: Body, sums: O.SummaryMap, bb: Block, term: Terminator)
      modifies this
      ensures Value() == T.ApplyTerminator(body, sums, old(Value()), bb, term)
    {
      match term
      case Call(callee, args, dest, _, _) =>
        CallFacts(body, callee, args, dest);
        CallOwn(body, sums, bb, callee, args, dest);
      case Drop(place, _, _) =>
        if place.proj == [] {
          var typestate := SetEach(own.typestate, Get(own.localProto, place.local), Consumed);
          own := own.(typestate := typestate);
          Forget(place.local);
        }
      case _ =>
    }

    // ----- refine_switchint_edge -----

    /** The bound of a comparison that held, or of the negation of one that did not. */
    method TightenBound(rel: Rel, d: Local, truth: bool)
      modifies this`range
      ensures range == R.TightenBy(old(range), rel, d, truth)
    {
      if (rel, d) !in range.constIf { return; }
      var (l, k) := range.constIf[(rel, d)];
      var less, more := if k == 0 then 0 else k - 1, if k == U64_MAX then U64_MAX else k + 1;
      match rel
      case Lt => if truth { LowerUpper(l, less); } else { RaiseLower(l, k); }
      case Le => if truth { LowerUpper(l, k); } else { RaiseLower(l, more); }
      case Gt => if truth { RaiseLower(l, more); } else { LowerUpper(l, k); }
      case Ge => if truth { RaiseLower(l, k); } else { LowerUpper(l, less); }
    }

    method TightenBounds(d: Local, truth: bool)
      modifies this`range
      ensures range == R.TightenAll(old(range), [Lt, Le, Gt, Ge], d, truth)
    {
      TightenFour(range, d, truth);
      TightenBound(Lt, d, truth);
      TightenBound(Le, d, truth);
      TightenBound(Gt, d, truth);
      TightenBound(Ge, d, truth);
    }

    /** The pair compared by `Ne` or `Eq` is stored with the smaller local first, as equal or as different. */
    method ProvePair(isEq: bool, d: Local, truth: bool)
      modifies this`range
      ensures range == R.PairBy(old(range), isEq, d, truth)
    {
      if (isEq, d) in range.pairIf {
        var (a, b) := range.pairIf[(isEq, d)];
        if a <= b {
          range := range.(pairs := range.pairs + {(isEq == truth, a, b)});
        } else {
          range := range.(pairs := range.pairs + {(isEq == truth, b, a)});
        }
      }
    }

    /** Spare and full proofs carried by the comparison. */
    method ProveCap(d: Local, truth: bool)
      modifies this`cap
      ensures cap == C.Refine(old(cap), d, truth)
    {
      if (Spare, truth, d) in cap.capIf {
        cap := cap.(capProof := cap.capProof + {(Spare, cap.capIf[(Spare, truth, d)])});
      }
      if (Full, truth, d) in cap.capIf {
        cap := cap.(capProof := cap.capProof + {(Full, cap.capIf[(Full, truth, d)])});
      }
    }

    /** `refine_switchint_edge`: which edge it is, then one update per fact recorded for the discriminant. */
    method RefineEdge(term: Terminator, succ: Block)
      modifies this
      ensures Value() == T.RefineEdge(old(Value()), term, succ)
    {
      if !term.SwitchInt? || OperandLocal(term.discr).None? { return; }
      var d := OperandLocal(term.discr).value;
      var zero := R.TargetOf(term.targets, 0);
      var truth;
      if succ == term.otherwise && Some(succ) != zero {
        truth := true;
      } else if Some(succ) == zero && succ != term.otherwise {
        truth := false;
      } else {
        return;
      }
      ProveCap(d, truth);
      if (truth, d) in range.nonzeroIf {
        range := range.(nonzero := range.nonzero + {range.nonzeroIf[(truth, d)]});
      }
      TightenBounds(d, truth);
      ProvePair(false, d, truth);
      ProvePair(true, d, truth);
    }
  }

  /** Give every key the value, one by one. */
  method SetEach<V>(m: map<Word32, V>, keys: set<Word32>, v: V) returns (r: map<Word32, V>)
    ensures r == O.SetAll(m, keys, v)
  {
    r := m;
    var todo := keys;
    while todo != {}
      invariant todo <= keys && r == O.SetAll(m, keys - todo, v)
    {
      var k :| k in todo;
      assert keys - (todo - {k}) == keys - todo + {k};
      r := r[k := v];
      todo := todo - {k};
    }
    assert keys - todo == keys;
  }

  lemma BothTags<V>(m: map<(bool, Local), V>, d: Local)
    ensures m - {(true, d)} - {(false, d)} == map k | k in m && k.1 != d :: m[k]
    ensures m - {(false, d)} - {(true, d)} == map k | k in m && k.1 != d :: m[k]
  {
    forall k: (bool, Local) ensures k.1 == d <==> k == (true, d) || k == (false, d) {
      if k.0 { assert k == (true, k.1); } else { assert k == (false, k.1); }
    }
  }

  lemma AllRels<V>(m: map<(Rel, Local), V>, d: Local)
    ensures m - {(Lt, d)} - {(Le, d)} - {(Gt, d)} - {(Ge, d)} == map k | k in m && k.1 != d :: m[k]
  {
    forall k: (Rel, Local) ensures k.1 == d <==> k == (Lt, d) || k == (Le, d) || k == (Gt, d) || k == (Ge, d) {
      match k.0 case Lt => case Le => case Gt => case Ge =>
    }
  }

  lemma AllSizes(s: Capacities, d: Local)
    ensures s.sizeOf - {(Length, d)} - {(Capacity, d)} == map k | k in s.sizeOf && k.1 != d :: s.sizeOf[k]
    ensures s.capIf - {(Spare, true, d), (Spare, false, d)} - {(Full, true, d), (Full, false, d)} ==
            map k | k in s.capIf && k.2 != d :: s.capIf[k]
    ensures s.capProof - {(Spare, d)} - {(Full, d)} == set p | p in s.capProof && p.1 != d
  {
    forall k: (Measure, Local) ensures k.1 == d <==> k == (Length, d) || k == (Capacity, d) {
      match k.0 case Length => case Capacity =>
    }
    forall k: (CapKind, bool, Local)
      ensures k.2 == d <==> k in {(Spare, true, d), (Spare, false, d)} || k in {(Full, true, d), (Full, false, d)}
    {
      if k.1 { assert k == (k.0, true, k.2); } else { assert k == (k.0, false, k.2); }
      match k.0 case Spare => case Full =>
    }
    BothKinds(s.capProof, d);
  }

  lemma BothKinds(proofs: set<(CapKind, Local)>, d: Local)
    ensures proofs - {(Spare, d)} - {(Full, d)} == set p | p in proofs && p.1 != d
  {
    forall p: (CapKind, Local) ensures p.1 == d <==> p == (Spare, d) || p == (Full, d) {
      match p.0 case Spare => case Full =>
    }
  }

  lemma DropMore(s: Capacities, hit: set<Local>, base: Local)
    ensures var r := C.DropProofs(s, hit); C.DropProofs(s, hit + {base}) == r.(capProof := r.capProof - {(Spare, base)} - {(Full, base)})
  {
    BothKinds(C.DropProofs(s, hit).capProof, base);
  }

  lemma MutatedMore(body: Body, s: Capacities, args: seq<Operand>, arg: Operand, base: Local)
    requires OperandLocal(arg).Some? && C.IsMutableHandle(TyOf(body, OperandLocal(arg).value)) && base == C.DerefBase(s, OperandLocal(arg).value)
    ensures C.Mutated(body, s, args + [arg]) == C.Mutated(body, s, args) + {base}
  {
    assert (args + [arg])[|args|] == arg;
    forall b <- C.Mutated(body, s, args) ensures b in C.Mutated(body, s, args + [arg]) {
      var i :| 0 <= i < |args| && OperandLocal(args[i]).Some? && C.IsMutableHandle(TyOf(body, OperandLocal(args[i]).value)) && b == C.DerefBase(s, OperandLocal(args[i]).value);
      assert (args + [arg])[i] == args[i];
    }
  }

  lemma TightenFour(s: Ranges, d: Local, truth: bool)
    ensures R.TightenAll(s, [Lt, Le, Gt, Ge], d, truth) ==
            R.TightenBy(R.TightenBy(R.TightenBy(R.TightenBy(s, Lt, d, truth), Le, d, truth), Gt, d, truth), Ge, d, truth)
  {
    var s1 := R.TightenBy(s, Lt, d, truth);
    var s2 := R.TightenBy(s1, Le, d, truth);
    var s3 := R.TightenBy(s2, Gt, d, truth);
    assert [Lt, Le, Gt, Ge][1..] == [Le, Gt, Ge] && [Le, Gt, Ge][1..] == [Gt, Ge] && [Gt, Ge][1..] == [Ge];
    assert R.TightenAll(s3, [Ge], d, truth) == R.TightenBy(s3, Ge, d, truth);
    assert R.TightenAll(s2, [Gt, Ge], d, truth) == R.TightenAll(s3, [Ge], d, truth);
    assert R.TightenAll(s1, [Le, Gt, Ge], d, truth) == R.TightenAll(s2, [Gt, Ge], d, truth);
  }

  lemma RedirectNone(s: Ownership)
    ensures O.Redirect(s, {}) == s
  {
    assert O.Redirect(s, {}).pointsTo == s.pointsTo && O.Redirect(s, {}).heap == s.heap;
  }

  lemma RedirectMore(s: Ownership, ps: set<Local>, p: Local)
    ensures var r := O.Redirect(s, ps);
            O.Redirect(s, ps + {p}) ==
            r.(heap := r.heap[O.StaleId(p) := MaybeFreed], pointsTo := r.pointsTo[p := {O.StaleId(p)}],
               ownerAlias := r.ownerAlias - {p})
  {
    var ids := set q | q in ps :: O.StaleId(q);
    assert (set q | q in ps + {p} :: O.StaleId(q)) == ids + {O.StaleId(p)};
    SetAllMore(s.heap, ids, O.StaleId(p));
    RedirectPtsMore(s.pointsTo, ps, p);
  }

  lemma SetAllMore(heap: map<ObjectId, HeapState>, ids: set<ObjectId>, id: ObjectId)
    ensures O.SetAll(heap, ids + {id}, MaybeFreed) == O.SetAll(heap, ids, MaybeFreed)[id := MaybeFreed]
  {
  }

  lemma RedirectPtsMore(pts: map<Local, set<ObjectId>>, ps: set<Local>, p: Local)
    ensures O.RedirectPts(pts, ps + {p}) == O.RedirectPts(pts, ps)[p := {O.StaleId(p)}]
  {
  }

  /** `alias` is `was` with `owner` taken out of every entry but those still to do. */
  ghost predicate Subtracted(was: map<Local, set<Local>>, alias: map<Local, set<Local>>, owner: Local, todo: set<Local>) {
    alias.Keys == was.Keys && forall l <- alias.Keys :: alias[l] == if l in todo then was[l] else was[l] - {owner}
  }

  /** Take the owner out of every alias set. */
  method SubtractOwner(was: map<Local, set<Local>>, owner: Local) returns (alias: map<Local, set<Local>>)
    ensures Subtracted(was, alias, owner, {})
  {
    alias := was;
    var todo := was.Keys;
    while todo != {}
      invariant todo <= was.Keys && Subtracted(was, alias, owner, todo)
    {
      var l :| l in todo;
      alias := alias[l := alias[l] - {owner}];
      todo := todo - {l};
    }
  }

  function RetainNonEmpty(alias: map<Local, set<Local>>): map<Local, set<Local>> {
    map l | l in alias && alias[l] != {} :: alias[l]
  }

  lemma RetainIs(s: Ownership, alias: map<Local, set<Local>>, owner: Local)
    requires Subtracted(s.ownerAlias, alias, owner, {})
    ensures s.(ownerAlias := RetainNonEmpty(alias)) == O.InvalidateOwners(s, {owner})
  {
    assert RetainNonEmpty(alias).Keys == O.InvalidateOwners(s, {owner}).ownerAlias.Keys;
  }

  lemma InvalidateMore(s: Ownership, os: set<Local>, o: Local)
    ensures O.InvalidateOwners(O.InvalidateOwners(s, os), {o}) == O.InvalidateOwners(s, os + {o})
  {
    if os == {} {
      assert os + {o} == {o};
    } else {
      var a, b := O.InvalidateOwners(O.InvalidateOwners(s, os), {o}).ownerAlias, O.InvalidateOwners(s, os + {o}).ownerAlias;
      forall l <- s.ownerAlias.Keys ensures (l in a <==> l in b) && (l in a ==> a[l] == b[l]) {
        assert s.ownerAlias[l] - os - {o} == s.ownerAlias[l] - (os + {o});
      }
      assert a.Keys == b.Keys;
    }
  }
}
