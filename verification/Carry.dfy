/** A parameter's object on its way through a body: which locals may point to it, who carries it, when it is freed. */
module Carry {
  import opened Mir
  import opened Lattice
  import opened State
  import opened O = OwnTransfer
  import opened I = OwnInvariant
  import opened V = OwnVerdicts
  import opened Consume
  import S = OwnSound

  // ----- the locals that may ever point to the object -----

  /** Only locals of `w` point to `id`, and only their fields hold it. */
  ghost predicate Within(s: Ownership, w: set<Local>, id: ObjectId) {
    && (forall l: Local :: id in Get(s.pointsTo, l) ==> l in w)
    && (forall k <- s.fieldOwned.Keys :: id in s.fieldOwned[k] ==> k.0 in w)
  }

  predicate Touches(w: set<Local>, op: Operand) { !op.Const? && op.place.local in w }

  predicate AnyTouches(w: set<Local>, ops: seq<Operand>) { exists i :: 0 <= i < |ops| && Touches(w, ops[i]) }

  predicate RvalueTouches(w: set<Local>, rv: Rvalue) {
    match rv
    case Use(op) => Touches(w, op)
    case BorrowOf(p) => p.local in w
    case AddrOf(p) => p.local in w
    case Aggregate(ops) => AnyTouches(w, ops)
    case PtrCast(op) => Touches(w, op)
    case IntCast(op, _) => Touches(w, op)
    case PtrMetadata(op) => Touches(w, op)
    case Binary(_, a, b) => Touches(w, a) || Touches(w, b)
    case Opaque(ops) => AnyTouches(w, ops)
  }

  /** What is computed from a local of `w` goes to a local of `w`. */
  predicate StatementStaysIn(w: set<Local>, stmt: Statement) {
    stmt.Assign? && RvalueTouches(w, stmt.rv) ==> stmt.dst.local in w
  }

  predicate CallStaysIn(w: set<Local>, args: seq<Operand>, dest: Local) { AnyTouches(w, args) ==> dest in w }

  /** Apart from `d`, no local points to more and no field holds more. */
  ghost predicate Shrinks(s: Ownership, s': Ownership, d: set<Local>) {
    && (forall l: Local :: l !in d ==> Get(s'.pointsTo, l) <= Get(s.pointsTo, l))
    && (forall k <- s'.fieldOwned.Keys :: k in s.fieldOwned && s'.fieldOwned[k] == s.fieldOwned[k])
  }

  lemma ShrinkWithin(s: Ownership, s': Ownership, d: set<Local>, w: set<Local>, id: ObjectId)
    requires Within(s, w, id) && Shrinks(s, s', d)
    requires forall l <- d :: id in Get(s'.pointsTo, l) ==> l in w
    ensures Within(s', w, id)
  {
    forall l: Local | id in Get(s'.pointsTo, l) ensures l in w {
      if l !in d { assert id in Get(s.pointsTo, l); }
    }
  }

  // ----- statements -----

  lemma GatherTouches(s: Ownership, ops: seq<Operand>, w: set<Local>, id: ObjectId)
    requires Within(s, w, id) && id in GatherObjects(s, ops)
    ensures AnyTouches(w, ops)
  {
    var i :| 0 <= i < |ops| && OperandLocal(ops[i]).Some? && id in Get(s.pointsTo, OperandLocal(ops[i]).value);
    assert Touches(w, ops[i]);
  }

  /** A tracked value that points to `id` was computed from a local of `w`. */
  lemma TrackTouches(s: Ownership, d: Local, rv: Rvalue, w: set<Local>, id: ObjectId)
    requires Within(s, w, id)
    ensures id in Get(Track(s, d, rv).pointsTo, d) ==> RvalueTouches(w, rv) || d in w
  {
    match rv
    case Use(op) => if !op.Const? { UseTouches(s, d, op, w, id); }
    case Aggregate(ops) => if id in GatherObjects(s, ops) { GatherTouches(s, ops, w, id); }
    case Binary(bop, a, b) => BinaryTouches(s, d, bop, a, b, w, id);
    case _ =>
  }

  lemma BinaryTouches(s: Ownership, d: Local, bop: BinOp, a: Operand, b: Operand, w: set<Local>, id: ObjectId)
    requires Within(s, w, id)
    ensures id in Get(DropProto(BinaryPts(s, d, bop, a, b), d).pointsTo, d) ==> Touches(w, a) || Touches(w, b)
  {
    BinaryShape(s, d, bop, a, b);
    var src := PtrOperand(s, bop, a, b);
    if src.Some? { CopyShape(s, d, src.value, d); }
  }

  lemma UseTouches(s: Ownership, d: Local, op: Operand, w: set<Local>, id: ObjectId)
    requires Within(s, w, id) && !op.Const?
    ensures id in Get(Track(s, d, Use(op)).pointsTo, d) ==> Touches(w, op)
  {
    var p := op.place;
    if p.proj == [] {
      S.MoveShape(s, d, p.local, d);
    } else if AtMostLeadingDeref(p.proj) {
      assert Track(s, d, Use(op)) == DropProto(FieldRead(s, d, p), d);
      FieldTouches(s, d, p, w, id);
    } else {
      assert Track(s, d, Use(op)) == if op.Move? then Forget(Forget(s, d), p.local) else Forget(s, d);
    }
  }

  lemma FieldTouches(s: Ownership, d: Local, p: Place, w: set<Local>, id: ObjectId)
    requires Within(s, w, id)
    ensures id in Get(FieldRead(s, d, p).pointsTo, d) ==> p.local in w
  {
    var objs := FieldSource(s, p);
    assert Get(FieldRead(s, d, p).pointsTo, d) == if objs.Some? then objs.value else {};
  }

  lemma UseShrinks(s: Ownership, d: Local, op: Operand, l: Local)
    requires l != d && !op.Const?
    ensures Get(Track(s, d, Use(op)).pointsTo, l) <= Get(s.pointsTo, l)
  {
    if op.Move? && op.place.local == l {
      if op.place.proj == [] {
        assert Track(s, d, Use(op)) == MoveLocal(s, d, l);
      } else if AtMostLeadingDeref(op.place.proj) {
        assert Track(s, d, Use(op)) == DropProto(FieldRead(s, d, op.place), d);
      } else {
        assert Track(s, d, Use(op)) == Forget(Forget(s, d), l);
      }
    } else {
      UsePasses(s, d, op, l, l);
    }
  }

  lemma TrackShrinks(s: Ownership, d: Local, rv: Rvalue)
    ensures Shrinks(s, Track(s, d, rv), {d}) && Track(s, d, rv).heap == s.heap && Track(s, d, rv).ownerAlias == s.ownerAlias
  {
    TrackFrame(s, d, rv);
    forall l: Local | l != d ensures Get(Track(s, d, rv).pointsTo, l) <= Get(s.pointsTo, l) {
      if rv.Use? {
        if !rv.op.Const? { UseShrinks(s, d, rv.op, l); }
      } else {
        S.OtherLocalsKept(s, d, rv, l);
      }
    }
  }

  ghost predicate Framed(s: Ownership, s': Ownership) {
    s'.heap == s.heap && s'.ownerAlias == s.ownerAlias && s'.fieldOwned == s.fieldOwned
  }

  lemma PlainFrame(s: Ownership, d: Local, src: Local)
    ensures Framed(s, MoveLocal(s, d, src)) && Framed(s, CopyLocal(s, d, src)) && Framed(s, DropProto(CopyPts(s, d, src), d))
  {
  }

  lemma SetFrame(s: Ownership, d: Local, l: Local, objs: set<ObjectId>, p: Place)
    ensures Framed(s, DropProto(SetPts(s, d, objs), d)) && Framed(s, DropProto(FieldRead(s, d, p), d))
    ensures Framed(s, Forget(s, d)) && Framed(s, Forget(Forget(s, d), l))
  {
  }

  lemma UseFrame(s: Ownership, d: Local, op: Operand)
    requires !op.Const?
    ensures Framed(s, Track(s, d, Use(op)))
  {
    var p := op.place;
    PlainFrame(s, d, p.local);
    SetFrame(s, d, p.local, {}, p);
    if p.proj == [] {
    } else if AtMostLeadingDeref(p.proj) {
      assert Track(s, d, Use(op)) == DropProto(FieldRead(s, d, p), d);
    } else {
      assert Track(s, d, Use(op)) == if op.Move? then Forget(Forget(s, d), p.local) else Forget(s, d);
    }
  }

  lemma BinaryFrame(s: Ownership, d: Local, bop: BinOp, a: Operand, b: Operand)
    ensures Framed(s, BinaryPts(s, d, bop, a, b))
  {
    BinaryShape(s, d, bop, a, b);
  }

  lemma TrackFrame(s: Ownership, d: Local, rv: Rvalue)
    ensures Framed(s, Track(s, d, rv))
  {
    match rv
    case Use(op) => if !op.Const? { UseFrame(s, d, op); }
    case Binary(bop, a, b) => BinaryFrame(s, d, bop, a, b);
    case PtrCast(op) => if OperandLocal(op).Some? { PlainFrame(s, d, OperandLocal(op).value); }
    case BorrowOf(p) => SetFrame(s, d, d, Get(s.pointsTo, p.local), p);
    case AddrOf(p) => SetFrame(s, d, d, Get(s.pointsTo, p.local), p);
    case Aggregate(ops) => SetFrame(s, d, d, GatherObjects(s, ops), Place(d, []));
    case _ =>
  }

  lemma EscapeShrinks(s: Ownership, l: Local)
    ensures Shrinks(s, EscapeLocal(s, l), {})
  {
  }

  lemma StoreWithin(s: Ownership, dst: Place, rv: Rvalue, w: set<Local>, id: ObjectId)
    requires Within(s, w, id) && StatementStaysIn(w, Assign(dst, rv))
    ensures Within(Store(s, dst, rv), w, id)
  {
    if RvalueLocal(rv).Some? {
      var l := RvalueLocal(rv).value;
      if dst.local == 0 && Deref !in dst.proj {
        ShrinkWithin(s, Store(s, dst, rv), {0}, w, id);
      } else if SimpleField(dst.proj).Some? {
        FieldWithin(s, (dst.local, SimpleField(dst.proj).value), l, w, id);
      } else {
        EscapeShrinks(s, l);
        ShrinkWithin(s, EscapeLocal(s, l), {}, w, id);
      }
    }
  }

  lemma FieldWithin(s: Ownership, key: (Local, Word32), l: Local, w: set<Local>, id: ObjectId)
    requires Within(s, w, id) && (l in w ==> key.0 in w)
    ensures Within(StoreField(s, key, l), w, id)
  {
    var s' := StoreField(s, key, l);
    forall x: Local | id in Get(s'.pointsTo, x) ensures x in w { assert id in Get(s.pointsTo, x); }
    forall k <- s'.fieldOwned.Keys | id in s'.fieldOwned[k] ensures k.0 in w {
      if k != key { assert k in s.fieldOwned && s'.fieldOwned[k] == s.fieldOwned[k]; } else { assert id in Get(s.pointsTo, l); }
    }
  }

  lemma StatementWithin(body: Body, s: Ownership, stmt: Statement, w: set<Local>, id: ObjectId)
    requires Within(s, w, id) && StatementStaysIn(w, stmt)
    ensures Within(ApplyStatement(body, s, stmt), w, id)
  {
    if stmt.Assign? {
      var d := stmt.dst.local;
      var s1 := InvalidateOwners(s, {d});
      assert Within(s1, w, id);
      if stmt.dst.proj != [] {
        assert stmt == Assign(stmt.dst, stmt.rv);
        StoreWithin(s1, stmt.dst, stmt.rv, w, id);
      } else {
        var s2 := ClearFields(SetAlias(s1, d, RvalueOwners(body, s1, d, stmt.rv)), d);
        ShrinkWithin(s1, s2, {}, w, id);
        TrackShrinks(s2, d, stmt.rv);
        TrackTouches(s2, d, stmt.rv, w, id);
        ShrinkWithin(s2, Track(s2, d, stmt.rv), {d}, w, id);
      }
    }
  }

  lemma {:induction false} ReplayWithin(body: Body, s: Ownership, stmts: seq<Statement>, w: set<Local>, id: ObjectId)
    requires Within(s, w, id) && forall i :: 0 <= i < |stmts| ==> StatementStaysIn(w, stmts[i])
    ensures Within(Replay(body, s, stmts), w, id)
    decreases |stmts|
  {
    if stmts != [] {
      ReplayWithin(body, s, stmts[..|stmts| - 1], w, id);
      StatementWithin(body, Replay(body, s, stmts[..|stmts| - 1]), stmts[|stmts| - 1], w, id);
    }
  }

  // ----- calls -----

  lemma ShrinksTrans(a: Ownership, b: Ownership, c: Ownership, d: set<Local>)
    requires Shrinks(a, b, d) && Shrinks(b, c, d)
    ensures Shrinks(a, c, d)
  {
    forall l: Local | l !in d ensures Get(c.pointsTo, l) <= Get(a.pointsTo, l) {
      assert Get(c.pointsTo, l) <= Get(b.pointsTo, l);
    }
  }

  lemma EscapeArgsShrink(body: Body, s: Ownership, args: seq<Operand>)
    ensures Shrinks(s, EscapeArgs(body, s, args), {})
    decreases |args|
  {
    if args != [] {
      var l := OperandLocal(args[0]);
      var s1 := if l.Some? && (TyOf(body, l.value).RawPtr? || l.value in s.pointsTo) then EscapeLocal(s, l.value) else s;
      if l.Some? { EscapeShrinks(s, l.value); }
      EscapeArgsShrink(body, s1, args[1..]);
      ShrinksTrans(s, s1, EscapeArgs(body, s1, args[1..]), {});
    }
  }

  lemma EffectShrinks(s: Ownership, arg: Option<Local>, e: Effect)
    ensures Shrinks(s, ApplyEffect(s, arg, e), {})
  {
    if arg.Some? { EscapeShrinks(s, arg.value); }
  }

  lemma EffectsShrink(s: Ownership, args: seq<Operand>, effects: seq<(nat, Effect)>)
    ensures Shrinks(s, ApplyEffects(s, args, effects), {})
    decreases |effects|
  {
    if effects != [] {
      var s1 := ApplyEffect(s, NthArgLocal(args, effects[0].0), effects[0].1);
      EffectShrinks(s, NthArgLocal(args, effects[0].0), effects[0].1);
      EffectsShrink(s1, args, effects[1..]);
      ShrinksTrans(s, s1, ApplyEffects(s1, args, effects[1..]), {});
    }
  }

  ghost predicate SameFrame(s: Ownership, s': Ownership, l: Local) {
    s'.fieldOwned == s.fieldOwned && (l in s'.ownerAlias <==> l in s.ownerAlias)
  }

  lemma DestFrame(s: Ownership, dest: Local, bb: Block, objs: set<ObjectId>, l: Local)
    requires l != dest
    ensures SameFrame(s, DropAlias(AllocateAt(s, dest, bb), dest), l) && SameFrame(s, DropAlias(Forget(s, dest), dest), l)
    ensures SameFrame(s, AddPts(s, dest, objs), l)
  {
  }

  lemma AliasFrame(body: Body, s: Ownership, arg: Local, dest: Local, l: Local)
    requires l != dest
    ensures SameFrame(s, ReturnAlias(body, s, arg, dest), l)
  {
  }

  /** Fields and the aliases of other locals are not touched by what a summary says about the destination. */
  lemma ReturnFrame(body: Body, s: Ownership, args: seq<Operand>, dest: Local, bb: Block, sum: FnSummary, l: Local)
    requires l != dest
    ensures SameFrame(s, ApplyReturn(body, s, args, dest, bb, sum), l)
  {
    var s1 := DropAlias(if sum.returnsRawOwned then AllocateAt(s, dest, bb) else Forget(s, dest), dest);
    DestFrame(s, dest, bb, {}, l);
    var al := if sum.aliasOf.Some? then NthArgLocal(args, sum.aliasOf.value) else None;
    var s2 := if al.Some? then ReturnAlias(body, s1, al.value, dest) else s1;
    if al.Some? { AliasFrame(body, s1, al.value, dest, l); }
    var pt := if sum.ptrOf.Some? then NthArgLocal(args, sum.ptrOf.value) else None;
    if pt.Some? { DestFrame(s2, dest, bb, Get(s2.pointsTo, pt.value), l); }
  }

  lemma ArgTouches(s: Ownership, args: seq<Operand>, n: nat, w: set<Local>, id: ObjectId)
    requires Within(s, w, id) && NthArgLocal(args, n).Some? && id in Get(s.pointsTo, NthArgLocal(args, n).value)
    ensures AnyTouches(w, args)
  {
    assert Touches(w, args[n]);
  }

  lemma AddWithin(s: Ownership, d: Local, objs: set<ObjectId>, w: set<Local>, id: ObjectId)
    requires Within(s, w, id) && (id in objs ==> d in w)
    ensures Within(AddPts(s, d, objs), w, id) && Within(SetPts(s, d, objs), w, id)
  {
    ShrinkWithin(s, AddPts(s, d, objs), {d}, w, id);
    ShrinkWithin(s, SetPts(s, d, objs), {d}, w, id);
  }

  lemma AliasWithin(body: Body, s: Ownership, arg: Local, dest: Local, w: set<Local>, id: ObjectId)
    requires Within(s, w, id) && (arg in w ==> dest in w)
    ensures Within(ReturnAlias(body, s, arg, dest), w, id)
  {
    var ty := TyOf(body, arg);
    var owners := if IsReferenceParam(body, arg) then {arg}
                  else if ty.Ref? || ty.RawPtr? then Get(s.ownerAlias, arg) else {};
    var s1 := if owners != {} then s.(ownerAlias := s.ownerAlias[dest := Get(s.ownerAlias, dest) + owners]) else s;
    assert Within(s1, w, id);
    AddWithin(s1, dest, Get(s1.pointsTo, arg), w, id);
  }

  lemma ReturnWithin(body: Body, s: Ownership, args: seq<Operand>, dest: Local, bb: Block, sum: FnSummary, w: set<Local>, id: ObjectId)
    requires Within(s, w, id) && CallStaysIn(w, args, dest) && id != Site(bb)
    ensures Within(ApplyReturn(body, s, args, dest, bb, sum), w, id)
  {
    var s1 := DropAlias(if sum.returnsRawOwned then AllocateAt(s, dest, bb) else Forget(s, dest), dest);
    ShrinkWithin(s, s1, {dest}, w, id);
    var al := if sum.aliasOf.Some? then NthArgLocal(args, sum.aliasOf.value) else None;
    var s2 := if al.Some? then ReturnAlias(body, s1, al.value, dest) else s1;
    if al.Some? {
      if al.value in w { assert Touches(w, args[sum.aliasOf.value]); }
      AliasWithin(body, s1, al.value, dest, w, id);
    }
    var pt := if sum.ptrOf.Some? then NthArgLocal(args, sum.ptrOf.value) else None;
    if pt.Some? {
      if id in Get(s2.pointsTo, pt.value) { ArgTouches(s2, args, sum.ptrOf.value, w, id); }
      AddWithin(s2, dest, Get(s2.pointsTo, pt.value), w, id);
    }
  }

  lemma SummaryWithin(body: Body, s: Ownership, args: seq<Operand>, dest: Local, bb: Block, sum: FnSummary, w: set<Local>, id: ObjectId)
    requires Within(s, w, id) && CallStaysIn(w, args, dest) && id != Site(bb)
    ensures Within(ApplySummary(body, s, args, dest, bb, sum), w, id)
  {
    var s1 := ApplyEffects(s, args, sum.effects);
    EffectsShrink(s, args, sum.effects);
    ShrinkWithin(s, s1, {}, w, id);
    ReturnWithin(body, s1, args, dest, bb, sum, w, id);
  }

  lemma FirstAdds(s: Ownership, args: seq<Operand>, dest: Local, w: set<Local>, id: ObjectId)
    requires Within(s, w, id) && CallStaysIn(w, args, dest) && FirstArgLocal(args).Some?
    ensures var objs := Get(s.pointsTo, FirstArgLocal(args).value); Within(AddPts(s, dest, objs), w, id) && Within(SetPts(s, dest, objs), w, id)
  {
    var objs := Get(s.pointsTo, FirstArgLocal(args).value);
    if id in objs { ArgTouches(s, args, 0, w, id); }
    AddWithin(s, dest, objs, w, id);
  }

  lemma UnknownWithin(body: Body, s: Ownership, c: Callee, args: seq<Operand>, dest: Local, w: set<Local>, id: ObjectId)
    requires Within(s, w, id) && CallStaysIn(w, args, dest)
    ensures Within(UnknownCall(body, s, c, args, dest), w, id)
  {
    if c.accessor {
      if FirstArgLocal(args).Some? {
        var owners := Get(s.ownerAlias, FirstArgLocal(args).value);
        var s1 := if owners != {} then s.(ownerAlias := s.ownerAlias[dest := owners]) else s;
        assert Within(s1, w, id);
        FirstAdds(s1, args, dest, w, id);
      }
    } else {
      EscapeArgsShrink(body, s, args);
      ShrinkWithin(s, EscapeArgs(body, s, args), {}, w, id);
    }
  }

  lemma PlainWithin(body: Body, sums: SummaryMap, s: Ownership, c: Callee, args: seq<Operand>, dest: Local, bb: Block, w: set<Local>, id: ObjectId)
    requires Within(s, w, id) && CallStaysIn(w, args, dest) && id != Site(bb) && c.role.Plain?
    ensures Within(ByRole(body, sums, s, c, args, dest, bb), w, id)
  {
    if c.def in sums {
      var s1 := ApplySummary(body, s, args, dest, bb, sums[c.def]);
      SummaryWithin(body, s, args, dest, bb, sums[c.def], w, id);
      if FirstArgLocal(args).Some? { FirstAdds(s1, args, dest, w, id); }
    } else {
      var s1 := UnknownCall(body, s, c, args, dest);
      UnknownWithin(body, s, c, args, dest, w, id);
      assert Within(DropProto(s1, dest), w, id);
    }
  }

  lemma ReadWithin(s: Ownership, args: seq<Operand>, dest: Local, w: set<Local>, id: ObjectId)
    requires Within(s, w, id) && CallStaysIn(w, args, dest)
    ensures var a := FirstArgLocal(args);
            Within(DropProto(SetPts(s, dest, if a.Some? then Get(s.pointsTo, a.value) else {}), dest), w, id)
  {
    var a := FirstArgLocal(args);
    var s1 := SetPts(s, dest, if a.Some? then Get(s.pointsTo, a.value) else {});
    if a.Some? { FirstAdds(s, args, dest, w, id); } else { AddWithin(s, dest, {}, w, id); }
    assert Within(s1, w, id);
  }

  lemma AllocateWithin(s: Ownership, args: seq<Operand>, dest: Local, bb: Block, w: set<Local>, id: ObjectId)
    requires Within(s, w, id) && id != Site(bb)
    ensures Within(AllocateAt(s, dest, bb), w, id) && Within(RawReallocCall(s, args, dest, bb), w, id)
  {
    ShrinkWithin(s, AllocateAt(s, dest, bb), {dest}, w, id);
    ShrinkWithin(s, RawReallocCall(s, args, dest, bb), {dest}, w, id);
  }

  lemma FromRawWithin(s: Ownership, args: seq<Operand>, dest: Local, w: set<Local>, id: ObjectId)
    requires Within(s, w, id)
    ensures Within(FromRawCall(s, args, dest), w, id)
  {
    S.FromRawShape(s, args, dest);
    FromRawFrame(s, args, dest, dest);
    ShrinkWithin(s, FromRawCall(s, args, dest), {dest}, w, id);
  }

  lemma RoleWithin(body: Body, sums: SummaryMap, s: Ownership, c: Callee, args: seq<Operand>, dest: Local, bb: Block, w: set<Local>, id: ObjectId)
    requires Within(s, w, id) && CallStaysIn(w, args, dest) && id != Site(bb)
    ensures Within(ByRole(body, sums, s, c, args, dest, bb), w, id)
  {
    match c.role
    case Plain(_) => PlainWithin(body, sums, s, c, args, dest, bb, w, id);
    case PtrRead => ReadWithin(s, args, dest, w, id);
    case RawRealloc => AllocateWithin(s, args, dest, bb, w, id);
    case IntoRaw => AllocateWithin(s, args, dest, bb, w, id);
    case FromRaw => FromRawWithin(s, args, dest, w, id);
    case MemForget => ForgetWithin(s, args, dest, w, id);
    case BufWrite => ShrinkWithin(s, Forget(s, dest), {}, w, id);
    case _ =>
  }

  lemma FromRawFrame(s: Ownership, args: seq<Operand>, dest: Local, l: Local)
    ensures FromRawCall(s, args, dest).fieldOwned == s.fieldOwned
    ensures l != dest ==> (l in FromRawCall(s, args, dest).ownerAlias <==> l in s.ownerAlias)
  {
  }

  lemma ForgetWithin(s: Ownership, args: seq<Operand>, dest: Local, w: set<Local>, id: ObjectId)
    requires Within(s, w, id)
    ensures Within(ForgetCall(s, args, dest), w, id)
  {
    ShrinkWithin(s, ForgetCall(s, args, dest), {}, w, id);
  }

  lemma StaleFields(body: Body, s: Ownership, recv: Local, l: Local)
    ensures var s' := MarkStale(body, s, recv); s'.fieldOwned == s.fieldOwned && (l in s'.ownerAlias ==> l in s.ownerAlias)
  {
  }

  lemma InvalidateFields(s: Ownership, os: set<Local>, l: Local)
    ensures var s' := InvalidateOwners(s, os); s'.fieldOwned == s.fieldOwned && (l in s'.ownerAlias ==> l in s.ownerAlias)
  {
  }

  lemma BeforeCallFields(body: Body, sums: SummaryMap, s: Ownership, callee: Option<Callee>, args: seq<Operand>, dest: Local, l: Local)
    ensures var s' := BeforeCall(body, sums, s, callee, args, dest);
            s'.fieldOwned == s.fieldOwned && (l in s'.ownerAlias ==> l in s.ownerAlias)
  {
    var recv := ReallocReceiver(sums, callee, args);
    var s1 := if recv.Some? then MarkStale(body, s, recv.value) else s;
    if recv.Some? { StaleFields(body, s, recv.value, l); }
    var s2 := InvalidateArgs(body, s1, args, ReturnedArg(sums, callee));
    InvalidateFields(s1, ArgOwners(body, s1, args, ReturnedArg(sums, callee)), l);
    InvalidateFields(s2, {dest}, l);
  }

  lemma BeforeCallWithin(body: Body, sums: SummaryMap, s: Ownership, callee: Option<Callee>, args: seq<Operand>, dest: Local, w: set<Local>, id: ObjectId)
    requires Within(s, w, id) && Named(s) && SUMMARY_BASE <= id
    ensures Within(BeforeCall(body, sums, s, callee, args, dest), w, id)
  {
    var s' := BeforeCall(body, sums, s, callee, args, dest);
    BeforeCallFields(body, sums, s, callee, args, dest, dest);
    forall l: Local | id in Get(s'.pointsTo, l) ensures l in w {
      BeforeCallApart(body, sums, s, callee, args, dest, id, l);
    }
  }

  lemma TerminatorWithin(body: Body, sums: SummaryMap, s: Ownership, bb: Block, term: Terminator, w: set<Local>, id: ObjectId)
    requires Within(s, w, id) && Named(s) && SUMMARY_BASE <= id && bb < LIMIT
    requires term.Call? ==> CallStaysIn(w, term.args, term.dest.local)
    ensures Within(ApplyTerminator(body, sums, s, bb, term), w, id)
  {
    match term
    case Call(callee, args, dest, _, _) =>
      var s1 := BeforeCall(body, sums, s, callee, args, dest.local);
      BeforeCallWithin(body, sums, s, callee, args, dest.local, w, id);
      if callee.None? || dest.proj != [] {
        EscapeArgsShrink(body, s1, args);
        ShrinkWithin(s1, EscapeArgs(body, s1, args), {}, w, id);
      } else {
        RoleWithin(body, sums, s1, callee.value, args, dest.local, bb, w, id);
      }
    case Drop(place, _, _) => ShrinkWithin(s, ApplyTerminator(body, sums, s, bb, term), {}, w, id);
    case _ =>
  }

  // ----- the object in one local's hands -----

  /** `c` points to the live object, is nobody's interior, and outside `w` nothing points to it. */
  ghost predicate Ready(s: Ownership, w: set<Local>, c: Local, id: ObjectId) {
    && Within(s, w, id) && id in Get(s.pointsTo, c) && c !in s.ownerAlias
    && id in s.heap && s.heap[id] == RawOwned
  }

  /** `c` still points to `id`, is no more of an alias, and `id` is in the same state. */
  ghost predicate Kept(s: Ownership, s': Ownership, c: Local, id: ObjectId) {
    && (id in Get(s.pointsTo, c) ==> id in Get(s'.pointsTo, c))
    && (c in s'.ownerAlias ==> c in s.ownerAlias)
    && (id in s.heap ==> id in s'.heap && s'.heap[id] == s.heap[id])
  }

  /** The statement may let the object of its source escape. */
  predicate LetsGo(w: set<Local>, stmt: Statement) {
    && stmt.Assign? && stmt.dst.proj != [] && RvalueLocal(stmt.rv).Some? && RvalueLocal(stmt.rv).value in w
    && !(stmt.dst.local == 0 && Deref !in stmt.dst.proj) && SimpleField(stmt.dst.proj).None?
  }

  lemma CarriedAlias(body: Body, s: Ownership, stmt: Statement, c: Local, c': Local)
    requires stmt.Assign? && stmt.dst.proj == [] && Passes(stmt, c, c') && c !in s.ownerAlias
    ensures c' !in SetAlias(s, stmt.dst.local, RvalueOwners(body, s, stmt.dst.local, stmt.rv)).ownerAlias
  {
  }

  lemma AssignReady(body: Body, s: Ownership, stmt: Statement, w: set<Local>, c: Local, c': Local, id: ObjectId)
    requires stmt.Assign? && stmt.dst.proj == [] && StatementStaysIn(w, stmt) && Passes(stmt, c, c') && Ready(s, w, c, id)
    ensures Ready(ApplyStatement(body, s, stmt), w, c', id)
  {
    var d := stmt.dst.local;
    var s1 := InvalidateOwners(s, {d});
    var s2 := ClearFields(SetAlias(s1, d, RvalueOwners(body, s1, d, stmt.rv)), d);
    StatementWithin(body, s, stmt, w, id);
    CarriedAlias(body, s1, stmt, c, c');
    assert stmt == Assign(Place(d, []), stmt.rv);
    TrackPasses(s2, d, stmt.rv, c, c');
    TrackFrame(s2, d, stmt.rv);
  }

  lemma StoreKept(s: Ownership, dst: Place, rv: Rvalue, w: set<Local>, c: Local, id: ObjectId)
    requires Within(s, w, id) && RvalueLocal(rv) != Some(c) && c != 0 && dst.proj != [] && !LetsGo(w, Assign(dst, rv))
    ensures Kept(s, Store(s, dst, rv), c, id)
  {
    if RvalueLocal(rv).Some? {
      var l := RvalueLocal(rv).value;
      if !(dst.local == 0 && Deref !in dst.proj) && SimpleField(dst.proj).None? { EscapeKept(s, l, c, id); }
    }
  }

  lemma StatementReady(body: Body, s: Ownership, stmt: Statement, w: set<Local>, c: Local, c': Local, id: ObjectId)
    requires StatementStaysIn(w, stmt) && !LetsGo(w, stmt) && Passes(stmt, c, c') && Ready(s, w, c, id)
    ensures Ready(ApplyStatement(body, s, stmt), w, c', id)
  {
    if stmt.Assign? {
      if stmt.dst.proj == [] {
        AssignReady(body, s, stmt, w, c, c', id);
      } else {
        var s1 := InvalidateOwners(s, {stmt.dst.local});
        assert Ready(s1, w, c, id) && stmt == Assign(stmt.dst, stmt.rv);
        StatementWithin(body, s, stmt, w, id);
        StoreKept(s1, stmt.dst, stmt.rv, w, c, id);
      }
    }
  }

  /** The statements carry the object from the first to the last local of `path`. */
  predicate Carries(stmts: seq<Statement>, w: set<Local>, path: seq<Local>) {
    && |path| == |stmts| + 1
    && forall i :: 0 <= i < |stmts| ==> Passes(stmts[i], path[i], path[i + 1]) && !LetsGo(w, stmts[i])
  }

  predicate StayIn(w: set<Local>, stmts: seq<Statement>) { forall i :: 0 <= i < |stmts| ==> StatementStaysIn(w, stmts[i]) }

  lemma {:induction false} ReplayReady(body: Body, s: Ownership, stmts: seq<Statement>, w: set<Local>, path: seq<Local>, id: ObjectId)
    requires Carries(stmts, w, path) && StayIn(w, stmts) && Ready(s, w, path[0], id)
    ensures Ready(Replay(body, s, stmts), w, path[|stmts|], id)
    decreases |stmts|
  {
    if stmts != [] {
      var n := |stmts| - 1;
      assert Carries(stmts[..n], w, path[..n + 1]);
      ReplayReady(body, s, stmts[..n], w, path[..n + 1], id);
      StatementReady(body, Replay(body, s, stmts[..n]), stmts[n], w, path[n], path[n + 1], id);
    }
  }

  // ----- calls that leave it alone -----

  lemma EscapeKept(s: Ownership, l: Local, c: Local, id: ObjectId)
    requires l != c && id !in Get(s.pointsTo, l)
    ensures Kept(s, EscapeLocal(s, l), c, id)
  {
  }

  lemma {:induction false} EscapeArgsKept(body: Body, s: Ownership, args: seq<Operand>, w: set<Local>, c: Local, id: ObjectId)
    requires Within(s, w, id) && c in w && !AnyTouches(w, args)
    ensures Kept(s, EscapeArgs(body, s, args), c, id)
    decreases |args|
  {
    if args != [] {
      var l := OperandLocal(args[0]);
      var s1 := if l.Some? && (TyOf(body, l.value).RawPtr? || l.value in s.pointsTo) then EscapeLocal(s, l.value) else s;
      assert !Touches(w, args[0]) && forall i :: 0 <= i < |args[1..]| ==> args[1..][i] == args[i + 1];
      if l.Some? {
        EscapeKept(s, l.value, c, id);
        EscapeShrinks(s, l.value);
        ShrinkWithin(s, EscapeLocal(s, l.value), {}, w, id);
      }
      EscapeArgsKept(body, s1, args[1..], w, c, id);
    }
  }

  lemma EffectKept(s: Ownership, arg: Option<Local>, e: Effect, w: set<Local>, c: Local, id: ObjectId)
    requires Within(s, w, id) && c in w && (arg.Some? ==> arg.value !in w)
    ensures Kept(s, ApplyEffect(s, arg, e), c, id) && Within(ApplyEffect(s, arg, e), w, id)
  {
    EffectShrinks(s, arg, e);
    ShrinkWithin(s, ApplyEffect(s, arg, e), {}, w, id);
    if arg.Some? { EscapeKept(s, arg.value, c, id); }
  }

  lemma {:induction false} EffectsKept(s: Ownership, args: seq<Operand>, effects: seq<(nat, Effect)>, w: set<Local>, c: Local, id: ObjectId)
    requires Within(s, w, id) && c in w && !AnyTouches(w, args)
    ensures Kept(s, ApplyEffects(s, args, effects), c, id)
    decreases |effects|
  {
    if effects != [] {
      var arg := NthArgLocal(args, effects[0].0);
      if arg.Some? { assert !Touches(w, args[effects[0].0]); }
      EffectKept(s, arg, effects[0].1, w, c, id);
      EffectsKept(ApplyEffect(s, arg, effects[0].1), args, effects[1..], w, c, id);
    }
  }

  lemma SummaryKept(body: Body, s: Ownership, args: seq<Operand>, dest: Local, bb: Block, sum: FnSummary, w: set<Local>, c: Local, id: ObjectId)
    requires Within(s, w, id) && c in w && !AnyTouches(w, args) && c != dest && id != Site(bb)
    ensures Kept(s, ApplySummary(body, s, args, dest, bb, sum), c, id)
  {
    var s1 := ApplyEffects(s, args, sum.effects);
    EffectsKept(s, args, sum.effects, w, c, id);
    ReturnShape(body, s1, args, dest, bb, sum, c);
    ReturnFrame(body, s1, args, dest, bb, sum, c);
  }

  lemma AddKept(s: Ownership, d: Local, objs: set<ObjectId>, c: Local, id: ObjectId)
    requires c != d
    ensures Kept(s, AddPts(s, d, objs), c, id) && Kept(s, DropProto(SetPts(s, d, objs), d), c, id)
    ensures Kept(s, DropProto(s, d), c, id) && Kept(s, Forget(s, d), c, id)
  {
  }

  lemma UnknownKept(body: Body, s: Ownership, f: Callee, args: seq<Operand>, dest: Local, w: set<Local>, c: Local, id: ObjectId)
    requires c != dest
    requires f.accessor || (f.role.Plain? && !f.role.touch.Anything?) || (Within(s, w, id) && c in w && !AnyTouches(w, args))
    ensures Kept(s, UnknownCall(body, s, f, args, dest), c, id)
  {
    var a := FirstArgLocal(args);
    if f.accessor {
      if a.Some? {
        var owners := Get(s.ownerAlias, a.value);
        var s1 := if owners != {} then s.(ownerAlias := s.ownerAlias[dest := owners]) else s;
        AddKept(s1, dest, Get(s1.pointsTo, a.value), c, id);
      }
    } else if !f.role.Plain? || f.role.touch.Anything? {
      EscapeArgsKept(body, s, args, w, c, id);
    }
  }

  lemma PlainKept(body: Body, sums: SummaryMap, s: Ownership, f: Callee, args: seq<Operand>, dest: Local, bb: Block, w: set<Local>, c: Local, id: ObjectId)
    requires Within(s, w, id) && c in w && !AnyTouches(w, args) && c != dest && id != Site(bb) && f.role.Plain?
    ensures Kept(s, ByRole(body, sums, s, f, args, dest, bb), c, id)
  {
    if f.def in sums {
      var s1 := ApplySummary(body, s, args, dest, bb, sums[f.def]);
      SummaryKept(body, s, args, dest, bb, sums[f.def], w, c, id);
      if FirstArgLocal(args).Some? { AddKept(s1, dest, Get(s1.pointsTo, FirstArgLocal(args).value), c, id); }
    } else {
      UnknownKept(body, s, f, args, dest, w, c, id);
      AddKept(UnknownCall(body, s, f, args, dest), dest, {}, c, id);
    }
  }

  lemma AllocateKept(s: Ownership, args: seq<Operand>, dest: Local, bb: Block, w: set<Local>, c: Local, id: ObjectId)
    requires Within(s, w, id) && !AnyTouches(w, args) && c != dest && id != Site(bb)
    ensures Kept(s, AllocateAt(s, dest, bb), c, id) && Kept(s, RawReallocCall(s, args, dest, bb), c, id)
  {
    if FirstArgLocal(args).Some? { assert !Touches(w, args[0]); }
  }

  lemma FromRawKept(s: Ownership, args: seq<Operand>, dest: Local, w: set<Local>, c: Local, id: ObjectId)
    requires Within(s, w, id) && !AnyTouches(w, args) && c != dest
    ensures Kept(s, FromRawCall(s, args, dest), c, id)
  {
    if FirstArgBase(args).Some? { assert !Touches(w, args[0]); }
    FromRawFrame(s, args, dest, c);
  }

  lemma ForgetKept(s: Ownership, args: seq<Operand>, dest: Local, w: set<Local>, c: Local, id: ObjectId)
    requires Within(s, w, id) && c in w && !AnyTouches(w, args) && c != dest
    ensures Kept(s, ForgetCall(s, args, dest), c, id)
  {
    if FirstArgBase(args).Some? { assert !Touches(w, args[0]); }
  }

  lemma RoleKept(body: Body, sums: SummaryMap, s: Ownership, f: Callee, args: seq<Operand>, dest: Local, bb: Block, w: set<Local>, c: Local, id: ObjectId)
    requires Within(s, w, id) && c in w && !AnyTouches(w, args) && c != dest && id != Site(bb)
    ensures Kept(s, ByRole(body, sums, s, f, args, dest, bb), c, id)
  {
    match f.role
    case Plain(_) => PlainKept(body, sums, s, f, args, dest, bb, w, c, id);
    case PtrRead =>
      var a := FirstArgLocal(args);
      AddKept(s, dest, if a.Some? then Get(s.pointsTo, a.value) else {}, c, id);
    case RawRealloc => AllocateKept(s, args, dest, bb, w, c, id);
    case IntoRaw => AllocateKept(s, args, dest, bb, w, c, id);
    case FromRaw => FromRawKept(s, args, dest, w, c, id);
    case MemForget => ForgetKept(s, args, dest, w, c, id);
    case Acquire =>
    case MuAccess => AddKept(s, dest, {}, c, id);
    case BufWrite => AddKept(s, dest, {}, c, id);
  }

  /** A callee that does nothing to the objects of its arguments, if no summary of a function in `idle` has an effect. */
  predicate Spares(idle: set<nat>, f: Callee) {
    match f.role
    case RawRealloc => false
    case FromRaw => false
    case MemForget => false
    case Plain(touch) => f.def in idle && (f.accessor || !touch.Anything?)
    case _ => true
  }

  predicate Effectless(sums: SummaryMap, idle: set<nat>) { forall d <- idle :: d in sums ==> sums[d].effects == [] }

  lemma SparedPlain(body: Body, sums: SummaryMap, s: Ownership, f: Callee, args: seq<Operand>, dest: Local, bb: Block, idle: set<nat>, c: Local, id: ObjectId)
    requires Effectless(sums, idle) && Spares(idle, f) && f.role.Plain? && c != dest && id != Site(bb)
    ensures Kept(s, ByRole(body, sums, s, f, args, dest, bb), c, id)
  {
    if f.def in sums {
      var sum := sums[f.def];
      var s1 := ApplySummary(body, s, args, dest, bb, sum);
      assert ApplyEffects(s, args, sum.effects) == s;
      ReturnShape(body, s, args, dest, bb, sum, c);
      ReturnFrame(body, s, args, dest, bb, sum, c);
      if FirstArgLocal(args).Some? { AddKept(s1, dest, Get(s1.pointsTo, FirstArgLocal(args).value), c, id); }
    } else {
      var s1 := UnknownCall(body, s, f, args, dest);
      UnknownKept(body, s, f, args, dest, {c}, c, id);
      AddKept(s1, dest, {}, c, id);
    }
  }

  lemma SparedKept(body: Body, sums: SummaryMap, s: Ownership, f: Callee, args: seq<Operand>, dest: Local, bb: Block, idle: set<nat>, c: Local, id: ObjectId)
    requires Effectless(sums, idle) && Spares(idle, f) && c != dest && id != Site(bb)
    ensures Kept(s, ByRole(body, sums, s, f, args, dest, bb), c, id)
  {
    match f.role
    case Plain(_) => SparedPlain(body, sums, s, f, args, dest, bb, idle, c, id);
    case PtrRead =>
      var a := FirstArgLocal(args);
      AddKept(s, dest, if a.Some? then Get(s.pointsTo, a.value) else {}, c, id);
    case IntoRaw =>
    case Acquire =>
    case MuAccess => AddKept(s, dest, {}, c, id);
    case BufWrite => AddKept(s, dest, {}, c, id);
  }

  /** The terminator neither takes the object from `c` nor redefines `c`; a call may look at it. */
  predicate LeavesAlone(idle: set<nat>, w: set<Local>, c: Local, term: Terminator) {
    match term
    case Call(callee, args, dest, _, _) =>
      && dest.local != c
      && (!AnyTouches(w, args) || (dest.proj == [] && callee.Some? && Spares(idle, callee.value)))
    case Drop(place, _, _) => place.proj == [] ==> place.local != c
    case _ => true
  }

  predicate TerminatorStaysIn(w: set<Local>, term: Terminator) {
    term.Call? ==> CallStaysIn(w, term.args, term.dest.local)
  }

  lemma CallReady(body: Body, sums: SummaryMap, s: Ownership, bb: Block, term: Terminator, idle: set<nat>, w: set<Local>, c: Local, id: ObjectId)
    requires Ready(s, w, c, id) && Named(s) && SUMMARY_BASE <= id && bb < LIMIT && c in w && term.Call?
    requires Effectless(sums, idle) && LeavesAlone(idle, w, c, term)
    ensures Kept(s, ApplyTerminator(body, sums, s, bb, term), c, id)
  {
    var args, dest := term.args, term.dest.local;
    var s1 := BeforeCall(body, sums, s, term.callee, args, dest);
    BeforeCallApart(body, sums, s, term.callee, args, dest, id, c);
    BeforeCallFields(body, sums, s, term.callee, args, dest, c);
    BeforeCallWithin(body, sums, s, term.callee, args, dest, w, id);
    if AnyTouches(w, args) {
      SparedKept(body, sums, s1, term.callee.value, args, dest, bb, idle, c, id);
    } else if term.callee.None? || term.dest.proj != [] {
      EscapeArgsKept(body, s1, args, w, c, id);
    } else {
      RoleKept(body, sums, s1, term.callee.value, args, dest, bb, w, c, id);
    }
  }

  lemma TerminatorReady(body: Body, sums: SummaryMap, s: Ownership, bb: Block, term: Terminator, idle: set<nat>, w: set<Local>, c: Local, id: ObjectId)
    requires Ready(s, w, c, id) && Named(s) && SUMMARY_BASE <= id && bb < LIMIT && c in w
    requires Effectless(sums, idle) && LeavesAlone(idle, w, c, term) && TerminatorStaysIn(w, term)
    ensures Ready(ApplyTerminator(body, sums, s, bb, term), w, c, id)
  {
    TerminatorWithin(body, sums, s, bb, term, w, id);
    if term.Call? { CallReady(body, sums, s, bb, term, idle, w, c, id); }
  }

  // ----- the call that frees it -----

  /** Argument `pos` is `c`, and no other argument can reach the object. */
  predicate HandsOver(w: set<Local>, c: Local, args: seq<Operand>, pos: nat) {
    && NthArgLocal(args, pos) == Some(c)
    && forall j :: 0 <= j < |args| && j != pos && OperandLocal(args[j]).Some? ==> OperandLocal(args[j]).value !in w
  }

  lemma HandedOver(body: Body, sums: SummaryMap, s: Ownership, bb: Block, term: Terminator, w: set<Local>, c: Local, pos: nat, id: ObjectId)
    requires Ready(s, w, c, id) && Named(s) && SUMMARY_BASE <= id && bb < LIMIT
    requires term.Call? && term.callee.Some? && term.dest.proj == [] && TerminatorStaysIn(w, term)
    requires HandsOver(w, c, term.args, pos) && CallFrees(sums, term.callee.value, pos)
    ensures var s' := ApplyTerminator(body, sums, s, bb, term); Within(s', w, id) && Freed(s', id)
  {
    TerminatorWithin(body, sums, s, bb, term, w, id);
    TerminatorFrees(body, sums, s, bb, term, pos, c, id);
  }

  // ----- once it is freed -----

  predicate ForgetsNone(w: set<Local>, term: Terminator) {
    term.Call? && term.callee.Some? && term.callee.value.role.MemForget? && FirstArgBase(term.args).Some? ==>
      FirstArgBase(term.args).value !in w
  }

  lemma StaysFreed(body: Body, sums: SummaryMap, s: Ownership, bb: Block, term: Terminator, w: set<Local>, id: ObjectId)
    requires Within(s, w, id) && Freed(s, id) && Named(s) && SUMMARY_BASE <= id && bb < LIMIT
    requires TerminatorStaysIn(w, term) && ForgetsNone(w, term)
    ensures var s' := ApplyTerminator(body, sums, s, bb, term); Within(s', w, id) && Freed(s', id)
  {
    TerminatorWithin(body, sums, s, bb, term, w, id);
    TerminatorKeepsFreed(body, sums, s, bb, term, id);
  }
}
