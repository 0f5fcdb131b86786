/** What every step of the ownership transfer keeps, for every statement, terminator and merge. */
module OwnInvariant {
  import opened Mir
  import opened Lattice
  import opened State
  import opened O = OwnTransfer

  const LIMIT: nat := 0x4000_0000

  /** No set-valued entry is empty, and every object or guard named anywhere has a state. */
  ghost predicate Grounded(s: Ownership) {
    && NoEmptySet(s.pointsTo) && NoEmptySet(s.localProto) && NoEmptySet(s.ownerAlias) && NoEmptySet(s.fieldOwned)
    && (forall l <- s.pointsTo.Keys :: s.pointsTo[l] <= s.heap.Keys)
    && (forall k <- s.fieldOwned.Keys :: s.fieldOwned[k] <= s.heap.Keys)
    && (forall l <- s.localProto.Keys :: s.localProto[l] <= s.typestate.Keys)
  }

  predicate IsSiteId(id: ObjectId) { id < REALLOC_BASE }
  predicate IsStaleId(id: ObjectId) { REALLOC_BASE <= id < SUMMARY_BASE }

  /** The three id namespaces do not mix: a stale-buffer object is never owned or reconstituted. */
  ghost predicate Named(s: Ownership) {
    && (forall id <- s.heap.Keys :: IsStaleId(id) ==> s.heap[id] == MaybeFreed || s.heap[id] == Escaped)
    && (forall l <- s.ownerAlias.Keys :: l < LIMIT)
  }

  ghost predicate Sane(s: Ownership) { Grounded(s) && Named(s) }

  /** Sanity is kept, no heap key disappears, and nothing appears but stale-buffer objects and `born`. */
  ghost predicate KeepsWith(s: Ownership, s': Ownership, born: set<ObjectId>) {
    Sane(s) ==>
      && Sane(s')
      && s.heap.Keys <= s'.heap.Keys
      && forall id <- s'.heap.Keys :: id in s.heap || IsStaleId(id) || id in born
  }

  ghost predicate Keeps(s: Ownership, s': Ownership) { KeepsWith(s, s', {}) }

  // ----- elementary updates -----

  lemma InvalidateKeeps(s: Ownership, os: set<Local>)
    ensures Keeps(s, InvalidateOwners(s, os))
  {
  }

  lemma EscapeKeeps(s: Ownership, l: Local)
    ensures Keeps(s, EscapeLocal(s, l))
  {
    if Sane(s) {
      var s' := EscapeLocal(s, l);
      var objs := set id | id in Get(s.pointsTo, l) && !IsFreed(s.heap, id);
      assert objs <= s.heap.Keys;
      assert s'.heap.Keys == s.heap.Keys;
    }
  }

  lemma ReconstituteKeeps(s: Ownership, objs: set<ObjectId>)
    ensures Keeps(s, s.(heap := Reconstitute(s.heap, objs)))
  {
    assert Reconstitute(s.heap, objs).Keys == s.heap.Keys;
  }

  lemma AllocateKeeps(s: Ownership, d: Local, bb: Block)
    requires bb < LIMIT
    ensures KeepsWith(s, AllocateAt(s, d, bb), {Site(bb)})
  {
    if Sane(s) {
      var s' := AllocateAt(s, d, bb);
      assert Site(bb) == bb;
      forall l <- s'.pointsTo.Keys ensures s'.pointsTo[l] != {} && s'.pointsTo[l] <= s'.heap.Keys {
        if l == d { assert s'.pointsTo[l] == {Site(bb)}; }
      }
    }
  }

  lemma AddPtsKeeps(s: Ownership, d: Local, objs: set<ObjectId>)
    requires objs <= s.heap.Keys
    ensures Keeps(s, AddPts(s, d, objs)) && Keeps(s, SetPts(s, d, objs))
  {
  }

  lemma GetKnown(s: Ownership, l: Local)
    requires Grounded(s)
    ensures Get(s.pointsTo, l) <= s.heap.Keys && Get(s.localProto, l) <= s.typestate.Keys
  {
  }

  // ----- statements -----

  lemma GatherKnown(s: Ownership, ops: seq<Operand>)
    requires Grounded(s)
    ensures GatherObjects(s, ops) <= s.heap.Keys
  {
    forall o | o in GatherObjects(s, ops) ensures o in s.heap {
      var i :| 0 <= i < |ops| && OperandLocal(ops[i]).Some? && o in Get(s.pointsTo, OperandLocal(ops[i]).value);
      GetKnown(s, OperandLocal(ops[i]).value);
    }
  }

  lemma AliasKeeps(body: Body, s: Ownership, d: Local, owners: set<Local>)
    requires d < LIMIT
    ensures Keeps(s, ClearFields(SetAlias(s, d, owners), d))
  {
  }

  lemma CopyPtsKeeps(s: Ownership, d: Local, src: Local)
    ensures Keeps(s, CopyPts(s, d, src))
  {
  }

  lemma CopyKeeps(s: Ownership, d: Local, src: Local)
    ensures Keeps(s, CopyPts(s, d, src)) && Keeps(s, Forget(s, d)) && Keeps(s, DropProto(s, d))
  {
    CopyPtsKeeps(s, d, src);
  }

  lemma CopyLocalKeeps(s: Ownership, d: Local, src: Local)
    ensures Keeps(s, CopyLocal(s, d, src))
  {
    CopyPtsKeeps(s, d, src);
  }

  lemma MoveKeeps(s: Ownership, d: Local, src: Local)
    ensures Keeps(s, MoveLocal(s, d, src)) && Keeps(s, CopyLocal(s, d, src))
  {
    CopyLocalKeeps(s, d, src);
    if Sane(s) { GetKnown(s, src); }
  }

  lemma FieldReadKeeps(s: Ownership, d: Local, p: Place)
    ensures Keeps(s, DropProto(FieldRead(s, d, p), d))
  {
    CopyKeeps(s, d, p.local);
    CopyKeeps(FieldRead(s, d, p), d, d);
  }

  lemma SetKeeps(s: Ownership, d: Local, objs: set<ObjectId>)
    requires objs <= s.heap.Keys
    ensures Keeps(s, DropProto(SetPts(s, d, objs), d))
  {
    AddPtsKeeps(s, d, objs);
    CopyKeeps(SetPts(s, d, objs), d, d);
  }

  lemma CastKeeps(s: Ownership, d: Local, src: Local)
    ensures Keeps(s, DropProto(CopyPts(s, d, src), d))
  {
    CopyKeeps(s, d, src);
    CopyKeeps(CopyPts(s, d, src), d, d);
  }

  lemma UntrackKeeps(s: Ownership, d: Local)
    ensures Keeps(s, DropProto(Untrack(s, d), d))
  {
  }

  lemma BinaryKeeps(s: Ownership, d: Local, bop: BinOp, a: Operand, b: Operand)
    ensures Keeps(s, DropProto(BinaryPts(s, d, bop, a, b), d))
  {
    if (bop == Offset || bop == Add || bop == Sub) && Tracked(s, a) {
      CastKeeps(s, d, OperandLocal(a).value);
    } else if (bop == Offset || bop == Add || bop == Sub) && Tracked(s, b) {
      CastKeeps(s, d, OperandLocal(b).value);
    } else {
      UntrackKeeps(s, d);
    }
  }

  lemma UseKeeps(s: Ownership, d: Local, op: Operand)
    ensures Keeps(s, Track(s, d, Use(op)))
  {
    CopyKeeps(s, d, d);
    match op
    case Const(_) =>
    case Move(p) =>
      if p.proj == [] { MoveKeeps(s, d, p.local); }
      else if AtMostLeadingDeref(p.proj) { FieldReadKeeps(s, d, p); }
      else { CopyKeeps(Forget(s, d), p.local, d); }
    case Copy(p) =>
      if p.proj == [] { MoveKeeps(s, d, p.local); } else if AtMostLeadingDeref(p.proj) { FieldReadKeeps(s, d, p); }
  }

  lemma TrackKeeps(s: Ownership, d: Local, rv: Rvalue)
    requires Sane(s)
    ensures Keeps(s, Track(s, d, rv))
  {
    match rv
    case Use(op) => UseKeeps(s, d, op);
    case Aggregate(ops) =>
      GatherKnown(s, ops);
      SetKeeps(s, d, GatherObjects(s, ops));
    case Binary(bop, a, b) => BinaryKeeps(s, d, bop, a, b);
    case BorrowOf(p) => PlaceKeeps(s, d, p.local);
    case AddrOf(p) => PlaceKeeps(s, d, p.local);
    case PtrCast(op) =>
      CopyKeeps(s, d, d);
      if OperandLocal(op).Some? { CastKeeps(s, d, OperandLocal(op).value); }
    case _ => CopyKeeps(s, d, d);
  }

  lemma PlaceKeeps(s: Ownership, d: Local, l: Local)
    requires Sane(s)
    ensures Keeps(s, DropProto(SetPts(s, d, Get(s.pointsTo, l)), d)) && Keeps(s, Forget(s, d))
  {
    GetKnown(s, l);
    SetKeeps(s, d, Get(s.pointsTo, l));
    CopyKeeps(s, d, d);
  }

  lemma StoreFieldKeeps(s: Ownership, key: (Local, Word32), l: Local)
    ensures Keeps(s, StoreField(s, key, l))
  {
    if Sane(s) { GetKnown(s, l); }
  }

  lemma StoreKeeps(s: Ownership, dst: Place, rv: Rvalue)
    requires Sane(s)
    ensures Keeps(s, Store(s, dst, rv))
  {
    if RvalueLocal(rv).Some? {
      var l := RvalueLocal(rv).value;
      if dst.local == 0 && Deref !in dst.proj {
        GetKnown(s, l);
        GetKnown(s, 0);
        AddPtsKeeps(s, 0, if Get(s.pointsTo, l) != {} then Get(s.pointsTo, 0) + Get(s.pointsTo, l) else {});
      } else if SimpleField(dst.proj).Some? {
        StoreFieldKeeps(s, (dst.local, SimpleField(dst.proj).value), l);
      } else {
        EscapeKeeps(s, l);
      }
    }
  }

  predicate StatementBelow(stmt: Statement) { stmt.Assign? ==> stmt.dst.local < LIMIT }

  lemma StatementKeeps(body: Body, s: Ownership, stmt: Statement)
    requires StatementBelow(stmt)
    ensures Keeps(s, ApplyStatement(body, s, stmt))
  {
    if stmt.Assign? {
      var d := stmt.dst.local;
      var s1 := InvalidateOwners(s, {d});
      InvalidateKeeps(s, {d});
      if stmt.dst.proj != [] {
        if Sane(s) { StoreKeeps(s1, stmt.dst, stmt.rv); }
      } else {
        var owners := RvalueOwners(body, s1, d, stmt.rv);
        AliasKeeps(body, s1, d, owners);
        if Sane(s) { TrackKeeps(ClearFields(SetAlias(s1, d, owners), d), d, stmt.rv); }
      }
    }
  }

  // ----- calls -----

  lemma MarkStaleKeeps(body: Body, s: Ownership, recv: Local)
    ensures Keeps(s, MarkStale(body, s, recv))
  {
    if Sane(s) {
      var stale := StaleSet(body, s, OwnersOrSelf(s, recv));
      var s' := MarkStale(body, s, recv);
      var ids := set p | p in stale :: StaleId(p);
      forall p <- stale ensures StaleId(p) in ids && IsStaleId(StaleId(p)) {
        assert p in s.ownerAlias;
      }
      forall l <- s'.pointsTo.Keys ensures s'.pointsTo[l] != {} && s'.pointsTo[l] <= s'.heap.Keys {
        if l in stale { assert s'.pointsTo[l] == {StaleId(l)}; }
      }
    }
  }

  lemma EscapeArgsKeeps(body: Body, s: Ownership, args: seq<Operand>)
    ensures Keeps(s, EscapeArgs(body, s, args))
    decreases |args|
  {
    if args != [] {
      var l := OperandLocal(args[0]);
      var s1 := if l.Some? && (TyOf(body, l.value).RawPtr? || l.value in s.pointsTo) then EscapeLocal(s, l.value) else s;
      if l.Some? { EscapeKeeps(s, l.value); }
      EscapeArgsKeeps(body, s1, args[1..]);
    }
  }

  lemma EffectKeeps(s: Ownership, arg: Option<Local>, e: Effect)
    ensures Keeps(s, ApplyEffect(s, arg, e))
  {
    if arg.Some? {
      ReconstituteKeeps(s, Get(s.pointsTo, arg.value));
      EscapeKeeps(s, arg.value);
    }
  }

  lemma EffectsKeep(s: Ownership, args: seq<Operand>, effects: seq<(nat, Effect)>)
    ensures Keeps(s, ApplyEffects(s, args, effects))
    decreases |effects|
  {
    if effects != [] {
      EffectKeeps(s, NthArgLocal(args, effects[0].0), effects[0].1);
      EffectsKeep(ApplyEffect(s, NthArgLocal(args, effects[0].0), effects[0].1), args, effects[1..]);
    }
  }

  lemma MoreAliasKeeps(s: Ownership, dest: Local, owners: set<Local>)
    requires dest < LIMIT && owners != {}
    ensures Keeps(s, s.(ownerAlias := s.ownerAlias[dest := Get(s.ownerAlias, dest) + owners]))
  {
    var o :| o in owners;
    assert o in Get(s.ownerAlias, dest) + owners;
  }

  lemma ReturnAliasKeeps(body: Body, s: Ownership, arg: Local, dest: Local)
    requires dest < LIMIT
    ensures Keeps(s, ReturnAlias(body, s, arg, dest))
  {
    var ty := TyOf(body, arg);
    var owners := if IsReferenceParam(body, arg) then {arg}
                  else if ty.Ref? || ty.RawPtr? then Get(s.ownerAlias, arg) else {};
    var s1 := if owners != {} then s.(ownerAlias := s.ownerAlias[dest := Get(s.ownerAlias, dest) + owners]) else s;
    if owners != {} { MoreAliasKeeps(s, dest, owners); }
    if Sane(s) {
      GetKnown(s1, arg);
      AddPtsKeeps(s1, dest, Get(s1.pointsTo, arg));
    }
  }

  lemma SummaryKeeps(body: Body, s: Ownership, args: seq<Operand>, dest: Local, bb: Block, sum: FnSummary)
    requires dest < LIMIT && bb < LIMIT
    ensures KeepsWith(s, ApplySummary(body, s, args, dest, bb, sum), {Site(bb)})
  {
    if Sane(s) {
      var s1 := ApplyEffects(s, args, sum.effects);
      EffectsKeep(s, args, sum.effects);
      AllocateKeeps(s1, dest, bb);
      var s2 := if sum.returnsRawOwned then AllocateAt(s1, dest, bb) else Forget(s1, dest);
      var s3 := s2.(ownerAlias := s2.ownerAlias - {dest});
      assert KeepsWith(s1, s3, {Site(bb)});
      var al := if sum.aliasOf.Some? then NthArgLocal(args, sum.aliasOf.value) else None;
      if al.Some? { ReturnAliasKeeps(body, s3, al.value, dest); }
      var s4 := if al.Some? then ReturnAlias(body, s3, al.value, dest) else s3;
      var pt := if sum.ptrOf.Some? then NthArgLocal(args, sum.ptrOf.value) else None;
      if pt.Some? {
        GetKnown(s4, pt.value);
        AddPtsKeeps(s4, dest, Get(s4.pointsTo, pt.value));
      }
    }
  }

  lemma FromRawKeeps(s: Ownership, args: seq<Operand>, dest: Local)
    requires dest < LIMIT
    ensures Keeps(s, FromRawCall(s, args, dest))
  {
    var src := if FirstArgLocal(args).Some? then FirstArgLocal(args) else FirstArgBase(args);
    if src.Some? { ReconstituteKeeps(s, Get(s.pointsTo, src.value)); }
  }

  lemma RawReallocKeeps(s: Ownership, args: seq<Operand>, dest: Local, bb: Block)
    requires bb < LIMIT
    ensures KeepsWith(s, RawReallocCall(s, args, dest, bb), {Site(bb)})
  {
    var src := FirstArgLocal(args);
    if src.Some? { ReconstituteKeeps(s, Get(s.pointsTo, src.value)); }
    var heap := if src.Some? then Reconstitute(s.heap, Get(s.pointsTo, src.value)) else s.heap;
    AllocateKeeps(s.(heap := heap), dest, bb);
  }

  lemma ForgetKeeps(s: Ownership, args: seq<Operand>, dest: Local)
    ensures Keeps(s, ForgetCall(s, args, dest))
  {
    if Sane(s) && FirstArgBase(args).Some? {
      var src := FirstArgBase(args).value;
      GetKnown(s, src);
      assert SetAll(s.heap, Get(s.pointsTo, src), Escaped).Keys == s.heap.Keys;
      assert SetAll(s.typestate, Get(s.localProto, src), Forgotten).Keys == s.typestate.Keys;
    }
  }

  lemma AccessorKeeps(s: Ownership, src: Local, dest: Local)
    requires dest < LIMIT
    ensures var owners := Get(s.ownerAlias, src);
            var s1 := if owners != {} then s.(ownerAlias := s.ownerAlias[dest := owners]) else s;
            Keeps(s, AddPts(s1, dest, Get(s1.pointsTo, src)))
  {
    if Sane(s) { GetKnown(s, src); }
  }

  lemma UnknownKeeps(body: Body, s: Ownership, c: Callee, args: seq<Operand>, dest: Local)
    requires dest < LIMIT
    ensures Keeps(s, UnknownCall(body, s, c, args, dest))
  {
    EscapeArgsKeeps(body, s, args);
    if FirstArgLocal(args).Some? { AccessorKeeps(s, FirstArgLocal(args).value, dest); }
  }

  lemma PlainKeeps(body: Body, sums: SummaryMap, s: Ownership, c: Callee, args: seq<Operand>, dest: Local, bb: Block)
    requires dest < LIMIT && bb < LIMIT && c.role.Plain?
    ensures KeepsWith(s, ByRole(body, sums, s, c, args, dest, bb), {Site(bb)})
  {
    if c.def in sums {
      SummaryKeeps(body, s, args, dest, bb, sums[c.def]);
      var s1 := ApplySummary(body, s, args, dest, bb, sums[c.def]);
      if Sane(s) && FirstArgLocal(args).Some? {
        GetKnown(s1, FirstArgLocal(args).value);
        AddPtsKeeps(s1, dest, Get(s1.pointsTo, FirstArgLocal(args).value));
      }
    } else {
      UnknownKeeps(body, s, c, args, dest);
    }
  }

  lemma ReadKeeps(body: Body, sums: SummaryMap, s: Ownership, c: Callee, args: seq<Operand>, dest: Local, bb: Block)
    requires c.role.PtrRead? || c.role.Acquire? || c.role.MuAccess? || c.role.BufWrite?
    ensures KeepsWith(s, ByRole(body, sums, s, c, args, dest, bb), {Site(bb)})
  {
    if Sane(s) && FirstArgLocal(args).Some? { GetKnown(s, FirstArgLocal(args).value); }
  }

  lemma RoleKeeps(body: Body, sums: SummaryMap, s: Ownership, c: Callee, args: seq<Operand>, dest: Local, bb: Block)
    requires dest < LIMIT && bb < LIMIT
    ensures KeepsWith(s, ByRole(body, sums, s, c, args, dest, bb), {Site(bb)})
  {
    match c.role
    case RawRealloc => RawReallocKeeps(s, args, dest, bb);
    case IntoRaw => AllocateKeeps(s, dest, bb);
    case FromRaw => FromRawKeeps(s, args, dest);
    case MemForget => ForgetKeeps(s, args, dest);
    case Plain(_) => PlainKeeps(body, sums, s, c, args, dest, bb);
    case _ => ReadKeeps(body, sums, s, c, args, dest, bb);
  }

  lemma DropAliasKeeps(s: Ownership, d: Local)
    ensures Keeps(s, DropAlias(s, d))
  {
  }

  lemma BeforeCallKeeps(body: Body, sums: SummaryMap, s: Ownership, callee: Option<Callee>, args: seq<Operand>, dest: Local)
    ensures Keeps(s, BeforeCall(body, sums, s, callee, args, dest))
  {
    var recv := ReallocReceiver(sums, callee, args);
    if recv.Some? { MarkStaleKeeps(body, s, recv.value); }
    var s1 := if recv.Some? then MarkStale(body, s, recv.value) else s;
    var s2 := InvalidateArgs(body, s1, args, ReturnedArg(sums, callee));
    InvalidateKeeps(s1, ArgOwners(body, s1, args, ReturnedArg(sums, callee)));
    InvalidateKeeps(s2, {dest});
    DropAliasKeeps(InvalidateOwners(s2, {dest}), dest);
  }

  lemma DropKeeps(s: Ownership, l: Local)
    ensures Keeps(s, DropLocal(s, l))
  {
    if Sane(s) {
      GetKnown(s, l);
      assert SetAll(s.typestate, Get(s.localProto, l), Consumed).Keys == s.typestate.Keys;
    }
  }

  predicate TerminatorBelow(term: Terminator) { term.Call? ==> term.dest.local < LIMIT }

  /** The object a terminator may allocate. */
  function Born(bb: Block, term: Terminator): set<ObjectId> { if term.Call? then {Site(bb)} else {} }

  lemma TerminatorKeeps(body: Body, sums: SummaryMap, s: Ownership, bb: Block, term: Terminator)
    requires TerminatorBelow(term) && bb < LIMIT
    ensures KeepsWith(s, ApplyTerminator(body, sums, s, bb, term), Born(bb, term))
  {
    match term
    case Call(callee, args, dest, _, _) =>
      BeforeCallKeeps(body, sums, s, callee, args, dest.local);
      var s1 := BeforeCall(body, sums, s, callee, args, dest.local);
      if callee.None? || dest.proj != [] {
        EscapeArgsKeeps(body, s1, args);
      } else {
        RoleKeeps(body, sums, s1, callee.value, args, dest.local, bb);
      }
    case Drop(place, _, _) => DropKeeps(s, place.local);
    case _ =>
  }

  // ----- blocks, merges, and the initial state -----

  /** Block and local numbers stay below 2^30. */
  predicate Small(body: Body) {
    && |body.blocks| <= LIMIT
    && forall b :: 0 <= b < |body.blocks| ==>
         TerminatorBelow(body.blocks[b].term) && forall i :: 0 <= i < |body.blocks[b].stmts| ==> StatementBelow(body.blocks[b].stmts[i])
  }

  lemma ReplayKeeps(body: Body, s: Ownership, stmts: seq<Statement>)
    requires forall i :: 0 <= i < |stmts| ==> StatementBelow(stmts[i])
    ensures Keeps(s, Replay(body, s, stmts))
    decreases |stmts|
  {
    if stmts != [] {
      ReplayKeeps(body, s, stmts[..|stmts| - 1]);
      StatementKeeps(body, Replay(body, s, stmts[..|stmts| - 1]), stmts[|stmts| - 1]);
    }
  }

  lemma AlongKeeps(body: Body, sums: SummaryMap, bb: Block, s: Ownership)
    requires Small(body) && bb < |body.blocks|
    ensures KeepsWith(s, Along(body, sums, bb, body.blocks[bb], s), Born(bb, body.blocks[bb].term))
  {
    var block := body.blocks[bb];
    ReplayKeeps(body, s, block.stmts);
    TerminatorKeeps(body, sums, Replay(body, s, block.stmts), bb, block.term);
  }

  lemma UnionKnown<K, E>(a: map<K, set<E>>, b: map<K, set<E>>, ka: set<E>, kb: set<E>)
    requires NoEmptySet(a) && NoEmptySet(b)
    requires forall k <- a.Keys :: a[k] <= ka
    requires forall k <- b.Keys :: b[k] <= kb
    ensures NoEmptySet(UnionSets(a, b)) && forall k <- UnionSets(a, b).Keys :: UnionSets(a, b)[k] <= ka + kb
  {
    forall k <- UnionSets(a, b).Keys ensures UnionSets(a, b)[k] != {} && UnionSets(a, b)[k] <= ka + kb {
      assert Get(a, k) <= ka && Get(b, k) <= kb;
    }
  }

  lemma JoinNamed(a: Ownership, b: Ownership)
    requires Named(a) && Named(b)
    ensures Named(JoinOwn(a, b))
  {
  }

  lemma JoinKeeps(a: Ownership, b: Ownership)
    requires Sane(a) && Sane(b)
    ensures Sane(JoinOwn(a, b)) && JoinOwn(a, b).heap.Keys == a.heap.Keys + b.heap.Keys
  {
    UnionKnown(a.pointsTo, b.pointsTo, a.heap.Keys, b.heap.Keys);
    UnionKnown(a.fieldOwned, b.fieldOwned, a.heap.Keys, b.heap.Keys);
    UnionKnown(a.localProto, b.localProto, a.typestate.Keys, b.typestate.Keys);
    UnionKnown(a.ownerAlias, b.ownerAlias, LiveOwners(a), LiveOwners(b));
    JoinNamed(a, b);
  }
}
