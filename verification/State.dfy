/**
`BlockState`, its merge, and the queries checkers ask of it.

The state is a product of three slices: ownership, value ranges and capacities. They do not read each other, except
that an `eq`/`ne` call looks up in the capacity slice what its arguments refer to.
Maps that differ only by a tag and merge alike are one map keyed by that tag: `const_lt`/`le`/`gt`/`ge` are
`constIf`, `nonzero_if_true`/`_false` are `nonzeroIf`, `eq_pair_if_true`/`ne_pair_if_true` are `pairIf`,
`eq_locals`/`keys_are_ne` are `pairs`, `len_of`/`cap_of` are `sizeOf`, and the spare/full maps are `capIf` and `capProof`.
*/
module State {
  import opened Mir
  import opened Lattice

  datatype HeapState = RawOwned | Reconstituted | MaybeFreed | Escaped

  datatype ProtocolState = Active | Consumed | Forgotten | MaybeActive

  /** `HeapState::join`. */
  function HeapJoin(a: HeapState, b: HeapState): HeapState {
    if a == b then a
    else if a == Escaped || b == Escaped then Escaped
    else MaybeFreed
  }

  /** `ProtocolState::join`. */
  function ProtocolJoin(a: ProtocolState, b: ProtocolState): ProtocolState {
    if a == b then a else MaybeActive
  }

  function HeapLevel(h: HeapState): nat {
    match h
    case Escaped => 2
    case MaybeFreed => 1
    case _ => 0
  }

  function ProtocolLevel(p: ProtocolState): nat {
    if p == MaybeActive then 1 else 0
  }

  lemma SmallLattices()
    ensures Semilattice(HeapJoin) && Climbs(HeapJoin, HeapLevel)
    ensures Semilattice(ProtocolJoin) && Climbs(ProtocolJoin, ProtocolLevel)
  {
  }

  datatype Ownership = Ownership(
    heap: map<ObjectId, HeapState>,
    pointsTo: map<Local, set<ObjectId>>,
    localProto: map<Local, set<Word32>>,
    typestate: map<Word32, ProtocolState>,
    ownerAlias: map<Local, set<Local>>,
    fieldOwned: map<(Local, Word32), set<ObjectId>>,
    reallocedParams: set<Local>)

  datatype Ranges = Ranges(
    upper: map<Local, U64>,
    lower: map<Local, U64>,
    nonzero: set<Local>,
    pairs: set<(bool, Local, Local)>,             // (true, a, b): a == b proven; (false, a, b): a != b proven
    constIf: map<(Rel, Local), (Local, U64)>,     // (rel, cmp) -> (l, k): cmp holds `l rel k`
    nonzeroIf: map<(bool, Local), Local>,         // (edge, cmp) -> l: l != 0 on that edge of cmp
    pairIf: map<(bool, Local), (Local, Local)>,   // (true, cmp): cmp is Eq(a, b); (false, cmp): cmp is Ne(a, b)
    mulOverflow: set<Local>,
    layoutOverflow: set<Local>)

  datatype Measure = Length | Capacity
  datatype CapKind = Spare | Full

  datatype Capacities = Capacities(
    refBase: map<Local, Local>,
    sizeOf: map<(Measure, Local), Local>,
    capIf: map<(CapKind, bool, Local), Local>,
    capProof: set<(CapKind, Local)>)

  datatype BlockState = BlockState(own: Ownership, range: Ranges, cap: Capacities)

  const EmptyState: BlockState := BlockState(
    Ownership(map[], map[], map[], map[], map[], map[], {}),
    Ranges(map[], map[], {}, {}, map[], map[], map[], {}, {}),
    Capacities(map[], map[], map[], {}))

  // ----- merge -----

  function JoinOwn(a: Ownership, b: Ownership): Ownership {
    Ownership(
      JoinMaps(HeapJoin, a.heap, b.heap),
      UnionSets(a.pointsTo, b.pointsTo),
      UnionSets(a.localProto, b.localProto),
      JoinMaps(ProtocolJoin, a.typestate, b.typestate),
      UnionSets(a.ownerAlias, b.ownerAlias),
      UnionSets(a.fieldOwned, b.fieldOwned),
      a.reallocedParams + b.reallocedParams)
  }

  function JoinRange(a: Ranges, b: Ranges): Ranges {
    Ranges(
      JoinUpper(a.upper, b.upper),
      JoinLower(a.lower, b.lower),
      a.nonzero * b.nonzero,
      a.pairs * b.pairs,
      FirstWins(a.constIf, b.constIf),
      FirstWins(a.nonzeroIf, b.nonzeroIf),
      FirstWins(a.pairIf, b.pairIf),
      a.mulOverflow + b.mulOverflow,
      a.layoutOverflow + b.layoutOverflow)
  }

  function JoinCap(a: Capacities, b: Capacities): Capacities {
    Capacities(
      FirstWins(a.refBase, b.refBase),
      FirstWins(a.sizeOf, b.sizeOf),
      FirstWins(a.capIf, b.capIf),
      a.capProof * b.capProof)
  }

  /** The state `join_with` returns. */
  function Join(a: BlockState, b: BlockState): BlockState {
    BlockState(JoinOwn(a.own, b.own), JoinRange(a.range, b.range), JoinCap(a.cap, b.cap))
  }

  // ----- order -----

  ghost predicate OwnLeq(a: Ownership, b: Ownership) {
    && MapLeq(HeapJoin, a.heap, b.heap)
    && SetsLeq(a.pointsTo, b.pointsTo)
    && SetsLeq(a.localProto, b.localProto)
    && MapLeq(ProtocolJoin, a.typestate, b.typestate)
    && SetsLeq(a.ownerAlias, b.ownerAlias)
    && SetsLeq(a.fieldOwned, b.fieldOwned)
    && a.reallocedParams <= b.reallocedParams
  }

  ghost predicate RangeLeq(a: Ranges, b: Ranges) {
    && UpperLeq(a.upper, b.upper)
    && LowerLeq(a.lower, b.lower)
    && b.nonzero <= a.nonzero
    && b.pairs <= a.pairs
    && a.constIf.Keys <= b.constIf.Keys
    && a.nonzeroIf.Keys <= b.nonzeroIf.Keys
    && a.pairIf.Keys <= b.pairIf.Keys
    && a.mulOverflow <= b.mulOverflow
    && a.layoutOverflow <= b.layoutOverflow
  }

  ghost predicate CapLeq(a: Capacities, b: Capacities) {
    && a.refBase.Keys <= b.refBase.Keys
    && a.sizeOf.Keys <= b.sizeOf.Keys
    && a.capIf.Keys <= b.capIf.Keys
    && b.capProof <= a.capProof
  }

  /**
  `b` claims no more than `a`: lattice components are ordered, first-wins maps only by their keys.
  Merging `a` into `b` reports a change exactly when this fails.
  */
  ghost predicate Leq(a: BlockState, b: BlockState) {
    OwnLeq(a.own, b.own) && RangeLeq(a.range, b.range) && CapLeq(a.cap, b.cap)
  }

  /** The components on which `Leq` is antisymmetric. */
  ghost predicate SameLattice(a: BlockState, b: BlockState) {
    && a.own == b.own
    && a.range.upper == b.range.upper && a.range.lower == b.range.lower
    && a.range.nonzero == b.range.nonzero && a.range.pairs == b.range.pairs
    && a.range.mulOverflow == b.range.mulOverflow && a.range.layoutOverflow == b.range.layoutOverflow
    && a.cap.capProof == b.cap.capProof
  }

  ghost predicate NoEmptyEntry(s: BlockState) {
    && NoEmptySet(s.own.pointsTo) && NoEmptySet(s.own.localProto)
    && NoEmptySet(s.own.ownerAlias) && NoEmptySet(s.own.fieldOwned)
  }

  lemma LeqRefl(a: BlockState)
    ensures Leq(a, a)
  {
  }

  lemma LeqTrans(a: BlockState, b: BlockState, c: BlockState)
    requires Leq(a, b) && Leq(b, c)
    ensures Leq(a, c)
  {
    SmallLattices();
    MapLeqTrans(HeapJoin, a.own.heap, b.own.heap, c.own.heap);
    MapLeqTrans(ProtocolJoin, a.own.typestate, b.own.typestate, c.own.typestate);
  }

  /** The merge is an upper bound of both sides: no incoming path's may-facts are lost, no must-fact is invented. */
  lemma JoinUpperBound(a: BlockState, b: BlockState)
    ensures Leq(a, Join(a, b)) && Leq(b, Join(a, b))
  {
    SmallLattices();
    JoinMapsUpper(HeapJoin, a.own.heap, b.own.heap);
    JoinMapsUpper(ProtocolJoin, a.own.typestate, b.own.typestate);
  }

  /** ... and the least one. */
  lemma UnionLeast<K, E>(a: map<K, set<E>>, b: map<K, set<E>>, c: map<K, set<E>>)
    requires SetsLeq(a, c) && SetsLeq(b, c)
    ensures SetsLeq(UnionSets(a, b), c)
  {
  }

  lemma OwnLeast(a: Ownership, b: Ownership, c: Ownership)
    requires OwnLeq(a, c) && OwnLeq(b, c)
    ensures OwnLeq(JoinOwn(a, b), c)
  {
    LeastHeap(a.heap, b.heap, c.heap);
    LeastGuards(a.typestate, b.typestate, c.typestate);
    UnionLeast(a.pointsTo, b.pointsTo, c.pointsTo);
    UnionLeast(a.localProto, b.localProto, c.localProto);
    UnionLeast(a.ownerAlias, b.ownerAlias, c.ownerAlias);
    UnionLeast(a.fieldOwned, b.fieldOwned, c.fieldOwned);
  }

  lemma LeastHeap(a: map<ObjectId, HeapState>, b: map<ObjectId, HeapState>, c: map<ObjectId, HeapState>)
    requires MapLeq(HeapJoin, a, c) && MapLeq(HeapJoin, b, c)
    ensures MapLeq(HeapJoin, JoinMaps(HeapJoin, a, b), c)
  {
    SmallLattices();
    JoinMapsLeast(HeapJoin, a, b, c);
  }

  lemma LeastGuards(a: map<Word32, ProtocolState>, b: map<Word32, ProtocolState>, c: map<Word32, ProtocolState>)
    requires MapLeq(ProtocolJoin, a, c) && MapLeq(ProtocolJoin, b, c)
    ensures MapLeq(ProtocolJoin, JoinMaps(ProtocolJoin, a, b), c)
  {
    SmallLattices();
    JoinMapsLeast(ProtocolJoin, a, b, c);
  }

  lemma RangeLeast(a: Ranges, b: Ranges, c: Ranges)
    requires RangeLeq(a, c) && RangeLeq(b, c)
    ensures RangeLeq(JoinRange(a, b), c)
  {
  }

  lemma JoinLeast(a: BlockState, b: BlockState, c: BlockState)
    requires Leq(a, c) && Leq(b, c)
    ensures Leq(Join(a, b), c)
  {
    OwnLeast(a.own, b.own, c.own);
    RangeLeast(a.range, b.range, c.range);
  }

  lemma UnionSetsStill<K, E>(a: map<K, set<E>>, b: map<K, set<E>>)
    requires SetsLeq(b, a) && b.Keys <= a.Keys
    ensures UnionSets(a, b) == a
  {
    forall k <- a.Keys ensures Get(a, k) + Get(b, k) == a[k] {
      assert Get(b, k) <= Get(a, k);
    }
  }

  lemma JoinIdempotent(a: BlockState)
    ensures Join(a, a) == a
  {
    OwnStill(a.own, a.own);
    RangeStill(a.range, a.range);
  }

  lemma OwnStill(a: Ownership, b: Ownership)
    requires OwnLeq(b, a)
    requires b.pointsTo.Keys <= a.pointsTo.Keys && b.localProto.Keys <= a.localProto.Keys
    requires b.ownerAlias.Keys <= a.ownerAlias.Keys && b.fieldOwned.Keys <= a.fieldOwned.Keys
    ensures JoinOwn(a, b) == a
  {
    UnionSetsStill(a.pointsTo, b.pointsTo);
    UnionSetsStill(a.localProto, b.localProto);
    UnionSetsStill(a.ownerAlias, b.ownerAlias);
    UnionSetsStill(a.fieldOwned, b.fieldOwned);
    assert JoinMaps(HeapJoin, a.heap, b.heap) == a.heap;
    assert JoinMaps(ProtocolJoin, a.typestate, b.typestate) == a.typestate;
  }

  lemma RangeStill(a: Ranges, b: Ranges)
    requires RangeLeq(b, a)
    ensures JoinRange(a, b) == a
  {
    assert JoinUpper(a.upper, b.upper) == a.upper;
    assert JoinLower(a.lower, b.lower) == a.lower;
    assert FirstWins(a.constIf, b.constIf) == a.constIf;
    assert FirstWins(a.nonzeroIf, b.nonzeroIf) == a.nonzeroIf;
    assert FirstWins(a.pairIf, b.pairIf) == a.pairIf;
  }

  lemma CapStill(a: Capacities, b: Capacities)
    requires CapLeq(b, a)
    ensures JoinCap(a, b) == a
  {
    assert FirstWins(a.refBase, b.refBase) == a.refBase;
    assert FirstWins(a.sizeOf, b.sizeOf) == a.sizeOf;
    assert FirstWins(a.capIf, b.capIf) == a.capIf;
  }

  lemma SetsLeqKeys<K, E>(a: map<K, set<E>>, b: map<K, set<E>>)
    requires NoEmptySet(a) && SetsLeq(a, b)
    ensures a.Keys <= b.Keys
  {
    forall k <- a.Keys ensures k in b {
      assert a[k] <= Get(b, k);
    }
  }

  /**
  The `changed` flag is exact: with no empty set-valued entry coming in, merging `b` into `a` reports a change
  if and only if the merged state differs from `a`.
  */
  lemma ChangedIffDiffers(a: BlockState, b: BlockState)
    requires NoEmptyEntry(b)
    ensures !Leq(b, a) <==> Join(a, b) != a
  {
    JoinUpperBound(a, b);
    if Leq(b, a) {
      SetsLeqKeys(b.own.pointsTo, a.own.pointsTo);
      SetsLeqKeys(b.own.localProto, a.own.localProto);
      SetsLeqKeys(b.own.ownerAlias, a.own.ownerAlias);
      SetsLeqKeys(b.own.fieldOwned, a.own.fieldOwned);
      OwnStill(a.own, b.own);
      RangeStill(a.range, b.range);
      CapStill(a.cap, b.cap);
    }
  }

  /** The hypothesis is needed: an incoming empty entry changes the state without raising the flag. */
  lemma EmptyEntryGoesUnreported()
    ensures var b := EmptyState.(own := EmptyState.own.(pointsTo := map[0 := {}]));
            Leq(b, EmptyState) && Join(EmptyState, b) != EmptyState
  {
    var b := EmptyState.(own := EmptyState.own.(pointsTo := map[0 := {}]));
    assert 0 in Join(EmptyState, b).own.pointsTo;
  }

  lemma SetsAntisymmetric<K, E>(a: map<K, set<E>>, b: map<K, set<E>>)
    requires NoEmptySet(a) && NoEmptySet(b) && SetsLeq(a, b) && SetsLeq(b, a)
    ensures a == b
  {
    SetsLeqKeys(a, b);
    SetsLeqKeys(b, a);
    forall k <- a.Keys ensures a[k] == b[k] {
      assert a[k] <= Get(b, k) && b[k] <= Get(a, k);
    }
  }

  /** `Leq` is a partial order on the lattice components, so the least upper bound above is unique there. */
  lemma LeqAntisymmetric(a: BlockState, b: BlockState)
    requires NoEmptyEntry(a) && NoEmptyEntry(b) && Leq(a, b) && Leq(b, a)
    ensures SameLattice(a, b)
  {
    SmallLattices();
    SetsAntisymmetric(a.own.pointsTo, b.own.pointsTo);
    SetsAntisymmetric(a.own.localProto, b.own.localProto);
    SetsAntisymmetric(a.own.ownerAlias, b.own.ownerAlias);
    SetsAntisymmetric(a.own.fieldOwned, b.own.fieldOwned);
    assert a.own.heap == b.own.heap && a.own.typestate == b.own.typestate;
    assert a.range.upper == b.range.upper && a.range.lower == b.range.lower;
  }

  lemma JoinKeepsNonEmpty(a: BlockState, b: BlockState)
    requires NoEmptyEntry(a) && NoEmptyEntry(b)
    ensures NoEmptyEntry(Join(a, b))
  {
  }
}
