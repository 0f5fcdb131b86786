/**
Why the fixpoint loop stops: every reported change uses up some of a bounded budget.

Growing components are measured by the room left in their finite, `u32`-indexed universe, shrinking ones by
their size; a bound is measured by the `u64` values it still rules out.
*/
module Rank {
  import opened Mir
  import opened Lattice
  import opened State

  predicate IsWord(n: int) { 0 <= n < 0x1_0000_0000 }

  ghost function Words(): set<Word32> { set w: Word32 | IsWord(w) && 0 <= w < 0x1_0000_0000 }
  ghost function WordPairs(): set<(Word32, Word32)> { set a <- Words(), b <- Words() :: (a, b) }
  ghost function FieldPairs(): set<((Word32, Word32), Word32)> { set p <- WordPairs(), b <- Words() :: (p, b) }
  ghost function WordLevels(): set<(Word32, nat)> { set w <- Words(), i: nat | 0 <= i < 4 :: (w, i) }
  ghost function WordValues(): set<(Word32, nat)> { set w <- Words(), i: nat | 0 <= i <= U64_MAX :: (w, i) }
  ghost function SignedPairs(): set<(bool, Word32, Word32)> { set t <- Edges, p <- WordPairs() :: (t, p.0, p.1) }
  ghost function Keyed<T(!new)>(tags: set<T>): set<(T, Word32)> { set t <- tags, w <- Words() :: (t, w) }
  ghost function CapKeys(): set<(CapKind, bool, Word32)> { set c <- CapKinds, p <- Keyed(Edges) :: (c, p.0, p.1) }

  const Rels := {Lt, Le, Gt, Ge}
  const Edges := {false, true}
  const Measures := {Length, Capacity}
  const CapKinds := {Spare, Full}

  lemma AllTags()
    ensures forall r: Rel :: r in Rels
    ensures forall m: Measure :: m in Measures
    ensures forall c: CapKind :: c in CapKinds
  {
    forall r: Rel ensures r in Rels {
      match r case Lt => case Le => case Gt => case Ge =>
    }
    forall m: Measure ensures m in Measures {
      match m case Length => case Capacity =>
    }
    forall c: CapKind ensures c in CapKinds {
      match c case Spare => case Full =>
    }
  }

  lemma InEdges(t: bool)
    ensures t in Edges
  {
    if t {}
  }

  lemma InWords(w: Word32)
    ensures w in Words()
  {
  }

  lemma InPairs(p: (Word32, Word32))
    ensures p in WordPairs()
  {
    InWords(p.0);
    InWords(p.1);
    assert p == (p.0, p.1);
  }

  lemma InKeyed<T(!new)>(tags: set<T>, p: (T, Word32))
    requires p.0 in tags
    ensures p in Keyed(tags)
  {
    InWords(p.1);
    assert p == (p.0, p.1);
  }

  // ----- one measure per policy: it never rises under a merge and drops when the merge moves the component -----

  ghost function HeapRoom(m: map<Word32, HeapState>): nat { |WordLevels() - Levels(HeapLevel, m)| }
  ghost function ProtocolRoom(m: map<Word32, ProtocolState>): nat { |WordLevels() - Levels(ProtocolLevel, m)| }
  ghost function SetsRoom(m: map<Word32, set<Word32>>): nat { |WordPairs() - Pairs(m)| }
  ghost function FieldRoom(m: map<(Word32, Word32), set<Word32>>): nat { |FieldPairs() - Pairs(m)| }
  ghost function Room(s: set<Word32>): nat { |Words() - s| }
  ghost function KeyRoom<T(!new)>(tags: set<T>, s: set<(T, Word32)>): nat { |Keyed(tags) - s| }
  ghost function CapRoom(s: set<(CapKind, bool, Word32)>): nat { |CapKeys() - s| }
  ghost function UpperRank(m: map<Word32, U64>): nat { |Above(m)| }
  ghost function LowerRank(m: map<Word32, U64>): nat { |Below(m)| }

  lemma HeapDrops(a: map<Word32, HeapState>, b: map<Word32, HeapState>)
    ensures HeapRoom(JoinMaps(HeapJoin, a, b)) <= HeapRoom(a) <= |WordLevels()|
    ensures !MapLeq(HeapJoin, b, a) ==> HeapRoom(JoinMaps(HeapJoin, a, b)) < HeapRoom(a)
  {
    SmallLattices();
    LevelsGrow(HeapJoin, HeapLevel, a, b);
    RoomShrinks(WordLevels(), Levels(HeapLevel, a), Levels(HeapLevel, JoinMaps(HeapJoin, a, b)));
    StrictSubset(WordLevels() - Levels(HeapLevel, a), WordLevels());
  }

  lemma ProtocolDrops(a: map<Word32, ProtocolState>, b: map<Word32, ProtocolState>)
    ensures ProtocolRoom(JoinMaps(ProtocolJoin, a, b)) <= ProtocolRoom(a) <= |WordLevels()|
    ensures !MapLeq(ProtocolJoin, b, a) ==> ProtocolRoom(JoinMaps(ProtocolJoin, a, b)) < ProtocolRoom(a)
  {
    SmallLattices();
    LevelsGrow(ProtocolJoin, ProtocolLevel, a, b);
    RoomShrinks(WordLevels(), Levels(ProtocolLevel, a), Levels(ProtocolLevel, JoinMaps(ProtocolJoin, a, b)));
    StrictSubset(WordLevels() - Levels(ProtocolLevel, a), WordLevels());
  }

  lemma SetsDrop(a: map<Word32, set<Word32>>, b: map<Word32, set<Word32>>)
    ensures SetsRoom(UnionSets(a, b)) <= SetsRoom(a) <= |WordPairs()|
    ensures !SetsLeq(b, a) ==> SetsRoom(UnionSets(a, b)) < SetsRoom(a)
  {
    var j := Pairs(UnionSets(a, b));
    PairsGrow(a, b);
    assert j <= WordPairs() by {
      forall p | p in j ensures p in WordPairs() { InPairs(p); }
    }
    RoomShrinks(WordPairs(), Pairs(a), j);
    StrictSubset(WordPairs() - Pairs(a), WordPairs());
  }

  lemma FieldsDrop(a: map<(Word32, Word32), set<Word32>>, b: map<(Word32, Word32), set<Word32>>)
    ensures FieldRoom(UnionSets(a, b)) <= FieldRoom(a) <= |FieldPairs()|
    ensures !SetsLeq(b, a) ==> FieldRoom(UnionSets(a, b)) < FieldRoom(a)
  {
    var j := Pairs(UnionSets(a, b));
    PairsGrow(a, b);
    assert j <= FieldPairs() by {
      forall p | p in j ensures p in FieldPairs() {
        InPairs(p.0);
        InWords(p.1);
        assert p == (p.0, p.1);
      }
    }
    RoomShrinks(FieldPairs(), Pairs(a), j);
    StrictSubset(FieldPairs() - Pairs(a), FieldPairs());
  }

  lemma RoomDrops(a: set<Word32>, b: set<Word32>)
    ensures Room(a + b) <= Room(a) <= |Words()|
    ensures !(b <= a) ==> Room(a + b) < Room(a)
  {
    RoomShrinks(Words(), a, a + b);
    StrictSubset(Words() - a, Words());
  }

  lemma KeysDrop<T(!new), V>(tags: set<T>, a: map<(T, Word32), V>, b: map<(T, Word32), V>)
    requires forall p <- a.Keys + b.Keys :: p.0 in tags
    ensures KeyRoom(tags, FirstWins(a, b).Keys) <= KeyRoom(tags, a.Keys) <= |Keyed(tags)|
    ensures !(b.Keys <= a.Keys) ==> KeyRoom(tags, FirstWins(a, b).Keys) < KeyRoom(tags, a.Keys)
  {
    var j := FirstWins(a, b).Keys;
    assert j == a.Keys + b.Keys;
    assert j <= Keyed(tags) by {
      forall p | p in j ensures p in Keyed(tags) { InKeyed(tags, p); }
    }
    RoomShrinks(Keyed(tags), a.Keys, j);
    StrictSubset(Keyed(tags) - a.Keys, Keyed(tags));
  }

  lemma CapKeysDrop(a: map<(CapKind, bool, Word32), Word32>, b: map<(CapKind, bool, Word32), Word32>)
    ensures CapRoom(FirstWins(a, b).Keys) <= CapRoom(a.Keys) <= |CapKeys()|
    ensures !(b.Keys <= a.Keys) ==> CapRoom(FirstWins(a, b).Keys) < CapRoom(a.Keys)
  {
    var j := FirstWins(a, b).Keys;
    assert j == a.Keys + b.Keys;
    assert j <= CapKeys() by {
      forall p | p in j ensures p in CapKeys() {
        AllTags();
        InEdges(p.1);
        InKeyed(Edges, (p.1, p.2));
        assert p.0 in CapKinds && p == (p.0, (p.1, p.2).0, (p.1, p.2).1);
      }
    }
    RoomShrinks(CapKeys(), a.Keys, j);
    StrictSubset(CapKeys() - a.Keys, CapKeys());
  }

  lemma UpperDrops(a: map<Word32, U64>, b: map<Word32, U64>)
    ensures UpperRank(JoinUpper(a, b)) <= UpperRank(a) <= |WordValues()|
    ensures !UpperLeq(b, a) ==> UpperRank(JoinUpper(a, b)) < UpperRank(a)
  {
    AboveShrinks(a, b);
    StrictSubset(Above(JoinUpper(a, b)), Above(a));
    StrictSubset(Above(a), WordValues());
  }

  lemma LowerDrops(a: map<Word32, U64>, b: map<Word32, U64>)
    ensures LowerRank(JoinLower(a, b)) <= LowerRank(a) <= |WordValues()|
    ensures !LowerLeq(b, a) ==> LowerRank(JoinLower(a, b)) < LowerRank(a)
  {
    BelowShrinks(a, b);
    StrictSubset(Below(JoinLower(a, b)), Below(a));
    StrictSubset(Below(a), WordValues());
  }

  // ----- the whole state -----

  ghost function OwnRank(s: Ownership): nat {
    HeapRoom(s.heap) + SetsRoom(s.pointsTo) + SetsRoom(s.localProto) + ProtocolRoom(s.typestate)
    + SetsRoom(s.ownerAlias) + FieldRoom(s.fieldOwned) + Room(s.reallocedParams)
  }

  ghost function RangeRank(s: Ranges): nat {
    UpperRank(s.upper) + LowerRank(s.lower) + |s.nonzero| + |s.pairs|
    + KeyRoom(Rels, s.constIf.Keys) + KeyRoom(Edges, s.nonzeroIf.Keys) + KeyRoom(Edges, s.pairIf.Keys)
    + Room(s.mulOverflow) + Room(s.layoutOverflow)
  }

  ghost function CapRank(s: Capacities): nat {
    Room(s.refBase.Keys) + KeyRoom(Measures, s.sizeOf.Keys) + CapRoom(s.capIf.Keys) + |s.capProof|
  }

  ghost function Headroom(s: BlockState): nat {
    OwnRank(s.own) + RangeRank(s.range) + CapRank(s.cap)
  }

  ghost function OwnHeight(): nat { 2 * |WordLevels()| + 3 * |WordPairs()| + |FieldPairs()| + |Words()| }
  ghost function RangeHeight(): nat {
    2 * |WordValues()| + 3 * |Words()| + |SignedPairs()| + |Keyed(Rels)| + 2 * |Keyed(Edges)|
  }
  ghost function CapHeight(): nat { |Words()| + |Keyed(Measures)| + |CapKeys()| + |Keyed(CapKinds)| }
  ghost function Height(): nat { OwnHeight() + RangeHeight() + CapHeight() }

  /** The rank is bounded, a merge never raises it, and a merge that reports a change lowers it. */
  lemma RankDrops(a: BlockState, b: BlockState)
    ensures Headroom(Join(a, b)) <= Headroom(a) <= Height()
    ensures !Leq(b, a) ==> Headroom(Join(a, b)) < Headroom(a)
  {
    OwnRankDrops(a.own, b.own);
    RangeRankDrops(a.range, b.range);
    CapRankDrops(a.cap, b.cap);
  }

  lemma OwnRankDrops(a: Ownership, b: Ownership)
    ensures OwnRank(JoinOwn(a, b)) <= OwnRank(a) <= OwnHeight()
    ensures !OwnLeq(b, a) ==> OwnRank(JoinOwn(a, b)) < OwnRank(a)
  {
    HeapDrops(a.heap, b.heap);
    SetsDrop(a.pointsTo, b.pointsTo);
    SetsDrop(a.localProto, b.localProto);
    ProtocolDrops(a.typestate, b.typestate);
    SetsDrop(a.ownerAlias, b.ownerAlias);
    FieldsDrop(a.fieldOwned, b.fieldOwned);
    RoomDrops(a.reallocedParams, b.reallocedParams);
  }

  lemma RangeRankDrops(a: Ranges, b: Ranges)
    ensures RangeRank(JoinRange(a, b)) <= RangeRank(a) <= RangeHeight()
    ensures !RangeLeq(b, a) ==> RangeRank(JoinRange(a, b)) < RangeRank(a)
  {
    UpperDrops(a.upper, b.upper);
    LowerDrops(a.lower, b.lower);
    NonzeroDrops(a.nonzero, b.nonzero);
    PairsDrop(a.pairs, b.pairs);
    PendingDrops(a, b);
    RoomDrops(a.mulOverflow, b.mulOverflow);
    RoomDrops(a.layoutOverflow, b.layoutOverflow);
  }

  lemma PendingDrops(a: Ranges, b: Ranges)
    ensures KeyRoom(Rels, FirstWins(a.constIf, b.constIf).Keys) <= KeyRoom(Rels, a.constIf.Keys) <= |Keyed(Rels)|
    ensures KeyRoom(Edges, FirstWins(a.nonzeroIf, b.nonzeroIf).Keys) <= KeyRoom(Edges, a.nonzeroIf.Keys) <= |Keyed(Edges)|
    ensures KeyRoom(Edges, FirstWins(a.pairIf, b.pairIf).Keys) <= KeyRoom(Edges, a.pairIf.Keys) <= |Keyed(Edges)|
    ensures !(b.constIf.Keys <= a.constIf.Keys) ==>
              KeyRoom(Rels, FirstWins(a.constIf, b.constIf).Keys) < KeyRoom(Rels, a.constIf.Keys)
    ensures !(b.nonzeroIf.Keys <= a.nonzeroIf.Keys) ==>
              KeyRoom(Edges, FirstWins(a.nonzeroIf, b.nonzeroIf).Keys) < KeyRoom(Edges, a.nonzeroIf.Keys)
    ensures !(b.pairIf.Keys <= a.pairIf.Keys) ==>
              KeyRoom(Edges, FirstWins(a.pairIf, b.pairIf).Keys) < KeyRoom(Edges, a.pairIf.Keys)
  {
    AllTags();
    KeysDrop(Rels, a.constIf, b.constIf);
    forall p: (bool, Word32) ensures p.0 in Edges { InEdges(p.0); }
    KeysDrop(Edges, a.nonzeroIf, b.nonzeroIf);
    KeysDrop(Edges, a.pairIf, b.pairIf);
  }

  lemma NonzeroDrops(a: set<Word32>, b: set<Word32>)
    ensures |a * b| <= |a| <= |Words()|
    ensures !(a <= b) ==> |a * b| < |a|
  {
    StrictSubset(a * b, a);
    StrictSubset(a, Words());
  }

  lemma PairsDrop(a: set<(bool, Word32, Word32)>, b: set<(bool, Word32, Word32)>)
    ensures |a * b| <= |a| <= |SignedPairs()|
    ensures !(a <= b) ==> |a * b| < |a|
  {
    forall p | p in a ensures p in SignedPairs() {
      InEdges(p.0);
      InPairs((p.1, p.2));
      assert p == (p.0, (p.1, p.2).0, (p.1, p.2).1);
    }
    StrictSubset(a * b, a);
    StrictSubset(a, SignedPairs());
  }

  lemma CapRankDrops(a: Capacities, b: Capacities)
    ensures CapRank(JoinCap(a, b)) <= CapRank(a) <= CapHeight()
    ensures !CapLeq(b, a) ==> CapRank(JoinCap(a, b)) < CapRank(a)
  {
    assert FirstWins(a.refBase, b.refBase).Keys == a.refBase.Keys + b.refBase.Keys;
    RoomDrops(a.refBase.Keys, b.refBase.Keys);
    AllTags();
    KeysDrop(Measures, a.sizeOf, b.sizeOf);
    CapKeysDrop(a.capIf, b.capIf);
    ProofsDrop(a.capProof, b.capProof);
  }

  lemma ProofsDrop(a: set<(CapKind, Word32)>, b: set<(CapKind, Word32)>)
    ensures |a * b| <= |a| <= |Keyed(CapKinds)|
    ensures !(a <= b) ==> |a * b| < |a|
  {
    forall p | p in a ensures p in Keyed(CapKinds) {
      AllTags();
      InKeyed(CapKinds, p);
    }
    StrictSubset(a * b, a);
    StrictSubset(a, Keyed(CapKinds));
  }
}
