/** `BlockState::join_with` as written: copy, then update field by field while a `changed` flag accumulates. */
module Merge {
  import opened Mir
  import opened Lattice
  import opened State

  /** The loop over `heap` and `typestate`: insert or join each incoming entry. */
  method MergeJoined<K(==), V(==, !new)>(j: (V, V) -> V, self: map<K, V>, other: map<K, V>)
    returns (result: map<K, V>, changed: bool)
    requires Semilattice(j)
    ensures result == JoinMaps(j, self, other)
    ensures changed <==> !MapLeq(j, other, self)
  {
    result, changed := self, false;
    var todo := other.Keys;
    while todo != {}
      invariant todo <= other.Keys
      invariant result.Keys == self.Keys + (other.Keys - todo)
      invariant forall k <- result.Keys ::
                  result[k] == if k in todo || k !in other then self[k] else JoinMaps(j, self, other)[k]
      invariant changed <==> exists k :: k in other.Keys - todo && !(k in self && j(self[k], other[k]) == self[k])
    {
      var k :| k in todo;
      assert forall x :: x in other.Keys - (todo - {k}) <==> x in other.Keys - todo || x == k;
      if k !in result {
        changed := true;
        result := result[k := other[k]];
      }
      var joined := j(result[k], other[k]);
      if joined != result[k] {
        changed := true;
        result := result[k := joined];
      }
      todo := todo - {k};
    }
  }

  /** Extend one entry; a longer set means a change. */
  method GrowEntry<E(==)>(entry: set<E>, more: set<E>) returns (grown: set<E>, changed: bool)
    ensures grown == entry + more
    ensures changed <==> !(more <= entry)
  {
    grown := entry + more;
    changed := |grown| != |entry|;
    StrictSubset(entry, grown);
    if more <= entry { assert grown == entry; }
  }

  lemma OneMore<K, V>(m: map<K, V>, todo: set<K>, k: K)
    requires k in todo && todo <= m.Keys
    ensures m - (todo - {k}) == (m - todo)[k := m[k]]
  {
  }

  /** The loop over `points_to`, `local_proto`, `owner_alias` and `field_owned`: grow each entry in place. */
  method MergeSets<K(==), E(==)>(self: map<K, set<E>>, other: map<K, set<E>>)
    returns (result: map<K, set<E>>, changed: bool)
    ensures result == UnionSets(self, other)
    ensures changed <==> !SetsLeq(other, self)
  {
    result, changed := self, false;
    var todo := other.Keys;
    assert other - todo == map[];
    UnionSetsStill(self, other - todo);
    while todo != {}
      invariant todo <= other.Keys
      invariant result == UnionSets(self, other - todo)
      invariant changed <==> !SetsLeq(other - todo, self)
    {
      var k :| k in todo;
      UnionSetsStep(self, other - todo, k, other[k]);
      OneMore(other, todo, k);
      var grown, moved := GrowEntry(Get(result, k), other[k]);
      result := result[k := grown];
      changed := changed || moved;
      todo := todo - {k};
    }
    assert other - todo == other;
  }

  lemma UnionSetsStep<K, E>(self: map<K, set<E>>, seen: map<K, set<E>>, k: K, v: set<E>)
    requires k !in seen
    ensures Get(UnionSets(self, seen), k) == Get(self, k)
    ensures UnionSets(self, seen[k := v]) == UnionSets(self, seen)[k := Get(self, k) + v]
    ensures SetsLeq(seen[k := v], self) <==> SetsLeq(seen, self) && v <= Get(self, k)
  {
    var next := seen[k := v];
    assert forall x <- seen.Keys :: next[x] == seen[x];
    assert next.Keys == seen.Keys + {k};
  }

  /** The `entry().or_insert_with` loop of the comparison-fact maps. */
  method MergeFirstWins<K(==), V>(self: map<K, V>, other: map<K, V>) returns (result: map<K, V>, changed: bool)
    ensures result == FirstWins(self, other)
    ensures changed <==> !(other.Keys <= self.Keys)
  {
    result, changed := self, false;
    var todo := other.Keys;
    while todo != {}
      invariant todo <= other.Keys
      invariant result.Keys == self.Keys + (other.Keys - todo)
      invariant forall k <- result.Keys :: result[k] == if k in self then self[k] else other[k]
      invariant changed <==> !(other.Keys - todo <= self.Keys)
    {
      var k :| k in todo;
      if k !in result {
        changed := true;
        result := result[k := other[k]];
      }
      todo := todo - {k};
    }
  }

  /** The filter over an agreement map, and the comparison with what it was. */
  method MergeAgreed<K(==), V(==)>(self: map<K, V>, other: map<K, V>) returns (result: map<K, V>, changed: bool)
    ensures result == JoinAgree(self, other)
    ensures changed <==> !AgreeLeq(other, self)
  {
    result := map[];
    var todo := self.Keys;
    while todo != {}
      invariant todo <= self.Keys
      invariant forall k :: k in result <==> k in self && k !in todo && k in other && other[k] == self[k]
      invariant forall k <- result.Keys :: result[k] == self[k]
    {
      var k :| k in todo;
      if k in other && other[k] == self[k] {
        result := result[k := self[k]];
      }
      todo := todo - {k};
    }
    AgreeLaws(self, other, self);
    changed := result != self;
  }

  /** The same for sets that are intersected. */
  method MergeIntersected<K(==), E(==)>(self: map<K, set<E>>, other: map<K, set<E>>) returns (result: map<K, set<E>>, changed: bool)
    ensures result == IntersectSets(self, other)
    ensures changed <==> !MustLeq(other, self)
  {
    result := map[];
    var todo := self.Keys;
    while todo != {}
      invariant todo <= self.Keys
      invariant forall k :: k in result <==> k in self && k !in todo && k in other
      invariant forall k <- result.Keys :: result[k] == self[k] * other[k]
    {
      var k :| k in todo;
      if k in other {
        result := result[k := self[k] * other[k]];
      }
      todo := todo - {k};
    }
    IntersectLaws(self, other, self);
    changed := result != self;
  }

  /** The `if set.insert(x) { changed = true }` loop of the may-sets. */
  method MergeUnion<E(==)>(self: set<E>, other: set<E>) returns (result: set<E>, changed: bool)
    ensures result == self + other
    ensures changed <==> !(other <= self)
  {
    result, changed := self, false;
    var todo := other;
    while todo != {}
      invariant todo <= other
      invariant result == self + (other - todo)
      invariant changed <==> !(other - todo <= self)
    {
      var x :| x in todo;
      if x !in result {
        changed := true;
        result := result + {x};
      }
      todo := todo - {x};
    }
  }

  method MergeOwn(self: Ownership, other: Ownership) returns (result: Ownership, changed: bool)
    ensures result == JoinOwn(self, other)
    ensures changed <==> !OwnLeq(other, self)
  {
    SmallLattices();
    var heap, c0 := MergeJoined(HeapJoin, self.heap, other.heap);
    var pointsTo, c1 := MergeSets(self.pointsTo, other.pointsTo);
    var localProto, c2 := MergeSets(self.localProto, other.localProto);
    var typestate, c3 := MergeJoined(ProtocolJoin, self.typestate, other.typestate);
    var ownerAlias, c4 := MergeSets(self.ownerAlias, other.ownerAlias);
    var reallocedParams, c5 := MergeUnion(self.reallocedParams, other.reallocedParams);
    var fieldOwned, c6 := MergeSets(self.fieldOwned, other.fieldOwned);
    result := Ownership(heap, pointsTo, localProto, typestate, ownerAlias, fieldOwned, reallocedParams);
    changed := c0 || c1 || c2 || c3 || c4 || c5 || c6;
  }

  /** Keep what both sides have. */
  method MergeIntersection<E(==)>(self: set<E>, other: set<E>) returns (result: set<E>, changed: bool)
    ensures result == self * other
    ensures changed <==> !(self <= other)
  {
    result := set x | x in self && x in other;
    changed := result != self;
    assert result == self * other;
  }

  /** `const_upper` and `const_lower`: keep the common keys with the weaker value. */
  method MergeBounds(self: Ranges, other: Ranges)
    returns (upper: map<Local, U64>, lower: map<Local, U64>, changed: bool)
    ensures upper == JoinUpper(self.upper, other.upper) && lower == JoinLower(self.lower, other.lower)
    ensures changed <==> !(UpperLeq(other.upper, self.upper) && LowerLeq(other.lower, self.lower))
  {
    upper := map l | l in self.upper && l in other.upper ::
      if self.upper[l] <= other.upper[l] then other.upper[l] else self.upper[l];
    lower := map l | l in self.lower && l in other.lower ::
      if self.lower[l] <= other.lower[l] then self.lower[l] else other.lower[l];
    changed := upper != self.upper || lower != self.lower;
  }

  method MergeRange(self: Ranges, other: Ranges) returns (result: Ranges, changed: bool)
    ensures result == JoinRange(self, other)
    ensures changed <==> !RangeLeq(other, self)
  {
    var nonzero, c6 := MergeIntersection(self.nonzero, other.nonzero);
    var nonzeroIf, c0 := MergeFirstWins(self.nonzeroIf, other.nonzeroIf);
    var constIf, c1 := MergeFirstWins(self.constIf, other.constIf);
    var upper, lower, c5 := MergeBounds(self, other);
    var pairs, c7 := MergeIntersection(self.pairs, other.pairs);
    var pairIf, c2 := MergeFirstWins(self.pairIf, other.pairIf);
    var mulOverflow, c3 := MergeUnion(self.mulOverflow, other.mulOverflow);
    var layoutOverflow, c4 := MergeUnion(self.layoutOverflow, other.layoutOverflow);
    result := Ranges(upper, lower, nonzero, pairs, constIf, nonzeroIf, pairIf, mulOverflow, layoutOverflow);
    changed := c0 || c1 || c2 || c3 || c4 || c5 || c6 || c7;
  }

  method MergeCap(self: Capacities, other: Capacities) returns (result: Capacities, changed: bool)
    ensures result == JoinCap(self, other)
    ensures changed <==> !CapLeq(other, self)
  {
    var refBase, c0 := MergeFirstWins(self.refBase, other.refBase);
    var sizeOf, c1 := MergeFirstWins(self.sizeOf, other.sizeOf);
    var capIf, c2 := MergeFirstWins(self.capIf, other.capIf);
    var capProof, c3 := MergeIntersection(self.capProof, other.capProof);
    result := Capacities(refBase, sizeOf, capIf, capProof);
    changed := c0 || c1 || c2 || c3;
  }

  /** `join_with`: the least upper bound, and whether it moved. */
  method JoinWith(self: BlockState, other: BlockState) returns (result: BlockState, changed: bool)
    ensures result == Join(self, other)
    ensures changed <==> !Leq(other, self)
  {
    var own, c0 := MergeOwn(self.own, other.own);
    var range, c1 := MergeRange(self.range, other.range);
    var cap, c2 := MergeCap(self.cap, other.cap);
    result, changed := BlockState(own, range, cap), c0 || c1 || c2;
  }
}
