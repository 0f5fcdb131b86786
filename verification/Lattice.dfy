/**
The merge policies `BlockState::join_with` applies to its fields, one function per policy, each with the
order it is a least upper bound for and a finite set of atoms that only moves one way under merging.
*/
module Lattice {
  import opened Mir

  // ----- union of set-valued maps (points_to, local_proto, owner_alias, field_owned) -----

  function Get<K, E>(m: map<K, set<E>>, k: K): set<E> {
    if k in m then m[k] else {}
  }

  function UnionSets<K, E>(a: map<K, set<E>>, b: map<K, set<E>>): map<K, set<E>> {
    map k | k in a.Keys + b.Keys :: Get(a, k) + Get(b, k)
  }

  ghost predicate SetsLeq<K, E>(a: map<K, set<E>>, b: map<K, set<E>>) {
    forall k <- a.Keys :: a[k] <= Get(b, k)
  }

  ghost predicate NoEmptySet<K, E>(m: map<K, set<E>>) {
    forall k <- m.Keys :: m[k] != {}
  }

  ghost function Pairs<K, E>(m: map<K, set<E>>): set<(K, E)> {
    set k, e | k in m && e in m[k] :: (k, e)
  }

  lemma PairsGrow<K, E>(a: map<K, set<E>>, b: map<K, set<E>>)
    ensures Pairs(a) <= Pairs(UnionSets(a, b))
    ensures !SetsLeq(b, a) ==> Pairs(a) != Pairs(UnionSets(a, b))
  {
    var j := UnionSets(a, b);
    forall p | p in Pairs(a) ensures p in Pairs(j) {
      assert p.0 in j && p.1 in j[p.0];
    }
    if !SetsLeq(b, a) {
      var k :| k in b && !(b[k] <= Get(a, k));
      var e :| e in b[k] && e !in Get(a, k);
      assert k in j && e in j[k];
      assert (k, e) in Pairs(j) && (k, e) !in Pairs(a);
    }
  }

  // ----- pointwise join of maps into a small semilattice, absence as bottom (heap, typestate) -----

  ghost predicate Semilattice<V(!new)>(j: (V, V) -> V) {
    && (forall x :: j(x, x) == x)
    && (forall x, y :: j(x, y) == j(y, x))
    && (forall x, y, z :: j(j(x, y), z) == j(x, j(y, z)))
  }

  function JoinMaps<K, V>(j: (V, V) -> V, a: map<K, V>, b: map<K, V>): map<K, V> {
    map k | k in a.Keys + b.Keys ::
      if k in a && k in b then j(a[k], b[k]) else if k in a then a[k] else b[k]
  }

  ghost predicate MapLeq<K, V(!new)>(j: (V, V) -> V, a: map<K, V>, b: map<K, V>) {
    forall k <- a.Keys :: k in b && j(b[k], a[k]) == b[k]
  }

  lemma MapLeqTrans<K, V(!new)>(j: (V, V) -> V, a: map<K, V>, b: map<K, V>, c: map<K, V>)
    requires Semilattice(j) && MapLeq(j, a, b) && MapLeq(j, b, c)
    ensures MapLeq(j, a, c)
  {
    forall k <- a.Keys ensures k in c && j(c[k], a[k]) == c[k] {
      assert k in b && k in c;
      assert j(j(c[k], b[k]), a[k]) == j(c[k], j(b[k], a[k]));
    }
  }

  lemma JoinMapsUpper<K, V(!new)>(j: (V, V) -> V, a: map<K, V>, b: map<K, V>)
    requires Semilattice(j)
    ensures MapLeq(j, a, JoinMaps(j, a, b))
    ensures MapLeq(j, b, JoinMaps(j, a, b))
  {
    var m := JoinMaps(j, a, b);
    forall k | k in a.Keys + b.Keys
      ensures (k in a ==> j(m[k], a[k]) == m[k]) && (k in b ==> j(m[k], b[k]) == m[k])
    {
      if k in a && k in b {
        assert j(j(a[k], b[k]), b[k]) == j(a[k], j(b[k], b[k]));
        assert j(j(b[k], a[k]), a[k]) == j(b[k], j(a[k], a[k]));
        assert j(a[k], b[k]) == j(b[k], a[k]);
      }
    }
  }

  lemma JoinMapsLeast<K, V(!new)>(j: (V, V) -> V, a: map<K, V>, b: map<K, V>, c: map<K, V>)
    requires Semilattice(j) && MapLeq(j, a, c) && MapLeq(j, b, c)
    ensures MapLeq(j, JoinMaps(j, a, b), c)
  {
    var m := JoinMaps(j, a, b);
    forall k <- m.Keys ensures k in c && j(c[k], m[k]) == c[k] {
      if k in a && k in b {
        assert j(j(c[k], a[k]), b[k]) == j(c[k], j(a[k], b[k]));
      }
    }
  }

  ghost function Levels<K, V>(h: V -> nat, m: map<K, V>): set<(K, nat)> {
    set k, i: nat | k in m && 0 <= i < 4 && i <= h(m[k]) :: (k, i)
  }

  /** `h` climbs whenever `j` moves its first argument. */
  ghost predicate Climbs<V(!new)>(j: (V, V) -> V, h: V -> nat) {
    && (forall x :: h(x) < 4)
    && (forall x, y :: h(x) <= h(j(x, y)))
    && (forall x, y :: j(x, y) != x ==> h(x) < h(j(x, y)))
  }

  lemma LevelsGrow<K, V(!new)>(j: (V, V) -> V, h: V -> nat, a: map<K, V>, b: map<K, V>)
    requires Climbs(j, h)
    ensures Levels(h, a) <= Levels(h, JoinMaps(j, a, b))
    ensures !MapLeq(j, b, a) ==> Levels(h, a) != Levels(h, JoinMaps(j, a, b))
  {
    var m := JoinMaps(j, a, b);
    forall p | p in Levels(h, a) ensures p in Levels(h, m) {
      assert p.0 in m && h(a[p.0]) <= h(m[p.0]);
    }
    if !MapLeq(j, b, a) {
      var k :| k in b && !(k in a && j(a[k], b[k]) == a[k]);
      var top: nat := h(m[k]);
      assert (k, top) in Levels(h, m) && (k, top) !in Levels(h, a);
    }
  }

  // ----- first-wins maps (comparison facts, ref_base, len_of, ...) -----

  function FirstWins<K, V>(a: map<K, V>, b: map<K, V>): map<K, V> {
    b + a
  }

  // ----- interval bounds: keys intersect, the weaker value wins -----

  function JoinUpper<K>(a: map<K, U64>, b: map<K, U64>): map<K, U64> {
    map k | k in a && k in b :: if a[k] <= b[k] then b[k] else a[k]
  }

  ghost predicate UpperLeq<K>(a: map<K, U64>, b: map<K, U64>) {
    forall k <- b.Keys :: k in a && a[k] <= b[k]
  }

  function JoinLower<K>(a: map<K, U64>, b: map<K, U64>): map<K, U64> {
    map k | k in a && k in b :: if a[k] <= b[k] then a[k] else b[k]
  }

  ghost predicate LowerLeq<K>(a: map<K, U64>, b: map<K, U64>) {
    forall k <- b.Keys :: k in a && b[k] <= a[k]
  }

  /** The values a bound still rules out: every merge that moves it loses some. */
  ghost function Above<K>(m: map<K, U64>): set<(K, nat)> {
    set k, i: nat | k in m && m[k] <= i <= U64_MAX :: (k, i)
  }

  ghost function Below<K>(m: map<K, U64>): set<(K, nat)> {
    set k, i: nat | k in m && 0 <= i <= m[k] :: (k, i)
  }

  lemma AboveShrinks<K>(a: map<K, U64>, b: map<K, U64>)
    ensures Above(JoinUpper(a, b)) <= Above(a)
    ensures !UpperLeq(b, a) ==> Above(JoinUpper(a, b)) != Above(a)
  {
    if !UpperLeq(b, a) {
      var k :| k in a && !(k in b && b[k] <= a[k]);
      assert (k, a[k]) in Above(a) && (k, a[k]) !in Above(JoinUpper(a, b));
    }
  }

  lemma BelowShrinks<K>(a: map<K, U64>, b: map<K, U64>)
    ensures Below(JoinLower(a, b)) <= Below(a)
    ensures !LowerLeq(b, a) ==> Below(JoinLower(a, b)) != Below(a)
  {
    if !LowerLeq(b, a) {
      var k :| k in a && !(k in b && a[k] <= b[k]);
      assert (k, a[k]) in Below(a) && (k, a[k]) !in Below(JoinLower(a, b));
    }
  }

  // ----- counting -----

  lemma StrictSubset<T>(a: set<T>, b: set<T>)
    requires a <= b
    ensures |a| <= |b|
    ensures a != b ==> |a| < |b|
  {
    assert b == a + (b - a);
    if a != b { assert b - a != {}; }
  }

  /** Room left for a set that may only grow inside `u`. */
  lemma RoomShrinks<T>(u: set<T>, a: set<T>, b: set<T>)
    requires a <= b <= u
    ensures |u - b| <= |u - a|
    ensures a != b ==> |u - b| < |u - a|
  {
    StrictSubset(u - b, u - a);
    if a != b {
      var x :| x in b && x !in a;
      assert x in u - a && x !in u - b;
    }
  }

  // ----- agreement maps: a key stays only if both sides have the same value (fn_ptr_targets, mu_raw_ptr, active_variant) -----

  function JoinAgree<K, V(==)>(a: map<K, V>, b: map<K, V>): map<K, V> {
    map k | k in a && k in b && a[k] == b[k] :: a[k]
  }

  ghost predicate AgreeLeq<K, V>(a: map<K, V>, b: map<K, V>) {
    forall k <- b.Keys :: k in a && a[k] == b[k]
  }

  /** The least upper bound; a merge that moves its first argument loses a key. */
  lemma AgreeLaws<K, V>(a: map<K, V>, b: map<K, V>, c: map<K, V>)
    ensures AgreeLeq(a, JoinAgree(a, b)) && AgreeLeq(b, JoinAgree(a, b))
    ensures AgreeLeq(a, c) && AgreeLeq(b, c) ==> AgreeLeq(JoinAgree(a, b), c)
    ensures JoinAgree(a, b) == a <==> AgreeLeq(b, a)
    ensures JoinAgree(a, b).Keys <= a.Keys && (!AgreeLeq(b, a) ==> |JoinAgree(a, b)| < |a|)
  {
    var j := JoinAgree(a, b);
    assert j.Keys <= a.Keys;
    if !AgreeLeq(b, a) {
      var k :| k in a && !(k in b && b[k] == a[k]);
      assert k !in j && j.Keys <= a.Keys - {k};
      SmallerSet(j.Keys, a.Keys - {k});
      assert |j| == |j.Keys| && |a| == |a.Keys|;
    } else {
      assert j == a;
    }
  }

  lemma SmallerSet<T>(x: set<T>, y: set<T>)
    requires x <= y
    ensures |x| <= |y|
  {
    if x != {} {
      var e :| e in x;
      SmallerSet(x - {e}, y - {e});
    }
  }

  // ----- intersection of set-valued maps (mu_field_inits) -----

  function IntersectSets<K, E>(a: map<K, set<E>>, b: map<K, set<E>>): map<K, set<E>> {
    map k | k in a && k in b :: a[k] * b[k]
  }

  ghost predicate MustLeq<K, E>(a: map<K, set<E>>, b: map<K, set<E>>) {
    forall k <- b.Keys :: k in a && b[k] <= a[k]
  }

  lemma IntersectLaws<K, E>(a: map<K, set<E>>, b: map<K, set<E>>, c: map<K, set<E>>)
    ensures MustLeq(a, IntersectSets(a, b)) && MustLeq(b, IntersectSets(a, b))
    ensures MustLeq(a, c) && MustLeq(b, c) ==> MustLeq(IntersectSets(a, b), c)
    ensures IntersectSets(a, b) == a <==> MustLeq(b, a)
  {
    var j := IntersectSets(a, b);
    if MustLeq(b, a) {
      forall k <- a.Keys ensures k in j && j[k] == a[k] { }
      assert j.Keys == a.Keys;
    }
  }
}
