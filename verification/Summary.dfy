/** Function summaries: the seeded state they are computed from, their extraction, and exactly what they record. */
module Summary {
  import opened Mir
  import opened Lattice
  import opened State
  import opened Engine
  import opened O = OwnTransfer
  import opened I = OwnInvariant
  import T = Transfer
  import V = OwnVerdicts

  /** The virtual object of parameter `i`, above every site and stale-buffer object. */
  function ParamId(i: nat): ObjectId { (SUMMARY_BASE + i) % 0x1_0000_0000 }

  /** Parameters are numbered below 2^31, so their objects do not wrap around. */
  predicate FewParams(body: Body) { body.argCount < 0x8000_0000 }

  predicate IsPointerParam(body: Body, i: nat) {
    i < body.argCount && i + 1 < 0x1_0000_0000 && TyOf(body, i + 1).RawPtr?
  }

  // ----- seed -----

  function SeedFrom(body: Body, s: Ownership, i: nat): Ownership
    decreases body.argCount - i
  {
    if i >= body.argCount then s
    else SeedFrom(body,
      if IsPointerParam(body, i)
      then s.(pointsTo := s.pointsTo[i + 1 := {ParamId(i)}], heap := s.heap[ParamId(i) := RawOwned]) else s,
      i + 1)
  }

  /** `summary_initial_state`. */
  function Seed(body: Body): BlockState {
    EmptyState.(own := SeedFrom(body, EmptyState.own, 0))
  }

  ghost predicate SeededBelow(body: Body, s: Ownership, n: nat) {
    && s == EmptyState.own.(heap := s.heap, pointsTo := s.pointsTo)
    && (forall l: Local :: l in s.pointsTo <==> 1 <= l <= n && IsPointerParam(body, l - 1))
    && (forall l <- s.pointsTo.Keys :: s.pointsTo[l] == {ParamId(l - 1)})
    && (forall id: ObjectId :: id in s.heap <==> SUMMARY_BASE <= id < SUMMARY_BASE + n && IsPointerParam(body, id - SUMMARY_BASE))
    && (forall id <- s.heap.Keys :: s.heap[id] == RawOwned)
  }

  lemma {:induction false} SeedFromExact(body: Body, s: Ownership, i: nat)
    requires FewParams(body) && i <= body.argCount && SeededBelow(body, s, i)
    ensures SeededBelow(body, SeedFrom(body, s, i), body.argCount)
    decreases body.argCount - i
  {
    if i < body.argCount {
      var s' := if IsPointerParam(body, i)
        then s.(pointsTo := s.pointsTo[i + 1 := {ParamId(i)}], heap := s.heap[ParamId(i) := RawOwned]) else s;
      assert ParamId(i) == SUMMARY_BASE + i;
      assert SeededBelow(body, s', i + 1);
      SeedFromExact(body, s', i + 1);
    }
  }

  lemma SeededSane(body: Body, s: Ownership, n: nat)
    requires FewParams(body) && n <= body.argCount && SeededBelow(body, s, n)
    ensures Sane(s)
  {
    assert NoEmptySet(s.pointsTo);
    forall l <- s.pointsTo.Keys ensures s.pointsTo[l] <= s.heap.Keys {
      assert ParamId(l - 1) == SUMMARY_BASE + (l - 1);
    }
  }

  /** The seed tracks exactly the raw-pointer parameters, each pointing to an owned object of its own. */
  lemma SeedExact(body: Body)
    requires FewParams(body)
    ensures SeededBelow(body, Seed(body).own, body.argCount) && Sane(Seed(body).own)
  {
    var seed := SeedFrom(body, EmptyState.own, 0);
    SeedFromExact(body, EmptyState.own, 0);
    SeededSane(body, seed, body.argCount);
    assert Seed(body).own == seed;
  }

  // ----- extraction -----

  /** The states before the reached `Return`s among the first `n` blocks, in block order. */
  function ReturnStates(body: Body, es: Entries<BlockState>, n: nat): seq<BlockState>
    requires n <= |body.blocks| == |es|
  {
    if n == 0 then []
    else
      var ss := ReturnStates(body, es, n - 1);
      if body.blocks[n - 1].term.Return? && es[n - 1].Some?
      then ss + [T.Replay(body, es[n - 1].value, body.blocks[n - 1].stmts)] else ss
  }

  /** The merge of a nonempty list of states, from left to right. */
  function MergeAll(ss: seq<BlockState>): BlockState
    requires ss != []
  {
    if |ss| == 1 then ss[0] else Join(MergeAll(ss[..|ss| - 1]), ss[|ss| - 1])
  }

  function EffectOf(heap: map<ObjectId, HeapState>, id: ObjectId): Option<Effect> {
    if id !in heap || heap[id] == RawOwned then None
    else if heap[id] == Reconstituted then Some(Reconstitutes)
    else Some(Escapes)
  }

  /** The effects on the first `n` parameters, in parameter order. */
  function EffectsBelow(heap: map<ObjectId, HeapState>, n: nat): seq<(nat, Effect)> {
    if n == 0 then []
    else
      var e := EffectOf(heap, ParamId(n - 1));
      if e.Some? then EffectsBelow(heap, n - 1) + [(n - 1, e.value)] else EffectsBelow(heap, n - 1)
  }

  /** The smallest `j` in `k..n` with `base + j` in the set: the first hit of an ascending scan. */
  function FirstFrom(s: set<Word32>, base: nat, k: nat, n: nat): (r: Option<nat>)
    ensures r.Some? ==> k <= r.value < n && base + r.value in s && forall x <- s :: !(base + k <= x < base + r.value)
    ensures r.None? ==> forall x <- s :: !(base + k <= x < base + n)
    decreases n - k
  {
    if k >= n then None
    else if base + k in s then Some(k)
    else FirstFrom(s, base, k + 1, n)
  }

  function Min(a: nat, b: nat): nat { if a <= b then a else b }

  const NOTHING := FnSummary([], false, None, None, None)

  predicate ReturnsOwned(s: Ownership, id: ObjectId) {
    id in Get(s.pointsTo, 0) && id < SUMMARY_BASE && id in s.heap && s.heap[id] == RawOwned
  }

  /** The summary read off the merged return state; ids below the parameter range come first in the pointer scan. */
  function FromReturn(body: Body, s: Ownership): FnSummary {
    var objs := Get(s.pointsTo, 0);
    var legacy := FirstFrom(objs, 1, 0, Min(body.argCount, SUMMARY_BASE - 1));
    FnSummary(
      EffectsBelow(s.heap, body.argCount),
      exists id :: id in objs && ReturnsOwned(s, id),
      FirstFrom(Get(s.ownerAlias, 0), 1, 0, body.argCount),
      if legacy.Some? then legacy else FirstFrom(objs, SUMMARY_BASE, 0, body.argCount),
      FirstFrom(s.reallocedParams, 1, 0, body.argCount))
  }

  /** `extract_summary`. */
  function Extract(body: Body, es: Entries<BlockState>): FnSummary
    requires |es| == |body.blocks|
  {
    var ss := ReturnStates(body, es, |body.blocks|);
    if ss == [] then NOTHING else FromReturn(body, MergeAll(ss).own)
  }

  /** The summary of a body whose calls are resolved by `sums`. */
  ghost function SummaryOfBody(body: Body, sums: SummaryMap): FnSummary
    requires WellFormed(body)
  {
    Extract(body, T.FlowFrom(body, sums, Seed(body)))
  }

  // ----- exactness -----

  /** Wherever `id` has a state among these, that state is `h`. */
  ghost predicate Uniform(ss: seq<BlockState>, id: ObjectId, h: HeapState) {
    forall i :: 0 <= i < |ss| && id in ss[i].own.heap ==> ss[i].own.heap[id] == h
  }

  ghost predicate Somewhere(ss: seq<BlockState>, id: ObjectId) {
    exists i :: 0 <= i < |ss| && id in ss[i].own.heap
  }

  lemma {:induction false} MergedHeap(ss: seq<BlockState>, id: ObjectId)
    requires ss != []
    ensures var heap := MergeAll(ss).own.heap;
            && (id in heap <==> Somewhere(ss, id))
            && (id in heap ==> (heap[id] == RawOwned <==> Uniform(ss, id, RawOwned)))
            && (id in heap ==> (heap[id] == Reconstituted <==> Uniform(ss, id, Reconstituted)))
  {
    var n := |ss| - 1;
    if n > 0 {
      var ss', last := ss[..n], ss[n].own.heap;
      MergedHeap(ss', id);
      assert forall i :: 0 <= i < n ==> ss[i] == ss'[i];
      assert Somewhere(ss, id) <==> Somewhere(ss', id) || id in last;
      UniformLast(ss, id, RawOwned);
      UniformLast(ss, id, Reconstituted);
      assert !Somewhere(ss', id) ==> Uniform(ss', id, RawOwned) && Uniform(ss', id, Reconstituted);
    }
  }

  lemma UniformLast(ss: seq<BlockState>, id: ObjectId, h: HeapState)
    requires ss != []
    ensures var n := |ss| - 1;
            Uniform(ss, id, h) <==> Uniform(ss[..n], id, h) && (id in ss[n].own.heap ==> ss[n].own.heap[id] == h)
  {
    var n := |ss| - 1;
    assert forall i :: 0 <= i < n ==> ss[i] == ss[..n][i];
    if Uniform(ss[..n], id, h) && (id in ss[n].own.heap ==> ss[n].own.heap[id] == h) {
      forall i | 0 <= i < |ss| && id in ss[i].own.heap ensures ss[i].own.heap[id] == h {
        if i < n { assert ss[..n][i] == ss[i]; }
      }
    }
  }

  lemma {:induction false} EffectListed(heap: map<ObjectId, HeapState>, n: nat, k: nat, e: Effect)
    ensures (k, e) in EffectsBelow(heap, n) <==> k < n && EffectOf(heap, ParamId(k)) == Some(e)
  {
    if n > 0 {
      EffectListed(heap, n - 1, k, e);
    }
  }

  /** Whatever the order of the `Return`s, and however often one is merged, the recorded effects are the same. */
  lemma {:induction false} MergeOrderFree(ss: seq<BlockState>, ts: seq<BlockState>, n: nat)
    requires ss != [] && ts != [] && (forall s :: s in ss <==> s in ts)
    ensures EffectsBelow(MergeAll(ss).own.heap, n) == EffectsBelow(MergeAll(ts).own.heap, n)
  {
    if n > 0 {
      MergeOrderFree(ss, ts, n - 1);
      SameEffect(ss, ts, ParamId(n - 1));
    }
  }

  lemma SameEffect(ss: seq<BlockState>, ts: seq<BlockState>, id: ObjectId)
    requires ss != [] && ts != [] && (forall s :: s in ss <==> s in ts)
    ensures EffectOf(MergeAll(ss).own.heap, id) == EffectOf(MergeAll(ts).own.heap, id)
  {
    MergedHeap(ss, id);
    MergedHeap(ts, id);
    Contained(ss, ts, id);
    Contained(ts, ss, id);
  }

  lemma Contained(ss: seq<BlockState>, ts: seq<BlockState>, id: ObjectId)
    requires forall s :: s in ss ==> s in ts
    ensures Somewhere(ss, id) ==> Somewhere(ts, id)
    ensures forall h :: Uniform(ts, id, h) ==> Uniform(ss, id, h)
  {
    forall i | 0 <= i < |ss| && id in ss[i].own.heap
      ensures Somewhere(ts, id) && forall h :: Uniform(ts, id, h) ==> ss[i].own.heap[id] == h
    {
      assert ss[i] in ss;
      var j :| 0 <= j < |ts| && ts[j] == ss[i];
    }
  }

  // ----- what a summary says about the returns of its body -----

  ghost predicate ReturnsAt(body: Body, es: Entries<BlockState>, b: Block) {
    b < |es| == |body.blocks| && body.blocks[b].term.Return? && es[b].Some?
  }

  /** The ownership state before the `Return` of block `b`. */
  ghost function OwnBefore(body: Body, es: Entries<BlockState>, b: Block): Ownership
    requires ReturnsAt(body, es, b)
  {
    O.Replay(body, es[b].value.own, body.blocks[b].stmts)
  }

  ghost function HeapBefore(body: Body, es: Entries<BlockState>, b: Block): map<ObjectId, HeapState>
    requires ReturnsAt(body, es, b)
  {
    OwnBefore(body, es, b).heap
  }

  /** Before every reached `Return`, the object is in state `h`. */
  ghost predicate AtReturns(body: Body, es: Entries<BlockState>, id: ObjectId, h: HeapState) {
    forall b: Block :: ReturnsAt(body, es, b) ==> id in HeapBefore(body, es, b) && HeapBefore(body, es, b)[id] == h
  }

  ghost predicate Returns(body: Body, es: Entries<BlockState>) {
    exists b: Block :: ReturnsAt(body, es, b)
  }

  lemma {:induction false} ReturnStateOf(body: Body, es: Entries<BlockState>, n: nat, b: Block)
    requires n <= |body.blocks| == |es| && ReturnsAt(body, es, b) && b < n
    ensures exists i :: 0 <= i < |ReturnStates(body, es, n)| && ReturnStates(body, es, n)[i].own == OwnBefore(body, es, b)
  {
    var ss := ReturnStates(body, es, n);
    if b == n - 1 {
      assert ss[|ss| - 1].own == OwnBefore(body, es, b);
    } else {
      ReturnStateOf(body, es, n - 1, b);
      var i :| 0 <= i < |ReturnStates(body, es, n - 1)| && ReturnStates(body, es, n - 1)[i].own == OwnBefore(body, es, b);
      assert ss[i].own == OwnBefore(body, es, b);
    }
  }

  lemma {:induction false} ReturnStateFrom(body: Body, es: Entries<BlockState>, n: nat, i: nat)
    requires n <= |body.blocks| == |es| && i < |ReturnStates(body, es, n)|
    ensures exists b: Block :: ReturnsAt(body, es, b) && ReturnStates(body, es, n)[i].own == OwnBefore(body, es, b)
  {
    if i < |ReturnStates(body, es, n - 1)| {
      ReturnStateFrom(body, es, n - 1, i);
    } else {
      assert ReturnsAt(body, es, n - 1);
      assert ReturnStates(body, es, n)[i].own == OwnBefore(body, es, n - 1);
    }
  }

  ghost function PresentInv(id: ObjectId, present: bool): BlockState -> bool {
    (s: BlockState) => Sane(s.own) && (id in s.own.heap <==> present)
  }

  lemma PresentPreserved(body: Body, sums: SummaryMap, k: nat)
    requires WellFormed(body) && Small(body) && FewParams(body) && k < body.argCount
    ensures T.Preserved(body, sums, Seed(body), PresentInv(ParamId(k), IsPointerParam(body, k)))
  {
    var present := IsPointerParam(body, k);
    var inv := PresentInv(ParamId(k), present);
    SeedPresent(body, k);
    forall b, succ, s | 0 <= b < |body.blocks| && succ in Successors(body.blocks[b].term) && inv(s)
      ensures inv(T.Along(body, sums, b, succ, s))
    {
      PresentAlong(body, sums, b, s.own, k);
    }
    forall s, t | inv(s) && inv(t) ensures inv(Join(s, t)) { JoinKeeps(s.own, t.own); }
  }

  lemma SeedPresent(body: Body, k: nat)
    requires FewParams(body) && k < body.argCount
    ensures Sane(Seed(body).own) && (ParamId(k) in Seed(body).own.heap <==> IsPointerParam(body, k))
  {
    SeedExact(body);
    assert ParamId(k) == SUMMARY_BASE + k;
  }

  lemma PresentAlong(body: Body, sums: SummaryMap, b: Block, s: Ownership, k: nat)
    requires Small(body) && k < 0x8000_0000 && b < |body.blocks| && Sane(s)
    ensures var s' := O.Along(body, sums, b, body.blocks[b], s); Sane(s') && (ParamId(k) in s'.heap <==> ParamId(k) in s.heap)
  {
    AlongKeeps(body, sums, b, s);
    assert ParamId(k) == SUMMARY_BASE + k;
    assert Site(b) == b;
  }

  lemma PresentAtEntry(body: Body, sums: SummaryMap, es: Entries<BlockState>, k: nat, b: Block)
    requires WellFormed(body) && Small(body) && FewParams(body) && k < body.argCount
    requires es == T.FlowFrom(body, sums, Seed(body)) && b < |es| && es[b].Some?
    ensures Sane(es[b].value.own) && (ParamId(k) in es[b].value.own.heap <==> IsPointerParam(body, k))
  {
    var inv := PresentInv(ParamId(k), IsPointerParam(body, k));
    PresentPreserved(body, sums, k);
    T.FlowInvariant(body, sums, Seed(body), inv);
    assert inv(es[b].value);
  }

  /** A parameter object has a state before a `Return` exactly when the parameter is a raw pointer. */
  lemma PresentAtReturn(body: Body, sums: SummaryMap, es: Entries<BlockState>, k: nat, b: Block)
    requires WellFormed(body) && Small(body) && FewParams(body) && k < body.argCount
    requires es == T.FlowFrom(body, sums, Seed(body)) && ReturnsAt(body, es, b)
    ensures ParamId(k) in HeapBefore(body, es, b) <==> IsPointerParam(body, k)
  {
    PresentAtEntry(body, sums, es, k, b);
    ReplayPresent(body, es[b].value.own, body.blocks[b].stmts, k);
  }

  lemma ReplayPresent(body: Body, s: Ownership, stmts: seq<Statement>, k: nat)
    requires Sane(s) && k < 0x8000_0000 && forall i :: 0 <= i < |stmts| ==> StatementBelow(stmts[i])
    ensures ParamId(k) in O.Replay(body, s, stmts).heap <==> ParamId(k) in s.heap
  {
    ReplayKeeps(body, s, stmts);
    assert ParamId(k) == SUMMARY_BASE + k;
  }

  /** Uniformity over the merged list is uniformity over the reached `Return`s. */
  lemma UniformAtReturns(body: Body, es: Entries<BlockState>, id: ObjectId, h: HeapState)
    requires |es| == |body.blocks|
    requires forall b: Block :: ReturnsAt(body, es, b) ==> id in HeapBefore(body, es, b)
    ensures Uniform(ReturnStates(body, es, |es|), id, h) <==> AtReturns(body, es, id, h)
  {
    var ss := ReturnStates(body, es, |es|);
    if AtReturns(body, es, id, h) {
      forall i | 0 <= i < |ss| && id in ss[i].own.heap ensures ss[i].own.heap[id] == h {
        ReturnStateFrom(body, es, |es|, i);
      }
    }
    if Uniform(ss, id, h) {
      forall b: Block | ReturnsAt(body, es, b) ensures HeapBefore(body, es, b)[id] == h {
        ReturnStateOf(body, es, |es|, b);
      }
    }
  }

  lemma SomeReturn(body: Body, es: Entries<BlockState>)
    requires |es| == |body.blocks|
    ensures ReturnStates(body, es, |es|) != [] <==> Returns(body, es)
  {
    if ReturnStates(body, es, |es|) != [] {
      ReturnStateFrom(body, es, |es|, 0);
    }
    if Returns(body, es) {
      var b: Block :| ReturnsAt(body, es, b);
      ReturnStateOf(body, es, |es|, b);
    }
  }

  lemma SomewhereAtReturns(body: Body, es: Entries<BlockState>, id: ObjectId, present: bool)
    requires |es| == |body.blocks| && Returns(body, es)
    requires forall b: Block :: ReturnsAt(body, es, b) ==> (id in HeapBefore(body, es, b) <==> present)
    ensures Somewhere(ReturnStates(body, es, |es|), id) <==> present
  {
    var ss := ReturnStates(body, es, |es|);
    if Somewhere(ss, id) {
      var i :| 0 <= i < |ss| && id in ss[i].own.heap;
      ReturnStateFrom(body, es, |es|, i);
    }
    var b: Block :| ReturnsAt(body, es, b);
    ReturnStateOf(body, es, |es|, b);
  }

  lemma EffectExact(ss: seq<BlockState>, n: nat, k: nat)
    requires ss != [] && k < n
    ensures var effects, id := EffectsBelow(MergeAll(ss).own.heap, n), ParamId(k);
            && ((k, Reconstitutes) in effects <==> Somewhere(ss, id) && Uniform(ss, id, Reconstituted))
            && ((k, Escapes) in effects <==> Somewhere(ss, id) && !Uniform(ss, id, Reconstituted) && !Uniform(ss, id, RawOwned))
  {
    MergedHeap(ss, ParamId(k));
    EffectListed(MergeAll(ss).own.heap, n, k, Reconstitutes);
    EffectListed(MergeAll(ss).own.heap, n, k, Escapes);
  }

  lemma ExactAtReturns(body: Body, es: Entries<BlockState>, k: nat, pointer: bool)
    requires |es| == |body.blocks| && k < body.argCount
    requires forall b: Block :: ReturnsAt(body, es, b) ==> (ParamId(k) in HeapBefore(body, es, b) <==> pointer)
    ensures (k, Reconstitutes) in Extract(body, es).effects <==>
              pointer && Returns(body, es) && AtReturns(body, es, ParamId(k), Reconstituted)
    ensures (k, Escapes) in Extract(body, es).effects <==>
              pointer && !AtReturns(body, es, ParamId(k), Reconstituted) && !AtReturns(body, es, ParamId(k), RawOwned)
  {
    var ss, id := ReturnStates(body, es, |es|), ParamId(k);
    SomeReturn(body, es);
    if ss != [] {
      EffectExact(ss, body.argCount, k);
      SomewhereAtReturns(body, es, id, pointer);
      if pointer {
        UniformAtReturns(body, es, id, RawOwned);
        UniformAtReturns(body, es, id, Reconstituted);
      }
    }
  }

  /**
  Exactness. A parameter is recorded as reconstituted if and only if it is a raw pointer, some `Return` is reached, and
  its object is reconstituted before every reached `Return`; as escaped if and only if it is a raw pointer whose object
  is neither reconstituted before all of them nor still owned before all of them.
  */
  lemma SummaryExact(body: Body, sums: SummaryMap, es: Entries<BlockState>, k: nat)
    requires WellFormed(body) && Small(body) && FewParams(body) && k < body.argCount
    requires es == T.FlowFrom(body, sums, Seed(body))
    ensures (k, Reconstitutes) in Extract(body, es).effects <==>
              IsPointerParam(body, k) && Returns(body, es) && AtReturns(body, es, ParamId(k), Reconstituted)
    ensures (k, Escapes) in Extract(body, es).effects <==>
              IsPointerParam(body, k) && !AtReturns(body, es, ParamId(k), Reconstituted) && !AtReturns(body, es, ParamId(k), RawOwned)
  {
    forall b: Block | ReturnsAt(body, es, b) ensures ParamId(k) in HeapBefore(body, es, b) <==> IsPointerParam(body, k) {
      PresentAtReturn(body, sums, es, k, b);
    }
    ExactAtReturns(body, es, k, IsPointerParam(body, k));
  }

  // ----- where an owned return value comes from -----

  lemma {:induction false} MergedPoints(ss: seq<BlockState>, l: Local, id: ObjectId)
    requires ss != [] && id in Get(MergeAll(ss).own.pointsTo, l)
    ensures exists i :: 0 <= i < |ss| && id in Get(ss[i].own.pointsTo, l)
  {
    var n := |ss| - 1;
    if n > 0 && id !in Get(ss[n].own.pointsTo, l) {
      MergedPoints(ss[..n], l, id);
      var i :| 0 <= i < n && id in Get(ss[..n][i].own.pointsTo, l);
      assert ss[i] == ss[..n][i];
    }
  }

  lemma OwnedReturnState(ss: seq<BlockState>, id: ObjectId)
    requires ss != [] && ReturnsOwned(MergeAll(ss).own, id)
    requires forall i :: 0 <= i < |ss| ==> Sane(ss[i].own)
    ensures exists i :: 0 <= i < |ss| && ReturnsOwned(ss[i].own, id)
  {
    MergedPoints(ss, 0, id);
    MergedHeap(ss, id);
    var i :| 0 <= i < |ss| && id in Get(ss[i].own.pointsTo, 0);
    assert ReturnsOwned(ss[i].own, id);
  }

  lemma SeedSane(body: Body)
    requires FewParams(body)
    ensures Sane(Seed(body).own) && V.Sited(body, Seed(body).own)
  {
    SeedExact(body);
  }

  lemma ReplaySane(body: Body, s: Ownership, stmts: seq<Statement>)
    requires Sane(s) && V.Sited(body, s) && forall i :: 0 <= i < |stmts| ==> StatementBelow(stmts[i])
    ensures Sane(O.Replay(body, s, stmts)) && V.Sited(body, O.Replay(body, s, stmts))
  {
    ReplayKeeps(body, s, stmts);
  }

  lemma SaneAtReturn(body: Body, sums: SummaryMap, es: Entries<BlockState>, b: Block)
    requires WellFormed(body) && Small(body) && FewParams(body)
    requires es == T.FlowFrom(body, sums, Seed(body)) && ReturnsAt(body, es, b)
    ensures Sane(OwnBefore(body, es, b)) && V.Sited(body, OwnBefore(body, es, b))
  {
    SeedSane(body);
    V.SaneEverywhere(body, sums, Seed(body), es, b);
    ReplaySane(body, es[b].value.own, body.blocks[b].stmts);
  }

  lemma OwnedReturnFound(body: Body, es: Entries<BlockState>) returns (id: ObjectId, b: Block)
    requires |es| == |body.blocks| && Extract(body, es).returnsRawOwned
    requires forall b: Block :: ReturnsAt(body, es, b) ==> Sane(OwnBefore(body, es, b))
    ensures ReturnsAt(body, es, b) && ReturnsOwned(OwnBefore(body, es, b), id)
  {
    var ss := ReturnStates(body, es, |es|);
    id :| id in Get(MergeAll(ss).own.pointsTo, 0) && ReturnsOwned(MergeAll(ss).own, id);
    forall i | 0 <= i < |ss| ensures Sane(ss[i].own) {
      ReturnStateFrom(body, es, |es|, i);
    }
    OwnedReturnState(ss, id);
    var i :| 0 <= i < |ss| && ReturnsOwned(ss[i].own, id);
    ReturnStateFrom(body, es, |es|, i);
    b :| ReturnsAt(body, es, b) && ss[i].own == OwnBefore(body, es, b);
  }

  lemma SaneAtReturns(body: Body, sums: SummaryMap, es: Entries<BlockState>)
    requires WellFormed(body) && Small(body) && FewParams(body) && es == T.FlowFrom(body, sums, Seed(body))
    ensures forall b: Block :: ReturnsAt(body, es, b) ==> Sane(OwnBefore(body, es, b)) && V.Sited(body, OwnBefore(body, es, b))
  {
    forall b: Block | ReturnsAt(body, es, b) ensures Sane(OwnBefore(body, es, b)) && V.Sited(body, OwnBefore(body, es, b)) {
      SaneAtReturn(body, sums, es, b);
    }
  }

  lemma OwnedIsSite(body: Body, s: Ownership, id: ObjectId)
    requires Sane(s) && V.Sited(body, s) && ReturnsOwned(s, id)
    ensures id < |body.blocks| && body.blocks[id].term.Call? && Site(id) == id
  {
  }

  /** A summary says that an owned pointer is returned only if some `Return` returns one allocated by a call of the body. */
  lemma OwnedReturnIsAllocated(body: Body, sums: SummaryMap, es: Entries<BlockState>) returns (site: Block, b: Block)
    requires WellFormed(body) && Small(body) && FewParams(body)
    requires es == T.FlowFrom(body, sums, Seed(body)) && Extract(body, es).returnsRawOwned
    ensures site < |body.blocks| && body.blocks[site].term.Call?
    ensures ReturnsAt(body, es, b) && ReturnsOwned(OwnBefore(body, es, b), Site(site))
  {
    SaneAtReturns(body, sums, es);
    site, b := OwnedReturnFound(body, es);
    OwnedIsSite(body, OwnBefore(body, es, b), site);
  }
}
