/**
The forward worklist fixpoint of `run_fixpoint`, for every control-flow graph and every transfer function.

`Run` is the loop as a function; what it computes is stated by the lemmas after it, none of which assume the
transfer to be monotone. The imperative loop is in module `Driver`.
*/
module Engine {
  import opened Mir

  /** A merge with the order it climbs and a bounded rank that every reported change lowers. */
  datatype Domain<!S> = Domain(join: (S, S) -> S, leq: (S, S) -> bool, rank: S -> nat, height: nat)

  ghost predicate Lawful<S(!new)>(d: Domain<S>) {
    && (forall a, b :: d.leq(a, d.join(a, b)) && d.leq(b, d.join(a, b)))
    && (forall a :: d.leq(a, a))
    && (forall a, b, c :: d.leq(a, b) && d.leq(b, c) ==> d.leq(a, c))
    && (forall a :: d.rank(a) <= d.height)
    && (forall a, b :: !d.leq(b, a) ==> d.rank(d.join(a, b)) < d.rank(a))
  }

  /** A control-flow graph with its transfer: `exit` runs a block, `edge` refines its exit state for one successor. */
  datatype Problem<!S> = Problem(
    succs: seq<seq<Block>>,
    exit: (Block, S) -> S,
    edge: (Block, Block, S) -> S,
    dom: Domain<S>)

  type Entries<S> = seq<Option<S>>

  datatype Work<S> = Work(entries: Entries<S>, queue: seq<Block>)

  ghost predicate Valid<S(!new)>(p: Problem<S>) {
    && Lawful(p.dom)
    && 0 < |p.succs|
    && forall b, i :: 0 <= b < |p.succs| && 0 <= i < |p.succs[b]| ==> p.succs[b][i] < |p.succs|
  }

  ghost predicate WorkOk<S(!new)>(p: Problem<S>, w: Work<S>) {
    && |w.entries| == |p.succs|
    && forall i :: 0 <= i < |w.queue| ==> w.queue[i] < |p.succs| && w.entries[w.queue[i]].Some?
  }

  function Enqueue(queue: seq<Block>, b: Block): seq<Block> {
    if b in queue then queue else queue + [b]
  }

  // ----- potential -----

  ghost function Cost<S(!new)>(p: Problem<S>, o: Option<S>): nat {
    if o.None? then p.dom.height + 1 else p.dom.rank(o.value)
  }

  ghost function Potential<S(!new)>(p: Problem<S>, es: Entries<S>): nat {
    if es == [] then 0 else Cost(p, es[0]) + Potential(p, es[1..])
  }

  lemma PotentialUpdate<S(!new)>(p: Problem<S>, es: Entries<S>, i: nat, o: Option<S>)
    requires Valid(p) && i < |es|
    ensures Potential(p, es[i := o]) == Potential(p, es) - Cost(p, es[i]) + Cost(p, o)
  {
    if i == 0 {
      assert es[0 := o][1..] == es[1..];
    } else {
      assert es[i := o][1..] == es[1..][i - 1 := o];
      PotentialUpdate(p, es[1..], i - 1, o);
    }
  }

  lemma PotentialBound<S(!new)>(p: Problem<S>, es: Entries<S>)
    requires Valid(p)
    ensures Potential(p, es) <= |es| * (p.dom.height + 1)
  {
    if es != [] {
      PotentialBound(p, es[1..]);
      assert |es| * (p.dom.height + 1) == (p.dom.height + 1) + |es[1..]| * (p.dom.height + 1);
    }
  }

  // ----- one pop -----

  /** Merge the state flowing along the edge `b -> s` into the entry of `s`. */
  ghost function Deliver<S(!new)>(p: Problem<S>, w: Work<S>, b: Block, s: Block, out: S): (w': Work<S>)
    requires Valid(p) && WorkOk(p, w) && s < |p.succs|
    ensures WorkOk(p, w')
    ensures Potential(p, w'.entries) + |w'.queue| <= Potential(p, w.entries) + |w.queue|
  {
    var e := p.edge(b, s, out);
    if w.entries[s].None? then
      PotentialUpdate(p, w.entries, s, Some(e));
      Work(w.entries[s := Some(e)], Enqueue(w.queue, s))
    else if p.dom.leq(e, w.entries[s].value) then
      w
    else
      var merged := p.dom.join(w.entries[s].value, e);
      PotentialUpdate(p, w.entries, s, Some(merged));
      Work(w.entries[s := Some(merged)], Enqueue(w.queue, s))
  }

  /** Deliver to the successors of `b` from the `i`-th on. */
  ghost function Visit<S(!new)>(p: Problem<S>, w: Work<S>, b: Block, out: S, i: nat): (w': Work<S>)
    requires Valid(p) && WorkOk(p, w) && b < |p.succs| && i <= |p.succs[b]|
    ensures WorkOk(p, w')
    ensures Potential(p, w'.entries) + |w'.queue| <= Potential(p, w.entries) + |w.queue|
    decreases |p.succs[b]| - i
  {
    if i == |p.succs[b]| then w
    else Visit(p, Deliver(p, w, b, p.succs[b][i], out), b, out, i + 1)
  }

  ghost function Pop<S(!new)>(p: Problem<S>, w: Work<S>): (w': Work<S>)
    requires Valid(p) && WorkOk(p, w) && w.queue != []
    ensures WorkOk(p, w')
    ensures Potential(p, w'.entries) + |w'.queue| < Potential(p, w.entries) + |w.queue|
  {
    var b := w.queue[0];
    Visit(p, Work(w.entries, w.queue[1..]), b, p.exit(b, w.entries[b].value), 0)
  }

  /** The loop: final entry states and the number of pops. It needs no property of the transfer to terminate. */
  ghost function Run<S(!new)>(p: Problem<S>, w: Work<S>): (r: (Entries<S>, nat))
    requires Valid(p) && WorkOk(p, w)
    ensures |r.0| == |p.succs|
    ensures r.1 <= Potential(p, w.entries) + |w.queue|
    decreases Potential(p, w.entries) + |w.queue|
  {
    if w.queue == [] then (w.entries, 0)
    else
      var r := Run(p, Pop(p, w));
      (r.0, r.1 + 1)
  }

  ghost function Start<S(!new)>(p: Problem<S>, initial: S): (w: Work<S>)
    requires Valid(p)
    ensures WorkOk(p, w)
  {
    Work(seq(|p.succs|, _ => None)[0 := Some(initial)], [0])
  }

  ghost function Fixpoint<S(!new)>(p: Problem<S>, initial: S): (es: Entries<S>)
    requires Valid(p)
    ensures |es| == |p.succs|
  {
    Run(p, Start(p, initial)).0
  }

  /** The loop pops at most 1 + blocks * (height + 1) times, whatever the transfer does. */
  lemma PopBound<S(!new)>(p: Problem<S>, initial: S)
    requires Valid(p)
    ensures Run(p, Start(p, initial)).1 <= 1 + |p.succs| * (p.dom.height + 1)
  {
    PotentialBound(p, Start(p, initial).entries);
  }

  lemma PopBoundAt<S(!new)>(p: Problem<S>, initial: S, blocks: nat, height: nat)
    requires Valid(p) && blocks == |p.succs| && height >= p.dom.height
    ensures Run(p, Start(p, initial)).1 <= 1 + blocks * (height + 1)
  {
    PopBound(p, initial);
    GrowsWith(blocks, p.dom.height + 1, height + 1);
  }

  lemma GrowsWith(a: nat, b: nat, c: nat)
    requires b <= c
    ensures a * b <= a * c
  {
  }

  // ----- what the loop keeps -----

  /** Re-merging the edge `b -> s` would report no change. */
  ghost predicate Settled<S(!new)>(p: Problem<S>, es: Entries<S>, b: Block, s: Block)
    requires b < |es| && s < |es| && es[b].Some?
  {
    es[s].Some? && p.dom.leq(p.edge(b, s, p.exit(b, es[b].value)), es[s].value)
  }

  ghost predicate AllSettled<S(!new)>(p: Problem<S>, es: Entries<S>, b: Block, n: nat)
    requires Valid(p) && |es| == |p.succs| && b < |es| && es[b].Some? && n <= |p.succs[b]|
  {
    forall i :: 0 <= i < n ==> Settled(p, es, b, p.succs[b][i])
  }

  /** Every reached block is still queued or has all its edges settled. */
  ghost predicate Consistent<S(!new)>(p: Problem<S>, w: Work<S>)
    requires Valid(p) && WorkOk(p, w)
  {
    forall b :: 0 <= b < |w.entries| && w.entries[b].Some? && b !in w.queue ==> AllSettled(p, w.entries, b, |p.succs[b]|)
  }

  /** `Consistent` in the middle of a visit of `cur`, after its first `n` successors. */
  ghost predicate Visiting<S(!new)>(p: Problem<S>, w: Work<S>, cur: Block, out: S, n: nat)
    requires Valid(p) && WorkOk(p, w) && cur < |p.succs| && n <= |p.succs[cur]|
  {
    && w.entries[cur].Some?
    && (cur !in w.queue ==> out == p.exit(cur, w.entries[cur].value) && AllSettled(p, w.entries, cur, n))
    && (forall b :: 0 <= b < |w.entries| && w.entries[b].Some? && b != cur && b !in w.queue ==>
          AllSettled(p, w.entries, b, |p.succs[b]|))
  }

  lemma SettledStays<S(!new)>(p: Problem<S>, w: Work<S>, cur: Block, s: Block, out: S, b: Block, t: Block)
    requires Valid(p) && WorkOk(p, w) && s < |p.succs| && b < |p.succs| && t < |p.succs|
    requires w.entries[b].Some? && Settled(p, w.entries, b, t)
    requires b !in Deliver(p, w, cur, s, out).queue
    ensures b !in w.queue
    ensures Deliver(p, w, cur, s, out).entries[b] == w.entries[b]
    ensures Settled(p, Deliver(p, w, cur, s, out).entries, b, t)
  {
    assert b != s || Deliver(p, w, cur, s, out).entries == w.entries;
  }

  lemma DeliverKeeps<S(!new)>(p: Problem<S>, w: Work<S>, cur: Block, out: S, n: nat)
    requires Valid(p) && WorkOk(p, w) && cur < |p.succs| && n < |p.succs[cur]|
    requires Visiting(p, w, cur, out, n)
    ensures Visiting(p, Deliver(p, w, cur, p.succs[cur][n], out), cur, out, n + 1)
  {
    var s := p.succs[cur][n];
    var w' := Deliver(p, w, cur, s, out);
    assert p.dom.leq(p.edge(cur, s, out), w'.entries[s].value);
    if cur !in w'.queue {
      assert cur !in w.queue && w'.entries[cur] == w.entries[cur];
      forall i | 0 <= i < n + 1 ensures Settled(p, w'.entries, cur, p.succs[cur][i]) {
        if i < n { SettledStays(p, w, cur, s, out, cur, p.succs[cur][i]); }
      }
    }
    forall b | 0 <= b < |w'.entries| && w'.entries[b].Some? && b != cur && b !in w'.queue
      ensures AllSettled(p, w'.entries, b, |p.succs[b]|)
    {
      assert b !in w.queue && w'.entries[b] == w.entries[b];
      assert AllSettled(p, w.entries, b, |p.succs[b]|);
      forall i | 0 <= i < |p.succs[b]| ensures Settled(p, w'.entries, b, p.succs[b][i]) {
        SettledStays(p, w, cur, s, out, b, p.succs[b][i]);
      }
    }
  }

  lemma VisitKeeps<S(!new)>(p: Problem<S>, w: Work<S>, cur: Block, out: S, n: nat)
    requires Valid(p) && WorkOk(p, w) && cur < |p.succs| && n <= |p.succs[cur]|
    requires Visiting(p, w, cur, out, n)
    ensures Consistent(p, Visit(p, w, cur, out, n))
    decreases |p.succs[cur]| - n
  {
    if n < |p.succs[cur]| {
      DeliverKeeps(p, w, cur, out, n);
      VisitKeeps(p, Deliver(p, w, cur, p.succs[cur][n], out), cur, out, n + 1);
    }
  }

  ghost predicate NoRepeats(q: seq<Block>) {
    forall i, j :: 0 <= i < j < |q| ==> q[i] != q[j]
  }

  lemma VisitNoRepeats<S(!new)>(p: Problem<S>, w: Work<S>, b: Block, out: S, i: nat)
    requires Valid(p) && WorkOk(p, w) && b < |p.succs| && i <= |p.succs[b]| && NoRepeats(w.queue)
    ensures NoRepeats(Visit(p, w, b, out, i).queue)
    decreases |p.succs[b]| - i
  {
    if i < |p.succs[b]| {
      VisitNoRepeats(p, Deliver(p, w, b, p.succs[b][i], out), b, out, i + 1);
    }
  }

  lemma PopKeeps<S(!new)>(p: Problem<S>, w: Work<S>)
    requires Valid(p) && WorkOk(p, w) && w.queue != [] && NoRepeats(w.queue) && Consistent(p, w)
    ensures Consistent(p, Pop(p, w)) && NoRepeats(Pop(p, w).queue)
  {
    var b := w.queue[0];
    var w1 := Work(w.entries, w.queue[1..]);
    forall x | x !in w1.queue && x != b ensures x !in w.queue {
      assert w.queue == [b] + w1.queue;
    }
    VisitKeeps(p, w1, b, p.exit(b, w.entries[b].value), 0);
    VisitNoRepeats(p, w1, b, p.exit(b, w.entries[b].value), 0);
  }

  /** At exit no edge out of a reached block has anything new to say. */
  ghost predicate PostFixpoint<S(!new)>(p: Problem<S>, es: Entries<S>)
    requires Valid(p) && |es| == |p.succs|
  {
    forall b, i :: 0 <= b < |es| && es[b].Some? && 0 <= i < |p.succs[b]| ==> Settled(p, es, b, p.succs[b][i])
  }

  lemma RunSettles<S(!new)>(p: Problem<S>, w: Work<S>)
    requires Valid(p) && WorkOk(p, w) && NoRepeats(w.queue) && Consistent(p, w)
    ensures PostFixpoint(p, Run(p, w).0)
    decreases Potential(p, w.entries) + |w.queue|
  {
    if w.queue != [] {
      PopKeeps(p, w);
      RunSettles(p, Pop(p, w));
    } else {
      forall b, i | 0 <= b < |w.entries| && w.entries[b].Some? && 0 <= i < |p.succs[b]|
        ensures Settled(p, w.entries, b, p.succs[b][i])
      {
        assert AllSettled(p, w.entries, b, |p.succs[b]|);
      }
    }
  }

  // ----- facts true of every entry state ever stored -----

  /** `inv` holds initially, flows along edges and survives merging. */
  ghost predicate Inductive<S(!new)>(p: Problem<S>, initial: S, inv: (Block, S) -> bool)
    requires Valid(p)
  {
    && inv(0, initial)
    && (forall b, i, s :: 0 <= b < |p.succs| && 0 <= i < |p.succs[b]| && inv(b, s) ==>
          inv(p.succs[b][i], p.edge(b, p.succs[b][i], p.exit(b, s))))
    && (forall b: Block, s, t :: inv(b, s) && inv(b, t) ==> inv(b, p.dom.join(s, t)))
  }

  ghost predicate Everywhere<S(!new)>(es: Entries<S>, inv: (Block, S) -> bool) {
    forall b :: 0 <= b < |es| && es[b].Some? ==> inv(b, es[b].value)
  }

  lemma VisitEverywhere<S(!new)>(p: Problem<S>, initial: S, inv: (Block, S) -> bool,
                        w: Work<S>, b: Block, s: S, i: nat)
    requires Valid(p) && WorkOk(p, w) && b < |p.succs| && i <= |p.succs[b]|
    requires Inductive(p, initial, inv) && Everywhere(w.entries, inv) && inv(b, s)
    ensures Everywhere(Visit(p, w, b, p.exit(b, s), i).entries, inv)
    decreases |p.succs[b]| - i
  {
    if i < |p.succs[b]| {
      VisitEverywhere(p, initial, inv, Deliver(p, w, b, p.succs[b][i], p.exit(b, s)), b, s, i + 1);
    }
  }

  lemma RunEverywhere<S(!new)>(p: Problem<S>, initial: S, inv: (Block, S) -> bool, w: Work<S>)
    requires Valid(p) && WorkOk(p, w) && Inductive(p, initial, inv) && Everywhere(w.entries, inv)
    ensures Everywhere(Run(p, w).0, inv)
    decreases Potential(p, w.entries) + |w.queue|
  {
    if w.queue != [] {
      var b := w.queue[0];
      VisitEverywhere(p, initial, inv, Work(w.entries, w.queue[1..]), b, w.entries[b].value, 0);
      RunEverywhere(p, initial, inv, Pop(p, w));
    }
  }

  /** An inductive property holds of every entry state of the fixpoint. */
  lemma InvariantEverywhere<S(!new)>(p: Problem<S>, initial: S, inv: (Block, S) -> bool)
    requires Valid(p) && Inductive(p, initial, inv)
    ensures Everywhere(Fixpoint(p, initial), inv)
  {
    RunEverywhere(p, initial, inv, Start(p, initial));
  }

  // ----- reachability -----

  ghost predicate Chain<S(!new)>(p: Problem<S>, q: seq<Block>)
    requires Valid(p)
  {
    && 0 < |q| && q[0] == 0
    && (forall k :: 0 <= k < |q| ==> q[k] < |p.succs|)
    && (forall k :: 0 < k < |q| ==> q[k] in p.succs[q[k - 1]])
  }

  ghost predicate Reachable<S(!new)>(p: Problem<S>, b: Block) {
    Valid(p) && exists q :: Chain(p, q) && q[|q| - 1] == b
  }

  lemma ReachableStep<S(!new)>(p: Problem<S>, b: Block, s: Block)
    requires Valid(p) && Reachable(p, b) && b < |p.succs| && s in p.succs[b]
    ensures Reachable(p, s)
  {
    var q :| Chain(p, q) && q[|q| - 1] == b;
    var q' := q + [s];
    assert q'[|q'| - 1] == s && q'[|q'| - 2] == b;
    assert Chain(p, q');
  }

  lemma ChainCovered<S(!new)>(p: Problem<S>, es: Entries<S>, q: seq<Block>)
    requires Valid(p) && |es| == |p.succs| && es[0].Some? && PostFixpoint(p, es) && Chain(p, q)
    ensures es[q[|q| - 1]].Some?
  {
    if |q| > 1 {
      var q' := q[..|q| - 1];
      ChainCovered(p, es, q');
      var b := q'[|q'| - 1];
      var i :| 0 <= i < |p.succs[b]| && p.succs[b][i] == q[|q| - 1];
      assert Settled(p, es, b, p.succs[b][i]);
    }
  }

  lemma VisitGrows<S(!new)>(p: Problem<S>, w: Work<S>, b: Block, out: S, i: nat, t: Block)
    requires Valid(p) && WorkOk(p, w) && b < |p.succs| && i <= |p.succs[b]| && t < |p.succs| && w.entries[t].Some?
    ensures var w' := Visit(p, w, b, out, i); w'.entries[t].Some? && p.dom.leq(w.entries[t].value, w'.entries[t].value)
    decreases |p.succs[b]| - i
  {
    if i < |p.succs[b]| {
      VisitGrows(p, Deliver(p, w, b, p.succs[b][i], out), b, out, i + 1, t);
    }
  }

  lemma RunGrows<S(!new)>(p: Problem<S>, w: Work<S>, t: Block)
    requires Valid(p) && WorkOk(p, w) && t < |p.succs| && w.entries[t].Some?
    ensures var es := Run(p, w).0; es[t].Some? && p.dom.leq(w.entries[t].value, es[t].value)
    decreases Potential(p, w.entries) + |w.queue|
  {
    if w.queue != [] {
      var b := w.queue[0];
      VisitGrows(p, Work(w.entries, w.queue[1..]), b, p.exit(b, w.entries[b].value), 0, t);
      RunGrows(p, Pop(p, w), t);
    }
  }

  /**
  The computed entries are a post-fixpoint above the initial state, and a block has an entry state exactly when a
  chain of successor edges from block 0 reaches it.
  */
  lemma FixpointCorrect<S(!new)>(p: Problem<S>, initial: S)
    requires Valid(p)
    ensures var es := Fixpoint(p, initial);
            && PostFixpoint(p, es)
            && es[0].Some? && p.dom.leq(initial, es[0].value)
            && (forall b :: 0 <= b < |es| ==> (es[b].Some? <==> Reachable(p, b)))
  {
    var es := Fixpoint(p, initial);
    RunSettles(p, Start(p, initial));
    RunGrows(p, Start(p, initial), 0);
    assert Chain(p, [0]) && [0][|[0]| - 1] == 0;
    var inv := (b: Block, s: S) => Reachable(p, b);
    forall b, i, s | 0 <= b < |p.succs| && 0 <= i < |p.succs[b]| && inv(b, s) ensures inv(p.succs[b][i], s) {
      ReachableStep(p, b, p.succs[b][i]);
    }
    InvariantEverywhere(p, initial, inv);
    forall b | 0 <= b < |es| && Reachable(p, b) ensures es[b].Some? {
      var q :| Chain(p, q) && q[|q| - 1] == b;
      ChainCovered(p, es, q);
    }
  }

  lemma ChainReached<S(!new)>(p: Problem<S>, initial: S, q: seq<Block>)
    requires Valid(p) && Chain(p, q)
    ensures Fixpoint(p, initial)[q[|q| - 1]].Some?
  {
    FixpointCorrect(p, initial);
    assert Reachable(p, q[|q| - 1]);
  }
}
