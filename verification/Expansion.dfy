/** Which functions are summarised: local code, and external callees within two hops of it, at most 600 of them. */
module Expansion {
  import opened Mir

  const MAX_EXTERNAL_DEPTH := 2
  const MAX_EXTERNAL_FNS := 600

  /** The resolved callees of a body, in block order. */
  function CalleesBelow(body: Body, n: nat): seq<nat>
    requires n <= |body.blocks|
  {
    if n == 0 then []
    else
      var term := body.blocks[n - 1].term;
      if term.Call? && term.callee.Some? then CalleesBelow(body, n - 1) + [term.callee.value.def]
      else CalleesBelow(body, n - 1)
  }

  /** `bodies` is what `optimized_mir` gives; `eligible` the functions and methods whose MIR is available. */
  datatype Graph = Graph(bodies: map<nat, Body>, eligible: set<nat>)

  function Callees(g: Graph, def: nat): seq<nat> {
    if def in g.bodies then CalleesBelow(g.bodies[def], |g.bodies[def].blocks|) else []
  }

  ghost predicate Calls(g: Graph, e: nat, d: nat) { d in Callees(g, e) && d in g.eligible }

  /** `d` is local or reached from local code by at most `n` calls of eligible functions. */
  ghost predicate Within(g: Graph, local: seq<nat>, d: nat, n: nat)
    decreases n
  {
    if n == 0 then d in local
    else Within(g, local, d, n - 1) || exists e :: Within(g, local, e, n - 1) && Calls(g, e, d)
  }

  ghost predicate NoDuplicates(s: seq<nat>) {
    forall i, j :: 0 <= i < j < |s| ==> s[i] != s[j]
  }

  ghost function Elements(s: seq<nat>): set<nat> { set x | x in s }

  /** `todo'` extends `todo` by `added`, without duplicates and within the cap. */
  ghost predicate Extends(todo: seq<nat>, added: seq<nat>, todo': seq<nat>, locals: nat) {
    todo' == todo + added && NoDuplicates(todo') && locals <= |todo'| <= locals + MAX_EXTERNAL_FNS
  }

  /** The calls of one function: enqueue every eligible callee not seen yet, while there is room. */
  method ScanCalls(g: Graph, def: nat, locals: nat, todo: seq<nat>, inSet: set<nat>)
    returns (added: seq<nat>, todo': seq<nat>, inSet': set<nat>)
    requires NoDuplicates(todo) && inSet == Elements(todo) && locals <= |todo| <= locals + MAX_EXTERNAL_FNS
    ensures Extends(todo, added, todo', locals) && inSet' == Elements(todo')
    ensures forall d <- added :: Calls(g, def, d)
    ensures |todo'| < locals + MAX_EXTERNAL_FNS ==> forall d :: Calls(g, def, d) ==> d in todo'
  {
    added, todo', inSet' := [], todo, inSet;
    var callees := Callees(g, def);
    for i := 0 to |callees|
      invariant Extends(todo, added, todo', locals) && inSet' == Elements(todo')
      invariant forall d <- added :: Calls(g, def, d)
      invariant |todo'| < locals + MAX_EXTERNAL_FNS ==>
                  forall j :: 0 <= j < i && callees[j] in g.eligible ==> callees[j] in todo'
    {
      var callee := callees[i];
      if callee !in inSet' && |todo'| - locals < MAX_EXTERNAL_FNS && callee in g.eligible {
        added, todo', inSet' := added + [callee], todo' + [callee], inSet' + {callee};
      }
    }
  }

  /** One level: scan the calls of every function of the frontier. */
  method ScanFrontier(g: Graph, frontier: seq<nat>, locals: nat, todo: seq<nat>, inSet: set<nat>)
    returns (next: seq<nat>, todo': seq<nat>, inSet': set<nat>)
    requires NoDuplicates(todo) && inSet == Elements(todo) && locals <= |todo| <= locals + MAX_EXTERNAL_FNS
    ensures Extends(todo, next, todo', locals) && inSet' == Elements(todo')
    ensures forall d <- next :: exists e :: e in frontier && Calls(g, e, d)
    ensures |todo'| < locals + MAX_EXTERNAL_FNS ==> forall e, d :: e in frontier && Calls(g, e, d) ==> d in todo'
  {
    next, todo', inSet' := [], todo, inSet;
    for i := 0 to |frontier|
      invariant Extends(todo, next, todo', locals) && inSet' == Elements(todo')
      invariant forall d <- next :: exists e :: e in frontier && Calls(g, e, d)
      invariant |todo'| < locals + MAX_EXTERNAL_FNS ==>
                  forall e, d :: e in frontier[..i] && Calls(g, e, d) ==> d in todo'
    {
      var added;
      assert frontier[..i + 1] == frontier[..i] + [frontier[i]];
      added, todo', inSet' := ScanCalls(g, frontier[i], locals, todo', inSet');
      next := next + added;
    }
    assert frontier[..|frontier|] == frontier;
  }

  /** What `depth` levels have achieved: `frontier` is what the last level found. */
  ghost predicate Explored(g: Graph, local: seq<nat>, todo: seq<nat>, frontier: seq<nat>, depth: nat) {
    && (forall d <- todo :: Within(g, local, d, depth))
    && (forall d <- frontier :: d in todo)
    && (|todo| < |local| + MAX_EXTERNAL_FNS ==>
          && (forall d :: Within(g, local, d, depth) ==> d in todo)
          && (forall e, d :: e in todo && e !in frontier && Calls(g, e, d) ==> d in todo))
  }

  lemma LevelExplored(g: Graph, local: seq<nat>, todo: seq<nat>, frontier: seq<nat>, next: seq<nat>, todo': seq<nat>, depth: nat)
    requires Explored(g, local, todo, frontier, depth) && Extends(todo, next, todo', |local|)
    requires forall d <- next :: exists e :: e in frontier && Calls(g, e, d)
    requires |todo'| < |local| + MAX_EXTERNAL_FNS ==> forall e, d :: e in frontier && Calls(g, e, d) ==> d in todo'
    ensures Explored(g, local, todo', next, depth + 1)
  {
    forall d <- todo' ensures Within(g, local, d, depth + 1) {
      if d in next {
        var e :| e in frontier && Calls(g, e, d);
      }
    }
    if |todo'| < |local| + MAX_EXTERNAL_FNS {
      forall d | Within(g, local, d, depth + 1) ensures d in todo' {
        if !Within(g, local, d, depth) {
          var e :| Within(g, local, e, depth) && Calls(g, e, d);
          assert e in todo;
        }
      }
    }
  }

  /** With nothing new found, later levels would find nothing either. */
  lemma NothingNew(g: Graph, local: seq<nat>, todo: seq<nat>, depth: nat, more: nat)
    requires Explored(g, local, todo, [], depth)
    ensures Explored(g, local, todo, [], depth + more)
  {
    if more > 0 {
      NothingNew(g, local, todo, depth, more - 1);
    }
  }

  /** With the cap reached, the list is kept as it is. */
  lemma CapReached(g: Graph, local: seq<nat>, todo: seq<nat>, frontier: seq<nat>, depth: nat, more: nat)
    requires Explored(g, local, todo, frontier, depth) && |todo| == |local| + MAX_EXTERNAL_FNS
    ensures Explored(g, local, todo, frontier, depth + more)
  {
    if more > 0 { CapReached(g, local, todo, frontier, depth, more - 1); }
  }

  /**
  The expansion of `run_checks`: no duplicates, local code first, at most 600 external functions, each within two
  calls of local code; and if the cap is not reached, all of them.
  */
  method Expand(g: Graph, local: seq<nat>) returns (todo: seq<nat>)
    requires NoDuplicates(local)
    ensures NoDuplicates(todo) && local <= todo && |todo| <= |local| + MAX_EXTERNAL_FNS
    ensures forall d <- todo :: Within(g, local, d, MAX_EXTERNAL_DEPTH)
    ensures |todo| < |local| + MAX_EXTERNAL_FNS ==> forall d :: Within(g, local, d, MAX_EXTERNAL_DEPTH) ==> d in todo
  {
    todo := local;
    var frontier := local;
    var inSet := set x | x in local;
    var depth := 0;
    while depth < MAX_EXTERNAL_DEPTH
      invariant depth <= MAX_EXTERNAL_DEPTH
      invariant NoDuplicates(todo) && local <= todo && |todo| <= |local| + MAX_EXTERNAL_FNS && inSet == Elements(todo)
      invariant Explored(g, local, todo, frontier, depth)
    {
      if |todo| - |local| >= MAX_EXTERNAL_FNS {
        CapReached(g, local, todo, frontier, depth, MAX_EXTERNAL_DEPTH - depth);
        break;
      }
      ghost var todo0, frontier0 := todo, frontier;
      frontier, todo, inSet := ScanFrontier(g, frontier, |local|, todo, inSet);
      LevelExplored(g, local, todo0, frontier0, frontier, todo, depth);
      depth := depth + 1;
      if frontier == [] {
        NothingNew(g, local, todo, depth, MAX_EXTERNAL_DEPTH - depth);
        break;
      }
    }
  }
}
