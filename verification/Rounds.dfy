/** Summary rounds: every round recomputes all summaries against the snapshot of the previous one. */
module Rounds {
  import opened Mir
  import opened O = OwnTransfer
  import opened Summary
  import Summarize

  /** The functions with available MIR; `accessors` and `identities` are the external paths with curated knowledge. */
  datatype Crate = Crate(
    bodies: map<nat, Body>,
    isLocal: set<nat>,
    accessors: set<nat>,
    identities: set<nat>)

  predicate HasBody(c: Crate, def: nat) { def in c.bodies && WellFormed(c.bodies[def]) }

  /** `todo` (`to_summarize`) lists functions with a body. */
  ghost predicate Valid(c: Crate, todo: seq<nat>) {
    forall d <- todo :: HasBody(c, d)
  }

  /** What is trusted of an external summary: its alias and reallocation effects, its pointer only through an identity. */
  function Trim(c: Crate, def: nat, s: FnSummary): FnSummary {
    if def in c.isLocal then s
    else FnSummary(
      [],
      false,
      if def in c.accessors then Some(0) else s.aliasOf,
      if def in c.identities then s.ptrOf else None,
      s.reallocs)
  }

  predicate SaysSomething(s: FnSummary) {
    s.effects != [] || s.returnsRawOwned || s.aliasOf.Some? || s.ptrOf.Some? || s.reallocs.Some?
  }

  ghost function SummaryFor(c: Crate, snap: SummaryMap, def: nat): FnSummary
    requires HasBody(c, def)
  {
    Trim(c, def, SummaryOfBody(c.bodies[def], snap))
  }

  function Record(sums: SummaryMap, def: nat, s: FnSummary): SummaryMap {
    if SaysSomething(s) then sums[def := s] else sums - {def}
  }

  /** The body of a round: record the summaries of `todo`, in order. */
  ghost function Pass(todo: seq<nat>, found: map<nat, FnSummary>, sums: SummaryMap): SummaryMap
    requires forall d <- todo :: d in found
    decreases |todo|
  {
    if todo == [] then sums else Pass(todo[1..], found, Record(sums, todo[0], found[todo[0]]))
  }

  /** Every summary of the round is computed against the same snapshot. */
  ghost function Found(c: Crate, todo: seq<nat>, snap: SummaryMap): map<nat, FnSummary>
    requires Valid(c, todo)
  {
    map d | d in todo :: SummaryFor(c, snap, d)
  }

  ghost function Round(c: Crate, todo: seq<nat>, snap: SummaryMap): SummaryMap
    requires Valid(c, todo)
  {
    Pass(todo, Found(c, todo, snap), snap)
  }

  /** `f` applied `n` times. */
  ghost function Iter<S(!new)>(f: S -> S, s: S, n: nat): S {
    if n == 0 then s else f(Iter(f, s, n - 1))
  }

  ghost function RoundOf(c: Crate, todo: seq<nat>): SummaryMap -> SummaryMap {
    (snap: SummaryMap) => if Valid(c, todo) then Round(c, todo, snap) else snap
  }

  lemma RoundOfIs(c: Crate, todo: seq<nat>, snap: SummaryMap)
    requires Valid(c, todo)
    ensures RoundOf(c, todo)(snap) == Round(c, todo, snap)
  {
  }

  /** The summaries after that many rounds, from none. */
  ghost function After(c: Crate, todo: seq<nat>, rounds: nat): SummaryMap {
    Iter(RoundOf(c, todo), map[], rounds)
  }

  lemma AfterNext(c: Crate, todo: seq<nat>, rounds: nat)
    requires Valid(c, todo) && rounds > 0
    ensures After(c, todo, rounds) == Round(c, todo, After(c, todo, rounds - 1))
  {
    RoundOfIs(c, todo, After(c, todo, rounds - 1));
  }

  // ----- a round is a function of the snapshot alone -----

  /** `sums` holds `s` for `def`, or nothing if `s` says nothing. */
  ghost predicate Recorded(sums: SummaryMap, def: nat, s: FnSummary) {
    (def in sums <==> SaysSomething(s)) && (def in sums ==> sums[def] == s)
  }

  lemma {:induction false} PassAt(todo: seq<nat>, found: map<nat, FnSummary>, sums: SummaryMap, def: nat)
    requires forall d <- todo :: d in found
    ensures var r := Pass(todo, found, sums);
            if def in todo || (def in found && Recorded(sums, def, found[def]))
            then Recorded(r, def, found[def])
            else (def in r <==> def in sums) && (def in r ==> r[def] == sums[def])
    decreases |todo|
  {
    if todo != [] {
      PassAt(todo[1..], found, Record(sums, todo[0], found[todo[0]]), def);
      assert def in todo <==> def == todo[0] || def in todo[1..];
    }
  }

  lemma PassOrderFree(todo: seq<nat>, todo': seq<nat>, found: map<nat, FnSummary>, sums: SummaryMap)
    requires (forall d :: d in todo <==> d in todo') && forall d <- todo :: d in found
    ensures Pass(todo, found, sums) == Pass(todo', found, sums)
  {
    var r, r' := Pass(todo, found, sums), Pass(todo', found, sums);
    forall def | def in r || def in r' ensures def in r && def in r' && r[def] == r'[def] {
      PassAt(todo, found, sums, def);
      PassAt(todo', found, sums, def);
    }
  }

  lemma SameFound(c: Crate, todo: seq<nat>, todo': seq<nat>, snap: SummaryMap)
    requires Valid(c, todo) && (forall d :: d in todo <==> d in todo')
    ensures Valid(c, todo') && Found(c, todo, snap) == Found(c, todo', snap)
  {
    var f, f' := Found(c, todo, snap), Found(c, todo', snap);
    assert f.Keys == f'.Keys;
    assert forall d <- f.Keys :: f[d] == f'[d];
  }

  /** The result of a round does not depend on the order of the functions, nor on repetitions among them. */
  lemma RoundOrderFree(c: Crate, todo: seq<nat>, todo': seq<nat>, snap: SummaryMap)
    requires Valid(c, todo) && (forall d :: d in todo <==> d in todo')
    ensures Valid(c, todo') && Round(c, todo, snap) == Round(c, todo', snap)
  {
    SameFound(c, todo, todo', snap);
    PassOrderFree(todo, todo', Found(c, todo, snap), snap);
  }

  /** After a round, a listed function has exactly the summary the snapshot gives it. */
  lemma RoundAt(c: Crate, todo: seq<nat>, snap: SummaryMap, def: nat)
    requires Valid(c, todo) && def in todo
    ensures Recorded(Round(c, todo, snap), def, SummaryFor(c, snap, def))
  {
    PassAt(todo, Found(c, todo, snap), snap, def);
  }

  // ----- the loop -----

  const MAX_SUMMARY_ROUNDS := 8

  /** Once an application changes nothing, no later one does. */
  lemma {:induction false} FixedStays<S(!new)>(f: S -> S, s: S, r: nat, n: nat)
    requires r <= n && f(Iter(f, s, r)) == Iter(f, s, r)
    ensures Iter(f, s, n) == Iter(f, s, r)
  {
    if n > r {
      FixedStays(f, s, r, n - 1);
    }
  }

  /** Once a round changes nothing, no later one does. */
  lemma StableStays(c: Crate, todo: seq<nat>, r: nat, n: nat, sums: SummaryMap)
    requires Valid(c, todo) && r <= n && After(c, todo, r) == sums && Round(c, todo, sums) == sums
    ensures After(c, todo, n) == sums
  {
    RoundOfIs(c, todo, sums);
    FixedStays(RoundOf(c, todo), map[], r, n);
  }

  /** One function of a round: analyse its body against the snapshot, keep what is trusted. */
  method Resummarize(c: Crate, snap: SummaryMap, def: nat) returns (s: FnSummary)
    requires HasBody(c, def)
    ensures s == SummaryFor(c, snap, def)
  {
    s := Summarize.ComputeSummary(c.bodies[def], snap);
    s := Trim(c, def, s);
  }

  method RunRound(c: Crate, todo: seq<nat>, snap: SummaryMap) returns (sums: SummaryMap)
    requires Valid(c, todo)
    ensures sums == Round(c, todo, snap)
  {
    ghost var found := Found(c, todo, snap);
    sums := snap;
    for i := 0 to |todo|
      invariant Pass(todo[i..], found, sums) == Pass(todo, found, snap)
    {
      var def := todo[i];
      assert def in todo && todo[i..][1..] == todo[i + 1..];
      var s := Resummarize(c, snap, def);
      if SaysSomething(s) {
        sums := sums[def := s];
      } else {
        sums := sums - {def};
      }
    }
  }

  /** One round in terms of `RoundOf`. */
  method Advance(c: Crate, todo: seq<nat>, snap: SummaryMap) returns (sums: SummaryMap)
    requires Valid(c, todo)
    ensures sums == RoundOf(c, todo)(snap)
  {
    sums := RunRound(c, todo, snap);
    RoundOfIs(c, todo, snap);
  }

  /** At most `limit` rounds, fewer if one changes nothing. */
  method Iterate(c: Crate, todo: seq<nat>, limit: nat) returns (sums: SummaryMap, stable: bool)
    requires Valid(c, todo)
    ensures sums == Iter(RoundOf(c, todo), map[], limit)
    ensures stable ==> RoundOf(c, todo)(sums) == sums
  {
    ghost var f := RoundOf(c, todo);
    sums, stable := map[], false;
    var rounds := 0;
    while rounds < limit
      invariant rounds <= limit && !stable && sums == Iter(f, map[], rounds)
    {
      var snap := sums;
      sums := Advance(c, todo, snap);
      if sums == snap {
        FixedStays(f, map[], rounds, limit);
        stable := true;
        return;
      }
      rounds := rounds + 1;
    }
  }

  /**
  The rounds of `run_checks`. The result is what eight rounds give, however early the loop stops; and leaving
  through the equality test leaves a fixpoint of the round function.
  */
  method RunRounds(c: Crate, todo: seq<nat>) returns (sums: SummaryMap, stable: bool)
    requires Valid(c, todo)
    ensures sums == After(c, todo, MAX_SUMMARY_ROUNDS)
    ensures stable ==> Round(c, todo, sums) == sums && forall n: nat :: n >= MAX_SUMMARY_ROUNDS ==> After(c, todo, n) == sums
  {
    sums, stable := Iterate(c, todo, MAX_SUMMARY_ROUNDS);
    RoundOfIs(c, todo, sums);
    if stable { AllStable(c, todo, MAX_SUMMARY_ROUNDS, sums); }
  }

  lemma AllStable(c: Crate, todo: seq<nat>, r: nat, sums: SummaryMap)
    requires Valid(c, todo) && After(c, todo, r) == sums && Round(c, todo, sums) == sums
    ensures forall n: nat :: n >= r ==> After(c, todo, n) == sums
  {
    forall n: nat | n >= r ensures After(c, todo, n) == sums { StableStays(c, todo, r, n, sums); }
  }
}
