/**
 * Unate output variables and the reduction of guards they allow.
 *
 * An output variable x is positive unate in a state when raising x never
 * disables an outgoing edge, and negative unate when lowering it never does.
 * Such a variable can be fixed in that state: every outgoing guard g becomes
 * cofactor(g, lit) ∧ lit. Two strategies decide unateness state by state:
 * a syntactic heuristic over the guards, and an exact test that asks whether
 * the complement of the automaton intersects a probe state.
 */
module Unates {
  import opened Wrappers
  import opened Bdd
  import opened Automaton
  import opened BddUtils

  datatype UnateType = Positive | Negative

  /** The value a unate variable of this kind is fixed to. */
  function Fixed(t: UnateType): bool
  {
    t == Positive
  }

  /** The edges of a state that one resolution removed or changed, by index. */
  datatype UnateEffect = UnateEffect(impacted: set<nat>, removed: set<nat>)

  // ----- Guards, edges and the reduction -----

  /** Some edge of `es` is enabled under `a`. */
  ghost predicate SomeEdgeEnabled(es: seq<Edge>, a: Assignment)
  {
    exists i :: 0 <= i < |es| && Eval(es[i].cond, a)
  }

  /** Every guard of `es` forces variable `v` to `c`. */
  ghost predicate Forces(es: seq<Edge>, v: Var, c: bool)
  {
    forall i, a: Assignment :: 0 <= i < |es| && Eval(es[i].cond, a) ==> a(v) == c
  }

  /** Moving `v` from `!c` to `c` never disables `g`. */
  ghost predicate Monotone(g: Bdd, v: Var, c: bool)
  {
    forall a: Assignment :: Eval(g, Set(a, v, !c)) ==> Eval(g, Set(a, v, c))
  }

  /**
   * `es'` is `es` with every guard strengthened: same length, same
   * destinations and marks, and each new guard implies the old one.
   */
  ghost predicate Strengthens(es': seq<Edge>, es: seq<Edge>)
  {
    |es'| == |es| &&
    forall i :: 0 <= i < |es| ==>
      es'[i].dst == es[i].dst && es'[i].acc == es[i].acc &&
      forall a: Assignment :: Eval(es'[i].cond, a) ==> Eval(es[i].cond, a)
  }

  lemma StrengthensRefl(es: seq<Edge>)
    ensures Strengthens(es, es)
  {
  }

  lemma StrengthensTrans(es'': seq<Edge>, es': seq<Edge>, es: seq<Edge>)
    requires Strengthens(es'', es') && Strengthens(es', es)
    ensures Strengthens(es'', es)
  {
  }

  /** A strengthened guard keeps forcing what the old one forced. */
  lemma StrengthensForces(es': seq<Edge>, es: seq<Edge>, v: Var, c: bool)
    requires Strengthens(es', es) && Forces(es, v, c)
    ensures Forces(es', v, c)
  {
    forall i, a: Assignment | 0 <= i < |es'| && Eval(es'[i].cond, a) ensures a(v) == c {
      assert Eval(es[i].cond, a);
    }
  }

  /** A strengthened guard that was false stays false. */
  lemma StrengthensUnsat(es': seq<Edge>, es: seq<Edge>, i: nat)
    requires Strengthens(es', es) && i < |es| && !IsSat(es[i].cond)
    ensures !IsSat(es'[i].cond)
  {
    IsSatMeaning(es[i].cond);
    IsSatMeaning(es'[i].cond);
    if IsSat(es'[i].cond) {
      var a: Assignment :| Eval(es'[i].cond, a);
      assert Eval(es[i].cond, a);
      IsSatIntro(es[i].cond, a);
    }
  }

  /** The reduced guard cofactor(g, lit) ∧ lit of the unate reduction. */
  function Reduce(g: Bdd, v: Var, t: UnateType): Bdd
  {
    And(Restrict(g, v, Fixed(t)), Lit(v, Fixed(t)))
  }

  /** Fixing `v` in `a` to the value it already has changes nothing. */
  lemma SetSame(g: Bdd, v: Var, a: Assignment)
    ensures Eval(g, Set(a, v, a(v))) == Eval(g, a)
  {
    EvalOnSupport(g, Set(a, v, a(v)), a);
  }

  /** The reduced guard is the old guard restricted to `v = Fixed(t)`. */
  lemma ReduceMeaning(g: Bdd, v: Var, t: UnateType, a: Assignment)
    ensures Eval(Reduce(g, v, t), a) == (a(v) == Fixed(t) && Eval(g, a))
  {
    RestrictMeaning(g, v, Fixed(t), a);
    SetSame(g, v, a);
  }

  /**
   * Why the reduction is sound for a unate variable: when raising (lowering)
   * `v` never disables `g`, every letter enabling `g` still enables the
   * reduced guard once `v` is set to the fixed value.
   */
  lemma ReduceKeepsWitness(g: Bdd, v: Var, t: UnateType, a: Assignment)
    requires Monotone(g, v, Fixed(t)) && Eval(g, a)
    ensures Eval(Reduce(g, v, t), Set(a, v, Fixed(t)))
  {
    var c := Fixed(t);
    var b := Set(a, v, c);
    ReduceMeaning(g, v, t, b);
    SetSame(g, v, a);
  }

  /** The out-edges of a state after the reduction for `v` and `t`. */
  function ReduceEdges(es: seq<Edge>, v: Var, t: UnateType): (r: seq<Edge>)
    ensures |r| == |es|
  {
    seq(|es|, i requires 0 <= i < |es| => es[i].(cond := Reduce(es[i].cond, v, t)))
  }

  /** The reduction strengthens every guard and makes all of them force `v`. */
  lemma ReduceEdgesEffect(es: seq<Edge>, v: Var, t: UnateType)
    ensures Strengthens(ReduceEdges(es, v, t), es)
    ensures Forces(ReduceEdges(es, v, t), v, Fixed(t))
  {
    var r := ReduceEdges(es, v, t);
    forall i, a: Assignment | 0 <= i < |es|
      ensures Eval(r[i].cond, a) ==> Eval(es[i].cond, a) && a(v) == Fixed(t)
    {
      ReduceMeaning(es[i].cond, v, t, a);
    }
  }

  /** Indices below `n` of the edges whose reduced guard is false. */
  function RemovedBelow(es: seq<Edge>, v: Var, t: UnateType, n: nat): set<nat>
  {
    set i: nat | i < n && i < |es| && !IsSat(Reduce(es[i].cond, v, t))
  }

  /** Indices below `n` of the edges that the opposite value of `v` could take. */
  function ImpactedBelow(es: seq<Edge>, v: Var, t: UnateType, n: nat): set<nat>
  {
    set i: nat | i < n && i < |es| && CanRestrictVariable(es[i].cond, v, !Fixed(t))
  }

  /** Indices of the edges whose reduced guard is false. */
  function RemovedEdges(es: seq<Edge>, v: Var, t: UnateType): set<nat>
  {
    RemovedBelow(es, v, t, |es|)
  }

  /** Indices of the edges that the opposite value of `v` could take. */
  function ImpactedEdges(es: seq<Edge>, v: Var, t: UnateType): set<nat>
  {
    ImpactedBelow(es, v, t, |es|)
  }

  /**
   * An edge is removed exactly when it could only be taken with `v` at the
   * opposite value, and only impacted edges can be removed.
   */
  lemma RemovedEdgesMeaning(es: seq<Edge>, v: Var, t: UnateType, i: nat)
    requires i < |es|
    ensures i in RemovedEdges(es, v, t) <==> forall a: Assignment :: Eval(es[i].cond, a) ==> a(v) != Fixed(t)
    ensures IsSat(es[i].cond) && i in RemovedEdges(es, v, t) ==> i in ImpactedEdges(es, v, t)
  {
    var g := es[i].cond;
    var r := Reduce(g, v, t);
    IsSatMeaning(r);
    IsSatMeaning(g);
    CanRestrictVariableMeaning(g, v, !Fixed(t));
    if i in RemovedEdges(es, v, t) {
      forall a: Assignment | Eval(g, a) ensures a(v) != Fixed(t) {
        ReduceMeaning(g, v, t, a);
      }
      if IsSat(g) {
        var a: Assignment :| Eval(g, a);
        assert a(v) == !Fixed(t);
      }
    } else {
      var a: Assignment :| Eval(r, a);
      ReduceMeaning(g, v, t, a);
    }
  }

  /** The out-edges of a state whose first `n` guards have been reduced. */
  function PartlyReduced(es: seq<Edge>, v: Var, t: UnateType, n: nat): seq<Edge>
    requires n <= |es|
  {
    ReduceEdges(es, v, t)[..n] + es[n..]
  }

  /** Reducing the guard at `n` extends the reduced prefix by one. */
  lemma PartlyReducedStep(es: seq<Edge>, v: Var, t: UnateType, n: nat)
    requires n < |es|
    ensures PartlyReduced(es, v, t, n)[n := es[n].(cond := Reduce(es[n].cond, v, t))] == PartlyReduced(es, v, t, n + 1)
    ensures PartlyReduced(es, v, t, n)[n] == es[n]
  {
  }

  lemma BelowStep(es: seq<Edge>, v: Var, t: UnateType, n: nat)
    requires n < |es|
    ensures RemovedBelow(es, v, t, n + 1) ==
      RemovedBelow(es, v, t, n) + (if !IsSat(Reduce(es[n].cond, v, t)) then {n} else {})
    ensures ImpactedBelow(es, v, t, n + 1) ==
      ImpactedBelow(es, v, t, n) + (if CanRestrictVariable(es[n].cond, v, !Fixed(t)) then {n} else {})
  {
    var r := if !IsSat(Reduce(es[n].cond, v, t)) then {n} else {};
    forall i | i in RemovedBelow(es, v, t, n) + r ensures i in RemovedBelow(es, v, t, n + 1) {
    }
    var m := if CanRestrictVariable(es[n].cond, v, !Fixed(t)) then {n} else {};
    forall i | i in ImpactedBelow(es, v, t, n) + m ensures i in ImpactedBelow(es, v, t, n + 1) {
    }
  }

  /** Reduces the guard of edge `i` of `state` and records whether it was removed or impacted. */
  method ReduceEdgeAt(aut: Twa, state: nat, v: Var, t: UnateType, ghost es: seq<Edge>, i: nat,
                      ghost effect: UnateEffect, cur: UnateEffect)
    returns (next: UnateEffect)
    requires aut.Valid() && state < |aut.out| && i < |es|
    requires aut.out[state] == PartlyReduced(es, v, t, i)
    requires cur.removed == effect.removed + RemovedBelow(es, v, t, i)
    requires cur.impacted == effect.impacted + ImpactedBelow(es, v, t, i)
    modifies aut
    ensures aut.Valid() && aut.init == old(aut.init) && aut.aps == old(aut.aps)
    ensures aut.out == old(aut.out)[state := PartlyReduced(es, v, t, i + 1)]
    ensures next.removed == effect.removed + RemovedBelow(es, v, t, i + 1)
    ensures next.impacted == effect.impacted + ImpactedBelow(es, v, t, i + 1)
  {
    PartlyReducedStep(es, v, t, i);
    BelowStep(es, v, t, i);
    var e := aut.out[state][i];
    var isImpacted := CanRestrictVariable(e.cond, v, !Fixed(t));
    var c := Reduce(e.cond, v, t);
    aut.SetCond(state, i, c);
    next := cur;
    if !IsSat(c) {
      next := next.(removed := next.removed + {i});
    }
    if isImpacted {
      next := next.(impacted := next.impacted + {i});
    }
  }

  /**
   * Rewrites every out-edge of `state` to its reduced guard and records the
   * removed and impacted edges (the reduction of handle_unate_in_state).
   */
  method ReduceStateEdges(aut: Twa, state: nat, v: Var, t: UnateType, effect: UnateEffect)
    returns (effect': UnateEffect)
    requires aut.Valid() && state < |aut.out|
    modifies aut
    ensures aut.Valid() && aut.init == old(aut.init) && aut.aps == old(aut.aps)
    ensures aut.out == old(aut.out)[state := ReduceEdges(old(aut.out[state]), v, t)]
    ensures effect'.removed == effect.removed + RemovedEdges(old(aut.out[state]), v, t)
    ensures effect'.impacted == effect.impacted + ImpactedEdges(old(aut.out[state]), v, t)
  {
    ghost var es := aut.out[state];
    effect' := effect;
    var i := 0;
    assert PartlyReduced(es, v, t, 0) == es;
    while i < |aut.out[state]|
      invariant aut.Valid() && aut.init == old(aut.init) && aut.aps == old(aut.aps)
      invariant i <= |es|
      invariant aut.out == old(aut.out)[state := PartlyReduced(es, v, t, i)]
      invariant effect'.removed == effect.removed + RemovedBelow(es, v, t, i)
      invariant effect'.impacted == effect.impacted + ImpactedBelow(es, v, t, i)
    {
      effect' := ReduceEdgeAt(aut, state, v, t, es, i, effect, effect');
      i := i + 1;
    }
    assert PartlyReduced(es, v, t, i) == ReduceEdges(es, v, t);
  }

  // ----- The heuristic test -----

  /**
   * The sufficient condition for unateness of kind `t`: the conjunction, over
   * the edges, of β(v = !c) ⇒ β(v = c), where c is the fixed value.
   */
  function SufficientCondition(es: seq<Edge>, v: Var, t: UnateType): Bdd
    decreases |es|
  {
    if es == [] then True
    else
      var g := es[|es| - 1].cond;
      And(SufficientCondition(es[..|es| - 1], v, t), Imp(Restrict(g, v, !Fixed(t)), Restrict(g, v, Fixed(t))))
  }

  /** The disjunction, over the edges, of the cofactors β(v = c). */
  function EdgesCondition(es: seq<Edge>, v: Var, c: bool): Bdd
    decreases |es|
  {
    if es == [] then False
    else Or(EdgesCondition(es[..|es| - 1], v, c), Restrict(es[|es| - 1].cond, v, c))
  }

  /** The refutation test: some letter takes an edge with `v = !c` but none with `v = c`. */
  function Refutes(es: seq<Edge>, v: Var, t: UnateType): bool
  {
    IsSat(And(EdgesCondition(es, v, !Fixed(t)), Not(EdgesCondition(es, v, Fixed(t)))))
  }

  lemma {:induction false} SufficientConditionEval(es: seq<Edge>, v: Var, t: UnateType, a: Assignment)
    ensures Eval(SufficientCondition(es, v, t), a) <==>
      forall i :: 0 <= i < |es| ==> (Eval(es[i].cond, Set(a, v, !Fixed(t))) ==> Eval(es[i].cond, Set(a, v, Fixed(t))))
    decreases |es|
  {
    if es != [] {
      var n := |es| - 1;
      var g := es[n].cond;
      SufficientConditionEval(es[..n], v, t, a);
      RestrictMeaning(g, v, !Fixed(t), a);
      RestrictMeaning(g, v, Fixed(t), a);
      assert forall i :: 0 <= i < n ==> es[..n][i] == es[i];
    }
  }

  /** The sufficient condition is valid exactly when every guard is monotone in `v`. */
  lemma SufficientConditionMeaning(es: seq<Edge>, v: Var, t: UnateType)
    ensures IsValid(SufficientCondition(es, v, t)) <==> forall i :: 0 <= i < |es| ==> Monotone(es[i].cond, v, Fixed(t))
  {
    var sc := SufficientCondition(es, v, t);
    IsValidMeaning(sc);
    if IsValid(sc) {
      forall i, a: Assignment | 0 <= i < |es| && Eval(es[i].cond, Set(a, v, !Fixed(t)))
        ensures Eval(es[i].cond, Set(a, v, Fixed(t)))
      {
        SufficientConditionEval(es, v, t, a);
      }
    } else {
      var a: Assignment :| !Eval(sc, a);
      SufficientConditionEval(es, v, t, a);
      var i :| 0 <= i < |es| && Eval(es[i].cond, Set(a, v, !Fixed(t))) && !Eval(es[i].cond, Set(a, v, Fixed(t)));
      assert !Monotone(es[i].cond, v, Fixed(t));
    }
  }

  /** The disjunction of the cofactors holds when some edge is enabled with `v = c`. */
  lemma {:induction false} EdgesConditionMeaning(es: seq<Edge>, v: Var, c: bool, a: Assignment)
    ensures Eval(EdgesCondition(es, v, c), a) == SomeEdgeEnabled(es, Set(a, v, c))
    decreases |es|
  {
    if es != [] {
      var n := |es| - 1;
      EdgesConditionMeaning(es[..n], v, c, a);
      RestrictMeaning(es[n].cond, v, c, a);
      if SomeEdgeEnabled(es, Set(a, v, c)) {
        var i :| 0 <= i < |es| && Eval(es[i].cond, Set(a, v, c));
        if i < n {
          assert es[..n][i] == es[i];
        }
      }
      if SomeEdgeEnabled(es[..n], Set(a, v, c)) {
        var i :| 0 <= i < n && Eval(es[..n][i].cond, Set(a, v, c));
        assert es[..n][i] == es[i];
      }
    }
  }

  /** Under `a`, the state can move with `v = !c` but not with `v = c`. */
  ghost predicate RefutedAt(es: seq<Edge>, v: Var, c: bool, a: Assignment)
  {
    SomeEdgeEnabled(es, Set(a, v, !c)) && !SomeEdgeEnabled(es, Set(a, v, c))
  }

  /**
   * A refutation exhibits a letter under which the state can move with `v`
   * at the opposite value but not with `v` at the fixed one, so the state's
   * guards together are not unate of that kind.
   */
  lemma RefutesMeaning(es: seq<Edge>, v: Var, t: UnateType)
    ensures Refutes(es, v, t) <==> exists a: Assignment :: RefutedAt(es, v, Fixed(t), a)
  {
    var c := Fixed(t);
    var b := And(EdgesCondition(es, v, !c), Not(EdgesCondition(es, v, c)));
    if Refutes(es, v, t) {
      IsSatMeaning(b);
      var a: Assignment :| Eval(b, a);
      EdgesConditionMeaning(es, v, c, a);
      EdgesConditionMeaning(es, v, !c, a);
      assert RefutedAt(es, v, c, a);
    }
    if a: Assignment :| RefutedAt(es, v, c, a) {
      EdgesConditionMeaning(es, v, c, a);
      EdgesConditionMeaning(es, v, !c, a);
      IsSatIntro(b, a);
    }
  }

  /** The two tests never contradict each other: a valid sufficient condition rules out a refutation. */
  lemma SufficientExcludesRefutation(es: seq<Edge>, v: Var, t: UnateType)
    requires IsValid(SufficientCondition(es, v, t))
    ensures !Refutes(es, v, t)
  {
    SufficientConditionMeaning(es, v, t);
    RefutesMeaning(es, v, t);
    forall a: Assignment ensures !RefutedAt(es, v, Fixed(t), a) {
      if SomeEdgeEnabled(es, Set(a, v, !Fixed(t))) {
        var i :| 0 <= i < |es| && Eval(es[i].cond, Set(a, v, !Fixed(t)));
        assert Monotone(es[i].cond, v, Fixed(t));
        assert Eval(es[i].cond, Set(a, v, Fixed(t)));
      }
    }
  }

  /** The accumulation loop over a state's out-edges in the heuristic. */
  method EdgeConditions(es: seq<Edge>, v: Var) returns (posSuff: Bdd, negSuff: Bdd, posEdges: Bdd, negEdges: Bdd)
    ensures posSuff == SufficientCondition(es, v, Positive) && negSuff == SufficientCondition(es, v, Negative)
    ensures posEdges == EdgesCondition(es, v, true) && negEdges == EdgesCondition(es, v, false)
  {
    posSuff, negSuff, posEdges, negEdges := True, True, False, False;
    var i := 0;
    while i < |es|
      invariant i <= |es|
      invariant posSuff == SufficientCondition(es[..i], v, Positive) && negSuff == SufficientCondition(es[..i], v, Negative)
      invariant posEdges == EdgesCondition(es[..i], v, true) && negEdges == EdgesCondition(es[..i], v, false)
    {
      var edgePositive := Restrict(es[i].cond, v, true);
      var edgeNegative := Restrict(es[i].cond, v, false);
      posSuff := And(posSuff, Imp(edgeNegative, edgePositive));
      negSuff := And(negSuff, Imp(edgePositive, edgeNegative));
      posEdges := Or(posEdges, edgePositive);
      negEdges := Or(negEdges, edgeNegative);
      assert es[..i + 1][..i] == es[..i];
      i := i + 1;
    }
    assert es[..i] == es;
  }

  // ----- The purge after all states are resolved -----

  /** No edge of the graph is labelled false. */
  predicate NoFalseEdges(g: AutValue)
  {
    forall s, i :: 0 <= s < |g.out| && 0 <= i < |g.out[s]| ==> IsSat(g.out[s][i].cond)
  }

  /**
   * The contract assumed of the library's dead-state purge: it keeps graphs
   * well formed and leaves no edge labelled false.
   */
  ghost predicate PurgeContract(purge: AutValue -> AutValue)
  {
    forall g: AutValue :: WellFormed(g.out, g.init) ==> WellFormed(purge(g).out, purge(g).init) && NoFalseEdges(purge(g))
  }

  /** The effect of one state's resolution: the graph before the purge. */
  ghost predicate ResolvedFrom(resolved: seq<seq<Edge>>, original: seq<seq<Edge>>)
  {
    |resolved| == |original| &&
    forall s :: 0 <= s < |original| ==> Strengthens(resolved[s], original[s])
  }

  /** The states before `state` are strengthened and the others untouched. */
  ghost predicate ResolvedUpTo(out: seq<seq<Edge>>, original: seq<seq<Edge>>, state: nat)
  {
    |out| == |original| && state <= |out| &&
    (forall s :: state <= s < |out| ==> out[s] == original[s]) &&
    (forall s :: 0 <= s < state ==> Strengthens(out[s], original[s]))
  }

  /** Every name of `xs` is numbered in `vars` and forced to `c` by the edges `es`. */
  ghost predicate ForcesAll(es: seq<Edge>, vars: map<string, Var>, xs: seq<string>, c: bool)
  {
    forall x :: x in xs ==> x in vars && Forces(es, vars[x], c)
  }

  /** Numbering more names keeps the named variables forced. */
  lemma ForcesAllKept(es: seq<Edge>, vars0: map<string, Var>, vars: map<string, Var>, xs: seq<string>, c: bool)
    requires ForcesAll(es, vars0, xs, c) && KeepsEntries(vars0, vars)
    ensures ForcesAll(es, vars, xs, c)
  {
  }

  /** Resolving the state at `i` leaves the graph before every `k <= i` as it was. */
  lemma PrefixKept(out: seq<seq<Edge>>, out': seq<seq<Edge>>, i: nat, k: nat)
    requires |out'| == |out| && k <= i < |out|
    requires forall s :: 0 <= s < |out| && s != i ==> out'[s] == out[s]
    ensures out'[..k] == out[..k]
  {
    assert forall s :: 0 <= s < k ==> out'[..k][s] == out[..k][s];
  }

  // ----- The heuristic strategy -----

  /** The variables in the lists of the heuristic worklist, with multiplicity. */
  function Pool(untested: seq<string>, unknown: seq<string>, positive: seq<string>, negative: seq<string>,
                notPositive: seq<string>, notNegative: seq<string>): multiset<string>
  {
    multiset(untested) + multiset(unknown) + multiset(positive) + multiset(negative) +
    multiset(notPositive) + multiset(notNegative)
  }

  /** Each move of a tested variable `x` keeps the pool of the worklist. */
  lemma WorklistMoves(u: seq<string>, x: string, k: seq<string>, p: seq<string>, n: seq<string>,
                      np: seq<string>, nn: seq<string>, m: multiset<string>)
    requires Pool(u + [x], k, p, n, np, nn) == m
    ensures Pool(u + k, [], p + [x], n, np, nn) == m
    ensures Pool(u + k, [], p, n + [x], np, nn) == m
    ensures Pool(u, k, p, n, np + [x], nn) == m
    ensures Pool(u, k, p, n, np, nn + [x]) == m
    ensures Pool(u, k + [x], p, n, np, nn) == m
  {
    var rest := multiset(p) + multiset(n) + multiset(np) + multiset(nn);
    assert m == multiset(u) + multiset{x} + multiset(k) + rest by {
      assert multiset(u + [x]) == multiset(u) + multiset{x};
    }
    assert multiset(u + k) == multiset(u) + multiset(k);
    PoolToPositive(u, x, k, p, n, np, nn);
    PoolToNegative(u, x, k, p, n, np, nn);
    PoolToNotPositive(u, x, k, p, n, np, nn);
    PoolToNotNegative(u, x, k, p, n, np, nn);
    PoolToUnknown(u, x, k, p, n, np, nn);
  }

  /** Fixing `x` as positive unate re-queues the unknowns and adds `x` to the positives. */
  lemma PoolToPositive(u: seq<string>, x: string, k: seq<string>, p: seq<string>, n: seq<string>,
                       np: seq<string>, nn: seq<string>)
    ensures Pool(u + k, [], p + [x], n, np, nn) ==
      multiset(u) + multiset(k) + multiset(p) + multiset(n) + multiset(np) + multiset(nn) + multiset{x}
  {
    assert multiset(u + k) == multiset(u) + multiset(k);
    assert multiset(p + [x]) == multiset(p) + multiset{x};
  }

  /** Fixing `x` as negative unate re-queues the unknowns and adds `x` to the negatives. */
  lemma PoolToNegative(u: seq<string>, x: string, k: seq<string>, p: seq<string>, n: seq<string>,
                       np: seq<string>, nn: seq<string>)
    ensures Pool(u + k, [], p, n + [x], np, nn) ==
      multiset(u) + multiset(k) + multiset(p) + multiset(n) + multiset(np) + multiset(nn) + multiset{x}
  {
    assert multiset(u + k) == multiset(u) + multiset(k);
    assert multiset(n + [x]) == multiset(n) + multiset{x};
  }

  /** Refuting positive unateness adds `x` to the not-positive list. */
  lemma PoolToNotPositive(u: seq<string>, x: string, k: seq<string>, p: seq<string>, n: seq<string>,
                          np: seq<string>, nn: seq<string>)
    ensures Pool(u, k, p, n, np + [x], nn) ==
      multiset(u) + multiset(k) + multiset(p) + multiset(n) + multiset(np) + multiset(nn) + multiset{x}
  {
    assert multiset(np + [x]) == multiset(np) + multiset{x};
  }

  /** Refuting negative unateness adds `x` to the not-negative list. */
  lemma PoolToNotNegative(u: seq<string>, x: string, k: seq<string>, p: seq<string>, n: seq<string>,
                          np: seq<string>, nn: seq<string>)
    ensures Pool(u, k, p, n, np, nn + [x]) ==
      multiset(u) + multiset(k) + multiset(p) + multiset(n) + multiset(np) + multiset(nn) + multiset{x}
  {
    assert multiset(nn + [x]) == multiset(nn) + multiset{x};
  }

  /** An undecided `x` joins the unknowns. */
  lemma PoolToUnknown(u: seq<string>, x: string, k: seq<string>, p: seq<string>, n: seq<string>,
                      np: seq<string>, nn: seq<string>)
    ensures Pool(u, k + [x], p, n, np, nn) ==
      multiset(u) + multiset(k) + multiset(p) + multiset(n) + multiset(np) + multiset(nn) + multiset{x}
  {
    assert multiset(k + [x]) == multiset(k) + multiset{x};
  }

  /** The outcome of testing one variable in one state. */
  datatype Verdict = PositiveUnate | NegativeUnate | NotPositive | NotNegative | Unknown

  /** The lists the heuristic worklist leaves for one state. */
  datatype HeuristicOutcome = HeuristicOutcome(positive: seq<string>, negative: seq<string>,
                                               notPositive: seq<string>, notNegative: seq<string>,
                                               unknown: seq<string>)

  /**
   * What the heuristic worklist promises of one state with out-edges `es`:
   * the outputs are split among the five lists, and every variable in the
   * positive (negative) list is forced to 1 (0) by the edges.
   */
  ghost predicate HeuristicResolved(es: seq<Edge>, vars: map<string, Var>, outputs: seq<string>, r: HeuristicOutcome)
  {
    multiset(r.positive + r.negative + r.notPositive + r.notNegative + r.unknown) == multiset(outputs) &&
    ForcesAll(es, vars, r.positive, true) && ForcesAll(es, vars, r.negative, false)
  }

  /** Unate resolution that decides from the guards of a state alone. */
  class HandleUnatesByHeuristic {
    const automaton: Twa
    /** The output variables of the synthesis instance. */
    const outputs: seq<string>

    ghost predicate Valid()
      reads this, automaton, automaton.dict
    {
      automaton.Valid() && automaton.dict.Valid()
    }

    constructor (aut: Twa, outs: seq<string>)
      ensures automaton == aut && outputs == outs
    {
      automaton := aut;
      outputs := outs;
    }

    /**
     * Fixes `v` in `state` (the reduction rule of handle_unate_in_state,
     * applied to the automaton itself).
     */
    method HandleUnateInState(state: nat, v: Var, t: UnateType, effect: UnateEffect) returns (effect': UnateEffect)
      requires Valid() && state < |automaton.out|
      requires forall i :: i in effect.removed ==> i < |automaton.out[state]| && !IsSat(automaton.out[state][i].cond)
      requires forall i :: i in effect.impacted ==> i < |automaton.out[state]|
      modifies automaton
      ensures Valid() && automaton.init == old(automaton.init) && automaton.aps == old(automaton.aps)
      ensures automaton.out == old(automaton.out)[state := ReduceEdges(old(automaton.out[state]), v, t)]
      ensures Strengthens(automaton.out[state], old(automaton.out[state]))
      ensures Forces(automaton.out[state], v, Fixed(t))
      ensures forall i :: i in effect'.removed ==> i < |automaton.out[state]| && !IsSat(automaton.out[state][i].cond)
      ensures forall i :: i in effect'.impacted ==> i < |automaton.out[state]|
    {
      ghost var es := automaton.out[state];
      effect' := ReduceStateEdges(automaton, state, v, t, effect);
      ReduceEdgesEffect(es, v, t);
      forall i | i in effect'.removed ensures i < |automaton.out[state]| && !IsSat(automaton.out[state][i].cond) {
        if i in effect.removed {
          StrengthensUnsat(automaton.out[state], es, i);
        }
      }
    }

    /** Every variable of `xs` is numbered and forced to `c` by the guards of `state`. */
    ghost predicate Fixes(state: nat, xs: seq<string>, c: bool)
      reads this, automaton, automaton.dict
      requires state < |automaton.out|
    {
      ForcesAll(automaton.out[state], automaton.dict.vars, xs, c)
    }

    /** What the worklist of one state keeps: only `state` changes, and only by strengthening. */
    ghost predicate Progress(state: nat, out0: seq<seq<Edge>>, init0: nat,
                             positive: seq<string>, negative: seq<string>, effect: UnateEffect)
      reads this, automaton, automaton.dict
    {
      Valid() && state < |out0| && |automaton.out| == |out0| && automaton.init == init0 &&
      (forall s :: 0 <= s < |out0| && s != state ==> automaton.out[s] == out0[s]) &&
      Strengthens(automaton.out[state], out0[state]) &&
      Fixes(state, positive, true) && Fixes(state, negative, false) &&
      (forall i :: i in effect.removed ==> i < |automaton.out[state]| && !IsSat(automaton.out[state][i].cond)) &&
      (forall i :: i in effect.impacted ==> i < |automaton.out[state]|)
    }

    /** Numbers the tested variable; numbering a name changes no guard and no other number. */
    method RegisterTested(state: nat, x: string, ghost out0: seq<seq<Edge>>, ghost init0: nat,
                          ghost positive: seq<string>, ghost negative: seq<string>, ghost effect: UnateEffect)
      returns (v: Var)
      requires Progress(state, out0, init0, positive, negative, effect)
      modifies automaton, automaton.dict
      ensures Progress(state, out0, init0, positive, negative, effect)
      ensures automaton.out == old(automaton.out) && x in automaton.dict.vars && v == automaton.dict.vars[x]
      ensures KeepsEntries(old(automaton.dict.vars), automaton.dict.vars)
    {
      ghost var vars0 := automaton.dict.vars;
      v := automaton.RegisterAp(x);
      assert Fixes(state, positive, true) && Fixes(state, negative, false) by {
        assert forall y :: y in vars0 ==> y in automaton.dict.vars && automaton.dict.vars[y] == vars0[y];
      }
    }

    /**
     * Tests output `x` in `state`: the positive sufficient condition first,
     * then the negative one, fixing `x` on success; otherwise the two
     * refutations in turn.
     */
    method TestVariable(state: nat, x: string, ghost out0: seq<seq<Edge>>, ghost init0: nat,
                        ghost positive: seq<string>, ghost negative: seq<string>, effect: UnateEffect)
      returns (verdict: Verdict, effect': UnateEffect)
      requires Progress(state, out0, init0, positive, negative, effect)
      modifies automaton, automaton.dict
      ensures verdict == PositiveUnate ==> Progress(state, out0, init0, positive + [x], negative, effect')
      ensures verdict == NegativeUnate ==> Progress(state, out0, init0, positive, negative + [x], effect')
      ensures verdict != PositiveUnate && verdict != NegativeUnate ==> Progress(state, out0, init0, positive, negative, effect')
      ensures x in automaton.dict.vars && KeepsEntries(old(automaton.dict.vars), automaton.dict.vars)
      ensures var v, es := automaton.dict.vars[x], old(automaton.out[state]);
        verdict ==
          if IsValid(SufficientCondition(es, v, Positive)) then PositiveUnate
          else if IsValid(SufficientCondition(es, v, Negative)) then NegativeUnate
          else if Refutes(es, v, Positive) then NotPositive
          else if Refutes(es, v, Negative) then NotNegative
          else Unknown
    {
      var v := RegisterTested(state, x, out0, init0, positive, negative, effect);
      var posSuff, negSuff, posEdges, negEdges := EdgeConditions(automaton.out[state], v);
      effect' := effect;
      if IsValid(posSuff) {
        effect' := FixTested(state, x, v, Positive, out0, init0, positive, negative, effect);
        verdict := PositiveUnate;
      } else if IsValid(negSuff) {
        effect' := FixTested(state, x, v, Negative, out0, init0, positive, negative, effect);
        verdict := NegativeUnate;
      } else if IsSat(And(negEdges, Not(posEdges))) {
        verdict := NotPositive;
      } else if IsSat(And(posEdges, Not(negEdges))) {
        verdict := NotNegative;
      } else {
        verdict := Unknown;
      }
    }

    /** Fixes the tested variable `x` (numbered `v`) and files it with the variables of its kind. */
    method FixTested(state: nat, x: string, v: Var, t: UnateType, ghost out0: seq<seq<Edge>>, ghost init0: nat,
                     ghost positive: seq<string>, ghost negative: seq<string>, effect: UnateEffect)
      returns (effect': UnateEffect)
      requires Progress(state, out0, init0, positive, negative, effect)
      requires x in automaton.dict.vars && v == automaton.dict.vars[x]
      modifies automaton
      ensures Progress(state, out0, init0, if t == Positive then positive + [x] else positive,
                       if t == Negative then negative + [x] else negative, effect')
    {
      ghost var es := automaton.out[state];
      effect' := Fix(state, v, t, effect, positive, negative);
      StrengthensTrans(automaton.out[state], es, out0[state]);
    }

    /**
     * Classifies every output variable in `state`: unate variables are fixed
     * at once and send the undecided ones back to the worklist; the rest are
     * refuted for one polarity or left unknown.
     */
    method ResolveUnatesInState(state: nat)
      returns (positive: seq<string>, negative: seq<string>, notPositive: seq<string>,
               notNegative: seq<string>, unknown: seq<string>, effect: UnateEffect)
      requires Valid() && state < |automaton.out|
      modifies automaton, automaton.dict
      ensures Valid()
      ensures |automaton.out| == old(|automaton.out|) && automaton.init == old(automaton.init)
      ensures forall s :: 0 <= s < |automaton.out| && s != state ==> automaton.out[s] == old(automaton.out[s])
      ensures Strengthens(automaton.out[state], old(automaton.out[state]))
      ensures multiset(positive + negative + notPositive + notNegative + unknown) == multiset(outputs)
      ensures Fixes(state, positive, true) && Fixes(state, negative, false)
      ensures forall i :: i in effect.removed ==> i < |automaton.out[state]| && !IsSat(automaton.out[state][i].cond)
      ensures KeepsEntries(old(automaton.dict.vars), automaton.dict.vars)
    {
      ghost var out0 := automaton.out;
      var untested := outputs;
      positive, negative, notPositive, notNegative, unknown := [], [], [], [], [];
      effect := UnateEffect({}, {});
      StrengthensRefl(automaton.out[state]);
      while untested != []
        invariant Progress(state, out0, old(automaton.init), positive, negative, effect)
        invariant Pool(untested, unknown, positive, negative, notPositive, notNegative) == multiset(outputs)
        invariant KeepsEntries(old(automaton.dict.vars), automaton.dict.vars)
        decreases |untested| + |unknown|, |untested|
      {
        var x := untested[|untested| - 1];
        assert untested == untested[..|untested| - 1] + [x];
        untested := untested[..|untested| - 1];
        var verdict;
        verdict, effect := TestVariable(state, x, out0, old(automaton.init), positive, negative, effect);
        WorklistMoves(untested, x, unknown, positive, negative, notPositive, notNegative, multiset(outputs));
        match verdict
        case PositiveUnate =>
          positive := positive + [x];
          untested := untested + unknown;
          unknown := [];
        case NegativeUnate =>
          negative := negative + [x];
          untested := untested + unknown;
          unknown := [];
        case NotPositive =>
          notPositive := notPositive + [x];
        case NotNegative =>
          notNegative := notNegative + [x];
        case Unknown =>
          unknown := unknown + [x];
      }
      assert multiset(positive + negative + notPositive + notNegative + unknown) ==
        Pool([], unknown, positive, negative, notPositive, notNegative);
    }

    /** One unate resolution inside the worklist, keeping the variables fixed so far fixed. */
    method Fix(state: nat, v: Var, t: UnateType, effect: UnateEffect, ghost positive: seq<string>, ghost negative: seq<string>)
      returns (effect': UnateEffect)
      requires Valid() && state < |automaton.out|
      requires forall i :: i in effect.removed ==> i < |automaton.out[state]| && !IsSat(automaton.out[state][i].cond)
      requires forall i :: i in effect.impacted ==> i < |automaton.out[state]|
      requires Fixes(state, positive, true) && Fixes(state, negative, false)
      modifies automaton
      ensures Valid() && automaton.init == old(automaton.init)
      ensures automaton.out == old(automaton.out)[state := ReduceEdges(old(automaton.out[state]), v, t)]
      ensures Strengthens(automaton.out[state], old(automaton.out[state]))
      ensures forall i :: i in effect'.removed ==> i < |automaton.out[state]| && !IsSat(automaton.out[state][i].cond)
      ensures forall i :: i in effect'.impacted ==> i < |automaton.out[state]|
      ensures Fixes(state, positive, true) && Fixes(state, negative, false)
      ensures Forces(automaton.out[state], v, Fixed(t))
    {
      ghost var es := automaton.out[state];
      effect' := HandleUnateInState(state, v, t, effect);
      forall x | x in positive ensures Forces(automaton.out[state], automaton.dict.vars[x], true) {
        StrengthensForces(automaton.out[state], es, automaton.dict.vars[x], true);
      }
      forall x | x in negative ensures Forces(automaton.out[state], automaton.dict.vars[x], false) {
        StrengthensForces(automaton.out[state], es, automaton.dict.vars[x], false);
      }
    }

    /** Resolves `state`, the first state not resolved yet, and returns its lists. */
    method ResolveNext(state: nat, ghost out0: seq<seq<Edge>>, ghost init0: nat) returns (r: HeuristicOutcome)
      requires Valid() && automaton.init == init0 && state < |automaton.out|
      requires ResolvedUpTo(automaton.out, out0, state)
      modifies automaton, automaton.dict
      ensures Valid() && automaton.init == init0
      ensures ResolvedUpTo(automaton.out, out0, state + 1)
      ensures forall s :: 0 <= s < |automaton.out| && s != state ==> automaton.out[s] == old(automaton.out[s])
      ensures KeepsEntries(old(automaton.dict.vars), automaton.dict.vars)
      ensures HeuristicResolved(automaton.out[state], automaton.dict.vars, outputs, r)
    {
      ghost var before := automaton.out;
      var positive, negative, notPositive, notNegative, unknown, _ := ResolveUnatesInState(state);
      r := HeuristicOutcome(positive, negative, notPositive, notNegative, unknown);
      assert forall s :: 0 <= s < |before| && s != state ==> automaton.out[s] == before[s];
    }

    /**
     * Resolves every state once, in increasing order, then purges the
     * automaton and reports its size.
     */
    method Run(purge: AutValue -> AutValue)
      returns (totalStates: nat, totalEdges: nat, ghost resolved: AutValue, ghost outcomes: seq<HeuristicOutcome>)
      requires Valid() && PurgeContract(purge)
      modifies automaton, automaton.dict
      ensures Valid()
      ensures ResolvedFrom(resolved.out, old(automaton.out)) && resolved.init == old(automaton.init)
      ensures |outcomes| == |resolved.out| &&
        forall s :: 0 <= s < |outcomes| ==> HeuristicResolved(resolved.out[s], automaton.dict.vars, outputs, outcomes[s])
      ensures automaton.Value() == purge(resolved) && NoFalseEdges(automaton.Value())
      ensures totalStates == |automaton.out| && totalEdges == EdgeCount(automaton.out)
    {
      outcomes := [];
      var state := 0;
      while state < |automaton.out|
        invariant Valid() && automaton.init == old(automaton.init)
        invariant ResolvedUpTo(automaton.out, old(automaton.out), state)
        invariant |outcomes| == state &&
          forall s :: 0 <= s < state ==> HeuristicResolved(automaton.out[s], automaton.dict.vars, outputs, outcomes[s])
      {
        ghost var out1, vars1 := automaton.out, automaton.dict.vars;
        var r := ResolveNext(state, old(automaton.out), old(automaton.init));
        forall s | 0 <= s < state
          ensures HeuristicResolved(automaton.out[s], automaton.dict.vars, outputs, outcomes[s])
        {
          ForcesAllKept(out1[s], vars1, automaton.dict.vars, outcomes[s].positive, true);
          ForcesAllKept(out1[s], vars1, automaton.dict.vars, outcomes[s].negative, false);
        }
        outcomes := outcomes + [r];
        state := state + 1;
      }
      assert ResolvedFrom(automaton.out, old(automaton.out));
      resolved := automaton.Value();
      automaton.PurgeDeadStates(purge);
      totalStates := |automaton.out|;
      totalEdges := EdgeCount(automaton.out);
    }
  }

  // ----- The exact strategy -----

  /** The complement's budget, as a multiple of the automaton's states and edges. */
  const ComplementMaximalMultiplier: nat := 5

  /** The guard of a probe edge: cofactor(g, v = !c) ∧ (v = c). */
  function ProbeCond(g: Bdd, v: Var, t: UnateType): Bdd
  {
    And(Restrict(g, v, !Fixed(t)), Lit(v, Fixed(t)))
  }

  /** The probe guard reads `g` with `v` flipped, on letters where `v` has the fixed value. */
  lemma ProbeCondMeaning(g: Bdd, v: Var, t: UnateType, a: Assignment)
    ensures Eval(ProbeCond(g, v, t), a) == (a(v) == Fixed(t) && Eval(g, Set(a, v, !Fixed(t))))
  {
    RestrictMeaning(g, v, !Fixed(t), a);
  }

  /** Some edge of a concatenation is enabled iff some edge of one of its parts is. */
  lemma EnabledAppend(xs: seq<Edge>, ys: seq<Edge>, a: Assignment)
    ensures SomeEdgeEnabled(xs + ys, a) == (SomeEdgeEnabled(xs, a) || SomeEdgeEnabled(ys, a))
  {
    if SomeEdgeEnabled(xs + ys, a) {
      var j :| 0 <= j < |xs + ys| && Eval((xs + ys)[j].cond, a);
      if j >= |xs| {
        assert ys[j - |xs|] == (xs + ys)[j];
      }
    }
    if SomeEdgeEnabled(xs, a) {
      var j :| 0 <= j < |xs| && Eval(xs[j].cond, a);
      assert (xs + ys)[j] == xs[j];
    }
    if SomeEdgeEnabled(ys, a) {
      var j :| 0 <= j < |ys| && Eval(ys[j].cond, a);
      assert (xs + ys)[|xs| + j] == ys[j];
    }
  }

  /** Some edge is enabled iff one before the last is, or the last one is. */
  lemma EnabledSnoc(es: seq<Edge>, a: Assignment)
    requires es != []
    ensures SomeEdgeEnabled(es, a) == (SomeEdgeEnabled(es[..|es| - 1], a) || Eval(es[|es| - 1].cond, a))
  {
    assert es == es[..|es| - 1] + [es[|es| - 1]];
    EnabledAppend(es[..|es| - 1], [es[|es| - 1]], a);
  }

  /** The out-edges of the probe state: one per edge of `es` whose probe guard is not false. */
  function Probe(es: seq<Edge>, v: Var, t: UnateType): (r: seq<Edge>)
    ensures |r| <= |es|
    decreases |es|
  {
    if es == [] then []
    else
      var e := es[|es| - 1];
      var c := ProbeCond(e.cond, v, t);
      Probe(es[..|es| - 1], v, t) + (if IsSat(c) then [Edge(e.dst, c, e.acc)] else [])
  }

  lemma ProbeStep(es: seq<Edge>, i: nat, v: Var, t: UnateType)
    requires i < |es|
    ensures var c := ProbeCond(es[i].cond, v, t);
      Probe(es[..i + 1], v, t) == if IsSat(c) then Probe(es[..i], v, t) + [Edge(es[i].dst, c, es[i].acc)] else Probe(es[..i], v, t)
  {
    assert es[..i + 1][..i] == es[..i];
    assert Probe(es[..i], v, t) + [] == Probe(es[..i], v, t);
  }

  /** Writes into the emptied state `p` of `g` the probe edges of `es`, one edge at a time. */
  method WriteProbe(g: Twa, p: nat, es: seq<Edge>, v: Var, t: UnateType)
    requires g.Valid() && p < |g.out| && g.out[p] == []
    requires forall i :: 0 <= i < |es| ==> es[i].dst < |g.out|
    modifies g
    ensures g.Valid() && g.out == old(g.out)[p := Probe(es, v, t)]
    ensures g.init == old(g.init) && g.aps == old(g.aps)
  {
    var i := 0;
    while i < |es|
      invariant g.Valid() && i <= |es| && g.init == old(g.init) && g.aps == old(g.aps)
      invariant g.out == old(g.out)[p := Probe(es[..i], v, t)]
    {
      var cond := ProbeCond(es[i].cond, v, t);
      ProbeStep(es, i, v, t);
      if IsSat(cond) {
        ghost var before := g.out;
        g.NewEdge(p, es[i].dst, cond, es[i].acc);
        assert g.out[p] == Probe(es[..i + 1], v, t);
        assert g.out == before[p := Probe(es[..i + 1], v, t)];
      }
      i := i + 1;
    }
    assert es[..i] == es;
  }

  /** The probe automaton: the prime copy with `es`'s probe edges leaving its initial state `p`. */
  function ProbeAutomaton(primeOut: seq<seq<Edge>>, p: nat, es: seq<Edge>, v: Var, t: UnateType): AutValue
    requires p < |primeOut|
  {
    AutValue(primeOut[p := Probe(es, v, t)], p)
  }

  /**
   * The probe state moves on exactly the letters that give `v` the fixed
   * value and on which the tested state moves once `v` is flipped.
   */
  lemma {:induction false} ProbeMeaning(es: seq<Edge>, v: Var, t: UnateType, a: Assignment)
    ensures SomeEdgeEnabled(Probe(es, v, t), a) == (a(v) == Fixed(t) && SomeEdgeEnabled(es, Set(a, v, !Fixed(t))))
    decreases |es|
  {
    if es != [] {
      var n := |es| - 1;
      var e := es[n];
      var c := ProbeCond(e.cond, v, t);
      var tail := if IsSat(c) then [Edge(e.dst, c, e.acc)] else [];
      assert Probe(es, v, t) == Probe(es[..n], v, t) + tail;
      EnabledAppend(Probe(es[..n], v, t), tail, a);
      EnabledSnoc(es, Set(a, v, !Fixed(t)));
      ProbeMeaning(es[..n], v, t, a);
      ProbeCondMeaning(e.cond, v, t, a);
      if !IsSat(c) {
        IsSatMeaning(c);
      } else {
        assert SomeEdgeEnabled(tail, a) == Eval(c, a) by {
          assert tail[0].cond == c;
        }
      }
    }
  }

  /** Every probe edge comes from the edge at some index `i` of the tested state. */
  ghost predicate ProbeOf(es: seq<Edge>, v: Var, t: UnateType, e: Edge)
  {
    exists i :: 0 <= i < |es| && e == Edge(es[i].dst, ProbeCond(es[i].cond, v, t), es[i].acc)
  }

  lemma {:induction false} ProbeOrigin(es: seq<Edge>, v: Var, t: UnateType)
    ensures forall j :: 0 <= j < |Probe(es, v, t)| ==> ProbeOf(es, v, t, Probe(es, v, t)[j]) && IsSat(Probe(es, v, t)[j].cond)
    decreases |es|
  {
    if es != [] {
      var n := |es| - 1;
      var r := Probe(es, v, t);
      var front := Probe(es[..n], v, t);
      ProbeOrigin(es[..n], v, t);
      forall j | 0 <= j < |r| ensures ProbeOf(es, v, t, r[j]) && IsSat(r[j].cond) {
        if j < |front| {
          assert r[j] == front[j];
          var i :| 0 <= i < n && front[j] == Edge(es[..n][i].dst, ProbeCond(es[..n][i].cond, v, t), es[..n][i].acc);
          assert es[..n][i] == es[i];
        } else {
          assert r[j] == Edge(es[n].dst, ProbeCond(es[n].cond, v, t), es[n].acc);
        }
      }
    }
  }

  /**
   * When every guard of the state is monotone towards the fixed value, each
   * probe edge is matched, on the same letter, by an edge of the state with
   * the same destination and marks: the probe adds no behaviour, so the
   * complement cannot intersect it.
   */
  lemma ProbeWithinState(es: seq<Edge>, v: Var, t: UnateType, j: nat, a: Assignment)
    requires forall i :: 0 <= i < |es| ==> Monotone(es[i].cond, v, Fixed(t))
    requires j < |Probe(es, v, t)| && Eval(Probe(es, v, t)[j].cond, a)
    ensures exists i :: (0 <= i < |es| && es[i].dst == Probe(es, v, t)[j].dst && es[i].acc == Probe(es, v, t)[j].acc &&
                         Eval(es[i].cond, a))
  {
    var e := Probe(es, v, t)[j];
    ProbeOrigin(es, v, t);
    var i :| 0 <= i < |es| && e == Edge(es[i].dst, ProbeCond(es[i].cond, v, t), es[i].acc);
    ProbeCondMeaning(es[i].cond, v, t, a);
    assert Monotone(es[i].cond, v, Fixed(t));
    SetSame(es[i].cond, v, a);
  }

  /**
   * One test of the complement worklist: the output `name`, its variable
   * `v`, the out-edges of the tested state and the probe copy at the time
   * of the test, and the verdict the test returned.
   */
  datatype ProbeTest = ProbeTest(name: string, v: Var, edges: seq<Edge>, copy: seq<seq<Edge>>, verdict: Option<UnateType>)

  /** The lists the complement worklist leaves for one state, and whether the complement was built. */
  datatype ComplementOutcome = ComplementOutcome(completed: bool, positive: seq<string>, negative: seq<string>,
                                                 notUnate: seq<string>)

  /** The names of the tests of `log` with verdict `verdict`, in the order tested. */
  function Named(log: seq<ProbeTest>, verdict: Option<UnateType>): seq<string>
  {
    if log == [] then []
    else Named(log[..|log| - 1], verdict) + (if log[|log| - 1].verdict == verdict then [log[|log| - 1].name] else [])
  }

  /** The tests of `log` after its last fixing test. */
  function SinceFix(log: seq<ProbeTest>): seq<ProbeTest>
  {
    if log == [] || log[|log| - 1].verdict.Some? then []
    else SinceFix(log[..|log| - 1]) + [log[|log| - 1]]
  }

  /**
   * The verdict of `t` is the one the two intersection tests give: positive
   * when the complement misses the positive probe, otherwise negative when
   * it misses the negative probe, otherwise none.
   */
  ghost predicate Judged(intersects: (AutValue, AutValue) -> bool, comp: AutValue, p: nat, t: ProbeTest)
  {
    p < |t.copy| &&
    t.verdict ==
      if !intersects(comp, ProbeAutomaton(t.copy, p, t.edges, t.v, Positive)) then Some(Positive)
      else if !intersects(comp, ProbeAutomaton(t.copy, p, t.edges, t.v, Negative)) then Some(Negative)
      else None
  }

  /**
   * What the worklist's lists mean in terms of its tests: every test is
   * judged, its variable is still the name's number, the positive and the
   * negative lists are the names with those verdicts, and the not-unate list
   * is the names tested since the last fix, all against the edges `es` the
   * state has now.
   */
  ghost predicate Logged(intersects: (AutValue, AutValue) -> bool, comp: AutValue, p: nat, vars: map<string, Var>,
                         es: seq<Edge>, log: seq<ProbeTest>, positive: seq<string>, negative: seq<string>,
                         notUnate: seq<string>)
  {
    AllJudged(intersects, comp, p, log) && AllNumbered(vars, log) &&
    positive == Named(log, Some(Positive)) && negative == Named(log, Some(Negative)) &&
    notUnate == Named(SinceFix(log), None) && AllAgainst(SinceFix(log), es)
  }

  ghost predicate AllJudged(intersects: (AutValue, AutValue) -> bool, comp: AutValue, p: nat, log: seq<ProbeTest>)
  {
    forall k :: 0 <= k < |log| ==> Judged(intersects, comp, p, log[k])
  }

  /** Each tested name still has the variable it was tested as. */
  ghost predicate AllNumbered(vars: map<string, Var>, log: seq<ProbeTest>)
  {
    forall k :: 0 <= k < |log| ==> log[k].name in vars && vars[log[k].name] == log[k].v
  }

  /** Every test of `log` probed the edges `es`. */
  ghost predicate AllAgainst(log: seq<ProbeTest>, es: seq<Edge>)
  {
    forall k :: 0 <= k < |log| ==> log[k].edges == es
  }

  lemma NamedSnoc(log: seq<ProbeTest>, t: ProbeTest, verdict: Option<UnateType>)
    ensures Named(log + [t], verdict) == Named(log, verdict) + (if t.verdict == verdict then [t.name] else [])
  {
    assert (log + [t])[..|log|] == log;
  }

  lemma SinceFixSnoc(log: seq<ProbeTest>, t: ProbeTest)
    ensures SinceFix(log + [t]) == if t.verdict.Some? then [] else SinceFix(log) + [t]
  {
    assert (log + [t])[..|log|] == log;
  }

  /** Appending a judged test keeps the lists logged. */
  lemma LoggedSnoc(intersects: (AutValue, AutValue) -> bool, comp: AutValue, p: nat, vars: map<string, Var>,
                   vars': map<string, Var>, es: seq<Edge>, es': seq<Edge>, log: seq<ProbeTest>,
                   positive: seq<string>, negative: seq<string>, notUnate: seq<string>, t: ProbeTest)
    requires Logged(intersects, comp, p, vars, es, log, positive, negative, notUnate)
    requires forall y :: y in vars ==> y in vars' && vars'[y] == vars[y]
    requires t.name in vars' && vars'[t.name] == t.v && Judged(intersects, comp, p, t)
    requires t.verdict == None ==> es' == es && t.edges == es
    ensures Logged(intersects, comp, p, vars', es', log + [t],
                   positive + (if t.verdict == Some(Positive) then [t.name] else []),
                   negative + (if t.verdict == Some(Negative) then [t.name] else []),
                   if t.verdict == None then notUnate + [t.name] else [])
  {
    AllJudgedSnoc(intersects, comp, p, log, t);
    AllNumberedSnoc(vars, vars', log, t);
    NamedSnoc(log, t, Some(Positive));
    NamedSnoc(log, t, Some(Negative));
    SinceFixSnoc(log, t);
    if t.verdict == None {
      NamedSnoc(SinceFix(log), t, None);
      AllAgainstSnoc(SinceFix(log), t, es);
    }
  }

  lemma AllJudgedSnoc(intersects: (AutValue, AutValue) -> bool, comp: AutValue, p: nat, log: seq<ProbeTest>, t: ProbeTest)
    requires AllJudged(intersects, comp, p, log) && Judged(intersects, comp, p, t)
    ensures AllJudged(intersects, comp, p, log + [t])
  {
    assert forall k :: 0 <= k < |log| ==> (log + [t])[k] == log[k];
  }

  lemma AllNumberedSnoc(vars: map<string, Var>, vars': map<string, Var>, log: seq<ProbeTest>, t: ProbeTest)
    requires AllNumbered(vars, log) && t.name in vars' && vars'[t.name] == t.v
    requires forall y :: y in vars ==> y in vars' && vars'[y] == vars[y]
    ensures AllNumbered(vars', log + [t])
  {
    assert forall k :: 0 <= k < |log| ==> (log + [t])[k] == log[k];
  }

  /** Every test of `log` ran its probe inside the graph `g`: the copy's states below `p` are `g`'s. */
  ghost predicate AllWithin(log: seq<ProbeTest>, p: nat, g: seq<seq<Edge>>)
  {
    forall k :: 0 <= k < |log| ==> p <= |log[k].copy| && log[k].copy[..p] == g
  }

  lemma AllWithinSnoc(log: seq<ProbeTest>, p: nat, g: seq<seq<Edge>>, t: ProbeTest)
    requires AllWithin(log, p, g) && p <= |t.copy| && t.copy[..p] == g
    ensures AllWithin(log + [t], p, g)
  {
    assert forall k :: 0 <= k < |log| ==> (log + [t])[k] == log[k];
  }

  /** Numbering more names keeps every test of the log numbered. */
  lemma AllNumberedKept(vars0: map<string, Var>, vars: map<string, Var>, log: seq<ProbeTest>)
    requires AllNumbered(vars0, log) && KeepsEntries(vars0, vars)
    ensures AllNumbered(vars, log)
  {
  }

  lemma AllAgainstSnoc(log: seq<ProbeTest>, t: ProbeTest, es: seq<Edge>)
    requires AllAgainst(log, es) && t.edges == es
    ensures AllAgainst(log + [t], es)
  {
    assert forall k :: 0 <= k < |log| ==> (log + [t])[k] == log[k];
  }

  /** Unate resolution by complementation and an intersection test against a probe state. */
  class HandleUnatesByComplement {
    const automaton: Twa
    /** The output variables of the synthesis instance. */
    const outputs: seq<string>
    /** A copy of the automaton whose initial state is moved to the state under test. */
    const base: Twa
    /** A copy of the automaton with one more state, the probe, as its initial state. */
    const prime: Twa
    const primeInitState: nat
    const originalInitState: nat
    const originalTotalEdges: nat
    /** The complement of the specification, built from its negated formula. */
    const negation: AutValue
    /** The library's complementation within a state and edge budget; None once the budget is exceeded. */
    const complement: (AutValue, nat, nat) -> Option<AutValue>
    /** The library's test whether two automata accept a common word. */
    const intersects: (AutValue, AutValue) -> bool
    /** The automaton's edges when the copies were made; the prime copy keeps them outside its probe state. */
    ghost const clone: seq<seq<Edge>>

    /** The three automata share one dictionary; the copy tracks the automaton's guards. */
    ghost predicate Ready()
      reads this, automaton, base, prime, automaton.dict
    {
      automaton != base && automaton != prime && base != prime &&
      base.dict == automaton.dict && prime.dict == automaton.dict && automaton.dict.Valid() &&
      automaton.Valid() && base.Valid() && prime.Valid() &&
      base.out == automaton.out &&
      |prime.out| == |automaton.out| + 1 && primeInitState == |automaton.out| && prime.init == primeInitState &&
      prime.out[..primeInitState] == clone
    }

    ghost predicate Valid()
      reads this, automaton, base, prime, automaton.dict
    {
      Ready() && base.init == originalInitState
    }

    constructor (aut: Twa, outs: seq<string>, negated: AutValue,
                 complementOracle: (AutValue, nat, nat) -> Option<AutValue>,
                 intersectsOracle: (AutValue, AutValue) -> bool)
      requires aut.Valid() && aut.dict.Valid()
      ensures Valid() && automaton == aut && outputs == outs
      ensures originalInitState == aut.init && originalTotalEdges == EdgeCount(aut.out)
      ensures negation == negated && complement == complementOracle && intersects == intersectsOracle
      ensures base.out == aut.out && prime.out == aut.out + [[]] && clone == aut.out
      ensures fresh(base) && fresh(prime)
    {
      clone := aut.out;
      automaton := aut;
      outputs := outs;
      negation := negated;
      complement := complementOracle;
      intersects := intersectsOracle;
      base := new Twa(aut.dict, aut.out, aut.init, aut.aps);
      originalInitState := aut.init;
      originalTotalEdges := EdgeCount(aut.out);
      var p := new Twa(aut.dict, aut.out, aut.init, aut.aps);
      var s := p.NewState();
      p.SetInitState(s);
      prime := p;
      primeInitState := s;
      assert p.out[..s] == aut.out;
    }

    /**
     * The complement the test of `state` works against when the graph is
     * `g`: the negated specification at the original initial state, else the
     * library's complement of `g` started at `state`, None when it exceeds
     * its budget.
     */
    ghost function ComplementAt(g: seq<seq<Edge>>, state: nat): Option<AutValue>
    {
      if state == originalInitState then Some(negation)
      else complement(AutValue(g, state), |g| * ComplementMaximalMultiplier,
                      originalTotalEdges * ComplementMaximalMultiplier)
    }

    /**
     * What the complement worklist promises of `state`, tested in the graph
     * `g` and left with out-edges `es`: it completed iff the complement was
     * built; if not, nothing changed and nothing was classified; if so, the
     * outputs are split among the three lists, whose verdicts `log` records
     * against that complement, each probe placed in the unreduced graph the
     * copies were made from. The positive (negative) variables are forced
     * to 1 (0) by `es`.
     */
    ghost predicate ComplementResolved(g: seq<seq<Edge>>, state: nat, es: seq<Edge>, vars: map<string, Var>,
                                       r: ComplementOutcome, log: seq<ProbeTest>)
    {
      state < |g| &&
      r.completed == ComplementAt(g, state).Some? &&
      (!r.completed ==> es == g[state] && r.positive == [] && r.negative == [] && r.notUnate == []) &&
      (r.completed ==> multiset(r.positive + r.negative + r.notUnate) == multiset(outputs) &&
                       Logged(intersects, ComplementAt(g, state).value, primeInitState, vars, es, log,
                              r.positive, r.negative, r.notUnate)) &&
      AllWithin(log, primeInitState, clone) &&
      ForcesAll(es, vars, r.positive, true) && ForcesAll(es, vars, r.negative, false)
    }

    /** Numbering more names keeps a resolved state resolved. */
    lemma ComplementResolvedKept(g: seq<seq<Edge>>, state: nat, es: seq<Edge>, vars0: map<string, Var>,
                                 vars: map<string, Var>, r: ComplementOutcome, log: seq<ProbeTest>)
      requires ComplementResolved(g, state, es, vars0, r, log) && KeepsEntries(vars0, vars)
      ensures ComplementResolved(g, state, es, vars, r, log)
    {
      ForcesAllKept(es, vars0, vars, r.positive, true);
      ForcesAllKept(es, vars0, vars, r.negative, false);
      if r.completed {
        AllNumberedKept(vars0, vars, log);
      }
    }

    /**
     * Rebuilds the probe state from the out-edges of `state` and asks whether
     * the complement misses the probe automaton.
     */
    method IsVarUnateInState(state: nat, v: Var, comp: AutValue, t: UnateType) returns (isUnate: bool)
      requires Ready() && state < |base.out|
      modifies prime
      ensures Ready() && prime.aps == old(prime.aps)
      ensures prime.out == old(prime.out)[primeInitState := Probe(base.out[state], v, t)]
      ensures isUnate == !intersects(comp, ProbeAutomaton(old(prime.out), primeInitState, base.out[state], v, t))
    {
      prime.KillState(primeInitState);
      WriteProbe(prime, primeInitState, base.out[state], v, t);
      isUnate := !intersects(comp, prime.Value());
    }

    /** Fixes `v` in `state`, in the copy (recording the effect) and in the automaton itself. */
    method HandleUnateInState(state: nat, v: Var, t: UnateType, effect: UnateEffect) returns (effect': UnateEffect)
      requires Ready() && state < |base.out|
      modifies base, automaton
      ensures Ready() && base.init == old(base.init) && automaton.init == old(automaton.init)
      ensures automaton.out == old(automaton.out)[state := ReduceEdges(old(automaton.out[state]), v, t)]
      ensures effect'.removed == effect.removed + RemovedEdges(old(base.out[state]), v, t)
      ensures effect'.impacted == effect.impacted + ImpactedEdges(old(base.out[state]), v, t)
    {
      effect' := ReduceStateEdges(base, state, v, t, effect);
      var _ := ReduceStateEdges(automaton, state, v, t, effect);
    }

    /** Every variable of `xs` is numbered and forced to `c` by the guards of `state`. */
    ghost predicate Fixes(state: nat, xs: seq<string>, c: bool)
      reads this, automaton, automaton.dict
      requires state < |automaton.out|
    {
      ForcesAll(automaton.out[state], automaton.dict.vars, xs, c)
    }

    /** What the worklist of one state keeps: only `state` changes, and only by strengthening. */
    ghost predicate Progress(state: nat, out0: seq<seq<Edge>>, init0: nat, positive: seq<string>, negative: seq<string>)
      reads this, automaton, base, prime, automaton.dict
    {
      Ready() && base.init == state && state < |out0| && |automaton.out| == |out0| && automaton.init == init0 &&
      (forall s :: 0 <= s < |out0| && s != state ==> automaton.out[s] == out0[s]) &&
      Strengthens(automaton.out[state], out0[state]) &&
      Fixes(state, positive, true) && Fixes(state, negative, false)
    }

    /** One unate resolution inside the worklist, keeping the variables fixed so far fixed. */
    method Fix(state: nat, v: Var, t: UnateType, effect: UnateEffect, ghost out0: seq<seq<Edge>>, ghost init0: nat,
               ghost positive: seq<string>, ghost negative: seq<string>)
      returns (effect': UnateEffect)
      requires Progress(state, out0, init0, positive, negative)
      modifies base, automaton
      ensures Progress(state, out0, init0, positive, negative)
      ensures Forces(automaton.out[state], v, Fixed(t))
      ensures automaton.dict.vars == old(automaton.dict.vars)
    {
      ghost var es := automaton.out[state];
      effect' := HandleUnateInState(state, v, t, effect);
      ReduceEdgesEffect(es, v, t);
      StrengthensTrans(automaton.out[state], es, out0[state]);
      forall x | x in positive ensures Forces(automaton.out[state], automaton.dict.vars[x], true) {
        StrengthensForces(automaton.out[state], es, automaton.dict.vars[x], true);
      }
      forall x | x in negative ensures Forces(automaton.out[state], automaton.dict.vars[x], false) {
        StrengthensForces(automaton.out[state], es, automaton.dict.vars[x], false);
      }
    }

    /** Numbers the tested variable; numbering a name changes no guard and no other number. */
    method RegisterTested(state: nat, x: string, ghost out0: seq<seq<Edge>>, ghost init0: nat,
                          ghost positive: seq<string>, ghost negative: seq<string>)
      returns (v: Var)
      requires Progress(state, out0, init0, positive, negative)
      modifies base, automaton.dict
      ensures Progress(state, out0, init0, positive, negative)
      ensures base.out == old(base.out) && prime.out == old(prime.out)
      ensures x in automaton.dict.vars && v == automaton.dict.vars[x]
      ensures forall y :: y in old(automaton.dict.vars) ==> y in automaton.dict.vars && automaton.dict.vars[y] == old(automaton.dict.vars)[y]
    {
      ghost var vars0 := automaton.dict.vars;
      v := base.RegisterAp(x);
      assert Fixes(state, positive, true) && Fixes(state, negative, false) by {
        assert forall y :: y in vars0 ==> y in automaton.dict.vars && automaton.dict.vars[y] == vars0[y];
      }
    }

    /**
     * Tests output `x` in `state` against the complement `comp`: positive
     * first, then negative, fixing `x` at the first success.
     */
    method TestVariable(state: nat, x: string, comp: AutValue, effect: UnateEffect, ghost out0: seq<seq<Edge>>,
                        ghost init0: nat, ghost positive: seq<string>, ghost negative: seq<string>)
      returns (verdict: Option<UnateType>, effect': UnateEffect)
      requires Progress(state, out0, init0, positive, negative)
      modifies base, prime, automaton, automaton.dict
      ensures verdict == Some(Positive) ==> Progress(state, out0, init0, positive + [x], negative)
      ensures verdict == Some(Negative) ==> Progress(state, out0, init0, positive, negative + [x])
      ensures verdict == None ==> Progress(state, out0, init0, positive, negative) && automaton.out == old(automaton.out)
      ensures x in automaton.dict.vars
      ensures forall y :: y in old(automaton.dict.vars) ==> y in automaton.dict.vars && automaton.dict.vars[y] == old(automaton.dict.vars)[y]
      ensures var v := automaton.dict.vars[x];
        var es := old(base.out[state]);
        verdict ==
          if !intersects(comp, ProbeAutomaton(old(prime.out), primeInitState, es, v, Positive)) then Some(Positive)
          else if !intersects(comp, ProbeAutomaton(old(prime.out), primeInitState, es, v, Negative)) then Some(Negative)
          else None
    {
      ghost var prime0 := prime.out;
      var v := RegisterTested(state, x, out0, init0, positive, negative);
      effect' := effect;
      var isPositive := IsVarUnateInState(state, v, comp, Positive);
      if isPositive {
        effect' := Fix(state, v, Positive, effect, out0, init0, positive, negative);
        verdict := Some(Positive);
      } else {
        assert prime.out[primeInitState := Probe(base.out[state], v, Negative)] ==
          prime0[primeInitState := Probe(base.out[state], v, Negative)];
        var isNegative := IsVarUnateInState(state, v, comp, Negative);
        if isNegative {
          effect' := Fix(state, v, Negative, effect, out0, init0, positive, negative);
          verdict := Some(Negative);
        } else {
          verdict := None;
        }
      }
    }

    /** The worklist over the output variables of `state`, with the complement `comp` fixed. */
    method TestAll(state: nat, comp: AutValue, ghost out0: seq<seq<Edge>>, ghost init0: nat)
      returns (positive: seq<string>, negative: seq<string>, notUnate: seq<string>, ghost log: seq<ProbeTest>)
      requires Progress(state, out0, init0, [], [])
      modifies base, prime, automaton, automaton.dict
      ensures Progress(state, out0, init0, positive, negative)
      ensures multiset(positive + negative + notUnate) == multiset(outputs)
      ensures Logged(intersects, comp, primeInitState, automaton.dict.vars, automaton.out[state], log, positive, negative, notUnate)
      ensures KeepsEntries(old(automaton.dict.vars), automaton.dict.vars)
      ensures AllWithin(log, primeInitState, clone)
    {
      positive, negative, notUnate, log := [], [], [], [];
      var untested := outputs;
      var effect := UnateEffect({}, {});
      while untested != []
        invariant Progress(state, out0, init0, positive, negative)
        invariant Pool(untested, notUnate, positive, negative, [], []) == multiset(outputs)
        invariant Logged(intersects, comp, primeInitState, automaton.dict.vars, automaton.out[state], log, positive, negative, notUnate)
        invariant KeepsEntries(old(automaton.dict.vars), automaton.dict.vars)
        invariant AllWithin(log, primeInitState, clone)
        decreases |untested| + |notUnate|, |untested|
      {
        untested, notUnate, positive, negative, effect, log :=
          TestLast(state, comp, effect, out0, init0, untested, notUnate, positive, negative, log);
      }
      assert multiset(positive + negative + notUnate) == Pool([], notUnate, positive, negative, [], []);
    }

    /**
     * One round of the worklist: tests the last untested variable; a fixed
     * variable sends the not-unate ones back to be tested again.
     */
    method TestLast(state: nat, comp: AutValue, effect: UnateEffect, ghost out0: seq<seq<Edge>>, ghost init0: nat,
                    untested: seq<string>, notUnate: seq<string>, positive: seq<string>, negative: seq<string>,
                    ghost log: seq<ProbeTest>)
      returns (untested': seq<string>, notUnate': seq<string>, positive': seq<string>, negative': seq<string>,
               effect': UnateEffect, ghost log': seq<ProbeTest>)
      requires untested != [] && Progress(state, out0, init0, positive, negative)
      requires Pool(untested, notUnate, positive, negative, [], []) == multiset(outputs)
      requires Logged(intersects, comp, primeInitState, automaton.dict.vars, automaton.out[state], log, positive, negative, notUnate)
      requires AllWithin(log, primeInitState, clone)
      modifies base, prime, automaton, automaton.dict
      ensures Progress(state, out0, init0, positive', negative')
      ensures Logged(intersects, comp, primeInitState, automaton.dict.vars, automaton.out[state], log', positive', negative', notUnate')
      ensures Pool(untested', notUnate', positive', negative', [], []) == multiset(outputs)
      ensures KeepsEntries(old(automaton.dict.vars), automaton.dict.vars)
      ensures AllWithin(log', primeInitState, clone)
      ensures |untested'| + |notUnate'| < |untested| + |notUnate| ||
        (|untested'| + |notUnate'| == |untested| + |notUnate| && |untested'| < |untested|)
    {
      var x := untested[|untested| - 1];
      var rest := untested[..|untested| - 1];
      assert untested == rest + [x];
      WorklistMoves(rest, x, notUnate, positive, negative, [], [], multiset(outputs));
      ghost var vars, es, copy := automaton.dict.vars, automaton.out[state], prime.out;
      var verdict;
      verdict, effect' := TestVariable(state, x, comp, effect, out0, init0, positive, negative);
      ghost var t := ProbeTest(x, automaton.dict.vars[x], es, copy, verdict);
      LoggedSnoc(intersects, comp, primeInitState, vars, automaton.dict.vars, es, automaton.out[state], log,
                 positive, negative, notUnate, t);
      AllWithinSnoc(log, primeInitState, clone, t);
      log' := log + [t];
      match verdict
      case Some(Positive) =>
        untested', notUnate', positive', negative' := rest + notUnate, [], positive + [x], negative;
      case Some(Negative) =>
        untested', notUnate', positive', negative' := rest + notUnate, [], positive, negative + [x];
      case None =>
        untested', notUnate', positive', negative' := rest, notUnate + [x], positive, negative;
    }

    /**
     * Resolves the output variables of `state` against the complement of the
     * automaton started there. When the complement exceeds its budget nothing
     * is tested and nothing changes; in every case the copy's initial state
     * is restored and the probe state emptied.
     */
    method ResolveUnatesInState(state: nat)
      returns (completed: bool, positive: seq<string>, negative: seq<string>, notUnate: seq<string>,
               ghost log: seq<ProbeTest>)
      requires Valid() && state < |automaton.out|
      modifies base, prime, automaton, automaton.dict
      ensures Valid() && prime.out[primeInitState] == []
      ensures completed == (state == originalInitState ||
        complement(AutValue(old(base.out), state), old(|base.out|) * ComplementMaximalMultiplier,
                   originalTotalEdges * ComplementMaximalMultiplier).Some?)
      ensures !completed ==> automaton.out == old(automaton.out) && positive == [] && negative == [] && notUnate == []
      ensures |automaton.out| == old(|automaton.out|) && automaton.init == old(automaton.init)
      ensures forall s :: 0 <= s < |automaton.out| && s != state ==> automaton.out[s] == old(automaton.out[s])
      ensures Strengthens(automaton.out[state], old(automaton.out[state]))
      ensures completed ==> multiset(positive + negative + notUnate) == multiset(outputs)
      ensures Fixes(state, positive, true) && Fixes(state, negative, false)
      ensures completed ==>
        var comp := if state == originalInitState then negation
          else complement(AutValue(old(base.out), state), old(|base.out|) * ComplementMaximalMultiplier,
                          originalTotalEdges * ComplementMaximalMultiplier).value;
        Logged(intersects, comp, primeInitState, automaton.dict.vars, automaton.out[state], log, positive, negative, notUnate)
      ensures KeepsEntries(old(automaton.dict.vars), automaton.dict.vars)
      ensures AllWithin(log, primeInitState, clone)
    {
      ghost var out0 := automaton.out;
      log := [];
      positive, negative, notUnate := [], [], [];
      StrengthensRefl(automaton.out[state]);
      base.SetInitState(state);
      var comp: AutValue;
      if state == originalInitState {
        comp := negation;
      } else {
        var r := complement(base.Value(), |base.out| * ComplementMaximalMultiplier,
                            originalTotalEdges * ComplementMaximalMultiplier);
        if r.None? {
          base.SetInitState(originalInitState);
          prime.KillState(primeInitState);
          return false, [], [], [], [];
        }
        comp := r.value;
      }
      completed := true;
      positive, negative, notUnate, log := TestAll(state, comp, out0, old(automaton.init));
      base.SetInitState(originalInitState);
      prime.KillState(primeInitState);
    }

    /** Resolves `state`, the first state not resolved yet, and returns its lists and log. */
    method ResolveNext(state: nat, ghost out0: seq<seq<Edge>>, ghost init0: nat)
      returns (r: ComplementOutcome, ghost log: seq<ProbeTest>)
      requires Valid() && automaton.init == init0 && state < |automaton.out|
      requires ResolvedUpTo(automaton.out, out0, state)
      modifies base, prime, automaton, automaton.dict
      ensures Valid() && automaton.init == init0
      ensures ResolvedUpTo(automaton.out, out0, state + 1)
      ensures forall s :: 0 <= s < |automaton.out| && s != state ==> automaton.out[s] == old(automaton.out[s])
      ensures KeepsEntries(old(automaton.dict.vars), automaton.dict.vars)
      ensures ComplementResolved(old(automaton.out), state, automaton.out[state], automaton.dict.vars, r, log)
    {
      ghost var before := automaton.out;
      var completed, positive, negative, notUnate;
      completed, positive, negative, notUnate, log := ResolveUnatesInState(state);
      r := ComplementOutcome(completed, positive, negative, notUnate);
      assert forall s :: 0 <= s < |before| && s != state ==> automaton.out[s] == before[s];
    }

    /**
     * Resolves every state once, in increasing order, then purges the
     * automaton and reports its size.
     */
    method Run(purge: AutValue -> AutValue)
      returns (totalStates: nat, totalEdges: nat, ghost resolved: AutValue, ghost outcomes: seq<ComplementOutcome>,
               ghost logs: seq<seq<ProbeTest>>)
      requires Valid() && PurgeContract(purge)
      modifies base, prime, automaton, automaton.dict
      ensures automaton.Valid()
      ensures ResolvedFrom(resolved.out, old(automaton.out)) && resolved.init == old(automaton.init)
      ensures |outcomes| == |logs| == |resolved.out| &&
        forall s :: 0 <= s < |outcomes| ==>
          ComplementResolved(resolved.out[..s] + old(automaton.out)[s..], s, resolved.out[s], automaton.dict.vars,
                             outcomes[s], logs[s])
      ensures automaton.Value() == purge(resolved) && NoFalseEdges(automaton.Value())
      ensures totalStates == |automaton.out| && totalEdges == EdgeCount(automaton.out)
    {
      outcomes, logs := [], [];
      var state := 0;
      while state < |automaton.out|
        invariant Valid() && automaton.init == old(automaton.init)
        invariant ResolvedUpTo(automaton.out, old(automaton.out), state)
        invariant |outcomes| == |logs| == state &&
          forall s :: 0 <= s < state ==>
            ComplementResolved(automaton.out[..s] + old(automaton.out)[s..], s, automaton.out[s], automaton.dict.vars,
                               outcomes[s], logs[s])
      {
        ghost var out1, vars1 := automaton.out, automaton.dict.vars;
        assert out1 == out1[..state] + old(automaton.out)[state..];
        var r, log := ResolveNext(state, old(automaton.out), old(automaton.init));
        forall s | 0 <= s < state
          ensures ComplementResolved(automaton.out[..s] + old(automaton.out)[s..], s, automaton.out[s],
                                     automaton.dict.vars, outcomes[s], logs[s])
        {
          PrefixKept(out1, automaton.out, state, s);
          ComplementResolvedKept(out1[..s] + old(automaton.out)[s..], s, out1[s], vars1, automaton.dict.vars,
                                 outcomes[s], logs[s]);
        }
        PrefixKept(out1, automaton.out, state, state);
        outcomes, logs := outcomes + [r], logs + [log];
        state := state + 1;
      }
      assert ResolvedFrom(automaton.out, old(automaton.out));
      resolved := automaton.Value();
      automaton.PurgeDeadStates(purge);
      totalStates := |automaton.out|;
      totalEdges := EdgeCount(automaton.out);
    }
  }
}
