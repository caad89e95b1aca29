/**
 * Compiling the dependent variables into an and-inverter graph.
 *
 * The graph has one latch per automaton state, the input and independent
 * propositions as inputs and the dependent propositions as outputs. A
 * latch's next value is "some edge into its state fires from an active
 * state" over the automaton without the dependent variables; an output is
 * "some edge of the automaton with the dependent variables is active and
 * its guard, with this output set to 1, can still be met by the other
 * dependent variables" (the partial implementation of the guard).
 *
 * Gates are modelled as formulas: the graph library's node numbering and
 * structural hashing are not part of the model, only what each gate
 * computes from the inputs and the latches.
 */
module Synthesiser {
  import opened Bdd
  import opened Automaton

  /** A gate of the graph, as the formula it computes. */
  datatype Gate =
    | Const(value: bool)
      /** The input that carries BDD variable `v`. */
    | InputVar(v: Var)
      /** The current value of the latch of state `s`. */
    | LatchVar(s: nat)
      /** The gate the library builds for a guard over the inputs. */
    | Guard(b: Bdd)
    | Neg(g: Gate)
    | Conj(gs: seq<Gate>)
    | Disj(gs: seq<Gate>)

  function EvalGate(g: Gate, inputs: Assignment, latches: nat -> bool): bool
  {
    match g
    case Const(c) => c
    case InputVar(v) => inputs(v)
    case LatchVar(s) => latches(s)
    case Guard(b) => Eval(b, inputs)
    case Neg(h) => !EvalGate(h, inputs, latches)
    case Conj(gs) => forall h :: h in gs ==> EvalGate(h, inputs, latches)
    case Disj(gs) => exists h :: h in gs && EvalGate(h, inputs, latches)
  }

  /** The graph under construction: named inputs and outputs, one latch per state. */
  class Aig {
    const inputs: seq<string>
    const outputs: seq<string>
    const numLatches: nat
    var nextLatches: map<nat, Gate>
    var outputGates: map<nat, Gate>

    constructor (ins: seq<string>, outs: seq<string>, n: nat)
      ensures inputs == ins && outputs == outs && numLatches == n
      ensures nextLatches == map[] && outputGates == map[]
    {
      inputs := ins;
      outputs := outs;
      numLatches := n;
      nextLatches := map[];
      outputGates := map[];
    }

    method SetNextLatch(s: nat, g: Gate)
      requires s < numLatches
      modifies this
      ensures nextLatches == old(nextLatches)[s := g] && outputGates == old(outputGates)
    {
      nextLatches := nextLatches[s := g];
    }

    method SetOutput(k: nat, g: Gate)
      requires k < |outputs|
      modifies this
      ensures outputGates == old(outputGates)[k := g] && nextLatches == old(nextLatches)
    {
      outputGates := outputGates[k := g];
    }
  }

  // ---------------------------------------------------------------------
  // Transitions, listed state by state and, within a state, edge by edge.

  datatype Transition = Transition(src: nat, dst: nat, cond: Bdd)

  function StateTransitions(s: nat, es: seq<Edge>): (r: seq<Transition>)
    ensures |r| == |es|
  {
    seq(|es|, i requires 0 <= i < |es| => Transition(s, es[i].dst, es[i].cond))
  }

  /** The transitions leaving the first `n` states. */
  function Transitions(out: seq<seq<Edge>>, n: nat): seq<Transition>
    requires n <= |out|
  {
    if n == 0 then [] else Transitions(out, n - 1) + StateTransitions(n - 1, out[n - 1])
  }

  /** A transition is listed exactly when it is an edge of one of the first `n` states. */
  lemma {:induction false} TransitionsMeaning(out: seq<seq<Edge>>, n: nat, t: Transition)
    requires n <= |out|
    ensures t in Transitions(out, n) <==>
      exists s, i :: 0 <= s < n && 0 <= i < |out[s]| && t == Transition(s, out[s][i].dst, out[s][i].cond)
  {
    if n > 0 {
      TransitionsMeaning(out, n - 1, t);
      var es := out[n - 1];
      if t in StateTransitions(n - 1, es) {
        var i :| 0 <= i < |es| && StateTransitions(n - 1, es)[i] == t;
        assert t == Transition(n - 1, out[n - 1][i].dst, out[n - 1][i].cond);
      }
      if exists s, i :: 0 <= s < n && 0 <= i < |out[s]| && t == Transition(s, out[s][i].dst, out[s][i].cond) {
        var s, i :| 0 <= s < n && 0 <= i < |out[s]| && t == Transition(s, out[s][i].dst, out[s][i].cond);
        if s == n - 1 {
          assert StateTransitions(n - 1, es)[i] == t;
        }
      }
    }
  }

  /** The transitions of `ts` that enter `d`, in order. */
  function Into(ts: seq<Transition>, d: nat): (r: seq<Transition>)
  {
    if ts == [] then []
    else Into(ts[..|ts| - 1], d) + (if ts[|ts| - 1].dst == d then [ts[|ts| - 1]] else [])
  }

  /** `Into` keeps exactly the transitions of `ts` entering `d`. */
  lemma {:induction false} IntoMeaning(ts: seq<Transition>, d: nat, t: Transition)
    ensures t in Into(ts, d) <==> t in ts && t.dst == d
  {
    if ts != [] {
      var init := ts[..|ts| - 1];
      IntoMeaning(init, d, t);
      assert ts == init + [ts[|ts| - 1]];
    }
  }

  lemma IntoSnoc(ts: seq<Transition>, t: Transition, d: nat)
    ensures Into(ts + [t], d) == Into(ts, d) + (if t.dst == d then [t] else [])
  {
    assert (ts + [t])[..|ts|] == ts;
  }

  // ---------------------------------------------------------------------
  // Next-state functions of the latches.

  /** The term contributed by one transition: its source is active and its guard holds. */
  function LatchTerm(t: Transition): Gate
  {
    Conj([LatchVar(t.src), Guard(t.cond)])
  }

  function LatchTerms(ts: seq<Transition>): (r: seq<Gate>)
    ensures |r| == |ts|
  {
    seq(|ts|, k requires 0 <= k < |ts| => LatchTerm(ts[k]))
  }

  /** The next-state gate built from the transitions entering one state. */
  function NextLatch(ts: seq<Transition>): Gate
  {
    if ts == [] then Const(false)
    else if |ts| == 1 then LatchTerm(ts[0])
    else Disj(LatchTerms(ts))
  }

  /** The next-state gate of the latch of state `d`. */
  function NextLatchOf(out: seq<seq<Edge>>, d: nat): Gate
  {
    NextLatch(Into(Transitions(out, |out|), d))
  }

  lemma ConjEval(p: Gate, q: Gate, inputs: Assignment, latches: nat -> bool)
    ensures EvalGate(Conj([p, q]), inputs, latches) == (EvalGate(p, inputs, latches) && EvalGate(q, inputs, latches))
  {
    assert p in [p, q] && q in [p, q];
  }

  lemma NextLatchEval(ts: seq<Transition>, inputs: Assignment, latches: nat -> bool)
    ensures EvalGate(NextLatch(ts), inputs, latches) <==>
      exists t :: t in ts && latches(t.src) && Eval(t.cond, inputs)
  {
    forall t | t in ts
      ensures EvalGate(LatchTerm(t), inputs, latches) == (latches(t.src) && Eval(t.cond, inputs))
    {
      ConjEval(LatchVar(t.src), Guard(t.cond), inputs, latches);
    }
    if |ts| == 1 {
      assert ts[0] in ts;
    } else if |ts| > 1 {
      var gs := LatchTerms(ts);
      if EvalGate(Disj(gs), inputs, latches) {
        var h :| h in gs && EvalGate(h, inputs, latches);
        var k :| 0 <= k < |gs| && gs[k] == h;
        assert ts[k] in ts && latches(ts[k].src) && Eval(ts[k].cond, inputs);
      }
      if exists t :: t in ts && latches(t.src) && Eval(t.cond, inputs) {
        var t :| t in ts && latches(t.src) && Eval(t.cond, inputs);
        var k :| 0 <= k < |ts| && ts[k] == t;
        assert gs[k] in gs && EvalGate(gs[k], inputs, latches);
      }
    }
  }

  /**
   * The latch of `d` is set next exactly when some edge into `d` leaves an
   * active state under a guard the inputs satisfy.
   */
  lemma NextLatchMeaning(out: seq<seq<Edge>>, d: nat, inputs: Assignment, latches: nat -> bool)
    ensures EvalGate(NextLatchOf(out, d), inputs, latches) <==>
      exists s, i :: 0 <= s < |out| && 0 <= i < |out[s]| && out[s][i].dst == d &&
        latches(s) && Eval(out[s][i].cond, inputs)
  {
    var all := Transitions(out, |out|);
    var ts := Into(all, d);
    NextLatchEval(ts, inputs, latches);
    if EvalGate(NextLatchOf(out, d), inputs, latches) {
      var t :| t in ts && latches(t.src) && Eval(t.cond, inputs);
      IntoMeaning(all, d, t);
      TransitionsMeaning(out, |out|, t);
      var s, i :| 0 <= s < |out| && 0 <= i < |out[s]| && t == Transition(s, out[s][i].dst, out[s][i].cond);
      assert out[s][i].dst == d && latches(s) && Eval(out[s][i].cond, inputs);
    }
    if exists s, i :: 0 <= s < |out| && 0 <= i < |out[s]| && out[s][i].dst == d &&
        latches(s) && Eval(out[s][i].cond, inputs) {
      var s, i :| 0 <= s < |out| && 0 <= i < |out[s]| && out[s][i].dst == d &&
        latches(s) && Eval(out[s][i].cond, inputs);
      var t := Transition(s, out[s][i].dst, out[s][i].cond);
      TransitionsMeaning(out, |out|, t);
      IntoMeaning(all, d, t);
      assert t in ts && latches(t.src) && Eval(t.cond, inputs);
    }
  }

  /** The (source, guard gate) pairs recorded for a list of transitions. */
  function Pairs(ts: seq<Transition>): (r: seq<(nat, Gate)>)
    ensures |r| == |ts|
  {
    seq(|ts|, k requires 0 <= k < |ts| => (ts[k].src, Guard(ts[k].cond)))
  }

  /**
   * `m` groups the transitions `ts` by destination: a destination is a key
   * exactly when some transition enters it, and it lists those transitions.
   */
  ghost predicate Grouped(m: map<nat, seq<(nat, Gate)>>, ts: seq<Transition>, n: nat)
  {
    (forall d :: d in m <==> Into(ts, d) != []) &&
    (forall d :: d in m ==> m[d] == Pairs(Into(ts, d)) && d < n)
  }

  lemma GroupedStep(m: map<nat, seq<(nat, Gate)>>, ts: seq<Transition>, t: Transition, n: nat)
    requires Grouped(m, ts, n) && t.dst < n
    ensures Grouped(m[t.dst := (if t.dst in m then m[t.dst] else []) + [(t.src, Guard(t.cond))]], ts + [t], n)
  {
    var m' := m[t.dst := (if t.dst in m then m[t.dst] else []) + [(t.src, Guard(t.cond))]];
    forall d: nat
      ensures d in m' <==> Into(ts + [t], d) != []
      ensures d in m' ==> m'[d] == Pairs(Into(ts + [t], d)) && d < n
    {
      IntoSnoc(ts, t, d);
      if d == t.dst {
        assert Pairs(Into(ts, d) + [t]) == Pairs(Into(ts, d)) + [(t.src, Guard(t.cond))];
      }
    }
  }

  // ---------------------------------------------------------------------
  // Partial implementations of the dependent variables.

  /** The selector gates of a diagram node testing `v`, for output `x`. */
  function Selector(v: Var, x: Var, deps: set<Var>): Gate
  {
    if v !in deps then InputVar(v) else Const(true)
  }

  function NegSelector(v: Var, x: Var, deps: set<Var>): Gate
  {
    if v !in deps then Neg(InputVar(v)) else Const(v != x)
  }

  /**
   * The partial implementation of output `x` from guard `b`: an
   * if-then-else on every input variable, the high branch at `x` itself and
   * the disjunction of both branches at the other dependent variables.
   */
  function PartialImpl(b: Bdd, x: Var, deps: set<Var>): Gate
  {
    match b
    case True => Const(true)
    case False => Const(false)
    case Node(v, l, h) =>
      Disj([Conj([NegSelector(v, x, deps), PartialImpl(l, x, deps)]),
            Conj([Selector(v, x, deps), PartialImpl(h, x, deps)])])
  }

  /** `a` sets output `x` to 1 and agrees with the inputs on every non-dependent variable. */
  ghost predicate Completes(a: Assignment, inputs: Assignment, x: Var, deps: set<Var>)
  {
    a(x) && forall u :: u !in deps ==> a(u) == inputs(u)
  }

  /** Some setting of the dependent variables, with `x` at 1, meets `b` on these inputs. */
  ghost predicate SatWith(b: Bdd, inputs: Assignment, x: Var, deps: set<Var>)
  {
    exists a :: Completes(a, inputs, x, deps) && Eval(b, a)
  }

  lemma TwoWay(p: Gate, q: Gate, r: Gate, s: Gate, inputs: Assignment, latches: nat -> bool)
    ensures EvalGate(Disj([Conj([p, q]), Conj([r, s])]), inputs, latches) ==
      ((EvalGate(p, inputs, latches) && EvalGate(q, inputs, latches)) ||
       (EvalGate(r, inputs, latches) && EvalGate(s, inputs, latches)))
  {
    var c1, c2 := Conj([p, q]), Conj([r, s]);
    ConjEval(p, q, inputs, latches);
    ConjEval(r, s, inputs, latches);
    assert c1 in [c1, c2] && c2 in [c1, c2];
  }

  /**
   * The partial implementation of `x` holds exactly when the guard can be
   * met with `x` at 1 by some setting of the other dependent variables. The
   * guard must test no variable twice on a path, as every diagram of the
   * BDD library does.
   */
  lemma {:induction false} PartialImplMeaning(b: Bdd, x: Var, deps: set<Var>, inputs: Assignment, latches: nat -> bool)
    requires Free(b) && x in deps
    ensures EvalGate(PartialImpl(b, x, deps), inputs, latches) == SatWith(b, inputs, x, deps)
  {
    match b
    case True =>
      assert Completes(Set(inputs, x, true), inputs, x, deps) && Eval(b, Set(inputs, x, true));
    case False =>
    case Node(v, l, h) =>
      PartialImplMeaning(l, x, deps, inputs, latches);
      PartialImplMeaning(h, x, deps, inputs, latches);
      TwoWay(NegSelector(v, x, deps), PartialImpl(l, x, deps), Selector(v, x, deps), PartialImpl(h, x, deps), inputs, latches);
      if v !in deps {
        NodeAtInput(b, x, deps, inputs);
      } else if v == x {
        NodeAtOutput(b, x, deps, inputs);
      } else {
        NodeAtOtherDependent(b, x, deps, inputs);
      }
  }

  lemma NodeAtInput(b: Bdd, x: Var, deps: set<Var>, inputs: Assignment)
    requires b.Node? && b.v !in deps
    ensures SatWith(b, inputs, x, deps) ==
      if inputs(b.v) then SatWith(b.high, inputs, x, deps) else SatWith(b.low, inputs, x, deps)
  {
    var br := if inputs(b.v) then b.high else b.low;
    forall a | Completes(a, inputs, x, deps)
      ensures Eval(b, a) == Eval(br, a)
    {
    }
    if SatWith(br, inputs, x, deps) {
      var a :| Completes(a, inputs, x, deps) && Eval(br, a);
      assert Eval(b, a);
    }
  }

  lemma NodeAtOutput(b: Bdd, x: Var, deps: set<Var>, inputs: Assignment)
    requires b.Node? && b.v == x
    ensures SatWith(b, inputs, x, deps) == SatWith(b.high, inputs, x, deps)
  {
    if SatWith(b.high, inputs, x, deps) {
      var a :| Completes(a, inputs, x, deps) && Eval(b.high, a);
      assert Eval(b, a);
    }
  }

  lemma NodeAtOtherDependent(b: Bdd, x: Var, deps: set<Var>, inputs: Assignment)
    requires b.Node? && b.v in deps && b.v != x && Free(b)
    ensures SatWith(b, inputs, x, deps) == (SatWith(b.low, inputs, x, deps) || SatWith(b.high, inputs, x, deps))
  {
    var v := b.v;
    if SatWith(b.high, inputs, x, deps) {
      var a :| Completes(a, inputs, x, deps) && Eval(b.high, a);
      var a' := Set(a, v, true);
      EvalOnSupport(b.high, a, a');
      assert Completes(a', inputs, x, deps) && Eval(b, a');
    }
    if SatWith(b.low, inputs, x, deps) {
      var a :| Completes(a, inputs, x, deps) && Eval(b.low, a);
      var a' := Set(a, v, false);
      EvalOnSupport(b.low, a, a');
      assert Completes(a', inputs, x, deps) && Eval(b, a');
    }
  }

  // ---------------------------------------------------------------------
  // Output gates.

  function OutputTerms(ts: seq<Transition>, x: Var, deps: set<Var>): (r: seq<Gate>)
    ensures |r| == |ts|
  {
    seq(|ts|, k requires 0 <= k < |ts| => Conj([LatchVar(ts[k].src), PartialImpl(ts[k].cond, x, deps)]))
  }

  /** The gate of output `x`: one term per edge of the automaton. */
  function OutputGate(out: seq<seq<Edge>>, x: Var, deps: set<Var>): Gate
  {
    Disj(OutputTerms(Transitions(out, |out|), x, deps))
  }

  ghost predicate GuardsFree(out: seq<seq<Edge>>)
  {
    forall s, i :: 0 <= s < |out| && 0 <= i < |out[s]| ==> Free(out[s][i].cond)
  }

  /**
   * Output `x` is 1 exactly when some edge leaves an active state with a
   * guard that the other dependent variables can meet with `x` at 1.
   */
  lemma OutputMeaning(out: seq<seq<Edge>>, x: Var, deps: set<Var>, inputs: Assignment, latches: nat -> bool)
    requires GuardsFree(out) && x in deps
    ensures EvalGate(OutputGate(out, x, deps), inputs, latches) <==>
      exists s, i :: 0 <= s < |out| && 0 <= i < |out[s]| && latches(s) && SatWith(out[s][i].cond, inputs, x, deps)
  {
    if EvalGate(OutputGate(out, x, deps), inputs, latches) {
      OutputSound(out, x, deps, inputs, latches);
    }
    if exists s, i :: 0 <= s < |out| && 0 <= i < |out[s]| && latches(s) && SatWith(out[s][i].cond, inputs, x, deps) {
      var s, i :| 0 <= s < |out| && 0 <= i < |out[s]| && latches(s) && SatWith(out[s][i].cond, inputs, x, deps);
      OutputComplete(out, x, deps, inputs, latches, s, i);
    }
  }

  lemma OutputSound(out: seq<seq<Edge>>, x: Var, deps: set<Var>, inputs: Assignment, latches: nat -> bool)
    requires GuardsFree(out) && x in deps
    requires EvalGate(OutputGate(out, x, deps), inputs, latches)
    ensures exists s, i :: 0 <= s < |out| && 0 <= i < |out[s]| && latches(s) && SatWith(out[s][i].cond, inputs, x, deps)
  {
    var ts := Transitions(out, |out|);
    var gs := OutputTerms(ts, x, deps);
    var g :| g in gs && EvalGate(g, inputs, latches);
    var k :| 0 <= k < |gs| && gs[k] == g;
    TransitionsMeaning(out, |out|, ts[k]);
    var s, i :| 0 <= s < |out| && 0 <= i < |out[s]| && ts[k] == Transition(s, out[s][i].dst, out[s][i].cond);
    var b := out[s][i].cond;
    assert g == Conj([LatchVar(s), PartialImpl(b, x, deps)]);
    ConjEval(LatchVar(s), PartialImpl(b, x, deps), inputs, latches);
    PartialImplMeaning(b, x, deps, inputs, latches);
    assert latches(s) && SatWith(b, inputs, x, deps);
  }

  lemma OutputComplete(out: seq<seq<Edge>>, x: Var, deps: set<Var>, inputs: Assignment, latches: nat -> bool, s: nat, i: nat)
    requires GuardsFree(out) && x in deps
    requires s < |out| && i < |out[s]| && latches(s) && SatWith(out[s][i].cond, inputs, x, deps)
    ensures EvalGate(OutputGate(out, x, deps), inputs, latches)
  {
    var ts := Transitions(out, |out|);
    var gs := OutputTerms(ts, x, deps);
    var t := Transition(s, out[s][i].dst, out[s][i].cond);
    TransitionsMeaning(out, |out|, t);
    var k :| 0 <= k < |ts| && ts[k] == t;
    ConjEval(LatchVar(s), PartialImpl(out[s][i].cond, x, deps), inputs, latches);
    PartialImplMeaning(out[s][i].cond, x, deps, inputs, latches);
    assert gs[k] in gs && EvalGate(gs[k], inputs, latches);
  }

  /** The variables numbered for the names of `names` that `vars` knows. */
  function Numbers(vars: map<string, Var>, names: seq<string>): set<Var>
  {
    set n | n in names && n in vars :: vars[n]
  }

  lemma NumbersSnoc(vars0: map<string, Var>, vars1: map<string, Var>, names: seq<string>, n: string)
    requires forall m :: m in names ==> m in vars0
    requires forall m :: m in vars0 ==> m in vars1 && vars1[m] == vars0[m]
    requires n in vars1
    ensures Numbers(vars1, names + [n]) == Numbers(vars0, names) + {vars1[n]}
  {
  }

  // ---------------------------------------------------------------------
  // The synthesiser.

  class DependentsSynthesiser {
    const nbaWithoutDeps: Twa
    const nbaWithDeps: Twa
    const inputVars: seq<string>
    const indepVars: seq<string>
    const depVars: seq<string>
    var aiger: Aig?
    var depsBddVars: set<Var>
    /**
     * Partial implementations by (guard, dependent variable). The source
     * keys them by the text "<guard id>#<name>"; a guard id has no '#', so
     * that text determines the pair.
     */
    var partialImplCache: map<(Bdd, string), Gate>

    constructor (without: Twa, with: Twa, ins: seq<string>, indeps: seq<string>, deps: seq<string>)
      ensures nbaWithoutDeps == without && nbaWithDeps == with
      ensures inputVars == ins && indepVars == indeps && depVars == deps
      ensures aiger == null && depsBddVars == {} && partialImplCache == map[]
    {
      nbaWithoutDeps := without;
      nbaWithDeps := with;
      inputVars := ins;
      indepVars := indeps;
      depVars := deps;
      aiger := null;
      depsBddVars := {};
      partialImplCache := map[];
    }

    /** Every cached gate is the partial implementation of its guard and variable. */
    ghost predicate CacheValid()
      reads this, nbaWithDeps, nbaWithDeps.dict
    {
      forall k :: k in partialImplCache ==>
        k.1 in nbaWithDeps.dict.vars &&
        partialImplCache[k] == PartialImpl(k.0, nbaWithDeps.dict.vars[k.1], depsBddVars)
    }

    /** The BDD variable of proposition `ap`, registered with the automaton with the dependent variables. */
    method ApToBddVarnum(ap: string) returns (v: Var)
      requires nbaWithDeps.dict.Valid()
      modifies nbaWithDeps, nbaWithDeps.dict
      ensures nbaWithDeps.dict.Valid() && ap in nbaWithDeps.dict.vars && v == nbaWithDeps.dict.vars[ap]
      ensures forall n :: n in old(nbaWithDeps.dict.vars) ==>
        n in nbaWithDeps.dict.vars && nbaWithDeps.dict.vars[n] == old(nbaWithDeps.dict.vars[n])
      ensures nbaWithDeps.out == old(nbaWithDeps.out) && nbaWithDeps.init == old(nbaWithDeps.init)
    {
      v := nbaWithDeps.RegisterAp(ap);
    }

    /**
     * Creates the graph (inputs: input then independent propositions;
     * outputs: the dependent ones; a latch per state) and records the
     * variables of the dependent propositions.
     */
    method InitAiger()
      requires nbaWithDeps.dict.Valid()
      modifies this, nbaWithDeps, nbaWithDeps.dict
      ensures aiger != null && fresh(aiger)
      ensures aiger.inputs == inputVars + indepVars && aiger.outputs == depVars
      ensures aiger.numLatches == |nbaWithDeps.out|
      ensures aiger.nextLatches == map[] && aiger.outputGates == map[]
      ensures nbaWithDeps.dict.Valid()
      ensures nbaWithDeps.out == old(nbaWithDeps.out) && nbaWithDeps.init == old(nbaWithDeps.init)
      ensures forall n :: n in old(nbaWithDeps.dict.vars) ==>
        n in nbaWithDeps.dict.vars && nbaWithDeps.dict.vars[n] == old(nbaWithDeps.dict.vars[n])
      ensures forall k :: 0 <= k < |depVars| ==> depVars[k] in nbaWithDeps.dict.vars
      ensures depsBddVars == old(depsBddVars) + Numbers(nbaWithDeps.dict.vars, depVars)
      ensures partialImplCache == old(partialImplCache)
    {
      aiger := new Aig(inputVars + indepVars, depVars, |nbaWithDeps.out|);
      RegisterDependents();
    }

    /** Registers every dependent proposition and records its variable. */
    method RegisterDependents()
      requires nbaWithDeps.dict.Valid()
      modifies this, nbaWithDeps, nbaWithDeps.dict
      ensures nbaWithDeps.dict.Valid() && aiger == old(aiger)
      ensures nbaWithDeps.out == old(nbaWithDeps.out) && nbaWithDeps.init == old(nbaWithDeps.init)
      ensures forall n :: n in old(nbaWithDeps.dict.vars) ==>
        n in nbaWithDeps.dict.vars && nbaWithDeps.dict.vars[n] == old(nbaWithDeps.dict.vars[n])
      ensures forall k :: 0 <= k < |depVars| ==> depVars[k] in nbaWithDeps.dict.vars
      ensures depsBddVars == old(depsBddVars) + Numbers(nbaWithDeps.dict.vars, depVars)
      ensures partialImplCache == old(partialImplCache)
    {
      var k := 0;
      while k < |depVars|
        invariant k <= |depVars| && aiger == old(aiger)
        invariant nbaWithDeps.dict.Valid()
        invariant nbaWithDeps.out == old(nbaWithDeps.out) && nbaWithDeps.init == old(nbaWithDeps.init)
        invariant forall n :: n in old(nbaWithDeps.dict.vars) ==>
          n in nbaWithDeps.dict.vars && nbaWithDeps.dict.vars[n] == old(nbaWithDeps.dict.vars[n])
        invariant forall j :: 0 <= j < k ==> depVars[j] in nbaWithDeps.dict.vars
        invariant depsBddVars == old(depsBddVars) + Numbers(nbaWithDeps.dict.vars, depVars[..k])
        invariant partialImplCache == old(partialImplCache)
      {
        ghost var vars0 := nbaWithDeps.dict.vars;
        var v := ApToBddVarnum(depVars[k]);
        depsBddVars := depsBddVars + {v};
        assert depVars[..k + 1] == depVars[..k] + [depVars[k]];
        NumbersSnoc(vars0, nbaWithDeps.dict.vars, depVars[..k], depVars[k]);
        k := k + 1;
      }
      assert depVars[..k] == depVars;
    }

    /**
     * Defines each latch's next value from the automaton without the
     * dependent variables: the transitions are grouped by destination, a
     * state with one incoming transition gets that term alone, one with
     * several their disjunction, and one with none the constant 0.
     */
    method DefineNextLatches()
      requires aiger != null && nbaWithoutDeps.Valid() && nbaWithoutDeps.init == 0
      requires aiger.numLatches == |nbaWithoutDeps.out|
      modifies aiger
      ensures forall d: nat :: d in aiger.nextLatches <==> d in old(aiger.nextLatches) || d < |nbaWithoutDeps.out|
      ensures forall d :: 0 <= d < |nbaWithoutDeps.out| ==> aiger.nextLatches[d] == NextLatchOf(nbaWithoutDeps.out, d)
      ensures aiger.outputGates == old(aiger.outputGates)
    {
      var out := nbaWithoutDeps.out;
      var dstTransitions := GroupByDestination(out);
      ghost var all := Transitions(out, |out|);
      SetGroupedLatches(aiger, dstTransitions, all, |out|);
      SetRemainingLatches(aiger, dstTransitions, all, |out|);
    }

    /** Sets the next-state gate of every state some transition enters. */
    static method SetGroupedLatches(aig: Aig, dstTransitions: map<nat, seq<(nat, Gate)>>, ghost all: seq<Transition>, n: nat)
      requires Grouped(dstTransitions, all, n) && aig.numLatches == n
      modifies aig
      ensures aig.outputGates == old(aig.outputGates)
      ensures forall d: nat :: d in aig.nextLatches <==> d in old(aig.nextLatches) || d in dstTransitions
      ensures forall d: nat :: d in dstTransitions ==> aig.nextLatches[d] == NextLatch(Into(all, d))
    {
      var keys := dstTransitions.Keys;
      while keys != {}
        decreases |keys|
        invariant keys <= dstTransitions.Keys
        invariant aig.outputGates == old(aig.outputGates)
        invariant forall d: nat :: d in aig.nextLatches <==> d in old(aig.nextLatches) || (d in dstTransitions && d !in keys)
        invariant forall d: nat :: d in dstTransitions && d !in keys ==> aig.nextLatches[d] == NextLatch(Into(all, d))
      {
        var dst :| dst in keys;
        var gate := LatchGate(dstTransitions[dst], Into(all, dst));
        aig.SetNextLatch(dst, gate);
        keys := keys - {dst};
      }
    }

    /** Sets the constant 0 as next-state gate of every state no transition enters. */
    static method SetRemainingLatches(aig: Aig, dstTransitions: map<nat, seq<(nat, Gate)>>, ghost all: seq<Transition>, n: nat)
      requires Grouped(dstTransitions, all, n) && aig.numLatches == n
      requires forall d: nat :: d in dstTransitions ==> d in aig.nextLatches && aig.nextLatches[d] == NextLatch(Into(all, d))
      modifies aig
      ensures aig.outputGates == old(aig.outputGates)
      ensures forall d: nat :: d in aig.nextLatches <==> d in old(aig.nextLatches) || d < n
      ensures forall d: nat :: d < n ==> aig.nextLatches[d] == NextLatch(Into(all, d))
    {
      var state := 0;
      while state < n
        invariant state <= n
        invariant aig.outputGates == old(aig.outputGates)
        invariant forall d: nat :: d in aig.nextLatches <==> d in old(aig.nextLatches) || d < state
        invariant forall d: nat :: (d in dstTransitions || d < state) ==> aig.nextLatches[d] == NextLatch(Into(all, d))
      {
        if state !in dstTransitions {
          aig.SetNextLatch(state, Const(false));
        }
        state := state + 1;
      }
    }

    /**
     * The next-state gate from the (source, guard gate) pairs of the
     * transitions into one state: the single term alone, or the disjunction.
     */
    static method LatchGate(trans: seq<(nat, Gate)>, ghost ts: seq<Transition>) returns (gate: Gate)
      requires trans == Pairs(ts) && ts != []
      ensures gate == NextLatch(ts)
    {
      var conds: seq<Gate> := [];
      var j := 0;
      while j < |trans|
        invariant j <= |trans| && |conds| == j
        invariant forall k :: 0 <= k < j ==> conds[k] == Conj([LatchVar(trans[k].0), trans[k].1])
      {
        conds := conds + [Conj([LatchVar(trans[j].0), trans[j].1])];
        j := j + 1;
      }
      assert conds == LatchTerms(ts);
      if |conds| == 1 {
        gate := conds[0];
      } else {
        gate := Disj(conds);
      }
    }

    /** The transitions of `out`, grouped by destination. */
    static method GroupByDestination(out: seq<seq<Edge>>) returns (m: map<nat, seq<(nat, Gate)>>)
      requires forall s, i :: 0 <= s < |out| && 0 <= i < |out[s]| ==> out[s][i].dst < |out|
      ensures Grouped(m, Transitions(out, |out|), |out|)
    {
      m := map[];
      var state := 0;
      ghost var ts: seq<Transition> := [];
      assert Grouped(m, ts, |out|) by {
        forall d: nat ensures Into(ts, d) == [] { }
      }
      while state < |out|
        invariant state <= |out| && ts == Transitions(out, state)
        invariant Grouped(m, ts, |out|)
      {
        assert forall i :: 0 <= i < |out[state]| ==> out[state][i].dst < |out|;
        m := GroupState(m, ts, state, out[state], |out|);
        ts := ts + StateTransitions(state, out[state]);
        state := state + 1;
      }
    }

    /** Adds the edges `es` of `state` to the grouping `m` of the transitions `ts`. */
    static method GroupState(m: map<nat, seq<(nat, Gate)>>, ghost ts: seq<Transition>, state: nat, es: seq<Edge>, n: nat)
      returns (m': map<nat, seq<(nat, Gate)>>)
      requires Grouped(m, ts, n) && forall i :: 0 <= i < |es| ==> es[i].dst < n
      ensures Grouped(m', ts + StateTransitions(state, es), n)
    {
      m' := m;
      var i := 0;
      assert ts + StateTransitions(state, es[..0]) == ts;
      while i < |es|
        invariant i <= |es|
        invariant Grouped(m', ts + StateTransitions(state, es[..i]), n)
      {
        var e := es[i];
        ghost var t := Transition(state, e.dst, e.cond);
        GroupedStep(m', ts + StateTransitions(state, es[..i]), t, n);
        assert StateTransitions(state, es[..i + 1]) == StateTransitions(state, es[..i]) + [t];
        assert ts + StateTransitions(state, es[..i + 1]) == ts + StateTransitions(state, es[..i]) + [t];
        m' := m'[e.dst := (if e.dst in m' then m'[e.dst] else []) + [(state, Guard(e.cond))]];
        i := i + 1;
      }
      assert es[..i] == es;
    }

    /**
     * The partial implementation of `cond` for `depVar`, built bottom-up and
     * memoised per diagram node in `memo`.
     */
    method GeneratePartialImpl(cond: Bdd, depVar: string, memo: map<Bdd, Gate>) returns (g: Gate, memo': map<Bdd, Gate>)
      requires depVar in nbaWithDeps.dict.vars
      requires forall c :: c in memo ==> memo[c] == PartialImpl(c, nbaWithDeps.dict.vars[depVar], depsBddVars)
      ensures g == PartialImpl(cond, nbaWithDeps.dict.vars[depVar], depsBddVars)
      ensures forall c :: c in memo' ==> memo'[c] == PartialImpl(c, nbaWithDeps.dict.vars[depVar], depsBddVars)
      decreases cond
    {
      if cond == True {
        return Const(true), memo;
      }
      if cond == False {
        return Const(false), memo;
      }
      if cond in memo {
        return memo[cond], memo;
      }
      var highGate, m1 := GeneratePartialImpl(cond.high, depVar, memo);
      var lowGate, m2 := GeneratePartialImpl(cond.low, depVar, m1);
      var v := cond.v;
      var nv, negNv;
      if v !in depsBddVars {
        nv := InputVar(v);
        negNv := Neg(nv);
      } else {
        var isCurrent := v == nbaWithDeps.dict.vars[depVar];
        negNv := if isCurrent then Const(false) else Const(true);
        nv := Const(true);
      }
      g := Disj([Conj([negNv, lowGate]), Conj([nv, highGate])]);
      memo' := m2[cond := g];
    }

    /** The partial implementation of `cond` for `depVar`, served from the cache when present. */
    method GetPartialImpl(cond: Bdd, depVar: string) returns (g: Gate)
      requires depVar in nbaWithDeps.dict.vars && CacheValid()
      modifies this
      ensures g == PartialImpl(cond, nbaWithDeps.dict.vars[depVar], depsBddVars)
      ensures (cond, depVar) in old(partialImplCache) ==> g == old(partialImplCache[(cond, depVar)])
      ensures partialImplCache == old(partialImplCache)[(cond, depVar) := g]
      ensures CacheValid()
      ensures aiger == old(aiger) && depsBddVars == old(depsBddVars)
    {
      var key := (cond, depVar);
      if key in partialImplCache {
        return partialImplCache[key];
      }
      var partial, _ := GeneratePartialImpl(cond, depVar, map[]);
      partialImplCache := partialImplCache[key := partial];
      g := partialImplCache[key];
    }

    /**
     * Defines output k as the disjunction, over every edge of the automaton
     * with the dependent variables, of "the edge's source is active and the
     * partial implementation of its guard for the k-th dependent variable".
     */
    method DefineOutputGates()
      requires aiger != null && aiger.outputs == depVars && CacheValid()
      requires forall k :: 0 <= k < |depVars| ==> depVars[k] in nbaWithDeps.dict.vars
      modifies this, aiger
      ensures aiger == old(aiger) && depsBddVars == old(depsBddVars) && CacheValid()
      ensures aiger.nextLatches == old(aiger.nextLatches)
      ensures forall k: nat :: k in aiger.outputGates <==> k in old(aiger.outputGates) || k < |depVars|
      ensures forall k :: 0 <= k < |depVars| ==>
        aiger.outputGates[k] == OutputGate(nbaWithDeps.out, nbaWithDeps.dict.vars[depVars[k]], depsBddVars)
    {
      var out := nbaWithDeps.out;
      var depIdx := 0;
      while depIdx < |depVars|
        invariant depIdx <= |depVars|
        invariant aiger == old(aiger) && depsBddVars == old(depsBddVars) && CacheValid()
        invariant aiger.nextLatches == old(aiger.nextLatches)
        invariant forall k: nat :: k in aiger.outputGates <==> k in old(aiger.outputGates) || k < depIdx
        invariant forall k :: 0 <= k < depIdx ==>
          aiger.outputGates[k] == OutputGate(out, nbaWithDeps.dict.vars[depVars[k]], depsBddVars)
      {
        DefineOutputGate(depIdx);
        depIdx := depIdx + 1;
      }
    }

    /** Sets output `k` of the circuit to the gate of the `k`th dependent variable. */
    method DefineOutputGate(k: nat)
      requires aiger != null && k < |aiger.outputs| && k < |depVars| && CacheValid()
      requires depVars[k] in nbaWithDeps.dict.vars
      modifies this, aiger
      ensures aiger == old(aiger) && depsBddVars == old(depsBddVars) && CacheValid()
      ensures aiger.outputs == old(aiger.outputs) && aiger.nextLatches == old(aiger.nextLatches)
      ensures aiger.outputGates ==
        old(aiger.outputGates)[k := OutputGate(nbaWithDeps.out, nbaWithDeps.dict.vars[depVars[k]], depsBddVars)]
    {
      var conds := DependentTerms(depVars[k]);
      aiger.SetOutput(k, Disj(conds));
    }

    /** The terms of the output gate of `depVar`, one per edge. */
    method DependentTerms(depVar: string) returns (conds: seq<Gate>)
      requires depVar in nbaWithDeps.dict.vars && CacheValid()
      modifies this
      ensures conds == OutputTerms(Transitions(nbaWithDeps.out, |nbaWithDeps.out|), nbaWithDeps.dict.vars[depVar], depsBddVars)
      ensures aiger == old(aiger) && depsBddVars == old(depsBddVars) && CacheValid()
    {
      var out := nbaWithDeps.out;
      ghost var x := nbaWithDeps.dict.vars[depVar];
      conds := [];
      var state := 0;
      while state < |out|
        invariant state <= |out|
        invariant aiger == old(aiger) && depsBddVars == old(depsBddVars) && CacheValid()
        invariant conds == OutputTerms(Transitions(out, state), x, depsBddVars)
      {
        var es := out[state];
        var i := 0;
        assert Transitions(out, state) + StateTransitions(state, es[..0]) == Transitions(out, state);
        while i < |es|
          invariant i <= |es|
          invariant aiger == old(aiger) && depsBddVars == old(depsBddVars) && CacheValid()
          invariant conds == OutputTerms(Transitions(out, state) + StateTransitions(state, es[..i]), x, depsBddVars)
        {
          var partial := GetPartialImpl(es[i].cond, depVar);
          ghost var ts := Transitions(out, state) + StateTransitions(state, es[..i]);
          ghost var t := Transition(state, es[i].dst, es[i].cond);
          assert StateTransitions(state, es[..i + 1]) == StateTransitions(state, es[..i]) + [t];
          assert OutputTerms(ts + [t], x, depsBddVars) == OutputTerms(ts, x, depsBddVars) + [Conj([LatchVar(state), partial])];
          conds := conds + [Conj([LatchVar(state), partial])];
          i := i + 1;
        }
        assert es[..i] == es;
        state := state + 1;
      }
    }

    /**
     * Builds the graph: both automata have the same states and dictionary,
     * there is at least one dependent variable and the automaton without
     * them starts in state 0; then the graph is created, the latches and
     * the outputs are defined, in this order, and the graph is returned.
     */
    method Synthesis() returns (r: Aig)
      requires aiger == null && depsBddVars == {} && partialImplCache == map[]
      requires |nbaWithDeps.out| == |nbaWithoutDeps.out| && nbaWithDeps.dict == nbaWithoutDeps.dict
      requires depVars != []
      requires nbaWithDeps.dict.Valid() && nbaWithoutDeps.Valid() && nbaWithoutDeps.init == 0
      modifies this, nbaWithDeps, nbaWithDeps.dict
      ensures r == aiger && fresh(r)
      ensures r.inputs == inputVars + indepVars && r.outputs == depVars && r.numLatches == |nbaWithDeps.out|
      ensures depsBddVars == Numbers(nbaWithDeps.dict.vars, depVars)
      ensures forall d: nat :: d in r.nextLatches <==> d < r.numLatches
      ensures forall d :: 0 <= d < r.numLatches ==> r.nextLatches[d] == NextLatchOf(nbaWithoutDeps.out, d)
      ensures forall k: nat :: k in r.outputGates <==> k < |depVars|
      ensures forall k :: 0 <= k < |depVars| ==> depVars[k] in nbaWithDeps.dict.vars
      ensures forall k :: 0 <= k < |depVars| ==>
        r.outputGates[k] == OutputGate(nbaWithDeps.out, nbaWithDeps.dict.vars[depVars[k]], depsBddVars)
    {
      InitAiger();
      DefineNextLatches();
      DefineOutputGates();
      r := aiger;
    }
  }
}
