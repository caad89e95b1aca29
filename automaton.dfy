/**
 * Transition-based automata whose edges carry boolean guards.
 *
 * An automaton keeps, for every state, the list of its outgoing edges; an edge
 * has a destination, a guard over the atomic propositions (a diagram over the
 * propositions' variable numbers) and a set of acceptance marks. Atomic
 * propositions are numbered by a dictionary that several automata share.
 * The analyses change guards in place, add and kill states and move the
 * initial state, so both the dictionary and the automaton are classes.
 */
module Automaton {
  import opened Bdd

  datatype Edge = Edge(dst: nat, cond: Bdd, acc: set<nat>)

  /**
   * A snapshot of an automaton's graph. This is what the automata-theoretic
   * operations of the library (complement, intersection test, dead-state purge)
   * receive and return; they are parameters of the analyses, not part of this model.
   */
  datatype AutValue = AutValue(out: seq<seq<Edge>>, init: nat)

  /** Every destination, and the initial state, is a state of the graph. */
  predicate WellFormed(out: seq<seq<Edge>>, init: nat)
  {
    init < |out| &&
    forall s, i :: 0 <= s < |out| && 0 <= i < |out[s]| ==> out[s][i].dst < |out|
  }

  /** The number of edges of the graph. */
  function EdgeCount(out: seq<seq<Edge>>): nat
  {
    if out == [] then 0 else |out[0]| + EdgeCount(out[1..])
  }

  /** The propositions of `aps` that are not numbered `v` in `vars`. */
  function WithoutVar(aps: seq<string>, vars: map<string, Var>, v: Var): (r: seq<string>)
    ensures forall n :: n in r <==> n in aps && !(n in vars && vars[n] == v)
  {
    if aps == [] then []
    else if aps[0] in vars && vars[aps[0]] == v then WithoutVar(aps[1..], vars, v)
    else [aps[0]] + WithoutVar(aps[1..], vars, v)
  }

  /** `m` keeps every entry of `m0`. */
  ghost predicate KeepsEntries(m0: map<string, Var>, m: map<string, Var>)
  {
    forall n :: n in m0 ==> n in m && m[n] == m0[n]
  }

  /** The BDD dictionary: proposition names to variable numbers. */
  class BddDict {
    var vars: map<string, Var>
    /** The first variable number not yet handed out. */
    var next: Var

    ghost predicate Valid()
      reads this
    {
      (forall n :: n in vars ==> vars[n] < next) &&
      (forall n, m :: n in vars && m in vars && n != m ==> vars[n] != vars[m])
    }

    constructor ()
      ensures Valid() && vars == map[] && next == 0
    {
      vars := map[];
      next := 0;
    }

    /** The variable of proposition `name`, allocated on first use. */
    method RegisterAp(name: string) returns (v: Var)
      requires Valid()
      modifies this
      ensures Valid()
      ensures name in vars && v == vars[name]
      ensures name in old(vars) ==> vars == old(vars) && next == old(next)
      ensures name !in old(vars) ==> v == old(next) && next == old(next) + 1 && vars == old(vars)[name := v]
    {
      if name in vars {
        v := vars[name];
      } else {
        v := next;
        vars := vars[name := v];
        next := next + 1;
      }
    }

    /** Reserves `n` fresh consecutive variables and returns the first. */
    method RegisterAnonymous(n: nat) returns (start: Var)
      requires Valid()
      modifies this
      ensures Valid() && vars == old(vars)
      ensures start == old(next) && next == old(next) + n
    {
      start := next;
      next := next + n;
    }
  }

  class Twa {
    var out: seq<seq<Edge>>
    var init: nat
    /** The atomic propositions registered for this automaton, in registration order. */
    var aps: seq<string>
    const dict: BddDict

    ghost predicate Valid()
      reads this
    {
      WellFormed(out, init)
    }

    constructor (d: BddDict, g: seq<seq<Edge>>, i: nat, props: seq<string>)
      requires WellFormed(g, i)
      ensures Valid() && dict == d && out == g && init == i && aps == props
    {
      dict := d;
      out := g;
      init := i;
      aps := props;
    }

    function NumStates(): nat
      reads this
    {
      |out|
    }

    function Value(): AutValue
      reads this
    {
      AutValue(out, init)
    }

    /** The variable of `name`, registering it with the dictionary and this automaton. */
    method RegisterAp(name: string) returns (v: Var)
      requires dict.Valid()
      modifies this, dict
      ensures dict.Valid() && name in dict.vars && v == dict.vars[name]
      ensures name in old(dict.vars) ==> dict.vars == old(dict.vars) && dict.next == old(dict.next)
      ensures name !in old(dict.vars) ==>
        v == old(dict.next) && dict.next == old(dict.next) + 1 && dict.vars == old(dict.vars)[name := v]
      ensures aps == if name in old(aps) then old(aps) else old(aps) + [name]
      ensures out == old(out) && init == old(init)
    {
      v := dict.RegisterAp(name);
      if name !in aps {
        aps := aps + [name];
      }
    }

    /** Drops every proposition numbered `v` from this automaton's list. */
    method UnregisterAp(v: Var)
      modifies this
      ensures aps == WithoutVar(old(aps), dict.vars, v)
      ensures out == old(out) && init == old(init)
    {
      aps := WithoutVar(aps, dict.vars, v);
    }

    /** Adds a state with no edges and returns its number. */
    method NewState() returns (s: nat)
      requires Valid()
      modifies this
      ensures Valid() && s == old(|out|) && out == old(out) + [[]]
      ensures init == old(init) && aps == old(aps)
    {
      s := |out|;
      out := out + [[]];
    }

    /** Removes every outgoing edge of `s`; the state itself stays. */
    method KillState(s: nat)
      requires Valid() && s < |out|
      modifies this
      ensures Valid() && out == old(out)[s := []]
      ensures init == old(init) && aps == old(aps)
    {
      out := out[s := []];
    }

    method NewEdge(src: nat, dst: nat, cond: Bdd, acc: set<nat>)
      requires Valid() && src < |out| && dst < |out|
      modifies this
      ensures Valid() && out == old(out)[src := old(out)[src] + [Edge(dst, cond, acc)]]
      ensures init == old(init) && aps == old(aps)
    {
      out := out[src := out[src] + [Edge(dst, cond, acc)]];
    }

    method SetInitState(s: nat)
      requires Valid() && s < |out|
      modifies this
      ensures Valid() && init == s
      ensures out == old(out) && aps == old(aps)
    {
      init := s;
    }

    /**
     * Replaces the graph by what the library's dead-state purge makes of it;
     * the purge itself is the parameter `purge`.
     */
    method PurgeDeadStates(purge: AutValue -> AutValue)
      requires Valid() && WellFormed(purge(Value()).out, purge(Value()).init)
      modifies this
      ensures Valid() && Value() == purge(old(Value()))
      ensures aps == old(aps)
    {
      var g := purge(Value());
      out := g.out;
      init := g.init;
    }

    /** Overwrites the guard of the `i`-th edge leaving `s`. */
    method SetCond(s: nat, i: nat, c: Bdd)
      requires Valid() && s < |out| && i < |out[s]|
      modifies this
      ensures Valid()
      ensures out == old(out)[s := old(out)[s][i := old(out)[s][i].(cond := c)]]
      ensures init == old(init) && aps == old(aps)
    {
      out := out[s := out[s][i := out[s][i].(cond := c)]];
    }
  }
}
