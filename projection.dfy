/**
 * Projecting variables out of an automaton: every guard is replaced by its
 * existential quantification over the removed variables, and the variables
 * are then dropped from the automaton's propositions.
 */
module Projection {
  import opened Bdd
  import opened Automaton

  /** The guards of `out` with the variables of `vs` quantified away. */
  function Project(out: seq<seq<Edge>>, vs: seq<Var>): (r: seq<seq<Edge>>)
    ensures |r| == |out| && forall s :: 0 <= s < |out| ==> |r[s]| == |out[s]|
  {
    seq(|out|, s requires 0 <= s < |out| =>
      seq(|out[s]|, i requires 0 <= i < |out[s]| => out[s][i].(cond := ExistsAll(out[s][i].cond, vs))))
  }

  /**
   * Projection keeps every edge with its destination and marks, each old
   * guard implies its new guard, and no new guard tests a removed variable.
   */
  lemma ProjectEffect(out: seq<seq<Edge>>, vs: seq<Var>, s: nat, i: nat, a: Assignment)
    requires s < |out| && i < |out[s]|
    ensures Project(out, vs)[s][i].dst == out[s][i].dst && Project(out, vs)[s][i].acc == out[s][i].acc
    ensures Eval(out[s][i].cond, a) ==> Eval(Project(out, vs)[s][i].cond, a)
    ensures forall u :: u in Support(Project(out, vs)[s][i].cond) ==> u !in vs
  {
    var g := out[s][i].cond;
    ExistsAllMeaning(g, vs, a);
    assert AgreeOutside(a, a, vs);
    ExistsAllSupport(g, vs);
  }

  /**
   * The new guard holds exactly where some change of the removed variables
   * satisfies the old one.
   */
  lemma ProjectMeaning(out: seq<seq<Edge>>, vs: seq<Var>, s: nat, i: nat, a: Assignment)
    requires s < |out| && i < |out[s]|
    ensures Eval(Project(out, vs)[s][i].cond, a) <==> exists a': Assignment :: AgreeOutside(a, a', vs) && Eval(out[s][i].cond, a')
  {
    ExistsAllMeaning(out[s][i].cond, vs, a);
  }

  /** The variables of `names`, registered in order (the conjunction `vars` of the source, as a list). */
  method RegisterAll(aut: Twa, names: seq<string>) returns (vs: seq<Var>)
    requires aut.dict.Valid()
    modifies aut, aut.dict
    ensures aut.dict.Valid() && aut.out == old(aut.out) && aut.init == old(aut.init)
    ensures |vs| == |names| && forall k :: 0 <= k < |names| ==> names[k] in aut.dict.vars && vs[k] == aut.dict.vars[names[k]]
    ensures forall n :: n in old(aut.dict.vars) ==> n in aut.dict.vars && aut.dict.vars[n] == old(aut.dict.vars[n])
    ensures forall n :: n in aut.aps <==> n in old(aut.aps) || n in names
  {
    vs := [];
    var k := 0;
    while k < |names|
      invariant k <= |names| && |vs| == k
      invariant aut.dict.Valid() && aut.out == old(aut.out) && aut.init == old(aut.init)
      invariant forall j :: 0 <= j < k ==> names[j] in aut.dict.vars && vs[j] == aut.dict.vars[names[j]]
      invariant forall n :: n in old(aut.dict.vars) ==> n in aut.dict.vars && aut.dict.vars[n] == old(aut.dict.vars[n])
      invariant forall n :: n in aut.aps <==> n in old(aut.aps) || n in names[..k]
    {
      var v := aut.RegisterAp(names[k]);
      vs := vs + [v];
      assert names[..k + 1] == names[..k] + [names[k]];
      k := k + 1;
    }
    assert names[..k] == names;
  }

  /** Quantifies `vs` out of every guard, state by state and edge by edge. */
  method QuantifyGuards(aut: Twa, vs: seq<Var>)
    requires aut.Valid()
    modifies aut
    ensures aut.Valid() && aut.out == Project(old(aut.out), vs)
    ensures aut.init == old(aut.init) && aut.aps == old(aut.aps)
  {
    ghost var out0 := aut.out;
    var s := 0;
    while s < |aut.out|
      invariant s <= |aut.out| && |aut.out| == |out0|
      invariant aut.Valid() && aut.init == old(aut.init) && aut.aps == old(aut.aps)
      invariant forall t :: 0 <= t < s ==> aut.out[t] == Project(out0, vs)[t]
      invariant forall t :: s <= t < |out0| ==> aut.out[t] == out0[t]
    {
      ghost var outer := aut.out;
      var i := 0;
      while i < |aut.out[s]|
        invariant |aut.out| == |out0| && i <= |aut.out[s]| && |aut.out[s]| == |out0[s]|
        invariant aut.Valid() && aut.init == old(aut.init) && aut.aps == old(aut.aps)
        invariant forall t :: 0 <= t < |out0| && t != s ==> aut.out[t] == outer[t]
        invariant forall j :: 0 <= j < i ==> aut.out[s][j] == Project(out0, vs)[s][j]
        invariant forall j :: i <= j < |out0[s]| ==> aut.out[s][j] == out0[s][j]
      {
        aut.SetCond(s, i, ExistsAll(aut.out[s][i].cond, vs));
        i := i + 1;
      }
      assert aut.out[s] == Project(out0, vs)[s];
      s := s + 1;
    }
    assert aut.out == Project(out0, vs);
  }

  /** Looks up an already registered proposition and unregisters it. */
  method DropAp(aut: Twa, name: string)
    requires aut.Valid() && aut.dict.Valid() && name in aut.dict.vars
    modifies aut, aut.dict
    ensures aut.Valid() && aut.dict.Valid()
    ensures aut.out == old(aut.out) && aut.init == old(aut.init) && aut.dict.vars == old(aut.dict.vars)
    ensures forall n :: n in aut.aps <==> n in old(aut.aps) && n != name
  {
    var ap := aut.RegisterAp(name);
    aut.UnregisterAp(ap);
  }

  /**
   * remove_ap_from_automaton: quantifies the named propositions out of every
   * guard, then unregisters each of them from the automaton.
   */
  method RemoveApFromAutomaton(aut: Twa, variables: seq<string>) returns (vs: seq<Var>)
    requires aut.Valid() && aut.dict.Valid()
    modifies aut, aut.dict
    ensures aut.Valid() && aut.dict.Valid() && aut.init == old(aut.init)
    ensures |vs| == |variables| && forall k :: 0 <= k < |variables| ==> variables[k] in aut.dict.vars && vs[k] == aut.dict.vars[variables[k]]
    ensures aut.out == Project(old(aut.out), vs)
    ensures forall n :: n in aut.aps <==> n in old(aut.aps) && n !in variables
  {
    vs := RegisterAll(aut, variables);
    QuantifyGuards(aut, vs);
    var k := 0;
    while k < |variables|
      invariant k <= |variables|
      invariant aut.Valid() && aut.dict.Valid() && aut.init == old(aut.init)
      invariant aut.out == Project(old(aut.out), vs)
      invariant forall j :: 0 <= j < |variables| ==> variables[j] in aut.dict.vars && vs[j] == aut.dict.vars[variables[j]]
      invariant forall n :: n in aut.aps <==> (n in old(aut.aps) || n in variables) && n !in variables[..k]
    {
      DropAp(aut, variables[k]);
      assert variables[..k + 1] == variables[..k] + [variables[k]];
      k := k + 1;
    }
    assert variables[..k] == variables;
  }
}
