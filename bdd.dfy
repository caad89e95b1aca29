/**
 * Boolean functions as decision diagrams.
 *
 * The guards of the automaton and everything the analyses compute from them
 * are binary decision diagrams. A diagram is a decision tree whose inner nodes
 * test one variable; `Eval` gives its meaning under an assignment of all
 * variables. Diagrams built by the operations below need not be reduced, so
 * the library's identity tests against the constants (`!= bddfalse`,
 * `== bddtrue`) become the decision procedures `IsSat` and `IsValid`, proved
 * equivalent to their semantic definitions.
 */
module Bdd {

  type Var = nat

  /** A total assignment of truth values to the variables. */
  type Assignment = Var -> bool

  datatype Bdd = False | True | Node(v: Var, low: Bdd, high: Bdd)

  function Eval(b: Bdd, a: Assignment): bool
  {
    match b
    case False => false
    case True => true
    case Node(v, l, h) => if a(v) then Eval(h, a) else Eval(l, a)
  }

  /** The assignment `a` with variable `v` forced to `c`. */
  function Set(a: Assignment, v: Var, c: bool): Assignment
  {
    (u: Var) => if u == v then c else a(u)
  }

  /** The variables tested anywhere in `b`. */
  function Support(b: Bdd): set<Var>
  {
    match b
    case False => {}
    case True => {}
    case Node(v, l, h) => {v} + Support(l) + Support(h)
  }

  /**
   * No variable is tested twice on a path. Every reduced ordered diagram the
   * BDD library hands out has this shape.
   */
  predicate Free(b: Bdd)
  {
    match b
    case False => true
    case True => true
    case Node(v, l, h) => v !in Support(l) && v !in Support(h) && Free(l) && Free(h)
  }

  ghost predicate AgreeOn(a1: Assignment, a2: Assignment, vs: set<Var>)
  {
    forall u :: u in vs ==> a1(u) == a2(u)
  }

  /** The value of a diagram depends only on the variables it tests. */
  lemma {:induction false} EvalOnSupport(b: Bdd, a1: Assignment, a2: Assignment)
    requires AgreeOn(a1, a2, Support(b))
    ensures Eval(b, a1) == Eval(b, a2)
  {
    match b
    case False =>
    case True =>
    case Node(v, l, h) =>
      assert v in Support(b);
      EvalOnSupport(l, a1, a2);
      EvalOnSupport(h, a1, a2);
  }

  function Ithvar(v: Var): (r: Bdd)
    ensures forall a: Assignment :: Eval(r, a) == a(v)
  {
    Node(v, False, True)
  }

  function Nithvar(v: Var): (r: Bdd)
    ensures forall a: Assignment :: Eval(r, a) == !a(v)
  {
    Node(v, True, False)
  }

  /** The literal of `v` with polarity `c`. */
  function Lit(v: Var, c: bool): (r: Bdd)
    ensures forall a: Assignment :: Eval(r, a) == (a(v) == c)
    ensures Support(r) == {v}
  {
    if c then Ithvar(v) else Nithvar(v)
  }

  function Not(b: Bdd): (r: Bdd)
    ensures forall a: Assignment :: Eval(r, a) == !Eval(b, a)
    ensures Support(r) == Support(b)
  {
    match b
    case False => True
    case True => False
    case Node(v, l, h) => Node(v, Not(l), Not(h))
  }

  function And(x: Bdd, y: Bdd): (r: Bdd)
    ensures forall a: Assignment :: Eval(r, a) == (Eval(x, a) && Eval(y, a))
    ensures Support(r) <= Support(x) + Support(y)
  {
    if y == False then False
    else if y == True then x
    else
      match x
      case False => False
      case True => y
      case Node(v, l, h) => Node(v, And(l, y), And(h, y))
  }

  function Or(x: Bdd, y: Bdd): (r: Bdd)
    ensures forall a: Assignment :: Eval(r, a) == (Eval(x, a) || Eval(y, a))
    ensures Support(r) <= Support(x) + Support(y)
  {
    if y == True then True
    else if y == False then x
    else
      match x
      case False => y
      case True => True
      case Node(v, l, h) => Node(v, Or(l, y), Or(h, y))
  }

  function Imp(x: Bdd, y: Bdd): (r: Bdd)
    ensures forall a: Assignment :: Eval(r, a) == (Eval(x, a) ==> Eval(y, a))
  {
    Or(Not(x), y)
  }

  /** The cofactor of `b` with `v` fixed to `c` (bdd_restrict with a literal). */
  function Restrict(b: Bdd, v: Var, c: bool): (r: Bdd)
    ensures Support(r) <= Support(b) - {v}
  {
    match b
    case False => False
    case True => True
    case Node(u, l, h) =>
      if u == v then Restrict(if c then h else l, v, c)
      else Node(u, Restrict(l, v, c), Restrict(h, v, c))
  }

  /*
   * The meanings of Restrict, Rename and ExistsVar are lemmas rather than
   * postconditions: a quantified postcondition relating `Eval(r, a)` to `Eval(b, a')`
   * for a new assignment `a'` would feed itself whenever `r` and `b` coincide.
   */

  /** The cofactor agrees with `b` once `v` is forced to `c`. */
  lemma {:induction false} RestrictMeaning(b: Bdd, v: Var, c: bool, a: Assignment)
    ensures Eval(Restrict(b, v, c), a) == Eval(b, Set(a, v, c))
  {
    match b
    case False =>
    case True =>
    case Node(u, l, h) =>
      if u == v {
        RestrictMeaning(if c then h else l, v, c, a);
      } else {
        RestrictMeaning(l, v, c, a);
        RestrictMeaning(h, v, c, a);
      }
  }

  /** `a` seen through the renaming `m`: variable `u` reads the value of `m[u]`. */
  function Through(a: Assignment, m: map<Var, Var>): Assignment
  {
    (u: Var) => if u in m then a(m[u]) else a(u)
  }

  /** Simultaneous substitution of variables (bdd_replace with a pair table). */
  function Rename(b: Bdd, m: map<Var, Var>): Bdd
  {
    match b
    case False => False
    case True => True
    case Node(u, l, h) => Node(if u in m then m[u] else u, Rename(l, m), Rename(h, m))
  }

  /** Renaming `u` to `m[u]` reads, under `a`, what `b` reads under `a` seen through `m`. */
  lemma {:induction false} RenameMeaning(b: Bdd, m: map<Var, Var>, a: Assignment)
    ensures Eval(Rename(b, m), a) == Eval(b, Through(a, m))
  {
    match b
    case False =>
    case True =>
    case Node(u, l, h) =>
      RenameMeaning(l, m, a);
      RenameMeaning(h, m, a);
  }

  lemma {:induction false} RenameSupport(b: Bdd, m: map<Var, Var>)
    ensures forall u :: u in Support(Rename(b, m)) ==>
      (exists w :: w in Support(b) && w in m && m[w] == u) || (u in Support(b) && u !in m)
  {
    match b
    case False =>
    case True =>
    case Node(w, l, h) =>
      RenameSupport(l, m);
      RenameSupport(h, m);
  }

  /** Existential quantification of one variable. */
  function ExistsVar(b: Bdd, v: Var): (r: Bdd)
    ensures Support(r) <= Support(b) - {v}
  {
    Or(Restrict(b, v, false), Restrict(b, v, true))
  }

  lemma ExistsVarMeaning(b: Bdd, v: Var, a: Assignment)
    ensures Eval(ExistsVar(b, v), a) == (Eval(b, Set(a, v, false)) || Eval(b, Set(a, v, true)))
  {
    RestrictMeaning(b, v, false, a);
    RestrictMeaning(b, v, true, a);
  }

  /** Existential quantification of every variable of `vs` (bdd_exist with a cube). */
  function ExistsAll(b: Bdd, vs: seq<Var>): Bdd
    decreases |vs|
  {
    if vs == [] then b else ExistsAll(ExistsVar(b, vs[0]), vs[1..])
  }

  /** The quantified variables no longer occur in the result. */
  lemma {:induction false} ExistsAllSupport(b: Bdd, vs: seq<Var>)
    ensures forall u :: u in Support(ExistsAll(b, vs)) ==> u in Support(b) && u !in vs
    decreases |vs|
  {
    if vs != [] {
      ExistsAllSupport(ExistsVar(b, vs[0]), vs[1..]);
    }
  }

  /** `a1` and `a2` differ at most on the variables of `vs`. */
  ghost predicate AgreeOutside(a1: Assignment, a2: Assignment, vs: seq<Var>)
  {
    forall u :: u !in vs ==> a1(u) == a2(u)
  }

  /** A witness for one quantified variable. */
  lemma ExistsVarWitness(b: Bdd, v: Var, a: Assignment)
    requires Eval(ExistsVar(b, v), a)
    ensures Eval(b, Set(a, v, Eval(b, Set(a, v, true))))
  {
    ExistsVarMeaning(b, v, a);
  }

  /** Any assignment that differs from a model of `b` only at `v` satisfies `ExistsVar(b, v)`. */
  lemma ExistsVarIntro(b: Bdd, v: Var, a: Assignment, a': Assignment)
    requires AgreeOutside(a, a', [v]) && Eval(b, a')
    ensures Eval(ExistsVar(b, v), a)
  {
    var a2 := Set(a, v, a'(v));
    assert AgreeOn(a2, a', Support(b)) by {
      forall u | u in Support(b) ensures a2(u) == a'(u) {
        if u != v { assert u !in [v]; }
      }
    }
    EvalOnSupport(b, a2, a');
    ExistsVarMeaning(b, v, a);
  }

  lemma AgreeOutsideCons(a: Assignment, a1: Assignment, v: Var, rest: seq<Var>)
    requires a1(v) == a(v) || v in rest
    requires forall u :: u != v && u !in rest ==> a(u) == a1(u)
    ensures AgreeOutside(a, a1, rest)
  {
  }

  lemma {:induction false} ExistsAllSound(b: Bdd, vs: seq<Var>, a: Assignment)
    requires Eval(ExistsAll(b, vs), a)
    ensures exists a': Assignment :: AgreeOutside(a, a', vs) && Eval(b, a')
    decreases |vs|
  {
    if vs == [] {
      assert AgreeOutside(a, a, vs);
    } else {
      var v, rest := vs[0], vs[1..];
      var e := ExistsVar(b, v);
      ExistsAllSound(e, rest, a);
      var a1 :| AgreeOutside(a, a1, rest) && Eval(e, a1);
      ExistsVarWitness(b, v, a1);
      var a' := Set(a1, v, Eval(b, Set(a1, v, true)));
      assert AgreeOutside(a, a', vs) by {
        forall u | u !in vs ensures a(u) == a'(u) {
          assert u !in rest && u != v;
        }
      }
    }
  }

  /** One step of `ExistsAllComplete`: move the witness back to `a` at the first variable. */
  lemma ExistsAllCompleteStep(b: Bdd, vs: seq<Var>, a: Assignment, a': Assignment)
    requires vs != []
    requires AgreeOutside(a, a', vs) && Eval(b, a')
    ensures AgreeOutside(a, Set(a', vs[0], a(vs[0])), vs[1..])
    ensures Eval(ExistsVar(b, vs[0]), Set(a', vs[0], a(vs[0])))
  {
    var v, rest := vs[0], vs[1..];
    var a1 := Set(a', v, a(v));
    forall u | u !in [v] ensures a1(u) == a'(u) { }
    ExistsVarIntro(b, v, a1, a');
    forall u | u != v && u !in rest ensures a(u) == a1(u) {
      assert u !in vs;
    }
    AgreeOutsideCons(a, a1, v, rest);
  }

  lemma {:induction false} ExistsAllComplete(b: Bdd, vs: seq<Var>, a: Assignment, a': Assignment)
    requires AgreeOutside(a, a', vs) && Eval(b, a')
    ensures Eval(ExistsAll(b, vs), a)
    decreases |vs|
  {
    if vs == [] {
      EvalOnSupport(b, a, a');
    } else {
      ExistsAllCompleteStep(b, vs, a, a');
      ExistsAllComplete(ExistsVar(b, vs[0]), vs[1..], a, Set(a', vs[0], a(vs[0])));
    }
  }

  /**
   * The meaning of `ExistsAll`: true under `a` iff some assignment that differs
   * from `a` at most on the quantified variables satisfies `b`.
   */
  lemma ExistsAllMeaning(b: Bdd, vs: seq<Var>, a: Assignment)
    ensures Eval(ExistsAll(b, vs), a) <==>
      exists a': Assignment :: AgreeOutside(a, a', vs) && Eval(b, a')
  {
    if Eval(ExistsAll(b, vs), a) {
      ExistsAllSound(b, vs, a);
    }
    if a' :| AgreeOutside(a, a', vs) && Eval(b, a') {
      ExistsAllComplete(b, vs, a, a');
    }
  }

  /** `a` gives every variable of `fixed` the value recorded there. */
  ghost predicate Extends(a: Assignment, fixed: map<Var, bool>)
  {
    forall u :: u in fixed ==> a(u) == fixed[u]
  }

  /**
   * Some path of `b` that respects the choices already made in `fixed` ends
   * in `True`.
   */
  function SatUnder(b: Bdd, fixed: map<Var, bool>): bool
  {
    match b
    case False => false
    case True => true
    case Node(v, l, h) =>
      if v in fixed then SatUnder(if fixed[v] then h else l, fixed)
      else SatUnder(l, fixed[v := false]) || SatUnder(h, fixed[v := true])
  }

  lemma {:induction false} SatUnderSound(b: Bdd, fixed: map<Var, bool>)
    requires SatUnder(b, fixed)
    ensures exists a: Assignment :: Extends(a, fixed) && Eval(b, a)
  {
    match b
    case False =>
    case True =>
      var a: Assignment := (u: Var) => if u in fixed then fixed[u] else false;
      assert Extends(a, fixed);
    case Node(v, l, h) =>
      if v in fixed {
        SatUnderSound(if fixed[v] then h else l, fixed);
      } else if SatUnder(l, fixed[v := false]) {
        SatUnderSound(l, fixed[v := false]);
        var a: Assignment :| Extends(a, fixed[v := false]) && Eval(l, a);
        assert a(v) == false;
        assert Extends(a, fixed);
      } else {
        SatUnderSound(h, fixed[v := true]);
        var a: Assignment :| Extends(a, fixed[v := true]) && Eval(h, a);
        assert a(v) == true;
        assert Extends(a, fixed);
      }
  }

  lemma {:induction false} SatUnderComplete(b: Bdd, fixed: map<Var, bool>, a: Assignment)
    requires Extends(a, fixed) && Eval(b, a)
    ensures SatUnder(b, fixed)
  {
    match b
    case False =>
    case True =>
    case Node(v, l, h) =>
      if v in fixed {
        SatUnderComplete(if fixed[v] then h else l, fixed, a);
      } else {
        assert Extends(a, fixed[v := a(v)]);
        SatUnderComplete(if a(v) then h else l, fixed[v := a(v)], a);
      }
  }

  /** Satisfiability: the library's test `b != bddfalse`. */
  function IsSat(b: Bdd): bool
  {
    SatUnder(b, map[])
  }

  lemma IsSatMeaning(b: Bdd)
    ensures IsSat(b) <==> exists a: Assignment :: Eval(b, a)
  {
    if IsSat(b) {
      SatUnderSound(b, map[]);
    }
    if a: Assignment :| Eval(b, a) {
      SatUnderComplete(b, map[], a);
    }
  }

  /** Any model of `b` shows that `b` is satisfiable. */
  lemma IsSatIntro(b: Bdd, a: Assignment)
    requires Eval(b, a)
    ensures IsSat(b)
  {
    SatUnderComplete(b, map[], a);
  }

  /** Validity: the library's test `b == bddtrue`. */
  function IsValid(b: Bdd): bool
  {
    !IsSat(Not(b))
  }

  lemma IsValidMeaning(b: Bdd)
    ensures IsValid(b) <==> forall a: Assignment :: Eval(b, a)
  {
    IsSatMeaning(Not(b));
    if IsValid(b) {
      forall a: Assignment ensures Eval(b, a) {
        assert Eval(Not(b), a) == !Eval(b, a);
      }
    } else {
      var a: Assignment :| Eval(Not(b), a);
      assert !Eval(b, a);
    }
  }

  /** `x` implies `y` everywhere (the library's test `bdd_implies`). */
  function Implies(x: Bdd, y: Bdd): bool
  {
    IsValid(Imp(x, y))
  }

  lemma ImpliesMeaning(x: Bdd, y: Bdd)
    ensures Implies(x, y) ==> forall w: Assignment :: Eval(x, w) ==> Eval(y, w)
    ensures !Implies(x, y) ==> exists w: Assignment :: Eval(x, w) && !Eval(y, w)
  {
    var i := Imp(x, y);
    IsValidMeaning(i);
    if Implies(x, y) {
      forall a: Assignment | Eval(x, a) ensures Eval(y, a) {
        ValidAt(i, a);
      }
    } else {
      assert !(forall w: Assignment :: Eval(i, w));
      var w: Assignment :| !Eval(i, w);
      assert Eval(x, w) && !Eval(y, w);
    }
  }

  lemma ValidAt(b: Bdd, a: Assignment)
    requires IsValid(b)
    ensures Eval(b, a)
  {
    IsValidMeaning(b);
    assert forall w: Assignment :: Eval(b, w);
  }

  /** The inner nodes of `b`, shared subdiagrams counted once. */
  function Nodes(b: Bdd): set<Bdd>
  {
    match b
    case False => {}
    case True => {}
    case Node(_, l, h) => {b} + Nodes(l) + Nodes(h)
  }

  /** The node count that bdd_nodecount reports for a diagram. */
  function NodeCount(b: Bdd): (n: nat)
    ensures n == 0 <==> b.False? || b.True?
  {
    assert b.Node? ==> b in Nodes(b);
    |Nodes(b)|
  }
}
