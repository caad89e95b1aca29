/**
 * The search for dependent variables over an automaton.
 *
 * A variable x is dependent on a set Y when, in every pair of states reachable
 * by a common prefix, no two outgoing edges can be taken with the same values
 * of Y but opposite values of x. The search first collects the compatible
 * pairs of states with a worklist, then tests the candidates one by one from
 * the back of the list.
 */
module FindDeps {
  import opened Bdd
  import opened Automaton
  import opened BddUtils

  type PairState = (nat, nat)

  /** The pair with the smaller state first. */
  function Normalize(p: PairState): (r: PairState)
    ensures r.0 <= r.1
    ensures (r.0 == p.0 && r.1 == p.1) || (r.0 == p.1 && r.1 == p.0)
  {
    if p.0 > p.1 then (p.1, p.0) else p
  }

  /** Whether some assignment satisfies both guards. */
  function SharesAssignment(e1: Edge, e2: Edge): bool
  {
    IsSat(And(e1.cond, e2.cond))
  }

  lemma SharesAssignmentMeaning(e1: Edge, e2: Edge)
    ensures SharesAssignment(e1, e2) ==> exists a: Assignment :: Eval(e1.cond, a) && Eval(e2.cond, a)
    ensures (exists a: Assignment :: Eval(e1.cond, a) && Eval(e2.cond, a)) ==> SharesAssignment(e1, e2)
  {
    var c := And(e1.cond, e2.cond);
    IsSatMeaning(c);
    if a: Assignment :| Eval(e1.cond, a) && Eval(e2.cond, a) {
      assert Eval(c, a);
      IsSatIntro(c, a);
    }
    if SharesAssignment(e1, e2) {
      var a: Assignment :| Eval(c, a);
      assert Eval(e1.cond, a) && Eval(e2.cond, a);
    }
  }

  /** Two edges the search follows together: same destination, or a common assignment. */
  predicate Compatible(e1: Edge, e2: Edge)
  {
    e1.dst == e2.dst || SharesAssignment(e1, e2)
  }

  /** `q` is reached from `p` by a compatible pair of edges. */
  ghost predicate Succ(out: seq<seq<Edge>>, p: PairState, q: PairState)
  {
    p.0 < |out| && p.1 < |out| &&
    exists i, j :: 0 <= i < |out[p.0]| && 0 <= j < |out[p.1]| &&
      Compatible(out[p.0][i], out[p.1][j]) &&
      Normalize((out[p.0][i].dst, out[p.1][j].dst)) == q
  }

  /** Every pair is normalised and made of states of `out`. */
  ghost predicate Normalised(out: seq<seq<Edge>>, pairs: seq<PairState>)
  {
    forall k :: 0 <= k < |pairs| ==> pairs[k].0 <= pairs[k].1 < |out|
  }

  ghost predicate Distinct(pairs: seq<PairState>)
  {
    forall k, l :: 0 <= k < l < |pairs| ==> pairs[k] != pairs[l]
  }

  /** The list starts at (init, init) and every later pair follows from an earlier one. */
  ghost predicate Derived(out: seq<seq<Edge>>, init: nat, pairs: seq<PairState>)
  {
    (|pairs| > 0 ==> pairs[0] == (init, init)) &&
    forall k :: 0 < k < |pairs| ==> exists m :: 0 <= m < k && Succ(out, pairs[m], pairs[k])
  }

  /** Every compatible successor of `p` is in `pairs` or waits in `queue`. */
  ghost predicate PairCovered(out: seq<seq<Edge>>, p: PairState, pairs: seq<PairState>, queue: seq<PairState>)
  {
    p.0 < |out| && p.1 < |out| ==>
      forall i, j ::
        0 <= i < |out[p.0]| && 0 <= j < |out[p.1]| && Compatible(out[p.0][i], out[p.1][j])
        ==> Normalize((out[p.0][i].dst, out[p.1][j].dst)) in pairs ||
            Normalize((out[p.0][i].dst, out[p.1][j].dst)) in queue
  }

  ghost predicate Covered(out: seq<seq<Edge>>, pairs: seq<PairState>, queue: seq<PairState>)
  {
    forall k :: 0 <= k < |pairs| ==> PairCovered(out, pairs[k], pairs, queue)
  }

  /** Every compatible successor of a listed pair is listed. */
  ghost predicate Closed(out: seq<seq<Edge>>, pairs: seq<PairState>)
  {
    Covered(out, pairs, [])
  }

  /** A run of compatible steps from (init, init). */
  ghost predicate IsPath(out: seq<seq<Edge>>, init: nat, path: seq<PairState>)
  {
    |path| > 0 && path[0] == (init, init) &&
    forall k :: 0 < k < |path| ==> Succ(out, path[k - 1], path[k])
  }

  /** Every listed pair is reached from (init, init) by compatible steps. */
  lemma {:induction false} DerivedReachable(out: seq<seq<Edge>>, init: nat, pairs: seq<PairState>, k: nat)
    requires Derived(out, init, pairs) && k < |pairs|
    ensures exists path :: IsPath(out, init, path) && path[|path| - 1] == pairs[k]
    decreases k
  {
    if k == 0 {
      assert IsPath(out, init, [pairs[0]]);
    } else {
      var m :| 0 <= m < k && Succ(out, pairs[m], pairs[k]);
      DerivedReachable(out, init, pairs, m);
      var path :| IsPath(out, init, path) && path[|path| - 1] == pairs[m];
      PathSnoc(out, init, path, pairs[k]);
      assert (path + [pairs[k]])[|path|] == pairs[k];
    }
  }

  /** A path extended by a compatible step is a path. */
  lemma PathSnoc(out: seq<seq<Edge>>, init: nat, path: seq<PairState>, q: PairState)
    requires IsPath(out, init, path) && Succ(out, path[|path| - 1], q)
    ensures IsPath(out, init, path + [q])
  {
    var path' := path + [q];
    forall l | 0 < l < |path'| ensures Succ(out, path'[l - 1], path'[l]) {
      if l < |path| {
        assert path'[l - 1] == path[l - 1] && path'[l] == path[l];
      }
    }
  }

  /** A closed list that holds (init, init) holds every pair reached by compatible steps. */
  lemma {:induction false} ClosedHoldsReachable(out: seq<seq<Edge>>, init: nat, pairs: seq<PairState>, path: seq<PairState>)
    requires Closed(out, pairs) && (init, init) in pairs && IsPath(out, init, path)
    ensures path[|path| - 1] in pairs
    decreases |path|
  {
    if |path| > 1 {
      var prefix := path[..|path| - 1];
      assert IsPath(out, init, prefix);
      ClosedHoldsReachable(out, init, pairs, prefix);
      var p, q := path[|path| - 2], path[|path| - 1];
      assert Succ(out, p, q);
      var i, j :| 0 <= i < |out[p.0]| && 0 <= j < |out[p.1]| &&
        Compatible(out[p.0][i], out[p.1][j]) && Normalize((out[p.0][i].dst, out[p.1][j].dst)) == q;
      var k :| 0 <= k < |pairs| && pairs[k] == p;
      assert PairCovered(out, pairs[k], pairs, []);
    }
  }

  /** A closed list holds (d, d) for every edge s -> d of a listed (s, s). */
  lemma ClosedReflexive(out: seq<seq<Edge>>, pairs: seq<PairState>, s: nat, i: nat)
    requires Closed(out, pairs) && (s, s) in pairs && s < |out| && i < |out[s]|
    ensures (out[s][i].dst, out[s][i].dst) in pairs
  {
    var k :| 0 <= k < |pairs| && pairs[k] == (s, s);
    assert PairCovered(out, pairs[k], pairs, []);
    assert Compatible(out[s][i], out[s][i]);
  }

  /** Every queued pair is normalised and made of states of `out`. */
  ghost predicate QueueBounded(out: seq<seq<Edge>>, queue: seq<PairState>)
  {
    forall k :: 0 <= k < |queue| ==> queue[k].0 <= queue[k].1 < |out|
  }

  /** `q` is a compatible successor of some pair of `pairs`. */
  ghost predicate FollowsFrom(out: seq<seq<Edge>>, pairs: seq<PairState>, q: PairState)
  {
    exists m :: 0 <= m < |pairs| && Succ(out, pairs[m], q)
  }

  /** The queue holds (init, init) before any pair is recorded, and successors of recorded pairs after. */
  ghost predicate QueueDerived(out: seq<seq<Edge>>, init: nat, pairs: seq<PairState>, queue: seq<PairState>)
  {
    (|pairs| == 0 ==> queue == [(init, init)]) &&
    (|pairs| > 0 ==> forall k :: 0 <= k < |queue| ==> FollowsFrom(out, pairs, queue[k]))
  }

  /** What the pair search keeps true of its recorded pairs, tested set and worklist. */
  ghost predicate SearchState(out: seq<seq<Edge>>, init: nat, pairs: seq<PairState>,
                              tested: set<PairState>, queue: seq<PairState>)
  {
    (forall q :: q in tested <==> q in pairs) &&
    Normalised(out, pairs) && Distinct(pairs) && Derived(out, init, pairs) &&
    QueueBounded(out, queue) && QueueDerived(out, init, pairs, queue) &&
    Covered(out, pairs, queue)
  }

  lemma CoveredPop(out: seq<seq<Edge>>, pairs: seq<PairState>, queue: seq<PairState>)
    requires queue != [] && Covered(out, pairs, queue) && queue[|queue| - 1] in pairs
    ensures Covered(out, pairs, queue[..|queue| - 1])
  {
    var rest := queue[..|queue| - 1];
    forall k | 0 <= k < |pairs| ensures PairCovered(out, pairs[k], pairs, rest) {
      assert PairCovered(out, pairs[k], pairs, queue);
      forall q | q in queue ensures q in pairs || q in rest {
        var l :| 0 <= l < |queue| && queue[l] == q;
        if l < |rest| {
          assert rest[l] == q;
        }
      }
    }
  }

  lemma QueueDerivedPop(out: seq<seq<Edge>>, init: nat, pairs: seq<PairState>, queue: seq<PairState>)
    requires queue != [] && |pairs| > 0 && QueueDerived(out, init, pairs, queue)
    ensures QueueDerived(out, init, pairs, queue[..|queue| - 1])
  {
    var rest := queue[..|queue| - 1];
    forall k | 0 <= k < |rest| ensures FollowsFrom(out, pairs, rest[k]) {
      assert rest[k] == queue[k];
    }
  }

  /** Dropping an already tested pair from the worklist keeps the search state. */
  lemma PopTested(out: seq<seq<Edge>>, init: nat, pairs: seq<PairState>,
                  tested: set<PairState>, queue: seq<PairState>)
    requires queue != [] && SearchState(out, init, pairs, tested, queue)
    requires queue[|queue| - 1] in tested
    ensures SearchState(out, init, pairs, tested, queue[..|queue| - 1])
  {
    CoveredPop(out, pairs, queue);
    QueueDerivedPop(out, init, pairs, queue);
  }

  lemma CoveredVisit(out: seq<seq<Edge>>, pairs: seq<PairState>, queue: seq<PairState>, queue': seq<PairState>)
    requires queue != [] && Covered(out, pairs, queue)
    requires |queue| - 1 <= |queue'| && queue'[..|queue| - 1] == queue[..|queue| - 1]
    requires PairCovered(out, queue[|queue| - 1], pairs + [queue[|queue| - 1]], queue')
    ensures Covered(out, pairs + [queue[|queue| - 1]], queue')
  {
    var p, rest := queue[|queue| - 1], queue[..|queue| - 1];
    var pairs' := pairs + [p];
    forall k | 0 <= k < |pairs'| ensures PairCovered(out, pairs'[k], pairs', queue') {
      if k < |pairs| {
        assert pairs'[k] == pairs[k];
        assert PairCovered(out, pairs[k], pairs, queue);
        forall q | q in pairs || q in queue ensures q in pairs' || q in queue' {
          if q in queue && q != p {
            var l :| 0 <= l < |queue| && queue[l] == q;
            assert l < |rest| && rest[l] == q && queue'[l] == q;
          }
        }
      }
    }
  }

  lemma DerivedVisit(out: seq<seq<Edge>>, init: nat, pairs: seq<PairState>, p: PairState)
    requires Derived(out, init, pairs)
    requires |pairs| == 0 ==> p == (init, init)
    requires |pairs| > 0 ==> FollowsFrom(out, pairs, p)
    ensures Derived(out, init, pairs + [p])
  {
    var pairs' := pairs + [p];
    forall k | 0 < k < |pairs'| ensures exists m :: 0 <= m < k && Succ(out, pairs'[m], pairs'[k]) {
      if k < |pairs| {
        var m :| 0 <= m < k && Succ(out, pairs[m], pairs[k]);
        assert Succ(out, pairs'[m], pairs'[k]);
      } else {
        var m :| 0 <= m < |pairs| && Succ(out, pairs[m], p);
        assert Succ(out, pairs'[m], pairs'[k]);
      }
    }
  }

  lemma QueueDerivedVisit(out: seq<seq<Edge>>, init: nat, pairs: seq<PairState>, queue: seq<PairState>, queue': seq<PairState>)
    requires queue != [] && QueueDerived(out, init, pairs, queue)
    requires |queue| - 1 <= |queue'| && queue'[..|queue| - 1] == queue[..|queue| - 1]
    requires forall k :: |queue| - 1 <= k < |queue'| ==> Succ(out, queue[|queue| - 1], queue'[k])
    ensures QueueDerived(out, init, pairs + [queue[|queue| - 1]], queue')
  {
    var p := queue[|queue| - 1];
    var pairs' := pairs + [p];
    forall k | 0 <= k < |queue'| ensures FollowsFrom(out, pairs', queue'[k]) {
      if k < |queue| - 1 {
        assert queue'[k] == queue[k];
        assert FollowsFrom(out, pairs, queue[k]);
        var m :| 0 <= m < |pairs| && Succ(out, pairs[m], queue[k]);
        assert pairs'[m] == pairs[m];
      } else {
        assert pairs'[|pairs|] == p;
      }
    }
  }

  lemma RecordVisit(out: seq<seq<Edge>>, pairs: seq<PairState>, tested: set<PairState>, p: PairState)
    requires forall q :: q in tested <==> q in pairs
    requires Normalised(out, pairs) && Distinct(pairs)
    requires p !in tested && p.0 <= p.1 < |out|
    ensures forall q :: q in tested + {p} <==> q in pairs + [p]
    ensures Normalised(out, pairs + [p]) && Distinct(pairs + [p])
  {
    var pairs' := pairs + [p];
    forall k, l | 0 <= k < l < |pairs'| ensures pairs'[k] != pairs'[l] {
      if l < |pairs| {
        assert pairs'[k] == pairs[k] && pairs'[l] == pairs[l];
      } else {
        assert pairs'[k] == pairs[k] && pairs[k] in pairs;
      }
    }
  }

  lemma QueueBoundedVisit(out: seq<seq<Edge>>, queue: seq<PairState>, queue': seq<PairState>)
    requires queue != [] && QueueBounded(out, queue)
    requires |queue| - 1 <= |queue'| && queue'[..|queue| - 1] == queue[..|queue| - 1]
    requires forall k :: |queue| - 1 <= k < |queue'| ==> queue'[k].0 <= queue'[k].1 < |out|
    ensures QueueBounded(out, queue')
  {
    forall k | 0 <= k < |queue'| ensures queue'[k].0 <= queue'[k].1 < |out| {
      if k < |queue| - 1 {
        assert queue'[k] == queue[k];
      }
    }
  }

  /** Recording a new pair and queueing its successors keeps the search state. */
  lemma PopNew(out: seq<seq<Edge>>, init: nat, pairs: seq<PairState>,
               tested: set<PairState>, queue: seq<PairState>, queue': seq<PairState>)
    requires queue != [] && SearchState(out, init, pairs, tested, queue)
    requires queue[|queue| - 1] !in tested
    requires |queue| - 1 <= |queue'| && queue'[..|queue| - 1] == queue[..|queue| - 1]
    requires forall k :: |queue| - 1 <= k < |queue'| ==>
      queue'[k].0 <= queue'[k].1 < |out| && Succ(out, queue[|queue| - 1], queue'[k])
    requires PairCovered(out, queue[|queue| - 1], pairs + [queue[|queue| - 1]], queue')
    ensures var p := queue[|queue| - 1];
      SearchState(out, init, pairs + [p], tested + {p}, queue')
  {
    var p := queue[|queue| - 1];
    RecordVisit(out, pairs, tested, p);
    CoveredVisit(out, pairs, queue, queue');
    if |pairs| > 0 {
      assert FollowsFrom(out, pairs, queue[|queue| - 1]);
    }
    DerivedVisit(out, init, pairs, p);
    QueueDerivedVisit(out, init, pairs, queue, queue');
    QueueBoundedVisit(out, queue, queue');
  }

  ghost function AllPairs(n: nat): set<PairState>
  {
    set i: nat, j: nat | i <= j < n :: (i, j)
  }

  /** The later pairs of a list made by `ResetPairs` override earlier ones on the same variable. */
  function PairTable(resets: seq<(Var, Var)>): (m: map<Var, Var>)
    ensures forall k :: 0 <= k < |resets| ==> resets[k].0 in m
    ensures forall u :: u in m ==> exists k :: 0 <= k < |resets| && resets[k] == (u, m[u])
  {
    if resets == [] then map[]
    else
      var last := resets[|resets| - 1];
      var m := PairTable(resets[..|resets| - 1]);
      assert forall k :: 0 <= k < |resets| - 1 ==> resets[..|resets| - 1][k] == resets[k];
      m[last.0 := last.1]
  }

  /**
   * The two-polarity cofactor test of one pair of edges: false as soon as the
   * first guard with x = c and the renamed second guard with x = !c can hold
   * together, for c = true and then c = false.
   */
  function IsDependentByPairEdges(x: Var, resets: seq<(Var, Var)>, e1: Edge, e2: Edge): bool
  {
    var z1 := e1.cond;
    var z2 := Rename(e2.cond, PairTable(resets));
    var cond1 := And(Restrict(z1, x, true), Restrict(z2, x, false));
    if IsSat(cond1) then false
    else
      var cond2 := And(Restrict(z1, x, false), Restrict(z2, x, true));
      !IsSat(cond2)
  }

  /** Under `a`, the first guard holds with x = c and the renamed second guard with x = !c. */
  ghost predicate Collide(x: Var, m: map<Var, Var>, z1: Bdd, z2: Bdd, c: bool, a: Assignment)
  {
    Eval(z1, Set(a, x, c)) && Eval(z2, Through(Set(a, x, !c), m))
  }

  lemma CofactorPairMeaning(x: Var, m: map<Var, Var>, z1: Bdd, z2: Bdd, c: bool)
    ensures IsSat(And(Restrict(z1, x, c), Restrict(Rename(z2, m), x, !c))) ==>
      exists a: Assignment :: Collide(x, m, z1, z2, c, a)
    ensures (exists a: Assignment :: Collide(x, m, z1, z2, c, a)) ==>
      IsSat(And(Restrict(z1, x, c), Restrict(Rename(z2, m), x, !c)))
  {
    var r := Rename(z2, m);
    var b := And(Restrict(z1, x, c), Restrict(r, x, !c));
    IsSatMeaning(b);
    if IsSat(b) {
      var a: Assignment :| Eval(b, a);
      RestrictMeaning(z1, x, c, a);
      RestrictMeaning(r, x, !c, a);
      RenameMeaning(z2, m, Set(a, x, !c));
      assert Collide(x, m, z1, z2, c, a);
    }
    if a: Assignment :| Collide(x, m, z1, z2, c, a) {
      RestrictMeaning(z1, x, c, a);
      RestrictMeaning(r, x, !c, a);
      RenameMeaning(z2, m, Set(a, x, !c));
      IsSatIntro(b, a);
    }
  }

  /** The pair of edges passes the test iff no assignment makes them collide in either polarity. */
  lemma IsDependentByPairEdgesMeaning(x: Var, resets: seq<(Var, Var)>, e1: Edge, e2: Edge)
    ensures !IsDependentByPairEdges(x, resets, e1, e2) ==>
      exists c: bool, a: Assignment :: Collide(x, PairTable(resets), e1.cond, e2.cond, c, a)
    ensures (exists c: bool, a: Assignment :: Collide(x, PairTable(resets), e1.cond, e2.cond, c, a)) ==>
      !IsDependentByPairEdges(x, resets, e1, e2)
  {
    var m := PairTable(resets);
    CofactorPairMeaning(x, m, e1.cond, e2.cond, true);
    CofactorPairMeaning(x, m, e1.cond, e2.cond, false);
  }

  /**
   * Two copies of the variables: `a1` satisfies the first guard with x = c, `a2`
   * the second with x = !c, and they agree on every variable other than x and
   * the renamed ones.
   */
  ghost predicate TwoCopies(x: Var, renamed: set<Var>, z1: Bdd, z2: Bdd, c: bool)
  {
    exists a1: Assignment, a2: Assignment ::
      Eval(z1, a1) && Eval(z2, a2) && a1(x) == c && a2(x) == !c &&
      forall u :: u !in renamed && u != x ==> a1(u) == a2(u)
  }

  /** The renaming is a fresh copy: injective, away from x and from both guards. */
  ghost predicate FreshRenaming(x: Var, m: map<Var, Var>, z1: Bdd, z2: Bdd)
  {
    x !in m &&
    (forall u :: u in m ==> m[u] != x && m[u] !in Support(z1) && m[u] !in Support(z2)) &&
    (forall u, w :: u in m && w in m && u != w ==> m[u] != m[w])
  }

  lemma CollideTwoCopies(x: Var, m: map<Var, Var>, z1: Bdd, z2: Bdd, c: bool, a: Assignment)
    requires x !in m && Collide(x, m, z1, z2, c, a)
    ensures TwoCopies(x, m.Keys, z1, z2, c)
  {
    var a1 := Set(a, x, c);
    var a2 := Through(Set(a, x, !c), m);
    assert a1(x) == c && a2(x) == !c;
    assert forall u :: u !in m.Keys && u != x ==> a1(u) == a2(u);
  }

  /** One variable that `m` sends to `p`. */
  ghost function Preimage(m: map<Var, Var>, p: Var): (u: Var)
    requires p in m.Values
    ensures u in m && m[u] == p
  {
    var u :| u in m && m[u] == p; u
  }

  /** Away from the renamed copies, the merged assignment is the first copy. */
  lemma FirstCopy(x: Var, m: map<Var, Var>, z1: Bdd, c: bool, a1: Assignment, a: Assignment)
    requires forall u :: u in m ==> m[u] !in Support(z1)
    requires a1(x) == c
    requires forall p :: p !in m.Values ==> a(p) == a1(p)
    ensures Eval(z1, Set(a, x, c)) == Eval(z1, a1)
  {
    var s1 := Set(a, x, c);
    forall u | u in Support(z1) ensures s1(u) == a1(u) { }
    EvalOnSupport(z1, s1, a1);
  }

  /** Read through the renaming, the merged assignment is the second copy. */
  lemma SecondCopy(x: Var, m: map<Var, Var>, z2: Bdd, c: bool, a1: Assignment, a2: Assignment, a: Assignment)
    requires x !in m
    requires forall u :: u in m ==> m[u] != x && m[u] !in Support(z2)
    requires forall u, w :: u in m && w in m && u != w ==> m[u] != m[w]
    requires a2(x) == !c
    requires forall u :: u !in m.Keys && u != x ==> a1(u) == a2(u)
    requires forall p :: p in m.Values ==> a(p) == a2(Preimage(m, p))
    requires forall p :: p !in m.Values ==> a(p) == a1(p)
    ensures Eval(z2, Through(Set(a, x, !c), m)) == Eval(z2, a2)
  {
    var s2 := Through(Set(a, x, !c), m);
    forall u | u in Support(z2) ensures s2(u) == a2(u) {
      if u in m {
        var p := m[u];
        assert p in m.Values;
        assert Preimage(m, p) == u;
      }
    }
    EvalOnSupport(z2, s2, a2);
  }

  lemma TwoCopiesCollide(x: Var, m: map<Var, Var>, z1: Bdd, z2: Bdd, c: bool)
    requires FreshRenaming(x, m, z1, z2) && TwoCopies(x, m.Keys, z1, z2, c)
    ensures exists a: Assignment :: Collide(x, m, z1, z2, c, a)
  {
    var a1: Assignment, a2: Assignment :|
      Eval(z1, a1) && Eval(z2, a2) && a1(x) == c && a2(x) == !c &&
      forall u :: u !in m.Keys && u != x ==> a1(u) == a2(u);
    var a: Assignment := (p: Var) => if p in m.Values then a2(Preimage(m, p)) else a1(p);
    FirstCopy(x, m, z1, c, a1, a);
    SecondCopy(x, m, z2, c, a1, a2, a);
    assert Collide(x, m, z1, z2, c, a);
  }

  /**
   * With a fresh renaming, the test fails exactly when the two guards can be
   * taken with the same values of every variable that is neither x nor
   * renamed, and opposite values of x.
   */
  lemma IsDependentByPairEdgesTwoCopies(x: Var, resets: seq<(Var, Var)>, e1: Edge, e2: Edge)
    requires FreshRenaming(x, PairTable(resets), e1.cond, e2.cond)
    ensures !IsDependentByPairEdges(x, resets, e1, e2) ==>
      var keys := PairTable(resets).Keys;
      TwoCopies(x, keys, e1.cond, e2.cond, true) || TwoCopies(x, keys, e1.cond, e2.cond, false)
    ensures (var keys := PairTable(resets).Keys;
      TwoCopies(x, keys, e1.cond, e2.cond, true) || TwoCopies(x, keys, e1.cond, e2.cond, false)) ==>
      !IsDependentByPairEdges(x, resets, e1, e2)
  {
    var m := PairTable(resets);
    IsDependentByPairEdgesMeaning(x, resets, e1, e2);
    if !IsDependentByPairEdges(x, resets, e1, e2) {
      var c: bool, a: Assignment :| Collide(x, m, e1.cond, e2.cond, c, a);
      CollideTwoCopies(x, m, e1.cond, e2.cond, c, a);
    }
    if TwoCopies(x, m.Keys, e1.cond, e2.cond, true) {
      TwoCopiesCollide(x, m, e1.cond, e2.cond, true);
    } else if TwoCopies(x, m.Keys, e1.cond, e2.cond, false) {
      TwoCopiesCollide(x, m, e1.cond, e2.cond, false);
    }
  }

  /** Every pair of edges leaving the two states of `p` passes the test. */
  ghost predicate PairPasses(out: seq<seq<Edge>>, p: PairState, x: Var, resets: seq<(Var, Var)>)
    requires p.0 < |out| && p.1 < |out|
  {
    forall i, j :: 0 <= i < |out[p.0]| && 0 <= j < |out[p.1]| ==>
      IsDependentByPairEdges(x, resets, out[p.0][i], out[p.1][j])
  }

  ghost predicate AllPairsPass(out: seq<seq<Edge>>, pairs: seq<PairState>, x: Var, resets: seq<(Var, Var)>)
    requires Normalised(out, pairs)
  {
    forall k :: 0 <= k < |pairs| ==> PairPasses(out, pairs[k], x, resets)
  }

  /** The scan of all recorded pairs and their edge pairs; it stops at the first failure. */
  method CheckPairs(out: seq<seq<Edge>>, pairs: seq<PairState>, x: Var, resets: seq<(Var, Var)>) returns (r: bool)
    requires Normalised(out, pairs)
    ensures r == AllPairsPass(out, pairs, x, resets)
  {
    var k := 0;
    while k < |pairs|
      invariant 0 <= k <= |pairs|
      invariant forall l :: 0 <= l < k ==> PairPasses(out, pairs[l], x, resets)
    {
      var p := pairs[k];
      var i := 0;
      while i < |out[p.0]|
        invariant 0 <= i <= |out[p.0]|
        invariant forall i', j :: 0 <= i' < i && 0 <= j < |out[p.1]| ==>
          IsDependentByPairEdges(x, resets, out[p.0][i'], out[p.1][j])
      {
        var j := 0;
        while j < |out[p.1]|
          invariant 0 <= j <= |out[p.1]|
          invariant forall i', j' :: 0 <= i' < i && 0 <= j' < |out[p.1]| ==>
            IsDependentByPairEdges(x, resets, out[p.0][i'], out[p.1][j'])
          invariant forall j' :: 0 <= j' < j ==> IsDependentByPairEdges(x, resets, out[p.0][i], out[p.1][j'])
        {
          if !IsDependentByPairEdges(x, resets, out[p.0][i], out[p.1][j]) {
            assert !PairPasses(out, p, x, resets);
            return false;
          }
          j := j + 1;
        }
        i := i + 1;
      }
      k := k + 1;
    }
    return true;
  }

  /** `nums` pairs each name of `names` with its entries in `vi` and `pi`. */
  ghost predicate PairsOf(names: seq<string>, nums: seq<(Var, Var)>, vi: map<string, Var>, pi: map<string, Var>)
  {
    |nums| == |names| &&
    forall k :: 0 <= k < |names| ==> names[k] in vi && names[k] in pi && nums[k] == (vi[names[k]], pi[names[k]])
  }

  lemma PairsOfSnoc(names: seq<string>, nums: seq<(Var, Var)>, vi: map<string, Var>, pi: map<string, Var>,
                    vi': map<string, Var>, pi': map<string, Var>, name: string, vs: (Var, Var))
    requires PairsOf(names, nums, vi, pi) && KeepsEntries(vi, vi') && KeepsEntries(pi, pi')
    requires name in vi' && name in pi' && vs == (vi'[name], pi'[name])
    ensures PairsOf(names + [name], nums + [vs], vi', pi')
  {
  }

  /** `PairsOf` survives maps that keep their entries. */
  lemma PairsOfKept(names: seq<string>, nums: seq<(Var, Var)>, vi: map<string, Var>, pi: map<string, Var>,
                    vi': map<string, Var>, pi': map<string, Var>)
    requires PairsOf(names, nums, vi, pi) && KeepsEntries(vi, vi') && KeepsEntries(pi, pi')
    ensures PairsOf(names, nums, vi', pi')
  {
  }

  /**
   * One test of the classification: the candidate, its variable, the pairs
   * (variable, prime) renamed in the second guard, and whether it passed.
   */
  datatype Test = Test(name: string, xv: Var, resets: seq<(Var, Var)>, passed: bool)

  /** The candidates of the tests that passed, in test order. */
  function Passed(log: seq<Test>): seq<string>
  {
    if log == [] then []
    else Passed(log[..|log| - 1]) + (if log[|log| - 1].passed then [log[|log| - 1].name] else [])
  }

  /** The candidates of the tests that failed, in test order. */
  function Failed(log: seq<Test>): seq<string>
  {
    if log == [] then []
    else Failed(log[..|log| - 1]) + (if log[|log| - 1].passed then [] else [log[|log| - 1].name])
  }

  lemma PassedFailedSnoc(log: seq<Test>, t: Test)
    ensures Passed(log + [t]) == Passed(log) + (if t.passed then [t.name] else [])
    ensures Failed(log + [t]) == Failed(log) + (if t.passed then [] else [t.name])
  {
    assert (log + [t])[..|log|] == log;
  }

  /** Every name of `all` that is not in `excluded`, in order. */
  function AllVarsExcluded(all: seq<string>, excluded: seq<string>): (r: seq<string>)
    ensures forall n :: n in r <==> n in all && n !in excluded
  {
    if all == [] then []
    else if all[0] in excluded then AllVarsExcluded(all[1..], excluded)
    else [all[0]] + AllVarsExcluded(all[1..], excluded)
  }

  datatype DependentVariableType = Output | Input

  class FindDepsByAutomaton {
    /** The specification's input and output propositions. */
    const inputs: seq<string>
    const outputs: seq<string>
    const automaton: Twa
    const cacher: BddVarsCacher
    var depType: DependentVariableType
    var stopFlag: bool
    var isDone: bool

    ghost predicate Valid()
      reads cacher, automaton, automaton.dict
    {
      cacher.Valid() && cacher.aut == automaton &&
      automaton.dict.Valid() && automaton.Valid()
    }

    constructor (ins: seq<string>, outs: seq<string>, aut: Twa)
      requires aut.Valid() && aut.dict.Valid()
      modifies aut.dict
      ensures Valid() && fresh(cacher)
      ensures inputs == ins && outputs == outs && automaton == aut
      ensures depType == Output && !stopFlag && !isDone
      ensures aut.out == old(aut.out) && aut.init == old(aut.init)
    {
      var c := new BddVarsCacher(aut);
      inputs := ins;
      outputs := outs;
      automaton := aut;
      cacher := c;
      depType := Output;
      stopFlag := false;
      isDone := false;
    }

    method SetDependentVariableType(t: DependentVariableType)
      modifies this`depType
      ensures depType == t
    {
      depType := t;
    }

    method Stop()
      modifies this`stopFlag
      ensures stopFlag
    {
      stopFlag := true;
    }

    function IsDone(): bool
      reads this
    {
      isDone
    }

    /** A read of the stop flag, which another thread may raise at any time. */
    method PollStop() returns (s: bool)
      modifies this`stopFlag
      ensures s == stopFlag && (old(stopFlag) ==> stopFlag)
    {
      var raised: bool := *;
      stopFlag := stopFlag || raised;
      s := stopFlag;
    }

    /** The variables to classify: the outputs, or the inputs. */
    function Candidates(): (r: seq<string>)
      reads this
      ensures depType == Output ==> r == outputs
      ensures depType == Input ==> r == inputs
    {
      if depType == Output then outputs else inputs
    }

    /** The variables a candidate may depend on. */
    function DependencySet(candidates: seq<string>, independents: seq<string>): (r: seq<string>)
      reads this`depType
      ensures forall n :: n in r <==>
        (depType == Output && n in inputs) || n in candidates || n in independents
    {
      if depType == Output then inputs + (candidates + independents) else candidates + independents
    }

    /**
     * The successors of `p` through edge `i` of its first state that go on
     * the worklist, appended to `queue`. Stops as soon as the stop flag is seen.
     */
    method ExpandEdge(out: seq<seq<Edge>>, p: PairState, i: nat, tested: set<PairState>,
                      queue0: seq<PairState>, queue: seq<PairState>)
      returns (queue': seq<PairState>, stopped: bool)
      requires p.0 <= p.1 < |out| && i < |out[p.0]| && !stopFlag
      requires forall s, i :: 0 <= s < |out| && 0 <= i < |out[s]| ==> out[s][i].dst < |out|
      requires |queue0| <= |queue| && queue[..|queue0|] == queue0
      requires forall k :: |queue0| <= k < |queue| ==>
        queue[k].0 <= queue[k].1 < |out| && Succ(out, p, queue[k])
      modifies this`stopFlag
      ensures stopped == stopFlag
      ensures |queue| <= |queue'| && queue'[..|queue|] == queue
      ensures |queue0| <= |queue'| && queue'[..|queue0|] == queue0
      ensures forall k :: |queue0| <= k < |queue'| ==>
        queue'[k].0 <= queue'[k].1 < |out| && Succ(out, p, queue'[k])
      ensures !stopped ==> forall j :: 0 <= j < |out[p.1]| && Compatible(out[p.0][i], out[p.1][j]) ==>
        Normalize((out[p.0][i].dst, out[p.1][j].dst)) in tested ||
        Normalize((out[p.0][i].dst, out[p.1][j].dst)) in queue'
    {
      queue' := queue;
      stopped := false;
      for j := 0 to |out[p.1]|
        invariant !stopped && !stopFlag
        invariant |queue| <= |queue'| && queue'[..|queue|] == queue
        invariant forall k :: |queue0| <= k < |queue'| ==>
          queue'[k].0 <= queue'[k].1 < |out| && Succ(out, p, queue'[k])
        invariant forall j' :: 0 <= j' < j && Compatible(out[p.0][i], out[p.1][j']) ==>
          Normalize((out[p.0][i].dst, out[p.1][j'].dst)) in tested ||
          Normalize((out[p.0][i].dst, out[p.1][j'].dst)) in queue'
      {
        stopped := PollStop();
        if stopped {
          return;
        }
        var t1, t2 := out[p.0][i], out[p.1][j];
        var q := Normalize((t1.dst, t2.dst));
        if q !in tested && Compatible(t1, t2) {
          assert Succ(out, p, q);
          queue' := queue' + [q];
        }
      }
    }

    /**
     * The successors of `p` that go on the worklist: each compatible pair of
     * edges whose normalised destination pair is untested. Stops as soon as
     * the stop flag is seen.
     */
    method ExpandPair(out: seq<seq<Edge>>, p: PairState, tested: set<PairState>, queue: seq<PairState>)
      returns (queue': seq<PairState>, stopped: bool)
      requires p.0 <= p.1 < |out| && !stopFlag
      requires forall s, i :: 0 <= s < |out| && 0 <= i < |out[s]| ==> out[s][i].dst < |out|
      modifies this`stopFlag
      ensures stopped == stopFlag
      ensures |queue| <= |queue'| && queue'[..|queue|] == queue
      ensures forall k :: |queue| <= k < |queue'| ==>
        queue'[k].0 <= queue'[k].1 < |out| && Succ(out, p, queue'[k])
      ensures !stopped ==> forall i, j ::
        0 <= i < |out[p.0]| && 0 <= j < |out[p.1]| && Compatible(out[p.0][i], out[p.1][j])
        ==> Normalize((out[p.0][i].dst, out[p.1][j].dst)) in tested ||
            Normalize((out[p.0][i].dst, out[p.1][j].dst)) in queue'
    {
      queue' := queue;
      stopped := false;
      for i := 0 to |out[p.0]|
        invariant !stopped && !stopFlag
        invariant |queue| <= |queue'| && queue'[..|queue|] == queue
        invariant forall k :: |queue| <= k < |queue'| ==>
          queue'[k].0 <= queue'[k].1 < |out| && Succ(out, p, queue'[k])
        invariant forall i', j ::
          0 <= i' < i && 0 <= j < |out[p.1]| && Compatible(out[p.0][i'], out[p.1][j])
          ==> Normalize((out[p.0][i'].dst, out[p.1][j].dst)) in tested ||
              Normalize((out[p.0][i'].dst, out[p.1][j].dst)) in queue'
      {
        var before := queue';
        queue', stopped := ExpandEdge(out, p, i, tested, queue, queue');
        if stopped {
          return;
        }
        assert forall q :: q in before ==> q in queue' by {
          forall q | q in before ensures q in queue' {
            var k :| 0 <= k < |before| && before[k] == q;
            assert queue'[k] == q;
          }
        }
      }
    }

    /**
     * Records the last queued pair, untested so far, and queues its untested
     * successors in its place; the search state holds again unless the stop
     * flag was seen on the way.
     */
    method VisitPair(out: seq<seq<Edge>>, init: nat, pairs: seq<PairState>,
                     tested: set<PairState>, queue: seq<PairState>)
      returns (queue': seq<PairState>, stopped: bool)
      requires forall s, i :: 0 <= s < |out| && 0 <= i < |out[s]| ==> out[s][i].dst < |out|
      requires queue != [] && SearchState(out, init, pairs, tested, queue)
      requires queue[|queue| - 1] !in tested && !stopFlag
      modifies this`stopFlag
      ensures stopped == stopFlag
      ensures var p := queue[|queue| - 1];
        (forall q :: q in tested + {p} <==> q in pairs + [p]) &&
        Normalised(out, pairs + [p]) && Distinct(pairs + [p]) && Derived(out, init, pairs + [p])
      ensures var p := queue[|queue| - 1];
        !stopped ==> SearchState(out, init, pairs + [p], tested + {p}, queue')
    {
      var p := queue[|queue| - 1];
      var stop: bool;
      queue', stop := ExpandPair(out, p, tested + {p}, queue[..|queue| - 1]);
      stopped := stop;
      RecordVisit(out, pairs, tested, p);
      if |pairs| > 0 {
        assert FollowsFrom(out, pairs, p);
      }
      DerivedVisit(out, init, pairs, p);
      if !stopped {
        assert PairCovered(out, p, pairs + [p], queue');
        PopNew(out, init, pairs, tested, queue, queue');
      }
    }

    /**
     * The pairs of states reachable by a common prefix, from (init, init).
     * The result is true iff the worklist emptied and the stop flag is down.
     */
    method GetAllCompatibleStates(aut: Twa) returns (pairStates: seq<PairState>, ok: bool)
      requires aut.Valid()
      modifies this`stopFlag
      ensures old(stopFlag) ==> stopFlag
      ensures ok == !stopFlag
      ensures Normalised(aut.out, pairStates) && Distinct(pairStates)
      ensures Derived(aut.out, aut.init, pairStates)
      ensures ok ==> (aut.init, aut.init) in pairStates && Closed(aut.out, pairStates)
    {
      var out, init := aut.out, aut.init;
      var queue: seq<PairState> := [(init, init)];
      var tested: set<PairState> := {};
      pairStates := [];
      var stop := PollStop();
      while queue != [] && !stop
        invariant stop == stopFlag && (old(stopFlag) ==> stopFlag)
        invariant tested <= AllPairs(|out|)
        invariant SearchState(out, init, pairStates, tested, queue)
        decreases AllPairs(|out|) - tested, |queue|
      {
        var pairState := queue[|queue| - 1];
        pairState := Normalize(pairState);
        if pairState in tested {
          PopTested(out, init, pairStates, tested, queue);
          queue := queue[..|queue| - 1];
        } else {
          assert pairState in AllPairs(|out|) - tested;
          var queue', stopped := VisitPair(out, init, pairStates, tested, queue);
          tested := tested + {pairState};
          pairStates := pairStates + [pairState];
          if stopped {
            ok := false;
            return;
          }
          queue := queue';
        }
        stop := PollStop();
      }
      var s := PollStop();
      ok := queue == [] && !s;
    }
  
    /** The variable numbers of `names`, registering the new ones. */
    method RegisterVars(names: seq<string>) returns (nums: seq<Var>)
      requires Valid()
      modifies cacher, automaton, automaton.dict
      ensures Valid() && automaton.out == old(automaton.out) && automaton.init == old(automaton.init)
      ensures forall n :: n in old(cacher.variableIndex) ==>
        n in cacher.variableIndex && cacher.variableIndex[n] == old(cacher.variableIndex)[n]
      ensures forall n :: n in names ==> n in cacher.variableIndex
      ensures |nums| == |names| && forall k :: 0 <= k < |names| ==> nums[k] == cacher.variableIndex[names[k]]
      ensures cacher.primeVariableIndex == old(cacher.primeVariableIndex)
    {
      nums := [];
      var i := 0;
      while i < |names|
        invariant 0 <= i <= |names| && |nums| == i
        invariant Valid() && automaton.out == old(automaton.out) && automaton.init == old(automaton.init)
        invariant forall n :: n in old(cacher.variableIndex) ==>
          n in cacher.variableIndex && cacher.variableIndex[n] == old(cacher.variableIndex)[n]
        invariant forall k :: 0 <= k < i ==> names[k] in cacher.variableIndex && nums[k] == cacher.variableIndex[names[k]]
        invariant cacher.primeVariableIndex == old(cacher.primeVariableIndex)
      {
        var n := cacher.GetVariableIndex(names[i]);
        nums := nums + [n];
        i := i + 1;
      }
    }

    /** The variable and the prime variable of `name`. */
    method ResetPair(name: string) returns (vs: (Var, Var))
      requires Valid()
      modifies cacher, automaton, automaton.dict
      ensures Valid() && automaton.out == old(automaton.out) && automaton.init == old(automaton.init)
      ensures KeepsEntries(old(cacher.variableIndex), cacher.variableIndex)
      ensures KeepsEntries(old(cacher.primeVariableIndex), cacher.primeVariableIndex)
      ensures name in cacher.variableIndex && name in cacher.primeVariableIndex
      ensures vs == (cacher.variableIndex[name], cacher.primeVariableIndex[name])
    {
      var v := cacher.GetVariableIndex(name);
      var pv := cacher.GetPrimeVariableIndex(name);
      vs := (v, pv);
    }

    /** The pairs (variable, prime variable) of `names`, registering the new ones. */
    method RegisterResetVars(names: seq<string>) returns (nums: seq<(Var, Var)>)
      requires Valid()
      modifies cacher, automaton, automaton.dict
      ensures Valid() && automaton.out == old(automaton.out) && automaton.init == old(automaton.init)
      ensures KeepsEntries(old(cacher.variableIndex), cacher.variableIndex)
      ensures KeepsEntries(old(cacher.primeVariableIndex), cacher.primeVariableIndex)
      ensures PairsOf(names, nums, cacher.variableIndex, cacher.primeVariableIndex)
    {
      nums := [];
      var i := 0;
      ghost var vi0, pi0 := cacher.variableIndex, cacher.primeVariableIndex;
      while i < |names|
        invariant 0 <= i <= |names|
        invariant Valid() && automaton.out == old(automaton.out) && automaton.init == old(automaton.init)
        invariant KeepsEntries(vi0, cacher.variableIndex) && KeepsEntries(pi0, cacher.primeVariableIndex)
        invariant PairsOf(names[..i], nums, cacher.variableIndex, cacher.primeVariableIndex)
      {
        ghost var vi, pi := cacher.variableIndex, cacher.primeVariableIndex;
        var vs := ResetPair(names[i]);
        PairsOfSnoc(names[..i], nums, vi, pi, cacher.variableIndex, cacher.primeVariableIndex, names[i], vs);
        assert names[..i + 1] == names[..i] + [names[i]];
        nums := nums + [vs];
        i := i + 1;
      }
      assert names[..i] == names;
    }

    /** `resets` pairs each name of `names` with its variable and its prime variable. */
    ghost predicate ResetsOf(names: seq<string>, resets: seq<(Var, Var)>)
      reads cacher
    {
      PairsOf(names, resets, cacher.variableIndex, cacher.primeVariableIndex)
    }

    /**
     * Whether `dependentVar` is determined by `dependencyVars` in every
     * recorded pair of states. Every other proposition is renamed to its prime
     * in the second guard of each test; all the names involved are registered
     * on the way.
     */
    method IsVariableDependent(dependentVar: string, dependencyVars: seq<string>, pairStates: seq<PairState>)
      returns (r: bool, ghost xv: Var, ghost resets: seq<(Var, Var)>)
      requires Valid() && Normalised(automaton.out, pairStates)
      modifies cacher, automaton, automaton.dict
      ensures Valid() && automaton.out == old(automaton.out) && automaton.init == old(automaton.init)
      ensures dependentVar in cacher.variableIndex && xv == cacher.variableIndex[dependentVar]
      ensures forall n :: n in dependencyVars ==> n in cacher.variableIndex
      ensures ResetsOf(AllVarsExcluded(inputs + outputs, dependencyVars + [dependentVar]), resets)
      ensures r == AllPairsPass(automaton.out, pairStates, xv, resets)
      ensures KeepsEntries(old(cacher.variableIndex), cacher.variableIndex)
      ensures KeepsEntries(old(cacher.primeVariableIndex), cacher.primeVariableIndex)
    {
      var x := cacher.GetVariableIndex(dependentVar);
      xv := x;
      var dependencyVarsNums := RegisterVars(dependencyVars);
      var resetVars := AllVarsExcluded(inputs + outputs, dependencyVars + [dependentVar]);
      var resetVarsNums := RegisterResetVars(resetVars);
      resets := resetVarsNums;
      r := CheckPairs(automaton.out, pairStates, x, resetVarsNums);
    }

    /**
     * Classifies the candidates from the back of the list. Each tested one
     * goes to exactly one result list; once the stop flag is seen, the
     * untested ones are appended to the independents in their order.
     */
    /**
     * Tests the last of the `t` untested candidates against the candidates
     * before it and the independents found so far, and adds it to the list it
     * belongs to.
     */
    method ClassifyLast(cs: seq<string>, t: nat, pairStates: seq<PairState>,
                        dependent: seq<string>, independent: seq<string>)
      returns (dependent': seq<string>, independent': seq<string>, isDependent: bool, ghost xv: Var, ghost resets: seq<(Var, Var)>)
      requires Valid() && Normalised(automaton.out, pairStates)
      requires t < |cs| && multiset(dependent) + multiset(independent) == multiset(cs[|cs| - t..])
      modifies cacher, automaton, automaton.dict
      ensures Valid() && automaton.out == old(automaton.out) && automaton.init == old(automaton.init)
      ensures multiset(dependent') + multiset(independent') == multiset(cs[|cs| - (t + 1)..])
      ensures isDependent == AllPairsPass(automaton.out, pairStates, xv, resets)
      ensures var v := cs[|cs| - t - 1];
        if isDependent
        then dependent' == dependent + [v] && independent' == independent
        else dependent' == dependent && independent' == independent + [v]
      ensures cs[|cs| - t - 1] in cacher.variableIndex && xv == cacher.variableIndex[cs[|cs| - t - 1]]
      ensures ResetsOf(AllVarsExcluded(inputs + outputs,
          DependencySet(cs[..|cs| - t - 1], independent) + [cs[|cs| - t - 1]]), resets)
      ensures KeepsEntries(old(cacher.variableIndex), cacher.variableIndex)
      ensures KeepsEntries(old(cacher.primeVariableIndex), cacher.primeVariableIndex)
    {
      var dependentVar := cs[|cs| - t - 1];
      var dependencySet := DependencySet(cs[..|cs| - t - 1], independent);
      isDependent, xv, resets := IsVariableDependent(dependentVar, dependencySet, pairStates);
      ClassifyStep(cs, t, dependent, independent, isDependent);
      if isDependent {
        dependent', independent' := dependent + [dependentVar], independent;
      } else {
        dependent', independent' := dependent, independent + [dependentVar];
      }
    }

    /**
     * Test `k` of `log` was made on candidate `k` from the back of `cs`,
     * against the candidates before it and the failures before it, with the
     * variables of `vi` and `pi`; its verdict is the pair test's.
     */
    ghost predicate TestedAt(out: seq<seq<Edge>>, pairStates: seq<PairState>, cs: seq<string>, log: seq<Test>,
                             k: nat, vi: map<string, Var>, pi: map<string, Var>)
      reads this`depType
      requires Normalised(out, pairStates) && k < |log| <= |cs|
    {
      var name := cs[|cs| - 1 - k];
      log[k].name == name && name in vi && log[k].xv == vi[name] &&
      PairsOf(AllVarsExcluded(inputs + outputs, DependencySet(cs[..|cs| - 1 - k], Failed(log[..k])) + [name]),
              log[k].resets, vi, pi) &&
      log[k].passed == AllPairsPass(out, pairStates, log[k].xv, log[k].resets)
    }

    /** Every test of `log` is as `TestedAt` says. */
    ghost predicate Tested(out: seq<seq<Edge>>, pairStates: seq<PairState>, cs: seq<string>, log: seq<Test>,
                           vi: map<string, Var>, pi: map<string, Var>)
      reads this`depType
    {
      Normalised(out, pairStates) && |log| <= |cs| &&
      forall k :: 0 <= k < |log| ==> TestedAt(out, pairStates, cs, log, k, vi, pi)
    }

    lemma TestedSnoc(out: seq<seq<Edge>>, pairStates: seq<PairState>, cs: seq<string>, log: seq<Test>, t: Test,
                     vi: map<string, Var>, pi: map<string, Var>, vi': map<string, Var>, pi': map<string, Var>)
      requires Tested(out, pairStates, cs, log, vi, pi) && KeepsEntries(vi, vi') && KeepsEntries(pi, pi')
      requires |log| < |cs| && TestedAt(out, pairStates, cs, log + [t], |log|, vi', pi')
      ensures Tested(out, pairStates, cs, log + [t], vi', pi')
    {
      forall k | 0 <= k < |log|
        ensures TestedAt(out, pairStates, cs, log + [t], k, vi', pi')
      {
        assert (log + [t])[..k] == log[..k] && (log + [t])[k] == log[k];
        assert TestedAt(out, pairStates, cs, log, k, vi, pi);
        var name := cs[|cs| - 1 - k];
        PairsOfKept(AllVarsExcluded(inputs + outputs, DependencySet(cs[..|cs| - 1 - k], Failed(log[..k])) + [name]),
                    log[k].resets, vi, pi, vi', pi');
      }
    }

    /**
     * The state of the classification after `t` tests: `log` holds them in
     * order, the dependents are the candidates that passed and the
     * independents those that failed.
     */
    ghost predicate Classified(out: seq<seq<Edge>>, pairStates: seq<PairState>, cs: seq<string>, t: nat,
                               dependent: seq<string>, independent: seq<string>, log: seq<Test>,
                               vi: map<string, Var>, pi: map<string, Var>)
      reads this`depType
    {
      t == |log| <= |cs| && multiset(dependent) + multiset(independent) == multiset(cs[|cs| - t..]) &&
      Tested(out, pairStates, cs, log, vi, pi) && dependent == Passed(log) && independent == Failed(log)
    }

    /** One round of the loop of `ClassifyAll`: the next test joins the log. */
    method ClassifyNext(cs: seq<string>, t: nat, pairStates: seq<PairState>, dependent: seq<string>,
                        independent: seq<string>, ghost log: seq<Test>)
      returns (dependent': seq<string>, independent': seq<string>, ghost log': seq<Test>)
      requires Valid() && Normalised(automaton.out, pairStates) && t < |cs|
      requires Classified(automaton.out, pairStates, cs, t, dependent, independent, log,
                          cacher.variableIndex, cacher.primeVariableIndex)
      modifies cacher, automaton, automaton.dict
      ensures Valid() && automaton.out == old(automaton.out)
      ensures Classified(automaton.out, pairStates, cs, t + 1, dependent', independent', log',
                         cacher.variableIndex, cacher.primeVariableIndex)
    {
      ghost var vi, pi := cacher.variableIndex, cacher.primeVariableIndex;
      ghost var xv, resets;
      var isDependent;
      dependent', independent', isDependent, xv, resets := ClassifyLast(cs, t, pairStates, dependent, independent);
      ghost var test := Test(cs[|cs| - t - 1], xv, resets, isDependent);
      log' := log + [test];
      ClassifiedSnoc(automaton.out, pairStates, cs, t, dependent, independent, log, vi, pi, test,
                     dependent', independent', cacher.variableIndex, cacher.primeVariableIndex);
    }

    /** Logging the verdict of the next test keeps the classification exact. */
    lemma ClassifiedSnoc(out: seq<seq<Edge>>, pairStates: seq<PairState>, cs: seq<string>, t: nat,
                         dependent: seq<string>, independent: seq<string>, log: seq<Test>,
                         vi: map<string, Var>, pi: map<string, Var>, test: Test,
                         dependent': seq<string>, independent': seq<string>, vi': map<string, Var>, pi': map<string, Var>)
      requires Normalised(out, pairStates) && t < |cs|
      requires Classified(out, pairStates, cs, t, dependent, independent, log, vi, pi)
      requires KeepsEntries(vi, vi') && KeepsEntries(pi, pi')
      requires multiset(dependent') + multiset(independent') == multiset(cs[|cs| - (t + 1)..])
      requires test.name == cs[|cs| - t - 1] && test.name in vi' && test.xv == vi'[test.name]
      requires PairsOf(AllVarsExcluded(inputs + outputs, DependencySet(cs[..|cs| - t - 1], independent) + [test.name]),
                       test.resets, vi', pi')
      requires test.passed == AllPairsPass(out, pairStates, test.xv, test.resets)
      requires if test.passed
               then dependent' == dependent + [test.name] && independent' == independent
               else dependent' == dependent && independent' == independent + [test.name]
      ensures Classified(out, pairStates, cs, t + 1, dependent', independent', log + [test], vi', pi')
    {
      assert (log + [test])[..t] == log;
      assert TestedAt(out, pairStates, cs, log + [test], t, vi', pi');
      TestedSnoc(out, pairStates, cs, log, test, vi, pi, vi', pi');
      PassedFailedSnoc(log, test);
    }

    /**
     * The loop over the candidates `cs`, from the back: classifies them one by
     * one until none is left or the stop flag is seen, and returns the
     * untested ones. `log` holds the tests in order: the dependents are the
     * candidates that passed, the independents those that failed.
     */
    method ClassifyAll(cs: seq<string>, pairStates: seq<PairState>)
      returns (dependent: seq<string>, independent: seq<string>, candidates: seq<string>, ghost log: seq<Test>)
      requires Valid() && Normalised(automaton.out, pairStates) && !stopFlag
      modifies this`stopFlag, cacher, automaton, automaton.dict
      ensures Valid() && automaton.out == old(automaton.out)
      ensures |candidates| <= |cs| && candidates == cs[..|candidates|] && |log| == |cs| - |candidates|
      ensures multiset(dependent) + multiset(independent) == multiset(cs[|candidates|..])
      ensures Tested(automaton.out, pairStates, cs, log, cacher.variableIndex, cacher.primeVariableIndex)
      ensures dependent == Passed(log) && independent == Failed(log)
      ensures candidates != [] ==> stopFlag
    {
      dependent, independent := [], [];
      candidates := cs;
      log := [];
      var stop := false;
      while candidates != [] && !stop
        invariant Valid() && Normalised(automaton.out, pairStates) && automaton.out == old(automaton.out)
        invariant stop == stopFlag
        invariant |candidates| <= |cs| && candidates == cs[..|candidates|]
        invariant Classified(automaton.out, pairStates, cs, |cs| - |candidates|, dependent, independent, log,
                             cacher.variableIndex, cacher.primeVariableIndex)
        decreases |candidates|
      {
        dependent, independent, log := ClassifyNext(cs, |cs| - |candidates|, pairStates, dependent, independent, log);
        candidates := candidates[..|candidates| - 1];
        stop := PollStop();
      }
    }

    /**
     * Classifies the candidates over the compatible pairs of states. The
     * first `tested` candidates from the back are tested in order, as `log`
     * records: the dependents are those that passed, and the independents
     * those that failed followed by the untested ones.
     */
    method FindDependencies() returns (dependent: seq<string>, independent: seq<string>, ghost tested: nat,
                                       ghost pairStates: seq<PairState>, ghost log: seq<Test>)
      requires Valid()
      modifies this, cacher, automaton, automaton.dict
      ensures Valid() && isDone && depType == old(depType)
      ensures var cs := old(Candidates());
        tested <= |cs| && |cs| - tested <= |independent| &&
        independent[|independent| - (|cs| - tested)..] == cs[..|cs| - tested] &&
        multiset(dependent) + multiset(independent[..|independent| - (|cs| - tested)]) ==
          multiset(cs[|cs| - tested..])
      ensures tested < |old(Candidates())| ==> stopFlag
      ensures var cs := old(Candidates());
        |log| == tested && Tested(automaton.out, pairStates, cs, log, cacher.variableIndex, cacher.primeVariableIndex) &&
        dependent == Passed(log) && independent == Failed(log) + cs[..|cs| - tested]
      ensures automaton.out == old(automaton.out) && Derived(automaton.out, old(automaton.init), pairStates)
      ensures tested > 0 ==> (old(automaton.init), old(automaton.init)) in pairStates &&
                             Closed(automaton.out, pairStates)
    {
      var cs := Candidates();
      assert cs == old(Candidates());
      var pairs, searched := GetAllCompatibleStates(automaton);
      pairStates := pairs;
      dependent, independent := [], [];
      tested := 0;
      log := [];
      var stop := PollStop();
      if stop {
        UntestedAppended(cs, 0, independent);
        independent := independent + cs;
        isDone := true;
        return;
      }
      var candidates;
      dependent, independent, candidates, log := ClassifyAll(cs, pairs);
      tested := |cs| - |candidates|;
      UntestedAppended(cs, tested, independent);
      ghost var classified := independent;
      independent := independent + candidates;
      assert |cs| - tested == |candidates| && independent[..|independent| - |candidates|] == classified;
      isDone := true;
    }
  }

  /** Classifying the last untested candidate moves it into one of the two lists. */
  lemma ClassifyStep(cs: seq<string>, t: nat, dependent: seq<string>, independent: seq<string>, isDependent: bool)
    requires t < |cs| && multiset(dependent) + multiset(independent) == multiset(cs[|cs| - t..])
    ensures var v := cs[|cs| - t - 1];
      multiset(if isDependent then dependent + [v] else dependent) +
      multiset(if isDependent then independent else independent + [v]) ==
      multiset(cs[|cs| - (t + 1)..])
  {
    assert cs[|cs| - (t + 1)..] == [cs[|cs| - t - 1]] + cs[|cs| - t..];
  }

  /** Appending the untested candidates after the independents keeps both parts readable. */
  lemma UntestedAppended(cs: seq<string>, t: nat, independent: seq<string>)
    requires t <= |cs|
    ensures var r := independent + cs[..|cs| - t];
      |cs| - t <= |r| && r[|r| - (|cs| - t)..] == cs[..|cs| - t] &&
      r[..|r| - (|cs| - t)] == independent
  {
  }
}
