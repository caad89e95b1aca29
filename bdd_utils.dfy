/**
 * Helpers over the BDD dictionary of an automaton: the variable-number cache
 * that hands out "prime" copies of propositions, the restriction test, and the
 * summary of the guards' sizes.
 */
module BddUtils {
  import opened Bdd
  import opened Automaton
  import opened Wrappers

  /**
   * Caches the variable number of each proposition and gives each proposition,
   * on first request, the next variable of a block reserved at construction.
   */
  class BddVarsCacher {
    const totalVars: nat
    /** The first variable of the reserved prime block. */
    const primeStart: Var
    /** How many prime variables have been handed out. */
    var primeCoefficient: nat
    var variableIndex: map<string, Var>
    var primeVariableIndex: map<string, Var>
    const aut: Twa

    ghost predicate Valid()
      reads this
    {
      (forall n :: n in primeVariableIndex ==>
         primeStart <= primeVariableIndex[n] < primeStart + primeCoefficient) &&
      (forall n, m :: n in primeVariableIndex && m in primeVariableIndex && n != m ==>
         primeVariableIndex[n] != primeVariableIndex[m]) &&
      |primeVariableIndex| == primeCoefficient
    }

    /** Reserves one prime variable per proposition of `a`. */
    constructor (a: Twa)
      requires a.dict.Valid()
      modifies a.dict
      ensures Valid() && aut == a && a.dict.Valid()
      ensures totalVars == |a.aps| && primeStart == old(a.dict.next)
      ensures a.dict.next == old(a.dict.next) + |a.aps| && a.dict.vars == old(a.dict.vars)
      ensures primeCoefficient == 0 && variableIndex == map[] && primeVariableIndex == map[]
    {
      var start := a.dict.RegisterAnonymous(|a.aps|);
      aut := a;
      totalVars := |a.aps|;
      primeStart := start;
      primeCoefficient := 0;
      variableIndex := map[];
      primeVariableIndex := map[];
    }

    /** The variable of proposition `name`; registered with the automaton on the first request. */
    method GetVariableIndex(name: string) returns (v: Var)
      requires Valid() && aut.dict.Valid()
      modifies this, aut, aut.dict
      ensures Valid() && aut.dict.Valid()
      ensures name in old(variableIndex) ==> v == old(variableIndex)[name] && variableIndex == old(variableIndex)
      ensures name !in old(variableIndex) ==> name in aut.dict.vars && v == aut.dict.vars[name] && variableIndex == old(variableIndex)[name := v]
      ensures primeVariableIndex == old(primeVariableIndex) && primeCoefficient == old(primeCoefficient)
      ensures aut.out == old(aut.out) && aut.init == old(aut.init)
    {
      if name !in variableIndex {
        var x := aut.RegisterAp(name);
        variableIndex := variableIndex[name := x];
      }
      v := variableIndex[name];
    }

    /**
     * The prime variable of `name`: the k-th distinct name gets `primeStart + k`.
     * Nothing keeps k below `totalVars`, the size of the reserved block.
     */
    method GetPrimeVariableIndex(name: string) returns (v: Var)
      requires Valid()
      modifies this
      ensures Valid() && name in primeVariableIndex && v == primeVariableIndex[name]
      ensures name in old(primeVariableIndex) ==>
        primeVariableIndex == old(primeVariableIndex) && primeCoefficient == old(primeCoefficient)
      ensures name !in old(primeVariableIndex) ==>
        v == primeStart + old(primeCoefficient) && primeCoefficient == old(primeCoefficient) + 1 &&
        primeVariableIndex == old(primeVariableIndex)[name := v]
      ensures variableIndex == old(variableIndex)
    {
      if name !in primeVariableIndex {
        var x := primeStart + primeCoefficient;
        assert forall n :: n in primeVariableIndex ==> primeVariableIndex[n] != x;
        primeVariableIndex := primeVariableIndex[name := x];
        primeCoefficient := primeCoefficient + 1;
      }
      v := primeVariableIndex[name];
    }
  }

  /** Whether `bd` can be satisfied with variable `v` set to `value`. */
  function CanRestrictVariable(bd: Bdd, v: Var, value: bool): bool
  {
    IsSat(And(bd, Lit(v, value)))
  }

  lemma CanRestrictVariableMeaning(bd: Bdd, v: Var, value: bool)
    ensures CanRestrictVariable(bd, v, value) ==> exists a: Assignment :: Eval(bd, a) && a(v) == value
    ensures (exists a: Assignment :: Eval(bd, a) && a(v) == value) ==> CanRestrictVariable(bd, v, value)
  {
    var c := And(bd, Lit(v, value));
    IsSatMeaning(c);
    if a: Assignment :| Eval(bd, a) && a(v) == value {
      assert Eval(c, a);
      IsSatIntro(c, a);
    }
    if CanRestrictVariable(bd, v, value) {
      var a: Assignment :| Eval(c, a);
      assert Eval(bd, a) && a(v) == value;
    }
  }

  // ----- The guard-size summary -----

  const IntMax: int := 0x7fff_ffff
  const IntMin: int := -0x8000_0000

  datatype NbaBddSummary = NbaBddSummary(
    totalBddsSizeRepeated: int,
    totalBddsSizeNotRepeated: int,
    totalBdds: int,
    minBddSize: int,
    maxBddSize: int,
    /** Undefined (a division by zero in the source) when there is no edge. */
    avgBddSize: Option<int>)

  /** The guards of the edges of `es`, in order. */
  function Conds(es: seq<Edge>): (r: seq<Bdd>)
    ensures |r| == |es|
    ensures forall i :: 0 <= i < |es| ==> r[i] == es[i].cond
  {
    if es == [] then [] else Conds(es[..|es| - 1]) + [es[|es| - 1].cond]
  }

  /** The guards of all edges, state by state. */
  function Guards(out: seq<seq<Edge>>): seq<Bdd>
  {
    if out == [] then [] else Guards(out[..|out| - 1]) + Conds(out[|out| - 1])
  }

  /** The distinct elements of `gs` in order of first occurrence. */
  function Dedup(gs: seq<Bdd>): (r: seq<Bdd>)
    ensures forall g :: g in r <==> g in gs
    ensures forall i, j :: 0 <= i < j < |r| ==> r[i] != r[j]
  {
    if gs == [] then []
    else
      var d := Dedup(gs[..|gs| - 1]);
      var g := gs[|gs| - 1];
      assert forall h :: h in gs <==> h in gs[..|gs| - 1] || h == g by {
        assert gs == gs[..|gs| - 1] + [g];
      }
      if g in d then d else d + [g]
  }

  function Count(g: Bdd, gs: seq<Bdd>): nat
  {
    if gs == [] then 0 else Count(g, gs[..|gs| - 1]) + (if gs[|gs| - 1] == g then 1 else 0)
  }

  function SumSizes(gs: seq<Bdd>): nat
  {
    if gs == [] then 0 else SumSizes(gs[..|gs| - 1]) + NodeCount(gs[|gs| - 1])
  }

  /** Each guard of `ks` weighted by how often it occurs in `gs`. */
  function WeightedSum(ks: seq<Bdd>, gs: seq<Bdd>): nat
  {
    if ks == [] then 0
    else WeightedSum(ks[..|ks| - 1], gs) + NodeCount(ks[|ks| - 1]) * Count(ks[|ks| - 1], gs)
  }

  lemma {:induction false} CountZero(g: Bdd, gs: seq<Bdd>)
    requires g !in gs
    ensures Count(g, gs) == 0
  {
    if gs != [] {
      assert gs[..|gs| - 1] <= gs;
      CountZero(g, gs[..|gs| - 1]);
    }
  }

  /** Adding one occurrence of `g` adds `g`'s size once, if `g` is among `ks`. */
  lemma CountSnoc(k: Bdd, gs: seq<Bdd>, g: Bdd)
    ensures Count(k, gs + [g]) == Count(k, gs) + (if g == k then 1 else 0)
  {
    assert (gs + [g])[..|gs + [g]| - 1] == gs;
  }

  lemma MulSucc(n: nat, c: nat)
    ensures n * (c + 1) == n * c + n
  {
  }

  /** The prefix of a repeat-free sequence is repeat-free and lacks its last element. */
  lemma DistinctSnoc(ks: seq<Bdd>)
    requires ks != [] && forall i, j :: 0 <= i < j < |ks| ==> ks[i] != ks[j]
    ensures var init := ks[..|ks| - 1];
      (forall i, j :: 0 <= i < j < |init| ==> init[i] != init[j]) && ks[|ks| - 1] !in init &&
      forall x :: x in ks <==> x in init || x == ks[|ks| - 1]
  {
    var init := ks[..|ks| - 1];
    assert ks == init + [ks[|ks| - 1]];
    forall i | 0 <= i < |init| ensures init[i] != ks[|ks| - 1] {
      assert init[i] == ks[i];
    }
  }

  /** Adding one occurrence of `g` adds `g`'s size once, if `g` is among `ks`. */
  lemma {:induction false} WeightedSumSnoc(ks: seq<Bdd>, gs: seq<Bdd>, g: Bdd)
    requires forall i, j :: 0 <= i < j < |ks| ==> ks[i] != ks[j]
    ensures WeightedSum(ks, gs + [g]) == WeightedSum(ks, gs) + (if g in ks then NodeCount(g) else 0)
  {
    if ks != [] {
      var init := ks[..|ks| - 1];
      var k := ks[|ks| - 1];
      DistinctSnoc(ks);
      WeightedSumSnoc(init, gs, g);
      CountSnoc(k, gs, g);
      var n, c, c' := NodeCount(k), Count(k, gs), Count(k, gs + [g]);
      assert WeightedSum(ks, gs + [g]) == WeightedSum(init, gs + [g]) + n * c';
      assert WeightedSum(ks, gs) == WeightedSum(init, gs) + n * c;
      if g == k {
        MulSucc(n, c);
      }
    }
  }

  /** A guard seen for the first time adds its size once. */
  lemma WeightedSumNew(d: seq<Bdd>, pre: seq<Bdd>, g: Bdd)
    requires g !in pre
    ensures WeightedSum(d + [g], pre + [g]) == WeightedSum(d, pre + [g]) + NodeCount(g)
  {
    CountZero(g, pre);
    CountSnoc(g, pre, g);
    assert (d + [g])[..|d + [g]| - 1] == d;
  }

  /**
   * Summing each distinct guard's size times its number of occurrences is
   * summing the sizes of all guards.
   */
  lemma {:induction false} WeightedSumDedup(gs: seq<Bdd>)
    ensures WeightedSum(Dedup(gs), gs) == SumSizes(gs)
  {
    if gs != [] {
      var pre := gs[..|gs| - 1];
      var g := gs[|gs| - 1];
      assert gs == pre + [g];
      WeightedSumDedup(pre);
      var d := Dedup(pre);
      WeightedSumSnoc(d, pre, g);
      if g !in d {
        WeightedSumNew(d, pre, g);
      }
    }
  }

  /** Each guard of `ks` occurs at least once in `gs`, so the weights are at least one. */
  lemma {:induction false} WeightedSumAtLeast(ks: seq<Bdd>, gs: seq<Bdd>)
    requires forall k :: k in ks ==> k in gs
    ensures SumSizes(ks) <= WeightedSum(ks, gs)
  {
    if ks != [] {
      var init := ks[..|ks| - 1];
      assert forall k :: k in init ==> k in ks;
      WeightedSumAtLeast(init, gs);
      CountPositive(ks[|ks| - 1], gs);
    }
  }

  lemma {:induction false} CountPositive(g: Bdd, gs: seq<Bdd>)
    requires g in gs
    ensures Count(g, gs) >= 1
  {
    var pre := gs[..|gs| - 1];
    if gs[|gs| - 1] != g {
      assert gs == pre + [gs[|gs| - 1]];
      CountPositive(g, pre);
    }
  }

  /** Counting a shared guard once never gives more than counting every use. */
  lemma NotRepeatedAtMostRepeated(gs: seq<Bdd>)
    ensures SumSizes(Dedup(gs)) <= SumSizes(gs)
  {
    WeightedSumAtLeast(Dedup(gs), gs);
    WeightedSumDedup(gs);
  }

  /** The number of elements of a sequence without repetitions is the size of its set. */
  lemma {:induction false} DistinctCard(ks: seq<Bdd>)
    requires forall i, j :: 0 <= i < j < |ks| ==> ks[i] != ks[j]
    ensures |set k | k in ks| == |ks|
  {
    if ks != [] {
      var init := ks[..|ks| - 1];
      var k := ks[|ks| - 1];
      DistinctCard(init);
      assert (set x | x in ks) == (set x | x in init) + {k} by {
        assert ks == init + [k];
      }
      assert k !in init;
    }
  }

  /** The two tables of the summary describe the guards `seen` so far. */
  ghost predicate Tables(sizes: map<Bdd, nat>, counts: map<Bdd, nat>, order: seq<Bdd>, seen: seq<Bdd>)
  {
    order == Dedup(seen) &&
    (forall g :: g in sizes <==> g in seen) &&
    (forall g :: g in counts <==> g in seen) &&
    (forall g :: g in sizes ==> sizes[g] == NodeCount(g) && counts[g] == Count(g, seen))
  }

  /** Records one more use of guard `c`: a first use gets its size and count 1, a later one bumps the count. */
  method Record(c: Bdd, sizes: map<Bdd, nat>, counts: map<Bdd, nat>, order: seq<Bdd>, ghost seen: seq<Bdd>)
    returns (sizes': map<Bdd, nat>, counts': map<Bdd, nat>, order': seq<Bdd>)
    requires Tables(sizes, counts, order, seen)
    ensures Tables(sizes', counts', order', seen + [c])
  {
    ghost var next := seen + [c];
    assert Dedup(next) == if c in order then order else order + [c] by {
      assert next[..|next| - 1] == seen;
    }
    if c !in sizes {
      sizes', counts', order' := sizes[c := NodeCount(c)], counts[c := 1], order + [c];
      forall g | g in sizes' ensures sizes'[g] == NodeCount(g) && counts'[g] == Count(g, next) {
        CountSnoc(g, seen, c);
        if g == c { CountZero(c, seen); }
      }
    } else {
      sizes', counts', order' := sizes, counts[c := counts[c] + 1], order;
      forall g | g in sizes' ensures sizes'[g] == NodeCount(g) && counts'[g] == Count(g, next) {
        CountSnoc(g, seen, c);
      }
    }
    assert forall g :: g in next <==> g in seen || g == c;
  }

  /** Records every guard of the out-edges `es`, in order. */
  method RecordState(es: seq<Edge>, sizes: map<Bdd, nat>, counts: map<Bdd, nat>, order: seq<Bdd>, ghost seen: seq<Bdd>)
    returns (sizes': map<Bdd, nat>, counts': map<Bdd, nat>, order': seq<Bdd>)
    requires Tables(sizes, counts, order, seen)
    ensures Tables(sizes', counts', order', seen + Conds(es))
  {
    sizes', counts', order' := sizes, counts, order;
    ghost var seen' := seen;
    for i := 0 to |es|
      invariant seen' == seen + Conds(es[..i])
      invariant Tables(sizes', counts', order', seen')
    {
      assert es[..i + 1][..i] == es[..i];
      sizes', counts', order' := Record(es[i].cond, sizes', counts', order', seen');
      seen' := seen' + [es[i].cond];
    }
    assert es[..|es|] == es;
  }

  /** The tables `size` and `count` of the source, keyed by guard, with the guards in first-seen order. */
  method CountGuards(out: seq<seq<Edge>>) returns (sizes: map<Bdd, nat>, counts: map<Bdd, nat>, order: seq<Bdd>)
    ensures Tables(sizes, counts, order, Guards(out))
  {
    sizes, counts, order := map[], map[], [];
    ghost var seen: seq<Bdd> := [];
    var s := 0;
    while s < |out|
      invariant 0 <= s <= |out|
      invariant seen == Guards(out[..s])
      invariant Tables(sizes, counts, order, seen)
    {
      sizes, counts, order := RecordState(out[s], sizes, counts, order, seen);
      seen := seen + Conds(out[s]);
      assert out[..s + 1][..s] == out[..s];
      s := s + 1;
    }
    assert out[..s] == out;
  }

  /** One step of the second loop: adds the guard at `j` to the sums and the bounds. */
  method AddGuard(order: seq<Bdd>, j: nat, sizes: map<Bdd, nat>, counts: map<Bdd, nat>, ghost gs: seq<Bdd>,
                  repeated: int, notRepeated: int, lo: int, hi: int)
    returns (repeated': int, notRepeated': int, lo': int, hi': int)
    requires j < |order| && order[j] in sizes && order[j] in counts
    requires sizes[order[j]] == NodeCount(order[j]) && counts[order[j]] == Count(order[j], gs)
    requires repeated == WeightedSum(order[..j], gs) && notRepeated == SumSizes(order[..j])
    requires j == 0 ==> lo == IntMax && hi == IntMin
    requires forall k :: 0 <= k < j ==> lo <= NodeCount(order[k]) <= hi
    requires lo == IntMax || exists k :: 0 <= k < j && NodeCount(order[k]) == lo
    requires j > 0 ==> exists k :: 0 <= k < j && NodeCount(order[k]) == hi
    ensures repeated' == WeightedSum(order[..j + 1], gs) && notRepeated' == SumSizes(order[..j + 1])
    ensures forall k :: 0 <= k < j + 1 ==> lo' <= NodeCount(order[k]) <= hi'
    ensures lo' == IntMax || exists k :: 0 <= k < j + 1 && NodeCount(order[k]) == lo'
    ensures exists k :: 0 <= k < j + 1 && NodeCount(order[k]) == hi'
  {
    var g := order[j];
    var sz, ct := sizes[g], counts[g];
    assert order[..j + 1][..j] == order[..j];
    repeated' := repeated + sz * ct;
    notRepeated' := notRepeated + sz;
    lo' := if sz < lo then sz else lo;
    hi' := if sz > hi then sz else hi;
  }

  /** The second loop of the summary: sums, minimum and maximum over the distinct guards. */
  method Accumulate(order: seq<Bdd>, sizes: map<Bdd, nat>, counts: map<Bdd, nat>, ghost gs: seq<Bdd>)
    returns (repeated: int, notRepeated: int, lo: int, hi: int)
    requires forall k :: 0 <= k < |order| ==> order[k] in sizes && order[k] in counts
    requires forall g :: g in sizes ==> sizes[g] == NodeCount(g)
    requires forall g :: g in counts ==> counts[g] == Count(g, gs)
    ensures repeated == WeightedSum(order, gs) && notRepeated == SumSizes(order)
    ensures order == [] ==> lo == IntMax && hi == IntMin
    ensures forall k :: 0 <= k < |order| ==> lo <= NodeCount(order[k]) <= hi
    ensures lo == IntMax || exists k :: 0 <= k < |order| && NodeCount(order[k]) == lo
    ensures order != [] ==> exists k :: 0 <= k < |order| && NodeCount(order[k]) == hi
  {
    repeated, notRepeated := 0, 0;
    lo, hi := IntMax, IntMin;
    var j := 0;
    while j < |order|
      invariant 0 <= j <= |order|
      invariant repeated == WeightedSum(order[..j], gs)
      invariant notRepeated == SumSizes(order[..j])
      invariant j == 0 ==> lo == IntMax && hi == IntMin
      invariant forall k :: 0 <= k < j ==> lo <= NodeCount(order[k]) <= hi
      invariant lo == IntMax || exists k :: 0 <= k < j && NodeCount(order[k]) == lo
      invariant j > 0 ==> exists k :: 0 <= k < j && NodeCount(order[k]) == hi
    {
      repeated, notRepeated, lo, hi := AddGuard(order, j, sizes, counts, gs, repeated, notRepeated, lo, hi);
      j := j + 1;
    }
    assert order[..j] == order;
  }

  /** Bounds over the distinct guards are bounds over all the guards, attained by some guard. */
  lemma DistinctBounds(gs: seq<Bdd>, order: seq<Bdd>, lo: int, hi: int)
    requires forall g :: g in order <==> g in gs
    requires forall k :: 0 <= k < |order| ==> lo <= NodeCount(order[k]) <= hi
    requires lo == IntMax || exists k :: 0 <= k < |order| && NodeCount(order[k]) == lo
    requires order != [] ==> exists k :: 0 <= k < |order| && NodeCount(order[k]) == hi
    ensures gs == [] <==> order == []
    ensures forall g :: g in gs ==> lo <= NodeCount(g) <= hi
    ensures (exists g :: g in gs && NodeCount(g) == lo) || lo == IntMax
    ensures order != [] ==> exists g :: g in gs && NodeCount(g) == hi
  {
    if gs != [] {
      assert gs[0] in order;
    }
    forall g | g in gs ensures lo <= NodeCount(g) <= hi {
      var k :| 0 <= k < |order| && order[k] == g;
    }
    if order != [] {
      var k :| 0 <= k < |order| && NodeCount(order[k]) == hi;
      assert order[k] in gs;
    }
    if lo != IntMax {
      var k :| 0 <= k < |order| && NodeCount(order[k]) == lo;
      assert order[k] in gs;
    }
  }

  /** The nodes of the edges' guards (bdd_nodecount), each distinct guard counted once. */
  method ExtractNbaBddSummary(nba: Twa) returns (summary: NbaBddSummary)
    ensures var gs := Guards(nba.out);
      summary.totalBdds == |Dedup(gs)| &&
      summary.totalBddsSizeRepeated == SumSizes(gs) &&
      summary.totalBddsSizeNotRepeated == SumSizes(Dedup(gs)) &&
      (gs == [] ==> summary.minBddSize == IntMax && summary.maxBddSize == IntMin && summary.avgBddSize == None) &&
      (gs != [] ==>
        (forall g :: g in gs ==> summary.minBddSize <= NodeCount(g) <= summary.maxBddSize) &&
        ((exists g :: g in gs && NodeCount(g) == summary.minBddSize) || summary.minBddSize == IntMax) &&
        (exists g :: g in gs && NodeCount(g) == summary.maxBddSize) &&
        summary.avgBddSize == Some(summary.totalBddsSizeNotRepeated / summary.totalBdds))
  {
    ghost var gs := Guards(nba.out);
    var sizes, counts, order := CountGuards(nba.out);
    var repeated, notRepeated, lo, hi := Accumulate(order, sizes, counts, gs);
    WeightedSumDedup(gs);
    var total := |order|;
    DistinctBounds(gs, order, lo, hi);
    summary := NbaBddSummary(repeated, notRepeated, total, lo, hi,
                             if total == 0 then None else Some(notRepeated / total));
  }
}
