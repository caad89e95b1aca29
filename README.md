# DepSynt core, modelled in Dafny

DepSynt synthesises reactive controllers from LTL specifications. It finds
output variables that are *dependent*, meaning they are determined by the
other variables along every run of the specification's Büchi automaton. It
synthesises only the independent outputs with an off-the-shelf tool. It then
compiles the dependent outputs into an and-inverter graph (AIG) straight from
the automaton, and splices the two circuits together as BLIF text. This
project models that core and proves what it promises.

- `wrappers.dfy`: `Option` and `Result`.
- `text.dfy`: the string operations the netlist code relies on. These are
  search, split and join, BLIF field splitting, decimal and hex printing,
  Python's `strip` and `replace`.
- `bdd.dfy`: guards as a BDD datatype `False | True | Node(var, low, high)`
  with its semantics `Eval` over assignments. Restriction (cofactor),
  renaming, existential quantification and the satisfiability and validity
  tests are proved against that semantics.
- `automaton.dfy`: the automaton as a class (`Twa`) whose states hold
  sequences of edges `(dst, cond, acc)`, and the dictionary of atomic
  propositions (`BddDict`).
- `bdd_utils.dfy`: the variable caches of `BDDVarsCacher`,
  `can_restrict_variable`, and the guard summary `extract_nba_bdd_summary`.
- `find_deps.dfy`: the dependent-variable search. It collects the pairs of
  states reachable by a common prefix with a worklist, then runs the
  per-candidate cofactor test over pairs of edges, with the untouched
  variables renamed to their prime copies.
- `unates.dfy`: unate detection and reduction. The heuristic resolver uses
  implication and refutation tests. The complement resolver uses a probe
  state and an intersection oracle. The shared reduction rewrites a guard
  `g` to `cofactor(g, lit) ∧ lit`, and the base `run()` loop drives them.
- `projection.dfy`: `remove_ap_from_automaton`, existential projection of
  variables out of every guard.
- `synthesiser.dfy`: the gate compiler of `DependentsSynthesiser`. It covers
  latches per state, output gates as disjunctions of `latch(src) ∧
  partial_impl(guard, x)`, and the memoised partial implementation.
- `blif.dfy`: the `BLIF` class's rewrite that forces the initial-state latch
  to 1 on the first cycle, and the latch-name search.
- `merge.dfy`: the merged BLIF model, in the free function and in the
  `MergeStrategies` class.
- `aigtoblif.dfy`: the vendored AIGER-to-BLIF serialiser, run on an AIG that
  has already been read.
- `utils.dfy`: algorithm names, the checks made after option parsing, the
  option printers, `pair_hash` and the `TimeMeasure` stopwatch.
- `benchmarks.dfy`: the benchmark driver's classification of a tool's
  output, its reading of benchmark files, its command line checks and its
  table of results.

Library calls become parameters or oracles. These include Spot's complement,
intersection and dead-state purge, the external converters and the clock.
Code that updates state in place is modelled as classes and methods. Some
methods are proved against a function that specifies them, and the
properties are then proved as lemmas about that function. The others, the
worklists and the loops of the dependency search, state directly what
their lists and the new state hold: the verdict of every test they made,
what stays unchanged and what each list contains.

## Model

| member | source | states |
|---|---|---|
| Bdd.EvalOnSupport | src/findDeps/find_deps_by_automaton.cpp:137-145 | a guard's value depends only on the variables it tests, the fact the pair-edge test relies on when it renames the untouched variables apart |
| Bdd.Lit | src/unates/handle_unates_by_complement.cpp:128-130 | the literal of a variable (bdd_ithvar / bdd_nithvar) holds exactly when the variable has that polarity and tests only it |
| Bdd.Not | src/synthesis/dependents_synthesiser.cpp:157 | negation holds exactly where its operand fails, over the same variables |
| Bdd.And | src/findDeps/find_deps_by_automaton.cpp:250 | conjunction holds exactly where both operands hold and tests no new variable |
| Bdd.Restrict | src/unates/handle_unates_by_complement.cpp:114-116 | the cofactor no longer tests the fixed variable |
| Bdd.RestrictMeaning | src/unates/handle_unates_by_complement.cpp:114-116 | the cofactor of a guard at `v = c` reads the guard with `v` forced to `c` (bdd_restrict with a literal) |
| Bdd.RenameMeaning | src/findDeps/find_deps_by_automaton.cpp:153-158 | the renamed guard reads, under an assignment, what the guard reads with each renamed variable taking the value of its image (bdd_replace) |
| Bdd.RenameSupport | src/findDeps/find_deps_by_automaton.cpp:153-158 | a renamed guard tests only images of renamed variables and the variables the table leaves alone |
| Bdd.ExistsVarMeaning | src/synthesis/synthesis_utils.cpp:16 | quantifying one variable out holds where the guard holds for one of the variable's two values |
| Bdd.ExistsAllSupport | src/synthesis/synthesis_utils.cpp:8-16 | after quantifying the variables of a cube, the guard tests none of them |
| Bdd.ExistsAllSound | src/synthesis/synthesis_utils.cpp:16 | where the quantified guard holds, some change of the quantified variables satisfies the old guard |
| Bdd.ExistsAllComplete | src/synthesis/synthesis_utils.cpp:16 | any model of the old guard, changed only on the quantified variables, satisfies the quantified guard |
| Bdd.ExistsAllMeaning | src/synthesis/synthesis_utils.cpp:16 | bdd_exist with a cube holds exactly where some assignment differing only on the cube's variables satisfies the guard |
| Bdd.SatUnderSound | src/findDeps/find_deps_by_automaton.cpp:163 | a path to True that respects the fixed choices yields a model extending them |
| Bdd.SatUnderComplete | src/findDeps/find_deps_by_automaton.cpp:163 | a model extending the fixed choices shows such a path |
| Bdd.IsSatMeaning | src/findDeps/find_deps_by_automaton.cpp:163 | the test `!= bddfalse` holds exactly when the guard has a model |
| Bdd.IsValidMeaning | src/unates/handle_unates_by_heuristic.cpp:52-56 | the test `== bddtrue` holds exactly when every assignment satisfies the guard |
| Bdd.NodeCount | src/utils/bdd_utils.cpp:49 | the node count of a constant, and only of a constant, is 0 |
| Automaton.WithoutVar | src/synthesis/synthesis_utils.cpp:22-23 | the propositions kept are exactly those not numbered with the unregistered variable |
| Automaton.BddDict.RegisterAp | src/utils/bdd_utils.cpp:17 | a known name keeps its variable; a new one gets the next free variable, and nothing else changes |
| Automaton.BddDict.RegisterAnonymous | src/utils/bdd_utils.cpp:11-12 | reserves `n` consecutive fresh variables and returns the first, naming none of them |
| Automaton.Twa.RegisterAp | src/synthesis/synthesis_utils.cpp:10 | the name's variable, registered with the shared dictionary and appended to the automaton's propositions if new; edges unchanged |
| Automaton.Twa.UnregisterAp | src/synthesis/synthesis_utils.cpp:23 | drops the propositions numbered with the variable; edges unchanged |
| Automaton.Twa.NewState | src/unates/handle_unates_by_complement.cpp:21 | appends a state with no edges and returns its number |
| Automaton.Twa.KillState | src/unates/handle_unates_by_complement.cpp:46 | the state loses all its outgoing edges and nothing else changes |
| Automaton.Twa.NewEdge | src/unates/handle_unates_by_complement.cpp:119 | appends one edge to the source state's list |
| Automaton.Twa.SetInitState | src/unates/handle_unates_by_complement.cpp:30 | only the initial state changes |
| Automaton.Twa.SetCond | src/unates/handle_unates_by_complement.cpp:136 | only the guard of that one edge changes |
| Automaton.Twa.PurgeDeadStates | src/unates/handle_unates_base.cpp:18 | the graph becomes what the library's purge makes of it; the propositions stay |
| BddUtils.BddVarsCacher.constructor | src/utils/bdd_utils.cpp:6-13 | reserves one prime variable per proposition of the automaton, starting at the dictionary's next free variable; both caches empty, no prime handed out |
| BddUtils.BddVarsCacher.GetVariableIndex | src/utils/bdd_utils.cpp:15-21 | a cached name returns its cached variable; a new one is registered with the automaton, cached and returned; the prime cache is untouched |
| BddUtils.BddVarsCacher.GetPrimeVariableIndex | src/utils/bdd_utils.cpp:23-32 | a cached name returns its prime; the k-th new name gets the reserved start plus k and the counter moves on; prime variables stay distinct |
| BddUtils.CanRestrictVariableMeaning | src/utils/bdd_utils.cpp:35-39 | true exactly when some assignment satisfies the guard with the variable at the given value |
| BddUtils.Dedup | src/utils/bdd_utils.cpp:45-55 | the distinct guards, each once, the same set as all guards |
| BddUtils.WeightedSumDedup | src/utils/bdd_utils.cpp:64-71 | summing each distinct guard's size times its number of uses is summing the size of every edge's guard |
| BddUtils.WeightedSumSnoc | src/utils/bdd_utils.cpp:52 | one more use of a guard adds its size once to the weighted sum, if it is among the distinct guards |
| BddUtils.WeightedSumAtLeast | src/utils/bdd_utils.cpp:67-68 | each weight is at least one, so the repeated total is at least the distinct total |
| BddUtils.NotRepeatedAtMostRepeated | src/utils/bdd_utils.cpp:67-68 | the size counted once per distinct guard is at most the size counted once per use |
| BddUtils.DistinctCard | src/utils/bdd_utils.cpp:57 | the number of distinct guards listed is the size of their set |
| BddUtils.Record | src/utils/bdd_utils.cpp:47-53 | a first use of a guard records its node count and count 1, a later use bumps the count; the tables keep describing the guards seen |
| BddUtils.RecordState | src/utils/bdd_utils.cpp:46-54 | recording every guard of one state's edges, in order, keeps the tables exact |
| BddUtils.CountGuards | src/utils/bdd_utils.cpp:42-55 | the tables give each guard of the automaton its node count and number of uses, with the guards in first-use order |
| BddUtils.AddGuard | src/utils/bdd_utils.cpp:65-70 | one step of the second loop keeps the sums exact and the minimum and maximum bounds attained |
| BddUtils.Accumulate | src/utils/bdd_utils.cpp:58-71 | the repeated and distinct totals, and a minimum and maximum over the distinct guards that each guard lies between and some guard attains (the starting extremes when there is none) |
| BddUtils.DistinctBounds | src/utils/bdd_utils.cpp:64-71 | bounds over the distinct guards are bounds over every edge's guard, and attained by one |
| BddUtils.ExtractNbaBddSummary | src/utils/bdd_utils.cpp:41-75 | the number of distinct guards, the node total per use and per distinct guard, a minimum and maximum every guard lies between and some guard attains, and the truncated average per distinct guard; with no edge the extremes stay at their starting values and the average is undefined |
| FindDeps.Normalize | src/findDeps/find_deps_by_automaton.cpp:195-198 | the pair with the smaller state first, made of the same two states |
| FindDeps.SharesAssignmentMeaning | src/findDeps/find_deps_by_automaton.cpp:248-251 | two edges share an assignment exactly when some assignment satisfies both guards |
| FindDeps.DerivedReachable | src/findDeps/find_deps_by_automaton.cpp:183-235 | every recorded pair is reached from (init, init) by a run of compatible steps (same destination, or guards with a common assignment) |
| FindDeps.ClosedHoldsReachable | src/findDeps/find_deps_by_automaton.cpp:183-235 | a completed search (closed under compatible steps and holding (init, init)) holds every pair reachable by compatible steps |
| FindDeps.ClosedReflexive | src/findDeps/find_deps_by_automaton.cpp:225-226 | a completed search holds (d, d) for every edge s -> d of a recorded (s, s) |
| FindDeps.PathSnoc | src/findDeps/find_deps_by_automaton.cpp:214-229 | a run of compatible steps extended by one more is a run |
| FindDeps.PopTested | src/findDeps/find_deps_by_automaton.cpp:200-203 | skipping an already tested pair keeps the search invariant |
| FindDeps.PopNew | src/findDeps/find_deps_by_automaton.cpp:205-231 | recording an untested pair and queueing its untested compatible successors keeps the search invariant |
| FindDeps.CoveredPop | src/findDeps/find_deps_by_automaton.cpp:192-203 | dropping a recorded pair from the worklist leaves every successor of a recorded pair recorded or queued |
| FindDeps.CoveredVisit | src/findDeps/find_deps_by_automaton.cpp:205-231 | after a visit, every successor of a recorded pair is recorded or queued |
| FindDeps.DerivedVisit | src/findDeps/find_deps_by_automaton.cpp:205-206 | the first recorded pair is (init, init) and every later one follows from an earlier one |
| FindDeps.QueueDerivedVisit | src/findDeps/find_deps_by_automaton.cpp:214-229 | every queued pair follows from a recorded one |
| FindDeps.RecordVisit | src/findDeps/find_deps_by_automaton.cpp:205-206 | the tested set and the recorded list hold the same pairs, normalised and without repeats |
| FindDeps.QueueBoundedVisit | src/findDeps/find_deps_by_automaton.cpp:214-219 | every queued pair is normalised and made of states of the automaton |
| FindDeps.PairTable | src/findDeps/find_deps_by_automaton.cpp:154-157 | every reset variable is renamed, and each entry comes from a (variable, prime) pair of the list, the later pair winning |
| FindDeps.CofactorPairMeaning | src/findDeps/find_deps_by_automaton.cpp:160-176 | the conjunction of the two cofactors is satisfiable exactly when some assignment makes the first guard hold with x = c and the renamed second guard with x = !c |
| FindDeps.IsDependentByPairEdgesMeaning | src/findDeps/find_deps_by_automaton.cpp:146-181 | a pair of edges fails the test exactly when, in some polarity, both guards can be taken with opposite values of x |
| FindDeps.IsDependentByPairEdgesTwoCopies | src/findDeps/find_deps_by_automaton.cpp:137-145 | with the primes fresh, the test fails exactly when two assignments satisfy the guards with opposite x and agree on every variable not reset |
| FindDeps.CollideTwoCopies | src/findDeps/find_deps_by_automaton.cpp:137-145 | a collision under the renaming gives two such assignments |
| FindDeps.TwoCopiesCollide | src/findDeps/find_deps_by_automaton.cpp:137-145 | two such assignments give a collision under a fresh renaming |
| FindDeps.CheckPairs | src/findDeps/find_deps_by_automaton.cpp:120-134 | the scan answers true exactly when every edge pair of every recorded pair passes the test |
| FindDeps.AllVarsExcluded | src/findDeps/find_deps_by_automaton.cpp:109-112 | the reset variables are exactly the propositions not in the excluded list |
| FindDeps.FindDepsByAutomaton.constructor | src/findDeps/find_deps_by_automaton.h:82-100 | stores the automaton and variables, creates the cacher over it; output candidates, stop and done flags down |
| FindDeps.FindDepsByAutomaton.SetDependentVariableType | src/findDeps/find_deps_by_automaton.h:108-110 | sets the kind of candidate |
| FindDeps.FindDepsByAutomaton.Stop | src/findDeps/find_deps_by_automaton.h:116-118 | raises the stop flag |
| FindDeps.FindDepsByAutomaton.PollStop | src/findDeps/find_deps_by_automaton.cpp:26 | a read of the stop flag, which may have been raised meanwhile and never goes down |
| FindDeps.FindDepsByAutomaton.Candidates | src/findDeps/find_deps_by_automaton.cpp:63-74 | the output names when searching for dependent outputs, the input names otherwise |
| FindDeps.FindDepsByAutomaton.DependencySet | src/findDeps/find_deps_by_automaton.cpp:76-96 | the inputs (for output candidates only), the remaining candidates and the independents found so far, nothing else |
| FindDeps.FindDepsByAutomaton.ExpandEdge | src/findDeps/find_deps_by_automaton.cpp:209-230 | appends, for one edge of the first state, every untested normalised destination pair of a compatible edge of the second; stops on the flag |
| FindDeps.FindDepsByAutomaton.ExpandPair | src/findDeps/find_deps_by_automaton.cpp:208-231 | appends every untested normalised successor of the pair through compatible edges and only such pairs, keeping the queue's earlier entries; stops on the flag |
| FindDeps.FindDepsByAutomaton.VisitPair | src/findDeps/find_deps_by_automaton.cpp:205-231 | records the popped pair and queues its successors; the search invariant holds again unless the flag was seen |
| FindDeps.FindDepsByAutomaton.GetAllCompatibleStates | src/findDeps/find_deps_by_automaton.cpp:185-235 | the recorded pairs are normalised, distinct and reachable by compatible steps; the result is true exactly when the stop flag is down, and then (init, init) is recorded and the list is closed, so it holds every reachable pair |
| FindDeps.FindDepsByAutomaton.RegisterVars | src/findDeps/find_deps_by_automaton.cpp:104-108 | the variable numbers of the names, in order, registering new ones and keeping old ones |
| FindDeps.FindDepsByAutomaton.ResetPair | src/findDeps/find_deps_by_automaton.cpp:114-115 | the variable and the prime variable of one name |
| FindDeps.FindDepsByAutomaton.RegisterResetVars | src/findDeps/find_deps_by_automaton.cpp:113-116 | the (variable, prime) pairs of the names, in order |
| FindDeps.FindDepsByAutomaton.IsVariableDependent | src/findDeps/find_deps_by_automaton.cpp:98-135 | true exactly when every edge pair of every recorded pair passes the test, with every proposition outside the dependency set and the candidate renamed to its prime |
| FindDeps.FindDepsByAutomaton.ClassifyLast | src/findDeps/find_deps_by_automaton.cpp:36-52 | the last untested candidate is tested against the candidates before it and the independents (plus the inputs for output candidates); it joins the dependent list, and only that one, exactly when every edge pair of every recorded pair passes the test with every other proposition renamed to its prime |
| FindDeps.FindDepsByAutomaton.ClassifyAll | src/findDeps/find_deps_by_automaton.cpp:35-53 | the tested suffix of the candidates is split between the two lists; each candidate tested went to the dependent list exactly when every compatible state pair passed the pair-edge test with the resets in force at that time, and otherwise to the independent list; the untested prefix is returned, and is non-empty only if the stop flag was seen |
| FindDeps.FindDepsByAutomaton.FindDependencies | src/findDeps/find_deps_by_automaton.cpp:12-61 | the pairs tested against are all reachable from (init, init) by compatible steps, and when any candidate is tested they are every such pair (the search finished); every candidate ends in exactly one list; the dependent ones are exactly the tested candidates whose every compatible state pair passed the pair-edge test, in test order; the independent list holds the tested ones that failed it, followed by the untested ones in their order, and there are untested ones only if the stop flag was raised; the done flag is set |
| FindDeps.ClassifyStep | src/findDeps/find_deps_by_automaton.cpp:47-51 | the tested candidate moves into exactly one of the two lists |
| FindDeps.UntestedAppended | src/findDeps/find_deps_by_automaton.cpp:28-29 | appending the untested candidates keeps the independents found before them readable in front |
| Unates.ReduceMeaning | src/unates/handle_unates_by_complement.cpp:136 | the reduced guard cofactor(g, lit) ∧ lit holds exactly where the variable has the fixed value and the old guard holds |
| Unates.ReduceKeepsWitness | src/unates/handle_unates_by_complement.cpp:127-150 | for a guard monotone towards the fixed value, every letter that enables it still enables the reduced guard once the variable is set to that value |
| Unates.ReduceEdgesEffect | src/unates/handle_unates_by_complement.cpp:133-149 | the reduction keeps every edge's destination and marks, strengthens every guard, and makes every guard force the fixed value |
| Unates.RemovedEdgesMeaning | src/unates/handle_unates_by_complement.cpp:135-143 | an edge is recorded as removed exactly when it could only be taken with the variable at the opposite value; a satisfiable removed edge is also recorded as impacted |
| Unates.StrengthensTrans | src/unates/handle_unates_by_complement.cpp:59-90 | strengthening twice is strengthening, so successive resolutions in one state only strengthen its guards |
| Unates.StrengthensForces | src/unates/handle_unates_by_complement.cpp:66-83 | a variable fixed earlier stays fixed after later resolutions strengthen the guards |
| Unates.ReduceStateEdges | src/unates/handle_unates_by_complement.cpp:133-144 | every out-edge of the state gets its reduced guard, the removed and impacted edges are added to the effect, and nothing else changes |
| Unates.SufficientConditionEval | src/unates/handle_unates_by_heuristic.cpp:41-46 | the accumulated condition holds under a letter exactly when, for every edge, the cofactor at the opposite value implies the cofactor at the fixed value |
| Unates.SufficientConditionMeaning | src/unates/handle_unates_by_heuristic.cpp:52-56 | the condition is `bddtrue` exactly when every guard of the state is monotone towards the fixed value |
| Unates.EdgesConditionMeaning | src/unates/handle_unates_by_heuristic.cpp:48-49 | the disjunction of the cofactors at value c holds exactly when some edge is enabled with the variable set to c |
| Unates.RefutesMeaning | src/unates/handle_unates_by_heuristic.cpp:61-68 | the refutation test succeeds exactly when some letter lets the state move with the variable at the opposite value but not with it at the fixed one |
| Unates.SufficientExcludesRefutation | src/unates/handle_unates_by_heuristic.cpp:52-68 | a valid sufficient condition rules out the refutation of the same kind, so the verdicts never contradict |
| Unates.EdgeConditions | src/unates/handle_unates_by_heuristic.cpp:36-50 | the loop computes both sufficient conditions and both cofactor disjunctions |
| Unates.WorklistMoves | src/unates/handle_unates_by_heuristic.cpp:26-75 | every move of the tested variable (fixed and unknowns re-queued, refuted, or unknown) keeps the multiset of variables across the lists |
| Unates.HandleUnatesByHeuristic.constructor | src/unates/handle_unates_base.h:18-22 | stores the automaton and the output variables |
| Unates.HandleUnatesByHeuristic.HandleUnateInState | src/unates/handle_unates_by_complement.cpp:147-149 | the state's guards become their reductions, which strengthen them and force the fixed value; recorded removed edges stay false |
| Unates.HandleUnatesByHeuristic.Fix | src/unates/handle_unates_by_heuristic.cpp:52-59 | one resolution keeps every variable fixed so far fixed and fixes the new one |
| Unates.HandleUnatesByHeuristic.RegisterTested | src/unates/handle_unates_by_heuristic.cpp:31 | numbering the tested variable changes no guard and keeps earlier numbers |
| Unates.HandleUnatesByHeuristic.TestVariable | src/unates/handle_unates_by_heuristic.cpp:27-74 | the verdict is positive unate if the positive sufficient condition is valid, else negative unate if the negative one is, else not-positive if the positive refutation succeeds, else not-negative if the negative one does, else unknown; a unate variable is fixed in the state |
| Unates.HandleUnatesByHeuristic.ResolveUnatesInState | src/unates/handle_unates_by_heuristic.cpp:12-81 | every output variable ends in exactly one of the five lists; the positive and negative ones are fixed in the state; only that state changes, and only by strengthening |
| Unates.HandleUnatesByHeuristic.Run | src/unates/handle_unates_base.cpp:4-26 | every state is resolved once in increasing order, each only strengthened, and its lists are returned per state: the outputs split among the five lists, and the positive and negative variables forced to 1 and 0 by that state's resolved edges; the automaton is then what the purge makes of the result, with no false edge, and the reported sizes are its states and edges |
| Unates.ProbeCondMeaning | src/unates/handle_unates_by_complement.cpp:114-116 | the probe guard holds on letters where the variable has the fixed value and the old guard holds with it flipped |
| Unates.ProbeMeaning | src/unates/handle_unates_by_complement.cpp:108-121 | the probe state moves exactly on the letters that give the variable the fixed value and on which the tested state moves with it flipped |
| Unates.ProbeOrigin | src/unates/handle_unates_by_complement.cpp:118-120 | every probe edge comes from an edge of the tested state and has a satisfiable guard |
| Unates.ProbeWithinState | src/unates/handle_unates_by_complement.cpp:104-125 | when every guard is monotone towards the fixed value, every probe move is a move of the tested state to the same destination with the same marks, so the probe adds no behaviour |
| Unates.HandleUnatesByComplement.constructor | src/unates/handle_unates_by_complement.cpp:11-23 | the copy has the automaton's edges, the prime copy one more empty state as its initial state; the original initial state and edge count are recorded, and the prime copy keeps the original edges outside its probe state for the object's whole life |
| Unates.HandleUnatesByComplement.IsVarUnateInState | src/unates/handle_unates_by_complement.cpp:104-125 | the probe state's edges become the probe edges of the tested state, and the answer is that the complement does not intersect the probe automaton |
| Unates.WriteProbe | src/unates/handle_unates_by_complement.cpp:106-121 | after the emptied probe state is refilled edge by edge, it holds exactly the probe edges of the tested state and nothing else in the copy changes |
| Unates.HandleUnatesByComplement.HandleUnateInState | src/unates/handle_unates_by_complement.cpp:127-150 | the state's guards are reduced both in the copy and in the automaton, the copy's removed and impacted edges added to the effect |
| Unates.HandleUnatesByComplement.Fix | src/unates/handle_unates_by_complement.cpp:66-83 | one resolution keeps every variable fixed so far fixed and fixes the new one |
| Unates.HandleUnatesByComplement.RegisterTested | src/unates/handle_unates_by_complement.cpp:64 | numbering the tested variable changes no guard of any of the three automata |
| Unates.HandleUnatesByComplement.TestVariable | src/unates/handle_unates_by_complement.cpp:60-89 | positive unate when the complement misses the positive probe, else negative unate when it misses the negative one, else not unate; a unate variable is fixed |
| Unates.HandleUnatesByComplement.TestAll | src/unates/handle_unates_by_complement.cpp:55-90 | every output variable ends in exactly one of the three lists, and the unate ones are fixed in the state; every test made is logged with the verdict the two intersection tests give (positive when the complement misses the positive probe, else negative when it misses the negative probe, else none); the positive and negative lists are the names with those verdicts in test order, and the not-unate list is the names tested since the last fix, whose probes were built from the final edges of the state |
| Unates.HandleUnatesByComplement.ResolveUnatesInState | src/unates/handle_unates_by_complement.cpp:26-102 | testing happens exactly when the state is the original initial one or the complement fits its budget; otherwise nothing changes; when it happens, the three lists carry the logged verdicts of the worklist against that complement (the negated formula for the original initial state), each probe placed in the unreduced graph the prime copy was cloned from; the copy's initial state is restored and the probe emptied in both cases |
| Unates.LoggedSnoc | src/unates/handle_unates_by_complement.cpp:66-89 | logging one more judged test keeps the lists meaning their verdicts: a fix appends the name to its list and empties the not-unate list, a failure appends to the not-unate list |
| Unates.HandleUnatesByComplement.Run | src/unates/handle_unates_base.cpp:4-26 | every state is resolved once in increasing order, each only strengthened, and its lists and verdict log are returned per state: state s is tested in the graph with states below s already resolved; it is classified iff that graph's complement at s was built (or s is the original initial state), and then the outputs split among the three lists whose verdicts are the intersection tests against that complement, each probe placed in the original unreduced graph; otherwise its edges are untouched and its lists empty; the positive and negative variables are forced by the state's resolved edges; the automaton is then what the purge makes of the result, with no false edge, and the reported sizes are its states and edges |
| Projection.ProjectEffect | src/synthesis/synthesis_utils.cpp:14-18 | projection keeps every edge with its destination and marks, each old guard implies its new guard, and no new guard tests a removed variable |
| Projection.ProjectMeaning | src/synthesis/synthesis_utils.cpp:14-18 | each new guard holds exactly where some change of the removed variables satisfies the old guard |
| Projection.RegisterAll | src/synthesis/synthesis_utils.cpp:8-11 | every name is registered and the result lists their variables in order; earlier names keep their variables and the edges do not change |
| Projection.QuantifyGuards | src/synthesis/synthesis_utils.cpp:14-18 | the new edges are the projection of the old ones; initial state and propositions unchanged |
| Projection.DropAp | src/synthesis/synthesis_utils.cpp:21-24 | looking a registered name up and unregistering it removes exactly that name from the automaton's propositions |
| Projection.RemoveApFromAutomaton | src/synthesis/synthesis_utils.cpp:6-25 | the automaton's edges become the projection over the variables of the named propositions, and its propositions lose exactly those names |
| Synthesiser.Aig.SetNextLatch | src/synthesis/dependents_synthesiser.cpp:81 | the latch of state `s` gets gate `g` as its next value; the outputs and the other latches keep theirs |
| Synthesiser.Aig.SetOutput | src/synthesis/dependents_synthesiser.cpp:114 | output `k` gets gate `g`; the latches and the other outputs keep theirs |
| Synthesiser.TransitionsMeaning | src/synthesis/dependents_synthesiser.cpp:50-58 | a transition (src, guard, dst) is listed exactly when it is an edge of one of the states visited |
| Synthesiser.IntoMeaning | src/synthesis/dependents_synthesiser.cpp:49-58 | the transitions grouped under a destination are exactly the listed ones entering it |
| Synthesiser.GroupedStep | src/synthesis/dependents_synthesiser.cpp:56 | appending one (source, guard gate) pair under its destination keeps the map a grouping of all transitions seen, by destination, in order |
| Synthesiser.NextLatchEval | src/synthesis/dependents_synthesiser.cpp:64-79 | the next-state gate (the single term alone, or the disjunction of several) holds exactly when one of its transitions leaves an active latch under a guard the inputs meet |
| Synthesiser.NextLatchMeaning | src/synthesis/dependents_synthesiser.cpp:40-90 | the latch of state `d` is set next exactly when some edge into `d` leaves an active state under a guard the inputs satisfy; a state no edge enters gets 0 |
| Synthesiser.PartialImplMeaning | src/synthesis/dependents_synthesiser.cpp:135-167 | the partial implementation of dependent `x` from a guard holds exactly when the other dependent variables can be set so the guard holds with `x` at 1 |
| Synthesiser.NodeAtInput | src/synthesis/dependents_synthesiser.cpp:155-157 | at a node testing a non-dependent variable the guard is satisfiable with `x` at 1 exactly as the branch the input selects is |
| Synthesiser.NodeAtOutput | src/synthesis/dependents_synthesiser.cpp:159-161 | at a node testing `x` itself only the high branch counts |
| Synthesiser.NodeAtOtherDependent | src/synthesis/dependents_synthesiser.cpp:159-161 | at a node testing another dependent variable either branch counts |
| Synthesiser.OutputTerms | src/synthesis/dependents_synthesiser.cpp:98-112 | one term per edge, in state and edge order, each "source latch active and partial implementation of the guard" |
| Synthesiser.OutputMeaning | src/synthesis/dependents_synthesiser.cpp:92-116 | output `x` is 1 exactly when some edge leaves an active state with a guard that the other dependent variables can meet with `x` at 1 |
| Synthesiser.OutputSound | src/synthesis/dependents_synthesiser.cpp:92-116 | an output at 1 has such an edge |
| Synthesiser.OutputComplete | src/synthesis/dependents_synthesiser.cpp:92-116 | such an edge sets the output to 1 |
| Synthesiser.DependentsSynthesiser.constructor | src/synthesis/dependents_synthesiser.h:52-61 | stores both automata and the three variable lists; no graph, no recorded variables, empty cache |
| Synthesiser.DependentsSynthesiser.ApToBddVarnum | src/synthesis/dependents_synthesiser.h:47-49 | the result is the variable the name now has in the dictionary; earlier names keep their variables and the automaton's edges do not change |
| Synthesiser.DependentsSynthesiser.InitAiger | src/synthesis/dependents_synthesiser.cpp:15-38 | a fresh graph whose inputs are the input then the independent names, whose outputs are the dependent names and which has one latch per state; the recorded variables are those of the dependent names |
| Synthesiser.DependentsSynthesiser.RegisterDependents | src/synthesis/dependents_synthesiser.cpp:35-37 | every dependent name is registered and its variable added to the recorded set, nothing else |
| Synthesiser.DependentsSynthesiser.DefineNextLatches | src/synthesis/dependents_synthesiser.cpp:40-90 | every state's latch gets exactly the next-state gate of the edges entering it (0 when none), outputs unchanged |
| Synthesiser.DependentsSynthesiser.GroupByDestination | src/synthesis/dependents_synthesiser.cpp:49-58 | the map groups every transition of the automaton by destination, in order |
| Synthesiser.DependentsSynthesiser.GroupState | src/synthesis/dependents_synthesiser.cpp:51-57 | adding one state's edges keeps the map a grouping of the transitions seen |
| Synthesiser.DependentsSynthesiser.LatchGate | src/synthesis/dependents_synthesiser.cpp:64-79 | the gate built from the pairs into one state is its next-state gate |
| Synthesiser.DependentsSynthesiser.SetGroupedLatches | src/synthesis/dependents_synthesiser.cpp:60-82 | every destination of the grouping gets its next-state gate; other latches and the outputs keep theirs |
| Synthesiser.DependentsSynthesiser.SetRemainingLatches | src/synthesis/dependents_synthesiser.cpp:84-89 | every state no transition enters gets the constant 0 |
| Synthesiser.DependentsSynthesiser.GeneratePartialImpl | src/synthesis/dependents_synthesiser.cpp:135-167 | the memoised bottom-up construction returns the partial implementation, and every memo entry stays correct |
| Synthesiser.DependentsSynthesiser.GetPartialImpl | src/synthesis/dependents_synthesiser.cpp:118-133 | a cached gate is returned unchanged; otherwise the partial implementation is computed and cached; every cache entry stays correct |
| Synthesiser.DependentsSynthesiser.DefineOutputGates | src/synthesis/dependents_synthesiser.cpp:92-116 | output `k` becomes the output gate of the `k`th dependent variable, for every `k`; latches unchanged |
| Synthesiser.DependentsSynthesiser.DefineOutputGate | src/synthesis/dependents_synthesiser.cpp:93-115 | one output set to its gate, the rest unchanged |
| Synthesiser.DependentsSynthesiser.DependentTerms | src/synthesis/dependents_synthesiser.cpp:95-112 | the terms collected are the output terms of every transition, in state and edge order |
| Synthesiser.DependentsSynthesiser.Synthesis | src/synthesis/dependents_synthesiser.h:63-73 | under the source's three assertions plus initial state 0, returns a fresh graph with every latch and every output defined by its meaning gate |
| Blif.LineEnd | src/models/BLIF.cpp:63 | the end of the first line: no terminator before it, a terminator at it unless the text ends, the extent of a `.` run |
| Blif.LastSep | src/models/BLIF.cpp:63 | the greedy first group's choice: the last separator ` name ` in range, and none after it |
| Blif.RenameMatch | src/models/BLIF.cpp:63 | a match of `.latch (.*) (name) (.*)` at the head of the text puts ` name ` after the head and runs to the end of the line |
| Blif.RenameLatchLine | src/models/BLIF.cpp:61-67 | a latch line whose output field is the latch gets `<name>Tmp` there, its other fields kept, and the replacement goes on after the line |
| Blif.RenameKeepsLine | src/models/BLIF.cpp:66-67 | a line without the separator after its head is copied unchanged |
| Blif.RenameKeepsTerminator | src/models/BLIF.cpp:66-67 | a line terminator is copied unchanged, since `.` does not match it |
| Blif.AuxLatchKept | src/models/BLIF.cpp:53-67 | the auxiliary latch line inserted first survives the renaming |
| Blif.LetterRun | src/models/BLIF.cpp:83-84 | the leading run of letters, the extent of `[a-zA-Z]+` |
| Blif.NumberedAt | src/models/BLIF.cpp:83-84 | the group `([a-zA-Z]+N)` between two spaces is letters followed by the number, read from the text |
| Blif.SearchNumbered | src/models/BLIF.cpp:87 | the group the leftmost match yields is letters followed by the number |
| Blif.NumberedLine | src/models/BLIF.cpp:81-93 | on text whose first match is a latch line whose second field is letters followed by the number, the search yields exactly that field |
| Blif.NumberedLineAtHead | src/models/BLIF.cpp:83-84 | a latch line whose second field is letters followed by the number matches the pattern at its start, with that field as the group |
| Blif.SearchNumberedLeftmost | src/models/BLIF.cpp:87 | the search finds nothing exactly when no position matches, and otherwise returns the match at the leftmost matching position |
| Blif.SelectorValue | src/models/BLIF.cpp:71-75 | the selector cover `-0 1`, `11 1` outputs 1 while the auxiliary latch is 0, and `<name>Tmp` once it is 1 |
| Blif.InitialCycleForced | src/models/BLIF.cpp:53-75 | with the auxiliary latch (input constant 1, initial 0), the net of the latch reads 1 in the first cycle and follows the renamed latch afterwards |
| Blif.SelectorBlockText | src/models/BLIF.cpp:71-75 | the selector block is the text the source appends |
| Blif.EraseFirstEnd | src/models/BLIF.cpp:42-46 | without `.end` the text is unchanged; otherwise exactly its first `.end` is erased |
| Blif.AddConstOne | src/models/BLIF.cpp:48-51 | the result holds `.names c1`; an existing table leaves the text unchanged, otherwise the table is appended |
| Blif.InsertAuxLatch | src/models/BLIF.cpp:53-59 | the auxiliary latch line is inserted just before the first `.latch`, the rest of the text kept around it |
| Blif.FirstOccurrence | src/models/BLIF.cpp:55 | nothing before the first `.latch` holds `.latch` |
| Blif.BlifModel.constructor | src/models/BLIF.cpp:32 | holds the model name and the converted text |
| Blif.BlifModel.InitLatchToOne | src/models/BLIF.cpp:39-79 | under the source's two assertions, the text becomes the prepared text with the latch renamed, then the selector block and `.end` |
| Blif.BlifModel.FindLatchNameByNum | src/models/BLIF.cpp:81-93 | the group of the leftmost matching latch line, letters followed by the number in decimal, or "" when no line matches |
| Merge.WiredVar | src/synthesis/merge_strategies.h:139 | the net of an output is `In` followed by the output's name |
| Merge.WiredVarInjective | src/synthesis/merge_strategies.h:139 | distinct outputs get distinct nets |
| Merge.Connections | src/synthesis/merge_strategies.cpp:87-96 | one `formal=actual` pair per variable, in order: an input to itself, an output to its net |
| Merge.TerminatedSnoc | src/synthesis/merge_strategies.cpp:87-96 | appending one more connector to the loop's text appends it and its separator |
| Merge.ConnectionsAreWords | src/synthesis/merge_strategies.cpp:87-96 | names without spaces give connectors without spaces |
| Merge.FieldsTerminated | src/synthesis/merge_strategies.cpp:87-96 | a space after every connector lets a BLIF reader split them back into exactly those connectors |
| Merge.OutputsListed | src/synthesis/merge_strategies.cpp:67-68 | the `.outputs` line lists the independent outputs and then the dependent ones |
| Merge.SubcktHead | src/synthesis/merge_strategies.cpp:99-102 | a `.subckt` line's first two fields are the keyword and the sub-model name |
| Merge.SpacedFields | src/synthesis/merge_strategies.cpp:87-96 | the space-terminated connector text splits back into the connectors |
| Merge.IndepsSubcktFields | src/synthesis/merge_strategies.cpp:99-100 | the independent sub-circuit line reads as the sub-model, every input wired to itself, every independent output to its net |
| Merge.DepsSubcktFields | src/synthesis/merge_strategies.cpp:101-102 | the dependent sub-circuit line reads as the sub-model, the inputs, the nets of the independent outputs and the nets of the dependent outputs |
| Merge.SpacedConnectors | src/synthesis/merge_strategies.cpp:87-96 | the loops build exactly the space-terminated connector text |
| Merge.ConnectionsSnoc | src/synthesis/merge_strategies.cpp:87-96 | the connectors of one more variable extend the connectors of the prefix by its pair |
| Merge.WriteBuffers | src/synthesis/merge_strategies.cpp:71-80 | one `.names In<v> <v>` / `1 1` buffer per variable, in order, after what was written |
| Merge.MergeStrategiesBlifs | src/synthesis/merge_strategies.cpp:54-108 | the text written is the header, the buffers of both output groups, the two sub-circuit lines, `.end` and the two sub-models |
| Merge.ChooseStrategy | src/synthesis/merge_strategies.cpp:118-130 | the dependent strategy exactly when there is no independent output or strategy; else the independent one exactly when there is no dependent output or strategy; else a merge under `<model>_indeps` and `<model>_deps` |
| Merge.ReplaceFirstLine | src/synthesis/merge_strategies.cpp:49 | the lines of the result are the new line followed by every line of the text but its first |
| Merge.FirstNewline | src/synthesis/merge_strategies.cpp:49 | after a line without a newline, the first newline is the one that follows it |
| Merge.AigerToBlif | src/synthesis/merge_strategies.h:37-50 | the converted text's first line becomes `.model <name>`, its other lines kept |
| Merge.UnspacedConnectors | src/synthesis/merge_strategies.h:72-81 | the loops of the class build the connectors with nothing between them |
| Merge.UnspacedConnectorsRunTogether | src/synthesis/merge_strategies.h:72-74 | for inputs `a` and `b` the text is `a=ab=b`, which reads as one field and not as the two connectors |
| Merge.MergeStrategies.constructor | src/synthesis/merge_strategies.h:25-35 | holds the inputs, outputs, the two output groups and the model name |
| Merge.MergeStrategies.MergeBlifs | src/synthesis/merge_strategies.h:52-92 | the text written is the header, one buffer per output, the two sub-circuit lines with unseparated connectors, `.end` and the two sub-models |
| Merge.MergeStrategies.Merge | src/synthesis/merge_strategies.h:118-136 | under the two assertions, the merged text built from both converted circuits renamed `independent_model` and `dependent_model` |
| AigToBlif.Repeat | libs/aiger/aigtoblif.c:96-97 | `n` copies of the prefix letter |
| AigToBlif.UnnamedOutputsDistinct | libs/aiger/aigtoblif.c:33-43 | two unnamed outputs never get the same name `o<i>` |
| AigToBlif.OutputNameClash | libs/aiger/aigtoblif.c:33-43 | the name of an unnamed output does not use the prefix count: an input named `o0` and unnamed output 0 are both written `o0` |
| AigToBlif.CountedOutputNameDistinct | libs/aiger/aigtoblif.c:33-43 | with the prefix count applied to the generated output name, an unnamed output is never written like a named literal |
| AigToBlif.MangleChar | libs/aiger/aigtoblif.c:60-64 | every character is written as at least one character |
| AigToBlif.PrintMangled | libs/aiger/aigtoblif.c:55-65 | the loop writes the mangled symbol after what was written |
| AigToBlif.MangleSnoc | libs/aiger/aigtoblif.c:60-64 | one more character appends its own mangled form |
| AigToBlif.DigitCharSym | libs/aiger/aigtoblif.c:64 | hex digits are BLIF name characters |
| AigToBlif.HexDigitsSym | libs/aiger/aigtoblif.c:64 | the hex code of an escape holds only BLIF name characters |
| AigToBlif.MangleSafe | libs/aiger/aigtoblif.c:45-65 | a mangled symbol holds only BLIF name characters and escapes, and is no shorter than the symbol |
| AigToBlif.MangledIsWord | libs/aiger/aigtoblif.c:45-65 | a non-empty mangled symbol is a single space-free field with no newline |
| AigToBlif.MangleKeeps | libs/aiger/aigtoblif.c:60-62 | a symbol made of BLIF name characters is written unchanged |
| AigToBlif.MangleNoEscape | libs/aiger/aigtoblif.c:60-64 | a mangled symbol with no escape is the symbol itself |
| AigToBlif.KindChar | libs/aiger/aigtoblif.c:86-94 | the letter of an unnamed literal is `i`, `l` or `a` |
| AigToBlif.WritePl | libs/aiger/aigtoblif.c:67-101 | the recursive writer writes exactly the literal's name after what was written |
| AigToBlif.WriteRepeat | libs/aiger/aigtoblif.c:96-97 | the `fputc` loop writes `n` copies of the letter |
| AigToBlif.ChRun | libs/aiger/aigtoblif.c:109-110 | the run of `ch` at the head of the text: all `ch`, and followed by something else or nothing |
| AigToBlif.CountChPrefix | libs/aiger/aigtoblif.c:103-116 | the run of `ch`, when a digit or the end follows it, and 0 otherwise |
| AigToBlif.SetupCount | libs/aiger/aigtoblif.c:118-145 | the largest prefix count of `i`, `l`, `o` or `a` over the symbols of variables 1 to `maxvar` |
| AigToBlif.CountBound | libs/aiger/aigtoblif.c:126-143 | every symbol's prefix count for each of the four letters is at most the count |
| AigToBlif.ChRunGenerated | libs/aiger/aigtoblif.c:96-99 | a run of `k` letters followed by something else has run length `k` |
| AigToBlif.GeneratedPrefix | libs/aiger/aigtoblif.c:96-99 | a generated name, letters then digits, has the number of letters as its prefix count |
| AigToBlif.GeneratedNoEscape | libs/aiger/aigtoblif.c:96-99 | a generated name holds no escape |
| AigToBlif.NamedUnnamedDistinct | libs/aiger/aigtoblif.c:67-145 | with the count from `setupcount`, an unnamed literal is never written like a named one |
| AigToBlif.UnnamedDistinct | libs/aiger/aigtoblif.c:84-100 | distinct unnamed positive literals are written differently |
| AigToBlif.Helpers | libs/aiger/aigtoblif.c:243-256 | the latches that get an inverter are among the latches seen so far, at most one per latch |
| AigToBlif.HelpersNegated | libs/aiger/aigtoblif.c:236-256 | every latch that gets an inverter has a negated next-state literal |
| AigToBlif.HelpersDistinct | libs/aiger/aigtoblif.c:243-256 | the latches that get an inverter are in increasing order and have pairwise different next-state literals, so no inverter is written twice |
| AigToBlif.HelpersCover | libs/aiger/aigtoblif.c:236-256 | every negated next-state literal of a latch is that of a latch that gets an inverter, so every `n<next>` net is driven |
| AigToBlif.ConstantsDefined | libs/aiger/aigtoblif.c:156-157 | the text ends with the definitions of `c0` and `c1` and `.end`, both constants being always required |
| AigToBlif.AndCover | libs/aiger/aigtoblif.c:268-272 | the cover written for an and-gate computes the conjunction of its two input literals |
| AigToBlif.OutputCover | libs/aiger/aigtoblif.c:294-307 | the cover written for an output, or for a latch's inverter, gives the value of its literal |
| AigToBlif.WriteListItem | libs/aiger/aigtoblif.c:184-187 | the name, a space, and a line continuation after every tenth item but the last |
| AigToBlif.AppendInput | libs/aiger/aigtoblif.c:182-188 | one more input item on the `.inputs` line |
| AigToBlif.WriteInputs | libs/aiger/aigtoblif.c:181-189 | the `.inputs` items of all inputs, in order |
| AigToBlif.AppendOutputName | libs/aiger/aigtoblif.c:191-197 | one more output item on the `.outputs` line |
| AigToBlif.WriteOutputNames | libs/aiger/aigtoblif.c:190-198 | the `.outputs` items of all outputs, in order |
| AigToBlif.AlreadyDone | libs/aiger/aigtoblif.c:243-251 | true exactly when an earlier helper latch has the same next-state literal |
| AigToBlif.WriteLatchLine | libs/aiger/aigtoblif.c:220-242 | the `.latch` line of a latch: constant, positive or `n`-prefixed next state, then the latch, initial 0 |
| AigToBlif.RecordHelper | libs/aiger/aigtoblif.c:243-256 | the helper array grows to the helpers of one more latch |
| AigToBlif.AppendLatchLine | libs/aiger/aigtoblif.c:208-259 | one more latch line |
| AigToBlif.WriteLatches | libs/aiger/aigtoblif.c:207-259 | all latch lines in order, and the helper array's first `cnt` cells hold the latches that get an inverter |
| AigToBlif.WriteAndLine | libs/aiger/aigtoblif.c:263-272 | the `.names` line and the one-cube cover of an and-gate |
| AigToBlif.AppendAndLine | libs/aiger/aigtoblif.c:261-273 | one more and-gate |
| AigToBlif.WriteAnds | libs/aiger/aigtoblif.c:261-273 | the covers of all and-gates, in order |
| AigToBlif.WriteOutputLine | libs/aiger/aigtoblif.c:281-307 | the buffer or inverter of an output, and a constant output's buffer from `c0` or `c1` |
| AigToBlif.AppendOutputLine | libs/aiger/aigtoblif.c:278-308 | one more output cover |
| AigToBlif.WriteOutputs | libs/aiger/aigtoblif.c:278-308 | the covers of all outputs, in order |
| AigToBlif.WriteInverterLine | libs/aiger/aigtoblif.c:315-323 | the inverter that drives `n<next>` from the next-state node |
| AigToBlif.AppendInverterLine | libs/aiger/aigtoblif.c:313-324 | one more inverter |
| AigToBlif.WriteInverters | libs/aiger/aigtoblif.c:313-324 | one inverter per helper latch, in order |
| AigToBlif.WriteSections | libs/aiger/aigtoblif.c:175-324 | header, latches, gates, outputs and inverters in this order, with the count from `setupcount` |
| AigToBlif.WriteBlif | libs/aiger/aigtoblif.c:175-335 | the whole BLIF text, the constants and `.end` included |
| AigToBlif.AigerToBlif | libs/aiger/aigtoblif.c:148-172 | a read error gives 1 and no text; otherwise 0 and the BLIF text |
| Utils.Ordinal | src/utils/utils.h:20 | the enumerators are 0, 1 and 2, one each |
| Utils.StringToAlgorithm | src/utils/utils.cpp:166-174 | exactly `formula` and `automaton` name their algorithms; every other string is the unknown algorithm |
| Utils.AlgorithmToString | src/utils/utils.cpp:176-185 | the printed name reads back as the same algorithm, and the unknown algorithm prints as `unknown` |
| Utils.ExtractVariables | src/utils/utils.cpp:194-200 | an empty list leaves the destination as it was; otherwise the comma-free fields, untrimmed, that joined by commas give the list back |
| Utils.ValidateSynthesisOptions | src/utils/utils.cpp:79-87 | accepted exactly when unates are skipped and model checking comes with merging; the first failing check gives its message |
| Utils.ValidateFindDependenciesOptions | src/utils/utils.cpp:144-156 | accepted exactly when the input-only search is off or the algorithm is `automaton`; a missing `--algo` is the unknown algorithm |
| Utils.SkipReported | src/utils/utils.cpp:216-228 | the printer reports the dependency search as skipped exactly when the timeout is not positive, and prints the timeout's sign |
| Utils.FindDependenciesOptionsLines | src/utils/utils.cpp:202-214 | the dependency search printer writes six lines; the verbose line reads `1` exactly when verbose is set, and the last line reads `input` exactly when input dependencies are searched |
| Utils.AlgorithmReported | src/utils/utils.cpp:209 | the algorithm line names the algorithm the options hold |
| Utils.PairHash | src/utils/utils.h:49-57 | the hash of a pair combined with either component's hash gives the other's: the exclusive or of the two |
| Utils.PairHashSymmetric | src/utils/utils.h:49-57 | swapping the components of a pair of one type keeps the hash |
| Utils.PairHashDiagonal | src/utils/utils.h:49-57 | a pair of two equal components hashes to zero |
| Utils.TimeMeasure.constructor | src/utils/utils.h:87 | a new stopwatch has duration -1 and has not started |
| Utils.TimeMeasure.Start | src/utils/utils.cpp:231-234 | records the clock reading and sets the started flag, the duration kept |
| Utils.TimeMeasure.End | src/utils/utils.cpp:236-246 | stores and returns the milliseconds since the start, the rest kept |
| Utils.TimeMeasure.GetDuration | src/utils/utils.cpp:248-256 | the error exactly when validation is asked while the duration is -1; otherwise the stored duration |
| Utils.StopwatchMeasures | src/utils/utils.cpp:231-256 | started at `t0` and ended at `t1` on a monotonic clock, the validated duration is `t1 - t0` |
| Benchmarks.StatusName | run-benchmarks.py:36-54 | the four statuses have four distinct spellings: `Out-Of-Memory`, `Error`, `Timeout`, `Success` |
| Benchmarks.FirstFiring | run-benchmarks.py:37-52 | the first test, from a position on, whose texts occur in the output, none before it firing; or none fires |
| Benchmarks.ToolStatus | run-benchmarks.py:36-54 | a timeout exactly when exit code 124 shows and none of the four earlier tests matched; success exactly when none of the eight tests matches |
| Benchmarks.RuleOrder | run-benchmarks.py:37-52 | the eight tests in order, each by the texts it looks for |
| Benchmarks.ToolStatusIsFirstRule | run-benchmarks.py:36-54 | the chain of tests gives the status of the first test that matches, success when none does |
| Benchmarks.OutOfMemoryCases | run-benchmarks.py:37-40 | a slurm error with an oom-kill, or a Java heap error, is out of memory whatever else shows |
| Benchmarks.ContainsInner | run-benchmarks.py:37-52 | a text that occurs inside an occurring text occurs too |
| Benchmarks.OomEventWithSlurmError | run-benchmarks.py:37-38 | an oom-kill event with a slurm error is out of memory by the first test |
| Benchmarks.TimeoutBeforeOomEvent | run-benchmarks.py:45-50 | exit code 124 with an oom-kill event and none of the four earlier tests is a timeout, not out of memory |
| Benchmarks.ErrorCases | run-benchmarks.py:41-52 | each of the error tests gives an error when no earlier test matched |
| Text.SpanBefore | run-benchmarks.py:93 | the first line of a text, up to its line end, lies within the text |
| Text.SpanBeforeEnds | run-benchmarks.py:93 | the first line ends at the first line end, or at the end of a text without one |
| Benchmarks.LineLengthOfLine | run-benchmarks.py:93 | a line with one line end at its end is its own first line |
| Benchmarks.ReadLinesCons | run-benchmarks.py:93 | a text that starts with a whole line is read as that line followed by the rest's lines |
| Benchmarks.FiveLines | run-benchmarks.py:93-97 | five whole lines in front of a text are read as those five lines |
| Benchmarks.GetBenchmark | run-benchmarks.py:87-103 | a benchmark is read exactly when its file exists and has at least five lines |
| Benchmarks.LabelValueOfLabelled | run-benchmarks.py:94-97 | removing the heading and stripping a labelled line gives back its value |
| Benchmarks.LabelledIsLine | run-benchmarks.py:94-97 | a labelled line is one whole line |
| Benchmarks.GetBenchmarkOfFile | run-benchmarks.py:87-103 | a benchmark file written from a benchmark reads back as that benchmark |
| Benchmarks.BenchmarkFileLines | run-benchmarks.py:93-97 | the name, formula, inputs and outputs sit on the first, third, fourth and fifth lines of a written file |
| Benchmarks.CheckTimeout | run-benchmarks.py:152-154 | a timeout is accepted exactly when positive, and kept |
| Benchmarks.ToolCommand | run-benchmarks.py:63-74 | a command exactly for the three known tools, always starting `timeout <t>s <program>` with the tool's own program and ending with the quoted formula |
| Benchmarks.BenchmarkNames | run-benchmarks.py:150 | no names for an empty argument; otherwise one stripped name per comma-separated field |
| Benchmarks.StripAll | run-benchmarks.py:150 | every name stripped, in order |
| Benchmarks.Lower | run-benchmarks.py:129-130 | every ASCII upper-case letter becomes its lower-case letter, every other character is kept, and no upper-case letter is left |
| Benchmarks.CombineResults | run-benchmarks.py:115-130 | the loop builds the table of rows that entering the results in order gives |
| Benchmarks.CombineKeys | run-benchmarks.py:118-128 | the table has exactly one row per benchmark that has a result |
| Benchmarks.KeysDiffer | run-benchmarks.py:129-130 | the status and duration keys of the tools never clash with each other or with the name key |
| Benchmarks.CombineLastWins | run-benchmarks.py:129-130 | a tool's status and duration on a benchmark are those of its last result there |
| Benchmarks.NameCell | run-benchmarks.py:120-121 | every row's name cell holds the benchmark's name |

## Left out

- Spot's LTL translation, `scc_filter_states`, the parity-game pipeline and the `aig` class's internals are not part of this model. Circuits are the `Gate` datatype with its evaluation.
- Spot's `complement`, `intersects` and `purge_dead_states` are oracles, passed as parameters or left nondeterministic, with the contracts the library documents.
- BuDDy is replaced by a structural BDD datatype. It is not reduced or hash-consed, so guard identity (`cond.id()`) is structural equality, and variable order is not enforced.
- Concurrency: the stop flag of the dependency search is polled nondeterministically (`FindDeps.FindDepsByAutomaton.PollStop`); threads are not modelled.
- External processes and file I/O are left out: `exec`, `blif_file_to_aiger`, the ABC and `aigtoaig` runs, the stream writes of `aiger_to_blif`, `BLIF::load_aig`, and aigtoblif's `aiger_read_from_file`. Converted texts and parsed AIGs are parameters instead.
- `replaceFirstLine` is not part of the sources; it is taken to replace the text before the first newline.
- Telemetry (`synt_measure`, the unate measures and summaries) and the CLI mains are left out; the measure calls in the core are dropped.
- Option parsing by Boost is left out; only the checks made after parsing are modelled. `parse_find_unates_cli` makes no such check.
- The `operator<<` for vectors and the stream formatting of the option printers beyond their lines are left out.
- The subprocess runs, timings and CSV writing of `run-benchmarks.py` are left out. The table of results is modelled as the dictionary it builds.
- `are_edges_shares_variable` is unused, and its own comment marks it as wrong; it is not modelled.
- FindDeps.AllVarsExcluded: `SyntInstance::all_vars_excluded` is not part of this model; it is taken to list the inputs then the outputs, in order, without the excluded names.
- The `scc_filter` pruning in the `FindDepsByAutomaton` constructor is a library call; the automaton is taken as already pruned.
- BddUtils.BddVarsCacher.GetPrimeVariableIndex: the reserved prime block is not bounds-checked, as in the source; the model does not promise that primes stay inside it.
- BddUtils.ExtractNbaBddSummary: the guards are visited in first-seen order instead of the order of an `unordered_map`. The sums are unbounded integers, without the 32-bit overflow of `int`.
- Bdd.NodeCount counts the distinct inner subdiagrams of the datatype value. This equals BuDDy's `bdd_nodecount` only when the diagram is reduced, which the model does not enforce.
- Unates.HandleUnatesByHeuristic.ResolveUnatesInState states the partition of the outputs and the fixing of the unate ones. The verdict on each variable is stated by `Unates.HandleUnatesByHeuristic.TestVariable`.
- The base-class `handle_unate_in_state` is not part of the sources; both unate strategies use the reduction of `handle_unates_by_complement.cpp:127-150`.
- Synthesiser.DependentsSynthesiser.Synthesis requires a fresh object (no graph yet, empty caches) and an initial state 0, which the source's callers provide; the source does not check them.
- Synthesiser: `ap_to_bdd_varnum` is a lookup of a name that `init_aiger` has already registered. Gate numbering and structural hashing inside Spot's `aig` are not modelled.
- Blif: the regular expressions are modelled for the latch lines that aigtoblif writes, `.latch <in> <out> <init>`. A latch name holding regular-expression metacharacters is not modelled.
- Benchmarks: `strip` removes ASCII whitespace only, `lower()` is ASCII-only, and `readlines` splits at `\n` only (no universal newlines).
- AigToBlif: names are characters; a character above 255 is not modelled as a C `char`, and `%0X` is modelled for codes 0 to 255 with the sign extension of a signed `char`.
- Merge.MergeStrategies has no setters in the source; its fields are constants.
- AigToBlif.OnCounted, the corrected output name of the finding below, is not used by the writer. The modelled BLIF text keeps the `o<i>` names that `on` writes.

## Findings

| source | as written | input that shows it | evidently intended | confidence | as-written member | corrected member |
|---|---|---|---|---|---|---|
| libs/aiger/aigtoblif.c:33-43 | `on` writes an unnamed output as `o<i>`, ignoring the prefix count `setupcount` computes for generated names | an AIG whose input literal 2 is named `o0` and whose one output, unnamed, is that literal: both are written `o0` | the output name prefixed by `o` one more time than any symbol starts with, as `pl` does for unnamed literals | not executed | AigToBlif.OutputNameClash | AigToBlif.CountedOutputNameDistinct |
| src/synthesis/merge_strategies.h:72-81 | the connector loops of `MergeStrategies::merge_blifs` append `x=y` with nothing between connectors | inputs `a` and `b` give `a=ab=b`, which a BLIF reader takes as the single connector `a` = `ab=b` | a space after each connector, as `merge_strategies_blifs` writes at src/synthesis/merge_strategies.cpp:87-96, so every connector is its own field | not executed | Merge.UnspacedConnectorsRunTogether | Merge.DepsSubcktFields |
