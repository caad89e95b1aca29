/**
 * Command-line helpers of the tools: the search algorithm enumeration and its
 * names, the variable-list splitter, the checks applied to the options once
 * they are parsed, the option printers, the pair hash and the stopwatch.
 */
module Utils {
  import opened Wrappers
  import Text

  /** The dependency search algorithms. */
  datatype Algorithm = Unknown | Formula | Automaton

  /** The enumerators' integer values: UNKNOWN = 0, FORMULA = 1, AUTOMATON = 2. */
  function Ordinal(a: Algorithm): (n: nat)
    ensures n <= 2
    ensures n == 0 <==> a.Unknown?
    ensures n == 1 <==> a.Formula?
    ensures n == 2 <==> a.Automaton?
  {
    match a
    case Unknown => 0
    case Formula => 1
    case Automaton => 2
  }

  /** The value of the `--algo` option: only the two exact names are recognised. */
  function StringToAlgorithm(s: string): (a: Algorithm)
    ensures a.Formula? <==> s == "formula"
    ensures a.Automaton? <==> s == "automaton"
    ensures a.Unknown? <==> s != "formula" && s != "automaton"
  {
    if s == "formula" then Formula
    else if s == "automaton" then Automaton
    else Unknown
  }

  /** The printed name of an algorithm, which reads back as the same algorithm. */
  function AlgorithmToString(a: Algorithm): (s: string)
    ensures StringToAlgorithm(s) == a
    ensures a.Unknown? ==> s == "unknown"
  {
    match a
    case Formula => "formula"
    case Automaton => "automaton"
    case Unknown => "unknown"
  }

  /**
   * Splitting a comma-separated variable list into `dst`: an empty list leaves
   * `dst` as it was; otherwise `dst` becomes the fields between the commas,
   * untrimmed and including empty ones, which joined by commas give the list back.
   */
  function ExtractVariables(str: string, dst: seq<string>): (r: seq<string>)
    ensures str == [] ==> r == dst
    ensures str != [] ==> |r| >= 1 && Text.Join(r, ",") == str
    ensures str != [] ==> forall k :: 0 <= k < |r| ==> ',' !in r[k]
  {
    if str == [] then dst
    else
      Text.SplitJoin(str, ',');
      Text.Split(str, ',')
  }

  /** The options every tool shares, once parsed. */
  datatype BaseOptions = BaseOptions(
    formula: string, inputs: string, outputs: string, verbose: bool, measuresPath: string)

  /** The options of the synthesis tool, once parsed. */
  datatype SynthesisOptions = SynthesisOptions(
    base: BaseOptions, dependencyTimeout: int, skipUnates: bool,
    mergeStrategies: bool, applyModelChecking: bool, modelName: string)

  /** The options of the dependency search tool, once parsed. */
  datatype FindDependenciesOptions = FindDependenciesOptions(
    base: BaseOptions, algorithm: Algorithm, findInputDependencies: bool)

  const UnatesUnsupported := "Currently, unates are not supported. Please use --skip-unates option"
  const ModelCheckingNeedsMerge := "Model checking can only be applied if the strategies are merged. Please use --merge-strategies option."
  const InputsNeedAutomaton := "Input dependencies can only be found using the automaton algorithm"

  /**
   * The checks made after the synthesis options are parsed: unate handling
   * must be skipped, and model checking needs the merged strategy; the first
   * failing check gives the message.
   */
  function ValidateSynthesisOptions(o: SynthesisOptions): (r: Result<SynthesisOptions>)
    ensures r.Ok? <==> o.skipUnates && (o.mergeStrategies || !o.applyModelChecking)
    ensures r.Ok? ==> r.value == o
    ensures !o.skipUnates ==> r == Err(UnatesUnsupported)
    ensures o.skipUnates && r.Err? ==> r == Err(ModelCheckingNeedsMerge)
  {
    if !o.skipUnates then Err(UnatesUnsupported)
    else if !o.mergeStrategies && o.applyModelChecking then Err(ModelCheckingNeedsMerge)
    else Ok(o)
  }

  /**
   * The checks made after the dependency search options are parsed: a missing
   * `--algo` means the unknown algorithm, and searching for dependent inputs is
   * accepted only with `--algo automaton`.
   */
  function ValidateFindDependenciesOptions(base: BaseOptions, algo: Option<string>, findInputOnly: bool)
    : (r: Result<FindDependenciesOptions>)
    ensures r.Ok? <==> !findInputOnly || algo == Some("automaton")
    ensures algo.None? && r.Ok? ==> r.value.algorithm.Unknown?
    ensures r.Ok? ==> r.value.base == base && r.value.findInputDependencies == findInputOnly
    ensures r.Ok? && algo.Some? ==> r.value.algorithm == StringToAlgorithm(algo.value)
    ensures r.Err? ==> r.error == InputsNeedAutomaton
  {
    var algorithm := if algo.Some? then StringToAlgorithm(algo.value) else Unknown;
    if algorithm != Automaton && findInputOnly then Err(InputsNeedAutomaton)
    else Ok(FindDependenciesOptions(base, algorithm, findInputOnly))
  }

  /** A `bool` as the stream prints it with `boolalpha` set. */
  function BoolAlpha(b: bool): string
  {
    if b then "true" else "false"
  }

  /** A `bool` as the stream prints it without `boolalpha`. */
  function BoolDigit(b: bool): string
  {
    if b then "1" else "0"
  }

  const SkipLabel := " - Skip synthesis dependencies synthesis: "

  /** The lines the synthesis option printer writes, without their line ends. */
  function SynthesisOptionsLines(o: SynthesisOptions): seq<string>
  {
    [ " - Formula: " + o.base.formula,
      " - Inputs: " + o.base.inputs,
      " - Outputs: " + o.base.outputs,
      " - Verbose: " + BoolAlpha(o.base.verbose),
      SkipLabel + BoolAlpha(o.dependencyTimeout <= 0),
      " - Find dependency dependencies timeout: " + Text.IntToString(o.dependencyTimeout) ]
  }

  /**
   * The synthesis option printer reports the dependency search as skipped
   * exactly when the timeout is not positive, and the timeout line beneath it
   * carries a minus sign exactly when the timeout is negative.
   */
  lemma SkipReported(o: SynthesisOptions)
    ensures SynthesisOptionsLines(o)[4] == SkipLabel + "true" <==> o.dependencyTimeout <= 0
    ensures SynthesisOptionsLines(o)[4] == SkipLabel + "false" <==> o.dependencyTimeout > 0
    ensures SynthesisOptionsLines(o)[5][|" - Find dependency dependencies timeout: "|] == '-'
      <==> o.dependencyTimeout < 0
  {
    var l := SynthesisOptionsLines(o)[4];
    if o.dependencyTimeout > 0 {
      assert l[|SkipLabel|] == 'f' != (SkipLabel + "true")[|SkipLabel|];
    } else {
      assert l[|SkipLabel|] == 't' != (SkipLabel + "false")[|SkipLabel|];
    }
  }

  /**
   * The lines the dependency search option printer writes, without their line
   * ends; this printer does not set `boolalpha`, so the verbose flag is a digit.
   */
  function FindDependenciesOptionsLines(o: FindDependenciesOptions): (r: seq<string>)
    ensures |r| == 6 && |r[3]| > |" - Verbose: "| && |r[5]| > |" - Type of dependent variables: "|
    ensures r[3][|" - Verbose: "|..] == "1" <==> o.base.verbose
    ensures r[5][|" - Type of dependent variables: "|..] == "input" <==> o.findInputDependencies
  {
    [ " - Formula: " + o.base.formula,
      " - Inputs: " + o.base.inputs,
      " - Outputs: " + o.base.outputs,
      " - Verbose: " + BoolDigit(o.base.verbose),
      " - Algorithm: " + AlgorithmToString(o.algorithm),
      " - Type of dependent variables: " + (if o.findInputDependencies then "input" else "output") ]
  }

  /** The algorithm line of the dependency search printer names the algorithm the options hold. */
  lemma AlgorithmReported(o: FindDependenciesOptions)
    ensures StringToAlgorithm(FindDependenciesOptionsLines(o)[4][|" - Algorithm: "|..]) == o.algorithm
  {
    var l := FindDependenciesOptionsLines(o)[4];
    assert l[|" - Algorithm: "|..] == AlgorithmToString(o.algorithm);
  }

  /** The hash of a pair: the exclusive or of the two components' 64-bit hashes. */
  function PairHash<A, B>(hashFirst: A -> bv64, hashSecond: B -> bv64, p: (A, B)): (h: bv64)
    ensures h ^ hashSecond(p.1) == hashFirst(p.0)
    ensures h ^ hashFirst(p.0) == hashSecond(p.1)
  {
    var h1, h2 := hashFirst(p.0), hashSecond(p.1);
    h1 ^ h2
  }

  /** Swapping the components of a pair of one type does not change its hash. */
  lemma PairHashSymmetric<A>(hash: A -> bv64, a: A, b: A)
    ensures PairHash(hash, hash, (a, b)) == PairHash(hash, hash, (b, a))
  {
  }

  /** Every pair whose two components hash alike hashes to zero. */
  lemma PairHashDiagonal<A>(hash: A -> bv64, a: A)
    ensures PairHash(hash, hash, (a, a)) == 0
  {
  }

  /**
   * A stopwatch over a monotonic millisecond clock; the clock reading is a
   * parameter of the methods that read it. The start time of a stopwatch that
   * was never started is the clock's epoch, 0.
   */
  class TimeMeasure {
    var start: int
    var totalDuration: int
    var hasStarted: bool

    /** A new stopwatch has no duration yet (-1) and has not started. */
    constructor()
      ensures start == 0 && totalDuration == -1 && !hasStarted
    {
      start := 0;
      totalDuration := -1;
      hasStarted := false;
    }

    /** Starting records the clock reading and sets the started flag. */
    method Start(now: int)
      modifies this
      ensures start == now && hasStarted && totalDuration == old(totalDuration)
    {
      start := now;
      hasStarted := true;
    }

    /** Whether `Start` has been called, the one method that sets the flag. */
    function HasStarted(): bool
      reads this
    {
      hasStarted
    }

    /** The milliseconds since the recorded start. */
    function TimeElapsed(now: int): int
      reads this
    {
      now - start
    }

    /** Ending stores the elapsed time as the duration and returns it. */
    method End(now: int) returns (d: int)
      modifies this
      ensures d == old(TimeElapsed(now)) && totalDuration == d
      ensures start == old(start) && hasStarted == old(hasStarted)
    {
      totalDuration := TimeElapsed(now);
      d := totalDuration;
    }

    /**
     * The stored duration; asking for a validated duration while it is still
     * -1 is the error the source throws.
     */
    method GetDuration(validateIsEnded: bool) returns (r: Result<int>)
      ensures r.Err? <==> validateIsEnded && totalDuration == -1
      ensures r.Ok? ==> r.value == totalDuration
    {
      if validateIsEnded && totalDuration == -1 {
        r := Err("TimeMeasure::get_total_duration() called before TimeMeasure::end()");
      } else {
        r := Ok(totalDuration);
      }
    }
  }

  /**
   * A stopwatch started at `t0` and ended at `t1` reports `t1 - t0`; on a
   * monotonic clock that is never -1, so the validated read succeeds.
   */
  method StopwatchMeasures(t0: int, t1: int) returns (r: Result<int>)
    requires t0 <= t1
    ensures r == Ok(t1 - t0)
  {
    var m := new TimeMeasure();
    m.Start(t0);
    var d := m.End(t1);
    r := m.GetDuration(true);
  }
}
