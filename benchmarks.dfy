/**
 * The benchmark driver: classifying a tool's output, reading a benchmark
 * description, checking the command line, building each tool's command and
 * collecting the results per benchmark.
 */
module Benchmarks {
  import opened Wrappers
  import Text

  // ---------------------------------------------------------------------
  // Tool status

  /** The outcome of one tool run. */
  datatype Status = OutOfMemory | Error | Timeout | Success

  /** The status as the result table spells it. */
  function StatusName(s: Status): (n: string)
    ensures n == "Out-Of-Memory" <==> s.OutOfMemory?
    ensures n == "Error" <==> s.Error?
    ensures n == "Timeout" <==> s.Timeout?
    ensures n == "Success" <==> s.Success?
  {
    match s
    case OutOfMemory => "Out-Of-Memory"
    case Error => "Error"
    case Timeout => "Timeout"
    case Success => "Success"
  }

  const SlurmError := "slurmstepd: error"
  const OomKill := "oom-kill"
  const JavaOom := "java.lang.OutOfMemoryError"
  const TooManySets := "ltlsynt: Too many acceptance sets used"
  const OddCycle := "ltlsynt: alternate_players(): Odd cycle detected."
  const ExitCode124 := "Exited with exit code 124"
  const EqualSign := "should follow immediately after the equal sign"
  const OomEvent := "Detected 1 oom-kill event"
  const ArgsTooLong := "Argument list too long"

  /** One test of the classification: its text, and possibly a second one, occur in the output. */
  datatype Rule = Rule(first: string, second: Option<string>, status: Status)

  /** The tests in the order the classifier tries them. */
  const Rules: seq<Rule> := [
    Rule(SlurmError, Some(OomKill), OutOfMemory),
    Rule(JavaOom, None, OutOfMemory),
    Rule(TooManySets, None, Error),
    Rule(OddCycle, None, Error),
    Rule(ExitCode124, None, Timeout),
    Rule(EqualSign, None, Error),
    Rule(OomEvent, None, OutOfMemory),
    Rule(ArgsTooLong, None, Error)
  ]

  predicate Fires(rule: Rule, output: string)
  {
    Text.Contains(output, rule.first) && (rule.second.None? || Text.Contains(output, rule.second.value))
  }

  /** The first rule at or after `from` that fires on the output. */
  function FirstFiring(rules: seq<Rule>, output: string, from: nat): (r: Option<nat>)
    decreases |rules| - from
    ensures r.Some? ==> from <= r.value < |rules| && Fires(rules[r.value], output)
    ensures r.Some? ==> forall j :: from <= j < r.value ==> !Fires(rules[j], output)
    ensures r.None? ==> forall j :: from <= j < |rules| ==> !Fires(rules[j], output)
  {
    if from >= |rules| then None
    else if Fires(rules[from], output) then Some(from)
    else FirstFiring(rules, output, from + 1)
  }

  /** The status given by the first firing rule, or success when none fires. */
  function RuleStatus(output: string): Status
  {
    match FirstFiring(Rules, output, 0)
    case Some(k) => Rules[k].status
    case None => Success
  }

  /** The classification of a tool's combined standard output and error, test by test. */
  function ToolStatus(output: string): (s: Status)
    ensures s.Timeout? <==> Text.Contains(output, ExitCode124) && !EarlyFailure(output)
    ensures s.Success? <==> (!EarlyFailure(output) && !Text.Contains(output, ExitCode124) &&
      !Text.Contains(output, EqualSign) && !Text.Contains(output, OomEvent) && !Text.Contains(output, ArgsTooLong))
  {
    if Text.Contains(output, SlurmError) && Text.Contains(output, OomKill) then OutOfMemory
    else if Text.Contains(output, JavaOom) then OutOfMemory
    else if Text.Contains(output, TooManySets) then Error
    else if Text.Contains(output, OddCycle) then Error
    else if Text.Contains(output, ExitCode124) then Timeout
    else if Text.Contains(output, EqualSign) then Error
    else if Text.Contains(output, OomEvent) then OutOfMemory
    else if Text.Contains(output, ArgsTooLong) then Error
    else Success
  }

  /** One of the four tests tried before the timeout test matches. */
  predicate EarlyFailure(output: string)
  {
    (Text.Contains(output, SlurmError) && Text.Contains(output, OomKill)) || Text.Contains(output, JavaOom) ||
    Text.Contains(output, TooManySets) || Text.Contains(output, OddCycle)
  }

  /** The rules, one by one, in terms of the texts they look for. */
  lemma RuleOrder(output: string)
    ensures Fires(Rules[0], output) <==> Text.Contains(output, SlurmError) && Text.Contains(output, OomKill)
    ensures Fires(Rules[1], output) <==> Text.Contains(output, JavaOom)
    ensures Fires(Rules[2], output) <==> Text.Contains(output, TooManySets)
    ensures Fires(Rules[3], output) <==> Text.Contains(output, OddCycle)
    ensures Fires(Rules[4], output) <==> Text.Contains(output, ExitCode124)
    ensures Fires(Rules[5], output) <==> Text.Contains(output, EqualSign)
    ensures Fires(Rules[6], output) <==> Text.Contains(output, OomEvent)
    ensures Fires(Rules[7], output) <==> Text.Contains(output, ArgsTooLong)
  {
  }

  /** The classifier's chain of tests is the first-firing-rule classification. */
  lemma {:induction false} ToolStatusIsFirstRule(output: string)
    ensures ToolStatus(output) == RuleStatus(output)
  {
    RuleOrder(output);
    FirstFiringStep(Rules, output, 0);
    FirstFiringStep(Rules, output, 1);
    FirstFiringStep(Rules, output, 2);
    FirstFiringStep(Rules, output, 3);
    FirstFiringStep(Rules, output, 4);
    FirstFiringStep(Rules, output, 5);
    FirstFiringStep(Rules, output, 6);
    FirstFiringStep(Rules, output, 7);
    assert FirstFiring(Rules, output, 8) == None;
  }

  lemma FirstFiringStep(rules: seq<Rule>, output: string, from: nat)
    requires from < |rules|
    ensures FirstFiring(rules, output, from)
         == if Fires(rules[from], output) then Some(from) else FirstFiring(rules, output, from + 1)
  {
  }

  /** The out-of-memory cases: a slurm error with an oom-kill, or a Java heap error. */
  lemma OutOfMemoryCases(output: string)
    requires (Text.Contains(output, SlurmError) && Text.Contains(output, OomKill)) || Text.Contains(output, JavaOom)
    ensures ToolStatus(output) == OutOfMemory
  {
  }

  /** Text `b` sits inside `a` at offset `d`, so wherever `a` occurs `b` does too. */
  lemma ContainsInner(output: string, a: string, b: string, d: nat)
    requires d + |b| <= |a| && a[d..d + |b|] == b
    requires Text.Contains(output, a)
    ensures Text.Contains(output, b)
  {
    var i := Text.Find(output, a).value;
    assert output[i..i + |a|] == a;
    assert output[i + d..i + d + |b|] == a[d..d + |b|];
    Text.ContainsAt(output, b, i + d);
  }

  /**
   * The out-of-memory event text holds "oom-kill", so alongside a slurm error
   * the first rule already classifies it.
   */
  lemma OomEventWithSlurmError(output: string)
    requires Text.Contains(output, OomEvent) && Text.Contains(output, SlurmError)
    ensures ToolStatus(output) == OutOfMemory
  {
    assert OomEvent[11..19] == OomKill by {
      assert forall k :: 0 <= k < 8 ==> OomEvent[11 + k] == OomKill[k];
    }
    ContainsInner(output, OomEvent, OomKill, 11);
  }

  /**
   * Exit code 124 is reported as a timeout unless one of the four earlier tests
   * matched, even when an out-of-memory event is reported too.
   */
  lemma TimeoutBeforeOomEvent(output: string)
    requires Text.Contains(output, ExitCode124) && Text.Contains(output, OomEvent)
    requires !Text.Contains(output, SlurmError) && !Text.Contains(output, JavaOom)
    requires !Text.Contains(output, TooManySets) && !Text.Contains(output, OddCycle)
    ensures ToolStatus(output) == Timeout
  {
    RuleOrder(output);
  }

  /** The error cases, each when no earlier test matched. */
  lemma ErrorCases(output: string)
    requires !Text.Contains(output, SlurmError) && !Text.Contains(output, JavaOom)
    requires Text.Contains(output, TooManySets) || Text.Contains(output, OddCycle) ||
      (!Text.Contains(output, ExitCode124) && Text.Contains(output, EqualSign)) ||
      (!Text.Contains(output, ExitCode124) && !Text.Contains(output, EqualSign) &&
       !Text.Contains(output, OomEvent) && Text.Contains(output, ArgsTooLong))
    ensures ToolStatus(output) == Error
  {
  }

  // ---------------------------------------------------------------------
  // Benchmark files

  /** A benchmark: its formula, its name and its input and output variable lists. */
  datatype Benchmark = Benchmark(ltlFormula: string, modelName: string, inputVars: string, outputVars: string)

  /** Python's `readlines()`: the lines of a text, each with its line end but possibly the last. */
  function ReadLines(s: string): (r: seq<string>)
    decreases |s|
  {
    if s == [] then []
    else
      var n := Text.SpanBefore(s, '\n');
      if n == |s| then [s] else [s[..n + 1]] + ReadLines(s[n + 1..])
  }

  /** A line with its line end and no other. */
  predicate IsLine(l: string)
  {
    l != [] && l[|l| - 1] == '\n' && '\n' !in l[..|l| - 1]
  }

  lemma {:induction false} LineLengthOfLine(l: string, rest: string)
    requires IsLine(l)
    ensures Text.SpanBefore(l + rest, '\n') == |l| - 1
  {
    if |l| > 1 {
      assert l[0] in l[..|l| - 1];
      assert l[1..][..|l| - 2] == l[..|l| - 1][1..];
      LineLengthOfLine(l[1..], rest);
      assert (l + rest)[1..] == l[1..] + rest;
    }
  }

  /** A first line that ends at its line end is read as one line. */
  lemma ReadLinesCons(line: string, rest: string)
    requires IsLine(line)
    ensures ReadLines(line + rest) == [line] + ReadLines(rest)
  {
    var s := line + rest;
    LineLengthOfLine(line, rest);
    assert s[..|line|] == line;
    assert s[|line|..] == rest;
  }

  /** Five lines in front of a text are read as those five lines. */
  lemma FiveLines(l0: string, l1: string, l2: string, l3: string, l4: string, rest: string)
    requires IsLine(l0) && IsLine(l1) && IsLine(l2) && IsLine(l3) && IsLine(l4)
    ensures ReadLines(l0 + (l1 + (l2 + (l3 + (l4 + rest))))) == [l0, l1, l2, l3, l4] + ReadLines(rest)
  {
    ReadLinesCons(l4, rest);
    ReadLinesCons(l3, l4 + rest);
    ReadLinesCons(l2, l3 + (l4 + rest));
    ReadLinesCons(l1, l2 + (l3 + (l4 + rest)));
    ReadLinesCons(l0, l1 + (l2 + (l3 + (l4 + rest))));
  }

  /** A labelled line's value: every occurrence of the heading removed, then stripped. */
  function LabelValue(line: string, heading: string): string
    requires heading != []
  {
    Text.Strip(Text.ReplaceAll(line, heading, ""))
  }

  function BenchmarkPath(name: string): string
  {
    "./scripts/benchmarks-ltl/" + name + ".txt"
  }

  /**
   * Reading a benchmark: a missing file and a file of fewer than five lines are
   * errors; otherwise the name comes from the first line, the formula from the
   * third, the inputs from the fourth and the outputs from the fifth.
   */
  function GetBenchmark(name: string, fileExists: bool, content: string): (r: Result<Benchmark>)
    ensures r.Ok? <==> fileExists && |ReadLines(content)| >= 5
  {
    if !fileExists then Err("Benchmark file " + BenchmarkPath(name) + " does not exist")
    else
      var lines := ReadLines(content);
      if |lines| < 5 then Err("list index out of range")
      else Ok(Benchmark(
        LabelValue(lines[2], "Formula:"), LabelValue(lines[0], "Name:"),
        LabelValue(lines[3], "Input:"), LabelValue(lines[4], "Output:")))
  }

  /** A value that stripping keeps as it is and that does not hold `heading`. */
  predicate PlainValue(v: string, heading: string)
  {
    '\n' !in v && !Text.Contains(" " + v + "\n", heading) &&
    (v == [] || (!Text.IsPyWhitespace(v[0]) && !Text.IsPyWhitespace(v[|v| - 1])))
  }

  /** The line a benchmark file holds for one labelled value. */
  function Labelled(heading: string, v: string): string
  {
    heading + " " + v + "\n"
  }

  /** A benchmark written out as a file, with any text on its second line. */
  function BenchmarkFile(b: Benchmark, second: string, rest: string): string
  {
    Labelled("Name:", b.modelName) + ((second + "\n") + (Labelled("Formula:", b.ltlFormula) +
    (Labelled("Input:", b.inputVars) + (Labelled("Output:", b.outputVars) + rest))))
  }

  /** Reading a labelled line gives back the value written on it. */
  lemma {:induction false} LabelValueOfLabelled(heading: string, v: string)
    requires heading != [] && PlainValue(v, heading)
    ensures LabelValue(Labelled(heading, v), heading) == v
  {
    var tail := " " + v + "\n";
    assert Labelled(heading, v) == heading + tail;
    Text.ReplaceAllLeading(heading, tail, "");
    Text.ReplaceAllAbsent(tail, heading, "");
    assert Text.ReplaceAll(Labelled(heading, v), heading, "") == tail;
    if v == [] {
      assert tail == [] + [] + " \n";
      Text.StripAround([], [], " \n");
    } else {
      Text.StripAround(" ", v, "\n");
    }
  }

  lemma LabelledIsLine(heading: string, v: string)
    requires '\n' !in heading && '\n' !in v
    ensures IsLine(Labelled(heading, v))
  {
    var l := Labelled(heading, v);
    assert l[..|l| - 1] == heading + " " + v;
  }

  /** A benchmark file written from a benchmark reads back as that benchmark. */
  lemma {:induction false} GetBenchmarkOfFile(name: string, b: Benchmark, second: string, rest: string)
    requires PlainValue(b.modelName, "Name:") && PlainValue(b.ltlFormula, "Formula:")
    requires PlainValue(b.inputVars, "Input:") && PlainValue(b.outputVars, "Output:")
    requires '\n' !in second
    ensures GetBenchmark(name, true, BenchmarkFile(b, second, rest)) == Ok(b)
  {
    BenchmarkFileLines(b, second, rest);
    LabelValueOfLabelled("Name:", b.modelName);
    LabelValueOfLabelled("Formula:", b.ltlFormula);
    LabelValueOfLabelled("Input:", b.inputVars);
    LabelValueOfLabelled("Output:", b.outputVars);
  }

  /** The first five lines of a written benchmark file. */
  lemma BenchmarkFileLines(b: Benchmark, second: string, rest: string)
    requires '\n' !in b.modelName && '\n' !in b.ltlFormula && '\n' !in b.inputVars && '\n' !in b.outputVars
    requires '\n' !in second
    ensures |ReadLines(BenchmarkFile(b, second, rest))| >= 5
    ensures ReadLines(BenchmarkFile(b, second, rest))[0] == Labelled("Name:", b.modelName)
    ensures ReadLines(BenchmarkFile(b, second, rest))[2] == Labelled("Formula:", b.ltlFormula)
    ensures ReadLines(BenchmarkFile(b, second, rest))[3] == Labelled("Input:", b.inputVars)
    ensures ReadLines(BenchmarkFile(b, second, rest))[4] == Labelled("Output:", b.outputVars)
  {
    LabelledIsLine("Name:", b.modelName);
    LabelledIsLine("Formula:", b.ltlFormula);
    LabelledIsLine("Input:", b.inputVars);
    LabelledIsLine("Output:", b.outputVars);
    assert (second + "\n")[..|second|] == second;
    FiveLines(Labelled("Name:", b.modelName), second + "\n", Labelled("Formula:", b.ltlFormula),
      Labelled("Input:", b.inputVars), Labelled("Output:", b.outputVars), rest);
  }

  // ---------------------------------------------------------------------
  // Command line and tool commands

  /** The dependency search timeout passed to DepSynt, in milliseconds. */
  const DependencyTimeout: nat := 10000

  /** The error for a timeout that is not positive, before the value itself. */
  const TimeoutMessage: string := "Timeout must be a positive integer, got "

  /** The per-benchmark timeout must be positive. */
  function CheckTimeout(timeout: int): (r: Result<nat>)
    ensures r.Ok? <==> timeout > 0
    ensures r.Ok? ==> r.value == timeout
  {
    if timeout <= 0 then Err(TimeoutMessage + Text.IntToString(timeout))
    else Ok(timeout)
  }

  /** The tools the driver knows. */
  const Tools: seq<string> := ["depsynt", "ltlsynt", "strix"]

  /** The program each known tool runs. */
  function Executable(tool: string): string
  {
    if tool == "depsynt" then "./depsynt"
    else if tool == "ltlsynt" then "ltlsynt"
    else if tool == "strix" then "./strix"
    else ""
  }

  predicate IsPrefixOf(p: string, s: string)
  {
    |p| <= |s| && s[..|p|] == p
  }

  predicate IsSuffixOf(p: string, s: string)
  {
    |p| <= |s| && s[|s| - |p|..] == p
  }

  /** The arguments each known tool gets after its program name; every list ends with the quoted formula. */
  function ToolArguments(tool: string, modelName: string, inputVars: string, outputVars: string,
                         formula: string): (r: string)
    ensures IsSuffixOf(formula + "\"", r)
  {
    var quoted := formula + "\"";
    if tool == "depsynt" then
      SuffixOfConcat(" --model-name=\"" + modelName + "\" --input=\"" + inputVars + "\" --output=\"" +
                     outputVars + "\" --dependency-timeout=" + Text.NatToString(DependencyTimeout) +
                     " --formula=\"", quoted);
      " --model-name=\"" + modelName + "\" --input=\"" + inputVars + "\" --output=\"" +
      outputVars + "\" --dependency-timeout=" + Text.NatToString(DependencyTimeout) +
      " --formula=\"" + quoted
    else if tool == "ltlsynt" then
      SuffixOfConcat(" --aiger --outs=\"" + outputVars + "\" --ins=\"" + inputVars + "\" --formula=\"", quoted);
      " --aiger --outs=\"" + outputVars + "\" --ins=\"" + inputVars + "\" --formula=\"" + quoted
    else
      SuffixOfConcat(" --ins=\"" + inputVars + "\" --outs=\"" + outputVars + "\" -o aag -f \"", quoted);
      " --ins=\"" + inputVars + "\" --outs=\"" + outputVars + "\" -o aag -f \"" + quoted
  }

  lemma SuffixOfConcat(a: string, b: string)
    ensures IsSuffixOf(b, a + b)
  {
    assert (a + b)[|a|..] == b;
  }

  lemma PrefixOfConcat(a: string, b: string)
    ensures IsPrefixOf(a, a + b)
  {
    assert (a + b)[..|a|] == a;
  }

  lemma SuffixOfLonger(a: string, b: string, c: string)
    requires IsSuffixOf(c, b)
    ensures IsSuffixOf(c, a + b)
  {
    assert (a + b)[|a + b| - |c|..] == b[|b| - |c|..];
  }

  /**
   * The shell command for one run of a tool under a timeout in seconds; an
   * unknown tool name is an error.
   */
  function ToolCommand(tool: string, modelName: string, inputVars: string, outputVars: string,
                       formula: string, timeout: int): (r: Result<string>)
    ensures r.Ok? <==> tool in Tools
    ensures r.Ok? ==> exists command :: r.value == "timeout " + Text.IntToString(timeout) + "s " + command
    ensures r.Ok? ==> IsPrefixOf("timeout " + Text.IntToString(timeout) + "s " + Executable(tool), r.value)
    ensures r.Ok? ==> IsSuffixOf(formula + "\"", r.value)
  {
    if tool !in Tools then Err("Unknown tool name: " + tool)
    else
      var head := "timeout " + Text.IntToString(timeout) + "s " + Executable(tool);
      var args := ToolArguments(tool, modelName, inputVars, outputVars, formula);
      PrefixOfConcat(head, args);
      SuffixOfLonger(head, args, formula + "\"");
      assert head + args == "timeout " + Text.IntToString(timeout) + "s " + (Executable(tool) + args);
      Ok(head + args)
  }

  /** The benchmark names of the command line: the comma-separated list, each name stripped. */
  function BenchmarkNames(arg: string): (r: seq<string>)
    ensures arg == [] ==> r == []
    ensures arg != [] ==> |r| == |Text.Split(arg, ',')|
    ensures arg != [] ==> forall k :: 0 <= k < |r| ==> r[k] == Text.Strip(Text.Split(arg, ',')[k])
  {
    if arg == [] then [] else StripAll(Text.Split(arg, ','))
  }

  function StripAll(xs: seq<string>): (r: seq<string>)
    ensures |r| == |xs| && forall k :: 0 <= k < |xs| ==> r[k] == Text.Strip(xs[k])
  {
    if xs == [] then [] else [Text.Strip(xs[0])] + StripAll(xs[1..])
  }

  // ---------------------------------------------------------------------
  // Collecting results

  /** The outcome of one tool on one benchmark; the duration is in seconds. */
  datatype ToolResult = ToolResult(toolName: string, duration: real, modelName: string, status: string)

  /** A cell of the result table. */
  datatype Cell = Str(s: string) | Seconds(t: real)

  /** ASCII lower case. */
  function Lower(s: string): (r: string)
    ensures |r| == |s|
    ensures forall i :: 0 <= i < |s| && 'A' <= s[i] <= 'Z' ==> r[i] as int == s[i] as int - 'A' as int + 'a' as int
    ensures forall i :: 0 <= i < |s| && !('A' <= s[i] <= 'Z') ==> r[i] == s[i]
    ensures forall i :: 0 <= i < |r| ==> !('A' <= r[i] <= 'Z')
  {
    if s == [] then []
    else
      var c := s[0];
      [if 'A' <= c <= 'Z' then (c as int + 32) as char else c] + Lower(s[1..])
  }

  function StatusKey(tool: string): string
  {
    Lower(tool) + "_status"
  }

  function DurationKey(tool: string): string
  {
    Lower(tool) + "_duration"
  }

  /** The row a benchmark starts with: its name and an empty cell per tool. */
  function EmptyRow(modelName: string): map<string, Cell>
  {
    map["benchmark" := Str(modelName),
        "depsynt_status" := Str(""), "depsynt_duration" := Str(""),
        "strix_status" := Str(""), "strix_duration" := Str(""),
        "ltlsynt_status" := Str(""), "ltlsynt_duration" := Str("")]
  }

  /** The row of a benchmark after a result of one tool is entered into it. */
  function Enter(row: map<string, Cell>, r: ToolResult): map<string, Cell>
  {
    row[StatusKey(r.toolName) := Str(r.status)][DurationKey(r.toolName) := Seconds(r.duration)]
  }

  /** The table of rows, one per benchmark, after the results are entered in order. */
  function Combine(rs: seq<ToolResult>): map<string, map<string, Cell>>
  {
    if rs == [] then map[]
    else
      var c := Combine(rs[..|rs| - 1]);
      var r := rs[|rs| - 1];
      var row := if r.modelName in c then c[r.modelName] else EmptyRow(r.modelName);
      c[r.modelName := Enter(row, r)]
  }

  /** Entering the results one by one into a dictionary keyed by benchmark name. */
  method CombineResults(results: seq<ToolResult>) returns (combined: map<string, map<string, Cell>>)
    ensures combined == Combine(results)
  {
    combined := map[];
    for i := 0 to |results|
      invariant combined == Combine(results[..i])
    {
      var result := results[i];
      if result.modelName !in combined {
        combined := combined[result.modelName := EmptyRow(result.modelName)];
      }
      combined := combined[result.modelName := Enter(combined[result.modelName], result)];
      assert results[..i + 1][..i] == results[..i];
    }
    assert results[..|results|] == results;
  }

  /** The table has exactly one row per benchmark that has a result. */
  lemma {:induction false} CombineKeys(rs: seq<ToolResult>)
    ensures Combine(rs).Keys == set r | r in rs :: r.modelName
  {
    if rs != [] {
      var init := rs[..|rs| - 1];
      CombineKeys(init);
      assert rs == init + [rs[|rs| - 1]];
    }
  }

  /** The status and duration keys of the tools never clash with each other or with the name key. */
  lemma KeysDiffer(x: string, y: string)
    ensures x + "_status" != y + "_duration"
    ensures x + "_status" != "benchmark" && y + "_duration" != "benchmark"
    ensures x + "_status" == y + "_status" ==> x == y
    ensures x + "_duration" == y + "_duration" ==> x == y
  {
    var a, b := x + "_status", y + "_duration";
    assert a[|a| - 1] == 's' && b[|b| - 1] == 'n';
    if x + "_status" == y + "_status" {
      assert x == (x + "_status")[..|x|];
    }
    if x + "_duration" == y + "_duration" {
      assert x == (x + "_duration")[..|x|];
    }
  }

  /**
   * The status and duration of a tool on a benchmark are those of the last
   * result of that tool (up to case) on that benchmark.
   */
  lemma {:induction false} CombineLastWins(rs: seq<ToolResult>, i: nat)
    requires i < |rs|
    requires forall j :: i < j < |rs| && rs[j].modelName == rs[i].modelName ==>
      Lower(rs[j].toolName) != Lower(rs[i].toolName)
    ensures rs[i].modelName in Combine(rs)
    ensures StatusKey(rs[i].toolName) in Combine(rs)[rs[i].modelName]
    ensures DurationKey(rs[i].toolName) in Combine(rs)[rs[i].modelName]
    ensures Combine(rs)[rs[i].modelName][StatusKey(rs[i].toolName)] == Str(rs[i].status)
    ensures Combine(rs)[rs[i].modelName][DurationKey(rs[i].toolName)] == Seconds(rs[i].duration)
  {
    var n := |rs| - 1;
    var init := rs[..n];
    var r := rs[n];
    var x, y := Lower(rs[i].toolName), Lower(r.toolName);
    KeysDiffer(x, y);
    KeysDiffer(y, x);
    if i < n {
      assert forall j :: i < j < |init| ==> init[j] == rs[j];
      CombineLastWins(init, i);
    }
  }

  /** Every row's name cell holds the benchmark's name. */
  lemma {:induction false} NameCell(rs: seq<ToolResult>, m: string)
    requires m in Combine(rs)
    ensures "benchmark" in Combine(rs)[m] && Combine(rs)[m]["benchmark"] == Str(m)
  {
    var n := |rs| - 1;
    var init := rs[..n];
    var r := rs[n];
    KeysDiffer(Lower(r.toolName), Lower(r.toolName));
    if m in Combine(init) {
      NameCell(init, m);
    }
  }
}
