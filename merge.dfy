/**
 * Merging the circuit of the independent outputs and the circuit of the
 * dependent outputs into one BLIF model: a top model that instantiates the
 * two as sub-circuits, connects the inputs to both, and feeds the outputs of
 * the independent circuit to the dependent one through buffered nets `In<v>`.
 */
module Merge {
  import opened Wrappers
  import opened Text

  /** The net that carries output `v` between the sub-circuits. */
  function WiredVar(v: string): (r: string)
    ensures |r| == |v| + 2 && r[..2] == "In" && r[2..] == v
  {
    "In" + v
  }

  /** Distinct outputs get distinct nets. */
  lemma WiredVarInjective(v: string, w: string)
    requires WiredVar(v) == WiredVar(w)
    ensures v == w
  {
    assert v == WiredVar(v)[2..];
  }

  /** The formal=actual pair of a sub-circuit: an input to itself, an output to its net. */
  function Connection(x: string, toWired: bool): string
  {
    x + "=" + (if toWired then WiredVar(x) else x)
  }

  function Connections(xs: seq<string>, toWired: bool): (cs: seq<string>)
    ensures |cs| == |xs| && forall i :: 0 <= i < |xs| ==> cs[i] == Connection(xs[i], toWired)
  {
    if xs == [] then [] else [Connection(xs[0], toWired)] + Connections(xs[1..], toWired)
  }

  /** The items of `cs`, each followed by `t`. */
  function Terminated(cs: seq<string>, t: string): string
  {
    if cs == [] then "" else cs[0] + t + Terminated(cs[1..], t)
  }

  lemma {:induction false} TerminatedSnoc(cs: seq<string>, c: string, t: string)
    ensures Terminated(cs + [c], t) == Terminated(cs, t) + c + t
  {
    if cs == [] {
      assert [c][1..] == [];
    } else {
      assert (cs + [c])[1..] == cs[1..] + [c];
      TerminatedSnoc(cs[1..], c, t);
    }
  }

  predicate SpaceFree(xs: seq<string>)
  {
    forall i :: 0 <= i < |xs| ==> ' ' !in xs[i]
  }

  predicate AllWords(xs: seq<string>)
  {
    forall i :: 0 <= i < |xs| ==> IsWord(xs[i])
  }

  lemma ConnectionsAreWords(xs: seq<string>, toWired: bool)
    requires SpaceFree(xs)
    ensures AllWords(Connections(xs, toWired))
  {
    var cs := Connections(xs, toWired);
    forall i | 0 <= i < |cs| ensures IsWord(cs[i]) {
      var x := xs[i];
      var c := Connection(x, toWired);
      assert c[|x|] == '=';
    }
  }

  /** A space after every item lets a BLIF reader recover each item as one field. */
  lemma {:induction false} FieldsTerminated(cs: seq<string>, rest: string)
    requires AllWords(cs)
    ensures Fields(Terminated(cs, " ") + rest) == cs + Fields(rest)
  {
    if cs != [] {
      assert Terminated(cs, " ") + rest == cs[0] + " " + (Terminated(cs[1..], " ") + rest);
      FieldsCons(cs[0], Terminated(cs[1..], " ") + rest);
      FieldsTerminated(cs[1..], rest);
      assert cs == [cs[0]] + cs[1..];
    } else {
      assert Terminated(cs, " ") + rest == rest;
    }
  }

  // ---------------------------------------------------------------------
  // The top model written by `merge_strategies_blifs`.

  /** The `.model`, `.inputs` and `.outputs` lines; the outputs list the independent outputs first. */
  function HeaderLines(modelName: string, inputs: seq<string>, indeps: seq<string>, deps: seq<string>): string
  {
    ".model " + modelName + "\n"
    + ".inputs " + Join(inputs, " ") + "\n"
    + ".outputs " + Join(indeps, " ") + " " + Join(deps, " ") + "\n"
  }

  /** The `.outputs` line lists the independent outputs and then the dependent ones. */
  lemma OutputsListed(indeps: seq<string>, deps: seq<string>)
    requires AllWords(indeps) && AllWords(deps)
    ensures Fields(".outputs " + Join(indeps, " ") + " " + Join(deps, " ")) == [".outputs"] + indeps + deps
  {
    FieldsSpaceConcat(".outputs " + Join(indeps, " "), Join(deps, " "));
    assert ".outputs " + Join(indeps, " ") == ".outputs" + " " + Join(indeps, " ");
    FieldsCons(".outputs", Join(indeps, " "));
    FieldsJoin(indeps);
    FieldsJoin(deps);
  }

  /** The buffer `.names In<v> <v>` with the single row `1 1`. */
  function Buffer(v: string): string
  {
    ".names " + WiredVar(v) + " " + v + "\n" + "1 1\n"
  }

  function Buffers(vs: seq<string>): string
  {
    if vs == [] then "" else Buffers(vs[..|vs| - 1]) + Buffer(vs[|vs| - 1])
  }

  /** The sub-circuit line of the independent outputs: the inputs and their nets. */
  function IndepsSubckt(name: string, inputs: seq<string>, indeps: seq<string>): string
  {
    ".subckt " + name + " " + Terminated(Connections(inputs, false), " ") + " "
    + Terminated(Connections(indeps, true), " ")
  }

  /** The sub-circuit line of the dependent outputs, which also reads the nets of the independent ones. */
  function DepsSubckt(name: string, inputs: seq<string>, indeps: seq<string>, deps: seq<string>): string
  {
    ".subckt " + name + " " + Terminated(Connections(inputs, false), " ") + " "
    + Terminated(Connections(indeps, true), " ") + " " + Terminated(Connections(deps, true), " ")
  }

  /** The whole merged text; the two sub-models follow `.end`. */
  function MergedBlif(indepsBlif: string, depsBlif: string, indepsName: string, depsName: string,
                      inputs: seq<string>, indeps: seq<string>, deps: seq<string>, modelName: string): string
  {
    HeaderLines(modelName, inputs, indeps, deps) + Buffers(indeps) + Buffers(deps)
    + (IndepsSubckt(indepsName, inputs, indeps) + "\n")
    + (DepsSubckt(depsName, inputs, indeps, deps) + "\n")
    + ".end\n" + (indepsBlif + "\n") + (depsBlif + "\n")
  }

  /** The fields of a sub-circuit line that starts with `.subckt name`. */
  lemma SubcktHead(name: string, t1: string)
    requires IsWord(name)
    ensures Fields(".subckt " + name + " " + t1) == [".subckt", name] + Fields(t1)
  {
    FieldsSpaceConcat(".subckt " + name, t1);
    assert ".subckt " + name == ".subckt" + " " + name;
    FieldsCons(".subckt", name);
    FieldsWord(name);
  }

  lemma SpacedFields(cs: seq<string>)
    requires AllWords(cs)
    ensures Fields(Terminated(cs, " ")) == cs
  {
    FieldsTerminated(cs, "");
    assert Terminated(cs, " ") + "" == Terminated(cs, " ");
  }

  /** The independent sub-circuit connects every input to itself and every independent output to its net. */
  lemma IndepsSubcktFields(name: string, inputs: seq<string>, indeps: seq<string>)
    requires IsWord(name) && SpaceFree(inputs) && SpaceFree(indeps)
    ensures Fields(IndepsSubckt(name, inputs, indeps))
         == [".subckt", name] + Connections(inputs, false) + Connections(indeps, true)
  {
    var t1 := Terminated(Connections(inputs, false), " ");
    var t2 := Terminated(Connections(indeps, true), " ");
    ConnectionsAreWords(inputs, false);
    ConnectionsAreWords(indeps, true);
    FieldsSpaceConcat(".subckt " + name + " " + t1, t2);
    SubcktHead(name, t1);
    SpacedFields(Connections(inputs, false));
    SpacedFields(Connections(indeps, true));
  }

  /** The dependent sub-circuit reads the inputs and the nets of both output groups. */
  lemma DepsSubcktFields(name: string, inputs: seq<string>, indeps: seq<string>, deps: seq<string>)
    requires IsWord(name) && SpaceFree(inputs) && SpaceFree(indeps) && SpaceFree(deps)
    ensures Fields(DepsSubckt(name, inputs, indeps, deps))
         == [".subckt", name] + Connections(inputs, false) + Connections(indeps, true) + Connections(deps, true)
  {
    var t3 := Terminated(Connections(deps, true), " ");
    assert DepsSubckt(name, inputs, indeps, deps) == IndepsSubckt(name, inputs, indeps) + " " + t3;
    FieldsSpaceConcat(IndepsSubckt(name, inputs, indeps), t3);
    IndepsSubcktFields(name, inputs, indeps);
    ConnectionsAreWords(deps, true);
    SpacedFields(Connections(deps, true));
  }

  /** The connectors of `xs`, each followed by a space, built as the loops of `merge_strategies_blifs` do. */
  method SpacedConnectors(xs: seq<string>, toWired: bool) returns (wires: string)
    ensures wires == Terminated(Connections(xs, toWired), " ")
  {
    wires := "";
    var i := 0;
    while i < |xs|
      invariant 0 <= i <= |xs|
      invariant wires == Terminated(Connections(xs[..i], toWired), " ")
    {
      var target := if toWired then WiredVar(xs[i]) else xs[i];
      wires := wires + (xs[i] + "=" + target + " ");
      ConnectionsSnoc(xs, i, toWired);
      TerminatedSnoc(Connections(xs[..i], toWired), Connection(xs[i], toWired), " ");
      i := i + 1;
    }
    assert xs[..i] == xs;
  }

  lemma ConnectionsSnoc(xs: seq<string>, i: nat, toWired: bool)
    requires i < |xs|
    ensures Connections(xs[..i + 1], toWired) == Connections(xs[..i], toWired) + [Connection(xs[i], toWired)]
  {
  }

  /** The buffers of `vs`, one after another. */
  method WriteBuffers(out: string, vs: seq<string>) returns (out': string)
    ensures out' == out + Buffers(vs)
  {
    out' := out;
    var i := 0;
    while i < |vs|
      invariant 0 <= i <= |vs|
      invariant out' == out + Buffers(vs[..i])
    {
      out' := out' + Buffer(vs[i]);
      assert vs[..i + 1][..i] == vs[..i];
      i := i + 1;
    }
    assert vs[..i] == vs;
  }

  /** `merge_strategies_blifs`: the merged model, as the text written to the stream. */
  method MergeStrategiesBlifs(indepsBlif: string, depsBlif: string, indepsName: string, depsName: string,
                              inputs: seq<string>, indeps: seq<string>, deps: seq<string>, modelName: string)
    returns (out: string)
    ensures out == MergedBlif(indepsBlif, depsBlif, indepsName, depsName, inputs, indeps, deps, modelName)
  {
    out := HeaderLines(modelName, inputs, indeps, deps);
    out := WriteBuffers(out, indeps);
    out := WriteBuffers(out, deps);
    var inputWires := SpacedConnectors(inputs, false);
    var indepsWires := SpacedConnectors(indeps, true);
    var depsWires := SpacedConnectors(deps, true);
    out := out + (".subckt " + indepsName + " " + inputWires + " " + indepsWires + "\n");
    out := out + (".subckt " + depsName + " " + inputWires + " " + indepsWires + " " + depsWires + "\n");
    out := out + ".end\n";
    out := out + (indepsBlif + "\n");
    out := out + (depsBlif + "\n");
  }

  // ---------------------------------------------------------------------
  // Choosing what `merge_strategies` returns.

  /** A strategy is a circuit; `None` stands for a null pointer. */
  datatype MergeChoice<A> =
    | UseDependent(dep: Option<A>)
    | UseIndependent(indep: A)
    | MergeBoth(indepsName: string, depsName: string)

  /**
   * Without independent outputs or an independent strategy the dependent
   * strategy is returned as is; otherwise, without dependent outputs or a
   * dependent strategy, the independent one; otherwise both are merged as
   * the sub-models `<model>_indeps` and `<model>_deps`.
   */
  function ChooseStrategy<A>(indep: Option<A>, dep: Option<A>, indeps: seq<string>, deps: seq<string>,
                             modelName: string): (c: MergeChoice<A>)
    ensures c.UseDependent? <==> indeps == [] || indep.None?
    ensures c.UseDependent? ==> c.dep == dep
    ensures c.UseIndependent? <==> indeps != [] && indep.Some? && (deps == [] || dep.None?)
    ensures c.UseIndependent? ==> indep == Some(c.indep)
    ensures c.MergeBoth? <==> indeps != [] && deps != [] && indep.Some? && dep.Some?
    ensures c.MergeBoth? ==> c.indepsName == modelName + "_indeps" && c.depsName == modelName + "_deps"
  {
    if |indeps| == 0 || indep.None? then UseDependent(dep)
    else if |deps| == 0 || dep.None? then UseIndependent(indep.value)
    else MergeBoth(modelName + "_indeps", modelName + "_deps")
  }

  // ---------------------------------------------------------------------
  // Naming a converted sub-model.

  /** The text with its first line replaced by `line`. */
  function ReplaceFirstLine(text: string, line: string): (r: string)
    requires '\n' !in line
    ensures Split(r, '\n') == [line] + Split(text, '\n')[1..]
  {
    if '\n' !in text then
      assert Split(text, '\n') == [text];
      line
    else
      var i := IndexOf(text, '\n');
      var r := line + text[i..];
      FirstNewline(line, text[i..]);
      assert r[|line| + 1..] == text[i + 1..];
      assert r[..|line|] == line;
      r
  }

  lemma FirstNewline(line: string, rest: string)
    requires '\n' !in line && rest != [] && rest[0] == '\n'
    ensures '\n' in line + rest && IndexOf(line + rest, '\n') == |line|
  {
    var s := line + rest;
    assert s[|line|] == '\n';
    var i := IndexOf(s, '\n');
  }

  /** `aiger_to_blif`: the converted text, whose first line now names the sub-model. */
  function AigerToBlif(converted: string, blifName: string): (r: string)
    requires '\n' !in blifName
    ensures Split(r, '\n')[0] == ".model " + blifName
    ensures Split(r, '\n')[1..] == Split(converted, '\n')[1..]
  {
    assert '\n' !in ".model " + blifName;
    ReplaceFirstLine(converted, ".model " + blifName)
  }

  // ---------------------------------------------------------------------
  // The `MergeStrategies` class, whose connectors carry no separator.

  /** The sub-model names the class uses. */
  const IndependentModel: string := "independent_model"
  const DependentModel: string := "dependent_model"

  /** The connectors of `xs` one right after the other, as the loops of `merge_blifs` write them. */
  method UnspacedConnectors(xs: seq<string>, toWired: bool) returns (wires: string)
    ensures wires == Terminated(Connections(xs, toWired), "")
  {
    wires := "";
    var i := 0;
    while i < |xs|
      invariant 0 <= i <= |xs|
      invariant wires == Terminated(Connections(xs[..i], toWired), "")
    {
      var target := if toWired then WiredVar(xs[i]) else xs[i];
      wires := wires + (xs[i] + "=" + target);
      ConnectionsSnoc(xs, i, toWired);
      TerminatedSnoc(Connections(xs[..i], toWired), Connection(xs[i], toWired), "");
      assert Terminated(Connections(xs[..i], toWired), "") + Connection(xs[i], toWired) + ""
          == Terminated(Connections(xs[..i], toWired), "") + Connection(xs[i], toWired);
      i := i + 1;
    }
    assert xs[..i] == xs;
  }

  /**
   * Two inputs `a` and `b` give the connector text `a=ab=b`, which a BLIF
   * reader takes as the single pair `a` = `ab=b` instead of `a=a` and `b=b`.
   */
  lemma UnspacedConnectorsRunTogether()
    ensures Terminated(Connections(["a", "b"], false), "") == "a=ab=b"
    ensures Fields(Terminated(Connections(["a", "b"], false), "")) == ["a=ab=b"]
    ensures Fields(Terminated(Connections(["a", "b"], false), "")) != Connections(["a", "b"], false)
  {
    var cs := Connections(["a", "b"], false);
    assert ["a", "b"][1..] == ["b"];
    assert cs[0] == "a=a" && cs[1] == "b=b";
    assert cs == ["a=a", "b=b"];
    assert Terminated(cs, "") == "a=a" + "" + ("b=b" + "" + "");
    FieldsWord("a=ab=b");
  }

  /** The merged text of the class: the same layout, but connectors without separators. */
  function UnspacedMergedBlif(indepsBlif: string, depsBlif: string, modelName: string,
                              inputs: seq<string>, outputs: seq<string>,
                              indepsOutputs: seq<string>, depsOutputs: seq<string>): string
  {
    var inputWires := Terminated(Connections(inputs, false), "");
    var indepsWires := Terminated(Connections(indepsOutputs, true), "");
    var depsWires := Terminated(Connections(depsOutputs, true), "");
    ".model " + modelName + "\n" + ".inputs " + Join(inputs, " ") + "\n"
    + ".outputs " + Join(outputs, " ") + "\n"
    + Buffers(outputs)
    + (".subckt " + IndependentModel + " " + inputWires + " " + indepsWires + "\n")
    + (".subckt " + DependentModel + " " + inputWires + " " + indepsWires + " " + depsWires + "\n")
    + ".end\n" + (indepsBlif + "\n") + (depsBlif + "\n")
  }

  class MergeStrategies {
    const inputs: seq<string>
    const outputs: seq<string>
    const indepsOutputs: seq<string>
    const depsOutputs: seq<string>
    const modelName: string

    constructor(inputs: seq<string>, outputs: seq<string>, indepsOutputs: seq<string>,
                depsOutputs: seq<string>, modelName: string)
      ensures this.inputs == inputs && this.outputs == outputs && this.modelName == modelName
      ensures this.indepsOutputs == indepsOutputs && this.depsOutputs == depsOutputs
    {
      this.inputs := inputs;
      this.outputs := outputs;
      this.indepsOutputs := indepsOutputs;
      this.depsOutputs := depsOutputs;
      this.modelName := modelName;
    }

    /** `merge_blifs`: the merged text with unseparated connectors. */
    method MergeBlifs(indepsBlif: string, depsBlif: string) returns (out: string)
      ensures out == UnspacedMergedBlif(indepsBlif, depsBlif, modelName, inputs, outputs,
                                        indepsOutputs, depsOutputs)
    {
      out := ".model " + modelName + "\n" + ".inputs " + Join(inputs, " ") + "\n"
             + ".outputs " + Join(outputs, " ") + "\n";
      out := WriteBuffers(out, outputs);
      var inputWires := UnspacedConnectors(inputs, false);
      var indepsWires := UnspacedConnectors(indepsOutputs, true);
      var depsWires := UnspacedConnectors(depsOutputs, true);
      out := out + (".subckt " + IndependentModel + " " + inputWires + " " + indepsWires + "\n");
      out := out + (".subckt " + DependentModel + " " + inputWires + " " + indepsWires + " " + depsWires + "\n");
      out := out + ".end\n";
      out := out + (indepsBlif + "\n");
      out := out + (depsBlif + "\n");
    }

    /**
     * `merge`: some output is dependent and not every output is
     * independent. The two circuits arrive as the text the converter
     * printed for them; the result is the merged text handed to the
     * external optimiser.
     */
    method Merge(indepsConverted: string, depsConverted: string) returns (merged: string)
      requires |indepsOutputs| != |outputs|
      requires |depsOutputs| > 0
      ensures merged == UnspacedMergedBlif(AigerToBlif(indepsConverted, IndependentModel),
                                           AigerToBlif(depsConverted, DependentModel),
                                           modelName, inputs, outputs, indepsOutputs, depsOutputs)
    {
      var indepsBlif := AigerToBlif(indepsConverted, IndependentModel);
      var depsBlif := AigerToBlif(depsConverted, DependentModel);
      merged := MergeBlifs(indepsBlif, depsBlif);
    }
  }
}
