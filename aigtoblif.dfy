/**
 * The AIGER-to-BLIF serialiser: an and-inverter graph, already read into
 * memory, written out as a BLIF model. Literals follow the AIGER
 * convention `2 * var + sign`, with 0 the constant false and 1 the
 * constant true.
 */
module AigToBlif {
  import opened Wrappers
  import opened Text
  import Blif

  datatype Latch = Latch(lit: nat, next: nat)
  datatype Output = Output(lit: nat, name: Option<string>)
  datatype And = And(lhs: nat, rhs0: nat, rhs1: nat)

  /** An AIG as the reader leaves it; `symbols` maps the literals of named inputs and latches to their names. */
  datatype Aiger = Aiger(maxvar: nat, inputs: seq<nat>, latches: seq<Latch>, outputs: seq<Output>,
                         ands: seq<And>, symbols: map<nat, string>)

  /** Names are attached to positive literals of variables 1 to `maxvar`. */
  predicate WellFormed(m: Aiger)
  {
    forall l :: l in m.symbols ==> l % 2 == 0 && 2 <= l <= 2 * m.maxvar
  }

  function StripLit(lit: nat): nat
  {
    lit - lit % 2
  }

  predicate Sign(lit: nat)
  {
    lit % 2 == 1
  }

  function Repeat(c: char, n: nat): (r: string)
    ensures |r| == n && forall i :: 0 <= i < n ==> r[i] == c
  {
    if n == 0 then [] else Repeat(c, n - 1) + [c]
  }

  // ---------------------------------------------------------------------
  // Names.

  /** The name of output `i`: its own, or `o<i>`. */
  function On(m: Aiger, i: nat): string
    requires i < |m.outputs|
  {
    match m.outputs[i].name
    case Some(name) => name
    case None => "o" + NatToString(i)
  }

  /** Two unnamed outputs never share a name. */
  lemma UnnamedOutputsDistinct(m: Aiger, i: nat, j: nat)
    requires i < |m.outputs| && j < |m.outputs| && i != j
    requires m.outputs[i].name.None? && m.outputs[j].name.None?
    ensures On(m, i) != On(m, j)
  {
    if On(m, i) == On(m, j) {
      assert On(m, i)[1..] == NatToString(i);
      assert On(m, j)[1..] == NatToString(j);
      NatToStringInjective(i, j);
    }
  }

  /**
   * The name of an unnamed output ignores the prefix count: an input named
   * `o0` and an unnamed output 0 are both written `o0`.
   */
  lemma OutputNameClash()
    ensures var m := Aiger(1, [2], [], [Output(2, None)], [], map[2 := "o0"]);
      WellFormed(m) && On(m, 0) == "o0" && Pl(m, 2, SetupCountOf(m)) == "o0"
  {
    var m := Aiger(1, [2], [], [Output(2, None)], [], map[2 := "o0"]);
    assert NatToString(0) == "0";
    MangleKeeps("o0");
  }

  /** Characters that C's `isspace` accepts in the default locale. */
  predicate IsCSpace(c: char)
  {
    c == ' ' || '\t' <= c <= '\r'
  }

  /** Characters that C's `isprint` accepts in the default locale. */
  predicate IsCPrint(c: char)
  {
    ' ' <= c <= '~'
  }

  /** A character BLIF takes verbatim inside a name. */
  predicate IsBlifSymChar(c: char)
  {
    !IsCSpace(c) && c != '.' && c != '\\' && IsCPrint(c)
  }

  /**
   * The value `%0X` prints for a `char`: a byte above 127 is a negative
   * `char`, sign-extended to a 32-bit unsigned value.
   */
  function HexCode(c: char): nat
  {
    var b := c as int % 256;
    if b < 128 then b else 0xFFFF_FF00 + b
  }

  function MangleChar(c: char): (r: string)
    ensures r != []
  {
    if IsBlifSymChar(c) then [c] else "\\" + Digits(HexCode(c), 16)
  }

  /** A symbol as written to BLIF: other characters become `\` and their hex code. */
  function Mangle(s: string): string
  {
    if s == [] then [] else Mangle(s[..|s| - 1]) + MangleChar(s[|s| - 1])
  }

  /** `print_mangled`, writing character by character. */
  method PrintMangled(out: string, name: string) returns (out': string)
    ensures out' == out + Mangle(name)
  {
    out' := out;
    var p := 0;
    while p < |name|
      invariant 0 <= p <= |name|
      invariant out' == out + Mangle(name[..p])
    {
      var ch := name[p];
      var piece;
      if IsBlifSymChar(ch) {
        piece := [ch];
      } else {
        piece := "\\" + Digits(HexCode(ch), 16);
      }
      MangleSnoc(name, p);
      Assoc(out, Mangle(name[..p]), piece);
      out' := out' + piece;
      p := p + 1;
    }
    assert name[..p] == name;
  }

  lemma MangleSnoc(s: string, p: nat)
    requires p < |s|
    ensures Mangle(s[..p + 1]) == Mangle(s[..p]) + MangleChar(s[p])
  {
    assert s[..p + 1][..p] == s[..p];
  }

  /** One more piece on a stream that holds `out` followed by `acc`. */
  lemma AppendStep(x: string, out: string, acc: string, piece: string)
    requires x == out + acc
    ensures x + piece == out + (acc + piece)
  {
  }

  lemma Assoc(a: string, b: string, c: string)
    ensures a + b + c == a + (b + c)
  {
  }

  lemma DigitCharSym(d: nat)
    requires d < 16
    ensures IsBlifSymChar(DigitChar(d))
  {
    var s := "0123456789ABCDEF";
    assert forall k :: 0 <= k < 16 ==> '0' <= s[k] <= 'F' && s[k] != '.';
  }

  lemma {:induction false} HexDigitsSym(n: nat)
    ensures forall i :: 0 <= i < |Digits(n, 16)| ==> IsBlifSymChar(Digits(n, 16)[i])
  {
    if n < 16 {
      DigitCharSym(n);
    } else {
      HexDigitsSym(n / 16);
      DigitCharSym(n % 16);
    }
  }

  /** A mangled symbol holds only BLIF name characters and escapes, so it is one BLIF field. */
  lemma {:induction false} MangleSafe(s: string)
    ensures forall i :: 0 <= i < |Mangle(s)| ==> IsBlifSymChar(Mangle(s)[i]) || Mangle(s)[i] == '\\'
    ensures |Mangle(s)| >= |s|
  {
    if s != [] {
      MangleSafe(s[..|s| - 1]);
      var c := s[|s| - 1];
      if !IsBlifSymChar(c) {
        HexDigitsSym(HexCode(c));
        assert forall i :: 1 <= i < |MangleChar(c)| ==> MangleChar(c)[i] == Digits(HexCode(c), 16)[i - 1];
      }
    }
  }

  lemma MangledIsWord(s: string)
    requires s != []
    ensures IsWord(Mangle(s)) && '\n' !in Mangle(s)
  {
    MangleSafe(s);
  }

  /** A symbol made of BLIF name characters is written unchanged. */
  lemma {:induction false} MangleKeeps(s: string)
    requires forall i :: 0 <= i < |s| ==> IsBlifSymChar(s[i])
    ensures Mangle(s) == s
  {
    if s != [] {
      MangleKeeps(s[..|s| - 1]);
      assert s == s[..|s| - 1] + [s[|s| - 1]];
    }
  }

  /** A mangled symbol without an escape is the symbol itself. */
  lemma {:induction false} MangleNoEscape(s: string)
    requires '\\' !in Mangle(s)
    ensures Mangle(s) == s
  {
    if s != [] {
      var init := s[..|s| - 1];
      var c := s[|s| - 1];
      assert Mangle(s) == Mangle(init) + MangleChar(c);
      assert '\\' !in Mangle(init) by {
        forall i | 0 <= i < |Mangle(init)| ensures Mangle(init)[i] != '\\' {
          assert Mangle(init)[i] == Mangle(s)[i];
        }
      }
      MangleNoEscape(init);
      assert MangleChar(c)[0] == Mangle(s)[|Mangle(init)|];
      assert s == init + [c];
    }
  }

  /** The letter of an unnamed literal: input, latch, otherwise and-gate. */
  function KindChar(m: Aiger, lit: nat): (c: char)
    ensures c == 'i' || c == 'l' || c == 'a'
  {
    if lit in m.inputs then 'i'
    else if lit in LatchLits(m.latches) then 'l'
    else 'a'
  }

  function LatchLits(ls: seq<Latch>): seq<nat>
  {
    if ls == [] then [] else LatchLits(ls[..|ls| - 1]) + [ls[|ls| - 1].lit]
  }

  /** How `pl` writes a literal. */
  function Pl(m: Aiger, lit: nat, count: nat): string
    decreases lit
  {
    if lit == 0 then "c0"
    else if lit == 1 then "c1"
    else if Sign(lit) then "!" + Pl(m, lit - 1, count)
    else if lit in m.symbols then Mangle(m.symbols[lit])
    else Repeat(KindChar(m, lit), count + 1) + NatToString(lit)
  }

  /** `pl`, writing to the stream. */
  method WritePl(out: string, m: Aiger, lit: nat, count: nat) returns (out': string)
    ensures out' == out + Pl(m, lit, count)
    decreases lit
  {
    if lit == 0 {
      out' := out + "c0";
    } else if lit == 1 {
      out' := out + "c1";
    } else if Sign(lit) {
      out' := WritePl(out + "!", m, lit - 1, count);
      assert (out + "!") + Pl(m, lit - 1, count) == out + ("!" + Pl(m, lit - 1, count));
    } else if lit in m.symbols {
      out' := PrintMangled(out, m.symbols[lit]);
    } else {
      var ch := KindChar(m, lit);
      out' := WriteRepeat(out, ch, count + 1);
      assert (out + Repeat(ch, count + 1)) + NatToString(lit) == out + (Repeat(ch, count + 1) + NatToString(lit));
      out' := out' + NatToString(lit);
    }
  }

  /** The `putc` loop of `pl`: `n` copies of `ch`. */
  method WriteRepeat(out: string, ch: char, n: nat) returns (out': string)
    ensures out' == out + Repeat(ch, n)
  {
    out' := out;
    for i := 0 to n
      invariant out' == out + Repeat(ch, i)
    {
      out' := out' + [ch];
    }
  }

  // ---------------------------------------------------------------------
  // The prefix count that keeps generated names apart from symbols.

  /** The length of the run of `ch` that starts `s`. */
  function ChRun(s: string, ch: char): (n: nat)
    ensures n <= |s| && forall i :: 0 <= i < n ==> s[i] == ch
    ensures n < |s| ==> s[n] != ch
  {
    if s != [] && s[0] == ch then 1 + ChRun(s[1..], ch) else 0
  }

  /** What `count_ch_prefix` returns: the run of `ch`, if a digit or the end follows it, else 0. */
  function ChPrefix(s: string, ch: char): nat
  {
    var p := ChRun(s, ch);
    if p < |s| && !IsDigit(s[p]) then 0 else p
  }

  /** `count_ch_prefix`. */
  method CountChPrefix(s: string, ch: char) returns (n: nat)
    ensures n == ChPrefix(s, ch)
  {
    var p := 0;
    while p < |s| && s[p] == ch
      invariant 0 <= p <= |s|
      invariant forall i :: 0 <= i < p ==> s[i] == ch
      invariant ChRun(s, ch) == p + ChRun(s[p..], ch)
    {
      assert s[p..][1..] == s[p + 1..];
      p := p + 1;
    }
    if p < |s| && !IsDigit(s[p]) {
      n := 0;
    } else {
      n := p;
    }
  }

  /** The largest prefix count over the symbols of variables 1 to `i`. */
  function MaxCount(m: Aiger, i: nat): nat
  {
    if i == 0 then 0
    else
      var c := MaxCount(m, i - 1);
      if 2 * i in m.symbols then
        var s := m.symbols[2 * i];
        Max(Max(Max(Max(c, ChPrefix(s, 'i')), ChPrefix(s, 'l')), ChPrefix(s, 'o')), ChPrefix(s, 'a'))
      else c
  }

  function Max(a: nat, b: nat): nat
  {
    if a < b then b else a
  }

  function SetupCountOf(m: Aiger): nat
  {
    MaxCount(m, m.maxvar)
  }

  /** `setupcount`. */
  method SetupCount(m: Aiger) returns (count: nat)
    ensures count == SetupCountOf(m)
  {
    count := 0;
    var i := 1;
    while i <= m.maxvar
      invariant 1 <= i <= m.maxvar + 1
      invariant count == MaxCount(m, i - 1)
    {
      if 2 * i in m.symbols {
        var symbol := m.symbols[2 * i];
        var tmp := CountChPrefix(symbol, 'i');
        if tmp > count { count := tmp; }
        tmp := CountChPrefix(symbol, 'l');
        if tmp > count { count := tmp; }
        tmp := CountChPrefix(symbol, 'o');
        if tmp > count { count := tmp; }
        tmp := CountChPrefix(symbol, 'a');
        if tmp > count { count := tmp; }
      }
      i := i + 1;
    }
  }

  /** Every symbol's prefix count is at most the count. */
  lemma {:induction false} CountBound(m: Aiger, i: nat, v: nat, ch: char)
    requires 1 <= v <= i && 2 * v in m.symbols
    requires ch == 'i' || ch == 'l' || ch == 'o' || ch == 'a'
    ensures ChPrefix(m.symbols[2 * v], ch) <= MaxCount(m, i)
  {
    if v < i {
      CountBound(m, i - 1, v, ch);
    }
  }

  lemma {:induction false} ChRunGenerated(ch: char, k: nat, d: string)
    requires d != [] && d[0] != ch
    ensures ChRun(Repeat(ch, k) + d, ch) == k
  {
    var s := Repeat(ch, k) + d;
    if k == 0 {
      assert s == d;
    } else {
      assert s[1..] == Repeat(ch, k - 1) + d;
      ChRunGenerated(ch, k - 1, d);
    }
  }

  /** A generated name, letters then digits, has the number of letters as its prefix count. */
  lemma GeneratedPrefix(ch: char, k: nat, n: nat)
    requires !IsDigit(ch)
    ensures ChPrefix(Repeat(ch, k) + NatToString(n), ch) == k
  {
    var d := NatToString(n);
    ChRunGenerated(ch, k, d);
    var s := Repeat(ch, k) + d;
    assert s[k] == d[0];
  }

  lemma GeneratedNoEscape(ch: char, k: nat, n: nat)
    requires ch != '\\'
    ensures '\\' !in Repeat(ch, k) + NatToString(n)
  {
    var g := Repeat(ch, k) + NatToString(n);
    forall i | 0 <= i < |g| ensures g[i] != '\\' {
      if i >= k {
        assert g[i] == NatToString(n)[i - k];
      }
    }
  }

  /** An unnamed literal is never written like a named one. */
  lemma NamedUnnamedDistinct(m: Aiger, a: nat, b: nat)
    requires WellFormed(m)
    requires a >= 2 && !Sign(a) && a !in m.symbols
    requires b in m.symbols
    ensures Pl(m, a, SetupCountOf(m)) != Pl(m, b, SetupCountOf(m))
  {
    var count := SetupCountOf(m);
    var ch := KindChar(m, a);
    var g := Repeat(ch, count + 1) + NatToString(a);
    var s := m.symbols[b];
    assert Pl(m, a, count) == g;
    assert b % 2 == 0 && b >= 2;
    assert Pl(m, b, count) == Mangle(s);
    if g == Mangle(s) {
      GeneratedNoEscape(ch, count + 1, a);
      MangleNoEscape(s);
      GeneratedPrefix(ch, count + 1, a);
      assert 2 * (b / 2) == b;
      CountBound(m, m.maxvar, b / 2, ch);
    }
  }

  /**
   * The name of output `i` with the prefix count applied, as the literals'
   * generated names have it: `o` one more time than any symbol starts with.
   */
  function OnCounted(m: Aiger, i: nat, count: nat): string
    requires i < |m.outputs|
  {
    match m.outputs[i].name
    case Some(name) => name
    case None => Repeat('o', count + 1) + NatToString(i)
  }

  /** With the prefix count applied, an unnamed output is never written like a named literal. */
  lemma CountedOutputNameDistinct(m: Aiger, i: nat, b: nat)
    requires WellFormed(m) && i < |m.outputs| && m.outputs[i].name.None? && b in m.symbols
    ensures OnCounted(m, i, SetupCountOf(m)) != Pl(m, b, SetupCountOf(m))
  {
    var count := SetupCountOf(m);
    var g := Repeat('o', count + 1) + NatToString(i);
    var s := m.symbols[b];
    assert OnCounted(m, i, count) == g;
    assert b % 2 == 0 && b >= 2;
    assert Pl(m, b, count) == Mangle(s);
    if g == Mangle(s) {
      GeneratedNoEscape('o', count + 1, i);
      MangleNoEscape(s);
      GeneratedPrefix('o', count + 1, i);
      assert 2 * (b / 2) == b;
      CountBound(m, m.maxvar, b / 2, 'o');
    }
  }

  /** Distinct unnamed literals are written differently. */
  lemma UnnamedDistinct(m: Aiger, a: nat, b: nat, count: nat)
    requires a >= 2 && !Sign(a) && a !in m.symbols
    requires b >= 2 && !Sign(b) && b !in m.symbols
    requires Pl(m, a, count) == Pl(m, b, count)
    ensures a == b
  {
    var ga := Repeat(KindChar(m, a), count + 1) + NatToString(a);
    var gb := Repeat(KindChar(m, b), count + 1) + NatToString(b);
    assert ga[0] == KindChar(m, a) && gb[0] == KindChar(m, b);
    assert ga[count + 1..] == NatToString(a);
    assert gb[count + 1..] == NatToString(b);
    NatToStringInjective(a, b);
  }

  // ---------------------------------------------------------------------
  // The sections of the BLIF text.

  /** An item of a list line; a line continuation follows every tenth item but the last. */
  function ListItem(name: string, i: nat, n: nat): string
  {
    name + " " + (if (i + 1) % 10 == 0 && i + 1 < n then "\\\n" else "")
  }

  function InputsText(m: Aiger, count: nat, k: nat): string
    requires k <= |m.inputs|
  {
    if k == 0 then "" else InputsText(m, count, k - 1) + ListItem(Pl(m, m.inputs[k - 1], count), k - 1, |m.inputs|)
  }

  function OutputsText(m: Aiger, k: nat): string
    requires k <= |m.outputs|
  {
    if k == 0 then "" else OutputsText(m, k - 1) + ListItem(On(m, k - 1), k - 1, |m.outputs|)
  }

  /** A negated next-state literal that is not the constant true. */
  predicate IsNegatedNext(next: nat)
  {
    Sign(next) && next != 1
  }

  function LatchLine(m: Aiger, count: nat, l: Latch): string
  {
    if l.next == 0 || l.next == 1 then
      ".latch " + (if l.next == 0 then "c0" else "c1") + " " + Pl(m, l.lit, count) + " 0\n"
    else if !Sign(l.next) then
      ".latch " + Pl(m, l.next, count) + " " + Pl(m, l.lit, count) + " 0\n"
    else
      ".latch n" + Pl(m, StripLit(l.next), count) + " " + Pl(m, l.lit, count) + " 0\n"
  }

  function LatchLines(m: Aiger, count: nat, k: nat): string
    requires k <= |m.latches|
  {
    if k == 0 then "" else LatchLines(m, count, k - 1) + LatchLine(m, count, m.latches[k - 1])
  }

  predicate HasSameNext(ls: seq<Latch>, h: seq<nat>, next: nat)
  {
    exists j :: 0 <= j < |h| && h[j] < |ls| && ls[h[j]].next == next
  }

  /**
   * The latches that get an inverter: for each distinct negated
   * next-state literal, the first latch that has it.
   */
  function Helpers(ls: seq<Latch>, k: nat): (h: seq<nat>)
    requires k <= |ls|
    ensures |h| <= k && forall j :: 0 <= j < |h| ==> h[j] < k
  {
    if k == 0 then []
    else
      var h := Helpers(ls, k - 1);
      var l := ls[k - 1];
      if l.next != 0 && l.next != 1 && Sign(l.next) && !HasSameNext(ls, h, l.next) then h + [k - 1] else h
  }

  /** Whether latch `k - 1` is added to the helpers of the latches before it. */
  predicate AddsHelper(ls: seq<Latch>, k: nat)
    requires 0 < k <= |ls|
  {
    var l := ls[k - 1];
    l.next != 0 && l.next != 1 && Sign(l.next) && !HasSameNext(ls, Helpers(ls, k - 1), l.next)
  }

  lemma HelpersStep(ls: seq<Latch>, k: nat)
    requires 0 < k <= |ls|
    ensures Helpers(ls, k) == if AddsHelper(ls, k) then Helpers(ls, k - 1) + [k - 1] else Helpers(ls, k - 1)
  {
  }

  /** Every helper has a negated next-state literal. */
  lemma {:induction false} HelpersNegated(ls: seq<Latch>, k: nat)
    requires k <= |ls|
    ensures var h := Helpers(ls, k); forall j :: 0 <= j < |h| ==> IsNegatedNext(ls[h[j]].next)
  {
    if k > 0 {
      HelpersNegated(ls, k - 1);
      HelpersStep(ls, k);
    }
  }

  /** The helpers are increasing, and no two of them have the same next-state literal. */
  lemma {:induction false} HelpersDistinct(ls: seq<Latch>, k: nat)
    requires k <= |ls|
    ensures var h := Helpers(ls, k);
      forall j1, j2 :: 0 <= j1 < j2 < |h| ==> h[j1] < h[j2] && ls[h[j1]].next != ls[h[j2]].next
  {
    if k > 0 {
      HelpersDistinct(ls, k - 1);
      HelpersStep(ls, k);
      var h := Helpers(ls, k - 1);
      if AddsHelper(ls, k) {
        var h' := h + [k - 1];
        forall j1, j2 | 0 <= j1 < j2 < |h'| ensures h'[j1] < h'[j2] && ls[h'[j1]].next != ls[h'[j2]].next {
          if j2 == |h| {
            assert h'[j1] == h[j1] < k - 1;
            assert !(h[j1] < |ls| && ls[h[j1]].next == ls[k - 1].next);
          } else {
            assert h'[j1] == h[j1] && h'[j2] == h[j2];
          }
        }
      }
    }
  }

  /** Every negated next-state literal among the first `k` latches is that of a helper. */
  lemma {:induction false} HelpersCover(ls: seq<Latch>, k: nat)
    requires k <= |ls|
    ensures var h := Helpers(ls, k);
      forall i :: 0 <= i < k && IsNegatedNext(ls[i].next) ==> HasSameNext(ls, h, ls[i].next)
  {
    if k > 0 {
      HelpersCover(ls, k - 1);
      HelpersStep(ls, k);
      var h := Helpers(ls, k - 1);
      if AddsHelper(ls, k) {
        var h' := h + [k - 1];
        assert HasSameNext(ls, h', ls[k - 1].next) by { assert h'[|h|] == k - 1; }
        forall i | 0 <= i < k - 1 && IsNegatedNext(ls[i].next) ensures HasSameNext(ls, h', ls[i].next) {
          var j :| 0 <= j < |h| && h[j] < |ls| && ls[h[j]].next == ls[i].next;
          assert h'[j] == h[j];
        }
      } else if IsNegatedNext(ls[k - 1].next) {
        assert HasSameNext(ls, h, ls[k - 1].next);
      }
    }
  }

  function AndLine(m: Aiger, count: nat, a: And): string
  {
    ".names " + Pl(m, StripLit(a.rhs0), count) + " " + Pl(m, StripLit(a.rhs1), count) + " "
    + Pl(m, a.lhs, count) + "\n" + [Bit(a.rhs0)] + [Bit(a.rhs1)] + " 1\n"
  }

  /** The cube letter of an input literal: '0' when negated. */
  function Bit(lit: nat): char
  {
    if Sign(lit) then '0' else '1'
  }

  function AndLines(m: Aiger, count: nat, k: nat): string
    requires k <= |m.ands|
  {
    if k == 0 then "" else AndLines(m, count, k - 1) + AndLine(m, count, m.ands[k - 1])
  }

  function OutputLine(m: Aiger, count: nat, i: nat): string
    requires i < |m.outputs|
  {
    var lit := m.outputs[i].lit;
    if lit == 0 || lit == 1 then
      ".names " + (if lit == 0 then "c0 " else "c1 ") + On(m, i) + "\n" + "1 1\n"
    else
      ".names " + Pl(m, StripLit(lit), count) + " " + On(m, i) + "\n" + [Bit(lit)] + " 1\n"
  }

  function OutputLines(m: Aiger, count: nat, k: nat): string
    requires k <= |m.outputs|
  {
    if k == 0 then "" else OutputLines(m, count, k - 1) + OutputLine(m, count, k - 1)
  }

  function InverterLine(m: Aiger, count: nat, l: Latch): string
  {
    if l.next != 0 && l.next != 1 then
      ".names " + Pl(m, StripLit(l.next), count) + " n" + Pl(m, StripLit(l.next), count) + "\n" + "0 1\n"
    else ""
  }

  function InverterLines(m: Aiger, count: nat, h: seq<nat>): string
    requires forall j :: 0 <= j < |h| ==> h[j] < |m.latches|
  {
    if h == [] then "" else InverterLines(m, count, h[..|h| - 1]) + InverterLine(m, count, m.latches[h[|h| - 1]])
  }

  /** The text written for `m` before the constants. */
  function Sections(m: Aiger, modelName: string, count: nat): string
  {
    ".model " + modelName + "\n" + ".inputs " + InputsText(m, count, |m.inputs|) + "\n"
    + ".outputs " + OutputsText(m, |m.outputs|) + "\n"
    + LatchLines(m, count, |m.latches|) + AndLines(m, count, |m.ands|) + OutputLines(m, count, |m.outputs|)
    + InverterLines(m, count, Helpers(m.latches, |m.latches|))
  }

  /** The whole text written for `m`. */
  function BlifText(m: Aiger, modelName: string, count: nat): string
  {
    Sections(m, modelName, count) + ".names c0\n" + ".names c1\n" + "1\n" + ".end\n"
  }

  predicate EndsWith(t: string, suffix: string)
  {
    |suffix| <= |t| && t[|t| - |suffix|..] == suffix
  }

  /** The constants c0 and c1 are always defined, and the text ends with `.end`. */
  lemma ConstantsDefined(m: Aiger, modelName: string, count: nat)
    ensures EndsWith(BlifText(m, modelName, count), ".names c0\n" + ".names c1\n" + "1\n" + ".end\n")
  {
    Suffix(Sections(m, modelName, count), ".names c0\n", ".names c1\n", "1\n", ".end\n");
  }

  lemma Suffix(pre: string, a: string, b: string, c: string, d: string)
    ensures EndsWith(pre + a + b + c + d, a + b + c + d)
  {
    var t := pre + a + b + c + d;
    assert t == pre + (a + b + c + d);
  }

  // ---------------------------------------------------------------------
  // What the covers compute.

  /** The value of a literal, given the values of the positive literals. */
  function LitValue(val: nat -> bool, lit: nat): bool
  {
    if Sign(lit) then !val(StripLit(lit)) else val(lit)
  }

  /** The cover written for an and-gate computes the conjunction of its two input literals. */
  lemma AndCover(val: nat -> bool, a: And)
    ensures Blif.CoverOutput([[Bit(a.rhs0)] + [Bit(a.rhs1)]], [val(StripLit(a.rhs0)), val(StripLit(a.rhs1))])
         == (LitValue(val, a.rhs0) && LitValue(val, a.rhs1))
  {
    var cube := [Bit(a.rhs0)] + [Bit(a.rhs1)];
    var ins := [val(StripLit(a.rhs0)), val(StripLit(a.rhs1))];
    if LitValue(val, a.rhs0) && LitValue(val, a.rhs1) {
      assert Blif.CubeMatches(cube, ins);
    } else if !LitValue(val, a.rhs0) {
      assert cube[0] == Bit(a.rhs0);
    } else {
      assert cube[1] == Bit(a.rhs1);
    }
  }

  /** The cover written for an output, or for the inverter of a latch, gives the literal's value. */
  lemma OutputCover(val: nat -> bool, lit: nat)
    ensures Blif.CoverOutput([[Bit(lit)]], [val(StripLit(lit))]) == LitValue(val, lit)
  {
    var cube := [Bit(lit)];
    if LitValue(val, lit) {
      assert Blif.CubeMatches(cube, [val(StripLit(lit))]);
    } else {
      assert cube[0] == Bit(lit);
    }
  }

  // ---------------------------------------------------------------------
  // Writing the sections.

  method WriteListItem(name: string, i: nat, n: nat) returns (item: string)
    ensures item == ListItem(name, i, n)
  {
    item := name + " ";
    if (i + 1) % 10 == 0 && i < n - 1 {
      item := item + "\\\n";
    } else {
      assert item + "" == item;
    }
  }

  /** Appends the item of input `i` to the items before it. */
  method AppendInput(cur: string, out: string, m: Aiger, count: nat, i: nat) returns (next: string)
    requires i < |m.inputs| && cur == out + InputsText(m, count, i)
    ensures next == out + InputsText(m, count, i + 1)
  {
    var name := WritePl("", m, m.inputs[i], count);
    assert name == Pl(m, m.inputs[i], count);
    var item := WriteListItem(name, i, |m.inputs|);
    AppendStep(cur, out, InputsText(m, count, i), item);
    next := cur + item;
  }

  method WriteInputs(out: string, m: Aiger, count: nat) returns (out': string)
    ensures out' == out + InputsText(m, count, |m.inputs|)
  {
    out' := out;
    for i := 0 to |m.inputs|
      invariant out' == out + InputsText(m, count, i)
    {
      out' := AppendInput(out', out, m, count, i);
    }
  }

  /** Appends the name of output `i` to the names before it. */
  method AppendOutputName(cur: string, out: string, m: Aiger, i: nat) returns (next: string)
    requires i < |m.outputs| && cur == out + OutputsText(m, i)
    ensures next == out + OutputsText(m, i + 1)
  {
    var item := WriteListItem(On(m, i), i, |m.outputs|);
    AppendStep(cur, out, OutputsText(m, i), item);
    next := cur + item;
  }

  method WriteOutputNames(out: string, m: Aiger) returns (out': string)
    ensures out' == out + OutputsText(m, |m.outputs|)
  {
    out' := out;
    for i := 0 to |m.outputs|
      invariant out' == out + OutputsText(m, i)
    {
      out' := AppendOutputName(out', out, m, i);
    }
  }

  method AlreadyDone(ls: seq<Latch>, helper: seq<nat>, next: nat) returns (done: bool)
    requires forall j :: 0 <= j < |helper| ==> helper[j] < |ls|
    ensures done <==> HasSameNext(ls, helper, next)
  {
    done := false;
    var j := 0;
    while j < |helper| && !done
      invariant 0 <= j <= |helper|
      invariant done <==> exists k :: 0 <= k < j && ls[helper[k]].next == next
    {
      if ls[helper[j]].next == next {
        done := true;
      }
      j := j + 1;
    }
  }

  method WriteLatchLine(m: Aiger, count: nat, l: Latch) returns (line: string)
    ensures line == LatchLine(m, count, l)
  {
    if l.next == 0 || l.next == 1 {
      line := ".latch " + (if l.next == 0 then "c0" else "c1") + " ";
      line := WritePl(line, m, l.lit, count);
      line := line + " 0\n";
    } else if !Sign(l.next) {
      line := WritePl(".latch ", m, l.next, count);
      line := line + " ";
      line := WritePl(line, m, l.lit, count);
      line := line + " 0\n";
    } else {
      line := WritePl(".latch n", m, StripLit(l.next), count);
      line := line + " ";
      line := WritePl(line, m, l.lit, count);
      line := line + " 0\n";
    }
  }

  /**
   * The helper bookkeeping of latch `i`: clears its cell, then records it
   * unless an earlier helper has its next-state literal.
   */
  method RecordHelper(ls: seq<Latch>, latchHelper: array<nat>, cnt: nat, i: nat) returns (cnt': nat)
    requires i < |ls| == latchHelper.Length && cnt <= i
    requires latchHelper[..cnt] == Helpers(ls, i)
    modifies latchHelper
    ensures cnt' <= i + 1 && latchHelper[..cnt'] == Helpers(ls, i + 1)
  {
    latchHelper[i] := 0;
    assert latchHelper[..cnt] == old(latchHelper[..cnt]);
    cnt' := cnt;
    var l := ls[i];
    if l.next != 0 && l.next != 1 && Sign(l.next) {
      var alreadyDone := AlreadyDone(ls, latchHelper[..cnt], l.next);
      if !alreadyDone {
        latchHelper[cnt] := i;
        assert latchHelper[..cnt + 1] == latchHelper[..cnt] + [i];
        cnt' := cnt + 1;
      }
    }
  }

  /** Appends the line of latch `i` to the lines before it. */
  method AppendLatchLine(cur: string, out: string, m: Aiger, count: nat, i: nat) returns (next: string)
    requires i < |m.latches| && cur == out + LatchLines(m, count, i)
    ensures next == out + LatchLines(m, count, i + 1)
  {
    var line := WriteLatchLine(m, count, m.latches[i]);
    AppendStep(cur, out, LatchLines(m, count, i), line);
    next := cur + line;
  }

  /** The latch lines; `latchHelper[..cnt]` collects the latches that need an inverter. */
  method WriteLatches(out: string, m: Aiger, count: nat, latchHelper: array<nat>) returns (out': string, cnt: nat)
    requires latchHelper.Length == |m.latches|
    modifies latchHelper
    ensures out' == out + LatchLines(m, count, |m.latches|)
    ensures cnt <= latchHelper.Length && latchHelper[..cnt] == Helpers(m.latches, |m.latches|)
  {
    out' := out;
    cnt := 0;
    var i := 0;
    while i < |m.latches|
      invariant 0 <= i <= |m.latches|
      invariant out' == out + LatchLines(m, count, i)
      invariant cnt <= i && latchHelper[..cnt] == Helpers(m.latches, i)
    {
      out' := AppendLatchLine(out', out, m, count, i);
      cnt := RecordHelper(m.latches, latchHelper, cnt, i);
      i := i + 1;
    }
  }

  method WriteAndLine(m: Aiger, count: nat, n: And) returns (line: string)
    ensures line == AndLine(m, count, n)
  {
    line := WritePl(".names ", m, StripLit(n.rhs0), count);
    line := line + " ";
    line := WritePl(line, m, StripLit(n.rhs1), count);
    line := line + " ";
    line := WritePl(line, m, n.lhs, count);
    line := line + "\n";
    line := line + [Bit(n.rhs0)];
    line := line + [Bit(n.rhs1)];
    line := line + " 1\n";
  }

  /** Appends the line of gate `i` to the lines before it. */
  method AppendAndLine(cur: string, out: string, m: Aiger, count: nat, i: nat) returns (next: string)
    requires i < |m.ands| && cur == out + AndLines(m, count, i)
    ensures next == out + AndLines(m, count, i + 1)
  {
    var line := WriteAndLine(m, count, m.ands[i]);
    AppendStep(cur, out, AndLines(m, count, i), line);
    next := cur + line;
  }

  method WriteAnds(out: string, m: Aiger, count: nat) returns (out': string)
    ensures out' == out + AndLines(m, count, |m.ands|)
  {
    out' := out;
    for i := 0 to |m.ands|
      invariant out' == out + AndLines(m, count, i)
    {
      out' := AppendAndLine(out', out, m, count, i);
    }
  }

  method WriteOutputLine(m: Aiger, count: nat, i: nat) returns (line: string)
    requires i < |m.outputs|
    ensures line == OutputLine(m, count, i)
  {
    var lit := m.outputs[i].lit;
    if lit == 0 || lit == 1 {
      line := ".names " + (if lit == 0 then "c0 " else "c1 ") + On(m, i) + "\n" + "1 1\n";
    } else {
      line := WritePl(".names ", m, StripLit(lit), count);
      line := line + " " + On(m, i) + "\n" + [Bit(lit)] + " 1\n";
    }
  }

  /** Appends the line of output `i` to the lines before it. */
  method AppendOutputLine(cur: string, out: string, m: Aiger, count: nat, i: nat) returns (next: string)
    requires i < |m.outputs| && cur == out + OutputLines(m, count, i)
    ensures next == out + OutputLines(m, count, i + 1)
  {
    var line := WriteOutputLine(m, count, i);
    AppendStep(cur, out, OutputLines(m, count, i), line);
    next := cur + line;
  }

  method WriteOutputs(out: string, m: Aiger, count: nat) returns (out': string)
    ensures out' == out + OutputLines(m, count, |m.outputs|)
  {
    out' := out;
    for i := 0 to |m.outputs|
      invariant out' == out + OutputLines(m, count, i)
    {
      out' := AppendOutputLine(out', out, m, count, i);
    }
  }

  method WriteInverterLine(m: Aiger, count: nat, l: Latch) returns (line: string)
    ensures line == InverterLine(m, count, l)
  {
    line := "";
    if l.next != 0 && l.next != 1 {
      line := WritePl(".names ", m, StripLit(l.next), count);
      line := line + " n";
      line := WritePl(line, m, StripLit(l.next), count);
      line := line + "\n" + "0 1\n";
    }
  }

  /** Appends the inverter of the `i`th helper to the inverters before it. */
  method AppendInverterLine(cur: string, out: string, m: Aiger, count: nat, helper: seq<nat>, i: nat)
    returns (next: string)
    requires forall j :: 0 <= j < |helper| ==> helper[j] < |m.latches|
    requires i < |helper| && cur == out + InverterLines(m, count, helper[..i])
    ensures next == out + InverterLines(m, count, helper[..i + 1])
  {
    var line := WriteInverterLine(m, count, m.latches[helper[i]]);
    assert helper[..i + 1][..i] == helper[..i];
    AppendStep(cur, out, InverterLines(m, count, helper[..i]), line);
    next := cur + line;
  }

  method WriteInverters(out: string, m: Aiger, count: nat, helper: seq<nat>) returns (out': string)
    requires forall j :: 0 <= j < |helper| ==> helper[j] < |m.latches|
    ensures out' == out + InverterLines(m, count, helper)
  {
    out' := out;
    for i := 0 to |helper|
      invariant out' == out + InverterLines(m, count, helper[..i])
    {
      out' := AppendInverterLine(out', out, m, count, helper, i);
    }
    assert helper[..|helper|] == helper;
  }

  /** The header lines, latches, gates, outputs and inverters, with the count from `setupcount`. */
  method WriteSections(m: Aiger, modelName: string) returns (out: string)
    ensures out == Sections(m, modelName, SetupCountOf(m))
  {
    var count := SetupCount(m);
    out := ".model " + modelName + "\n";
    out := out + ".inputs ";
    out := WriteInputs(out, m, count);
    out := out + "\n";
    out := out + ".outputs ";
    out := WriteOutputNames(out, m);
    out := out + "\n";
    var latchHelper := new nat[|m.latches|];
    var cnt;
    out, cnt := WriteLatches(out, m, count, latchHelper);
    out := WriteAnds(out, m, count);
    out := WriteOutputs(out, m, count);
    out := WriteInverters(out, m, count, latchHelper[..cnt]);
  }

  /** `aigtoblif` once the AIG is read: the whole BLIF text; both constants are always required. */
  method WriteBlif(m: Aiger, modelName: string) returns (out: string)
    ensures out == BlifText(m, modelName, SetupCountOf(m))
  {
    out := WriteSections(m, modelName);
    var requireConst0 := true;
    var requireConst1 := true;
    if requireConst0 {
      out := out + ".names c0\n";
    }
    if requireConst1 {
      out := out + ".names c1\n" + "1\n";
    }
    out := out + ".end\n";
  }

  /** `aigtoblif`: a read error gives 1 and no text; otherwise 0 and the BLIF text. */
  method AigerToBlif(read: Result<Aiger>, modelName: string) returns (res: int, out: string)
    ensures read.Err? ==> res == 1 && out == ""
    ensures read.Ok? ==> res == 0 && out == BlifText(read.value, modelName, SetupCountOf(read.value))
  {
    if read.Err? {
      res := 1;
      out := "";
    } else {
      res := 0;
      out := WriteBlif(read.value, modelName);
    }
  }
}
