/**
 * Strings as the tool handles them: searching, joining, splitting into
 * fields, printing numbers, stripping and replacing.
 */
module Text {
  import opened Wrappers

  /** `sub` occurs in `s` starting at `i`. */
  predicate OccursAt(s: string, sub: string, i: nat)
  {
    i + |sub| <= |s| && s[i..i + |sub|] == sub
  }

  /** The first occurrence of `sub` in `s` at or after `from`. */
  function FindFrom(s: string, sub: string, from: nat): (r: Option<nat>)
    decreases |s| - from
    ensures r.Some? ==> from <= r.value && OccursAt(s, sub, r.value)
    ensures r.Some? ==> forall j: nat :: from <= j < r.value ==> !OccursAt(s, sub, j)
    ensures r.None? ==> forall j: nat :: from <= j ==> !OccursAt(s, sub, j)
  {
    if from + |sub| > |s| then None
    else if s[from..from + |sub|] == sub then Some(from)
    else FindFrom(s, sub, from + 1)
  }

  /** The first occurrence of `sub` in `s` (`std::string::find`). */
  function Find(s: string, sub: string): (r: Option<nat>)
    ensures r.Some? ==> OccursAt(s, sub, r.value) && forall j: nat :: j < r.value ==> !OccursAt(s, sub, j)
    ensures r.None? ==> forall j: nat :: !OccursAt(s, sub, j)
  {
    FindFrom(s, sub, 0)
  }

  /** Python's `sub in s`. */
  predicate Contains(s: string, sub: string)
  {
    Find(s, sub).Some?
  }

  lemma ContainsAt(s: string, sub: string, i: nat)
    requires OccursAt(s, sub, i)
    ensures Contains(s, sub)
  {
  }

  lemma ContainsConcat(a: string, sub: string, b: string)
    ensures Contains(a + sub + b, sub)
  {
    assert (a + sub + b)[|a|..|a| + |sub|] == sub;
    ContainsAt(a + sub + b, sub, |a|);
  }

  /** The elements of `xs` separated by `sep` (`boost::algorithm::join`). */
  function Join(xs: seq<string>, sep: string): string
  {
    if xs == [] then ""
    else if |xs| == 1 then xs[0]
    else Join(xs[..|xs| - 1], sep) + sep + xs[|xs| - 1]
  }

  // ---------------------------------------------------------------------
  // Whitespace-separated fields, as a BLIF reader sees a line.

  /** The length of the longest prefix of `s` without `stop`: a field when `stop` is a space, a line when it is a line end. */
  function SpanBefore(s: string, stop: char): (n: nat)
    ensures n <= |s|
  {
    if s == [] || s[0] == stop then 0 else 1 + SpanBefore(s[1..], stop)
  }

  /** The span ends at the first `stop`, or at the end of a text without one. */
  lemma {:induction false} SpanBeforeEnds(s: string, stop: char)
    ensures stop !in s[..SpanBefore(s, stop)]
    ensures SpanBefore(s, stop) < |s| ==> s[SpanBefore(s, stop)] == stop
  {
    if s != [] && s[0] != stop {
      SpanBeforeEnds(s[1..], stop);
      assert s[..SpanBefore(s, stop)] == [s[0]] + s[1..][..SpanBefore(s[1..], stop)];
    }
  }

  /** The space-separated fields of `s`; runs of spaces separate like one. */
  function Fields(s: string): seq<string>
    decreases |s|
  {
    if s == [] then []
    else if s[0] == ' ' then Fields(s[1..])
    else
      var n := SpanBefore(s, ' ');
      [s[..n]] + Fields(s[n..])
  }

  /** A nonempty word without spaces. */
  predicate IsWord(w: string)
  {
    w != [] && ' ' !in w
  }

  lemma {:induction false} SpanWord(w: string, rest: string)
    requires ' ' !in w
    ensures SpanBefore(w + " " + rest, ' ') == |w|
  {
    if w != [] {
      assert (w + " " + rest)[1..] == w[1..] + " " + rest;
      SpanWord(w[1..], rest);
    }
  }

  /** A word followed by a space is the first field. */
  lemma FieldsCons(w: string, rest: string)
    requires IsWord(w)
    ensures Fields(w + " " + rest) == [w] + Fields(rest)
  {
    var s := w + " " + rest;
    SpanWord(w, rest);
    assert s[..|w|] == w;
    assert s[|w|..] == " " + rest;
    assert (" " + rest)[1..] == rest;
  }

  lemma FieldsOfSpaces(rest: string)
    ensures Fields(" " + rest) == Fields(rest)
  {
    assert (" " + rest)[1..] == rest;
  }

  lemma {:induction false} SpanAppend(s: string, t: string)
    requires t == [] || t[0] == ' '
    ensures SpanBefore(s + t, ' ') == SpanBefore(s, ' ')
  {
    if s == [] {
      assert s + t == t;
    } else if s[0] != ' ' {
      assert (s + t)[1..] == s[1..] + t;
      SpanAppend(s[1..], t);
    }
  }

  /** A space between two texts separates their fields. */
  lemma {:induction false} FieldsSpaceConcat(x: string, y: string)
    ensures Fields(x + " " + y) == Fields(x) + Fields(y)
    decreases |x|
  {
    var s := x + " " + y;
    if x == [] {
      assert s == " " + y;
      FieldsOfSpaces(y);
    } else if x[0] == ' ' {
      assert s[1..] == x[1..] + " " + y;
      FieldsSpaceConcat(x[1..], y);
    } else {
      var n := SpanBefore(x, ' ');
      assert s == x + (" " + y);
      SpanAppend(x, " " + y);
      assert s[..n] == x[..n];
      assert s[n..] == x[n..] + " " + y;
      FieldsSpaceConcat(x[n..], y);
    }
  }

  lemma {:induction false} SpanAll(w: string)
    requires ' ' !in w
    ensures SpanBefore(w, ' ') == |w|
  {
    if w != [] {
      SpanAll(w[1..]);
    }
  }

  lemma FieldsWord(w: string)
    requires IsWord(w)
    ensures Fields(w) == [w]
  {
    SpanAll(w);
    assert w[..|w|] == w && w[|w|..] == [];
  }

  /** Joining words with single spaces and splitting into fields are inverse. */
  lemma {:induction false} FieldsJoin(xs: seq<string>)
    requires forall i :: 0 <= i < |xs| ==> IsWord(xs[i])
    ensures Fields(Join(xs, " ")) == xs
  {
    if |xs| == 1 {
      FieldsWord(xs[0]);
    } else if |xs| > 1 {
      JoinCons(xs, " ");
      FieldsCons(xs[0], Join(xs[1..], " "));
      FieldsJoin(xs[1..]);
    }
  }

  /** `Join` seen from the front. */
  lemma {:induction false} JoinCons(xs: seq<string>, sep: string)
    requires |xs| > 1
    ensures Join(xs, sep) == xs[0] + sep + Join(xs[1..], sep)
  {
    if |xs| > 2 {
      var init := xs[..|xs| - 1];
      JoinCons(init, sep);
      assert init[1..] == xs[1..][..|xs| - 2];
      assert init[0] == xs[0];
    } else {
      assert xs[1..] == [xs[1]];
    }
  }

  // ---------------------------------------------------------------------
  // Splitting at a separator character (`boost::split` with `is_any_of`).

  /** The fields of `s` between occurrences of `c`, empty fields included. */
  function Split(s: string, c: char): (r: seq<string>)
    ensures |r| >= 1
    decreases |s|
  {
    if c !in s then [s]
    else
      var i := IndexOf(s, c);
      [s[..i]] + Split(s[i + 1..], c)
  }

  function IndexOf(s: string, c: char): (i: nat)
    requires c in s
    ensures i < |s| && s[i] == c && c !in s[..i]
  {
    if s[0] == c then 0 else 1 + IndexOf(s[1..], c)
  }

  /** Splitting at `c` and joining with `c` give the text back, and no field holds `c`. */
  lemma SplitJoin(s: string, c: char)
    ensures Join(Split(s, c), [c]) == s
    ensures forall k :: 0 <= k < |Split(s, c)| ==> c !in Split(s, c)[k]
  {
    JoinSplit(s, c);
    SplitFieldsFree(s, c);
  }

  lemma {:induction false} JoinSplit(s: string, c: char)
    ensures Join(Split(s, c), [c]) == s
    decreases |s|
  {
    if c in s {
      var i := IndexOf(s, c);
      var head, tail := s[..i], s[i + 1..];
      var rest := Split(tail, c);
      JoinSplit(tail, c);
      JoinFront(head, rest, [c]);
      CutAt(s, i);
    }
  }

  /** A text is its part before `i`, its part from `i` to `j` and its part after `j`. */
  lemma CutTwice(s: string, i: nat, j: nat)
    requires i <= j <= |s|
    ensures s == s[..i] + s[i..j] + s[j..]
  {
  }

  /** A text is its part before `i`, its `i`th element and its part after. */
  lemma CutAt(s: string, i: nat)
    requires i < |s|
    ensures s == s[..i] + [s[i]] + s[i + 1..]
  {
  }

  /** Joining a head before a non-empty list puts the separator between them. */
  lemma JoinFront(head: string, rest: seq<string>, sep: string)
    requires |rest| >= 1
    ensures Join([head] + rest, sep) == head + sep + Join(rest, sep)
  {
    var xs := [head] + rest;
    JoinCons(xs, sep);
    assert xs[1..] == rest;
  }

  lemma {:induction false} SplitFieldsFree(s: string, c: char)
    ensures forall k :: 0 <= k < |Split(s, c)| ==> c !in Split(s, c)[k]
    decreases |s|
  {
    if c in s {
      var i := IndexOf(s, c);
      SplitFieldsFree(s[i + 1..], c);
      assert Split(s, c) == [s[..i]] + Split(s[i + 1..], c);
    }
  }

  // ---------------------------------------------------------------------
  // Numbers in decimal and in hexadecimal.

  function DigitChar(d: nat): char
    requires d < 16
  {
    "0123456789ABCDEF"[d]
  }

  predicate IsDigit(c: char)
  {
    '0' <= c <= '9'
  }

  /** `n` in base `b` without leading zeros (`%u` for 10, `%X` for 16). */
  function Digits(n: nat, b: nat): (r: string)
    requires b == 10 || b == 16
    ensures r != []
  {
    if n < b then [DigitChar(n)] else Digits(n / b, b) + [DigitChar(n % b)]
  }

  function NatToString(n: nat): (r: string)
    ensures r != [] && forall c :: c in r ==> IsDigit(c)
  {
    DecimalDigits(n);
    Digits(n, 10)
  }

  /** A signed decimal, as the stream prints an `int`. */
  function IntToString(i: int): (s: string)
    ensures s != []
    ensures i < 0 <==> s[0] == '-'
  {
    if i < 0 then "-" + NatToString(-i)
    else
      var s := NatToString(i);
      assert IsDigit(s[0]);
      s
  }

  lemma {:induction false} DecimalDigits(n: nat)
    ensures forall c :: c in Digits(n, 10) ==> IsDigit(c)
  {
    if n >= 10 {
      DecimalDigits(n / 10);
    }
  }

  function DigitValue(c: char): nat
    requires IsDigit(c)
  {
    (c as int - '0' as int) as nat
  }

  /** The value of a string of decimal digits. */
  function ParseNat(s: string): nat
    requires forall c :: c in s ==> IsDigit(c)
  {
    if s == [] then 0 else 10 * ParseNat(s[..|s| - 1]) + DigitValue(s[|s| - 1])
  }

  /** Printing a number in decimal and reading it back gives the number. */
  lemma {:induction false} ParseNatToString(n: nat)
    ensures ParseNat(NatToString(n)) == n
  {
    var s := Digits(n, 10);
    DecimalDigits(n);
    if n >= 10 {
      DecimalDigits(n / 10);
      assert s[..|s| - 1] == Digits(n / 10, 10);
      ParseNatToString(n / 10);
    }
  }

  /** Distinct numbers print differently. */
  lemma NatToStringInjective(m: nat, n: nat)
    requires NatToString(m) == NatToString(n)
    ensures m == n
  {
    ParseNatToString(m);
    ParseNatToString(n);
  }

  // ---------------------------------------------------------------------
  // Python's `str.strip()` and `str.replace(old, new)`.

  /** The ASCII characters Python treats as whitespace. */
  predicate IsPyWhitespace(c: char)
  {
    c == ' ' || 9 <= c as int <= 13 || 28 <= c as int <= 31
  }

  function StripLeft(s: string): (r: string)
    ensures |r| <= |s| && (r == [] || !IsPyWhitespace(r[0]))
  {
    if s != [] && IsPyWhitespace(s[0]) then StripLeft(s[1..]) else s
  }

  function StripRight(s: string): (r: string)
    ensures |r| <= |s| && (r == [] || !IsPyWhitespace(r[|r| - 1]))
  {
    if s != [] && IsPyWhitespace(s[|s| - 1]) then StripRight(s[..|s| - 1]) else s
  }

  function Strip(s: string): string
  {
    StripRight(StripLeft(s))
  }

  /** Stripping keeps a text that begins and ends with a non-blank, and strips the blanks around it. */
  lemma {:induction false} StripAround(pre: string, v: string, post: string)
    requires forall c :: c in pre ==> IsPyWhitespace(c)
    requires forall c :: c in post ==> IsPyWhitespace(c)
    requires v == [] || (!IsPyWhitespace(v[0]) && !IsPyWhitespace(v[|v| - 1]))
    requires v == [] ==> pre == []
    ensures Strip(pre + v + post) == v
  {
    if v == [] {
      assert pre + v + post == post;
      StripLeftBlank(post);
    } else {
      StripLeftPrefix(pre, v + post);
      assert pre + v + post == pre + (v + post);
      StripRightSuffix(v, post);
    }
  }

  lemma {:induction false} StripLeftBlank(s: string)
    requires forall c :: c in s ==> IsPyWhitespace(c)
    ensures StripLeft(s) == []
  {
    if s != [] {
      StripLeftBlank(s[1..]);
    }
  }

  lemma {:induction false} StripLeftPrefix(pre: string, s: string)
    requires forall c :: c in pre ==> IsPyWhitespace(c)
    requires s == [] || !IsPyWhitespace(s[0])
    ensures StripLeft(pre + s) == s
  {
    if pre != [] {
      assert (pre + s)[1..] == pre[1..] + s;
      StripLeftPrefix(pre[1..], s);
    }
  }

  lemma {:induction false} StripRightSuffix(s: string, post: string)
    requires forall c :: c in post ==> IsPyWhitespace(c)
    requires s == [] || !IsPyWhitespace(s[|s| - 1])
    ensures StripRight(s + post) == s
  {
    if post != [] {
      assert (s + post)[..|s + post| - 1] == s + post[..|post| - 1];
      StripRightSuffix(s, post[..|post| - 1]);
    } else {
      assert s + post == s;
    }
  }

  /** Every non-overlapping occurrence of `target`, from the left, replaced by `repl`. */
  function ReplaceAll(s: string, target: string, repl: string): string
    requires target != []
    decreases |s|
  {
    if s == [] then []
    else if OccursAt(s, target, 0) then repl + ReplaceAll(s[|target|..], target, repl)
    else [s[0]] + ReplaceAll(s[1..], target, repl)
  }

  /** A text without `target` is left unchanged. */
  lemma {:induction false} ReplaceAllAbsent(s: string, target: string, repl: string)
    requires target != [] && !Contains(s, target)
    ensures ReplaceAll(s, target, repl) == s
  {
    if s != [] {
      assert !OccursAt(s, target, 0);
      forall j: nat ensures !OccursAt(s[1..], target, j) {
        if OccursAt(s[1..], target, j) {
          assert s[1..][j..j + |target|] == s[j + 1..j + 1 + |target|];
          ContainsAt(s, target, j + 1);
        }
      }
      ReplaceAllAbsent(s[1..], target, repl);
    }
  }

  /** A leading `target` is replaced, then the rest is rewritten. */
  lemma ReplaceAllLeading(target: string, rest: string, repl: string)
    requires target != []
    ensures ReplaceAll(target + rest, target, repl) == repl + ReplaceAll(rest, target, repl)
  {
    assert (target + rest)[..|target|] == target;
    assert (target + rest)[|target|..] == rest;
  }
}
