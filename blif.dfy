/**
 * The BLIF text of a synthesised circuit and the rewrite that makes the
 * latch of the initial automaton state read 1 in the first cycle.
 *
 * The two regular expressions of the rewrite are modelled as the
 * ECMAScript grammar of `std::regex` matches them: the leftmost match
 * wins, `(.*)` is greedy, and `.` matches every character except a line
 * terminator, so a match never leaves its line.
 */
module Blif {
  import opened Wrappers
  import opened Text

  /** The characters a regular-expression `.` does not match. */
  predicate IsTerminator(c: char)
  {
    c == '\n' || c == '\r'
  }

  predicate OnOneLine(s: string)
  {
    forall i :: 0 <= i < |s| ==> !IsTerminator(s[i])
  }

  /** Where the first line of `s` ends: its first terminator, or the end of `s`. */
  function LineEnd(s: string): (e: nat)
    ensures e <= |s| && forall i :: 0 <= i < e ==> !IsTerminator(s[i])
    ensures e < |s| ==> IsTerminator(s[e])
  {
    if s == [] || IsTerminator(s[0]) then 0 else 1 + LineEnd(s[1..])
  }

  lemma LineEndOf(line: string, rest: string)
    requires OnOneLine(line)
    requires rest == [] || IsTerminator(rest[0])
    ensures LineEnd(line + rest) == |line|
  {
    var s := line + rest;
    assert forall i :: 0 <= i < |line| ==> s[i] == line[i];
    if |line| < |s| {
      assert s[|line|] == rest[0];
    }
  }

  lemma OnOneLineConcat(x: string, y: string)
    requires OnOneLine(x) && OnOneLine(y)
    ensures OnOneLine(x + y)
  {
    forall i | 0 <= i < |x + y| ensures !IsTerminator((x + y)[i]) {
      if i >= |x| {
        assert (x + y)[i] == y[i - |x|];
      }
    }
  }

  /** `.latch ` with its dot read as a wildcard, as both patterns spell it. */
  predicate LatchHead(s: string)
  {
    |s| >= 7 && !IsTerminator(s[0]) && s[1..7] == "latch "
  }

  // ---------------------------------------------------------------------
  // The pattern `.latch (.*) (L) (.*)` and its replacement `.latch $1 LTmp $3`.

  /** `name` between two spaces, the first of them at `k`. */
  predicate SepAt(s: string, name: string, k: nat)
  {
    k + |name| + 2 <= |s| && s[k] == ' ' && s[k + 1..k + |name| + 1] == name && s[k + |name| + 1] == ' '
  }

  /** The last `k` in `[7, hi]` where the separator occurs: the choice of the greedy first group. */
  function LastSep(s: string, name: string, hi: int): (r: Option<nat>)
    decreases hi
    ensures r.Some? ==> 7 <= r.value <= hi && SepAt(s, name, r.value)
    ensures r.Some? ==> forall k: nat :: r.value < k <= hi ==> !SepAt(s, name, k)
    ensures r.None? ==> forall k: nat :: 7 <= k <= hi ==> !SepAt(s, name, k)
  {
    if hi < 7 then None
    else if SepAt(s, name, hi) then Some(hi)
    else LastSep(s, name, hi - 1)
  }

  /**
   * A match of `.latch (.*) (name) (.*)` at the head of `s`: the position of
   * the space before `name`, and the end of the match, which is the end of
   * the line because the last group is greedy.
   */
  function RenameMatch(s: string, name: string): (r: Option<(nat, nat)>)
    ensures r.Some? ==> 7 <= r.value.0 && r.value.0 + |name| + 2 <= r.value.1 && r.value.1 == LineEnd(s)
  {
    if !LatchHead(s) then None
    else
      var e := LineEnd(s);
      match LastSep(s, name, e - |name| - 2)
      case None => None
      case Some(k) => Some((k, e))
  }

  /** `std::regex_replace(s, ".latch (.*) (name) (.*)", ".latch $1 nameTmp $3")`. */
  function RenameLatch(s: string, name: string): string
    decreases |s|
  {
    if s == [] then []
    else
      match RenameMatch(s, name)
      case Some((k, e)) =>
        ".latch " + s[7..k] + " " + name + "Tmp " + s[k + |name| + 2..e] + RenameLatch(s[e..], name)
      case None => [s[0]] + RenameLatch(s[1..], name)
  }

  /** The match at the head of a latch line is the last separator, when no space follows it but the one after `name`. */
  lemma RenameMatchAt(s: string, name: string, k0: nat)
    requires LatchHead(s) && 7 <= k0 && SepAt(s, name, k0) && IsWord(name)
    requires k0 + |name| + 2 <= LineEnd(s)
    requires forall i :: k0 + |name| + 2 <= i < LineEnd(s) ==> s[i] != ' '
    ensures RenameMatch(s, name) == Some((k0, LineEnd(s)))
  {
    var e := LineEnd(s);
    forall k: nat | k0 < k && k + |name| + 2 <= e
      ensures !SepAt(s, name, k)
    {
      if k <= k0 + |name| {
        assert s[k] == s[k0 + 1..k0 + |name| + 1][k - k0 - 1] == name[k - k0 - 1];
      } else {
        assert s[k + |name| + 1] != ' ';
      }
    }
  }

  /** At a match, the matched line is rewritten and the search resumes at the line's end. */
  lemma RenameAtMatch(s: string, name: string, k: nat, e: nat, x: string, y: string, rest: string)
    requires s != [] && RenameMatch(s, name) == Some((k, e))
    requires x == s[7..k] && y == s[k + |name| + 2..e] && rest == s[e..]
    ensures RenameLatch(s, name) == ".latch " + x + " " + name + "Tmp " + y + RenameLatch(rest, name)
  {
  }

  /** The match at the head of a latch line whose output field is `name`. */
  lemma LatchLineMatch(a: string, name: string, b: string, rest: string)
    requires OnOneLine(a) && OnOneLine(name) && OnOneLine(b)
    requires IsWord(name) && ' ' !in b
    requires rest == [] || IsTerminator(rest[0])
    ensures RenameMatch(".latch " + a + " " + name + " " + b + rest, name)
         == Some((7 + |a|, |".latch " + a + " " + name + " " + b|))
  {
    var head := ".latch " + a + " " + name + " ";
    var line := head + b;
    var s := line + rest;
    var k0 := 7 + |a|;
    OnOneLineConcat(".latch " + a, " " + name);
    OnOneLineConcat(".latch " + a + " " + name, " ");
    OnOneLineConcat(head, b);
    LineEndOf(line, rest);
    assert s[1..7] == "latch ";
    assert s[k0 + 1..k0 + |name| + 1] == name;
    forall i | k0 + |name| + 2 <= i < |line| ensures s[i] != ' ' {
      assert s[i] == b[i - |head|];
    }
    RenameMatchAt(s, name, k0);
  }

  /** The fields of a latch line, by position. */
  lemma LatchLineParts(a: string, name: string, b: string, rest: string)
    ensures var s := ".latch " + a + " " + name + " " + b + rest;
      var k0 := 7 + |a|;
      var e := |".latch " + a + " " + name + " " + b|;
      s[7..k0] == a && s[k0 + |name| + 2..e] == b && s[e..] == rest && s != []
  {
    var line := ".latch " + a + " " + name + " " + b;
    var s := line + rest;
    var k0 := 7 + |a|;
    assert s[..|line|] == line;
    assert line[7..k0] == a;
    assert line[k0 + |name| + 2..] == b;
  }

  /** A latch line whose output field is `name` gets `nameTmp` there, its other fields kept. */
  lemma RenameLatchLine(a: string, name: string, b: string, rest: string)
    requires OnOneLine(a) && OnOneLine(name) && OnOneLine(b)
    requires IsWord(name) && ' ' !in b
    requires rest == [] || IsTerminator(rest[0])
    ensures RenameLatch(".latch " + a + " " + name + " " + b + rest, name)
         == ".latch " + a + " " + name + "Tmp " + b + RenameLatch(rest, name)
  {
    LatchLineMatch(a, name, b, rest);
    LatchLineParts(a, name, b, rest);
    RenameAtMatch(".latch " + a + " " + name + " " + b + rest, name, 7 + |a|,
      |".latch " + a + " " + name + " " + b|, a, b, rest);
  }

  /** No separator around `name` starts at or after position 7 of `line`. */
  predicate NoSep(line: string, name: string)
  {
    forall k: nat :: 7 <= k && k + |name| + 2 <= |line| ==> !SepAt(line, name, k)
  }

  lemma RenameSkip(s: string, name: string, t: string)
    requires s != [] && RenameMatch(s, name).None? && t == s[1..]
    ensures RenameLatch(s, name) == [s[0]] + RenameLatch(t, name)
  {
  }

  lemma NoMatchOnLine(line: string, name: string, rest: string)
    requires OnOneLine(line) && NoSep(line, name)
    requires rest == [] || IsTerminator(rest[0])
    ensures RenameMatch(line + rest, name).None?
  {
    var s := line + rest;
    LineEndOf(line, rest);
    forall k: nat | 7 <= k && k + |name| + 2 <= |line|
      ensures !SepAt(s, name, k)
    {
      assert !SepAt(line, name, k);
      assert s[k + 1..k + |name| + 1] == line[k + 1..k + |name| + 1];
    }
  }

  lemma NoSepTail(line: string, name: string)
    requires line != [] && NoSep(line, name)
    ensures NoSep(line[1..], name)
  {
    forall k: nat | 7 <= k && k + |name| + 2 <= |line[1..]|
      ensures !SepAt(line[1..], name, k)
    {
      assert !SepAt(line, name, k + 1);
      assert line[1..][k + 1..k + |name| + 1] == line[k + 2..k + |name| + 2];
    }
  }

  /** A line without the separator after its head is copied unchanged. */
  lemma {:induction false} RenameKeepsLine(line: string, name: string, rest: string)
    requires OnOneLine(line) && NoSep(line, name)
    requires rest == [] || IsTerminator(rest[0])
    ensures RenameLatch(line + rest, name) == line + RenameLatch(rest, name)
  {
    if line != [] {
      var t := line[1..];
      RenameSkipLine(line, name, rest);
      NoSepTail(line, name);
      RenameKeepsLine(t, name, rest);
      ConsConcat(line, RenameLatch(rest, name));
    } else {
      assert line + rest == rest;
    }
  }

  /** The head of a line that does not match is copied and the search moves one place on. */
  lemma RenameSkipLine(line: string, name: string, rest: string)
    requires OnOneLine(line) && NoSep(line, name) && line != []
    requires rest == [] || IsTerminator(rest[0])
    ensures RenameLatch(line + rest, name) == [line[0]] + RenameLatch(line[1..] + rest, name)
  {
    var s := line + rest;
    NoMatchOnLine(line, name, rest);
    assert s[1..] == line[1..] + rest;
    RenameSkip(s, name, line[1..] + rest);
  }

  lemma ConsConcat(line: string, r: string)
    requires line != []
    ensures [line[0]] + (line[1..] + r) == line + r
  {
    assert line == [line[0]] + line[1..];
  }

  /** A line terminator is copied unchanged. */
  lemma RenameKeepsTerminator(c: char, name: string, rest: string)
    requires IsTerminator(c)
    ensures RenameLatch([c] + rest, name) == [c] + RenameLatch(rest, name)
  {
    assert ([c] + rest)[1..] == rest;
  }

  // ---------------------------------------------------------------------
  // The pattern `.latch .* ([a-zA-Z]+N) .*` of `find_latch_name_by_num`.

  predicate IsLetter(c: char)
  {
    'a' <= c <= 'z' || 'A' <= c <= 'Z'
  }

  /** The length of the leading run of letters of `s`. */
  function LetterRun(s: string): (n: nat)
    ensures n <= |s| && (forall i :: 0 <= i < n ==> IsLetter(s[i]))
    ensures n < |s| ==> !IsLetter(s[n])
  {
    if s != [] && IsLetter(s[0]) then 1 + LetterRun(s[1..]) else 0
  }

  /** Letters followed by the decimal number `num`, as the group `([a-zA-Z]+num)` matches. */
  predicate IsNumberedName(g: string, num: string)
  {
    |g| > |num| && g[|g| - |num|..] == num && forall i :: 0 <= i < |g| - |num| ==> IsLetter(g[i])
  }

  /**
   * The group `([a-zA-Z]+N)` between two spaces, the first of them at `k`;
   * since `N` begins with a digit, the letters are the whole run of letters
   * after the space.
   */
  function NumberedAt(s: string, num: string, k: nat): (r: Option<string>)
    requires num != [] && IsDigit(num[0])
    ensures r.Some? ==> IsNumberedName(r.value, num) && k + |r.value| + 1 < |s|
    ensures r.Some? ==> s[k] == ' ' && s[k + 1..k + |r.value| + 1] == r.value && s[k + |r.value| + 1] == ' '
  {
    if k >= |s| || s[k] != ' ' then None
    else
      var j := k + 1 + LetterRun(s[k + 1..]);
      if j == k + 1 || j + |num| >= |s| || s[j..j + |num|] != num || s[j + |num|] != ' ' then None
      else
        var g := s[k + 1..j + |num|];
        assert forall i :: 0 <= i < |g| - |num| ==> g[i] == s[k + 1..][i];
        assert g[|g| - |num|..] == s[j..j + |num|];
        Some(g)
  }

  /** The group of the largest `k` in `[7, hi]` where the group matches. */
  function LastNumbered(s: string, num: string, hi: int): (r: Option<string>)
    requires num != [] && IsDigit(num[0])
    decreases hi
    ensures r.Some? ==> IsNumberedName(r.value, num)
  {
    if hi < 7 then None
    else if NumberedAt(s, num, hi).Some? then NumberedAt(s, num, hi)
    else LastNumbered(s, num, hi - 1)
  }

  /**
   * The group of `.latch .* ([a-zA-Z]+num) .*` matched at the head of `s`,
   * if any; the match does not leave the first line.
   */
  function NumberedMatch(s: string, num: string): (r: Option<string>)
    requires num != [] && IsDigit(num[0])
  {
    if !LatchHead(s) then None else LastNumbered(s[..LineEnd(s)], num, LineEnd(s) - 1)
  }

  /** `std::regex_search`: the group of the leftmost match at or after `i`. */
  function SearchNumbered(s: string, num: string, i: nat): (r: Option<string>)
    requires num != [] && IsDigit(num[0])
    decreases |s| - i
    ensures r.Some? ==> IsNumberedName(r.value, num)
  {
    if i >= |s| then None
    else if NumberedMatch(s[i..], num).Some? then NumberedMatch(s[i..], num)
    else SearchNumbered(s, num, i + 1)
  }

  lemma {:induction false} LetterRunPrefix(s: string, n: nat)
    requires n <= |s| && (forall i :: 0 <= i < n ==> IsLetter(s[i]))
    requires n < |s| ==> !IsLetter(s[n])
    ensures LetterRun(s) == n
  {
    if n > 0 {
      LetterRunPrefix(s[1..], n - 1);
    }
  }

  /** The descending search stops at `k0` when nothing above it matches. */
  lemma {:induction false} LastNumberedFrom(s: string, num: string, hi: int, k0: nat)
    requires num != [] && IsDigit(num[0])
    requires 7 <= k0 <= hi && NumberedAt(s, num, k0).Some?
    requires forall k: nat :: k0 < k <= hi ==> NumberedAt(s, num, k).None?
    ensures LastNumbered(s, num, hi) == NumberedAt(s, num, k0)
  {
    if hi > k0 {
      LastNumberedFrom(s, num, hi - 1, k0);
    }
  }

  lemma NumberedAtField(t: string, num: string, k0: nat, wl: nat)
    requires num != [] && IsDigit(num[0]) && wl > 0
    requires k0 + 1 + wl + |num| < |t|
    requires t[k0] == ' ' && forall i :: k0 + 1 <= i < k0 + 1 + wl ==> IsLetter(t[i])
    requires t[k0 + 1 + wl..k0 + 1 + wl + |num|] == num && t[k0 + 1 + wl + |num|] == ' '
    ensures NumberedAt(t, num, k0) == Some(t[k0 + 1..k0 + 1 + wl + |num|])
  {
    var u := t[k0 + 1..];
    assert u[wl] == num[0];
    LetterRunPrefix(u, wl);
  }

  lemma NoLaterNumbered(t: string, num: string, k0: nat, m: nat)
    requires num != [] && IsDigit(num[0])
    requires forall i :: k0 < i < |t| && i != m ==> t[i] != ' '
    ensures forall k: nat :: k0 < k < |t| ==> NumberedAt(t, num, k).None?
  {
  }

  /**
   * A latch line whose field after the first is letters followed by `n`
   * names that latch, when no match starts in the text `pre` before it.
   */
  lemma NumberedLine(pre: string, a: string, w: string, n: nat, b: string, rest: string)
    requires OnOneLine(a) && OnOneLine(b) && ' ' !in b
    requires w != [] && forall i :: 0 <= i < |w| ==> IsLetter(w[i])
    requires rest == [] || IsTerminator(rest[0])
    requires NoMatchBefore(pre + (".latch " + a + " " + w + NatToString(n) + " " + b + rest), NatToString(n), |pre|)
    ensures SearchNumbered(pre + (".latch " + a + " " + w + NatToString(n) + " " + b + rest), NatToString(n), 0)
         == Some(w + NatToString(n))
  {
    var num := NatToString(n);
    var t := ".latch " + a + " " + w + num + " " + b + rest;
    NumberedLineAtHead(a, w, n, b, rest);
    SearchAfter(pre, t, num);
  }

  /** The match at the head of a latch line whose field after the first is letters followed by `n`. */
  lemma NumberedLineAtHead(a: string, w: string, n: nat, b: string, rest: string)
    requires OnOneLine(a) && OnOneLine(b) && ' ' !in b
    requires w != [] && forall i :: 0 <= i < |w| ==> IsLetter(w[i])
    requires rest == [] || IsTerminator(rest[0])
    ensures NumberedMatch(".latch " + a + " " + w + NatToString(n) + " " + b + rest, NatToString(n))
         == Some(w + NatToString(n))
  {
    var num := NatToString(n);
    var p1 := ".latch " + a + " ";
    assert OnOneLine(p1) by {
      OnOneLineConcat(".latch ", a);
      OnOneLineConcat(".latch " + a, " ");
    }
    assert p1[1..7] == "latch ";
    var line := p1 + w + num + " " + b;
    NumberedLineShape(p1, w, num, b);
    var g := NumberedMatchOnLine(line, rest, num, |p1| - 1, |w|);
    assert g == w + num;
    assert line + rest == ".latch " + a + " " + w + num + " " + b + rest;
  }

  /** A match at the end of a prefix where no match starts is what the search finds. */
  lemma SearchAfter(pre: string, t: string, num: string)
    requires num != [] && IsDigit(num[0]) && NumberedMatch(t, num).Some?
    requires NoMatchBefore(pre + t, num, |pre|)
    ensures SearchNumbered(pre + t, num, 0) == NumberedMatch(t, num)
  {
    assert (pre + t)[|pre|..] == t;
    SearchSkips(pre + t, num, 0, |pre|);
  }

  /**
   * `line` is a latch line with a space at `k0`, then `wl` letters, then
   * `num`, then a space, and no other space after `k0`.
   */
  predicate NumberedLineAt(line: string, num: string, k0: nat, wl: nat)
  {
    && OnOneLine(line) && LatchHead(line) && 7 <= k0 && wl > 0
    && k0 + 1 + wl + |num| < |line|
    && line[k0] == ' ' && (forall i :: k0 + 1 <= i < k0 + 1 + wl ==> IsLetter(line[i]))
    && line[k0 + 1 + wl..k0 + 1 + wl + |num|] == num && line[k0 + 1 + wl + |num|] == ' '
    && (forall i :: k0 < i < |line| && i != k0 + 1 + wl + |num| ==> line[i] != ' ')
  }

  lemma NumberedMatchOnLine(line: string, rest: string, num: string, k0: nat, wl: nat) returns (g: string)
    requires num != [] && IsDigit(num[0])
    requires NumberedLineAt(line, num, k0, wl)
    requires rest == [] || IsTerminator(rest[0])
    ensures g == line[k0 + 1..k0 + 1 + wl + |num|] && NumberedMatch(line + rest, num) == Some(g)
  {
    var s := line + rest;
    var m := k0 + 1 + wl + |num|;
    LineEndOf(line, rest);
    assert s[..|line|] == line;
    assert s[1..7] == line[1..7];
    NumberedAtField(line, num, k0, wl);
    NoLaterNumbered(line, num, k0, m);
    LastNumberedFrom(line, num, |line| - 1, k0);
    g := line[k0 + 1..m];
  }

  /** No match of the pattern starts before position `p` of `s`. */
  ghost predicate NoMatchBefore(s: string, num: string, p: nat)
    requires num != [] && IsDigit(num[0]) && p <= |s|
  {
    forall j :: 0 <= j < p ==> NumberedMatch(s[j..], num).None?
  }

  /** The search passes over positions where no match starts. */
  lemma {:induction false} SearchSkips(s: string, num: string, i: nat, p: nat)
    requires num != [] && IsDigit(num[0])
    requires i <= p <= |s| && forall j :: i <= j < p ==> NumberedMatch(s[j..], num).None?
    ensures SearchNumbered(s, num, i) == SearchNumbered(s, num, p)
    decreases p - i
  {
    if i < p {
      SearchSkips(s, num, i + 1, p);
    }
  }

  /**
   * `SearchNumbered` finds nothing exactly when no position matches, and
   * otherwise the group of the leftmost position that matches.
   */
  lemma {:induction false} SearchNumberedLeftmost(s: string, num: string, i: nat)
    requires num != [] && IsDigit(num[0]) && i <= |s|
    ensures SearchNumbered(s, num, i).None? <==> forall j :: i <= j < |s| ==> NumberedMatch(s[j..], num).None?
    ensures SearchNumbered(s, num, i).Some? ==>
      exists j :: i <= j < |s| && NumberedMatch(s[j..], num) == SearchNumbered(s, num, i) &&
        forall k :: i <= k < j ==> NumberedMatch(s[k..], num).None?
    decreases |s| - i
  {
    if i < |s| {
      if NumberedMatch(s[i..], num).Some? {
        assert i <= i < |s| && NumberedMatch(s[i..], num) == SearchNumbered(s, num, i);
      } else {
        SearchNumberedLeftmost(s, num, i + 1);
        if SearchNumbered(s, num, i).Some? {
          var j :| i + 1 <= j < |s| && NumberedMatch(s[j..], num) == SearchNumbered(s, num, i + 1) &&
            forall k :: i + 1 <= k < j ==> NumberedMatch(s[k..], num).None?;
          assert forall k :: i <= k < j ==> NumberedMatch(s[k..], num).None?;
        }
      }
    }
  }

  /** The positions of the fields of a latch line. */
  lemma NumberedLineShape(p1: string, w: string, num: string, b: string)
    requires |p1| >= 8 && p1[1..7] == "latch " && p1[0] == '.' && p1[|p1| - 1] == ' ' && OnOneLine(p1)
    requires OnOneLine(b) && ' ' !in b
    requires w != [] && forall i :: 0 <= i < |w| ==> IsLetter(w[i])
    requires forall i :: 0 <= i < |num| ==> IsDigit(num[i])
    ensures NumberedLineAt(p1 + w + num + " " + b, num, |p1| - 1, |w|)
    ensures (p1 + w + num + " " + b)[|p1|..|p1| + |w| + |num|] == w + num
  {
    var p2 := p1 + w;
    var p3 := p2 + num;
    var line := p3 + " " + b;
    var m := |p3|;
    assert OnOneLine(w) && OnOneLine(num);
    OnOneLineConcat(p1, w);
    OnOneLineConcat(p2, num);
    OnOneLineConcat(p3, " ");
    OnOneLineConcat(p3 + " ", b);
    assert line[1..7] == p1[1..7];
    forall i | |p1| <= i < |line| && i != m ensures line[i] != ' ' {
      if i < |p2| {
        assert line[i] == w[i - |p1|];
      } else if i < m {
        assert line[i] == num[i - |p2|];
      } else {
        assert line[i] == b[i - m - 1];
      }
    }
    assert line[|p2|..m] == num;
    assert line[|p1|..m] == w + num;
  }

  // ---------------------------------------------------------------------
  // The `.names` covers of BLIF and the first-cycle selector.

  /** A cube: '1' wants its input high, '0' wants it low, '-' takes either. */
  predicate CubeMatches(cube: string, ins: seq<bool>)
  {
    |cube| == |ins| &&
    forall i :: 0 <= i < |cube| ==> (cube[i] == '1' ==> ins[i]) && (cube[i] == '0' ==> !ins[i])
  }

  /** The output of a `.names` table whose rows all give 1. */
  predicate CoverOutput(cubes: seq<string>, ins: seq<bool>)
  {
    exists c :: c in cubes && CubeMatches(c, ins)
  }

  /** The rows of a cover, each followed by the output value 1. */
  function CoverText(cubes: seq<string>): string
  {
    if cubes == [] then "" else cubes[0] + " 1\r\n" + CoverText(cubes[1..])
  }

  /** The cover of the selector, over the inputs `nameTmp` and the auxiliary latch. */
  const SelectorCubes: seq<string> := ["-0", "11"]

  /** The selector outputs 1 while the auxiliary latch is 0, and `nameTmp` once it is 1. */
  lemma SelectorValue(tmp: bool, aux: bool)
    ensures CoverOutput(SelectorCubes, [tmp, aux]) == (!aux || tmp)
  {
    if !aux {
      assert CubeMatches("-0", [tmp, aux]);
    } else if tmp {
      assert CubeMatches("11", [tmp, aux]);
    } else {
      assert !CubeMatches("-0", [tmp, aux]) by { assert "-0"[1] == '0'; }
      assert !CubeMatches("11", [tmp, aux]) by { assert "11"[0] == '1'; }
    }
  }

  /** The value in cycle `t` of a latch with initial value `init` and next-state `next`. */
  function LatchValue(init: bool, next: nat -> bool, t: nat): bool
  {
    if t == 0 then init else next(t - 1)
  }

  /**
   * With the auxiliary latch `.latch c1 lltmpinitL 0`, the renamed latch
   * `LTmp` and the selector, the net `L` reads 1 in the first cycle and
   * follows `LTmp` afterwards.
   */
  lemma InitialCycleForced(tmp: nat -> bool, t: nat)
    ensures CoverOutput(SelectorCubes, [tmp(t), LatchValue(false, _ => true, t)]) == (t == 0 || tmp(t))
  {
    SelectorValue(tmp(t), LatchValue(false, _ => true, t));
  }

  // ---------------------------------------------------------------------
  // The steps of `init_latch_to_one`.

  /** The auxiliary latch: input the constant 1, initial value 0. */
  function AuxLatch(name: string): string
  {
    ".latch c1 lltmpinit" + name + " 0"
  }

  /** The auxiliary latch line survives the renaming of the latch `name`. */
  lemma AuxLatchKept(name: string, rest: string)
    requires IsWord(name) && OnOneLine(name)
    requires rest == [] || IsTerminator(rest[0])
    ensures RenameLatch(AuxLatch(name) + rest, name) == AuxLatch(name) + RenameLatch(rest, name)
  {
    var line := AuxLatch(name);
    assert |line| == 21 + |name|;
    assert OnOneLine(line) by {
      forall i | 0 <= i < |line| ensures !IsTerminator(line[i]) {
        if 19 <= i < 19 + |name| {
          assert line[i] == name[i - 19];
        }
      }
    }
    forall k: nat | 7 <= k && k + |name| + 2 <= |line|
      ensures !SepAt(line, name, k)
    {
      if k == 9 {
        var j := k + |name| + 1;
        if j >= 19 {
          assert line[j] == name[j - 19];
        }
      } else if k >= 19 {
        assert line[k] == name[k - 19];
      }
    }
    RenameKeepsLine(line, name, rest);
  }

  /** The selector `.names nameTmp lltmpinitname name` with its cover and a blank line. */
  function SelectorBlock(name: string): string
  {
    ".names " + name + "Tmp lltmpinit" + name + " " + name + "\r\n" + CoverText(SelectorCubes) + "\r\n"
  }

  lemma SelectorBlockText(name: string)
    ensures SelectorBlock(name)
         == ".names " + (name + "Tmp") + " " + ("lltmpinit" + name) + " " + name + "\r\n" + "-0 1\r\n" + "11 1\r\n\r\n"
  {
    assert CoverText(SelectorCubes) == "-0 1\r\n" + "11 1\r\n";
  }

  /** The text with its first `.end` erased. */
  function EraseFirstEnd(s: string): (r: string)
    ensures Find(s, ".end").None? ==> r == s
    ensures Find(s, ".end").Some? ==>
      var i := Find(s, ".end").value;
      |r| + 4 == |s| && s == r[..i] + ".end" + r[i..]
  {
    match Find(s, ".end")
    case None => s
    case Some(i) =>
      var r := s[..i] + s[i + 4..];
      assert r[..i] == s[..i] && r[i..] == s[i + 4..];
      assert s[i..i + 4] == ".end";
      Text.CutTwice(s, i, i + 4);
      r
  }

  /** The text with the constant-1 table appended unless one is there. */
  function AddConstOne(s: string): (r: string)
    ensures Contains(r, ".names c1")
    ensures Contains(s, ".names c1") ==> r == s
    ensures !Contains(s, ".names c1") ==> |s| < |r| && r[..|s|] == s
  {
    if Contains(s, ".names c1") then s
    else
      var r := s + ".names c1\r\n1\r\n\r\n";
      assert r[|s|..|s| + 9] == ".names c1";
      ContainsAt(r, ".names c1", |s|);
      r
  }

  /** The text with the auxiliary latch inserted before its first `.latch`. */
  function InsertAuxLatch(s: string, name: string): (r: string)
    requires Contains(s, ".latch")
    ensures var i := Find(s, ".latch").value;
      r == s[..i] + (AuxLatch(name) + "\r\n\r\n") + s[i..] && !Contains(s[..i], ".latch")
  {
    var i := Find(s, ".latch").value;
    FirstOccurrence(s, ".latch");
    s[..i] + (AuxLatch(name) + "\r\n\r\n") + s[i..]
  }

  lemma AuxLatchText(name: string)
    ensures AuxLatch(name) + "\r\n\r\n" == ".latch c1 " + ("lltmpinit" + name) + " 0\r\n\r\n"
  {
  }

  /** Nothing before the first occurrence of `sub` holds `sub`. */
  lemma FirstOccurrence(s: string, sub: string)
    requires sub != [] && Contains(s, sub)
    ensures !Contains(s[..Find(s, sub).value], sub)
  {
    var i := Find(s, sub).value;
    if Contains(s[..i], sub) {
      var j := Find(s[..i], sub).value;
      assert OccursAt(s[..i], sub, j);
      assert j + |sub| <= i;
      assert s[j..j + |sub|] == s[..i][j..j + |sub|] == sub;
      assert OccursAt(s, sub, j);
      assert false;
    }
  }

  /** Some position starts a match of `.latch (.*) (name) (.*)`. */
  predicate HasRenameMatch(s: string, name: string)
  {
    exists i :: 0 <= i < |s| && RenameMatch(s[i..], name).Some?
  }

  /** The BLIF text before the renaming step. */
  function PrepareLatches(s: string, name: string): string
    requires Contains(AddConstOne(EraseFirstEnd(s)), ".latch")
  {
    InsertAuxLatch(AddConstOne(EraseFirstEnd(s)), name)
  }

  /** A BLIF model held as text. */
  class BlifModel {
    const modelName: string
    var content: string

    /** The text is what converting the circuit produced; the conversion is not part of this model. */
    constructor(modelName: string, content: string)
      ensures this.modelName == modelName && this.content == content
    {
      this.modelName := modelName;
      this.content := content;
    }

    /**
     * Makes the latch `latchName` read 1 in the first cycle: the latch is
     * renamed to `latchNameTmp`, and `latchName` becomes the output of a
     * selector that reads 1 while a new latch initialised to 0 has not yet
     * loaded the constant 1.
     */
    method InitLatchToOne(latchName: string)
      requires Contains(AddConstOne(EraseFirstEnd(content)), ".latch")
      requires HasRenameMatch(PrepareLatches(content, latchName), latchName)
      modifies this
      ensures content == RenameLatch(PrepareLatches(old(content), latchName), latchName)
                         + SelectorBlock(latchName) + ".end\r\n\r\n"
    {
      var blif := content;
      var endInd := Find(blif, ".end");
      if endInd.Some? {
        blif := blif[..endInd.value] + blif[endInd.value + 4..];
      }
      assert blif == EraseFirstEnd(content);
      if !Contains(blif, ".names c1") {
        blif := blif + ".names c1\r\n1\r\n\r\n";
      }
      assert blif == AddConstOne(EraseFirstEnd(content));
      ghost var prepared := blif;
      var tmpLatch := "lltmpinit" + latchName;
      var latchInd := Find(blif, ".latch");
      AuxLatchText(latchName);
      blif := blif[..latchInd.value] + (".latch c1 " + tmpLatch + " 0\r\n\r\n") + blif[latchInd.value..];
      assert blif == InsertAuxLatch(prepared, latchName);
      assert blif == PrepareLatches(content, latchName);
      var latchTmp := latchName + "Tmp";
      blif := RenameLatch(blif, latchName);
      var selector := ".names " + latchTmp + " " + tmpLatch + " " + latchName
                      + "\r\n" + "-0 1\r\n" + "11 1\r\n\r\n";
      SelectorBlockText(latchName);
      blif := blif + selector;
      blif := blif + ".end\r\n\r\n";
      content := blif;
    }

    /**
     * The output field of the first latch line whose field after the first
     * is letters followed by `latchNum` in decimal, or "" when none is.
     */
    function FindLatchNameByNum(latchNum: nat): (r: string)
      reads this
      ensures r == "" || IsNumberedName(r, NatToString(latchNum))
      ensures var num := NatToString(latchNum);
        r == "" <==> forall j :: 0 <= j < |content| ==> NumberedMatch(content[j..], num).None?
      ensures var num := NatToString(latchNum);
        r != "" ==>
          exists j :: 0 <= j < |content| && NumberedMatch(content[j..], num) == Some(r) &&
            forall k :: 0 <= k < j ==> NumberedMatch(content[k..], num).None?
    {
      var num := NatToString(latchNum);
      SearchNumberedLeftmost(content, num, 0);
      match SearchNumbered(content, num, 0)
      case Some(g) => g
      case None => ""
    }
  }
}
