/** The Python `str` operations the options compiler relies on: `isspace`,
    `rstrip`, `split`, `join`, `replace` and `splitlines(keepends=True)`.
    Strings are sequences of Unicode scalar values, as Python `str` is
    (Python allows lone surrogates, which are not modelled). */
module Strings {

  // ---------------------------------------------------------------------
  // Character classes
  // ---------------------------------------------------------------------

  /** Python's `str.isspace` for a single character: the characters whose
      bidirectional class is WS, B or S, or whose category is Zs. */
  predicate IsSpace(c: char) {
    var n := c as int;
    n == 0x20 || 0x09 <= n <= 0x0d || 0x1c <= n <= 0x1f || n == 0x85 || n == 0xa0
    || n == 0x1680 || 0x2000 <= n <= 0x200a || n == 0x2028 || n == 0x2029
    || n == 0x202f || n == 0x205f || n == 0x3000
  }

  /** The line boundaries recognised by Python's `str.splitlines`. */
  predicate IsLineBreak(c: char) {
    var n := c as int;
    0x0a <= n <= 0x0d || 0x1c <= n <= 0x1e || n == 0x85 || n == 0x2028 || n == 0x2029
  }

  predicate NoLineBreaks(s: string) {
    forall i :: 0 <= i < |s| ==> !IsLineBreak(s[i])
  }

  predicate AllSpace(s: string) {
    forall i :: 0 <= i < |s| ==> IsSpace(s[i])
  }

  /** `line.strip()` is non-empty */
  predicate NonBlank(s: string) {
    exists i :: 0 <= i < |s| && !IsSpace(s[i])
  }

  predicate EndsWithComma(s: string) {
    |s| > 0 && s[|s| - 1] == ','
  }

  /** `sub in s` */
  predicate Occurs(sub: string, s: string)
    decreases |s|
  {
    sub <= s || (|s| > 0 && Occurs(sub, s[1..]))
  }

  /** `c` appears nowhere in `s` (stated by index so that it can be checked
      against a literal) */
  predicate Lacks(s: string, c: char) {
    forall i :: 0 <= i < |s| ==> s[i] != c
  }

  // ---------------------------------------------------------------------
  // rstrip
  // ---------------------------------------------------------------------

  /** `s.rstrip()`: the longest prefix of `s` that does not end in whitespace */
  function Rstrip(s: string): (r: string)
    ensures r <= s
    ensures |r| == 0 || !IsSpace(r[|r| - 1])
    ensures AllSpace(s[|r|..])
  {
    if |s| == 0 || !IsSpace(s[|s| - 1]) then s else Rstrip(s[..|s| - 1])
  }

  /** The three properties in the contract of `Rstrip` determine its result. */
  lemma RstripUnique(s: string, t: string)
    requires t <= s
    requires |t| == 0 || !IsSpace(t[|t| - 1])
    requires AllSpace(s[|t|..])
    ensures t == Rstrip(s)
  {
  }

  // ---------------------------------------------------------------------
  // split / join / replace
  // ---------------------------------------------------------------------

  /** `sep.join(parts)` */
  function Join(sep: string, parts: seq<string>): string
    requires |parts| > 0
  {
    if |parts| == 1 then parts[0] else parts[0] + sep + Join(sep, parts[1..])
  }

  /** `s.split(sep)` for a non-empty separator: the pieces between the
      leftmost non-overlapping occurrences of `sep` */
  function Split(s: string, sep: string): (parts: seq<string>)
    requires |sep| > 0
    ensures |parts| > 0
    ensures parts[0] <= s
    decreases |s|
  {
    if |s| == 0 then [[]]
    else if sep <= s then [[]] + Split(s[|sep|..], sep)
    else
      var tail := Split(s[1..], sep);
      [[s[0]] + tail[0]] + tail[1..]
  }

  /** A character absent from the separator and from every piece is absent
      from their join. */
  lemma {:induction false} JoinLacks(sep: string, parts: seq<string>, c: char)
    requires |parts| > 0 && Lacks(sep, c)
    requires forall k :: 0 <= k < |parts| ==> Lacks(parts[k], c)
    ensures Lacks(Join(sep, parts), c)
    decreases |parts|
  {
    if |parts| > 1 {
      JoinLacks(sep, parts[1..], c);
      LacksAppend(parts[0] + sep, Join(sep, parts[1..]), c);
      LacksAppend(parts[0], sep, c);
    }
  }

  /** A character absent from a text is absent from every piece of its
      split. */
  lemma {:induction false} SplitLacks(s: string, sep: string, c: char)
    requires |sep| > 0 && Lacks(s, c)
    ensures forall k :: 0 <= k < |Split(s, sep)| ==> Lacks(Split(s, sep)[k], c)
    decreases |s|
  {
    if |s| > 0 {
      if sep <= s {
        LacksAppend(s[..|sep|], s[|sep|..], c);
        assert s == s[..|sep|] + s[|sep|..];
        SplitLacks(s[|sep|..], sep, c);
      } else {
        LacksAppend([s[0]], s[1..], c);
        assert s == [s[0]] + s[1..];
        SplitLacks(s[1..], sep, c);
        var tail := Split(s[1..], sep);
        LacksAppend([s[0]], tail[0], c);
      }
    }
  }

  lemma LacksAppend(a: string, b: string, c: char)
    ensures Lacks(a + b, c) <==> Lacks(a, c) && Lacks(b, c)
  {
    if Lacks(a, c) && Lacks(b, c) {
      forall i | 0 <= i < |a + b|
        ensures (a + b)[i] != c
      {
        if i >= |a| {
          assert (a + b)[i] == b[i - |a|];
        }
      }
    }
    if Lacks(a + b, c) {
      forall i | 0 <= i < |a|
        ensures a[i] != c
      {
        assert (a + b)[i] == a[i];
      }
      forall i | 0 <= i < |b|
        ensures b[i] != c
      {
        assert (a + b)[|a| + i] == b[i];
      }
    }
  }

  /** A suffix of text without `c` has no `c` either. */
  lemma LacksSuffix(s: string, k: nat, c: char)
    requires Lacks(s, c) && k <= |s|
    ensures Lacks(s[k..], c)
  {
    assert forall i :: 0 <= i < |s| - k ==> s[k..][i] == s[k + i];
  }

  /** A prefix keeps the absence of a character. */
  lemma LacksPrefix(a: string, s: string, c: char)
    requires a <= s && Lacks(s, c)
    ensures Lacks(a, c)
  {
  }

  /** `s.replace(pattern, replacement)` for a non-empty pattern: a single
      left-to-right pass that rewrites each leftmost non-overlapping
      occurrence. */
  function Replace(s: string, pattern: string, replacement: string): string
    requires |pattern| > 0
    decreases |s|
  {
    if |s| == 0 then []
    else if pattern <= s then replacement + Replace(s[|pattern|..], pattern, replacement)
    else [s[0]] + Replace(s[1..], pattern, replacement)
  }

  /** Splitting on `sep` loses nothing: joining the pieces with `sep` gives
      back the text. */
  lemma {:induction false} JoinSplit(s: string, sep: string)
    requires |sep| > 0
    ensures Join(sep, Split(s, sep)) == s
    decreases |s|
  {
    if |s| == 0 {
    } else if sep <= s {
      JoinSplit(s[|sep|..], sep);
      JoinAfterEmpty(sep, Split(s[|sep|..], sep));
      assert s == sep + s[|sep|..];
    } else {
      JoinSplit(s[1..], sep);
      JoinExtendFirst(sep, s[0], Split(s[1..], sep));
      assert s == [s[0]] + s[1..];
    }
  }

  /** An empty first piece contributes only the separator after it. */
  lemma JoinAfterEmpty(sep: string, parts: seq<string>)
    requires |parts| > 0
    ensures Join(sep, [[]] + parts) == sep + Join(sep, parts)
  {
    assert ([[]] + parts)[1..] == parts;
  }

  /** Growing the first piece by one character grows the join by it. */
  lemma JoinExtendFirst(sep: string, c: char, parts: seq<string>)
    requires |parts| > 0
    ensures Join(sep, [[c] + parts[0]] + parts[1..]) == [c] + Join(sep, parts)
  {
    var q := [[c] + parts[0]] + parts[1..];
    if |parts| > 1 {
      assert q[1..] == parts[1..];
    }
  }

  /** No piece of a split contains the separator. */
  lemma {:induction false} SplitPiecesLackSeparator(s: string, sep: string, k: nat)
    requires |sep| > 0
    requires k < |Split(s, sep)|
    ensures !Occurs(sep, Split(s, sep)[k])
    decreases |s|
  {
    if |s| == 0 {
    } else if sep <= s {
      if k > 0 {
        SplitPiecesLackSeparator(s[|sep|..], sep, k - 1);
      }
    } else {
      var tail := Split(s[1..], sep);
      if k > 0 {
        SplitPiecesLackSeparator(s[1..], sep, k);
      } else {
        SplitPiecesLackSeparator(s[1..], sep, 0);
        var p := [s[0]] + tail[0];
        assert p[1..] == tail[0];
      }
    }
  }

  /** `s.replace(p, r) == r.join(s.split(p))`: replacement rewrites exactly
      the separators that splitting finds and nothing else. */
  lemma {:induction false} ReplaceIsJoinOfSplit(s: string, pattern: string, replacement: string)
    requires |pattern| > 0
    ensures Replace(s, pattern, replacement) == Join(replacement, Split(s, pattern))
    decreases |s|
  {
    if |s| == 0 {
    } else if pattern <= s {
      ReplaceIsJoinOfSplit(s[|pattern|..], pattern, replacement);
      JoinAfterEmpty(replacement, Split(s[|pattern|..], pattern));
    } else {
      ReplaceIsJoinOfSplit(s[1..], pattern, replacement);
      JoinExtendFirst(replacement, s[0], Split(s[1..], pattern));
    }
  }

  /** Text in which the pattern does not occur is returned unchanged. */
  lemma {:induction false} ReplaceAbsent(s: string, pattern: string, replacement: string)
    requires |pattern| > 0
    requires !Occurs(pattern, s)
    ensures Replace(s, pattern, replacement) == s
    decreases |s|
  {
    if |s| > 0 {
      ReplaceAbsent(s[1..], pattern, replacement);
    }
  }

  /** A prefix without the pattern's first character is copied as it is. */
  lemma {:induction false} ReplaceSkip(a: string, b: string, pattern: string, replacement: string)
    requires |pattern| > 0
    requires Lacks(a, pattern[0])
    ensures Replace(a + b, pattern, replacement) == a + Replace(b, pattern, replacement)
    decreases |a|
  {
    if |a| == 0 {
      assert a + b == b;
    } else {
      var s := a + b;
      assert s[0] == a[0] && a[0] != pattern[0];
      assert !(pattern <= s);
      assert s[1..] == a[1..] + b;
      assert Lacks(a[1..], pattern[0]) by {
        LacksSuffix(a, 1, pattern[0]);
      }
      ReplaceSkip(a[1..], b, pattern, replacement);
    }
  }

  /** Replacing in a concatenation is replacing in each half, when no
      occurrence can straddle the join: the first character of `b` does not
      occur in the pattern after its first position. */
  lemma {:induction false} ReplaceConcat(a: string, b: string, pattern: string, replacement: string)
    requires |pattern| > 0
    requires |b| > 0 && Lacks(pattern[1..], b[0])
    ensures Replace(a + b, pattern, replacement)
         == Replace(a, pattern, replacement) + Replace(b, pattern, replacement)
    decreases |a|
  {
    if |a| == 0 {
      assert a + b == b;
    } else {
      var s := a + b;
      if pattern <= s {
        if |a| < |pattern| {
          PrefixReaches(a, b, pattern);
        }
        assert s[..|pattern|] == a[..|pattern|];
        assert pattern <= a;
        assert s[|pattern|..] == a[|pattern|..] + b;
        ReplaceConcat(a[|pattern|..], b, pattern, replacement);
      } else {
        assert !(pattern <= a);
        assert s[1..] == a[1..] + b;
        ReplaceConcat(a[1..], b, pattern, replacement);
      }
    }
  }

  lemma PrefixReaches(a: string, b: string, p: string)
    requires p <= a + b && |a| < |p|
    ensures p[|a|] == b[0]
  {
    assert p[|a|] == (a + b)[|a|];
  }

  /** The same, when no occurrence can straddle the join because the last
      character of `a` does not occur in the pattern before its last
      position. */
  lemma {:induction false} ReplaceConcatAfter(a: string, b: string, pattern: string, replacement: string)
    requires |pattern| > 0
    requires |a| == 0 || Lacks(pattern[..|pattern| - 1], a[|a| - 1])
    ensures Replace(a + b, pattern, replacement)
         == Replace(a, pattern, replacement) + Replace(b, pattern, replacement)
    decreases |a|
  {
    if |a| == 0 {
      assert a + b == b;
    } else {
      var s := a + b;
      if pattern <= s {
        if |a| < |pattern| {
          PrefixEndsIn(a, b, pattern);
        }
        assert s[..|pattern|] == a[..|pattern|];
        assert pattern <= a;
        assert s[|pattern|..] == a[|pattern|..] + b;
        ReplaceConcatAfter(a[|pattern|..], b, pattern, replacement);
      } else {
        assert !(pattern <= a);
        assert s[1..] == a[1..] + b;
        ReplaceConcatAfter(a[1..], b, pattern, replacement);
      }
    }
  }

  lemma PrefixEndsIn(a: string, b: string, p: string)
    requires p <= a + b && 0 < |a| < |p|
    ensures p[..|p| - 1][|a| - 1] == a[|a| - 1]
  {
    assert p[|a| - 1] == (a + b)[|a| - 1];
  }

  /** Text shorter than the pattern is returned unchanged. */
  lemma {:induction false} ReplaceShort(s: string, pattern: string, replacement: string)
    requires |pattern| > 0
    requires |s| < |pattern|
    ensures Replace(s, pattern, replacement) == s
    decreases |s|
  {
    if |s| > 0 {
      ReplaceShort(s[1..], pattern, replacement);
    }
  }

  /** With a non-empty replacement, only empty text becomes empty. */
  lemma ReplaceEmpty(s: string, pattern: string, replacement: string)
    requires |pattern| > 0 && |replacement| > 0
    ensures |Replace(s, pattern, replacement)| == 0 <==> |s| == 0
  {
  }

  /** An occurrence of the pattern at the very start is rewritten. */
  lemma ReplaceFront(b: string, pattern: string, replacement: string)
    requires |pattern| > 0
    ensures Replace(pattern + b, pattern, replacement) == replacement + Replace(b, pattern, replacement)
  {
    assert pattern <= pattern + b;
    assert (pattern + b)[|pattern|..] == b;
  }

  // ---------------------------------------------------------------------
  // splitlines(keepends=True)
  // ---------------------------------------------------------------------

  /** Length of the line terminator at the end of `l`: 2 for "\r\n",
      1 for any other line boundary, 0 for an unterminated line */
  function TermLen(l: string): nat {
    if |l| >= 2 && l[|l| - 2] == '\r' && l[|l| - 1] == '\n' then 2
    else if |l| >= 1 && IsLineBreak(l[|l| - 1]) then 1
    else 0
  }

  /** A line without its terminator */
  function Body(l: string): string
    requires TermLen(l) <= |l|
  {
    l[..|l| - TermLen(l)]
  }

  /** Length of the first line of `s` including its terminator, where "\r\n"
      counts as one terminator */
  function FirstLineLen(s: string): (n: nat)
    requires |s| > 0
    ensures 0 < n <= |s|
    ensures TermLen(s[..n]) <= n && NoLineBreaks(Body(s[..n]))
    ensures n < |s| ==> TermLen(s[..n]) > 0
    ensures n < |s| && s[n - 1] == '\r' ==> s[n] != '\n'
    decreases |s|
  {
    if IsLineBreak(s[0]) then
      (if s[0] == '\r' && |s| > 1 && s[1] == '\n' then 2 else 1)
    else if |s| == 1 then 1
    else
      var m := FirstLineLen(s[1..]);
      assert s[..m + 1] == [s[0]] + s[1..][..m];
      assert TermLen(s[..m + 1]) == TermLen(s[1..][..m]);
      assert Body(s[..m + 1]) == [s[0]] + Body(s[1..][..m]);
      m + 1
  }

  function Concat(ls: seq<string>): string {
    if |ls| == 0 then [] else ls[0] + Concat(ls[1..])
  }

  /** What `splitlines(keepends=True)` produces: non-empty lines with line
      boundaries only in their terminators, every line but the last
      terminated, and no "\r" line followed by a line starting with "\n"
      (that pair would have been one "\r\n" terminator). */
  predicate WellSplit(ls: seq<string>) {
    && (forall i :: 0 <= i < |ls| ==> ls[i] != [] && NoLineBreaks(Body(ls[i])))
    && (forall i :: 0 <= i < |ls| - 1 ==> TermLen(ls[i]) > 0)
    && (forall i :: 0 <= i < |ls| - 1 ==> ls[i][|ls[i]| - 1] == '\r' ==> ls[i + 1][0] != '\n')
  }

  /** `s.splitlines(keepends=True)` */
  function SplitLines(s: string): (ls: seq<string>)
    ensures Concat(ls) == s
    ensures WellSplit(ls)
    decreases |s|
  {
    if |s| == 0 then []
    else
      var n := FirstLineLen(s);
      var rest := SplitLines(s[n..]);
      assert s == s[..n] + s[n..];
      assert ([s[..n]] + rest)[1..] == rest;
      [s[..n]] + rest
  }

  /** The first line of a line followed by anything else is that line, under
      the conditions `WellSplit` places on consecutive lines. */
  lemma {:induction false} FirstLineOfLine(l: string, rest: string)
    requires |l| > 0 && NoLineBreaks(Body(l))
    requires |rest| > 0 ==> TermLen(l) > 0
    requires |rest| > 0 && l[|l| - 1] == '\r' ==> rest[0] != '\n'
    ensures FirstLineLen(l + rest) == |l|
    decreases |l|
  {
    var s := l + rest;
    if !IsLineBreak(l[0]) {
      if |l| == 1 {
        assert TermLen(l) == 0;
      } else {
        assert s[1..] == l[1..] + rest;
        assert Body(l) == [l[0]] + Body(l[1..]);
        FirstLineOfLine(l[1..], rest);
      }
    }
  }

  /** `splitlines` recovers a well-split list of lines from their
      concatenation, so `SplitLines` and `Concat` are inverse bijections
      between strings and well-split line lists. */
  lemma {:induction false} SplitLinesOfConcat(ls: seq<string>)
    requires WellSplit(ls)
    ensures SplitLines(Concat(ls)) == ls
    decreases |ls|
  {
    if |ls| > 0 {
      var rest := Concat(ls[1..]);
      if |rest| > 0 {
        assert |ls| > 1;
        assert ls[1] != [];
        assert Concat(ls[1..]) == ls[1] + Concat(ls[2..]);
        assert rest[0] == ls[1][0];
      }
      FirstLineOfLine(ls[0], rest);
      assert (ls[0] + rest)[|ls[0]|..] == rest;
      assert (ls[0] + rest)[..|ls[0]|] == ls[0];
      assert WellSplit(ls[1..]);
      SplitLinesOfConcat(ls[1..]);
    }
  }
}
