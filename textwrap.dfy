/** The two `textwrap` functions the options compiler uses: `indent`, which
    prefixes every non-blank line, and `dedent`, which removes the leading
    whitespace that all non-blank lines share. */
module Textwrap {
  import opened Strings
  import opened Wrappers

  // ---------------------------------------------------------------------
  // indent
  // ---------------------------------------------------------------------

  /** One line of `textwrap.indent` with the default predicate
      `line.strip()`: only lines holding a non-whitespace character get the
      prefix. */
  function PrefixLine(line: string, prefix: string): string {
    if NonBlank(line) then prefix + line else line
  }

  function PrefixLines(ls: seq<string>, prefix: string): (r: seq<string>)
    ensures |r| == |ls|
    ensures forall i :: 0 <= i < |ls| ==> r[i] == PrefixLine(ls[i], prefix)
  {
    seq(|ls|, i requires 0 <= i < |ls| => PrefixLine(ls[i], prefix))
  }

  /** `textwrap.indent(text, prefix)`: the lines of
      `text.splitlines(True)`, each prefixed or not, joined back together */
  function Indent(text: string, prefix: string): string
    decreases |text|
  {
    if |text| == 0 then []
    else
      var n := FirstLineLen(text);
      PrefixLine(text[..n], prefix) + Indent(text[n..], prefix)
  }

  /** The same, stated over the whole list of lines */
  lemma {:induction false} IndentIsConcat(text: string, prefix: string)
    ensures Indent(text, prefix) == Concat(PrefixLines(SplitLines(text), prefix))
    decreases |text|
  {
    if |text| > 0 {
      var n := FirstLineLen(text);
      IndentIsConcat(text[n..], prefix);
      var ls := SplitLines(text);
      assert ls == [text[..n]] + SplitLines(text[n..]);
      var ps := PrefixLines(ls, prefix);
      assert ps[1..] == PrefixLines(SplitLines(text[n..]), prefix);
    }
  }

  lemma TermLenPrefixed(prefix: string, l: string)
    requires NoLineBreaks(prefix) && |l| > 0
    ensures TermLen(prefix + l) == TermLen(l)
    ensures TermLen(l) <= |l| ==> Body(prefix + l) == prefix + Body(l)
  {
    var s := prefix + l;
    assert s[|s| - 1] == l[|l| - 1];
    if |l| == 1 && |prefix| > 0 {
      assert s[|s| - 2] == prefix[|prefix| - 1];
    } else if |l| >= 2 {
      assert s[|s| - 2] == l[|l| - 2];
    }
  }

  /** Prefixing the non-blank lines of a well-split line list leaves it
      well split. */
  lemma PrefixLinesWellSplit(ls: seq<string>, prefix: string)
    requires WellSplit(ls) && NoLineBreaks(prefix)
    ensures WellSplit(PrefixLines(ls, prefix))
  {
    var ps := PrefixLines(ls, prefix);
    forall i | 0 <= i < |ps|
      ensures ps[i] != [] && NoLineBreaks(Body(ps[i]))
      ensures TermLen(ps[i]) == TermLen(ls[i])
      ensures ps[i][|ps[i]| - 1] == ls[i][|ls[i]| - 1]
      ensures ps[i][0] == ls[i][0] || !IsLineBreak(ps[i][0])
    {
      if NonBlank(ls[i]) {
        TermLenPrefixed(prefix, ls[i]);
        assert Body(ps[i]) == prefix + Body(ls[i]);
        if |prefix| > 0 {
          assert ps[i][0] == prefix[0];
        }
      }
    }
  }

  /** The lines of `textwrap.indent(text, prefix)` are exactly the lines of
      `text`, where each non-blank line has gained the prefix and each blank
      line is untouched (for a prefix that holds no line boundary). */
  lemma IndentLines(text: string, prefix: string)
    requires NoLineBreaks(prefix)
    ensures SplitLines(Indent(text, prefix)) == PrefixLines(SplitLines(text), prefix)
  {
    IndentIsConcat(text, prefix);
    PrefixLinesWellSplit(SplitLines(text), prefix);
    SplitLinesOfConcat(PrefixLines(SplitLines(text), prefix));
  }

  lemma {:induction false} ConcatLast(ls: seq<string>)
    requires |ls| > 0 && ls[|ls| - 1] != []
    ensures Concat(ls) != [] && Concat(ls)[|Concat(ls)| - 1] == ls[|ls| - 1][|ls[|ls| - 1]| - 1]
  {
    if |ls| > 1 {
      ConcatLast(ls[1..]);
    }
  }

  /** Indenting keeps the text's last character (and an empty text empty). */
  lemma IndentLast(text: string, prefix: string)
    requires NoLineBreaks(prefix)
    ensures Indent(text, prefix) == [] <==> |text| == 0
    ensures |text| > 0 ==> Indent(text, prefix)[|Indent(text, prefix)| - 1] == text[|text| - 1]
  {
    IndentIsConcat(text, prefix);
    var ls := SplitLines(text);
    assert forall i :: 0 <= i < |ls| ==> ls[i] != [];
    PrefixedLast(ls, prefix);
    if |ls| > 0 {
      ConcatLast(ls);
    }
  }

  /** Prefixing lines that are not empty keeps the last character of their
      concatenation. */
  lemma PrefixedLast(ls: seq<string>, prefix: string)
    requires forall i :: 0 <= i < |ls| ==> ls[i] != []
    ensures Concat(PrefixLines(ls, prefix)) == [] <==> |ls| == 0
    ensures |ls| > 0 ==>
      var c := Concat(PrefixLines(ls, prefix));
      c != [] && c[|c| - 1] == ls[|ls| - 1][|ls[|ls| - 1]| - 1]
  {
    var ps := PrefixLines(ls, prefix);
    if |ls| > 0 {
      var k := |ls| - 1;
      var pk := PrefixLine(ls[k], prefix);
      assert ps[k] == pk;
      assert pk[|pk| - 1] == ls[k][|ls[k]| - 1];
      ConcatLast(ps);
    }
  }

  /** A non-blank line followed by a new line keeps its place at the front
      and gets the prefix; the rest is indented on its own. */
  lemma IndentLineThen(l: string, rest: string, prefix: string)
    requires NoLineBreaks(l) && NonBlank(l)
    ensures Indent(l + "\n" + rest, prefix) == prefix + l + "\n" + Indent(rest, prefix)
  {
    FirstLineAfter(l, rest);
    NonBlankExtend(l, "\n");
    IndentFirstLine(l + "\n", rest, prefix);
  }

  lemma NonBlankExtend(l: string, t: string)
    requires NonBlank(l)
    ensures NonBlank(l + t)
  {
    var i :| 0 <= i < |l| && !IsSpace(l[i]);
    assert (l + t)[i] == l[i];
  }

  lemma FirstLineAfter(l: string, rest: string)
    requires NoLineBreaks(l)
    ensures FirstLineLen(l + "\n" + rest) == |l| + 1
  {
    var line := l + "\n";
    assert line[|line| - 1] == '\n';
    if |l| > 0 {
      assert line[|line| - 2] == l[|l| - 1];
    }
    assert TermLen(line) == 1;
    assert Body(line) == l;
    FirstLineOfLine(line, rest);
  }

  lemma IndentFirstLine(line: string, rest: string, prefix: string)
    requires |line| > 0 && FirstLineLen(line + rest) == |line| && NonBlank(line)
    ensures Indent(line + rest, prefix) == prefix + line + Indent(rest, prefix)
  {
    var s := line + rest;
    assert s[..|line|] == line && s[|line|..] == rest;
  }

  /** A single non-blank line without a terminator just gets the prefix. */
  lemma IndentLastLine(l: string, prefix: string)
    requires NoLineBreaks(l) && NonBlank(l)
    ensures Indent(l, prefix) == prefix + l
  {
    if |l| > 0 {
      assert !IsLineBreak(l[|l| - 1]);
    }
    assert TermLen(l) == 0;
    assert Body(l) == l;
    FirstLineOfLine(l, []);
    assert l + [] == l;
    IndentFirstLine(l, [], prefix);
  }

  // ---------------------------------------------------------------------
  // dedent
  // ---------------------------------------------------------------------

  /** The whitespace that `dedent` treats as a margin */
  predicate IsMarginChar(c: char) {
    c == ' ' || c == '\t'
  }

  /** A line matching `^[ \t]*$`; `dedent` empties such lines and ignores
      them when computing the margin */
  predicate MarginOnly(l: string) {
    forall i :: 0 <= i < |l| ==> IsMarginChar(l[i])
  }

  /** The leading run of blanks and tabs of a line */
  function LeadingMargin(l: string): (w: string)
    ensures w <= l && MarginOnly(w)
    ensures |w| < |l| ==> !IsMarginChar(l[|w|])
  {
    if |l| > 0 && IsMarginChar(l[0]) then [l[0]] + LeadingMargin(l[1..]) else []
  }

  /** The longest common prefix of two strings */
  function CommonPrefix(a: string, b: string): (c: string)
    ensures c <= a && c <= b
    ensures |c| < |a| && |c| < |b| ==> a[|c|] != b[|c|]
  {
    if |a| > 0 && |b| > 0 && a[0] == b[0] then [a[0]] + CommonPrefix(a[1..], b[1..]) else []
  }

  /** One step of `dedent`'s margin loop: keep the margin when the new
      indent extends it, take the indent when the margin extends it, and
      otherwise cut the margin at the first difference */
  function Narrow(margin: string, indent: string): (r: string)
    ensures r <= margin && r <= indent
    ensures |r| < |margin| && |r| < |indent| ==> margin[|r|] != indent[|r|]
  {
    if margin <= indent then margin
    else if indent <= margin then indent
    else CommonPrefix(margin, indent)
  }

  /** The margin `dedent` computes: the indents of the lines that are not
      blank, folded left to right with `Narrow`; `None` when every line is
      blank */
  function Margin(lines: seq<string>): (m: Option<string>)
    ensures m.None? <==> forall i :: 0 <= i < |lines| ==> MarginOnly(lines[i])
    ensures m.Some? ==> MarginOnly(m.value)
    ensures m.Some? ==> forall i :: 0 <= i < |lines| && !MarginOnly(lines[i]) ==> m.value <= LeadingMargin(lines[i])
  {
    if |lines| == 0 then None
    else
      var init := lines[..|lines| - 1];
      var m := Margin(init);
      var l := lines[|lines| - 1];
      assert forall i :: 0 <= i < |init| ==> init[i] == lines[i];
      if MarginOnly(l) then
        if m.Some? then BelowAll(m.value, lines); m else m
      else
        var w := LeadingMargin(l);
        match m
        case None => BelowAll(w, lines); Some(w)
        case Some(p) =>
          var r := Narrow(p, w);
          NarrowedBelow(r, p, init);
          BelowAll(r, lines);
          Some(r)
  }

  /** A margin below the indent of every earlier line, and of the last line
      unless it is blank, is below every indent. */
  lemma BelowAll(v: string, lines: seq<string>)
    requires |lines| > 0
    requires forall i :: 0 <= i < |lines| - 1 && !MarginOnly(lines[i]) ==> v <= LeadingMargin(lines[i])
    requires !MarginOnly(lines[|lines| - 1]) ==> v <= LeadingMargin(lines[|lines| - 1])
    ensures forall i :: 0 <= i < |lines| && !MarginOnly(lines[i]) ==> v <= LeadingMargin(lines[i])
  {
  }

  /** A prefix of a margin below every indent is below them all too. */
  lemma NarrowedBelow(r: string, p: string, lines: seq<string>)
    requires r <= p
    requires forall i :: 0 <= i < |lines| && !MarginOnly(lines[i]) ==> p <= LeadingMargin(lines[i])
    ensures forall i :: 0 <= i < |lines| && !MarginOnly(lines[i]) ==> r <= LeadingMargin(lines[i])
  {
    forall i | 0 <= i < |lines| && !MarginOnly(lines[i]) {
      PrefixTransitive(r, p, LeadingMargin(lines[i]));
    }
  }

  lemma PrefixTransitive(a: string, b: string, c: string)
    requires a <= b && b <= c
    ensures a <= c
  {
  }

  /** A common prefix of `a` and `b` at whose end they differ (or one ends)
      extends every other common prefix. */
  lemma CommonPrefixLongest(a: string, b: string, r: string, p: string)
    requires r <= a && r <= b && (|r| < |a| && |r| < |b| ==> a[|r|] != b[|r|])
    requires p <= a && p <= b
    ensures p <= r
  {
  }

  /** The margin is the LONGEST prefix common to the indents of all
      non-blank lines. */
  lemma {:induction false} MarginLongest(lines: seq<string>, p: string)
    requires Margin(lines).Some?
    requires forall i :: 0 <= i < |lines| && !MarginOnly(lines[i]) ==> p <= LeadingMargin(lines[i])
    ensures p <= Margin(lines).value
  {
    var init := lines[..|lines| - 1];
    var l := lines[|lines| - 1];
    if Margin(init).Some? {
      forall i | 0 <= i < |init| && !MarginOnly(init[i])
        ensures p <= LeadingMargin(init[i])
      {
        assert init[i] == lines[i];
      }
      MarginLongest(init, p);
      if !MarginOnly(l) {
        CommonPrefixLongest(Margin(init).value, LeadingMargin(l), Narrow(Margin(init).value, LeadingMargin(l)), p);
      }
    }
  }

  function MarginOrEmpty(lines: seq<string>): string {
    match Margin(lines)
    case None => []
    case Some(m) => m
  }

  /** One line of `dedent`: a blank line becomes empty, and the margin is
      removed where it begins the line */
  function DedentLine(l: string, margin: string): string {
    if MarginOnly(l) then []
    else if margin <= l then l[|margin|..]
    else l
  }

  function DedentLines(lines: seq<string>, margin: string): (r: seq<string>)
    ensures |r| == |lines|
    ensures forall i :: 0 <= i < |lines| ==> r[i] == DedentLine(lines[i], margin)
  {
    seq(|lines|, i requires 0 <= i < |lines| => DedentLine(lines[i], margin))
  }

  /** `textwrap.dedent(text)` */
  function Dedent(text: string): string {
    var lines := Split(text, "\n");
    Join("\n", DedentLines(lines, MarginOrEmpty(lines)))
  }

  // ---------------------------------------------------------------------
  // split / join on one character
  // ---------------------------------------------------------------------

  lemma {:induction false} SplitLackingPrefix(p: string, t: string, c: char)
    requires Lacks(p, c)
    ensures Split(p + t, [c]) == [p + Split(t, [c])[0]] + Split(t, [c])[1..]
    decreases |p|
  {
    var x := Split(t, [c]);
    if |p| == 0 {
      assert p + t == t;
      assert [] + x[0] == x[0];
      assert x == [x[0]] + x[1..];
    } else {
      var s := p + t;
      assert s[0] == p[0];
      assert !([c] <= s);
      assert s[1..] == p[1..] + t;
      SplitLackingPrefix(p[1..], t, c);
      var tail := Split(s[1..], [c]);
      assert tail == [p[1..] + x[0]] + x[1..];
      assert Split(s, [c]) == [[s[0]] + tail[0]] + tail[1..];
      assert tail[1..] == x[1..];
      assert [s[0]] + tail[0] == p + x[0];
    }
  }

  /** Splitting on a character recovers pieces joined by it, when no piece
      holds that character. */
  lemma {:induction false} SplitOfJoin(parts: seq<string>, c: char)
    requires |parts| > 0
    requires forall k :: 0 <= k < |parts| ==> Lacks(parts[k], c)
    ensures Split(Join([c], parts), [c]) == parts
    decreases |parts|
  {
    if |parts| == 1 {
      SplitLackingPrefix(parts[0], [], c);
      assert parts[0] + [] == parts[0];
    } else {
      var rest := Join([c], parts[1..]);
      SplitOfJoin(parts[1..], c);
      assert [c] <= [c] + rest;
      assert ([c] + rest)[1..] == rest;
      assert Split([c] + rest, [c]) == [[]] + parts[1..];
      assert Join([c], parts) == parts[0] + ([c] + rest);
      SplitLackingPrefix(parts[0], [c] + rest, c);
      assert parts[0] + [] == parts[0];
    }
  }

  lemma SplitPiecesLack(s: string, c: char)
    ensures forall k :: 0 <= k < |Split(s, [c])| ==> Lacks(Split(s, [c])[k], c)
  {
    forall k | 0 <= k < |Split(s, [c])|
      ensures Lacks(Split(s, [c])[k], c)
    {
      SplitPiecesLackSeparator(s, [c], k);
      LacksOfAbsent(Split(s, [c])[k], c);
    }
  }

  lemma {:induction false} LacksOfAbsent(s: string, c: char)
    requires !Occurs([c], s)
    ensures Lacks(s, c)
    decreases |s|
  {
    if |s| > 0 {
      assert s[0] != c;
      LacksOfAbsent(s[1..], c);
    }
  }

  /** Neither function brings in a character: what `dedent` returns is
      made of the text's own characters, and `indent` adds only the
      prefix. */
  lemma {:induction false} IndentLacks(text: string, prefix: string, c: char)
    requires Lacks(text, c) && Lacks(prefix, c)
    ensures Lacks(Indent(text, prefix), c)
    decreases |text|
  {
    if |text| > 0 {
      var n := FirstLineLen(text);
      assert text == text[..n] + text[n..];
      LacksAppend(text[..n], text[n..], c);
      LacksAppend(prefix, text[..n], c);
      IndentLacks(text[n..], prefix, c);
      LacksAppend(PrefixLine(text[..n], prefix), Indent(text[n..], prefix), c);
    }
  }

  lemma DedentLacks(text: string, c: char)
    requires Lacks(text, c) && c != '\n'
    ensures Lacks(Dedent(text), c)
  {
    var lines := Split(text, "\n");
    var ds := DedentLines(lines, MarginOrEmpty(lines));
    SplitLacks(text, "\n", c);
    forall k | 0 <= k < |ds|
      ensures Lacks(ds[k], c)
    {
      if |MarginOrEmpty(lines)| <= |lines[k]| {
        LacksSuffix(lines[k], |MarginOrEmpty(lines)|, c);
      }
    }
    JoinLacks("\n", ds, c);
  }

  // ---------------------------------------------------------------------
  // properties of dedent
  // ---------------------------------------------------------------------

  /** The lines of `dedent(text)` are the lines of `text`, blank ones emptied
      and the common margin removed from the others; the margin begins every
      non-blank line. */
  lemma DedentShape(text: string)
    ensures var lines := Split(text, "\n");
            Split(Dedent(text), "\n") == DedentLines(lines, MarginOrEmpty(lines))
    ensures var lines := Split(text, "\n");
            forall i :: 0 <= i < |lines| && !MarginOnly(lines[i]) ==> MarginOrEmpty(lines) <= lines[i]
  {
    var lines := Split(text, "\n");
    var m := MarginOrEmpty(lines);
    var ds := DedentLines(lines, m);
    SplitPiecesLack(text, '\n');
    forall k | 0 <= k < |ds|
      ensures Lacks(ds[k], '\n')
    {
      if !MarginOnly(lines[k]) && m <= lines[k] {
        LacksSuffix(lines[k], |m|, '\n');
      }
    }
    SplitOfJoin(ds, '\n');
  }

  lemma LeadingMarginOfSuffix(l: string, m: string)
    requires m <= LeadingMargin(l)
    ensures m <= l
    ensures LeadingMargin(l[|m|..]) == LeadingMargin(l)[|m|..]
    decreases |m|
  {
    if |m| > 0 {
      assert l[1..][|m| - 1..] == l[|m|..];
      LeadingMarginOfSuffix(l[1..], m[1..]);
    }
  }

  /** A non-blank line stays non-blank when a prefix of its indent is
      removed, and its indent shrinks by that prefix. */
  lemma DedentedLine(l: string, m: string)
    requires !MarginOnly(l) && m <= LeadingMargin(l)
    ensures m <= l
    ensures DedentLine(l, m) == l[|m|..]
    ensures !MarginOnly(DedentLine(l, m))
    ensures LeadingMargin(DedentLine(l, m)) == LeadingMargin(l)[|m|..]
  {
    LeadingMarginOfSuffix(l, m);
    var w := LeadingMargin(l);
    var d := l[|m|..];
    assert !IsMarginChar(l[|w|]);
    assert d[|w| - |m|] == l[|w|];
  }

  /** Once the margin has been removed, the remaining non-blank lines
      share no margin. */
  lemma DedentedMarginEmpty(lines: seq<string>)
    ensures var ds := DedentLines(lines, MarginOrEmpty(lines));
            MarginOrEmpty(ds) == []
  {
    var m := MarginOrEmpty(lines);
    var ds := DedentLines(lines, m);
    if Margin(ds).Some? {
      var m2 := Margin(ds).value;
      assert Margin(lines).Some? by {
        var j :| 0 <= j < |ds| && !MarginOnly(ds[j]);
        assert !MarginOnly(lines[j]);
      }
      forall i | 0 <= i < |lines| && !MarginOnly(lines[i])
        ensures m + m2 <= LeadingMargin(lines[i])
      {
        DedentedLine(lines[i], m);
        assert m2 <= LeadingMargin(ds[i]);
        PrefixThenPrefix(m, m2, LeadingMargin(lines[i]));
      }
      MarginLongest(lines, m + m2);
      assert |m + m2| <= |m|;
    }
  }

  lemma PrefixThenPrefix(a: string, b: string, w: string)
    requires a <= w && b <= w[|a|..]
    ensures a + b <= w
  {
    assert w == w[..|a|] + w[|a|..];
  }

  /** Lines whose blank members are already empty are unchanged by an empty
      margin. */
  lemma DedentNoMargin(ds: seq<string>)
    requires forall i :: 0 <= i < |ds| && MarginOnly(ds[i]) ==> ds[i] == []
    ensures DedentLines(ds, []) == ds
  {
  }

  /** After `dedent`, no prefix is common to all non-blank lines: applying
      `dedent` a second time changes nothing. */
  lemma DedentIdempotent(text: string)
    ensures Dedent(Dedent(text)) == Dedent(text)
  {
    var lines := Split(text, "\n");
    var m := MarginOrEmpty(lines);
    var ds := DedentLines(lines, m);
    DedentShape(text);
    DedentedMarginEmpty(lines);
    forall i | 0 <= i < |ds| && MarginOnly(ds[i])
      ensures ds[i] == []
    {
      if !MarginOnly(lines[i]) {
        DedentedLine(lines[i], m);
      }
    }
    DedentNoMargin(ds);
  }

  /** A single line that does not start with a blank or a tab is its own
      dedent. */
  lemma DedentFlushLine(t: string)
    requires NoLineBreaks(t) && |t| > 0 && !IsMarginChar(t[0])
    ensures Dedent(t) == t
  {
    assert Lacks(t, '\n') by {
      forall i | 0 <= i < |t|
        ensures t[i] != '\n'
      {
        assert !IsLineBreak(t[i]);
      }
    }
    SplitOfJoin([t], '\n');
    assert Split(t, "\n") == [t];
    assert !MarginOnly(t);
    assert [t][..0] == [];
    assert Margin([t]) == Some(LeadingMargin(t));
    assert DedentLines([t], []) == [t];
  }

  function Spaces(n: nat): (s: string)
    ensures |s| == n && forall i :: 0 <= i < n ==> s[i] == ' '
  {
    if n == 0 then [] else [' '] + Spaces(n - 1)
  }

  /** Text whose non-blank lines all start with `n` blanks, one of them with
      exactly `n` (no further blank or tab), loses exactly those `n` blanks
      from each non-blank line. */
  lemma DedentUniform(text: string, n: nat, j: nat)
    requires var lines := Split(text, "\n");
             && (forall i :: 0 <= i < |lines| && !MarginOnly(lines[i]) ==> Spaces(n) <= lines[i])
             && j < |lines| && !MarginOnly(lines[j]) && LeadingMargin(lines[j]) == Spaces(n)
    ensures var lines := Split(text, "\n");
            Split(Dedent(text), "\n")
              == seq(|lines|, i requires 0 <= i < |lines| => if MarginOnly(lines[i]) then [] else lines[i][n..])
  {
    var lines := Split(text, "\n");
    DedentShape(text);
    forall i | 0 <= i < |lines| && !MarginOnly(lines[i])
      ensures Spaces(n) <= LeadingMargin(lines[i])
    {
      SpacesInLeadingMargin(lines[i], n);
    }
    MarginLongest(lines, Spaces(n));
    assert MarginOrEmpty(lines) <= LeadingMargin(lines[j]);
    assert MarginOrEmpty(lines) == Spaces(n);
  }

  lemma SpacesInLeadingMargin(l: string, n: nat)
    requires Spaces(n) <= l
    ensures Spaces(n) <= LeadingMargin(l)
    decreases n
  {
    if n > 0 {
      assert Spaces(n - 1) <= l[1..];
      SpacesInLeadingMargin(l[1..], n - 1);
    }
  }
}
