/** The options compiler: a DataTables options value, either a mapping or
    a piece of script text, becomes an indented block of JavaScript that
    ends in a comma, ready to be placed as the argument of a call. */
module Options {
  import opened Strings
  import opened Json
  import opened Textwrap
  import opened Placeholder

  /** What a user may configure: a mapping, serialised as JSON, or script
      text, which is only re-indented */
  datatype Options =
    | Mapping(members: seq<Member>)
    | Script(text: string)

  /** The prefix the options block gets: two indent units, so that the
      block sits one level inside the call that takes it */
  const OPTIONS_PREFIX: string := INDENT + INDENT

  /** A mapping is written by `json.dumps`; script text is dedented. */
  function Serialise(o: Options): string {
    match o
    case Mapping(ms) => Dumps(Object(ms), 0)
    case Script(t) => Dedent(t)
  }

  /** Trailing whitespace goes and a comma is added unless the text already
      ends with one. */
  function Terminate(s: string): (r: string)
    ensures EndsWithComma(r)
    ensures r == Rstrip(s) || r == Rstrip(s) + ","
    ensures r == Rstrip(s) <==> EndsWithComma(Rstrip(s))
  {
    var t := Rstrip(s);
    if EndsWithComma(t) then t else t + ","
  }

  /** `datatables_options_to_js`: serialise, prefix every non-blank line,
      strip the end and terminate with a single comma */
  function OptionsToJs(o: Options, prefix: string): (r: string)
    ensures EndsWithComma(r)
  {
    Terminate(Indent(Serialise(o), prefix))
  }

  // ---------------------------------------------------------------------
  // the comma rule
  // ---------------------------------------------------------------------

  /** Terminating twice is terminating once: a block that already ends in
      a comma gets no second one. */
  lemma TerminateIdempotent(s: string)
    ensures Terminate(Terminate(s)) == Terminate(s)
  {
    var r := Terminate(s);
    RstripUnique(r, r);
  }

  /** The options text ends in a comma, and the comma was added exactly
      when the stripped text did not already end in one, right after its
      last non-blank character. */
  lemma OptionsTerminated(o: Options, prefix: string)
    ensures var r := OptionsToJs(o, prefix);
      var t := Rstrip(Indent(Serialise(o), prefix));
      EndsWithComma(r)
      && (EndsWithComma(t) ==> r == t)
      && (!EndsWithComma(t) ==> r == t + "," && (|t| == 0 || !IsSpace(t[|t| - 1])))
  {
  }

  // ---------------------------------------------------------------------
  // indenting serialised JSON
  // ---------------------------------------------------------------------

  /** What follows a fragment: nothing, or a new line and more text */
  function After(more: bool, rest: string): string {
    if more then "\n" + rest else ""
  }

  /** The same after indenting */
  function IndentedAfter(more: bool, rest: string, ind: string -> string): string {
    if more then "\n" + ind(rest) else ""
  }

  /** The fact about `textwrap.indent` that the serialised text needs: a
      non-blank line, with or without a new line and more text after it,
      gets the prefix. The lemmas below are stated for any function with
      this property, so that the solver does not unfold the indenting
      itself; `IndentRule` shows that `Indent` is one. */
  ghost predicate LineRule(ind: string -> string, prefix: string) {
    forall l: string, more: bool, rest: string :: NoLineBreaks(l) && NonBlank(l) ==>
      ind(l + After(more, rest)) == prefix + l + IndentedAfter(more, rest, ind)
  }

  lemma IndentRule(prefix: string)
    ensures LineRule(x => Indent(x, prefix), prefix)
  {
    forall l: string, more: bool, rest: string | NoLineBreaks(l) && NonBlank(l)
      ensures Indent(l + After(more, rest), prefix) == prefix + l + IndentedAfter(more, rest, x => Indent(x, prefix))
    {
      if more {
        IndentLineThen(l, rest, prefix);
        Assoc(l, "\n", rest);
        Assoc(prefix + l, "\n", Indent(rest, prefix));
      } else {
        IndentLastLine(l, prefix);
        AppendEmpty(l);
        AppendEmpty(prefix + l);
      }
    }
  }

  lemma LineThen(ind: string -> string, prefix: string, l: string, more: bool, rest: string)
    requires LineRule(ind, prefix) && NoLineBreaks(l) && NonBlank(l)
    ensures ind(l + After(more, rest)) == prefix + l + IndentedAfter(more, rest, ind)
  {
  }

  // Equalities between concatenations are proved apart from any
  // indented text, where the solver would unfold the indenting.

  lemma Assoc(a: string, b: string, c: string)
    ensures a + (b + c) == a + b + c
  {
  }

  lemma AppendEmpty(a: string)
    ensures a + [] == a && [] + a == a
  {
  }

  /** `k * INDENT` followed by `m * INDENT` */
  lemma IndentationAdd(k: nat, m: nat)
    ensures Indentation(k) + Indentation(m) == Indentation(k + m)
  {
    var a := Indentation(k) + Indentation(m);
    var b := Indentation(k + m);
    assert |a| == |b|;
    assert forall i :: 0 <= i < |a| ==> a[i] == ' ' && b[i] == ' ';
  }

  predicate Flat(v: Json) {
    !(v.Array? && |v.items| > 0) && !(v.Object? && |v.members| > 0)
  }

  lemma PrintableNoBreaks(s: string)
    requires AllPrintableAscii(s)
    ensures NoLineBreaks(s)
  {
  }

  /** A scalar or an empty container is written on one line, the same at
      every depth, and begins with a token character. */
  lemma FlatDumps(v: Json, level: nat, k: nat)
    requires Flat(v)
    ensures NoLineBreaks(Dumps(v, level))
    ensures Dumps(v, level + k) == Dumps(v, level)
    ensures |Dumps(v, level)| > 0 && !IsSpace(Dumps(v, level)[0])
  {
    DumpsStart(v, level);
    match v
    case Str(s) =>
      assert AllPrintableAscii(Quote(s));
      PrintableNoBreaks(Quote(s));
    case Int(i) =>
      NatNoBreaks(if i < 0 then -i else i);
    case _ =>
  }

  lemma NatNoBreaks(n: nat)
    ensures NoLineBreaks(NatToString(n))
  {
  }

  lemma NoBreaks3(c: string, d: string, e: string)
    requires NoLineBreaks(c) && NoLineBreaks(d) && NoLineBreaks(e)
    ensures NoLineBreaks(c + d + e)
  {
  }

  lemma NoBreaks2(c: string, d: string)
    requires NoLineBreaks(c) && NoLineBreaks(d)
    ensures NoLineBreaks(c + d)
  {
  }

  lemma NonBlankAt(c: string, d: string, e: string)
    requires |d| > 0 && !IsSpace(d[0])
    ensures NonBlank(c + d + e)
  {
    assert (c + d + e)[|c|] == d[0];
  }

  /** Indenting serialised JSON by `k` indent units is serialising it `k`
      levels deeper, whatever shares the value's first and last line. */
  lemma {:induction false} IndentValue(ind: string -> string, v: Json, level: nat, k: nat,
                                       c: string, e: string, more: bool, rest: string)
    requires LineRule(ind, Indentation(k)) && NoLineBreaks(c) && NoLineBreaks(e)
    ensures ind(c + Dumps(v, level) + e + After(more, rest))
         == Indentation(k) + c + Dumps(v, level + k) + e + IndentedAfter(more, rest, ind)
    decreases v, 2
  {
    if v.Array? && |v.items| > 0 {
      IndentArray(ind, v, level, k, c, e, more, rest);
    } else if v.Object? && |v.members| > 0 {
      IndentObject(ind, v, level, k, c, e, more, rest);
    } else {
      FlatDumps(v, level, k);
      IndentFlat(ind, k, c, Dumps(v, level), Dumps(v, level + k), e, more, rest);
    }
  }

  /** A value written on one line is indented as the line it is on. */
  lemma IndentFlat(ind: string -> string, k: nat, c: string, d: string, d': string, e: string,
                   more: bool, rest: string)
    requires LineRule(ind, Indentation(k)) && NoLineBreaks(c) && NoLineBreaks(e)
    requires NoLineBreaks(d) && d' == d && |d| > 0 && !IsSpace(d[0])
    ensures ind(c + d + e + After(more, rest)) == Indentation(k) + c + d' + e + IndentedAfter(more, rest, ind)
  {
    NoBreaks3(c, d, e);
    NonBlankAt(c, d, e);
    LineThen(ind, Indentation(k), c + d + e, more, rest);
    Regroup5(Indentation(k), c, d, e, IndentedAfter(more, rest, ind));
  }

  lemma Regroup5(p: string, c: string, d: string, e: string, t: string)
    ensures p + (c + d + e) + t == p + c + d + e + t
  {
  }

  lemma {:induction false} IndentArray(ind: string -> string, v: Json, level: nat, k: nat,
                                       c: string, e: string, more: bool, rest: string)
    requires LineRule(ind, Indentation(k)) && NoLineBreaks(c) && NoLineBreaks(e)
    requires v.Array? && |v.items| > 0
    ensures ind(c + Dumps(v, level) + e + After(more, rest))
         == Indentation(k) + c + Dumps(v, level + k) + e + IndentedAfter(more, rest, ind)
    decreases v, 1
  {
    var r := Indentation(level) + "]" + e + After(more, rest);
    ItemsIndent(ind, v.items, level + 1, k, Indentation(level + 1), "", true, r);
    var body, body' := DumpsItems(v.items, level + 1), DumpsItems(v.items, level + 1 + k);
    ContainerIndent(ind, '[', ']', level, k, c, e, more, rest, body, body',
                    Container('[', level, body, ']'), Container('[', level + k, body', ']'));
    ArrayFramed(ind, v, level, k, c, e, After(more, rest), IndentedAfter(more, rest, ind));
  }

  lemma {:induction false} IndentObject(ind: string -> string, v: Json, level: nat, k: nat,
                                        c: string, e: string, more: bool, rest: string)
    requires LineRule(ind, Indentation(k)) && NoLineBreaks(c) && NoLineBreaks(e)
    requires v.Object? && |v.members| > 0
    ensures ind(c + Dumps(v, level) + e + After(more, rest))
         == Indentation(k) + c + Dumps(v, level + k) + e + IndentedAfter(more, rest, ind)
    decreases v, 1
  {
    var r := Indentation(level) + "}" + e + After(more, rest);
    MembersIndent(ind, v.members, level + 1, k, Indentation(level + 1), "", true, r);
    var body, body' := DumpsMembers(v.members, level + 1), DumpsMembers(v.members, level + 1 + k);
    ContainerIndent(ind, '{', '}', level, k, c, e, more, rest, body, body',
                    Container('{', level, body, '}'), Container('{', level + k, body', '}'));
    ObjectFramed(ind, v, level, k, c, e, After(more, rest), IndentedAfter(more, rest, ind));
  }

  /** The indenting of a container, read back as the indenting of the
      list or mapping it writes */
  lemma ArrayFramed(ind: string -> string, v: Json, level: nat, k: nat, c: string, e: string, t: string, t': string)
    requires v.Array? && |v.items| > 0
    requires ind(c + Container('[', level, DumpsItems(v.items, level + 1), ']') + e + t)
          == Indentation(k) + c + Container('[', level + k, DumpsItems(v.items, level + 1 + k), ']') + e + t'
    ensures ind(c + Dumps(v, level) + e + t) == Indentation(k) + c + Dumps(v, level + k) + e + t'
  {
    ArrayContainer(v, level);
    ArrayContainer(v, level + k);
  }

  lemma ObjectFramed(ind: string -> string, v: Json, level: nat, k: nat, c: string, e: string, t: string, t': string)
    requires v.Object? && |v.members| > 0
    requires ind(c + Container('{', level, DumpsMembers(v.members, level + 1), '}') + e + t)
          == Indentation(k) + c + Container('{', level + k, DumpsMembers(v.members, level + 1 + k), '}') + e + t'
    ensures ind(c + Dumps(v, level) + e + t) == Indentation(k) + c + Dumps(v, level + k) + e + t'
  {
    ObjectContainer(v, level);
    ObjectContainer(v, level + k);
  }

  lemma ArrayContainer(v: Json, level: nat)
    requires v.Array? && |v.items| > 0
    ensures Dumps(v, level) == Container('[', level, DumpsItems(v.items, level + 1), ']')
  {
  }

  lemma ObjectContainer(v: Json, level: nat)
    requires v.Object? && |v.members| > 0
    ensures Dumps(v, level) == Container('{', level, DumpsMembers(v.members, level + 1), '}')
  {
  }

  /** A non-empty list or mapping `level` deep: the opening bracket, the
      body one level deeper on the next line, and the closing bracket on
      a line of its own */
  function Container(o: char, level: nat, body: string, z: char): string {
    [o] + "\n" + Indentation(level + 1) + body + "\n" + Indentation(level) + [z]
  }

  /** The opening line and the closing line of a container each get the
      prefix, and the body in between is indented as the caller shows. */
  lemma ContainerIndent(ind: string -> string, o: char, z: char, level: nat, k: nat,
                        c: string, e: string, more: bool, rest: string, body: string, body': string,
                        d: string, d': string)
    requires LineRule(ind, Indentation(k)) && NoLineBreaks(c) && NoLineBreaks(e)
    requires !IsSpace(o) && !IsLineBreak(o) && !IsSpace(z) && !IsLineBreak(z)
    requires d == Container(o, level, body, z) && d' == Container(o, level + k, body', z)
    requires var r := Indentation(level) + [z] + e + After(more, rest);
      ind(Indentation(level + 1) + body + "" + After(true, r))
        == Indentation(k) + Indentation(level + 1) + body' + "" + IndentedAfter(true, r, ind)
    ensures ind(c + d + e + After(more, rest)) == Indentation(k) + c + d' + e + IndentedAfter(more, rest, ind)
  {
    var p := Indentation(k);
    var i1 := Indentation(level + 1);
    var i0 := Indentation(level);
    var tail := After(more, rest);
    var close := i0 + [z] + e;
    var r := close + tail;
    var inner := i1 + body + "" + After(true, r);
    Regroup1(c, o, i1, body, i0, z, e, tail);
    ContainerLines(c, o, level, z, e);
    LineThen(ind, p, c + [o], true, inner);
    LineThen(ind, p, close, more, rest);
    IndentationAdd(k, level + 1);
    IndentationAdd(k, level);
    Regroup2(p, c, o, i1, body', i0, z, e, IndentedAfter(more, rest, ind),
             Indentation(level + k + 1), Indentation(level + k));
  }

  /** The opening and the closing line of a container are non-blank lines. */
  lemma ContainerLines(c: string, o: char, level: nat, z: char, e: string)
    requires NoLineBreaks(c) && NoLineBreaks(e)
    requires !IsSpace(o) && !IsLineBreak(o) && !IsSpace(z) && !IsLineBreak(z)
    ensures NoLineBreaks(c + [o]) && NonBlank(c + [o])
    ensures NoLineBreaks(Indentation(level) + [z] + e) && NonBlank(Indentation(level) + [z] + e)
  {
    assert (c + [o])[|c|] == o;
    var i0 := Indentation(level);
    assert NoLineBreaks(i0) && NoLineBreaks([z]);
    NoBreaks3(i0, [z], e);
    NonBlankAt(i0, [z], e);
  }

  lemma Regroup1(c: string, o: char, i1: string, body: string, i0: string, z: char, e: string, tail: string)
    ensures c + ([o] + "\n" + i1 + body + "\n" + i0 + [z]) + e + tail
         == (c + [o]) + ("\n" + (i1 + body + "" + ("\n" + (i0 + [z] + e + tail))))
  {
  }

  lemma Regroup2(p: string, c: string, o: char, i1: string, body: string, i0: string, z: char, e: string,
                 after: string, j1: string, j0: string)
    requires j1 == p + i1 && j0 == p + i0
    ensures p + (c + [o]) + ("\n" + (p + i1 + body + "" + ("\n" + (p + (i0 + [z] + e) + after))))
         == p + c + ([o] + "\n" + j1 + body + "\n" + j0 + [z]) + e + after
  {
  }

  lemma {:induction false} ItemsIndent(ind: string -> string, items: seq<Json>, level: nat, k: nat,
                                       c: string, e: string, more: bool, rest: string)
    requires LineRule(ind, Indentation(k)) && NoLineBreaks(c) && NoLineBreaks(e) && |items| > 0
    ensures ind(c + DumpsItems(items, level) + e + After(more, rest))
         == Indentation(k) + c + DumpsItems(items, level + k) + e + IndentedAfter(more, rest, ind)
    decreases items, 2
  {
    if |items| == 1 {
      SingleItem(items, level);
      SingleItem(items, level + k);
      IndentValue(ind, items[0], level, k, c, e, more, rest);
    } else {
      ItemsConsIndent(ind, items, level, k, c, e, more, rest);
    }
  }

  lemma {:induction false} ItemsConsIndent(ind: string -> string, items: seq<Json>, level: nat, k: nat,
                                           c: string, e: string, more: bool, rest: string)
    requires LineRule(ind, Indentation(k)) && NoLineBreaks(c) && NoLineBreaks(e) && |items| > 1
    ensures ind(c + DumpsItems(items, level) + e + After(more, rest))
         == Indentation(k) + c + DumpsItems(items, level + k) + e + IndentedAfter(more, rest, ind)
    decreases items, 1
  {
    var t := DumpsItems(items[1..], level);
    var r := Indentation(level) + t + e + After(more, rest);
    IndentationLine(level);
    ItemsIndent(ind, items[1..], level, k, Indentation(level), e, more, rest);
    IndentValue(ind, items[0], level, k, c, ",", true, r);
    IndentationAdd(k, level);
    SequenceIndent(ind, c, Dumps(items[0], level), Dumps(items[0], level + k), Indentation(level), t,
                   DumpsItems(items[1..], level + k), e, more, rest, k);
  }

  lemma {:induction false} MembersIndent(ind: string -> string, ms: seq<Member>, level: nat, k: nat,
                                         c: string, e: string, more: bool, rest: string)
    requires LineRule(ind, Indentation(k)) && NoLineBreaks(c) && NoLineBreaks(e) && |ms| > 0
    ensures ind(c + DumpsMembers(ms, level) + e + After(more, rest))
         == Indentation(k) + c + DumpsMembers(ms, level + k) + e + IndentedAfter(more, rest, ind)
    decreases ms, 2
  {
    if |ms| == 1 {
      SingleMember(ms, level);
      SingleMember(ms, level + k);
      MemberIndent(ind, ms[0], level, k, c, e, more, rest);
    } else {
      MembersConsIndent(ind, ms, level, k, c, e, more, rest);
    }
  }

  lemma {:induction false} MembersConsIndent(ind: string -> string, ms: seq<Member>, level: nat, k: nat,
                                             c: string, e: string, more: bool, rest: string)
    requires LineRule(ind, Indentation(k)) && NoLineBreaks(c) && NoLineBreaks(e) && |ms| > 1
    ensures ind(c + DumpsMembers(ms, level) + e + After(more, rest))
         == Indentation(k) + c + DumpsMembers(ms, level + k) + e + IndentedAfter(more, rest, ind)
    decreases ms, 1
  {
    var t := DumpsMembers(ms[1..], level);
    var r := Indentation(level) + t + e + After(more, rest);
    IndentationLine(level);
    MembersIndent(ind, ms[1..], level, k, Indentation(level), e, more, rest);
    MemberIndent(ind, ms[0], level, k, c, ",", true, r);
    IndentationAdd(k, level);
    SequenceIndent(ind, c, DumpsMember(ms[0], level), DumpsMember(ms[0], level + k), Indentation(level), t,
                   DumpsMembers(ms[1..], level + k), e, more, rest, k);
  }

  lemma IndentationLine(level: nat)
    ensures NoLineBreaks(Indentation(level)) && NoLineBreaks(",")
  {
  }

  /** The first entry of a sequence, its separator and the indented rest */
  lemma SequenceIndent(ind: string -> string, c: string, d: string, d': string, i: string, t: string, t': string,
                       e: string, more: bool, rest: string, k: nat)
    requires var r := i + t + e + After(more, rest);
      ind(c + d + "," + After(true, r)) == Indentation(k) + c + d' + "," + IndentedAfter(true, r, ind)
    requires ind(i + t + e + After(more, rest)) == Indentation(k) + i + t' + e + IndentedAfter(more, rest, ind)
    ensures ind(c + (d + ("," + "\n" + i + t)) + e + After(more, rest))
         == Indentation(k) + c + (d' + ("," + "\n" + (Indentation(k) + i) + t')) + e + IndentedAfter(more, rest, ind)
  {
    Regroup3(c, d, i, t, e, After(more, rest));
    Regroup4(Indentation(k), c, d', i, t', e, IndentedAfter(more, rest, ind));
  }

  lemma Regroup3(c: string, d: string, i: string, t: string, e: string, tail: string)
    ensures c + (d + ("," + "\n" + i + t)) + e + tail == c + d + "," + ("\n" + (i + t + e + tail))
  {
  }

  lemma Regroup4(p: string, c: string, d: string, i: string, t: string, e: string, after: string)
    ensures p + c + d + "," + ("\n" + (p + i + t + e + after))
         == p + c + (d + ("," + "\n" + (p + i) + t)) + e + after
  {
  }

  lemma SingleItem(items: seq<Json>, level: nat)
    requires |items| == 1
    ensures DumpsItems(items, level) == Dumps(items[0], level)
  {
    assert Dumps(items[0], level) + "" == Dumps(items[0], level);
  }

  lemma SingleMember(ms: seq<Member>, level: nat)
    requires |ms| == 1
    ensures DumpsMembers(ms, level) == DumpsMember(ms[0], level)
  {
    assert DumpsMember(ms[0], level) + "" == DumpsMember(ms[0], level);
  }

  lemma {:induction false} MemberIndent(ind: string -> string, m: Member, level: nat, k: nat,
                                        c: string, e: string, more: bool, rest: string)
    requires LineRule(ind, Indentation(k)) && NoLineBreaks(c) && NoLineBreaks(e)
    ensures ind(c + DumpsMember(m, level) + e + After(more, rest))
         == Indentation(k) + c + DumpsMember(m, level + k) + e + IndentedAfter(more, rest, ind)
    decreases m
  {
    var q := Quote(m.key) + ": ";
    assert ind(c + q + Dumps(m.value, level) + e + After(more, rest))
        == Indentation(k) + (c + q) + Dumps(m.value, level + k) + e + IndentedAfter(more, rest, ind) by {
      KeyNoBreaks(c, m.key);
      IndentValue(ind, m.value, level, k, c + q, e, more, rest);
    }
    MemberSplit(c, m, level);
    MemberSplit(Indentation(k) + c, m, level + k);
    MemberFrame(ind, c, DumpsMember(m, level), q, Dumps(m.value, level), e, After(more, rest),
                Indentation(k), DumpsMember(m, level + k), Dumps(m.value, level + k), IndentedAfter(more, rest, ind));
  }

  lemma MemberFrame(ind: string -> string, c: string, dm: string, q: string, d: string, e: string, t: string,
                    p: string, dm': string, d': string, t': string)
    requires c + dm == c + q + d && p + c + dm' == p + c + q + d'
    requires ind(c + q + d + e + t) == p + (c + q) + d' + e + t'
    ensures ind(c + dm + e + t) == p + c + dm' + e + t'
  {
    Assoc(p, c, q);
  }

  lemma KeyNoBreaks(c: string, key: string)
    requires NoLineBreaks(c)
    ensures NoLineBreaks(c + (Quote(key) + ": "))
  {
    var q := Quote(key) + ": ";
    assert AllPrintableAscii(q);
    PrintableNoBreaks(q);
    NoBreaks2(c, q);
  }

  /** A member after some text: the text with the key, then the value */
  lemma MemberSplit(c: string, m: Member, level: nat)
    ensures c + DumpsMember(m, level) == c + (Quote(m.key) + ": ") + Dumps(m.value, level)
  {
    Assoc(c, Quote(m.key) + ": ", Dumps(m.value, level));
  }

  /** The indenting of a fragment with nothing around it */
  lemma Unframed(ind: string -> string, p: string, d: string, d': string)
    requires ind([] + d + [] + After(false, [])) == p + [] + d' + [] + IndentedAfter(false, [], ind)
    ensures ind(d) == p + d'
  {
    assert [] + d + [] + After(false, []) == d;
    assert p + [] + d' + [] + IndentedAfter(false, [], ind) == p + d';
  }

  /** Indenting the serialised text by `k` units is serialising it `k`
      levels deep: every line gains `4 * k` blanks. */
  lemma IndentDumps(v: Json, k: nat)
    ensures Indent(Dumps(v, 0), Indentation(k)) == Indentation(k) + Dumps(v, k)
  {
    IndentRule(Indentation(k));
    DumpsLevels(x => Indent(x, Indentation(k)), v, k);
  }

  lemma DumpsLevels(ind: string -> string, v: Json, k: nat)
    requires LineRule(ind, Indentation(k))
    ensures ind(Dumps(v, 0)) == Indentation(k) + Dumps(v, k)
  {
    IndentValue(ind, v, 0, k, [], [], false, []);
    Unframed(ind, Indentation(k), Dumps(v, 0), Dumps(v, k));
  }

  /** A mapping becomes its JSON text written `k` levels deep, behind
      `k` indent units, with a comma after the closing brace. */
  lemma MappingToJs(ms: seq<Member>, k: nat)
    ensures OptionsToJs(Mapping(ms), Indentation(k)) == Indentation(k) + Dumps(Object(ms), k) + ","
  {
    var t := Indentation(k) + Dumps(Object(ms), k);
    IndentDumps(Object(ms), k);
    DumpsObjectEnd(ms, k);
    assert t[|t| - 1] == '}';
    RstripUnique(t, t);
  }

  lemma OptionsPrefix()
    ensures OPTIONS_PREFIX == Indentation(2)
  {
  }

  /** An empty mapping gives the empty object literal, never empty text. */
  lemma EmptyMappingToJs()
    ensures OptionsToJs(Mapping([]), OPTIONS_PREFIX) == "        {},"
  {
    OptionsPrefix();
    MappingToJs([], 2);
  }

  /** Script text on one line, flush left and ending in a comma, is only
      prefixed: no second comma is added. */
  lemma FlushLineScript(t: string, prefix: string)
    requires NoLineBreaks(t) && |t| > 0 && !IsMarginChar(t[0])
    requires EndsWithComma(t)
    ensures OptionsToJs(Script(t), prefix) == prefix + t
  {
    assert Serialise(Script(t)) == t by {
      DedentFlushLine(t);
    }
    assert Indent(t, prefix) == prefix + t by {
      assert NonBlank(t) by {
        assert !IsSpace(t[|t| - 1]);
      }
      IndentLastLine(t, prefix);
    }
    assert Terminate(prefix + t) == prefix + t by {
      Terminated(prefix + t);
    }
  }

  /** Text that already ends in a comma is terminated as it is. */
  lemma Terminated(s: string)
    requires EndsWithComma(s)
    ensures Terminate(s) == s
  {
    assert s[|s|..] == [];
    RstripUnique(s, s);
  }

  /** The raw options of the selector examples stay as they are written. */
  lemma SearchingFalseScript()
    ensures OptionsToJs(Script("{searching: false},"), OPTIONS_PREFIX) == OPTIONS_PREFIX + "{searching: false},"
  {
    var t := "{searching: false},";
    assert NoLineBreaks(t);
    assert t[0] == '{' && t[|t| - 1] == ',';
    FlushLineScript(t, OPTIONS_PREFIX);
  }

  // ---------------------------------------------------------------------
  // the version placeholder in options
  // ---------------------------------------------------------------------

  /** Options with the placeholder replaced in every key and string of a
      mapping, or in script text */
  function SubstOptions(o: Options, p: string, r: string): Options
    requires |p| > 0
  {
    match o
    case Mapping(ms) => Mapping(SubstMembers(ms, p, r))
    case Script(t) => Script(Replace(t, p, r))
  }

  /** The options text of a script holds only the script's own characters,
      the prefix, line breaks and the final comma. */
  lemma ScriptLacks(t: string, prefix: string, c: char)
    requires Lacks(t, c) && Lacks(prefix, c) && c != '\n' && c != ','
    ensures Lacks(OptionsToJs(Script(t), prefix), c)
  {
    DedentLacks(t, c);
    var s := Indent(Dedent(t), prefix);
    IndentLacks(Dedent(t), prefix, c);
    LacksPrefix(Rstrip(s), s, c);
    LacksAppend(Rstrip(s), ",", c);
  }

  /** Replacing the placeholder in the text of a mapping is writing the
      mapping with the placeholder replaced inside it, however deeply it
      is nested. */
  lemma MappingReplace(ms: seq<Member>, k: nat, p: string, r: string)
    requires SafePattern(p) && AllPlain(r)
    ensures Replace(OptionsToJs(Mapping(ms), Indentation(k)), p, r)
         == OptionsToJs(Mapping(SubstMembers(ms, p, r)), Indentation(k))
  {
    MappingToJs(ms, k);
    MappingToJs(SubstMembers(ms, p, r), k);
    BlockReplace(Indentation(k), Dumps(Object(ms), k), p, r);
    DumpsReplace(Object(ms), k, p, r);
  }

  /** Blanks before a text and a comma after it are left in place. */
  lemma BlockReplace(i: string, d: string, p: string, r: string)
    requires SafePattern(p) && forall j :: 0 <= j < |i| ==> i[j] == ' '
    ensures Replace(i + d + ",", p, r) == i + Replace(d, p, r) + ","
  {
    LacksSuffix(p, 1, ',');
    ReplaceConcat(i + d, ",", p, r);
    ReplaceSkip(",", [], p, r);
    assert "," + [] == ",";
    ReplaceSkip(i, d, p, r);
  }

  /** The same for any options whose script text, if any, does not hold
      the placeholder's first character: such text is left as it is. */
  lemma OptionsReplace(o: Options, p: string, r: string)
    requires SafePattern(p) && AllPlain(r)
    requires o.Script? ==> Lacks(o.text, p[0])
    ensures Replace(OptionsToJs(o, OPTIONS_PREFIX), p, r) == OptionsToJs(SubstOptions(o, p, r), OPTIONS_PREFIX)
  {
    OptionsPrefix();
    match o
    case Mapping(ms) =>
      MappingReplace(ms, 2, p, r);
    case Script(t) =>
      ReplaceSkip(t, [], p, r);
      assert t + [] == t;
      var x := OptionsToJs(o, OPTIONS_PREFIX);
      ScriptLacks(t, OPTIONS_PREFIX, p[0]);
      ReplaceSkip(x, [], p, r);
      assert x + [] == x;
  }
}
