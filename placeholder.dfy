/** The version placeholder in rendered options. The renderer rewrites
    every occurrence of the placeholder in the whole generated script; here
    it is shown that, for a placeholder that cannot be confused with JSON
    syntax and a replacement without characters that need escaping, doing so
    on the serialised options is the same as serialising options in which
    every string, key and nested value had the placeholder replaced, so
    the rewrite keeps the options well formed. */
module Placeholder {
  import opened Strings
  import opened Json

  /** Characters the serialiser writes outside string bodies, and inside
      escape sequences */
  predicate IsSyntaxChar(c: char) {
    c == '{' || c == '}' || c == '[' || c == ']' || c == ',' || c == ':' || c == ' ' || c == '\n'
    || c == '"' || c == '\\' || c == '-' || ('a' <= c <= 'z') || ('0' <= c <= '9')
  }

  predicate AllSyntax(s: string) {
    forall i :: 0 <= i < |s| ==> IsSyntaxChar(s[i])
  }

  /** A placeholder that can only be matched inside string bodies: it is
      written as itself in a string literal, has no comma or colon, and
      begins with a character the serialiser never writes outside a string
      body */
  predicate SafePattern(p: string) {
    |p| > 0 && AllPlain(p) && Lacks(p, ',') && Lacks(p, ':') && !IsSyntaxChar(p[0])
  }

  /** The template placeholder for the library version */
  const VERSION_PLACEHOLDER: string := "${datatables_version}"

  lemma VersionPlaceholderSafe()
    ensures SafePattern(VERSION_PLACEHOLDER)
  {
  }

  /** The characters the placeholder is made of */
  predicate IsPlaceholderChar(c: char) {
    c == '$' || c == '{' || c == '}' || c == '_' || ('a' <= c <= 'z')
  }

  /** The placeholder opens with `${`, which occurs nowhere else in it, and
      uses only placeholder characters. */
  lemma PlaceholderAlphabet()
    ensures |VERSION_PLACEHOLDER| > 2 && VERSION_PLACEHOLDER[0] == '$' && VERSION_PLACEHOLDER[1] == '{'
    ensures Lacks(VERSION_PLACEHOLDER[1..], '$')
    ensures forall i :: 0 <= i < |VERSION_PLACEHOLDER| ==> IsPlaceholderChar(VERSION_PLACEHOLDER[i])
  {
  }

  // ---------------------------------------------------------------------
  // replacing inside values
  // ---------------------------------------------------------------------

  /** The value with the placeholder replaced in every string and key */
  function SubstValue(v: Json, p: string, r: string): (w: Json)
    requires |p| > 0
    ensures w.Array? <==> v.Array?
    ensures w.Object? <==> v.Object?
    ensures v.Array? ==> |w.items| == |v.items|
    ensures v.Object? ==> |w.members| == |v.members|
    decreases v, 1
  {
    match v
    case Str(s) => Str(Replace(s, p, r))
    case Array(items) => Array(SubstItems(items, p, r))
    case Object(ms) => Object(SubstMembers(ms, p, r))
    case _ => v
  }

  function SubstItems(items: seq<Json>, p: string, r: string): (ws: seq<Json>)
    requires |p| > 0
    ensures |ws| == |items|
    decreases items, 0
  {
    if |items| == 0 then [] else [SubstValue(items[0], p, r)] + SubstItems(items[1..], p, r)
  }

  function SubstMembers(ms: seq<Member>, p: string, r: string): (ws: seq<Member>)
    requires |p| > 0
    ensures |ws| == |ms|
    decreases ms, 0
  {
    if |ms| == 0 then []
    else [Member(Replace(ms[0].key, p, r), SubstValue(ms[0].value, p, r))] + SubstMembers(ms[1..], p, r)
  }

  // ---------------------------------------------------------------------
  // escaping and replacing commute
  // ---------------------------------------------------------------------

  /** A plain prefix is found in an escaped text exactly where it is found
      in the text itself: escapes begin with a backslash, which a plain
      string lacks. */
  lemma {:induction false} PlainPrefixOfEscape(q: string, t: string)
    requires AllPlain(q)
    ensures q <= Escape(t) <==> q <= t
    decreases |q|
  {
    if |q| > 0 && |t| > 0 {
      var e := EscapeChar(t[0]);
      assert Escape(t) == e + Escape(t[1..]);
      if IsPlain(t[0]) {
        PlainPrefixOfEscape(q[1..], t[1..]);
        assert (q <= Escape(t)) == (q[0] == t[0] && q[1..] <= Escape(t[1..]));
        assert (q <= t) == (q[0] == t[0] && q[1..] <= t[1..]);
      } else {
        assert Escape(t)[0] == '\\';
        assert !IsPlain(Escape(t)[0]);
      }
    }
  }

  /** The escape of a character that is not plain is made of syntax
      characters. */
  lemma EscapeCharSyntax(c: char)
    requires !IsPlain(c)
    ensures AllSyntax(EscapeChar(c))
  {
    var n := c as int;
    if c == '\\' || c == '"' || n == 0x08 || n == 0x0c || c == '\n' || c == '\r' || c == '\t' {
    } else if n < 0x10000 {
      assert EscapeChar(c) == "\\u" + Hex4(n);
      Hex4Syntax(n);
    } else {
      assert EscapeChar(c) == SurrogatePair(n);
      SurrogateSyntax(n);
    }
  }

  lemma SurrogateSyntax(n: nat)
    requires 0x10000 <= n < 0x110000
    ensures AllSyntax(SurrogatePair(n))
  {
    Hex4Syntax(0xd800 + (n - 0x10000) / 0x400);
    Hex4Syntax(0xdc00 + (n - 0x10000) % 0x400);
  }

  lemma Hex4Syntax(n: nat)
    requires n < 0x10000
    ensures AllSyntax(Hex4(n))
  {
  }

  lemma {:induction false} EscapeReplace(s: string, p: string, r: string)
    requires SafePattern(p) && AllPlain(r)
    ensures Replace(Escape(s), p, r) == Escape(Replace(s, p, r))
    decreases |s|
  {
    if |s| == 0 {
    } else if p <= s {
      var s' := s[|p|..];
      assert s == p + s';
      EscapeAppend(p, s');
      EscapePlain(p);
      ReplaceFront(Escape(s'), p, r);
      EscapeReplace(s', p, r);
      EscapeAppend(r, Replace(s', p, r));
      EscapePlain(r);
    } else {
      var c := s[0];
      var s' := s[1..];
      assert s == [c] + s';
      assert Escape(s) == EscapeChar(c) + Escape(s');
      EscapeReplace(s', p, r);
      if IsPlain(c) {
        PlainPrefixOfEscape(p, s);
        assert Escape(s)[1..] == Escape(s');
      } else {
        EscapeCharSyntax(c);
        ReplaceSkip(EscapeChar(c), Escape(s'), p, r);
      }
      assert Replace(s, p, r) == [c] + Replace(s', p, r);
      assert ([c] + Replace(s', p, r))[1..] == Replace(s', p, r);
    }
  }

  // ---------------------------------------------------------------------
  // replacing in the serialised text
  // ---------------------------------------------------------------------

  /** Text made only of syntax characters has nothing to replace. */
  lemma ReplaceSyntax(s: string, p: string, r: string)
    requires SafePattern(p) && AllSyntax(s)
    ensures Replace(s, p, r) == s
  {
    ReplaceSkip(s, [], p, r);
    assert s + [] == s;
  }

  /** A syntax prefix is copied and the replacement goes on after it. */
  lemma ReplaceAfterSyntax(a: string, b: string, p: string, r: string)
    requires SafePattern(p) && AllSyntax(a)
    ensures Replace(a + b, p, r) == a + Replace(b, p, r)
  {
    ReplaceSkip(a, b, p, r);
  }

  lemma IndentationSyntax(level: nat)
    ensures AllSyntax(Indentation(level))
  {
  }

  lemma IntSyntax(i: int)
    ensures AllSyntax(IntToString(i))
  {
    var d := NatToString(if i < 0 then -i else i);
    assert forall k :: 0 <= k < |d| ==> IsSyntaxChar(d[k]);
  }

  /** Replacing the placeholder in serialised options is serialising the
      options with the placeholder replaced in every string and key. */
  lemma {:induction false} DumpsReplace(v: Json, level: nat, p: string, r: string)
    requires SafePattern(p) && AllPlain(r)
    ensures Replace(Dumps(v, level), p, r) == Dumps(SubstValue(v, p, r), level)
    decreases v, 2
  {
    if v.Array? {
      ArrayReplace(v, level, p, r);
    } else if v.Object? {
      ObjectReplace(v, level, p, r);
    } else if v.Str? {
      StrReplace(v.s, p, r);
    } else if v.Int? {
      IntSyntax(v.i);
      ReplaceSyntax(IntToString(v.i), p, r);
    } else if v.Bool? {
      ReplaceSyntax(Dumps(v, level), p, r);
    } else {
      ReplaceSyntax("null", p, r);
    }
  }

  lemma StrReplace(s: string, p: string, r: string)
    requires SafePattern(p) && AllPlain(r)
    ensures Replace(Quote(s), p, r) == Quote(Replace(s, p, r))
  {
    var q := "\"";
    assert Quote(s) == q + (Escape(s) + q);
    ReplaceAfterSyntax(q, Escape(s) + q, p, r);
    ReplaceConcat(Escape(s), q, p, r);
    ReplaceSyntax(q, p, r);
    EscapeReplace(s, p, r);
  }

  lemma {:induction false} ArrayReplace(v: Json, level: nat, p: string, r: string)
    requires SafePattern(p) && AllPlain(r) && v.Array?
    ensures Replace(Dumps(v, level), p, r) == Dumps(SubstValue(v, p, r), level)
    decreases v, 1
  {
    if |v.items| == 0 {
      ReplaceSyntax("[]", p, r);
    } else {
      var i1 := Indentation(level + 1);
      var i0 := Indentation(level);
      var body := DumpsItems(v.items, level + 1);
      var body' := DumpsItems(SubstItems(v.items, p, r), level + 1);
      Regroup("[", "\n", i1, body, "\n", i0, "]");
      Regroup("[", "\n", i1, body', "\n", i0, "]");
      ItemsReplace(v.items, level + 1, p, r);
      ContainerReplace('[', ']', level, body, p, r);
    }
  }

  lemma {:induction false} ObjectReplace(v: Json, level: nat, p: string, r: string)
    requires SafePattern(p) && AllPlain(r) && v.Object?
    ensures Replace(Dumps(v, level), p, r) == Dumps(SubstValue(v, p, r), level)
    decreases v, 1
  {
    if |v.members| == 0 {
      ReplaceSyntax("{}", p, r);
    } else {
      var i1 := Indentation(level + 1);
      var i0 := Indentation(level);
      var body := DumpsMembers(v.members, level + 1);
      var body' := DumpsMembers(SubstMembers(v.members, p, r), level + 1);
      Regroup("{", "\n", i1, body, "\n", i0, "}");
      Regroup("{", "\n", i1, body', "\n", i0, "}");
      MembersReplace(v.members, level + 1, p, r);
      ContainerReplace('{', '}', level, body, p, r);
    }
  }

  lemma Regroup(a1: string, a2: string, a3: string, body: string, z1: string, z2: string, z3: string)
    ensures a1 + a2 + a3 + body + z1 + z2 + z3 == (a1 + a2 + a3) + body + (z1 + z2 + z3)
  {
  }

  /** The brackets and indentation around a container's body are kept. */
  lemma ContainerReplace(o: char, c: char, level: nat, body: string, p: string, r: string)
    requires SafePattern(p) && IsSyntaxChar(o) && IsSyntaxChar(c)
    ensures var open := [o] + "\n" + Indentation(level + 1);
      var close := "\n" + Indentation(level) + [c];
      Replace(open + body + close, p, r) == open + Replace(body, p, r) + close
  {
    var open := [o] + "\n" + Indentation(level + 1);
    var close := "\n" + Indentation(level) + [c];
    IndentationSyntax(level);
    IndentationSyntax(level + 1);
    assert AllSyntax(open);
    assert AllSyntax(close);
    Wrap(open, body, close, p, r);
  }

  /** Replacing between a syntax prefix and a syntax suffix that starts a
      new line */
  lemma Wrap(a: string, body: string, z: string, p: string, r: string)
    requires SafePattern(p) && AllSyntax(a) && AllSyntax(z) && |z| > 0 && z[0] == '\n'
    ensures Replace(a + body + z, p, r) == a + Replace(body, p, r) + z
  {
    ReplaceConcat(a + body, z, p, r);
    ReplaceAfterSyntax(a, body, p, r);
    ReplaceSyntax(z, p, r);
  }

  /** What follows a value inside a container is kept. */
  lemma SeparatorReplace(d: string, level: nat, rest: string, p: string, r: string)
    requires SafePattern(p)
    ensures var sep := "," + "\n" + Indentation(level);
      Replace(d + (sep + rest), p, r) == Replace(d, p, r) + (sep + Replace(rest, p, r))
  {
    var sep := "," + "\n" + Indentation(level);
    IndentationSyntax(level);
    assert AllSyntax(sep);
    ReplaceConcat(d, sep + rest, p, r);
    ReplaceAfterSyntax(sep, rest, p, r);
  }

  lemma {:induction false} ItemsReplace(items: seq<Json>, level: nat, p: string, r: string)
    requires SafePattern(p) && AllPlain(r) && |items| > 0
    ensures Replace(DumpsItems(items, level), p, r) == DumpsItems(SubstItems(items, p, r), level)
    decreases items, 1
  {
    var ws := SubstItems(items, p, r);
    assert ws[0] == SubstValue(items[0], p, r);
    DumpsReplace(items[0], level, p, r);
    if |items| == 1 {
      assert DumpsItems(items, level) == Dumps(items[0], level);
      assert DumpsItems(ws, level) == Dumps(ws[0], level);
    } else {
      assert ws[1..] == SubstItems(items[1..], p, r);
      ItemsReplace(items[1..], level, p, r);
      SeparatorReplace(Dumps(items[0], level), level, DumpsItems(items[1..], level), p, r);
    }
  }

  lemma {:induction false} MembersReplace(ms: seq<Member>, level: nat, p: string, r: string)
    requires SafePattern(p) && AllPlain(r) && |ms| > 0
    ensures Replace(DumpsMembers(ms, level), p, r) == DumpsMembers(SubstMembers(ms, p, r), level)
    decreases ms, 1
  {
    var ws := SubstMembers(ms, p, r);
    assert ws[0] == Member(Replace(ms[0].key, p, r), SubstValue(ms[0].value, p, r));
    MemberReplace(ms[0], level, p, r);
    if |ms| == 1 {
      assert DumpsMembers(ms, level) == DumpsMember(ms[0], level);
      assert DumpsMembers(ws, level) == DumpsMember(ws[0], level);
    } else {
      assert ws[1..] == SubstMembers(ms[1..], p, r);
      MembersReplace(ms[1..], level, p, r);
      SeparatorReplace(DumpsMember(ms[0], level), level, DumpsMembers(ms[1..], level), p, r);
    }
  }

  lemma {:induction false} MemberReplace(m: Member, level: nat, p: string, r: string)
    requires SafePattern(p) && AllPlain(r)
    ensures Replace(DumpsMember(m, level), p, r)
         == DumpsMember(Member(Replace(m.key, p, r), SubstValue(m.value, p, r)), level)
    decreases m
  {
    MemberTextReplace(Quote(m.key), Dumps(m.value, level), p, r);
    StrReplace(m.key, p, r);
    DumpsReplace(m.value, level, p, r);
  }

  /** The `": "` between a key and its value is kept. */
  lemma MemberTextReplace(q: string, d: string, p: string, r: string)
    requires SafePattern(p)
    ensures Replace(q + ": " + d, p, r) == Replace(q, p, r) + ": " + Replace(d, p, r)
  {
    assert q + ": " + d == q + (": " + d);
    assert AllSyntax(": ");
    ReplaceConcat(q, ": " + d, p, r);
    ReplaceAfterSyntax(": ", d, p, r);
  }
}
