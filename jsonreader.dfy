/** A reader for the text `Json.Dumps` writes, and the proof that it
    inverts it: the serialised options lose nothing, keep the key order of
    the mapping and the order of list items, and two different option
    values never serialise to the same text. */
module JsonReader {
  import opened Wrappers
  import opened Json

  predicate IsDigit(c: char) {
    '0' <= c <= '9'
  }

  // ---------------------------------------------------------------------
  // numbers
  // ---------------------------------------------------------------------

  /** Length of the run of decimal digits at the front of `s` */
  function DigitSpan(s: string): (k: nat)
    ensures k <= |s|
    ensures forall i :: 0 <= i < k ==> IsDigit(s[i])
    ensures k == |s| || !IsDigit(s[k])
  {
    if |s| > 0 && IsDigit(s[0]) then 1 + DigitSpan(s[1..]) else 0
  }

  function DigitsValue(ds: string): nat
    requires AllDigits(ds)
  {
    if |ds| == 0 then 0 else DigitsValue(ds[..|ds| - 1]) * 10 + (ds[|ds| - 1] as int - '0' as int)
  }

  /** The longest run of digits at the front of `s`, as a number */
  function ParseNat(s: string): (r: Option<(nat, string)>)
    ensures r.Some? ==> |r.value.1| < |s|
  {
    var k := DigitSpan(s);
    if k == 0 then None else Some((DigitsValue(s[..k]), s[k..]))
  }

  function ParseInt(s: string): (r: Option<(int, string)>)
    ensures r.Some? ==> |r.value.1| < |s|
  {
    if |s| > 0 && s[0] == '-' then
      match ParseNat(s[1..])
      case Some((n, rest)) => Some((-(n as int), rest))
      case None => None
    else
      match ParseNat(s)
      case Some((n, rest)) => Some((n as int, rest))
      case None => None
  }

  // ---------------------------------------------------------------------
  // string literals
  // ---------------------------------------------------------------------

  function HexValue(c: char): (r: Option<nat>)
    ensures r.Some? ==> r.value < 16
  {
    if '0' <= c <= '9' then Some(c as int - '0' as int)
    else if 'a' <= c <= 'f' then Some(c as int - 'a' as int + 10)
    else if 'A' <= c <= 'F' then Some(c as int - 'A' as int + 10)
    else None
  }

  /** Four hexadecimal digits at the front of `s` */
  function ParseHex4(s: string): (r: Option<nat>)
    ensures r.Some? ==> |s| >= 4 && r.value < 0x10000
  {
    if |s| < 4 then None
    else
      match (HexValue(s[0]), HexValue(s[1]), HexValue(s[2]), HexValue(s[3]))
      case (Some(a), Some(b), Some(c), Some(d)) => Some(a * 0x1000 + b * 0x100 + c * 0x10 + d)
      case _ => None
  }

  /** The character an escape stands for; `s` follows the backslash. A
      `\u` escape of a high surrogate must be followed by one of a low
      surrogate, and the pair stands for one character beyond the basic
      plane. */
  function ParseEscape(s: string): (r: Option<(char, string)>)
    ensures r.Some? ==> |r.value.1| < |s|
  {
    if |s| == 0 then None
    else if s[0] == '"' then Some(('"', s[1..]))
    else if s[0] == '\\' then Some(('\\', s[1..]))
    else if s[0] == '/' then Some(('/', s[1..]))
    else if s[0] == 'b' then Some((8 as char, s[1..]))
    else if s[0] == 'f' then Some((12 as char, s[1..]))
    else if s[0] == 'n' then Some(('\n', s[1..]))
    else if s[0] == 'r' then Some(('\r', s[1..]))
    else if s[0] == 't' then Some(('\t', s[1..]))
    else if s[0] == 'u' then
      match ParseHex4(s[1..])
      case None => None
      case Some(u) =>
        if u < 0xd800 || 0xe000 <= u then Some((u as char, s[5..]))
        else if u < 0xdc00 && |s| >= 7 && s[5] == '\\' && s[6] == 'u' then
          match ParseHex4(s[7..])
          case Some(l) =>
            if 0xdc00 <= l < 0xe000 then Some(((0x10000 + (u - 0xd800) * 0x400 + (l - 0xdc00)) as char, s[11..]))
            else None
          case None => None
        else None
    else None
  }

  /** One character of a string literal, escaped or not */
  function ParseChar(s: string): (r: Option<(char, string)>)
    ensures r.Some? ==> |r.value.1| < |s|
  {
    if |s| == 0 then None
    else if s[0] == '\\' then ParseEscape(s[1..])
    else if ' ' <= s[0] && s[0] != '"' then Some((s[0], s[1..]))
    else None
  }

  /** The rest of a string literal after its opening quote, up to and
      including the closing one */
  function ParseString(s: string): (r: Option<(string, string)>)
    ensures r.Some? ==> |r.value.1| < |s|
  {
    if |s| == 0 then None
    else if s[0] == '"' then Some(([], s[1..]))
    else
      match ParseChar(s)
      case None => None
      case Some((c, rest)) =>
        match ParseString(rest)
        case None => None
        case Some((str, rest')) => Some(([c] + str, rest'))
  }

  // ---------------------------------------------------------------------
  // values
  // ---------------------------------------------------------------------

  /** One value written at nesting `level`, with the layout `Dumps` uses */
  function ParseValue(s: string, level: nat): (r: Option<(Json, string)>)
    ensures r.Some? ==> |r.value.1| < |s|
    decreases |s|, 0
  {
    var open := "\n" + Indentation(level + 1);
    var close := "\n" + Indentation(level);
    if |s| == 0 then None
    else if s[0] == 'n' then
      if "null" <= s then Some((Null, s[4..])) else None
    else if s[0] == 't' then
      if "true" <= s then Some((Bool(true), s[4..])) else None
    else if s[0] == 'f' then
      if "false" <= s then Some((Bool(false), s[5..])) else None
    else if s[0] == '-' || IsDigit(s[0]) then
      match ParseInt(s)
      case Some((i, rest)) => Some((Int(i), rest))
      case None => None
    else if s[0] == '"' then
      match ParseString(s[1..])
      case Some((str, rest)) => Some((Str(str), rest))
      case None => None
    else if s[0] == '[' then
      if "[]" <= s then Some((Array([]), s[2..]))
      else if open <= s[1..] then
        match ParseItems(s[1 + |open|..], level + 1)
        case Some((items, rest)) =>
          if close + "]" <= rest then Some((Array(items), rest[|close| + 1..])) else None
        case None => None
      else None
    else if s[0] == '{' then
      if "{}" <= s then Some((Object([]), s[2..]))
      else if open <= s[1..] then
        match ParseMembers(s[1 + |open|..], level + 1)
        case Some((ms, rest)) =>
          if close + "}" <= rest then Some((Object(ms), rest[|close| + 1..])) else None
        case None => None
      else None
    else None
  }

  /** Items separated by a comma, a new line and the indentation of `level` */
  function ParseItems(s: string, level: nat): (r: Option<(seq<Json>, string)>)
    ensures r.Some? ==> |r.value.1| < |s|
    decreases |s|, 1
  {
    var sep := ",\n" + Indentation(level);
    match ParseValue(s, level)
    case None => None
    case Some((v, rest)) =>
      if sep <= rest then
        match ParseItems(rest[|sep|..], level)
        case Some((vs, rest')) => Some(([v] + vs, rest'))
        case None => None
      else Some(([v], rest))
  }

  /** Members separated like items */
  function ParseMembers(s: string, level: nat): (r: Option<(seq<Member>, string)>)
    ensures r.Some? ==> |r.value.1| < |s|
    decreases |s|, 1
  {
    var sep := ",\n" + Indentation(level);
    match ParseMember(s, level)
    case None => None
    case Some((m, rest)) =>
      if sep <= rest then
        match ParseMembers(rest[|sep|..], level)
        case Some((ms, rest')) => Some(([m] + ms, rest'))
        case None => None
      else Some(([m], rest))
  }

  /** One member `"key": value` */
  function ParseMember(s: string, level: nat): (r: Option<(Member, string)>)
    ensures r.Some? ==> |r.value.1| < |s|
    decreases |s|, 0
  {
    if |s| == 0 || s[0] != '"' then None
    else
      match ParseString(s[1..])
      case None => None
      case Some((key, afterKey)) =>
        if !(": " <= afterKey) then None
        else
          match ParseValue(afterKey[2..], level)
          case None => None
          case Some((v, rest)) => Some((Member(key, v), rest))
  }

  /** The whole text is one value written at the top level */
  function Parse(s: string): (r: Option<Json>) {
    match ParseValue(s, 0)
    case Some((v, rest)) => if |rest| == 0 then Some(v) else None
    case None => None
  }

  // ---------------------------------------------------------------------
  // round trips
  // ---------------------------------------------------------------------

  lemma {:induction false} DigitSpanOfDigits(ds: string, rest: string)
    requires AllDigits(ds)
    requires |rest| == 0 || !IsDigit(rest[0])
    ensures DigitSpan(ds + rest) == |ds|
  {
    if |ds| > 0 {
      assert (ds + rest)[1..] == ds[1..] + rest;
      DigitSpanOfDigits(ds[1..], rest);
    } else {
      assert ds + rest == rest;
    }
  }

  lemma {:induction false} DigitsValueOfNat(n: nat)
    ensures DigitsValue(NatToString(n)) == n
    decreases n
  {
    var r := NatToString(n);
    if n >= 10 {
      DigitsValueOfNat(n / 10);
      assert r[..|r| - 1] == NatToString(n / 10);
    }
  }

  lemma NatRoundTrip(n: nat, rest: string)
    requires |rest| == 0 || !IsDigit(rest[0])
    ensures ParseNat(NatToString(n) + rest) == Some((n, rest))
  {
    var ds := NatToString(n);
    DigitSpanOfDigits(ds, rest);
    assert (ds + rest)[..|ds|] == ds;
    assert (ds + rest)[|ds|..] == rest;
    DigitsValueOfNat(n);
  }

  lemma IntRoundTrip(i: int, rest: string)
    requires |rest| == 0 || !IsDigit(rest[0])
    ensures ParseInt(IntToString(i) + rest) == Some((i, rest))
  {
    if i < 0 {
      NegativeRoundTrip(-i, rest);
    } else {
      NatRoundTrip(i, rest);
      NonNegativeParsed(NatToString(i) + rest, i, rest);
    }
  }

  lemma NegativeRoundTrip(n: nat, rest: string)
    requires |rest| == 0 || !IsDigit(rest[0])
    ensures ParseInt("-" + NatToString(n) + rest) == Some((-(n as int), rest))
  {
    var s := "-" + NatToString(n) + rest;
    assert s[1..] == NatToString(n) + rest;
    NatRoundTrip(n, rest);
    NegativeParsed(s, n, rest);
  }

  lemma NegativeParsed(s: string, n: nat, rest: string)
    requires |s| > 0 && s[0] == '-' && ParseNat(s[1..]) == Some((n, rest))
    ensures ParseInt(s) == Some((-(n as int), rest))
  {
  }

  lemma NonNegativeParsed(s: string, n: nat, rest: string)
    requires |s| > 0 && s[0] != '-' && ParseNat(s) == Some((n, rest))
    ensures ParseInt(s) == Some((n as int, rest))
  {
  }

  lemma HexDigitValue(d: nat)
    requires d < 16
    ensures HexValue(HexDigit(d)) == Some(d)
  {
  }

  lemma Hex4RoundTrip(n: nat, rest: string)
    requires n < 0x10000
    ensures ParseHex4(Hex4(n) + rest) == Some(n)
  {
    var s := Hex4(n) + rest;
    HexDigitValue(n / 0x1000);
    HexDigitValue(n / 0x100 % 0x10);
    HexDigitValue(n / 0x10 % 0x10);
    HexDigitValue(n % 0x10);
    assert s[0] == HexDigit(n / 0x1000) && s[1] == HexDigit(n / 0x100 % 0x10);
    assert s[2] == HexDigit(n / 0x10 % 0x10) && s[3] == HexDigit(n % 0x10);
    DigitsOfHex4(n);
  }

  lemma DigitsOfHex4(n: nat)
    requires n < 0x10000
    ensures (n / 0x1000) * 0x1000 + (n / 0x100 % 0x10) * 0x100 + (n / 0x10 % 0x10) * 0x10 + n % 0x10 == n
  {
    assert n / 0x100 == (n / 0x1000) * 0x10 + n / 0x100 % 0x10;
    assert n / 0x10 == (n / 0x100) * 0x10 + n / 0x10 % 0x10;
    assert n == (n / 0x10) * 0x10 + n % 0x10;
  }

  /** The two-character escapes */
  predicate HasShortEscape(c: char) {
    c == '\\' || c == '"' || c as int == 0x08 || c as int == 0x0c || c == '\n' || c == '\r' || c == '\t'
  }

  lemma ShortEscapeRoundTrip(c: char, rest: string)
    requires HasShortEscape(c)
    ensures ParseChar(EscapeChar(c) + rest) == Some((c, rest))
  {
    var s := EscapeChar(c) + rest;
    assert |EscapeChar(c)| == 2 && s[0] == '\\';
    assert s[1..] == [EscapeChar(c)[1]] + rest;
  }

  lemma UnicodeEscapeRoundTrip(c: char, rest: string)
    requires !IsPlain(c) && !HasShortEscape(c) && c as int < 0x10000
    ensures ParseChar(EscapeChar(c) + rest) == Some((c, rest))
  {
    var s := EscapeChar(c) + rest;
    assert EscapeChar(c) == "\\u" + Hex4(c as int);
    assert s[1..][1..] == Hex4(c as int) + rest;
    Hex4RoundTrip(c as int, rest);
    UnicodeParsed(s[1..], c, rest);
  }

  lemma UnicodeParsed(s: string, c: char, rest: string)
    requires |s| >= 5 && s[0] == 'u' && ParseHex4(s[1..]) == Some(c as int) && s[5..] == rest
    ensures ParseEscape(s) == Some((c, rest))
  {
  }

  lemma SurrogateEscapeRoundTrip(c: char, rest: string)
    requires c as int >= 0x10000
    ensures ParseChar(EscapeChar(c) + rest) == Some((c, rest))
  {
    var v := c as int - 0x10000;
    var hi := 0xd800 + v / 0x400;
    var lo := 0xdc00 + v % 0x400;
    var t := "u" + Hex4(hi) + "\\u" + Hex4(lo) + rest;
    SurrogateText(hi, lo, rest);
    SurrogateParsed(t, c, hi, lo, rest);
    SurrogateShape(c, rest);
    EscapedParsed("\\" + t, t);
  }

  lemma SurrogateShape(c: char, rest: string)
    requires c as int >= 0x10000
    ensures var v := c as int - 0x10000;
      EscapeChar(c) + rest == "\\" + ("u" + Hex4(0xd800 + v / 0x400) + "\\u" + Hex4(0xdc00 + v % 0x400) + rest)
  {
    var v := c as int - 0x10000;
    assert EscapeChar(c) == SurrogatePair(c as int);
    BackslashFirst(Hex4(0xd800 + v / 0x400), Hex4(0xdc00 + v % 0x400), rest);
  }

  lemma BackslashFirst(hi: string, lo: string, rest: string)
    ensures "\\u" + hi + "\\u" + lo + rest == "\\" + ("u" + hi + "\\u" + lo + rest)
  {
    assert "\\u" == "\\" + "u";
  }

  /** Where the two halves of a surrogate-pair escape sit */
  lemma SurrogateText(hi: nat, lo: nat, rest: string)
    requires hi < 0x10000 && lo < 0x10000
    ensures var t := "u" + Hex4(hi) + "\\u" + Hex4(lo) + rest;
      |t| >= 11 && t[0] == 'u' && t[5] == '\\' && t[6] == 'u'
      && ParseHex4(t[1..]) == Some(hi) && ParseHex4(t[7..]) == Some(lo) && t[11..] == rest
  {
    var t := "u" + Hex4(hi) + "\\u" + Hex4(lo) + rest;
    assert t[1..] == Hex4(hi) + ("\\u" + Hex4(lo) + rest);
    Hex4RoundTrip(hi, "\\u" + Hex4(lo) + rest);
    assert t[7..] == Hex4(lo) + rest;
    Hex4RoundTrip(lo, rest);
  }

  lemma EscapedParsed(s: string, t: string)
    requires |s| > 0 && s[0] == '\\' && s[1..] == t
    ensures ParseChar(s) == ParseEscape(t)
  {
  }

  lemma SurrogateParsed(s: string, c: char, hi: nat, lo: nat, rest: string)
    requires c as int >= 0x10000 && hi == 0xd800 + (c as int - 0x10000) / 0x400 && lo == 0xdc00 + (c as int - 0x10000) % 0x400
    requires |s| >= 11 && s[0] == 'u' && s[5] == '\\' && s[6] == 'u'
    requires ParseHex4(s[1..]) == Some(hi) && ParseHex4(s[7..]) == Some(lo) && s[11..] == rest
    ensures ParseEscape(s) == Some((c, rest))
  {
    assert 0x10000 + (hi - 0xd800) * 0x400 + (lo - 0xdc00) == c as int;
  }

  lemma EscapeCharRoundTrip(c: char, rest: string)
    ensures ParseChar(EscapeChar(c) + rest) == Some((c, rest))
  {
    if IsPlain(c) {
      assert (EscapeChar(c) + rest)[1..] == rest;
    } else if HasShortEscape(c) {
      ShortEscapeRoundTrip(c, rest);
    } else if c as int < 0x10000 {
      UnicodeEscapeRoundTrip(c, rest);
    } else {
      SurrogateEscapeRoundTrip(c, rest);
    }
  }

  lemma {:induction false} StringRoundTrip(str: string, rest: string)
    ensures ParseString(Escape(str) + "\"" + rest) == Some((str, rest))
  {
    if |str| == 0 {
      assert Escape(str) + "\"" + rest == "\"" + rest;
    } else {
      var e := EscapeChar(str[0]);
      var tail := Escape(str[1..]) + "\"" + rest;
      assert Escape(str) + "\"" + rest == e + tail;
      assert e[0] != '"';
      EscapeCharRoundTrip(str[0], tail);
      StringRoundTrip(str[1..], rest);
      assert [str[0]] + str[1..] == str;
    }
  }

  lemma QuoteRoundTrip(str: string, rest: string)
    ensures var s := Quote(str) + rest; s[0] == '"' && ParseString(s[1..]) == Some((str, rest))
  {
    var s := Quote(str) + rest;
    assert s[1..] == Escape(str) + "\"" + rest;
    StringRoundTrip(str, rest);
  }

  /** What may follow a serialised value inside the text: the end, or the
      comma or new line that closes it */
  predicate Follows(rest: string) {
    |rest| == 0 || rest[0] == ',' || rest[0] == '\n'
  }

  lemma {:induction false} ValueRoundTrip(v: Json, level: nat, rest: string)
    requires Follows(rest)
    ensures ParseValue(Dumps(v, level) + rest, level) == Some((v, rest))
    decreases v, 2
  {
    if v.Array? {
      ArrayRoundTrip(v, level, rest);
    } else if v.Object? {
      ObjectRoundTrip(v, level, rest);
    } else {
      ScalarRoundTrip(v, level, rest);
    }
  }

  lemma {:induction false} ArrayRoundTrip(v: Json, level: nat, rest: string)
    requires Follows(rest) && v.Array?
    ensures ParseValue(Dumps(v, level) + rest, level) == Some((v, rest))
    decreases v, 1
  {
    if |v.items| == 0 {
      EmptyContainerRoundTrip(v, level, rest);
    } else {
      ItemsRoundTrip(v.items, level + 1, "\n" + Indentation(level) + "]" + rest);
      ArrayNonEmpty(v, level, rest);
    }
  }

  lemma {:induction false} ObjectRoundTrip(v: Json, level: nat, rest: string)
    requires Follows(rest) && v.Object?
    ensures ParseValue(Dumps(v, level) + rest, level) == Some((v, rest))
    decreases v, 1
  {
    if |v.members| == 0 {
      EmptyContainerRoundTrip(v, level, rest);
    } else {
      MembersRoundTrip(v.members, level + 1, "\n" + Indentation(level) + "}" + rest);
      ObjectNonEmpty(v, level, rest);
    }
  }

  /** Literals, numbers and strings read back by themselves */
  lemma ScalarRoundTrip(v: Json, level: nat, rest: string)
    requires Follows(rest)
    requires !v.Array? && !v.Object?
    ensures ParseValue(Dumps(v, level) + rest, level) == Some((v, rest))
  {
    var s := Dumps(v, level) + rest;
    if v.Null? {
      assert s[..4] == "null" && s[4..] == rest;
    } else if v.Bool? {
      if v.b {
        assert s[..4] == "true" && s[4..] == rest;
      } else {
        assert s[..5] == "false" && s[5..] == rest;
      }
    } else if v.Int? {
      IntRoundTrip(v.i, rest);
      IntParsed(s, v.i, rest);
    } else {
      QuoteRoundTrip(v.s, rest);
      StrParsed(s, v.s, rest);
    }
  }

  lemma IntParsed(s: string, i: int, rest: string)
    requires s == IntToString(i) + rest && ParseInt(s) == Some((i, rest))
    ensures ParseValue(s, 0) == Some((Int(i), rest))
    ensures forall level: nat {:trigger ParseValue(s, level)} :: ParseValue(s, level) == Some((Int(i), rest))
  {
  }

  lemma StrParsed(s: string, str: string, rest: string)
    requires |s| > 0 && s[0] == '"' && ParseString(s[1..]) == Some((str, rest))
    ensures forall level: nat {:trigger ParseValue(s, level)} :: ParseValue(s, level) == Some((Str(str), rest))
  {
  }

  lemma EmptyContainerRoundTrip(v: Json, level: nat, rest: string)
    requires (v.Array? && |v.items| == 0) || (v.Object? && |v.members| == 0)
    ensures ParseValue(Dumps(v, level) + rest, level) == Some((v, rest))
  {
    var s := Dumps(v, level) + rest;
    if v.Array? {
      assert s[..2] == "[]" && s[2..] == rest;
    } else {
      assert s[..2] == "{}" && s[2..] == rest;
    }
  }

  /** A non-empty list reads back once its items do */
  lemma ArrayNonEmpty(v: Json, level: nat, rest: string)
    requires v.Array? && |v.items| > 0
    requires ParseItems(DumpsItems(v.items, level + 1) + ("\n" + Indentation(level) + "]" + rest), level + 1)
      == Some((v.items, "\n" + Indentation(level) + "]" + rest))
    ensures ParseValue(Dumps(v, level) + rest, level) == Some((v, rest))
  {
    var open := "\n" + Indentation(level + 1);
    var close := "\n" + Indentation(level);
    var body := DumpsItems(v.items, level + 1);
    var s := Dumps(v, level) + rest;
    assert Dumps(v, level) == "[" + "\n" + Indentation(level + 1) + body + "\n" + Indentation(level) + "]";
    Regroup("[", "\n", Indentation(level + 1), body, "\n", Indentation(level), "]");
    ContainerShape('[', ']', level, body, rest);
    ArrayParsed(s, level, v.items, close + "]" + rest, rest);
  }

  /** The bracket case of `ParseValue`, once the items have been read */
  lemma ArrayParsed(s: string, level: nat, items: seq<Json>, tail: string, rest: string)
    requires |s| >= 2 && s[0] == '[' && s[1] == '\n'
    requires "\n" + Indentation(level + 1) <= s[1..]
    requires ParseItems(s[1 + |"\n" + Indentation(level + 1)|..], level + 1) == Some((items, tail))
    requires "\n" + Indentation(level) + "]" <= tail
    requires tail[|"\n" + Indentation(level)| + 1..] == rest
    ensures ParseValue(s, level) == Some((Array(items), rest))
  {
    assert !("[]" <= s);
  }

  /** A non-empty mapping reads back once its members do */
  lemma ObjectNonEmpty(v: Json, level: nat, rest: string)
    requires v.Object? && |v.members| > 0
    requires ParseMembers(DumpsMembers(v.members, level + 1) + ("\n" + Indentation(level) + "}" + rest), level + 1)
      == Some((v.members, "\n" + Indentation(level) + "}" + rest))
    ensures ParseValue(Dumps(v, level) + rest, level) == Some((v, rest))
  {
    var open := "\n" + Indentation(level + 1);
    var close := "\n" + Indentation(level);
    var body := DumpsMembers(v.members, level + 1);
    var s := Dumps(v, level) + rest;
    assert Dumps(v, level) == "{" + "\n" + Indentation(level + 1) + body + "\n" + Indentation(level) + "}";
    Regroup("{", "\n", Indentation(level + 1), body, "\n", Indentation(level), "}");
    ContainerShape('{', '}', level, body, rest);
    ObjectParsed(s, level, v.members, close + "}" + rest, rest);
  }

  /** The brace case of `ParseValue`, once the members have been read */
  lemma ObjectParsed(s: string, level: nat, ms: seq<Member>, tail: string, rest: string)
    requires |s| >= 2 && s[0] == '{' && s[1] == '\n'
    requires "\n" + Indentation(level + 1) <= s[1..]
    requires ParseMembers(s[1 + |"\n" + Indentation(level + 1)|..], level + 1) == Some((ms, tail))
    requires "\n" + Indentation(level) + "}" <= tail
    requires tail[|"\n" + Indentation(level)| + 1..] == rest
    ensures ParseValue(s, level) == Some((Object(ms), rest))
  {
    assert !("{}" <= s);
  }

  lemma Regroup(a: string, b: string, c: string, d: string, e: string, f: string, g: string)
    ensures a + b + c + d + e + f + g == a + (b + c) + d + (e + f) + g
  {
  }

  /** Where the pieces of a serialised non-empty container sit */
  lemma ContainerShape(o: char, c: char, level: nat, body: string, rest: string)
    ensures var open := "\n" + Indentation(level + 1);
      var close := "\n" + Indentation(level);
      var s := [o] + open + body + close + [c] + rest;
      |s| >= 2 && s[0] == o && s[1] == '\n' && open <= s[1..]
      && s[1 + |open|..] == body + (close + [c] + rest)
      && close + [c] <= close + [c] + rest && (close + [c] + rest)[|close| + 1..] == rest
  {
    var open := "\n" + Indentation(level + 1);
    var close := "\n" + Indentation(level);
    var s := [o] + open + body + close + [c] + rest;
    assert s[1..][..|open|] == open;
    assert s[1 + |open|..] == body + (close + [c] + rest);
    assert (close + [c] + rest)[..|close| + 1] == close + [c];
  }

  lemma {:induction false} ItemsRoundTrip(items: seq<Json>, level: nat, tail: string)
    requires |items| > 0 && |tail| > 0 && tail[0] == '\n'
    ensures ParseItems(DumpsItems(items, level) + tail, level) == Some((items, tail))
    decreases items, 1
  {
    if |items| == 1 {
      var sep := ",\n" + Indentation(level);
      assert DumpsItems(items, level) + tail == Dumps(items[0], level) + tail;
      ValueRoundTrip(items[0], level, tail);
      assert !(sep <= tail);
      assert items == [items[0]];
    } else {
      ItemsConsRoundTrip(items, level, tail);
    }
  }

  lemma {:induction false} ItemsConsRoundTrip(items: seq<Json>, level: nat, tail: string)
    requires |items| > 1 && |tail| > 0 && tail[0] == '\n'
    ensures ParseItems(DumpsItems(items, level) + tail, level) == Some((items, tail))
    decreases items, 0
  {
    var sep := ",\n" + Indentation(level);
    var more := DumpsItems(items[1..], level) + tail;
    assert DumpsItems(items, level) + tail == Dumps(items[0], level) + (sep + more);
    ValueRoundTrip(items[0], level, sep + more);
    ItemsRoundTrip(items[1..], level, tail);
    ItemsStep(Dumps(items[0], level) + (sep + more), level, items[0], more, items[1..], tail);
    assert [items[0]] + items[1..] == items;
  }

  /** An entry, the separator, the entries after it and what follows */
  lemma EntriesJoin(m: string, sep: string, ms: string, tail: string)
    ensures m + sep + ms + tail == m + (sep + (ms + tail))
  {
  }

  /** One entry, the separator, and the entries after it */
  lemma ItemsStep(s: string, level: nat, x: Json, more: string, xs: seq<Json>, tail: string)
    requires ParseValue(s, level) == Some((x, ",\n" + Indentation(level) + more))
    requires ParseItems(more, level) == Some((xs, tail))
    ensures ParseItems(s, level) == Some(([x] + xs, tail))
  {
    var sep := ",\n" + Indentation(level);
    assert (sep + more)[..|sep|] == sep;
    assert (sep + more)[|sep|..] == more;
  }


  lemma {:induction false} MembersRoundTrip(ms: seq<Member>, level: nat, tail: string)
    requires |ms| > 0 && |tail| > 0 && tail[0] == '\n'
    ensures ParseMembers(DumpsMembers(ms, level) + tail, level) == Some((ms, tail))
    decreases ms, 1
  {
    if |ms| == 1 {
      var sep := ",\n" + Indentation(level);
      assert DumpsMembers(ms, level) + tail == DumpsMember(ms[0], level) + tail;
      MemberRoundTrip(ms[0], level, tail);
      assert !(sep <= tail);
      assert ms == [ms[0]];
    } else {
      MembersConsRoundTrip(ms, level, tail);
    }
  }

  lemma {:induction false} MembersConsRoundTrip(ms: seq<Member>, level: nat, tail: string)
    requires |ms| > 1 && |tail| > 0 && tail[0] == '\n'
    ensures ParseMembers(DumpsMembers(ms, level) + tail, level) == Some((ms, tail))
    decreases ms, 0
  {
    var sep := ",\n" + Indentation(level);
    var more := DumpsMembers(ms[1..], level) + tail;
    var s := DumpsMember(ms[0], level) + (sep + more);
    assert DumpsMembers(ms, level) + tail == s by {
      assert "," + "\n" == ",\n";
      EntriesJoin(DumpsMember(ms[0], level), sep, DumpsMembers(ms[1..], level), tail);
    }
    assert ParseMember(s, level) == Some((ms[0], sep + more)) by {
      MemberRoundTrip(ms[0], level, sep + more);
    }
    assert ParseMembers(more, level) == Some((ms[1..], tail)) by {
      MembersRoundTrip(ms[1..], level, tail);
    }
    MembersStep(s, level, ms[0], more, ms[1..], tail);
    assert [ms[0]] + ms[1..] == ms;
  }

  /** One entry, the separator, and the entries after it */
  lemma MembersStep(s: string, level: nat, x: Member, more: string, xs: seq<Member>, tail: string)
    requires ParseMember(s, level) == Some((x, ",\n" + Indentation(level) + more))
    requires ParseMembers(more, level) == Some((xs, tail))
    ensures ParseMembers(s, level) == Some(([x] + xs, tail))
  {
    var sep := ",\n" + Indentation(level);
    assert (sep + more)[..|sep|] == sep;
    assert (sep + more)[|sep|..] == more;
  }


  lemma {:induction false} MemberRoundTrip(m: Member, level: nat, rest: string)
    requires Follows(rest)
    ensures ParseMember(DumpsMember(m, level) + rest, level) == Some((m, rest))
    decreases m
  {
    ValueRoundTrip(m.value, level, rest);
    MemberParsed(m.key, Dumps(m.value, level), m.value, level, rest);
  }

  /** A member reads back once its value does */
  lemma MemberParsed(key: string, d: string, v: Json, level: nat, rest: string)
    requires ParseValue(d + rest, level) == Some((v, rest))
    ensures ParseMember(Quote(key) + ": " + d + rest, level) == Some((Member(key, v), rest))
  {
    var t := ": " + d + rest;
    QuoteRoundTrip(key, t);
    MemberText(Quote(key), d, rest);
    MemberParsedAt(Quote(key) + t, key, t, v, level, rest);
  }

  lemma MemberText(q: string, d: string, rest: string)
    ensures var t := ": " + d + rest;
      ": " <= t && t[2..] == d + rest && q + ": " + d + rest == q + t
  {
    var t := ": " + d + rest;
    assert t[2..] == d + rest;
  }

  lemma MemberParsedAt(s: string, key: string, t: string, v: Json, level: nat, rest: string)
    requires |s| > 0 && s[0] == '"' && ParseString(s[1..]) == Some((key, t))
    requires ": " <= t && ParseValue(t[2..], level) == Some((v, rest))
    ensures ParseMember(s, level) == Some((Member(key, v), rest))
  {
  }

  /** The reader inverts the serialiser on every value. */
  lemma ParseDumps(v: Json)
    ensures Parse(Dumps(v, 0)) == Some(v)
  {
    ValueRoundTrip(v, 0, []);
    assert Dumps(v, 0) + [] == Dumps(v, 0);
  }

  /** Different values serialise to different texts: key order, list
      order and every scalar are visible in the output. */
  lemma DumpsInjective(v: Json, w: Json)
    requires Dumps(v, 0) == Dumps(w, 0)
    ensures v == w
  {
    ParseDumps(v);
    ParseDumps(w);
  }
}
