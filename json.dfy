/** JSON values and the text `json.dumps(value, indent="    ")` writes for
    them: insertion-ordered keys, `": "` between key and value, `","` and a
    new line between items, four blanks per nesting level, `{}` and `[]`
    for empty containers, and ASCII-only string literals. Floats are not
    modelled; mapping keys are strings. */
module Json {
  import opened Strings

  datatype Json =
    | Null
    | Bool(b: bool)
    | Int(i: int)
    | Str(s: string)
    | Array(items: seq<Json>)
    | Object(members: seq<Member>)

  datatype Member = Member(key: string, value: Json)

  /** The indent unit of the options compiler */
  const INDENT: string := "    "

  /** `INDENT * level` */
  function Indentation(level: nat): (r: string)
    ensures |r| == 4 * level
    ensures forall i :: 0 <= i < |r| ==> r[i] == ' '
  {
    if level == 0 then [] else INDENT + Indentation(level - 1)
  }

  // ---------------------------------------------------------------------
  // string literals (ensure_ascii=True)
  // ---------------------------------------------------------------------

  predicate IsPrintableAscii(c: char) {
    ' ' <= c <= '~'
  }

  /** Characters written as themselves inside a string literal */
  predicate IsPlain(c: char) {
    IsPrintableAscii(c) && c != '"' && c != '\\'
  }

  predicate AllPlain(s: string) {
    forall i :: 0 <= i < |s| ==> IsPlain(s[i])
  }

  predicate AllPrintableAscii(s: string) {
    forall i :: 0 <= i < |s| ==> IsPrintableAscii(s[i])
  }

  /** Lower-case hexadecimal digit */
  function HexDigit(d: nat): (c: char)
    requires d < 16
    ensures IsPrintableAscii(c)
  {
    if d < 10 then ('0' as int + d) as char else ('a' as int + d - 10) as char
  }

  /** `'{0:04x}'.format(n)` */
  function Hex4(n: nat): (r: string)
    requires n < 0x10000
    ensures |r| == 4 && AllPrintableAscii(r)
  {
    [HexDigit(n / 0x1000), HexDigit(n / 0x100 % 0x10), HexDigit(n / 0x10 % 0x10), HexDigit(n % 0x10)]
  }

  /** The escape `json.dumps` writes for one character: itself when plain,
      a two-character escape for `\`, `"`, backspace, form feed, new line,
      carriage return and tab, `\uXXXX` for the rest of the basic plane and
      a surrogate pair of `\uXXXX` beyond it */
  function EscapeChar(c: char): (r: string)
    ensures |r| > 0 && AllPrintableAscii(r)
    ensures IsPlain(c) <==> r == [c]
    ensures !IsPlain(c) ==> r[0] == '\\'
  {
    var n := c as int;
    if IsPlain(c) then [c]
    else if c == '\\' then "\\\\"
    else if c == '"' then "\\\""
    else if n == 0x08 then "\\b"
    else if n == 0x0c then "\\f"
    else if c == '\n' then "\\n"
    else if c == '\r' then "\\r"
    else if c == '\t' then "\\t"
    else if n < 0x10000 then "\\u" + Hex4(n)
    else SurrogatePair(n)
  }

  /** `\uXXXX\uXXXX`: the UTF-16 surrogate pair of a character beyond the
      basic plane */
  function SurrogatePair(n: nat): (r: string)
    requires 0x10000 <= n < 0x110000
    ensures |r| == 12 && AllPrintableAscii(r) && r[0] == '\\'
  {
    "\\u" + Hex4(0xd800 + (n - 0x10000) / 0x400) + "\\u" + Hex4(0xdc00 + (n - 0x10000) % 0x400)
  }

  /** The body of a string literal: printable ASCII only, so in particular
      without line boundaries */
  function Escape(s: string): (r: string)
    ensures AllPrintableAscii(r)
    ensures |r| >= |s|
  {
    if |s| == 0 then [] else EscapeChar(s[0]) + Escape(s[1..])
  }

  function Quote(s: string): string {
    "\"" + Escape(s) + "\""
  }

  // ---------------------------------------------------------------------
  // integers
  // ---------------------------------------------------------------------

  function DigitChar(d: nat): (c: char)
    requires d < 10
    ensures '0' <= c <= '9'
  {
    ('0' as int + d) as char
  }

  predicate AllDigits(s: string) {
    forall i :: 0 <= i < |s| ==> '0' <= s[i] <= '9'
  }

  /** Decimal digits of a natural number, without leading zeros */
  function NatToString(n: nat): (r: string)
    ensures |r| > 0 && AllDigits(r)
    ensures r[0] == '0' ==> n == 0 && r == "0"
    decreases n
  {
    if n < 10 then [DigitChar(n)] else NatToString(n / 10) + [DigitChar(n % 10)]
  }

  /** `repr(i)` of a Python int */
  function IntToString(i: int): (r: string)
    ensures |r| > 0 && (r[0] == '-' || '0' <= r[0] <= '9') && AllDigits(r[1..])
    ensures r[0] == '-' <==> i < 0
  {
    if i < 0 then "-" + NatToString(-i) else NatToString(i)
  }

  // ---------------------------------------------------------------------
  // dumps
  // ---------------------------------------------------------------------

  /** `json.dumps(v, indent=INDENT)` for a value nested `level` deep */
  function Dumps(v: Json, level: nat): string
    decreases v
  {
    match v
    case Null => "null"
    case Bool(b) => if b then "true" else "false"
    case Int(i) => IntToString(i)
    case Str(s) => Quote(s)
    case Array(items) =>
      if |items| == 0 then "[]"
      else "[" + "\n" + Indentation(level + 1) + DumpsItems(items, level + 1) + "\n" + Indentation(level) + "]"
    case Object(ms) =>
      if |ms| == 0 then "{}"
      else "{" + "\n" + Indentation(level + 1) + DumpsMembers(ms, level + 1) + "\n" + Indentation(level) + "}"
  }

  /** The items of a non-empty list, separated by `","`, a new line and the
      indentation of their level */
  function DumpsItems(items: seq<Json>, level: nat): string
    requires |items| > 0
    decreases items
  {
    Dumps(items[0], level)
      + (if |items| == 1 then "" else "," + "\n" + Indentation(level) + DumpsItems(items[1..], level))
  }

  /** The members of a non-empty mapping, in insertion order */
  function DumpsMembers(ms: seq<Member>, level: nat): string
    requires |ms| > 0
    decreases ms
  {
    DumpsMember(ms[0], level)
      + (if |ms| == 1 then "" else "," + "\n" + Indentation(level) + DumpsMembers(ms[1..], level))
  }

  /** One member: the quoted key, `": "` and the value */
  function DumpsMember(m: Member, level: nat): string
    decreases m
  {
    Quote(m.key) + ": " + Dumps(m.value, level)
  }

  // ---------------------------------------------------------------------
  // shape of the serialised text
  // ---------------------------------------------------------------------

  /** The first character a serialised value can begin with */
  predicate IsValueStart(c: char) {
    c == 'n' || c == 't' || c == 'f' || c == '-' || ('0' <= c <= '9') || c == '"' || c == '[' || c == '{'
  }

  /** Every serialised value is non-empty and begins with a token
      character, never with whitespace. */
  lemma DumpsStart(v: Json, level: nat)
    ensures Dumps(v, level) != [] && IsValueStart(Dumps(v, level)[0])
  {
  }

  /** A serialised mapping always ends with its closing brace. */
  lemma DumpsObjectEnd(ms: seq<Member>, level: nat)
    ensures var d := Dumps(Object(ms), level); |d| > 0 && d[0] == '{' && d[|d| - 1] == '}'
  {
  }

  lemma EscapePlain(s: string)
    requires AllPlain(s)
    ensures Escape(s) == s
  {
    if |s| > 0 {
      EscapePlain(s[1..]);
    }
  }

  lemma EscapeAppend(a: string, b: string)
    ensures Escape(a + b) == Escape(a) + Escape(b)
  {
    if |a| == 0 {
      assert a + b == b;
    } else {
      assert (a + b)[1..] == a[1..] + b;
      EscapeAppend(a[1..], b);
    }
  }
}
