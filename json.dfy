/** The JSON serializer the record store and both sync drivers rely on
    (`json.dumps` / `json.loads`), restricted to the values the core
    serializes: `null`, booleans, integers, strings, arrays and objects.

    The encoder follows `json.dumps` with its default settings: item
    separator `", "`, key separator `": "`, and `ensure_ascii`, so that
    `"` and `\` are escaped, the named control characters get their short
    escapes, and every other character outside `' '..'~'` becomes `\uXXXX`
    (lower-case hex, a surrogate pair above U+FFFF). The decoder reads that
    text back; `Decode(Encode(v)) == Some(v)` is proved below, and so is
    the fact that encoded text is printable ASCII, which lets it be stored
    as bytes one character per byte. */
module Json {
  import opened Common

  datatype Json =
    | JNull
    | JBool(b: bool)
    | JInt(n: int)
    | JStr(s: string)
    | JArr(items: seq<Json>)
    | JObj(fields: seq<Field>)

  datatype Field = Field(key: string, value: Json)

  // ------------------------------------------------------------------
  // Characters

  /** The characters `json.dumps` writes unescaped under `ensure_ascii`. */
  predicate IsPrintable(c: char) { ' ' <= c <= '~' }

  predicate AllPrintable(t: string)
  {
    forall i :: 0 <= i < |t| ==> IsPrintable(t[i])
  }

  function HexDigit(d: nat): (c: char)
    requires d < 16
    ensures IsPrintable(c)
  {
    if d < 10 then DigitChar(d) else ('a' as int + d - 10) as char
  }

  /** The value of a hexadecimal digit of either case. */
  function HexVal(c: char): Option<nat>
  {
    if '0' <= c <= '9' then Some(c as int - '0' as int)
    else if 'a' <= c <= 'f' then Some(c as int - 'a' as int + 10)
    else if 'A' <= c <= 'F' then Some(c as int - 'A' as int + 10)
    else None
  }

  // ------------------------------------------------------------------
  // Encoder

  /** Decimal digits of a natural number, most significant first. */
  function NatText(n: nat): (t: string)
    ensures |t| >= 1
    ensures forall i :: 0 <= i < |t| ==> IsDigit(t[i]) && IsPrintable(t[i])
    decreases n
  {
    if n < 10 then [DigitChar(n)] else NatText(n / 10) + [DigitChar(n % 10)]
  }

  function IntText(n: int): string
  {
    if n < 0 then "-" + NatText(-n) else NatText(n)
  }

  /** Four lower-case hex digits, as in `'\\u{0:04x}'`. */
  function Hex4(n: nat): (t: string)
    requires n < 0x10000
    ensures |t| == 4 && AllPrintable(t)
  {
    [HexDigit(n / 16 / 16 / 16), HexDigit(n / 16 / 16 % 16), HexDigit(n / 16 % 16), HexDigit(n % 16)]
  }

  function EscapeChar(c: char): string
  {
    if c == '"' then "\\\""
    else if c == '\\' then "\\\\"
    else if c == '\n' then "\\n"
    else if c == '\r' then "\\r"
    else if c == '\t' then "\\t"
    else if c == '\U{8}' then "\\b"
    else if c == '\U{C}' then "\\f"
    else if IsPrintable(c) then [c]
    else if c as int < 0x10000 then "\\u" + Hex4(c as int)
    else
      var n := c as int - 0x10000;
      "\\u" + Hex4(0xD800 + n / 0x400) + "\\u" + Hex4(0xDC00 + n % 0x400)
  }

  function EscapeAll(s: string): string
    decreases |s|
  {
    if |s| == 0 then "" else EscapeChar(s[0]) + EscapeAll(s[1..])
  }

  function EncodeString(s: string): string
  {
    "\"" + EscapeAll(s) + "\""
  }

  function Encode(v: Json): string
  {
    match v
    case JNull => "null"
    case JBool(b) => if b then "true" else "false"
    case JInt(n) => IntText(n)
    case JStr(s) => EncodeString(s)
    case JArr(items) => "[" + EncodeItems(items) + "]"
    case JObj(fields) => "{" + EncodeFields(fields) + "}"
  }

  function EncodeItems(items: seq<Json>): string
  {
    if |items| == 0 then "" else Encode(items[0]) + EncodeMoreItems(items[1..])
  }

  /** The items after the first, each preceded by the separator `", "`. */
  function EncodeMoreItems(items: seq<Json>): string
  {
    if |items| == 0 then "" else ", " + Encode(items[0]) + EncodeMoreItems(items[1..])
  }

  function EncodeField(f: Field): string
  {
    EncodeString(f.key) + ": " + Encode(f.value)
  }

  function EncodeFields(fields: seq<Field>): string
  {
    if |fields| == 0 then "" else EncodeField(fields[0]) + EncodeMoreFields(fields[1..])
  }

  function EncodeMoreFields(fields: seq<Field>): string
  {
    if |fields| == 0 then "" else ", " + EncodeField(fields[0]) + EncodeMoreFields(fields[1..])
  }

  // ------------------------------------------------------------------
  // Decoder

  /** The number of leading decimal digits of `s`. */
  function DigitRun(s: string): (k: nat)
    ensures k <= |s|
    ensures forall i :: 0 <= i < k ==> IsDigit(s[i])
    ensures k < |s| ==> !IsDigit(s[k])
    decreases |s|
  {
    if |s| == 0 || !IsDigit(s[0]) then 0 else 1 + DigitRun(s[1..])
  }

  function DigitsValue(t: string): nat
    requires forall i :: 0 <= i < |t| ==> IsDigit(t[i])
    decreases |t|
  {
    if |t| == 0 then 0 else DigitsValue(t[..|t| - 1]) * 10 + DigitVal(t[|t| - 1])
  }

  /** `0|[1-9][0-9]*`, not followed by a fraction or an exponent (a
      float is not read). */
  function ParseUnsigned(t: string): (r: Option<(nat, string)>)
    ensures r.Some? ==> |r.value.1| < |t|
  {
    var run := DigitRun(t);
    var k := if run > 1 && t[0] == '0' then 1 else run;
    if k == 0 then None
    else if k < |t| && (t[k] == '.' || t[k] == 'e' || t[k] == 'E') then None
    else Some((DigitsValue(t[..k]), t[k..]))
  }

  /** `-?(0|[1-9][0-9]*)` */
  function ParseNumber(s: string): (r: Option<(Json, string)>)
    ensures r.Some? ==> |r.value.1| < |s|
  {
    if |s| > 0 && s[0] == '-' then
      match ParseUnsigned(s[1..])
      case None => None
      case Some((v, rest)) => Some((JInt(-(v as int)), rest))
    else
      match ParseUnsigned(s)
      case None => None
      case Some((v, rest)) => Some((JInt(v), rest))
  }

  function ParseHex4(s: string): Option<nat>
    requires |s| == 4
  {
    match (HexVal(s[0]), HexVal(s[1]), HexVal(s[2]), HexVal(s[3]))
    case (Some(a), Some(b), Some(c), Some(d)) => Some(a * 0x1000 + b * 0x100 + c * 0x10 + d)
    case _ => None
  }

  /** Reads one escape; `s` is the text after the backslash. A surrogate
      that is not part of a well-formed pair is refused. */
  function ParseEscape(s: string): (r: Option<(char, string)>)
    ensures r.Some? ==> |r.value.1| < |s|
  {
    if |s| == 0 then None
    else if s[0] == '"' then Some(('"', s[1..]))
    else if s[0] == '\\' then Some(('\\', s[1..]))
    else if s[0] == '/' then Some(('/', s[1..]))
    else if s[0] == 'b' then Some(('\U{8}', s[1..]))
    else if s[0] == 'f' then Some(('\U{C}', s[1..]))
    else if s[0] == 'n' then Some(('\n', s[1..]))
    else if s[0] == 'r' then Some(('\r', s[1..]))
    else if s[0] == 't' then Some(('\t', s[1..]))
    else if s[0] != 'u' || |s| < 5 then None
    else
      match ParseHex4(s[1..5])
      case None => None
      case Some(h) =>
        if 0xD800 <= h < 0xDC00 then
          if |s| >= 11 && s[5] == '\\' && s[6] == 'u' then
            match ParseHex4(s[7..11])
            case Some(l) =>
              if 0xDC00 <= l < 0xE000 then
                Some(((0x10000 + (h - 0xD800) * 0x400 + (l - 0xDC00)) as char, s[11..]))
              else None
            case None => None
          else None
        else if 0xDC00 <= h < 0xE000 then None
        else Some((h as char, s[5..]))
  }

  function Prepend(c: char, r: Option<(string, string)>): Option<(string, string)>
  {
    match r
    case None => None
    case Some((body, rest)) => Some(([c] + body, rest))
  }

  /** Reads a string body up to its closing quote; `s` is the text after
      the opening quote. Raw control characters are refused. */
  function ParseStringBody(s: string): (r: Option<(string, string)>)
    ensures r.Some? ==> |r.value.1| < |s|
    decreases |s|
  {
    if |s| == 0 then None
    else if s[0] == '"' then Some(("", s[1..]))
    else if s[0] == '\\' then
      match ParseEscape(s[1..])
      case None => None
      case Some((c, t)) => Prepend(c, ParseStringBody(t))
    else if (s[0] as int) < 0x20 then None
    else Prepend(s[0], ParseStringBody(s[1..]))
  }

  function ParseValue(s: string): (r: Option<(Json, string)>)
    ensures r.Some? ==> |r.value.1| < |s|
    decreases |s|, 1
  {
    if |s| == 0 then None
    else if s[0] == '"' then
      match ParseStringBody(s[1..])
      case None => None
      case Some((body, rest)) => Some((JStr(body), rest))
    else if s[0] == '[' then ParseArrayBody(s[1..])
    else if s[0] == '{' then ParseObjectBody(s[1..])
    else if s[0] == '-' || IsDigit(s[0]) then ParseNumber(s)
    else if |s| >= 4 && s[..4] == "null" then Some((JNull, s[4..]))
    else if |s| >= 4 && s[..4] == "true" then Some((JBool(true), s[4..]))
    else if |s| >= 5 && s[..5] == "false" then Some((JBool(false), s[5..]))
    else None
  }

  /** After `[`. */
  function ParseArrayBody(s: string): (r: Option<(Json, string)>)
    ensures r.Some? ==> |r.value.1| < |s|
    decreases |s|, 2
  {
    if |s| > 0 && s[0] == ']' then Some((JArr([]), s[1..]))
    else
      match ParseValue(s)
      case None => None
      case Some((v, rest)) =>
        match ParseMoreItems(rest)
        case None => None
        case Some((vs, rest')) => Some((JArr([v] + vs), rest'))
  }

  /** After an item: either `]` or `", "` and another item. */
  function ParseMoreItems(s: string): (r: Option<(seq<Json>, string)>)
    ensures r.Some? ==> |r.value.1| < |s|
    decreases |s|, 0
  {
    if |s| > 0 && s[0] == ']' then Some(([], s[1..]))
    else if |s| >= 2 && s[0] == ',' && s[1] == ' ' then
      match ParseValue(s[2..])
      case None => None
      case Some((v, rest)) =>
        match ParseMoreItems(rest)
        case None => None
        case Some((vs, rest')) => Some(([v] + vs, rest'))
    else None
  }

  /** `"key": value` */
  function ParseField(s: string): (r: Option<(Field, string)>)
    ensures r.Some? ==> |r.value.1| < |s|
    decreases |s|, 1
  {
    if |s| == 0 || s[0] != '"' then None
    else
      match ParseStringBody(s[1..])
      case None => None
      case Some((key, rest)) =>
        if |rest| >= 2 && rest[0] == ':' && rest[1] == ' ' then
          match ParseValue(rest[2..])
          case None => None
          case Some((v, rest')) => Some((Field(key, v), rest'))
        else None
  }

  /** After `{`. */
  function ParseObjectBody(s: string): (r: Option<(Json, string)>)
    ensures r.Some? ==> |r.value.1| < |s|
    decreases |s|, 2
  {
    if |s| > 0 && s[0] == '}' then Some((JObj([]), s[1..]))
    else
      match ParseField(s)
      case None => None
      case Some((f, rest)) =>
        match ParseMoreFields(rest)
        case None => None
        case Some((fs, rest')) => Some((JObj([f] + fs), rest'))
  }

  function ParseMoreFields(s: string): (r: Option<(seq<Field>, string)>)
    ensures r.Some? ==> |r.value.1| < |s|
    decreases |s|, 0
  {
    if |s| > 0 && s[0] == '}' then Some(([], s[1..]))
    else if |s| >= 2 && s[0] == ',' && s[1] == ' ' then
      match ParseField(s[2..])
      case None => None
      case Some((f, rest)) =>
        match ParseMoreFields(rest)
        case None => None
        case Some((fs, rest')) => Some(([f] + fs, rest'))
    else None
  }

  /** `json.loads`: one value and nothing after it. */
  function Decode(text: string): Option<Json>
  {
    match ParseValue(text)
    case Some((v, rest)) => if rest == [] then Some(v) else None
    case None => None
  }

  // ------------------------------------------------------------------
  // Round trip

  /** What may follow a value in encoded text. */
  predicate Delimiter(rest: string)
  {
    rest == [] || rest[0] == ',' || rest[0] == ']' || rest[0] == '}'
  }

  lemma {:induction false} DigitsValueSnoc(t: string, c: char)
    requires forall i :: 0 <= i < |t| ==> IsDigit(t[i])
    requires IsDigit(c)
    ensures DigitsValue(t + [c]) == DigitsValue(t) * 10 + DigitVal(c)
  {
    assert (t + [c])[..|t|] == t;
  }

  lemma {:induction false} NatTextValue(n: nat)
    ensures DigitsValue(NatText(n)) == n
    ensures n > 0 ==> NatText(n)[0] != '0'
    decreases n
  {
    if n >= 10 {
      NatTextValue(n / 10);
      DigitsValueSnoc(NatText(n / 10), DigitChar(n % 10));
    }
  }

  lemma {:induction false} DigitRunConcat(a: string, b: string)
    requires forall i :: 0 <= i < |a| ==> IsDigit(a[i])
    requires b == [] || !IsDigit(b[0])
    ensures DigitRun(a + b) == |a|
    decreases |a|
  {
    if |a| > 0 {
      assert (a + b)[1..] == a[1..] + b;
      DigitRunConcat(a[1..], b);
    }
  }

  lemma NumberRoundTrip(n: int, rest: string)
    requires Delimiter(rest)
    ensures ParseNumber(IntText(n) + rest) == Some((JInt(n), rest))
  {
    if n < 0 {
      NegativeRoundTrip(-n, rest);
    } else {
      UnsignedRoundTrip(n, rest);
      NatTextValue(n);
    }
  }

  lemma NegativeRoundTrip(m: nat, rest: string)
    requires Delimiter(rest) && m > 0
    ensures ParseNumber("-" + NatText(m) + rest) == Some((JInt(-(m as int)), rest))
  {
    var t := NatText(m) + rest;
    assert "-" + NatText(m) + rest == "-" + t;
    UnsignedRoundTrip(m, rest);
    MinusStep(t, m, rest);
  }

  lemma MinusStep(t: string, m: nat, rest: string)
    requires ParseUnsigned(t) == Some((m, rest))
    ensures ParseNumber("-" + t) == Some((JInt(-(m as int)), rest))
  {
    var s := "-" + t;
    assert s[0] == '-' && s[1..] == t;
  }

  lemma UnsignedRoundTrip(m: nat, rest: string)
    requires Delimiter(rest)
    ensures ParseUnsigned(NatText(m) + rest) == Some((m, rest))
  {
    var digits := NatText(m);
    var t := digits + rest;
    NatTextValue(m);
    DigitRunConcat(digits, rest);
    assert DigitRun(t) == |digits|;
    assert |digits| > 1 ==> t[0] != '0';
    assert t[..|digits|] == digits;
    assert t[|digits|..] == rest;
  }

  lemma HexDigitVal(d: nat)
    requires d < 16
    ensures HexVal(HexDigit(d)) == Some(d)
  {
  }

  lemma Hex4RoundTrip(n: nat)
    requires n < 0x10000
    ensures ParseHex4(Hex4(n)) == Some(n)
  {
    var q1 := n / 16;
    var q2 := q1 / 16;
    var q3 := q2 / 16;
    assert n == q1 * 16 + n % 16;
    assert q1 == q2 * 16 + q1 % 16;
    assert q2 == q3 * 16 + q2 % 16;
    assert q3 < 16;
    HexDigitVal(q3);
    HexDigitVal(q2 % 16);
    HexDigitVal(q1 % 16);
    HexDigitVal(n % 16);
    assert n == q3 * 0x1000 + (q2 % 16) * 0x100 + (q1 % 16) * 0x10 + n % 16;
  }

  /** Decoding an escaped character and then the text after it is the
      same as decoding that text with the character prepended. */
  lemma EscapeCharRoundTrip(c: char, t: string)
    ensures ParseStringBody(EscapeChar(c) + t) == Prepend(c, ParseStringBody(t))
  {
    if c == '"' || c == '\\' || c == '\n' || c == '\r' || c == '\t' || c == '\U{8}' || c == '\U{C}' {
      NamedEscapeRoundTrip(c, t);
    } else if IsPrintable(c) {
      var s := EscapeChar(c) + t;
      assert s == [c] + t;
      assert s[1..] == t;
    } else if c as int < 0x10000 {
      UnicodeEscapeRoundTrip(c, t);
    } else {
      SurrogatePairRoundTrip(c, t);
    }
  }

  lemma NamedEscapeRoundTrip(c: char, t: string)
    requires c == '"' || c == '\\' || c == '\n' || c == '\r' || c == '\t' || c == '\U{8}' || c == '\U{C}'
    ensures ParseStringBody(EscapeChar(c) + t) == Prepend(c, ParseStringBody(t))
  {
    var s := EscapeChar(c) + t;
    assert |EscapeChar(c)| == 2 && EscapeChar(c)[0] == '\\';
    assert s[1..] == [EscapeChar(c)[1]] + t;
    assert s[1..][1..] == t;
    assert ParseEscape(s[1..]) == Some((c, t));
  }

  lemma UnicodeEscapeRoundTrip(c: char, t: string)
    requires !(c == '"' || c == '\\' || c == '\n' || c == '\r' || c == '\t' || c == '\U{8}' || c == '\U{C}')
    requires !IsPrintable(c) && c as int < 0x10000
    ensures ParseStringBody(EscapeChar(c) + t) == Prepend(c, ParseStringBody(t))
  {
    var h := Hex4(c as int);
    assert EscapeChar(c) == "\\u" + h;
    Hex4RoundTrip(c as int);
    var s := EscapeChar(c) + t;
    var u := s[1..];
    assert u == "u" + h + t;
    assert u[1..5] == h;
    assert u[5..] == t;
    assert !(0xD800 <= c as int < 0xE000);
    assert ParseEscape(u) == Some((c, t));
  }

  lemma SurrogatePairRoundTrip(c: char, t: string)
    requires !(c == '"' || c == '\\' || c == '\n' || c == '\r' || c == '\t' || c == '\U{8}' || c == '\U{C}')
    requires !IsPrintable(c) && c as int >= 0x10000
    ensures ParseStringBody(EscapeChar(c) + t) == Prepend(c, ParseStringBody(t))
  {
    var n := c as int - 0x10000;
    var hi, lo := 0xD800 + n / 0x400, 0xDC00 + n % 0x400;
    var u := "u" + Hex4(hi) + "\\u" + Hex4(lo) + t;
    SurrogateEscape(c);
    assert EscapeChar(c) + t == "\\" + u;
    SurrogateSplit(c as int);
    PairEscape(hi, lo, t);
    assert ParseEscape(u) == Some((c, t));
    EscapeStep(u, c, t);
  }

  lemma SurrogateEscape(c: char)
    requires !(c == '"' || c == '\\' || c == '\n' || c == '\r' || c == '\t' || c == '\U{8}' || c == '\U{C}')
    requires !IsPrintable(c) && c as int >= 0x10000
    ensures var n := c as int - 0x10000;
      EscapeChar(c) == "\\u" + Hex4(0xD800 + n / 0x400) + "\\u" + Hex4(0xDC00 + n % 0x400)
  {
  }

  /** A backslash and an escape the escape parser accepts. */
  lemma EscapeStep(u: string, c: char, t: string)
    requires ParseEscape(u) == Some((c, t))
    ensures ParseStringBody("\\" + u) == Prepend(c, ParseStringBody(t))
  {
    assert ("\\" + u)[1..] == u;
  }

  /** The surrogate pair of a supplementary code point recombines to it. */
  lemma SurrogateSplit(x: int)
    requires 0x10000 <= x < 0x110000
    ensures var n := x - 0x10000;
      0xD800 <= 0xD800 + n / 0x400 < 0xDC00 && 0xDC00 <= 0xDC00 + n % 0x400 < 0xE000 &&
      0x10000 + (n / 0x400) * 0x400 + n % 0x400 == x
  {
  }

  lemma PairEscape(hi: int, lo: int, t: string)
    requires 0xD800 <= hi < 0xDC00 && 0xDC00 <= lo < 0xE000
    ensures ParseEscape("u" + Hex4(hi) + "\\u" + Hex4(lo) + t)
         == Some(((0x10000 + (hi - 0xD800) * 0x400 + (lo - 0xDC00)) as char, t))
  {
    var u := "u" + Hex4(hi) + "\\u" + Hex4(lo) + t;
    Hex4RoundTrip(hi);
    Hex4RoundTrip(lo);
    assert u[0] == 'u' && |u| >= 11;
    assert u[1..5] == Hex4(hi);
    assert u[5] == '\\' && u[6] == 'u';
    assert u[7..11] == Hex4(lo);
    assert u[11..] == t;
    assert ParseHex4(u[1..5]) == Some(hi) && ParseHex4(u[7..11]) == Some(lo);
  }

  lemma {:induction false} StringBodyRoundTrip(s: string, rest: string)
    ensures ParseStringBody(EscapeAll(s) + "\"" + rest) == Some((s, rest))
    decreases |s|
  {
    if |s| == 0 {
      assert EscapeAll(s) + "\"" + rest == "\"" + rest;
      assert ("\"" + rest)[1..] == rest;
    } else {
      var tail := EscapeAll(s[1..]) + "\"" + rest;
      assert EscapeAll(s) + "\"" + rest == EscapeChar(s[0]) + tail;
      EscapeCharRoundTrip(s[0], tail);
      StringBodyRoundTrip(s[1..], rest);
      assert [s[0]] + s[1..] == s;
    }
  }

  lemma StringRoundTrip(s: string, rest: string)
    ensures ParseValue(EncodeString(s) + rest) == Some((JStr(s), rest))
  {
    var t := EncodeString(s) + rest;
    assert t[1..] == EscapeAll(s) + "\"" + rest;
    StringBodyRoundTrip(s, rest);
  }

  /** Every encoding starts with a character that opens a value. */
  lemma EncodeStart(v: Json)
    ensures |Encode(v)| > 0
    ensures Encode(v)[0] in {'"', '[', '{', '-', 'n', 't', 'f'} || IsDigit(Encode(v)[0])
  {
  }

  lemma {:induction false} ValueRoundTrip(v: Json, rest: string)
    requires Delimiter(rest)
    ensures ParseValue(Encode(v) + rest) == Some((v, rest))
    decreases v
  {
    match v
    case JNull =>
      assert (Encode(v) + rest)[..4] == "null" && (Encode(v) + rest)[4..] == rest;
    case JBool(b) =>
      var k := if b then 4 else 5;
      assert (Encode(v) + rest)[..k] == Encode(v) && (Encode(v) + rest)[k..] == rest;
    case JInt(n) =>
      NumberRoundTrip(n, rest);
    case JStr(s) =>
      StringRoundTrip(s, rest);
    case JArr(items) =>
      ArrayRoundTrip(items, rest);
    case JObj(fields) =>
      ObjectRoundTrip(fields, rest);
  }

  lemma {:induction false} ArrayRoundTrip(items: seq<Json>, rest: string)
    ensures ParseValue(Encode(JArr(items)) + rest) == Some((JArr(items), rest))
    decreases items, 2
  {
    var body := EncodeItems(items) + "]" + rest;
    var s := "[" + body;
    assert Encode(JArr(items)) == "[" + EncodeItems(items) + "]";
    assert Encode(JArr(items)) + rest == s;
    assert s[0] == '[' && s[1..] == body;
    ArrayBodyRoundTrip(items, rest);
  }

  lemma {:induction false} ObjectRoundTrip(fields: seq<Field>, rest: string)
    ensures ParseValue(Encode(JObj(fields)) + rest) == Some((JObj(fields), rest))
    decreases fields, 2
  {
    var body := EncodeFields(fields) + "}" + rest;
    var s := "{" + body;
    assert Encode(JObj(fields)) == "{" + EncodeFields(fields) + "}";
    assert Encode(JObj(fields)) + rest == s;
    assert s[0] == '{' && s[1..] == body;
    ObjectBodyRoundTrip(fields, rest);
  }

  lemma {:induction false} ArrayBodyRoundTrip(items: seq<Json>, rest: string)
    ensures ParseArrayBody(EncodeItems(items) + "]" + rest) == Some((JArr(items), rest))
    decreases items, 1
  {
    if |items| > 0 {
      var tail := EncodeMoreItems(items[1..]) + "]" + rest;
      assert EncodeItems(items) + "]" + rest == Encode(items[0]) + tail;
      EncodeStart(items[0]);
      ValueRoundTrip(items[0], tail);
      MoreItemsRoundTrip(items[1..], rest);
      assert [items[0]] + items[1..] == items;
    }
  }

  lemma {:induction false} MoreItemsRoundTrip(items: seq<Json>, rest: string)
    ensures ParseMoreItems(EncodeMoreItems(items) + "]" + rest) == Some((items, rest))
    decreases items, 0
  {
    var s := EncodeMoreItems(items) + "]" + rest;
    if |items| == 0 {
      assert s == "]" + rest;
      assert s[1..] == rest;
    } else {
      var tail := EncodeMoreItems(items[1..]) + "]" + rest;
      assert s == ", " + (Encode(items[0]) + tail);
      assert s[2..] == Encode(items[0]) + tail;
      ValueRoundTrip(items[0], tail);
      MoreItemsRoundTrip(items[1..], rest);
      assert [items[0]] + items[1..] == items;
    }
  }

  lemma {:induction false} FieldRoundTrip(f: Field, rest: string)
    requires Delimiter(rest)
    ensures ParseField(EncodeField(f) + rest) == Some((f, rest))
    decreases f, 0
  {
    var s := EncodeField(f) + rest;
    var after := ": " + (Encode(f.value) + rest);
    assert s == "\"" + (EscapeAll(f.key) + "\"" + after);
    assert s[0] == '"';
    assert s[1..] == EscapeAll(f.key) + "\"" + after;
    StringBodyRoundTrip(f.key, after);
    assert ParseStringBody(s[1..]) == Some((f.key, after));
    assert after[0] == ':' && after[1] == ' ';
    assert after[2..] == Encode(f.value) + rest;
    ValueRoundTrip(f.value, rest);
  }

  lemma {:induction false} ObjectBodyRoundTrip(fields: seq<Field>, rest: string)
    ensures ParseObjectBody(EncodeFields(fields) + "}" + rest) == Some((JObj(fields), rest))
    decreases fields, 1
  {
    if |fields| > 0 {
      var tail := EncodeMoreFields(fields[1..]) + "}" + rest;
      assert EncodeFields(fields) + "}" + rest == EncodeField(fields[0]) + tail;
      FieldRoundTrip(fields[0], tail);
      MoreFieldsRoundTrip(fields[1..], rest);
      assert [fields[0]] + fields[1..] == fields;
    }
  }

  lemma {:induction false} MoreFieldsRoundTrip(fields: seq<Field>, rest: string)
    ensures ParseMoreFields(EncodeMoreFields(fields) + "}" + rest) == Some((fields, rest))
    decreases fields, 0
  {
    var s := EncodeMoreFields(fields) + "}" + rest;
    if |fields| == 0 {
      assert s == "}" + rest;
      assert s[1..] == rest;
    } else {
      var tail := EncodeMoreFields(fields[1..]) + "}" + rest;
      assert s == ", " + (EncodeField(fields[0]) + tail);
      assert s[2..] == EncodeField(fields[0]) + tail;
      FieldRoundTrip(fields[0], tail);
      MoreFieldsRoundTrip(fields[1..], rest);
      assert [fields[0]] + fields[1..] == fields;
    }
  }

  /** `json.loads(json.dumps(v)) == v` */
  lemma RoundTrip(v: Json)
    ensures Decode(Encode(v)) == Some(v)
  {
    ValueRoundTrip(v, []);
    assert Encode(v) + [] == Encode(v);
  }

  // ------------------------------------------------------------------
  // Encoded text is printable ASCII

  lemma {:induction false} EscapeAllPrintable(s: string)
    ensures AllPrintable(EscapeAll(s))
    decreases |s|
  {
    if |s| > 0 {
      EscapeAllPrintable(s[1..]);
      EscapeCharPrintable(s[0]);
      PrintableConcat(EscapeChar(s[0]), EscapeAll(s[1..]));
    }
  }

  lemma EscapeCharPrintable(c: char)
    ensures AllPrintable(EscapeChar(c))
  {
    if !IsPrintable(c) && c as int >= 0x10000 {
      var n := c as int - 0x10000;
      assert AllPrintable(Hex4(0xD800 + n / 0x400));
      assert AllPrintable(Hex4(0xDC00 + n % 0x400));
    }
  }

  lemma PrintableConcat(a: string, b: string)
    requires AllPrintable(a) && AllPrintable(b)
    ensures AllPrintable(a + b)
  {
    forall i | 0 <= i < |a + b|
      ensures IsPrintable((a + b)[i])
    {
      if i >= |a| {
        assert (a + b)[i] == b[i - |a|];
      }
    }
  }

  lemma {:induction false} EncodePrintable(v: Json)
    ensures AllPrintable(Encode(v))
    decreases v
  {
    match v
    case JNull =>
    case JBool(b) =>
    case JInt(n) =>
    case JStr(s) => EscapeAllPrintable(s);
    case JArr(items) => ItemsPrintable(items);
    case JObj(fields) => FieldsPrintable(fields);
  }

  lemma {:induction false} ItemsPrintable(items: seq<Json>)
    ensures AllPrintable(EncodeItems(items)) && AllPrintable(EncodeMoreItems(items))
    decreases items
  {
    if |items| > 0 {
      EncodePrintable(items[0]);
      ItemsPrintable(items[1..]);
    }
  }

  lemma {:induction false} FieldsPrintable(fields: seq<Field>)
    ensures AllPrintable(EncodeFields(fields)) && AllPrintable(EncodeMoreFields(fields))
    decreases fields
  {
    if |fields| > 0 {
      EscapeAllPrintable(fields[0].key);
      EncodePrintable(fields[0].value);
      FieldsPrintable(fields[1..]);
    }
  }

  // ------------------------------------------------------------------
  // Text as bytes

  /** ASCII text as bytes, one byte per character. */
  function AsciiBytes(t: string): (b: Bytes)
    requires AllPrintable(t)
    ensures |b| == |t|
  {
    seq(|t|, i requires 0 <= i < |t| => t[i] as int as Byte)
  }

  /** Bytes read back as text, one character per byte. */
  function BytesText(b: Bytes): (t: string)
    ensures |t| == |b|
  {
    seq(|b|, i requires 0 <= i < |b| => b[i] as int as char)
  }

  /** What `json.dumps` writes to a file or an archive member. */
  function EncodeBytes(v: Json): (b: Bytes)
    ensures Decode(BytesText(b)) == Some(v)
  {
    EncodePrintable(v);
    var t := Encode(v);
    var b := AsciiBytes(t);
    assert BytesText(b) == t;
    RoundTrip(v);
    b
  }
}
