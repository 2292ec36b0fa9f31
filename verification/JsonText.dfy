// JSON values, what the writer prints for them, and what the parser reads.
// A char stands for one byte of text.
module JsonText {
  import opened AssocList

  /** A map lists its entries in iteration order; a float is the bits of a double. */
  datatype Json =
    | Null
    | Bool(value: bool)
    | Int(number: int)
    | Float(bits: nat)
    | Str(text: string)
    | Arr(items: seq<Json>)
    | Obj(keys: seq<string>, values: seq<Json>)

  const INT64_MIN: int := -0x8000_0000_0000_0000
  const INT64_MAX: int := 0x7fff_ffff_ffff_ffff
  const POS_INF: nat := 0x7ff0_0000_0000_0000
  const NEG_INF: nat := 0xfff0_0000_0000_0000
  const NAN: nat := 0x7ff8_0000_0000_0000

  /** A map has a value for every key. */
  predicate Writable(v: Json) {
    match v
    case Null => true
    case Bool(_) => true
    case Int(_) => true
    case Float(_) => true
    case Str(_) => true
    case Arr(items) => forall i :: 0 <= i < |items| ==> Writable(items[i])
    case Obj(keys, values) => |keys| == |values| && forall i :: 0 <= i < |values| ==> Writable(values[i])
  }

  // ------------------------------------------------------------------ writing

  function HexDigit(n: nat): char
    requires n < 16
  {
    if n < 10 then '0' + n as char else 'a' + (n - 10) as char
  }

  /** One byte inside a string literal. */
  function EscapeChar(c: char): string {
    if c == '"' then "\\\""
    else if c == '\\' then "\\\\"
    else if c == '/' then "\\/"
    else if c == 8 as char then "\\b"
    else if c == 12 as char then "\\f"
    else if c == '\n' then "\\n"
    else if c == '\r' then "\\r"
    else if c == '\t' then "\\t"
    else if c < ' ' || c == 127 as char then "\\u00" + [HexDigit(c as int / 16), HexDigit(c as int % 16)]
    else [c]
  }

  function EscapeAll(s: string): string {
    if s == [] then [] else EscapeChar(s[0]) + EscapeAll(s[1..])
  }

  /** EscapeString: the literal with its quotes. */
  function Quoted(s: string): string { ['"'] + EscapeAll(s) + ['"'] }

  function DigitChar(n: nat): char
    requires n < 10
  {
    '0' + n as char
  }

  function Decimal(n: nat): string {
    if n < 10 then [DigitChar(n)] else Decimal(n / 10) + [DigitChar(n % 10)]
  }

  function IntText(n: int): string { if n < 0 then ['-'] + Decimal(-n) else Decimal(n) }

  function Spaces(n: int): string
    decreases if n < 0 then 0 else n
  {
    if n <= 0 then [] else Spaces(n - 1) + [' ']
  }

  /** WriteIndent, when an indent is set: a newline and the current level in spaces, none for a negative level. */
  function Break(indent: int, level: int): string { if indent == 0 then [] else ['\n'] + Spaces(level) }

  function Colon(indent: int): string { if indent == 0 then [':'] else [':', ' '] }

  // ------------------------------------------------------------------- floats

  const TWO_TO_52: nat := 0x10_0000_0000_0000

  function Exponent(bits: nat): nat { bits / TWO_TO_52 % 0x800 }

  function Mantissa(bits: nat): nat { bits % TWO_TO_52 }

  predicate Negative(bits: nat) { bits >= 0x8000_0000_0000_0000 }

  predicate IsNan(bits: nat) { Exponent(bits) == 0x7ff && Mantissa(bits) != 0 }

  predicate IsInf(bits: nat) { Exponent(bits) == 0x7ff && Mantissa(bits) == 0 }

  function TwoTo(n: nat): (r: nat)
    ensures r > 0
  {
    if n == 0 then 1 else 2 * TwoTo(n - 1)
  }

  function Shifted(n: nat, places: nat): nat { if places == 0 then n else Shifted(n / 2, places - 1) }

  /** A finite double below 2^53 in size without a fractional part. */
  predicate IsIntegral(bits: nat) {
    (Exponent(bits) == 0 && Mantissa(bits) == 0) ||
    (1023 <= Exponent(bits) <= 1075 && Mantissa(bits) % TwoTo(1075 - Exponent(bits)) == 0)
  }

  /** Its size. */
  function Magnitude(bits: nat): nat
    requires IsIntegral(bits)
  {
    if Exponent(bits) == 0 then 0 else Shifted(TWO_TO_52 + Mantissa(bits), 1075 - Exponent(bits))
  }

  /** What the format %.1f prints for it, a negative zero included. */
  function FixedText(bits: nat): string
    requires IsIntegral(bits)
  {
    (if Negative(bits) then ['-'] else []) + Decimal(Magnitude(bits)) + ".0"
  }

  /** What the writer and the parser take from their platform: whether char is signed, strtod on a whole lexeme, what
      the format %.17g prints for a finite double, and how an int64_t is converted to a double. */
  datatype Platform = Platform(signedChar: bool, strtod: string -> Option<nat>, general: nat -> string,
                               toDouble: int -> nat)

  /** WriteFloat. */
  function FloatText(p: Platform, bits: nat): string {
    if IsNan(bits) then "NaN"
    else if IsInf(bits) then (if Negative(bits) then "-Infinity" else "Infinity")
    else if IsIntegral(bits) then FixedText(bits)
    else p.general(bits)
  }

  /** WriteValue at total indent level. */
  function Text(p: Platform, v: Json, indent: int, level: int): string
    decreases v, 1
  {
    match v
    case Null => "null"
    case Bool(b) => if b then "true" else "false"
    case Int(n) => IntText(n)
    case Float(bits) => FloatText(p, bits)
    case Str(s) => Quoted(s)
    case Arr(items) => ['['] + Items(p, items, true, indent, level + indent) + Break(indent, level) + [']']
    case Obj(keys, values) =>
      ['{'] + Members(p, keys, values, true, indent, level + indent) + Break(indent, level) + ['}']
  }

  function Items(p: Platform, items: seq<Json>, first: bool, indent: int, level: int): string
    decreases items, 0
  {
    if items == [] then []
    else (if first then [] else [',']) + Break(indent, level) + Text(p, items[0], indent, level) +
         Items(p, items[1..], false, indent, level)
  }

  function Members(p: Platform, keys: seq<string>, values: seq<Json>, first: bool, indent: int, level: int): string
    decreases values, 0
  {
    if keys == [] || values == [] then []
    else (if first then [] else [',']) + Break(indent, level) + Quoted(keys[0]) + Colon(indent) +
         Text(p, values[0], indent, level) + Members(p, keys[1..], values[1..], false, indent, level)
  }

  // ------------------------------------------------------------------ reading

  datatype Parsed<+T> = Fail | Done(value: T, rest: string)

  predicate IsSpace(c: char) { c == ' ' || c == '\t' || c == '\n' || c == '\r' }

  function SkipSpaces(s: string): (r: string)
    ensures |r| <= |s|
    ensures r == [] || !IsSpace(r[0])
  {
    if s != [] && IsSpace(s[0]) then SkipSpaces(s[1..]) else s
  }

  predicate StartsWith(s: string, pattern: string) { |pattern| <= |s| && s[..|pattern|] == pattern }

  /** The test *cur < ' ' on a byte: where char is signed, bytes from 0x80 on are negative. */
  predicate IsControl(p: Platform, c: char) { c < ' ' || (p.signedChar && c >= 128 as char) }

  function HexValue(c: char): Option<nat> {
    if '0' <= c <= '9' then Some(c as int - '0' as int)
    else if 'a' <= c <= 'f' then Some(c as int - 'a' as int + 10)
    else if 'A' <= c <= 'F' then Some(c as int - 'A' as int + 10)
    else None
  }

  /** Parse4Hex; the byte after the end reads as NUL, which is no hex digit. */
  function Hex4(s: string): Option<nat> {
    if |s| < 4 then None
    else
      var a, b, c, d := HexValue(s[0]), HexValue(s[1]), HexValue(s[2]), HexValue(s[3]);
      if a.None? || b.None? || c.None? || d.None? then None
      else Some(((a.value * 16 + b.value) * 16 + c.value) * 16 + d.value)
  }

  /** The UTF-8 bytes of a code point. */
  function Utf8(cp: nat): string {
    if cp < 0x80 then [cp as char]
    else if cp < 0x800 then [(0xC0 + cp / 64) as char, (0x80 + cp % 64) as char]
    else if cp < 0x10000 then [(0xE0 + cp / 4096) as char, (0x80 + cp / 64 % 64) as char, (0x80 + cp % 64) as char]
    else if cp < 0x110000 then
      [(0xF0 + cp / 262144) as char, (0x80 + cp / 4096 % 64) as char, (0x80 + cp / 64 % 64) as char,
          (0x80 + cp % 64) as char]
    else []
  }

  /** After the u of an escape: one code unit, or a surrogate pair. */
  function Unicode(s: string): (r: Parsed<string>)
    ensures r.Done? ==> |r.rest| < |s|
  {
    var first := Hex4(s);
    if first.None? then Fail
    else if first.value < 0xD800 || first.value > 0xDFFF then Done(Utf8(first.value), s[4..])
    else if first.value >= 0xDC00 || !StartsWith(s[4..], "\\u") then Fail
    else
      var second := Hex4(s[6..]);
      if second.None? || second.value < 0xDC00 || second.value > 0xDFFF then Fail
      else Done(Utf8((first.value - 0xD800) * 1024 + (second.value - 0xDC00) + 0x10000), s[10..])
  }

  /** After a backslash. */
  function Escape(s: string): (r: Parsed<string>)
    ensures r.Done? ==> |r.rest| < |s|
  {
    if s == [] then Fail
    else match s[0]
      case '"' => Done(['"'], s[1..])
      case '\\' => Done(['\\'], s[1..])
      case '/' => Done(['/'], s[1..])
      case 'b' => Done([8 as char], s[1..])
      case 'f' => Done([12 as char], s[1..])
      case 'n' => Done(['\n'], s[1..])
      case 'r' => Done(['\r'], s[1..])
      case 't' => Done(['\t'], s[1..])
      case 'u' => Unicode(s[1..])
      case _ => Fail
  }

  /** A string literal after its opening quote. */
  function StringBody(p: Platform, s: string): (r: Parsed<string>)
    ensures r.Done? ==> |r.rest| < |s|
    decreases |s|
  {
    if s == [] || IsControl(p, s[0]) then Fail
    else if s[0] == '"' then Done([], s[1..])
    else if s[0] == '\\' then
      var e := Escape(s[1..]);
      if e.Fail? then Fail else Prepend(e.value, StringBody(p, e.rest))
    else Prepend([s[0]], StringBody(p, s[1..]))
  }

  function Prepend(a: string, r: Parsed<string>): Parsed<string> {
    if r.Done? then Done(a + r.value, r.rest) else Fail
  }

  predicate IsDigit(c: char) { '0' <= c <= '9' }

  predicate IsNumberChar(c: char) { IsDigit(c) || c == 'e' || c == 'E' || c == '+' || c == '-' || c == '.' }

  /** Length of the longest prefix of number characters. */
  function NumberSpan(s: string): (n: nat)
    ensures n <= |s|
  {
    if s != [] && IsNumberChar(s[0]) then 1 + NumberSpan(s[1..]) else 0
  }

  predicate AllDigits(s: string) { forall i :: 0 <= i < |s| ==> IsDigit(s[i]) }

  function DigitOf(c: char): nat
    requires IsDigit(c)
  {
    c as int - '0' as int
  }

  function DigitsValue(s: string): nat
    requires AllDigits(s)
  {
    if s == [] then 0
    else
      var last := s[|s| - 1];
      assert IsDigit(last);
      10 * DigitsValue(s[..|s| - 1]) + DigitOf(last)
  }

  /** strtoimax on a whole lexeme: an optional sign, then digits, within 64 bits. */
  function IntOf(s: string): Option<int> {
    var digits := if s != [] && (s[0] == '-' || s[0] == '+') then s[1..] else s;
    if digits == [] || !AllDigits(digits) then None
    else
      var n := if s[0] == '-' then 0 - DigitsValue(digits) else DigitsValue(digits);
      if INT64_MIN <= n <= INT64_MAX then Some(n) else None
  }

  predicate MaybeInt(s: string) { '.' !in s && 'e' !in s && 'E' !in s }

  function Number(p: Platform, s: string): (r: Parsed<Json>)
    ensures r.Done? ==> |r.rest| < |s|
  {
    if StartsWith(s, "-I") then (if StartsWith(s, "-Infinity") then Done(Float(NEG_INF), s[9..]) else Fail)
    else if StartsWith(s, "I") then (if StartsWith(s, "Infinity") then Done(Float(POS_INF), s[8..]) else Fail)
    else if StartsWith(s, "N") then (if StartsWith(s, "NaN") then Done(Float(NAN), s[3..]) else Fail)
    else
      var n := NumberSpan(s);
      var lexeme := s[..n];
      if n == 0 then Fail
      else if MaybeInt(lexeme) && IntOf(lexeme).Some? then Done(Int(IntOf(lexeme).value), s[n..])
      else if p.strtod(lexeme).Some? then Done(Float(p.strtod(lexeme).value), s[n..])
      else Fail
  }

  /** Map construction from a range: fewer than four entries make a small map, more a dense one. */
  function FromRange(es: seq<(string, Json)>): seq<(string, Json)> {
    if |es| < 4 then SetAllInPlace([], SameKey, es) else SetAllLast([], SameKey, es)
  }

  predicate SameKey(a: string, b: string) { a == b }

  function Keys(es: seq<(string, Json)>): seq<string> { seq(|es|, i requires 0 <= i < |es| => es[i].0) }

  function Values(es: seq<(string, Json)>): seq<Json> { seq(|es|, i requires 0 <= i < |es| => es[i].1) }

  function MakeObj(es: seq<(string, Json)>): Json {
    var r := FromRange(es);
    Obj(Keys(r), Values(r))
  }

  function Literal(s: string, pattern: string, v: Json): (r: Parsed<Json>)
    requires pattern != []
    ensures r.Done? ==> |r.rest| < |s|
  {
    if StartsWith(s, pattern) then Done(v, s[|pattern|..]) else Fail
  }

  /** ParseValue on the text from the cursor on. */
  function ParseValue(p: Platform, text: string): (r: Parsed<Json>)
    ensures r.Done? ==> |r.rest| < |text|
    decreases |text|, 1
  {
    var s := SkipSpaces(text);
    if s == [] then Fail
    else match s[0]
      case '{' => ParseObject(p, s[1..])
      case '[' => ParseArray(p, s[1..])
      case '"' =>
        var r := StringBody(p, s[1..]);
        if r.Done? then Done(Str(r.value), r.rest) else Fail
      case 't' => Literal(s, "true", Bool(true))
      case 'f' => Literal(s, "false", Bool(false))
      case 'n' => Literal(s, "null", Null)
      case _ => Number(p, s)
  }

  function ParseArray(p: Platform, text: string): (r: Parsed<Json>)
    ensures r.Done? ==> |r.rest| <= |text|
    decreases |text|, 3
  {
    var s := SkipSpaces(text);
    if s == [] then Fail else if s[0] == ']' then Done(Arr([]), s[1..]) else Elements(p, s, [])
  }

  /** The loop of ParseArray, with the elements read so far. */
  function Elements(p: Platform, s: string, before: seq<Json>): (r: Parsed<Json>)
    ensures r.Done? ==> |r.rest| <= |s|
    decreases |s|, 2
  {
    var v := ParseValue(p, s);
    if v.Fail? then Fail
    else
      var t := SkipSpaces(v.rest);
      var items := before + [v.value];
      if t == [] then Fail
      else if t[0] == ',' then
        var u := SkipSpaces(t[1..]);
        if u == [] then Fail else Elements(p, u, items)
      else if t[0] == ']' then Done(Arr(items), t[1..])
      else Fail
  }

  function ParseObject(p: Platform, text: string): (r: Parsed<Json>)
    ensures r.Done? ==> |r.rest| <= |text|
    decreases |text|, 3
  {
    var s := SkipSpaces(text);
    if s == [] then Fail else if s[0] == '}' then Done(Obj([], []), s[1..]) else Entries(p, s, [])
  }

  /** The loop of ParseObject, with the entries read so far. */
  function Entries(p: Platform, s: string, before: seq<(string, Json)>): (r: Parsed<Json>)
    ensures r.Done? ==> |r.rest| <= |s|
    decreases |s|, 2
  {
    if s == [] || s[0] != '"' then Fail
    else
      var key := StringBody(p, s[1..]);
      if key.Fail? then Fail
      else
        var c := SkipSpaces(key.rest);
        if c == [] || c[0] != ':' then Fail
        else
          var v := ParseValue(p, c[1..]);
          if v.Fail? then Fail
          else
            var t := SkipSpaces(v.rest);
            var es := before + [(key.value, v.value)];
            if t == [] then Fail
            else if t[0] == '}' then Done(MakeObj(es), t[1..])
            else if t[0] == ',' then
              var u := SkipSpaces(t[1..]);
              if u == [] then Fail else Entries(p, u, es)
            else Fail
  }

  /** JSONParser::Parse: one value and nothing but spaces after it. */
  function Parse(p: Platform, text: string): Option<Json> {
    var r := ParseValue(p, text);
    if r.Done? && SkipSpaces(r.rest) == [] then Some(r.value) else None
  }

  function Stringify(p: Platform, v: Json, indent: int): string { Text(p, v, indent, 0) }
}
