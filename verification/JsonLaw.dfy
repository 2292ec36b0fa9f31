// Reading back what was printed yields the value, for every indent.
module JsonLaw {
  import opened AssocList
  import opened JsonText

  // ------------------------------------------------------------------ numbers

  lemma {:induction false} DecimalReads(n: nat)
    ensures Decimal(n) != [] && AllDigits(Decimal(n)) && DigitsValue(Decimal(n)) == n
  {
    if n >= 10 {
      DecimalReads(n / 10);
      var d := Decimal(n);
      assert d[..|d| - 1] == Decimal(n / 10);
    } else {
      assert DigitsValue([DigitChar(n)][..0]) == 0;
    }
  }

  lemma {:induction false} IntReads(n: int)
    requires INT64_MIN <= n <= INT64_MAX
    ensures var s := IntText(n);
            s != [] && IntOf(s) == Some(n) && MaybeInt(s) &&
                (IsDigit(s[0]) || (s[0] == '-' && |s| > 1 && IsDigit(s[1])))
    ensures forall i :: 0 <= i < |IntText(n)| ==> IsNumberChar(IntText(n)[i])
  {
    var a := if n < 0 then -n else n;
    DecimalReads(a);
    var s := IntText(n);
    assert IsDigit(Decimal(a)[0]);
    if n < 0 {
      assert s[1..] == Decimal(a);
      forall i | 0 <= i < |s| ensures s[i] == '-' || IsDigit(s[i]) {
        if i > 0 { assert s[i] == Decimal(a)[i - 1]; }
      }
    }
  }

  /** No number goes on into the text that follows. */
  predicate Ends(tail: string) { tail == [] || !IsNumberChar(tail[0]) }

  lemma {:induction false} SpanStops(s: string, tail: string)
    requires (forall i :: 0 <= i < |s| ==> IsNumberChar(s[i])) && Ends(tail)
    ensures NumberSpan(s + tail) == |s|
  {
    if s == [] {
      assert s + tail == tail;
    } else {
      forall i | 0 <= i < |s[1..]| ensures IsNumberChar(s[1..][i]) {
        assert s[1..][i] == s[i + 1];
      }
      SpanStops(s[1..], tail);
      assert (s + tail)[1..] == s[1..] + tail;
    }
  }

  lemma {:induction false} NumberReads(p: Platform, n: int, tail: string)
    requires INT64_MIN <= n <= INT64_MAX && Ends(tail)
    ensures Number(p, IntText(n) + tail) == Done(Int(n), tail)
  {
    var s := IntText(n);
    IntReads(n);
    SpanStops(s, tail);
    assert (s + tail)[..|s|] == s && (s + tail)[|s|..] == tail;
    Differs(s + tail, "I", 0);
    Differs(s + tail, "N", 0);
    if s[0] == '-' { Differs(s + tail, "-I", 1); } else { Differs(s + tail, "-I", 0); }
  }

  lemma Differs(s: string, pattern: string, i: nat)
    requires i < |s| && i < |pattern| && s[i] != pattern[i]
    ensures !StartsWith(s, pattern)
  {
    if |pattern| <= |s| {
      assert s[..|pattern|][i] == s[i];
    }
  }

  // ------------------------------------------------------------------- floats

  /** A lexeme of number characters, and more than a sign. */
  predicate NumberText(t: string) { t != [] && t != "-" && forall i :: 0 <= i < |t| ==> IsNumberChar(t[i]) }

  /** The parser takes it for an integer. */
  predicate ReadsAsInt(t: string) { MaybeInt(t) && IntOf(t).Some? }

  lemma {:induction false} LexemeReads(p: Platform, t: string, tail: string)
    requires NumberText(t) && Ends(tail)
    ensures Number(p, t + tail) ==
            if ReadsAsInt(t) then Done(Int(IntOf(t).value), tail)
            else if p.strtod(t).Some? then Done(Float(p.strtod(t).value), tail)
            else Fail
  {
    hide IntOf, MaybeInt;
    SpanStops(t, tail);
    var s := t + tail;
    assert s[..|t|] == t && s[|t|..] == tail && s[0] == t[0];
    Differs(s, "I", 0);
    Differs(s, "N", 0);
    if t[0] == '-' {
      assert |t| > 1 || t == "-";
      assert s[1] == t[1];
      Differs(s, "-I", 1);
    } else {
      Differs(s, "-I", 0);
    }
  }

  predicate Finite(bits: nat) { Exponent(bits) != 0x7ff }

  /** Doubles that come back on this platform: their text is read as a float, and as this one. All NaNs are printed
      alike. */
  predicate FloatCarried(p: Platform, bits: nat) {
    if Finite(bits) then
      var t := FloatText(p, bits);
      NumberText(t) && !ReadsAsInt(t) && p.strtod(t) == Some(bits)
    else bits == NAN || bits == POS_INF || bits == NEG_INF
  }

  /** A finite double is read back as this platform reads its text. */
  lemma {:induction false} FloatReads(p: Platform, bits: nat, tail: string)
    requires FloatCarried(p, bits) && Ends(tail)
    ensures ParseValue(p, FloatText(p, bits) + tail) == Done(Float(bits), tail)
  {
    hide FixedText, IsIntegral, StartsWith, NumberSpan, IntOf, MaybeInt;
    var t := FloatText(p, bits);
    assert (t + tail)[0] == t[0];
    if Finite(bits) {
      LexemeReads(p, t, tail);
      LexemeIsNumber(p, t + tail);
    } else {
      LiteralReads(t, tail, Null);
      Literals(p, t, tail);
    }
  }

  lemma LexemeIsNumber(p: Platform, s: string)
    requires s != [] && IsNumberChar(s[0])
    ensures ParseValue(p, s) == Number(p, s)
  {
    hide Number;
  }

  lemma {:induction false} Literals(p: Platform, t: string, tail: string)
    requires t == "NaN" || t == "Infinity" || t == "-Infinity"
    ensures ParseValue(p, t + tail) ==
            Done(Float(if t == "NaN" then NAN else if t == "Infinity" then POS_INF else NEG_INF), tail)
  {
    var s := t + tail;
    assert s[0] == t[0] && s[..|t|] == t && s[|t|..] == tail;
    if t == "-Infinity" {
      assert s[..2] == t[..2];
    } else if t == "Infinity" {
      assert s[..1] == t[..1];
      Differs(s, "-I", 0);
    } else {
      assert s[..1] == t[..1];
      Differs(s, "-I", 0);
      Differs(s, "I", 0);
    }
  }

  /** What the C standard asks of a platform: its formats print number lexemes, and 17 digits are enough for strtod to
      find the double again. */
  ghost predicate Standard(p: Platform) {
    forall bits: nat :: bits < 0x1_0000_0000_0000_0000 && Finite(bits) ==>
      NumberText(p.general(bits)) && p.strtod(FloatText(p, bits)) == Some(bits)
  }

  lemma {:induction false} FixedIsFloat(bits: nat)
    requires IsIntegral(bits)
    ensures NumberText(FixedText(bits)) && !MaybeInt(FixedText(bits))
  {
    hide IsIntegral, Magnitude, NumberText, MaybeInt, Decimal;
    DecimalReads(Magnitude(bits));
    PointText(if Negative(bits) then ['-'] else [], Decimal(Magnitude(bits)));
  }

  lemma {:induction false} PointText(sign: string, d: string)
    requires (sign == [] || sign == "-") && d != [] && AllDigits(d)
    ensures NumberText(sign + d + ".0") && !MaybeInt(sign + d + ".0")
  {
    var t := sign + d + ".0";
    forall i | 0 <= i < |t| ensures IsNumberChar(t[i]) {
      assert t[i] == if i < |sign| then sign[i] else if i < |sign| + |d| then d[i - |sign|] else ".0"[i - |sign| - |d|];
    }
    assert t[|sign| + |d|] == '.';
  }

  /**
   * On such a platform a double comes back as itself exactly when it is no NaN with a payload of its own and its text
   * does not look like an integer: the extra .0 is printed only below 2^53, and larger integral doubles whose 17 digits
   * need no exponent are read as integers.
   */
  lemma {:induction false} FloatRoundTripIff(p: Platform, bits: nat, indent: int)
    requires Standard(p) && bits < 0x1_0000_0000_0000_0000
    ensures Parse(p, Stringify(p, Float(bits), indent)) == Some(Float(bits)) <==>
            && (IsNan(bits) ==> bits == NAN)
            && (Finite(bits) && !IsIntegral(bits) ==> !ReadsAsInt(p.general(bits)))
  {
    hide Number, IsIntegral, FixedText, ReadsAsInt, NumberText;
    var t := FloatText(p, bits);
    assert t + [] == t && SkipSpaces([]) == [];
    assert Stringify(p, Float(bits), indent) == t;
    if Finite(bits) {
      if IsIntegral(bits) { FixedIsFloat(bits); NotInt(t); }
      TextReads(p, t);
    } else {
      Literals(p, t, []);
      SpecialBits(bits);
    }
  }

  lemma NotInt(t: string)
    requires !MaybeInt(t)
    ensures !ReadsAsInt(t)
  {
  }

  lemma {:induction false} TextReads(p: Platform, t: string)
    requires NumberText(t)
    ensures ParseValue(p, t) ==
            if ReadsAsInt(t) then Done(Int(IntOf(t).value), [])
            else if p.strtod(t).Some? then Done(Float(p.strtod(t).value), [])
            else Fail
  {
    hide Number, IntOf, MaybeInt;
    assert t + [] == t;
    LexemeReads(p, t, []);
    LexemeIsNumber(p, t);
  }

  lemma SpecialBits(bits: nat)
    requires bits < 0x1_0000_0000_0000_0000 && !Finite(bits)
    ensures IsInf(bits) ==> bits == if Negative(bits) then NEG_INF else POS_INF
    ensures IsNan(NAN) && !IsNan(POS_INF) && !IsNan(NEG_INF) && (IsNan(bits) || IsInf(bits))
  {
    var top := bits / TWO_TO_52;
    assert bits == top * TWO_TO_52 + Mantissa(bits) && top < 0x1000;
    assert top == 0x7ff || top == 0xfff;
  }

  lemma {:induction false} TwoTo53InDecimal()
    ensures Decimal(9007199254740992) == "9007199254740992"
  {
    assert Decimal(9) == "9";
    assert Decimal(90) == "90";
    assert Decimal(900) == "900";
    assert Decimal(9007) == "9007";
    assert Decimal(90071) == "90071";
    assert Decimal(900719) == "900719";
    assert Decimal(9007199) == "9007199";
    assert Decimal(90071992) == "90071992";
    assert Decimal(900719925) == "900719925";
    assert Decimal(9007199254) == "9007199254";
    assert Decimal(90071992547) == "90071992547";
    assert Decimal(900719925474) == "900719925474";
    assert Decimal(9007199254740) == "9007199254740";
    assert Decimal(90071992547409) == "90071992547409";
    assert Decimal(900719925474099) == "900719925474099";
    assert Decimal(9007199254740992) == "9007199254740992";
  }

  lemma BitsOfTwoTo53()
    ensures Finite(0x4340_0000_0000_0000) && !IsIntegral(0x4340_0000_0000_0000)
  {
    assert Exponent(0x4340_0000_0000_0000) == 1076;
  }

  /** The double 2^53, which the format %.17g prints without an exponent, comes back as an integer. */
  lemma {:induction false} LargeFloatsComeBackAsIntegers(p: Platform, indent: int)
    requires p.general(0x4340_0000_0000_0000) == "9007199254740992"
    ensures Parse(p, Stringify(p, Float(0x4340_0000_0000_0000), indent)) == Some(Int(9007199254740992))
  {
    hide Parse, Stringify, ParseValue, IntText, IntOf, MaybeInt, IsIntegral, Finite;
    BitsOfTwoTo53();
    IntReads(9007199254740992);
    IntTextOfTwoTo53();
    PrintedAsInt(p, 0x4340_0000_0000_0000, 9007199254740992, indent);
  }

  lemma IntTextOfTwoTo53()
    ensures IntText(9007199254740992) == "9007199254740992"
  {
    hide Decimal;
    TwoTo53InDecimal();
  }

  lemma {:induction false} PrintedAsInt(p: Platform, bits: nat, n: int, indent: int)
    requires INT64_MIN <= n <= INT64_MAX && Finite(bits) && !IsIntegral(bits) && p.general(bits) == IntText(n)
    ensures Parse(p, Stringify(p, Float(bits), indent)) == Some(Int(n))
  {
    hide IsIntegral, IntText, ParseValue;
    IntValueReads(p, n, []);
    assert IntText(n) + [] == IntText(n) && SkipSpaces([]) == [];
    assert Stringify(p, Float(bits), indent) == IntText(n);
  }

  // ------------------------------------------------------------------ strings

  /** Bytes a string literal survives on this platform: all of them, or only ASCII where char is signed. */
  predicate Carries(p: Platform, s: string) {
    forall i :: 0 <= i < |s| ==> s[i] < (if p.signedChar then 128 as char else 256 as char)
  }

  lemma HexReads(n: nat)
    requires n < 16
    ensures HexValue(HexDigit(n)) == Some(n)
  {
  }

  /** A control byte comes back through its \u00XX escape. */
  lemma {:induction false} ControlReads(c: char, x: string)
    requires c < 128 as char
    ensures Escape("u00" + [HexDigit(c as int / 16), HexDigit(c as int % 16)] + x) == Done([c], x)
  {
    var h, l := HexDigit(c as int / 16), HexDigit(c as int % 16);
    var s := "u00" + [h, l] + x;
    HexReads(c as int / 16);
    HexReads(c as int % 16);
    assert s[1..][..4] == "00" + [h, l];
    assert s[1..][0] == '0' && s[1..][1] == '0' && s[1..][2] == h && s[1..][3] == l;
    assert Hex4(s[1..]) == Some(c as int);
    assert s[1..][4..] == x;
  }

  lemma {:induction false} EscapedCharReads(p: Platform, c: char, x: string)
    requires Carries(p, [c])
    ensures StringBody(p, EscapeChar(c) + x) == Prepend([c], StringBody(p, x))
  {
    var e := EscapeChar(c);
    assert [c][0] == c;
    if |e| == 1 {
      assert (e + x)[0] == c && (e + x)[1..] == x;
    } else {
      ShortEscapeReads(c, x);
      assert (e + x)[0] == '\\' && (e + x)[1..] == e[1..] + x;
    }
    hide EscapeChar, Escape;
  }

  lemma {:induction false} ShortEscapeReads(c: char, x: string)
    requires |EscapeChar(c)| > 1
    ensures EscapeChar(c)[0] == '\\' && Escape(EscapeChar(c)[1..] + x) == Done([c], x)
  {
    var e := EscapeChar(c);
    if |e| == 2 {
      assert (e[1..] + x)[0] == e[1] && (e[1..] + x)[1..] == x;
    } else {
      ControlReads(c, x);
      assert e[1..] == "u00" + [HexDigit(c as int / 16), HexDigit(c as int % 16)];
    }
  }

  lemma {:induction false} StringReads(p: Platform, s: string, tail: string)
    requires Carries(p, s)
    ensures StringBody(p, EscapeAll(s) + ['"'] + tail) == Done(s, tail)
  {
    hide EscapeChar, StringBody, Carries;
    if s == [] {
      StringEnds(p, tail);
      assert EscapeAll(s) + ['"'] + tail == ['"'] + tail;
    } else {
      var y := EscapeAll(s[1..]) + ['"'] + tail;
      assert EscapeAll(s) + ['"'] + tail == EscapeChar(s[0]) + y;
      CarriesParts(p, s);
      EscapedCharReads(p, s[0], y);
      StringReads(p, s[1..], tail);
      assert s == [s[0]] + s[1..];
    }
  }

  lemma StringEnds(p: Platform, tail: string)
    ensures StringBody(p, ['"'] + tail) == Done([], tail)
  {
    assert (['"'] + tail)[1..] == tail;
  }

  lemma CarriesParts(p: Platform, s: string)
    requires s != [] && Carries(p, s)
    ensures Carries(p, [s[0]]) && Carries(p, s[1..])
  {
    assert [s[0]][0] == s[0];
  }

  // ------------------------------------------------------------------- values

  /** Null, booleans, 64-bit integers, doubles and strings this platform carries, and arrays and string-keyed objects
      of those. */
  predicate Printable(p: Platform, v: Json) {
    match v
    case Null => true
    case Bool(_) => true
    case Int(n) => INT64_MIN <= n <= INT64_MAX
    case Float(bits) => FloatCarried(p, bits)
    case Str(s) => Carries(p, s)
    case Arr(items) => forall i :: 0 <= i < |items| ==> Printable(p, items[i])
    case Obj(keys, values) =>
      && |keys| == |values|
      && (forall i :: 0 <= i < |keys| ==> Carries(p, keys[i]))
      && (forall i :: 0 <= i < |values| ==> Printable(p, values[i]))
      && (forall i, j :: 0 <= i < j < |keys| ==> keys[i] != keys[j])
  }

  ghost predicate AllPrintable(p: Platform, vs: seq<Json>) {
    forall i :: 0 <= i < |vs| ==> Printable(p, vs[i])
  }

  ghost predicate AllCarried(p: Platform, ks: seq<string>) {
    forall i :: 0 <= i < |ks| ==> Carries(p, ks[i])
  }

  lemma {:induction false} SpacesSkip(n: int, x: string)
    requires x == [] || !IsSpace(x[0])
    ensures SkipSpaces(Spaces(n) + x) == x
    decreases if n < 0 then 0 else n
  {
    if n <= 0 {
      assert Spaces(n) + x == x;
    } else {
      var s := Spaces(n) + x;
      SpaceFirst(n);
      SpacesSkip(n - 1, x);
      assert s[1..] == Spaces(n)[1..] + x;
    }
  }

  lemma {:induction false} SpaceFirst(n: int)
    requires n > 0
    ensures Spaces(n) != [] && Spaces(n)[0] == ' ' && Spaces(n)[1..] == Spaces(n - 1)
  {
    if n > 1 {
      SpaceFirst(n - 1);
      assert Spaces(n)[1..] == Spaces(n - 1)[1..] + [' '];
      assert Spaces(n - 1) == Spaces(n - 2) + [' '];
    }
  }

  lemma {:induction false} BreakSkips(indent: int, level: int, x: string)
    requires x == [] || !IsSpace(x[0])
    ensures SkipSpaces(Break(indent, level) + x) == x
  {
    hide Spaces;
    var s := Break(indent, level) + x;
    if indent == 0 {
      assert s == x;
    } else {
      assert s[0] == '\n' && s[1..] == Spaces(level) + x;
      SpacesSkip(level, x);
    }
  }

  /** Whatever follows a value inside a container ends a number. */
  lemma BreakEnds(indent: int, level: int, x: string)
    requires Ends(x)
    ensures Ends(Break(indent, level) + x)
  {
    if indent == 0 { assert Break(indent, level) + x == x; }
  }

  lemma {:induction false} LiteralReads(pattern: string, tail: string, v: Json)
    requires pattern != []
    ensures Literal(pattern + tail, pattern, v) == Done(v, tail) && (pattern + tail)[0] == pattern[0]
  {
    assert (pattern + tail)[..|pattern|] == pattern && (pattern + tail)[|pattern|..] == tail;
  }

  // ------------------------------------------------- one step of the parser

  lemma ArrayBegins(p: Platform, text: string, s: string)
    requires text != [] && text[0] == '[' && SkipSpaces(text[1..]) == s && s != []
    ensures ParseValue(p, text) == if s[0] == ']' then Done(Arr([]), s[1..]) else Elements(p, s, [])
  {
  }

  lemma ElementStep(p: Platform, s: string, before: seq<Json>, v: Json, rest: string, u: string)
    requires ParseValue(p, s) == Done(v, rest) && rest != [] && rest[0] == ',' && SkipSpaces(rest[1..]) == u && u != []
    ensures Elements(p, s, before) == Elements(p, u, before + [v])
  {
  }

  lemma ElementsEnd(p: Platform, s: string, before: seq<Json>, v: Json, rest: string, tail: string)
    requires ParseValue(p, s) == Done(v, rest) && SkipSpaces(rest) == [']'] + tail
    ensures Elements(p, s, before) == Done(Arr(before + [v]), tail)
  {
    assert ([']'] + tail)[1..] == tail;
  }

  lemma ObjectBegins(p: Platform, text: string, s: string)
    requires text != [] && text[0] == '{' && SkipSpaces(text[1..]) == s && s != []
    ensures ParseValue(p, text) == if s[0] == '}' then Done(Obj([], []), s[1..]) else Entries(p, s, [])
  {
  }

  /** The key, the colon and the value of one entry have been read. */
  ghost predicate EntryRead(p: Platform, s: string, key: string, c: string, v: Json, rest: string) {
    && s != [] && s[0] == '"' && StringBody(p, s[1..]) == Done(key, c)
    && c != [] && c[0] == ':' && ParseValue(p, c[1..]) == Done(v, rest)
  }

  lemma EntryStep(p: Platform, s: string, before: seq<(string, Json)>, key: string, c: string, v: Json, rest: string,
          u: string)
    requires EntryRead(p, s, key, c, v, rest) && rest != [] && rest[0] == ',' && SkipSpaces(rest[1..]) == u && u != []
    ensures Entries(p, s, before) == Entries(p, u, before + [(key, v)])
  {
  }

  lemma EntriesEnd(p: Platform, s: string, before: seq<(string, Json)>, key: string, c: string, v: Json, rest: string,
          tail: string)
    requires EntryRead(p, s, key, c, v, rest) && SkipSpaces(rest) == ['}'] + tail
    ensures Entries(p, s, before) == Done(MakeObj(before + [(key, v)]), tail)
  {
    assert (['}'] + tail)[1..] == tail;
  }

  lemma {:induction false} ValueReads(p: Platform, v: Json, indent: int, level: int, tail: string)
    requires Printable(p, v) && Ends(tail)
    ensures ParseValue(p, Text(p, v, indent, level) + tail) == Done(v, tail)
    decreases v, 1
  {
    match v {
      case Null => LeafReads(p, v, indent, level, tail);
      case Bool(_) => LeafReads(p, v, indent, level, tail);
      case Int(_) => LeafReads(p, v, indent, level, tail);
      case Float(_) => LeafReads(p, v, indent, level, tail);
      case Str(_) => LeafReads(p, v, indent, level, tail);
      case Arr(items) => ArrayReads(p, items, indent, level, tail);
      case Obj(keys, values) => ObjectReads(p, keys, values, indent, level, tail);
    }
  }

  lemma {:induction false} LeafReads(p: Platform, v: Json, indent: int, level: int, tail: string)
    requires Printable(p, v) && Ends(tail) && !v.Arr? && !v.Obj?
    ensures ParseValue(p, Text(p, v, indent, level) + tail) == Done(v, tail)
  {
    if v.Int? {
      IntValueReads(p, v.number, tail);
    } else if v.Float? {
      FloatReads(p, v.bits, tail);
    } else if v.Str? {
      StringValueReads(p, v.text, tail);
    } else {
      LiteralReads(Text(p, v, indent, level), tail, v);
    }
    hide IntText, EscapeAll, StringBody, Number;
  }

  lemma {:induction false} IntValueReads(p: Platform, n: int, tail: string)
    requires INT64_MIN <= n <= INT64_MAX && Ends(tail)
    ensures ParseValue(p, IntText(n) + tail) == Done(Int(n), tail)
  {
    hide Number, IntText, MaybeInt, IntOf;
    IntReads(n);
    NumberReads(p, n, tail);
    assert (IntText(n) + tail)[0] == IntText(n)[0];
  }

  lemma {:induction false} StringValueReads(p: Platform, t: string, tail: string)
    requires Carries(p, t)
    ensures ParseValue(p, Quoted(t) + tail) == Done(Str(t), tail)
  {
    hide EscapeAll, StringBody;
    StringReads(p, t, tail);
    var s := Quoted(t) + tail;
    assert s[0] == '"' && s[1..] == EscapeAll(t) + ['"'] + tail;
  }

  lemma {:induction false} ArrayText(p: Platform, items: seq<Json>, indent: int, level: int, tail: string)
    requires items != []
    ensures Text(p, Arr(items), indent, level) + tail ==
            ['['] + (Break(indent, level + indent) +
                     (Text(p, items[0], indent, level + indent) +
                      (Items(p, items[1..], false, indent, level + indent) + (Break(indent, level) + [']'] + tail))))
  {
    hide Break, Items;
    FirstItem(p, items, indent, level + indent);
    var b, x, y, z := Break(indent, level + indent), Text(p, items[0], indent, level + indent),
                      Items(p, items[1..], false, indent, level + indent), Break(indent, level);
    assert Text(p, Arr(items), indent, level) == ['['] + (b + x + y) + z + [']'];
    hide Text;
  }

  lemma FirstItem(p: Platform, items: seq<Json>, indent: int, level: int)
    requires items != []
    ensures Items(p, items, true, indent, level) ==
            Break(indent, level) + Text(p, items[0], indent, level) + Items(p, items[1..], false, indent, level)
  {
    hide Break, Text;
  }

  lemma NextItem(p: Platform, items: seq<Json>, indent: int, level: int)
    requires items != []
    ensures Items(p, items, false, indent, level) ==
            [','] + (Break(indent, level) +
                     (Text(p, items[0], indent, level) + Items(p, items[1..], false, indent, level)))
  {
    hide Break, Text;
  }

  lemma {:induction false} EmptyArrayText(p: Platform, indent: int, level: int, tail: string)
    ensures Text(p, Arr([]), indent, level) + tail == ['['] + (Break(indent, level) + ([']'] + tail))
  {
    hide Break;
    assert Items(p, [], true, indent, level + indent) == [];
    assert Text(p, Arr([]), indent, level) == ['['] + Break(indent, level) + [']'];
  }

  lemma {:induction false} ArrayReads(p: Platform, items: seq<Json>, indent: int, level: int, tail: string)
    requires AllPrintable(p, items)
    ensures ParseValue(p, Text(p, Arr(items), indent, level) + tail) == Done(Arr(items), tail)
    decreases items, 3
  {
    hide *;
    var s := Text(p, Arr(items), indent, level) + tail;
    if items == [] {
      EmptyArrayText(p, indent, level, tail);
      assert s[1..] == Break(indent, level) + ([']'] + tail);
      CloseEnds(indent, level, ']', tail);
      ArrayBegins(p, s, [']'] + tail);
      assert ([']'] + tail)[1..] == tail;
    } else {
      var x := Text(p, items[0], indent, level + indent) +
               (Items(p, items[1..], false, indent, level + indent) + (Break(indent, level) + [']'] + tail));
      ArrayText(p, items, indent, level, tail);
      PrintableItem(p, items);
      FirstOfValue(p, items[0], indent, level + indent);
      assert s[1..] == Break(indent, level + indent) + x;
      BreakSkips(indent, level + indent, x);
      ArrayBegins(p, s, x);
      ElementsRead(p, items, [], indent, level + indent, level, tail);
      assert [] + items == items;
    }
  }

  lemma PrintableItem(p: Platform, items: seq<Json>)
    requires items != [] && AllPrintable(p, items)
    ensures Printable(p, items[0]) && AllPrintable(p, items[1..])
  {
  }

  /** A value starts with no space and no closing bracket. */
  lemma FirstOfValue(p: Platform, v: Json, indent: int, level: int)
    requires Printable(p, v)
    ensures var t := Text(p, v, indent, level); t != [] && !IsSpace(t[0]) && t[0] != ']'
  {
    if v.Int? { IntReads(v.number); }
  }

  lemma {:induction false} ElementsRead(p: Platform, items: seq<Json>, before: seq<Json>, indent: int, inner: int,
          level: int, tail: string)
    requires items != [] && AllPrintable(p, items)
    ensures Elements(p, Text(p, items[0], indent, inner) +
                        (Items(p, items[1..], false, indent, inner) + (Break(indent, level) + [']'] + tail)), before)
         == Done(Arr(before + items), tail)
    decreases items, 2
  {
    hide *;
    PrintableItem(p, items);
    var close := Break(indent, level) + [']'] + tail;
    var more := Items(p, items[1..], false, indent, inner) + close;
    var s := Text(p, items[0], indent, inner) + more;
    var done := before + [items[0]];
    if |items| == 1 {
      NoItems(p, items[1..], indent, inner);
      assert more == Break(indent, level) + ([']'] + tail);
      CloseEnds(indent, level, ']', tail);
      ValueReads(p, items[0], indent, inner, more);
      ElementsEnd(p, s, before, items[0], more, tail);
      assert done == before + items;
    } else {
      var rest := items[1..];
      var x := Text(p, rest[0], indent, inner) + (Items(p, rest[1..], false, indent, inner) + close);
      PrintableItem(p, rest);
      FirstOfValue(p, rest[0], indent, inner);
      NextItem(p, rest, indent, inner);
      assert more == [','] + (Break(indent, inner) + x);
      BreakSkips(indent, inner, x);
      CommaEnds(more);
      ValueReads(p, items[0], indent, inner, more);
      ElementStep(p, s, before, items[0], more, x);
      ElementsRead(p, rest, done, indent, inner, level, tail);
      assert done + rest == before + items;
    }
  }

  lemma NoItems(p: Platform, items: seq<Json>, indent: int, level: int)
    requires items == []
    ensures Items(p, items, false, indent, level) == []
  {
  }

  function Zip(keys: seq<string>, values: seq<Json>): (es: seq<(string, Json)>)
    requires |keys| == |values|
    ensures |es| == |keys| && forall i :: 0 <= i < |es| ==> es[i] == (keys[i], values[i])
  {
    seq(|keys|, i requires 0 <= i < |keys| => (keys[i], values[i]))
  }

  /** Building the map again from its own entries gives the same map, in the same order. */
  lemma {:induction false} MakeObjAgain(keys: seq<string>, values: seq<Json>)
    requires |keys| == |values| && forall i, j :: 0 <= i < j < |keys| ==> keys[i] != keys[j]
    ensures MakeObj(Zip(keys, values)) == Obj(keys, values)
  {
    var es := Zip(keys, values);
    var tr := KeyTraits((s: string) => 0, SameKey);
    assert Lawful(tr) && DistinctKeys(es, tr.eq);
    RebuildIsIdentity(es, tr);
    assert Keys(es) == keys && Values(es) == values;
  }

  lemma {:induction false} ObjectText(p: Platform, keys: seq<string>, values: seq<Json>, indent: int, level: int,
          tail: string)
    requires keys != [] && values != []
    ensures Text(p, Obj(keys, values), indent, level) + tail ==
            ['{'] + (Break(indent, level + indent) +
                     (Entry(p, keys[0], values[0], indent, level + indent) +
                      (Members(p, keys[1..], values[1..], false, indent, level + indent) +
                       (Break(indent, level) + ['}'] + tail))))
  {
    hide Break, Members, Entry;
    FirstMember(p, keys, values, indent, level + indent);
    var b, x, y, z := Break(indent, level + indent), Entry(p, keys[0], values[0], indent, level + indent),
                      Members(p, keys[1..], values[1..], false, indent, level + indent), Break(indent, level);
    assert Text(p, Obj(keys, values), indent, level) == ['{'] + (b + x + y) + z + ['}'];
    hide Text;
  }

  lemma FirstMember(p: Platform, keys: seq<string>, values: seq<Json>, indent: int, level: int)
    requires keys != [] && values != []
    ensures Members(p, keys, values, true, indent, level) ==
            Break(indent, level) + Entry(p, keys[0], values[0], indent, level) +
            Members(p, keys[1..], values[1..], false, indent, level)
  {
    hide Break, Quoted, Colon, Text;
    var b, q, c, t, m := Break(indent, level), Quoted(keys[0]), Colon(indent), Text(p, values[0], indent, level),
                         Members(p, keys[1..], values[1..], false, indent, level);
    Regroup(b, q, c, t, m);
  }

  lemma Regroup(b: string, q: string, c: string, t: string, m: string)
    ensures [] + b + q + c + t + m == b + (q + c + t) + m
  {
  }

  lemma NextMember(p: Platform, keys: seq<string>, values: seq<Json>, indent: int, level: int)
    requires keys != [] && values != []
    ensures Members(p, keys, values, false, indent, level) ==
            [','] + (Break(indent, level) +
                     (Entry(p, keys[0], values[0], indent, level) +
                      Members(p, keys[1..], values[1..], false, indent, level)))
  {
    hide Break, Quoted, Colon, Text;
  }

  lemma {:induction false} EmptyObjectText(p: Platform, indent: int, level: int, tail: string)
    ensures Text(p, Obj([], []), indent, level) + tail == ['{'] + (Break(indent, level) + (['}'] + tail))
  {
    hide Break;
    assert Members(p, [], [], true, indent, level + indent) == [];
    assert Text(p, Obj([], []), indent, level) == ['{'] + Break(indent, level) + ['}'];
  }

  lemma {:induction false} ObjectReads(p: Platform, keys: seq<string>, values: seq<Json>, indent: int, level: int,
          tail: string)
    requires |keys| == |values| && AllCarried(p, keys) && AllPrintable(p, values)
    requires forall i, j :: 0 <= i < j < |keys| ==> keys[i] != keys[j]
    ensures ParseValue(p, Text(p, Obj(keys, values), indent, level) + tail) == Done(Obj(keys, values), tail)
    decreases values, 3
  {
    hide *;
    var s := Text(p, Obj(keys, values), indent, level) + tail;
    MakeObjAgain(keys, values);
    if keys == [] {
      EmptyObjectText(p, indent, level, tail);
      assert s[1..] == Break(indent, level) + (['}'] + tail);
      CloseEnds(indent, level, '}', tail);
      ObjectBegins(p, s, ['}'] + tail);
      assert (['}'] + tail)[1..] == tail;
    } else {
      var x := Entry(p, keys[0], values[0], indent, level + indent) +
               (Members(p, keys[1..], values[1..], false, indent, level + indent) +
                (Break(indent, level) + ['}'] + tail));
      ObjectText(p, keys, values, indent, level, tail);
      assert s[1..] == Break(indent, level + indent) + x;
      EntryStarts(p, keys[0], values[0], indent, level + indent);
      BreakSkips(indent, level + indent, x);
      ObjectBegins(p, s, x);
      EntriesRead(p, keys, values, [], indent, level + indent, level, tail);
      assert [] + Zip(keys, values) == Zip(keys, values);
    }
  }

  lemma EntryStarts(p: Platform, key: string, value: Json, indent: int, level: int)
    ensures var e := Entry(p, key, value, indent, level);
            e != [] && e[0] == '"' && !IsSpace(e[0]) &&
            e[1..] == EscapeAll(key) + ['"'] + (Colon(indent) + Text(p, value, indent, level))
  {
    hide EscapeAll, Colon, Text;
  }

  /** A key, the colon, and the value. */
  function Entry(p: Platform, key: string, value: Json, indent: int, level: int): string {
    Quoted(key) + Colon(indent) + Text(p, value, indent, level)
  }

  /** The space printed after a colon is skipped. */
  lemma {:induction false} AfterColon(p: Platform, indent: int, x: string)
    ensures var c := Colon(indent) + x;
            SkipSpaces(c) == c && c[0] == ':' && ParseValue(p, c[1..]) == ParseValue(p, x)
  {
    var c := Colon(indent) + x;
    assert c[0] == ':';
    if indent == 0 {
      assert c[1..] == x;
    } else {
      assert c[1..] == [' '] + x;
      assert c[1..][1..] == x;
    }
  }

  lemma {:induction false} EntriesRead(p: Platform, keys: seq<string>, values: seq<Json>, before: seq<(string, Json)>,
          indent: int, inner: int, level: int, tail: string)
    requires keys != [] && |keys| == |values| && AllCarried(p, keys) && AllPrintable(p, values)
    ensures Entries(p, Entry(p, keys[0], values[0], indent, inner) +
                       (Members(p, keys[1..], values[1..], false, indent, inner) +
                        (Break(indent, level) + ['}'] + tail)), before)
         == Done(MakeObj(before + Zip(keys, values)), tail)
    decreases values, 2
  {
    hide *;
    PrintableItem(p, values);
    var close := Break(indent, level) + ['}'] + tail;
    var more := Members(p, keys[1..], values[1..], false, indent, inner) + close;
    var s := Entry(p, keys[0], values[0], indent, inner) + more;
    var v := Text(p, values[0], indent, inner) + more;
    var c := Colon(indent) + v;
    EntryStarts(p, keys[0], values[0], indent, inner);
    assert s[1..] == EscapeAll(keys[0]) + ['"'] + c;
    FirstCarried(p, keys);
    StringReads(p, keys[0], c);
    AfterColon(p, indent, v);
    var done := before + [(keys[0], values[0])];
    if |keys| == 1 {
      NoMembers(p, keys[1..], values[1..], indent, inner);
      assert more == Break(indent, level) + (['}'] + tail);
      CloseEnds(indent, level, '}', tail);
      ValueReads(p, values[0], indent, inner, more);
      ReadEntry(p, s, keys[0], c, values[0], more);
      EntriesEnd(p, s, before, keys[0], c, values[0], more, tail);
      assert done == before + Zip(keys, values);
    } else {
      var x := Entry(p, keys[1..][0], values[1..][0], indent, inner) +
               (Members(p, keys[1..][1..], values[1..][1..], false, indent, inner) + close);
      NextMember(p, keys[1..], values[1..], indent, inner);
      assert more == [','] + (Break(indent, inner) + x);
      EntryStarts(p, keys[1..][0], values[1..][0], indent, inner);
      BreakSkips(indent, inner, x);
      CommaEnds(more);
      ValueReads(p, values[0], indent, inner, more);
      ReadEntry(p, s, keys[0], c, values[0], more);
      EntryStep(p, s, before, keys[0], c, values[0], more, x);
      EntriesRead(p, keys[1..], values[1..], done, indent, inner, level, tail);
      assert done + Zip(keys[1..], values[1..]) == before + Zip(keys, values);
    }
  }

  lemma FirstCarried(p: Platform, keys: seq<string>)
    requires keys != [] && AllCarried(p, keys)
    ensures Carries(p, keys[0]) && AllCarried(p, keys[1..])
  {
  }

  lemma NoMembers(p: Platform, keys: seq<string>, values: seq<Json>, indent: int, level: int)
    requires keys == []
    ensures Members(p, keys, values, false, indent, level) == []
  {
  }

  lemma CommaEnds(x: string)
    requires x != [] && x[0] == ','
    ensures Ends(x)
  {
  }

  /** The closing bracket, on its own line or not, ends a number and is found after spaces. */
  lemma CloseEnds(indent: int, level: int, bracket: char, tail: string)
    requires bracket == ']' || bracket == '}'
    ensures Ends(Break(indent, level) + ([bracket] + tail))
    ensures SkipSpaces(Break(indent, level) + ([bracket] + tail)) == [bracket] + tail
  {
    BreakEnds(indent, level, [bracket] + tail);
    BreakSkips(indent, level, [bracket] + tail);
  }

  lemma ReadEntry(p: Platform, s: string, key: string, c: string, v: Json, rest: string)
    requires s != [] && s[0] == '"' && StringBody(p, s[1..]) == Done(key, c)
    requires c != [] && c[0] == ':' && ParseValue(p, c[1..]) == Done(v, rest)
    ensures EntryRead(p, s, key, c, v, rest)
  {
  }

  /** Parse(Stringify(p, v, indent)) == v, for every indent, negative ones included. */
  lemma {:induction false} RoundTrip(p: Platform, v: Json, indent: int)
    requires Printable(p, v)
    ensures Parse(p, Stringify(p, v, indent)) == Some(v)
  {
    ValueReads(p, v, indent, 0, []);
    assert Text(p, v, indent, 0) + [] == Text(p, v, indent, 0);
  }

  /** Where char is signed, a string comes back exactly when it is ASCII: a higher byte is taken for a control
      character. */
  lemma {:induction false} StringRoundTripIff(p: Platform, s: string, indent: int)
    requires forall i :: 0 <= i < |s| ==> s[i] < 256 as char
    ensures Parse(p, Stringify(p, Str(s), indent)) == Some(Str(s)) <==> Carries(p, s)
  {
    hide EscapeAll, StringBody;
    if Carries(p, s) {
      RoundTrip(p, Str(s), indent);
    } else {
      HighByteFails(p, s, []);
      assert Text(p, Str(s), indent, 0)[1..] == EscapeAll(s) + ['"'] + [];
    }
  }

  lemma {:induction false} HighByteFails(p: Platform, s: string, tail: string)
    requires !Carries(p, s) && forall i :: 0 <= i < |s| ==> s[i] < 256 as char
    ensures StringBody(p, EscapeAll(s) + ['"'] + tail).Fail?
  {
    var x := EscapeAll(s) + ['"'] + tail;
    var y := EscapeAll(s[1..]) + ['"'] + tail;
    assert x == EscapeChar(s[0]) + y;
    if Carries(p, [s[0]]) {
      assert [s[0]][0] == s[0];
      EscapedCharReads(p, s[0], y);
      assert forall i :: 0 < i < |s| ==> s[i] == s[1..][i - 1];
      HighByteFails(p, s[1..], tail);
    } else {
      assert x[0] == s[0];
    }
  }

  // ------------------------------------------------------------- code points

  function HexText(n: nat): string
    requires n < 0x10000
  {
    [HexDigit(n / 4096), HexDigit(n / 256 % 16), HexDigit(n / 16 % 16), HexDigit(n % 16)]
  }

  /** The four hexadecimal digits of a number make up the number. */
  lemma FourDigits(n: nat)
    requires n < 0x10000
    ensures n / 4096 < 16
    ensures ((n / 4096 * 16 + n / 256 % 16) * 16 + n / 16 % 16) * 16 + n % 16 == n
  {
    var q := n / 16;
    var r := q / 16;
    assert n / 256 == r && n / 4096 == r / 16;
    assert n == q * 16 + n % 16 && q == r * 16 + q % 16 && r == r / 16 * 16 + r % 16;
  }

  lemma FourValues(s: string, a: nat, b: nat, c: nat, d: nat)
    requires |s| >= 4 && HexValue(s[0]) == Some(a) && HexValue(s[1]) == Some(b)
    requires HexValue(s[2]) == Some(c) && HexValue(s[3]) == Some(d)
    ensures Hex4(s) == Some(((a * 16 + b) * 16 + c) * 16 + d)
  {
    hide HexValue;
  }

  lemma {:induction false} HexTextReads(n: nat, x: string)
    requires n < 0x10000
    ensures Hex4(HexText(n) + x) == Some(n)
  {
    hide HexDigit, HexValue, Hex4;
    FourDigits(n);
    var a, b, c, d := n / 4096, n / 256 % 16, n / 16 % 16, n % 16;
    HexReads(a);
    HexReads(b);
    HexReads(c);
    HexReads(d);
    FourValues([HexDigit(a), HexDigit(b), HexDigit(c), HexDigit(d)] + x, a, b, c, d);
  }

  /** How a code point is written after \u in UTF-16: one unit, or a surrogate pair. */
  function UnicodeText(cp: nat): string
    requires cp < 0x110000
  {
    if cp < 0x10000 then HexText(cp)
    else HexText(0xD800 + (cp - 0x10000) / 1024) + "\\u" + HexText(0xDC00 + (cp - 0x10000) % 1024)
  }

  /** Every code point outside the surrogate range is read from its escape, in or outside the basic plane. */
  lemma {:induction false} CodePointReads(cp: nat, x: string)
    requires cp < 0x110000 && !(0xD800 <= cp <= 0xDFFF)
    ensures Unicode(UnicodeText(cp) + x) == Done(Utf8(cp), x)
  {
    hide HexText, Utf8, Hex4;
    var s := UnicodeText(cp) + x;
    if cp < 0x10000 {
      HexTextReads(cp, x);
      FourLong(cp);
      assert s[4..] == x;
    } else {
      var hi, lo := 0xD800 + (cp - 0x10000) / 1024, 0xDC00 + (cp - 0x10000) % 1024;
      FourLong(hi);
      FourLong(lo);
      HexTextReads(hi, "\\u" + HexText(lo) + x);
      HexTextReads(lo, x);
      assert s == HexText(hi) + ("\\u" + HexText(lo) + x);
      assert s[4..] == "\\u" + (HexText(lo) + x);
      assert s[4..][..2] == "\\u" && s[6..] == HexText(lo) + x && s[10..] == x;
    }
  }

  lemma FourLong(n: nat)
    requires n < 0x10000
    ensures |HexText(n)| == 4
  {
  }

  /** UTF-8 decoding of a single code point, as in section 3 of RFC 3629. */
  function DecodeUtf8(s: string): Option<nat> {
    if |s| == 1 && s[0] < 0x80 as char then Some(s[0] as int)
    else if |s| == 2 && 0xC0 as char <= s[0] < 0xE0 as char && Continues(s[1]) then
      Some((s[0] as int - 0xC0) * 64 + Tail(s[1]))
    else if |s| == 3 && 0xE0 as char <= s[0] < 0xF0 as char && Continues(s[1]) && Continues(s[2]) then
      Some(((s[0] as int - 0xE0) * 64 + Tail(s[1])) * 64 + Tail(s[2]))
    else if |s| == 4 && 0xF0 as char <= s[0] < 0xF8 as char && Continues(s[1]) && Continues(s[2]) &&
        Continues(s[3]) then
      Some((((s[0] as int - 0xF0) * 64 + Tail(s[1])) * 64 + Tail(s[2])) * 64 + Tail(s[3]))
    else None
  }

  predicate Continues(c: char) { 0x80 as char <= c < 0xC0 as char }

  function Tail(c: char): nat
    requires Continues(c)
  {
    c as int - 0x80
  }

  /** The bytes pushed for a code point decode to it again, and are as few as can be. */
  lemma {:induction false} Utf8Decodes(cp: nat)
    requires cp < 0x110000
    ensures DecodeUtf8(Utf8(cp)) == Some(cp)
    ensures |Utf8(cp)| == if cp < 0x80 then 1 else if cp < 0x800 then 2 else if cp < 0x10000 then 3 else 4
  {
    if cp >= 0x800 {
      assert cp == cp / 64 * 64 + cp % 64;
      assert cp / 64 / 64 == cp / 4096;
      assert cp / 4096 / 64 == cp / 262144;
    }
  }
}
