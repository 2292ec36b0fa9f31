// The parser reads a value from a text exactly when the grammar derives it.
module GrammarLaw {
  import opened AssocList
  import opened JsonText
  import opened JsonGrammar
  import JsonLaw

  // ------------------------------------------------------------------- spaces

  lemma BlankIsSpace(c: char)
    ensures c in BLANKS <==> IsSpace(c)
  {
    assert BLANKS[0] == ' ' && BLANKS[1] == '\t' && BLANKS[2] == '\n' && BLANKS[3] == '\r';
  }

  lemma {:induction false} BlanksSkip(b: string, x: string)
    requires Blank(b)
    ensures SkipSpaces(b + x) == SkipSpaces(x)
  {
    if b == [] {
      assert b + x == x;
    } else {
      BlankIsSpace(b[0]);
      BlanksSkip(b[1..], x);
      assert (b + x)[1..] == b[1..] + x;
    }
  }

  lemma {:induction false} SkippedIsBlank(s: string) returns (b: string)
    ensures Blank(b) && s == b + SkipSpaces(s)
  {
    if s != [] && IsSpace(s[0]) {
      BlankIsSpace(s[0]);
      b := SkippedIsBlank(s[1..]);
      b := [s[0]] + b;
    } else {
      b := [];
    }
  }

  /** A character that is no space survives. */
  lemma {:induction false} SomethingStays(x: string, y: string)
    requires y != [] && !IsSpace(y[0])
    ensures SkipSpaces(x + y) != []
  {
    if x == [] {
      assert x + y == y;
    } else {
      SomethingStays(x[1..], y);
      assert (x + y)[1..] == x[1..] + y;
    }
  }

  lemma SkipTwice(s: string)
    ensures SkipSpaces(SkipSpaces(s)) == SkipSpaces(s)
  {
  }

  // ------------------------------------------------------- hexadecimal digits

  lemma HexCharReads(h: Hex)
    requires h.value < 16
    ensures HexValue(HexChar(h)) == Some(h.value)
  {
    var k := h.value;
    if k < 10 {
      assert LOWER[k] == UPPER[k] == '0' + k as char by { DecimalMarks(k); }
    } else {
      LetterMarks(k);
    }
  }

  lemma DecimalMarks(k: nat)
    requires k < 10
    ensures LOWER[k] == UPPER[k] == DIGITS[k] == '0' + k as char
  {
    assert k == 0 || k == 1 || k == 2 || k == 3 || k == 4 || k == 5 || k == 6 || k == 7 || k == 8 || k == 9;
  }

  lemma LetterMarks(k: nat)
    requires 10 <= k < 16
    ensures LOWER[k] == 'a' + (k - 10) as char && UPPER[k] == 'A' + (k - 10) as char
  {
    assert k == 10 || k == 11 || k == 12 || k == 13 || k == 14 || k == 15;
  }

  lemma HexCharFound(c: char) returns (h: Hex)
    requires HexValue(c).Some?
    ensures h.value < 16 && HexChar(h) == c && HexValue(c) == Some(h.value)
  {
    h := Hex(HexValue(c).value, 'A' <= c <= 'F');
    if h.value < 10 { DecimalMarks(h.value); } else { LetterMarks(h.value); }
  }

  lemma {:induction false} FourReads(ds: seq<Hex>, x: string)
    requires FourHex(ds)
    ensures Hex4(FourText(ds) + x) == Some(CodeUnit(ds))
    ensures (FourText(ds) + x)[4..] == x
  {
    hide HexChar, HexValue;
    HexCharReads(ds[0]);
    HexCharReads(ds[1]);
    HexCharReads(ds[2]);
    HexCharReads(ds[3]);
  }

  lemma {:induction false} FourFound(s: string) returns (ds: seq<Hex>)
    requires Hex4(s).Some?
    ensures FourHex(ds) && s == FourText(ds) + s[4..] && Hex4(s) == Some(CodeUnit(ds))
  {
    hide HexChar, HexValue;
    var a := HexCharFound(s[0]);
    var b := HexCharFound(s[1]);
    var c := HexCharFound(s[2]);
    var d := HexCharFound(s[3]);
    ds := [a, b, c, d];
  }

  // ------------------------------------------------------------------ escapes

  lemma {:induction false} UnicodeReads(p: Platform, x: Piece, tail: string)
    requires PieceFits(p, x) && (x.Unit? || x.Pair?)
    ensures Unicode(PieceText(p, x)[2..] + tail) == Done(PieceValue(p, x), tail)
  {
    hide FourText, FourHex, CodeUnit, Hex4, Utf8;
    var s := PieceText(p, x)[2..] + tail;
    match x {
      case Unit(ds) =>
        assert s == FourText(ds) + tail;
        FourReads(ds, tail);
      case Pair(h, l) =>
        assert s == FourText(h) + ("\\u" + (FourText(l) + tail));
        FourReads(h, "\\u" + (FourText(l) + tail));
        FourReads(l, tail);
        assert s[4..][..2] == "\\u" && s[6..] == FourText(l) + tail && s[10..] == tail;
    }
  }

  lemma {:induction false} UnicodeFound(p: Platform, s: string) returns (x: Piece)
    requires Unicode(s).Done?
    ensures PieceFits(p, x) && (x.Unit? || x.Pair?)
    ensures "\\u" + s == PieceText(p, x) + Unicode(s).rest && Unicode(s).value == PieceValue(p, x)
  {
    hide FourText, FourHex, CodeUnit, Hex4, Utf8;
    var h := FourFound(s);
    if CodeUnit(h) < 0xD800 || CodeUnit(h) > 0xDFFF {
      x := Unit(h);
      assert "\\u" + s == "\\u" + FourText(h) + s[4..];
    } else {
      var l := FourFound(s[6..]);
      x := Pair(h, l);
      assert s[4..] == "\\u" + s[6..] && s[6..][4..] == s[10..];
      assert "\\u" + s == "\\u" + FourText(h) + "\\u" + FourText(l) + s[10..];
    }
  }

  lemma {:induction false} ShortReads(p: Platform, k: nat, tail: string)
    requires k < 8
    ensures Escape([MARKS[k]] + tail) == Done([MEANT[k]], tail)
  {
    hide Unicode;
    var s := [MARKS[k]] + tail;
    assert s[1..] == tail;
    assert k == 0 || k == 1 || k == 2 || k == 3 || k == 4 || k == 5 || k == 6 || k == 7;
  }

  lemma {:induction false} EscapeReads(p: Platform, x: Piece, tail: string)
    requires PieceFits(p, x) && !x.Raw?
    ensures PieceText(p, x)[0] == '\\' && Escape(PieceText(p, x)[1..] + tail) == Done(PieceValue(p, x), tail)
  {
    hide FourText, FourHex, CodeUnit, Unicode, Utf8;
    if x.Short? {
      ShortReads(p, x.which, tail);
      assert PieceText(p, x)[1..] == [MARKS[x.which]];
    } else {
      UnicodeReads(p, x, tail);
      var s := PieceText(p, x)[1..] + tail;
      assert s[0] == 'u' && s[1..] == PieceText(p, x)[2..] + tail;
    }
  }

  lemma {:induction false} EscapeFound(p: Platform, s: string) returns (x: Piece)
    requires Escape(s).Done?
    ensures PieceFits(p, x) && !x.Raw?
    ensures ['\\'] + s == PieceText(p, x) + Escape(s).rest && Escape(s).value == PieceValue(p, x)
  {
    hide FourText, FourHex, CodeUnit, Unicode, Utf8;
    if s[0] == 'u' {
      x := UnicodeFound(p, s[1..]);
      assert ['\\'] + s == "\\u" + s[1..];
    } else {
      var k := MarkOf(s[0]);
      x := Short(k);
      ShortReads(p, k, s[1..]);
      assert s == [MARKS[k]] + s[1..];
    }
  }

  lemma MarkOf(c: char) returns (k: nat)
    requires c == '"' || c == '\\' || c == '/' || c == 'b' || c == 'f' || c == 'n' || c == 'r' || c == 't'
    ensures k < 8 && MARKS[k] == c
  {
    k := if c == '"' then 0 else if c == '\\' then 1 else if c == '/' then 2 else if c == 'b' then 3
         else if c == 'f' then 4 else if c == 'n' then 5 else if c == 'r' then 6 else 7;
  }

  // ------------------------------------------------------------------ strings

  lemma PiecesSplit(p: Platform, xs: seq<Piece>)
    requires xs != [] && PiecesFit(p, xs)
    ensures PieceFits(p, xs[0]) && PiecesFit(p, xs[1..])
  {
  }

  lemma PiecesJoin(p: Platform, x: Piece, xs: seq<Piece>)
    requires PieceFits(p, x) && PiecesFit(p, xs)
    ensures PiecesFit(p, [x] + xs) && PiecesText(p, [x] + xs) == PieceText(p, x) + PiecesText(p, xs)
    ensures PiecesValue(p, [x] + xs) == PieceValue(p, x) + PiecesValue(p, xs)
  {
    hide PieceFits, PieceText, PieceValue;
    assert ([x] + xs)[1..] == xs;
  }

  lemma {:induction false} PieceReads(p: Platform, x: Piece, rest: string)
    requires PieceFits(p, x)
    ensures StringBody(p, PieceText(p, x) + rest) == Prepend(PieceValue(p, x), StringBody(p, rest))
  {
    hide PieceText, PieceValue, Escape, StringBody;
    if x.Raw? {
      RawPiece(p, x.c);
      RawReads(p, x.c, rest);
    } else {
      var s := PieceText(p, x) + rest;
      EscapeReads(p, x, rest);
      assert s[0] == '\\' && s[1..] == PieceText(p, x)[1..] + rest;
      BackslashReads(p, s);
    }
  }

  lemma RawReads(p: Platform, c: char, rest: string)
    requires c != '"' && c != '\\' && !IsControl(p, c)
    ensures StringBody(p, [c] + rest) == Prepend([c], StringBody(p, rest))
  {
    var s := [c] + rest;
    assert s[0] == c && s[1..] == rest;
  }

  lemma BackslashReads(p: Platform, s: string)
    requires s != [] && s[0] == '\\' && Escape(s[1..]).Done?
    ensures StringBody(p, s) == Prepend(Escape(s[1..]).value, StringBody(p, Escape(s[1..]).rest))
  {
    hide Escape;
  }

  lemma {:induction false} BodyReads(p: Platform, xs: seq<Piece>, tail: string)
    requires PiecesFit(p, xs)
    ensures StringBody(p, PiecesText(p, xs) + (['"'] + tail)) == Done(PiecesValue(p, xs), tail)
  {
    hide PieceFits, PieceText, PieceValue, StringBody;
    var s := PiecesText(p, xs) + (['"'] + tail);
    if xs == [] {
      assert s == ['"'] + tail;
      JsonLaw.StringEnds(p, tail);
    } else {
      PiecesSplit(p, xs);
      BodyReads(p, xs[1..], tail);
      PieceReads(p, xs[0], PiecesText(p, xs[1..]) + (['"'] + tail));
      assert s == PieceText(p, xs[0]) + (PiecesText(p, xs[1..]) + (['"'] + tail));
    }
  }

  lemma {:induction false} BodyFound(p: Platform, s: string) returns (xs: seq<Piece>)
    requires StringBody(p, s).Done?
    ensures PiecesFit(p, xs) && s == PiecesText(p, xs) + (['"'] + StringBody(p, s).rest)
    ensures StringBody(p, s).value == PiecesValue(p, xs)
    decreases |s|
  {
    hide PieceText, PieceValue, Escape, PiecesText, PiecesValue, StringBody, IsControl;
    BodyStep(p, s);
    if s[0] == '"' {
      xs := [];
      NoPieces(p);
      assert s == [] + (['"'] + s[1..]);
    } else if s[0] == '\\' {
      var e := Escape(s[1..]);
      var x := EscapeFound(p, s[1..]);
      var ys := BodyFound(p, e.rest);
      xs := [x] + ys;
      PiecesJoin(p, x, ys);
      assert s == ['\\'] + s[1..];
    } else {
      var ys := BodyFound(p, s[1..]);
      xs := [Raw(s[0])] + ys;
      RawPiece(p, s[0]);
      PiecesJoin(p, Raw(s[0]), ys);
      assert s == [s[0]] + s[1..];
    }
  }

  lemma BodyStep(p: Platform, s: string)
    requires StringBody(p, s).Done?
    ensures s != []
    ensures s[0] == '"' ==> StringBody(p, s) == Done([], s[1..])
    ensures s[0] == '\\' ==> Escape(s[1..]).Done? && StringBody(p, Escape(s[1..]).rest).Done? &&
                             StringBody(p, s) == Prepend(Escape(s[1..]).value, StringBody(p, Escape(s[1..]).rest))
    ensures s[0] != '"' && s[0] != '\\' ==> !IsControl(p, s[0]) && StringBody(p, s[1..]).Done? &&
                                            StringBody(p, s) == Prepend([s[0]], StringBody(p, s[1..]))
  {
    hide Escape, IsControl;
  }

  lemma NoPieces(p: Platform)
    ensures PiecesText(p, []) == [] && PiecesValue(p, []) == []
  {
  }

  lemma RawPiece(p: Platform, c: char)
    requires c != '"' && c != '\\' && !IsControl(p, c)
    ensures PieceFits(p, Raw(c)) && PieceText(p, Raw(c)) == [c] && PieceValue(p, Raw(c)) == [c]
  {
  }

  // ------------------------------------------------------------------ numbers

  /** What may follow a value: the end, a space, a comma or a closing bracket. */
  predicate Stops(tail: string) { tail == [] || tail[0] in " \t\n\r,]}" }

  lemma StopsAre(tail: string)
    requires tail != [] && Stops(tail)
    ensures IsSpace(tail[0]) || tail[0] == ',' || tail[0] == ']' || tail[0] == '}'
  {
  }

  lemma NumberCharsAre(c: char)
    ensures c in "0123456789eE+-." <==> IsNumberChar(c)
  {
    var s := "0123456789eE+-.";
    if IsDigit(c) {
      DecimalMarks(c as int - 48);
      assert s[c as int - 48] == DIGITS[c as int - 48];
    }
    assert s[10] == 'e' && s[11] == 'E' && s[12] == '+' && s[13] == '-' && s[14] == '.';
  }

  lemma NumberChars(t: string)
    ensures (forall i :: 0 <= i < |t| ==> t[i] in "0123456789eE+-.") <==>
            forall i :: 0 <= i < |t| ==> IsNumberChar(t[i])
  {
    forall i | 0 <= i < |t| ensures t[i] in "0123456789eE+-." <==> IsNumberChar(t[i]) {
      NumberCharsAre(t[i]);
    }
  }

  lemma {:induction false} PositionalLast(ds: seq<nat>, d: nat)
    ensures Positional(ds + [d]) == 10 * Positional(ds) + d
  {
    if ds == [] {
      assert ds + [d] == [d];
      assert TenTo(0) == 1 && Positional([]) == 0;
      assert Positional([d]) == d * TenTo(0) + Positional([d][1..]);
    } else {
      PositionalLast(ds[1..], d);
      assert (ds + [d])[1..] == ds[1..] + [d];
      var n := TenTo(|ds| - 1);
      assert TenTo(|ds|) == 10 * n;
      assert ds[0] * (10 * n) == 10 * (ds[0] * n);
    }
  }

  lemma {:induction false} DigitsRead(ds: seq<nat>)
    requires DigitsFit(ds)
    ensures AllDigits(DigitText(ds)) && DigitsValue(DigitText(ds)) == Positional(ds)
  {
    var t := DigitText(ds);
    forall i | 0 <= i < |t| ensures t[i] == '0' + ds[i] as char {
      DecimalMarks(ds[i]);
    }
    if ds != [] {
      var n := |ds| - 1;
      DigitsRead(ds[..n]);
      assert DigitText(ds[..n]) == t[..n];
      PositionalLast(ds[..n], ds[n]);
      assert ds[..n] + [ds[n]] == ds;
    }
  }

  lemma {:induction false} DigitsFound(s: string) returns (ds: seq<nat>)
    requires AllDigits(s)
    ensures |ds| == |s| && DigitsFit(ds) && DigitText(ds) == s && DigitsValue(s) == Positional(ds)
  {
    ds := seq(|s|, i requires 0 <= i < |s| => DigitOf(s[i]));
    forall i | 0 <= i < |s| ensures DIGITS[ds[i]] == s[i] {
      DecimalMarks(ds[i]);
    }
    assert DigitText(ds) == s;
    DigitsRead(ds);
  }

  lemma {:induction false} WholeReads(sign: string, ds: seq<nat>)
    requires WholeFits(sign, ds)
    ensures var t := WholeText(sign, ds);
            JsonLaw.ReadsAsInt(t) && IntOf(t) == Some(Signed(sign, Positional(ds))) && t != [] &&
                forall i :: 0 <= i < |t| ==> IsNumberChar(t[i])
  {
    hide Positional, DigitsValue;
    DigitsRead(ds);
    var t, d := WholeText(sign, ds), DigitText(ds);
    assert forall i :: 0 <= i < |t| ==> t[i] == if i < |sign| then sign[i] else d[i - |sign|];
    assert IsDigit(d[0]);
    if sign == "" { assert t == d; } else { assert t[1..] == d; }
  }

  lemma {:induction false} WholeFound(t: string) returns (sign: string, ds: seq<nat>)
    requires IntOf(t).Some?
    ensures WholeFits(sign, ds) && WholeText(sign, ds) == t && IntOf(t) == Some(Signed(sign, Positional(ds)))
  {
    hide Positional, DigitsValue, AllDigits, DigitText, DigitsFit;
    IntParts(t);
    if t[0] == '-' || t[0] == '+' {
      sign := [t[0]];
      ds := DigitsFound(t[1..]);
      assert t == sign + t[1..];
    } else {
      sign := "";
      ds := DigitsFound(t);
      assert t == sign + t;
    }
  }

  lemma IntParts(t: string)
    requires IntOf(t).Some?
    ensures t != []
    ensures var d := if t[0] == '-' || t[0] == '+' then t[1..] else t;
            d != [] && AllDigits(d) && IntOf(t) == Some(if t[0] == '-' then 0 - DigitsValue(d) else DigitsValue(d)) &&
                INT64_MIN <= IntOf(t).value <= INT64_MAX
  {
    hide AllDigits, DigitsValue;
  }

  /** The lexemes the parser takes for integers are exactly the whole numbers of 64 bits. */
  lemma {:induction false} WholeIff(t: string)
    ensures IsWhole(t) <==> JsonLaw.ReadsAsInt(t)
  {
    hide Positional, IntOf, MaybeInt;
    if IsWhole(t) {
      var sign, ds :| WholeFits(sign, ds) && WholeText(sign, ds) == t;
      WholeReads(sign, ds);
    }
    if JsonLaw.ReadsAsInt(t) {
      var sign, ds := WholeFound(t);
    }
  }

  lemma {:induction false} LexemeReads(p: Platform, t: string, tail: string)
    requires t != [] && (forall i :: 0 <= i < |t| ==> IsNumberChar(t[i])) && Stops(tail)
    ensures ParseValue(p, t + tail) ==
            if JsonLaw.ReadsAsInt(t) then Done(Int(IntOf(t).value), tail)
            else if p.strtod(t).Some? then Done(Float(p.strtod(t).value), tail)
            else Fail
  {
    hide IntOf, MaybeInt, Number;
    var s := t + tail;
    assert s[..|t|] == t && s[|t|..] == tail && s[0] == t[0];
    if tail != [] { StopsAre(tail); }
    JsonLaw.SpanStops(t, tail);
    JsonLaw.LexemeIsNumber(p, s);
    NoSpecial(t, tail);
    LexemeOf(p, s, |t|);
  }

  lemma NoSpecial(t: string, tail: string)
    requires t != [] && (forall i :: 0 <= i < |t| ==> IsNumberChar(t[i])) && Stops(tail)
    ensures !StartsWith(t + tail, "-I") && !StartsWith(t + tail, "I") && !StartsWith(t + tail, "N")
  {
    var s := t + tail;
    if tail != [] { StopsAre(tail); }
    JsonLaw.Differs(s, "I", 0);
    JsonLaw.Differs(s, "N", 0);
    if |s| > 1 {
      assert s[1] == if |t| > 1 then t[1] else tail[0];
      JsonLaw.Differs(s, "-I", 1);
    }
  }

  lemma LexemeOf(p: Platform, s: string, n: nat)
    requires !StartsWith(s, "-I") && !StartsWith(s, "I") && !StartsWith(s, "N")
    requires n == NumberSpan(s)
    ensures Number(p, s) ==
            if n == 0 then Fail
            else if JsonLaw.ReadsAsInt(s[..n]) then Done(Int(IntOf(s[..n]).value), s[n..])
            else if p.strtod(s[..n]).Some? then Done(Float(p.strtod(s[..n]).value), s[n..])
            else Fail
  {
    hide StartsWith, IntOf, MaybeInt;
  }

  lemma {:induction false} SpanChars(s: string)
    ensures forall i :: 0 <= i < NumberSpan(s) ==> IsNumberChar(s[i])
  {
    if s != [] && IsNumberChar(s[0]) {
      SpanChars(s[1..]);
      forall i | 0 <= i < NumberSpan(s) ensures IsNumberChar(s[i]) {
        if i > 0 { assert s[i] == s[1..][i - 1]; }
      }
    }
  }

  lemma {:induction false} NumberFound(p: Platform, s: string) returns (t: Tree)
    requires Number(p, s).Done?
    ensures TreeFits(p, t) && s == TreeText(p, t) + Number(p, s).rest && Number(p, s).value == TreeValue(p, t)
  {
    hide Number, WholeFits, WholeText, Positional, Signed, StartsWith;
    if StartsWith(s, "-I") || StartsWith(s, "I") || StartsWith(s, "N") {
      t := SpecialFound(p, s);
    } else {
      var n := NumberSpan(s);
      LexemeOf(p, s, n);
      SpanChars(s);
      assert s == s[..n] + s[n..];
      t := LexemeFound(p, s[..n]);
    }
  }

  lemma {:induction false} LexemeFound(p: Platform, t: string) returns (d: Tree)
    requires t != [] && forall i :: 0 <= i < |t| ==> IsNumberChar(t[i])
    requires JsonLaw.ReadsAsInt(t) || p.strtod(t).Some?
    ensures TreeFits(p, d) && TreeText(p, d) == t
    ensures TreeValue(p, d) == if JsonLaw.ReadsAsInt(t) then Int(IntOf(t).value) else Float(p.strtod(t).value)
  {
    hide WholeFits, Positional, Signed, IntOf, MaybeInt, IsWhole;
    if JsonLaw.ReadsAsInt(t) {
      var sign, ds := WholeFound(t);
      d := Whole(sign, ds);
    } else {
      WholeIff(t);
      NumberChars(t);
      d := Real(t);
    }
  }

  lemma {:induction false} SpecialFound(p: Platform, s: string) returns (t: Tree)
    requires Number(p, s).Done? && (StartsWith(s, "-I") || StartsWith(s, "I") || StartsWith(s, "N"))
    ensures TreeFits(p, t) && s == TreeText(p, t) + Number(p, s).rest && Number(p, s).value == TreeValue(p, t)
  {
    hide NumberSpan, IntOf, MaybeInt;
    t := Word(if StartsWith(s, "-I") then "-Infinity" else if StartsWith(s, "I") then "Infinity" else "NaN");
    assert s == s[..|t.name|] + s[|t.name|..];
  }

  // ------------------------------------------------------------ repeated keys

  lemma {:induction false} ByLastHas(es: seq<(string, Json)>, k: string)
    ensures Has(ByLast(es), k) <==> Has(es, k)
  {
    hide Has;
    if es == [] {
      assert ByLast(es) == es;
    } else {
      var h, t := es[0], es[1..];
      ByLastHas(t, k);
      HasOfCons(es, k);
      assert es == [h] + t;
      ByLastCons(h, t);
      if Has(t, h.0) {
        assert k == h.0 ==> Has(t, k);
      } else {
        HasOfCons([h] + ByLast(t), k);
        assert ([h] + ByLast(t))[1..] == ByLast(t);
      }
    }
  }

  lemma HasOfCons(es: seq<(string, Json)>, k: string)
    requires es != []
    ensures Has(es, k) <==> es[0].0 == k || Has(es[1..], k)
  {
    assert forall i :: 1 <= i < |es| ==> es[i] == es[1..][i - 1];
  }

  lemma HasOfSnoc(es: seq<(string, Json)>, e: (string, Json), k: string)
    ensures Has(es + [e], k) <==> Has(es, k) || e.0 == k
  {
    var r := es + [e];
    assert r[|es|] == e && forall i :: 0 <= i < |es| ==> r[i] == es[i];
  }

  lemma NotFound(es: seq<(string, Json)>, k: string)
    requires !Has(es, k)
    ensures Find(es, SameKey, k) == |es|
  {
  }

  /** Setting a key passes over a first entry with another key. */
  lemma {:induction false} SetCons(x: (string, Json), es: seq<(string, Json)>, k: string, v: Json)
    requires x.0 != k
    ensures SetLast([x] + es, SameKey, k, v) == [x] + SetLast(es, SameKey, k, v)
    ensures SetInPlace([x] + es, SameKey, k, v) == [x] + SetInPlace(es, SameKey, k, v)
  {
    hide Find;
    FindCons(x, es, k);
    var s, i := [x] + es, Find(es, SameKey, k);
    if i < |es| {
      assert s[..1 + i] == [x] + es[..i] && s[i + 2..] == es[i + 1..];
      assert DropAt(s, 1 + i) == [x] + DropAt(es, i);
    }
  }

  lemma FindCons(x: (string, Json), es: seq<(string, Json)>, k: string)
    requires x.0 != k
    ensures Find([x] + es, SameKey, k) == 1 + Find(es, SameKey, k)
  {
    assert ([x] + es)[1..] == es;
  }

  lemma {:induction false} ByLastSnoc(es: seq<(string, Json)>, e: (string, Json))
    ensures ByLast(es + [e]) == SetLast(ByLast(es), SameKey, e.0, e.1)
  {
    hide Has, SetLast, ByLast;
    if es == [] {
      assert es + [e] == [e];
      SetFirst(e);
    } else {
      var h, t := es[0], es[1..];
      ByLastSnoc(t, e);
      ByLastStep(h, t, e);
      assert es == [h] + t && es + [e] == [h] + (t + [e]);
    }
  }

  lemma {:induction false} ByLastStep(h: (string, Json), t: seq<(string, Json)>, e: (string, Json))
    requires ByLast(t + [e]) == SetLast(ByLast(t), SameKey, e.0, e.1)
    ensures ByLast([h] + (t + [e])) == SetLast(ByLast([h] + t), SameKey, e.0, e.1)
  {
    hide Has, SetLast, ByLast;
    HasOfSnoc(t, e, h.0);
    ByLastCons(h, t);
    ByLastCons(h, t + [e]);
    if !Has(t, h.0) && h.0 == e.0 {
      ByLastHas(t, e.0);
      SetHead(h, ByLast(t), e.1);
    } else if !Has(t, h.0) {
      SetCons(h, ByLast(t), e.0, e.1);
    }
  }

  lemma ByLastCons(h: (string, Json), t: seq<(string, Json)>)
    ensures ByLast([h] + t) == if Has(t, h.0) then ByLast(t) else [h] + ByLast(t)
  {
    assert ([h] + t)[1..] == t;
  }

  lemma SetFirst(e: (string, Json))
    ensures ByLast([e]) == [e] == SetLast([], SameKey, e.0, e.1)
    ensures ByLast([]) == []
  {
  }

  /** The first entry has the key and no other one has. */
  lemma {:induction false} SetHead(h: (string, Json), es: seq<(string, Json)>, v: Json)
    requires !Has(es, h.0)
    ensures SetLast([h] + es, SameKey, h.0, v) == es + [(h.0, v)] == SetLast(es, SameKey, h.0, v)
  {
    NotFound(es, h.0);
    var s := [h] + es;
    assert Find(s, SameKey, h.0) == 0;
    assert s[..0] == [] && s[1..] == es;
    assert DropAt(s, 0) == es;
  }

  lemma {:induction false} WithoutSnoc(es: seq<(string, Json)>, e: (string, Json), k: string)
    ensures Without(es + [e], k) == Without(es, k) + if e.0 == k then [] else [e]
  {
    var r := es + [e];
    if es == [] {
      assert r == [e] && r[1..] == [];
    } else {
      assert r[1..] == es[1..] + [e];
      WithoutSnoc(es[1..], e, k);
    }
  }

  lemma {:induction false} LastValueSnoc(es: seq<(string, Json)>, e: (string, Json), k: string)
    requires Has(es + [e], k)
    ensures e.0 == k ==> LastValue(es + [e], k) == e.1
    ensures e.0 != k ==> Has(es, k) && LastValue(es + [e], k) == LastValue(es, k)
  {
    hide Has;
    HasOfSnoc(es, e, k);
    var r := es + [e];
    if es == [] {
      assert r == [e] && r[1..] == [];
      Nobody(k);
      HasOfCons(r, k);
    } else {
      assert r[1..] == es[1..] + [e] && r[0] == es[0];
      HasOfCons(r, k);
      HasOfCons(es, k);
      HasOfSnoc(es[1..], e, k);
      if Has(r[1..], k) { LastValueSnoc(es[1..], e, k); }
    }
  }

  lemma Nobody(k: string)
    ensures !Has([], k)
  {
  }

  lemma {:induction false} ByFirstSnoc(es: seq<(string, Json)>, e: (string, Json))
    ensures ByFirst(es + [e]) == SetInPlace(ByFirst(es), SameKey, e.0, e.1)
    decreases |es|
  {
    hide Has, SetInPlace, LastValue;
    var r := es + [e];
    if es == [] {
      assert r == [e] && r[1..] == [];
      FirstOfOne(e);
    } else {
      var h, t := es[0], es[1..];
      assert r[0] == h && r[1..] == t + [e];
      HasOfCons(r, h.0);
      HasOfCons(es, h.0);
      LastValueSnoc(es, e, h.0);
      WithoutSnoc(t, e, h.0);
      var rest := ByFirst(Without(t, h.0));
      assert ByFirst(es) == [(h.0, LastValue(es, h.0))] + rest;
      assert ByFirst(r) == [(h.0, LastValue(r, h.0))] + ByFirst(Without(r[1..], h.0));
      if e.0 == h.0 {
        assert Without(t, h.0) + [] == Without(t, h.0);
        OverwriteHead(h.0, LastValue(es, h.0), rest, e.1);
      } else {
        ByFirstSnoc(Without(t, h.0), e);
        SetCons((h.0, LastValue(es, h.0)), rest, e.0, e.1);
      }
    }
  }

  lemma FirstOfOne(e: (string, Json))
    ensures ByFirst([e]) == [e] == SetInPlace(ByFirst([]), SameKey, e.0, e.1)
  {
    assert [e][1..] == [] && Without([], e.0) == [] && ByFirst([]) == [];
    assert !Has([], e.0);
  }

  lemma OverwriteHead(k: string, was: Json, rest: seq<(string, Json)>, v: Json)
    ensures SetInPlace([(k, was)] + rest, SameKey, k, v) == [(k, v)] + rest
  {
  }

  /** Building a map from a range keeps the keys and values the grammar says. */
  lemma {:induction false} MakesCollected(es: seq<(string, Json)>)
    ensures MakeObj(es) == Collected(es)
  {
    InsertedByLast(es);
    InsertedByFirst(es);
    var r := FromRange(es);
    hide ByLast, ByFirst, SetAllLast, SetAllInPlace;
    assert Keys(r) == seq(|r|, i requires 0 <= i < |r| => r[i].0);
    assert Values(r) == seq(|r|, i requires 0 <= i < |r| => r[i].1);
  }

  lemma {:induction false} InsertedByLast(es: seq<(string, Json)>)
    ensures SetAllLast([], SameKey, es) == ByLast(es)
  {
    hide SetLast;
    if es != [] {
      var n := |es| - 1;
      InsertedByLast(es[..n]);
      ByLastSnoc(es[..n], es[n]);
      assert es[..n] + [es[n]] == es;
    }
  }

  lemma {:induction false} InsertedByFirst(es: seq<(string, Json)>)
    ensures SetAllInPlace([], SameKey, es) == ByFirst(es)
  {
    hide SetInPlace;
    if es != [] {
      var n := |es| - 1;
      InsertedByFirst(es[..n]);
      ByFirstSnoc(es[..n], es[n]);
      assert es[..n] + [es[n]] == es;
    }
  }

  // ------------------------------------------------------------------- values

  /** The parser of a value sees no spaces before it. */
  lemma ValueSkips(p: Platform, s: string, u: string)
    requires SkipSpaces(s) == SkipSpaces(u)
    ensures ParseValue(p, s) == ParseValue(p, u)
  {
    hide SkipSpaces, StringBody, Number, ParseObject, ParseArray;
  }

  lemma ElementsSkip(p: Platform, s: string, u: string, before: seq<Json>)
    requires SkipSpaces(s) == SkipSpaces(u)
    ensures Elements(p, s, before) == Elements(p, u, before)
  {
    hide SkipSpaces, ParseValue;
    ValueSkips(p, s, u);
  }

  lemma {:induction false} WordReads(p: Platform, name: string, tail: string)
    requires IsWord(name)
    ensures ParseValue(p, name + tail) == Done(WordValue(name), tail)
  {
    hide IntOf, MaybeInt, StringBody, ParseArray, ParseObject, Number;
    if name == "NaN" || name == "Infinity" || name == "-Infinity" {
      JsonLaw.Literals(p, name, tail);
    } else {
      JsonLaw.LiteralReads(name, tail, WordValue(name));
    }
  }

  lemma {:induction false} QuoteReads(p: Platform, xs: seq<Piece>, tail: string)
    requires PiecesFit(p, xs)
    ensures ParseValue(p, ['"'] + PiecesText(p, xs) + ['"'] + tail) == Done(Str(PiecesValue(p, xs)), tail)
  {
    hide StringBody, PiecesText, PiecesValue, ParseArray, ParseObject, Number;
    BodyReads(p, xs, tail);
    var s := ['"'] + PiecesText(p, xs) + ['"'] + tail;
    assert s[0] == '"' && s[1..] == PiecesText(p, xs) + (['"'] + tail);
  }

  lemma {:induction false} NumeralReads(p: Platform, t: Tree, tail: string)
    requires TreeFits(p, t) && (t.Whole? || t.Real?) && Stops(tail)
    ensures ParseValue(p, TreeText(p, t) + tail) == Done(TreeValue(p, t), tail)
  {
    hide ParseValue, Stops, WholeFits, WholeText, IsWhole, Signed, IntOf, MaybeInt, Positional;
    if t.Whole? {
      WholeReads(t.sign, t.digits);
    } else {
      WholeIff(t.lexeme);
      NumberChars(t.lexeme);
    }
    LexemeReads(p, TreeText(p, t), tail);
  }

  lemma {:induction false} TreeReads(p: Platform, t: Tree, tail: string)
    requires TreeFits(p, t) && Stops(tail)
    ensures ParseValue(p, TreeText(p, t) + tail) == Done(TreeValue(p, t), tail)
    decreases t
  {
    hide ParseValue, Stops, WholeFits, RealFits, PiecesFit, IsWord, Blank, RowFits, FieldsFit;
    var s := TreeText(p, t) + tail;
    match t {
      case Word(name) => WordReads(p, name, tail);
      case Whole(_, _) => NumeralReads(p, t, tail);
      case Real(_) => NumeralReads(p, t, tail);
      case Quote(xs) => QuoteReads(p, xs, tail);
      case NoItems(space) => NoItemsRead(p, space, tail);
      case NoFields(space) => NoFieldsRead(p, space, tail);
      case List(row) =>
        RowReads(p, row, [], tail);
        RowStarts(p, row, [']'] + tail);
        ListBegins(p, RowText(p, row), tail);
        assert [] + RowValues(p, row) == RowValues(p, row);
      case Record(fields) =>
        FieldsRead(p, fields, [], tail);
        RecordBegins(p, FieldsText(p, fields), tail);
        MakesCollected(FieldValues(p, fields));
        assert [] + FieldValues(p, fields) == FieldValues(p, fields);
    }
  }

  lemma {:induction false} NoItemsRead(p: Platform, space: string, tail: string)
    requires Blank(space)
    ensures ParseValue(p, ['['] + space + [']'] + tail) == Done(Arr([]), tail)
  {
    hide ParseValue, Blank;
    var s := ['['] + space + [']'] + tail;
    assert s[1..] == space + ([']'] + tail);
    BlanksSkip(space, [']'] + tail);
    JsonLaw.ArrayBegins(p, s, [']'] + tail);
    assert ([']'] + tail)[1..] == tail;
  }

  lemma {:induction false} NoFieldsRead(p: Platform, space: string, tail: string)
    requires Blank(space)
    ensures ParseValue(p, ['{'] + space + ['}'] + tail) == Done(Obj([], []), tail)
  {
    hide ParseValue, Blank;
    var s := ['{'] + space + ['}'] + tail;
    assert s[1..] == space + (['}'] + tail);
    BlanksSkip(space, ['}'] + tail);
    JsonLaw.ObjectBegins(p, s, ['}'] + tail);
    assert (['}'] + tail)[1..] == tail;
  }

  lemma {:induction false} ListBegins(p: Platform, row: string, tail: string)
    requires var u := SkipSpaces(row + ([']'] + tail)); u != [] && u[0] != ']'
    ensures ParseValue(p, ['['] + row + [']'] + tail) == Elements(p, row + ([']'] + tail), [])
  {
    hide ParseValue, SkipSpaces, Elements;
    var s, x := ['['] + row + [']'] + tail, row + ([']'] + tail);
    assert s[1..] == x;
    JsonLaw.ArrayBegins(p, s, SkipSpaces(x));
    SkipTwice(x);
    ElementsSkip(p, x, SkipSpaces(x), []);
  }

  lemma {:induction false} RecordBegins(p: Platform, fields: string, tail: string)
    requires var u := SkipSpaces(fields + (['}'] + tail)); u != [] && u[0] != '}'
    ensures ParseValue(p, ['{'] + fields + ['}'] + tail) == Entries(p, SkipSpaces(fields + (['}'] + tail)), [])
  {
    hide ParseValue, SkipSpaces, Entries;
    var s, x := ['{'] + fields + ['}'] + tail, fields + (['}'] + tail);
    assert s[1..] == x;
    JsonLaw.ObjectBegins(p, s, SkipSpaces(x));
  }

  predicate Starts(s: string) { s != [] && !IsSpace(s[0]) && s[0] != ']' }

  /** A value starts with no space and no closing bracket. */
  lemma {:induction false} TreeStarts(p: Platform, t: Tree)
    requires TreeFits(p, t)
    ensures Starts(TreeText(p, t))
  {
    hide TreeFits, TreeText, Starts;
    if t.Word? {
      WordStarts(p, t);
    } else if t.Whole? {
      WholeStarts(p, t);
    } else if t.Real? {
      RealStarts(p, t);
    } else {
      MarkStarts(p, t);
    }
  }

  lemma WordStarts(p: Platform, t: Tree)
    requires TreeFits(p, t) && t.Word?
    ensures Starts(TreeText(p, t))
  {
  }

  lemma WholeStarts(p: Platform, t: Tree)
    requires TreeFits(p, t) && t.Whole?
    ensures Starts(TreeText(p, t))
  {
    hide WholeText, IntOf, MaybeInt;
    WholeReads(t.sign, t.digits);
    var c := WholeText(t.sign, t.digits)[0];
    assert IsNumberChar(c);
  }

  lemma RealStarts(p: Platform, t: Tree)
    requires TreeFits(p, t) && t.Real?
    ensures Starts(TreeText(p, t))
  {
    hide IsWhole;
    NumberCharsAre(t.lexeme[0]);
  }

  /** A quote or an opening bracket. */
  lemma MarkStarts(p: Platform, t: Tree)
    requires TreeFits(p, t) && !t.Word? && !t.Whole? && !t.Real?
    ensures Starts(TreeText(p, t))
  {
    hide PiecesFit, RowFits, FieldsFit, Blank, PiecesText, RowText, FieldsText;
  }

  lemma {:induction false} RowStarts(p: Platform, row: Row, rest: string)
    requires RowFits(p, row)
    ensures var u := SkipSpaces(RowText(p, row) + rest); u != [] && u[0] != ']'
  {
    hide TreeFits, TreeText, Blank;
    var d := row.item;
    TreeStarts(p, d.tree);
    var t := TreeText(p, d.tree);
    var more := d.after + (if row.ItemThen? then [','] + RowText(p, row.more) else []) + rest;
    assert RowText(p, row) + rest == d.before + (t + more);
    BlanksSkip(d.before, t + more);
    assert (t + more)[0] == t[0];
  }

  /** A value starts at s, and after it and its spaces comes tail. */
  ghost predicate ValueAt(p: Platform, s: string, v: Json, tail: string) {
    var r := ParseValue(p, s);
    r.Done? && r.value == v && SkipSpaces(r.rest) == tail
  }

  lemma {:induction false} PaddedReads(p: Platform, d: Padded, tail: string)
    requires PaddedFits(p, d) && tail != [] && tail[0] in ",]}"
    ensures ValueAt(p, PaddedText(p, d) + tail, PaddedValue(p, d), tail)
    decreases d
  {
    hide TreeFits, TreeText, TreeValue, ParseValue, Blank;
    var t := TreeText(p, d.tree);
    AfterStops(d.after, tail);
    TreeReads(p, d.tree, d.after + tail);
    BlanksSkip(d.before, t + (d.after + tail));
    ValueSkips(p, d.before + (t + (d.after + tail)), t + (d.after + tail));
    assert PaddedText(p, d) + tail == d.before + (t + (d.after + tail));
    BlanksSkip(d.after, tail);
  }

  lemma AfterStops(after: string, tail: string)
    requires Blank(after) && (tail == [] || tail[0] in ",]}")
    ensures Stops(after + tail) && (tail != [] ==> !IsSpace(tail[0]))
  {
    if after != [] {
      BlankIsSpace(after[0]);
      SpaceStops(after[0]);
    } else if tail != [] {
      assert tail[0] == ',' || tail[0] == ']' || tail[0] == '}';
      SpaceStops(tail[0]);
    }
  }

  lemma SpaceStops(c: char)
    requires IsSpace(c) || c == ',' || c == ']' || c == '}'
    ensures c in " \t\n\r,]}"
  {
    var s := " \t\n\r,]}";
    assert s[0] == ' ' && s[1] == '\t' && s[2] == '\n' && s[3] == '\r' && s[4] == ',' && s[5] == ']' && s[6] == '}';
  }

  lemma {:induction false} RowReads(p: Platform, row: Row, before: seq<Json>, tail: string)
    requires RowFits(p, row)
    ensures Elements(p, RowText(p, row) + ([']'] + tail), before) == Done(Arr(before + RowValues(p, row)), tail)
    decreases row
  {
    hide PaddedFits, PaddedText, PaddedValue, ParseValue, SkipSpaces, Elements, RowText, RowValues;
    RowSplits(p, row);
    var d := row.item;
    var v := PaddedValue(p, d);
    if row.LastItem? {
      PaddedReads(p, d, [']'] + tail);
      ElementLast(p, PaddedText(p, d) + ([']'] + tail), before, v, tail);
    } else {
      var next := RowText(p, row.more) + ([']'] + tail);
      PaddedReads(p, d, [','] + next);
      assert RowText(p, row) + ([']'] + tail) == PaddedText(p, d) + ([','] + next);
      SomethingStays(RowText(p, row.more), [']'] + tail);
      ElementNext(p, PaddedText(p, d) + ([','] + next), before, v, next);
      RowReads(p, row.more, before + [v], tail);
      assert before + [v] + RowValues(p, row.more) == before + RowValues(p, row);
    }
  }

  lemma RowSplits(p: Platform, row: Row)
    requires RowFits(p, row)
    ensures PaddedFits(p, row.item) && (row.ItemThen? ==> RowFits(p, row.more))
    ensures RowText(p, row) == if row.LastItem? then PaddedText(p, row.item)
                               else PaddedText(p, row.item) + ([','] + RowText(p, row.more))
    ensures RowValues(p, row) == if row.LastItem? then [PaddedValue(p, row.item)]
                                 else [PaddedValue(p, row.item)] + RowValues(p, row.more)
  {
    hide PaddedFits, PaddedText, PaddedValue;
  }

  lemma ElementLast(p: Platform, s: string, before: seq<Json>, v: Json, tail: string)
    requires ValueAt(p, s, v, [']'] + tail)
    ensures Elements(p, s, before) == Done(Arr(before + [v]), tail)
  {
    hide ParseValue;
    JsonLaw.ElementsEnd(p, s, before, v, ParseValue(p, s).rest, tail);
  }

  lemma ElementNext(p: Platform, s: string, before: seq<Json>, v: Json, next: string)
    requires ValueAt(p, s, v, [','] + next)
    requires SkipSpaces(next) != []
    ensures Elements(p, s, before) == Elements(p, next, before + [v])
  {
    hide ParseValue, SkipSpaces;
    assert ([','] + next)[1..] == next;
    assert Elements(p, s, before) == Elements(p, SkipSpaces(next), before + [v]);
    SkipTwice(next);
    ElementsSkip(p, SkipSpaces(next), next, before + [v]);
  }

  /** A colon is found after spaces, and a value after it. */
  ghost predicate ColonAt(p: Platform, s: string, v: Json, tail: string) {
    var c := SkipSpaces(s);
    c != [] && c[0] == ':' && ValueAt(p, c[1..], v, tail)
  }

  /** One entry starts at s, and after it and its spaces comes tail. */
  ghost predicate EntryAt(p: Platform, s: string, e: (string, Json), tail: string) {
    && s != [] && s[0] == '"' && StringBody(p, s[1..]).Done? && StringBody(p, s[1..]).value == e.0
    && ColonAt(p, StringBody(p, s[1..]).rest, e.1, tail)
  }

  lemma {:induction false} FieldStarts(p: Platform, f: Field, tail: string)
    requires FieldFits(p, f)
    ensures SkipSpaces(FieldText(p, f) + tail) ==
            ['"'] + (PiecesText(p, f.key) + (['"'] + (f.gap + ([':'] + (PaddedText(p, f.value) + tail)))))
  {
    hide PaddedFits, PaddedText, PiecesFit, PiecesText, Blank;
    var u := ['"'] + (PiecesText(p, f.key) + (['"'] + (f.gap + ([':'] + (PaddedText(p, f.value) + tail)))));
    assert FieldText(p, f) + tail == f.before + u;
    BlanksSkip(f.before, u);
  }

  lemma {:induction false} FieldReads(p: Platform, f: Field, tail: string)
    requires FieldFits(p, f) && tail != [] && tail[0] in ",]}"
    ensures EntryAt(p, SkipSpaces(FieldText(p, f) + tail), FieldValue(p, f), tail)
    decreases f
  {
    hide PaddedFits, PaddedText, PaddedValue, PiecesFit, PiecesText, PiecesValue, Blank, StringBody, ParseValue;
    FieldStarts(p, f, tail);
    PaddedReads(p, f.value, tail);
    var rest := PaddedText(p, f.value) + tail;
    BodyReads(p, f.key, f.gap + ([':'] + rest));
    BlanksSkip(f.gap, [':'] + rest);
    var u := SkipSpaces(FieldText(p, f) + tail);
    assert u[1..] == PiecesText(p, f.key) + (['"'] + (f.gap + ([':'] + rest)));
    assert ([':'] + rest)[1..] == rest;
  }

  lemma EntryLast(p: Platform, s: string, before: seq<(string, Json)>, e: (string, Json), tail: string)
    requires EntryAt(p, s, e, ['}'] + tail)
    ensures Entries(p, s, before) == Done(MakeObj(before + [e]), tail)
  {
    hide StringBody, ParseValue, SkipSpaces, MakeObj;
    assert (['}'] + tail)[1..] == tail;
  }

  lemma EntryNext(p: Platform, s: string, before: seq<(string, Json)>, e: (string, Json), next: string)
    requires EntryAt(p, s, e, [','] + next) && SkipSpaces(next) != []
    ensures Entries(p, s, before) == Entries(p, SkipSpaces(next), before + [e])
  {
    hide StringBody, ParseValue, SkipSpaces, MakeObj;
    assert ([','] + next)[1..] == next;
  }

  lemma {:induction false} FieldsRead(p: Platform, fs: Fields, before: seq<(string, Json)>, tail: string)
    requires FieldsFit(p, fs)
    ensures var u := SkipSpaces(FieldsText(p, fs) + (['}'] + tail));
            u != [] && u[0] == '"' && Entries(p, u, before) == Done(MakeObj(before + FieldValues(p, fs)), tail)
    decreases fs
  {
    hide FieldFits, FieldText, FieldValue, ParseValue, SkipSpaces, Entries, EntryAt, MakeObj;
    var f := fs.field;
    var e := FieldValue(p, f);
    if fs.LastField? {
      FieldReads(p, f, ['}'] + tail);
      assert FieldsText(p, fs) + (['}'] + tail) == FieldText(p, f) + (['}'] + tail);
      EntryLast(p, SkipSpaces(FieldText(p, f) + (['}'] + tail)), before, e, tail);
      EntryStarts(p, SkipSpaces(FieldText(p, f) + (['}'] + tail)), e, ['}'] + tail);
      assert FieldValues(p, fs) == [e];
    } else {
      var next := FieldsText(p, fs.others) + (['}'] + tail);
      FieldReads(p, f, [','] + next);
      assert FieldsText(p, fs) + (['}'] + tail) == FieldText(p, f) + ([','] + next);
      FieldsRead(p, fs.others, before + [e], tail);
      EntryNext(p, SkipSpaces(FieldText(p, f) + ([','] + next)), before, e, next);
      EntryStarts(p, SkipSpaces(FieldText(p, f) + ([','] + next)), e, [','] + next);
      assert before + [e] + FieldValues(p, fs.others) == before + FieldValues(p, fs);
    }
  }

  lemma EntryStarts(p: Platform, s: string, e: (string, Json), tail: string)
    requires EntryAt(p, s, e, tail)
    ensures s != [] && s[0] == '"'
  {
  }

  // -------------------------------------------------- derivations are found

  lemma {:induction false} TreeFound(p: Platform, text: string) returns (b: string, t: Tree)
    requires ParseValue(p, text).Done?
    ensures Blank(b) && TreeFits(p, t) && text == b + (TreeText(p, t) + ParseValue(p, text).rest)
    ensures ParseValue(p, text).value == TreeValue(p, t)
    decreases |text|, 1
  {
    hide TreeFits, TreeText, TreeValue, SkipSpaces, ParseValue;
    var s := SkipSpaces(text);
    b := SkippedIsBlank(text);
    SkipTwice(text);
    ValueSkips(p, text, s);
    ValueIsSomething(p, text);
    if s[0] == '[' {
      t := ArrayFound(p, s);
    } else if s[0] == '{' {
      t := ObjectFound(p, s);
    } else {
      t := LeafFound(p, s);
    }
  }

  lemma ValueIsSomething(p: Platform, text: string)
    requires ParseValue(p, text).Done?
    ensures SkipSpaces(text) != []
  {
  }

  lemma {:induction false} LeafFound(p: Platform, s: string) returns (t: Tree)
    requires ParseValue(p, s).Done? && s != [] && SkipSpaces(s) == s && s[0] != '[' && s[0] != '{'
    ensures TreeFits(p, t) && s == TreeText(p, t) + ParseValue(p, s).rest && ParseValue(p, s).value == TreeValue(p, t)
  {
    hide StringBody, PiecesFit, PiecesText, PiecesValue, Number, SkipSpaces, IsWhole, WholeFits, WholeText;
    if s[0] == '"' {
      var xs := BodyFound(p, s[1..]);
      t := Quote(xs);
    } else if s[0] == 't' {
      t := Word("true");
    } else if s[0] == 'f' {
      t := Word("false");
    } else if s[0] == 'n' {
      t := Word("null");
    } else {
      t := NumberFound(p, s);
    }
  }

  lemma {:induction false} ArrayFound(p: Platform, s: string) returns (t: Tree)
    requires ParseValue(p, s).Done? && s != [] && SkipSpaces(s) == s && s[0] == '['
    ensures TreeFits(p, t) && s == TreeText(p, t) + ParseValue(p, s).rest && ParseValue(p, s).value == TreeValue(p, t)
    decreases |s|, 0
  {
    hide SkipSpaces, Elements, RowFits, RowText, RowValues, Blank;
    BracketIsArray(p, s);
    hide ParseValue;
    var u := SkipSpaces(s[1..]);
    if u[0] == ']' {
      var space := SkippedIsBlank(s[1..]);
      t := NoItems(space);
      assert s == ['['] + s[1..] && u == [']'] + u[1..];
    } else {
      SkipTwice(s[1..]);
      ElementsSkip(p, u, s[1..], []);
      var row := RowFound(p, s[1..], []);
      t := List(row);
      assert s == ['['] + s[1..];
      assert [] + RowValues(p, row) == RowValues(p, row);
    }
  }

  lemma BracketIsArray(p: Platform, s: string)
    requires s != [] && SkipSpaces(s) == s && s[0] == '['
    ensures ParseValue(p, s) == ParseArray(p, s[1..])
  {
    hide ParseArray, SkipSpaces;
  }

  lemma BraceIsObject(p: Platform, s: string)
    requires s != [] && SkipSpaces(s) == s && s[0] == '{'
    ensures ParseValue(p, s) == ParseObject(p, s[1..])
  {
    hide ParseObject, SkipSpaces;
  }

  lemma {:induction false} RowFound(p: Platform, s: string, before: seq<Json>) returns (row: Row)
    requires Elements(p, s, before).Done?
    ensures RowFits(p, row) && s == RowText(p, row) + ([']'] + Elements(p, s, before).rest)
    ensures Elements(p, s, before).value == Arr(before + RowValues(p, row))
    decreases |s|, 3
  {
    hide SkipSpaces, ParseValue, PaddedFits, PaddedText, PaddedValue, Elements;
    ElementRead(p, s, before);
    var d, t := PaddedFound(p, s);
    var items := before + [PaddedValue(p, d)];
    if t[0] == ',' {
      var next := t[1..];
      SkipTwice(next);
      ElementsSkip(p, SkipSpaces(next), next, items);
      var more := RowFound(p, next, items);
      row := ItemThen(d, more);
      assert t == [','] + next;
      assert items + RowValues(p, more) == before + RowValues(p, row);
    } else {
      row := LastItem(d);
      assert t == [']'] + t[1..];
      assert RowValues(p, row) == [PaddedValue(p, d)];
    }
  }

  /** What follows an element is a comma and more, or the end. */
  lemma ElementRead(p: Platform, s: string, before: seq<Json>)
    requires Elements(p, s, before).Done?
    ensures ParseValue(p, s).Done?
    ensures var t, items := SkipSpaces(ParseValue(p, s).rest), before + [ParseValue(p, s).value];
            t != [] &&
                if t[0] == ',' then Elements(p, s, before) == Elements(p, SkipSpaces(t[1..]), items)
                else t[0] == ']' && Elements(p, s, before) == Done(Arr(items), t[1..])
  {
    hide SkipSpaces, ParseValue;
  }

  lemma {:induction false} PaddedFound(p: Platform, s: string) returns (d: Padded, t: string)
    requires ParseValue(p, s).Done?
    ensures PaddedFits(p, d) && s == PaddedText(p, d) + t && t == SkipSpaces(ParseValue(p, s).rest) && |t| < |s|
    ensures PaddedValue(p, d) == ParseValue(p, s).value
    decreases |s|, 2
  {
    hide SkipSpaces, ParseValue, TreeFits, TreeText, TreeValue, Blank;
    var b, tree := TreeFound(p, s);
    var after := SkippedIsBlank(ParseValue(p, s).rest);
    d, t := Padded(b, tree, after), SkipSpaces(ParseValue(p, s).rest);
    assert b + (TreeText(p, tree) + (after + t)) == b + TreeText(p, tree) + after + t;
  }

  lemma {:induction false} ObjectFound(p: Platform, s: string) returns (t: Tree)
    requires ParseValue(p, s).Done? && s != [] && SkipSpaces(s) == s && s[0] == '{'
    ensures TreeFits(p, t) && s == TreeText(p, t) + ParseValue(p, s).rest && ParseValue(p, s).value == TreeValue(p, t)
    decreases |s|, 0
  {
    hide SkipSpaces, Entries, FieldsFit, FieldsText, FieldValues, Blank, MakeObj, Collected;
    BraceIsObject(p, s);
    hide ParseValue;
    var u := SkipSpaces(s[1..]);
    var space := SkippedIsBlank(s[1..]);
    if u[0] == '}' {
      t := NoFields(space);
      assert s == ['{'] + s[1..] && u == ['}'] + u[1..];
    } else {
      var fields := FieldsFound(p, space, u, []);
      t := Record(fields);
      assert s == ['{'] + s[1..];
      assert [] + FieldValues(p, fields) == FieldValues(p, fields);
      MakesCollected(FieldValues(p, fields));
    }
  }

  lemma {:induction false} FieldsFound(p: Platform, before: string, s: string, done: seq<(string, Json)>)
      returns (fs: Fields)
    requires Entries(p, s, done).Done? && Blank(before)
    ensures FieldsFit(p, fs) && before + s == FieldsText(p, fs) + (['}'] + Entries(p, s, done).rest)
    ensures Entries(p, s, done).value == MakeObj(done + FieldValues(p, fs))
    decreases |s|, 4
  {
    hide SkipSpaces, ParseValue, StringBody, FieldFits, FieldText, FieldValue, Blank, MakeObj;
    var f, t := FieldFound(p, before, s, done);
    var es := done + [FieldValue(p, f)];
    if t[0] == ',' {
      var next := t[1..];
      var space := SkippedIsBlank(next);
      var others := FieldsFound(p, space, SkipSpaces(next), es);
      fs := FieldThen(f, others);
      assert t == [','] + next;
      assert es + FieldValues(p, others) == done + FieldValues(p, fs);
    } else {
      fs := LastField(f);
      assert t == ['}'] + t[1..];
      assert FieldValues(p, fs) == [FieldValue(p, f)];
    }
  }

  lemma {:induction false} FieldFound(p: Platform, before: string, s: string, done: seq<(string, Json)>)
      returns (f: Field, t: string)
    requires Entries(p, s, done).Done? && Blank(before)
    ensures FieldFits(p, f) && before + s == FieldText(p, f) + t && t != [] && |t| < |s|
    ensures EntryAt(p, s, FieldValue(p, f), t)
    decreases |s|, 3
  {
    hide SkipSpaces, ParseValue, StringBody, PaddedFits, PaddedText, PaddedValue, PiecesFit, PiecesText, PiecesValue,
         Blank, MakeObj;
    var key := StringBody(p, s[1..]);
    var xs := BodyFound(p, s[1..]);
    var gap := SkippedIsBlank(key.rest);
    var c := SkipSpaces(key.rest);
    var d;
    d, t := PaddedFound(p, c[1..]);
    f := Field(before, xs, gap, d);
    assert s == ['"'] + s[1..] && c == [':'] + c[1..];
    assert before + s == FieldText(p, f) + t by {
      var x, y := PiecesText(p, xs), PaddedText(p, d);
      assert before + (['"'] + (x + (['"'] + (gap + ([':'] + (y + t)))))) ==
             before + (['"'] + x + ['"']) + gap + [':'] + y + t;
    }
  }

  // ------------------------------------------------------------- whole texts

  /** What the parser makes of a text is exactly what the grammar says: it finds a value if and only if some derivation
      has this text and this value. */
  lemma {:induction false} ParsesExactly(p: Platform, text: string, v: Json)
    ensures Parse(p, text) == Some(v) <==> exists d :: Derives(p, d, text, v)
  {
    hide Derives, Parse;
    if Parse(p, text) == Some(v) {
      var d := Derived(p, text, v);
    }
    if d :| Derives(p, d, text, v) {
      DerivedReads(p, d, text, v);
    }
  }

  lemma {:induction false} Derived(p: Platform, text: string, v: Json) returns (d: Padded)
    requires Parse(p, text) == Some(v)
    ensures Derives(p, d, text, v)
  {
    hide SkipSpaces, ParseValue, PaddedFits, PaddedText, PaddedValue;
    var t;
    d, t := PaddedFound(p, text);
  }

  lemma {:induction false} DerivedReads(p: Platform, d: Padded, text: string, v: Json)
    requires Derives(p, d, text, v)
    ensures Parse(p, text) == Some(v)
  {
    hide TreeFits, TreeText, TreeValue, ParseValue, Blank;
    var t := TreeText(p, d.tree);
    assert d.after + [] == d.after;
    AfterStops(d.after, []);
    TreeReads(p, d.tree, d.after);
    BlanksSkip(d.before, t + d.after);
    ValueSkips(p, d.before + (t + d.after), t + d.after);
    assert text == d.before + (t + d.after);
    BlanksSkip(d.after, []);
  }

  /** A text has one value, however it is derived; without a derivation it is rejected. */
  lemma {:induction false} OneMeaning(p: Platform, d: Padded, e: Padded)
    requires PaddedFits(p, d) && PaddedFits(p, e) && PaddedText(p, d) == PaddedText(p, e)
    ensures PaddedValue(p, d) == PaddedValue(p, e)
  {
    hide PaddedFits, PaddedText, PaddedValue, Parse;
    DerivedReads(p, d, PaddedText(p, d), PaddedValue(p, d));
    DerivedReads(p, e, PaddedText(p, e), PaddedValue(p, e));
  }

  lemma {:induction false} RejectsTheRest(p: Platform, text: string)
    requires forall d :: PaddedFits(p, d) ==> PaddedText(p, d) != text
    ensures Parse(p, text) == None
  {
    hide PaddedFits, PaddedText, PaddedValue, Parse;
    if Parse(p, text).Some? {
      var d := Derived(p, text, Parse(p, text).value);
      assert false;
    }
  }
}
