// Base64 as in section 4 of RFC 4648. A char of the plain data stands for a byte.
module Base64 {

  predicate IsBytes(s: string) { forall i :: 0 <= i < |s| ==> s[i] < 256 as char }

  /** kEncodeTable: A to Z, a to z, 0 to 9, + and /. */
  function EncodeDigit(n: int): char
    requires 0 <= n < 64
  {
    if n < 26 then (n + 65) as char
    else if n < 52 then (n + 71) as char
    else if n < 62 then (n - 4) as char
    else if n == 62 then '+'
    else '/'
  }

  /** kDecodeTable, which has no entry after 'z'; '=' counts as zero. */
  function DecodeDigit(c: char): (n: int)
    ensures 0 <= n < 64
  {
    if 'A' <= c <= 'Z' then c as int - 65
    else if 'a' <= c <= 'z' then c as int - 71
    else if '0' <= c <= '9' then c as int + 4
    else if c == '+' then 62
    else if c == '/' then 63
    else 0
  }

  /** Table 1 of RFC 4648. */
  const ALPHABET: string := "ABCDEFGHIJKLMNOPQRSTUVWXYZ" + "abcdefghijklmnopqrstuvwxyz" + "0123456789+/"

  lemma FirstCapitals(n: int)
    requires 0 <= n < 13
    ensures ALPHABET[n] == (n + 65) as char
  {
    assert n == 0 || n == 1 || n == 2 || n == 3 || n == 4 || n == 5 || n == 6 || n == 7 || n == 8 || n == 9 ||
           n == 10 || n == 11 || n == 12;
  }

  lemma LastCapitals(n: int)
    requires 13 <= n < 26
    ensures ALPHABET[n] == (n + 65) as char
  {
    assert n == 13 || n == 14 || n == 15 || n == 16 || n == 17 || n == 18 || n == 19 || n == 20 || n == 21 ||
           n == 22 || n == 23 || n == 24 || n == 25;
  }

  lemma FirstLetters(n: int)
    requires 26 <= n < 39
    ensures ALPHABET[n] == (n + 71) as char
  {
    assert n == 26 || n == 27 || n == 28 || n == 29 || n == 30 || n == 31 || n == 32 || n == 33 || n == 34 ||
           n == 35 || n == 36 || n == 37 || n == 38;
  }

  lemma LastLetters(n: int)
    requires 39 <= n < 52
    ensures ALPHABET[n] == (n + 71) as char
  {
    assert n == 39 || n == 40 || n == 41 || n == 42 || n == 43 || n == 44 || n == 45 || n == 46 || n == 47 ||
           n == 48 || n == 49 || n == 50 || n == 51;
  }

  lemma Decimals(n: int)
    requires 52 <= n < 62
    ensures ALPHABET[n] == (n - 4) as char
  {
    assert n == 52 || n == 53 || n == 54 || n == 55 || n == 56 || n == 57 || n == 58 || n == 59 || n == 60 || n == 61;
  }

  /** Both tables are the alphabet of the standard. */
  lemma {:induction false} DigitIsInAlphabet(n: int)
    requires 0 <= n < 64
    ensures EncodeDigit(n) == ALPHABET[n] && DecodeDigit(ALPHABET[n]) == n
  {
    if n < 13 {
      FirstCapitals(n);
    } else if n < 26 {
      LastCapitals(n);
    } else if n < 39 {
      FirstLetters(n);
    } else if n < 52 {
      LastLetters(n);
    } else if n < 62 {
      Decimals(n);
    }
  }

  /** Any other character counts as zero. */
  lemma {:induction false} OthersAreZero(c: char)
    requires c !in ALPHABET
    ensures DecodeDigit(c) == 0
  {
    if DecodeDigit(c) != 0 {
      DigitIsInAlphabet(DecodeDigit(c));
      EncodesBack(c);
    }
  }

  lemma EncodesBack(c: char)
    requires DecodeDigit(c) != 0
    ensures EncodeDigit(DecodeDigit(c)) == c
  {
  }

  lemma {:induction false} DigitDecodes(n: int)
    requires 0 <= n < 64
    ensures DecodeDigit(EncodeDigit(n)) == n && EncodeDigit(n) != '='
  {
  }

  /** Three bytes as four digits of six bits. */
  function Encode3(a: int, b: int, c: int): (e: string)
    requires 0 <= a < 256 && 0 <= b < 256 && 0 <= c < 256
    ensures |e| == 4
  {
    [EncodeDigit(a / 4), EncodeDigit(a % 4 * 16 + b / 16), EncodeDigit(b % 16 * 4 + c / 64), EncodeDigit(c % 64)]
  }

  /** The whole encoding: groups of three, the last one padded with '='. */
  function Encode(s: string): string
    requires IsBytes(s)
  {
    if s == [] then []
    else if |s| == 1 then Encode3(s[0] as int, 0, 0)[..2] + "=="
    else if |s| == 2 then Encode3(s[0] as int, s[1] as int, 0)[..3] + "="
    else Encode3(s[0] as int, s[1] as int, s[2] as int) + Encode(s[3..])
  }

  method Base64Encode(bytes: string) returns (encoded: string)
    requires IsBytes(bytes)
    ensures encoded == Encode(bytes)
  {
    hide Encode, Encode3;
    encoded := [];
    assert bytes[0..] == bytes;
    var i := 0;
    while i < |bytes| / 3 * 3
      invariant i % 3 == 0 && i <= |bytes| / 3 * 3
      invariant encoded + Encode(bytes[i..]) == Encode(bytes)
    {
      EncodeStep(bytes, i);
      encoded := encoded + Encode3(bytes[i] as int, bytes[i + 1] as int, bytes[i + 2] as int);
      i := i + 3;
    }
    EncodeEnd(bytes, i);
    if |bytes| % 3 == 1 {
      encoded := encoded + (Encode3(bytes[|bytes| - 1] as int, 0, 0)[..2] + "==");
    } else if |bytes| % 3 == 2 {
      encoded := encoded + (Encode3(bytes[|bytes| - 2] as int, bytes[|bytes| - 1] as int, 0)[..3] + "=");
    }
  }

  lemma EncodeStep(bytes: string, i: nat)
    requires IsBytes(bytes) && i + 3 <= |bytes|
    ensures Encode(bytes[i..]) ==
            Encode3(bytes[i] as int, bytes[i + 1] as int, bytes[i + 2] as int) + Encode(bytes[i + 3..])
  {
    assert bytes[i..][3..] == bytes[i + 3..];
  }

  lemma EncodeEnd(bytes: string, i: nat)
    requires IsBytes(bytes) && i <= |bytes| < i + 3
    ensures Encode(bytes[i..]) ==
            if |bytes| - i == 1 then Encode3(bytes[i] as int, 0, 0)[..2] + "=="
            else if |bytes| - i == 2 then Encode3(bytes[i] as int, bytes[i + 1] as int, 0)[..3] + "="
            else []
  {
  }

  /** Four digits as a number of 24 bits. */
  function Word(a: char, b: char, c: char, d: char): (v: int)
    ensures 0 <= v < 0x100_0000
  {
    ((DecodeDigit(a) * 64 + DecodeDigit(b)) * 64 + DecodeDigit(c)) * 64 + DecodeDigit(d)
  }

  /** Four digits as one to three bytes, fewer where the third or fourth is '='. */
  function Decode4(a: char, b: char, c: char, d: char): (r: string)
    ensures IsBytes(r)
  {
    var v := Word(a, b, c, d);
    [(v / 65536) as char] + (if c != '=' then [(v / 256 % 256) as char] else []) + (if d != '='
        then [(v % 256) as char] else [])
  }

  function Decode(s: string): (r: string)
    requires |s| % 4 == 0
    ensures IsBytes(r)
  {
    if s == [] then [] else Decode4(s[0], s[1], s[2], s[3]) + Decode(s[4..])
  }

  lemma DecodeStep(s: string, i: nat)
    requires |s| % 4 == i % 4 == 0 && i + 4 <= |s|
    ensures Decode(s[i..]) == Decode4(s[i], s[i + 1], s[i + 2], s[i + 3]) + Decode(s[i + 4..])
  {
    assert s[i..][4..] == s[i + 4..];
  }

  lemma DecodeEnd()
    ensures Decode([]) == []
  {
  }

  /** Fails on a length that is no multiple of four; a byte after 'z' would be read past the table. */
  method Base64Decode(bytes: string) returns (ok: bool, decoded: string)
    requires forall i :: 0 <= i < |bytes| ==> bytes[i] <= 'z'
    ensures ok == (|bytes| % 4 == 0)
    ensures ok ==> decoded == Decode(bytes)
  {
    hide Decode, Decode4;
    decoded := [];
    if |bytes| % 4 != 0 { return false, []; }
    assert bytes[0..] == bytes;
    var i := 0;
    while i < |bytes|
      invariant i % 4 == 0 && i <= |bytes|
      invariant decoded + Decode(bytes[i..]) == Decode(bytes)
    {
      DecodeStep(bytes, i);
      decoded := decoded + Decode4(bytes[i], bytes[i + 1], bytes[i + 2], bytes[i + 3]);
      i := i + 4;
    }
    assert bytes[i..] == [];
    DecodeEnd();
    return true, decoded;
  }

  /** Three bytes cut into six-bit digits and put together again. */
  lemma {:induction false} BitsAgain(a: int, b: int, c: int)
    requires 0 <= a < 256 && 0 <= b < 256 && 0 <= c < 256
    ensures ((a / 4 * 64 + (a % 4 * 16 + b / 16)) * 64 + (b % 16 * 4 + c / 64)) * 64 + c % 64 == a * 65536 + b * 256 + c
  {
    assert a / 4 * 4 + a % 4 == a;
    assert b / 16 * 16 + b % 16 == b;
    assert c / 64 * 64 + c % 64 == c;
  }

  /** Three bytes are one number of 24 bits, whose four digits in base 64 are letters of the alphabet. */
  lemma {:induction false} GroupIsNumber(a: int, b: int, c: int)
    requires 0 <= a < 256 && 0 <= b < 256 && 0 <= c < 256
    ensures Encode3(a, b, c) == Base64Digits(a * 65536 + b * 256 + c)
  {
    hide Base64Digits, EncodeDigit;
    BitsAgain(a, b, c);
    DigitsOf(a / 4, a % 4 * 16 + b / 16, b % 16 * 4 + c / 64, c % 64);
  }

  /** The digits of a number of 24 bits in base 64, the highest first. */
  function Base64Digits(v: int): string
    requires 0 <= v < 0x100_0000
  {
    [ALPHABET[v / 262144], ALPHABET[v / 4096 % 64], ALPHABET[v / 64 % 64], ALPHABET[v % 64]]
  }

  lemma {:induction false} DigitsOf(p: int, q: int, r: int, s: int)
    requires 0 <= p < 64 && 0 <= q < 64 && 0 <= r < 64 && 0 <= s < 64
    ensures [EncodeDigit(p), EncodeDigit(q), EncodeDigit(r), EncodeDigit(s)] ==
            Base64Digits(((p * 64 + q) * 64 + r) * 64 + s)
  {
    hide EncodeDigit, DecodeDigit;
    FourDigits(p, q, r, s);
    FourLetters(p, q, r, s);
  }

  lemma FourLetters(p: int, q: int, r: int, s: int)
    requires 0 <= p < 64 && 0 <= q < 64 && 0 <= r < 64 && 0 <= s < 64
    ensures [EncodeDigit(p), EncodeDigit(q), EncodeDigit(r), EncodeDigit(s)] ==
            [ALPHABET[p], ALPHABET[q], ALPHABET[r], ALPHABET[s]]
  {
    hide EncodeDigit, DecodeDigit;
    DigitIsInAlphabet(p);
    DigitIsInAlphabet(q);
    DigitIsInAlphabet(r);
    DigitIsInAlphabet(s);
  }

  lemma FourDigits(p: int, q: int, r: int, s: int)
    requires 0 <= p < 64 && 0 <= q < 64 && 0 <= r < 64 && 0 <= s < 64
    ensures var v := ((p * 64 + q) * 64 + r) * 64 + s;
            v / 262144 == p && v / 4096 % 64 == q && v / 64 % 64 == r && v % 64 == s
  {
    var v := ((p * 64 + q) * 64 + r) * 64 + s;
    assert v / 64 == (p * 64 + q) * 64 + r;
    assert v / 4096 == p * 64 + q;
  }

  lemma {:induction false} BytesAgain(a: int, b: int, c: int)
    requires 0 <= a < 256 && 0 <= b < 256 && 0 <= c < 256
    ensures var v := a * 65536 + b * 256 + c; v / 65536 == a && v / 256 % 256 == b && v % 256 == c
  {
    var v := a * 65536 + b * 256 + c;
    assert v / 256 == a * 256 + b;
  }

  lemma {:induction false} WordAgain(a: int, b: int, c: int)
    requires 0 <= a < 256 && 0 <= b < 256 && 0 <= c < 256
    ensures var e, v := Encode3(a, b, c), a * 65536 + b * 256 + c;
            && Word(e[0], e[1], e[2], e[3]) == v && e[2] != '=' && e[3] != '='
            && (c == 0 ==> Word(e[0], e[1], e[2], '=') == v) && (b == c == 0 ==> Word(e[0], e[1], '=', '=') == v)
  {
    hide EncodeDigit, DecodeDigit;
    DigitDecodes(a / 4);
    DigitDecodes(a % 4 * 16 + b / 16);
    DigitDecodes(b % 16 * 4 + c / 64);
    DigitDecodes(c % 64);
    BitsAgain(a, b, c);
    PadIsZero();
  }

  lemma {:induction false} GroupDecodes(a: int, b: int, c: int)
    requires 0 <= a < 256 && 0 <= b < 256 && 0 <= c < 256
    ensures var e := Encode3(a, b, c);
            && Decode4(e[0], e[1], e[2], e[3]) == [a as char, b as char, c as char]
            && (c == 0 ==> Decode4(e[0], e[1], e[2], '=') == [a as char, b as char])
            && (b == c == 0 ==> Decode4(e[0], e[1], '=', '=') == [a as char])
  {
    hide Word, Encode3;
    WordAgain(a, b, c);
    BytesAgain(a, b, c);
  }

  /** Any four letters are the digits of a number of 24 bits, read as its three bytes; '=' stands for a digit zero and
      leaves its byte out. */
  lemma {:induction false} GroupReads(p: int, q: int, r: int, s: int)
    requires 0 <= p < 64 && 0 <= q < 64 && 0 <= r < 64 && 0 <= s < 64
    ensures var a, b, c, d := ALPHABET[p], ALPHABET[q], ALPHABET[r], ALPHABET[s];
            && Decode4(a, b, c, d) == ThreeBytes(((p * 64 + q) * 64 + r) * 64 + s)
            && Decode4(a, b, c, '=') == ThreeBytes(((p * 64 + q) * 64 + r) * 64)[..2]
            && Decode4(a, b, '=', '=') == ThreeBytes((p * 64 + q) * 4096)[..1]
  {
    hide DecodeDigit, EncodeDigit, Word, ThreeBytes, Decode4;
    var a, b, c, d := ALPHABET[p], ALPHABET[q], ALPHABET[r], ALPHABET[s];
    LetterRead(p);
    LetterRead(q);
    LetterRead(r);
    LetterRead(s);
    PadIsZero();
    WordsBytes(a, b, c, d);
    WordsBytes(a, b, c, '=');
    WordsBytes(a, b, '=', '=');
    WordIs(a, b, c, d);
    WordIs(a, b, c, '=');
    WordIs(a, b, '=', '=');
  }

  lemma LetterRead(n: int)
    requires 0 <= n < 64
    ensures DecodeDigit(ALPHABET[n]) == n && ALPHABET[n] != '='
  {
    hide DecodeDigit, EncodeDigit;
    DigitIsInAlphabet(n);
    DigitDecodes(n);
  }

  lemma WordIs(a: char, b: char, c: char, d: char)
    ensures Word(a, b, c, d) ==
            ((DecodeDigit(a) * 64 + DecodeDigit(b)) * 64 + DecodeDigit(c)) * 64 + DecodeDigit(d)
  {
    hide DecodeDigit;
  }

  lemma WordsBytes(a: char, b: char, c: char, d: char)
    ensures var t := ThreeBytes(Word(a, b, c, d));
            Decode4(a, b, c, d) ==
                if c != '=' && d != '=' then t
                else if c != '=' then t[..2]
                else if d == '=' then t[..1]
                else [t[0], t[2]]
  {
    hide Word;
  }

  /** The bytes of a number of 24 bits, the highest first. */
  function ThreeBytes(v: int): (r: string)
    requires 0 <= v < 0x100_0000
  {
    [(v / 65536) as char, (v / 256 % 256) as char, (v % 256) as char]
  }

  lemma PadIsZero()
    ensures DecodeDigit('=') == 0
  {
  }

  /** Decoding an encoding gives the bytes back; its digits are all inside the decode table. */
  lemma {:induction false} RoundTrip(s: string)
    requires IsBytes(s)
    ensures |Encode(s)| % 4 == 0 && (forall i :: 0 <= i < |Encode(s)| ==> Encode(s)[i] <= 'z')
    ensures Decode(Encode(s)) == s
    decreases |s|
  {
    hide Decode, Decode4, EncodeDigit, Encode3;
    if |s| > 2 {
      RoundTrip(s[3..]);
      assert s == [s[0], s[1], s[2]] + s[3..];
      GroupDecodes(s[0] as int, s[1] as int, s[2] as int);
      GroupInTable(s[0] as int, s[1] as int, s[2] as int);
      DecodeGroup(Encode3(s[0] as int, s[1] as int, s[2] as int), Encode(s[3..]));
    } else {
      ShortRoundTrip(s);
    }
  }

  lemma {:induction false} ShortRoundTrip(s: string)
    requires IsBytes(s) && |s| <= 2
    ensures |Encode(s)| % 4 == 0 && (forall i :: 0 <= i < |Encode(s)| ==> Encode(s)[i] <= 'z')
    ensures Decode(Encode(s)) == s
  {
    hide Decode, Decode4, EncodeDigit, Encode3;
    DecodeEnd();
    if |s| == 1 {
      GroupDecodes(s[0] as int, 0, 0);
      GroupInTable(s[0] as int, 0, 0);
      DecodeGroup(Encode3(s[0] as int, 0, 0)[..2] + "==", []);
      assert Encode(s) + [] == Encode(s);
    } else if |s| == 2 {
      GroupDecodes(s[0] as int, s[1] as int, 0);
      GroupInTable(s[0] as int, s[1] as int, 0);
      DecodeGroup(Encode3(s[0] as int, s[1] as int, 0)[..3] + "=", []);
      assert Encode(s) + [] == Encode(s);
    }
  }

  lemma GroupInTable(a: int, b: int, c: int)
    requires 0 <= a < 256 && 0 <= b < 256 && 0 <= c < 256
    ensures forall i :: 0 <= i < 4 ==> Encode3(a, b, c)[i] <= 'z'
  {
    hide EncodeDigit;
    DigitsInTable();
  }

  lemma DecodeGroup(e: string, rest: string)
    requires |e| == 4 && |rest| % 4 == 0
    ensures Decode(e + rest) == Decode4(e[0], e[1], e[2], e[3]) + Decode(rest)
  {
    hide Decode4;
    assert (e + rest)[4..] == rest;
  }

  lemma DigitsInTable()
    ensures forall n :: 0 <= n < 64 ==> EncodeDigit(n) <= 'z'
  {
  }
}
