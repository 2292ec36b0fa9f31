// The 16-byte value cell, its string-aware equality and hash, and the two
// byte hashes that must agree on a string stored inline and on the heap.
module AnyCells {
  import opened AssocList

  const STR: int := 65
  const BYTES: int := 66
  const SMALL_STR: int := 11
  const SMALL_BYTES: int := 12
  const STATIC_OBJECT_BEGIN: int := 64
  const MAX_SMALL: nat := 7
  const MULTIPLIER: int := 1099511628211
  const MODULUS: int := 2147483647
  const HALF_WORD: int := 0x1_0000_0000

  type byte = b: int | 0 <= b < 256

  function Pow256(n: nat): (p: nat)
    ensures p > 0
  {
    if n == 0 then 1 else 256 * Pow256(n - 1)
  }

  /** The number a little-endian machine reads from these bytes. */
  function LittleEndian(s: seq<byte>): nat {
    if s == [] then 0 else s[0] + 256 * LittleEndian(s[1..])
  }

  /** The first n bytes of a word in memory. */
  function BytesOf(word: nat, n: nat): (s: seq<byte>)
    ensures |s| == n
  {
    if n == 0 then [] else [word % 256] + BytesOf(word / 256, n - 1)
  }

  lemma {:induction false} WordBound(s: seq<byte>)
    ensures LittleEndian(s) < Pow256(|s|)
  {
    if s != [] {
      WordBound(s[1..]);
    }
  }

  lemma {:induction false} BytesFillWord(s: seq<byte>)
    ensures LittleEndian(s) < Pow256(|s|)
    ensures BytesOf(LittleEndian(s), |s|) == s
  {
    hide Pow256;
    WordBound(s);
    if s != [] {
      BytesFillWord(s[1..]);
      LowestByte(s[0], LittleEndian(s[1..]));
      assert s == [s[0]] + s[1..];
    }
  }

  lemma LowestByte(b: byte, rest: nat)
    ensures (b + 256 * rest) % 256 == b && (b + 256 * rest) / 256 == rest
  {
  }

  lemma {:induction false} WordFitsBytes(word: nat, n: nat)
    requires word < Pow256(n)
    ensures LittleEndian(BytesOf(word, n)) == word
  {
    if n > 0 {
      assert word / 256 < Pow256(n - 1);
      WordFitsBytes(word / 256, n - 1);
      assert BytesOf(word, n)[1..] == BytesOf(word / 256, n - 1);
    }
  }

  function Zeros(n: nat): (s: seq<byte>)
    ensures |s| == n
  {
    seq(n, _ => 0)
  }

  /** Zero padding does not change the number. */
  lemma {:induction false} ZeroPadded(s: seq<byte>, n: nat)
    ensures LittleEndian(s + Zeros(n)) == LittleEndian(s)
  {
    if s != [] {
      ZeroPadded(s[1..], n);
      assert (s + Zeros(n))[1..] == s[1..] + Zeros(n);
    } else if n > 0 {
      ZeroPadded(s, n - 1);
      assert (s + Zeros(n))[1..] == s + Zeros(n - 1);
    }
  }

  // ------------------------------------------------------------- byte hashes

  /** One 64-bit multiply-add, reduced. */
  function Mix(result: int, word: int): int {
    (result * MULTIPLIER + word) % WORD % MODULUS
  }

  /** What StableHashBytes computes: eight bytes at a time, the rest as one zero-padded word. */
  function HashFrom(result: int, data: seq<byte>): int
    decreases |data|
  {
    if data == [] then result
    else if |data| < 8 then Mix(result, LittleEndian(data))
    else HashFrom(Mix(result, LittleEndian(data[..8])), data[8..])
  }

  /** Up to eight bytes are one word; a longer string goes on from the hash of the whole words before. */
  lemma {:induction false} HashContinues(result: int, front: seq<byte>, back: seq<byte>)
    requires |front| % 8 == 0
    ensures HashFrom(result, front + back) == HashFrom(HashFrom(result, front), back)
    ensures 0 < |back| <= 8 ==> HashFrom(result, back) == Mix(result, LittleEndian(back))
    decreases |front|
  {
    hide LittleEndian, Mix;
    var s := front + back;
    if |back| == 8 { assert back[..8] == back && back[8..] == []; }
    if front == [] {
      assert s == back;
    } else {
      assert s[..8] == front[..8] && s[8..] == front[8..] + back;
      HashContinues(Mix(result, LittleEndian(front[..8])), front[8..], back);
    }
  }

  method StableHashBytes(data: seq<byte>) returns (result: int)
    ensures result == HashFrom(0, data)
  {
    result := 0;
    var it := 0;
    while it + 8 <= |data|
      invariant 0 <= it <= |data|
      invariant HashFrom(result, data[it..]) == HashFrom(0, data)
    {
      assert data[it..][..8] == data[it..it + 8] && data[it..][8..] == data[it + 8..];
      result := Mix(result, LittleEndian(data[it..it + 8]));
      it := it + 8;
    }
    if it < |data| {
      var word := TailWord(data, it);
      result := Mix(result, word);
    }
  }

  /** The last one to seven bytes, copied four, two and one at a time into a cleared word. */
  method TailWord(data: seq<byte>, start: nat) returns (word: nat)
    requires start < |data| < start + 8
    ensures word == LittleEndian(data[start..])
  {
    hide LittleEndian, Zeros;
    var u := new byte[8](_ => 0);
    var it, a := start, 0;
    NothingCopied(u[..], data, start);
    ghost var w := u[..];
    if it + 4 <= |data| {
      u[a], u[a + 1], u[a + 2], u[a + 3] := data[it], data[it + 1], data[it + 2], data[it + 3];
      BytesCopied(w, u[..], data, start, it, 4);
      it, a := it + 4, a + 4;
    }
    w := u[..];
    if it + 2 <= |data| {
      u[a], u[a + 1] := data[it], data[it + 1];
      BytesCopied(w, u[..], data, start, it, 2);
      it, a := it + 2, a + 2;
    }
    w := u[..];
    if it + 1 <= |data| {
      u[a] := data[it];
      BytesCopied(w, u[..], data, start, it, 1);
    }
    word := LittleEndian(u[..]);
    AllCopied(u[..], data, start);
  }

  /** The bytes of data from start to it stand at the front of the cleared word w. */
  ghost predicate Buffered(w: seq<byte>, data: seq<byte>, start: nat, it: nat) {
    && |w| == 8 && start <= it <= |data| && it <= start + 8
    && forall k :: 0 <= k < 8 ==> w[k] == if k < it - start then data[start + k] else 0
  }

  lemma NothingCopied(w: seq<byte>, data: seq<byte>, start: nat)
    requires |w| == 8 && start <= |data| && forall k :: 0 <= k < 8 ==> w[k] == 0
    ensures Buffered(w, data, start, start)
  {
  }

  lemma BytesCopied(w: seq<byte>, w': seq<byte>, data: seq<byte>, start: nat, it: nat, n: nat)
    requires Buffered(w, data, start, it) && |w'| == 8 && it + n <= |data| && it + n <= start + 8
    requires forall k :: 0 <= k < 8 ==> w'[k] == if it <= start + k < it + n then data[start + k] else w[k]
    ensures Buffered(w', data, start, it + n)
  {
  }

  lemma AllCopied(w: seq<byte>, data: seq<byte>, start: nat)
    requires Buffered(w, data, start, |data|)
    ensures LittleEndian(w) == LittleEndian(data[start..])
  {
    var n := |data| - start;
    assert w == data[start..] + Zeros(8 - n);
    ZeroPadded(data[start..], 8 - n);
  }

  /** StableHashSmallStrBytes: the payload word of an inline string. */
  function SmallHash(word: nat): int {
    word % MODULUS
  }

  lemma SevenBytesFit()
    ensures Pow256(7) <= WORD
  {
    assert Pow256(2) == 65536;
    assert Pow256(4) == 65536 * 65536;
    assert Pow256(6) == 65536 * 65536 * 65536;
  }

  lemma {:induction false} PowGrows(m: nat, n: nat)
    requires m <= n
    ensures Pow256(m) <= Pow256(n)
  {
    if m < n {
      PowGrows(m, n - 1);
    }
  }

  /** An inline string hashes like the same bytes on the heap. */
  lemma {:induction false} SmallHashAgrees(s: seq<byte>)
    requires |s| <= MAX_SMALL
    ensures SmallHash(LittleEndian(s)) == HashFrom(0, s)
  {
    hide LittleEndian, Pow256;
    BytesFillWord(s);
    SevenBytesFit();
    PowGrows(|s|, 7);
    if s == [] {
      EmptyWord();
    } else {
      assert HashFrom(0, s) == Mix(0, LittleEndian(s));
    }
  }

  lemma EmptyWord()
    ensures LittleEndian([]) == 0 && SmallHash(0) == HashFrom(0, [])
  {
  }

  function StableHashCombine(key: bv64, value: bv64): bv64 {
    key ^ (value + 0x9e3779b9 + (key << 6) + (key >> 2))
  }

  // ------------------------------------------------------------------- cells

  /** Type index, the four bytes after it (an inline length, otherwise zero), and the eight payload bytes. */
  datatype Cell = Cell(tindex: int, pad: nat, word: nat)

  /** What String and Bytes construction and MoveToAny leave behind. */
  predicate WellFormed(c: Cell) {
    && 0 <= c.tindex < HALF_WORD / 2 && c.word < WORD
    && (if c.tindex == SMALL_STR || c.tindex == SMALL_BYTES
        then c.pad <= MAX_SMALL && c.word < Pow256(c.pad) else c.pad == 0)
  }

  type AnyCell = c: Cell | WellFormed(c) witness Cell(0, 0, 0)

  /** String(data, size) and Bytes(data, size): inline up to seven bytes, else at a heap address. */
  function MakeBytes(s: seq<byte>, small: int, large: int, address: nat): Cell {
    if |s| <= MAX_SMALL then Cell(small, |s|, LittleEndian(s)) else Cell(large, 0, address)
  }

  lemma {:induction false} MakeBytesWellFormed(s: seq<byte>, address: nat)
    requires address < WORD
    ensures WellFormed(MakeBytes(s, SMALL_STR, STR, address))
    ensures WellFormed(MakeBytes(s, SMALL_BYTES, BYTES, address))
  {
    BytesFillWord(s);
    if |s| <= MAX_SMALL {
      PowGrows(|s|, 7);
      SevenBytesFit();
    }
  }

  predicate IsStringLike(c: Cell) {
    c.tindex == STR || c.tindex == BYTES || c.tindex == SMALL_STR || c.tindex == SMALL_BYTES
  }

  /** The bytes a string-like cell stands for; heap gives the contents at an address. */
  function Contents(c: Cell, heap: nat -> seq<byte>): seq<byte> {
    if c.tindex == STR || c.tindex == BYTES then heap(c.word) else BytesOf(c.word, c.pad)
  }

  /** AnyEqual: bytes of the cell first, then string contents across the two layouts. */
  predicate AnyEqual(lhs: Cell, rhs: Cell, heap: nat -> seq<byte>) {
    if lhs.tindex == rhs.tindex && lhs.pad == rhs.pad && lhs.word == rhs.word then true
    else if lhs.tindex == rhs.tindex then
      (lhs.tindex == STR || lhs.tindex == BYTES) && heap(lhs.word) == heap(rhs.word)
    else if !IsStringLike(lhs) then false
    else if lhs.tindex == STR && rhs.tindex == SMALL_STR then heap(lhs.word) == BytesOf(rhs.word, rhs.pad)
    else if lhs.tindex == SMALL_STR && rhs.tindex == STR then BytesOf(lhs.word, lhs.pad) == heap(rhs.word)
    else if lhs.tindex == BYTES && rhs.tindex == SMALL_BYTES then heap(lhs.word) == BytesOf(rhs.word, rhs.pad)
    else if lhs.tindex == SMALL_BYTES && rhs.tindex == BYTES then BytesOf(lhs.word, lhs.pad) == heap(rhs.word)
    else false
  }

  /** AnyHash. */
  function AnyHash(c: AnyCell, heap: nat -> seq<byte>): bv64 {
    if c.tindex == SMALL_STR then StableHashCombine(STR as bv64, Bits(SmallHash(c.word)))
    else if c.tindex == SMALL_BYTES then StableHashCombine(BYTES as bv64, Bits(SmallHash(c.word)))
    else if c.tindex == STR || c.tindex == BYTES then
      StableHashCombine(Bits(c.tindex), Bits(HashFrom(0, heap(c.word))))
    else StableHashCombine(Bits(c.tindex), Bits(c.word))
  }

  function Bits(n: int): bv64 {
    if 0 <= n < WORD then n as bv64 else 0
  }

  // -------------------------------------------------------------- main result

  /** Two kinds of string; everything else is compared by its cell alone. */
  function Kind(c: Cell): int {
    if c.tindex == SMALL_STR then STR else if c.tindex == SMALL_BYTES then BYTES else c.tindex
  }

  /** AnyEqual decides: same kind and, for strings, same bytes however stored; for the rest, the same payload. */
  lemma {:induction false} AnyEqualMeaning(a: AnyCell, b: AnyCell, heap: nat -> seq<byte>)
    ensures AnyEqual(a, b, heap) <==>
            Kind(a) == Kind(b) && (if IsStringLike(a) then Contents(a, heap) == Contents(b, heap) else a.word == b.word)
  {
    if a.tindex == b.tindex && (a.tindex == SMALL_STR || a.tindex == SMALL_BYTES) {
      WordFitsBytes(a.word, a.pad);
      WordFitsBytes(b.word, b.pad);
    }
  }

  lemma {:induction false} HashOfContents(a: AnyCell, heap: nat -> seq<byte>)
    requires IsStringLike(a)
    ensures AnyHash(a, heap) == StableHashCombine(Bits(Kind(a)), Bits(HashFrom(0, Contents(a, heap))))
  {
    hide StableHashCombine, HashFrom, SmallHash;
    if a.tindex == SMALL_STR || a.tindex == SMALL_BYTES {
      WordFitsBytes(a.word, a.pad);
      SmallHashAgrees(Contents(a, heap));
    }
  }

  /** Equal cells hash alike, so a string finds itself in a map whichever way it is stored. */
  lemma {:induction false} EqualCellsHashAlike(a: AnyCell, b: AnyCell, heap: nat -> seq<byte>)
    requires AnyEqual(a, b, heap)
    ensures AnyHash(a, heap) == AnyHash(b, heap)
  {
    AnyEqualMeaning(a, b, heap);
    if IsStringLike(a) {
      HashOfContents(a, heap);
      HashOfContents(b, heap);
    }
  }

  function AnyTraits(heap: nat -> seq<byte>): KeyTraits<AnyCell> {
    KeyTraits((c: AnyCell) => AnyHash(c, heap) as int, (a: AnyCell, b: AnyCell) => AnyEqual(a, b, heap))
  }

  /** AnyHash and AnyEqual are what every map in this project asks of its key traits. */
  lemma {:induction false} AnyTraitsLawful(heap: nat -> seq<byte>)
    ensures Lawful(AnyTraits(heap))
  {
    var tr := AnyTraits(heap);
    forall a: AnyCell ensures tr.eq(a, a) && 0 <= tr.hash(a) < WORD {
      AnyEqualMeaning(a, a, heap);
    }
    forall a: AnyCell, b: AnyCell | tr.eq(a, b) ensures tr.eq(b, a) && tr.hash(a) == tr.hash(b) {
      AnyEqualMeaning(a, b, heap);
      AnyEqualMeaning(b, a, heap);
      EqualCellsHashAlike(a, b, heap);
    }
    forall a: AnyCell, b: AnyCell, c: AnyCell | tr.eq(a, b) && tr.eq(b, c) ensures tr.eq(a, c) {
      AnyEqualMeaning(a, b, heap);
      AnyEqualMeaning(b, c, heap);
      AnyEqualMeaning(a, c, heap);
    }
  }

  // --------------------------------------------------- what the hash can tell

  /** Some word stands for a number below 2^64. */
  lemma {:induction false} WordFor(n: nat) returns (x: bv64)
    requires n < WORD
    ensures x as nat == n
  {
    if n == 0 {
      x := NoBits();
    } else {
      var y := WordFor(n / 2);
      var b := Bit(n % 2);
      x := OneMoreBit(y, b);
    }
  }

  lemma NoBits() returns (x: bv64)
    ensures x as nat == 0
  {
    x := 0;
  }

  lemma Bit(n: nat) returns (b: bv1)
    requires n < 2
    ensures b as nat == n
  {
    b := if n == 0 then 0 else 1;
  }

  lemma OneMoreBit(y: bv64, b: bv1) returns (x: bv64)
    requires y as nat < 0x8000_0000_0000_0000
    ensures x as nat == 2 * y as nat + b as nat
  {
    x := (y << 1) | (b as bv64);
  }

  lemma WordsBack(x: bv64)
    ensures (x as nat) as bv64 == x
  {
  }

  /** A number below 2^64 is the number its bits stand for. */
  lemma {:induction false} BitsBack(n: nat)
    requires n < WORD
    ensures Bits(n) as nat == n
  {
    var x := WordFor(n);
    WordsBack(x);
  }

  lemma {:induction false} BitsTell(m: nat, n: nat)
    requires m < WORD && n < WORD && Bits(m) == Bits(n)
    ensures m == n
  {
    hide Bits;
    BitsBack(m);
    BitsBack(n);
  }

  lemma {:induction false} HashFromInRange(result: int, data: seq<byte>)
    requires 0 <= result < MODULUS
    ensures 0 <= HashFrom(result, data) < MODULUS
    decreases |data|
  {
    hide LittleEndian;
    if |data| >= 8 { HashFromInRange(Mix(result, LittleEndian(data[..8])), data[8..]); }
  }

  /** The second argument, from the first one and the result. */
  function Undo(h: bv64, r: bv64): bv64 { (r ^ h) - (0x9e3779b9 + (h << 6) + (h >> 2)) }

  lemma UndoOf(h: bv64, x: bv64)
    ensures Undo(h, h ^ (x + 0x9e3779b9 + (h << 6) + (h >> 2))) == x
  {
  }

  lemma UndoCombine(h: bv64, x: bv64)
    ensures Undo(h, StableHashCombine(h, x)) == x
  {
    hide Undo;
    UndoOf(h, x);
  }

  /** Cells of one kind and one hash have the same payload or, if they are strings, bytes of the same hash. */
  lemma {:induction false} AnyHashTells(a: AnyCell, b: AnyCell, heap: nat -> seq<byte>)
    requires Kind(a) == Kind(b) && AnyHash(a, heap) == AnyHash(b, heap)
    ensures if IsStringLike(a) then HashFrom(0, Contents(a, heap)) == HashFrom(0, Contents(b, heap))
            else a.word == b.word
  {
    hide StableHashCombine, HashFrom, SmallHash, Bits, Undo, Contents;
    var k := Bits(Kind(a));
    if IsStringLike(a) {
      var m, n := HashFrom(0, Contents(a, heap)), HashFrom(0, Contents(b, heap));
      HashOfContents(a, heap);
      HashOfContents(b, heap);
      HashFromInRange(0, Contents(a, heap));
      HashFromInRange(0, Contents(b, heap));
      SecondTold(k, Bits(m), Bits(n));
      BitsTell(m, n);
    } else {
      SecondTold(k, Bits(a.word), Bits(b.word));
      BitsTell(a.word, b.word);
    }
  }

  lemma SecondTold(h: bv64, x: bv64, y: bv64)
    requires StableHashCombine(h, x) == StableHashCombine(h, y)
    ensures x == y
  {
    hide StableHashCombine, Undo;
    UndoCombine(h, x);
    UndoCombine(h, y);
  }
}
