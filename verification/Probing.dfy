// Where a dense map looks: Fibonacci hashing onto a power-of-two table, the
// fixed table of jump distances, and the table-size rule.
module Probing {
  import opened AssocList
  import opened DenseLayout

  const FIB_COEFF: int := 11400714819323198485

  function Pow2(e: nat): (r: nat)
    ensures r >= 1
  {
    if e == 0 then 1 else 2 * Pow2(e - 1)
  }

  lemma {:induction false} Pow2Add(a: nat, b: nat)
    ensures Pow2(a + b) == Pow2(a) * Pow2(b)
  {
    if a != 0 {
      Pow2Add(a - 1, b);
      DoubledProduct(Pow2(a - 1), Pow2(b));
    }
  }

  lemma DoubledProduct(x: int, y: int)
    ensures 2 * x * y == 2 * (x * y)
  {
  }

  lemma {:induction false} Pow2Mono(a: nat, b: nat)
    requires a <= b
    ensures Pow2(a) <= Pow2(b)
  {
    if a < b { Pow2Mono(a, b - 1); }
  }

  /** Doubling the slots goes with lowering the shift by one, and keeps slots == 2^(64 - shift). */
  lemma DoubledTable(shift: nat, slots: nat)
    requires 2 <= shift <= 61 && slots == Pow2(64 - shift) && 2 * slots <= 0x4000_0000_0000_0000
    ensures 2 <= shift - 1 && 2 * slots == Pow2(64 - (shift - 1))
  {
    Pow2Of64();
    assert Pow2(64) == 2 * Pow2(63) == 4 * Pow2(62);
  }

  lemma Pow2Of4()
    ensures Pow2(4) == 16
  {
    assert Pow2(2) == 4;
  }

  lemma Squared(e: nat, p: int)
    requires Pow2(e) == p
    ensures Pow2(2 * e) == p * p
  {
    Pow2Add(e, e);
  }

  lemma Pow2Of64()
    ensures Pow2(64) == WORD
  {
    hide Pow2;
    Pow2Of4();
    Squared(4, 16);
    Squared(8, 0x100);
    Squared(16, 0x1_0000);
    Squared(32, 0x1_0000_0000);
  }

  lemma Pow2OfThree()
    ensures Pow2(3) == 8
  {
    assert Pow2(2) == 4;
  }

  lemma Pow2Squares()
    ensures Pow2(61) * 2 == Pow2(62) && Pow2(62) * 4 == Pow2(64) == WORD
  {
    Pow2Of64();
    assert Pow2(64) == 2 * Pow2(63) && Pow2(63) == 2 * Pow2(62) && Pow2(62) == 2 * Pow2(61);
  }

  /** 64-bit multiply, then shift: an index into a table of 2^(64 - shift) slots. */
  function FibHash(h: int, shift: nat): int {
    FIB_COEFF * h % WORD / Pow2(shift)
  }

  lemma FibHashInTable(h: int, shift: nat)
    requires shift <= 64
    ensures 0 <= FibHash(h, shift) < Pow2(64 - shift)
  {
    var x, p, q := FIB_COEFF * h % WORD, Pow2(shift), Pow2(64 - shift);
    Pow2Of64();
    Pow2Add(shift, 64 - shift);
    assert 0 <= x < p * q;
    DivBelow(x, p, q);
  }

  lemma DivBelow(x: int, p: int, q: int)
    requires p > 0 && 0 <= x < p * q
    ensures 0 <= x / p < q
  {
    var d := x / p;
    assert d * p <= x;
    assert d >= q ==> d * p >= q * p;
  }

  /** Jump distances; index 0 stands for no jump. */
  function NextProbeLocation(i: nat): (d: int)
    requires i < NUM_JUMP_DISTS
    ensures 0 <= d < 5209859154120846436
    ensures d == 0 <==> i == 0
  {
    if i < 16 then i
    else if i < 83 then (i - 10) * (i - 9) / 2
    else LargeDistance(i - 83)
  }

  function LargeDistance(i: nat): (d: int)
    requires i < 43
    ensures 0 < d < 5209859154120846436
  {
    if i < 5 then [8515, 19110, 42778, 96141, 216153][i]
    else if i < 10 then [486591, 1092981, 2458653, 5532801, 12442566][i - 5]
    else if i < 15 then [27993903, 62983476, 141717030, 318844378, 717352503][i - 10]
    else if i < 20 then [1614057336, 3631522476, 8170957530, 18384510628, 41364789378][i - 15]
    else if i < 25 then [93070452520, 209408356380, 471168559170, 1060128894105, 2385289465695][i - 20]
    else if i < 30 then [5366898840628, 12075518705635, 27169915244790, 61132312065111, 137547689707000][i - 25]
    else if i < 35 then
      [309482283181501, 696335127828753, 1566753995631385, 3525196511162271, 7931691992677701][i - 30]
    else if i < 40 then
      [17846306936293605, 40154190677507445, 90346928918121501, 203280589587557251, 457381325854679626][i - 35]
    else [1029107982097042876, 2315492959180353330, 5209859154120846435][i - 40]
  }

  /** The slot reached from i by jump j, as the probing loops compute it. */
  function ProbeFrom(i: int, j: int, slots: int): int {
    if 0 <= j < NUM_JUMP_DISTS && slots > 0 then (i + NextProbeLocation(j)) % slots else i
  }

  /** In a table that fits 63 bits no probe overflows a 64-bit word, and every probe stays inside. */
  lemma ProbeInTable(i: int, j: int, slots: int)
    requires 0 <= i < slots <= Pow2(63) && 0 <= j < NUM_JUMP_DISTS
    ensures i + NextProbeLocation(j) < WORD
    ensures 0 <= ProbeFrom(i, j, slots) < slots
  {
    Pow2Of64();
    assert Pow2(64) == 2 * Pow2(63);
  }

  /** The table size for a required capacity: a loop over the bits of cap. The
      64-bit shifts are checked not to overflow; fail reports ICHECK_GT(slots, cap). */
  method CalcTableSize(cap: nat) returns (fail: bool, fibShift: nat, nSlots: nat)
    requires cap < WORD
    ensures fail <==> cap >= Pow2(63)
    ensures 0 < cap < Pow2(62) ==> fibShift <= 64 && nSlots == Pow2(64 - fibShift) && 2 * cap <= nSlots < 4 * cap
    ensures cap == 0 ==> fibShift == 64 && nSlots == 1
  {
    hide Halved;
    var shift, slots := 64, 1;
    var c: nat := cap;
    ghost var k: nat := 0;
    Pow2Of64();
    NotHalvedYet(cap);
    while c != 0
      invariant k <= 64 && shift == 64 - k && slots == if k == 64 then 0 else Pow2(k)
      invariant Halved(cap, k, c)
      decreases c
    {
      HalfStep(cap, k, c);
      shift := shift - 1;
      slots := slots * 2 % WORD;
      c := c / 2;
      k := k + 1;
    }
    SizeRule(cap, k);
    if slots <= cap {
      return true, 0, 0;
    }
    fail := false;
    if slots < cap * 2 {
      fibShift, nSlots := shift - 1, slots * 2 % WORD;
    } else {
      fibShift, nSlots := shift, slots;
    }
  }

  /** The table for four entries, the one a full small map is moved to, has eight slots. */
  lemma FourNeedEight(fibShift: nat, nSlots: nat)
    requires fibShift <= 64 && nSlots == Pow2(64 - fibShift) && 8 <= nSlots < 16
    ensures fibShift == 61 && nSlots == 8
  {
    assert Pow2(3) == 8 by { assert Pow2(1) == 2; }
    assert Pow2(4) == 16;
    var e := 64 - fibShift;
    if e > 3 { Pow2Mono(4, e); } else if e < 3 { Pow2Mono(e, 2); }
  }

  lemma NotHalvedYet(cap: nat)
    ensures Halved(cap, 0, cap)
  {
  }

  /** c is cap shifted right k times, and some bit of cap has been shifted out last. */
  ghost predicate Halved(cap: nat, k: nat, c: nat) {
    c * Pow2(k) <= cap < (c + 1) * Pow2(k) && (k > 0 ==> Pow2(k - 1) <= cap)
  }

  lemma {:induction false} HalfStep(cap: nat, k: nat, c: nat)
    requires Halved(cap, k, c) && c > 0 && cap < WORD && k <= 64
    ensures k < 64 && Halved(cap, k + 1, c / 2)
    ensures Pow2(k) * 2 % WORD == if k == 63 then 0 else Pow2(k + 1)
  {
    var p := Pow2(k);
    AtLeastOnce(c, p);
    Pow2Of64();
    assert k < 64;
    DoubleWord(k);
    HalfBounds(cap, p, c);
  }

  lemma AtLeastOnce(c: nat, p: int)
    requires c > 0 && p > 0
    ensures p <= c * p
  {
  }

  lemma DoubleWord(k: nat)
    requires k < 64
    ensures Pow2(k) * 2 % WORD == if k == 63 then 0 else Pow2(k + 1)
  {
    Pow2Of64();
    if k < 63 {
      Pow2Mono(k + 2, 64);
      assert Pow2(k + 1) < WORD;
    } else {
      assert Pow2(64) == 2 * Pow2(63);
    }
  }

  lemma HalfBounds(cap: nat, p: nat, c: nat)
    requires c * p <= cap < (c + 1) * p
    ensures c / 2 * (2 * p) <= cap < (c / 2 + 1) * (2 * p)
  {
    var h := c / 2;
    assert h * (2 * p) == 2 * h * p <= c * p by { assert 2 * h <= c; }
    assert (c + 1) * p <= (2 * h + 2) * p by { assert c + 1 <= 2 * h + 2; }
    assert (2 * h + 2) * p == (h + 1) * (2 * p);
  }

  /** k is the bit length of cap: the checks and the final doubling of CalcTableSize. */
  lemma {:induction false} SizeRule(cap: nat, k: nat)
    requires Halved(cap, k, 0) && k <= 64 && cap < WORD
    ensures cap >= Pow2(63) <==> k == 64
    ensures cap < Pow2(k) && (k > 0 ==> Pow2(k) <= 2 * cap)
    ensures cap < Pow2(62) ==> k <= 62 && 2 * Pow2(k) == Pow2(k + 1) < WORD
  {
    Pow2Of64();
    if k < 64 { Pow2Mono(k, 63); }
    if k > 62 {
      Pow2Mono(62, k - 1);
    } else {
      Pow2Mono(k + 1, 63);
    }
  }
}
