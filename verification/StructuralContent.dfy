// What a value holds takes part in its hash: which keys have one, and when a change below is seen at the top.
module StructuralContent {
  import opened AnyCells
  import opened AssocList
  import opened HashOrder
  import opened StructuralHash
  import opened StructuralValues

  // --------------------------------------------------------------------- keys

  predicate Leaf(v: Value) { v.Plain? || v.Text? }

  predicate IsNanCell(v: Value) { v.Plain? && v.cell.tindex == FLOAT && IsNan(v.cell.word) }

  /** Every plain value and every string has a hash as a key, whatever has been visited: the one it has as a value. Only
      a NaN keeps its payload. */
  lemma {:induction false} LeafKeysHaveHashes(env: Env, k: Value, memo: map<nat, Hash>, free: bool, trees: bool,
          s: Memo)
    requires Leaf(k)
    ensures KeyHash(env, k, memo) == Some(
              if IsNanCell(k) then env.combine(Bits(FLOAT), Bits(k.cell.word))
              else HashedAny(env, k, free, trees, s).hash)
  {
    hide HashFrom, SmallHash, BytesOf, LittleEndian, Pow256, IsNan;
    if k.Plain? && k.cell.tindex == SMALL_STR {
      WordFitsBytes(k.cell.word, k.cell.pad);
      SmallHashAgrees(BytesOf(k.cell.word, k.cell.pad));
    }
  }

  /** An object has one once it has been visited, an array or a map never. */
  lemma OtherKeysHaveHashes(env: Env, k: Value, memo: map<nat, Hash>)
    requires !Leaf(k)
    ensures KeyHash(env, k, memo).Some? <==> k.Obj? && k.id in memo
    ensures k.Obj? && k.id in memo ==> KeyHash(env, k, memo) == Some(memo[k.id])
  {
  }

  // ------------------------------------------------------------------ leaves

  /** Different second arguments give different results. */
  ghost predicate TellsValues(combine: (Hash, Hash) -> Hash) {
    forall h, x, y :: combine(h, x) == combine(h, y) ==> x == y
  }

  /** Different first arguments do. */
  ghost predicate TellsStarts(combine: (Hash, Hash) -> Hash) {
    forall g, h, x :: combine(g, x) == combine(h, x) ==> g == h
  }

  function LeafHash(env: Env, v: Value): Hash
    requires Leaf(v)
  {
    if v.Plain? then HashCell(env, v.cell) else env.combine(Bits(v.tindex), Bits(HashFrom(0, v.bytes)))
  }

  /** Two strings, or two pieces of bytes, whose bytes hash differently have different hashes. */
  lemma {:induction false} TextsTold(env: Env, t: int, r: seq<byte>, s: seq<byte>)
    requires TellsValues(env.combine) && HashFrom(0, r) != HashFrom(0, s)
    ensures LeafHash(env, Text(t, r)) != LeafHash(env, Text(t, s))
  {
    hide HashFrom, Bits;
    HashFromInRange(0, r);
    HashFromInRange(0, s);
    if Bits(HashFrom(0, r)) == Bits(HashFrom(0, s)) { BitsTell(HashFrom(0, r), HashFrom(0, s)); }
  }

  /** Two cells of one type with different payloads do, unless both are NaN or they are inline strings. */
  lemma {:induction false} CellsTold(env: Env, c: AnyCell, d: AnyCell)
    requires TellsValues(env.combine) && c.tindex == d.tindex && c.word != d.word && c.tindex != SMALL_STR
    requires !(IsNanCell(Plain(c)) && IsNanCell(Plain(d)))
    ensures LeafHash(env, Plain(c)) != LeafHash(env, Plain(d))
  {
    hide Bits, IsNan;
    BitsOfNan();
    if Bits(c.word) == Bits(d.word) { BitsTell(c.word, d.word); }
    if c.tindex == FLOAT && Bits(c.word) == Bits(QUIET_NAN) { BitsTell(c.word, QUIET_NAN); }
    if c.tindex == FLOAT && Bits(d.word) == Bits(QUIET_NAN) { BitsTell(d.word, QUIET_NAN); }
  }

  lemma BitsOfNan()
    ensures IsNan(QUIET_NAN) && 0 <= QUIET_NAN < WORD
  {
  }

  // -------------------------------------------------------------- one change

  /** The values differ at i only. */
  ghost predicate DifferAt(us: seq<Value>, vs: seq<Value>, i: int) {
    0 <= i < |us| == |vs| && forall j :: 0 <= j < |us| && j != i ==> us[j] == vs[j]
  }

  /** Nothing after the i-th value is hashed. */
  predicate NoneAfter(modes: seq<FieldMode>, i: nat, n: nat) {
    forall j :: i < j < n && j < |modes| ==> modes[j].Ignored?
  }

  /**
   * b is a but for one leaf of another hash: below arrays, under leaf keys of maps that are not tied with others, and
   * in fields that are not ignored of objects that are neither graph nodes nor free variables. If last is set, every
   * value on the way is the last one its container hashes.
   */
  ghost predicate OneChange(env: Env, a: Value, b: Value, last: bool)
    decreases a
  {
    match (a, b)
    case (Arr(_, us), Arr(_, vs)) =>
      exists i :: DifferAt(us, vs, i) && OneChange(env, us[i], vs[i], last) && (last ==> i == |us| - 1)
    case (Dict(_, ks, us), Dict(_, ls, vs)) =>
      && ks == ls && |ks| == |us| && (forall j :: 0 <= j < |ks| ==> Leaf(ks[j]))
      && exists i :: DifferAt(us, vs, i) && OneChange(env, us[i], vs[i], last) && EntryHashed(env, ks, i, last)
    case (Obj(_, t, us), Obj(_, u, vs)) =>
      && t == u && !Recorded(env.types(t).kind)
      && exists i ::
        DifferAt(us, vs, i) && OneChange(env, us[i], vs[i], last) && FieldHashed(env.types(t), i, |us|, last)
    case _ => Leaf(a) && Leaf(b) && LeafHash(env, a) != LeafHash(env, b)
  }

  predicate EntryHashed(env: Env, keys: seq<Value>, i: int, last: bool) {
    var hs := KeyHashes(env, keys, |keys|, map[]);
    Untied(hs, i) && (last ==> Next(hs, hs[i]).None?)
  }

  predicate FieldHashed(info: TypeInfo, i: int, n: nat, last: bool) {
    0 <= i < |info.modes| && !info.modes[i].Ignored? && (last ==> NoneAfter(info.modes, i, n))
  }

  /** Both are hashed or neither, both leave the same memo, and the hashes differ. */
  ghost predicate Apart(r: Hashed, q: Hashed) {
    r.ok == q.ok && (r.ok ==> r.memo == q.memo && r.hash != q.hash)
  }

  ghost predicate Tells(env: Env, last: bool) {
    TellsValues(env.combine) && (last || TellsStarts(env.combine))
  }

  // ------------------------------------------------------- nothing is undone

  /** Different hashes stay different over the same values. */
  lemma {:induction false} AllStayApart(env: Env, g: Hash, h: Hash, xs: seq<Value>, modes: seq<FieldMode>, free: bool,
          s: Memo)
    requires g != h && (TellsStarts(env.combine) || forall j :: 0 <= j < |modes| && j < |xs| ==> modes[j].Ignored?)
    ensures Apart(HashedAll(env, g, xs, modes, free, false, s), HashedAll(env, h, xs, modes, free, false, s))
    decreases xs
  {
    hide HashedAny;
    if xs != [] && modes != [] {
      if modes[0].Ignored? {
        AllStayApart(env, g, h, xs[1..], modes[1..], free, s);
      } else {
        var r := HashedAny(env, xs[0], free || modes[0].Def?, false, s);
        if r.ok {
          AllStayApart(env, env.combine(g, r.hash), env.combine(h, r.hash), xs[1..], modes[1..], free, r.memo);
        }
      }
    }
  }

  /** And over the same entries, the i-th having been passed. */
  lemma {:induction false} EntriesStayApart(env: Env, g: Hash, h: Hash, us: seq<Value>, vs: seq<Value>, i: nat,
          hs: seq<Option<Hash>>, lo: Option<Hash>, free: bool, s: Memo)
    requires g != h && |hs| == |us| && DifferAt(us, vs, i) && !Beyond(hs[i], lo)
    requires TellsStarts(env.combine) || Next(hs, lo).None?
    ensures Apart(HashedEntries(env, g, us, hs, lo, free, false, s), HashedEntries(env, h, vs, hs, lo, free, false, s))
    decreases Left(hs, lo)
  {
    hide HashedAny, Tied, Left, Less, Beyond;
    var k := Next(hs, lo);
    if k.Some? {
      NextShrinks(hs, lo);
      PassedStays(hs, i, lo);
      if Tied(hs, k.value) {
        EntriesStayApart(env, env.combine(g, k.value), env.combine(h, k.value), us, vs, i, hs, k, free, s);
      } else {
        HolderUntied(hs, k.value);
        var j := Holder(hs, k.value);
        assert us[j] == vs[j];
        var r := HashedAny(env, us[j], free, false, s);
        if r.ok {
          EntriesStayApart(env, env.combine(env.combine(g, k.value), r.hash),
                           env.combine(env.combine(h, k.value), r.hash), us, vs, i, hs, k, free, r.memo);
        }
      }
    }
  }

  lemma PassedStays(hs: seq<Option<Hash>>, i: nat, lo: Option<Hash>)
    requires i < |hs| && !Beyond(hs[i], lo) && Next(hs, lo).Some?
    ensures hs[i] != Next(hs, lo) && !Beyond(hs[i], Next(hs, lo))
  {
    hide Less;
    if hs[i].Some? && lo.Some? { LessIsOrder(lo.value, Next(hs, lo).value, hs[i].value); }
  }

  // ------------------------------------------- the memo holds no tree nodes

  lemma {:induction false} MemoAny(env: Env, v: Value, free: bool, s: Memo)
    requires Placed(env, v) && OnlyRecorded(env, s.hash)
    ensures OnlyRecorded(env, HashedAny(env, v, free, false, s).memo.hash)
    decreases v, 1
  {
    hide OnlyRecorded;
    if v.Arr? {
      MemoAll(env, env.combine(env.arrayKeyHash, Bits(|v.items|)), v.items, AllOrdinary(|v.items|), free, s);
    } else if v.Dict? {
      MemoEntries(env, env.combine(env.mapKeyHash, Bits(|v.keys|)), v.values,
                  KeyHashes(env, v.keys, |v.values|, s.hash), None, free, s);
    } else if v.Obj? {
      MemoAll(env, Info(env, v).keyHash, v.fields, Info(env, v).modes, free, s);
      MemoObject(env, v, free, s);
    }
  }

  lemma MemoObject(env: Env, v: Value, free: bool, s: Memo)
    requires v.Obj? && Placed(env, v) && OnlyRecorded(env, s.hash)
    requires var r := HashedAll(env, Info(env, v).keyHash, v.fields, Info(env, v).modes, free, false, s);
             OnlyRecorded(env, r.memo.hash)
    ensures OnlyRecorded(env, HashedObject(env, v, free, false, s).memo.hash)
  {
    hide HashedAll;
  }

  lemma {:induction false} MemoAll(env: Env, h: Hash, xs: seq<Value>, modes: seq<FieldMode>, free: bool, s: Memo)
    requires AllPlaced(env, xs) && OnlyRecorded(env, s.hash)
    ensures OnlyRecorded(env, HashedAll(env, h, xs, modes, free, false, s).memo.hash)
    decreases xs, 0
  {
    hide OnlyRecorded, HashedAny;
    if xs != [] && modes != [] {
      if modes[0].Ignored? {
        MemoAll(env, h, xs[1..], modes[1..], free, s);
      } else {
        MemoAny(env, xs[0], free || modes[0].Def?, s);
        var r := HashedAny(env, xs[0], free || modes[0].Def?, false, s);
        if r.ok { MemoAll(env, env.combine(h, r.hash), xs[1..], modes[1..], free, r.memo); }
      }
    }
  }

  lemma {:induction false} MemoEntries(env: Env, h: Hash, values: seq<Value>, hs: seq<Option<Hash>>, lo: Option<Hash>,
          free: bool, s: Memo)
    requires |hs| == |values| && AllPlaced(env, values) && OnlyRecorded(env, s.hash)
    ensures OnlyRecorded(env, HashedEntries(env, h, values, hs, lo, free, false, s).memo.hash)
    decreases values, 0, Left(hs, lo)
  {
    hide OnlyRecorded, HashedAny, Tied, Left;
    var k := Next(hs, lo);
    if k.Some? {
      NextShrinks(hs, lo);
      if Tied(hs, k.value) {
        MemoEntries(env, env.combine(h, k.value), values, hs, k, free, s);
      } else {
        HolderUntied(hs, k.value);
        var v := values[Holder(hs, k.value)];
        MemoAny(env, v, free, s);
        var r := HashedAny(env, v, free, false, s);
        if r.ok { MemoEntries(env, env.combine(env.combine(h, k.value), r.hash), values, hs, k, free, r.memo); }
      }
    }
  }

  // ------------------------------------------------------ the change is seen

  /** Both values are on the heap, and the memo holds no tree nodes. */
  ghost predicate Standing(env: Env, a: Value, b: Value, s: Memo) {
    Placed(env, a) && Placed(env, b) && OnlyRecorded(env, s.hash)
  }

  ghost predicate AllStanding(env: Env, us: seq<Value>, vs: seq<Value>, s: Memo) {
    AllPlaced(env, us) && AllPlaced(env, vs) && OnlyRecorded(env, s.hash)
  }

  /** A change below is seen at the top, in every mode and at every memo. */
  lemma {:induction false} ChangeSeen(env: Env, a: Value, b: Value, last: bool, free: bool, s: Memo)
    requires Tells(env, last) && OneChange(env, a, b, last) && Standing(env, a, b, s)
    ensures Apart(HashedAny(env, a, free, false, s), HashedAny(env, b, free, false, s))
    decreases a, 1
  {
    hide Tells;
    if Leaf(a) {
      LeafSeen(env, a, free, s);
      LeafSeen(env, b, free, s);
    } else if a.Arr? {
      ArrayChangeSeen(env, a, b, last, free, s);
    } else if a.Dict? {
      MapChangeSeen(env, a, b, last, free, s);
    } else {
      ObjectChangeSeen(env, a, b, last, free, s);
    }
  }

  lemma LeafSeen(env: Env, a: Value, free: bool, s: Memo)
    requires Leaf(a)
    ensures HashedAny(env, a, free, false, s) == Hashed(true, LeafHash(env, a), s)
  {
    hide HashCell, HashFrom;
  }

  lemma {:induction false} ArrayChangeSeen(env: Env, a: Value, b: Value, last: bool, free: bool, s: Memo)
    requires Tells(env, last) && OneChange(env, a, b, last) && Standing(env, a, b, s) && a.Arr?
    ensures Apart(HashedAny(env, a, free, false, s), HashedAny(env, b, free, false, s))
    decreases a, 0
  {
    hide Tells, HashedAll;
    var us, vs := a.items, b.items;
    var i :| DifferAt(us, vs, i) && OneChange(env, us[i], vs[i], last) && (last ==> i == |us| - 1);
    var h := env.combine(env.arrayKeyHash, Bits(|us|));
    AllChangeSeen(env, h, us, vs, i, AllOrdinary(|us|), last, free, s);
  }

  lemma {:induction false} ObjectChangeSeen(env: Env, a: Value, b: Value, last: bool, free: bool, s: Memo)
    requires Tells(env, last) && OneChange(env, a, b, last) && Standing(env, a, b, s) && a.Obj?
    ensures Apart(HashedAny(env, a, free, false, s), HashedAny(env, b, free, false, s))
    decreases a, 0
  {
    hide Tells, HashedAll;
    var us, vs, info := a.fields, b.fields, Info(env, a);
    var i :| DifferAt(us, vs, i) && OneChange(env, us[i], vs[i], last) && FieldHashed(info, i, |us|, last);
    AllChangeSeen(env, info.keyHash, us, vs, i, info.modes, last, free, s);
    TreeHash(env, a, free, s);
    TreeHash(env, b, free, s);
    hide HashedAny, HashedObject, OneChange;
  }

  /** Without a memo for tree nodes, an object that is not recorded and has not been hashes like its fields. */
  lemma TreeHash(env: Env, v: Value, free: bool, s: Memo)
    requires v.Obj? && !Recorded(Info(env, v).kind)
    ensures HashedAny(env, v, free, false, s) ==
            if !Info(env, v).hasMetadata || Info(env, v).kind.Unsupported? then Hashed(false, 0, s)
            else if v.id in s.hash then Hashed(true, s.hash[v.id], s)
            else HashedAll(env, Info(env, v).keyHash, v.fields, Info(env, v).modes, free, false, s)
  {
    hide HashedAll;
  }

  lemma {:induction false} MapChangeSeen(env: Env, a: Value, b: Value, last: bool, free: bool, s: Memo)
    requires Tells(env, last) && OneChange(env, a, b, last) && Standing(env, a, b, s) && a.Dict?
    ensures Apart(HashedAny(env, a, free, false, s), HashedAny(env, b, free, false, s))
    decreases a, 0
  {
    hide Tells, HashedEntries, KeyHash;
    var us, vs := a.values, b.values;
    var i :| DifferAt(us, vs, i) && OneChange(env, us[i], vs[i], last) && EntryHashed(env, a.keys, i, last);
    var h := env.combine(env.mapKeyHash, Bits(|a.keys|));
    var hs := KeyHashes(env, a.keys, |us|, s.hash);
    LeafKeysStay(env, a.keys, s.hash);
    EntryChangeSeen(env, h, us, vs, i, hs, None, last, free, s);
  }

  lemma LeafKeysStay(env: Env, keys: seq<Value>, m: map<nat, Hash>)
    requires forall j :: 0 <= j < |keys| ==> Leaf(keys[j])
    ensures KeyHashes(env, keys, |keys|, m) == KeyHashes(env, keys, |keys|, map[])
  {
    forall j | 0 <= j < |keys| ensures KeyHash(env, keys[j], m) == KeyHash(env, keys[j], map[]) {
      assert Leaf(keys[j]);
    }
  }

  lemma {:induction false} AllChangeSeen(env: Env, h: Hash, us: seq<Value>, vs: seq<Value>, i: nat,
          modes: seq<FieldMode>, last: bool, free: bool, s: Memo)
    requires Tells(env, last) && AllStanding(env, us, vs, s)
    requires DifferAt(us, vs, i) && OneChange(env, us[i], vs[i], last)
    requires i < |modes| && !modes[i].Ignored? && (last ==> NoneAfter(modes, i, |us|))
    ensures Apart(HashedAll(env, h, us, modes, free, false, s), HashedAll(env, h, vs, modes, free, false, s))
    decreases us
  {
    hide HashedAny, OneChange;
    if i == 0 {
      var mode := free || modes[0].Def?;
      ChangeSeen(env, us[0], vs[0], last, mode, s);
      var r, q := HashedAny(env, us[0], mode, false, s), HashedAny(env, vs[0], mode, false, s);
      assert us[1..] == vs[1..];
      if r.ok { AllStayApart(env, env.combine(h, r.hash), env.combine(h, q.hash), us[1..], modes[1..], free, r.memo); }
    } else {
      assert us[0] == vs[0] && us[1..][i - 1] == us[i] && vs[1..][i - 1] == vs[i];
      assert DifferAt(us[1..], vs[1..], i - 1);
      assert last ==> NoneAfter(modes[1..], i - 1, |us| - 1);
      if modes[0].Ignored? {
        AllChangeSeen(env, h, us[1..], vs[1..], i - 1, modes[1..], last, free, s);
      } else {
        var r := HashedAny(env, us[0], free || modes[0].Def?, false, s);
        MemoAny(env, us[0], free || modes[0].Def?, s);
        if r.ok {
          AllChangeSeen(env, env.combine(h, r.hash), us[1..], vs[1..], i - 1, modes[1..], last, free, r.memo);
        }
      }
    }
  }

  lemma {:induction false} EntryChangeSeen(env: Env, h: Hash, us: seq<Value>, vs: seq<Value>, i: nat,
          hs: seq<Option<Hash>>, lo: Option<Hash>, last: bool, free: bool, s: Memo)
    requires Tells(env, last) && AllStanding(env, us, vs, s)
    requires DifferAt(us, vs, i) && OneChange(env, us[i], vs[i], last)
    requires |hs| == |us| && Untied(hs, i) && Beyond(hs[i], lo) && (last ==> Next(hs, hs[i]).None?)
    ensures Apart(HashedEntries(env, h, us, hs, lo, free, false, s), HashedEntries(env, h, vs, hs, lo, free, false, s))
    decreases us, 0, Left(hs, lo)
  {
    hide HashedAny, OneChange, Tied, Left, Less;
    NextOrBeyond(hs, lo, i);
    NextShrinks(hs, lo);
    var k := Next(hs, lo);
    if hs[i] == k {
      HolderOnly(hs, i);
      ChangeSeen(env, us[i], vs[i], last, free, s);
      var r, q := HashedAny(env, us[i], free, false, s), HashedAny(env, vs[i], free, false, s);
      LessIsOrder(k.value, k.value, k.value);
      if r.ok {
        var g := env.combine(h, k.value);
        EntriesStayApart(env, env.combine(g, r.hash), env.combine(g, q.hash), us, vs, i, hs, k, free, r.memo);
      }
    } else if Tied(hs, k.value) {
      EntryChangeSeen(env, env.combine(h, k.value), us, vs, i, hs, k, last, free, s);
    } else {
      HolderUntied(hs, k.value);
      var j := Holder(hs, k.value);
      assert us[j] == vs[j];
      var r := HashedAny(env, us[j], free, false, s);
      MemoAny(env, us[j], free, s);
      if r.ok {
        EntryChangeSeen(env, env.combine(env.combine(h, k.value), r.hash), us, vs, i, hs, k, last, free, r.memo);
      }
    }
  }

  /** One leaf changed, wherever it stands, changes the hash of the whole: with a combine that tells both its arguments
      apart anywhere, and with one that tells the second apart when the leaf is the last one hashed. */
  lemma {:induction false} ChangeReachesTheHash(env: Env, a: Value, b: Value, last: bool, mapFreeVars: bool)
    requires Tells(env, last) && OneChange(env, a, b, last)
    requires Placed(env, a) && Placed(env, b) && KeysMet(env, a, {}) && KeysMet(env, b, {})
    ensures HashOf(env, a, mapFreeVars).Some? <==> HashOf(env, b, mapFreeVars).Some?
    ensures HashOf(env, a, mapFreeVars).Some? ==> HashOf(env, a, mapFreeVars) != HashOf(env, b, mapFreeVars)
  {
    hide Tells, OneChange, Placed, KeysMet, HashedAny;
    ChangeSeen(env, a, b, last, mapFreeVars, NO_MEMO);
    TreeMemoIsIrrelevant(env, a, mapFreeVars);
    TreeMemoIsIrrelevant(env, b, mapFreeVars);
  }

  /** Two graph nodes, or free variables that may be mapped, met for the first time, whose fields differ in one leaf. */
  ghost predicate NodeChange(env: Env, a: Value, b: Value, free: bool, s: Memo) {
    && a.Obj? && b.Obj? && a.tindex == b.tindex && a.id !in s.hash && b.id !in s.hash
    && (Info(env, a).kind.DAGNode? || (Info(env, a).kind.FreeVar? && free))
    && exists i ::
      DifferAt(a.fields, b.fields, i) && OneChange(env, a.fields[i], b.fields[i], false) &&
      FieldHashed(Info(env, a), i, |a.fields|, false)
  }

  /** What such a node holds takes part in the hash under which it is remembered. */
  lemma {:induction false} NodeChangeSeen(env: Env, a: Value, b: Value, free: bool, s: Memo)
    requires Tells(env, false) && Standing(env, a, b, s) && NodeChange(env, a, b, free, s)
    ensures var r, q := HashedAny(env, a, free, false, s), HashedAny(env, b, free, false, s);
            r.ok == q.ok && (r.ok ==> r.hash != q.hash)
  {
    hide OneChange, HashedAll, FieldHashed;
    var info := Info(env, a);
    var i :| DifferAt(a.fields, b.fields, i) && OneChange(env, a.fields[i], b.fields[i], false) &&
             FieldHashed(info, i, |a.fields|, false);
    FieldOnly(info, i, |a.fields|);
    AllChangeSeen(env, info.keyHash, a.fields, b.fields, i, info.modes, false, free, s);
    NodeHash(env, a, free, s);
    NodeHash(env, b, free, s);
    hide HashedAny, HashedObject, Placed;
  }

  lemma FieldOnly(info: TypeInfo, i: nat, n: nat)
    requires FieldHashed(info, i, n, false)
    ensures i < |info.modes| && !info.modes[i].Ignored?
  {
  }

  lemma NodeHash(env: Env, v: Value, free: bool, s: Memo)
    requires v.Obj? && v.id !in s.hash
    requires Info(env, v).kind.DAGNode? || (Info(env, v).kind.FreeVar? && free)
    ensures var r, h := HashedAll(env, Info(env, v).keyHash, v.fields, Info(env, v).modes, free, false, s),
                        HashedAny(env, v, free, false, s);
            if !Info(env, v).hasMetadata then !h.ok
            else h.ok == r.ok && (r.ok ==> h.hash == env.combine(r.hash, Counter(Info(env, v).kind, r.memo)))
  {
    hide HashedAll;
  }

  function Counter(kind: Kind, m: Memo): Hash { Bits(if kind.FreeVar? then m.freeVars else m.graphNodes) }

  // ---------------------------------------------------- the combine in use

  /** StableHashCombine tells its second argument apart. */
  lemma {:induction false} StableCombineTellsValues(combine: (Hash, Hash) -> Hash)
    requires forall h, x :: combine(h, x) == StableHashCombine(h, x)
    ensures TellsValues(combine)
  {
    hide StableHashCombine, Undo;
    forall h, x, y | combine(h, x) == combine(h, y) ensures x == y {
      UndoCombine(h, x);
      UndoCombine(h, y);
    }
  }

  lemma {:induction false} HashOfPair(env: Env, id: nat, x: Value, z: Value, free: bool)
    requires Leaf(x) && Leaf(z)
    ensures HashOf(env, Arr(id, [x, z]), free) == Some(
              env.combine(env.combine(env.combine(env.arrayKeyHash, Bits(2)), LeafHash(env, x)), LeafHash(env, z)))
  {
    hide LeafHash, HashedAny, Bits;
    LeafHashed(env, x, free);
    LeafHashed(env, z, free);
    ArrayHashed(env, id, [x, z], free);
    var h := env.combine(env.arrayKeyHash, Bits(2));
    var modes := AllOrdinary(2);
    assert [x, z][1..] == [z] && modes[1..][0] == Ordinary;
    assert HashedAll(env, env.combine(h, LeafHash(env, x)), [z], modes[1..], free, true, NO_MEMO) ==
           Hashed(true, env.combine(env.combine(h, LeafHash(env, x)), LeafHash(env, z)), NO_MEMO);
  }

  lemma LeafHashed(env: Env, x: Value, free: bool)
    requires Leaf(x)
    ensures HashedAny(env, x, free, true, NO_MEMO) == Hashed(true, LeafHash(env, x), NO_MEMO)
  {
    hide HashCell, HashFrom;
  }

  lemma ArrayHashed(env: Env, id: nat, xs: seq<Value>, free: bool)
    ensures HashedAny(env, Arr(id, xs), free, true, NO_MEMO) ==
            HashedAll(env, env.combine(env.arrayKeyHash, Bits(|xs|)), xs, AllOrdinary(|xs|), free, true, NO_MEMO)
  {
    hide HashedAll;
  }

  function IntCell(word: nat): (v: Value)
    requires word < WORD
    ensures Leaf(v)
  {
    Plain(Cell(1, 0, word))
  }

  lemma IntHash(env: Env, word: nat, bits: Hash)
    requires word < WORD && Bits(word) == bits
    requires forall h, x :: env.combine(h, x) == StableHashCombine(h, x)
    ensures LeafHash(env, IntCell(word)) == StableHashCombine(1, bits)
  {
    hide StableHashCombine;
    assert Bits(1) == 1;
  }

  lemma RedoOf(h: bv64, r: bv64)
    ensures StableHashCombine(h, (r ^ h) - (0x9e3779b9 + (h << 6) + (h >> 2))) == r
  {
  }

  lemma CombineUndone(h: bv64, r: bv64)
    ensures StableHashCombine(h, Undo(h, r)) == r
  {
    hide StableHashCombine;
    RedoOf(h, r);
  }

  lemma NumberOf(b: Hash) returns (w: nat)
    ensures w < WORD && Bits(w) == b
  {
    w := b as nat;
    WordsBack(b);
  }

  /** An integer that takes the hash from h to r. */
  lemma IntTo(h: Hash, r: Hash) returns (w: nat)
    ensures w < WORD && StableHashCombine(h, StableHashCombine(1, Bits(w))) == r
  {
    hide StableHashCombine, Undo, Bits;
    w := NumberOf(Undo(1, Undo(h, r)));
    CombineUndone(h, r);
    CombineUndone(1, Undo(h, r));
  }

  lemma TheyMeet()
    ensures StableHashCombine(1, 0) == 0x9e3779f8
    ensures StableHashCombine(0xb3ffffffff0ebb0f, 0x9e3779f8) == 0x9effffff00efdd3b
    ensures StableHashCombine(0xbfc52640b93c5608, 0x9e3779f8) == 0x9effffff00efdd3b
  {
  }

  /** But not its first: whatever the key of the array type, there are two arrays of two integers that differ in the
      first one alone and have the same hash. */
  lemma {:induction false} EarlierChangeMayBeLost(env: Env, free: bool) returns (v: nat, w: nat)
    requires forall h, x :: env.combine(h, x) == StableHashCombine(h, x)
    ensures v < WORD && w < WORD
    ensures var a, b := Arr(1, [IntCell(v), IntCell(0)]), Arr(2, [IntCell(w), IntCell(0)]);
            OneChange(env, a, b, false) && HashOf(env, a, free) == HashOf(env, b, free)
  {
    hide StableHashCombine, HashOf, LeafHash;
    var h := StableHashCombine(env.arrayKeyHash, Bits(2));
    v := IntTo(h, 0xb3ffffffff0ebb0f);
    w := IntTo(h, 0xbfc52640b93c5608);
    assert Bits(0) == 0;
    hide Bits;
    TheyMeet();
    var x, y, z := IntCell(v), IntCell(w), IntCell(0);
    IntHash(env, v, Bits(v));
    IntHash(env, w, Bits(w));
    IntHash(env, 0, 0);
    HashOfPair(env, 1, x, z, free);
    HashOfPair(env, 2, y, z, free);
    assert DifferAt([x, z], [y, z], 0) && OneChange(env, x, y, false);
  }
}
