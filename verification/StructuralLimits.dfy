// Where the law of equality and hash ends: values that are equal and have
// different hashes.
module StructuralLimits {
  import opened AnyCells
  import opened AssocList
  import opened HashOrder
  import opened StructuralValues
  import opened StructuralEqual
  import opened StructuralHash
  import opened StructuralLaw

  /** The hash function tells the graph node numbered 0 from the one numbered 1, after the same other content. */
  ghost predicate TellsCounters(env: Env, keyHash: Hash) {
    var hd, he := env.combine(0, Bits(0)), env.combine(0, Bits(1));
    var h := env.combine(env.combine(env.arrayKeyHash, Bits(2)), env.combine(keyHash, hd));
    env.combine(h, hd) != env.combine(h, he)
  }

  /** StableHashCombine does. */
  lemma {:induction false} StableCombineTells(env: Env)
    requires env.arrayKeyHash == 0 && forall k, v :: env.combine(k, v) == StableHashCombine(k, v)
    ensures TellsCounters(env, 0)
  {
    assert Bits(0) == 0 && Bits(1) == 1 && Bits(2) == 2;
    assert StableHashCombine(0, 0) == 0x9e3779b9 && StableHashCombine(0, 1) == 0x9e3779ba;
    assert StableHashCombine(0, 2) == 0x9e3779bb && StableHashCombine(0, 0x9e3779b9) == 0x13c6ef372;
    assert StableHashCombine(0x9e3779bb, 0x13c6ef372) == 0x290e25c3e2;
    assert StableHashCombine(0x290e25c3e2, 0x9e3779b9) == 0xa66074c9f08;
    assert StableHashCombine(0x290e25c3e2, 0x9e3779ba) == 0xa66074c9f09;
  }

  /**
   * The law fails for a unique or constant node that holds a graph node, or a free variable that is mapped elsewhere:
   * equal by its pointer, its contents are not matched, but they are hashed, so the leaf inside is numbered before the
   * comparison has met it.
   */
  lemma {:induction false} PointerShortcutBreaksTheLaw(env: Env, keyHash: Hash, kind: Kind, leaf: Kind)
    requires kind.UniqueInstance? || kind.ConstTreeNode?
    requires Recorded(leaf) && env.types(200) == TypeInfo(true, leaf, [], 0)
    requires env.types(201) == TypeInfo(true, kind, [Ordinary], keyHash) && TellsCounters(env, keyHash)
    ensures var d, e := Obj(1, 200, []), Obj(2, 200, []);
            var u := Obj(3, 201, [d]);
            var a, b, free := Arr(4, [u, d]), Arr(5, [u, e]), leaf.FreeVar?;
            Equal(env, a, b, free).True? && HashOf(env, a, free).Some? && HashOf(env, b, free).Some? &&
            HashOf(env, a, free) != HashOf(env, b, free)
  {
    hide Equal, EqAll, HashOf, HashedAll, Bits, Finish;
    var d, e := Obj(1, 200, []), Obj(2, 200, []);
    var u := Obj(3, 201, [d]);
    var hd, he := env.combine(0, Bits(0)), env.combine(0, Bits(1));
    var hu := env.combine(keyHash, hd);
    var s := Counted(leaf, map[1 := hd, 3 := hu], 1);
    var free := leaf.FreeVar?;
    ShortcutEqual(env, d, e, u, AllOrdinary(2));
    HashOfHolder(env, d, u, hd, hu);
    HashOfLeaf(env, e, leaf, s.hash, 1);
    PairEqual(env, 4, 5, [u, d], [u, e], free);
    PairHashed(env, 4, u, d, free, hu, s, hd, s);
    PairHashed(env, 5, u, e, free, hu, s, he, Counted(leaf, s.hash[2 := he], 2));
  }

  /** The memo after n objects of the kind. */
  function Counted(leaf: Kind, hash: map<nat, Hash>, n: nat): Memo {
    if leaf.FreeVar? then Memo(hash, n, 0) else Memo(hash, 0, n)
  }

  lemma {:induction false} ShortcutEqual(env: Env, d: Value, e: Value, u: Value, modes: seq<FieldMode>)
    requires d == Obj(1, 200, []) && e == Obj(2, 200, []) && u.Obj? && modes == AllOrdinary(2)
    requires env.types(200).hasMetadata && env.types(200).modes == [] && Recorded(env.types(200).kind)
    requires Info(env, u).hasMetadata && (Info(env, u).kind.UniqueInstance? || Info(env, u).kind.ConstTreeNode?)
    ensures EqAll(env, [u, d], [u, e], modes, env.types(200).kind.FreeVar?, false, NO_MAPS).out.True?
  {
    var free := env.types(200).kind.FreeVar?;
    assert EqObject(env, u, u, free, false, NO_MAPS) == Compared(True, NO_MAPS);
    assert EqObject(env, d, e, free, false, NO_MAPS).out.True?;
    assert [u, d][1..] == [d] && [u, e][1..] == [e];
    assert modes[1..][0].Ordinary?;
    assert EqAll(env, [d], [e], modes[1..], free, false, NO_MAPS).out.True?;
  }

  lemma {:induction false} HashOfHolder(env: Env, d: Value, u: Value, hd: Hash, hu: Hash)
    requires d == Obj(1, 200, []) && u == Obj(3, 201, [d])
    requires Recorded(env.types(200).kind) && env.types(200) == TypeInfo(true, env.types(200).kind, [], 0)
    requires var info := env.types(201);
             info.hasMetadata && (info.kind.UniqueInstance? || info.kind.ConstTreeNode?) && info.modes == [Ordinary]
    requires hd == env.combine(0, Bits(0)) && hu == env.combine(env.types(201).keyHash, hd)
    ensures var leaf := env.types(200).kind;
            HashedObject(env, u, leaf.FreeVar?, true, NO_MEMO) ==
            Hashed(true, hu, Counted(leaf, map[1 := hd, 3 := hu], 1))
  {
    var leaf := env.types(200).kind;
    var s := Counted(leaf, map[1 := hd], 1);
    HashOfLeaf(env, d, leaf, map[], 0);
    assert HashedAll(env, env.types(201).keyHash, [d], [Ordinary], leaf.FreeVar?, true, NO_MEMO) == Hashed(true, hu, s);
  }

  lemma {:induction false} HashOfLeaf(env: Env, e: Value, leaf: Kind, m: map<nat, Hash>, n: nat)
    requires e.Obj? && e.fields == [] && env.types(e.tindex) == TypeInfo(true, leaf, [], 0) && Recorded(leaf)
    requires e.id !in m && n < 2
    ensures var h := env.combine(0, Bits(n));
            HashedObject(env, e, leaf.FreeVar?, true, Counted(leaf, m, n)) ==
            Hashed(true, h, Counted(leaf, m[e.id := h], n + 1))
  {
  }

  lemma {:induction false} PairHashed(env: Env, id: nat, x: Value, y: Value, free: bool, hx: Hash, t: Memo, hy: Hash,
          w: Memo)
    requires HashedAny(env, x, free, true, NO_MEMO) == Hashed(true, hx, t)
    requires HashedAny(env, y, free, true, t) == Hashed(true, hy, w)
    ensures HashOf(env, Arr(id, [x, y]), free)
         == Some(env.combine(env.combine(env.combine(env.arrayKeyHash, Bits(2)), hx), hy))
  {
    hide HashedAll, Bits;
    PairFolded(env, env.combine(env.arrayKeyHash, Bits(2)), x, y, AllOrdinary(2), free, hx, t, hy, w);
  }

  lemma {:induction false} PairFolded(env: Env, h: Hash, x: Value, y: Value, modes: seq<FieldMode>, free: bool,
          hx: Hash, t: Memo, hy: Hash, w: Memo)
    requires modes == AllOrdinary(2)
    requires HashedAny(env, x, free, true, NO_MEMO) == Hashed(true, hx, t)
    requires HashedAny(env, y, free, true, t) == Hashed(true, hy, w)
    ensures HashedAll(env, h, [x, y], modes, free, true, NO_MEMO)
         == Hashed(true, env.combine(env.combine(h, hx), hy), w)
  {
    assert [x, y][1..] == [y] && [x, y][1..][1..] == [];
    assert modes[1..][0].Ordinary?;
    assert HashedAll(env, env.combine(h, hx), [y], modes[1..], free, true, t)
        == Hashed(true, env.combine(env.combine(h, hx), hy), w);
  }

  lemma PairEqual(env: Env, i: nat, j: nat, xs: seq<Value>, ys: seq<Value>, free: bool)
    requires |xs| == |ys|
    ensures Equal(env, Arr(i, xs), Arr(j, ys), free) == EqAll(env, xs, ys, AllOrdinary(|xs|), free, false, NO_MAPS).out
  {
    hide EqAll;
  }

  /** The hash function tells an entry of a map that is hashed, with key hash k and value hash v, from one passed
      over. */
  ghost predicate TellsEntries(env: Env, k: Hash, v: Hash) {
    var start, none := env.combine(env.combine(env.arrayKeyHash, Bits(2)), k), env.combine(env.mapKeyHash, Bits(1));
    env.combine(start, env.combine(env.combine(none, k), v)) != env.combine(start, none)
  }

  /** StableHashCombine does. */
  lemma {:induction false} StableCombineTellsEntries(env: Env)
    requires env.arrayKeyHash == 0 && env.mapKeyHash == 0
    requires forall k, v :: env.combine(k, v) == StableHashCombine(k, v)
    ensures TellsEntries(env, 0, 0x9e3779b9)
  {
    assert Bits(1) == 1 && Bits(2) == 2;
    assert StableHashCombine(0, 1) == 0x9e3779ba && StableHashCombine(0, 2) == 0x9e3779bb;
  }

  /**
   * It fails for a tree node that is the key of a map: the map is hashed with its entry when that very object has been
   * hashed before, and without it when a copy has, which compares as equal.
   */
  lemma {:induction false} TreeKeysBreakTheLaw(env: Env, keyHash: Hash)
    requires env.types(201) == TypeInfo(true, TreeNode, [], keyHash)
    requires TellsEntries(env, keyHash, HashCell(env, Cell(0, 0, 0)))
    ensures var k, t, u := Plain(Cell(0, 0, 0)), Obj(1, 201, []), Obj(2, 201, []);
            var d := Dict(3, [t], [k]);
            var a, b := Arr(4, [t, d]), Arr(5, [u, d]);
            Equal(env, a, b, false).True? && HashOf(env, a, false).Some? && HashOf(env, b, false).Some? &&
            HashOf(env, a, false) != HashOf(env, b, false)
  {
    hide Equal, EqAll, HashOf, HashedAll, HashedEntries, Bits, HashCell;
    var k, t, u := Plain(Cell(0, 0, 0)), Obj(1, 201, []), Obj(2, 201, []);
    var d := Dict(3, [t], [k]);
    var none := env.combine(env.mapKeyHash, Bits(1));
    var some := env.combine(env.combine(none, keyHash), HashCell(env, k.cell));
    var s, w := Memo(map[1 := keyHash], 0, 0), Memo(map[2 := keyHash], 0, 0);
    CopiesEqual(env, t, u, d, AllOrdinary(2));
    HashOfTree(env, t, keyHash);
    HashOfTree(env, u, keyHash);
    EntryCounted(env, none, k, keyHash, s);
    EntryPassedOver(env, none, k, w);
    assert KeyHashes(env, [t], 1, s.hash) == [Some(keyHash)] && KeyHashes(env, [t], 1, w.hash) == [None];
    PairEqual(env, 4, 5, [t, d], [u, d], false);
    PairHashed(env, 4, t, d, false, keyHash, s, some, s);
    PairHashed(env, 5, u, d, false, keyHash, w, none, w);
  }

  lemma {:induction false} HashOfTree(env: Env, v: Value, keyHash: Hash)
    requires v.Obj? && v.fields == [] && Info(env, v) == TypeInfo(true, TreeNode, [], keyHash)
    ensures HashedObject(env, v, false, true, NO_MEMO) == Hashed(true, keyHash, Memo(map[v.id := keyHash], 0, 0))
  {
  }

  lemma {:induction false} CopiesEqual(env: Env, t: Value, u: Value, d: Value, modes: seq<FieldMode>)
    requires env.types(201).hasMetadata && env.types(201).kind.TreeNode? && modes == AllOrdinary(2)
    requires t == Obj(1, 201, []) && u == Obj(2, 201, []) && d == Dict(3, [t], [Plain(Cell(0, 0, 0))])
    ensures EqAll(env, [t, d], [u, d], modes, false, false, NO_MAPS).out.True?
  {
    assert EqObject(env, t, u, false, false, NO_MAPS) == Compared(True, NO_MAPS);
    assert Partner(env, NO_MAPS, t) == t && IndexOf([t], t) == 0;
    assert EqEntries(env, [t], d.values, [t], d.values, false, false, NO_MAPS) == Compared(True, NO_MAPS);
    assert [t, d][1..] == [d] && [u, d][1..] == [d];
    assert modes[1..][0].Ordinary?;
    assert EqAll(env, [d], [d], modes[1..], false, false, NO_MAPS).out.True?;
  }

  lemma {:induction false} EntryCounted(env: Env, h: Hash, v: Value, k: Hash, s: Memo)
    requires v.Plain?
    ensures HashedEntries(env, h, [v], [Some(k)], None, false, true, s)
         == Hashed(true, env.combine(env.combine(h, k), HashCell(env, v.cell)), s)
  {
    hide HashCell;
    var hs := [Some(k)];
    assert hs[0] == Some(k) && Beyond(hs[0], None);
    var n := Next(hs, None);
    assert n == Some(k) && Holder(hs, k) == 0;
    LessIsOrder(k, k, k);
    assert Next(hs, n) == None;
  }

  lemma {:induction false} EntryPassedOver(env: Env, h: Hash, v: Value, s: Memo)
    ensures HashedEntries(env, h, [v], [None], None, false, true, s) == Hashed(true, h, s)
  {
  }

  /**
   * And for a graph node that is the key of a map before it has been met: a tree node with such a map, met once more
   * after the graph node, keeps its hash, while a copy of it, which compares as equal, is hashed with the entry.
   */
  lemma {:induction false} UnmetKeysBreakTheLaw(env: Env, keyHash: Hash)
    requires env.types(200) == TypeInfo(true, DAGNode, [], 0) && env.heap(1) == Obj(1, 200, [])
    requires env.types(201) == TypeInfo(true, TreeNode, [Ordinary], keyHash) && TellsCopies(env, keyHash)
    ensures var k, d := Plain(Cell(0, 0, 0)), Obj(1, 200, []);
            var m := Dict(2, [d], [k]);
            var t, u := Obj(3, 201, [m]), Obj(4, 201, [m]);
            var a, b := Arr(5, [t, d, t]), Arr(6, [t, d, u]);
            Equal(env, a, b, false).True? && HashOf(env, a, false).Some? && HashOf(env, b, false).Some? &&
            HashOf(env, a, false) != HashOf(env, b, false)
  {
    hide Equal, EqAll, HashOf, HashedAll, HashedEntries, Bits, HashCell;
    var k, d := Plain(Cell(0, 0, 0)), Obj(1, 200, []);
    var m := Dict(2, [d], [k]);
    var t, u := Obj(3, 201, [m]), Obj(4, 201, [m]);
    var hd := env.combine(0, Bits(0));
    var none, some := PassedOver(env, keyHash), Counting(env, keyHash);
    var s, w := Memo(map[3 := none], 0, 0), Memo(map[3 := none, 1 := hd], 0, 1);
    SharedEqual(env, d, m, t, u);
    PairEqual(env, 5, 6, [t, d, t], [t, d, u], false);
    HolderOfMap(env, d, m, t, NO_MEMO);
    HashOfLeaf(env, d, DAGNode, s.hash, 0);
    HolderOfMap(env, d, m, u, w);
    TripleHashed(env, 5, t, d, t, none, s, hd, w, none, w);
    TripleHashed(env, 6, t, d, u, none, s, hd, w, some, w.(hash := w.hash[4 := some]));
  }

  /** The hash of the tree node while the key of its map has not been met, and afterwards. */
  function PassedOver(env: Env, keyHash: Hash): Hash { env.combine(keyHash, env.combine(env.mapKeyHash, Bits(1))) }

  function Counting(env: Env, keyHash: Hash): Hash {
    var entry := env.combine(env.combine(env.mapKeyHash, Bits(1)), env.combine(0, Bits(0)));
    env.combine(keyHash, env.combine(entry, HashCell(env, Cell(0, 0, 0))))
  }

  /** The hash function tells the two at the end of the array. */
  ghost predicate TellsCopies(env: Env, keyHash: Hash) {
    var start := env.combine(env.combine(env.arrayKeyHash, Bits(3)), PassedOver(env, keyHash));
    var h := env.combine(start, env.combine(0, Bits(0)));
    env.combine(h, PassedOver(env, keyHash)) != env.combine(h, Counting(env, keyHash))
  }

  lemma {:induction false} HolderOfMap(env: Env, d: Value, m: Value, t: Value, s: Memo)
    requires d == Obj(1, 200, []) && m == Dict(2, [d], [Plain(Cell(0, 0, 0))]) && t.Obj? && t.fields == [m]
    requires Info(env, t).hasMetadata && Info(env, t).kind.TreeNode? && Info(env, t).modes == [Ordinary]
    requires t.id !in s.hash && (1 in s.hash ==> s.hash[1] == env.combine(0, Bits(0)))
    ensures var key := Info(env, t).keyHash;
            var h := if 1 in s.hash then Counting(env, key) else PassedOver(env, key);
            HashedObject(env, t, false, true, s) == Hashed(true, h, s.(hash := s.hash[t.id := h]))
  {
    hide HashedEntries, Bits, HashCell, HashedAny;
    MapFolded(env, d, m, s);
    var r := HashedAny(env, m, false, true, s);
    assert [m][1..] == [];
    assert HashedAll(env, Info(env, t).keyHash, [m], [Ordinary], false, true, s)
        == Hashed(true, env.combine(Info(env, t).keyHash, r.hash), s);
  }

  lemma {:induction false} MapFolded(env: Env, d: Value, m: Value, s: Memo)
    requires d == Obj(1, 200, []) && m == Dict(2, [d], [Plain(Cell(0, 0, 0))])
    ensures var none := env.combine(env.mapKeyHash, Bits(1));
            var h := if 1 in s.hash then env.combine(env.combine(none, s.hash[1]), HashCell(env, Cell(0, 0, 0)))
                     else none;
            HashedAny(env, m, false, true, s) == Hashed(true, h, s)
  {
    hide HashedEntries, Bits, HashCell;
    var none := env.combine(env.mapKeyHash, Bits(1));
    var hs := KeyHashes(env, m.keys, 1, s.hash);
    assert |m.keys| == 1 && |m.values| == 1 && m.values == [Plain(Cell(0, 0, 0))];
    if 1 in s.hash {
      assert hs == [Some(s.hash[1])];
      EntryCounted(env, none, Plain(Cell(0, 0, 0)), s.hash[1], s);
    } else {
      assert hs == [None];
      EntryPassedOver(env, none, Plain(Cell(0, 0, 0)), s);
    }
  }

  lemma {:induction false} SharedEqual(env: Env, d: Value, m: Value, t: Value, u: Value)
    requires env.types(200) == TypeInfo(true, DAGNode, [], 0) && env.heap(1) == d && d == Obj(1, 200, [])
    requires env.types(201).hasMetadata && env.types(201).kind.TreeNode? && env.types(201).modes == [Ordinary]
    requires m == Dict(2, [d], [Plain(Cell(0, 0, 0))]) && t == Obj(3, 201, [m]) && u == Obj(4, 201, [m])
    ensures EqAll(env, [t, d, t], [t, d, u], AllOrdinary(3), false, false, NO_MAPS).out.True?
  {
    hide EqAll, EqAny;
    var o := Record(NO_MAPS, 1, 1);
    CopyEqual(env, d, m, t, t, NO_MAPS);
    CopyEqual(env, d, m, t, u, o);
    LeafRecorded(env, d);
    assert AllOrdinary(3)[1..] == AllOrdinary(2) && AllOrdinary(2)[1..] == AllOrdinary(1);
    assert [t, d, t][1..] == [d, t] && [t, d, u][1..] == [d, u];
    assert [d, t][1..] == [t] && [d, u][1..] == [u] && [t][1..] == [] && [u][1..] == [];
    FirstsEqual(env, [t, d, t], [t, d, u], AllOrdinary(3), NO_MAPS, NO_MAPS);
    FirstsEqual(env, [d, t], [d, u], AllOrdinary(2), NO_MAPS, o);
    FirstsEqual(env, [t], [u], AllOrdinary(1), o, o);
    NoneEqual(env, AllOrdinary(1)[1..], o);
  }

  lemma {:induction false} FirstsEqual(env: Env, xs: seq<Value>, ys: seq<Value>, modes: seq<FieldMode>, m: Maps,
          n: Maps)
    requires xs != [] && ys != [] && modes != [] && modes[0].Ordinary?
    requires EqAny(env, xs[0], ys[0], false, false, m) == Compared(True, n)
    ensures EqAll(env, xs, ys, modes, false, false, m) == EqAll(env, xs[1..], ys[1..], modes[1..], false, false, n)
  {
    hide EqAny;
  }

  lemma NoneEqual(env: Env, modes: seq<FieldMode>, m: Maps)
    ensures EqAll(env, [], [], modes, false, false, m) == Compared(True, m)
  {
  }

  lemma LeafRecorded(env: Env, d: Value)
    requires env.types(200) == TypeInfo(true, DAGNode, [], 0) && d == Obj(1, 200, [])
    ensures EqAny(env, d, d, false, false, NO_MAPS) == Compared(True, Record(NO_MAPS, 1, 1))
  {
  }

  /** Tree nodes with one map between them, whose key stands for itself. */
  lemma {:induction false} CopyEqual(env: Env, d: Value, m: Value, t: Value, u: Value, o: Maps)
    requires d.Obj? && env.heap(d.id) == d && (d.id in o.lhs ==> o.lhs[d.id] == d.id)
    requires m == Dict(2, [d], [Plain(Cell(0, 0, 0))]) && t.Obj? && u.Obj? && t.tindex == u.tindex
    requires t.fields == [m] && u.fields == [m]
    requires Info(env, t).hasMetadata && Info(env, t).kind.TreeNode? && Info(env, t).modes == [Ordinary]
    ensures EqAny(env, t, u, false, false, o) == Compared(True, o)
  {
    assert Partner(env, o, d) == d && IndexOf([d], d) == 0;
    assert EqEntries(env, [d], m.values, [d], m.values, false, false, o) == Compared(True, o);
    assert EqAny(env, m, m, false, false, o) == Compared(True, o);
    FirstsEqual(env, [m], [m], [Ordinary], o, o);
    NoneEqual(env, [Ordinary][1..], o);
  }

  lemma {:induction false} TripleHashed(env: Env, id: nat, x: Value, y: Value, z: Value, hx: Hash, t: Memo, hy: Hash,
          w: Memo, hz: Hash, o: Memo)
    requires HashedAny(env, x, false, true, NO_MEMO) == Hashed(true, hx, t)
    requires HashedAny(env, y, false, true, t) == Hashed(true, hy, w)
    requires HashedAny(env, z, false, true, w) == Hashed(true, hz, o)
    ensures HashOf(env, Arr(id, [x, y, z]), false)
         == Some(env.combine(env.combine(env.combine(env.combine(env.arrayKeyHash, Bits(3)), hx), hy), hz))
  {
    hide HashedAll, HashedAny, Bits;
    var h := env.combine(env.arrayKeyHash, Bits(3));
    assert AllOrdinary(3)[1..] == AllOrdinary(2) && AllOrdinary(2)[1..] == AllOrdinary(1);
    assert [x, y, z][1..] == [y, z] && [y, z][1..] == [z] && [z][1..] == [];
    ArrayFolded(env, Arr(id, [x, y, z]));
    FirstFolded(env, h, [x, y, z], AllOrdinary(3), NO_MEMO);
    FirstFolded(env, env.combine(h, hx), [y, z], AllOrdinary(2), t);
    FirstFolded(env, env.combine(env.combine(h, hx), hy), [z], AllOrdinary(1), w);
    NoneFolded(env, env.combine(env.combine(env.combine(h, hx), hy), hz), AllOrdinary(1)[1..], o);
  }

  lemma ArrayFolded(env: Env, v: Value)
    requires v.Arr?
    ensures var r := HashedAll(env, env.combine(env.arrayKeyHash, Bits(|v.items|)), v.items, AllOrdinary(|v.items|),
                               false, true, NO_MEMO);
            HashOf(env, v, false) == if r.ok then Some(r.hash) else None
  {
    hide HashedAll, Bits;
  }

  lemma {:induction false} FirstFolded(env: Env, h: Hash, xs: seq<Value>, modes: seq<FieldMode>, s: Memo)
    requires xs != [] && modes != [] && modes[0].Ordinary? && HashedAny(env, xs[0], false, true, s).ok
    ensures var r := HashedAny(env, xs[0], false, true, s);
            HashedAll(env, h, xs, modes, false, true, s) ==
            HashedAll(env, env.combine(h, r.hash), xs[1..], modes[1..], false, true, r.memo)
  {
    hide HashedAny;
  }

  lemma NoneFolded(env: Env, h: Hash, modes: seq<FieldMode>, s: Memo)
    ensures HashedAll(env, h, [], modes, false, true, s) == Hashed(true, h, s)
  {
  }

  /**
   * And for a map that uses a free variable under one key and defines it under another, when the comparison comes to
   * the definition first and hashing, which takes the keys by their hashes, to the use.
   */
  lemma {:induction false} OrderBreaksTheLaw(env: Env, keyHash: Hash)
    requires env.types(200) == TypeInfo(true, FreeVar, [], 0)
    requires env.types(201) == TypeInfo(true, TreeNode, [Def], keyHash)
    requires Less(CellHash(env, 1), CellHash(env, 0)) && TellsPointers(env, keyHash)
    ensures var k, l, x, y := Plain(Cell(0, 0, 0)), Plain(Cell(0, 0, 1)), Obj(1, 200, []), Obj(2, 200, []);
            var f, g := Obj(3, 201, [x]), Obj(4, 201, [y]);
            var a, b := Dict(5, [k, l], [f, x]), Dict(6, [k, l], [g, y]);
            Equal(env, a, b, false).True? && HashOf(env, a, false).Some? && HashOf(env, b, false).Some? &&
            HashOf(env, a, false) != HashOf(env, b, false)
  {
    hide Equal, EqEntries, HashOf, Bits;
    var k, l, x, y := Plain(Cell(0, 0, 0)), Plain(Cell(0, 0, 1)), Obj(1, 200, []), Obj(2, 200, []);
    var f, g := Obj(3, 201, [x]), Obj(4, 201, [y]);
    DefinitionFirst(env, k, l, x, y, f, g);
    UseFirst(env, 5, k, l, x, f, keyHash);
    UseFirst(env, 6, k, l, y, g, keyHash);
  }

  /** The hash of a key of type index 0. */
  function CellHash(env: Env, word: nat): Hash { env.combine(Bits(0), Bits(word)) }

  /** The hash of the map, with a free variable hashed by its pointer. */
  function ByUse(env: Env, keyHash: Hash, pointer: Hash): Hash {
    var used := env.combine(env.combine(env.combine(env.mapKeyHash, Bits(2)), CellHash(env, 1)), pointer);
    env.combine(env.combine(used, CellHash(env, 0)), env.combine(keyHash, pointer))
  }

  /** The hash function tells the pointers of the two free variables. */
  ghost predicate TellsPointers(env: Env, keyHash: Hash) {
    ByUse(env, keyHash, env.pointerHash(1)) != ByUse(env, keyHash, env.pointerHash(2))
  }

  lemma {:induction false} DefinitionFirst(env: Env, k: Value, l: Value, x: Value, y: Value, f: Value, g: Value)
    requires env.types(200) == TypeInfo(true, FreeVar, [], 0)
    requires env.types(201).hasMetadata && env.types(201).kind.TreeNode? && env.types(201).modes == [Def]
    requires k == Plain(Cell(0, 0, 0)) && l == Plain(Cell(0, 0, 1)) && x == Obj(1, 200, []) && y == Obj(2, 200, [])
    requires f == Obj(3, 201, [x]) && g == Obj(4, 201, [y])
    ensures Equal(env, Dict(5, [k, l], [f, x]), Dict(6, [k, l], [g, y]), false) == True
  {
    var m := Record(NO_MAPS, 1, 2);
    assert EqObject(env, x, y, true, false, NO_MAPS) == Compared(True, m);
    assert EqAll(env, [x], [y], [Def], false, false, NO_MAPS) == Compared(True, m);
    assert EqObject(env, f, g, false, false, NO_MAPS) == Compared(True, m);
    assert IndexOf([k, l], k) == 0;
    assert IndexOf([k, l], l) == 1 by { assert IndexOf([k, l][1..], l) == 0; }
    assert EqEntries(env, [l], [x], [k, l], [g, y], false, false, m) == Compared(True, m);
    assert [k, l][1..] == [l] && [f, x][1..] == [x];
    assert EqEntries(env, [k, l], [f, x], [k, l], [g, y], false, false, NO_MAPS) == Compared(True, m);
  }

  lemma {:induction false} UseFirst(env: Env, id: nat, k: Value, l: Value, x: Value, f: Value, keyHash: Hash)
    requires k == Plain(Cell(0, 0, 0)) && l == Plain(Cell(0, 0, 1)) && x.Obj? && x.fields == []
    requires Info(env, x) == TypeInfo(true, FreeVar, [], 0)
    requires f.Obj? && f.fields == [x] && f.id != x.id && Info(env, f) == TypeInfo(true, TreeNode, [Def], keyHash)
    requires Less(CellHash(env, 1), CellHash(env, 0))
    ensures HashOf(env, Dict(id, [k, l], [f, x]), false) == Some(ByUse(env, keyHash, env.pointerHash(x.id)))
  {
    hide HashedEntries, Bits, Less, HashFrom, HashCell, Next, Holder, Tied;
    var p := env.pointerHash(x.id);
    var s := NO_MEMO.(hash := NO_MEMO.hash[x.id := p]);
    var h := env.combine(env.mapKeyHash, Bits(2));
    assert HashedObject(env, x, false, true, NO_MEMO) == Hashed(true, p, s);
    assert [x][1..] == [] && HashedAny(env, x, true, true, s) == Hashed(true, p, s);
    assert HashedAll(env, keyHash, [x], [Def], false, true, s) == Hashed(true, env.combine(keyHash, p), s);
    TwoFolded(env, h, f, x, CellHash(env, 0), CellHash(env, 1), p, s, env.combine(keyHash, p));
    assert KeyHashes(env, [k, l], 2, map[]) == [Some(CellHash(env, 0)), Some(CellHash(env, 1))];
  }

  lemma {:induction false} TwoOrdered(hk: Hash, hl: Hash)
    requires Less(hl, hk)
    ensures var hs := [Some(hk), Some(hl)];
            && Next(hs, None) == Some(hl) && Next(hs, Some(hl)) == Some(hk) && Next(hs, Some(hk)) == None
            && Holder(hs, hk) == 0 && Holder(hs, hl) == 1 && !Tied(hs, hk) && !Tied(hs, hl)
  {
    hide Less;
    var hs := [Some(hk), Some(hl)];
    LessIsOrder(hl, hk, hl);
    LessIsOrder(hk, hk, hk);
    assert hs[0] == Some(hk) && hs[1] == Some(hl) && hs[0] in hs && hs[1] in hs;
    assert Beyond(Some(hl), None) && Beyond(Some(hk), Some(hl));
  }

  /** Two entries, the second with the lesser key hash. */
  lemma {:induction false} TwoFolded(env: Env, h: Hash, u: Value, v: Value, hk: Hash, hl: Hash, hv: Hash, s: Memo,
          hu: Hash)
    requires Less(hl, hk) && HashedAny(env, v, false, true, NO_MEMO) == Hashed(true, hv, s)
    requires var r := HashedAny(env, u, false, true, s); r.ok && r.hash == hu
    ensures var r := HashedEntries(env, h, [u, v], [Some(hk), Some(hl)], None, false, true, NO_MEMO);
            r.ok && r.hash == env.combine(env.combine(env.combine(env.combine(h, hl), hv), hk), hu)
  {
    hide HashedAny, Less, Tied, Next, Holder;
    var hs := [Some(hk), Some(hl)];
    TwoOrdered(hk, hl);
    var q := HashedAny(env, u, false, true, s);
    var g := env.combine(env.combine(h, hl), hv);
    assert HashedEntries(env, env.combine(env.combine(g, hk), hu), [u, v], hs, Some(hk), false, true, q.memo).ok;
    assert HashedEntries(env, g, [u, v], hs, Some(hl), false, true, s)
        == HashedEntries(env, env.combine(env.combine(g, hk), hu), [u, v], hs, Some(hk), false, true, q.memo);
  }

  /** It fails for short bytes stored in two ways: inline they are hashed by their own type index, on the heap by
      another. Each way alone is within the fragment. */
  lemma {:induction false} InlineBytesBreakTheLaw(env: Env)
    requires forall k, v :: env.combine(k, v) == StableHashCombine(k, v)
    ensures var a, b := Plain(Cell(SMALL_BYTES, 0, 0)), Text(BYTES, []);
            InFragment(env, a, true, {}) && InFragment(env, b, false, {}) &&
            Equal(env, a, b, false).True? && HashOf(env, a, false) != HashOf(env, b, false)
  {
    var a, b := Plain(Cell(SMALL_BYTES, 0, 0)), Text(BYTES, []);
    assert HashOf(env, a, false) == Some(StableHashCombine(12, 0)) &&
        HashOf(env, b, false) == Some(StableHashCombine(66, 0));
  }
}
