// What the slots of a dense map mean, on plain sequences: the jump chains and
// the iteration list. Home slots and probe steps are parameters here, so these
// lemmas hold for every hash function and every probing table.
module DenseLayout {
  import opened AssocList

  // One metadata byte per slot: a reserved code, or the head bit (clear on heads) and a 7-bit jump.
  const EMPTY: int := 0xFF
  const PROTECTED: int := 0xFE
  const NUM_JUMP_DISTS: int := 126
  const INVALID: int := 0xFFFF_FFFF_FFFF_FFFF

  /** The data part of a slot: raw storage, or a constructed key-value pair. */
  datatype Cell<K, V> = Raw | KV(key: K, val: V)

  /** home(k) is the slot a key hashes to; step(i, j) is the slot jump j leads to from i. */
  datatype Geometry<!K> = Geometry(n: nat, home: K -> int, step: (int, int) -> int)

  predicate Occ(m: int) { 0 <= m < 256 && m != EMPTY && m != PROTECTED }

  predicate IsHead(m: int) { m < 128 }

  function Jump(m: int): int {
    if m < 128 then m else m - 128
  }

  /** The byte with its head bit kept and its jump replaced. */
  function WithJump(m: int, j: int): (r: int)
    requires 0 <= j < NUM_JUMP_DISTS
    ensures IsHead(r) == IsHead(m) && Jump(r) == j && Occ(r)
  {
    if m < 128 then j else 128 + j
  }

  ghost predicate Sane<K(!new)>(g: Geometry<K>) {
    && g.n > 0
    && (forall k :: 0 <= g.home(k) < g.n)
  }

  ghost predicate Injective(s: seq<int>) {
    forall i, j :: 0 <= i < j < |s| ==> s[i] != s[j]
  }

  // ------------------------------------------------------------ jump chains

  /** The byte of slot a holds the jump that leads to slot b. */
  ghost predicate JumpsTo<K>(g: Geometry<K>, meta: seq<int>, a: int, b: int) {
    0 <= a < |meta| && 0 < Jump(meta[a]) < NUM_JUMP_DISTS && g.step(a, Jump(meta[a])) == b
  }

  /** c lists slots of home h in jump order: each jumps to the next, the last to none. */
  ghost predicate Linked<K, V>(g: Geometry<K>, meta: seq<int>, kv: seq<Cell<K, V>>, h: int, c: seq<int>)
    requires |meta| == |kv| == g.n
  {
    && Injective(c)
    && (forall k :: 0 <= k < |c| ==>
          0 <= c[k] < g.n && Occ(meta[c[k]]) && kv[c[k]].KV? && g.home(kv[c[k]].key) == h)
    && (forall k, l :: 0 <= k < l < |c| && l == k + 1 ==>
          JumpsTo(g, meta, c[k], c[l]))
    && (c != [] ==> Jump(meta[c[|c| - 1]]) == 0)
  }

  /** The chain of home slot h: it starts at h, and only its first slot carries the head bit. */
  ghost predicate Chain<K, V>(g: Geometry<K>, meta: seq<int>, kv: seq<Cell<K, V>>, h: int, c: seq<int>)
    requires |meta| == |kv| == g.n
  {
    && Linked(g, meta, kv, h, c)
    && (c != [] ==> c[0] == h)
    && (forall k :: 0 <= k < |c| ==> (IsHead(meta[c[k]]) <==> k == 0))
  }

  /** A cut-off end of the chain of home h0, still linked among itself. */
  ghost predicate Fragment<K, V>(g: Geometry<K>, meta: seq<int>, kv: seq<Cell<K, V>>, h0: int, f: seq<int>)
    requires |meta| == |kv| == g.n
  {
    && Linked(g, meta, kv, h0, f)
    && (forall k :: 0 <= k < |f| ==> !IsHead(meta[f[k]]))
  }

  ghost predicate Covered<K(!new), V>(g: Geometry<K>, meta: seq<int>, kv: seq<Cell<K, V>>, ch: seq<seq<int>>,
          f: seq<int>)
    requires Sane(g) && |meta| == |kv| == |ch| == g.n
  {
    forall i :: 0 <= i < g.n && Occ(meta[i]) ==> kv[i].KV? && (i in ch[g.home(kv[i].key)] || i in f)
  }

  /** Every occupied slot is on the chain of its key's home or on the fragment; only prot is protected. */
  ghost predicate Chained<K(!new), V>(g: Geometry<K>, meta: seq<int>, kv: seq<Cell<K, V>>, ch: seq<seq<int>>, h0: int,
          f: seq<int>, prot: int)
  {
    && Sane(g)
    && |meta| == |kv| == |ch| == g.n
    && (forall h :: 0 <= h < g.n ==> Chain(g, meta, kv, h, ch[h]))
    && Fragment(g, meta, kv, h0, f)
    && (f != [] ==> 0 <= h0 < g.n && forall k :: 0 <= k < |f| ==> f[k] !in ch[h0])
    && Covered(g, meta, kv, ch, f)
    && (forall i :: 0 <= i < g.n ==> Occ(meta[i]) || meta[i] == EMPTY || (meta[i] == PROTECTED && i == prot))
  }

  /** The state between operations: no fragment, no protected slot. */
  ghost predicate WellChained<K(!new), V>(g: Geometry<K>, meta: seq<int>, kv: seq<Cell<K, V>>, ch: seq<seq<int>>) {
    Chained(g, meta, kv, ch, 0, [], -1)
  }

  lemma OneChainEach<K(!new), V>(g: Geometry<K>, meta: seq<int>, kv: seq<Cell<K, V>>, ch: seq<seq<int>>, prot: int)
    requires Chained(g, meta, kv, ch, 0, [], prot)
    ensures |ch| == g.n
  {
  }

  /** There is one chain for every slot, most of them empty. */
  lemma ChainPerSlot<K(!new), V>(g: Geometry<K>, meta: seq<int>, kv: seq<Cell<K, V>>, ch: seq<seq<int>>)
    requires WellChained(g, meta, kv, ch)
    ensures |ch| == g.n
  {
  }

  /** Facts that hold of the slot at position k of chain h. */
  lemma OnChain<K(!new), V>(g: Geometry<K>, meta: seq<int>, kv: seq<Cell<K, V>>, ch: seq<seq<int>>, h0: int,
          f: seq<int>, prot: int, h: int, i: int)
    requires Chained(g, meta, kv, ch, h0, f, prot)
    requires 0 <= h < g.n && i in ch[h]
    ensures 0 <= i < g.n && Occ(meta[i]) && kv[i].KV? && g.home(kv[i].key) == h
    ensures IsHead(meta[i]) <==> i == h
  {
    assert Chain(g, meta, kv, h, ch[h]);
    var k :| 0 <= k < |ch[h]| && ch[h][k] == i;
  }

  /** A slot holding anything but a chain head means its own chain does not exist. */
  lemma NoChainAt<K(!new), V>(g: Geometry<K>, meta: seq<int>, kv: seq<Cell<K, V>>, ch: seq<seq<int>>, h0: int,
          f: seq<int>, prot: int, h: int)
    requires Chained(g, meta, kv, ch, h0, f, prot)
    requires 0 <= h < g.n && !(Occ(meta[h]) && IsHead(meta[h]))
    ensures ch[h] == []
  {
    assert Chain(g, meta, kv, h, ch[h]);
  }

  /** A slot may change without touching list c of home h when it is free or of another home. */
  ghost predicate SparesHome<K, V>(g: Geometry<K>, meta: seq<int>, kv: seq<Cell<K, V>>, meta': seq<int>,
          kv': seq<Cell<K, V>>, h: int)
    requires |meta| == |kv| == |meta'| == |kv'| == g.n
  {
    forall i :: 0 <= i < g.n && Occ(meta[i]) && kv[i].KV? && g.home(kv[i].key) == h ==>
      meta'[i] == meta[i] && kv'[i] == kv[i]
  }

  lemma LinkedFrame<K, V>(g: Geometry<K>, meta: seq<int>, kv: seq<Cell<K, V>>, meta': seq<int>, kv': seq<Cell<K, V>>,
          h: int, c: seq<int>)
    requires |meta| == |kv| == |meta'| == |kv'| == g.n
    requires Linked(g, meta, kv, h, c)
    requires forall k :: 0 <= k < |c| ==> meta'[c[k]] == meta[c[k]] && kv'[c[k]] == kv[c[k]]
    ensures Linked(g, meta', kv', h, c)
  {
  }

  /** Chains other than h survive any change that spares their homes. */
  lemma {:induction false} OtherChains<K, V>(g: Geometry<K>, meta: seq<int>, kv: seq<Cell<K, V>>, meta': seq<int>,
          kv': seq<Cell<K, V>>, ch: seq<seq<int>>, h: int)
    requires |meta| == |kv| == |meta'| == |kv'| == |ch| == g.n
    requires forall q :: 0 <= q < g.n ==> Chain(g, meta, kv, q, ch[q])
    requires forall q :: 0 <= q < g.n && q != h ==> SparesHome(g, meta, kv, meta', kv', q)
    ensures forall q :: 0 <= q < g.n && q != h ==> Chain(g, meta', kv', q, ch[q])
  {
    forall q | 0 <= q < g.n && q != h ensures Chain(g, meta', kv', q, ch[q]) {
      assert Chain(g, meta, kv, q, ch[q]) && SparesHome(g, meta, kv, meta', kv', q);
      LinkedFrame(g, meta, kv, meta', kv', q, ch[q]);
    }
  }

  /** NewHead: a one-slot chain in a slot that is empty or protected. */
  lemma {:induction false} AddHead<K(!new), V>(g: Geometry<K>, meta: seq<int>, kv: seq<Cell<K, V>>, ch: seq<seq<int>>,
          prot: int, h: int, key: K, val: V)
    requires Chained(g, meta, kv, ch, 0, [], prot)
    requires 0 <= h < g.n && g.home(key) == h && !Occ(meta[h])
    requires prot == -1 || prot == h
    ensures WellChained(g, meta[h := 0], kv[h := KV(key, val)], ch[h := [h]])
  {
    NoChainAt(g, meta, kv, ch, 0, [], prot, h);
    var meta', kv', ch' := meta[h := 0], kv[h := KV(key, val)], ch[h := [h]];
    OtherChains(g, meta, kv, meta', kv', ch, h);
    assert Chain(g, meta', kv', h, [h]);
    forall i | 0 <= i < g.n && Occ(meta'[i])
      ensures kv'[i].KV? && i in ch'[g.home(kv'[i].key)]
    {
      if i != h {
        assert Occ(meta[i]) && i in ch[g.home(kv[i].key)];
        assert g.home(kv[i].key) != h;
      }
    }
  }

  /** Linking an empty slot behind the last slot of a list, whatever jump that slot held. */
  lemma {:induction false} LinkedSnoc<K, V>(g: Geometry<K>, meta: seq<int>, kv: seq<Cell<K, V>>, h: int, c: seq<int>,
          e: int, j: int, key: K, val: V)
    requires |meta| == |kv| == g.n
    requires Chain(g, meta, kv, h, c) && c != [] && g.home(key) == h
    requires 0 <= e < g.n && meta[e] == EMPTY
    requires 0 < j < NUM_JUMP_DISTS && g.step(c[|c| - 1], j) == e
    ensures Chain(g, meta[e := 128][c[|c| - 1] := WithJump(meta[c[|c| - 1]], j)], kv[e := KV(key, val)], h, c + [e])
  {
    var w, c' := c[|c| - 1], c + [e];
    var meta', kv' := meta[e := 128][w := WithJump(meta[w], j)], kv[e := KV(key, val)];
    hide JumpsTo, Occ, IsHead, Jump, WithJump;
    SnocSlots(g, meta, kv, h, c, e, j, key, val);
    assert forall k :: 0 <= k < |c| ==> c'[k] == c[k] && c'[k] != e;
    assert forall k :: 0 <= k < |c'| ==> 0 <= c'[k] < g.n && Occ(meta'[c'[k]]) && kv'[c'[k]].KV?;
  }

  /** What the new byte and pair mean for the slots of the list. */
  lemma {:induction false} SnocSlots<K, V>(g: Geometry<K>, meta: seq<int>, kv: seq<Cell<K, V>>, h: int, c: seq<int>,
          e: int, j: int, key: K, val: V)
    requires |meta| == |kv| == g.n
    requires Chain(g, meta, kv, h, c) && c != []
    requires 0 <= e < g.n && meta[e] == EMPTY
    requires 0 < j < NUM_JUMP_DISTS && g.step(c[|c| - 1], j) == e
    ensures var w, c' := c[|c| - 1], c + [e];
            var meta' := meta[e := 128][w := WithJump(meta[w], j)];
            && 0 <= w < g.n && w != e && Occ(meta'[w]) && IsHead(meta'[w]) == IsHead(meta[w])
            && Occ(meta'[e]) && !IsHead(meta'[e]) && Jump(meta'[e]) == 0
            && (forall k :: 0 <= k < |c| - 1 ==> c[k] != w && c[k] != e && meta'[c[k]] == meta[c[k]])
            && (forall k, l :: 0 <= k < l < |c'| && l == k + 1 ==> JumpsTo(g, meta', c'[k], c'[l]))
  {
    var w, c' := c[|c| - 1], c + [e];
    var meta' := meta[e := 128][w := WithJump(meta[w], j)];
    assert forall k :: 0 <= k < |c| - 1 ==> c[k] != w && c[k] != e && meta'[c[k]] == meta[c[k]];
    forall k, l | 0 <= k < l < |c'| && l == k + 1
      ensures JumpsTo(g, meta', c'[k], c'[l])
    {
      if k < |c| - 1 { assert JumpsTo(g, meta, c[k], c[l]); }
    }
  }

  /** Coverage is kept when only slot e becomes occupied and it joins chain h. */
  lemma {:induction false} CoveredSnoc<K(!new), V>(g: Geometry<K>, meta: seq<int>, kv: seq<Cell<K, V>>, meta': seq<int>,
          ch: seq<seq<int>>, f: seq<int>, h: int, e: int, key: K, val: V)
    requires Sane(g) && |meta| == |kv| == |ch| == |meta'| == g.n
    requires Covered(g, meta, kv, ch, f)
    requires 0 <= h < g.n && 0 <= e < g.n && g.home(key) == h
    requires forall i :: 0 <= i < g.n && i != e && Occ(meta'[i]) ==> Occ(meta[i])
    ensures Covered(g, meta', kv[e := KV(key, val)], ch[h := ch[h] + [e]], f)
  {
    var ch' := ch[h := ch[h] + [e]];
    assert forall i :: i in ch[h] ==> i in ch'[h];
    assert (ch[h] + [e])[|ch[h]|] == e;
  }

  /** NewTail plus SetJump: an empty slot that jump j reaches from the chain's last slot joins it. */
  lemma {:induction false} AddTail<K(!new), V>(g: Geometry<K>, meta: seq<int>, kv: seq<Cell<K, V>>, ch: seq<seq<int>>,
          h0: int, f: seq<int>, prot: int, h: int, w: int, e: int, j: int, key: K, val: V)
    requires Chained(g, meta, kv, ch, h0, f, prot)
    requires 0 <= h < g.n && g.home(key) == h && ch[h] != [] && w == ch[h][|ch[h]| - 1]
    requires 0 <= e < g.n && meta[e] == EMPTY
    requires 0 < j < NUM_JUMP_DISTS && g.step(w, j) == e
    ensures 0 <= w < g.n && w != e
    ensures Chained(g, meta[e := 128][w := WithJump(meta[w], j)], kv[e := KV(key, val)],
                    ch[h := ch[h] + [e]], h0, f, prot)
  {
    var c := ch[h];
    var meta', kv', ch' := meta[e := 128][w := WithJump(meta[w], j)], kv[e := KV(key, val)], ch[h := c + [e]];
    hide Linked, Fragment, Covered, Chain;
    assert w in c;
    OnChain(g, meta, kv, ch, h0, f, prot, h, w);
    TailFragment(g, meta, kv, ch, h0, f, prot, h, e, WithJump(meta[w], j), KV(key, val));
    CoveredSnoc(g, meta, kv, meta', ch, f, h, e, key, val);
    LinkedSnoc(g, meta, kv, h, c, e, j, key, val);
    OtherChains(g, meta, kv, meta', kv', ch, h);
  }

  /** The fragment is no concern of a chain h that gets a new tail e. */
  lemma {:induction false} TailFragment<K(!new), V>(g: Geometry<K>, meta: seq<int>, kv: seq<Cell<K, V>>,
          ch: seq<seq<int>>, h0: int, f: seq<int>, prot: int, h: int, e: int, m: int, pair: Cell<K, V>)
    requires Chained(g, meta, kv, ch, h0, f, prot)
    requires 0 <= h < g.n && ch[h] != [] && 0 <= e < g.n && meta[e] == EMPTY
    ensures var w := ch[h][|ch[h]| - 1];
            && 0 <= w < g.n && Fragment(g, meta[e := 128][w := m], kv[e := pair], h0, f)
    ensures f != [] ==> forall k :: 0 <= k < |f| ==> f[k] !in ch[h := ch[h] + [e]][h0]
  {
    var w := ch[h][|ch[h]| - 1];
    assert w in ch[h];
    OnChain(g, meta, kv, ch, h0, f, prot, h, w);
    assert forall k :: 0 <= k < |f| ==> f[k] != w && f[k] != e;
    LinkedFrame(g, meta, kv, meta[e := 128][w := m], kv[e := pair], h0, f);
  }

  lemma {:induction false} LinkedPrefix<K, V>(g: Geometry<K>, meta: seq<int>, kv: seq<Cell<K, V>>, h: int, c: seq<int>,
          p: int)
    requires |meta| == |kv| == g.n
    requires Chain(g, meta, kv, h, c) && 0 < p < |c|
    ensures Chain(g, meta[c[p - 1] := WithJump(meta[c[p - 1]], 0)], kv, h, c[..p])
  {
    var w, a := c[p - 1], c[..p];
    var meta' := meta[w := WithJump(meta[w], 0)];
    assert forall k :: 0 <= k < p ==> a[k] == c[k];
    assert forall k :: 0 <= k < p - 1 ==> a[k] != w && meta'[a[k]] == meta[a[k]];
    assert Injective(a);
  }

  lemma {:induction false} LinkedSuffix<K, V>(g: Geometry<K>, meta: seq<int>, kv: seq<Cell<K, V>>, h: int, c: seq<int>,
          p: int)
    requires |meta| == |kv| == g.n
    requires Chain(g, meta, kv, h, c) && 0 < p < |c|
    ensures Fragment(g, meta[c[p - 1] := WithJump(meta[c[p - 1]], 0)], kv, h, c[p..])
  {
    var w, f := c[p - 1], c[p..];
    var meta' := meta[w := WithJump(meta[w], 0)];
    assert forall k :: 0 <= k < |f| ==> f[k] == c[p + k];
    assert forall k :: 0 <= k < |f| ==> f[k] != w && meta'[f[k]] == meta[f[k]];
    assert Injective(f);
  }

  lemma {:induction false} CoveredCut<K(!new), V>(g: Geometry<K>, meta: seq<int>, kv: seq<Cell<K, V>>, meta': seq<int>,
          ch: seq<seq<int>>, h: int, p: int)
    requires Sane(g) && |meta| == |kv| == |ch| == |meta'| == g.n
    requires Covered(g, meta, kv, ch, [])
    requires 0 <= h < g.n && 0 < p < |ch[h]|
    requires forall i :: 0 <= i < g.n && Occ(meta'[i]) ==> Occ(meta[i])
    ensures Covered(g, meta', kv, ch[h := ch[h][..p]], ch[h][p..])
  {
    assert ch[h] == ch[h][..p] + ch[h][p..];
    assert forall i :: i in ch[h] ==> i in ch[h][..p] || i in ch[h][p..];
  }

  /** The chain through a slot that is not its head is cut in front of that slot.
      The jump of the slot before it is masked to zero: the source overwrites it later. */
  lemma {:induction false} CutBefore<K(!new), V>(g: Geometry<K>, meta: seq<int>, kv: seq<Cell<K, V>>, ch: seq<seq<int>>,
          h: int, p: int)
    requires WellChained(g, meta, kv, ch)
    requires 0 <= h < g.n && 0 < p < |ch[h]|
    ensures 0 <= ch[h][p - 1] < g.n
    ensures Chained(g, meta[ch[h][p - 1] := WithJump(meta[ch[h][p - 1]], 0)], kv, ch[h := ch[h][..p]],
                    h, ch[h][p..], -1)
  {
    var c := ch[h];
    assert Chain(g, meta, kv, h, c);
    var w := c[p - 1];
    var meta', ch' := meta[w := WithJump(meta[w], 0)], ch[h := c[..p]];
    var f := c[p..];
    LinkedPrefix(g, meta, kv, h, c, p);
    LinkedSuffix(g, meta, kv, h, c, p);
    OtherChains(g, meta, kv, meta', kv, ch, h);
    CoveredCut(g, meta, kv, meta', ch, h, p);
  }

  lemma {:induction false} LinkedTail<K, V>(g: Geometry<K>, meta: seq<int>, kv: seq<Cell<K, V>>, h: int, f: seq<int>,
          m: int)
    requires |meta| == |kv| == g.n
    requires Fragment(g, meta, kv, h, f) && f != []
    ensures Fragment(g, meta[f[0] := m], kv[f[0] := Raw], h, f[1..])
  {
    var f' := f[1..];
    assert forall k :: 0 <= k < |f'| ==> f'[k] == f[k + 1] && f'[k] != f[0];
    assert Injective(f');
    assert f' != [] ==> f'[|f'| - 1] == f[|f| - 1];
  }

  lemma {:induction false} CoveredDrop<K(!new), V>(g: Geometry<K>, meta: seq<int>, kv: seq<Cell<K, V>>,
          ch: seq<seq<int>>, f: seq<int>, m: int)
    requires Sane(g) && |meta| == |kv| == |ch| == g.n
    requires Covered(g, meta, kv, ch, f) && f != [] && 0 <= f[0] < g.n && !Occ(m)
    ensures Covered(g, meta[f[0] := m], kv[f[0] := Raw], ch, f[1..])
  {
    assert f == [f[0]] + f[1..];
  }

  /** A list that avoids slot r is untouched by clearing r. */
  lemma {:induction false} ChainAvoids<K, V>(g: Geometry<K>, meta: seq<int>, kv: seq<Cell<K, V>>, h: int, c: seq<int>,
          r: int, m: int)
    requires |meta| == |kv| == g.n
    requires Chain(g, meta, kv, h, c) && 0 <= r < g.n
    requires forall k :: 0 <= k < |c| ==> c[k] != r
    ensures Chain(g, meta[r := m], kv[r := Raw], h, c)
  {
    LinkedFrame(g, meta, kv, meta[r := m], kv[r := Raw], h, c);
  }

  lemma FragmentHead<K, V>(g: Geometry<K>, meta: seq<int>, kv: seq<Cell<K, V>>, h0: int, f: seq<int>)
    requires |meta| == |kv| == g.n
    requires Fragment(g, meta, kv, h0, f) && f != []
    ensures 0 <= f[0] < g.n && Occ(meta[f[0]]) && kv[f[0]].KV? && g.home(kv[f[0]].key) == h0
  {
  }

  /** The first slot of the fragment is given up: it becomes empty, or protected if it is the one to spare. */
  lemma {:induction false} DropFragmentHead<K(!new), V>(g: Geometry<K>, meta: seq<int>, kv: seq<Cell<K, V>>,
          ch: seq<seq<int>>, h0: int, f: seq<int>, prot: int, m: int)
    requires Chained(g, meta, kv, ch, h0, f, prot) && f != []
    requires m == EMPTY || (m == PROTECTED && prot == -1)
    ensures 0 <= f[0] < g.n
    ensures Chained(g, meta[f[0] := m], kv[f[0] := Raw], ch, h0, f[1..], if m == PROTECTED then f[0] else prot)
  {
    hide Linked, Fragment, Covered, Chain;
    FragmentHead(g, meta, kv, h0, f);
    var r := f[0];
    var meta', kv' := meta[r := m], kv[r := Raw];
    LinkedTail(g, meta, kv, h0, f, m);
    CoveredDrop(g, meta, kv, ch, f, m);
    assert Chain(g, meta', kv', h0, ch[h0]) by {
      assert forall k :: 0 <= k < |ch[h0]| ==> ch[h0][k] != r;
      ChainAvoids(g, meta, kv, h0, ch[h0], r, m);
    }
    OtherChains(g, meta, kv, meta', kv', ch, h0);
    assert forall k :: 0 <= k < |f[1..]| ==> f[1..][k] == f[k + 1];
  }

  /** Storing another pair of the same home in an occupied slot changes no chain. */
  lemma {:induction false} Overwrite<K(!new), V>(g: Geometry<K>, meta: seq<int>, kv: seq<Cell<K, V>>, ch: seq<seq<int>>,
          i: int, key: K, val: V)
    requires WellChained(g, meta, kv, ch)
    requires 0 <= i < g.n && Occ(meta[i])
    requires g.home(key) == g.home(kv[i].key)
    ensures WellChained(g, meta, kv[i := KV(key, val)], ch)
  {
    var kv' := kv[i := KV(key, val)];
    forall q | 0 <= q < g.n ensures Chain(g, meta, kv', q, ch[q]) {
      assert Chain(g, meta, kv, q, ch[q]);
    }
  }

  /** The last slot of a chain is emptied and its predecessor, if any, becomes the last. */
  lemma {:induction false} DropTail<K(!new), V>(g: Geometry<K>, meta: seq<int>, kv: seq<Cell<K, V>>, ch: seq<seq<int>>,
          h: int)
    requires WellChained(g, meta, kv, ch)
    requires 0 <= h < g.n && |ch[h]| > 1
    ensures var c := ch[h];
            var x, w := c[|c| - 1], c[|c| - 2];
            && 0 <= x < g.n && 0 <= w < g.n && x != w
            && WellChained(g, meta[w := WithJump(meta[w], 0)][x := EMPTY], kv[x := Raw], ch[h := c[..|c| - 1]])
  {
    var c := ch[h];
    var n := |c| - 1;
    var x, w := c[n], c[n - 1];
    assert Chain(g, meta, kv, h, c);
    CutBefore(g, meta, kv, ch, h, n);
    assert c[n..] == [x];
    DropFragmentHead(g, meta[w := WithJump(meta[w], 0)], kv, ch[h := c[..n]], h, [x], -1, EMPTY);
    assert [x][1..] == [];
  }

  /** A chain of one slot disappears with it. */
  lemma {:induction false} DropOnly<K(!new), V>(g: Geometry<K>, meta: seq<int>, kv: seq<Cell<K, V>>, ch: seq<seq<int>>,
          h: int)
    requires WellChained(g, meta, kv, ch)
    requires 0 <= h < g.n && |ch[h]| == 1
    ensures WellChained(g, meta[h := EMPTY], kv[h := Raw], ch[h := []])
  {
    assert Chain(g, meta, kv, h, ch[h]);
    var meta', kv', ch' := meta[h := EMPTY], kv[h := Raw], ch[h := []];
    assert ch[h] == [h];
    OtherChains(g, meta, kv, meta', kv', ch, h);
    forall i | 0 <= i < g.n && Occ(meta'[i]) ensures kv'[i].KV? && i in ch'[g.home(kv'[i].key)] {
      assert Occ(meta[i]) && i in ch[g.home(kv[i].key)];
    }
  }

  // ---------------------------------------------------------- iteration list

  /** order visits its slots once each, with prev the inverse of next, from head to tail. */
  ghost predicate IterList(prev: seq<int>, next: seq<int>, head: int, tail: int, order: seq<int>) {
    && |prev| == |next|
    && Injective(order)
    && (forall j :: 0 <= j < |order| ==> 0 <= order[j] < |prev|)
    && (forall i, j :: 0 <= i < j < |order| && j == i + 1 ==>
          next[order[i]] == order[j] && prev[order[j]] == order[i])
    && (if order == [] then
          head == tail == INVALID
        else
          && head == order[0] && prev[head] == INVALID
          && tail == order[|order| - 1] && next[tail] == INVALID)
  }

  /** The entries es are stored, in this order, in the slots of order. */
  ghost predicate Holds<K, V>(kv: seq<Cell<K, V>>, order: seq<int>, es: seq<(K, V)>) {
    && |es| == |order|
    && (forall j :: 0 <= j < |order| ==> 0 <= order[j] < |kv| && kv[order[j]] == KV(es[j].0, es[j].1))
  }

  /** Exactly the occupied slots are in order. */
  ghost predicate Tracks(meta: seq<int>, order: seq<int>) {
    && (forall i :: 0 <= i < |meta| && Occ(meta[i]) ==> i in order)
    && (forall j :: 0 <= j < |order| ==> 0 <= order[j] < |meta| && Occ(meta[order[j]]))
  }

  lemma {:induction false} DropEntry<K, V>(meta: seq<int>, kv: seq<Cell<K, V>>, order: seq<int>, es: seq<(K, V)>,
          j: nat)
    requires Holds(kv, order, es) && Tracks(meta, order) && Injective(order) && j < |order|
    ensures Holds(kv, DropAt(order, j), DropAt(es, j))
    ensures Tracks(meta, DropAt(order, j) + [order[j]])
    ensures order[j] !in DropAt(order, j)
  {
    DropHolds(kv, order, es, j);
    DropTracks(meta, order, j);
    DropKeepsInjective(order, j);
  }

  lemma {:induction false} DropHolds<K, V>(kv: seq<Cell<K, V>>, order: seq<int>, es: seq<(K, V)>, j: nat)
    requires Holds(kv, order, es) && j < |order|
    ensures Holds(kv, DropAt(order, j), DropAt(es, j))
  {
    var o, e := DropAt(order, j), DropAt(es, j);
    forall k | 0 <= k < |o| ensures 0 <= o[k] < |kv| && kv[o[k]] == KV(e[k].0, e[k].1) {
      var k0 := if k < j then k else k + 1;
      assert o[k] == order[k0] && e[k] == es[k0];
    }
  }

  lemma {:induction false} DropTracks(meta: seq<int>, order: seq<int>, j: nat)
    requires Tracks(meta, order) && Injective(order) && j < |order|
    ensures Tracks(meta, DropAt(order, j) + [order[j]])
  {
    DropKeepsInjective(order, j);
    var o := DropAt(order, j) + [order[j]];
    assert forall x :: x in o <==> x in order;
    assert forall k :: 0 <= k < |o| ==> o[k] in order;
  }

  /** A slot outside the list may be filled and joins the tracked slots. */
  lemma {:induction false} FillSlot<K, V>(meta: seq<int>, kv: seq<Cell<K, V>>, meta': seq<int>, order: seq<int>,
          es: seq<(K, V)>, e: int, c: Cell<K, V>)
    requires Holds(kv, order, es) && Tracks(meta, order) && |meta| == |meta'| == |kv|
    requires 0 <= e < |meta| && !Occ(meta[e]) && Occ(meta'[e])
    requires forall i :: 0 <= i < |meta| && i != e ==> (Occ(meta'[i]) <==> Occ(meta[i]))
    ensures e !in order
    ensures Holds(kv[e := c], order, es) && Tracks(meta', order + [e])
  {
    assert (order + [e])[|order|] == e;
  }

  /** A slot that left the list is emptied. */
  lemma EmptySlot(meta: seq<int>, meta': seq<int>, order: seq<int>, x: int)
    requires Tracks(meta, order + [x]) && |meta| == |meta'| && x !in order && 0 <= x < |meta|
    requires !Occ(meta'[x])
    requires forall i :: 0 <= i < |meta| && i != x ==> (Occ(meta'[i]) <==> Occ(meta[i]))
    ensures Tracks(meta', order)
  {
    assert forall k :: 0 <= k < |order| ==> (order + [x])[k] == order[k] && order[k] != x;
  }

  /** Updates of different slots commute. */
  lemma ReorderUpdates<T>(s: seq<T>, e: int, r: int, w: int, a: T, b: T, c: T, d: T)
    requires 0 <= e < |s| && 0 <= r < |s| && 0 <= w < |s| && e != r && e != w && r != w
    ensures s[e := a][r := b][w := c] == s[w := d][r := b][e := a][w := c]
    ensures s[e := a][r := b] == s[r := b][e := a]
  {
  }

  /** An entry moves from slot order[j] to the free slot e. */
  lemma {:induction false} MoveEntry<K, V>(meta: seq<int>, kv: seq<Cell<K, V>>, meta': seq<int>, order: seq<int>,
          es: seq<(K, V)>, j: nat, e: int)
    requires Holds(kv, order, es) && Tracks(meta, order) && Injective(order) && |meta| == |meta'| == |kv|
    requires j < |order| && 0 <= e < |meta| && !Occ(meta[e])
    requires Occ(meta'[e]) && !Occ(meta'[order[j]])
    requires forall i :: 0 <= i < |meta| && i != e && i != order[j] ==> (Occ(meta'[i]) <==> Occ(meta[i]))
    ensures e !in order
    ensures Holds(kv[e := kv[order[j]]][order[j] := Raw], order[j := e], es) && Tracks(meta', order[j := e])
  {
    var r, o := order[j], order[j := e];
    assert r != e;
    assert o[j] == e;
    forall i | 0 <= i < |meta| && Occ(meta'[i]) ensures i in o {
      if i != e {
        var k :| 0 <= k < |order| && order[k] == i;
        assert o[k] == i;
      }
    }
  }

  lemma {:induction false} DropKeepsInjective(s: seq<int>, j: nat)
    requires Injective(s) && j < |s|
    ensures Injective(DropAt(s, j)) && s[j] !in DropAt(s, j)
    ensures forall x :: x in DropAt(s, j) <==> x in s && x != s[j]
  {
    var t := DropAt(s, j);
    assert forall k :: 0 <= k < |t| ==> t[k] == s[if k < j then k else k + 1];
    assert s == s[..j] + [s[j]] + s[j + 1..];
  }

  /** The neighbours of entry j on the list, INVALID beyond its ends. */
  lemma Neighbours(prev: seq<int>, next: seq<int>, head: int, tail: int, order: seq<int>, j: nat)
    requires IterList(prev, next, head, tail, order) && |prev| <= INVALID && j < |order|
    ensures 0 <= order[j] < |prev|
    ensures prev[order[j]] == if j == 0 then INVALID else order[j - 1]
    ensures next[order[j]] == if j == |order| - 1 then INVALID else order[j + 1]
    ensures j > 0 ==> 0 <= order[j - 1] < |prev|
    ensures j < |order| - 1 ==> 0 <= order[j + 1] < |prev|
  {
    if j > 0 { assert next[order[j - 1]] == order[j] && prev[order[j]] == order[j - 1]; }
    if j < |order| - 1 { assert next[order[j]] == order[j + 1] && prev[order[j + 1]] == order[j]; }
  }

  lemma DropEnds(s: seq<int>, j: nat)
    requires j < |s|
    ensures var o := DropAt(s, j);
            |o| == |s| - 1 && (o != [] ==> o[0] == s[if j == 0 then 1 else 0] &&
                                           o[|o| - 1] == s[if j == |o| then |o| - 1 else |o|])
  {
  }

  /** After an unlink prev is still the inverse of next. */
  lemma {:induction false} UnlinkKeepsList(prev: seq<int>, next: seq<int>, head: int, tail: int, order: seq<int>,
          j: nat)
    requires IterList(prev, next, head, tail, order) && |prev| <= INVALID && j < |order|
    ensures var i := order[j];
            var p, n := prev[i], next[i];
            && (p == INVALID || 0 <= p < |prev|) && (n == INVALID || 0 <= n < |prev|)
            && (p == INVALID <==> j == 0) && (n == INVALID <==> j == |order| - 1)
            && IterList(if n == INVALID then prev else prev[n := p], if p == INVALID then next else next[p := n],
                        if p == INVALID then n else head, if n == INVALID then p else tail, DropAt(order, j))
  {
    hide Injective;
    var o := DropAt(order, j);
    Neighbours(prev, next, head, tail, order, j);
    if j > 0 { Neighbours(prev, next, head, tail, order, j - 1); }
    if j < |order| - 1 { Neighbours(prev, next, head, tail, order, j + 1); }
    DropKeepsInjective(order, j);
    UnlinkLinks(prev, next, head, tail, order, j);
    DropEnds(order, j);
    hide DropAt;
  }

  /** After an unlink the neighbours left are linked to each other. */
  lemma {:induction false} UnlinkLinks(prev: seq<int>, next: seq<int>, head: int, tail: int, order: seq<int>, j: nat)
    requires IterList(prev, next, head, tail, order) && |prev| <= INVALID && j < |order|
    ensures var p, n, o := prev[order[j]], next[order[j]], DropAt(order, j);
            && (p == INVALID || 0 <= p < |prev|) && (n == INVALID || 0 <= n < |prev|)
            && (forall k :: 0 <= k < |o| ==> 0 <= o[k] < |prev|)
            && var prev' := if n == INVALID then prev else prev[n := p];
               var next' := if p == INVALID then next else next[p := n];
               forall k, l :: 0 <= k < l < |o| && l == k + 1 ==> next'[o[k]] == o[l] && prev'[o[l]] == o[k]
  {
    Neighbours(prev, next, head, tail, order, j);
    var p, n, o := prev[order[j]], next[order[j]], DropAt(order, j);
    var prev', next' := if n == INVALID then prev else prev[n := p], if p == INVALID then next else next[p := n];
    DropKeepsInjective(order, j);
    forall k, l | 0 <= k < l < |o| && l == k + 1 ensures next'[o[k]] == o[l] && prev'[o[l]] == o[k] {
      var k0, l0 := if k < j then k else k + 1, if l < j then l else l + 1;
      assert o[k] == order[k0] && o[l] == order[l0];
      if l0 == k0 + 1 {
        assert next[order[k0]] == order[l0] && prev[order[l0]] == order[k0];
      }
    }
  }

  lemma {:induction false} PushBackKeepsList(prev: seq<int>, next: seq<int>, head: int, tail: int, order: seq<int>,
          i: int)
    requires IterList(prev, next, head, tail, order) && |prev| <= INVALID && 0 <= i < |prev| && i !in order
    ensures tail == INVALID || (0 <= tail < |prev| && tail != i)
    ensures tail == INVALID <==> order == []
    ensures head == INVALID <==> order == []
    ensures IterList(prev[i := tail], if tail == INVALID then next[i := INVALID] else next[i := INVALID][tail := i],
                     if head == INVALID then i else head, i, order + [i])
  {
    var prev' := prev[i := tail];
    var next' := if tail == INVALID then next[i := INVALID] else next[i := INVALID][tail := i];
    var o := order + [i];
    assert forall k :: 0 <= k < |order| ==> o[k] == order[k] && o[k] != i;
    forall k, l | 0 <= k < l < |o| && l == k + 1 ensures next'[o[k]] == o[l] && prev'[o[l]] == o[k] {
      if l < |order| {
        assert next[order[k]] == order[l];
      }
    }
  }

  lemma {:induction false} ReplaceKeepsList(prev: seq<int>, next: seq<int>, head: int, tail: int, order: seq<int>,
          j: nat, dst: int)
    requires IterList(prev, next, head, tail, order) && |prev| <= INVALID && j < |order|
    requires 0 <= dst < |prev| && dst !in order
    ensures var src := order[j];
            var p, n := prev[src], next[src];
            && (p == INVALID || (0 <= p < |prev| && p != dst)) && (n == INVALID || (0 <= n < |prev| && n != dst))
            && IterList(if n == INVALID then prev[dst := p] else prev[dst := p][n := dst],
                        if p == INVALID then next[dst := n] else next[dst := n][p := dst],
                        if p == INVALID then dst else head, if n == INVALID then dst else tail, order[j := dst])
  {
    var src := order[j];
    Neighbours(prev, next, head, tail, order, j);
    var p, n := prev[src], next[src];
    var prev' := if n == INVALID then prev[dst := p] else prev[dst := p][n := dst];
    var next' := if p == INVALID then next[dst := n] else next[dst := n][p := dst];
    var o := order[j := dst];
    assert forall k :: 0 <= k < |order| && k != j ==> o[k] == order[k] && o[k] != dst;
    forall k, l | 0 <= k < l < |o| && l == k + 1 ensures next'[o[k]] == o[l] && prev'[o[l]] == o[k] {
      if l != j && k != j {
        assert next[order[k]] == order[l];
      }
    }
  }

  // ----------------------------------------------------------------- lookup

  /** An occupied slot with an equal key is the one the association list finds. */
  lemma {:induction false} FoundAt<K(!new), V>(tr: KeyTraits<K>, meta: seq<int>, kv: seq<Cell<K, V>>, order: seq<int>,
          es: seq<(K, V)>, key: K, r: int)
    requires Lawful(tr) && DistinctKeys(es, tr.eq)
    requires Holds(kv, order, es) && Tracks(meta, order) && |meta| == |kv|
    requires 0 <= r < |meta| && Occ(meta[r])
    ensures kv[r].KV?
    ensures tr.eq(key, kv[r].key) ==>
              var f := Find(es, tr.eq, key); f < |es| && order[f] == r && kv[r] == KV(es[f].0, es[f].1)
  {
    var j :| 0 <= j < |order| && order[j] == r;
    if tr.eq(key, kv[r].key) {
      FindIs(es, tr, key, j);
    }
  }

  /** When no slot of its home chain holds an equal key, the list has no entry for the key. */
  lemma {:induction false} NotOnChain<K(!new), V>(tr: KeyTraits<K>, g: Geometry<K>, meta: seq<int>, kv: seq<Cell<K, V>>,
          ch: seq<seq<int>>, order: seq<int>, es: seq<(K, V)>, key: K)
    requires Lawful(tr) && WellChained(g, meta, kv, ch)
    requires Holds(kv, order, es) && Tracks(meta, order)
    requires forall a, b :: tr.eq(a, b) ==> g.home(a) == g.home(b)
    requires forall l :: 0 <= l < |ch[g.home(key)]| ==>
               var i := ch[g.home(key)][l]; 0 <= i < g.n && kv[i].KV? && !tr.eq(key, kv[i].key)
    ensures Find(es, tr.eq, key) == |es|
  {
    forall j | 0 <= j < |es| ensures !tr.eq(es[j].0, key) {
      var i := order[j];
      assert Occ(meta[i]) && kv[i] == KV(es[j].0, es[j].1);
      assert i in ch[g.home(kv[i].key)];
      var q, k := g.home(kv[i].key), es[j].0;
      var l :| 0 <= l < |ch[q]| && ch[q][l] == i;
      assert tr.eq(k, key) ==> q == g.home(key) && tr.eq(key, k);
    }
    FindNone(es, tr, key);
  }

  /** Standing on position k of a chain, the byte there leads to position k + 1 or to the end. */
  lemma {:induction false} ChainStep<K(!new), V>(g: Geometry<K>, meta: seq<int>, kv: seq<Cell<K, V>>, ch: seq<seq<int>>,
          h: int, k: nat)
    requires WellChained(g, meta, kv, ch)
    requires 0 <= h < g.n && k < |ch[h]|
    ensures var i := ch[h][k];
            && 0 <= i < g.n && Occ(meta[i]) && kv[i].KV? && Jump(meta[i]) < NUM_JUMP_DISTS
            && (IsHead(meta[i]) <==> k == 0)
            && (k + 1 == |ch[h]| ==> Jump(meta[i]) == 0)
            && (k + 1 < |ch[h]| ==> Jump(meta[i]) != 0 && g.step(i, Jump(meta[i])) == ch[h][k + 1])
  {
    assert Chain(g, meta, kv, h, ch[h]);
    if k + 1 < |ch[h]| {
      assert JumpsTo(g, meta, ch[h][k], ch[h][k + 1]);
    }
  }

  /** A slot stands at one position of its chain. */
  lemma OnePlace<K(!new), V>(g: Geometry<K>, meta: seq<int>, kv: seq<Cell<K, V>>, ch: seq<seq<int>>, h: int, k: nat,
          p: nat)
    requires WellChained(g, meta, kv, ch) && 0 <= h < g.n && k < |ch[h]| && p < |ch[h]| && ch[h][k] == ch[h][p]
    ensures k == p
  {
    assert Chain(g, meta, kv, h, ch[h]);
  }

  /** The head bit of a slot says whether its chain exists. */
  lemma HeadBit<K(!new), V>(g: Geometry<K>, meta: seq<int>, kv: seq<Cell<K, V>>, ch: seq<seq<int>>, h: int)
    requires WellChained(g, meta, kv, ch) && 0 <= h < g.n
    ensures meta[h] == EMPTY || Occ(meta[h])
    ensures IsHead(meta[h]) <==> ch[h] != []
    ensures ch[h] != [] ==> ch[h][0] == h
    ensures Occ(meta[h]) && !IsHead(meta[h]) ==> kv[h].KV? && 0 <= g.home(kv[h].key) < g.n && h in ch[g.home(kv[h].key)]
  {
    assert Chain(g, meta, kv, h, ch[h]);
    if Occ(meta[h]) {
      var q := g.home(kv[h].key);
      OnChain(g, meta, kv, ch, 0, [], -1, q, h);
    }
  }
}
