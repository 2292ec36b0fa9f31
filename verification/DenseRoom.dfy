// When a dense map has no room for a new key: which slots the probes of an
// insertion meet, also while a chain is being moved out of the way, and why a
// small table refuses a key only when it is full.
module DenseRoom {
  import opened AssocList
  import opened DenseLayout
  import opened DenseTable

  function FreeSlots(meta: seq<int>): set<int> {
    set i | 0 <= i < |meta| && meta[i] == EMPTY
  }

  /** The first jump from number j on that leads from w to a free slot, NUM_JUMP_DISTS when none does. */
  function FirstJump<K>(g: Geometry<K>, free: set<int>, w: int, j: nat): (r: nat)
    requires j <= NUM_JUMP_DISTS
    ensures j <= r <= NUM_JUMP_DISTS
    ensures r < NUM_JUMP_DISTS ==> g.step(w, r) in free
    ensures forall l :: j <= l < r ==> g.step(w, l) !in free
    decreases NUM_JUMP_DISTS - j
  {
    if j == NUM_JUMP_DISTS || g.step(w, j) in free then j else FirstJump(g, free, w, j + 1)
  }

  /** None of the 125 probes from w meets a free slot. */
  predicate Exhausted<K>(g: Geometry<K>, free: set<int>, w: int) {
    FirstJump(g, free, w, 1) == NUM_JUMP_DISTS
  }

  /** Moving the slots f one after the other behind w runs out of probes: each goes to the first free slot the slot
      before it can jump to, and leaves a free slot behind, except for the very first, which is to be spared. */
  predicate Stuck<K>(g: Geometry<K>, free: set<int>, w: int, f: seq<int>, first: bool)
    decreases |f|
  {
    && f != []
    && (Exhausted(g, free, w) ||
        Stuck(g, AfterRound(g, free, w, f[0], first), Landing(g, free, w), f[1..], false))
  }

  /** The slot a round of the move writes to. */
  function Landing<K>(g: Geometry<K>, free: set<int>, w: int): int {
    g.step(w, FirstJump(g, free, w, 1))
  }

  function AfterRound<K>(g: Geometry<K>, free: set<int>, w: int, r: int, first: bool): set<int> {
    free - {Landing(g, free, w)} + if first then {} else {r}
  }

  function Position(c: seq<int>, x: int): (p: nat)
    ensures p <= |c| && (x in c ==> p < |c| && c[p] == x)
  {
    if c == [] then 0 else if c[0] == x then 0 else 1 + Position(c[1..], x)
  }

  /** Slot h cannot be spared: moving the rest of its chain, from h on, gets stuck. */
  ghost predicate CannotSpare<K(!new), V>(g: Geometry<K>, t: Table<K, V>, h: int) {
    && 0 <= h < |t.kv| && t.kv[h].KV? && 0 <= g.home(t.kv[h].key) < |t.chains|
    && var c := t.chains[g.home(t.kv[h].key)];
       var p := Position(c, h);
       0 < p < |c| && Stuck(g, FreeSlots(t.meta), c[p - 1], c[p..], true)
  }

  /** The load check, in exact arithmetic. */
  predicate Overloaded(size: int, n: nat) {
    100 * (size + 1) > 99 * n
  }

  /**
   * The table has no room for key: the key is new, its home slot is taken, and the table is full, or no probe from
   * the end of the key's chain meets a free slot, or the chain that sits in the home slot cannot be moved away.
   */
  ghost predicate Refuses<K(!new), V>(tr: KeyTraits<K>, g: Geometry<K>, t: Table<K, V>, key: K) {
    var h := g.home(key);
    && 0 <= h < |t.meta| && |t.chains| == |t.meta|
    && Find(t.entries, tr.eq, key) == |t.entries|
    && t.meta[h] != EMPTY
    && (Overloaded(t.size, g.n) ||
        if t.chains[h] != [] then Exhausted(g, FreeSlots(t.meta), t.chains[h][|t.chains[h]| - 1])
        else CannotSpare(g, t, h))
  }

  /** A copy of a table, slot by slot, has room for the same keys. */
  lemma CopyRefuses<K(!new), V(!new)>(tr: KeyTraits<K>, g: Geometry<K>, t: Table<K, V>, u: Table<K, V>, key: K)
    requires Valid(tr, g, t) && SameSlots(t, u)
    ensures Refuses(tr, g, u, key) <==> Refuses(tr, g, t, key)
  {
    SlotStates(tr, g, t);
    hide DenseTable.Valid, Stuck, Exhausted;
  }

  // ------------------------------------------------------- rounds of a move

  /** A search for an empty slot finds what FirstJump says. */
  lemma FirstJumpIs<K>(g: Geometry<K>, meta: seq<int>, w: int, j: int)
    requires 0 < j <= NUM_JUMP_DISTS
    requires forall l :: 0 < l < NUM_JUMP_DISTS ==> 0 <= g.step(w, l) < |meta|
    requires forall l :: 0 < l < j ==> meta[g.step(w, l)] != EMPTY
    requires j < NUM_JUMP_DISTS ==> meta[g.step(w, j)] == EMPTY
    ensures FirstJump(g, FreeSlots(meta), w, 1) == j
  {
    hide FirstJump;
    var r := FirstJump(g, FreeSlots(meta), w, 1);
    assert r < NUM_JUMP_DISTS ==> meta[g.step(w, r)] == EMPTY;
    assert j < NUM_JUMP_DISTS ==> g.step(w, j) in FreeSlots(meta);
  }

  /** One round of a move lands where Landing says and leaves the free slots AfterRound tells. */
  lemma RoundDone<K(!new), V>(g: Geometry<K>, t: Table<K, V>, u: Table<K, V>, h0: int, w: int, r: int, first: bool,
          e: int, j: int, jr: nat)
    requires |t.meta| == |t.kv| == |t.chains| && 0 <= w < |t.meta| && 0 <= r < |t.meta| && 0 <= e < |t.meta|
    requires 0 <= h0 < |t.chains| && 0 < j < NUM_JUMP_DISTS && jr < |t.order|
    requires t.meta[e] == EMPTY && t.meta[r] != EMPTY && t.meta[w] != EMPTY && w != r
    requires FirstJump(g, FreeSlots(t.meta), w, 1) == j && g.step(w, j) == e
    requires Steps(t, u, h0, w, r, first, e, j, jr)
    ensures !Exhausted(g, FreeSlots(t.meta), w) && e == Landing(g, FreeSlots(t.meta), w)
    ensures FreeSlots(u.meta) == AfterRound(g, FreeSlots(t.meta), w, r, first)
  {
    hide FirstJump;
  }

  // ----------------------------------------------------------- small tables

  /** As in a table of at most 16 slots, the first 15 jumps reach every slot. */
  ghost predicate ReachesAll<K>(g: Geometry<K>) {
    0 < g.n <= 16 && forall i, j :: 0 <= i < g.n && 0 < j < 16 ==> g.step(i, j) == (i + j) % g.n
  }

  lemma RoundTheRing(x: nat, n: nat)
    requires x < n
    ensures x % n == x && (x + n) % n == x
  {
  }

  lemma NotExhausted<K>(g: Geometry<K>, free: set<int>, w: int, x: int)
    requires ReachesAll(g) && 0 <= w < g.n && 0 <= x < g.n && x != w && x in free
    ensures !Exhausted(g, free, w)
  {
    hide FirstJump;
    var j := if w < x then x - w else x - w + g.n;
    RoundTheRing(x, g.n);
    assert g.step(w, j) == (w + j) % g.n;
  }

  ghost predicate Inside(s: set<int>, n: nat) {
    forall x :: x in s ==> 0 <= x < n
  }

  lemma SomeMember(s: set<int>) returns (x: int)
    requires |s| > 0
    ensures x in s
  {
    assert (forall x :: x !in s) ==> s == {};
    x :| x in s;
  }

  /** The first round of a move uses up one free slot, later rounds pass one on. */
  lemma {:induction false} NeverStuck<K>(g: Geometry<K>, free: set<int>, w: int, f: seq<int>, first: bool)
    requires ReachesAll(g) && Inside(free, g.n) && |free| >= if first then 2 else 1
    requires 0 <= w < g.n && w !in free && Injective(f)
    requires forall k :: 0 <= k < |f| ==> 0 <= f[k] < g.n && f[k] !in free && f[k] != w
    ensures !Stuck(g, free, w, f, first)
    decreases |f|
  {
    if f != [] {
      var x := SomeMember(free);
      NotExhausted(g, free, w, x);
      var e := Landing(g, free, w);
      assert e in free;
      var rest := free - {e};
      assert |rest| == |free| - 1;
      assert AfterRound(g, free, w, f[0], first) == if first then rest else rest + {f[0]};
      NeverStuck(g, AfterRound(g, free, w, f[0], first), e, f[1..], false);
    }
  }

  function UpTo(n: nat): (s: set<int>)
    ensures |s| == n && forall x :: x in s <==> 0 <= x < n
  {
    if n == 0 then {} else UpTo(n - 1) + {n - 1}
  }

  lemma SlotStates<K(!new), V(!new)>(tr: KeyTraits<K>, g: Geometry<K>, t: Table<K, V>)
    requires Valid(tr, g, t)
    ensures |t.meta| == |t.chains| == g.n
    ensures forall i :: 0 <= i < g.n ==> Occ(t.meta[i]) || t.meta[i] == EMPTY
  {
  }

  lemma FreeOrTaken(meta: seq<int>)
    requires forall i :: 0 <= i < |meta| ==> Occ(meta[i]) || meta[i] == EMPTY
    ensures |FreeSlots(meta)| == |meta| - |set i | 0 <= i < |meta| && Occ(meta[i])|
  {
    var free, taken := FreeSlots(meta), set i | 0 <= i < |meta| && Occ(meta[i]);
    assert free !! taken && UpTo(|meta|) == free + taken;
  }

  /** Between operations every slot is free or counted by size. */
  lemma FreeCount<K(!new), V(!new)>(tr: KeyTraits<K>, g: Geometry<K>, t: Table<K, V>)
    requires Valid(tr, g, t)
    ensures |FreeSlots(t.meta)| == g.n - t.size && Inside(FreeSlots(t.meta), g.n)
  {
    hide DenseTable.Valid;
    SlotStates(tr, g, t);
    SizeCountsOccupied(tr, g, t);
    FreeOrTaken(t.meta);
  }

  /** The slots of a chain are different, inside the table and not free. */
  lemma ChainSlots<K(!new), V(!new)>(tr: KeyTraits<K>, g: Geometry<K>, t: Table<K, V>, h: int)
    requires Valid(tr, g, t) && 0 <= h < g.n
    ensures |t.chains| == g.n && Injective(t.chains[h])
    ensures forall k :: 0 <= k < |t.chains[h]| ==>
              0 <= t.chains[h][k] < g.n && t.chains[h][k] !in FreeSlots(t.meta)
  {
    assert Chain(g, t.meta, t.kv, h, t.chains[h]);
  }

  /** A table of at most 16 slots takes every new key until it is full. */
  lemma {:induction false} SmallTableTakes<K(!new), V(!new)>(tr: KeyTraits<K>, g: Geometry<K>, t: Table<K, V>, key: K)
    requires Valid(tr, g, t) && ReachesAll(g) && !Overloaded(t.size, g.n)
    ensures !Refuses(tr, g, t, key)
  {
    var h, free := g.home(key), FreeSlots(t.meta);
    FreeCount(tr, g, t);
    assert |free| >= 2;
    if 0 <= h < g.n {
      ChainSlots(tr, g, t, h);
      var c := t.chains[h];
      if c != [] {
        var x := SomeMember(free);
        NotExhausted(g, free, c[|c| - 1], x);
      } else {
        CanSpare(tr, g, t, h);
      }
    }
  }

  lemma {:induction false} CanSpare<K(!new), V(!new)>(tr: KeyTraits<K>, g: Geometry<K>, t: Table<K, V>, h: int)
    requires Valid(tr, g, t) && ReachesAll(g) && |FreeSlots(t.meta)| >= 2 && Inside(FreeSlots(t.meta), g.n)
    ensures !CannotSpare(g, t, h)
  {
    hide DenseTable.Valid, Stuck, ReachesAll, FreeSlots, Inside;
    SlotStates(tr, g, t);
    if 0 <= h < |t.kv| && t.kv[h].KV? && 0 <= g.home(t.kv[h].key) < |t.chains| {
      var q := g.home(t.kv[h].key);
      var p := Position(t.chains[q], h);
      ChainSlots(tr, g, t, q);
      if 0 < p < |t.chains[q]| { SuffixMoves(g, FreeSlots(t.meta), t.chains[q], p); }
    }
  }

  lemma {:induction false} SuffixMoves<K>(g: Geometry<K>, free: set<int>, c: seq<int>, p: nat)
    requires ReachesAll(g) && Inside(free, g.n) && |free| >= 2 && 0 < p < |c| && Injective(c)
    requires forall k :: 0 <= k < |c| ==> 0 <= c[k] < g.n && c[k] !in free
    ensures !Stuck(g, free, c[p - 1], c[p..], true)
  {
    hide Stuck, ReachesAll, Inside;
    assert forall k :: 0 <= k < |c[p..]| ==> c[p..][k] == c[p + k] && c[p + k] != c[p - 1];
    NeverStuck(g, free, c[p - 1], c[p..], true);
  }
}
