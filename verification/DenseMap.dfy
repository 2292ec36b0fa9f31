// The open-addressed layout of a map, updated in place. Block storage is one
// array per part of a slot; the ghost fields record the chains, the iteration
// order and the association list the table stands for.
module DenseMaps {
  import opened AssocList
  import opened DenseLayout
  import opened DenseRoom
  import opened DenseTable
  import Probing

  const NONE: int := -1

  function GeometryOf<K>(tr: KeyTraits<K>, fib: nat, slots: nat): Geometry<K> {
    Geometry(slots, k => Probing.FibHash(tr.hash(k), fib), (i, j) => Probing.ProbeFrom(i, j, slots))
  }

  /** Some of the entries es, from the first on, fill a table with this shift so far that it has no room for the key of
      the next one. */
  ghost predicate RefusedAt<K(!new), V>(tr: KeyTraits<K>, es: seq<(K, V)>, fib: int, t: Table<K, V>) {
    && 2 <= fib <= 61 && DenseTable.Valid(tr, GeometryOf(tr, fib, Probing.Pow2(64 - fib)), t)
    && |t.entries| < |es| && t.entries == es[..|t.entries|]
    && Refuses(tr, GeometryOf(tr, fib, Probing.Pow2(64 - fib)), t, es[|t.entries|].0)
  }

  /** Why a table with shift fib had to grow |ws| times: es does not go into a table of that size, nor into one of twice
      its size, and so on. */
  ghost predicate Ladder<K(!new), V>(tr: KeyTraits<K>, es: seq<(K, V)>, fib: int, ws: seq<Table<K, V>>) {
    forall k :: 0 <= k < |ws| ==> RefusedAt(tr, es, fib - k, ws[k])
  }

  lemma LadderNone<K(!new), V>(tr: KeyTraits<K>, es: seq<(K, V)>, fib: int)
    ensures Ladder(tr, es, fib, [])
  {
  }

  /** More entries do not go in either. */
  lemma LadderMore<K(!new), V>(tr: KeyTraits<K>, es: seq<(K, V)>, fs: seq<(K, V)>, fib: int, ws: seq<Table<K, V>>)
    requires Ladder(tr, es, fib, ws) && es <= fs
    ensures Ladder(tr, fs, fib, ws)
  {
    hide DenseTable.Valid, Refuses;
    forall k | 0 <= k < |ws| ensures RefusedAt(tr, fs, fib - k, ws[k]) {
      assert RefusedAt(tr, es, fib - k, ws[k]);
      assert fs[..|ws[k].entries|] == es[..|ws[k].entries|];
    }
  }

  lemma LadderJoin<K(!new), V>(tr: KeyTraits<K>, es: seq<(K, V)>, fib: int, ws: seq<Table<K, V>>, vs: seq<Table<K, V>>)
    requires Ladder(tr, es, fib, ws) && Ladder(tr, es, fib - |ws|, vs)
    ensures Ladder(tr, es, fib, ws + vs)
  {
    hide RefusedAt;
    forall k | 0 <= k < |ws + vs| ensures RefusedAt(tr, es, fib - k, (ws + vs)[k]) {
      if k >= |ws| { assert RefusedAt(tr, es, fib - |ws| - (k - |ws|), vs[k - |ws|]); }
    }
  }

  lemma LadderOne<K(!new), V>(tr: KeyTraits<K>, t: Table<K, V>, fib: int, key: K, val: V)
    requires 2 <= fib <= 61 && DenseTable.Valid(tr, GeometryOf(tr, fib, Probing.Pow2(64 - fib)), t)
    requires Refuses(tr, GeometryOf(tr, fib, Probing.Pow2(64 - fib)), t, key)
    ensures Ladder(tr, t.entries + [(key, val)], fib, [t])
  {
    hide DenseTable.Valid, Refuses;
    assert RefusedAt(tr, t.entries + [(key, val)], fib, [t][0]);
  }

  /** The largest table has 2^62 slots and shift 2. */
  lemma LargestTable(fib: nat, slots: nat)
    requires 2 <= fib <= 61 && slots == Probing.Pow2(64 - fib)
    ensures slots * 2 > MAX_SLOTS <==> fib == 2
  {
    hide Probing.Pow2;
    Probing.Pow2Of64();
    Probing.Pow2Squares();
    if fib > 2 { Probing.Pow2Mono(64 - fib, 61); }
  }

  lemma EightSlots(fib: nat, slots: nat)
    requires 2 <= fib <= 61 && slots == Probing.Pow2(64 - fib)
    ensures slots == 8 <==> fib == 61
    ensures Probing.Pow2(64 - 60) == 16
  {
    hide Probing.Pow2;
    Probing.Pow2Of4();
    Probing.Pow2OfThree();
    if fib < 61 { Probing.Pow2Mono(4, 64 - fib); }
  }

  /** Nine entries go into sixteen slots, so a table of eight slots grows once at most. */
  lemma {:induction false} EightGrowOnce<K(!new), V(!new)>(tr: KeyTraits<K>, es: seq<(K, V)>, ws: seq<Table<K, V>>)
    requires Ladder(tr, es, 61, ws) && |es| <= 9
    ensures |ws| <= 1
  {
    hide DenseTable.Valid, Refuses, ReachesAll, Probing.Pow2, GeometryOf;
    if |ws| > 1 {
      var t := ws[1];
      assert RefusedAt(tr, es, 60, t);
      Probing.Pow2Of4();
      SixteenReach(tr);
      SizeIsCount(tr, GeometryOf(tr, 60, 16), t);
      SmallTableTakes(tr, GeometryOf(tr, 60, 16), t, es[|t.entries|].0);
    }
  }

  lemma SixteenReach<K>(tr: KeyTraits<K>)
    ensures ReachesAll(GeometryOf(tr, 60, 16)) && GeometryOf(tr, 60, 16).n == 16
  {
  }

  lemma SizeIsCount<K(!new), V(!new)>(tr: KeyTraits<K>, g: Geometry<K>, t: Table<K, V>)
    requires DenseTable.Valid(tr, g, t)
    ensures t.size == |t.entries| <= g.n
  {
    hide DenseTable.Valid;
    SizeCountsOccupied(tr, g, t);
  }

  class DenseMap<K(!new), V(!new)> {
    const tr: KeyTraits<K>
    const nil: V
    const slots: nat
    const fib: nat
    const meta: array<int>
    const kv: array<Cell<K, V>>
    const prev: array<int>
    const next: array<int>
    var size: nat
    var iterHead: int
    var iterTail: int
    ghost var chains: seq<seq<int>>
    ghost var order: seq<int>
    ghost var Contents: seq<(K, V)>

    ghost function Repr(): set<object> {
      {this, meta, kv, prev, next}
    }

    ghost function Geo(): Geometry<K> {
      GeometryOf(tr, fib, slots)
    }

    /** The state of the table as a value. */
    ghost function T(): Table<K, V>
      reads this, meta, kv, prev, next
    {
      Table(meta[..], kv[..], prev[..], next[..], iterHead, iterTail, size, chains, order, Contents)
    }

    /** Facts about a table that no operation changes. */
    ghost predicate Shape() {
      && Lawful(tr)
      && 2 <= fib <= 61 && slots == Probing.Pow2(64 - fib) && 0 < slots <= MAX_SLOTS
      && meta.Length == kv.Length == prev.Length == next.Length == slots
      && meta != prev && meta != next && prev != next
    }

    /** What holds between operations. */
    ghost predicate Valid()
      reads this, meta, kv, prev, next
    {
      Shape() && DenseTable.Valid(tr, Geo(), T())
    }

    lemma GeoSane()
      requires Shape()
      ensures Sane(Geo()) && Geo().n == slots && Respects(tr, Geo())
      ensures forall i, j :: 0 <= i < slots && 0 <= j < NUM_JUMP_DISTS ==> 0 <= Geo().step(i, j) < slots
    {
      hide Probing.FibHash, Probing.ProbeFrom, Probing.NextProbeLocation, Probing.Pow2;
      var g := Geo();
      forall k: K ensures 0 <= g.home(k) < g.n {
        Probing.FibHashInTable(tr.hash(k), fib);
      }
      Probing.Pow2Mono(64 - fib, 63);
      forall i, j | 0 <= i < slots && 0 <= j < NUM_JUMP_DISTS ensures 0 <= g.step(i, j) < slots {
        Probing.ProbeInTable(i, j, slots);
      }
    }

    constructor Empty(tr: KeyTraits<K>, nil: V, fibShift: nat, nSlots: nat)
      requires Lawful(tr)
      requires 2 <= fibShift <= 61 && nSlots == Probing.Pow2(64 - fibShift) && nSlots <= MAX_SLOTS
      ensures Valid() && fresh(Repr()) && Contents == []
      ensures this.tr == tr && this.nil == nil && this.fib == fibShift && slots == nSlots
    {
      this.tr, this.nil, fib, slots := tr, nil, fibShift, nSlots;
      meta := new int[nSlots](_ => EMPTY);
      kv := new Cell<K, V>[nSlots](_ => Raw);
      prev := new int[nSlots](_ => INVALID);
      next := new int[nSlots](_ => INVALID);
      size := 0;
      iterHead, iterTail := INVALID, INVALID;
      chains := seq(nSlots, _ => []);
      order, Contents := [], [];
      new;
      hide DenseTable.Valid;
      GeoSane();
      NothingStored(tr, Geo(), T());
    }

    // -------------------------------------------------- slots as list nodes

    method IndexFromHash(key: K) returns (h: int)
      requires Shape()
      ensures 0 <= h < slots && h == Geo().home(key)
    {
      GeoSane();
      h := Probing.FibHash(tr.hash(key), fib);
      assert h == Geo().home(key);
    }

    /** The next slot on a chain, given the byte of the current one; NONE at the end. */
    method MoveToNext(i: int, m: int) returns (r: int)
      requires Shape() && 0 <= i < slots && Occ(m) && Jump(m) < NUM_JUMP_DISTS
      ensures r == if Jump(m) == 0 then NONE else Geo().step(i, Jump(m))
      ensures r != NONE ==> 0 <= r < slots
    {
      GeoSane();
      var offset := Probing.NextProbeLocation(Jump(m));
      if offset == 0 { return NONE; }
      r := (i + offset) % slots;
      assert r == Geo().step(i, Jump(m));
    }

    /** Does a slot with this byte jump on to another one? */
    method HasNext(m: int) returns (b: bool)
      requires Occ(m) && Jump(m) < NUM_JUMP_DISTS
      ensures b == (Jump(m) != 0)
    {
      b := Probing.NextProbeLocation(Jump(m)) != 0;
    }

    /** The first candidate position after i that is empty, and the jump leading there. */
    method GetNextEmpty(i: int) returns (ok: bool, jump: int, e: int)
      requires Shape() && 0 <= i < slots
      ensures ok ==> 0 < jump < NUM_JUMP_DISTS && 0 <= e < slots && e == Geo().step(i, jump) && meta[e] == EMPTY
      ensures ok ==> forall j :: 0 < j < jump ==> meta[Geo().step(i, j)] != EMPTY
      ensures !ok ==> forall j :: 0 < j < NUM_JUMP_DISTS ==> meta[Geo().step(i, j)] != EMPTY
      ensures ok ==> jump == FirstJump(Geo(), FreeSlots(meta[..]), i, 1)
      ensures ok <==> !Exhausted(Geo(), FreeSlots(meta[..]), i)
    {
      hide FirstJump, FreeSlots;
      GeoSane();
      var idx := 1;
      while idx < NUM_JUMP_DISTS
        invariant 1 <= idx <= NUM_JUMP_DISTS
        invariant forall j :: 0 < j < idx ==> meta[Geo().step(i, j)] != EMPTY
      {
        var candidate := (i + Probing.NextProbeLocation(idx)) % slots;
        assert candidate == Geo().step(i, idx);
        if meta[candidate] == EMPTY {
          FirstJumpIs(Geo(), meta[..], i, idx);
          return true, idx, candidate;
        }
        idx := idx + 1;
      }
      FirstJumpIs(Geo(), meta[..], i, NUM_JUMP_DISTS);
      ok, jump, e := false, 0, 0;
    }

    /** Construct a pair in a free slot, as the head or as a tail of a chain. */
    method NewNode(i: int, m: int, key: K, val: V)
      requires Shape() && 0 <= i < slots
      modifies meta, kv
      ensures T() == old(T()).(meta := old(meta[..])[i := m], kv := old(kv[..])[i := KV(key, val)])
    {
      meta[i] := m;
      kv[i] := KV(key, val);
    }

    /** Destroy the pair of a slot and leave the byte m behind. */
    method Vacate(i: int, m: int)
      requires Shape() && 0 <= i < slots
      modifies meta, kv
      ensures T() == old(T()).(meta := old(meta[..])[i := m], kv := old(kv[..])[i := Raw])
    {
      kv[i] := Raw;
      meta[i] := m;
    }

    method SetJump(i: int, jump: int)
      requires Shape() && 0 <= i < slots && 0 <= jump < NUM_JUMP_DISTS
      modifies meta
      ensures T() == old(T()).(meta := old(meta[..])[i := WithJump(old(meta[i]), jump)])
    {
      meta[i] := WithJump(meta[i], jump);
    }

    // --------------------------------------------------------- iteration list

    method IterListUnlink(i: int, ghost j: nat)
      requires Shape() && ListLinked(T()) && j < |order| && order[j] == i
      modifies this`iterHead, this`iterTail, this`order, prev, next
      ensures Relinked(old(T()), T(), DropAt(old(order), j))
    {
      UnlinkKeepsList(prev[..], next[..], iterHead, iterTail, order, j);
      if prev[i] == INVALID {
        iterHead := next[i];
      } else {
        next[prev[i]] := next[i];
      }
      if next[i] == INVALID {
        iterTail := prev[i];
      } else {
        prev[next[i]] := prev[i];
      }
      order := DropAt(order, j);
    }

    method IterListPushBack(i: int)
      requires Shape() && ListLinked(T()) && 0 <= i < slots && i !in order
      modifies this`iterHead, this`iterTail, this`order, prev, next
      ensures Relinked(old(T()), T(), old(order) + [i])
    {
      PushBackKeepsList(prev[..], next[..], iterHead, iterTail, order, i);
      prev[i] := iterTail;
      next[i] := INVALID;
      if iterTail != INVALID {
        next[iterTail] := i;
      }
      if iterHead == INVALID {
        iterHead := i;
      }
      iterTail := i;
      order := order + [i];
    }

    method IterListReplaceNodeBy(src: int, dst: int, ghost j: nat)
      requires Shape() && ListLinked(T()) && j < |order| && order[j] == src
      requires 0 <= dst < slots && dst !in order
      modifies this`iterHead, this`iterTail, this`order, prev, next
      ensures Relinked(old(T()), T(), old(order)[j := dst])
    {
      ReplaceKeepsList(prev[..], next[..], iterHead, iterTail, order, j, dst);
      prev[dst] := prev[src];
      next[dst] := next[src];
      if prev[dst] == INVALID {
        iterHead := dst;
      } else {
        next[prev[dst]] := dst;
      }
      if next[dst] == INVALID {
        iterTail := dst;
      } else {
        prev[next[dst]] := dst;
      }
      order := order[j := dst];
    }

    // ----------------------------------------------------------------- search

    /** What a search needs to know of a valid table. */
    lemma SearchReady()
      requires Valid()
      ensures size == |order| == |Contents| && |chains| == slots && WellChained(Geo(), meta[..], kv[..], chains)
      ensures Holds(kv[..], order, Contents) && Tracks(meta[..], order) && DistinctKeys(Contents, tr.eq)
      ensures forall a, b :: tr.eq(a, b) ==> Geo().home(a) == Geo().home(b)
    {
    }

    /** The slot of the entry for key, or NONE when the list has none. */
    method Search(key: K) returns (r: int)
      requires Valid()
      ensures var f := Find(Contents, tr.eq, key);
              r == if f < |Contents| then order[f] else NONE
    {
      hide DenseTable.Valid, WellChained, Holds, Tracks, DistinctKeys, Lawful, Passed;
      SearchReady();
      if size == 0 { return NONE; }
      var h := IndexFromHash(key);
      HeadBit(Geo(), meta[..], kv[..], chains, h);
      NonePassed(h, key);
      if !IsHead(meta[h]) {
        PassedAll(h, key);
        return NONE;
      }
      r := h;
      ghost var k: nat := 0;
      Standing(h, 0);
      while r != NONE
        invariant StandsAt(h, k, r) && Passed(h, k, key)
        decreases |chains[h]| - k
      {
        if tr.eq(key, kv[r].key) {
          FoundAt(tr, meta[..], kv[..], order, Contents, key, r);
          return;
        }
        PassOne(h, k, r, key);
        r := MoveAlong(r, h, k);
        k := k + 1;
      }
      PassedAll(h, key);
    }

    /** r is the slot at position k of chain h, holding a pair, or NONE behind the end of the chain. */
    ghost predicate StandsAt(h: int, k: nat, r: int)
      reads this, meta, kv
    {
      && |chains| == meta.Length == kv.Length && 0 <= h < |chains| && k <= |chains[h]|
      && (if k < |chains[h]| then
            && r == chains[h][k] && 0 <= r < meta.Length
            && Occ(meta[r]) && Jump(meta[r]) < NUM_JUMP_DISTS && kv[r].KV?
          else
            r == NONE)
    }

    lemma Standing(h: int, k: nat)
      requires Shape() && WellChained(Geo(), meta[..], kv[..], chains) && 0 <= h < slots
      requires |chains| == slots && k < |chains[h]|
      ensures StandsAt(h, k, chains[h][k])
    {
      hide WellChained;
      ChainStep(Geo(), meta[..], kv[..], chains, h, k);
    }

    /** One step along chain h, from position k. */
    method MoveAlong(i: int, ghost h: int, ghost k: nat) returns (r: int)
      requires Shape() && WellChained(Geo(), meta[..], kv[..], chains) && StandsAt(h, k, i) && k < |chains[h]|
      ensures StandsAt(h, k + 1, r)
    {
      hide WellChained;
      ChainStep(Geo(), meta[..], kv[..], chains, h, k);
      r := MoveToNext(i, meta[i]);
      if k + 1 < |chains[h]| { Standing(h, k + 1); }
    }

    /** The first k slots of chain h hold other keys. */
    ghost predicate Passed(h: int, k: nat, key: K)
      reads this, kv
    {
      0 <= h < |chains| && k <= |chains[h]| && forall l :: 0 <= l < k ==>
        var i := chains[h][l]; 0 <= i < kv.Length && kv[i].KV? && !tr.eq(key, kv[i].key)
    }

    lemma NonePassed(h: int, key: K)
      requires 0 <= h < |chains|
      ensures Passed(h, 0, key)
    {
    }

    lemma PassOne(h: int, k: nat, i: int, key: K)
      requires Passed(h, k, key) && StandsAt(h, k, i) && k < |chains[h]| && !tr.eq(key, kv[i].key)
      ensures Passed(h, k + 1, key)
    {
    }

    /** When the whole chain of its home holds other keys, the list has no entry for key. */
    lemma PassedAll(h: int, key: K)
      requires Valid() && h == Geo().home(key) && 0 <= h < |chains| && Passed(h, |chains[h]|, key)
      ensures Find(Contents, tr.eq, key) == |Contents|
    {
      hide DenseTable.Valid, WellChained, Holds, Tracks, DistinctKeys, Lawful;
      SearchReady();
      NotOnChain(tr, Geo(), meta[..], kv[..], chains, order, Contents, key);
    }

    // -------------------------------------------------------------- insertion

    predicate IsFull()
      reads this`size
    {
      Overloaded(size, slots)
    }

    lemma SmallTableReaches()
      requires Shape() && slots <= 16
      ensures ReachesAll(Geo())
    {
    }

    /** A table of at most 16 slots that is not full has room for every key. */
    lemma SmallTableHasRoom(key: K)
      requires Valid() && slots <= 16 && !IsFull()
      ensures !Refuses(tr, Geo(), T(), key)
    {
      hide DenseTable.Valid, Refuses, ReachesAll;
      SmallTableReaches();
      SmallTableTakes(tr, Geo(), T(), key);
    }

    method TryInsert(key: K) returns (ok: bool, r: int)
      requires Valid()
      modifies this, meta, kv, prev, next
      ensures ok ==> Pending(tr, Geo(), T(), r) && Inserts(tr, T(), r, key, old(Contents))
      ensures !ok ==> ListOk(tr, Geo(), T()) && Contents == old(Contents)
      ensures ok <==> !Refuses(tr, Geo(), old(T()), key)
    {
      GeoSane();
      r := IndexFromHash(key);
      HeadBit(Geo(), meta[..], kv[..], chains, r);
      // Case 1: the home slot is empty
      if meta[r] == EMPTY {
        InsertHead(key, r);
        return true, r;
      }
      // Case 2: the home slot belongs to another chain
      if !IsHead(meta[r]) {
        NotOnChain(tr, Geo(), meta[..], kv[..], chains, order, Contents, key);
        if IsFull() { return false, r; }
        ok := TrySpareListHead(r, key);
        return;
      }
      // Case 3: the home slot is the head of the right chain
      ok, r := InsertOnChain(r, key);
    }

    method InsertHead(key: K, h: int)
      requires Valid() && 0 <= h < slots && h == Geo().home(key) && meta[h] == EMPTY
      modifies this, meta, kv, prev, next
      ensures Pending(tr, Geo(), T(), h) && Inserts(tr, T(), h, key, old(Contents))
      ensures Find(old(Contents), tr.eq, key) == |old(Contents)|
    {
      hide ListOk, Chained, Pending, Inserts, Lawful, Holds, Tracks, DistinctKeys;
      SearchReady();
      NoChainAt(Geo(), meta[..], kv[..], chains, 0, [], -1, h);
      NotOnChain(tr, Geo(), meta[..], kv[..], chains, order, Contents, key);
      ghost var t := T();
      NewNode(h, 0, key, nil);
      chains := chains[h := [h]];
      size := size + 1;
      HeadInserted(tr, Geo(), t, T(), -1, h, key, nil);
    }

    method InsertOnChain(h: int, key: K) returns (ok: bool, r: int)
      requires Valid() && 0 <= h < slots && h == Geo().home(key) && chains[h] != [] && chains[h][0] == h
      modifies this, meta, kv, prev, next
      ensures ok ==> Pending(tr, Geo(), T(), r) && Inserts(tr, T(), r, key, old(Contents))
      ensures !ok ==> ListOk(tr, Geo(), T()) && Contents == old(Contents)
      ensures ok <==> !Refuses(tr, Geo(), old(T()), key)
    {
      hide ListOk, WellChained, Lawful, Exhausted, FreeSlots, Refuses, Overloaded, Geo, Pending, Inserts;
      SearchReady();
      RefusesOnChain(h, key);
      var found, iter := FindOnChain(h, key);
      if found {
        TakeEntry(iter, key);
        return true, iter;
      }
      if IsFull() { return false, iter; }
      var jump;
      ok, jump, r := GetNextEmpty(iter);
      if ok {
        AppendTail(h, iter, jump, r, key);
      }
    }

    /** A key whose chain exists is refused when it is new and the table is full or the chain cannot be extended. */
    lemma RefusesOnChain(h: int, key: K)
      requires Valid() && 0 <= h < slots && h == Geo().home(key) && chains[h] != []
      ensures Refuses(tr, Geo(), T(), key) <==>
              && Find(Contents, tr.eq, key) == |Contents|
              && (IsFull() || Exhausted(Geo(), FreeSlots(meta[..]), chains[h][|chains[h]| - 1]))
    {
      hide DenseTable.Valid, WellChained, Lawful, Holds, Tracks, DistinctKeys, Exhausted, FreeSlots, Overloaded;
      SearchReady();
      ChainStep(Geo(), meta[..], kv[..], chains, h, 0);
      HeadBit(Geo(), meta[..], kv[..], chains, h);
    }

    /** The key is present in slot r: its entry leaves the iteration list. */
    method TakeEntry(r: int, key: K)
      requires Valid() && Find(Contents, tr.eq, key) < |order| && r == order[Find(Contents, tr.eq, key)]
      modifies this, meta, kv, prev, next
      ensures Pending(tr, Geo(), T(), r) && Inserts(tr, T(), r, key, old(Contents))
    {
      ghost var f := Find(Contents, tr.eq, key);
      ghost var t := T();
      IterListUnlink(r, f);
      ExistingTaken(tr, Geo(), t, T(), f, key);
      Contents := DropAt(Contents, f);
    }

    /** The key goes into the empty slot e, reached by a jump from w, the last slot of its chain. */
    method AppendTail(h: int, w: int, jump: int, e: int, key: K)
      requires Valid() && 0 <= h < slots && h == Geo().home(key) && chains[h] != [] && w == chains[h][|chains[h]| - 1]
      requires 0 <= w < slots && Occ(meta[w]) && Find(Contents, tr.eq, key) == |Contents|
      requires 0 <= e < slots && meta[e] == EMPTY && 0 < jump < NUM_JUMP_DISTS && Geo().step(w, jump) == e
      modifies this, meta, kv, prev, next
      ensures Pending(tr, Geo(), T(), e) && Inserts(tr, T(), e, key, old(Contents))
    {
      hide ListOk, WellChained, Pending, Inserts, Lawful;
      ghost var t := T();
      ChainPerSlot(Geo(), meta[..], kv[..], chains);
      NewNode(e, 128, key, nil);
      SetJump(w, jump);
      chains := chains[h := chains[h] + [e]];
      size := size + 1;
      assert T().meta == t.meta[e := 128][w := WithJump(t.meta[w], jump)];
      TailInserted(tr, Geo(), t, T(), h, w, e, jump, key, nil);
    }

    /** Walk the chain of key's home h: to the entry with an equal key, or to the last slot. */
    method FindOnChain(h: int, key: K) returns (found: bool, iter: int)
      requires Valid() && 0 <= h < slots && h == Geo().home(key) && chains[h] != [] && chains[h][0] == h
      ensures 0 <= iter < slots && Occ(meta[iter]) && found == (Find(Contents, tr.eq, key) < |Contents|)
      ensures iter == if found then order[Find(Contents, tr.eq, key)] else chains[h][|chains[h]| - 1]
    {
      hide DenseTable.Valid, WellChained, Holds, Tracks, DistinctKeys, Lawful, Passed;
      SearchReady();
      iter := h;
      var nxt := h;
      ghost var k: nat := 0;
      Standing(h, 0);
      NonePassed(h, key);
      while nxt != NONE
        invariant StandsAt(h, k, nxt) && Passed(h, k, key)
        invariant if k > 0 then StandsAt(h, k - 1, iter) else iter == h
        decreases |chains[h]| - k
      {
        if tr.eq(key, kv[nxt].key) {
          FoundAt(tr, meta[..], kv[..], order, Contents, key, nxt);
          return true, nxt;
        }
        PassOne(h, k, nxt, key);
        iter := nxt;
        nxt := MoveAlong(nxt, h, k);
        k := k + 1;
      }
      PassedAll(h, key);
      found := false;
    }

    /** The slot before i on its chain: walk from the head of the chain of i's key until the next slot is i. */
    method FindPrev(i: int, ghost p: nat) returns (w: int)
      requires Shape() && WellChained(Geo(), meta[..], kv[..], chains) && 0 <= i < slots && kv[i].KV?
      requires 0 <= Geo().home(kv[i].key) < slots
      requires var c := chains[Geo().home(kv[i].key)]; 0 < p < |c| && c[p] == i
      ensures w == chains[Geo().home(kv[i].key)][p - 1]
    {
      hide WellChained;
      ChainPerSlot(Geo(), meta[..], kv[..], chains);
      var h := IndexFromHash(kv[i].key);
      HeadBit(Geo(), meta[..], kv[..], chains, h);
      Standing(h, 0);
      ghost var k: nat := 0;
      w := h;
      var nxt := MoveAlong(h, h, 0);
      while nxt != i
        invariant k + 1 <= p && StandsAt(h, k, w) && StandsAt(h, k + 1, nxt)
        decreases p - k
      {
        w := nxt;
        nxt := MoveAlong(nxt, h, k + 1);
        k := k + 1;
      }
      OnePlace(Geo(), meta[..], kv[..], chains, h, k + 1, p);
    }

    method TrySpareListHead(target: int, key: K) returns (ok: bool)
      requires Valid() && 0 <= target < slots && target == Geo().home(key)
      requires Occ(meta[target]) && !IsHead(meta[target])
      requires Find(Contents, tr.eq, key) == |Contents|
      modifies this, meta, kv, prev, next
      ensures ok ==> Pending(tr, Geo(), T(), target) && Inserts(tr, T(), target, key, old(Contents))
      ensures !ok ==> ListOk(tr, Geo(), T()) && Contents == old(Contents)
      ensures ok <==> !CannotSpare(Geo(), old(T()), target)
    {
      var w;
      ghost var h0, f;
      w, h0, f := CutAt(target);
      ok := MoveChainAway(h0, w, f, target);
      if ok {
        HeadAfterMove(target, key);
      }
    }

    /** Find the slot before target, where its chain is about to be cut. Nothing is written. */
    method CutAt(target: int) returns (w: int, ghost h0: int, ghost f: seq<int>)
      requires Valid() && 0 <= target < slots && Occ(meta[target]) && !IsHead(meta[target])
      modifies this`chains
      ensures Moving(tr, Geo(), T(), h0, w, f, target, true)
      ensures CannotSpare(Geo(), old(T()), target) <==> Stuck(Geo(), FreeSlots(meta[..]), w, f, true)
    {
      hide Moving, ListOk;
      GeoSane();
      HeadBit(Geo(), meta[..], kv[..], chains, target);
      h0 := Geo().home(kv[target].key);
      ghost var p := Position(chains[h0], target);
      ChainStep(Geo(), meta[..], kv[..], chains, h0, p);
      w := FindPrev(target, p);
      MoveStart(tr, Geo(), T(), h0, p);
      f := chains[h0][p..];
      chains := chains[h0 := chains[h0][..p]];
    }

    /** Move the part of a chain that starts at target behind slot w, one slot after the other. */
    method MoveChainAway(ghost h0: int, start: int, ghost f0: seq<int>, target: int) returns (ok: bool)
      requires Shape() && Moving(tr, Geo(), T(), h0, start, f0, target, true)
      modifies this, meta, kv, prev, next
      ensures ListOk(tr, Geo(), T()) && Contents == old(Contents)
      ensures ok ==> Chained(Geo(), meta[..], kv[..], chains, 0, [], target) && meta[target] == PROTECTED
      ensures ok <==> !Stuck(Geo(), FreeSlots(old(meta[..])), start, f0, true)
    {
      assert f0 != [] && f0[0] == target;
      hide Moving, ListOk, Chained, Geo, Exhausted, FreeSlots, Landing, AfterRound;
      ghost var f := f0;
      var w, r := start, target;
      var first, done := true, false;
      while !done
        invariant Moving(tr, Geo(), T(), h0, w, f, target, first)
        invariant Contents == old(Contents)
        invariant Stuck(Geo(), FreeSlots(meta[..]), w, f, first) <==>
            Stuck(Geo(), FreeSlots(old(meta[..])), start, f0, true)
        invariant !done ==> f != [] && r == f[0]
        invariant done ==> f == [] && !first && 0 <= w < slots && meta[w] == 128
        decreases |f|
      {
        var moved;
        moved, w, r := MoveOne(h0, w, r, f, target, first);
        if !moved {
          return false;
        }
        first, f, done := false, f[1..], r == NONE;
      }
      MoveDone(tr, Geo(), T(), h0, w, target);
      ok := true;
    }

    /** One round of the move; it fails when no probe after w finds an empty slot. */
    method MoveOne(ghost h0: int, w: int, r: int, ghost f: seq<int>, ghost target: int, first: bool)
      returns (moved: bool, e: int, nxt: int)
      requires Shape() && Moving(tr, Geo(), T(), h0, w, f, target, first) && f != [] && r == f[0]
      modifies this, meta, kv, prev, next
      ensures Contents == old(Contents)
      ensures moved ==> Moving(tr, Geo(), T(), h0, e, f[1..], target, false) && 0 <= e < slots && meta[e] == 128
      ensures moved ==> (if |f| > 1 then nxt == f[1] != NONE else nxt == NONE)
      ensures !moved ==> ListOk(tr, Geo(), T())
      ensures moved <==> !Exhausted(Geo(), FreeSlots(old(meta[..])), w)
      ensures moved ==> e == Landing(Geo(), FreeSlots(old(meta[..])), w)
      ensures moved ==> FreeSlots(meta[..]) == AfterRound(Geo(), FreeSlots(old(meta[..])), w, r, first)
    {
      hide FirstJump, FreeSlots, Exhausted, Landing, AfterRound, ListOk, Chained;
      MoveNext(tr, Geo(), T(), h0, w, f, target, first);
      nxt := MoveToNext(r, meta[r]);
      var jump;
      moved, jump, e := GetNextEmpty(w);
      if moved { MoveInto(h0, w, r, f, target, first, e, jump); }
    }

    /** The pair of r, the first of the slots f, moves to the free slot e that w reaches by jump. */
    method MoveInto(ghost h0: int, w: int, r: int, ghost f: seq<int>, ghost target: int, first: bool, e: int, jump: int)
      requires Shape() && Moving(tr, Geo(), T(), h0, w, f, target, first) && f != [] && r == f[0]
      requires 0 <= w < slots && 0 <= e < slots && meta[e] == EMPTY && 0 < jump < NUM_JUMP_DISTS
      requires Geo().step(w, jump) == e && jump == FirstJump(Geo(), FreeSlots(meta[..]), w, 1)
      modifies this, meta, kv, prev, next
      ensures Contents == old(Contents)
      ensures Moving(tr, Geo(), T(), h0, e, f[1..], target, false) && meta[e] == 128
      ensures !Exhausted(Geo(), FreeSlots(old(meta[..])), w) && e == Landing(Geo(), FreeSlots(old(meta[..])), w)
      ensures FreeSlots(meta[..]) == AfterRound(Geo(), FreeSlots(old(meta[..])), w, r, first)
    {
      hide FirstJump, FreeSlots, Exhausted, Landing, AfterRound, Moving, Steps, IterList, ListLinked;
      MoveNext(tr, Geo(), T(), h0, w, f, target, first);
      MoveReady(tr, Geo(), T(), h0, w, f, target, first, e);
      ghost var jr: nat :| jr < |order| && order[jr] == r;
      ghost var t := T();
      RoundWrites(h0, w, r, first, e, jump, jr);
      RoundDone(Geo(), t, T(), h0, w, r, first, e, jump, jr);
      MoveStep(tr, Geo(), t, T(), h0, w, f, target, first, e, jump, jr);
    }

    method RoundWrites(ghost h0: int, w: int, r: int, first: bool, e: int, jump: int, ghost jr: nat)
      requires Shape() && ListLinked(T()) && |chains| == slots && 0 <= h0 < slots && 0 <= w < slots && 0 <= r < slots
      requires kv[r].KV? && 0 <= e < slots && w != r && w != e && r != e && 0 < jump < NUM_JUMP_DISTS
      requires jr < |order| && order[jr] == r && e !in order
      modifies this, meta, kv, prev, next
      ensures Contents == old(Contents) && Steps(old(T()), T(), h0, w, r, first, e, jump, jr)
    {
      NewNode(e, 128, kv[r].key, kv[r].val);
      IterListReplaceNodeBy(r, e, jr);
      Vacate(r, if first then PROTECTED else EMPTY);
      SetJump(w, jump);
      chains := chains[h0 := chains[h0] + [e]];
    }

    method HeadAfterMove(target: int, key: K)
      requires Shape() && ListOk(tr, Geo(), T()) && Chained(Geo(), meta[..], kv[..], chains, 0, [], target)
      requires 0 <= target < slots && target == Geo().home(key) && meta[target] == PROTECTED
      requires Find(Contents, tr.eq, key) == |Contents|
      modifies this, meta, kv, prev, next
      ensures Pending(tr, Geo(), T(), target) && Inserts(tr, T(), target, key, old(Contents))
    {
      hide ListOk, Pending, Inserts, Lawful;
      ghost var t := T();
      OneChainEach(Geo(), meta[..], kv[..], chains, target);
      hide Chained;
      NewNode(target, 0, key, nil);
      chains := chains[target := [target]];
      size := size + 1;
      HeadInserted(tr, Geo(), t, T(), target, target, key, nil);
    }

    // ---------------------------------------------------------------- erasure

    /** Erase the entry for key, if there is one. */
    method Erase(key: K) returns (erased: bool)
      requires Valid()
      modifies this, meta, kv, prev, next
      ensures Valid() && Contents == Remove(old(Contents), tr.eq, key)
      ensures erased == (Find(old(Contents), tr.eq, key) < |old(Contents)|)
    {
      var r := Search(key);
      erased := r != NONE;
      if erased {
        EraseSlot(r, Find(Contents, tr.eq, key));
      }
    }

    /** Erase the entry in slot i, which is number j in iteration order. */
    method EraseSlot(i: int, ghost j: nat)
      requires Valid() && j < |order| && order[j] == i
      modifies this, meta, kv, prev, next
      ensures Valid() && j < |old(Contents)| && Contents == DropAt(old(Contents), j)
    {
      GeoSane();
      EraseReady(tr, Geo(), T(), i, j);
      ghost var h := Geo().home(kv[i].key);
      ghost var p: nat :| p < |chains[h]| && chains[h][p] == i;
      ChainStep(Geo(), meta[..], kv[..], chains, h, p);
      HeadBit(Geo(), meta[..], kv[..], chains, h);
      var inner := HasNext(meta[i]);
      if !inner {
        if IsHead(meta[i]) {
          EraseOnly(i, j);
        } else {
          EraseTail(i, h, p, j);
        }
      } else {
        var last, w := FindLast(i, h, p);
        EraseMiddle(i, last, w, h, p, j);
      }
    }

    method EraseOnly(i: int, ghost j: nat)
      requires Valid() && 0 <= i < slots && |chains| == slots && chains[i] == [i] && j < |order| && order[j] == i
      modifies this, meta, kv, prev, next
      ensures Valid() && j < |old(Contents)| && Contents == DropAt(old(Contents), j)
    {
      ghost var t := T();
      hide DenseTable.Valid, IterList;
      EraseReady(tr, Geo(), t, i, j);
      size := size - 1;
      IterListUnlink(i, j);
      Vacate(i, EMPTY);
      Contents := DropAt(Contents, j);
      chains := chains[i := []];
      OnlyErased(tr, Geo(), t, T(), i, j);
    }

    method EraseTail(i: int, ghost h: int, ghost p: nat, ghost j: nat)
      requires Valid() && 0 <= h < slots && |chains| == slots && p == |chains[h]| - 1 > 0 && chains[h][p] == i
      requires j < |order| && order[j] == i
      requires 0 <= i < slots && kv[i].KV? && h == Geo().home(kv[i].key)
      modifies this, meta, kv, prev, next
      ensures Valid() && j < |old(Contents)| && Contents == DropAt(old(Contents), j)
    {
      var w := FindPrev(i, p);
      ghost var t := T();
      EraseReady(tr, Geo(), t, i, j);
      ThreeOnChain(Geo(), meta[..], kv[..], chains, h, 0);
      hide DenseTable.Valid, IterList, ErasesTail;
      TailWrites(i, w, h, j);
      TailErased(tr, Geo(), t, T(), h, w, i, j);
    }

    method TailWrites(i: int, w: int, ghost h: int, ghost j: nat)
      requires Shape() && ListLinked(T()) && j < |order| == |Contents| == size && order[j] == i
      requires 0 <= i < slots && 0 <= w < slots && w != i && |chains| == slots && 0 <= h < slots && chains[h] != []
      modifies this, meta, kv, prev, next
      ensures ErasesTail(old(T()), T(), h, w, i, j) && Contents == DropAt(old(Contents), j)
    {
      hide IterList;
      size := size - 1;
      SetJump(w, 0);
      IterListUnlink(i, j);
      Vacate(i, EMPTY);
      Contents := DropAt(Contents, j);
      chains := chains[h := chains[h][..|chains[h]| - 1]];
    }

    /** The last slot of the chain that i, at position p, is on, and the slot before it. */
    method FindLast(i: int, ghost h: int, ghost p: nat) returns (last: int, w: int)
      requires Shape() && WellChained(Geo(), meta[..], kv[..], chains) && 0 <= h < slots
      requires p < |chains[h]| - 1 && chains[h][p] == i
      ensures last == chains[h][|chains[h]| - 1] && w == chains[h][|chains[h]| - 2]
    {
      hide WellChained;
      ChainPerSlot(Geo(), meta[..], kv[..], chains);
      ghost var k := p + 1;
      Standing(h, p);
      w := i;
      last := MoveAlong(i, h, p);
      var more := MoreBehind(last, h, k);
      while more
        invariant p < k && StandsAt(h, k - 1, w) && StandsAt(h, k, last)
        invariant k < |chains[h]| && more == (k + 1 < |chains[h]|)
        decreases |chains[h]| - k
      {
        w := last;
        last := MoveAlong(last, h, k);
        k := k + 1;
        more := MoreBehind(last, h, k);
      }
    }

    method MoreBehind(i: int, ghost h: int, ghost k: nat) returns (b: bool)
      requires Shape() && WellChained(Geo(), meta[..], kv[..], chains) && StandsAt(h, k, i) && k < |chains[h]|
      ensures b == (k + 1 < |chains[h]|)
    {
      hide WellChained;
      ChainStep(Geo(), meta[..], kv[..], chains, h, k);
      b := HasNext(meta[i]);
    }

    method EraseMiddle(i: int, last: int, w: int, ghost h: int, ghost p: nat, ghost j: nat)
      requires Valid() && 0 <= h < slots && |chains| == slots && p < |chains[h]| - 1 && chains[h][p] == i
      requires last == chains[h][|chains[h]| - 1] && w == chains[h][|chains[h]| - 2]
      requires j < |order| && order[j] == i
      modifies this, meta, kv, prev, next
      ensures Valid() && j < |old(Contents)| && Contents == DropAt(old(Contents), j)
    {
      ghost var t := T();
      hide DenseTable.Valid, IterList, ErasesMiddle;
      MiddleReady(tr, Geo(), t, h, p, i, w, last, j);
      ghost var jl := MiddleWrites(i, last, w, h, j);
      MidErased(tr, Geo(), t, T(), h, p, i, w, last, j, jl);
    }

    method MiddleWrites(i: int, last: int, w: int, ghost h: int, ghost j: nat) returns (ghost jl: nat)
      requires Shape() && ListLinked(T()) && j < |order| == |Contents| == size && order[j] == i
      requires 0 <= i < slots && 0 <= last < slots && 0 <= w < slots && last != i && last != w && kv[last].KV?
      requires |chains| == slots && 0 <= h < slots && chains[h] != []
      requires last in DropAt(order, j) && i !in DropAt(order, j) && |DropAt(order, j)| == |order| - 1
      modifies this, meta, kv, prev, next
      ensures ErasesMiddle(old(T()), T(), h, i, w, last, j, jl) && Contents == DropAt(old(Contents), j)
    {
      hide IterList, ErasesMiddle;
      ghost var t := T();
      size := size - 1;
      jl := TakeOver(i, last, j);
      ghost var u := T();
      Vacate(last, EMPTY);
      SetJump(w, 0);
      Contents := DropAt(Contents, j);
      chains := chains[h := chains[h][..|chains[h]| - 1]];
      TailReleased(t, u, T(), h, i, w, last, j, jl);
    }

    /** Slot i leaves the list and takes over the pair and the list place of slot last. */
    method TakeOver(i: int, last: int, ghost j: nat) returns (ghost jl: nat)
      requires Shape() && ListLinked(T()) && j < |order| && order[j] == i
      requires 0 <= i < slots && 0 <= last < slots && last != i
      requires last in DropAt(order, j) && i !in DropAt(order, j)
      modifies this`iterHead, this`iterTail, this`order, kv, prev, next
      ensures jl < |DropAt(old(order), j)| && DropAt(old(order), j)[jl] == last
      ensures kv[..] == old(kv[..])[i := old(kv[last])]
      ensures Relinked(old(T()).(kv := kv[..]), T(), DropAt(old(order), j)[jl := i])
    {
      hide IterList;
      IterListUnlink(i, j);
      jl :| jl < |order| && order[jl] == last;
      kv[i] := kv[last];
      IterListReplaceNodeBy(last, i, jl);
    }

    // ---------------------------------------------------- insertion and rehash

    /** Set key to val. When the table refuses the key it is rebuilt at twice the size, as often as needed: ws holds the
        tables of every size passed over, each filled with some of the entries in order and refusing the next. ok is
        false only when none is left, up to 2^62 slots (the repository throws). */
    static method InsertMaybeReHash(key: K, val: V, table: DenseMap<K, V>)
      returns (ok: bool, out: DenseMap<K, V>, ghost ws: seq<Table<K, V>>)
      requires table.Valid()
      modifies table, table.meta, table.kv, table.prev, table.next
      ensures ok ==> out.Valid() && out.tr == table.tr && out.nil == table.nil
      ensures ok ==> out.Contents == SetLast(old(table.Contents), table.tr.eq, key, val)
      ensures ok ==> out == table || (fresh(out.Repr()) && out.slots > table.slots)
      ensures Ladder(table.tr, old(table.Contents) + [(key, val)], table.fib, ws)
      ensures if ok then out.fib == table.fib - |ws| else |ws| == table.fib - 1
      ensures !Refuses(table.tr, table.Geo(), old(table.T()), key) ==> ok && out == table
      ensures Refuses(table.tr, table.Geo(), old(table.T()), key) && ok ==> out != table
      ensures table.slots == 8 ==> ok && |ws| <= 1
      ensures !ok ==> out.slots * 2 > MAX_SLOTS
      decreases table.fib, 2
    {
      hide DenseTable.Valid, ListOk, Pending, Refuses, Ladder;
      ghost var t := table.T();
      LadderNone(table.tr, table.Contents + [(key, val)], table.fib);
      ws := [];
      var inserted, r := table.TryInsert(key);
      if inserted {
        table.StoreAndPushBack(r, val);
        return true, table, [];
      }
      LadderOne(table.tr, t, table.fib, key, val);
      ok, out, ws := Rehash(key, val, table);
      LadderJoin(table.tr, t.entries + [(key, val)], table.fib, [t], ws);
      ws := [t] + ws;
      EightSlots(table.fib, table.slots);
      SizeIsCount(table.tr, table.Geo(), t);
      if table.slots == 8 { EightGrowOnce(table.tr, t.entries + [(key, val)], ws); }
    }

    /** The table could not take the key; its iteration list is intact whatever happened to its chains. */
    static method Rehash(key: K, val: V, table: DenseMap<K, V>)
      returns (ok: bool, out: DenseMap<K, V>, ghost ws: seq<Table<K, V>>)
      requires table.Shape() && ListOk(table.tr, table.Geo(), table.T())
      modifies table.kv
      ensures ok ==> out.Valid() && out.tr == table.tr && out.nil == table.nil
      ensures ok ==> out.Contents == SetLast(old(table.Contents), table.tr.eq, key, val)
      ensures ok ==> fresh(out.Repr()) && out.slots > table.slots
      ensures Ladder(table.tr, old(table.Contents) + [(key, val)], table.fib - 1, ws)
      ensures if ok then out.fib == table.fib - 1 - |ws| else |ws| == table.fib - 2
      ensures !ok ==> out.slots * 2 > MAX_SLOTS
      decreases table.fib, 1
    {
      hide DenseTable.Valid, ListOk, Refuses, Ladder;
      LadderNone(table.tr, table.Contents + [(key, val)], table.fib - 1);
      LargestTable(table.fib, table.slots);
      if table.slots * 2 > MAX_SLOTS {
        return false, table, [];
      }
      ghost var es := table.Contents;
      ok, out, ws := MoveEntries(table);
      LadderMore(table.tr, es, es + [(key, val)], table.fib - 1, ws);
      if ok {
        ghost var vs;
        ok, out, vs := InsertMaybeReHash(key, val, out);
        LadderJoin(table.tr, es + [(key, val)], table.fib - 1, ws, vs);
        ws := ws + vs;
      }
    }

    /** Complete a successful TryInsert. */
    method StoreAndPushBack(r: int, val: V)
      requires Shape() && Pending(tr, Geo(), T(), r)
      modifies this, kv, prev, next
      ensures Valid() && Contents == old(Contents) + [(old(kv[r]).key, val)]
    {
      ghost var t := T();
      kv[r] := KV(kv[r].key, val);
      IterListPushBack(r);
      Finished(tr, Geo(), t, T(), r, val);
      Contents := Contents + [(t.kv[r].key, val)];
    }

    /** An empty table of twice the size. */
    method Doubled() returns (p: DenseMap<K, V>)
      requires Shape() && slots * 2 <= MAX_SLOTS
      ensures p.Valid() && fresh(p.Repr()) && p.Contents == []
      ensures p.tr == tr && p.nil == nil && p.fib == fib - 1 && p.slots == 2 * slots
    {
      Probing.DoubledTable(fib, slots);
      p := new DenseMap.Empty(tr, nil, fib - 1, slots * 2);
    }

    /** Insert all entries, in their order, into a fresh table of twice the size. The chains of from may be
        broken; only its iteration list is used. */
    static method MoveEntries(from: DenseMap<K, V>)
      returns (ok: bool, out: DenseMap<K, V>, ghost ws: seq<Table<K, V>>)
      requires from.Shape() && ListOk(from.tr, from.Geo(), from.T()) && from.slots * 2 <= MAX_SLOTS
      modifies from.kv
      ensures ok ==> out.Valid() && out.tr == from.tr && out.nil == from.nil && out.fib < from.fib
      ensures ok ==> out.Contents == old(from.Contents) && fresh(out.Repr()) && out.slots > from.slots
      ensures Ladder(from.tr, old(from.Contents), from.fib - 1, ws)
      ensures if ok then out.fib == from.fib - 1 - |ws| else |ws| == from.fib - 2
      ensures !ok ==> out.slots * 2 > MAX_SLOTS
      decreases from.fib, 0
    {
      hide DenseTable.Valid, ListOk, Walkable, Unmoved, Ladder;
      out := from.Doubled();
      ghost var t := from.T();
      WalkReady(from.tr, from.Geo(), t);
      ok, out, ws := InsertAll(from, out, t);
    }

    /** The first k entries of the old table, whose state was t, have been inserted into dst. */
    static ghost predicate Copied(from: DenseMap<K, V>, dst: DenseMap<K, V>, t: Table<K, V>, k: nat)
      reads from.kv, from.next, dst, dst.meta, dst.kv, dst.prev, dst.next
    {
      && from != dst && from.kv != dst.kv && from.next != dst.meta && from.next != dst.prev && from.next != dst.next
      && from.next[..] == t.next && Unmoved(from.kv[..], t.order, t.entries, k)
      && dst.Valid() && dst.tr == from.tr && dst.nil == from.nil && dst.fib < from.fib
      && k <= |t.entries| && DistinctKeys(t.entries, from.tr.eq) && dst.Contents == t.entries[..k]
    }

    /** Walk the iteration list of from and insert each entry into dst. */
    static method InsertAll(from: DenseMap<K, V>, dst: DenseMap<K, V>, ghost t: Table<K, V>)
      returns (ok: bool, out: DenseMap<K, V>, ghost ws: seq<Table<K, V>>)
      requires from.Shape() && Walkable(t, from.slots) && t == from.T() && Copied(from, dst, t, 0)
      modifies from.kv, dst, dst.meta, dst.kv, dst.prev, dst.next
      ensures ok ==> Copied(from, out, t, |t.entries|) && out.slots >= dst.slots
      ensures ok ==> out == dst || fresh(out.Repr())
      ensures Ladder(from.tr, t.entries, dst.fib, ws)
      ensures if ok then out.fib == dst.fib - |ws| else |ws| == dst.fib - 1
      ensures !ok ==> out.slots * 2 > MAX_SLOTS
      decreases from.fib, 0, 0
    {
      hide Copied, Walkable, Ladder, DenseTable.Valid, ListOk;
      out, ws := dst, [];
      LadderNone(from.tr, t.entries, dst.fib);
      WalkStarts(t, from.slots);
      var index := from.iterHead;
      ghost var k: nat := 0;
      while index != INVALID
        invariant k <= |t.entries| && index == if k < |t.entries| then t.order[k] else INVALID
        invariant Copied(from, out, t, k) && out.slots >= dst.slots
        invariant Ladder(from.tr, t.entries, dst.fib, ws) && out.fib == dst.fib - |ws|
        invariant out == dst || fresh(out.Repr())
        decreases |t.entries| - k
      {
        ghost var vs;
        ok, out, index, vs := MoveEntry(from, index, out, t, k);
        LadderJoin(from.tr, t.entries, dst.fib, ws, vs);
        ws := ws + vs;
        if !ok { return; }
        k := k + 1;
      }
      ok := true;
    }

    static method MoveEntry(from: DenseMap<K, V>, index: int, dst: DenseMap<K, V>, ghost t: Table<K, V>, ghost k: nat)
      returns (ok: bool, out: DenseMap<K, V>, nxt: int, ghost ws: seq<Table<K, V>>)
      requires from.Shape() && Walkable(t, from.slots) && Copied(from, dst, t, k)
      requires k < |t.entries| == |t.order| && index == t.order[k]
      modifies from.kv, dst, dst.meta, dst.kv, dst.prev, dst.next
      ensures ok ==> Copied(from, out, t, k + 1) && out.slots >= dst.slots
      ensures ok ==> out == dst || fresh(out.Repr())
      ensures Ladder(from.tr, t.entries, dst.fib, ws)
      ensures if ok then out.fib == dst.fib - |ws| else |ws| == dst.fib - 1
      ensures !ok ==> out.slots * 2 > MAX_SLOTS
      ensures nxt == if k + 1 < |t.order| then t.order[k + 1] else INVALID
      decreases from.fib, 0, 0, 0
    {
      hide DenseTable.Valid, SetLast, Walkable, Unmoved, Refuses, Ladder, DistinctKeys;
      MovedOne(t, from.slots, k, from.kv[..]);
      RebuildStep(t.entries, from.tr, k);
      assert t.entries[..k] + [t.entries[k]] == t.entries[..k + 1];
      ok, out, ws := InsertMaybeReHash(from.kv[index].key, from.kv[index].val, dst);
      LadderMore(from.tr, t.entries[..k + 1], t.entries, dst.fib, ws);
      nxt := from.next[index];
      from.kv[index] := Raw;
    }

    // ------------------------------------------------------ copying, iterating

    /** The uninitialised blocks CopyFrom starts from, with the counters and list ends already copied. */
    constructor Blank(from: DenseMap<K, V>)
      requires from.Shape()
      ensures Shape() && fresh(Repr()) && tr == from.tr && nil == from.nil && fib == from.fib && slots == from.slots
      ensures size == from.size && iterHead == from.iterHead && iterTail == from.iterTail
      ensures chains == from.chains && order == from.order && Contents == from.Contents
    {
      tr, nil, fib, slots := from.tr, from.nil, from.fib, from.slots;
      meta := new int[from.slots](_ => EMPTY);
      kv := new Cell<K, V>[from.slots](_ => Raw);
      prev := new int[from.slots](_ => INVALID);
      next := new int[from.slots](_ => INVALID);
      size, iterHead, iterTail := from.size, from.iterHead, from.iterTail;
      chains, order, Contents := from.chains, from.order, from.Contents;
    }

    /** A copy with the same layout, slot by slot. */
    static method CopyFrom(from: DenseMap<K, V>) returns (p: DenseMap<K, V>)
      requires from.Valid()
      ensures p.Valid() && fresh(p.Repr()) && p.Contents == from.Contents && SameSlots(from.T(), p.T())
      ensures p.tr == from.tr && p.nil == from.nil && p.slots == from.slots && p.fib == from.fib
    {
      hide DenseTable.Valid;
      p := new DenseMap.Blank(from);
      CopySlots(from, p);
      CopyOfValid(from.tr, from.Geo(), from.T(), p.T());
    }

    static method CopySlots(from: DenseMap<K, V>, p: DenseMap<K, V>)
      requires from.Shape() && p.Shape() && from.slots == p.slots
      requires from.meta != p.meta && from.prev != p.meta && from.next != p.meta
      requires from.meta != p.prev && from.prev != p.prev && from.next != p.prev
      requires from.meta != p.next && from.prev != p.next && from.next != p.next && from.kv != p.kv
      modifies p.meta, p.kv, p.prev, p.next
      ensures p.meta[..] == from.meta[..]
      ensures forall j :: 0 <= j < p.slots && Occ(from.meta[j]) ==>
                p.kv[..][j] == from.kv[..][j] && p.prev[..][j] == from.prev[..][j] && p.next[..][j] == from.next[..][j]
    {
      var i := 0;
      while i < from.slots
        invariant 0 <= i <= from.slots
        invariant forall j :: 0 <= j < i ==> p.meta[j] == from.meta[j]
        invariant forall j :: 0 <= j < i && Occ(from.meta[j]) ==>
                    p.kv[j] == from.kv[j] && p.prev[j] == from.prev[j] && p.next[j] == from.next[j]
      {
        p.meta[i] := from.meta[i];
        if p.meta[i] != EMPTY {
          p.kv[i] := from.kv[i];
          p.prev[i] := from.prev[i];
          p.next[i] := from.next[i];
        }
        i := i + 1;
      }
    }

    /** The iterator behind the one at entry j; INVALID, the end, behind the last. */
    method IncItr(index: int, ghost j: nat) returns (r: int)
      requires Valid() && j < |order| && index == order[j]
      ensures r == if j + 1 < |order| then order[j + 1] else INVALID
    {
      WalkReady(tr, Geo(), T());
      MovedOne(T(), slots, j, kv[..]);
      r := next[index];
    }

    /** Read the pair an iterator stands on. */
    method DeRefItr(index: int, ghost j: nat) returns (k: K, v: V)
      requires Valid() && j < |order| && index == order[j]
      ensures j < |Contents| && (k, v) == Contents[j]
    {
      k, v := kv[index].key, kv[index].val;
    }

    /** Get the value for a key; None stands for the KeyError of at(). */
    method Get(key: K) returns (v: Option<V>)
      requires Valid()
      ensures v == Lookup(Contents, tr.eq, key)
    {
      var r := Search(key);
      if r == NONE {
        v := None;
      } else {
        v := Some(kv[r].val);
      }
    }
  }
}
