// The whole state of a dense map as one value, and what every insertion and
// erasure keeps. Each lemma relates a state t to a later state u; how u's list
// links were written is the business of the list operations alone.
module DenseTable {
  import opened AssocList
  import opened DenseLayout

  const MAX_SLOTS: int := 0x4000_0000_0000_0000

  /** Slot storage and list ends, with the chains, the iteration order and the entries they stand for. */
  datatype Table<K, V> = Table(
    meta: seq<int>, kv: seq<Cell<K, V>>, prev: seq<int>, next: seq<int>, head: int, tail: int, size: int,
    chains: seq<seq<int>>, order: seq<int>, entries: seq<(K, V)>)

  ghost predicate Shaped<K(!new), V>(g: Geometry<K>, t: Table<K, V>) {
    && Sane(g) && g.n <= MAX_SLOTS
    && |t.meta| == |t.kv| == |t.prev| == |t.next| == g.n
  }

  /** The hash of a key decides its home, whichever of its equal forms is asked for. */
  ghost predicate Respects<K(!new)>(tr: KeyTraits<K>, g: Geometry<K>) {
    Lawful(tr) && forall a, b :: tr.eq(a, b) ==> g.home(a) == g.home(b)
  }

  ghost predicate ListLinked<K, V>(t: Table<K, V>) {
    IterList(t.prev, t.next, t.head, t.tail, t.order)
  }

  /** The iteration list runs through exactly the occupied slots and holds the entries in order. */
  ghost predicate ListOk<K(!new), V>(tr: KeyTraits<K>, g: Geometry<K>, t: Table<K, V>) {
    && Shaped(g, t) && Respects(tr, g)
    && ListLinked(t)
    && Holds(t.kv, t.order, t.entries)
    && Tracks(t.meta, t.order)
    && t.size == |t.order|
    && DistinctKeys(t.entries, tr.eq)
  }

  /** What holds between operations. */
  ghost predicate Valid<K(!new), V>(tr: KeyTraits<K>, g: Geometry<K>, t: Table<K, V>) {
    ListOk(tr, g, t) && WellChained(g, t.meta, t.kv, t.chains)
  }

  /** Slot r is constructed and chained but not yet on the iteration list; its key is new to the entries. */
  ghost predicate Pending<K(!new), V>(tr: KeyTraits<K>, g: Geometry<K>, t: Table<K, V>, r: int) {
    && Shaped(g, t) && Respects(tr, g)
    && WellChained(g, t.meta, t.kv, t.chains)
    && ListLinked(t)
    && Holds(t.kv, t.order, t.entries)
    && 0 <= r < g.n && r !in t.order && t.kv[r].KV?
    && Tracks(t.meta, t.order + [r])
    && t.size == |t.order| + 1
    && DistinctKeys(t.entries + [(t.kv[r].key, t.kv[r].val)], tr.eq)
  }

  /** Once v is stored in the pending slot r, the entries are those of was with key set to v. */
  ghost predicate Inserts<K, V(!new)>(tr: KeyTraits<K>, t: Table<K, V>, r: int, key: K, was: seq<(K, V)>) {
    && 0 <= r < |t.kv| && t.kv[r].KV?
    && forall v :: t.entries + [(t.kv[r].key, v)] == SetLast(was, tr.eq, key, v)
  }

  /** u has the list links of a list with order o, and everything else as in t. */
  ghost predicate Relinked<K, V>(t: Table<K, V>, u: Table<K, V>, o: seq<int>) {
    && u == t.(prev := u.prev, next := u.next, head := u.head, tail := u.tail, order := o)
    && |u.prev| == |t.prev| && |u.next| == |t.next|
    && ListLinked(u)
  }

  /** Walking the iteration list visits the entries in order; the chains play no part in it. */
  ghost predicate Walkable<K, V>(t: Table<K, V>, n: nat) {
    && |t.order| == |t.entries|
    && t.head == (if t.order == [] then INVALID else t.order[0])
    && (forall j :: 0 <= j < |t.order| ==> 0 <= t.order[j] < n < INVALID)
    && (forall j :: 0 <= j < |t.order| ==>
            n <= |t.next| && n <= |t.kv| && t.kv[t.order[j]] == KV(t.entries[j].0, t.entries[j].1))
    && (forall j, l :: 0 <= j < l < |t.order| ==> t.order[j] != t.order[l])
    && (forall j, l :: 0 <= j < l < |t.order| && l == j + 1 ==> n <= |t.next| && t.next[t.order[j]] == t.order[l])
    && (t.order != [] ==> n <= |t.next| && t.next[t.order[|t.order| - 1]] == INVALID)
  }

  lemma WalkStarts<K, V>(t: Table<K, V>, n: nat)
    requires Walkable(t, n)
    ensures |t.order| == |t.entries| && forall j :: 0 <= j < |t.order| ==> t.order[j] != INVALID
    ensures t.head == if t.order == [] then INVALID else t.order[0]
  {
  }

  lemma ListWalks<K(!new), V>(tr: KeyTraits<K>, g: Geometry<K>, t: Table<K, V>)
    requires ListOk(tr, g, t)
    ensures Walkable(t, g.n) && DistinctKeys(t.entries, tr.eq)
  {
  }

  lemma WalkReady<K(!new), V>(tr: KeyTraits<K>, g: Geometry<K>, t: Table<K, V>)
    requires ListOk(tr, g, t)
    ensures Walkable(t, g.n) && Unmoved(t.kv, t.order, t.entries, 0)
    ensures DistinctKeys(t.entries, tr.eq) && t.entries[..|t.entries|] == t.entries
  {
    hide IterList, Tracks, Walkable, ListLinked;
    ListWalks(tr, g, t);
    assert Unmoved(t.kv, t.order, t.entries, 0);
  }

  /** The entries from number k on are still in their slots. */
  ghost predicate Unmoved<K, V>(kv: seq<Cell<K, V>>, order: seq<int>, es: seq<(K, V)>, k: nat) {
    && |order| == |es|
    && forall j :: k <= j < |es| ==> 0 <= order[j] < |kv| && kv[order[j]] == KV(es[j].0, es[j].1)
  }

  lemma MovedOne<K, V>(t: Table<K, V>, n: nat, k: nat, kv: seq<Cell<K, V>>)
    requires Walkable(t, n) && k < |t.order| == |t.entries| && Unmoved(kv, t.order, t.entries, k)
    ensures 0 <= t.order[k] < n && 0 <= t.order[k] < |t.next| && t.order[k] < |kv| && t.order[k] != INVALID
    ensures kv[t.order[k]] == KV(t.entries[k].0, t.entries[k].1)
    ensures t.next[t.order[k]] == if k + 1 < |t.order| then t.order[k + 1] else INVALID
    ensures Unmoved(kv[t.order[k] := Raw], t.order, t.entries, k + 1)
    ensures k + 1 < |t.order| ==> t.order[k + 1] != INVALID
  {
    if k + 1 < |t.order| { assert t.next[t.order[k]] == t.order[k + 1]; }
  }

  /** A table with nothing but empty slots. */
  lemma NothingStored<K(!new), V(!new)>(tr: KeyTraits<K>, g: Geometry<K>, t: Table<K, V>)
    requires Shaped(g, t) && Respects(tr, g) && |t.chains| == g.n
    requires forall i :: 0 <= i < g.n ==> t.meta[i] == EMPTY && t.chains[i] == []
    requires t.head == t.tail == INVALID && t.size == 0 && t.order == [] && t.entries == []
    ensures Valid(tr, g, t)
  {
    assert forall h :: 0 <= h < g.n ==> Chain(g, t.meta, t.kv, h, t.chains[h]);
  }

  // -------------------------------------------------------------- insertion

  lemma AbsentKey<K(!new), V(!new)>(tr: KeyTraits<K>, es: seq<(K, V)>, key: K, val: V)
    requires Lawful(tr) && DistinctKeys(es, tr.eq) && Find(es, tr.eq, key) == |es|
    ensures DistinctKeys(es + [(key, val)], tr.eq)
    ensures forall v :: es + [(key, v)] == SetLast(es, tr.eq, key, v)
  {
  }

  /** A pair is built in slot r, outside the list; the chains are taken care of. */
  lemma {:induction false} SlotFilled<K(!new), V(!new)>(tr: KeyTraits<K>, g: Geometry<K>, t: Table<K, V>,
          u: Table<K, V>, r: int, key: K, nil: V)
    requires ListOk(tr, g, t) && Find(t.entries, tr.eq, key) == |t.entries|
    requires 0 <= r < g.n && !Occ(t.meta[r])
    requires u == t.(meta := u.meta, kv := t.kv[r := KV(key, nil)], chains := u.chains, size := t.size + 1)
    requires |u.meta| == g.n && Occ(u.meta[r])
    requires forall i :: 0 <= i < g.n && i != r ==> (Occ(u.meta[i]) <==> Occ(t.meta[i]))
    requires WellChained(g, u.meta, u.kv, u.chains)
    ensures Pending(tr, g, u, r) && Inserts(tr, u, r, key, t.entries)
  {
    FillSlot(t.meta, t.kv, u.meta, t.order, t.entries, r, KV(key, nil));
    AbsentKey(tr, t.entries, key, nil);
  }

  /** Case 1, and the end of case 2: the key becomes the head of its own chain. */
  lemma {:induction false} HeadInserted<K(!new), V(!new)>(tr: KeyTraits<K>, g: Geometry<K>, t: Table<K, V>,
          u: Table<K, V>, prot: int, h: int, key: K, nil: V)
    requires ListOk(tr, g, t) && Chained(g, t.meta, t.kv, t.chains, 0, [], prot)
    requires h == g.home(key) && !Occ(t.meta[h]) && (prot == -1 || prot == h)
    requires Find(t.entries, tr.eq, key) == |t.entries|
    requires u == t.(meta := t.meta[h := 0], kv := t.kv[h := KV(key, nil)], chains := t.chains[h := [h]],
          size := t.size + 1)
    ensures Pending(tr, g, u, h) && Inserts(tr, u, h, key, t.entries)
  {
    AddHead(g, t.meta, t.kv, t.chains, prot, h, key, nil);
    SlotFilled(tr, g, t, u, h, key, nil);
  }

  /** Case 3: the key joins the end of its chain. */
  lemma {:induction false} TailInserted<K(!new), V(!new)>(tr: KeyTraits<K>, g: Geometry<K>, t: Table<K, V>,
          u: Table<K, V>, h: int, w: int, e: int, j: int, key: K, nil: V)
    requires Valid(tr, g, t) && h == g.home(key) && t.chains[h] != [] && w == t.chains[h][|t.chains[h]| - 1]
    requires 0 <= w < g.n && Occ(t.meta[w])
    requires 0 <= e < g.n && t.meta[e] == EMPTY && 0 < j < NUM_JUMP_DISTS && g.step(w, j) == e
    requires Find(t.entries, tr.eq, key) == |t.entries|
    requires u == t.(meta := t.meta[e := 128][w := WithJump(t.meta[w], j)], kv := t.kv[e := KV(key, nil)],
                     chains := t.chains[h := t.chains[h] + [e]], size := t.size + 1)
    ensures Pending(tr, g, u, e) && Inserts(tr, u, e, key, t.entries)
  {
    hide ListOk, Chained;
    Parts(tr, g, t);
    AddTail(g, t.meta, t.kv, t.chains, 0, [], -1, h, w, e, j, key, nil);
    SlotFilled(tr, g, t, u, e, key, nil);
  }

  lemma {:induction false} TakenEntry<K(!new), V(!new)>(tr: KeyTraits<K>, es: seq<(K, V)>, key: K)
    requires Lawful(tr) && DistinctKeys(es, tr.eq) && Find(es, tr.eq, key) < |es|
    ensures var f := Find(es, tr.eq, key);
            && DistinctKeys(DropAt(es, f) + [es[f]], tr.eq)
            && forall v :: DropAt(es, f) + [(es[f].0, v)] == SetLast(es, tr.eq, key, v)
  {
    var f := Find(es, tr.eq, key);
    LookupAfterSetLast(es, tr, key, es[f].1, key);
  }

  /** Case 3, key present in slot r: its entry is taken off the list, to be pushed back at the end. */
  lemma {:induction false} ExistingTaken<K(!new), V(!new)>(tr: KeyTraits<K>, g: Geometry<K>, t: Table<K, V>,
          u: Table<K, V>, f: nat, key: K)
    requires Valid(tr, g, t) && f == Find(t.entries, tr.eq, key) && f < |t.order|
    requires Relinked(t, u, DropAt(t.order, f))
    ensures Pending(tr, g, u.(entries := DropAt(t.entries, f)), t.order[f])
    ensures Inserts(tr, u.(entries := DropAt(t.entries, f)), t.order[f], key, t.entries)
  {
    DropEntry(t.meta, t.kv, t.order, t.entries, f);
    TakenEntry(tr, t.entries, key);
  }

  /** Storing the value and pushing the pending slot back completes an insertion. */
  lemma {:induction false} Finished<K(!new), V(!new)>(tr: KeyTraits<K>, g: Geometry<K>, t: Table<K, V>, u: Table<K, V>,
          r: int, v: V)
    requires Pending(tr, g, t, r)
    requires Relinked(t.(kv := t.kv[r := KV(t.kv[r].key, v)]), u, t.order + [r])
    ensures Valid(tr, g, u.(entries := t.entries + [(t.kv[r].key, v)]))
  {
    hide Holds, Tracks, DistinctKeys, IterList, WellChained, Lawful;
    var k := t.kv[r].key;
    LastTracked(t.meta, t.order, r);
    HoldsOneMore(t.kv, t.order, t.entries, r, k, v);
    ValueIsNoKey(t.entries, tr.eq, k, t.kv[r].val, v);
    Overwrite(g, t.meta, t.kv, t.chains, r, k, v);
  }

  lemma LastTracked(meta: seq<int>, order: seq<int>, r: int)
    requires Tracks(meta, order + [r])
    ensures 0 <= r < |meta| && Occ(meta[r])
  {
    assert (order + [r])[|order|] == r;
  }

  lemma HoldsOneMore<K, V>(kv: seq<Cell<K, V>>, order: seq<int>, es: seq<(K, V)>, r: int, k: K, v: V)
    requires Holds(kv, order, es) && r !in order && 0 <= r < |kv|
    ensures Holds(kv[r := KV(k, v)], order + [r], es + [(k, v)])
  {
    assert forall j :: 0 <= j < |order| ==> (order + [r])[j] == order[j] && order[j] != r;
  }

  lemma ValueIsNoKey<K, V>(es: seq<(K, V)>, eq: (K, K) -> bool, k: K, v: V, w: V)
    requires DistinctKeys(es + [(k, v)], eq)
    ensures DistinctKeys(es + [(k, w)], eq)
  {
    assert forall j :: 0 <= j <= |es| ==> (es + [(k, w)])[j].0 == (es + [(k, v)])[j].0;
  }

  // ------------------------------------------------ moving a chain out of the way

  /** The chain of home h0 is being moved: its first part ends in slot w, whose old jump no longer
      counts; f is what is still to move, starting with target before the first step. */
  ghost predicate Moving<K(!new), V>(tr: KeyTraits<K>, g: Geometry<K>, t: Table<K, V>, h0: int, w: int, f: seq<int>,
          target: int, first: bool)
  {
    && ListOk(tr, g, t)
    && |t.chains| == g.n && 0 <= h0 < g.n && t.chains[h0] != [] && w == t.chains[h0][|t.chains[h0]| - 1]
    && 0 <= w < g.n && Occ(t.meta[w])
    && Chained(g, t.meta[w := WithJump(t.meta[w], 0)], t.kv, t.chains, h0, f, if first then -1 else target)
    && 0 <= target < g.n && (if first then f != [] && f[0] == target else t.meta[target] == PROTECTED)
  }

  /** Finding the slot before target cuts its chain there. */
  lemma {:induction false} MoveStart<K(!new), V>(tr: KeyTraits<K>, g: Geometry<K>, t: Table<K, V>, h0: int, p: int)
    requires Valid(tr, g, t) && 0 <= h0 < g.n && 0 < p < |t.chains[h0]|
    ensures Moving(tr, g, t.(chains := t.chains[h0 := t.chains[h0][..p]]), h0, t.chains[h0][p - 1],
                   t.chains[h0][p..], t.chains[h0][p], true)
  {
    CutBefore(g, t.meta, t.kv, t.chains, h0, p);
    assert t.chains[h0][p - 1] in t.chains[h0];
    OnChain(g, t.meta, t.kv, t.chains, 0, [], -1, h0, t.chains[h0][p - 1]);
    assert t.chains[h0][p] in t.chains[h0];
    OnChain(g, t.meta, t.kv, t.chains, 0, [], -1, h0, t.chains[h0][p]);
  }

  /** What the byte of the slot to move says about the slots behind it. */
  lemma {:induction false} MoveNext<K(!new), V>(tr: KeyTraits<K>, g: Geometry<K>, t: Table<K, V>, h0: int, w: int,
          f: seq<int>, target: int, first: bool)
    requires Moving(tr, g, t, h0, w, f, target, first) && f != []
    ensures var r := f[0];
            && 0 <= r < g.n && r != w && Occ(t.meta[r]) && t.kv[r].KV? && Jump(t.meta[r]) < NUM_JUMP_DISTS
            && g.home(t.kv[r].key) == h0 && r in t.order
            && (|f| == 1 ==> Jump(t.meta[r]) == 0)
            && (|f| > 1 ==> Jump(t.meta[r]) != 0 && g.step(r, Jump(t.meta[r])) == f[1])
  {
    var m := t.meta[w := WithJump(t.meta[w], 0)];
    assert w in t.chains[h0];
    assert Fragment(g, m, t.kv, h0, f);
    if |f| > 1 {
      assert JumpsTo(g, m, f[0], f[1]);
    }
  }

  /** What the writes of a round need to know about the empty slot e. */
  lemma {:induction false} MoveReady<K(!new), V>(tr: KeyTraits<K>, g: Geometry<K>, t: Table<K, V>, h0: int, w: int,
          f: seq<int>, target: int, first: bool, e: int)
    requires Moving(tr, g, t, h0, w, f, target, first) && f != [] && 0 <= e < g.n && t.meta[e] == EMPTY
    ensures |t.meta| == |t.kv| == |t.chains| == |t.prev| == |t.next| == g.n && 0 <= h0 < g.n && 0 <= w < g.n
    ensures ListLinked(t) && e !in t.order && e != w && e != f[0]
    ensures 0 <= f[0] < g.n && Occ(t.meta[w]) && Occ(t.meta[f[0]])
  {
    MoveNext(tr, g, t, h0, w, f, target, first);
  }

  lemma {:induction false} MoveChain<K(!new), V>(g: Geometry<K>, meta: seq<int>, kv: seq<Cell<K, V>>, ch: seq<seq<int>>,
          h0: int, w: int, f: seq<int>, prot: int, e: int, j: int, m: int)
    requires |meta| == |kv| == |ch| == g.n
    requires 0 <= h0 < g.n && ch[h0] != [] && w == ch[h0][|ch[h0]| - 1] && 0 <= w < g.n && Occ(meta[w])
    requires Chained(g, meta[w := WithJump(meta[w], 0)], kv, ch, h0, f, prot) && f != []
    requires 0 <= f[0] < g.n && kv[f[0]].KV? && g.home(kv[f[0]].key) == h0 && f[0] != w && Occ(meta[f[0]])
    requires m == EMPTY || (m == PROTECTED && prot == -1)
    requires 0 <= e < g.n && meta[e] == EMPTY && 0 < j < NUM_JUMP_DISTS && g.step(w, j) == e
    ensures Chained(g, meta[e := 128][f[0] := m][w := WithJump(meta[w], j)], kv[e := kv[f[0]]][f[0] := Raw],
                    ch[h0 := ch[h0] + [e]], h0, f[1..], if m == PROTECTED then f[0] else prot)
  {
    var masked, r := meta[w := WithJump(meta[w], 0)], f[0];
    DropFragmentHead(g, masked, kv, ch, h0, f, prot, m);
    AddTail(g, masked[r := m], kv[r := Raw], ch, h0, f[1..], if m == PROTECTED then r else prot,
            h0, w, e, j, kv[r].key, kv[r].val);
    ReorderUpdates(meta, e, r, w, 128, m, WithJump(meta[w], j), WithJump(meta[w], 0));
    ReorderUpdates(kv, e, r, w, kv[r], Raw, Raw, Raw);
  }

  /** One round of the move: the pair of r is built in e, which takes r's place in the iteration list;
      r is vacated and the slot before is made to jump to e. */
  ghost predicate Steps<K, V>(t: Table<K, V>, u: Table<K, V>, h0: int, w: int, r: int, first: bool, e: int, j: int,
          jr: nat)
    requires |t.meta| == |t.kv| == |t.chains| && 0 <= w < |t.meta| && 0 <= r < |t.meta| && 0 <= e < |t.meta|
    requires 0 <= h0 < |t.chains| && 0 <= j < NUM_JUMP_DISTS && jr < |t.order|
  {
    && u.meta == t.meta[e := 128][r := if first then PROTECTED else EMPTY][w := WithJump(t.meta[w], j)]
    && u.kv == t.kv[e := t.kv[r]][r := Raw]
    && u.chains == t.chains[h0 := t.chains[h0] + [e]] && u.order == t.order[jr := e]
    && u.size == t.size && u.entries == t.entries && |u.prev| == |u.next| == |t.meta| && ListLinked(u)
  }

  lemma {:induction false} StepKeepsList<K(!new), V>(tr: KeyTraits<K>, g: Geometry<K>, t: Table<K, V>, u: Table<K, V>,
          h0: int, w: int, r: int, first: bool, e: int, j: int, jr: nat)
    requires ListOk(tr, g, t) && |t.chains| == g.n && 0 <= h0 < g.n && 0 <= w < g.n && Occ(t.meta[w]) && w != r
    requires 0 <= e < g.n && t.meta[e] == EMPTY && 0 < j < NUM_JUMP_DISTS
    requires jr < |t.order| && t.order[jr] == r && 0 <= r < g.n
    requires Steps(t, u, h0, w, r, first, e, j, jr)
    ensures ListOk(tr, g, u)
  {
    hide Holds, Injective, DistinctKeys, Respects, ListLinked;
    ListedOnce(t);
    MoveEntry(t.meta, t.kv, u.meta, t.order, t.entries, jr, e);
  }

  lemma ListedOnce<K, V>(t: Table<K, V>)
    requires ListLinked(t)
    ensures Injective(t.order)
  {
  }

  lemma {:induction false} StepKeepsChains<K(!new), V>(tr: KeyTraits<K>, g: Geometry<K>, t: Table<K, V>, u: Table<K, V>,
          h0: int, w: int, f: seq<int>, target: int, first: bool, e: int, j: int, jr: nat)
    requires Moving(tr, g, t, h0, w, f, target, first) && f != []
    requires 0 <= e < g.n && t.meta[e] == EMPTY && 0 < j < NUM_JUMP_DISTS && g.step(w, j) == e
    requires jr < |t.order| && 0 <= f[0] < g.n
    requires Steps(t, u, h0, w, f[0], first, e, j, jr)
    ensures Chained(g, u.meta, u.kv, u.chains, h0, f[1..], target)
  {
    MoveNext(tr, g, t, h0, w, f, target, first);
    assert |t.meta| == |t.kv| == |t.chains| == g.n;
    hide ListOk, Chained, ListLinked;
    if first {
      MoveChain(g, t.meta, t.kv, t.chains, h0, w, f, -1, e, j, PROTECTED);
    } else {
      MoveChain(g, t.meta, t.kv, t.chains, h0, w, f, target, e, j, EMPTY);
    }
  }

  lemma TableSizes<K(!new), V>(tr: KeyTraits<K>, g: Geometry<K>, t: Table<K, V>)
    requires ListOk(tr, g, t)
    ensures |t.meta| == |t.kv| == g.n
  {
  }

  lemma {:induction false} StepWrites<K, V>(t: Table<K, V>, u: Table<K, V>, h0: int, w: int, r: int, target: int,
          first: bool, e: int, j: int, jr: nat)
    requires |t.meta| == |t.kv| == |t.chains| && 0 <= h0 < |t.chains| && 0 <= w < |t.meta| && 0 <= r < |t.meta|
    requires 0 <= e < |t.meta| && t.meta[e] == EMPTY && 0 <= j < NUM_JUMP_DISTS && jr < |t.order|
    requires Occ(t.meta[w]) && Occ(t.meta[r]) && r != w && 0 <= target < |t.meta|
    requires if first then r == target else t.meta[target] == PROTECTED
    requires Steps(t, u, h0, w, r, first, e, j, jr)
    ensures |u.chains| == |u.meta| == |t.meta| && u.meta[e] == 128 && u.meta[e := WithJump(128, 0)] == u.meta
    ensures u.chains[h0] != [] && u.chains[h0][|u.chains[h0]| - 1] == e
    ensures u.meta[target] == PROTECTED
  {
  }

  lemma {:induction false} MoveStep<K(!new), V>(tr: KeyTraits<K>, g: Geometry<K>, t: Table<K, V>, u: Table<K, V>,
          h0: int, w: int, f: seq<int>, target: int, first: bool, e: int, j: int, jr: nat)
    requires Moving(tr, g, t, h0, w, f, target, first) && f != []
    requires 0 <= e < g.n && t.meta[e] == EMPTY && 0 < j < NUM_JUMP_DISTS && g.step(w, j) == e
    requires jr < |t.order| && t.order[jr] == f[0] && 0 <= f[0] < g.n
    requires Steps(t, u, h0, w, f[0], first, e, j, jr)
    ensures Moving(tr, g, u, h0, e, f[1..], target, false) && u.meta[e] == 128
  {
    hide ListOk, Chained, ListLinked;
    MoveNext(tr, g, t, h0, w, f, target, first);
    StepKeepsList(tr, g, t, u, h0, w, f[0], first, e, j, jr);
    StepKeepsChains(tr, g, t, u, h0, w, f, target, first, e, j, jr);
    assert |t.meta| == |t.kv| == g.n by { TableSizes(tr, g, t); }
    StepWrites(t, u, h0, w, f[0], target, first, e, j, jr);
    hide Steps;
  }

  /** When nothing is left to move, only the target slot is still protected. */
  lemma MoveDone<K(!new), V>(tr: KeyTraits<K>, g: Geometry<K>, t: Table<K, V>, h0: int, w: int, target: int)
    requires Moving(tr, g, t, h0, w, [], target, false) && t.meta[w] == 128
    ensures ListOk(tr, g, t) && Chained(g, t.meta, t.kv, t.chains, 0, [], target)
    ensures 0 <= target < |t.meta| && t.meta[target] == PROTECTED
  {
    assert t.meta[w := WithJump(t.meta[w], 0)] == t.meta;
  }

  // ---------------------------------------------------------------- erasure

  lemma {:induction false} DataErased<K, V>(meta: seq<int>, kv: seq<Cell<K, V>>, order: seq<int>, es: seq<(K, V)>,
          j: nat, meta': seq<int>)
    requires Holds(kv, order, es) && Tracks(meta, order) && Injective(order) && j < |order| && |meta| == |meta'| == |kv|
    requires 0 <= order[j] < |meta'| && !Occ(meta'[order[j]])
    requires forall i :: 0 <= i < |meta| && i != order[j] ==> (Occ(meta'[i]) <==> Occ(meta[i]))
    ensures Holds(kv[order[j] := Raw], DropAt(order, j), DropAt(es, j)) && Tracks(meta', DropAt(order, j))
  {
    var o := DropAt(order, j);
    DropEntry(meta, kv, order, es, j);
    EmptySlot(meta, meta', o, order[j]);
    assert forall k :: 0 <= k < |o| ==> o[k] != order[j];
  }

  /** What ListOk says about a table, part by part. */
  lemma Parts<K(!new), V>(tr: KeyTraits<K>, g: Geometry<K>, t: Table<K, V>)
    requires ListOk(tr, g, t)
    ensures Holds(t.kv, t.order, t.entries) && Tracks(t.meta, t.order) && Injective(t.order)
    ensures |t.meta| == |t.kv| == |t.prev| == |t.next| == g.n && t.size == |t.order| == |t.entries|
    ensures DistinctKeys(t.entries, tr.eq) && ListLinked(t) && Sane(g)
  {
  }

  /** A table put together from such parts, for the same hash and geometry. */
  lemma Reassembled<K(!new), V>(tr: KeyTraits<K>, g: Geometry<K>, t: Table<K, V>, u: Table<K, V>)
    requires ListOk(tr, g, t)
    requires Holds(u.kv, u.order, u.entries) && Tracks(u.meta, u.order)
    requires |u.meta| == |u.kv| == |u.prev| == |u.next| == g.n && u.size == |u.order|
    requires DistinctKeys(u.entries, tr.eq) && ListLinked(u)
    ensures ListOk(tr, g, u)
  {
  }

  /** The entry of a slot that ends its chain is erased together with the slot. */
  lemma {:induction false} SlotErased<K(!new), V(!new)>(tr: KeyTraits<K>, g: Geometry<K>, t: Table<K, V>,
          u: Table<K, V>, j: nat)
    requires ListOk(tr, g, t) && j < |t.order| && 0 <= t.order[j] < g.n
    requires |u.meta| == g.n && !Occ(u.meta[t.order[j]])
    requires forall i :: 0 <= i < g.n && i != t.order[j] ==> (Occ(u.meta[i]) <==> Occ(t.meta[i]))
    requires u.kv == t.kv[t.order[j] := Raw] && WellChained(g, u.meta, u.kv, u.chains)
    requires u.order == DropAt(t.order, j) && |u.prev| == |u.next| == g.n && ListLinked(u)
    requires u.size == t.size - 1 && |t.entries| == |t.order| && u.entries == DropAt(t.entries, j)
    ensures Valid(tr, g, u)
  {
    hide ListOk, ListLinked, WellChained, Holds, Tracks, Injective, DistinctKeys;
    Parts(tr, g, t);
    DataErased(t.meta, t.kv, t.order, t.entries, j, u.meta);
    DropKeepsDistinct(t.entries, tr.eq, j);
    Reassembled(tr, g, t, u);
  }

  /** What the writes of an erasure need to know about slot i, at position p of chain h. */
  lemma {:induction false} EraseReady<K(!new), V(!new)>(tr: KeyTraits<K>, g: Geometry<K>, t: Table<K, V>, i: int,
          j: nat)
    requires Valid(tr, g, t) && j < |t.order| && t.order[j] == i
    ensures |t.meta| == |t.kv| == |t.chains| == |t.prev| == |t.next| == g.n && |t.entries| == |t.order| == t.size
    ensures 0 <= i < g.n && Occ(t.meta[i]) && t.kv[i].KV? && 0 <= g.home(t.kv[i].key) < g.n
    ensures i in t.chains[g.home(t.kv[i].key)] && ListLinked(t)
  {
    assert i in t.order;
  }

  /** The same for a slot i that is not the last of its chain: the last one stays on the list. */
  lemma {:induction false} MiddleReady<K(!new), V(!new)>(tr: KeyTraits<K>, g: Geometry<K>, t: Table<K, V>, h: int,
          p: nat, i: int, w: int, last: int, j: nat)
    requires Valid(tr, g, t) && |t.chains| == g.n && 0 <= h < g.n && p < |t.chains[h]| - 1
    requires last == t.chains[h][|t.chains[h]| - 1] && w == t.chains[h][|t.chains[h]| - 2] && i == t.chains[h][p]
    requires j < |t.order| && t.order[j] == i
    ensures |t.meta| == |t.kv| == |t.prev| == |t.next| == g.n && |t.entries| == |t.order| == t.size && ListLinked(t)
    ensures 0 <= i < g.n && 0 <= last < g.n && 0 <= w < g.n && last != i && last != w && t.kv[last].KV?
    ensures last in DropAt(t.order, j) && i !in DropAt(t.order, j) && |DropAt(t.order, j)| == |t.order| - 1
  {
    EraseReady(tr, g, t, i, j);
    ThreeOnChain(g, t.meta, t.kv, t.chains, h, p);
    DropKeepsInjective(t.order, j);
  }

  /** The only slot of its chain is erased. */
  lemma {:induction false} OnlyErased<K(!new), V(!new)>(tr: KeyTraits<K>, g: Geometry<K>, t: Table<K, V>,
          u: Table<K, V>, h: int, j: nat)
    requires Valid(tr, g, t) && 0 <= h < g.n && |t.chains| == g.n && |t.chains[h]| == 1
    requires j < |t.order| && t.order[j] == t.chains[h][0] == h
    requires u.meta == t.meta[h := EMPTY] && u.kv == t.kv[h := Raw] && u.chains == t.chains[h := []]
    requires u.order == DropAt(t.order, j) && |u.prev| == |u.next| == g.n && ListLinked(u)
    requires u.size == t.size - 1 && |t.entries| == |t.order| && u.entries == DropAt(t.entries, j)
    ensures Valid(tr, g, u)
  {
    DropOnly(g, t.meta, t.kv, t.chains, h);
    SlotErased(tr, g, t, u, j);
  }

  /** The writes that erase x, the last slot of a longer chain h: slot w before it stops jumping. */
  ghost predicate ErasesTail<K, V>(t: Table<K, V>, u: Table<K, V>, h: int, w: int, x: int, j: nat)
    requires |t.meta| == |t.kv| == |t.chains| && 0 <= h < |t.chains| && t.chains[h] != []
    requires 0 <= w < |t.meta| && 0 <= x < |t.meta| && j < |t.order| == |t.entries|
  {
    && u.meta == t.meta[w := WithJump(t.meta[w], 0)][x := EMPTY] && u.kv == t.kv[x := Raw]
    && u.chains == t.chains[h := t.chains[h][..|t.chains[h]| - 1]]
    && u.order == DropAt(t.order, j) && |u.prev| == |u.next| == |t.meta| && ListLinked(u)
    && u.size == t.size - 1 && u.entries == DropAt(t.entries, j)
  }

  lemma {:induction false} TailErased<K(!new), V(!new)>(tr: KeyTraits<K>, g: Geometry<K>, t: Table<K, V>,
          u: Table<K, V>, h: int, w: int, x: int, j: nat)
    requires Valid(tr, g, t) && 0 <= h < g.n && |t.chains| == g.n && |t.chains[h]| > 1
    requires x == t.chains[h][|t.chains[h]| - 1] && w == t.chains[h][|t.chains[h]| - 2]
    requires j < |t.order| == |t.entries| && t.order[j] == x && 0 <= x < g.n && 0 <= w < g.n
    requires ErasesTail(t, u, h, w, x, j)
    ensures Valid(tr, g, u)
  {
    hide ListOk, ListLinked, WellChained;
    Parts(tr, g, t);
    ThreeOnChain(g, t.meta, t.kv, t.chains, h, 0);
    DropTail(g, t.meta, t.kv, t.chains, h);
    SlotErased(tr, g, t, u, j);
  }

  lemma {:induction false} PairTakenOver<K(!new), V(!new)>(g: Geometry<K>, meta: seq<int>, kv: seq<Cell<K, V>>,
          ch: seq<seq<int>>, h: int, i: int, w: int, last: int)
    requires WellChained(g, meta, kv, ch) && 0 <= h < g.n && |ch| == |meta| == |kv| == g.n
    requires |ch[h]| > 1 && last == ch[h][|ch[h]| - 1] && w == ch[h][|ch[h]| - 2]
    requires 0 <= i < g.n && 0 <= last < g.n && Occ(meta[i]) && kv[i].KV? && kv[last].KV?
    requires g.home(kv[i].key) == g.home(kv[last].key)
    ensures 0 <= w < g.n && w != last
    ensures WellChained(g, meta[w := WithJump(meta[w], 0)][last := EMPTY],
                        kv[i := kv[last]][last := Raw], ch[h := ch[h][..|ch[h]| - 1]])
  {
    hide *;
    var kv1 := kv[i := kv[last]];
    assert WellChained(g, meta, kv1, ch) by {
      Overwrite(g, meta, kv, ch, i, kv[last].key, kv[last].val);
    }
    DropTail(g, meta, kv1, ch, h);
  }

  lemma {:induction false} ThreeOnChain<K(!new), V(!new)>(g: Geometry<K>, meta: seq<int>, kv: seq<Cell<K, V>>,
          ch: seq<seq<int>>, h: int, p: int)
    requires WellChained(g, meta, kv, ch) && 0 <= h < g.n && 0 <= p < |ch[h]| - 1
    ensures var c := ch[h];
            var i, w, last := c[p], c[|c| - 2], c[|c| - 1];
            && 0 <= i < g.n && 0 <= last < g.n && 0 <= w < g.n && w != last && last != i
            && Occ(meta[i]) && Occ(meta[last]) && Occ(meta[w]) && kv[i].KV? && kv[last].KV?
            && g.home(kv[i].key) == g.home(kv[last].key) == h
  {
    assert Chain(g, meta, kv, h, ch[h]);
  }

  lemma {:induction false} MidErasedData<K, V>(meta: seq<int>, kv: seq<Cell<K, V>>, order: seq<int>, es: seq<(K, V)>,
          ji: nat, jl: nat, meta': seq<int>)
    requires Holds(kv, order, es) && Tracks(meta, order) && Injective(order) && |meta| == |meta'| == |kv|
    requires ji < |order| && jl < |order| - 1
    requires var i, last := order[ji], DropAt(order, ji)[jl];
             && 0 <= i < |meta| && 0 <= last < |meta|
             && Occ(meta'[i]) && !Occ(meta'[last]) && last != i
             && (forall q :: 0 <= q < |meta| && q != last ==> (Occ(meta'[q]) <==> Occ(meta[q])))
    ensures var i, last := order[ji], DropAt(order, ji)[jl];
            && Holds(kv[i := kv[last]][last := Raw], DropAt(order, ji)[jl := i], DropAt(es, ji))
            && Tracks(meta', DropAt(order, ji)[jl := i])
  {
    var o, i := DropAt(order, ji), order[ji];
    DropEntry(meta, kv, order, es, ji);
    DropKeepsInjective(order, ji);
    var m0 := meta[i := EMPTY];
    EmptySlot(meta, m0, o, i);
    MoveEntry(m0, kv, meta', o, DropAt(es, ji), jl, i);
  }

  /** The writes that erase slot i, not the last of chain h: i leaves the list, takes over the pair and
      the list place of the chain's last slot, and slot w before that one stops jumping. */
  ghost predicate ErasesMiddle<K, V>(t: Table<K, V>, u: Table<K, V>, h: int, i: int, w: int, last: int, j: nat, jl: nat)
    requires |t.meta| == |t.kv| == |t.chains| && 0 <= h < |t.chains| && t.chains[h] != []
    requires 0 <= i < |t.meta| && 0 <= w < |t.meta| && 0 <= last < |t.meta|
    requires j < |t.order| == |t.entries|
  {
    && u.meta == t.meta[w := WithJump(t.meta[w], 0)][last := EMPTY]
    && u.kv == t.kv[i := t.kv[last]][last := Raw]
    && u.chains == t.chains[h := t.chains[h][..|t.chains[h]| - 1]]
    && jl < |t.order| - 1 && DropAt(t.order, j)[jl] == last
    && u.order == DropAt(t.order, j)[jl := i] && |u.prev| == |u.next| == |t.meta| && ListLinked(u)
    && u.size == t.size - 1 && u.entries == DropAt(t.entries, j)
  }

  /** Once slot i has taken over the pair and the list place of last, these are the writes that are left. */
  lemma TailReleased<K, V>(t: Table<K, V>, u: Table<K, V>, v: Table<K, V>, h: int, i: int, w: int, last: int, j: nat,
          jl: nat)
    requires |t.meta| == |t.kv| == |t.chains| && 0 <= h < |t.chains| && t.chains[h] != []
    requires 0 <= i < |t.meta| && 0 <= w < |t.meta| && 0 <= last < |t.meta| && w != last && i != last
    requires j < |t.order| == |t.entries| && |t.prev| == |t.next| == |t.meta|
    requires jl < |t.order| - 1 && DropAt(t.order, j)[jl] == last
    requires Relinked(t.(kv := t.kv[i := t.kv[last]], size := t.size - 1), u, DropAt(t.order, j)[jl := i])
    requires v == u.(meta := t.meta[last := EMPTY][w := WithJump(t.meta[w], 0)], kv := u.kv[last := Raw],
                     entries := DropAt(t.entries, j), chains := t.chains[h := t.chains[h][..|t.chains[h]| - 1]])
    ensures ErasesMiddle(t, v, h, i, w, last, j, jl)
  {
    hide IterList;
  }

  lemma {:induction false} MidErased<K(!new), V(!new)>(tr: KeyTraits<K>, g: Geometry<K>, t: Table<K, V>, u: Table<K, V>,
          h: int, p: int, i: int, w: int, last: int, j: nat, jl: nat)
    requires Valid(tr, g, t) && |t.chains| == g.n && 0 <= h < g.n && 0 <= p < |t.chains[h]| - 1
    requires last == t.chains[h][|t.chains[h]| - 1] && w == t.chains[h][|t.chains[h]| - 2] && i == t.chains[h][p]
    requires j < |t.order| == |t.entries| && t.order[j] == i && 0 <= i < g.n && 0 <= last < g.n && 0 <= w < g.n
    requires ErasesMiddle(t, u, h, i, w, last, j, jl)
    ensures Valid(tr, g, u)
  {
    hide ListOk, ListLinked, WellChained, Holds, Tracks, Injective, DistinctKeys;
    Parts(tr, g, t);
    ThreeOnChain(g, t.meta, t.kv, t.chains, h, p);
    PairTakenOver(g, t.meta, t.kv, t.chains, h, i, w, last);
    MidErasedData(t.meta, t.kv, t.order, t.entries, j, jl, u.meta);
    DropKeepsDistinct(t.entries, tr.eq, j);
    Reassembled(tr, g, t, u);
  }

  // ---------------------------------------------------------------- copying

  /** u repeats every byte of t and the contents of its occupied slots; raw slots may hold anything. */
  ghost predicate SameSlots<K, V>(t: Table<K, V>, u: Table<K, V>) {
    && u == t.(kv := u.kv, prev := u.prev, next := u.next)
    && |u.kv| == |t.kv| == |t.meta| == |u.prev| == |t.prev| == |u.next| == |t.next|
    && forall i :: 0 <= i < |t.meta| && Occ(t.meta[i]) ==>
         u.kv[i] == t.kv[i] && u.prev[i] == t.prev[i] && u.next[i] == t.next[i]
  }

  lemma {:induction false} CopyOfList<K(!new), V(!new)>(tr: KeyTraits<K>, g: Geometry<K>, t: Table<K, V>,
          u: Table<K, V>)
    requires ListOk(tr, g, t) && SameSlots(t, u)
    ensures ListOk(tr, g, u)
  {
    assert forall j :: 0 <= j < |t.order| ==> 0 <= t.order[j] < |t.meta| && Occ(t.meta[t.order[j]]);
    assert forall j :: 0 <= j < |t.order| ==>
            u.prev[t.order[j]] == t.prev[t.order[j]] && u.next[t.order[j]] == t.next[t.order[j]];
    assert ListLinked(u) by {
      assert ListLinked(t);
      forall i, j | 0 <= i < j < |t.order| && j == i + 1
        ensures u.next[t.order[i]] == t.order[j] && u.prev[t.order[j]] == t.order[i]
      {
        assert t.next[t.order[i]] == t.order[j];
      }
    }
  }

  lemma {:induction false} CopyOfValid<K(!new), V(!new)>(tr: KeyTraits<K>, g: Geometry<K>, t: Table<K, V>,
          u: Table<K, V>)
    requires Valid(tr, g, t) && SameSlots(t, u) && |t.kv| == |u.kv|
    ensures Valid(tr, g, u)
  {
    hide ListOk, WellChained;
    CopyOfList(tr, g, t, u);
    CopyOfChains(g, t.meta, t.kv, u.kv, t.chains);
  }

  lemma {:induction false} CopyOfChains<K(!new), V(!new)>(g: Geometry<K>, meta: seq<int>, kv: seq<Cell<K, V>>,
          kv': seq<Cell<K, V>>, ch: seq<seq<int>>)
    requires WellChained(g, meta, kv, ch) && |kv| == |kv'|
    requires forall i :: 0 <= i < |meta| && Occ(meta[i]) ==> kv'[i] == kv[i]
    ensures WellChained(g, meta, kv', ch)
  {
    forall h | 0 <= h < g.n ensures Chain(g, meta, kv', h, ch[h]) {
      assert Chain(g, meta, kv, h, ch[h]);
      LinkedFrame(g, meta, kv, meta, kv', h, ch[h]);
    }
  }

  // ------------------------------------------------- what Valid means for slots

  /** Between operations every occupied slot stands at exactly one place of exactly one chain, the chain of
      its own key's home, and carries the head bit only at the start of it; no slot is protected. */
  lemma {:induction false} OnExactlyOneChain<K(!new), V(!new)>(tr: KeyTraits<K>, g: Geometry<K>, t: Table<K, V>, i: int)
    requires Valid(tr, g, t) && 0 <= i < g.n
    ensures t.meta[i] != PROTECTED
    ensures Occ(t.meta[i]) <==> exists h, k :: 0 <= h < g.n && 0 <= k < |t.chains[h]| && t.chains[h][k] == i
    ensures forall h, k :: 0 <= h < g.n && 0 <= k < |t.chains[h]| && t.chains[h][k] == i ==>
              && t.kv[i].KV? && h == g.home(t.kv[i].key) && t.chains[h][0] == h
              && (IsHead(t.meta[i]) <==> k == 0)
              && (forall l :: 0 <= l < |t.chains[h]| && t.chains[h][l] == i ==> l == k)
  {
    if Occ(t.meta[i]) {
      var h := g.home(t.kv[i].key);
      assert i in t.chains[h];
    }
    forall h, k | 0 <= h < g.n && 0 <= k < |t.chains[h]| && t.chains[h][k] == i
      ensures Occ(t.meta[i]) && t.kv[i].KV? && h == g.home(t.kv[i].key) && t.chains[h][0] == h
      ensures IsHead(t.meta[i]) <==> k == 0
      ensures forall l :: 0 <= l < |t.chains[h]| && t.chains[h][l] == i ==> l == k
    {
      assert Chain(g, t.meta, t.kv, h, t.chains[h]);
    }
  }

  /** size_ is the number of occupied slots, so it never exceeds the number of slots. */
  lemma {:induction false} SizeCountsOccupied<K(!new), V(!new)>(tr: KeyTraits<K>, g: Geometry<K>, t: Table<K, V>)
    requires Valid(tr, g, t)
    ensures t.size == |set i | 0 <= i < g.n && Occ(t.meta[i])| == |t.entries| <= g.n
  {
    assert (set i | 0 <= i < g.n && Occ(t.meta[i])) == set x | x in t.order;
    SetOfInjective(t.order);
    Pigeonhole(t.order, g.n);
  }

  lemma {:induction false} SetOfInjective(s: seq<int>)
    requires Injective(s)
    ensures |set x | x in s| == |s|
  {
    if s != [] {
      var n := |s| - 1;
      SetOfInjective(s[..n]);
      assert (set x | x in s) == (set x | x in s[..n]) + {s[n]};
    }
  }

  lemma {:induction false} Pigeonhole(s: seq<int>, n: nat)
    requires Injective(s) && forall j :: 0 <= j < |s| ==> 0 <= s[j] < n
    ensures |s| <= n
  {
    if s != [] {
      assert 0 <= s[0] < n;
      if n - 1 in s {
        var j :| 0 <= j < |s| && s[j] == n - 1;
        DropKeepsInjective(s, j);
        var d := DropAt(s, j);
        assert forall k :: 0 <= k < |d| ==> d[k] in d;
        Pigeonhole(d, n - 1);
      } else {
        Pigeonhole(s, n - 1);
      }
    }
  }
}
