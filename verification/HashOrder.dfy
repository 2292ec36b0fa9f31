// The order in which a map's entries are hashed: by the hashes of their keys,
// which the sequence hs holds, none where a key has none.
module HashOrder {
  import opened AssocList
  import opened StructuralValues

  predicate Less(x: Hash, y: Hash) { x as nat < y as nat }

  lemma LessIsOrder(x: Hash, y: Hash, z: Hash)
    ensures !Less(x, x) && (Less(x, y) || Less(y, x) || x == y)
    ensures Less(x, y) && Less(y, z) ==> Less(x, z)
  {
    if x as nat == y as nat { SameNumber(x, y); }
  }

  lemma SameNumber(x: Hash, y: Hash)
    requires x as nat == y as nat
    ensures x == y
  {
    assert x == (x as nat) as Hash;
    assert y == (y as nat) as Hash;
  }

  /** h is a hash that comes after lo. */
  predicate Beyond(h: Option<Hash>, lo: Option<Hash>) { h.Some? && (lo.None? || Less(lo.value, h.value)) }

  /** The least hash after lo, if there is one. */
  function Next(hs: seq<Option<Hash>>, lo: Option<Hash>): (k: Option<Hash>)
    ensures k.Some? ==> k in hs && Beyond(k, lo)
    ensures forall h :: h in hs && Beyond(h, lo) ==> k.Some? && !Less(h.value, k.value)
  {
    if hs == [] then None
    else
      var k := Next(hs[1..], lo);
      if Beyond(hs[0], lo) && (k.None? || Less(hs[0].value, k.value)) then
        StillLeast(hs, lo, k);
        hs[0]
      else
        LessIsOrder(if hs[0].Some? then hs[0].value else 0, 0, 0);
        k
  }

  lemma StillLeast(hs: seq<Option<Hash>>, lo: Option<Hash>, k: Option<Hash>)
    requires hs != [] && Beyond(hs[0], lo) && (k.None? || Less(hs[0].value, k.value))
    requires forall h :: h in hs[1..] && Beyond(h, lo) ==> k.Some? && !Less(h.value, k.value)
    ensures forall h :: h in hs && Beyond(h, lo) ==> !Less(h.value, hs[0].value)
  {
    hide Less;
    forall h | h in hs && Beyond(h, lo) ensures !Less(h.value, hs[0].value) {
      LessIsOrder(hs[0].value, hs[0].value, hs[0].value);
      if k.Some? { LessIsOrder(h.value, hs[0].value, k.value); }
    }
  }

  /** The position of the first key with this hash, or the number of keys. */
  function Holder(hs: seq<Option<Hash>>, h: Hash): (i: nat)
    ensures i <= |hs| && (i < |hs| ==> hs[i] == Some(h))
    ensures forall j :: 0 <= j < i ==> hs[j] != Some(h)
  {
    if hs == [] || hs[0] == Some(h) then 0 else 1 + Holder(hs[1..], h)
  }

  /** Two keys have this hash. */
  predicate Tied(hs: seq<Option<Hash>>, h: Hash) {
    exists i, j :: 0 <= i < j < |hs| && hs[i] == Some(h) && hs[j] == Some(h)
  }

  /** The i-th key has a hash of its own. */
  predicate Untied(hs: seq<Option<Hash>>, i: int) {
    0 <= i < |hs| && hs[i].Some? && !Tied(hs, hs[i].value)
  }

  lemma HolderUntied(hs: seq<Option<Hash>>, h: Hash)
    requires Some(h) in hs && !Tied(hs, h)
    ensures Holder(hs, h) < |hs| && Untied(hs, Holder(hs, h))
  {
  }

  lemma HolderOnly(hs: seq<Option<Hash>>, i: nat)
    requires Untied(hs, i)
    ensures Holder(hs, hs[i].value) == i
  {
  }

  /** What comes after lo is the next hash or comes after it. */
  lemma NextOrBeyond(hs: seq<Option<Hash>>, lo: Option<Hash>, i: nat)
    requires i < |hs| && Beyond(hs[i], lo)
    ensures Next(hs, lo).Some? && (hs[i] == Next(hs, lo) || Beyond(hs[i], Next(hs, lo)))
  {
    hide Less;
    LessIsOrder(hs[i].value, Next(hs, lo).value, 0);
  }

  /** The positions still to be visited after lo. */
  function Left(hs: seq<Option<Hash>>, lo: Option<Hash>): set<nat> {
    set i: nat | i < |hs| && Beyond(hs[i], lo)
  }

  lemma NextShrinks(hs: seq<Option<Hash>>, lo: Option<Hash>)
    requires Next(hs, lo).Some?
    ensures Left(hs, Next(hs, lo)) < Left(hs, lo)
  {
    hide Less;
    var k := Next(hs, lo);
    var i: nat :| i < |hs| && hs[i] == k;
    LessIsOrder(k.value, k.value, k.value);
    assert i in Left(hs, lo) && i !in Left(hs, k);
    forall j | j in Left(hs, k) ensures j in Left(hs, lo) {
      if lo.Some? { LessIsOrder(lo.value, k.value, hs[j].value); }
    }
  }

  // --------------------------------------------------- the same keys elsewhere

  /** The hashes of hs stand in gs at the places at, each place once. */
  ghost predicate Shuffled(hs: seq<Option<Hash>>, gs: seq<Option<Hash>>, at: seq<nat>) {
    && |at| == |hs| == |gs|
    && (forall i :: 0 <= i < |at| ==> at[i] < |gs| && gs[at[i]] == hs[i])
    && (forall i, j :: 0 <= i < j < |at| ==> at[i] != at[j])
    && forall j :: 0 <= j < |gs| ==> j in at
  }

  /** The order of the keys does not matter to the order of their hashes. */
  lemma {:induction false} ShuffledNext(hs: seq<Option<Hash>>, gs: seq<Option<Hash>>, at: seq<nat>, lo: Option<Hash>)
    requires Shuffled(hs, gs, at)
    ensures Next(hs, lo) == Next(gs, lo)
  {
    hide Less;
    var k, l := Next(hs, lo), Next(gs, lo);
    ShuffledMembers(hs, gs, at);
    if k.Some? && l.Some? {
      LessIsOrder(k.value, l.value, l.value);
    }
  }

  lemma ShuffledMembers(hs: seq<Option<Hash>>, gs: seq<Option<Hash>>, at: seq<nat>)
    requires Shuffled(hs, gs, at)
    ensures forall h :: h in hs <==> h in gs
  {
    forall h | h in hs ensures h in gs {
      var i: nat :| i < |hs| && hs[i] == h;
      assert gs[at[i]] == h;
    }
    forall h | h in gs ensures h in hs {
      var j: nat :| j < |gs| && gs[j] == h;
      assert j in at;
      var i: nat :| i < |at| && at[i] == j;
      assert hs[i] == h;
    }
  }

  /** Nor to the ties, and a hash held by one key is held by its counterpart. */
  lemma {:induction false} ShuffledHolder(hs: seq<Option<Hash>>, gs: seq<Option<Hash>>, at: seq<nat>, h: Hash)
    requires Shuffled(hs, gs, at) && Some(h) in hs
    ensures Tied(hs, h) <==> Tied(gs, h)
    ensures Holder(hs, h) < |hs|
    ensures !Tied(hs, h) ==> at[Holder(hs, h)] == Holder(gs, h)
  {
    assert gs[at[Holder(hs, h)]] == Some(h);
    if Tied(hs, h) { TieMoves(hs, gs, at, h); }
    if Tied(gs, h) { TieMovesBack(hs, gs, at, h); }
  }

  lemma {:induction false} UntiedBack(hs: seq<Option<Hash>>, gs: seq<Option<Hash>>, at: seq<nat>)
    requires Shuffled(hs, gs, at) && forall j :: 0 <= j < |gs| ==> Untied(gs, j)
    ensures forall i :: 0 <= i < |hs| ==> Untied(hs, i)
  {
    forall i | 0 <= i < |hs| ensures Untied(hs, i) {
      assert Untied(gs, at[i]) && gs[at[i]] == hs[i];
      ShuffledHolder(hs, gs, at, hs[i].value);
    }
  }

  lemma {:induction false} TieMoves(hs: seq<Option<Hash>>, gs: seq<Option<Hash>>, at: seq<nat>, h: Hash)
    requires Shuffled(hs, gs, at) && Tied(hs, h)
    ensures Tied(gs, h)
  {
    var j, k :| 0 <= j < k < |hs| && hs[j] == Some(h) && hs[k] == Some(h);
    var x, y := at[j], at[k];
    assert gs[x] == Some(h) && gs[y] == Some(h) && x != y;
    assert 0 <= (if x < y then x else y) < (if x < y then y else x) < |gs|;
  }

  lemma {:induction false} TieMovesBack(hs: seq<Option<Hash>>, gs: seq<Option<Hash>>, at: seq<nat>, h: Hash)
    requires Shuffled(hs, gs, at) && Tied(gs, h)
    ensures Tied(hs, h)
  {
    var x, y :| 0 <= x < y < |gs| && gs[x] == Some(h) && gs[y] == Some(h);
    assert x in at && y in at;
    var j: nat :| j < |at| && at[j] == x;
    var k: nat :| k < |at| && at[k] == y;
    assert hs[j] == Some(h) && hs[k] == Some(h) && j != k;
    assert 0 <= (if j < k then j else k) < (if j < k then k else j) < |hs|;
  }

  // ---------------------------------------------------------- the sorted vector

  /** A hash and the position of its entry. */
  type Item = (Hash, nat)

  ghost predicate Ascending(items: seq<Item>) {
    forall p, q :: 0 <= p < q < |items| ==> !Less(items[q].0, items[p].0)
  }

  function Insert(x: Item, items: seq<Item>): (r: seq<Item>)
    requires Ascending(items)
    ensures Ascending(r) && multiset(r) == multiset(items) + multiset{x}
  {
    if items == [] then [x]
    else if Less(items[0].0, x.0) then
      var r := [items[0]] + Insert(x, items[1..]);
      FirstIsLeast(items[0], x, items[1..], Insert(x, items[1..]));
      assert items == [items[0]] + items[1..];
      r
    else
      LowestFirst(x, items);
      [x] + items
  }

  lemma FirstIsLeast(y: Item, x: Item, rest: seq<Item>, r: seq<Item>)
    requires Less(y.0, x.0) && Ascending(r) && multiset(r) == multiset(rest) + multiset{x}
    requires forall p :: 0 <= p < |rest| ==> !Less(rest[p].0, y.0)
    ensures Ascending([y] + r)
  {
    hide Less;
    forall p | 0 <= p < |r| ensures !Less(r[p].0, y.0) {
      assert r[p] in multiset(r);
      LessIsOrder(y.0, x.0, y.0);
      LessIsOrder(y.0, y.0, y.0);
    }
  }

  lemma LowestFirst(x: Item, items: seq<Item>)
    requires items != [] && Ascending(items) && !Less(items[0].0, x.0)
    ensures Ascending([x] + items)
  {
    hide Less;
    forall p | 0 <= p < |items| ensures !Less(items[p].0, x.0) {
      LessIsOrder(items[p].0, x.0, items[0].0);
      LessIsOrder(items[0].0, items[p].0, x.0);
      LessIsOrder(x.0, items[0].0, items[p].0);
    }
  }

  /** std::sort by the hash; the order of equal hashes is of no interest. */
  function Sort(items: seq<Item>): (r: seq<Item>)
    ensures Ascending(r) && multiset(r) == multiset(items)
  {
    if items == [] then []
    else
      assert items == [items[0]] + items[1..];
      Insert(items[0], Sort(items[1..]))
  }

  /** The items list the hashes of hs, each position once. */
  ghost predicate Lists(items: seq<Item>, hs: seq<Option<Hash>>) {
    && (forall x :: x in items ==> x.1 < |hs| && hs[x.1] == Some(x.0))
    && (forall i: nat :: i < |hs| && hs[i].Some? ==> (hs[i].value, i) in items)
    && forall p, q :: 0 <= p < q < |items| ==> items[p] != items[q]
  }

  lemma {:induction false} SortLists(items: seq<Item>, hs: seq<Option<Hash>>)
    requires Lists(items, hs)
    ensures Lists(Sort(items), hs)
  {
    var r := Sort(items);
    forall x ensures x in r <==> x in items {
      assert x in r <==> x in multiset(r);
      assert x in items <==> x in multiset(items);
    }
    forall p, q | 0 <= p < q < |r| ensures r[p] != r[q] {
      if r[p] == r[q] {
        TwiceCounted(r, p, q);
        OnceCounted(items, r[p]);
      }
    }
  }

  lemma {:induction false} TwiceCounted(r: seq<Item>, p: nat, q: nat)
    requires p < q < |r| && r[p] == r[q]
    ensures multiset(r)[r[p]] >= 2
  {
    assert r == r[..q] + [r[q]] + r[q + 1..];
    assert r[p] == r[..q][p] && r[p] in multiset(r[..q]);
  }

  lemma {:induction false} OnceCounted(items: seq<Item>, x: Item)
    requires forall p, q :: 0 <= p < q < |items| ==> items[p] != items[q]
    ensures multiset(items)[x] <= 1
  {
    if items != [] {
      assert items == [items[0]] + items[1..];
      OnceCounted(items[1..], x);
      if x == items[0] {
        assert forall p :: 0 <= p < |items[1..]| ==> items[1..][p] == items[p + 1] != x;
      }
    }
  }

  /** The loop has passed the hashes up to lo, and none beyond. */
  ghost predicate PassedTo(items: seq<Item>, i: nat, lo: Option<Hash>) {
    && i <= |items|
    && (forall p :: 0 <= p < i ==> !Beyond(Some(items[p].0), lo))
    && forall p :: i <= p < |items| ==> Beyond(Some(items[p].0), lo)
  }

  /** The next group of the sorted items, up to k, is the next hash; it is a tie when it has two items. */
  lemma {:induction false} NextGroup(items: seq<Item>, hs: seq<Option<Hash>>, lo: Option<Hash>, i: nat, k: nat)
    requires Lists(items, hs) && Ascending(items) && PassedTo(items, i, lo) && i < k <= |items|
    requires forall p :: i <= p < k ==> items[p].0 == items[i].0
    requires k < |items| ==> items[k].0 != items[i].0
    ensures Next(hs, lo) == Some(items[i].0) && PassedTo(items, k, Next(hs, lo))
    ensures Tied(hs, items[i].0) <==> k > i + 1
    ensures k == i + 1 ==> Holder(hs, items[i].0) == items[i].1
  {
    hide Less, Tied;
    var h := items[i].0;
    assert items[i] in items;
    GroupIsNext(items, hs, lo, i);
    GroupPassed(items, i, k, lo);
    if k > i + 1 {
      TwoHold(items, hs, i, i + 1);
    } else {
      forall j | 0 <= j < |hs| && hs[j] == Some(h) ensures j == items[i].1 {
        assert (h, j as nat) in items;
        var p: nat :| p < |items| && items[p] == (h, j as nat);
        LessIsOrder(h, h, h);
      }
      OneHolds(hs, h, items[i].1);
    }
  }

  lemma GroupIsNext(items: seq<Item>, hs: seq<Option<Hash>>, lo: Option<Hash>, i: nat)
    requires Lists(items, hs) && Ascending(items) && PassedTo(items, i, lo) && i < |items|
    ensures Next(hs, lo) == Some(items[i].0)
  {
    hide Less;
    var k := Next(hs, lo);
    assert items[i] in items;
    assert Some(items[i].0) in hs && Beyond(Some(items[i].0), lo);
    var j: nat :| j < |hs| && hs[j] == k;
    assert (k.value, j) in items;
    var p: nat :| p < |items| && items[p] == (k.value, j);
    LessIsOrder(items[i].0, k.value, k.value);
  }

  lemma GroupPassed(items: seq<Item>, i: nat, k: nat, lo: Option<Hash>)
    requires Ascending(items) && PassedTo(items, i, lo) && i < k <= |items|
    requires forall p :: i <= p < k ==> items[p].0 == items[i].0
    requires k < |items| ==> items[k].0 != items[i].0
    ensures PassedTo(items, k, Some(items[i].0))
  {
    hide Less;
    var h := items[i].0;
    LessIsOrder(h, h, h);
    forall p | 0 <= p < k ensures !Less(h, items[p].0) {
      LessIsOrder(h, items[p].0, h);
    }
    forall p | k <= p < |items| ensures Less(h, items[p].0) {
      LessIsOrder(h, items[k].0, items[p].0);
      LessIsOrder(items[k].0, items[p].0, h);
      LessIsOrder(h, items[p].0, items[p].0);
    }
  }

  lemma TwoHold(items: seq<Item>, hs: seq<Option<Hash>>, p: nat, q: nat)
    requires Lists(items, hs) && p < q < |items| && items[p].0 == items[q].0
    ensures Tied(hs, items[p].0)
  {
    assert items[p] in items && items[q] in items;
    var x, y := items[p].1, items[q].1;
    assert x != y;
    assert 0 <= (if x < y then x else y) < (if x < y then y else x) < |hs|;
  }

  lemma OneHolds(hs: seq<Option<Hash>>, h: Hash, i: nat)
    requires i < |hs| && hs[i] == Some(h) && forall j :: 0 <= j < |hs| && hs[j] == Some(h) ==> j == i
    ensures !Tied(hs, h) && Holder(hs, h) == i
  {
  }
}
