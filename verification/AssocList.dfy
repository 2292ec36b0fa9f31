// The simple thing every map layout must agree with: a list of entries in
// iteration order, whose keys are pairwise different under an equivalence.
module AssocList {

  datatype Option<+T> = None | Some(value: T)

  /** The two functors a map is parameterised by, AnyHash and AnyEqual in the repository. */
  datatype KeyTraits<!K> = KeyTraits(hash: K -> int, eq: (K, K) -> bool)

  const WORD: int := 0x1_0000_0000_0000_0000

  function Max(a: nat, b: nat): nat { if a < b then b else a }

  /** eq is an equivalence, and equal keys have equal 64-bit hashes. */
  ghost predicate Lawful<K(!new)>(tr: KeyTraits<K>) {
    && (forall a :: tr.eq(a, a))
    && (forall a, b :: tr.eq(a, b) ==> tr.eq(b, a))
    && (forall a, b, c :: tr.eq(a, b) && tr.eq(b, c) ==> tr.eq(a, c))
    && (forall a, b :: tr.eq(a, b) ==> tr.hash(a) == tr.hash(b))
    && (forall a :: 0 <= tr.hash(a) < WORD)
  }

  /** Position of the entry for k, or |es| when there is none. */
  function Find<K, V>(es: seq<(K, V)>, eq: (K, K) -> bool, k: K): (i: nat)
    ensures i <= |es|
    ensures i < |es| ==> eq(es[i].0, k)
    ensures forall j :: 0 <= j < i ==> !eq(es[j].0, k)
  {
    if es == [] then 0
    else if eq(es[0].0, k) then 0
    else 1 + Find(es[1..], eq, k)
  }

  function Lookup<K, V>(es: seq<(K, V)>, eq: (K, K) -> bool, k: K): Option<V> {
    var i := Find(es, eq, k);
    if i < |es| then Some(es[i].1) else None
  }

  function DropAt<T>(s: seq<T>, i: nat): seq<T>
    requires i < |s|
  {
    s[..i] + s[i + 1..]
  }

  /** Dense layout: a key that is present keeps its stored key but moves to the end. */
  function SetLast<K, V>(es: seq<(K, V)>, eq: (K, K) -> bool, k: K, v: V): seq<(K, V)> {
    var i := Find(es, eq, k);
    if i < |es| then DropAt(es, i) + [(es[i].0, v)] else es + [(k, v)]
  }

  /** Small layout: a key that is present is overwritten where it stands. */
  function SetInPlace<K, V>(es: seq<(K, V)>, eq: (K, K) -> bool, k: K, v: V): seq<(K, V)> {
    var i := Find(es, eq, k);
    if i < |es| then es[i := (es[i].0, v)] else es + [(k, v)]
  }

  function Remove<K, V>(es: seq<(K, V)>, eq: (K, K) -> bool, k: K): seq<(K, V)> {
    var i := Find(es, eq, k);
    if i < |es| then DropAt(es, i) else es
  }

  /** Entries inserted one after the other, as a range constructor does. */
  function SetAllLast<K, V>(es: seq<(K, V)>, eq: (K, K) -> bool, more: seq<(K, V)>): seq<(K, V)>
    decreases |more|
  {
    if more == [] then es
    else
      var n := |more| - 1;
      SetLast(SetAllLast(es, eq, more[..n]), eq, more[n].0, more[n].1)
  }

  function SetAllInPlace<K, V>(es: seq<(K, V)>, eq: (K, K) -> bool, more: seq<(K, V)>): seq<(K, V)>
    decreases |more|
  {
    if more == [] then es
    else
      var n := |more| - 1;
      SetInPlace(SetAllInPlace(es, eq, more[..n]), eq, more[n].0, more[n].1)
  }

  ghost predicate DistinctKeys<K, V>(es: seq<(K, V)>, eq: (K, K) -> bool) {
    forall i, j :: 0 <= i < j < |es| ==> !eq(es[i].0, es[j].0)
  }

  // ---------------------------------------------------------------- lemmas

  lemma FindIs<K(!new), V>(es: seq<(K, V)>, tr: KeyTraits<K>, k: K, i: nat)
    requires Lawful(tr) && DistinctKeys(es, tr.eq)
    requires i < |es| && tr.eq(es[i].0, k)
    ensures Find(es, tr.eq, k) == i
  {
    var f := Find(es, tr.eq, k);
    assert i <= f by { assert !tr.eq(es[f].0, es[i].0) || f >= i; }
  }

  lemma FindNone<K(!new), V>(es: seq<(K, V)>, tr: KeyTraits<K>, k: K)
    requires forall j :: 0 <= j < |es| ==> !tr.eq(es[j].0, k)
    ensures Find(es, tr.eq, k) == |es|
  {
  }

  lemma FindHere<K(!new), V>(es: seq<(K, V)>, tr: KeyTraits<K>, k: K, q: K)
    requires Lawful(tr) && DistinctKeys(es, tr.eq) && tr.eq(k, q)
    ensures Find(es, tr.eq, q) == Find(es, tr.eq, k)
  {
    var f := Find(es, tr.eq, k);
    if f < |es| {
      FindIs(es, tr, q, f);
    } else {
      assert forall j :: 0 <= j < |es| && tr.eq(es[j].0, q) ==> tr.eq(q, k) && tr.eq(es[j].0, k);
      FindNone(es, tr, q);
    }
  }

  /** The entry at position i leaves the list. */
  lemma DropKeepsDistinct<K, V>(es: seq<(K, V)>, eq: (K, K) -> bool, i: nat)
    requires DistinctKeys(es, eq) && i < |es|
    ensures DistinctKeys(DropAt(es, i), eq)
    ensures forall j :: 0 <= j < |es| - 1 ==> DropAt(es, i)[j] == es[if j < i then j else j + 1]
  {
    assert forall j :: 0 <= j < |es| - 1 ==> DropAt(es, i)[j] == es[if j < i then j else j + 1];
  }

  /** Without the entry for k, k is not found and every other key is. */
  lemma {:induction false} LookupAfterDrop<K(!new), V>(es: seq<(K, V)>, tr: KeyTraits<K>, k: K, q: K)
    requires Lawful(tr) && DistinctKeys(es, tr.eq) && Find(es, tr.eq, k) < |es|
    ensures Lookup(DropAt(es, Find(es, tr.eq, k)), tr.eq, q) == if tr.eq(k, q) then None else Lookup(es, tr.eq, q)
  {
    var i := Find(es, tr.eq, k);
    var r, f := DropAt(es, i), Find(es, tr.eq, q);
    DropKeepsDistinct(es, tr.eq, i);
    if tr.eq(k, q) {
      FindHere(es, tr, k, q);
      forall j | 0 <= j < |r| ensures !tr.eq(r[j].0, q) {
        if tr.eq(r[j].0, q) { FindIs(es, tr, q, if j < i then j else j + 1); }
      }
      FindNone(r, tr, q);
    } else if f < |es| {
      FindIs(r, tr, q, if f < i then f else f - 1);
    } else {
      FindNone(r, tr, q);
    }
  }

  /** A new last entry is found at the end, the others where they were. */
  lemma {:induction false} LookupAfterAppend<K(!new), V>(es: seq<(K, V)>, tr: KeyTraits<K>, e: (K, V), q: K)
    requires Lawful(tr) && DistinctKeys(es, tr.eq) && Lookup(es, tr.eq, e.0).None?
    ensures DistinctKeys(es + [e], tr.eq)
    ensures Lookup(es + [e], tr.eq, q) == if tr.eq(e.0, q) then Some(e.1) else Lookup(es, tr.eq, q)
  {
    var r, f := es + [e], Find(es, tr.eq, q);
    assert DistinctKeys(r, tr.eq);
    if tr.eq(e.0, q) {
      FindIs(r, tr, q, |es|);
    } else if f < |es| {
      FindIs(r, tr, q, f);
    } else {
      FindNone(r, tr, q);
    }
  }

  /** The one mathematical map behind both layouts: a lookup after a set. */
  lemma {:induction false} LookupAfterSetLast<K(!new), V>(es: seq<(K, V)>, tr: KeyTraits<K>, k: K, v: V, q: K)
    requires Lawful(tr) && DistinctKeys(es, tr.eq)
    ensures DistinctKeys(SetLast(es, tr.eq, k, v), tr.eq)
    ensures Lookup(SetLast(es, tr.eq, k, v), tr.eq, q) == if tr.eq(k, q) then Some(v) else Lookup(es, tr.eq, q)
  {
    var i := Find(es, tr.eq, k);
    if i < |es| {
      DropKeepsDistinct(es, tr.eq, i);
      LookupAfterDrop(es, tr, k, q);
      LookupAfterDrop(es, tr, k, es[i].0);
      LookupAfterAppend(DropAt(es, i), tr, (es[i].0, v), q);
    } else {
      LookupAfterAppend(es, tr, (k, v), q);
    }
  }

  lemma {:induction false} LookupAfterSetInPlace<K(!new), V>(es: seq<(K, V)>, tr: KeyTraits<K>, k: K, v: V, q: K)
    requires Lawful(tr) && DistinctKeys(es, tr.eq)
    ensures DistinctKeys(SetInPlace(es, tr.eq, k, v), tr.eq)
    ensures Lookup(SetInPlace(es, tr.eq, k, v), tr.eq, q) == if tr.eq(k, q) then Some(v) else Lookup(es, tr.eq, q)
  {
    var i := Find(es, tr.eq, k);
    var r := SetInPlace(es, tr.eq, k, v);
    assert tr.eq(r[i].0, k);
    assert forall j :: 0 <= j < |es| && j != i ==> r[j] == es[j];
    assert DistinctKeys(r, tr.eq);
    var f := Find(es, tr.eq, q);
    if tr.eq(k, q) {
      FindIs(r, tr, q, i);
    } else if f < |es| {
      FindIs(r, tr, q, f);
    } else {
      FindNone(r, tr, q);
    }
  }

  lemma {:induction false} LookupAfterRemove<K(!new), V>(es: seq<(K, V)>, tr: KeyTraits<K>, k: K, q: K)
    requires Lawful(tr) && DistinctKeys(es, tr.eq)
    ensures DistinctKeys(Remove(es, tr.eq, k), tr.eq)
    ensures Lookup(Remove(es, tr.eq, k), tr.eq, q) == if tr.eq(k, q) then None else Lookup(es, tr.eq, q)
  {
    var i := Find(es, tr.eq, k);
    if i < |es| {
      DropKeepsDistinct(es, tr.eq, i);
      LookupAfterDrop(es, tr, k, q);
    } else if tr.eq(k, q) {
      FindHere(es, tr, k, q);
    }
  }

  lemma SetAllStep<K, V>(es: seq<(K, V)>, eq: (K, K) -> bool, k: nat)
    requires k < |es|
    ensures SetAllLast([], eq, es[..k + 1]) == SetLast(SetAllLast([], eq, es[..k]), eq, es[k].0, es[k].1)
    ensures SetAllInPlace([], eq, es[..k + 1]) == SetInPlace(SetAllInPlace([], eq, es[..k]), eq, es[k].0, es[k].1)
  {
    assert es[..k + 1][..k] == es[..k];
  }

  /** Inserting the entries of a list with distinct keys rebuilds exactly that list. */
  lemma {:induction false} RebuildIsIdentity<K(!new), V>(es: seq<(K, V)>, tr: KeyTraits<K>)
    requires Lawful(tr) && DistinctKeys(es, tr.eq)
    ensures SetAllLast([], tr.eq, es) == es
    ensures SetAllInPlace([], tr.eq, es) == es
  {
    hide Find, Lawful;
    if es != [] {
      var n := |es| - 1;
      RebuildIsIdentity(es[..n], tr);
      FindNone(es[..n], tr, es[n].0);
      assert es == es[..n] + [es[n]];
    }
  }

  /** Inserting the next entry of such a list into what precedes it. */
  lemma RebuildStep<K(!new), V>(es: seq<(K, V)>, tr: KeyTraits<K>, i: nat)
    requires Lawful(tr) && DistinctKeys(es, tr.eq) && i < |es|
    ensures SetLast(es[..i], tr.eq, es[i].0, es[i].1) == es[..i + 1]
  {
    FindNone(es[..i], tr, es[i].0);
  }
}
