// Structurally equal values have the same structural hash: whatever a True
// comparison has matched, the two hash traversals meet in lockstep.
module StructuralLaw {
  import opened AnyCells
  import opened AssocList
  import opened HashOrder
  import opened StructuralValues
  import opened StructuralEqual
  import opened StructuralHash
  import opened StructuralMatching
  import opened StructuralVisits

  /**
   * The values the law is about: no type without metadata, and loose contents below a constant or unique node, which
   * the comparison may skip. Short bytes are all stored inline, or, with inline false, all on the heap. Ignored fields
   * may hold anything. The free variables that may be mapped are given.
   */
  predicate InFragment(env: Env, v: Value, inline: bool, mapped: set<nat>)
    decreases v
  {
    match v
    case Plain(_) => BytesStored(v, inline)
    case Text(_, _) => BytesStored(v, inline)
    case Arr(_, items) => AllInFragment(env, items, AllOrdinary(|items|), inline, mapped)
    case Dict(_, keys, values) =>
      && (forall i :: 0 <= i < |keys| ==> KeyInFragment(env, keys[i], inline))
      && (forall i :: 0 <= i < |values| ==> InFragment(env, values[i], inline, mapped))
    case Obj(_, _, fields) =>
      var info := Info(env, v);
      && info.hasMetadata && !info.kind.Unsupported?
      && (ComparedByPointer(info.kind) ==> Loose(env, v, mapped))
      && (info.kind.UniqueInstance? || AllInFragment(env, fields, info.modes, inline, mapped))
  }

  predicate AllInFragment(env: Env, xs: seq<Value>, modes: seq<FieldMode>, inline: bool, mapped: set<nat>)
    decreases xs
  {
    xs == [] || modes == [] ||
    ((modes[0].Ignored? || InFragment(env, xs[0], inline, mapped)) &&
     AllInFragment(env, xs[1..], modes[1..], inline, mapped))
  }

  predicate KeyInFragment(env: Env, k: Value, inline: bool) {
    BytesStored(k, inline) && (k.Obj? ==> IsRecorded(env, k))
  }

  predicate BytesStored(v: Value, inline: bool) {
    match v
    case Plain(c) => inline || c.tindex != SMALL_BYTES
    case Text(t, bytes) => !inline || t == STR || |bytes| > MAX_SMALL
    case _ => true
  }

  /** The kinds whose objects can be equal by their pointer, before anything below them is compared. */
  predicate ComparedByPointer(kind: Kind) { kind.UniqueInstance? || kind.ConstTreeNode? }

  ghost predicate Good(env: Env, v: Value, inline: bool, mapped: set<nat>) {
    Fit(env, v) && InFragment(env, v, inline, mapped)
  }

  ghost predicate AllGood(env: Env, xs: seq<Value>, modes: seq<FieldMode>, inline: bool, mapped: set<nat>) {
    |xs| == |modes| && AllFit(env, xs) && AllInFragment(env, xs, modes, inline, mapped)
  }

  // ------------------------------------------------------- keys that are equal

  lemma {:induction false} LeafHash(env: Env, a: Value, b: Value, inline: bool, n: Maps)
    requires BytesStored(a, inline) && BytesStored(b, inline) && Shaped(env, a) && Shaped(env, b)
    requires (a.Plain? || a.Text?) && (b.Plain? || b.Text?)
    requires Related(env, a, b, n)
    ensures Frozen(env, a, map[]) == Frozen(env, b, map[])
  {
    if TypeIndex(a) != TypeIndex(b) {
      if a.Plain? { InlineTextHash(env, b, a.cell, inline); } else { InlineTextHash(env, a, b.cell, inline); }
    }
  }

  lemma {:induction false} InlineTextHash(env: Env, a: Value, c: AnyCell, inline: bool)
    requires a.Text? && BytesStored(a, inline) && BytesStored(Plain(c), inline) && SameText(a, Plain(c))
    ensures HashCell(env, c) == env.combine(Bits(a.tindex), Bits(HashFrom(0, a.bytes)))
    ensures c.tindex == SMALL_STR && a.tindex == STR && a.bytes == BytesOf(c.word, c.pad)
  {
    WordFitsBytes(c.word, c.pad);
    SmallHashAgrees(a.bytes);
  }

  /** Equal keys that are no objects have equal hashes, whatever is remembered. */
  lemma {:induction false} KeyHashAgrees(env: Env, k: Value, l: Value, inline: bool, m: map<nat, Hash>,
          m': map<nat, Hash>)
    requires SameKey(l, k) && !k.Obj? && BytesStored(k, inline) && BytesStored(l, inline)
    ensures !l.Obj? && KeyHash(env, k, m) == KeyHash(env, l, m')
  {
    if l.Text? && k.Plain? { InlineTextHash(env, l, k.cell, inline); }
    if l.Plain? && k.Text? { InlineTextHash(env, k, l.cell, inline); }
  }

  /** Where the keys of a are found in b, each at a place of its own. */
  ghost predicate Places(env: Env, a: Value, b: Value, n: Maps, at: seq<nat>) {
    && a.Dict? && b.Dict? && |at| == |a.keys| == |a.values| == |b.keys| == |b.values|
    && (forall i :: 0 <= i < |at| ==> at[i] < |at| && PlacedAt(env, a, b, n, i, at[i]))
    && (forall i, j :: 0 <= i < j < |at| ==> at[i] != at[j])
    && forall j :: 0 <= j < |at| ==> j in at
  }

  ghost predicate PlacedAt(env: Env, a: Value, b: Value, n: Maps, i: nat, j: nat)
    requires a.Dict? && b.Dict? && i < |a.keys| && i < |a.values| && j < |b.keys| && j < |b.values|
  {
    && KeyKnown(env, a.keys[i], n.lhs.Keys) && SameKey(b.keys[j], KeyPartner(env, n, a.keys[i]))
    && Related(env, a.values[i], b.values[j], n)
  }

  lemma {:induction false} PlacesFound(env: Env, a: Value, b: Value, n: Maps) returns (at: seq<nat>)
    requires a.Dict? && b.Dict? && Related(env, a, b, n) && Sound(env, n) && Fit(env, a) && Fit(env, b)
    ensures Places(env, a, b, n, at)
  {
    hide Fit, Sound;
    FieldsFit(env, a);
    FieldsFit(env, b);
    var ks, ls := a.keys, b.keys;
    assert forall i :: 0 <= i < |ks| ==> EntryRelated(env, ks[i], a.values[i], ls, b.values, n);
    hide Related;
    at := seq(|ks|, i requires 0 <= i < |ks| => IndexOf(ls, KeyPartner(env, n, ks[i])));
    forall i, j | 0 <= i < j < |ks| ensures at[i] != at[j] {
      DifferentPlaces(env, ks[i], ks[j], n, ls);
    }
    forall j | 0 <= j < |ls| ensures j in at {
      var i := EntryBack(env, ks, a.values, ls, b.values, n, j);
      assert at[i] == j;
    }
  }

  lemma {:induction false} DifferentPlaces(env: Env, k: Value, l: Value, n: Maps, ls: seq<Value>)
    requires Fit(env, k) && Fit(env, l) && !SameKey(k, l) && Sound(env, n)
    requires KeyKnown(env, k, n.lhs.Keys) && IndexOf(ls, KeyPartner(env, n, k)) < |ls|
    requires KeyKnown(env, l, n.lhs.Keys) && IndexOf(ls, KeyPartner(env, n, l)) < |ls|
    ensures IndexOf(ls, KeyPartner(env, n, k)) != IndexOf(ls, KeyPartner(env, n, l))
  {
    hide Sound, Placed, Shaped, KeyKnown;
    PartnersDiffer(env, k, l, n);
    var j := IndexOf(ls, KeyPartner(env, n, k));
    if j == IndexOf(ls, KeyPartner(env, n, l)) {
      FoundTwice(KeyPartner(env, n, k), KeyPartner(env, n, l), ls[j]);
    }
  }

  lemma FoundTwice(p: Value, q: Value, l: Value)
    requires SameKey(l, p) && SameKey(l, q)
    ensures SameKey(p, q)
  {
    SameKeySymmetric(l, p);
    SameKeySymmetric(l, q);
    SameKeyThird(p, q, l);
  }

  lemma HashesShuffled(env: Env, a: Value, b: Value, n: Maps, at: seq<nat>, m: map<nat, Hash>, m': map<nat, Hash>)
    requires Places(env, a, b, n, at)
    requires forall i :: 0 <= i < |at| ==> KeyHash(env, a.keys[i], m) == KeyHash(env, b.keys[at[i]], m')
    ensures Shuffled(KeyHashes(env, a.keys, |a.values|, m), KeyHashes(env, b.keys, |b.values|, m'), at)
  {
    hide KeyHash, PlacedAt;
  }

  /** Without a memo, related keys have the same hashes: a graph node or free variable has none. */
  lemma {:induction false} StaticallyShuffled(env: Env, a: Value, b: Value, inline: bool, mapped: set<nat>, n: Maps,
          at: seq<nat>)
    requires Places(env, a, b, n, at) && Sound(env, n) && Good(env, a, inline, mapped) && Good(env, b, inline, mapped)
    ensures Shuffled(KeyHashes(env, a.keys, |a.values|, map[]), KeyHashes(env, b.keys, |b.values|, map[]), at)
  {
    hide Sound, Fit;
    forall i | 0 <= i < |at| ensures KeyHash(env, a.keys[i], map[]) == KeyHash(env, b.keys[at[i]], map[]) {
      assert PlacedAt(env, a, b, n, i, at[i]);
      PartnerOf(env, a.keys[i], n);
      if !a.keys[i].Obj? { KeyHashAgrees(env, a.keys[i], b.keys[at[i]], inline, map[], map[]); }
    }
    HashesShuffled(env, a, b, n, at, map[], map[]);
  }

  // ------------------------------------------- what is surely met has partners

  /** y stands for a member of p. */
  ghost predicate Joined(n: Maps, p: set<nat>, y: nat) { y in n.rhs && n.rhs[y] in p }

  ghost predicate AllJoined(n: Maps, p: set<nat>, ys: set<nat>) { forall y :: y in ys ==> Joined(n, p, y) }

  lemma JoinedMore(n: Maps, p: set<nat>, q: set<nat>, ys: set<nat>)
    requires AllJoined(n, p, ys) && p <= q
    ensures AllJoined(n, q, ys)
  {
  }

  lemma {:induction false} SureMatches(env: Env, a: Value, b: Value, inline: bool, mapped: set<nat>, n: Maps)
    requires Related(env, a, b, n) && Sound(env, n) && Good(env, a, inline, mapped) && Good(env, b, inline, mapped)
    ensures AllJoined(n, Sure(env, a), Sure(env, b))
    decreases a, 1
  {
    hide Sound, Fit, Untied, AllRelated, AllInFragment, EntryRelated;
    FieldsFit(env, a);
    FieldsFit(env, b);
    if a.Arr? && b.Arr? {
      AllSureMatch(env, a.items, b.items, AllOrdinary(|a.items|), inline, mapped, n);
    } else if a.Dict? && b.Dict? {
      MapSureMatches(env, a, b, inline, mapped, n);
    } else if a.Obj? && b.Obj? {
      ObjectSureMatches(env, a, b, inline, mapped, n);
    }
  }

  lemma {:induction false} ObjectSureMatches(env: Env, a: Value, b: Value, inline: bool, mapped: set<nat>, n: Maps)
    requires a.Obj? && b.Obj?
    requires Related(env, a, b, n) && Sound(env, n) && Good(env, a, inline, mapped) && Good(env, b, inline, mapped)
    ensures AllJoined(n, Sure(env, a), Sure(env, b))
    decreases a, 0
  {
    hide Sound, Fit, Untied, AllRelated, AllInFragment;
    FieldsFit(env, a);
    FieldsFit(env, b);
    if !ComparedByPointer(Info(env, a).kind) {
      if Recorded(Info(env, a).kind) { PartnersContents(env, a, b, n); }
      AllSureMatch(env, a.fields, b.fields, Info(env, a).modes, inline, mapped, n);
    }
  }

  lemma PartnersContents(env: Env, a: Value, b: Value, n: Maps)
    requires a.Obj? && b.Obj? && Recorded(Info(env, a).kind) && Fit(env, a) && Fit(env, b)
    requires Related(env, a, b, n) && Sound(env, n)
    ensures a.tindex == b.tindex && a.id in n.lhs && n.lhs[a.id] == b.id && b.id in n.rhs && n.rhs[b.id] == a.id
    ensures |a.fields| == |b.fields| && AllRelated(env, a.fields, b.fields, Info(env, a).modes, n)
  {
    hide Fit, Sound, AllRelated;
    NothingMore(n);
    PairAhead(env, a, b, n, n);
  }

  lemma {:induction false} AllSureMatch(env: Env, xs: seq<Value>, ys: seq<Value>, modes: seq<FieldMode>, inline: bool,
          mapped: set<nat>, n: Maps)
    requires |xs| == |ys| && AllRelated(env, xs, ys, modes, n) && Sound(env, n)
    requires AllGood(env, xs, modes, inline, mapped) && AllGood(env, ys, modes, inline, mapped)
    ensures AllJoined(n, SureAll(env, xs, modes), SureAll(env, ys, modes))
    decreases xs, 0
  {
    hide Sound, Fit, Related, InFragment, Sure, Joined;
    if xs != [] && modes != [] {
      var rest := SureAll(env, xs[1..], modes[1..]);
      AllSureMatch(env, xs[1..], ys[1..], modes[1..], inline, mapped, n);
      JoinedMore(n, rest, SureAll(env, xs, modes), SureAll(env, ys[1..], modes[1..]));
      if !modes[0].Ignored? {
        SureMatches(env, xs[0], ys[0], inline, mapped, n);
        JoinedMore(n, Sure(env, xs[0]), SureAll(env, xs, modes), Sure(env, ys[0]));
      }
    }
  }

  lemma {:induction false} MapSureMatches(env: Env, a: Value, b: Value, inline: bool, mapped: set<nat>, n: Maps)
    requires a.Dict? && b.Dict?
    requires Related(env, a, b, n) && Sound(env, n) && Good(env, a, inline, mapped) && Good(env, b, inline, mapped)
    ensures AllJoined(n, Sure(env, a), Sure(env, b))
    decreases a, 0
  {
    hide Sound, Fit, Untied, Joined, KeyHash, SureAll, InFragment, Related, Places;
    var at := PlacesFound(env, a, b, n);
    if AllUntied(KeyHashes(env, b.keys, |b.values|, map[])) {
      StaticallyShuffled(env, a, b, inline, mapped, n, at);
      UntiedBack(KeyHashes(env, a.keys, |a.values|, map[]), KeyHashes(env, b.keys, |b.values|, map[]), at);
      forall y | y in SureAll(env, b.values, AllOrdinary(|b.values|)) ensures Joined(n, Sure(env, a), y) {
        OneSureMatches(env, a, b, inline, mapped, n, at, y);
      }
    }
  }

  lemma {:induction false} OneSureMatches(env: Env, a: Value, b: Value, inline: bool, mapped: set<nat>, n: Maps,
          at: seq<nat>, y: nat)
    requires Places(env, a, b, n, at) && Sound(env, n) && Good(env, a, inline, mapped) && Good(env, b, inline, mapped)
    requires y in SureAll(env, b.values, AllOrdinary(|b.values|))
    ensures Joined(n, SureAll(env, a.values, AllOrdinary(|a.values|)), y)
    decreases a, -1
  {
    hide Sound, Fit, Joined, SureAll, Sure, Related;
    FieldsFit(env, a);
    FieldsFit(env, b);
    var j := SureInOne(env, b.values, AllOrdinary(|b.values|), y);
    assert j in at;
    var i: nat :| i < |at| && at[i] == j;
    assert PlacedAt(env, a, b, n, i, j);
    SureMatches(env, a.values[i], b.values[j], inline, mapped, n);
    SureOfOne(env, a.values, i);
    JoinedMore(n, Sure(env, a.values[i]), SureAll(env, a.values, AllOrdinary(|a.values|)), Sure(env, b.values[j]));
  }

  lemma {:induction false} SureInOne(env: Env, xs: seq<Value>, modes: seq<FieldMode>, x: nat) returns (i: nat)
    requires x in SureAll(env, xs, modes)
    ensures i < |xs| && x in Sure(env, xs[i])
    decreases xs
  {
    if x in SureAll(env, xs[1..], modes[1..]) {
      i := SureInOne(env, xs[1..], modes[1..], x);
      i := i + 1;
    } else {
      i := 0;
    }
  }

  lemma {:induction false} SureOfOne(env: Env, xs: seq<Value>, i: nat)
    requires i < |xs|
    ensures Sure(env, xs[i]) <= SureAll(env, xs, AllOrdinary(|xs|))
  {
    hide Sure;
    assert AllOrdinary(|xs|)[1..] == AllOrdinary(|xs| - 1);
    if i > 0 { SureOfOne(env, xs[1..], i - 1); }
  }

  // ---------------------------------------------------------------- lockstep

  ghost predicate Agreeing(n: Maps, p: set<nat>, s: map<nat, Hash>, t: map<nat, Hash>) {
    forall x :: x in p ==> x in n.lhs && x in s && n.lhs[x] in t && s[x] == t[n.lhs[x]]
  }

  ghost predicate PairsComplete(env: Env, p: set<nat>) {
    forall x :: x in p && env.heap(x).Obj? ==> SureAll(env, env.heap(x).fields, Info(env, env.heap(x)).modes) <= p
  }

  /** The objects of p have been met by both traversals, partners with one hash; what else is remembered are loose free
      variables, and the counters agree. */
  ghost predicate Lock(env: Env, mapped: set<nat>, n: Maps, p: set<nat>, s: Memo, t: Memo) {
    && LooseMemo(env, mapped, s.hash) && LooseMemo(env, mapped, t.hash)
    && s.freeVars == t.freeVars && s.graphNodes == t.graphNodes
    && Agreeing(n, p, s.hash, t.hash) && PairsComplete(env, p)
    && (forall x :: x in s.hash ==> x in p || LooseVar(env, mapped, x))
    && (forall y :: y in t.hash ==> Joined(n, p, y) || LooseVar(env, mapped, y))
  }

  ghost predicate SameHash(env: Env, mapped: set<nat>, n: Maps, p: set<nat>, r: Hashed, q: Hashed) {
    r.ok && q.ok && r.hash == q.hash && Lock(env, mapped, n, p, r.memo, q.memo)
  }

  /** What may be met first in a mapped position, xs on the left and ys on the right, is among the mapped or has been
      met; what may be met first in another, zs on the right, stands for itself or has been met. */
  ghost predicate Ahead(n: Maps, mapped: set<nat>, p: set<nat>, xs: set<nat>, ys: set<nat>, zs: set<nat>) {
    && (forall x :: x in xs ==> x in mapped || x in p)
    && (forall y :: y in ys ==> y in mapped || Joined(n, p, y))
    && (forall z :: z in zs ==> (z in n.rhs ==> n.rhs[z] == z) || Joined(n, p, z))
  }

  lemma AheadLess(n: Maps, mapped: set<nat>, p: set<nat>, q: set<nat>, xs: set<nat>, ys: set<nat>, zs: set<nat>,
          xs': set<nat>, ys': set<nat>, zs': set<nat>)
    requires Ahead(n, mapped, p, xs, ys, zs) && p <= q && xs' <= xs && ys' <= ys && zs' <= zs
    ensures Ahead(n, mapped, q, xs', ys', zs')
  {
  }

  /** After a value has been hashed, what it surely meets has been met. */
  lemma AheadNext(n: Maps, mapped: set<nat>, p: set<nat>, q: set<nat>, xs: set<nat>, ys: set<nat>, zs: set<nat>,
          sure: set<nat>, sureB: set<nat>)
    requires Ahead(n, mapped, p, xs - sure, ys - sureB, zs - sureB)
    requires p <= q && sure <= q && AllJoined(n, sure, sureB)
    ensures Ahead(n, mapped, q, xs, ys, zs)
  {
  }

  lemma LockLoosened(env: Env, mapped: set<nat>, n: Maps, p: set<nat>, s: Memo, t: Memo, s': Memo, t': Memo)
    requires Lock(env, mapped, n, p, s, t) && Loosened(env, mapped, s, s') && Loosened(env, mapped, t, t')
    ensures Lock(env, mapped, n, p, s', t')
  {
    hide LooseMemo, LooseVar, PairsComplete, Joined;
  }

  lemma AheadSettled(env: Env, mapped: set<nat>, n: Maps, p: set<nat>, s: Memo, t: Memo, xs: set<nat>, ys: set<nat>,
          zs: set<nat>)
    requires Lock(env, mapped, n, p, s, t) && Ahead(n, mapped, p, xs, ys, zs) && Inverse(n)
    ensures Settled(mapped, s.hash, xs) && Settled(mapped, t.hash, ys)
    ensures LooseMemo(env, mapped, s.hash) && LooseMemo(env, mapped, t.hash)
  {
    hide LooseMemo, LooseVar, PairsComplete;
  }

  /** A constant or unique node met on both sides. */
  lemma {:induction false} LockLoose(env: Env, v: Value, free: bool, mapped: set<nat>, n: Maps, p: set<nat>, s: Memo,
          t: Memo)
    requires Placed(env, v) && Loose(env, v, mapped) && Lock(env, mapped, n, p, s, t) && Inverse(n)
    requires Ahead(n, mapped, p, Met(env, v, free, true), Met(env, v, free, true), Met(env, v, free, false))
    ensures SameHash(env, mapped, n, p, HashedAny(env, v, free, false, s), HashedAny(env, v, free, false, t))
  {
    hide Placed, Loose, Lock, Ahead, HashedAny, Met, LooseMemo, Settled, Loosened, Inverse;
    AheadSettled(env, mapped, n, p, s, t, Met(env, v, free, true), Met(env, v, free, true), Met(env, v, free, false));
    LooseAny(env, v, free, mapped, s, t);
    var r, q := HashedAny(env, v, free, false, s), HashedAny(env, v, free, false, t);
    LockLoosened(env, mapped, n, p, s, t, r.memo, q.memo);
  }

  lemma {:induction false} LockAny(env: Env, a: Value, b: Value, inline: bool, free: bool, mapped: set<nat>, n: Maps,
          p: set<nat>, s: Memo, t: Memo, known: set<nat>) returns (q: set<nat>)
    requires Good(env, a, inline, mapped) && Good(env, b, inline, mapped) && Related(env, a, b, n) && Sound(env, n)
    requires Lock(env, mapped, n, p, s, t) && KeysMet(env, a, known) && known <= p
    requires Ahead(n, mapped, p, Met(env, a, free, true), Met(env, b, free, true), Met(env, b, free, false))
    ensures p <= q && Sure(env, a) <= q
    ensures SameHash(env, mapped, n, q, HashedAny(env, a, free, false, s), HashedAny(env, b, free, false, t))
    decreases a, 3
  {
    hide Fit, Sound, Lock, Ahead, HashedAll, HashedEntries, HashedObject, AllInFragment, AllRelated, AllKeysMet, Untied,
      KeyInFragment, EntryRelated, SureAll, MetAll, MetAny, Loose, KeyMet;
    FieldsFit(env, a);
    FieldsFit(env, b);
    q := p;
    if a.Arr? && b.Arr? {
      var h := env.combine(env.arrayKeyHash, Bits(|a.items|));
      q := LockAll(env, h, a.items, b.items, AllOrdinary(|a.items|), inline, free, mapped, n, p, s, t, known);
    } else if a.Dict? && b.Dict? {
      q := LockMap(env, a, b, inline, free, mapped, n, p, s, t, known);
    } else if a.Obj? && b.Obj? {
      q := LockObject(env, a, b, inline, free, mapped, n, p, s, t, known);
    } else {
      LeavesHashed(env, a, b, inline, free, n, s, t);
    }
  }

  lemma LeavesHashed(env: Env, a: Value, b: Value, inline: bool, free: bool, n: Maps, s: Memo, t: Memo)
    requires BytesStored(a, inline) && BytesStored(b, inline) && Fit(env, a) && Fit(env, b)
    requires Related(env, a, b, n) && !(a.Arr? && b.Arr?) && !(a.Dict? && b.Dict?) && !(a.Obj? && b.Obj?)
    ensures (a.Plain? || a.Text?) && (b.Plain? || b.Text?)
    ensures HashedAny(env, a, free, false, s) == Hashed(true, Frozen(env, a, map[]), s)
    ensures HashedAny(env, b, free, false, t) == Hashed(true, Frozen(env, a, map[]), t)
  {
    LeafHash(env, a, b, inline, n);
  }

  lemma {:induction false} LockObject(env: Env, a: Value, b: Value, inline: bool, free: bool, mapped: set<nat>, n: Maps,
          p: set<nat>, s: Memo, t: Memo, known: set<nat>) returns (q: set<nat>)
    requires a.Obj? && b.Obj?
    requires Good(env, a, inline, mapped) && Good(env, b, inline, mapped) && Related(env, a, b, n) && Sound(env, n)
    requires Lock(env, mapped, n, p, s, t) && KeysMet(env, a, known) && known <= p
    requires Ahead(n, mapped, p, Met(env, a, free, true), Met(env, b, free, true), Met(env, b, free, false))
    ensures p <= q && Sure(env, a) <= q
    ensures SameHash(env, mapped, n, q, HashedObject(env, a, free, false, s), HashedObject(env, b, free, false, t))
    decreases a, 2
  {
    hide Fit, Sound, Lock, Ahead, HashedAll, HashedObject, AllInFragment, AllRelated, AllKeysMet, Loose;
    var info := Info(env, a);
    ObjectParts(env, a, mapped, n, p, s, t);
    ObjectParts(env, b, mapped, n, p, s, t);
    if Recorded(info.kind) {
      q := LockRecorded(env, a, b, inline, free, mapped, n, p, s, t, known);
    } else if ComparedByPointer(info.kind) && a.id == b.id {
      q := p;
      assert a == b;
      LockLoose(env, a, free, mapped, n, p, s, t);
    } else {
      ContentsAhead(env, a, b, free, mapped, n, p);
      q := LockAll(env, info.keyHash, a.fields, b.fields, info.modes, inline, free, mapped, n, p, s, t, known);
      TreeHashed(env, a, free, s);
      TreeHashed(env, b, free, t);
    }
  }

  lemma ContentsAhead(env: Env, a: Value, b: Value, free: bool, mapped: set<nat>, n: Maps, p: set<nat>)
    requires a.Obj? && b.Obj?
    requires Ahead(n, mapped, p, Met(env, a, free, true), Met(env, b, free, true), Met(env, b, free, false))
    ensures Ahead(n, mapped, p, MetAll(env, a.fields, Info(env, a).modes, free, true),
                  MetAll(env, b.fields, Info(env, b).modes, free, true),
                  MetAll(env, b.fields, Info(env, b).modes, free, false))
  {
    hide Ahead;
    AheadLess(n, mapped, p, p, Met(env, a, free, true), Met(env, b, free, true), Met(env, b, free, false),
              MetAll(env, a.fields, Info(env, a).modes, free, true),
              MetAll(env, b.fields, Info(env, b).modes, free, true),
              MetAll(env, b.fields, Info(env, b).modes, free, false));
  }

  lemma ObjectParts(env: Env, v: Value, mapped: set<nat>, n: Maps, p: set<nat>, s: Memo, t: Memo)
    requires v.Obj? && Fit(env, v) && Sound(env, n) && Lock(env, mapped, n, p, s, t)
    ensures AllFit(env, v.fields) && |v.fields| == |Info(env, v).modes| && env.heap(v.id) == v && Placed(env, v)
    ensures !Recorded(Info(env, v).kind) ==> v.id !in s.hash && v.id !in t.hash
    ensures Inverse(n)
  {
    FieldsFit(env, v);
    if !Recorded(Info(env, v).kind) {
      NotInMemo(env, v, mapped, s.hash);
      NotInMemo(env, v, mapped, t.hash);
    }
  }

  lemma {:induction false} LockRecorded(env: Env, a: Value, b: Value, inline: bool, free: bool, mapped: set<nat>,
          n: Maps, p: set<nat>, s: Memo, t: Memo, known: set<nat>) returns (q: set<nat>)
    requires a.Obj? && b.Obj? && Recorded(Info(env, a).kind)
    requires Good(env, a, inline, mapped) && Good(env, b, inline, mapped) && Related(env, a, b, n) && Sound(env, n)
    requires Lock(env, mapped, n, p, s, t) && KeysMet(env, a, known) && known <= p
    requires Ahead(n, mapped, p, Met(env, a, free, true), Met(env, b, free, true), Met(env, b, free, false))
    ensures p <= q && Sure(env, a) <= q
    ensures SameHash(env, mapped, n, q, HashedObject(env, a, free, false, s), HashedObject(env, b, free, false, t))
    decreases a, 1
  {
    hide Fit, Sound, Lock, Ahead, HashedAll, HashedObject, AllInFragment, AllRelated, AllKeysMet, SureAll, Met, Loose;
    ObjectParts(env, a, mapped, n, p, s, t);
    ObjectParts(env, b, mapped, n, p, s, t);
    PartnersContents(env, a, b, n);
    if a.id in p {
      q := p;
      MetBefore(env, a, b, free, mapped, n, p, s, t);
    } else {
      FirstMeeting(env, a, b, free, mapped, n, p, s, t);
      if a.id in s.hash || b.id in t.hash {
        q := p + Sure(env, a);
        LockLoose(env, a, free, mapped, n, p, s, t);
        LockedVar(env, a, free, mapped, n, p, s, t);
      } else {
        q := LockFresh(env, a, b, inline, free, mapped, n, p, s, t, known);
      }
    }
  }

  lemma MetBefore(env: Env, a: Value, b: Value, free: bool, mapped: set<nat>, n: Maps, p: set<nat>, s: Memo, t: Memo)
    requires a.Obj? && b.Obj? && a.tindex == b.tindex && Placed(env, a) && Recorded(Info(env, a).kind)
    requires Info(env, a).hasMetadata && Lock(env, mapped, n, p, s, t) && a.id in p && n.lhs[a.id] == b.id
    ensures Sure(env, a) <= p
    ensures SameHash(env, mapped, n, p, HashedObject(env, a, free, false, s), HashedObject(env, b, free, false, t))
  {
    hide HashedAll, SureAll, LooseMemo, LooseVar;
    assert env.heap(a.id) == a;
  }

  /** A pair that has not been met: its variables are mapped on both sides, or one and the same; and what is remembered
      of it comes from a constant or unique node that holds it. */
  lemma {:induction false} FirstMeeting(env: Env, a: Value, b: Value, free: bool, mapped: set<nat>, n: Maps,
          p: set<nat>, s: Memo, t: Memo)
    requires a.Obj? && b.Obj? && a.tindex == b.tindex && Placed(env, a) && Placed(env, b)
    requires Recorded(Info(env, a).kind) && n.lhs.Keys >= {a.id} && n.lhs[a.id] == b.id
    requires b.id in n.rhs && n.rhs[b.id] == a.id && Lock(env, mapped, n, p, s, t) && a.id !in p
    requires Ahead(n, mapped, p, Met(env, a, free, true), Met(env, b, free, true), Met(env, b, free, false))
    ensures Info(env, a).kind.FreeVar? ==> if free then a.id in mapped && b.id in mapped else a == b
    ensures a.id in s.hash || b.id in t.hash ==> Info(env, a).kind.FreeVar? && !free && Loose(env, a, mapped)
  {
    hide LooseMemo, PairsComplete, Agreeing, AllLoose, MetAll, Placed;
    VarAtItsId(env, a);
    VarAtItsId(env, b);
    if Info(env, a).kind.FreeVar? {
      assert b.id in Met(env, b, free, free);
      assert free ==> a.id in Met(env, a, free, true);
    }
  }

  /** A loose variable remembered from elsewhere: what it surely meets are the same variables on both sides. */
  lemma {:induction false} LockedVar(env: Env, v: Value, free: bool, mapped: set<nat>, n: Maps, p: set<nat>, s: Memo,
          t: Memo)
    requires v.Obj? && Fit(env, v) && Placed(env, v) && Loose(env, v, mapped) && Related(env, v, v, n) && Sound(env, n)
    requires Lock(env, mapped, n, p, s, t) && Inverse(n)
    requires Ahead(n, mapped, p, Met(env, v, free, true), Met(env, v, free, true), Met(env, v, free, false))
    requires var r, q := HashedAny(env, v, free, false, s), HashedAny(env, v, free, false, t);
             SameHash(env, mapped, n, p, r, q)
    ensures SameHash(env, mapped, n, p + Sure(env, v), HashedAny(env, v, free, false, s),
                     HashedAny(env, v, free, false, t))
  {
    hide Fit, Sound, Lock, Ahead, HashedAny, Loose, Related, Sure, Met, Loosened, LooseMemo, LooseVar, Placed, Inverse;
    var r, q := HashedAny(env, v, free, false, s), HashedAny(env, v, free, false, t);
    AheadSettled(env, mapped, n, p, s, t, Met(env, v, free, true), Met(env, v, free, true), Met(env, v, free, false));
    LooseAny(env, v, free, mapped, s, t);
    SettledNext(env, v, free, mapped, s, Sure(env, v));
    SettledNext(env, v, free, mapped, t, Sure(env, v));
    SureIsLoose(env, v, mapped);
    LooseIsFixed(env, v, n, mapped);
    forall x | x in Sure(env, v)
      ensures env.heap(x).Obj? && SureAll(env, env.heap(x).fields, Info(env, env.heap(x)).modes) <= Sure(env, v)
    {
      SureIsTransitive(env, v, x);
    }
    LockMore(env, mapped, n, p, Sure(env, v), r.memo, q.memo);
  }

  lemma LockMore(env: Env, mapped: set<nat>, n: Maps, p: set<nat>, xs: set<nat>, s: Memo, t: Memo)
    requires Lock(env, mapped, n, p, s, t)
    requires forall x :: x in xs ==>
      && x in s.hash && x in t.hash && x !in mapped && LooseVar(env, mapped, x) && x in n.lhs && n.lhs[x] == x
      && env.heap(x).Obj? && SureAll(env, env.heap(x).fields, Info(env, env.heap(x)).modes) <= xs
    ensures Lock(env, mapped, n, p + xs, s, t)
  {
    hide Loose, SureAll, Ready;
  }

  lemma {:induction false} LockFresh(env: Env, a: Value, b: Value, inline: bool, free: bool, mapped: set<nat>, n: Maps,
          p: set<nat>, s: Memo, t: Memo, known: set<nat>) returns (q: set<nat>)
    requires a.Obj? && b.Obj? && Recorded(Info(env, a).kind)
    requires Good(env, a, inline, mapped) && Good(env, b, inline, mapped) && Related(env, a, b, n) && Sound(env, n)
    requires Lock(env, mapped, n, p, s, t) && KeysMet(env, a, known) && known <= p
    requires Ahead(n, mapped, p, Met(env, a, free, true), Met(env, b, free, true), Met(env, b, free, false))
    requires a.id !in s.hash && b.id !in t.hash
    requires Info(env, a).kind.FreeVar? ==> if free then a.id in mapped && b.id in mapped else a == b
    ensures p <= q && Sure(env, a) <= q
    ensures SameHash(env, mapped, n, q, HashedObject(env, a, free, false, s), HashedObject(env, b, free, false, t))
    decreases a, 0
  {
    hide Fit, Sound, Lock, Ahead, HashedAll, AllInFragment, AllRelated, AllKeysMet, SureAll, MetAll, Finish, Loose;
    var info := Info(env, a);
    ObjectParts(env, a, mapped, n, p, s, t);
    ObjectParts(env, b, mapped, n, p, s, t);
    PartnersContents(env, a, b, n);
    ContentsAhead(env, a, b, free, mapped, n, p);
    q := LockAll(env, info.keyHash, a.fields, b.fields, info.modes, inline, free, mapped, n, p, s, t, known);
    var r := HashedAll(env, info.keyHash, a.fields, info.modes, free, false, s);
    var w := HashedAll(env, info.keyHash, b.fields, info.modes, free, false, t);
    StillNew(env, a, b, inline, free, mapped, n, p, q, s, t, known);
    AllSureMatch(env, a.fields, b.fields, info.modes, inline, mapped, n);
    LockFinish(env, a, b, free, mapped, n, q, r, w);
    q := q + {a.id};
  }

  /** An object is not remembered while its fields are hashed. */
  lemma {:induction false} StillNew(env: Env, a: Value, b: Value, inline: bool, free: bool, mapped: set<nat>, n: Maps,
          p: set<nat>, q: set<nat>, s: Memo, t: Memo, known: set<nat>)
    requires a.Obj? && b.Obj? && Recorded(Info(env, a).kind) && a.tindex == b.tindex
    requires Placed(env, a) && Placed(env, b) && b.id in n.rhs && n.rhs[b.id] == a.id
    requires Lock(env, mapped, n, p, s, t) && KeysMet(env, a, known) && known <= p
    requires a.id !in s.hash && b.id !in t.hash
    requires var info := Info(env, a);
             SameHash(env, mapped, n, q, HashedAll(env, info.keyHash, a.fields, info.modes, free, false, s),
                      HashedAll(env, info.keyHash, b.fields, info.modes, free, false, t))
    ensures var info := Info(env, a);
            && a.id !in HashedAll(env, info.keyHash, a.fields, info.modes, free, false, s).memo.hash
            && b.id !in HashedAll(env, info.keyHash, b.fields, info.modes, free, false, t).memo.hash
  {
    hide Placed, HashedAll, AllKeysMet, AllLoose, Lock, Joined, LooseVar;
    var info := Info(env, a);
    var w := HashedAll(env, info.keyHash, b.fields, info.modes, free, false, t);
    LockReady(env, mapped, n, p, s, t, known);
    ContentsNew(env, a, free, s, known);
    if b.id in w.memo.hash {
      LockMembers(env, mapped, n, q, HashedAll(env, info.keyHash, a.fields, info.modes, free, false, s).memo, w.memo,
                  a.id, b.id);
      LooseKeysAt(env, b, mapped);
      ContentsNew(env, b, free, t, {});
    }
  }

  lemma LockReady(env: Env, mapped: set<nat>, n: Maps, p: set<nat>, s: Memo, t: Memo, known: set<nat>)
    requires Lock(env, mapped, n, p, s, t) && known <= p
    ensures Ready(env, s.hash, known) && Ready(env, t.hash, {})
  {
    hide LooseVar, PairsComplete, Complete, OnlyRecorded, ByPointer;
  }

  lemma LockMembers(env: Env, mapped: set<nat>, n: Maps, q: set<nat>, s: Memo, t: Memo, x: nat, y: nat)
    requires Lock(env, mapped, n, q, s, t) && x !in s.hash && y in t.hash && y in n.rhs && n.rhs[y] == x
    ensures LooseVar(env, mapped, y)
  {
    hide LooseMemo, LooseVar, PairsComplete;
  }

  lemma LooseKeysAt(env: Env, v: Value, mapped: set<nat>)
    requires v.Obj? && Placed(env, v) && LooseVar(env, mapped, v.id)
    ensures KeysMet(env, v, {})
  {
    hide Loose, KeysMet;
    VarAtItsId(env, v);
    LooseKeysMet(env, v, mapped, {});
  }

  lemma {:induction false} ContentsNew(env: Env, v: Value, free: bool, s: Memo, known: set<nat>)
    requires v.Obj? && Placed(env, v) && Ready(env, s.hash, known) && KeysMet(env, v, known) && v.id !in s.hash
    requires HashedAll(env, Info(env, v).keyHash, v.fields, Info(env, v).modes, free, false, s).ok
    ensures v.id !in HashedAll(env, Info(env, v).keyHash, v.fields, Info(env, v).modes, free, false, s).memo.hash
  {
    hide HashedAll, AllKeysMet, Ready, Added, CoveredAll, SureAll, Complete;
    var info := Info(env, v);
    var r := HashedAll(env, info.keyHash, v.fields, info.modes, free, false, s);
    CoversAll(env, info.keyHash, v.fields, info.modes, free, s, known);
    AddedOnly(env, s.hash, r.memo.hash, HeightOfAll(v.fields));
    AllSureIsCovered(env, v.fields, info.modes, r.memo.hash);
    AddedAbove(env, v, s.hash, r.memo.hash, 0);
  }

  /** The two objects are remembered together, with one hash. */
  lemma {:induction false} LockFinish(env: Env, a: Value, b: Value, free: bool, mapped: set<nat>, n: Maps, q: set<nat>,
          r: Hashed, w: Hashed)
    requires a.Obj? && b.Obj? && a.tindex == b.tindex && Placed(env, a) && Placed(env, b) && Inverse(n)
    requires Recorded(Info(env, a).kind) && SameHash(env, mapped, n, q, r, w)
    requires a.id !in r.memo.hash && b.id !in w.memo.hash
    requires a.id in n.lhs && n.lhs[a.id] == b.id && b.id in n.rhs && n.rhs[b.id] == a.id
    requires Info(env, a).kind.FreeVar? ==> if free then a.id in mapped && b.id in mapped else a == b
    requires SureAll(env, a.fields, Info(env, a).modes) <= q
    requires AllJoined(n, SureAll(env, a.fields, Info(env, a).modes), SureAll(env, b.fields, Info(env, a).modes))
    ensures var kind := Info(env, a).kind;
            SameHash(env, mapped, n, q + {a.id}, Finish(env, a.id, kind, r.hash, free, false, r.memo),
                     Finish(env, b.id, kind, w.hash, free, false, w.memo))
  {
    hide SureAll, Placed, Lock;
    var kind := Info(env, a).kind;
    VarAtItsId(env, a);
    VarAtItsId(env, b);
    var h := Finish(env, a.id, kind, r.hash, free, false, r.memo).hash;
    LockCounters(env, mapped, n, q, r.memo, w.memo);
    LockRecord(env, a, b, mapped, n, q, r.memo, w.memo, h);
    LockBumped(env, mapped, n, q + {a.id}, r.memo.(hash := r.memo.hash[a.id := h]),
               w.memo.(hash := w.memo.hash[b.id := h]));
  }

  lemma LockCounters(env: Env, mapped: set<nat>, n: Maps, p: set<nat>, s: Memo, t: Memo)
    requires Lock(env, mapped, n, p, s, t)
    ensures s.freeVars == t.freeVars && s.graphNodes == t.graphNodes
  {
    hide LooseMemo, LooseVar, PairsComplete;
  }

  lemma LockBumped(env: Env, mapped: set<nat>, n: Maps, p: set<nat>, s: Memo, t: Memo)
    requires Lock(env, mapped, n, p, s, t)
    ensures Lock(env, mapped, n, p, s.(freeVars := Bump(s.freeVars)), t.(freeVars := Bump(t.freeVars)))
    ensures Lock(env, mapped, n, p, s.(graphNodes := Bump(s.graphNodes)), t.(graphNodes := Bump(t.graphNodes)))
  {
    hide LooseMemo, LooseVar, PairsComplete;
  }

  lemma {:induction false} LockRecord(env: Env, a: Value, b: Value, mapped: set<nat>, n: Maps, q: set<nat>, s: Memo,
          t: Memo, h: Hash)
    requires a.Obj? && b.Obj? && a.tindex == b.tindex && env.heap(a.id) == a && env.heap(b.id) == b && Inverse(n)
    requires Recorded(Info(env, a).kind) && Lock(env, mapped, n, q, s, t) && a.id !in s.hash && b.id !in t.hash
    requires a.id in n.lhs && n.lhs[a.id] == b.id && b.id in n.rhs && n.rhs[b.id] == a.id
    requires Info(env, a).kind.FreeVar? ==>
      && (a.id in mapped || h == env.pointerHash(a.id)) && (b.id in mapped || h == env.pointerHash(b.id))
    requires SureAll(env, a.fields, Info(env, a).modes) <= q
    requires AllJoined(n, SureAll(env, a.fields, Info(env, a).modes), SureAll(env, b.fields, Info(env, a).modes))
    ensures Lock(env, mapped, n, q + {a.id}, s.(hash := s.hash[a.id := h]), t.(hash := t.hash[b.id := h]))
  {
    hide LooseVar, LooseMemo, PairsComplete, SureAll;
    MemoRecord(env, a, mapped, s.hash, h);
    MemoRecord(env, b, mapped, t.hash, h);
    PairRecord(env, a, q);
  }

  lemma MemoRecord(env: Env, v: Value, mapped: set<nat>, m: map<nat, Hash>, h: Hash)
    requires v.Obj? && env.heap(v.id) == v && Recorded(Info(env, v).kind) && LooseMemo(env, mapped, m)
    requires Info(env, v).kind.FreeVar? ==> v.id in mapped || h == env.pointerHash(v.id)
    requires v.id !in m && SureAll(env, v.fields, Info(env, v).modes) <= m.Keys
    ensures LooseMemo(env, mapped, m[v.id := h])
  {
    hide SureAll;
  }

  lemma PairRecord(env: Env, v: Value, q: set<nat>)
    requires v.Obj? && env.heap(v.id) == v && PairsComplete(env, q)
    requires SureAll(env, v.fields, Info(env, v).modes) <= q
    ensures PairsComplete(env, q + {v.id})
  {
    hide SureAll;
  }

  lemma {:induction false} LockAll(env: Env, h: Hash, xs: seq<Value>, ys: seq<Value>, modes: seq<FieldMode>,
          inline: bool, free: bool, mapped: set<nat>, n: Maps, p: set<nat>, s: Memo, t: Memo, known: set<nat>)
    returns (q: set<nat>)
    requires AllGood(env, xs, modes, inline, mapped) && AllGood(env, ys, modes, inline, mapped)
    requires AllRelated(env, xs, ys, modes, n) && Sound(env, n)
    requires Lock(env, mapped, n, p, s, t) && AllKeysMet(env, xs, modes, known) && known <= p
    requires Ahead(n, mapped, p, MetAll(env, xs, modes, free, true), MetAll(env, ys, modes, free, true),
                   MetAll(env, ys, modes, free, false))
    ensures p <= q && SureAll(env, xs, modes) <= q
    ensures SameHash(env, mapped, n, q, HashedAll(env, h, xs, modes, free, false, s),
                     HashedAll(env, h, ys, modes, free, false, t))
    decreases xs, 0
  {
    hide Fit, Sound, Lock, Ahead, HashedAny, InFragment, Related, KeysMet, Sure, Met, AllJoined;
    q := p;
    if modes != [] {
      if modes[0].Ignored? {
        q := LockAll(env, h, xs[1..], ys[1..], modes[1..], inline, free, mapped, n, p, s, t, known);
      } else {
        var f := free || modes[0].Def?;
        var x, y, xr, yr, mr := xs[0], ys[0], xs[1..], ys[1..], modes[1..];
        AheadLess(n, mapped, p, p, MetAll(env, xs, modes, free, true), MetAll(env, ys, modes, free, true),
                  MetAll(env, ys, modes, free, false), Met(env, x, f, true), Met(env, y, f, true),
                  Met(env, y, f, false));
        q := LockAny(env, x, y, inline, f, mapped, n, p, s, t, known);
        SureMatches(env, x, y, inline, mapped, n);
        AheadLess(n, mapped, p, p, MetAll(env, xs, modes, free, true), MetAll(env, ys, modes, free, true),
                  MetAll(env, ys, modes, free, false), MetAll(env, xr, mr, free, true) - Sure(env, x),
                  MetAll(env, yr, mr, free, true) - Sure(env, y), MetAll(env, yr, mr, free, false) - Sure(env, y));
        AheadNext(n, mapped, p, q, MetAll(env, xr, mr, free, true), MetAll(env, yr, mr, free, true),
                  MetAll(env, yr, mr, free, false), Sure(env, x), Sure(env, y));
        var r, w := HashedAny(env, x, f, false, s), HashedAny(env, y, f, false, t);
        q := LockAll(env, env.combine(h, r.hash), xr, yr, mr, inline, free, mapped, n, q, r.memo, w.memo,
                     known + Sure(env, x));
      }
    }
  }

  // --------------------------------------------------------------------- maps

  lemma {:induction false} LockMap(env: Env, a: Value, b: Value, inline: bool, free: bool, mapped: set<nat>, n: Maps,
          p: set<nat>, s: Memo, t: Memo, known: set<nat>) returns (q: set<nat>)
    requires a.Dict? && b.Dict?
    requires Good(env, a, inline, mapped) && Good(env, b, inline, mapped) && Related(env, a, b, n) && Sound(env, n)
    requires Lock(env, mapped, n, p, s, t) && KeysMet(env, a, known) && known <= p
    requires Ahead(n, mapped, p, Met(env, a, free, true), Met(env, b, free, true), Met(env, b, free, false))
    ensures p <= q && Sure(env, a) <= q
    ensures SameHash(env, mapped, n, q, HashedAny(env, a, free, false, s), HashedAny(env, b, free, false, t))
    decreases a, 2
  {
    hide Fit, Sound, Lock, Ahead, HashedEntries, KeyHash, PlacedAt, Untied, Related;
    FieldsFit(env, a);
    FieldsFit(env, b);
    var at := PlacesFound(env, a, b, n);
    KeysAgree(env, a, b, inline, mapped, n, at, p, s, t, known);
    var hs := KeyHashes(env, a.keys, |a.values|, s.hash);
    var gs := KeyHashes(env, b.keys, |b.values|, t.hash);
    q := LockEntries(env, env.combine(env.mapKeyHash, Bits(|a.keys|)), a, b, hs, gs, at, None, inline, free, mapped, n,
                     p, s, t, known);
    if AllUntied(KeyHashes(env, a.keys, |a.values|, map[])) {
      StaticHashes(env, a.keys, |a.values|, s.hash);
      SureOfEach(env, a.values, AllOrdinary(|a.values|), q) by { EachSure(env, a.values, hs, q); }
    }
  }

  lemma EachSure(env: Env, us: seq<Value>, hs: seq<Option<Hash>>, q: set<nat>)
    requires AllUntied(hs) && EntriesSure(env, us, hs, None, q)
    ensures forall i :: 0 <= i < |us| ==> Sure(env, us[i]) <= q
  {
    hide Sure;
  }

  /** Keys and their partners have the same hashes, graph nodes and free variables included. */
  lemma {:induction false} KeysAgree(env: Env, a: Value, b: Value, inline: bool, mapped: set<nat>, n: Maps,
          at: seq<nat>, p: set<nat>, s: Memo, t: Memo, known: set<nat>)
    requires Places(env, a, b, n, at) && Sound(env, n) && Good(env, a, inline, mapped) && Good(env, b, inline, mapped)
    requires Lock(env, mapped, n, p, s, t) && KeysMet(env, a, known) && known <= p
    ensures Shuffled(KeyHashes(env, a.keys, |a.values|, s.hash), KeyHashes(env, b.keys, |b.values|, t.hash), at)
  {
    hide Sound, Fit, Lock;
    forall i | 0 <= i < |at| ensures KeyHash(env, a.keys[i], s.hash) == KeyHash(env, b.keys[at[i]], t.hash) {
      assert PlacedAt(env, a, b, n, i, at[i]);
      assert KeyMet(env, a.keys[i], known);
      PartnerOf(env, a.keys[i], n);
      if a.keys[i].Obj? {
        PartnersRemembered(env, mapped, n, p, s, t, a.keys[i].id);
      } else {
        KeyHashAgrees(env, a.keys[i], b.keys[at[i]], inline, s.hash, t.hash);
      }
    }
    HashesShuffled(env, a, b, n, at, s.hash, t.hash);
  }

  lemma PartnersRemembered(env: Env, mapped: set<nat>, n: Maps, p: set<nat>, s: Memo, t: Memo, x: nat)
    requires Lock(env, mapped, n, p, s, t) && x in p
    ensures x in n.lhs && x in s.hash && n.lhs[x] in t.hash && s.hash[x] == t.hash[n.lhs[x]]
  {
    hide LooseMemo, LooseVar, PairsComplete;
  }

  /** What the entries after lo surely meet is in q, ties apart. */
  ghost predicate EntriesSure(env: Env, us: seq<Value>, hs: seq<Option<Hash>>, lo: Option<Hash>, q: set<nat>) {
    |hs| == |us| && forall i :: 0 <= i < |us| && Untied(hs, i) && Beyond(hs[i], lo) ==> Sure(env, us[i]) <= q
  }

  lemma NextSure(env: Env, us: seq<Value>, hs: seq<Option<Hash>>, lo: Option<Hash>, q: set<nat>)
    requires |hs| == |us|
    requires var k := Next(hs, lo);
             k.Some? ==>
               && EntriesSure(env, us, hs, k, q)
               && (Tied(hs, k.value) || (Holder(hs, k.value) < |us| && Sure(env, us[Holder(hs, k.value)]) <= q))
    ensures EntriesSure(env, us, hs, lo, q)
  {
    hide Sure, Tied, Beyond;
    forall i | 0 <= i < |us| && Untied(hs, i) && Beyond(hs[i], lo) ensures Sure(env, us[i]) <= q {
      NextOrBeyond(hs, lo, i);
      HolderOnly(hs, i);
    }
  }

  lemma {:induction false} LockEntries(env: Env, h: Hash, a: Value, b: Value, hs: seq<Option<Hash>>,
          gs: seq<Option<Hash>>, at: seq<nat>, lo: Option<Hash>, inline: bool, free: bool, mapped: set<nat>, n: Maps,
          p: set<nat>, s: Memo, t: Memo, known: set<nat>) returns (q: set<nat>)
    requires Places(env, a, b, n, at) && Shuffled(hs, gs, at) && |hs| == |a.values| && Sound(env, n)
    requires Good(env, a, inline, mapped) && Good(env, b, inline, mapped) && KeysMet(env, a, known)
    requires Lock(env, mapped, n, p, s, t) && known <= p
    requires Ahead(n, mapped, p, Met(env, a, free, true), Met(env, b, free, true), Met(env, b, free, false))
    ensures p <= q && EntriesSure(env, a.values, hs, lo, q)
    ensures SameHash(env, mapped, n, q, HashedEntries(env, h, a.values, hs, lo, free, false, s),
                     HashedEntries(env, h, b.values, gs, lo, free, false, t))
    decreases a, 1, Left(hs, lo)
  {
    hide Fit, Sound, Lock, Ahead, HashedAny, InFragment, KeysMet, Related, Sure, Met, Shuffled, PlacedAt, Tied, Left,
      EntriesSure;
    var k := Next(hs, lo);
    ShuffledNext(hs, gs, at, lo);
    q := p;
    if k.None? {
      NextSure(env, a.values, hs, lo, q);
    } else {
      NextShrinks(hs, lo);
      ShuffledHolder(hs, gs, at, k.value);
      if Tied(hs, k.value) {
        q := LockEntries(env, env.combine(h, k.value), a, b, hs, gs, at, k, inline, free, mapped, n, p, s, t, known);
        NextSure(env, a.values, hs, lo, q);
      } else {
        HolderUntied(hs, k.value);
        var i := Holder(hs, k.value);
        var u, v := a.values[i], b.values[at[i]];
        EntryParts(env, a, b, inline, free, mapped, n, at, p, known, i);
        q := LockAny(env, u, v, inline, free, mapped, n, p, s, t, known);
        var r, w := HashedAny(env, u, free, false, s), HashedAny(env, v, free, false, t);
        AheadLess(n, mapped, p, q, Met(env, a, free, true), Met(env, b, free, true), Met(env, b, free, false),
                  Met(env, a, free, true), Met(env, b, free, true), Met(env, b, free, false));
        var g := env.combine(env.combine(h, k.value), r.hash);
        q := LockEntries(env, g, a, b, hs, gs, at, k, inline, free, mapped, n, q, r.memo, w.memo, known);
        NextSure(env, a.values, hs, lo, q);
      }
    }
  }

  lemma {:induction false} EntryParts(env: Env, a: Value, b: Value, inline: bool, free: bool, mapped: set<nat>, n: Maps,
          at: seq<nat>, p: set<nat>, known: set<nat>, i: nat)
    requires Places(env, a, b, n, at) && i < |at|
    requires Good(env, a, inline, mapped) && Good(env, b, inline, mapped) && KeysMet(env, a, known)
    requires Ahead(n, mapped, p, Met(env, a, free, true), Met(env, b, free, true), Met(env, b, free, false))
    ensures var u, v := a.values[i], b.values[at[i]];
            && Good(env, u, inline, mapped) && Good(env, v, inline, mapped) && Related(env, u, v, n)
            && KeysMet(env, u, known)
            && Ahead(n, mapped, p, Met(env, u, free, true), Met(env, v, free, true), Met(env, v, free, false))
  {
    hide Fit, Ahead, Related;
    FieldsFit(env, a);
    FieldsFit(env, b);
    assert PlacedAt(env, a, b, n, i, at[i]);
    MetOfEach(env, a.values, i, free, true);
    MetOfEach(env, b.values, at[i], free, true);
    MetOfEach(env, b.values, at[i], free, false);
    AheadLess(n, mapped, p, p, Met(env, a, free, true), Met(env, b, free, true), Met(env, b, free, false),
              Met(env, a.values[i], free, true), Met(env, b.values[at[i]], free, true),
              Met(env, b.values[at[i]], free, false));
  }

  // ------------------------------------------------------------------ the law

  /** The free variables that hashing a or b may map. */
  function Mapped(env: Env, a: Value, b: Value, mapFreeVars: bool): set<nat> {
    Met(env, a, mapFreeVars, true) + Met(env, b, mapFreeVars, true)
  }

  lemma NothingLocked(env: Env, mapped: set<nat>, n: Maps)
    ensures Lock(env, mapped, n, {}, NO_MEMO, NO_MEMO)
  {
  }

  /**
   * Equal(a, b) implies Hash(a) == Hash(b), whatever is shared on either side and in whatever order maps list their
   * entries, and neither hash fails. An object that is the key of a map is a graph node or free variable met before
   * the map, and no free variable of b can be met first in a mapped position and, in another order of the entries,
   * first in one that is not.
   */
  lemma {:induction false} EqualImpliesSameHash(env: Env, a: Value, b: Value, inline: bool, mapFreeVars: bool)
    requires Good(env, a, inline, Mapped(env, a, b, mapFreeVars)) && KeysMet(env, a, {})
    requires Good(env, b, inline, Mapped(env, a, b, mapFreeVars)) && KeysMet(env, b, {})
    requires Met(env, b, mapFreeVars, true) !! Met(env, b, mapFreeVars, false)
    requires Equal(env, a, b, mapFreeVars).True?
    ensures HashOf(env, a, mapFreeVars).Some? && HashOf(env, a, mapFreeVars) == HashOf(env, b, mapFreeVars)
  {
    hide Fit, Sound, Lock, Ahead, HashedAny, EqAny, InFragment, KeysMet, KeysKnown, Related, Met, First, IsVar, Sure;
    var mapped := Mapped(env, a, b, mapFreeVars);
    NothingSound(env);
    MetKeysAreKnown(env, a, {}, {});
    Matched(env, a, b, mapFreeVars, false, NO_MAPS, {});
    var n := EqAny(env, a, b, mapFreeVars, false, NO_MAPS).maps;
    GrownParts(env, NO_MAPS, n, First(env, b, mapFreeVars, true));
    AheadAtFirst(env, a, b, mapFreeVars, n);
    NothingLocked(env, mapped, n);
    var q := LockAny(env, a, b, inline, mapFreeVars, mapped, n, {}, NO_MEMO, NO_MEMO, {});
    FitIsPlaced(env, a);
    FitIsPlaced(env, b);
    TreeMemoIsIrrelevant(env, a, mapFreeVars);
    TreeMemoIsIrrelevant(env, b, mapFreeVars);
  }

  lemma FitIsPlaced(env: Env, v: Value)
    requires Fit(env, v)
    ensures Placed(env, v)
  {
  }

  lemma {:induction false} AheadAtFirst(env: Env, a: Value, b: Value, free: bool, n: Maps)
    requires Fit(env, b) && Grown(env, NO_MAPS, n, First(env, b, free, true))
    requires Met(env, b, free, true) !! Met(env, b, free, false)
    ensures Ahead(n, Mapped(env, a, b, free), {}, Met(env, a, free, true), Met(env, b, free, true),
                  Met(env, b, free, false))
  {
    hide Fit, Sound, Met, First, IsVar;
    FitIsPlaced(env, b);
    FirstIsMet(env, b, free, true);
    MetAreVars(env, b, free, false);
  }

  // ------------------------------------------------------------- without maps

  lemma {:induction false} MapFreeKeysMet(env: Env, v: Value, known: set<nat>)
    requires MapFree(v)
    ensures KeysMet(env, v, known)
    decreases v
  {
    if v.Arr? {
      AllMapFreeKeysMet(env, v.items, AllOrdinary(|v.items|), known);
    } else if v.Obj? {
      AllMapFreeKeysMet(env, v.fields, Info(env, v).modes, known);
    }
  }

  lemma {:induction false} AllMapFreeKeysMet(env: Env, xs: seq<Value>, modes: seq<FieldMode>, known: set<nat>)
    requires AllMapFree(xs)
    ensures AllKeysMet(env, xs, modes, known)
    decreases xs
  {
    if xs != [] && modes != [] {
      if modes[0].Ignored? {
        AllMapFreeKeysMet(env, xs[1..], modes[1..], known);
      } else {
        MapFreeKeysMet(env, xs[0], known);
        AllMapFreeKeysMet(env, xs[1..], modes[1..], known + Sure(env, xs[0]));
      }
    }
  }

  lemma {:induction false} LooseIsUnmapped(env: Env, v: Value, free: bool, flag: bool, mapped: set<nat>)
    requires Loose(env, v, mapped) && MapFree(v)
    ensures Met(env, v, free, flag) !! mapped
    decreases v
  {
    if v.Arr? {
      AllLooseIsUnmapped(env, v.items, AllOrdinary(|v.items|), free, flag, mapped);
    } else if v.Obj? {
      AllLooseIsUnmapped(env, v.fields, Info(env, v).modes, free, flag, mapped);
    }
  }

  lemma {:induction false} AllLooseIsUnmapped(env: Env, xs: seq<Value>, modes: seq<FieldMode>, free: bool, flag: bool,
          mapped: set<nat>)
    requires AllLoose(env, xs, modes, mapped) && AllMapFree(xs)
    ensures MetAll(env, xs, modes, free, flag) !! mapped
    decreases xs
  {
    if xs != [] && modes != [] {
      if !modes[0].Ignored? { LooseIsUnmapped(env, xs[0], free || modes[0].Def?, flag, mapped); }
      AllLooseIsUnmapped(env, xs[1..], modes[1..], free, flag, mapped);
    }
  }

  lemma {:induction false} MetIsBelow(env: Env, v: Value, free: bool, flag: bool, x: nat)
    requires Placed(env, v) && MapFree(v) && x in Met(env, v, free, flag)
    ensures Height(env.heap(x)) <= Height(v)
    decreases v
  {
    if v.Arr? {
      AllMetIsBelow(env, v.items, AllOrdinary(|v.items|), free, flag, x);
    } else if v.Obj? && x in MetAll(env, v.fields, Info(env, v).modes, free, flag) {
      AllMetIsBelow(env, v.fields, Info(env, v).modes, free, flag, x);
    }
  }

  lemma {:induction false} AllMetIsBelow(env: Env, xs: seq<Value>, modes: seq<FieldMode>, free: bool, flag: bool,
          x: nat)
    requires AllPlaced(env, xs) && AllMapFree(xs) && x in MetAll(env, xs, modes, free, flag)
    ensures Height(env.heap(x)) <= HeightOfAll(xs)
    decreases xs
  {
    if !modes[0].Ignored? && x in Met(env, xs[0], free || modes[0].Def?, flag) {
      MetIsBelow(env, xs[0], free || modes[0].Def?, flag, x);
    } else {
      AllMetIsBelow(env, xs[1..], modes[1..], free, flag, x);
    }
  }

  /** Without maps a free variable that may be mapped has one place where it is met first, and is surely met there. */
  lemma {:induction false} MetOnce(env: Env, v: Value, free: bool, flag: bool, inline: bool, mapped: set<nat>, x: nat)
    requires Placed(env, v) && MapFree(v) && InFragment(env, v, inline, mapped)
    requires x in mapped && x in Met(env, v, free, flag)
    ensures x in Sure(env, v) && x !in Met(env, v, free, !flag)
    decreases v
  {
    if v.Arr? {
      AllMetOnce(env, v.items, AllOrdinary(|v.items|), free, flag, inline, mapped, x);
    } else if v.Obj? {
      if ComparedByPointer(Info(env, v).kind) {
        LooseIsUnmapped(env, v, free, flag, mapped);
      } else {
        ObjectMetOnce(env, v, free, flag, inline, mapped, x);
      }
    }
  }

  lemma {:induction false} ObjectMetOnce(env: Env, v: Value, free: bool, flag: bool, inline: bool, mapped: set<nat>,
          x: nat)
    requires v.Obj? && !ComparedByPointer(Info(env, v).kind)
    requires Placed(env, v) && MapFree(v) && InFragment(env, v, inline, mapped)
    requires x in mapped && x in Met(env, v, free, flag)
    ensures x in Sure(env, v) && x !in Met(env, v, free, !flag)
    decreases v, -1
  {
    hide MetAll, SureAll, AllInFragment, InFragment, Placed, MapFree;
    ObjectContents(env, v, inline, mapped);
    var modes := Info(env, v).modes;
    if x == v.id {
      forall g | x in MetAll(env, v.fields, modes, free, g) ensures false {
        AllMetIsBelow(env, v.fields, modes, free, g, x);
      }
    } else {
      AllMetOnce(env, v.fields, modes, free, flag, inline, mapped, x);
    }
  }

  lemma ObjectContents(env: Env, v: Value, inline: bool, mapped: set<nat>)
    requires v.Obj? && !ComparedByPointer(Info(env, v).kind)
    requires Placed(env, v) && MapFree(v) && InFragment(env, v, inline, mapped)
    ensures AllPlaced(env, v.fields) && AllMapFree(v.fields) && env.heap(v.id) == v
    ensures AllInFragment(env, v.fields, Info(env, v).modes, inline, mapped)
    ensures Height(v) == 1 + HeightOfAll(v.fields)
  {
  }

  lemma {:induction false} AllMetOnce(env: Env, xs: seq<Value>, modes: seq<FieldMode>, free: bool, flag: bool,
          inline: bool, mapped: set<nat>, x: nat)
    requires AllPlaced(env, xs) && AllMapFree(xs) && AllInFragment(env, xs, modes, inline, mapped)
    requires x in mapped && x in MetAll(env, xs, modes, free, flag)
    ensures x in SureAll(env, xs, modes) && x !in MetAll(env, xs, modes, free, !flag)
    decreases xs
  {
    hide Met, Sure, InFragment;
    if modes[0].Ignored? {
      AllMetOnce(env, xs[1..], modes[1..], free, flag, inline, mapped, x);
    } else {
      var f := free || modes[0].Def?;
      if x in Met(env, xs[0], f, flag) {
        MetOnce(env, xs[0], f, flag, inline, mapped, x);
      } else {
        if x in Met(env, xs[0], f, !flag) { MetOnce(env, xs[0], f, !flag, inline, mapped, x); }
        AllMetOnce(env, xs[1..], modes[1..], free, flag, inline, mapped, x);
      }
    }
  }

  /** On values without maps the law needs nothing about keys and places. */
  lemma {:induction false} EqualImpliesSameHashWithoutMaps(env: Env, a: Value, b: Value, inline: bool,
          mapFreeVars: bool)
    requires Good(env, a, inline, Mapped(env, a, b, mapFreeVars)) && MapFree(a)
    requires Good(env, b, inline, Mapped(env, a, b, mapFreeVars)) && MapFree(b)
    requires Equal(env, a, b, mapFreeVars).True?
    ensures HashOf(env, a, mapFreeVars).Some? && HashOf(env, a, mapFreeVars) == HashOf(env, b, mapFreeVars)
  {
    hide Placed, Shaped, Met, InFragment, Equal, KeysMet;
    MapFreeKeysMet(env, a, {});
    MapFreeKeysMet(env, b, {});
    forall x | x in Met(env, b, mapFreeVars, true) ensures x !in Met(env, b, mapFreeVars, false) {
      MetOnce(env, b, mapFreeVars, true, inline, Mapped(env, a, b, mapFreeVars), x);
    }
    EqualImpliesSameHash(env, a, b, inline, mapFreeVars);
  }
}
