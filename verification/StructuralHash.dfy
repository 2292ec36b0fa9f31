// Structural hashing: the memoised traversal, and why memoising tree nodes
// changes nothing.
module StructuralHash {
  import opened AnyCells
  import opened AssocList
  import opened HashOrder
  import opened StructuralValues

  const COUNTER: nat := 0x1_0000_0000

  /** hash_memo_ by object id, and the two 32-bit counters. */
  datatype Memo = Memo(hash: map<nat, Hash>, freeVars: nat, graphNodes: nat)

  const NO_MEMO := Memo(map[], 0, 0)

  datatype Hashed = Hashed(ok: bool, hash: Hash, memo: Memo)

  function Bump(c: nat): nat { (c + 1) % COUNTER }

  function HashCell(env: Env, c: AnyCell): Hash {
    if c.tindex == FLOAT && IsNan(c.word) then env.combine(Bits(FLOAT), Bits(QUIET_NAN))
    else if c.tindex == SMALL_STR then env.combine(Bits(STR), Bits(SmallHash(c.word)))
    else env.combine(Bits(c.tindex), Bits(c.word))
  }

  /** HashAny. With trees false, only DAG nodes and free variables are remembered. */
  function HashedAny(env: Env, v: Value, free: bool, trees: bool, s: Memo): Hashed
    decreases v, 1
  {
    match v
    case Plain(c) => Hashed(true, HashCell(env, c), s)
    case Text(t, bytes) => Hashed(true, env.combine(Bits(t), Bits(HashFrom(0, bytes))), s)
    case Arr(_, items) =>
      HashedAll(env, env.combine(env.arrayKeyHash, Bits(|items|)), items, AllOrdinary(|items|), free, trees, s)
    case Dict(_, keys, values) =>
      HashedEntries(env, env.combine(env.mapKeyHash, Bits(|keys|)), values, KeyHashes(env, keys, |values|, s.hash),
                    None, free, trees, s)
    case Obj(_, _, _) => HashedObject(env, v, free, trees, s)
  }

  function HashedObject(env: Env, v: Value, free: bool, trees: bool, s: Memo): Hashed
    requires v.Obj?
    decreases v, 0
  {
    var info := Info(env, v);
    if !info.hasMetadata || info.kind.Unsupported? then Hashed(false, 0, s)
    else if v.id in s.hash then Hashed(true, s.hash[v.id], s)
    else
      var r := HashedAll(env, info.keyHash, v.fields, info.modes, free, trees, s);
      if !r.ok then r else Finish(env, v.id, info.kind, r.hash, free, trees, r.memo)
  }

  /** The end of HashObject: lexical order of free variables and graph nodes, then the memo. */
  function Finish(env: Env, id: nat, kind: Kind, h: Hash, free: bool, trees: bool, s: Memo): Hashed {
    if kind.FreeVar? then
      if free then Remember(id, env.combine(h, Bits(s.freeVars)), s.(freeVars := Bump(s.freeVars)))
      else Remember(id, env.pointerHash(id), s)
    else if kind.DAGNode? then Remember(id, env.combine(h, Bits(s.graphNodes)), s.(graphNodes := Bump(s.graphNodes)))
    else if trees then Remember(id, h, s)
    else Hashed(true, h, s)
  }

  function Remember(id: nat, h: Hash, s: Memo): Hashed {
    Hashed(true, h, s.(hash := s.hash[id := h]))
  }

  function HashedAll(env: Env, h: Hash, xs: seq<Value>, modes: seq<FieldMode>, free: bool, trees: bool, s: Memo): Hashed
    decreases xs, 0
  {
    if xs == [] || modes == [] then Hashed(true, h, s)
    else if modes[0].Ignored? then HashedAll(env, h, xs[1..], modes[1..], free, trees, s)
    else
      var r := HashedAny(env, xs[0], free || modes[0].Def?, trees, s);
      if r.ok then HashedAll(env, env.combine(h, r.hash), xs[1..], modes[1..], free, trees, r.memo) else r
  }

  /** FindOrderIndependentHash: an object has none before it is remembered; an array or a map never is. */
  function KeyHash(env: Env, k: Value, memo: map<nat, Hash>): Option<Hash> {
    match k
    case Plain(c) =>
      Some(if c.tindex == SMALL_STR then env.combine(Bits(STR), Bits(HashFrom(0, BytesOf(c.word, c.pad))))
           else env.combine(Bits(c.tindex), Bits(c.word)))
    case Text(t, bytes) => Some(env.combine(Bits(t), Bits(HashFrom(0, bytes))))
    case Obj(id, _, _) => if id in memo then Some(memo[id]) else None
    case _ => None
  }

  function KeyHashes(env: Env, keys: seq<Value>, n: nat, memo: map<nat, Hash>): (hs: seq<Option<Hash>>)
    ensures |hs| == n && forall i :: 0 <= i < n && i < |keys| ==> hs[i] == KeyHash(env, keys[i], memo)
  {
    seq(n, i => if 0 <= i < |keys| then KeyHash(env, keys[i], memo) else None)
  }

  /** HashMap after lo: the entries in the order of their keys' hashes hs. Entries without one are passed over, and of
      entries that share one only the hash is taken. */
  function HashedEntries(env: Env, h: Hash, values: seq<Value>, hs: seq<Option<Hash>>, lo: Option<Hash>, free: bool,
          trees: bool, s: Memo): Hashed
    requires |hs| == |values|
    decreases values, 0, Left(hs, lo)
  {
    var k := Next(hs, lo);
    if k.None? then Hashed(true, h, s)
    else
      NextShrinks(hs, lo);
      if Tied(hs, k.value) then HashedEntries(env, env.combine(h, k.value), values, hs, k, free, trees, s)
      else
        HolderUntied(hs, k.value);
        var r := HashedAny(env, values[Holder(hs, k.value)], free, trees, s);
        if r.ok then
          HashedEntries(env, env.combine(env.combine(h, k.value), r.hash), values, hs, k, free, trees, r.memo)
        else r
  }

  /** StructuralHash::Hash; none when a type that cannot be hashed is met. */
  function HashOf(env: Env, v: Value, mapFreeVars: bool): Option<Hash> {
    var r := HashedAny(env, v, mapFreeVars, true, NO_MEMO);
    if r.ok then Some(r.hash) else None
  }

  /** b lists the entries of a in another order. */
  ghost predicate Reordered(a: Value, b: Value, at: seq<nat>) {
    && a.Dict? && b.Dict? && |at| == |a.keys| == |a.values| == |b.keys| == |b.values|
    && (forall i :: 0 <= i < |at| ==> at[i] < |at| && b.keys[at[i]] == a.keys[i] && b.values[at[i]] == a.values[i])
    && (forall i, j :: 0 <= i < j < |at| ==> at[i] != at[j])
    && forall j :: 0 <= j < |at| ==> j in at
  }

  /** The hash of a map and the memo it leaves do not depend on the order of insertion. */
  lemma {:induction false} InsertionOrderIsIrrelevant(env: Env, a: Value, b: Value, at: seq<nat>, free: bool,
          trees: bool, s: Memo)
    requires Reordered(a, b, at)
    ensures HashedAny(env, a, free, trees, s) == HashedAny(env, b, free, trees, s)
  {
    hide HashedEntries, KeyHash;
    var hs, gs := KeyHashes(env, a.keys, |at|, s.hash), KeyHashes(env, b.keys, |at|, s.hash);
    var h := env.combine(env.mapKeyHash, Bits(|at|));
    EntriesReordered(env, h, a.values, b.values, hs, gs, at, None, free, trees, s);
  }

  lemma {:induction false} EntriesReordered(env: Env, h: Hash, us: seq<Value>, vs: seq<Value>, hs: seq<Option<Hash>>,
          gs: seq<Option<Hash>>, at: seq<nat>, lo: Option<Hash>, free: bool, trees: bool, s: Memo)
    requires |hs| == |us| == |at| && |gs| == |vs| && Shuffled(hs, gs, at)
    requires forall i :: 0 <= i < |at| ==> at[i] < |vs| && vs[at[i]] == us[i]
    ensures HashedEntries(env, h, us, hs, lo, free, trees, s) == HashedEntries(env, h, vs, gs, lo, free, trees, s)
    decreases Left(hs, lo)
  {
    hide HashedAny, Shuffled, Tied, Left;
    ShuffledNext(hs, gs, at, lo);
    var k := Next(hs, lo);
    if k.Some? {
      NextShrinks(hs, lo);
      ShuffledHolder(hs, gs, at, k.value);
      if Tied(hs, k.value) {
        EntriesReordered(env, env.combine(h, k.value), us, vs, hs, gs, at, k, free, trees, s);
      } else {
        var r := HashedAny(env, us[Holder(hs, k.value)], free, trees, s);
        if r.ok {
          var g := env.combine(env.combine(h, k.value), r.hash);
          EntriesReordered(env, g, us, vs, hs, gs, at, k, free, trees, r.memo);
        }
      }
    }
  }

  // -------------------------------------------------- what is surely visited

  /** The graph nodes and free variables that hashing v, and comparing it, surely meets: not those below a constant or
      unique node, which a comparison may skip, nor those in a map two of whose keys share a hash or have none. */
  function Sure(env: Env, v: Value): set<nat>
    decreases v
  {
    match v
    case Plain(_) => {}
    case Text(_, _) => {}
    case Arr(_, items) => SureAll(env, items, AllOrdinary(|items|))
    case Dict(_, keys, values) =>
      if AllUntied(KeyHashes(env, keys, |values|, map[])) then SureAll(env, values, AllOrdinary(|values|)) else {}
    case Obj(id, _, fields) =>
      var info := Info(env, v);
      if info.kind.UniqueInstance? || info.kind.ConstTreeNode? then {}
      else SureAll(env, fields, info.modes) + if Recorded(info.kind) then {id} else {}
  }

  function SureAll(env: Env, xs: seq<Value>, modes: seq<FieldMode>): set<nat>
    decreases xs
  {
    if xs == [] || modes == [] then {}
    else (if modes[0].Ignored? then {} else Sure(env, xs[0])) + SureAll(env, xs[1..], modes[1..])
  }

  predicate AllUntied(hs: seq<Option<Hash>>) { forall i :: 0 <= i < |hs| ==> Untied(hs, i) }

  /** Every object that is the key of a map is a graph node or free variable which has been met before the map. */
  predicate KeysMet(env: Env, v: Value, known: set<nat>)
    decreases v
  {
    match v
    case Plain(_) => true
    case Text(_, _) => true
    case Arr(_, items) => AllKeysMet(env, items, AllOrdinary(|items|), known)
    case Dict(_, keys, values) =>
      && (forall i :: 0 <= i < |keys| ==> KeyMet(env, keys[i], known))
      && (forall i :: 0 <= i < |values| ==> KeysMet(env, values[i], known))
    case Obj(_, _, fields) => AllKeysMet(env, fields, Info(env, v).modes, known)
  }

  predicate AllKeysMet(env: Env, xs: seq<Value>, modes: seq<FieldMode>, known: set<nat>)
    decreases xs
  {
    xs == [] || modes == [] ||
    (if modes[0].Ignored? then AllKeysMet(env, xs[1..], modes[1..], known)
     else KeysMet(env, xs[0], known) && AllKeysMet(env, xs[1..], modes[1..], known + Sure(env, xs[0])))
  }

  predicate KeyMet(env: Env, k: Value, known: set<nat>) {
    k.Obj? ==> Recorded(Info(env, k).kind) && k.id in known
  }

  // ------------------------------------------------ a value already covered

  /** Every DAG node and free variable at which hashing v would stop is in the memo, and so are the keys of maps. */
  predicate Covered(env: Env, v: Value, m: map<nat, Hash>)
    decreases v
  {
    match v
    case Plain(_) => true
    case Text(_, _) => true
    case Arr(_, items) => CoveredAll(env, items, AllOrdinary(|items|), m)
    case Dict(_, keys, values) =>
      && (forall i :: 0 <= i < |keys| ==> KeyMet(env, keys[i], m.Keys))
      && forall i :: 0 <= i < |values| && Untied(KeyHashes(env, keys, |values|, m), i) ==> Covered(env, values[i], m)
    case Obj(id, _, fields) =>
      var info := Info(env, v);
      && info.hasMetadata && !info.kind.Unsupported?
      && (if Recorded(info.kind) then id in m else CoveredAll(env, fields, info.modes, m))
  }

  predicate CoveredAll(env: Env, xs: seq<Value>, modes: seq<FieldMode>, m: map<nat, Hash>)
    decreases xs
  {
    xs == [] || modes == [] ||
    ((modes[0].Ignored? || Covered(env, xs[0], m)) && CoveredAll(env, xs[1..], modes[1..], m))
  }

  /** The hash of a covered value: no counter takes part in it, and no mode. */
  function Frozen(env: Env, v: Value, m: map<nat, Hash>): Hash
    decreases v, 1
  {
    match v
    case Plain(c) => HashCell(env, c)
    case Text(t, bytes) => env.combine(Bits(t), Bits(HashFrom(0, bytes)))
    case Arr(_, items) => FrozenAll(env, env.combine(env.arrayKeyHash, Bits(|items|)), items, AllOrdinary(|items|), m)
    case Dict(_, keys, values) =>
      FrozenEntries(env, env.combine(env.mapKeyHash, Bits(|keys|)), values, KeyHashes(env, keys, |values|, m), None, m)
    case Obj(id, _, fields) =>
      var info := Info(env, v);
      if Recorded(info.kind) then if id in m then m[id] else 0
      else FrozenAll(env, info.keyHash, fields, info.modes, m)
  }

  function FrozenAll(env: Env, h: Hash, xs: seq<Value>, modes: seq<FieldMode>, m: map<nat, Hash>): Hash
    decreases xs, 0
  {
    if xs == [] || modes == [] then h
    else if modes[0].Ignored? then FrozenAll(env, h, xs[1..], modes[1..], m)
    else FrozenAll(env, env.combine(h, Frozen(env, xs[0], m)), xs[1..], modes[1..], m)
  }

  function FrozenEntries(env: Env, h: Hash, values: seq<Value>, hs: seq<Option<Hash>>, lo: Option<Hash>,
          m: map<nat, Hash>): Hash
    requires |hs| == |values|
    decreases values, 0, Left(hs, lo)
  {
    var k := Next(hs, lo);
    if k.None? then h
    else
      NextShrinks(hs, lo);
      if Tied(hs, k.value) then FrozenEntries(env, env.combine(h, k.value), values, hs, k, m)
      else
        HolderUntied(hs, k.value);
        var f := Frozen(env, values[Holder(hs, k.value)], m);
        FrozenEntries(env, env.combine(env.combine(h, k.value), f), values, hs, k, m)
  }

  ghost predicate Sub(m: map<nat, Hash>, n: map<nat, Hash>) {
    forall x :: x in m ==> x in n && n[x] == m[x]
  }

  /** Keys that have been met have the same hashes in a larger memo. */
  lemma KeysStay(env: Env, keys: seq<Value>, count: nat, m: map<nat, Hash>, n: map<nat, Hash>)
    requires Sub(m, n) && forall i :: 0 <= i < |keys| ==> KeyMet(env, keys[i], m.Keys)
    ensures KeyHashes(env, keys, count, n) == KeyHashes(env, keys, count, m)
  {
    forall i | 0 <= i < |keys| ensures KeyHash(env, keys[i], n) == KeyHash(env, keys[i], m) {
      assert KeyMet(env, keys[i], m.Keys);
    }
  }

  /** A larger memo covers as much, with the same hashes. */
  lemma {:induction false} CoveredStays(env: Env, v: Value, m: map<nat, Hash>, n: map<nat, Hash>)
    requires Covered(env, v, m) && Sub(m, n)
    ensures Covered(env, v, n) && Frozen(env, v, n) == Frozen(env, v, m)
    decreases v, 1
  {
    if v.Arr? {
      CoveredAllStays(env, env.combine(env.arrayKeyHash, Bits(|v.items|)), v.items, AllOrdinary(|v.items|), m, n);
    } else if v.Dict? {
      MapCoveredStays(env, v, m, n);
    } else if v.Obj? && !Recorded(Info(env, v).kind) {
      CoveredAllStays(env, Info(env, v).keyHash, v.fields, Info(env, v).modes, m, n);
    }
  }

  lemma {:induction false} MapCoveredStays(env: Env, v: Value, m: map<nat, Hash>, n: map<nat, Hash>)
    requires v.Dict? && Covered(env, v, m) && Sub(m, n)
    ensures Covered(env, v, n) && Frozen(env, v, n) == Frozen(env, v, m)
    decreases v, 0
  {
    hide Sub;
    var hs := KeyHashes(env, v.keys, |v.values|, m);
    KeysStay(env, v.keys, |v.values|, m, n);
    forall i | 0 <= i < |v.values| && Untied(hs, i) ensures Covered(env, v.values[i], n) {
      CoveredStays(env, v.values[i], m, n);
    }
    forall i | 0 <= i < |v.keys| ensures KeyMet(env, v.keys[i], n.Keys) {
      assert KeyMet(env, v.keys[i], m.Keys);
      KeysGrow(m, n);
    }
    EntriesCoveredStay(env, env.combine(env.mapKeyHash, Bits(|v.keys|)), v.values, hs, None, m, n);
  }

  lemma KeysGrow(m: map<nat, Hash>, n: map<nat, Hash>)
    requires Sub(m, n)
    ensures m.Keys <= n.Keys
  {
  }

  lemma {:induction false} EntriesCoveredStay(env: Env, h: Hash, values: seq<Value>, hs: seq<Option<Hash>>,
          lo: Option<Hash>, m: map<nat, Hash>, n: map<nat, Hash>)
    requires |hs| == |values| && Sub(m, n)
    requires forall i :: 0 <= i < |values| && Untied(hs, i) ==> Covered(env, values[i], m)
    ensures FrozenEntries(env, h, values, hs, lo, n) == FrozenEntries(env, h, values, hs, lo, m)
    decreases values, 0, Left(hs, lo)
  {
    hide Sub, Covered, Frozen, Tied, Left;
    var k := Next(hs, lo);
    if k.Some? {
      NextShrinks(hs, lo);
      if Tied(hs, k.value) {
        EntriesCoveredStay(env, env.combine(h, k.value), values, hs, k, m, n);
      } else {
        HolderUntied(hs, k.value);
        var i := Holder(hs, k.value);
        CoveredStays(env, values[i], m, n);
        EntriesCoveredStay(env, env.combine(env.combine(h, k.value), Frozen(env, values[i], m)), values, hs, k, m, n);
      }
    }
  }

  lemma {:induction false} CoveredAllStays(env: Env, h: Hash, xs: seq<Value>, modes: seq<FieldMode>, m: map<nat, Hash>,
          n: map<nat, Hash>)
    requires CoveredAll(env, xs, modes, m) && Sub(m, n)
    ensures CoveredAll(env, xs, modes, n) && FrozenAll(env, h, xs, modes, n) == FrozenAll(env, h, xs, modes, m)
    decreases xs, 0
  {
    if xs != [] && modes != [] {
      if modes[0].Ignored? {
        CoveredAllStays(env, h, xs[1..], modes[1..], m, n);
      } else {
        CoveredStays(env, xs[0], m, n);
        CoveredAllStays(env, env.combine(h, Frozen(env, xs[0], m)), xs[1..], modes[1..], m, n);
      }
    }
  }

  /** A memo without tree nodes. */
  ghost predicate OnlyRecorded(env: Env, m: map<nat, Hash>) {
    forall x :: x in m ==> env.heap(x).Obj? && Recorded(Info(env, env.heap(x)).kind)
  }

  /** Hashing a covered value again yields its frozen hash, in any mode, and changes nothing. */
  lemma {:induction false} AgainAny(env: Env, v: Value, free: bool, s: Memo)
    requires Placed(env, v) && OnlyRecorded(env, s.hash) && Covered(env, v, s.hash)
    ensures HashedAny(env, v, free, false, s) == Hashed(true, Frozen(env, v, s.hash), s)
    decreases v, 1
  {
    if v.Arr? {
      AgainAll(env, env.combine(env.arrayKeyHash, Bits(|v.items|)), v.items, AllOrdinary(|v.items|), free, s);
    } else if v.Dict? {
      AgainEntries(env, env.combine(env.mapKeyHash, Bits(|v.keys|)), v.values,
                   KeyHashes(env, v.keys, |v.values|, s.hash), None, free, s);
    } else if v.Obj? && !Recorded(Info(env, v).kind) {
      AgainAll(env, Info(env, v).keyHash, v.fields, Info(env, v).modes, free, s);
    }
  }

  lemma {:induction false} AgainAll(env: Env, h: Hash, xs: seq<Value>, modes: seq<FieldMode>, free: bool, s: Memo)
    requires AllPlaced(env, xs) && OnlyRecorded(env, s.hash) && CoveredAll(env, xs, modes, s.hash)
    ensures HashedAll(env, h, xs, modes, free, false, s) == Hashed(true, FrozenAll(env, h, xs, modes, s.hash), s)
    decreases xs, 0
  {
    if xs != [] && modes != [] {
      if modes[0].Ignored? {
        AgainAll(env, h, xs[1..], modes[1..], free, s);
      } else {
        AgainAny(env, xs[0], free || modes[0].Def?, s);
        AgainAll(env, env.combine(h, Frozen(env, xs[0], s.hash)), xs[1..], modes[1..], free, s);
      }
    }
  }

  lemma {:induction false} AgainEntries(env: Env, h: Hash, values: seq<Value>, hs: seq<Option<Hash>>, lo: Option<Hash>,
          free: bool, s: Memo)
    requires |hs| == |values| && AllPlaced(env, values) && OnlyRecorded(env, s.hash)
    requires forall i :: 0 <= i < |values| && Untied(hs, i) ==> Covered(env, values[i], s.hash)
    ensures HashedEntries(env, h, values, hs, lo, free, false, s)
         == Hashed(true, FrozenEntries(env, h, values, hs, lo, s.hash), s)
    decreases values, 0, Left(hs, lo)
  {
    hide OnlyRecorded, Covered, Frozen, HashedAny, Tied, Left;
    var k := Next(hs, lo);
    if k.Some? {
      NextShrinks(hs, lo);
      if Tied(hs, k.value) {
        AgainEntries(env, env.combine(h, k.value), values, hs, k, free, s);
      } else {
        HolderUntied(hs, k.value);
        var i := Holder(hs, k.value);
        AgainAny(env, values[i], free, s);
        AgainEntries(env, env.combine(env.combine(h, k.value), Frozen(env, values[i], s.hash)), values, hs, k, free, s);
      }
    }
  }

  // ----------------------------------------------- hashing covers the value

  /** What an object in the memo surely meets is in the memo too. */
  ghost predicate Complete(env: Env, m: map<nat, Hash>) {
    forall x :: x in m && env.heap(x).Obj? ==> SureAll(env, env.heap(x).fields, Info(env, env.heap(x)).modes) <= m.Keys
  }

  lemma {:induction false} SureIsCovered(env: Env, v: Value, m: map<nat, Hash>)
    requires Covered(env, v, m) && Placed(env, v) && Complete(env, m)
    ensures Sure(env, v) <= m.Keys
    decreases v
  {
    hide Complete;
    if v.Arr? {
      AllSureIsCovered(env, v.items, AllOrdinary(|v.items|), m);
    } else if v.Dict? {
      MapSureIsCovered(env, v, m);
    } else if v.Obj? {
      if Recorded(Info(env, v).kind) {
        RecordedIsComplete(env, v, m);
      } else {
        AllSureIsCovered(env, v.fields, Info(env, v).modes, m);
      }
    }
  }

  lemma RecordedIsComplete(env: Env, v: Value, m: map<nat, Hash>)
    requires v.Obj? && Placed(env, v) && Complete(env, m) && v.id in m
    ensures SureAll(env, v.fields, Info(env, v).modes) <= m.Keys
  {
    assert env.heap(v.id) == v;
  }

  lemma {:induction false} AllSureIsCovered(env: Env, xs: seq<Value>, modes: seq<FieldMode>, m: map<nat, Hash>)
    requires CoveredAll(env, xs, modes, m) && AllPlaced(env, xs) && Complete(env, m)
    ensures SureAll(env, xs, modes) <= m.Keys
    decreases xs
  {
    hide Complete;
    if xs != [] && modes != [] {
      if !modes[0].Ignored? { SureIsCovered(env, xs[0], m); }
      AllSureIsCovered(env, xs[1..], modes[1..], m);
    }
  }

  lemma {:induction false} MapSureIsCovered(env: Env, v: Value, m: map<nat, Hash>)
    requires v.Dict? && Covered(env, v, m) && Placed(env, v) && Complete(env, m)
    ensures Sure(env, v) <= m.Keys
    decreases v, -1
  {
    hide Complete;
    if AllUntied(KeyHashes(env, v.keys, |v.values|, map[])) {
      StaticHashes(env, v.keys, |v.values|, m);
      forall i | 0 <= i < |v.values| ensures Sure(env, v.values[i]) <= m.Keys {
        assert Untied(KeyHashes(env, v.keys, |v.values|, m), i);
        SureIsCovered(env, v.values[i], m);
      }
      SureOfEach(env, v.values, AllOrdinary(|v.values|), m.Keys);
    }
  }

  lemma {:induction false} SureOfEach(env: Env, xs: seq<Value>, modes: seq<FieldMode>, s: set<nat>)
    requires forall i :: 0 <= i < |xs| ==> Sure(env, xs[i]) <= s
    ensures SureAll(env, xs, modes) <= s
    decreases xs
  {
    if xs != [] && modes != [] {
      SureOfEach(env, xs[1..], modes[1..], s);
    }
  }

  /** Keys that all have a hash without a memo have the same with one. */
  lemma StaticHashes(env: Env, keys: seq<Value>, n: nat, m: map<nat, Hash>)
    requires AllUntied(KeyHashes(env, keys, n, map[]))
    ensures KeyHashes(env, keys, n, m) == KeyHashes(env, keys, n, map[])
  {
    var hs := KeyHashes(env, keys, n, map[]);
    forall i | 0 <= i < n ensures i < |keys| && KeyHash(env, keys[i], m) == KeyHash(env, keys[i], map[]) {
      assert Untied(hs, i);
    }
  }

  /** What a traversal without tree nodes adds to the memo: objects at most hi high, with all they surely meet. */
  ghost predicate Added(env: Env, m: map<nat, Hash>, n: map<nat, Hash>, hi: nat) {
    && Sub(m, n) && OnlyRecorded(env, n) && Complete(env, n)
    && forall x :: x in n ==> x in m || Height(env.heap(x)) <= hi
  }

  /** A memo to start from, in which what is known has been met. */
  ghost predicate Ready(env: Env, m: map<nat, Hash>, known: set<nat>) {
    OnlyRecorded(env, m) && Complete(env, m) && known <= m.Keys
  }

  lemma {:induction false} CoversAny(env: Env, v: Value, free: bool, s: Memo, known: set<nat>)
    requires Placed(env, v) && Ready(env, s.hash, known) && KeysMet(env, v, known)
    ensures var r := HashedAny(env, v, free, false, s);
            r.ok ==> Added(env, s.hash, r.memo.hash, Height(v)) && Covered(env, v, r.memo.hash) &&
                     r.hash == Frozen(env, v, r.memo.hash)
    decreases v, 1
  {
    hide Ready, Added;
    AddedSelf(env, s.hash, Height(v), known);
    if v.Arr? {
      CoversAll(env, env.combine(env.arrayKeyHash, Bits(|v.items|)), v.items, AllOrdinary(|v.items|), free, s, known);
      AddedHigher(env, s.hash, HashedAny(env, v, free, false, s).memo.hash, HeightOfAll(v.items), Height(v));
    } else if v.Dict? {
      CoversMap(env, v, free, s, known);
    } else if v.Obj? {
      CoversObject(env, v, free, s, known);
    }
  }

  lemma {:induction false} CoversObject(env: Env, v: Value, free: bool, s: Memo, known: set<nat>)
    requires v.Obj? && Placed(env, v) && Ready(env, s.hash, known) && KeysMet(env, v, known)
    ensures var r := HashedObject(env, v, free, false, s);
            r.ok ==> Added(env, s.hash, r.memo.hash, Height(v)) && Covered(env, v, r.memo.hash) &&
                     r.hash == Frozen(env, v, r.memo.hash)
    decreases v, 0
  {
    hide HashedAll, CoveredAll, FrozenAll, Sub, Added, Ready, AllKeysMet;
    var info := Info(env, v);
    AddedSelf(env, s.hash, Height(v), known);
    CoversAll(env, info.keyHash, v.fields, info.modes, free, s, known);
    var r := HashedAll(env, info.keyHash, v.fields, info.modes, free, false, s);
    if r.ok {
      AddedOnly(env, s.hash, r.memo.hash, HeightOfAll(v.fields));
      AllSureIsCovered(env, v.fields, info.modes, r.memo.hash);
      AddedAbove(env, v, s.hash, r.memo.hash, Finish(env, v.id, info.kind, r.hash, free, false, r.memo).hash);
    }
  }

  lemma {:induction false} CoversMap(env: Env, v: Value, free: bool, s: Memo, known: set<nat>)
    requires v.Dict? && Placed(env, v) && Ready(env, s.hash, known) && KeysMet(env, v, known)
    ensures var r := HashedAny(env, v, free, false, s);
            r.ok ==> Added(env, s.hash, r.memo.hash, Height(v)) && Covered(env, v, r.memo.hash) &&
                     r.hash == Frozen(env, v, r.memo.hash)
    decreases v, 0
  {
    hide HashedEntries, FrozenEntries, Added, Sub, Tied, Ready;
    AddedSelf(env, s.hash, 0, known);
    var hs := KeyHashes(env, v.keys, |v.values|, s.hash);
    var h := env.combine(env.mapKeyHash, Bits(|v.keys|));
    CoversEntries(env, h, v.values, hs, None, free, s, known);
    var r := HashedEntries(env, h, v.values, hs, None, free, false, s);
    if r.ok {
      AddedOnly(env, s.hash, r.memo.hash, HeightOfAll(v.values));
      KeysGrow(s.hash, r.memo.hash);
      forall i | 0 <= i < |v.keys|
        ensures KeyMet(env, v.keys[i], s.hash.Keys) && KeyMet(env, v.keys[i], r.memo.hash.Keys)
      {
        assert KeyMet(env, v.keys[i], known);
      }
      KeysStay(env, v.keys, |v.values|, s.hash, r.memo.hash);
      AddedHigher(env, s.hash, r.memo.hash, HeightOfAll(v.values), Height(v));
    }
  }

  /** The entries after lo whose values are hashed. */
  ghost predicate EntriesCovered(env: Env, values: seq<Value>, hs: seq<Option<Hash>>, lo: Option<Hash>,
          m: map<nat, Hash>)
  {
    |hs| == |values| &&
    forall i :: 0 <= i < |values| && Untied(hs, i) && Beyond(hs[i], lo) ==> Covered(env, values[i], m)
  }

  /** They are the next one, unless it is a tie, and those after it. */
  lemma NextCovered(env: Env, values: seq<Value>, hs: seq<Option<Hash>>, lo: Option<Hash>, m: map<nat, Hash>)
    requires |hs| == |values|
    requires var k := Next(hs, lo);
             k.Some? ==>
               && EntriesCovered(env, values, hs, k, m)
               && (Tied(hs, k.value) ||
                   (Holder(hs, k.value) < |values| && Covered(env, values[Holder(hs, k.value)], m)))
    ensures EntriesCovered(env, values, hs, lo, m)
  {
    hide Covered, Tied, Beyond;
    forall i | 0 <= i < |values| && Untied(hs, i) && Beyond(hs[i], lo) ensures Covered(env, values[i], m) {
      NextOrBeyond(hs, lo, i);
      HolderOnly(hs, i);
    }
  }

  lemma {:induction false} CoversEntries(env: Env, h: Hash, values: seq<Value>, hs: seq<Option<Hash>>, lo: Option<Hash>,
          free: bool, s: Memo, known: set<nat>)
    requires |hs| == |values| && AllPlaced(env, values) && Ready(env, s.hash, known)
    requires forall i :: 0 <= i < |values| ==> KeysMet(env, values[i], known)
    ensures var r := HashedEntries(env, h, values, hs, lo, free, false, s);
            r.ok ==>
              && Added(env, s.hash, r.memo.hash, HeightOfAll(values))
              && r.hash == FrozenEntries(env, h, values, hs, lo, r.memo.hash)
              && EntriesCovered(env, values, hs, lo, r.memo.hash)
    decreases values, 0, Left(hs, lo)
  {
    hide Ready, Added, Sub, Covered, Frozen, HashedAny, KeysMet, Tied, Left, Beyond, EntriesCovered;
    AddedSelf(env, s.hash, HeightOfAll(values), known);
    var k := Next(hs, lo);
    if k.None? {
      NextCovered(env, values, hs, lo, s.hash);
    } else {
      NextShrinks(hs, lo);
      if Tied(hs, k.value) {
        CoversEntries(env, env.combine(h, k.value), values, hs, k, free, s, known);
        var r := HashedEntries(env, h, values, hs, lo, free, false, s);
        if r.ok { NextCovered(env, values, hs, lo, r.memo.hash); }
      } else {
        HolderUntied(hs, k.value);
        var i := Holder(hs, k.value);
        CoversAny(env, values[i], free, s, known);
        var r := HashedAny(env, values[i], free, false, s);
        if r.ok {
          StillReady(env, s.hash, r.memo.hash, known, Height(values[i]));
          CoversEntries(env, env.combine(env.combine(h, k.value), r.hash), values, hs, k, free, r.memo, known);
          OneMoreCovered(env, env.combine(env.combine(h, k.value), r.hash), values, hs, lo, free, s, r.memo);
        }
      }
    }
  }

  lemma {:induction false} OneMoreCovered(env: Env, h: Hash, values: seq<Value>, hs: seq<Option<Hash>>,
          lo: Option<Hash>, free: bool, s: Memo, t: Memo)
    requires |hs| == |values| && Next(hs, lo).Some? && !Tied(hs, Next(hs, lo).value)
    requires var i := Holder(hs, Next(hs, lo).value);
             i < |values| && Covered(env, values[i], t.hash) && Added(env, s.hash, t.hash, Height(values[i]))
    requires var q := HashedEntries(env, h, values, hs, Next(hs, lo), free, false, t);
             q.ok ==>
               && Added(env, t.hash, q.memo.hash, HeightOfAll(values))
               && EntriesCovered(env, values, hs, Next(hs, lo), q.memo.hash)
    ensures var i := Holder(hs, Next(hs, lo).value);
            var q := HashedEntries(env, h, values, hs, Next(hs, lo), free, false, t);
            q.ok ==>
              && Added(env, s.hash, q.memo.hash, HeightOfAll(values))
              && EntriesCovered(env, values, hs, lo, q.memo.hash)
              && Frozen(env, values[i], q.memo.hash) == Frozen(env, values[i], t.hash)
  {
    hide Added, Sub, Covered, Frozen, HashedEntries, Tied, Left, Beyond, EntriesCovered;
    var i := Holder(hs, Next(hs, lo).value);
    var q := HashedEntries(env, h, values, hs, Next(hs, lo), free, false, t);
    if q.ok {
      HeightOfOne(values, i);
      AddedTwice(env, s.hash, t.hash, q.memo.hash, Height(values[i]), HeightOfAll(values));
      CoveredStays(env, values[i], t.hash, q.memo.hash);
      NextCovered(env, values, hs, lo, q.memo.hash);
    }
  }

  lemma StillReady(env: Env, m: map<nat, Hash>, n: map<nat, Hash>, known: set<nat>, hi: nat)
    requires Ready(env, m, known) && Added(env, m, n, hi)
    ensures Ready(env, n, known)
  {
  }

  lemma AddedSelf(env: Env, m: map<nat, Hash>, hi: nat, known: set<nat>)
    requires Ready(env, m, known)
    ensures Added(env, m, m, hi) && OnlyRecorded(env, m) && known <= m.Keys
  {
  }

  lemma {:induction false} AddedAbove(env: Env, v: Value, m: map<nat, Hash>, n: map<nat, Hash>, h: Hash)
    requires v.Obj? && Placed(env, v) && Added(env, m, n, HeightOfAll(v.fields))
    requires SureAll(env, v.fields, Info(env, v).modes) <= n.Keys
    ensures Added(env, m, n, Height(v))
    ensures v.id !in m ==> v.id !in n
    ensures v.id !in m && Recorded(Info(env, v).kind) ==> Added(env, m, n[v.id := h], Height(v))
  {
    assert Height(v) == 1 + HeightOfAll(v.fields);
  }

  lemma AddedTwice(env: Env, m: map<nat, Hash>, n: map<nat, Hash>, o: map<nat, Hash>, hi: nat, hj: nat)
    requires Added(env, m, n, hi) && Added(env, n, o, hj)
    ensures Added(env, m, o, Max(hi, hj)) && Sub(n, o)
  {
    hide Complete;
  }

  lemma {:induction false} CoversAll(env: Env, h: Hash, xs: seq<Value>, modes: seq<FieldMode>, free: bool, s: Memo,
          known: set<nat>)
    requires AllPlaced(env, xs) && Ready(env, s.hash, known) && AllKeysMet(env, xs, modes, known)
    ensures var r := HashedAll(env, h, xs, modes, free, false, s);
            r.ok ==> Added(env, s.hash, r.memo.hash, HeightOfAll(xs)) && CoveredAll(env, xs, modes, r.memo.hash) &&
                     r.hash == FrozenAll(env, h, xs, modes, r.memo.hash)
    decreases xs, 0
  {
    hide Sub, Added, Ready, Covered, Frozen, HashedAny, KeysMet, Sure;
    AddedSelf(env, s.hash, HeightOfAll(xs), known);
    if xs != [] && modes != [] {
      if modes[0].Ignored? {
        CoversAll(env, h, xs[1..], modes[1..], free, s, known);
        AddedHigher(env, s.hash, HashedAll(env, h, xs, modes, free, false, s).memo.hash, HeightOfAll(xs[1..]),
            HeightOfAll(xs));
      } else {
        CoversAny(env, xs[0], free || modes[0].Def?, s, known);
        var r := HashedAny(env, xs[0], free || modes[0].Def?, false, s);
        if r.ok {
          MetNext(env, xs[0], s.hash, r.memo.hash, known);
          CoversAll(env, env.combine(h, r.hash), xs[1..], modes[1..], free, r.memo, known + Sure(env, xs[0]));
          var q := HashedAll(env, env.combine(h, r.hash), xs[1..], modes[1..], free, false, r.memo);
          if q.ok {
            AddedTwice(env, s.hash, r.memo.hash, q.memo.hash, Height(xs[0]), HeightOfAll(xs[1..]));
            CoveredStays(env, xs[0], r.memo.hash, q.memo.hash);
          }
        }
      }
    }
  }

  /** After a value has been hashed, what it surely meets is known. */
  lemma {:induction false} MetNext(env: Env, v: Value, m: map<nat, Hash>, n: map<nat, Hash>, known: set<nat>)
    requires Ready(env, m, known) && Placed(env, v) && Added(env, m, n, Height(v)) && Covered(env, v, n)
    ensures Ready(env, n, known + Sure(env, v))
  {
    hide Covered, Sure, Complete;
    SureIsCovered(env, v, n);
  }

  lemma AddedOnly(env: Env, m: map<nat, Hash>, n: map<nat, Hash>, hi: nat)
    requires Added(env, m, n, hi)
    ensures OnlyRecorded(env, n) && Complete(env, n) && Sub(m, n)
  {
  }

  lemma {:induction false} AddedHigher(env: Env, m: map<nat, Hash>, n: map<nat, Hash>, hi: nat, hj: nat)
    ensures Added(env, m, n, hi) && hi <= hj ==> Added(env, m, n, hj)
  {
    hide Complete;
  }

  // ---------------------------------------------- remembering tree nodes too

  /** s is the memo of the code, t the one without tree nodes. */
  ghost predicate Linked(env: Env, s: Memo, t: Memo) {
    && s.freeVars == t.freeVars && s.graphNodes == t.graphNodes
    && Sub(t.hash, s.hash) && OnlyRecorded(env, t.hash) && Complete(env, t.hash)
    && forall x :: x in s.hash && x !in t.hash ==>
         var v := env.heap(x);
         v.Obj? && !Recorded(Info(env, v).kind) && Covered(env, v, t.hash) && s.hash[x] == Frozen(env, v, t.hash)
  }

  /** Same hash or same error, and still linked. */
  ghost predicate Agree(env: Env, r: Hashed, q: Hashed) {
    r.ok == q.ok && (r.ok ==> r.hash == q.hash && Linked(env, r.memo, q.memo))
  }

  lemma LinkedReady(env: Env, s: Memo, t: Memo, known: set<nat>)
    requires Linked(env, s, t) && known <= t.hash.Keys
    ensures Ready(env, t.hash, known)
  {
    hide Complete, Covered, Frozen;
  }

  lemma {:induction false} TreesAny(env: Env, v: Value, free: bool, s: Memo, t: Memo, known: set<nat>)
    requires Placed(env, v) && Linked(env, s, t) && KeysMet(env, v, known) && known <= t.hash.Keys
    ensures Agree(env, HashedAny(env, v, free, true, s), HashedAny(env, v, free, false, t))
    decreases v, 1
  {
    hide Linked;
    if v.Arr? {
      TreesAll(env, env.combine(env.arrayKeyHash, Bits(|v.items|)), v.items, AllOrdinary(|v.items|), free, s, t, known);
    } else if v.Dict? {
      SameKeyHashes(env, v, s, t, known);
      TreesEntries(env, env.combine(env.mapKeyHash, Bits(|v.keys|)), v.values,
                   KeyHashes(env, v.keys, |v.values|, s.hash), None, free, s, t, known);
    } else if v.Obj? {
      TreesObject(env, v, free, s, t, known);
    }
  }

  lemma SameKeyHashes(env: Env, v: Value, s: Memo, t: Memo, known: set<nat>)
    requires v.Dict? && Linked(env, s, t) && KeysMet(env, v, known) && known <= t.hash.Keys
    ensures KeyHashes(env, v.keys, |v.values|, s.hash) == KeyHashes(env, v.keys, |v.values|, t.hash)
  {
    hide Complete, Covered, Frozen;
    forall i | 0 <= i < |v.keys| ensures KeyMet(env, v.keys[i], t.hash.Keys) {
      assert KeyMet(env, v.keys[i], known);
    }
    KeysStay(env, v.keys, |v.values|, t.hash, s.hash);
  }

  lemma {:induction false} TreesObject(env: Env, v: Value, free: bool, s: Memo, t: Memo, known: set<nat>)
    requires v.Obj? && Placed(env, v) && Linked(env, s, t) && KeysMet(env, v, known) && known <= t.hash.Keys
    ensures Agree(env, HashedObject(env, v, free, true, s), HashedObject(env, v, free, false, t))
    decreases v, 0
  {
    hide HashedAll, CoveredAll, FrozenAll, Sub, OnlyRecorded, Complete, Linked, AllKeysMet, Ready;
    var info := Info(env, v);
    if v.id in s.hash {
      RememberedTree(env, v, free, s, t);
    } else {
      assert v.id !in t.hash by { NotRemembered(env, v.id, s, t); }
      TreesAll(env, info.keyHash, v.fields, info.modes, free, s, t, known);
      var r := HashedAll(env, info.keyHash, v.fields, info.modes, free, true, s);
      var q := HashedAll(env, info.keyHash, v.fields, info.modes, free, false, t);
      if r.ok && info.hasMetadata && !info.kind.Unsupported? {
        LinkedReady(env, s, t, known);
        CoversObject(env, v, free, t, known);
        CoversAll(env, info.keyHash, v.fields, info.modes, free, t, known);
        AddedOnly(env, t.hash, q.memo.hash, HeightOfAll(v.fields));
        AllSureIsCovered(env, v.fields, info.modes, q.memo.hash);
        AddedAbove(env, v, t.hash, q.memo.hash, 0);
        FinishLinked(env, v, r.hash, free, r.memo, q.memo);
      }
    }
  }

  lemma {:induction false} NotRemembered(env: Env, x: nat, s: Memo, t: Memo)
    requires Linked(env, s, t) && x !in s.hash
    ensures x !in t.hash
  {
    hide Complete, Covered, Frozen;
  }

  /** A remembered object is hashed alike by both: a graph node is in both memos, a tree node is covered. */
  lemma {:induction false} RememberedTree(env: Env, v: Value, free: bool, s: Memo, t: Memo)
    requires v.Obj? && Placed(env, v) && Linked(env, s, t) && v.id in s.hash
    ensures Agree(env, HashedObject(env, v, free, true, s), HashedObject(env, v, free, false, t))
  {
    hide CoveredAll, FrozenAll, HashedAll, Complete;
    if v.id !in t.hash {
      AgainAny(env, v, free, t);
    }
  }

  lemma {:induction false} LinkRecorded(env: Env, x: nat, h: Hash, s: Memo, t: Memo)
    requires Linked(env, s, t) && x !in t.hash && env.heap(x).Obj? && Recorded(Info(env, env.heap(x)).kind)
    requires SureAll(env, env.heap(x).fields, Info(env, env.heap(x)).modes) <= t.hash.Keys
    ensures Linked(env, s.(hash := s.hash[x := h]), t.(hash := t.hash[x := h]))
  {
    hide Covered, Frozen, SureAll;
    var n := t.hash[x := h];
    forall y | y in s.hash && y !in n
      ensures Covered(env, env.heap(y), n) && s.hash[y] == Frozen(env, env.heap(y), n)
    {
      CoveredStays(env, env.heap(y), t.hash, n);
    }
  }

  lemma {:induction false} LinkTree(env: Env, v: Value, h: Hash, s: Memo, t: Memo)
    requires Linked(env, s, t) && v.Obj? && Placed(env, v) && !Recorded(Info(env, v).kind)
    requires Covered(env, v, t.hash) && h == Frozen(env, v, t.hash)
    ensures Linked(env, s.(hash := s.hash[v.id := h]), t)
  {
    hide Covered, Frozen, Complete;
  }

  lemma {:induction false} FinishLinked(env: Env, v: Value, h: Hash, free: bool, s: Memo, t: Memo)
    requires v.Obj? && Placed(env, v) && Linked(env, s, t) && v.id !in t.hash
    requires SureAll(env, v.fields, Info(env, v).modes) <= t.hash.Keys
    requires var q := Finish(env, v.id, Info(env, v).kind, h, free, false, t);
             Covered(env, v, q.memo.hash) && q.hash == Frozen(env, v, q.memo.hash)
    ensures Agree(env, Finish(env, v.id, Info(env, v).kind, h, free, true, s),
                  Finish(env, v.id, Info(env, v).kind, h, free, false, t))
  {
    hide Covered, Frozen, SureAll, Complete;
    var q := Finish(env, v.id, Info(env, v).kind, h, free, false, t);
    assert env.heap(v.id) == v;
    if Recorded(Info(env, v).kind) {
      LinkRecorded(env, v.id, q.hash, s, t);
    } else {
      LinkTree(env, v, q.hash, s, t);
    }
  }

  lemma {:induction false} TreesAll(env: Env, h: Hash, xs: seq<Value>, modes: seq<FieldMode>, free: bool, s: Memo,
          t: Memo, known: set<nat>)
    requires AllPlaced(env, xs) && Linked(env, s, t) && AllKeysMet(env, xs, modes, known) && known <= t.hash.Keys
    ensures Agree(env, HashedAll(env, h, xs, modes, free, true, s), HashedAll(env, h, xs, modes, free, false, t))
    decreases xs, 0
  {
    hide Linked, HashedAny, KeysMet, Sure, Covered, Frozen, Complete, OnlyRecorded, Sub;
    if xs != [] && modes != [] {
      if modes[0].Ignored? {
        TreesAll(env, h, xs[1..], modes[1..], free, s, t, known);
      } else {
        TreesAny(env, xs[0], free || modes[0].Def?, s, t, known);
        var r := HashedAny(env, xs[0], free || modes[0].Def?, true, s);
        var q := HashedAny(env, xs[0], free || modes[0].Def?, false, t);
        if r.ok {
          LinkedReady(env, s, t, known);
          CoversAny(env, xs[0], free || modes[0].Def?, t, known);
          MetNext(env, xs[0], t.hash, q.memo.hash, known);
          TreesAll(env, env.combine(h, r.hash), xs[1..], modes[1..], free, r.memo, q.memo, known + Sure(env, xs[0]));
        }
      }
    }
  }

  lemma {:induction false} TreesEntries(env: Env, h: Hash, values: seq<Value>, hs: seq<Option<Hash>>, lo: Option<Hash>,
          free: bool, s: Memo, t: Memo, known: set<nat>)
    requires |hs| == |values| && AllPlaced(env, values) && Linked(env, s, t) && known <= t.hash.Keys
    requires forall i :: 0 <= i < |values| ==> KeysMet(env, values[i], known)
    ensures Agree(env, HashedEntries(env, h, values, hs, lo, free, true, s),
                  HashedEntries(env, h, values, hs, lo, free, false, t))
    decreases values, 0, Left(hs, lo)
  {
    hide Linked, HashedAny, KeysMet, Covered, Frozen, Complete, OnlyRecorded, Sub, Tied, Left;
    var k := Next(hs, lo);
    if k.Some? {
      NextShrinks(hs, lo);
      if Tied(hs, k.value) {
        TreesEntries(env, env.combine(h, k.value), values, hs, k, free, s, t, known);
      } else {
        HolderUntied(hs, k.value);
        var i := Holder(hs, k.value);
        TreesAny(env, values[i], free, s, t, known);
        var r := HashedAny(env, values[i], free, true, s);
        var q := HashedAny(env, values[i], free, false, t);
        if r.ok {
          LinkedReady(env, s, t, known);
          CoversAny(env, values[i], free, t, known);
          StillReady(env, t.hash, q.memo.hash, known, Height(values[i]));
          TreesEntries(env, env.combine(env.combine(h, k.value), r.hash), values, hs, k, free, r.memo, q.memo, known);
        }
      }
    }
  }

  /** Remembering the hashes of tree nodes changes no hash: the memo only has to hold graph nodes and free variables. */
  lemma {:induction false} TreeMemoIsIrrelevant(env: Env, v: Value, mapFreeVars: bool)
    requires Placed(env, v) && KeysMet(env, v, {})
    ensures var r := HashedAny(env, v, mapFreeVars, true, NO_MEMO);
            var q := HashedAny(env, v, mapFreeVars, false, NO_MEMO);
            r.ok == q.ok && (r.ok ==> r.hash == q.hash)
  {
    TreesAny(env, v, mapFreeVars, NO_MEMO, NO_MEMO, {});
  }

  // -------------------------------------------------------------- the handler

  /** StructuralHashHandler; none stands for a thrown error, which ends the traversal. */
  class StructuralHashHandler {
    const env: Env
    var mapFreeVars: bool
    var freeVarCounter: nat
    var graphNodeCounter: nat
    var hashMemo: map<nat, Hash>

    constructor (env: Env, mapFreeVars: bool)
      ensures this.env == env && this.mapFreeVars == mapFreeVars && State() == NO_MEMO
    {
      this.env, this.mapFreeVars := env, mapFreeVars;
      hashMemo, freeVarCounter, graphNodeCounter := map[], 0, 0;
    }

    function State(): Memo
      reads this
    {
      Memo(hashMemo, freeVarCounter, graphNodeCounter)
    }

    method HashAny(v: Value) returns (hash: Option<Hash>)
      requires Shaped(env, v)
      modifies this
      ensures Returned(hash, HashedAny(env, v, old(mapFreeVars), true, old(State())))
      ensures hash.Some? ==> mapFreeVars == old(mapFreeVars)
      decreases v, 1
    {
      match v {
        case Plain(c) => hash := Some(HashCell(env, c));
        case Text(t, bytes) =>
          var h := StableHashBytes(bytes);
          hash := Some(env.combine(Bits(t), Bits(h)));
        case Arr(_, _) => hash := HashArray(v);
        case Dict(_, _, _) => hash := HashMap(v);
        case Obj(_, _, _) => hash := HashObject(v);
      }
    }

    /** The method's result is the function's, and so is the state it leaves. */
    predicate Returned(hash: Option<Hash>, r: Hashed)
      reads this
    {
      hash == (if r.ok then Some(r.hash) else None) && (r.ok ==> State() == r.memo)
    }

    method HashObject(v: Value) returns (hash: Option<Hash>)
      requires v.Obj? && Shaped(env, v)
      modifies this
      ensures Returned(hash, HashedObject(env, v, old(mapFreeVars), true, old(State())))
      ensures hash.Some? ==> mapFreeVars == old(mapFreeVars)
      decreases v, 0
    {
      var info := env.types(v.tindex);
      if !info.hasMetadata || info.kind.Unsupported? { return None; }
      if v.id in hashMemo { return Some(hashMemo[v.id]); }
      var content := HashFields(v, info.keyHash, info.modes);
      if content.None? { return None; }
      var value := content.value;
      if info.kind.FreeVar? {
        if mapFreeVars {
          value := env.combine(value, Bits(freeVarCounter));
          freeVarCounter := Bump(freeVarCounter);
        } else {
          value := env.pointerHash(v.id);
        }
      }
      if info.kind.DAGNode? {
        value := env.combine(value, Bits(graphNodeCounter));
        graphNodeCounter := Bump(graphNodeCounter);
      }
      hashMemo := hashMemo[v.id := value];
      return Some(value);
    }

    /** Every field that is not ignored, folded into the hash of the type key. */
    method HashFields(v: Value, keyHash: Hash, modes: seq<FieldMode>) returns (hash: Option<Hash>)
      requires v.Obj? && Shaped(env, v) && |modes| == |v.fields|
      modifies this
      ensures Returned(hash, HashedAll(env, keyHash, v.fields, modes, old(mapFreeVars), true, old(State())))
      ensures hash.Some? ==> mapFreeVars == old(mapFreeVars)
      decreases v.fields, 2
    {
      ghost var s, free := State(), mapFreeVars;
      var value := keyHash;
      var i := 0;
      while i < |modes|
        invariant 0 <= i <= |modes| && mapFreeVars == free
        invariant HashedAll(env, value, v.fields[i..], modes[i..], free, true, State())
               == HashedAll(env, keyHash, v.fields, modes, free, true, s)
      {
        assert v.fields[i..][1..] == v.fields[i + 1..] && modes[i..][1..] == modes[i + 1..];
        if !modes[i].Ignored? {
          var allowFreeVar := mapFreeVars;
          if modes[i].Def? { mapFreeVars := true; }
          var h := HashAny(v.fields[i]);
          if h.None? { return None; }
          mapFreeVars := allowFreeVar;
          value := env.combine(value, h.value);
        }
        i := i + 1;
      }
      return Some(value);
    }

    lemma {:induction false} ArrayHashed(v: Value, free: bool, s: Memo)
      requires v.Arr?
      ensures HashedAny(env, v, free, true, s)
           == HashedAll(env, env.combine(env.arrayKeyHash, Bits(|v.items|)), v.items, AllOrdinary(|v.items|),
                        free, true, s)
    {
    }

    /** The fold over an array, one element at a time. */
    lemma {:induction false} ElementHashed(h: Hash, xs: seq<Value>, i: nat, modes: seq<FieldMode>, free: bool, s: Memo)
      requires i < |xs| && modes == AllOrdinary(|xs|)
      ensures var r := HashedAny(env, xs[i], free, true, s);
              HashedAll(env, h, xs[i..], modes[i..], free, true, s) ==
                if !r.ok then r
                else HashedAll(env, env.combine(h, r.hash), xs[i + 1..], modes[i + 1..], free, true, r.memo)
    {
      hide HashedAny;
      assert xs[i..][1..] == xs[i + 1..] && modes[i..][1..] == modes[i + 1..];
    }

    lemma NoneHashed(h: Hash, xs: seq<Value>, modes: seq<FieldMode>, free: bool, s: Memo)
      requires xs == []
      ensures HashedAll(env, h, xs, modes, free, true, s) == Hashed(true, h, s)
    {
    }

    method HashArray(v: Value) returns (hash: Option<Hash>)
      requires v.Arr? && Shaped(env, v)
      modifies this
      ensures Returned(hash, HashedAny(env, v, old(mapFreeVars), true, old(State())))
      ensures hash.Some? ==> mapFreeVars == old(mapFreeVars)
      decreases v, 0
    {
      hide HashedAny, HashedAll;
      ArrayHashed(v, mapFreeVars, State());
      assert v.items[0..] == v.items && AllOrdinary(|v.items|)[0..] == AllOrdinary(|v.items|);
      ghost var s, free, modes := State(), mapFreeVars, AllOrdinary(|v.items|);
      var value := env.combine(env.arrayKeyHash, Bits(|v.items|));
      ghost var start := value;
      var i := 0;
      while i < |v.items|
        invariant 0 <= i <= |v.items| && mapFreeVars == free
        invariant HashedAll(env, value, v.items[i..], modes[i..], free, true, State())
               == HashedAll(env, start, v.items, modes, free, true, s)
      {
        ElementHashed(value, v.items, i, modes, free, State());
        var h := HashAny(v.items[i]);
        if h.None? { return None; }
        value := env.combine(value, h.value);
        i := i + 1;
      }
      NoneHashed(value, v.items[i..], modes[i..], free, State());
      return Some(value);
    }

    /** The entry behind an item of the sorted vector is given by its position. */
    method HashMap(v: Value) returns (hash: Option<Hash>)
      requires v.Dict? && Shaped(env, v)
      modifies this
      ensures Returned(hash, HashedAny(env, v, old(mapFreeVars), true, old(State())))
      ensures hash.Some? ==> mapFreeVars == old(mapFreeVars)
      decreases v, 0
    {
      hide HashedAny, HashedEntries, Tied, Less, KeyHash, Ascending;
      ghost var s, free := State(), mapFreeVars;
      ghost var hs := KeyHashes(env, v.keys, |v.values|, hashMemo);
      MapHashed(v, free, s);
      var items := HashKeys(v);
      SortLists(items, hs);
      items := Sort(items);
      var value := env.combine(env.mapKeyHash, Bits(|v.keys|));
      ghost var start := value;
      ghost var lo: Option<Hash> := None;
      var i := 0;
      while i < |items|
        invariant PassedTo(items, i, lo) && mapFreeVars == free
        invariant HashedEntries(env, value, v.values, hs, lo, free, true, State())
               == HashedEntries(env, start, v.values, hs, None, free, true, s)
      {
        var k := GroupEnd(items, i);
        NextGroup(items, hs, lo, i, k);
        EntryHashed(value, v.values, hs, lo, free, State());
        value := env.combine(value, items[i].0);
        if k == i + 1 {
          var h := HashAny(v.values[items[i].1]);
          if h.None? { return None; }
          value := env.combine(value, h.value);
        }
        lo := Next(hs, lo);
        i := k;
      }
      AllHashed(value, v.values, hs, lo, items, free, State());
      return Some(value);
    }

    /** The keys that have a hash, with their positions. */
    method HashKeys(v: Value) returns (items: seq<Item>)
      requires v.Dict? && Shaped(env, v)
      ensures Lists(items, KeyHashes(env, v.keys, |v.values|, hashMemo))
    {
      hide KeyHash;
      ghost var hs := KeyHashes(env, v.keys, |v.values|, hashMemo);
      items := [];
      for i := 0 to |v.keys|
        invariant forall x :: x in items ==> x.1 < i && hs[x.1] == Some(x.0)
        invariant forall j: nat :: j < i && hs[j].Some? ==> (hs[j].value, j) in items
        invariant forall p, q :: 0 <= p < q < |items| ==> items[p] != items[q]
      {
        var h := KeyHash(env, v.keys[i], hashMemo);
        if h.Some? { items := items + [(h.value, i)]; }
      }
    }

    /** Past the items with the same hash as the i-th. */
    static method GroupEnd(items: seq<Item>, i: nat) returns (k: nat)
      requires i < |items|
      ensures i < k <= |items| && forall p :: i <= p < k ==> items[p].0 == items[i].0
      ensures k < |items| ==> items[k].0 != items[i].0
    {
      k := i + 1;
      while k < |items| && items[k].0 == items[i].0
        invariant i < k <= |items| && forall p :: i <= p < k ==> items[p].0 == items[i].0
      {
        k := k + 1;
      }
    }

    lemma MapHashed(v: Value, free: bool, s: Memo)
      requires v.Dict?
      ensures HashedAny(env, v, free, true, s)
           == HashedEntries(env, env.combine(env.mapKeyHash, Bits(|v.keys|)), v.values,
                            KeyHashes(env, v.keys, |v.values|, s.hash), None, free, true, s)
    {
      hide HashedEntries;
    }

    /** The fold over the entries, one hash at a time. */
    lemma EntryHashed(h: Hash, values: seq<Value>, hs: seq<Option<Hash>>, lo: Option<Hash>, free: bool, s: Memo)
      requires |hs| == |values| && Next(hs, lo).Some?
      ensures Tied(hs, Next(hs, lo).value) ==>
                HashedEntries(env, h, values, hs, lo, free, true, s) ==
                HashedEntries(env, env.combine(h, Next(hs, lo).value), values, hs, Next(hs, lo), free, true, s)
      ensures !Tied(hs, Next(hs, lo).value) ==>
                && Holder(hs, Next(hs, lo).value) < |values|
                && var r := HashedAny(env, values[Holder(hs, Next(hs, lo).value)], free, true, s);
                   var rest := env.combine(env.combine(h, Next(hs, lo).value), r.hash);
                   HashedEntries(env, h, values, hs, lo, free, true, s) ==
                   if r.ok then HashedEntries(env, rest, values, hs, Next(hs, lo), free, true, r.memo) else r
    {
      hide HashedAny, Tied;
      NextShrinks(hs, lo);
      if !Tied(hs, Next(hs, lo).value) { HolderUntied(hs, Next(hs, lo).value); }
    }

    lemma AllHashed(h: Hash, values: seq<Value>, hs: seq<Option<Hash>>, lo: Option<Hash>, items: seq<Item>, free: bool,
            s: Memo)
      requires |hs| == |values| && Lists(items, hs) && PassedTo(items, |items|, lo)
      ensures HashedEntries(env, h, values, hs, lo, free, true, s) == Hashed(true, h, s)
    {
      hide HashedAny, Tied, Less;
    }
  }
}
