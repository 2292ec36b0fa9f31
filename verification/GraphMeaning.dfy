// What any acyclic node list stands for, read without a memo, and that decoding finds exactly that.
module GraphMeaning {
  import opened AssocList
  import opened GraphLaw
  import opened GraphModel
  import Base64

  /** The value of a node, an object having the index of its node for identity: nodes referred to twice are one object.
      None when its type or a type below it cannot be created, its fields are not those of its type, or the text of
      some bytes or the list of some map is of a wrong length. */
  ghost function Meaning(env: Env, nodes: seq<Node>, i: nat): Option<Value>
    requires Acyclic(nodes) && i < |nodes|
    decreases RankOf(nodes)[i], 1
  {
    match nodes[i]
    case Leaf(v) => Some(v)
    case Encoded(t) => if |t| % 4 != 0 then None else Some(Bytes(Base64.Decode(t)))
    case Compound(shape, slots) =>
      if !CanCreate(env, shape) then None
      else Boxed(i, shape, Meanings(env, nodes, i, slots, Kinds(env, shape, |slots|)))
  }

  function Boxed(i: nat, shape: Shape, parts: Option<seq<Value>>): Option<Value> {
    if parts.None? || Build(shape, parts.value).None? then None
    else Some(Box(i, shape, Build(shape, parts.value).value))
  }

  ghost function Meanings(env: Env, nodes: seq<Node>, i: nat, slots: seq<Slot>,
          kinds: seq<FieldKind>): Option<seq<Value>>
    requires Acyclic(nodes) && i < |nodes| && ChildrenRanked(nodes, slots, i)
    decreases RankOf(nodes)[i], 0, |slots|
  {
    if slots == [] && kinds == [] then Some([])
    else if slots == [] || kinds == [] || slots[0].Child? != (kinds[0] == Dynamic) then None
    else
      var head := if slots[0].Child? then Meaning(env, nodes, slots[0].index)
                  else Some(InPlace(kinds[0], slots[0].value));
      var rest := Meanings(env, nodes, i, slots[1..], kinds[1..]);
      if head.None? || rest.None? then None else Some([head.value] + rest.value)
  }

  /** Leaves and static fields hold no objects. */
  ghost predicate PlainNodes(nodes: seq<Node>) {
    forall i :: 0 <= i < |nodes| ==>
      && (nodes[i].Leaf? ==> !nodes[i].value.Box?) && (nodes[i].Compound? ==> PlainSlots(nodes[i].slots))
  }

  ghost predicate PlainSlots(slots: seq<Slot>) {
    forall k :: 0 <= k < |slots| && slots[k].Inline? ==> !slots[k].value.Box?
  }

  // ------------------------------------------------------- maps with new names

  function RenamePairs(f: map<nat, nat>, es: seq<(Value, Value)>): (r: seq<(Value, Value)>)
    ensures |r| == |es| && forall i :: 0 <= i < |r| ==> r[i] == (Rename(f, es[i].0), Rename(f, es[i].1))
  {
    seq(|es|, i requires 0 <= i < |es| => (Rename(f, es[i].0), Rename(f, es[i].1)))
  }

  ghost predicate PairsKnown(es: seq<(Value, Value)>, f: map<nat, nat>) {
    forall i :: 0 <= i < |es| ==> Known(es[i].0, f) && Known(es[i].1, f)
  }

  lemma {:induction false} FindRenamed(env: Env, es: seq<(Value, Value)>, k: Value, f: map<nat, nat>)
    requires PairsKnown(es, f) && Known(k, f) && Injective(f)
    ensures Find(RenamePairs(f, es), SameKey, Rename(f, k)) == Find(es, SameKey, k)
  {
    hide Rename, Known, Injective, SameKey;
    if es != [] {
      KeyRenamed(env, es[0].0, k, f);
      FindRenamed(env, es[1..], k, f);
      assert RenamePairs(f, es)[1..] == RenamePairs(f, es[1..]);
    }
  }

  lemma {:induction false} SetRenamed(env: Env, es: seq<(Value, Value)>, k: Value, v: Value, f: map<nat, nat>)
    requires PairsKnown(es, f) && Known(k, f) && Known(v, f) && Injective(f)
    ensures SetEntry(RenamePairs(f, es), Rename(f, k), Rename(f, v)) == RenamePairs(f, SetEntry(es, k, v))
    ensures PairsKnown(SetEntry(es, k, v), f)
  {
    hide Rename, Known, Injective, SameKey, Find, PairsKnown, DropAt;
    FindRenamed(env, es, k, f);
    var i, r := Find(es, SameKey, k), RenamePairs(f, es);
    if i == |es| {
      SnocRenamed(es, (k, v), f);
    } else {
      EntryRenamed(es, i, v, f);
      if |es| >= 4 { SnocRenamed(DropAt(es, i), (es[i].0, v), f); }
    }
  }

  lemma EntryRenamed(es: seq<(Value, Value)>, i: nat, v: Value, f: map<nat, nat>)
    requires PairsKnown(es, f) && i < |es| && Known(v, f)
    ensures Known(es[i].0, f) && PairsKnown(DropAt(es, i), f) && PairsKnown(es[i := (es[i].0, v)], f)
    ensures RenamePairs(f, es)[i := (Rename(f, es[i].0), Rename(f, v))] == RenamePairs(f, es[i := (es[i].0, v)])
    ensures DropAt(RenamePairs(f, es), i) == RenamePairs(f, DropAt(es, i))
  {
    hide Rename, Known;
  }

  lemma SnocRenamed(es: seq<(Value, Value)>, e: (Value, Value), f: map<nat, nat>)
    requires PairsKnown(es, f) && Known(e.0, f) && Known(e.1, f)
    ensures RenamePairs(f, es + [e]) == RenamePairs(f, es) + [(Rename(f, e.0), Rename(f, e.1))]
    ensures PairsKnown(es + [e], f)
  {
    hide Rename, Known;
  }

  lemma {:induction false} PairsRenamed(env: Env, es: seq<(Value, Value)>, parts: seq<Value>, f: map<nat, nat>)
    requires PairsKnown(es, f) && AllKnown(parts, f) && Injective(f)
    ensures SetPairs(RenamePairs(f, es), RenameAll(f, parts)) == RenamePairs(f, SetPairs(es, parts))
    ensures PairsKnown(SetPairs(es, parts), f)
    decreases |parts|
  {
    hide Rename, Known, Injective, SetEntry, PairsKnown;
    if |parts| >= 2 {
      SetRenamed(env, es, parts[0], parts[1], f);
      PairsRenamed(env, SetEntry(es, parts[0], parts[1]), parts[2..], f);
      assert RenameAll(f, parts)[2..] == RenameAll(f, parts[2..]);
    }
  }

  lemma {:induction false} FlatRenamed(es: seq<(Value, Value)>, f: map<nat, nat>)
    requires PairsKnown(es, f)
    ensures Flat(RenamePairs(f, es)) == RenameAll(f, Flat(es)) && AllKnown(Flat(es), f)
  {
    hide Rename, Known;
    if es != [] {
      FlatRenamed(es[1..], f);
      assert RenamePairs(f, es)[1..] == RenamePairs(f, es[1..]);
      TwoRenamed(es[0], Flat(es[1..]), f);
    }
  }

  lemma TwoRenamed(e: (Value, Value), rest: seq<Value>, f: map<nat, nat>)
    requires Known(e.0, f) && Known(e.1, f) && AllKnown(rest, f)
    ensures RenameAll(f, [e.0, e.1] + rest) == [Rename(f, e.0), Rename(f, e.1)] + RenameAll(f, rest)
    ensures AllKnown([e.0, e.1] + rest, f)
  {
    hide Rename, Known;
  }

  lemma {:induction false} BuildCommutes(env: Env, shape: Shape, parts: seq<Value>, f: map<nat, nat>)
    requires AllKnown(parts, f) && Injective(f)
    ensures Build(shape, RenameAll(f, parts)).Some? <==> Build(shape, parts).Some?
    ensures Build(shape, parts).Some? ==>
              && Build(shape, RenameAll(f, parts)) == Some(RenameAll(f, Build(shape, parts).value))
              && AllKnown(Build(shape, parts).value, f)
  {
    hide Rename, Known, Injective, SetPairs, Flat;
    PairsRenamed(env, [], parts, f);
    assert RenamePairs(f, []) == [];
    FlatRenamed(SetPairs([], parts), f);
  }

  // -------------------------------------------------------------- the memo

  /** v is what the j-th node stands for, with its identities renamed. */
  ghost predicate Stands(env: Env, nodes: seq<Node>, f: map<nat, nat>, j: nat, v: Value)
    requires Acyclic(nodes) && j < |nodes|
  {
    var m := Meaning(env, nodes, j);
    m.Some? && Known(m.value, f) && v == Rename(f, m.value)
  }

  /** All that has been decoded is what it stands for; f gives the identity of the object made for a node. */
  ghost predicate Holds(env: Env, nodes: seq<Node>, f: map<nat, nat>, s: Reader) {
    && Acyclic(nodes) && |s.decoded| == |nodes| && Injective(f)
    && (0 <= s.nullIndex < |nodes| ==> Meaning(env, nodes, s.nullIndex) == Some(Null))
    && (forall j :: 0 <= j < |nodes| && s.decoded[j] != Null ==> Stands(env, nodes, f, j, s.decoded[j]))
    && (forall x :: x in f ==> f[x] < s.next && x < |nodes| && s.decoded[x] != Null)
  }

  /** From s to e only nodes of rank below n have been decoded, and new objects have new identities. */
  ghost predicate Moved(nodes: seq<Node>, f: map<nat, nat>, s: Reader, g: map<nat, nat>, e: Reader, n: nat)
    requires Acyclic(nodes)
  {
    && Sub(f, g) && s.next <= e.next && |e.decoded| == |s.decoded| == |nodes|
    && (forall x :: x in g ==> x in f || g[x] >= s.next)
    && (forall j :: 0 <= j < |nodes| && RankOf(nodes)[j] >= n ==> e.decoded[j] == s.decoded[j])
  }

  lemma StandsOn(env: Env, nodes: seq<Node>, f: map<nat, nat>, g: map<nat, nat>, j: nat, v: Value)
    requires Acyclic(nodes) && j < |nodes| && Stands(env, nodes, f, j, v) && Sub(f, g)
    ensures Stands(env, nodes, g, j, v)
  {
    hide Meaning;
    RenameStays(Meaning(env, nodes, j).value, f, g);
  }

  lemma MovedTwice(nodes: seq<Node>, f: map<nat, nat>, s: Reader, g: map<nat, nat>, e: Reader, h: map<nat, nat>,
          c: Reader, m: nat, n: nat)
    requires Acyclic(nodes) && Moved(nodes, f, s, g, e, m) && Moved(nodes, g, e, h, c, n) && m <= n
    ensures Moved(nodes, f, s, h, c, n)
  {
  }

  lemma MovedNone(nodes: seq<Node>, f: map<nat, nat>, s: Reader, n: nat)
    requires Acyclic(nodes) && |s.decoded| == |nodes|
    ensures Moved(nodes, f, s, f, s, n)
  {
  }

  // ---------------------------------------------------------------- decoding

  /** A plain value is stored as it is. */
  lemma {:induction false} StorePlainNode(env: Env, nodes: seq<Node>, i: nat, v: Value, f: map<nat, nat>, s: Reader)
    requires Holds(env, nodes, f, s) && i < |nodes| && !v.Box? && Meaning(env, nodes, i) == Some(v)
    ensures var r := Store(i, v, s);
            Holds(env, nodes, f, r.state) && Known(v, f) && Rename(f, v) == v &&
                Moved(nodes, f, s, f, r.state, RankOf(nodes)[i] + 1)
  {
    hide Meaning;
    if i in f { assert Stands(env, nodes, f, i, s.decoded[i]); }
  }

  /** A new object is stored under the identity it got before its parts were decoded. */
  lemma {:induction false} StoreNewBox(env: Env, nodes: seq<Node>, i: nat, shape: Shape, parts: seq<Value>,
          f: map<nat, nat>, s: Reader, g: map<nat, nat>, e: Reader)
    requires Holds(env, nodes, f, s) && Holds(env, nodes, g, e) && i < |nodes| && s.decoded[i] == Null
    requires Moved(nodes, f, s.(next := s.next + 1), g, e, RankOf(nodes)[i])
    requires Meaning(env, nodes, i) == Some(Box(i, shape, parts)) && AllKnown(parts, g)
    ensures var h, r := g[i := s.next], Store(i, Box(s.next, shape, RenameAll(g, parts)), e);
            Holds(env, nodes, h, r.state) && Stands(env, nodes, h, i, r.value.value) &&
                Moved(nodes, f, s, h, r.state, RankOf(nodes)[i] + 1)
  {
    hide Meaning, Known, Rename;
    var h, w := g[i := s.next], Box(s.next, shape, RenameAll(g, parts));
    assert e.decoded[i] == Null && i !in g;
    NewBoxStands(i, shape, parts, g, s.next);
    FreshNumber(f, s, g, i);
    NewBoxHolds(env, nodes, i, w, g, e, s.next);
    hide Holds, Stands;
  }

  lemma NewBoxHolds(env: Env, nodes: seq<Node>, i: nat, w: Value, g: map<nat, nat>, e: Reader, x: nat)
    requires Holds(env, nodes, g, e) && i < |nodes| && i !in g && w.Box? && x < e.next && Injective(g[i := x])
    requires Stands(env, nodes, g[i := x], i, w) && Meaning(env, nodes, i) != Some(Null)
    ensures Holds(env, nodes, g[i := x], Store(i, w, e).state)
  {
    hide Meaning, Stands;
    var h, c := g[i := x], Store(i, w, e).state;
    forall j | 0 <= j < |nodes| && c.decoded[j] != Null ensures Stands(env, nodes, h, j, c.decoded[j]) {
      if j != i { StandsOn(env, nodes, g, h, j, e.decoded[j]); }
    }
  }

  lemma NewBoxStands(i: nat, shape: Shape, parts: seq<Value>, g: map<nat, nat>, x: nat)
    requires AllKnown(parts, g) && i !in g
    ensures var h, v := g[i := x], Box(i, shape, parts);
            Known(v, h) && Rename(h, v) == Box(x, shape, RenameAll(g, parts))
  {
    RenameAllStays(parts, g, g[i := x]);
  }

  lemma FreshNumber(f: map<nat, nat>, s: Reader, g: map<nat, nat>, i: nat)
    requires Injective(g) && i !in g
    requires (forall x :: x in f ==> f[x] < s.next) && Sub(f, g)
    requires forall x :: x in g ==> x in f || g[x] >= s.next + 1
    ensures Injective(g[i := s.next])
  {
    forall x | x in g ensures g[x] != s.next {
      if x in f { assert g[x] == f[x]; }
    }
  }

  lemma {:induction false} DecodeMeans(env: Env, nodes: seq<Node>, i: nat, f: map<nat, nat>, s: Reader)
    returns (g: map<nat, nat>)
    requires Holds(env, nodes, f, s) && PlainNodes(nodes) && i < |nodes|
    ensures var r := Decode(env, nodes, i, s);
            && (r.value.Some? <==> Meaning(env, nodes, i).Some?)
            && (r.value.Some? ==>
                  && Holds(env, nodes, g, r.state) && Stands(env, nodes, g, i, r.value.value)
                  && Moved(nodes, f, s, g, r.state, RankOf(nodes)[i] + 1))
    decreases RankOf(nodes)[i], 1
  {
    hide Moved, Stands, DecodeParts, Meanings, Build;
    g := f;
    if i == s.nullIndex || s.decoded[i] != Null {
      FoundAgain(env, nodes, i, f, s);
    } else {
      match nodes[i] {
        case Leaf(v) =>
          LeafDecoded(env, nodes, i, v, f, s);
        case Encoded(t) =>
          if |t| % 4 == 0 { LeafDecoded(env, nodes, i, Bytes(Base64.Decode(t)), f, s); }
        case Compound(shape, slots) =>
          if CanCreate(env, shape) { g := CompoundMeans(env, nodes, i, f, s); }
      }
    }
  }

  lemma FoundAgain(env: Env, nodes: seq<Node>, i: nat, f: map<nat, nat>, s: Reader)
    requires Holds(env, nodes, f, s) && i < |nodes| && (i == s.nullIndex || s.decoded[i] != Null)
    ensures var r := Decode(env, nodes, i, s);
            r.value.Some? && r.state == s && Meaning(env, nodes, i).Some? && Stands(env, nodes, f, i, r.value.value) &&
                Moved(nodes, f, s, f, s, RankOf(nodes)[i] + 1)
  {
    hide Meaning, DecodeParts, Build;
  }

  lemma LeafDecoded(env: Env, nodes: seq<Node>, i: nat, v: Value, f: map<nat, nat>, s: Reader)
    requires Holds(env, nodes, f, s) && i < |nodes| && !v.Box? && Meaning(env, nodes, i) == Some(v)
    ensures var r := Store(i, v, s);
            Holds(env, nodes, f, r.state) && Stands(env, nodes, f, i, v) &&
                Moved(nodes, f, s, f, r.state, RankOf(nodes)[i] + 1)
  {
    hide Meaning, Holds, Moved, Store;
    StorePlainNode(env, nodes, i, v, f, s);
  }

  lemma {:induction false} CompoundMeans(env: Env, nodes: seq<Node>, i: nat, f: map<nat, nat>, s: Reader)
    returns (g: map<nat, nat>)
    requires Holds(env, nodes, f, s) && PlainNodes(nodes) && i < |nodes|
    requires i != s.nullIndex && s.decoded[i] == Null && nodes[i].Compound? && CanCreate(env, nodes[i].shape)
    ensures var r := Decode(env, nodes, i, s);
            && (r.value.Some? <==> Meaning(env, nodes, i).Some?)
            && (r.value.Some? ==>
                  && Holds(env, nodes, g, r.state) && Stands(env, nodes, g, i, r.value.value)
                  && Moved(nodes, f, s, g, r.state, RankOf(nodes)[i] + 1))
    decreases RankOf(nodes)[i], 0, |nodes[i].slots| + 1
  {
    hide Moved, Stands, Holds, DecodeParts, Meanings, Build;
    var shape, slots := nodes[i].shape, nodes[i].slots;
    var kinds := Kinds(env, shape, |slots|);
    var t := s.(next := s.next + 1);
    OneMoreNumber(env, nodes, f, s);
    HoldsInjective(env, nodes, f, t);
    g := PartsMean(env, nodes, i, slots, kinds, f, t);
    var q, m := DecodeParts(env, nodes, i, slots, kinds, t), Meanings(env, nodes, i, slots, kinds);
    if m.Some? {
      HoldsInjective(env, nodes, g, q.state);
      BuildCommutes(env, shape, m.value, g);
      if Build(shape, m.value).Some? {
        StoreNewBox(env, nodes, i, shape, Build(shape, m.value).value, f, s, g, q.state);
        g := g[i := s.next];
      }
    }
  }

  lemma OneMoreNumber(env: Env, nodes: seq<Node>, f: map<nat, nat>, s: Reader)
    requires Holds(env, nodes, f, s)
    ensures Holds(env, nodes, f, s.(next := s.next + 1))
  {
    hide Meaning, Stands;
  }

  lemma HoldsInjective(env: Env, nodes: seq<Node>, f: map<nat, nat>, s: Reader)
    requires Holds(env, nodes, f, s)
    ensures Acyclic(nodes) && Injective(f) && |s.decoded| == |nodes|
  {
  }

  lemma {:induction false} PartsMean(env: Env, nodes: seq<Node>, i: nat, slots: seq<Slot>, kinds: seq<FieldKind>,
          f: map<nat, nat>, s: Reader) returns (g: map<nat, nat>)
    requires Holds(env, nodes, f, s) && PlainNodes(nodes) && i < |nodes| == |s.decoded|
    requires ChildrenRanked(nodes, slots, i) && PlainSlots(slots)
    ensures var r, m := DecodeParts(env, nodes, i, slots, kinds, s), Meanings(env, nodes, i, slots, kinds);
            && (r.parts.Some? <==> m.Some?)
            && (m.Some? ==>
                  && Holds(env, nodes, g, r.state) && AllKnown(m.value, g)
                  && r.parts == Some(RenameAll(g, m.value)) && Moved(nodes, f, s, g, r.state, RankOf(nodes)[i]))
    decreases RankOf(nodes)[i], 0, |slots|
  {
    hide Moved, Stands, Holds, Decode, Meaning, Rename, Known, PlainNodes;
    g := f;
    HoldsInjective(env, nodes, f, s);
    if slots == [] && kinds == [] {
      MovedNone(nodes, f, s, RankOf(nodes)[i]);
    } else if slots != [] && kinds != [] && slots[0].Child? == (kinds[0] == Dynamic) {
      var h, e, v := HeadMeans(env, nodes, i, slots[0], kinds[0], f, s);
      if v.Some? {
        HoldsInjective(env, nodes, h, e);
        g := PartsMean(env, nodes, i, slots[1..], kinds[1..], h, e);
        var m := Meanings(env, nodes, i, slots[1..], kinds[1..]);
        if m.Some? {
          var rest := DecodeParts(env, nodes, i, slots[1..], kinds[1..], e);
          MovedTwice(nodes, f, s, h, e, g, rest.state, RankOf(nodes)[i], RankOf(nodes)[i]);
          MovedSub(nodes, h, e, g, rest.state, RankOf(nodes)[i]);
          RenameStays(v.value, h, g);
        }
      }
    }
  }

  lemma MovedSub(nodes: seq<Node>, f: map<nat, nat>, s: Reader, g: map<nat, nat>, e: Reader, n: nat)
    requires Acyclic(nodes) && Moved(nodes, f, s, g, e, n)
    ensures Sub(f, g)
  {
  }

  lemma MovedHigher(nodes: seq<Node>, f: map<nat, nat>, s: Reader, g: map<nat, nat>, e: Reader, m: nat, n: nat)
    requires Acyclic(nodes) && Moved(nodes, f, s, g, e, m) && m <= n
    ensures Moved(nodes, f, s, g, e, n)
  {
  }

  /** The first part, and the state after it. */
  lemma {:induction false} HeadMeans(env: Env, nodes: seq<Node>, i: nat, slot: Slot, kind: FieldKind, f: map<nat, nat>,
          s: Reader) returns (h: map<nat, nat>, e: Reader, v: Option<Value>)
    requires Holds(env, nodes, f, s) && PlainNodes(nodes) && i < |nodes| == |s.decoded|
    requires slot.Child? ==> slot.index < |nodes| && RankOf(nodes)[slot.index] < RankOf(nodes)[i]
    requires slot.Inline? ==> !slot.value.Box?
    ensures v == if slot.Child? then Meaning(env, nodes, slot.index) else Some(InPlace(kind, slot.value))
    ensures slot.Child? ==> Decode(env, nodes, slot.index, s).value.Some? == v.Some?
    ensures v.Some? ==>
              && e == (if slot.Child? then Decode(env, nodes, slot.index, s).state else s)
              && (slot.Child? ==> Decode(env, nodes, slot.index, s).value == Some(Rename(h, v.value)))
              && (slot.Inline? ==> Rename(h, v.value) == v.value)
              && Holds(env, nodes, h, e) && Known(v.value, h) && Moved(nodes, f, s, h, e, RankOf(nodes)[i])
    decreases RankOf(nodes)[i], 0, 0
  {
    hide Moved, Holds, Decode, Meaning, PlainNodes;
    HoldsInjective(env, nodes, f, s);
    if slot.Child? {
      h := DecodeMeans(env, nodes, slot.index, f, s);
      e, v := Decode(env, nodes, slot.index, s).state, Meaning(env, nodes, slot.index);
      if v.Some? { MovedHigher(nodes, f, s, h, e, RankOf(nodes)[slot.index] + 1, RankOf(nodes)[i]); }
    } else {
      h, e, v := f, s, Some(InPlace(kind, slot.value));
      MovedNone(nodes, f, s, RankOf(nodes)[i]);
    }
  }

  /** On every acyclic node list the decoder succeeds exactly when the root has a meaning, and then yields it, with one
      new identity for every object node. */
  lemma {:induction false} DecodesExactly(env: Env, g: Graph) returns (f: map<nat, nat>)
    requires Acyclic(g.nodes) && PlainNodes(g.nodes) && 0 <= g.root < |g.nodes|
    ensures FromGraph(env, g).Some? <==> Meaning(env, g.nodes, g.root).Some?
    ensures FromGraph(env, g).Some? ==>
              var v := Meaning(env, g.nodes, g.root).value;
              Injective(f) && Known(v, f) && FromGraph(env, g) == Some(Rename(f, v))
  {
    hide Decode, Meaning, PlainNodes, Known, Rename;
    var s := Reader(seq(|g.nodes|, _ => Null), -1, 0);
    assert Holds(env, g.nodes, map[], s);
    f := DecodeMeans(env, g.nodes, g.root, map[], s);
  }

  // ------------------------------------------------------------ repeated keys

  /** The value given last for a key in a list of keys and values. */
  function LastFor(parts: seq<Value>, k: Value): Option<Value> {
    if |parts| < 2 then None
    else if LastFor(parts[2..], k).Some? then LastFor(parts[2..], k)
    else if SameKey(parts[0], k) then Some(parts[1])
    else None
  }

  /** A map that is rebuilt holds the last value of every key, and each key once. */
  lemma {:induction false} LastValueWins(es: seq<(Value, Value)>, parts: seq<Value>, k: Value)
    requires DistinctKeys(es, SameKey)
    ensures DistinctKeys(SetPairs(es, parts), SameKey)
    ensures Lookup(SetPairs(es, parts), SameKey, k) ==
            if LastFor(parts, k).Some? then LastFor(parts, k) else Lookup(es, SameKey, k)
    decreases |parts|
  {
    hide SameKey, Lookup, SetEntry;
    if |parts| >= 2 {
      EntrySet(es, parts[0], parts[1], k);
      LastValueWins(SetEntry(es, parts[0], parts[1]), parts[2..], k);
    }
  }

  lemma EntrySet(es: seq<(Value, Value)>, k: Value, v: Value, q: Value)
    requires DistinctKeys(es, SameKey)
    ensures DistinctKeys(SetEntry(es, k, v), SameKey)
    ensures Lookup(SetEntry(es, k, v), SameKey, q) == if SameKey(k, q) then Some(v) else Lookup(es, SameKey, q)
  {
    var tr := KeyTraits((x: Value) => 0, SameKey);
    assert Lawful(tr);
    hide Lookup, SetInPlace, SetLast;
    LookupAfterSetInPlace(es, tr, k, v, q);
    LookupAfterSetLast(es, tr, k, v, q);
  }
}
