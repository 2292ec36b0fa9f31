// Object graphs, the node list they are written to, and how it is read back.
module GraphModel {
  import opened AssocList
  import Base64

  type ByteString = s: string | Base64.IsBytes(s) witness ""

  datatype Shape = ArrayOf | MapOf | ObjectOf(typeKey: string)

  /** Arrays, maps (keys and values in turn) and reflected objects have an identity; the rest are plain values. */
  datatype Value =
    | Null
    | Bool(flag: bool)
    | Int(number: int)
    | Float(bits: nat)
    | Str(text: string)
    | Bytes(data: ByteString)
    | Box(id: nat, shape: Shape, parts: seq<Value>)

  /** What the reflection data says about a field: a static type whose value is written in place, or any value. */
  datatype FieldKind = StaticNull | StaticBool | StaticInt | StaticFloat | Dynamic

  datatype ObjectType = ObjectType(hasMetadata: bool, hasCreator: bool, kinds: seq<FieldKind>)

  /** The type registry by type key, and the heap by identity. */
  datatype Env = Env(types: string -> Option<ObjectType>, heap: nat -> Value)

  datatype Slot = Inline(value: Value) | Child(index: nat)

  datatype Node = Leaf(value: Value) | Encoded(text: string) | Compound(shape: Shape, slots: seq<Slot>)

  function AllDynamic(n: nat): (ks: seq<FieldKind>)
    ensures |ks| == n && forall i :: 0 <= i < n ==> ks[i] == Dynamic
  {
    seq(n, _ => Dynamic)
  }

  /** The kinds of the parts of a value with n parts. */
  function Kinds(env: Env, shape: Shape, n: nat): seq<FieldKind> {
    if shape.ObjectOf? then (if env.types(shape.typeKey).Some? then env.types(shape.typeKey).value.kinds else [])
    else AllDynamic(n)
  }

  predicate HasMetadata(env: Env, shape: Shape) {
    shape.ObjectOf? ==> env.types(shape.typeKey).Some? && env.types(shape.typeKey).value.hasMetadata
  }

  predicate CanCreate(env: Env, shape: Shape) {
    shape.ObjectOf? ==> HasMetadata(env, shape) && env.types(shape.typeKey).value.hasCreator
  }

  // ------------------------------------------------------------------ writing

  /** node_index_map_, whose keys compare like AnyEqual, and nodes_. */
  datatype Writer = Writer(index: map<Value, nat>, nodes: seq<Node>)

  const BLANK := Writer(map[], [])

  /** index is none when an error was thrown. */
  datatype Indexed = Indexed(index: Option<nat>, state: Writer)

  datatype Slotted = Slotted(slots: Option<seq<Slot>>, state: Writer)

  /** GetOrCreateNodeIndex. */
  function IndexOf(env: Env, v: Value, s: Writer): Indexed
    decreases v, 1
  {
    if v in s.index then Indexed(Some(s.index[v]), s)
    else match v
      case Bytes(b) => Push(v, Encoded(Base64.Encode(b)), s)
      case Box(_, shape, parts) =>
        if !HasMetadata(env, shape) then Indexed(None, s)
        else
          var r := SlotsOf(env, parts, Kinds(env, shape, |parts|), s);
          if r.slots.None? then Indexed(None, r.state) else Push(v, Compound(shape, r.slots.value), r.state)
      case _ => Push(v, Leaf(v), s)
  }

  function Push(v: Value, node: Node, s: Writer): Indexed {
    Indexed(Some(|s.nodes|), Writer(s.index[v := |s.nodes|], s.nodes + [node]))
  }

  /** CreateArrayData, CreateMapData and the field loop of CreateObjectData. */
  function SlotsOf(env: Env, parts: seq<Value>, kinds: seq<FieldKind>, s: Writer): Slotted
    decreases parts, 0
  {
    if parts == [] || kinds == [] then Slotted(Some([]), s)
    else if kinds[0] != Dynamic then Cons(Inline(InPlace(kinds[0], parts[0])), SlotsOf(env, parts[1..], kinds[1..], s))
    else
      var r := IndexOf(env, parts[0], s);
      if r.index.None? then Slotted(None, r.state)
      else Cons(Child(r.index.value), SlotsOf(env, parts[1..], kinds[1..], r.state))
  }

  function Cons(slot: Slot, r: Slotted): Slotted {
    if r.slots.None? then r else Slotted(Some([slot] + r.slots.value), r.state)
  }

  function InPlace(kind: FieldKind, v: Value): Value { if kind == StaticNull then Null else v }

  datatype Graph = Graph(root: int, nodes: seq<Node>)

  function ToGraph(env: Env, v: Value): Option<Graph> {
    var r := IndexOf(env, v, BLANK);
    if r.index.Some? then Some(Graph(r.index.value, r.state.nodes)) else None
  }

  // ------------------------------------------------------------------ reading

  /** Every child index is that of a node, of lower rank than the node it is stored in. */
  ghost predicate Ranked(nodes: seq<Node>, rank: seq<nat>) {
    |rank| == |nodes| &&
    forall i, k :: 0 <= i < |nodes| && nodes[i].Compound? && 0 <= k < |nodes[i].slots| && nodes[i].slots[k].Child? ==>
      var c := nodes[i].slots[k].index; c < |nodes| && rank[c] < rank[i]
  }

  /** No node is reached from itself: what decoding needs to end. */
  ghost predicate Acyclic(nodes: seq<Node>) { exists rank :: Ranked(nodes, rank) }

  ghost function RankOf(nodes: seq<Node>): (rank: seq<nat>)
    requires Acyclic(nodes)
    ensures Ranked(nodes, rank)
  {
    var rank :| Ranked(nodes, rank);
    rank
  }

  /** The children in slots are nodes of lower rank than the n-th. */
  ghost predicate ChildrenRanked(nodes: seq<Node>, slots: seq<Slot>, n: nat)
    requires Acyclic(nodes) && n < |nodes|
  {
    forall k :: 0 <= k < |slots| && slots[k].Child? ==>
      slots[k].index < |nodes| && RankOf(nodes)[slots[k].index] < RankOf(nodes)[n]
  }

  /** Every stored child index is below its node's index, as the serializer writes them. */
  predicate Descending(nodes: seq<Node>): (b: bool)
    ensures b ==> Acyclic(nodes)
  {
    IndicesRank(nodes);
    forall i :: 0 <= i < |nodes| && nodes[i].Compound? ==> ChildrenBelow(nodes[i].slots, i)
  }

  lemma IndicesRank(nodes: seq<Node>)
    ensures (forall i :: 0 <= i < |nodes| && nodes[i].Compound? ==> ChildrenBelow(nodes[i].slots, i)) ==> Acyclic(nodes)
  {
    if forall i :: 0 <= i < |nodes| && nodes[i].Compound? ==> ChildrenBelow(nodes[i].slots, i) {
      var rank: seq<nat> := seq(|nodes|, i requires 0 <= i => i);
      assert Ranked(nodes, rank);
    }
  }

  predicate ChildrenBelow(slots: seq<Slot>, n: nat) {
    forall k :: 0 <= k < |slots| && slots[k].Child? ==> slots[k].index < n
  }

  /** decoded_nodes_, decoded_null_index_, and the identity the next created object gets. */
  datatype Reader = Reader(decoded: seq<Value>, nullIndex: int, next: nat)

  datatype Decoded = Decoded(value: Option<Value>, state: Reader)

  datatype DecodedParts = DecodedParts(parts: Option<seq<Value>>, state: Reader)

  /** GetOrDecodeNode. */
  function Decode(env: Env, nodes: seq<Node>, i: nat, s: Reader): (r: Decoded)
    requires Acyclic(nodes) && i < |nodes| == |s.decoded|
    ensures |r.state.decoded| == |s.decoded|
    decreases RankOf(nodes)[i], 1
  {
    if i == s.nullIndex then Decoded(Some(Null), s)
    else if s.decoded[i] != Null then Decoded(Some(s.decoded[i]), s)
    else match nodes[i]
      case Leaf(v) => Store(i, v, s)
      case Encoded(t) => if |t| % 4 != 0 then Decoded(None, s) else Store(i, Bytes(Base64.Decode(t)), s)
      case Compound(shape, slots) =>
        if !CanCreate(env, shape) then Decoded(None, s)
        else
          var r := DecodeParts(env, nodes, i, slots, Kinds(env, shape, |slots|), s.(next := s.next + 1));
          if r.parts.None? || Build(shape, r.parts.value).None? then Decoded(None, r.state)
          else Store(i, Box(s.next, shape, Build(shape, r.parts.value).value), r.state)
  }

  function Store(i: nat, v: Value, s: Reader): Decoded
    requires i < |s.decoded|
  {
    Decoded(Some(v), s.(decoded := s.decoded[i := v], nullIndex := if v == Null then i else s.nullIndex))
  }

  /** Field by field: a value in place for a static field, a node index for any other. */
  function DecodeParts(env: Env, nodes: seq<Node>, i: nat, slots: seq<Slot>, kinds: seq<FieldKind>,
          s: Reader): (r: DecodedParts)
    requires Acyclic(nodes) && i < |nodes| == |s.decoded| && ChildrenRanked(nodes, slots, i)
    ensures |r.state.decoded| == |s.decoded|
    decreases RankOf(nodes)[i], 0, |slots|
  {
    if slots == [] && kinds == [] then DecodedParts(Some([]), s)
    else if slots == [] || kinds == [] || slots[0].Child? != (kinds[0] == Dynamic) then DecodedParts(None, s)
    else
      var head := if slots[0].Child? then Decode(env, nodes, slots[0].index, s)
                  else Decoded(Some(InPlace(kinds[0], slots[0].value)), s);
      if head.value.None? then DecodedParts(None, head.state)
      else
        var rest := DecodeParts(env, nodes, i, slots[1..], kinds[1..], head.state);
        if rest.parts.None? then rest else DecodedParts(Some([head.value.value] + rest.parts.value), rest.state)
  }

  /** AnyEqual on decoded values: identity for boxes, contents for the rest. */
  predicate SameKey(a: Value, b: Value) {
    if a.Box? && b.Box? then a.id == b.id else a == b
  }

  /** Map::Set on a map grown from empty: small below four entries; with four or more, that Set finds or makes it
      dense. */
  function SetEntry(es: seq<(Value, Value)>, k: Value, v: Value): seq<(Value, Value)> {
    if |es| < 4 then SetInPlace(es, SameKey, k, v) else SetLast(es, SameKey, k, v)
  }

  function SetPairs(es: seq<(Value, Value)>, parts: seq<Value>): seq<(Value, Value)>
    decreases |parts|
  {
    if |parts| < 2 then es else SetPairs(SetEntry(es, parts[0], parts[1]), parts[2..])
  }

  function Flat(es: seq<(Value, Value)>): seq<Value> {
    if es == [] then [] else [es[0].0, es[0].1] + Flat(es[1..])
  }

  /** A map is rebuilt entry by entry; an odd list of indices is an error. */
  function Build(shape: Shape, parts: seq<Value>): Option<seq<Value>> {
    if !shape.MapOf? then Some(parts) else if |parts| % 2 != 0 then None else Some(Flat(SetPairs([], parts)))
  }

  function FromGraph(env: Env, g: Graph): Option<Value>
    requires Acyclic(g.nodes) && 0 <= g.root < |g.nodes|
  {
    Decode(env, g.nodes, g.root, Reader(seq(|g.nodes|, _ => Null), -1, 0)).value
  }

  // ---------------------------------------------------------------- the values

  predicate Typed(kind: FieldKind, v: Value) {
    match kind
    case StaticNull => v.Null?
    case StaticBool => v.Bool?
    case StaticInt => v.Int?
    case StaticFloat => v.Float?
    case Dynamic => true
  }

  /** Every object's type has metadata and a creator, and its fields hold what they are declared to hold. */
  predicate Supported(env: Env, v: Value) {
    v.Box? ==>
      && CanCreate(env, v.shape) && |Kinds(env, v.shape, |v.parts|)| == |v.parts|
      && (forall k :: 0 <= k < |v.parts| ==> Typed(Kinds(env, v.shape, |v.parts|)[k], v.parts[k]))
      && (forall k :: 0 <= k < |v.parts| ==> Supported(env, v.parts[k]))
  }

  /** An acyclic heap: each box stands at its identity; the keys of a map differ. */
  predicate Placed(env: Env, v: Value) {
    v.Box? ==>
      && env.heap(v.id) == v
      && (forall k :: 0 <= k < |v.parts| ==> Placed(env, v.parts[k]))
      && (v.shape.MapOf? ==> |v.parts| % 2 == 0 && KeysDiffer(v.parts))
  }

  predicate KeysDiffer(parts: seq<Value>) {
    forall i, j :: 0 <= i < j < |parts| && i % 2 == 0 && j % 2 == 0 ==> !SameKey(parts[i], parts[j])
  }

  function Height(v: Value): nat {
    if v.Box? then 1 + HeightOfAll(v.parts) else 0
  }

  function HeightOfAll(vs: seq<Value>): nat {
    if vs == [] then 0 else Max(Height(vs[0]), HeightOfAll(vs[1..]))
  }

  /** The value with other identities. */
  function Rename(f: map<nat, nat>, v: Value): Value {
    if v.Box? then Box(if v.id in f then f[v.id] else v.id, v.shape, RenameAll(f, v.parts)) else v
  }

  function RenameAll(f: map<nat, nat>, vs: seq<Value>): (r: seq<Value>)
    ensures |r| == |vs| && forall i :: 0 <= i < |vs| ==> r[i] == Rename(f, vs[i])
  {
    if vs == [] then [] else [Rename(f, vs[0])] + RenameAll(f, vs[1..])
  }

  /** f says how every identity in v is renamed. */
  predicate Known(v: Value, f: map<nat, nat>) {
    v.Box? ==> v.id in f && forall k :: 0 <= k < |v.parts| ==> Known(v.parts[k], f)
  }

  ghost predicate Injective(f: map<nat, nat>) {
    forall x, y :: x in f && y in f && f[x] == f[y] ==> x == y
  }
}
