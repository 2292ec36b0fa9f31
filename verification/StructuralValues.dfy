// Values as structural equality and hashing see them: cells, strings and
// bytes, arrays, and reflected objects with an identity.
module StructuralValues {
  import opened AnyCells
  import opened AssocList

  const FLOAT: int := 3
  const SHAPE: int := 69
  const TENSOR: int := 70
  const ARRAY: int := 71
  const MAP: int := 72
  const QUIET_NAN: int := 0x7ff8_0000_0000_0000

  type Hash = bv64

  /** Containers and objects have an identity; a heap string is compared by its bytes alone. A map lists its entries in
      iteration order, the i-th key with the i-th value. */
  datatype Value =
    | Plain(cell: AnyCell)
    | Text(tindex: int, bytes: seq<byte>)
    | Arr(id: nat, items: seq<Value>)
    | Dict(id: nat, keys: seq<Value>, values: seq<Value>)
    | Obj(id: nat, tindex: int, fields: seq<Value>)

  datatype Kind = Unsupported | TreeNode | FreeVar | DAGNode | ConstTreeNode | UniqueInstance

  /** The kinds whose objects are recorded once they have been visited. */
  predicate Recorded(kind: Kind) { kind.DAGNode? || kind.FreeVar? }

  datatype FieldMode = Ordinary | Ignored | Def

  /** Reflection data of a type, its ancestors' fields first. */
  datatype TypeInfo = TypeInfo(hasMetadata: bool, kind: Kind, modes: seq<FieldMode>, keyHash: Hash)

  /** What both traversals read: the type table, the heap, and the parts of hashing that depend on the platform. */
  datatype Env = Env(types: int -> TypeInfo, heap: nat -> Value, pointerHash: nat -> Hash,
                     combine: (Hash, Hash) -> Hash, arrayKeyHash: Hash, mapKeyHash: Hash)

  function TypeIndex(v: Value): int {
    match v
    case Plain(c) => c.tindex
    case Text(t, _) => t
    case Arr(_, _) => ARRAY
    case Dict(_, _, _) => MAP
    case Obj(_, t, _) => t
  }

  function Info(env: Env, v: Value): TypeInfo
    requires v.Obj?
  {
    env.types(v.tindex)
  }

  /** Every element of an array is visited like an ordinary field. */
  function AllOrdinary(n: nat): (modes: seq<FieldMode>)
    ensures |modes| == n && forall i :: 0 <= i < n ==> modes[i] == Ordinary
  {
    seq(n, _ => Ordinary)
  }

  predicate IsNan(word: nat) {
    (word / 0x10_0000_0000_0000) % 0x800 == 0x7ff && word % 0x10_0000_0000_0000 != 0
  }

  /** Different type indices: equal only as an inline and a heap copy of the same string or bytes. */
  predicate SameText(a: Value, b: Value) {
    match (a, b)
    case (Text(t, s), Plain(c)) =>
      ((t == STR && c.tindex == SMALL_STR) || (t == BYTES && c.tindex == SMALL_BYTES)) && s == BytesOf(c.word, c.pad)
    case (Plain(c), Text(t, s)) =>
      ((t == STR && c.tindex == SMALL_STR) || (t == BYTES && c.tindex == SMALL_BYTES)) && BytesOf(c.word, c.pad) == s
    case _ => false
  }

  /** AnyEqual, by which a map finds its keys: contents for strings, identity for objects. */
  predicate SameKey(a: Value, b: Value) {
    match (a, b)
    case (Plain(c), Plain(d)) => c == d
    case (Text(t, s), Text(u, r)) => t == u && s == r
    case (Arr(i, _), Arr(j, _)) => i == j
    case (Dict(i, _, _), Dict(j, _, _)) => i == j
    case (Obj(i, t, _), Obj(j, u, _)) => i == j && t == u
    case _ => SameText(a, b)
  }

  /** Map::find: the position of a key, or the size of the map. */
  function IndexOf(keys: seq<Value>, k: Value): (i: nat)
    ensures i <= |keys|
    ensures i < |keys| ==> SameKey(keys[i], k)
    ensures forall j :: 0 <= j < i ==> !SameKey(keys[j], k)
  {
    if keys == [] then 0 else if SameKey(keys[0], k) then 0 else 1 + IndexOf(keys[1..], k)
  }

  /** Cells hold what their type index says, and an object has one value per field of its type. */
  predicate Shaped(env: Env, v: Value) {
    match v
    case Plain(c) => c.tindex < STATIC_OBJECT_BEGIN
    case Text(t, _) => t == STR || t == BYTES
    case Arr(_, items) => forall i :: 0 <= i < |items| ==> Shaped(env, items[i])
    case Dict(_, keys, values) =>
      && |keys| == |values|
      && (forall i :: 0 <= i < |keys| ==> Shaped(env, keys[i]))
      && (forall i :: 0 <= i < |values| ==> Shaped(env, values[i]))
    case Obj(_, t, fields) =>
      && t >= STATIC_OBJECT_BEGIN && t !in {STR, BYTES, SHAPE, TENSOR, ARRAY, MAP}
      && |fields| == |env.types(t).modes|
      && forall i :: 0 <= i < |fields| ==> Shaped(env, fields[i])
  }

  /** The heap has this value's containers and objects at their ids, and no map has a key twice. */
  predicate Placed(env: Env, v: Value) {
    match v
    case Plain(_) => true
    case Text(_, _) => true
    case Arr(id, items) => env.heap(id) == v && forall i :: 0 <= i < |items| ==> Placed(env, items[i])
    case Dict(id, keys, values) =>
      && env.heap(id) == v && |keys| == |values|
      && (forall i :: 0 <= i < |keys| ==> Placed(env, keys[i]))
      && (forall i :: 0 <= i < |values| ==> Placed(env, values[i]))
      && (forall i, j :: 0 <= i < j < |keys| ==> !SameKey(keys[i], keys[j]))
    case Obj(id, _, fields) => env.heap(id) == v && forall i :: 0 <= i < |fields| ==> Placed(env, fields[i])
  }

  predicate MapFree(v: Value) {
    match v
    case Plain(_) => true
    case Text(_, _) => true
    case Arr(_, items) => forall i :: 0 <= i < |items| ==> MapFree(items[i])
    case Dict(_, _, _) => false
    case Obj(_, _, fields) => forall i :: 0 <= i < |fields| ==> MapFree(fields[i])
  }

  ghost predicate AllPlaced(env: Env, vs: seq<Value>) {
    forall i :: 0 <= i < |vs| ==> Placed(env, vs[i])
  }

  ghost predicate AllMapFree(vs: seq<Value>) {
    forall i :: 0 <= i < |vs| ==> MapFree(vs[i])
  }

  function Height(v: Value): nat {
    match v
    case Plain(_) => 0
    case Text(_, _) => 0
    case Arr(_, items) => 1 + HeightOfAll(items)
    case Dict(_, _, values) => 1 + HeightOfAll(values)
    case Obj(_, _, fields) => 1 + HeightOfAll(fields)
  }

  function HeightOfAll(vs: seq<Value>): nat {
    if vs == [] then 0 else Max(Height(vs[0]), HeightOfAll(vs[1..]))
  }

  lemma {:induction false} HeightOfOne(vs: seq<Value>, i: nat)
    requires i < |vs|
    ensures Height(vs[i]) <= HeightOfAll(vs)
  {
    if i > 0 {
      HeightOfOne(vs[1..], i - 1);
    }
  }
}
