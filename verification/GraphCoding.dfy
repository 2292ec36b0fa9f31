// The serializer and the deserializer: recursion over the value with maps
// and node lists that fill up as it runs.
module GraphCoding {
  import opened AssocList
  import opened GraphModel
  import Base64

  class ObjectGraphSerializer {
    const env: Env
    var nodeIndexMap: map<Value, nat>
    var nodes: seq<Node>

    constructor (env: Env)
      ensures this.env == env && State() == BLANK
    {
      this.env, nodeIndexMap, nodes := env, map[], [];
    }

    function State(): Writer
      reads this
    {
      Writer(nodeIndexMap, nodes)
    }

    static method Serialize(env: Env, value: Value) returns (graph: Option<Graph>)
      ensures graph == ToGraph(env, value)
    {
      var serializer := new ObjectGraphSerializer(env);
      var root := serializer.GetOrCreateNodeIndex(value);
      graph := if root.None? then None else Some(Graph(root.value, serializer.nodes));
    }

    /** None stands for a thrown error, which ends the serialization. */
    method GetOrCreateNodeIndex(value: Value) returns (index: Option<nat>)
      modifies this
      ensures Indexed(index, State()) == IndexOf(env, value, old(State()))
      decreases value, 1
    {
      if value in nodeIndexMap { return Some(nodeIndexMap[value]); }
      var node;
      match value {
        case Bytes(b) =>
          var text := Base64.Base64Encode(b);
          node := Encoded(text);
        case Box(_, shape, parts) =>
          if !HasMetadata(env, shape) { return None; }
          var data := CreateData(parts, Kinds(env, shape, |parts|));
          if data.None? { return None; }
          node := Compound(shape, data.value);
        case _ => node := Leaf(value);
      }
      var nodeIndex := |nodes|;
      nodes := nodes + [node];
      nodeIndexMap := nodeIndexMap[value := nodeIndex];
      return Some(nodeIndex);
    }

    /** CreateArrayData, CreateMapData, and the loop over the fields of an object. */
    method CreateData(parts: seq<Value>, kinds: seq<FieldKind>) returns (data: Option<seq<Slot>>)
      modifies this
      ensures Slotted(data, State()) == SlotsOf(env, parts, kinds, old(State()))
      decreases parts, 0
    {
      ghost var s := State();
      var slots: seq<Slot> := [];
      var i := 0;
      NothingBefore(SlotsOf(env, parts, kinds, s));
      while i < |parts| && i < |kinds|
        invariant i <= |parts| && i <= |kinds|
        invariant SlotsOf(env, parts, kinds, s) == After(slots, SlotsOf(env, parts[i..], kinds[i..], State()))
      {
        assert parts[i..][1..] == parts[i + 1..] && kinds[i..][1..] == kinds[i + 1..];
        var slot;
        if kinds[i] != Dynamic {
          slot := Inline(InPlace(kinds[i], parts[i]));
        } else {
          var index := GetOrCreateNodeIndex(parts[i]);
          if index.None? { return None; }
          slot := Child(index.value);
        }
        OneMore(slots, slot, SlotsOf(env, parts[i + 1..], kinds[i + 1..], State()));
        slots := slots + [slot];
        i := i + 1;
      }
      assert slots + [] == slots;
      return Some(slots);
    }
  }

  function After(before: seq<Slot>, r: Slotted): Slotted {
    if r.slots.None? then r else Slotted(Some(before + r.slots.value), r.state)
  }

  lemma NothingBefore(r: Slotted)
    ensures After([], r) == r
  {
    if r.slots.Some? { assert [] + r.slots.value == r.slots.value; }
  }

  lemma OneMore(before: seq<Slot>, slot: Slot, r: Slotted)
    ensures After(before, Cons(slot, r)) == After(before + [slot], r)
  {
    if r.slots.Some? { assert before + ([slot] + r.slots.value) == before + [slot] + r.slots.value; }
  }

  class ObjectGraphDeserializer {
    const env: Env
    const nodes: seq<Node>
    var decodedNodes: seq<Value>
    var decodedNullIndex: int
    var created: nat  // identities handed out so far

    constructor (env: Env, nodes: seq<Node>)
      ensures this.env == env && this.nodes == nodes
      ensures State() == Reader(seq(|nodes|, _ => Null), -1, 0)
    {
      this.env, this.nodes := env, nodes;
      decodedNodes, decodedNullIndex, created := seq(|nodes|, _ => Null), -1, 0;
    }

    function State(): Reader
      reads this
    {
      Reader(decodedNodes, decodedNullIndex, created)
    }

    predicate Valid()
      reads this
    {
      |decodedNodes| == |nodes|
    }

    static method Deserialize(env: Env, graph: Graph) returns (value: Option<Value>)
      requires Acyclic(graph.nodes) && TextsInTable(graph.nodes) && 0 <= graph.root < |graph.nodes|
      ensures value == FromGraph(env, graph)
    {
      var deserializer := new ObjectGraphDeserializer(env, graph.nodes);
      value := deserializer.GetOrDecodeNode(graph.root);
    }

    method GetOrDecodeNode(nodeIndex: nat) returns (value: Option<Value>)
      requires Valid() && Acyclic(nodes) && TextsInTable(nodes) && nodeIndex < |nodes|
      modifies this
      ensures Valid() && Decoded(value, State()) == Decode(env, nodes, nodeIndex, old(State()))
      decreases RankOf(nodes)[nodeIndex], 1
    {
      if nodeIndex == decodedNullIndex { return Some(Null); }
      if decodedNodes[nodeIndex] != Null { return Some(decodedNodes[nodeIndex]); }
      value := DecodeNode(nodeIndex);
      if value.None? { return; }
      decodedNodes := decodedNodes[nodeIndex := value.value];
      if value.value == Null { decodedNullIndex := nodeIndex; }
    }

    /** A new value from a node; a created object takes the next identity. */
    method DecodeNode(i: nat) returns (value: Option<Value>)
      requires Valid() && Acyclic(nodes) && TextsInTable(nodes) && i < |nodes|
      requires i != decodedNullIndex && decodedNodes[i] == Null
      modifies this
      ensures Valid()
      ensures var r := Decode(env, nodes, i, old(State()));
              if value.None? then r == Decoded(None, State()) else r == Store(i, value.value, State())
      decreases RankOf(nodes)[i], 0
    {
      match nodes[i] {
        case Leaf(v) => return Some(v);
        case Encoded(t) =>
          var ok, bytes := Base64.Base64Decode(t);
          if !ok { return None; }
          return Some(Bytes(bytes));
        case Compound(shape, slots) =>
          if !CanCreate(env, shape) { return None; }
          var id := created;
          created := created + 1;
          var parts := DecodeData(i, slots, Kinds(env, shape, |slots|));
          if parts.None? { return None; }
          if !shape.MapOf? { return Some(Box(id, shape, parts.value)); }
          if |parts.value| % 2 != 0 { return None; }
          var entries := SetAll(parts.value);
          return Some(Box(id, shape, Flat(entries)));
      }
    }

    method DecodeData(n: nat, slots: seq<Slot>, kinds: seq<FieldKind>) returns (parts: Option<seq<Value>>)
      requires Valid() && Acyclic(nodes) && TextsInTable(nodes) && n < |nodes| && ChildrenRanked(nodes, slots, n)
      modifies this
      ensures Valid() && DecodedParts(parts, State()) == DecodeParts(env, nodes, n, slots, kinds, old(State()))
      decreases RankOf(nodes)[n], 0, |slots|
    {
      ghost var s := State();
      var done: seq<Value> := [];
      var i := 0;
      NoneDecoded(DecodeParts(env, nodes, n, slots, kinds, s));
      while i < |slots| && i < |kinds|
        invariant Valid() && i <= |slots| && i <= |kinds| && ChildrenRanked(nodes, slots[i..], n)
        invariant DecodeParts(env, nodes, n, slots, kinds, s)
              == Ahead(done, DecodeParts(env, nodes, n, slots[i..], kinds[i..], State()))
      {
        assert slots[i..][1..] == slots[i + 1..] && kinds[i..][1..] == kinds[i + 1..];
        if slots[i].Child? != (kinds[i] == Dynamic) { return None; }
        var v;
        if slots[i].Child? {
          var got := GetOrDecodeNode(slots[i].index);
          if got.None? { return None; }
          v := got.value;
        } else {
          v := InPlace(kinds[i], slots[i].value);
        }
        OneDecoded(done, v, DecodeParts(env, nodes, n, slots[i + 1..], kinds[i + 1..], State()));
        done := done + [v];
        i := i + 1;
      }
      if i < |slots| || i < |kinds| { return None; }
      assert done + [] == done;
      return Some(done);
    }
  }

  /** Base64 texts stay inside the decode table. */
  predicate TextsInTable(nodes: seq<Node>) {
    forall i :: 0 <= i < |nodes| && nodes[i].Encoded? ==> InTable(nodes[i].text)
  }

  predicate InTable(t: string) { forall k :: 0 <= k < |t| ==> t[k] <= 'z' }

  function Ahead(before: seq<Value>, r: DecodedParts): DecodedParts {
    if r.parts.None? then r else DecodedParts(Some(before + r.parts.value), r.state)
  }

  lemma NoneDecoded(r: DecodedParts)
    ensures Ahead([], r) == r
  {
    if r.parts.Some? { assert [] + r.parts.value == r.parts.value; }
  }

  lemma OneDecoded(before: seq<Value>, v: Value, r: DecodedParts)
    ensures Ahead(before, if r.parts.None? then r else DecodedParts(Some([v] + r.parts.value), r.state))
          == Ahead(before + [v], r)
  {
    if r.parts.Some? { assert before + ([v] + r.parts.value) == before + [v] + r.parts.value; }
  }

  /** The loop of DecodeMapData, on keys and values already decoded. */
  method SetAll(parts: seq<Value>) returns (entries: seq<(Value, Value)>)
    requires |parts| % 2 == 0
    ensures entries == SetPairs([], parts)
  {
    entries := [];
    var i := 0;
    while i < |parts|
      invariant i <= |parts| && i % 2 == 0 && SetPairs(entries, parts[i..]) == SetPairs([], parts)
    {
      assert parts[i..][2..] == parts[i + 2..];
      entries := SetEntry(entries, parts[i], parts[i + 1]);
      i := i + 2;
    }
  }
}
