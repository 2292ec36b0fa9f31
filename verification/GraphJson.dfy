// The graph format as JSON text: ToJSONGraphString and FromJSONGraphString.
module GraphJson {
  import opened AssocList
  import G = GraphModel
  import GraphLaw
  import Base64
  import J = JsonText
  import JsonLaw

  /** Field names by type key, in the order of the field kinds. */
  type Names = string -> seq<string>

  const BUILTIN: set<string> := {"None", "bool", "int", "float", "ffi.String", "ffi.Bytes", "ffi.Array", "ffi.Map"}

  // ------------------------------------------------------------------ writing

  function LeafJson(v: G.Value): J.Json {
    match v
    case Bool(b) => J.Bool(b)
    case Int(n) => J.Int(n)
    case Float(bits) => J.Float(bits)
    case Str(s) => J.Str(s)
    case _ => J.Null
  }

  function SlotJson(s: G.Slot): J.Json {
    match s
    case Inline(v) => LeafJson(v)
    case Child(i) => J.Int(i)
  }

  function SlotsJson(slots: seq<G.Slot>): (r: seq<J.Json>)
    ensures |r| == |slots| && forall i :: 0 <= i < |slots| ==> r[i] == SlotJson(slots[i])
  {
    seq(|slots|, i requires 0 <= i < |slots| => SlotJson(slots[i]))
  }

  function Tagged(typeKey: string, data: J.Json): J.Json { J.Obj(["type", "data"], [J.Str(typeKey), data]) }

  function NodeJson(names: Names, node: G.Node): J.Json {
    match node
    case Leaf(v) =>
      (match v
       case Null => J.Obj(["type"], [J.Str("None")])
       case Bool(_) => Tagged("bool", LeafJson(v))
       case Int(_) => Tagged("int", LeafJson(v))
       case Float(_) => Tagged("float", LeafJson(v))
       case _ => Tagged("ffi.String", LeafJson(v)))
    case Encoded(text) => Tagged("ffi.Bytes", J.Str(text))
    case Compound(shape, slots) =>
      (match shape
       case ArrayOf => Tagged("ffi.Array", J.Arr(SlotsJson(slots)))
       case MapOf => Tagged("ffi.Map", J.Arr(SlotsJson(slots)))
       case ObjectOf(t) => Tagged(t, J.Obj(names(t), SlotsJson(slots))))
  }

  function NodesJson(names: Names, nodes: seq<G.Node>): (r: seq<J.Json>)
    ensures |r| == |nodes| && forall i :: 0 <= i < |nodes| ==> r[i] == NodeJson(names, nodes[i])
  {
    seq(|nodes|, i requires 0 <= i < |nodes| => NodeJson(names, nodes[i]))
  }

  function GraphToJson(names: Names, g: G.Graph): J.Json {
    J.Obj(["root_index", "nodes"], [J.Int(g.root), J.Arr(NodesJson(names, g.nodes))])
  }

  // ------------------------------------------------------------------ reading

  /** Map::find by a string key. */
  function Field(j: J.Json, key: string): Option<J.Json> {
    if j.Obj? && |j.keys| == |j.values| then FieldFrom(j.keys, j.values, key) else None
  }

  function FieldFrom(keys: seq<string>, values: seq<J.Json>, key: string): Option<J.Json>
    requires |keys| == |values|
  {
    if keys == [] then None else if keys[0] == key then Some(values[0]) else FieldFrom(keys[1..], values[1..], key)
  }

  /** The casts to bool, int64_t and double, which convert between these. */
  function AsBool(j: J.Json): Option<bool> {
    match j
    case Bool(b) => Some(b)
    case Int(n) => Some(n != 0)
    case _ => None
  }

  function AsInt(j: J.Json): Option<int> {
    match j
    case Bool(b) => Some(if b then 1 else 0)
    case Int(n) => Some(n)
    case _ => None
  }

  function AsFloat(p: J.Platform, j: J.Json): Option<nat> {
    if j.Float? then Some(j.bits) else if AsInt(j).Some? then Some(p.toDouble(AsInt(j).value)) else None
  }

  function SlotFrom(p: J.Platform, kind: G.FieldKind, j: J.Json): Option<G.Slot> {
    match kind
    case StaticNull => Some(G.Inline(G.Null))
    case StaticBool => if AsBool(j).Some? then Some(G.Inline(G.Bool(AsBool(j).value))) else None
    case StaticInt => if AsInt(j).Some? then Some(G.Inline(G.Int(AsInt(j).value))) else None
    case StaticFloat => if AsFloat(p, j).Some? then Some(G.Inline(G.Float(AsFloat(p, j).value))) else None
    case Dynamic => if AsInt(j).Some? && AsInt(j).value >= 0 then Some(G.Child(AsInt(j).value)) else None
  }

  function SlotsFrom(p: J.Platform, kinds: seq<G.FieldKind>, js: seq<J.Json>): Option<seq<G.Slot>>
    requires |kinds| == |js|
  {
    if js == [] then Some([])
    else
      var s, rest := SlotFrom(p, kinds[0], js[0]), SlotsFrom(p, kinds[1..], js[1..]);
      if s.None? || rest.None? then None else Some([s.value] + rest.value)
  }

  /** The stored values of the named fields, in order; a missing one is an error. */
  function Gather(j: J.Json, names: seq<string>): Option<seq<J.Json>> {
    if names == [] then Some([])
    else
      var v, rest := Field(j, names[0]), Gather(j, names[1..]);
      if v.None? || rest.None? then None else Some([v.value] + rest.value)
  }

  function CompoundFrom(p: J.Platform, shape: G.Shape, kinds: seq<G.FieldKind>, js: seq<J.Json>): Option<G.Node> {
    if |kinds| != |js| || SlotsFrom(p, kinds, js).None? then None
    else Some(G.Compound(shape, SlotsFrom(p, kinds, js).value))
  }

  function NodeFrom(p: J.Platform, env: G.Env, names: Names, j: J.Json): Option<G.Node> {
    var t, d := Field(j, "type"), Field(j, "data");
    if t.None? || !t.value.Str? then None
    else
      var key := t.value.text;
      if key == "None" then Some(G.Leaf(G.Null))
      else if d.None? then None
      else
        var data := d.value;
        if key == "bool" then (if AsBool(data).Some? then Some(G.Leaf(G.Bool(AsBool(data).value))) else None)
        else if key == "int" then (if AsInt(data).Some? then Some(G.Leaf(G.Int(AsInt(data).value))) else None)
        else if key == "float" then
          (if AsFloat(p, data).Some? then Some(G.Leaf(G.Float(AsFloat(p, data).value))) else None)
        else if key == "ffi.String" then (if data.Str? then Some(G.Leaf(G.Str(data.text))) else None)
        else if key == "ffi.Bytes" then (if data.Str? then Some(G.Encoded(data.text)) else None)
        else if key == "ffi.Array" then
          (if data.Arr? then CompoundFrom(p, G.ArrayOf, G.AllDynamic(|data.items|), data.items) else None)
        else if key == "ffi.Map" then
          (if data.Arr? then CompoundFrom(p, G.MapOf, G.AllDynamic(|data.items|), data.items) else None)
        else if env.types(key).None? || Gather(data, names(key)).None? then None
        else CompoundFrom(p, G.ObjectOf(key), env.types(key).value.kinds, Gather(data, names(key)).value)
  }

  function NodesFrom(p: J.Platform, env: G.Env, names: Names, js: seq<J.Json>): Option<seq<G.Node>> {
    if js == [] then Some([])
    else
      var n, rest := NodeFrom(p, env, names, js[0]), NodesFrom(p, env, names, js[1..]);
      if n.None? || rest.None? then None else Some([n.value] + rest.value)
  }

  function GraphFrom(p: J.Platform, env: G.Env, names: Names, j: J.Json): Option<G.Graph> {
    var r, n := Field(j, "root_index"), Field(j, "nodes");
    if r.None? || !r.value.Int? || n.None? || !n.value.Arr? then None
    else
      var nodes := NodesFrom(p, env, names, n.value.items);
      if nodes.None? then None else Some(G.Graph(r.value.number, nodes.value))
  }

  function ToString(env: G.Env, names: Names, p: J.Platform, v: G.Value): Option<string> {
    var g := G.ToGraph(env, v);
    if g.None? then None else Some(J.Stringify(p, GraphToJson(names, g.value), 0))
  }

  /** Texts whose nodes refer to each other in a cycle or to no node, or whose root is no node, are not modelled. */
  ghost function FromString(env: G.Env, names: Names, p: J.Platform, text: string): Option<G.Value> {
    var j := J.Parse(p, text);
    if j.None? then None
    else
      var g := GraphFrom(p, env, names, j.value);
      if g.None? || !G.Acyclic(g.value.nodes) || !(0 <= g.value.root < |g.value.nodes|) then None
      else G.FromGraph(env, g.value)
  }

  // ---------------------------------------------------------------- the values

  /** The type key and field names of an object type fit the format and the platform. */
  predicate Registered(env: G.Env, names: Names, p: J.Platform, t: string) {
    && t !in BUILTIN && JsonLaw.Carries(p, t) && env.types(t).Some? && |names(t)| == |env.types(t).value.kinds|
    && (forall i :: 0 <= i < |names(t)| ==> JsonLaw.Carries(p, names(t)[i]))
    && (forall i, j :: 0 <= i < j < |names(t)| ==> names(t)[i] != names(t)[j])
  }

  /** Values whose leaves survive JSON text on this platform. */
  predicate Sendable(env: G.Env, names: Names, p: J.Platform, v: G.Value) {
    match v
    case Null => true
    case Bool(_) => true
    case Int(n) => J.INT64_MIN <= n <= J.INT64_MAX
    case Float(bits) => JsonLaw.FloatCarried(p, bits)
    case Str(s) => JsonLaw.Carries(p, s)
    case Bytes(_) => true
    case Box(_, shape, parts) =>
      && (shape.ObjectOf? ==> Registered(env, names, p, shape.typeKey))
      && forall i :: 0 <= i < |parts| ==> Sendable(env, names, p, parts[i])
  }

  /** A node that can be printed and told apart again. */
  predicate GoodNode(env: G.Env, names: Names, p: J.Platform, node: G.Node) {
    match node
    case Leaf(v) => !v.Box? && !v.Bytes? && Sendable(env, names, p, v)
    case Encoded(text) => JsonLaw.Carries(p, text)
    case Compound(shape, slots) =>
      && (shape.ObjectOf? ==> Registered(env, names, p, shape.typeKey))
      && |G.Kinds(env, shape, |slots|)| == |slots|
      && forall k :: 0 <= k < |slots| ==> GoodSlot(env, names, p, G.Kinds(env, shape, |slots|)[k], slots[k])
  }

  predicate GoodSlot(env: G.Env, names: Names, p: J.Platform, kind: G.FieldKind, slot: G.Slot) {
    match slot
    case Inline(v) => kind != G.Dynamic && G.Typed(kind, v) && Sendable(env, names, p, v)
    case Child(_) => kind == G.Dynamic
  }

  ghost predicate GoodNodes(env: G.Env, names: Names, p: J.Platform, nodes: seq<G.Node>) {
    forall i :: 0 <= i < |nodes| ==> GoodNode(env, names, p, nodes[i])
  }

  // --------------------------------------------------------- one node and back

  lemma {:induction false} SlotsAgain(env: G.Env, names: Names, p: J.Platform, kinds: seq<G.FieldKind>,
          slots: seq<G.Slot>, js: seq<J.Json>)
    requires |kinds| == |slots| == |js| && forall k :: 0 <= k < |slots| ==> js[k] == SlotJson(slots[k])
    requires forall k :: 0 <= k < |slots| ==> GoodSlot(env, names, p, kinds[k], slots[k])
    ensures SlotsFrom(p, kinds, js) == Some(slots)
  {
    if slots != [] {
      SlotsAgain(env, names, p, kinds[1..], slots[1..], js[1..]);
      assert GoodSlot(env, names, p, kinds[0], slots[0]) && js[0] == SlotJson(slots[0]);
      assert slots == [slots[0]] + slots[1..];
    }
  }

  lemma {:induction false} FieldAt(keys: seq<string>, values: seq<J.Json>, i: nat)
    requires |keys| == |values| && i < |keys| && forall a, b :: 0 <= a < b < |keys| ==> keys[a] != keys[b]
    ensures FieldFrom(keys, values, keys[i]) == Some(values[i])
  {
    if i > 0 {
      FieldAt(keys[1..], values[1..], i - 1);
    }
  }

  lemma {:induction false} GatherAgain(j: J.Json, i: nat)
    requires j.Obj? && |j.keys| == |j.values| && i <= |j.keys|
    requires forall a, b :: 0 <= a < b < |j.keys| ==> j.keys[a] != j.keys[b]
    ensures Gather(j, j.keys[i..]) == Some(j.values[i..])
    decreases |j.keys| - i
  {
    if i < |j.keys| {
      FieldAt(j.keys, j.values, i);
      GatherAgain(j, i + 1);
      assert j.keys[i..][0] == j.keys[i] && j.keys[i..][1..] == j.keys[i + 1..];
      assert j.values[i..] == [j.values[i]] + j.values[i + 1..];
    } else {
      assert j.keys[i..] == [] && j.values[i..] == [];
    }
  }

  lemma TaggedFields(t: string, data: J.Json)
    ensures Field(Tagged(t, data), "type") == Some(J.Str(t)) && Field(Tagged(t, data), "data") == Some(data)
  {
    assert "type" != "data" by { assert "type"[0] != "data"[0]; }
    FieldAt(["type", "data"], [J.Str(t), data], 0);
    FieldAt(["type", "data"], [J.Str(t), data], 1);
  }

  lemma {:induction false} NodeAgain(env: G.Env, names: Names, p: J.Platform, node: G.Node)
    requires GoodNode(env, names, p, node)
    ensures NodeFrom(p, env, names, NodeJson(names, node)) == Some(node)
  {
    hide FieldFrom, Gather, SlotsFrom, SlotsJson;
    match node {
      case Leaf(v) =>
        LeafAgain(env, names, p, v);
      case Encoded(text) =>
        TaggedFields("ffi.Bytes", J.Str(text));
        KeysDiffer();
      case Compound(shape, slots) =>
        CompoundAgain(env, names, p, shape, slots);
    }
  }

  /** The type keys of the format are eight different words. */
  lemma KeysDiffer()
    ensures |"None"| == 4 && |"bool"| == 4 && |"int"| == 3 && |"float"| == 5
    ensures |"ffi.String"| == 10 && |"ffi.Bytes"| == 9 && |"ffi.Array"| == 9 && |"ffi.Map"| == 7
    ensures "None"[0] == 'N' && "bool"[0] == 'b' && "ffi.Bytes"[4] == 'B' && "ffi.Array"[4] == 'A'
  {
  }

  lemma {:induction false} LeafAgain(env: G.Env, names: Names, p: J.Platform, v: G.Value)
    requires GoodNode(env, names, p, G.Leaf(v))
    ensures NodeFrom(p, env, names, NodeJson(names, G.Leaf(v))) == Some(G.Leaf(v))
  {
    hide Gather, SlotsFrom;
    KeysDiffer();
    match v {
      case Null => FieldAt(["type"], [J.Str("None")], 0);
      case Bool(_) => TaggedFields("bool", LeafJson(v));
      case Int(_) => TaggedFields("int", LeafJson(v));
      case Float(_) => TaggedFields("float", LeafJson(v));
      case Str(_) => TaggedFields("ffi.String", LeafJson(v));
    }
  }

  lemma {:induction false} CompoundAgain(env: G.Env, names: Names, p: J.Platform, shape: G.Shape, slots: seq<G.Slot>)
    requires GoodNode(env, names, p, G.Compound(shape, slots))
    ensures NodeFrom(p, env, names, NodeJson(names, G.Compound(shape, slots))) == Some(G.Compound(shape, slots))
  {
    hide FieldFrom, Gather, SlotsFrom;
    KeysDiffer();
    SlotsAgain(env, names, p, G.Kinds(env, shape, |slots|), slots, SlotsJson(slots));
    match shape {
      case ArrayOf => TaggedFields("ffi.Array", J.Arr(SlotsJson(slots)));
      case MapOf => TaggedFields("ffi.Map", J.Arr(SlotsJson(slots)));
      case ObjectOf(t) =>
        var data := J.Obj(names(t), SlotsJson(slots));
        TaggedFields(t, data);
        GatherAgain(data, 0);
        assert data.keys[0..] == names(t) && data.values[0..] == SlotsJson(slots);
    }
  }

  lemma {:induction false} NodesAgain(env: G.Env, names: Names, p: J.Platform, nodes: seq<G.Node>, js: seq<J.Json>)
    requires GoodNodes(env, names, p, nodes) && |js| == |nodes|
    requires forall i :: 0 <= i < |nodes| ==> js[i] == NodeJson(names, nodes[i])
    ensures NodesFrom(p, env, names, js) == Some(nodes)
  {
    hide NodeFrom, NodeJson, GoodNode;
    if nodes != [] {
      NodeAgain(env, names, p, nodes[0]);
      NodesAgain(env, names, p, nodes[1..], js[1..]);
      assert nodes == [nodes[0]] + nodes[1..];
    }
  }

  lemma {:induction false} GraphAgain(env: G.Env, names: Names, p: J.Platform, g: G.Graph)
    requires GoodNodes(env, names, p, g.nodes)
    ensures GraphFrom(p, env, names, GraphToJson(names, g)) == Some(g)
  {
    hide NodesFrom, GoodNodes;
    var keys, values := ["root_index", "nodes"], [J.Int(g.root), J.Arr(NodesJson(names, g.nodes))];
    assert "root_index" != "nodes" by { assert "root_index"[0] != "nodes"[0]; }
    FieldAt(keys, values, 0);
    FieldAt(keys, values, 1);
    NodesAgain(env, names, p, g.nodes, NodesJson(names, g.nodes));
  }

  // ----------------------------------------------------- the nodes are good

  lemma {:induction false} TextCarried(p: J.Platform, b: G.ByteString)
    ensures JsonLaw.Carries(p, Base64.Encode(b))
  {
    Base64.RoundTrip(b);
  }

  lemma PushGood(env: G.Env, names: Names, p: J.Platform, v: G.Value, node: G.Node, s: G.Writer)
    requires GoodNodes(env, names, p, s.nodes) && GoodNode(env, names, p, node)
    ensures GoodNodes(env, names, p, G.Push(v, node, s).state.nodes)
  {
  }

  lemma {:induction false} IndexGood(env: G.Env, names: Names, p: J.Platform, v: G.Value, s: G.Writer)
    requires GoodNodes(env, names, p, s.nodes) && G.Supported(env, v) && Sendable(env, names, p, v)
    ensures GoodNodes(env, names, p, G.IndexOf(env, v, s).state.nodes)
    decreases v, 1
  {
    hide GoodNodes, G.SlotsOf;
    if v !in s.index {
      match v {
        case Box(_, shape, parts) =>
          var kinds := G.Kinds(env, shape, |parts|);
          SlotsGood(env, names, p, parts, kinds, s);
          var r := G.SlotsOf(env, parts, kinds, s);
          if r.slots.Some? { PushGood(env, names, p, v, G.Compound(shape, r.slots.value), r.state); }
        case Bytes(b) =>
          TextCarried(p, b);
          PushGood(env, names, p, v, G.Encoded(Base64.Encode(b)), s);
        case _ => PushGood(env, names, p, v, G.Leaf(v), s);
      }
    }
  }

  ghost predicate Writable(env: G.Env, names: Names, p: J.Platform, parts: seq<G.Value>, kinds: seq<G.FieldKind>) {
    |parts| == |kinds| && forall k :: 0 <= k < |parts| ==>
      G.Typed(kinds[k], parts[k]) && G.Supported(env, parts[k]) && Sendable(env, names, p, parts[k])
  }

  ghost predicate GoodSlots(env: G.Env, names: Names, p: J.Platform, kinds: seq<G.FieldKind>, slots: seq<G.Slot>) {
    |slots| == |kinds| && forall k :: 0 <= k < |slots| ==> GoodSlot(env, names, p, kinds[k], slots[k])
  }

  lemma {:induction false} SlotsGood(env: G.Env, names: Names, p: J.Platform, parts: seq<G.Value>,
          kinds: seq<G.FieldKind>, s: G.Writer)
    requires GoodNodes(env, names, p, s.nodes) && Writable(env, names, p, parts, kinds)
    ensures var r := G.SlotsOf(env, parts, kinds, s);
            && GoodNodes(env, names, p, r.state.nodes)
            && (r.slots.Some? ==> GoodSlots(env, names, p, kinds, r.slots.value))
    decreases parts, 0
  {
    hide GoodNodes, G.IndexOf, GoodSlots, G.Supported, Sendable;
    if parts == [] {
      NoSlotsGood(env, names, p);
    } else if kinds[0] != G.Dynamic {
      var q := G.SlotsOf(env, parts[1..], kinds[1..], s);
      SlotsGood(env, names, p, parts[1..], kinds[1..], s);
      if q.slots.Some? { ConsGood(env, names, p, kinds, G.Inline(G.InPlace(kinds[0], parts[0])), q.slots.value); }
    } else {
      IndexGood(env, names, p, parts[0], s);
      var r := G.IndexOf(env, parts[0], s);
      if r.index.Some? {
        SlotsGood(env, names, p, parts[1..], kinds[1..], r.state);
        var q := G.SlotsOf(env, parts[1..], kinds[1..], r.state);
        if q.slots.Some? { ConsGood(env, names, p, kinds, G.Child(r.index.value), q.slots.value); }
      }
    }
  }

  lemma NoSlotsGood(env: G.Env, names: Names, p: J.Platform)
    ensures GoodSlots(env, names, p, [], [])
  {
  }

  lemma ConsGood(env: G.Env, names: Names, p: J.Platform, kinds: seq<G.FieldKind>, slot: G.Slot, slots: seq<G.Slot>)
    requires kinds != [] && GoodSlots(env, names, p, kinds[1..], slots) && GoodSlot(env, names, p, kinds[0], slot)
    ensures GoodSlots(env, names, p, kinds, [slot] + slots)
  {
    var all := [slot] + slots;
    forall k | 0 <= k < |all| ensures GoodSlot(env, names, p, kinds[k], all[k]) {
      if k > 0 { assert all[k] == slots[k - 1] && kinds[k] == kinds[1..][k - 1]; }
    }
  }

  // ------------------------------------------------------ the text prints back

  lemma {:induction false} SlotsPrintable(env: G.Env, names: Names, p: J.Platform, nodes: seq<G.Node>, i: nat)
    requires G.Descending(nodes) && i < |nodes| <= J.INT64_MAX && GoodNode(env, names, p, nodes[i])
    requires nodes[i].Compound?
    ensures JsonLaw.AllPrintable(p, SlotsJson(nodes[i].slots))
  {
    WordsCarried(p);
    var node := nodes[i];
    var js := SlotsJson(node.slots);
    forall k | 0 <= k < |js| ensures JsonLaw.Printable(p, js[k]) {
      assert GoodSlot(env, names, p, G.Kinds(env, node.shape, |node.slots|)[k], node.slots[k]);
    }
  }

  lemma {:induction false} NodePrintable(env: G.Env, names: Names, p: J.Platform, nodes: seq<G.Node>, i: nat)
    requires G.Descending(nodes) && i < |nodes| <= J.INT64_MAX && GoodNode(env, names, p, nodes[i])
    ensures JsonLaw.Printable(p, NodeJson(names, nodes[i]))
  {
    WordsCarried(p);
    KeysDiffer();
    var node := nodes[i];
    if node.Compound? { SlotsPrintable(env, names, p, nodes, i); }
  }

  lemma WordsCarried(p: J.Platform)
    ensures forall w :: w in BUILTIN + {"type", "data", "root_index", "nodes"} ==> JsonLaw.Carries(p, w)
    ensures "type" != "data" && "root_index" != "nodes"
  {
    assert "type"[0] != "data"[0] && "root_index"[0] != "nodes"[0];
  }

  lemma {:induction false} GraphPrintable(env: G.Env, names: Names, p: J.Platform, g: G.Graph)
    requires GoodNodes(env, names, p, g.nodes) && G.Descending(g.nodes) && 0 <= g.root < |g.nodes| <= J.INT64_MAX
    ensures JsonLaw.Printable(p, GraphToJson(names, g))
  {
    hide NodeJson;
    WordsCarried(p);
    forall i | 0 <= i < |g.nodes| ensures JsonLaw.Printable(p, NodesJson(names, g.nodes)[i]) {
      NodePrintable(env, names, p, g.nodes, i);
    }
  }

  /** FromJSONGraphString(ToJSONGraphString(v)) is v up to a renaming of its identities. */
  lemma {:induction false} StringRoundTrip(env: G.Env, names: Names, p: J.Platform, v: G.Value)
    returns (f: map<nat, nat>)
    requires G.Placed(env, v) && G.Supported(env, v) && Sendable(env, names, p, v)
    requires G.ToGraph(env, v).Some? ==> |G.ToGraph(env, v).value.nodes| <= J.INT64_MAX
    ensures ToString(env, names, p, v).Some?
    ensures FromString(env, names, p, ToString(env, names, p, v).value) == Some(G.Rename(f, v))
    ensures G.Injective(f) && G.Known(v, f)
  {
    hide G.IndexOf, G.Decode, NodesJson, NodesFrom, GoodNodes;
    f := GraphLaw.RoundTrip(env, v);
    BlankGood(env, names, p);
    IndexGood(env, names, p, v, G.BLANK);
    var g := G.ToGraph(env, v).value;
    GraphPrintable(env, names, p, g);
    JsonLaw.RoundTrip(p, GraphToJson(names, g), 0);
    GraphAgain(env, names, p, g);
  }

  lemma BlankGood(env: G.Env, names: Names, p: J.Platform)
    ensures GoodNodes(env, names, p, G.BLANK.nodes)
  {
  }
}
