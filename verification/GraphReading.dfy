// Which JSON texts are object graphs, and what they stand for.
module GraphReading {
  import opened AssocList
  import opened GraphJson
  import Base64
  import G = GraphModel
  import GraphMeaning
  import GrammarLaw
  import J = JsonText
  import JsonGrammar

  // ---------------------------------------------------------- part by part

  /** A key of an object has the first value listed for it; a parsed object lists each key once. */
  lemma {:induction false} FieldIsFirst(keys: seq<string>, values: seq<J.Json>, key: string)
    requires |keys| == |values|
    ensures FieldFrom(keys, values, key).Some? <==> key in keys
    ensures forall i :: 0 <= i < |keys| && keys[i] == key && key !in keys[..i] ==>
              FieldFrom(keys, values, key) == Some(values[i])
  {
    if keys != [] {
      FieldIsFirst(keys[1..], values[1..], key);
      assert key in keys <==> keys[0] == key || key in keys[1..];
      forall i | 0 < i < |keys| && keys[i] == key && key !in keys[..i]
        ensures keys[0] != key && key !in keys[1..][..i - 1]
      {
        assert keys[..i] == [keys[0]] + keys[1..][..i - 1];
      }
    }
  }

  /** The fields of an object are read in the order of its type, whatever their order in the text, and others do not
      matter. */
  lemma {:induction false} GatherEach(j: J.Json, names: seq<string>)
    ensures Gather(j, names).Some? <==> forall k :: 0 <= k < |names| ==> Field(j, names[k]).Some?
    ensures Gather(j, names).Some? ==>
              |Gather(j, names).value| == |names| &&
              forall k :: 0 <= k < |names| ==> Field(j, names[k]) == Some(Gather(j, names).value[k])
  {
    hide Field;
    if names != [] {
      GatherEach(j, names[1..]);
      if forall k :: 0 <= k < |names| ==> Field(j, names[k]).Some? {
        forall k | 0 <= k < |names[1..]| ensures Field(j, names[1..][k]).Some? {
          assert names[1..][k] == names[k + 1];
        }
      }
      if Gather(j, names).Some? {
        var rest := Gather(j, names[1..]).value;
        forall k | 0 <= k < |names| ensures Field(j, names[k]) == Some(Gather(j, names).value[k]) {
          if k > 0 { assert names[1..][k - 1] == names[k] && Gather(j, names).value[k] == rest[k - 1]; }
        }
      }
    }
  }

  lemma {:induction false} SlotsEach(p: J.Platform, kinds: seq<G.FieldKind>, js: seq<J.Json>)
    requires |kinds| == |js|
    ensures SlotsFrom(p, kinds, js).Some? <==> forall k :: 0 <= k < |js| ==> SlotFrom(p, kinds[k], js[k]).Some?
    ensures SlotsFrom(p, kinds, js).Some? ==>
              |SlotsFrom(p, kinds, js).value| == |js| &&
              forall k :: 0 <= k < |js| ==> SlotFrom(p, kinds[k], js[k]) == Some(SlotsFrom(p, kinds, js).value[k])
  {
    hide SlotFrom;
    if js != [] {
      SlotsEach(p, kinds[1..], js[1..]);
      if forall k :: 0 <= k < |js| ==> SlotFrom(p, kinds[k], js[k]).Some? {
        forall k | 0 <= k < |js[1..]| ensures SlotFrom(p, kinds[1..][k], js[1..][k]).Some? {
          assert js[1..][k] == js[k + 1] && kinds[1..][k] == kinds[k + 1];
        }
      }
      if SlotsFrom(p, kinds, js).Some? {
        var all, rest := SlotsFrom(p, kinds, js).value, SlotsFrom(p, kinds[1..], js[1..]).value;
        forall k | 0 <= k < |js| ensures SlotFrom(p, kinds[k], js[k]) == Some(all[k]) {
          if k > 0 { assert js[1..][k - 1] == js[k] && kinds[1..][k - 1] == kinds[k] && all[k] == rest[k - 1]; }
        }
      }
    }
  }

  lemma {:induction false} NodesEach(p: J.Platform, env: G.Env, names: Names, js: seq<J.Json>)
    ensures NodesFrom(p, env, names, js).Some? <==> forall k :: 0 <= k < |js| ==> NodeFrom(p, env, names, js[k]).Some?
    ensures NodesFrom(p, env, names, js).Some? ==>
              |NodesFrom(p, env, names, js).value| == |js| &&
              forall k :: 0 <= k < |js| ==>
                NodeFrom(p, env, names, js[k]) == Some(NodesFrom(p, env, names, js).value[k])
  {
    hide NodeFrom;
    if js != [] {
      NodesEach(p, env, names, js[1..]);
      if forall k :: 0 <= k < |js| ==> NodeFrom(p, env, names, js[k]).Some? {
        forall k | 0 <= k < |js[1..]| ensures NodeFrom(p, env, names, js[1..][k]).Some? {
          assert js[1..][k] == js[k + 1];
        }
      }
      if NodesFrom(p, env, names, js).Some? {
        var all, rest := NodesFrom(p, env, names, js).value, NodesFrom(p, env, names, js[1..]).value;
        forall k | 0 <= k < |js| ensures NodeFrom(p, env, names, js[k]) == Some(all[k]) {
          if k > 0 { assert js[1..][k - 1] == js[k] && all[k] == rest[k - 1]; }
        }
      }
    }
  }

  // ------------------------------------------------------------ whole texts

  lemma {:induction false} NodePlain(p: J.Platform, env: G.Env, names: Names, j: J.Json)
    requires NodeFrom(p, env, names, j).Some?
    ensures var n := NodeFrom(p, env, names, j).value;
            (n.Leaf? ==> !n.value.Box?) && (n.Compound? ==> GraphMeaning.PlainSlots(n.slots))
  {
    hide Field, Gather, SlotsFrom;
    var n := NodeFrom(p, env, names, j).value;
    if n.Compound? {
      var kinds, js := CompoundOf(p, env, names, j);
      SlotsEach(p, kinds, js);
      forall k | 0 <= k < |n.slots| && n.slots[k].Inline? ensures !n.slots[k].value.Box? {
        SlotPlain(p, kinds[k], js[k]);
      }
    }
  }

  lemma SlotPlain(p: J.Platform, kind: G.FieldKind, j: J.Json)
    requires SlotFrom(p, kind, j).Some?
    ensures SlotFrom(p, kind, j).value.Inline? ==> !SlotFrom(p, kind, j).value.value.Box?
  {
  }

  lemma CompoundOf(p: J.Platform, env: G.Env, names: Names, j: J.Json)
    returns (kinds: seq<G.FieldKind>, js: seq<J.Json>)
    requires NodeFrom(p, env, names, j).Some? && NodeFrom(p, env, names, j).value.Compound?
    ensures |kinds| == |js| && SlotsFrom(p, kinds, js) == Some(NodeFrom(p, env, names, j).value.slots)
  {
    hide Field, Gather, SlotsFrom;
    var data, node := Field(j, "data").value, NodeFrom(p, env, names, j).value;
    if node.shape.ObjectOf? {
      var key := Field(j, "type").value.text;
      kinds, js := env.types(key).value.kinds, Gather(data, names(key)).value;
    } else {
      kinds, js := G.AllDynamic(|data.items|), data.items;
    }
  }

  lemma {:induction false} GraphPlain(p: J.Platform, env: G.Env, names: Names, j: J.Json)
    requires GraphFrom(p, env, names, j).Some?
    ensures GraphMeaning.PlainNodes(GraphFrom(p, env, names, j).value.nodes)
  {
    hide NodeFrom, NodesFrom, Field;
    var js := Field(j, "nodes").value.items;
    NodesEach(p, env, names, js);
    var nodes := NodesFrom(p, env, names, js).value;
    forall i | 0 <= i < |nodes|
      ensures (nodes[i].Leaf? ==> !nodes[i].value.Box?) &&
              (nodes[i].Compound? ==> GraphMeaning.PlainSlots(nodes[i].slots))
    {
      NodePlain(p, env, names, js[i]);
    }
  }

  /** The text derives a JSON value that is an object graph, and w is what its root stands for. */
  ghost predicate StandsFor(env: G.Env, names: Names, p: J.Platform, text: string, d: JsonGrammar.Padded, j: J.Json,
          w: G.Value) {
    && JsonGrammar.Derives(p, d, text, j) && GraphFrom(p, env, names, j).Some?
    && var g := GraphFrom(p, env, names, j).value;
    && G.Acyclic(g.nodes) && 0 <= g.root < |g.nodes| && GraphMeaning.Meaning(env, g.nodes, g.root) == Some(w)
  }

  lemma ParsedFrom(p: J.Platform, text: string, d: JsonGrammar.Padded, j: J.Json)
    requires JsonGrammar.Derives(p, d, text, j)
    ensures J.Parse(p, text) == Some(j)
  {
    hide JsonGrammar.Derives, J.Parse;
    GrammarLaw.ParsesExactly(p, text, j);
  }

  lemma DerivedFrom(p: J.Platform, text: string, j: J.Json) returns (d: JsonGrammar.Padded)
    requires J.Parse(p, text) == Some(j)
    ensures JsonGrammar.Derives(p, d, text, j)
  {
    hide JsonGrammar.Derives, J.Parse;
    GrammarLaw.ParsesExactly(p, text, j);
    d :| JsonGrammar.Derives(p, d, text, j);
  }

  /** FromJSONGraphString reads exactly the texts that stand for a value, and yields this value with one new identity
      for every object node. */
  lemma {:induction false} TextMeans(env: G.Env, names: Names, p: J.Platform, text: string)
    returns (f: map<nat, nat>)
    ensures FromString(env, names, p, text).Some? <==> exists d, j, w :: StandsFor(env, names, p, text, d, j, w)
    ensures forall d, j, w :: StandsFor(env, names, p, text, d, j, w) ==>
              G.Injective(f) && G.Known(w, f) && FromString(env, names, p, text) == Some(G.Rename(f, w))
  {
    hide JsonGrammar.Derives, J.Parse, GraphFrom, GraphMeaning.Meaning, G.FromGraph, G.Known, G.Rename, G.Injective;
    var r := J.Parse(p, text);
    f := map[];
    forall d, j, w | StandsFor(env, names, p, text, d, j, w) ensures r == Some(j) {
      ParsedFrom(p, text, d, j);
    }
    if r.Some? && GraphFrom(p, env, names, r.value).Some? {
      var g := GraphFrom(p, env, names, r.value).value;
      GraphPlain(p, env, names, r.value);
      if G.Acyclic(g.nodes) && 0 <= g.root < |g.nodes| {
        f := GraphMeaning.DecodesExactly(env, g);
        if GraphMeaning.Meaning(env, g.nodes, g.root).Some? {
          var w := GraphMeaning.Meaning(env, g.nodes, g.root).value;
          var d := DerivedFrom(p, text, r.value);
          assert StandsFor(env, names, p, text, d, r.value, w);
        }
      }
    }
  }
}
