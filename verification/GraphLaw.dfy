// What is written describes every value once, bottom up; reading it back
// gives the same graph up to the identities of its objects.
module GraphLaw {
  import opened AssocList
  import opened GraphModel
  import Base64

  // ------------------------------------------------------- the node list

  /** Slot by slot: a static field in place, any other part by the index of its node, below n. */
  ghost predicate Listed(slots: seq<Slot>, parts: seq<Value>, kinds: seq<FieldKind>, index: map<Value, nat>, n: nat) {
    && |slots| == |parts| == |kinds|
    && forall k :: 0 <= k < |slots| ==>
         if kinds[k] == Dynamic then parts[k] in index && slots[k] == Child(index[parts[k]]) && index[parts[k]] < n
         else slots[k] == Inline(InPlace(kinds[k], parts[k]))
  }

  ghost predicate Describes(env: Env, node: Node, v: Value, index: map<Value, nat>, n: nat) {
    match v
    case Box(_, shape, parts) =>
      node.Compound? && node.shape == shape && Listed(node.slots, parts, Kinds(env, shape, |parts|), index, n)
    case Bytes(b) => node == Encoded(Base64.Encode(b))
    case _ => node == Leaf(v)
  }

  /** Every value that has been met has one node of its own, which describes it. */
  ghost predicate Written(env: Env, s: Writer) {
    && (forall v :: v in s.index ==>
          s.index[v] < |s.nodes| && Describes(env, s.nodes[s.index[v]], v, s.index, s.index[v]))
    && (forall u, v :: u in s.index && v in s.index && s.index[u] == s.index[v] ==> u == v)
    && Descending(s.nodes)
  }

  ghost predicate Sub<K(!new), V(!new)>(m: map<K, V>, n: map<K, V>) {
    forall x :: x in m ==> x in n && n[x] == m[x]
  }

  /** t has all of s, and more only of height at most h. */
  ghost predicate Extends(s: Writer, t: Writer, h: nat) {
    Sub(s.index, t.index) && s.nodes <= t.nodes && forall v :: v in t.index ==> v in s.index || Height(v) <= h
  }

  lemma ListedStays(slots: seq<Slot>, parts: seq<Value>, kinds: seq<FieldKind>, index: map<Value, nat>,
          bigger: map<Value, nat>, n: nat, m: nat)
    requires Listed(slots, parts, kinds, index, n) && Sub(index, bigger) && n <= m
    ensures Listed(slots, parts, kinds, bigger, m) && ChildrenBelow(slots, m)
  {
  }

  lemma DescribesStays(env: Env, node: Node, v: Value, index: map<Value, nat>, bigger: map<Value, nat>, n: nat)
    requires Describes(env, node, v, index, n) && Sub(index, bigger)
    ensures Describes(env, node, v, bigger, n)
  {
    if v.Box? { ListedStays(node.slots, v.parts, Kinds(env, v.shape, |v.parts|), index, bigger, n, n); }
  }

  /** A node appended for a value not met before. */
  lemma {:induction false} PushKeeps(env: Env, v: Value, node: Node, s: Writer)
    requires Written(env, s) && v !in s.index && Describes(env, node, v, s.index, |s.nodes|)
    ensures var r := Push(v, node, s); Written(env, r.state) && Extends(s, r.state, Height(v))
  {
    hide Describes;
    var t := Push(v, node, s).state;
    forall u | u in t.index
      ensures t.index[u] < |t.nodes| && Describes(env, t.nodes[t.index[u]], u, t.index, t.index[u])
    {
      DescribesStays(env, if u == v then node else s.nodes[s.index[u]], u, s.index, t.index, t.index[u]);
    }
    PushDescends(env, v, node, s);
  }

  lemma {:induction false} PushDescends(env: Env, v: Value, node: Node, s: Writer)
    requires Descending(s.nodes) && Describes(env, node, v, s.index, |s.nodes|)
    ensures Descending(s.nodes + [node])
  {
  }

  lemma {:induction false} IndexWrites(env: Env, v: Value, s: Writer)
    requires Written(env, s) && Supported(env, v)
    ensures var r := IndexOf(env, v, s);
            r.index.Some? && Written(env, r.state) && Extends(s, r.state, Height(v)) &&
            v in r.state.index && r.state.index[v] == r.index.value
    decreases v, 1
  {
    hide Written, SlotsOf, Listed;
    if v !in s.index {
      match v {
        case Box(_, shape, parts) =>
          SlotsWrite(env, parts, Kinds(env, shape, |parts|), s);
          var r := SlotsOf(env, parts, Kinds(env, shape, |parts|), s);
          PushKeeps(env, v, Compound(shape, r.slots.value), r.state);
          ExtendsTwice(s, r.state, IndexOf(env, v, s).state, HeightOfAll(parts), Height(v));
        case Bytes(b) => PushKeeps(env, v, Encoded(Base64.Encode(b)), s);
        case _ => PushKeeps(env, v, Leaf(v), s);
      }
    } else {
      ExtendsSelf(s, Height(v));
    }
  }

  lemma ExtendsSelf(s: Writer, h: nat)
    ensures Extends(s, s, h)
  {
  }

  lemma ExtendsTwice(s: Writer, t: Writer, u: Writer, h: nat, i: nat)
    requires Extends(s, t, h) && Extends(t, u, i)
    ensures Extends(s, u, Max(h, i))
  {
  }

  lemma ExtendsMore(s: Writer, t: Writer, h: nat, i: nat)
    requires Extends(s, t, h) && h <= i
    ensures Extends(s, t, i)
  {
  }

  ghost predicate AllSupported(env: Env, vs: seq<Value>) {
    forall k :: 0 <= k < |vs| ==> Supported(env, vs[k])
  }

  lemma {:induction false} SlotsWrite(env: Env, parts: seq<Value>, kinds: seq<FieldKind>, s: Writer)
    requires Written(env, s) && AllSupported(env, parts) && |parts| == |kinds|
    ensures var r := SlotsOf(env, parts, kinds, s);
            r.slots.Some? && Written(env, r.state) && Extends(s, r.state, HeightOfAll(parts)) &&
            Listed(r.slots.value, parts, kinds, r.state.index, |r.state.nodes|)
    decreases parts, 0
  {
    hide Written, Extends, IndexOf, Listed;
    var r := SlotsOf(env, parts, kinds, s);
    if parts == [] {
      ExtendsSelf(s, 0);
      ListedNil(r.state.index, |r.state.nodes|);
    } else if kinds[0] != Dynamic {
      SlotsWrite(env, parts[1..], kinds[1..], s);
      var q := SlotsOf(env, parts[1..], kinds[1..], s);
      ExtendsMore(s, r.state, HeightOfAll(parts[1..]), HeightOfAll(parts));
      ListedCons(Inline(InPlace(kinds[0], parts[0])), q.slots.value, parts, kinds, r.state.index, |r.state.nodes|);
    } else {
      IndexWrites(env, parts[0], s);
      var h := IndexOf(env, parts[0], s);
      SlotsWrite(env, parts[1..], kinds[1..], h.state);
      var q := SlotsOf(env, parts[1..], kinds[1..], h.state);
      ExtendsTwice(s, h.state, r.state, Height(parts[0]), HeightOfAll(parts[1..]));
      StillIndexed(env, parts[0], h.state, r.state, HeightOfAll(parts[1..]));
      ListedCons(Child(h.index.value), q.slots.value, parts, kinds, r.state.index, |r.state.nodes|);
    }
  }

  lemma ListedNil(index: map<Value, nat>, n: nat)
    ensures Listed([], [], [], index, n)
  {
  }

  lemma StillIndexed(env: Env, v: Value, s: Writer, t: Writer, h: nat)
    requires Written(env, s) && v in s.index && Extends(s, t, h)
    ensures v in t.index && t.index[v] == s.index[v] < |t.nodes|
  {
  }

  lemma ListedCons(slot: Slot, slots: seq<Slot>, parts: seq<Value>, kinds: seq<FieldKind>, index: map<Value, nat>,
          n: nat)
    requires parts != [] && kinds != [] && Listed(slots, parts[1..], kinds[1..], index, n)
    requires if kinds[0] == Dynamic then parts[0] in index && slot == Child(index[parts[0]]) && index[parts[0]] < n
             else slot == Inline(InPlace(kinds[0], parts[0]))
    ensures Listed([slot] + slots, parts, kinds, index, n)
  {
    var all := [slot] + slots;
    forall k | 0 <= k < |all|
      ensures if kinds[k] == Dynamic then parts[k] in index && all[k] == Child(index[parts[k]]) && index[parts[k]] < n
              else all[k] == Inline(InPlace(kinds[k], parts[k]))
    {
      if k > 0 {
        assert parts[1..][k - 1] == parts[k] && kinds[1..][k - 1] == kinds[k] && slots[k - 1] == all[k];
      }
    }
  }

  // --------------------------------------------------------------- renaming

  lemma {:induction false} RenameStays(v: Value, f: map<nat, nat>, g: map<nat, nat>)
    requires Known(v, f) && Sub(f, g)
    ensures Known(v, g) && Rename(g, v) == Rename(f, v)
  {
    if v.Box? { RenameAllStays(v.parts, f, g); }
  }

  ghost predicate AllKnown(vs: seq<Value>, f: map<nat, nat>) {
    forall k :: 0 <= k < |vs| ==> Known(vs[k], f)
  }

  lemma {:induction false} RenameAllStays(vs: seq<Value>, f: map<nat, nat>, g: map<nat, nat>)
    requires AllKnown(vs, f) && Sub(f, g)
    ensures AllKnown(vs, g) && RenameAll(g, vs) == RenameAll(f, vs)
  {
    forall k | 0 <= k < |vs| ensures Known(vs[k], g) && Rename(g, vs[k]) == Rename(f, vs[k]) {
      RenameStays(vs[k], f, g);
    }
  }

  /** Renamed keys are the same key exactly when they were. */
  lemma {:induction false} KeyRenamed(env: Env, a: Value, b: Value, f: map<nat, nat>)
    requires Known(a, f) && Known(b, f) && Injective(f)
    ensures SameKey(Rename(f, a), Rename(f, b)) <==> SameKey(a, b)
  {
  }

  // ----------------------------------------------------------- rebuilding maps

  /** Setting pairs with new keys one after the other lists them in that order. */
  lemma {:induction false} PairsAppended(es: seq<(Value, Value)>, parts: seq<Value>)
    requires |parts| % 2 == 0 && KeysDiffer(parts) && NewKeys(es, parts)
    ensures Flat(SetPairs(es, parts)) == Flat(es) + parts
    decreases |parts|
  {
    hide SetEntry, KeysDiffer, NewKeys, Flat;
    if |parts| >= 2 {
      var e := (parts[0], parts[1]);
      AppendNew(es, parts);
      DropTwo(parts);
      PairsAppended(es + [e], parts[2..]);
      FlatSnoc(es, e);
      assert Flat(es) + [e.0, e.1] + parts[2..] == Flat(es) + parts;
    } else {
      assert Flat(es) + parts == Flat(es);
    }
  }

  ghost predicate NewKeys(es: seq<(Value, Value)>, parts: seq<Value>) {
    forall i, j :: 0 <= i < |es| && 0 <= j < |parts| && j % 2 == 0 ==> !SameKey(es[i].0, parts[j])
  }

  lemma AppendNew(es: seq<(Value, Value)>, parts: seq<Value>)
    requires |parts| >= 2 && KeysDiffer(parts) && NewKeys(es, parts)
    ensures SetEntry(es, parts[0], parts[1]) == es + [(parts[0], parts[1])]
    ensures NewKeys(es + [(parts[0], parts[1])], parts[2..])
  {
    hide SameKey;
    assert Find(es, SameKey, parts[0]) == |es|;
    var more, rest := es + [(parts[0], parts[1])], parts[2..];
    forall i, j | 0 <= i < |more| && 0 <= j < |rest| && j % 2 == 0 ensures !SameKey(more[i].0, rest[j]) {
      assert rest[j] == parts[j + 2] && (j + 2) % 2 == 0;
    }
  }

  lemma DropTwo(parts: seq<Value>)
    requires |parts| >= 2 && KeysDiffer(parts)
    ensures KeysDiffer(parts[2..])
  {
    var rest := parts[2..];
    forall i, j | 0 <= i < j < |rest| && i % 2 == 0 && j % 2 == 0 ensures !SameKey(rest[i], rest[j]) {
      assert rest[i] == parts[i + 2] && rest[j] == parts[j + 2] && (i + 2) % 2 == 0 && (j + 2) % 2 == 0;
    }
  }

  lemma {:induction false} FlatSnoc(es: seq<(Value, Value)>, e: (Value, Value))
    ensures Flat(es + [e]) == Flat(es) + [e.0, e.1]
  {
    if es == [] {
      assert es + [e] == [e] && Flat([e][1..]) == [];
    } else {
      FlatSnoc(es[1..], e);
      assert (es + [e])[1..] == es[1..] + [e];
    }
  }

  lemma {:induction false} BuildRenamed(env: Env, v: Value, f: map<nat, nat>)
    requires v.Box? && Placed(env, v) && AllKnown(v.parts, f) && Injective(f)
    ensures Build(v.shape, RenameAll(f, v.parts)) == Some(RenameAll(f, v.parts))
  {
    if v.shape.MapOf? {
      var r := RenameAll(f, v.parts);
      forall i, j | 0 <= i < j < |r| && i % 2 == 0 && j % 2 == 0 ensures !SameKey(r[i], r[j]) {
        KeyRenamed(env, v.parts[i], v.parts[j], f);
      }
      PairsAppended([], r);
      assert Flat([]) + r == r;
    }
  }

  // ----------------------------------------------------------------- reading

  /** What has been decoded so far is the written graph with its identities renamed by f. */
  ghost predicate Matches(env: Env, s: Writer, f: map<nat, nat>, d: Reader) {
    && |d.decoded| == |s.nodes| && Injective(f)
    && (d.nullIndex != -1 ==> Null in s.index && d.nullIndex == s.index[Null])
    && Renamed(s, f, d) && AllMade(env, s, f, d)
  }

  ghost predicate Renamed(s: Writer, f: map<nat, nat>, d: Reader) {
    forall v :: v in s.index && s.index[v] < |d.decoded| && d.decoded[s.index[v]] != Null ==>
      Known(v, f) && d.decoded[s.index[v]] == Rename(f, v)
  }

  ghost predicate AllMade(env: Env, s: Writer, f: map<nat, nat>, d: Reader) {
    forall x :: x in f ==> f[x] < d.next && Made(env, s, x, d)
  }

  /** The object at x has been created. */
  ghost predicate Made(env: Env, s: Writer, x: nat, d: Reader)
  {
    var v := env.heap(x);
    v.Box? && v.id == x && v in s.index && s.index[v] < |d.decoded| && d.decoded[s.index[v]] != Null
  }

  /** From d to e: nothing decoded above n changes, new objects get new identities. */
  ghost predicate Progress(f: map<nat, nat>, d: Reader, g: map<nat, nat>, e: Reader, n: nat) {
    && Sub(f, g) && d.next <= e.next && |e.decoded| == |d.decoded|
    && (forall x :: x in g ==> x in f || g[x] >= d.next)
    && (forall i :: n <= i < |d.decoded| ==> e.decoded[i] == d.decoded[i])
  }

  lemma ProgressSelf(f: map<nat, nat>, d: Reader, n: nat)
    ensures Progress(f, d, f, d, n)
  {
  }

  lemma ProgressHigher(f: map<nat, nat>, d: Reader, g: map<nat, nat>, e: Reader, n: nat, m: nat)
    requires Progress(f, d, g, e, n) && n <= m
    ensures Progress(f, d, g, e, m)
  {
  }

  lemma SubOf(f: map<nat, nat>, d: Reader, g: map<nat, nat>, e: Reader, n: nat)
    requires Progress(f, d, g, e, n)
    ensures Sub(f, g)
  {
  }

  lemma ProgressTwice(f: map<nat, nat>, d: Reader, g: map<nat, nat>, e: Reader, h: map<nat, nat>, c: Reader, n: nat,
          m: nat)
    requires Progress(f, d, g, e, n) && Progress(g, e, h, c, m) && n <= m
    ensures Progress(f, d, h, c, m)
  {
  }

  /** A plain value has been decoded into its place. */
  lemma {:induction false} StorePlain(env: Env, s: Writer, v: Value, f: map<nat, nat>, d: Reader)
    requires Written(env, s) && Matches(env, s, f, d) && v in s.index && !v.Box?
    ensures var r := Store(s.index[v], v, d);
            Matches(env, s, f, r.state) && Progress(f, d, f, r.state, s.index[v] + 1)
  {
    hide Describes, Descending;
    var e := Store(s.index[v], v, d).state;
    forall x | x in f ensures Made(env, s, x, e) {
      assert Made(env, s, x, d);
      assert env.heap(x) != v;
    }
  }

  /** A box has been decoded: its parts under g, itself under the identity taken before them. */
  lemma {:induction false} StoreBox(env: Env, s: Writer, v: Value, f: map<nat, nat>, d: Reader, g: map<nat, nat>,
          e: Reader, w: Value)
    requires Written(env, s) && Matches(env, s, f, d) && v in s.index && v.Box? && Placed(env, v)
    requires d.decoded[s.index[v]] == Null
    requires Matches(env, s, g, e) && Progress(f, d.(next := d.next + 1), g, e, s.index[v]) && AllKnown(v.parts, g)
    requires w == Box(d.next, v.shape, RenameAll(g, v.parts))
    ensures var h := g[v.id := d.next];
            var r := Store(s.index[v], w, e).state;
            v.id !in g && Matches(env, s, h, r) && Progress(f, d, h, r, s.index[v] + 1) && Known(v, h) &&
                Rename(h, v) == w
  {
    hide Describes, Descending, Rename, RenameAll, Known;
    FreshIdentity(env, s, f, d, g, e, s.index[v]);
    NotYetMade(env, s, v, g, e);
    BoxRenamed(v, g, d.next);
    var h := g[v.id := d.next];
    var r := Store(s.index[v], w, e).state;
    BoxListed(env, s, v, g, e, d.next, w);
    BoxMade(env, s, v, g, e, d.next, w);
    hide Made, Renamed, AllMade, Placed;
  }

  lemma FreshIdentity(env: Env, s: Writer, f: map<nat, nat>, d: Reader, g: map<nat, nat>, e: Reader, n: nat)
    requires AllMade(env, s, f, d) && Progress(f, d.(next := d.next + 1), g, e, n)
    ensures forall x :: x in g ==> g[x] != d.next
  {
  }

  lemma NotYetMade(env: Env, s: Writer, v: Value, g: map<nat, nat>, e: Reader)
    requires AllMade(env, s, g, e) && v.Box? && Placed(env, v) && v in s.index
    requires s.index[v] < |e.decoded| && e.decoded[s.index[v]] == Null
    ensures v.id !in g
  {
    assert v.id in g ==> Made(env, s, v.id, e);
  }

  lemma {:induction false} BoxListed(env: Env, s: Writer, v: Value, g: map<nat, nat>, e: Reader, x: nat, w: Value)
    requires Written(env, s) && Renamed(s, g, e) && v in s.index && v.Box? && s.index[v] < |e.decoded| && v.id !in g
    requires Known(v, g[v.id := x]) && Rename(g[v.id := x], v) == w && w != Null
    ensures Renamed(s, g[v.id := x], Store(s.index[v], w, e).state)
  {
    hide Describes, Descending, Rename, RenameAll, Known;
    var h := g[v.id := x];
    var r := Store(s.index[v], w, e).state;
    forall u | u in s.index && s.index[u] < |r.decoded| && r.decoded[s.index[u]] != Null
      ensures Known(u, h) && r.decoded[s.index[u]] == Rename(h, u)
    {
      if u != v { RenameStays(u, g, h); }
    }
  }

  lemma {:induction false} BoxMade(env: Env, s: Writer, v: Value, g: map<nat, nat>, e: Reader, x: nat, w: Value)
    requires AllMade(env, s, g, e) && v in s.index && v.Box? && Placed(env, v) && s.index[v] < |e.decoded|
    requires x < e.next && w != Null
    ensures AllMade(env, s, g[v.id := x], Store(s.index[v], w, e).state)
  {
    var r := Store(s.index[v], w, e).state;
    forall y | y in g[v.id := x] ensures Made(env, s, y, r) {
      if y != v.id { assert Made(env, s, y, e); }
    }
  }

  lemma BoxRenamed(v: Value, g: map<nat, nat>, x: nat)
    requires v.Box? && AllKnown(v.parts, g) && v.id !in g
    ensures var h := g[v.id := x]; Known(v, h) && Rename(h, v) == Box(x, v.shape, RenameAll(g, v.parts))
  {
    RenameAllStays(v.parts, g, g[v.id := x]);
  }

  lemma {:induction false} DecodeMatches(env: Env, s: Writer, v: Value, f: map<nat, nat>,
          d: Reader) returns (g: map<nat, nat>)
    requires Written(env, s) && Matches(env, s, f, d) && v in s.index && Placed(env, v) && Supported(env, v)
    ensures var r := Decode(env, s.nodes, s.index[v], d);
            r.value == Some(Rename(g, v)) && Known(v, g) && Matches(env, s, g, r.state) &&
                Progress(f, d, g, r.state, s.index[v] + 1)
    decreases s.index[v], 1
  {
    hide Progress, AllMade, DecodeParts, Build, Listed;
    var i := s.index[v];
    var r := Decode(env, s.nodes, i, d);
    if i == d.nullIndex || d.decoded[i] != Null {
      g := f;
      ProgressSelf(f, d, i + 1);
    } else if v.Box? {
      g := DecodeBox(env, s, v, f, d);
    } else {
      g := f;
      if v.Bytes? { Base64.RoundTrip(v.data); }
      StorePlain(env, s, v, f, d);
    }
  }

  lemma {:induction false} DecodeBox(env: Env, s: Writer, v: Value, f: map<nat, nat>, d: Reader)
    returns (h: map<nat, nat>)
    requires Written(env, s) && Matches(env, s, f, d) && v in s.index && v.Box? && Placed(env, v) && Supported(env, v)
    requires s.index[v] != d.nullIndex && d.decoded[s.index[v]] == Null
    ensures var r := Decode(env, s.nodes, s.index[v], d);
            r.value == Some(Rename(h, v)) && Known(v, h) && Matches(env, s, h, r.state) &&
                Progress(f, d, h, r.state, s.index[v] + 1)
    decreases s.index[v], 0
  {
    hide Decode, DecodeParts, Build, Listed, Matches, Progress, Placed, Rename;
    var i := s.index[v];
    var d1 := d.(next := d.next + 1);
    var node := s.nodes[i];
    var kinds := Kinds(env, v.shape, |v.parts|);
    CountKept(env, s, v);
    NextMoved(env, s, f, d);
    PartsReadable(env, v);
    var g := DecodePartsMatch(env, s, i, node.slots, v.parts, kinds, f, d1);
    var q := DecodeParts(env, s.nodes, i, node.slots, kinds, d1);
    InjectiveOf(env, s, g, q.state);
    BuildRenamed(env, v, g);
    var w := Box(d.next, v.shape, RenameAll(g, v.parts));
    CompoundDecoded(env, s.nodes, i, v.shape, node.slots, d, RenameAll(g, v.parts));
    StoreBox(env, s, v, f, d, g, q.state, w);
    h := g[v.id := d.next];
  }

  lemma CountKept(env: Env, s: Writer, v: Value)
    requires Written(env, s) && v in s.index && v.Box?
    ensures var i := s.index[v];
            i < |s.nodes| && s.nodes[i].Compound? && s.nodes[i].shape == v.shape && |s.nodes[i].slots| == |v.parts| &&
            Listed(s.nodes[i].slots, v.parts, Kinds(env, v.shape, |v.parts|), s.index, i) &&
            ChildrenRanked(s.nodes, s.nodes[i].slots, i)
  {
    assert Describes(env, s.nodes[s.index[v]], v, s.index, s.index[v]);
  }

  lemma NextMoved(env: Env, s: Writer, f: map<nat, nat>, d: Reader)
    requires Matches(env, s, f, d)
    ensures Matches(env, s, f, d.(next := d.next + 1))
  {
    assert forall x :: x in f ==> Made(env, s, x, d) && Made(env, s, x, d.(next := d.next + 1));
  }

  lemma PartsReadable(env: Env, v: Value)
    requires v.Box? && Placed(env, v) && Supported(env, v)
    ensures Readable(env, v.parts, Kinds(env, v.shape, |v.parts|))
  {
  }

  lemma InjectiveOf(env: Env, s: Writer, g: map<nat, nat>, d: Reader)
    requires Matches(env, s, g, d)
    ensures Injective(g) && |d.decoded| == |s.nodes|
  {
  }

  lemma CompoundDecoded(env: Env, nodes: seq<Node>, i: nat, shape: Shape, slots: seq<Slot>, d: Reader,
          parts: seq<Value>)
    requires Acyclic(nodes) && i < |nodes| == |d.decoded| && nodes[i] == Compound(shape, slots)
    requires i != d.nullIndex && d.decoded[i] == Null && CanCreate(env, shape)
    requires var r := DecodeParts(env, nodes, i, slots, Kinds(env, shape, |slots|), d.(next := d.next + 1));
             r.parts.Some? && Build(shape, r.parts.value) == Some(parts)
    ensures var r := DecodeParts(env, nodes, i, slots, Kinds(env, shape, |slots|), d.(next := d.next + 1));
            Decode(env, nodes, i, d) == Store(i, Box(d.next, shape, parts), r.state)
  {
    hide DecodeParts, Build;
  }

  ghost predicate Readable(env: Env, parts: seq<Value>, kinds: seq<FieldKind>) {
    |parts| == |kinds| && forall k :: 0 <= k < |parts| ==>
      Typed(kinds[k], parts[k]) && Placed(env, parts[k]) && Supported(env, parts[k])
  }

  lemma {:induction false} DecodePartsMatch(env: Env, s: Writer, n: nat, slots: seq<Slot>, parts: seq<Value>,
          kinds: seq<FieldKind>, f: map<nat, nat>, d: Reader) returns (g: map<nat, nat>)
    requires Written(env, s) && Matches(env, s, f, d) && n < |s.nodes|
    requires Listed(slots, parts, kinds, s.index, n) && ChildrenRanked(s.nodes, slots, n) && Readable(env, parts, kinds)
    ensures var r := DecodeParts(env, s.nodes, n, slots, kinds, d);
            r.parts == Some(RenameAll(g, parts)) && AllKnown(parts, g) && Matches(env, s, g, r.state) &&
                Progress(f, d, g, r.state, n)
    decreases n, 0, |slots|
  {
    hide Progress, Matches, Decode, DecodeParts, Placed, Supported, Typed, Listed, Readable, Rename, Known;
    InjectiveOf(env, s, f, d);
    SameLength(slots, parts, kinds, s.index, n);
    if slots == [] {
      g := f;
      ProgressSelf(f, d, n);
      PartsEnd(env, s.nodes, n, d);
    } else {
      var h, e := f, d;
      HeadListed(env, slots, parts, kinds, s.index, n);
      if kinds[0] == Dynamic {
        h := DecodeMatches(env, s, parts[0], f, d);
        e := Decode(env, s.nodes, slots[0].index, d).state;
        ProgressHigher(f, d, h, e, s.index[parts[0]] + 1, n);
      } else {
        ProgressSelf(f, d, n);
        PlainKnown(kinds[0], parts[0], f);
      }
      InjectiveOf(env, s, h, e);
      ListedTail(slots, parts, kinds, s.index, s.nodes, n);
      ReadableTail(env, parts, kinds);
      g := DecodePartsMatch(env, s, n, slots[1..], parts[1..], kinds[1..], h, e);
      var rest := DecodeParts(env, s.nodes, n, slots[1..], kinds[1..], e);
      ProgressTwice(f, d, h, e, g, rest.state, n, n);
      SubOf(h, e, g, rest.state, n);
      RenameStays(parts[0], h, g);
      PartsStep(env, s.nodes, n, slots, kinds, d, Rename(g, parts[0]), e);
    }
  }

  lemma SameLength(slots: seq<Slot>, parts: seq<Value>, kinds: seq<FieldKind>, index: map<Value, nat>, n: nat)
    requires Listed(slots, parts, kinds, index, n)
    ensures |slots| == |parts| == |kinds|
  {
  }

  lemma PartsEnd(env: Env, nodes: seq<Node>, n: nat, d: Reader)
    requires Acyclic(nodes) && n < |nodes| == |d.decoded|
    ensures DecodeParts(env, nodes, n, [], [], d) == DecodedParts(Some([]), d)
  {
  }

  lemma HeadListed(env: Env, slots: seq<Slot>, parts: seq<Value>, kinds: seq<FieldKind>, index: map<Value, nat>, n: nat)
    requires slots != [] && Listed(slots, parts, kinds, index, n) && Readable(env, parts, kinds)
    ensures Typed(kinds[0], parts[0]) && Placed(env, parts[0]) && Supported(env, parts[0])
    ensures if kinds[0] == Dynamic then parts[0] in index && slots[0] == Child(index[parts[0]]) && index[parts[0]] < n
            else slots[0] == Inline(parts[0])
  {
    hide Placed, Supported;
  }

  lemma PlainKnown(kind: FieldKind, v: Value, f: map<nat, nat>)
    requires kind != Dynamic && Typed(kind, v)
    ensures Known(v, f) && Rename(f, v) == v && InPlace(kind, v) == v
  {
  }

  lemma PartsStep(env: Env, nodes: seq<Node>, n: nat, slots: seq<Slot>, kinds: seq<FieldKind>, d: Reader, v: Value,
          e: Reader)
    requires Acyclic(nodes) && n < |nodes| == |d.decoded| == |e.decoded| && ChildrenRanked(nodes, slots, n)
    requires slots != [] && kinds != [] && slots[0].Child? == (kinds[0] == Dynamic)
    requires if slots[0].Child? then Decode(env, nodes, slots[0].index, d) == Decoded(Some(v), e)
             else InPlace(kinds[0], slots[0].value) == v && e == d
    ensures var rest := DecodeParts(env, nodes, n, slots[1..], kinds[1..], e);
            rest.parts.Some? ==>
                    DecodeParts(env, nodes, n, slots, kinds, d) ==
                    DecodedParts(Some([v] + rest.parts.value), rest.state)
  {
    hide Decode;
  }

  lemma ListedTail(slots: seq<Slot>, parts: seq<Value>, kinds: seq<FieldKind>, index: map<Value, nat>, nodes: seq<Node>,
          n: nat)
    requires Acyclic(nodes) && n < |nodes|
    requires slots != [] && Listed(slots, parts, kinds, index, n) && ChildrenRanked(nodes, slots, n)
    ensures Listed(slots[1..], parts[1..], kinds[1..], index, n) && ChildrenRanked(nodes, slots[1..], n)
  {
  }

  lemma ReadableTail(env: Env, parts: seq<Value>, kinds: seq<FieldKind>)
    requires parts != [] && Readable(env, parts, kinds)
    ensures Readable(env, parts[1..], kinds[1..])
  {
  }

  // -------------------------------------------------------------- main results

  /** FromJSONGraph(ToJSONGraph(v)) is v with its identities renamed one to one; every child index is below its
      node's. */
  lemma {:induction false} RoundTrip(env: Env, v: Value) returns (f: map<nat, nat>)
    requires Placed(env, v) && Supported(env, v)
    ensures ToGraph(env, v).Some?
    ensures var g := ToGraph(env, v).value;
            Descending(g.nodes) && 0 <= g.root < |g.nodes| && FromGraph(env, g) == Some(Rename(f, v))
    ensures Injective(f) && Known(v, f)
  {
    hide IndexOf, Decode, Matches, Progress, Describes, Placed, Supported, Extends;
    BlankWritten(env);
    IndexWrites(env, v, BLANK);
    var s := IndexOf(env, v, BLANK).state;
    var d := Reader(seq(|s.nodes|, _ => Null), -1, 0);
    NothingDecoded(env, s, d);
    f := DecodeMatches(env, s, v, map[], d);
    InjectiveOf(env, s, f, Decode(env, s.nodes, s.index[v], d).state);
  }

  lemma BlankWritten(env: Env)
    ensures Written(env, BLANK)
  {
  }

  lemma NothingDecoded(env: Env, s: Writer, d: Reader)
    requires |d.decoded| == |s.nodes| && d.nullIndex == -1 && forall i :: 0 <= i < |d.decoded| ==> d.decoded[i] == Null
    ensures Matches(env, s, map[], d)
  {
  }

  /** The part of v reached by a path of positions. */
  function At(v: Value, path: seq<nat>): Option<Value> {
    if path == [] then Some(v)
    else if v.Box? && path[0] < |v.parts| then At(v.parts[path[0]], path[1..])
    else None
  }

  lemma {:induction false} AtRenamed(v: Value, path: seq<nat>, f: map<nat, nat>)
    requires Known(v, f)
    ensures At(Rename(f, v), path).None? <==> At(v, path).None?
    ensures At(v, path).Some? ==>
            At(Rename(f, v), path).value == Rename(f, At(v, path).value) && Known(At(v, path).value, f)
    decreases |path|
  {
    if path != [] && v.Box? && path[0] < |v.parts| { AtRenamed(v.parts[path[0]], path[1..], f); }
  }

  /** Two positions share an object afterwards exactly when they did before. */
  lemma {:induction false} SharingKept(env: Env, v: Value, p: seq<nat>, q: seq<nat>)
    requires Placed(env, v) && Supported(env, v)
    requires At(v, p).Some? && At(v, q).Some? && At(v, p).value.Box? && At(v, q).value.Box?
    ensures ToGraph(env, v).Some?
    ensures var g := ToGraph(env, v).value;
            Descending(g.nodes) && 0 <= g.root < |g.nodes| && FromGraph(env, g).Some? &&
            var w := FromGraph(env, g).value;
            At(w, p).Some? && At(w, q).Some? && At(w, p).value.Box? && At(w, q).value.Box? &&
            (At(w, p).value.id == At(w, q).value.id <==> At(v, p).value.id == At(v, q).value.id)
  {
    var f := RoundTrip(env, v);
    AtRenamed(v, p, f);
    AtRenamed(v, q, f);
  }
}
