// When structural equality is symmetric: always without maps; with maps as
// long as their iteration order decides nothing; and not in general.
module StructuralSymmetry {
  import opened AnyCells
  import opened StructuralValues
  import opened StructuralEqual
  import opened StructuralMatching

  // ------------------------------------------------------------ without maps

  function Swapped(r: Compared): Compared { Compared(r.out, Swap(r.maps)) }

  lemma {:induction false} SwapAny(env: Env, a: Value, b: Value, free: bool, traced: bool, m: Maps)
    requires Placed(env, a) && Placed(env, b) && MapFree(a) && MapFree(b) && Inverse(m)
    ensures EqAny(env, b, a, free, traced, Swap(m)) == Swapped(EqAny(env, a, b, free, traced, m))
    decreases a, 1
  {
    hide EqObject, EqAll, EqEntries, Inverse;
    if TypeIndex(a) == TypeIndex(b) {
      if a.Arr? && b.Arr? {
        SwapAll(env, a.items, b.items, AllOrdinary(Least(|a.items|, |b.items|)), free, traced, m);
      } else if a.Obj? && b.Obj? {
        SwapObject(env, a, b, free, traced, m);
      }
    }
  }

  lemma {:induction false} SwapObject(env: Env, a: Value, b: Value, free: bool, traced: bool, m: Maps)
    requires a.Obj? && b.Obj? && a.tindex == b.tindex
    requires Placed(env, a) && Placed(env, b) && MapFree(a) && MapFree(b) && Inverse(m)
    ensures EqObject(env, b, a, free, traced, Swap(m)) == Swapped(EqObject(env, a, b, free, traced, m))
    decreases a, 0
  {
    hide EqAll;
    SwapAll(env, a.fields, b.fields, Info(env, a).modes, free, traced, m);
  }

  lemma {:induction false} SwapAll(env: Env, xs: seq<Value>, ys: seq<Value>, modes: seq<FieldMode>, free: bool,
          traced: bool, m: Maps)
    requires AllPlaced(env, xs) && AllPlaced(env, ys) && AllMapFree(xs) && AllMapFree(ys) && Inverse(m)
    ensures EqAll(env, ys, xs, modes, free, traced, Swap(m)) == Swapped(EqAll(env, xs, ys, modes, free, traced, m))
    decreases xs, 0
  {
    if xs != [] && ys != [] && modes != [] {
      if modes[0].Ignored? {
        SwapAll(env, xs[1..], ys[1..], modes[1..], free, traced, m);
      } else {
        var r := EqAny(env, xs[0], ys[0], free || modes[0].Def?, traced, m);
        SwapAny(env, xs[0], ys[0], free || modes[0].Def?, traced, m);
        InverseAny(env, xs[0], ys[0], free || modes[0].Def?, traced, m);
        if r.out.True? { SwapAll(env, xs[1..], ys[1..], modes[1..], free, traced, r.maps); }
      }
    }
  }

  /** Without maps, Equal is symmetric, thrown errors included. */
  lemma {:induction false} EqualSymmetric(env: Env, a: Value, b: Value, mapFreeVars: bool)
    requires Placed(env, a) && Placed(env, b) && MapFree(a) && MapFree(b)
    ensures Equal(env, a, b, mapFreeVars) == Equal(env, b, a, mapFreeVars)
  {
    SwapAny(env, a, b, mapFreeVars, false, NO_MAPS);
    assert Swap(NO_MAPS) == NO_MAPS;
  }

  // --------------------------------------------------------------- with maps

  /** Every map of v, at its place, settles which free variables are mapped before it is reached or in whatever order
      its entries are visited. */
  predicate MapsSettle(env: Env, v: Value, free: bool, known: set<nat>)
    decreases v
  {
    match v
    case Plain(_) => true
    case Text(_, _) => true
    case Arr(_, items) => AllMapsSettle(env, items, AllOrdinary(|items|), free, known)
    case Dict(_, _, _) => Settles(env, v, free, known)
    case Obj(_, _, fields) =>
      Info(env, v).kind.UniqueInstance? || AllMapsSettle(env, fields, Info(env, v).modes, free, known)
  }

  predicate AllMapsSettle(env: Env, xs: seq<Value>, modes: seq<FieldMode>, free: bool, known: set<nat>)
    decreases xs
  {
    xs == [] || modes == [] ||
    (if modes[0].Ignored? then AllMapsSettle(env, xs[1..], modes[1..], free, known)
     else
       && MapsSettle(env, xs[0], free || modes[0].Def?, known)
       && AllMapsSettle(env, xs[1..], modes[1..], free, known + Surely(env, xs[0])))
  }

  /** Both directions are True together, with the mappings swapped; which error comes first may differ. */
  ghost predicate Mirror(r: Compared, q: Compared) {
    (r.out.True? <==> q.out.True?) && (r.out.True? ==> q.maps == Swap(r.maps))
  }

  lemma ExtendEachOther(m: Maps, n: Maps)
    requires Extends(m, n) && Extends(n, m)
    ensures m == n
  {
    assert m.lhs == n.lhs && m.rhs == n.rhs;
  }

  lemma SwapTwice(m: Maps)
    ensures Swap(Swap(m)) == m
  {
  }

  lemma SwapExtends(m: Maps, n: Maps)
    requires Extends(m, n)
    ensures Extends(Swap(m), Swap(n))
  {
  }

  /** Two values that are settled each, whatever their maps' order. */
  lemma {:induction false} MirrorSettled(env: Env, a: Value, b: Value, free: bool, traced: bool, m: Maps,
          knownA: set<nat>, knownB: set<nat>)
    requires Fit(env, a) && Fit(env, b) && Sound(env, m)
    requires KeysKnown(env, a, knownA) && knownA <= m.lhs.Keys && Settles(env, a, free, knownA)
    requires KeysKnown(env, b, knownB) && knownB <= m.rhs.Keys && Settles(env, b, free, knownB)
    ensures Mirror(EqAny(env, a, b, free, traced, m), EqAny(env, b, a, free, traced, Swap(m)))
  {
    hide Fit, Sound, EqAny, KeysKnown, Settles, Extends;
    var r, q := EqAny(env, a, b, free, traced, m), EqAny(env, b, a, free, traced, Swap(m));
    SoundSwaps(env, m);
    SwapTwice(m);
    if r.out.True? {
      TrueBack(env, a, b, free, traced, m, knownA, knownB);
      TrueBack(env, b, a, free, traced, Swap(m), knownB, knownA);
      SwapExtends(r.maps, Swap(q.maps));
      SwapTwice(q.maps);
      ExtendEachOther(q.maps, Swap(r.maps));
    } else if q.out.True? {
      TrueBack(env, b, a, free, traced, Swap(m), knownB, knownA);
    }
  }

  lemma {:induction false} MirrorAny(env: Env, a: Value, b: Value, free: bool, traced: bool, m: Maps, knownA: set<nat>,
          knownB: set<nat>)
    requires Fit(env, a) && Fit(env, b) && Sound(env, m)
    requires KeysKnown(env, a, knownA) && knownA <= m.lhs.Keys && MapsSettle(env, a, free, knownA)
    requires KeysKnown(env, b, knownB) && knownB <= m.rhs.Keys && MapsSettle(env, b, free, knownB)
    ensures Mirror(EqAny(env, a, b, free, traced, m), EqAny(env, b, a, free, traced, Swap(m)))
    decreases a, 1
  {
    hide Fit, Sound, EqAny, EqObject, Settles, DistinctMapKeys, KeyKnown, AllMapsSettle, AllKeysKnown, Mirror;
    if a.Arr? && b.Arr? {
      MirrorArr(env, a, b, free, traced, m, knownA, knownB);
    } else if a.Dict? && b.Dict? {
      MirrorSettled(env, a, b, free, traced, m, knownA, knownB);
    } else if a.Obj? && b.Obj? && a.tindex == b.tindex {
      MirrorObject(env, a, b, free, traced, m, knownA, knownB);
      ComparedAsObjects(env, a, b, free, traced, m);
      ComparedAsObjects(env, b, a, free, traced, Swap(m));
    } else {
      MirrorLeaf(env, a, b, free, traced, m);
    }
  }

  lemma ComparedAsObjects(env: Env, a: Value, b: Value, free: bool, traced: bool, m: Maps)
    requires a.Obj? && b.Obj? && a.tindex == b.tindex
    ensures EqAny(env, a, b, free, traced, m) == EqObject(env, a, b, free, traced, m)
  {
    hide EqObject;
  }

  lemma MirrorLeaf(env: Env, a: Value, b: Value, free: bool, traced: bool, m: Maps)
    requires !(a.Arr? && b.Arr?) && !(a.Dict? && b.Dict?) && !(a.Obj? && b.Obj? && a.tindex == b.tindex)
    ensures Mirror(EqAny(env, a, b, free, traced, m), EqAny(env, b, a, free, traced, Swap(m)))
  {
    hide EqObject, EqAll, EqEntries;
  }

  lemma {:induction false} MirrorArr(env: Env, a: Value, b: Value, free: bool, traced: bool, m: Maps, knownA: set<nat>,
          knownB: set<nat>)
    requires a.Arr? && b.Arr? && Fit(env, a) && Fit(env, b) && Sound(env, m)
    requires KeysKnown(env, a, knownA) && knownA <= m.lhs.Keys && MapsSettle(env, a, free, knownA)
    requires KeysKnown(env, b, knownB) && knownB <= m.rhs.Keys && MapsSettle(env, b, free, knownB)
    ensures Mirror(EqAny(env, a, b, free, traced, m), EqAny(env, b, a, free, traced, Swap(m)))
    decreases a, 0
  {
    hide Fit, Sound, EqAll, AllMapsSettle, AllKeysKnown;
    FieldsFit(env, a);
    FieldsFit(env, b);
    if |a.items| == |b.items| {
      MirrorAll(env, a.items, b.items, AllOrdinary(|a.items|), free, traced, m, knownA, knownB);
    }
  }

  lemma {:induction false} MirrorObject(env: Env, a: Value, b: Value, free: bool, traced: bool, m: Maps,
          knownA: set<nat>, knownB: set<nat>)
    requires a.Obj? && b.Obj? && a.tindex == b.tindex && Fit(env, a) && Fit(env, b) && Sound(env, m)
    requires KeysKnown(env, a, knownA) && knownA <= m.lhs.Keys && MapsSettle(env, a, free, knownA)
    requires KeysKnown(env, b, knownB) && knownB <= m.rhs.Keys && MapsSettle(env, b, free, knownB)
    ensures Mirror(EqObject(env, a, b, free, traced, m), EqObject(env, b, a, free, traced, Swap(m)))
    decreases a, 0
  {
    hide Fit, EqAll, PairRelated, AllKeysKnown, AllMapsSettle;
    FieldsFit(env, a);
    FieldsFit(env, b);
    if !Info(env, a).kind.UniqueInstance? {
      MirrorAll(env, a.fields, b.fields, Info(env, a).modes, free, traced, m, knownA, knownB);
    }
  }

  lemma {:induction false} MirrorAll(env: Env, xs: seq<Value>, ys: seq<Value>, modes: seq<FieldMode>, free: bool,
          traced: bool, m: Maps, knownA: set<nat>, knownB: set<nat>)
    requires |xs| == |ys| == |modes| && AllFit(env, xs) && AllFit(env, ys) && Sound(env, m)
    requires AllKeysKnown(env, xs, modes, knownA) && AllMapsSettle(env, xs, modes, free, knownA)
    requires AllKeysKnown(env, ys, modes, knownB) && AllMapsSettle(env, ys, modes, free, knownB)
    requires knownA <= m.lhs.Keys && knownB <= m.rhs.Keys
    ensures Mirror(EqAll(env, xs, ys, modes, free, traced, m), EqAll(env, ys, xs, modes, free, traced, Swap(m)))
    decreases xs, 0
  {
    hide Fit, Sound, EqAny, KeysKnown, MapsSettle, Related, Grown;
    if modes != [] {
      if modes[0].Ignored? {
        MirrorAll(env, xs[1..], ys[1..], modes[1..], free, traced, m, knownA, knownB);
      } else {
        var f := free || modes[0].Def?;
        var r := EqAny(env, xs[0], ys[0], f, traced, m);
        MirrorAny(env, xs[0], ys[0], f, traced, m, knownA, knownB);
        if r.out.True? {
          Matched(env, xs[0], ys[0], f, traced, m, knownA);
          GrownParts(env, m, r.maps, First(env, ys[0], f, true));
          VisitedOnBothSides(env, xs[0], ys[0], r.maps);
          MirrorAll(env, xs[1..], ys[1..], modes[1..], free, traced, r.maps,
                    knownA + Surely(env, xs[0]), knownB + Surely(env, ys[0]));
        }
      }
    }
  }

  /** The iteration order of the maps in v decides nothing: a graph node or free variable that is a key has been
      recorded before its map is reached, and no free variable can be met first in a mapped position and, in another
      order of the entries, first in one that is not mapped. */
  predicate OrderFree(env: Env, v: Value, mapFreeVars: bool) {
    KeysKnown(env, v, {}) && MapsSettle(env, v, mapFreeVars, {})
  }

  /** For such values Equal is True in both directions or in none. */
  lemma {:induction false} EqualSymmetricWithMaps(env: Env, a: Value, b: Value, mapFreeVars: bool)
    requires Placed(env, a) && Placed(env, b) && Shaped(env, a) && Shaped(env, b)
    requires OrderFree(env, a, mapFreeVars) && OrderFree(env, b, mapFreeVars)
    ensures Equal(env, a, b, mapFreeVars).True? <==> Equal(env, b, a, mapFreeVars).True?
  {
    hide EqAny, Sound, Placed, Shaped, KeysKnown, MapsSettle;
    NothingSound(env);
    MirrorAny(env, a, b, mapFreeVars, false, NO_MAPS, {}, {});
  }

  /** Every free variable that a comparison of v visits stands in a mapped position or, with mapped false, none of them
      does. */
  predicate AllAt(env: Env, v: Value, free: bool, mapped: bool)
    decreases v
  {
    match v
    case Plain(_) => true
    case Text(_, _) => true
    case Arr(_, items) => forall i :: 0 <= i < |items| ==> AllAt(env, items[i], free, mapped)
    case Dict(_, _, values) => forall i :: 0 <= i < |values| ==> AllAt(env, values[i], free, mapped)
    case Obj(_, _, fields) =>
      var info := Info(env, v);
      && (info.kind.FreeVar? ==> free == mapped)
      && forall i :: 0 <= i < |fields| && i < |info.modes| && !info.modes[i].Ignored? ==>
           AllAt(env, fields[i], free || info.modes[i].Def?, mapped)
  }

  /** A map whose free variables all stand in mapped positions, or all in others, settles them. */
  lemma {:induction false} OneModeSettles(env: Env, v: Value, free: bool, mapped: bool, known: set<nat>)
    requires AllAt(env, v, free, mapped)
    ensures Settles(env, v, free, known)
  {
    NoneElsewhere(env, v, free, mapped);
  }

  lemma {:induction false} NoneElsewhere(env: Env, v: Value, free: bool, mapped: bool)
    requires AllAt(env, v, free, mapped)
    ensures First(env, v, free, !mapped) == {}
    decreases v
  {
    if v.Arr? {
      AllNoneElsewhere(env, v.items, AllOrdinary(|v.items|), free, mapped);
    } else if v.Dict? {
      AnyNoneElsewhere(env, v.values, free, mapped);
    } else if v.Obj? {
      AllNoneElsewhere(env, v.fields, Info(env, v).modes, free, mapped);
    }
  }

  lemma {:induction false} AllNoneElsewhere(env: Env, xs: seq<Value>, modes: seq<FieldMode>, free: bool, mapped: bool)
    requires forall i :: 0 <= i < |xs| && i < |modes| && !modes[i].Ignored? ==>
               AllAt(env, xs[i], free || modes[i].Def?, mapped)
    ensures FirstAll(env, xs, modes, free, !mapped) == {}
    decreases xs
  {
    if xs != [] && modes != [] {
      if !modes[0].Ignored? { NoneElsewhere(env, xs[0], free || modes[0].Def?, mapped); }
      AllNoneElsewhere(env, xs[1..], modes[1..], free, mapped);
    }
  }

  lemma {:induction false} AnyNoneElsewhere(env: Env, xs: seq<Value>, free: bool, mapped: bool)
    requires forall i :: 0 <= i < |xs| ==> AllAt(env, xs[i], free, mapped)
    ensures FirstAny(env, xs, free, !mapped) == {}
    decreases xs
  {
    if xs != [] {
      NoneElsewhere(env, xs[0], free, mapped);
      AnyNoneElsewhere(env, xs[1..], free, mapped);
    }
  }

  /** No map has a graph node or free variable as a key. */
  predicate PlainKeys(env: Env, v: Value)
    decreases v
  {
    match v
    case Plain(_) => true
    case Text(_, _) => true
    case Arr(_, items) => forall i :: 0 <= i < |items| ==> PlainKeys(env, items[i])
    case Dict(_, keys, values) =>
      && (forall i :: 0 <= i < |keys| ==> !IsRecorded(env, keys[i]))
      && (forall i :: 0 <= i < |values| ==> PlainKeys(env, values[i]))
    case Obj(_, _, fields) => forall i :: 0 <= i < |fields| ==> PlainKeys(env, fields[i])
  }

  /** The free variables below a map all stand in mapped positions, or all in others. */
  predicate OneModeMaps(env: Env, v: Value, free: bool)
    decreases v
  {
    match v
    case Plain(_) => true
    case Text(_, _) => true
    case Arr(_, items) => forall i :: 0 <= i < |items| ==> OneModeMaps(env, items[i], free)
    case Dict(_, _, _) => AllAt(env, v, free, true) || AllAt(env, v, free, false)
    case Obj(_, _, fields) =>
      var modes := Info(env, v).modes;
      forall i :: 0 <= i < |fields| && i < |modes| && !modes[i].Ignored? ==>
        OneModeMaps(env, fields[i], free || modes[i].Def?)
  }

  /** Graph nodes below the values of such maps are no obstacle. */
  lemma {:induction false} OneModeIsOrderFree(env: Env, v: Value, mapFreeVars: bool)
    requires PlainKeys(env, v) && OneModeMaps(env, v, mapFreeVars)
    ensures OrderFree(env, v, mapFreeVars)
  {
    PlainKeysKnown(env, v, {});
    OneModeMapsSettle(env, v, mapFreeVars, {});
  }

  lemma {:induction false} PlainKeysKnown(env: Env, v: Value, known: set<nat>)
    requires PlainKeys(env, v)
    ensures KeysKnown(env, v, known)
    decreases v
  {
    if v.Arr? {
      AllPlainKeysKnown(env, v.items, AllOrdinary(|v.items|), known);
    } else if v.Dict? {
      forall i | 0 <= i < |v.values| ensures KeysKnown(env, v.values[i], known) {
        PlainKeysKnown(env, v.values[i], known);
      }
    } else if v.Obj? {
      AllPlainKeysKnown(env, v.fields, Info(env, v).modes, known);
    }
  }

  lemma {:induction false} AllPlainKeysKnown(env: Env, xs: seq<Value>, modes: seq<FieldMode>, known: set<nat>)
    requires forall i :: 0 <= i < |xs| ==> PlainKeys(env, xs[i])
    ensures AllKeysKnown(env, xs, modes, known)
    decreases xs
  {
    if xs != [] && modes != [] {
      if modes[0].Ignored? {
        AllPlainKeysKnown(env, xs[1..], modes[1..], known);
      } else {
        PlainKeysKnown(env, xs[0], known);
        AllPlainKeysKnown(env, xs[1..], modes[1..], known + Surely(env, xs[0]));
      }
    }
  }

  lemma {:induction false} OneModeMapsSettle(env: Env, v: Value, free: bool, known: set<nat>)
    requires OneModeMaps(env, v, free)
    ensures MapsSettle(env, v, free, known)
    decreases v
  {
    if v.Arr? {
      AllOneModeMapsSettle(env, v.items, AllOrdinary(|v.items|), free, known);
    } else if v.Dict? {
      OneModeSettles(env, v, free, AllAt(env, v, free, true), known);
    } else if v.Obj? {
      AllOneModeMapsSettle(env, v.fields, Info(env, v).modes, free, known);
    }
  }

  lemma {:induction false} AllOneModeMapsSettle(env: Env, xs: seq<Value>, modes: seq<FieldMode>, free: bool,
          known: set<nat>)
    requires forall i :: 0 <= i < |xs| && i < |modes| && !modes[i].Ignored? ==>
               OneModeMaps(env, xs[i], free || modes[i].Def?)
    ensures AllMapsSettle(env, xs, modes, free, known)
    decreases xs
  {
    if xs != [] && modes != [] {
      if modes[0].Ignored? {
        AllOneModeMapsSettle(env, xs[1..], modes[1..], free, known);
      } else {
        OneModeMapsSettle(env, xs[0], free || modes[0].Def?, known);
        AllOneModeMapsSettle(env, xs[1..], modes[1..], free, known + Surely(env, xs[0]));
      }
    }
  }

  // ------------------------------------------------------- maps that record

  /** A heap of these objects, each at its id; type 200 has no fields and the given kind, type 201 one def field. */
  function HeapOf(kind: Kind, objects: seq<Value>): Env {
    Env(t => if t == 201 then TypeInfo(true, TreeNode, [Def], 0) else TypeInfo(true, kind, [], 0),
        (i: nat) => if i < |objects| then objects[i] else Plain(Cell(0, 0, 0)), i => 0, (k, v) => 0, 0, 0)
  }

  lemma PlacedPairs(env: Env, id: nat, k: Value, l: Value, u: Value, v: Value)
    requires env.heap(id) == Dict(id, [k, l], [u, v]) && !SameKey(k, l)
    requires Placed(env, k) && Placed(env, l) && Placed(env, u) && Placed(env, v)
    ensures Placed(env, Dict(id, [k, l], [u, v]))
  {
  }

  lemma PlacedHolder(env: Env, id: nat, t: int, u: Value)
    requires env.heap(id) == Obj(id, t, [u]) && Placed(env, u)
    ensures Placed(env, Obj(id, t, [u]))
  {
  }

  lemma ShapedPairs(env: Env, id: nat, k: Value, l: Value, u: Value, v: Value)
    requires Shaped(env, k) && Shaped(env, l) && Shaped(env, u) && Shaped(env, v)
    ensures Shaped(env, Dict(id, [k, l], [u, v]))
  {
  }

  lemma SettledPairs(env: Env, id: nat, k: Value, l: Value, u: Value, v: Value)
    requires AllAt(env, u, false, false) && AllAt(env, v, false, false)
    ensures MapsSettle(env, Dict(id, [k, l], [u, v]), false, {})
  {
    hide Settles;
    OneModeSettles(env, Dict(id, [k, l], [u, v]), false, false, {});
  }

  lemma KeysOfPairsKnown(env: Env, id: nat, k: Value, l: Value, u: Value, v: Value)
    requires !k.Obj? && !l.Obj? && KeysKnown(env, u, {}) && KeysKnown(env, v, {})
    ensures KeysKnown(env, Dict(id, [k, l], [u, v]), {})
  {
  }

  lemma {:induction false} EqualMaps(env: Env, a: Value, b: Value)
    requires a.Dict? && b.Dict? && |a.keys| == |b.keys|
    ensures Equal(env, a, b, false) == EqEntries(env, a.keys, a.values, b.keys, b.values, false, false, NO_MAPS).out
  {
  }

  /** With graph nodes as keys Equal is not symmetric: a key met before its object has been matched is looked up as
      itself. No free variable takes part. */
  lemma {:induction false} NodeKeysBreakSymmetry() returns (env: Env, a: Value, b: Value)
    ensures Placed(env, a) && Placed(env, b) && Shaped(env, a) && Shaped(env, b)
    ensures MapsSettle(env, a, false, {}) && MapsSettle(env, b, false, {})
    ensures Equal(env, a, b, false) == True && Equal(env, b, a, false) == False
  {
    var k, d, e := Plain(Cell(0, 0, 0)), Obj(1, 200, []), Obj(2, 200, []);
    a, b := Dict(3, [k, d], [d, k]), Dict(4, [e, k], [k, e]);
    env := HeapOf(DAGNode, [k, d, e, a, b]);
    hide Placed, Shaped, MapsSettle, Equal;
    NodesFit(env, k, d, e);
    NodesCompared(env, k, d, e);
  }

  lemma {:induction false} NodesCompared(env: Env, k: Value, d: Value, e: Value)
    requires env.types(200) == TypeInfo(true, DAGNode, [], 0) && env.heap(2) == e
    requires d == Obj(1, 200, []) && e == Obj(2, 200, []) && k == Plain(Cell(0, 0, 0))
    ensures Equal(env, Dict(3, [k, d], [d, k]), Dict(4, [e, k], [k, e]), false) == True
    ensures Equal(env, Dict(4, [e, k], [k, e]), Dict(3, [k, d], [d, k]), false) == False
  {
    hide EqEntries, Equal;
    EqualMaps(env, Dict(3, [k, d], [d, k]), Dict(4, [e, k], [k, e]));
    EqualMaps(env, Dict(4, [e, k], [k, e]), Dict(3, [k, d], [d, k]));
    MatchedInThisOrder(env, d, e, k);
    NotMatchedInThatOrder(env, d, e, k);
  }

  lemma {:induction false} NodesFit(env: Env, k: Value, d: Value, e: Value)
    requires env.types(200) == TypeInfo(true, DAGNode, [], 0) && env.heap(1) == d && env.heap(2) == e
    requires d == Obj(1, 200, []) && e == Obj(2, 200, []) && k == Plain(Cell(0, 0, 0))
    requires env.heap(3) == Dict(3, [k, d], [d, k]) && env.heap(4) == Dict(4, [e, k], [k, e])
    ensures Placed(env, env.heap(3)) && Shaped(env, env.heap(3)) && MapsSettle(env, env.heap(3), false, {})
    ensures Placed(env, env.heap(4)) && Shaped(env, env.heap(4)) && MapsSettle(env, env.heap(4), false, {})
  {
    NodesAndCells(env, k, d, e);
    hide Placed, Shaped, AllAt, MapsSettle;
    PlacedPairs(env, 3, k, d, d, k);
    PlacedPairs(env, 4, e, k, k, e);
    ShapedPairs(env, 3, k, d, d, k);
    ShapedPairs(env, 4, e, k, k, e);
    SettledPairs(env, 3, k, d, d, k);
    SettledPairs(env, 4, e, k, k, e);
  }

  lemma NodesAndCells(env: Env, k: Value, d: Value, e: Value)
    requires env.types(200) == TypeInfo(true, DAGNode, [], 0) && env.heap(1) == d && env.heap(2) == e
    requires d == Obj(1, 200, []) && e == Obj(2, 200, []) && k == Plain(Cell(0, 0, 0))
    ensures Placed(env, k) && Placed(env, d) && Placed(env, e)
    ensures Shaped(env, k) && Shaped(env, d) && Shaped(env, e)
    ensures AllAt(env, k, false, false) && AllAt(env, d, false, false) && AllAt(env, e, false, false)
  {
  }

  lemma {:induction false} MatchedInThisOrder(env: Env, d: Value, e: Value, k: Value)
    requires env.types(200) == TypeInfo(true, DAGNode, [], 0) && env.heap(2) == e
    requires d == Obj(1, 200, []) && e == Obj(2, 200, []) && k == Plain(Cell(0, 0, 0))
    ensures EqEntries(env, [k, d], [d, k], [e, k], [k, e], false, false, NO_MAPS).out == True
  {
    var m := Record(NO_MAPS, 1, 2);
    assert EqObject(env, d, e, false, false, NO_MAPS) == Compared(True, m);
    assert IndexOf([e, k], k) == 1 by { assert IndexOf([e, k][1..], k) == 0; }
    assert IndexOf([e, k], Partner(env, m, d)) == 0;
    assert EqEntries(env, [d], [k], [e, k], [k, e], false, false, m) == Compared(True, m);
    assert [k, d][1..] == [d] && [d, k][1..] == [k];
  }

  lemma {:induction false} NotMatchedInThatOrder(env: Env, d: Value, e: Value, k: Value)
    requires d == Obj(1, 200, []) && e == Obj(2, 200, []) && k == Plain(Cell(0, 0, 0))
    ensures EqEntries(env, [e, k], [k, e], [k, d], [d, k], false, false, NO_MAPS).out == False
  {
    assert IndexOf([k, d], e) == 2 by {
      assert IndexOf([k, d][1..], e) == 1 by { assert IndexOf([k, d][1..][1..], e) == 0; }
    }
    assert Partner(env, NO_MAPS, e) == e;
  }

  /** Nor with plain keys, when a value uses a free variable that another value defines: the definition must come
      first in the iteration order of the left map. */
  lemma {:induction false} FreeVariablesBreakSymmetry() returns (env: Env, a: Value, b: Value)
    ensures Placed(env, a) && Placed(env, b) && Shaped(env, a) && Shaped(env, b)
    ensures KeysKnown(env, a, {}) && KeysKnown(env, b, {})
    ensures a.Dict? && b.Dict? && a.keys == [Plain(Cell(0, 0, 0)), Plain(Cell(1, 0, 0))]
    ensures b.keys == [Plain(Cell(1, 0, 0)), Plain(Cell(0, 0, 0))]
    ensures Equal(env, a, b, false) == True && Equal(env, b, a, false) == False
  {
    var k, l, x, y := Plain(Cell(0, 0, 0)), Plain(Cell(1, 0, 0)), Obj(1, 200, []), Obj(2, 200, []);
    var f, g := Obj(5, 201, [x]), Obj(6, 201, [y]);
    a, b := Dict(3, [k, l], [f, x]), Dict(4, [l, k], [y, g]);
    env := HeapOf(FreeVar, [k, x, y, a, b, f, g]);
    hide Placed, Shaped, KeysKnown, Equal;
    DefinitionsFit(env, k, l, x, y, f, g);
    DefinitionsCompared(env, k, l, x, y, f, g);
  }

  lemma {:induction false} DefinitionsCompared(env: Env, k: Value, l: Value, x: Value, y: Value, f: Value, g: Value)
    requires env.types(200) == TypeInfo(true, FreeVar, [], 0) && env.types(201) == TypeInfo(true, TreeNode, [Def], 0)
    requires k == Plain(Cell(0, 0, 0)) && l == Plain(Cell(1, 0, 0)) && x == Obj(1, 200, []) && y == Obj(2, 200, [])
    requires f == Obj(5, 201, [x]) && g == Obj(6, 201, [y])
    ensures Equal(env, Dict(3, [k, l], [f, x]), Dict(4, [l, k], [y, g]), false) == True
    ensures Equal(env, Dict(4, [l, k], [y, g]), Dict(3, [k, l], [f, x]), false) == False
  {
    hide EqEntries, Equal;
    EqualMaps(env, Dict(3, [k, l], [f, x]), Dict(4, [l, k], [y, g]));
    EqualMaps(env, Dict(4, [l, k], [y, g]), Dict(3, [k, l], [f, x]));
    DefinedThenUsed(env, k, l, x, y, f, g);
    UsedThenDefined(env, k, l, x, y, f, g);
  }

  lemma {:induction false} DefinitionsFit(env: Env, k: Value, l: Value, x: Value, y: Value, f: Value, g: Value)
    requires k == Plain(Cell(0, 0, 0)) && l == Plain(Cell(1, 0, 0)) && x == Obj(1, 200, []) && y == Obj(2, 200, [])
    requires f == Obj(5, 201, [x]) && g == Obj(6, 201, [y])
    requires env.types(200) == TypeInfo(true, FreeVar, [], 0) && env.types(201) == TypeInfo(true, TreeNode, [Def], 0)
    requires env.heap(1) == x && env.heap(2) == y && env.heap(5) == f && env.heap(6) == g
    requires env.heap(3) == Dict(3, [k, l], [f, x]) && env.heap(4) == Dict(4, [l, k], [y, g])
    ensures Placed(env, env.heap(3)) && Shaped(env, env.heap(3)) && KeysKnown(env, env.heap(3), {})
    ensures Placed(env, env.heap(4)) && Shaped(env, env.heap(4)) && KeysKnown(env, env.heap(4), {})
  {
    assert Placed(env, k) && Placed(env, l) && Placed(env, x) && Placed(env, y);
    hide Placed, Shaped, KeysKnown;
    DefinitionsShaped(env, k, l, x, f);
    DefinitionsShaped(env, k, l, y, g);
    ShapedPairs(env, 3, k, l, f, x);
    ShapedPairs(env, 4, l, k, y, g);
    KeysOfPairsKnown(env, 3, k, l, f, x);
    KeysOfPairsKnown(env, 4, l, k, y, g);
    PlacedHolder(env, 5, 201, x);
    PlacedHolder(env, 6, 201, y);
    PlacedPairs(env, 3, k, l, f, x);
    PlacedPairs(env, 4, l, k, y, g);
  }

  lemma DefinitionsShaped(env: Env, k: Value, l: Value, x: Value, f: Value)
    requires env.types(200) == TypeInfo(true, FreeVar, [], 0) && env.types(201) == TypeInfo(true, TreeNode, [Def], 0)
    requires k == Plain(Cell(0, 0, 0)) && l == Plain(Cell(1, 0, 0)) && x.Obj? && x.tindex == 200 && x.fields == []
    requires f.Obj? && f.tindex == 201 && f.fields == [x]
    ensures Shaped(env, k) && Shaped(env, l) && Shaped(env, x) && Shaped(env, f)
    ensures KeysKnown(env, x, {}) && KeysKnown(env, f, {})
  {
    assert KeysKnown(env, x, {});
    assert AllKeysKnown(env, [x], [Def], {});
  }

  lemma {:induction false} DefinedThenUsed(env: Env, k: Value, l: Value, x: Value, y: Value, f: Value, g: Value)
    requires env.types(200) == TypeInfo(true, FreeVar, [], 0) && env.types(201) == TypeInfo(true, TreeNode, [Def], 0)
    requires k == Plain(Cell(0, 0, 0)) && l == Plain(Cell(1, 0, 0)) && x == Obj(1, 200, []) && y == Obj(2, 200, [])
    requires f == Obj(5, 201, [x]) && g == Obj(6, 201, [y])
    ensures EqEntries(env, [k, l], [f, x], [l, k], [y, g], false, false, NO_MAPS).out == True
  {
    var m := Record(NO_MAPS, 1, 2);
    assert EqObject(env, x, y, true, false, NO_MAPS) == Compared(True, m);
    assert EqAll(env, [x], [y], [Def], false, false, NO_MAPS) == Compared(True, m);
    assert EqObject(env, f, g, false, false, NO_MAPS) == Compared(True, m);
    assert IndexOf([l, k], k) == 1 by { assert IndexOf([l, k][1..], k) == 0; }
    assert IndexOf([l, k], l) == 0;
    assert EqEntries(env, [l], [x], [l, k], [y, g], false, false, m) == Compared(True, m);
    assert [k, l][1..] == [l] && [f, x][1..] == [x];
  }

  lemma {:induction false} UsedThenDefined(env: Env, k: Value, l: Value, x: Value, y: Value, f: Value, g: Value)
    requires env.types(200) == TypeInfo(true, FreeVar, [], 0)
    requires k == Plain(Cell(0, 0, 0)) && l == Plain(Cell(1, 0, 0)) && x == Obj(1, 200, []) && y == Obj(2, 200, [])
    ensures EqEntries(env, [l, k], [y, g], [k, l], [f, x], false, false, NO_MAPS).out == False
  {
    assert IndexOf([k, l], l) == 1 by { assert IndexOf([k, l][1..], l) == 0; }
    assert EqObject(env, y, x, false, false, NO_MAPS) == Compared(False, NO_MAPS);
  }
}
