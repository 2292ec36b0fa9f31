// What a successful comparison has matched, without the order in which it went: a relation between two values under
// the final mappings, the proof that every True comparison establishes it, and the proof that any comparison of
// related values is True, wherever it starts from.
module StructuralMatching {
  import opened AnyCells
  import opened AssocList
  import opened DenseLayout
  import DenseTable
  import opened StructuralValues
  import opened StructuralEqual

  // ------------------------------------------------- what a comparison visits

  /** The graph nodes and free variables that every successful comparison of v records. What lies below a constant or
      unique node may be skipped. */
  function Surely(env: Env, v: Value): set<nat>
    decreases v
  {
    match v
    case Plain(_) => {}
    case Text(_, _) => {}
    case Arr(_, items) => SurelyAll(env, items, AllOrdinary(|items|))
    case Dict(_, _, values) => SurelyAll(env, values, AllOrdinary(|values|))
    case Obj(id, _, fields) =>
      var info := Info(env, v);
      if info.kind.UniqueInstance? || info.kind.ConstTreeNode? then {}
      else SurelyAll(env, fields, info.modes) + if Recorded(info.kind) then {id} else {}
  }

  function SurelyAll(env: Env, xs: seq<Value>, modes: seq<FieldMode>): set<nat>
    decreases xs
  {
    if xs == [] || modes == [] then {}
    else (if modes[0].Ignored? then {} else Surely(env, xs[0])) + SurelyAll(env, xs[1..], modes[1..])
  }

  /** The free variables that a comparison of v can meet for the first time in a mapped position, with flag true, or in
      one that is not mapped. The values of a map can be met in any order. */
  function First(env: Env, v: Value, free: bool, flag: bool): set<nat>
    decreases v
  {
    match v
    case Plain(_) => {}
    case Text(_, _) => {}
    case Arr(_, items) => FirstAll(env, items, AllOrdinary(|items|), free, flag)
    case Dict(_, _, values) => FirstAny(env, values, free, flag)
    case Obj(id, _, fields) =>
      var info := Info(env, v);
      if info.kind.UniqueInstance? then {}
      else FirstAll(env, fields, info.modes, free, flag) + if info.kind.FreeVar? && free == flag then {id} else {}
  }

  function FirstAll(env: Env, xs: seq<Value>, modes: seq<FieldMode>, free: bool, flag: bool): set<nat>
    decreases xs
  {
    if xs == [] || modes == [] then {}
    else if modes[0].Ignored? then FirstAll(env, xs[1..], modes[1..], free, flag)
    else
      First(env, xs[0], free || modes[0].Def?, flag) +
      (FirstAll(env, xs[1..], modes[1..], free, flag) - Surely(env, xs[0]))
  }

  function FirstAny(env: Env, xs: seq<Value>, free: bool, flag: bool): set<nat>
    decreases xs
  {
    if xs == [] then {} else First(env, xs[0], free, flag) + FirstAny(env, xs[1..], free, flag)
  }

  /** Every graph node or free variable that is the key of a map has been recorded before the map is reached. */
  predicate KeysKnown(env: Env, v: Value, known: set<nat>)
    decreases v
  {
    match v
    case Plain(_) => true
    case Text(_, _) => true
    case Arr(_, items) => AllKeysKnown(env, items, AllOrdinary(|items|), known)
    case Dict(_, keys, values) =>
      && (forall i :: 0 <= i < |keys| ==> KeyKnown(env, keys[i], known))
      && (forall i :: 0 <= i < |values| ==> KeysKnown(env, values[i], known))
    case Obj(_, _, fields) => Info(env, v).kind.UniqueInstance? || AllKeysKnown(env, fields, Info(env, v).modes, known)
  }

  predicate AllKeysKnown(env: Env, xs: seq<Value>, modes: seq<FieldMode>, known: set<nat>)
    decreases xs
  {
    xs == [] || modes == [] ||
    (if modes[0].Ignored? then AllKeysKnown(env, xs[1..], modes[1..], known)
     else KeysKnown(env, xs[0], known) && AllKeysKnown(env, xs[1..], modes[1..], known + Surely(env, xs[0])))
  }

  predicate KeyKnown(env: Env, k: Value, known: set<nat>) {
    IsRecorded(env, k) ==> k.id in known
  }

  // ------------------------------------------------------------- the relation

  function Swap(m: Maps): Maps { Maps(m.rhs, m.lhs) }

  /** n holds what m holds. */
  ghost predicate Extends(m: Maps, n: Maps) {
    && (forall x :: x in m.lhs ==> x in n.lhs && n.lhs[x] == m.lhs[x])
    && (forall y :: y in m.rhs ==> y in n.rhs && n.rhs[y] == m.rhs[y])
  }

  /** a and b are equal with the graph nodes and free variables of a standing for their partners. */
  predicate Related(env: Env, a: Value, b: Value, n: Maps)
    decreases a, 0
  {
    if TypeIndex(a) != TypeIndex(b) then SameText(a, b)
    else match (a, b)
      case (Plain(c), Plain(d)) => SameCell(c, d)
      case (Text(_, s), Text(_, t)) => s == t
      case (Arr(_, xs), Arr(_, ys)) => |xs| == |ys| && AllRelated(env, xs, ys, AllOrdinary(|xs|), n)
      case (Dict(_, ks, us), Dict(_, ls, vs)) =>
        |ks| == |ls| && forall i :: 0 <= i < |ks| && i < |us| ==> EntryRelated(env, ks[i], us[i], ls, vs, n)
      case (Obj(x, _, xs), Obj(y, _, ys)) =>
        var info := Info(env, a);
        && info.hasMetadata && !info.kind.Unsupported?
        && (if info.kind.UniqueInstance? then x == y
            else if info.kind.ConstTreeNode? && x == y then true
            else if Recorded(info.kind) then x in n.lhs && n.lhs[x] == y
            else |xs| == |ys| && AllRelated(env, xs, ys, info.modes, n))
      case _ => false
  }

  predicate AllRelated(env: Env, xs: seq<Value>, ys: seq<Value>, modes: seq<FieldMode>, n: Maps)
    decreases xs, 0
  {
    xs == [] || ys == [] || modes == [] ||
    ((modes[0].Ignored? || Related(env, xs[0], ys[0], n)) && AllRelated(env, xs[1..], ys[1..], modes[1..], n))
  }

  predicate EntryRelated(env: Env, k: Value, u: Value, ls: seq<Value>, vs: seq<Value>, n: Maps)
    decreases u, 1
  {
    && KeyKnown(env, k, n.lhs.Keys)
    && var j := IndexOf(ls, KeyPartner(env, n, k));
       j < |ls| && j < |vs| && Related(env, u, vs[j], n)
  }

  /** The key to look up on the other side. */
  function KeyPartner(env: Env, n: Maps, k: Value): Value
    requires KeyKnown(env, k, n.lhs.Keys)
  {
    if IsRecorded(env, k) then env.heap(n.lhs[k.id]) else k
  }

  ghost predicate Fit(env: Env, v: Value) { Placed(env, v) && Shaped(env, v) }

  ghost predicate AllFit(env: Env, vs: seq<Value>) {
    forall i :: 0 <= i < |vs| ==> Fit(env, vs[i])
  }

  /** x stands for an object of its own type, with the same contents. */
  ghost predicate PairRelated(env: Env, n: Maps, x: nat)
    requires x in n.lhs
  {
    var a, b := env.heap(x), env.heap(n.lhs[x]);
    && IsRecorded(env, a) && b.Obj? && a.tindex == b.tindex && a.id == x && b.id == n.lhs[x]
    && Fit(env, a) && Fit(env, b) && |a.fields| == |b.fields|
    && AllRelated(env, a.fields, b.fields, Info(env, a).modes, n)
  }

  /** Mappings that are inverse to each other and relate only objects with related contents. */
  ghost predicate Sound(env: Env, n: Maps) {
    Inverse(n) && forall x :: x in n.lhs ==> PairRelated(env, n, x)
  }

  lemma NothingSound(env: Env)
    ensures Sound(env, NO_MAPS) && Swap(NO_MAPS) == NO_MAPS
  {
  }

  lemma FieldsFit(env: Env, v: Value)
    requires Fit(env, v)
    ensures v.Arr? ==> AllFit(env, v.items)
    ensures v.Obj? ==> AllFit(env, v.fields) && |v.fields| == |Info(env, v).modes| && env.heap(v.id) == v
    ensures v.Dict? ==> AllFit(env, v.keys) && AllFit(env, v.values)
    ensures v.Dict? ==> |v.keys| == |v.values| && DistinctMapKeys(v.keys)
  {
  }

  ghost predicate DistinctMapKeys(ks: seq<Value>) {
    forall i, j :: 0 <= i < j < |ks| ==> !SameKey(ks[i], ks[j])
  }

  // ------------------------------------------------ larger mappings relate more

  lemma {:induction false} RelatedStays(env: Env, a: Value, b: Value, n: Maps, o: Maps)
    requires Related(env, a, b, n) && Extends(n, o)
    ensures Related(env, a, b, o)
    decreases a, 0
  {
    if TypeIndex(a) == TypeIndex(b) {
      if a.Arr? && b.Arr? {
        AllRelatedStays(env, a.items, b.items, AllOrdinary(|a.items|), n, o);
      } else if a.Dict? && b.Dict? {
        forall i | 0 <= i < |a.keys| && i < |a.values|
          ensures EntryRelated(env, a.keys[i], a.values[i], b.keys, b.values, o)
        {
          assert EntryRelated(env, a.keys[i], a.values[i], b.keys, b.values, n);
          EntryRelatedStays(env, a.keys[i], a.values[i], b.keys, b.values, n, o);
        }
      } else if a.Obj? && b.Obj? && |a.fields| == |b.fields| &&
                AllRelated(env, a.fields, b.fields, Info(env, a).modes, n) {
        AllRelatedStays(env, a.fields, b.fields, Info(env, a).modes, n, o);
      }
    }
  }

  lemma {:induction false} EntryRelatedStays(env: Env, k: Value, u: Value, ls: seq<Value>, vs: seq<Value>, n: Maps,
          o: Maps)
    requires EntryRelated(env, k, u, ls, vs, n) && Extends(n, o)
    ensures EntryRelated(env, k, u, ls, vs, o)
    decreases u, 1
  {
    assert KeyPartner(env, n, k) == KeyPartner(env, o, k);
    RelatedStays(env, u, vs[IndexOf(ls, KeyPartner(env, n, k))], n, o);
  }

  lemma {:induction false} AllRelatedStays(env: Env, xs: seq<Value>, ys: seq<Value>, modes: seq<FieldMode>, n: Maps,
          o: Maps)
    requires AllRelated(env, xs, ys, modes, n) && Extends(n, o)
    ensures AllRelated(env, xs, ys, modes, o)
    decreases xs, 0
  {
    if xs != [] && ys != [] && modes != [] {
      if !modes[0].Ignored? { RelatedStays(env, xs[0], ys[0], n, o); }
      AllRelatedStays(env, xs[1..], ys[1..], modes[1..], n, o);
    }
  }

  // ----------------------------------------- what is surely visited is recorded

  lemma {:induction false} SurelyRecorded(env: Env, a: Value, b: Value, n: Maps)
    requires Related(env, a, b, n) && Sound(env, n) && Fit(env, a)
    ensures Surely(env, a) <= n.lhs.Keys
    decreases a, 1
  {
    hide Fit, Sound, EntryRelated, AllRelated, SurelyAll;
    FieldsFit(env, a);
    if a.Arr? && b.Arr? {
      AllSurelyRecorded(env, a.items, b.items, AllOrdinary(|a.items|), n);
    } else if a.Dict? && b.Dict? {
      MapSurelyRecorded(env, a, b, n);
    } else if a.Obj? && b.Obj? && Surely(env, a) != {} {
      if Recorded(Info(env, a).kind) {
        PartnerContents(env, a, b, n);
        AllSurelyRecorded(env, a.fields, env.heap(b.id).fields, Info(env, a).modes, n);
      } else {
        AllSurelyRecorded(env, a.fields, b.fields, Info(env, a).modes, n);
      }
    }
  }

  lemma PartnerContents(env: Env, a: Value, b: Value, n: Maps)
    requires a.Obj? && b.Obj? && Fit(env, a) && Sound(env, n) && a.id in n.lhs && n.lhs[a.id] == b.id
    ensures env.heap(b.id).Obj? && |a.fields| == |env.heap(b.id).fields|
    ensures AllRelated(env, a.fields, env.heap(b.id).fields, Info(env, a).modes, n)
  {
    hide AllRelated, Shaped;
    AtItsId(env, a);
    assert PairRelated(env, n, a.id);
  }

  lemma {:induction false} MapSurelyRecorded(env: Env, a: Value, b: Value, n: Maps)
    requires a.Dict? && b.Dict? && Related(env, a, b, n) && Sound(env, n) && Fit(env, a)
    ensures SurelyAll(env, a.values, AllOrdinary(|a.values|)) <= n.lhs.Keys
    decreases a, 0
  {
    hide Fit, Sound, SurelyAll, Surely, KeyKnown;
    FieldsFit(env, a);
    forall i | 0 <= i < |a.values| ensures Surely(env, a.values[i]) <= n.lhs.Keys {
      assert EntryRelated(env, a.keys[i], a.values[i], b.keys, b.values, n);
      SurelyRecorded(env, a.values[i], b.values[IndexOf(b.keys, KeyPartner(env, n, a.keys[i]))], n);
    }
    SurelyOfEach(env, a.values, AllOrdinary(|a.values|), n.lhs.Keys);
  }

  lemma {:induction false} AllSurelyRecorded(env: Env, xs: seq<Value>, ys: seq<Value>, modes: seq<FieldMode>, n: Maps)
    requires AllRelated(env, xs, ys, modes, n) && Sound(env, n) && AllFit(env, xs) && |xs| == |ys|
    ensures SurelyAll(env, xs, modes) <= n.lhs.Keys
    decreases xs, 0
  {
    if xs != [] && modes != [] {
      if !modes[0].Ignored? { SurelyRecorded(env, xs[0], ys[0], n); }
      AllSurelyRecorded(env, xs[1..], ys[1..], modes[1..], n);
    }
  }

  lemma {:induction false} SurelyOfEach(env: Env, xs: seq<Value>, modes: seq<FieldMode>, s: set<nat>)
    requires forall i :: 0 <= i < |xs| ==> Surely(env, xs[i]) <= s
    ensures SurelyAll(env, xs, modes) <= s
    decreases xs
  {
    if xs != [] && modes != [] {
      SurelyOfEach(env, xs[1..], modes[1..], s);
    }
  }

  // ------------------------------------------------- the relation turned round

  lemma SameKeySymmetric(a: Value, b: Value)
    requires SameKey(a, b)
    ensures SameKey(b, a)
  {
  }

  /** Two keys that equal a third are equal: an inline string has one cell. */
  lemma {:induction false} SameKeyThird(a: Value, b: Value, c: Value)
    requires SameKey(a, c) && SameKey(b, c)
    ensures SameKey(a, b)
  {
    hide BytesOf;
    if a.Plain? && b.Plain? && c.Text? {
      WordFitsBytes(a.cell.word, a.cell.pad);
      WordFitsBytes(b.cell.word, b.cell.pad);
    }
  }

  /** Different numbers below n, n of them, are all numbers below n. */
  lemma {:induction false} AllTaken(s: seq<int>, n: nat, x: int)
    requires Injective(s) && |s| == n && 0 <= x < n && forall i :: 0 <= i < |s| ==> 0 <= s[i] < n
    ensures x in s
  {
    if x !in s { DenseTable.Pigeonhole(s + [x], n); }
  }

  /** When every key of ks is found in ls, and neither has a key twice, the keys pair off. */
  lemma {:induction false} KeysPairOff(ks: seq<Value>, ls: seq<Value>, j: nat) returns (i: nat)
    requires |ks| == |ls| && DistinctMapKeys(ks) && DistinctMapKeys(ls) && j < |ls|
    requires forall k :: 0 <= k < |ks| ==> IndexOf(ls, ks[k]) < |ls|
    ensures i < |ks| && IndexOf(ls, ks[i]) == j && IndexOf(ks, ls[j]) == i
  {
    var places := seq(|ks|, k requires 0 <= k < |ks| => IndexOf(ls, ks[k]));
    forall x, y | 0 <= x < y < |ks| ensures places[x] != places[y] {
      if places[x] == places[y] {
        SameKeySymmetric(ls[places[x]], ks[x]);
        SameKeySymmetric(ls[places[x]], ks[y]);
        SameKeyThird(ks[x], ks[y], ls[places[x]]);
      }
    }
    AllTaken(places, |ks|, j);
    i :| i < |ks| && places[i] == j;
    SameKeySymmetric(ls[j], ks[i]);
    FoundOnce(ks, ls[j], i);
  }

  lemma {:induction false} FoundOnce(ks: seq<Value>, k: Value, i: nat)
    requires DistinctMapKeys(ks) && i < |ks| && SameKey(ks[i], k)
    ensures IndexOf(ks, k) == i
  {
    var f := IndexOf(ks, k);
    if f < i { SameKeyThird(ks[f], ks[i], k); }
  }

  /** What recorded keys stand for differs as the keys do. */
  lemma {:induction false} PartnersDiffer(env: Env, k: Value, l: Value, n: Maps)
    requires Sound(env, n) && Placed(env, k) && Placed(env, l)
    requires KeyKnown(env, k, n.lhs.Keys) && KeyKnown(env, l, n.lhs.Keys) && !SameKey(k, l)
    ensures !SameKey(KeyPartner(env, n, k), KeyPartner(env, n, l))
  {
    hide Sound, Placed;
    AtItsId(env, k);
    AtItsId(env, l);
    PartnerOf(env, k, n);
    PartnerOf(env, l, n);
  }

  lemma AtItsId(env: Env, v: Value)
    requires Placed(env, v)
    ensures v.Obj? ==> env.heap(v.id) == v
  {
  }

  /** The partner of a recorded key is a recorded object with the partner's identity. */
  lemma PartnerOf(env: Env, k: Value, n: Maps)
    requires Sound(env, n) && KeyKnown(env, k, n.lhs.Keys)
    ensures k.Obj? || !IsRecorded(env, k)
    ensures IsRecorded(env, k) ==>
              && KeyPartner(env, n, k).Obj? && IsRecorded(env, KeyPartner(env, n, k))
              && k.id in n.lhs && KeyPartner(env, n, k).id == n.lhs[k.id]
              && n.lhs[k.id] in n.rhs && n.rhs[n.lhs[k.id]] == k.id
    ensures !IsRecorded(env, k) ==> KeyPartner(env, n, k) == k
  {
    hide AllRelated, Fit;
    if IsRecorded(env, k) { assert PairRelated(env, n, k.id); }
  }

  /** A key of the other map that is found by the partner of k has k for its own partner. */
  lemma {:induction false} PartnerBack(env: Env, k: Value, l: Value, n: Maps)
    requires Sound(env, n) && Placed(env, k) && Placed(env, l)
    requires KeyKnown(env, k, n.lhs.Keys) && SameKey(l, KeyPartner(env, n, k))
    ensures KeyKnown(env, l, n.rhs.Keys) && SameKey(k, KeyPartner(env, Swap(n), l))
  {
    SameKeySymmetric(l, KeyPartner(env, n, k));
    if IsRecorded(env, k) { assert PairRelated(env, n, k.id); }
  }

  lemma {:induction false} RelatedSwaps(env: Env, a: Value, b: Value, n: Maps)
    requires Related(env, a, b, n) && Sound(env, n) && Fit(env, a) && Fit(env, b)
    ensures Related(env, b, a, Swap(n))
    decreases a, 1
  {
    FieldsFit(env, a);
    FieldsFit(env, b);
    if TypeIndex(a) == TypeIndex(b) {
      if a.Arr? && b.Arr? {
        AllRelatedSwaps(env, a.items, b.items, AllOrdinary(|a.items|), n);
      } else if a.Dict? && b.Dict? {
        EntriesSwap(env, a, b, n);
      } else if a.Obj? && b.Obj? && |a.fields| == |b.fields| &&
                AllRelated(env, a.fields, b.fields, Info(env, a).modes, n) {
        AllRelatedSwaps(env, a.fields, b.fields, Info(env, a).modes, n);
      }
    }
  }

  lemma {:induction false} EntriesSwap(env: Env, a: Value, b: Value, n: Maps)
    requires a.Dict? && b.Dict? && Related(env, a, b, n) && Sound(env, n) && Fit(env, a) && Fit(env, b)
    ensures Related(env, b, a, Swap(n))
    decreases a, 0
  {
    hide Sound, Fit, Placed, Shaped;
    FieldsFit(env, a);
    FieldsFit(env, b);
    var ks, ls := a.keys, b.keys;
    forall i | 0 <= i < |ks| ensures EntryRelated(env, ks[i], a.values[i], ls, b.values, n) {
    }
    forall j | 0 <= j < |ls| ensures EntryRelated(env, ls[j], b.values[j], ks, a.values, Swap(n)) {
      var i := EntryBack(env, ks, a.values, ls, b.values, n, j);
      assert EntryRelated(env, ks[i], a.values[i], ls, b.values, n);
      RelatedSwaps(env, a.values[i], b.values[j], n);
    }
  }

  /** The entries of two related maps pair off. */
  lemma {:induction false} EntryBack(env: Env, ks: seq<Value>, us: seq<Value>, ls: seq<Value>, vs: seq<Value>, n: Maps,
          j: nat) returns (i: nat)
    requires |ks| == |us| == |ls| == |vs| && AllFit(env, ks) && AllFit(env, ls) && Sound(env, n)
    requires DistinctMapKeys(ks) && DistinctMapKeys(ls) && j < |ls|
    requires forall k :: 0 <= k < |ks| ==> EntryRelated(env, ks[k], us[k], ls, vs, n)
    ensures i < |ks| && EntryRelated(env, ks[i], us[i], ls, vs, n) && IndexOf(ls, KeyPartner(env, n, ks[i])) == j
    ensures KeyKnown(env, ls[j], n.rhs.Keys) && IndexOf(ks, KeyPartner(env, Swap(n), ls[j])) == i
  {
    hide Sound, Related;
    assert forall k :: 0 <= k < |ks| ==> EntryRelated(env, ks[k], us[k], ls, vs, n);
    var ps := seq(|ks|, k requires 0 <= k < |ks| => KeyPartner(env, n, ks[k]));
    forall x, y | 0 <= x < y < |ps| ensures !SameKey(ps[x], ps[y]) {
      PartnersDiffer(env, ks[x], ks[y], n);
    }
    i := KeysPairOff(ps, ls, j);
    PartnerBack(env, ks[i], ls[j], n);
    FoundOnce(ks, KeyPartner(env, Swap(n), ls[j]), i);
  }

  lemma {:induction false} AllRelatedSwaps(env: Env, xs: seq<Value>, ys: seq<Value>, modes: seq<FieldMode>, n: Maps)
    requires AllRelated(env, xs, ys, modes, n) && Sound(env, n) && AllFit(env, xs) && AllFit(env, ys)
    ensures AllRelated(env, ys, xs, modes, Swap(n))
    decreases xs, 0
  {
    if xs != [] && ys != [] && modes != [] {
      if !modes[0].Ignored? { RelatedSwaps(env, xs[0], ys[0], n); }
      AllRelatedSwaps(env, xs[1..], ys[1..], modes[1..], n);
    }
  }

  lemma {:induction false} SoundSwaps(env: Env, n: Maps)
    requires Sound(env, n)
    ensures Sound(env, Swap(n))
  {
    forall y | y in n.rhs ensures PairRelated(env, Swap(n), y) {
      var x := n.rhs[y];
      assert PairRelated(env, n, x);
      var a, b := env.heap(x), env.heap(y);
      FieldsFit(env, a);
      FieldsFit(env, b);
      AllRelatedSwaps(env, a.fields, b.fields, Info(env, a).modes, n);
    }
  }

  // ------------------------------------------ a True comparison relates its values

  /** A free variable of the right side recorded since m is mapped to itself, or is one of s. */
  ghost predicate NewVars(env: Env, m: Maps, n: Maps, s: set<nat>) {
    forall y :: y in n.rhs && y !in m.rhs && IsVar(env, y) ==> n.rhs[y] == y || y in s
  }

  predicate IsVar(env: Env, y: nat) { env.heap(y).Obj? && Info(env, env.heap(y)).kind.FreeVar? }

  /** What a True comparison that starts from m and ends with n has established. */
  ghost predicate Grown(env: Env, m: Maps, n: Maps, s: set<nat>) {
    Extends(m, n) && Sound(env, n) && NewVars(env, m, n, s)
  }

  lemma GrownSelf(env: Env, m: Maps, s: set<nat>)
    requires Sound(env, m)
    ensures Grown(env, m, m, s)
  {
  }

  lemma GrownTwice(env: Env, m: Maps, n: Maps, o: Maps, s: set<nat>, t: set<nat>, done: set<nat>)
    requires Grown(env, m, n, s) && Grown(env, n, o, t) && done <= n.rhs.Keys
    ensures Grown(env, m, o, s + (t - done))
  {
    hide Sound, IsVar;
  }

  lemma GrownMore(env: Env, m: Maps, n: Maps, s: set<nat>, t: set<nat>)
    requires Grown(env, m, n, s) && s <= t
    ensures Grown(env, m, n, t)
  {
  }

  /** A pair of objects with related contents may be recorded. */
  lemma {:induction false} RecordSound(env: Env, a: Value, b: Value, n: Maps)
    requires a.Obj? && b.Obj? && a.tindex == b.tindex && Fit(env, a) && Fit(env, b) && IsRecorded(env, a)
    requires Sound(env, n) && a.id !in n.lhs && b.id !in n.rhs
    requires AllRelated(env, a.fields, b.fields, Info(env, a).modes, n)
    ensures Extends(n, Record(n, a.id, b.id)) && Sound(env, Record(n, a.id, b.id))
  {
    hide AllRelated, Fit, IsRecorded, PairRelated, Inverse;
    var o := Record(n, a.id, b.id);
    RecordInverse(n, a.id, b.id);
    forall x | x in o.lhs ensures PairRelated(env, o, x) {
      if x == a.id {
        NewPair(env, a, b, n);
      } else {
        PairStays(env, n, o, x);
      }
    }
  }

  lemma {:induction false} NewPair(env: Env, a: Value, b: Value, n: Maps)
    requires a.Obj? && b.Obj? && a.tindex == b.tindex && Fit(env, a) && Fit(env, b) && IsRecorded(env, a)
    requires a.id !in n.lhs && b.id !in n.rhs && AllRelated(env, a.fields, b.fields, Info(env, a).modes, n)
    ensures PairRelated(env, Record(n, a.id, b.id), a.id)
  {
    hide AllRelated, Placed, Shaped;
    FieldsFit(env, a);
    FieldsFit(env, b);
    AllRelatedStays(env, a.fields, b.fields, Info(env, a).modes, n, Record(n, a.id, b.id));
  }

  lemma {:induction false} PairStays(env: Env, n: Maps, o: Maps, x: nat)
    requires Extends(n, o) && x in n.lhs && PairRelated(env, n, x)
    ensures PairRelated(env, o, x)
  {
    hide AllRelated, Fit;
    AllRelatedStays(env, env.heap(x).fields, env.heap(n.lhs[x]).fields, Info(env, env.heap(x)).modes, n, o);
  }

  lemma {:induction false} Matched(env: Env, a: Value, b: Value, free: bool, traced: bool, m: Maps, known: set<nat>)
    requires Fit(env, a) && Fit(env, b) && Sound(env, m) && KeysKnown(env, a, known) && known <= m.lhs.Keys
    requires EqAny(env, a, b, free, traced, m).out.True?
    ensures var n := EqAny(env, a, b, free, traced, m).maps;
            Grown(env, m, n, First(env, b, free, true)) && Related(env, a, b, n)
    decreases a, 1
  {
    hide Sound, Fit, EqObject, EqAll, EqEntries, Grown, KeyKnown;
    GrownSelf(env, m, First(env, b, free, true));
    FieldsFit(env, a);
    FieldsFit(env, b);
    if TypeIndex(a) == TypeIndex(b) {
      if a.Arr? && b.Arr? {
        AllMatched(env, a.items, b.items, AllOrdinary(|a.items|), free, traced, m, known);
      } else if a.Dict? && b.Dict? {
        EntriesMatched(env, a.keys, a.values, b.keys, b.values, free, traced, m, known);
      } else if a.Obj? && b.Obj? {
        ObjectMatched(env, a, b, free, traced, m, known);
      }
    }
  }

  lemma {:induction false} ObjectMatched(env: Env, a: Value, b: Value, free: bool, traced: bool, m: Maps,
          known: set<nat>)
    requires a.Obj? && b.Obj? && a.tindex == b.tindex && Fit(env, a) && Fit(env, b)
    requires Sound(env, m) && KeysKnown(env, a, known) && known <= m.lhs.Keys
    requires EqObject(env, a, b, free, traced, m).out.True?
    ensures var n := EqObject(env, a, b, free, traced, m).maps;
            Grown(env, m, n, First(env, b, free, true)) && Related(env, a, b, n)
    decreases a, 0
  {
    hide Fit, EqAll, Grown, Sound, SurelyAll, FirstAll, AllRelated, AllKeysKnown;
    GrownSelf(env, m, First(env, b, free, true));
    var info := Info(env, a);
    if !(info.kind.UniqueInstance? || (info.kind.ConstTreeNode? && a.id == b.id) ||
         (Recorded(info.kind) && a.id in m.lhs)) {
      FieldsFit(env, a);
      FieldsFit(env, b);
      AllMatched(env, a.fields, b.fields, info.modes, free, traced, m, known);
      var r := EqAll(env, a.fields, b.fields, info.modes, free, traced, m).maps;
      var s := FirstAll(env, b.fields, info.modes, free, true);
      GrownMore(env, m, r, s, First(env, b, free, true));
      if Recorded(info.kind) {
        StillFresh(env, a, b, free, traced, m);
        PairMatched(env, a, b, free, m, r, s);
      }
    }
  }

  /** An object is not recorded while its fields are compared. */
  lemma {:induction false} StillFresh(env: Env, a: Value, b: Value, free: bool, traced: bool, m: Maps)
    requires a.Obj? && b.Obj? && a.tindex == b.tindex && Fit(env, a) && Fit(env, b)
    requires Sound(env, m) && a.id !in m.lhs && b.id !in m.rhs
    ensures var r := EqAll(env, a.fields, b.fields, Info(env, a).modes, free, traced, m).maps;
            a.id !in r.lhs && b.id !in r.rhs
  {
    hide EqAll, Within, Shaped, AllRelated, PairRelated, Record;
    var modes := Info(env, a).modes;
    InverseAll(env, a.fields, b.fields, modes, free, traced, m);
    RecordAbove(env, a, b, m, EqAll(env, a.fields, b.fields, modes, free, traced, m).maps);
  }

  lemma {:induction false} PairMatched(env: Env, a: Value, b: Value, free: bool, m: Maps, r: Maps, s: set<nat>)
    requires a.Obj? && b.Obj? && a.tindex == b.tindex && Fit(env, a) && Fit(env, b) && IsRecorded(env, a)
    requires Grown(env, m, r, s) && AllRelated(env, a.fields, b.fields, Info(env, a).modes, r)
    requires a.id !in r.lhs && b.id !in r.rhs && (Info(env, a).kind.FreeVar? ==> free || a.id == b.id)
    ensures Grown(env, m, Record(r, a.id, b.id), s + if Info(env, a).kind.FreeVar? && free then {b.id} else {})
  {
    hide Sound, AllRelated, Fit;
    FieldsFit(env, b);
    RecordSound(env, a, b, r);
  }

  lemma {:induction false} AllMatched(env: Env, xs: seq<Value>, ys: seq<Value>, modes: seq<FieldMode>, free: bool,
          traced: bool, m: Maps, known: set<nat>)
    requires |xs| == |ys| == |modes| && AllFit(env, xs) && AllFit(env, ys)
    requires Sound(env, m) && AllKeysKnown(env, xs, modes, known) && known <= m.lhs.Keys
    requires EqAll(env, xs, ys, modes, free, traced, m).out.True?
    ensures var n := EqAll(env, xs, ys, modes, free, traced, m).maps;
            Grown(env, m, n, FirstAll(env, ys, modes, free, true)) && AllRelated(env, xs, ys, modes, n)
    decreases xs, 0
  {
    hide Fit, Grown, Sound, EqAny, Related, KeysKnown;
    GrownSelf(env, m, FirstAll(env, ys, modes, free, true));
    if modes != [] {
      if modes[0].Ignored? {
        AllMatched(env, xs[1..], ys[1..], modes[1..], free, traced, m, known);
      } else {
        var f := free || modes[0].Def?;
        var r := EqAny(env, xs[0], ys[0], f, traced, m).maps;
        Matched(env, xs[0], ys[0], f, traced, m, known);
        GrownParts(env, m, r, First(env, ys[0], f, true));
        VisitedOnBothSides(env, xs[0], ys[0], r);
        AllMatched(env, xs[1..], ys[1..], modes[1..], free, traced, r, known + Surely(env, xs[0]));
        var n := EqAll(env, xs, ys, modes, free, traced, m).maps;
        GrownParts(env, r, n, FirstAll(env, ys[1..], modes[1..], free, true));
        RelatedStays(env, xs[0], ys[0], r, n);
        GrownTwice(env, m, r, n, First(env, ys[0], f, true), FirstAll(env, ys[1..], modes[1..], free, true),
                   Surely(env, ys[0]));
      }
    }
  }

  lemma GrownParts(env: Env, m: Maps, n: Maps, s: set<nat>)
    requires Grown(env, m, n, s)
    ensures Extends(m, n) && Sound(env, n) && m.lhs.Keys <= n.lhs.Keys && m.rhs.Keys <= n.rhs.Keys
  {
  }

  lemma {:induction false} VisitedOnBothSides(env: Env, a: Value, b: Value, n: Maps)
    requires Related(env, a, b, n) && Sound(env, n) && Fit(env, a) && Fit(env, b)
    ensures Surely(env, a) <= n.lhs.Keys && Surely(env, b) <= n.rhs.Keys
  {
    hide Sound, Related, Fit;
    SurelyRecorded(env, a, b, n);
    RelatedSwaps(env, a, b, n);
    SoundSwaps(env, n);
    SurelyRecorded(env, b, a, Swap(n));
  }

  lemma {:induction false} FirstOfEach(env: Env, xs: seq<Value>, i: nat, free: bool, flag: bool)
    requires i < |xs|
    ensures First(env, xs[i], free, flag) <= FirstAny(env, xs, free, flag)
  {
    if i > 0 { FirstOfEach(env, xs[1..], i - 1, free, flag); }
  }

  /** The key that is looked up is the one the final mappings give. */
  lemma LookedUp(env: Env, k: Value, m: Maps, n: Maps, known: set<nat>)
    requires Sound(env, m) && Extends(m, n) && Fit(env, k) && KeyKnown(env, k, known) && known <= m.lhs.Keys
    ensures KeyKnown(env, k, n.lhs.Keys) && Partner(env, m, k) == KeyPartner(env, n, k)
  {
    hide AllRelated, Shaped;
    AtItsId(env, k);
    hide Placed, Fit;
    if k.Obj? && k.id in m.lhs { assert PairRelated(env, m, k.id); }
  }

  lemma {:induction false} EntriesMatched(env: Env, ks: seq<Value>, us: seq<Value>, ls: seq<Value>, vs: seq<Value>,
          free: bool, traced: bool, m: Maps, known: set<nat>)
    requires |ks| == |us| && AllFit(env, ks) && AllFit(env, us) && AllFit(env, vs)
    requires Sound(env, m) && known <= m.lhs.Keys
    requires forall i :: 0 <= i < |ks| ==> KeyKnown(env, ks[i], known) && KeysKnown(env, us[i], known)
    requires EqEntries(env, ks, us, ls, vs, free, traced, m).out.True?
    ensures var n := EqEntries(env, ks, us, ls, vs, free, traced, m).maps;
            && Grown(env, m, n, FirstAny(env, vs, free, true))
            && forall i :: 0 <= i < |ks| ==> EntryRelated(env, ks[i], us[i], ls, vs, n)
    decreases us, 0
  {
    hide Fit, Grown, Sound, EqAny, Related, KeysKnown, KeyKnown;
    var s := FirstAny(env, vs, free, true);
    GrownSelf(env, m, s);
    if ks != [] {
      var j := IndexOf(ls, Partner(env, m, ks[0]));
      var r := EqAny(env, us[0], vs[j], free, traced, m).maps;
      Matched(env, us[0], vs[j], free, traced, m, known);
      FirstOfEach(env, vs, j, free, true);
      GrownMore(env, m, r, First(env, vs[j], free, true), s);
      GrownParts(env, m, r, s);
      EntriesMatched(env, ks[1..], us[1..], ls, vs, free, traced, r, known);
      var n := EqEntries(env, ks, us, ls, vs, free, traced, m).maps;
      GrownParts(env, r, n, s);
      GrownTwice(env, m, r, n, s, s, {});
      GrownMore(env, m, n, s + (s - {}), s);
      RelatedStays(env, us[0], vs[j], r, n);
      GrownParts(env, m, n, s);
      LookedUp(env, ks[0], m, n, known);
      assert forall i :: 0 < i < |ks| ==> ks[i] == ks[1..][i - 1] && us[i] == us[1..][i - 1];
    }
  }

  // ------------------------------------ related values compare as True from anywhere

  /** The free variables of s that are still to be matched stand for themselves. */
  ghost predicate VarsFixed(m: Maps, n: Maps, s: set<nat>) {
    forall x :: x in s && x in n.lhs && x !in m.lhs ==> n.lhs[x] == x
  }

  lemma {:induction false} Follows(env: Env, a: Value, b: Value, free: bool, traced: bool, m: Maps, n: Maps,
          known: set<nat>)
    requires Fit(env, a) && Fit(env, b) && Sound(env, m) && Sound(env, n) && Extends(m, n) && Related(env, a, b, n)
    requires KeysKnown(env, a, known) && known <= m.lhs.Keys && VarsFixed(m, n, First(env, a, free, false))
    ensures var r := EqAny(env, a, b, free, traced, m); r.out.True? && Extends(r.maps, n)
    decreases a, 1
  {
    hide Sound, Fit, EqObject, EqAll, EqEntries, KeyKnown, Extends, VarsFixed;
    FieldsFit(env, a);
    FieldsFit(env, b);
    if TypeIndex(a) == TypeIndex(b) {
      if a.Arr? && b.Arr? {
        AllFollow(env, a.items, b.items, AllOrdinary(|a.items|), free, traced, m, n, known);
      } else if a.Dict? && b.Dict? {
        EntriesFollow(env, a.keys, a.values, b.keys, b.values, free, traced, m, n, known);
      } else if a.Obj? && b.Obj? {
        ObjectFollows(env, a, b, free, traced, m, n, known);
      }
    }
  }

  lemma {:induction false} ObjectFollows(env: Env, a: Value, b: Value, free: bool, traced: bool, m: Maps, n: Maps,
          known: set<nat>)
    requires a.Obj? && b.Obj? && a.tindex == b.tindex
    requires Fit(env, a) && Fit(env, b) && Sound(env, m) && Sound(env, n) && Extends(m, n) && Related(env, a, b, n)
    requires KeysKnown(env, a, known) && known <= m.lhs.Keys && VarsFixed(m, n, First(env, a, free, false))
    ensures var r := EqObject(env, a, b, free, traced, m); r.out.True? && Extends(r.maps, n)
    decreases a, 0
  {
    hide Fit, EqAll, Sound, SurelyAll, FirstAll, AllRelated, AllKeysKnown;
    var info := Info(env, a);
    if Recorded(info.kind) { PairAhead(env, a, b, m, n); }
    if !(info.kind.UniqueInstance? || (info.kind.ConstTreeNode? && a.id == b.id) ||
         (Recorded(info.kind) && a.id in m.lhs)) {
      FieldsFit(env, a);
      FieldsFit(env, b);
      AllFollow(env, a.fields, b.fields, info.modes, free, traced, m, n, known);
    }
  }

  /** The partner of an object that n relates but m does not is free in m, and the contents are related. */
  lemma PairAhead(env: Env, a: Value, b: Value, m: Maps, n: Maps)
    requires a.Obj? && b.Obj? && Fit(env, a) && Fit(env, b) && Sound(env, m) && Sound(env, n) && Extends(m, n)
    requires a.id in n.lhs && n.lhs[a.id] == b.id
    ensures a.id in m.lhs ==> m.lhs[a.id] == b.id
    ensures a.id !in m.lhs ==> b.id !in m.rhs
    ensures b.id in n.rhs && n.rhs[b.id] == a.id && |a.fields| == |b.fields|
    ensures AllRelated(env, a.fields, b.fields, Info(env, a).modes, n)
  {
    hide AllRelated, Shaped;
    AtItsId(env, a);
    AtItsId(env, b);
    assert PairRelated(env, n, a.id);
  }

  lemma {:induction false} AllFollow(env: Env, xs: seq<Value>, ys: seq<Value>, modes: seq<FieldMode>, free: bool,
          traced: bool, m: Maps, n: Maps, known: set<nat>)
    requires |xs| == |ys| == |modes| && AllFit(env, xs) && AllFit(env, ys)
    requires Sound(env, m) && Sound(env, n) && Extends(m, n) && AllRelated(env, xs, ys, modes, n)
    requires AllKeysKnown(env, xs, modes, known) && known <= m.lhs.Keys
    requires VarsFixed(m, n, FirstAll(env, xs, modes, free, false))
    ensures var r := EqAll(env, xs, ys, modes, free, traced, m); r.out.True? && Extends(r.maps, n)
    decreases xs, 0
  {
    hide Fit, Sound, EqAny, Related, KeysKnown, Extends, Grown;
    if modes != [] {
      if modes[0].Ignored? {
        AllFollow(env, xs[1..], ys[1..], modes[1..], free, traced, m, n, known);
      } else {
        var f := free || modes[0].Def?;
        Follows(env, xs[0], ys[0], f, traced, m, n, known);
        var r := EqAny(env, xs[0], ys[0], f, traced, m).maps;
        Matched(env, xs[0], ys[0], f, traced, m, known);
        GrownParts(env, m, r, First(env, ys[0], f, true));
        SurelyRecorded(env, xs[0], ys[0], r);
        AllFollow(env, xs[1..], ys[1..], modes[1..], free, traced, r, n, known + Surely(env, xs[0]));
      }
    }
  }

  lemma {:induction false} EntriesFollow(env: Env, ks: seq<Value>, us: seq<Value>, ls: seq<Value>, vs: seq<Value>,
          free: bool, traced: bool, m: Maps, n: Maps, known: set<nat>)
    requires |ks| == |us| && AllFit(env, ks) && AllFit(env, us) && AllFit(env, vs)
    requires Sound(env, m) && Sound(env, n) && Extends(m, n) && known <= m.lhs.Keys
    requires forall i :: 0 <= i < |ks| ==> KeyKnown(env, ks[i], known) && KeysKnown(env, us[i], known)
    requires forall i :: 0 <= i < |ks| ==> EntryRelated(env, ks[i], us[i], ls, vs, n)
    requires VarsFixed(m, n, FirstAny(env, us, free, false))
    ensures var r := EqEntries(env, ks, us, ls, vs, free, traced, m); r.out.True? && Extends(r.maps, n)
    decreases us, 0
  {
    hide Fit, Sound, EqAny, Related, KeysKnown, KeyKnown, Extends, Grown;
    if ks != [] {
      assert EntryRelated(env, ks[0], us[0], ls, vs, n);
      LookedUp(env, ks[0], m, n, known);
      var j := IndexOf(ls, Partner(env, m, ks[0]));
      Follows(env, us[0], vs[j], free, traced, m, n, known);
      var r := EqAny(env, us[0], vs[j], free, traced, m).maps;
      Matched(env, us[0], vs[j], free, traced, m, known);
      GrownParts(env, m, r, First(env, vs[j], free, true));
      forall i | 0 <= i < |ks[1..]| ensures EntryRelated(env, ks[1..][i], us[1..][i], ls, vs, n) {
        assert EntryRelated(env, ks[i + 1], us[i + 1], ls, vs, n);
      }
      EntriesFollow(env, ks[1..], us[1..], ls, vs, free, traced, r, n, known);
    }
  }

  // ---------------------------------------------------------- the other direction

  lemma {:induction false} FirstAreVars(env: Env, v: Value, free: bool, flag: bool)
    requires Fit(env, v)
    ensures forall x :: x in First(env, v, free, flag) ==> IsVar(env, x)
    decreases v, 0
  {
    hide Fit;
    FieldsFit(env, v);
    if v.Arr? {
      AllFirstAreVars(env, v.items, AllOrdinary(|v.items|), free, flag);
    } else if v.Dict? {
      AnyFirstAreVars(env, v.values, free, flag);
    } else if v.Obj? {
      AllFirstAreVars(env, v.fields, Info(env, v).modes, free, flag);
    }
  }

  lemma {:induction false} AllFirstAreVars(env: Env, xs: seq<Value>, modes: seq<FieldMode>, free: bool, flag: bool)
    requires AllFit(env, xs)
    ensures forall x :: x in FirstAll(env, xs, modes, free, flag) ==> IsVar(env, x)
    decreases xs, 0
  {
    hide Fit, IsVar;
    if xs != [] && modes != [] {
      if !modes[0].Ignored? { FirstAreVars(env, xs[0], free || modes[0].Def?, flag); }
      AllFirstAreVars(env, xs[1..], modes[1..], free, flag);
    }
  }

  lemma {:induction false} AnyFirstAreVars(env: Env, xs: seq<Value>, free: bool, flag: bool)
    requires AllFit(env, xs)
    ensures forall x :: x in FirstAny(env, xs, free, flag) ==> IsVar(env, x)
    decreases xs, 0
  {
    hide Fit, IsVar;
    if xs != [] {
      FirstAreVars(env, xs[0], free, flag);
      AnyFirstAreVars(env, xs[1..], free, flag);
    }
  }

  /** In whatever order b is visited, a free variable that is new to it is first met in a mapped position, or in one
      that is not. */
  predicate Settles(env: Env, b: Value, free: bool, known: set<nat>) {
    First(env, b, free, true) * First(env, b, free, false) <= known
  }

  /** A comparison that is True is True in the other direction, and records no more. */
  lemma {:induction false} TrueBack(env: Env, a: Value, b: Value, free: bool, traced: bool, m: Maps, knownA: set<nat>,
          knownB: set<nat>)
    requires Fit(env, a) && Fit(env, b) && Sound(env, m) && EqAny(env, a, b, free, traced, m).out.True?
    requires KeysKnown(env, a, knownA) && knownA <= m.lhs.Keys && KeysKnown(env, b, knownB) && knownB <= m.rhs.Keys
    requires Settles(env, b, free, knownB)
    ensures var q := EqAny(env, b, a, free, traced, Swap(m));
            q.out.True? && Extends(q.maps, Swap(EqAny(env, a, b, free, traced, m).maps))
  {
    hide Sound, Fit, EqAny, Related, First, IsVar, KeysKnown;
    var n := EqAny(env, a, b, free, traced, m).maps;
    Matched(env, a, b, free, traced, m, knownA);
    RelatedSwaps(env, a, b, n);
    SoundSwaps(env, m);
    SoundSwaps(env, n);
    FirstAreVars(env, b, free, false);
    Follows(env, b, a, free, traced, Swap(m), Swap(n), knownB);
  }
}
