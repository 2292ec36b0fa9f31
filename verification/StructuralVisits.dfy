// What a traversal of a value visits: which free variables it can meet first
// in which position, and the values whose hash no counter takes part in.
module StructuralVisits {
  import opened AnyCells
  import opened AssocList
  import opened HashOrder
  import opened StructuralValues
  import opened StructuralEqual
  import opened StructuralHash
  import opened StructuralMatching

  /** The free variables that hashing v, with the entries of its maps in any order, can meet first in a mapped position,
      with flag true, or in one that is not mapped. */
  function Met(env: Env, v: Value, free: bool, flag: bool): set<nat>
    decreases v
  {
    match v
    case Plain(_) => {}
    case Text(_, _) => {}
    case Arr(_, items) => MetAll(env, items, AllOrdinary(|items|), free, flag)
    case Dict(_, _, values) => MetAny(env, values, free, flag)
    case Obj(id, _, fields) =>
      var info := Info(env, v);
      MetAll(env, fields, info.modes, free, flag) + if info.kind.FreeVar? && free == flag then {id} else {}
  }

  function MetAll(env: Env, xs: seq<Value>, modes: seq<FieldMode>, free: bool, flag: bool): set<nat>
    decreases xs
  {
    if xs == [] || modes == [] then {}
    else if modes[0].Ignored? then MetAll(env, xs[1..], modes[1..], free, flag)
    else
      Met(env, xs[0], free || modes[0].Def?, flag) +
      (MetAll(env, xs[1..], modes[1..], free, flag) - Sure(env, xs[0]))
  }

  function MetAny(env: Env, xs: seq<Value>, free: bool, flag: bool): set<nat>
    decreases xs
  {
    if xs == [] then {} else Met(env, xs[0], free, flag) + MetAny(env, xs[1..], free, flag)
  }

  lemma {:induction false} MetOfEach(env: Env, xs: seq<Value>, i: nat, free: bool, flag: bool)
    requires i < |xs|
    ensures Met(env, xs[i], free, flag) <= MetAny(env, xs, free, flag)
  {
    if i > 0 { MetOfEach(env, xs[1..], i - 1, free, flag); }
  }

  // ------------------------------------------- what is met is compared as well

  lemma {:induction false} SureIsSurely(env: Env, v: Value)
    ensures Sure(env, v) <= Surely(env, v)
    decreases v
  {
    if v.Arr? {
      AllSureIsSurely(env, v.items, AllOrdinary(|v.items|));
    } else if v.Dict? {
      AllSureIsSurely(env, v.values, AllOrdinary(|v.values|));
    } else if v.Obj? {
      AllSureIsSurely(env, v.fields, Info(env, v).modes);
    }
  }

  lemma {:induction false} AllSureIsSurely(env: Env, xs: seq<Value>, modes: seq<FieldMode>)
    ensures SureAll(env, xs, modes) <= SurelyAll(env, xs, modes)
    decreases xs
  {
    if xs != [] && modes != [] {
      if !modes[0].Ignored? { SureIsSurely(env, xs[0]); }
      AllSureIsSurely(env, xs[1..], modes[1..]);
    }
  }

  lemma {:induction false} FirstIsMet(env: Env, v: Value, free: bool, flag: bool)
    ensures First(env, v, free, flag) <= Met(env, v, free, flag)
    decreases v
  {
    if v.Arr? {
      AllFirstIsMet(env, v.items, AllOrdinary(|v.items|), free, flag);
    } else if v.Dict? {
      AnyFirstIsMet(env, v.values, free, flag);
    } else if v.Obj? {
      AllFirstIsMet(env, v.fields, Info(env, v).modes, free, flag);
    }
  }

  lemma {:induction false} AllFirstIsMet(env: Env, xs: seq<Value>, modes: seq<FieldMode>, free: bool, flag: bool)
    ensures FirstAll(env, xs, modes, free, flag) <= MetAll(env, xs, modes, free, flag)
    decreases xs
  {
    if xs != [] && modes != [] {
      if !modes[0].Ignored? {
        FirstIsMet(env, xs[0], free || modes[0].Def?, flag);
        SureIsSurely(env, xs[0]);
      }
      AllFirstIsMet(env, xs[1..], modes[1..], free, flag);
    }
  }

  lemma {:induction false} AnyFirstIsMet(env: Env, xs: seq<Value>, free: bool, flag: bool)
    ensures FirstAny(env, xs, free, flag) <= MetAny(env, xs, free, flag)
    decreases xs
  {
    if xs != [] {
      FirstIsMet(env, xs[0], free, flag);
      AnyFirstIsMet(env, xs[1..], free, flag);
    }
  }

  lemma {:induction false} MetKeysAreKnown(env: Env, v: Value, known: set<nat>, more: set<nat>)
    requires KeysMet(env, v, known) && known <= more
    ensures KeysKnown(env, v, more)
    decreases v
  {
    if v.Arr? {
      AllMetKeysAreKnown(env, v.items, AllOrdinary(|v.items|), known, more);
    } else if v.Dict? {
      forall i | 0 <= i < |v.keys| ensures KeyKnown(env, v.keys[i], more) {
        assert KeyMet(env, v.keys[i], known);
      }
      forall i | 0 <= i < |v.values| ensures KeysKnown(env, v.values[i], more) {
        MetKeysAreKnown(env, v.values[i], known, more);
      }
    } else if v.Obj? {
      AllMetKeysAreKnown(env, v.fields, Info(env, v).modes, known, more);
    }
  }

  lemma {:induction false} AllMetKeysAreKnown(env: Env, xs: seq<Value>, modes: seq<FieldMode>, known: set<nat>,
          more: set<nat>)
    requires AllKeysMet(env, xs, modes, known) && known <= more
    ensures AllKeysKnown(env, xs, modes, more)
    decreases xs
  {
    if xs != [] && modes != [] {
      if modes[0].Ignored? {
        AllMetKeysAreKnown(env, xs[1..], modes[1..], known, more);
      } else {
        MetKeysAreKnown(env, xs[0], known, more);
        SureIsSurely(env, xs[0]);
        AllMetKeysAreKnown(env, xs[1..], modes[1..], known + Sure(env, xs[0]), more + Surely(env, xs[0]));
      }
    }
  }

  lemma {:induction false} MetAreVars(env: Env, v: Value, free: bool, flag: bool)
    requires Placed(env, v)
    ensures forall x :: x in Met(env, v, free, flag) ==> IsVar(env, x)
    decreases v
  {
    hide IsVar;
    if v.Arr? {
      AllMetAreVars(env, v.items, AllOrdinary(|v.items|), free, flag);
    } else if v.Dict? {
      AnyMetAreVars(env, v.values, free, flag);
    } else if v.Obj? {
      AllMetAreVars(env, v.fields, Info(env, v).modes, free, flag);
      VarAtItsId(env, v);
    }
  }

  lemma VarAtItsId(env: Env, v: Value)
    requires v.Obj? && Placed(env, v)
    ensures IsVar(env, v.id) <==> Info(env, v).kind.FreeVar?
    ensures env.heap(v.id) == v
  {
  }

  lemma {:induction false} AllMetAreVars(env: Env, xs: seq<Value>, modes: seq<FieldMode>, free: bool, flag: bool)
    requires AllPlaced(env, xs)
    ensures forall x :: x in MetAll(env, xs, modes, free, flag) ==> IsVar(env, x)
    decreases xs
  {
    hide IsVar;
    if xs != [] && modes != [] {
      if !modes[0].Ignored? { MetAreVars(env, xs[0], free || modes[0].Def?, flag); }
      AllMetAreVars(env, xs[1..], modes[1..], free, flag);
    }
  }

  lemma {:induction false} AnyMetAreVars(env: Env, xs: seq<Value>, free: bool, flag: bool)
    requires AllPlaced(env, xs)
    ensures forall x :: x in MetAny(env, xs, free, flag) ==> IsVar(env, x)
    decreases xs
  {
    hide IsVar;
    if xs != [] {
      MetAreVars(env, xs[0], free, flag);
      AnyMetAreVars(env, xs[1..], free, flag);
    }
  }

  // ---------------------------------------------------------- loose contents

  /** Values that are hashed alike wherever they are met: no graph node, no free variable that is mapped, and no object
      as the key of a map. */
  predicate Loose(env: Env, v: Value, mapped: set<nat>)
    decreases v
  {
    match v
    case Plain(_) => true
    case Text(_, _) => true
    case Arr(_, items) => AllLoose(env, items, AllOrdinary(|items|), mapped)
    case Dict(_, keys, values) =>
      && (forall i :: 0 <= i < |keys| ==> !keys[i].Obj?)
      && (forall i :: 0 <= i < |values| ==> Loose(env, values[i], mapped))
    case Obj(id, _, fields) =>
      var info := Info(env, v);
      && info.hasMetadata && !info.kind.Unsupported? && !info.kind.DAGNode?
      && (info.kind.FreeVar? ==> id !in mapped)
      && AllLoose(env, fields, info.modes, mapped)
  }

  predicate AllLoose(env: Env, xs: seq<Value>, modes: seq<FieldMode>, mapped: set<nat>)
    decreases xs
  {
    xs == [] || modes == [] ||
    ((modes[0].Ignored? || Loose(env, xs[0], mapped)) && AllLoose(env, xs[1..], modes[1..], mapped))
  }

  ghost predicate LooseVar(env: Env, mapped: set<nat>, x: nat) {
    IsVar(env, x) && Loose(env, env.heap(x), mapped)
  }

  lemma {:induction false} LooseKeysMet(env: Env, v: Value, mapped: set<nat>, known: set<nat>)
    requires Loose(env, v, mapped)
    ensures KeysMet(env, v, known)
    decreases v
  {
    if v.Arr? {
      AllLooseKeysMet(env, v.items, AllOrdinary(|v.items|), mapped, known);
    } else if v.Dict? {
      forall i | 0 <= i < |v.values| ensures KeysMet(env, v.values[i], known) {
        LooseKeysMet(env, v.values[i], mapped, known);
      }
    } else if v.Obj? {
      AllLooseKeysMet(env, v.fields, Info(env, v).modes, mapped, known);
    }
  }

  lemma {:induction false} AllLooseKeysMet(env: Env, xs: seq<Value>, modes: seq<FieldMode>, mapped: set<nat>,
          known: set<nat>)
    requires AllLoose(env, xs, modes, mapped)
    ensures AllKeysMet(env, xs, modes, known)
    decreases xs
  {
    if xs != [] && modes != [] {
      if modes[0].Ignored? {
        AllLooseKeysMet(env, xs[1..], modes[1..], mapped, known);
      } else {
        LooseKeysMet(env, xs[0], mapped, known);
        AllLooseKeysMet(env, xs[1..], modes[1..], mapped, known + Sure(env, xs[0]));
      }
    }
  }

  lemma {:induction false} EachIsLoose(env: Env, xs: seq<Value>, modes: seq<FieldMode>, mapped: set<nat>)
    requires forall i :: 0 <= i < |xs| ==> Loose(env, xs[i], mapped)
    ensures AllLoose(env, xs, modes, mapped)
    decreases xs
  {
    if xs != [] && modes != [] {
      EachIsLoose(env, xs[1..], modes[1..], mapped);
    }
  }

  /** What a loose value surely meets are loose free variables. */
  lemma {:induction false} SureIsLoose(env: Env, v: Value, mapped: set<nat>)
    requires Loose(env, v, mapped) && Placed(env, v)
    ensures forall x :: x in Sure(env, v) ==> x !in mapped && LooseVar(env, mapped, x)
    decreases v
  {
    hide LooseVar;
    if v.Arr? {
      AllSureIsLoose(env, v.items, AllOrdinary(|v.items|), mapped);
    } else if v.Dict? {
      EachIsLoose(env, v.values, AllOrdinary(|v.values|), mapped);
      AllSureIsLoose(env, v.values, AllOrdinary(|v.values|), mapped);
    } else if v.Obj? {
      AllSureIsLoose(env, v.fields, Info(env, v).modes, mapped);
      if Recorded(Info(env, v).kind) { LooseAtItsId(env, v, mapped); }
    }
  }

  lemma LooseAtItsId(env: Env, v: Value, mapped: set<nat>)
    requires v.Obj? && Recorded(Info(env, v).kind) && Loose(env, v, mapped) && Placed(env, v)
    ensures LooseVar(env, mapped, v.id)
  {
  }

  lemma {:induction false} AllSureIsLoose(env: Env, xs: seq<Value>, modes: seq<FieldMode>, mapped: set<nat>)
    requires AllLoose(env, xs, modes, mapped) && AllPlaced(env, xs)
    ensures forall x :: x in SureAll(env, xs, modes) ==> x !in mapped && LooseVar(env, mapped, x)
    decreases xs
  {
    hide LooseVar;
    if xs != [] && modes != [] {
      if !modes[0].Ignored? { SureIsLoose(env, xs[0], mapped); }
      AllSureIsLoose(env, xs[1..], modes[1..], mapped);
    }
  }

  /** What is surely met in turn meets its contents. */
  lemma {:induction false} SureIsTransitive(env: Env, v: Value, x: nat)
    requires Placed(env, v) && x in Sure(env, v)
    ensures env.heap(x).Obj? && SureAll(env, env.heap(x).fields, Info(env, env.heap(x)).modes) <= Sure(env, v)
    decreases v
  {
    if v.Arr? {
      AllSureIsTransitive(env, v.items, AllOrdinary(|v.items|), x);
    } else if v.Dict? {
      AllSureIsTransitive(env, v.values, AllOrdinary(|v.values|), x);
    } else if v.Obj? {
      if x in SureAll(env, v.fields, Info(env, v).modes) {
        AllSureIsTransitive(env, v.fields, Info(env, v).modes, x);
      }
    }
  }

  lemma {:induction false} AllSureIsTransitive(env: Env, xs: seq<Value>, modes: seq<FieldMode>, x: nat)
    requires AllPlaced(env, xs) && x in SureAll(env, xs, modes)
    ensures env.heap(x).Obj?
    ensures SureAll(env, env.heap(x).fields, Info(env, env.heap(x)).modes) <= SureAll(env, xs, modes)
    decreases xs
  {
    if x in SureAll(env, xs[1..], modes[1..]) {
      AllSureIsTransitive(env, xs[1..], modes[1..], x);
    } else {
      SureIsTransitive(env, xs[0], x);
    }
  }

  /** In a comparison of a loose value with itself every free variable stands for itself. */
  lemma {:induction false} LooseIsFixed(env: Env, v: Value, n: Maps, mapped: set<nat>)
    requires Loose(env, v, mapped) && Fit(env, v) && Related(env, v, v, n) && Sound(env, n)
    ensures forall x :: x in Sure(env, v) ==> x in n.lhs && n.lhs[x] == x
    decreases v, 1
  {
    hide Fit, Sound, EntryRelated, Untied;
    FieldsFit(env, v);
    if v.Arr? {
      AllLooseIsFixed(env, v.items, AllOrdinary(|v.items|), n, mapped);
    } else if v.Dict? {
      LooseMapIsFixed(env, v, n, mapped);
    } else if v.Obj? && Sure(env, v) != {} {
      if Recorded(Info(env, v).kind) { ContentsRelated(env, v, n); }
      AllLooseIsFixed(env, v.fields, Info(env, v).modes, n, mapped);
    }
  }

  lemma {:induction false} LooseMapIsFixed(env: Env, v: Value, n: Maps, mapped: set<nat>)
    requires v.Dict? && Loose(env, v, mapped) && Fit(env, v) && Related(env, v, v, n) && Sound(env, n)
    ensures forall x :: x in SureAll(env, v.values, AllOrdinary(|v.values|)) ==> x in n.lhs && n.lhs[x] == x
    decreases v, 0
  {
    hide Fit, Sound, SureAll;
    FieldsFit(env, v);
    forall i | 0 <= i < |v.values| ensures Related(env, v.values[i], v.values[i], n) {
      assert EntryRelated(env, v.keys[i], v.values[i], v.keys, v.values, n);
      SelfKey(v.keys[i]);
      FoundOnce(v.keys, v.keys[i], i);
    }
    LooseEntriesFixed(env, v.values, AllOrdinary(|v.values|), n, mapped);
  }

  /** The contents of a recorded object that stands for itself are related to themselves. */
  lemma ContentsRelated(env: Env, v: Value, n: Maps)
    requires v.Obj? && Recorded(Info(env, v).kind) && Fit(env, v) && Related(env, v, v, n) && Sound(env, n)
    ensures v.id in n.lhs && n.lhs[v.id] == v.id && AllRelated(env, v.fields, v.fields, Info(env, v).modes, n)
  {
    hide Fit, Sound, AllRelated;
    NothingMore(n);
    PairAhead(env, v, v, n, n);
  }

  lemma NothingMore(n: Maps)
    ensures Extends(n, n)
  {
  }

  lemma SelfKey(k: Value)
    ensures SameKey(k, k)
  {
  }

  lemma {:induction false} LooseEntriesFixed(env: Env, xs: seq<Value>, modes: seq<FieldMode>, n: Maps, mapped: set<nat>)
    requires AllFit(env, xs) && Sound(env, n)
    requires forall i :: 0 <= i < |xs| ==> Loose(env, xs[i], mapped) && Related(env, xs[i], xs[i], n)
    ensures forall x :: x in SureAll(env, xs, modes) ==> x in n.lhs && n.lhs[x] == x
    decreases xs
  {
    hide Fit, Sound;
    if xs != [] && modes != [] {
      LooseIsFixed(env, xs[0], n, mapped);
      LooseEntriesFixed(env, xs[1..], modes[1..], n, mapped);
    }
  }

  lemma {:induction false} AllLooseIsFixed(env: Env, xs: seq<Value>, modes: seq<FieldMode>, n: Maps, mapped: set<nat>)
    requires AllLoose(env, xs, modes, mapped) && AllFit(env, xs) && AllRelated(env, xs, xs, modes, n) && Sound(env, n)
    ensures forall x :: x in SureAll(env, xs, modes) ==> x in n.lhs && n.lhs[x] == x
    decreases xs, 0
  {
    hide Fit, Sound;
    if xs != [] && modes != [] {
      if !modes[0].Ignored? { LooseIsFixed(env, xs[0], n, mapped); }
      AllLooseIsFixed(env, xs[1..], modes[1..], n, mapped);
    }
  }

  // --------------------------------------------------- hashing loose contents

  /** A free variable that is never mapped is hashed by its pointer. */
  ghost predicate ByPointer(env: Env, mapped: set<nat>, m: map<nat, Hash>) {
    forall x :: x in m && IsVar(env, x) && x !in mapped ==> m[x] == env.pointerHash(x)
  }

  ghost predicate LooseMemo(env: Env, mapped: set<nat>, m: map<nat, Hash>) {
    Ready(env, m, {}) && ByPointer(env, mapped, m)
  }

  /** Nothing but loose free variables has been remembered, and no counter has moved. */
  ghost predicate Loosened(env: Env, mapped: set<nat>, s: Memo, t: Memo) {
    && s.freeVars == t.freeVars && s.graphNodes == t.graphNodes && Sub(s.hash, t.hash)
    && LooseMemo(env, mapped, t.hash)
    && forall x :: x in t.hash && x !in s.hash ==> LooseVar(env, mapped, x)
  }

  /** The free variables of xs that are not mapped are remembered. */
  ghost predicate Settled(mapped: set<nat>, m: map<nat, Hash>, xs: set<nat>) {
    forall x :: x in xs ==> x in mapped || x in m
  }

  lemma LoosenedTwice(env: Env, mapped: set<nat>, s: Memo, t: Memo, u: Memo)
    requires Loosened(env, mapped, s, t) && Loosened(env, mapped, t, u)
    ensures Loosened(env, mapped, s, u)
  {
    hide LooseMemo, LooseVar;
  }

  lemma LoosenedSelf(env: Env, mapped: set<nat>, s: Memo)
    requires LooseMemo(env, mapped, s.hash)
    ensures Loosened(env, mapped, s, s)
  {
    hide LooseMemo;
  }

  /** Both traversals give v one hash, and each remembers loose free variables only. */
  ghost predicate BothLoose(env: Env, mapped: set<nat>, s: Memo, t: Memo, r: Hashed, q: Hashed) {
    r.ok && q.ok && r.hash == q.hash && Loosened(env, mapped, s, r.memo) && Loosened(env, mapped, t, q.memo)
  }

  lemma {:induction false} LooseAny(env: Env, v: Value, free: bool, mapped: set<nat>, s: Memo, t: Memo)
    requires Placed(env, v) && Loose(env, v, mapped)
    requires LooseMemo(env, mapped, s.hash) && Settled(mapped, s.hash, Met(env, v, free, true))
    requires LooseMemo(env, mapped, t.hash) && Settled(mapped, t.hash, Met(env, v, free, true))
    ensures BothLoose(env, mapped, s, t, HashedAny(env, v, free, false, s), HashedAny(env, v, free, false, t))
    decreases v, 1
  {
    hide LooseMemo, Loosened, Settled, HashedAll, HashedEntries, HashedObject, AllLoose, MetAll, MetAny;
    LoosenedSelf(env, mapped, s);
    LoosenedSelf(env, mapped, t);
    if v.Arr? {
      var h := env.combine(env.arrayKeyHash, Bits(|v.items|));
      LooseAll(env, h, v.items, AllOrdinary(|v.items|), free, mapped, s, t);
    } else if v.Dict? {
      StaticKeys(env, v.keys, |v.values|, s.hash, t.hash);
      LooseEntries(env, env.combine(env.mapKeyHash, Bits(|v.keys|)), v.values,
                   KeyHashes(env, v.keys, |v.values|, s.hash), None, free, mapped, s, t);
    } else if v.Obj? {
      LooseObject(env, v, free, mapped, s, t);
    }
  }

  /** Keys that are no objects have one hash in every memo. */
  lemma StaticKeys(env: Env, keys: seq<Value>, n: nat, m: map<nat, Hash>, m': map<nat, Hash>)
    requires forall i :: 0 <= i < |keys| ==> !keys[i].Obj?
    ensures KeyHashes(env, keys, n, m) == KeyHashes(env, keys, n, m')
  {
    assert forall i :: 0 <= i < |keys| ==> KeyHash(env, keys[i], m) == KeyHash(env, keys[i], m');
  }

  lemma {:induction false} LooseObject(env: Env, v: Value, free: bool, mapped: set<nat>, s: Memo, t: Memo)
    requires v.Obj? && Placed(env, v) && Loose(env, v, mapped)
    requires LooseMemo(env, mapped, s.hash) && Settled(mapped, s.hash, Met(env, v, free, true))
    requires LooseMemo(env, mapped, t.hash) && Settled(mapped, t.hash, Met(env, v, free, true))
    ensures BothLoose(env, mapped, s, t, HashedObject(env, v, free, false, s), HashedObject(env, v, free, false, t))
    decreases v, 0
  {
    hide LooseMemo, Loosened, HashedAll, HashedObject, AllLoose, MetAll;
    VarAtItsId(env, v);
    if Info(env, v).kind.FreeVar? {
      LooseFreeVar(env, v, free, mapped, s);
      LooseFreeVar(env, v, free, mapped, t);
    } else {
      NotInMemo(env, v, mapped, s.hash);
      NotInMemo(env, v, mapped, t.hash);
      LooseAll(env, Info(env, v).keyHash, v.fields, Info(env, v).modes, free, mapped, s, t);
      TreeHashed(env, v, free, s);
      TreeHashed(env, v, free, t);
    }
  }

  lemma NotInMemo(env: Env, v: Value, mapped: set<nat>, m: map<nat, Hash>)
    requires v.Obj? && Placed(env, v) && LooseMemo(env, mapped, m) && !Recorded(Info(env, v).kind)
    ensures v.id !in m
  {
    hide Complete;
  }

  lemma TreeHashed(env: Env, v: Value, free: bool, s: Memo)
    requires v.Obj? && v.id !in s.hash && !Recorded(Info(env, v).kind)
    requires Info(env, v).hasMetadata && !Info(env, v).kind.Unsupported?
    ensures HashedObject(env, v, free, false, s)
         == HashedAll(env, Info(env, v).keyHash, v.fields, Info(env, v).modes, free, false, s)
  {
    hide HashedAll;
  }

  lemma {:induction false} LooseFreeVar(env: Env, v: Value, free: bool, mapped: set<nat>, s: Memo)
    requires v.Obj? && Info(env, v).kind.FreeVar? && Placed(env, v) && Loose(env, v, mapped)
    requires LooseMemo(env, mapped, s.hash) && Settled(mapped, s.hash, Met(env, v, free, true))
    ensures var r := HashedObject(env, v, free, false, s);
            r.ok && r.hash == env.pointerHash(v.id) && Loosened(env, mapped, s, r.memo)
    decreases v, -1
  {
    hide HashedAll, AllLoose, MetAll, SureAll, Complete, OnlyRecorded, Sub, Loosened;
    var info := Info(env, v);
    VarAtItsId(env, v);
    LoosenedSelf(env, mapped, s);
    if v.id !in s.hash {
      LooseAll(env, info.keyHash, v.fields, info.modes, free, mapped, s, s);
      var r := HashedAll(env, info.keyHash, v.fields, info.modes, free, false, s);
      AllLooseKeysMet(env, v.fields, info.modes, mapped, {});
      CoversAll(env, info.keyHash, v.fields, info.modes, free, s, {});
      AddedOnly(env, s.hash, r.memo.hash, HeightOfAll(v.fields));
      AllSureIsCovered(env, v.fields, info.modes, r.memo.hash);
      VarRemembered(env, v, mapped, s, r.memo);
    }
  }

  lemma VarRemembered(env: Env, v: Value, mapped: set<nat>, s: Memo, t: Memo)
    requires v.Obj? && Info(env, v).kind.FreeVar? && Placed(env, v) && Loose(env, v, mapped)
    requires Loosened(env, mapped, s, t) && v.id !in s.hash
    requires SureAll(env, v.fields, Info(env, v).modes) <= t.hash.Keys
    ensures Loosened(env, mapped, s, t.(hash := t.hash[v.id := env.pointerHash(v.id)]))
  {
    hide SureAll, Loose;
    VarAtItsId(env, v);
  }

  lemma {:induction false} LooseAll(env: Env, h: Hash, xs: seq<Value>, modes: seq<FieldMode>, free: bool,
          mapped: set<nat>, s: Memo, t: Memo)
    requires AllPlaced(env, xs) && AllLoose(env, xs, modes, mapped)
    requires LooseMemo(env, mapped, s.hash) && Settled(mapped, s.hash, MetAll(env, xs, modes, free, true))
    requires LooseMemo(env, mapped, t.hash) && Settled(mapped, t.hash, MetAll(env, xs, modes, free, true))
    ensures BothLoose(env, mapped, s, t, HashedAll(env, h, xs, modes, free, false, s),
                      HashedAll(env, h, xs, modes, free, false, t))
    decreases xs, 0
  {
    hide LooseMemo, Loosened, Settled, Loose, Met, HashedAny, Sure;
    LoosenedSelf(env, mapped, s);
    LoosenedSelf(env, mapped, t);
    if xs != [] && modes != [] {
      if modes[0].Ignored? {
        LooseAll(env, h, xs[1..], modes[1..], free, mapped, s, t);
      } else {
        var f := free || modes[0].Def?;
        var rest := MetAll(env, xs[1..], modes[1..], free, true);
        SettledParts(mapped, s.hash, Met(env, xs[0], f, true), rest - Sure(env, xs[0]));
        SettledParts(mapped, t.hash, Met(env, xs[0], f, true), rest - Sure(env, xs[0]));
        LooseAny(env, xs[0], f, mapped, s, t);
        var r, q := HashedAny(env, xs[0], f, false, s), HashedAny(env, xs[0], f, false, t);
        SettledNext(env, xs[0], f, mapped, s, rest);
        SettledNext(env, xs[0], f, mapped, t, rest);
        LooseAll(env, env.combine(h, r.hash), xs[1..], modes[1..], free, mapped, r.memo, q.memo);
        LoosenedTwice(env, mapped, s, r.memo, HashedAll(env, h, xs, modes, free, false, s).memo);
        LoosenedTwice(env, mapped, t, q.memo, HashedAll(env, h, xs, modes, free, false, t).memo);
      }
    }
  }

  lemma SettledParts(mapped: set<nat>, m: map<nat, Hash>, xs: set<nat>, ys: set<nat>)
    requires Settled(mapped, m, xs + ys)
    ensures Settled(mapped, m, xs) && Settled(mapped, m, ys)
  {
    assert forall x :: x in xs ==> x in xs + ys;
    assert forall y :: y in ys ==> y in xs + ys;
  }

  lemma {:induction false} SettledNext(env: Env, v: Value, free: bool, mapped: set<nat>, s: Memo, rest: set<nat>)
    requires Placed(env, v) && Loose(env, v, mapped) && LooseMemo(env, mapped, s.hash)
    requires Settled(mapped, s.hash, rest - Sure(env, v))
    requires var r := HashedAny(env, v, free, false, s); r.ok && Loosened(env, mapped, s, r.memo)
    ensures var r := HashedAny(env, v, free, false, s);
            Settled(mapped, r.memo.hash, rest) && LooseMemo(env, mapped, r.memo.hash)
  {
    hide HashedAny, Sure, Loose, Complete, OnlyRecorded, Covered, Added, Ready, ByPointer;
    LooseKeysMet(env, v, mapped, {});
    CoversAny(env, v, free, s, {});
    MetNext(env, v, s.hash, HashedAny(env, v, free, false, s).memo.hash, {});
    AllReady(env, HashedAny(env, v, free, false, s).memo.hash, {} + Sure(env, v));
  }

  lemma AllReady(env: Env, m: map<nat, Hash>, known: set<nat>)
    requires Ready(env, m, known)
    ensures known <= m.Keys
  {
  }

  lemma {:induction false} LooseEntries(env: Env, h: Hash, values: seq<Value>, hs: seq<Option<Hash>>, lo: Option<Hash>,
          free: bool, mapped: set<nat>, s: Memo, t: Memo)
    requires |hs| == |values| && AllPlaced(env, values)
    requires forall i :: 0 <= i < |values| ==> Loose(env, values[i], mapped)
    requires LooseMemo(env, mapped, s.hash) && Settled(mapped, s.hash, MetAny(env, values, free, true))
    requires LooseMemo(env, mapped, t.hash) && Settled(mapped, t.hash, MetAny(env, values, free, true))
    ensures BothLoose(env, mapped, s, t, HashedEntries(env, h, values, hs, lo, free, false, s),
                      HashedEntries(env, h, values, hs, lo, free, false, t))
    decreases values, 0, Left(hs, lo)
  {
    hide LooseMemo, Loosened, Loose, Met, MetAny, HashedAny, Tied, Left, Settled;
    LoosenedSelf(env, mapped, s);
    LoosenedSelf(env, mapped, t);
    var k := Next(hs, lo);
    if k.Some? {
      NextShrinks(hs, lo);
      if Tied(hs, k.value) {
        LooseEntries(env, env.combine(h, k.value), values, hs, k, free, mapped, s, t);
      } else {
        HolderUntied(hs, k.value);
        var i := Holder(hs, k.value);
        var xs := MetAny(env, values, free, true);
        MetOfEach(env, values, i, free, true);
        SettledStays(env, mapped, s, s, xs, Met(env, values[i], free, true));
        SettledStays(env, mapped, t, t, xs, Met(env, values[i], free, true));
        LooseAny(env, values[i], free, mapped, s, t);
        var r, q := HashedAny(env, values[i], free, false, s), HashedAny(env, values[i], free, false, t);
        SettledStays(env, mapped, s, r.memo, xs, xs);
        SettledStays(env, mapped, t, q.memo, xs, xs);
        var g := env.combine(env.combine(h, k.value), r.hash);
        LooseEntries(env, g, values, hs, k, free, mapped, r.memo, q.memo);
        LoosenedTwice(env, mapped, s, r.memo, HashedEntries(env, h, values, hs, lo, free, false, s).memo);
        LoosenedTwice(env, mapped, t, q.memo, HashedEntries(env, h, values, hs, lo, free, false, t).memo);
      }
    }
  }

  lemma SettledStays(env: Env, mapped: set<nat>, s: Memo, t: Memo, xs: set<nat>, ys: set<nat>)
    requires Settled(mapped, s.hash, xs) && Loosened(env, mapped, s, t) && ys <= xs
    ensures Settled(mapped, t.hash, ys) && LooseMemo(env, mapped, t.hash)
  {
    hide LooseMemo;
  }
}
