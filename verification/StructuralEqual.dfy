// Structural equality: the comparison as a function of the recorded
// mappings, the handler that computes it, and the laws it obeys.
module StructuralEqual {
  import opened AnyCells
  import opened AssocList
  import opened StructuralValues

  datatype Outcome = True | False | Throw

  /** equal_map_lhs_ and equal_map_rhs_, by object id. */
  datatype Maps = Maps(lhs: map<nat, nat>, rhs: map<nat, nat>)

  const NO_MAPS := Maps(map[], map[])

  datatype Compared = Compared(out: Outcome, maps: Maps)

  function OfBool(b: bool): Outcome { if b then True else False }

  function Record(m: Maps, x: nat, y: nat): Maps { Maps(m.lhs[x := y], m.rhs[y := x]) }

  /** Same type index below the object range: payload and padding, with all NaNs alike. */
  predicate SameCell(a: Cell, b: Cell) {
    if a.tindex == FLOAT && IsNan(a.word) then IsNan(b.word) else a.pad == b.pad && a.word == b.word
  }

  function Least(m: nat, n: nat): nat { if m < n then m else n }

  /** CompareAny. With traced, no early exit on a size mismatch, as when a mismatch path is wanted. */
  function EqAny(env: Env, a: Value, b: Value, free: bool, traced: bool, m: Maps): Compared
    decreases a, 1
  {
    if TypeIndex(a) != TypeIndex(b) then Compared(OfBool(SameText(a, b)), m)
    else match (a, b)
      case (Plain(c), Plain(d)) => Compared(OfBool(SameCell(c, d)), m)
      case (Text(_, s), Text(_, t)) => Compared(OfBool(s == t), m)
      case (Arr(_, xs), Arr(_, ys)) =>
        if |xs| != |ys| && !traced then Compared(False, m)
        else
          var r := EqAll(env, xs, ys, AllOrdinary(Least(|xs|, |ys|)), free, traced, m);
          if r.out.True? && |xs| != |ys| then Compared(False, r.maps) else r
      case (Dict(_, ks, us), Dict(_, ls, vs)) =>
        if |ks| != |ls| && !traced then Compared(False, m)
        else
          var r := EqEntries(env, ks, us, ls, vs, free, traced, m);
          if r.out.True? && |ks| != |ls| then Compared(False, r.maps) else r
      case (Obj(_, _, _), Obj(_, _, _)) => EqObject(env, a, b, free, traced, m)
      case _ => Compared(False, m)
  }

  /** CompareObject, on two objects of one type. */
  function EqObject(env: Env, a: Value, b: Value, free: bool, traced: bool, m: Maps): Compared
    requires a.Obj? && b.Obj?
    decreases a, 0
  {
    var info := Info(env, a);
    if !info.hasMetadata || info.kind.Unsupported? then Compared(Throw, m)
    else if info.kind.UniqueInstance? then Compared(OfBool(a.id == b.id), m)
    else if info.kind.ConstTreeNode? && a.id == b.id then Compared(True, m)
    else if Recorded(info.kind) && a.id in m.lhs then Compared(OfBool(m.lhs[a.id] == b.id), m)
    else if Recorded(info.kind) && b.id in m.rhs then Compared(False, m)
    else
      var r := EqAll(env, a.fields, b.fields, info.modes, free, traced, m);
      if !r.out.True? then r
      else if info.kind.FreeVar? && a.id != b.id && !free then Compared(False, r.maps)
      else if Recorded(info.kind) then Compared(True, Record(r.maps, a.id, b.id))
      else r
  }

  /** Elements or fields from the first to the last; a field marked Def is compared with free variables mapped. */
  function EqAll(env: Env, xs: seq<Value>, ys: seq<Value>, modes: seq<FieldMode>, free: bool, traced: bool,
          m: Maps): Compared
    decreases xs, 0
  {
    if xs == [] || ys == [] || modes == [] then Compared(True, m)
    else if modes[0].Ignored? then EqAll(env, xs[1..], ys[1..], modes[1..], free, traced, m)
    else
      var r := EqAny(env, xs[0], ys[0], free || modes[0].Def?, traced, m);
      if r.out.True? then EqAll(env, xs[1..], ys[1..], modes[1..], free, traced, r.maps) else r
  }

  /** MapLhsToRhs: a key that has been recorded stands for its partner. */
  function Partner(env: Env, m: Maps, k: Value): Value {
    if k.Obj? && k.id in m.lhs then env.heap(m.lhs[k.id]) else k
  }

  /** The first loop of CompareMap; the second only looks for a key to report. */
  function EqEntries(env: Env, ks: seq<Value>, us: seq<Value>, ls: seq<Value>, vs: seq<Value>, free: bool, traced: bool,
          m: Maps): Compared
    decreases us, 0
  {
    if ks == [] || us == [] then Compared(True, m)
    else
      var i := IndexOf(ls, Partner(env, m, ks[0]));
      if i >= |ls| || i >= |vs| then Compared(False, m)
      else
        var r := EqAny(env, us[0], vs[i], free, traced, m);
        if r.out.True? then EqEntries(env, ks[1..], us[1..], ls, vs, free, traced, r.maps) else r
  }

  /** StructuralEqual::Equal. */
  function Equal(env: Env, a: Value, b: Value, mapFreeVars: bool): Outcome {
    EqAny(env, a, b, mapFreeVars, false, NO_MAPS).out
  }

  /** StructuralEqual::GetFirstMismatch finds no mismatch. */
  function NoMismatch(env: Env, a: Value, b: Value, mapFreeVars: bool): Outcome {
    EqAny(env, a, b, mapFreeVars, true, NO_MAPS).out
  }

  // ------------------------------------------------- comparing with a trace

  /** Tracing never turns a difference into an equality or back; it can only meet an unsupported type it would else
      skip. */
  ghost predicate SameVerdict(plain: Compared, traced: Compared) {
    && (plain.out.True? || traced.out.True? ==> plain == traced)
    && (plain.out.Throw? ==> traced.out.Throw?)
  }

  lemma {:induction false} TraceAny(env: Env, a: Value, b: Value, free: bool, m: Maps)
    ensures SameVerdict(EqAny(env, a, b, free, false, m), EqAny(env, a, b, free, true, m))
    decreases a, 1
  {
    if TypeIndex(a) == TypeIndex(b) {
      if a.Arr? && b.Arr? {
        TraceAll(env, a.items, b.items, AllOrdinary(Least(|a.items|, |b.items|)), free, m);
      } else if a.Dict? && b.Dict? {
        TraceEntries(env, a.keys, a.values, b.keys, b.values, free, m);
      } else if a.Obj? && b.Obj? {
        TraceObject(env, a, b, free, m);
      }
    }
  }

  lemma {:induction false} TraceObject(env: Env, a: Value, b: Value, free: bool, m: Maps)
    requires a.Obj? && b.Obj?
    ensures SameVerdict(EqObject(env, a, b, free, false, m), EqObject(env, a, b, free, true, m))
    decreases a, 0
  {
    TraceAll(env, a.fields, b.fields, Info(env, a).modes, free, m);
  }

  lemma {:induction false} TraceAll(env: Env, xs: seq<Value>, ys: seq<Value>, modes: seq<FieldMode>, free: bool,
          m: Maps)
    ensures SameVerdict(EqAll(env, xs, ys, modes, free, false, m), EqAll(env, xs, ys, modes, free, true, m))
    decreases xs, 0
  {
    if xs != [] && ys != [] && modes != [] {
      if modes[0].Ignored? {
        TraceAll(env, xs[1..], ys[1..], modes[1..], free, m);
      } else {
        var r := EqAny(env, xs[0], ys[0], free || modes[0].Def?, false, m);
        TraceAny(env, xs[0], ys[0], free || modes[0].Def?, m);
        if r.out.True? { TraceAll(env, xs[1..], ys[1..], modes[1..], free, r.maps); }
      }
    }
  }

  lemma {:induction false} TraceEntries(env: Env, ks: seq<Value>, us: seq<Value>, ls: seq<Value>, vs: seq<Value>,
          free: bool, m: Maps)
    ensures SameVerdict(EqEntries(env, ks, us, ls, vs, free, false, m), EqEntries(env, ks, us, ls, vs, free, true, m))
    decreases us, 0
  {
    if ks != [] && us != [] {
      var i := IndexOf(ls, Partner(env, m, ks[0]));
      if i < |ls| && i < |vs| {
        TraceAny(env, us[0], vs[i], free, m);
        TraceEntries(env, ks[1..], us[1..], ls, vs, free, EqAny(env, us[0], vs[i], free, false, m).maps);
      }
    }
  }

  /** GetFirstMismatch returns none exactly when Equal returns true, unless one of them throws. */
  lemma {:induction false} MismatchIffUnequal(env: Env, a: Value, b: Value, mapFreeVars: bool)
    ensures !NoMismatch(env, a, b, mapFreeVars).Throw? ==>
              NoMismatch(env, a, b, mapFreeVars) == Equal(env, a, b, mapFreeVars)
    ensures NoMismatch(env, a, b, mapFreeVars).Throw? ==> !Equal(env, a, b, mapFreeVars).True?
  {
    TraceAny(env, a, b, mapFreeVars, NO_MAPS);
  }

  // --------------------------------------------------------------- reflexive

  /** Comparing v with itself reaches no type that is unsupported or without metadata; it does not look below a
      constant or unique node, nor at the keys of a map. */
  predicate Comparable(env: Env, v: Value)
    decreases v
  {
    match v
    case Plain(_) => true
    case Text(_, _) => true
    case Arr(_, items) => AllComparable(env, items, AllOrdinary(|items|))
    case Dict(_, _, values) => AllComparable(env, values, AllOrdinary(|values|))
    case Obj(_, _, fields) =>
      var info := Info(env, v);
      && info.hasMetadata && !info.kind.Unsupported?
      && (info.kind.UniqueInstance? || info.kind.ConstTreeNode? || AllComparable(env, fields, info.modes))
  }

  predicate AllComparable(env: Env, xs: seq<Value>, modes: seq<FieldMode>)
    decreases xs
  {
    xs == [] || modes == [] ||
    ((modes[0].Ignored? || Comparable(env, xs[0])) && AllComparable(env, xs[1..], modes[1..]))
  }

  ghost predicate Identity(env: Env, m: Maps) {
    && m.lhs.Keys == m.rhs.Keys
    && forall x :: x in m.lhs ==> m.lhs[x] == x && m.rhs[x] == x && Comparable(env, env.heap(x))
  }

  lemma {:induction false} SelfAny(env: Env, a: Value, free: bool, traced: bool, m: Maps)
    requires Identity(env, m) && Placed(env, a)
    ensures var r := EqAny(env, a, a, free, traced, m);
            r.out == (if Comparable(env, a) then True else Throw) && Identity(env, r.maps)
    decreases a, 1
  {
    if a.Arr? {
      SelfAll(env, a.items, AllOrdinary(|a.items|), free, traced, m);
    } else if a.Dict? {
      SelfEntries(env, a, 0, a.values, AllOrdinary(|a.values|), free, traced, m);
    } else if a.Obj? {
      SelfAll(env, a.fields, Info(env, a).modes, free, traced, m);
    }
  }

  lemma {:induction false} SelfAll(env: Env, xs: seq<Value>, modes: seq<FieldMode>, free: bool, traced: bool, m: Maps)
    requires Identity(env, m) && AllPlaced(env, xs)
    ensures var r := EqAll(env, xs, xs, modes, free, traced, m);
            r.out == (if AllComparable(env, xs, modes) then True else Throw) && Identity(env, r.maps)
    decreases xs, 0
  {
    hide Identity;
    if xs != [] && modes != [] {
      if modes[0].Ignored? {
        SelfAll(env, xs[1..], modes[1..], free, traced, m);
      } else {
        var r := EqAny(env, xs[0], xs[0], free || modes[0].Def?, traced, m);
        SelfAny(env, xs[0], free || modes[0].Def?, traced, m);
        if r.out.True? { SelfAll(env, xs[1..], modes[1..], free, traced, r.maps); }
      }
    }
  }

  /** Every key of a map stands for itself, so it is looked up where it stands. */
  lemma {:induction false} SelfEntries(env: Env, a: Value, i: nat, us: seq<Value>, modes: seq<FieldMode>, free: bool,
          traced: bool, m: Maps)
    requires Identity(env, m) && a.Dict? && Placed(env, a) && i <= |a.keys| && us == a.values[i..]
    requires modes == AllOrdinary(|us|)
    ensures var r := EqEntries(env, a.keys[i..], us, a.keys, a.values, free, traced, m);
            r.out == (if AllComparable(env, us, modes) then True else Throw) && Identity(env, r.maps)
    decreases us, 0
  {
    hide Identity;
    if i < |a.keys| {
      var k := a.keys[i];
      SelfPartner(env, a, i, m);
      assert a.keys[i..][0] == k && a.keys[i..][1..] == a.keys[i + 1..];
      assert us[0] == a.values[i] && us[1..] == a.values[i + 1..] && modes[1..] == AllOrdinary(|us| - 1);
      SelfAny(env, us[0], free, traced, m);
      var r := EqAny(env, us[0], us[0], free, traced, m);
      if r.out.True? { SelfEntries(env, a, i + 1, us[1..], modes[1..], free, traced, r.maps); }
    }
  }

  lemma SelfPartner(env: Env, a: Value, i: nat, m: Maps)
    requires Identity(env, m) && a.Dict? && Placed(env, a) && i < |a.keys|
    ensures IndexOf(a.keys, Partner(env, m, a.keys[i])) == i
  {
    var k := a.keys[i];
    assert Partner(env, m, k) == k && SameKey(k, k);
  }

  /** A value is equal to itself exactly when all that is reached can be compared; it never differs from itself. */
  lemma {:induction false} EqualReflexive(env: Env, a: Value, mapFreeVars: bool)
    requires Placed(env, a)
    ensures Equal(env, a, a, mapFreeVars) == if Comparable(env, a) then True else Throw
  {
    SelfAny(env, a, mapFreeVars, false, NO_MAPS);
  }

  /** Two plain values are equal exactly when their cells are the same or both are NaN, whatever the bits of the two. */
  lemma {:induction false} PlainEqualIff(env: Env, c: AnyCell, d: AnyCell, mapFreeVars: bool)
    ensures Equal(env, Plain(c), Plain(d), mapFreeVars).True? <==>
            c == d || (c.tindex == d.tindex == FLOAT && IsNan(c.word) && IsNan(d.word))
  {
    hide IsNan;
  }

  // ------------------------------------------------- the mappings are inverse

  ghost predicate Inverse(m: Maps) {
    && (forall x :: x in m.lhs ==> m.lhs[x] in m.rhs && m.rhs[m.lhs[x]] == x)
    && (forall y :: y in m.rhs ==> m.rhs[y] in m.lhs && m.lhs[m.rhs[y]] == y)
  }

  /** An object of a kind that is recorded. */
  predicate IsRecorded(env: Env, v: Value) { v.Obj? && Recorded(Info(env, v).kind) }

  /** Only graph nodes and free variables at most ha (hb) high have been recorded on the left (right) since m. */
  ghost predicate Within(env: Env, m: Maps, n: Maps, ha: nat, hb: nat) {
    && (forall x :: x in n.lhs ==> x in m.lhs || (Height(env.heap(x)) <= ha && IsRecorded(env, env.heap(x))))
    && (forall y :: y in n.rhs ==> y in m.rhs || (Height(env.heap(y)) <= hb && IsRecorded(env, env.heap(y))))
  }

  lemma {:induction false} InverseAny(env: Env, a: Value, b: Value, free: bool, traced: bool, m: Maps)
    requires Placed(env, a) && Placed(env, b) && Inverse(m)
    ensures var r := EqAny(env, a, b, free, traced, m);
            Inverse(r.maps) && Within(env, m, r.maps, Height(a), Height(b))
    decreases a, 1
  {
    hide Inverse, Within, EqAll, EqObject, EqEntries, IsRecorded;
    WithinSelf(env, m, Height(a), Height(b));
    if TypeIndex(a) == TypeIndex(b) {
      if a.Arr? && b.Arr? {
        var modes := AllOrdinary(Least(|a.items|, |b.items|));
        InverseAll(env, a.items, b.items, modes, free, traced, m);
        WithinHigher(env, m, EqAll(env, a.items, b.items, modes, free, traced, m).maps,
                     HeightOfAll(a.items), HeightOfAll(b.items), Height(a), Height(b));
      } else if a.Dict? && b.Dict? {
        InverseEntries(env, a.keys, a.values, b.keys, b.values, free, traced, m);
        WithinHigher(env, m, EqEntries(env, a.keys, a.values, b.keys, b.values, free, traced, m).maps,
                     HeightOfAll(a.values), HeightOfAll(b.values), Height(a), Height(b));
      } else if a.Obj? && b.Obj? {
        InverseObject(env, a, b, free, traced, m);
      }
    }
  }

  /** An object lies below none of its own fields, so it is not in the mappings when it is recorded. */
  lemma {:induction false} InverseObject(env: Env, a: Value, b: Value, free: bool, traced: bool, m: Maps)
    requires a.Obj? && b.Obj? && a.tindex == b.tindex && Placed(env, a) && Placed(env, b) && Inverse(m)
    ensures var r := EqObject(env, a, b, free, traced, m);
            Inverse(r.maps) && Within(env, m, r.maps, Height(a), Height(b))
    decreases a, 0
  {
    hide Inverse, Within, EqAll, Record;
    InverseAll(env, a.fields, b.fields, Info(env, a).modes, free, traced, m);
    WithinSelf(env, m, Height(a), Height(b));
    RecordAbove(env, a, b, m, EqAll(env, a.fields, b.fields, Info(env, a).modes, free, traced, m).maps);
  }

  lemma {:induction false} WithinSelf(env: Env, m: Maps, ha: nat, hb: nat)
    ensures Within(env, m, m, ha, hb)
  {
  }

  lemma {:induction false} RecordAbove(env: Env, a: Value, b: Value, m: Maps, n: Maps)
    requires a.Obj? && b.Obj? && a.tindex == b.tindex && Placed(env, a) && Placed(env, b)
    requires Inverse(n) && Within(env, m, n, HeightOfAll(a.fields), HeightOfAll(b.fields))
    ensures Within(env, m, n, Height(a), Height(b))
    ensures a.id !in m.lhs && b.id !in m.rhs ==>
              && a.id !in n.lhs && b.id !in n.rhs && Inverse(Record(n, a.id, b.id))
              && (IsRecorded(env, a) ==> Within(env, m, Record(n, a.id, b.id), Height(a), Height(b)))
  {
    hide Inverse, IsRecorded;
    assert Height(a) == 1 + HeightOfAll(a.fields) && Height(b) == 1 + HeightOfAll(b.fields);
    assert env.heap(a.id) == a && env.heap(b.id) == b;
    assert IsRecorded(env, a) ==> IsRecorded(env, b) by { SameKind(env, a, b); }
    if a.id !in m.lhs && b.id !in m.rhs { RecordInverse(n, a.id, b.id); }
  }

  lemma SameKind(env: Env, a: Value, b: Value)
    requires a.Obj? && b.Obj? && a.tindex == b.tindex
    ensures IsRecorded(env, a) <==> IsRecorded(env, b)
  {
  }

  lemma RecordInverse(m: Maps, x: nat, y: nat)
    requires Inverse(m) && x !in m.lhs && y !in m.rhs
    ensures Inverse(Record(m, x, y))
  {
  }

  lemma {:induction false} WithinTwice(env: Env, m: Maps, n: Maps, o: Maps, ha: nat, hb: nat, ia: nat, ib: nat)
    requires Within(env, m, n, ha, hb) && Within(env, n, o, ia, ib)
    ensures Within(env, m, o, Max(ha, ia), Max(hb, ib))
  {
  }

  lemma {:induction false} WithinHigher(env: Env, m: Maps, n: Maps, ha: nat, hb: nat, ia: nat, ib: nat)
    requires Within(env, m, n, ha, hb) && ha <= ia && hb <= ib
    ensures Within(env, m, n, ia, ib)
  {
  }

  lemma {:induction false} InverseAll(env: Env, xs: seq<Value>, ys: seq<Value>, modes: seq<FieldMode>, free: bool,
          traced: bool, m: Maps)
    requires AllPlaced(env, xs) && AllPlaced(env, ys) && Inverse(m)
    ensures var r := EqAll(env, xs, ys, modes, free, traced, m);
            Inverse(r.maps) && Within(env, m, r.maps, HeightOfAll(xs), HeightOfAll(ys))
    decreases xs, 0
  {
    hide Inverse, Within, EqAny, IsRecorded, Height;
    WithinSelf(env, m, HeightOfAll(xs), HeightOfAll(ys));
    if xs != [] && ys != [] && modes != [] {
      var hx, hy := HeightOfAll(xs[1..]), HeightOfAll(ys[1..]);
      if modes[0].Ignored? {
        InverseAll(env, xs[1..], ys[1..], modes[1..], free, traced, m);
        WithinHigher(env, m, EqAll(env, xs, ys, modes, free, traced, m).maps, hx, hy, HeightOfAll(xs), HeightOfAll(ys));
      } else {
        var r := EqAny(env, xs[0], ys[0], free || modes[0].Def?, traced, m);
        InverseAny(env, xs[0], ys[0], free || modes[0].Def?, traced, m);
        WithinHigher(env, m, r.maps, Height(xs[0]), Height(ys[0]), HeightOfAll(xs), HeightOfAll(ys));
        if r.out.True? {
          InverseAll(env, xs[1..], ys[1..], modes[1..], free, traced, r.maps);
          WithinTwice(env, m, r.maps, EqAll(env, xs, ys, modes, free, traced, m).maps, Height(xs[0]), Height(ys[0]), hx,
              hy);
        }
      }
    }
  }

  lemma {:induction false} InverseEntries(env: Env, ks: seq<Value>, us: seq<Value>, ls: seq<Value>, vs: seq<Value>,
          free: bool, traced: bool, m: Maps)
    requires AllPlaced(env, us) && AllPlaced(env, vs) && Inverse(m)
    ensures var r := EqEntries(env, ks, us, ls, vs, free, traced, m);
            Inverse(r.maps) && Within(env, m, r.maps, HeightOfAll(us), HeightOfAll(vs))
    decreases us, 0
  {
    if ks != [] && us != [] {
      var i := IndexOf(ls, Partner(env, m, ks[0]));
      if i < |ls| && i < |vs| {
        HeightOfOne(vs, i);
        var r := EqAny(env, us[0], vs[i], free, traced, m);
        InverseAny(env, us[0], vs[i], free, traced, m);
        if r.out.True? { InverseEntries(env, ks[1..], us[1..], ls, vs, free, traced, r.maps); }
      }
    }
  }

  /** Through the whole comparison, whatever its outcome, the two recorded mappings stay inverse to each other. */
  lemma {:induction false} MappingsStayInverse(env: Env, a: Value, b: Value, free: bool, traced: bool)
    requires Placed(env, a) && Placed(env, b)
    ensures Inverse(EqAny(env, a, b, free, traced, NO_MAPS).maps)
  {
    InverseAny(env, a, b, free, traced, NO_MAPS);
  }

  // -------------------------------------------------------------- the handler

  /** StructEqualHandler: the mappings and the free-variable mode are fields; a thrown error ends the comparison. */
  class StructEqualHandler {
    const env: Env
    const traced: bool
    var mapFreeVars: bool
    var equalMapLhs: map<nat, nat>
    var equalMapRhs: map<nat, nat>

    constructor (env: Env, mapFreeVars: bool, traced: bool)
      ensures this.env == env && this.traced == traced
      ensures this.mapFreeVars == mapFreeVars && Recordings() == NO_MAPS
    {
      this.env, this.traced, this.mapFreeVars := env, traced, mapFreeVars;
      equalMapLhs, equalMapRhs := map[], map[];
    }

    function Recordings(): Maps
      reads this
    {
      Maps(equalMapLhs, equalMapRhs)
    }

    method CompareAny(a: Value, b: Value) returns (out: Outcome)
      requires Shaped(env, a) && Shaped(env, b)
      modifies this
      ensures Compared(out, Recordings()) == EqAny(env, a, b, old(mapFreeVars), traced, old(Recordings()))
      ensures !out.Throw? ==> mapFreeVars == old(mapFreeVars)
      decreases a, 1
    {
      if TypeIndex(a) != TypeIndex(b) {
        return OfBool(SameText(a, b));
      }
      match (a, b) {
        case (Plain(c), Plain(d)) => out := OfBool(SameCell(c, d));
        case (Text(_, s), Text(_, t)) => out := OfBool(s == t);
        case (Arr(_, _), Arr(_, _)) => out := CompareArray(a, b);
        case (Dict(_, _, _), Dict(_, _, _)) => out := CompareMap(a, b);
        case (Obj(_, _, _), Obj(_, _, _)) => out := CompareObject(a, b);
      }
    }

    method CompareObject(a: Value, b: Value) returns (out: Outcome)
      requires a.Obj? && b.Obj? && a.tindex == b.tindex && Shaped(env, a) && Shaped(env, b)
      modifies this
      ensures Compared(out, Recordings()) == EqObject(env, a, b, old(mapFreeVars), traced, old(Recordings()))
      ensures !out.Throw? ==> mapFreeVars == old(mapFreeVars)
      decreases a, 0
    {
      var info := env.types(a.tindex);
      if !info.hasMetadata || info.kind.Unsupported? { return Throw; }
      if info.kind.UniqueInstance? { return OfBool(a.id == b.id); }
      if info.kind.ConstTreeNode? && a.id == b.id { return True; }
      if info.kind.DAGNode? || info.kind.FreeVar? {
        if a.id in equalMapLhs { return OfBool(equalMapLhs[a.id] == b.id); }
        if b.id in equalMapRhs { return False; }
      }
      var success := CompareFields(a, b, info.modes);
      if !success.True? { return success; }
      if info.kind.FreeVar? && a.id != b.id && !mapFreeVars { return False; }
      if info.kind.FreeVar? || info.kind.DAGNode? {
        equalMapLhs, equalMapRhs := equalMapLhs[a.id := b.id], equalMapRhs[b.id := a.id];
      }
      return True;
    }

    /** Every field that is not ignored, up to the first that differs. */
    method CompareFields(a: Value, b: Value, modes: seq<FieldMode>) returns (out: Outcome)
      requires a.Obj? && b.Obj? && Shaped(env, a) && Shaped(env, b) && |a.fields| == |b.fields| == |modes|
      modifies this
      ensures Compared(out, Recordings()) == EqAll(env, a.fields, b.fields, modes, old(mapFreeVars), traced,
            old(Recordings()))
      ensures !out.Throw? ==> mapFreeVars == old(mapFreeVars)
      decreases a.fields, 2
    {
      ghost var m, free := Recordings(), mapFreeVars;
      var i := 0;
      while i < |modes|
        invariant 0 <= i <= |modes| && mapFreeVars == free
        invariant EqAll(env, a.fields[i..], b.fields[i..], modes[i..], free, traced, Recordings())
               == EqAll(env, a.fields, b.fields, modes, free, traced, m)
      {
        assert a.fields[i..][1..] == a.fields[i + 1..] && b.fields[i..][1..] == b.fields[i + 1..];
        assert modes[i..][1..] == modes[i + 1..];
        if !modes[i].Ignored? {
          var success;
          if modes[i].Def? {
            var allowFreeVar := mapFreeVars;
            mapFreeVars := true;
            success := CompareAny(a.fields[i], b.fields[i]);
            if success.Throw? { return Throw; }
            mapFreeVars := allowFreeVar;
          } else {
            success := CompareAny(a.fields[i], b.fields[i]);
          }
          if !success.True? { return success; }
        }
        i := i + 1;
      }
      return True;
    }

    method CompareArray(a: Value, b: Value) returns (out: Outcome)
      requires a.Arr? && b.Arr? && Shaped(env, a) && Shaped(env, b)
      modifies this
      ensures Compared(out, Recordings()) == EqAny(env, a, b, old(mapFreeVars), traced, old(Recordings()))
      ensures !out.Throw? ==> mapFreeVars == old(mapFreeVars)
      decreases a, 0
    {
      if |a.items| != |b.items| && !traced { return False; }
      ghost var m, free := Recordings(), mapFreeVars;
      var n := Least(|a.items|, |b.items|);
      ghost var modes := AllOrdinary(n);
      var i := 0;
      while i < n
        invariant 0 <= i <= n && mapFreeVars == free
        invariant EqAll(env, a.items[i..], b.items[i..], modes[i..], free, traced, Recordings())
               == EqAll(env, a.items, b.items, modes, free, traced, m)
      {
        assert a.items[i..][1..] == a.items[i + 1..] && b.items[i..][1..] == b.items[i + 1..];
        assert modes[i..][1..] == modes[i + 1..];
        var success := CompareAny(a.items[i], b.items[i]);
        if !success.True? { return success; }
        i := i + 1;
      }
      return OfBool(|a.items| == |b.items|);
    }

    lemma {:induction false} MapsCompared(a: Value, b: Value, free: bool, m: Maps)
      requires a.Dict? && b.Dict?
      ensures var r := EqEntries(env, a.keys, a.values, b.keys, b.values, free, traced, m);
              EqAny(env, a, b, free, traced, m) ==
                if |a.keys| != |b.keys| && !traced then Compared(False, m)
                else if r.out.True? && |a.keys| != |b.keys| then Compared(False, r.maps) else r
    {
    }

    method CompareMap(a: Value, b: Value) returns (out: Outcome)
      requires a.Dict? && b.Dict? && Shaped(env, a) && Shaped(env, b)
      modifies this
      ensures Compared(out, Recordings()) == EqAny(env, a, b, old(mapFreeVars), traced, old(Recordings()))
      ensures !out.Throw? ==> mapFreeVars == old(mapFreeVars)
      decreases a, 0
    {
      hide EqAny, SameKey, IsNan;
      MapsCompared(a, b, mapFreeVars, Recordings());
      if |a.keys| != |b.keys| && !traced { return False; }
      ghost var m, free := Recordings(), mapFreeVars;
      var i := 0;
      while i < |a.keys|
        invariant 0 <= i <= |a.keys| && mapFreeVars == free
        invariant EqEntries(env, a.keys[i..], a.values[i..], b.keys, b.values, free, traced, Recordings())
               == EqEntries(env, a.keys, a.values, b.keys, b.values, free, traced, m)
      {
        assert a.keys[i..][1..] == a.keys[i + 1..] && a.values[i..][1..] == a.values[i + 1..];
        var j := IndexOf(b.keys, Partner(env, Recordings(), a.keys[i]));
        if j == |b.keys| { return False; }
        var success := CompareAny(a.values[i], b.values[j]);
        if !success.True? { return success; }
        i := i + 1;
      }
      return OfBool(|a.keys| == |b.keys|);
    }
  }
}
