// Copy-on-write handles over shared map objects.
module MapHandles {
  import opened AssocList
  import opened DenseMaps
  import opened DenseTable
  import opened Maps

  class Handles<K(!new), V(!new)> {
    const tr: KeyTraits<K>
    const nil: V
    /** The object each handle points to; handles that were copied share one. */
    var objs: seq<MapObj<K, V>>
    /** What each handle shows: its entries in iteration order. */
    ghost var Views: seq<seq<(K, V)>>

    /** The storage of all objects the handles point to. */
    ghost var Footprint: set<object>

    /** Handle h points to a well-formed object that holds view v. */
    ghost predicate Shows(m: MapObj<K, V>, v: seq<(K, V)>)
      reads m.Repr()
    {
      m.Valid() && m.Traits() == tr && m.Contents() == v
    }

    ghost predicate Valid()
      reads this, Footprint
    {
      && Lawful(tr) && |Views| == |objs| && this !in Footprint
      && (forall h :: 0 <= h < |objs| ==> objs[h].Repr() <= Footprint && Shows(objs[h], Views[h]))
      && (forall h, l :: 0 <= h < |objs| && 0 <= l < |objs| ==> objs[h] == objs[l] || objs[h].Repr() !! objs[l].Repr())
    }

    /** Valid but for the map of handle h, whose storage a write that failed has left in pieces. */
    ghost predicate OthersValid(h: nat)
      reads this, Footprint
    {
      && Lawful(tr) && |Views| == |objs| && this !in Footprint
      && (forall j :: 0 <= j < |objs| ==> objs[j].Repr() <= Footprint && (j != h ==> Shows(objs[j], Views[j])))
      && (forall j, l :: 0 <= j < |objs| && 0 <= l < |objs| ==> objs[j] == objs[l] || objs[j].Repr() !! objs[l].Repr())
    }

    constructor (tr: KeyTraits<K>, nil: V)
      requires Lawful(tr)
      ensures Valid() && fresh(this) && Views == [] && this.tr == tr && this.nil == nil
    {
      this.tr, this.nil, objs, Views, Footprint := tr, nil, [], [], {};
    }

    /** A default-constructed handle: an empty map of its own. */
    method Fresh() returns (h: nat)
      requires Valid()
      modifies this
      ensures Valid() && h == |old(Views)| && Views == old(Views) + [[]]
    {
      hide Shows, MapObj.Repr;
      h := |objs|;
      var m := EmptyApart();
      objs, Views, Footprint := objs + [m], Views + [[]], Footprint + m.Repr();
    }

    method EmptyApart() returns (m: MapObj<K, V>)
      requires Valid()
      ensures Valid() && Shows(m, []) && fresh(m.Repr())
    {
      hide MapObj.Valid, MapObj.Repr;
      m := Maps.Empty(tr);
    }

    /** Copying a handle shares the object. */
    method Share(src: nat) returns (h: nat)
      requires Valid() && src < |objs|
      modifies this
      ensures Valid() && h == |old(Views)| && Views == old(Views) + [old(Views)[src]]
    {
      hide Shows, MapObj.Repr;
      h := |objs|;
      objs, Views := objs + [objs[src]], Views + [Views[src]];
    }

    predicate SameObject(a: MapObj<K, V>, b: MapObj<K, V>)
      ensures SameObject(a, b) <==> a == b
    {
      match (a, b)
      case (Small(x), Small(y)) => x == y
      case (Dense(x), Dense(y)) => x == y
      case _ => false
    }

    /** unique(): the use count of the object, the number of handles that point to it, is one. */
    predicate IsUnique(h: nat)
      requires h < |objs|
      reads this
      ensures IsUnique(h) <==> forall j :: 0 <= j < |objs| && j != h ==> objs[j] != objs[h]
    {
      forall j :: 0 <= j < |objs| && j != h ==> !SameObject(objs[j], objs[h])
    }

    /** After this no other handle points to h's object; no view changes and a unique object is kept. */
    method CopyOnWrite(h: nat)
      requires Valid() && h < |objs|
      modifies this
      ensures Valid() && Views == old(Views) && |objs| == |old(objs)| && IsUnique(h)
      ensures if old(IsUnique(h)) then objs == old(objs) else fresh(objs[h].Repr())
      ensures forall key :: objs[h].Refuses(key) <==> old(objs[h].Refuses(key))
      ensures SameRoom(objs[h], old(objs)[h])
    {
      hide Shows, MapObj.Repr, MapObj.Refuses;
      if !IsUnique(h) {
        var m := CopyApart(h);
        objs, Footprint := objs[h := m], Footprint + m.Repr();
      }
    }

    method CopyApart(h: nat) returns (m: MapObj<K, V>)
      requires Valid() && h < |objs|
      ensures Valid() && Shows(m, Views[h]) && fresh(m.Repr()) && m.Repr() != {}
      ensures forall key :: m.Refuses(key) <==> objs[h].Refuses(key)
      ensures SameRoom(m, objs[h])
    {
      hide MapObj.Valid, MapObj.Repr;
      m := Maps.CopyFrom(objs[h]);
    }

    /** Set through a handle. Every other handle shows what it showed, also after a failure; this one looks up as
        the one mathematical map updated at key, whichever layout was in use. Only a dense map can fail, of more than
        eight slots, and only when the tables of all sizes from its own up to the largest refuse its entries or key. */
    method Set(h: nat, key: K, val: V) returns (ok: bool, ghost ws: seq<Table<K, V>>)
      requires Valid() && h < |objs|
      modifies this, Footprint
      ensures ok ==> Valid() && |Views| == |old(Views)| && Views == old(Views)[h := Views[h]]
      ensures ok ==>
              || Views[h] == SetLast(old(Views)[h], tr.eq, key, val)
              || Views[h] == SetInPlace(old(Views)[h], tr.eq, key, val)
      ensures ok ==> forall q :: Lookup(Views[h], tr.eq, q) == if tr.eq(key, q)
            then Some(val) else Lookup(old(Views)[h], tr.eq, q)
      ensures !ok ==> old(objs[h].Refuses(key)) && Views == old(Views) && OthersValid(h)
      ensures !ok ==>
                && old(objs)[h].Dense? && old(objs)[h].d.slots != 8 && |ws| == old(objs)[h].d.fib - 1
                && Ladder(tr, old(Views)[h] + [(key, val)], old(objs)[h].d.fib, ws)
    {
      hide Shows, MapObj.Repr, MapObj.Refuses, MapObj.Contents, SetLast, SetInPlace, Lookup, Find, Lawful, Ladder;
      CopyOnWrite(h);
      var m;
      ghost var v;
      ok, m, v, ws := SetUnique(h, key, val);
      if ok {
        objs, Views, Footprint := objs[h := m], Views[h := v], Footprint + m.Repr();
      }
    }

    method SetUnique(h: nat, key: K, val: V)
      returns (ok: bool, m: MapObj<K, V>, ghost v: seq<(K, V)>, ghost ws: seq<Table<K, V>>)
      requires Valid() && h < |objs| && IsUnique(h)
      modifies objs[h].Repr()
      ensures ok ==> Shows(m, v) && (m.Repr() == objs[h].Repr() || fresh(m.Repr()))
      ensures !ok ==> old(objs[h].Refuses(key))
      ensures !ok ==>
                && objs[h].Dense? && objs[h].d.slots != 8 && |ws| == objs[h].d.fib - 1
                && Ladder(tr, Views[h] + [(key, val)], objs[h].d.fib, ws)
      ensures forall j :: 0 <= j < |objs| && j != h ==> Shows(objs[j], Views[j])
      ensures ok ==> v == SetLast(Views[h], tr.eq, key, val) || v == SetInPlace(Views[h], tr.eq, key, val)
      ensures ok ==> forall q :: Lookup(v, tr.eq, q) == if tr.eq(key, q) then Some(val) else Lookup(Views[h], tr.eq, q)
    {
      hide MapObj.Valid, MapObj.Repr, SetLast, SetInPlace, Lookup, Find, DistinctKeys, Ladder;
      MapObjKeysDistinct(objs[h]);
      SetLooksUp(Views[h], tr, key, val);
      ok, m, ws := Maps.InsertMaybeReHash(key, val, objs[h], nil);
      v := m.Contents();
    }

    /** Either way of setting is the one update of the mathematical map. */
    static lemma {:induction false} SetLooksUp(es: seq<(K, V)>, tr: KeyTraits<K>, key: K, val: V)
      requires Lawful(tr) && DistinctKeys(es, tr.eq)
      ensures forall q :: Lookup(SetLast(es, tr.eq, key, val), tr.eq, q) == if tr.eq(key, q)
            then Some(val) else Lookup(es, tr.eq, q)
      ensures forall q :: Lookup(SetInPlace(es, tr.eq, key, val), tr.eq, q) == if tr.eq(key, q)
            then Some(val) else Lookup(es, tr.eq, q)
    {
      hide Lookup, SetLast, SetInPlace;
      forall q
        ensures Lookup(SetLast(es, tr.eq, key, val), tr.eq, q) == if tr.eq(key, q) then Some(val)
                else Lookup(es, tr.eq, q)
        ensures Lookup(SetInPlace(es, tr.eq, key, val), tr.eq, q) == if tr.eq(key, q)
              then Some(val) else Lookup(es, tr.eq, q)
      {
        LookupAfterSetLast(es, tr, key, val, q);
        LookupAfterSetInPlace(es, tr, key, val, q);
      }
    }

    /** Erase through a handle: the entry goes, the order of the rest stays, no other handle notices. */
    method Erase(h: nat, key: K)
      requires Valid() && h < |objs|
      modifies this, Footprint
      ensures Valid() && Views == old(Views)[h := Remove(old(Views)[h], tr.eq, key)]
      ensures forall q :: Lookup(Views[h], tr.eq, q) == if tr.eq(key, q) then None else Lookup(old(Views)[h], tr.eq, q)
    {
      hide Shows, MapObj.Repr, Remove, Lookup, Find;
      CopyOnWrite(h);
      EraseUnique(h, key);
      Views := Views[h := Remove(Views[h], tr.eq, key)];
    }

    method EraseUnique(h: nat, key: K)
      requires Valid() && h < |objs| && IsUnique(h)
      modifies objs[h].Repr()
      ensures Shows(objs[h], Remove(Views[h], tr.eq, key))
      ensures forall j :: 0 <= j < |objs| && j != h ==> Shows(objs[j], Views[j])
      ensures forall q :: Lookup(Remove(Views[h], tr.eq, key), tr.eq, q) == if tr.eq(key, q)
            then None else Lookup(Views[h], tr.eq, q)
    {
      hide MapObj.Valid, MapObj.Repr, Remove, Lookup, Find, DistinctKeys, Lawful;
      MapObjKeysDistinct(objs[h]);
      RemovalLooksUp(Views[h], tr, key);
      Maps.Erase(key, objs[h]);
    }

    static lemma {:induction false} RemovalLooksUp(es: seq<(K, V)>, tr: KeyTraits<K>, key: K)
      requires Lawful(tr) && DistinctKeys(es, tr.eq)
      ensures forall q :: Lookup(Remove(es, tr.eq, key), tr.eq, q) == if tr.eq(key, q) then None
              else Lookup(es, tr.eq, q)
    {
      hide Lookup, Remove;
      forall q
        ensures Lookup(Remove(es, tr.eq, key), tr.eq, q) == if tr.eq(key, q) then None else Lookup(es, tr.eq, q)
      {
        LookupAfterRemove(es, tr, key, q);
      }
    }

    /** Reading through a handle. */
    method Get(h: nat, key: K) returns (v: Option<V>)
      requires Valid() && h < |objs|
      ensures v == Lookup(Views[h], tr.eq, key)
    {
      v := Maps.Get(key, objs[h]);
    }
  }
}
