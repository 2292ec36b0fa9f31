// The small in-place layout, and the switch between the two layouts.
module Maps {
  import opened AssocList
  import opened DenseLayout
  import opened DenseTable
  import opened DenseMaps
  import opened DenseRoom
  import Probing

  const INIT_SIZE: int := 2
  const MAX_SIZE: int := 4

  /** At most four pairs in insertion order, searched linearly. */
  class SmallMap<K(!new), V(!new)> {
    const tr: KeyTraits<K>
    const data: array<Cell<K, V>>
    var size: nat
    ghost var Contents: seq<(K, V)>

    ghost function Repr(): set<object> {
      {this, data}
    }

    ghost predicate Valid()
      reads this, data
    {
      && Lawful(tr) && data.Length <= MAX_SIZE && size == |Contents| <= data.Length
      && (forall j :: 0 <= j < size ==> data[j] == KV(Contents[j].0, Contents[j].1))
      && DistinctKeys(Contents, tr.eq)
    }

    constructor Empty(tr: KeyTraits<K>, n: nat)
      requires Lawful(tr) && n <= MAX_SIZE
      ensures Valid() && fresh(Repr()) && this.tr == tr && Contents == [] && data.Length == n
    {
      this.tr := tr;
      data := new Cell<K, V>[n](_ => Raw);
      size := 0;
      Contents := [];
    }

    /** Index of the entry for key, or size when there is none. */
    method FindIndex(key: K) returns (i: nat)
      requires Valid()
      ensures i == Find(Contents, tr.eq, key)
    {
      i := 0;
      while i < size
        invariant i <= size
        invariant forall j :: 0 <= j < i ==> !tr.eq(Contents[j].0, key)
      {
        if tr.eq(data[i].key, key) {
          FindIs(Contents, tr, key, i);
          return;
        }
        i := i + 1;
      }
      FindNone(Contents, tr, key);
    }

    method Get(key: K) returns (v: Option<V>)
      requires Valid()
      ensures v == Lookup(Contents, tr.eq, key)
    {
      var i := FindIndex(key);
      if i >= size {
        v := None;
      } else {
        v := Some(data[i].val);
      }
    }

    /** Remove the pair at index; later pairs move one place to the front. */
    method EraseAt(index: nat)
      requires Valid()
      modifies this, data
      ensures Valid()
      ensures Contents == if index < |old(Contents)| then DropAt(old(Contents), index) else old(Contents)
    {
      if index >= size { return; }
      DropKeepsDistinct(Contents, tr.eq, index);
      var i := index;
      while i + 1 < size
        invariant index <= i < size && size == old(size) && Contents == old(Contents)
        invariant forall j :: 0 <= j < i ==> data[j] == old(data[if j < index then j else j + 1])
        invariant forall j :: i < j < size ==> data[j] == old(data[j])
      {
        data[i] := data[i + 1];
        i := i + 1;
      }
      data[i] := Raw;
      size := size - 1;
      Contents := DropAt(Contents, index);
    }

    method Erase(key: K)
      requires Valid()
      modifies this, data
      ensures Valid() && Contents == Remove(old(Contents), tr.eq, key)
    {
      var i := FindIndex(key);
      EraseAt(i);
    }

    /** A small map with n slots holding the pairs of from. */
    static method CreateFrom(n: nat, from: SmallMap<K, V>) returns (p: SmallMap<K, V>)
      requires from.Valid() && from.size <= n <= MAX_SIZE
      ensures p.Valid() && fresh(p.Repr()) && p.tr == from.tr && p.Contents == from.Contents && p.data.Length == n
    {
      p := new SmallMap.Empty(from.tr, n);
      var i := 0;
      while i < from.size
        invariant 0 <= i <= from.size && p.Contents == []
        invariant forall j :: 0 <= j < i ==> p.data[j] == from.data[j]
        modifies p.data
      {
        p.data[i] := from.data[i];
        i := i + 1;
      }
      p.size := from.size;
      p.Contents := from.Contents;
    }

    /** Overwrite in place, append in place, or append in a copy of twice the slots, four at most. ok is
        false when a full map of four slots is asked to grow (the repository throws). */
    static method InsertMaybeReHash(key: K, val: V, m: SmallMap<K, V>) returns (ok: bool, out: SmallMap<K, V>)
      requires m.Valid()
      modifies m, m.data
      ensures ok <==> old(m.size) < MAX_SIZE || Find(old(m.Contents), m.tr.eq, key) < |old(m.Contents)|
      ensures ok ==> out.Valid() && out.tr == m.tr && out.Contents == SetInPlace(old(m.Contents), m.tr.eq, key, val)
      ensures ok ==> out == m || fresh(out.Repr())
    {
      out := m;
      var i := m.FindIndex(key);
      if i < m.size {
        m.OverwriteAt(i, val, key);
        return true, m;
      }
      if m.size >= m.data.Length {
        var next_size := if m.data.Length * 2 < INIT_SIZE then INIT_SIZE else m.data.Length * 2;
        next_size := if MAX_SIZE < next_size then MAX_SIZE else next_size;
        if next_size <= m.data.Length { return false, m; }
        out := CreateFrom(next_size, m);
      }
      out.Append(key, val);
      ok := true;
    }

    method OverwriteAt(i: nat, val: V, ghost key: K)
      requires Valid() && i < size && i == Find(Contents, tr.eq, key)
      modifies this, data
      ensures Valid() && Contents == SetInPlace(old(Contents), tr.eq, key, val)
    {
      LookupAfterSetInPlace(Contents, tr, key, val, key);
      hide DistinctKeys, Lawful;
      data[i] := KV(data[i].key, val);
      Contents := Contents[i := (Contents[i].0, val)];
    }

    method Append(key: K, val: V)
      requires Valid() && size < data.Length && Find(Contents, tr.eq, key) == size
      modifies this, data
      ensures Valid() && Contents == SetInPlace(old(Contents), tr.eq, key, val)
    {
      LookupAfterSetInPlace(Contents, tr, key, val, key);
      hide DistinctKeys, Lawful;
      data[size] := KV(key, val);
      size := size + 1;
      Contents := Contents + [(key, val)];
    }
  }

  /** A map object in one of its two layouts. */
  datatype MapObj<K(!new), V(!new)> = Small(s: SmallMap<K, V>) | Dense(d: DenseMap<K, V>) {
    ghost function Repr(): set<object> {
      match this case Small(s) => s.Repr() case Dense(d) => d.Repr()
    }

    function Traits(): KeyTraits<K> {
      match this case Small(s) => s.tr case Dense(d) => d.tr
    }

    ghost predicate Valid()
      reads Repr()
    {
      match this case Small(s) => s.Valid() case Dense(d) => d.Valid()
    }

    ghost function Contents(): seq<(K, V)>
      reads Repr()
    {
      match this case Small(s) => s.Contents case Dense(d) => d.Contents
    }

    /** A dense map without room for key; a small map always finds room. */
    ghost predicate Refuses(key: K)
      reads Repr()
    {
      Dense? && DenseRoom.Refuses(d.tr, d.Geo(), d.T(), key)
    }

    /** A small map of four slots that is full leaves the small layout on the next insertion. */
    ghost predicate TurnsDense()
      reads Repr()
    {
      Small? && s.data.Length == MAX_SIZE == s.size
    }
  }

  lemma MapObjKeysDistinct<K(!new), V(!new)>(m: MapObj<K, V>)
    requires m.Valid()
    ensures Lawful(m.Traits()) && DistinctKeys(m.Contents(), m.Traits().eq)
  {
  }

  method Empty<K(!new), V(!new)>(tr: KeyTraits<K>) returns (m: MapObj<K, V>)
    requires Lawful(tr)
    ensures m.Valid() && fresh(m.Repr()) && m.Traits() == tr && m.Contents() == []
  {
    var s := new SmallMap<K, V>.Empty(tr, INIT_SIZE);
    m := Small(s);
  }

  /** The same layout, and the same table size where it is dense. */
  predicate SameRoom<K(!new), V(!new)>(a: MapObj<K, V>, b: MapObj<K, V>) {
    (a.Small? <==> b.Small?) && (a.Dense? && b.Dense? ==> a.d.fib == b.d.fib && a.d.slots == b.d.slots)
  }

  method CopyFrom<K(!new), V(!new)>(from: MapObj<K, V>) returns (m: MapObj<K, V>)
    requires from.Valid()
    ensures m.Valid() && fresh(m.Repr()) && m.Repr() != {}
    ensures m.Traits() == from.Traits() && m.Contents() == from.Contents()
    ensures forall key :: m.Refuses(key) <==> from.Refuses(key)
    ensures SameRoom(m, from)
  {
    match from
    case Small(s) =>
      var p := SmallMap.CreateFrom(s.size, s);
      m := Small(p);
    case Dense(d) =>
      var p := DenseMap.CopyFrom(d);
      forall key
        ensures DenseRoom.Refuses(p.tr, p.Geo(), p.T(), key) <==> DenseRoom.Refuses(d.tr, d.Geo(), d.T(), key)
      {
        CopyRefuses(d.tr, d.Geo(), d.T(), p.T(), key);
      }
      m := Dense(p);
  }

  method EmptyFor<K(!new), V(!new)>(s: SmallMap<K, V>, nil: V) returns (d: DenseMap<K, V>)
    requires s.Valid() && s.size == MAX_SIZE
    ensures d.Valid() && fresh(d.Repr()) && d.tr == s.tr && d.nil == nil && d.Contents == [] && d.slots == 8
  {
    var fail, fibShift, nSlots := Probing.CalcTableSize(s.size);
    Probing.FourNeedEight(fibShift, nSlots);
    d := new DenseMap.Empty(s.tr, nil, fibShift, nSlots);
  }

  /** The dense map a full small map turns into: its entries inserted in order into a table sized for them. */
  method DenseFromSmall<K(!new), V(!new)>(s: SmallMap<K, V>, nil: V) returns (d: DenseMap<K, V>)
    requires s.Valid() && s.size == MAX_SIZE
    ensures d.Valid() && fresh(d.Repr()) && d.tr == s.tr && d.nil == nil && d.Contents == s.Contents && d.slots == 8
  {
    hide DenseTable.Valid, DistinctKeys, Lawful;
    d := EmptyFor(s, nil);
    assert Filled(s, nil, d, 0);
    hide Filled;
    var i := 0;
    while i < s.size
      invariant 0 <= i <= s.size == MAX_SIZE && Filled(s, nil, d, i) && fresh(d.Repr())
    {
      InsertNth(s, i, nil, d);
      i := i + 1;
    }
    FilledAll(s, nil, d);
  }

  /** The first i pairs of s have been inserted into d. */
  ghost predicate Filled<K(!new), V(!new)>(s: SmallMap<K, V>, nil: V, d: DenseMap<K, V>, i: nat)
    reads s, s.data, d, d.meta, d.kv, d.prev, d.next
  {
    && s.Valid() && d.Valid() && d.tr == s.tr && d.nil == nil && s.data != d.kv && d.slots == 8
    && i <= s.size && d.Contents == s.Contents[..i]
  }

  lemma FilledAll<K(!new), V(!new)>(s: SmallMap<K, V>, nil: V, d: DenseMap<K, V>)
    requires Filled(s, nil, d, s.size)
    ensures d.Valid() && d.tr == s.tr && d.nil == nil && d.Contents == s.Contents && d.slots == 8
  {
  }

  /** Eight slots have room for another key while they hold four entries or less. */
  lemma EightHaveRoom<K(!new), V(!new)>(d: DenseMap<K, V>, key: K)
    requires d.Valid() && d.slots == 8 && |d.Contents| <= MAX_SIZE
    ensures !DenseRoom.Refuses(d.tr, d.Geo(), d.T(), key)
  {
    assert d.size == |d.Contents|;
    hide DenseTable.Valid, DenseRoom.Refuses;
    d.SmallTableHasRoom(key);
  }

  method InsertNth<K(!new), V(!new)>(s: SmallMap<K, V>, i: nat, nil: V, d: DenseMap<K, V>)
    requires Filled(s, nil, d, i) && i < s.size <= MAX_SIZE
    modifies d, d.meta, d.kv, d.prev, d.next
    ensures Filled(s, nil, d, i + 1)
  {
    RebuildStep(s.Contents, s.tr, i);
    EightHaveRoom(d, s.data[i].key);
    hide DenseTable.Valid, SetLast, DistinctKeys, Lawful, DenseRoom.Refuses;
    var ok, out, _ := DenseMap.InsertMaybeReHash(s.data[i].key, s.data[i].val, d);
  }

  /** Insertion through the layout switch. */
  method InsertMaybeReHash<K(!new), V(!new)>(key: K, val: V, m: MapObj<K, V>, nil: V)
    returns (ok: bool, out: MapObj<K, V>, ghost ws: seq<Table<K, V>>)
    requires m.Valid()
    modifies m.Repr()
    ensures ok ==> out.Valid() && out.Traits() == m.Traits() && (out.Repr() == m.Repr() || fresh(out.Repr()))
    ensures ok ==> out.Contents() ==
                     if m.Small? && !old(m.TurnsDense()) then SetInPlace(old(m.Contents()), m.Traits().eq, key, val)
                     else SetLast(old(m.Contents()), m.Traits().eq, key, val)
    ensures m.Small? ==> ok
    ensures out.Small? <==> m.Small? && !old(m.TurnsDense())
    ensures !ok ==> old(m.Refuses(key)) && out.Dense? && out.d.slots * 2 > MAX_SLOTS
    ensures m.Dense? ==> Ladder(m.d.tr, old(m.Contents()) + [(key, val)], m.d.fib, ws)
    ensures m.Dense? ==> if ok then out.Dense? && out.d.fib == m.d.fib - |ws| else |ws| == m.d.fib - 1
    ensures m.Dense? && m.d.slots == 8 ==> ok
  {
    hide Ladder;
    out, ws := m, [];
    match m {
      case Small(s) =>
        if s.data.Length < MAX_SIZE || s.size < s.data.Length {
          var p;
          ok, p := SmallMap.InsertMaybeReHash(key, val, s);
          out := Small(p);
        } else {
          var d := DenseFromSmall(s, nil);
          EightHaveRoom(d, key);
          ok, d, ws := DenseMap.InsertMaybeReHash(key, val, d);
          out := Dense(d);
        }
      case Dense(d0) =>
        var d;
        ok, d, ws := DenseMap.InsertMaybeReHash(key, val, d0);
        out := Dense(d);
    }
  }

  method Erase<K(!new), V(!new)>(key: K, m: MapObj<K, V>)
    requires m.Valid()
    modifies m.Repr()
    ensures m.Valid() && m.Contents() == Remove(old(m.Contents()), m.Traits().eq, key)
  {
    match m {
      case Small(s) => s.Erase(key);
      case Dense(d) => var _ := d.Erase(key);
    }
  }

  method Get<K(!new), V(!new)>(key: K, m: MapObj<K, V>) returns (v: Option<V>)
    requires m.Valid()
    ensures v == Lookup(m.Contents(), m.Traits().eq, key)
  {
    match m {
      case Small(s) => v := s.Get(key);
      case Dense(d) => v := d.Get(key);
    }
  }
}
