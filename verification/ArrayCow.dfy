// Arrays shared between handles and copied on write.
module ArrayCow {
  import opened AssocList

  /** ArrayObj: a buffer of fixed capacity of which the first size elements are in use. */
  class ArrayObj<T> {
    const nil: T
    const buffer: array<T>
    var size: nat

    ghost predicate Valid()
      reads this
    {
      size <= buffer.Length
    }

    ghost function Contents(): seq<T>
      requires Valid()
      reads this, buffer
    {
      buffer[..size]
    }

    constructor Empty(capacity: nat, nil: T)
      ensures Valid() && fresh(buffer) && buffer.Length == capacity && this.nil == nil && Contents() == []
    {
      this.nil := nil;
      buffer := new T[capacity](_ => nil);
      size := 0;
    }

    /** A copy with another capacity; none when the elements do not fit. */
    static method CopyFrom(capacity: nat, src: ArrayObj<T>) returns (p: ArrayObj<T>)
      requires src.Valid() && src.size <= capacity
      ensures fresh(p) && fresh(p.buffer) && p.Valid() && p.buffer.Length == capacity && p.nil == src.nil
      ensures p.Contents() == src.Contents()
    {
      p := new ArrayObj<T>.Empty(capacity, src.nil);
      while p.size < src.size
        invariant fresh(p) && fresh(p.buffer) && p.Valid() && p.buffer.Length == capacity && p.nil == src.nil
        invariant p.size <= src.size && src.Valid() && src.size == old(src.size)
        invariant src.buffer[..] == old(src.buffer[..])
        invariant p.Contents() == src.buffer[..p.size]
        decreases src.size - p.size
      {
        p.buffer[p.size] := src.buffer[p.size];
        p.size := p.size + 1;
      }
    }

    /** The elements change owner; the source is left empty. */
    static method MoveFrom(capacity: nat, src: ArrayObj<T>) returns (p: ArrayObj<T>)
      requires src.Valid() && src.size <= capacity
      modifies src, src.buffer
      ensures fresh(p) && fresh(p.buffer) && p.Valid() && p.buffer.Length == capacity && p.nil == src.nil
      ensures p.Contents() == old(src.Contents()) && src.size == 0
    {
      ghost var c := src.buffer[..];
      p := new ArrayObj<T>.Empty(capacity, src.nil);
      while p.size < src.size
        invariant fresh(p) && fresh(p.buffer) && p.Valid() && p.buffer.Length == capacity && p.nil == src.nil
        invariant p.size <= src.size == old(src.size) && src.Valid()
        invariant src.buffer[p.size..] == c[p.size..] && p.Contents() == c[..p.size]
        modifies src.buffer, p, p.buffer
        decreases src.size - p.size
      {
        p.buffer[p.size], src.buffer[p.size] := src.buffer[p.size], src.nil;
        p.size := p.size + 1;
      }
      src.size := 0;
    }

    /** Shifts [first, last) to the right by d, from the last element on. */
    method MoveElementsRight(d: nat, first: nat, last: nat)
      requires 0 < d && first <= last && last + d <= buffer.Length
      modifies buffer
      ensures forall k :: first <= k < last ==> buffer[k + d] == old(buffer[k])
      ensures forall k :: 0 <= k < first || last + d <= k < buffer.Length ==> buffer[k] == old(buffer[k])
    {
      var i := last;
      while first < i
        invariant first <= i <= last
        invariant forall k :: 0 <= k < i ==> buffer[k] == old(buffer[k])
        invariant forall k :: i <= k < last ==> buffer[k + d] == old(buffer[k])
        invariant forall k :: last + d <= k < buffer.Length ==> buffer[k] == old(buffer[k])
      {
        i := i - 1;
        var v := buffer[i];
        buffer[i] := nil;
        buffer[i + d] := v;
      }
    }

    /** Shifts [first, last) to the left by d, from the first element on. */
    method MoveElementsLeft(d: nat, first: nat, last: nat)
      requires 0 < d <= first <= last <= buffer.Length
      modifies buffer
      ensures forall k :: first <= k < last ==> buffer[k - d] == old(buffer[k])
      ensures forall k :: 0 <= k < first - d || last <= k < buffer.Length ==> buffer[k] == old(buffer[k])
    {
      var i := first;
      while i < last
        invariant first <= i <= last
        invariant forall k :: i <= k < buffer.Length ==> buffer[k] == old(buffer[k])
        invariant forall k :: first <= k < i ==> buffer[k - d] == old(buffer[k])
        invariant forall k :: 0 <= k < first - d ==> buffer[k] == old(buffer[k])
      {
        var v := buffer[i];
        buffer[i] := nil;
        buffer[i - d] := v;
        i := i + 1;
      }
    }

    method EnlargeBy(delta: nat, v: T)
      requires Valid() && size + delta <= buffer.Length
      modifies this, buffer
      ensures Valid() && size == old(size) + delta
      ensures Contents() == old(Contents()) + seq(delta, _ => v)
    {
      var i := 0;
      while i < delta
        invariant i <= delta && size == old(size) + i && Valid()
        invariant Contents() == old(Contents()) + seq(i, _ => v)
      {
        buffer[size] := v;
        size := size + 1;
        i := i + 1;
      }
    }

    method ShrinkBy(delta: nat)
      requires Valid() && delta <= size
      modifies this
      ensures Valid() && size == old(size) - delta && Contents() == old(Contents())[..old(size) - delta]
    {
      var i := 0;
      while i < delta
        invariant i <= delta && size == old(size) - i
      {
        size := size - 1;
        i := i + 1;
      }
    }

    /** EmplaceInit at the end. */
    method Append(v: T)
      requires Valid() && size < buffer.Length
      modifies this, buffer
      ensures Valid() && Contents() == old(Contents()) + [v]
    {
      buffer[size] := v;
      size := size + 1;
    }

    /** InitRange: the values from position i on. */
    method InitRange(i: nat, values: seq<T>)
      requires i + |values| <= buffer.Length
      modifies buffer
      ensures forall k :: 0 <= k < |values| ==> buffer[i + k] == values[k]
      ensures forall k :: 0 <= k < i || i + |values| <= k < buffer.Length ==> buffer[k] == old(buffer[k])
    {
      for j := 0 to |values|
        invariant forall k :: 0 <= k < j ==> buffer[i + k] == values[k]
        invariant forall k :: 0 <= k < i || i + j <= k < buffer.Length ==> buffer[k] == old(buffer[k])
      {
        buffer[i + j] := values[j];
      }
    }

    /** Room for the values at i, the rest moved right, then the values. */
    method InsertRange(i: nat, values: seq<T>)
      requires Valid() && i <= size && values != [] && size + |values| <= buffer.Length
      modifies this, buffer
      ensures Valid() && Contents() == old(Contents())[..i] + values + old(Contents())[i..]
    {
      hide RoomMade;
      ghost var c := Contents();
      MakeRoom(i, |values|);
      ghost var m := buffer[..];
      InitRange(i, values);
      Inserted(c, m, buffer[..], i, values);
    }

    /** EnlargeBy and MoveElementsRight: n slots open at i. */
    method MakeRoom(i: nat, n: nat)
      requires Valid() && i <= size && n > 0 && size + n <= buffer.Length
      modifies this, buffer
      ensures Valid() && size == old(size) + n && RoomMade(old(Contents()), buffer[..], i, n)
    {
      var oldSize := size;
      EnlargeBy(n, nil);
      assert buffer[..size][..oldSize] == old(buffer[..size]);
      assert forall k :: 0 <= k < oldSize ==> buffer[k] == buffer[..size][..oldSize][k];
      MoveElementsRight(n, i, oldSize);
    }

    /** The elements of c from i on stand n places further right in m. */
    static ghost predicate RoomMade(c: seq<T>, m: seq<T>, i: nat, n: nat) {
      && i <= |c| && |m| >= |c| + n
      && (forall k :: i <= k < |c| ==> m[k + n] == c[k])
      && (forall k :: 0 <= k < i ==> m[k] == c[k])
    }

    static lemma Inserted(c: seq<T>, m: seq<T>, b: seq<T>, i: nat, values: seq<T>)
      requires i <= |c| && |m| == |b| >= |c| + |values| && RoomMade(c, m, i, |values|)
      requires forall k :: 0 <= k < |values| ==> b[i + k] == values[k]
      requires forall k :: 0 <= k < i || i + |values| <= k < |b| ==> b[k] == m[k]
      ensures b[..|c| + |values|] == c[..i] + values + c[i..]
    {
      var r := c[..i] + values + c[i..];
      forall k | 0 <= k < |r| ensures b[k] == r[k] {
        if i <= k < i + |values| {
          assert b[i + (k - i)] == values[k - i];
        } else if i + |values| <= k {
          assert m[(k - |values|) + |values|] == c[k - |values|];
        }
      }
    }

    method EraseRange(first: nat, last: nat)
      requires Valid() && first < last <= size
      modifies this, buffer
      ensures Valid() && Contents() == old(Contents())[..first] + old(Contents())[last..]
    {
      ghost var c := Contents();
      MoveElementsLeft(last - first, last, size);
      ghost var m := Contents();
      forall k | 0 <= k < |c| - (last - first) ensures m[k] == (c[..first] + c[last..])[k] {
        if k >= first {
          assert buffer[k + (last - first) - (last - first)] == c[k + (last - first)];
        }
      }
      ShrinkBy(last - first);
    }
  }

  const INIT_SIZE: nat := 4
  const INC_FACTOR: nat := 2

  /** All array handles of a program, none of them null; copying a handle shares its object. */
  class ArrayHandles<T(!new)> {
    const nil: T
    var objs: seq<ArrayObj<T>>
    /** What each handle shows. */
    ghost var Views: seq<seq<T>>
    /** The objects the handles point to, and their buffers. */
    ghost var Footprint: set<object>

    ghost predicate Shows(p: ArrayObj<T>, v: seq<T>)
      reads p, p.buffer
    {
      p.Valid() && p.nil == nil && p.Contents() == v
    }

    ghost predicate Valid()
      reads this, Footprint
    {
      && |Views| == |objs| && this !in Footprint
      && (forall h :: 0 <= h < |objs| ==>
            objs[h] in Footprint && objs[h].buffer in Footprint && Shows(objs[h], Views[h]))
      && (forall h, l :: 0 <= h < |objs| && 0 <= l < |objs| ==> objs[h] == objs[l] || objs[h].buffer != objs[l].buffer)
    }

    constructor (nil: T)
      ensures Valid() && Views == [] && this.nil == nil
    {
      this.nil, objs, Views, Footprint := nil, [], [], {};
    }

    method Fresh() returns (h: nat)
      requires Valid()
      modifies this
      ensures Valid() && h == |old(Views)| && Views == old(Views) + [[]]
    {
      h := |objs|;
      var p := new ArrayObj<T>.Empty(INIT_SIZE, nil);
      objs, Views, Footprint := objs + [p], Views + [[]], Footprint + {p, p.buffer};
    }

    method Share(src: nat) returns (h: nat)
      requires Valid() && src < |objs|
      modifies this
      ensures Valid() && h == |old(Views)| && Views == old(Views) + [old(Views)[src]]
    {
      h := |objs|;
      objs, Views := objs + [objs[src]], Views + [Views[src]];
    }

    /** unique(): no other handle points to the object. */
    predicate IsUnique(h: nat)
      requires h < |objs|
      reads this
    {
      forall l :: 0 <= l < |objs| && l != h ==> objs[l] != objs[h]
    }

    /** The object behind h now has contents v and nobody else sees it. */
    ghost predicate Exclusive(h: nat)
      reads this, Footprint
    {
      Valid() && h < |objs| && IsUnique(h)
    }

    /** Moves the elements to a new object when nobody else uses them, copies them otherwise. */
    method SwitchContainer(h: nat, capacity: nat)
      requires Valid() && h < |objs| && objs[h].size <= capacity
      modifies this, objs[h], objs[h].buffer
      ensures Exclusive(h) && Views == old(Views) && |objs| == |old(objs)|
      ensures fresh(objs[h]) && fresh(objs[h].buffer) && objs[h].buffer.Length == capacity
    {
      var p;
      if IsUnique(h) {
        p := ArrayObj<T>.MoveFrom(capacity, objs[h]);
      } else {
        p := ArrayObj<T>.CopyFrom(capacity, objs[h]);
      }
      objs, Footprint := objs[h := p], Footprint + {p, p.buffer};
    }

    /** CopyOnWrite(): in place only at use count one. */
    method CopyOnWrite(h: nat)
      requires Valid() && h < |objs|
      modifies this, objs[h], objs[h].buffer
      ensures Exclusive(h) && Views == old(Views) && |objs| == |old(objs)|
      ensures if old(IsUnique(h)) then objs[h] == old(objs[h]) else fresh(objs[h]) && fresh(objs[h].buffer)
      ensures objs[h].buffer.Length == old(objs[h].buffer.Length)
    {
      if !IsUnique(h) { SwitchContainer(h, objs[h].buffer.Length); }
    }

    /** CopyOnWrite(reserve_extra): also makes room, doubling the capacity at least. */
    method CopyOnWriteFor(h: nat, extra: nat)
      requires Valid() && h < |objs|
      modifies this, objs[h], objs[h].buffer
      ensures Exclusive(h) && Views == old(Views) && |objs| == |old(objs)|
      ensures objs[h] == old(objs[h]) || (fresh(objs[h]) && fresh(objs[h].buffer))
      ensures !old(IsUnique(h)) ==> fresh(objs[h])
      ensures objs[h].buffer.Length >= |Views[h]| + extra
    {
      if objs[h].buffer.Length >= objs[h].size + extra {
        CopyOnWrite(h);
      } else {
        SwitchContainer(h, Max(objs[h].buffer.Length * INC_FACTOR, objs[h].size + extra));
      }
    }

    method PushBack(h: nat, v: T)
      requires Valid() && h < |objs|
      modifies this, objs[h], objs[h].buffer
      ensures Valid() && Views == old(Views)[h := old(Views)[h] + [v]]
    {
      CopyOnWriteFor(h, 1);
      objs[h].Append(v);
      Views := Views[h := Views[h] + [v]];
    }

    /** Both insert overloads; aliasing values are not modelled. */
    method Insert(h: nat, i: nat, values: seq<T>)
      requires Valid() && h < |objs| && i <= |Views[h]|
      modifies this, objs[h], objs[h].buffer
      ensures Valid() && Views == old(Views)[h := old(Views)[h][..i] + values + old(Views)[h][i..]]
    {
      if values == [] {
        assert Views[h][..i] + [] + Views[h][i..] == Views[h];
        return;
      }
      CopyOnWriteFor(h, |values|);
      objs[h].InsertRange(i, values);
      Views := Views[h := Views[h][..i] + values + Views[h][i..]];
    }

    method PopBack(h: nat) returns (ok: bool)
      requires Valid() && h < |objs|
      modifies this, objs[h], objs[h].buffer
      ensures Valid() && ok == (old(Views)[h] != [])
      ensures Views == if ok then old(Views)[h := old(Views)[h][..|old(Views)[h]| - 1]] else old(Views)
    {
      if objs[h].size == 0 { return false; }
      DropLast(h, 1);
      return true;
    }

    /** CopyOnWrite and ShrinkBy: the last delta elements go. */
    method DropLast(h: nat, delta: nat)
      requires Valid() && h < |objs| && delta <= |Views[h]|
      modifies this, objs[h], objs[h].buffer
      ensures Valid() && Views == old(Views)[h := old(Views)[h][..|old(Views)[h]| - delta]]
    {
      CopyOnWrite(h);
      objs[h].ShrinkBy(delta);
      Views := Views[h := Views[h][..|Views[h]| - delta]];
    }

    /** CopyOnWrite with room for them, and EnlargeBy: delta null elements come. */
    method AddNulls(h: nat, delta: nat)
      requires Valid() && h < |objs|
      modifies this, objs[h], objs[h].buffer
      ensures Valid() && Views == old(Views)[h := old(Views)[h] + seq(delta, _ => nil)]
    {
      CopyOnWriteFor(h, delta);
      objs[h].EnlargeBy(delta, nil);
      Views := Views[h := Views[h] + seq(delta, _ => nil)];
    }

    /** Both erase overloads: an empty range does nothing, a range that is not inside the array is an error. */
    method Erase(h: nat, first: int, last: int) returns (ok: bool)
      requires Valid() && h < |objs|
      modifies this, objs[h], objs[h].buffer
      ensures Valid() && ok == (first == last || 0 <= first < last <= |old(Views)[h]|)
      ensures Views == if ok && first != last then old(Views)[h := old(Views)[h][..first] + old(Views)[h][last..]]
            else old(Views)
    {
      if first == last { return true; }
      if first >= last || first < 0 || last > objs[h].size { return false; }
      CopyOnWrite(h);
      objs[h].EraseRange(first, last);
      Views := Views[h := Views[h][..first] + Views[h][last..]];
      return true;
    }

    /** The copy is made before the index is checked. */
    method Set(h: nat, i: int, v: T) returns (ok: bool)
      requires Valid() && h < |objs|
      modifies this, objs[h], objs[h].buffer
      ensures Valid() && ok == (0 <= i < |old(Views)[h]|)
      ensures Views == if ok then old(Views)[h := old(Views)[h][i := v]] else old(Views)
    {
      CopyOnWrite(h);
      if i < 0 || i >= objs[h].size { return false; }
      objs[h].buffer[i] := v;
      Views := Views[h := Views[h][i := v]];
      assert objs[h].Contents() == Views[h];
      return true;
    }

    method Resize(h: nat, n: int) returns (ok: bool)
      requires Valid() && h < |objs|
      modifies this, objs[h], objs[h].buffer
      ensures Valid() && ok == (n >= 0)
      ensures Views == if ok then old(Views)[h := Resized(old(Views)[h], n)] else old(Views)
    {
      if n < 0 { return false; }
      var size := objs[h].size;
      assert size == |Views[h]|;
      hide Valid;
      if size < n {
        AddNulls(h, n - size);
      } else if size > n {
        DropLast(h, size - n);
      } else {
        assert Resized(Views[h], n) == Views[h];
      }
      return true;
    }

    function Resized(v: seq<T>, n: nat): seq<T> {
      if n <= |v| then v[..n] else v + seq(n - |v|, _ => nil)
    }

    method Clear(h: nat)
      requires Valid() && h < |objs|
      modifies this, objs[h], objs[h].buffer
      ensures Valid() && Views == old(Views)[h := []]
    {
      DropLast(h, objs[h].size);
    }

    method Reserve(h: nat, n: nat)
      requires Valid() && h < |objs|
      modifies this, objs[h], objs[h].buffer
      ensures Valid() && Views == old(Views) && objs[h].buffer.Length >= n
    {
      if n > objs[h].buffer.Length { SwitchContainer(h, n); }
    }
  }
}
