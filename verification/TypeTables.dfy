// The runtime type table: reserved index blocks, overflow allocation, and the
// range check that stands for the subtype relation.
module TypeTables {
  import opened AssocList

  const OBJECT: nat := 64
  const OPAQUE_PY_OBJECT: nat := 74
  const DYN_OBJECT_BEGIN: nat := 128

  /** used is allocated_slots; ancestors are the indices of the types above,
      the root first; overflow is child_slots_can_overflow. */
  datatype Entry = Entry(index: nat, depth: nat, key: string, numSlots: nat, used: nat,
                         overflow: bool, ancestors: seq<nat>)

  datatype Table = Table(slots: seq<Option<Entry>>, counter: nat, keys: map<string, nat>)

  /** The arguments of GetOrAllocTypeIndex; a negative index stands for no static index, or no parent. */
  datatype Request = Request(key: string, staticIndex: int, depth: nat, childSlots: nat, overflow: bool, parent: int)

  datatype Error =
    | ParentOutOfRange
    | StaticOutOfRange
    | StaticConflict
    | NoParent
    | ReachedMaximum
    | BelowParent
    | WrongDepth

  datatype Result = Index(index: nat) | Failed(error: Error)

  datatype Registered = Registered(result: Result, table: Table)

  // --------------------------------------------------------------- registering

  function ParentEntry(t: Table, r: Request): Option<Entry>
    requires r.parent < |t.slots|
  {
    if r.parent < 0 then None else t.slots[r.parent]
  }

  /** Steps 0 to 2: a static index, the parent's reserved slots, or new slots at the end. */
  function Allocate(t: Table, r: Request): Registered
    requires r.parent < |t.slots|
  {
    var parent := ParentEntry(t, r);
    if r.staticIndex >= 0 then
      if r.staticIndex >= |t.slots| then Registered(Failed(StaticOutOfRange), t)
      else if t.slots[r.staticIndex].Some? then Registered(Failed(StaticConflict), t)
      else Registered(Index(r.staticIndex), t)
    else if parent.None? then Registered(Failed(NoParent), t)
    else
      var p := parent.value;
      var n := r.childSlots + 1;
      if p.used + n <= p.numSlots then
        Registered(Index(p.index + p.used), t.(slots := t.slots[r.parent := Some(p.(used := p.used + n))]))
      else if !p.overflow then Registered(Failed(ReachedMaximum), t)
      else Registered(Index(t.counter), t.(slots := Grown(t.slots, t.counter + n), counter := t.counter + n))
  }

  function Grown(s: seq<Option<Entry>>, n: nat): (g: seq<Option<Entry>>)
    ensures |g| == if |s| < n then n else |s|
    ensures g[..|s|] == s && forall i :: |s| <= i < |g| ==> g[i] == None
  {
    if |s| < n then s + seq(n - |s|, _ => None) else s
  }

  function NewEntry(index: nat, r: Request, parent: Option<Entry>): Entry {
    match parent
    case None => Entry(index, r.depth, r.key, r.childSlots + 1, 1, r.overflow, [])
    case Some(p) =>
      Entry(index, r.depth, r.key, r.childSlots + 1, 1, r.overflow && p.overflow,
            if r.depth == 0 then [] else p.ancestors + [p.index])
  }

  /** GetOrAllocTypeIndex. A registration that fails in a check leaves what it has changed so far. */
  function Register(t: Table, r: Request): Registered {
    if r.key in t.keys then Registered(Index(t.keys[r.key]), t)
    else if r.parent >= |t.slots| then Registered(Failed(ParentOutOfRange), t)
    else
      var parent := ParentEntry(t, r);
      var a := Allocate(t, r);
      if a.result.Failed? then a
      else if parent.Some? && a.result.index <= parent.value.index then Registered(Failed(BelowParent), a.table)
      else if r.depth != 0 && (parent.None? || r.depth != parent.value.depth + 1) then
        Registered(Failed(if parent.None? then NoParent else WrongDepth), a.table)
      else
        var e := NewEntry(a.result.index, r, parent);
        Registered(a.result, a.table.(slots := Put(a.table.slots, e), keys := a.table.keys[r.key := e.index]))
  }

  function Put(s: seq<Option<Entry>>, e: Entry): seq<Option<Entry>> {
    if e.index < |s| then s[e.index := Some(e)] else s
  }

  // ----------------------------------------------------------------- invariant

  predicate Present(s: seq<Option<Entry>>, i: int) { 0 <= i < |s| && s[i].Some? }

  /** i is a proper ancestor of j, as type_ancestors tells. */
  predicate Above(s: seq<Option<Entry>>, i: nat, j: nat)
    requires Present(s, i) && Present(s, j)
  {
    s[i].value.depth < |s[j].value.ancestors| && s[j].value.ancestors[s[i].value.depth] == i
  }

  ghost predicate Placed(s: seq<Option<Entry>>) {
    forall i :: Present(s, i) ==>
      var e := s[i].value;
      e.index == i && 1 <= e.used <= e.numSlots && i + e.numSlots <= |s|
  }

  /** Two blocks are disjoint, or the later one lies in the allocated part of the earlier one. */
  ghost predicate Nested(s: seq<Option<Entry>>) {
    forall i, j :: Present(s, i) && Present(s, j) && i < j ==>
      i + s[i].value.numSlots <= j || j + s[j].value.numSlots <= i + s[i].value.used
  }

  /** Every type continues its parent's list of ancestors, lies above its parent, and inherits its no-overflow flag. */
  ghost predicate Lineage(s: seq<Option<Entry>>) {
    forall j :: Present(s, j) ==>
      var e := s[j].value;
      |e.ancestors| == e.depth &&
      (e.depth > 0 ==>
         var p := e.ancestors[e.depth - 1];
         p < j && Present(s, p) && s[p].value.depth == e.depth - 1 && e.ancestors == s[p].value.ancestors + [p] &&
         (e.overflow ==> s[p].value.overflow))
  }

  /** Whatever lies in a block belongs to a descendant of its owner. */
  ghost predicate BlocksAreFamilies(s: seq<Option<Entry>>) {
    forall i, j :: Present(s, i) && Present(s, j) && i < j < i + s[i].value.numSlots ==> Above(s, i, j)
  }

  ghost predicate Shape(s: seq<Option<Entry>>) {
    Placed(s) && Nested(s) && Lineage(s) && BlocksAreFamilies(s)
  }

  ghost predicate KeysKnown(s: seq<Option<Entry>>, keys: map<string, nat>) {
    forall k :: k in keys ==> Present(s, keys[k]) && s[keys[k]].value.key == k
  }

  // ------------------------------------------------- when it succeeds, and where

  /** A depth of zero, or one more than the parent's. */
  predicate RightDepth(t: Table, r: Request) {
    r.depth == 0 || (Present(t.slots, r.parent) && r.depth == t.slots[r.parent].value.depth + 1)
  }

  /** The slots the parent has reserved suffice for the type and its children. */
  predicate ReservedSuffice(t: Table, r: Request) {
    Present(t.slots, r.parent) && t.slots[r.parent].value.used + r.childSlots + 1 <= t.slots[r.parent].value.numSlots
  }

  /** A new key is registered at a static index that is in range, free and above the parent, or, without one, under a
      registered parent that has the slots or may overflow. */
  predicate Accepts(t: Table, r: Request) {
    && r.parent < |t.slots| && RightDepth(t, r)
    && if r.staticIndex >= 0 then
         && r.staticIndex < |t.slots| && t.slots[r.staticIndex].None?
         && (Present(t.slots, r.parent) ==> r.parent < r.staticIndex)
       else Present(t.slots, r.parent) && (ReservedSuffice(t, r) || t.slots[r.parent].value.overflow)
  }

  /** At the end of the table. */
  predicate GoesToEnd(t: Table, r: Request) { r.staticIndex < 0 && !ReservedSuffice(t, r) }

  /** The static index, the next reserved slot of the parent, or the first index not yet given out. */
  function PlaceOf(t: Table, r: Request): int {
    if r.staticIndex >= 0 then r.staticIndex
    else if ReservedSuffice(t, r) then r.parent + t.slots[r.parent].value.used
    else t.counter
  }

  /** What every table has, sound or not: entries at their indices, and a place for every key. */
  ghost predicate Usable(t: Table) {
    && |t.slots| == t.counter && (forall i :: Present(t.slots, i) ==> t.slots[i].value.index == i)
    && forall k :: k in t.keys ==> Present(t.slots, t.keys[k])
  }

  /** The slot the request would take from those reserved by its parent is inside the table. */
  predicate Inside(t: Table, r: Request) {
    r.key !in t.keys && r.staticIndex < 0 && Present(t.slots, r.parent) ==>
      var p := t.slots[r.parent].value;
      p.used + r.childSlots + 1 <= p.numSlots ==> r.parent + p.used < |t.slots|
  }

  ghost predicate Sound(t: Table) {
    |t.slots| == t.counter && t.counter >= DYN_OBJECT_BEGIN && Shape(t.slots) && KeysKnown(t.slots, t.keys)
  }

  /** Descendants of a type whose children may not overflow lie in its block. */
  ghost predicate Contained(s: seq<Option<Entry>>) {
    forall i, j :: Present(s, i) && Present(s, j) && Above(s, i, j) && !s[i].value.overflow ==>
        j < i + s[i].value.numSlots
  }

  // ----------------------------------------------------------------- ancestors

  /** The ancestors a type lists are present, lie below it, and list what it lists up to themselves. */
  lemma {:induction false} AncestorAt(s: seq<Option<Entry>>, j: nat, k: nat)
    requires Lineage(s) && Present(s, j) && k < s[j].value.depth
    ensures k < |s[j].value.ancestors|
    ensures var a := s[j].value.ancestors[k];
            a < j && Present(s, a) && s[a].value.depth == k && Above(s, a, j) &&
            s[a].value.ancestors == s[j].value.ancestors[..k] && (s[j].value.overflow ==> s[a].value.overflow)
    decreases j
  {
    var e := s[j].value;
    var p := e.ancestors[e.depth - 1];
    if k < e.depth - 1 {
      AncestorAt(s, p, k);
    }
  }

  lemma {:induction false} AboveMeans(s: seq<Option<Entry>>, i: nat, j: nat)
    requires Lineage(s) && Present(s, i) && Present(s, j) && Above(s, i, j)
    ensures i < j && s[i].value.depth < s[j].value.depth && (s[j].value.overflow ==> s[i].value.overflow)
  {
    AncestorAt(s, j, s[i].value.depth);
  }

  /** The declared class hierarchy: o is target, or its parent is a subtype of target. */
  ghost predicate IsSubtype(s: seq<Option<Entry>>, o: nat, target: nat)
    decreases o
  {
    o == target ||
    (Present(s, o) &&
     var e := s[o].value;
     0 < e.depth == |e.ancestors| && e.ancestors[e.depth - 1] < o && IsSubtype(s, e.ancestors[e.depth - 1], target))
  }

  /** One look at a fixed depth decides it. */
  lemma {:induction false} SubtypeIffAbove(s: seq<Option<Entry>>, o: nat, target: nat)
    requires Lineage(s) && Present(s, o) && Present(s, target)
    ensures IsSubtype(s, o, target) <==> o == target || Above(s, target, o)
    decreases o
  {
    var e := s[o].value;
    if e.depth > 0 {
      var p := e.ancestors[e.depth - 1];
      SubtypeIffAbove(s, p, target);
    }
  }

  // ------------------------------------------------------ registration is sound

  /** The n slots from x on are empty, and every block they touch belongs to the parent or a type above it. */
  ghost predicate FreeBlock(s: seq<Option<Entry>>, parent: int, x: nat, n: nat) {
    && n >= 1 && x + n <= |s|
    && (forall i :: x <= i < x + n ==> !Present(s, i))
    && forall k :: Present(s, k) ==>
         || k + s[k].value.numSlots <= x
         || x + n <= k
         || (k < x && x + n <= k + s[k].value.used && Present(s, parent) && (k == parent || Above(s, k, parent)))
  }

  /** The unused part of a parent's block is free: every block around it is the parent's or an ancestor's. */
  lemma {:induction false} ReservedFree(s: seq<Option<Entry>>, p: nat, n: nat, s': seq<Option<Entry>>)
    requires Placed(s) && Nested(s) && BlocksAreFamilies(s)
    requires Present(s, p) && n >= 1 && s[p].value.used + n <= s[p].value.numSlots
    requires s' == s[p := Some(s[p].value.(used := s[p].value.used + n))]
    ensures FreeBlock(s', p, p + s[p].value.used, n)
  {
    var x := p + s[p].value.used;
    forall i | x <= i < x + n ensures !Present(s', i) {
      assert p < i < p + s[p].value.numSlots;
    }
    forall k | Present(s', k)
      ensures k + s'[k].value.numSlots <= x || x + n <= k ||
              (k < x && x + n <= k + s'[k].value.used && Present(s', p) && (k == p || Above(s', k, p)))
    {
      assert Present(s, k);
      if k < p && x < k + s[k].value.numSlots {
        assert Above(s, k, p);
      } else if p < k {
        assert p + s[p].value.numSlots <= k || k + s[k].value.numSlots <= p + s[p].value.used;
      }
    }
  }

  lemma {:induction false} EndFree(s: seq<Option<Entry>>, parent: int, n: nat)
    requires Placed(s) && n >= 1
    ensures FreeBlock(Grown(s, |s| + n), parent, |s|, n)
  {
    var s' := Grown(s, |s| + n);
    forall k | Present(s', k) ensures k + s'[k].value.numSlots <= |s| {
      assert s'[..|s|][k] == s[k];
    }
  }

  /** Only allocation counters have moved, upwards, and new empty slots may have been added. */
  ghost predicate SameTypes(s: seq<Option<Entry>>, s': seq<Option<Entry>>) {
    && |s| <= |s'|
    && (forall i :: Present(s', i) ==> Present(s, i))
    && forall i :: Present(s, i) ==>
         Present(s', i) && s[i].value.used <= s'[i].value.used <= s'[i].value.numSlots &&
             s'[i].value == s[i].value.(used := s'[i].value.used)
  }

  lemma {:induction false} SameTypesSound(s: seq<Option<Entry>>, s': seq<Option<Entry>>)
    requires Shape(s) && SameTypes(s, s')
    ensures Shape(s')
    ensures Contained(s) <==> Contained(s')
  {
    forall i, j | Present(s, i) && Present(s, j) ensures Above(s, i, j) <==> Above(s', i, j) {
    }
  }

  lemma {:induction false} SameTypesKeys(s: seq<Option<Entry>>, s': seq<Option<Entry>>, keys: map<string, nat>)
    requires KeysKnown(s, keys) && SameTypes(s, s')
    ensures KeysKnown(s', keys)
  {
  }

  lemma {:induction false} AllocateSame(t: Table, r: Request)
    requires Sound(t) && r.parent < |t.slots|
    ensures SameTypes(t.slots, Allocate(t, r).table.slots)
  {
    hide Nested, Lineage, BlocksAreFamilies, KeysKnown;
    var s := t.slots;
    var s' := Allocate(t, r).table.slots;
    assert s'[..|s|] == s || (Present(s, r.parent) && exists e :: s' == s[r.parent := Some(e)]);
  }

  /** The parent whose block a new type may lie in; a type of depth 0 has no ancestors, whatever parent it is given. */
  function Family(r: Request): int { if r.depth == 0 then -1 else r.parent }

  /**
   * The table can take the entry of r: a static type finds its whole block free, at a place that belongs to its parent
   * if to anybody; a type of depth 0 does not get a slot that its parent has reserved for descendants.
   */
  ghost predicate Fits(t: Table, r: Request) {
    if r.staticIndex >= 0 then FreeBlock(t.slots, Family(r), r.staticIndex, r.childSlots + 1)
    else
      r.depth == 0 && 0 <= r.parent < |t.slots| && t.slots[r.parent].Some? ==>
        t.slots[r.parent].value.used + r.childSlots + 1 > t.slots[r.parent].value.numSlots
  }

  lemma {:induction false} AllocateFree(t: Table, r: Request)
    requires Sound(t) && Fits(t, r) && r.parent < |t.slots| && Allocate(t, r).result.Index?
    ensures var a := Allocate(t, r); FreeBlock(a.table.slots, Family(r), a.result.index, r.childSlots + 1)
  {
    hide KeysKnown, FreeBlock, Nested, Lineage, BlocksAreFamilies;
    if r.staticIndex < 0 {
      var p, n := ParentEntry(t, r).value, r.childSlots + 1;
      if p.used + n <= p.numSlots {
        ReservedFree(t.slots, r.parent, n, Allocate(t, r).table.slots);
      } else {
        EndFree(t.slots, Family(r), n);
      }
    }
  }

  /** The slot that is allocated is empty. */
  lemma {:induction false} AllocatesEmpty(t: Table, r: Request)
    requires Sound(t) && r.parent < |t.slots| && Allocate(t, r).result.Index?
    ensures var a := Allocate(t, r); a.result.index < |a.table.slots| && !Present(a.table.slots, a.result.index)
  {
    hide KeysKnown, FreeBlock, Nested, Lineage, BlocksAreFamilies;
    if r.staticIndex < 0 {
      var p, n := ParentEntry(t, r).value, r.childSlots + 1;
      if p.used + n <= p.numSlots {
        ReservedFree(t.slots, r.parent, n, Allocate(t, r).table.slots);
        FreeAt(Allocate(t, r).table.slots, r.parent, r.parent + p.used, n);
      } else {
        EndFree(t.slots, -1, n);
        FreeAt(Allocate(t, r).table.slots, -1, t.counter, n);
      }
    }
  }

  /** Allocation, successful or not, keeps the table sound. */
  lemma {:induction false} AllocateSound(t: Table, r: Request)
    requires Sound(t) && r.parent < |t.slots|
    ensures Sound(Allocate(t, r).table) && Allocate(t, r).table.keys == t.keys
  {
    hide Shape, KeysKnown, SameTypes;
    AllocateSame(t, r);
    SameTypesSound(t.slots, Allocate(t, r).table.slots);
    SameTypesKeys(t.slots, Allocate(t, r).table.slots, t.keys);
  }

  /** Putting an entry into a free block under its parent keeps every part of the invariant. */
  lemma {:induction false} Install(s: seq<Option<Entry>>, parent: int, e: Entry)
    requires Shape(s) && FreeBlock(s, parent, e.index, e.numSlots)
    requires e.used == 1 && |e.ancestors| == e.depth
    requires if e.depth == 0 then !Present(s, parent) else ChildOf(s, parent, e)
    ensures Shape(s[e.index := Some(e)])
  {
    InstallPlaced(s, parent, e);
    InstallLineage(s, parent, e);
    InstallFamilies(s, parent, e);
  }

  lemma {:induction false} InstallPlaced(s: seq<Option<Entry>>, parent: int, e: Entry)
    requires Placed(s) && Nested(s) && FreeBlock(s, parent, e.index, e.numSlots)
    requires e.used == 1
    ensures Placed(s[e.index := Some(e)]) && Nested(s[e.index := Some(e)])
  {
  }

  lemma {:induction false} InstallLineage(s: seq<Option<Entry>>, parent: int, e: Entry)
    requires Lineage(s) && e.index < |s| && !Present(s, e.index) && |e.ancestors| == e.depth
    requires e.depth > 0 ==> ChildOf(s, parent, e)
    ensures Lineage(s[e.index := Some(e)])
  {
  }

  lemma {:induction false} InstallFamilies(s: seq<Option<Entry>>, parent: int, e: Entry)
    requires Lineage(s) && BlocksAreFamilies(s) && FreeBlock(s, parent, e.index, e.numSlots) && |e.ancestors| == e.depth
    requires if e.depth == 0 then !Present(s, parent) else ChildOf(s, parent, e)
    ensures BlocksAreFamilies(s[e.index := Some(e)])
  {
    var x := e.index;
    var s' := s[x := Some(e)];
    forall i, j | Present(s', i) && Present(s', j) && i < j < i + s'[i].value.numSlots ensures Above(s', i, j) {
      if j == x {
        AboveNew(s, parent, e, i);
      } else if i != x {
        assert Above(s, i, j);
      }
    }
  }

  ghost predicate ChildOf(s: seq<Option<Entry>>, parent: int, e: Entry) {
    && Present(s, parent) && parent < e.index && e.depth == s[parent].value.depth + 1
    && e.ancestors == s[parent].value.ancestors + [parent]
    && (e.overflow ==> s[parent].value.overflow)
  }

  lemma {:induction false} AboveNew(s: seq<Option<Entry>>, parent: int, e: Entry, i: nat)
    requires Lineage(s) && Present(s, i) && |e.ancestors| == e.depth && e.index < |s| && i != e.index
    requires e.depth > 0 ==> ChildOf(s, parent, e)
    ensures Above(s[e.index := Some(e)], i, e.index) <==> e.depth > 0 && (i == parent || Above(s, i, parent))
  {
    if e.depth > 0 && s[i].value.depth == s[parent].value.depth && Above(s, i, parent) {
      AboveMeans(s, i, parent);
    }
  }

  /** A new type keeps its relatives contained, unless it is static and below a type that cannot overflow. */
  lemma {:induction false} InstallContained(s: seq<Option<Entry>>, parent: int, e: Entry)
    requires Shape(s) && e.index < |s| && !Present(s, e.index) && |e.ancestors| == e.depth && Contained(s)
    requires e.depth > 0 ==> ChildOf(s, parent, e)
    ensures Contained(s[e.index := Some(e)]) <==>
            (e.depth > 0 && !s[parent].value.overflow ==> e.index < parent + s[parent].value.numSlots)
  {
    var x := e.index;
    var s' := s[x := Some(e)];
    if e.depth > 0 {
      AboveNew(s, parent, e, parent);
    }
    if e.depth > 0 && !s[parent].value.overflow ==> e.index < parent + s[parent].value.numSlots {
      forall i, j | Present(s', i) && Present(s', j) && Above(s', i, j) && !s'[i].value.overflow
        ensures j < i + s'[i].value.numSlots
      {
        if i == x {
          NobodyBelowNew(s, e, j);
        } else if j == x {
          AboveNew(s, parent, e, i);
          if i != parent { AboveMeans(s, i, parent); }
        } else {
          assert Above(s, i, j);
        }
      }
    }
  }

  lemma {:induction false} NobodyBelowNew(s: seq<Option<Entry>>, e: Entry, j: nat)
    requires Lineage(s) && e.index < |s| && !Present(s, e.index) && |e.ancestors| == e.depth
    requires Present(s[e.index := Some(e)], j)
    ensures !Above(s[e.index := Some(e)], e.index, j)
  {
    if j != e.index && e.depth < s[j].value.depth {
      AncestorAt(s, j, e.depth);
    }
  }

  lemma {:induction false} InstallKeys(s: seq<Option<Entry>>, keys: map<string, nat>, e: Entry)
    requires KeysKnown(s, keys) && e.index < |s| && !Present(s, e.index)
    ensures KeysKnown(s[e.index := Some(e)], keys[e.key := e.index])
  {
  }

  /** The request reaches the point where an entry is written. */
  predicate Writes(t: Table, r: Request) {
    && r.key !in t.keys && r.parent < |t.slots|
    && var parent, a := ParentEntry(t, r), Allocate(t, r);
       a.result.Index? && (parent.Some? ==> a.result.index > parent.value.index) &&
       (r.depth != 0 ==> parent.Some? && r.depth == parent.value.depth + 1)
  }

  lemma {:induction false} WriteReady(t: Table, r: Request)
    requires Sound(t) && Writes(t, r)
    ensures var a := Allocate(t, r);
            var e := NewEntry(a.result.index, r, ParentEntry(t, r));
            Shape(a.table.slots) && e.used == 1 && |e.ancestors| == e.depth && e.index < |a.table.slots| &&
            !Present(a.table.slots, e.index) && (e.depth != 0 ==> ChildOf(a.table.slots, r.parent, e))
  {
    AllocateSame(t, r);
    AllocateSound(t, r);
    AllocatesEmpty(t, r);
    hide FreeBlock, Nested, BlocksAreFamilies, KeysKnown, Allocate;
  }

  /** A table that is sound with a new entry had a free block for it. */
  lemma {:induction false} WasFree(s: seq<Option<Entry>>, parent: int, e: Entry)
    requires Shape(s) && e.index < |s| && !Present(s, e.index) && e.used == 1 && |e.ancestors| == e.depth
    requires e.depth > 0 ==> ChildOf(s, parent, e)
    requires Shape(s[e.index := Some(e)])
    ensures FreeBlock(s, if e.depth == 0 then -1 else parent, e.index, e.numSlots)
  {
    var x, n := e.index, e.numSlots;
    var s' := s[x := Some(e)];
    assert Present(s', x);
    forall j: nat | Present(s', j) ensures !Above(s', x, j) {
      NobodyBelowNew(s, e, j);
    }
    assert forall i :: x <= i < x + n && i != x ==> !Present(s', i);
    forall k | Present(s, k)
      ensures k + s[k].value.numSlots <= x || x + n <= k ||
              (k < x && x + n <= k + s[k].value.used && e.depth > 0 && (k == parent || Above(s, k, parent)))
    {
      assert Present(s', k);
      if k < x < k + s[k].value.numSlots {
        assert Above(s', k, x);
        AboveNew(s, parent, e, k);
      }
    }
  }

  /** What an entry that takes a reserved slot without being a descendant does to the table. */
  lemma {:induction false} StrangerInBlock(s: seq<Option<Entry>>, p: nat, e: Entry)
    requires Present(s, p) && p < e.index < p + s[p].value.numSlots && e.index < |s| && e.ancestors == []
    ensures !BlocksAreFamilies(s[e.index := Some(e)])
  {
    var s' := s[e.index := Some(e)];
    assert Present(s', p) && Present(s', e.index) && !Above(s', p, e.index);
  }

  /** Every registration, failed ones included, keeps the table sound, exactly as long as what it writes fits. */
  lemma {:induction false} RegisterSound(t: Table, r: Request)
    requires Sound(t)
    ensures Sound(Register(t, r).table) <==> (Writes(t, r) ==> Fits(t, r))
  {
    hide Shape, KeysKnown, Allocate, FreeBlock, ChildOf, Fits;
    if r.key !in t.keys && r.parent < |t.slots| {
      AllocateSound(t, r);
      if Writes(t, r) {
        WriteReady(t, r);
        var a := Allocate(t, r);
        var e := NewEntry(a.result.index, r, ParentEntry(t, r));
        InstallKeys(a.table.slots, a.table.keys, e);
        if Fits(t, r) {
          AllocateFree(t, r);
          Install(a.table.slots, Family(r), e);
        } else {
          Misfit(t, r);
        }
      }
    }
  }

  lemma {:induction false} Misfit(t: Table, r: Request)
    requires Sound(t) && Writes(t, r) && !Fits(t, r)
    ensures var a := Allocate(t, r);
            !Shape(a.table.slots[a.result.index := Some(NewEntry(a.result.index, r, ParentEntry(t, r)))])
  {
    hide Placed, Nested, Lineage, BlocksAreFamilies, KeysKnown, FreeBlock;
    WriteReady(t, r);
    var a := Allocate(t, r);
    var e := NewEntry(a.result.index, r, ParentEntry(t, r));
    if r.staticIndex < 0 {
      TakenReserved(t, r);
      StrangerInBlock(a.table.slots, r.parent, e);
    } else if Shape(a.table.slots[e.index := Some(e)]) {
      WasFree(a.table.slots, r.parent, e);
    }
  }

  /** A dynamic type that does not fit has taken a slot its parent had reserved. */
  lemma {:induction false} TakenReserved(t: Table, r: Request)
    requires Sound(t) && Writes(t, r) && !Fits(t, r) && r.staticIndex < 0
    ensures var a := Allocate(t, r);
            r.depth == 0 && Present(a.table.slots, r.parent) &&
            r.parent < a.result.index < r.parent + a.table.slots[r.parent].value.numSlots
  {
    hide Nested, Lineage, BlocksAreFamilies, KeysKnown, FreeBlock;
  }

  lemma FreeAt(s: seq<Option<Entry>>, parent: int, x: nat, n: nat)
    requires FreeBlock(s, parent, x, n)
    ensures x < |s| && !Present(s, x)
  {
  }

  /** A successful new registration writes an empty slot above its parent; all other types stay as they are. */
  lemma {:induction false} NothingOverwritten(t: Table, r: Request)
    requires Sound(t) && r.key !in t.keys && Register(t, r).result.Index?
    ensures var i, s' := Register(t, r).result.index, Register(t, r).table.slots;
            && !Present(t.slots, i) && Present(s', i) && s'[i].value.key == r.key
            && (Present(t.slots, r.parent) ==> r.parent < i)
            && (r.staticIndex >= 0 ==> i == r.staticIndex)
            && (forall j :: Present(t.slots, j) ==>
                  Present(s', j) && s'[j].value == t.slots[j].value.(used := s'[j].value.used))
            && (forall j :: Present(s', j) && j != i ==> Present(t.slots, j))
  {
    hide Nested, Lineage, BlocksAreFamilies, KeysKnown, FreeBlock, SameTypes, Allocate, ChildOf;
    assert Writes(t, r);
    WriteReady(t, r);
    AllocateSame(t, r);
    var a := Allocate(t, r);
    var e := NewEntry(a.result.index, r, ParentEntry(t, r));
    if r.staticIndex >= 0 { StaticAsAsked(t, r); }
    PutKeepsOthers(t.slots, a.table.slots, e);
  }

  lemma StaticAsAsked(t: Table, r: Request)
    requires r.parent < |t.slots| && Allocate(t, r).result.Index? && r.staticIndex >= 0
    ensures Allocate(t, r).result.index == r.staticIndex
  {
  }

  lemma {:induction false} PutKeepsOthers(s: seq<Option<Entry>>, m: seq<Option<Entry>>, e: Entry)
    requires SameTypes(s, m) && e.index < |m| && !Present(m, e.index)
    ensures var s' := m[e.index := Some(e)];
            && !Present(s, e.index)
            && (forall j :: Present(s, j) ==> Present(s', j) && s'[j].value == s[j].value.(used := s'[j].value.used))
            && (forall j :: Present(s', j) && j != e.index ==> Present(s, j))
  {
  }

  /** Static registration under a type whose children may not overflow, at an index outside that type's block. */
  predicate Escapes(t: Table, r: Request) {
    && Writes(t, r) && r.staticIndex >= 0 && r.depth > 0 && !ParentEntry(t, r).value.overflow
    && r.staticIndex >= r.parent + ParentEntry(t, r).value.numSlots
  }

  /** Exactly those registrations put a descendant outside the block of a type that cannot overflow. */
  lemma {:induction false} ContainedUnlessEscapes(t: Table, r: Request)
    requires Sound(t) && Contained(t.slots)
    ensures Contained(Register(t, r).table.slots) <==> !Escapes(t, r)
  {
    if r.key !in t.keys && r.parent < |t.slots| {
      var a := Allocate(t, r);
      AllocateSame(t, r);
      SameTypesSound(t.slots, a.table.slots);
      if Writes(t, r) {
        WriteReady(t, r);
        var e := NewEntry(a.result.index, r, ParentEntry(t, r));
        InstallContained(a.table.slots, r.parent, e);
        if r.depth > 0 && !ParentEntry(t, r).value.overflow { EscapeIsOutside(t, r); }
      }
    }
    hide Shape, KeysKnown, FreeBlock, SameTypes, Contained;
  }

  lemma {:induction false} EscapeIsOutside(t: Table, r: Request)
    requires Sound(t) && Writes(t, r) && r.depth > 0 && !ParentEntry(t, r).value.overflow
    ensures var a := Allocate(t, r);
            Present(a.table.slots, r.parent) &&
            (a.result.index < r.parent + a.table.slots[r.parent].value.numSlots <==> !Escapes(t, r))
  {
    AllocateSame(t, r);
    hide Nested, Lineage, BlocksAreFamilies, KeysKnown;
  }

  /** The hierarchy is the declared one: a new type is a subtype of itself and of what its declared parent is below. */
  lemma {:induction false} DeclaredParent(t: Table, r: Request, target: nat)
    requires Sound(t) && Writes(t, r) && Present(t.slots, target)
    ensures var i, s' := Register(t, r).result.index, Register(t, r).table.slots;
            && i != target && Present(s', i) && s'[i].value.depth == r.depth
            && (IsSubtype(s', i, target) <==> r.depth > 0 && IsSubtype(t.slots, r.parent, target))
  {
    hide Shape, Lineage, KeysKnown, Allocate, IsSubtype, FreeBlock, SameTypes, ChildOf;
    WriteReady(t, r);
    AllocateSame(t, r);
    var a := Allocate(t, r);
    var e := NewEntry(a.result.index, r, ParentEntry(t, r));
    LineageOf(t.slots);
    LineageOf(a.table.slots);
    ParentOf(a.table.slots, t.slots, r.parent, e);
    WasAbsent(t.slots, a.table.slots, target, e.index);
    NewSubtype(a.table.slots, r.parent, e, target);
    if r.depth > 0 {
      SameSubtype(t.slots, a.table.slots, r.parent, target);
      SubtypeStays(a.table.slots, e, r.parent, target);
    }
  }

  lemma LineageOf(s: seq<Option<Entry>>)
    requires Shape(s)
    ensures Lineage(s)
  {
  }

  lemma ParentOf(s: seq<Option<Entry>>, s0: seq<Option<Entry>>, parent: int, e: Entry)
    requires SameTypes(s0, s)
    ensures ChildOf(s, parent, e) ==> Present(s, parent) && Present(s0, parent)
  {
  }

  lemma WasAbsent(s: seq<Option<Entry>>, s': seq<Option<Entry>>, target: nat, x: nat)
    requires SameTypes(s, s') && Present(s, target) && !Present(s', x)
    ensures target != x
  {
  }

  lemma {:induction false} NewSubtype(s: seq<Option<Entry>>, parent: int, e: Entry, target: nat)
    requires e.index < |s| && e.index != target && |e.ancestors| == e.depth && (e.depth > 0 ==> ChildOf(s, parent, e))
    ensures var s' := s[e.index := Some(e)];
            IsSubtype(s', e.index, target) <==> e.depth > 0 && IsSubtype(s', parent, target)
  {
  }

  lemma {:induction false} SubtypeStays(s: seq<Option<Entry>>, e: Entry, o: nat, target: nat)
    requires e.index < |s| && !Present(s, e.index) && Present(s, o) && Lineage(s)
    ensures IsSubtype(s[e.index := Some(e)], o, target) <==> IsSubtype(s, o, target)
    decreases o
  {
    if s[o].value.depth > 0 { SubtypeStays(s, e, s[o].value.ancestors[s[o].value.depth - 1], target); }
  }

  lemma {:induction false} SameSubtype(s: seq<Option<Entry>>, s': seq<Option<Entry>>, o: nat, target: nat)
    requires SameTypes(s, s') && Present(s, o) && Lineage(s)
    ensures IsSubtype(s', o, target) <==> IsSubtype(s, o, target)
    decreases o
  {
    if s[o].value.depth > 0 { SameSubtype(s, s', s[o].value.ancestors[s[o].value.depth - 1], target); }
  }

  // -------------------------------------------------------------- instance check

  /** A target class with the constants its declaration gives: final, child slots, overflow. */
  datatype Target = Target(index: nat, isFinal: bool, childSlots: nat, overflow: bool)

  /** The declaration the table was told about; the entry's overflow flag may have been cleared for the parent's
      sake. */
  ghost predicate Declared(s: seq<Option<Entry>>, c: Target) {
    && Present(s, c.index) && s[c.index].value.numSlots == c.childSlots + 1
    && (s[c.index].value.overflow ==> c.overflow)
    && (c.isFinal ==> forall j :: Present(s, j) ==> !Above(s, c.index, j))
  }

  /** details::IsObjectInstance; none when the type index of the object is not registered. */
  function IsObjectInstance(t: Table, c: Target, depth: nat, o: nat): Option<bool> {
    if c.index == OBJECT then Some(true)
    else if c.isFinal then Some(o == c.index)
    else if (if c.childSlots != 0 then c.index <= o < c.index + c.childSlots + 1 else o == c.index) then Some(true)
    else if !c.overflow then Some(false)
    else if o < c.index then Some(false)
    else if o < |t.slots| && t.slots[o].Some? then
      var e := t.slots[o].value;
      Some(e.depth > depth && depth < |e.ancestors| && e.ancestors[depth] == c.index)
    else None
  }

  /**
   * The check answers the subtype question for every object, except that it misses a descendant lying outside the
   * block of a non-final class declared without overflow.
   */
  lemma {:induction false} InstanceCheckExact(t: Table, c: Target, o: nat)
    requires Sound(t) && Declared(t.slots, c) && Present(t.slots, o) && IsSubtype(t.slots, o, OBJECT)
    ensures var said := IsObjectInstance(t, c, t.slots[c.index].value.depth, o);
            var missed := c.index != OBJECT && !c.overflow && Above(t.slots, c.index, o) &&
                o >= c.index + c.childSlots + 1;
            said.Some? && (said.value == IsSubtype(t.slots, o, c.index) <==> !missed)
  {
    var s := t.slots;
    SubtypeIffAbove(s, o, c.index);
    if Above(s, c.index, o) { AboveMeans(s, c.index, o); }
    assert c.index < o < c.index + s[c.index].value.numSlots ==> Above(s, c.index, o);
    hide IsSubtype, Nested, KeysKnown;
  }

  /** In a contained table nothing is missed: the range check and one ancestor lookup are the subtype relation. */
  lemma {:induction false} InstanceIffSubtype(t: Table, c: Target, o: nat)
    requires Sound(t) && Contained(t.slots) && Declared(t.slots, c)
    requires Present(t.slots, o) && IsSubtype(t.slots, o, OBJECT)
    ensures IsObjectInstance(t, c, t.slots[c.index].value.depth, o) == Some(IsSubtype(t.slots, o, c.index))
  {
    InstanceCheckExact(t, c, o);
    hide IsSubtype, IsObjectInstance, Shape, KeysKnown;
  }

  // -------------------------------------------------------------------- runs

  const NO_TYPES := Table(seq(DYN_OBJECT_BEGIN, _ => None), DYN_OBJECT_BEGIN, map[])

  function After(t: Table, rs: seq<Request>): Table
    decreases |rs|
  {
    if rs == [] then t else After(Register(t, rs[0]).table, rs[1..])
  }

  /** Requests whose entries fit, none of which puts a static type out of the block of one that cannot overflow. */
  ghost predicate Clean(t: Table, rs: seq<Request>)
    decreases |rs|
  {
    rs == [] ||
    ((Writes(t, rs[0]) ==> Fits(t, rs[0])) && !Escapes(t, rs[0]) && Clean(Register(t, rs[0]).table, rs[1..]))
  }

  lemma {:induction false} CleanRun(t: Table, rs: seq<Request>)
    requires Sound(t) && Contained(t.slots) && Clean(t, rs)
    ensures Sound(After(t, rs)) && Contained(After(t, rs).slots)
    decreases |rs|
  {
    hide Sound, Contained, Register, Escapes, Fits, Writes;
    if rs != [] {
      RegisterSound(t, rs[0]);
      ContainedUnlessEscapes(t, rs[0]);
      CleanRun(Register(t, rs[0]).table, rs[1..]);
    }
  }

  /** In every table such requests can produce, the instance check is the subtype relation. */
  lemma {:induction false} ReachableInstanceCheck(rs: seq<Request>, c: Target, o: nat)
    requires Clean(NO_TYPES, rs)
    requires var t := After(NO_TYPES, rs);
             Declared(t.slots, c) && Present(t.slots, o) && IsSubtype(t.slots, o, OBJECT)
    ensures var t := After(NO_TYPES, rs);
            IsObjectInstance(t, c, t.slots[c.index].value.depth, o) == Some(IsSubtype(t.slots, o, c.index))
  {
    StartSound();
    CleanRun(NO_TYPES, rs);
    InstanceIffSubtype(After(NO_TYPES, rs), c, o);
  }

  /** What the declarations of the repository keep to: static indices are low and without child slots,
      only roots have depth 0. */
  predicate Regular(r: Request) {
    && (r.staticIndex >= 0 ==> r.staticIndex < DYN_OBJECT_BEGIN && r.childSlots == 0)
    && (r.depth == 0 ==> r.parent < 0)
  }

  ghost predicate LowSingles(s: seq<Option<Entry>>) {
    forall i :: Present(s, i) && i < DYN_OBJECT_BEGIN ==> s[i].value.numSlots == 1
  }

  /** Such requests always fit, and keep the table such that they do. */
  lemma {:induction false} RegularFits(t: Table, r: Request)
    requires Sound(t) && LowSingles(t.slots) && Regular(r)
    ensures Writes(t, r) ==> Fits(t, r)
    ensures LowSingles(Register(t, r).table.slots)
  {
    hide Nested, Lineage, BlocksAreFamilies, KeysKnown, SameTypes, Fits, LowSingles, Allocate;
    if r.key !in t.keys && r.parent < |t.slots| {
      if Writes(t, r) {
        LowStaticFits(t, r);
        AllocatesRegularly(t, r);
      }
      AllocateSame(t, r);
      SameTypesLow(t.slots, Allocate(t, r).table.slots);
      PutLow(Allocate(t, r).table.slots, NewEntry(0, r, ParentEntry(t, r)));
    }
  }

  lemma LowStaticFits(t: Table, r: Request)
    requires Sound(t) && LowSingles(t.slots) && Regular(r) && Writes(t, r)
    ensures Fits(t, r)
  {
    hide Nested, Lineage, BlocksAreFamilies, KeysKnown;
  }

  lemma AllocatesRegularly(t: Table, r: Request)
    requires Sound(t) && LowSingles(t.slots) && Regular(r) && Writes(t, r)
    ensures Allocate(t, r).result.index < DYN_OBJECT_BEGIN ==> r.childSlots == 0
  {
    hide Nested, Lineage, BlocksAreFamilies, KeysKnown;
  }

  lemma SameTypesLow(s: seq<Option<Entry>>, s': seq<Option<Entry>>)
    requires LowSingles(s) && SameTypes(s, s')
    ensures LowSingles(s')
  {
  }

  lemma PutLow(s: seq<Option<Entry>>, e: Entry)
    requires LowSingles(s)
    ensures forall i: nat :: (i < DYN_OBJECT_BEGIN ==> e.numSlots == 1) ==> LowSingles(Put(s, e.(index := i)))
  {
  }

  /** Runs of regular requests keep the table sound. */
  lemma {:induction false} RegularRun(t: Table, rs: seq<Request>)
    requires Sound(t) && LowSingles(t.slots) && forall i :: 0 <= i < |rs| ==> Regular(rs[i])
    ensures Sound(After(t, rs))
    decreases |rs|
  {
    hide Sound, LowSingles, Register, Fits, Writes;
    if rs != [] {
      RegularFits(t, rs[0]);
      RegisterSound(t, rs[0]);
      RegularRun(Register(t, rs[0]).table, rs[1..]);
    }
  }

  /** What becomes of a table that a static type with a child slot did not fit: its child overwrites another type. */
  lemma {:induction false} StaticChildSlotsOverwrite()
    ensures var root := Request("root", 100, 0, 1, true, -1);
            var other := Request("other", 101, 0, 0, true, -1);
            var child := Request("child", -1, 1, 0, true, 100);
            var t := Register(Register(NO_TYPES, root).table, other).table;
            var r := Register(t, child);
            !Fits(Register(NO_TYPES, root).table, other) &&
            t.slots[101].Some? && t.slots[101].value.key == "other" && r.result == Index(101) &&
            |r.table.slots| > 101 && r.table.slots[101].Some? && r.table.slots[101].value.key == "child"
  {
    var root := Request("root", 100, 0, 1, true, -1);
    var t1 := Register(NO_TYPES, root).table;
    assert t1.slots[100] == Some(Entry(100, 0, "root", 2, 1, true, [])) && |t1.slots| == 128 && t1.slots[101] == None;
    var other := Request("other", 101, 0, 0, true, -1);
    assert Present(t1.slots, 100) && !Fits(t1, other);
    var t2 := Register(t1, other).table;
    assert "other" != "root" by { assert |"other"| != |"root"|; }
    assert t2.slots[100] == t1.slots[100] && t2.slots[101].value.key == "other" && |t2.slots| == 128;
    assert "child" != "other" by { assert "child"[0] != "other"[0]; }
    assert "child" !in t2.keys by { assert |"child"| != |"root"|; }
  }

  // ---------------------------------------------------------------- the table

  /** Every type is still there, with the same entry but for its count of used slots. */
  ghost predicate KeepsTypes(s: seq<Option<Entry>>, s': seq<Option<Entry>>) {
    forall j :: Present(s, j) ==> Present(s', j) && s'[j].value == s[j].value.(used := s'[j].value.used)
  }

  class TypeTable {
    var typeTable: seq<Option<Entry>>
    var typeCounter: nat
    var typeKey2Index: map<string, nat>

    function State(): Table
      reads this
    {
      Table(typeTable, typeCounter, typeKey2Index)
    }

    ghost predicate Valid()
      reads this
    {
      Sound(State()) && Contained(typeTable)
    }

    /** The root object type, the types stored inside a value cell, and the opaque Python object. */
    constructor ()
      ensures Valid() && HasObject()
    {
      typeTable, typeCounter, typeKey2Index := seq(DYN_OBJECT_BEGIN, _ => None), DYN_OBJECT_BEGIN, map[];
      new;
      hide Valid, HasObject, LowSingles, KeepsTypes;
      RegisterObject();
      ReserveBuiltinTypeIndex("None", 0);
      ReserveBuiltinTypeIndex("int", 1);
      ReserveBuiltinTypeIndex("float", 3);
      ReserveBuiltinTypeIndex("bool", 2);
      ReserveBuiltinTypeIndex("const char*", 8);
      ReserveBuiltinTypeIndex("void*", 4);
      ReserveBuiltinTypeIndex("DataType", 5);
      ReserveBuiltinTypeIndex("Device", 6);
      ReserveBuiltinTypeIndex("TVMFFIByteArray*", 9);
      ReserveBuiltinTypeIndex("ObjectRValueRef", 10);
      ReserveBuiltinTypeIndex("ffi.SmallStr", 11);
      ReserveBuiltinTypeIndex("ffi.SmallBytes", 12);
      RegisterOpaquePyObject();
    }

    /** The root object type is registered and lets its children overflow. */
    ghost predicate HasObject()
      reads this
    {
      Present(typeTable, OBJECT) && typeTable[OBJECT].value.overflow && typeTable[OBJECT].value.depth == 0
    }

    method RegisterObject()
      requires State() == NO_TYPES
      modifies this
      ensures Valid() && LowSingles(typeTable) && HasObject()
    {
      hide Sound, Contained, LowSingles, Fits;
      StartSound();
      RegularFits(State(), Request("ffi.Object", OBJECT, 0, 0, true, -1));
      SoundIsUsable(State(), Request("ffi.Object", OBJECT, 0, 0, true, -1));
      var r := GetOrAllocTypeIndex("ffi.Object", OBJECT, 0, 0, true, -1);
    }

    method RegisterOpaquePyObject()
      requires Valid() && LowSingles(typeTable) && HasObject()
      modifies this
      ensures Valid() && HasObject()
    {
      hide Register, Allocate, Sound, Contained, LowSingles, Writes, Fits;
      RegularFits(State(), Request("ffi.OpaquePyObject", OPAQUE_PY_OBJECT, 1, 0, false, OBJECT));
      SoundIsUsable(State(), Request("ffi.OpaquePyObject", OPAQUE_PY_OBJECT, 1, 0, false, OBJECT));
      var r := GetOrAllocTypeIndex("ffi.OpaquePyObject", OPAQUE_PY_OBJECT, 1, 0, false, OBJECT);
    }

    method ReserveBuiltinTypeIndex(typeKey: string, staticIndex: nat)
      requires Valid() && LowSingles(typeTable) && HasObject() && staticIndex < DYN_OBJECT_BEGIN
      modifies this
      ensures Valid() && LowSingles(typeTable) && HasObject() && KeepsTypes(old(typeTable), typeTable)
    {
      hide Register, Allocate, Sound, Contained, LowSingles, Writes, Fits;
      RegularFits(State(), Request(typeKey, staticIndex, 0, 0, false, -1));
      SoundIsUsable(State(), Request(typeKey, staticIndex, 0, 0, false, -1));
      var r := GetOrAllocTypeIndex(typeKey, staticIndex, 0, 0, false, -1);
    }

    method GetOrAllocTypeIndex(typeKey: string, staticIndex: int, depth: nat, childSlots: nat, overflow: bool,
            parentIndex: int)
      returns (r: Result)
      requires Usable(State())
      requires Inside(State(), Request(typeKey, staticIndex, depth, childSlots, overflow, parentIndex))
      modifies this
      ensures var req := Request(typeKey, staticIndex, depth, childSlots, overflow, parentIndex);
              Registered(r, State()) == Register(old(State()), req) && Usable(State())
      ensures old(Sound(State())) ==>
                var req := Request(typeKey, staticIndex, depth, childSlots, overflow, parentIndex);
                && (Sound(State()) <==> (Writes(old(State()), req) ==> Fits(old(State()), req)))
                && (Contained(old(typeTable)) ==> (Contained(typeTable) <==> !Escapes(old(State()), req)))
                && KeepsTypes(old(typeTable), typeTable)
      ensures old(Sound(State())) ==>
                var req := Request(typeKey, staticIndex, depth, childSlots, overflow, parentIndex);
                && (r.Index? <==> typeKey in old(typeKey2Index) || Accepts(old(State()), req))
                && (r.Index? && typeKey !in old(typeKey2Index) ==> r.index == PlaceOf(old(State()), req))
    {
      ghost var req := Request(typeKey, staticIndex, depth, childSlots, overflow, parentIndex);
      hide Sound, Contained, KeepsTypes, Escapes, Allocate, Fits, Writes, Usable, Inside, Accepts, PlaceOf;
      SoundRegister(State(), req);
      UsableRegister(State(), req);
      AcceptedAt(State(), req);
      ParentIndex(State(), req);
      if typeKey in typeKey2Index {
        KeyOfEntry(State(), typeKey);
        return Index(typeTable[typeKey2Index[typeKey]].value.index);
      }
      if parentIndex >= |typeTable| { return Failed(ParentOutOfRange); }
      var parent := if parentIndex < 0 then None else typeTable[parentIndex];
      r := AllocateIndex(req, staticIndex, childSlots, parentIndex, parent);
      if r.Failed? { return; }
      var index := r.index;
      var canOverflow := overflow && (parent.None? || parent.value.overflow);
      if parent.Some? && index <= parent.value.index { return Failed(BelowParent); }
      if depth != 0 && (parent.None? || depth != parent.value.depth + 1) {
        return Failed(if parent.None? then NoParent else WrongDepth);
      }
      var ancestors := if parent.None? || depth == 0 then [] else parent.value.ancestors + [parent.value.index];
      typeTable := typeTable[index := Some(Entry(index, depth, typeKey, childSlots + 1, 1, canOverflow, ancestors))];
      typeKey2Index := typeKey2Index[typeKey := index];
    }

    /** The three ways to find an index. */
    method AllocateIndex(ghost req: Request, staticIndex: int, childSlots: nat, parentIndex: int, parent: Option<Entry>)
      returns (r: Result)
      requires parentIndex < |typeTable| && req.staticIndex == staticIndex && req.childSlots == childSlots
      requires req.parent == parentIndex && parent == ParentEntry(State(), req)
      requires parent.Some? ==> parent.value.index == parentIndex
      requires |typeTable| == typeCounter
      modifies this
      ensures Registered(r, State()) == Allocate(old(State()), req)
    {
      if staticIndex >= 0 {
        if staticIndex >= |typeTable| { return Failed(StaticOutOfRange); }
        if typeTable[staticIndex].Some? { return Failed(StaticConflict); }
        return Index(staticIndex);
      }
      if parent.None? { return Failed(NoParent); }
      var numSlots := childSlots + 1;
      if parent.value.used + numSlots <= parent.value.numSlots {
        typeTable := typeTable[parentIndex := Some(parent.value.(used := parent.value.used + numSlots))];
        return Index(parent.value.index + parent.value.used);
      }
      if !parent.value.overflow { return Failed(ReachedMaximum); }
      var index := typeCounter;
      typeCounter := typeCounter + numSlots;
      typeTable := Grown(typeTable, typeCounter);
      return Index(index);
    }
  }

  lemma KeyOfEntry(t: Table, k: string)
    requires Usable(t) && k in t.keys
    ensures Present(t.slots, t.keys[k]) && t.slots[t.keys[k]].value.index == t.keys[k]
  {
  }

  lemma ParentIndex(t: Table, r: Request)
    requires Usable(t)
    ensures |t.slots| == t.counter
    ensures r.parent < |t.slots| && ParentEntry(t, r).Some? ==> ParentEntry(t, r).value.index == r.parent
  {
  }

  /** Which requests a sound table accepts, where it puts them, and what it then holds. */
  lemma {:induction false} RegistersExactly(t: Table, r: Request)
    requires Sound(t)
    ensures r.key in t.keys ==> Register(t, r) == Registered(Index(t.keys[r.key]), t)
    ensures r.key !in t.keys ==> (Register(t, r).result.Index? <==> Accepts(t, r))
    ensures r.key !in t.keys && Accepts(t, r) ==>
              var u, i := Register(t, r).table, PlaceOf(t, r);
              && Register(t, r).result == Index(i) && u.keys == t.keys[r.key := i]
              && u.counter == t.counter + (if GoesToEnd(t, r) then r.childSlots + 1 else 0)
              && Present(u.slots, i) && u.slots[i].value.key == r.key && u.slots[i].value.depth == r.depth
              && u.slots[i].value.numSlots == r.childSlots + 1 && u.slots[i].value.used == 1
              && u.slots[i].value.overflow ==
                 (r.overflow && (Present(t.slots, r.parent) ==> t.slots[r.parent].value.overflow))
  {
    hide Nested, Lineage, BlocksAreFamilies;
  }

  lemma {:induction false} AcceptedAt(t: Table, r: Request)
    ensures Sound(t) ==>
              && (Register(t, r).result.Index? <==> r.key in t.keys || Accepts(t, r))
              && (Register(t, r).result.Index? && r.key !in t.keys ==> Register(t, r).result.index == PlaceOf(t, r))
  {
    hide *;
    if Sound(t) { RegistersExactly(t, r); }
  }

  /** A sound table stays sound when the entry fits. */
  lemma {:induction false} SoundRegister(t: Table, r: Request)
    ensures Sound(t) ==>
              && (Sound(Register(t, r).table) <==> (Writes(t, r) ==> Fits(t, r)))
              && (Contained(t.slots) ==> (Contained(Register(t, r).table.slots) <==> !Escapes(t, r)))
              && KeepsTypes(t.slots, Register(t, r).table.slots)
  {
    hide *;
    if Sound(t) {
      RegisterSound(t, r);
      if Contained(t.slots) { ContainedUnlessEscapes(t, r); }
      RegisterKeeps(t, r);
    }
  }

  /** A table can be used again after any request whose reserved slot is inside it. */
  lemma {:induction false} UsableRegister(t: Table, r: Request)
    requires Usable(t) && Inside(t, r)
    ensures Usable(Register(t, r).table)
    ensures r.key !in t.keys && Register(t, r).result.Index? ==>
            Register(t, r).result.index < |Allocate(t, r).table.slots|
  {
    hide Allocate, Usable, Inside;
    if r.key !in t.keys && r.parent < |t.slots| {
      UsableAllocate(t, r);
      var a := Allocate(t, r);
      if a.result.Index? { UsablePut(a.table, NewEntry(a.result.index, r, ParentEntry(t, r)), r.key); }
    }
  }

  lemma {:induction false} UsableAllocate(t: Table, r: Request)
    requires Usable(t) && Inside(t, r) && r.key !in t.keys && r.parent < |t.slots|
    ensures var a := Allocate(t, r);
            Usable(a.table) && (a.result.Index? ==> a.result.index < |a.table.slots|)
  {
  }

  lemma UsablePut(t: Table, e: Entry, key: string)
    requires Usable(t) && e.index < |t.slots|
    ensures Usable(t.(slots := Put(t.slots, e), keys := t.keys[key := e.index]))
  {
  }

  /** In a sound table every reserved slot is. */
  lemma {:induction false} SoundIsUsable(t: Table, r: Request)
    requires Sound(t)
    ensures Usable(t) && Inside(t, r)
  {
    hide Nested, Lineage, BlocksAreFamilies;
  }

  lemma {:induction false} StartSound()
    ensures Sound(NO_TYPES) && Contained(NO_TYPES.slots) && LowSingles(NO_TYPES.slots)
  {
  }

  lemma {:induction false} RegisterKeeps(t: Table, r: Request)
    requires Sound(t)
    ensures KeepsTypes(t.slots, Register(t, r).table.slots)
  {
    if r.key !in t.keys && r.parent < |t.slots| {
      AllocateSame(t, r);
      if Register(t, r).result.Index? {
        NothingOverwritten(t, r);
        AllocatesEmpty(t, r);
      }
    }
    hide Shape, KeysKnown, Allocate;
  }
}
