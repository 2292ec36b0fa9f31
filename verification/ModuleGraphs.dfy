// Modules that import modules: the worklist behind ImportModule's cycle
// check, and lookup of a function through the imports.
module ModuleGraphs {
  import opened AssocList

  /** Who imports whom, in import order. */
  type Graph<!N> = map<N, seq<N>>

  ghost predicate Closed<N>(g: Graph<N>) {
    forall m, i :: m in g && 0 <= i < |g[m]| ==> g[m][i] in g
  }

  /** b is reached from a by k imports. */
  ghost predicate ReachIn<N>(g: Graph<N>, a: N, b: N, k: nat) {
    if k == 0 then a == b else a in g && exists i :: 0 <= i < |g[a]| && ReachIn(g, g[a][i], b, k - 1)
  }

  ghost predicate Reach<N>(g: Graph<N>, a: N, b: N) {
    exists k :: ReachIn(g, a, b, k)
  }

  /** No module is reached from what it imports. */
  ghost predicate Acyclic<N>(g: Graph<N>) {
    forall m, i :: m in g && 0 <= i < |g[m]| ==> !Reach(g, g[m][i], m)
  }

  lemma ReachSelf<N>(g: Graph<N>, a: N)
    ensures Reach(g, a, a)
  {
    assert ReachIn(g, a, a, 0);
  }

  lemma {:induction false} ReachThen<N>(g: Graph<N>, a: N, b: N, c: N, k: nat)
    requires ReachIn(g, a, b, k) && Reach(g, b, c)
    ensures Reach(g, a, c)
    decreases k
  {
    if k > 0 {
      var i :| 0 <= i < |g[a]| && ReachIn(g, g[a][i], b, k - 1);
      ReachThen(g, g[a][i], b, c, k - 1);
      ReachStep(g, a, i, c);
    }
  }

  lemma ReachStep<N>(g: Graph<N>, a: N, i: nat, c: N)
    requires a in g && i < |g[a]| && Reach(g, g[a][i], c)
    ensures Reach(g, a, c)
  {
    var k: nat :| ReachIn(g, g[a][i], c, k);
    assert ReachIn(g, a, c, k + 1);
  }

  lemma {:induction false} ReachTrans<N>(g: Graph<N>, a: N, b: N, c: N)
    requires Reach(g, a, b) && Reach(g, b, c)
    ensures Reach(g, a, c)
  {
    var k: nat :| ReachIn(g, a, b, k);
    ReachThen(g, a, b, c, k);
  }

  /** A set with a that contains the imports of its members contains all that is reached from a. */
  lemma {:induction false} ClosedSetHolds<N>(g: Graph<N>, a: N, b: N, k: nat, s: set<N>)
    requires ReachIn(g, a, b, k) && a in s
    requires forall m, i :: m in s && m in g && 0 <= i < |g[m]| ==> g[m][i] in s
    ensures b in s
    decreases k
  {
    if k > 0 {
      var i :| 0 <= i < |g[a]| && ReachIn(g, g[a][i], b, k - 1);
      ClosedSetHolds(g, g[a][i], b, k - 1, s);
    }
  }

  // --------------------------------------------------------------- adding edges

  /** A path after the import of b by a either was there before or runs through the new import. */
  lemma {:induction false} ThroughNewImport<N>(g: Graph<N>, a: N, b: N, x: N, y: N, k: nat)
    requires a in g && ReachIn(g[a := g[a] + [b]], x, y, k)
    ensures Reach(g, x, y) || (Reach(g, x, a) && Reach(g, b, y))
    decreases k
  {
    var h := g[a := g[a] + [b]];
    if k == 0 {
      ReachSelf(g, x);
    } else {
      var i :| 0 <= i < |h[x]| && ReachIn(h, h[x][i], y, k - 1);
      var z := h[x][i];
      ThroughNewImport(g, a, b, z, y, k - 1);
      if x == a && i == |g[a]| {
        ReachSelf(g, a);
      } else {
        assert z == g[x][i];
        if Reach(g, z, y) { ReachStep(g, x, i, y); } else { ReachStep(g, x, i, a); }
      }
    }
  }

  /** Importing b into a keeps the graph acyclic exactly when a was not reached from b. */
  lemma {:induction false} ImportKeepsAcyclic<N>(g: Graph<N>, a: N, b: N)
    requires a in g && Acyclic(g)
    ensures Acyclic(g[a := g[a] + [b]]) <==> !Reach(g, b, a)
  {
    var h := g[a := g[a] + [b]];
    if Reach(g, b, a) {
      StillReached(g, a, b, b, a);
      assert h[a][|g[a]|] == b;
    } else {
      forall m, i | m in h && 0 <= i < |h[m]| ensures !Reach(h, h[m][i], m) {
        NoWayBack(g, a, b, m, i);
      }
    }
  }

  lemma {:induction false} NoWayBack<N>(g: Graph<N>, a: N, b: N, m: N, i: nat)
    requires a in g && Acyclic(g) && !Reach(g, b, a)
    requires var h := g[a := g[a] + [b]]; m in h && i < |h[m]|
    ensures var h := g[a := g[a] + [b]]; !Reach(h, h[m][i], m)
  {
    var h := g[a := g[a] + [b]];
    var n := h[m][i];
    var isOld := !(m == a && i == |g[a]|);
    assert isOld ==> m in g && i < |g[m]| && n == g[m][i];
    if Reach(g, b, m) && isOld && Reach(g, n, a) {
      ReachStep(g, m, i, a);
      ReachTrans(g, b, m, a);
    } else if Reach(h, n, m) {
      var k: nat :| ReachIn(h, n, m, k);
      ThroughNewImport(g, a, b, n, m, k);
    }
  }

  lemma {:induction false} StillReached<N>(g: Graph<N>, a: N, b: N, x: N, y: N)
    requires a in g && Reach(g, x, y)
    ensures Reach(g[a := g[a] + [b]], x, y)
  {
    var k: nat :| ReachIn(g, x, y, k);
    StillReachedIn(g, g[a := g[a] + [b]], x, y, k);
  }

  lemma {:induction false} StillReachedIn<N>(g: Graph<N>, h: Graph<N>, x: N, y: N, k: nat)
    requires ReachIn(g, x, y, k) && forall m :: m in g ==> m in h && g[m] <= h[m]
    ensures ReachIn(h, x, y, k)
    decreases k
  {
    if k > 0 {
      var i :| 0 <= i < |g[x]| && ReachIn(g, g[x][i], y, k - 1);
      StillReachedIn(g, h, g[x][i], y, k - 1);
      assert h[x][i] == g[x][i];
    }
  }

  /** Dropping all imports of a module keeps the graph acyclic. */
  lemma {:induction false} ClearKeepsAcyclic<N>(g: Graph<N>, a: N)
    requires a in g && Acyclic(g)
    ensures Acyclic(g[a := []])
  {
    var h := g[a := []];
    forall m, i | m in h && 0 <= i < |h[m]| ensures !Reach(h, h[m][i], m) {
      var n := g[m][i];
      if Reach(h, n, m) {
        var k: nat :| ReachIn(h, n, m, k);
        StillReachedIn(h, g, n, m, k);
      }
    }
  }

  /** A new module, which imports nothing, adds no way from one module to another. */
  lemma {:induction false} NoWayThroughNew<N>(g: Graph<N>, a: N, x: N, y: N, k: nat)
    requires a !in g && ReachIn(g[a := []], x, y, k)
    ensures ReachIn(g, x, y, k)
    decreases k
  {
    var h := g[a := []];
    if k > 0 {
      var i :| 0 <= i < |h[x]| && ReachIn(h, h[x][i], y, k - 1);
      NoWayThroughNew(g, a, h[x][i], y, k - 1);
    }
  }

  /** So it may join a graph at any time. */
  lemma {:induction false} NewKeepsAcyclic<N>(g: Graph<N>, a: N)
    requires a !in g && Closed(g) && Acyclic(g)
    ensures Closed(g[a := []]) && Acyclic(g[a := []])
  {
    var h := g[a := []];
    forall m, i | m in h && 0 <= i < |h[m]| ensures !Reach(h, h[m][i], m) {
      assert !Reach(g, g[m][i], m);
      if Reach(h, h[m][i], m) {
        var k: nat :| ReachIn(h, h[m][i], m, k);
        NoWayThroughNew(g, a, h[m][i], m, k);
      }
    }
  }

  // ----------------------------------------------------------------------- runs

  /** What happens to a set of modules: one is made, one imports another, or one drops its imports. */
  datatype Change<!N> = Make(m: N) | Import(m: N, other: N) | Clear(m: N)

  ghost predicate Possible<N>(g: Graph<N>, c: Change<N>) {
    match c
    case Make(m) => m !in g
    case Import(m, other) => m in g && other in g
    case Clear(m) => m in g
  }

  /** The graph afterwards; an import that would close a cycle is refused. */
  ghost function Changed<N>(g: Graph<N>, c: Change<N>): Graph<N>
    requires Possible(g, c)
  {
    match c
    case Make(m) => g[m := []]
    case Import(m, other) => if Reach(g, other, m) then g else g[m := g[m] + [other]]
    case Clear(m) => g[m := []]
  }

  /** The changes cs, from no module at all, with the graph before and after each of them in gs. */
  ghost predicate Run<N>(gs: seq<Graph<N>>, cs: seq<Change<N>>) {
    && |gs| == |cs| + 1 && gs[0] == map[]
    && forall i :: 0 <= i < |cs| ==> Possible(gs[i], cs[i]) && gs[i + 1] == Changed(gs[i], cs[i])
  }

  /** Whatever modules are made, import each other and drop their imports, in whatever order: no import leads outside
      the graph, and no module ever reaches itself through its imports. */
  lemma {:induction false} EveryRunIsAcyclic<N>(gs: seq<Graph<N>>, cs: seq<Change<N>>, i: nat)
    requires Run(gs, cs) && i < |gs|
    ensures Closed(gs[i]) && Acyclic(gs[i])
  {
    if i > 0 {
      EveryRunIsAcyclic(gs, cs, i - 1);
      ChangeKeepsAcyclic(gs[i - 1], cs[i - 1]);
    }
  }

  lemma {:induction false} ChangeKeepsAcyclic<N>(g: Graph<N>, c: Change<N>)
    requires Closed(g) && Acyclic(g) && Possible(g, c)
    ensures Closed(Changed(g, c)) && Acyclic(Changed(g, c))
  {
    match c
    case Make(m) => NewKeepsAcyclic(g, m);
    case Import(m, other) => ImportKeepsAcyclic(g, m, other);
    case Clear(m) => ClearKeepsAcyclic(g, m);
  }

  // --------------------------------------------------------------------- lookup

  /** What can be reached from m; it shrinks along every import of an acyclic graph. */
  ghost function Below<N>(g: Graph<N>, m: N): set<N> {
    set x | x in g.Keys && Reach(g, m, x)
  }

  lemma {:induction false} BelowShrinks<N>(g: Graph<N>, m: N, i: nat)
    requires Acyclic(g) && Closed(g) && m in g && i < |g[m]|
    ensures Below(g, g[m][i]) < Below(g, m)
  {
    forall x | x in Below(g, g[m][i]) ensures x in Below(g, m) {
      ReachStep(g, m, i, x);
    }
    ReachSelf(g, m);
    assert m in Below(g, m) && m !in Below(g, g[m][i]);
  }

  /** Depth-first preorder: the module, then everything below its imports in import order. */
  ghost function Preorder<N>(g: Graph<N>, m: N): seq<N>
    requires Acyclic(g) && Closed(g) && m in g
    decreases Below(g, m), 1, 0
  {
    [m] + PreorderFrom(g, m, 0)
  }

  ghost function PreorderFrom<N>(g: Graph<N>, m: N, i: nat): seq<N>
    requires Acyclic(g) && Closed(g) && m in g && i <= |g[m]|
    decreases Below(g, m), 0, |g[m]| - i
  {
    if i == |g[m]| then []
    else
      BelowShrinks(g, m, i);
      Preorder(g, g[m][i]) + PreorderFrom(g, m, i + 1)
  }

  /** The preorder lists exactly the modules reached from m. */
  lemma {:induction false} PreorderReaches<N>(g: Graph<N>, m: N, x: N)
    requires Acyclic(g) && Closed(g) && m in g
    ensures x in Preorder(g, m) <==> Reach(g, m, x)
    decreases Below(g, m), 1, 0
  {
    PreorderFromReaches(g, m, 0, x);
    if x == m {
      ReachSelf(g, m);
    } else if Reach(g, m, x) {
      var k: nat :| ReachIn(g, m, x, k);
      var i :| 0 <= i < |g[m]| && ReachIn(g, g[m][i], x, k - 1);
      assert Reach(g, g[m][i], x);
    } else if x in PreorderFrom(g, m, 0) {
      var i: nat :| i < |g[m]| && Reach(g, g[m][i], x);
      ReachStep(g, m, i, x);
    }
  }

  lemma {:induction false} PreorderFromReaches<N>(g: Graph<N>, m: N, i: nat, x: N)
    requires Acyclic(g) && Closed(g) && m in g && i <= |g[m]|
    ensures x in PreorderFrom(g, m, i) <==> exists j :: i <= j < |g[m]| && Reach(g, g[m][j], x)
    decreases Below(g, m), 0, |g[m]| - i
  {
    if i < |g[m]| {
      BelowShrinks(g, m, i);
      PreorderReaches(g, g[m][i], x);
      PreorderFromReaches(g, m, i + 1, x);
    }
  }

  /** The first module of a list that defines the name. */
  ghost function FirstDefinition<N, F>(def: N -> Option<F>, s: seq<N>): Option<F> {
    if s == [] then None else if def(s[0]).Some? then def(s[0]) else FirstDefinition(def, s[1..])
  }

  lemma {:induction false} FirstOfTwo<N, F>(def: N -> Option<F>, s: seq<N>, t: seq<N>)
    ensures FirstDefinition(def, s + t) == if FirstDefinition(def, s).Some?
          then FirstDefinition(def, s) else FirstDefinition(def, t)
  {
    if s == [] {
      assert s + t == t;
    } else {
      FirstOfTwo(def, s[1..], t);
      assert (s + t)[1..] == s[1..] + t;
    }
  }

  lemma {:induction false} FirstFound<N, F>(def: N -> Option<F>, s: seq<N>)
    ensures FirstDefinition(def, s).Some? <==> exists i :: 0 <= i < |s| && def(s[i]).Some?
  {
    if s != [] && def(s[0]).None? {
      FirstFound(def, s[1..]);
      if FirstDefinition(def, s[1..]).Some? {
        var i: nat :| i < |s[1..]| && def(s[1..][i]).Some?;
        assert s[i + 1] == s[1..][i];
      }
      forall i | 0 <= i < |s| && def(s[i]).Some? ensures FirstDefinition(def, s[1..]).Some? {
        assert s[i] == s[1..][i - 1];
      }
    }
  }

  /** A function is found exactly when some module reached through the imports defines it. */
  lemma {:induction false} FoundIffReachable<N, F>(g: Graph<N>, def: N -> Option<F>, m: N)
    requires Acyclic(g) && Closed(g) && m in g
    ensures FirstDefinition(def, Preorder(g, m)).Some? <==> exists x :: x in g && Reach(g, m, x) && def(x).Some?
  {
    var s := Preorder(g, m);
    FirstFound(def, s);
    if FirstDefinition(def, s).Some? {
      var i: nat :| i < |s| && def(s[i]).Some?;
      PreorderReaches(g, m, s[i]);
      ReachedIsModule(g, m, s[i]);
    }
    forall x | x in g && Reach(g, m, x) && def(x).Some? ensures FirstDefinition(def, s).Some? {
      PreorderReaches(g, m, x);
      var i: nat :| i < |s| && s[i] == x;
    }
  }

  lemma {:induction false} ReachedIsModule<N>(g: Graph<N>, m: N, x: N)
    requires Closed(g) && m in g && Reach(g, m, x)
    ensures x in g
  {
    var k: nat :| ReachIn(g, m, x, k);
    ClosedSetHolds(g, m, x, k, g.Keys);
  }

  // -------------------------------------------------------------------- modules

  /** The functions a module has itself do not change; its imports do. */
  class ModuleObj {
    const functions: map<string, int>
    var imports: seq<ModuleObj>

    constructor (functions: map<string, int>)
      ensures this.functions == functions && imports == []
    {
      this.functions, imports := functions, [];
    }

    /** The import graph of a set of modules. */
    static ghost function Imports(all: set<ModuleObj>): Graph<ModuleObj>
      reads all
    {
      map m | m in all :: m.imports
    }

    /** A module just made joins the graph of all modules as Make has it. */
    static lemma {:induction false} NewModuleJoins(all: set<ModuleObj>, m: ModuleObj)
      requires m !in all && m.imports == []
      requires Closed<ModuleObj>(Imports(all)) && Acyclic<ModuleObj>(Imports(all))
      ensures Imports(all + {m}) == Changed<ModuleObj>(Imports(all), Make(m))
      ensures Closed<ModuleObj>(Imports(all + {m})) && Acyclic<ModuleObj>(Imports(all + {m}))
    {
      assert Imports(all + {m}) == Imports(all)[m := []];
      NewKeepsAcyclic<ModuleObj>(Imports(all), m);
    }

    static function Definition(name: string): ModuleObj -> Option<int> {
      (m: ModuleObj) => if name in m.functions then Some(m.functions[name]) else None
    }

    /** False stands for the error thrown on a cyclic dependency. */
    method ImportModule(other: ModuleObj, ghost all: set<ModuleObj>) returns (ok: bool)
      requires this in all && other in all && Closed<ModuleObj>(Imports(all)) && Acyclic<ModuleObj>(Imports(all))
      modifies this
      ensures ok <==> !Reach<ModuleObj>(old(Imports(all)), other, this)
      ensures Imports(all) == if ok then old(Imports(all))[this := old(imports) + [other]] else old(Imports(all))
      ensures Imports(all) == Changed<ModuleObj>(old(Imports(all)), Import(this, other))
      ensures Closed<ModuleObj>(Imports(all)) && Acyclic<ModuleObj>(Imports(all))
    {
      ghost var g: Graph<ModuleObj> := Imports(all);
      var visited := {other};
      var stack := [other];
      ReachSelf<ModuleObj>(g, other);
      while stack != []
        invariant Imports(all) == g && visited <= all && other in visited
        invariant Worklist<ModuleObj>(g, other, visited, stack, {})
        decreases all - visited, |stack|
      {
        var n := stack[|stack| - 1];
        Popped<ModuleObj>(g, other, visited, stack);
        visited, stack := VisitImports(n, visited, stack[..|stack| - 1], all, other);
      }
      VisitedIsReached(g, other, this, visited);
      if this in visited { return false; }
      imports := imports + [other];
      assert Imports(all) == g[this := g[this] + [other]];
      ImportKeepsAcyclic<ModuleObj>(g, this, other);
      return true;
    }

    /** One round of the worklist: the imports of n not met before are marked and stacked. */
    static method VisitImports(n: ModuleObj, before: set<ModuleObj>, rest: seq<ModuleObj>, ghost all: set<ModuleObj>,
            ghost other: ModuleObj)
      returns (visited: set<ModuleObj>, stack: seq<ModuleObj>)
      requires Closed<ModuleObj>(Imports(all)) && before <= all && n in before
      requires Worklist<ModuleObj>(Imports(all), other, before, rest, {n})
      ensures before <= visited <= all && (visited == before ==> stack == rest)
      ensures Worklist<ModuleObj>(Imports(all), other, visited, stack, {})
    {
      ghost var g: Graph<ModuleObj> := Imports(all);
      visited, stack := before, rest;
      for i := 0 to |n.imports|
        invariant before <= visited <= all && (visited == before ==> stack == rest)
        invariant Worklist<ModuleObj>(g, other, visited, stack, {n})
        invariant forall j :: 0 <= j < i ==> n.imports[j] in visited
      {
        var next := n.imports[i];
        assert next == g[n][i] && next in g;
        if next !in visited {
          NextReached(g, other, n, i);
          visited := visited + {next};
          stack := stack + [next];
        }
      }
    }

    method ClearImports(ghost all: set<ModuleObj>)
      requires this in all && Closed<ModuleObj>(Imports(all)) && Acyclic<ModuleObj>(Imports(all))
      modifies this
      ensures Imports(all) == old(Imports(all))[this := []] == Changed<ModuleObj>(old(Imports(all)), Clear(this))
      ensures Closed<ModuleObj>(Imports(all)) && Acyclic<ModuleObj>(Imports(all))
    {
      ghost var g: Graph<ModuleObj> := Imports(all);
      imports := [];
      assert Imports(all) == g[this := []];
      ClearKeepsAcyclic<ModuleObj>(g, this);
    }

    /** With query_imports set: the module itself, then its imports in turn. */
    method GetFunction(name: string, ghost all: set<ModuleObj>) returns (f: Option<int>)
      requires this in all && Closed<ModuleObj>(Imports(all)) && Acyclic<ModuleObj>(Imports(all))
      ensures f == FirstDefinition<ModuleObj, int>(Definition(name), Preorder<ModuleObj>(Imports(all), this))
      decreases Below<ModuleObj>(Imports(all), this)
    {
      ghost var g: Graph<ModuleObj> := Imports(all);
      ghost var def: ModuleObj -> Option<int> := Definition(name);
      FirstOfTwo<ModuleObj, int>(def, [this], PreorderFrom<ModuleObj>(g, this, 0));
      if name in functions { return Some(functions[name]); }
      for i := 0 to |imports|
        invariant FirstDefinition<ModuleObj, int>(def, Preorder<ModuleObj>(g, this))
              == FirstDefinition<ModuleObj, int>(def, PreorderFrom<ModuleObj>(g, this, i))
      {
        assert g[this] == imports && imports[i] in g;
        BelowShrinks<ModuleObj>(g, this, i);
        FirstOfTwo<ModuleObj, int>(def, Preorder<ModuleObj>(g, imports[i]), PreorderFrom<ModuleObj>(g, this, i + 1));
        f := imports[i].GetFunction(name, all);
        if f.Some? { return; }
      }
      return None;
    }
  }

  /** All visited modules are reached from other; those neither stacked nor in work have all their imports visited. */
  ghost predicate Worklist<N>(g: Graph<N>, other: N, visited: set<N>, stack: seq<N>, work: set<N>) {
    && (forall x :: x in stack ==> x in visited)
    && (forall x :: x in visited ==> Reach(g, other, x))
    && forall x, i :: x in visited && x !in stack && x !in work && x in g && 0 <= i < |g[x]| ==> g[x][i] in visited
  }

  lemma Popped<N>(g: Graph<N>, other: N, visited: set<N>, stack: seq<N>)
    requires stack != [] && Worklist(g, other, visited, stack, {})
    ensures Worklist(g, other, visited, stack[..|stack| - 1], {stack[|stack| - 1]})
  {
    var rest, n := stack[..|stack| - 1], stack[|stack| - 1];
    assert stack == rest + [n];
  }

  lemma NextReached(g: Graph<ModuleObj>, a: ModuleObj, n: ModuleObj, i: nat)
    requires Reach<ModuleObj>(g, a, n) && n in g && i < |g[n]|
    ensures Reach<ModuleObj>(g, a, g[n][i])
  {
    ReachSelf<ModuleObj>(g, g[n][i]);
    ReachStep<ModuleObj>(g, n, i, g[n][i]);
    ReachTrans<ModuleObj>(g, a, n, g[n][i]);
  }

  lemma VisitedIsReached(g: Graph<ModuleObj>, a: ModuleObj, b: ModuleObj, visited: set<ModuleObj>)
    requires a in visited && forall x :: x in visited ==> Reach<ModuleObj>(g, a, x)
    requires forall x, i :: x in visited && x in g && 0 <= i < |g[x]| ==> g[x][i] in visited
    ensures b in visited <==> Reach<ModuleObj>(g, a, b)
  {
    if Reach<ModuleObj>(g, a, b) {
      var k: nat :| ReachIn<ModuleObj>(g, a, b, k);
      ClosedSetHolds<ModuleObj>(g, a, b, k, visited);
    }
  }
}
