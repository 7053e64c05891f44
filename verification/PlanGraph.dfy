/** Dependencies of plan actions: a three-colour search accepts exactly the plans that can be ordered. */
module PlanGraph {
  import opened Base
  import opened PathBytes
  import opened Sorting

  type Id = bytes

  /** The parts of an action that dependency validation looks at; sound says that its other checks pass. */
  datatype Action = Action(id: Id, sound: bool, dependencies: seq<Id>)

  type Graph = map<Id, seq<Id>>

  // ----- cycles and orders -----

  predicate Closed(g: Graph) {
    forall a, i :: a in g && 0 <= i < |g[a]| ==> g[a][i] in g
  }

  predicate Walk(g: Graph, p: seq<Id>) {
    && (forall i :: 0 <= i < |p| ==> p[i] in g)
    && (forall i :: 0 < i < |p| ==> p[i] in g[p[i - 1]])
  }

  ghost predicate Cyclic(g: Graph) {
    exists p :: Walk(g, p) && |p| > 1 && p[0] == p[|p| - 1]
  }

  /** Every dependency stands before what depends on it. */
  predicate Ordered(g: Graph, order: seq<Id>) {
    && (forall i, j :: 0 <= i < j < |order| ==> order[i] != order[j])
    && (forall i :: 0 <= i < |order| ==> order[i] in g)
    && (forall i, d :: 0 <= i < |order| && d in g[order[i]] ==> d in order[..i])
  }

  /** An order of all actions in which they can be carried out. */
  predicate Topological(g: Graph, order: seq<Id>) {
    Ordered(g, order) && forall a :: a in g ==> a in order
  }

  lemma {:induction false} WalkGoesDown(g: Graph, order: seq<Id>, p: seq<Id>, from: nat)
    requires Topological(g, order) && Walk(g, p) && |p| > 0 && from < |order| && order[from] == p[0]
    ensures exists to :: 0 <= to < |order| && order[to] == p[|p| - 1] && to <= from && (|p| > 1 ==> to < from)
    decreases |p|
  {
    if |p| > 1 {
      assert p[1] in g[p[0]];
      assert p[1] in order[..from];
      var next :| 0 <= next < from && order[next] == p[1];
      WalkGoesDown(g, order, p[1..], next);
    }
  }

  /** What can be ordered has no cycle. */
  lemma OrderedIsAcyclic(g: Graph, order: seq<Id>)
    requires Topological(g, order)
    ensures !Cyclic(g)
  {
    if Cyclic(g) {
      var p :| Walk(g, p) && |p| > 1 && p[0] == p[|p| - 1];
      assert p[0] in order;
      var from :| 0 <= from < |order| && order[from] == p[0];
      WalkGoesDown(g, order, p, from);
      assert false;
    }
  }

  lemma BackEdgeIsCycle(g: Graph, stack: seq<Id>, id: Id)
    requires Walk(g, stack + [id]) && id in stack
    ensures Cyclic(g)
  {
    var i :| 0 <= i < |stack| && stack[i] == id;
    var whole := stack + [id];
    var p := whole[i..];
    assert p[0] == id && p[|p| - 1] == id;
    assert Walk(g, p) by {
      forall j | 0 < j < |p| ensures p[j] in g[p[j - 1]] { assert p[j] == whole[i + j] && p[j - 1] == whole[i + j - 1]; }
    }
  }

  // ----- the search -----

  datatype Colour = Visiting | Visited

  class Search {
    const dependencies: Graph
    var states: map<Id, Colour>
    ghost var stack: seq<Id>
    ghost var order: seq<Id>

    constructor (dependencies: Graph)
      ensures this.dependencies == dependencies && states == map[] && stack == [] && order == []
    {
      this.dependencies := dependencies;
      states := map[];
      stack, order := [], [];
    }

    /** The nodes being visited are the current path, the visited ones are ordered. */
    ghost predicate Valid()
      reads this
    {
      && Closed(dependencies) && states.Keys <= dependencies.Keys
      && (forall a :: a in states && states[a] == Visiting <==> a in stack)
      && (forall a :: a in states && states[a] == Visited <==> a in order)
      && Walk(dependencies, stack) && Ordered(dependencies, order)
    }

    method Visit(id: Id) returns (ok: bool)
      requires Valid() && id in dependencies && Walk(dependencies, stack + [id])
      modifies this
      ensures ok ==> Valid() && id in order && stack == old(stack) && old(order) <= order && old(states).Keys <= states.Keys
      ensures !ok ==> Cyclic(dependencies)
      decreases dependencies.Keys - states.Keys, 0
    {
      if id in states && states[id] == Visited { return true; }
      if id in states {
        BackEdgeIsCycle(dependencies, stack, id);
        return false;
      }
      ghost var unvisited := dependencies.Keys - states.Keys;
      Enter(id);
      assert id in unvisited && dependencies.Keys - states.Keys == unvisited - {id};
      ok := VisitAll(id);
      if !ok { return false; }
      Leave(id);
      return true;
    }

    /** The node joins the current path. */
    method Enter(id: Id)
      requires Valid() && id in dependencies && id !in states && Walk(dependencies, stack + [id])
      modifies this
      ensures Valid() && stack == old(stack) + [id] && order == old(order) && states == old(states)[id := Visiting]
    {
      states := states[id := Visiting];
      stack := stack + [id];
    }

    /** The node, its dependencies all ordered, leaves the path and goes last. */
    method Leave(id: Id)
      requires Valid() && stack != [] && stack[|stack| - 1] == id && id !in stack[..|stack| - 1] && id in states && states[id] == Visiting
      requires forall d :: d in dependencies[id] ==> d in order
      modifies this
      ensures Valid() && stack == old(stack)[..|old(stack)| - 1] && order == old(order) + [id] && old(states).Keys <= states.Keys
    {
      assert stack == stack[..|stack| - 1] + [id];
      states := states[id := Visited];
      stack := stack[..|stack| - 1];
      Finish(id);
    }

    /** The loop over the dependencies of a node. */
    method VisitAll(id: Id) returns (ok: bool)
      requires Valid() && id in dependencies && stack != [] && stack[|stack| - 1] == id && id in states
      modifies this
      ensures ok ==> Valid() && stack == old(stack) && old(order) <= order && old(states).Keys <= states.Keys
      ensures ok ==> forall d :: d in dependencies[id] ==> d in order
      ensures !ok ==> Cyclic(dependencies)
      decreases dependencies.Keys - states.Keys, 1
    {
      var index := 0;
      while index < |dependencies[id]|
        invariant 0 <= index <= |dependencies[id]|
        invariant Valid() && stack == old(stack) && old(order) <= order && old(states).Keys <= states.Keys
        invariant forall j :: 0 <= j < index ==> dependencies[id][j] in order
      {
        ok := Visit(dependencies[id][index]);
        if !ok { return false; }
        index := index + 1;
      }
      return true;
    }

    /** A node whose dependencies are ordered goes last. */
    ghost method Finish(id: Id)
      requires id in dependencies && Ordered(dependencies, order) && id !in order
      requires forall d :: d in dependencies[id] ==> d in order
      modifies this`order
      ensures order == old(order) + [id] && Ordered(dependencies, order)
    {
      order := order + [id];
      forall i, d | 0 <= i < |order| && d in dependencies[order[i]] ensures d in order[..i] {
        if i < |old(order)| { assert order[..i] == old(order)[..i]; } else { assert order[..i] == old(order); }
      }
    }
  }

  /** The main loop: either every action gets a place in the order, or there is a cycle. */
  method SearchCycles(dependencies: Graph, ids: seq<Id>) returns (ok: bool, ghost order: seq<Id>)
    requires Closed(dependencies) && forall a :: a in ids <==> a in dependencies
    ensures ok ==> Topological(dependencies, order)
    ensures ok <==> !Cyclic(dependencies)
  {
    var search := new Search(dependencies);
    var index := 0;
    while index < |ids|
      invariant 0 <= index <= |ids|
      invariant search.dependencies == dependencies && search.Valid() && search.stack == []
      invariant fresh(search)
      invariant forall j :: 0 <= j < index ==> ids[j] in search.order
    {
      assert ids[index] in ids;
      ok := search.Visit(ids[index]);
      if !ok { return false, []; }
      index := index + 1;
    }
    order := search.order;
    OrderedIsAcyclic(dependencies, order);
    return true, order;
  }

  // ----- validation of a whole plan -----

  predicate UniqueIds(actions: seq<Action>) {
    forall i, j :: 0 <= i < j < |actions| ==> actions[i].id != actions[j].id
  }

  predicate Known(actions: seq<Action>, d: Id) {
    exists i :: 0 <= i < |actions| && actions[i].id == d
  }

  /** The dependencies of one action: well-formed, of other known actions, each once. */
  predicate SoundDependencies(actions: seq<Action>, a: Action) {
    forall i :: 0 <= i < |a.dependencies| ==>
                  && ValidStableId(a.dependencies[i]) && a.dependencies[i] != a.id && Known(actions, a.dependencies[i])
                  && forall j :: 0 <= j < i ==> a.dependencies[j] != a.dependencies[i]
  }

  predicate SoundActions(actions: seq<Action>) {
    && UniqueIds(actions)
    && (forall i :: 0 <= i < |actions| ==> actions[i].sound && SoundDependencies(actions, actions[i]))
  }

  /** The dependency graph of a plan. */
  function GraphOf(actions: seq<Action>): Graph {
    if actions == [] then map[] else GraphOf(actions[..|actions| - 1])[actions[|actions| - 1].id := actions[|actions| - 1].dependencies]
  }

  lemma KnownNext(actions: seq<Action>, d: Id)
    requires actions != []
    ensures Known(actions, d) <==> Known(actions[..|actions| - 1], d) || d == actions[|actions| - 1].id
  {
    var n := |actions| - 1;
    if Known(actions[..n], d) {
      var i :| 0 <= i < n && actions[..n][i].id == d;
      assert actions[i].id == d;
    }
    if Known(actions, d) && d != actions[n].id {
      var i :| 0 <= i < |actions| && actions[i].id == d;
      assert actions[..n][i].id == d;
    }
  }

  lemma {:induction false} GraphKeys(actions: seq<Action>, d: Id)
    ensures d in GraphOf(actions) <==> Known(actions, d)
  {
    if actions != [] {
      GraphKeys(actions[..|actions| - 1], d);
      KnownNext(actions, d);
      hide Known;
    }
  }

  lemma {:induction false} GraphValues(actions: seq<Action>, i: nat)
    requires UniqueIds(actions) && i < |actions|
    ensures actions[i].id in GraphOf(actions) && GraphOf(actions)[actions[i].id] == actions[i].dependencies
  {
    var n := |actions| - 1;
    if i < n { GraphValues(actions[..n], i); }
  }

  lemma GraphMembers(actions: seq<Action>)
    requires UniqueIds(actions)
    ensures forall d :: d in GraphOf(actions) <==> Known(actions, d)
    ensures forall i :: 0 <= i < |actions| ==> actions[i].id in GraphOf(actions) && GraphOf(actions)[actions[i].id] == actions[i].dependencies
  {
    hide GraphOf, Known, UniqueIds;
    forall d ensures d in GraphOf(actions) <==> Known(actions, d) { GraphKeys(actions, d); }
    forall i | 0 <= i < |actions| ensures actions[i].id in GraphOf(actions) && GraphOf(actions)[actions[i].id] == actions[i].dependencies {
      GraphValues(actions, i);
    }
  }

  lemma GraphIsClosed(actions: seq<Action>)
    requires SoundActions(actions)
    ensures Closed(GraphOf(actions))
  {
    GraphMembers(actions);
    var g := GraphOf(actions);
    forall a, i | a in g && 0 <= i < |g[a]| ensures g[a][i] in g {
      var k :| 0 <= k < |actions| && actions[k].id == a;
      assert SoundDependencies(actions, actions[k]);
    }
  }

  // ----- the same as an order of work -----

  /** The actions are carried out one after the other: each has an identifier of its own, and its dependencies, each
      listed once, are done before it. */
  predicate InTurn(order: seq<Action>) {
    forall i :: 0 <= i < |order| ==> Ready(order[..i], order[i])
  }

  predicate Ready(done: seq<Action>, a: Action) {
    !Known(done, a.id) && Distinct(a.dependencies) && forall d :: d in a.dependencies ==> ValidStableId(d) && Known(done, d)
  }

  /** Well-formed actions that can be carried out in some order. */
  ghost predicate Executable(actions: seq<Action>) {
    (forall a :: a in actions ==> a.sound) && exists order :: multiset(order) == multiset(actions) && InTurn(order)
  }

  function Ids(actions: seq<Action>): (ids: seq<Id>)
    ensures |ids| == |actions| && forall d :: d in ids <==> Known(actions, d)
  {
    var ids := seq(|actions|, i requires 0 <= i < |actions| => actions[i].id);
    assert forall i :: 0 <= i < |actions| ==> ids[i] == actions[i].id;
    ids
  }

  lemma DistinctSame<T>(s: seq<T>, t: seq<T>)
    requires Distinct(s) && Distinct(t) && forall x :: x in s <==> x in t
    ensures multiset(s) == multiset(t)
  {
    DistinctCounts(s);
    DistinctCounts(t);
    forall x ensures multiset(s)[x] == multiset(t)[x] { assert x in s <==> x in t; }
  }

  /** The action with an identifier. */
  function ActionOf(actions: seq<Action>, d: Id): (a: Action)
    requires Known(actions, d)
    ensures a in actions && a.id == d
  {
    var n := |actions| - 1;
    if actions[n].id == d then actions[n]
    else
      KnownNext(actions, d);
      ActionOf(actions[..n], d)
  }

  function Listed(actions: seq<Action>, ids: seq<Id>): (r: seq<Action>)
    requires forall d :: d in ids ==> Known(actions, d)
    ensures |r| == |ids| && forall i :: 0 <= i < |ids| ==> r[i] in actions && r[i].id == ids[i]
  {
    seq(|ids|, i requires 0 <= i < |ids| => ActionOf(actions, ids[i]))
  }

  /** An order of the identifiers is an order of work. */
  lemma TopologicalIsExecutable(actions: seq<Action>, ids: seq<Id>)
    requires SoundActions(actions) && Topological(GraphOf(actions), ids)
    ensures Executable(actions)
  {
    GraphMembers(actions);
    hide GraphOf, Known;
    var order := Listed(actions, ids);
    ListedIsAll(actions, ids);
    forall a | a in actions ensures a.sound { var k :| 0 <= k < |actions| && actions[k] == a; }
    hide SoundDependencies, Ready;
    forall i | 0 <= i < |order| ensures Ready(order[..i], order[i]) { ReadyAt(actions, ids, order, i); }
    assert InTurn(order);
  }

  lemma ListedIsAll(actions: seq<Action>, ids: seq<Id>)
    requires UniqueIds(actions) && Distinct(ids) && forall d :: d in ids <==> Known(actions, d)
    ensures multiset(Listed(actions, ids)) == multiset(actions)
  {
    var order := Listed(actions, ids);
    forall a | a in actions ensures a in order {
      var k :| 0 <= k < |actions| && actions[k] == a;
      assert a.id in ids;
      var i :| 0 <= i < |ids| && ids[i] == a.id;
      var m :| 0 <= m < |actions| && actions[m] == order[i];
      assert m == k;
    }
    forall i, j | 0 <= i < j < |order| ensures order[i] != order[j] { assert order[i].id == ids[i] && order[j].id == ids[j]; }
    DistinctSame(order, actions);
  }

  lemma ReadyAt(actions: seq<Action>, ids: seq<Id>, order: seq<Action>, i: nat)
    requires SoundActions(actions) && Ordered(GraphOf(actions), ids) && i < |order| == |ids|
    requires forall j :: 0 <= j < |ids| ==> order[j] in actions && order[j].id == ids[j]
    ensures Ready(order[..i], order[i])
  {
    GraphMembers(actions);
    hide GraphOf, ValidStableId;
    var a := order[i];
    var k :| 0 <= k < |actions| && actions[k] == a;
    assert SoundDependencies(actions, a) && GraphOf(actions)[ids[i]] == a.dependencies;
    forall d | d in a.dependencies ensures ValidStableId(d) && Known(order[..i], d) {
      var j :| 0 <= j < i && ids[j] == d;
      assert order[..i][j].id == d;
    }
  }

  /** What can be done in turn has sound dependencies. */
  lemma InTurnIsSound(actions: seq<Action>, order: seq<Action>)
    requires (forall a :: a in actions ==> a.sound) && multiset(order) == multiset(actions) && InTurn(order)
    ensures SoundActions(actions)
  {
    SameElements(order, actions);
    DistinctCounts(order);
    DistinctCounts(actions);
    hide ValidStableId;
    forall i, j | 0 <= i < j < |order| ensures order[i].id != order[j].id {
      assert Ready(order[..j], order[j]) && order[..j][i] == order[i];
    }
    assert Distinct(order);
    forall i, j | 0 <= i < j < |actions| ensures actions[i].id != actions[j].id {
      assert actions[i] in order && actions[j] in order;
      var p :| 0 <= p < |order| && order[p] == actions[i];
      var q :| 0 <= q < |order| && order[q] == actions[j];
      assert p != q;
    }
    forall k | 0 <= k < |actions| ensures SoundDependencies(actions, actions[k]) {
      assert actions[k] in order;
      var p :| 0 <= p < |order| && order[p] == actions[k];
      SoundInTurn(actions, order, p);
    }
  }

  lemma SoundInTurn(actions: seq<Action>, order: seq<Action>, p: nat)
    requires p < |order| && Ready(order[..p], order[p]) && forall a :: a in order <==> a in actions
    ensures SoundDependencies(actions, order[p])
  {
    hide ValidStableId;
    var a := order[p];
    forall i | 0 <= i < |a.dependencies| ensures a.dependencies[i] != a.id && Known(actions, a.dependencies[i]) {
      var d := a.dependencies[i];
      assert d in a.dependencies && Known(order[..p], d);
      var j :| 0 <= j < p && order[..p][j].id == d;
      assert order[j] in actions;
      var k :| 0 <= k < |actions| && actions[k] == order[j];
    }
  }

  lemma InTurnIsTopological(actions: seq<Action>, order: seq<Action>)
    requires SoundActions(actions) && multiset(order) == multiset(actions) && InTurn(order)
    ensures Topological(GraphOf(actions), Ids(order))
  {
    SameElements(order, actions);
    GraphMembers(actions);
    hide GraphOf, SoundDependencies, Known;
    var g, ids := GraphOf(actions), Ids(order);
    forall i | 0 <= i < |ids| ensures ids[i] in g && forall d :: d in g[ids[i]] ==> d in ids[..i] { IdInTurn(actions, order, i); }
    forall i, j | 0 <= i < j < |ids| ensures ids[i] != ids[j] { IdsDiffer(order, i, j); }
    forall a ensures Known(actions, a) <==> Known(order, a) { SameKnown(actions, order, a); }
  }

  lemma IdInTurn(actions: seq<Action>, order: seq<Action>, i: nat)
    requires SoundActions(actions) && (forall a :: a in order <==> a in actions) && i < |order| && Ready(order[..i], order[i])
    ensures var id, g := Ids(order)[i], GraphOf(actions); id in g && forall d :: d in g[id] ==> d in Ids(order)[..i]
  {
    GraphMembers(actions);
    hide GraphOf, ValidStableId;
    assert order[i] in actions;
    var k :| 0 <= k < |actions| && actions[k] == order[i];
    assert Ids(order[..i]) == Ids(order)[..i];
  }

  lemma IdsDiffer(order: seq<Action>, i: nat, j: nat)
    requires InTurn(order) && i < j < |order|
    ensures Ids(order)[i] != Ids(order)[j]
  {
    assert Ready(order[..j], order[j]) && order[..j][i] == order[i];
  }

  lemma SameKnown(actions: seq<Action>, order: seq<Action>, d: Id)
    requires forall a :: a in order <==> a in actions
    ensures Known(actions, d) <==> Known(order, d)
  {
    if Known(actions, d) {
      var k :| 0 <= k < |actions| && actions[k].id == d;
      assert actions[k] in order;
    }
    if Known(order, d) {
      var k :| 0 <= k < |order| && order[k].id == d;
      assert order[k] in actions;
    }
  }

  lemma ExecutableIsAcyclic(actions: seq<Action>)
    requires Executable(actions)
    ensures SoundActions(actions) && !Cyclic(GraphOf(actions))
  {
    hide *;
    var order := AnOrder(actions);
    InTurnIsSound(actions, order);
    InTurnIsTopological(actions, order);
    OrderedIsAcyclic(GraphOf(actions), Ids(order));
  }

  lemma AnOrder(actions: seq<Action>) returns (order: seq<Action>)
    requires Executable(actions)
    ensures (forall a :: a in actions ==> a.sound) && multiset(order) == multiset(actions) && InTurn(order)
  {
    order :| multiset(order) == multiset(actions) && InTurn(order);
  }

  // ----- the checks of a plan -----

  method CheckIds(actions: seq<Action>) returns (ok: bool, known: set<Id>)
    ensures ok ==> UniqueIds(actions) && (forall i :: 0 <= i < |actions| ==> actions[i].sound)
    ensures ok ==> forall d :: d in known <==> Known(actions, d)
    ensures !ok ==> !SoundActions(actions)
  {
    known := {};
    var index := 0;
    while index < |actions|
      invariant 0 <= index <= |actions|
      invariant forall i :: 0 <= i < index ==> actions[i].sound
      invariant forall i, j :: 0 <= i < j < index ==> actions[i].id != actions[j].id
      invariant forall d :: d in known <==> exists i :: 0 <= i < index && actions[i].id == d
    {
      if !actions[index].sound { return false, known; }
      if actions[index].id in known { return false, known; }
      known := known + {actions[index].id};
      index := index + 1;
    }
    return true, known;
  }

  method CheckDependencies(actions: seq<Action>, known: set<Id>, a: Action) returns (ok: bool)
    requires forall d :: d in known <==> Known(actions, d)
    ensures ok <==> SoundDependencies(actions, a)
  {
    var seen: set<Id> := {};
    var index := 0;
    while index < |a.dependencies|
      invariant 0 <= index <= |a.dependencies|
      invariant SoundDependencies(actions, a.(dependencies := a.dependencies[..index]))
      invariant forall d :: d in seen <==> d in a.dependencies[..index]
    {
      var d := a.dependencies[index];
      if !ValidStableId(d) || d == a.id || d in seen || d !in known { return false; }
      seen := seen + {d};
      index := index + 1;
    }
    assert a.dependencies[..index] == a.dependencies;
    return true;
  }

  /** Accepts a plan exactly if its actions can be carried out in some order; looking for unknown, repeated and own
      dependencies and for cycles misses nothing and refuses nothing else. */
  method ValidatePlanActions(actions: seq<Action>) returns (ok: bool, ghost order: seq<Id>)
    ensures ok <==> Executable(actions)
    ensures ok <==> SoundActions(actions) && !Cyclic(GraphOf(actions))
    ensures ok ==> Topological(GraphOf(actions), order)
  {
    order := [];
    hide Executable;
    if Executable(actions) { ExecutableIsAcyclic(actions); }
    var unique, known := CheckIds(actions);
    if !unique { return false, []; }
    var dependencies: Graph := map[];
    var ids: seq<Id> := [];
    var index := 0;
    while index < |actions|
      invariant 0 <= index <= |actions| && |ids| == index
      invariant forall i :: 0 <= i < index ==> SoundDependencies(actions, actions[i]) && ids[i] == actions[i].id
      invariant dependencies == GraphOf(actions[..index])
    {
      var sound := CheckDependencies(actions, known, actions[index]);
      if !sound { return false, []; }
      assert actions[..index + 1][..index] == actions[..index];
      dependencies := dependencies[actions[index].id := actions[index].dependencies];
      ids := ids + [actions[index].id];
      index := index + 1;
    }
    assert actions[..index] == actions;
    GraphMembers(actions);
    GraphIsClosed(actions);
    forall a ensures a in ids <==> a in dependencies {
      if Known(actions, a) {
        var i :| 0 <= i < |actions| && actions[i].id == a;
        assert ids[i] == a;
      }
    }
    ok, order := SearchCycles(dependencies, ids);
    if ok { TopologicalIsExecutable(actions, order); }
  }
}
