/** Package-manager transaction graphs in canonical order: validation, binary search, and independence of order. */
module TransactionGraph {
  import opened Base
  import opened Sorting

  datatype Ref = Ref(id: bytes, scope: bytes)

  /** The payload stands for the flags of a node. */
  datatype Node = Node(ref: Ref, version: bytes, payload: bytes)

  datatype Edge = Edge(from: Ref, to: Ref, reason: bytes)

  datatype GuaranteeKind = ReadOnlyInventory | BoundedEffectOnly | ExactTarget | ExactGraph | OtherGuarantee(text: bytes)

  /** soundHeader says that provider and evidence digest are well-formed; soundRef does so for a reference. */
  datatype Graph = Graph(soundHeader: bool, nodes: seq<Node>, edges: seq<Edge>, kind: GuaranteeKind, covered: seq<Ref>)

  type RefCheck = Ref -> bool

  // ----- orders -----

  predicate RefLess(a: Ref, b: Ref) {
    if a.id != b.id then Less(a.id, b.id) else Less(a.scope, b.scope)
  }

  predicate NodeLess(a: Node, b: Node) { RefLess(a.ref, b.ref) }

  predicate EdgeLess(a: Edge, b: Edge) {
    if a.from != b.from then RefLess(a.from, b.from)
    else if a.to != b.to then RefLess(a.to, b.to)
    else Less(a.reason, b.reason)
  }

  /** Less, lifted to two keys in turn, is still an order. */
  lemma RefOrder()
    ensures StrictOrder(RefLess) && forall a: Ref, b: Ref :: RefLess(a, b) || a == b || RefLess(b, a)
  {
    forall a: Ref, b: Ref ensures (RefLess(a, b) ==> !RefLess(b, a)) && (RefLess(a, b) || a == b || RefLess(b, a)) {
      LessTrichotomy(a.id, b.id);
      LessTrichotomy(a.scope, b.scope);
      if Less(a.id, b.id) { LessAsymmetric(a.id, b.id); }
      if Less(a.scope, b.scope) { LessAsymmetric(a.scope, b.scope); }
    }
    forall a: Ref, b: Ref, d: Ref | RefLess(a, b) && RefLess(b, d) ensures RefLess(a, d) {
      RefTransitive(a, b, d);
    }
  }

  lemma RefTransitive(a: Ref, b: Ref, d: Ref)
    requires RefLess(a, b) && RefLess(b, d)
    ensures RefLess(a, d)
  {
    if a.id == b.id == d.id {
      LessTransitive(a.scope, b.scope, d.scope);
    } else if a.id != b.id && b.id != d.id {
      LessTransitive(a.id, b.id, d.id);
      if a.id == d.id { LessAsymmetric(a.id, b.id); }
    }
  }

  lemma NodeOrder()
    ensures StrictOrder(NodeLess)
  {
    RefOrder();
    hide RefLess;
  }

  lemma EdgeOrder()
    ensures StrictOrder(EdgeLess)
  {
    RefOrder();
    hide RefLess, Less;
    forall a: Edge, b: Edge | EdgeLess(a, b) ensures !EdgeLess(b, a) {
      if a.from == b.from && a.to == b.to { LessAsymmetric(a.reason, b.reason); }
    }
    forall a: Edge, b: Edge, d: Edge | EdgeLess(a, b) && EdgeLess(b, d) ensures EdgeLess(a, d) {
      if a.from == b.from == d.from && a.to == b.to == d.to { LessTransitive(a.reason, b.reason, d.reason); }
    }
  }

  // ----- what is accepted -----

  predicate HasNode(nodes: seq<Node>, r: Ref) {
    exists i :: 0 <= i < |nodes| && nodes[i].ref == r
  }

  predicate ValidReason(reason: bytes) {
    reason == Ascii("dependency") || reason == Ascii("replacement") || reason == Ascii("conflict") || reason == Ascii("removal")
  }

  predicate SoundNode(ok: RefCheck, n: Node) { ok(n.ref) && n.version != [] }

  predicate SoundEdge(ok: RefCheck, nodes: seq<Node>, e: Edge) {
    ok(e.from) && ok(e.to) && e.from != e.to && ValidReason(e.reason) && HasNode(nodes, e.from) && HasNode(nodes, e.to)
  }

  predicate SoundGuarantee(ok: RefCheck, g: Graph) {
    && (match g.kind
        case ReadOnlyInventory => |g.covered| == 0
        case BoundedEffectOnly => |g.covered| > 0
        case ExactGraph => |g.covered| > 0
        case ExactTarget => |g.covered| == 1
        case OtherGuarantee(_) => false)
    && (forall i :: 0 <= i < |g.covered| ==> ok(g.covered[i]))
    && Sorted(RefLess, g.covered)
  }

  predicate Covers(g: Graph) {
    && (forall i :: 0 <= i < |g.covered| ==> HasNode(g.nodes, g.covered[i]))
    && (g.kind == ExactGraph ==> |g.nodes| == |g.covered| && forall i :: 0 <= i < |g.nodes| ==> g.nodes[i].ref == g.covered[i])
  }

  predicate Accepts(ok: RefCheck, g: Graph) {
    && g.soundHeader && g.nodes != []
    && (forall i :: 0 <= i < |g.nodes| ==> SoundNode(ok, g.nodes[i])) && Sorted(NodeLess, g.nodes)
    && (forall i :: 0 <= i < |g.edges| ==> SoundEdge(ok, g.nodes, g.edges[i])) && Sorted(EdgeLess, g.edges)
    && SoundGuarantee(ok, g) && Covers(g)
  }

  // ----- the same without an order -----

  predicate IsNode(g: Graph, r: Ref) {
    exists n :: n in g.nodes && n.ref == r
  }

  /** No reference has two nodes. */
  predicate OneNodeEach(nodes: seq<Node>) {
    forall m, n :: m in nodes && n in nodes && m.ref == n.ref ==> m == n
  }

  predicate ConsistentNodes(ok: RefCheck, g: Graph) {
    && |g.nodes| > 0 && (forall n :: n in g.nodes ==> ok(n.ref) && |n.version| > 0)
    && Distinct(g.nodes) && OneNodeEach(g.nodes)
  }

  predicate ConsistentEdges(ok: RefCheck, g: Graph) {
    && (forall e :: e in g.edges ==>
          && ok(e.from) && ok(e.to) && IsNode(g, e.from) && IsNode(g, e.to) && e.from != e.to
          && e.reason in [Ascii("dependency"), Ascii("replacement"), Ascii("conflict"), Ascii("removal")])
    && Distinct(g.edges)
  }

  predicate ConsistentGuarantee(ok: RefCheck, g: Graph) {
    && (forall r :: r in g.covered ==> ok(r) && IsNode(g, r)) && Distinct(g.covered)
    && (g.kind == ReadOnlyInventory ==> |g.covered| == 0)
    && (g.kind in {BoundedEffectOnly, ExactGraph} ==> |g.covered| >= 1)
    && (g.kind == ExactTarget ==> |g.covered| == 1)
    && (g.kind == ExactGraph ==> forall n :: n in g.nodes ==> n.ref in g.covered)
    && !g.kind.OtherGuarantee?
  }

  /** What makes the facts of a graph acceptable, in whatever order they are listed. */
  predicate Consistent(ok: RefCheck, g: Graph) {
    g.soundHeader && ConsistentNodes(ok, g) && ConsistentEdges(ok, g) && ConsistentGuarantee(ok, g)
  }

  predicate InOrder(g: Graph) {
    Sorted(NodeLess, g.nodes) && Sorted(EdgeLess, g.edges) && Sorted(RefLess, g.covered)
  }

  /** References are ordered by identifier and then by scope, edges by source, target and then reason. */
  lemma OrdersExactly(a: Ref, b: Ref, d: Edge, e: Edge)
    ensures RefLess(a, b) <==> Less(a.id, b.id) || (a.id == b.id && Less(a.scope, b.scope))
    ensures EdgeLess(d, e) <==>
              RefLess(d.from, e.from) || (d.from == e.from && (RefLess(d.to, e.to) || (d.to == e.to && Less(d.reason, e.reason))))
  {
    RefOrder();
    if a.id == b.id && Less(a.id, b.id) { LessAsymmetric(a.id, b.id); }
    hide Less;
  }

  lemma SortedIsDistinct<T(!new)>(less: (T, T) -> bool, s: seq<T>)
    requires StrictOrder(less) && Sorted(less, s)
    ensures Distinct(s)
  {
  }

  lemma HasNodeExactly(g: Graph, r: Ref)
    ensures HasNode(g.nodes, r) <==> IsNode(g, r)
  {
    if IsNode(g, r) {
      var n :| n in g.nodes && n.ref == r;
      var i :| 0 <= i < |g.nodes| && g.nodes[i] == n;
    }
  }

  /** Validation accepts exactly the graphs whose facts are consistent and in order. */
  lemma AcceptsExactly(ok: RefCheck, g: Graph)
    ensures Accepts(ok, g) <==> Consistent(ok, g) && InOrder(g)
  {
    forall r ensures HasNode(g.nodes, r) <==> IsNode(g, r) { HasNodeExactly(g, r); }
    NodeOrder();
    EdgeOrder();
    RefOrder();
    if InOrder(g) {
      OneEach(g);
      NodesExactly(ok, g);
      EdgesExactly(ok, g);
      GuaranteeExactly(ok, g);
    }
    hide HasNode, IsNode, NodeLess, EdgeLess, RefLess, SoundNode, SoundEdge, ConsistentNodes, ConsistentEdges, ConsistentGuarantee, Covers, Sorted, Distinct;
  }

  lemma NodesExactly(ok: RefCheck, g: Graph)
    requires Distinct(g.nodes) && OneNodeEach(g.nodes)
    ensures ConsistentNodes(ok, g) <==> g.nodes != [] && forall i :: 0 <= i < |g.nodes| ==> SoundNode(ok, g.nodes[i])
  {
    hide Distinct, OneNodeEach;
  }

  lemma EdgesExactly(ok: RefCheck, g: Graph)
    requires Distinct(g.edges) && forall r :: HasNode(g.nodes, r) <==> IsNode(g, r)
    ensures ConsistentEdges(ok, g) <==> forall i :: 0 <= i < |g.edges| ==> SoundEdge(ok, g.nodes, g.edges[i])
  {
    hide HasNode, IsNode, Distinct;
    if ConsistentEdges(ok, g) {
      forall i | 0 <= i < |g.edges| ensures SoundEdge(ok, g.nodes, g.edges[i]) { assert g.edges[i] in g.edges; }
    }
    if forall i :: 0 <= i < |g.edges| ==> SoundEdge(ok, g.nodes, g.edges[i]) {
      forall e | e in g.edges ensures SoundEdge(ok, g.nodes, e) { var i :| 0 <= i < |g.edges| && g.edges[i] == e; }
    }
  }

  lemma GuaranteeExactly(ok: RefCheck, g: Graph)
    requires InOrder(g) && StrictOrder(RefLess) && Distinct(g.covered) && forall r :: HasNode(g.nodes, r) <==> IsNode(g, r)
    ensures ConsistentGuarantee(ok, g) <==> SoundGuarantee(ok, g) && Covers(g)
  {
    if ConsistentGuarantee(ok, g) && g.kind == ExactGraph { CoversAll(g); }
    hide HasNode, IsNode, Distinct, NodeLess, EdgeLess, RefLess, StrictOrder;
    if SoundGuarantee(ok, g) && Covers(g) {
      forall r | r in g.covered ensures ok(r) && IsNode(g, r) { var i :| 0 <= i < |g.covered| && g.covered[i] == r; }
      if g.kind == ExactGraph {
        forall n | n in g.nodes ensures n.ref in g.covered { var i :| 0 <= i < |g.nodes| && g.nodes[i] == n; assert g.covered[i] == n.ref; }
      }
    }
  }

  lemma OneEach(g: Graph)
    requires InOrder(g) && StrictOrder(NodeLess) && StrictOrder(EdgeLess) && StrictOrder(RefLess)
    ensures Distinct(g.nodes) && Distinct(g.edges) && Distinct(g.covered)
    ensures OneNodeEach(g.nodes)
  {
    hide RefLess, EdgeLess;
    SortedIsDistinct(NodeLess, g.nodes);
    SortedIsDistinct(EdgeLess, g.edges);
    SortedIsDistinct(RefLess, g.covered);
    forall m, n | m in g.nodes && n in g.nodes && m != n ensures m.ref != n.ref { OtherReference(g, m, n); }
  }

  lemma OtherReference(g: Graph, m: Node, n: Node)
    requires StrictOrder(RefLess) && Sorted(NodeLess, g.nodes) && m in g.nodes && n in g.nodes && m != n
    ensures m.ref != n.ref
  {
    var i :| 0 <= i < |g.nodes| && g.nodes[i] == m;
    var j :| 0 <= j < |g.nodes| && g.nodes[j] == n;
    hide RefLess;
    assert NodeLess(m, n) || NodeLess(n, m);
  }

  function References(nodes: seq<Node>): seq<Ref> {
    seq(|nodes|, i requires 0 <= i < |nodes| => nodes[i].ref)
  }

  /** Covering all nodes and only nodes, in order, is covering them one by one. */
  lemma CoversAll(g: Graph)
    requires StrictOrder(RefLess) && InOrder(g)
    requires forall r :: r in g.covered ==> IsNode(g, r)
    requires forall n :: n in g.nodes ==> n.ref in g.covered
    ensures |g.nodes| == |g.covered| && forall i :: 0 <= i < |g.nodes| ==> g.nodes[i].ref == g.covered[i]
  {
    var refs := References(g.nodes);
    assert Sorted(RefLess, refs) by {
      forall i, j | 0 <= i < j < |refs| ensures RefLess(refs[i], refs[j]) { assert NodeLess(g.nodes[i], g.nodes[j]); }
    }
    hide RefLess, EdgeLess;
    forall r ensures r in refs <==> r in g.covered {
      if r in refs { var i :| 0 <= i < |refs| && refs[i] == r; assert g.nodes[i] in g.nodes; }
      if r in g.covered {
        var n :| n in g.nodes && n.ref == r;
        var i :| 0 <= i < |g.nodes| && g.nodes[i] == n;
        assert refs[i] == r;
      }
    }
    SortedUnique(RefLess, refs, g.covered);
  }

  // ----- validation as it is done -----

  /** Each element below the next one is the same as sorted, for an order. */
  lemma {:induction false} AdjacentSorts<T(!new)>(less: (T, T) -> bool, s: seq<T>, i: nat, j: nat)
    requires StrictOrder(less) && i < j < |s| && forall k :: 0 < k < |s| ==> less(s[k - 1], s[k])
    ensures less(s[i], s[j])
    decreases j
  {
    assert less(s[j - 1], s[j]);
    if i < j - 1 { AdjacentSorts(less, s, i, j - 1); }
  }

  method StrictlySorted<T(!new)>(less: (T, T) -> bool, s: seq<T>) returns (sorted: bool)
    requires StrictOrder(less)
    ensures sorted <==> Sorted(less, s)
  {
    var index := 1;
    while index < |s|
      invariant 1 <= index && (|s| > 0 ==> index <= |s|)
      invariant forall k :: 0 < k < index && k < |s| ==> less(s[k - 1], s[k])
    {
      if !less(s[index - 1], s[index]) { return false; }
      index := index + 1;
    }
    forall i, j | 0 <= i < j < |s| ensures less(s[i], s[j]) { AdjacentSorts(less, s, i, j); }
    return true;
  }

  /** Binary search over sorted nodes finds a reference exactly if some node has it. */
  method FindNode(nodes: seq<Node>, r: Ref) returns (found: bool)
    requires Sorted(NodeLess, nodes)
    ensures found <==> HasNode(nodes, r)
  {
    RefOrder();
    hide RefLess;
    var low, high := 0, |nodes|;
    while low < high
      invariant 0 <= low <= high <= |nodes|
      invariant forall i :: 0 <= i < low ==> RefLess(nodes[i].ref, r)
      invariant forall i :: high <= i < |nodes| ==> !RefLess(nodes[i].ref, r)
    {
      var middle := low + (high - low) / 2;
      if !RefLess(nodes[middle].ref, r) {
        forall i | middle <= i < |nodes| ensures !RefLess(nodes[i].ref, r) {
          if middle < i { assert NodeLess(nodes[middle], nodes[i]); }
        }
        high := middle;
      } else {
        forall i | 0 <= i <= middle ensures RefLess(nodes[i].ref, r) {
          if i < middle { assert NodeLess(nodes[i], nodes[middle]); }
        }
        low := middle + 1;
      }
    }
    found := low < |nodes| && nodes[low].ref == r;
    if HasNode(nodes, r) {
      var i :| 0 <= i < |nodes| && nodes[i].ref == r;
      assert low < i ==> NodeLess(nodes[low], nodes[i]);
      assert i == low;
    }
  }

  method ValidateEdges(ok: RefCheck, g: Graph) returns (sound: bool)
    requires Sorted(NodeLess, g.nodes)
    ensures sound <==> (forall i :: 0 <= i < |g.edges| ==> SoundEdge(ok, g.nodes, g.edges[i])) && Sorted(EdgeLess, g.edges)
  {
    hide ValidReason, HasNode, EdgeLess, NodeLess;
    EdgeOrder();
    var index := 0;
    while index < |g.edges|
      invariant 0 <= index <= |g.edges|
      invariant forall i :: 0 <= i < index ==> SoundEdge(ok, g.nodes, g.edges[i])
    {
      var e := g.edges[index];
      if !ok(e.from) || !ok(e.to) || e.from == e.to || !ValidReason(e.reason) { return false; }
      var from := FindNode(g.nodes, e.from);
      if !from { return false; }
      var to := FindNode(g.nodes, e.to);
      if !to { return false; }
      index := index + 1;
    }
    sound := StrictlySorted(EdgeLess, g.edges);
  }

  method ValidateGuarantee(ok: RefCheck, g: Graph) returns (sound: bool)
    requires Sorted(NodeLess, g.nodes)
    ensures sound <==> SoundGuarantee(ok, g) && Covers(g)
  {
    RefOrder();
    hide HasNode, RefLess, NodeLess;
    match g.kind {
      case ReadOnlyInventory => if |g.covered| != 0 { return false; }
      case BoundedEffectOnly => if |g.covered| == 0 { return false; }
      case ExactGraph => if |g.covered| == 0 { return false; }
      case ExactTarget => if |g.covered| != 1 { return false; }
      case OtherGuarantee(_) => return false;
    }
    var index := 0;
    while index < |g.covered|
      invariant 0 <= index <= |g.covered|
      invariant forall i :: 0 <= i < index ==> ok(g.covered[i]) && HasNode(g.nodes, g.covered[i])
    {
      if !ok(g.covered[index]) { return false; }
      var found := FindNode(g.nodes, g.covered[index]);
      if !found { return false; }
      index := index + 1;
    }
    sound := StrictlySorted(RefLess, g.covered);
    if !sound { return false; }
    if g.kind != ExactGraph { return true; }
    if |g.nodes| != |g.covered| { return false; }
    index := 0;
    while index < |g.nodes|
      invariant 0 <= index <= |g.nodes|
      invariant forall i :: 0 <= i < index ==> g.nodes[i].ref == g.covered[i]
    {
      if g.nodes[index].ref != g.covered[index] { return false; }
      index := index + 1;
    }
    return true;
  }

  method Validate(ok: RefCheck, g: Graph) returns (sound: bool)
    ensures sound <==> Accepts(ok, g)
  {
    hide SoundEdge, SoundGuarantee, Covers, NodeLess, EdgeLess;
    if !g.soundHeader || |g.nodes| == 0 { return false; }
    var index := 0;
    while index < |g.nodes|
      invariant 0 <= index <= |g.nodes|
      invariant forall i :: 0 <= i < index ==> SoundNode(ok, g.nodes[i])
    {
      if !SoundNode(ok, g.nodes[index]) { return false; }
      index := index + 1;
    }
    NodeOrder();
    sound := StrictlySorted(NodeLess, g.nodes);
    if !sound { return false; }
    sound := ValidateEdges(ok, g);
    if !sound { return false; }
    sound := ValidateGuarantee(ok, g);
  }

  // ----- canonical graphs -----

  /** The same facts, listed differently. */
  ghost predicate SameFacts(g: Graph, h: Graph) {
    && g.soundHeader == h.soundHeader && g.kind == h.kind
    && multiset(g.nodes) == multiset(h.nodes) && multiset(g.edges) == multiset(h.edges) && multiset(g.covered) == multiset(h.covered)
  }

  /** h is g after its three lists have been sorted, by whatever algorithm. */
  ghost predicate SortedForm(g: Graph, h: Graph) {
    SameFacts(g, h) && WeaklySorted(NodeLess, h.nodes) && WeaklySorted(EdgeLess, h.edges) && WeaklySorted(RefLess, h.covered)
  }

  lemma StrictIsWeak<T(!new)>(less: (T, T) -> bool, s: seq<T>)
    requires StrictOrder(less) && Sorted(less, s)
    ensures WeaklySorted(less, s)
  {
  }

  /** Sorting first and validating then gives one result for all listings of the same facts: if the sorted form of one
      is accepted, every sorted form of every other listing is that same graph. */
  lemma ListingDoesNotMatter(ok: RefCheck, g: Graph, h: Graph, sg: Graph, sh: Graph)
    requires SameFacts(g, h) && SortedForm(g, sg) && SortedForm(h, sh)
    ensures Accepts(ok, sg) <==> Accepts(ok, sh)
    ensures Accepts(ok, sg) ==> sg == sh
  {
    NodeOrder();
    EdgeOrder();
    RefOrder();
    hide NodeLess, EdgeLess, RefLess, SoundEdge, SoundNode, Covers;
    if Accepts(ok, sg) {
      AnySortAgrees(NodeLess, sg.nodes, sh.nodes);
      AnySortAgrees(EdgeLess, sg.edges, sh.edges);
      AnySortAgrees(RefLess, sg.covered, sh.covered);
    } else if Accepts(ok, sh) {
      AnySortAgrees(NodeLess, sh.nodes, sg.nodes);
      AnySortAgrees(EdgeLess, sh.edges, sg.edges);
      AnySortAgrees(RefLess, sh.covered, sg.covered);
    }
  }

  /** An accepted graph is its own sorted form, and its only one. */
  lemma NormalisingAgainChangesNothing(ok: RefCheck, g: Graph, h: Graph)
    requires Accepts(ok, g) && SortedForm(g, h)
    ensures h == g
  {
    NodeOrder();
    EdgeOrder();
    RefOrder();
    StrictIsWeak(NodeLess, g.nodes);
    StrictIsWeak(EdgeLess, g.edges);
    StrictIsWeak(RefLess, g.covered);
    hide *;
    AcceptedIsSorted(g);
    ListingDoesNotMatter(ok, g, g, g, h);
  }

  lemma AcceptedIsSorted(g: Graph)
    requires WeaklySorted(NodeLess, g.nodes) && WeaklySorted(EdgeLess, g.edges) && WeaklySorted(RefLess, g.covered)
    ensures SameFacts(g, g) && SortedForm(g, g)
  {
  }

  /** On an accepted graph no edge dangles, and an exact-graph guarantee covers exactly the nodes. */
  lemma AcceptedGraph(ok: RefCheck, g: Graph, r: Ref)
    requires Accepts(ok, g)
    ensures forall e :: e in g.edges ==> HasNode(g.nodes, e.from) && HasNode(g.nodes, e.to) && e.from != e.to
    ensures g.kind == ExactGraph ==> (r in g.covered <==> HasNode(g.nodes, r))
  {
    forall e | e in g.edges ensures SoundEdge(ok, g.nodes, e) {
      var i :| 0 <= i < |g.edges| && g.edges[i] == e;
    }
    if g.kind == ExactGraph {
      if HasNode(g.nodes, r) {
        var i :| 0 <= i < |g.nodes| && g.nodes[i].ref == r;
        assert g.covered[i] == r;
      }
      if r in g.covered {
        var i :| 0 <= i < |g.covered| && g.covered[i] == r;
      }
    }
  }

  /** Consistency is a matter of the facts alone. */
  lemma SameFactsSameVerdict(ok: RefCheck, g: Graph, h: Graph)
    requires SameFacts(g, h)
    ensures Consistent(ok, g) <==> Consistent(ok, h)
  {
    SameElements(g.nodes, h.nodes);
    SameElements(g.edges, h.edges);
    SameElements(g.covered, h.covered);
    SameDistinct(g.nodes, h.nodes);
    SameDistinct(g.edges, h.edges);
    SameDistinct(g.covered, h.covered);
    hide Distinct;
    forall r ensures IsNode(g, r) <==> IsNode(h, r) {
      if IsNode(g, r) { var n :| n in g.nodes && n.ref == r; assert n in h.nodes; }
      if IsNode(h, r) { var n :| n in h.nodes && n.ref == r; assert n in g.nodes; }
    }
    hide IsNode;
  }

  lemma SameDistinct<T>(s: seq<T>, t: seq<T>)
    requires multiset(s) == multiset(t)
    ensures Distinct(s) <==> Distinct(t)
  {
    DistinctCounts(s);
    DistinctCounts(t);
  }

  /** Sorting and validating accepts exactly the consistent facts. */
  method NewTransactionGraph(ok: RefCheck, g: Graph) returns (result: Option<Graph>)
    ensures result.Some? <==> Consistent(ok, g)
    ensures result.Some? ==> SameFacts(g, result.value) && InOrder(result.value)
  {
    var cloned := g.(nodes := Sort(NodeLess, g.nodes), edges := Sort(EdgeLess, g.edges), covered := Sort(RefLess, g.covered));
    SameFactsSameVerdict(ok, g, cloned);
    if Consistent(ok, g) { ConsistentSorts(ok, g); }
    AcceptsExactly(ok, cloned);
    hide Consistent, InOrder;
    var sound := Validate(ok, cloned);
    return if sound then Some(cloned) else None;
  }

  /** Consistent facts can be put in order: no two of them are equal, and the orders compare any two others. */
  lemma ConsistentSorts(ok: RefCheck, g: Graph)
    requires Consistent(ok, g)
    ensures InOrder(g.(nodes := Sort(NodeLess, g.nodes), edges := Sort(EdgeLess, g.edges), covered := Sort(RefLess, g.covered)))
  {
    NodeOrder();
    EdgeOrder();
    RefOrder();
    forall i, j | 0 <= i < |g.nodes| && 0 <= j < |g.nodes| && i != j
      ensures NodeLess(g.nodes[i], g.nodes[j]) || NodeLess(g.nodes[j], g.nodes[i])
    {
      assert g.nodes[i] in g.nodes && g.nodes[j] in g.nodes;
      assert g.nodes[i] != g.nodes[j];
    }
    forall d: Edge, e: Edge | d != e ensures EdgeLess(d, e) || EdgeLess(e, d) { LessTrichotomy(d.reason, e.reason); }
    hide NodeLess, EdgeLess, RefLess;
    DistinctCompares(EdgeLess, g.edges);
    DistinctCompares(RefLess, g.covered);
    SortSorts(NodeLess, g.nodes);
    SortSorts(EdgeLess, g.edges);
    SortSorts(RefLess, g.covered);
  }

  lemma DistinctCompares<T(!new)>(less: (T, T) -> bool, s: seq<T>)
    requires Distinct(s) && forall x, y :: x != y ==> less(x, y) || less(y, x)
    ensures Comparable(less, s)
  {
    forall i, j | 0 <= i < |s| && 0 <= j < |s| && i != j ensures less(s[i], s[j]) || less(s[j], s[i]) {
      assert s[i] != s[j];
    }
  }
}
