/** A filesystem as a map from paths to nodes, and what it means to take a subtree away or rename it. */
module Filesystem {
  import opened Base

  type Path = seq<bytes>

  datatype Kind = Regular | Directory | Special

  /** A node is recognised by its identity, which a rename keeps. */
  datatype Node = Node(kind: Kind, identity: nat)

  type Tree = map<Path, Node>

  /** Every entry is in a directory. */
  predicate Rooted(t: Tree) {
    forall q :: q in t && q != [] ==> q[..|q| - 1] in t && t[q[..|q| - 1]].kind == Directory
  }

  lemma {:induction false} PrefixIsDirectory(t: Tree, q: Path, n: nat)
    requires Rooted(t) && q in t && n < |q|
    ensures q[..n] in t && t[q[..n]].kind == Directory
    decreases |q|
  {
    var parent := q[..|q| - 1];
    assert parent in t;
    if n < |q| - 1 {
      PrefixIsDirectory(t, parent, n);
      assert parent[..n] == q[..n];
    }
  }

  /** Nothing lies below anything but a directory. */
  lemma OnlyDirectoriesHold(t: Tree, p: Path, q: Path)
    requires Rooted(t) && q in t && p <= q && p != q
    ensures p in t && t[p].kind == Directory && p + [q[|p|]] in t
  {
    PrefixIsDirectory(t, q, |p|);
    assert q[..|p|] == p;
    assert q[..|p| + 1] == p + [q[|p|]];
    if |p| + 1 < |q| { PrefixIsDirectory(t, q, |p| + 1); } else { assert q[..|p| + 1] == q; }
  }

  /** t without the subtree at p. */
  function Without(t: Tree, p: Path): Tree {
    map q | q in t && !(p <= q) :: t[q]
  }

  /** t without the subtrees of the named children of p. */
  function WithoutChildren(t: Tree, p: Path, names: seq<bytes>): Tree {
    map q | q in t && !(p <= q && |q| > |p| && q[|p|] in names) :: t[q]
  }

  lemma WithoutNextChild(t: Tree, p: Path, names: seq<bytes>, n: bytes)
    ensures Without(WithoutChildren(t, p, names), p + [n]) == WithoutChildren(t, p, names + [n])
  {
    forall q ensures p + [n] <= q <==> p <= q && |q| > |p| && q[|p|] == n {
      if p <= q && |q| > |p| && q[|p|] == n { assert q[..|p| + 1] == p + [n]; }
    }
  }

  /** after has lost only entries at or below p, and no entry whose descendants it kept. */
  ghost predicate Pruned(before: Tree, after: Tree, p: Path) {
    && (forall q :: q in after ==> q in before && after[q] == before[q])
    && (forall q :: q in before && q !in after ==> p <= q)
    && (forall q, r :: q in before && q !in after && q <= r ==> r !in after)
  }

  lemma PrunedStaysRooted(before: Tree, after: Tree, p: Path)
    requires Rooted(before) && Pruned(before, after, p)
    ensures Rooted(after)
  {
    forall q | q in after && q != [] ensures q[..|q| - 1] in after && after[q[..|q| - 1]].kind == Directory {
      var parent := q[..|q| - 1];
      assert parent <= q;
      assert parent in before;
    }
  }

  lemma WithoutIsPruned(t: Tree, p: Path)
    ensures Pruned(t, Without(t, p), p)
  {
  }

  /** Losing some whole children of p and then part of another one is losing part of p. */
  lemma ChildPruned(t: Tree, p: Path, names: seq<bytes>, n: bytes, after: Tree)
    requires Pruned(WithoutChildren(t, p, names), after, p + [n])
    ensures Pruned(t, after, p)
  {
    var middle := WithoutChildren(t, p, names);
    forall q | q in t && q !in after ensures p <= q {
      if q in middle { assert p + [n] <= q; assert p <= p + [n]; }
    }
    forall q, r | q in t && q !in after && q <= r ensures r !in after {
      if q !in middle { assert r !in middle; }
    }
  }

  /** The names in a directory. */
  ghost predicate Lists(t: Tree, p: Path, names: seq<bytes>) {
    forall n :: n in names <==> p + [n] in t
  }

  /** With all its children gone a directory is an empty one. */
  lemma NoChildren(t: Tree, p: Path, names: seq<bytes>)
    requires Rooted(t) && Lists(t, p, names)
    ensures forall q :: q in WithoutChildren(t, p, names) && p <= q ==> q == p
    ensures Without(WithoutChildren(t, p, names), p) == Without(t, p)
  {
    forall q | q in t && p <= q && q != p ensures q[|p|] in names {
      OnlyDirectoriesHold(t, p, q);
    }
  }

  // ----- renaming -----

  ghost predicate Apart(p: Path, q: Path) {
    !(p <= q) && !(q <= p)
  }

  /** Where the entry at q was before the subtree at `from` was renamed to `to`. */
  function Before(q: Path, from: Path, to: Path): Path {
    if to <= q then from + q[|to|..] else q
  }

  /** The subtree at `from`, now at `to`. */
  ghost function Renamed(t: Tree, from: Path, to: Path): Tree {
    var kept := set q | q in t && !(from <= q);
    var moved := set q | q in t && from <= q :: to + q[|from|..];
    map q | q in kept + moved && Before(q, from, to) in t :: t[Before(q, from, to)]
  }

  /** What the kernel answers to a no-replace rename, and whether an error it reports came too late. */
  datatype RenameAnswer = RenameAnswer(failure: Option<Errno>, applied: bool)

  /** The tree after a no-replace rename, and what is reported: never over an existing entry; after an error outside
      the list of those that mean no effect the entry may have moved all the same. */
  ghost function RenameOutcome(t: Tree, from: Path, to: Path, r: RenameAnswer): (Tree, Option<Errno>) {
    if from !in t || to in t then (t, if r.failure.Some? then r.failure else Some(if from !in t then ENOENT else EEXIST))
    else if r.failure.None? || (r.applied && r.failure.value !in NO_EFFECT) then (Renamed(t, from, to), r.failure)
    else (t, r.failure)
  }

  /** Entry by entry: everything under `to` comes from under `from`, the rest stays. */
  lemma RenamedAt(t: Tree, from: Path, to: Path, q: Path)
    requires Rooted(t) && Apart(from, to) && to !in t
    ensures q in Renamed(t, from, to) <==> Before(q, from, to) in t && !(from <= q)
    ensures q in Renamed(t, from, to) ==> Renamed(t, from, to)[q] == t[Before(q, from, to)]
  {
    if to <= q {
      if q in t && q != to { OnlyDirectoriesHold(t, to, q); }
      var prior := from + q[|to|..];
      assert prior[|from|..] == q[|to|..] && q == to + q[|to|..];
      if prior in t { assert to + prior[|from|..] == q; }
    }
  }

  lemma BothPrefix(p: Path, q: Path, r: Path)
    requires p <= r && q <= r
    ensures !Apart(p, q)
  {
    if |p| <= |q| { assert p == q[..|p|]; } else { assert q == p[..|q|]; }
  }

  /** A rename to a free place moves the whole subtree and nothing else. */
  lemma RenamedMoves(t: Tree, from: Path, to: Path, q: Path)
    requires Rooted(t) && Apart(from, to) && to !in t && from in t
    ensures to in Renamed(t, from, to) && Renamed(t, from, to)[to] == t[from] && from !in Renamed(t, from, to)
    ensures !(from <= q) && !(to <= q) ==> (q in Renamed(t, from, to) <==> q in t) && (q in t ==> Renamed(t, from, to)[q] == t[q])
  {
    RenamedAt(t, from, to, to);
    RenamedAt(t, from, to, from);
    RenamedAt(t, from, to, q);
    assert from + to[|to|..] == from;
  }

  lemma RenamedRooted(t: Tree, from: Path, to: Path)
    requires Rooted(t) && Apart(from, to) && to !in t && from in t
    requires to != [] && to[..|to| - 1] in t && t[to[..|to| - 1]].kind == Directory && !(from <= to[..|to| - 1])
    ensures Rooted(Renamed(t, from, to))
  {
    var u := Renamed(t, from, to);
    forall q | q in u && q != [] ensures q[..|q| - 1] in u && u[q[..|q| - 1]].kind == Directory {
      RenamedParent(t, from, to, q);
    }
  }

  lemma RenamedParent(t: Tree, from: Path, to: Path, q: Path)
    requires Rooted(t) && Apart(from, to) && to !in t && from in t && q != [] && q in Renamed(t, from, to)
    requires to != [] && to[..|to| - 1] in t && t[to[..|to| - 1]].kind == Directory && !(from <= to[..|to| - 1])
    ensures q[..|q| - 1] in Renamed(t, from, to) && Renamed(t, from, to)[q[..|q| - 1]].kind == Directory
  {
    hide Renamed;
    var parent := q[..|q| - 1];
    RenamedAt(t, from, to, q);
    RenamedAt(t, from, to, parent);
    ParentBefore(from, to, q);
  }

  lemma ParentBefore(from: Path, to: Path, q: Path)
    requires q != [] && to != []
    ensures var parent := q[..|q| - 1];
            if to <= q && q != to then Before(q, from, to) != [] && Before(q, from, to)[..|Before(q, from, to)| - 1] == Before(parent, from, to)
            else Before(parent, from, to) == parent
  {
    var parent := q[..|q| - 1];
    if to <= q && q != to {
      assert to <= parent;
      assert (from + q[|to|..])[..|from| + |q| - |to| - 1] == from + parent[|to|..];
    }
  }

  /** Renaming back undoes a rename. */
  lemma RenameBack(t: Tree, from: Path, to: Path)
    requires Rooted(t) && Apart(from, to) && to !in t && from in t && Rooted(Renamed(t, from, to))
    ensures Renamed(Renamed(t, from, to), to, from) == t
  {
    hide *;
    RenamedMoves(t, from, to, from);
    var v := Renamed(Renamed(t, from, to), to, from);
    forall q ensures (q in v <==> q in t) && (q in t ==> v[q] == t[q]) { RenameBackAt(t, from, to, q); }
  }

  lemma RenameBackAt(t: Tree, from: Path, to: Path, q: Path)
    requires Rooted(t) && Apart(from, to) && to !in t && from in t
    requires Rooted(Renamed(t, from, to)) && from !in Renamed(t, from, to)
    ensures var v := Renamed(Renamed(t, from, to), to, from); (q in v <==> q in t) && (q in t ==> v[q] == t[q])
  {
    hide Renamed, Rooted;
    var u := Renamed(t, from, to);
    RenamedAt(u, to, from, q);
    RenamedAt(t, from, to, Before(q, to, from));
    RoundTrip(t, from, to, q);
  }

  lemma RoundTrip(t: Tree, from: Path, to: Path, q: Path)
    requires Rooted(t) && Apart(from, to) && to !in t
    ensures from <= q ==> Before(Before(q, to, from), from, to) == q && !(from <= Before(q, to, from)) && !(to <= q)
    ensures q in t ==> !(to <= q)
  {
    if from <= q {
      assert Before(q, to, from)[|to|..] == q[|from|..];
      assert from + q[|from|..] == q;
      if to <= q { BothPrefix(from, to, q); }
      if from <= Before(q, to, from) { BothPrefix(from, to, Before(q, to, from)); }
    }
    if q in t && to <= q && q != to { OnlyDirectoriesHold(t, to, q); }
  }
}
