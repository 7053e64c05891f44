/** A staged object: content moved under a private token, then verified, restored or removed exactly once. */
module Staging {
  import opened Base
  import opened PathBytes
  import opened Filesystem
  import opened Sorting

  const MAXIMUM_DEPTH := 120

  datatype Stage = Verified | Removing | Removed | Retained | Restored | Indeterminate | Closed

  datatype StageError = Drifted | Interrupted | Unsupported | KeptBack

  // ----- the states an object can go through -----

  datatype Operation = Verify | Restore | Remove | Close

  datatype Issued = Nothing | RenameBack | Unlinks

  datatype Event = Event(operation: Operation, before: Stage, after: Stage, issued: Issued)

  /** What one call may do. */
  predicate Allowed(e: Event) {
    match e.operation
    case Close => e.after == Closed && e.issued == Nothing
    case Verify => e.issued == Nothing && (e.after == e.before || (e.before == Verified && e.after == Retained))
    case Restore =>
      || (e.issued == Nothing && (e.after == e.before || (e.before == Verified && e.after == Retained)))
      || (e.issued == RenameBack && e.before == Verified && (e.after == Restored || e.after == Retained || e.after == Indeterminate))
    case Remove =>
      || (e.issued == Nothing && (e.after == e.before || (e.before == Verified && e.after == Retained)))
      || (e.issued == Unlinks && e.before == Verified && (e.after == Removed || e.after == Indeterminate))
  }

  /** A whole life, from what staging returned. */
  predicate Life(trace: seq<Event>) {
    && (forall i :: 0 <= i < |trace| ==> Allowed(trace[i]))
    && (forall i :: 0 < i < |trace| ==> trace[i].before == trace[i - 1].after)
    && (|trace| > 0 ==> trace[0].before == Verified || trace[0].before == Retained || trace[0].before == Indeterminate)
  }

  /** Verified is never entered again. */
  lemma {:induction false} NeverVerifiedAgain(trace: seq<Event>, i: nat, j: nat)
    requires Life(trace) && i <= j < |trace| && trace[i].after != Verified
    ensures trace[j].after != Verified
    decreases j
  {
    assert Allowed(trace[j]);
    if i < j { NeverVerifiedAgain(trace, i, j - 1); }
  }

  /** In a whole life at most one call moves the content back or unlinks anything, and it found the object verified. */
  lemma {:induction false} IssuedOnce(trace: seq<Event>, i: nat, j: nat)
    requires Life(trace) && i < |trace| && j < |trace| && trace[i].issued != Nothing && trace[j].issued != Nothing
    ensures i == j && trace[i].before == Verified
  {
    assert Allowed(trace[i]) && Allowed(trace[j]);
    if i < j { NeverVerifiedAgain(trace, i, j - 1); }
    if j < i { NeverVerifiedAgain(trace, j, i - 1); }
  }

  lemma {:induction false} ReachedFrom(trace: seq<Event>, i: nat)
    requires Life(trace) && i < |trace|
    ensures trace[i].after == Restored ==> exists j :: 0 <= j <= i && trace[j].issued == RenameBack
    ensures trace[i].after == Removed ==> exists j :: 0 <= j <= i && trace[j].issued == Unlinks
  {
    assert Allowed(trace[i]);
    if i > 0 && trace[i].issued == Nothing { ReachedFrom(trace, i - 1); }
  }

  /** An object that was ever restored was never removed. */
  lemma RestoredOrRemoved(trace: seq<Event>, i: nat, j: nat)
    requires Life(trace) && i < |trace| && j < |trace| && trace[i].after == Restored
    ensures trace[j].after != Removed
  {
    ReachedFrom(trace, i);
    ReachedFrom(trace, j);
    if trace[j].after == Removed {
      var k :| 0 <= k <= i && trace[k].issued == RenameBack;
      var l :| 0 <= l <= j && trace[l].issued == Unlinks;
      IssuedOnce(trace, k, l);
      assert false;
    }
  }

  lemma LifeGoesOn(trace: seq<Event>, e: Event)
    requires Life(trace) && Allowed(e)
    requires if trace == [] then e.before == Verified || e.before == Retained || e.before == Indeterminate else e.before == trace[|trace| - 1].after
    ensures Life(trace + [e])
  {
  }

  // ----- errors of a rename -----

  /** Staging takes only these errors for "may have moved". */
  predicate StageMayHaveMoved(e: Errno) { e == EINTR || e == EAGAIN }

  function StageFailure(e: Errno): StageError {
    match e
    case EXDEV => Unsupported
    case ENOSYS => Unsupported
    case EINVAL => Unsupported
    case EOPNOTSUPP => Unsupported
    case _ => Drifted
  }

  /** Restoring takes only these for "did not move". */
  predicate RestoreDidNotMove(e: Errno) { e == EEXIST || e == ENOTEMPTY || e == EXDEV }

  /** All that restoring takes for no effect is promised by the kernel to be none; staging promises itself more. */
  lemma ErrorsExactly(e: Errno)
    ensures StageMayHaveMoved(e) <==> e in {EINTR, EAGAIN}
    ensures StageFailure(e) == if e in {EXDEV, ENOSYS, EINVAL, EOPNOTSUPP} then Unsupported else Drifted
    ensures (RestoreDidNotMove(e) <==> e in {EEXIST, ENOTEMPTY, EXDEV}) && (RestoreDidNotMove(e) ==> e in NO_EFFECT)
  {
  }

  // ----- removable trees -----

  /** Nothing but files and directories under names of one component, and none more than 120 levels down. */
  ghost predicate Removable(t: Tree, p: Path, depth: nat) {
    p in t && forall q :: q in t && p <= q ==> Fit(t, q) && depth + |q| - |p| <= MAXIMUM_DEPTH
  }

  /** A file or directory with a name that one can ask for. */
  predicate Fit(t: Tree, q: Path)
    requires q in t
  {
    t[q].kind != Special && q != [] && ValidComponent(q[|q| - 1])
  }

  lemma RemovableExactly(t: Tree, p: Path)
    ensures Removable(t, p, 0) <==>
              p in t && forall q :: q in t && p <= q ==>
                t[q].kind in {Regular, Directory} && |q| <= |p| + 120 && |q| > 0 && ValidComponent(q[|q| - 1])
  {
  }

  /** A directory can be removed exactly if it is fit itself and all its children can. */
  lemma RemovableDirectory(t: Tree, p: Path, depth: nat, names: seq<bytes>)
    requires Rooted(t) && p in t && t[p].kind == Directory && Fit(t, p) && depth <= MAXIMUM_DEPTH && Lists(t, p, names)
    ensures Removable(t, p, depth) <==> forall n :: n in names ==> Removable(t, p + [n], depth + 1)
  {
    if forall n :: n in names ==> Removable(t, p + [n], depth + 1) {
      forall q | q in t && p <= q ensures Fit(t, q) && depth + |q| - |p| <= MAXIMUM_DEPTH {
        if q != p {
          OnlyDirectoriesHold(t, p, q);
          assert p + [q[|p|]] <= q by { assert q[..|p| + 1] == p + [q[|p|]]; }
          assert q[|p|] in names;
        }
      }
    }
    if Removable(t, p, depth) {
      forall n | n in names ensures Removable(t, p + [n], depth + 1) {
        forall q | q in t && p + [n] <= q ensures Fit(t, q) && depth + 1 + |q| - |p + [n]| <= MAXIMUM_DEPTH { assert p <= p + [n] <= q; }
      }
    }
  }

  lemma RemovableFile(t: Tree, p: Path, depth: nat)
    requires Rooted(t) && p in t && t[p].kind == Regular && Fit(t, p)
    ensures Removable(t, p, depth) <==> depth <= MAXIMUM_DEPTH
  {
    OnlyItself(t, p);
  }

  lemma UnfitOrDeep(t: Tree, p: Path, depth: nat)
    requires p !in t || !Fit(t, p) || depth > MAXIMUM_DEPTH
    ensures !Removable(t, p, depth)
  {
    assert p <= p;
  }

  /** Taking away other children does not matter. */
  lemma RemovableBeside(t: Tree, p: Path, names: seq<bytes>, n: bytes, depth: nat)
    requires n !in names
    ensures Removable(WithoutChildren(t, p, names), p + [n], depth) <==> Removable(t, p + [n], depth)
  {
    var u := WithoutChildren(t, p, names);
    forall q | p + [n] <= q ensures q in u <==> q in t { assert q[|p|] == (p + [n])[|p|] == n; }
  }

  predicate IsExpected(t: Tree, p: Path, expected: nat) {
    p in t && t[p].identity == expected && t[p].kind != Special
  }

  /** A tree on disk. Every question to the system may end in an error instead of an answer; troubles counts these
      errors. */
  class Disk {
    var tree: Tree
    var troubles: nat

    constructor (tree: Tree)
      ensures this.tree == tree && troubles == 0
    {
      this.tree, troubles := tree, 0;
    }

    /** Whether a step that has no answer fails: the context has ended, a sync fails, a directory cannot be opened. */
    method Trouble() returns (failed: bool)
      modifies this`troubles
      ensures troubles == old(troubles) + if failed then 1 else 0
    {
      failed := *;
      if failed { troubles := troubles + 1; }
    }

    /** The names in a directory, in whatever order the system gives them, or an error. */
    method ReadNames(p: Path) returns (ok: bool, names: seq<bytes>)
      modifies this`troubles
      ensures Lists(tree, p, names) && Distinct(names)
      ensures troubles == old(troubles) + if ok then 0 else 1
    {
      var remaining := set q | q in tree && |q| == |p| + 1 && p <= q :: q[|p|];
      forall n ensures n in remaining <==> p + [n] in tree {
        if p + [n] in tree { assert (p + [n])[|p|] == n; }
        if n in remaining {
          var q :| q in tree && |q| == |p| + 1 && p <= q && q[|p|] == n;
          assert q == p + [n];
        }
      }
      ghost var all := remaining;
      names := [];
      while remaining != {}
        invariant remaining <= all
        invariant forall n :: n in names <==> n in all && n !in remaining
        invariant Distinct(names)
        decreases remaining
      {
        var n :| n in remaining;
        assert n !in names;
        names := names + [n];
        remaining := remaining - {n};
      }
      var failed := Trouble();
      ok := !failed;
    }

    /** The kind of an entry that may be removed, from an opened descriptor. */
    method RemovableEntry(p: Path) returns (kind: Option<Kind>)
      modifies this`troubles
      ensures kind.Some? <==> p in tree && Fit(tree, p) && troubles == old(troubles)
      ensures kind.Some? ==> kind.value == tree[p].kind
      ensures troubles >= old(troubles)
    {
      if p == [] || !ValidComponent(p[|p| - 1]) { return None; }
      var failed := Trouble();
      if failed || p !in tree || tree[p].kind == Special { return None; }
      return Some(tree[p].kind);
    }

    /** Whether an entry is the expected one. */
    method Identify(p: Path, expected: nat) returns (same: bool)
      modifies this`troubles
      ensures same <==> IsExpected(tree, p, expected) && troubles == old(troubles)
      ensures troubles >= old(troubles)
    {
      var failed := Trouble();
      same := !failed && IsExpected(tree, p, expected);
    }

    /** The first pass: it changes nothing, and without an error of the system it accepts exactly what may be removed. */
    method PreflightTree(p: Path, depth: nat) returns (ok: bool)
      requires Rooted(tree)
      modifies this`troubles
      ensures ok <==> Removable(tree, p, depth) && troubles == old(troubles)
      ensures troubles >= old(troubles)
      decreases MAXIMUM_DEPTH + 1 - depth
    {
      hide Rooted, Removable, Lists, ValidComponent;
      if p !in tree || !Fit(tree, p) || depth > MAXIMUM_DEPTH { UnfitOrDeep(tree, p, depth); }
      var failed := Trouble();
      if failed { return false; }
      if depth > MAXIMUM_DEPTH { return false; }
      var kind := RemovableEntry(p);
      if kind.None? { return false; }
      if kind.value == Regular {
        RemovableFile(tree, p, depth);
        return true;
      }
      failed := Trouble();                        // opening the directory
      if failed { return false; }
      var read, names := ReadNames(p);
      if !read { return false; }
      RemovableDirectory(tree, p, depth, names);
      var index := 0;
      while index < |names|
        invariant 0 <= index <= |names| && troubles == old(troubles)
        invariant forall j :: 0 <= j < index ==> Removable(tree, p + [names[j]], depth + 1)
      {
        if !ValidComponent(names[index]) {
          NameUnfit(tree, p, names[index], depth + 1);
          return false;
        }
        var child := PreflightTree(p + [names[index]], depth + 1);
        if !child { return false; }
        index := index + 1;
      }
      return true;
    }

    /** One unlink or rmdir: of a directory only if it is empty; one that fails may have taken effect all the same. */
    method Unlink(p: Path) returns (ok: bool)
      requires Rooted(tree) && p in tree && forall q :: q in tree && p <= q ==> q == p
      modifies this
      ensures tree == Without(old(tree), p) || (!ok && tree == old(tree))
      ensures troubles == old(troubles) + if ok then 0 else 1
    {
      var failed := Trouble();
      if * {
        if failed { return false; }
      }
      tree := map q | q in tree && !(p <= q) :: tree[q];
      ok := !failed;
    }

    /** The second pass. started is set before the first unlink is issued; until then nothing has changed. Without an
        error of the system it removes exactly what may be removed. */
    method RemoveVerifiedEntry(p: Path, depth: nat, started: bool) returns (ok: bool, effect: bool)
      requires Rooted(tree)
      modifies this
      ensures ok <==> Removable(old(tree), p, depth) && troubles == old(troubles)
      ensures ok ==> effect && tree == Without(old(tree), p)
      ensures Pruned(old(tree), tree, p)
      ensures started ==> effect
      ensures !effect ==> tree == old(tree)
      ensures troubles >= old(troubles)
      decreases MAXIMUM_DEPTH + 1 - depth
    {
      hide Rooted, Removable, Lists, Pruned, Without, WithoutChildren, ValidComponent;
      NothingPruned(tree, p);
      effect := started;
      if p !in tree || !Fit(tree, p) || depth > MAXIMUM_DEPTH { UnfitOrDeep(tree, p, depth); }
      var failed := Trouble();
      if failed || depth > MAXIMUM_DEPTH { return false, effect; }
      var kind := RemovableEntry(p);
      if kind.None? { return false, effect; }
      if kind.value == Regular {
        RemovableFile(tree, p, depth);
        failed := Trouble();
        if failed { return false, effect; }
        OnlyItself(tree, p);
        WithoutIsPruned(tree, p);
        ok := Unlink(p);
        return ok, true;
      }
      failed := Trouble();                         // opening the directory
      if failed { return false, effect; }
      var read, names := ReadNames(p);
      if !read { return false, effect; }
      RemovableDirectory(tree, p, depth, names);
      ok, effect := RemoveChildren(p, depth, names, effect);
      if !ok { return false, effect; }
      failed := Trouble();                         // syncing the directory
      if failed { return false, effect; }
      failed := Trouble();                         // the context
      if failed { return false, effect; }
      NoChildren(old(tree), p, names);
      WithoutIsPruned(old(tree), p);
      PrunedStaysRooted(old(tree), tree, p);
      StaysInParent(old(tree), p, names);
      ok := Unlink(p);
      return ok, true;
    }

    /** The loop over a directory's names. */
    method RemoveChildren(p: Path, depth: nat, names: seq<bytes>, started: bool) returns (ok: bool, effect: bool)
      requires Rooted(tree) && depth <= MAXIMUM_DEPTH && Distinct(names)
      modifies this
      ensures ok <==> (forall n :: n in names ==> Removable(old(tree), p + [n], depth + 1)) && troubles == old(troubles)
      ensures ok ==> tree == WithoutChildren(old(tree), p, names)
      ensures Pruned(old(tree), tree, p)
      ensures started ==> effect
      ensures !effect ==> tree == old(tree)
      ensures troubles >= old(troubles)
      decreases MAXIMUM_DEPTH + 1 - depth, 0
    {
      hide Rooted, Removable, Pruned, Without, WithoutChildren, ValidComponent, Distinct;
      effect := started;
      var index := 0;
      NothingGone(tree, p, names);
      NothingPruned(tree, p);
      while index < |names|
        invariant 0 <= index <= |names| && troubles == old(troubles)
        invariant forall j :: 0 <= j < index ==> Removable(old(tree), p + [names[j]], depth + 1)
        invariant tree == WithoutChildren(old(tree), p, names[..index])
        invariant Pruned(old(tree), tree, p) && Rooted(tree)
        invariant started ==> effect
        invariant !effect ==> tree == old(tree)
      {
        if !ValidComponent(names[index]) {
          NameUnfit(old(tree), p, names[index], depth + 1);
          return false, effect;
        }
        AnotherName(names, index);
        RemovableBeside(old(tree), p, names[..index], names[index], depth + 1);
        ok, effect := RemoveVerifiedEntry(p + [names[index]], depth + 1, effect);
        ChildPruned(old(tree), p, names[..index], names[index], tree);
        PrunedStaysRooted(old(tree), tree, p);
        if !ok { return false, effect; }
        WithoutNextChild(old(tree), p, names[..index], names[index]);
        assert names[..index + 1] == names[..index] + [names[index]];
        index := index + 1;
      }
      assert names[..index] == names;
      return true, effect;
    }
  }

  lemma NameUnfit(t: Tree, p: Path, n: bytes, depth: nat)
    requires !ValidComponent(n)
    ensures !Removable(t, p + [n], depth)
  {
    var q := p + [n];
    assert q[|q| - 1] == n;
    UnfitOrDeep(t, q, depth);
  }

  lemma AnotherName(names: seq<bytes>, index: nat)
    requires Distinct(names) && index < |names|
    ensures names[index] !in names[..index]
  {
  }

  lemma NothingGone(t: Tree, p: Path, names: seq<bytes>)
    ensures WithoutChildren(t, p, names[..0]) == t
  {
  }

  lemma NothingPruned(t: Tree, p: Path)
    ensures Pruned(t, t, p)
  {
  }

  /** A directory without its children is still there. */
  lemma StaysInParent(t: Tree, p: Path, names: seq<bytes>)
    requires p in t
    ensures p in WithoutChildren(t, p, names)
  {
  }

  lemma OnlyItself(t: Tree, p: Path)
    requires Rooted(t) && p in t && t[p].kind == Regular
    ensures forall q :: q in t && p <= q ==> q == p
  {
    forall q | q in t && p <= q ensures q == p {
      if q != p { OnlyDirectoriesHold(t, p, q); }
    }
  }
}
