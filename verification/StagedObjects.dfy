/** The object that owns a staged entry, from the no-replace move to its end. */
module StagedObjects {
  import opened Base
  import opened Filesystem
  import opened Staging

  /** Source name and staging token lie in two directories, neither inside the other entry. */
  ghost predicate Placed(t: Tree, source: Path, token: Path) {
    && source != [] && token != [] && Apart(source, token)
    && source[..|source| - 1] in t && t[source[..|source| - 1]].kind == Directory && !(token <= source[..|source| - 1])
    && token[..|token| - 1] in t && t[token[..|token| - 1]].kind == Directory && !(source <= token[..|token| - 1])
  }

  predicate HeldAt(t: Tree, p: Path, expected: nat) {
    p in t && t[p].identity == expected
  }

  /** One call has been added to the life of an object. */
  predicate Recorded(before: seq<Event>, after: seq<Event>, op: Operation, from: Stage, to: Stage) {
    |after| == |before| + 1 && before <= after
    && var e := after[|before|]; e.operation == op && e.before == from && e.after == to
  }

  /** A rename between the two names keeps their places, and the entry is itself at the other one. */
  lemma PlacedAfterRename(t: Tree, source: Path, token: Path, from: Path, to: Path)
    requires Rooted(t) && Placed(t, source, token) && ((from == source && to == token) || (from == token && to == source))
    requires from in t && to !in t
    ensures Rooted(Renamed(t, from, to)) && Placed(Renamed(t, from, to), source, token)
    ensures from !in Renamed(t, from, to) && to in Renamed(t, from, to) && Renamed(t, from, to)[to] == t[from]
  {
    hide Renamed, Rooted;
    var parent, tokenParent := source[..|source| - 1], token[..|token| - 1];
    assert Apart(from, to);
    ShorterApart(source);
    ShorterApart(token);
    assert parent in t && t[parent].kind == Directory && !(from <= parent) && !(to <= parent);
    assert tokenParent in t && t[tokenParent].kind == Directory && !(from <= tokenParent) && !(to <= tokenParent);
    hide Apart;
    RenamedRooted(t, from, to);
    RenamedMoves(t, from, to, parent);
    RenamedMoves(t, from, to, tokenParent);
  }

  lemma ShorterApart(p: Path)
    requires p != []
    ensures !(p <= p[..|p| - 1])
  {
  }

  lemma PlacedAfterPruning(before: Tree, after: Tree, source: Path, token: Path)
    requires Rooted(before) && Placed(before, source, token) && Pruned(before, after, token)
    ensures Rooted(after) && Placed(after, source, token)
  {
    PrunedStaysRooted(before, after, token);
    assert !(token <= token[..|token| - 1]);
  }

  /** The kernel's rename, answered as r says. */
  method RenameNoReplace(disk: Disk, from: Path, to: Path, r: RenameAnswer) returns (failure: Option<Errno>)
    modifies disk`tree
    ensures (disk.tree, failure) == RenameOutcome(old(disk.tree), from, to, r)
  {
    failure := r.failure;
    if from !in disk.tree { return if failure.Some? then failure else Some(ENOENT); }
    if to in disk.tree { return if failure.Some? then failure else Some(EEXIST); }
    if failure.Some? && (!r.applied || failure.value in NO_EFFECT) { return; }
    var moved := (set q | q in disk.tree && !(from <= q)) + (set q | q in disk.tree && from <= q :: to + q[|from|..]);
    disk.tree := map q | q in moved && Before(q, from, to) in disk.tree :: disk.tree[Before(q, from, to)];
  }

  class StagedObject {
    const disk: Disk
    const source: Path
    const token: Path
    const expected: nat
    const removalAuthorized: bool
    var state: Stage
    ghost var trace: seq<Event>

    constructor (disk: Disk, source: Path, token: Path, expected: nat, removalAuthorized: bool, state: Stage)
      ensures this.disk == disk && this.source == source && this.token == token && this.expected == expected
      ensures this.removalAuthorized == removalAuthorized && this.state == state && trace == []
    {
      this.disk, this.source, this.token, this.expected := disk, source, token, expected;
      this.removalAuthorized, this.state := removalAuthorized, state;
      trace := [];
    }

    /** Where the content is, as far as the state promises it. */
    ghost predicate Content()
      reads this, disk
    {
      && (state == Verified ==> HeldAt(disk.tree, token, expected))
      && (state == Restored ==> HeldAt(disk.tree, source, expected) && token !in disk.tree)
      && (state == Removed ==> token !in disk.tree)
    }

    ghost predicate Placement()
      reads this, disk
    {
      Rooted(disk.tree) && Placed(disk.tree, source, token)
    }

    ghost predicate Valid()
      reads this, disk
    {
      && Life(trace) && state != Removing
      && (if trace == [] then state == Verified || state == Retained || state == Indeterminate else state == trace[|trace| - 1].after)
      && Placement() && Content()
    }

    /** Adds a call to the life of the object. */
    ghost method Record(op: Operation, before: Stage, issued: Issued)
      requires Life(trace) && Allowed(Event(op, before, state, issued))
      requires if trace == [] then before == Verified || before == Retained || before == Indeterminate else before == trace[|trace| - 1].after
      modifies this`trace
      ensures trace == old(trace) + [Event(op, before, state, issued)] && Life(trace)
    {
      LifeGoesOn(trace, Event(op, before, state, issued));
      trace := trace + [Event(op, before, state, issued)];
    }

    /** Looks at the staged entry again; content of uncertain identity is kept back from then on. */
    method VerifyStagedIdentity() returns (error: Option<StageError>)
      requires Valid()
      modifies this, disk`troubles
      ensures Valid() && trace == old(trace) + [Event(Verify, old(state), state, Nothing)]
      ensures error.None? <==> old(state) == Verified && IsExpected(disk.tree, token, expected) && disk.troubles == old(disk.troubles)
      ensures error.None? ==> state == Verified
      ensures old(state) != Verified ==> state == old(state)
      ensures old(state) == Verified && error.Some? ==> (state == Verified && error == Some(Interrupted)) || (state == Retained && error == Some(KeptBack))
    {
      ghost var before := state;
      error := VerifyByState();
      Record(Verify, before, Nothing);
    }

    method VerifyByState() returns (error: Option<StageError>)
      requires Placement() && Content() && state != Removing
      modifies this`state, disk`troubles
      ensures Placement() && Content()
      ensures error.None? <==> old(state) == Verified && IsExpected(disk.tree, token, expected) && disk.troubles == old(disk.troubles)
      ensures error.None? ==> state == Verified
      ensures old(state) != Verified ==> state == old(state)
      ensures old(state) == Verified && error.Some? ==> (state == Verified && error == Some(Interrupted)) || (state == Retained && error == Some(KeptBack))
    {
      hide Rooted, Placed;
      var ended := disk.Trouble();
      if ended { return Some(Interrupted); }
      match state
      case Verified =>
        var same := disk.Identify(token, expected);
        if !same {
          state := Retained;
          return Some(KeptBack);
        }
        return None;
      case Removing => return Some(Interrupted);
      case Removed => return Some(Drifted);
      case Retained => return Some(KeptBack);
      case Indeterminate => return Some(Interrupted);
      case Restored => return Some(Drifted);
      case Closed => return Some(Drifted);
    }

    /** Moves the content back if its name is still free. The kernel answers the rename as said; it succeeds exactly if
        the content is the expected one, its name free, and neither the rename nor anything else reports an error. */
    method RestoreNoReplace(answer: RenameAnswer) returns (error: Option<StageError>)
      requires Valid()
      modifies this, disk
      ensures Valid() && Recorded(old(trace), trace, Restore, old(state), state)
      ensures trace[|trace| - 1].issued == Nothing ==> disk.tree == old(disk.tree)
      ensures error.None? <==>
                && disk.troubles == old(disk.troubles)
                && (old(state) == Restored
                    || (old(state) == Verified && IsExpected(old(disk.tree), token, expected) && source !in old(disk.tree) && answer.failure.None?))
      ensures error.None? ==> state == Restored
      ensures old(state) != Verified ==> state == old(state) && disk.tree == old(disk.tree)
      ensures old(state) == Verified && state == Restored ==> error.None? && disk.tree == Renamed(old(disk.tree), token, source)
      ensures state == Verified || state == Retained ==> disk.tree == old(disk.tree)
      ensures disk.tree == old(disk.tree) || (token in old(disk.tree) && source !in old(disk.tree) && disk.tree == Renamed(old(disk.tree), token, source))
      ensures trace[|trace| - 1].issued == RenameBack && answer.failure.Some? ==>
                (state == Retained <==> answer.failure.value in {EEXIST, ENOTEMPTY, EXDEV}) && (state == Retained || state == Indeterminate)
    {
      ghost var before := state;
      ghost var issued;
      error, issued := RestoreByState(answer);
      Record(Restore, before, issued);
    }

    method RestoreByState(answer: RenameAnswer) returns (error: Option<StageError>, ghost issued: Issued)
      requires Placement() && Content() && state != Removing
      modifies this`state, disk
      ensures Placement() && Content() && state != Removing
      ensures Allowed(Event(Restore, old(state), state, issued))
      ensures error.None? <==>
                && disk.troubles == old(disk.troubles)
                && (old(state) == Restored
                    || (old(state) == Verified && IsExpected(old(disk.tree), token, expected) && source !in old(disk.tree) && answer.failure.None?))
      ensures error.None? ==> state == Restored
      ensures old(state) != Verified ==> state == old(state)
      ensures issued == Nothing ==> disk.tree == old(disk.tree)
      ensures old(state) == Verified && state == Restored ==> error.None? && disk.tree == Renamed(old(disk.tree), token, source)
      ensures state == Verified || state == Retained ==> disk.tree == old(disk.tree)
      ensures disk.tree == old(disk.tree) || (token in old(disk.tree) && source !in old(disk.tree) && disk.tree == Renamed(old(disk.tree), token, source))
      ensures issued == RenameBack && answer.failure.Some? ==>
                (state == Retained <==> answer.failure.value in {EEXIST, ENOTEMPTY, EXDEV}) && (state == Retained || state == Indeterminate)
    {
      hide Renamed, Rooted, Placed;
      issued := Nothing;
      var failed := disk.Trouble();                // the context
      if failed { return Some(Interrupted), Nothing; }
      if state == Closed { return Some(Drifted), Nothing; }
      if state == Restored { return None, Nothing; }
      if state == Indeterminate || state == Removing { return Some(Interrupted), Nothing; }
      if state == Removed { return Some(Drifted), Nothing; }
      if state != Verified { return Some(KeptBack), Nothing; }
      var same := disk.Identify(token, expected);
      if !same {
        state := Retained;
        return Some(KeptBack), Nothing;
      }
      issued := RenameBack;
      var failure := RenameNoReplace(disk, token, source, answer);
      if failure.None? || disk.tree != old(disk.tree) { PlacedAfterRename(old(disk.tree), source, token, token, source); }
      if failure.None? {
        var restored := disk.Identify(source, expected);
        if !restored {
          state := Indeterminate;
          return Some(Interrupted), RenameBack;
        }
        failed := disk.Trouble();                  // syncing the directories
        if failed {
          state := Indeterminate;
          return Some(Interrupted), RenameBack;
        }
        state := Restored;
        return None, RenameBack;
      }
      if RestoreDidNotMove(failure.value) {
        state := Retained;
        return Some(KeptBack), RenameBack;
      }
      state := Indeterminate;
      return Some(Interrupted), RenameBack;
    }

    /** Removes the staged subtree, or stops: before the first unlink with the tree untouched, after it with a partly
        removed tree in which no entry outlives its directory, to be reconciled. It succeeds exactly if it is authorized,
        the content is the expected one and may be removed, and the system reports no error. */
    method RemoveStagedTree() returns (error: Option<StageError>)
      requires Valid()
      modifies this, disk
      ensures Valid() && Recorded(old(trace), trace, Remove, old(state), state)
      ensures trace[|trace| - 1].issued == Nothing ==> disk.tree == old(disk.tree)
      ensures error.None? <==>
                && old(state) == Verified && removalAuthorized && disk.troubles == old(disk.troubles)
                && IsExpected(old(disk.tree), token, expected) && Removable(old(disk.tree), token, 0)
      ensures error.None? <==> state == Removed && old(state) != Removed
      ensures error.None? ==> disk.tree == Without(old(disk.tree), token)
      ensures state != Removed && state != Indeterminate ==> disk.tree == old(disk.tree)
      ensures old(state) != Verified ==> state == old(state) && disk.tree == old(disk.tree)
      ensures Pruned(old(disk.tree), disk.tree, token)
      ensures !removalAuthorized || !Removable(old(disk.tree), token, 0) ==> disk.tree == old(disk.tree)
    {
      ghost var before := state;
      ghost var issued;
      error, issued := RemoveByState();
      Record(Remove, before, issued);
    }

    method RemoveByState() returns (error: Option<StageError>, ghost issued: Issued)
      requires Placement() && Content() && state != Removing
      modifies this`state, disk
      ensures Placement() && Content() && state != Removing
      ensures Allowed(Event(Remove, old(state), state, issued))
      ensures error.None? <==>
                && old(state) == Verified && removalAuthorized && disk.troubles == old(disk.troubles)
                && IsExpected(old(disk.tree), token, expected) && Removable(old(disk.tree), token, 0)
      ensures error.None? <==> state == Removed && old(state) != Removed
      ensures error.None? ==> disk.tree == Without(old(disk.tree), token)
      ensures state != Removed && state != Indeterminate ==> disk.tree == old(disk.tree)
      ensures issued == Nothing ==> disk.tree == old(disk.tree)
      ensures old(state) != Verified ==> state == old(state) && disk.tree == old(disk.tree)
      ensures Pruned(old(disk.tree), disk.tree, token)
      ensures !removalAuthorized || !Removable(old(disk.tree), token, 0) ==> disk.tree == old(disk.tree)
    {
      hide Rooted, Placed, Removable, Without, Pruned;
      NothingPruned(disk.tree, token);
      issued := Nothing;
      var failed := disk.Trouble();                // the context
      if failed { return Some(Interrupted), Nothing; }
      if state == Closed || state == Removed { return Some(Drifted), Nothing; }
      if state == Indeterminate || state == Removing { return Some(Interrupted), Nothing; }
      if state != Verified { return Some(KeptBack), Nothing; }
      if !removalAuthorized { return Some(Unsupported), Nothing; }
      var same := disk.Identify(token, expected);
      if !same {
        state := Retained;
        return Some(KeptBack), Nothing;
      }
      var accepted := disk.PreflightTree(token, 0);
      if !accepted {
        var e: StageError := *;
        return Some(e), Nothing;
      }
      failed := disk.Trouble();                    // syncing both directories, the context
      if failed {
        var e: StageError := *;
        return Some(e), Nothing;
      }
      same := disk.Identify(token, expected);
      if !same {
        state := Retained;
        return Some(KeptBack), Nothing;
      }
      error, issued := RemovePass();
    }

    /** From the first unlink on. */
    method RemovePass() returns (error: Option<StageError>, ghost issued: Issued)
      requires Placement() && Content() && state == Verified
      modifies this`state, disk
      ensures Placement() && Content()
      ensures error.None? <==> Removable(old(disk.tree), token, 0) && disk.troubles == old(disk.troubles)
      ensures disk.troubles >= old(disk.troubles)
      ensures issued == Nothing ==> state == Verified && disk.tree == old(disk.tree) && error.Some?
      ensures issued != Nothing ==> issued == Unlinks && ((state == Removed && error.None?) || (state == Indeterminate && error.Some?))
      ensures error.None? ==> disk.tree == Without(old(disk.tree), token)
      ensures Pruned(old(disk.tree), disk.tree, token)
    {
      hide Rooted, Placed, Removable, Pruned;
      var ok, effect := disk.RemoveVerifiedEntry(token, 0, false);
      PlacedAfterPruning(old(disk.tree), disk.tree, source, token);
      if effect { state := Removing; }
      if !ok {
        if effect {
          state := Indeterminate;
          return Some(Interrupted), Unlinks;
        }
        var e: StageError := *;
        return Some(e), Nothing;
      }
      var failed := disk.Trouble();                // syncing both directories
      if failed {
        state := Indeterminate;
        return Some(Interrupted), Unlinks;
      }
      state := Removed;
      return None, Unlinks;
    }

    /** Gives up the descriptors; the entry stays as it is. */
    method CloseObject()
      requires Valid()
      modifies this
      ensures Valid() && state == Closed && disk.tree == old(disk.tree)
      ensures trace == old(trace) + [Event(Close, old(state), Closed, Nothing)]
    {
      ghost var before := state;
      state := Closed;
      Record(Close, before, Nothing);
    }
  }

  // ----- staging -----

  /** How one staging call goes: what refuses it before it looks at the source, whether source and token can be
      examined, what the kernel answers to the rename, and whether the directories sync. */
  datatype StageWeather = StageWeather(refused: Option<StageError>, readable: bool, rename: RenameAnswer, confirmed: bool, synced: bool)

  /** The tree, the state of the object if there is one, and the error. */
  ghost function StageResult(t: Tree, source: Path, token: Path, expected: nat, w: StageWeather): (Tree, Option<Stage>, Option<StageError>) {
    if w.refused.Some? then (t, None, w.refused)
    else if !w.readable || !IsExpected(t, source, expected) then (t, None, Some(Drifted))
    else
      var (after, failure) := RenameOutcome(t, source, token, w.rename);
      match failure
      case Some(e) =>
        if StageMayHaveMoved(e) then (after, Some(Indeterminate), Some(Interrupted)) else (after, None, Some(StageFailure(e)))
      case None =>
        if !w.confirmed || !IsExpected(after, token, expected) then (after, Some(Retained), Some(KeptBack))
        else if !w.synced then (after, Some(Indeterminate), Some(Interrupted))
        else (after, Some(Verified), None)
  }

  /** Checks the source, moves it under the token and verifies it there. */
  method StageNoReplace(disk: Disk, source: Path, token: Path, expected: nat, removalAuthorized: bool, w: StageWeather)
    returns (staged: StagedObject?, error: Option<StageError>)
    requires Rooted(disk.tree) && Placed(disk.tree, source, token)
    modifies disk`tree
    ensures (disk.tree, if staged == null then None else Some(staged.state), error) == StageResult(old(disk.tree), source, token, expected, w)
    ensures staged != null ==> fresh(staged) && staged.disk == disk && staged.source == source && staged.token == token && staged.trace == []
    ensures staged != null ==> staged.Valid() && staged.expected == expected && staged.removalAuthorized == removalAuthorized
    ensures error.None? <==> staged != null && staged.state == Verified
    ensures error.None? <==>
              && w.refused.None? && w.readable && IsExpected(old(disk.tree), source, expected) && token !in old(disk.tree)
              && w.rename.failure.None? && w.confirmed && w.synced
    ensures error.None? ==> HeldAt(old(disk.tree), source, expected) && token !in old(disk.tree)
                            && disk.tree == Renamed(old(disk.tree), source, token)
    ensures disk.tree == old(disk.tree) || (source in old(disk.tree) && token !in old(disk.tree) && disk.tree == Renamed(old(disk.tree), source, token))
  {
    hide Renamed, Rooted, Placed, Removable;
    if w.refused.Some? { return null, w.refused; }
    if !w.readable || !IsExpected(disk.tree, source, expected) { return null, Some(Drifted); }
    var failure := RenameNoReplace(disk, source, token, w.rename);
    if failure.Some? && !StageMayHaveMoved(failure.value) { return null, Some(StageFailure(failure.value)); }
    if failure.None? || disk.tree != old(disk.tree) { PlacedAfterRename(old(disk.tree), source, token, source, token); }
    if failure.Some? {
      staged := new StagedObject(disk, source, token, expected, removalAuthorized, Indeterminate);
      return staged, Some(Interrupted);
    }
    if !w.confirmed || !IsExpected(disk.tree, token, expected) {
      staged := new StagedObject(disk, source, token, expected, removalAuthorized, Retained);
      return staged, Some(KeptBack);
    }
    if !w.synced {
      staged := new StagedObject(disk, source, token, expected, removalAuthorized, Indeterminate);
      return staged, Some(Interrupted);
    }
    staged := new StagedObject(disk, source, token, expected, removalAuthorized, Verified);
    return staged, None;
  }

  /** The rename is issued and possible. */
  predicate RenameReached(t: Tree, source: Path, token: Path, expected: nat, w: StageWeather) {
    w.refused.None? && w.readable && IsExpected(t, source, expected) && token !in t
  }

  /** The errors that staging takes for "did not move" although the kernel does not promise it. */
  predicate TakenForUnmoved(e: Errno) {
    e !in NO_EFFECT && !StageMayHaveMoved(e)
  }

  /** Exactly when staging moves the content away and returns no object to bring it back with: the rename took effect
      and was reported with an error that is neither one of the ten that exclude an effect nor EINTR or EAGAIN. The
      content is then under the token and the caller is told that it has drifted. */
  lemma MovedWithoutObject(t: Tree, source: Path, token: Path, expected: nat, w: StageWeather)
    requires Rooted(t) && Placed(t, source, token)
    ensures var (after, stage, error) := StageResult(t, source, token, expected, w);
            && (stage.None? && after != t <==>
                RenameReached(t, source, token, expected, w) && w.rename.applied && w.rename.failure.Some? && w.rename.failure.value !in NO_EFFECT + {EINTR, EAGAIN})
            && (stage.None? && after != t ==> after == Renamed(t, source, token) && error == Some(Drifted))
  {
    hide Renamed, Rooted, Placed;
    if RenameReached(t, source, token, expected, w) { PlacedAfterRename(t, source, token, source, token); }
  }

  /** Every call that returns no object after its rename reported e leaves the tree as it was. */
  ghost predicate UnmovedWithoutObject(e: Errno) {
    forall t: Tree, source: Path, token: Path, expected: nat, w: StageWeather :: Rooted(t) && Placed(t, source, token) && w.rename.failure == Some(e) ==>
      var r := StageResult(t, source, token, expected, w); r.1.None? ==> r.0 == t
  }

  /** That holds of an error if and only if it is one of the ten, or EINTR or EAGAIN. */
  lemma UnmovedExactly(e: Errno)
    ensures UnmovedWithoutObject(e) <==> e in NO_EFFECT + {EINTR, EAGAIN}
  {
    hide Rooted, Placed, StageResult;
    if TakenForUnmoved(e) {
      var t, w := ContentLost(e);
      assert StageResult(t, [[1]], [[2]], 7, w).1.None? && StageResult(t, [[1]], [[2]], 7, w).0 != t;
      assert !UnmovedWithoutObject(e);
    } else {
      forall t: Tree, source: Path, token: Path, expected: nat, w: StageWeather | Rooted(t) && Placed(t, source, token) && w.rename.failure == Some(e)
        ensures var r := StageResult(t, source, token, expected, w); r.1.None? ==> r.0 == t
      {
        MovedWithoutObject(t, source, token, expected, w);
      }
    }
  }

  /** Such a run: a file beside a free token, and a rename that takes effect and is answered with an error like EIO. */
  lemma ContentLost(e: Errno) returns (t: Tree, w: StageWeather)
    requires TakenForUnmoved(e)
    ensures Rooted(t) && Placed(t, [[1]], [[2]]) && w.rename.failure == Some(e)
    ensures IsExpected(t, [[1]], 7)
    ensures StageResult(t, [[1]], [[2]], 7, w) == (Renamed(t, [[1]], [[2]]), None, Some(Drifted))
    ensures [[1]] !in Renamed(t, [[1]], [[2]]) && IsExpected(Renamed(t, [[1]], [[2]]), [[2]], 7)
    ensures Renamed(t, [[1]], [[2]]) != t
  {
    t := FileBesideToken();
    w := StageWeather(None, true, RenameAnswer(Some(e), true), true, true);
    hide Renamed, Rooted, Placed;
    PlacedAfterRename(t, [[1]], [[2]], [[1]], [[2]]);
  }

  lemma FileBesideToken() returns (t: Tree)
    ensures Rooted(t) && Placed(t, [[1]], [[2]]) && IsExpected(t, [[1]], 7) && [[2]] !in t
  {
    var source: Path, token: Path := [[1]], [[2]];
    t := map[[] := Node(Directory, 0), source := Node(Regular, 7)];
    assert source[..0] == [] && token[..0] == [];
    assert source[0] != token[0];
  }

  /** Staging and restoring without an error leaves the filesystem as it was; it takes no more than that nothing fails. */
  method StageAndRestore(disk: Disk, source: Path, token: Path, expected: nat, w: StageWeather, answer: RenameAnswer) returns (done: bool)
    requires Rooted(disk.tree) && Placed(disk.tree, source, token)
    modifies disk
    ensures done ==> disk.tree == old(disk.tree)
    ensures done <==>
              && w.refused.None? && w.readable && IsExpected(old(disk.tree), source, expected) && token !in old(disk.tree)
              && w.rename.failure.None? && w.confirmed && w.synced && answer.failure.None? && disk.troubles == old(disk.troubles)
  {
    hide Renamed, Rooted;
    ghost var before := disk.tree;
    var staged, error := StageNoReplace(disk, source, token, expected, false, w);
    if staged == null || error.Some? { return false; }
    ghost var moved := disk.tree;
    PlacedAfterRename(before, source, token, source, token);
    error := staged.RestoreNoReplace(answer);
    if error.Some? { return false; }
    hide StageResult;
    Filesystem.RenameBack(before, source, token);
    return true;
  }
}
