/** Ownership of file descriptors: close is called only on a descriptor that is owned, a close that reports an error
    gives up ownership all the same, and every path out of a function accounts for everything it was given. */
module Descriptors {
  import opened Base
  import opened PathBytes

  /** A directory, by the names that lead to it from some root. */
  type Place = seq<bytes>

  /** The descriptors this code owns, and what they denote. Any number it does not own may be in use elsewhere in the
      process; after a close the number may be taken at once, so closing it again could hit somebody else's file. Close
      therefore demands ownership: a second close of the same descriptor would not verify. troubles counts the errors
      that the system has reported. */
  class Table {
    var owned: map<int, Place>
    var troubles: nat

    constructor (owned: map<int, Place>)
      ensures this.owned == owned && troubles == 0
    {
      this.owned, troubles := owned, 0;
    }

    /** Opens a child of a directory: a new descriptor, or -1. The kernel never hands out a number that is in use. */
    method OpenBeneath(directory: int, component: bytes) returns (fd: int)
      requires directory in owned
      modifies this
      ensures if fd == -1 then owned == old(owned) && troubles == old(troubles) + 1
              else fd >= 0 && fd !in old(owned) && owned == old(owned)[fd := old(owned)[directory] + [component]] && troubles == old(troubles)
    {
      fd := *;
      if fd < 0 || fd in owned {
        troubles := troubles + 1;
        return -1;
      }
      owned := owned[fd := owned[directory] + [component]];
    }

    /** F_DUPFD_CLOEXEC with a minimum of 3. */
    method Duplicate(fd: int) returns (duplicate: int)
      requires fd in owned
      modifies this
      ensures if duplicate == -1 then owned == old(owned) && troubles == old(troubles) + 1
              else duplicate >= 3 && duplicate !in old(owned) && owned == old(owned)[duplicate := old(owned)[fd]] && troubles == old(troubles)
    {
      duplicate := *;
      if duplicate < 3 || duplicate in owned {
        troubles := troubles + 1;
        return -1;
      }
      owned := owned[duplicate := owned[fd]];
    }

    /** Gives the descriptor up, whatever it reports. */
    method Close(fd: int) returns (ok: bool)
      requires fd in owned
      modifies this
      ensures owned == old(owned) - {fd} && troubles == old(troubles) + if ok then 0 else 1
    {
      owned := owned - {fd};
      ok := *;
      if !ok { troubles := troubles + 1; }
    }

    /** Whether the operation may go on: the context may end at any time. */
    method MayGoOn() returns (ok: bool)
      modifies this`troubles
      ensures troubles == old(troubles) + if ok then 0 else 1
    {
      ok := *;
      if !ok { troubles := troubles + 1; }
    }
  }

  // ----- resolving a parent directory -----

  /** Takes over rootFD and walks to the parent of the last component. It succeeds exactly if the input is sound and the
      system reports no error; it then owns just the parent, a descriptor of the directory under the root that all
      components but the last one name. With an error nothing is left open, except that a missing close implementation
      leaves rootFD with the caller. */
  method ResolveParent(table: Table, rootFD: int, path: seq<bytes>, hasContext: bool, hasOpen: bool, hasClose: bool)
    returns (parent: Option<int>)
    requires rootFD in table.owned && rootFD >= 0
    modifies table
    ensures match parent
            case Some(fd) => (fd == rootFD || fd !in old(table.owned)) && table.owned == old(table.owned) - {rootFD} + map[fd := ParentPlace(old(table.owned)[rootFD], path)]
            case None => table.owned == if hasClose then old(table.owned) - {rootFD} else old(table.owned)
    ensures parent.Some? <==> hasContext && hasOpen && hasClose && ValidPath(path) && table.troubles == old(table.troubles)
  {
    if !hasClose { return None; }
    if !hasContext || !hasOpen || !ValidPath(path) {
      var closed := table.Close(rootFD);
      return None;
    }
    parent := WalkToParent(table, rootFD, path);
  }

  /** The directory that holds the last component of a path. */
  function ParentPlace(root: Place, path: seq<bytes>): Place
  {
    if path == [] then root else root + path[..|path| - 1]
  }

  /** Where the walk is: after index components at a descriptor of its own, which only at first is the root's. */
  ghost predicate Walking(before: map<int, Place>, owned: map<int, Place>, rootFD: int, path: seq<bytes>, index: nat, current: int)
    requires rootFD in before && index <= |path|
  {
    && current >= 0 && (current == rootFD || current !in before)
    && owned == before - {rootFD} + map[current := before[rootFD] + path[..index]]
  }

  /** The traversal with its deferred cleanup. */
  method WalkToParent(table: Table, rootFD: int, path: seq<bytes>) returns (parent: Option<int>)
    requires rootFD in table.owned && rootFD >= 0 && path != []
    modifies table
    ensures match parent
            case Some(fd) => (fd == rootFD || fd !in old(table.owned)) && table.owned == old(table.owned) - {rootFD} + map[fd := ParentPlace(old(table.owned)[rootFD], path)]
            case None => table.owned == old(table.owned) - {rootFD}
    ensures parent.Some? <==> table.troubles == old(table.troubles)
  {
    var current := rootFD;
    var keepCurrent := false;
    var index := 0;
    var failed := false;
    assert old(table.owned) == old(table.owned) - {rootFD} + map[rootFD := old(table.owned)[rootFD]];
    assert old(table.owned)[rootFD] + path[..0] == old(table.owned)[rootFD];
    while index < |path| - 1
      invariant 0 <= index <= |path| - 1 && !failed
      invariant table.troubles == old(table.troubles) && Walking(old(table.owned), table.owned, rootFD, path, index, current)
    {
      var goOn := table.MayGoOn();
      if !goOn { failed := true; break; }
      var next := table.OpenBeneath(current, path[index]);
      if next == -1 { failed := true; break; }
      var previous := current;
      current := -1;                              // no cleanup of a descriptor whose close may fail
      var closed := table.Close(previous);
      StepTaken(old(table.owned), rootFD, path, index, previous, next);
      if !closed {
        var dropped := table.Close(next);
        assert table.owned == old(table.owned) - {rootFD};
        failed := true;
        break;
      }
      current := next;
      index := index + 1;
    }
    if !failed {
      var goOn := table.MayGoOn();
      if !goOn { failed := true; } else { keepCurrent := true; }
    }
    if !keepCurrent && current >= 0 {
      var dropped := table.Close(current);
      assert table.owned == old(table.owned) - {rootFD};
    }
    return if keepCurrent then Some(current) else None;
  }

  lemma StepTaken(before: map<int, Place>, rootFD: int, path: seq<bytes>, index: nat, previous: int, next: int)
    requires rootFD in before && index < |path| && (previous == rootFD || previous !in before)
    requires next >= 0 && next != previous && (next == rootFD || next !in before)
    ensures var owned := before - {rootFD} + map[previous := before[rootFD] + path[..index]];
            Walking(before, owned[next := owned[previous] + [path[index]]] - {previous}, rootFD, path, index + 1, next)
  {
    assert before[rootFD] + path[..index] + [path[index]] == before[rootFD] + path[..index + 1];
  }

  /** The second walk, which also refuses the reserved descriptors 0 to 2. */
  method OpenPlannedParentBeneath(table: Table, rootFD: int, path: seq<bytes>) returns (parent: Option<int>)
    requires rootFD >= 0 ==> rootFD in table.owned
    modifies table
    ensures match parent
            case Some(fd) => rootFD >= 3 && (fd == rootFD || fd !in old(table.owned)) && table.owned == old(table.owned) - {rootFD} + map[fd := ParentPlace(old(table.owned)[rootFD], path)]
            case None => table.owned == old(table.owned) - if rootFD >= 0 then {rootFD} else {}
    ensures parent.Some? <==> rootFD >= 3 && ValidPath(path) && table.troubles == old(table.troubles)
  {
    if rootFD < 3 {
      if rootFD >= 0 { var closed := table.Close(rootFD); }
      return None;
    }
    if !ValidPath(path) {
      var closed := table.Close(rootFD);
      return None;
    }
    parent := WalkToParent(table, rootFD, path);
  }

  // ----- the Trash descriptors -----

  function Real(fds: seq<int>): set<int> {
    set fd | fd in fds && fd >= 0
  }

  /** Closes each distinct descriptor of a list once. */
  method CloseOwned(table: Table, fds: seq<int>)
    requires Real(fds) <= table.owned.Keys
    modifies table
    ensures table.owned == old(table.owned) - Real(fds) && table.troubles >= old(table.troubles)
  {
    var closed: set<int> := {};
    var index := 0;
    while index < |fds|
      invariant 0 <= index <= |fds|
      invariant closed == Real(fds[..index]) && table.owned == old(table.owned) - closed && table.troubles >= old(table.troubles)
    {
      var fd := fds[index];
      assert fds[..index + 1] == fds[..index] + [fd];
      if fd >= 0 && fd !in closed {
        closed := closed + {fd};
        var ok := table.Close(fd);
      }
      index := index + 1;
    }
    assert fds[..index] == fds;
  }

  predicate Sound(fds: seq<int>) {
    && (forall i :: 0 <= i < |fds| ==> fds[i] >= -1)
    && (forall i, j :: 0 <= i < j < |fds| && fds[j] >= 0 ==> fds[i] != fds[j])
  }

  /** Whether all numbers are -1 or real, and no real one comes twice. */
  method CheckDescriptors(fds: seq<int>) returns (sound: bool)
    ensures sound <==> Sound(fds)
  {
    var index := 0;
    while index < |fds|
      invariant 0 <= index <= |fds|
      invariant Sound(fds[..index])
    {
      if fds[index] < -1 { return false; }
      if fds[index] >= 0 {
        var previous := 0;
        while previous < index
          invariant 0 <= previous <= index
          invariant forall i :: 0 <= i < previous ==> fds[i] != fds[index]
        {
          if fds[previous] == fds[index] { return false; }
          previous := previous + 1;
        }
      }
      index := index + 1;
    }
    assert fds[..index] == fds;
    return true;
  }

  /** How far normalisation has come: the first n are duplicated and closed, the others untouched; owned are the
      rest, the originals left and the duplicates made. */
  ghost predicate NormalisedTo(given: seq<int>, raw: seq<int>, normalized: seq<int>, n: nat) {
    && |given| == |raw| == |normalized| && n <= |given|
    && (forall i :: 0 <= i < n ==> raw[i] == -1 && (normalized[i] == -1 <==> given[i] == -1) && (normalized[i] >= 3 || normalized[i] == -1))
    && (forall i :: n <= i < |given| ==> raw[i] == given[i] && normalized[i] == -1)
    && Sound(raw) && Sound(normalized)
  }

  ghost predicate Accounted(owned: set<int>, rest: set<int>, raw: seq<int>, normalized: seq<int>) {
    && Real(raw) !! Real(normalized) && Real(raw) !! rest && Real(normalized) !! rest
    && owned == rest + Real(raw) + Real(normalized)
  }

  /** Which places they denote: every original left and every duplicate made that of its role, the rest what it was. */
  ghost predicate InPlace(before: map<int, Place>, owned: map<int, Place>, rest: set<int>, given: seq<int>, raw: seq<int>, normalized: seq<int>) {
    && |given| == |raw| == |normalized|
    && (forall fd :: fd in rest ==> fd in before && fd in owned && owned[fd] == before[fd])
    && (forall i :: 0 <= i < |raw| && raw[i] >= 0 ==> Denotes(before, given[i], owned, raw[i]))
    && (forall i :: 0 <= i < |normalized| && normalized[i] >= 0 ==> Denotes(before, given[i], owned, normalized[i]))
  }

  /** The one descriptor now denotes what the other did before. */
  predicate Denotes(before: map<int, Place>, was: int, owned: map<int, Place>, fd: int) {
    was in before && fd in owned && owned[fd] == before[was]
  }

  /** Takes over the given descriptors and returns, role by role, duplicates of them, none below 3. It succeeds exactly
      if the numbers are sound and the system reports no error. With an error every given descriptor and every duplicate
      is closed, each exactly once. */
  method NewTrashDescriptors(table: Table, given: seq<int>) returns (result: Option<seq<int>>)
    requires Real(given) <= table.owned.Keys
    modifies table
    ensures match result
            case None => table.owned == old(table.owned) - Real(given)
            case Some(fds) =>
              && |fds| == |given| && Sound(fds)
              && (forall i :: 0 <= i < |fds| ==>
                    if given[i] == -1 then fds[i] == -1 else fds[i] >= 3 && Denotes(old(table.owned), given[i], table.owned, fds[i]))
              && table.owned.Keys == old(table.owned).Keys - Real(given) + Real(fds)
              && (forall fd :: fd in old(table.owned).Keys - Real(given) ==> fd !in Real(fds) && table.owned[fd] == old(table.owned)[fd])
    ensures result.Some? <==> Sound(given) && table.troubles == old(table.troubles)
  {
    hide Real, NormalisedTo, Accounted, InPlace, Sound, Denotes;
    var sound := CheckDescriptors(given);
    if !sound {
      CloseOwned(table, given);
      return None;
    }
    ghost var before := table.owned;
    var raw := new int[|given|](i requires 0 <= i < |given| => given[i]);
    var normalized := new int[|given|](_ => -1);
    ghost var rest := before.Keys - Real(given);
    assert raw[..] == given;
    NothingDone(given, normalized[..], before.Keys);
    AllInPlace(before, given, normalized[..]);
    var index := 0;
    while index < |given|
      invariant 0 <= index <= |given|
      invariant raw.Length == normalized.Length == |given| && raw != normalized
      invariant NormalisedTo(given, raw[..], normalized[..], index)
      invariant Accounted(table.owned.Keys, rest, raw[..], normalized[..])
      invariant InPlace(before, table.owned, rest, given, raw[..], normalized[..])
      invariant fresh(raw) && fresh(normalized) && table.troubles == old(table.troubles)
    {
      if given[index] >= 0 {
        var ok := NormaliseAt(table, given, raw, normalized, index, rest, before);
        if !ok {
          RestIs(before, table.owned, rest, Real(given));
          return None;
        }
      } else {
        NothingToDo(given, raw[..], normalized[..], index);
      }
      index := index + 1;
    }
    AllDone(given, raw[..], normalized[..], table.owned.Keys, rest);
    AllPlaced(before, table.owned, rest, given, raw[..], normalized[..]);
    return Some(normalized[..]);
  }

  lemma RestIs(before: map<int, Place>, owned: map<int, Place>, rest: set<int>, gone: set<int>)
    requires owned.Keys == rest == before.Keys - gone && forall fd :: fd in rest ==> owned[fd] == before[fd]
    ensures owned == before - gone
  {
    var left := before - gone;
    assert owned.Keys == left.Keys;
    assert forall fd :: fd in left ==> owned[fd] == left[fd];
  }

  lemma AllInPlace(before: map<int, Place>, given: seq<int>, normalized: seq<int>)
    requires Real(given) <= before.Keys && |normalized| == |given| && forall i :: 0 <= i < |given| ==> normalized[i] == -1
    ensures InPlace(before, before, before.Keys - Real(given), given, given, normalized)
  {
    forall i | 0 <= i < |given| && given[i] >= 0 ensures given[i] in before { assert given[i] in Real(given); }
  }

  lemma AllPlaced(before: map<int, Place>, owned: map<int, Place>, rest: set<int>, given: seq<int>, raw: seq<int>, normalized: seq<int>)
    requires InPlace(before, owned, rest, given, raw, normalized) && Accounted(owned.Keys, rest, raw, normalized)
    ensures forall i :: 0 <= i < |given| && normalized[i] >= 0 ==> Denotes(before, given[i], owned, normalized[i])
    ensures forall fd :: fd in rest ==> fd in before && fd in owned && fd !in Real(normalized) && owned[fd] == before[fd]
  {
  }

  /** One round: the duplicate denotes what the original did, which is closed. */
  lemma RoundInPlace(before: map<int, Place>, owned: map<int, Place>, rest: set<int>, given: seq<int>, raw: seq<int>, normalized: seq<int>,
                     n: nat, duplicate: int)
    requires InPlace(before, owned, rest, given, raw, normalized) && Accounted(owned.Keys, rest, raw, normalized)
    requires n < |raw| && raw[n] >= 0 && Sound(raw) && duplicate !in owned && raw[n] !in rest && normalized[n] == -1
    requires raw[n] in owned && duplicate >= 0
    ensures InPlace(before, owned[duplicate := owned[raw[n]]] - {raw[n]}, rest, given, raw[n := -1], normalized[n := duplicate])
  {
    var after := owned[duplicate := owned[raw[n]]] - {raw[n]};
    var raw', normalized' := raw[n := -1], normalized[n := duplicate];
    forall i | 0 <= i < |raw| && raw'[i] >= 0 ensures Denotes(before, given[i], after, raw'[i]) {
      assert Denotes(before, given[i], owned, raw[i]);
      assert raw[i] != raw[n];
    }
    forall i | 0 <= i < |normalized| && normalized'[i] >= 0 ensures Denotes(before, given[i], after, normalized'[i]) {
      if i == n {
        assert Denotes(before, given[n], owned, raw[n]);
      } else {
        assert Denotes(before, given[i], owned, normalized[i]);
        assert normalized[i] in Real(normalized) && raw[n] in Real(raw);
      }
    }
  }

  lemma NothingDone(given: seq<int>, normalized: seq<int>, owned: set<int>)
    requires Sound(given) && Real(given) <= owned && |normalized| == |given| && forall i :: 0 <= i < |given| ==> normalized[i] == -1
    ensures NormalisedTo(given, given, normalized, 0) && Accounted(owned, owned - Real(given), given, normalized)
  {
    assert Real(normalized) == {};
  }

  lemma NothingToDo(given: seq<int>, raw: seq<int>, normalized: seq<int>, n: nat)
    requires NormalisedTo(given, raw, normalized, n) && n < |given| && given[n] < 0 && Sound(given)
    ensures NormalisedTo(given, raw, normalized, n + 1)
  {
  }

  lemma AllDone(given: seq<int>, raw: seq<int>, normalized: seq<int>, owned: set<int>, rest: set<int>)
    requires NormalisedTo(given, raw, normalized, |given|) && Accounted(owned, rest, raw, normalized)
    ensures |normalized| == |given| && Sound(normalized) && owned == rest + Real(normalized)
    ensures forall i :: 0 <= i < |given| ==> if given[i] == -1 then normalized[i] == -1 else normalized[i] >= 3
  {
    assert Real(raw) == {};
  }

  /** One round of normalisation. */
  method NormaliseAt(table: Table, given: seq<int>, raw: array<int>, normalized: array<int>, index: nat, ghost rest: set<int>, ghost before: map<int, Place>)
    returns (ok: bool)
    requires raw != normalized && raw.Length == normalized.Length == |given| && index < |given| && given[index] >= 0
    requires NormalisedTo(given, raw[..], normalized[..], index) && Accounted(table.owned.Keys, rest, raw[..], normalized[..])
    requires InPlace(before, table.owned, rest, given, raw[..], normalized[..])
    modifies table, raw, normalized
    ensures ok ==> NormalisedTo(given, raw[..], normalized[..], index + 1) && Accounted(table.owned.Keys, rest, raw[..], normalized[..])
    ensures ok ==> InPlace(before, table.owned, rest, given, raw[..], normalized[..])
    ensures !ok ==> table.owned.Keys == rest && forall fd :: fd in rest ==> fd in before && table.owned[fd] == before[fd]
    ensures if ok then table.troubles == old(table.troubles) else table.troubles > old(table.troubles)
  {
    ghost var left, made, owned := raw[..], normalized[..], table.owned;
    assert left[index] == given[index] && left[index] in Real(left);
    RestOfRaw(given, left, made, index);
    var duplicate := table.Duplicate(raw[index]);
    if duplicate == -1 {
      CloseOwned(table, raw[index..]);
      CloseOwned(table, normalized[..]);
      return false;
    }
    RealAfterSet(made, index, duplicate);
    RoundInPlace(before, owned, rest, given, left, made, index, duplicate);
    normalized[index] := duplicate;
    assert normalized[..] == made[index := duplicate];
    RawAfterClose(left, index);
    var closed := table.Close(raw[index]);
    raw[index] := -1;
    assert raw[..] == left[index := -1];
    RoundDone(given, left, made, index, duplicate);
    if !closed {
      RestOfRaw(given, raw[..], normalized[..], index + 1);
      CloseOwned(table, raw[index + 1..]);
      CloseOwned(table, normalized[..]);
      return false;
    }
    return true;
  }

  lemma RoundDone(given: seq<int>, raw: seq<int>, normalized: seq<int>, n: nat, duplicate: int)
    requires NormalisedTo(given, raw, normalized, n) && n < |given| && given[n] >= 0 && duplicate >= 3
    requires Sound(raw[n := -1]) && Sound(normalized[n := duplicate])
    ensures NormalisedTo(given, raw[n := -1], normalized[n := duplicate], n + 1)
  {
  }

  /** What has not been normalised yet is all that is left of the given descriptors. */
  lemma RestOfRaw(given: seq<int>, raw: seq<int>, normalized: seq<int>, n: nat)
    requires NormalisedTo(given, raw, normalized, n)
    ensures Real(raw[n..]) == Real(raw)
  {
    forall fd | fd in raw && fd >= 0 ensures fd in raw[n..] {
      var i :| 0 <= i < |raw| && raw[i] == fd;
      assert raw[n..][i - n] == fd;
    }
  }

  lemma RealAfterSet(fds: seq<int>, n: nat, fd: int)
    requires n < |fds| && fds[n] == -1 && fd >= 0 && fd !in Real(fds) && Sound(fds)
    ensures Real(fds[n := fd]) == Real(fds) + {fd} && Sound(fds[n := fd])
  {
    var after := fds[n := fd];
    assert after[n] == fd;
    forall x | x in Real(fds) ensures x in Real(after) {
      var i :| 0 <= i < |fds| && fds[i] == x;
      assert after[i] == x;
    }
  }

  lemma RawAfterClose(raw: seq<int>, n: nat)
    requires n < |raw| && raw[n] >= 0 && Sound(raw)
    ensures Real(raw[n := -1]) == Real(raw) - {raw[n]} && Sound(raw[n := -1])
  {
    var after := raw[n := -1];
    forall x | x in Real(raw) && x != raw[n] ensures x in Real(after) {
      var i :| 0 <= i < |raw| && raw[i] == x;
      assert after[i] == x;
    }
    forall x | x in Real(after) ensures x in Real(raw) && x != raw[n] {
      var i :| 0 <= i < |after| && after[i] == x;
      assert raw[i] == x;
      if i < n { assert raw[i] != raw[n]; } else { assert raw[n] != raw[i]; }
    }
  }

  // ----- lending duplicates of the Trash descriptors -----

  /** A substitute for the duplicating system call that may misbehave: it can report a failure together with a number,
      or a number that is reserved, held by the lease or handed out already. A number above 2 that is none of these is
      a new descriptor of the same place, whether or not a failure was reported. The two last outcomes say whether the
      call misbehaved and whether the new descriptor can be seen to be a directory. */
  method AnyDuplicate(table: Table, fd: int, known: set<int>) returns (duplicate: int, failed: bool, directory: bool)
    requires fd in table.owned && known <= table.owned.Keys
    modifies table
    ensures table.owned == if duplicate < 3 || duplicate in known then old(table.owned) else old(table.owned)[duplicate := old(table.owned)[fd]]
    ensures duplicate >= 3 && duplicate !in known ==> duplicate !in old(table.owned)
    ensures table.troubles == old(table.troubles) + if failed || duplicate < 3 || duplicate in known || !directory then 1 else 0
  {
    failed, directory := *, *;
    duplicate := *;
    if duplicate >= 3 && duplicate !in known && duplicate in table.owned { duplicate, failed := -1, true; }
    if failed || duplicate < 3 || duplicate in known || !directory { table.troubles := table.troubles + 1; }
    if duplicate < 3 || duplicate in known { return; }
    table.owned := table.owned[duplicate := table.owned[fd]];
  }

  /** Closes a duplicate that was not accepted, unless the number belongs to somebody. */
  method CloseRejected(table: Table, fd: int, held: seq<int>, lent: seq<int>)
    requires fd >= 3 && fd !in held && fd !in lent ==> fd in table.owned
    modifies table
    ensures table.owned == old(table.owned) - (if fd >= 3 && fd !in held && fd !in lent then {fd} else {}) && table.troubles >= old(table.troubles)
  {
    if fd < 3 { return; }
    if fd in held { return; }
    if fd in lent { return; }
    var closed := table.Close(fd);
  }

  /** Duplicates of all roles, in their order, or none: it succeeds exactly if no call misbehaves. With an error
      everything duplicated so far is closed once and no descriptor of the lease is touched, whatever numbers the
      duplicating call came up with. */
  method DuplicateTopology(table: Table, held: seq<int>, roles: seq<int>) returns (lent: Option<seq<int>>)
    requires Real(held) <= table.owned.Keys && forall i :: 0 <= i < |roles| ==> roles[i] >= 0 && roles[i] in held
    modifies table
    ensures match lent
            case None => table.owned == old(table.owned)
            case Some(fds) =>
              && |fds| == |roles| && Sound(fds) && (forall i :: 0 <= i < |fds| ==> fds[i] >= 3)
              && table.owned.Keys == old(table.owned).Keys + Real(fds) && (forall fd :: fd in old(table.owned) ==> table.owned[fd] == old(table.owned)[fd])
              && (forall i :: 0 <= i < |fds| ==> fds[i] !in old(table.owned) && Denotes(old(table.owned), roles[i], table.owned, fds[i]))
    ensures lent.Some? <==> table.troubles == old(table.troubles)
  {
    hide Real, Sound, Lent;
    ghost var before := table.owned;
    var dups: seq<int> := [];
    var index := 0;
    RolesHeld(before, held, roles);
    NothingLent(before);
    while index < |roles|
      invariant 0 <= index <= |roles| && table.troubles == old(table.troubles)
      invariant Lending(before, table.owned, roles[..index], dups)
    {
      LendingKeeps(before, table.owned, roles[..index], dups);
      var duplicate, failed, directory := AnyDuplicate(table, roles[index], Real(held) + Real(dups));
      RealIsIn(held, duplicate);
      RealIsIn(dups, duplicate);
      if failed || duplicate < 3 || duplicate in held || duplicate in dups || !directory {
        CloseRejected(table, duplicate, held, dups);
        CloseOwned(table, dups);
        return None;
      }
      LentNext(before, table.owned - {duplicate}, roles[..index], dups, roles[index], duplicate);
      dups := dups + [duplicate];
      assert roles[..index + 1] == roles[..index] + [roles[index]];
      index := index + 1;
    }
    assert roles[..index] == roles;
    LendingKeeps(before, table.owned, roles, dups);
    return Some(dups);
  }

  /** How far lending has come: the first roles have new duplicates, owned besides what there was. */
  ghost predicate Lending(before: map<int, Place>, owned: map<int, Place>, roles: seq<int>, fds: seq<int>) {
    && |roles| == |fds| && (forall i :: 0 <= i < |roles| ==> roles[i] in before)
    && Sound(fds) && (forall i :: 0 <= i < |fds| ==> fds[i] >= 3 && fds[i] !in before)
    && owned == before + Lent(before, roles, fds)
  }

  lemma RolesHeld(before: map<int, Place>, held: seq<int>, roles: seq<int>)
    requires Real(held) <= before.Keys && forall i :: 0 <= i < |roles| ==> roles[i] >= 0 && roles[i] in held
    ensures forall i :: 0 <= i < |roles| ==> roles[i] in before
  {
    forall i | 0 <= i < |roles| ensures roles[i] in before { assert roles[i] in Real(held); }
  }

  lemma NothingLent(before: map<int, Place>)
    ensures Lending(before, before, [], [])
  {
    assert before + map[] == before;
  }

  lemma RealIsIn(fds: seq<int>, fd: int)
    ensures fd in Real(fds) <==> fd in fds && fd >= 0
  {
  }

  /** The duplicates fds of the roles, with the places they denote. */
  ghost function Lent(before: map<int, Place>, roles: seq<int>, fds: seq<int>): map<int, Place>
    requires |roles| == |fds| && forall i :: 0 <= i < |roles| ==> roles[i] in before
  {
    if roles == [] then map[]
    else
      var n := |roles| - 1;
      Lent(before, roles[..n], fds[..n])[fds[n] := before[roles[n]]]
  }

  lemma RealAfterAppend(fds: seq<int>, fd: int)
    requires fd >= 0
    ensures Real(fds + [fd]) == Real(fds) + {fd}
  {
    forall x | x in fds ensures x in fds + [fd] {
      var i :| 0 <= i < |fds| && fds[i] == x;
      assert (fds + [fd])[i] == x;
    }
    assert (fds + [fd])[|fds|] == fd;
  }

  lemma LentNext(before: map<int, Place>, owned: map<int, Place>, roles: seq<int>, fds: seq<int>, role: int, fd: int)
    requires Lending(before, owned, roles, fds) && role in before && fd >= 3 && fd !in fds && fd !in before
    ensures Lending(before, owned[fd := before[role]], roles + [role], fds + [fd])
  {
    assert (roles + [role])[..|roles|] == roles && (fds + [fd])[..|roles|] == fds;
  }

  /** Distinct duplicates denote what their roles do. */
  lemma {:induction false} LentDenotes(before: map<int, Place>, roles: seq<int>, fds: seq<int>)
    requires |roles| == |fds| && (forall i :: 0 <= i < |roles| ==> roles[i] in before) && Sound(fds) && forall i :: 0 <= i < |fds| ==> fds[i] >= 0
    ensures Lent(before, roles, fds).Keys == Real(fds)
    ensures forall i :: 0 <= i < |fds| ==> Denotes(before, roles[i], Lent(before, roles, fds), fds[i])
  {
    if roles != [] {
      var n := |roles| - 1;
      LentDenotes(before, roles[..n], fds[..n]);
      assert fds == fds[..n] + [fds[n]];
      RealAfterAppend(fds[..n], fds[n]);
      forall i | 0 <= i < |fds| ensures Denotes(before, roles[i], Lent(before, roles, fds), fds[i]) {
        if i < n { assert Denotes(before, roles[..n][i], Lent(before, roles[..n], fds[..n]), fds[..n][i]); }
      }
    }
  }

  /** What is owned while lending. */
  lemma LendingKeeps(before: map<int, Place>, owned: map<int, Place>, roles: seq<int>, fds: seq<int>)
    requires Lending(before, owned, roles, fds)
    ensures owned.Keys == before.Keys + Real(fds) && Real(fds) !! before.Keys
    ensures forall fd :: fd in before ==> owned[fd] == before[fd]
    ensures owned - Real(fds) == before
    ensures forall i :: 0 <= i < |fds| ==> Denotes(before, roles[i], owned, fds[i])
  {
    LentDenotes(before, roles, fds);
    forall i | 0 <= i < |fds| ensures Denotes(before, roles[i], owned, fds[i]) {
      assert Denotes(before, roles[i], Lent(before, roles, fds), fds[i]);
    }
  }
}
