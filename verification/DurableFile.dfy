/** How one record file is written: create, write in pieces, sync, verify, under a session that is rechecked
    around the operation. Every way this can go is one of the three publications of the ledger model. */
module DurableFile {
  import opened Base
  import opened RecoveryGraph
  import opened RecordName
  import opened LedgerStore

  const MAXIMUM_FILE_BYTES := 1048576
  const MAXIMUM_LEDGER_RECORDS := 256

  /** The directory after a publication that was reported as e. */
  predicate PublishedAs(before: Store, after: Store, id: RecordId, contents: bytes, p: Publication, e: Option<LedgerError>) {
    (after, e) == Publish(before, id, contents, p)
  }

  /** Only the interruption class is used once a directory entry may exist. */
  predicate InterruptedIfCreated(before: Store, after: Store, e: Option<LedgerError>) {
    e.None? || e == Some(Interrupted) || after == before
  }

  /** The classes of a failed directory sync or creation. */
  method ClassifyPreflight() returns (e: LedgerError)
    ensures e == Drifted || e == Unsupported || e == Interrupted
  {
    if * { return Drifted; }
    if * { return Unsupported; }
    return Interrupted;
  }

  /** A session. troubles counts what the system has reported or the context has ended while it was asked. */
  class PrivateLedgerSession {
    var files: Store
    var writable: bool
    var active: bool
    var troubles: nat

    constructor (files: Store, writable: bool)
      ensures this.files == files && this.writable == writable && active && troubles == 0
    {
      this.files, this.writable, active, troubles := files, writable, true, 0;
    }

    /** Whether a step fails that changes no file. */
    method Trouble() returns (failed: bool)
      modifies this`troubles
      ensures troubles == old(troubles) + if failed then 1 else 0
    {
      failed := *;
      if failed { troubles := troubles + 1; }
    }

    method Deactivate()
      modifies this`active
      ensures !active
    {
      active := false;
    }

    /** The write loop: each round the kernel takes some of the remaining bytes, or fails. */
    method WriteContents(id: RecordId, contents: bytes) returns (failed: bool)
      requires id in files && files[id] == []
      modifies this`files, this`troubles
      ensures exists n :: 0 <= n <= |contents| && files == old(files)[id := contents[..n]] && (!failed ==> n == |contents|)
      ensures if failed then troubles > old(troubles) else troubles == old(troubles)
    {
      var done := 0;
      while done < |contents|
        invariant 0 <= done <= |contents|
        invariant files == old(files)[id := contents[..done]] && troubles == old(troubles)
      {
        failed := Trouble();                         // the context
        if failed { return true; }
        var written: int := *;
        failed := *;                                 // the write
        if failed || written <= 0 || written > |contents| - done {
          troubles := troubles + 1;
          return true;
        }
        files := files[id := files[id] + contents[done..done + written]];
        assert contents[..done] + contents[done..done + written] == contents[..done + written];
        done := done + written;
      }
      return false;
    }

    /** Creating one new file: without an error exactly if it is small enough, the name is free and nothing fails. A
        report other than an interruption means nothing was created. */
    method PublishFileDurableAt(id: RecordId, contents: bytes) returns (e: Option<LedgerError>, ghost p: Publication)
      modifies this`files, this`troubles
      ensures PublishedAs(old(files), files, id, contents, p, e)
      ensures InterruptedIfCreated(old(files), files, e)
      ensures e.None? ==> files == old(files)[id := contents]
      ensures e.None? <==> |contents| <= 1048576 && id !in old(files) && troubles == old(troubles)
      ensures troubles >= old(troubles)
    {
      var failed := Trouble();                       // the context
      if failed { return Some(Interrupted), NotCreated(Interrupted); }
      if |contents| > MAXIMUM_FILE_BYTES { return Some(Unsupported), NotCreated(Unsupported); }
      failed := Trouble();                           // the directory
      if failed {
        var c := ClassifyPreflight();
        return Some(c), NotCreated(c);
      }
      if id in files { return Some(Drifted), NotCreated(Drifted); }
      failed := Trouble();                           // creating the entry
      if failed {
        var c := ClassifyPreflight();
        return Some(c), NotCreated(c);
      }
      files := files[id := []];
      failed := Trouble();                           // context and identity of the new entry
      if failed {
        assert contents[..0] == [];
        return Some(Interrupted), if |contents| > 0 then Torn(0) else Created(Some(Interrupted));
      }
      failed := WriteContents(id, contents);
      ghost var n :| 0 <= n <= |contents| && files == old(files)[id := []][id := contents[..n]] && (!failed ==> n == |contents|);
      assert files == old(files)[id := contents[..n]];
      assert contents[..|contents|] == contents;
      if failed { return Some(Interrupted), if n < |contents| then Torn(n) else Created(Some(Interrupted)); }
      failed := Trouble();                           // file sync, close, directory sync, reading back by name
      if failed { return Some(Interrupted), Created(Some(Interrupted)); }
      return None, Created(None);
    }

    /** The session's directory, lock and context, looked at again. */
    method Recheck() returns (e: Option<LedgerError>)
      modifies this`troubles
      ensures troubles == old(troubles) + if e.None? then 0 else 1
    {
      var failed := Trouble();
      if !failed { return None; }
      if * { return Some(Interrupted); }
      if * { return Some(Unsupported); }
      return Some(Drifted);
    }

    /** Publishing under the held session. The recheck that closes every session operation reports its error as it
        is, so here a record can exist after a report that is not an interruption: the last clause says when. */
    method PublishRecord(id: RecordId, contents: bytes) returns (e: Option<LedgerError>, ghost p: Publication, ghost lastRecheckFailed: bool)
      requires ValidId(id)
      modifies this`files, this`troubles
      ensures PublishedAs(old(files), files, id, contents, p, e)
      ensures !InterruptedIfCreated(old(files), files, e) ==> lastRecheckFailed && p == Created(e) && files == old(files)[id := contents]
      ensures !active || !writable || |old(files)| >= MAXIMUM_LEDGER_RECORDS ==> e.Some? && files == old(files)
      ensures e.None? ==> files == old(files)[id := contents]
      ensures e.None? <==>
                active && writable && |old(files)| < 256 && |contents| <= 1048576 && id !in old(files) && troubles == old(troubles)
      ensures troubles >= old(troubles)
    {
      lastRecheckFailed := false;
      if |contents| > MAXIMUM_FILE_BYTES { return Some(Unsupported), NotCreated(Unsupported), false; }
      if !active { return Some(Drifted), NotCreated(Drifted), false; }
      var before := Recheck();
      if before.Some? { return before, NotCreated(before.value), false; }
      if !writable { return Some(Unsupported), NotCreated(Unsupported), false; }
      if |files| >= MAXIMUM_LEDGER_RECORDS { return Some(Unsupported), NotCreated(Unsupported), false; }
      e, p := PublishFileDurableAt(id, contents);
      if e.Some? { return e, p, false; }
      var within := Recheck();
      if within.Some? { return Some(Interrupted), Created(Some(Interrupted)), false; }
      var after := Recheck();
      if after.Some? { return after, Created(after), true; }
      return None, Created(None), false;
    }
  }

  /** One publication in a write session of its own. The session serves this callback only and is dead afterwards; if
      its lock cannot be released, that is an interruption, and what was published stands. */
  method PublishInSession(files: Store, id: RecordId, contents: bytes)
    returns (session: PrivateLedgerSession, e: Option<LedgerError>, ghost p: Publication)
    requires ValidId(id)
    ensures fresh(session) && !session.active
    ensures PublishedAs(files, session.files, id, contents, p, e)
    ensures e.None? ==> session.files == files[id := contents]
    ensures e.None? <==> |files| < 256 && |contents| <= 1048576 && id !in files && session.troubles == 0
  {
    session := new PrivateLedgerSession(files, true);
    ghost var lastRecheckFailed;
    e, p, lastRecheckFailed := session.PublishRecord(id, contents);
    session.Deactivate();
    var unreleased := session.Trouble();
    if e.None? && unreleased { e, p := Some(Interrupted), Created(Some(Interrupted)); }
  }
}
