/** The ledger adapter: an object over a directory of record files, each method doing what its specification
    function on the directory says. */
module LedgerAdapter {
  import opened Base
  import opened RecoveryGraph
  import opened RecordName
  import opened RecoveryChain
  import opened RecoveryAppend
  import opened LedgerRecords
  import opened LedgerStore
  import opened LedgerSteps
  import opened Sorting

  // ----- the query loops -----

  /** Whether the histories hold as many frames as the ledger may. */
  method CapacityReached(hs: seq<History>) returns (full: bool)
    ensures full <==> FrameCount(hs) >= MAXIMUM_RECORDS
  {
    var count := 0;
    var index := 0;
    while index < |hs|
      invariant 0 <= index <= |hs|
      invariant count == FrameCount(hs[..index]) < MAXIMUM_RECORDS
    {
      assert hs[..index + 1][..index] == hs[..index];
      count := count + |hs[index].frames|;
      if count >= MAXIMUM_RECORDS {
        CountGrows(hs, index + 1);
        return true;
      }
      index := index + 1;
    }
    assert hs[..index] == hs;
    return false;
  }

  lemma {:induction false} CountGrows(hs: seq<History>, n: nat)
    requires n <= |hs|
    ensures FrameCount(hs[..n]) <= FrameCount(hs)
    decreases |hs| - n
  {
    if n == |hs| {
      assert hs[..n] == hs;
    } else {
      assert hs[..n + 1][..n] == hs[..n];
      CountGrows(hs, n + 1);
    }
  }

  method FindOutstandingRecovery(hs: seq<History>, root: bytes, source: seq<bytes>) returns (r: Result<Option<Recovery>, LedgerError>)
    ensures r == FindOutstanding(hs, root, source)
  {
    hide OutstandingFor;
    var found: Option<Recovery> := None;
    var index := 0;
    while index < |hs|
      invariant 0 <= index <= |hs|
      invariant Outstanding(hs[..index], root, source) == if found.Some? then [found.value] else []
    {
      assert hs[..index + 1][..index] == hs[..index];
      if OutstandingFor(hs[index], root, source) {
        if found.Some? {
          OutstandingGrows(hs, index + 1, root, source);
          return Failure(Conflict);
        }
        found := Some(hs[index].recovery);
      }
      index := index + 1;
    }
    assert hs[..index] == hs;
    return Success(found);
  }

  lemma {:induction false} OutstandingGrows(hs: seq<History>, n: nat, root: bytes, source: seq<bytes>)
    requires n <= |hs|
    ensures |Outstanding(hs[..n], root, source)| <= |Outstanding(hs, root, source)|
    decreases |hs| - n
  {
    if n == |hs| {
      assert hs[..n] == hs;
    } else {
      assert hs[..n + 1][..n] == hs[..n];
      OutstandingGrows(hs, n + 1, root, source);
    }
  }

  /** The open recoveries in key order. */
  function AllOpen(hs: seq<History>): seq<Recovery> {
    if hs == [] then []
    else
      var n := |hs| - 1;
      AllOpen(hs[..n]) + if Open(hs[n]) then [hs[n].recovery] else []
  }

  lemma AllOpenOne(h: History)
    ensures AllOpen([h]) == if Closed(h.recovery.fact) then [] else [h.recovery]
  {
    assert [h][..0] == [];
  }

  /** One by one, in the order of the histories, the closed ones left out. */
  lemma {:induction false} AllOpenJoin(a: seq<History>, b: seq<History>)
    ensures AllOpen([]) == [] && AllOpen(a + b) == AllOpen(a) + AllOpen(b)
    ensures |b| == 1 ==> AllOpen(b) == if Closed(b[0].recovery.fact) then [] else [b[0].recovery]
    decreases |b|
  {
    if |b| == 1 {
      assert b == [b[0]];
      AllOpenOne(b[0]);
    }
    hide Open;
    if b == [] {
      assert a + b == a;
    } else {
      var n := |b| - 1;
      AllOpenJoin(a, b[..n]);
      assert (a + b)[..|a + b| - 1] == a + b[..n];
    }
  }

  /** Never a truncated list: too many open recoveries is an error. */
  method OutstandingRecoveries(hs: seq<History>, limit: int) returns (r: Result<seq<Recovery>, LedgerError>)
    ensures r == if limit <= 0 || limit > MAXIMUM_RECORDS || |AllOpen(hs)| > limit then Failure(Unsupported) else Success(AllOpen(hs))
  {
    hide Open;
    if limit <= 0 || limit > MAXIMUM_RECORDS { return Failure(Unsupported); }
    var recoveries: seq<Recovery> := [];
    var index := 0;
    while index < |hs|
      invariant 0 <= index <= |hs| && |recoveries| <= limit
      invariant recoveries == AllOpen(hs[..index])
    {
      assert hs[..index + 1][..index] == hs[..index];
      if Open(hs[index]) {
        if |recoveries| == limit {
          AllOpenGrows(hs, index + 1);
          return Failure(Unsupported);
        }
        recoveries := recoveries + [hs[index].recovery];
      }
      index := index + 1;
    }
    assert hs[..index] == hs;
    return Success(recoveries);
  }

  lemma {:induction false} AllOpenGrows(hs: seq<History>, n: nat)
    requires n <= |hs|
    ensures |AllOpen(hs[..n])| <= |AllOpen(hs)|
    decreases |hs| - n
  {
    if n == |hs| {
      assert hs[..n] == hs;
    } else {
      assert hs[..n + 1][..n] == hs[..n];
      AllOpenGrows(hs, n + 1);
    }
  }

  /** The inventory lists exactly the open recoveries. */
  lemma {:induction false} AllOpenMembers(hs: seq<History>, r: Recovery)
    ensures r in AllOpen(hs) <==> exists i :: 0 <= i < |hs| && Open(hs[i]) && hs[i].recovery == r
  {
    if hs != [] {
      var n := |hs| - 1;
      AllOpenMembers(hs[..n], r);
      assert forall i :: 0 <= i < n ==> hs[..n][i] == hs[i];
    }
  }

  method FindRecoveryHistory(hs: seq<History>, k: Key) returns (r: Option<History>)
    ensures r == FindHistory(hs, k)
  {
    var index := 0;
    while index < |hs|
      invariant 0 <= index <= |hs|
      invariant FindHistory(hs, k) == FindHistory(hs[index..], k)
    {
      if Identifies(hs[index], k) { return Some(hs[index]); }
      assert hs[index..][1..] == hs[index + 1..];
      index := index + 1;
    }
    return None;
  }

  // ----- the adapter -----

  /** What a read comes to: an outcome of the session, or what the records say. */
  ghost function Readable(c: Codec, s: Store, unreadable: Option<LedgerError>): Result<seq<History>, LedgerError>
    requires ValidNames(s)
  {
    if unreadable.Some? then Failure(unreadable.value) else View(c, s)
  }

  class RecoveryLedger {
    const codec: Codec
    var records: Store

    constructor (codec: Codec, records: Store)
      ensures this.codec == codec && this.records == records
    {
      this.codec := codec;
      this.records := records;
    }

    /** The record identities in name order. */
    method List() returns (ids: seq<RecordId>)
      requires ValidNames(records)
      ensures ids == Names(records) && forall id :: id in ids <==> id in records
      ensures Sorted(NameLess, ids)
    {
      hide NameLess, ValidId;
      var remaining := records.Keys;
      var listed: seq<RecordId> := [];
      while remaining != {}
        invariant Distinct(listed) && remaining <= records.Keys
        invariant forall id :: id in listed <==> id in records && id !in remaining
        decreases remaining
      {
        var id :| id in remaining;
        assert id !in listed;
        listed := listed + [id];
        remaining := remaining - {id};
      }
      NamesSorted(records, listed);
      ids := Sort(NameLess, listed);
    }

    /** Lists, reads every record, and replays; nothing is skipped. */
    method ReadHistories(unreadable: Option<LedgerError>) returns (r: Result<seq<History>, LedgerError>)
      requires ValidNames(records)
      ensures r == Readable(codec, records, unreadable)
    {
      hide Names, ValidNames, ReplayRecords;
      if unreadable.Some? { return Failure(unreadable.value); }
      var ids := List();
      var read: seq<Record> := [];
      var index := 0;
      while index < |ids|
        invariant 0 <= index <= |ids| && |read| == index
        invariant forall i :: 0 <= i < index ==> read[i] == Record(ids[i], records[ids[i]])
      {
        read := read + [Record(ids[index], records[ids[index]])];
        index := index + 1;
      }
      assert read == Listing(records);
      r := ReplayLedgerRecords(codec, read);
    }

    /** Durable publication under the final name. */
    method PublishRecord(id: RecordId, contents: bytes, p: Publication) returns (e: Option<LedgerError>)
      modifies this
      ensures (records, e) == Publish(old(records), id, contents, p)
    {
      if p.NotCreated? { return Some(p.error); }
      if id in records { return Some(Drifted); }
      if p.Torn? && p.kept < |contents| {
        records := records[id := contents[..p.kept]];
        return Some(Interrupted);
      }
      records := records[id := contents];
      return if p.Created? then p.report else Some(Interrupted);
    }

    method PublishDraft(d: Draft, p: Publication) returns (answer: Answer)
      requires ValidNames(records) && Drafted(codec, d)
      modifies this
      ensures var (t, e) := Publish(old(records), IdOf(d.frame), d.contents, p);
              records == t && answer == PublicationAnswer(codec, d.frame, e)
      ensures ValidNames(records)
    {
      DraftNames(codec, d);
      hide Drafted, ValidId, Ticket;
      var e := PublishRecord(IdOf(d.frame), d.contents, p);
      answer := PublicationAnswer(codec, d.frame, e);
    }

    /** The frame a reservation publishes. */
    method PlanReserve(b: Binding, unreadable: Option<LedgerError>) returns (r: Result<Draft, LedgerError>)
      requires ValidNames(records)
      ensures forall p :: r == Plan(codec, records, LedgerSteps.Reserve(b), Weather(unreadable, p))
    {
      hide ValidBinding, View, EncodeFrame, ValidNames, FrameCount, FindOutstanding;
      if !ValidBinding(codec, b, SCHEMA_V2) { return Failure(Unsupported); }
      var histories := ReadHistories(unreadable);
      if histories.Failure? { return Failure(histories.error); }
      var full := CapacityReached(histories.value);
      if full { return Failure(Conflict); }
      var existing := FindOutstandingRecovery(histories.value, b.root, b.source);
      if existing.Failure? { return Failure(existing.error); }
      if existing.value.Some? { return Failure(Conflict); }
      return DraftOf(codec, IntentFrame(b));
    }

    method Reserve(b: Binding, w: Weather) returns (answer: Answer)
      requires ValidNames(records)
      modifies this
      ensures (records, answer) == Step(codec, old(records), LedgerSteps.Reserve(b), w)
    {
      hide Plan, ValidNames, Drafted, Ticket, Publish;
      var plan := PlanReserve(b, w.unreadable);
      if plan.Failure? { return Refused(plan.error); }
      PlanDrafts(codec, records, LedgerSteps.Reserve(b), w);
      answer := PublishDraft(plan.value, w.publication);
    }

    /** The frame a transition publishes: of the ticket only its identity is used. */
    method PlanTransition(ticket: Recovery, fact: Fact, unreadable: Option<LedgerError>) returns (r: Result<Draft, LedgerError>)
      requires ValidNames(records)
      ensures forall p :: r == Plan(codec, records, Advance(KeyOf(ticket.binding), fact), Weather(unreadable, p))
    {
      hide View, EncodeFrame, ValidNames, FrameCount, FindHistory, ValidId, Append, Apply;
      var k := KeyOf(ticket.binding);
      if !ValidId(RecordId(k.digest, k.token, 0)) { return Failure(Unsupported); }
      var histories := ReadHistories(unreadable);
      if histories.Failure? { return Failure(histories.error); }
      var history := FindRecoveryHistory(histories.value, k);
      if history.None? { return Failure(Conflict); }
      if history.value.recovery.schema != SCHEMA_V2 { return Failure(Unsupported); }
      var full := CapacityReached(histories.value);
      if full { return Failure(Conflict); }
      var next := Append(codec, history.value.frames, fact);
      if next.Failure? { return Failure(next.error); }
      var candidate := Apply(codec, history.value.recovery, next.value);
      if candidate.Failure? { return Failure(candidate.error); }
      return DraftOf(codec, next.value);
    }

    method Transition(ticket: Recovery, fact: Fact, w: Weather) returns (answer: Answer)
      requires ValidNames(records)
      modifies this
      ensures (records, answer) == Step(codec, old(records), Advance(KeyOf(ticket.binding), fact), w)
    {
      hide Plan, ValidNames, Drafted, Ticket, Publish;
      var plan := PlanTransition(ticket, fact, w.unreadable);
      if plan.Failure? { return Refused(plan.error); }
      PlanDrafts(codec, records, Advance(KeyOf(ticket.binding), fact), w);
      answer := PublishDraft(plan.value, w.publication);
    }

    /** The sole open recovery of a source; by NeverAmbiguous a readable ledger always gives an answer. */
    method FindOutstandingFor(root: bytes, source: seq<bytes>, unreadable: Option<LedgerError>) returns (r: Result<Option<Recovery>, LedgerError>)
      requires ValidNames(records)
      ensures !PathBytes.ValidStableId(root) || !ValidRecoveryPath(source) ==> r == Failure(Unsupported)
      ensures PathBytes.ValidStableId(root) && ValidRecoveryPath(source) ==>
                match Readable(codec, records, unreadable)
                case Failure(e) => r == Failure(e)
                case Success(hs) => r.Success? && r == FindOutstanding(hs, root, source)
    {
      hide View, ValidNames, ValidRecoveryPath, PathBytes.ValidStableId, Outstanding;
      if !PathBytes.ValidStableId(root) { return Failure(Unsupported); }
      if !ValidRecoveryPath(source) { return Failure(Unsupported); }
      var histories := ReadHistories(unreadable);
      if histories.Failure? { return Failure(histories.error); }
      r := FindOutstandingRecovery(histories.value, root, source);
      ReadableIsUnambiguous(codec, records, root, source);
    }

    method ListOutstanding(limit: int, unreadable: Option<LedgerError>) returns (r: Result<seq<Recovery>, LedgerError>)
      requires ValidNames(records)
      ensures !(1 <= limit <= 128) ==> r == Failure(Unsupported)
      ensures 1 <= limit <= 128 ==>
                match Readable(codec, records, unreadable)
                case Failure(e) => r == Failure(e)
                case Success(hs) => r == if |AllOpen(hs)| > limit then Failure(Unsupported) else Success(AllOpen(hs))
    {
      hide View, ValidNames, AllOpen;
      if limit <= 0 || limit > MAXIMUM_RECORDS { return Failure(Unsupported); }
      var histories := ReadHistories(unreadable);
      if histories.Failure? { return Failure(histories.error); }
      r := OutstandingRecoveries(histories.value, limit);
    }

    /** The retained state of a recovery, whatever the rest of the ticket says. */
    method Reload(ticket: Recovery, unreadable: Option<LedgerError>) returns (r: Result<Recovery, LedgerError>)
      requires ValidNames(records)
      ensures !ValidId(RecordId(ticket.binding.digest, ticket.binding.token, 0)) ==> r == Failure(Unsupported)
      ensures ValidId(RecordId(ticket.binding.digest, ticket.binding.token, 0)) ==>
                match Readable(codec, records, unreadable)
                case Failure(e) => r == Failure(e)
                case Success(hs) =>
                  (match FindHistory(hs, KeyOf(ticket.binding))
                   case None => r == Failure(Conflict)
                   case Some(h) => r == Success(h.recovery))
    {
      hide View, ValidNames, FindHistory, ValidId;
      if !ValidId(RecordId(ticket.binding.digest, ticket.binding.token, 0)) { return Failure(Unsupported); }
      var histories := ReadHistories(unreadable);
      if histories.Failure? { return Failure(histories.error); }
      var history := FindRecoveryHistory(histories.value, KeyOf(ticket.binding));
      if history.None? { return Failure(Conflict); }
      return Success(history.value.recovery);
    }
  }

  lemma ReadableIsUnambiguous(c: Codec, s: Store, root: bytes, source: seq<bytes>)
    requires ValidNames(s) && View(c, s).Success?
    ensures FindOutstanding(View(c, s).value, root, source).Success?
  {
    hide ReplayRecords, FindOutstanding, Listing, ValidNames;
    NeverAmbiguous(c, Listing(s), root, source);
  }
}
