/** Reserve and Transition as functions on the directory, and as functions on the ledger it holds. */
module LedgerSteps {
  import opened Base
  import opened RecoveryGraph
  import opened RecordName
  import opened RecoveryChain
  import opened RecoveryAppend
  import opened LedgerRecords
  import opened LedgerInventory
  import opened LedgerStore

  /** Advance carries only the identity of the caller's ticket: everything else in it is ignored. */
  datatype Request = Reserve(binding: Binding) | Advance(key: Key, fact: Fact)

  /** What the caller is given. */
  datatype Answer = Answer(ticket: Option<Recovery>, error: Option<LedgerError>)

  /** What the surroundings do to one call: the session or a record cannot be read, or how the publication goes. */
  datatype Weather = Weather(unreadable: Option<LedgerError>, publication: Publication)

  function Refused(e: LedgerError): Answer { Answer(None, Some(e)) }

  // ----- queries over the replayed histories -----

  function FrameCount(hs: seq<History>): nat {
    if hs == [] then 0 else FrameCount(hs[..|hs| - 1]) + |hs[|hs| - 1].frames|
  }

  predicate OutstandingFor(h: History, root: bytes, source: seq<bytes>) {
    Open(h) && h.recovery.binding.root == root && h.recovery.binding.source == source
  }

  function Outstanding(hs: seq<History>, root: bytes, source: seq<bytes>): seq<Recovery> {
    if hs == [] then []
    else
      var n := |hs| - 1;
      Outstanding(hs[..n], root, source) + if OutstandingFor(hs[n], root, source) then [hs[n].recovery] else []
  }

  /** The sole open recovery of a source, none, or a conflict if there are several. */
  function FindOutstanding(hs: seq<History>, root: bytes, source: seq<bytes>): Result<Option<Recovery>, LedgerError> {
    var found := Outstanding(hs, root, source);
    if |found| == 0 then Success(None) else if |found| == 1 then Success(Some(found[0])) else Failure(Conflict)
  }

  predicate Identifies(h: History, k: Key) {
    KeyOf(h.recovery.binding) == k
  }

  function FindHistory(hs: seq<History>, k: Key): Option<History> {
    if hs == [] then None else if Identifies(hs[0], k) then Some(hs[0]) else FindHistory(hs[1..], k)
  }

  // ----- the two calls -----

  function IntentFrame(b: Binding): Frame {
    Frame(SCHEMA_V2, b, INTENT, 0, ZERO_DIGEST)
  }

  /** What is checked before the ledger is read. */
  function Admit(c: Codec, q: Request): Check<LedgerError> {
    match q
    case Reserve(b) => if ValidBinding(c, b, SCHEMA_V2) then Pass else Fail(Unsupported)
    case Advance(k, _) => if ValidId(RecordId(k.digest, k.token, 0)) then Pass else Fail(Unsupported)
  }

  /** The frame a call would publish, given the replayed histories. */
  function NextFrame(c: Codec, hs: seq<History>, q: Request): Result<Frame, LedgerError> {
    match q
    case Reserve(b) =>
      if FrameCount(hs) >= MAXIMUM_RECORDS then Failure(Conflict)
      else
        (match FindOutstanding(hs, b.root, b.source)
         case Failure(e) => Failure(e)
         case Success(Some(_)) => Failure(Conflict)
         case Success(None) => Encoded(c, IntentFrame(b)))
    case Advance(k, t) =>
      match FindHistory(hs, k)
      case None => Failure(Conflict)
      case Some(h) =>
        if h.recovery.schema != SCHEMA_V2 then Failure(Unsupported)
        else if FrameCount(hs) >= MAXIMUM_RECORDS then Failure(Conflict)
        else
          match Append(c, h.frames, t)
          case Failure(e) => Failure(e)
          case Success(f) =>
            match Apply(c, h.recovery, f)
            case Failure(e) => Failure(e)
            case Success(_) => Encoded(c, f)
  }

  function Encoded(c: Codec, f: Frame): Result<Frame, LedgerError> {
    match EncodeFrame(c, f)
    case Failure(e) => Failure(e)
    case Success(_) => Success(f)
  }

  /** The ticket for a history whose last frame is f. */
  function Ticket(c: Codec, f: Frame): Recovery { RecoveryOf(c, [f]) }

  /** A ticket accompanies an error only if that error is an interruption. */
  function PublicationAnswer(c: Codec, f: Frame, e: Option<LedgerError>): Answer {
    Answer(if e == None || e == Some(Interrupted) then Some(Ticket(c, f)) else None, e)
  }

  /** A frame with its bytes. */
  datatype Draft = Draft(frame: Frame, contents: bytes)

  predicate Drafted(c: Codec, d: Draft) {
    EncodeFrame(c, d.frame) == Success(d.contents)
  }

  function DraftOf(c: Codec, f: Frame): Result<Draft, LedgerError> {
    match EncodeFrame(c, f)
    case Failure(e) => Failure(e)
    case Success(contents) => Success(Draft(f, contents))
  }

  /** The record a call is about to publish, or why it refuses. */
  ghost function Plan(c: Codec, s: Store, q: Request, w: Weather): Result<Draft, LedgerError>
    requires ValidNames(s)
  {
    if Admit(c, q).Fail? then Failure(Admit(c, q).error)
    else if w.unreadable.Some? then Failure(w.unreadable.value)
    else
      match View(c, s)
      case Failure(e) => Failure(e)
      case Success(hs) =>
        match NextFrame(c, hs, q)
        case Failure(e) => Failure(e)
        case Success(f) => DraftOf(c, f)
  }

  lemma DraftNames(c: Codec, d: Draft)
    requires Drafted(c, d)
    ensures ValidId(IdOf(d.frame))
  {
  }

  lemma PlanDrafts(c: Codec, s: Store, q: Request, w: Weather)
    requires ValidNames(s) && Plan(c, s, q, w).Success?
    ensures Drafted(c, Plan(c, s, q, w).value)
  {
    hide View, NextFrame, EncodeFrame;
  }

  ghost function Step(c: Codec, s: Store, q: Request, w: Weather): (r: (Store, Answer))
    requires ValidNames(s)
    ensures ValidNames(r.0)
  {
    hide Plan, ValidId, Drafted;
    match Plan(c, s, q, w)
    case Failure(e) => (s, Refused(e))
    case Success(d) =>
      PlanDrafts(c, s, q, w);
      DraftNames(c, d);
      var (after, e) := Publish(s, IdOf(d.frame), d.contents, w.publication);
      (after, PublicationAnswer(c, d.frame, e))
  }

  // ----- the same calls on the ledger itself -----

  predicate OpenFor(h: seq<Frame>, root: bytes, source: seq<bytes>) {
    OpenFrames(h) && h[0].binding.root == root && h[0].binding.source == source
  }

  ghost predicate SourceOpen(hs: Ledger, root: bytes, source: seq<bytes>) {
    exists k :: k in hs && OpenFor(hs[k], root, source)
  }

  ghost function Size(c: Codec, hs: Ledger): nat
    requires NonEmpty(hs)
  {
    FrameCount(Histories(c, hs))
  }

  /** The frame a call would publish, read off the map of histories. */
  ghost function Decide(c: Codec, hs: Ledger, q: Request): Result<Frame, LedgerError>
    requires NonEmpty(hs)
  {
    match q
    case Reserve(b) =>
      if Size(c, hs) >= MAXIMUM_RECORDS || SourceOpen(hs, b.root, b.source) then Failure(Conflict)
      else Encoded(c, IntentFrame(b))
    case Advance(k, t) =>
      if k !in hs then Failure(Conflict)
      else if hs[k][0].schema != SCHEMA_V2 then Failure(Unsupported)
      else if Size(c, hs) >= MAXIMUM_RECORDS then Failure(Conflict)
      else
        match Append(c, hs[k], t)
        case Failure(e) => Failure(e)
        case Success(f) => Encoded(c, f)
  }

  /** The ledger as its readers know it; once torn it can no longer be read. */
  datatype State = State(hs: Ledger, torn: bool)

  function PublishAbstractly(st: State, f: Frame, size: nat, p: Publication): (r: (State, Option<LedgerError>))
    requires NonEmpty(st.hs)
    ensures NonEmpty(r.0.hs)
  {
    if p.NotCreated? then (st, Some(p.error))
    else if Kept(st.hs, IdOf(f)).Some? then (st, Some(Drifted))
    else if p.Torn? && p.kept < size then (st.(torn := true), Some(Interrupted))
    else (st.(hs := AddFrame(st.hs, f)), if p.Created? then p.report else Some(Interrupted))
  }

  ghost function AbstractPlan(c: Codec, st: State, q: Request, w: Weather): Result<Draft, LedgerError>
    requires NonEmpty(st.hs)
  {
    if Admit(c, q).Fail? then Failure(Admit(c, q).error)
    else if w.unreadable.Some? then Failure(w.unreadable.value)
    else if st.torn then Failure(Corrupt)
    else
      match Decide(c, st.hs, q)
      case Failure(e) => Failure(e)
      case Success(f) => DraftOf(c, f)
  }

  ghost function AbstractStep(c: Codec, st: State, q: Request, w: Weather): (r: (State, Answer))
    requires NonEmpty(st.hs)
    ensures NonEmpty(r.0.hs)
  {
    hide AbstractPlan, PublishAbstractly, NonEmpty, PublicationAnswer;
    match AbstractPlan(c, st, q, w)
    case Failure(e) => (st, Refused(e))
    case Success(d) =>
      var (after, e) := PublishAbstractly(st, d.frame, |d.contents|, w.publication);
      (after, PublicationAnswer(c, d.frame, e))
  }

  /** The directory s stands for the state st. */
  ghost predicate Stands(c: Codec, st: State, s: Store) {
    && WellFormed(c, st.hs) && NonEmpty(st.hs) && ValidNames(s) && |s| <= MAXIMUM_RECORDS
    && if st.torn then View(c, s).Failure? else Represents(c, st.hs, s)
  }

  // ----- queries agree -----

  /** The replayed history under a key, seen from both sides. */
  lemma HistoryAt(c: Codec, hs: Ledger, k: Key, l: Key, root: bytes, source: seq<bytes>)
    requires WellFormed(c, hs) && k in hs
    ensures |hs[k]| > 0
    ensures var h := History(hs[k], RecoveryOf(c, hs[k]));
            && (Identifies(h, l) <==> k == l)
            && (OutstandingFor(h, root, source) <==> OpenFor(hs[k], root, source))
  {
    HistoryFacts(c, hs[k]);
  }

  lemma FindFirst(c: Codec, hs: Ledger, keys: seq<Key>, k: Key)
    requires NonEmpty(hs) && keys != [] && forall l :: l in keys ==> l in hs
    ensures forall l :: l in keys[1..] ==> l in keys
    ensures keys[0] in hs
    ensures FindHistory(HistoriesFor(c, hs, keys), k) ==
              var h := History(hs[keys[0]], RecoveryOf(c, hs[keys[0]]));
              if Identifies(h, k) then Some(h) else FindHistory(HistoriesFor(c, hs, keys[1..]), k)
  {
    var r := HistoriesFor(c, hs, keys);
    assert keys[0] in keys;
    hide Identifies, RecoveryOf;
    assert forall l :: l in keys[1..] ==> l in keys;
    assert r[1..] == HistoriesFor(c, hs, keys[1..]);
  }

  lemma {:induction false} HistoryFound(c: Codec, hs: Ledger, keys: seq<Key>, k: Key)
    requires WellFormed(c, hs) && NonEmpty(hs) && forall l :: l in keys ==> l in hs
    ensures k in keys ==> k in hs && FindHistory(HistoriesFor(c, hs, keys), k) == Some(History(hs[k], RecoveryOf(c, hs[k])))
    ensures k !in keys ==> FindHistory(HistoriesFor(c, hs, keys), k) == None
    decreases |keys|
  {
    if keys != [] {
      hide WellFormed, Identifies, RecoveryOf, FindHistory, HistoriesFor, OutstandingFor, OpenFor;
      FindFirst(c, hs, keys, k);
      HistoryAt(c, hs, keys[0], k, [], []);
      assert k in keys <==> k == keys[0] || k in keys[1..];
      HistoryFound(c, hs, keys[1..], k);
    }
  }

  lemma {:induction false} OutstandingMembers(hs: seq<History>, root: bytes, source: seq<bytes>)
    ensures forall r :: r in Outstanding(hs, root, source) <==> exists i :: 0 <= i < |hs| && OutstandingFor(hs[i], root, source) && hs[i].recovery == r
    ensures (forall i :: 0 <= i < |hs| ==> !OutstandingFor(hs[i], root, source)) <==> Outstanding(hs, root, source) == []
  {
    if hs != [] {
      var n := |hs| - 1;
      var before := hs[..n];
      OutstandingMembers(before, root, source);
      assert forall i :: 0 <= i < n ==> before[i] == hs[i];
    }
  }

  /** With unique open sources the search finds one recovery at most. */
  lemma {:induction false} AtMostOneOutstanding(hs: seq<History>, root: bytes, source: seq<bytes>)
    requires UniqueOpenSources(hs)
    ensures |Outstanding(hs, root, source)| <= 1
  {
    if hs != [] {
      var n := |hs| - 1;
      var before := hs[..n];
      assert UniqueOpenSources(before);
      AtMostOneOutstanding(before, root, source);
      OutstandingMembers(before, root, source);
      if OutstandingFor(hs[n], root, source) {
        forall i | 0 <= i < n ensures !OutstandingFor(before[i], root, source) {
          assert Open(hs[n]);
          assert Open(hs[i]) ==> SourceKey(hs[i].recovery.binding) != SourceKey(hs[n].recovery.binding);
          assert before[i] == hs[i];
        }
      }
    }
  }

  /** Accepting the records rules out the ambiguity error of every later search, for any root and path. */
  lemma NeverAmbiguous(c: Codec, rs: seq<Record>, root: bytes, source: seq<bytes>)
    requires ReplayRecords(c, rs).Success?
    ensures FindOutstanding(ReplayRecords(c, rs).value, root, source).Success?
  {
    hide DecodeAll, Groups, ReplayGroups, UniqueOpenSources, Outstanding;
    AtMostOneOutstanding(ReplayRecords(c, rs).value, root, source);
  }

  lemma OutstandingAt(c: Codec, hs: Ledger, keys: seq<Key>, i: nat, root: bytes, source: seq<bytes>)
    requires WellFormed(c, hs) && NonEmpty(hs) && (forall k :: k in keys ==> k in hs) && i < |keys|
    ensures keys[i] in hs && (OutstandingFor(HistoriesFor(c, hs, keys)[i], root, source) <==> OpenFor(hs[keys[i]], root, source))
  {
    hide WellFormed, OutstandingFor, OpenFor, RecoveryOf, Identifies;
    assert keys[i] in keys;
    HistoryAt(c, hs, keys[i], keys[i], root, source);
  }

  lemma OutstandingIsOpen(c: Codec, hs: Ledger, root: bytes, source: seq<bytes>)
    requires WellFormed(c, hs) && NonEmpty(hs)
    ensures Outstanding(Histories(c, hs), root, source) == [] <==> !SourceOpen(hs, root, source)
  {
    var keys := SortedKeys(hs.Keys);
    KeysOf(hs);
    OutstandingInKeys(c, hs, keys, root, source);
  }

  lemma OutstandingInKeys(c: Codec, hs: Ledger, keys: seq<Key>, root: bytes, source: seq<bytes>)
    requires WellFormed(c, hs) && NonEmpty(hs) && forall k :: k in keys <==> k in hs
    ensures Outstanding(HistoriesFor(c, hs, keys), root, source) == [] <==> !SourceOpen(hs, root, source)
  {
    hide WellFormed, OutstandingFor, OpenFor, Outstanding, HistoriesFor, NonEmpty;
    var r := HistoriesFor(c, hs, keys);
    OutstandingMembers(r, root, source);
    forall i | 0 <= i < |keys| ensures keys[i] in hs && (OutstandingFor(r[i], root, source) <==> OpenFor(hs[keys[i]], root, source)) {
      OutstandingAt(c, hs, keys, i, root, source);
    }
    if SourceOpen(hs, root, source) {
      var k :| k in hs && OpenFor(hs[k], root, source);
      assert k in keys;
      var i :| 0 <= i < |keys| && keys[i] == k;
      assert OutstandingFor(r[i], root, source);
    }
  }

  lemma {:induction false} FlattenLength(c: Codec, hs: seq<History>)
    ensures |Flatten(c, hs)| == FrameCount(hs)
  {
    if hs != [] { FlattenLength(c, hs[..|hs| - 1]); }
  }

  /** The capacity count is the number of files. */
  lemma SizeIsRecords(c: Codec, hs: Ledger, s: Store)
    requires WellFormed(c, hs) && NonEmpty(hs) && Represents(c, hs, s)
    ensures Size(c, hs) == |s|
  {
    hide WellFormed, Represents, Listing, Histories, Flatten, FrameCount;
    RepresentsLists(c, hs, s);
    FlattenLists(c, hs);
    ListingsAgree(c, hs, Listing(s), Flatten(c, Histories(c, hs)));
    FlattenLength(c, Histories(c, hs));
  }

  // ----- the two forms of a call agree -----

  lemma AppendedApplies(c: Codec, h: seq<Frame>, t: Fact, f: Frame)
    requires ValidHistory(c, h) && Append(c, h, t) == Success(f)
    ensures match Apply(c, RecoveryOf(c, h), f)
            case Success(r) => r == Ticket(c, f) && EncodeFrame(c, f).Success?
            case Failure(e) => EncodeFrame(c, f) == Failure(e)
  {
    ReplayAccepts(c, h);
    hide ValidHistory, Replay, ValidateTransition, ValidateFrame;
  }

  lemma ReserveDecides(c: Codec, hs: Ledger, b: Binding)
    requires WellFormed(c, hs) && NonEmpty(hs)
    ensures NextFrame(c, Histories(c, hs), Reserve(b)) == Decide(c, hs, Reserve(b))
  {
    hide WellFormed, NonEmpty, Histories, EncodeFrame, FrameCount, Outstanding, SourceOpen, OpenFor;
    OutstandingIsOpen(c, hs, b.root, b.source);
  }

  lemma LedgerHistoryFound(c: Codec, hs: Ledger, k: Key)
    requires WellFormed(c, hs) && NonEmpty(hs)
    ensures FindHistory(Histories(c, hs), k) == if k in hs then Some(History(hs[k], RecoveryOf(c, hs[k]))) else None
  {
    KeysOf(hs);
    HistoryFound(c, hs, SortedKeys(hs.Keys), k);
  }

  lemma AdvanceDecides(c: Codec, hs: Ledger, k: Key, t: Fact)
    requires WellFormed(c, hs) && NonEmpty(hs)
    ensures NextFrame(c, Histories(c, hs), Advance(k, t)) == Decide(c, hs, Advance(k, t))
  {
    hide WellFormed, NonEmpty, ValidHistory, Histories, Append, Apply, EncodeFrame, FrameCount, RecoveryOf, FindHistory;
    LedgerHistoryFound(c, hs, k);
    if k in hs {
      HistoryOf(c, hs, k);
      if Append(c, hs[k], t).Success? { AppendedApplies(c, hs[k], t, Append(c, hs[k], t).value); }
    }
  }

  lemma NextFrameDecides(c: Codec, hs: Ledger, q: Request)
    requires WellFormed(c, hs) && NonEmpty(hs)
    ensures NextFrame(c, Histories(c, hs), q) == Decide(c, hs, q)
  {
    hide *;
    match q
    case Reserve(b) => ReserveDecides(c, hs, b);
    case Advance(k, t) => AdvanceDecides(c, hs, k, t);
  }

  lemma HistoryOf(c: Codec, hs: Ledger, k: Key)
    requires WellFormed(c, hs) && k in hs
    ensures |hs[k]| > 0 && ValidHistory(c, hs[k]) && KeyOf(hs[k][0].binding) == k
    ensures RecoveryOf(c, hs[k]).schema == hs[k][0].schema && RecoveryOf(c, hs[k]).binding == hs[k][0].binding
  {
    HistoryFacts(c, hs[k]);
  }

  /** Where a call publishes: at the head of a new history, or at the end of an open v2 one. */
  ghost predicate Continues(c: Codec, hs: Ledger, f: Frame) {
    var k := KeyOf(f.binding);
    && f.schema == SCHEMA_V2 && EncodeFrame(c, f).Success?
    && if k in hs then
         && |hs[k]| > 0 && f.ordinal == |hs[k]| && OpenFrames(hs[k]) && hs[k][0].schema == SCHEMA_V2
         && f.binding == hs[k][0].binding && ValidHistory(c, hs[k] + [f])
       else f.ordinal == 0 && ValidHistory(c, [f]) && !SourceOpen(hs, f.binding.root, f.binding.source)
  }

  lemma IntentStarts(c: Codec, b: Binding)
    requires EncodeFrame(c, IntentFrame(b)).Success?
    ensures ValidHistory(c, [IntentFrame(b)])
  {
    assert Chained(c, [IntentFrame(b)], 0);
  }

  lemma AppendContinues(c: Codec, h: seq<Frame>, t: Fact, f: Frame)
    requires ValidHistory(c, h) && h[0].schema == SCHEMA_V2 && Append(c, h, t) == Success(f) && EncodeFrame(c, f).Success?
    ensures f.fact == t && f.ordinal == |h| && f.schema == SCHEMA_V2 && f.binding == h[0].binding
    ensures ValidHistory(c, h + [f]) && OpenFrames(h)
  {
    ReplayAccepts(c, h);
    AppendedFact(c, h, t, f);
    AppendReplays(c, h, f);
    ReplayAccepts(c, h + [f]);
    HistoryFacts(c, h);
    ExtendHistory(c, h, f);
  }

  lemma AppendedFact(c: Codec, h: seq<Frame>, t: Fact, f: Frame)
    requires Append(c, h, t) == Success(f)
    ensures f.fact == t
    ensures ValidHistory(c, h) ==> |h| <= MAXIMUM_ORDINAL && !Closed(h[|h| - 1].fact)
  {
    ReplayAccepts(c, h);
    if ValidHistory(c, h) { HistoryFacts(c, h); }
  }

  lemma DecidedContinues(c: Codec, hs: Ledger, q: Request, f: Frame)
    requires WellFormed(c, hs) && NonEmpty(hs) && Decide(c, hs, q) == Success(f) && Kept(hs, IdOf(f)).None?
    ensures Continues(c, hs, f)
    ensures q.Reserve? ==> f == IntentFrame(q.binding) && KeyOf(q.binding) !in hs
    ensures q.Advance? ==> q.key in hs && KeyOf(f.binding) == q.key && f.fact == q.fact
  {
    hide WellFormed, Append, EncodeFrame, SourceOpen, Size, ValidHistory, OpenFrames;
    match q
    case Reserve(b) =>
      IntentStarts(c, b);
    case Advance(k, t) =>
      HistoryOf(c, hs, k);
      AppendContinues(c, hs[k], t, f);
  }

  lemma ContinuesValid(c: Codec, hs: Ledger, f: Frame)
    requires WellFormed(c, hs) && Continues(c, hs, f)
    ensures AllValid(c, AddFrame(hs, f))
    ensures var after := AddFrame(hs, f); forall k :: k in after ==> KeyOf(after[k][0].binding) == k
  {
    var after := AddFrame(hs, f);
    forall k | k in after ensures |after[k]| > 0 && ValidHistory(c, after[k]) && KeyOf(after[k][0].binding) == k {
      hide ValidHistory, EncodeFrame, OpenFrames;
      if k == KeyOf(f.binding) && k !in hs { assert after[k] == [f]; }
    }
  }

  lemma ContinuesWellFormed(c: Codec, hs: Ledger, f: Frame)
    requires WellFormed(c, hs) && Continues(c, hs, f)
    ensures WellFormed(c, AddFrame(hs, f)) && NonEmpty(AddFrame(hs, f))
  {
    ContinuesValid(c, hs, f);
    var after := AddFrame(hs, f);
    assert NonEmpty(hs);
    hide ValidHistory, EncodeFrame, Closed, AllValid, AddFrame;
    forall k, l | k in after && l in after && k != l && OpenFrames(after[k]) && OpenFrames(after[l])
      ensures !SameSource(after[k][0].binding, after[l][0].binding)
    {
      OpenBefore(hs, f, k);
      OpenBefore(hs, f, l);
    }
  }

  lemma OpenBefore(hs: Ledger, f: Frame, k: Key)
    requires NonEmpty(hs) && k in AddFrame(hs, f)
    ensures k != KeyOf(f.binding) ==> k in hs && AddFrame(hs, f)[k] == hs[k]
    ensures k == KeyOf(f.binding) && k in hs ==> AddFrame(hs, f)[k][0] == hs[k][0]
    ensures k == KeyOf(f.binding) && k !in hs ==> AddFrame(hs, f)[k] == [f]
  {
  }
}
