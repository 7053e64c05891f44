/** The move, retain and reconcile operations as they are written: straight-line programs over a ledger that other
    programs use at the same time. Each program's marks are a run of the client machine. */
module ClientPrograms {
  import opened Base
  import opened RecoveryGraph
  import opened RecordName
  import opened RecoveryChain
  import opened LedgerRecords
  import opened LedgerStore
  import opened LedgerSteps
  import opened LedgerRuns
  import opened LedgerAdapter
  import opened Clients
  import opened ProgramRuns
  import TrashInfo
  import TrashRecord

  /** The steps the programs take are edges of the graph. */
  lemma StepsAllowed()
    ensures Legal(Trash, INTENT, Ordinary(MetadataDispatchRecorded))
    ensures Legal(Trash, Ordinary(MetadataDispatchRecorded), Ordinary(MetadataVerified))
    ensures Legal(Trash, Ordinary(MetadataDispatchRecorded), Ordinary(MetadataIndeterminate))
    ensures Legal(Trash, Ordinary(MetadataVerified), Fact(ReconciliationResolved, NotApplied, Retained))
    ensures Legal(Trash, Ordinary(MetadataVerified), Ordinary(MoveDispatchRecorded))
    ensures Legal(Quarantine, INTENT, Ordinary(MoveDispatchRecorded))
    ensures forall d :: Legal(d, Ordinary(MoveDispatchRecorded), Ordinary(MoveVerified))
    ensures forall d :: Legal(d, Ordinary(MoveDispatchRecorded), Ordinary(MoveIndeterminate))
    ensures forall d :: Legal(d, Ordinary(MoveIndeterminate), Fact(ReconciliationResolved, NotApplied, NoMetadata))
  {
  }

  // ----- what a reconciliation is about -----

  /** The facts of the ticket a reconciliation was built from, and the path and basis its authority gives the source.
      The subject is the action identity and filesystem precondition within a payload. */
  datatype ReconcileRequest = ReconcileRequest(
    root: bytes, source: seq<bytes>, subject: bytes, layout: Digest, path: seq<bytes>, basis: TrashInfo.Basis)

  /** What the programs take as given: reading the subject of a payload, and parsing a date. */
  datatype Library = Library(subject: bytes -> bytes, parser: TrashInfo.DateParser)

  predicate Describes(lib: Library, q: ReconcileRequest, b: Binding) {
    && TrashInfo.ValidTrashToken(b.token)
    && b.root == q.root && b.source == q.source && b.kind == TrashPath && b.destination == Trash
    && b.layout == q.layout && q.layout != ZERO_DIGEST && lib.subject(b.payload) == q.subject
  }

  predicate Awaiting(lib: Library, r: Recovery, q: ReconcileRequest, fact: Fact) {
    r.fact == fact && Describes(lib, q, r.binding)
  }

  /** The ticket itself awaits the request, and its identity is one that a ledger can hold. */
  predicate Reloadable(lib: Library, r: Recovery, q: ReconcileRequest, fact: Fact) {
    Awaiting(lib, r, q, fact) && ValidId(RecordId(r.binding.digest, r.binding.token, 0))
  }

  /** The request is about this binding exactly if it was built from one that agrees in all that is compared. */
  lemma DescribesExactly(lib: Library, q: ReconcileRequest, b: Binding)
    ensures Describes(lib, q, b) <==>
              && q.(path := [], basis := TrashInfo.HomeAbsolute)
                 == ReconcileRequest(b.root, b.source, lib.subject(b.payload), b.layout, [], TrashInfo.HomeAbsolute)
              && b.kind == TrashPath && b.destination == Trash && b.layout != ZERO_DIGEST && TrashRecord.TokenShape(b.token)
  {
    TrashRecord.TokenExactly(b.token);
    hide TrashInfo.ValidTrashToken, TrashRecord.TokenShape;
  }

  /** The directory shows a recovery under the ticket's identity that awaits the request. */
  ghost predicate RetainedIn(c: Codec, lib: Library, s: Store, ticket: Recovery, q: ReconcileRequest, fact: Fact)
    requires ValidNames(s)
  {
    var view := View(c, s);
    view.Success? && FindHistory(view.value, KeyOf(ticket.binding)).Some?
    && Awaiting(lib, FindHistory(view.value, KeyOf(ticket.binding)).value.recovery, q, fact)
  }

  /** The bytes are a metadata entry for this token, basis and path. */
  predicate Binds(lib: Library, q: ReconcileRequest, token: bytes, contents: bytes) {
    var info := TrashInfo.Parse(lib.parser, contents, token, q.basis);
    info.Some? && info.value.token == token && info.value.basis == q.basis && info.value.path == q.path
  }

  /** That is, a record in the exact form, whose path is the one the authority gives the source, of any date. */
  lemma BindsExactly(lib: Library, q: ReconcileRequest, token: bytes, contents: bytes)
    requires TrashInfo.ReadsBack(lib.parser)
    ensures Binds(lib, q, token, contents) <==>
              TrashRecord.TokenShape(token)
              && exists clock :: TrashRecord.Acceptable(q.path, q.basis, clock) && TrashRecord.IsRecord(contents, q.path, q.basis, clock)
  {
    hide TrashInfo.Parse, TrashRecord.TokenShape, TrashRecord.IsRecord;
    if Binds(lib, q, token, contents) {
      TrashRecord.ParseExactly(lib.parser, contents, token, q.basis, TrashInfo.Parse(lib.parser, contents, token, q.basis).value);
    }
    forall clock | TrashRecord.Acceptable(q.path, q.basis, clock) && TrashRecord.IsRecord(contents, q.path, q.basis, clock)
      ensures TrashRecord.TokenShape(token) ==> Binds(lib, q, token, contents)
    {
      TrashRecord.ParseExactly(lib.parser, contents, token, q.basis, TrashInfo.Info(token, q.basis, q.path, TrashInfo.Moment(clock, 0, 0)));
    }
  }

  /** The probe settles whether the entry exists: it does not, or it does and is this recovery's. */
  predicate Settles(lib: Library, q: ReconcileRequest, token: bytes, f: Finding) {
    f.EntryFound? && (f.contents.Some? ==> Binds(lib, q, token, f.contents.value))
  }

  /** How a metadata reconciliation can go: a reload that fails; a probe that does not settle it; or one that does, and
      the request that says what it found. */
  predicate MetadataOutcome(lib: Library, q: ReconcileRequest, token: bytes, trace: seq<Mark>, ok: bool) {
    || (trace == [Reloaded(false)] && !ok)
    || (|trace| == 2 && trace[0] == Reloaded(true) && trace[1].Probed? && !Settles(lib, q, token, trace[1].finding) && !ok)
    || (|trace| == 3 && trace[0] == Reloaded(true) && trace[1].Probed? && Settles(lib, q, token, trace[1].finding)
        && trace[2] == Asked(Fact(ReconciliationResolved, NotApplied, Disposed(trace[1].finding)), ok))
  }

  /** Probe i of a move reconciliation, the mark after the reload being the first, agrees with the content having moved. */
  predicate Agrees(lib: Library, q: ReconcileRequest, token: bytes, trace: seq<Mark>, i: nat)
    requires 0 < i < |trace|
  {
    if i == 1 then
      trace[1].Probed? && trace[1].finding.EntryFound? && trace[1].finding.contents.Some? && Binds(lib, q, token, trace[1].finding.contents.value)
    else if i == 3 then trace[i] == Probed(ContentThere(true))
    else if i == 5 then trace[i] == trace[1]
    else trace[i] == Probed(SourceGone(true))
  }

  /** A reload and n probes that agree. */
  predicate AgreesTo(lib: Library, q: ReconcileRequest, token: bytes, trace: seq<Mark>, n: nat) {
    n < |trace| && trace[0] == Reloaded(true) && forall i :: 1 <= i <= n ==> Agrees(lib, q, token, trace, i)
  }

  /** How a move reconciliation can go: a reload that fails; probes of which the last one is the first that does not
      agree; or five that agree and then the request. */
  predicate MoveOutcome(lib: Library, q: ReconcileRequest, token: bytes, trace: seq<Mark>, ok: bool) {
    || (trace == [Reloaded(false)] && !ok)
    || (2 <= |trace| <= 6 && Disagrees(lib, q, token, trace) && !ok)
    || (|trace| == 7 && AgreesTo(lib, q, token, trace, 5) && trace[6] == Asked(Fact(ReconciliationResolved, OutcomeMoveVerified, NoMetadata), ok))
  }

  predicate Disagrees(lib: Library, q: ReconcileRequest, token: bytes, trace: seq<Mark>)
    requires |trace| >= 2
  {
    var n := |trace| - 1;
    AgreesTo(lib, q, token, trace, n - 1) && trace[n].Probed? && !Agrees(lib, q, token, trace, n)
  }

  lemma AgreesOn(lib: Library, q: ReconcileRequest, token: bytes, trace: seq<Mark>, m: Mark)
    requires trace != [] && AgreesTo(lib, q, token, trace, |trace| - 1)
    ensures AgreesTo(lib, q, token, trace + [m], |trace| - 1)
  {
    var longer := trace + [m];
    forall i | 1 <= i < |trace| ensures Agrees(lib, q, token, longer, i) {
      assert Agrees(lib, q, token, trace, i);
      assert longer[i] == trace[i] && longer[1] == trace[1];
    }
    hide Binds;
  }

  // ----- how a program ends -----

  /** What the surroundings do to one move: whether its entry is written and its directories are selected, what becomes of
      the rename, and whether the operation reports an error along with it. */
  datatype MoveWeather = MoveWeather(written: bool, selected: bool, rename: RenameWeather, failed: bool)

  /** Whatever the kernel leaves open, the rename has not happened. */
  ghost predicate CannotHaveMoved(r: RenameWeather) {
    forall x :: !Applies(r.(movedAnyway := x))
  }

  /** The fact a move ends with if the ledger grants what it is asked. */
  ghost function MoveEnd(w: MoveWeather): Fact {
    if !w.written then Ordinary(MetadataIndeterminate)
    else if !w.selected then Fact(ReconciliationResolved, NotApplied, Retained)
    else RenameEnd(w.rename, w.failed)
  }

  ghost function RenameEnd(r: RenameWeather, failed: bool): Fact {
    if CannotHaveMoved(r) then Fact(ReconciliationResolved, NotApplied, NoMetadata) else RetainEnd(r, failed)
  }

  /** A retain leaves also a rename that did not happen to reconciliation. */
  function RetainEnd(r: RenameWeather, failed: bool): Fact {
    if r.prechecked && r.failure.None? && r.confirmed && !failed then Ordinary(MoveVerified) else Ordinary(MoveIndeterminate)
  }

  predicate AllGranted(trace: seq<Mark>) {
    forall i :: 0 <= i < |trace| && trace[i].Asked? ==> trace[i].granted
  }

  lemma FirstGrant(ok: bool)
    ensures AllGranted([Asked(INTENT, ok)]) <==> ok
  {
    assert [Asked(INTENT, ok)][0] == Asked(INTENT, ok);
  }

  lemma GrantsGrow(trace: seq<Mark>, m: Mark)
    ensures AllGranted(trace + [m]) <==> AllGranted(trace) && (m.Asked? ==> m.granted)
  {
    var longer := trace + [m];
    if AllGranted(longer) {
      assert longer[|trace|] == m;
      forall i | 0 <= i < |trace| && trace[i].Asked? ensures trace[i].granted { assert longer[i] == trace[i]; }
    }
  }

  /** A move that is granted everything leaves its recovery open exactly if its entry is in doubt or the content may be
      away from its source; what it closes it closes truthfully. */
  lemma MoveEndsOpen(w: MoveWeather)
    ensures Closed(MoveEnd(w)) <==> w.written && (!w.selected || CannotHaveMoved(w.rename))
    ensures MoveEnd(w) == Ordinary(MoveVerified) ==> w.written && w.selected && Applies(w.rename)
  {
    ReportIsTrue(w.rename);
    hide CannotHaveMoved;
  }

  lemma RenameEnds(r: RenameWeather, failed: bool)
    ensures CannotHaveMoved(r) <==> Report(r) == DidNotMove
    ensures RenameEnd(r, failed) == if Report(r) == DidNotMove then Fact(ReconciliationResolved, NotApplied, NoMetadata)
                                    else if Report(r) == HasMoved && !failed then Ordinary(MoveVerified) else Ordinary(MoveIndeterminate)
  {
    ReportIsTrue(r);
    hide Applies;
  }

  // ----- the programs -----

  class MutationClient {
    const ledger: RecoveryLedger
    const destination: Destination
    const lib: Library
    ghost const start: Store
    ghost var made: seq<Made>
    ghost var trace: seq<Mark>
    ghost var states: seq<Client>

    constructor (ledger: RecoveryLedger, destination: Destination, lib: Library, ghost first: Phase)
      requires ValidNames(ledger.records) && Faithful(ledger.codec)
      ensures this.ledger == ledger && this.destination == destination && this.lib == lib && start == ledger.records
      ensures Ready() && trace == [] && Now() == first
    {
      this.ledger, this.destination, this.lib := ledger, destination, lib;
      start, made, trace, states := ledger.records, [], [], [Client(destination, first)];
    }

    /** The directory is what everybody's calls made of it, the marked requests are this program's own calls, and the
        marks are a run of the client machine. */
    ghost predicate Ready()
      reads this, ledger
    {
      && ValidNames(ledger.records) && Faithful(ledger.codec)
      && Accounted(ledger.codec, start, ledger.records, made) && OwnFacts(made) == Requested(trace)
      && MachineRun(states, trace) && forall i :: 0 <= i < |states| ==> states[i].destination == destination
    }

    /** Where the machine stands. */
    ghost function Now(): Phase
      reads this
    {
      if states == [] then Stopped else states[|states| - 1].phase
    }

    ghost function Machine(): Client
      reads this
    {
      Client(destination, Now())
    }

    /** The ledger shows r as the state of its recovery. */
    ghost predicate Current(r: Recovery)
      requires ValidNames(ledger.records)
      reads this, ledger
    {
      Shows(ledger.codec, ledger.records, r)
    }

    /** The recovery is on record under this binding, if the ledger can be read. */
    ghost predicate Bound(b: Binding)
      requires ValidNames(ledger.records)
      reads this, ledger
    {
      Registered(ledger.codec, ledger.records, b)
    }

    ghost method Mark(m: Mark, next: Phase)
      requires MachineRun(states, trace) && MarkedStep(Machine(), m, Client(destination, next))
      requires forall i :: 0 <= i < |states| ==> states[i].destination == destination
      modifies this`trace, this`states
      ensures trace == old(trace) + [m] && MachineRun(states, trace) && Now() == next
      ensures forall i :: 0 <= i < |states| ==> states[i].destination == destination
    {
      hide MarkedStep;
      assert states[|trace|] == Machine();
      RunGoesOn(states, trace, m, Client(destination, next));
      trace, states := trace + [m], states + [Client(destination, next)];
    }

    /** Other programs use the ledger, any number of times and with any outcomes. */
    method Others(ghost b: Binding)
      requires Ready()
      modifies ledger, this`made
      ensures Ready() && old(made) <= made && (old(Bound(b)) ==> Bound(b))
    {
      hide Step, Registered, MachineRun, Requested, Accounted, Run, Faithful, ValidNames;
      var left: nat := *;
      while left > 0
        invariant Ready() && old(made) <= made && (old(Bound(b)) ==> Bound(b))
      {
        var w: Weather := *;
        if * {
          var other: Binding := *;
          OtherCall(b, LedgerSteps.Reserve(other), w);
          var answer := ledger.Reserve(other, w);
        } else {
          var ticket: Recovery, t: Fact := *, *;
          OtherCall(b, Advance(KeyOf(ticket.binding), t), w);
          var answer := ledger.Transition(ticket, t, w);
        }
        left := left - 1;
      }
    }

    ghost method OtherCall(b: Binding, q: Request, w: Weather)
      requires Ready()
      modifies this`made
      ensures old(made) <= made
      ensures Accounted(ledger.codec, start, Step(ledger.codec, ledger.records, q, w).0, made) && OwnFacts(made) == Requested(trace)
      ensures Bound(b) ==> Registered(ledger.codec, Step(ledger.codec, ledger.records, q, w).0, b)
    {
      hide Step, Registered, MachineRun, Requested, Accounted;
      AccountedNext(ledger.codec, start, ledger.records, made, false, q, w);
      OwnFactsNext(made, Made(false, Call(q, w)));
      if Bound(b) { StaysRegistered(ledger.codec, ledger.records, b, q, w); }
      made := made + [Made(false, Call(q, w))];
    }

    /** Notes a call of the program's own, about to be made, and its mark. */
    ghost method OwnCall(q: Request, w: Weather, ok: bool)
      requires Ready() && !Asks(Machine()).NoAsk?
      requires AskedFact(q) == if Asks(Machine()).AskReserve? then INTENT else Asks(Machine()).fact
      modifies this`made, this`trace, this`states
      ensures old(made) <= made
      ensures trace == old(trace) + [Asked(AskedFact(q), ok)] && Now() == (if ok then AfterGrant(old(Machine())) else Stopped)
      ensures Accounted(ledger.codec, start, Step(ledger.codec, ledger.records, q, w).0, made) && OwnFacts(made) == Requested(trace)
      ensures MachineRun(states, trace) && forall i :: 0 <= i < |states| ==> states[i].destination == destination
    {
      hide Step, Accounted;
      AccountedNext(ledger.codec, start, ledger.records, made, true, q, w);
      OwnFactsNext(made, Made(true, Call(q, w)));
      RequestedNext(trace, Asked(AskedFact(q), ok));
      made := made + [Made(true, Call(q, w))];
      Mark(Asked(AskedFact(q), ok), if ok then AfterGrant(Machine()) else Stopped);
    }

    // ----- the steps of the owners -----

    method Reserve(b: Binding) returns (ticket: Option<Recovery>, ok: bool)
      requires Ready() && trace == [] && Now().Begin? && Now().key == KeyOf(b)
      modifies this, ledger
      ensures Ready() && trace == [Asked(INTENT, ok)] && Now() == if ok then Reserved(KeyOf(b)) else Stopped
      ensures ok ==> ticket.Some? && Current(ticket.value) && Bound(b)
      ensures ticket.Some? ==> ticket.value.fact == INTENT && ticket.value.binding == b
      ensures AllGranted(trace) <==> ok
    {
      hide Step, Shows, Registered, Accounted, MachineRun, Faithful, ValidNames, Requested, AllGranted;
      Others(b);
      var w: Weather := *;
      AnswerShows(ledger.codec, ledger.records, LedgerSteps.Reserve(b), w);
      OwnCall(LedgerSteps.Reserve(b), w, Step(ledger.codec, ledger.records, LedgerSteps.Reserve(b), w).1.error.None?);
      var answer := ledger.Reserve(b, w);
      ok := answer.error.None?;
      ticket := answer.ticket;
      if ok { ShownIsRegistered(ledger.codec, ledger.records, ticket.value); }
      FirstGrant(ok);
    }

    /** Asks for a transition; on an error the caller keeps the ticket it has if it got no new one. */
    method Transition(ticket: Recovery, t: Fact) returns (updated: Recovery, ok: bool)
      requires Ready() && Bound(ticket.binding) && Reached(destination, trace, ticket.fact) && Legal(destination, ticket.fact, t)
      requires Asks(Machine()).AskTransition? && Asks(Machine()).key == KeyOf(ticket.binding) && Asks(Machine()).fact == t
      modifies this, ledger
      ensures Ready() && trace == old(trace) + [Asked(t, ok)] && Now() == if ok then old(Asks(Machine())).next else Stopped
      ensures Disciplined(destination, trace) && Requested(trace) == Requested(old(trace)) + [t]
      ensures ok ==> updated.fact == t && Current(updated) && Reached(destination, trace, t)
      ensures updated.binding == ticket.binding && Bound(ticket.binding) && (updated == ticket || updated.fact == t)
      ensures AllGranted(trace) <==> AllGranted(old(trace)) && ok
    {
      hide Step, Shows, Registered, Accounted, MachineRun, Faithful, ValidNames, Asks, Requested, Legal, Reached, Disciplined, BoundTo, View, AllGranted;
      GrantsGrow(trace, Asked(t, true));
      GrantsGrow(trace, Asked(t, false));
      AskKeepsDiscipline(destination, trace, ticket.fact, t, true);
      AskKeepsDiscipline(destination, trace, ticket.fact, t, false);
      updated, ok := Ask(ticket, t);
    }

    /** One request of the program between those of others, and the ticket that comes of it. */
    method Ask(ticket: Recovery, t: Fact) returns (updated: Recovery, ok: bool)
      requires Ready() && Bound(ticket.binding)
      requires Asks(Machine()).AskTransition? && Asks(Machine()).key == KeyOf(ticket.binding) && Asks(Machine()).fact == t
      modifies this, ledger
      ensures Ready() && old(made) <= made && trace == old(trace) + [Asked(t, ok)] && Now() == if ok then old(Asks(Machine())).next else Stopped
      ensures ok ==> updated.fact == t && Current(updated)
      ensures updated.binding == ticket.binding && Bound(ticket.binding) && (updated == ticket || updated.fact == t)
    {
      Others(ticket.binding);
      var w: Weather := *;
      ghost var q := Advance(KeyOf(ticket.binding), t);
      ghost var found := ledger.records;
      hide Step, Shows, Registered, Accounted, MachineRun, Faithful, ValidNames, BoundTo, View;
      AnswerShows(ledger.codec, found, q, w);
      StaysRegistered(ledger.codec, found, ticket.binding, q, w);
      OwnCall(q, w, Step(ledger.codec, found, q, w).1.error.None?);
      var answer := ledger.Transition(ticket, t, w);
      ok := answer.error.None?;
      if answer.ticket.Some? { RegisteredBinding(ledger.codec, found, ticket.binding, t, answer.ticket.value.binding); }
      updated := if answer.ticket.Some? then answer.ticket.value else ticket;
    }

    /** Writes the metadata entry. */
    method Write(ticket: Recovery, ok: bool)
      requires Ready() && Now().Writing?
      requires Reached(destination, trace, Dispatch(Metadata)) && trace[|trace| - 1] == Asked(Dispatch(Metadata), true)
      modifies this`trace, this`states
      ensures Ready() && trace == old(trace) + [Called(Metadata)] && Now() == Wrote(old(Now()).key, ok)
      ensures Reached(destination, trace, Dispatch(Metadata)) && Requested(trace) == Requested(old(trace))
      ensures AllGranted(trace) <==> AllGranted(old(trace))
    {
      hide MachineRun, Accounted, Reached, Requested, AllGranted, ValidNames, Faithful, Disciplined;
      GrantsGrow(trace, Called(Metadata));
      CallKeepsDiscipline(destination, trace, Metadata);
      Mark(Called(Metadata), Wrote(Now().key, ok));
    }

    /** Selects the directories of the move. */
    method Select(ok: bool)
      requires Ready() && Now().Selecting? && Reached(destination, trace, Ordinary(MetadataVerified))
      modifies this`trace, this`states
      ensures Ready() && trace == old(trace) + [Chose(ok)] && Now() == Selected(old(Now()).key, ok)
      ensures Reached(destination, trace, Ordinary(MetadataVerified)) && Requested(trace) == Requested(old(trace))
      ensures AllGranted(trace) <==> AllGranted(old(trace))
    {
      GrantsGrow(trace, Chose(ok));
      SilentKeepsDiscipline(destination, trace, Ordinary(MetadataVerified), Chose(ok));
      hide MachineRun, Accounted, Reached, Requested;
      Mark(Chose(ok), Selected(Now().key, ok));
    }

    /** Renames the content to its place under the token. */
    method Rename(ticket: Recovery, r: RenameWeather, alsoFails: bool) returns (disposition: Disposition, failed: bool)
      requires Ready() && Now().Renaming?
      requires Reached(destination, trace, Dispatch(Content)) && trace[|trace| - 1] == Asked(Dispatch(Content), true)
      modifies this`trace, this`states
      ensures Ready() && trace == old(trace) + [Called(Content)] && Now() == Renamed(old(Now()).key, disposition, failed)
      ensures Reached(destination, trace, Dispatch(Content)) && Requested(trace) == Requested(old(trace))
      ensures disposition == Report(r) && failed == (alsoFails || disposition != HasMoved)
      ensures AllGranted(trace) <==> AllGranted(old(trace))
    {
      hide MachineRun, Accounted, Reached, Requested, Report, AllGranted, ValidNames, Faithful, Disciplined;
      GrantsGrow(trace, Called(Content));
      CallKeepsDiscipline(destination, trace, Content);
      disposition := Report(r);
      failed := alsoFails || disposition != HasMoved;
      Mark(Called(Content), Renamed(Now().key, disposition, failed));
    }

    method MoveToTrash(b: Binding, w: MoveWeather) returns (result: Option<Recovery>, ok: bool)
      requires Ready() && trace == [] && destination == Trash && Now() == Begin(KeyOf(b), Source(b.root, b.source))
      modifies this, ledger
      ensures Ready() && Now() == Stopped && Disciplined(destination, trace)
      ensures AllGranted(trace) ==> result.Some? && Current(result.value) && result.value.fact == MoveEnd(w)
      ensures ok <==> AllGranted(trace) && MoveEnd(w) == Ordinary(MoveVerified)
      ensures ok ==> |Requested(trace)| == 5
      ensures result.Some? ==> result.value.binding == b
    {
      StepsAllowed();
      hide Legal, Reached, Requested, Disciplined, ValidNames, Faithful, Shows, Registered, MachineRun, Accounted, AllGranted, CannotHaveMoved;
      var reserved;
      reserved, ok := Reserve(b);
      FirstAsk(destination, ok);
      if !ok { return reserved, false; }
      var ticket: Recovery;
      ticket, ok := Transition(reserved.value, Ordinary(MetadataDispatchRecorded));
      if !ok { return Some(ticket), false; }
      Write(ticket, w.written);
      if !w.written {
        ticket, ok := Transition(ticket, Ordinary(MetadataIndeterminate));
        return Some(ticket), false;
      }
      ticket, ok := Transition(ticket, Ordinary(MetadataVerified));
      if !ok { return Some(ticket), false; }
      ticket, ok := MovePublished(ticket, w);
      return Some(ticket), ok;
    }

    /** The second half of a move: its metadata entry is published and on record. */
    method MovePublished(current: Recovery, w: MoveWeather) returns (ticket: Recovery, ok: bool)
      requires Ready() && Bound(current.binding) && destination == Trash && Reached(destination, trace, current.fact)
      requires current.fact == Ordinary(MetadataVerified) && Now() == Selecting(KeyOf(current.binding)) && w.written && AllGranted(trace)
      modifies this, ledger
      ensures Ready() && Now() == Stopped && Disciplined(destination, trace)
      ensures AllGranted(trace) ==> Current(ticket) && ticket.fact == MoveEnd(w)
      ensures ok <==> AllGranted(trace) && MoveEnd(w) == Ordinary(MoveVerified)
      ensures ok ==> |Requested(trace)| == |Requested(old(trace))| + 2
      ensures ticket.binding == current.binding
    {
      StepsAllowed();
      hide Legal, Reached, Requested, Disciplined, ValidNames, Faithful, Shows, Registered, MachineRun, Accounted, AllGranted, CannotHaveMoved;
      Select(w.selected);
      if !w.selected {
        ticket, ok := Transition(current, Fact(ReconciliationResolved, NotApplied, Retained));
        return ticket, false;
      }
      ticket, ok := Transition(current, Ordinary(MoveDispatchRecorded));
      if !ok { return ticket, false; }
      var disposition, failed := Rename(ticket, w.rename, w.failed);
      RenameEnds(w.rename, w.failed);
      ticket, ok := FinishMove(ticket, disposition, failed);
    }

    /** What the move's disposition leads to. */
    method FinishMove(current: Recovery, disposition: Disposition, failed: bool) returns (ticket: Recovery, ok: bool)
      requires Ready() && Bound(current.binding) && destination == Trash && Reached(destination, trace, current.fact)
      requires current.fact == Ordinary(MoveDispatchRecorded) && Now() == Renamed(KeyOf(current.binding), disposition, failed) && AllGranted(trace)
      modifies this, ledger
      ensures Ready() && Now() == Stopped && Disciplined(destination, trace)
      ensures ok <==> disposition == HasMoved && !failed && trace == old(trace) + [Asked(Ordinary(MoveVerified), true)]
      ensures ok ==> |Requested(trace)| == |Requested(old(trace))| + 1
      ensures AllGranted(trace) ==> Current(ticket)
      ensures AllGranted(trace) ==> ticket.fact == if disposition == DidNotMove then Fact(ReconciliationResolved, NotApplied, NoMetadata)
                                                   else if disposition == HasMoved && !failed then Ordinary(MoveVerified)
                                                   else Ordinary(MoveIndeterminate)
      ensures ok ==> AllGranted(trace)
      ensures AllGranted(trace) && disposition == HasMoved && !failed ==> ok
      ensures ticket.binding == current.binding
    {
      StepsAllowed();
      hide Legal, Reached, Requested, Disciplined, ValidNames, Faithful, Shows, Registered, MachineRun, Accounted, AllGranted, CannotHaveMoved;
      match disposition
      case HasMoved =>
        if failed {
          ticket, ok := Transition(current, Ordinary(MoveIndeterminate));
          return ticket, false;
        }
        ticket, ok := Transition(current, Ordinary(MoveVerified));
        assert trace[|trace| - 1] == Asked(Ordinary(MoveVerified), ok);
        return ticket, ok;
      case MayHaveMoved =>
        ticket, ok := Transition(current, Ordinary(MoveIndeterminate));
        return ticket, false;
      case DidNotMove =>
        ticket, ok := Transition(current, Ordinary(MoveIndeterminate));
        if !ok { return ticket, false; }
        ticket, ok := Transition(ticket, Fact(ReconciliationResolved, NotApplied, NoMetadata));
        return ticket, false;
    }

    method RetainInQuarantine(b: Binding, r: RenameWeather, alsoFails: bool) returns (result: Option<Recovery>, ok: bool)
      requires Ready() && trace == [] && destination == Quarantine && Now() == Begin(KeyOf(b), Source(b.root, b.source))
      modifies this, ledger
      ensures Ready() && Now() == Stopped && Disciplined(destination, trace)
      ensures AllGranted(trace) ==> result.Some? && Current(result.value) && result.value.fact == RetainEnd(r, alsoFails)
      ensures ok <==> AllGranted(trace) && RetainEnd(r, alsoFails) == Ordinary(MoveVerified)
      ensures ok ==> |Requested(trace)| == 3
      ensures result.Some? ==> result.value.binding == b
    {
      StepsAllowed();
      hide Legal, Reached, Requested, Disciplined, ValidNames, Faithful, Shows, Registered, MachineRun, Accounted, AllGranted, CannotHaveMoved;
      var reserved;
      reserved, ok := Reserve(b);
      FirstAsk(destination, ok);
      if !ok { return reserved, false; }
      var ticket: Recovery;
      ticket, ok := Transition(reserved.value, Ordinary(MoveDispatchRecorded));
      if !ok { return Some(ticket), false; }
      var disposition, failed := Rename(ticket, r, alsoFails);
      ReportIsTrue(r);
      if disposition == HasMoved && !failed {
        ticket, ok := Transition(ticket, Ordinary(MoveVerified));
        return Some(ticket), ok;
      }
      ticket, ok := Transition(ticket, Ordinary(MoveIndeterminate));
      return Some(ticket), false;
    }

    // ----- the reconcilers -----

    /** A look at the filesystem that changes nothing; the first one also selects the directories. */
    method Look(probe: Probe) returns (finding: Finding)
      ensures finding.ProbeFailed? || match probe
                                      case OfEntry => finding.EntryFound?
                                      case OfSource => finding.SourceGone?
                                      case OfContent => finding.ContentThere?
    {
      var failed, answer: bool, contents: Option<bytes> := *, *, *;
      finding := if failed then ProbeFailed
                 else match probe
                      case OfEntry => EntryFound(contents)
                      case OfSource => SourceGone(answer)
                      case OfContent => ContentThere(answer);
    }

    /** Notes what a reload or a probe leads to. */
    ghost method Note(m: Mark, next: Phase)
      requires Ready() && !m.Asked? && MarkedStep(Machine(), m, Client(destination, next))
      modifies this`trace, this`states
      ensures Ready() && trace == old(trace) + [m] && Now() == next && Requested(trace) == Requested(old(trace))
    {
      hide MarkedStep, MachineRun, Accounted;
      RequestedNext(trace, m);
      Mark(m, next);
    }

    /** After the first `read` of these calls the ledger showed a recovery under the ticket's identity that awaits the request. */
    ghost predicate RetainedAt(read: nat, ticket: Recovery, q: ReconcileRequest, fact: Fact)
      requires ValidNames(start)
      reads this, ledger
    {
      read <= |made| && RetainedIn(ledger.codec, lib, Run(ledger.codec, start, CallsOf(made[..read])), ticket, q, fact)
    }

    /** Reloads the ticket; both it and the retained recovery must await this reconciliation. */
    method ReloadIndeterminate(ticket: Recovery, q: ReconcileRequest, fact: Fact, unreadable: Option<LedgerError>) returns (current: Recovery, ok: bool)
      requires Ready()
      modifies ledger, this`made
      ensures Ready()
      ensures ok <==> unreadable.None? && Reloadable(lib, ticket, q, fact) && RetainedIn(ledger.codec, lib, ledger.records, ticket, q, fact)
      ensures ok ==> Current(current) && Awaiting(lib, current, q, fact) && KeyOf(current.binding) == KeyOf(ticket.binding)
    {
      hide View, ValidNames, ValidId, Faithful, FindHistory, Describes, Accounted, MachineRun, Registered;
      Others(ticket.binding);
      if !Awaiting(lib, ticket, q, fact) { return ticket, false; }
      var r := ledger.Reload(ticket, unreadable);
      if r.Failure? { return ticket, false; }
      current := r.value;
      ok := Awaiting(lib, current, q, fact);
      FoundIsIdentified(View(ledger.codec, ledger.records).value, KeyOf(ticket.binding));
    }

    /** Reloads, marks it, and says after how many calls. */
    method Reload(ticket: Recovery, q: ReconcileRequest, fact: Fact, unreadable: Option<LedgerError>, ghost next: Phase) returns (current: Recovery, ok: bool, ghost read: nat)
      requires Ready() && trace == [] && MarkedStep(Machine(), Reloaded(true), Client(destination, next))
      modifies this, ledger
      ensures Ready() && trace == [Reloaded(ok)] && Now() == if ok then next else Stopped
      ensures ok <==> unreadable.None? && Reloadable(lib, ticket, q, fact) && RetainedAt(read, ticket, q, fact)
      ensures ok ==> Bound(current.binding) && Describes(lib, q, current.binding) && KeyOf(current.binding) == KeyOf(ticket.binding)
    {
      hide View, ValidNames, Faithful, FindHistory, Describes, MachineRun, Registered, Shows, Run;
      current, ok := ReloadIndeterminate(ticket, q, fact, unreadable);
      read := |made|;
      assert made[..read] == made;
      Note(Reloaded(ok), if ok then next else Stopped);
      if ok { ShownIsRegistered(ledger.codec, ledger.records, current); }
    }

    /** Resolves a metadata-indeterminate recovery by whether its entry exists; on any doubt it asks for nothing. The
        resolution is asked for exactly if the retained recovery awaits it and the probe settles it, and then says
        what the probe found. */
    method ReconcileMetadata(ticket: Recovery, q: ReconcileRequest, unreadable: Option<LedgerError>) returns (result: Recovery, ok: bool, ghost read: nat)
      requires Ready() && trace == [] && destination == Trash && Now() == MetadataReload(KeyOf(ticket.binding))
      modifies this, ledger
      ensures Ready() && Now() == Stopped && MetadataOutcome(lib, q, ticket.binding.token, trace, ok)
      ensures |trace| > 1 <==> unreadable.None? && Reloadable(lib, ticket, q, Ordinary(MetadataIndeterminate))
                               && RetainedAt(read, ticket, q, Ordinary(MetadataIndeterminate))
      ensures ok ==> Current(result) && result.fact == trace[2].fact && Describes(lib, q, result.binding)
    {
      hide View, ValidNames, Faithful, Describes, Settles, Disposed, Shows, Registered, Accounted, MachineRun, RetainedIn, Run, Requested;
      result, ok, read := Reload(ticket, q, Ordinary(MetadataIndeterminate), unreadable, MetadataProbe(KeyOf(ticket.binding)));
      if !ok { return; }
      var finding, settled := ProbeEntry(ticket, q);
      if !settled { return result, false, read; }
      ghost var before := made;
      result, ok := Ask(result, Fact(ReconciliationResolved, NotApplied, Disposed(finding)));
      assert made[..read] == before[..read];
    }

    /** The one probe of a metadata reconciliation. */
    method ProbeEntry(ticket: Recovery, q: ReconcileRequest) returns (finding: Finding, settled: bool)
      requires Ready() && destination == Trash && Now() == MetadataProbe(KeyOf(ticket.binding))
      modifies this`trace, this`states
      ensures Ready() && trace == old(trace) + [Probed(finding)] && settled == Settles(lib, q, ticket.binding.token, finding)
      ensures Now() == if settled then MetadataResolve(KeyOf(ticket.binding), Disposed(finding)) else Stopped
    {
      hide View, ValidNames, Faithful, Accounted, MachineRun, Binds, Requested;
      finding := Look(OfEntry);
      settled := Settles(lib, q, ticket.binding.token, finding);
      Note(Probed(finding), if settled then MetadataResolve(KeyOf(ticket.binding), Disposed(finding)) else Stopped);
    }

    /** Resolves a move-indeterminate recovery as moved. The resolution is asked for exactly after five probes in a row
        that agree: the entry is this recovery's, the source is gone, the content is there, the source is still gone,
        and the entry has the same bytes. The first probe that does not agree is the last, and nothing is asked for. */
    method ReconcileMove(ticket: Recovery, q: ReconcileRequest, unreadable: Option<LedgerError>) returns (result: Recovery, ok: bool, ghost read: nat)
      requires Ready() && trace == [] && destination == Trash && Now() == MoveReload(KeyOf(ticket.binding))
      modifies this, ledger
      ensures Ready() && Now() == Stopped && MoveOutcome(lib, q, ticket.binding.token, trace, ok)
      ensures |trace| > 1 <==> unreadable.None? && Reloadable(lib, ticket, q, Ordinary(MoveIndeterminate))
                               && RetainedAt(read, ticket, q, Ordinary(MoveIndeterminate))
      ensures ok ==> Current(result) && result.fact == trace[6].fact && Describes(lib, q, result.binding)
    {
      hide View, ValidNames, Faithful, Describes, Binds, Shows, Registered, Accounted, MachineRun, RetainedIn, Run, Agrees, Requested, Reloadable;
      ghost var k := KeyOf(ticket.binding);
      result, ok, read := Reload(ticket, q, Ordinary(MoveIndeterminate), unreadable, MoveProbe(k, 0));
      if !ok { return; }
      var agreed := ProbeMove(ticket, q);
      if !agreed { return result, false, read; }
      ghost var before, five := made, trace;
      result, ok := Ask(result, Fact(ReconciliationResolved, OutcomeMoveVerified, NoMetadata));
      assert made[..read] == before[..read];
      AgreesOn(lib, q, ticket.binding.token, five, trace[6]);
    }

    /** The five probes. */
    method ProbeMove(ticket: Recovery, q: ReconcileRequest) returns (agreed: bool)
      requires Ready() && destination == Trash && Now() == MoveProbe(KeyOf(ticket.binding), 0) && trace == [Reloaded(true)]
      modifies this`trace, this`states
      ensures Ready() && Now() == if agreed then MoveResolve(KeyOf(ticket.binding)) else Stopped
      ensures agreed ==> |trace| == 6 && AgreesTo(lib, q, ticket.binding.token, trace, 5)
      ensures !agreed ==> 2 <= |trace| <= 6 && Disagrees(lib, q, ticket.binding.token, trace)
    {
      hide View, ValidNames, Faithful, Accounted, MachineRun, Agrees, AgreesTo, Disagrees;
      JustReloaded(lib, q, ticket.binding.token);
      var entry, finding;
      entry, agreed := ProbeRound(ticket, q, 0, OfEntry, ProbeFailed);
      if !agreed { return; }
      finding, agreed := ProbeRound(ticket, q, 1, OfSource, entry);
      if !agreed { return; }
      finding, agreed := ProbeRound(ticket, q, 2, OfContent, entry);
      if !agreed { return; }
      finding, agreed := ProbeRound(ticket, q, 3, OfSource, entry);
      if !agreed { return; }
      finding, agreed := ProbeRound(ticket, q, 4, OfEntry, entry);
    }

    /** One probe, and whether it agrees; the last one with the first. */
    method ProbeRound(ticket: Recovery, q: ReconcileRequest, round: nat, probe: Probe, entry: Finding) returns (finding: Finding, agreed: bool)
      requires Ready() && destination == Trash && round < 5 && Now() == MoveProbe(KeyOf(ticket.binding), round)
      requires |trace| == round + 1 && AgreesTo(lib, q, ticket.binding.token, trace, round) && (round > 0 ==> trace[1] == Probed(entry))
      modifies this`trace, this`states
      ensures Ready() && trace == old(trace) + [Probed(finding)]
      ensures Now() == if !agreed then Stopped else if round < 4 then MoveProbe(KeyOf(ticket.binding), round + 1) else MoveResolve(KeyOf(ticket.binding))
      ensures if agreed then AgreesTo(lib, q, ticket.binding.token, trace, round + 1) else Disagrees(lib, q, ticket.binding.token, trace)
    {
      hide View, ValidNames, Faithful, Accounted, MachineRun, Binds, Requested;
      finding := Look(probe);
      agreed := if round == 0 then finding.EntryFound? && finding.contents.Some? && Binds(lib, q, ticket.binding.token, finding.contents.value)
                else if round == 2 then finding == ContentThere(true)
                else if round == 4 then finding == entry
                else finding == SourceGone(true);
      if round > 0 { assert Agrees(lib, q, ticket.binding.token, trace, 1); }
      AgreesOn(lib, q, ticket.binding.token, trace, Probed(finding));
      Note(Probed(finding), if !agreed then Stopped else if round < 4 then MoveProbe(KeyOf(ticket.binding), round + 1) else MoveResolve(KeyOf(ticket.binding)));
      assert Agrees(lib, q, ticket.binding.token, trace, round + 1) <==> agreed;
    }
  }

  lemma JustReloaded(lib: Library, q: ReconcileRequest, token: bytes)
    ensures AgreesTo(lib, q, token, [Reloaded(true)], 0)
  {
  }

  lemma {:induction false} FoundIsIdentified(hs: seq<History>, k: Key)
    ensures FindHistory(hs, k).Some? ==> KeyOf(FindHistory(hs, k).value.recovery.binding) == k
  {
    if hs != [] { FoundIsIdentified(hs[1..], k); }
  }
}
