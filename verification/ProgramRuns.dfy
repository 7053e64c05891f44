/** What a client program leaves behind: the marks of what it did, one step of the client machine each, and the calls
    of the ledger, its own between those of others. */
module ProgramRuns {
  import opened Base
  import opened RecoveryGraph
  import opened RecordName
  import opened RecoveryChain
  import opened LedgerRecords
  import opened LedgerInventory
  import opened LedgerStore
  import opened LedgerSteps
  import opened LedgerRuns
  import opened Clients

  // ----- marks -----

  datatype Kind = Metadata | Content

  datatype Probe = OfEntry | OfSource | OfContent

  /** What a probe reported: the bytes of the metadata entry, if it exists; whether the source is gone; whether the
      content is under its token. */
  datatype Finding = EntryFound(contents: Option<bytes>) | SourceGone(gone: bool) | ContentThere(there: bool) | ProbeFailed

  /** What the program did: asked the ledger for a fact, which it granted without error or not; called an effect; chose
      the directories of a move; reloaded its ticket; or probed the filesystem. */
  datatype Mark =
    | Asked(fact: Fact, granted: bool)
    | Called(kind: Kind)
    | Chose(ok: bool)
    | Reloaded(ok: bool)
    | Probed(finding: Finding)

  function Dispatch(k: Kind): Fact {
    Ordinary(if k == Metadata then MetadataDispatchRecorded else MoveDispatchRecorded)
  }

  /** Every effect comes right after its dispatch was granted. */
  predicate WriteAhead(trace: seq<Mark>) {
    forall i :: 0 <= i < |trace| && trace[i].Called? ==> i > 0 && trace[i - 1] == Asked(Dispatch(trace[i].kind), true)
  }

  /** Nothing is done after a request that was not granted. */
  predicate StopsWhenRefused(trace: seq<Mark>) {
    forall i :: 0 <= i < |trace| - 1 && trace[i].Asked? ==> trace[i].granted
  }

  function Requested(trace: seq<Mark>): seq<Fact> {
    if trace == [] then []
    else
      var n := |trace| - 1;
      Requested(trace[..n]) + if trace[n].Asked? then [trace[n].fact] else []
  }

  /** What a whole run of a program guarantees about its trace. */
  predicate Disciplined(destination: Destination, trace: seq<Mark>) {
    && WriteAhead(trace) && StopsWhenRefused(trace)
    && (Requested(trace) == [] || LegalPath(destination, Requested(trace)))
  }

  /** At most one metadata write and one rename are called in a disciplined run. */
  lemma CalledOnce(destination: Destination, trace: seq<Mark>, i: nat, j: nat)
    requires Disciplined(destination, trace) && i < |trace| && j < |trace|
    requires trace[i].Called? && trace[j].Called? && trace[i].kind == trace[j].kind
    ensures i == j
  {
    if i != j {
      var a := RequestIndex(trace, i - 1);
      var b := RequestIndex(trace, j - 1);
      DispatchedOnce(destination, Requested(trace), a, b);
      RequestIndexGrows(trace, if i < j then i - 1 else j - 1, if i < j then j - 1 else i - 1);
    }
  }

  /** How many requests come before a position. */
  function Earlier(trace: seq<Mark>, i: nat): nat
    requires i <= |trace|
  {
    |Requested(trace[..i])|
  }

  lemma {:induction false} RequestIndex(trace: seq<Mark>, i: nat) returns (a: nat)
    requires i < |trace| && trace[i].Asked?
    ensures a == Earlier(trace, i) < |Requested(trace)| && Requested(trace)[a] == trace[i].fact
    decreases |trace|
  {
    var n := |trace| - 1;
    a := Earlier(trace, i);
    if i < n {
      assert trace[..n][..i] == trace[..i];
      var b := RequestIndex(trace[..n], i);
    }
  }

  lemma {:induction false} RequestIndexGrows(trace: seq<Mark>, i: nat, j: nat)
    requires i < j < |trace| && trace[i].Asked?
    ensures Earlier(trace, i) < Earlier(trace, j)
  {
    var before := trace[..j];
    assert before[i] == trace[i] && before[..i] == trace[..i];
    var a := RequestIndex(before, i);
  }

  // ----- growing a trace -----

  lemma RequestedNext(trace: seq<Mark>, m: Mark)
    ensures Requested(trace + [m]) == Requested(trace) + if m.Asked? then [m.fact] else []
  {
    assert (trace + [m])[..|trace|] == trace;
  }

  /** The trace so far ends with the granted fact `last`. */
  predicate Reached(destination: Destination, trace: seq<Mark>, last: Fact) {
    && Disciplined(destination, trace) && trace != []
    && (trace[|trace| - 1].Asked? ==> trace[|trace| - 1].granted)
    && Requested(trace) != [] && Requested(trace)[|Requested(trace)| - 1] == last
  }

  lemma AskKeepsDiscipline(destination: Destination, trace: seq<Mark>, last: Fact, t: Fact, granted: bool)
    requires Reached(destination, trace, last) && Legal(destination, last, t)
    ensures Disciplined(destination, trace + [Asked(t, granted)]) && Requested(trace + [Asked(t, granted)]) == Requested(trace) + [t]
    ensures granted ==> Reached(destination, trace + [Asked(t, granted)], t)
  {
    hide Legal, Restores, Requested;
    RequestedNext(trace, Asked(t, granted));
    PathExtends(destination, Requested(trace), t);
  }

  lemma SilentKeepsDiscipline(destination: Destination, trace: seq<Mark>, last: Fact, m: Mark)
    requires Reached(destination, trace, last) && !m.Asked? && !m.Called?
    ensures Reached(destination, trace + [m], last) && Requested(trace + [m]) == Requested(trace)
  {
    hide LegalPath, Requested, Legal;
    RequestedNext(trace, m);
  }

  lemma CallKeepsDiscipline(destination: Destination, trace: seq<Mark>, k: Kind)
    requires Reached(destination, trace, Dispatch(k)) && trace[|trace| - 1] == Asked(Dispatch(k), true)
    ensures Reached(destination, trace + [Called(k)], Dispatch(k)) && Requested(trace + [Called(k)]) == Requested(trace)
  {
    hide LegalPath, Requested, Legal, Ordinary;
    RequestedNext(trace, Called(k));
    assert Requested(trace + [Called(k)]) == Requested(trace);
  }

  lemma FirstAsk(destination: Destination, granted: bool)
    ensures Disciplined(destination, [Asked(INTENT, granted)]) && Requested([Asked(INTENT, granted)]) == [INTENT]
    ensures granted ==> Reached(destination, [Asked(INTENT, granted)], INTENT)
  {
    assert [Asked(INTENT, granted)][..0] == [];
    assert Requested([Asked(INTENT, granted)]) == [INTENT];
  }

  // ----- the marks are steps of the client machine -----

  function Disposed(f: Finding): Metadata {
    if f == EntryFound(None) then Absent else Retained
  }

  /** The finding of round n of a move reconciliation speaks for the move. */
  predicate Positive(n: nat, f: Finding) {
    if n == 0 || n == 4 then f.EntryFound? && f.contents.Some?
    else if n == 1 || n == 3 then f == SourceGone(true)
    else f == ContentThere(true)
  }

  function AfterGrant(cl: Client): Phase {
    match Asks(cl)
    case NoAsk => Stopped
    case AskReserve(k, _) => Reserved(k)
    case AskTransition(_, _, next) => next
  }

  /** The client's step that leaves the mark m. */
  predicate MarkedStep(cl: Client, m: Mark, next: Client) {
    next.destination == cl.destination &&
    match m
    case Asked(t, granted) =>
      && !Asks(cl).NoAsk? && t == (if Asks(cl).AskReserve? then INTENT else Asks(cl).fact)
      && next.phase == (if granted then AfterGrant(cl) else Stopped)
    case Called(Metadata) => cl.phase.Writing? && next.phase.Wrote? && next.phase.key == cl.phase.key
    case Called(Content) =>
      && cl.phase.Renaming? && next.phase.Renamed? && next.phase.key == cl.phase.key
      && (next.phase.disposition != HasMoved ==> next.phase.failed)
    case Chose(ok) => cl.phase.Selecting? && next.phase == Selected(cl.phase.key, ok)
    case Reloaded(ok) =>
      || (cl.phase.MetadataReload? && next.phase == if ok then MetadataProbe(cl.phase.key) else Stopped)
      || (cl.phase.MoveReload? && next.phase == if ok then MoveProbe(cl.phase.key, 0) else Stopped)
    case Probed(f) =>
      match cl.phase
      case MetadataProbe(k) => next.phase == Stopped || (f.EntryFound? && next.phase == MetadataResolve(k, Disposed(f)))
      case MoveProbe(k, n) =>
        next.phase == Stopped || (Positive(n, f) && next.phase == if n < 4 then MoveProbe(k, n + 1) else MoveResolve(k))
      case _ => false
  }

  /** The trace is a run of the client machine through these states. */
  predicate MachineRun(states: seq<Client>, trace: seq<Mark>) {
    |states| == |trace| + 1 && forall i :: 0 <= i < |trace| ==> MarkedStep(states[i], trace[i], states[i + 1])
  }

  lemma RunGoesOn(states: seq<Client>, trace: seq<Mark>, m: Mark, next: Client)
    requires MachineRun(states, trace) && MarkedStep(states[|trace|], m, next)
    ensures MachineRun(states + [next], trace + [m])
  {
    hide MarkedStep;
  }

  /** A request is marked exactly as the machine's call of the ledger goes on, whatever the book says. */
  lemma AskedIsCall(sc: Scene, i: nat, after: Book, t: Fact, ok: bool, next: Client)
    requires i in sc.clients
    ensures MarkedStep(sc.clients[i], Asked(t, ok), next) <==>
              && !Asks(sc.clients[i]).NoAsk? && t == (if Asks(sc.clients[i]).AskReserve? then INTENT else Asks(sc.clients[i]).fact)
              && next == Calls(sc, i, after, ok).clients[i]
  {
    hide Asks;
  }

  function EffectOfMark(m: Mark, k: Key): seq<Effect> {
    if m == Called(Metadata) then [WriteMetadata(k)] else if m == Called(Content) then [Rename(k)] else []
  }

  /** Every step that the machine takes between its requests leaves a mark. */
  lemma ActIsMarked(sc: Scene, i: nat, ch: Choice) returns (m: Mark)
    requires i in sc.clients && Asks(sc.clients[i]).NoAsk? && !sc.clients[i].phase.Stopped?
    ensures !m.Asked? && MarkedStep(sc.clients[i], m, Acts(sc, i, ch).clients[i])
    ensures Acts(sc, i, ch).log == sc.log + EffectOfMark(m, sc.clients[i].phase.key)
  {
    hide Applies, MetadataIsIndeterminate, MoveIsIndeterminate, Report;
    match sc.clients[i].phase
    case Writing(k) => m := Called(Metadata);
    case Selecting(k) => m := Chose(ch.good);
    case Renaming(k) => m := Called(Content);
    case MetadataReload(k) => m := Reloaded(Acts(sc, i, ch).clients[i].phase.MetadataProbe?);
    case MoveReload(k) => m := Reloaded(Acts(sc, i, ch).clients[i].phase.MoveProbe?);
    case MetadataProbe(k) => m := Probed(EntryFound(if k in sc.info then Some([]) else None));
    case MoveProbe(k, n) =>
      m := Probed(if n == 0 || n == 4 then EntryFound(Some([])) else if n == 1 || n == 3 then SourceGone(true) else ContentThere(true));
    case _ =>
  }

  /** And every such mark is left by a step that the machine can take. */
  lemma MarkIsAct(cl: Client, m: Mark, next: Client) returns (sc: Scene, ch: Choice)
    requires MarkedStep(cl, m, next) && !m.Asked?
    ensures 0 in sc.clients && sc.clients[0] == cl && Asks(cl).NoAsk?
    ensures Acts(sc, 0, ch).clients[0] == next && Acts(sc, 0, ch).log == sc.log + EffectOfMark(m, cl.phase.key)
  {
    var k := cl.phase.key;
    var s := Source([], []);
    var p := next.phase;
    var fact := Ordinary(if cl.phase.MetadataReload? then MetadataIndeterminate else MoveIndeterminate);
    var moved: map<Source, Key> := if cl.phase.MoveProbe? then map[s := k] else map[];
    var info: set<Key> := if cl.phase.MoveProbe? || (p.MetadataResolve? && p.metadata == Retained) then {k} else {};
    sc := Scene(map[k := Entry(s, Trash, true, fact, [])], moved, info, map[0 := cl], []);
    var good := !p.Stopped? && !(p.Wrote? && !p.ok) && !(p.Selected? && !p.ok);
    var rename := RenameWeather(p.Renamed? && p.disposition != DidNotMove, None, false, p.Renamed? && p.disposition == HasMoved);
    ch := Choice(good, good, rename, p.Renamed? && p.failed);
  }

  // ----- a ledger that others use as well -----

  /** A call of the ledger, this program's own or not. */
  datatype Made = Made(own: bool, call: Call)

  function CallsOf(made: seq<Made>): (r: seq<Call>)
    ensures |r| == |made| && forall i :: 0 <= i < |made| ==> r[i] == made[i].call
  {
    seq(|made|, i requires 0 <= i < |made| => made[i].call)
  }

  /** The facts that the program's own calls asked for. */
  function OwnFacts(made: seq<Made>): seq<Fact> {
    if made == [] then []
    else
      var n := |made| - 1;
      OwnFacts(made[..n]) + if made[n].own then [AskedFact(made[n].call.request)] else []
  }

  lemma OwnFactsNext(made: seq<Made>, m: Made)
    ensures OwnFacts(made + [m]) == OwnFacts(made) + if m.own then [AskedFact(m.call.request)] else []
  {
    assert (made + [m])[..|made|] == made;
  }

  /** The directory is what these calls made of where the program found it. */
  ghost predicate Accounted(c: Codec, start: Store, s: Store, made: seq<Made>) {
    ValidNames(start) && s == Run(c, start, CallsOf(made))
  }

  lemma {:induction false} RunThen(c: Codec, s: Store, calls: seq<Call>, call: Call)
    requires ValidNames(s)
    ensures Run(c, s, calls + [call]) == StepCall(c, Run(c, s, calls), call)
    decreases |calls|
  {
    hide StepCall, ValidNames;
    if calls == [] {
      assert calls + [call] == [call];
      assert [call][1..] == [];
    } else {
      assert (calls + [call])[1..] == calls[1..] + [call];
      RunThen(c, StepCall(c, s, calls[0]), calls[1..], call);
    }
  }

  lemma AccountedNext(c: Codec, start: Store, s: Store, made: seq<Made>, own: bool, q: Request, w: Weather)
    requires Accounted(c, start, s, made)
    ensures ValidNames(s) && Accounted(c, start, Step(c, s, q, w).0, made + [Made(own, Call(q, w))])
  {
    hide Step, ValidNames, Run;
    RunThen(c, start, CallsOf(made), Call(q, w));
    assert CallsOf(made + [Made(own, Call(q, w))]) == CallsOf(made) + [Call(q, w)];
  }

  /** Whenever the ledger can be read, the recovery is on record with this binding. */
  ghost predicate Registered(c: Codec, s: Store, b: Binding)
    requires ValidNames(s)
  {
    var view := View(c, s);
    view.Success? ==> FindHistory(view.value, KeyOf(b)).Some? && FindHistory(view.value, KeyOf(b)).value.recovery.binding == b
  }

  /** No call of anybody changes what a recovery is bound to. */
  lemma StaysRegistered(c: Codec, s: Store, b: Binding, q: Request, w: Weather)
    requires Faithful(c) && ValidNames(s) && Registered(c, s, b)
    ensures Registered(c, Step(c, s, q, w).0, b)
  {
    hide Step, View, FindHistory, ValidNames, Faithful, AbstractStep, Stands, WellFormed, NonEmpty, Histories, Represents, Size;
    if View(c, s).Failure? {
      UnreadableRefuses(c, s, q, w);
    } else {
      var st := ReadableStands(c, s);
      StandsMeans(c, st, s);
      StepRefines(c, s, st, q, w);
      StepGrows(c, st, q, w);
      var after := AbstractStep(c, st, q, w).0;
      StandsMeans(c, after, Step(c, s, q, w).0);
      if !after.torn { GrownBinding(c, st.hs, after.hs, b); }
    }
  }

  lemma GrownBinding(c: Codec, hs: Ledger, after: Ledger, b: Binding)
    requires WellFormed(c, hs) && NonEmpty(hs) && WellFormed(c, after) && NonEmpty(after) && Grown(hs, after)
    requires FindHistory(Histories(c, hs), KeyOf(b)).Some? && FindHistory(Histories(c, hs), KeyOf(b)).value.recovery.binding == b
    ensures FindHistory(Histories(c, after), KeyOf(b)).Some? && FindHistory(Histories(c, after), KeyOf(b)).value.recovery.binding == b
  {
    hide WellFormed, Histories, FindHistory;
    LedgerHistoryFound(c, hs, KeyOf(b));
    RetainedBinding(c, hs, KeyOf(b));
    assert hs[KeyOf(b)][0] == after[KeyOf(b)][0];
    RetainedBinding(c, after, KeyOf(b));
  }

  /** Reading the directory shows r as the state of its recovery. */
  ghost predicate Shows(c: Codec, s: Store, r: Recovery)
    requires ValidNames(s)
  {
    var view := View(c, s);
    view.Success? && FindHistory(view.value, KeyOf(r.binding)).Some? && FindHistory(view.value, KeyOf(r.binding)).value.recovery == r
  }

  lemma GrantedHasTicket(c: Codec, s: Store, q: Request, w: Weather)
    requires ValidNames(s)
    ensures Step(c, s, q, w).1.error.None? ==> Step(c, s, q, w).1.ticket.Some?
  {
    hide Plan, ValidNames;
  }

  /** Any ticket is the one asked for, and one without an error is what the ledger now shows. */
  lemma AnswerShows(c: Codec, s: Store, q: Request, w: Weather)
    requires Faithful(c) && ValidNames(s)
    ensures var (t, a) := Step(c, s, q, w);
            && (a.error.None? ==> a.ticket.Some? && ValidNames(t) && Shows(c, t, a.ticket.value))
            && (a.ticket.Some? ==> View(c, s).Success? && BoundTo(View(c, s).value, q, a.ticket.value.binding))
            && (a.ticket.Some? ==> KeyOf(a.ticket.value.binding) == AskedKey(q) && a.ticket.value.fact == AskedFact(q))
  {
    GrantedHasTicket(c, s, q, w);
    hide Step, Faithful, View, FindHistory, BoundTo, AskedKey, AskedFact;
    if Step(c, s, q, w).1.ticket.Some? { TicketIsAsked(c, s, q, w); }
    if Step(c, s, q, w).1.error.None? { AnswerIsTrue(c, s, q, w); }
  }

  lemma ShownIsRegistered(c: Codec, s: Store, r: Recovery)
    requires ValidNames(s) && Shows(c, s, r)
    ensures Registered(c, s, r.binding)
  {
  }

  /** A transition of a registered recovery gives a ticket with its binding. */
  lemma RegisteredBinding(c: Codec, s: Store, registered: Binding, t: Fact, b: Binding)
    requires ValidNames(s) && View(c, s).Success? && Registered(c, s, registered)
    requires BoundTo(View(c, s).value, Advance(KeyOf(registered), t), b)
    ensures b == registered
  {
  }
}
