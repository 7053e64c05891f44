/** The move, retain and reconcile clients as programs that run one step at a time against what the ledger
    records, and what holds in every state they can reach. Here the ledger is only a book of current facts. */
module Clients {
  import opened Base
  import opened RecoveryGraph
  import opened RecordName

  datatype Source = Source(root: bytes, path: seq<bytes>)

  /** What is on record for one recovery: whether it carries a Trash layout binding, its current fact and the ones
      before it. */
  datatype Entry = Entry(source: Source, destination: Destination, bound: bool, fact: Fact, past: seq<Fact>)

  /** A fresh reservation; one for the Trash carries the layout it was made against. */
  function Reservation(s: Source, destination: Destination): Entry {
    Entry(s, destination, destination == Trash, INTENT, [])
  }

  function Follow(e: Entry, t: Fact): Entry {
    e.(fact := t, past := e.past + [e.fact])
  }

  predicate Recorded(e: Entry, f: Fact) {
    e.fact == f || f in e.past
  }

  type Book = map<Key, Entry>

  // ----- effects -----

  datatype Disposition = DidNotMove | MayHaveMoved | HasMoved

  /** The errors that the move takes for "did not happen". */
  predicate RenameDidNotApply(e: Errno) {
    e == EEXIST || e == ENOTEMPTY || e == EXDEV || e == ENOSYS || e == EINVAL || e == EOPNOTSUPP || e == EROFS
    || e == ENOENT || e == ENOTDIR || e == ELOOP
  }

  /** What the kernel and the checks around the rename do. For an error outside the list the content may have
      moved all the same. */
  datatype RenameWeather = RenameWeather(prechecked: bool, failure: Option<Errno>, movedAnyway: bool, confirmed: bool)

  /** Whether the content moves, if it is at the source. */
  predicate Applies(r: RenameWeather) {
    r.prechecked && match r.failure
                    case None => true
                    case Some(e) => e !in NO_EFFECT && r.movedAnyway
  }

  function Report(r: RenameWeather): Disposition {
    if !r.prechecked then DidNotMove
    else
      match r.failure
      case Some(e) => if RenameDidNotApply(e) then DidNotMove else MayHaveMoved
      case None => if r.confirmed then HasMoved else MayHaveMoved
  }

  /** The disposition is truthful, and says all that can be known: that nothing moved exactly if nothing can have. */
  lemma ReportIsTrue(r: RenameWeather)
    ensures Report(r) == HasMoved <==> r.prechecked && r.failure.None? && r.confirmed
    ensures Report(r) == HasMoved ==> Applies(r)
    ensures Report(r) == DidNotMove <==> forall x :: !Applies(r.(movedAnyway := x))
  {
    assert Applies(r.(movedAnyway := true)) ==> Report(r) != DidNotMove;
  }

  datatype Effect = WriteMetadata(key: Key) | Rename(key: Key)

  // ----- programs -----

  datatype Phase =
    | Begin(key: Key, source: Source)
    | Reserved(key: Key)
    | Writing(key: Key)
    | Wrote(key: Key, ok: bool)
    | Selecting(key: Key)
    | Selected(key: Key, ok: bool)
    | Renaming(key: Key)
    | Renamed(key: Key, disposition: Disposition, failed: bool)
    | Resolving(key: Key)
    | MetadataReload(key: Key)
    | MetadataProbe(key: Key)
    | MetadataResolve(key: Key, metadata: Metadata)
    | MoveReload(key: Key)
    | MoveProbe(key: Key, round: nat)
    | MoveResolve(key: Key)
    | Stopped

  /** A client moves to the Trash or retains in the Quarantine, by its destination. */
  datatype Client = Client(destination: Destination, phase: Phase)

  /** What a client asks of the ledger next, and where it goes if the ledger reports no error. */
  datatype Ask =
    | NoAsk
    | AskReserve(key: Key, source: Source)
    | AskTransition(key: Key, fact: Fact, next: Phase)

  function Asks(cl: Client): Ask {
    match cl.phase
    case Begin(k, s) => AskReserve(k, s)
    case Reserved(k) =>
      if cl.destination == Trash then AskTransition(k, Ordinary(MetadataDispatchRecorded), Writing(k))
      else AskTransition(k, Ordinary(MoveDispatchRecorded), Renaming(k))
    case Wrote(k, ok) =>
      if ok then AskTransition(k, Ordinary(MetadataVerified), Selecting(k))
      else AskTransition(k, Ordinary(MetadataIndeterminate), Stopped)
    case Selected(k, ok) =>
      if ok then AskTransition(k, Ordinary(MoveDispatchRecorded), Renaming(k))
      else AskTransition(k, Fact(ReconciliationResolved, NotApplied, Retained), Stopped)
    case Renamed(k, d, failed) =>
      if d == HasMoved && !failed then AskTransition(k, Ordinary(MoveVerified), Stopped)
      else AskTransition(k, Ordinary(MoveIndeterminate), if cl.destination == Trash && d == DidNotMove then Resolving(k) else Stopped)
    case Resolving(k) => AskTransition(k, Fact(ReconciliationResolved, NotApplied, NoMetadata), Stopped)
    case MetadataResolve(k, m) => AskTransition(k, Fact(ReconciliationResolved, NotApplied, m), Stopped)
    case MoveResolve(k) => AskTransition(k, Fact(ReconciliationResolved, OutcomeMoveVerified, NoMetadata), Stopped)
    case _ => NoAsk
  }

  // ----- the scene -----

  /** moved: for each source whose content is not there, the recovery under whose token it now is;
      info: the recoveries whose metadata entry exists; log: every effect called, in order. */
  datatype Scene = Scene(book: Book, moved: map<Source, Key>, info: set<Key>, clients: map<nat, Client>, log: seq<Effect>)

  /** The outcomes the surroundings choose for one step. */
  datatype Choice = Choice(good: bool, written: bool, rename: RenameWeather, failed: bool)

  predicate At(sc: Scene, k: Key) {
    k in sc.book && sc.book[k].source in sc.moved && sc.moved[sc.book[k].source] == k
  }

  predicate MetadataIsIndeterminate(sc: Scene, k: Key) {
    k in sc.book && sc.book[k].destination == Trash && sc.book[k].fact == Ordinary(MetadataIndeterminate)
  }

  predicate MoveIsIndeterminate(sc: Scene, k: Key) {
    k in sc.book && sc.book[k].destination == Trash && sc.book[k].fact == Ordinary(MoveIndeterminate)
  }

  /** The probe of round n of a move reconciliation: metadata, source gone, content there, source gone, metadata. */
  predicate ProbeHolds(sc: Scene, k: Key, n: nat) {
    if n == 0 || n == 4 then k in sc.info
    else if n == 1 || n == 3 then k in sc.book && sc.book[k].source in sc.moved
    else At(sc, k)
  }

  function Goes(sc: Scene, i: nat, p: Phase): Scene
    requires i in sc.clients
  {
    sc.(clients := sc.clients[i := sc.clients[i].(phase := p)])
  }

  /** A step that does not write to the ledger; a reload reads it, and refuses a recovery without a layout binding. */
  function Acts(sc: Scene, i: nat, ch: Choice): Scene
    requires i in sc.clients
  {
    match sc.clients[i].phase
    case Writing(k) =>
      Goes(sc, i, Wrote(k, ch.good && ch.written))
      .(info := if ch.written then sc.info + {k} else sc.info, log := sc.log + [WriteMetadata(k)])
    case Selecting(k) => Goes(sc, i, Selected(k, ch.good))
    case Renaming(k) =>
      var away := k !in sc.book || sc.book[k].source in sc.moved;
      var r := if away then ch.rename.(prechecked := false) else ch.rename;
      Goes(sc, i, Renamed(k, Report(r), ch.failed || Report(r) != HasMoved))
      .(moved := if Applies(r) then sc.moved[sc.book[k].source := k] else sc.moved, log := sc.log + [Rename(k)])
    case MetadataReload(k) => Goes(sc, i, if ch.good && MetadataIsIndeterminate(sc, k) && sc.book[k].bound then MetadataProbe(k) else Stopped)
    case MetadataProbe(k) => Goes(sc, i, if ch.good then MetadataResolve(k, if k in sc.info then Retained else Absent) else Stopped)
    case MoveReload(k) => Goes(sc, i, if ch.good && MoveIsIndeterminate(sc, k) && sc.book[k].bound then MoveProbe(k, 0) else Stopped)
    case MoveProbe(k, n) =>
      Goes(sc, i, if !ch.good || !ProbeHolds(sc, k, n) then Stopped else if n < 4 then MoveProbe(k, n + 1) else MoveResolve(k))
    case _ => sc
  }

  /** A call of the ledger: what it did to the book, and whether it reported an error. */
  function Calls(sc: Scene, i: nat, after: Book, ok: bool): Scene
    requires i in sc.clients
  {
    var next := match Asks(sc.clients[i])
                case AskTransition(_, _, p) => p
                case AskReserve(k, _) => Reserved(k)
                case NoAsk => Stopped;
    Goes(sc.(book := after), i, if ok then next else Stopped)
  }

  /** What the ledger may do with a request: nothing, or exactly what was asked, if the graph and the sources allow it;
      without an error it has done it. */
  predicate Answered(sc: Scene, cl: Client, after: Book, ok: bool) {
    match Asks(cl)
    case NoAsk => after == sc.book
    case AskReserve(k, s) =>
      || (after == sc.book && !ok)
      || (k !in sc.book && !SourceInUse(sc.book, s) && Recoverable(cl.destination) && after == sc.book[k := Reservation(s, cl.destination)])
    case AskTransition(k, t, _) =>
      || (after == sc.book && !ok)
      || (k in sc.book && Legal(sc.book[k].destination, sc.book[k].fact, t) && after == sc.book[k := Follow(sc.book[k], t)])
  }

  predicate Recoverable(destination: Destination) {
    destination == Trash || destination == Quarantine
  }

  predicate SourceInUse(book: Book, s: Source) {
    exists k :: k in book && !Closed(book[k].fact) && book[k].source == s
  }

  // ----- the invariant -----

  datatype Whereabouts = AtSource | AtDestination | AtEither | Unknown

  /** Where a recovery's fact allows the content to be. No client here records a restore; an earlier one may have. */
  function Allowed(f: Fact): Whereabouts {
    match Stage(f)
    case IntentReserved => AtSource
    case MetadataDispatchRecorded => AtSource
    case MetadataVerified => AtSource
    case MetadataIndeterminate => AtSource
    case MoveDispatchRecorded => AtEither
    case MoveIndeterminate => AtEither
    case MoveVerified => AtDestination
    case RestoreDispatchRecorded => AtEither
    case RestoreIndeterminate => AtEither
    case RestoreVerified => AtSource
    case ReconciliationResolved => if f.outcome == NotApplied || f.outcome == OutcomeRestoreVerified then AtSource else Unknown
    case _ => Unknown
  }

  predicate Located(sc: Scene) {
    && (forall s :: s in sc.moved ==> sc.moved[s] in sc.book && sc.book[sc.moved[s]].source == s)
    && (forall k :: k in sc.book ==>
          match Allowed(sc.book[k].fact)
          case AtSource => !At(sc, k)
          case AtDestination => At(sc, k)
          case AtEither => true
          case Unknown => false)
  }

  predicate OneOpen(book: Book) {
    forall k, l :: k in book && l in book && k != l && !Closed(book[k].fact) && !Closed(book[l].fact) ==> book[k].source != book[l].source
  }

  /** The phases of the client that made the reservation. */
  predicate Owns(p: Phase) {
    p.Reserved? || p.Writing? || p.Wrote? || p.Selecting? || p.Selected? || p.Renaming? || p.Renamed? || p.Resolving?
  }

  /** The fact an owner knows its recovery to have. */
  function OwnFact(p: Phase): Fact
    requires Owns(p)
  {
    match p
    case Reserved(_) => INTENT
    case Writing(_) => Ordinary(MetadataDispatchRecorded)
    case Wrote(_, _) => Ordinary(MetadataDispatchRecorded)
    case Selecting(_) => Ordinary(MetadataVerified)
    case Selected(_, _) => Ordinary(MetadataVerified)
    case Renaming(_) => Ordinary(MoveDispatchRecorded)
    case Renamed(_, _, _) => Ordinary(MoveDispatchRecorded)
    case Resolving(_) => Ordinary(MoveIndeterminate)
  }

  predicate PhaseHolds(sc: Scene, cl: Client) {
    var p := cl.phase;
    if Owns(p) then
      && p.key in sc.book && Recoverable(cl.destination) && sc.book[p.key].destination == cl.destination && sc.book[p.key].fact == OwnFact(p)
      && (p.Writing? || p.Wrote? || p.Selecting? || p.Selected? || p.Resolving? ==> cl.destination == Trash)
      && (p.Reserved? || p.Writing? ==> WriteMetadata(p.key) !in sc.log)
      && (!p.Renamed? && !p.Resolving? ==> Rename(p.key) !in sc.log && !At(sc, p.key))
      && (p.Selecting? || p.Selected? || (p.Wrote? && p.ok) ==> p.key in sc.info)
      && (p.Renamed? && p.disposition == HasMoved ==> At(sc, p.key))
      && (p.Renamed? && p.disposition == DidNotMove ==> !At(sc, p.key))
      && (p.Resolving? ==> !At(sc, p.key))
    else
      match p
      case MetadataProbe(k) => k in sc.book && sc.book[k].bound && (MetadataIsIndeterminate(sc, k) || Closed(sc.book[k].fact))
      case MetadataResolve(k, m) =>
        && k in sc.book && sc.book[k].bound && (MetadataIsIndeterminate(sc, k) || Closed(sc.book[k].fact))
        && m == if k in sc.info then Retained else Absent
      case MoveProbe(k, n) => MoveWasIndeterminate(sc, k) && sc.book[k].bound && (n > 2 ==> At(sc, k))
      case MoveResolve(k) => MoveWasIndeterminate(sc, k) && sc.book[k].bound && At(sc, k)
      case _ => true
  }

  predicate MoveWasIndeterminate(sc: Scene, k: Key) {
    k in sc.book && (MoveIsIndeterminate(sc, k) || Closed(sc.book[k].fact) || Stage(sc.book[k].fact) == MoveVerified)
  }

  predicate OwnersDiffer(clients: map<nat, Client>) {
    forall i, j :: i in clients && j in clients && i != j && Owns(clients[i].phase) && Owns(clients[j].phase) ==>
                     clients[i].phase.key != clients[j].phase.key
  }

  predicate Once(log: seq<Effect>) {
    forall i, j :: 0 <= i < j < |log| ==> log[i] != log[j]
  }

  /** Every effect called has its dispatch on record. */
  predicate Logged(sc: Scene) {
    && Once(sc.log)
    && (forall e :: e in sc.log ==> e.key in sc.book && Recorded(sc.book[e.key], DispatchOf(e)))
  }

  /** The fact that must be on record before an effect. */
  function DispatchOf(e: Effect): Fact {
    if e.Rename? then Ordinary(MoveDispatchRecorded) else Ordinary(MetadataDispatchRecorded)
  }

  /** The metadata disposition of a closed Trash recovery says whether its entry exists; a move that was known not to
      apply leaves it unsaid. */
  predicate MetadataTruthful(sc: Scene) {
    forall k :: k in sc.book && Closed(sc.book[k].fact) ==>
                  match sc.book[k].fact.metadata
                  case Absent => k !in sc.info
                  case Retained => k in sc.info
                  case _ => true
  }

  predicate Inv(sc: Scene) {
    && Located(sc) && OneOpen(sc.book) && Logged(sc) && OwnersDiffer(sc.clients) && MetadataTruthful(sc)
    && (forall i :: i in sc.clients ==> PhaseHolds(sc, sc.clients[i]))
  }
}
