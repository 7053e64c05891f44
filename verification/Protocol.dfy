/** The clients and the ledger together: every interleaving, with crashes, power losses, unreported and torn
    publications. */
module Protocol {
  import opened Base
  import opened RecoveryGraph
  import opened RecordName
  import opened RecoveryChain
  import opened RecoveryAppend
  import opened LedgerRecords
  import opened LedgerInventory
  import opened LedgerStore
  import opened LedgerSteps
  import opened LedgerRuns
  import opened Books
  import opened Clients
  import opened ClientSafety
  import opened Durability

  // ----- the world -----

  /** durable: the ledger as of the last publication that was confirmed; requests: what each move or retain client was
      started with. */
  datatype World = World(ledger: State, durable: Ledger, scene: Scene, requests: map<nat, Binding>)

  /** RecordLost: a record stops being readable at any time. The ledger's facts are then those of its last readable
      state. PowerLoss: all clients stop, and of the frames published since the last confirmed publication some are
      gone; a torn one may be among them, so that the ledger can be read again. */
  datatype Action =
    | Start(client: nat, binding: Binding)
    | StartReconciler(client: nat, key: Key, metadata: bool)
    | Act(client: nat, choice: Choice)
    | CallLedger(client: nat, weather: Weather)
    | Crash(client: nat)
    | RecordLost
    | PowerLoss(kept: Ledger, readable: bool)

  /** A client's next call of the ledger; the token in a reservation's binding is as random as any. */
  function RequestOf(w: World, i: nat): Option<Request>
    requires i in w.scene.clients
  {
    match Asks(w.scene.clients[i])
    case NoAsk => None
    case AskReserve(_, _) => if i in w.requests then Some(Reserve(w.requests[i])) else None
    case AskTransition(k, t, _) => Some(Advance(k, t))
  }

  function WithClient(w: World, i: nat, cl: Client): World {
    w.(scene := w.scene.(clients := w.scene.clients[i := cl]))
  }

  ghost function Does(c: Codec, w: World, a: Action): (after: World)
    requires NonEmpty(w.ledger.hs)
    ensures NonEmpty(after.ledger.hs)
  {
    match a
    case Start(i, b) =>
      if i in w.scene.clients then w
      else WithClient(w, i, Client(b.destination, Begin(KeyOf(b), SourceOf(b)))).(requests := w.requests[i := b])
    case StartReconciler(i, k, metadata) =>
      if i in w.scene.clients then w
      else WithClient(w, i, Client(Trash, if metadata then MetadataReload(k) else MoveReload(k)))
    case Act(i, ch) =>
      if i !in w.scene.clients || !Asks(w.scene.clients[i]).NoAsk? then w
      else w.(scene := Acts(w.scene, i, if w.ledger.torn && Reloads(w.scene.clients[i].phase) then ch.(good := false) else ch))
    case CallLedger(i, weather) =>
      if i !in w.scene.clients || RequestOf(w, i).None? then w
      else
        var (after, answer) := AbstractStep(c, w.ledger, RequestOf(w, i).value, weather);
        w.(ledger := after, durable := if answer.error.None? then after.hs else w.durable,
           scene := Calls(w.scene, i, BookOf(after.hs), answer.error.None?))
    case Crash(i) =>
      if i !in w.scene.clients then w else WithClient(w, i, w.scene.clients[i].(phase := Stopped))
    case RecordLost => w.(ledger := w.ledger.(torn := true))
    case PowerLoss(kept, readable) =>
      if !Survives(c, w, kept) then w
      else w.(ledger := State(kept, !readable), durable := kept, scene := Rebooted(w.scene, kept))
  }

  /** What a power loss may leave: everything that was confirmed, no more than there was, and whole histories or
      beginnings of them. Anything else cannot be read. */
  ghost predicate Survives(c: Codec, w: World, kept: Ledger) {
    NonEmpty(kept) && WellFormed(c, kept) && Extends(w.durable, kept) && Extends(kept, w.ledger.hs)
  }

  predicate Reloads(p: Phase) { p.MetadataReload? || p.MoveReload? }

  ghost function RunWorld(c: Codec, w: World, actions: seq<Action>): (after: World)
    requires NonEmpty(w.ledger.hs)
    ensures NonEmpty(after.ledger.hs)
    decreases |actions|
  {
    hide Does, NonEmpty;
    if actions == [] then w else RunWorld(c, Does(c, w, actions[0]), actions[1..])
  }

  ghost predicate Started(w: World) {
    forall i :: i in w.scene.clients && w.scene.clients[i].phase.Begin? ==>
                  && i in w.requests
                  && w.scene.clients[i] == Client(w.requests[i].destination, Begin(KeyOf(w.requests[i]), SourceOf(w.requests[i])))
  }

  /** Histories from before the current schema stay readable and are never continued. */
  ghost predicate IsV2(hs: Ledger, k: Key)
    requires NonEmpty(hs)
  {
    k in hs && hs[k][0].schema == SCHEMA_V2
  }

  ghost predicate OwnersV2(hs: Ledger, clients: map<nat, Client>)
    requires NonEmpty(hs)
  {
    forall i :: i in clients && Owns(clients[i].phase) ==> IsV2(hs, clients[i].phase.key)
  }

  ghost predicate Safe(c: Codec, w: World) {
    && WellFormed(c, w.ledger.hs) && NonEmpty(w.ledger.hs) && OwnersV2(w.ledger.hs, w.scene.clients)
    && w.scene.book == BookOf(w.ledger.hs)
    && Inv(w.scene) && Started(w) && Backed(w.durable, w.ledger.hs, w.scene)
  }

  /** No client is running and none has called an effect yet. The ledger is any that can be read, of either schema;
      all of it is durable, every content is where its facts allow, and closed recoveries tell the truth about their
      entries. */
  ghost predicate AtRest(c: Codec, w: World) {
    && WellFormed(c, w.ledger.hs) && NonEmpty(w.ledger.hs)
    && w.durable == w.ledger.hs && w.scene.book == BookOf(w.ledger.hs) && w.scene.clients == map[] && w.scene.log == []
    && Located(w.scene) && MetadataTruthful(w.scene)
  }

  lemma RestIsSafe(c: Codec, w: World)
    requires AtRest(c, w)
    ensures Safe(c, w)
  {
    hide BookOf, Located, MetadataTruthful, OneOpen, NonEmpty, Backed;
    OneOpenInBook(w.ledger.hs);
    AllConfirmed(w.ledger.hs, w.scene);
  }

  /** Nothing reserved yet, all content at its source. */
  function Beginning(): World {
    World(State(map[], false), map[], Scene(map[], map[], {}, map[], []), map[])
  }

  lemma BeginningIsAtRest(c: Codec)
    ensures AtRest(c, Beginning())
  {
    assert BookOf(map[]) == map[];
  }

  // ----- the ledger answers the clients as the scene expects -----

  lemma BookAfter(c: Codec, hs: Ledger, q: Request, after: Ledger, f: Frame)
    requires NonEmpty(hs) && GrewBy(c, hs, q, after, f)
    ensures NonEmpty(after)
    ensures q.Reserve? ==> KeyOf(q.binding) !in hs && BookOf(after) == BookOf(hs)[KeyOf(q.binding) := Reservation(SourceOf(q.binding), q.binding.destination)]
    ensures q.Advance? ==> q.key in hs && BookOf(after) == BookOf(hs)[q.key := Follow(EntryOf(hs[q.key]), q.fact)]
  {
    BookOfAdd(hs, f);
    var k := KeyOf(f.binding);
    if q.Advance? {
      assert after[k] == hs[k] + [f] && |hs[k]| > 0;
      hide Continues, EntryOf, Follow, BookOf, NonEmpty, AddFrame;
      EntryAfter(hs[k], f);
    } else {
      assert after[k] == [f];
      IntentRecoverable(c, q.binding);
      assert EntryOf([f]) == Reservation(SourceOf(q.binding), q.binding.destination);
      hide Continues, EntryOf, BookOf, NonEmpty, AddFrame;
    }
  }

  lemma GrowthIsLegal(c: Codec, hs: Ledger, q: Request, after: Ledger, f: Frame)
    requires NonEmpty(hs) && GrewBy(c, hs, q, after, f)
    ensures q.Advance? ==> q.key in hs && var e := EntryOf(hs[q.key]); Legal(e.destination, e.fact, q.fact)
    ensures q.Reserve? ==> !SourceOpen(hs, q.binding.root, q.binding.source) && Recoverable(q.binding.destination)
  {
    var k := KeyOf(f.binding);
    hide Legal, EncodeFrame, SourceOpen, ValidBinding;
    if q.Advance? {
      var g := hs[k] + [f];
      assert ValidHistory(c, g);
      assert LegalPath(g[0].binding.destination, Facts(g));
      assert Legal(g[0].binding.destination, Facts(g)[|g| - 2], Facts(g)[|g| - 1]);
    } else {
      IntentRecoverable(c, q.binding);
    }
  }

  lemma IntentRecoverable(c: Codec, b: Binding)
    requires ValidHistory(c, [IntentFrame(b)])
    ensures Recoverable(b.destination) && (b.layout != ZERO_DIGEST <==> b.destination == Trash)
  {
    HistoryFacts(c, [IntentFrame(b)]);
  }

  lemma SourcesMatch(hs: Ledger, b: Binding)
    requires NonEmpty(hs)
    ensures SourceInUse(BookOf(hs), SourceOf(b)) <==> SourceOpen(hs, b.root, b.source)
  {
    hide Closed;
    if SourceInUse(BookOf(hs), SourceOf(b)) {
      var k :| k in BookOf(hs) && !Closed(BookOf(hs)[k].fact) && BookOf(hs)[k].source == SourceOf(b);
      assert OpenFor(hs[k], b.root, b.source);
    }
    if SourceOpen(hs, b.root, b.source) {
      var k :| k in hs && OpenFor(hs[k], b.root, b.source);
      assert k in BookOf(hs) && BookOf(hs)[k] == EntryOf(hs[k]);
    }
  }

  /** The request is what the client asks. */
  predicate Matches(cl: Client, q: Request) {
    match q
    case Reserve(b) => Asks(cl) == AskReserve(KeyOf(b), SourceOf(b)) && cl.destination == b.destination
    case Advance(k, t) => Asks(cl).AskTransition? && Asks(cl).key == k && Asks(cl).fact == t
  }

  lemma RequestMatches(w: World, i: nat)
    requires Started(w) && i in w.scene.clients && RequestOf(w, i).Some?
    ensures Matches(w.scene.clients[i], RequestOf(w, i).value)
  {
  }

  lemma AnsweredIfGrown(c: Codec, hs: Ledger, sc: Scene, i: nat, q: Request, after: Ledger, f: Frame, ok: bool)
    requires NonEmpty(hs) && NonEmpty(after) && sc.book == BookOf(hs) && i in sc.clients && Matches(sc.clients[i], q)
    requires GrewBy(c, hs, q, after, f)
    ensures Calling(sc, i, BookOf(after), ok)
  {
    hide Asks, Legal, BookOf, SourceInUse, SourceOpen, GrewBy, NonEmpty, EntryOf;
    BookAfter(c, hs, q, after, f);
    GrowthIsLegal(c, hs, q, after, f);
    if q.Reserve? {
      SourcesMatch(hs, q.binding);
      if KeyOf(q.binding) in sc.book { BookKey(hs, KeyOf(q.binding)); }
    } else {
      BookEntry(hs, q.key);
    }
  }

  lemma GrownIsOneMore(c: Codec, hs: Ledger, q: Request, after: Ledger, f: Frame)
    requires NonEmpty(hs) && GrewBy(c, hs, q, after, f)
    ensures OneMore(hs, after, AskedKey(q)) && after != hs
  {
    hide ValidHistory, EncodeFrame, SourceOpen, OpenFrames;
    var k := KeyOf(f.binding);
    assert after[k] == (if k in hs then hs[k] else []) + [f];
    assert after != hs by { assert k in hs ==> |after[k]| != |hs[k]|; }
  }

  lemma GrownIsV2(c: Codec, hs: Ledger, q: Request, after: Ledger, f: Frame)
    requires NonEmpty(hs) && GrewBy(c, hs, q, after, f)
    ensures NonEmpty(after) && IsV2(after, AskedKey(q))
    ensures forall k :: IsV2(hs, k) ==> IsV2(after, k)
  {
    hide ValidHistory, EncodeFrame, SourceOpen, OpenFrames;
    assert NonEmpty(after);
  }

  lemma AnsweredIfUnchanged(sc: Scene, i: nat, q: Request)
    requires i in sc.clients && Matches(sc.clients[i], q)
    ensures Calling(sc, i, sc.book, false)
  {
    hide Legal;
  }

  /** Whatever the weather, the ledger's answer is one the clients' proof allows for. */
  lemma LedgerAnswers(c: Codec, w: World, i: nat, weather: Weather)
    requires Safe(c, w) && i in w.scene.clients && RequestOf(w, i).Some?
    ensures NonEmpty(w.ledger.hs)
    ensures var (after, answer) := AbstractStep(c, w.ledger, RequestOf(w, i).value, weather);
            && Calling(w.scene, i, BookOf(after.hs), answer.error.None?)
            && WellFormed(c, after.hs) && (forall k :: IsV2(w.ledger.hs, k) ==> IsV2(after.hs, k))
            && (answer.error.None? ==> IsV2(after.hs, AskedKey(RequestOf(w, i).value)))
            && (if after.hs == w.ledger.hs then answer.error.Some? else OneMore(w.ledger.hs, after.hs, AskedKey(RequestOf(w, i).value)))
  {
    var q := RequestOf(w, i).value;
    var hs := w.ledger.hs;
    hide *;
    SafeParts(c, w);
    RequestMatches(w, i);
    StepGrows(c, w.ledger, q, weather);
    var f := AbstractAnswers(c, w.ledger, q, weather);
    var after := AbstractStep(c, w.ledger, q, weather).0;
    var ok := AbstractStep(c, w.ledger, q, weather).1.error.None?;
    if f.Some? {
      GrownIsOneMore(c, hs, q, after.hs, f.value);
      GrownIsV2(c, hs, q, after.hs, f.value);
      AnsweredIfGrown(c, hs, w.scene, i, q, after.hs, f.value, ok);
    } else {
      AnsweredIfUnchanged(w.scene, i, q);
    }
  }

  // ----- every step is safe -----

  lemma SafeFrom(c: Codec, w: World, after: World)
    requires Safe(c, w) && after.ledger.hs == w.ledger.hs && after.scene.book == w.scene.book && Inv(after.scene) && Started(after)
    requires NonEmpty(w.ledger.hs) && OwnersV2(w.ledger.hs, after.scene.clients) && Backed(after.durable, w.ledger.hs, after.scene)
    ensures Safe(c, after)
  {
  }

  lemma SafeParts(c: Codec, w: World)
    requires Safe(c, w)
    ensures NonEmpty(w.ledger.hs) && WellFormed(c, w.ledger.hs) && OwnersV2(w.ledger.hs, w.scene.clients)
    ensures w.scene.book == BookOf(w.ledger.hs) && Inv(w.scene) && Started(w) && Backed(w.durable, w.ledger.hs, w.scene)
  {
  }

  lemma StepIsSafe(c: Codec, w: World, a: Action)
    requires Safe(c, w)
    ensures NonEmpty(w.ledger.hs) && Safe(c, Does(c, w, a))
  {
    hide Safe, WellFormed, NonEmpty, BookOf, Inv, AbstractStep, Acts, Calls, Asks, Started, Backed, Extends, Rebooted;
    SafeParts(c, w);
    match a
    case Start(i, b) =>
      if i !in w.scene.clients { StartIsSafe(c, w, i, Client(b.destination, Begin(KeyOf(b), SourceOf(b))), w.requests[i := b]); }
    case StartReconciler(i, k, metadata) =>
      if i !in w.scene.clients { StartIsSafe(c, w, i, Client(Trash, if metadata then MetadataReload(k) else MoveReload(k)), w.requests); }
    case Act(i, ch) =>
      if i in w.scene.clients && Asks(w.scene.clients[i]).NoAsk? {
        ActIsSafe(c, w, i, if w.ledger.torn && Reloads(w.scene.clients[i].phase) then ch.(good := false) else ch);
      }
    case CallLedger(i, weather) =>
      if i in w.scene.clients && RequestOf(w, i).Some? { CallIsSafe(c, w, i, weather); }
    case Crash(i) =>
      if i in w.scene.clients { StartIsSafe(c, w, i, w.scene.clients[i].(phase := Stopped), w.requests); }
    case RecordLost =>
      SafeFrom(c, w, w.(ledger := w.ledger.(torn := true)));
    case PowerLoss(kept, readable) =>
      if Survives(c, w, kept) { RebootIsSafe(c, w, kept, readable); }
  }

  lemma RebootIsSafe(c: Codec, w: World, kept: Ledger, readable: bool)
    requires Safe(c, w) && Survives(c, w, kept)
    ensures Safe(c, w.(ledger := State(kept, !readable), durable := kept, scene := Rebooted(w.scene, kept)))
  {
    hide Safe, WellFormed, NonEmpty, BookOf, Inv, Backed, Extends, Rebooted;
    SafeParts(c, w);
    RebootKeepsInv(c, w.durable, w.ledger.hs, w.scene, kept);
    RebootFrame(w.scene, kept);
    AllConfirmed(kept, Rebooted(w.scene, kept));
    SafeIs(c, w.(ledger := State(kept, !readable), durable := kept, scene := Rebooted(w.scene, kept)));
  }

  lemma SafeIs(c: Codec, w: World)
    requires WellFormed(c, w.ledger.hs) && NonEmpty(w.ledger.hs) && w.scene.book == BookOf(w.ledger.hs) && Inv(w.scene)
    requires Backed(w.durable, w.ledger.hs, w.scene) && forall i :: i in w.scene.clients ==> w.scene.clients[i].phase == Stopped
    ensures Safe(c, w)
  {
    hide WellFormed, NonEmpty, BookOf, Inv, Backed;
  }

  lemma StartIsSafe(c: Codec, w: World, i: nat, cl: Client, requests: map<nat, Binding>)
    requires Safe(c, w) && !HasKey(cl.phase) && (requests == w.requests || (i !in w.scene.clients && requests - {i} == w.requests - {i}))
    requires cl.phase.Begin? ==> i in requests && cl == Client(requests[i].destination, Begin(KeyOf(requests[i]), SourceOf(requests[i])))
    ensures Safe(c, WithClient(w, i, cl).(requests := requests))
  {
    hide Safe, Inv, BookOf, WellFormed, NonEmpty, Backed;
    SafeParts(c, w);
    StartStopKeeps(w.scene, i, cl);
    ClientsBacked(w.durable, w.ledger.hs, w.scene, i, cl);
    var after := WithClient(w, i, cl).(requests := requests);
    assert Started(after) by {
      forall j | j in after.scene.clients && after.scene.clients[j].phase.Begin?
        ensures j in requests && after.scene.clients[j] == Client(requests[j].destination, Begin(KeyOf(requests[j]), SourceOf(requests[j])))
      {
        if j != i && requests != w.requests { assert j in requests - {i} <==> j in w.requests - {i}; }
      }
    }
    SafeFrom(c, w, after);
  }

  lemma ActIsSafe(c: Codec, w: World, i: nat, ch: Choice)
    requires Safe(c, w) && i in w.scene.clients && Asks(w.scene.clients[i]).NoAsk?
    ensures Safe(c, w.(scene := Acts(w.scene, i, ch)))
  {
    hide Safe, Inv, BookOf, WellFormed, NonEmpty, Backed, Acts, IsV2, Asks, Owns;
    SafeParts(c, w);
    ActKeeps(w.scene, i, ch);
    ActKeepsOthers(w.scene, i, ch);
    ActBacked(w.durable, w.ledger.hs, w.scene, i, ch);
    ActStarts(w.scene, i, ch);
    if Owns(Acts(w.scene, i, ch).clients[i].phase) { ActKeepsKey(w.scene, i, ch); }
    SafeFrom(c, w, w.(scene := Acts(w.scene, i, ch)));
  }

  lemma ActStarts(sc: Scene, i: nat, ch: Choice)
    requires i in sc.clients && Asks(sc.clients[i]).NoAsk?
    ensures i in Acts(sc, i, ch).clients && !Acts(sc, i, ch).clients[i].phase.Begin?
  {
    hide ProbeHolds, Applies, Report, MetadataIsIndeterminate, MoveIsIndeterminate;
  }

  lemma CallIsSafe(c: Codec, w: World, i: nat, weather: Weather)
    requires Safe(c, w) && i in w.scene.clients && RequestOf(w, i).Some? && NonEmpty(w.ledger.hs)
    ensures Safe(c, Does(c, w, CallLedger(i, weather)))
  {
    hide WellFormed, NonEmpty, BookOf, Inv, AbstractStep, Calling, Asks, Backed, OneMore;
    LedgerAnswers(c, w, i, weather);
    var (after, answer) := AbstractStep(c, w.ledger, RequestOf(w, i).value, weather);
    CallKeeps(w.scene, i, BookOf(after.hs), answer.error.None?);
    CallBacked(w.durable, w.ledger.hs, w.scene, i, after.hs, AskedKey(RequestOf(w, i).value), answer.error.None?);
    CallStarts(w.scene, i, BookOf(after.hs), answer.error.None?);
    RequestMatches(w, i);
  }

  lemma CallStarts(sc: Scene, i: nat, after: Book, ok: bool)
    requires i in sc.clients
    ensures Calls(sc, i, after, ok).book == after && Calls(sc, i, after, ok).clients.Keys == sc.clients.Keys
    ensures !Calls(sc, i, after, ok).clients[i].phase.Begin?
    ensures Owns(Calls(sc, i, after, ok).clients[i].phase) ==>
              ok && !Asks(sc.clients[i]).NoAsk? && Calls(sc, i, after, ok).clients[i].phase.key == Asks(sc.clients[i]).key
    ensures forall j :: j in sc.clients && j != i ==> Calls(sc, i, after, ok).clients[j] == sc.clients[j]
  {
  }

  lemma {:induction false} RunIsSafe(c: Codec, w: World, actions: seq<Action>)
    requires Safe(c, w)
    ensures NonEmpty(w.ledger.hs) && Safe(c, RunWorld(c, w, actions))
    decreases |actions|
  {
    assert NonEmpty(w.ledger.hs);
    hide Safe, NonEmpty, Does;
    if actions != [] {
      StepIsSafe(c, w, actions[0]);
      RunIsSafe(c, Does(c, w, actions[0]), actions[1..]);
    }
  }

  // ----- what holds at every moment of every run -----

  /** Recovery k is open for source s and its move was dispatched. */
  ghost predicate HeldBy(hs: Ledger, k: Key, s: Source)
    requires NonEmpty(hs)
  {
    k in hs && EntryOf(hs[k]).source == s && !Closed(EntryOf(hs[k]).fact) && Dispatched(hs[k])
  }

  /** The guarantee in the ledger's own terms. */
  ghost predicate LedgerTellsTruth(w: World)
    requires NonEmpty(w.ledger.hs)
  {
    var hs, sc := w.ledger.hs, w.scene;
    && (forall k :: k in hs ==> Permits(EntryOf(hs[k]).fact, At(sc, k)))
    && (forall s :: s in sc.moved ==> HeldBy(hs, sc.moved[s], s))
    && (forall k :: k in hs && !Closed(EntryOf(hs[k]).fact) && !Dispatched(hs[k]) ==> EntryOf(hs[k]).source !in sc.moved)
    && Once(sc.log)
    && (forall e :: e in sc.log ==> e.key in hs && DispatchOf(e) in Facts(hs[e.key]))
    && (forall k :: k in hs && Closed(EntryOf(hs[k]).fact) ==> MetadataSays(EntryOf(hs[k]).fact, k in sc.info))
  }

  /** From any ledger at rest, under any interleaving of any clients, crashing anywhere, whatever becomes of their
      publications and renames: the content of every recovery is where its last recorded fact allows it. Content is
      away from its source only while it is held by an open recovery of that source whose move was dispatched, so the
      content of a source with no open recovery, or an undispatched one, is at the source. Every effect is called at
      most once and only with its dispatch on record, and a closed recovery says truly whether its metadata entry
      remains. A source is one entry of a pinned parent directory: sources are taken to be apart, so that moving one
      does not carry another along. */
  lemma ContentSafety(c: Codec, w: World, actions: seq<Action>)
    requires AtRest(c, w)
    ensures NonEmpty(w.ledger.hs)
    ensures LedgerTellsTruth(RunWorld(c, w, actions))
  {
    RestIsSafe(c, w);
    assert NonEmpty(w.ledger.hs);
    hide Safe, NonEmpty, RunWorld, LedgerTellsTruth;
    RunIsSafe(c, w, actions);
    SafeTellsTruth(c, RunWorld(c, w, actions));
  }

  lemma SafeTellsTruth(c: Codec, w: World)
    requires Safe(c, w)
    ensures NonEmpty(w.ledger.hs) && LedgerTellsTruth(w)
  {
    var hs, sc := w.ledger.hs, w.scene;
    hide Safe, WellFormed, NonEmpty, Inv, Facts, Closed, BookOf, EntryOf, SourceInUse, DispatchOf, Dispatched, PastDispatch;
    SafeParts(c, w);
    InvParts(sc);
    forall k ensures k in sc.book <==> k in hs { BookKey(hs, k); }
    forall k | k in hs ensures sc.book[k] == EntryOf(hs[k]) { BookEntry(hs, k); }
    forall k | k in hs && !Closed(EntryOf(hs[k]).fact) ensures Dispatched(hs[k]) <==> PastDispatch(EntryOf(hs[k]).fact) {
      HistoryOf(c, hs, k);
      DispatchRecorded(c, hs[k]);
    }
    forall s | s in sc.moved ensures HeldBy(hs, sc.moved[s], s) { AwayMeansOpen(sc, s); }
    forall k | k in hs && !Closed(EntryOf(hs[k]).fact) && !Dispatched(hs[k]) ensures EntryOf(hs[k]).source !in sc.moved {
      UndispatchedIsHome(sc, k);
    }
    forall e | e in sc.log ensures e.key in hs && DispatchOf(e) in Facts(hs[e.key]) {
      NonEmptyAt(hs, e.key);
      RecordedIsFact(hs[e.key], DispatchOf(e));
    }
  }

  lemma DispatchRecorded(c: Codec, h: seq<Frame>)
    requires ValidHistory(c, h) && !Closed(EntryOf(h).fact)
    ensures Dispatched(h) <==> PastDispatch(EntryOf(h).fact)
  {
    BookedPath(c, h);
    DispatchShows(EntryOf(h).destination, Facts(h));
  }

  lemma InvParts(sc: Scene)
    requires Inv(sc)
    ensures forall k :: k in sc.book ==> Permits(sc.book[k].fact, At(sc, k))
    ensures Once(sc.log) && forall e :: e in sc.log ==> e.key in sc.book && Recorded(sc.book[e.key], DispatchOf(e))
    ensures forall k :: k in sc.book && Closed(sc.book[k].fact) ==> MetadataSays(sc.book[k].fact, k in sc.info)
  {
    assert Located(sc) && Logged(sc) && MetadataTruthful(sc);
    hide Inv, Allowed, Closed, Recorded, DispatchOf, At;
  }

  // ----- nothing asked is refused -----

  /** The client's next call of the ledger reports no error. */
  ghost predicate Granted(c: Codec, w: World, i: nat, weather: Weather)
    requires NonEmpty(w.ledger.hs) && i in w.scene.clients
  {
    RequestOf(w, i).Some? && AbstractStep(c, w.ledger, RequestOf(w, i).value, weather).1.error.None?
  }

  lemma GrantedMeans(c: Codec, w: World, i: nat, weather: Weather)
    requires NonEmpty(w.ledger.hs) && i in w.scene.clients && Asks(w.scene.clients[i]).AskTransition?
    ensures RequestOf(w, i).Some?
    ensures Granted(c, w, i, weather) <==>
              AbstractStep(c, w.ledger, Advance(Asks(w.scene.clients[i]).key, Asks(w.scene.clients[i]).fact), weather).1.error.None?
  {
    hide NonEmpty, AbstractStep, Asks;
  }

  /** The frames of every recovery fit the size bound. */
  ghost predicate AllRoomy(c: Codec, hs: Ledger)
    requires NonEmpty(hs)
  {
    forall k :: k in hs ==> Roomy(c, hs[k][0].binding)
  }

  lemma RoomyAt(c: Codec, hs: Ledger, k: Key)
    requires NonEmpty(hs) && AllRoomy(c, hs) && k in hs
    ensures Roomy(c, hs[k][0].binding)
  {
  }

  /** A readable ledger with room, and a publication that succeeds. */
  ghost predicate Clear(c: Codec, st: State, weather: Weather)
    requires NonEmpty(st.hs)
  {
    !st.torn && Size(c, st.hs) < MAXIMUM_RECORDS && weather == Weather(None, Created(None))
  }

  lemma AdvancePlanned(c: Codec, st: State, k: Key, t: Fact, weather: Weather, f: Frame)
    requires NonEmpty(st.hs) && Clear(c, st, weather) && IsV2(st.hs, k)
    requires ValidId(RecordId(k.digest, k.token, 0)) && Append(c, st.hs[k], t) == Success(f) && EncodeFrame(c, f).Success?
    ensures AbstractPlan(c, st, Advance(k, t), weather) == Success(Draft(f, EncodeFrame(c, f).value))
  {
    hide NonEmpty, Append, EncodeFrame, Size, ValidId;
  }

  lemma PlannedSucceeds(c: Codec, st: State, q: Request, weather: Weather, d: Draft)
    requires NonEmpty(st.hs) && Clear(c, st, weather) && AbstractPlan(c, st, q, weather) == Success(d) && Kept(st.hs, IdOf(d.frame)).None?
    ensures AbstractStep(c, st, q, weather).1.error.None?
  {
    hide NonEmpty, AbstractPlan, Size, Kept, AddFrame;
  }

  /** A transition the graph allows, on a history with room, succeeds. */
  lemma LegalSucceeds(c: Codec, st: State, k: Key, t: Fact, weather: Weather)
    requires WellFormed(c, st.hs) && NonEmpty(st.hs) && Clear(c, st, weather)
    requires IsV2(st.hs, k) && Roomy(c, st.hs[k][0].binding) && |st.hs[k]| <= MAXIMUM_ORDINAL && Legal(EntryOf(st.hs[k]).destination, EntryOf(st.hs[k]).fact, t)
    ensures AbstractStep(c, st, Advance(k, t), weather).1.error.None?
  {
    var h := st.hs[k];
    NonEmptyAt(st.hs, k);
    assert h[0].schema == SCHEMA_V2;
    assert EntryOf(h).destination == h[0].binding.destination && EntryOf(h).fact == h[|h| - 1].fact;
    hide *;
    HistoryOf(c, st.hs, k);
    KeyIsValid(c, h);
    LegalStepAppends(c, h, t);
    var f := Append(c, h, t).value;
    AppendedEncodes(c, h, f);
    AppendedId(c, h, t, f);
    NextIsFree(st.hs, k);
    AdvancePlanned(c, st, k, t, weather, f);
    PlannedSucceeds(c, st, Advance(k, t), weather, Draft(f, EncodeFrame(c, f).value));
  }

  lemma NextIsFree(hs: Ledger, k: Key)
    requires NonEmpty(hs) && k in hs
    ensures |hs[k]| > 0
    ensures KeyOf(hs[k][0].binding) == k ==> Kept(hs, RecordId(hs[k][0].binding.digest, hs[k][0].binding.token, |hs[k]|)).None?
  {
  }

  lemma KeyIsValid(c: Codec, h: seq<Frame>)
    requires ValidHistory(c, h)
    ensures ValidId(RecordId(KeyOf(h[0].binding).digest, KeyOf(h[0].binding).token, 0))
  {
    HistoryFacts(c, h);
  }

  lemma AppendedEncodes(c: Codec, h: seq<Frame>, f: Frame)
    requires ValidHistory(c, h + [f])
    ensures EncodeFrame(c, f).Success?
  {
    HistoryFacts(c, h + [f]);
  }

  lemma AppendedId(c: Codec, h: seq<Frame>, t: Fact, f: Frame)
    requires ValidHistory(c, h) && Append(c, h, t) == Success(f)
    ensures IdOf(f) == RecordId(h[0].binding.digest, h[0].binding.token, |h|)
  {
    ReplayAccepts(c, h);
    HistoryFacts(c, h);
  }

  lemma OwnFactIsShort(c: Codec, h: seq<Frame>, p: Phase)
    requires ValidHistory(c, h) && Owns(p) && EntryOf(h).fact == OwnFact(p)
    ensures |h| <= 5 <= MAXIMUM_ORDINAL
  {
    BookedPath(c, h);
    ShortPath(EntryOf(h).destination, Facts(h));
  }

  lemma OwnerServed(c: Codec, st: State, p: Phase, k: Key, t: Fact, weather: Weather)
    requires WellFormed(c, st.hs) && NonEmpty(st.hs) && AllRoomy(c, st.hs) && Clear(c, st, weather)
    requires k in st.hs && IsV2(st.hs, k) && Owns(p) && EntryOf(st.hs[k]).fact == OwnFact(p)
    requires Legal(EntryOf(st.hs[k]).destination, EntryOf(st.hs[k]).fact, t)
    ensures AbstractStep(c, st, Advance(k, t), weather).1.error.None?
  {
    hide *;
    HistoryOf(c, st.hs, k);
    OwnFactIsShort(c, st.hs[k], p);
    RoomyAt(c, st.hs, k);
    LegalSucceeds(c, st, k, t, weather);
  }

  /** In a clear ledger no move or retain client is refused any transition after its reservation. */
  lemma OwnersAreServed(c: Codec, w: World, i: nat, weather: Weather)
    requires Safe(c, w) && NonEmpty(w.ledger.hs) && AllRoomy(c, w.ledger.hs) && i in w.scene.clients
    requires Owns(w.scene.clients[i].phase) && Asks(w.scene.clients[i]).AskTransition?
    ensures NonEmpty(w.ledger.hs) && RequestOf(w, i).Some?
    ensures Clear(c, w.ledger, weather) ==> Granted(c, w, i, weather)
  {
    var cl := w.scene.clients[i];
    var k := Asks(cl).key;
    hide *;
    GrantedMeans(c, w, i, weather);
    SafeParts(c, w);
    InvPhase(w.scene, i);
    OwnerAllowed(w.scene, cl);
    OwnFactHeld(w.scene, cl);
    OwnerIsV2(w.ledger.hs, w.scene.clients, i);
    BookEntry(w.ledger.hs, k);
    if Clear(c, w.ledger, weather) { OwnerServed(c, w.ledger, cl.phase, k, Asks(cl).fact, weather); }
  }

  lemma OwnerIsV2(hs: Ledger, clients: map<nat, Client>, i: nat)
    requires NonEmpty(hs) && OwnersV2(hs, clients) && i in clients && Owns(clients[i].phase)
    ensures IsV2(hs, clients[i].phase.key) && clients[i].phase.key in hs
  {
  }

  lemma InvPhase(sc: Scene, i: nat)
    requires Inv(sc) && i in sc.clients
    ensures PhaseHolds(sc, sc.clients[i])
  {
  }

  lemma OwnFactHeld(sc: Scene, cl: Client)
    requires PhaseHolds(sc, cl) && Owns(cl.phase)
    ensures cl.phase.key in sc.book && sc.book[cl.phase.key].fact == OwnFact(cl.phase)
    ensures Asks(cl).AskTransition? ==> Asks(cl).key == cl.phase.key
  {
  }

  /** A client asking for a transition of an indeterminate recovery. */
  ghost predicate Awaits(w: World, i: nat, k: Key, t: Fact) {
    && i in w.scene.clients && k in w.scene.book
    && Asks(w.scene.clients[i]).AskTransition? && Asks(w.scene.clients[i]).key == k && Asks(w.scene.clients[i]).fact == t
  }

  ghost predicate NextAllowed(w: World, k: Key, t: Fact) {
    k in w.scene.book && Legal(w.scene.book[k].destination, w.scene.book[k].fact, t)
  }

  /** Its request is granted exactly if the graph allows it and the schema is current. */
  lemma ResolverServed(c: Codec, w: World, i: nat, k: Key, t: Fact, weather: Weather)
    requires Safe(c, w) && NonEmpty(w.ledger.hs) && AllRoomy(c, w.ledger.hs) && Awaits(w, i, k, t)
    requires NextAllowed(w, k, t) ==> MetadataIsIndeterminate(w.scene, k) || MoveIsIndeterminate(w.scene, k)
    ensures RequestOf(w, i).Some?
    ensures Clear(c, w.ledger, weather) ==> (Granted(c, w, i, weather) <==> NextAllowed(w, k, t) && IsV2(w.ledger.hs, k))
  {
    hide RequestOf, Safe, NonEmpty, AllRoomy, Asks, Legal, Clear, Granted, IsV2, AbstractStep, BookOf, EntryOf, WellFormed, Inv, Started, OwnersV2;
    GrantedMeans(c, w, i, weather);
    SafeParts(c, w);
    BookKey(w.ledger.hs, k);
    BookEntry(w.ledger.hs, k);
    if Clear(c, w.ledger, weather) { ServedIfLegal(c, w.ledger, k, t, weather); }
  }

  lemma MetadataResolverAsks(w: World, i: nat)
    requires i in w.scene.clients && w.scene.clients[i].phase.MetadataResolve? && PhaseHolds(w.scene, w.scene.clients[i])
    ensures var p := w.scene.clients[i].phase;
            && Awaits(w, i, p.key, Fact(ReconciliationResolved, NotApplied, p.metadata))
            && (NextAllowed(w, p.key, Fact(ReconciliationResolved, NotApplied, p.metadata)) <==> MetadataIsIndeterminate(w.scene, p.key))
  {
    MetadataReconcilerAllowed(w.scene, w.scene.clients[i]);
    hide PhaseHolds, Legal, MetadataIsIndeterminate;
  }

  lemma MoveResolverAsks(w: World, i: nat)
    requires i in w.scene.clients && w.scene.clients[i].phase.MoveResolve? && PhaseHolds(w.scene, w.scene.clients[i])
    ensures var p := w.scene.clients[i].phase;
            && Awaits(w, i, p.key, Fact(ReconciliationResolved, OutcomeMoveVerified, NoMetadata))
            && (NextAllowed(w, p.key, Fact(ReconciliationResolved, OutcomeMoveVerified, NoMetadata)) <==> MoveIsIndeterminate(w.scene, p.key))
  {
    MoveReconcilerAllowed(w.scene, w.scene.clients[i]);
    hide PhaseHolds, Legal, MoveIsIndeterminate;
  }

  /** It checked for a layout binding when it reloaded, which only histories of the current schema carry. */
  lemma ResolverBound(c: Codec, w: World, i: nat)
    requires Safe(c, w) && NonEmpty(w.ledger.hs) && i in w.scene.clients
    requires w.scene.clients[i].phase.MetadataResolve? || w.scene.clients[i].phase.MoveResolve?
    ensures IsV2(w.ledger.hs, w.scene.clients[i].phase.key)
  {
    hide Safe, PhaseHolds, WellFormed, Inv, Started, OwnersV2, BookOf, EntryOf, NonEmpty;
    var k := w.scene.clients[i].phase.key;
    SafeParts(c, w);
    InvPhase(w.scene, i);
    ResolvesBound(w.scene, w.scene.clients[i]);
    BookKey(w.ledger.hs, k);
    BookEntry(w.ledger.hs, k);
    HistoryOf(c, w.ledger.hs, k);
    BoundIsV2(c, w.ledger.hs[k]);
  }

  lemma ResolvesBound(sc: Scene, cl: Client)
    requires PhaseHolds(sc, cl) && (cl.phase.MetadataResolve? || cl.phase.MoveResolve?)
    ensures cl.phase.key in sc.book && sc.book[cl.phase.key].bound
  {
  }

  lemma BoundIsV2(c: Codec, h: seq<Frame>)
    requires ValidHistory(c, h) && EntryOf(h).bound
    ensures h[0].schema == SCHEMA_V2
  {
    HistoryFacts(c, h);
  }

  /** A metadata reconciler ready to resolve is served exactly if the recovery is still metadata-indeterminate. */
  lemma MetadataReconcilerServed(c: Codec, w: World, i: nat, weather: Weather)
    requires Safe(c, w) && NonEmpty(w.ledger.hs) && AllRoomy(c, w.ledger.hs) && i in w.scene.clients && w.scene.clients[i].phase.MetadataResolve?
    ensures RequestOf(w, i).Some?
    ensures var k := w.scene.clients[i].phase.key;
            Clear(c, w.ledger, weather) ==> (Granted(c, w, i, weather) <==> MetadataIsIndeterminate(w.scene, k))
  {
    var p := w.scene.clients[i].phase;
    hide *;
    SafeParts(c, w);
    InvPhase(w.scene, i);
    MetadataResolverAsks(w, i);
    ResolverBound(c, w, i);
    ResolverServed(c, w, i, p.key, Fact(ReconciliationResolved, NotApplied, p.metadata), weather);
  }

  /** A move reconciler ready to resolve is served exactly if the recovery is still move-indeterminate. */
  lemma MoveReconcilerServed(c: Codec, w: World, i: nat, weather: Weather)
    requires Safe(c, w) && NonEmpty(w.ledger.hs) && AllRoomy(c, w.ledger.hs) && i in w.scene.clients && w.scene.clients[i].phase.MoveResolve?
    ensures RequestOf(w, i).Some?
    ensures var k := w.scene.clients[i].phase.key;
            Clear(c, w.ledger, weather) ==> (Granted(c, w, i, weather) <==> MoveIsIndeterminate(w.scene, k))
  {
    var p := w.scene.clients[i].phase;
    hide *;
    SafeParts(c, w);
    InvPhase(w.scene, i);
    MoveResolverAsks(w, i);
    ResolverBound(c, w, i);
    ResolverServed(c, w, i, p.key, Fact(ReconciliationResolved, OutcomeMoveVerified, NoMetadata), weather);
  }

  /** On an indeterminate recovery a transition succeeds if and only if the graph allows it and the schema is current. */
  lemma ServedIfLegal(c: Codec, st: State, k: Key, t: Fact, weather: Weather)
    requires WellFormed(c, st.hs) && NonEmpty(st.hs) && AllRoomy(c, st.hs) && Clear(c, st, weather) && k in st.hs
    ensures var e := EntryOf(st.hs[k]); var served := AbstractStep(c, st, Advance(k, t), weather).1.error.None?;
            && (!Legal(e.destination, e.fact, t) || !IsV2(st.hs, k) ==> !served)
            && (e.fact == Ordinary(MetadataIndeterminate) || e.fact == Ordinary(MoveIndeterminate) ==>
                  (served <==> Legal(e.destination, e.fact, t) && IsV2(st.hs, k)))
  {
    hide *;
    HistoryOf(c, st.hs, k);
    var e := EntryOf(st.hs[k]);
    if !Legal(e.destination, e.fact, t) {
      IllegalFails(c, st, k, t, weather);
    } else if !IsV2(st.hs, k) {
      OldSchemaFails(c, st, k, t, weather);
    } else if e.fact == Ordinary(MetadataIndeterminate) || e.fact == Ordinary(MoveIndeterminate) {
      IndeterminateIsShort(c, st.hs[k]);
      RoomyAt(c, st.hs, k);
      LegalSucceeds(c, st, k, t, weather);
    }
  }

  /** A history of the old schema takes no transition. */
  lemma OldSchemaFails(c: Codec, st: State, k: Key, t: Fact, weather: Weather)
    requires WellFormed(c, st.hs) && NonEmpty(st.hs) && k in st.hs && !IsV2(st.hs, k)
    ensures AbstractStep(c, st, Advance(k, t), weather).1.error.Some?
  {
    hide WellFormed, NonEmpty, AbstractStep, ValidHistory, EncodeFrame, OpenFrames, SourceOpen;
    var f := AbstractAnswers(c, st, Advance(k, t), weather);
  }

  lemma IndeterminateIsShort(c: Codec, h: seq<Frame>)
    requires ValidHistory(c, h) && (EntryOf(h).fact == Ordinary(MetadataIndeterminate) || EntryOf(h).fact == Ordinary(MoveIndeterminate))
    ensures |h| <= 5 <= MAXIMUM_ORDINAL
  {
    BookedPath(c, h);
    ShortPath(EntryOf(h).destination, Facts(h));
  }

  lemma IllegalFails(c: Codec, st: State, k: Key, t: Fact, weather: Weather)
    requires WellFormed(c, st.hs) && NonEmpty(st.hs) && k in st.hs
    requires !Legal(EntryOf(st.hs[k]).destination, EntryOf(st.hs[k]).fact, t)
    ensures AbstractStep(c, st, Advance(k, t), weather).1.error.Some?
  {
    hide WellFormed, NonEmpty, Legal, BookOf, AbstractStep, GrewBy, EntryOf;
    var f := AbstractAnswers(c, st, Advance(k, t), weather);
    if f.Some? { GrowthIsLegal(c, st.hs, Advance(k, t), AbstractStep(c, st, Advance(k, t), weather).0.hs, f.value); }
  }
}
