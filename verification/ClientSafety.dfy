/** Every step of every client keeps the invariant of the scene, whatever the ledger and the surroundings do. */
module ClientSafety {
  import opened RecoveryGraph
  import opened RecordName
  import opened Clients

  // ----- steps that call the ledger -----

  /** Client i calls the ledger. */
  predicate Calling(sc: Scene, i: nat, after: Book, ok: bool) {
    i in sc.clients && !Asks(sc.clients[i]).NoAsk? && Answered(sc, sc.clients[i], after, ok)
  }

  predicate Permits(f: Fact, at: bool) {
    match Allowed(f)
    case AtSource => !at
    case AtDestination => at
    case AtEither => true
    case Unknown => false
  }

  /** One entry of the book changes. */
  function Books(sc: Scene, k: Key, e: Entry): Scene {
    sc.(book := sc.book[k := e])
  }

  lemma LocatedAfter(sc: Scene, k: Key, e: Entry)
    requires Located(sc) && (k in sc.book ==> e.source == sc.book[k].source) && Permits(e.fact, k in sc.book && At(sc, k))
    ensures Located(Books(sc, k, e))
  {
    hide Allowed;
  }

  lemma LocatedFrame(sc: Scene, t: Scene)
    requires Located(sc) && t.book == sc.book && t.moved == sc.moved
    ensures Located(t)
  {
    hide Allowed;
  }

  lemma CallLocated(sc: Scene, i: nat, after: Book, ok: bool)
    requires Inv(sc) && Calling(sc, i, after, ok)
    ensures Located(Calls(sc, i, after, ok))
  {
    var cl := sc.clients[i];
    assert PhaseHolds(sc, cl) && Located(sc);
    if Asks(cl).AskTransition? { AskedFact(sc, cl); }
    hide Inv, PhaseHolds, Asks, Located, SourceInUse, Legal;
    if after == sc.book {
      LocatedFrame(sc, Calls(sc, i, after, ok));
    } else {
      var k := Asks(cl).key;
      LocatedAfter(sc, k, after[k]);
      LocatedFrame(Books(sc, k, after[k]), Calls(sc, i, after, ok));
    }
  }

  /** What is asked is right for where the content is. */
  lemma AskedFact(sc: Scene, cl: Client)
    requires Inv(sc) && PhaseHolds(sc, cl) && Asks(cl).AskTransition?
    ensures var (k, t) := (Asks(cl).key, Asks(cl).fact);
            k in sc.book && Permits(t, At(sc, k))
  {
    hide OneOpen, Logged, OwnersDiffer, MetadataTruthful, SourceInUse;
  }

  lemma CallOneOpen(sc: Scene, i: nat, after: Book, ok: bool)
    requires Inv(sc) && Calling(sc, i, after, ok)
    ensures OneOpen(after)
  {
  }

  lemma CallLogged(sc: Scene, i: nat, after: Book, ok: bool)
    requires Inv(sc) && Calling(sc, i, after, ok)
    ensures Logged(Calls(sc, i, after, ok))
  {
  }

  lemma CallOwners(sc: Scene, i: nat, after: Book, ok: bool)
    requires Inv(sc) && Calling(sc, i, after, ok)
    ensures OwnersDiffer(Calls(sc, i, after, ok).clients)
  {
  }

  predicate MetadataSays(f: Fact, present: bool) {
    match f.metadata
    case Absent => !present
    case Retained => present
    case _ => true
  }

  lemma TruthfulAfter(sc: Scene, k: Key, e: Entry)
    requires MetadataTruthful(sc) && MetadataSays(e.fact, k in sc.info)
    ensures MetadataTruthful(Books(sc, k, e))
  {
    hide Closed;
  }

  lemma TruthfulFrame(sc: Scene, t: Scene)
    requires MetadataTruthful(sc) && t.book == sc.book && t.info == sc.info
    ensures MetadataTruthful(t)
  {
    hide Closed;
  }

  lemma CallMetadata(sc: Scene, i: nat, after: Book, ok: bool)
    requires Inv(sc) && Calling(sc, i, after, ok)
    ensures MetadataTruthful(Calls(sc, i, after, ok))
  {
    var cl := sc.clients[i];
    assert PhaseHolds(sc, cl) && MetadataTruthful(sc);
    if Asks(cl).AskTransition? { AskedMetadata(sc, cl); }
    hide Inv, PhaseHolds, Asks, SourceInUse, Legal, MetadataTruthful;
    if after == sc.book {
      TruthfulFrame(sc, Calls(sc, i, after, ok));
    } else {
      var k := Asks(cl).key;
      TruthfulAfter(sc, k, after[k]);
      TruthfulFrame(Books(sc, k, after[k]), Calls(sc, i, after, ok));
    }
  }

  lemma AskedMetadata(sc: Scene, cl: Client)
    requires PhaseHolds(sc, cl) && Asks(cl).AskTransition?
    ensures MetadataSays(Asks(cl).fact, Asks(cl).key in sc.info)
  {
  }

  lemma ReservedPhase(sc: Scene, k: Key, s: Source, destination: Destination)
    requires Located(sc) && Logged(sc) && k !in sc.book && Recoverable(destination)
    ensures PhaseHolds(Books(sc, k, Reservation(s, destination)), Client(destination, Reserved(k)))
  {
  }

  lemma NextPhase(sc: Scene, cl: Client)
    requires PhaseHolds(sc, cl) && Asks(cl).AskTransition? && Asks(cl).key in sc.book
    ensures var k := Asks(cl).key;
            PhaseHolds(Books(sc, k, Follow(sc.book[k], Asks(cl).fact)), cl.(phase := Asks(cl).next))
  {
  }

  /** The caller's own phase. */
  lemma CallOwnPhase(sc: Scene, i: nat, after: Book, ok: bool)
    requires Inv(sc) && Calling(sc, i, after, ok)
    ensures PhaseHolds(Calls(sc, i, after, ok), Calls(sc, i, after, ok).clients[i])
  {
    var cl := sc.clients[i];
    assert PhaseHolds(sc, cl) && Located(sc) && Logged(sc);
    hide Inv, Located, Logged, SourceInUse, Legal;
    if ok {
      match Asks(cl)
      case AskReserve(k, s) =>
        ReservedPhase(sc, k, s, cl.destination);
        hide PhaseHolds, Asks;
        PhaseFrame(Books(sc, k, after[k]), Calls(sc, i, after, ok), cl.(phase := Reserved(k)));
      case AskTransition(k, t, p) =>
        NextPhase(sc, cl);
        hide PhaseHolds, Asks;
        PhaseFrame(Books(sc, k, after[k]), Calls(sc, i, after, ok), cl.(phase := p));
    }
  }

  /** A phase looks at one key of the book. */
  lemma OtherKeyPhase(sc: Scene, cl: Client, k: Key, e: Entry)
    requires PhaseHolds(sc, cl) && (HasKey(cl.phase) ==> cl.phase.key != k)
    ensures PhaseHolds(Books(sc, k, e), cl)
  {
  }

  predicate HasKey(p: Phase) {
    !p.Begin? && !p.Stopped? && !p.MetadataReload? && !p.MoveReload?
  }

  /** Of two clients at work on one recovery one at least is a reconciler, and it does not mind what the other asks. */
  lemma SameKeyPhase(sc: Scene, cl: Client, other: Client, t: Fact)
    requires Located(sc) && PhaseHolds(sc, cl) && PhaseHolds(sc, other) && HasKey(cl.phase)
    requires Asks(other).AskTransition? && Asks(other).key == cl.phase.key && Asks(other).fact == t
    requires !(Owns(cl.phase) && Owns(other.phase))
    requires cl.phase.key in sc.book && Legal(sc.book[cl.phase.key].destination, sc.book[cl.phase.key].fact, t)
    ensures PhaseHolds(Books(sc, cl.phase.key, Follow(sc.book[cl.phase.key], t)), cl)
  {
    var k := cl.phase.key;
    if !Owns(other.phase) { OwnerUndisturbed(sc, cl, other); }
  }

  /** No reconciler asks for anything while the owner of the recovery is at work on it. */
  lemma OwnerUndisturbed(sc: Scene, cl: Client, other: Client)
    requires Located(sc) && PhaseHolds(sc, cl) && PhaseHolds(sc, other)
    requires !Owns(other.phase) && Asks(other).AskTransition?
    ensures !(Owns(cl.phase) && cl.phase.key == Asks(other).key)
  {
  }

  /** Everybody else's. */
  lemma CallOtherPhase(sc: Scene, i: nat, after: Book, ok: bool, j: nat)
    requires Inv(sc) && Calling(sc, i, after, ok) && j in sc.clients && j != i
    ensures PhaseHolds(Calls(sc, i, after, ok), sc.clients[j])
  {
    var cl, other := sc.clients[j], sc.clients[i];
    assert PhaseHolds(sc, other) && PhaseHolds(sc, cl) && Located(sc) && OwnersDiffer(sc.clients);
    AskedKeys(other);
    hide Inv, PhaseHolds, Asks, SourceInUse, Legal, Located;
    if after == sc.book {
      PhaseFrame(sc, Calls(sc, i, after, ok), cl);
    } else {
      var k := Asks(other).key;
      if HasKey(cl.phase) && cl.phase.key == k && Asks(other).AskTransition? {
        SameKeyPhase(sc, cl, other, Asks(other).fact);
      } else {
        if HasKey(cl.phase) && cl.phase.key == k { PhaseKeyInBook(sc, cl); }
        OtherKeyPhase(sc, cl, k, after[k]);
      }
      PhaseFrame(Books(sc, k, after[k]), Calls(sc, i, after, ok), cl);
    }
  }

  lemma AskedKeys(cl: Client)
    ensures Owns(cl.phase) && Asks(cl).AskTransition? ==> Asks(cl).key == cl.phase.key
  {
  }

  lemma PhaseKeyInBook(sc: Scene, cl: Client)
    requires PhaseHolds(sc, cl) && HasKey(cl.phase)
    ensures cl.phase.key in sc.book
  {
  }

  // ----- steps that do not -----

  lemma ActLocated(sc: Scene, i: nat, ch: Choice)
    requires Inv(sc) && i in sc.clients
    ensures Located(Acts(sc, i, ch))
  {
    if sc.clients[i].phase.Renaming? {
      RenameLocated(sc, i, ch);
    } else {
      ActMovesNothing(sc, i, ch);
      LocatedFrame(sc, Acts(sc, i, ch));
    }
  }

  lemma ActMovesNothing(sc: Scene, i: nat, ch: Choice)
    requires i in sc.clients && !sc.clients[i].phase.Renaming?
    ensures Acts(sc, i, ch).moved == sc.moved && Acts(sc, i, ch).book == sc.book
  {
    hide ProbeHolds, MetadataIsIndeterminate, MoveIsIndeterminate;
  }

  lemma RenameLocated(sc: Scene, i: nat, ch: Choice)
    requires Inv(sc) && i in sc.clients && sc.clients[i].phase.Renaming?
    ensures Located(Acts(sc, i, ch))
  {
    assert PhaseHolds(sc, sc.clients[i]);
    hide OneOpen, Logged, OwnersDiffer, MetadataTruthful;
  }

  lemma ActLogged(sc: Scene, i: nat, ch: Choice)
    requires Inv(sc) && i in sc.clients
    ensures Logged(Acts(sc, i, ch))
  {
    hide Located, OneOpen, OwnersDiffer, MetadataTruthful, ProbeHolds, Applies, Report, MetadataIsIndeterminate, MoveIsIndeterminate, Closed;
    assert PhaseHolds(sc, sc.clients[i]);
  }

  lemma ActMetadata(sc: Scene, i: nat, ch: Choice)
    requires Inv(sc) && i in sc.clients
    ensures MetadataTruthful(Acts(sc, i, ch))
  {
  }

  lemma ActKeepsKey(sc: Scene, i: nat, ch: Choice)
    requires i in sc.clients && Owns(Acts(sc, i, ch).clients[i].phase)
    ensures Owns(sc.clients[i].phase) && Acts(sc, i, ch).clients[i].phase.key == sc.clients[i].phase.key
  {
  }

  lemma ActKeepsOthers(sc: Scene, i: nat, ch: Choice)
    requires i in sc.clients
    ensures Acts(sc, i, ch).clients.Keys == sc.clients.Keys && Acts(sc, i, ch).book == sc.book
    ensures forall j :: j in sc.clients && j != i ==> Acts(sc, i, ch).clients[j] == sc.clients[j]
    ensures Acts(sc, i, ch).clients[i].destination == sc.clients[i].destination
    ensures !sc.clients[i].phase.Writing? && !sc.clients[i].phase.Renaming? ==> Acts(sc, i, ch).(clients := sc.clients) == sc
  {
    hide ProbeHolds, Applies, Report, MetadataIsIndeterminate, MoveIsIndeterminate;
  }

  lemma ActOwners(sc: Scene, i: nat, ch: Choice)
    requires Inv(sc) && i in sc.clients
    ensures OwnersDiffer(Acts(sc, i, ch).clients)
  {
    assert OwnersDiffer(sc.clients);
    ActKeepsOthers(sc, i, ch);
    if Owns(Acts(sc, i, ch).clients[i].phase) { ActKeepsKey(sc, i, ch); }
    hide Acts, Inv;
  }

  lemma ActOwnPhase(sc: Scene, i: nat, ch: Choice)
    requires Inv(sc) && i in sc.clients
    ensures i in Acts(sc, i, ch).clients && PhaseHolds(Acts(sc, i, ch), Acts(sc, i, ch).clients[i])
  {
    assert PhaseHolds(sc, sc.clients[i]);
    var p := sc.clients[i].phase;
    if p.Renaming? { RenameOwnPhase(sc, i, ch); }
    else if p.MoveProbe? { ProbeOwnPhase(sc, i, ch); }
    else if p.Writing? { WriteOwnPhase(sc, i, ch); }
    else { QuietOwnPhase(sc, i, ch); }
  }

  lemma QuietOwnPhase(sc: Scene, i: nat, ch: Choice)
    requires i in sc.clients && PhaseHolds(sc, sc.clients[i])
    requires var p := sc.clients[i].phase; !p.Renaming? && !p.MoveProbe? && !p.Writing?
    ensures i in Acts(sc, i, ch).clients && PhaseHolds(Acts(sc, i, ch), Acts(sc, i, ch).clients[i])
  {
  }

  lemma WriteOwnPhase(sc: Scene, i: nat, ch: Choice)
    requires i in sc.clients && PhaseHolds(sc, sc.clients[i]) && sc.clients[i].phase.Writing?
    ensures i in Acts(sc, i, ch).clients && PhaseHolds(Acts(sc, i, ch), Acts(sc, i, ch).clients[i])
  {
  }

  lemma RenameOwnPhase(sc: Scene, i: nat, ch: Choice)
    requires Inv(sc) && i in sc.clients && sc.clients[i].phase.Renaming?
    ensures i in Acts(sc, i, ch).clients && PhaseHolds(Acts(sc, i, ch), Acts(sc, i, ch).clients[i])
  {
    assert PhaseHolds(sc, sc.clients[i]);
    hide OneOpen, Logged, OwnersDiffer, MetadataTruthful;
  }

  lemma ProbeOwnPhase(sc: Scene, i: nat, ch: Choice)
    requires Inv(sc) && i in sc.clients && sc.clients[i].phase.MoveProbe?
    ensures i in Acts(sc, i, ch).clients && PhaseHolds(Acts(sc, i, ch), Acts(sc, i, ch).clients[i])
  {
    hide Located, OneOpen, Logged, OwnersDiffer, MetadataTruthful, Applies, Report;
    assert PhaseHolds(sc, sc.clients[i]);
  }

  /** A phase does not look at the other clients. */
  lemma PhaseFrame(sc: Scene, t: Scene, cl: Client)
    requires t == sc.(clients := t.clients) && PhaseHolds(sc, cl)
    ensures PhaseHolds(t, cl)
  {
  }

  lemma ActOtherPhase(sc: Scene, i: nat, ch: Choice, j: nat)
    requires Inv(sc) && i in sc.clients && j in sc.clients && j != i
    ensures PhaseHolds(Acts(sc, i, ch), sc.clients[j])
  {
    assert PhaseHolds(sc, sc.clients[j]);
    var p := sc.clients[i].phase;
    if p.Writing? { WriteOtherPhase(sc, i, ch, j); }
    else if p.Renaming? { RenameOtherPhase(sc, i, ch, j); }
    else {
      ActKeepsOthers(sc, i, ch);
      hide Acts, Inv, PhaseHolds;
      PhaseFrame(sc, Acts(sc, i, ch), sc.clients[j]);
    }
  }

  lemma WriteOtherPhase(sc: Scene, i: nat, ch: Choice, j: nat)
    requires Inv(sc) && i in sc.clients && j in sc.clients && j != i && sc.clients[i].phase.Writing?
    ensures PhaseHolds(Acts(sc, i, ch), sc.clients[j])
  {
    assert PhaseHolds(sc, sc.clients[i]) && PhaseHolds(sc, sc.clients[j]);
    hide Located, OneOpen, Logged, MetadataTruthful;
  }

  lemma RenameOtherPhase(sc: Scene, i: nat, ch: Choice, j: nat)
    requires Inv(sc) && i in sc.clients && j in sc.clients && j != i && sc.clients[i].phase.Renaming?
    ensures PhaseHolds(Acts(sc, i, ch), sc.clients[j])
  {
    var k := sc.clients[i].phase.key;
    assert PhaseHolds(sc, sc.clients[i]) && PhaseHolds(sc, sc.clients[j]);
    assert !(HasKey(sc.clients[j].phase) && sc.clients[j].phase.key == k);
    RenameEffect(sc, i, ch);
    hide Inv, Acts;
    RenamedElsewhere(sc, Acts(sc, i, ch), k, sc.clients[j]);
  }

  /** A rename changes where one recovery's content is, and only if it was at its source. */
  predicate MovedOnly(sc: Scene, t: Scene, k: Key) {
    && t.book == sc.book && t.info == sc.info && k in sc.book && t.log == sc.log + [Rename(k)]
    && (t.moved == sc.moved || (sc.book[k].source !in sc.moved && t.moved == sc.moved[sc.book[k].source := k]))
  }

  lemma RenameEffect(sc: Scene, i: nat, ch: Choice)
    requires i in sc.clients && sc.clients[i].phase.Renaming? && sc.clients[i].phase.key in sc.book
    ensures MovedOnly(sc, Acts(sc, i, ch), sc.clients[i].phase.key)
  {
    hide Report;
  }

  lemma RenamedElsewhere(sc: Scene, t: Scene, k: Key, cl: Client)
    requires MovedOnly(sc, t, k) && PhaseHolds(sc, cl) && !(HasKey(cl.phase) && cl.phase.key == k)
    ensures PhaseHolds(t, cl)
  {
    hide Closed, Stage, OwnFact;
    if HasKey(cl.phase) {
      assert At(t, cl.phase.key) <==> At(sc, cl.phase.key);
      assert Rename(cl.phase.key) in t.log ==> Rename(cl.phase.key) in sc.log;
      assert WriteMetadata(cl.phase.key) in t.log ==> WriteMetadata(cl.phase.key) in sc.log;
      hide At;
    }
  }

  // ----- the invariant is kept -----

  lemma CallKeeps(sc: Scene, i: nat, after: Book, ok: bool)
    requires Inv(sc) && Calling(sc, i, after, ok)
    ensures Inv(Calls(sc, i, after, ok))
  {
    CallLocated(sc, i, after, ok);
    CallOneOpen(sc, i, after, ok);
    CallLogged(sc, i, after, ok);
    CallOwners(sc, i, after, ok);
    CallMetadata(sc, i, after, ok);
    CallOwnPhase(sc, i, after, ok);
    var t := Calls(sc, i, after, ok);
    assert t.book == after && t.clients.Keys == sc.clients.Keys;
    hide Calling, Located, OneOpen, Logged, OwnersDiffer, MetadataTruthful, PhaseHolds;
    forall j | j in t.clients ensures PhaseHolds(t, t.clients[j]) {
      if j != i { CallOtherPhase(sc, i, after, ok, j); }
    }
  }

  lemma ActKeeps(sc: Scene, i: nat, ch: Choice)
    requires Inv(sc) && i in sc.clients
    ensures Inv(Acts(sc, i, ch))
  {
    ActLocated(sc, i, ch);
    ActLogged(sc, i, ch);
    ActOwners(sc, i, ch);
    ActMetadata(sc, i, ch);
    ActOwnPhase(sc, i, ch);
    ActKeepsOthers(sc, i, ch);
    assert OneOpen(sc.book);
    var t := Acts(sc, i, ch);
    hide Acts, Located, OneOpen, Logged, OwnersDiffer, MetadataTruthful, PhaseHolds, Inv;
    forall j | j in t.clients ensures PhaseHolds(t, t.clients[j]) {
      if j != i { ActOtherPhase(sc, i, ch, j); }
    }
    InvFrom(t);
  }

  lemma InvFrom(sc: Scene)
    requires Located(sc) && OneOpen(sc.book) && Logged(sc) && OwnersDiffer(sc.clients) && MetadataTruthful(sc)
    requires forall i :: i in sc.clients ==> PhaseHolds(sc, sc.clients[i])
    ensures Inv(sc)
  {
  }

  /** A client starts, or stops anywhere. */
  lemma StartStopKeeps(sc: Scene, i: nat, cl: Client)
    requires Inv(sc) && !HasKey(cl.phase)
    ensures Inv(sc.(clients := sc.clients[i := cl]))
  {
    var t := sc.(clients := sc.clients[i := cl]);
    LocatedFrame(sc, t);
    TruthfulFrame(sc, t);
    assert OwnersDiffer(t.clients);
    assert Logged(t);
    hide Located, OneOpen, Logged, OwnersDiffer, MetadataTruthful;
    forall j | j in t.clients ensures PhaseHolds(t, t.clients[j]) {
      if j != i { PhaseFrame(sc, t, sc.clients[j]); }
    }
  }

  // ----- what the invariant means -----

  /** Content is away from its source only under an open recovery whose move was dispatched; where no recovery of a
      source is open, its content is at the source. */
  lemma AwayMeansOpen(sc: Scene, s: Source)
    requires Inv(sc) && s in sc.moved
    ensures var k := sc.moved[s];
            k in sc.book && sc.book[k].source == s && !Closed(sc.book[k].fact) && PastDispatch(sc.book[k].fact)
    ensures SourceInUse(sc.book, s)
  {
    var k := sc.moved[s];
    assert At(sc, k);
    hide OneOpen, Logged, OwnersDiffer, MetadataTruthful, PhaseHolds;
  }

  /** While a recovery is open and its move not dispatched, the content of its source is there: nobody else took it. */
  lemma UndispatchedIsHome(sc: Scene, k: Key)
    requires Inv(sc) && k in sc.book && !Closed(sc.book[k].fact) && !PastDispatch(sc.book[k].fact)
    ensures sc.book[k].source !in sc.moved
  {
    var s := sc.book[k].source;
    assert OneOpen(sc.book);
    if s in sc.moved { AwayMeansOpen(sc, s); }
    hide Inv, Closed, PastDispatch;
  }

  /** An effect is called only while its dispatch is the current fact of its recovery, and had not been called before. */
  lemma EffectFollowsDispatch(sc: Scene, i: nat, ch: Choice)
    requires Inv(sc) && i in sc.clients && Acts(sc, i, ch).log != sc.log
    ensures exists e :: Acts(sc, i, ch).log == sc.log + [e] && e !in sc.log && e.key in sc.book && sc.book[e.key].fact == DispatchOf(e)
  {
    assert PhaseHolds(sc, sc.clients[i]);
    hide Located, OneOpen, Logged, OwnersDiffer, MetadataTruthful;
    var p := sc.clients[i].phase;
    if !p.Renaming? && !p.Writing? { ActKeepsOthers(sc, i, ch); }
    var e := if p.Writing? then WriteMetadata(p.key) else Rename(p.key);
    assert Acts(sc, i, ch).log == sc.log + [e];
  }

  /** The graph refuses no transition that the owner of a recovery asks for. */
  lemma OwnerAllowed(sc: Scene, cl: Client)
    requires PhaseHolds(sc, cl) && Owns(cl.phase) && Asks(cl).AskTransition?
    ensures var k := Asks(cl).key; k in sc.book && Legal(sc.book[k].destination, sc.book[k].fact, Asks(cl).fact)
  {
  }

  /** It refuses a reconciler exactly if the recovery is no longer indeterminate: another reconciler was faster. */
  lemma MetadataReconcilerAllowed(sc: Scene, cl: Client)
    requires PhaseHolds(sc, cl) && cl.phase.MetadataResolve?
    ensures var k := cl.phase.key;
            k in sc.book && (Legal(sc.book[k].destination, sc.book[k].fact, Asks(cl).fact) <==> MetadataIsIndeterminate(sc, k))
  {
  }

  lemma MoveReconcilerAllowed(sc: Scene, cl: Client)
    requires PhaseHolds(sc, cl) && cl.phase.MoveResolve?
    ensures var k := cl.phase.key;
            k in sc.book && (Legal(sc.book[k].destination, sc.book[k].fact, Asks(cl).fact) <==> MoveIsIndeterminate(sc, k))
  {
  }

  /** While the owner is at work nothing but its own calls changes its recovery. */
  lemma OwnerAlone(sc: Scene, i: nat, j: nat, after: Book, ok: bool)
    requires Inv(sc) && i in sc.clients && Owns(sc.clients[i].phase) && j != i && Calling(sc, j, after, ok)
    ensures var k := sc.clients[i].phase.key; k in sc.book && k in after && after[k] == sc.book[k]
  {
    var cl, other := sc.clients[i], sc.clients[j];
    assert PhaseHolds(sc, cl) && PhaseHolds(sc, other) && Located(sc) && OwnersDiffer(sc.clients);
    AskedKeys(other);
    if !Owns(other.phase) && Asks(other).AskTransition? { OwnerUndisturbed(sc, cl, other); }
    hide Inv, Located, Asks, Legal, SourceInUse;
  }
}
