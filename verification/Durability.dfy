/** What survives a power loss: everything up to the last confirmed publication, and any part of what came after it. */
module Durability {
  import opened RecoveryGraph
  import opened RecordName
  import opened RecoveryChain
  import opened LedgerInventory
  import opened Books
  import opened Clients
  import opened ClientSafety

  /** Every history of hs is one of after, or the beginning of one. */
  ghost predicate Extends(hs: Ledger, after: Ledger) {
    forall k :: k in hs ==> k in after && hs[k] <= after[k]
  }

  /** How many frames of a history a power loss may leave. */
  predicate Cut(durable: Ledger, hs: Ledger, k: Key, n: nat) {
    k in hs && 0 < n <= |hs[k]| && (k in durable ==> |durable[k]| <= n)
  }

  /** Whatever part of the unconfirmed frames is lost, the rest still tells the truth: where contents are, which effects
      were dispatched, and what a client at work knows. */
  ghost predicate Backed(durable: Ledger, hs: Ledger, sc: Scene) {
    && Extends(durable, hs) && NonEmpty(durable)
    && (forall k, n :: Cut(durable, hs, k, n) ==> Permits(hs[k][n - 1].fact, At(sc, k)))
    && (forall s :: s in sc.moved ==> sc.moved[s] in durable)
    && (forall e :: e in sc.log ==> e.key in durable && DispatchOf(e) in Facts(durable[e.key]))
    && (forall i :: i in sc.clients && Owns(sc.clients[i].phase) ==> OwnDurable(durable, hs, sc.clients[i].phase.key))
  }

  lemma BackedParts(durable: Ledger, hs: Ledger, sc: Scene)
    requires Backed(durable, hs, sc)
    ensures Extends(durable, hs) && NonEmpty(durable)
  {
  }

  predicate OwnDurable(durable: Ledger, hs: Ledger, k: Key) {
    k in durable && k in hs && durable[k] == hs[k]
  }

  /** One history has one frame more, or is new. */
  ghost predicate OneMore(hs: Ledger, after: Ledger, k: Key) {
    && Extends(hs, after) && k in after
    && (forall l :: l in after && l != k ==> l in hs && after[l] == hs[l])
    && |after[k]| == (if k in hs then |hs[k]| + 1 else 1)
  }

  // ----- nothing is in doubt -----

  lemma AllConfirmed(hs: Ledger, sc: Scene)
    requires NonEmpty(hs) && sc.book == BookOf(hs) && Inv(sc)
    ensures Backed(hs, hs, sc)
  {
    hide BookOf, Inv, EntryOf, PhaseHolds, Allowed, Recorded, DispatchOf, Closed;
    InvTruths(sc);
    forall k ensures k in sc.book <==> k in hs { BookKey(hs, k); }
    forall k | k in hs ensures sc.book[k] == EntryOf(hs[k]) { BookEntry(hs, k); }
    forall k, n | Cut(hs, hs, k, n) ensures Permits(hs[k][n - 1].fact, At(sc, k)) { LastFact(hs[k]); }
    forall e | e in sc.log ensures e.key in hs && DispatchOf(e) in Facts(hs[e.key]) {
      NonEmptyAt(hs, e.key);
      RecordedIsFact(hs[e.key], DispatchOf(e));
    }
  }

  lemma LastFact(h: seq<Frame>)
    requires |h| > 0
    ensures EntryOf(h).fact == h[|h| - 1].fact && |EntryOf(h).past| == |h| - 1
  {
  }

  lemma InvTruths(sc: Scene)
    requires Inv(sc)
    ensures forall k :: k in sc.book ==> Permits(sc.book[k].fact, At(sc, k))
    ensures forall s :: s in sc.moved ==> sc.moved[s] in sc.book && sc.book[sc.moved[s]].source == s
    ensures forall e :: e in sc.log ==> e.key in sc.book && Recorded(sc.book[e.key], DispatchOf(e))
    ensures forall i :: i in sc.clients && Owns(sc.clients[i].phase) ==> sc.clients[i].phase.key in sc.book
    ensures Once(sc.log)
  {
    hide Allowed, OneOpen, OwnersDiffer, MetadataTruthful, Recorded, DispatchOf, Closed;
    assert Located(sc) && Logged(sc);
    forall i | i in sc.clients && Owns(sc.clients[i].phase) ensures sc.clients[i].phase.key in sc.book {
      assert PhaseHolds(sc, sc.clients[i]);
    }
  }

  // ----- ledger calls -----

  /** A call that confirmed its frame leaves nothing in doubt; any other adds at most one frame that may be lost. */
  lemma CallBacked(durable: Ledger, hs: Ledger, sc: Scene, i: nat, after: Ledger, k: Key, ok: bool)
    requires NonEmpty(hs) && sc.book == BookOf(hs) && Inv(sc) && Backed(durable, hs, sc)
    requires NonEmpty(after) && Calling(sc, i, BookOf(after), ok) && Inv(Calls(sc, i, BookOf(after), ok))
    requires if after == hs then !ok else OneMore(hs, after, k)
    ensures Backed(if ok then after else durable, after, Calls(sc, i, BookOf(after), ok))
  {
    hide Calls, Answered, Asks, Inv, BookOf, EntryOf, NonEmpty, Allowed, Permits, Facts, At, OwnDurable, DispatchOf;
    var t := Calls(sc, i, BookOf(after), ok);
    CallFrame(sc, i, BookOf(after), ok);
    if ok {
      AllConfirmed(after, t);
    } else {
      forall l, n | Cut(durable, after, l, n) ensures Permits(after[l][n - 1].fact, At(t, l)) {
        CutAfterCall(durable, hs, sc, i, after, k, l, n);
      }
      forall j | j in t.clients && Owns(t.clients[j].phase) ensures OwnDurable(durable, after, t.clients[j].phase.key) {
        OwnerAfterCall(durable, hs, sc, i, after, k, j);
      }
    }
  }

  lemma CallFrame(sc: Scene, i: nat, after: Book, ok: bool)
    requires i in sc.clients
    ensures var t := Calls(sc, i, after, ok);
            && t.book == after && t.moved == sc.moved && t.log == sc.log && t.clients.Keys == sc.clients.Keys
            && (forall j :: j in sc.clients && j != i ==> t.clients[j] == sc.clients[j])
            && (!ok ==> t.clients[i].phase == Stopped)
  {
    hide Asks;
  }

  lemma CutAfterCall(durable: Ledger, hs: Ledger, sc: Scene, i: nat, after: Ledger, k: Key, l: Key, n: nat)
    requires NonEmpty(hs) && sc.book == BookOf(hs) && Backed(durable, hs, sc) && i in sc.clients
    requires NonEmpty(after) && Inv(Calls(sc, i, BookOf(after), false)) && Cut(durable, after, l, n)
    requires after == hs || OneMore(hs, after, k)
    ensures Permits(after[l][n - 1].fact, At(Calls(sc, i, BookOf(after), false), l))
  {
    var t := Calls(sc, i, BookOf(after), false);
    CallFrame(sc, i, BookOf(after), false);
    hide Calls, Inv, BookOf, NonEmpty, Allowed, Permits, Facts;
    BookKey(after, l);
    BookEntry(after, l);
    BookKey(hs, l);
    if n == |after[l]| {
      InvTruths(t);
      LastFact(after[l]);
    } else {
      assert Cut(durable, hs, l, n) && after[l][n - 1] == hs[l][n - 1];
      BookEntry(hs, l);
      assert hs[l][0] == after[l][0];
      assert At(t, l) <==> At(sc, l);
    }
  }

  lemma OwnerAfterCall(durable: Ledger, hs: Ledger, sc: Scene, i: nat, after: Ledger, k: Key, j: nat)
    requires NonEmpty(hs) && sc.book == BookOf(hs) && Inv(sc) && Backed(durable, hs, sc)
    requires NonEmpty(after) && Calling(sc, i, BookOf(after), false) && (after == hs || OneMore(hs, after, k))
    requires var t := Calls(sc, i, BookOf(after), false); j in t.clients && Owns(t.clients[j].phase)
    ensures OwnDurable(durable, after, Calls(sc, i, BookOf(after), false).clients[j].phase.key)
  {
    CallFrame(sc, i, BookOf(after), false);
    hide Calls, Inv, BookOf, NonEmpty, Allowed, Permits, Facts;
    var l := sc.clients[j].phase.key;
    assert OwnDurable(durable, hs, l);
    if after != hs {
      OwnerAlone(sc, j, i, BookOf(after), false);
      BookEntry(hs, l);
      BookEntry(after, l);
      LastFact(hs[l]);
      LastFact(after[l]);
    }
  }

  // ----- the other steps -----

  /** Only the owner of a recovery calls its effects, and its dispatch is confirmed. */
  lemma ActBacked(durable: Ledger, hs: Ledger, sc: Scene, i: nat, ch: Choice)
    requires NonEmpty(hs) && sc.book == BookOf(hs) && Inv(sc) && Backed(durable, hs, sc) && i in sc.clients
    ensures Backed(durable, hs, Acts(sc, i, ch))
  {
    hide Acts, Inv, BookOf, NonEmpty, Permits, Facts;
    var t := Acts(sc, i, ch);
    var p := sc.clients[i].phase;
    ActKeepsOthers(sc, i, ch);
    if Owns(t.clients[i].phase) { ActKeepsKey(sc, i, ch); }
    if p.Writing? || p.Renaming? {
      EffectBacked(durable, hs, sc, i, ch);
    } else {
      forall k ensures At(t, k) <==> At(sc, k) {}
    }
  }

  lemma EffectBacked(durable: Ledger, hs: Ledger, sc: Scene, i: nat, ch: Choice)
    requires NonEmpty(hs) && sc.book == BookOf(hs) && Inv(sc) && Backed(durable, hs, sc) && i in sc.clients
    requires sc.clients[i].phase.Writing? || sc.clients[i].phase.Renaming?
    requires var t := Acts(sc, i, ch);
             && t.clients.Keys == sc.clients.Keys && (forall j :: j in sc.clients && j != i ==> t.clients[j] == sc.clients[j])
             && (Owns(t.clients[i].phase) ==> t.clients[i].phase.key == sc.clients[i].phase.key)
    ensures Backed(durable, hs, Acts(sc, i, ch))
  {
    hide Acts, Inv, BookOf, NonEmpty, Facts, Permits, At, EntryOf, DispatchOf, Owns;
    var t := Acts(sc, i, ch);
    var k := sc.clients[i].phase.key;
    var e := DispatchIsLast(sc, i, ch);
    assert OwnDurable(durable, hs, k);
    OwnFactDurable(durable, hs, sc, k);
    forall l, n | Cut(durable, hs, l, n) ensures Permits(hs[l][n - 1].fact, At(t, l)) {
      EffectCut(durable, hs, sc, t, e, l, n);
    }
  }

  lemma OwnFactDurable(durable: Ledger, hs: Ledger, sc: Scene, k: Key)
    requires NonEmpty(hs) && sc.book == BookOf(hs) && k in sc.book && OwnDurable(durable, hs, k)
    ensures sc.book[k].fact in Facts(durable[k])
  {
    BookEntry(hs, k);
    NonEmptyAt(hs, k);
    LastFact(hs[k]);
    FactsEnd(hs[k]);
  }

  lemma EffectCut(durable: Ledger, hs: Ledger, sc: Scene, t: Scene, e: Effect, l: Key, n: nat)
    requires NonEmpty(hs) && sc.book == BookOf(hs) && Backed(durable, hs, sc) && Cut(durable, hs, l, n)
    requires EffectOf(sc, t, e) && OwnDurable(durable, hs, e.key)
    ensures Permits(hs[l][n - 1].fact, At(t, l))
  {
    hide BookOf, NonEmpty, Facts, Permits, EntryOf;
    if l == e.key && e.Rename? {
      assert n == |hs[l]|;
      BookEntry(hs, l);
      NonEmptyAt(hs, l);
      LastFact(hs[l]);
      DispatchPermits(At(t, l));
    } else {
      assert At(t, l) <==> At(sc, l);
    }
  }

  lemma DispatchPermits(at: bool)
    ensures Permits(Ordinary(MoveDispatchRecorded), at)
  {
  }

  lemma FactsEnd(h: seq<Frame>)
    requires |h| > 0
    ensures h[|h| - 1].fact in Facts(h)
  {
    assert Facts(h)[|h| - 1] == h[|h| - 1].fact;
  }

  /** The effect e is logged while its dispatch is the current fact, and only its own content may move. */
  predicate EffectOf(sc: Scene, t: Scene, e: Effect) {
    && t.book == sc.book && t.log == sc.log + [e] && e.key in sc.book && sc.book[e.key].fact == DispatchOf(e)
    && (t.moved == sc.moved
        || (e.Rename? && sc.book[e.key].source !in sc.moved && t.moved == sc.moved[sc.book[e.key].source := e.key]))
  }

  lemma DispatchIsLast(sc: Scene, i: nat, ch: Choice) returns (e: Effect)
    requires Inv(sc) && i in sc.clients && (sc.clients[i].phase.Writing? || sc.clients[i].phase.Renaming?)
    ensures Owns(sc.clients[i].phase) && e.key == sc.clients[i].phase.key && EffectOf(sc, Acts(sc, i, ch), e)
  {
    hide Located, OneOpen, Logged, OwnersDiffer, MetadataTruthful, Applies, Report;
    assert PhaseHolds(sc, sc.clients[i]);
    if sc.clients[i].phase.Renaming? {
      RenameEffect(sc, i, ch);
      e := Rename(sc.clients[i].phase.key);
    } else {
      e := WriteMetadata(sc.clients[i].phase.key);
    }
  }

  /** Clients come and go. */
  lemma ClientsBacked(durable: Ledger, hs: Ledger, sc: Scene, i: nat, cl: Client)
    requires Backed(durable, hs, sc) && !Owns(cl.phase)
    ensures Backed(durable, hs, sc.(clients := sc.clients[i := cl]))
  {
    hide Permits, Facts;
    var t := sc.(clients := sc.clients[i := cl]);
    forall k ensures At(t, k) <==> At(sc, k) {}
  }

  // ----- a power loss -----

  /** The scene when everything has stopped and the ledger reads as kept. */
  ghost function Rebooted(sc: Scene, kept: Ledger): Scene
    requires NonEmpty(kept)
  {
    sc.(book := BookOf(kept), clients := map i | i in sc.clients :: sc.clients[i].(phase := Stopped))
  }

  /** What is left after a power loss is as truthful as what was there before. */
  lemma RebootKeepsInv(c: Codec, durable: Ledger, hs: Ledger, sc: Scene, kept: Ledger)
    requires NonEmpty(hs) && sc.book == BookOf(hs) && Inv(sc) && Backed(durable, hs, sc) && WellFormed(c, hs)
    requires WellFormed(c, kept) && NonEmpty(kept) && Extends(durable, kept) && Extends(kept, hs)
    ensures Inv(Rebooted(sc, kept))
  {
    var t := Rebooted(sc, kept);
    assert OneOpenPerSource(kept);
    assert MetadataTruthful(sc);
    hide WellFormed, Rebooted, Inv, BookOf, EntryOf, NonEmpty, MetadataTruthful;
    InvTruths(sc);
    OneOpenInBook(kept);
    RebootFrame(sc, kept);
    RebootLocated(durable, hs, sc, kept);
    RebootLogged(durable, hs, sc, kept);
    RebootMetadata(c, hs, sc, kept);
    hide Located, OneOpen, Logged, MetadataTruthful;
    forall i | i in t.clients ensures PhaseHolds(t, t.clients[i]) { StoppedHolds(t, t.clients[i]); }
    InvFrom(t);
  }

  lemma RebootFrame(sc: Scene, kept: Ledger)
    requires NonEmpty(kept)
    ensures var t := Rebooted(sc, kept);
            && t.book == BookOf(kept) && t.moved == sc.moved && t.log == sc.log && t.info == sc.info
            && (forall i :: i in t.clients ==> t.clients[i].phase == Stopped)
  {
  }

  lemma StoppedHolds(sc: Scene, cl: Client)
    requires cl.phase == Stopped
    ensures PhaseHolds(sc, cl)
  {
  }

  lemma KeptEntry(hs: Ledger, kept: Ledger, k: Key)
    requires NonEmpty(hs) && NonEmpty(kept) && Extends(kept, hs) && k in kept
    ensures k in hs && EntryOf(kept[k]).source == EntryOf(hs[k]).source && EntryOf(kept[k]).destination == EntryOf(hs[k]).destination
  {
    assert kept[k][0] == hs[k][0];
  }

  lemma RebootLocated(durable: Ledger, hs: Ledger, sc: Scene, kept: Ledger)
    requires NonEmpty(hs) && sc.book == BookOf(hs) && Inv(sc) && Backed(durable, hs, sc)
    requires NonEmpty(kept) && Extends(durable, kept) && Extends(kept, hs)
    ensures Located(Rebooted(sc, kept))
  {
    hide Inv, BookOf, NonEmpty, EntryOf, Facts, Backed, Extends, Permits, At;
    RebootFrame(sc, kept);
    hide Rebooted;
    var t := Rebooted(sc, kept);
    InvTruths(sc);
    forall k | k in t.book ensures Permits(t.book[k].fact, At(t, k)) {
      BookKey(kept, k);
      RebootedEntry(durable, hs, sc, t, kept, k);
    }
    forall s | s in t.moved ensures t.moved[s] in t.book && t.book[t.moved[s]].source == s {
      MovedIsDurable(durable, hs, sc, kept, s);
      BookKey(kept, t.moved[s]);
      RebootedEntry(durable, hs, sc, t, kept, t.moved[s]);
    }
    PermitsLocated(t);
  }

  lemma PermitsLocated(sc: Scene)
    requires forall s :: s in sc.moved ==> sc.moved[s] in sc.book && sc.book[sc.moved[s]].source == s
    requires forall k :: k in sc.book ==> Permits(sc.book[k].fact, At(sc, k))
    ensures Located(sc)
  {
    hide Allowed, At;
  }

  lemma MovedIsDurable(durable: Ledger, hs: Ledger, sc: Scene, kept: Ledger, s: Source)
    requires Backed(durable, hs, sc) && Extends(durable, kept) && s in sc.moved
    ensures sc.moved[s] in kept
  {
    hide Permits, At, Facts;
  }

  lemma RebootedEntry(durable: Ledger, hs: Ledger, sc: Scene, t: Scene, kept: Ledger, k: Key)
    requires NonEmpty(hs) && sc.book == BookOf(hs) && Backed(durable, hs, sc) && k in kept
    requires NonEmpty(kept) && Extends(durable, kept) && Extends(kept, hs) && t.book == BookOf(kept) && t.moved == sc.moved
    ensures k in t.book && k in sc.book && t.book[k].source == sc.book[k].source && Permits(t.book[k].fact, At(t, k))
  {
    hide BookOf, NonEmpty, EntryOf, Facts, Permits;
    BookKey(kept, k);
    BookEntry(kept, k);
    KeptEntry(hs, kept, k);
    BookKey(hs, k);
    BookEntry(hs, k);
    NonEmptyAt(kept, k);
    LastFact(kept[k]);
    assert Cut(durable, hs, k, |kept[k]|);
    assert At(t, k) <==> At(sc, k);
  }

  lemma RebootLogged(durable: Ledger, hs: Ledger, sc: Scene, kept: Ledger)
    requires Inv(sc) && Backed(durable, hs, sc) && NonEmpty(kept) && Extends(durable, kept)
    ensures Logged(Rebooted(sc, kept))
  {
    var t := Rebooted(sc, kept);
    hide Inv, BookOf, NonEmpty, EntryOf, Permits, Recorded, DispatchOf, At;
    RebootFrame(sc, kept);
    hide Rebooted;
    InvTruths(sc);
    forall e | e in t.log ensures e.key in t.book && Recorded(t.book[e.key], DispatchOf(e)) {
      BookKey(kept, e.key);
      BookEntry(kept, e.key);
      NonEmptyAt(kept, e.key);
      RecordedIsFact(kept[e.key], DispatchOf(e));
      FactsGrow(durable[e.key], kept[e.key], DispatchOf(e));
    }
  }

  lemma FactsGrow(h: seq<Frame>, g: seq<Frame>, f: Fact)
    requires h <= g && f in Facts(h)
    ensures f in Facts(g)
  {
    var i :| 0 <= i < |h| && Facts(h)[i] == f;
    assert Facts(g)[i] == f;
  }

  /** A closed recovery loses nothing: nothing follows its last frame. */
  lemma RebootMetadata(c: Codec, hs: Ledger, sc: Scene, kept: Ledger)
    requires WellFormed(c, hs) && NonEmpty(hs) && sc.book == BookOf(hs) && MetadataTruthful(sc)
    requires NonEmpty(kept) && Extends(kept, hs)
    ensures MetadataTruthful(Rebooted(sc, kept))
  {
    hide WellFormed, BookOf, NonEmpty, EntryOf, Closed, Extends;
    RebootFrame(sc, kept);
    hide Rebooted;
    var t := Rebooted(sc, kept);
    forall k | k in t.book && Closed(t.book[k].fact) ensures k in sc.book && sc.book[k] == t.book[k] {
      BookKey(kept, k);
      ClosedIsKept(c, hs, kept, k);
    }
  }

  lemma ClosedIsKept(c: Codec, hs: Ledger, kept: Ledger, k: Key)
    requires WellFormed(c, hs) && NonEmpty(hs) && NonEmpty(kept) && Extends(kept, hs) && k in kept
    requires k in BookOf(kept) && Closed(BookOf(kept)[k].fact)
    ensures k in BookOf(hs) && BookOf(hs)[k] == BookOf(kept)[k]
  {
    hide WellFormed, BookOf, NonEmpty, EntryOf, Closed;
    BookEntry(kept, k);
    BookKey(hs, k);
    BookEntry(hs, k);
    NonEmptyAt(kept, k);
    LastFact(kept[k]);
    HistoryIs(c, hs, k);
    assert kept[k] == hs[k][..|kept[k]|];
    ClosedIsWhole(c, hs[k], |kept[k]|);
  }

  lemma HistoryIs(c: Codec, hs: Ledger, k: Key)
    requires WellFormed(c, hs) && k in hs
    ensures ValidHistory(c, hs[k])
  {
  }

  lemma ClosedIsWhole(c: Codec, h: seq<Frame>, n: nat)
    requires ValidHistory(c, h) && 0 < n <= |h| && Closed(h[n - 1].fact)
    ensures n == |h| && h[..n] == h
  {
    if n < |h| {
      Neighbours(h[0].binding.destination, Facts(h), n);
      assert false;
    }
  }
}
