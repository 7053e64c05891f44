/** When the ledger does what it is asked: exactly which reservations and transitions succeed if nothing fails outside. */
module Serving {
  import opened Base
  import opened RecoveryGraph
  import opened RecordName
  import opened PathBytes
  import opened RecoveryChain
  import opened RecoveryAppend
  import opened LedgerRecords
  import opened LedgerInventory
  import opened LedgerStore
  import opened LedgerSteps
  import opened LedgerRuns
  import opened Books
  import opened Clients
  import opened Protocol

  /** Every record can be read, and the publication is created whole and confirmed. */
  const FAIR := Weather(None, Created(None))

  /** The call returns no error. */
  ghost predicate Succeeds(c: Codec, st: State, q: Request)
    requires NonEmpty(st.hs)
  {
    AbstractStep(c, st, q, FAIR).1.error.None?
  }

  // ----- reservations -----

  /** A reservation succeeds if and only if the ledger can be read and holds fewer than 128 records, the binding is valid
      for the current schema, no open recovery names its source, its identity is free, and its intent fits a record. */
  lemma ReserveExactly(c: Codec, st: State, b: Binding)
    requires WellFormed(c, st.hs) && NonEmpty(st.hs)
    ensures Succeeds(c, st, Reserve(b)) <==>
              && !st.torn && Size(c, st.hs) < 128 && ValidBinding(c, b, 2)
              && !SourceInUse(BookOf(st.hs), Source(b.root, b.source)) && KeyOf(b) !in st.hs
              && EncodeFrame(c, Frame(2, b, INTENT, 0, Zeros(32))).Success?
  {
    hide ValidBinding, EncodeFrame, Size, SourceOpen, BookOf, SourceInUse, WellFormed, NonEmpty, AddFrame, Zeros;
    SourcesMatch(st.hs, b);
    IntentKept(c, st.hs, b);
    hide Kept;
  }

  lemma IntentKept(c: Codec, hs: Ledger, b: Binding)
    requires NonEmpty(hs)
    ensures Kept(hs, IdOf(IntentFrame(b))).Some? <==> KeyOf(b) in hs
  {
    assert Key(b.digest, b.token) == KeyOf(b);
  }

  /** On a readable ledger with room a valid reservation of a free source with a fresh token always succeeds, also on the
      directory of record files. */
  lemma ReserveSucceeds(c: Codec, st: State, s: Store, b: Binding)
    requires Faithful(c) && Stands(c, st, s) && !st.torn && |s| < 128 && ValidBinding(c, b, 2) && Roomy(c, b)
    requires NonEmpty(st.hs) && ValidNames(s) && !SourceInUse(BookOf(st.hs), Source(b.root, b.source)) && KeyOf(b) !in st.hs
    ensures Succeeds(c, st, Reserve(b)) && LedgerSteps.Step(c, s, Reserve(b), FAIR).1.error.None?
  {
    IntentFits(c, b);
    hide ValidBinding, EncodeFrame, Size, BookOf, SourceInUse, WellFormed, NonEmpty, Stands, AbstractStep, LedgerSteps.Step, Roomy, Faithful;
    StandsMeans(c, st, s);
    ReserveExactly(c, st, b);
    StepRefines(c, s, st, Reserve(b), FAIR);
  }

  lemma IntentFits(c: Codec, b: Binding)
    requires ValidBinding(c, b, 2) && Roomy(c, b)
    ensures EncodeFrame(c, Frame(2, b, INTENT, 0, Zeros(32))).Success?
  {
    hide ValidBinding;
    var f := Frame(2, b, INTENT, 0, Zeros(32));
    assert ValidFrame(c, f);
  }

  /** A binding of each kind. */
  function Sample(kind: ActionKind): Binding
  {
    var letters := seq(64, _ => 'a' as int as byte);
    Binding(letters, [1], Ascii("ldc-") + letters, Ascii("home"), [Ascii("old.log")], kind, DestinationFor(kind),
            if kind == TrashPath then Zeros(31) + [1] else Zeros(32))
  }

  /** Both kinds can be reserved: the first call on an empty directory succeeds. */
  lemma FirstReservation(c: Codec, kind: ActionKind)
    requires Faithful(c) && (kind == TrashPath || kind == QuarantinePath) && c.projects(Sample(kind), 2) && Roomy(c, Sample(kind))
    ensures LedgerSteps.Step(c, map[], Reserve(Sample(kind)), FAIR).1.error.None?
    ensures ValidBinding(c, Sample(kind), 2) && (kind == TrashPath <==> Sample(kind).destination == Trash)
  {
    var b := Sample(kind);
    SampleIsValid(c, kind);
    EmptyStands(c);
    hide *;
    ReserveSucceeds(c, State(map[], false), map[], b);
  }

  lemma SampleIsValid(c: Codec, kind: ActionKind)
    requires (kind == TrashPath || kind == QuarantinePath) && c.projects(Sample(kind), 2)
    ensures ValidBinding(c, Sample(kind), 2)
  {
    var b := Sample(kind);
    assert b.digest == seq(64, _ => 'a' as int as byte);
    assert b.token[4..] == b.digest;
    assert b.source[0][0] == 'o' as int && |b.source[0]| == 7;
    assert ValidComponent(b.source[0]);
    assert RawLength(b.source) == 7 by { assert b.source[1..] == []; }
    assert b.layout != Zeros(32) <==> kind == TrashPath by { assert (Zeros(31) + [1])[31] != Zeros(32)[31]; }
  }

  lemma EmptyStands(c: Codec)
    ensures Stands(c, State(map[], false), map[]) && NonEmpty(map[]) && ValidNames(map[])
    ensures forall s :: !SourceInUse(BookOf(map[]), s)
  {
  }

  // ----- transitions -----

  /** A transition succeeds if and only if the ledger can be read and holds fewer than 128 records, the recovery is on
      record in the current schema with fewer than sixteen frames, the graph allows it, and its frame fits a record. */
  lemma TransitionExactly(c: Codec, st: State, k: Key, t: Fact)
    requires WellFormed(c, st.hs) && NonEmpty(st.hs) && (k in st.hs ==> Roomy(c, st.hs[k][0].binding))
    ensures Succeeds(c, st, Advance(k, t)) <==>
              && !st.torn && Size(c, st.hs) < 128 && k in st.hs && st.hs[k][0].schema == 2 && |st.hs[k]| < 16
              && Legal(EntryOf(st.hs[k]).destination, EntryOf(st.hs[k]).fact, t)
  {
    hide WellFormed, Legal, AbstractStep, Size, EntryOf, Roomy;
    if Succeeds(c, st, Advance(k, t)) {
      SuccessMeansRoom(c, st, k, t);
    } else if !st.torn && Size(c, st.hs) < 128 && k in st.hs && st.hs[k][0].schema == 2 && |st.hs[k]| < 16
              && Legal(EntryOf(st.hs[k]).destination, EntryOf(st.hs[k]).fact, t) {
      LegalSucceeds(c, st, k, t, FAIR);
    }
  }

  lemma SuccessMeansRoom(c: Codec, st: State, k: Key, t: Fact)
    requires WellFormed(c, st.hs) && NonEmpty(st.hs) && Succeeds(c, st, Advance(k, t))
    ensures !st.torn && Size(c, st.hs) < 128 && k in st.hs && st.hs[k][0].schema == 2 && |st.hs[k]| < 16
    ensures Legal(EntryOf(st.hs[k]).destination, EntryOf(st.hs[k]).fact, t)
  {
    hide WellFormed, NonEmpty, Legal, AbstractStep, AbstractPlan, Size, EntryOf, EncodeFrame, LegalPath, Chained;
    var f := AbstractAnswers(c, st, Advance(k, t), FAIR);
    GrowthIsLegal(c, st.hs, Advance(k, t), AbstractStep(c, st, Advance(k, t), FAIR).0.hs, f.value);
    PlannedSize(c, st, Advance(k, t));
  }

  lemma PlannedSize(c: Codec, st: State, q: Request)
    requires WellFormed(c, st.hs) && NonEmpty(st.hs) && Succeeds(c, st, q)
    ensures Size(c, st.hs) < 128
  {
    hide WellFormed, NonEmpty, AbstractPlan, Size, Kept, AddFrame, Continues, Drafted;
    PlanContinues(c, st, q, FAIR, AbstractPlan(c, st, q, FAIR).value);
  }

  // ----- refusals -----

  /** The class of a refused reservation, with nothing else in the way. */
  lemma ReserveRefusal(c: Codec, st: State, b: Binding)
    requires WellFormed(c, st.hs) && NonEmpty(st.hs) && !st.torn
    ensures var e := AbstractStep(c, st, Reserve(b), FAIR).1.error;
            && (!ValidBinding(c, b, 2) ==> e == Some(Unsupported))
            && (ValidBinding(c, b, 2) && (Size(c, st.hs) >= 128 || SourceInUse(BookOf(st.hs), Source(b.root, b.source))) ==> e == Some(Conflict))
  {
    hide ValidBinding, EncodeFrame, Size, SourceOpen, BookOf, SourceInUse, WellFormed, NonEmpty, AddFrame, Kept;
    SourcesMatch(st.hs, b);
  }

  /** The class of a refused transition: an unknown recovery, a full ledger, a full history or a closed recovery is a
      conflict; an identity that no ledger holds, or a history of the old schema, is unsupported. */
  lemma TransitionRefusal(c: Codec, st: State, k: Key, t: Fact)
    requires WellFormed(c, st.hs) && NonEmpty(st.hs) && !st.torn
    ensures var e := AbstractStep(c, st, Advance(k, t), FAIR).1.error; var valid := ValidId(RecordId(k.digest, k.token, 0));
            && (!valid ==> e == Some(Unsupported))
            && (valid && k !in st.hs ==> e == Some(Conflict))
            && (valid && k in st.hs && st.hs[k][0].schema == 1 ==> e == Some(Unsupported))
            && (valid && k in st.hs && st.hs[k][0].schema == 2 ==>
                  Size(c, st.hs) >= 128 || |st.hs[k]| == 16 || Closed(EntryOf(st.hs[k]).fact) ==> e == Some(Conflict))
  {
    hide WellFormed, NonEmpty, Size, Append, ValidId, AddFrame, Kept, Closed;
    if k in st.hs {
      HistoryOf(c, st.hs, k);
      NonEmptyAt(st.hs, k);
      LastIsKnown(c, st.hs[k]);
      if st.hs[k][0].schema == 2 && (|st.hs[k]| == 16 || Closed(EntryOf(st.hs[k]).fact)) { AppendRefused(c, st.hs[k], t); }
    }
  }

  lemma LastIsKnown(c: Codec, h: seq<Frame>)
    requires ValidHistory(c, h)
    ensures h[0].schema == 1 || h[0].schema == 2
  {
    HistoryFacts(c, h);
  }

  lemma AppendRefused(c: Codec, h: seq<Frame>, t: Fact)
    requires ValidHistory(c, h) && h[0].schema == 2 && (|h| == 16 || Closed(EntryOf(h).fact))
    ensures Append(c, h, t) == Failure(Conflict)
  {
    ReplayAccepts(c, h);
    HistoryFacts(c, h);
  }
}
