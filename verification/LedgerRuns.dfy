/** Whole runs of the ledger: every sequence of calls, with stale tickets, colliding tokens, torn and
    unreported publications. */
module LedgerRuns {
  import opened Base
  import opened RecoveryGraph
  import opened RecordName
  import opened RecoveryChain
  import opened RecoveryAppend
  import opened LedgerRecords
  import opened LedgerInventory
  import opened LedgerStore
  import opened LedgerSteps

  // ----- one call: the directory and the ledger it stands for move together -----

  lemma StandsMeans(c: Codec, st: State, s: Store)
    requires Faithful(c) && Stands(c, st, s)
    ensures WellFormed(c, st.hs) && NonEmpty(st.hs) && ValidNames(s)
    ensures st.torn ==> View(c, s).Failure?
    ensures !st.torn ==> Represents(c, st.hs, s) && Size(c, st.hs) == |s| && View(c, s) == Success(Histories(c, st.hs))
  {
    hide WellFormed, NonEmpty, ValidNames, Represents, View, Histories, Size, Faithful;
    if !st.torn {
      RepresentedView(c, st.hs, s);
      SizeIsRecords(c, st.hs, s);
    }
  }

  lemma PlanReads(c: Codec, s: Store, st: State, q: Request, w: Weather)
    requires ValidNames(s) && NonEmpty(st.hs) && !st.torn && View(c, s) == Success(Histories(c, st.hs))
    requires NextFrame(c, Histories(c, st.hs), q) == Decide(c, st.hs, q)
    ensures Plan(c, s, q, w) == AbstractPlan(c, st, q, w)
  {
    hide NonEmpty, ValidNames, View, Histories, Decide, NextFrame, DraftOf, Admit;
  }

  lemma PlanFails(c: Codec, s: Store, st: State, q: Request, w: Weather)
    requires ValidNames(s) && NonEmpty(st.hs) && st.torn && View(c, s).Failure?
    ensures Plan(c, s, q, w).Failure? && AbstractPlan(c, st, q, w).Failure?
  {
    hide NonEmpty, ValidNames, View, Decide, NextFrame, DraftOf, Admit;
  }

  lemma PlansAgree(c: Codec, s: Store, st: State, q: Request, w: Weather)
    requires Faithful(c) && Stands(c, st, s)
    ensures NonEmpty(st.hs) && ValidNames(s)
    ensures if st.torn then Plan(c, s, q, w).Failure? && AbstractPlan(c, st, q, w).Failure?
            else Plan(c, s, q, w) == AbstractPlan(c, st, q, w)
  {
    hide *;
    StandsMeans(c, st, s);
    if st.torn {
      PlanFails(c, s, st, q, w);
    } else {
      NextFrameDecides(c, st.hs, q);
      PlanReads(c, s, st, q, w);
    }
  }

  /** Where a readable ledger's call publishes. */
  lemma PlanContinues(c: Codec, st: State, q: Request, w: Weather, d: Draft)
    requires WellFormed(c, st.hs) && NonEmpty(st.hs) && AbstractPlan(c, st, q, w) == Success(d)
    ensures !st.torn && Drafted(c, d) && Size(c, st.hs) < MAXIMUM_RECORDS
    ensures Kept(st.hs, IdOf(d.frame)).None? ==> Continues(c, st.hs, d.frame)
  {
    hide WellFormed, NonEmpty, EncodeFrame, Size, Continues, Append;
    if Kept(st.hs, IdOf(d.frame)).None? { DecidedContinues(c, st.hs, q, d.frame); }
  }

  lemma StepRefines(c: Codec, s: Store, st: State, q: Request, w: Weather)
    requires Faithful(c) && Stands(c, st, s)
    ensures NonEmpty(st.hs) && ValidNames(s)
    ensures Stands(c, AbstractStep(c, st, q, w).0, Step(c, s, q, w).0)
    ensures if st.torn then Step(c, s, q, w).0 == s && Step(c, s, q, w).1.error.Some?
            else Step(c, s, q, w).1 == AbstractStep(c, st, q, w).1
  {
    assert NonEmpty(st.hs) && ValidNames(s);
    hide Stands, WellFormed, NonEmpty, ValidNames, Plan, AbstractPlan, Faithful, Publish, PublishAbstractly;
    PlansAgree(c, s, st, q, w);
    if AbstractPlan(c, st, q, w).Success? { PublicationRefines(c, s, st, q, w, AbstractPlan(c, st, q, w).value); }
  }

  lemma PublicationRefines(c: Codec, s: Store, st: State, q: Request, w: Weather, d: Draft)
    requires Faithful(c) && Stands(c, st, s) && NonEmpty(st.hs) && AbstractPlan(c, st, q, w) == Success(d)
    ensures var (t, e) := Publish(s, IdOf(d.frame), d.contents, w.publication);
            var (after, b) := PublishAbstractly(st, d.frame, |d.contents|, w.publication);
            e == b && Stands(c, after, t)
  {
    hide *;
    StandsMeans(c, st, s);
    PlanContinues(c, st, q, w, d);
    Taken(c, st.hs, s, IdOf(d.frame));
    if IdOf(d.frame) !in s { NewRecordStands(c, s, st, d, w.publication); }
    PublicationCases(c, s, st, d, w.publication);
  }

  lemma Taken(c: Codec, hs: Ledger, s: Store, id: RecordId)
    requires Represents(c, hs, s)
    ensures id in s <==> Kept(hs, id).Some?
  {
  }

  lemma PublicationCases(c: Codec, s: Store, st: State, d: Draft, p: Publication)
    requires Stands(c, st, s) && (IdOf(d.frame) in s <==> Kept(st.hs, IdOf(d.frame)).Some?)
    requires IdOf(d.frame) !in s && p.Torn? && p.kept < |d.contents| ==> Stands(c, st.(torn := true), s[IdOf(d.frame) := d.contents[..p.kept]])
    requires IdOf(d.frame) !in s ==> Stands(c, st.(hs := AddFrame(st.hs, d.frame)), s[IdOf(d.frame) := d.contents])
    ensures var (t, e) := Publish(s, IdOf(d.frame), d.contents, p);
            var (after, b) := PublishAbstractly(st, d.frame, |d.contents|, p);
            e == b && Stands(c, after, t)
  {
    hide Stands, Kept, AddFrame;
  }

  lemma NewRecordStands(c: Codec, s: Store, st: State, d: Draft, p: Publication)
    requires Faithful(c) && Stands(c, st, s) && !st.torn && Drafted(c, d)
    requires Continues(c, st.hs, d.frame) && IdOf(d.frame) !in s && |s| < MAXIMUM_RECORDS
    ensures p.Torn? && p.kept < |d.contents| ==> Stands(c, st.(torn := true), s[IdOf(d.frame) := d.contents[..p.kept]])
    ensures Stands(c, st.(hs := AddFrame(st.hs, d.frame)), s[IdOf(d.frame) := d.contents])
  {
    var f := d.frame;
    DraftNames(c, d);
    if p.Torn? && p.kept < |d.contents| { TornPoisons(c, s[IdOf(f) := d.contents[..p.kept]], f, p.kept); }
    ContinuesWellFormed(c, st.hs, f);
    assert f.ordinal == if KeyOf(f.binding) in st.hs then |st.hs[KeyOf(f.binding)]| else 0;
    hide Continues, WellFormed, View, EncodeFrame, Represents, NonEmpty, Faithful;
    AddFrameRepresented(c, st.hs, s, f);
  }

  // ----- runs -----

  datatype Call = Call(request: Request, weather: Weather)

  ghost function StepCall(c: Codec, s: Store, call: Call): (t: Store)
    requires ValidNames(s)
    ensures ValidNames(t)
  {
    Step(c, s, call.request, call.weather).0
  }

  ghost function Run(c: Codec, s: Store, calls: seq<Call>): (t: Store)
    requires ValidNames(s)
    ensures ValidNames(t)
    decreases |calls|
  {
    if calls == [] then s else Run(c, StepCall(c, s, calls[0]), calls[1..])
  }

  ghost function AbstractRun(c: Codec, st: State, calls: seq<Call>): (after: State)
    requires NonEmpty(st.hs)
    ensures NonEmpty(after.hs)
    decreases |calls|
  {
    hide AbstractStep, NonEmpty;
    if calls == [] then st else AbstractRun(c, AbstractStep(c, st, calls[0].request, calls[0].weather).0, calls[1..])
  }

  /** This call leaves a torn frame behind. */
  ghost predicate Tearing(c: Codec, s: Store, call: Call)
    requires ValidNames(s)
  {
    var plan := Plan(c, s, call.request, call.weather);
    plan.Success? && Tears(s, IdOf(plan.value.frame), plan.value.contents, call.weather.publication)
  }

  ghost predicate SomeTear(c: Codec, s: Store, calls: seq<Call>)
    requires ValidNames(s)
    decreases |calls|
  {
    calls != [] && (Tearing(c, s, calls[0]) || SomeTear(c, StepCall(c, s, calls[0]), calls[1..]))
  }

  lemma {:induction false} RunRefines(c: Codec, s: Store, st: State, calls: seq<Call>)
    requires Faithful(c) && Stands(c, st, s)
    ensures NonEmpty(st.hs) && ValidNames(s)
    ensures Stands(c, AbstractRun(c, st, calls), Run(c, s, calls))
    decreases |calls|
  {
    hide Stands, WellFormed, NonEmpty, ValidNames, Step, AbstractStep, Faithful;
    StandsMeans(c, st, s);
    if calls != [] {
      var q, w := calls[0].request, calls[0].weather;
      StepRefines(c, s, st, q, w);
      RunRefines(c, StepCall(c, s, calls[0]), AbstractStep(c, st, q, w).0, calls[1..]);
    }
  }

  // ----- an unreadable ledger is frozen -----

  lemma UnreadableRefuses(c: Codec, s: Store, q: Request, w: Weather)
    requires ValidNames(s) && View(c, s).Failure?
    ensures Step(c, s, q, w).0 == s && Step(c, s, q, w).1.error.Some? && Step(c, s, q, w).1.ticket.None?
  {
    hide View, NextFrame, Admit, ValidNames;
  }

  /** Once a read fails, whatever the reason, no later call writes anything: nothing is skipped or repaired. */
  lemma {:induction false} UnreadableIsFrozen(c: Codec, s: Store, calls: seq<Call>)
    requires ValidNames(s) && View(c, s).Failure?
    ensures Run(c, s, calls) == s
    decreases |calls|
  {
    hide View, Step, ValidNames;
    if calls != [] {
      UnreadableRefuses(c, s, calls[0].request, calls[0].weather);
      UnreadableIsFrozen(c, s, calls[1..]);
    }
  }

  // ----- records are never changed -----

  predicate Contains(t: Store, s: Store) {
    forall id :: id in s ==> id in t && t[id] == s[id]
  }

  lemma StepKeepsRecords(c: Codec, s: Store, call: Call)
    requires ValidNames(s)
    ensures Contains(StepCall(c, s, call), s)
  {
    hide Plan, ValidNames;
  }

  lemma {:induction false} RunKeepsRecords(c: Codec, s: Store, calls: seq<Call>)
    requires ValidNames(s)
    ensures Contains(Run(c, s, calls), s)
    decreases |calls|
  {
    if calls != [] {
      hide StepCall, ValidNames;
      StepKeepsRecords(c, s, calls[0]);
      RunKeepsRecords(c, StepCall(c, s, calls[0]), calls[1..]);
    }
  }

  // ----- histories only grow -----

  /** h is a prefix of g; closed and v1 histories do not grow at all. */
  predicate GrownFrom(h: seq<Frame>, g: seq<Frame>) {
    && |h| > 0 && h <= g
    && (h[0].schema != SCHEMA_V2 || !OpenFrames(h) ==> g == h)
  }

  ghost predicate Grown(hs: Ledger, after: Ledger) {
    forall k :: k in hs ==> k in after && GrownFrom(hs[k], after[k])
  }

  lemma AddGrows(c: Codec, hs: Ledger, f: Frame)
    requires NonEmpty(hs) && Continues(c, hs, f)
    ensures Grown(hs, AddFrame(hs, f))
  {
    hide ValidHistory, EncodeFrame, OpenFrames;
  }

  lemma StepGrows(c: Codec, st: State, q: Request, w: Weather)
    requires WellFormed(c, st.hs) && NonEmpty(st.hs)
    ensures var after := AbstractStep(c, st, q, w).0; WellFormed(c, after.hs) && Grown(st.hs, after.hs)
  {
    hide WellFormed, AbstractPlan, Continues, AddFrame, Drafted, Kept, Size;
    var plan := AbstractPlan(c, st, q, w);
    if plan.Success? {
      var f := plan.value.frame;
      PlanContinues(c, st, q, w, plan.value);
      if Kept(st.hs, IdOf(f)).None? {
        ContinuesWellFormed(c, st.hs, f);
        AddGrows(c, st.hs, f);
      }
    }
  }

  lemma GrownTransitively(hs: Ledger, middle: Ledger, after: Ledger)
    requires Grown(hs, middle) && Grown(middle, after)
    ensures Grown(hs, after)
  {
  }

  lemma {:induction false} RunGrows(c: Codec, st: State, calls: seq<Call>)
    requires WellFormed(c, st.hs) && NonEmpty(st.hs)
    ensures WellFormed(c, AbstractRun(c, st, calls).hs) && Grown(st.hs, AbstractRun(c, st, calls).hs)
    decreases |calls|
  {
    if calls != [] {
      hide WellFormed, Grown, AbstractStep, NonEmpty;
      var middle := AbstractStep(c, st, calls[0].request, calls[0].weather).0;
      StepGrows(c, st, calls[0].request, calls[0].weather);
      RunGrows(c, middle, calls[1..]);
      GrownTransitively(st.hs, middle.hs, AbstractRun(c, middle, calls[1..]).hs);
    }
  }

  // ----- a torn frame, and nothing else, makes the ledger unreadable -----

  lemma TearingCases(c: Codec, s: Store, st: State, call: Call)
    requires ValidNames(s) && NonEmpty(st.hs) && !st.torn
    requires Plan(c, s, call.request, call.weather) == AbstractPlan(c, st, call.request, call.weather)
    requires var plan := Plan(c, s, call.request, call.weather);
             plan.Success? ==> (IdOf(plan.value.frame) in s <==> Kept(st.hs, IdOf(plan.value.frame)).Some?)
    ensures AbstractStep(c, st, call.request, call.weather).0.torn <==> Tearing(c, s, call)
  {
    hide NonEmpty, ValidNames, Plan, AbstractPlan, Kept, AddFrame;
  }

  lemma TearingTears(c: Codec, s: Store, st: State, call: Call)
    requires Faithful(c) && Stands(c, st, s) && !st.torn
    ensures NonEmpty(st.hs) && ValidNames(s)
    ensures AbstractStep(c, st, call.request, call.weather).0.torn <==> Tearing(c, s, call)
  {
    hide *;
    StandsMeans(c, st, s);
    PlansAgree(c, s, st, call.request, call.weather);
    var plan := Plan(c, s, call.request, call.weather);
    if plan.Success? { Taken(c, st.hs, s, IdOf(plan.value.frame)); }
    TearingCases(c, s, st, call);
  }

  lemma {:induction false} TornStays(c: Codec, st: State, calls: seq<Call>)
    requires NonEmpty(st.hs) && st.torn
    ensures AbstractRun(c, st, calls) == st
    decreases |calls|
  {
    hide NonEmpty, Decide;
    if calls != [] { TornStays(c, st, calls[1..]); }
  }

  lemma {:induction false} RunTears(c: Codec, s: Store, st: State, calls: seq<Call>)
    requires Faithful(c) && Stands(c, st, s) && !st.torn
    ensures NonEmpty(st.hs) && ValidNames(s)
    ensures AbstractRun(c, st, calls).torn <==> SomeTear(c, s, calls)
    decreases |calls|
  {
    hide Stands, WellFormed, NonEmpty, ValidNames, Step, AbstractStep, Faithful, Tearing;
    StandsMeans(c, st, s);
    if calls != [] {
      var q, w := calls[0].request, calls[0].weather;
      var middle := AbstractStep(c, st, q, w).0;
      StepRefines(c, s, st, q, w);
      TearingTears(c, s, st, calls[0]);
      if middle.torn { TornStays(c, middle, calls[1..]); } else { RunTears(c, StepCall(c, s, calls[0]), middle, calls[1..]); }
    }
  }

  // ----- the guarantees a reader of the ledger has -----

  ghost predicate HistoriesGrown(before: seq<History>, after: seq<History>) {
    forall k :: FindHistory(before, k).Some? ==>
                  FindHistory(after, k).Some? && GrownFrom(FindHistory(before, k).value.frames, FindHistory(after, k).value.frames)
  }

  lemma ReadableStands(c: Codec, s: Store) returns (st: State)
    requires Faithful(c) && ValidNames(s) && View(c, s).Success?
    ensures Stands(c, st, s) && !st.torn
  {
    hide View, WellFormed, NonEmpty, Represents, Faithful, ValidNames;
    var hs := ViewSucceeds(c, s);
    st := State(hs, false);
  }

  lemma GrownHistories(c: Codec, hs: Ledger, after: Ledger)
    requires WellFormed(c, hs) && NonEmpty(hs) && WellFormed(c, after) && NonEmpty(after) && Grown(hs, after)
    ensures HistoriesGrown(Histories(c, hs), Histories(c, after))
  {
    hide WellFormed, NonEmpty, Histories, GrownFrom, FindHistory, RecoveryOf;
    forall k | FindHistory(Histories(c, hs), k).Some?
      ensures FindHistory(Histories(c, after), k).Some?
      ensures GrownFrom(FindHistory(Histories(c, hs), k).value.frames, FindHistory(Histories(c, after), k).value.frames)
    {
      LedgerHistoryFound(c, hs, k);
      LedgerHistoryFound(c, after, k);
    }
  }

  lemma HistoriesAreUnique(c: Codec, rs: seq<Record>)
    requires ReplayRecords(c, rs).Success?
    ensures UniqueOpenSources(ReplayRecords(c, rs).value)
  {
    hide DecodeAll, Groups, ReplayGroups, UniqueOpenSources;
  }

  /** From a readable ledger, after any calls whatever: at most 128 records, none of them changed; readable exactly
      if no publication was torn; and then every history still there, extended at the end only, closed and v1
      histories not at all, and at most one recovery open for each source. */
  lemma LedgerSafety(c: Codec, s: Store, calls: seq<Call>)
    requires Faithful(c) && ValidNames(s) && View(c, s).Success?
    ensures |Run(c, s, calls)| <= 128 && Contains(Run(c, s, calls), s)
    ensures View(c, Run(c, s, calls)).Success? <==> !SomeTear(c, s, calls)
    ensures View(c, Run(c, s, calls)).Success? ==>
              && HistoriesGrown(View(c, s).value, View(c, Run(c, s, calls)).value)
              && UniqueOpenSources(View(c, Run(c, s, calls)).value)
  {
    hide *;
    var st := ReadableStands(c, s);
    StandsMeans(c, st, s);
    var t, after := Run(c, s, calls), AbstractRun(c, st, calls);
    RunKeepsRecords(c, s, calls);
    RunRefines(c, s, st, calls);
    RunTears(c, s, st, calls);
    StandsMeans(c, after, t);
    StandsBounded(c, after, t);
    if !after.torn {
      RunGrows(c, st, calls);
      GrownHistories(c, st.hs, after.hs);
      ViewIsUnique(c, t);
    }
  }

  lemma StandsBounded(c: Codec, st: State, s: Store)
    requires Stands(c, st, s)
    ensures |s| <= 128
  {
  }

  lemma ViewIsUnique(c: Codec, s: Store)
    requires ValidNames(s) && View(c, s).Success?
    ensures UniqueOpenSources(View(c, s).value)
  {
    hide ReplayRecords, Listing, ValidNames, UniqueOpenSources;
    HistoriesAreUnique(c, Listing(s));
  }

  // ----- what an answer means -----

  /** f is the frame request q asks for, and the ledger grew by exactly f. */
  ghost predicate GrewBy(c: Codec, hs: Ledger, q: Request, after: Ledger, f: Frame) {
    && Continues(c, hs, f) && after == AddFrame(hs, f)
    && match q
       case Reserve(b) => f == IntentFrame(b) && KeyOf(b) !in hs
       case Advance(k, t) => k in hs && KeyOf(f.binding) == k && f.fact == t
  }

  /** The ledger is unchanged or has grown by the requested frame; without an error it has grown, and the ticket is
      the one of the new frame. */
  lemma AbstractAnswers(c: Codec, st: State, q: Request, w: Weather) returns (f: Option<Frame>)
    requires WellFormed(c, st.hs) && NonEmpty(st.hs)
    ensures var (after, a) := AbstractStep(c, st, q, w);
            && (if f.Some? then GrewBy(c, st.hs, q, after.hs, f.value) && !st.torn && !after.torn else after.hs == st.hs)
            && (a.error.None? ==> f.Some? && a.ticket == Some(Ticket(c, f.value)))
            && (a.error.Some? ==> w.publication != Created(None) || f.None?)
  {
    hide WellFormed, NonEmpty, AbstractPlan, Continues, Drafted, Kept, Size, AddFrame, Ticket;
    var plan := AbstractPlan(c, st, q, w);
    f := None;
    if plan.Success? {
      var g := plan.value.frame;
      PlanContinues(c, st, q, w, plan.value);
      if Kept(st.hs, IdOf(g)).None? {
        PlanAsked(c, st, q, w, plan.value);
        if !w.publication.NotCreated? && !(w.publication.Torn? && w.publication.kept < |plan.value.contents|) { f := Some(g); }
      }
    }
  }

  lemma PlanAsked(c: Codec, st: State, q: Request, w: Weather, d: Draft)
    requires WellFormed(c, st.hs) && NonEmpty(st.hs) && AbstractPlan(c, st, q, w) == Success(d)
    requires Kept(st.hs, IdOf(d.frame)).None?
    ensures GrewBy(c, st.hs, q, AddFrame(st.hs, d.frame), d.frame)
  {
    hide WellFormed, NonEmpty, EncodeFrame, Size, Continues, Append, AddFrame, Kept;
    DecidedContinues(c, st.hs, q, d.frame);
  }

  lemma GrewTicket(c: Codec, hs: Ledger, q: Request, after: Ledger, f: Frame)
    requires GrewBy(c, hs, q, after, f)
    ensures KeyOf(f.binding) in after && after[KeyOf(f.binding)] == (if KeyOf(f.binding) in hs then hs[KeyOf(f.binding)] else []) + [f]
    ensures RecoveryOf(c, after[KeyOf(f.binding)]) == Ticket(c, f)
  {
    hide Continues, DigestOf;
  }

  /** A call that returns no error has published: the ledger can still be read, and it shows the ticket as the new
      state of the recovery, its history longer by the one frame that was asked for. */
  lemma AnswerIsTrue(c: Codec, s: Store, q: Request, w: Weather)
    requires Faithful(c) && ValidNames(s) && View(c, s).Success? && Step(c, s, q, w).1.error.None?
    ensures Step(c, s, q, w).1.ticket.Some? && View(c, Step(c, s, q, w).0).Success?
    ensures var ticket := Step(c, s, q, w).1.ticket.value;
            var k := KeyOf(ticket.binding);
            var before, after := FindHistory(View(c, s).value, k), FindHistory(View(c, Step(c, s, q, w).0).value, k);
            && after.Some? && after.value.recovery == ticket
            && (q.Reserve? ==> ticket.binding == q.binding && ticket.fact == INTENT && before.None?)
            && (q.Advance? ==> k == q.key && ticket.fact == q.fact && before.Some? && before.value.frames < after.value.frames)
  {
    hide *;
    var st := ReadableStands(c, s);
    StandsMeans(c, st, s);
    StepRefines(c, s, st, q, w);
    var f := AbstractAnswers(c, st, q, w);
    var after := AbstractStep(c, st, q, w).0;
    StandsMeans(c, after, Step(c, s, q, w).0);
    var k := KeyOf(f.value.binding);
    GrewTicket(c, st.hs, q, after.hs, f.value);
    TicketFields(c, st.hs, q, after.hs, f.value);
    LedgerHistoryFound(c, st.hs, k);
    LedgerHistoryFound(c, after.hs, k);
  }

  lemma TicketFields(c: Codec, hs: Ledger, q: Request, after: Ledger, f: Frame)
    requires GrewBy(c, hs, q, after, f)
    ensures Ticket(c, f).binding == f.binding && Ticket(c, f).fact == f.fact
    ensures KeyOf(Ticket(c, f).binding) == KeyOf(f.binding)
    ensures q.Reserve? ==> f.binding == q.binding && f.fact == INTENT && KeyOf(f.binding) !in hs
    ensures q.Advance? ==> KeyOf(f.binding) == q.key && q.key in hs && f.fact == q.fact
  {
    hide Continues, DigestOf, AddFrame;
  }

  /** What a request asks for. */
  function AskedFact(q: Request): Fact {
    match q case Reserve(_) => INTENT case Advance(_, t) => t
  }

  function AskedKey(q: Request): Key {
    match q case Reserve(b) => KeyOf(b) case Advance(k, _) => k
  }

  lemma DecidedTicket(c: Codec, hs: Ledger, q: Request, f: Frame)
    requires WellFormed(c, hs) && NonEmpty(hs) && Decide(c, hs, q) == Success(f)
    ensures KeyOf(f.binding) == AskedKey(q) && f.fact == AskedFact(q)
    ensures q.Reserve? ==> f.binding == q.binding
    ensures q.Advance? ==> q.key in hs && f.binding == hs[q.key][0].binding
  {
    hide WellFormed, NonEmpty, Append, EncodeFrame, SourceOpen, Size, ValidHistory;
    match q
    case Reserve(b) =>
    case Advance(k, t) =>
      HistoryOf(c, hs, k);
      AppendContinues(c, hs[k], t, f);
  }

  lemma PlannedTicket(c: Codec, st: State, q: Request, w: Weather, d: Draft)
    requires WellFormed(c, st.hs) && NonEmpty(st.hs) && AbstractPlan(c, st, q, w) == Success(d)
    ensures KeyOf(d.frame.binding) == AskedKey(q) && d.frame.fact == AskedFact(q)
    ensures q.Reserve? ==> d.frame.binding == q.binding
    ensures q.Advance? ==> q.key in st.hs && d.frame.binding == st.hs[q.key][0].binding
  {
    hide WellFormed, NonEmpty, Decide, AskedKey, AskedFact, EncodeFrame;
    DecidedTicket(c, st.hs, q, d.frame);
  }

  /** What the recovery of a request is bound to: the reserved binding, or the retained one. */
  predicate BoundTo(view: seq<History>, q: Request, b: Binding) {
    match q
    case Reserve(reserved) => b == reserved
    case Advance(k, _) => FindHistory(view, k).Some? && FindHistory(view, k).value.recovery.binding == b
  }

  lemma RetainedBinding(c: Codec, hs: Ledger, k: Key)
    requires WellFormed(c, hs) && NonEmpty(hs) && k in hs
    ensures FindHistory(Histories(c, hs), k).Some? && FindHistory(Histories(c, hs), k).value.recovery.binding == hs[k][0].binding
  {
    LedgerHistoryFound(c, hs, k);
    HistoryOf(c, hs, k);
    HistoryFacts(c, hs[k]);
    hide Histories, FindHistory, DigestOf;
  }

  /** A ticket, also one that comes with an interruption, is for the requested recovery, binding and fact. */
  lemma TicketIsAsked(c: Codec, s: Store, q: Request, w: Weather)
    requires Faithful(c) && ValidNames(s) && Step(c, s, q, w).1.ticket.Some?
    ensures View(c, s).Success?
    ensures var ticket := Step(c, s, q, w).1.ticket.value; KeyOf(ticket.binding) == AskedKey(q) && ticket.fact == AskedFact(q)
    ensures BoundTo(View(c, s).value, q, Step(c, s, q, w).1.ticket.value.binding)
  {
    TicketMeansPlan(c, s, q, w);
    hide *;
    var st := ReadableStands(c, s);
    StandsMeans(c, st, s);
    PlansAgree(c, s, st, q, w);
    var d := Plan(c, s, q, w).value;
    PlannedTicket(c, st, q, w, d);
    TicketBinding(c, d.frame);
    PlannedBound(c, st.hs, q, d.frame.binding);
  }

  lemma PlannedBound(c: Codec, hs: Ledger, q: Request, b: Binding)
    requires WellFormed(c, hs) && NonEmpty(hs)
    requires q.Reserve? ==> b == q.binding
    requires q.Advance? ==> q.key in hs && b == hs[q.key][0].binding
    ensures BoundTo(Histories(c, hs), q, b)
  {
    hide Histories, FindHistory, WellFormed;
    if q.Advance? { RetainedBinding(c, hs, q.key); }
  }

  lemma TicketMeansPlan(c: Codec, s: Store, q: Request, w: Weather)
    requires ValidNames(s) && Step(c, s, q, w).1.ticket.Some?
    ensures View(c, s).Success? && Plan(c, s, q, w).Success?
    ensures Step(c, s, q, w).1.ticket.value == Ticket(c, Plan(c, s, q, w).value.frame)
  {
    hide View, NextFrame, Admit, ValidNames, Ticket;
  }

  lemma TicketBinding(c: Codec, f: Frame)
    ensures Ticket(c, f).binding == f.binding && Ticket(c, f).fact == f.fact
  {
    hide DigestOf;
  }

  /** An error does not mean that nothing was written. Without a ticket to reload, something was written exactly
      when a fresh record was created whole and only the closing recheck of the session failed. */
  lemma SilentCreation(c: Codec, s: Store, q: Request, w: Weather)
    requires ValidNames(s)
    ensures var (t, a) := Step(c, s, q, w);
            t != s && a.ticket.None? <==>
              && Plan(c, s, q, w).Success? && IdOf(Plan(c, s, q, w).value.frame) !in s
              && w.publication.Created? && w.publication.report.Some? && w.publication.report != Some(Interrupted)
  {
    hide Plan, ValidNames, Ticket;
    var plan := Plan(c, s, q, w);
    if plan.Success? && Step(c, s, q, w).0 != s { assert IdOf(plan.value.frame) !in s; }
    if plan.Success? && IdOf(plan.value.frame) !in s && !w.publication.NotCreated? {
      assert IdOf(plan.value.frame) in Step(c, s, q, w).0;
    }
  }
}
