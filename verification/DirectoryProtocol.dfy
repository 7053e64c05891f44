/** The clients over the directory of record files itself: the guarantees of the protocol, read off the bytes. */
module DirectoryProtocol {
  import opened Base
  import opened RecoveryGraph
  import opened RecordName
  import opened RecoveryChain
  import opened LedgerRecords
  import opened LedgerInventory
  import opened LedgerStore
  import opened LedgerSteps
  import opened LedgerRuns
  import opened Books
  import opened Clients
  import opened ClientSafety
  import opened Durability
  import opened Protocol

  // ----- the world of files -----

  /** durable: the record names that a confirmed publication has made safe. The book of the scene is what the last
      successful read of the directory showed. */
  datatype Site = Site(files: Store, durable: set<RecordId>, scene: Scene, requests: map<nat, Binding>)

  /** A client's step, a record that loses its tail, or a power loss after which the directory holds `kept`. */
  datatype Happening =
    | Step(action: Action)
    | Truncate(id: RecordId, length: nat)
    | LosePower(kept: Store)

  /** The book that the replayed histories show. */
  function BookOfView(view: seq<History>): Book {
    if view == [] then map[]
    else
      var n := |view| - 1;
      var rest := BookOfView(view[..n]);
      if view[n].frames == [] then rest else rest[KeyOf(view[n].recovery.binding) := EntryOf(view[n].frames)]
  }

  ghost function ReadBook(c: Codec, files: Store, last: Book): Book
    requires ValidNames(files)
  {
    if View(c, files).Success? then BookOfView(View(c, files).value) else last
  }

  /** What a step that does not call the ledger can see of it. */
  ghost function Shadow(c: Codec, d: Site): (w: World)
    requires ValidNames(d.files)
    ensures NonEmpty(w.ledger.hs)
  {
    World(State(map[], View(c, d.files).Failure?), map[], d.scene, d.requests)
  }

  /** Confirmed records stay as they are; of the others a power loss may take all, or the tail. */
  predicate Remains(d: Site, kept: Store) {
    && d.durable <= kept.Keys <= d.files.Keys
    && forall id :: id in kept ==> kept[id] <= d.files[id] && (id in d.durable ==> kept[id] == d.files[id])
  }

  ghost function Happens(c: Codec, d: Site, h: Happening): (after: Site)
    requires ValidNames(d.files)
    ensures ValidNames(after.files)
  {
    match h
    case Step(CallLedger(i, weather)) =>
      var w := Shadow(c, d);
      if i !in d.scene.clients || RequestOf(w, i).None? then d
      else
        var (files, answer) := LedgerSteps.Step(c, d.files, RequestOf(w, i).value, weather);
        var ok := answer.error.None?;
        Site(files, if ok then files.Keys else d.durable, Calls(d.scene, i, ReadBook(c, files, d.scene.book), ok), d.requests)
    case Step(RecordLost) => d
    case Step(PowerLoss(_, _)) => d
    case Step(a) =>
      var w := Does(c, Shadow(c, d), a);
      d.(scene := w.scene, requests := w.requests)
    case Truncate(id, length) =>
      if id in d.files && length < |d.files[id]| then d.(files := d.files[id := d.files[id][..length]]) else d
    case LosePower(kept) =>
      if !Remains(d, kept) then d
      else Site(kept, kept.Keys, StoppedWith(d.scene, ReadBook(c, kept, d.scene.book)), d.requests)
  }

  function StoppedWith(sc: Scene, book: Book): Scene {
    sc.(book := book, clients := map i | i in sc.clients :: sc.clients[i].(phase := Stopped))
  }

  ghost function RunSite(c: Codec, d: Site, hs: seq<Happening>): (after: Site)
    requires ValidNames(d.files)
    ensures ValidNames(after.files)
    decreases |hs|
  {
    hide Happens, ValidNames;
    if hs == [] then d else RunSite(c, Happens(c, d, hs[0]), hs[1..])
  }

  // ----- what is read is the book of the ledger -----

  lemma {:induction false} BookOfHistories(c: Codec, hs: Ledger, keys: seq<Key>)
    requires WellFormed(c, hs) && NonEmpty(hs) && forall k :: k in keys ==> k in hs
    ensures BookOfView(HistoriesFor(c, hs, keys)) == map k | k in keys :: EntryOf(hs[k])
    decreases |keys|
  {
    hide WellFormed, NonEmpty, EntryOf, RecoveryOf;
    if keys != [] {
      var n := |keys| - 1;
      BookOfHistories(c, hs, keys[..n]);
      RecoveryKey(c, hs, keys[n]);
      assert HistoriesFor(c, hs, keys)[..n] == HistoriesFor(c, hs, keys[..n]);
      hide HistoriesFor;
      BookOfOneMore(hs, keys[..n], keys[n]);
      assert keys == keys[..n] + [keys[n]];
    }
  }

  lemma BookOfOneMore(hs: Ledger, keys: seq<Key>, k: Key)
    requires NonEmpty(hs) && k in hs && forall l :: l in keys ==> l in hs
    ensures (map l | l in keys + [k] :: EntryOf(hs[l])) == (map l | l in keys :: EntryOf(hs[l]))[k := EntryOf(hs[k])]
  {
    hide EntryOf;
  }

  lemma RecoveryKey(c: Codec, hs: Ledger, k: Key)
    requires WellFormed(c, hs) && NonEmpty(hs) && k in hs
    ensures KeyOf(RecoveryOf(c, hs[k]).binding) == k && hs[k] != []
  {
    HistoryIs(c, hs, k);
    LastBinding(c, hs[k]);
  }

  lemma LastBinding(c: Codec, h: seq<Frame>)
    requires ValidHistory(c, h)
    ensures RecoveryOf(c, h).binding == h[0].binding
  {
    assert Chained(c, h, |h| - 1);
    hide DigestOf, FrameDigest;
  }

  lemma ReadShowsBook(c: Codec, hs: Ledger)
    requires WellFormed(c, hs) && NonEmpty(hs)
    ensures BookOfView(Histories(c, hs)) == BookOf(hs)
  {
    hide *;
    KeysOf(hs);
    BookOfHistories(c, hs, SortedKeys(hs.Keys));
    HistoriesAre(c, hs);
    BookByKeys(hs, SortedKeys(hs.Keys));
  }

  lemma HistoriesAre(c: Codec, hs: Ledger)
    requires NonEmpty(hs) && forall k :: k in SortedKeys(hs.Keys) ==> k in hs
    ensures Histories(c, hs) == HistoriesFor(c, hs, SortedKeys(hs.Keys))
  {
    hide HistoriesFor, SortedKeys, NonEmpty;
  }

  lemma BookByKeys(hs: Ledger, keys: seq<Key>)
    requires NonEmpty(hs) && forall k :: k in keys <==> k in hs
    ensures (map k | k in keys :: EntryOf(hs[k])) == BookOf(hs)
  {
    hide EntryOf;
  }

  // ----- the directory stands for a ledger -----

  /** Of these bytes the whole decodes, if anything does, and only to the frame that the ledger has under the name. */
  ghost predicate Telling(c: Codec, hs: Ledger, id: RecordId, contents: bytes) {
    forall n: nat :: n <= |contents| ==> TellsAt(c, hs, id, contents, n)
  }

  predicate TellsAt(c: Codec, hs: Ledger, id: RecordId, contents: bytes, n: nat)
    requires n <= |contents|
  {
    match DecodeRecord(c, Record(id, contents[..n]))
    case Failure(_) => true
    case Success(f) => n == |contents| && Kept(hs, id) == Some(f)
  }

  ghost predicate Decodable(c: Codec, hs: Ledger, s: Store) {
    forall id :: id in s ==> Telling(c, hs, id, s[id])
  }

  /** Every frame of the ledger l is a durable record. */
  ghost predicate Confirmed(l: Ledger, ids: set<RecordId>) {
    forall id :: Kept(l, id).Some? ==> id in ids
  }

  /** The directory d stands for the world w. After a power loss that left it unreadable nothing can be lost any more
      and it stays so. */
  ghost predicate StandsFor(c: Codec, d: Site, w: World) {
    && w.scene == d.scene && w.requests == d.requests
    && Stands(c, w.ledger, d.files) && Decodable(c, w.ledger.hs, d.files) && d.durable <= d.files.Keys
    && (Confirmed(w.durable, d.durable) || (w.ledger.torn && d.files.Keys <= d.durable))
  }

  lemma WholeFrameTells(c: Codec, hs: Ledger, id: RecordId, f: Frame)
    requires Faithful(c) && Kept(hs, id) == Some(f) && IdOf(f) == id && EncodeFrame(c, f).Success?
    ensures Telling(c, hs, id, EncodeFrame(c, f).value)
  {
    var contents := EncodeFrame(c, f).value;
    hide Kept, EncodeFrame, Faithful;
    forall n: nat | n <= |contents| ensures TellsAt(c, hs, id, contents, n) {
      if n < |contents| {
        TornNeverDecodes(c, f, n);
      } else {
        assert contents[..n] == contents;
        DecodeRecordExactly(c, Record(id, contents), f);
      }
    }
  }

  lemma TornTells(c: Codec, hs: Ledger, id: RecordId, f: Frame, kept: nat)
    requires Faithful(c) && EncodeFrame(c, f).Success? && kept < |EncodeFrame(c, f).value|
    ensures Telling(c, hs, id, EncodeFrame(c, f).value[..kept])
  {
    var contents := EncodeFrame(c, f).value;
    hide Kept, EncodeFrame, Faithful;
    forall n: nat | n <= kept ensures TellsAt(c, hs, id, contents[..kept], n) {
      TornNeverDecodes(c, f, n);
      assert contents[..kept][..n] == contents[..n];
    }
  }

  /** Less of the bytes tells no more. */
  lemma ShorterTells(c: Codec, hs: Ledger, id: RecordId, contents: bytes, m: nat)
    requires Telling(c, hs, id, contents) && m <= |contents|
    ensures Telling(c, hs, id, contents[..m])
    ensures m < |contents| ==> DecodeRecord(c, Record(id, contents[..m])).Failure?
  {
    hide DecodeRecord, Kept;
    forall n: nat | n <= m ensures TellsAt(c, hs, id, contents[..m], n) {
      assert TellsAt(c, hs, id, contents, n);
      assert contents[..m][..n] == contents[..n];
    }
    assert TellsAt(c, hs, id, contents, m);
  }

  lemma RepresentedDecodable(c: Codec, hs: Ledger, s: Store)
    requires Faithful(c) && WellFormed(c, hs) && Represents(c, hs, s)
    ensures Decodable(c, hs, s)
  {
    hide WellFormed, Kept, EncodeFrame, Telling, Faithful;
    forall id | id in s ensures Telling(c, hs, id, s[id]) {
      KeptFrame(c, hs, id);
      WholeFrameTells(c, hs, id, Kept(hs, id).value);
    }
  }

  lemma RepresentedConfirmed(c: Codec, hs: Ledger, s: Store)
    requires Represents(c, hs, s)
    ensures Confirmed(hs, s.Keys)
  {
    hide Kept, RecordOf;
  }

  lemma TornReads(c: Codec, d: Site, w: World)
    requires Faithful(c) && StandsFor(c, d, w)
    ensures ValidNames(d.files) && NonEmpty(w.ledger.hs) && WellFormed(c, w.ledger.hs)
    ensures w.ledger.torn <==> View(c, d.files).Failure?
    ensures !w.ledger.torn ==> Represents(c, w.ledger.hs, d.files) && View(c, d.files) == Success(Histories(c, w.ledger.hs))
  {
    hide Stands, WellFormed, NonEmpty, ValidNames, View, Represents, Faithful, Decodable, Confirmed, Histories, Size;
    StandsMeans(c, w.ledger, d.files);
  }

  lemma BookRead(c: Codec, hs: Ledger, s: Store, last: Book)
    requires Faithful(c) && WellFormed(c, hs) && NonEmpty(hs) && ValidNames(s) && last == BookOf(hs)
    requires View(c, s).Success? ==> View(c, s) == Success(Histories(c, hs))
    ensures ReadBook(c, s, last) == BookOf(hs)
  {
    hide WellFormed, NonEmpty, ValidNames, View, Histories, BookOf, BookOfView;
    if View(c, s).Success? { ReadShowsBook(c, hs); }
  }

  // ----- ledger calls -----

  /** A call that leaves the directory unreadable left a beginning of its frame under a new name. */
  lemma TearLeaves(c: Codec, s: Store, st: State, q: Request, w: Weather)
    requires Faithful(c) && Stands(c, st, s) && !st.torn
    ensures NonEmpty(st.hs) && ValidNames(s)
    ensures AbstractStep(c, st, q, w).0.torn ==>
              var plan := Plan(c, s, q, w); var kept := w.publication.kept;
              && w.publication.Torn? && plan.Success? && Drafted(c, plan.value) && IdOf(plan.value.frame) !in s && kept < |plan.value.contents|
              && LedgerSteps.Step(c, s, q, w).0 == s[IdOf(plan.value.frame) := plan.value.contents[..kept]]
              && AbstractStep(c, st, q, w).0.hs == st.hs
  {
    hide WellFormed, Plan, AbstractPlan, Faithful, View, Represents, Kept, Drafted, AddFrame;
    StandsMeans(c, st, s);
    PlansAgree(c, s, st, q, w);
    var plan := Plan(c, s, q, w);
    if plan.Success? {
      PlanDrafts(c, s, q, w);
      Taken(c, st.hs, s, IdOf(plan.value.frame));
    }
  }

  lemma TornDecodable(c: Codec, hs: Ledger, s: Store, d: Draft, kept: nat)
    requires Faithful(c) && Decodable(c, hs, s) && Drafted(c, d) && kept < |d.contents|
    ensures Decodable(c, hs, s[IdOf(d.frame) := d.contents[..kept]])
  {
    hide Faithful, EncodeFrame, Telling;
    TornTells(c, hs, IdOf(d.frame), d.frame, kept);
  }

  /** A call of the ledger on the directory is the same call on the ledger it stands for. */
  lemma CallStandsFor(c: Codec, d: Site, w: World, i: nat, weather: Weather)
    requires Faithful(c) && Safe(c, w) && StandsFor(c, d, w) && NonEmpty(w.ledger.hs) && ValidNames(d.files)
    ensures StandsFor(c, Happens(c, d, Step(CallLedger(i, weather))), Does(c, w, CallLedger(i, weather)))
  {
    hide Safe, Stands, WellFormed, NonEmpty, ValidNames, View, Represents, Faithful, Decodable, Confirmed, BookOf, ReadBook, AbstractStep,
      LedgerSteps.Step, Calls, Asks;
    if i in w.scene.clients && RequestOf(w, i).Some? {
      var q := RequestOf(w, i).value;
      assert RequestOf(Shadow(c, d), i) == RequestOf(w, i);
      SafeParts(c, w);
      CallFiles(c, d, w, q, weather);
      CallBook(c, d, w, q, weather);
    }
  }

  /** The files after a call stand for the ledger after it. */
  lemma CallFiles(c: Codec, d: Site, w: World, q: Request, weather: Weather)
    requires Faithful(c) && StandsFor(c, d, w) && NonEmpty(w.ledger.hs) && ValidNames(d.files)
    ensures var (files, a) := LedgerSteps.Step(c, d.files, q, weather);
            var (st, b) := AbstractStep(c, w.ledger, q, weather);
            var ids := if a.error.None? then files.Keys else d.durable;
            var durable := if b.error.None? then st.hs else w.durable;
            && a.error.None? == b.error.None? && Stands(c, st, files) && Decodable(c, st.hs, files) && ids <= files.Keys
            && (Confirmed(durable, ids) || (st.torn && files.Keys <= ids))
  {
    hide Stands, WellFormed, NonEmpty, ValidNames, View, Represents, Faithful, Decodable, Confirmed, AbstractStep, LedgerSteps.Step, Contains;
    TornReads(c, d, w);
    StepRefines(c, d.files, w.ledger, q, weather);
    var files, st := LedgerSteps.Step(c, d.files, q, weather).0, AbstractStep(c, w.ledger, q, weather).0;
    FilesStay(c, d.files, q, weather);
    if w.ledger.torn {
      StaysTorn(c, w.ledger, q, weather);
    } else if st.torn {
      TearLeaves(c, d.files, w.ledger, q, weather);
      TornDecodable(c, st.hs, d.files, Plan(c, d.files, q, weather).value, weather.publication.kept);
      TornFails(c, w.ledger, q, weather);
    } else {
      StandsMeans(c, st, files);
      RepresentedDecodable(c, st.hs, files);
      RepresentedConfirmed(c, st.hs, files);
    }
  }

  lemma FilesStay(c: Codec, s: Store, q: Request, w: Weather)
    requires ValidNames(s)
    ensures s.Keys <= LedgerSteps.Step(c, s, q, w).0.Keys
  {
    hide LedgerSteps.Step;
    StepKeepsRecords(c, s, Call(q, w));
  }

  lemma StaysTorn(c: Codec, st: State, q: Request, w: Weather)
    requires NonEmpty(st.hs) && st.torn
    ensures AbstractStep(c, st, q, w).0 == st && AbstractStep(c, st, q, w).1.error.Some?
  {
    hide NonEmpty, Decide, Admit, DraftOf;
  }

  lemma TornFails(c: Codec, st: State, q: Request, w: Weather)
    requires NonEmpty(st.hs) && !st.torn && AbstractStep(c, st, q, w).0.torn
    ensures AbstractStep(c, st, q, w).1.error.Some? && AbstractStep(c, st, q, w).0.hs == st.hs
  {
    hide NonEmpty, AbstractPlan;
  }

  /** And what they show is its book. */
  lemma CallBook(c: Codec, d: Site, w: World, q: Request, weather: Weather)
    requires Faithful(c) && StandsFor(c, d, w) && NonEmpty(w.ledger.hs) && ValidNames(d.files) && w.scene.book == BookOf(w.ledger.hs)
    ensures ReadBook(c, LedgerSteps.Step(c, d.files, q, weather).0, d.scene.book) == BookOf(AbstractStep(c, w.ledger, q, weather).0.hs)
  {
    hide Stands, WellFormed, NonEmpty, ValidNames, View, Represents, Faithful, Decodable, Confirmed, AbstractStep, LedgerSteps.Step, ReadBook, BookOf, Histories;
    TornReads(c, d, w);
    StepRefines(c, d.files, w.ledger, q, weather);
    var files, st := LedgerSteps.Step(c, d.files, q, weather).0, AbstractStep(c, w.ledger, q, weather).0;
    StandsMeans(c, st, files);
    if st.torn {
      if w.ledger.torn { StaysTorn(c, w.ledger, q, weather); } else { TornFails(c, w.ledger, q, weather); }
      BookRead(c, st.hs, files, d.scene.book);
    } else {
      ReadNow(c, st.hs, files, d.scene.book);
    }
  }

  lemma ReadNow(c: Codec, hs: Ledger, s: Store, last: Book)
    requires WellFormed(c, hs) && NonEmpty(hs) && ValidNames(s) && View(c, s) == Success(Histories(c, hs))
    ensures ReadBook(c, s, last) == BookOf(hs)
  {
    hide WellFormed, NonEmpty, ValidNames, View, Histories, BookOf, BookOfView;
    ReadShowsBook(c, hs);
  }

  // ----- the other steps -----

  /** A step that does not call the ledger looks only at whether it can be read. */
  lemma SeesNoMore(c: Codec, w: World, v: World, a: Action)
    requires NonEmpty(w.ledger.hs) && NonEmpty(v.ledger.hs) && !a.CallLedger? && !a.RecordLost? && !a.PowerLoss?
    requires w.scene == v.scene && w.requests == v.requests && w.ledger.torn == v.ledger.torn
    ensures Does(c, w, a).scene == Does(c, v, a).scene && Does(c, w, a).requests == Does(c, v, a).requests
    ensures Does(c, w, a).ledger == w.ledger && Does(c, w, a).durable == w.durable
  {
    hide NonEmpty, Acts, Asks, BookOf, AbstractStep, Survives, Rebooted;
  }

  lemma ActStandsFor(c: Codec, d: Site, w: World, a: Action)
    requires Faithful(c) && StandsFor(c, d, w) && NonEmpty(w.ledger.hs) && ValidNames(d.files)
    requires !a.CallLedger? && !a.RecordLost? && !a.PowerLoss?
    ensures StandsFor(c, Happens(c, d, Step(a)), Does(c, w, a))
  {
    hide Stands, WellFormed, NonEmpty, ValidNames, View, Represents, Faithful, Decodable, Confirmed, Does;
    TornReads(c, d, w);
    SeesNoMore(c, w, Shadow(c, d), a);
  }

  /** A record without its tail does not decode, so the directory cannot be read. */
  lemma TruncateStandsFor(c: Codec, d: Site, w: World, id: RecordId, length: nat)
    requires Faithful(c) && StandsFor(c, d, w) && NonEmpty(w.ledger.hs) && ValidNames(d.files)
    requires id in d.files && length < |d.files[id]|
    ensures StandsFor(c, Happens(c, d, Truncate(id, length)), Does(c, w, RecordLost))
  {
    hide Stands, WellFormed, NonEmpty, ValidNames, View, Represents, Faithful, Decodable, Confirmed;
    TruncatedFiles(c, w.ledger, d.files, id, length);
  }

  lemma TruncatedFiles(c: Codec, st: State, s: Store, id: RecordId, length: nat)
    requires Faithful(c) && Stands(c, st, s) && Decodable(c, st.hs, s) && id in s && length < |s[id]|
    ensures var t := s[id := s[id][..length]];
            Stands(c, st.(torn := true), t) && Decodable(c, st.hs, t) && t.Keys == s.Keys
  {
    hide WellFormed, NonEmpty, View, Represents, Faithful, Telling, DecodeRecord, Size, Kept;
    var t := s[id := s[id][..length]];
    ShorterTells(c, st.hs, id, s[id], length);
    assert t.Keys == s.Keys;
    SameSize(t, s);
    if View(c, t).Success? {
      ReadRecordDecodes(c, t, Record(id, t[id]));
      assert false;
    }
  }

  lemma SameSize(s: Store, t: Store)
    requires s.Keys == t.Keys
    ensures |s| == |t|
  {
    assert |s| == |s.Keys| && |t| == |t.Keys|;
  }

  // ----- a power loss -----

  /** What can be read after a power loss is a part of the ledger that holds everything confirmed. */
  lemma RemainsSurvive(c: Codec, d: Site, w: World, kept: Store, hs: Ledger)
    requires Faithful(c) && Safe(c, w) && StandsFor(c, d, w) && Remains(d, kept) && ValidNames(kept)
    requires WellFormed(c, hs) && NonEmpty(hs) && Represents(c, hs, kept) && View(c, kept).Success?
    ensures Survives(c, w, hs)
  {
    hide Safe, Stands, WellFormed, NonEmpty, ValidNames, View, Represents, Faithful, Decodable, Backed, Extends;
    SafeParts(c, w);
    BackedParts(w.durable, w.ledger.hs, w.scene);
    KeptIsPart(c, d, w, kept, hs);
    if d.files.Keys <= d.durable && w.ledger.torn {
      NothingLost(c, d, w, kept);
      assert false;
    }
    ConfirmedIsKept(c, d, w, kept, hs);
  }

  lemma NothingLost(c: Codec, d: Site, w: World, kept: Store)
    requires Faithful(c) && StandsFor(c, d, w) && Remains(d, kept) && d.files.Keys <= d.durable && w.ledger.torn
    ensures kept == d.files && ValidNames(kept) && View(c, kept).Failure?
  {
    hide Stands, View, Faithful, Decodable, Confirmed, ValidNames;
    TornReads(c, d, w);
    assert kept.Keys == d.files.Keys;
  }

  lemma PartAt(c: Codec, d: Site, w: World, kept: Store, hs: Ledger, id: RecordId)
    requires Faithful(c) && StandsFor(c, d, w) && Remains(d, kept)
    requires WellFormed(c, hs) && Represents(c, hs, kept) && id in kept
    ensures Kept(hs, id).Some? && Kept(w.ledger.hs, id) == Kept(hs, id)
  {
    hide Stands, WellFormed, Faithful, Kept, EncodeFrame, DecodeRecord, Confirmed;
    KeptFrame(c, hs, id);
    var f := Kept(hs, id).value;
    DecodeRecordExactly(c, Record(id, kept[id]), f);
    assert Telling(c, w.ledger.hs, id, d.files[id]);
    assert kept[id] == d.files[id][..|kept[id]|];
    assert TellsAt(c, w.ledger.hs, id, d.files[id], |kept[id]|);
  }

  lemma KeptIsPart(c: Codec, d: Site, w: World, kept: Store, hs: Ledger)
    requires Faithful(c) && StandsFor(c, d, w) && Remains(d, kept)
    requires WellFormed(c, hs) && NonEmpty(hs) && Represents(c, hs, kept)
    ensures Extends(hs, w.ledger.hs)
  {
    hide StandsFor, WellFormed, Faithful, Remains, Represents;
    forall k | k in hs ensures k in w.ledger.hs && hs[k] <= w.ledger.hs[k] {
      FrameIsPart(c, d, w, kept, hs, k, |hs[k]| - 1);
      forall n: nat | n < |hs[k]| ensures hs[k][n] == w.ledger.hs[k][n] { FrameIsPart(c, d, w, kept, hs, k, n); }
    }
  }

  lemma FrameIsPart(c: Codec, d: Site, w: World, kept: Store, hs: Ledger, k: Key, n: nat)
    requires Faithful(c) && StandsFor(c, d, w) && Remains(d, kept)
    requires WellFormed(c, hs) && Represents(c, hs, kept) && k in hs && n < |hs[k]|
    ensures k in w.ledger.hs && n < |w.ledger.hs[k]| && w.ledger.hs[k][n] == hs[k][n]
  {
    hide StandsFor, WellFormed, Faithful, Remains, RecordOf;
    var id := RecordId(k.digest, k.token, n);
    assert Kept(hs, id) == Some(hs[k][n]);
    PartAt(c, d, w, kept, hs, id);
  }

  lemma ConfirmedIsKept(c: Codec, d: Site, w: World, kept: Store, hs: Ledger)
    requires StandsFor(c, d, w) && Confirmed(w.durable, d.durable) && Remains(d, kept) && Represents(c, hs, kept)
    requires Extends(w.durable, w.ledger.hs) && Extends(hs, w.ledger.hs)
    requires NonEmpty(w.durable)
    ensures Extends(w.durable, hs)
  {
    hide StandsFor, RecordOf;
    forall k | k in w.durable ensures k in hs && w.durable[k] <= hs[k] {
      var n := |w.durable[k]| - 1;
      var id := RecordId(k.digest, k.token, n);
      assert Kept(w.durable, id).Some?;
      assert id in kept && Kept(hs, id).Some?;
      assert w.durable[k] <= w.ledger.hs[k] && hs[k] <= w.ledger.hs[k];
    }
  }

  /** After a power loss that leaves the directory readable. */
  lemma ReadableAfterPower(c: Codec, d: Site, w: World, kept: Store) returns (a: Action)
    requires Faithful(c) && Safe(c, w) && StandsFor(c, d, w) && NonEmpty(w.ledger.hs) && ValidNames(d.files) && Remains(d, kept)
    requires ValidNames(kept) && View(c, kept).Success?
    ensures StandsFor(c, Happens(c, d, LosePower(kept)), Does(c, w, a))
  {
    hide Safe, Stands, WellFormed, NonEmpty, ValidNames, View, Represents, Faithful, Decodable, Confirmed, Survives, Remains, ReadBook, BookOf, Histories;
    var hs := ViewSucceeds(c, kept);
    RemainsSurvive(c, d, w, kept, hs);
    RepresentedDecodable(c, hs, kept);
    RepresentedConfirmed(c, hs, kept);
    RepresentedStands(c, hs, kept);
    ReadNow(c, hs, kept, d.scene.book);
    a := PowerLoss(hs, true);
  }

  lemma RepresentedStands(c: Codec, hs: Ledger, s: Store)
    requires WellFormed(c, hs) && NonEmpty(hs) && ValidNames(s) && |s| <= MAXIMUM_RECORDS && Represents(c, hs, s)
    ensures Stands(c, State(hs, false), s)
  {
    hide WellFormed, NonEmpty, ValidNames, Represents;
  }

  /** And after one that does not: the facts are those of its last readable state. */
  lemma UnreadableAfterPower(c: Codec, d: Site, w: World, kept: Store) returns (a: Action)
    requires Faithful(c) && Safe(c, w) && StandsFor(c, d, w) && NonEmpty(w.ledger.hs) && ValidNames(d.files) && Remains(d, kept)
    requires ValidNames(kept) && View(c, kept).Failure?
    ensures StandsFor(c, Happens(c, d, LosePower(kept)), Does(c, w, a))
  {
    hide Safe, Stands, WellFormed, NonEmpty, ValidNames, View, Faithful, Decodable, Confirmed, Remains, BookOf, Backed, Extends, Inv, Started, OwnersV2;
    SafeParts(c, w);
    BackedParts(w.durable, w.ledger.hs, w.scene);
    ExtendsItself(w.ledger.hs);
    StillStands(c, d, w, kept);
    a := PowerLoss(w.ledger.hs, false);
  }

  lemma ExtendsItself(hs: Ledger)
    ensures Extends(hs, hs)
  {
  }

  lemma StillStands(c: Codec, d: Site, w: World, kept: Store)
    requires Faithful(c) && StandsFor(c, d, w) && Remains(d, kept) && ValidNames(kept) && View(c, kept).Failure?
    ensures Stands(c, State(w.ledger.hs, true), kept) && Decodable(c, w.ledger.hs, kept)
  {
    hide WellFormed, NonEmpty, ValidNames, View, Represents, Faithful, Telling, Confirmed;
    assert kept.Keys <= d.files.Keys;
    FewerFiles(kept, d.files);
    forall id | id in kept ensures Telling(c, w.ledger.hs, id, kept[id]) {
      assert kept[id] == d.files[id][..|kept[id]|];
      ShorterTells(c, w.ledger.hs, id, d.files[id], |kept[id]|);
    }
  }

  lemma FewerFiles(s: Store, t: Store)
    requires s.Keys <= t.Keys
    ensures |s| <= |t|
  {
    Subset(s.Keys, t.Keys);
    assert |s| == |s.Keys| && |t| == |t.Keys|;
  }

  lemma {:induction false} Subset<T>(s: set<T>, t: set<T>)
    requires s <= t
    ensures |s| <= |t|
  {
    assert t == s + (t - s) && s !! (t - s);
  }

  // ----- whole runs -----

  /** Whatever happens to the directory, some step of the world follows it. */
  lemma HappeningFollowed(c: Codec, d: Site, w: World, h: Happening) returns (v: World)
    requires Faithful(c) && Safe(c, w) && StandsFor(c, d, w)
    ensures ValidNames(d.files) && Safe(c, v) && StandsFor(c, Happens(c, d, h), v)
  {
    hide Safe, StandsFor, Happens, Does, NonEmpty, WellFormed, Faithful, View, ValidNames, Remains;
    TornReads(c, d, w);
    var a: Action;
    match h {
      case Step(x) =>
        a := x;
        if x.CallLedger? {
          CallStandsFor(c, d, w, x.client, x.weather);
        } else if x.RecordLost? || x.PowerLoss? {
          NoStep(c, d, x);
          return w;
        } else {
          ActStandsFor(c, d, w, x);
        }
      case Truncate(id, length) =>
        if id !in d.files || length >= |d.files[id]| {
          NoTruncation(c, d, id, length);
          return w;
        }
        TruncateStandsFor(c, d, w, id, length);
        a := RecordLost;
      case LosePower(kept) =>
        if !Remains(d, kept) {
          NoPowerLoss(c, d, kept);
          return w;
        }
        RemainingNames(d, kept);
        if View(c, kept).Success? { a := ReadableAfterPower(c, d, w, kept); } else { a := UnreadableAfterPower(c, d, w, kept); }
    }
    StepIsSafe(c, w, a);
    v := Does(c, w, a);
  }

  lemma NoStep(c: Codec, d: Site, a: Action)
    requires ValidNames(d.files) && (a.RecordLost? || a.PowerLoss?)
    ensures Happens(c, d, Step(a)) == d
  {
    hide ValidNames, Does;
  }

  lemma NoTruncation(c: Codec, d: Site, id: RecordId, length: nat)
    requires ValidNames(d.files) && (id !in d.files || length >= |d.files[id]|)
    ensures Happens(c, d, Truncate(id, length)) == d
  {
    hide ValidNames;
  }

  lemma NoPowerLoss(c: Codec, d: Site, kept: Store)
    requires ValidNames(d.files) && !Remains(d, kept)
    ensures Happens(c, d, LosePower(kept)) == d
  {
    hide ValidNames, Remains;
  }

  lemma RemainingNames(d: Site, kept: Store)
    requires ValidNames(d.files) && Remains(d, kept)
    ensures ValidNames(kept)
  {
    hide ValidId;
    assert kept.Keys <= d.files.Keys;
  }

  lemma {:induction false} RunFollowed(c: Codec, d: Site, w: World, hs: seq<Happening>) returns (v: World)
    requires Faithful(c) && Safe(c, w) && StandsFor(c, d, w)
    ensures ValidNames(d.files) && Safe(c, v) && StandsFor(c, RunSite(c, d, hs), v)
    decreases |hs|
  {
    hide Safe, StandsFor, Happens, Faithful, ValidNames;
    TornReads(c, d, w);
    if hs == [] {
      v := w;
    } else {
      var u := HappeningFollowed(c, d, w, hs[0]);
      v := RunFollowed(c, Happens(c, d, hs[0]), u, hs[1..]);
    }
  }

  /** A directory that can be read, all of it durable, no client running, and every content where its record allows. */
  ghost predicate SiteAtRest(c: Codec, d: Site) {
    && ValidNames(d.files) && View(c, d.files).Success? && d.durable == d.files.Keys
    && d.scene.book == BookOfView(View(c, d.files).value) && d.scene.clients == map[] && d.scene.log == []
    && Located(d.scene) && MetadataTruthful(d.scene)
  }

  /** The guarantee, of the facts that the last readable directory showed. */
  predicate BookTellsTruth(sc: Scene) {
    var dispatched := Ordinary(MoveDispatchRecorded);
    && (forall k :: k in sc.book ==> Permits(sc.book[k].fact, At(sc, k)))
    && (forall s :: s in sc.moved ==>
          var k := sc.moved[s]; k in sc.book && sc.book[k].source == s && !Closed(sc.book[k].fact) && Recorded(sc.book[k], dispatched))
    && (forall k :: k in sc.book && !Closed(sc.book[k].fact) && !Recorded(sc.book[k], dispatched) ==> sc.book[k].source !in sc.moved)
    && Once(sc.log)
    && (forall e :: e in sc.log ==> e.key in sc.book && Recorded(sc.book[e.key], DispatchOf(e)))
    && (forall k :: k in sc.book && Closed(sc.book[k].fact) ==> MetadataSays(sc.book[k].fact, k in sc.info))
  }

  /** What the bytes of the directory say is the book, whenever they can be read; and the book is true. */
  ghost predicate DirectoryTellsTruth(c: Codec, d: Site)
    requires ValidNames(d.files)
  {
    BookTellsTruth(d.scene) && (View(c, d.files).Success? ==> d.scene.book == BookOfView(View(c, d.files).value))
  }

  /** From any readable directory of record files at rest, under any interleaving of clients that crash anywhere, of
      lost, unreported and torn publications, of records that lose their tails and of power losses that take records
      nobody was told about: whatever a reader of the directory is shown is true of where the contents are. */
  lemma DirectorySafety(c: Codec, d: Site, hs: seq<Happening>)
    requires Faithful(c) && SiteAtRest(c, d)
    ensures ValidNames(d.files) && DirectoryTellsTruth(c, RunSite(c, d, hs))
  {
    hide Safe, StandsFor, RunSite, ValidNames, Faithful, SiteAtRest, DirectoryTellsTruth;
    var w := RestStandsFor(c, d);
    var v := RunFollowed(c, d, w, hs);
    FollowedTellsTruth(c, RunSite(c, d, hs), v);
  }

  lemma RestStandsFor(c: Codec, d: Site) returns (w: World)
    requires Faithful(c) && SiteAtRest(c, d)
    ensures Safe(c, w) && StandsFor(c, d, w)
  {
    hide Safe, Stands, WellFormed, NonEmpty, ValidNames, View, Represents, Faithful, Decodable, Confirmed, Histories, BookOf, BookOfView, Located, MetadataTruthful;
    var hs := ViewSucceeds(c, d.files);
    RepresentedDecodable(c, hs, d.files);
    RepresentedConfirmed(c, hs, d.files);
    RepresentedStands(c, hs, d.files);
    ReadShowsBook(c, hs);
    w := World(State(hs, false), hs, d.scene, d.requests);
    RestIsSafe(c, w);
  }

  lemma FollowedTellsTruth(c: Codec, d: Site, w: World)
    requires Faithful(c) && Safe(c, w) && StandsFor(c, d, w)
    ensures ValidNames(d.files) && DirectoryTellsTruth(c, d)
  {
    hide Safe, Stands, WellFormed, NonEmpty, ValidNames, View, Represents, Faithful, Decodable, Confirmed, Histories, BookOf, BookOfView,
      LedgerTellsTruth, BookTellsTruth, Inv, Backed, Started, OwnersV2;
    TornReads(c, d, w);
    SafeParts(c, w);
    SafeTellsTruth(c, w);
    TruthOfBook(w);
    if View(c, d.files).Success? { ReadShowsBook(c, w.ledger.hs); }
  }

  lemma TruthOfBook(w: World)
    requires NonEmpty(w.ledger.hs) && LedgerTellsTruth(w) && w.scene.book == BookOf(w.ledger.hs)
    ensures BookTellsTruth(w.scene)
  {
    var hs, sc := w.ledger.hs, w.scene;
    hide BookOf, EntryOf, Facts, Closed, Permits, At, Recorded, DispatchOf, MetadataSays, Once;
    forall k ensures k in sc.book <==> k in hs { BookKey(hs, k); }
    forall k | k in hs ensures sc.book[k] == EntryOf(hs[k]) { BookEntry(hs, k); }
    forall k, f | k in hs ensures Recorded(sc.book[k], f) <==> f in Facts(hs[k]) {
      NonEmptyAt(hs, k);
      RecordedIsFact(hs[k], f);
    }
  }
}
