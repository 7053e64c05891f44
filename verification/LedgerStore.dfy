/** The private ledger directory: immutable record files, how one is published, and what a reader sees. */
module LedgerStore {
  import opened Base
  import opened RecoveryGraph
  import opened RecordName
  import opened RecoveryChain
  import opened LedgerRecords
  import opened LedgerInventory
  import opened Sorting

  /** The record files of the directory, by the identity their name carries. */
  type Store = map<RecordId, bytes>

  predicate ValidNames(s: Store) {
    forall id :: id in s ==> ValidId(id)
  }

  predicate NameLess(a: RecordId, b: RecordId) {
    a.ordinal < 100 && b.ordinal < 100 && Less(Basename(a), Basename(b))
  }

  lemma NameOrder()
    ensures StrictOrder(NameLess)
  {
    hide Less, Basename;
    forall a: RecordId, b: RecordId | NameLess(a, b) ensures !NameLess(b, a) { LessAsymmetric(Basename(a), Basename(b)); }
    forall a: RecordId, b: RecordId, d: RecordId | NameLess(a, b) && NameLess(b, d) ensures NameLess(a, d) {
      LessTransitive(Basename(a), Basename(b), Basename(d));
    }
  }

  lemma NamesComparable(ids: seq<RecordId>)
    requires Distinct(ids) && forall id :: id in ids ==> ValidId(id)
    ensures Comparable(NameLess, ids)
  {
    forall i, j | 0 <= i < |ids| && 0 <= j < |ids| && i != j ensures NameLess(ids[i], ids[j]) || NameLess(ids[j], ids[i]) {
      var a, b := ids[i], ids[j];
      assert a != b && ValidId(a) && ValidId(b);
      assert a.ordinal < 100 && b.ordinal < 100;
      hide ValidId, Basename, Less;
      LessTrichotomy(Basename(a), Basename(b));
      if Basename(a) == Basename(b) { BasenamesDiffer(a, b); }
    }
  }

  /** The record identities in the order of their names. */
  ghost function Names(s: Store): seq<RecordId> {
    Sort(NameLess, Enumerate(s.Keys))
  }

  lemma NamesSorted(s: Store, listed: seq<RecordId>)
    requires ValidNames(s) && Distinct(listed) && forall id :: id in listed <==> id in s
    ensures Sort(NameLess, listed) == Names(s)
    ensures |Names(s)| == |s| && Distinct(Names(s)) && Sorted(NameLess, Names(s)) && forall id :: id in Names(s) <==> id in s
  {
    NameOrder();
    hide NameLess, ValidId;
    NamesComparable(listed);
    NamesComparable(Enumerate(s.Keys));
    SortSorts(NameLess, listed);
    SortSorts(NameLess, Enumerate(s.Keys));
    SortedUnique(NameLess, Sort(NameLess, listed), Names(s));
  }

  lemma NamesOf(s: Store)
    requires ValidNames(s)
    ensures |Names(s)| == |s| && Distinct(Names(s)) && forall id :: id in Names(s) <==> id in s
  {
    NamesSorted(s, Enumerate(s.Keys));
  }

  ghost function RecordsFor(s: Store, ids: seq<RecordId>): (r: seq<Record>)
    requires forall id :: id in ids ==> id in s
    ensures |r| == |ids| && forall i :: 0 <= i < |ids| ==> r[i] == Record(ids[i], s[ids[i]])
  {
    seq(|ids|, i requires 0 <= i < |ids| => Record(ids[i], s[ids[i]]))
  }

  ghost function Listing(s: Store): seq<Record>
    requires ValidNames(s)
  {
    NamesOf(s);
    RecordsFor(s, Names(s))
  }

  /** What every read of the ledger computes: all records, decoded, grouped and replayed, or an error. */
  ghost function View(c: Codec, s: Store): Result<seq<History>, LedgerError>
    requires ValidNames(s)
  {
    ReplayRecords(c, Listing(s))
  }

  /** The directory holds exactly the records of the ledger hs. */
  ghost predicate Represents(c: Codec, hs: Ledger, s: Store) {
    forall id :: (id in s <==> Kept(hs, id).Some?) && (id in s ==> s[id] == RecordOf(c, Kept(hs, id).value).contents)
  }

  lemma ListedIds(s: Store)
    requires ValidNames(s)
    ensures DistinctIds(Listing(s)) && |Listing(s)| == |s|
  {
    NamesOf(s);
    hide Names;
  }

  lemma RepresentedNames(c: Codec, hs: Ledger, s: Store)
    requires WellFormed(c, hs) && Represents(c, hs, s)
    ensures ValidNames(s)
  {
    hide WellFormed, Kept, RecordOf;
    forall id | id in s ensures ValidId(id) { IdOfKept(c, hs, id); }
  }

  lemma RepresentsLists(c: Codec, hs: Ledger, s: Store)
    requires WellFormed(c, hs) && Represents(c, hs, s)
    ensures ValidNames(s) && Lists(c, hs, Listing(s)) && |Listing(s)| == |s|
  {
    hide WellFormed, Represents, RecordOf, Listing, ValidNames, Kept;
    RepresentedNames(c, hs, s);
    ListedIds(s);
    forall r | r in Listing(s) ensures KeepsRecord(c, hs, r) {
      ListedMember(s, r);
      RepresentedRecord(c, hs, s, r);
    }
    forall f: Frame | Holds(hs, f) ensures RecordOf(c, f) in Listing(s) {
      assert RecordOf(c, f).id == IdOf(f) by { RecordIdOf(c, f); }
      RepresentedRecord(c, hs, s, RecordOf(c, f));
      ListedMember(s, RecordOf(c, f));
    }
  }

  lemma RecordIdOf(c: Codec, f: Frame)
    ensures RecordOf(c, f).id == IdOf(f)
  {
  }

  lemma RepresentedRecord(c: Codec, hs: Ledger, s: Store, r: Record)
    requires WellFormed(c, hs) && Represents(c, hs, s)
    ensures (r.id in s && r.contents == s[r.id]) <==> KeepsRecord(c, hs, r)
  {
    assert r.id in s <==> Kept(hs, r.id).Some?;
    if Kept(hs, r.id).Some? { KeptFrame(c, hs, r.id); }
    hide WellFormed, Kept;
  }

  lemma ListedMember(s: Store, r: Record)
    requires ValidNames(s)
    ensures r in Listing(s) <==> r.id in s && r.contents == s[r.id]
  {
    NamesOf(s);
    hide Names;
    var names, rs := Names(s), Listing(s);
    if r in rs {
      var i :| 0 <= i < |rs| && rs[i] == r;
      assert names[i] in names;
    }
    if r.id in s && r.contents == s[r.id] {
      assert r.id in names;
      var i :| 0 <= i < |names| && names[i] == r.id;
      assert rs[i] == r;
    }
  }

  lemma IdOfKept(c: Codec, hs: Ledger, id: RecordId)
    requires WellFormed(c, hs) && Kept(hs, id).Some?
    ensures ValidId(id)
  {
    FrameOfHistory(c, hs[Key(id.digest, id.token)], id.ordinal);
    KeptFrame(c, hs, id);
  }

  lemma ListsRepresents(c: Codec, hs: Ledger, s: Store)
    requires ValidNames(s) && WellFormed(c, hs) && Lists(c, hs, Listing(s))
    ensures Represents(c, hs, s)
  {
    forall id ensures (id in s <==> Kept(hs, id).Some?) && (id in s ==> s[id] == RecordOf(c, Kept(hs, id).value).contents) {
      if id in s { ListedMember(s, Record(id, s[id])); }
      if Kept(hs, id).Some? {
        KeptFrame(c, hs, id);
        ListedMember(s, RecordOf(c, Kept(hs, id).value));
      }
    }
  }

  /** The ledger can be read exactly when its directory holds the records of some well-formed ledger. */
  lemma ViewSucceeds(c: Codec, s: Store) returns (hs: Ledger)
    requires Faithful(c) && ValidNames(s) && View(c, s).Success?
    ensures WellFormed(c, hs) && NonEmpty(hs) && Represents(c, hs, s) && |s| <= MAXIMUM_RECORDS
    ensures View(c, s) == Success(Histories(c, hs))
  {
    NamesOf(s);
    hs := ReplayedIsListing(c, Listing(s));
    ListsRepresents(c, hs, s);
  }

  lemma RepresentedView(c: Codec, hs: Ledger, s: Store)
    requires Faithful(c) && WellFormed(c, hs) && Represents(c, hs, s) && |s| <= MAXIMUM_RECORDS
    ensures ValidNames(s) && NonEmpty(hs) && View(c, s) == Success(Histories(c, hs))
  {
    RepresentsLists(c, hs, s);
    ListingReplays(c, hs, Listing(s));
  }

  // ----- publishing one record -----

  /** What can happen to one publication: nothing is created, the whole file is (reported or not), or only the
      first `kept` bytes of it are, under the final name; a torn file is always reported as interrupted. */
  datatype Publication =
    | NotCreated(error: LedgerError)
    | Created(report: Option<LedgerError>)
    | Torn(kept: nat)

  /** An existing name is never replaced. */
  function Publish(s: Store, id: RecordId, contents: bytes, p: Publication): (Store, Option<LedgerError>) {
    if p.NotCreated? then (s, Some(p.error))
    else if id in s then (s, Some(Drifted))
    else if p.Torn? && p.kept < |contents| then (s[id := contents[..p.kept]], Some(Interrupted))
    else (s[id := contents], if p.Created? then p.report else Some(Interrupted))
  }

  predicate Tears(s: Store, id: RecordId, contents: bytes, p: Publication) {
    p.Torn? && id !in s && p.kept < |contents|
  }

  /** Once a torn frame is in the directory no read succeeds. */
  lemma TornPoisons(c: Codec, s: Store, f: Frame, kept: nat)
    requires Faithful(c) && EncodeFrame(c, f).Success? && kept < |EncodeFrame(c, f).value|
    requires IdOf(f) in s && s[IdOf(f)] == EncodeFrame(c, f).value[..kept] && ValidNames(s)
    ensures View(c, s).Failure?
  {
    TornNeverDecodes(c, f, kept);
    var r := Record(IdOf(f), s[IdOf(f)]);
    assert DecodeRecord(c, r).Failure?;
    hide *;
    if View(c, s).Success? {
      ReadRecordDecodes(c, s, r);
      assert false;
    }
  }

  lemma ReadRecordDecodes(c: Codec, s: Store, r: Record)
    requires Faithful(c) && ValidNames(s) && View(c, s).Success? && r.id in s && r.contents == s[r.id]
    ensures DecodeRecord(c, r).Success?
  {
    hide View, WellFormed, RecordOf, DecodeRecord, Represents, Faithful;
    var hs := ViewSucceeds(c, s);
    RepresentedRecord(c, hs, s, r);
    RetainedDecodes(c, hs, r);
  }

  // ----- appending a frame to the ledger -----

  function AddFrame(hs: Ledger, f: Frame): Ledger {
    var k := KeyOf(f.binding);
    hs[k := (if k in hs then hs[k] else []) + [f]]
  }

  lemma KeptAfter(c: Codec, hs: Ledger, f: Frame, id: RecordId)
    requires WellFormed(c, hs)
    requires f.ordinal == if KeyOf(f.binding) in hs then |hs[KeyOf(f.binding)]| else 0
    ensures Kept(AddFrame(hs, f), id) == if id == IdOf(f) then Some(f) else Kept(hs, id)
  {
  }

  lemma AddFrameRepresented(c: Codec, hs: Ledger, s: Store, f: Frame)
    requires WellFormed(c, hs) && Represents(c, hs, s) && EncodeFrame(c, f).Success?
    requires f.ordinal == if KeyOf(f.binding) in hs then |hs[KeyOf(f.binding)]| else 0
    ensures IdOf(f) !in s && Represents(c, AddFrame(hs, f), s[IdOf(f) := EncodeFrame(c, f).value])
  {
    KeptAfter(c, hs, f, IdOf(f));
    assert Kept(hs, IdOf(f)).None?;
    var t := s[IdOf(f) := EncodeFrame(c, f).value];
    var after := AddFrame(hs, f);
    hide WellFormed, AddFrame, Kept;
    forall id ensures (id in t <==> Kept(after, id).Some?) && (id in t ==> t[id] == RecordOf(c, Kept(after, id).value).contents) {
      KeptAfter(c, hs, f, id);
    }
  }
}
