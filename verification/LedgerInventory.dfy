/** Which record listings replay, and to what: a ledger is a map from reservation to history, and nothing
    about it depends on the order in which its records are listed. */
module LedgerInventory {
  import opened Base
  import opened RecoveryGraph
  import opened RecordName
  import opened RecoveryChain
  import opened RecoveryAppend
  import opened LedgerRecords
  import opened Sorting

  /** The histories of all reservations. */
  type Ledger = map<Key, seq<Frame>>

  predicate OpenFrames(h: seq<Frame>) {
    |h| > 0 && !Closed(h[|h| - 1].fact)
  }

  predicate SameSource(a: Binding, b: Binding) {
    a.root == b.root && a.source == b.source
  }

  ghost predicate NonEmpty(hs: Ledger) {
    forall k :: k in hs ==> |hs[k]| > 0
  }

  ghost predicate OneOpenPerSource(hs: Ledger)
    requires NonEmpty(hs)
  {
    forall k, l :: k in hs && l in hs && k != l && OpenFrames(hs[k]) && OpenFrames(hs[l]) ==>
                     !SameSource(hs[k][0].binding, hs[l][0].binding)
  }

  ghost predicate AllValid(c: Codec, hs: Ledger) {
    && NonEmpty(hs)
    && forall k :: k in hs ==> ValidHistory(c, hs[k])
  }

  ghost predicate WellFormed(c: Codec, hs: Ledger) {
    && AllValid(c, hs)
    && (forall k :: k in hs ==> KeyOf(hs[k][0].binding) == k)
    && OneOpenPerSource(hs)
  }

  /** The frame retained under an identity. */
  function Kept(hs: Ledger, id: RecordId): Option<Frame> {
    var k := Key(id.digest, id.token);
    if k in hs && id.ordinal < |hs[k]| then Some(hs[k][id.ordinal]) else None
  }

  predicate Holds(hs: Ledger, f: Frame) {
    Kept(hs, IdOf(f)) == Some(f)
  }

  /** r is the record of a frame of hs. */
  predicate KeepsRecord(c: Codec, hs: Ledger, r: Record) {
    Kept(hs, r.id).Some? && r == RecordOf(c, Kept(hs, r.id).value)
  }

  predicate DistinctIds(rs: seq<Record>) {
    forall i, j :: 0 <= i < j < |rs| ==> rs[i].id != rs[j].id
  }

  /** rs lists every record of hs once, in any order, and nothing else. */
  ghost predicate Lists(c: Codec, hs: Ledger, rs: seq<Record>) {
    && DistinctIds(rs)
    && (forall r :: r in rs ==> KeepsRecord(c, hs, r))
    && (forall f: Frame :: Holds(hs, f) ==> RecordOf(c, f) in rs)
  }

  ghost function HistoriesFor(c: Codec, hs: Ledger, keys: seq<Key>): (r: seq<History>)
    requires NonEmpty(hs) && forall k :: k in keys ==> k in hs
    ensures |r| == |keys|
    ensures forall i :: 0 <= i < |keys| ==> r[i] == History(hs[keys[i]], RecoveryOf(c, hs[keys[i]]))
  {
    if keys == [] then []
    else HistoriesFor(c, hs, keys[..|keys| - 1]) + [History(hs[keys[|keys| - 1]], RecoveryOf(c, hs[keys[|keys| - 1]]))]
  }

  /** The sorted histories that replaying a listing of hs yields. */
  ghost function Histories(c: Codec, hs: Ledger): seq<History>
    requires NonEmpty(hs)
  {
    KeysSorted(hs.Keys, Enumerate(hs.Keys));
    HistoriesFor(c, hs, SortedKeys(hs.Keys))
  }

  // ----- what grouping does -----

  lemma {:induction false} GroupMembers(frames: seq<Frame>, k: Key)
    ensures k in Groups(frames) ==> Groups(frames)[k] != []
    ensures forall f: Frame :: (k in Groups(frames) && f in Groups(frames)[k]) <==> (f in frames && KeyOf(f.binding) == k)
  {
    if frames != [] {
      var n := |frames| - 1;
      var before, last := frames[..n], frames[n];
      GroupMembers(before, k);
      assert frames == before + [last];
    }
  }

  predicate DistinctFrames(frames: seq<Frame>) {
    forall i, j :: 0 <= i < j < |frames| ==> IdOf(frames[i]) != IdOf(frames[j])
  }

  lemma {:induction false} GroupComparable(frames: seq<Frame>, k: Key)
    requires DistinctFrames(frames) && k in Groups(frames)
    ensures Comparable(OrdinalLess, Groups(frames)[k])
  {
    var n := |frames| - 1;
    var before, last := frames[..n], frames[n];
    if k in Groups(before) { GroupComparable(before, k); }
    if KeyOf(last.binding) == k && k in Groups(before) {
      var group := Groups(before)[k];
      forall i | 0 <= i < |group| ensures group[i].ordinal != last.ordinal {
        GroupMembers(before, k);
        assert group[i] in before;
        var j :| 0 <= j < n && before[j] == group[i];
        assert IdOf(frames[j]) != IdOf(frames[n]);
      }
    }
  }

  lemma OrdinalOrder()
    ensures StrictOrder(OrdinalLess)
  {
  }

  lemma HistorySorted(c: Codec, h: seq<Frame>)
    requires ValidHistory(c, h)
    ensures Sorted(OrdinalLess, h)
  {
    forall i, j | 0 <= i < j < |h| ensures OrdinalLess(h[i], h[j]) {
      assert Chained(c, h, i) && Chained(c, h, j);
    }
  }

  // ----- every listing of a well-formed ledger replays to its histories -----

  lemma FrameOfHistory(c: Codec, h: seq<Frame>, i: nat)
    requires ValidHistory(c, h) && i < |h|
    ensures EncodeFrame(c, h[i]).Success? && IdOf(h[i]) == RecordId(h[0].binding.digest, h[0].binding.token, i)
    ensures ValidId(IdOf(h[i])) && KeyOf(h[i].binding) == KeyOf(h[0].binding)
  {
    assert Chained(c, h, i);
  }

  /** What is kept under an identity is a frame with that identity. */
  lemma KeptFrame(c: Codec, hs: Ledger, id: RecordId)
    requires WellFormed(c, hs) && Kept(hs, id).Some?
    ensures var f := Kept(hs, id).value; IdOf(f) == id && Holds(hs, f) && EncodeFrame(c, f).Success?
  {
    var h := hs[Key(id.digest, id.token)];
    FrameOfHistory(c, h, id.ordinal);
  }

  lemma RetainedDecodes(c: Codec, hs: Ledger, r: Record)
    requires Faithful(c) && WellFormed(c, hs) && KeepsRecord(c, hs, r)
    ensures Kept(hs, r.id).Some? && DecodeRecord(c, r) == Success(Kept(hs, r.id).value)
  {
    KeptFrame(c, hs, r.id);
    DecodeRecordExactly(c, r, Kept(hs, r.id).value);
  }

  lemma DecodeNext(c: Codec, rs: seq<Record>, f: Frame)
    requires |rs| > 0 && DistinctIds(rs) && DecodeAll(c, rs[..|rs| - 1]).Success? && DecodeRecord(c, rs[|rs| - 1]) == Success(f)
    ensures DecodeAll(c, rs) == Success(DecodeAll(c, rs[..|rs| - 1]).value + [f])
  {
    hide DecodeRecord;
    assert !IdListed(rs[..|rs| - 1], rs[|rs| - 1].id);
  }

  /** frames are what hs keeps under the identities of rs. */
  predicate DecodesTo(hs: Ledger, rs: seq<Record>, frames: seq<Frame>) {
    |rs| == |frames| && forall i :: 0 <= i < |rs| ==> Kept(hs, rs[i].id) == Some(frames[i])
  }

  lemma DecodesToNext(hs: Ledger, rs: seq<Record>, frames: seq<Frame>, f: Frame)
    requires |rs| > 0 && DecodesTo(hs, rs[..|rs| - 1], frames) && Kept(hs, rs[|rs| - 1].id) == Some(f)
    ensures DecodesTo(hs, rs, frames + [f])
  {
    hide Kept;
  }

  lemma PrefixDistinct(rs: seq<Record>)
    requires |rs| > 0 && DistinctIds(rs)
    ensures DistinctIds(rs[..|rs| - 1])
  {
  }

  lemma {:induction false} ListingDecodes(c: Codec, hs: Ledger, rs: seq<Record>)
    requires Faithful(c) && WellFormed(c, hs) && DistinctIds(rs) && forall r :: r in rs ==> KeepsRecord(c, hs, r)
    ensures DecodeAll(c, rs).Success? && DecodesTo(hs, rs, DecodeAll(c, rs).value)
  {
    if rs == [] {
    } else {
      hide *;
      var n := |rs| - 1;
      PrefixDistinct(rs);
      ListingDecodes(c, hs, rs[..n]);
      RetainedDecodes(c, hs, rs[n]);
      var f := DecodeRecord(c, rs[n]).value;
      DecodeNext(c, rs, f);
      DecodesToNext(hs, rs, DecodeAll(c, rs[..n]).value, f);
    }
  }

  lemma ListingFrames(c: Codec, hs: Ledger, rs: seq<Record>)
    requires Faithful(c) && WellFormed(c, hs) && Lists(c, hs, rs)
    ensures DecodeAll(c, rs).Success?
    ensures var frames := DecodeAll(c, rs).value;
            DistinctFrames(frames) && forall f: Frame :: f in frames <==> Holds(hs, f)
  {
    ListingDecodes(c, hs, rs);
    var frames := DecodeAll(c, rs).value;
    hide DecodeAll, Faithful;
    forall i | 0 <= i < |rs| ensures IdOf(frames[i]) == rs[i].id && Holds(hs, frames[i]) {
      KeptFrame(c, hs, rs[i].id);
    }
    hide WellFormed, Kept;
    forall f: Frame | Holds(hs, f) ensures f in frames {
      assert RecordOf(c, f) in rs;
      var j :| 0 <= j < |rs| && rs[j] == RecordOf(c, f);
      assert frames[j] == f;
    }
  }

  lemma HistoryMembers(c: Codec, hs: Ledger, k: Key, f: Frame)
    requires WellFormed(c, hs) && k in hs
    ensures f in hs[k] <==> Holds(hs, f) && KeyOf(f.binding) == k
  {
    var h := hs[k];
    if f in h {
      var i :| 0 <= i < |h| && h[i] == f;
      FrameOfHistory(c, h, i);
    }
  }

  lemma ListingGroup(c: Codec, hs: Ledger, frames: seq<Frame>, k: Key)
    requires WellFormed(c, hs) && k in hs && DistinctFrames(frames)
    requires forall f: Frame :: f in frames <==> Holds(hs, f)
    ensures k in Groups(frames) && Sort(OrdinalLess, Groups(frames)[k]) == hs[k]
  {
    var h := hs[k];
    GroupMembers(frames, k);
    assert ValidHistory(c, h) && h[0] in h by { assert |h| > 0; }
    hide ValidHistory, Holds;
    forall f: Frame ensures f in h <==> Holds(hs, f) && KeyOf(f.binding) == k { HistoryMembers(c, hs, k, f); }
    hide WellFormed, Groups;
    assert h[0] in Groups(frames)[k];
    GroupComparable(frames, k);
    OrdinalOrder();
    SortSorts(OrdinalLess, Groups(frames)[k]);
    HistorySorted(c, h);
    SortedUnique(OrdinalLess, Sort(OrdinalLess, Groups(frames)[k]), h);
  }

  lemma {:induction false} GroupsReplay(c: Codec, hs: Ledger, groups: Ledger, keys: seq<Key>)
    requires AllValid(c, hs)
    requires forall k :: k in keys ==> k in hs && k in groups && Sort(OrdinalLess, groups[k]) == hs[k]
    ensures ReplayGroups(c, groups, keys) == Success(HistoriesFor(c, hs, keys))
  {
    if keys != [] {
      var n := |keys| - 1;
      GroupsReplay(c, hs, groups, keys[..n]);
      assert keys[n] in keys;
      ReplayAccepts(c, hs[keys[n]]);
      hide ValidHistory, Replay;
    }
  }

  lemma SourceKeysDiffer(c: Codec, g: seq<Frame>, h: seq<Frame>)
    requires ValidHistory(c, g) && ValidHistory(c, h)
    ensures SourceKey(RecoveryOf(c, g).binding) == SourceKey(RecoveryOf(c, h).binding) <==> SameSource(g[0].binding, h[0].binding)
    ensures Open(History(g, RecoveryOf(c, g))) <==> OpenFrames(g)
  {
    HistoryFacts(c, g);
    HistoryFacts(c, h);
    hide ValidHistory, ValidBinding;
    SourceKeyInjective(c, g[0].binding, g[0].schema, h[0].binding, h[0].schema);
  }

  /** The replayed histories r and the ledger hs agree on what is open and on which sources coincide. */
  predicate PairAgrees(hs: Ledger, keys: seq<Key>, r: seq<History>, i: nat, j: nat) {
    && |r| == |keys| && i < |keys| && j < |keys| && keys[i] in hs && keys[j] in hs
    && |hs[keys[i]]| > 0 && |hs[keys[j]]| > 0
    && (Open(r[i]) <==> OpenFrames(hs[keys[i]]))
    && (SourceKey(r[i].recovery.binding) == SourceKey(r[j].recovery.binding) <==> SameSource(hs[keys[i]][0].binding, hs[keys[j]][0].binding))
  }

  ghost predicate SourcesAgree(hs: Ledger, keys: seq<Key>, r: seq<History>) {
    && NonEmpty(hs) && |r| == |keys|
    && (forall k :: k in keys <==> k in hs)
    && (forall i, j :: 0 <= i < |keys| && 0 <= j < |keys| ==> PairAgrees(hs, keys, r, i, j))
  }

  lemma HistoriesPair(c: Codec, hs: Ledger, keys: seq<Key>, i: nat, j: nat)
    requires AllValid(c, hs) && (forall k :: k in keys ==> k in hs) && i < |keys| && j < |keys|
    ensures PairAgrees(hs, keys, HistoriesFor(c, hs, keys), i, j)
  {
    assert keys[i] in keys && keys[j] in keys;
    assert ValidHistory(c, hs[keys[i]]) && ValidHistory(c, hs[keys[j]]);
    SourceKeysDiffer(c, hs[keys[i]], hs[keys[j]]);
    hide ValidHistory, RecoveryOf, SourceKey, OpenFrames, Open, SameSource;
  }

  lemma HistoriesAgree(c: Codec, hs: Ledger, keys: seq<Key>)
    requires AllValid(c, hs) && (forall k :: k in keys <==> k in hs)
    ensures NonEmpty(hs) && SourcesAgree(hs, keys, HistoriesFor(c, hs, keys))
  {
    assert NonEmpty(hs);
    hide AllValid, HistoriesFor, PairAgrees;
    forall i, j | 0 <= i < |keys| && 0 <= j < |keys| ensures PairAgrees(hs, keys, HistoriesFor(c, hs, keys), i, j) {
      HistoriesPair(c, hs, keys, i, j);
    }
  }

  lemma UniqueMeansOneOpen(hs: Ledger, keys: seq<Key>, r: seq<History>)
    requires SourcesAgree(hs, keys, r) && Distinct(keys)
    ensures UniqueOpenSources(r) <==> OneOpenPerSource(hs)
  {
    hide SourceKey, OpenFrames, Open, SameSource;
    if UniqueOpenSources(r) {
      forall k, l | k in hs && l in hs && k != l && OpenFrames(hs[k]) && OpenFrames(hs[l])
        ensures !SameSource(hs[k][0].binding, hs[l][0].binding)
      {
        assert k in keys && l in keys;
        var i :| 0 <= i < |keys| && keys[i] == k;
        var j :| 0 <= j < |keys| && keys[j] == l;
        assert PairAgrees(hs, keys, r, i, j) && PairAgrees(hs, keys, r, j, i);
        if i > j { assert SourceKey(r[j].recovery.binding) != SourceKey(r[i].recovery.binding); }
      }
    }
    if OneOpenPerSource(hs) {
      forall i, j | 0 <= i < j < |r| && Open(r[i]) && Open(r[j])
        ensures SourceKey(r[i].recovery.binding) != SourceKey(r[j].recovery.binding)
      {
        assert PairAgrees(hs, keys, r, i, j) && PairAgrees(hs, keys, r, j, i);
      }
    }
  }

  lemma SortedDistinct(keys: seq<Key>)
    requires Sorted(KeyLess, keys)
    ensures Distinct(keys)
  {
    KeyOrder();
  }

  lemma KeysOf(hs: Ledger)
    ensures Distinct(SortedKeys(hs.Keys)) && forall k :: k in SortedKeys(hs.Keys) <==> k in hs
  {
    KeysSorted(hs.Keys, Enumerate(hs.Keys));
    SortedDistinct(SortedKeys(hs.Keys));
  }

  lemma ListingKey(c: Codec, hs: Ledger, frames: seq<Frame>, k: Key)
    requires WellFormed(c, hs) && DistinctFrames(frames) && forall f: Frame :: f in frames <==> Holds(hs, f)
    ensures k in Groups(frames) <==> k in hs
    ensures k in hs ==> Sort(OrdinalLess, Groups(frames)[k]) == hs[k]
  {
    if k in hs { ListingGroup(c, hs, frames, k); }
    if k in Groups(frames) {
      GroupMembers(frames, k);
      hide WellFormed, Groups;
      assert Groups(frames)[k][0] in Groups(frames)[k];
      assert Holds(hs, Groups(frames)[k][0]);
    }
  }

  lemma ListingGroups(c: Codec, hs: Ledger, frames: seq<Frame>)
    requires WellFormed(c, hs) && DistinctFrames(frames) && forall f: Frame :: f in frames <==> Holds(hs, f)
    ensures Groups(frames).Keys == hs.Keys
    ensures forall k :: k in hs ==> Sort(OrdinalLess, Groups(frames)[k]) == hs[k]
  {
    hide *;
    forall k ensures (k in Groups(frames) <==> k in hs) && (k in hs ==> Sort(OrdinalLess, Groups(frames)[k]) == hs[k]) {
      ListingKey(c, hs, frames, k);
    }
  }

  /** Every listing of a well-formed ledger replays, to exactly its histories in key order. */
  lemma ListingReplays(c: Codec, hs: Ledger, rs: seq<Record>)
    requires Faithful(c) && WellFormed(c, hs) && Lists(c, hs, rs) && |rs| <= MAXIMUM_RECORDS
    ensures NonEmpty(hs) && ReplayRecords(c, rs) == Success(Histories(c, hs))
  {
    ListingFrames(c, hs, rs);
    var frames := DecodeAll(c, rs).value;
    ListingGroups(c, hs, frames);
    var keys := SortedKeys(hs.Keys);
    KeysOf(hs);
    GroupsReplay(c, hs, Groups(frames), keys);
    HistoriesAgree(c, hs, keys);
    UniqueMeansOneOpen(hs, keys, HistoriesFor(c, hs, keys));
    hide Lists, DecodeAll, Groups, SourcesAgree, UniqueOpenSources, HistoriesFor, ValidHistory;
  }

  // ----- and nothing else replays -----

  lemma {:induction false} DecodedRecords(c: Codec, rs: seq<Record>)
    requires DecodeAll(c, rs).Success?
    ensures DistinctIds(rs)
    ensures forall i :: 0 <= i < |rs| ==> DecodeRecord(c, rs[i]) == Success(DecodeAll(c, rs).value[i])
  {
    hide DecodeRecord;
    if rs != [] {
      var n := |rs| - 1;
      var before := rs[..n];
      DecodedRecords(c, before);
      assert !IdListed(before, rs[n].id);
      hide DecodeAll;
      forall i, j | 0 <= i < j < |rs| ensures rs[i].id != rs[j].id {
        assert before[i].id == rs[i].id;
        if j < n { assert before[i].id != before[j].id; }
      }
    }
  }

  lemma DecodedFrames(c: Codec, rs: seq<Record>)
    requires Faithful(c) && DecodeAll(c, rs).Success?
    ensures var frames := DecodeAll(c, rs).value;
            DistinctFrames(frames) && forall i :: 0 <= i < |rs| ==> rs[i] == RecordOf(c, frames[i])
  {
    DecodedRecords(c, rs);
    var frames := DecodeAll(c, rs).value;
    forall i | 0 <= i < |rs| ensures rs[i] == RecordOf(c, frames[i]) && IdOf(frames[i]) == rs[i].id {
      DecodeRecordExactly(c, rs[i], frames[i]);
    }
  }

  lemma {:induction false} ReplayedGroups(c: Codec, groups: Ledger, keys: seq<Key>)
    requires (forall k :: k in keys ==> k in groups) && ReplayGroups(c, groups, keys).Success?
    ensures forall k :: k in keys ==> ValidHistory(c, Sort(OrdinalLess, groups[k]))
  {
    hide Replay, ValidHistory;
    if keys != [] {
      var n := |keys| - 1;
      ReplayedGroups(c, groups, keys[..n]);
      ReplayAccepts(c, Sort(OrdinalLess, groups[keys[n]]));
      forall k | k in keys ensures ValidHistory(c, Sort(OrdinalLess, groups[k])) {
        if k != keys[n] { assert k in keys[..n]; }
      }
    }
  }

  /** The histories found by sorting each group of decoded frames. */
  function GroupsSorted(groups: Ledger): Ledger {
    map k | k in groups :: Sort(OrdinalLess, groups[k])
  }

  lemma SortedGroupMembers(frames: seq<Frame>, k: Key, f: Frame)
    requires k in Groups(frames)
    ensures f in GroupsSorted(Groups(frames))[k] <==> f in frames && KeyOf(f.binding) == k
  {
    GroupMembers(frames, k);
    SameElements(Groups(frames)[k], GroupsSorted(Groups(frames))[k]);
  }

  lemma GroupsAreLedger(c: Codec, rs: seq<Record>) returns (hs: Ledger)
    requires ReplayRecords(c, rs).Success?
    ensures DecodeAll(c, rs).Success? && hs == GroupsSorted(Groups(DecodeAll(c, rs).value))
    ensures WellFormed(c, hs) && NonEmpty(hs) && ReplayRecords(c, rs) == Success(Histories(c, hs))
  {
    hide DecodeAll, Groups, ReplayGroups, UniqueOpenSources, ValidHistory;
    var frames := DecodeAll(c, rs).value;
    var groups := Groups(frames);
    var keys := SortedKeys(groups.Keys);
    hs := GroupsSorted(groups);
    KeysOf(groups);
    assert hs.Keys == groups.Keys;
    ReplayedGroups(c, groups, keys);
    GroupsKeyed(c, frames);
    assert AllValid(c, hs);
    GroupsReplay(c, hs, groups, keys);
    HistoriesAgree(c, hs, keys);
    UniqueMeansOneOpen(hs, keys, HistoriesFor(c, hs, keys));
  }

  lemma GroupsKeyed(c: Codec, frames: seq<Frame>)
    ensures NonEmpty(GroupsSorted(Groups(frames)))
    ensures var hs := GroupsSorted(Groups(frames)); forall k :: k in hs ==> KeyOf(hs[k][0].binding) == k
  {
    var groups := Groups(frames);
    var hs: Ledger := GroupsSorted(groups);
    hide Groups;
    forall k: Key | k in hs ensures |hs[k]| > 0 && KeyOf(hs[k][0].binding) == k {
      GroupMembers(frames, k);
      SameElements(groups[k], hs[k]);
      SortedGroupMembers(frames, k, hs[k][0]);
    }
  }

  /** Whatever replays is a listing of a well-formed ledger, and replays to that ledger's histories. */
  lemma ReplayedIsListing(c: Codec, rs: seq<Record>) returns (hs: Ledger)
    requires Faithful(c) && ReplayRecords(c, rs).Success?
    ensures WellFormed(c, hs) && NonEmpty(hs) && Lists(c, hs, rs) && |rs| <= MAXIMUM_RECORDS
    ensures ReplayRecords(c, rs) == Success(Histories(c, hs))
  {
    assert |rs| <= MAXIMUM_RECORDS;
    hs := GroupsAreLedger(c, rs);
    DecodedRecords(c, rs);
    DecodedFrames(c, rs);
    var frames := DecodeAll(c, rs).value;
    hide DecodeAll, ReplayRecords, Groups, GroupsSorted, Histories, KeepsRecord;
    forall f: Frame ensures f in frames <==> Holds(hs, f) { LedgerMembers(c, hs, frames, f); }
    FramesListed(c, hs, rs, frames);
  }

  lemma FramesListed(c: Codec, hs: Ledger, rs: seq<Record>, frames: seq<Frame>)
    requires |rs| == |frames| && DistinctIds(rs) && forall i :: 0 <= i < |rs| ==> rs[i] == RecordOf(c, frames[i])
    requires forall f: Frame :: f in frames <==> Holds(hs, f)
    ensures Lists(c, hs, rs)
  {
    forall r | r in rs ensures KeepsRecord(c, hs, r) {
      var i :| 0 <= i < |rs| && rs[i] == r;
      assert frames[i] in frames;
    }
    forall f: Frame | Holds(hs, f) ensures RecordOf(c, f) in rs {
      var i :| 0 <= i < |frames| && frames[i] == f;
      assert rs[i] == RecordOf(c, f);
    }
  }

  lemma LedgerMembers(c: Codec, hs: Ledger, frames: seq<Frame>, f: Frame)
    requires WellFormed(c, hs) && hs == GroupsSorted(Groups(frames))
    ensures f in frames <==> Holds(hs, f)
  {
    var k := KeyOf(f.binding);
    GroupMembers(frames, k);
    if k in hs {
      HistoryMembers(c, hs, k, f);
      SortedGroupMembers(frames, k, f);
    }
  }

  /** Whether records are accepted does not depend on how they are listed, only on what they say. */
  lemma ReplayAcceptsExactly(c: Codec, rs: seq<Record>)
    requires Faithful(c)
    ensures ReplayRecords(c, rs).Success? <==> |rs| <= 128 && exists hs :: WellFormed(c, hs) && Lists(c, hs, rs)
  {
    if ReplayRecords(c, rs).Success? { var hs := ReplayedIsListing(c, rs); }
    if |rs| <= MAXIMUM_RECORDS {
      forall hs | WellFormed(c, hs) && Lists(c, hs, rs) ensures ReplayRecords(c, rs).Success? { ListingReplays(c, hs, rs); }
    }
  }

  // ----- order does not matter -----

  lemma PermutedListing(c: Codec, hs: Ledger, rs: seq<Record>, ss: seq<Record>)
    requires Lists(c, hs, rs) && multiset(rs) == multiset(ss)
    ensures Lists(c, hs, ss) && |rs| == |ss|
  {
    SameElements(rs, ss);
    hide KeepsRecord, Holds, RecordOf;
    DistinctCounts(rs);
    DistinctCounts(ss);
    forall i, j | 0 <= i < j < |ss| ensures ss[i].id != ss[j].id {
      assert ss[i] in rs && ss[j] in rs;
      var k :| 0 <= k < |rs| && rs[k] == ss[i];
      var l :| 0 <= l < |rs| && rs[l] == ss[j];
      assert rs[k] != rs[l];
    }
  }

  /** Any permutation of the records replays equally well, and to the same histories in the same order. */
  lemma OrderIndependent(c: Codec, rs: seq<Record>, ss: seq<Record>)
    requires Faithful(c) && multiset(rs) == multiset(ss)
    ensures ReplayRecords(c, rs).Success? <==> ReplayRecords(c, ss).Success?
    ensures ReplayRecords(c, rs).Success? ==> ReplayRecords(c, rs) == ReplayRecords(c, ss)
  {
    hide ReplayRecords, WellFormed;
    if ReplayRecords(c, rs).Success? { PermutationReplays(c, rs, ss); }
    else if ReplayRecords(c, ss).Success? { PermutationReplays(c, ss, rs); }
  }

  lemma PermutationReplays(c: Codec, rs: seq<Record>, ss: seq<Record>)
    requires Faithful(c) && multiset(rs) == multiset(ss) && ReplayRecords(c, rs).Success?
    ensures ReplayRecords(c, rs) == ReplayRecords(c, ss)
  {
    hide ReplayRecords, WellFormed, Lists, Histories;
    var hs := ReplayedIsListing(c, rs);
    PermutedListing(c, hs, rs, ss);
    ListingReplays(c, hs, ss);
  }

  // ----- flattening -----

  function FrameRecords(c: Codec, h: seq<Frame>): (r: seq<Record>)
    ensures |r| == |h| && forall i :: 0 <= i < |h| ==> r[i] == RecordOf(c, h[i])
  {
    seq(|h|, i requires 0 <= i < |h| => RecordOf(c, h[i]))
  }

  /** Histories back to records. */
  function Flatten(c: Codec, hs: seq<History>): seq<Record> {
    if hs == [] then [] else Flatten(c, hs[..|hs| - 1]) + FrameRecords(c, hs[|hs| - 1].frames)
  }

  /** The records of the histories under the given keys, each once. */
  ghost predicate ListsUnder(c: Codec, hs: Ledger, keys: seq<Key>, rs: seq<Record>) {
    && DistinctIds(rs)
    && (forall r :: r in rs ==> KeepsRecord(c, hs, r) && Key(r.id.digest, r.id.token) in keys)
    && (forall f: Frame :: Holds(hs, f) && KeyOf(f.binding) in keys ==> RecordOf(c, f) in rs)
  }

  lemma FlattenNext(c: Codec, hs: Ledger, before: seq<Key>, k: Key)
    requires NonEmpty(hs) && forall l :: l in before + [k] ==> l in hs
    ensures k in hs && forall l :: l in before ==> l in hs
    ensures Flatten(c, HistoriesFor(c, hs, before + [k])) == Flatten(c, HistoriesFor(c, hs, before)) + FrameRecords(c, hs[k])
  {
    assert forall l :: l in before || l == k ==> l in before + [k];
    hide RecoveryOf, RecordOf;
    assert (before + [k])[..|before|] == before;
    assert HistoriesFor(c, hs, before + [k])[..|before|] == HistoriesFor(c, hs, before);
  }

  lemma {:induction false} FlattenMembers(c: Codec, hs: Ledger, keys: seq<Key>)
    requires WellFormed(c, hs) && Distinct(keys) && forall k :: k in keys ==> k in hs
    ensures NonEmpty(hs) && ListsUnder(c, hs, keys, Flatten(c, HistoriesFor(c, hs, keys)))
  {
    assert NonEmpty(hs);
    if keys != [] {
      hide WellFormed, ListsUnder, HistoriesFor, Flatten;
      var n := |keys| - 1;
      var before, k := keys[..n], keys[n];
      assert keys == before + [k] && k !in before;
      FlattenMembers(c, hs, before);
      FlattenNext(c, hs, before, k);
      HistoryRecords(c, hs, k);
      JoinListings(c, hs, before, k, Flatten(c, HistoriesFor(c, hs, before)), FrameRecords(c, hs[k]));
    }
  }

  lemma JoinListings(c: Codec, hs: Ledger, before: seq<Key>, k: Key, a: seq<Record>, b: seq<Record>)
    requires ListsUnder(c, hs, before, a) && ListsUnder(c, hs, [k], b) && k !in before
    ensures ListsUnder(c, hs, before + [k], a + b)
  {
    hide KeepsRecord, Holds, RecordOf;
    forall i, j | 0 <= i < j < |a + b| ensures (a + b)[i].id != (a + b)[j].id {
      if i < |a| <= j {
        assert a[i] in a && b[j - |a|] in b;
      }
    }
  }

  lemma HistoryRecords(c: Codec, hs: Ledger, k: Key)
    requires WellFormed(c, hs) && k in hs
    ensures ListsUnder(c, hs, [k], FrameRecords(c, hs[k]))
  {
    var h := hs[k];
    forall i | 0 <= i < |h| ensures RecordOf(c, h[i]).id == RecordId(k.digest, k.token, i) && KeepsRecord(c, hs, RecordOf(c, h[i])) {
      FrameOfHistory(c, h, i);
    }
    forall f: Frame | Holds(hs, f) && KeyOf(f.binding) in [k] ensures RecordOf(c, f) in FrameRecords(c, h) {
      HistoryMembers(c, hs, k, f);
      var i :| 0 <= i < |h| && h[i] == f;
      assert FrameRecords(c, h)[i] == RecordOf(c, f);
    }
  }

  lemma FlattenLists(c: Codec, hs: Ledger)
    requires WellFormed(c, hs)
    ensures NonEmpty(hs) && Lists(c, hs, Flatten(c, Histories(c, hs)))
  {
    var keys := SortedKeys(hs.Keys);
    KeysOf(hs);
    FlattenMembers(c, hs, keys);
    assert NonEmpty(hs);
    assert Histories(c, hs) == HistoriesFor(c, hs, keys);
    assert forall f: Frame :: Holds(hs, f) ==> KeyOf(f.binding) in keys;
    hide *;
    ListsAllKeys(c, hs, keys, Flatten(c, HistoriesFor(c, hs, keys)));
  }

  lemma ListsAllKeys(c: Codec, hs: Ledger, keys: seq<Key>, rs: seq<Record>)
    requires ListsUnder(c, hs, keys, rs) && forall f: Frame :: Holds(hs, f) ==> KeyOf(f.binding) in keys
    ensures Lists(c, hs, rs)
  {
  }

  /** Two listings of one ledger are permutations of each other. */
  lemma ListingsAgree(c: Codec, hs: Ledger, rs: seq<Record>, ss: seq<Record>)
    requires WellFormed(c, hs) && Lists(c, hs, rs) && Lists(c, hs, ss)
    ensures multiset(rs) == multiset(ss) && |rs| == |ss|
  {
    forall r ensures r in rs <==> r in ss {
      if r in rs || r in ss { KeptFrame(c, hs, r.id); }
    }
    hide KeepsRecord, Holds, RecordOf, WellFormed;
    DistinctCounts(rs);
    DistinctCounts(ss);
    forall r ensures multiset(rs)[r] == multiset(ss)[r] {
      assert r in rs <==> r in multiset(rs);
      assert r in ss <==> r in multiset(ss);
    }
    assert multiset(rs) == multiset(ss);
    assert |rs| == |multiset(rs)| && |ss| == |multiset(ss)|;
  }

  /** Writing the replayed histories back as records and replaying them again changes nothing. */
  lemma FlattenReplays(c: Codec, rs: seq<Record>)
    requires Faithful(c) && ReplayRecords(c, rs).Success?
    ensures ReplayRecords(c, Flatten(c, ReplayRecords(c, rs).value)) == ReplayRecords(c, rs)
    ensures multiset(Flatten(c, ReplayRecords(c, rs).value)) == multiset(rs)
  {
    hide ReplayRecords, WellFormed, Lists, Flatten, Histories;
    var hs := ReplayedIsListing(c, rs);
    FlattenLists(c, hs);
    ListingsAgree(c, hs, rs, Flatten(c, Histories(c, hs)));
    OrderIndependent(c, rs, Flatten(c, Histories(c, hs)));
  }
}
