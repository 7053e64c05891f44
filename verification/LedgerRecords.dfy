/** From retained records to recovery histories: grouping, ordering, replay and uniqueness of sources. */
module LedgerRecords {
  import opened Base
  import opened PathBytes
  import opened RecoveryGraph
  import opened RecordName
  import opened RecoveryChain
  import opened Sorting

  const MAXIMUM_RECORDS := 128

  datatype Record = Record(id: RecordId, contents: bytes)

  datatype History = History(frames: seq<Frame>, recovery: Recovery)

  function KeyOf(b: Binding): Key { Key(b.digest, b.token) }

  function IdOf(f: Frame): RecordId { RecordId(f.binding.digest, f.binding.token, f.ordinal) }

  predicate KeyLess(a: Key, b: Key) {
    if a.digest == b.digest then Less(a.token, b.token) else Less(a.digest, b.digest)
  }

  predicate OrdinalLess(f: Frame, g: Frame) { f.ordinal < g.ordinal }

  lemma KeyOrder()
    ensures StrictOrder(KeyLess)
    ensures forall a: Key, b: Key :: a != b ==> KeyLess(a, b) || KeyLess(b, a)
  {
    forall a: Key, b: Key | KeyLess(a, b) ensures !KeyLess(b, a) {
      if a.digest == b.digest { LessAsymmetric(a.token, b.token); } else { LessAsymmetric(a.digest, b.digest); }
    }
    forall a: Key, b: Key, d: Key | KeyLess(a, b) && KeyLess(b, d) ensures KeyLess(a, d) {
      if a.digest == b.digest == d.digest {
        LessTransitive(a.token, b.token, d.token);
      } else if a.digest != b.digest && b.digest != d.digest {
        LessTransitive(a.digest, b.digest, d.digest);
        if a.digest == d.digest { LessAsymmetric(a.digest, b.digest); }
      }
    }
    forall a: Key, b: Key | a != b ensures KeyLess(a, b) || KeyLess(b, a) {
      LessTrichotomy(a.digest, b.digest);
      LessTrichotomy(a.token, b.token);
    }
  }

  /** Digests have one length, so the keys are in the order of their record names. */
  lemma KeyOrderExactly(a: Key, b: Key, n: nat)
    requires ValidDigest(a.digest) && ValidDigest(b.digest) && ValidToken(a.token) && ValidToken(b.token) && n < 16
    ensures KeyLess(a, b) <==> a != b && Less(Basename(RecordId(a.digest, a.token, n)), Basename(RecordId(b.digest, b.token, n)))
  {
    hide Less;
    var tail := [DASH] + TwoDigits(n) + RECORD_SUFFIX;
    assert Basename(RecordId(a.digest, a.token, n)) == RECORD_PREFIX + (a.digest + ([DASH] + (a.token + tail)));
    assert Basename(RecordId(b.digest, b.token, n)) == RECORD_PREFIX + (b.digest + ([DASH] + (b.token + tail)));
    LessIrreflexive(a.token);
    LessIrreflexive(RECORD_PREFIX);
    LessIrreflexive([DASH]);
    LessIrreflexive(tail);
    LessIrreflexive(a.digest);
    LessJoin(RECORD_PREFIX, a.digest + ([DASH] + (a.token + tail)), RECORD_PREFIX, b.digest + ([DASH] + (b.token + tail)));
    LessJoin(a.digest, [DASH] + (a.token + tail), b.digest, [DASH] + (b.token + tail));
    LessJoin([DASH], a.token + tail, [DASH], b.token + tail);
    LessJoin(a.token, tail, b.token, tail);
  }

  /** The keys in the order sort.Slice leaves them. */
  ghost function SortedKeys(keys: set<Key>): seq<Key> {
    Sort(KeyLess, Enumerate(keys))
  }

  lemma KeysSorted(keys: set<Key>, listed: seq<Key>)
    requires Distinct(listed) && forall k :: k in listed <==> k in keys
    ensures Sort(KeyLess, listed) == SortedKeys(keys)
    ensures Sorted(KeyLess, SortedKeys(keys)) && forall k :: k in SortedKeys(keys) <==> k in keys
  {
    KeyOrder();
    SortSorts(KeyLess, listed);
    SortSorts(KeyLess, Enumerate(keys));
    SortedUnique(KeyLess, Sort(KeyLess, listed), SortedKeys(keys));
  }

  // ----- one record -----

  function DecodeRecord(c: Codec, r: Record): Result<Frame, LedgerError> {
    if !ValidId(r.id) then Failure(Corrupt)
    else
      match DecodeFrame(c, r.contents)
      case Failure(e) => Failure(e)
      case Success(f) => if IdOf(f) != r.id then Failure(Corrupt) else Success(f)
  }

  /** The record a frame is retained as. */
  function RecordOf(c: Codec, f: Frame): Record {
    Record(IdOf(f), match EncodeFrame(c, f) case Success(b) => b case Failure(_) => [])
  }

  lemma DecodeRecordExactly(c: Codec, r: Record, f: Frame)
    requires Faithful(c)
    ensures DecodeRecord(c, r) == Success(f) <==> EncodeFrame(c, f).Success? && r == RecordOf(c, f)
  {
    DecodeIsInverse(c, r.contents, f);
    if EncodeFrame(c, f).Success? { assert ValidFrame(c, f); }
  }

  // ----- all records -----

  predicate IdListed(rs: seq<Record>, id: RecordId) {
    exists i :: 0 <= i < |rs| && rs[i].id == id
  }

  /** Decoding in listing order; a repeated identity is corruption. */
  function DecodeAll(c: Codec, rs: seq<Record>): (r: Result<seq<Frame>, LedgerError>)
    ensures r.Success? ==> |r.value| == |rs|
  {
    if rs == [] then Success([])
    else
      var n := |rs| - 1;
      match DecodeAll(c, rs[..n])
      case Failure(e) => Failure(e)
      case Success(frames) =>
        match DecodeRecord(c, rs[n])
        case Failure(e) => Failure(e)
        case Success(f) => if IdListed(rs[..n], rs[n].id) then Failure(Corrupt) else Success(frames + [f])
  }

  function AddToGroup(groups: map<Key, seq<Frame>>, f: Frame): map<Key, seq<Frame>> {
    var k := KeyOf(f.binding);
    groups[k := (if k in groups then groups[k] else []) + [f]]
  }

  function Groups(frames: seq<Frame>): map<Key, seq<Frame>> {
    if frames == [] then map[] else AddToGroup(Groups(frames[..|frames| - 1]), frames[|frames| - 1])
  }

  /** Sorting each group by ordinal and replaying it, in key order. */
  function ReplayGroups(c: Codec, groups: map<Key, seq<Frame>>, keys: seq<Key>): (r: Result<seq<History>, LedgerError>)
    requires forall k :: k in keys ==> k in groups
    ensures r.Success? ==> |r.value| == |keys|
  {
    if keys == [] then Success([])
    else
      var n := |keys| - 1;
      match ReplayGroups(c, groups, keys[..n])
      case Failure(e) => Failure(e)
      case Success(done) =>
        var frames := Sort(OrdinalLess, groups[keys[n]]);
        match Replay(c, frames)
        case Failure(e) => Failure(e)
        case Success(r) => Success(done + [History(frames, r)])
  }

  // ----- unique outstanding sources -----

  /** One length-prefixed part; the length keeps only its low four bytes. */
  function KeyPart(value: bytes): bytes {
    BigEndian(|value|, 4) + value
  }

  function KeyParts(values: seq<bytes>): bytes {
    if values == [] then [] else KeyPart(values[0]) + KeyParts(values[1..])
  }

  function SourceKey(b: Binding): bytes {
    KeyPart(b.root) + KeyParts(b.source)
  }

  predicate Open(h: History) { !Closed(h.recovery.fact) }

  predicate UniqueOpenSources(hs: seq<History>) {
    forall i, j :: 0 <= i < j < |hs| && Open(hs[i]) && Open(hs[j]) ==> SourceKey(hs[i].recovery.binding) != SourceKey(hs[j].recovery.binding)
  }

  lemma KeyPartUnambiguous(a: bytes, x: bytes, b: bytes, y: bytes)
    requires |a| < 0x1_0000_0000 && |b| < 0x1_0000_0000
    requires KeyPart(a) + x == KeyPart(b) + y
    ensures a == b && x == y
  {
    var p, q := BigEndian(|a|, 4), BigEndian(|b|, 4);
    var whole := KeyPart(a) + x;
    assert p == whole[..4] == q;
    Power4();
    BigEndianRoundTrip(|a|, 4);
    BigEndianRoundTrip(|b|, 4);
    assert a == whole[4..4 + |a|] == b;
    assert x == whole[4 + |a|..] == y;
  }

  lemma Power4()
    ensures Power256(4) == 0x1_0000_0000
  {
    assert Power256(2) == 256 * Power256(1);
    assert Power256(3) == 256 * Power256(2);
  }

  lemma {:induction false} KeyPartsUnambiguous(s: seq<bytes>, t: seq<bytes>)
    requires forall v :: v in s || v in t ==> |v| < 0x1_0000_0000
    requires KeyParts(s) == KeyParts(t)
    ensures s == t
  {
    if s != [] && t != [] {
      KeyPartUnambiguous(s[0], KeyParts(s[1..]), t[0], KeyParts(t[1..]));
      KeyPartsUnambiguous(s[1..], t[1..]);
      assert s == [s[0]] + s[1..] && t == [t[0]] + t[1..];
    }
  }

  /** The key string determines root and source: no two sources are confused. */
  lemma SourceKeyInjective(c: Codec, a: Binding, sa: nat, b: Binding, sb: nat)
    requires ValidBinding(c, a, sa) && ValidBinding(c, b, sb)
    ensures SourceKey(a) == SourceKey(b) <==> a.root == b.root && a.source == b.source
  {
    if SourceKey(a) == SourceKey(b) {
      KeyPartUnambiguous(a.root, KeyParts(a.source), b.root, KeyParts(b.source));
      forall v | v in a.source || v in b.source ensures |v| < 0x1_0000_0000 {
        if v in a.source {
          var i :| 0 <= i < |a.source| && a.source[i] == v;
          ComponentWithinRaw(a.source, i);
        } else {
          var i :| 0 <= i < |b.source| && b.source[i] == v;
          ComponentWithinRaw(b.source, i);
        }
      }
      KeyPartsUnambiguous(a.source, b.source);
    }
  }

  method EnsureUniqueOutstandingSources(hs: seq<History>) returns (result: Check<LedgerError>)
    ensures result == if UniqueOpenSources(hs) then Pass else Fail(Conflict)
  {
    var seen: set<bytes> := {};
    var index := 0;
    while index < |hs|
      invariant 0 <= index <= |hs|
      invariant UniqueOpenSources(hs[..index])
      invariant forall key :: key in seen <==> exists i :: 0 <= i < index && Open(hs[i]) && SourceKey(hs[i].recovery.binding) == key
    {
      if Open(hs[index]) {
        var key := SourceKey(hs[index].recovery.binding);
        if key in seen { return Fail(Conflict); }
        seen := seen + {key};
      }
      index := index + 1;
    }
    assert hs[..index] == hs;
    return Pass;
  }

  // ----- the whole replay -----

  ghost function ReplayRecords(c: Codec, rs: seq<Record>): Result<seq<History>, LedgerError> {
    if |rs| > MAXIMUM_RECORDS then Failure(Unsupported)
    else
      match DecodeAll(c, rs)
      case Failure(e) => Failure(e)
      case Success(frames) =>
        var groups := Groups(frames);
        KeysSorted(groups.Keys, Enumerate(groups.Keys));
        match ReplayGroups(c, groups, SortedKeys(groups.Keys))
        case Failure(e) => Failure(e)
        case Success(hs) => if UniqueOpenSources(hs) then Success(hs) else Failure(Conflict)
  }

  method ReplayLedgerRecords(c: Codec, rs: seq<Record>) returns (result: Result<seq<History>, LedgerError>)
    ensures result == ReplayRecords(c, rs)
  {
    if |rs| > MAXIMUM_RECORDS { return Failure(Unsupported); }
    var groups, failure := CollectGroups(c, rs);
    if failure.Some? { return Failure(failure.value); }
    var keys := SortKeys(groups.Keys);
    var replayed := ReplaySortedGroups(c, groups, keys);
    if replayed.Failure? { return replayed; }
    var unique := EnsureUniqueOutstandingSources(replayed.value);
    if unique.Fail? { return Failure(unique.error); }
    return replayed;
  }

  /** The second loop: each group sorted by ordinal and replayed. */
  method ReplaySortedGroups(c: Codec, groups: map<Key, seq<Frame>>, keys: seq<Key>) returns (result: Result<seq<History>, LedgerError>)
    requires forall k :: k in keys ==> k in groups
    ensures result == ReplayGroups(c, groups, keys)
  {
    hide Replay, Sort;
    var histories: seq<History> := [];
    var index := 0;
    while index < |keys|
      invariant 0 <= index <= |keys|
      invariant ReplayGroups(c, groups, keys[..index]) == Success(histories)
    {
      assert keys[..index + 1][..index] == keys[..index];
      var frames := Sort(OrdinalLess, groups[keys[index]]);
      var r := ReplayRecoveryFrames(c, frames);
      if r.Failure? {
        GroupFailureSticks(c, groups, keys, index + 1);
        return Failure(r.error);
      }
      histories := histories + [History(frames, r.value)];
      index := index + 1;
    }
    assert keys[..index] == keys;
    return Success(histories);
  }

  /** The first loop: decode every record, refuse repeated identities, group by key. */
  method CollectGroups(c: Codec, rs: seq<Record>) returns (groups: map<Key, seq<Frame>>, failure: Option<LedgerError>)
    ensures match DecodeAll(c, rs)
            case Failure(e) => failure == Some(e)
            case Success(frames) => failure == None && groups == Groups(frames)
  {
    hide DecodeRecord, AddToGroup;
    groups := map[];
    failure := None;
    var seen: set<RecordId> := {};
    ghost var frames: seq<Frame> := [];
    var index := 0;
    while index < |rs|
      invariant 0 <= index <= |rs|
      invariant DecodeAll(c, rs[..index]) == Success(frames) && groups == Groups(frames)
      invariant forall id :: id in seen <==> IdListed(rs[..index], id)
    {
      assert rs[..index + 1][..index] == rs[..index];
      var f := DecodeRecord(c, rs[index]);
      if f.Failure? || rs[index].id in seen {
        DecodeFailureSticks(c, rs, index + 1);
        failure := Some(if f.Failure? then f.error else Corrupt);
        return;
      }
      seen := seen + {rs[index].id};
      groups := AddToGroup(groups, f.value);
      assert (frames + [f.value])[..|frames|] == frames;
      frames := frames + [f.value];
      ListedNext(rs, index);
      index := index + 1;
    }
    assert rs[..index] == rs;
  }

  lemma ListedNext(rs: seq<Record>, n: nat)
    requires n < |rs|
    ensures forall id :: IdListed(rs[..n + 1], id) <==> IdListed(rs[..n], id) || id == rs[n].id
  {
    forall id ensures IdListed(rs[..n + 1], id) <==> IdListed(rs[..n], id) || id == rs[n].id {
      if IdListed(rs[..n], id) {
        var i :| 0 <= i < n && rs[..n][i].id == id;
        assert rs[..n + 1][i].id == id;
      }
      assert rs[..n + 1][n] == rs[n];
    }
  }

  lemma {:induction false} DecodeFailureSticks(c: Codec, rs: seq<Record>, n: nat)
    requires n <= |rs| && DecodeAll(c, rs[..n]).Failure?
    ensures DecodeAll(c, rs) == DecodeAll(c, rs[..n])
    decreases |rs| - n
  {
    if n == |rs| {
      assert rs[..n] == rs;
    } else {
      assert rs[..n + 1][..n] == rs[..n];
      DecodeFailureSticks(c, rs, n + 1);
    }
  }

  lemma {:induction false} GroupFailureSticks(c: Codec, groups: map<Key, seq<Frame>>, keys: seq<Key>, n: nat)
    requires n <= |keys| && (forall k :: k in keys ==> k in groups) && ReplayGroups(c, groups, keys[..n]).Failure?
    ensures ReplayGroups(c, groups, keys) == ReplayGroups(c, groups, keys[..n])
    decreases |keys| - n
  {
    if n == |keys| {
      assert keys[..n] == keys;
    } else {
      assert keys[..n + 1][..n] == keys[..n];
      GroupFailureSticks(c, groups, keys, n + 1);
    }
  }

  /** Ranging over the group keys in an arbitrary order and sorting them. */
  method SortKeys(keys: set<Key>) returns (sorted: seq<Key>)
    ensures sorted == SortedKeys(keys) && forall k :: k in sorted <==> k in keys
  {
    var remaining := keys;
    var listed: seq<Key> := [];
    while remaining != {}
      invariant Distinct(listed) && remaining <= keys
      invariant forall k :: k in listed <==> k in keys && k !in remaining
      decreases remaining
    {
      var k :| k in remaining;
      assert k !in listed;
      listed := listed + [k];
      remaining := remaining - {k};
    }
    KeysSorted(keys, listed);
    sorted := Sort(KeyLess, listed);
  }
}
