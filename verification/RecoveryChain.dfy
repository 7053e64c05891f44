/** Recovery frames, their canonical bytes, the digest chain and its replay. */
module RecoveryChain {
  import opened Base
  import opened PathBytes
  import opened RecoveryGraph
  import opened RecordName
  import Cbor

  const SCHEMA_V1 := 1
  const SCHEMA_V2 := 2
  const MAXIMUM_FRAME_BYTES := 65536
  const MAXIMUM_PATH_COMPONENTS := 128
  const MAXIMUM_PATH_BYTES := 16384
  const ZERO_DIGEST: Digest := Zeros(32)

  type Digest = d: bytes | |d| == 32 witness Zeros(32)

  function Zeros(n: nat): (r: bytes)
    ensures |r| == n && forall i :: 0 <= i < n ==> r[i] == 0
  {
    if n == 0 then [] else [0] + Zeros(n - 1)
  }

  datatype ActionKind = TrashPath | QuarantinePath | OtherKind(text: bytes)

  /** The immutable facts of one reservation. The payload stands for the action, its plan digest and its
      filesystem precondition, which are projections of it. */
  datatype Binding = Binding(
    digest: bytes,
    payload: bytes,
    token: bytes,
    root: bytes,
    source: seq<bytes>,
    kind: ActionKind,
    destination: Destination,
    layout: Digest)

  datatype Frame = Frame(
    schema: nat,
    binding: Binding,
    fact: Fact,
    ordinal: nat,
    predecessor: Digest)

  /** The replayed view of one recovery. */
  datatype Recovery = Recovery(
    schema: nat,
    binding: Binding,
    fact: Fact,
    ordinal: nat,
    digest: Digest)

  /** What lies outside this model: the projection of an action payload, the wire form of a frame as a
      CBOR value and back, and the hash (its first argument selects the domain separator). */
  datatype Codec = Codec(
    projects: (Binding, nat) -> bool,
    wire: Frame -> Cbor.Value,
    unwire: bytes -> Option<Frame>,
    hash: (nat, bytes) -> Digest)

  // ----- validation -----

  function DestinationFor(kind: ActionKind): Destination {
    if kind == QuarantinePath then Quarantine else Trash
  }

  predicate LayoutAllowed(kind: ActionKind, layout: Digest, schema: nat) {
    if schema == SCHEMA_V1 then layout == ZERO_DIGEST
    else if schema == SCHEMA_V2 then
      if kind == TrashPath then layout != ZERO_DIGEST
      else if kind == QuarantinePath then layout == ZERO_DIGEST
      else false
    else false
  }

  predicate ValidRecoveryPath(source: seq<bytes>) {
    1 <= |source| <= MAXIMUM_PATH_COMPONENTS && RawLength(source) <= MAXIMUM_PATH_BYTES && ValidPath(source)
  }

  predicate ValidBinding(c: Codec, b: Binding, schema: nat) {
    && 1 <= |b.payload| <= MAXIMUM_FRAME_BYTES
    && ValidStableId(b.root)
    && ValidRecoveryPath(b.source)
    && (b.kind == TrashPath || b.kind == QuarantinePath)
    && LayoutAllowed(b.kind, b.layout, schema)
    && b.destination == DestinationFor(b.kind)
    && ValidId(RecordId(b.digest, b.token, 0))
    && c.projects(b, schema)
  }

  function ValidateFrame(c: Codec, f: Frame): Check<LedgerError> {
    if f.schema != SCHEMA_V1 && f.schema != SCHEMA_V2 then Fail(Corrupt)
    else if !ValidBinding(c, f.binding, f.schema) then Fail(Corrupt)
    else if f.fact.event.OtherEvent? then Fail(Corrupt)
    else if f.ordinal > MAXIMUM_ORDINAL then Fail(Corrupt)
    else if f.ordinal == 0 then
      if f.fact != INTENT || f.predecessor != ZERO_DIGEST then Fail(Corrupt) else Pass
    else if f.fact.event == IntentReserved || f.predecessor == ZERO_DIGEST then Fail(Corrupt)
    else if f.fact.event == ReconciliationResolved then
      if f.fact.outcome.NoOutcome? || f.fact.outcome.OtherOutcome? || f.fact.metadata.OtherMetadata? then Fail(Corrupt) else Pass
    else if f.fact.outcome != NoOutcome || f.fact.metadata != NoMetadata then Fail(Corrupt)
    else Pass
  }

  predicate ValidFrame(c: Codec, f: Frame) {
    ValidateFrame(c, f).Pass?
  }

  // ----- bytes and digests -----

  function EncodeFrame(c: Codec, f: Frame): Result<bytes, LedgerError> {
    match ValidateFrame(c, f)
    case Fail(e) => Failure(e)
    case Pass =>
      var encoded := Cbor.Encode(c.wire(f));
      if |encoded| > MAXIMUM_FRAME_BYTES then Failure(Unsupported) else Success(encoded)
  }

  function FrameDigest(c: Codec, f: Frame): Result<Digest, LedgerError> {
    match EncodeFrame(c, f)
    case Failure(e) => Failure(e)
    case Success(encoded) => Success(c.hash(f.schema, encoded))
  }

  /** Strict decoding: the bytes must be exactly the canonical encoding of the frame they decode to. */
  function DecodeFrame(c: Codec, contents: bytes): Result<Frame, LedgerError> {
    if |contents| == 0 || |contents| > MAXIMUM_FRAME_BYTES then Failure(Corrupt)
    else
      match c.unwire(contents)
      case None => Failure(Corrupt)
      case Some(f) =>
        match EncodeFrame(c, f)
        case Failure(e) => Failure(e)
        case Success(canonical) => if contents != canonical then Failure(Corrupt) else Success(f)
  }

  /** The CBOR library reads back what it wrote, and what it writes is a CBOR value. */
  ghost predicate Faithful(c: Codec) {
    forall f :: ValidFrame(c, f) ==> Cbor.Encodable(c.wire(f)) && c.unwire(Cbor.Encode(c.wire(f))) == Some(f)
  }

  /** The hash tells the bytes of the two frames, and their schemas, apart. */
  predicate ToldApart(c: Codec, f: Frame, g: Frame) {
    match (EncodeFrame(c, f), EncodeFrame(c, g))
    case (Success(a), Success(b)) => c.hash(f.schema, a) == c.hash(g.schema, b) ==> f.schema == g.schema && a == b
    case _ => true
  }

  /** The hash does not collide on the frames of the two histories. */
  ghost predicate CollisionFree(c: Codec, h: seq<Frame>, g: seq<Frame>) {
    forall i, j :: 0 <= i < |h| && 0 <= j < |g| ==> ToldApart(c, h[i], g[j])
  }

  /** Every frame of this reservation fits the size bound, and no digest is the zero digest. */
  ghost predicate Roomy(c: Codec, b: Binding) {
    && (forall f :: ValidFrame(c, f) && f.binding == b ==> |Cbor.Encode(c.wire(f))| <= MAXIMUM_FRAME_BYTES)
    && (forall s, a :: c.hash(s, a) != ZERO_DIGEST)
  }

  lemma DecodeIsInverse(c: Codec, contents: bytes, f: Frame)
    requires Faithful(c)
    ensures DecodeFrame(c, contents) == Success(f) <==> EncodeFrame(c, f) == Success(contents)
  {
    if EncodeFrame(c, f) == Success(contents) {
      assert ValidFrame(c, f);
      assert c.unwire(Cbor.Encode(c.wire(f))) == Some(f);
    }
  }

  /** A torn frame, a proper prefix of a canonical one, is never decoded as any frame. */
  lemma TornNeverDecodes(c: Codec, f: Frame, kept: nat)
    requires Faithful(c) && EncodeFrame(c, f).Success? && kept < |EncodeFrame(c, f).value|
    ensures DecodeFrame(c, EncodeFrame(c, f).value[..kept]).Failure?
  {
    var torn := EncodeFrame(c, f).value[..kept];
    if DecodeFrame(c, torn).Success? {
      var g := DecodeFrame(c, torn).value;
      assert ValidFrame(c, f) && ValidFrame(c, g);
      Cbor.PrefixFree(c.wire(g), c.wire(f));
      assert false;
    }
  }

  // ----- replay -----

  function TransitionOf(f: Frame): Fact { f.fact }

  function ValidateTransition(c: Codec, r: Recovery, t: Fact): Check<LedgerError> {
    if !ValidBinding(c, r.binding, r.schema) then Fail(Corrupt)
    else ValidateStep(r.binding.destination, r.fact, t)
  }

  function FromFrame(c: Codec, f: Frame): Result<Recovery, LedgerError> {
    match FrameDigest(c, f)
    case Failure(e) => Failure(e)
    case Success(digest) => Success(Recovery(f.schema, f.binding, f.fact, f.ordinal, digest))
  }

  function Apply(c: Codec, r: Recovery, f: Frame): Result<Recovery, LedgerError> {
    if r.schema != f.schema then Failure(Corrupt)
    else
      match FrameDigest(c, f)
      case Failure(e) => Failure(e)
      case Success(digest) => Success(r.(fact := f.fact, ordinal := f.ordinal, digest := digest))
  }

  /** One round of the replay loop: frame f at position index, after previous and the recovery r. */
  function ReplayNext(c: Codec, r: Recovery, previous: Frame, f: Frame, index: nat): Result<Recovery, LedgerError> {
    if ValidateFrame(c, f).Fail? then Failure(ValidateFrame(c, f).error)
    else if f.ordinal != index then Failure(Corrupt)
    else if f.schema != r.schema then Failure(Corrupt)
    else if f.binding != r.binding then Failure(Corrupt)
    else
      match FrameDigest(c, previous)
      case Failure(e) => Failure(e)
      case Success(digest) =>
        if f.predecessor != digest then Failure(Corrupt)
        else if ValidateTransition(c, r, TransitionOf(f)).Fail? then Failure(Corrupt)
        else Apply(c, r, f)
  }

  function ReplayFirst(c: Codec, f: Frame): Result<Recovery, LedgerError> {
    if ValidateFrame(c, f).Fail? then Failure(ValidateFrame(c, f).error)
    else if f.ordinal != 0 then Failure(Corrupt)
    else if f.fact.event != IntentReserved || f.predecessor != ZERO_DIGEST then Failure(Corrupt)
    else FromFrame(c, f)
  }

  function ReplayFrames(c: Codec, h: seq<Frame>): Result<Recovery, LedgerError>
    requires |h| > 0
  {
    var n := |h| - 1;
    if n == 0 then ReplayFirst(c, h[0])
    else
      match ReplayFrames(c, h[..n])
      case Failure(e) => Failure(e)
      case Success(r) => ReplayNext(c, r, h[n - 1], h[n], n)
  }

  function Replay(c: Codec, h: seq<Frame>): Result<Recovery, LedgerError> {
    if |h| == 0 || |h| > MAXIMUM_ORDINAL + 1 then Failure(Corrupt) else ReplayFrames(c, h)
  }

  /** The replay loop. */
  method ReplayRecoveryFrames(c: Codec, h: seq<Frame>) returns (result: Result<Recovery, LedgerError>)
    ensures result == Replay(c, h)
  {
    hide ReplayNext, ReplayFirst;
    if |h| == 0 || |h| > MAXIMUM_ORDINAL + 1 { return Failure(Corrupt); }
    result := ReplayFirst(c, h[0]);
    var index := 1;
    assert h[..1] == [h[0]];
    while index < |h| && result.Success?
      invariant 1 <= index <= |h|
      invariant result == ReplayFrames(c, h[..index])
    {
      assert h[..index + 1][..index] == h[..index];
      result := ReplayNext(c, result.value, h[index - 1], h[index], index);
      index := index + 1;
    }
    if result.Failure? { FailureSticks(c, h, index); }
    assert h[..|h|] == h;
  }

  lemma {:induction false} FailureSticks(c: Codec, h: seq<Frame>, n: nat)
    requires 0 < n <= |h| && ReplayFrames(c, h[..n]).Failure?
    ensures ReplayFrames(c, h) == ReplayFrames(c, h[..n])
    decreases |h| - n
  {
    if n == |h| {
      assert h[..n] == h;
    } else {
      assert h[..n + 1][..n] == h[..n];
      FailureSticks(c, h, n + 1);
    }
  }

  // ----- what a replayable history is, without the loop -----

  function Facts(h: seq<Frame>): (p: seq<Fact>)
    ensures |p| == |h|
    ensures forall i :: 0 <= i < |h| ==> p[i] == h[i].fact
  {
    seq(|h|, i requires 0 <= i < |h| => h[i].fact)
  }

  predicate Chained(c: Codec, h: seq<Frame>, i: nat)
    requires i < |h|
  {
    && FrameDigest(c, h[i]).Success?
    && h[i].ordinal == i
    && h[i].schema == h[0].schema
    && h[i].binding == h[0].binding
    && (i > 0 ==> FrameDigest(c, h[i - 1]) == Success(h[i].predecessor))
  }

  predicate ValidHistory(c: Codec, h: seq<Frame>) {
    && 1 <= |h| <= MAXIMUM_ORDINAL + 1
    && (forall i :: 0 <= i < |h| ==> Chained(c, h, i))
    && LegalPath(h[0].binding.destination, Facts(h))
  }

  /** The recovery a history stands for is read off its last frame. */
  function RecoveryOf(c: Codec, h: seq<Frame>): Recovery
    requires |h| > 0
  {
    var last := h[|h| - 1];
    Recovery(last.schema, last.binding, last.fact, last.ordinal, DigestOf(c, last))
  }

  function DigestOf(c: Codec, f: Frame): Digest {
    match FrameDigest(c, f)
    case Success(digest) => digest
    case Failure(_) => ZERO_DIGEST
  }

  /** Replay accepts exactly the valid histories: the digest chain and the graph, at every frame. */
  lemma {:induction false} ReplayAccepts(c: Codec, h: seq<Frame>)
    ensures Replay(c, h).Success? <==> ValidHistory(c, h)
    ensures ValidHistory(c, h) ==> Replay(c, h) == Success(RecoveryOf(c, h))
    decreases |h|
  {
    var n := |h| - 1;
    if n == 0 {
      assert h[0].fact == INTENT ==> LegalPath(h[0].binding.destination, Facts(h));
      if ValidHistory(c, h) { assert Chained(c, h, 0); }
      if Replay(c, h).Success? { assert Chained(c, h, 0); }
    } else if 0 < n <= MAXIMUM_ORDINAL {
      var g := h[..n];
      ReplayAccepts(c, g);
      SplitHistory(c, h);
      if ValidHistory(c, g) { StepAccepts(c, h); }
    }
  }

  /** One round of the loop accepts exactly a frame that continues the chain and the graph. */
  lemma StepAccepts(c: Codec, h: seq<Frame>)
    requires 1 < |h| && ValidHistory(c, h[..|h| - 1])
    ensures var n := |h| - 1;
            var r := ReplayNext(c, RecoveryOf(c, h[..n]), h[n - 1], h[n], n);
            && (r.Success? <==> Chained(c, h, n) && Legal(h[0].binding.destination, h[n - 1].fact, h[n].fact))
            && (r.Success? ==> r == Success(RecoveryOf(c, h)))
  {
    hide LegalPath, Legal, EncodeFrame, ReplayNext, DigestOf;
    var n := |h| - 1;
    var g := h[..n];
    assert g[n - 1] == h[n - 1] && g[0] == h[0];
    assert Chained(c, g, n - 1) && Chained(c, g, 0);
    FrameFollows(c, RecoveryOf(c, g), h[n - 1], h[n], n);
  }

  lemma FrameFollows(c: Codec, r: Recovery, previous: Frame, f: Frame, index: nat)
    requires r.schema == previous.schema && r.binding == previous.binding && r.fact == previous.fact
    requires FrameDigest(c, previous).Success?
    ensures var next := ReplayNext(c, r, previous, f, index);
            && (next.Success? <==>
                && FrameDigest(c, f).Success? && f.ordinal == index && f.schema == r.schema && f.binding == r.binding
                && FrameDigest(c, previous) == Success(f.predecessor)
                && Legal(r.binding.destination, r.fact, f.fact))
            && (next.Success? ==> next == Success(Recovery(f.schema, f.binding, f.fact, f.ordinal, DigestOf(c, f))))
  {
    LegalMeans(r.binding.destination, r.fact, f.fact);
    assert ValidFrame(c, previous);
    hide Legal, ValidateStep, ValidBinding;
  }

  lemma LegalMeans(destination: Destination, current: Fact, t: Fact)
    ensures Legal(destination, current, t) <==> ValidateStep(destination, current, t).Pass?
  {
  }

  /** A history is valid exactly when its prefix is and its last frame continues it. */
  lemma SplitHistory(c: Codec, h: seq<Frame>)
    requires 1 < |h| <= MAXIMUM_ORDINAL + 1
    ensures ValidHistory(c, h) <==>
            ValidHistory(c, h[..|h| - 1]) && Chained(c, h, |h| - 1) && Legal(h[0].binding.destination, h[|h| - 2].fact, h[|h| - 1].fact)
  {
    hide FrameDigest, Legal;
    var n := |h| - 1;
    var g := h[..n];
    assert forall i :: 0 <= i < n ==> g[i] == h[i];
    assert forall i :: 0 <= i < n ==> (Chained(c, g, i) <==> Chained(c, h, i));
    if ValidHistory(c, h) {
      assert LegalPath(h[0].binding.destination, Facts(g));
      assert Legal(h[0].binding.destination, Facts(h)[n - 1], Facts(h)[n]);
    }
  }

  /** Every non-empty prefix of a replayable history replays. */
  lemma {:induction false} PrefixReplays(c: Codec, h: seq<Frame>, n: nat)
    requires Replay(c, h).Success? && 1 <= n <= |h|
    ensures ValidHistory(c, h[..n]) && Replay(c, h[..n]) == Success(RecoveryOf(c, h[..n]))
    decreases |h|
  {
    ReplayAccepts(c, h);
    if n == |h| {
      assert h[..n] == h;
    } else {
      var g := h[..|h| - 1];
      SplitHistory(c, h);
      ReplayAccepts(c, g);
      hide *;
      PrefixReplays(c, g, n);
      assert g[..n] == h[..n];
    }
  }

  /** What the chain binds: every predecessor is the hash of the schema and the exact bytes of the frame before, and the
      digest of the recovery that of the last frame. */
  lemma DigestIsHash(c: Codec, h: seq<Frame>)
    requires Replay(c, h).Success?
    ensures forall i :: 0 <= i < |h| ==> EncodeFrame(c, h[i]).Success?
    ensures forall i :: 0 < i < |h| ==> h[i].predecessor == c.hash(h[i - 1].schema, EncodeFrame(c, h[i - 1]).value)
    ensures |h| > 0 && Replay(c, h).value.digest == c.hash(h[|h| - 1].schema, EncodeFrame(c, h[|h| - 1]).value)
  {
    ReplayAccepts(c, h);
    hide EncodeFrame, Replay, LegalPath;
    forall i | 0 <= i < |h| ensures EncodeFrame(c, h[i]).Success? { assert Chained(c, h, i); }
    forall i | 0 < i < |h| ensures h[i].predecessor == c.hash(h[i - 1].schema, EncodeFrame(c, h[i - 1]).value) {
      assert Chained(c, h, i);
    }
  }

  // ----- what is valid, spelled out -----

  /** A binding is valid for schema v1 without a layout, and for v2 with one exactly if it is for the Trash. */
  lemma BindingExactly(c: Codec, b: Binding, schema: nat)
    ensures ValidBinding(c, b, schema) <==>
              && c.projects(b, schema) && 1 <= |b.payload| <= 65536 && ValidStableId(b.root)
              && 1 <= |b.source| <= 128 && RawLength(b.source) <= 16384 && ValidPath(b.source)
              && ValidId(RecordId(b.digest, b.token, 0))
              && ((b.kind == TrashPath && b.destination == Trash) || (b.kind == QuarantinePath && b.destination == Quarantine))
              && (if b.layout == Zeros(32) then schema == 1 || (schema == 2 && b.kind == QuarantinePath) else schema == 2 && b.kind == TrashPath)
  {
    hide ValidId, ValidPath, ValidStableId, Zeros;
  }

  /** A frame is valid exactly if schema, binding and ordinal are, it is the intent exactly if it is the first one and
      has a predecessor exactly if it is not, and only a reconciliation carries an outcome and what became of the entry. */
  lemma FrameExactly(c: Codec, f: Frame)
    ensures ValidFrame(c, f) <==>
              && f.schema in {1, 2} && ValidBinding(c, f.binding, f.schema) && f.ordinal <= 15 && !f.fact.event.OtherEvent?
              && (f.ordinal == 0 <==> f.fact.event == IntentReserved) && (f.ordinal == 0 <==> f.predecessor == Zeros(32))
              && (if f.fact.event == ReconciliationResolved
                  then f.fact.outcome in {NotApplied, OutcomeMoveVerified, OutcomeRestoreVerified} && f.fact.metadata in {NoMetadata, Absent, Retained}
                  else f.fact.outcome == NoOutcome && f.fact.metadata == NoMetadata)
  {
    hide ValidBinding, Zeros;
  }
}
