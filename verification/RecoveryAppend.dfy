/** Appending one transition to a retained history, the laws of the chain, and when a recovery can be closed. */
module RecoveryAppend {
  import opened Base
  import opened RecoveryGraph
  import opened RecordName
  import opened RecoveryChain

  /** The frame that records transition t after history h. */
  function Append(c: Codec, h: seq<Frame>, t: Fact): Result<Frame, LedgerError> {
    match Replay(c, h)
    case Failure(e) => Failure(e)
    case Success(r) =>
      if r.schema != SCHEMA_V2 then Failure(Unsupported)
      else if |h| == 0 || h[|h| - 1].ordinal >= MAXIMUM_ORDINAL then Failure(Conflict)
      else if ValidateTransition(c, r, t).Fail? then Failure(ValidateTransition(c, r, t).error)
      else
        match FrameDigest(c, h[|h| - 1])
        case Failure(e) => Failure(e)
        case Success(predecessor) =>
          var f := Frame(r.schema, r.binding, t, r.ordinal + 1, predecessor);
          match ValidateFrame(c, f)
          case Fail(e) => Failure(e)
          case Pass => Success(f)
  }

  // ----- chain laws -----

  lemma HistoryFacts(c: Codec, h: seq<Frame>)
    requires ValidHistory(c, h)
    ensures var last := h[|h| - 1];
            && |h| <= MAXIMUM_ORDINAL + 1
            && last.ordinal == |h| - 1 && last.schema == h[0].schema && last.binding == h[0].binding
            && ValidFrame(c, last) && ValidBinding(c, last.binding, last.schema)
            && FrameDigest(c, last) == Success(DigestOf(c, last))
            && (last.schema == SCHEMA_V1 || last.schema == SCHEMA_V2)
  {
    assert Chained(c, h, |h| - 1) && Chained(c, h, 0);
  }

  lemma ExtendHistory(c: Codec, h: seq<Frame>, f: Frame)
    requires ValidHistory(c, h) && |h| <= MAXIMUM_ORDINAL
    ensures var last := h[|h| - 1];
            ValidHistory(c, h + [f]) <==>
              && FrameDigest(c, f).Success? && f.ordinal == |h| && f.schema == last.schema && f.binding == last.binding
              && FrameDigest(c, last) == Success(f.predecessor)
              && Legal(last.binding.destination, last.fact, f.fact)
  {
    HistoryFacts(c, h);
    var g := h + [f];
    SplitHistory(c, g);
    assert g[..|g| - 1] == h;
    hide FrameDigest, Legal;
  }

  /** Appending and replaying agree: a v2 history grows by f exactly when Append produces f and f can be
      encoded, and the longer history replays to the shorter one's recovery after Apply. */
  lemma AppendReplays(c: Codec, h: seq<Frame>, f: Frame)
    requires Replay(c, h).Success? && h[0].schema == SCHEMA_V2
    ensures Append(c, h, f.fact) == Success(f) && EncodeFrame(c, f).Success? <==> Replay(c, h + [f]).Success?
    ensures Replay(c, h + [f]).Success? ==> Apply(c, Replay(c, h).value, f) == Replay(c, h + [f])
  {
    var g := h + [f];
    ReplayAccepts(c, h);
    ReplayAccepts(c, g);
    HistoryFacts(c, h);
    if |h| <= MAXIMUM_ORDINAL {
      ExtendHistory(c, h, f);
      assert g[|g| - 1] == f;
      assert h[0] == g[0];
      LegalMeans(h[|h| - 1].binding.destination, h[|h| - 1].fact, f.fact);
      hide ValidBinding, ValidHistory, Replay, Legal, ValidateStep;
    }
  }

  /** The last digest determines the whole history, frame by frame, unless two frames of the two histories
      collide under the hash. */
  lemma {:induction false} SameDigestSameHistory(c: Codec, h: seq<Frame>, g: seq<Frame>)
    requires Faithful(c) && CollisionFree(c, h, g)
    requires Replay(c, h).Success? && Replay(c, g).Success?
    requires Replay(c, h).value.digest == Replay(c, g).value.digest
    ensures h == g
    decreases |h|
  {
    hide *;
    SameDigestLastFrames(c, h, g);
    var n := |h| - 1;
    if n > 0 {
      CollisionFreePrefixes(c, h, g, n);
      SameDigestSameHistory(c, h[..n], g[..n]);
    }
    SameParts(h, g);
  }

  lemma CollisionFreePrefixes(c: Codec, h: seq<Frame>, g: seq<Frame>, n: nat)
    requires CollisionFree(c, h, g) && n <= |h| && n <= |g|
    ensures CollisionFree(c, h[..n], g[..n])
  {
    hide ToldApart;
  }

  lemma SameParts(h: seq<Frame>, g: seq<Frame>)
    requires |h| == |g| > 0 && h[..|h| - 1] == g[..|g| - 1] && h[|h| - 1] == g[|g| - 1]
    ensures h == g
  {
    assert h == h[..|h| - 1] + [h[|h| - 1]] && g == g[..|g| - 1] + [g[|g| - 1]];
  }

  lemma SameDigestLastFrames(c: Codec, h: seq<Frame>, g: seq<Frame>)
    requires Faithful(c) && CollisionFree(c, h, g)
    requires Replay(c, h).Success? && Replay(c, g).Success?
    requires Replay(c, h).value.digest == Replay(c, g).value.digest
    ensures |h| == |g| > 0 && h[|h| - 1] == g[|g| - 1]
    ensures |h| > 1 ==> Replay(c, h[..|h| - 1]).Success? && Replay(c, g[..|g| - 1]).Success?
    ensures |h| > 1 ==> Replay(c, h[..|h| - 1]).value.digest == Replay(c, g[..|g| - 1]).value.digest
  {
    ReplayAccepts(c, h);
    ReplayAccepts(c, g);
    HistoryFacts(c, h);
    HistoryFacts(c, g);
    hide Replay, DigestOf, Faithful;
    var n := |h| - 1;
    SameHashSameFrame(c, h[n], g[|g| - 1]);
    if n > 0 {
      assert Chained(c, h, n) && Chained(c, g, n);
      hide ValidHistory, FrameDigest;
      PrefixReplays(c, h, n);
      PrefixReplays(c, g, n);
      SameLastDigest(c, h[..n], g[..n]);
    }
  }

  lemma SameLastDigest(c: Codec, h: seq<Frame>, g: seq<Frame>)
    requires |h| > 0 && |g| > 0 && FrameDigest(c, h[|h| - 1]) == FrameDigest(c, g[|g| - 1])
    ensures RecoveryOf(c, h).digest == RecoveryOf(c, g).digest
  {
  }

  lemma SameHashSameFrame(c: Codec, f: Frame, g: Frame)
    requires Faithful(c) && ToldApart(c, f, g)
    requires FrameDigest(c, f).Success? && FrameDigest(c, f) == FrameDigest(c, g)
    ensures f == g
  {
    hide EncodeFrame, Faithful;
    SameEncodingSameFrame(c, f, g);
  }

  lemma SameEncodingSameFrame(c: Codec, f: Frame, g: Frame)
    requires Faithful(c)
    requires EncodeFrame(c, f).Success? && EncodeFrame(c, f) == EncodeFrame(c, g)
    ensures f == g
  {
    DecodeIsInverse(c, EncodeFrame(c, f).value, f);
    DecodeIsInverse(c, EncodeFrame(c, f).value, g);
  }

  /** Replay accepts one successor after two histories only if the hash of their last frames is the same: if those
      frames differ, the hash collides on their schemas and bytes. */
  lemma SuccessorBinds(c: Codec, h: seq<Frame>, g: seq<Frame>, f: Frame)
    requires Faithful(c) && |h| > 0 && |g| > 0 && Replay(c, h + [f]).Success? && Replay(c, g + [f]).Success?
    ensures |h| == |g| && var a, b := h[|h| - 1], g[|g| - 1];
            && EncodeFrame(c, a).Success? && EncodeFrame(c, b).Success?
            && c.hash(a.schema, EncodeFrame(c, a).value) == c.hash(b.schema, EncodeFrame(c, b).value)
            && (a != b ==> EncodeFrame(c, a).value != EncodeFrame(c, b).value)
  {
    DigestIsHash(c, h + [f]);
    DigestIsHash(c, g + [f]);
    LastOrdinal(c, h + [f]);
    LastOrdinal(c, g + [f]);
    var a, b := h[|h| - 1], g[|g| - 1];
    assert (h + [f])[|h| - 1] == a && (h + [f])[|h|] == f;
    assert (g + [f])[|g| - 1] == b && (g + [f])[|g|] == f;
    hide EncodeFrame, Replay, Faithful;
    if EncodeFrame(c, a) == EncodeFrame(c, b) { SameEncodingSameFrame(c, a, b); }
  }

  lemma LastOrdinal(c: Codec, h: seq<Frame>)
    requires Replay(c, h).Success?
    ensures |h| > 0 && h[|h| - 1].ordinal == |h| - 1
  {
    ReplayAccepts(c, h);
    HistoryFacts(c, h);
  }

  /** The graph's shape holds of every replayable history: its facts are a legal path. */
  lemma HistoryIsPath(c: Codec, h: seq<Frame>)
    requires Replay(c, h).Success?
    ensures LegalPath(h[0].binding.destination, Facts(h)) && |Facts(h)| <= 16
    ensures Restores(Facts(h)) <= 5
  {
    ReplayAccepts(c, h);
    AtMostFiveRestores(h[0].binding.destination, Facts(h));
  }

  // ----- closing a recovery -----

  /** Appending a whole sequence of transitions, each to the history left by the one before. */
  function AppendAll(c: Codec, h: seq<Frame>, ts: seq<Fact>): Result<seq<Frame>, LedgerError>
    decreases |ts|
  {
    if ts == [] then Success(h)
    else
      match Append(c, h, ts[0])
      case Failure(e) => Failure(e)
      case Success(f) => AppendAll(c, h + [f], ts[1..])
  }

  /** A legal step from a history with room is always appended, if frames always fit. */
  lemma LegalStepAppends(c: Codec, h: seq<Frame>, t: Fact)
    requires ValidHistory(c, h) && Roomy(c, h[0].binding) && h[0].schema == SCHEMA_V2 && |h| <= MAXIMUM_ORDINAL
    requires Legal(h[0].binding.destination, h[|h| - 1].fact, t)
    ensures Append(c, h, t).Success?
    ensures var f := Append(c, h, t).value;
            f.fact == t && ValidHistory(c, h + [f]) && (h + [f])[0] == h[0] && Facts(h + [f]) == Facts(h) + [t]
  {
    ReplayAccepts(c, h);
    HistoryFacts(c, h);
    var last := h[|h| - 1];
    var f := Frame(last.schema, last.binding, t, last.ordinal + 1, DigestOf(c, last));
    LegalMeans(last.binding.destination, last.fact, t);
    LegalFactIsStorable(last.binding.destination, last.fact, t);
    assert FrameDigest(c, last) == Success(c.hash(last.schema, EncodeFrame(c, last).value));
    assert ValidFrame(c, f);
    ExtendHistory(c, h, f);
    assert Facts(h + [f]) == Facts(h) + [t];
    hide ValidHistory, ValidBinding, Legal, ValidateStep, Cbor.Encode;
    assert Append(c, h, t) == Success(f);
  }

  lemma LegalFactIsStorable(destination: Destination, current: Fact, t: Fact)
    requires Legal(destination, current, t)
    ensures !t.event.OtherEvent? && t.event != IntentReserved
    ensures t.event == ReconciliationResolved ==> !t.outcome.NoOutcome? && !t.outcome.OtherOutcome? && !t.metadata.OtherMetadata?
    ensures t.event != ReconciliationResolved ==> t.outcome == NoOutcome && t.metadata == NoMetadata
  {
  }

  lemma AppendAllNext(c: Codec, h: seq<Frame>, ts: seq<Fact>, f: Frame)
    requires ts != [] && Append(c, h, ts[0]) == Success(f)
    ensures AppendAll(c, h, ts) == AppendAll(c, h + [f], ts[1..])
  {
  }

  lemma NextOnPath(destination: Destination, p: seq<Fact>, t: Fact, rest: seq<Fact>)
    requires |p| > 0 && LegalPath(destination, p + [t] + rest)
    ensures Legal(destination, p[|p| - 1], t)
  {
    var whole := p + [t] + rest;
    assert Legal(destination, whole[|p| - 1], whole[|p|]);
  }

  lemma FirstOfPathAppends(c: Codec, h: seq<Frame>, t: Fact, rest: seq<Fact>) returns (g: seq<Frame>)
    requires ValidHistory(c, h) && Roomy(c, h[0].binding) && h[0].schema == SCHEMA_V2 && |h| <= MAXIMUM_ORDINAL
    requires LegalPath(h[0].binding.destination, Facts(h) + [t] + rest)
    ensures ValidHistory(c, g) && |g| == |h| + 1 && g[0] == h[0] && Facts(g) == Facts(h) + [t]
    ensures AppendAll(c, h, [t] + rest) == AppendAll(c, g, rest)
  {
    NextOnPath(h[0].binding.destination, Facts(h), t, rest);
    LegalStepAppends(c, h, t);
    g := h + [Append(c, h, t).value];
    AppendAllNext(c, h, [t] + rest, Append(c, h, t).value);
    assert ([t] + rest)[1..] == rest;
  }

  lemma {:induction false} LegalPathAppends(c: Codec, h: seq<Frame>, ts: seq<Fact>)
    requires ValidHistory(c, h) && Roomy(c, h[0].binding) && h[0].schema == SCHEMA_V2 && |h| + |ts| <= MAXIMUM_ORDINAL + 1
    requires LegalPath(h[0].binding.destination, Facts(h) + ts)
    ensures AppendAll(c, h, ts).Success? && Facts(AppendAll(c, h, ts).value) == Facts(h) + ts
    decreases |ts|
  {
    if ts == [] {
      assert Facts(h) + ts == Facts(h);
    } else {
      assert |h| > 0;
      hide *;
      var t, rest := ts[0], ts[1..];
      assert ts == [t] + rest;
      assert Facts(h) + ts == Facts(h) + [t] + rest;
      var g := FirstOfPathAppends(c, h, t, rest);
      LegalPathAppends(c, g, rest);
    }
  }

  lemma AppendSuccessReplays(c: Codec, h: seq<Frame>, t: Fact)
    requires Append(c, h, t).Success?
    ensures Replay(c, h).Success?
  {
  }

  lemma AppendIsStep(c: Codec, h: seq<Frame>, t: Fact)
    requires Replay(c, h).Success? && Append(c, h, t).Success?
    ensures h[0].schema == SCHEMA_V2 && |h| <= MAXIMUM_ORDINAL
    ensures Append(c, h, t).value.fact == t
    ensures LegalPath(h[0].binding.destination, Facts(h) + [t])
    ensures Facts(h + [Append(c, h, t).value]) == Facts(h) + [t]
  {
    ReplayAccepts(c, h);
    HistoryFacts(c, h);
    LegalMeans(h[0].binding.destination, h[|h| - 1].fact, t);
    PathExtends(h[0].binding.destination, Facts(h), t);
    assert Facts(h + [Append(c, h, t).value]) == Facts(h) + [t];
  }

  lemma FirstOfAppends(c: Codec, h: seq<Frame>, t: Fact, rest: seq<Fact>) returns (g: seq<Frame>)
    requires Replay(c, h).Success? && AppendAll(c, h, [t] + rest).Success?
    ensures |h| > 0 && |g| == |h| + 1 && |h| <= MAXIMUM_ORDINAL && g[0] == h[0] && h[0].schema == SCHEMA_V2
    ensures Facts(g) == Facts(h) + [t] && LegalPath(h[0].binding.destination, Facts(g))
    ensures AppendAll(c, h, [t] + rest) == AppendAll(c, g, rest)
    ensures rest != [] ==> Replay(c, g).Success?
  {
    assert ([t] + rest)[0] == t && ([t] + rest)[1..] == rest;
    AppendIsStep(c, h, t);
    g := h + [Append(c, h, t).value];
    AppendAllNext(c, h, [t] + rest, Append(c, h, t).value);
    if rest != [] { AppendSuccessReplays(c, g, rest[0]); }
  }

  lemma {:induction false} AppendAllIsPath(c: Codec, h: seq<Frame>, ts: seq<Fact>)
    requires Replay(c, h).Success? && ts != [] && AppendAll(c, h, ts).Success?
    ensures |h| > 0 && h[0].schema == SCHEMA_V2
    ensures |h| + |ts| <= MAXIMUM_ORDINAL + 1
    ensures LegalPath(h[0].binding.destination, Facts(h) + ts)
    ensures Facts(AppendAll(c, h, ts).value) == Facts(h) + ts
    decreases |ts|
  {
    hide *;
    var t, rest := ts[0], ts[1..];
    assert ts == [t] + rest;
    assert Facts(h) + ts == Facts(h) + [t] + rest;
    var g := FirstOfAppends(c, h, t, rest);
    if rest == [] {
      assert ts == [t];
      AppendNone(c, g);
    } else {
      AppendAllIsPath(c, g, rest);
    }
  }

  lemma AppendNone(c: Codec, h: seq<Frame>)
    ensures AppendAll(c, h, []) == Success(h)
  {
  }

  /** The condition a caller can check: schema v2 and enough ordinals left for the stage it is in. */
  predicate CanClose(h: seq<Frame>)
    requires |h| > 0
  {
    var last := h[|h| - 1];
    last.schema == SCHEMA_V2 && last.ordinal + Distance(last.fact) <= MAXIMUM_ORDINAL
  }

  ghost predicate SomeTransitionsClose(c: Codec, h: seq<Frame>) {
    exists ts :: ClosedBy(c, h, ts)
  }

  ghost predicate ClosedBy(c: Codec, h: seq<Frame>, ts: seq<Fact>) {
    var r := AppendAll(c, h, ts);
    r.Success? && |r.value| > 0 && Closed(r.value[|r.value| - 1].fact)
  }

  /** An open recovery can still be closed exactly when its ordinal leaves room for its distance. */
  lemma ClosableExactly(c: Codec, h: seq<Frame>)
    requires Replay(c, h).Success? && !Closed(h[|h| - 1].fact) && Roomy(c, h[0].binding)
    ensures SomeTransitionsClose(c, h) <==> CanClose(h)
  {
    if CanClose(h) { CloseWithin(c, h); }
    forall ts | ClosedBy(c, h, ts) ensures CanClose(h) { CloseNeedsRoom(c, h, ts); }
  }

  lemma CloseWithin(c: Codec, h: seq<Frame>)
    requires Replay(c, h).Success? && CanClose(h) && Roomy(c, h[0].binding)
    ensures SomeTransitionsClose(c, h)
  {
    ReplayAccepts(c, h);
    HistoryFacts(c, h);
    var ts := ClosedFrom(h[0].binding.destination, Facts(h));
    LegalPathAppends(c, h, ts);
    var g := AppendAll(c, h, ts).value;
    assert Facts(g) == Facts(h) + ts;
    hide AppendAll, LegalPath, ValidHistory;
    assert ClosedBy(c, h, ts);
  }

  lemma CloseNeedsRoom(c: Codec, h: seq<Frame>, ts: seq<Fact>)
    requires Replay(c, h).Success? && !Closed(h[|h| - 1].fact) && ClosedBy(c, h, ts)
    ensures CanClose(h)
  {
    ReplayAccepts(c, h);
    HistoryFacts(c, h);
    assert ts != [];
    AppendAllIsPath(c, h, ts);
    assert Facts(AppendAll(c, h, ts).value) == Facts(h) + ts;
    hide AppendAll, LegalPath, ValidHistory;
    NoShorterWay(h[0].binding.destination, Facts(h), ts);
  }

  /** There is a reachable open history that can never be closed: the restore loop run to the last ordinal. */
  lemma {:induction false} StuckHistoryExists(c: Codec, h: seq<Frame>) returns (stuck: seq<Frame>)
    requires ValidHistory(c, h) && Roomy(c, h[0].binding) && |h| == 1 && h[0].schema == SCHEMA_V2 && h[0].binding.kind == QuarantinePath
    ensures exists ts :: AppendAll(c, h, ts) == Success(stuck)
    ensures Replay(c, stuck).Success? && |stuck| == 16 && !Closed(stuck[15].fact) && !SomeTransitionsClose(c, stuck)
    ensures Restores(Facts(stuck)) == 5
  {
    HistoryFacts(c, h);
    assert Facts(h) == [INTENT];
    hide Replay, LegalPath, ValidHistory, ValidBinding;
    stuck := AppendRounds(c, h);
    ReplayAccepts(c, stuck);
    HistoryFacts(c, stuck);
    RoundsAreLegal(4);
    ClosableExactly(c, stuck);
  }

  lemma AppendRounds(c: Codec, h: seq<Frame>) returns (g: seq<Frame>)
    requires ValidHistory(c, h) && Roomy(c, h[0].binding) && |h| == 1 && h[0].schema == SCHEMA_V2
    requires Facts(h) == [INTENT] && h[0].binding.destination == Quarantine
    ensures exists ts :: AppendAll(c, h, ts) == Success(g)
    ensures ValidHistory(c, g) && Facts(g) == Rounds(4) && g[0] == h[0]
  {
    RoundsAreLegal(4);
    var p := Rounds(4);
    assert Facts(h) + p[1..] == p;
    LegalPathAppends(c, h, p[1..]);
    g := AppendAll(c, h, p[1..]).value;
    AppendAllReplays(c, h, p[1..]);
    hide AppendAll, Rounds;
  }

  lemma {:induction false} AppendAllReplays(c: Codec, h: seq<Frame>, ts: seq<Fact>)
    requires ValidHistory(c, h) && Roomy(c, h[0].binding) && h[0].schema == SCHEMA_V2 && AppendAll(c, h, ts).Success?
    ensures ValidHistory(c, AppendAll(c, h, ts).value) && AppendAll(c, h, ts).value[0] == h[0]
    decreases |ts|
  {
    if ts != [] {
      var f := Append(c, h, ts[0]).value;
      ReplayAccepts(c, h);
      HistoryFacts(c, h);
      assert EncodeFrame(c, f).Success? by { assert ValidFrame(c, f); }
      AppendReplays(c, h, f);
      ReplayAccepts(c, h + [f]);
      AppendAllReplays(c, h + [f], ts[1..]);
    }
  }
}
