/** The closed transition graph of recovery facts, and what every path through it looks like. */
module RecoveryGraph {
  import opened Base

  datatype Event =
    | IntentReserved
    | MetadataDispatchRecorded
    | MetadataVerified
    | MetadataIndeterminate
    | MoveDispatchRecorded
    | MoveVerified
    | MoveIndeterminate
    | RestoreDispatchRecorded
    | RestoreVerified
    | RestoreIndeterminate
    | ReconciliationResolved
    | OtherEvent(text: bytes)

  /** NoOutcome is the empty string. */
  datatype Outcome = NoOutcome | NotApplied | OutcomeMoveVerified | OutcomeRestoreVerified | OtherOutcome(text: bytes)

  /** NoMetadata is the empty string. */
  datatype Metadata = NoMetadata | Absent | Retained | OtherMetadata(text: bytes)

  datatype Destination = Trash | Quarantine | OtherDestination(text: bytes)

  datatype LedgerError = Conflict | Corrupt | Unsupported | Interrupted | Drifted

  /** What one frame records, and what one transition requests. */
  datatype Fact = Fact(event: Event, outcome: Outcome, metadata: Metadata)

  const INTENT := Fact(IntentReserved, NoOutcome, NoMetadata)

  predicate Closed(f: Fact) {
    f.event == RestoreVerified || (f.event == ReconciliationResolved && f.outcome != OutcomeMoveVerified)
  }

  /** A reconciliation that verified the move stands where the move itself was verified. */
  function Stage(f: Fact): Event {
    if f.event == ReconciliationResolved && f.outcome == OutcomeMoveVerified then MoveVerified else f.event
  }

  function ValidateOrdinary(t: Fact): Check<LedgerError> {
    if t.outcome != NoOutcome || t.metadata != NoMetadata then Fail(Unsupported) else Pass
  }

  function ValidateNoEffect(destination: Destination, t: Fact): Check<LedgerError> {
    if t.event != ReconciliationResolved || t.outcome != NotApplied then Fail(Conflict)
    else if t.metadata != Absent && t.metadata != Retained then Fail(Unsupported)
    else if destination == Quarantine && t.metadata != Absent then Fail(Conflict)
    else Pass
  }

  function ValidateMoveReconciliation(t: Fact): Check<LedgerError> {
    if t.event != ReconciliationResolved then Fail(Conflict)
    else if t.outcome != NotApplied && t.outcome != OutcomeMoveVerified then Fail(Conflict)
    else if t.metadata != NoMetadata then Fail(Unsupported)
    else Pass
  }

  function ValidateRestoreReconciliation(t: Fact): Check<LedgerError> {
    if t.event != ReconciliationResolved then Fail(Conflict)
    else if t.outcome != OutcomeMoveVerified && t.outcome != OutcomeRestoreVerified then Fail(Conflict)
    else if t.metadata != NoMetadata then Fail(Unsupported)
    else Pass
  }

  /** Whether t may follow the current fact of a recovery with this destination. */
  function ValidateStep(destination: Destination, current: Fact, t: Fact): Check<LedgerError> {
    if Closed(current) then Fail(Conflict)
    else if t.event.OtherEvent? || t.event == IntentReserved then Fail(Unsupported)
    else
      match Stage(current)
      case IntentReserved =>
        if t.event == ReconciliationResolved then ValidateNoEffect(destination, t)
        else if destination == Trash && t.event == MetadataDispatchRecorded then ValidateOrdinary(t)
        else if destination == Quarantine && t.event == MoveDispatchRecorded then ValidateOrdinary(t)
        else Fail(Conflict)
      case MetadataDispatchRecorded =>
        if t.event == MetadataVerified || t.event == MetadataIndeterminate then ValidateOrdinary(t) else Fail(Conflict)
      case MetadataVerified =>
        if t.event == MoveDispatchRecorded then ValidateOrdinary(t)
        else if t.event == ReconciliationResolved then ValidateNoEffect(destination, t)
        else Fail(Conflict)
      case MetadataIndeterminate =>
        if t.event != ReconciliationResolved || t.outcome != NotApplied then Fail(Conflict)
        else ValidateNoEffect(destination, t)
      case MoveDispatchRecorded =>
        if t.event == MoveVerified || t.event == MoveIndeterminate then ValidateOrdinary(t) else Fail(Conflict)
      case MoveVerified =>
        if t.event == RestoreDispatchRecorded then ValidateOrdinary(t) else Fail(Conflict)
      case RestoreDispatchRecorded =>
        if t.event == RestoreVerified || t.event == RestoreIndeterminate then ValidateOrdinary(t) else Fail(Conflict)
      case MoveIndeterminate =>
        if t.event == ReconciliationResolved then ValidateMoveReconciliation(t) else Fail(Conflict)
      case RestoreIndeterminate =>
        if t.event == ReconciliationResolved then ValidateRestoreReconciliation(t) else Fail(Conflict)
      case _ => Fail(Conflict)
  }

  predicate Legal(destination: Destination, current: Fact, t: Fact) {
    ValidateStep(destination, current, t).Pass?
  }

  function Ordinary(e: Event): Fact { Fact(e, NoOutcome, NoMetadata) }

  /** The facts that may follow, listed. */
  function Successors(destination: Destination, current: Fact): set<Fact> {
    var unapplied := {Fact(ReconciliationResolved, NotApplied, Absent)}
                     + if destination == Quarantine then {} else {Fact(ReconciliationResolved, NotApplied, Retained)};
    var moved := Fact(ReconciliationResolved, OutcomeMoveVerified, NoMetadata);
    if Closed(current) then {}
    else
      match Stage(current)
      case IntentReserved =>
        unapplied + (if destination == Trash then {Ordinary(MetadataDispatchRecorded)}
                     else if destination == Quarantine then {Ordinary(MoveDispatchRecorded)} else {})
      case MetadataDispatchRecorded => {Ordinary(MetadataVerified), Ordinary(MetadataIndeterminate)}
      case MetadataVerified => unapplied + {Ordinary(MoveDispatchRecorded)}
      case MetadataIndeterminate => unapplied
      case MoveDispatchRecorded => {Ordinary(MoveVerified), Ordinary(MoveIndeterminate)}
      case MoveVerified => {Ordinary(RestoreDispatchRecorded)}
      case MoveIndeterminate => {Fact(ReconciliationResolved, NotApplied, NoMetadata), moved}
      case RestoreDispatchRecorded => {Ordinary(RestoreVerified), Ordinary(RestoreIndeterminate)}
      case RestoreIndeterminate => {moved, Fact(ReconciliationResolved, OutcomeRestoreVerified, NoMetadata)}
      case _ => {}
  }

  /** The checks let through exactly the listed facts. */
  lemma LegalExactly(destination: Destination, current: Fact, t: Fact)
    ensures Legal(destination, current, t) <==> t in Successors(destination, current)
  {
    if !Closed(current) {
      match Stage(current) {
        case IntentReserved =>
        case MetadataDispatchRecorded =>
        case MetadataVerified =>
        case MetadataIndeterminate =>
        case MoveDispatchRecorded =>
        case MoveVerified =>
        case MoveIndeterminate =>
        case RestoreDispatchRecorded =>
        case RestoreIndeterminate =>
        case _ =>
      }
    }
  }

  /** A path of facts from the intent, each one allowed after the one before it. */
  predicate LegalPath(destination: Destination, p: seq<Fact>) {
    && |p| > 0
    && p[0] == INTENT
    && forall i :: 0 < i < |p| ==> Legal(destination, p[i - 1], p[i])
  }

  // ----- the shape of every path -----

  /** How far along a recovery is; the restore loop lives at rank 4 and above. */
  function Rank(f: Fact): nat {
    match Stage(f)
    case IntentReserved => 0
    case MetadataDispatchRecorded => 1
    case MetadataVerified => 2
    case MetadataIndeterminate => 2
    case MoveDispatchRecorded => 3
    case _ => 4
  }

  lemma {:induction false} RankGrows(destination: Destination, p: seq<Fact>, i: nat, j: nat)
    requires LegalPath(destination, p) && i < j < |p|
    ensures Rank(p[i]) <= Rank(p[j])
    ensures Rank(p[i]) < 4 ==> Rank(p[i]) < Rank(p[j])
    decreases j - i
  {
    assert Legal(destination, p[j - 1], p[j]);
    if i < j - 1 { RankGrows(destination, p, i, j - 1); }
  }

  /** Each effect is dispatched at most once. */
  lemma DispatchedOnce(destination: Destination, p: seq<Fact>, i: nat, j: nat)
    requires LegalPath(destination, p) && i < |p| && j < |p| && p[i].event == p[j].event
    requires p[i].event == MoveDispatchRecorded || p[i].event == MetadataDispatchRecorded
    ensures i == j
  {
    if i < j { RankGrows(destination, p, i, j); }
    if j < i { RankGrows(destination, p, j, i); }
  }

  /** The stages behind the dispatch of the move. */
  predicate PastDispatch(f: Fact) {
    match Stage(f)
    case MoveDispatchRecorded => true
    case MoveVerified => true
    case MoveIndeterminate => true
    case RestoreDispatchRecorded => true
    case RestoreIndeterminate => true
    case _ => false
  }

  /** The current fact of an open recovery tells whether its move was ever dispatched. */
  lemma {:induction false} DispatchShows(destination: Destination, p: seq<Fact>)
    requires LegalPath(destination, p) && !Closed(p[|p| - 1])
    ensures PastDispatch(p[|p| - 1]) <==> Ordinary(MoveDispatchRecorded) in p
    decreases |p|
  {
    var q := p[..|p| - 1];
    if q != [] {
      assert Legal(destination, p[|p| - 2], p[|p| - 1]);
      assert LegalPath(destination, q) && q[|q| - 1] == p[|p| - 2];
      DispatchShows(destination, q);
    }
  }

  ghost predicate DeadEnd(destination: Destination, current: Fact) {
    forall e, o, m :: !Legal(destination, current, Fact(e, o, m))
  }

  /** A recovery is closed exactly when nothing can follow. */
  lemma {:induction false} ClosedExactly(destination: Destination, p: seq<Fact>)
    requires LegalPath(destination, p) && (destination == Trash || destination == Quarantine)
    ensures Closed(p[|p| - 1]) <==> DeadEnd(destination, p[|p| - 1])
  {
    var last := p[|p| - 1];
    if |p| > 1 { assert Legal(destination, p[|p| - 2], last); }
    hide LegalPath;
    if !Closed(last) {
      var next := match Stage(last)
        case IntentReserved => Fact(ReconciliationResolved, NotApplied, Absent)
        case MetadataDispatchRecorded => Ordinary(MetadataVerified)
        case MetadataVerified => Ordinary(MoveDispatchRecorded)
        case MetadataIndeterminate => Fact(ReconciliationResolved, NotApplied, Absent)
        case MoveDispatchRecorded => Ordinary(MoveVerified)
        case MoveVerified => Ordinary(RestoreDispatchRecorded)
        case MoveIndeterminate => Fact(ReconciliationResolved, NotApplied, NoMetadata)
        case RestoreDispatchRecorded => Ordinary(RestoreVerified)
        case _ => Fact(ReconciliationResolved, OutcomeRestoreVerified, NoMetadata);
      assert Legal(destination, last, next);
    }
  }

  /** Before the move is verified a recovery is short: the ordinal bound is out of reach. */
  lemma {:induction false} ShortPath(destination: Destination, p: seq<Fact>)
    requires LegalPath(destination, p)
    ensures Rank(p[|p| - 1]) < 4 ==> |p| <= Rank(p[|p| - 1]) + 1
    ensures p[|p| - 1] == Ordinary(MoveIndeterminate) ==> |p| <= 5
  {
    var q := p[..|p| - 1];
    if q != [] {
      assert Legal(destination, p[|p| - 2], p[|p| - 1]);
      assert LegalPath(destination, q) && q[|q| - 1] == p[|p| - 2];
      ShortPath(destination, q);
    }
  }

  predicate IsDispatch(e: Event) {
    e == MetadataDispatchRecorded || e == MoveDispatchRecorded || e == RestoreDispatchRecorded
  }

  predicate IsIndeterminate(e: Event) {
    e == MetadataIndeterminate || e == MoveIndeterminate || e == RestoreIndeterminate
  }

  predicate IsMetadata(e: Event) {
    e == MetadataDispatchRecorded || e == MetadataVerified || e == MetadataIndeterminate
  }

  /** What the neighbours of each fact must be. */
  lemma Neighbours(destination: Destination, p: seq<Fact>, i: nat)
    requires LegalPath(destination, p) && 0 < i < |p|
    ensures !Closed(p[i - 1])
    ensures p[i].event == MoveDispatchRecorded && destination == Trash ==> p[i - 1].event == MetadataVerified
    ensures p[i].event == RestoreDispatchRecorded ==> Stage(p[i - 1]) == MoveVerified
    ensures p[i].event == MetadataDispatchRecorded ==> p[i - 1] == INTENT || Stage(p[i - 1]) == IntentReserved
    ensures IsIndeterminate(p[i - 1].event) ==> p[i].event == ReconciliationResolved
    ensures IsDispatch(p[i - 1].event) ==> !IsDispatch(p[i].event)
    ensures p[i].event != IntentReserved
  {
    assert Legal(destination, p[i - 1], p[i]);
  }

  /** A quarantine recovery never records a metadata event or disposition other than absence. */
  lemma {:induction false} QuarantineHasNoMetadata(p: seq<Fact>, i: nat)
    requires LegalPath(Quarantine, p) && i < |p|
    ensures !IsMetadata(p[i].event) && p[i].metadata != Retained
  {
    if i > 0 {
      QuarantineHasNoMetadata(p, i - 1);
      assert Legal(Quarantine, p[i - 1], p[i]);
    }
  }

  function Restores(p: seq<Fact>): nat {
    if p == [] then 0 else Restores(p[..|p| - 1]) + if p[|p| - 1].event == RestoreDispatchRecorded then 1 else 0
  }

  /** Three facts a round of the restore loop, after two facts at least: the exact budget by stage. */
  lemma {:induction false} RestoreBudget(destination: Destination, p: seq<Fact>)
    requires LegalPath(destination, p)
    ensures var last := Stage(p[|p| - 1]);
            if last == RestoreDispatchRecorded then 3 * Restores(p) + 1 <= |p|
            else if last == RestoreIndeterminate || last == RestoreVerified then 3 * Restores(p) + 2 <= |p|
            else if last == MoveVerified then 3 * Restores(p) + 3 <= |p|
            else 3 * Restores(p) + 1 <= |p|
  {
    var q := p[..|p| - 1];
    if q == [] {
      assert Restores(q) == 0;
    } else {
      assert Legal(destination, p[|p| - 2], p[|p| - 1]);
      assert LegalPath(destination, q);
      RestoreBudget(destination, q);
      assert q[|q| - 1] == p[|p| - 2];
      MovesTakeTwo(destination, p);
      if Stage(p[|p| - 1]) != RestoreDispatchRecorded && !AfterMove(p[|p| - 1]) { NoRestoreBefore(destination, p); }
      if !AfterMove(q[|q| - 1]) { NoRestoreBefore(destination, q); }
    }
  }

  /** The facts from which the restore loop has been reached. */
  predicate AfterMove(f: Fact) {
    var s := Stage(f);
    s == MoveVerified || s == RestoreDispatchRecorded || s == RestoreIndeterminate || s == RestoreVerified
    || (f.event == ReconciliationResolved && f.outcome == OutcomeRestoreVerified)
  }

  lemma {:induction false} NoRestoreBefore(destination: Destination, p: seq<Fact>)
    requires LegalPath(destination, p) && !AfterMove(p[|p| - 1])
    ensures Restores(p) == 0
  {
    var q := p[..|p| - 1];
    if q == [] {
      assert Restores(q) == 0;
    } else {
      assert Legal(destination, p[|p| - 2], p[|p| - 1]);
      assert LegalPath(destination, q) && q[|q| - 1] == p[|p| - 2];
      NoRestoreBefore(destination, q);
    }
  }

  lemma MovesTakeTwo(destination: Destination, p: seq<Fact>)
    requires LegalPath(destination, p)
    ensures Stage(p[|p| - 1]) == MoveVerified ==> |p| >= 3
  {
    if |p| == 2 { assert Legal(destination, p[0], p[1]); }
  }

  /** No history of sixteen frames holds more than five restore dispatches. */
  lemma AtMostFiveRestores(destination: Destination, p: seq<Fact>)
    requires LegalPath(destination, p) && |p| <= 16
    ensures Restores(p) <= 5
  {
    RestoreBudget(destination, p);
  }

  // ----- how far a fact is from a closed one -----

  function Distance(f: Fact): nat {
    if Closed(f) then 0
    else
      match Stage(f)
      case MetadataDispatchRecorded => 2
      case MoveDispatchRecorded => 2
      case MoveVerified => 2
      case _ => 1
  }

  /** No legal step brings a recovery more than one step closer to being closed. */
  lemma DistanceDropsByOne(destination: Destination, current: Fact, t: Fact)
    requires Legal(destination, current, t)
    ensures Distance(t) + 1 >= Distance(current) >= 1
  {
  }

  /** The facts that can appear on a path. */
  predicate Reachable(f: Fact) {
    && !f.event.OtherEvent?
    && (f.event == ReconciliationResolved ==> f.outcome == NotApplied || f.outcome == OutcomeMoveVerified || f.outcome == OutcomeRestoreVerified)
  }

  lemma {:induction false} PathReachable(destination: Destination, p: seq<Fact>, i: nat)
    requires LegalPath(destination, p) && i < |p|
    ensures Reachable(p[i])
  {
    if i > 0 { assert Legal(destination, p[i - 1], p[i]); }
  }

  /** A step that brings an open recovery closer to being closed. */
  function Closer(f: Fact): Fact {
    match Stage(f)
    case MetadataDispatchRecorded => Fact(MetadataIndeterminate, NoOutcome, NoMetadata)
    case MoveDispatchRecorded => Fact(MoveIndeterminate, NoOutcome, NoMetadata)
    case MoveVerified => Fact(RestoreDispatchRecorded, NoOutcome, NoMetadata)
    case RestoreDispatchRecorded => Fact(RestoreVerified, NoOutcome, NoMetadata)
    case MoveIndeterminate => Fact(ReconciliationResolved, NotApplied, NoMetadata)
    case RestoreIndeterminate => Fact(ReconciliationResolved, OutcomeRestoreVerified, NoMetadata)
    case _ => Fact(ReconciliationResolved, NotApplied, Absent)
  }

  lemma CloserIsLegal(destination: Destination, f: Fact)
    requires !Closed(f) && Reachable(f)
    ensures Legal(destination, f, Closer(f)) && Distance(Closer(f)) == Distance(f) - 1
  {
  }

  /** From any fact on a path, a closed one is `distance` legal steps away and no nearer. */
  lemma {:induction false} ClosedFrom(destination: Destination, p: seq<Fact>) returns (steps: seq<Fact>)
    requires LegalPath(destination, p)
    ensures LegalPath(destination, p + steps) && |steps| == Distance(p[|p| - 1])
    ensures Closed((p + steps)[|p + steps| - 1])
    decreases Distance(p[|p| - 1])
  {
    var last := p[|p| - 1];
    if Closed(last) {
      steps := [];
      assert p + steps == p;
    } else {
      PathReachable(destination, p, |p| - 1);
      CloserIsLegal(destination, last);
      var rest := ClosedFrom(destination, p + [Closer(last)]);
      steps := [Closer(last)] + rest;
      assert p + steps == p + [Closer(last)] + rest;
    }
  }

  lemma {:induction false} NoShorterWay(destination: Destination, p: seq<Fact>, steps: seq<Fact>)
    requires LegalPath(destination, p) && LegalPath(destination, p + steps)
    requires Closed((p + steps)[|p + steps| - 1])
    ensures |steps| >= Distance(p[|p| - 1])
    decreases |steps|
  {
    if steps == [] {
      assert p + steps == p;
    } else {
      var next := p + [steps[0]];
      assert next + steps[1..] == p + steps;
      assert LegalPath(destination, next) by {
        forall i | 0 < i < |next| ensures Legal(destination, next[i - 1], next[i]) {
          assert next[i] == (p + steps)[i] && next[i - 1] == (p + steps)[i - 1];
        }
      }
      NoShorterWay(destination, next, steps[1..]);
      assert Legal(destination, next[|p| - 1], next[|p|]);
      DistanceDropsByOne(destination, p[|p| - 1], steps[0]);
    }
  }

  lemma PathExtends(destination: Destination, p: seq<Fact>, f: Fact)
    requires LegalPath(destination, p) && Legal(destination, p[|p| - 1], f)
    ensures LegalPath(destination, p + [f])
    ensures Restores(p + [f]) == Restores(p) + if f.event == RestoreDispatchRecorded then 1 else 0
  {
    assert (p + [f])[..|p|] == p;
  }

  /** A quarantine recovery whose restores keep being found not applied: k rounds of the loop. */
  function Rounds(k: nat): (p: seq<Fact>)
    ensures |p| == 4 + 3 * k
  {
    if k == 0 then [INTENT] + [Ordinary(MoveDispatchRecorded)] + [Ordinary(MoveVerified)] + [Ordinary(RestoreDispatchRecorded)]
    else
      Rounds(k - 1) + [Ordinary(RestoreIndeterminate)]
      + [Fact(ReconciliationResolved, OutcomeMoveVerified, NoMetadata)] + [Ordinary(RestoreDispatchRecorded)]
  }

  /** Both bounds are met: Rounds(4) has sixteen facts, is still open, and holds five restore dispatches. */
  lemma {:induction false} RoundsAreLegal(k: nat)
    ensures LegalPath(Quarantine, Rounds(k))
    ensures Rounds(k)[|Rounds(k)| - 1] == Ordinary(RestoreDispatchRecorded)
    ensures Restores(Rounds(k)) == k + 1
  {
    hide Restores;
    var p: seq<Fact>, a: Fact, b: Fact;
    if k == 0 {
      p, a, b := [INTENT], Ordinary(MoveDispatchRecorded), Ordinary(MoveVerified);
      assert Restores(p) == 0 by { NoRestoreBefore(Quarantine, p); }
    } else {
      RoundsAreLegal(k - 1);
      p, a, b := Rounds(k - 1), Ordinary(RestoreIndeterminate), Fact(ReconciliationResolved, OutcomeMoveVerified, NoMetadata);
    }
    PathExtends(Quarantine, p, a);
    PathExtends(Quarantine, p + [a], b);
    PathExtends(Quarantine, p + [a] + [b], Ordinary(RestoreDispatchRecorded));
  }
}
