// packages/domain/src/candidate.ts: the lifecycle of a Candidate generation.
module Candidate {
  import opened Options
  import opened CodeUnits
  import opened Workflow

  datatype CandidateState = MUTABLE | FREEZING | FROZEN | INVALIDATED | REJECTED | ACCEPTED

  // Digests are opaque numbers.
  datatype Generation = Generation(
    id: Id,
    candidateId: Id,
    sequence: int,
    parentGenerationId: Option<Id>,
    workspaceIdentity: Text,
    baseDigest: nat,
    version: nat,
    createdAt: int,
    updatedAt: int,
    state: CandidateState,
    frozenDigest: Option<nat>,
    frozenAt: Option<int>,
    invalidationReason: Option<Text>)

  predicate HasEnded(s: CandidateState) { s == INVALIDATED || s == REJECTED || s == ACCEPTED }

  predicate CandidateInv(g: Generation) {
    && g.parentGenerationId != Some(g.id) && IsVersion(g.version) && !AllWhitespace(g.workspaceIdentity)
    && IsVersion(g.sequence) && g.createdAt <= g.updatedAt
    && (g.frozenAt.Some? ==> g.createdAt <= g.frozenAt.value <= g.updatedAt)
    && g.frozenDigest.Some? == g.frozenAt.Some?
    && match g.state {
         case MUTABLE => g.frozenDigest.None? && g.invalidationReason.None?
         case FREEZING => g.frozenDigest.None? && g.invalidationReason.None?
         case INVALIDATED => g.invalidationReason.Some? && !AllWhitespace(g.invalidationReason.value)
         case _ => g.frozenDigest.Some? && g.invalidationReason.None?
       }
  }

  datatype CandidateCommand = CandidateCommand(commandId: Id, generationId: Id, expectedVersion: nat, occurredAt: int, request: CandidateRequest)

  datatype CandidateRequest =
    | BeginFreeze
    | CompleteFreeze(frozenDigest: nat)
    | Invalidate(reason: Text)
    | RejectCandidate(reason: Text)
    | AcceptCandidate

  datatype CandidateRejection =
    | CANDIDATE_ID_MISMATCH | STALE_CANDIDATE | TERMINAL_CANDIDATE | ILLEGAL_CANDIDATE_TRANSITION | TIMESTAMPS_OUT_OF_ORDER
    | EMPTY_CANDIDATE_REASON

  datatype CandidateEvent = CandidateEvent(
    commandId: Id,
    generationId: Id,
    fromState: CandidateState,
    toState: CandidateState,
    fromVersion: nat,
    toVersion: nat,
    occurredAt: int,
    frozenDigest: Option<nat>,
    reason: Option<Text>)

  datatype Change = Change(toState: CandidateState, frozenDigest: Option<nat>, reason: Option<Text>)

  function DecideChange(g: Generation, r: CandidateRequest): Decision<Change, CandidateRejection> {
    match r
    case BeginFreeze =>
      if g.state != MUTABLE then Reject(ILLEGAL_CANDIDATE_TRANSITION) else Accept(Change(FREEZING, None, None))
    case CompleteFreeze(digest) =>
      if g.state != FREEZING then Reject(ILLEGAL_CANDIDATE_TRANSITION) else Accept(Change(FROZEN, Some(digest), None))
    case Invalidate(reason) =>
      if Trim(reason) == [] then Reject(EMPTY_CANDIDATE_REASON) else Accept(Change(INVALIDATED, None, Some(Trim(reason))))
    case RejectCandidate(reason) =>
      if g.state != FROZEN then Reject(ILLEGAL_CANDIDATE_TRANSITION)
      else if Trim(reason) == [] then Reject(EMPTY_CANDIDATE_REASON)
      else Accept(Change(REJECTED, None, Some(Trim(reason))))
    case AcceptCandidate =>
      if g.state != FROZEN then Reject(ILLEGAL_CANDIDATE_TRANSITION) else Accept(Change(ACCEPTED, None, None))
  }

  function DecideCandidate(g: Generation, c: CandidateCommand): Decision<CandidateEvent, CandidateRejection> {
    if !CandidateInv(g) then Throw
    else if g.id != c.generationId then Reject(CANDIDATE_ID_MISMATCH)
    else if g.version != c.expectedVersion then Reject(STALE_CANDIDATE)
    else if HasEnded(g.state) then Reject(TERMINAL_CANDIDATE)
    else if c.occurredAt < g.updatedAt then Reject(TIMESTAMPS_OUT_OF_ORDER)
    else
      match DecideChange(g, c.request)
      case Reject(code) => Reject(code)
      case Throw => Throw
      case Accept(change) =>
        if NextVersion(g.version).None? then Throw
        else Accept(CandidateEvent(c.commandId, g.id, g.state, change.toState, g.version, g.version + 1, c.occurredAt,
          change.frozenDigest, change.reason))
  }

  predicate IsLegal(e: CandidateEvent) {
    var hasReason, hasDigest := e.reason.Some? && Trim(e.reason.value) != [], e.frozenDigest.Some?;
    || (e.fromState == MUTABLE && e.toState == FREEZING && !hasReason && !hasDigest)
    || (e.fromState == FREEZING && e.toState == FROZEN && !hasReason && hasDigest)
    || (!HasEnded(e.fromState) && e.toState == INVALIDATED && hasReason && !hasDigest)
    || (e.fromState == FROZEN && e.toState == REJECTED && hasReason && !hasDigest)
    || (e.fromState == FROZEN && e.toState == ACCEPTED && !hasReason && !hasDigest)
  }

  function ApplyCandidateEvent(g: Generation, e: CandidateEvent): Option<Generation> {
    if !CandidateInv(g) || e.generationId != g.id || e.fromVersion != g.version || e.fromState != g.state ||
       NextVersion(g.version) != Some(e.toVersion) || e.occurredAt < g.updatedAt || !IsLegal(e)
    then None
    else
      var frozen := if e.frozenDigest.Some? then g.(frozenDigest := e.frozenDigest, frozenAt := Some(e.occurredAt)) else g;
      var next := frozen.(state := e.toState, version := e.toVersion, updatedAt := e.occurredAt,
        invalidationReason := if e.toState == INVALIDATED then e.reason else g.invalidationReason);
      if CandidateInv(next) then Some(next) else None
  }

  // Every accepted command gives an event that applies, to a valid generation at the next version.
  lemma {:induction false} CandidateDecisionsApply(g: Generation, c: CandidateCommand)
    requires DecideCandidate(g, c).Accept?
    ensures var next := ApplyCandidateEvent(g, DecideCandidate(g, c).event);
      next.Some? && CandidateInv(next.value) && next.value.version == g.version + 1
  {
    if c.request.Invalidate? || c.request.RejectCandidate? {
      TrimKeeps(c.request.reason);
      TrimKeeps(Trim(c.request.reason));
    }
  }

  // The command whose event this is; of an event that no command has, one that is refused or has another.
  function CandidateCommandOf(e: CandidateEvent): CandidateCommand {
    CandidateCommand(e.commandId, e.generationId, e.fromVersion, e.occurredAt,
      match e.toState
      case FROZEN => CompleteFreeze(if e.frozenDigest.Some? then e.frozenDigest.value else 0)
      case INVALIDATED => Invalidate(if e.reason.Some? then e.reason.value else [])
      case REJECTED => RejectCandidate(if e.reason.Some? then e.reason.value else [])
      case ACCEPTED => AcceptCandidate
      case _ => BeginFreeze)
  }

  // The event as it is decided: without a blank reason, and with any other reason trimmed.
  function NormalizedChange(e: CandidateEvent): CandidateEvent {
    e.(reason := if e.reason.Some? && Trim(e.reason.value) != [] then Some(Trim(e.reason.value)) else None)
  }

  // An event applies exactly when deciding on its command gives that very event.
  lemma {:induction false} CandidateAppliesExactly(g: Generation, e: CandidateEvent)
    ensures ApplyCandidateEvent(g, e).Some? <==> DecideCandidate(g, CandidateCommandOf(e)) == Accept(NormalizedChange(e))
  {
    if e.reason.Some? { TrimKeeps(e.reason.value); }
  }

  // ---- Whole lives ----

  function CreateGeneration(
    id: Id, candidateId: Id, sequence: int, parent: Option<Id>, workspaceIdentity: Text, baseDigest: nat, createdAt: int):
    Option<Generation>
  {
    var g := Generation(id, candidateId, sequence, parent, Trim(workspaceIdentity), baseDigest, 1, createdAt, createdAt, MUTABLE,
      None, None, None);
    if CandidateInv(g) then Some(g) else None
  }

  function Live(g: Generation, es: seq<CandidateEvent>): Option<Generation>
    decreases |es|
  {
    if es == [] then Some(g) else
    var next := ApplyCandidateEvent(g, es[0]);
    if next.None? then None else Live(next.value, es[1..])
  }

  // A frozen digest never changes, and nothing happens to a generation that has ended.
  lemma {:induction false} FrozenStaysFrozen(g: Generation, es: seq<CandidateEvent>)
    requires CandidateInv(g) && Live(g, es).Some?
    ensures CandidateInv(Live(g, es).value) && Live(g, es).value.version == g.version + |es|
    ensures g.frozenDigest.Some? ==>
      Live(g, es).value.frozenDigest == g.frozenDigest && Live(g, es).value.frozenAt == g.frozenAt
    ensures HasEnded(g.state) ==> es == []
    decreases |es|
  {
    if es != [] { FrozenStaysFrozen(ApplyCandidateEvent(g, es[0]).value, es[1..]); }
  }

  // An accepted generation was frozen by an earlier event, and accepted under that digest.
  lemma {:induction false} AcceptedWasFrozen(g: Generation, es: seq<CandidateEvent>)
    requires CandidateInv(g) && g.state == MUTABLE && Live(g, es).Some? && Live(g, es).value.state == ACCEPTED
    ensures |es| == 3 && es[0].toState == FREEZING && es[1].toState == FROZEN && es[2].toState == ACCEPTED
    ensures Live(g, es).value.frozenDigest == es[1].frozenDigest
  {
    var g1 := ApplyCandidateEvent(g, es[0]).value;
    assert es[1..] != [] && es[1..][0] == es[1];
    var g2 := ApplyCandidateEvent(g1, es[1]).value;
    assert Live(g1, es[1..]) == Live(g2, es[1..][1..]);
    assert es[1..][1..] == es[2..] && es[2..] != [] && es[2..][0] == es[2];
    var g3 := ApplyCandidateEvent(g2, es[2]).value;
    FrozenStaysFrozen(g3, es[2..][1..]);
  }
}
