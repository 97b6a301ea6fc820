// What every accepted command of a Workflow, an Attempt and a Candidate leads to, and why the others are
// rejected, by command, by code, by guard and by action.
module LifecycleTables {
  import opened Options
  import opened CodeUnits
  import opened Sequences
  import opened Workflow
  import opened Attempt
  import R = Recovery
  import C = Candidate
  import W = Workflow

  // ---- Guards ----

  // The edges that need the guard.
  function EdgesOf(guard: Guard): set<(Phase, Phase)> {
    match guard
    case GOAL_REVISION_CURRENT => {(DISCOVERY, PLAN)}
    case PROJECT_IDENTITY_RECORDED => {(DISCOVERY, PLAN)}
    case DISCOVERY_COMPLETE => {(DISCOVERY, PLAN)}
    case REQUIRED_UNKNOWNS_RESOLVED => {(DISCOVERY, PLAN)}
    case SCENARIOS_RESOLVED => {(DISCOVERY, PLAN)}
    case PLAN_CURRENT => {(PLAN, IMPLEMENT)}
    case CHANGE_BOUNDARY_EXPLICIT => {(PLAN, IMPLEMENT)}
    case OBLIGATIONS_MAPPED => {(PLAN, IMPLEMENT)}
    case PLAN_POLICY_PASSED => {(PLAN, IMPLEMENT)}
    case NO_PLANNING_BLOCKER => {(PLAN, IMPLEMENT)}
    case CANDIDATE_GENERATION_PREPARED => {(PLAN, IMPLEMENT), (FINAL_VERIFY, IMPLEMENT)}
    case MUTABLE_CANDIDATE_CURRENT => {(IMPLEMENT, SOURCE_FREEZE)}
    case WORKER_QUIESCENT => {(IMPLEMENT, SOURCE_FREEZE)}
    case CHANGE_SET_ENUMERATED => {(IMPLEMENT, SOURCE_FREEZE)}
    case PROHIBITED_EFFECTS_ABSENT => {(IMPLEMENT, SOURCE_FREEZE)}
    case FREEZE_REQUESTED => {(IMPLEMENT, SOURCE_FREEZE)}
    case NO_WRITE_CAPABLE_WORKER => {(SOURCE_FREEZE, EVIDENCE_BUILD)}
    case FREEZE_IDENTITY_STABLE => {(SOURCE_FREEZE, EVIDENCE_BUILD)}
    case CHANGE_IDENTITY_RECORDED => {(SOURCE_FREEZE, EVIDENCE_BUILD)}
    case FROZEN_DIGEST_PERSISTED => {(SOURCE_FREEZE, EVIDENCE_BUILD)}
    case INTEGRITY_POLICY_PASSED => {(SOURCE_FREEZE, EVIDENCE_BUILD)}
    case REQUIRED_EVIDENCE_ACCOUNTED => {(EVIDENCE_BUILD, FINAL_VERIFY)}
    case EVIDENCE_BINDINGS_CURRENT => {(EVIDENCE_BUILD, FINAL_VERIFY)}
    case CLEANUP_PROVEN => {(EVIDENCE_BUILD, FINAL_VERIFY)}
    case SOURCE_DIGEST_CURRENT => {(EVIDENCE_BUILD, FINAL_VERIFY)}
    case CURRENT_ACCEPTANCE => {(FINAL_VERIFY, CLOSEOUT)}
    case REJECT_REPAIRABLE_RECORDED => {(FINAL_VERIFY, IMPLEMENT)}
  }

  // From each phase to the next, and from the last one before CLOSEOUT back to IMPLEMENT.
  predicate IsEdge(from: Phase, to: Phase) { R.PhaseIndex(to) == R.PhaseIndex(from) + 1 || (from == FINAL_VERIFY && to == IMPLEMENT) }

  lemma {:induction false} EdgesExactly(from: Phase, to: Phase)
    ensures RequiredGuards(from, to).Some? <==> IsEdge(from, to)
  {
  }

  // Of each edge the guards that need it, and no others.
  lemma {:induction false} GuardsExactly(guard: Guard, from: Phase, to: Phase)
    requires RequiredGuards(from, to).Some?
    ensures guard in RequiredGuards(from, to).value <==> (from, to) in EdgesOf(guard)
  {
    match from {
      case DISCOVERY => DiscoveryGuards(guard);
      case PLAN => PlanGuards(guard);
      case IMPLEMENT => ImplementGuards(guard);
      case SOURCE_FREEZE => FreezeGuards(guard);
      case EVIDENCE_BUILD => EvidenceGuards(guard);
      case FINAL_VERIFY => VerifyGuards(guard);
    }
  }

  lemma {:induction false} DiscoveryGuards(guard: Guard)
    ensures guard in RequiredGuards(DISCOVERY, PLAN).value <==> (DISCOVERY, PLAN) in EdgesOf(guard)
  {
  }

  lemma {:induction false} PlanGuards(guard: Guard)
    ensures guard in RequiredGuards(PLAN, IMPLEMENT).value <==> (PLAN, IMPLEMENT) in EdgesOf(guard)
  {
  }

  lemma {:induction false} ImplementGuards(guard: Guard)
    ensures guard in RequiredGuards(IMPLEMENT, SOURCE_FREEZE).value <==> (IMPLEMENT, SOURCE_FREEZE) in EdgesOf(guard)
  {
  }

  lemma {:induction false} FreezeGuards(guard: Guard)
    ensures guard in RequiredGuards(SOURCE_FREEZE, EVIDENCE_BUILD).value <==> (SOURCE_FREEZE, EVIDENCE_BUILD) in EdgesOf(guard)
  {
  }

  lemma {:induction false} EvidenceGuards(guard: Guard)
    ensures guard in RequiredGuards(EVIDENCE_BUILD, FINAL_VERIFY).value <==> (EVIDENCE_BUILD, FINAL_VERIFY) in EdgesOf(guard)
  {
  }

  lemma {:induction false} VerifyGuards(guard: Guard)
    ensures guard in RequiredGuards(FINAL_VERIFY, CLOSEOUT).value <==> (FINAL_VERIFY, CLOSEOUT) in EdgesOf(guard)
    ensures guard in RequiredGuards(FINAL_VERIFY, IMPLEMENT).value <==> (FINAL_VERIFY, IMPLEMENT) in EdgesOf(guard)
  {
  }

  // ---- Workflow commands ----

  // The reason is there and not blank, in a Workflow that has been suspended.
  predicate SuspendedWith(w: Workflow, reason: Text) { w.suspendedReason == Some(Trim(reason)) && !AllWhitespace(reason) }

  predicate SameWorkflow(w: Workflow, next: Workflow) {
    && next.id == w.id && next.goalId == w.goalId && next.goalRevision == w.goalRevision && next.createdAt == w.createdAt
    && next.version == w.version + 1
  }

  // What each command that is accepted leads to.
  lemma {:induction false} WorkflowOutcomes(w: Workflow, c: WorkflowCommand)
    requires DecideWorkflow(w, c).Accept?
    ensures ApplyWorkflowEvent(w, DecideWorkflow(w, c).event).Some?
    ensures var next := ApplyWorkflowEvent(w, DecideWorkflow(w, c).event).value;
      && SameWorkflow(w, next) && next.updatedAt == c.occurredAt && next.activeAttemptId.None?
      && match c.request {
           case Cancel =>
             next.runStatus == CANCELLED && next.phase == w.phase &&
             next.activeCandidateGenerationId == w.activeCandidateGenerationId && SuspendedWith(next, c.reason)
           case FailIntegrity =>
             next.runStatus == RunStatus.FAILED && next.phase == w.phase &&
             next.activeCandidateGenerationId == w.activeCandidateGenerationId && SuspendedWith(next, c.reason)
           case PhaseTransition(to, _, candidate) =>
             next.phase == to && next.runStatus == (if to == CLOSEOUT then CLOSED else READY) &&
             next.suspendedReason == w.suspendedReason &&
             next.activeCandidateGenerationId == (if to == IMPLEMENT then candidate else w.activeCandidateGenerationId)
         }
  {
    WorkflowDecisionsApply(w, c);
    TrimKeeps(c.reason);
  }

  // What speaks against a command.
  predicate Objects(w: Workflow, c: WorkflowCommand, code: Rejection) {
    var r := c.request;
    match code
    case WORKFLOW_ID_MISMATCH => c.workflowId != w.id
    case STALE_VERSION => c.expectedVersion != w.version
    case TERMINAL_WORKFLOW => w.runStatus == CANCELLED || w.runStatus == CLOSED
    case EMPTY_REASON => AllWhitespace(c.reason)
    case INVALID_TIMESTAMP_ORDER => c.occurredAt < w.updatedAt
    case RUN_STATUS_NOT_READY => r != Cancel && w.runStatus != READY
    case ILLEGAL_TRANSITION => r.PhaseTransition? && !IsEdge(w.phase, r.requestedPhase)
    case MISSING_NEXT_CANDIDATE => r.PhaseTransition? && r.requestedPhase == IMPLEMENT && r.nextCandidate.None?
    case CANDIDATE_GENERATION_REUSE =>
      r.PhaseTransition? && r.requestedPhase == IMPLEMENT && r.nextCandidate.Some? && r.nextCandidate == w.activeCandidateGenerationId
    case UNEXPECTED_NEXT_CANDIDATE => r.PhaseTransition? && r.requestedPhase != IMPLEMENT && r.nextCandidate.Some?
    case MISSING_ACTIVE_CANDIDATE => false
    case _ =>
      r.PhaseTransition? && RequiredGuards(w.phase, r.requestedPhase).Some? &&
      var v := ValidateGuards(RequiredGuards(w.phase, r.requestedPhase).value, r.guardResults);
      v.Invalid? && v.code == code
  }

  // Which objection is heard first.
  function Precedence(code: Rejection): nat {
    match code
    case WORKFLOW_ID_MISMATCH => 0
    case STALE_VERSION => 1
    case TERMINAL_WORKFLOW => 2
    case EMPTY_REASON => 3
    case INVALID_TIMESTAMP_ORDER => 4
    case RUN_STATUS_NOT_READY => 5
    case ILLEGAL_TRANSITION => 6
    case MISSING_ACTIVE_CANDIDATE => 7
    case MISSING_NEXT_CANDIDATE => 8
    case CANDIDATE_GENERATION_REUSE => 9
    case UNEXPECTED_NEXT_CANDIDATE => 10
    case _ => 11
  }

  ghost predicate FirstObjection(w: Workflow, c: WorkflowCommand, code: Rejection) {
    Objects(w, c, code) && forall other | Objects(w, c, other) :: Precedence(code) <= Precedence(other)
  }

  // A valid Workflow rejects a command with the first objection to it, and accepts it when there is none;
  // but when there are no versions left, only the objections to the command itself are heard.
  lemma {:induction false} WorkflowRejections(w: Workflow, c: WorkflowCommand, code: Rejection)
    requires WorkflowInv(w)
    ensures DecideWorkflow(w, c) == Reject(code) <==>
      FirstObjection(w, c, code) && (NextVersion(w.version).None? ==> Precedence(code) <= 4)
    ensures DecideWorkflow(w, c).Accept? <==> (forall other :: !Objects(w, c, other)) && NextVersion(w.version).Some?
  {
    if CommandFault(w, c).Some? {
      FaultRejections(w, c, code);
    } else {
      TrimKeeps(c.reason);
      EffectRejections(w, c, code);
      assert forall other | Precedence(other) <= 4 :: !Objects(w, c, other);
    }
  }

  lemma {:induction false} FaultRejections(w: Workflow, c: WorkflowCommand, code: Rejection)
    requires CommandFault(w, c).Some?
    ensures Objects(w, c, CommandFault(w, c).value) && Precedence(CommandFault(w, c).value) <= 4
    ensures CommandFault(w, c) == Some(code) <==> FirstObjection(w, c, code)
  {
    TrimKeeps(c.reason);
  }

  lemma {:induction false} EffectRejections(w: Workflow, c: WorkflowCommand, code: Rejection)
    requires WorkflowInv(w) && CommandFault(w, c).None?
    ensures DecideEffect(w, c.request) == Reject(code) <==> FirstObjection(w, c, code)
    ensures DecideEffect(w, c.request).Accept? <==> forall other :: !Objects(w, c, other)
    ensures !DecideEffect(w, c.request).Throw?
  {
    TrimKeeps(c.reason);
    if c.request.PhaseTransition? {
      TransitionRejections(w, c);
    } else if w.runStatus != READY && c.request.FailIntegrity? {
      assert Objects(w, c, RUN_STATUS_NOT_READY);
    }
  }

  lemma {:induction false} TransitionRejections(w: Workflow, c: WorkflowCommand)
    requires WorkflowInv(w) && CommandFault(w, c).None? && c.request.PhaseTransition?
    ensures var d := DecideTransition(w, c.request);
      && !d.Throw? && (d.Reject? ==> FirstObjection(w, c, d.rejection))
      && (d.Accept? ==> forall other :: !Objects(w, c, other))
      && (d.Reject? ==> forall other | FirstObjection(w, c, other) :: other == d.rejection)
  {
    TrimKeeps(c.reason);
    EdgesExactly(w.phase, c.request.requestedPhase);
    if IsEdge(w.phase, c.request.requestedPhase) { GuardCodes(w, c); }
    var d := DecideTransition(w, c.request);
    if d.Reject? {
      assert Objects(w, c, d.rejection);
      forall other | Objects(w, c, other) ensures Precedence(d.rejection) <= Precedence(other) { }
    }
  }

  // The codes of a failed validation are those of guards.
  lemma {:induction false} GuardCodes(w: Workflow, c: WorkflowCommand)
    requires c.request.PhaseTransition? && RequiredGuards(w.phase, c.request.requestedPhase).Some?
    ensures var v := ValidateGuards(RequiredGuards(w.phase, c.request.requestedPhase).value, c.request.guardResults);
      v.Invalid? ==> Precedence(v.code) == 11
  {
    CollectCodes(RequiredGuards(w.phase, c.request.requestedPhase).value, c.request.guardResults, map[]);
  }

  lemma {:induction false} CollectCodes(required: seq<Guard>, actual: seq<GuardResult>, byGuard: map<Guard, GuardResult>)
    ensures var v := Collect(required, actual, byGuard); v.Invalid? ==> Precedence(v.code) == 11
    decreases |actual|
  {
    if actual == [] {
      OrderCodes(required, byGuard, []);
    } else if SuppliedFault(required, byGuard.Keys, actual[0]).None? {
      CollectCodes(required, actual[1..], byGuard[actual[0].guard := actual[0]]);
    }
  }

  lemma {:induction false} OrderCodes(required: seq<Guard>, byGuard: map<Guard, GuardResult>, ordered: seq<GuardResult>)
    ensures var v := Order(required, byGuard, ordered); v.Invalid? ==> Precedence(v.code) == 11
    decreases |required|
  {
    if required != [] && RequiredFault(byGuard, required[0]).None? { OrderCodes(required[1..], byGuard, ordered + [byGuard[required[0]]]); }
  }

  // ---- Attempts ----

  // The phases in which the action is allowed.
  function PhasesOf(action: Action): set<Phase> {
    match action
    case READ_PROJECT => {DISCOVERY, PLAN, IMPLEMENT, SOURCE_FREEZE, EVIDENCE_BUILD, FINAL_VERIFY, CLOSEOUT}
    case READ_CANDIDATE => {IMPLEMENT, SOURCE_FREEZE, EVIDENCE_BUILD, FINAL_VERIFY, CLOSEOUT}
    case WRITE_CANDIDATE_SOURCE => {IMPLEMENT}
    case WRITE_RUN_OUTPUT => {DISCOVERY, PLAN, IMPLEMENT, SOURCE_FREEZE, EVIDENCE_BUILD, FINAL_VERIFY, CLOSEOUT}
    case SUBMIT_PROPOSALS => {DISCOVERY, PLAN}
    case SUBMIT_COMPLETION_REQUEST => {IMPLEMENT}
    case SUBMIT_EVIDENCE => {EVIDENCE_BUILD}
    case SUBMIT_DECISION => {FINAL_VERIFY}
    case EVALUATE_ACCEPTANCE => {FINAL_VERIFY}
    case CONSUME_ACCEPTANCE => {CLOSEOUT}
  }

  predicate Reads(access: CandidateAccess, phase: Phase) {
    match access
    case NO_CANDIDATE => phase == DISCOVERY || phase == PLAN
    case MUTABLE_WRITE => phase == IMPLEMENT
    case FREEZE_READ => phase == SOURCE_FREEZE
    case FROZEN_READ => phase == EVIDENCE_BUILD || phase == FINAL_VERIFY
    case ACCEPTED_READ => phase == CLOSEOUT
  }

  predicate Outputs(scope: RunOutputScope, phase: Phase) {
    match scope
    case BOUNDED_DISCOVERY => phase == DISCOVERY
    case PLAN_OBSERVATION => phase == PLAN
    case BOUNDED_IMPLEMENTATION => phase == IMPLEMENT
    case FREEZE_METADATA => phase == SOURCE_FREEZE
    case RUN_OWNED_VERIFICATION => phase == EVIDENCE_BUILD
    case DECISION_TRACE => phase == FINAL_VERIFY
    case CLOSEOUT_EXPORT => phase == CLOSEOUT
  }

  predicate Submits(control: ControlSubmission, phase: Phase) {
    match control
    case PROPOSALS => phase == DISCOVERY || phase == PLAN
    case COMPLETION_REQUEST => phase == IMPLEMENT
    case RUNTIME_ONLY => phase == SOURCE_FREEZE
    case EVIDENCE_SUBMISSION => phase == EVIDENCE_BUILD
    case DECISION_SUBMISSION => phase == FINAL_VERIFY
    case CONSUME_EXISTING => phase == CLOSEOUT
  }

  predicate Accepts(access: AcceptanceAccess, phase: Phase) {
    match access
    case EVALUATE_READ_ONLY => phase == FINAL_VERIFY
    case CONSUME_ACCEPTED => phase == CLOSEOUT
    case NO_ACCEPTANCE => phase != FINAL_VERIFY && phase != CLOSEOUT
  }

  lemma {:induction false} ActionsExactly(phase: Phase, action: Action)
    ensures Allows(DeriveGrant(phase), action) <==> phase in PhasesOf(action)
  {
  }

  // What the Attempt of a phase may do.
  lemma {:induction false} GrantsExactly(a: Attempt, action: Action)
    requires AttemptInv(a)
    ensures Allows(a.grant, action) <==> a.phase in PhasesOf(action)
    ensures a.grant.phase == a.phase && a.grant.projectRead && Reads(a.grant.candidateAccess, a.phase)
    ensures Outputs(a.grant.runOutputScope, a.phase) && Submits(a.grant.controlSubmission, a.phase)
    ensures Accepts(a.grant.acceptanceAccess, a.phase)
  {
    ActionsExactly(a.phase, action);
    assert a.grant.allowedActions == DeriveGrant(a.phase).allowedActions;
  }

  // The statuses in which an interruption may leave the Workflow.
  function StatusesAfter(r: InterruptionReason): set<RunStatus> {
    match r
    case USER_REQUEST => {READY, BLOCKED}
    case RUNTIME_SHUTDOWN => {READY, BLOCKED}
    case RECOVERY_RECONCILIATION => {BLOCKED}
    case WORKFLOW_CANCELLED => {}
  }

  function PrefixOf(r: InterruptionReason): Text {
    Ascii(match r
      case USER_REQUEST => "USER_REQUEST:"
      case WORKFLOW_CANCELLED => "WORKFLOW_CANCELLED:"
      case RECOVERY_RECONCILIATION => "RECOVERY_RECONCILIATION:"
      case RUNTIME_SHUTDOWN => "RUNTIME_SHUTDOWN:")
  }

  lemma {:induction false} EncodesWith(r: InterruptionReason, text: Text)
    ensures Encode(r, text) == PrefixOf(r) + text
  {
    assert ReasonName(r) + Ascii(":") == PrefixOf(r);
  }

  lemma {:induction false} InterruptionsExactly(r: InterruptionReason, text: Text, status: RunStatus)
    requires !AllWhitespace(text)
    ensures InterruptionAuthorized(Encode(r, text), status) <==> status in StatusesAfter(r)
  {
    DecodeEncode(r, text);
  }

  // The Workflow after an Attempt that ended in this way.
  predicate Leaves(w: Workflow, next: Workflow, status: RunStatus, reason: Text) {
    && next.runStatus == status && next.activeAttemptId.None?
    && next.suspendedReason == if status == READY then None else Some(reason)
  }

  predicate Ended(a: Attempt, ended: Attempt, status: AttemptStatus, f: Option<FailureClass>, reason: Text, at: int) {
    ended == a.(status := status, failureClass := f, terminationReason := Some(reason), endedAt := Some(at))
  }

  // What each command on Attempts that is accepted leads to, for the Workflow and for the Attempt.
  lemma {:induction false} AttemptOutcomes(w: Workflow, current: Option<Attempt>, c: AttemptCommand)
    requires DecideAttempt(w, current, c).Accept?
    ensures ApplyAttemptEvent(w, current, DecideAttempt(w, current, c).event).Some?
    ensures !c.request.Begin? ==> current.Some?
    ensures var (next, a) := ApplyAttemptEvent(w, current, DecideAttempt(w, current, c).event).value;
      && SameWorkflow(w, next) && next.phase == w.phase && next.updatedAt == c.occurredAt
      && next.activeCandidateGenerationId == w.activeCandidateGenerationId
      && match c.request {
           case Begin(sequence, context, session) =>
             && next.runStatus == RUNNING && next.activeAttemptId == Some(c.attemptId) && next.suspendedReason.None?
             && a == Attempt(c.attemptId, w.id, w.phase, sequence, context, DeriveGrant(w.phase), session, c.occurredAt, RUNNING_ATTEMPT,
                  None, None, None)
           case RecordResult(reason) =>
             Leaves(w, next, READY, Trim(reason)) && Ended(current.value, a, RESULT_RECORDED, None, Trim(reason), c.occurredAt)
           case RecordFailure(f, reason) =>
             && Leaves(w, next, if f == TRANSIENT_BACKEND || f == FailureClass.TIMEOUT || f == ABRUPT_TERMINATION then BLOCKED
                  else RunStatus.FAILED, Trim(reason))
             && Ended(current.value, a, FAILED_ATTEMPT, Some(f), Trim(reason), c.occurredAt)
           case Interrupt(r, status, reason) =>
             && status in StatusesAfter(r) && Leaves(w, next, status, PrefixOf(r) + Trim(reason))
             && Ended(current.value, a, INTERRUPTED, None, PrefixOf(r) + Trim(reason), c.occurredAt)
         }
  {
    AttemptDecisionsApply(w, current, c);
    if !c.request.Begin? {
      FinishIsValid(w, current, c);
      if c.request.Interrupt? { InterruptOutcome(w, current, c); }
    }
  }

  lemma {:induction false} InterruptOutcome(w: Workflow, current: Option<Attempt>, c: AttemptCommand)
    requires c.request.Interrupt? && DecideFinish(w, current, c).Accept?
    ensures c.request.resultingStatus in StatusesAfter(c.request.interruption)
    ensures DecideFinish(w, current, c).event.terminationReason == PrefixOf(c.request.interruption) + Trim(c.request.reason)
  {
    TrimKeeps(c.request.reason);
    TrimKeeps(Trim(c.request.reason));
    InterruptionsExactly(c.request.interruption, Trim(c.request.reason), c.request.resultingStatus);
    EncodesWith(c.request.interruption, Trim(c.request.reason));
  }

  // A cancellation ends the active Attempt with the Workflow.
  lemma {:induction false} CancellationOutcomes(w: Workflow, current: Option<Attempt>, c: WorkflowCommand)
    requires c.request.Cancel? && DecideWorkflow(w, c).Accept? && Authority(w, current)
    requires current.Some? ==> current.value.startedAt <= c.occurredAt
    ensures ApplyCancellation(w, current, DecideWorkflow(w, c).event).Some?
    ensures var (next, ended) := ApplyCancellation(w, current, DecideWorkflow(w, c).event).value;
      && next.runStatus == CANCELLED && SuspendedWith(next, c.reason) && ended.Some? == current.Some?
      && (current.Some? ==> Ended(current.value, ended.value, INTERRUPTED, None, Ascii("WORKFLOW_CANCELLED:") + Trim(c.reason), c.occurredAt))
  {
    CancellationsApply(w, current, c);
    WorkflowOutcomes(w, c);
    EncodesWith(WORKFLOW_CANCELLED, Trim(c.reason));
    if current.Some? { CancelledAttempt(w, current.value, c); }
  }

  lemma {:induction false} CancelledAttempt(w: Workflow, a: Attempt, c: WorkflowCommand)
    requires c.request.Cancel? && DecideWorkflow(w, c).Accept? && Authority(w, Some(a))
    requires ApplyCancellation(w, Some(a), DecideWorkflow(w, c).event).Some?
    ensures ApplyCancellation(w, Some(a), DecideWorkflow(w, c).event).value.1 ==
      Some(a.(status := INTERRUPTED, terminationReason := Some(Encode(WORKFLOW_CANCELLED, Trim(c.reason))), endedAt := Some(c.occurredAt)))
  {
  }

  // What speaks against a command on Attempts.
  predicate AttemptObjects(w: Workflow, current: Option<Attempt>, c: AttemptCommand, code: AttemptRejection) {
    var begins := c.request.Begin?;
    match code
    case WORKFLOW_ID_MISMATCHED => c.workflowId != w.id
    case STALE_WORKFLOW_VERSION => c.expectedVersion != w.version
    case WORKFLOW_IS_TERMINAL => w.runStatus == CANCELLED || w.runStatus == CLOSED
    case TIMESTAMP_ORDER => c.occurredAt < w.updatedAt || (!begins && current.Some? && c.occurredAt < current.value.startedAt)
    case WORKFLOW_NOT_READY => begins && w.runStatus != READY
    case ACTIVE_ATTEMPT_EXISTS => begins && current.Some?
    case INVALID_SEQUENCE => begins && !IsVersion(c.request.sequence)
    case INVALID_CONTEXT_BINDING => begins && c.request.workerSession.Some? && c.request.contextManifestId.None?
    case ATTEMPT_REQUIRED => !begins && current.None?
    case ATTEMPT_ID_MISMATCH => !begins && current.Some? && c.attemptId != current.value.id
    case ACTIVE_ATTEMPT_MISMATCH => !begins && current.Some? && w.activeAttemptId != Some(current.value.id)
    case WORKFLOW_NOT_RUNNING => !begins && w.runStatus != RUNNING
    case ATTEMPT_NOT_RUNNING => !begins && current.Some? && current.value.status != RUNNING_ATTEMPT
    case ATTEMPT_PHASE_MISMATCH => !begins && current.Some? && (current.value.workflowId != w.id || current.value.phase != w.phase)
    case EMPTY_TERMINAL_REASON => !begins && AllWhitespace(c.request.reason)
    case INVALID_INTERRUPTION_AUTHORITY => c.request.Interrupt? && c.request.resultingStatus !in StatusesAfter(c.request.interruption)
  }

  lemma {:induction false} InterruptionObjection(c: AttemptCommand)
    requires c.request.Interrupt? && Trim(c.request.reason) != []
    ensures InterruptionAuthorized(Encode(c.request.interruption, Trim(c.request.reason)), c.request.resultingStatus) <==>
      c.request.resultingStatus in StatusesAfter(c.request.interruption)
  {
    TrimKeeps(c.request.reason);
    InterruptionsExactly(c.request.interruption, Trim(c.request.reason), c.request.resultingStatus);
  }

  // A command is rejected only with an objection to it, and accepted exactly when there is none.
  lemma {:induction false} AttemptRejections(w: Workflow, current: Option<Attempt>, c: AttemptCommand)
    requires WorkflowInv(w) && (current.Some? ==> AttemptInv(current.value))
    ensures var d := DecideAttempt(w, current, c);
      && (d.Reject? ==> AttemptObjects(w, current, c, d.rejection))
      && (d.Accept? <==> NextVersion(w.version).Some? && forall code :: !AttemptObjects(w, current, c, code))
  {
    if !c.request.Begin? {
      TrimKeeps(c.request.reason);
      if c.request.Interrupt? && Trim(c.request.reason) != [] { InterruptionObjection(c); }
    }
    var d := DecideAttempt(w, current, c);
    if d.Reject? { assert AttemptObjects(w, current, c, d.rejection); }
    if d.Accept? { forall code ensures !AttemptObjects(w, current, c, code) { } }
  }

  // ---- Candidate generations ----

  predicate SameGeneration(g: C.Generation, next: C.Generation, at: int) {
    && next.id == g.id && next.candidateId == g.candidateId && next.sequence == g.sequence
    && next.parentGenerationId == g.parentGenerationId && next.workspaceIdentity == g.workspaceIdentity
    && next.baseDigest == g.baseDigest && next.version == g.version + 1 && next.createdAt == g.createdAt && next.updatedAt == at
  }

  predicate SameFreeze(g: C.Generation, next: C.Generation) { next.frozenDigest == g.frozenDigest && next.frozenAt == g.frozenAt }

  // What each command on a Candidate generation that is accepted leads to.
  lemma {:induction false} CandidateOutcomes(g: C.Generation, c: C.CandidateCommand)
    requires C.DecideCandidate(g, c).Accept?
    ensures C.ApplyCandidateEvent(g, C.DecideCandidate(g, c).event).Some?
    ensures var next := C.ApplyCandidateEvent(g, C.DecideCandidate(g, c).event).value;
      && SameGeneration(g, next, c.occurredAt)
      && match c.request {
           case BeginFreeze => g.state == C.MUTABLE && next.state == C.FREEZING && SameFreeze(g, next) && next.invalidationReason.None?
           case CompleteFreeze(digest) =>
             && g.state == C.FREEZING && next.state == C.FROZEN && next.frozenDigest == Some(digest)
             && next.frozenAt == Some(c.occurredAt) && next.invalidationReason.None?
           case Invalidate(reason) =>
             && !C.HasEnded(g.state) && next.state == C.INVALIDATED && SameFreeze(g, next)
             && next.invalidationReason == Some(Trim(reason)) && !AllWhitespace(reason)
           case RejectCandidate(reason) =>
             && g.state == C.FROZEN && next.state == C.REJECTED && SameFreeze(g, next) && next.invalidationReason.None?
             && C.DecideCandidate(g, c).event.reason == Some(Trim(reason)) && !AllWhitespace(reason)
           case AcceptCandidate => g.state == C.FROZEN && next.state == C.ACCEPTED && SameFreeze(g, next) && next.invalidationReason.None?
         }
  {
    C.CandidateDecisionsApply(g, c);
    match c.request {
      case Invalidate(reason) => TrimKeeps(reason);
      case RejectCandidate(reason) => TrimKeeps(reason);
      case _ =>
    }
  }

  predicate CandidateObjects(g: C.Generation, c: C.CandidateCommand, code: C.CandidateRejection) {
    match code
    case CANDIDATE_ID_MISMATCH => c.generationId != g.id
    case STALE_CANDIDATE => c.expectedVersion != g.version
    case TERMINAL_CANDIDATE => g.state == C.INVALIDATED || g.state == C.REJECTED || g.state == C.ACCEPTED
    case TIMESTAMPS_OUT_OF_ORDER => c.occurredAt < g.updatedAt
    case ILLEGAL_CANDIDATE_TRANSITION =>
      || (c.request.BeginFreeze? && g.state != C.MUTABLE) || (c.request.CompleteFreeze? && g.state != C.FREEZING)
      || ((c.request.RejectCandidate? || c.request.AcceptCandidate?) && g.state != C.FROZEN)
    case EMPTY_CANDIDATE_REASON => (c.request.Invalidate? || c.request.RejectCandidate?) && AllWhitespace(c.request.reason)
  }

  lemma {:induction false} CandidateRejections(g: C.Generation, c: C.CandidateCommand)
    requires C.CandidateInv(g)
    ensures var d := C.DecideCandidate(g, c);
      && (d.Reject? ==> CandidateObjects(g, c, d.rejection))
      && (d.Accept? <==> NextVersion(g.version).Some? && forall code :: !CandidateObjects(g, c, code))
  {
    if c.request.Invalidate? || c.request.RejectCandidate? { TrimKeeps(c.request.reason); }
    var d := C.DecideCandidate(g, c);
    if d.Reject? { assert CandidateObjects(g, c, d.rejection); }
    if d.Accept? { forall code ensures !CandidateObjects(g, c, code) { } }
  }

  // ---- Recoveries ----

  // The record is a reconciliation of this blocked Workflow, on resuming it.
  predicate Concerns(r: R.Record, w: Workflow) {
    && r.purpose == R.RESUME && w.runStatus == BLOCKED && r.goalId == w.goalId && r.goalRevision == w.goalRevision
    && r.workflowId == w.id && r.phase == w.phase && r.inspectedVersion == w.version && w.updatedAt <= r.inspectedAt
  }

  // All that was expected of the project and of the Candidate was observed.
  predicate ObservedAsExpected(r: R.Record) {
    && r.observedProjectIdentity == Some(r.expectedProjectIdentity) && !AllWhitespace(r.expectedProjectIdentity)
    && r.observedCandidateDigest == r.expectedCandidateDigest
    && r.candidateGenerationId.Some? == r.expectedCandidateDigest.Some? == r.candidateBaseIdentity.Some?
  }

  // A recovery is planned exactly from a valid record that concerns the Workflow.  It is to READY only if
  // all that was expected was observed, and then to the phase that the record finds safe, which is not a
  // later one; otherwise the Workflow stays blocked where it is.
  lemma {:induction false} RecoveryOutcomes(w: Workflow, r: R.Record, commandId: Id)
    requires WorkflowInv(w)
    ensures R.Plan(w, r, commandId).Some? <==> R.RecordInv(r) && Concerns(r, w)
    ensures R.Plan(w, r, commandId).Some? ==> R.Apply(w, R.Plan(w, r, commandId).value).Some?
    ensures R.Plan(w, r, commandId).Some? ==>
      var next := R.Apply(w, R.Plan(w, r, commandId).value).value;
      && SameWorkflow(w, next) && next.updatedAt == r.inspectedAt && next.activeCandidateGenerationId == w.activeCandidateGenerationId
      && next.activeAttemptId.None?
      && match r.disposition {
           case STAY_BLOCKED =>
             && next.runStatus == BLOCKED && next.phase == w.phase && r.reasonCode != R.EXACT_AUTHORITY_MATCH
             && next.suspendedReason == Some(Ascii("RECOVERY:") + R.CodeName(r.reasonCode))
           case SAFE_SAME_PHASE =>
             && next.runStatus == READY && next.phase == w.phase && next.suspendedReason.None? && ObservedAsExpected(r)
             && r.reasonCode == R.EXACT_AUTHORITY_MATCH
           case SAFE_EARLIER_PHASE =>
             && next.runStatus == READY && r.safeResumePhase == Some(next.phase) && R.PhaseIndex(next.phase) < R.PhaseIndex(w.phase)
             && next.suspendedReason.None? && ObservedAsExpected(r) && r.reasonCode == R.EXACT_AUTHORITY_MATCH
         }
  {
    if R.Plan(w, r, commandId).Some? { R.PlansApply(w, r, commandId); }
  }

  predicate Precedes(a: Phase, b: Phase) {
    match b
    case DISCOVERY => false
    case PLAN => a == DISCOVERY
    case IMPLEMENT => a == DISCOVERY || a == PLAN
    case SOURCE_FREEZE => a == DISCOVERY || a == PLAN || a == IMPLEMENT
    case EVIDENCE_BUILD => a != EVIDENCE_BUILD && a != FINAL_VERIFY && a != CLOSEOUT
    case FINAL_VERIFY => a != FINAL_VERIFY && a != CLOSEOUT
    case CLOSEOUT => a != CLOSEOUT
  }

  lemma {:induction false} PhasesInOrder(a: Phase, b: Phase)
    ensures R.PhaseIndex(a) < R.PhaseIndex(b) <==> Precedes(a, b)
  {
  }

  // ---- Valid records ----

  // A Workflow is valid exactly if its fields go with its status and with its phase.
  lemma {:induction false} WorkflowIsValid(w: Workflow)
    ensures WorkflowInv(w) <==>
      && 0 < w.goalRevision <= 9007199254740991 && 0 < w.version <= 9007199254740991 && w.createdAt <= w.updatedAt
      && w.suspendedReason != Some([]) && (w.suspendedReason.Some? ==> Trim(w.suspendedReason.value) != [])
      && (Precedes(PLAN, w.phase) ==> w.activeCandidateGenerationId.Some?)
      && match w.runStatus {
           case RUNNING => w.activeAttemptId.Some? && w.phase != CLOSEOUT
           case CLOSED => w.activeAttemptId.None? && w.phase == CLOSEOUT
           case _ => w.activeAttemptId.None? && w.phase != CLOSEOUT
         }
  {
    if w.suspendedReason.Some? { TrimKeeps(w.suspendedReason.value); }
  }

  predicate HasEnded(a: Attempt) { a.terminationReason.Some? && a.endedAt.Some? && a.startedAt <= a.endedAt.value }

  // The reason of an interruption names one of the four and says more.
  ghost predicate IsInterruption(reason: Text) { exists r, text :: reason == PrefixOf(r) + text && !AllWhitespace(text) }

  lemma {:induction false} InterruptionIs(reason: Text)
    ensures Decode(reason).Some? <==> IsInterruption(reason)
  {
    if Decode(reason).Some? {
      CarriedIs(reason);
      EncodesWith(Decode(reason).value, Carried(reason));
    }
    if r, text :| reason == PrefixOf(r) + text && !AllWhitespace(text) {
      EncodesWith(r, text);
      DecodeEncode(r, text);
    }
  }

  lemma {:induction false} AttemptIsValid(a: Attempt)
    ensures AttemptInv(a) <==>
      && 0 < a.sequence <= 9007199254740991 && a.phase != CLOSEOUT && (a.workerSession.Some? ==> a.contextManifestId.Some?)
      && a.grant == DeriveGrant(a.phase)
      && match a.status {
           case RUNNING_ATTEMPT => a.failureClass.None? && a.terminationReason.None? && a.endedAt.None?
           case RESULT_RECORDED => a.failureClass.None? && HasEnded(a) && Trim(a.terminationReason.value) != []
           case FAILED_ATTEMPT => a.failureClass.Some? && HasEnded(a) && Trim(a.terminationReason.value) != []
           case INTERRUPTED => a.failureClass.None? && HasEnded(a) && IsInterruption(a.terminationReason.value)
         }
  {
    if a.terminationReason.Some? {
      TrimKeeps(a.terminationReason.value);
      InterruptionIs(a.terminationReason.value);
    }
  }

  // A generation is valid exactly if it has a frozen digest from FROZEN on, unless it was invalidated, and
  // the reason of its invalidation exactly then.
  lemma {:induction false} GenerationIsValid(g: C.Generation)
    ensures C.CandidateInv(g) <==>
      && 0 < g.version <= 9007199254740991 && 0 < g.sequence <= 9007199254740991 && Trim(g.workspaceIdentity) != []
      && g.parentGenerationId != Some(g.id) && g.createdAt <= g.updatedAt
      && (g.frozenDigest.Some? <==> g.frozenAt.Some?) && (g.frozenAt.Some? ==> g.createdAt <= g.frozenAt.value <= g.updatedAt)
      && (g.state == C.MUTABLE || g.state == C.FREEZING ==> g.frozenDigest.None?)
      && (g.state == C.FROZEN || g.state == C.REJECTED || g.state == C.ACCEPTED ==> g.frozenDigest.Some?)
      && (g.invalidationReason.Some? <==> g.state == C.INVALIDATED)
      && (g.invalidationReason.Some? ==> Trim(g.invalidationReason.value) != [])
  {
    TrimKeeps(g.workspaceIdentity);
    if g.invalidationReason.Some? { TrimKeeps(g.invalidationReason.value); }
  }

  predicate IsSaid(t: Option<Text>) { t.Some? ==> Trim(t.value) != [] }

  // A reconciliation record is valid exactly if nothing of this is wrong with it.
  lemma {:induction false} RecordIsValid(r: R.Record)
    ensures R.RecordInv(r) <==>
      && 0 < r.goalRevision <= 9007199254740991 && 0 < r.inspectedVersion < 9007199254740991
      && r.resultingVersion == r.inspectedVersion + 1 && 0 < r.lastAuditSequence <= 9007199254740991
      && (r.dispatchClaimDigest.Some? ==> r.sourceAttemptId.Some?)
      && IsSaid(Some(r.expectedProjectIdentity)) && IsSaid(r.observedProjectIdentity) && IsSaid(r.candidateBaseIdentity)
      && IsSaid(Some(r.inspectorVersion)) && IsSaid(Some(r.recoveryPolicyVersion))
      && (r.candidateGenerationId.Some? <==> r.candidateBaseIdentity.Some?)
      && (r.candidateGenerationId.Some? <==> r.expectedCandidateDigest.Some?)
      && (r.observedCandidateDigest.Some? ==> r.candidateGenerationId.Some?)
      && |r.observationRefs| > 0
      && (forall i | 0 <= i < |r.observationRefs| :: IsSaid(Some(r.observationRefs[i])))
      && (forall i, j | 0 <= i < j < |r.observationRefs| :: r.observationRefs[i] != r.observationRefs[j])
      && (r.reasonCode == R.EXACT_AUTHORITY_MATCH <==> r.disposition != R.STAY_BLOCKED)
      && (if r.disposition == R.STAY_BLOCKED then r.safeResumePhase.None? else
            && ObservedAsExpected(r) && r.safeResumePhase.Some?
            && if r.disposition == R.SAFE_SAME_PHASE then r.safeResumePhase.value == r.phase
               else Precedes(r.safeResumePhase.value, r.phase))
  {
    forall t: Text ensures Trim(t) == [] <==> AllWhitespace(t) { TrimKeeps(t); }
    if r.safeResumePhase.Some? { PhasesInOrder(r.safeResumePhase.value, r.phase); }
  }

  // A Workflow runs exactly one Attempt of its own, in its phase, while it is RUNNING, and none otherwise.
  lemma {:induction false} AuthorityIs(w: Workflow, active: Option<Attempt>)
    ensures Authority(w, active) <==>
      && WorkflowInv(w) && (active.Some? <==> w.runStatus == RUNNING)
      && (active.Some? ==>
           && AttemptInv(active.value) && w.activeAttemptId == Some(active.value.id)
           && (active.value.workflowId, active.value.phase, active.value.status) == (w.id, w.phase, RUNNING_ATTEMPT))
  {
  }

  // ---- The fault of a validation ----

  // The supplied result has this fault: it is blank, comes a second time, or is not asked for.
  predicate SuppliedFaultAt(required: seq<Guard>, actual: seq<GuardResult>, i: nat, code: Rejection) {
    i < |actual| && var r := actual[i];
    match code
    case GUARD_MISSING_SUPPORT => HasBlankMetadata(r)
    case DUPLICATE_GUARD => !HasBlankMetadata(r) && exists j :: 0 <= j < i && actual[j].guard == r.guard
    case UNEXPECTED_GUARD => !HasBlankMetadata(r) && (forall j | 0 <= j < i :: actual[j].guard != r.guard) && r.guard !in required
    case _ => false
  }

  predicate HasSuppliedFault(required: seq<Guard>, actual: seq<GuardResult>, i: nat) {
    exists code :: SuppliedFaultAt(required, actual, i, code)
  }

  // A result for the required guard is missing, has not passed, or has no support.
  predicate RequiredFaultAt(required: seq<Guard>, actual: seq<GuardResult>, k: nat, code: Rejection) {
    k < |required| &&
    match code
    case MISSING_GUARD => forall r | r in actual :: r.guard != required[k]
    case FAILED_GUARD => exists r :: r in actual && r.guard == required[k] && r.outcome != PASS
    case GUARD_MISSING_SUPPORT => exists r :: r in actual && r.guard == required[k] && r.outcome == PASS && r.supportingRefs == []
    case _ => false
  }

  predicate HasRequiredFault(required: seq<Guard>, actual: seq<GuardResult>, k: nat) {
    exists code :: RequiredFaultAt(required, actual, k, code)
  }

  // The first fault of a supplied result, or else of a required guard.
  ghost predicate IsFirstFault(required: seq<Guard>, actual: seq<GuardResult>, v: GuardValidation)
    requires v.Invalid?
  {
    || (exists i: nat ::
         && SuppliedFaultAt(required, actual, i, v.code) && actual[i].guard == v.guard
         && forall j: nat | j < i :: !HasSuppliedFault(required, actual, j))
    || (&& (forall i: nat :: !HasSuppliedFault(required, actual, i))
        && exists k: nat ::
             && RequiredFaultAt(required, actual, k, v.code) && required[k] == v.guard
             && forall j: nat | j < k :: !HasRequiredFault(required, actual, j))
  }

  lemma {:induction false} SuppliedFaultIs(required: seq<Guard>, actual: seq<GuardResult>, i: nat, byGuard: map<Guard, GuardResult>)
    requires i < |actual| && Collected(required, actual[..i], byGuard)
    ensures forall code :: SuppliedFaultAt(required, actual, i, code) <==> SuppliedFault(required, byGuard.Keys, actual[i]) == Some(code)
  {
    var r, done := actual[i], actual[..i];
    assert r.guard in byGuard <==> exists j :: 0 <= j < i && actual[j].guard == r.guard by {
      if r.guard in byGuard {
        var j :| 0 <= j < |done| && done[j] == byGuard[r.guard];
        assert actual[j].guard == r.guard;
      }
      if j :| 0 <= j < i && actual[j].guard == r.guard { assert done[j].guard in byGuard; }
    }
  }

  lemma {:induction false} RequiredFaultIs(required: seq<Guard>, actual: seq<GuardResult>, k: nat, byGuard: map<Guard, GuardResult>)
    requires k < |required| && Collected(required, actual, byGuard)
    ensures forall code :: RequiredFaultAt(required, actual, k, code) <==> RequiredFault(byGuard, required[k]) == Some(code)
  {
    var guard := required[k];
    forall r | r in actual && r.guard == guard ensures guard in byGuard && byGuard[guard] == r {
      var i :| 0 <= i < |actual| && actual[i] == r;
    }
  }

  lemma {:induction false} OrderFaults(required: seq<Guard>, actual: seq<GuardResult>, k: nat, byGuard: map<Guard, GuardResult>, ordered: seq<GuardResult>)
    requires k <= |required| && Collected(required, actual, byGuard)
    requires (forall i: nat :: !HasSuppliedFault(required, actual, i)) && forall j: nat | j < k :: !HasRequiredFault(required, actual, j)
    ensures var v := Order(required[k..], byGuard, ordered); v.Invalid? ==> IsFirstFault(required, actual, v)
    decreases |required| - k
  {
    if k < |required| {
      RequiredFaultIs(required, actual, k, byGuard);
      assert required[k..][0] == required[k] && required[k..][1..] == required[k + 1..];
      if RequiredFault(byGuard, required[k]).Some? {
        assert RequiredFaultAt(required, actual, k, RequiredFault(byGuard, required[k]).value);
      } else {
        assert !HasRequiredFault(required, actual, k);
        OrderFaults(required, actual, k + 1, byGuard, ordered + [byGuard[required[k]]]);
      }
    }
  }

  lemma {:induction false} CollectFaults(required: seq<Guard>, actual: seq<GuardResult>, i: nat, byGuard: map<Guard, GuardResult>)
    requires i <= |actual| && Collected(required, actual[..i], byGuard) && forall j: nat | j < i :: !HasSuppliedFault(required, actual, j)
    ensures var v := Collect(required, actual[i..], byGuard); v.Invalid? ==> IsFirstFault(required, actual, v)
    decreases |actual| - i
  {
    if i == |actual| {
      assert actual[..i] == actual;
      forall j: nat ensures !HasSuppliedFault(required, actual, j) { }
      assert required[0..] == required;
      OrderFaults(required, actual, 0, byGuard, []);
    } else {
      SuppliedFaultIs(required, actual, i, byGuard);
      assert actual[i..][0] == actual[i] && actual[i..][1..] == actual[i + 1..];
      if SuppliedFault(required, byGuard.Keys, actual[i]).Some? {
        assert SuppliedFaultAt(required, actual, i, SuppliedFault(required, byGuard.Keys, actual[i]).value);
      } else {
        assert !HasSuppliedFault(required, actual, i);
        CollectedMore(required, actual[..i], actual[i], byGuard);
        assert actual[..i + 1] == actual[..i] + [actual[i]];
        CollectFaults(required, actual, i + 1, byGuard[actual[i].guard := actual[i]]);
      }
    }
  }

  // Results that are rejected are rejected for their first fault: of a supplied result, in their order, and
  // else of a required guard, in the order of the requirement.
  lemma {:induction false} ValidationFaults(required: seq<Guard>, actual: seq<GuardResult>)
    ensures var v := ValidateGuards(required, actual); v.Invalid? ==> IsFirstFault(required, actual, v)
  {
    assert actual[..0] == [] && actual[0..] == actual;
    CollectFaults(required, actual, 0, map[]);
  }

  // ---- Creation ----

  // A Workflow begins at the first version, READY in DISCOVERY, without an Attempt or a Candidate; and a
  // generation MUTABLE, with its workspace trimmed.
  lemma {:induction false} CreationOutcomes(
    id: Id, goalId: Id, goalRevision: nat, at: int, candidateId: Id, sequence: int, parent: Option<Id>, workspace: Text, digest: nat)
    ensures CreateWorkflow(id, goalId, goalRevision, at) ==
      if 0 < goalRevision <= 9007199254740991
      then Some(W.Workflow(id, goalId, goalRevision, DISCOVERY, READY, 1, None, None, None, at, at)) else None
    ensures C.CreateGeneration(id, candidateId, sequence, parent, workspace, digest, at) ==
      if parent != Some(id) && 0 < sequence <= 9007199254740991 && !AllWhitespace(workspace)
      then Some(C.Generation(id, candidateId, sequence, parent, Trim(workspace), digest, 1, at, at, C.MUTABLE, None, None, None)) else None
  {
    TrimKeeps(workspace);
  }
}
