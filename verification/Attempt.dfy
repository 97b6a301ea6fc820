// packages/domain/src/attempt.ts and capabilities.ts: Attempts, the authority they form with their
// Workflow, and how they begin and end.
module Attempt {
  import opened Options
  import opened CodeUnits
  import opened Workflow

  // ---- Capabilities ----

  datatype CandidateAccess = NO_CANDIDATE | MUTABLE_WRITE | FREEZE_READ | FROZEN_READ | ACCEPTED_READ

  datatype RunOutputScope =
    | BOUNDED_DISCOVERY | PLAN_OBSERVATION | BOUNDED_IMPLEMENTATION | FREEZE_METADATA | RUN_OWNED_VERIFICATION
    | DECISION_TRACE | CLOSEOUT_EXPORT

  datatype ControlSubmission =
    | PROPOSALS | COMPLETION_REQUEST | RUNTIME_ONLY | EVIDENCE_SUBMISSION | DECISION_SUBMISSION | CONSUME_EXISTING

  datatype AcceptanceAccess = NO_ACCEPTANCE | EVALUATE_READ_ONLY | CONSUME_ACCEPTED

  datatype Action =
    | READ_PROJECT | READ_CANDIDATE | WRITE_CANDIDATE_SOURCE | WRITE_RUN_OUTPUT | SUBMIT_PROPOSALS
    | SUBMIT_COMPLETION_REQUEST | SUBMIT_EVIDENCE | SUBMIT_DECISION | EVALUATE_ACCEPTANCE | CONSUME_ACCEPTANCE

  datatype Grant = Grant(
    phase: Phase,
    projectRead: bool,
    candidateAccess: CandidateAccess,
    runOutputScope: RunOutputScope,
    controlSubmission: ControlSubmission,
    acceptanceAccess: AcceptanceAccess,
    allowedActions: seq<Action>)

  function DeriveGrant(phase: Phase): Grant {
    match phase
    case DISCOVERY => Grant(phase, true, NO_CANDIDATE, BOUNDED_DISCOVERY, PROPOSALS, NO_ACCEPTANCE,
      [READ_PROJECT, WRITE_RUN_OUTPUT, SUBMIT_PROPOSALS])
    case PLAN => Grant(phase, true, NO_CANDIDATE, PLAN_OBSERVATION, PROPOSALS, NO_ACCEPTANCE,
      [READ_PROJECT, WRITE_RUN_OUTPUT, SUBMIT_PROPOSALS])
    case IMPLEMENT => Grant(phase, true, MUTABLE_WRITE, BOUNDED_IMPLEMENTATION, COMPLETION_REQUEST, NO_ACCEPTANCE,
      [READ_PROJECT, READ_CANDIDATE, WRITE_CANDIDATE_SOURCE, WRITE_RUN_OUTPUT, SUBMIT_COMPLETION_REQUEST])
    case SOURCE_FREEZE => Grant(phase, true, FREEZE_READ, FREEZE_METADATA, RUNTIME_ONLY, NO_ACCEPTANCE,
      [READ_PROJECT, READ_CANDIDATE, WRITE_RUN_OUTPUT])
    case EVIDENCE_BUILD => Grant(phase, true, FROZEN_READ, RUN_OWNED_VERIFICATION, EVIDENCE_SUBMISSION, NO_ACCEPTANCE,
      [READ_PROJECT, READ_CANDIDATE, WRITE_RUN_OUTPUT, SUBMIT_EVIDENCE])
    case FINAL_VERIFY => Grant(phase, true, FROZEN_READ, DECISION_TRACE, DECISION_SUBMISSION, EVALUATE_READ_ONLY,
      [READ_PROJECT, READ_CANDIDATE, WRITE_RUN_OUTPUT, SUBMIT_DECISION, EVALUATE_ACCEPTANCE])
    case CLOSEOUT => Grant(phase, true, ACCEPTED_READ, CLOSEOUT_EXPORT, CONSUME_EXISTING, CONSUME_ACCEPTED,
      [READ_PROJECT, READ_CANDIDATE, WRITE_RUN_OUTPUT, CONSUME_ACCEPTANCE])
  }

  predicate Allows(grant: Grant, action: Action) { action in grant.allowedActions }

  predicate IsCanonicalGrant(grant: Grant) {
    var expected := DeriveGrant(grant.phase);
    && grant.projectRead
    && grant.candidateAccess == expected.candidateAccess && grant.runOutputScope == expected.runOutputScope
    && grant.controlSubmission == expected.controlSubmission && grant.acceptanceAccess == expected.acceptanceAccess
    && grant.allowedActions == expected.allowedActions
  }

  // ---- Attempts ----

  datatype AttemptStatus = RUNNING_ATTEMPT | RESULT_RECORDED | FAILED_ATTEMPT | INTERRUPTED

  datatype FailureClass =
    | TRANSIENT_BACKEND | TIMEOUT | ABRUPT_TERMINATION | PROTOCOL_ERROR | INTEGRITY_VIOLATION | PERMANENT_BACKEND
    | UNKNOWN_FAILURE

  datatype InterruptionReason = USER_REQUEST | WORKFLOW_CANCELLED | RECOVERY_RECONCILIATION | RUNTIME_SHUTDOWN

  datatype Attempt = Attempt(
    id: Id,
    workflowId: Id,
    phase: Phase,
    sequence: int,
    contextManifestId: Option<Id>,
    grant: Grant,
    workerSession: Option<Id>,
    startedAt: int,
    status: AttemptStatus,
    failureClass: Option<FailureClass>,
    terminationReason: Option<Text>,
    endedAt: Option<int>)

  datatype RetryClassification = RETRYABLE | RECONCILE_FIRST | NON_RETRYABLE

  function Classify(f: FailureClass): RetryClassification {
    match f
    case TRANSIENT_BACKEND => RETRYABLE
    case TIMEOUT => RECONCILE_FIRST
    case ABRUPT_TERMINATION => RECONCILE_FIRST
    case _ => NON_RETRYABLE
  }

  function StatusAfterFailure(f: FailureClass): RunStatus {
    if Classify(f) == NON_RETRYABLE then RunStatus.FAILED else BLOCKED
  }

  // ---- Interruption reasons as prefixes of the termination reason ----

  function ReasonName(r: InterruptionReason): Text {
    match r
    case USER_REQUEST => Ascii("USER_REQUEST")
    case WORKFLOW_CANCELLED => Ascii("WORKFLOW_CANCELLED")
    case RECOVERY_RECONCILIATION => Ascii("RECOVERY_RECONCILIATION")
    case RUNTIME_SHUTDOWN => Ascii("RUNTIME_SHUTDOWN")
  }

  function Encode(r: InterruptionReason, text: Text): Text { ReasonName(r) + Ascii(":") + text }

  predicate Carries(terminationReason: Text, r: InterruptionReason) {
    var prefix := ReasonName(r) + Ascii(":");
    prefix <= terminationReason && Trim(terminationReason[|prefix|..]) != []
  }

  function Decode(terminationReason: Text): Option<InterruptionReason> {
    if Carries(terminationReason, USER_REQUEST) then Some(USER_REQUEST)
    else if Carries(terminationReason, WORKFLOW_CANCELLED) then Some(WORKFLOW_CANCELLED)
    else if Carries(terminationReason, RECOVERY_RECONCILIATION) then Some(RECOVERY_RECONCILIATION)
    else if Carries(terminationReason, RUNTIME_SHUTDOWN) then Some(RUNTIME_SHUTDOWN)
    else None
  }

  lemma {:induction false} CarriesEncoded(r: InterruptionReason, text: Text)
    ensures Carries(Encode(r, text), r) <==> !AllWhitespace(text)
  {
    var prefix := ReasonName(r) + Ascii(":");
    assert Encode(r, text)[|prefix|..] == text && prefix <= Encode(r, text);
    TrimKeeps(text);
  }

  lemma {:induction false} NamesDiffer(r: InterruptionReason, s: InterruptionReason)
    requires r != s
    ensures ReasonName(r)[0] != ReasonName(s)[0] || ReasonName(r)[1] != ReasonName(s)[1]
  {
  }

  lemma {:induction false} CarriesNoOther(r: InterruptionReason, s: InterruptionReason, text: Text)
    requires r != s
    ensures !Carries(Encode(r, text), s)
  {
    NamesDiffer(r, s);
    var t, prefix := Encode(r, text), ReasonName(s) + Ascii(":");
    assert t[0] == ReasonName(r)[0] && t[1] == ReasonName(r)[1];
    assert prefix[0] == ReasonName(s)[0] && prefix[1] == ReasonName(s)[1];
  }

  // Decoding what was encoded gives the reason back, exactly when the text is not blank.
  lemma {:induction false} DecodeEncode(r: InterruptionReason, text: Text)
    ensures Decode(Encode(r, text)) == if AllWhitespace(text) then None else Some(r)
  {
    CarriesEncoded(r, text);
    forall s | s != r ensures !Carries(Encode(r, text), s) { CarriesNoOther(r, s, text); }
  }

  // ---- Which Workflow status may follow ----

  predicate InterruptionAuthorized(terminationReason: Text, status: RunStatus) {
    match Decode(terminationReason)
    case Some(RECOVERY_RECONCILIATION) => status == BLOCKED
    case Some(USER_REQUEST) => status == READY || status == BLOCKED
    case Some(RUNTIME_SHUTDOWN) => status == READY || status == BLOCKED
    case Some(WORKFLOW_CANCELLED) => false
    case None => false
  }

  // `isTerminalAttemptWorkflowRunStatusAuthorized`.
  predicate EndingAuthorized(a: Attempt, status: RunStatus)
    requires AttemptInv(a)
  {
    match a.status
    case RUNNING_ATTEMPT => false
    case RESULT_RECORDED => status == READY
    case FAILED_ATTEMPT => status == StatusAfterFailure(a.failureClass.value)
    case INTERRUPTED =>
      if Decode(a.terminationReason.value) == Some(WORKFLOW_CANCELLED) then status == CANCELLED
      else InterruptionAuthorized(a.terminationReason.value, status)
  }

  // ---- Invariants and authority ----

  predicate AttemptInv(a: Attempt) {
    && (a.workerSession.Some? ==> a.contextManifestId.Some?)
    && IsVersion(a.sequence) && a.phase != CLOSEOUT && a.grant.phase == a.phase && IsCanonicalGrant(a.grant)
    && (a.failureClass.Some? <==> a.status == FAILED_ATTEMPT)
    && (a.status == RUNNING_ATTEMPT ==> a.terminationReason.None? && a.endedAt.None?)
    && (a.status != RUNNING_ATTEMPT ==> a.terminationReason.Some? && a.endedAt.Some? && a.startedAt <= a.endedAt.value)
    && (a.status == RESULT_RECORDED || a.status == FAILED_ATTEMPT ==> !AllWhitespace(a.terminationReason.value))
    && (a.status == INTERRUPTED ==> Decode(a.terminationReason.value).Some?)
  }

  predicate ExactAuthority(w: Workflow, active: Option<Attempt>) {
    if w.runStatus != RUNNING then w.activeAttemptId.None? && active.None?
    else
      && w.activeAttemptId.Some? && active.Some?
      && active.value.id == w.activeAttemptId.value && active.value.workflowId == w.id
      && active.value.phase == w.phase && active.value.status == RUNNING_ATTEMPT
  }

  predicate Authority(w: Workflow, active: Option<Attempt>) {
    WorkflowInv(w) && (active.Some? ==> AttemptInv(active.value)) && ExactAuthority(w, active)
  }

  // ---- Commands and events ----

  datatype AttemptCommand = AttemptCommand(
    commandId: Id, workflowId: Id, expectedVersion: nat, occurredAt: int, attemptId: Id, request: AttemptRequest)

  datatype AttemptRequest =
    | Begin(sequence: int, contextManifestId: Option<Id>, workerSession: Option<Id>)
    | RecordResult(reason: Text)
    | RecordFailure(failureClass: FailureClass, reason: Text)
    | Interrupt(interruption: InterruptionReason, resultingStatus: RunStatus, reason: Text)

  datatype AttemptRejection =
    | WORKFLOW_ID_MISMATCHED | ATTEMPT_ID_MISMATCH | STALE_WORKFLOW_VERSION | WORKFLOW_NOT_READY | WORKFLOW_NOT_RUNNING
    | WORKFLOW_IS_TERMINAL | ACTIVE_ATTEMPT_EXISTS | ACTIVE_ATTEMPT_MISMATCH | ATTEMPT_REQUIRED | ATTEMPT_NOT_RUNNING
    | ATTEMPT_PHASE_MISMATCH | INVALID_SEQUENCE | TIMESTAMP_ORDER | INVALID_CONTEXT_BINDING
    | INVALID_INTERRUPTION_AUTHORITY | EMPTY_TERMINAL_REASON

  datatype AttemptEvent = AttemptEvent(
    commandId: Id, workflowId: Id, fromVersion: nat, toVersion: nat, occurredAt: int, change: AttemptChange)

  datatype AttemptChange =
    | Started(attempt: Attempt)
    | Finished(
        attemptId: Id,
        phase: Phase,
        toStatus: AttemptStatus,
        resultingStatus: RunStatus,
        failureClass: Option<FailureClass>,
        terminationReason: Text)

  function DecideBegin(w: Workflow, current: Option<Attempt>, c: AttemptCommand): Decision<AttemptChange, AttemptRejection>
    requires c.request.Begin?
  {
    var r := c.request;
    if w.runStatus != READY then Reject(WORKFLOW_NOT_READY)
    else if w.phase == CLOSEOUT then Reject(WORKFLOW_IS_TERMINAL)
    else if w.activeAttemptId.Some? || current.Some? then Reject(ACTIVE_ATTEMPT_EXISTS)
    else if !IsVersion(r.sequence) then Reject(INVALID_SEQUENCE)
    else if r.workerSession.Some? && r.contextManifestId.None? then Reject(INVALID_CONTEXT_BINDING)
    else Accept(Started(Attempt(c.attemptId, w.id, w.phase, r.sequence, r.contextManifestId, DeriveGrant(w.phase),
      r.workerSession, c.occurredAt, RUNNING_ATTEMPT, None, None, None)))
  }

  function FinishFault(w: Workflow, current: Option<Attempt>, c: AttemptCommand): Option<AttemptRejection> {
    if current.None? then Some(ATTEMPT_REQUIRED)
    else if c.attemptId != current.value.id then Some(ATTEMPT_ID_MISMATCH)
    else if w.activeAttemptId != Some(current.value.id) then Some(ACTIVE_ATTEMPT_MISMATCH)
    else if w.runStatus != RUNNING then Some(WORKFLOW_NOT_RUNNING)
    else if current.value.status != RUNNING_ATTEMPT then Some(ATTEMPT_NOT_RUNNING)
    else if current.value.workflowId != w.id || current.value.phase != w.phase then Some(ATTEMPT_PHASE_MISMATCH)
    else if c.occurredAt < current.value.startedAt then Some(TIMESTAMP_ORDER)
    else None
  }

  function DecideFinish(w: Workflow, current: Option<Attempt>, c: AttemptCommand): Decision<AttemptChange, AttemptRejection>
    requires !c.request.Begin?
  {
    var reason := Trim(c.request.reason);
    if FinishFault(w, current, c).Some? then Reject(FinishFault(w, current, c).value)
    else if reason == [] then Reject(EMPTY_TERMINAL_REASON)
    else
      match c.request
      case RecordResult(_) => Accept(Finished(c.attemptId, w.phase, RESULT_RECORDED, READY, None, reason))
      case RecordFailure(f, _) => Accept(Finished(c.attemptId, w.phase, FAILED_ATTEMPT, StatusAfterFailure(f), Some(f), reason))
      case Interrupt(r, status, _) =>
        if !InterruptionAuthorized(Encode(r, reason), status) then Reject(INVALID_INTERRUPTION_AUTHORITY)
        else Accept(Finished(c.attemptId, w.phase, INTERRUPTED, status, None, Encode(r, reason)))
  }

  function DecideAttempt(w: Workflow, current: Option<Attempt>, c: AttemptCommand): Decision<AttemptEvent, AttemptRejection> {
    if !WorkflowInv(w) || (current.Some? && !AttemptInv(current.value)) then Throw
    else if c.workflowId != w.id then Reject(WORKFLOW_ID_MISMATCHED)
    else if c.expectedVersion != w.version then Reject(STALE_WORKFLOW_VERSION)
    else if IsTerminal(w) then Reject(WORKFLOW_IS_TERMINAL)
    else if c.occurredAt < w.updatedAt then Reject(TIMESTAMP_ORDER)
    else if NextVersion(w.version).None? then Throw
    else
      match (if c.request.Begin? then DecideBegin(w, current, c) else DecideFinish(w, current, c))
      case Reject(code) => Reject(code)
      case Throw => Throw
      case Accept(change) => Accept(AttemptEvent(c.commandId, w.id, w.version, w.version + 1, c.occurredAt, change))
  }

  // ---- Application ----

  function Evolve(w: Workflow, e: AttemptEvent, status: RunStatus, active: Option<Id>, reason: Option<Text>): Workflow {
    w.(runStatus := status, version := e.toVersion, activeAttemptId := active, suspendedReason := reason, updatedAt := e.occurredAt)
  }

  predicate InvalidPayload(f: AttemptChange)
    requires f.Finished?
  {
    Trim(f.terminationReason) == [] ||
    match f.toStatus
    case RESULT_RECORDED => f.resultingStatus != READY || f.failureClass.Some?
    case FAILED_ATTEMPT => f.failureClass.None? || f.resultingStatus != StatusAfterFailure(f.failureClass.value)
    case INTERRUPTED => f.failureClass.Some? || !InterruptionAuthorized(f.terminationReason, f.resultingStatus)
    case RUNNING_ATTEMPT => true
  }

  function ApplyFinish(w: Workflow, a: Attempt, e: AttemptEvent): Option<(Workflow, Attempt)>
    requires e.change.Finished?
  {
    var f := e.change;
    if a.id != f.attemptId || a.workflowId != w.id || a.phase != f.phase || a.status != RUNNING_ATTEMPT ||
       w.activeAttemptId != Some(a.id) || w.runStatus != RUNNING || e.occurredAt < a.startedAt || InvalidPayload(f)
    then None
    else
      var ended := a.(status := f.toStatus, failureClass := f.failureClass, terminationReason := Some(f.terminationReason),
                      endedAt := Some(e.occurredAt));
      var suspended := if f.resultingStatus == BLOCKED || f.resultingStatus == RunStatus.FAILED
        then Some(f.terminationReason) else None;
      var next := Evolve(w, e, f.resultingStatus, None, suspended);
      if AttemptInv(ended) && WorkflowInv(next) then Some((next, ended)) else None
  }

  function ApplyAttemptEvent(w: Workflow, current: Option<Attempt>, e: AttemptEvent): Option<(Workflow, Attempt)> {
    if !WorkflowInv(w) || e.workflowId != w.id || e.fromVersion != w.version || NextVersion(w.version) != Some(e.toVersion) ||
       e.occurredAt < w.updatedAt || !Authority(w, current)
    then None
    else
      match e.change
      case Started(a) =>  // an Attempt of the type of running ones
        var next := Evolve(w, e, RUNNING, Some(a.id), None);
        if !AttemptInv(a) || current.Some? || w.activeAttemptId.Some? || w.runStatus != READY || a.workflowId != w.id ||
           a.phase != w.phase || a.startedAt != e.occurredAt || a.status != RUNNING_ATTEMPT || !WorkflowInv(next)
        then None
        else Some((next, a))
      case Finished(_, _, _, _, _, _) => if current.None? then None else ApplyFinish(w, current.value, e)
  }

  // The cancellation of a Workflow together with its active Attempt.
  function ApplyCancellation(w: Workflow, current: Option<Attempt>, e: WorkflowEvent): Option<(Workflow, Option<Attempt>)>
    requires e.effect.Cancelled?
  {
    var next := ApplyWorkflowEvent(w, e);
    if next.None? || !Authority(w, current) then None
    else if e.effect.interruptedAttemptId.None? then
      if current.Some? then None else Some((next.value, None))
    else if current.None? then None
    else
      var a := current.value;
      var ended := a.(status := INTERRUPTED, terminationReason := Some(Encode(WORKFLOW_CANCELLED, e.reason)),
                      endedAt := Some(e.occurredAt));
      if Some(a.id) != e.effect.interruptedAttemptId || a.workflowId != w.id || a.phase != w.phase ||
         a.status != RUNNING_ATTEMPT || e.occurredAt < a.startedAt || !AttemptInv(ended)
      then None
      else Some((next.value, Some(ended)))
  }

  // ---- Deciding implies applying, and endings are authorized ----

  ghost predicate Applies(w: Workflow, current: Option<Attempt>, e: AttemptEvent) {
    var next := ApplyAttemptEvent(w, current, e);
    next.Some? && WorkflowInv(next.value.0) && AttemptInv(next.value.1) && next.value.0.version == w.version + 1
  }

  lemma {:induction false} BeginApplies(w: Workflow, current: Option<Attempt>, c: AttemptCommand)
    requires c.request.Begin? && DecideAttempt(w, current, c).Accept?
    ensures Applies(w, current, DecideAttempt(w, current, c).event)
  {
  }

  // The termination reason of an accepted command is not blank, and its payload is valid.
  lemma {:induction false} FinishIsValid(w: Workflow, current: Option<Attempt>, c: AttemptCommand)
    requires !c.request.Begin? && DecideFinish(w, current, c).Accept?
    ensures var f := DecideFinish(w, current, c).event;
      && f.Finished? && !AllWhitespace(f.terminationReason) && !InvalidPayload(f) && f.toStatus != RUNNING_ATTEMPT
      && FinishFault(w, current, c).None? && f.attemptId == c.attemptId && f.phase == w.phase
  {
    TrimKeeps(c.request.reason);
    TrimKeeps(Trim(c.request.reason));
    if c.request.Interrupt? { EncodedIsNotBlank(c.request.interruption, Trim(c.request.reason)); }
  }

  lemma {:induction false} EncodedIsNotBlank(r: InterruptionReason, text: Text)
    requires !AllWhitespace(text)
    ensures !AllWhitespace(Encode(r, text)) && Trim(Encode(r, text)) != []
  {
    var prefix := ReasonName(r) + Ascii(":");
    var i :| 0 <= i < |text| && !IsWhitespace(text[i]);
    assert Encode(r, text)[|prefix| + i] == text[i];
    TrimKeeps(Encode(r, text));
  }

  // An event that ends the active Attempt with a valid payload.
  ghost predicate EndsActive(w: Workflow, current: Option<Attempt>, e: AttemptEvent) {
    && Authority(w, current) && current.Some? && w.runStatus == RUNNING && e.workflowId == w.id && e.fromVersion == w.version
    && NextVersion(w.version) == Some(e.toVersion) && w.updatedAt <= e.occurredAt && current.value.startedAt <= e.occurredAt
    && e.change.Finished? && e.change.attemptId == current.value.id && e.change.phase == w.phase
    && !AllWhitespace(e.change.terminationReason) && !InvalidPayload(e.change)
  }

  // The event goes with the Workflow as it is, whatever the change.
  predicate InTurn(w: Workflow, current: Option<Attempt>, e: AttemptEvent) {
    && WorkflowInv(w) && (current.Some? ==> AttemptInv(current.value)) && e.workflowId == w.id && e.fromVersion == w.version
    && !IsTerminal(w) && w.updatedAt <= e.occurredAt && NextVersion(w.version) == Some(e.toVersion)
  }

  lemma {:induction false} DecidedInTurn(w: Workflow, current: Option<Attempt>, c: AttemptCommand)
    requires !c.request.Begin? && DecideAttempt(w, current, c).Accept?
    ensures var e := DecideAttempt(w, current, c).event;
      && InTurn(w, current, e) && DecideFinish(w, current, c) == Accept(e.change) && e.occurredAt == c.occurredAt
  {
  }

  lemma {:induction false} EndsInTurn(w: Workflow, current: Option<Attempt>, c: AttemptCommand, e: AttemptEvent)
    requires InTurn(w, current, e) && FinishFault(w, current, c).None? && e.occurredAt == c.occurredAt
    requires e.change.Finished? && e.change.attemptId == c.attemptId && e.change.phase == w.phase
    requires !AllWhitespace(e.change.terminationReason) && !InvalidPayload(e.change)
    ensures EndsActive(w, current, e)
  {
  }

  lemma {:induction false} FinishEndsActive(w: Workflow, current: Option<Attempt>, c: AttemptCommand)
    requires !c.request.Begin? && DecideAttempt(w, current, c).Accept?
    ensures EndsActive(w, current, DecideAttempt(w, current, c).event)
  {
    DecidedInTurn(w, current, c);
    FinishIsValid(w, current, c);
    EndsInTurn(w, current, c, DecideAttempt(w, current, c).event);
  }

  lemma {:induction false} EndingApplies(w: Workflow, current: Option<Attempt>, e: AttemptEvent)
    requires EndsActive(w, current, e)
    ensures Applies(w, current, e)
  {
  }

  // Every accepted command gives an event that applies, to valid records at the next version.
  lemma {:induction false} AttemptDecisionsApply(w: Workflow, current: Option<Attempt>, c: AttemptCommand)
    requires DecideAttempt(w, current, c).Accept?
    ensures Applies(w, current, DecideAttempt(w, current, c).event)
  {
    if c.request.Begin? {
      BeginApplies(w, current, c);
    } else {
      FinishEndsActive(w, current, c);
      EndingApplies(w, current, DecideAttempt(w, current, c).event);
    }
  }

  // An accepted cancellation of a Workflow that forms one exact authority with its Attempt applies to
  // both, exactly when it does not come before the start of the Attempt.
  lemma {:induction false} CancellationsApply(w: Workflow, current: Option<Attempt>, c: WorkflowCommand)
    requires c.request.Cancel? && DecideWorkflow(w, c).Accept? && Authority(w, current)
    ensures ApplyCancellation(w, current, DecideWorkflow(w, c).event).Some? <==>
      (current.Some? ==> current.value.startedAt <= c.occurredAt)
  {
    WorkflowDecisionsApply(w, c);
    TrimKeeps(c.reason);
    DecodeEncode(WORKFLOW_CANCELLED, Trim(c.reason));
  }

  predicate ReasonMatches(a: Attempt, status: RunStatus)
    requires AttemptInv(a)
  {
    a.status == INTERRUPTED ==> (Decode(a.terminationReason.value) == Some(WORKFLOW_CANCELLED) <==> status == CANCELLED)
  }

  // However an Attempt ends, the Workflow status after it is authorized, and an interruption says
  // WORKFLOW_CANCELLED exactly when the Workflow became CANCELLED.
  lemma {:induction false} FinishIsAuthorized(w: Workflow, current: Option<Attempt>, e: AttemptEvent)
    requires e.change.Finished? && ApplyAttemptEvent(w, current, e).Some?
    ensures var (next, ended) := ApplyAttemptEvent(w, current, e).value;
      AttemptInv(ended) && EndingAuthorized(ended, next.runStatus) && ReasonMatches(ended, next.runStatus)
  {
  }

  lemma {:induction false} CancellationIsAuthorized(w: Workflow, current: Option<Attempt>, e: WorkflowEvent)
    requires e.effect.Cancelled? && ApplyCancellation(w, current, e).Some? && current.Some?
    ensures var (next, ended) := ApplyCancellation(w, current, e).value;
      ended.Some? && AttemptInv(ended.value) && EndingAuthorized(ended.value, next.runStatus) &&
      ReasonMatches(ended.value, next.runStatus)
  {
    TrimKeeps(e.reason);
    DecodeEncode(WORKFLOW_CANCELLED, e.reason);
  }

  // ---- Nothing applies that would not have been accepted ----

  // What follows the prefix of an interruption reason; nothing without a reason.
  function Carried(terminationReason: Text): Text {
    match Decode(terminationReason)
    case Some(r) => terminationReason[|ReasonName(r) + Ascii(":")|..]
    case None => []
  }

  lemma {:induction false} CarriedIs(terminationReason: Text)
    requires Decode(terminationReason).Some?
    ensures var r := Decode(terminationReason).value;
      Encode(r, Carried(terminationReason)) == terminationReason && !AllWhitespace(Carried(terminationReason))
  {
    TrimKeeps(Carried(terminationReason));
  }

  // The command whose event this is; of an event that no command has, one that is refused or has another.
  function AttemptRequestOf(change: AttemptChange): AttemptRequest {
    match change
    case Started(a) => Begin(a.sequence, a.contextManifestId, a.workerSession)
    case Finished(_, _, toStatus, resulting, failure, reason) =>
      match toStatus
      case FAILED_ATTEMPT => RecordFailure(if failure.Some? then failure.value else UNKNOWN_FAILURE, reason)
      case INTERRUPTED =>
        var r := Decode(reason);
        Interrupt(if r.Some? then r.value else USER_REQUEST, resulting, Carried(reason))
      case _ => RecordResult(reason)
  }

  function AttemptCommandOf(e: AttemptEvent): AttemptCommand {
    AttemptCommand(e.commandId, e.workflowId, e.fromVersion, e.occurredAt,
      if e.change.Started? then e.change.attempt.id else e.change.attemptId, AttemptRequestOf(e.change))
  }

  // The event as it is decided: with its reason trimmed, behind the prefix of an interruption.
  function NormalizedEnding(change: AttemptChange): AttemptChange {
    if change.Started? then change
    else if change.toStatus == INTERRUPTED && Decode(change.terminationReason).Some? then
      change.(terminationReason := Encode(Decode(change.terminationReason).value, Trim(Carried(change.terminationReason))))
    else change.(terminationReason := Trim(change.terminationReason))
  }

  lemma {:induction false} StartAppliesExactly(w: Workflow, current: Option<Attempt>, e: AttemptEvent)
    requires e.change.Started?
    ensures ApplyAttemptEvent(w, current, e).Some? <==> DecideAttempt(w, current, AttemptCommandOf(e)) == Accept(e)
  {
  }

  // The reason of an interruption is authorized, and not blank, with or without the blanks around its text.
  lemma {:induction false} InterruptionTrimmed(reason: Text, status: RunStatus)
    requires Decode(reason).Some?
    ensures Decode(Encode(Decode(reason).value, Trim(Carried(reason)))) == Decode(reason)
    ensures Trim(Carried(reason)) != [] && Trim(reason) != []
  {
    CarriedIs(reason);
    TrimKeeps(Carried(reason));
    DecodeEncode(Decode(reason).value, Trim(Carried(reason)));
    EncodedIsNotBlank(Decode(reason).value, Carried(reason));
  }

  // A payload is valid exactly when the ending it describes is accepted.
  lemma {:induction false} PayloadExactly(w: Workflow, current: Option<Attempt>, c: AttemptCommand, f: AttemptChange)
    requires f.Finished? && c.request == AttemptRequestOf(f) && FinishFault(w, current, c).None?
    requires c.attemptId == f.attemptId && w.phase == f.phase
    ensures DecideFinish(w, current, c) == Accept(NormalizedEnding(f)) <==> !InvalidPayload(f)
  {
    TrimKeeps(f.terminationReason);
    if f.toStatus == INTERRUPTED && Decode(f.terminationReason).Some? { InterruptionTrimmed(f.terminationReason, f.resultingStatus); }
  }

  lemma {:induction false} EndsExactly(w: Workflow, current: Option<Attempt>, e: AttemptEvent)
    ensures e.change.Finished? && ApplyAttemptEvent(w, current, e).Some? <==> EndsActive(w, current, e)
  {
    if EndsActive(w, current, e) {
      EndingApplies(w, current, e);
    } else if e.change.Finished? && ApplyAttemptEvent(w, current, e).Some? {
      AppliedWasActive(w, current, e);
    }
  }

  lemma {:induction false} AppliedWasActive(w: Workflow, current: Option<Attempt>, e: AttemptEvent)
    requires e.change.Finished? && ApplyAttemptEvent(w, current, e).Some?
    ensures EndsActive(w, current, e)
  {
    TrimKeeps(e.change.terminationReason);
  }

  lemma {:induction false} DecidesInTurn(w: Workflow, current: Option<Attempt>, e: AttemptEvent, change: AttemptChange)
    requires e.change.Finished?
    ensures var c := AttemptCommandOf(e);
      DecideAttempt(w, current, c) == Accept(e.(change := change)) <==>
        InTurn(w, current, e) && DecideFinish(w, current, c) == Accept(change)
  {
  }

  lemma {:induction false} ActiveInTurn(w: Workflow, current: Option<Attempt>, e: AttemptEvent)
    requires EndsActive(w, current, e)
    ensures InTurn(w, current, e) && FinishFault(w, current, AttemptCommandOf(e)).None? && w.phase == e.change.phase
  {
  }

  lemma {:induction false} FinishAppliesExactly(w: Workflow, current: Option<Attempt>, e: AttemptEvent)
    requires e.change.Finished?
    ensures ApplyAttemptEvent(w, current, e).Some? <==>
      DecideAttempt(w, current, AttemptCommandOf(e)) == Accept(e.(change := NormalizedEnding(e.change)))
  {
    var c := AttemptCommandOf(e);
    EndsExactly(w, current, e);
    DecidesInTurn(w, current, e, NormalizedEnding(e.change));
    if EndsActive(w, current, e) {
      ActiveInTurn(w, current, e);
      PayloadExactly(w, current, c, e.change);
    } else if InTurn(w, current, e) && DecideFinish(w, current, c) == Accept(NormalizedEnding(e.change)) {
      DecidesItsPhase(w, current, c, e.change);
      PayloadExactly(w, current, c, e.change);
      TrimKeeps(e.change.terminationReason);
      EndsInTurn(w, current, c, e);
    }
  }

  lemma {:induction false} DecidesItsPhase(w: Workflow, current: Option<Attempt>, c: AttemptCommand, f: AttemptChange)
    requires f.Finished? && !c.request.Begin?
    ensures DecideFinish(w, current, c) == Accept(NormalizedEnding(f)) ==>
      FinishFault(w, current, c).None? && w.phase == f.phase
  {
  }

  // An event applies exactly when deciding on its command gives that very event.
  lemma {:induction false} AttemptAppliesExactly(w: Workflow, current: Option<Attempt>, e: AttemptEvent)
    ensures ApplyAttemptEvent(w, current, e).Some? <==>
      DecideAttempt(w, current, AttemptCommandOf(e)) == Accept(e.(change := NormalizedEnding(e.change)))
  {
    if e.change.Started? { StartAppliesExactly(w, current, e); } else { FinishAppliesExactly(w, current, e); }
  }
}
