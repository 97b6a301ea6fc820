// packages/domain/src/recovery.ts: reconciliation records, and the recovery of a blocked Workflow to
// the same or an earlier phase.
module Recovery {
  import opened Options
  import opened CodeUnits
  import opened Sequences
  import opened Workflow

  datatype Purpose = STARTUP | RESUME

  datatype Disposition = SAFE_SAME_PHASE | SAFE_EARLIER_PHASE | STAY_BLOCKED

  datatype ReasonCode =
    | EXACT_AUTHORITY_MATCH | INSPECTION_UNAVAILABLE | INSPECTOR_FAILURE | PROFILE_BINDING_MISSING
    | PROFILE_BINDING_MISMATCH | SOURCE_ATTEMPT_NOT_RECOVERABLE | PROJECT_IDENTITY_MISMATCH
    | CANDIDATE_AUTHORITY_MISSING | CANDIDATE_GENERATION_MISMATCH | CANDIDATE_BASE_IDENTITY_MISMATCH
    | CANDIDATE_DIGEST_MISMATCH | LOCAL_COMMAND_VERIFICATION_SESSION_UNAVAILABLE | UNSUPPORTED_RECOVERY_PHASE

  function CodeName(code: ReasonCode): Text {
    match code
    case EXACT_AUTHORITY_MATCH => Ascii("EXACT_AUTHORITY_MATCH")
    case INSPECTION_UNAVAILABLE => Ascii("INSPECTION_UNAVAILABLE")
    case INSPECTOR_FAILURE => Ascii("INSPECTOR_FAILURE")
    case PROFILE_BINDING_MISSING => Ascii("PROFILE_BINDING_MISSING")
    case PROFILE_BINDING_MISMATCH => Ascii("PROFILE_BINDING_MISMATCH")
    case SOURCE_ATTEMPT_NOT_RECOVERABLE => Ascii("SOURCE_ATTEMPT_NOT_RECOVERABLE")
    case PROJECT_IDENTITY_MISMATCH => Ascii("PROJECT_IDENTITY_MISMATCH")
    case CANDIDATE_AUTHORITY_MISSING => Ascii("CANDIDATE_AUTHORITY_MISSING")
    case CANDIDATE_GENERATION_MISMATCH => Ascii("CANDIDATE_GENERATION_MISMATCH")
    case CANDIDATE_BASE_IDENTITY_MISMATCH => Ascii("CANDIDATE_BASE_IDENTITY_MISMATCH")
    case CANDIDATE_DIGEST_MISMATCH => Ascii("CANDIDATE_DIGEST_MISMATCH")
    case LOCAL_COMMAND_VERIFICATION_SESSION_UNAVAILABLE => Ascii("LOCAL_COMMAND_VERIFICATION_SESSION_UNAVAILABLE")
    case UNSUPPORTED_RECOVERY_PHASE => Ascii("UNSUPPORTED_RECOVERY_PHASE")
  }

  // Digests are opaque numbers.
  datatype Record = Record(
    id: Id,
    goalId: Id,
    goalRevision: nat,
    workflowId: Id,
    phase: Phase,
    inspectedVersion: nat,
    resultingVersion: nat,
    sourceAttemptId: Option<Id>,
    dispatchClaimDigest: Option<nat>,
    lastAuditSequence: int,
    expectedProjectIdentity: Text,
    observedProjectIdentity: Option<Text>,
    candidateGenerationId: Option<Id>,
    candidateBaseIdentity: Option<Text>,
    expectedCandidateDigest: Option<nat>,
    observedCandidateDigest: Option<nat>,
    executionProfileId: Id,
    executionProfileDigest: nat,
    purpose: Purpose,
    disposition: Disposition,
    safeResumePhase: Option<Phase>,
    reasonCode: ReasonCode,
    observationRefs: seq<Text>,
    inspectorVersion: Text,
    recoveryPolicyVersion: Text,
    inspectedAt: int,
    digest: nat)

  function PhaseIndex(phase: Phase): nat {
    match phase
    case DISCOVERY => 0
    case PLAN => 1
    case IMPLEMENT => 2
    case SOURCE_FREEZE => 3
    case EVIDENCE_BUILD => 4
    case FINAL_VERIFY => 5
    case CLOSEOUT => 6
  }

  predicate DispositionFits(r: Record) {
    && (match r.disposition {
          case STAY_BLOCKED => r.safeResumePhase.None? && r.reasonCode != EXACT_AUTHORITY_MATCH
          case SAFE_SAME_PHASE => r.safeResumePhase == Some(r.phase) && r.reasonCode == EXACT_AUTHORITY_MATCH
          case SAFE_EARLIER_PHASE =>
            r.safeResumePhase.Some? && PhaseIndex(r.safeResumePhase.value) < PhaseIndex(r.phase) &&
            r.reasonCode == EXACT_AUTHORITY_MATCH
        })
    && (r.disposition != STAY_BLOCKED ==>
         && r.observedProjectIdentity == Some(r.expectedProjectIdentity)
         && (r.expectedCandidateDigest.Some? ==> r.observedCandidateDigest == r.expectedCandidateDigest))
  }

  // The expected authority over a Candidate is complete or absent.
  predicate CandidateFits(r: Record) {
    && r.candidateGenerationId.Some? == r.candidateBaseIdentity.Some? == r.expectedCandidateDigest.Some?
    && (r.candidateGenerationId.None? ==> r.observedCandidateDigest.None?)
    && (r.candidateBaseIdentity.Some? ==> !AllWhitespace(r.candidateBaseIdentity.value))
  }

  predicate FieldsFit(r: Record) {
    && IsVersion(r.goalRevision) && IsVersion(r.inspectedVersion) && NextVersion(r.inspectedVersion) == Some(r.resultingVersion)
    && (r.sourceAttemptId.None? ==> r.dispatchClaimDigest.None?)
    && IsVersion(r.lastAuditSequence)
    && !AllWhitespace(r.expectedProjectIdentity)
    && (r.observedProjectIdentity.Some? ==> !AllWhitespace(r.observedProjectIdentity.value))
    && CandidateFits(r)
    && DispositionFits(r)
  }

  predicate RecordInv(r: Record) {
    && FieldsFit(r)
    && r.observationRefs != [] && Distinct(r.observationRefs)
    && (forall i | 0 <= i < |r.observationRefs| :: !AllWhitespace(r.observationRefs[i]))
    && !AllWhitespace(r.inspectorVersion) && !AllWhitespace(r.recoveryPolicyVersion)
  }

  // `assertRecoveryReconciliationInvariant`: false where it throws.
  method AssertRecord(r: Record) returns (ok: bool)
    ensures ok == RecordInv(r)
  {
    if !FieldsFit(r) { return false; }
    if |r.observationRefs| == 0 { return false; }
    var refs: set<Text> := {};
    var i := 0;
    while i < |r.observationRefs|
      invariant i <= |r.observationRefs|
      invariant refs == set j | 0 <= j < i :: r.observationRefs[j]
      invariant Distinct(r.observationRefs[..i])
      invariant forall j | 0 <= j < i :: !AllWhitespace(r.observationRefs[j])
    {
      var ref := r.observationRefs[i];
      if AllWhitespace(ref) { return false; }
      if ref in refs { return false; }
      refs := refs + {ref};
      i := i + 1;
    }
    assert r.observationRefs[..i] == r.observationRefs;
    return !AllWhitespace(r.inspectorVersion) && !AllWhitespace(r.recoveryPolicyVersion);
  }

  datatype RecoveryEvent = RecoveryEvent(
    commandId: Id,
    workflowId: Id,
    fromPhase: Phase,
    toPhase: Phase,
    fromVersion: nat,
    toVersion: nat,
    ready: bool,
    reconciliationId: Id,
    reconciliationDigest: nat,
    reason: Text,
    occurredAt: int)

  function Plan(w: Workflow, r: Record, commandId: Id): Option<RecoveryEvent> {
    if !WorkflowInv(w) || !RecordInv(r) || r.purpose != RESUME || w.runStatus != BLOCKED || w.activeAttemptId.Some? ||
       r.goalId != w.goalId || r.goalRevision != w.goalRevision || r.workflowId != w.id || r.phase != w.phase ||
       r.inspectedVersion != w.version || r.inspectedAt < w.updatedAt
    then None
    else
      var safe := r.disposition != STAY_BLOCKED;
      if safe && r.safeResumePhase.None? then None
      else Some(RecoveryEvent(commandId, w.id, w.phase, if safe then r.safeResumePhase.value else w.phase, w.version,
        r.resultingVersion, safe, r.id, r.digest, Ascii("RECOVERY:") + CodeName(r.reasonCode), r.inspectedAt))
  }

  function Apply(w: Workflow, e: RecoveryEvent): Option<Workflow> {
    if !WorkflowInv(w) || w.runStatus != BLOCKED || w.activeAttemptId.Some? || e.workflowId != w.id || e.fromPhase != w.phase ||
       e.fromVersion != w.version || NextVersion(w.version) != Some(e.toVersion) || e.occurredAt < w.updatedAt ||
       Trim(e.reason) == [] || (!e.ready && e.toPhase != w.phase) || (e.ready && PhaseIndex(e.toPhase) > PhaseIndex(w.phase))
    then None
    else Checked(w.(phase := e.toPhase, runStatus := if e.ready then READY else BLOCKED, version := e.toVersion,
                    activeAttemptId := None, suspendedReason := if e.ready then None else Some(e.reason), updatedAt := e.occurredAt))
  }

  lemma {:induction false} ReasonIsNotBlank(code: ReasonCode)
    ensures Trim(Ascii("RECOVERY:") + CodeName(code)) != []
  {
    var reason := Ascii("RECOVERY:") + CodeName(code);
    assert reason[0] == 'R' as int && !IsWhitespace(reason[0]);
    TrimKeeps(reason);
  }

  // Every planned recovery applies, to a valid Workflow at the next version, in the same or an earlier
  // phase, and READY exactly when the record grants it.
  lemma {:induction false} PlansApply(w: Workflow, r: Record, commandId: Id)
    requires Plan(w, r, commandId).Some?
    ensures var next := Apply(w, Plan(w, r, commandId).value);
      && next.Some? && WorkflowInv(next.value) && next.value.version == w.version + 1
      && PhaseIndex(next.value.phase) <= PhaseIndex(w.phase)
      && (next.value.runStatus == READY <==> r.safeResumePhase == Some(next.value.phase))
  {
    ReasonIsNotBlank(r.reasonCode);
    TrimKeeps(Ascii("RECOVERY:") + CodeName(r.reasonCode));
  }
}
