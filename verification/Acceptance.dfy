// packages/runtime/src/acceptance-policy.ts and acceptance-engine.ts, packages/domain/src/acceptance.ts:
// compiling the input of an Acceptance Decision without a protected plan, the eight rules, and the
// aggregation of their outcomes.  Digests are opaque numbers.
module Acceptance {
  import opened Options
  import opened CodeUnits
  import opened Sequences
  import opened Sorting
  import opened EvidencePolicy
  import C = Candidate
  import W = Workflow

  // ---- Records ----

  datatype WorkflowRef = WorkflowRef(
    id: Id, goalId: Id, goalRevision: nat, phase: W.Phase, version: nat, activeCandidateGenerationId: Option<Id>, updatedAt: int)

  datatype ResultStatus = OBSERVED | PASSED | FAILED | RUNNER_ERROR | TIMEOUT

  datatype EvidenceRecord = EvidenceRecord(
    id: Id, kind: EvidenceKind, obligationId: Option<Id>, candidateDigest: nat, resultStatus: ResultStatus, recordDigest: nat, recordedAt: int)

  datatype Eligibility = Eligibility(eligible: bool, version: nat, changedAt: int)

  datatype Evidence = Evidence(record: EvidenceRecord, eligibility: Eligibility)

  datatype Mapping = Mapping(obligationId: Id, evidenceIds: seq<Id>)

  datatype Entry = Entry(evidenceId: Id, recordDigest: nat, eligibilityVersion: nat, eligible: bool)

  datatype EvidenceSet = EvidenceSet(
    goalId: Id,
    goalRevision: nat,
    candidateGenerationId: Id,
    candidateDigest: nat,
    obligationMappings: seq<Mapping>,
    evidenceRefs: seq<Entry>,
    unresolved: seq<Id>,
    digest: nat)

  datatype Repairability = REPAIRABLE | BLOCKED | NEEDS_DECISION

  datatype PendingIssue = PendingIssue(
    id: Id,
    goalId: Id,
    goalRevision: nat,
    candidateGenerationId: Option<Id>,
    blocking: bool,
    repairability: Repairability,
    open: bool,
    createdAt: int,
    resolvedAt: Option<int>)

  datatype Bundle = Bundle(id: Id, digest: nat, acceptanceRules: seq<RuleId>, checkers: seq<Checker>)

  datatype Checker = Checker(id: Text, version: Text, digest: nat)

  datatype Authority = Authority(
    goal: Goal,
    workflow: WorkflowRef,
    generation: GenerationRef,
    freezeCheck: CheckSpec,
    verificationCheck: CheckSpec,
    obligations: seq<Obligation>,
    evidenceSet: EvidenceSet,
    currentEvidence: seq<Evidence>,
    pendingIssues: seq<PendingIssue>,
    retainedFactCount: int,
    retainedDecisionCount: int,
    bundle: Bundle)

  datatype Manifest = Manifest(
    goalId: Id,
    goalRevision: nat,
    workflowId: Id,
    workflowVersion: nat,
    candidateGenerationId: Id,
    candidateDigest: nat,
    evidenceSetDigest: nat,
    policyBundleId: Id,
    policyBundleDigest: nat,
    createdAt: int)

  datatype Input = Input(manifest: Manifest, issues: seq<PendingIssue>, authority: Authority)

  // ---- Rules and outcomes ----

  datatype RuleId =
    | WORKFLOW_FINAL_VERIFY | GOAL_REVISION_CURRENT | CANDIDATE_CURRENT_FROZEN | CANDIDATE_DIGEST_CURRENT
    | REQUIRED_OBLIGATIONS_PRESENT | REQUIRED_EVIDENCE_PASSING | PENDING_ISSUES_CLEAR | MANIFEST_POLICY_CURRENT

  const RULES := [WORKFLOW_FINAL_VERIFY, GOAL_REVISION_CURRENT, CANDIDATE_CURRENT_FROZEN, CANDIDATE_DIGEST_CURRENT,
    REQUIRED_OBLIGATIONS_PRESENT, REQUIRED_EVIDENCE_PASSING, PENDING_ISSUES_CLEAR, MANIFEST_POLICY_CURRENT]

  datatype Outcome = PASS | FAIL_REPAIRABLE | FAIL_BLOCKED | DECISION_NEEDED | NOT_APPLICABLE | ENGINE_ERROR

  datatype Decision = ACCEPT | REJECT_REPAIRABLE | REJECT_BLOCKED | AWAIT_DECISION | ERROR

  datatype Reason =
    | WORKFLOW_FINAL_VERIFY_CURRENT | WORKFLOW_FINAL_VERIFY_STALE | GOAL_CURRENT | GOAL_REVISION_STALE | CANDIDATE_CURRENT
    | CANDIDATE_NOT_CURRENT_FROZEN | DIGEST_CURRENT | CANDIDATE_DIGEST_STALE | OBLIGATIONS_PRESENT
    | REQUIRED_OBLIGATIONS_INCOMPLETE | EVIDENCE_PASSING | REQUIRED_EVIDENCE_FAILED_REPAIRABLE
    | REQUIRED_EVIDENCE_MISSING_OR_STALE | REQUIRED_EVIDENCE_ENGINE_ERROR | NO_BLOCKING_PENDING_ISSUES
    | REPAIRABLE_PENDING_ISSUE | BLOCKING_PENDING_ISSUE | PENDING_ISSUE_ENGINE_ERROR | PENDING_ISSUE_NEEDS_DECISION
    | POLICY_CURRENT | MANIFEST_POLICY_STALE | ALL_APPLICABLE_RULES_PASSED

  datatype RuleResult = RuleResult(ruleId: RuleId, outcome: Outcome, reason: Reason)

  function Priority(o: Outcome): nat {
    match o
    case ENGINE_ERROR => 5
    case FAIL_BLOCKED => 4
    case DECISION_NEEDED => 3
    case FAIL_REPAIRABLE => 2
    case PASS => 1
    case NOT_APPLICABLE => 1
  }

  // The reduction keeps the earlier result of two with equal priority.
  function Dominant(rs: seq<RuleResult>): RuleResult
    requires rs != []
  {
    if |rs| == 1 then rs[0] else
    var d, last := Dominant(rs[..|rs| - 1]), rs[|rs| - 1];
    if Priority(last.outcome) > Priority(d.outcome) then last else d
  }

  function Aggregate(rs: seq<RuleResult>): Option<Decision> {
    if rs == [] then None else
    match Dominant(rs).outcome
    case ENGINE_ERROR => Some(ERROR)
    case FAIL_BLOCKED => Some(REJECT_BLOCKED)
    case DECISION_NEEDED => Some(AWAIT_DECISION)
    case FAIL_REPAIRABLE => Some(REJECT_REPAIRABLE)
    case _ => if exists i | 0 <= i < |rs| :: rs[i].outcome == PASS then Some(ACCEPT) else None
  }

  // The first result of the given priority.
  function FirstWith(rs: seq<RuleResult>, priority: nat): Option<RuleResult> {
    if rs == [] then None
    else if Priority(rs[0].outcome) == priority then Some(rs[0])
    else FirstWith(rs[1..], priority)
  }

  function DominantReason(rs: seq<RuleResult>): Option<Reason> {
    var decision := Aggregate(rs);
    if decision.None? then None
    else if decision == Some(ACCEPT) then Some(ALL_APPLICABLE_RULES_PASSED)
    else
      var first := FirstWith(rs, Priority(Dominant(rs).outcome));
      if first.None? then None else Some(first.value.reason)
  }

  lemma {:induction false} DominantIs(rs: seq<RuleResult>)
    requires rs != []
    ensures Dominant(rs) in rs && forall r | r in rs :: Priority(r.outcome) <= Priority(Dominant(rs).outcome)
    ensures FirstWith(rs, Priority(Dominant(rs).outcome)) == Some(Dominant(rs))
    decreases |rs|
  {
    if |rs| > 1 {
      var front, last := rs[..|rs| - 1], rs[|rs| - 1];
      DominantIs(front);
      assert rs == front + [last];
      FirstWithAppend(front, last, Priority(Dominant(rs).outcome));
      if Priority(last.outcome) > Priority(Dominant(front).outcome) { NoneWith(front, Priority(last.outcome)); }
    }
  }

  lemma {:induction false} FirstWithAppend(rs: seq<RuleResult>, last: RuleResult, priority: nat)
    ensures FirstWith(rs + [last], priority) ==
      if FirstWith(rs, priority).Some? then FirstWith(rs, priority)
      else if Priority(last.outcome) == priority then Some(last) else None
  {
    if rs != [] {
      assert (rs + [last])[1..] == rs[1..] + [last];
      FirstWithAppend(rs[1..], last, priority);
    } else {
      assert rs + [last] == [last];
    }
  }

  lemma {:induction false} NoneWith(rs: seq<RuleResult>, priority: nat)
    requires forall r | r in rs :: Priority(r.outcome) != priority
    ensures FirstWith(rs, priority).None?
  {
    if rs != [] { NoneWith(rs[1..], priority); }
  }

  // The aggregate does not depend on the order of the rules; the reason is the one of the first
  // dominant rule.
  lemma {:induction false} AggregateForgetsOrder(a: seq<RuleResult>, b: seq<RuleResult>)
    requires multiset(a) == multiset(b)
    ensures Aggregate(a) == Aggregate(b)
  {
    assert |a| == |multiset(a)| == |multiset(b)| == |b|;
    if a != [] {
      DominantIs(a);
      DominantIs(b);
      SameMembers(a, b, Dominant(a));
      SameMembers(a, b, Dominant(b));
      if i :| 0 <= i < |a| && a[i].outcome == PASS {
        SameMembers(a, b, a[i]);
        var j :| 0 <= j < |b| && b[j] == a[i];
      }
      if j :| 0 <= j < |b| && b[j].outcome == PASS {
        SameMembers(a, b, b[j]);
        var i :| 0 <= i < |a| && a[i] == b[j];
      }
    }
  }

  // ---- Compiling the input ----

  function ExpectedChecker(checkerDigest: nat): Checker {
    Checker(Ascii("codeclosure.m1.acceptance"), Ascii("m1.1"), checkerDigest)
  }

  predicate BundleIsExact(b: Bundle, checkerDigest: nat) {
    b.acceptanceRules == RULES && b.checkers == [ExpectedChecker(checkerDigest)]
  }

  function IssueId(i: PendingIssue): Text { i.id }

  function BuildIssueSet(goal: Goal, issues: seq<PendingIssue>): Option<seq<PendingIssue>> {
    var sorted := SortBy(issues, IssueId);
    if (exists i | 0 <= i < |issues| :: issues[i].goalId != goal.id || issues[i].goalRevision != goal.revision) ||
       (exists k | 0 < k < |sorted| :: !Less(sorted[k - 1].id, sorted[k].id))
    then None else Some(sorted)
  }

  predicate Predates(a: Authority, createdAt: int) {
    || createdAt < a.workflow.updatedAt || createdAt < a.generation.updatedAt
    || (exists k | 0 <= k < |a.obligations| :: createdAt < a.obligations[k].createdAt)
    || (exists k | 0 <= k < |a.currentEvidence| ::
         createdAt < a.currentEvidence[k].record.recordedAt || createdAt < a.currentEvidence[k].eligibility.changedAt)
    || (exists k | 0 <= k < |a.pendingIssues| ::
         createdAt < a.pendingIssues[k].createdAt ||
         (a.pendingIssues[k].resolvedAt.Some? && createdAt < a.pendingIssues[k].resolvedAt.value))
  }

  predicate DescribesFinalVerify(a: Authority) {
    && a.workflow.goalId == a.goal.id && a.workflow.goalRevision == a.goal.revision
    && a.workflow.phase == W.FINAL_VERIFY && a.workflow.activeCandidateGenerationId == Some(a.generation.id)
    && a.generation.state == C.FROZEN && a.generation.frozenDigest.Some?
    && a.evidenceSet.goalId == a.goal.id && a.evidenceSet.goalRevision == a.goal.revision
    && a.evidenceSet.candidateGenerationId == a.generation.id
    && Some(a.evidenceSet.candidateDigest) == a.generation.frozenDigest
  }

  function PolicyOf(a: Authority): Option<Policy> {
    var policy := Policy(a.freezeCheck, a.verificationCheck, a.obligations);
    if a.verificationCheck.kind != LOCAL_COMMAND then ValidatePolicy(a.goal, a.generation, policy, a.generation.createdAt)
    else if a.obligations == [] then None
    else ValidatePolicy(a.goal, a.generation, policy, a.obligations[0].createdAt)
  }

  // verified: whether the evidence set passes the verification of evidence-factory.ts, which is not
  // part of this model.
  function Compile(a: Authority, createdAt: int, checkerDigest: nat, verified: bool): Option<Input> {
    if a.retainedFactCount != 0 || a.retainedDecisionCount != 0 || Predates(a, createdAt) || !DescribesFinalVerify(a) then None
    else
      var policy, issues := PolicyOf(a), BuildIssueSet(a.goal, a.pendingIssues);
      if policy.None? || !verified || !BundleIsExact(a.bundle, checkerDigest) || issues.None? then None
      else
        var manifest := Manifest(a.goal.id, a.goal.revision, a.workflow.id, a.workflow.version, a.generation.id,
          a.generation.frozenDigest.value, a.evidenceSet.digest, a.bundle.id, a.bundle.digest, createdAt);
        Some(Input(manifest, issues.value, a.(obligations := policy.value.obligations)))
  }

  // ---- The evidence rule ----

  // The Map from record ids keeps the last entry.
  function Lookup(current: seq<Evidence>, id: Id): Option<Evidence> {
    if current == [] then None
    else if current[|current| - 1].record.id == id then Some(current[|current| - 1])
    else Lookup(current[..|current| - 1], id)
  }

  predicate IsSelected(current: seq<Evidence>, entry: Entry) {
    var e := Lookup(current, entry.evidenceId);
    && e.Some? && e.value.record.recordDigest == entry.recordDigest
    && e.value.eligibility.version == entry.eligibilityVersion && e.value.eligibility.eligible == entry.eligible
    && e.value.eligibility.eligible
  }

  function FindMapping(mappings: seq<Mapping>, obligationId: Id): Option<Mapping> {
    if mappings == [] then None
    else if mappings[0].obligationId == obligationId then Some(mappings[0])
    else FindMapping(mappings[1..], obligationId)
  }

  function StatusOf(i: Input, o: Obligation, id: Id): Option<ResultStatus> {
    var e := Lookup(i.authority.currentEvidence, id);
    if e.None? || !e.value.eligibility.eligible || e.value.record.kind != o.requiredEvidenceKind ||
       e.value.record.obligationId != Some(o.id) || e.value.record.candidateDigest != i.manifest.candidateDigest
    then None else Some(e.value.record.resultStatus)
  }

  function StatusesOf(i: Input, o: Obligation): seq<Option<ResultStatus>> {
    var m := FindMapping(i.authority.evidenceSet.obligationMappings, o.id);
    if m.None? || m.value.evidenceIds == [] then [None]
    else seq(|m.value.evidenceIds|, k requires 0 <= k < |m.value.evidenceIds| => StatusOf(i, o, m.value.evidenceIds[k]))
  }

  function Statuses(i: Input, os: seq<Obligation>): seq<Option<ResultStatus>> {
    if os == [] then [] else StatusesOf(i, os[0]) + Statuses(i, os[1..])
  }

  function EvidenceOutcome(i: Input): Outcome {
    var refs, results := i.authority.evidenceSet.evidenceRefs, Statuses(i, i.authority.obligations);
    if refs == [] || exists k | 0 <= k < |refs| :: !IsSelected(i.authority.currentEvidence, refs[k]) then FAIL_BLOCKED
    else if None in results then FAIL_BLOCKED
    else if Some(RUNNER_ERROR) in results || Some(TIMEOUT) in results then ENGINE_ERROR
    else if Some(ResultStatus.FAILED) in results then FAIL_REPAIRABLE
    else if forall k | 0 <= k < |results| :: results[k] == Some(PASSED) then PASS
    else FAIL_BLOCKED
  }

  // ---- The issue rule ----

  predicate Blocks(i: PendingIssue, candidateGenerationId: Id) {
    i.open && i.blocking && (i.candidateGenerationId.None? || i.candidateGenerationId == Some(candidateGenerationId))
  }

  function Blocking(issues: seq<PendingIssue>, candidateGenerationId: Id): seq<PendingIssue> {
    if issues == [] then []
    else (if Blocks(issues[0], candidateGenerationId) then [issues[0]] else []) + Blocking(issues[1..], candidateGenerationId)
  }

  function IssueOutcome(blocking: seq<PendingIssue>): Outcome {
    if blocking == [] then PASS
    else if exists k | 0 <= k < |blocking| :: blocking[k].repairability == BLOCKED then FAIL_BLOCKED
    else if exists k | 0 <= k < |blocking| :: blocking[k].repairability == NEEDS_DECISION then DECISION_NEEDED
    else FAIL_REPAIRABLE
  }

  // ---- The engine ----

  function Rule(id: RuleId, passes: bool, current: Reason, stale: Reason): RuleResult {
    if passes then RuleResult(id, PASS, current) else RuleResult(id, FAIL_BLOCKED, stale)
  }

  function EvidenceReason(o: Outcome): Reason {
    match o
    case PASS => EVIDENCE_PASSING
    case FAIL_REPAIRABLE => REQUIRED_EVIDENCE_FAILED_REPAIRABLE
    case ENGINE_ERROR => REQUIRED_EVIDENCE_ENGINE_ERROR
    case _ => REQUIRED_EVIDENCE_MISSING_OR_STALE
  }

  function IssueReason(o: Outcome): Reason {
    match o
    case PASS => NO_BLOCKING_PENDING_ISSUES
    case FAIL_REPAIRABLE => REPAIRABLE_PENDING_ISSUE
    case ENGINE_ERROR => PENDING_ISSUE_ENGINE_ERROR
    case DECISION_NEEDED => PENDING_ISSUE_NEEDS_DECISION
    case _ => BLOCKING_PENDING_ISSUE
  }

  function MappedCriteria(os: seq<Obligation>): seq<Id> {
    if os == [] then []
    else (if |os[0].sourceCriterionRefs| == 1 then os[0].sourceCriterionRefs else []) + MappedCriteria(os[1..])
  }

  predicate ObligationsPass(a: Authority) {
    var required, mapped := Required(a.goal.successCriteria), MappedCriteria(a.obligations);
    && required != [] && |a.obligations| == |required|
    && forall k | 0 <= k < |required| :: k < |mapped| && mapped[k] == required[k]
  }

  function EvaluateRules(i: Input, checkerDigest: nat): seq<RuleResult> {
    var a, m := i.authority, i.manifest;
    var evidence, issues := EvidenceOutcome(i), IssueOutcome(Blocking(i.issues, m.candidateGenerationId));
    [ Rule(WORKFLOW_FINAL_VERIFY,
        a.workflow.phase == W.FINAL_VERIFY && a.workflow.version == m.workflowVersion && a.workflow.id == m.workflowId,
        WORKFLOW_FINAL_VERIFY_CURRENT, WORKFLOW_FINAL_VERIFY_STALE),
      Rule(GOAL_REVISION_CURRENT,
        a.goal.id == m.goalId && a.goal.revision == m.goalRevision && a.workflow.goalRevision == m.goalRevision,
        GOAL_CURRENT, GOAL_REVISION_STALE),
      Rule(CANDIDATE_CURRENT_FROZEN,
        a.workflow.activeCandidateGenerationId == Some(a.generation.id) && a.generation.id == m.candidateGenerationId &&
        a.generation.state == C.FROZEN,
        CANDIDATE_CURRENT, CANDIDATE_NOT_CURRENT_FROZEN),
      Rule(CANDIDATE_DIGEST_CURRENT,
        a.generation.frozenDigest == Some(m.candidateDigest) && a.evidenceSet.candidateDigest == m.candidateDigest,
        DIGEST_CURRENT, CANDIDATE_DIGEST_STALE),
      Rule(REQUIRED_OBLIGATIONS_PRESENT, ObligationsPass(a), OBLIGATIONS_PRESENT, REQUIRED_OBLIGATIONS_INCOMPLETE),
      RuleResult(REQUIRED_EVIDENCE_PASSING, evidence, EvidenceReason(evidence)),
      RuleResult(PENDING_ISSUES_CLEAR, issues, IssueReason(issues)),
      Rule(MANIFEST_POLICY_CURRENT,
        m.policyBundleId == a.bundle.id && m.policyBundleDigest == a.bundle.digest && BundleIsExact(a.bundle, checkerDigest),
        POLICY_CURRENT, MANIFEST_POLICY_STALE) ]
  }

  // The decision with its dominant reason, or None when the bundle is not exact.
  function IssueDecision(i: Input, checkerDigest: nat): Option<(Decision, Reason)> {
    var results := EvaluateRules(i, checkerDigest);
    if !BundleIsExact(i.authority.bundle, checkerDigest) || Aggregate(results).None? || DominantReason(results).None? then None
    else Some((Aggregate(results).value, DominantReason(results).value))
  }

  // ---- What a decision on a compiled input means ----

  lemma {:induction false} MappedIsRequired(os: seq<Obligation>, required: seq<Id>)
    requires |os| == |required| && forall k | 0 <= k < |os| :: os[k].sourceCriterionRefs == [required[k]]
    ensures MappedCriteria(os) == required
    decreases |os|
  {
    if os != [] {
      MappedIsRequired(os[1..], required[1..]);
      assert required == [required[0]] + required[1..];
    }
  }

  lemma {:induction false} PolicyIsInOrder(a: Authority)
    requires PolicyOf(a).Some?
    ensures ObligationsPass(a.(obligations := PolicyOf(a).value.obligations))
  {
    var v := a.verificationCheck;
    var createdAt := if v.kind == LOCAL_COMMAND then a.obligations[0].createdAt else a.generation.createdAt;
    var family := if v.kind == LOCAL_COMMAND then LocalFamily(a.goal, a.generation, v, createdAt)
      else M1Family(a.goal, a.generation, v, createdAt);
    ValidatedIsInOrder(a.goal, family, a.obligations);
    MappedIsRequired(PolicyOf(a).value.obligations, Required(a.goal.successCriteria));
  }

  // What compiling has checked.
  ghost predicate Consistent(i: Input, checkerDigest: nat) {
    var a, m := i.authority, i.manifest;
    && DescribesFinalVerify(a) && ObligationsPass(a) && BundleIsExact(a.bundle, checkerDigest)
    && m.goalId == a.goal.id && m.goalRevision == a.goal.revision
    && m.workflowId == a.workflow.id && m.workflowVersion == a.workflow.version
    && m.candidateGenerationId == a.generation.id && Some(m.candidateDigest) == a.generation.frozenDigest
    && m.policyBundleId == a.bundle.id && m.policyBundleDigest == a.bundle.digest
  }

  lemma {:induction false} CompiledIsConsistent(a: Authority, createdAt: int, checkerDigest: nat, verified: bool)
    requires Compile(a, createdAt, checkerDigest, verified).Some?
    ensures Consistent(Compile(a, createdAt, checkerDigest, verified).value, checkerDigest)
  {
    PolicyIsInOrder(a);
  }

  // On a compiled input, all the rules pass but those on evidence and on issues.
  lemma {:induction false} SixRulesPass(i: Input, checkerDigest: nat)
    requires Consistent(i, checkerDigest)
    ensures var results := EvaluateRules(i, checkerDigest);
      |results| == 8 && forall k | 0 <= k < 8 && k != 5 && k != 6 :: results[k].outcome == PASS
  {
  }

  function MoreSevere(a: Outcome, b: Outcome): Outcome { if Priority(b) > Priority(a) then b else a }

  function DecisionFor(o: Outcome): Decision {
    match o
    case ENGINE_ERROR => ERROR
    case FAIL_BLOCKED => REJECT_BLOCKED
    case DECISION_NEEDED => AWAIT_DECISION
    case FAIL_REPAIRABLE => REJECT_REPAIRABLE
    case _ => ACCEPT
  }

  function IssuesOutcome(i: Input): Outcome { IssueOutcome(Blocking(i.issues, i.manifest.candidateGenerationId)) }

  lemma {:induction false} TwoRulesDecide(rs: seq<RuleResult>)
    requires |rs| == 8 && forall k | 0 <= k < 8 && k != 5 && k != 6 :: rs[k].outcome == PASS
    requires rs[5].outcome != NOT_APPLICABLE && rs[6].outcome != NOT_APPLICABLE
    ensures var severe := MoreSevere(rs[5].outcome, rs[6].outcome);
      && Aggregate(rs) == Some(DecisionFor(severe))
      && DominantReason(rs) == Some(if severe == PASS then ALL_APPLICABLE_RULES_PASSED
           else if severe == rs[5].outcome then rs[5].reason else rs[6].reason)
  {
    DominantIs(rs);
    var d := Dominant(rs);
    assert rs[0] in rs && rs[5] in rs && rs[6] in rs;
    var k :| 0 <= k < 8 && rs[k] == d;
    assert d.outcome == MoreSevere(rs[5].outcome, rs[6].outcome);
    if d.outcome != PASS {
      FirstIsFifthOrSixth(rs, Priority(d.outcome));
    }
  }

  lemma {:induction false} SkipOne(rs: seq<RuleResult>, k: nat, priority: nat)
    requires k < |rs| && Priority(rs[k].outcome) != priority
    ensures FirstWith(rs[k..], priority) == FirstWith(rs[k + 1..], priority)
  {
    assert rs[k..][1..] == rs[k + 1..];
  }

  lemma {:induction false} FirstIsFifthOrSixth(rs: seq<RuleResult>, priority: nat)
    requires |rs| == 8 && forall k | 0 <= k < 8 && k != 5 && k != 6 :: rs[k].outcome == PASS
    requires priority != 1
    ensures Priority(rs[5].outcome) == priority ==> FirstWith(rs, priority) == Some(rs[5])
    ensures Priority(rs[5].outcome) != priority && Priority(rs[6].outcome) == priority ==> FirstWith(rs, priority) == Some(rs[6])
  {
    assert rs[0..] == rs;
    SkipOne(rs, 0, priority);
    SkipOne(rs, 1, priority);
    SkipOne(rs, 2, priority);
    SkipOne(rs, 3, priority);
    SkipOne(rs, 4, priority);
    if Priority(rs[5].outcome) != priority { SkipOne(rs, 5, priority); }
  }

  // The decision on a compiled input is the one for the more severe of the two outcomes, and its
  // reason is the reason of that rule, of the evidence rule when both are equally severe.
  lemma {:induction false} DecisionIsTheMoreSevere(i: Input, checkerDigest: nat)
    requires Consistent(i, checkerDigest)
    ensures var severe := MoreSevere(EvidenceOutcome(i), IssuesOutcome(i));
      IssueDecision(i, checkerDigest) == Some((DecisionFor(severe),
        if severe == PASS then ALL_APPLICABLE_RULES_PASSED
        else if severe == EvidenceOutcome(i) then EvidenceReason(EvidenceOutcome(i)) else IssueReason(IssuesOutcome(i))))
  {
    SixRulesPass(i, checkerDigest);
    EvaluatedOutcomes(i, checkerDigest);
    TwoRulesDecide(EvaluateRules(i, checkerDigest));
  }

  lemma {:induction false} EvaluatedOutcomes(i: Input, checkerDigest: nat)
    ensures var rs := EvaluateRules(i, checkerDigest);
      && |rs| == 8 && rs[5].outcome == EvidenceOutcome(i) && rs[6].outcome == IssuesOutcome(i)
      && rs[5].reason == EvidenceReason(EvidenceOutcome(i)) && rs[6].reason == IssueReason(IssuesOutcome(i))
      && EvidenceOutcome(i) != NOT_APPLICABLE && IssuesOutcome(i) != NOT_APPLICABLE
  {
  }

  // ---- When the two rules pass ----

  // Every selected reference is current and eligible, and every obligation is mapped to evidence of its
  // own, of the right kind and for the current digest, that passed.
  ghost predicate EvidenceComplete(i: Input) {
    var a := i.authority;
    && a.evidenceSet.evidenceRefs != []
    && (forall k | 0 <= k < |a.evidenceSet.evidenceRefs| :: IsSelected(a.currentEvidence, a.evidenceSet.evidenceRefs[k]))
    && (forall o | o in a.obligations :: Satisfied(i, o))
  }

  ghost predicate Satisfied(i: Input, o: Obligation) {
    var m := FindMapping(i.authority.evidenceSet.obligationMappings, o.id);
    && m.Some? && m.value.evidenceIds != []
    && (forall k | 0 <= k < |m.value.evidenceIds| :: StatusOf(i, o, m.value.evidenceIds[k]) == Some(PASSED))
  }

  ghost predicate AllPassed(ss: seq<Option<ResultStatus>>) { forall k | 0 <= k < |ss| :: ss[k] == Some(PASSED) }

  lemma {:induction false} StatusesPass(i: Input, os: seq<Obligation>)
    ensures AllPassed(Statuses(i, os)) <==> forall o | o in os :: Satisfied(i, o)
    decreases |os|
  {
    if os != [] {
      var head, tail := StatusesOf(i, os[0]), Statuses(i, os[1..]);
      StatusesPass(i, os[1..]);
      OnePasses(i, os[0]);
      assert AllPassed(head + tail) <==> AllPassed(head) && AllPassed(tail) by { PassedParts(head, tail); }
      assert forall o :: o in os <==> o == os[0] || o in os[1..];
    }
  }

  lemma {:induction false} PassedParts(a: seq<Option<ResultStatus>>, b: seq<Option<ResultStatus>>)
    ensures AllPassed(a + b) <==> AllPassed(a) && AllPassed(b)
  {
    var ab := a + b;
    assert forall k | 0 <= k < |a| :: a[k] == ab[k];
    assert forall k | 0 <= k < |b| :: b[k] == ab[|a| + k];
  }

  lemma {:induction false} OnePasses(i: Input, o: Obligation)
    ensures AllPassed(StatusesOf(i, o)) <==> Satisfied(i, o)
  {
    var m := FindMapping(i.authority.evidenceSet.obligationMappings, o.id);
    if m.Some? && m.value.evidenceIds != [] {
      assert forall k | 0 <= k < |m.value.evidenceIds| :: StatusesOf(i, o)[k] == StatusOf(i, o, m.value.evidenceIds[k]);
    } else {
      assert StatusesOf(i, o)[0].None?;
    }
  }

  lemma {:induction false} EvidencePassesExactly(i: Input)
    ensures EvidenceOutcome(i) == PASS <==> EvidenceComplete(i)
  {
    StatusesPass(i, i.authority.obligations);
  }

  // Some evidence that the obligation is mapped to has this status, or None when it does not count or
  // there is none.
  ghost predicate Shows(i: Input, o: Obligation, s: Option<ResultStatus>) {
    var m := FindMapping(i.authority.evidenceSet.obligationMappings, o.id);
    if m.None? || m.value.evidenceIds == [] then s.None?
    else exists k :: 0 <= k < |m.value.evidenceIds| && StatusOf(i, o, m.value.evidenceIds[k]) == s
  }

  ghost predicate Shown(i: Input, s: Option<ResultStatus>) { exists o :: o in i.authority.obligations && Shows(i, o, s) }

  // Every reference is current and eligible, and every obligation has evidence that counts.
  ghost predicate EvidenceCurrent(i: Input) {
    var refs := i.authority.evidenceSet.evidenceRefs;
    && refs != [] && (forall k | 0 <= k < |refs| :: IsSelected(i.authority.currentEvidence, refs[k]))
    && !Shown(i, None)
  }

  lemma {:induction false} OneShows(i: Input, o: Obligation, s: Option<ResultStatus>)
    ensures s in StatusesOf(i, o) <==> Shows(i, o, s)
  {
    var m := FindMapping(i.authority.evidenceSet.obligationMappings, o.id);
    if m.Some? && m.value.evidenceIds != [] {
      assert forall k | 0 <= k < |m.value.evidenceIds| :: StatusesOf(i, o)[k] == StatusOf(i, o, m.value.evidenceIds[k]);
    }
  }

  lemma {:induction false} StatusesShow(i: Input, os: seq<Obligation>, s: Option<ResultStatus>)
    ensures s in Statuses(i, os) <==> exists o :: o in os && Shows(i, o, s)
    decreases |os|
  {
    if os != [] {
      StatusesShow(i, os[1..], s);
      OneShows(i, os[0], s);
      assert forall o :: o in os <==> o == os[0] || o in os[1..];
    }
  }

  // The outcome of the evidence rule, case by case; in all other cases it is FAIL_BLOCKED.
  lemma {:induction false} EvidenceOutcomeExactly(i: Input)
    ensures var o, broken := EvidenceOutcome(i), Shown(i, Some(RUNNER_ERROR)) || Shown(i, Some(TIMEOUT));
      && (o == ENGINE_ERROR <==> EvidenceCurrent(i) && broken)
      && (o == FAIL_REPAIRABLE <==> EvidenceCurrent(i) && !broken && Shown(i, Some(ResultStatus.FAILED)))
      && (o == PASS <==> EvidenceComplete(i))
      && (o == PASS || o == FAIL_REPAIRABLE || o == FAIL_BLOCKED || o == ENGINE_ERROR)
  {
    EvidencePassesExactly(i);
    StatusesShow(i, i.authority.obligations, None);
    StatusesShow(i, i.authority.obligations, Some(RUNNER_ERROR));
    StatusesShow(i, i.authority.obligations, Some(TIMEOUT));
    StatusesShow(i, i.authority.obligations, Some(ResultStatus.FAILED));
  }

  lemma {:induction false} BlockingIs(issues: seq<PendingIssue>, candidateGenerationId: Id)
    ensures forall x :: x in Blocking(issues, candidateGenerationId) <==> x in issues && Blocks(x, candidateGenerationId)
    decreases |issues|
  {
    if issues != [] {
      BlockingIs(issues[1..], candidateGenerationId);
      assert forall x :: x in issues <==> x == issues[0] || x in issues[1..];
    }
  }

  lemma {:induction false} IssuesPassExactly(i: Input)
    ensures IssuesOutcome(i) == PASS <==> forall x | x in i.issues :: !Blocks(x, i.manifest.candidateGenerationId)
  {
    var blocking := Blocking(i.issues, i.manifest.candidateGenerationId);
    BlockingIs(i.issues, i.manifest.candidateGenerationId);
    if blocking != [] { assert blocking[0] in blocking; }
  }

  // An open blocking issue of this repairability applies to the Candidate.
  ghost predicate Raised(i: Input, repairability: Repairability) {
    exists x :: x in i.issues && Blocks(x, i.manifest.candidateGenerationId) && x.repairability == repairability
  }

  lemma {:induction false} IssueOutcomeExactly(i: Input)
    ensures IssuesOutcome(i) ==
      if Raised(i, BLOCKED) then FAIL_BLOCKED
      else if Raised(i, NEEDS_DECISION) then DECISION_NEEDED
      else if Raised(i, REPAIRABLE) then FAIL_REPAIRABLE
      else PASS
  {
    var blocking := Blocking(i.issues, i.manifest.candidateGenerationId);
    BlockingIs(i.issues, i.manifest.candidateGenerationId);
    if blocking != [] {
      assert blocking[0] in blocking && Raised(i, blocking[0].repairability);
    }
    forall k | 0 <= k < |blocking| ensures Raised(i, blocking[k].repairability) { assert blocking[k] in blocking; }
  }

  lemma {:induction false} CompiledIssues(a: Authority, createdAt: int, checkerDigest: nat, verified: bool, x: PendingIssue)
    requires Compile(a, createdAt, checkerDigest, verified).Some?
    ensures x in Compile(a, createdAt, checkerDigest, verified).value.issues <==> x in a.pendingIssues
  {
    SortIs(a.pendingIssues, IssueId);
    SameMembers(SortBy(a.pendingIssues, IssueId), a.pendingIssues, x);
  }

  // A decision on a compiled input accepts exactly when the evidence of every obligation is current,
  // eligible and passing, and no open blocking issue applies to the Candidate.
  lemma {:induction false} AcceptsExactly(i: Input, checkerDigest: nat)
    requires Consistent(i, checkerDigest)
    ensures IssueDecision(i, checkerDigest).Some?
    ensures IssueDecision(i, checkerDigest).value.0 == ACCEPT <==>
      EvidenceComplete(i) && forall x | x in i.issues :: !Blocks(x, i.manifest.candidateGenerationId)
  {
    DecisionIsTheMoreSevere(i, checkerDigest);
    EvidencePassesExactly(i);
    IssuesPassExactly(i);
    EvaluatedOutcomes(i, checkerDigest);
  }

  // The same for the authority that was compiled.
  lemma {:induction false} CompiledAcceptsExactly(a: Authority, createdAt: int, checkerDigest: nat, verified: bool)
    requires Compile(a, createdAt, checkerDigest, verified).Some?
    ensures var i := Compile(a, createdAt, checkerDigest, verified).value;
      && IssueDecision(i, checkerDigest).Some?
      && (IssueDecision(i, checkerDigest).value.0 == ACCEPT <==>
           EvidenceComplete(i) && forall x | x in a.pendingIssues :: !Blocks(x, a.generation.id))
  {
    var i := Compile(a, createdAt, checkerDigest, verified).value;
    CompiledIsConsistent(a, createdAt, checkerDigest, verified);
    AcceptsExactly(i, checkerDigest);
    forall x ensures x in i.issues <==> x in a.pendingIssues { CompiledIssues(a, createdAt, checkerDigest, verified, x); }
    assert i.manifest.candidateGenerationId == a.generation.id;
  }
}
