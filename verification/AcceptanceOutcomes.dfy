// Every Acceptance Decision as a table over what the input says: the decision and its reason by outcome,
// the outcomes by rule, and the evidence of an accepted Candidate, all told from the records.
module AcceptanceOutcomes {
  import opened Options
  import opened CodeUnits
  import opened Sequences
  import opened Sorting
  import opened EvidencePolicy
  import opened Acceptance
  import C = Candidate
  import W = Workflow

  // ---- The decision on any results ----

  predicate Has(rs: seq<RuleResult>, o: Outcome) { exists k :: 0 <= k < |rs| && rs[k].outcome == o }

  predicate IsFirst(rs: seq<RuleResult>, k: nat, o: Outcome) {
    k < |rs| && rs[k].outcome == o && forall j | 0 <= j < k :: rs[j].outcome != o
  }

  // Which outcome decides, if any.
  function Severest(rs: seq<RuleResult>): Option<Outcome> {
    if Has(rs, ENGINE_ERROR) then Some(ENGINE_ERROR)
    else if Has(rs, FAIL_BLOCKED) then Some(FAIL_BLOCKED)
    else if Has(rs, DECISION_NEEDED) then Some(DECISION_NEEDED)
    else if Has(rs, FAIL_REPAIRABLE) then Some(FAIL_REPAIRABLE)
    else if Has(rs, PASS) then Some(PASS)
    else None
  }

  // The decision on any results is that of the severest outcome among them: an error of the engine before a
  // blocking failure, that before an open decision, that before a repairable failure; with none of these
  // it accepts if something passed.
  lemma {:induction false} AggregateExactly(rs: seq<RuleResult>)
    ensures Aggregate(rs) ==
      match Severest(rs)
      case Some(ENGINE_ERROR) => Some(ERROR)
      case Some(FAIL_BLOCKED) => Some(REJECT_BLOCKED)
      case Some(DECISION_NEEDED) => Some(AWAIT_DECISION)
      case Some(FAIL_REPAIRABLE) => Some(REJECT_REPAIRABLE)
      case Some(PASS) => Some(ACCEPT)
      case _ => None
  {
    if rs != [] { SeverestIs(rs); }
  }

  lemma {:induction false} SeverestIs(rs: seq<RuleResult>)
    requires rs != []
    ensures Severest(rs).Some? && Severest(rs) != Some(PASS) ==> Dominant(rs).outcome == Severest(rs).value
    ensures Severest(rs).None? || Severest(rs) == Some(PASS) ==> Dominant(rs).outcome == PASS || Dominant(rs).outcome == NOT_APPLICABLE
    ensures !Has(rs, NOT_APPLICABLE) ==> Severest(rs).Some?
  {
    DominantIs(rs);
    var d := Dominant(rs);
    var i :| 0 <= i < |rs| && rs[i] == d;
    assert Has(rs, d.outcome) && Has(rs, rs[0].outcome);
    forall o | Has(rs, o) ensures Priority(o) <= Priority(d.outcome) {
      var k :| 0 <= k < |rs| && rs[k].outcome == o;
      assert rs[k] in rs;
    }
  }

  // And the reason is that of the first result with that outcome.
  lemma {:induction false} ReasonExactly(rs: seq<RuleResult>, k: nat)
    requires Severest(rs).Some? && IsFirst(rs, k, Severest(rs).value)
    ensures DominantReason(rs) == Some(if Severest(rs) == Some(PASS) then ALL_APPLICABLE_RULES_PASSED else rs[k].reason)
  {
    AggregateExactly(rs);
    SeverestIs(rs);
    if Severest(rs) != Some(PASS) { FirstHas(rs, k, Severest(rs).value); }
  }

  lemma {:induction false} FirstHas(rs: seq<RuleResult>, k: nat, o: Outcome)
    requires IsFirst(rs, k, o) && o != PASS && o != NOT_APPLICABLE
    ensures FirstWith(rs, Priority(o)) == Some(rs[k])
    decreases k
  {
    if k > 0 {
      assert rs[0].outcome != o && Priority(rs[0].outcome) != Priority(o);
      assert IsFirst(rs[1..], k - 1, o) by { assert forall j | 0 <= j < k - 1 :: rs[1..][j] == rs[j + 1]; }
      FirstHas(rs[1..], k - 1, o);
    }
  }

  // ---- The evidence, by its records ----

  // The last record with this id, which is the one that counts.
  predicate IsLatest(current: seq<Evidence>, k: nat, id: Id) {
    k < |current| && current[k].record.id == id && forall j | k < j < |current| :: current[j].record.id != id
  }

  // The first mapping of the obligation.
  predicate IsMapping(mappings: seq<Mapping>, p: nat, obligationId: Id) {
    p < |mappings| && mappings[p].obligationId == obligationId && forall q | 0 <= q < p :: mappings[q].obligationId != obligationId
  }

  lemma {:induction false} LookupIs(current: seq<Evidence>, id: Id)
    ensures Lookup(current, id).None? <==> forall k | 0 <= k < |current| :: current[k].record.id != id
    ensures forall k: nat | IsLatest(current, k, id) :: Lookup(current, id) == Some(current[k])
    ensures Lookup(current, id).Some? ==> exists k: nat :: IsLatest(current, k, id)
    decreases |current|
  {
    if current != [] {
      var front, last := current[..|current| - 1], |current| - 1;
      if current[last].record.id == id {
        assert IsLatest(current, last, id);
      } else {
        LookupIs(front, id);
        forall k: nat ensures IsLatest(current, k, id) <==> IsLatest(front, k, id) { LatestMore(current, k, id); }
      }
    }
  }

  lemma {:induction false} LatestMore(current: seq<Evidence>, k: nat, id: Id)
    requires current != [] && current[|current| - 1].record.id != id
    ensures IsLatest(current, k, id) <==> IsLatest(current[..|current| - 1], k, id)
  {
  }

  lemma {:induction false} MappingIs(mappings: seq<Mapping>, obligationId: Id)
    ensures FindMapping(mappings, obligationId).None? <==> forall p | 0 <= p < |mappings| :: mappings[p].obligationId != obligationId
    ensures forall p: nat | IsMapping(mappings, p, obligationId) :: FindMapping(mappings, obligationId) == Some(mappings[p])
    ensures FindMapping(mappings, obligationId).Some? ==> exists p: nat :: IsMapping(mappings, p, obligationId)
    decreases |mappings|
  {
    if mappings != [] {
      if mappings[0].obligationId == obligationId {
        assert IsMapping(mappings, 0, obligationId);
      } else {
        MappingIs(mappings[1..], obligationId);
        forall p: nat | p > 0 ensures IsMapping(mappings, p, obligationId) <==> IsMapping(mappings[1..], p - 1, obligationId) {
          MappingLater(mappings, p, obligationId);
        }
        if p: nat :| IsMapping(mappings[1..], p, obligationId) { assert IsMapping(mappings, p + 1, obligationId); }
      }
    }
  }

  lemma {:induction false} MappingLater(mappings: seq<Mapping>, p: nat, obligationId: Id)
    requires mappings != [] && mappings[0].obligationId != obligationId && p > 0
    ensures IsMapping(mappings, p, obligationId) <==> IsMapping(mappings[1..], p - 1, obligationId)
  {
    assert forall q | 0 <= q < |mappings| - 1 :: mappings[1..][q] == mappings[q + 1];
  }

  // The evidence speaks for the obligation and for the Candidate as it is.
  predicate Vouches(i: Input, o: Obligation, e: Evidence) {
    && e.eligibility.eligible && e.record.kind == o.requiredEvidenceKind && e.record.obligationId == Some(o.id)
    && e.record.candidateDigest == i.manifest.candidateDigest
  }

  // The record that counts for this id vouches for the obligation with this result.
  ghost predicate HasEvidence(i: Input, o: Obligation, id: Id, s: ResultStatus) {
    var current := i.authority.currentEvidence;
    exists k: nat :: IsLatest(current, k, id) && Vouches(i, o, current[k]) && current[k].record.resultStatus == s
  }

  ghost predicate IsMappedTo(i: Input, o: Obligation, id: Id) {
    var mappings := i.authority.evidenceSet.obligationMappings;
    exists p: nat :: IsMapping(mappings, p, o.id) && id in mappings[p].evidenceIds
  }

  // Some obligation is mapped to evidence with this result.
  ghost predicate Reports(i: Input, s: ResultStatus) {
    exists o, id :: o in i.authority.obligations && IsMappedTo(i, o, id) && HasEvidence(i, o, id, s)
  }

  // Some obligation is mapped to no evidence, or to an id without evidence that vouches for it.
  ghost predicate LacksEvidence(i: Input) { exists o :: o in i.authority.obligations && Lacks(i, o) }

  ghost predicate Lacks(i: Input, o: Obligation) {
    || (forall id :: !IsMappedTo(i, o, id))
    || (exists id :: IsMappedTo(i, o, id) && forall s :: !HasEvidence(i, o, id, s))
  }

  // The record that counts for the reference is as it was referred to, and eligible.
  ghost predicate IsCurrent(current: seq<Evidence>, entry: Entry) {
    exists k: nat ::
      && IsLatest(current, k, entry.evidenceId) && current[k].record.recordDigest == entry.recordDigest
      && current[k].eligibility == Eligibility(true, entry.eligibilityVersion, current[k].eligibility.changedAt) && entry.eligible
  }

  ghost predicate RefsAreCurrent(i: Input) {
    var refs := i.authority.evidenceSet.evidenceRefs;
    refs != [] && forall entry | entry in refs :: IsCurrent(i.authority.currentEvidence, entry)
  }

  lemma {:induction false} LatestIsOne(current: seq<Evidence>, j: nat, k: nat, id: Id)
    requires IsLatest(current, j, id) && IsLatest(current, k, id)
    ensures j == k
  {
  }

  lemma {:induction false} StatusIs(i: Input, o: Obligation, id: Id, s: ResultStatus)
    ensures StatusOf(i, o, id) == Some(s) <==> HasEvidence(i, o, id, s)
  {
    LookupIs(i.authority.currentEvidence, id);
  }

  lemma {:induction false} NoStatusIs(i: Input, o: Obligation, id: Id)
    ensures StatusOf(i, o, id).None? <==> forall s :: !HasEvidence(i, o, id, s)
  {
    forall s ensures StatusOf(i, o, id) == Some(s) <==> HasEvidence(i, o, id, s) { StatusIs(i, o, id, s); }
    if StatusOf(i, o, id).Some? { assert HasEvidence(i, o, id, StatusOf(i, o, id).value); }
  }

  lemma {:induction false} SelectedIs(current: seq<Evidence>, entry: Entry)
    ensures IsSelected(current, entry) <==> IsCurrent(current, entry)
  {
    LookupIs(current, entry.evidenceId);
    if IsSelected(current, entry) {
      var k: nat :| IsLatest(current, k, entry.evidenceId);
      assert Lookup(current, entry.evidenceId) == Some(current[k]);
    }
  }

  lemma {:induction false} MappedIs(i: Input, o: Obligation, id: Id)
    ensures var m := FindMapping(i.authority.evidenceSet.obligationMappings, o.id);
      IsMappedTo(i, o, id) <==> m.Some? && id in m.value.evidenceIds
  {
    MappingIs(i.authority.evidenceSet.obligationMappings, o.id);
  }

  lemma {:induction false} ShowsIs(i: Input, o: Obligation, s: ResultStatus)
    ensures Shows(i, o, Some(s)) <==> exists id :: IsMappedTo(i, o, id) && HasEvidence(i, o, id, s)
  {
    var m := FindMapping(i.authority.evidenceSet.obligationMappings, o.id);
    forall id ensures IsMappedTo(i, o, id) <==> m.Some? && id in m.value.evidenceIds { MappedIs(i, o, id); }
    forall id ensures StatusOf(i, o, id) == Some(s) <==> HasEvidence(i, o, id, s) { StatusIs(i, o, id, s); }
    if Shows(i, o, Some(s)) {
      var k :| 0 <= k < |m.value.evidenceIds| && StatusOf(i, o, m.value.evidenceIds[k]) == Some(s);
      assert IsMappedTo(i, o, m.value.evidenceIds[k]);
    }
    if id :| IsMappedTo(i, o, id) && HasEvidence(i, o, id, s) {
      var k :| 0 <= k < |m.value.evidenceIds| && m.value.evidenceIds[k] == id;
    }
  }

  lemma {:induction false} LacksIs(i: Input, o: Obligation)
    ensures Shows(i, o, None) <==> Lacks(i, o)
  {
    var m := FindMapping(i.authority.evidenceSet.obligationMappings, o.id);
    forall id ensures IsMappedTo(i, o, id) <==> m.Some? && id in m.value.evidenceIds { MappedIs(i, o, id); }
    forall id ensures StatusOf(i, o, id).None? <==> forall s :: !HasEvidence(i, o, id, s) { NoStatusIs(i, o, id); }
    if m.None? || m.value.evidenceIds == [] {
    } else {
      assert IsMappedTo(i, o, m.value.evidenceIds[0]);
      if Shows(i, o, None) {
        var k :| 0 <= k < |m.value.evidenceIds| && StatusOf(i, o, m.value.evidenceIds[k]) == None;
        assert IsMappedTo(i, o, m.value.evidenceIds[k]);
      }
      if id :| IsMappedTo(i, o, id) && forall s :: !HasEvidence(i, o, id, s) {
        var k :| 0 <= k < |m.value.evidenceIds| && m.value.evidenceIds[k] == id;
      }
    }
  }

  lemma {:induction false} EvidenceIs(i: Input)
    ensures forall s :: Shown(i, Some(s)) <==> Reports(i, s)
    ensures Shown(i, None) <==> LacksEvidence(i)
    ensures EvidenceCurrent(i) <==> RefsAreCurrent(i) && !LacksEvidence(i)
  {
    forall s ensures Shown(i, Some(s)) <==> Reports(i, s) {
      forall o ensures Shows(i, o, Some(s)) <==> exists id :: IsMappedTo(i, o, id) && HasEvidence(i, o, id, s) { ShowsIs(i, o, s); }
    }
    forall o ensures Shows(i, o, None) <==> Lacks(i, o) { LacksIs(i, o); }
    var current, refs := i.authority.currentEvidence, i.authority.evidenceSet.evidenceRefs;
    forall entry ensures IsSelected(current, entry) <==> IsCurrent(current, entry) { SelectedIs(current, entry); }
    assert (forall k | 0 <= k < |refs| :: IsSelected(current, refs[k])) <==> forall entry | entry in refs :: IsCurrent(current, entry);
  }

  // What the evidence rule finds, from the records: an error or a timeout of a runner before a failure, and
  // those before a result that is a mere observation; but nothing counts unless all the evidence is there
  // and current.
  lemma {:induction false} EvidenceTable(i: Input)
    ensures EvidenceOutcome(i) ==
      if !RefsAreCurrent(i) || LacksEvidence(i) then FAIL_BLOCKED
      else if Reports(i, RUNNER_ERROR) || Reports(i, TIMEOUT) then ENGINE_ERROR
      else if Reports(i, ResultStatus.FAILED) then FAIL_REPAIRABLE
      else if Reports(i, OBSERVED) then FAIL_BLOCKED
      else PASS
  {
    EvidenceIs(i);
    EvidenceOutcomeExactly(i);
    StatusesShow(i, i.authority.obligations, Some(OBSERVED));
    StatusesShow(i, i.authority.obligations, Some(ResultStatus.FAILED));
    StatusesShow(i, i.authority.obligations, Some(RUNNER_ERROR));
    StatusesShow(i, i.authority.obligations, Some(TIMEOUT));
    StatusesShow(i, i.authority.obligations, None);
    PassesWithoutOthers(Statuses(i, i.authority.obligations));
  }

  lemma {:induction false} PassesWithoutOthers(results: seq<Option<ResultStatus>>)
    ensures (forall k | 0 <= k < |results| :: results[k] == Some(PASSED)) <==>
      None !in results && Some(OBSERVED) !in results && Some(ResultStatus.FAILED) !in results && Some(RUNNER_ERROR) !in results &&
      Some(TIMEOUT) !in results
  {
    if None !in results && Some(OBSERVED) !in results && Some(ResultStatus.FAILED) !in results && Some(RUNNER_ERROR) !in results &&
       Some(TIMEOUT) !in results
    {
      forall k | 0 <= k < |results| ensures results[k] == Some(PASSED) {
        var r := results[k];
        assert r in results && r.Some?;
        assert r.value == OBSERVED || r.value == PASSED || r.value == ResultStatus.FAILED || r.value == RUNNER_ERROR || r.value == TIMEOUT;
      }
    }
  }

  // ---- The rules ----

  // An open blocking issue of the Goal or of this Candidate.
  ghost predicate HasIssue(i: Input, repairability: Repairability) {
    exists x :: x in i.issues && x.open && x.blocking && x.repairability == repairability &&
      (x.candidateGenerationId == None || x.candidateGenerationId == Some(i.manifest.candidateGenerationId))
  }

  lemma {:induction false} IssueTable(i: Input)
    ensures IssuesOutcome(i) ==
      if HasIssue(i, BLOCKED) then FAIL_BLOCKED
      else if HasIssue(i, NEEDS_DECISION) then DECISION_NEEDED
      else if HasIssue(i, REPAIRABLE) then FAIL_REPAIRABLE
      else PASS
  {
    IssueOutcomeExactly(i);
    assert forall r :: HasIssue(i, r) <==> Raised(i, r) by {
      forall r ensures HasIssue(i, r) <==> Raised(i, r) { IssueIs(i, r); }
    }
  }

  lemma {:induction false} IssueIs(i: Input, r: Repairability)
    ensures HasIssue(i, r) <==> Raised(i, r)
  {
    if HasIssue(i, r) {
      var x :| x in i.issues && x.open && x.blocking && x.repairability == r &&
        (x.candidateGenerationId == None || x.candidateGenerationId == Some(i.manifest.candidateGenerationId));
      assert Blocks(x, i.manifest.candidateGenerationId);
    }
  }

  // The required criteria, one by one.
  function RequiredBefore(criteria: seq<Criterion>, k: nat): nat
    requires k <= |criteria|
  {
    if k == 0 then 0 else RequiredBefore(criteria, k - 1) + if criteria[k - 1].required then 1 else 0
  }

  lemma {:induction false} RequiredMore(criteria: seq<Criterion>, c: Criterion)
    ensures Required(criteria + [c]) == Required(criteria) + if c.required then [c.id] else []
    decreases |criteria|
  {
    if criteria == [] {
      assert [] + [c] == [c] && [c][1..] == [];
    } else {
      assert (criteria + [c])[1..] == criteria[1..] + [c];
      RequiredMore(criteria[1..], c);
    }
  }

  // They are in the order of the Goal, and none is left out or added.
  lemma {:induction false} RequiredExactly(criteria: seq<Criterion>, k: nat)
    requires k <= |criteria|
    ensures |Required(criteria[..k])| == RequiredBefore(criteria, k)
    ensures forall j: nat | j < k && criteria[j].required ::
      RequiredBefore(criteria, j) < |Required(criteria[..k])| && Required(criteria[..k])[RequiredBefore(criteria, j)] == criteria[j].id
  {
    if k > 0 {
      RequiredExactly(criteria, k - 1);
      assert criteria[..k] == criteria[..k - 1] + [criteria[k - 1]];
      RequiredMore(criteria[..k - 1], criteria[k - 1]);
    }
  }

  lemma {:induction false} MappedLength(os: seq<Obligation>)
    ensures |MappedCriteria(os)| <= |os|
    ensures |MappedCriteria(os)| == |os| <==> forall k | 0 <= k < |os| :: |os[k].sourceCriterionRefs| == 1
    ensures |MappedCriteria(os)| == |os| ==> forall k | 0 <= k < |os| :: MappedCriteria(os)[k] == os[k].sourceCriterionRefs[0]
    decreases |os|
  {
    if os != [] {
      MappedLength(os[1..]);
      assert forall k | 0 <= k < |os[1..]| :: os[1..][k] == os[k + 1];
      var mapped := MappedCriteria(os);
      if |mapped| == |os| {
        assert |os[0].sourceCriterionRefs| == 1;
        forall k | 0 <= k < |os| ensures |os[k].sourceCriterionRefs| == 1 && mapped[k] == os[k].sourceCriterionRefs[0] {
          if k > 0 { assert os[k] == os[1..][k - 1] && mapped[k] == MappedCriteria(os[1..])[k - 1]; }
        }
      }
    }
  }

  // One obligation for each required criterion, in order.
  predicate CoversTheGoal(a: Authority) {
    var required := Required(a.goal.successCriteria);
    && required != [] && |a.obligations| == |required|
    && forall k | 0 <= k < |required| :: a.obligations[k].sourceCriterionRefs == [required[k]]
  }

  lemma {:induction false} ObligationsPassIs(a: Authority)
    ensures ObligationsPass(a) <==> CoversTheGoal(a)
  {
    MappedLength(a.obligations);
    var required, mapped := Required(a.goal.successCriteria), MappedCriteria(a.obligations);
    if ObligationsPass(a) {
      assert required[|required| - 1] == mapped[|required| - 1];
      forall k | 0 <= k < |required| ensures a.obligations[k].sourceCriterionRefs == [required[k]] {
        assert |a.obligations[k].sourceCriterionRefs| == 1;
      }
    }
    if CoversTheGoal(a) {
      forall k | 0 <= k < |a.obligations| ensures |a.obligations[k].sourceCriterionRefs| == 1 { assert a.obligations[k].sourceCriterionRefs == [required[k]]; }
      forall k | 0 <= k < |required| ensures k < |mapped| && mapped[k] == required[k] {
        assert a.obligations[k].sourceCriterionRefs == [required[k]];
      }
    }
  }

  // What each reason for a blocked rejection says is wrong.
  ghost predicate IsWrong(i: Input, reason: Reason) {
    var a, m := i.authority, i.manifest;
    match reason
    case WORKFLOW_FINAL_VERIFY_STALE => (a.workflow.phase, a.workflow.version, a.workflow.id) != (W.FINAL_VERIFY, m.workflowVersion, m.workflowId)
    case GOAL_REVISION_STALE => (a.goal.id, a.goal.revision) != (m.goalId, m.goalRevision) || a.workflow.goalRevision != m.goalRevision
    case CANDIDATE_NOT_CURRENT_FROZEN =>
      (a.workflow.activeCandidateGenerationId, m.candidateGenerationId, a.generation.state) != (Some(a.generation.id), a.generation.id, C.FROZEN)
    case CANDIDATE_DIGEST_STALE => (a.generation.frozenDigest, a.evidenceSet.candidateDigest) != (Some(m.candidateDigest), m.candidateDigest)
    case REQUIRED_OBLIGATIONS_INCOMPLETE => !CoversTheGoal(a)
    case REQUIRED_EVIDENCE_MISSING_OR_STALE => EvidenceOutcome(i) == FAIL_BLOCKED
    case BLOCKING_PENDING_ISSUE => HasIssue(i, BLOCKED)
    case MANIFEST_POLICY_STALE => (m.policyBundleId, m.policyBundleDigest) != (a.bundle.id, a.bundle.digest)
    case _ => false
  }

  // The order of the rules.
  function Place(reason: Reason): nat {
    match reason
    case WORKFLOW_FINAL_VERIFY_STALE => 0
    case GOAL_REVISION_STALE => 1
    case CANDIDATE_NOT_CURRENT_FROZEN => 2
    case CANDIDATE_DIGEST_STALE => 3
    case REQUIRED_OBLIGATIONS_INCOMPLETE => 4
    case REQUIRED_EVIDENCE_MISSING_OR_STALE => 5
    case BLOCKING_PENDING_ISSUE => 6
    case MANIFEST_POLICY_STALE => 7
    case _ => 8
  }

  const BLOCKING_REASONS := [WORKFLOW_FINAL_VERIFY_STALE, GOAL_REVISION_STALE, CANDIDATE_NOT_CURRENT_FROZEN, CANDIDATE_DIGEST_STALE,
    REQUIRED_OBLIGATIONS_INCOMPLETE, REQUIRED_EVIDENCE_MISSING_OR_STALE, BLOCKING_PENDING_ISSUE, MANIFEST_POLICY_STALE]

  ghost predicate IsFirstWrong(i: Input, reason: Reason) {
    IsWrong(i, reason) && forall other | IsWrong(i, other) :: Place(reason) <= Place(other)
  }

  // The result of a rule that passes or blocks, with the reason that it has then.
  ghost predicate IsResult(i: Input, r: RuleResult, reason: Reason) {
    if IsWrong(i, reason) then r.outcome == FAIL_BLOCKED && r.reason == reason else r.outcome == PASS
  }

  lemma {:induction false} FirstResults(i: Input, checkerDigest: nat)
    ensures var rs := EvaluateRules(i, checkerDigest);
      |rs| == 8 && IsResult(i, rs[0], WORKFLOW_FINAL_VERIFY_STALE) && IsResult(i, rs[1], GOAL_REVISION_STALE)
  {
  }

  lemma {:induction false} CandidateResults(i: Input, checkerDigest: nat)
    ensures var rs := EvaluateRules(i, checkerDigest);
      |rs| == 8 && IsResult(i, rs[2], CANDIDATE_NOT_CURRENT_FROZEN) && IsResult(i, rs[3], CANDIDATE_DIGEST_STALE)
  {
  }

  lemma {:induction false} LastResults(i: Input, checkerDigest: nat)
    requires BundleIsExact(i.authority.bundle, checkerDigest)
    ensures var rs := EvaluateRules(i, checkerDigest);
      |rs| == 8 && IsResult(i, rs[4], REQUIRED_OBLIGATIONS_INCOMPLETE) && IsResult(i, rs[7], MANIFEST_POLICY_STALE)
  {
    ObligationsPassIs(i.authority);
  }

  // What the results of the rules are, in terms of what is wrong.
  ghost predicate ResultsAre(i: Input, rs: seq<RuleResult>) {
    && |rs| == 8
    && (forall k | 0 <= k < 8 && k != 5 && k != 6 :: IsResult(i, rs[k], BLOCKING_REASONS[k]))
    && rs[5].outcome == EvidenceOutcome(i) && rs[5].reason == EvidenceReason(rs[5].outcome)
    && rs[6].outcome == IssuesOutcome(i) && rs[6].reason == IssueReason(rs[6].outcome)
  }

  lemma {:induction false} ResultsExactly(i: Input, checkerDigest: nat)
    requires BundleIsExact(i.authority.bundle, checkerDigest)
    ensures ResultsAre(i, EvaluateRules(i, checkerDigest))
  {
    FirstResults(i, checkerDigest);
    CandidateResults(i, checkerDigest);
    LastResults(i, checkerDigest);
    EvaluatedOutcomes(i, checkerDigest);
  }

  // ---- The decision ----

  ghost predicate EngineFailed(i: Input) {
    RefsAreCurrent(i) && !LacksEvidence(i) && (Reports(i, RUNNER_ERROR) || Reports(i, TIMEOUT))
  }

  ghost predicate IsBlocked(i: Input) { exists reason :: IsWrong(i, reason) }

  // The evidence fails, but not for an error.
  ghost predicate EvidenceFails(i: Input) {
    RefsAreCurrent(i) && !LacksEvidence(i) && !EngineFailed(i) && Reports(i, ResultStatus.FAILED)
  }

  lemma {:induction false} ResultAt(i: Input, rs: seq<RuleResult>, k: nat)
    requires ResultsAre(i, rs) && k < 8 && k != 5 && k != 6
    ensures IsResult(i, rs[k], BLOCKING_REASONS[k]) && (rs[k].outcome == FAIL_BLOCKED <==> IsWrong(i, BLOCKING_REASONS[k]))
  {
  }

  lemma {:induction false} BlockedAt(i: Input, rs: seq<RuleResult>, k: nat)
    requires ResultsAre(i, rs) && k < 8
    ensures rs[k].outcome == FAIL_BLOCKED <==> IsWrong(i, BLOCKING_REASONS[k])
    ensures rs[k].outcome == FAIL_BLOCKED ==> rs[k].reason == BLOCKING_REASONS[k]
    ensures k != 5 && k != 6 ==> rs[k].outcome == FAIL_BLOCKED || rs[k].outcome == PASS
  {
    if k == 6 { IssueTable(i); } else if k != 5 { ResultAt(i, rs, k); }
  }

  lemma {:induction false} PlaceIs(reason: Reason)
    ensures Place(reason) < 8 ==> BLOCKING_REASONS[Place(reason)] == reason
    ensures Place(reason) == 8 ==> forall i: Input :: !IsWrong(i, reason)
    ensures Place(reason) <= 8
  {
  }

  lemma {:induction false} ReasonAt(k: nat)
    requires k < 8
    ensures Place(BLOCKING_REASONS[k]) == k
  {
  }

  lemma {:induction false} BlocksExactly(i: Input, rs: seq<RuleResult>)
    requires ResultsAre(i, rs)
    ensures Has(rs, FAIL_BLOCKED) <==> IsBlocked(i)
    ensures forall k: nat | IsFirst(rs, k, FAIL_BLOCKED) :: IsFirstWrong(i, rs[k].reason)
  {
    forall k: nat | k < 8
      ensures (rs[k].outcome == FAIL_BLOCKED <==> IsWrong(i, BLOCKING_REASONS[k])) &&
        (rs[k].outcome == FAIL_BLOCKED ==> rs[k].reason == BLOCKING_REASONS[k])
    {
      BlockedAt(i, rs, k);
    }
    if reason :| IsWrong(i, reason) {
      PlaceIs(reason);
      assert rs[Place(reason)].outcome == FAIL_BLOCKED;
    }
    forall k: nat | IsFirst(rs, k, FAIL_BLOCKED) ensures IsFirstWrong(i, rs[k].reason) {
      ReasonAt(k);
      forall other | IsWrong(i, other) ensures k <= Place(other) {
        PlaceIs(other);
        assert rs[Place(other)].outcome == FAIL_BLOCKED;
      }
    }
  }

  // But for blocked ones, only the evidence and the issues do not pass.
  lemma {:induction false} OtherOutcomes(i: Input, rs: seq<RuleResult>, o: Outcome)
    requires ResultsAre(i, rs) && o != FAIL_BLOCKED
    ensures o != PASS ==> (Has(rs, o) <==> rs[5].outcome == o || rs[6].outcome == o)
    ensures o != PASS ==> forall k: nat | IsFirst(rs, k, o) :: k == if rs[5].outcome == o then 5 else 6
    ensures !Has(rs, FAIL_BLOCKED) ==> Has(rs, PASS)
  {
    forall k: nat | k < 8 && k != 5 && k != 6 ensures rs[k].outcome == FAIL_BLOCKED || rs[k].outcome == PASS { BlockedAt(i, rs, k); }
    assert rs[0].outcome == FAIL_BLOCKED || rs[0].outcome == PASS;
  }

  ghost function DecidingOutcome(i: Input): Outcome {
    if EngineFailed(i) then ENGINE_ERROR
    else if IsBlocked(i) then FAIL_BLOCKED
    else if HasIssue(i, NEEDS_DECISION) then DECISION_NEEDED
    else if EvidenceFails(i) || HasIssue(i, REPAIRABLE) then FAIL_REPAIRABLE
    else PASS
  }

  lemma {:induction false} SeverestResult(i: Input, rs: seq<RuleResult>)
    requires ResultsAre(i, rs)
    ensures Severest(rs) == Some(DecidingOutcome(i))
  {
    EvidenceTable(i);
    IssueTable(i);
    BlocksExactly(i, rs);
    OtherOutcomes(i, rs, ENGINE_ERROR);
    OtherOutcomes(i, rs, DECISION_NEEDED);
    OtherOutcomes(i, rs, FAIL_REPAIRABLE);
    EvidenceBlocks(i);
  }

  // Blocked evidence or a blocking issue is among what is wrong.
  lemma {:induction false} EvidenceBlocks(i: Input)
    ensures EvidenceOutcome(i) == FAIL_BLOCKED || HasIssue(i, BLOCKED) ==> IsBlocked(i)
  {
    if EvidenceOutcome(i) == FAIL_BLOCKED { assert IsWrong(i, REQUIRED_EVIDENCE_MISSING_OR_STALE); }
    if HasIssue(i, BLOCKED) { assert IsWrong(i, BLOCKING_PENDING_ISSUE); }
  }

  lemma {:induction false} FirstExists(rs: seq<RuleResult>, o: Outcome) returns (k: nat)
    requires Has(rs, o)
    ensures IsFirst(rs, k, o)
  {
    k := 0;
    while rs[k].outcome != o
      invariant k < |rs| && forall j | 0 <= j < k :: rs[j].outcome != o
      decreases |rs| - k
    {
      k := k + 1;
    }
  }

  // The decision on any input whose policy bundle is exact, from the records.  An error or a timeout of a
  // runner comes first, then anything that is wrong, then an issue that needs a decision, then evidence
  // that failed or an issue that can be repaired; and the Candidate is accepted in all other cases.  The
  // reason is that of the first rule which decides.
  lemma {:induction false} DecisionExactly(i: Input, checkerDigest: nat)
    requires BundleIsExact(i.authority.bundle, checkerDigest)
    ensures IssueDecision(i, checkerDigest).Some?
    ensures var (decision, reason) := IssueDecision(i, checkerDigest).value;
      if EngineFailed(i) then decision == ERROR && reason == REQUIRED_EVIDENCE_ENGINE_ERROR
      else if IsBlocked(i) then decision == REJECT_BLOCKED && IsFirstWrong(i, reason)
      else if HasIssue(i, NEEDS_DECISION) then decision == AWAIT_DECISION && reason == PENDING_ISSUE_NEEDS_DECISION
      else if EvidenceFails(i) then decision == REJECT_REPAIRABLE && reason == REQUIRED_EVIDENCE_FAILED_REPAIRABLE
      else if HasIssue(i, REPAIRABLE) then decision == REJECT_REPAIRABLE && reason == REPAIRABLE_PENDING_ISSUE
      else decision == ACCEPT && reason == ALL_APPLICABLE_RULES_PASSED
  {
    var rs, o := EvaluateRules(i, checkerDigest), DecidingOutcome(i);
    ResultsExactly(i, checkerDigest);
    SeverestResult(i, rs);
    AggregateExactly(rs);
    OutcomeOccurs(i, rs);
    var k := FirstExists(rs, o);
    ReasonExactly(rs, k);
    if o == FAIL_BLOCKED {
      BlocksExactly(i, rs);
    } else if o != PASS {
      OtherOutcomes(i, rs, o);
      EvidenceTable(i);
      IssueTable(i);
    }
  }

  lemma {:induction false} OutcomeOccurs(i: Input, rs: seq<RuleResult>)
    requires ResultsAre(i, rs)
    ensures Has(rs, DecidingOutcome(i))
  {
    SeverestResult(i, rs);
  }

  // ---- Compiled inputs ----

  // Nothing in the authority is later than the input.
  predicate IsKnownAt(a: Authority, createdAt: int) {
    && a.workflow.updatedAt <= createdAt && a.generation.updatedAt <= createdAt
    && (forall o | o in a.obligations :: o.createdAt <= createdAt)
    && (forall e | e in a.currentEvidence :: e.record.recordedAt <= createdAt && e.eligibility.changedAt <= createdAt)
    && (forall x | x in a.pendingIssues :: x.createdAt <= createdAt && (x.resolvedAt.Some? ==> x.resolvedAt.value <= createdAt))
  }

  // The issues are all about the current Goal, with ids of their own.
  ghost predicate AreOfTheGoal(a: Authority) {
    && (forall x | x in a.pendingIssues :: x.goalId == a.goal.id && x.goalRevision == a.goal.revision)
    && (forall i, j | 0 <= i < j < |a.pendingIssues| :: a.pendingIssues[i].id != a.pendingIssues[j].id)
  }

  // The Workflow, the Candidate and the Evidence Set are those of one final verification.
  predicate AreOfOneVerification(a: Authority) {
    var g, s := a.generation, a.evidenceSet;
    && (a.workflow.goalId, a.workflow.goalRevision) == (a.goal.id, a.goal.revision) == (s.goalId, s.goalRevision)
    && a.workflow.phase == W.FINAL_VERIFY && a.workflow.activeCandidateGenerationId == Some(g.id)
    && g.state == C.FROZEN && g.frozenDigest == Some(s.candidateDigest) && s.candidateGenerationId == g.id
  }

  lemma {:induction false} PredatesIs(a: Authority, createdAt: int)
    ensures Predates(a, createdAt) <==> !IsKnownAt(a, createdAt)
  {
    assert (forall o | o in a.obligations :: o.createdAt <= createdAt) <==> forall k | 0 <= k < |a.obligations| :: a.obligations[k].createdAt <= createdAt;
  }

  lemma {:induction false} IssuesAre(a: Authority)
    ensures BuildIssueSet(a.goal, a.pendingIssues).Some? <==> AreOfTheGoal(a)
  {
    var sorted := SortBy(a.pendingIssues, IssueId);
    SortIs(a.pendingIssues, IssueId);
    StrictlySortedExactly(a.pendingIssues, IssueId);
    NeighboursExactly(sorted);
  }

  lemma {:induction false} NeighboursExactly(sorted: seq<PendingIssue>)
    ensures (forall k | 0 < k < |sorted| :: Less(sorted[k - 1].id, sorted[k].id)) <==> StrictlyOrdered(sorted, IssueId)
  {
    if forall k | 0 < k < |sorted| :: Less(sorted[k - 1].id, sorted[k].id) {
      forall i, j | 0 <= i < j < |sorted| ensures Less(IssueId(sorted[i]), IssueId(sorted[j])) { NeighboursOrder(sorted, i, j); }
    }
    if StrictlyOrdered(sorted, IssueId) {
      forall k | 0 < k < |sorted| ensures Less(sorted[k - 1].id, sorted[k].id) { assert Less(IssueId(sorted[k - 1]), IssueId(sorted[k])); }
    }
  }

  lemma {:induction false} NeighboursOrder(sorted: seq<PendingIssue>, i: nat, j: nat)
    requires i < j < |sorted| && forall k | 0 < k < |sorted| :: Less(sorted[k - 1].id, sorted[k].id)
    ensures Less(sorted[i].id, sorted[j].id)
    decreases j
  {
    if i < j - 1 {
      NeighboursOrder(sorted, i, j - 1);
      LessTransitive(sorted[i].id, sorted[j - 1].id, sorted[j].id);
    }
  }

  // An input is compiled exactly from an authority of one final verification without retained facts or
  // decisions, nothing of which is later than the input, with an acceptable policy, a verified Evidence Set
  // and the exact bundle.
  lemma {:induction false} CompilesExactly(a: Authority, createdAt: int, checkerDigest: nat, verified: bool)
    ensures Compile(a, createdAt, checkerDigest, verified).Some? <==>
      && a.retainedFactCount == 0 && a.retainedDecisionCount == 0 && IsKnownAt(a, createdAt) && AreOfOneVerification(a)
      && PolicyOf(a).Some? && verified && BundleIsExact(a.bundle, checkerDigest) && AreOfTheGoal(a)
  {
    PredatesIs(a, createdAt);
    IssuesAre(a);
  }

  // What an issue of the authority has to do with the decision.
  ghost predicate IsPending(a: Authority, repairability: Repairability) {
    exists x :: x in a.pendingIssues && x.open && x.blocking && x.repairability == repairability &&
      (x.candidateGenerationId == None || x.candidateGenerationId == Some(a.generation.id))
  }

  lemma {:induction false} CompiledRules(a: Authority, createdAt: int, checkerDigest: nat, verified: bool)
    requires Compile(a, createdAt, checkerDigest, verified).Some?
    ensures IsSound(Compile(a, createdAt, checkerDigest, verified).value, a, checkerDigest)
  {
    var i := Compile(a, createdAt, checkerDigest, verified).value;
    CompiledIsConsistent(a, createdAt, checkerDigest, verified);
    assert i.manifest.candidateGenerationId == a.generation.id;
    forall x ensures x in i.issues <==> x in a.pendingIssues { CompiledIssues(a, createdAt, checkerDigest, verified, x); }
    forall reason ensures IsWrong(i, reason) <==>
      || (reason == REQUIRED_EVIDENCE_MISSING_OR_STALE && EvidenceOutcome(i) == FAIL_BLOCKED)
      || (reason == BLOCKING_PENDING_ISSUE && HasIssue(i, BLOCKED))
    {
      NothingElseIsWrong(i, checkerDigest, reason);
    }
  }

  lemma {:induction false} NothingElseIsWrong(i: Input, checkerDigest: nat, reason: Reason)
    requires Consistent(i, checkerDigest)
    ensures IsWrong(i, reason) <==>
      || (reason == REQUIRED_EVIDENCE_MISSING_OR_STALE && EvidenceOutcome(i) == FAIL_BLOCKED)
      || (reason == BLOCKING_PENDING_ISSUE && HasIssue(i, BLOCKED))
  {
    ObligationsPassIs(i.authority);
  }

  // The evidence is missing, stale or a mere observation.
  ghost predicate EvidenceIsBlocked(i: Input) {
    || !RefsAreCurrent(i) || LacksEvidence(i)
    || (!EngineFailed(i) && !Reports(i, ResultStatus.FAILED) && Reports(i, OBSERVED))
  }

  // Of the evidence and the issues the more severe decides, the evidence when they are equally severe.
  ghost function DecisionTable(i: Input, a: Authority): (Decision, Reason) {
    if EngineFailed(i) then (ERROR, REQUIRED_EVIDENCE_ENGINE_ERROR)
    else if EvidenceIsBlocked(i) then (REJECT_BLOCKED, REQUIRED_EVIDENCE_MISSING_OR_STALE)
    else if IsPending(a, BLOCKED) then (REJECT_BLOCKED, BLOCKING_PENDING_ISSUE)
    else if IsPending(a, NEEDS_DECISION) then (AWAIT_DECISION, PENDING_ISSUE_NEEDS_DECISION)
    else if EvidenceFails(i) then (REJECT_REPAIRABLE, REQUIRED_EVIDENCE_FAILED_REPAIRABLE)
    else if IsPending(a, REPAIRABLE) then (REJECT_REPAIRABLE, REPAIRABLE_PENDING_ISSUE)
    else (ACCEPT, ALL_APPLICABLE_RULES_PASSED)
  }

  // All that can be wrong is the evidence or an issue.
  ghost predicate IsSound(i: Input, a: Authority, checkerDigest: nat) {
    && BundleIsExact(i.authority.bundle, checkerDigest)
    && (forall r :: HasIssue(i, r) <==> IsPending(a, r))
    && (forall reason :: IsWrong(i, reason) <==>
         || (reason == REQUIRED_EVIDENCE_MISSING_OR_STALE && EvidenceOutcome(i) == FAIL_BLOCKED)
         || (reason == BLOCKING_PENDING_ISSUE && IsPending(a, BLOCKED)))
  }

  lemma {:induction false} BlockedEvidence(i: Input)
    ensures EvidenceOutcome(i) == FAIL_BLOCKED <==> EvidenceIsBlocked(i)
  {
    EvidenceTable(i);
  }

  lemma {:induction false} SoundDecision(i: Input, a: Authority, checkerDigest: nat)
    requires IsSound(i, a, checkerDigest)
    ensures IssueDecision(i, checkerDigest) == Some(DecisionTable(i, a))
  {
    DecisionExactly(i, checkerDigest);
    BlockedEvidence(i);
    assert IsWrong(i, REQUIRED_EVIDENCE_MISSING_OR_STALE) <==> EvidenceIsBlocked(i);
    assert IsWrong(i, BLOCKING_PENDING_ISSUE) <==> IsPending(a, BLOCKED);
  }

  // The decision on an authority that compiles.
  lemma {:induction false} CompiledDecision(a: Authority, createdAt: int, checkerDigest: nat, verified: bool)
    requires Compile(a, createdAt, checkerDigest, verified).Some?
    ensures var i := Compile(a, createdAt, checkerDigest, verified).value;
      IssueDecision(i, checkerDigest) == Some(DecisionTable(i, a))
  {
    CompiledRules(a, createdAt, checkerDigest, verified);
    SoundDecision(Compile(a, createdAt, checkerDigest, verified).value, a, checkerDigest);
  }

  // The evidence behind an acceptance: every obligation is mapped to evidence, and each of it vouches for
  // the obligation and passed.
  ghost predicate IsProven(i: Input, o: Obligation) {
    (exists id :: IsMappedTo(i, o, id)) && forall id | IsMappedTo(i, o, id) :: HasEvidence(i, o, id, PASSED)
  }

  lemma {:induction false} OneResult(i: Input, o: Obligation, id: Id, r: ResultStatus, s: ResultStatus)
    requires HasEvidence(i, o, id, r) && HasEvidence(i, o, id, s)
    ensures r == s
  {
    StatusIs(i, o, id, r);
    StatusIs(i, o, id, s);
  }

  lemma {:induction false} ProvenExactly(i: Input)
    ensures !EngineFailed(i) && !EvidenceIsBlocked(i) && !EvidenceFails(i) <==>
      RefsAreCurrent(i) && forall o | o in i.authority.obligations :: IsProven(i, o)
  {
    if RefsAreCurrent(i) && forall o | o in i.authority.obligations :: IsProven(i, o) {
      forall o | o in i.authority.obligations ensures !Lacks(i, o) {
        assert IsProven(i, o);
        forall id | IsMappedTo(i, o, id) ensures exists s :: HasEvidence(i, o, id, s) { assert HasEvidence(i, o, id, PASSED); }
      }
      forall s | Reports(i, s) ensures s == PASSED {
        var o, id :| o in i.authority.obligations && IsMappedTo(i, o, id) && HasEvidence(i, o, id, s);
        assert IsProven(i, o);
        OneResult(i, o, id, s, PASSED);
      }
    }
    if !EngineFailed(i) && !EvidenceIsBlocked(i) && !EvidenceFails(i) {
      forall o | o in i.authority.obligations ensures IsProven(i, o) {
        assert !Lacks(i, o);
        forall id | IsMappedTo(i, o, id) ensures HasEvidence(i, o, id, PASSED) {
          var s :| HasEvidence(i, o, id, s);
          assert Reports(i, s);
          assert s == PASSED || s == OBSERVED || s == ResultStatus.FAILED || s == RUNNER_ERROR || s == TIMEOUT;
        }
      }
    }
  }

  lemma {:induction false} NonePending(a: Authority)
    ensures (forall r :: !IsPending(a, r)) <==> !IsPending(a, BLOCKED) && !IsPending(a, NEEDS_DECISION) && !IsPending(a, REPAIRABLE)
  {
    forall r | IsPending(a, r) ensures r == BLOCKED || r == NEEDS_DECISION || r == REPAIRABLE { }
  }

  // An authority that compiles is accepted exactly when every reference is current, every obligation is
  // proven, and no open blocking issue applies.
  lemma {:induction false} AcceptedDirectly(a: Authority, createdAt: int, checkerDigest: nat, verified: bool)
    requires Compile(a, createdAt, checkerDigest, verified).Some?
    ensures var i := Compile(a, createdAt, checkerDigest, verified).value;
      IssueDecision(i, checkerDigest) == Some((ACCEPT, ALL_APPLICABLE_RULES_PASSED)) <==>
        && RefsAreCurrent(i) && (forall o | o in i.authority.obligations :: IsProven(i, o))
        && forall r :: !IsPending(a, r)
  {
    var i := Compile(a, createdAt, checkerDigest, verified).value;
    CompiledDecision(a, createdAt, checkerDigest, verified);
    ProvenExactly(i);
    NonePending(a);
  }

  // ---- The policy and the bundle ----

  // The checks of the authority are those of a policy: the built-in freeze check, and the built-in verification
  // or a local command bound to the frozen Candidate.
  predicate ChecksFit(a: Authority) {
    && IsBuiltIn(a.freezeCheck, a.generation) && a.freezeCheck.kind == CANDIDATE_FREEZE
    && match a.verificationCheck.kind
       case FAKE_VERIFICATION => IsBuiltIn(a.verificationCheck, a.generation) && a.verificationCheck.id != a.freezeCheck.id
       case LOCAL_COMMAND => IsBound(a.verificationCheck, a.generation)
       case CANDIDATE_FREEZE => false
  }

  // The obligations were all created at one time, under a built-in policy with the generation.
  predicate ObligationsFit(a: Authority) {
    && |a.obligations| > 0 && AllDiffer(a.obligations)
    && var at := if a.verificationCheck.kind == LOCAL_COMMAND then a.obligations[0].createdAt else a.generation.createdAt;
       forall o | o in a.obligations :: IsOf(o, a.goal, a.generation, a.verificationCheck, at)
  }

  // The policy of an authority whose Goal has distinct criteria is accepted exactly with fitting checks and one
  // fitting obligation for each required criterion.
  lemma {:induction false} PolicyExactly(a: Authority)
    requires Distinct(Required(a.goal.successCriteria))
    ensures PolicyOf(a).Some? <==> ChecksFit(a) && ObligationsFit(a) && |a.obligations| == |Required(a.goal.successCriteria)|
    ensures PolicyOf(a).Some? ==>
      && PolicyOf(a).value.freeze == a.freezeCheck && PolicyOf(a).value.verification == a.verificationCheck
      && OneEach(Required(a.goal.successCriteria), a.obligations, PolicyOf(a).value.obligations)
  {
    var policy := Policy(a.freezeCheck, a.verificationCheck, a.obligations);
    if a.obligations != [] {
      var at := if a.verificationCheck.kind == LOCAL_COMMAND then a.obligations[0].createdAt else a.generation.createdAt;
      assert PolicyOf(a) == ValidatePolicy(a.goal, a.generation, policy, at);
      PoliciesExactly(a.goal, a.generation, policy, at);
      if PolicyOf(a).Some? { AcceptedPoliciesCoverTheGoal(a.goal, a.generation, policy, at); }
    } else {
      PoliciesExactly(a.goal, a.generation, policy, a.generation.createdAt);
    }
  }

  // The bundle has the eight rules in their order and the one checker.
  lemma {:induction false} BundleExactly(b: Bundle, checkerDigest: nat)
    ensures BundleIsExact(b, checkerDigest) <==>
      && |b.acceptanceRules| == 8 && |b.checkers| == 1
      && (b.acceptanceRules[0], b.acceptanceRules[1], b.acceptanceRules[2]) ==
           (WORKFLOW_FINAL_VERIFY, GOAL_REVISION_CURRENT, CANDIDATE_CURRENT_FROZEN)
      && (b.acceptanceRules[3], b.acceptanceRules[4], b.acceptanceRules[5]) ==
           (CANDIDATE_DIGEST_CURRENT, REQUIRED_OBLIGATIONS_PRESENT, REQUIRED_EVIDENCE_PASSING)
      && (b.acceptanceRules[6], b.acceptanceRules[7]) == (PENDING_ISSUES_CLEAR, MANIFEST_POLICY_CURRENT)
      && (b.checkers[0].id, b.checkers[0].version, b.checkers[0].digest) == (Ascii("codeclosure.m1.acceptance"), Ascii("m1.1"), checkerDigest)
  {
  }
}
