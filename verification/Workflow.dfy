// packages/domain/src/workflow.ts and model.ts: the Workflow, its guarded phase transitions, and the
// pair of deciding on a command and applying the event.  Identifiers and timestamps are opaque
// numbers; a failed assertion is None or Throw.
module Workflow {
  import opened Options
  import opened CodeUnits
  import opened SafeIntegers
  import opened Sequences

  type Id = nat

  datatype Phase = DISCOVERY | PLAN | IMPLEMENT | SOURCE_FREEZE | EVIDENCE_BUILD | FINAL_VERIFY | CLOSEOUT

  datatype RunStatus = READY | RUNNING | WAITING_FOR_INPUT | BLOCKED | FAILED | CANCELLED | CLOSED

  datatype Guard =
    | GOAL_REVISION_CURRENT | PROJECT_IDENTITY_RECORDED | DISCOVERY_COMPLETE | REQUIRED_UNKNOWNS_RESOLVED
    | SCENARIOS_RESOLVED | PLAN_CURRENT | CHANGE_BOUNDARY_EXPLICIT | OBLIGATIONS_MAPPED | PLAN_POLICY_PASSED
    | NO_PLANNING_BLOCKER | CANDIDATE_GENERATION_PREPARED | MUTABLE_CANDIDATE_CURRENT | WORKER_QUIESCENT
    | CHANGE_SET_ENUMERATED | PROHIBITED_EFFECTS_ABSENT | FREEZE_REQUESTED | NO_WRITE_CAPABLE_WORKER
    | FREEZE_IDENTITY_STABLE | CHANGE_IDENTITY_RECORDED | FROZEN_DIGEST_PERSISTED | INTEGRITY_POLICY_PASSED
    | REQUIRED_EVIDENCE_ACCOUNTED | EVIDENCE_BINDINGS_CURRENT | CLEANUP_PROVEN | SOURCE_DIGEST_CURRENT
    | CURRENT_ACCEPTANCE | REJECT_REPAIRABLE_RECORDED

  datatype GuardOutcome = PASS | FAIL | UNKNOWN

  datatype GuardResult = GuardResult(guard: Guard, outcome: GuardOutcome, reasonCode: Text, supportingRefs: seq<Text>)

  datatype Rejection =
    | WORKFLOW_ID_MISMATCH | STALE_VERSION | TERMINAL_WORKFLOW | RUN_STATUS_NOT_READY | ILLEGAL_TRANSITION
    | DUPLICATE_GUARD | UNEXPECTED_GUARD | MISSING_GUARD | FAILED_GUARD | GUARD_MISSING_SUPPORT
    | MISSING_ACTIVE_CANDIDATE | MISSING_NEXT_CANDIDATE | CANDIDATE_GENERATION_REUSE | UNEXPECTED_NEXT_CANDIDATE
    | INVALID_TIMESTAMP_ORDER | EMPTY_REASON

  datatype Decision<E, R> = Accept(event: E) | Reject(rejection: R) | Throw

  datatype Workflow = Workflow(
    id: Id,
    goalId: Id,
    goalRevision: nat,
    phase: Phase,
    runStatus: RunStatus,
    version: nat,
    activeAttemptId: Option<Id>,
    activeCandidateGenerationId: Option<Id>,
    suspendedReason: Option<Text>,
    createdAt: int,
    updatedAt: int)

  predicate IsVersion(n: int) { 1 <= n <= MAX_SAFE_INTEGER }

  // The next version, or None where `workflowVersion` throws.
  function NextVersion(n: nat): Option<nat> { if IsVersion(n + 1) then Some(n + 1) else None }

  // ---- Guards ----

  function RequiredGuards(from: Phase, to: Phase): Option<seq<Guard>> {
    match (from, to)
    case (DISCOVERY, PLAN) => Some([GOAL_REVISION_CURRENT, PROJECT_IDENTITY_RECORDED, DISCOVERY_COMPLETE,
      REQUIRED_UNKNOWNS_RESOLVED, SCENARIOS_RESOLVED])
    case (PLAN, IMPLEMENT) => Some([PLAN_CURRENT, CHANGE_BOUNDARY_EXPLICIT, OBLIGATIONS_MAPPED, PLAN_POLICY_PASSED,
      NO_PLANNING_BLOCKER, CANDIDATE_GENERATION_PREPARED])
    case (IMPLEMENT, SOURCE_FREEZE) => Some([MUTABLE_CANDIDATE_CURRENT, WORKER_QUIESCENT, CHANGE_SET_ENUMERATED,
      PROHIBITED_EFFECTS_ABSENT, FREEZE_REQUESTED])
    case (SOURCE_FREEZE, EVIDENCE_BUILD) => Some([NO_WRITE_CAPABLE_WORKER, FREEZE_IDENTITY_STABLE,
      CHANGE_IDENTITY_RECORDED, FROZEN_DIGEST_PERSISTED, INTEGRITY_POLICY_PASSED])
    case (EVIDENCE_BUILD, FINAL_VERIFY) => Some([REQUIRED_EVIDENCE_ACCOUNTED, EVIDENCE_BINDINGS_CURRENT, CLEANUP_PROVEN,
      SOURCE_DIGEST_CURRENT])
    case (FINAL_VERIFY, CLOSEOUT) => Some([CURRENT_ACCEPTANCE])
    case (FINAL_VERIFY, IMPLEMENT) => Some([REJECT_REPAIRABLE_RECORDED, CANDIDATE_GENERATION_PREPARED])
    case _ => None
  }

  datatype GuardValidation = Valid(results: seq<GuardResult>) | Invalid(code: Rejection, guard: Guard)

  predicate HasBlankMetadata(r: GuardResult) {
    AllWhitespace(r.reasonCode) || exists i | 0 <= i < |r.supportingRefs| :: AllWhitespace(r.supportingRefs[i])
  }

  // The fault that the loop over the supplied results finds in one of them.
  function SuppliedFault(required: seq<Guard>, seen: set<Guard>, r: GuardResult): Option<Rejection> {
    if HasBlankMetadata(r) then Some(GUARD_MISSING_SUPPORT)
    else if r.guard in seen then Some(DUPLICATE_GUARD)
    else if r.guard !in required then Some(UNEXPECTED_GUARD)
    else None
  }

  // The fault that the loop over the required guards finds in one of them.
  function RequiredFault(byGuard: map<Guard, GuardResult>, guard: Guard): Option<Rejection> {
    if guard !in byGuard then Some(MISSING_GUARD)
    else if byGuard[guard].outcome != PASS then Some(FAILED_GUARD)
    else if byGuard[guard].supportingRefs == [] then Some(GUARD_MISSING_SUPPORT)
    else None
  }

  function Order(required: seq<Guard>, byGuard: map<Guard, GuardResult>, ordered: seq<GuardResult>): GuardValidation
    decreases |required|
  {
    if required == [] then Valid(ordered)
    else if RequiredFault(byGuard, required[0]).Some? then Invalid(RequiredFault(byGuard, required[0]).value, required[0])
    else Order(required[1..], byGuard, ordered + [byGuard[required[0]]])
  }

  function Collect(required: seq<Guard>, actual: seq<GuardResult>, byGuard: map<Guard, GuardResult>): GuardValidation
    decreases |actual|
  {
    if actual == [] then Order(required, byGuard, []) else
    var fault := SuppliedFault(required, byGuard.Keys, actual[0]);
    if fault.Some? then Invalid(fault.value, actual[0].guard)
    else Collect(required, actual[1..], byGuard[actual[0].guard := actual[0]])
  }

  function ValidateGuards(required: seq<Guard>, actual: seq<GuardResult>): GuardValidation {
    Collect(required, actual, map[])
  }

  method ValidateGuardResults(required: seq<Guard>, actual: seq<GuardResult>) returns (r: GuardValidation)
    ensures r == ValidateGuards(required, actual)
  {
    var requiredSet := set guard | guard in required;
    var byGuard: map<Guard, GuardResult> := map[];
    var i := 0;
    while i < |actual|
      invariant i <= |actual|
      invariant Collect(required, actual[i..], byGuard) == ValidateGuards(required, actual)
    {
      var result := actual[i];
      if HasBlankMetadata(result) { return Invalid(GUARD_MISSING_SUPPORT, result.guard); }
      if result.guard in byGuard { return Invalid(DUPLICATE_GUARD, result.guard); }
      if result.guard !in requiredSet { return Invalid(UNEXPECTED_GUARD, result.guard); }
      byGuard := byGuard[result.guard := result];
      i := i + 1;
    }
    var ordered: seq<GuardResult> := [];
    var k := 0;
    while k < |required|
      invariant k <= |required|
      invariant Order(required[k..], byGuard, ordered) == ValidateGuards(required, actual)
    {
      var guard := required[k];
      if guard !in byGuard { return Invalid(MISSING_GUARD, guard); }
      var result := byGuard[guard];
      if result.outcome != PASS { return Invalid(FAILED_GUARD, guard); }
      if |result.supportingRefs| == 0 { return Invalid(GUARD_MISSING_SUPPORT, guard); }
      ordered := ordered + [result];
      k := k + 1;
    }
    return Valid(ordered);
  }

  // ---- What a valid set of guard results is ----

  predicate Passes(r: GuardResult) { !HasBlankMetadata(r) && r.outcome == PASS && |r.supportingRefs| > 0 }

  function GuardsOf(actual: seq<GuardResult>): seq<Guard> {
    seq(|actual|, i requires 0 <= i < |actual| => actual[i].guard)
  }

  // Exactly one passing result for each required guard, and nothing else.
  predicate WellGuarded(required: seq<Guard>, actual: seq<GuardResult>) {
    && Distinct(GuardsOf(actual))
    && (forall guard :: guard in GuardsOf(actual) <==> guard in required)
    && (forall r | r in actual :: Passes(r))
  }

  // The result for each required guard, in the order of the requirement.
  predicate InOrder(required: seq<Guard>, actual: seq<GuardResult>, results: seq<GuardResult>) {
    && |results| == |required|
    && forall k | 0 <= k < |required| :: results[k] in actual && results[k].guard == required[k]
  }

  lemma {:induction false} OrderIs(required: seq<Guard>, byGuard: map<Guard, GuardResult>, ordered: seq<GuardResult>)
    ensures var v := Order(required, byGuard, ordered);
      && (v.Valid? <==> forall k | 0 <= k < |required| :: RequiredFault(byGuard, required[k]).None?)
      && (v.Valid? ==> |v.results| == |ordered| + |required| && v.results[..|ordered|] == ordered)
      && (v.Valid? ==>
           forall k | 0 <= k < |required| :: required[k] in byGuard && v.results[|ordered| + k] == byGuard[required[k]])
    decreases |required|
  {
    if required != [] && RequiredFault(byGuard, required[0]).None? {
      var more := ordered + [byGuard[required[0]]];
      OrderIs(required[1..], byGuard, more);
      var v := Order(required, byGuard, ordered);
      if v.Valid? {
        assert v.results[..|ordered|] == v.results[..|more|][..|ordered|];
        assert v.results[|ordered|] == v.results[..|more|][|ordered|];
        forall k | 0 <= k < |required|
          ensures required[k] in byGuard && v.results[|ordered| + k] == byGuard[required[k]]
        {
          if k > 0 { assert required[1..][k - 1] == required[k]; }
        }
      }
      assert (forall k | 0 <= k < |required| :: RequiredFault(byGuard, required[k]).None?) <==>
        (forall k | 0 <= k < |required[1..]| :: RequiredFault(byGuard, required[1..][k]).None?) by {
        assert forall k | 0 < k < |required| :: required[1..][k - 1] == required[k];
      }
    }
  }

  // What the first loop has collected.
  ghost predicate Collected(required: seq<Guard>, done: seq<GuardResult>, byGuard: map<Guard, GuardResult>) {
    && Distinct(GuardsOf(done))
    && (forall i | 0 <= i < |done| :: done[i].guard in byGuard && byGuard[done[i].guard] == done[i])
    && (forall guard | guard in byGuard :: byGuard[guard] in done && byGuard[guard].guard == guard && guard in required)
    && (forall r | r in done :: !HasBlankMetadata(r))
  }

  lemma {:induction false} CollectIs(required: seq<Guard>, done: seq<GuardResult>, rest: seq<GuardResult>, byGuard: map<Guard, GuardResult>)
    requires Collected(required, done, byGuard)
    ensures var v := Collect(required, rest, byGuard);
      && (v.Valid? <==> WellGuarded(required, done + rest))
      && (v.Valid? ==> InOrder(required, done + rest, v.results))
    decreases |rest|
  {
    if rest == [] {
      assert done + rest == done;
      CollectedAll(required, done, byGuard);
    } else {
      var r := rest[0];
      assert done + rest == (done + [r]) + rest[1..];
      if SuppliedFault(required, byGuard.Keys, r).None? {
        CollectedMore(required, done, r, byGuard);
        CollectIs(required, done + [r], rest[1..], byGuard[r.guard := r]);
      } else {
        FaultIsFatal(required, done, rest, byGuard);
      }
    }
  }

  lemma {:induction false} CollectedAll(required: seq<Guard>, done: seq<GuardResult>, byGuard: map<Guard, GuardResult>)
    requires Collected(required, done, byGuard)
    ensures var v := Order(required, byGuard, []);
      (v.Valid? <==> WellGuarded(required, done)) && (v.Valid? ==> InOrder(required, done, v.results))
  {
    OrderIs(required, byGuard, []);
    if Order(required, byGuard, []).Valid? { CollectedSuffices(required, done, byGuard); }
    if WellGuarded(required, done) {
      forall k | 0 <= k < |required| ensures RequiredFault(byGuard, required[k]).None? {
        CollectedIsNeeded(required, done, byGuard, k);
      }
    }
    var v, none: seq<GuardResult> := Order(required, byGuard, []), [];
    if v.Valid? {
      forall k | 0 <= k < |required| ensures v.results[k] in done && v.results[k].guard == required[k] {
        assert v.results[|none| + k] == byGuard[required[k]];
      }
    }
  }

  lemma {:induction false} CollectedIsNeeded(required: seq<Guard>, done: seq<GuardResult>, byGuard: map<Guard, GuardResult>, k: nat)
    requires Collected(required, done, byGuard) && WellGuarded(required, done) && k < |required|
    ensures RequiredFault(byGuard, required[k]).None?
  {
    assert required[k] in GuardsOf(done);
    var i :| 0 <= i < |done| && GuardsOf(done)[i] == required[k];
    assert done[i] in done && Passes(done[i]);
  }

  lemma {:induction false} CollectedSuffices(required: seq<Guard>, done: seq<GuardResult>, byGuard: map<Guard, GuardResult>)
    requires Collected(required, done, byGuard)
    requires forall k | 0 <= k < |required| :: RequiredFault(byGuard, required[k]).None?
    ensures WellGuarded(required, done)
  {
    var guards := GuardsOf(done);
    forall guard ensures guard in guards <==> guard in required {
      if guard in guards {
        var i :| 0 <= i < |done| && guards[i] == guard;
        assert done[i].guard in byGuard;
      }
      if guard in required {
        var k :| 0 <= k < |required| && required[k] == guard;
        var i :| 0 <= i < |done| && done[i] == byGuard[guard];
        assert guards[i] == guard;
      }
    }
    forall i | 0 <= i < |done| ensures Passes(done[i]) {
      assert done[i].guard in byGuard;
      var k :| 0 <= k < |required| && required[k] == done[i].guard;
      assert RequiredFault(byGuard, required[k]).None? && done[i] in done;
    }
  }

  lemma {:induction false} CollectedMore(required: seq<Guard>, done: seq<GuardResult>, r: GuardResult, byGuard: map<Guard, GuardResult>)
    requires Collected(required, done, byGuard) && SuppliedFault(required, byGuard.Keys, r).None?
    ensures Collected(required, done + [r], byGuard[r.guard := r])
  {
    var more, guards := done + [r], GuardsOf(done + [r]);
    forall i, j | 0 <= i < j < |guards| ensures guards[i] != guards[j] {
      assert GuardsOf(done)[i] == done[i].guard;
      if j < |done| { assert GuardsOf(done)[j] == done[j].guard; }
    }
  }

  lemma {:induction false} FaultIsFatal(required: seq<Guard>, done: seq<GuardResult>, rest: seq<GuardResult>, byGuard: map<Guard, GuardResult>)
    requires Collected(required, done, byGuard) && rest != [] && SuppliedFault(required, byGuard.Keys, rest[0]).Some?
    ensures !WellGuarded(required, done + rest)
  {
    var all, r := done + rest, rest[0];
    var guards := GuardsOf(all);
    assert all[|done|] == r && r in all && guards[|done|] == r.guard && r.guard in guards;
    if r.guard in byGuard {
      var i :| 0 <= i < |done| && done[i] == byGuard[r.guard];
      assert guards[i] == all[i].guard == r.guard;
    }
  }

  // The loops accept exactly the well-guarded sets of results, and put them in order.
  lemma {:induction false} GuardsValidExactly(required: seq<Guard>, actual: seq<GuardResult>)
    ensures ValidateGuards(required, actual).Valid? <==> WellGuarded(required, actual)
    ensures ValidateGuards(required, actual).Valid? ==> InOrder(required, actual, ValidateGuards(required, actual).results)
  {
    CollectIs(required, [], actual, map[]);
    assert [] + actual == actual;
  }

  // ---- Validation is stable, and does not depend on the order of the results ----

  lemma {:induction false} ResultsAreUnique(actual: seq<GuardResult>, a: GuardResult, b: GuardResult)
    requires Distinct(GuardsOf(actual)) && a in actual && b in actual && a.guard == b.guard
    ensures a == b
  {
    var i :| 0 <= i < |actual| && actual[i] == a;
    var j :| 0 <= j < |actual| && actual[j] == b;
    assert GuardsOf(actual)[i] == GuardsOf(actual)[j];
  }

  lemma {:induction false} RequiredIsDistinct(from: Phase, to: Phase)
    requires RequiredGuards(from, to).Some?
    ensures Distinct(RequiredGuards(from, to).value) && RequiredGuards(from, to).value != []
  {
  }

  lemma {:induction false} InOrderIsWellGuarded(required: seq<Guard>, actual: seq<GuardResult>, results: seq<GuardResult>)
    requires Distinct(required) && WellGuarded(required, actual) && InOrder(required, actual, results)
    ensures WellGuarded(required, results)
  {
    assert GuardsOf(results) == required;
  }

  // What was validated validates again, to the same results.
  lemma {:induction false} RevalidationChangesNothing(required: seq<Guard>, actual: seq<GuardResult>)
    requires Distinct(required) && ValidateGuards(required, actual).Valid?
    ensures ValidateGuards(required, ValidateGuards(required, actual).results) == ValidateGuards(required, actual)
  {
    GuardsValidExactly(required, actual);
    var results := ValidateGuards(required, actual).results;
    InOrderIsWellGuarded(required, actual, results);
    GuardsValidExactly(required, results);
    var again := ValidateGuards(required, results).results;
    forall k | 0 <= k < |required| ensures again[k] == results[k] {
      ResultsAreUnique(results, again[k], results[k]);
    }
  }

  lemma {:induction false} GuardsAreKeys(actual: seq<GuardResult>)
    ensures Distinct(GuardsOf(actual)) <==> DistinctBy(actual, (r: GuardResult) => r.guard)
  {
    var key := (r: GuardResult) => r.guard;
    if DistinctBy(actual, key) {
      forall i, j | 0 <= i < j < |actual| ensures GuardsOf(actual)[i] != GuardsOf(actual)[j] {
        assert key(actual[i]) != key(actual[j]);
      }
    }
    if Distinct(GuardsOf(actual)) {
      forall i, j | 0 <= i < j < |actual| ensures key(actual[i]) != key(actual[j]) {
        assert GuardsOf(actual)[i] != GuardsOf(actual)[j];
      }
    }
  }

  lemma {:induction false} PermutationIsWellGuarded(required: seq<Guard>, a: seq<GuardResult>, b: seq<GuardResult>)
    requires multiset(a) == multiset(b) && WellGuarded(required, a)
    ensures WellGuarded(required, b)
  {
    GuardsAreKeys(a);
    GuardsAreKeys(b);
    PermutationIsDistinct(a, b, (r: GuardResult) => r.guard);
    assert forall r :: r in a <==> r in multiset(a);
    assert forall r :: r in b <==> r in multiset(b);
    forall guard ensures guard in GuardsOf(b) <==> guard in GuardsOf(a) {
      if guard in GuardsOf(a) {
        var i :| 0 <= i < |a| && GuardsOf(a)[i] == guard;
        assert a[i] in b;
        var j :| 0 <= j < |b| && b[j] == a[i];
        assert GuardsOf(b)[j] == guard;
      }
      if guard in GuardsOf(b) {
        var i :| 0 <= i < |b| && GuardsOf(b)[i] == guard;
        assert b[i] in a;
        var j :| 0 <= j < |a| && a[j] == b[i];
        assert GuardsOf(a)[j] == guard;
      }
    }
  }

  // Any permutation of the results is valid too, with the same outcome.
  lemma {:induction false} OrderDoesNotMatter(required: seq<Guard>, a: seq<GuardResult>, b: seq<GuardResult>)
    requires multiset(a) == multiset(b) && ValidateGuards(required, a).Valid?
    ensures ValidateGuards(required, b) == ValidateGuards(required, a)
  {
    GuardsValidExactly(required, a);
    PermutationIsWellGuarded(required, a, b);
    GuardsValidExactly(required, b);
    var ra, rb := ValidateGuards(required, a).results, ValidateGuards(required, b).results;
    assert forall r :: r in b <==> r in multiset(b);
    forall k | 0 <= k < |required| ensures ra[k] == rb[k] { ResultsAreUnique(a, ra[k], rb[k]); }
  }

  // ---- When the order of rejected results matters ----

  // Two results for the guard that are not blank.
  ghost predicate SuppliedTwice(supplied: multiset<GuardResult>, guard: Guard) {
    exists r, q :: r in supplied && q in supplied && r.guard == q.guard == guard && (r != q || supplied[r] >= 2) &&
      !HasBlankMetadata(r) && !HasBlankMetadata(q)
  }

  // What the loop over the supplied results can find in some order of them.
  ghost predicate CanFault(required: seq<Guard>, supplied: multiset<GuardResult>, v: GuardValidation) {
    v.Invalid? &&
    match v.code
    case GUARD_MISSING_SUPPORT => exists r :: r in supplied && r.guard == v.guard && HasBlankMetadata(r)
    case UNEXPECTED_GUARD => v.guard !in required && exists r :: r in supplied && r.guard == v.guard && !HasBlankMetadata(r)
    case DUPLICATE_GUARD => v.guard in required && SuppliedTwice(supplied, v.guard)
    case _ => false
  }

  ghost predicate Faultless(required: seq<Guard>, supplied: multiset<GuardResult>) {
    forall v :: !CanFault(required, supplied, v)
  }

  ghost predicate AtMostOneFault(required: seq<Guard>, supplied: multiset<GuardResult>) {
    forall v, w | CanFault(required, supplied, v) && CanFault(required, supplied, w) :: v == w
  }

  lemma {:induction false} CollectedIsFaultless(required: seq<Guard>, done: seq<GuardResult>, byGuard: map<Guard, GuardResult>)
    requires Collected(required, done, byGuard)
    ensures Faultless(required, multiset(done))
  {
    GuardsAreKeys(done);
    forall r | r in multiset(done) ensures !HasBlankMetadata(r) && r.guard in required && byGuard[r.guard] == r && multiset(done)[r] < 2 {
      assert r in done;
      OccursOnce(done, (x: GuardResult) => x.guard, r);
    }
  }

  lemma {:induction false} FaultIsPossible(required: seq<Guard>, done: seq<GuardResult>, rest: seq<GuardResult>, byGuard: map<Guard, GuardResult>)
    requires Collected(required, done, byGuard) && rest != [] && SuppliedFault(required, byGuard.Keys, rest[0]).Some?
    ensures CanFault(required, multiset(done + rest), Invalid(SuppliedFault(required, byGuard.Keys, rest[0]).value, rest[0].guard))
  {
    var r, all := rest[0], multiset(done) + multiset(rest);
    assert multiset(done + rest) == all && r in rest && r in all;
    if r.guard in byGuard && !HasBlankMetadata(r) {
      var q := byGuard[r.guard];
      assert q in done && q in all && !HasBlankMetadata(q);
      assert r == q ==> all[r] >= 2 by { assert multiset(done)[q] >= 1 && multiset(rest)[r] >= 1; }
    }
  }

  // The loop finds one of the faults that it can find, if there are any; otherwise it collects them all.
  lemma {:induction false} CollectOutcome(
    required: seq<Guard>, all: seq<GuardResult>, done: seq<GuardResult>, rest: seq<GuardResult>, byGuard: map<Guard, GuardResult>)
    returns (collected: map<Guard, GuardResult>)
    requires Collected(required, done, byGuard) && all == done + rest
    ensures var v := Collect(required, rest, byGuard);
      if Faultless(required, multiset(all)) then Collected(required, all, collected) && v == Order(required, collected, [])
      else CanFault(required, multiset(all), v)
    decreases |rest|
  {
    collected := byGuard;
    if rest == [] {
      assert all == done;
      CollectedIsFaultless(required, done, byGuard);
    } else if SuppliedFault(required, byGuard.Keys, rest[0]).Some? {
      FaultIsPossible(required, done, rest, byGuard);
    } else {
      MoveOne(all, done, rest);
      CollectedMore(required, done, rest[0], byGuard);
      collected := CollectOutcome(required, all, done + [rest[0]], rest[1..], byGuard[rest[0].guard := rest[0]]);
    }
  }

  lemma {:induction false} CollectedAlike(
    required: seq<Guard>, a: seq<GuardResult>, b: seq<GuardResult>, x: map<Guard, GuardResult>, y: map<Guard, GuardResult>)
    requires multiset(a) == multiset(b) && Collected(required, a, x) && Collected(required, b, y)
    ensures x == y
  {
    forall r ensures r in a <==> r in b { SameMembers(a, b, r); }
    forall guard | guard in x ensures guard in y && y[guard] == x[guard] { assert x[guard] in b; }
    forall guard | guard in y ensures guard in x { assert y[guard] in a; }
  }

  lemma {:induction false} BroughtForward(a: seq<GuardResult>, r: GuardResult) returns (rest: seq<GuardResult>)
    requires r in a
    ensures multiset([r] + rest) == multiset(a) && multiset(rest) == multiset(a) - multiset{r}
  {
    var i :| 0 <= i < |a| && a[i] == r;
    rest := a[..i] + a[i + 1..];
    assert a == a[..i] + [r] + a[i + 1..];
  }

  // Each fault that can be found is found first in some order.
  lemma {:induction false} FoundFirst(required: seq<Guard>, a: seq<GuardResult>, v: GuardValidation) returns (b: seq<GuardResult>)
    requires CanFault(required, multiset(a), v)
    ensures multiset(b) == multiset(a) && ValidateGuards(required, b) == v
  {
    if v.code == DUPLICATE_GUARD {
      var r, q :| r in multiset(a) && q in multiset(a) && r.guard == q.guard == v.guard && (r != q || multiset(a)[r] >= 2) &&
        !HasBlankMetadata(r) && !HasBlankMetadata(q);
      var rest := BroughtForward(a, r);
      assert q in multiset(rest);
      var others := BroughtForward(rest, q);
      b := [r] + ([q] + others);
      assert b[1..] == [q] + others && multiset(b) == multiset{r} + multiset([q] + others);
      assert Collect(required, b, map[]) == Collect(required, [q] + others, map[v.guard := r]);
    } else {
      var r :| r in multiset(a) && r.guard == v.guard && HasBlankMetadata(r) == (v.code == GUARD_MISSING_SUPPORT);
      var rest := BroughtForward(a, r);
      b := [r] + rest;
    }
  }

  // All orders of the results have the same outcome exactly when at most one fault can be found among
  // them by the loop over the supplied results.
  lemma {:induction false} OrderMattersExactly(required: seq<Guard>, a: seq<GuardResult>)
    ensures (forall b | multiset(b) == multiset(a) :: ValidateGuards(required, b) == ValidateGuards(required, a)) <==>
      AtMostOneFault(required, multiset(a))
  {
    if AtMostOneFault(required, multiset(a)) {
      forall b | multiset(b) == multiset(a) ensures ValidateGuards(required, b) == ValidateGuards(required, a) {
        SameOutcome(required, a, b);
      }
    } else {
      var v, w :| CanFault(required, multiset(a), v) && CanFault(required, multiset(a), w) && v != w;
      var one := FoundFirst(required, a, v);
      var two := FoundFirst(required, a, w);
      assert ValidateGuards(required, one) != ValidateGuards(required, two);
    }
  }

  lemma {:induction false} SameOutcome(required: seq<Guard>, a: seq<GuardResult>, b: seq<GuardResult>)
    requires multiset(b) == multiset(a) && AtMostOneFault(required, multiset(a))
    ensures ValidateGuards(required, b) == ValidateGuards(required, a)
  {
    assert [] + a == a && [] + b == b;
    var x := CollectOutcome(required, a, [], a, map[]);
    var y := CollectOutcome(required, b, [], b, map[]);
    if Faultless(required, multiset(a)) { CollectedAlike(required, a, b, x, y); }
  }

  // So it matters for a blank result of one guard and a result of another that is not required.
  lemma {:induction false} OrderDecidesTheFault(required: seq<Guard>, supplied: seq<GuardResult>, a: GuardResult, b: GuardResult)
    returns (one: seq<GuardResult>, two: seq<GuardResult>)
    requires a in supplied && b in supplied && HasBlankMetadata(a) && !HasBlankMetadata(b) && b.guard !in required
    ensures multiset(one) == multiset(supplied) && ValidateGuards(required, one) == Invalid(GUARD_MISSING_SUPPORT, a.guard)
    ensures multiset(two) == multiset(supplied) && ValidateGuards(required, two) == Invalid(UNEXPECTED_GUARD, b.guard)
  {
    assert a in multiset(supplied) && b in multiset(supplied);
    one := FoundFirst(required, supplied, Invalid(GUARD_MISSING_SUPPORT, a.guard));
    two := FoundFirst(required, supplied, Invalid(UNEXPECTED_GUARD, b.guard));
  }

  // ---- Invariant, decision, application ----

  predicate RequiresCandidate(phase: Phase) {
    phase == IMPLEMENT || phase == SOURCE_FREEZE || phase == EVIDENCE_BUILD || phase == FINAL_VERIFY
  }

  predicate WorkflowInv(w: Workflow) {
    && IsVersion(w.goalRevision) && IsVersion(w.version)
    && w.createdAt <= w.updatedAt
    && (w.phase == CLOSEOUT <==> w.runStatus == CLOSED)
    && (w.runStatus == RUNNING <==> w.activeAttemptId.Some?)
    && (RequiresCandidate(w.phase) || w.phase == CLOSEOUT ==> w.activeCandidateGenerationId.Some?)
    && (w.suspendedReason.Some? ==> !AllWhitespace(w.suspendedReason.value))
  }

  predicate IsTerminal(w: Workflow) { w.runStatus == CANCELLED || w.runStatus == CLOSED }

  datatype WorkflowCommand = WorkflowCommand(
    commandId: Id,
    workflowId: Id,
    expectedVersion: nat,
    occurredAt: int,
    reason: Text,
    request: Request)

  datatype Request =
    | PhaseTransition(requestedPhase: Phase, guardResults: seq<GuardResult>, nextCandidate: Option<Id>)
    | Cancel
    | FailIntegrity

  datatype WorkflowEvent = WorkflowEvent(
    commandId: Id,
    workflowId: Id,
    phase: Phase,
    fromVersion: nat,
    toVersion: nat,
    reason: Text,
    occurredAt: int,
    effect: Effect)

  datatype Effect =
    | Transitioned(toPhase: Phase, guardResults: seq<GuardResult>, nextCandidate: Option<Id>)
    | Cancelled(interruptedAttemptId: Option<Id>)
    | IntegrityFailed

  function CommandFault(w: Workflow, c: WorkflowCommand): Option<Rejection> {
    if c.workflowId != w.id then Some(WORKFLOW_ID_MISMATCH)
    else if c.expectedVersion != w.version then Some(STALE_VERSION)
    else if IsTerminal(w) then Some(TERMINAL_WORKFLOW)
    else if Trim(c.reason) == [] then Some(EMPTY_REASON)
    else if c.occurredAt < w.updatedAt then Some(INVALID_TIMESTAMP_ORDER)
    else None
  }

  function DecideTransition(w: Workflow, r: Request): Decision<Effect, Rejection>
    requires r.PhaseTransition?
  {
    var required := RequiredGuards(w.phase, r.requestedPhase);
    var entersImplement := r.requestedPhase == IMPLEMENT;
    if w.runStatus != READY then Reject(RUN_STATUS_NOT_READY)
    else if required.None? then Reject(ILLEGAL_TRANSITION)
    else if RequiresCandidate(w.phase) && w.activeCandidateGenerationId.None? then Reject(MISSING_ACTIVE_CANDIDATE)
    else if entersImplement && r.nextCandidate.None? then Reject(MISSING_NEXT_CANDIDATE)
    else if entersImplement && w.activeCandidateGenerationId.Some? && r.nextCandidate == w.activeCandidateGenerationId
    then Reject(CANDIDATE_GENERATION_REUSE)
    else if !entersImplement && r.nextCandidate.Some? then Reject(UNEXPECTED_NEXT_CANDIDATE)
    else
      match ValidateGuards(required.value, r.guardResults)
      case Invalid(code, _) => Reject(code)
      case Valid(results) => Accept(Transitioned(r.requestedPhase, results, r.nextCandidate))
  }

  function DecideEffect(w: Workflow, r: Request): Decision<Effect, Rejection> {
    match r
    case Cancel => Accept(Cancelled(w.activeAttemptId))
    case FailIntegrity =>
      if w.runStatus != READY || w.activeAttemptId.Some? then Reject(RUN_STATUS_NOT_READY) else Accept(IntegrityFailed)
    case PhaseTransition(_, _, _) => DecideTransition(w, r)
  }

  function DecideWorkflow(w: Workflow, c: WorkflowCommand): Decision<WorkflowEvent, Rejection> {
    if !WorkflowInv(w) then Throw
    else if CommandFault(w, c).Some? then Reject(CommandFault(w, c).value)
    else if NextVersion(w.version).None? then Throw
    else
      match DecideEffect(w, c.request)
      case Reject(code) => Reject(code)
      case Throw => Throw
      case Accept(effect) =>
        Accept(WorkflowEvent(c.commandId, w.id, w.phase, w.version, w.version + 1, Trim(c.reason), c.occurredAt, effect))
  }

  function Checked(w: Workflow): Option<Workflow> { if WorkflowInv(w) then Some(w) else None }

  function ApplyTransition(w: Workflow, e: WorkflowEvent): Option<Workflow>
    requires e.effect.Transitioned?
  {
    var to, next := e.effect.toPhase, e.effect.nextCandidate;
    var required := RequiredGuards(e.phase, to);
    if w.runStatus != READY || w.activeAttemptId.Some? || required.None? ||
       ValidateGuards(required.value, e.effect.guardResults).Invalid? ||
       (RequiresCandidate(w.phase) && w.activeCandidateGenerationId.None?) ||
       (to == IMPLEMENT && (next.None? || next == w.activeCandidateGenerationId)) ||
       (to != IMPLEMENT && next.Some?)
    then None
    else Checked(w.(phase := to, runStatus := if to == CLOSEOUT then CLOSED else READY, version := e.toVersion,
                    updatedAt := e.occurredAt,
                    activeCandidateGenerationId := if next.Some? then next else w.activeCandidateGenerationId))
  }

  function ApplyWorkflowEvent(w: Workflow, e: WorkflowEvent): Option<Workflow> {
    if !WorkflowInv(w) || e.workflowId != w.id || e.fromVersion != w.version || NextVersion(w.version) != Some(e.toVersion) ||
       Trim(e.reason) == [] || e.occurredAt < w.updatedAt || IsTerminal(w) || e.phase != w.phase
    then None
    else
      match e.effect
      case Cancelled(interrupted) =>
        if interrupted != w.activeAttemptId then None
        else Checked(w.(runStatus := CANCELLED, version := e.toVersion, activeAttemptId := None,
                        suspendedReason := Some(e.reason), updatedAt := e.occurredAt))
      case IntegrityFailed =>
        if w.runStatus != READY || w.activeAttemptId.Some? then None
        else Checked(w.(runStatus := RunStatus.FAILED, version := e.toVersion, activeAttemptId := None,
                        suspendedReason := Some(e.reason), updatedAt := e.occurredAt))
      case Transitioned(_, _, _) => ApplyTransition(w, e)
  }

  function CreateWorkflow(id: Id, goalId: Id, goalRevision: nat, createdAt: int): Option<Workflow> {
    Checked(Workflow(id, goalId, goalRevision, DISCOVERY, READY, 1, None, None, None, createdAt, createdAt))
  }

  lemma {:induction false} TransitionsRevalidate(w: Workflow, r: Request)
    requires r.PhaseTransition? && DecideTransition(w, r).Accept?
    ensures var required, e := RequiredGuards(w.phase, r.requestedPhase), DecideTransition(w, r).event;
      && required.Some? && e.toPhase == r.requestedPhase
      && ValidateGuards(required.value, e.guardResults) == Valid(e.guardResults)
  {
    RequiredIsDistinct(w.phase, r.requestedPhase);
    RevalidationChangesNothing(RequiredGuards(w.phase, r.requestedPhase).value, r.guardResults);
  }

  // Every accepted command gives an event that applies, to a valid Workflow at the next version.
  lemma {:induction false} WorkflowDecisionsApply(w: Workflow, c: WorkflowCommand)
    requires DecideWorkflow(w, c).Accept?
    ensures var next := ApplyWorkflowEvent(w, DecideWorkflow(w, c).event);
      next.Some? && WorkflowInv(next.value) && next.value.version == w.version + 1 && next.value.updatedAt == c.occurredAt
  {
    TrimKeeps(c.reason);
    TrimKeeps(Trim(c.reason));
    if c.request.PhaseTransition? { TransitionsRevalidate(w, c.request); }
  }

  // ---- Nothing applies that would not have been accepted ----

  // The command whose event this is.
  function CommandOf(e: WorkflowEvent): WorkflowCommand {
    WorkflowCommand(e.commandId, e.workflowId, e.fromVersion, e.occurredAt, e.reason,
      match e.effect
      case Cancelled(_) => Cancel
      case IntegrityFailed => FailIntegrity
      case Transitioned(to, results, next) => PhaseTransition(to, results, next))
  }

  // The event as it is decided: with its reason trimmed and its guard results in order.
  function Normalized(e: WorkflowEvent): WorkflowEvent { e.(reason := Trim(e.reason), effect := NormalizedEffect(e.phase, e.effect)) }

  function NormalizedEffect(phase: Phase, f: Effect): Effect {
    if f.Transitioned? && RequiredGuards(phase, f.toPhase).Some? then
      match ValidateGuards(RequiredGuards(phase, f.toPhase).value, f.guardResults)
      case Valid(results) => f.(guardResults := results)
      case Invalid(_, _) => f
    else f
  }

  lemma {:induction false} TransitionAppliesExactly(w: Workflow, e: WorkflowEvent)
    requires e.effect.Transitioned? && WorkflowInv(w) && e.phase == w.phase && w.updatedAt <= e.occurredAt && IsVersion(e.toVersion)
    ensures ApplyTransition(w, e).Some? <==> DecideTransition(w, CommandOf(e).request) == Accept(NormalizedEffect(e.phase, e.effect))
  {
    var required := RequiredGuards(w.phase, e.effect.toPhase);
    if required.Some? && ValidateGuards(required.value, e.effect.guardResults).Valid? {
      assert w.phase != CLOSEOUT && w.runStatus != CLOSED;
    }
  }

  // An event applies exactly when deciding on its command gives that very event.
  lemma {:induction false} AppliesExactly(w: Workflow, e: WorkflowEvent)
    ensures ApplyWorkflowEvent(w, e).Some? <==> DecideWorkflow(w, CommandOf(e)) == Accept(Normalized(e))
  {
    TrimKeeps(e.reason);
    if WorkflowInv(w) && CommandFault(w, CommandOf(e)).None? && NextVersion(w.version) == Some(e.toVersion) && e.phase == w.phase {
      if e.effect.Transitioned? { TransitionAppliesExactly(w, e); }
    }
  }
}
