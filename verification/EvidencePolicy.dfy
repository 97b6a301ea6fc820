// packages/runtime/src/candidate-evidence-policy.ts: the Verification Obligations of a Candidate are
// exactly one per required success criterion.  Decoded values are well typed; a thrown TypeError is
// None.
module EvidencePolicy {
  import opened Options
  import opened CodeUnits
  import opened Sequences
  import C = Candidate

  type Id = Text

  datatype Criterion = Criterion(id: Id, required: bool)

  datatype Goal = Goal(id: Id, revision: nat, successCriteria: seq<Criterion>)

  // What is used of a Candidate generation.  Digests are opaque numbers; identifiers are texts here,
  // since references and sorted lists are built from them.
  datatype GenerationRef = GenerationRef(
    id: Id, workspaceIdentity: Text, state: C.CandidateState, frozenDigest: Option<nat>, createdAt: int, updatedAt: int)

  datatype CheckKind = CANDIDATE_FREEZE | FAKE_VERIFICATION | LOCAL_COMMAND

  datatype EvidenceKind = TEST_RESULT | LOCAL_COMMAND_TEST_RESULT | OTHER_EVIDENCE

  // The fields that only a local command has are optional.
  datatype CheckSpec = CheckSpec(
    id: Id,
    version: Text,
    kind: CheckKind,
    producerType: Text,
    producerIdentity: Text,
    operation: Text,
    cwdIdentity: Text,
    inputRefs: seq<Text>,
    environmentPolicy: Text,
    timeoutMilliseconds: int,
    outputLimitBytes: int,
    observationSchema: Text,
    cleanupPolicy: Text,
    candidateGenerationId: Option<Id>,
    candidateDigest: Option<nat>)
  {
    function Ref(): Text { id + Ascii("@") + version }
  }

  datatype Obligation = Obligation(
    id: Id,
    goalId: Id,
    goalRevision: nat,
    candidateGenerationId: Id,
    sourceCriterionRefs: seq<Id>,
    scenarioRefs: seq<Text>,
    checkSpecRef: Text,
    requiredEvidenceKind: EvidenceKind,
    strength: Text,
    createdAt: int)

  datatype Policy = Policy(freeze: CheckSpec, verification: CheckSpec, obligations: seq<Obligation>)

  function Required(criteria: seq<Criterion>): seq<Id> {
    if criteria == [] then []
    else (if criteria[0].required then [criteria[0].id] else []) + Required(criteria[1..])
  }

  function ScenarioOf(criterionId: Id): Text { Ascii("criterion:") + criterionId }

  // What all obligations of one policy have in common.
  datatype Family = Family(
    goalId: Id, goalRevision: nat, generationId: Id, checkSpecRef: Text, evidenceKind: EvidenceKind, strength: Text, createdAt: int)

  predicate Fits(o: Obligation, f: Family, criterionId: Id) {
    && o.goalId == f.goalId && o.goalRevision == f.goalRevision && o.candidateGenerationId == f.generationId
    && o.sourceCriterionRefs == [criterionId] && o.scenarioRefs == [ScenarioOf(criterionId)]
    && o.checkSpecRef == f.checkSpecRef && o.requiredEvidenceKind == f.evidenceKind && o.strength == f.strength
    && o.createdAt == f.createdAt
  }

  // ---- The loop over the obligations ----

  predicate Admits(required: seq<Id>, f: Family, o: Obligation, seen: set<Id>, byCriterion: map<Id, Obligation>) {
    && |o.sourceCriterionRefs| == 1 && o.sourceCriterionRefs[0] in required
    && o.id !in seen && o.sourceCriterionRefs[0] !in byCriterion
    && Fits(o, f, o.sourceCriterionRefs[0])
  }

  function Collect(required: seq<Id>, f: Family, os: seq<Obligation>, seen: set<Id>, byCriterion: map<Id, Obligation>):
    Option<map<Id, Obligation>>
    decreases |os|
  {
    if os == [] then Some(byCriterion)
    else if !Admits(required, f, os[0], seen, byCriterion) then None
    else Collect(required, f, os[1..], seen + {os[0].id}, byCriterion[os[0].sourceCriterionRefs[0] := os[0]])
  }

  // The obligations in the order of their criteria, or None for a criterion without one.
  function InOrder(required: seq<Id>, byCriterion: map<Id, Obligation>): Option<seq<Obligation>> {
    if forall k | 0 <= k < |required| :: required[k] in byCriterion
    then Some(seq(|required|, k requires 0 <= k < |required| && required[k] in byCriterion => byCriterion[required[k]]))
    else None
  }

  function ValidateObligations(goal: Goal, f: Family, os: seq<Obligation>): Option<seq<Obligation>> {
    var required := Required(goal.successCriteria);
    if required == [] || |os| != |required| then None else
    var collected := Collect(required, f, os, {}, map[]);
    if collected.None? then None else InOrder(required, collected.value)
  }

  method ValidateMapping(goal: Goal, f: Family, os: seq<Obligation>) returns (ordered: Option<seq<Obligation>>)
    ensures ordered == ValidateObligations(goal, f, os)
  {
    var required := Required(goal.successCriteria);
    if |required| == 0 { return None; }
    if |os| != |required| { return None; }
    var seenIdentifiers: set<Id> := {};
    var byCriterion: map<Id, Obligation> := map[];
    var i := 0;
    while i < |os|
      invariant i <= |os|
      invariant Collect(required, f, os[i..], seenIdentifiers, byCriterion) == Collect(required, f, os, {}, map[])
    {
      var o := os[i];
      if |o.sourceCriterionRefs| != 1 || o.sourceCriterionRefs[0] !in required || o.id in seenIdentifiers ||
         o.sourceCriterionRefs[0] in byCriterion || !Fits(o, f, o.sourceCriterionRefs[0]) {
        return None;
      }
      seenIdentifiers := seenIdentifiers + {o.id};
      byCriterion := byCriterion[o.sourceCriterionRefs[0] := o];
      i := i + 1;
    }
    var result: seq<Obligation> := [];
    var k := 0;
    while k < |required|
      invariant k <= |required| == |os|
      invariant Collect(required, f, os, {}, map[]) == Some(byCriterion)
      invariant forall j | 0 <= j < k :: required[j] in byCriterion
      invariant |result| == k && forall j | 0 <= j < k :: result[j] == byCriterion[required[j]]
    {
      if required[k] !in byCriterion { return None; }
      result := result + [byCriterion[required[k]]];
      k := k + 1;
    }
    assert result == InOrder(required, byCriterion).value;
    return Some(result);
  }

  // ---- What a valid mapping is ----

  // The obligations have distinct ids, and each fits a required criterion of its own.
  ghost predicate OnePerCriterion(required: seq<Id>, f: Family, os: seq<Obligation>) {
    && (forall i, j | 0 <= i < j < |os| :: os[i].id != os[j].id)
    && (forall i | 0 <= i < |os| :: |os[i].sourceCriterionRefs| == 1 && os[i].sourceCriterionRefs[0] in required &&
         Fits(os[i], f, os[i].sourceCriterionRefs[0]))
    && (forall i, j | 0 <= i < j < |os| :: os[i].sourceCriterionRefs != os[j].sourceCriterionRefs)
  }

  ghost predicate Collected(required: seq<Id>, f: Family, done: seq<Obligation>, seen: set<Id>, byCriterion: map<Id, Obligation>) {
    && OnePerCriterion(required, f, done)
    && (forall x :: x in seen <==> exists i :: 0 <= i < |done| && done[i].id == x)
    && Maps(required, done, byCriterion)
  }

  // The map leads from each criterion to its obligation.
  ghost predicate Maps(required: seq<Id>, done: seq<Obligation>, byCriterion: map<Id, Obligation>) {
    && (forall i | 0 <= i < |done| :: |done[i].sourceCriterionRefs| == 1 &&
         done[i].sourceCriterionRefs[0] in byCriterion && byCriterion[done[i].sourceCriterionRefs[0]] == done[i])
    && (forall c | c in byCriterion :: byCriterion[c] in done && byCriterion[c].sourceCriterionRefs == [c] && c in required)
    && |byCriterion| == |done|
  }

  // The loop gets through exactly when all the obligations fit, and its map leads to each of them.
  ghost predicate CollectsAll(required: seq<Id>, f: Family, all: seq<Obligation>, r: Option<map<Id, Obligation>>) {
    (r.Some? <==> OnePerCriterion(required, f, all)) && (r.Some? ==> Maps(required, all, r.value))
  }

  lemma {:induction false} CollectIs(
    required: seq<Id>, f: Family, all: seq<Obligation>, done: seq<Obligation>, os: seq<Obligation>, seen: set<Id>,
    byCriterion: map<Id, Obligation>)
    requires all == done + os && Collected(required, f, done, seen, byCriterion)
    ensures CollectsAll(required, f, all, Collect(required, f, os, seen, byCriterion))
    decreases |os|
  {
    if os == [] {
      assert all == done;
    } else if Admits(required, f, os[0], seen, byCriterion) {
      CollectedMore(required, f, done, os[0], seen, byCriterion);
      MoveOne(all, done, os);
      CollectIs(required, f, all, done + [os[0]], os[1..], seen + {os[0].id}, byCriterion[os[0].sourceCriterionRefs[0] := os[0]]);
    } else {
      NotAdmitted(required, f, done, os, seen, byCriterion);
    }
  }

  lemma {:induction false} CollectedMore(
    required: seq<Id>, f: Family, done: seq<Obligation>, o: Obligation, seen: set<Id>, byCriterion: map<Id, Obligation>)
    requires Collected(required, f, done, seen, byCriterion) && Admits(required, f, o, seen, byCriterion)
    ensures Collected(required, f, done + [o], seen + {o.id}, byCriterion[o.sourceCriterionRefs[0] := o])
  {
    var more := done + [o];
    OneMore(required, f, done, o);
    MapsMore(required, done, o, byCriterion);
    forall x ensures x in seen + {o.id} <==> exists i :: 0 <= i < |more| && more[i].id == x { SeenMore(done, o, x); }
  }

  lemma {:induction false} SeenMore(done: seq<Obligation>, o: Obligation, x: Id)
    ensures var more := done + [o];
      (exists i :: 0 <= i < |more| && more[i].id == x) <==> (exists i :: 0 <= i < |done| && done[i].id == x) || x == o.id
  {
    var more := done + [o];
    assert more[|done|].id == o.id;
    if i :| 0 <= i < |done| && done[i].id == x { assert more[i].id == x; }
    if i :| 0 <= i < |more| && more[i].id == x {
      if i < |done| { assert done[i].id == x; }
    }
  }

  lemma {:induction false} OneMore(required: seq<Id>, f: Family, done: seq<Obligation>, o: Obligation)
    requires OnePerCriterion(required, f, done)
    requires |o.sourceCriterionRefs| == 1 && o.sourceCriterionRefs[0] in required && Fits(o, f, o.sourceCriterionRefs[0])
    requires forall i | 0 <= i < |done| :: done[i].id != o.id && done[i].sourceCriterionRefs != o.sourceCriterionRefs
    ensures OnePerCriterion(required, f, done + [o])
  {
  }

  lemma {:induction false} MapsMore(required: seq<Id>, done: seq<Obligation>, o: Obligation, byCriterion: map<Id, Obligation>)
    requires Maps(required, done, byCriterion)
    requires |o.sourceCriterionRefs| == 1 && o.sourceCriterionRefs[0] in required && o.sourceCriterionRefs[0] !in byCriterion
    ensures Maps(required, done + [o], byCriterion[o.sourceCriterionRefs[0] := o])
  {
    var more, key := done + [o], o.sourceCriterionRefs[0];
    assert o in more;
    forall c | c in byCriterion ensures byCriterion[c] in more { assert byCriterion[c] in done; }
    assert o.sourceCriterionRefs == [key];
  }

  lemma {:induction false} NotAdmitted(
    required: seq<Id>, f: Family, done: seq<Obligation>, os: seq<Obligation>, seen: set<Id>, byCriterion: map<Id, Obligation>)
    requires Collected(required, f, done, seen, byCriterion) && os != [] && !Admits(required, f, os[0], seen, byCriterion)
    ensures !OnePerCriterion(required, f, done + os)
  {
    var o, all := os[0], done + os;
    assert all[|done|] == o;
    if o.id in seen {
      var i :| 0 <= i < |done| && done[i].id == o.id;
      assert all[i].id == all[|done|].id;
    } else if |o.sourceCriterionRefs| == 1 && o.sourceCriterionRefs[0] in byCriterion {
      var i :| 0 <= i < |done| && done[i] == byCriterion[o.sourceCriterionRefs[0]];
      assert all[i].sourceCriterionRefs == o.sourceCriterionRefs;
    }
  }

  // ---- One obligation for each required criterion ----

  // By counting: as many criteria as obligations, and no criterion taken twice.
  lemma {:induction false} NoCriterionIsLeftOut(required: seq<Id>, os: seq<Obligation>, byCriterion: map<Id, Obligation>)
    requires Distinct(required) && |os| == |required| && Maps(required, os, byCriterion)
    ensures InOrder(required, byCriterion).Some?
  {
    DistinctCount(required);
    assert byCriterion.Keys <= SetOf(required);
    SameSizeSubset(byCriterion.Keys, SetOf(required));
    forall k | 0 <= k < |required| ensures required[k] in byCriterion { assert required[k] in SetOf(required); }
  }

  // In criterion order, one obligation each; and the same obligations as given.
  ghost predicate OneEach(required: seq<Id>, os: seq<Obligation>, ordered: seq<Obligation>) {
    && |ordered| == |required|
    && (forall k | 0 <= k < |required| :: ordered[k] in os && ordered[k].sourceCriterionRefs == [required[k]])
    && multiset(ordered) == multiset(os)
  }

  lemma {:induction false} DifferentSingletons(a: Id, b: Id)
    requires a != b
    ensures [a] != [b]
  {
    var x: seq<Id>, y: seq<Id> := [a], [b];
    assert x[0] != y[0];
  }

  lemma {:induction false} OrderedHasAll(required: seq<Id>, os: seq<Obligation>, byCriterion: map<Id, Obligation>, o: Obligation)
    requires Maps(required, os, byCriterion) && InOrder(required, byCriterion).Some?
    ensures o in os <==> o in InOrder(required, byCriterion).value
  {
    var ordered := InOrder(required, byCriterion).value;
    if o in os {
      var i :| 0 <= i < |os| && os[i] == o;
      var c := o.sourceCriterionRefs[0];
      assert c in byCriterion && c in required;
      var k :| 0 <= k < |required| && required[k] == c;
      assert ordered[k] == byCriterion[c] == o;
    }
    if o in ordered {
      var k :| 0 <= k < |ordered| && ordered[k] == o;
      assert byCriterion[required[k]] in os;
    }
  }

  lemma {:induction false} OrderedIsPermutation(required: seq<Id>, f: Family, os: seq<Obligation>, byCriterion: map<Id, Obligation>)
    requires Distinct(required) && |os| == |required| && OnePerCriterion(required, f, os) && Maps(required, os, byCriterion)
    requires InOrder(required, byCriterion).Some?
    ensures OneEach(required, os, InOrder(required, byCriterion).value)
  {
    var ordered := InOrder(required, byCriterion).value;
    var key := (o: Obligation) => o.sourceCriterionRefs;
    forall k | 0 <= k < |required| ensures ordered[k] in os && ordered[k].sourceCriterionRefs == [required[k]] {
      assert ordered[k] == byCriterion[required[k]];
    }
    forall i, j | 0 <= i < j < |ordered| ensures key(ordered[i]) != key(ordered[j]) {
      DifferentSingletons(required[i], required[j]);
    }
    forall o ensures o in os <==> o in ordered { OrderedHasAll(required, os, byCriterion, o); }
    assert DistinctBy(os, key);
    SameMembersPermute(os, ordered, key);
  }

  // There is only one way to order the obligations by criterion.
  lemma {:induction false} OneOrder(required: seq<Id>, f: Family, os: seq<Obligation>, x: seq<Obligation>, y: seq<Obligation>)
    requires OnePerCriterion(required, f, os) && |x| == |required| == |y|
    requires forall k | 0 <= k < |required| :: x[k] in os && x[k].sourceCriterionRefs == [required[k]]
    requires forall k | 0 <= k < |required| :: y[k] in os && y[k].sourceCriterionRefs == [required[k]]
    ensures x == y
  {
    var refs := (o: Obligation) => o.sourceCriterionRefs;
    assert DistinctBy(os, refs);
    forall k | 0 <= k < |required| ensures x[k] == y[k] { UniqueBy(os, refs, x[k], y[k]); }
  }

  // For a Goal with distinct criteria: the validation succeeds exactly when there are required criteria
  // and just as many obligations, distinct and each fitting a criterion of its own; then it returns one
  // for each criterion, in the order of the criteria.
  lemma {:induction false} ObligationBijection(goal: Goal, f: Family, os: seq<Obligation>)
    requires Distinct(Required(goal.successCriteria))
    ensures var required, r := Required(goal.successCriteria), ValidateObligations(goal, f, os);
      && (r.Some? <==> required != [] && |os| == |required| && OnePerCriterion(required, f, os))
      && (r.Some? ==> OneEach(required, os, r.value))
  {
    var required := Required(goal.successCriteria);
    if required != [] && |os| == |required| { CollectedBijection(required, f, os); }
  }

  lemma {:induction false} CollectedBijection(required: seq<Id>, f: Family, os: seq<Obligation>)
    requires Distinct(required) && |os| == |required|
    ensures var collected := Collect(required, f, os, {}, map[]);
      && (collected.Some? <==> OnePerCriterion(required, f, os))
      && (collected.Some? ==>
           && InOrder(required, collected.value).Some?
           && OneEach(required, os, InOrder(required, collected.value).value))
  {
    CollectIs(required, f, os, [], os, {}, map[]);
    var collected := Collect(required, f, os, {}, map[]);
    if collected.Some? {
      NoCriterionIsLeftOut(required, os, collected.value);
      OrderedIsPermutation(required, f, os, collected.value);
    }
  }

  // Whatever the criteria, an accepted mapping lists an obligation for each of them in order.
  lemma {:induction false} ValidatedIsInOrder(goal: Goal, f: Family, os: seq<Obligation>)
    requires ValidateObligations(goal, f, os).Some?
    ensures var required, r := Required(goal.successCriteria), ValidateObligations(goal, f, os).value;
      && required != [] && |r| == |required|
      && (forall k | 0 <= k < |required| :: r[k] in os && r[k].sourceCriterionRefs == [required[k]])
  {
    var required := Required(goal.successCriteria);
    CollectIs(required, f, os, [], os, {}, map[]);
    OrderedFits(required, os, Collect(required, f, os, {}, map[]).value);
  }

  lemma {:induction false} OrderedFits(required: seq<Id>, os: seq<Obligation>, byCriterion: map<Id, Obligation>)
    requires Maps(required, os, byCriterion) && InOrder(required, byCriterion).Some?
    ensures var r := InOrder(required, byCriterion).value;
      |r| == |required| && forall k | 0 <= k < |required| :: r[k] in os && r[k].sourceCriterionRefs == [required[k]]
  {
    var r := InOrder(required, byCriterion).value;
    forall k | 0 <= k < |required| ensures r[k] in os && r[k].sourceCriterionRefs == [required[k]] {
      assert required[k] in byCriterion;
    }
  }

  // The exception for a criterion without an obligation is never thrown.
  lemma {:induction false} NoObligationIsMissing(goal: Goal, f: Family, os: seq<Obligation>)
    requires var required := Required(goal.successCriteria);
      Distinct(required) && |os| == |required| && Collect(required, f, os, {}, map[]).Some?
    ensures var required := Required(goal.successCriteria);
      InOrder(required, Collect(required, f, os, {}, map[]).value).Some?
  {
    CollectedBijection(Required(goal.successCriteria), f, os);
  }

  lemma {:induction false} PermutationIsOnePerCriterion(required: seq<Id>, f: Family, a: seq<Obligation>, b: seq<Obligation>)
    requires multiset(a) == multiset(b) && OnePerCriterion(required, f, a)
    ensures OnePerCriterion(required, f, b)
  {
    var id, refs := (o: Obligation) => o.id, (o: Obligation) => o.sourceCriterionRefs;
    assert DistinctBy(a, id) && DistinctBy(a, refs);
    PermutationIsDistinct(a, b, id);
    PermutationIsDistinct(a, b, refs);
    forall i, j | 0 <= i < j < |b| ensures b[i].id != b[j].id && b[i].sourceCriterionRefs != b[j].sourceCriterionRefs {
      assert id(b[i]) != id(b[j]) && refs(b[i]) != refs(b[j]);
    }
    forall i | 0 <= i < |b| ensures |b[i].sourceCriterionRefs| == 1 && b[i].sourceCriterionRefs[0] in required &&
      Fits(b[i], f, b[i].sourceCriterionRefs[0])
    {
      SameMembers(a, b, b[i]);
    }
  }

  // The order of the obligations does not matter.
  lemma {:induction false} ObligationOrderDoesNotMatter(goal: Goal, f: Family, a: seq<Obligation>, b: seq<Obligation>)
    requires Distinct(Required(goal.successCriteria)) && multiset(a) == multiset(b)
    ensures ValidateObligations(goal, f, a) == ValidateObligations(goal, f, b)
  {
    var required := Required(goal.successCriteria);
    ObligationBijection(goal, f, a);
    ObligationBijection(goal, f, b);
    assert |a| == |multiset(a)| == |multiset(b)| == |b|;
    if OnePerCriterion(required, f, a) { PermutationIsOnePerCriterion(required, f, a, b); }
    if OnePerCriterion(required, f, b) { PermutationIsOnePerCriterion(required, f, b, a); }
    if ValidateObligations(goal, f, a).Some? {
      var ra, rb := ValidateObligations(goal, f, a).value, ValidateObligations(goal, f, b).value;
      forall k | 0 <= k < |required| ensures rb[k] in a { SameMembers(a, b, rb[k]); }
      OneOrder(required, f, a, ra, rb);
    }
  }

  // ---- Creating a policy ----

  function CreateObligations(required: seq<Id>, f: Family, ids: seq<Id>): seq<Obligation>
    requires |ids| == |required|
  {
    seq(|required|, k requires 0 <= k < |required| => Obligation(ids[k], f.goalId, f.goalRevision, f.generationId,
      [required[k]], [ScenarioOf(required[k])], f.checkSpecRef, f.evidenceKind, f.strength, f.createdAt))
  }

  // What is created from distinct identifiers validates, unchanged.
  lemma {:induction false} CreatedObligationsValidate(goal: Goal, f: Family, ids: seq<Id>)
    requires var required := Required(goal.successCriteria);
      required != [] && Distinct(required) && |ids| == |required| && Distinct(ids)
    ensures var os := CreateObligations(Required(goal.successCriteria), f, ids);
      ValidateObligations(goal, f, os) == Some(os)
  {
    var required := Required(goal.successCriteria);
    var os := CreateObligations(required, f, ids);
    forall i, j | 0 <= i < j < |os| ensures os[i].sourceCriterionRefs != os[j].sourceCriterionRefs {
      DifferentSingletons(required[i], required[j]);
    }
    ObligationBijection(goal, f, os);
    OneOrder(required, f, os, ValidateObligations(goal, f, os).value, os);
  }

  // The built-in policy fixes every field of a check but its id.
  function ExactCheck(id: Id, g: GenerationRef, freeze: bool): CheckSpec {
    CheckSpec(id, Ascii("m1.2"), if freeze then CANDIDATE_FREEZE else FAKE_VERIFICATION,
      if freeze then Ascii("CANDIDATE_MANAGER") else Ascii("VERIFICATION_RUNNER"),
      if freeze then Ascii("candidate-manager:m1") else Ascii("fake-verification-runner:m1"),
      if freeze then Ascii("m1.logical.candidate.freeze") else Ascii("m1.logical.fake-verification"),
      g.workspaceIdentity, [g.id], Ascii("M1_LOGICAL_DETERMINISTIC"), 1000, 65536,
      if freeze then Ascii("codeclosure.candidate-freeze-observation.v1")
      else Ascii("codeclosure.fake-verification-observation.v1"),
      Ascii("M1_LOGICAL_NO_EXTERNAL_RESOURCES"), None, None)
  }

  function M1Family(goal: Goal, g: GenerationRef, verification: CheckSpec, createdAt: int): Family {
    Family(goal.id, goal.revision, g.id, verification.Ref(), TEST_RESULT, Ascii("M1_DETERMINISTIC"), createdAt)
  }

  function ValidateM1Policy(goal: Goal, g: GenerationRef, p: Policy, createdAt: int): Option<Policy> {
    if p.freeze.id == p.verification.id || p.freeze != ExactCheck(p.freeze.id, g, true) ||
       p.verification != ExactCheck(p.verification.id, g, false)
    then None
    else
      var os := ValidateObligations(goal, M1Family(goal, g, p.verification, createdAt), p.obligations);
      if os.None? then None else Some(p.(obligations := os.value))
  }

  function CreateM1Policy(goal: Goal, g: GenerationRef, freezeId: Id, verificationId: Id, ids: seq<Id>, createdAt: int): Option<Policy>
    requires |ids| == |Required(goal.successCriteria)|
  {
    var verification := ExactCheck(verificationId, g, false);
    var os := CreateObligations(Required(goal.successCriteria), M1Family(goal, g, verification, createdAt), ids);
    ValidateM1Policy(goal, g, Policy(ExactCheck(freezeId, g, true), verification, os), createdAt)
  }

  function LocalFamily(goal: Goal, g: GenerationRef, verification: CheckSpec, createdAt: int): Family {
    Family(goal.id, goal.revision, g.id, verification.Ref(), LOCAL_COMMAND_TEST_RESULT, Ascii("M2_LOCAL_COMMAND"), createdAt)
  }

  predicate BoundToFrozen(c: CheckSpec, g: GenerationRef) {
    && c.kind == LOCAL_COMMAND && g.state != C.MUTABLE && g.state != C.FREEZING && g.frozenDigest.Some?
    && c.candidateGenerationId == Some(g.id) && c.candidateDigest == g.frozenDigest
    && c.inputRefs != [] && c.inputRefs[0] == g.id
  }

  function ValidateLocalPolicy(goal: Goal, g: GenerationRef, verification: CheckSpec, os: seq<Obligation>, createdAt: int):
    Option<seq<Obligation>>
  {
    if !BoundToFrozen(verification, g) then None
    else ValidateObligations(goal, LocalFamily(goal, g, verification, createdAt), os)
  }

  // `validateAcceptanceCandidateEvidencePolicy`.
  function ValidatePolicy(goal: Goal, g: GenerationRef, p: Policy, createdAt: int): Option<Policy> {
    match p.verification.kind
    case FAKE_VERIFICATION => ValidateM1Policy(goal, g, p, createdAt)
    case LOCAL_COMMAND =>
      var os := ValidateLocalPolicy(goal, g, p.verification, p.obligations, createdAt);
      if p.freeze != ExactCheck(p.freeze.id, g, true) || os.None? then None else Some(p.(obligations := os.value))
    case CANDIDATE_FREEZE => None
  }

  // A created policy is accepted as it is, given distinct identifiers.
  lemma {:induction false} CreatedPoliciesValidate(
    goal: Goal, g: GenerationRef, freezeId: Id, verificationId: Id, ids: seq<Id>, createdAt: int)
    requires var required := Required(goal.successCriteria);
      required != [] && Distinct(required) && |ids| == |required| && Distinct(ids)
    ensures freezeId != verificationId ==> CreateM1Policy(goal, g, freezeId, verificationId, ids, createdAt).Some?
    ensures forall c | BoundToFrozen(c, g) :: var f := LocalFamily(goal, g, c, createdAt);
      var os := CreateObligations(Required(goal.successCriteria), f, ids);
      ValidateLocalPolicy(goal, g, c, os, createdAt) == Some(os)
  {
    CreatedObligationsValidate(goal, M1Family(goal, g, ExactCheck(verificationId, g, false), createdAt), ids);
    forall c | BoundToFrozen(c, g)
      ensures var os := CreateObligations(Required(goal.successCriteria), LocalFamily(goal, g, c, createdAt), ids);
        ValidateLocalPolicy(goal, g, c, os, createdAt) == Some(os)
    {
      CreatedObligationsValidate(goal, LocalFamily(goal, g, c, createdAt), ids);
    }
  }

  // Whichever kind of policy is accepted, its obligations were validated and nothing else was changed.
  lemma {:induction false} AcceptedByFamily(goal: Goal, g: GenerationRef, p: Policy, createdAt: int) returns (f: Family)
    requires ValidatePolicy(goal, g, p, createdAt).Some?
    ensures var q := ValidatePolicy(goal, g, p, createdAt).value;
      ValidateObligations(goal, f, p.obligations) == Some(q.obligations) && q == p.(obligations := q.obligations)
  {
    f := if p.verification.kind == LOCAL_COMMAND then LocalFamily(goal, g, p.verification, createdAt)
      else M1Family(goal, g, p.verification, createdAt);
  }

  // Every policy that is accepted for a Goal with distinct criteria has one obligation per required
  // criterion, in criterion order.
  lemma {:induction false} AcceptedPoliciesCoverTheGoal(goal: Goal, g: GenerationRef, p: Policy, createdAt: int)
    requires Distinct(Required(goal.successCriteria)) && ValidatePolicy(goal, g, p, createdAt).Some?
    ensures var q := ValidatePolicy(goal, g, p, createdAt).value;
      OneEach(Required(goal.successCriteria), p.obligations, q.obligations) && q == p.(obligations := q.obligations)
  {
    var f := AcceptedByFamily(goal, g, p, createdAt);
    ObligationBijection(goal, f, p.obligations);
  }

  // ---- Which policies are accepted ----

  // The obligation is one of this Goal, this generation and this verification, about one required criterion.
  predicate IsOf(o: Obligation, goal: Goal, g: GenerationRef, v: CheckSpec, createdAt: int) {
    && (o.goalId, o.goalRevision, o.candidateGenerationId, o.createdAt) == (goal.id, goal.revision, g.id, createdAt)
    && |o.sourceCriterionRefs| == 1 && IsRequired(goal, o.sourceCriterionRefs[0])
    && o.scenarioRefs == [Ascii("criterion:") + o.sourceCriterionRefs[0]] && o.checkSpecRef == v.id + Ascii("@") + v.version
    && (o.requiredEvidenceKind, o.strength) ==
         if v.kind == LOCAL_COMMAND then (LOCAL_COMMAND_TEST_RESULT, Ascii("M2_LOCAL_COMMAND")) else (TEST_RESULT, Ascii("M1_DETERMINISTIC"))
  }

  predicate IsRequired(goal: Goal, id: Id) { exists k :: 0 <= k < |goal.successCriteria| && goal.successCriteria[k] == Criterion(id, true) }

  lemma {:induction false} RequiredHas(criteria: seq<Criterion>, id: Id)
    ensures id in Required(criteria) <==> exists k :: 0 <= k < |criteria| && criteria[k] == Criterion(id, true)
    decreases |criteria|
  {
    if criteria != [] {
      RequiredHas(criteria[1..], id);
      assert forall k | 0 <= k < |criteria| - 1 :: criteria[1..][k] == criteria[k + 1];
      if k :| 0 <= k < |criteria| && criteria[k] == Criterion(id, true) {
        if k > 0 { assert criteria[1..][k - 1] == Criterion(id, true); }
      }
    }
  }

  // The family of the obligations of a policy with this verification.
  function FamilyOf(goal: Goal, g: GenerationRef, v: CheckSpec, createdAt: int): Family {
    if v.kind == LOCAL_COMMAND then LocalFamily(goal, g, v, createdAt) else M1Family(goal, g, v, createdAt)
  }

  lemma {:induction false} IsOfFamily(o: Obligation, goal: Goal, g: GenerationRef, v: CheckSpec, createdAt: int)
    ensures IsOf(o, goal, g, v, createdAt) <==>
      |o.sourceCriterionRefs| == 1 && o.sourceCriterionRefs[0] in Required(goal.successCriteria) &&
      Fits(o, FamilyOf(goal, g, v, createdAt), o.sourceCriterionRefs[0])
  {
    if |o.sourceCriterionRefs| == 1 { RequiredHas(goal.successCriteria, o.sourceCriterionRefs[0]); }
  }

  // Every field of the two built-in checks but the id.
  predicate IsBuiltIn(c: CheckSpec, g: GenerationRef) {
    && c.version == Ascii("m1.2") && c.cwdIdentity == g.workspaceIdentity && c.inputRefs == [g.id]
    && c.environmentPolicy == Ascii("M1_LOGICAL_DETERMINISTIC") && c.timeoutMilliseconds == 1000 && c.outputLimitBytes == 65536
    && c.cleanupPolicy == Ascii("M1_LOGICAL_NO_EXTERNAL_RESOURCES") && c.candidateGenerationId.None? && c.candidateDigest.None?
    && match c.kind {
         case CANDIDATE_FREEZE =>
           c.producerType == Ascii("CANDIDATE_MANAGER") && c.producerIdentity == Ascii("candidate-manager:m1") &&
           c.operation == Ascii("m1.logical.candidate.freeze") && c.observationSchema == Ascii("codeclosure.candidate-freeze-observation.v1")
         case FAKE_VERIFICATION =>
           c.producerType == Ascii("VERIFICATION_RUNNER") && c.producerIdentity == Ascii("fake-verification-runner:m1") &&
           c.operation == Ascii("m1.logical.fake-verification") &&
           c.observationSchema == Ascii("codeclosure.fake-verification-observation.v1")
         case LOCAL_COMMAND => false
       }
  }

  lemma {:induction false} BuiltInIs(c: CheckSpec, g: GenerationRef)
    ensures c == ExactCheck(c.id, g, true) <==> IsBuiltIn(c, g) && c.kind == CANDIDATE_FREEZE
    ensures c == ExactCheck(c.id, g, false) <==> IsBuiltIn(c, g) && c.kind == FAKE_VERIFICATION
  {
  }

  // A local command that is bound to the frozen Candidate.
  predicate IsBound(c: CheckSpec, g: GenerationRef) {
    && c.kind == LOCAL_COMMAND && (g.state == C.FROZEN || C.HasEnded(g.state)) && c.candidateDigest.Some?
    && (c.candidateGenerationId, c.candidateDigest) == (Some(g.id), g.frozenDigest) && |c.inputRefs| > 0 && c.inputRefs[0] == g.id
  }

  // The ids of the obligations, and the criteria they are about, are all different.
  predicate AllDiffer(os: seq<Obligation>) {
    forall i, j | 0 <= i < j < |os| :: os[i].id != os[j].id && os[i].sourceCriterionRefs != os[j].sourceCriterionRefs
  }

  // A policy for a Goal with distinct criteria is accepted exactly with the built-in freeze check, with the
  // built-in verification under another id or a local command bound to the frozen Candidate, and with as many
  // obligations as there are required criteria, all different and each of them about one.
  lemma {:induction false} PoliciesExactly(goal: Goal, g: GenerationRef, p: Policy, createdAt: int)
    requires Distinct(Required(goal.successCriteria))
    ensures ValidatePolicy(goal, g, p, createdAt).Some? <==>
      && IsBuiltIn(p.freeze, g) && p.freeze.kind == CANDIDATE_FREEZE
      && ((p.verification.kind == FAKE_VERIFICATION && IsBuiltIn(p.verification, g) && p.verification.id != p.freeze.id) || IsBound(p.verification, g))
      && |p.obligations| == |Required(goal.successCriteria)| > 0 && AllDiffer(p.obligations)
      && forall o | o in p.obligations :: IsOf(o, goal, g, p.verification, createdAt)
  {
    BuiltInIs(p.freeze, g);
    BuiltInIs(p.verification, g);
    ObligationBijection(goal, FamilyOf(goal, g, p.verification, createdAt), p.obligations);
    ObligationsAre(goal, g, p.verification, p.obligations, createdAt);
    BoundIs(p.verification, g);
  }

  lemma {:induction false} BoundIs(c: CheckSpec, g: GenerationRef)
    ensures IsBound(c, g) <==> BoundToFrozen(c, g)
  {
  }

  lemma {:induction false} ObligationsAre(goal: Goal, g: GenerationRef, v: CheckSpec, os: seq<Obligation>, createdAt: int)
    ensures OnePerCriterion(Required(goal.successCriteria), FamilyOf(goal, g, v, createdAt), os) <==>
      AllDiffer(os) && forall o | o in os :: IsOf(o, goal, g, v, createdAt)
  {
    forall o ensures IsOf(o, goal, g, v, createdAt) <==>
      |o.sourceCriterionRefs| == 1 && o.sourceCriterionRefs[0] in Required(goal.successCriteria) &&
      Fits(o, FamilyOf(goal, g, v, createdAt), o.sourceCriterionRefs[0])
    {
      IsOfFamily(o, goal, g, v, createdAt);
    }
    if OnePerCriterion(Required(goal.successCriteria), FamilyOf(goal, g, v, createdAt), os) {
      forall i | 0 <= i < |os| ensures IsOf(os[i], goal, g, v, createdAt) { }
    }
    if forall o | o in os :: IsOf(o, goal, g, v, createdAt) {
      forall i | 0 <= i < |os| ensures IsOf(os[i], goal, g, v, createdAt) { assert os[i] in os; }
    }
  }
}
