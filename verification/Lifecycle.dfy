// Runs of a Workflow together with its active Attempt, from `createWorkflow` through any events that
// the five application functions accept.
module Lifecycle {
  import opened Options
  import opened CodeUnits
  import opened SafeIntegers
  import opened Sequences
  import opened Workflow
  import opened Attempt
  import R = Recovery

  // The Workflow and the Attempt that it runs, if any.
  datatype Joint = Joint(workflow: Workflow, active: Option<Attempt>)

  datatype Event =
    | WorkflowChanged(we: WorkflowEvent)
    | AttemptChanged(ae: AttemptEvent)
    | Recovered(re: R.RecoveryEvent)

  // An ended Attempt is no longer the active one.
  function Apply(j: Joint, e: Event): Option<Joint> {
    match e
    case WorkflowChanged(we) =>
      if we.effect.Cancelled? then
        var next := ApplyCancellation(j.workflow, j.active, we);
        if next.None? then None else Some(Joint(next.value.0, None))
      else
        var next := ApplyWorkflowEvent(j.workflow, we);
        if next.None? then None else Some(Joint(next.value, j.active))
    case AttemptChanged(ae) =>
      var next := ApplyAttemptEvent(j.workflow, j.active, ae);
      if next.None? then None
      else Some(Joint(next.value.0, if ae.change.Started? then Some(next.value.1) else None))
    case Recovered(re) =>
      var next := R.Apply(j.workflow, re);
      if next.None? then None else Some(Joint(next.value, j.active))
  }

  datatype Creation = Creation(id: Id, goalId: Id, goalRevision: nat, createdAt: int)

  // The state after a run, or None when some event does not apply.
  function Run(c: Creation, es: seq<Event>): Option<Joint> {
    if es == [] then
      var w := CreateWorkflow(c.id, c.goalId, c.goalRevision, c.createdAt);
      if w.None? then None else Some(Joint(w.value, None))
    else
      var before := Run(c, es[..|es| - 1]);
      if before.None? then None else Apply(before.value, es[|es| - 1])
  }

  // ---- What every reachable state satisfies ----

  predicate MayWriteSource(j: Joint) { j.active.Some? && Allows(j.active.value.grant, WRITE_CANDIDATE_SOURCE) }

  predicate JointInv(j: Joint) {
    && Authority(j.workflow, j.active)
    && (j.workflow.runStatus == RUNNING ==> j.active.value.startedAt == j.workflow.updatedAt)
    && (j.workflow.suspendedReason.Some? <==>
         j.workflow.runStatus == BLOCKED || j.workflow.runStatus == RunStatus.FAILED || j.workflow.runStatus == CANCELLED)
    && j.workflow.runStatus != WAITING_FOR_INPUT
    && (MayWriteSource(j) ==> j.workflow.phase == IMPLEMENT && j.workflow.activeCandidateGenerationId.Some?)
  }

  lemma {:induction false} OnlyImplementWrites(a: Attempt)
    requires AttemptInv(a)
    ensures Allows(a.grant, WRITE_CANDIDATE_SOURCE) <==> a.phase == IMPLEMENT
  {
    assert a.grant.allowedActions == DeriveGrant(a.phase).allowedActions;
    assert DeriveGrant(IMPLEMENT).allowedActions[2] == WRITE_CANDIDATE_SOURCE;
  }

  lemma {:induction false} WorkflowStepKeeps(j: Joint, we: WorkflowEvent)
    requires JointInv(j) && Apply(j, WorkflowChanged(we)).Some?
    ensures JointInv(Apply(j, WorkflowChanged(we)).value)
  {
  }

  lemma {:induction false} AttemptStepKeeps(j: Joint, ae: AttemptEvent)
    requires JointInv(j) && Apply(j, AttemptChanged(ae)).Some?
    ensures JointInv(Apply(j, AttemptChanged(ae)).value)
  {
    if ae.change.Started? { OnlyImplementWrites(ae.change.attempt); }
  }

  lemma {:induction false} RecoveryStepKeeps(j: Joint, re: R.RecoveryEvent)
    requires JointInv(j) && Apply(j, Recovered(re)).Some?
    ensures JointInv(Apply(j, Recovered(re)).value)
  {
  }

  lemma {:induction false} ReachableStates(c: Creation, es: seq<Event>)
    requires Run(c, es).Some?
    ensures JointInv(Run(c, es).value)
  {
    if es != [] {
      var before, e := es[..|es| - 1], es[|es| - 1];
      ReachableStates(c, before);
      match e {
        case WorkflowChanged(we) => WorkflowStepKeeps(Run(c, before).value, we);
        case AttemptChanged(ae) => AttemptStepKeeps(Run(c, before).value, ae);
        case Recovered(re) => RecoveryStepKeeps(Run(c, before).value, re);
      }
    }
  }

  // ---- How a run gets to CLOSEOUT ----

  predicate Fires(e: Event, from: Phase, to: Phase) {
    e.WorkflowChanged? && e.we.effect.Transitioned? && e.we.phase == from && e.we.effect.toPhase == to
  }

  // The edge fired with a passing result for each of its required guards and nothing else.
  predicate FiresGuarded(e: Event, from: Phase, to: Phase) {
    && Fires(e, from, to) && RequiredGuards(from, to).Some?
    && WellGuarded(RequiredGuards(from, to).value, e.we.effect.guardResults)
  }

  predicate Selects(e: Event) { e.WorkflowChanged? && e.we.effect.Transitioned? && e.we.effect.nextCandidate.Some? }

  function PhaseAt(index: nat): Phase {
    match index
    case 0 => IMPLEMENT
    case 1 => SOURCE_FREEZE
    case 2 => EVIDENCE_BUILD
    case 3 => FINAL_VERIFY
    case _ => CLOSEOUT
  }

  // The event at `selected` selected the active Candidate generation, no later event selected one,
  // and since then the guarded edges up to the phase fired at the increasing positions of `fired`.
  ghost predicate Gates(es: seq<Event>, w: Workflow, selected: nat, fired: seq<nat>) {
    && selected < |es| && Selects(es[selected]) && es[selected].we.effect.nextCandidate == w.activeCandidateGenerationId
    && (forall m | selected < m < |es| :: !Selects(es[m]))
    && |fired| == R.PhaseIndex(w.phase) - 2
    && (forall k | 0 <= k < |fired| :: selected < fired[k] < |es| && FiresGuarded(es[fired[k]], PhaseAt(k), PhaseAt(k + 1)))
    && (forall k | 0 < k < |fired| :: fired[k - 1] < fired[k])
  }

  ghost predicate PassedGates(es: seq<Event>, w: Workflow) {
    R.PhaseIndex(w.phase) >= 2 ==> exists selected: nat, fired: seq<nat> :: Gates(es, w, selected, fired)
  }

  // An event that neither selects a Candidate nor moves the phase forward.
  lemma {:induction false} GatesStay(es: seq<Event>, e: Event, w: Workflow, next: Workflow)
    requires PassedGates(es, w) && !Selects(e) && R.PhaseIndex(next.phase) <= R.PhaseIndex(w.phase)
    requires next.activeCandidateGenerationId == w.activeCandidateGenerationId
    ensures PassedGates(es + [e], next)
  {
    if R.PhaseIndex(next.phase) >= 2 {
      var selected: nat, fired: seq<nat> :| Gates(es, w, selected, fired);
      assert Gates(es + [e], next, selected, fired[..R.PhaseIndex(next.phase) - 2]);
    }
  }

  lemma {:induction false} GatesSelected(es: seq<Event>, e: Event, next: Workflow)
    requires Selects(e) && next.phase == IMPLEMENT && next.activeCandidateGenerationId == e.we.effect.nextCandidate
    ensures PassedGates(es + [e], next)
  {
    assert Gates(es + [e], next, |es|, []);
  }

  lemma {:induction false} GatesForward(es: seq<Event>, e: Event, w: Workflow, next: Workflow)
    requires PassedGates(es, w) && !Selects(e) && R.PhaseIndex(w.phase) >= 2 && FiresGuarded(e, w.phase, next.phase)
    requires R.PhaseIndex(next.phase) == R.PhaseIndex(w.phase) + 1
    requires next.activeCandidateGenerationId == w.activeCandidateGenerationId
    ensures PassedGates(es + [e], next)
  {
    var selected: nat, fired: seq<nat> :| Gates(es, w, selected, fired);
    var more: seq<nat> := fired + [|es|];
    var k := |fired|;
    assert PhaseAt(k) == w.phase && PhaseAt(k + 1) == next.phase;
    assert Gates(es + [e], next, selected, more);
  }

  lemma {:induction false} TransitionFires(w: Workflow, we: WorkflowEvent)
    requires we.effect.Transitioned? && ApplyWorkflowEvent(w, we).Some?
    ensures var next := ApplyWorkflowEvent(w, we).value;
      && FiresGuarded(WorkflowChanged(we), w.phase, next.phase)
      && (Selects(WorkflowChanged(we)) <==> next.phase == IMPLEMENT)
      && next.activeCandidateGenerationId ==
           (if we.effect.nextCandidate.Some? then we.effect.nextCandidate else w.activeCandidateGenerationId)
      && (next.phase == IMPLEMENT || R.PhaseIndex(next.phase) == R.PhaseIndex(w.phase) + 1)
  {
    GuardsValidExactly(RequiredGuards(w.phase, we.effect.toPhase).value, we.effect.guardResults);
  }

  lemma {:induction false} GatesStep(es: seq<Event>, e: Event, j: Joint)
    requires PassedGates(es, j.workflow) && Apply(j, e).Some?
    ensures PassedGates(es + [e], Apply(j, e).value.workflow)
  {
    var next := Apply(j, e).value.workflow;
    if e.WorkflowChanged? && e.we.effect.Transitioned? {
      TransitionFires(j.workflow, e.we);
      if Selects(e) {
        GatesSelected(es, e, next);
      } else if R.PhaseIndex(j.workflow.phase) >= 2 {
        GatesForward(es, e, j.workflow, next);
      }
    } else {
      GatesStay(es, e, j.workflow, next);
    }
  }

  lemma {:induction false} GatesOneMore(c: Creation, before: seq<Event>, e: Event)
    requires Run(c, before + [e]).Some? && (Run(c, before).Some? ==> PassedGates(before, Run(c, before).value.workflow))
    ensures PassedGates(before + [e], Run(c, before + [e]).value.workflow)
  {
    assert (before + [e])[..|before|] == before;
    RunOneMore(c, before, e);
    GatesStep(before, e, Run(c, before).value);
  }

  lemma {:induction false} LastOf(es: seq<Event>) returns (before: seq<Event>, e: Event)
    requires es != []
    ensures es == before + [e]
  {
    before, e := es[..|es| - 1], es[|es| - 1];
  }

  lemma {:induction false} EveryRunPassesGates(c: Creation, es: seq<Event>)
    ensures Run(c, es).Some? ==> PassedGates(es, Run(c, es).value.workflow)
    decreases |es|
  {
    if es != [] {
      var before, e := LastOf(es);
      EveryRunPassesGates(c, before);
      if Run(c, before + [e]).Some? { GatesOneMore(c, before, e); }
    }
  }

  // In every run that reaches CLOSED, since the last selection of a Candidate generation, which is the
  // active one, the guarded edges from IMPLEMENT through SOURCE_FREEZE, EVIDENCE_BUILD and FINAL_VERIFY
  // to CLOSEOUT fired in this order, whatever recoveries came in between.
  lemma {:induction false} CloseoutPassedEveryGate(c: Creation, es: seq<Event>)
    requires Run(c, es).Some? && Run(c, es).value.workflow.runStatus == CLOSED
    ensures exists selected: nat, fired: seq<nat> :: Gates(es, Run(c, es).value.workflow, selected, fired) && |fired| == 4
  {
    ReachableStates(c, es);
    EveryRunPassesGates(c, es);
    var selected: nat, fired: seq<nat> :| Gates(es, Run(c, es).value.workflow, selected, fired);
  }

  // ---- Accepted commands keep a run going ----

  lemma {:induction false} AcceptedCommandsContinue(c: Creation, es: seq<Event>, wc: WorkflowCommand)
    requires Run(c, es).Some? && DecideWorkflow(Run(c, es).value.workflow, wc).Accept?
    ensures Apply(Run(c, es).value, WorkflowChanged(DecideWorkflow(Run(c, es).value.workflow, wc).event)).Some?
  {
    var j := Run(c, es).value;
    ReachableStates(c, es);
    WorkflowDecisionsApply(j.workflow, wc);
    if wc.request.Cancel? { CancellationsApply(j.workflow, j.active, wc); }
  }

  lemma {:induction false} AcceptedAttemptCommandsContinue(c: Creation, es: seq<Event>, ac: AttemptCommand)
    requires Run(c, es).Some? && var j := Run(c, es).value; DecideAttempt(j.workflow, j.active, ac).Accept?
    ensures var j := Run(c, es).value; Apply(j, AttemptChanged(DecideAttempt(j.workflow, j.active, ac).event)).Some?
  {
    var j := Run(c, es).value;
    AttemptDecisionsApply(j.workflow, j.active, ac);
  }

  lemma {:induction false} PlannedRecoveriesContinue(c: Creation, es: seq<Event>, r: R.Record, commandId: Id)
    requires Run(c, es).Some? && R.Plan(Run(c, es).value.workflow, r, commandId).Some?
    ensures Apply(Run(c, es).value, Recovered(R.Plan(Run(c, es).value.workflow, r, commandId).value)).Some?
  {
    R.PlansApply(Run(c, es).value.workflow, r, commandId);
  }

  // ---- An integrity failure is final ----

  predicate FailsIntegrity(e: Event) { e.WorkflowChanged? && e.we.effect.IntegrityFailed? }

  predicate Cancels(e: Event) { e.WorkflowChanged? && e.we.effect.Cancelled? }

  // Where an integrity failure leads to.
  lemma {:induction false} IntegrityFails(j: Joint, e: Event)
    requires JointInv(j) && FailsIntegrity(e) && Apply(j, e).Some?
    ensures Apply(j, e).value.workflow.runStatus == RunStatus.FAILED && Apply(j, e).value.active.None?
  {
  }

  lemma {:induction false} AfterFailure(j: Joint, e: Event)
    requires JointInv(j) && j.workflow.runStatus == RunStatus.FAILED && Apply(j, e).Some?
    ensures Cancels(e) && Apply(j, e).value.workflow.runStatus == CANCELLED
  {
  }

  lemma {:induction false} AfterTheEnd(j: Joint, e: Event)
    requires JointInv(j) && (j.workflow.runStatus == CANCELLED || j.workflow.runStatus == CLOSED)
    ensures Apply(j, e).None?
  {
  }

  // After an integrity failure only a cancellation applies, and then nothing, so that run is never CLOSED.
  lemma {:induction false} IntegrityFailureIsFinal(c: Creation, es: seq<Event>, i: nat)
    requires Run(c, es).Some? && i < |es| && FailsIntegrity(es[i])
    ensures |es| <= i + 2 && (|es| == i + 2 ==> Cancels(es[i + 1]))
    ensures Run(c, es).value.workflow.runStatus == if |es| == i + 1 then RunStatus.FAILED else CANCELLED
    decreases |es|
  {
    var before, e := LastOf(es);
    assert es[..|es| - 1] == before;
    ReachableStates(c, before);
    var j := Run(c, before).value;
    RunOneMore(c, before, e);
    if i == |before| {
      IntegrityFails(j, e);
    } else {
      IntegrityFailureIsFinal(c, before, i);
      if |before| == i + 1 { AfterFailure(j, e); } else { AfterTheEnd(j, e); }
    }
  }

  // ---- No READY Workflow is stuck ----

  function Forward(phase: Phase): Phase
    requires phase != CLOSEOUT
  {
    match phase
    case DISCOVERY => PLAN
    case PLAN => IMPLEMENT
    case IMPLEMENT => SOURCE_FREEZE
    case SOURCE_FREEZE => EVIDENCE_BUILD
    case EVIDENCE_BUILD => FINAL_VERIFY
    case FINAL_VERIFY => CLOSEOUT
  }

  // Some text that is not blank.
  const MARK: Text := [0x58]

  function PassingResults(required: seq<Guard>): seq<GuardResult> {
    seq(|required|, i requires 0 <= i < |required| => GuardResult(required[i], PASS, MARK, [MARK]))
  }

  lemma {:induction false} PassingIsWellGuarded(required: seq<Guard>)
    requires Distinct(required)
    ensures WellGuarded(required, PassingResults(required))
  {
    var results := PassingResults(required);
    assert GuardsOf(results) == required;
    assert MARK[0] == 0x58 && !AllWhitespace(MARK);
  }

  function FreshCandidate(w: Workflow): Id {
    if w.activeCandidateGenerationId.Some? then w.activeCandidateGenerationId.value + 1 else 0
  }

  function ForwardEvent(w: Workflow, results: seq<GuardResult>): WorkflowEvent
    requires w.phase != CLOSEOUT
  {
    WorkflowEvent(0, w.id, w.phase, w.version, w.version + 1, MARK, w.updatedAt,
      Transitioned(Forward(w.phase), results, if Forward(w.phase) == IMPLEMENT then Some(FreshCandidate(w)) else None))
  }

  ghost predicate Forwarded(w: Workflow, next: Workflow)
    requires w.phase != CLOSEOUT
  {
    && next.phase == Forward(w.phase) && next.version == w.version + 1
    && next.runStatus == (if next.phase == CLOSEOUT then CLOSED else READY)
  }

  lemma {:induction false} ForwardApplies(w: Workflow, required: seq<Guard>, results: seq<GuardResult>)
    requires WorkflowInv(w) && w.runStatus == READY && IsVersion(w.version + 1)
    requires RequiredGuards(w.phase, Forward(w.phase)) == Some(required) && ValidateGuards(required, results).Valid?
    ensures var next := ApplyWorkflowEvent(w, ForwardEvent(w, results)); next.Some? && Forwarded(w, next.value)
  {
    assert MARK[0] == 0x58 && !AllWhitespace(MARK);
    TrimKeeps(MARK);
  }

  lemma {:induction false} GoesForward(j: Joint) returns (e: Event)
    requires JointInv(j) && j.workflow.runStatus == READY && IsVersion(j.workflow.version + 1)
    ensures Apply(j, e).Some? && Forwarded(j.workflow, Apply(j, e).value.workflow)
  {
    var w := j.workflow;
    var required := RequiredGuards(w.phase, Forward(w.phase)).value;
    RequiredIsDistinct(w.phase, Forward(w.phase));
    PassingIsWellGuarded(required);
    GuardsValidExactly(required, PassingResults(required));
    ForwardApplies(w, required, PassingResults(required));
    e := WorkflowChanged(ForwardEvent(w, PassingResults(required)));
  }

  lemma {:induction false} RunOneMore(c: Creation, es: seq<Event>, e: Event)
    requires Run(c, es).Some?
    ensures Run(c, es + [e]) == Apply(Run(c, es).value, e)
  {
    assert (es + [e])[..|es|] == es;
  }

  lemma {:induction false} RunsForward(c: Creation, es: seq<Event>, j: Joint) returns (e: Event, next: Joint)
    requires Run(c, es) == Some(j) && j.workflow.runStatus == READY && IsVersion(j.workflow.version + 1)
    ensures j.workflow.phase != CLOSEOUT && Run(c, es + [e]) == Some(next) && Forwarded(j.workflow, next.workflow)
  {
    ReachableStates(c, es);
    e := GoesForward(j);
    next := Apply(j, e).value;
    RunOneMore(c, es, e);
  }

  // From every reachable READY state a run goes on to CLOSED, as long as there are versions left.
  lemma {:induction false} EveryReadyRunCanClose(c: Creation, es: seq<Event>, j: Joint) returns (all: seq<Event>)
    requires Run(c, es) == Some(j) && j.workflow.runStatus == READY
    requires j.workflow.version + 6 - R.PhaseIndex(j.workflow.phase) <= MAX_SAFE_INTEGER
    ensures es <= all && Run(c, all).Some? && Run(c, all).value.workflow.runStatus == CLOSED
    decreases 6 - R.PhaseIndex(j.workflow.phase)
  {
    ReachableStates(c, es);
    var e, next := RunsForward(c, es, j);
    all := es + [e];
    if next.workflow.runStatus != CLOSED { all := EveryReadyRunCanClose(c, all, next); }
  }
}
