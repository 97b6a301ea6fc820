// Whole Worker runs: the events that fail a run, with their codes, and so exactly which runs are reported
// as COMPLETED, and what was allowed in them.
module WorkerOutcomes {
  import opened Options
  import opened CodeUnits
  import opened JsonAccess
  import opened JsonValues
  import opened ObserverModel
  import opened WorkerRunModel
  import opened WorkerFaults
  import R = WorkerRuns
  import C = WorkerCompletion
  import P = WorkerReports

  // ---- What an event is to blame for ----

  function Raised(code: FailureCode, aborted: bool): FailureCode { if aborted then HOST_CANCELLED else code }

  // The prompt is bound when the operation is about to begin.
  function PromptBlame(o: Observer, prompt: Option<Text>, aborted: bool): set<FailureCode> {
    if prompt.None? then {Raised(EFFECTIVE_INPUT_MISMATCH, aborted)}
    else Only(o.itemPolicy.Some? && o.itemPolicy != prompt, EFFECTIVE_INPUT_MISMATCH)
  }

  function ThreadBlame(o: Observer, threadId: Text, thrown: Option<FailureCode>, aborted: bool, prompt: Option<Text>, d: Directive):
    set<FailureCode>
  {
    var refs := RefsBlame(Some(threadId), o.operation, o.threadRefs, o.turnRefs);
    if refs != {} then refs
    else if thrown.Some? then {Raised(thrown.value, aborted)}
    else if !d.manualCompaction then PromptBlame(o, prompt, aborted)
    else if aborted then {HOST_CANCELLED}
    else Only(o.manualCompactionPending || o.compactionCount != 0, COMPACTION_POLICY_VIOLATION)
  }

  // The compaction must have been completed, with the end of its turn.
  predicate IsCompacted(o: Observer) {
    o.manualCompactionPending && o.compactionCount == 1 && |o.maintenanceItems| == 0 && o.maintenanceTurn.Some? && o.maintenanceTerminalSeen
  }

  function CompactedBlame(r: Run, threadId: Text, aborted: bool, prompt: Option<Text>): set<FailureCode> {
    if threadId != r.threadId then {Raised(THREAD_BINDING_MISMATCH, aborted)}
    else if !IsCompacted(r.observer) then {COMPACTION_POLICY_VIOLATION}
    else if aborted then {HOST_CANCELLED}
    else PromptBlame(r.observer, prompt, aborted)
  }

  function TurnBlame(o: Observer, turnId: Text, thrown: Option<FailureCode>, aborted: bool): set<FailureCode> {
    var refs := RefsBlame(o.session, Some(turnId), o.threadRefs, o.turnRefs);
    if o.maintenanceTurn == Some(turnId) then {TURN_BINDING_MISMATCH}
    else if refs != {} then refs
    else if thrown.Some? then {Raised(thrown.value, aborted)}
    else {}
  }

  function TerminalTurnBlame(r: Run, t: TerminalTurn, ending: Ending, aborted: bool): set<FailureCode> {
    if aborted then {HOST_CANCELLED}
    else if t.threadId != r.threadId || t.turnId != r.turnId then {TURN_BINDING_MISMATCH}
    else if t.status != Ascii("completed") then
      {if ending.built == Error(HOST_CANCELLED) then HOST_CANCELLED else BACKEND_TURN_FAILED}
    else if t.error != Some(Null) || !ending.accepted then {INVALID_TERMINAL_PAYLOAD}
    else if ending.built.Error? then {ending.built.code}
    else {}
  }

  function WaitBlame(r: Run, wait: Wait, ending: Ending, aborted: bool): set<FailureCode> {
    match wait
    case POLICY_FAILURE => {Raised(UNSUPPORTED_BACKEND_ACTIVITY, aborted)}
    case CLOSED => {Raised(CLIENT_FAILURE, aborted)}
    case TERMINAL => if r.observer.terminal.Some? then TerminalTurnBlame(r, r.observer.terminal.value, ending, aborted) else {}
    case _ => {}
  }

  function ShutDownBlame(r: Run, clean: bool, aborted: bool): set<FailureCode> {
    if !clean || r.handlerThrew then {CLEAN_SHUTDOWN_FAILED}
    else if aborted then {HOST_CANCELLED}
    else Only(r.event.None?, CLIENT_FAILURE)
  }

  function RunBlame(r: Run, e: RunEvent, d: Directive): set<FailureCode> {
    match e
    case RLaunch(refusal, aborted) =>
      if !r.phase.Idle? then {ADAPTER_REUSED} else if refusal.Some? then {refusal.value} else Only(aborted, HOST_CANCELLED)
    case RStartFailed(code, aborted, _) => Only(r.phase.Starting?, Raised(code, aborted))
    case RThrown(code, aborted) => Only(r.phase.Starting? || r.phase.Compacting? || r.phase.AwaitingTurn?, Raised(code, aborted))
    case RThreadReady(threadId, thrown, aborted, prompt) =>
      if r.phase.Starting? then ThreadBlame(r.observer, threadId, thrown, aborted, prompt, d) else {}
    case RCompactionReturned(threadId, aborted, prompt) =>
      if r.phase.Compacting? then CompactedBlame(r, threadId, aborted, prompt) else {}
    case RTurnReady(turnId, thrown, aborted) => if r.phase.AwaitingTurn? then TurnBlame(r.observer, turnId, thrown, aborted) else {}
    case RWaited(wait, ending, aborted) => if r.phase.AwaitingTerminal? then WaitBlame(r, wait, ending, aborted) else {}
    case RInterrupted(aborted) => if r.phase.Interrupting? then {Raised(r.phase.code, aborted)} else {}
    case RShutDown(clean, aborted) => if r.phase.ShuttingDown? then ShutDownBlame(r, clean, aborted) else {}
    case RNotification(n) => if HasClient(r.phase) then NotificationBlame(r.observer, n, d) else {}
    case RCompaction(c) => if HasClient(r.phase) then CompactionBlame(r.observer, c, d) else {}
    case RApproval(threadId, turnId) => if HasClient(r.phase) then ApprovalBlame(r.observer, threadId, turnId) else {}
  }

  // A run that has not failed fails exactly when there is something to blame, and with a code of it.
  ghost predicate Blamed(r: Run, s: Run, blame: set<FailureCode>) {
    var before, after := r.observer.verdict.failure, s.observer.verdict.failure;
    before.None? ==> (after.None? <==> blame == {}) && (after.Some? ==> after.value in blame)
  }

  lemma {:induction false} CaughtBlames(r: Run, code: FailureCode, aborted: bool)
    requires C.Unfailed(r.observer)
    ensures Caught(r, code, aborted).observer.verdict.failure == Some(Raised(code, aborted))
  {
  }

  lemma {:induction false} CaughtAgain(r: Run, code: FailureCode, aborted: bool)
    requires r.observer.verdict.failure.Some? && r.observer.verdict.failure != Some(BACKEND_TURN_FAILED)
    ensures Caught(r, code, aborted).observer.verdict.failure == r.observer.verdict.failure
  {
  }

  lemma {:induction false} PromptBlames(r: Run, prompt: Option<Text>, aborted: bool)
    ensures Blamed(r, BindPrompt(r, prompt, aborted), PromptBlame(r.observer, prompt, aborted))
  {
    if C.Unfailed(r.observer) {
      if prompt.None? {
        CaughtBlames(r, EFFECTIVE_INPUT_MISMATCH, aborted);
      } else {
        var t := r.(observer := BindItemPolicy(r.observer, prompt.value), phase := AwaitingTurn);
        if !C.Unfailed(t.observer) { CaughtAgain(t, EFFECTIVE_INPUT_MISMATCH, aborted); }
      }
    }
  }

  lemma {:induction false} ThreadBlames(
    r: Run, threadId: Text, thrown: Option<FailureCode>, aborted: bool, prompt: Option<Text>, d: Directive)
    ensures Blamed(r, ThreadReady(r, threadId, thrown, aborted, prompt, d), ThreadBlame(r.observer, threadId, thrown, aborted, prompt, d))
  {
    if C.Unfailed(r.observer) {
      var bound := r.observer.(session := Some(threadId));
      RefsShift(bound);
      var t := r.(observer := BindThread(r.observer, threadId), threadId := threadId);
      if !C.Unfailed(t.observer) {
        CaughtAgain(t, t.observer.verdict.failure.value, aborted);
      } else if thrown.Some? {
        CaughtBlames(t, thrown.value, aborted);
      } else if !d.manualCompaction {
        PromptBlames(t, prompt, aborted);
      } else {
        BeginBlames(t, aborted, d);
      }
    }
  }

  lemma {:induction false} BeginBlames(r: Run, aborted: bool, d: Directive)
    requires C.Unfailed(r.observer) && d.manualCompaction
    ensures Blamed(r, CompactionStarted(r, aborted, d), if aborted then {HOST_CANCELLED}
      else Only(r.observer.manualCompactionPending || r.observer.compactionCount != 0, COMPACTION_POLICY_VIOLATION))
  {
    if aborted {
      CaughtBlames(r, HOST_CANCELLED, aborted);
    } else {
      var t := r.(observer := BeginManualCompaction(r.observer, d), phase := Compacting);
      if !C.Unfailed(t.observer) { CaughtAgain(t, t.observer.verdict.failure.value, aborted); }
    }
  }

  lemma {:induction false} CompactedBlames(r: Run, threadId: Text, aborted: bool, prompt: Option<Text>)
    ensures Blamed(r, CompactionReturned(r, threadId, aborted, prompt), CompactedBlame(r, threadId, aborted, prompt))
  {
    if C.Unfailed(r.observer) {
      if threadId != r.threadId {
        CaughtBlames(r, THREAD_BINDING_MISMATCH, aborted);
      } else {
        var t := r.(observer := FinishManualCompaction(r.observer));
        if !C.Unfailed(t.observer) {
          CaughtAgain(t, t.observer.verdict.failure.value, aborted);
        } else if aborted {
          CaughtBlames(t, HOST_CANCELLED, aborted);
        } else {
          PromptBlames(t, prompt, aborted);
        }
      }
    }
  }

  lemma {:induction false} TurnBlames(r: Run, turnId: Text, thrown: Option<FailureCode>, aborted: bool)
    ensures Blamed(r, TurnReady(r, turnId, thrown, aborted), TurnBlame(r.observer, turnId, thrown, aborted))
  {
    if C.Unfailed(r.observer) {
      RefsShift(r.observer.(operation := Some(turnId)));
      var t := r.(observer := BindTurn(r.observer, turnId), turnId := turnId, phase := AwaitingTerminal);
      if !C.Unfailed(t.observer) {
        CaughtAgain(t, t.observer.verdict.failure.value, aborted);
      } else if thrown.Some? {
        CaughtBlames(t, thrown.value, aborted);
      }
    }
  }

  lemma {:induction false} FailedTurnBlames(r: Run, ending: Ending)
    requires C.Unfailed(r.observer)
    ensures var t := r.(observer := Fail(r.observer, BACKEND_TURN_FAILED));
      var s := if ending.built.Event? then t else Caught(t.(constructionFailed := true), ending.built.code, false);
      s.observer.verdict.failure == Some(if ending.built == Error(HOST_CANCELLED) then HOST_CANCELLED else BACKEND_TURN_FAILED)
  {
  }

  lemma {:induction false} TerminalTurnBlames(r: Run, t: TerminalTurn, ending: Ending, aborted: bool)
    ensures Blamed(r, Terminated(r, t, ending, aborted), TerminalTurnBlame(r, t, ending, aborted))
  {
    if C.Unfailed(r.observer) {
      if aborted {
        CaughtBlames(r, HOST_CANCELLED, aborted);
      } else if t.threadId != r.threadId || t.turnId != r.turnId {
        CaughtBlames(r, TURN_BINDING_MISMATCH, aborted);
      } else if t.status != Ascii("completed") {
        FailedTurnBlames(r, ending);
      } else if t.error != Some(Null) || !ending.accepted {
        CaughtBlames(r, INVALID_TERMINAL_PAYLOAD, aborted);
      } else if ending.built.Error? {
        CaughtBlames(r, ending.built.code, aborted);
      }
    }
  }

  lemma {:induction false} WaitBlames(r: Run, wait: Wait, ending: Ending, aborted: bool)
    ensures Blamed(r, Waited(r, wait, ending, aborted), WaitBlame(r, wait, ending, aborted))
  {
    if C.Unfailed(r.observer) {
      match wait {
        case POLICY_FAILURE => CaughtBlames(r, UNSUPPORTED_BACKEND_ACTIVITY, aborted);
        case CLOSED => CaughtBlames(r, CLIENT_FAILURE, aborted);
        case TERMINAL => if r.observer.terminal.Some? { TerminalTurnBlames(r, r.observer.terminal.value, ending, aborted); }
        case _ =>
      }
    }
  }

  // The end of a run that has failed otherwise than by its turn keeps the failure.
  lemma {:induction false} ConcludeKeeps(r: Run, aborted: bool)
    requires r.observer.verdict.failure.Some? && r.observer.verdict.failure != Some(BACKEND_TURN_FAILED) && R.VerdictInv(r.observer.verdict)
    ensures Conclude(r, aborted).observer.verdict.failure == r.observer.verdict.failure
  {
  }

  lemma {:induction false} ShutDownBlames(r: Run, clean: bool, aborted: bool)
    requires R.VerdictInv(r.observer.verdict)
    ensures Blamed(r, ShutDown(r, clean, aborted), ShutDownBlame(r, clean, aborted))
  {
    if C.Unfailed(r.observer) {
      if !clean || r.handlerThrew {
        UncleanBlames(r, aborted);
      } else if aborted {
        AbortBlames(r);
      } else {
        C.UnfailedConcludes(r);
      }
    }
  }

  lemma {:induction false} UncleanBlames(r: Run, aborted: bool)
    requires R.VerdictInv(r.observer.verdict) && C.Unfailed(r.observer)
    ensures Conclude(r.(event := None, uncleanShutdown := true, observer := Fail(r.observer, CLEAN_SHUTDOWN_FAILED)), aborted)
      .observer.verdict.failure == Some(CLEAN_SHUTDOWN_FAILED)
  {
    ConcludeKeeps(r.(event := None, uncleanShutdown := true, observer := Fail(r.observer, CLEAN_SHUTDOWN_FAILED)), aborted);
  }

  lemma {:induction false} AbortBlames(r: Run)
    requires R.VerdictInv(r.observer.verdict) && C.Unfailed(r.observer)
    ensures Conclude(r, true).observer.verdict.failure == Some(HOST_CANCELLED)
  {
    var a := r.(event := None, observer := Cancel(r.observer));
    assert Conclude(r, true) == Conclude(a, false);
    ConcludeKeeps(a, false);
  }

  lemma {:induction false} CaughtIsValid(r: Run, code: FailureCode, aborted: bool)
    requires R.VerdictInv(r.observer.verdict) && C.Unfailed(r.observer) && code != BACKEND_TURN_FAILED
    ensures R.VerdictInv(Caught(r, code, aborted).observer.verdict)
    ensures var failure := Caught(r, code, aborted).observer.verdict.failure; failure.Some? && failure != Some(BACKEND_TURN_FAILED)
  {
  }

  lemma {:induction false} StartBlames(r: Run, code: FailureCode, aborted: bool, later: bool)
    requires R.VerdictInv(r.observer.verdict) && code != BACKEND_TURN_FAILED
    ensures Blamed(r, StartFailed(r, code, aborted, later), {Raised(code, aborted)})
  {
    if C.Unfailed(r.observer) {
      CaughtBlames(r, code, aborted);
      CaughtIsValid(r, code, aborted);
      ConcludeKeeps(Caught(r, code, aborted), later);
    }
  }

  lemma {:induction false} StepBlames(r: Run, e: RunEvent, d: Directive)
    requires Possible(e) && (r.phase.Finished? || R.VerdictInv(r.observer.verdict))
    ensures Blamed(r, Step(r, e, d), RunBlame(r, e, d))
  {
    match e {
      case RStartFailed(code, aborted, later) => if r.phase.Starting? { StartBlames(r, code, aborted, later); }
      case RThrown(code, aborted) => if C.Unfailed(r.observer) { CaughtBlames(r, code, aborted); }
      case RThreadReady(threadId, thrown, aborted, prompt) =>
        if r.phase.Starting? { ThreadBlames(r, threadId, thrown, aborted, prompt, d); }
      case RCompactionReturned(threadId, aborted, prompt) =>
        if r.phase.Compacting? { CompactedBlames(r, threadId, aborted, prompt); }
      case RTurnReady(turnId, thrown, aborted) => if r.phase.AwaitingTurn? { TurnBlames(r, turnId, thrown, aborted); }
      case RWaited(wait, ending, aborted) => if r.phase.AwaitingTerminal? { WaitBlames(r, wait, ending, aborted); }
      case RInterrupted(aborted) => if r.phase.Interrupting? && C.Unfailed(r.observer) { CaughtBlames(r, r.phase.code, aborted); }
      case RShutDown(clean, aborted) => if r.phase.ShuttingDown? { ShutDownBlames(r, clean, aborted); }
      case _ => RecordBlames(r, e, d);
    }
  }

  lemma {:induction false} RecordBlames(r: Run, e: RunEvent, d: Directive)
    requires e.RLaunch? || e.RNotification? || e.RCompaction? || e.RApproval?
    ensures Blamed(r, Step(r, e, d), RunBlame(r, e, d))
  {
    match e {
      case RLaunch(_, _) =>
      case RNotification(n) => NotificationBlames(r, n, d);
      case RCompaction(c) => CompactionBlames(r, c, d);
      case RApproval(threadId, turnId) => ApprovalBlames(r, threadId, turnId, d);
    }
  }

  lemma {:induction false} CompactionBlames(r: Run, c: CompactionEvent, d: Directive)
    ensures Blamed(r, Step(r, RCompaction(c), d), RunBlame(r, RCompaction(c), d))
  {
    CompactionExactly(r.observer, c, d);
  }

  lemma {:induction false} ApprovalBlames(r: Run, threadId: Text, turnId: Text, d: Directive)
    ensures Blamed(r, Step(r, RApproval(threadId, turnId), d), RunBlame(r, RApproval(threadId, turnId), d))
  {
    ApprovalExactly(r.observer, threadId, turnId);
  }

  lemma {:induction false} NotificationBlames(r: Run, n: Notification, d: Directive)
    ensures var s := Step(r, RNotification(n), d);
      && Blamed(r, s, RunBlame(r, RNotification(n), d))
      && (s.handlerThrew <==> r.handlerThrew || Throws(r, n))
  {
    NotificationExactly(r.observer, n, d);
    if HasClient(r.phase) { NotifiedIs(r, n, d); }
  }

  // The notification handler throws.
  predicate Throws(r: Run, n: Notification) {
    HasClient(r.phase) && r.observer.notificationCount < 10000 && ProjectTerminalTurn(n).Throws?
  }

  lemma {:induction false} NotifiedIs(r: Run, n: Notification, d: Directive)
    requires HasClient(r.phase)
    ensures var s := Step(r, RNotification(n), d);
      s.observer == RecordNotification(r.observer, n, d).0 && s.handlerThrew == (r.handlerThrew || RecordNotification(r.observer, n, d).1)
  {
  }

  // ---- Which runs fail ----

  ghost predicate BlamedAt(es: seq<RunEvent>, i: nat, d: Directive) {
    i < |es| && RunBlame(RunOf(es[..i], d), es[i], d) != {}
  }

  ghost predicate ThrewAt(es: seq<RunEvent>, i: nat, d: Directive) {
    i < |es| && es[i].RNotification? && Throws(RunOf(es[..i], d), es[i].n)
  }

  lemma {:induction false} BlamedMore(es: seq<RunEvent>, e: RunEvent, d: Directive)
    ensures (exists i: nat :: BlamedAt(es + [e], i, d)) <==> (exists i: nat :: BlamedAt(es, i, d)) || RunBlame(RunOf(es, d), e, d) != {}
    ensures (exists i: nat :: ThrewAt(es + [e], i, d)) <==>
      (exists i: nat :: ThrewAt(es, i, d)) || (e.RNotification? && Throws(RunOf(es, d), e.n))
  {
    assert (es + [e])[..|es|] == es;
    forall i: nat | i < |es|
      ensures (BlamedAt(es + [e], i, d) <==> BlamedAt(es, i, d)) && (ThrewAt(es + [e], i, d) <==> ThrewAt(es, i, d))
    {
      assert (es + [e])[..i] == es[..i];
    }
    assert BlamedAt(es + [e], |es|, d) <==> RunBlame(RunOf(es, d), e, d) != {};
    assert ThrewAt(es + [e], |es|, d) <==> e.RNotification? && Throws(RunOf(es, d), e.n);
  }

  lemma {:induction false} ThrewStep(r: Run, e: RunEvent, d: Directive)
    ensures Step(r, e, d).handlerThrew <==> r.handlerThrew || (e.RNotification? && Throws(r, e.n))
  {
    match e {
      case RNotification(n) => NotificationBlames(r, n, d);
      case RThreadReady(threadId, thrown, aborted, prompt) => ThreadThrewNot(r, threadId, thrown, aborted, prompt, d);
      case RCompactionReturned(threadId, aborted, prompt) => CompactedThrewNot(r, threadId, aborted, prompt);
      case RWaited(wait, ending, aborted) => WaitThrewNot(r, wait, ending, aborted);
      case RShutDown(clean, aborted) => EndThrewNot(r, clean, aborted);
      case RStartFailed(code, aborted, later) => StartThrewNot(r, code, aborted, later);
      case _ =>
    }
  }

  lemma {:induction false} EndThrewNot(r: Run, clean: bool, aborted: bool)
    ensures ShutDown(r, clean, aborted).handlerThrew == r.handlerThrew
  {
  }

  lemma {:induction false} StartThrewNot(r: Run, code: FailureCode, aborted: bool, later: bool)
    ensures StartFailed(r, code, aborted, later).handlerThrew == r.handlerThrew
  {
  }

  lemma {:induction false} ThreadThrewNot(r: Run, threadId: Text, thrown: Option<FailureCode>, aborted: bool, prompt: Option<Text>, d: Directive)
    ensures ThreadReady(r, threadId, thrown, aborted, prompt, d).handlerThrew == r.handlerThrew
  {
  }

  lemma {:induction false} CompactedThrewNot(r: Run, threadId: Text, aborted: bool, prompt: Option<Text>)
    ensures CompactionReturned(r, threadId, aborted, prompt).handlerThrew == r.handlerThrew
  {
  }

  lemma {:induction false} WaitThrewNot(r: Run, wait: Wait, ending: Ending, aborted: bool)
    ensures Waited(r, wait, ending, aborted).handlerThrew == r.handlerThrew
  {
  }

  ghost predicate FailsAs(es: seq<RunEvent>, d: Directive) {
    && (C.Unfailed(RunOf(es, d).observer) <==> !exists i: nat :: BlamedAt(es, i, d))
    && (RunOf(es, d).handlerThrew <==> exists i: nat :: ThrewAt(es, i, d))
  }

  // A run has failed exactly when some event was to blame; and its handler has thrown exactly when the
  // client reported a malformed end of a turn.
  lemma {:induction false} FailsExactly(es: seq<RunEvent>, d: Directive)
    requires forall e | e in es :: Possible(e)
    ensures FailsAs(es, d)
    decreases |es|
  {
    if es != [] {
      var before, e := P.LastOf(es);
      FailsExactly(before, d);
      FailsMore(before, e, d);
    }
  }

  lemma {:induction false} FailsMore(es: seq<RunEvent>, e: RunEvent, d: Directive)
    requires (forall x | x in es :: Possible(x)) && Possible(e) && FailsAs(es, d)
    ensures FailsAs(es + [e], d)
  {
    var r := RunOf(es, d);
    P.OneMore(es, e, d);
    BlamedMore(es, e, d);
    StepFails(es, e, d);
    ThrewStep(r, e, d);
  }

  lemma {:induction false} StepFails(es: seq<RunEvent>, e: RunEvent, d: Directive)
    requires (forall x | x in es :: Possible(x)) && Possible(e)
    ensures var r := RunOf(es, d);
      C.Unfailed(Step(r, e, d).observer) <==> C.Unfailed(r.observer) && RunBlame(r, e, d) == {}
  {
    var r := RunOf(es, d);
    R.TerminalRelationExactly(es, d);
    StepBlames(r, e, d);
    if !C.Unfailed(r.observer) { C.StepPersists(r, e, d); }
  }

  // ---- Which runs complete ----

  ghost predicate Blameless(es: seq<RunEvent>, d: Directive) {
    (forall i: nat :: !BlamedAt(es, i, d)) && forall i: nat :: !ThrewAt(es, i, d)
  }

  // A clean shutdown that the host did not abort, of a run in which nothing was to blame before.
  ghost predicate CompletesAt(es: seq<RunEvent>, i: nat, d: Directive) {
    && i < |es| && es[i] == RShutDown(true, false) && RunOf(es[..i], d).phase.ShuttingDown? && Blameless(es[..i], d)
  }

  lemma {:induction false} CompletesAtMore(es: seq<RunEvent>, e: RunEvent, i: nat, d: Directive)
    requires i <= |es|
    ensures CompletesAt(es + [e], i, d) <==>
      if i < |es| then CompletesAt(es, i, d) else e == RShutDown(true, false) && RunOf(es, d).phase.ShuttingDown? && Blameless(es, d)
  {
    assert (es + [e])[..i] == es[..i] && es[..|es|] == es;
  }

  // A run is reported as COMPLETED exactly when it came to such a shutdown.
  lemma {:induction false} CompletedExactly(es: seq<RunEvent>, d: Directive)
    requires forall e | e in es :: Possible(e)
    ensures C.ReportsCompletion(RunOf(es, d)) <==> exists i: nat :: CompletesAt(es, i, d)
    decreases |es|
  {
    if es != [] {
      var before, e := P.LastOf(es);
      CompletedExactly(before, d);
      CompletedMore(before, e, d);
      forall i: nat | i <= |before| ensures CompletesAt(before + [e], i, d) <==>
        if i < |before| then CompletesAt(before, i, d)
        else e == RShutDown(true, false) && RunOf(before, d).phase.ShuttingDown? && Blameless(before, d)
      {
        CompletesAtMore(before, e, i, d);
      }
      assert CompletesAt(es, |before|, d) <==> e == RShutDown(true, false) && RunOf(before, d).phase.ShuttingDown? && Blameless(before, d);
    }
  }

  lemma {:induction false} CompletedMore(es: seq<RunEvent>, e: RunEvent, d: Directive)
    requires (forall x | x in es :: Possible(x)) && Possible(e)
    ensures C.ReportsCompletion(RunOf(es + [e], d)) <==>
      || C.ReportsCompletion(RunOf(es, d))
      || (e == RShutDown(true, false) && RunOf(es, d).phase.ShuttingDown? && Blameless(es, d))
  {
    var r := RunOf(es, d);
    P.OneMore(es, e, d);
    R.TerminalRelationExactly(es, d);
    FailsExactly(es, d);
    if r.phase.Finished? {
      C.Reported(r, e, d);
    } else if e.RShutDown? && r.phase.ShuttingDown? {
      C.CompletesExactly(es, e.closedCleanly, e.aborted, d);
    } else {
      NoCompletion(r, e, d);
    }
  }

  lemma {:induction false} NoCompletion(r: Run, e: RunEvent, d: Directive)
    requires R.EventInv(r) && Possible(e) && !(e.RShutDown? && r.phase.ShuttingDown?)
    ensures !C.ReportsCompletion(Step(r, e, d))
  {
    match e {
      case RStartFailed(code, aborted, later) =>
        if r.phase.Starting? && C.ReportsCompletion(Step(r, e, d)) {
          C.CompletionGoes(r, e, d);
          C.StartFailedStops(r, code, aborted, later);
        }
      case RShutDown(_, _) =>
      case _ => C.NoReportYet(r, e, d);
    }
  }

  // ---- What was allowed in a completed run ----

  // Under the digest of the prompt.
  predicate IsAllowed(item: Json, location: Location, policy: Option<Text>, d: Directive) {
    policy.Some? && d.evaluate(item, location, policy.value) == Allowed
  }

  ghost predicate AllowsNotice(n: Notification, maintenance: Option<Text>, policy: Option<Text>, d: Directive) {
    var item := Property(n.params, "item");
    && IsObject(item)
    && if IsContextCompaction(item.value) then maintenance.Some? && n.TurnId() == maintenance
       else IsAllowed(item.value, LocationOf(n), policy, d)
  }

  ghost predicate AllowsTurn(turn: TerminalTurn, policy: Option<Text>, d: Directive) {
    forall k | 0 <= k < |turn.items| :: turn.items[k].Obj? && IsAllowed(turn.items[k], AtTerminal, policy, d)
  }

  // The notification is not forbidden, and its items are allowed but for those of the maintenance turn.
  ghost predicate AllowsNotification(n: Notification, maintenance: Option<Text>, policy: Option<Text>, d: Directive) {
    var p := ProjectTerminalTurn(n);
    && !Forbidden(n)
    && (IsItemNotice(n) ==> AllowsNotice(n, maintenance, policy, d))
    && (p.Projected? && maintenance != Some(p.turn.turnId) ==> AllowsTurn(p.turn, policy, d))
  }

  // What is known of the records from some event on: the policy and the maintenance turn, once bound.
  predicate LeadsTo(o: Observer, maintenance: Option<Text>, policy: Option<Text>) {
    (o.maintenanceTurn.Some? ==> maintenance == o.maintenanceTurn) && (o.itemPolicy.Some? ==> policy == o.itemPolicy)
  }

  lemma {:induction false} BlamelessItem(policy: Option<Text>, messages: nat, item: Json, location: Location, d: Directive)
    requires ItemBlame(policy, messages, item, location, d) == {}
    ensures item.Obj? && IsAllowed(item, location, policy, d)
  {
  }

  lemma {:induction false} BlamelessNotification(o: Observer, n: Notification, maintenance: Option<Text>, policy: Option<Text>, d: Directive)
    requires NotificationBlame(o, n, d) == {} && LeadsTo(o, maintenance, policy)
    ensures AllowsNotification(n, maintenance, policy, d)
  {
    var item, p := Property(n.params, "item"), ProjectTerminalTurn(n);
    assert ThreadsBlame(n) == {} && NoticeBlame(o, n, d) == {} && EndBlame(o, n, d) == {};
    if IsItemNotice(n) && !IsContextCompaction(item.value) {
      BlamelessItem(o.itemPolicy, |o.completedAgentMessages|, item.value, LocationOf(n), d);
    }
    if p.Projected? && maintenance != Some(p.turn.turnId) {
      assert TerminalBlame(o, p.turn, d) == {} && ItemsBlame(o.itemPolicy, p.turn.items, d) == {};
      forall k | 0 <= k < |p.turn.items| ensures p.turn.items[k].Obj? && IsAllowed(p.turn.items[k], AtTerminal, policy, d) {
        BlamelessItems(o.itemPolicy, p.turn.items, k, d);
        BlamelessItem(o.itemPolicy, 0, p.turn.items[k], AtTerminal, d);
      }
    }
  }

  lemma {:induction false} BlamelessItems(policy: Option<Text>, items: seq<Json>, k: nat, d: Directive)
    requires ItemsBlame(policy, items, d) == {} && k < |items|
    ensures ItemBlame(policy, 0, items[k], AtTerminal, d) == {}
    decreases |items|
  {
    if k > 0 {
      assert ItemsBlame(policy, items[1..], d) == {};
      BlamelessItems(policy, items[1..], k - 1, d);
    }
  }

  // ---- The policy stays bound ----

  predicate KeepsPolicy(o: Observer, t: Observer) { o.itemPolicy.Some? ==> t.itemPolicy == o.itemPolicy }

  lemma {:induction false} CaughtKeepsPolicy(r: Run, code: FailureCode, aborted: bool)
    ensures Caught(r, code, aborted).observer.itemPolicy == r.observer.itemPolicy
  {
  }

  lemma {:induction false} PromptKeepsPolicy(r: Run, prompt: Option<Text>, aborted: bool)
    ensures KeepsPolicy(r.observer, BindPrompt(r, prompt, aborted).observer)
  {
    CaughtKeepsPolicy(r, EFFECTIVE_INPUT_MISMATCH, aborted);
    if prompt.Some? {
      var t := r.(observer := BindItemPolicy(r.observer, prompt.value), phase := AwaitingTurn);
      if t.observer.verdict.failure.Some? { CaughtKeepsPolicy(t, t.observer.verdict.failure.value, aborted); }
    }
  }

  lemma {:induction false} ThreadKeepsPolicy(r: Run, threadId: Text, thrown: Option<FailureCode>, aborted: bool, prompt: Option<Text>, d: Directive)
    ensures KeepsPolicy(r.observer, ThreadReady(r, threadId, thrown, aborted, prompt, d).observer)
  {
    var t := r.(observer := BindThread(r.observer, threadId), threadId := threadId);
    if t.observer.verdict.failure.Some? {
      CaughtKeepsPolicy(t, t.observer.verdict.failure.value, aborted);
    } else if thrown.Some? {
      CaughtKeepsPolicy(t, thrown.value, aborted);
    } else if !d.manualCompaction {
      PromptKeepsPolicy(t, prompt, aborted);
    } else {
      CaughtKeepsPolicy(t, HOST_CANCELLED, aborted);
      var u := t.(observer := BeginManualCompaction(t.observer, d), phase := Compacting);
      if u.observer.verdict.failure.Some? { CaughtKeepsPolicy(u, u.observer.verdict.failure.value, aborted); }
    }
  }

  lemma {:induction false} CompactedKeepsPolicy(r: Run, threadId: Text, aborted: bool, prompt: Option<Text>)
    ensures KeepsPolicy(r.observer, CompactionReturned(r, threadId, aborted, prompt).observer)
  {
    CaughtKeepsPolicy(r, THREAD_BINDING_MISMATCH, aborted);
    var t := r.(observer := FinishManualCompaction(r.observer));
    CaughtKeepsPolicy(t, HOST_CANCELLED, aborted);
    PromptKeepsPolicy(t, prompt, aborted);
    if t.observer.verdict.failure.Some? { CaughtKeepsPolicy(t, t.observer.verdict.failure.value, aborted); }
  }

  lemma {:induction false} TerminatedKeepsPolicy(r: Run, t: TerminalTurn, ending: Ending, aborted: bool)
    ensures Terminated(r, t, ending, aborted).observer.itemPolicy == r.observer.itemPolicy
  {
    var u := r.(observer := Fail(r.observer, BACKEND_TURN_FAILED), constructionFailed := true);
    CaughtKeepsPolicy(r, HOST_CANCELLED, aborted);
    CaughtKeepsPolicy(r, TURN_BINDING_MISMATCH, aborted);
    CaughtKeepsPolicy(r, INVALID_TERMINAL_PAYLOAD, aborted);
    if ending.built.Error? {
      CaughtKeepsPolicy(r, ending.built.code, aborted);
      CaughtKeepsPolicy(u, ending.built.code, aborted);
    }
  }

  lemma {:induction false} WaitKeepsPolicy(r: Run, wait: Wait, ending: Ending, aborted: bool)
    ensures Waited(r, wait, ending, aborted).observer.itemPolicy == r.observer.itemPolicy
  {
    match wait {
      case POLICY_FAILURE =>
        CaughtKeepsPolicy(r, if r.observer.verdict.failure.Some? then r.observer.verdict.failure.value else UNSUPPORTED_BACKEND_ACTIVITY, aborted);
      case CLOSED => CaughtKeepsPolicy(r, CLIENT_FAILURE, aborted);
      case TERMINAL => if r.observer.terminal.Some? { TerminatedKeepsPolicy(r, r.observer.terminal.value, ending, aborted); }
      case _ =>
    }
  }

  lemma {:induction false} VerdictKeepsPolicy(o: Observer, id: Text, code: FailureCode)
    ensures Complete(o, id).itemPolicy == o.itemPolicy && Fail(o, code).itemPolicy == o.itemPolicy
  {
  }

  lemma {:induction false} SettledKeepsPolicy(r: Run)
    ensures Settled(r, false).observer.itemPolicy == r.observer.itemPolicy
  {
    VerdictKeepsPolicy(r.observer, [], CLIENT_FAILURE);
    if r.event.Some? {
      VerdictKeepsPolicy(r.observer, r.event.value.id, CLIENT_FAILURE);
      VerdictKeepsPolicy(Complete(r.observer, r.event.value.id), [], CLIENT_FAILURE);
    }
  }

  lemma {:induction false} ConcludeKeepsPolicy(r: Run, aborted: bool)
    ensures Conclude(r, aborted).observer.itemPolicy == r.observer.itemPolicy
  {
    var a := if aborted then r.(event := None, observer := Cancel(r.observer)) else r;
    SettledKeepsPolicy(a);
    assert Settled(r, aborted) == Settled(a, false);
  }

  lemma {:induction false} EndKeepsPolicy(r: Run, clean: bool, aborted: bool)
    ensures ShutDown(r, clean, aborted).observer.itemPolicy == r.observer.itemPolicy
  {
    ConcludeKeepsPolicy(r, aborted);
    ConcludeKeepsPolicy(r.(event := None, uncleanShutdown := true, observer := Fail(r.observer, CLEAN_SHUTDOWN_FAILED)), aborted);
  }

  lemma {:induction false} TurnKeepsPolicy(r: Run, turnId: Text, thrown: Option<FailureCode>, aborted: bool)
    ensures TurnReady(r, turnId, thrown, aborted).observer.itemPolicy == r.observer.itemPolicy
  {
    var t := r.(observer := BindTurn(r.observer, turnId), turnId := turnId, phase := AwaitingTerminal);
    if t.observer.verdict.failure.Some? {
      CaughtKeepsPolicy(t, t.observer.verdict.failure.value, aborted);
    } else if thrown.Some? {
      CaughtKeepsPolicy(t, thrown.value, aborted);
    }
  }

  lemma {:induction false} NotificationKeepsPolicy(r: Run, n: Notification, d: Directive)
    ensures Step(r, RNotification(n), d).observer.itemPolicy == r.observer.itemPolicy
  {
    if HasClient(r.phase) {
      NotifiedIs(r, n, d);
      NotificationExactly(r.observer, n, d);
      CountKeepsPolicy(r.observer, n, d);
    }
  }

  lemma {:induction false} CountKeepsPolicy(o: Observer, n: Notification, d: Directive)
    ensures o.notificationCount >= 10000 ==> RecordNotification(o, n, d).0.itemPolicy == o.itemPolicy
  {
  }

  lemma {:induction false} LaunchKeepsPolicy(r: Run, refusal: Option<FailureCode>, aborted: bool)
    ensures Launch(r, refusal, aborted).observer.itemPolicy == r.observer.itemPolicy
  {
    if !r.phase.Idle? {
      VerdictKeepsPolicy(r.observer, [], ADAPTER_REUSED);
    } else if refusal.Some? {
      VerdictKeepsPolicy(r.observer, [], refusal.value);
    } else {
      MarksKeepPolicy(r.observer);
    }
  }

  lemma {:induction false} MarksKeepPolicy(o: Observer)
    ensures Cancel(o).itemPolicy == o.itemPolicy && MarkRunning(o).itemPolicy == o.itemPolicy
  {
  }

  lemma {:induction false} StartKeepsPolicy(r: Run, code: FailureCode, aborted: bool, later: bool)
    ensures StartFailed(r, code, aborted, later).observer.itemPolicy == r.observer.itemPolicy
  {
    CaughtKeepsPolicy(r, code, aborted);
    ConcludeKeepsPolicy(Caught(r, code, aborted), later);
  }

  lemma {:induction false} StepKeepsPolicy(r: Run, e: RunEvent, d: Directive)
    ensures KeepsPolicy(r.observer, Step(r, e, d).observer)
  {
    match e {
      case RLaunch(refusal, aborted) => LaunchKeepsPolicy(r, refusal, aborted);
      case RStartFailed(code, aborted, later) => StartKeepsPolicy(r, code, aborted, later);
      case RThrown(code, aborted) => CaughtKeepsPolicy(r, code, aborted);
      case RThreadReady(threadId, thrown, aborted, prompt) => ThreadKeepsPolicy(r, threadId, thrown, aborted, prompt, d);
      case RCompactionReturned(threadId, aborted, prompt) => CompactedKeepsPolicy(r, threadId, aborted, prompt);
      case RWaited(wait, ending, aborted) => WaitKeepsPolicy(r, wait, ending, aborted);
      case RShutDown(clean, aborted) => EndKeepsPolicy(r, clean, aborted);
      case _ => OtherKeepsPolicy(r, e, d);
    }
  }

  lemma {:induction false} CompactionKeepsPolicy(r: Run, c: CompactionEvent, d: Directive)
    ensures Step(r, RCompaction(c), d).observer.itemPolicy == r.observer.itemPolicy
  {
    CompactionExactly(r.observer, c, d);
  }

  lemma {:induction false} OtherKeepsPolicy(r: Run, e: RunEvent, d: Directive)
    requires e.RTurnReady? || e.RInterrupted? || e.RNotification? || e.RCompaction? || e.RApproval?
    ensures Step(r, e, d).observer.itemPolicy == r.observer.itemPolicy
  {
    match e {
      case RTurnReady(turnId, thrown, aborted) => TurnKeepsPolicy(r, turnId, thrown, aborted);
      case RInterrupted(aborted) => if r.phase.Interrupting? { CaughtKeepsPolicy(r, r.phase.code, aborted); }
      case RNotification(n) => NotificationKeepsPolicy(r, n, d);
      case RCompaction(c) => CompactionKeepsPolicy(r, c, d);
      case RApproval(threadId, turnId) => ApprovalExactly(r.observer, threadId, turnId);
    }
  }

  lemma {:induction false} PolicyStays(es: seq<RunEvent>, i: nat, d: Directive)
    requires i <= |es|
    ensures KeepsPolicy(RunOf(es[..i], d).observer, RunOf(es, d).observer)
    decreases |es|
  {
    if i == |es| {
      assert es[..i] == es;
    } else {
      var before, e := P.LastOf(es);
      assert es[..i] == before[..i];
      PolicyStays(before, i, d);
      P.OneMore(before, e, d);
      StepKeepsPolicy(RunOf(before, d), e, d);
    }
  }

  // So does the maintenance turn, in a run that is going.
  lemma {:induction false} MaintenanceStays(es: seq<RunEvent>, i: nat, d: Directive)
    requires (forall e | e in es :: Possible(e)) && i <= |es| && C.Going(RunOf(es, d))
    ensures var o, m := RunOf(es[..i], d).observer, RunOf(es, d).observer.maintenanceTurn;
      o.maintenanceTurn.Some? ==> m == o.maintenanceTurn
    decreases |es|
  {
    if i == |es| {
      assert es[..i] == es;
    } else {
      var before, e := P.LastOf(es);
      assert es[..i] == before[..i];
      P.OneMore(before, e, d);
      C.GoingRuns(before, d);
      R.TerminalRelationExactly(before, d);
      C.GoingStep(RunOf(before, d), e, d);
      MaintenanceStays(before, i, d);
    }
  }

  // ---- Completed runs ----

  // The client reports the notification while there is one.
  ghost predicate SeesAt(es: seq<RunEvent>, i: nat, d: Directive) {
    i < |es| && es[i].RNotification? && HasClient(RunOf(es[..i], d).phase)
  }

  lemma {:induction false} FinishedSeesNothing(es: seq<RunEvent>, i: nat, k: nat, d: Directive)
    requires i <= k < |es| && RunOf(es[..i], d).phase.Finished?
    ensures RunOf(es[..k], d).phase.Finished? && !SeesAt(es, k, d)
    decreases k - i
  {
    if i < k {
      var before, e := es[..k - 1], es[k - 1];
      FinishedSeesNothing(es, i, k - 1, d);
      assert es[..k] == before + [e];
      P.OneMore(before, e, d);
      C.Reported(RunOf(before, d), e, d);
    }
  }

  lemma {:induction false} BlamelessBefore(es: seq<RunEvent>, i: nat, k: nat, d: Directive)
    requires k < i <= |es| && Blameless(es[..i], d)
    ensures RunBlame(RunOf(es[..k], d), es[k], d) == {}
  {
    assert es[..i][..k] == es[..k];
    assert !BlamedAt(es[..i], k, d);
  }

  // The records at the end are those at the shutdown.
  lemma {:induction false} FinishedRecords(es: seq<RunEvent>, i: nat, d: Directive)
    requires i <= |es| && RunOf(es[..i], d).phase.Finished?
    ensures var o, t := RunOf(es[..i], d).observer, RunOf(es, d).observer; t == o.(verdict := t.verdict)
    ensures RunOf(es, d).phase.Finished?
    decreases |es|
  {
    if i == |es| {
      assert es[..i] == es;
    } else {
      var before, e := P.LastOf(es);
      assert es[..i] == before[..i];
      FinishedRecords(before, i, d);
      P.OneMore(before, e, d);
      C.Reported(RunOf(before, d), e, d);
    }
  }

  lemma {:induction false} CompletesThere(es: seq<RunEvent>, i: nat, d: Directive)
    requires (forall e | e in es :: Possible(e)) && CompletesAt(es, i, d)
    ensures C.Going(RunOf(es[..i + 1], d)) && RunOf(es[..i + 1], d).phase.Finished?
  {
    var before, all := es[..i], es[..i + 1];
    assert all == before + [es[i]];
    P.OneMore(before, es[i], d);
    CompletesAtMore(before, es[i], i, d);
    CompletedMore(before, es[i], d);
    R.TerminalRelationExactly(before, d);
    C.CompletionGoes(RunOf(before, d), es[i], d);
  }

  lemma {:induction false} LeadsThere(es: seq<RunEvent>, i: nat, k: nat, d: Directive)
    requires (forall e | e in es :: Possible(e)) && CompletesAt(es, i, d) && k <= i
    ensures var o := RunOf(es, d).observer; LeadsTo(RunOf(es[..k], d).observer, o.maintenanceTurn, o.itemPolicy)
  {
    CompletesThere(es, i, d);
    MaintenanceStays(es[..i + 1], k, d);
    FinishedRecords(es, i + 1, d);
    PolicyStays(es, k, d);
    assert es[..i + 1][..k] == es[..k];
  }

  // In a run that is reported as COMPLETED no notification was forbidden, and every item, whether notified
  // or in the terminal turn, was allowed under the digest of its prompt at the place where it was, but for
  // the items of the manual compaction.
  lemma {:induction false} CompletedRunsAreAllowed(es: seq<RunEvent>, k: nat, d: Directive)
    requires (forall e | e in es :: Possible(e)) && C.ReportsCompletion(RunOf(es, d)) && SeesAt(es, k, d)
    ensures var o := RunOf(es, d).observer;
      (d.manualCompaction <==> o.maintenanceTurn.Some?) && AllowsNotification(es[k].n, o.maintenanceTurn, o.itemPolicy, d)
  {
    CompletedExactly(es, d);
    C.CompletedRunsAreClean(es, d);
    var i: nat :| CompletesAt(es, i, d);
    SeenBefore(es, i, k, d);
    LeadsThere(es, i, k, d);
    BlamelessNotification(RunOf(es[..k], d).observer, es[k].n, RunOf(es, d).observer.maintenanceTurn, RunOf(es, d).observer.itemPolicy, d);
  }

  lemma {:induction false} SeenBefore(es: seq<RunEvent>, i: nat, k: nat, d: Directive)
    requires (forall e | e in es :: Possible(e)) && CompletesAt(es, i, d) && SeesAt(es, k, d)
    ensures k < i && NotificationBlame(RunOf(es[..k], d).observer, es[k].n, d) == {}
  {
    if k > i {
      CompletesThere(es, i, d);
      FinishedSeesNothing(es, i + 1, k, d);
    } else {
      assert k != i;
      BlamelessBefore(es, i, k, d);
      NotificationIsBlamed(RunOf(es[..k], d), es[k], d);
    }
  }

  lemma {:induction false} NotificationIsBlamed(r: Run, e: RunEvent, d: Directive)
    requires e.RNotification? && HasClient(r.phase) && RunBlame(r, e, d) == {}
    ensures NotificationBlame(r.observer, e.n, d) == {}
  {
  }

  // The wait for the terminal turn ended with a payload that was accepted, and the event was built.
  predicate Accepts(r: Run, e: RunEvent, id: Text) {
    && e.RWaited? && e.wait.TERMINAL? && r.phase.AwaitingTerminal? && e.ending.accepted && e.ending.built == Event(id)
    && r.observer.terminal.Some? && r.observer.terminal.value.status == Ascii("completed")
    && r.observer.terminal.value.error == Some(Null)
  }

  ghost predicate AcceptedAt(es: seq<RunEvent>, j: nat, id: Text, d: Directive) {
    j < |es| && Accepts(RunOf(es[..j], d), es[j], id)
  }

  lemma {:induction false} EventMoves(r: Run, e: RunEvent, d: Directive)
    requires R.EventInv(r) && Possible(e) && !(e.RShutDown? && r.phase.ShuttingDown?) && C.Unfailed(Step(r, e, d).observer)
    requires Step(r, e, d).event.Some?
    ensures Step(r, e, d).event == r.event || (exists id :: Accepts(r, e, id) && Step(r, e, d).event == Some(WorkerEvent(id, true)))
  {
    match e {
      case RStartFailed(code, aborted, later) => if r.phase.Starting? { C.StartFailedStops(r, code, aborted, later); }
      case RThreadReady(threadId, thrown, aborted, prompt) => ThreadEventStays(r, threadId, thrown, aborted, prompt, d);
      case RCompactionReturned(threadId, aborted, prompt) => CompactedEventStays(r, threadId, aborted, prompt);
      case RWaited(wait, ending, aborted) => if r.phase.AwaitingTerminal? { WaitedEvent(r, wait, ending, aborted); }
      case _ => OtherEventStays(r, e, d);
    }
  }

  lemma {:induction false} OtherEventStays(r: Run, e: RunEvent, d: Directive)
    requires !e.RStartFailed? && !e.RThreadReady? && !e.RCompactionReturned? && !e.RWaited? && !(e.RShutDown? && r.phase.ShuttingDown?)
    ensures Step(r, e, d).event == r.event
  {
  }

  lemma {:induction false} ThreadEventStays(r: Run, threadId: Text, thrown: Option<FailureCode>, aborted: bool, prompt: Option<Text>, d: Directive)
    ensures ThreadReady(r, threadId, thrown, aborted, prompt, d).event == r.event
  {
  }

  lemma {:induction false} CompactedEventStays(r: Run, threadId: Text, aborted: bool, prompt: Option<Text>)
    ensures CompactionReturned(r, threadId, aborted, prompt).event == r.event
  {
  }

  lemma {:induction false} WaitedEvent(r: Run, wait: Wait, ending: Ending, aborted: bool)
    requires r.phase.AwaitingTerminal? && C.Unfailed(Waited(r, wait, ending, aborted).observer)
    ensures var s := Waited(r, wait, ending, aborted);
      s.event == r.event ||
      (ending.built.Event? && Accepts(r, RWaited(wait, ending, aborted), ending.built.id) && s.event == Some(WorkerEvent(ending.built.id, true)))
  {
  }

  lemma {:induction false} EventOrigin(es: seq<RunEvent>, d: Directive) returns (j: nat, id: Text)
    requires (forall e | e in es :: Possible(e)) && C.Going(RunOf(es, d)) && !RunOf(es, d).phase.Finished? && RunOf(es, d).event.Some?
    ensures AcceptedAt(es, j, id, d) && RunOf(es, d).event == Some(WorkerEvent(id, true))
    decreases |es|
  {
    var before, e := P.LastOf(es);
    var r := RunOf(before, d);
    P.OneMore(before, e, d);
    R.TerminalRelationExactly(before, d);
    C.GoingRuns(before, d);
    if r.phase.Finished? { C.Reported(r, e, d); }
    C.GoingStep(r, e, d);
    EndFinishes(r, e, d);
    EventMoves(r, e, d);
    if RunOf(es, d).event == r.event {
      j, id := EventOrigin(before, d);
      assert es[..j] == before[..j];
    } else {
      j := |before|;
      id :| Accepts(r, e, id) && Step(r, e, d).event == Some(WorkerEvent(id, true));
      assert es[..j] == before;
    }
  }

  lemma {:induction false} EndFinishes(r: Run, e: RunEvent, d: Directive)
    ensures e.RShutDown? && r.phase.ShuttingDown? ==> Step(r, e, d).phase.Finished?
  {
  }

  // A run that is reported as COMPLETED yields the event of a payload that was accepted.
  lemma {:induction false} CompletedRunsWereAccepted(es: seq<RunEvent>, d: Directive) returns (j: nat, id: Text)
    requires (forall e | e in es :: Possible(e)) && C.ReportsCompletion(RunOf(es, d))
    ensures AcceptedAt(es, j, id, d) && RunOf(es, d).yielded == Some(WorkerEvent(id, true))
  {
    CompletedExactly(es, d);
    var i: nat :| CompletesAt(es, i, d);
    var before := es[..i];
    FailsExactly(before, d);
    C.GoingRuns(before, d);
    j, id := EventOrigin(before, d);
    assert es[..j] == before[..j];
    YieldsThere(es, i, d);
  }

  lemma {:induction false} YieldsThere(es: seq<RunEvent>, i: nat, d: Directive)
    requires (forall e | e in es :: Possible(e)) && CompletesAt(es, i, d)
    ensures RunOf(es, d).yielded == RunOf(es[..i], d).event
  {
    var before := es[..i];
    assert es[..i + 1] == before + [es[i]];
    P.OneMore(before, es[i], d);
    BlamelessGoes(before, d);
    YieldsEvent(RunOf(before, d));
    YieldStays(es, i + 1, d);
  }

  lemma {:induction false} BlamelessGoes(es: seq<RunEvent>, d: Directive)
    requires (forall e | e in es :: Possible(e)) && RunOf(es, d).phase.ShuttingDown? && Blameless(es, d)
    ensures C.Unfailed(RunOf(es, d).observer) && RunOf(es, d).event.Some? && !RunOf(es, d).handlerThrew
  {
    FailsExactly(es, d);
    C.GoingRuns(es, d);
    R.TerminalRelationExactly(es, d);
  }

  lemma {:induction false} YieldsEvent(r: Run)
    requires C.Unfailed(r.observer) && r.event.Some? && !r.handlerThrew
    ensures ShutDown(r, true, false).yielded == r.event && ShutDown(r, true, false).phase.Finished?
  {
  }

  lemma {:induction false} YieldStays(es: seq<RunEvent>, i: nat, d: Directive)
    requires i <= |es| && RunOf(es[..i], d).phase.Finished?
    ensures RunOf(es, d).yielded == RunOf(es[..i], d).yielded && RunOf(es, d).phase.Finished?
    decreases |es|
  {
    if i == |es| {
      assert es[..i] == es;
    } else {
      var before, e := P.LastOf(es);
      assert es[..i] == before[..i];
      YieldStays(before, i, d);
      P.OneMore(before, e, d);
      C.Reported(RunOf(before, d), e, d);
    }
  }

  // ---- What is reported ----

  // Whatever becomes of the verdict after the end.
  predicate ReportsRecords(r: Run) {
    r.report.Some? ==>
      && r.phase.Finished? && r.report.value.session == r.observer.session && r.report.value.operation == r.observer.operation
      && r.report.value.compactionCount == r.observer.compactionCount && r.report.value.resultEventId == r.observer.resultEventId
  }

  lemma {:induction false} StepReportsRecords(r: Run, e: RunEvent, d: Directive)
    requires ReportsRecords(r) && (!r.phase.Finished? ==> r.report.None?)
    ensures ReportsRecords(Step(r, e, d))
  {
    if r.phase.Finished? {
      C.Reported(r, e, d);
    } else {
      match e {
        case RStartFailed(code, aborted, later) => ConcludeReportsRecords(Caught(r, code, aborted), later);
        case RShutDown(clean, aborted) =>
          ConcludeReportsRecords(r, aborted);
          ConcludeReportsRecords(r.(event := None, uncleanShutdown := true, observer := Fail(r.observer, CLEAN_SHUTDOWN_FAILED)), aborted);
        case _ => C.NoReportYet(r, e, d);
      }
    }
  }

  lemma {:induction false} ConcludeReportsRecords(r: Run, aborted: bool)
    ensures ReportsRecords(Conclude(r, aborted))
  {
  }

  // A report names the thread, the turn, the compactions and the event that are on record.
  lemma {:induction false} ReportsExactly(es: seq<RunEvent>, d: Directive)
    requires forall e | e in es :: Possible(e)
    ensures ReportsRecords(RunOf(es, d))
    decreases |es|
  {
    if es != [] {
      var before, e := P.LastOf(es);
      ReportsExactly(before, d);
      R.TerminalRelationExactly(before, d);
      P.OneMore(before, e, d);
      StepReportsRecords(RunOf(before, d), e, d);
    }
  }

  // ---- The code of a failure ----

  // A run fails with a code of the first event that was to blame; only a cancellation may still replace
  // the failure of a turn.
  lemma {:induction false} FailsWithTheFirst(es: seq<RunEvent>, d: Directive) returns (i: nat)
    requires (forall e | e in es :: Possible(e)) && !C.Unfailed(RunOf(es, d).observer)
    ensures BlamedAt(es, i, d) && forall k: nat | k < i :: !BlamedAt(es, k, d)
    ensures var code, blame := RunOf(es, d).observer.verdict.failure.value, RunBlame(RunOf(es[..i], d), es[i], d);
      code in blame || (code == HOST_CANCELLED && BACKEND_TURN_FAILED in blame)
    decreases |es|
  {
    var before, e := P.LastOf(es);
    var r := RunOf(before, d);
    P.OneMore(before, e, d);
    R.TerminalRelationExactly(before, d);
    if C.Unfailed(r.observer) {
      i := |before|;
      FailsExactly(before, d);
      StepBlames(r, e, d);
      forall k: nat | k < i ensures !BlamedAt(es, k, d) { BlamedEarlier(es, before, k, d); }
      assert es[..i] == before;
    } else {
      i := FailsWithTheFirst(before, d);
      C.StepPersists(r, e, d);
      forall k: nat | k <= i ensures BlamedAt(es, k, d) <==> BlamedAt(before, k, d) { BlamedEarlier(es, before, k, d); }
      assert es[..i] == before[..i];
    }
  }

  lemma {:induction false} BlamedEarlier(es: seq<RunEvent>, before: seq<RunEvent>, k: nat, d: Directive)
    requires es != [] && before == es[..|es| - 1] && k < |before|
    ensures BlamedAt(es, k, d) <==> BlamedAt(before, k, d)
  {
    assert es[..k] == before[..k];
  }

  // ---- A run that completes ----

  const COMPLETED_STATUS := Ascii("completed")

  function CompletedBody(turn: Text): Json {
    Obj(map[Ascii("id") := Str(turn), Ascii("status") := Str(COMPLETED_STATUS), Ascii("items") := Arr([]), Ascii("error") := Null])
  }

  function CompletedTurn(thread: Text, turn: Text): Notification {
    Notification("turn/completed", Obj(map[Ascii("threadId") := Str(thread), Ascii("turn") := CompletedBody(turn)]))
  }

  function CompletingRun(thread: Text, turn: Text, prompt: Text, id: Text): seq<RunEvent> {
    CompletingStart(thread, turn, prompt, id) + [RShutDown(true, false)]
  }

  lemma {:induction false} CompletedBodyIs(turn: Text)
    ensures var b := CompletedBody(turn);
      && Property(b, "id") == Some(Str(turn)) && Property(b, "status") == Some(Str(COMPLETED_STATUS))
      && Property(b, "items") == Some(Arr([])) && Property(b, "itemsView").None? && Property(b, "error") == Some(Null)
  {
    assert |Ascii("id")| == 2 && |Ascii("status")| == 6 && |Ascii("items")| == 5 && |Ascii("itemsView")| == 9;
    assert |Ascii("error")| == 5 && Ascii("error")[0] == 'e' as int && Ascii("items")[0] == 'i' as int;
  }

  lemma {:induction false} CompletedTurnIs(thread: Text, turn: Text)
    ensures var n := CompletedTurn(thread, turn);
      Property(n.params, "threadId") == Some(Str(thread)) && Property(n.params, "turn") == Some(CompletedBody(turn)) &&
      Property(n.params, "turnId").None?
  {
    assert |Ascii("threadId")| == 8 && |Ascii("turn")| == 4 && |Ascii("turnId")| == 6;
  }

  lemma {:induction false} NotBlank(t: Text)
    requires t != [] && !IsWhitespace(t[0])
    ensures Trim(t) != []
  {
    TrimKeeps(t);
  }

  lemma {:induction false} CompletedStatusStarts()
    ensures |COMPLETED_STATUS| == 9 && COMPLETED_STATUS[0] == 0x63 && !IsWhitespace(0x63)
  {
  }

  lemma {:induction false} CompletedStatusIs()
    ensures IsText(Some(Str(COMPLETED_STATUS)), COMPLETED_STATUS, 16384)
  {
    var t := COMPLETED_STATUS;
    CompletedStatusStarts();
    P.Utf8AtMost(t);
    NotBlank(t);
  }

  function CompletedTerminal(thread: Text, turn: Text): TerminalTurn { TerminalTurn(thread, turn, COMPLETED_STATUS, Some(Null), []) }

  lemma {:induction false} CompletedTurnProjects(thread: Text, turn: Text)
    requires P.IsIdentifier(thread) && P.IsIdentifier(turn)
    ensures ProjectTerminalTurn(CompletedTurn(thread, turn)) == Projected(CompletedTerminal(thread, turn))
  {
    CompletedTurnIs(thread, turn);
    CompletedBodyIs(turn);
    CompletedStatusIs();
    TrimKeeps(thread);
    TrimKeeps(turn);
    assert Describes(CompletedTurn(thread, turn), CompletedTerminal(thread, turn));
    ProjectsExactly(CompletedTurn(thread, turn), CompletedTerminal(thread, turn));
  }

  lemma {:induction false} CompletedTurnIsBlameless(o: Observer, thread: Text, turn: Text, d: Directive)
    requires P.IsIdentifier(thread) && P.IsIdentifier(turn) && o.session == Some(thread) && o.operation == Some(turn)
    requires o.terminal.None? && o.maintenanceTurn.None? && !o.manualCompactionPending && o.notificationCount == 0
    requires o.threadRefs == {} && o.turnRefs == {}
    ensures NotificationBlame(o, CompletedTurn(thread, turn), d) == {} && EndsOperation(o, CompletedTurn(thread, turn))
  {
    var n := CompletedTurn(thread, turn);
    P.TurnNamesAreAllowed(n.name);
    CompletedTurnIs(thread, turn);
    CompletedTurnProjects(thread, turn);
    assert n.ThreadId() == Some(thread) && n.TurnId().None?;
    assert ThreadsAfter(o, n) == {thread} && TurnsAfter(o, n) == {turn};
    assert TerminalBlame(o, CompletedTerminal(thread, turn), d) == {};
  }

  lemma {:induction false} CompletedTurnSeen(r: Run, thread: Text, turn: Text, d: Directive)
    requires P.Awaits(r, thread, turn) && P.IsIdentifier(thread) && P.IsIdentifier(turn) && !r.handlerThrew
    ensures var s := Step(r, RNotification(CompletedTurn(thread, turn)), d);
      && s.phase.AwaitingTerminal? && s.threadId == thread && s.turnId == turn && C.Going(s)
      && s.observer.terminal == Some(CompletedTerminal(thread, turn))
  {
    var n := CompletedTurn(thread, turn);
    CompletedTurnProjects(thread, turn);
    CompletedTurnIsBlameless(r.observer, thread, turn, d);
    NotificationExactly(r.observer, n, d);
    NotifiedIs(r, n, d);
    P.NotifiedIs(r, n, d);
  }

  lemma {:induction false} AcceptedEnds(r: Run, thread: Text, turn: Text, id: Text, d: Directive)
    requires r.phase.AwaitingTerminal? && r.threadId == thread && r.turnId == turn && C.Going(r)
    requires r.observer.terminal == Some(CompletedTerminal(thread, turn))
    ensures var s := Step(r, RWaited(TERMINAL, Ending(true, Event(id)), false), d);
      s.phase.ShuttingDown? && C.Going(s) && s.event == Some(WorkerEvent(id, true))
  {
  }

  lemma {:induction false} OpeningIsGoing(thread: Text, turn: Text, prompt: Text, d: Directive)
    requires !d.manualCompaction
    ensures !RunOf(P.Opening(thread, turn, prompt), d).handlerThrew
  {
    var opening := P.Opening(thread, turn, prompt);
    assert forall e | e in opening :: !e.RNotification?;
    FailsExactly(opening, d);
  }

  // There are runs that complete: without a compaction, a turn that ends well with an accepted payload, before
  // a clean shutdown, is reported as COMPLETED and yields its event.
  lemma {:induction false} RunsComplete(thread: Text, turn: Text, prompt: Text, id: Text, d: Directive)
    requires !d.manualCompaction && P.IsIdentifier(thread) && P.IsIdentifier(turn)
    ensures var s := RunOf(CompletingRun(thread, turn, prompt, id), d);
      C.ReportsCompletion(s) && s.yielded == Some(WorkerEvent(id, true))
  {
    var before := CompletingStart(thread, turn, prompt, id);
    CompletingStarts(thread, turn, prompt, id, d);
    C.CompletesExactly(before, true, false, d);
    P.OneMore(before, RShutDown(true, false), d);
    YieldsEvent(RunOf(before, d));
  }

  // Up to its shutdown.
  function CompletingStart(thread: Text, turn: Text, prompt: Text, id: Text): seq<RunEvent> {
    P.Opening(thread, turn, prompt) + [RNotification(CompletedTurn(thread, turn))] + [RWaited(TERMINAL, Ending(true, Event(id)), false)]
  }

  lemma {:induction false} CompletingStarts(thread: Text, turn: Text, prompt: Text, id: Text, d: Directive)
    requires !d.manualCompaction && P.IsIdentifier(thread) && P.IsIdentifier(turn)
    ensures var s := RunOf(CompletingStart(thread, turn, prompt, id), d);
      s.phase.ShuttingDown? && C.Going(s) && s.event == Some(WorkerEvent(id, true))
    ensures forall e | e in CompletingStart(thread, turn, prompt, id) :: Possible(e)
  {
    var opening := P.Opening(thread, turn, prompt);
    var seen := opening + [RNotification(CompletedTurn(thread, turn))];
    P.OpeningAwaits(thread, turn, prompt, d);
    OpeningIsGoing(thread, turn, prompt, d);
    P.OneMore(opening, RNotification(CompletedTurn(thread, turn)), d);
    CompletedTurnSeen(RunOf(opening, d), thread, turn, d);
    P.OneMore(seen, RWaited(TERMINAL, Ending(true, Event(id)), false), d);
    AcceptedEnds(RunOf(seen, d), thread, turn, id, d);
  }

  // ---- Interruptions ----

  // The wait for the terminal turn was given up, by the host or because the time was up.
  predicate GivesUp(r: Run, e: RunEvent, code: FailureCode) {
    && r.phase.AwaitingTerminal? && e.RWaited?
    && ((e.wait.ABORT? && code == HOST_CANCELLED) || (e.wait.TIMEOUT? && code == NO_TERMINAL_PAYLOAD))
  }

  lemma {:induction false} StepInterrupts(r: Run, e: RunEvent, d: Directive)
    ensures var s := Step(r, e, d); s.phase.Interrupting? ==> s.phase == r.phase || GivesUp(r, e, s.phase.code)
    ensures forall code | GivesUp(r, e, code) :: Step(r, e, d).phase == Interrupting(code)
  {
    match e {
      case RThreadReady(threadId, thrown, aborted, prompt) => ThreadInterruptsNot(r, threadId, thrown, aborted, prompt, d);
      case RCompactionReturned(threadId, aborted, prompt) => CompactedInterruptsNot(r, threadId, aborted, prompt);
      case RWaited(wait, ending, aborted) => if r.phase.AwaitingTerminal? { WaitInterrupts(r, wait, ending, aborted); }
      case RShutDown(clean, aborted) =>
      case _ =>
    }
  }

  lemma {:induction false} ThreadInterruptsNot(r: Run, threadId: Text, thrown: Option<FailureCode>, aborted: bool, prompt: Option<Text>, d: Directive)
    ensures !ThreadReady(r, threadId, thrown, aborted, prompt, d).phase.Interrupting? || r.phase.Interrupting?
    ensures r.phase.Starting? ==> !ThreadReady(r, threadId, thrown, aborted, prompt, d).phase.Interrupting?
  {
  }

  lemma {:induction false} CompactedInterruptsNot(r: Run, threadId: Text, aborted: bool, prompt: Option<Text>)
    ensures !CompactionReturned(r, threadId, aborted, prompt).phase.Interrupting?
  {
  }

  lemma {:induction false} WaitInterrupts(r: Run, wait: Wait, ending: Ending, aborted: bool)
    requires r.phase.AwaitingTerminal?
    ensures var s := Waited(r, wait, ending, aborted); s.phase.Interrupting? ==> GivesUp(r, RWaited(wait, ending, aborted), s.phase.code)
  {
  }

  // A run is being interrupted with a code only after its wait was given up for that reason.
  lemma {:induction false} InterruptedExactly(es: seq<RunEvent>, d: Directive) returns (i: nat)
    requires RunOf(es, d).phase.Interrupting?
    ensures i < |es| && GivesUp(RunOf(es[..i], d), es[i], RunOf(es, d).phase.code)
    decreases |es|
  {
    var before, e := P.LastOf(es);
    P.OneMore(before, e, d);
    StepInterrupts(RunOf(before, d), e, d);
    if RunOf(before, d).phase == RunOf(es, d).phase {
      i := InterruptedExactly(before, d);
      assert es[..i] == before[..i];
    } else {
      i := |before|;
      assert es[..i] == before;
    }
  }
}
