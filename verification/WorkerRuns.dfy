// Whole Worker runs: what a reported COMPLETED means, and which reports are well formed.
module WorkerRuns {
  import opened Options
  import opened CodeUnits
  import opened JsonAccess
  import opened JsonValues
  import opened ObserverModel
  import opened WorkerRunModel

  // ---- The report and its result event ----

  // packages/domain/src/external-execution.ts: the relation that terminal observations must satisfy.
  predicate WellFormedReport(p: Report) {
    && (p.state == COMPLETED || p.state == FAILED || p.state == INTERRUPTED)
    && (p.state == COMPLETED ==> p.failure.None? && p.resultEventId.Some?)
    && (p.state != COMPLETED ==> p.failure.Some?)
    && (p.state == FAILED ==> ((p.failure == Some(BACKEND_TURN_FAILED)) == p.resultEventId.Some?))
    && (p.state == INTERRUPTED ==> p.resultEventId.None?)
  }

  ghost predicate VerdictInv(v: Verdict) {
    && (v.failure.None? ==> v.state == READY || v.state == RUNNING)
    && (v.failure.Some? ==> v.state == if v.failure == Some(HOST_CANCELLED) then INTERRUPTED else FAILED)
  }

  // Before the end: when a failed turn is the failure, its Worker Event is at hand or was lost.
  ghost predicate EventInv(r: Run) {
    && VerdictInv(r.observer.verdict)
    && r.observer.resultEventId.None? && r.report.None? && r.yielded.None?
    && (r.observer.verdict.failure == Some(BACKEND_TURN_FAILED) ==>
         r.phase.ShuttingDown? && (r.constructionFailed || (r.event.Some? && !r.event.value.isResult)))
    && (r.event.Some? ==> r.phase.ShuttingDown? && !r.constructionFailed && !r.uncleanShutdown)
    && (r.event.Some? && !r.event.value.isResult ==> r.observer.verdict.failure.Some?)
    && (r.phase.ShuttingDown? ==> r.event.Some? || r.observer.verdict.failure.Some?)
    && !r.uncleanShutdown
    && (r.constructionFailed ==> r.phase.ShuttingDown?)
    && (r.phase.Idle? ==> r.observer == FRESH && !r.handlerThrew)
    && (r.phase.Interrupting? ==> r.phase.code != BACKEND_TURN_FAILED)
  }

  // What is reported and yielded at the end.
  ghost predicate EndInv(r: Run) {
    r.report.Some? ==>
      var p := r.report.value;
      && (WellFormedReport(p) <==> !(p.failure == Some(BACKEND_TURN_FAILED) && (r.constructionFailed || r.uncleanShutdown)))
      && (r.yielded.Some? <==> p.resultEventId.Some?)
      && (r.yielded.Some? ==> r.yielded.value.id == p.resultEventId.value && r.yielded.value.isResult == (p.state == COMPLETED))
  }

  ghost predicate Concludes(r: Run) {
    && VerdictInv(r.observer.verdict) && r.observer.resultEventId.None?
    && (r.observer.verdict.failure == Some(BACKEND_TURN_FAILED) ==>
         r.constructionFailed || r.uncleanShutdown || (r.event.Some? && !r.event.value.isResult))
    && (r.event.Some? ==> !r.constructionFailed && !r.uncleanShutdown)
    && (r.event.Some? && r.observer.verdict.failure.None? ==> r.event.value.isResult)
  }

  lemma {:induction false} ConcludeReports(r: Run, aborted: bool)
    requires Concludes(r)
    ensures EndInv(Conclude(r, aborted)) && Conclude(r, aborted).report.Some?
  {
    if aborted {
      var a := r.(event := None, observer := Cancel(r.observer));
      assert Conclude(r, aborted) == Conclude(a, false);
      ConcludeUnaborted(a);
    } else {
      ConcludeUnaborted(r);
    }
  }

  lemma {:induction false} ConcludeUnaborted(r: Run)
    requires Concludes(r)
    ensures EndInv(Conclude(r, false)) && Conclude(r, false).report.Some?
  {
  }

  ghost predicate ReportInv(r: Run) { if r.phase.Finished? then EndInv(r) else EventInv(r) }

  // An observation changes the verdict only by failing, and not with BACKEND_TURN_FAILED.
  ghost predicate VerdictMove(v: Verdict, w: Verdict) {
    w == v || (v.failure.None? && w.failure.Some? && w.failure.value != BACKEND_TURN_FAILED && w == v.Fail(w.failure.value))
  }

  ghost predicate Observes(o: Observer, t: Observer) {
    && VerdictMove(o.verdict, t.verdict)
    && t.resultEventId == o.resultEventId && t.session == o.session && t.operation == o.operation
  }

  lemma {:induction false} ObservesTwice(o: Observer, t: Observer, u: Observer)
    requires Observes(o, t) && Observes(t, u)
    ensures Observes(o, u)
  {
  }

  lemma {:induction false} RecordItemObserves(o: Observer, item: Json, location: Location, d: Directive)
    ensures var t := RecordItem(o, item, location, d);
      Observes(o, t) && t == o.(verdict := t.verdict, completedAgentMessages := t.completedAgentMessages)
  {
    var t := RecordItem(o, item, location, d);
    if t.completedAgentMessages == o.completedAgentMessages {
      FailSpares(o, UNSUPPORTED_BACKEND_ACTIVITY);
      FailSpares(o, COMPACTION_POLICY_VIOLATION);
      FailSpares(o, INVALID_TERMINAL_PAYLOAD);
    }
  }

  lemma {:induction false} FailSpares(o: Observer, code: FailureCode)
    requires code != BACKEND_TURN_FAILED
    ensures Observes(o, Fail(o, code)) && Fail(o, code) == o.(verdict := Fail(o, code).verdict)
  {
  }

  lemma {:induction false} RecordItemsObserves(o: Observer, items: seq<Json>, d: Directive)
    ensures var t := RecordItems(o, items, d);
      Observes(o, t) && t == o.(verdict := t.verdict, completedAgentMessages := t.completedAgentMessages)
    decreases |items|
  {
    if items != [] {
      if items[0].Obj? {
        RecordItemObserves(o, items[0], AtTerminal, d);
        RecordItemsObserves(RecordItem(o, items[0], AtTerminal, d), items[1..], d);
      } else {
        RecordItemsObserves(Fail(o, UNSUPPORTED_BACKEND_ACTIVITY), items[1..], d);
      }
    }
  }

  lemma {:induction false} FailObserves(o: Observer, t: Observer, code: FailureCode)
    requires Observes(o, t) && code != BACKEND_TURN_FAILED
    ensures Observes(o, Fail(t, code))
  {
  }

  lemma {:induction false} ThreadsObserve(o: Observer, n: Notification)
    ensures Observes(o, ThreadsSeen(o, n))
  {
    FailObserves(o, o, UNSUPPORTED_BACKEND_ACTIVITY);
    var t := SawThread(if Forbidden(n) then Fail(o, UNSUPPORTED_BACKEND_ACTIVITY) else o, n.ThreadId());
    FailObserves(o, t, THREAD_BINDING_MISMATCH);
  }

  lemma {:induction false} TurnStartObserves(o: Observer, id: Option<Text>)
    ensures Observes(o, TurnStarted(o, id))
  {
    FailObserves(o, o, TURN_BINDING_MISMATCH);
    FailObserves(o, o, COMPACTION_POLICY_VIOLATION);
  }

  lemma {:induction false} TurnsObserve(o: Observer, n: Notification)
    ensures Observes(o, TurnsSeen(o, n))
  {
    TurnStartObserves(o, n.NewTurn());
  }

  lemma {:induction false} ItemObserves(o: Observer, n: Notification, d: Directive)
    ensures Observes(o, ItemNotified(o, n, d))
  {
    FailObserves(o, o, UNSUPPORTED_BACKEND_ACTIVITY);
    FailObserves(o, o, COMPACTION_POLICY_VIOLATION);
    var item := Property(n.params, "item");
    if IsObject(item) {
      RecordItemObserves(o, item.value, AtStart, d);
      RecordItemObserves(o, item.value, AtCompletion, d);
    }
  }

  lemma {:induction false} SeenObserves(o: Observer, n: Notification, d: Directive)
    ensures Observes(o, NotificationSeen(o, n, d))
  {
    var t := ThreadsSeen(o, n);
    var u := TurnsSeen(t, n);
    ThreadsObserve(o, n);
    TurnsObserve(t, n);
    ItemObserves(u, n, d);
    ObservesTwice(o, t, u);
    ObservesTwice(o, u, ItemNotified(u, n, d));
  }

  lemma {:induction false} TerminatedObserves(o: Observer, t: TerminalTurn, d: Directive)
    ensures Observes(o, TurnTerminated(o, t, d))
  {
    RecordItemsObserves(o, t.items, d);
  }

  lemma {:induction false} ValidateObserves(o: Observer, t: Observer)
    requires Observes(o, t)
    ensures Observes(o, ValidateRefs(t))
  {
  }

  lemma {:induction false} NotificationObserves(o: Observer, n: Notification, d: Directive)
    ensures Observes(o, RecordNotification(o, n, d).0)
  {
    var t := o.(notificationCount := o.notificationCount + 1);
    if t.notificationCount > 10000 { return; }
    SeenObserves(t, n, d);
    var u := NotificationSeen(t, n, d);
    match ProjectTerminalTurn(n) {
      case Throws =>
      case NoTurn => ValidateObserves(t, u);
      case Projected(turn) =>
        TerminatedObserves(u, turn, d);
        ObservesTwice(t, u, TurnTerminated(u, turn, d));
        ValidateObserves(t, TurnTerminated(u, turn, d));
    }
  }

  lemma {:induction false} ObservationKeepsReport(r: Run, o: Observer, threw: bool)
    requires ReportInv(r) && HasClient(r.phase) && Observes(r.observer, o)
    ensures ReportInv(r.(observer := o, handlerThrew := threw))
  {
  }

  // Any failure but BACKEND_TURN_FAILED may be caught.
  lemma {:induction false} CaughtKeepsReport(r: Run, code: FailureCode, aborted: bool)
    requires EventInv(r) && !r.phase.ShuttingDown? && code != BACKEND_TURN_FAILED
    ensures EventInv(Caught(r, code, aborted)) && Caught(r, code, aborted).phase.ShuttingDown?
  {
  }

  ghost predicate Running(r: Run) { EventInv(r) && HasClient(r.phase) && !r.phase.ShuttingDown? }

  lemma {:induction false} PromptKeepsReport(r: Run, prompt: Option<Text>, aborted: bool)
    requires Running(r)
    ensures EventInv(BindPrompt(r, prompt, aborted))
  {
    if prompt.None? {
      CaughtKeepsReport(r, EFFECTIVE_INPUT_MISMATCH, aborted);
    } else {
      FailingKeepsReport(r.(observer := BindItemPolicy(r.observer, prompt.value), phase := AwaitingTurn), aborted);
    }
  }

  lemma {:induction false} FailingKeepsReport(r: Run, aborted: bool)
    requires Running(r)
    ensures EventInv(CaughtIfFailed(r, aborted))
  {
    if r.observer.verdict.failure.Some? { CaughtKeepsReport(r, r.observer.verdict.failure.value, aborted); }
  }

  lemma {:induction false} ThreadReadyKeepsReport(
    r: Run, threadId: Text, thrown: Option<FailureCode>, aborted: bool, prompt: Option<Text>, d: Directive)
    requires Running(r) && thrown != Some(BACKEND_TURN_FAILED)
    ensures EventInv(ThreadReady(r, threadId, thrown, aborted, prompt, d))
  {
    var t := r.(observer := BindThread(r.observer, threadId), threadId := threadId);
    assert Running(t);
    if t.observer.verdict.failure.Some? {
      CaughtKeepsReport(t, t.observer.verdict.failure.value, aborted);
    } else if thrown.Some? {
      CaughtKeepsReport(t, thrown.value, aborted);
    } else if !d.manualCompaction {
      PromptKeepsReport(t, prompt, aborted);
    } else if aborted {
      CaughtKeepsReport(t, HOST_CANCELLED, aborted);
    } else {
      FailingKeepsReport(t.(observer := BeginManualCompaction(t.observer, d), phase := Compacting), aborted);
    }
  }

  lemma {:induction false} CompactedKeepsReport(r: Run, threadId: Text, aborted: bool, prompt: Option<Text>)
    requires Running(r)
    ensures EventInv(CompactionReturned(r, threadId, aborted, prompt))
  {
    CaughtKeepsReport(r, THREAD_BINDING_MISMATCH, aborted);
    var t := r.(observer := FinishManualCompaction(r.observer));
    assert Running(t);
    if t.observer.verdict.failure.Some? {
      CaughtKeepsReport(t, t.observer.verdict.failure.value, aborted);
    } else if aborted {
      CaughtKeepsReport(t, HOST_CANCELLED, aborted);
    } else {
      PromptKeepsReport(t, prompt, aborted);
    }
  }

  lemma {:induction false} TurnReadyKeepsReport(r: Run, turnId: Text, thrown: Option<FailureCode>, aborted: bool)
    requires Running(r) && thrown != Some(BACKEND_TURN_FAILED)
    ensures EventInv(TurnReady(r, turnId, thrown, aborted))
  {
    var t := r.(observer := BindTurn(r.observer, turnId), turnId := turnId, phase := AwaitingTerminal);
    assert Running(t);
    if t.observer.verdict.failure.Some? {
      CaughtKeepsReport(t, t.observer.verdict.failure.value, aborted);
    } else if thrown.Some? {
      CaughtKeepsReport(t, thrown.value, aborted);
    }
  }

  lemma {:induction false} WaitedKeepsReport(r: Run, wait: Wait, ending: Ending, aborted: bool)
    requires Running(r) && ending.built != Error(BACKEND_TURN_FAILED)
    ensures EventInv(Waited(r, wait, ending, aborted))
  {
    CaughtKeepsReport(r, UNSUPPORTED_BACKEND_ACTIVITY, aborted);
    CaughtKeepsReport(r, CLIENT_FAILURE, aborted);
    if r.observer.verdict.failure.Some? { CaughtKeepsReport(r, r.observer.verdict.failure.value, aborted); }
    if wait.TERMINAL? && r.observer.terminal.Some? { TerminatedKeepsReport(r, r.observer.terminal.value, ending, aborted); }
  }

  lemma {:induction false} TerminatedKeepsReport(r: Run, terminal: TerminalTurn, ending: Ending, aborted: bool)
    requires Running(r) && ending.built != Error(BACKEND_TURN_FAILED)
    ensures EventInv(Terminated(r, terminal, ending, aborted))
  {
    if aborted {
      CaughtKeepsReport(r, HOST_CANCELLED, aborted);
    } else if terminal.threadId != r.threadId || terminal.turnId != r.turnId {
      CaughtKeepsReport(r, TURN_BINDING_MISMATCH, aborted);
    } else if terminal.status != Ascii("completed") {
    } else if terminal.error != Some(Null) || !ending.accepted {
      CaughtKeepsReport(r, INVALID_TERMINAL_PAYLOAD, aborted);
    } else if ending.built.Error? {
      CaughtKeepsReport(r, ending.built.code, aborted);
    }
  }

  lemma {:induction false} StepKeepsReport(r: Run, e: RunEvent, d: Directive)
    requires ReportInv(r) && Possible(e)
    ensures ReportInv(Step(r, e, d))
  {
    match e {
      case RLaunch(_, _) =>
      case RStartFailed(code, aborted, later) =>
        if r.phase.Starting? { StartFailedReports(r, code, aborted, later); }
      case RThrown(code, aborted) =>
        if r.phase.Starting? || r.phase.Compacting? || r.phase.AwaitingTurn? { CaughtKeepsReport(r, code, aborted); }
      case RThreadReady(threadId, thrown, aborted, prompt) =>
        if r.phase.Starting? { ThreadReadyKeepsReport(r, threadId, thrown, aborted, prompt, d); }
      case RCompactionReturned(threadId, aborted, prompt) =>
        if r.phase.Compacting? { CompactedKeepsReport(r, threadId, aborted, prompt); }
      case RTurnReady(turnId, thrown, aborted) =>
        if r.phase.AwaitingTurn? { TurnReadyKeepsReport(r, turnId, thrown, aborted); }
      case RWaited(wait, ending, aborted) =>
        if r.phase.AwaitingTerminal? { WaitedKeepsReport(r, wait, ending, aborted); }
      case RInterrupted(aborted) => if r.phase.Interrupting? { CaughtKeepsReport(r, r.phase.code, aborted); }
      case RShutDown(clean, aborted) => if r.phase.ShuttingDown? { ShutDownKeepsReport(r, clean, aborted); }
      case RNotification(n) => NotificationKeepsReport(r, n, d);
      case RCompaction(c) => CompactionKeepsReport(r, c, d);
      case RApproval(threadId, turnId) => ApprovalKeepsReport(r, threadId, turnId, d);
    }
  }

  lemma {:induction false} StartFailedReports(r: Run, code: FailureCode, aborted: bool, later: bool)
    requires Running(r) && code != BACKEND_TURN_FAILED
    ensures ReportInv(StartFailed(r, code, aborted, later))
  {
    CaughtKeepsReport(r, code, aborted);
    ConcludeReports(Caught(r, code, aborted), later);
  }

  lemma {:induction false} ApprovalKeepsReport(r: Run, threadId: Text, turnId: Text, d: Directive)
    requires ReportInv(r)
    ensures ReportInv(Step(r, RApproval(threadId, turnId), d))
  {
    if HasClient(r.phase) { ObservationKeepsReport(r, RecordApproval(r.observer, threadId, turnId), r.handlerThrew); }
  }

  lemma {:induction false} NotificationKeepsReport(r: Run, n: Notification, d: Directive)
    requires ReportInv(r)
    ensures ReportInv(Step(r, RNotification(n), d))
  {
    NotificationObserves(r.observer, n, d);
    var (o, threw) := RecordNotification(r.observer, n, d);
    if HasClient(r.phase) { ObservationKeepsReport(r, o, r.handlerThrew || threw); }
  }

  lemma {:induction false} CompactionObserves(o: Observer, c: CompactionEvent, d: Directive)
    ensures Observes(o, RecordCompaction(o, c, d))
  {
  }

  lemma {:induction false} CompactionKeepsReport(r: Run, c: CompactionEvent, d: Directive)
    requires ReportInv(r)
    ensures ReportInv(Step(r, RCompaction(c), d))
  {
    CompactionObserves(r.observer, c, d);
    if HasClient(r.phase) { ObservationKeepsReport(r, RecordCompaction(r.observer, c, d), r.handlerThrew); }
  }

  lemma {:induction false} ShutDownKeepsReport(r: Run, closedCleanly: bool, aborted: bool)
    requires EventInv(r) && r.phase.ShuttingDown?
    ensures ReportInv(ShutDown(r, closedCleanly, aborted))
  {
    if closedCleanly && !r.handlerThrew {
      ConcludeReports(r, aborted);
    } else {
      ConcludeReports(r.(event := None, uncleanShutdown := true, observer := Fail(r.observer, CLEAN_SHUTDOWN_FAILED)), aborted);
    }
  }

  // Every TERMINAL event of every run satisfies the relation, except that a failed turn whose Worker
  // Event could not be built, or whose client did not shut down cleanly, is reported without it; and
  // an event was yielded exactly when its id is reported.
  lemma {:induction false} TerminalRelationExactly(es: seq<RunEvent>, d: Directive)
    requires forall e | e in es :: Possible(e)
    ensures ReportInv(RunOf(es, d)) && EndInv(RunOf(es, d))
  {
    if es != [] {
      TerminalRelationExactly(es[..|es| - 1], d);
      StepKeepsReport(RunOf(es[..|es| - 1], d), es[|es| - 1], d);
    }
  }

  // Whatever came before it, a failed turn loses its Worker Event in an unclean shutdown, and when the
  // event cannot be built.
  lemma {:induction false} UncleanShutdownLosesIt(r: Run, t: TerminalTurn, id: Text, d: Directive)
    requires EventInv(r) && r.phase.AwaitingTerminal? && r.observer.verdict.failure.None? && r.observer.terminal == Some(t)
    requires t.threadId == r.threadId && t.turnId == r.turnId && t.status != Ascii("completed")
    ensures var s := Step(Step(r, RWaited(TERMINAL, Ending(false, Event(id)), false), d), RShutDown(false, false), d);
      s.report.Some? && !WellFormedReport(s.report.value) && s.yielded.None?
  {
  }

  lemma {:induction false} FailedConstructionLosesIt(r: Run, t: TerminalTurn, code: FailureCode, clean: bool, d: Directive)
    requires EventInv(r) && r.phase.AwaitingTerminal? && r.observer.verdict.failure.None? && r.observer.terminal == Some(t)
    requires t.threadId == r.threadId && t.turnId == r.turnId && t.status != Ascii("completed") && code != HOST_CANCELLED
    ensures var s := Step(Step(r, RWaited(TERMINAL, Ending(false, Error(code)), false), d), RShutDown(clean, false), d);
      s.report.Some? && !WellFormedReport(s.report.value) && s.yielded.None?
  {
  }
}
