// The adapter object in its surroundings: whatever the awaits of adapter.ts bring, and whatever the
// client reports in between, the object is where the run of these events leads, so the theorems about
// runs hold of its fields.
module WorkerConnection {
  import opened Options
  import opened CodeUnits
  import opened ObserverModel
  import opened WorkerRunModel
  import opened WorkerAdapter
  import R = WorkerRuns
  import C = WorkerCompletion
  import P = WorkerReports

  class Connection {
    const adapter: CodexWorkerAdapter
    // What happened so far.
    ghost var events: seq<RunEvent>

    ghost predicate Valid()
      reads this, adapter, adapter.observer
    {
      && adapter.Valid() && adapter.View() == RunOf(events, adapter.directive)
      && forall e | e in events :: Possible(e)
    }

    constructor (directive: Directive)
      ensures Valid() && fresh(adapter) && fresh(adapter.observer) && adapter.directive == directive && events == []
    {
      adapter := new CodexWorkerAdapter(directive);
      events := [];
    }

    ghost method Record(e: RunEvent, before: Run)
      requires adapter.Valid() && (forall x | x in events :: Possible(x)) && Possible(e)
      requires before == RunOf(events, adapter.directive) && adapter.View() == Step(before, e, adapter.directive)
      modifies `events
      ensures Valid() && events == old(events) + [e]
    {
      P.OneMore(events, e, adapter.directive);
      events := events + [e];
    }

    // What the object reports and yields: a COMPLETED run was clean; the report satisfies the relation
    // of terminal observations exactly when the run did not lose its event; and an event was yielded
    // exactly when its id is reported.
    lemma Reports()
      requires Valid() && adapter.report.Some?
      ensures adapter.report.value.state == COMPLETED ==> C.CleanCompletion(events, adapter.directive, adapter.observer.view)
      ensures R.WellFormedReport(adapter.report.value) <==> !exists i: nat :: P.LosesEventAt(events, i, adapter.directive)
      ensures adapter.yielded.Some? <==> adapter.report.value.resultEventId.Some?
    {
      R.TerminalRelationExactly(events, adapter.directive);
      P.TerminalRelationInAdvance(events, adapter.directive);
      if adapter.report.value.state == COMPLETED { C.CompletedRunsAreClean(events, adapter.directive); }
    }

    method Launch(refusal: Option<FailureCode>, aborted: bool)
      requires Valid()
      modifies `events, adapter, adapter.observer
      ensures Valid() && events == old(events) + [RLaunch(refusal, aborted)]
    {
      ghost var before := adapter.View();
      adapter.Launch(refusal, aborted);
      Record(RLaunch(refusal, aborted), before);
    }

    method StartFailed(code: FailureCode, aborted: bool, abortedLater: bool)
      requires Valid() && adapter.phase.Starting? && code != BACKEND_TURN_FAILED
      modifies `events, adapter, adapter.observer
      ensures Valid() && events == old(events) + [RStartFailed(code, aborted, abortedLater)]
    {
      ghost var before := adapter.View();
      adapter.StartFailed(code, aborted, abortedLater);
      Record(RStartFailed(code, aborted, abortedLater), before);
    }

    method Thrown(code: FailureCode, aborted: bool)
      requires Valid() && (adapter.phase.Starting? || adapter.phase.Compacting? || adapter.phase.AwaitingTurn?)
      requires code != BACKEND_TURN_FAILED
      modifies `events, adapter, adapter.observer
      ensures Valid() && events == old(events) + [RThrown(code, aborted)]
    {
      ghost var before := adapter.View();
      adapter.Catch(code, aborted);
      Record(RThrown(code, aborted), before);
    }

    method ThreadReady(threadId: Text, thrown: Option<FailureCode>, aborted: bool, prompt: Option<Text>)
      requires Valid() && adapter.phase.Starting? && thrown != Some(BACKEND_TURN_FAILED)
      modifies `events, adapter, adapter.observer
      ensures Valid() && events == old(events) + [RThreadReady(threadId, thrown, aborted, prompt)]
    {
      ghost var before := adapter.View();
      adapter.ThreadReady(threadId, thrown, aborted, prompt);
      Record(RThreadReady(threadId, thrown, aborted, prompt), before);
    }

    method CompactionReturned(threadId: Text, aborted: bool, prompt: Option<Text>)
      requires Valid() && adapter.phase.Compacting?
      modifies `events, adapter, adapter.observer
      ensures Valid() && events == old(events) + [RCompactionReturned(threadId, aborted, prompt)]
    {
      ghost var before := adapter.View();
      adapter.CompactionReturned(threadId, aborted, prompt);
      Record(RCompactionReturned(threadId, aborted, prompt), before);
    }

    method TurnReady(turnId: Text, thrown: Option<FailureCode>, aborted: bool)
      requires Valid() && adapter.phase.AwaitingTurn? && thrown != Some(BACKEND_TURN_FAILED)
      modifies `events, adapter, adapter.observer
      ensures Valid() && events == old(events) + [RTurnReady(turnId, thrown, aborted)]
    {
      ghost var before := adapter.View();
      adapter.TurnReady(turnId, thrown, aborted);
      Record(RTurnReady(turnId, thrown, aborted), before);
    }

    method Waited(wait: Wait, ending: Ending, aborted: bool)
      requires Valid() && adapter.phase.AwaitingTerminal? && (wait.TERMINAL? ==> adapter.observer.terminal.Some?)
      requires ending.built != Error(BACKEND_TURN_FAILED)
      modifies `events, adapter, adapter.observer
      ensures Valid() && events == old(events) + [RWaited(wait, ending, aborted)]
    {
      ghost var before := adapter.View();
      adapter.Waited(wait, ending, aborted);
      Record(RWaited(wait, ending, aborted), before);
    }

    method Interrupted(aborted: bool)
      requires Valid() && adapter.phase.Interrupting?
      modifies `events, adapter, adapter.observer
      ensures Valid() && events == old(events) + [RInterrupted(aborted)]
    {
      ghost var before := adapter.View();
      adapter.Interrupted(aborted);
      Record(RInterrupted(aborted), before);
    }

    // The end of the run: what it reports is known from what was so before the shutdown.
    method ShutDown(closedCleanly: bool, aborted: bool)
      requires Valid() && adapter.phase.ShuttingDown? && (adapter.handlerThrew ==> !closedCleanly)
      modifies `events, adapter, adapter.observer
      ensures Valid() && events == old(events) + [RShutDown(closedCleanly, aborted)] && adapter.report.Some?
      ensures adapter.report.value.state == COMPLETED <==>
        old(adapter.observer.view.verdict.failure.None? && !adapter.handlerThrew) && closedCleanly && !aborted
      ensures R.WellFormedReport(adapter.report.value) <==> !P.Loses(old(adapter.View()), closedCleanly, aborted)
    {
      ghost var before := adapter.View();
      C.CompletesExactly(events, closedCleanly, aborted, adapter.directive);
      R.TerminalRelationExactly(events, adapter.directive);
      P.ShutDownReports(before, closedCleanly, aborted);
      adapter.ShutDown(closedCleanly, aborted);
      Record(RShutDown(closedCleanly, aborted), before);
    }

    // ---- What the client reports ----

    method OnNotification(n: Notification) returns (threw: bool)
      requires Valid() && HasClient(adapter.phase)
      modifies `events, adapter, adapter.observer
      ensures Valid() && events == old(events) + [RNotification(n)]
    {
      ghost var before := adapter.View();
      threw := adapter.OnNotification(n);
      Record(RNotification(n), before);
    }

    method OnCompaction(c: CompactionEvent)
      requires Valid() && HasClient(adapter.phase)
      modifies `events, adapter, adapter.observer
      ensures Valid() && events == old(events) + [RCompaction(c)]
    {
      ghost var before := adapter.View();
      adapter.observer.RecordCompaction(c);
      Record(RCompaction(c), before);
    }

    method OnApproval(threadId: Text, turnId: Text)
      requires Valid() && HasClient(adapter.phase)
      modifies `events, adapter, adapter.observer
      ensures Valid() && events == old(events) + [RApproval(threadId, turnId)]
    {
      ghost var before := adapter.View();
      adapter.observer.RecordApproval(threadId, turnId);
      Record(RApproval(threadId, turnId), before);
    }
  }
}
