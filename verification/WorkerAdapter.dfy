// The run of adapter.ts as an object: the observer, the locals that live across awaits, and one
// method for each stretch of code between two awaits.
module WorkerAdapter {
  import opened Options
  import opened CodeUnits
  import opened JsonValues
  import opened ObserverModel
  import opened InvocationObservers
  import M = WorkerRunModel
  import opened WorkerRunModel

  class CodexWorkerAdapter {
    const directive: Directive
    const observer: InvocationObserver
    var phase: Phase
    var threadId: Text
    var turnId: Text
    var terminalEvent: Option<WorkerEvent>
    var yielded: Option<WorkerEvent>
    var report: Option<Report>
    ghost var handlerThrew: bool
    ghost var constructionFailed: bool
    ghost var uncleanShutdown: bool

    ghost predicate Valid()
      reads this, observer
    {
      observer.Valid() && observer.directive == directive
    }

    ghost function View(): Run
      reads this, observer
    {
      Run(observer.view, phase, threadId, turnId, terminalEvent, yielded, report, handlerThrew, constructionFailed,
        uncleanShutdown)
    }

    constructor (directive: Directive)
      ensures Valid() && fresh(observer) && this.directive == directive && View() == READY_TO_RUN
    {
      var o := new InvocationObserver(directive);
      this.directive, observer := directive, o;
      phase, threadId, turnId, terminalEvent, yielded, report := Idle, [], [], None, None, None;
      handlerThrew, constructionFailed, uncleanShutdown := false, false, false;
    }

    method Catch(code: FailureCode, aborted: bool)
      requires Valid()
      modifies `phase, observer
      ensures Valid() && View() == Caught(old(View()), code, aborted)
    {
      phase := ShuttingDown;
      if aborted || code == HOST_CANCELLED {
        observer.Cancel();
      } else {
        observer.Fail(code);
      }
    }

    // `throwIfFailed`, up to the `catch` clause.
    method CatchIfFailed(aborted: bool) returns (failed: bool)
      requires Valid()
      modifies `phase, observer
      ensures Valid() && View() == CaughtIfFailed(old(View()), aborted)
      ensures failed == old(observer.view.verdict.failure).Some?
    {
      failed := observer.failureCode.Some?;
      if failed { Catch(observer.failureCode.value, aborted); }
    }

    // `run`, up to its first await.
    method Launch(refusal: Option<FailureCode>, aborted: bool)
      requires Valid()
      modifies `phase, observer
      ensures Valid() && View() == M.Launch(old(View()), refusal, aborted)
    {
      if !phase.Idle? {
        observer.Fail(ADAPTER_REUSED);
      } else if refusal.Some? {
        phase := Finished;
        observer.Fail(refusal.value);
      } else if aborted {
        phase := Finished;
        observer.Cancel();
      } else {
        phase := Starting;
        observer.MarkRunning();
      }
    }

    method StartFailed(code: FailureCode, aborted: bool, abortedLater: bool)
      requires Valid() && phase.Starting?
      modifies this, observer
      ensures Valid() && View() == M.StartFailed(old(View()), code, aborted, abortedLater)
    {
      Catch(code, aborted);
      Conclude(abortedLater);
    }

    method PreparePrompt(prompt: Option<Text>, aborted: bool)
      requires Valid()
      modifies `phase, observer
      ensures Valid() && View() == BindPrompt(old(View()), prompt, aborted)
    {
      if prompt.None? {
        Catch(EFFECTIVE_INPUT_MISMATCH, aborted);
        return;
      }
      observer.BindItemPolicy(prompt.value);
      phase := AwaitingTurn;
      var failed := CatchIfFailed(aborted);
    }

    method ThreadReady(threadId: Text, thrown: Option<FailureCode>, aborted: bool, prompt: Option<Text>)
      requires Valid() && phase.Starting?
      modifies `threadId, `phase, observer
      ensures Valid() && View() == M.ThreadReady(old(View()), threadId, thrown, aborted, prompt, directive)
    {
      observer.BindThread(threadId);
      this.threadId := threadId;
      var failed := CatchIfFailed(aborted);
      if failed { return; }
      if thrown.Some? {
        Catch(thrown.value, aborted);
        return;
      }
      if directive.manualCompaction {
        StartCompaction(aborted);
      } else {
        PreparePrompt(prompt, aborted);
      }
    }

    method StartCompaction(aborted: bool)
      requires Valid()
      modifies `phase, observer
      ensures Valid() && View() == CompactionStarted(old(View()), aborted, directive)
    {
      if aborted {
        Catch(HOST_CANCELLED, aborted);
        return;
      }
      observer.BeginManualCompaction();
      phase := Compacting;
      var failed := CatchIfFailed(aborted);
    }

    method CompactionReturned(compactedThreadId: Text, aborted: bool, prompt: Option<Text>)
      requires Valid() && phase.Compacting?
      modifies `phase, observer
      ensures Valid() && View() == M.CompactionReturned(old(View()), compactedThreadId, aborted, prompt)
    {
      if compactedThreadId != threadId {
        Catch(THREAD_BINDING_MISMATCH, aborted);
        return;
      }
      observer.FinishManualCompaction();
      var failed := CatchIfFailed(aborted);
      if failed { return; }
      if aborted {
        Catch(HOST_CANCELLED, aborted);
        return;
      }
      PreparePrompt(prompt, aborted);
    }

    method TurnReady(turnId: Text, thrown: Option<FailureCode>, aborted: bool)
      requires Valid() && phase.AwaitingTurn?
      modifies `turnId, `phase, observer
      ensures Valid() && View() == M.TurnReady(old(View()), turnId, thrown, aborted)
    {
      observer.BindTurn(turnId);
      this.turnId, phase := turnId, AwaitingTerminal;
      var failed := CatchIfFailed(aborted);
      if failed { return; }
      if thrown.Some? { Catch(thrown.value, aborted); }
    }

    method Waited(wait: Wait, ending: Ending, aborted: bool)
      requires Valid() && phase.AwaitingTerminal? && (wait.TERMINAL? ==> observer.terminal.Some?)
      modifies `terminalEvent, `constructionFailed, `phase, observer
      ensures Valid() && View() == M.Waited(old(View()), wait, ending, aborted)
    {
      match wait {
        case ABORT => phase := Interrupting(HOST_CANCELLED);
        case TIMEOUT => phase := Interrupting(NO_TERMINAL_PAYLOAD);
        case POLICY_FAILURE =>
          var code := if observer.failureCode.Some? then observer.failureCode.value else UNSUPPORTED_BACKEND_ACTIVITY;
          Catch(code, aborted);
        case CLOSED => Catch(CLIENT_FAILURE, aborted);
        case TERMINAL => Terminated(observer.terminal.value, ending, aborted);
      }
    }

    method Terminated(terminal: TerminalTurn, ending: Ending, aborted: bool)
      requires Valid()
      modifies `terminalEvent, `constructionFailed, `phase, observer
      ensures Valid() && View() == M.Terminated(old(View()), terminal, ending, aborted)
    {
      if aborted {
        Catch(HOST_CANCELLED, aborted);
        return;
      }
      if terminal.threadId != threadId || terminal.turnId != turnId {
        Catch(TURN_BINDING_MISMATCH, aborted);
        return;
      }
      if terminal.status != Ascii("completed") {
        observer.Fail(BACKEND_TURN_FAILED);
        if ending.built.Error? {
          constructionFailed := true;
          Catch(ending.built.code, aborted);
          return;
        }
        terminalEvent := Some(WorkerEvent(ending.built.id, false));
      } else {
        if terminal.error != Some(Null) || !ending.accepted {
          Catch(INVALID_TERMINAL_PAYLOAD, aborted);
          return;
        }
        if ending.built.Error? {
          Catch(ending.built.code, aborted);
          return;
        }
        terminalEvent := Some(WorkerEvent(ending.built.id, true));
      }
      phase := ShuttingDown;
    }

    method Interrupted(aborted: bool)
      requires Valid() && phase.Interrupting?
      modifies `phase, observer
      ensures Valid() && View() == Caught(old(View()), old(phase).code, aborted)
    {
      Catch(phase.code, aborted);
    }

    method ShutDown(closedCleanly: bool, aborted: bool)
      requires Valid() && phase.ShuttingDown? && (handlerThrew ==> !closedCleanly)
      modifies this, observer
      ensures Valid() && View() == M.ShutDown(old(View()), closedCleanly, aborted)
    {
      if !closedCleanly {
        terminalEvent, uncleanShutdown := None, true;
        observer.Fail(CLEAN_SHUTDOWN_FAILED);
      }
      Conclude(aborted);
    }

    method Conclude(aborted: bool)
      requires Valid()
      modifies `terminalEvent, `yielded, `report, `phase, observer
      ensures Valid() && View() == M.Conclude(old(View()), aborted)
    {
      Settle(aborted);
      EmitTerminal();
    }

    method Settle(aborted: bool)
      requires Valid()
      modifies `terminalEvent, observer
      ensures Valid() && View() == Settled(old(View()), aborted)
    {
      if aborted {
        terminalEvent := None;
        observer.Cancel();
      }
      if terminalEvent.Some? && (observer.failureCode.None? || observer.failureCode == Some(BACKEND_TURN_FAILED)) {
        observer.Complete(terminalEvent.value.id);
      }
      if observer.state == READY || observer.state == RUNNING {
        observer.Fail(CLIENT_FAILURE);
        terminalEvent := None;
      }
    }

    method EmitTerminal()
      requires Valid()
      modifies `yielded, `report, `phase
      ensures Valid() && View() == Emitted(old(View()))
    {
      phase := Finished;
      yielded := None;
      if terminalEvent.Some? && observer.resultEventId == Some(terminalEvent.value.id) { yielded := terminalEvent; }
      report := Some(Report(observer.state, observer.failureCode, observer.backendSessionRef, observer.backendOperationRef,
        observer.compactionCount, observer.resultEventId));
    }

    // The handler of the client; an exception of the observer goes back to the client.
    method OnNotification(n: Notification) returns (threw: bool)
      requires Valid() && HasClient(phase)
      modifies `handlerThrew, observer
      ensures Valid() && (observer.view, threw) == RecordNotification(old(observer.view), n, directive)
      ensures handlerThrew == (old(handlerThrew) || threw)
    {
      threw := observer.RecordNotification(n);
      handlerThrew := handlerThrew || threw;
    }
  }
}
