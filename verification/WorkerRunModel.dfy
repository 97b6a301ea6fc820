// packages/adapter-codex/src/adapter.ts, `CodexWorkerAdapter.run`: one Worker run cut at its awaits.
// What the App Server, the host and the clock decide arrives in the events; between any two stretches
// of the run the client may report to the observer.
module WorkerRunModel {
  import opened Options
  import opened CodeUnits
  import opened JsonValues
  import opened ObserverModel

  datatype WorkerEvent = WorkerEvent(id: Text, isResult: bool)

  // The TERMINAL lifecycle event.
  datatype Report = Report(
    state: Status,
    failure: Option<FailureCode>,
    session: Option<Text>,
    operation: Option<Text>,
    compactionCount: nat,
    resultEventId: Option<Text>)

  // Finished also stands for a run that was refused before it started.
  datatype Phase =
    | Idle | Starting | Compacting | AwaitingTurn | AwaitingTerminal | Interrupting(code: FailureCode) | ShuttingDown | Finished

  // handlerThrew: the notification handler threw, which fails the client.  Once the turn has failed,
  // constructionFailed says that its Worker Event could not be built.
  datatype Run = Run(
    observer: Observer,
    phase: Phase,
    threadId: Text,
    turnId: Text,
    event: Option<WorkerEvent>,
    yielded: Option<WorkerEvent>,
    report: Option<Report>,
    handlerThrew: bool,
    constructionFailed: bool,
    uncleanShutdown: bool)

  const READY_TO_RUN := Run(FRESH, Idle, [], [], None, None, None, false, false, false)

  // The `catch` clause.
  function Caught(r: Run, code: FailureCode, aborted: bool): Run {
    r.(phase := ShuttingDown,
       observer := if aborted || code == HOST_CANCELLED then Cancel(r.observer) else Fail(r.observer, code))
  }

  // Refusal: the code of a failed check on the request, the workspace or the instruction sources.
  function Launch(r: Run, refusal: Option<FailureCode>, aborted: bool): Run {
    if !r.phase.Idle? then r.(observer := Fail(r.observer, ADAPTER_REUSED))
    else if refusal.Some? then r.(phase := Finished, observer := Fail(r.observer, refusal.value))
    else if aborted then r.(phase := Finished, observer := Cancel(r.observer))
    else r.(phase := Starting, observer := MarkRunning(r.observer))
  }

  // The client could not be started, so there is none to shut down.
  function StartFailed(r: Run, code: FailureCode, aborted: bool, abortedLater: bool): Run {
    Conclude(Caught(r, code, aborted), abortedLater)
  }

  // The digest of the rendered prompt, or None for a prompt that is too long.
  function BindPrompt(r: Run, prompt: Option<Text>, aborted: bool): Run {
    if prompt.None? then Caught(r, EFFECTIVE_INPUT_MISMATCH, aborted) else
    var t := r.(observer := BindItemPolicy(r.observer, prompt.value), phase := AwaitingTurn);
    CaughtIfFailed(t, aborted)
  }

  // `throwIfFailed` at the end of a stretch.
  function CaughtIfFailed(r: Run, aborted: bool): Run {
    if r.observer.verdict.failure.Some? then Caught(r, r.observer.verdict.failure.value, aborted) else r
  }

  // The thread is effective.  thrown: what the lifecycle handler threw.
  function ThreadReady(r: Run, threadId: Text, thrown: Option<FailureCode>, aborted: bool, prompt: Option<Text>, d: Directive): Run {
    var t := r.(observer := BindThread(r.observer, threadId), threadId := threadId);
    if t.observer.verdict.failure.Some? then Caught(t, t.observer.verdict.failure.value, aborted)
    else if thrown.Some? then Caught(t, thrown.value, aborted)
    else if !d.manualCompaction then BindPrompt(t, prompt, aborted)
    else CompactionStarted(t, aborted, d)
  }

  function CompactionStarted(r: Run, aborted: bool, d: Directive): Run {
    if aborted then Caught(r, HOST_CANCELLED, aborted)
    else CaughtIfFailed(r.(observer := BeginManualCompaction(r.observer, d), phase := Compacting), aborted)
  }

  function CompactionReturned(r: Run, threadId: Text, aborted: bool, prompt: Option<Text>): Run {
    if threadId != r.threadId then Caught(r, THREAD_BINDING_MISMATCH, aborted) else
    var t := r.(observer := FinishManualCompaction(r.observer));
    if t.observer.verdict.failure.Some? then Caught(t, t.observer.verdict.failure.value, aborted)
    else if aborted then Caught(t, HOST_CANCELLED, aborted)
    else BindPrompt(t, prompt, aborted)
  }

  function TurnReady(r: Run, turnId: Text, thrown: Option<FailureCode>, aborted: bool): Run {
    var t := r.(observer := BindTurn(r.observer, turnId), turnId := turnId, phase := AwaitingTerminal);
    if t.observer.verdict.failure.Some? then Caught(t, t.observer.verdict.failure.value, aborted)
    else if thrown.Some? then Caught(t, thrown.value, aborted)
    else t
  }

  datatype Wait = ABORT | POLICY_FAILURE | CLOSED | TIMEOUT | TERMINAL

  // accepted: the final payload decodes; built: the id of the Worker Event, or what its
  // construction threw.
  datatype Ending = Ending(accepted: bool, built: Built)

  datatype Built = Event(id: Text) | Error(code: FailureCode)

  function Waited(r: Run, wait: Wait, ending: Ending, aborted: bool): Run {
    match wait
    case ABORT => r.(phase := Interrupting(HOST_CANCELLED))
    case TIMEOUT => r.(phase := Interrupting(NO_TERMINAL_PAYLOAD))
    case POLICY_FAILURE =>
      var failure := r.observer.verdict.failure;
      Caught(r, if failure.Some? then failure.value else UNSUPPORTED_BACKEND_ACTIVITY, aborted)
    case CLOSED => Caught(r, CLIENT_FAILURE, aborted)
    case TERMINAL => if r.observer.terminal.Some? then Terminated(r, r.observer.terminal.value, ending, aborted) else r
  }

  function Terminated(r: Run, terminal: TerminalTurn, ending: Ending, aborted: bool): Run {
    if aborted then Caught(r, HOST_CANCELLED, aborted)
    else if terminal.threadId != r.threadId || terminal.turnId != r.turnId then Caught(r, TURN_BINDING_MISMATCH, aborted)
    else if terminal.status != Ascii("completed") then
      var t := r.(observer := Fail(r.observer, BACKEND_TURN_FAILED));
      if ending.built.Event? then t.(phase := ShuttingDown, event := Some(WorkerEvent(ending.built.id, false)))
      else Caught(t.(constructionFailed := true), ending.built.code, aborted)
    else if terminal.error != Some(Null) || !ending.accepted then Caught(r, INVALID_TERMINAL_PAYLOAD, aborted)
    else if ending.built.Event? then r.(phase := ShuttingDown, event := Some(WorkerEvent(ending.built.id, true)))
    else Caught(r, ending.built.code, aborted)
  }

  // A throwing notification handler has failed the client, so its shutdown is not clean.
  function ShutDown(r: Run, closedCleanly: bool, aborted: bool): Run {
    if closedCleanly && !r.handlerThrew then Conclude(r, aborted)
    else Conclude(r.(event := None, uncleanShutdown := true, observer := Fail(r.observer, CLEAN_SHUTDOWN_FAILED)), aborted)
  }

  // From the end of the `finally` clause to the end of the run.
  function Conclude(r: Run, aborted: bool): Run { Emitted(Settled(r, aborted)) }

  function Settled(r: Run, aborted: bool): Run {
    var a := if aborted then r.(event := None, observer := Cancel(r.observer)) else r;
    var failure := a.observer.verdict.failure;
    var b := if a.event.Some? && (failure.None? || failure == Some(BACKEND_TURN_FAILED))
      then a.(observer := Complete(a.observer, a.event.value.id)) else a;
    if b.observer.verdict.state == READY || b.observer.verdict.state == RUNNING
    then b.(observer := Fail(b.observer, CLIENT_FAILURE), event := None) else b
  }

  function Emitted(r: Run): Run {
    var o := r.observer;
    r.(phase := Finished,
       yielded := if r.event.Some? && o.resultEventId == Some(r.event.value.id) then r.event else None,
       report := Some(Report(o.verdict.state, o.verdict.failure, o.session, o.operation, o.compactionCount, o.resultEventId)))
  }

  datatype RunEvent =
    | RLaunch(refusal: Option<FailureCode>, aborted: bool)
    | RStartFailed(code: FailureCode, aborted: bool, abortedLater: bool)
    | RThrown(code: FailureCode, aborted: bool)
    | RThreadReady(threadId: Text, thrown: Option<FailureCode>, aborted: bool, prompt: Option<Text>)
    | RCompactionReturned(threadId: Text, aborted: bool, prompt: Option<Text>)
    | RTurnReady(turnId: Text, thrown: Option<FailureCode>, aborted: bool)
    | RWaited(wait: Wait, ending: Ending, aborted: bool)
    | RInterrupted(aborted: bool)
    | RShutDown(closedCleanly: bool, aborted: bool)
    | RNotification(n: Notification)
    | RCompaction(e: CompactionEvent)
    | RApproval(threadId: Text, turnId: Text)

  // The adapter and the client throw nothing that says BACKEND_TURN_FAILED.
  predicate Possible(e: RunEvent) {
    match e
    case RStartFailed(code, _, _) => code != BACKEND_TURN_FAILED
    case RThrown(code, _) => code != BACKEND_TURN_FAILED
    case RThreadReady(_, thrown, _, _) => thrown != Some(BACKEND_TURN_FAILED)
    case RTurnReady(_, thrown, _) => thrown != Some(BACKEND_TURN_FAILED)
    case RWaited(_, ending, _) => ending.built != Error(BACKEND_TURN_FAILED)
    case _ => true
  }

  predicate HasClient(p: Phase) { !p.Idle? && !p.Finished? }

  // An event that its phase does not admit changes nothing.
  function Step(r: Run, e: RunEvent, d: Directive): Run {
    match e
    case RLaunch(refusal, aborted) => Launch(r, refusal, aborted)
    case RStartFailed(code, aborted, later) => if r.phase.Starting? then StartFailed(r, code, aborted, later) else r
    case RThrown(code, aborted) =>
      if r.phase.Starting? || r.phase.Compacting? || r.phase.AwaitingTurn? then Caught(r, code, aborted) else r
    case RThreadReady(threadId, thrown, aborted, prompt) =>
      if r.phase.Starting? then ThreadReady(r, threadId, thrown, aborted, prompt, d) else r
    case RCompactionReturned(threadId, aborted, prompt) =>
      if r.phase.Compacting? then CompactionReturned(r, threadId, aborted, prompt) else r
    case RTurnReady(turnId, thrown, aborted) => if r.phase.AwaitingTurn? then TurnReady(r, turnId, thrown, aborted) else r
    case RWaited(wait, ending, aborted) => if r.phase.AwaitingTerminal? then Waited(r, wait, ending, aborted) else r
    case RInterrupted(aborted) => if r.phase.Interrupting? then Caught(r, r.phase.code, aborted) else r
    case RShutDown(clean, aborted) => if r.phase.ShuttingDown? then ShutDown(r, clean, aborted) else r
    case RNotification(n) =>
      if !HasClient(r.phase) then r else
      var (o, threw) := RecordNotification(r.observer, n, d);
      r.(observer := o, handlerThrew := r.handlerThrew || threw)
    case RCompaction(c) => if HasClient(r.phase) then r.(observer := RecordCompaction(r.observer, c, d)) else r
    case RApproval(threadId, turnId) =>
      if HasClient(r.phase) then r.(observer := RecordApproval(r.observer, threadId, turnId)) else r
  }

  function RunOf(es: seq<RunEvent>, d: Directive): Run {
    if es == [] then READY_TO_RUN else Step(RunOf(es[..|es| - 1], d), es[|es| - 1], d)
  }
}
