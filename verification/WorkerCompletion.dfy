// Whole Worker runs: what happened in a run that is reported as COMPLETED.
module WorkerCompletion {
  import opened Options
  import opened CodeUnits
  import opened JsonAccess
  import opened JsonValues
  import opened ObserverModel
  import opened WorkerRunModel
  import opened WorkerCompactions
  import R = WorkerRuns

  // ---- What the reports of the client mention ----

  predicate NamesThread(n: Notification, x: Text) {
    n.ThreadId() == Some(x) || (n.name == "thread/started" && n.NewThread() == Some(x))
  }

  predicate NamesTurn(n: Notification, y: Text) {
    || n.TurnId() == Some(y)
    || (n.name == "turn/started" && n.NewTurn() == Some(y))
    || (var p := ProjectTerminalTurn(n); p.Projected? && p.turn.turnId == y)
  }

  predicate MentionsThread(e: RunEvent, x: Text) {
    match e
    case RNotification(n) => NamesThread(n, x)
    case RCompaction(c) => c.threadId == x
    case RApproval(threadId, _) => threadId == x
    case _ => false
  }

  predicate MentionsTurn(e: RunEvent, y: Text) {
    match e
    case RNotification(n) => NamesTurn(n, y)
    case RCompaction(c) => c.turnId == y
    case RApproval(_, turnId) => turnId == y
    case _ => false
  }

  // Whether any event of the run mentions it while there is a client.
  ghost predicate SeesThread(es: seq<RunEvent>, d: Directive, x: Text) {
    exists i :: 0 <= i < |es| && MentionsThread(es[i], x) && HasClient(RunOf(es[..i], d).phase)
  }

  ghost predicate SeesTurn(es: seq<RunEvent>, d: Directive, y: Text) {
    exists i :: 0 <= i < |es| && MentionsTurn(es[i], y) && HasClient(RunOf(es[..i], d).phase)
  }

  // ---- An observer that has not failed has kept track ----

  predicate Unfailed(o: Observer) { o.verdict.failure.None? }

  predicate HasTurn(o: Observer, y: Text) { y in o.turnRefs || o.maintenanceTurn == Some(y) }

  predicate Basics(o: Observer, d: Directive) {
    && o.approvalRequestCount == 0
    && (!d.manualCompaction ==> o.compactionCount == 0 && !o.manualCompactionPending && o.maintenanceTurn.None?)
    && (forall itemId | itemId in o.maintenanceItems :: Some(o.maintenanceItems[itemId].turnId) == o.maintenanceTurn)
  }

  predicate Validated(o: Observer) {
    && (o.session.Some? ==> o.threadRefs <= {o.session.value})
    && (o.operation.Some? ==> o.turnRefs <= {o.operation.value})
  }

  // What an observation that does not fail leaves alone or extends.
  ghost predicate Frame(o: Observer, t: Observer) {
    && t.verdict == o.verdict && t.session == o.session && t.operation == o.operation
    && t.manualCompactionPending == o.manualCompactionPending
    && (o.maintenanceTurn.Some? || !o.manualCompactionPending ==> t.maintenanceTurn == o.maintenanceTurn)
    && (|o.maintenanceItems| == 0 && !o.manualCompactionPending ==>
         |t.maintenanceItems| == 0 && t.compactionCount == o.compactionCount)
    && (o.terminal.Some? ==> t.terminal == o.terminal)
    && (o.maintenanceTerminalSeen ==> t.maintenanceTerminalSeen)
    && o.threadRefs <= t.threadRefs && o.turnRefs <= t.turnRefs
  }

  lemma {:induction false} FrameTwice(o: Observer, t: Observer, u: Observer)
    requires Frame(o, t) && Frame(t, u)
    ensures Frame(o, u)
  {
  }

  lemma {:induction false} ThreadTracks(o: Observer, id: Option<Text>, d: Directive)
    requires Basics(o, d)
    ensures var t := SawThread(o, id); Frame(o, t) && Basics(t, d) && (id.Some? ==> id.value in t.threadRefs)
  {
  }

  lemma {:induction false} TurnTracks(o: Observer, id: Option<Text>, d: Directive)
    requires Basics(o, d)
    ensures var t := SawTurn(o, id); Frame(o, t) && Basics(t, d) && (id.Some? ==> HasTurn(t, id.value))
  {
  }

  lemma {:induction false} TurnStartTracks(o: Observer, id: Option<Text>, d: Directive)
    requires Basics(o, d) && Unfailed(TurnStarted(o, id))
    ensures var t := TurnStarted(o, id); Frame(o, t) && Basics(t, d) && id.Some? && HasTurn(t, id.value)
  {
    var u := if o.manualCompactionPending then o.(maintenanceTurn := id) else o;
    assert Frame(o, u) && Basics(u, d);
    TurnTracks(u, id, d);
    FrameTwice(o, u, SawTurn(u, id));
  }

  lemma {:induction false} ThreadStartTracks(o: Observer, id: Option<Text>, d: Directive)
    requires Basics(o, d) && Unfailed(ThreadStarted(o, id))
    ensures var t := ThreadStarted(o, id); Frame(o, t) && Basics(t, d) && id.Some? && id.value in t.threadRefs
  {
    ThreadTracks(o, id, d);
  }

  lemma {:induction false} ThreadsTrack(o: Observer, n: Notification, d: Directive)
    requires Unfailed(ThreadsSeen(o, n)) && Basics(o, d)
    ensures var t := ThreadsSeen(o, n);
      && Frame(o, t) && Basics(t, d)
      && (n.ThreadId().Some? ==> n.ThreadId().value in t.threadRefs)
      && (n.name == "thread/started" && n.NewThread().Some? ==> n.NewThread().value in t.threadRefs)
  {
    var o1 := if Forbidden(n) then Fail(o, UNSUPPORTED_BACKEND_ACTIVITY) else o;
    ThreadTracks(o1, n.ThreadId(), d);
    var u := SawThread(o1, n.ThreadId());
    if n.name == "thread/started" {
      ThreadStartTracks(u, n.NewThread(), d);
      FrameTwice(o1, u, ThreadStarted(u, n.NewThread()));
    }
    assert Unfailed(o1);
  }

  lemma {:induction false} TurnsTrack(o: Observer, n: Notification, d: Directive)
    requires Unfailed(TurnsSeen(o, n)) && Basics(o, d)
    ensures var t := TurnsSeen(o, n);
      && Frame(o, t) && Basics(t, d)
      && (n.TurnId().Some? ==> HasTurn(t, n.TurnId().value))
      && (n.name == "turn/started" && n.NewTurn().Some? ==> HasTurn(t, n.NewTurn().value))
  {
    if n.name == "turn/started" {
      var u := TurnStarted(o, n.NewTurn());
      TurnStartTracks(o, n.NewTurn(), d);
      TurnTracks(u, n.TurnId(), d);
      FrameTwice(o, u, SawTurn(u, n.TurnId()));
    } else {
      TurnTracks(o, n.TurnId(), d);
    }
  }

  lemma {:induction false} MessagesTrack(o: Observer, t: Observer, d: Directive)
    requires Basics(o, d) && Unfailed(t) && R.Observes(o, t)
    requires t == o.(verdict := t.verdict, completedAgentMessages := t.completedAgentMessages)
    ensures Frame(o, t) && Basics(t, d)
  {
  }

  lemma {:induction false} ItemTracks(o: Observer, n: Notification, d: Directive)
    requires Unfailed(ItemNotified(o, n, d)) && Basics(o, d)
    ensures var t := ItemNotified(o, n, d); Frame(o, t) && Basics(t, d)
  {
    var item := Property(n.params, "item");
    if n.name != "item/started" && n.name != "item/completed" {
    } else if IsObject(item) && !IsContextCompaction(item.value) && !o.manualCompactionPending {
      var location := if n.name == "item/started" then AtStart else AtCompletion;
      R.RecordItemObserves(o, item.value, location, d);
      MessagesTrack(o, RecordItem(o, item.value, location, d), d);
    } else {
      MessagesTrack(o, ItemNotified(o, n, d), d);
    }
  }

  lemma {:induction false} TerminalTracks(o: Observer, turn: TerminalTurn, d: Directive)
    requires Unfailed(TurnTerminated(o, turn, d)) && Basics(o, d)
    ensures var t := TurnTerminated(o, turn, d); Frame(o, t) && Basics(t, d) && HasTurn(t, turn.turnId)
  {
    if o.maintenanceTurn != Some(turn.turnId) && !o.manualCompactionPending {
      R.RecordItemsObserves(o, turn.items, d);
      MessagesTrack(o, RecordItems(o, turn.items, d), d);
    }
  }

  ghost predicate Recorded(t: Observer, n: Notification) {
    && (n.ThreadId().Some? ==> n.ThreadId().value in t.threadRefs)
    && (n.name == "thread/started" && n.NewThread().Some? ==> n.NewThread().value in t.threadRefs)
    && (n.TurnId().Some? ==> HasTurn(t, n.TurnId().value))
    && (n.name == "turn/started" && n.NewTurn().Some? ==> HasTurn(t, n.NewTurn().value))
  }

  lemma {:induction false} SeenTracks(o: Observer, n: Notification, d: Directive)
    requires Basics(o, d) && Unfailed(NotificationSeen(o, n, d))
    ensures var t := NotificationSeen(o, n, d); Frame(o, t) && Basics(t, d) && Recorded(t, n)
  {
    var t1 := ThreadsSeen(o, n);
    var t2 := TurnsSeen(t1, n);
    R.TurnsObserve(t1, n);
    R.ItemObserves(t2, n, d);
    ThreadsTrack(o, n, d);
    TurnsTrack(t1, n, d);
    ItemTracks(t2, n, d);
    FrameTwice(o, t1, t2);
    FrameTwice(o, t2, ItemNotified(t2, n, d));
    FrameTwice(t1, t2, ItemNotified(t2, n, d));
  }

  lemma {:induction false} RecordedStays(o: Observer, t: Observer, n: Notification)
    requires Recorded(o, n) && Frame(o, t)
    ensures Recorded(t, n)
  {
  }

  lemma {:induction false} ValidateTracks(o: Observer, t: Observer, n: Notification, d: Directive)
    requires Frame(o, t) && Basics(t, d) && Recorded(t, n) && Unfailed(ValidateRefs(t))
    ensures Frame(o, ValidateRefs(t)) && Basics(ValidateRefs(t), d) && Recorded(ValidateRefs(t), n) && Validated(ValidateRefs(t))
  {
  }

  // A notification after which the observer has not failed: everything it names is on record and fits.
  lemma {:induction false} NotificationTracks(o: Observer, n: Notification, d: Directive)
    requires Basics(o, d) && !RecordNotification(o, n, d).1 && Unfailed(RecordNotification(o, n, d).0)
    ensures var t := RecordNotification(o, n, d).0;
      Frame(o, t) && Basics(t, d) && Validated(t) && Recorded(t, n) && forall y | NamesTurn(n, y) :: HasTurn(t, y)
  {
    var o1 := o.(notificationCount := o.notificationCount + 1);
    if o1.notificationCount <= 10000 { EndTracks(o1, NotificationSeen(o1, n, d), n, d); }
  }

  lemma {:induction false} EndTracks(o: Observer, u: Observer, n: Notification, d: Directive)
    requires Basics(o, d) && u == NotificationSeen(o, n, d)
    requires !NotificationEnded(u, n, d).1 && Unfailed(NotificationEnded(u, n, d).0)
    ensures var t := NotificationEnded(u, n, d).0;
      Frame(o, t) && Basics(t, d) && Validated(t) && Recorded(t, n) && forall y | NamesTurn(n, y) :: HasTurn(t, y)
  {
    var p := ProjectTerminalTurn(n);
    if p.NoTurn? {
      SeenTracks(o, n, d);
      ValidateTracks(o, u, n, d);
    } else {
      R.TerminatedObserves(u, p.turn, d);
      SeenTracks(o, n, d);
      TurnEndTracks(o, u, n, p.turn, d);
    }
  }

  lemma {:induction false} TurnEndTracks(o: Observer, u: Observer, n: Notification, turn: TerminalTurn, d: Directive)
    requires Frame(o, u) && Basics(u, d) && Recorded(u, n) && Unfailed(ValidateRefs(TurnTerminated(u, turn, d)))
    ensures var t := ValidateRefs(TurnTerminated(u, turn, d));
      Frame(o, t) && Basics(t, d) && Validated(t) && Recorded(t, n) && HasTurn(t, turn.turnId)
  {
    var v := TurnTerminated(u, turn, d);
    TerminalTracks(u, turn, d);
    RecordedStays(u, v, n);
    FrameTwice(o, u, v);
    ValidateTracks(o, v, n, d);
  }

  lemma {:induction false} CompactionTracks(o: Observer, c: CompactionEvent, d: Directive)
    requires Basics(o, d) && Validated(o) && Unfailed(RecordCompaction(o, c, d))
    ensures var t := RecordCompaction(o, c, d);
      Frame(o, t) && Basics(t, d) && Validated(t) && c.threadId in t.threadRefs && HasTurn(t, c.turnId)
  {
  }

  // ---- The stages of a run that has not failed ----

  // The manual compaction, if the policy asks for one, is over.
  predicate AfterCompaction(o: Observer, d: Directive) {
    && !o.manualCompactionPending && |o.maintenanceItems| == 0
    && (d.manualCompaction ==> o.compactionCount == 1 && o.maintenanceTurn.Some? && o.maintenanceTerminalSeen)
  }

  predicate Bound(r: Run, d: Directive) {
    && r.observer.session == Some(r.threadId) && r.observer.operation == Some(r.turnId)
    && r.observer.maintenanceTurn != Some(r.turnId) && AfterCompaction(r.observer, d)
  }

  predicate TerminalFits(r: Run) {
    r.observer.terminal.Some? && var t := r.observer.terminal.value;
    t.threadId == r.threadId && t.turnId == r.turnId && t.status == Ascii("completed") && t.error == Some(Null)
  }

  predicate Stage(r: Run, d: Directive) {
    && Unfailed(r.observer) && Basics(r.observer, d) && Validated(r.observer)
    && match r.phase {
         case Idle => r.observer == FRESH
         case Starting =>
           r.observer.session.None? && r.observer.operation.None? && !r.observer.manualCompactionPending &&
           |r.observer.maintenanceItems| == 0 && r.observer.compactionCount == 0
         case Compacting =>
           d.manualCompaction && r.observer.session == Some(r.threadId) && r.observer.operation.None? &&
           r.observer.manualCompactionPending
         case AwaitingTurn =>
           r.observer.session == Some(r.threadId) && r.observer.operation.None? && AfterCompaction(r.observer, d)
         case AwaitingTerminal => Bound(r, d)
         case Interrupting(_) => Bound(r, d)
         case ShuttingDown => Bound(r, d) && TerminalFits(r) && r.event.Some?
         case Finished => Bound(r, d) && TerminalFits(r)
       }
  }

  predicate Going(r: Run) { Unfailed(r.observer) && !r.handlerThrew }

  predicate Grown(o: Observer, t: Observer) {
    o.threadRefs <= t.threadRefs && o.turnRefs <= t.turnRefs && (o.maintenanceTurn.Some? ==> t.maintenanceTurn == o.maintenanceTurn)
  }

  // A step after which the run is still going.
  ghost predicate StageMove(r: Run, s: Run, d: Directive) {
    Going(r) && Stage(s, d) && Grown(r.observer, s.observer) && s.observer.approvalRequestCount == r.observer.approvalRequestCount
  }

  lemma {:induction false} CaughtStops(r: Run, code: FailureCode, aborted: bool)
    ensures !Unfailed(Caught(r, code, aborted).observer)
  {
  }

  lemma {:induction false} FrameMoves(r: Run, o: Observer, d: Directive)
    requires Going(r) && Stage(r, d) && HasClient(r.phase) && Frame(r.observer, o) && Basics(o, d) && Validated(o)
    ensures StageMove(r, r.(observer := o), d)
  {
  }

  lemma {:induction false} PromptMoves(r: Run, prompt: Option<Text>, aborted: bool, d: Directive)
    requires Unfailed(r.observer) && Basics(r.observer, d) && Validated(r.observer) && AfterCompaction(r.observer, d)
    requires r.observer.session == Some(r.threadId) && r.observer.operation.None?
    ensures var s := BindPrompt(r, prompt, aborted);
      Unfailed(s.observer) ==>
        && Stage(s, d) && Grown(r.observer, s.observer) && s.phase.AwaitingTurn?
        && s.observer.approvalRequestCount == r.observer.approvalRequestCount && s.handlerThrew == r.handlerThrew
  {
    if prompt.None? {
      CaughtStops(r, EFFECTIVE_INPUT_MISMATCH, aborted);
    } else {
      var t := r.(observer := BindItemPolicy(r.observer, prompt.value), phase := AwaitingTurn);
      if t.observer.verdict.failure.Some? {
        CaughtStops(t, t.observer.verdict.failure.value, aborted);
      } else {
        assert t.observer == r.observer.(itemPolicy := prompt);
      }
    }
  }

  lemma {:induction false} ThreadReadyMoves(
    r: Run, threadId: Text, thrown: Option<FailureCode>, aborted: bool, prompt: Option<Text>, d: Directive)
    requires Going(r) && Stage(r, d) && r.phase.Starting?
    ensures var s := ThreadReady(r, threadId, thrown, aborted, prompt, d); Going(s) ==> StageMove(r, s, d)
  {
    var t := r.(observer := BindThread(r.observer, threadId), threadId := threadId);
    if t.observer.verdict.failure.Some? {
      CaughtStops(t, t.observer.verdict.failure.value, aborted);
    } else if thrown.Some? {
      CaughtStops(t, thrown.value, aborted);
    } else if !d.manualCompaction {
      PromptMoves(t, prompt, aborted, d);
    } else if aborted {
      CaughtStops(t, HOST_CANCELLED, aborted);
    }
  }

  lemma {:induction false} CompactedMoves(r: Run, threadId: Text, aborted: bool, prompt: Option<Text>, d: Directive)
    requires Going(r) && Stage(r, d) && r.phase.Compacting?
    ensures var s := CompactionReturned(r, threadId, aborted, prompt); Going(s) ==> StageMove(r, s, d)
  {
    var t := r.(observer := FinishManualCompaction(r.observer));
    if threadId != r.threadId {
      CaughtStops(r, THREAD_BINDING_MISMATCH, aborted);
    } else if t.observer.verdict.failure.Some? {
      CaughtStops(t, t.observer.verdict.failure.value, aborted);
    } else if aborted {
      CaughtStops(t, HOST_CANCELLED, aborted);
    } else {
      PromptMoves(t, prompt, aborted, d);
    }
  }

  lemma {:induction false} TurnReadyMoves(r: Run, turnId: Text, thrown: Option<FailureCode>, aborted: bool, d: Directive)
    requires Going(r) && Stage(r, d) && r.phase.AwaitingTurn?
    ensures var s := TurnReady(r, turnId, thrown, aborted); Going(s) ==> StageMove(r, s, d)
  {
    var t := r.(observer := BindTurn(r.observer, turnId), turnId := turnId, phase := AwaitingTerminal);
    if t.observer.verdict.failure.Some? {
      CaughtStops(t, t.observer.verdict.failure.value, aborted);
    } else if thrown.Some? {
      CaughtStops(t, thrown.value, aborted);
    }
  }

  lemma {:induction false} PhaseMoves(r: Run, phase: Phase, event: Option<WorkerEvent>, d: Directive)
    requires Going(r) && Stage(r, d) && r.phase.AwaitingTerminal?
    requires phase.Interrupting? || (phase.ShuttingDown? && event.Some? && TerminalFits(r))
    ensures StageMove(r, r.(phase := phase, event := event), d)
  {
  }

  lemma {:induction false} TerminatedMoves(r: Run, terminal: TerminalTurn, ending: Ending, aborted: bool, d: Directive)
    requires Going(r) && Stage(r, d) && r.phase.AwaitingTerminal? && r.observer.terminal == Some(terminal)
    ensures var s := Terminated(r, terminal, ending, aborted); Going(s) ==> StageMove(r, s, d)
  {
    if aborted || terminal.threadId != r.threadId || terminal.turnId != r.turnId {
      CaughtStops(r, HOST_CANCELLED, aborted);
      CaughtStops(r, TURN_BINDING_MISMATCH, aborted);
    } else if terminal.status != Ascii("completed") {
      FailedTurnStops(r, ending, aborted);
    } else if terminal.error != Some(Null) || !ending.accepted {
      CaughtStops(r, INVALID_TERMINAL_PAYLOAD, aborted);
    } else if ending.built.Error? {
      CaughtStops(r, ending.built.code, aborted);
    } else {
      PhaseMoves(r, ShuttingDown, Some(WorkerEvent(ending.built.id, true)), d);
    }
  }

  lemma {:induction false} FailedTurnStops(r: Run, ending: Ending, aborted: bool)
    requires Unfailed(r.observer)
    ensures var t := r.(observer := Fail(r.observer, BACKEND_TURN_FAILED));
      !Unfailed(t.observer) && (ending.built.Error? ==> !Unfailed(Caught(t.(constructionFailed := true), ending.built.code, aborted).observer))
  {
  }

  lemma {:induction false} WaitedMoves(r: Run, wait: Wait, ending: Ending, aborted: bool, d: Directive)
    requires Going(r) && Stage(r, d) && r.phase.AwaitingTerminal?
    ensures var s := Waited(r, wait, ending, aborted); Going(s) ==> StageMove(r, s, d)
  {
    match wait {
      case ABORT => PhaseMoves(r, Interrupting(HOST_CANCELLED), r.event, d);
      case TIMEOUT => PhaseMoves(r, Interrupting(NO_TERMINAL_PAYLOAD), r.event, d);
      case POLICY_FAILURE => CaughtStops(r, UNSUPPORTED_BACKEND_ACTIVITY, aborted);
      case CLOSED => CaughtStops(r, CLIENT_FAILURE, aborted);
      case TERMINAL =>
        if r.observer.terminal.Some? { TerminatedMoves(r, r.observer.terminal.value, ending, aborted, d); }
    }
  }

  lemma {:induction false} ConcludeStops(r: Run, aborted: bool)
    requires !Unfailed(r.observer)
    ensures !Unfailed(Conclude(r, aborted).observer)
  {
  }

  lemma {:induction false} ShutDownMoves(r: Run, closedCleanly: bool, aborted: bool, d: Directive)
    requires Going(r) && Stage(r, d) && r.phase.ShuttingDown?
    ensures var s := ShutDown(r, closedCleanly, aborted); Going(s) ==> StageMove(r, s, d)
  {
    if !closedCleanly {
      ConcludeStops(r.(event := None, uncleanShutdown := true, observer := Fail(r.observer, CLEAN_SHUTDOWN_FAILED)), aborted);
    } else if !aborted {
      assert ShutDown(r, closedCleanly, aborted).observer == Complete(r.observer, r.event.value.id);
    }
  }

  // The first failure stands, but a cancellation may replace that of a turn.
  predicate Stands(v: Verdict, w: Verdict) {
    v.failure.Some? ==> w.failure == v.failure || (v.failure == Some(BACKEND_TURN_FAILED) && w.failure == Some(HOST_CANCELLED))
  }

  ghost predicate Persists(r: Run, s: Run) {
    (r.handlerThrew ==> s.handlerThrew) && Stands(r.observer.verdict, s.observer.verdict)
  }

  lemma {:induction false} CaughtPersists(r: Run, t: Run, code: FailureCode, aborted: bool)
    requires Persists(r, t)
    ensures Persists(r, Caught(t, code, aborted))
  {
  }

  lemma {:induction false} PromptPersists(r: Run, prompt: Option<Text>, aborted: bool)
    ensures Persists(r, BindPrompt(r, prompt, aborted))
  {
    CaughtPersists(r, r, EFFECTIVE_INPUT_MISMATCH, aborted);
    if prompt.Some? {
      var t := r.(observer := BindItemPolicy(r.observer, prompt.value), phase := AwaitingTurn);
      if t.observer.verdict.failure.Some? { CaughtPersists(r, t, t.observer.verdict.failure.value, aborted); }
    }
  }

  lemma {:induction false} ThreadReadyPersists(
    r: Run, threadId: Text, thrown: Option<FailureCode>, aborted: bool, prompt: Option<Text>, d: Directive)
    ensures Persists(r, ThreadReady(r, threadId, thrown, aborted, prompt, d))
  {
    var t := r.(observer := BindThread(r.observer, threadId), threadId := threadId);
    if t.observer.verdict.failure.Some? {
      CaughtPersists(r, t, t.observer.verdict.failure.value, aborted);
    } else if thrown.Some? {
      CaughtPersists(r, t, thrown.value, aborted);
    } else if !d.manualCompaction {
      PromptPersists(t, prompt, aborted);
    }
  }

  lemma {:induction false} CompactedPersists(r: Run, threadId: Text, aborted: bool, prompt: Option<Text>)
    ensures Persists(r, CompactionReturned(r, threadId, aborted, prompt))
  {
    var t := r.(observer := FinishManualCompaction(r.observer));
    if t.observer.verdict.failure.Some? {
      CaughtPersists(r, t, t.observer.verdict.failure.value, aborted);
    } else {
      PromptPersists(t, prompt, aborted);
    }
  }

  lemma {:induction false} WaitedPersists(r: Run, wait: Wait, ending: Ending, aborted: bool)
    ensures Persists(r, Waited(r, wait, ending, aborted))
  {
    CaughtPersists(r, r, UNSUPPORTED_BACKEND_ACTIVITY, aborted);
    CaughtPersists(r, r, CLIENT_FAILURE, aborted);
    if r.observer.verdict.failure.Some? { CaughtPersists(r, r, r.observer.verdict.failure.value, aborted); }
    if wait.TERMINAL? && r.observer.terminal.Some? { TerminatedPersists(r, r.observer.terminal.value, ending, aborted); }
  }

  lemma {:induction false} TerminatedPersists(r: Run, terminal: TerminalTurn, ending: Ending, aborted: bool)
    ensures Persists(r, Terminated(r, terminal, ending, aborted))
  {
    if aborted {
      CaughtPersists(r, r, HOST_CANCELLED, aborted);
    } else if terminal.threadId != r.threadId || terminal.turnId != r.turnId {
      CaughtPersists(r, r, TURN_BINDING_MISMATCH, aborted);
    } else if terminal.status != Ascii("completed") {
      var t := r.(observer := Fail(r.observer, BACKEND_TURN_FAILED), constructionFailed := true);
      if ending.built.Error? { CaughtPersists(r, t, ending.built.code, aborted); }
    } else if terminal.error != Some(Null) || !ending.accepted {
      CaughtPersists(r, r, INVALID_TERMINAL_PAYLOAD, aborted);
    } else if ending.built.Error? {
      CaughtPersists(r, r, ending.built.code, aborted);
    }
  }

  lemma {:induction false} TurnReadyPersists(r: Run, turnId: Text, thrown: Option<FailureCode>, aborted: bool)
    ensures Persists(r, TurnReady(r, turnId, thrown, aborted))
  {
    var t := r.(observer := BindTurn(r.observer, turnId), turnId := turnId, phase := AwaitingTerminal);
    if t.observer.verdict.failure.Some? {
      CaughtPersists(r, t, t.observer.verdict.failure.value, aborted);
    } else if thrown.Some? {
      CaughtPersists(r, t, thrown.value, aborted);
    }
  }

  lemma {:induction false} ConcludePersists(r: Run, aborted: bool)
    ensures Persists(r, Conclude(r, aborted))
  {
  }

  lemma {:induction false} StartFailedPersists(r: Run, code: FailureCode, aborted: bool, later: bool)
    ensures Persists(r, StartFailed(r, code, aborted, later))
  {
    CaughtPersists(r, r, code, aborted);
    ConcludePersists(Caught(r, code, aborted), later);
  }

  lemma {:induction false} EndPersists(r: Run, clean: bool, aborted: bool)
    ensures Persists(r, ShutDown(r, clean, aborted))
  {
  }

  lemma {:induction false} RecordPersists(r: Run, e: RunEvent, d: Directive)
    requires e.RNotification? || e.RCompaction? || e.RApproval?
    ensures Persists(r, Step(r, e, d))
  {
    match e {
      case RNotification(n) => R.NotificationObserves(r.observer, n, d);
      case RCompaction(c) => R.CompactionObserves(r.observer, c, d);
      case RApproval(_, _) =>
    }
  }

  // A run that has stopped going never goes on.
  lemma {:induction false} StepPersists(r: Run, e: RunEvent, d: Directive)
    requires !r.phase.Idle?
    ensures Persists(r, Step(r, e, d))
  {
    match e {
      case RLaunch(_, _) =>
      case RStartFailed(code, aborted, later) => StartFailedPersists(r, code, aborted, later);
      case RThrown(code, aborted) => CaughtPersists(r, r, code, aborted);
      case RThreadReady(threadId, thrown, aborted, prompt) => ThreadReadyPersists(r, threadId, thrown, aborted, prompt, d);
      case RCompactionReturned(threadId, aborted, prompt) => CompactedPersists(r, threadId, aborted, prompt);
      case RTurnReady(turnId, thrown, aborted) => TurnReadyPersists(r, turnId, thrown, aborted);
      case RWaited(wait, ending, aborted) => WaitedPersists(r, wait, ending, aborted);
      case RInterrupted(aborted) => if r.phase.Interrupting? { CaughtPersists(r, r, r.phase.code, aborted); }
      case RShutDown(clean, aborted) => EndPersists(r, clean, aborted);
      case _ => RecordPersists(r, e, d);
    }
  }

  // ---- Whole runs ----

  ghost predicate SeesApproval(es: seq<RunEvent>, d: Directive) {
    exists i :: 0 <= i < |es| && es[i].RApproval? && HasClient(RunOf(es[..i], d).phase)
  }

  ghost predicate Covers(es: seq<RunEvent>, d: Directive, o: Observer) {
    && (forall x | SeesThread(es, d, x) :: x in o.threadRefs)
    && (forall y | SeesTurn(es, d, y) :: HasTurn(o, y))
    && !SeesApproval(es, d)
  }

  // A step of a run that is still going after it.
  lemma {:induction false} GoingStep(r: Run, e: RunEvent, d: Directive)
    requires (Going(r) ==> Stage(r, d)) && (r.phase.Idle? ==> Going(r)) && Going(Step(r, e, d))
    ensures StageMove(r, Step(r, e, d), d)
    ensures HasClient(r.phase) ==> !e.RApproval?
    ensures HasClient(r.phase) ==> forall x | MentionsThread(e, x) :: x in Step(r, e, d).observer.threadRefs
    ensures HasClient(r.phase) ==> forall y | MentionsTurn(e, y) :: HasTurn(Step(r, e, d).observer, y)
  {
    if !r.phase.Idle? { StepPersists(r, e, d); }
    if e.RNotification? || e.RCompaction? || e.RApproval? { RecordGoes(r, e, d); } else { PhaseGoes(r, e, d); }
  }

  lemma {:induction false} RecordGoes(r: Run, e: RunEvent, d: Directive)
    requires Going(r) && Stage(r, d) && Going(Step(r, e, d)) && (e.RNotification? || e.RCompaction? || e.RApproval?)
    ensures StageMove(r, Step(r, e, d), d)
    ensures HasClient(r.phase) ==> !e.RApproval?
    ensures HasClient(r.phase) ==> forall x | MentionsThread(e, x) :: x in Step(r, e, d).observer.threadRefs
    ensures HasClient(r.phase) ==> forall y | MentionsTurn(e, y) :: HasTurn(Step(r, e, d).observer, y)
  {
    if HasClient(r.phase) {
      match e {
        case RNotification(n) =>
          NotificationTracks(r.observer, n, d);
          FrameMoves(r, RecordNotification(r.observer, n, d).0, d);
        case RCompaction(c) =>
          CompactionTracks(r.observer, c, d);
          FrameMoves(r, RecordCompaction(r.observer, c, d), d);
        case RApproval(_, _) =>
      }
    }
  }

  lemma {:induction false} StartFailedStops(r: Run, code: FailureCode, aborted: bool, later: bool)
    ensures !Unfailed(StartFailed(r, code, aborted, later).observer)
  {
    CaughtStops(r, code, aborted);
    ConcludeStops(Caught(r, code, aborted), later);
  }

  lemma {:induction false} LaunchMoves(r: Run, refusal: Option<FailureCode>, aborted: bool, d: Directive)
    requires Going(r) && Stage(r, d)
    ensures Going(Launch(r, refusal, aborted)) ==> StageMove(r, Launch(r, refusal, aborted), d)
  {
  }

  lemma {:induction false} PhaseGoes(r: Run, e: RunEvent, d: Directive)
    requires Going(r) && Stage(r, d) && Going(Step(r, e, d)) && !e.RNotification? && !e.RCompaction? && !e.RApproval?
    ensures StageMove(r, Step(r, e, d), d)
  {
    match e {
      case RLaunch(refusal, aborted) => LaunchMoves(r, refusal, aborted, d);
      case RStartFailed(code, aborted, later) => StartFailedStops(r, code, aborted, later);
      case RThrown(code, aborted) => CaughtStops(r, code, aborted);
      case RThreadReady(threadId, thrown, aborted, prompt) =>
        if r.phase.Starting? { ThreadReadyMoves(r, threadId, thrown, aborted, prompt, d); }
      case RCompactionReturned(threadId, aborted, prompt) =>
        if r.phase.Compacting? { CompactedMoves(r, threadId, aborted, prompt, d); }
      case RTurnReady(turnId, thrown, aborted) =>
        if r.phase.AwaitingTurn? { TurnReadyMoves(r, turnId, thrown, aborted, d); }
      case RWaited(wait, ending, aborted) =>
        if r.phase.AwaitingTerminal? { WaitedMoves(r, wait, ending, aborted, d); }
      case RInterrupted(aborted) => if r.phase.Interrupting? { CaughtStops(r, r.phase.code, aborted); }
      case RShutDown(clean, aborted) => if r.phase.ShuttingDown? { ShutDownMoves(r, clean, aborted, d); }
    }
  }

  lemma {:induction false} SeesLater(es: seq<RunEvent>, e: RunEvent, d: Directive, x: Text)
    ensures SeesThread(es + [e], d, x) ==> SeesThread(es, d, x) || (MentionsThread(e, x) && HasClient(RunOf(es, d).phase))
    ensures SeesTurn(es + [e], d, x) ==> SeesTurn(es, d, x) || (MentionsTurn(e, x) && HasClient(RunOf(es, d).phase))
    ensures SeesApproval(es + [e], d) ==> SeesApproval(es, d) || (e.RApproval? && HasClient(RunOf(es, d).phase))
  {
    assert forall i | 0 <= i <= |es| :: (es + [e])[..i] == es[..i];
    assert es[..|es|] == es;
  }

  lemma {:induction false} CoversLater(es: seq<RunEvent>, e: RunEvent, d: Directive)
    requires var r, s := RunOf(es, d), RunOf(es + [e], d);
      && s == Step(r, e, d) && Covers(es, d, r.observer) && Grown(r.observer, s.observer)
      && (HasClient(r.phase) ==> !e.RApproval?)
      && (HasClient(r.phase) ==> forall x | MentionsThread(e, x) :: x in s.observer.threadRefs)
      && (HasClient(r.phase) ==> forall y | MentionsTurn(e, y) :: HasTurn(s.observer, y))
    ensures Covers(es + [e], d, RunOf(es + [e], d).observer)
  {
    var o := RunOf(es + [e], d).observer;
    forall x | SeesThread(es + [e], d, x) ensures x in o.threadRefs { SeesLater(es, e, d, x); }
    forall y | SeesTurn(es + [e], d, y) ensures HasTurn(o, y) { SeesLater(es, e, d, y); }
    SeesLater(es, e, d, []);
  }

  // A run that is still going is in its stage, and the observer has on record all that was mentioned.
  lemma {:induction false} GoingRuns(es: seq<RunEvent>, d: Directive)
    requires forall e | e in es :: Possible(e)
    ensures var r := RunOf(es, d);
      Going(r) ==> Stage(r, d) && Covers(es, d, r.observer) && Accounted(CompactionsSeen(es, d), r.observer, d)
  {
    if es != [] {
      var before, e := es[..|es| - 1], es[|es| - 1];
      assert es == before + [e];
      GoingRuns(before, d);
      R.TerminalRelationExactly(before, d);
      var r := RunOf(before, d);
      if Going(Step(r, e, d)) {
        GoingStep(r, e, d);
        CoversLater(before, e, d);
        AccountsStep(CompactionsSeen(before, d), r, e, d);
      }
    }
  }

  // What a reported completion says about the run.
  ghost predicate CleanCompletion(es: seq<RunEvent>, d: Directive, o: Observer) {
    && o.session.Some? && o.operation.Some? && o.maintenanceTurn != o.operation
    && o.compactionCount == (if d.manualCompaction then 1 else 0)
    && (d.manualCompaction <==> o.maintenanceTurn.Some?)
    && (if d.manualCompaction then OneCompaction(CompactionsSeen(es, d), o.session.value, o.maintenanceTurn.value)
        else CompactionsSeen(es, d) == [])
    && !SeesApproval(es, d)
    && (forall x | SeesThread(es, d, x) :: o.session == Some(x))
    && (forall y | SeesTurn(es, d, y) :: o.operation == Some(y) || o.maintenanceTurn == Some(y))
    && o.terminal.Some? && o.session == Some(o.terminal.value.threadId) && o.operation == Some(o.terminal.value.turnId)
    && o.terminal.value.status == Ascii("completed") && o.terminal.value.error == Some(Null)
  }

  lemma {:induction false} GoingIsClean(es: seq<RunEvent>, d: Directive)
    requires Going(RunOf(es, d)) && RunOf(es, d).phase.Finished? && forall e | e in es :: Possible(e)
    ensures CleanCompletion(es, d, RunOf(es, d).observer)
  {
    GoingRuns(es, d);
    var o := RunOf(es, d).observer;
    if d.manualCompaction { AccountOfOne(CompactionsSeen(es, d), o, d); }
    forall y | SeesTurn(es, d, y) ensures o.operation == Some(y) || o.maintenanceTurn == Some(y) {
      assert HasTurn(o, y);
    }
  }

  predicate ReportsCompletion(r: Run) { r.report.Some? && r.report.value.state == COMPLETED }

  lemma {:induction false} ConcludedGoing(r: Run, aborted: bool)
    requires R.VerdictInv(r.observer.verdict) && ReportsCompletion(Conclude(r, aborted))
    ensures Unfailed(r.observer) && Unfailed(Conclude(r, aborted).observer) && Conclude(r, aborted).handlerThrew == r.handlerThrew
    ensures Conclude(r, aborted).report.value.failure.None?
  {
    if aborted {
      var a := r.(event := None, observer := Cancel(r.observer));
      assert Conclude(r, aborted) == Conclude(a, false);
      ConcludedUnaborted(a);
    } else {
      ConcludedUnaborted(r);
    }
  }

  lemma {:induction false} ConcludedUnaborted(r: Run)
    requires R.VerdictInv(r.observer.verdict) && ReportsCompletion(Conclude(r, false))
    ensures Unfailed(r.observer) && Unfailed(Conclude(r, false).observer) && Conclude(r, false).handlerThrew == r.handlerThrew
    ensures Conclude(r, false).report.value.failure.None?
  {
    if !Unfailed(r.observer) {
      FailedIsNotCompleted(r);
    } else {
      UnfailedConcludes(r);
    }
  }

  lemma {:induction false} UnfailedConcludes(r: Run)
    requires R.VerdictInv(r.observer.verdict) && Unfailed(r.observer)
    ensures var s, o := Conclude(r, false),
        if r.event.Some? then Complete(r.observer, r.event.value.id) else Fail(r.observer, CLIENT_FAILURE);
      && s.observer == o && s.handlerThrew == r.handlerThrew && s.report.Some?
      && s.report.value.state == o.verdict.state && s.report.value.failure == o.verdict.failure
  {
  }

  lemma {:induction false} FailedIsNotCompleted(r: Run)
    requires R.VerdictInv(r.observer.verdict) && !Unfailed(r.observer)
    ensures !ReportsCompletion(Conclude(r, false))
  {
    var b := if r.event.Some? && r.observer.verdict.failure == Some(BACKEND_TURN_FAILED)
      then r.(observer := Complete(r.observer, r.event.value.id)) else r;
    assert b.observer.verdict == r.observer.verdict;
    assert Conclude(r, false).observer == b.observer;
  }

  // The step that reports a completion ends a run that is still going.
  lemma {:induction false} CompletionGoes(r: Run, e: RunEvent, d: Directive)
    requires R.EventInv(r) && Possible(e) && ReportsCompletion(Step(r, e, d))
    ensures Going(Step(r, e, d)) && Step(r, e, d).phase.Finished? && Step(r, e, d).report.value.failure.None?
  {
    match e {
      case RStartFailed(code, aborted, later) =>
        R.CaughtKeepsReport(r, code, aborted);
        CaughtStops(r, code, aborted);
        ConcludedGoing(Caught(r, code, aborted), later);
      case RShutDown(clean, aborted) => ShutDownGoes(r, clean, aborted);
      case _ => NoReportYet(r, e, d);
    }
  }

  lemma {:induction false} ShutDownGoes(r: Run, clean: bool, aborted: bool)
    requires R.VerdictInv(r.observer.verdict) && ReportsCompletion(ShutDown(r, clean, aborted))
    ensures Going(ShutDown(r, clean, aborted)) && ShutDown(r, clean, aborted).report.value.failure.None?
  {
    if clean && !r.handlerThrew {
      ConcludedGoing(r, aborted);
    } else {
      ConcludedGoing(r.(event := None, uncleanShutdown := true, observer := Fail(r.observer, CLEAN_SHUTDOWN_FAILED)), aborted);
    }
  }

  lemma {:induction false} NoReportYet(r: Run, e: RunEvent, d: Directive)
    requires !e.RStartFailed? && !e.RShutDown?
    ensures Step(r, e, d).report == r.report
  {
    match e {
      case RThreadReady(threadId, thrown, aborted, prompt) => NoReportAtThread(r, threadId, thrown, aborted, prompt, d);
      case RCompactionReturned(threadId, aborted, prompt) => NoReportAtCompaction(r, threadId, aborted, prompt);
      case RWaited(wait, ending, aborted) => NoReportAtTerminal(r, wait, ending, aborted);
      case _ =>
    }
  }

  lemma {:induction false} NoReportAtThread(
    r: Run, threadId: Text, thrown: Option<FailureCode>, aborted: bool, prompt: Option<Text>, d: Directive)
    ensures ThreadReady(r, threadId, thrown, aborted, prompt, d).report == r.report
  {
  }

  lemma {:induction false} NoReportAtCompaction(r: Run, threadId: Text, aborted: bool, prompt: Option<Text>)
    ensures CompactionReturned(r, threadId, aborted, prompt).report == r.report
  {
  }

  lemma {:induction false} NoReportAtTerminal(r: Run, wait: Wait, ending: Ending, aborted: bool)
    ensures Waited(r, wait, ending, aborted).report == r.report
  {
  }

  lemma {:induction false} AbortedIsNotCompleted(r: Run)
    requires R.VerdictInv(r.observer.verdict)
    ensures !ReportsCompletion(Conclude(r, true))
  {
    if ReportsCompletion(Conclude(r, true)) {
      var a := r.(event := None, observer := Cancel(r.observer));
      assert Conclude(r, true) == Conclude(a, false);
      ConcludedUnaborted(a);
    }
  }

  lemma {:induction false} UncleanIsNotCompleted(r: Run, aborted: bool)
    requires R.VerdictInv(r.observer.verdict)
    ensures var u := r.(event := None, uncleanShutdown := true, observer := Fail(r.observer, CLEAN_SHUTDOWN_FAILED));
      !ReportsCompletion(Conclude(u, aborted))
  {
    var u := r.(event := None, uncleanShutdown := true, observer := Fail(r.observer, CLEAN_SHUTDOWN_FAILED));
    if ReportsCompletion(Conclude(u, aborted)) { ConcludedGoing(u, aborted); }
  }

  // A run that comes to its shutdown is reported as COMPLETED exactly when nothing has failed in it, the
  // shutdown is clean and the host has not cancelled it.
  lemma {:induction false} CompletesExactly(es: seq<RunEvent>, clean: bool, aborted: bool, d: Directive)
    requires (forall e | e in es :: Possible(e)) && RunOf(es, d).phase.ShuttingDown?
    ensures ReportsCompletion(RunOf(es + [RShutDown(clean, aborted)], d)) <==> Going(RunOf(es, d)) && clean && !aborted
  {
    var r, e := RunOf(es, d), RShutDown(clean, aborted);
    assert (es + [e])[..|es|] == es;
    R.TerminalRelationExactly(es, d);
    GoingRuns(es, d);
    if r.handlerThrew || !clean {
      UncleanIsNotCompleted(r, aborted);
    } else if aborted {
      AbortedIsNotCompleted(r);
    } else if !Unfailed(r.observer) {
      FailedIsNotCompleted(r);
    } else {
      UnfailedConcludes(r);
    }
  }

  // Every run that is reported as COMPLETED had no approval request and one compaction or none, as
  // the policy says, and all the reports of the client were about its thread and its turn, except
  // those about the maintenance turn, which is another turn.
  lemma {:induction false} CompletedRunsAreClean(es: seq<RunEvent>, d: Directive)
    requires forall e | e in es :: Possible(e)
    requires ReportsCompletion(RunOf(es, d))
    ensures CleanCompletion(es, d, RunOf(es, d).observer) && RunOf(es, d).phase.Finished?
    ensures RunOf(es, d).report.value.failure.None? && RunOf(es, d).yielded.Some? && RunOf(es, d).yielded.value.isResult
  {
    if es != [] {
      var before, e := es[..|es| - 1], es[|es| - 1];
      assert es == before + [e];
      var r := RunOf(before, d);
      R.TerminalRelationExactly(before, d);
      R.TerminalRelationExactly(es, d);
      if r.phase.Finished? {
        Reported(r, e, d);
        CompletedRunsAreClean(before, d);
        CleanLater(before, e, d);
      } else {
        CompletionGoes(r, e, d);
        GoingIsClean(es, d);
        WellFormedCompletion(RunOf(es, d));
      }
    }
  }

  lemma {:induction false} Reported(r: Run, e: RunEvent, d: Directive)
    requires r.phase.Finished?
    ensures Step(r, e, d).phase.Finished? && Step(r, e, d) == r.(observer := r.observer.(verdict := Step(r, e, d).observer.verdict))
  {
  }

  lemma {:induction false} CleanLater(es: seq<RunEvent>, e: RunEvent, d: Directive)
    requires RunOf(es, d).phase.Finished? && CleanCompletion(es, d, RunOf(es, d).observer)
    requires RunOf(es + [e], d).observer == RunOf(es, d).observer.(verdict := RunOf(es + [e], d).observer.verdict)
    ensures CleanCompletion(es + [e], d, RunOf(es + [e], d).observer)
  {
    var o := RunOf(es, d).observer;
    SeesLater(es, e, d, []);
    CompactionsLater(es, e, d);
    assert CompactionsSeen(es, d) + [] == CompactionsSeen(es, d);
    forall x | SeesThread(es + [e], d, x) ensures o.session == Some(x) { SeesLater(es, e, d, x); }
    forall y | SeesTurn(es + [e], d, y) ensures o.operation == Some(y) || o.maintenanceTurn == Some(y) { SeesLater(es, e, d, y); }
  }

  lemma {:induction false} WellFormedCompletion(r: Run)
    requires ReportsCompletion(r) && r.report.value.failure.None? && R.EndInv(r)
    ensures r.yielded.Some? && r.yielded.value.isResult
  {
  }
}
