// Worker runs: the observer's account of compactions against the compaction events of the run.
module WorkerCompactions {
  import opened Options
  import opened CodeUnits
  import opened JsonAccess
  import opened JsonValues
  import opened ObserverModel
  import opened WorkerRunModel

  // ---- The compactions of a run ----

  // The compaction events that come while there is a client, in order.
  ghost function CompactionsSeen(es: seq<RunEvent>, d: Directive): seq<CompactionEvent> {
    if es == [] then [] else
    var before, e := es[..|es| - 1], es[|es| - 1];
    CompactionsSeen(before, d) + SeenIn(RunOf(before, d), e)
  }

  ghost function SeenIn(r: Run, e: RunEvent): seq<CompactionEvent> {
    if e.RCompaction? && HasClient(r.phase) then [e.e] else []
  }

  lemma {:induction false} CompactionsLater(es: seq<RunEvent>, e: RunEvent, d: Directive)
    ensures CompactionsSeen(es + [e], d) == CompactionsSeen(es, d) + SeenIn(RunOf(es, d), e)
  {
    assert (es + [e])[..|es|] == es;
  }

  function Starts(seen: seq<CompactionEvent>): nat {
    if seen == [] then 0 else Starts(seen[..|seen| - 1]) + if seen[|seen| - 1].started then 1 else 0
  }

  function Completions(seen: seq<CompactionEvent>): nat {
    if seen == [] then 0 else Completions(seen[..|seen| - 1]) + if seen[|seen| - 1].started then 0 else 1
  }

  lemma {:induction false} CountOneMore(seen: seq<CompactionEvent>, c: CompactionEvent)
    ensures Starts(seen + [c]) == Starts(seen) + (if c.started then 1 else 0)
    ensures Completions(seen + [c]) == Completions(seen) + (if c.started then 0 else 1)
  {
    assert (seen + [c])[..|seen|] == seen;
  }

  lemma {:induction false} StartsAndCompletions(seen: seq<CompactionEvent>)
    ensures Starts(seen) + Completions(seen) == |seen|
  {
    if seen != [] { StartsAndCompletions(seen[..|seen| - 1]); }
  }

  // Each completion comes after the start of the same item, on the same thread and turn.
  ghost predicate Paired(seen: seq<CompactionEvent>) {
    forall k | 0 <= k < |seen| && !seen[k].started :: seen[k].(started := true) in seen[..k]
  }

  ghost predicate OfMaintenance(c: CompactionEvent, o: Observer) {
    c.requestedManual && o.session == Some(c.threadId) && o.maintenanceTurn == Some(c.turnId)
  }

  // What the observer has counted is what was seen.
  ghost predicate Accounted(seen: seq<CompactionEvent>, o: Observer, d: Directive) {
    && (!d.manualCompaction ==> seen == [])
    && Starts(seen) == |o.maintenanceItems| + o.compactionCount && Completions(seen) == o.compactionCount
    && Paired(seen) && (forall c | c in seen :: OfMaintenance(c, o))
    && (forall itemId | itemId in o.maintenanceItems ::
         CompactionEvent(itemId, o.maintenanceItems[itemId].threadId, o.maintenanceItems[itemId].turnId, true, true) in seen)
  }

  // Nothing that the accounts are about changes.
  predicate Aside(o: Observer, t: Observer) {
    && t.maintenanceItems == o.maintenanceItems && t.compactionCount == o.compactionCount
    && (o.session.Some? ==> t.session == o.session) && (o.maintenanceTurn.Some? ==> t.maintenanceTurn == o.maintenanceTurn)
  }

  lemma {:induction false} AsideAccounts(seen: seq<CompactionEvent>, o: Observer, t: Observer, d: Directive)
    requires Accounted(seen, o, d) && Aside(o, t)
    ensures Accounted(seen, t, d)
  {
  }

  lemma {:induction false} ItemsAside(o: Observer, items: seq<Json>, d: Directive)
    ensures Aside(o, RecordItems(o, items, d))
    decreases |items|
  {
    if items != [] { ItemsAside(if items[0].Obj? then RecordItem(o, items[0], AtTerminal, d) else Fail(o, UNSUPPORTED_BACKEND_ACTIVITY), items[1..], d); }
  }

  lemma {:induction false} AsideTwice(o: Observer, t: Observer, u: Observer)
    requires Aside(o, t) && Aside(t, u)
    ensures Aside(o, u)
  {
  }

  lemma {:induction false} FailAside(o: Observer, t: Observer, code: FailureCode)
    requires Aside(o, t)
    ensures Aside(o, Fail(t, code)) && Aside(o, Cancel(t))
  {
  }

  lemma {:induction false} SawAside(o: Observer, t: Observer, id: Option<Text>)
    requires Aside(o, t)
    ensures Aside(o, SawThread(t, id)) && Aside(o, SawTurn(t, id))
  {
  }

  lemma {:induction false} ThreadsAside(o: Observer, n: Notification)
    ensures Aside(o, ThreadsSeen(o, n))
  {
    var f := if Forbidden(n) then Fail(o, UNSUPPORTED_BACKEND_ACTIVITY) else o;
    FailAside(o, o, UNSUPPORTED_BACKEND_ACTIVITY);
    var t := SawThread(f, n.ThreadId());
    SawAside(o, f, n.ThreadId());
    SawAside(o, t, n.NewThread());
    FailAside(o, t, THREAD_BINDING_MISMATCH);
  }

  lemma {:induction false} TurnsAside(o: Observer, n: Notification)
    ensures Aside(o, TurnsSeen(o, n))
  {
    if n.name == "turn/started" { TurnStartAside(o, n.NewTurn()); }
  }

  lemma {:induction false} TurnStartAside(o: Observer, id: Option<Text>)
    ensures Aside(o, TurnStarted(o, id))
  {
  }

  lemma {:induction false} ItemAside(o: Observer, n: Notification, d: Directive)
    ensures Aside(o, ItemNotified(o, n, d))
  {
    if IsObject(Property(n.params, "item")) {
      RecordItemAside(o, Property(n.params, "item").value, if n.name == "item/started" then AtStart else AtCompletion, d);
    }
  }

  lemma {:induction false} RecordItemAside(o: Observer, item: Json, location: Location, d: Directive)
    ensures Aside(o, RecordItem(o, item, location, d))
  {
  }

  lemma {:induction false} SeenAside(o: Observer, n: Notification, d: Directive)
    ensures Aside(o, NotificationSeen(o, n, d))
  {
    var t := ThreadsSeen(o, n);
    var u := TurnsSeen(t, n);
    ThreadsAside(o, n);
    TurnsAside(t, n);
    AsideTwice(o, t, u);
    ItemAside(u, n, d);
    AsideTwice(o, u, ItemNotified(u, n, d));
  }

  lemma {:induction false} TerminatedAside(o: Observer, turn: TerminalTurn, d: Directive)
    ensures Aside(o, TurnTerminated(o, turn, d))
  {
    ItemsAside(o, turn.items, d);
  }

  lemma {:induction false} ValidateAside(o: Observer)
    ensures Aside(o, ValidateRefs(o))
  {
  }

  lemma {:induction false} EndAside(o: Observer, n: Notification, d: Directive)
    ensures Aside(o, NotificationEnded(o, n, d).0)
  {
    match ProjectTerminalTurn(n)
    case Throws =>
    case NoTurn => ValidateAside(o);
    case Projected(turn) =>
      var t := TurnTerminated(o, turn, d);
      TerminatedAside(o, turn, d);
      ValidateAside(t);
      AsideTwice(o, t, ValidateRefs(t));
  }

  lemma {:induction false} CountedAside(o: Observer)
    ensures Aside(o, o.(notificationCount := o.notificationCount + 1))
  {
  }

  lemma {:induction false} CountedNotificationAside(o: Observer, counted: Observer, n: Notification, d: Directive)
    requires Aside(o, counted)
    ensures Aside(o, NotificationEnded(NotificationSeen(counted, n, d), n, d).0)
  {
    var t := NotificationSeen(counted, n, d);
    SeenAside(counted, n, d);
    AsideTwice(o, counted, t);
    EndAside(t, n, d);
    AsideTwice(o, t, NotificationEnded(t, n, d).0);
  }

  lemma {:induction false} NotificationAside(o: Observer, n: Notification, d: Directive)
    ensures Aside(o, RecordNotification(o, n, d).0)
  {
    var counted := o.(notificationCount := o.notificationCount + 1);
    CountedAside(o);
    if counted.notificationCount > 10000 {
      FailAside(o, counted, UNSUPPORTED_BACKEND_ACTIVITY);
    } else {
      CountedNotificationAside(o, counted, n, d);
    }
  }

  lemma {:induction false} CaughtAside(o: Observer, r: Run, code: FailureCode, aborted: bool)
    requires Aside(o, r.observer)
    ensures Aside(o, Caught(r, code, aborted).observer)
  {
    FailAside(o, r.observer, code);
  }

  lemma {:induction false} CaughtIfFailedAside(o: Observer, r: Run, aborted: bool)
    requires Aside(o, r.observer)
    ensures Aside(o, CaughtIfFailed(r, aborted).observer)
  {
    if r.observer.verdict.failure.Some? { CaughtAside(o, r, r.observer.verdict.failure.value, aborted); }
  }

  lemma {:induction false} PromptAside(o: Observer, r: Run, prompt: Option<Text>, aborted: bool)
    requires Aside(o, r.observer)
    ensures Aside(o, BindPrompt(r, prompt, aborted).observer)
  {
    if prompt.None? {
      CaughtAside(o, r, EFFECTIVE_INPUT_MISMATCH, aborted);
    } else {
      var t := r.(observer := BindItemPolicy(r.observer, prompt.value), phase := AwaitingTurn);
      FailAside(o, r.observer, EFFECTIVE_INPUT_MISMATCH);
      CaughtIfFailedAside(o, t, aborted);
    }
  }

  lemma {:induction false} ThreadReadyAside(
    r: Run, threadId: Text, thrown: Option<FailureCode>, aborted: bool, prompt: Option<Text>, d: Directive)
    requires r.observer.session.None?
    ensures Aside(r.observer, ThreadReady(r, threadId, thrown, aborted, prompt, d).observer)
  {
    var t := r.(observer := BindThread(r.observer, threadId), threadId := threadId);
    assert Aside(r.observer, t.observer);
    if t.observer.verdict.failure.Some? {
      CaughtAside(r.observer, t, t.observer.verdict.failure.value, aborted);
    } else if thrown.Some? {
      CaughtAside(r.observer, t, thrown.value, aborted);
    } else if !d.manualCompaction {
      PromptAside(r.observer, t, prompt, aborted);
    } else {
      CaughtAside(r.observer, t, HOST_CANCELLED, aborted);
      FailAside(r.observer, t.observer, COMPACTION_POLICY_VIOLATION);
      CaughtIfFailedAside(r.observer, t.(observer := BeginManualCompaction(t.observer, d), phase := Compacting), aborted);
    }
  }

  lemma {:induction false} CompactedAside(r: Run, threadId: Text, aborted: bool, prompt: Option<Text>)
    ensures Aside(r.observer, CompactionReturned(r, threadId, aborted, prompt).observer)
  {
    var t := r.(observer := FinishManualCompaction(r.observer));
    if threadId != r.threadId {
      CaughtAside(r.observer, r, THREAD_BINDING_MISMATCH, aborted);
    } else {
      FailAside(r.observer, r.observer, COMPACTION_POLICY_VIOLATION);
      if t.observer.verdict.failure.Some? {
        CaughtAside(r.observer, t, t.observer.verdict.failure.value, aborted);
      } else if aborted {
        CaughtAside(r.observer, t, HOST_CANCELLED, aborted);
      } else {
        PromptAside(r.observer, t, prompt, aborted);
      }
    }
  }

  lemma {:induction false} TurnReadyAside(r: Run, turnId: Text, thrown: Option<FailureCode>, aborted: bool)
    ensures Aside(r.observer, TurnReady(r, turnId, thrown, aborted).observer)
  {
    var t := r.(observer := BindTurn(r.observer, turnId), turnId := turnId, phase := AwaitingTerminal);
    if t.observer.verdict.failure.Some? { CaughtAside(r.observer, t, t.observer.verdict.failure.value, aborted); }
    if thrown.Some? { CaughtAside(r.observer, t, thrown.value, aborted); }
  }

  lemma {:induction false} WaitedAside(r: Run, wait: Wait, ending: Ending, aborted: bool)
    ensures Aside(r.observer, Waited(r, wait, ending, aborted).observer)
  {
    var failure := r.observer.verdict.failure;
    match wait
    case POLICY_FAILURE =>
      CaughtAside(r.observer, r, if failure.Some? then failure.value else UNSUPPORTED_BACKEND_ACTIVITY, aborted);
    case CLOSED => CaughtAside(r.observer, r, CLIENT_FAILURE, aborted);
    case TERMINAL => if r.observer.terminal.Some? { TerminalAside(r, r.observer.terminal.value, ending, aborted); }
    case _ =>
  }

  lemma {:induction false} TerminalAside(r: Run, terminal: TerminalTurn, ending: Ending, aborted: bool)
    ensures Aside(r.observer, Terminated(r, terminal, ending, aborted).observer)
  {
    var o, t := r.observer, r.(observer := Fail(r.observer, BACKEND_TURN_FAILED));
    if aborted {
      CaughtAside(o, r, HOST_CANCELLED, aborted);
    } else if terminal.threadId != r.threadId || terminal.turnId != r.turnId {
      CaughtAside(o, r, TURN_BINDING_MISMATCH, aborted);
    } else if terminal.status != Ascii("completed") {
      FailAside(o, o, BACKEND_TURN_FAILED);
      if ending.built.Error? { CaughtAside(o, t.(constructionFailed := true), ending.built.code, aborted); }
    } else if terminal.error != Some(Null) || !ending.accepted {
      CaughtAside(o, r, INVALID_TERMINAL_PAYLOAD, aborted);
    } else if ending.built.Error? {
      CaughtAside(o, r, ending.built.code, aborted);
    }
  }

  lemma {:induction false} CompleteAside(o: Observer, t: Observer, id: Text)
    requires Aside(o, t)
    ensures Aside(o, Complete(t, id)) && Aside(o, Fail(Complete(t, id), CLIENT_FAILURE))
  {
  }

  lemma {:induction false} SettledAside(o: Observer, r: Run)
    requires Aside(o, r.observer)
    ensures Aside(o, Settled(r, false).observer)
  {
    if r.event.Some? { CompleteAside(o, r.observer, r.event.value.id); }
    FailAside(o, r.observer, CLIENT_FAILURE);
  }

  lemma {:induction false} ConcludeAside(o: Observer, r: Run, aborted: bool)
    requires Aside(o, r.observer)
    ensures Aside(o, Conclude(r, aborted).observer)
  {
    if aborted {
      var a := r.(event := None, observer := Cancel(r.observer));
      FailAside(o, r.observer, HOST_CANCELLED);
      assert Settled(r, true) == Settled(a, false);
      SettledAside(o, a);
    } else {
      SettledAside(o, r);
    }
  }

  lemma {:induction false} ShutDownAside(r: Run, clean: bool, aborted: bool)
    ensures Aside(r.observer, ShutDown(r, clean, aborted).observer)
  {
    if clean && !r.handlerThrew {
      ConcludeAside(r.observer, r, aborted);
    } else {
      FailAside(r.observer, r.observer, CLEAN_SHUTDOWN_FAILED);
      ConcludeAside(r.observer, r.(event := None, uncleanShutdown := true, observer := Fail(r.observer, CLEAN_SHUTDOWN_FAILED)), aborted);
    }
  }

  lemma {:induction false} LaunchAside(r: Run, refusal: Option<FailureCode>, aborted: bool)
    ensures Aside(r.observer, Launch(r, refusal, aborted).observer)
  {
    FailAside(r.observer, r.observer, if refusal.Some? && r.phase.Idle? then refusal.value else ADAPTER_REUSED);
  }

  lemma {:induction false} PhaseAside(r: Run, e: RunEvent, d: Directive)
    requires (r.phase.Starting? ==> r.observer.session.None?) && !e.RNotification? && !e.RCompaction? && !e.RApproval?
    ensures Aside(r.observer, Step(r, e, d).observer)
  {
    match e {
      case RStartFailed(code, aborted, later) =>
        if r.phase.Starting? {
          CaughtAside(r.observer, r, code, aborted);
          ConcludeAside(r.observer, Caught(r, code, aborted), later);
        }
      case RThrown(code, aborted) => CaughtAside(r.observer, r, code, aborted);
      case RThreadReady(threadId, thrown, aborted, prompt) =>
        if r.phase.Starting? { ThreadReadyAside(r, threadId, thrown, aborted, prompt, d); }
      case RCompactionReturned(threadId, aborted, prompt) =>
        if r.phase.Compacting? { CompactedAside(r, threadId, aborted, prompt); }
      case RTurnReady(turnId, thrown, aborted) =>
        if r.phase.AwaitingTurn? { TurnReadyAside(r, turnId, thrown, aborted); }
      case RWaited(wait, ending, aborted) => if r.phase.AwaitingTerminal? { WaitedAside(r, wait, ending, aborted); }
      case RInterrupted(aborted) => if r.phase.Interrupting? { CaughtAside(r.observer, r, r.phase.code, aborted); }
      case RShutDown(clean, aborted) => if r.phase.ShuttingDown? { ShutDownAside(r, clean, aborted); }
      case RLaunch(refusal, aborted) => LaunchAside(r, refusal, aborted);
    }
  }

  lemma {:induction false} PairedMore(seen: seq<CompactionEvent>, c: CompactionEvent)
    requires Paired(seen) && (!c.started ==> c.(started := true) in seen)
    ensures Paired(seen + [c])
  {
    var more := seen + [c];
    assert forall k | 0 <= k <= |seen| :: more[..k] == seen[..k];
    assert seen[..|seen|] == seen;
  }

  lemma {:induction false} StartAccounts(seen: seq<CompactionEvent>, o: Observer, c: CompactionEvent, t: Observer, d: Directive)
    requires Accounted(seen, o, d) && d.manualCompaction && c.started && OfMaintenance(c, t) && c.itemId !in o.maintenanceItems
    requires t.maintenanceItems == o.maintenanceItems[c.itemId := Binding(c.threadId, c.turnId)]
    requires t.compactionCount == o.compactionCount && t.session == o.session && t.maintenanceTurn == o.maintenanceTurn
    ensures Accounted(seen + [c], t, d)
  {
    CountOneMore(seen, c);
    PairedMore(seen, c);
    assert c == CompactionEvent(c.itemId, c.threadId, c.turnId, true, true) && c in seen + [c];
    assert forall x | x in seen :: x in seen + [c];
    assert forall x | x in seen + [c] :: x == c || x in seen;
  }

  lemma {:induction false} CompletionAccounts(seen: seq<CompactionEvent>, o: Observer, c: CompactionEvent, t: Observer, d: Directive)
    requires Accounted(seen, o, d) && d.manualCompaction && !c.started && c.itemId in o.maintenanceItems && c.requestedManual
    requires o.maintenanceItems[c.itemId] == Binding(c.threadId, c.turnId)
    requires t.maintenanceItems == o.maintenanceItems - {c.itemId}
    requires t.compactionCount == o.compactionCount + 1 && t.session == o.session && t.maintenanceTurn == o.maintenanceTurn
    ensures Accounted(seen + [c], t, d)
  {
    var start := c.(started := true);
    CountOneMore(seen, c);
    assert start == CompactionEvent(c.itemId, c.threadId, c.turnId, true, true) && start in seen && OfMaintenance(start, o);
    PairedMore(seen, c);
    assert |o.maintenanceItems| == |t.maintenanceItems| + 1 by {
      assert o.maintenanceItems == t.maintenanceItems[c.itemId := Binding(c.threadId, c.turnId)];
    }
    assert forall x | x in seen :: x in seen + [c];
    assert forall x | x in seen + [c] :: x == c || x in seen;
  }

  lemma {:induction false} CompactionAccounts(seen: seq<CompactionEvent>, o: Observer, c: CompactionEvent, d: Directive)
    requires Accounted(seen, o, d) && RecordCompaction(o, c, d).verdict.failure.None?
    ensures Accounted(seen + [c], RecordCompaction(o, c, d), d)
  {
    var t := RecordCompaction(o, c, d);
    if c.started { StartAccounts(seen, o, c, t, d); } else { CompletionAccounts(seen, o, c, t, d); }
  }

  // An event after which the observer has not failed keeps the accounts.
  lemma {:induction false} AccountsStep(seen: seq<CompactionEvent>, r: Run, e: RunEvent, d: Directive)
    requires Accounted(seen, r.observer, d) && Step(r, e, d).observer.verdict.failure.None?
    requires (r.phase.Starting? ==> r.observer.session.None?) && (HasClient(r.phase) ==> !e.RApproval?)
    ensures Accounted(seen + SeenIn(r, e), Step(r, e, d).observer, d)
  {
    if e.RCompaction? && HasClient(r.phase) {
      CompactionAccounts(seen, r.observer, e.e, d);
    } else {
      assert seen + [] == seen;
      if e.RNotification? {
        if HasClient(r.phase) { NotificationAside(r.observer, e.n, d); }
      } else if !e.RCompaction? && !e.RApproval? {
        PhaseAside(r, e, d);
      }
      AsideAccounts(seen, r.observer, Step(r, e, d).observer, d);
    }
  }

  // Exactly one compaction: its start and then its completion, asked for on this thread and turn.
  ghost predicate OneCompaction(seen: seq<CompactionEvent>, thread: Text, turn: Text) {
    && |seen| == 2 && seen[0].started && seen[1] == seen[0].(started := false)
    && seen[0].requestedManual && seen[0].threadId == thread && seen[0].turnId == turn
  }

  lemma {:induction false} AccountOfOne(seen: seq<CompactionEvent>, o: Observer, d: Directive)
    requires Accounted(seen, o, d) && |o.maintenanceItems| == 0 && o.compactionCount == 1
    ensures o.session.Some? && o.maintenanceTurn.Some? && OneCompaction(seen, o.session.value, o.maintenanceTurn.value)
  {
    StartsAndCompletions(seen);
    assert OfMaintenance(seen[0], o) && seen[0] in seen && seen[1] in seen;
    assert seen[..0] == [] && seen[..1] == [seen[0]];
    CountOneMore([], seen[0]);
    CountOneMore([seen[0]], seen[1]);
    assert [] + [seen[0]] == [seen[0]] && [seen[0]] + [seen[1]] == seen;
  }
}
