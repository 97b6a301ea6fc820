// The observer object of adapter.ts: its methods do, field by field, what ObserverModel says.
module InvocationObservers {
  import opened Options
  import opened CodeUnits
  import opened JsonAccess
  import opened JsonValues
  import M = ObserverModel
  import opened ObserverModel

  class InvocationObserver {
    const directive: Directive
    var state: Status
    var failureCode: Option<FailureCode>
    var backendSessionRef: Option<Text>
    var backendOperationRef: Option<Text>
    var resultEventId: Option<Text>
    var approvalRequestCount: nat
    var compactionCount: nat
    var notificationCount: nat
    var itemPolicy: Option<Text>
    var completedAgentMessages: seq<Json>
    var manualCompactionPending: bool
    var maintenanceTurnRef: Option<Text>
    var maintenanceTerminalSeen: bool
    var maintenanceCompactionItems: map<Text, Binding>
    var authorizedMaintenanceCompactionItems: map<Text, Binding>
    var observedThreadRefs: set<Text>
    var observedTurnRefs: set<Text>
    // The value of the terminal promise.
    var terminal: Option<TerminalTurn>
    // The fields as one value.
    ghost var view: Observer

    ghost predicate Valid()
      reads this
    {
      view == Observer(Verdict(failureCode, state), backendSessionRef, backendOperationRef, resultEventId,
        approvalRequestCount, compactionCount, notificationCount, itemPolicy, completedAgentMessages, manualCompactionPending,
        maintenanceTurnRef, maintenanceTerminalSeen, maintenanceCompactionItems, authorizedMaintenanceCompactionItems,
        observedThreadRefs, observedTurnRefs, terminal)
    }

    constructor (directive: Directive)
      ensures this.directive == directive && Valid() && view == FRESH
    {
      this.directive := directive;
      state, failureCode, backendSessionRef, backendOperationRef, resultEventId := READY, None, None, None, None;
      approvalRequestCount, compactionCount, notificationCount, itemPolicy, completedAgentMessages := 0, 0, 0, None, [];
      manualCompactionPending, maintenanceTurnRef, maintenanceTerminalSeen := false, None, false;
      maintenanceCompactionItems, authorizedMaintenanceCompactionItems := map[], map[];
      observedThreadRefs, observedTurnRefs, terminal, view := {}, {}, None, FRESH;
    }

    method Fail(code: FailureCode)
      requires Valid()
      modifies `failureCode, `state, `view
      ensures Valid() && view == M.Fail(old(view), code)
    {
      if failureCode.None? {
        failureCode := Some(code);
        state := if code == HOST_CANCELLED then INTERRUPTED else FAILED;
      }
      view := M.Fail(view, code);
    }

    method Cancel()
      requires Valid()
      modifies `failureCode, `state, `view
      ensures Valid() && view == M.Cancel(old(view))
    {
      if failureCode.None? || failureCode == Some(BACKEND_TURN_FAILED) {
        failureCode, state := Some(HOST_CANCELLED), INTERRUPTED;
      }
      view := M.Cancel(view);
    }

    method ValidateRefs()
      requires Valid()
      modifies `failureCode, `state, `view
      ensures Valid() && view == M.ValidateRefs(old(view))
    {
      if backendSessionRef.Some? {
        var strange := HasOtherThan(observedThreadRefs, backendSessionRef.value);
        if strange { Fail(THREAD_BINDING_MISMATCH); }
      }
      if backendOperationRef.Some? {
        var strange := HasOtherThan(observedTurnRefs, backendOperationRef.value);
        if strange { Fail(TURN_BINDING_MISMATCH); }
      }
    }

    method ObserveThread(threadId: Text)
      requires Valid()
      modifies `observedThreadRefs, `view
      ensures Valid() && view == old(view).(threadRefs := old(view).threadRefs + {threadId})
    {
      observedThreadRefs := observedThreadRefs + {threadId};
      view := view.(threadRefs := observedThreadRefs);
    }

    method ObserveTurn(turnId: Text)
      requires Valid()
      modifies `observedTurnRefs, `view
      ensures Valid() && view == old(view).(turnRefs := old(view).turnRefs + {turnId})
    {
      observedTurnRefs := observedTurnRefs + {turnId};
      view := view.(turnRefs := observedTurnRefs);
    }

    // ---- What the run does ----

    method BindItemPolicy(policy: Text)
      requires Valid()
      modifies `failureCode, `state, `itemPolicy, `view
      ensures Valid() && view == M.BindItemPolicy(old(view), policy)
    {
      if itemPolicy.Some? && itemPolicy.value != policy {
        Fail(EFFECTIVE_INPUT_MISMATCH);
        return;
      }
      itemPolicy := Some(policy);
      view := view.(itemPolicy := itemPolicy);
    }

    method MarkRunning()
      requires Valid()
      modifies `state, `view
      ensures Valid() && view == M.MarkRunning(old(view))
    {
      state := RUNNING;
      view := M.MarkRunning(view);
    }

    method BindThread(threadId: Text)
      requires Valid()
      modifies `failureCode, `state, `backendSessionRef, `view
      ensures Valid() && view == M.BindThread(old(view), threadId)
    {
      backendSessionRef := Some(threadId);
      view := view.(session := backendSessionRef);
      ValidateRefs();
    }

    method BindTurn(turnId: Text)
      requires Valid()
      modifies `failureCode, `state, `backendOperationRef, `view
      ensures Valid() && view == M.BindTurn(old(view), turnId)
    {
      if maintenanceTurnRef == Some(turnId) {
        Fail(TURN_BINDING_MISMATCH);
        return;
      }
      backendOperationRef := Some(turnId);
      view := view.(operation := backendOperationRef);
      ValidateRefs();
    }

    method BeginManualCompaction()
      requires Valid()
      modifies `failureCode, `state, `manualCompactionPending, `view
      ensures Valid() && view == M.BeginManualCompaction(old(view), directive)
    {
      if !directive.manualCompaction || manualCompactionPending || compactionCount != 0 {
        Fail(COMPACTION_POLICY_VIOLATION);
        return;
      }
      manualCompactionPending := true;
      view := view.(manualCompactionPending := true);
    }

    method FinishManualCompaction()
      requires Valid()
      modifies `failureCode, `state, `manualCompactionPending, `view
      ensures Valid() && view == M.FinishManualCompaction(old(view))
    {
      if !manualCompactionPending || compactionCount != 1 || |maintenanceCompactionItems| != 0 ||
         maintenanceTurnRef.None? || !maintenanceTerminalSeen {
        Fail(COMPACTION_POLICY_VIOLATION);
        return;
      }
      manualCompactionPending := false;
      view := view.(manualCompactionPending := false);
    }

    method Complete(eventId: Text)
      requires Valid()
      modifies `resultEventId, `state, `view
      ensures Valid() && view == M.Complete(old(view), eventId)
    {
      resultEventId := Some(eventId);
      if failureCode.None? { state := COMPLETED; }
      view := M.Complete(view, eventId);
    }

    // ---- What the client reports ----

    method RecordApproval(threadId: Text, turnId: Text)
      requires Valid()
      modifies this
      ensures Valid() && view == M.RecordApproval(old(view), threadId, turnId)
    {
      approvalRequestCount := approvalRequestCount + 1;
      view := view.(approvalRequestCount := approvalRequestCount);
      ObserveThread(threadId);
      ObserveTurn(turnId);
      ValidateRefs();
      Fail(DECLINED_APPROVAL_REQUEST);
    }

    method CountCompaction()
      requires Valid()
      modifies `compactionCount, `view
      ensures Valid() && view == old(view).(compactionCount := old(view).compactionCount + 1)
    {
      compactionCount := compactionCount + 1;
      view := view.(compactionCount := compactionCount);
    }

    method RecordCompaction(e: CompactionEvent)
      requires Valid()
      modifies this
      ensures Valid() && view == M.RecordCompaction(old(view), e, directive)
    {
      ObserveThread(e.threadId);
      if !directive.manualCompaction {
        CountCompaction();
        ValidateRefs();
        Fail(COMPACTION_POLICY_VIOLATION);
        return;
      }
      if !e.requestedManual || backendSessionRef.None? || e.threadId != backendSessionRef.value {
        Fail(COMPACTION_POLICY_VIOLATION);
        return;
      }
      var binding := Binding(e.threadId, e.turnId);
      if e.started {
        if !manualCompactionPending || maintenanceTurnRef != Some(e.turnId) || compactionCount != 0 ||
           e.itemId in maintenanceCompactionItems {
          Fail(COMPACTION_POLICY_VIOLATION);
          return;
        }
        StartMaintenanceItem(e.itemId, binding);
        return;
      }
      if e.itemId !in maintenanceCompactionItems || maintenanceCompactionItems[e.itemId] != binding {
        Fail(COMPACTION_POLICY_VIOLATION);
        return;
      }
      EndMaintenanceItem(e.itemId);
    }

    method StartMaintenanceItem(itemId: Text, binding: Binding)
      requires Valid()
      modifies `maintenanceCompactionItems, `authorizedMaintenanceCompactionItems, `view
      ensures Valid() && view == old(view).(maintenanceItems := old(view).maintenanceItems[itemId := binding],
        authorizedItems := old(view).authorizedItems[itemId := binding])
    {
      maintenanceCompactionItems := maintenanceCompactionItems[itemId := binding];
      authorizedMaintenanceCompactionItems := authorizedMaintenanceCompactionItems[itemId := binding];
      view := view.(maintenanceItems := maintenanceCompactionItems, authorizedItems := authorizedMaintenanceCompactionItems);
    }

    method EndMaintenanceItem(itemId: Text)
      requires Valid()
      modifies `maintenanceCompactionItems, `compactionCount, `view
      ensures Valid() && view == old(view).(maintenanceItems := old(view).maintenanceItems - {itemId},
        compactionCount := old(view).compactionCount + 1)
    {
      maintenanceCompactionItems := maintenanceCompactionItems - {itemId};
      compactionCount := compactionCount + 1;
      view := view.(maintenanceItems := maintenanceCompactionItems, compactionCount := compactionCount);
    }

    // ---- Notifications ----

    method RecordItem(item: Json, location: Location)
      requires Valid()
      modifies `failureCode, `state, `completedAgentMessages, `view
      ensures Valid() && view == M.RecordItem(old(view), item, location, directive)
    {
      if itemPolicy.None? {
        Fail(UNSUPPORTED_BACKEND_ACTIVITY);
        return;
      }
      var disposition := directive.evaluate(item, location, itemPolicy.value);
      if disposition == CompactionViolation {
        Fail(COMPACTION_POLICY_VIOLATION);
      } else if disposition == Unsupported {
        Fail(UNSUPPORTED_BACKEND_ACTIVITY);
      }
      if disposition == Allowed && location == AtCompletion && Property(item, "type") == Some(Str(Ascii("agentMessage"))) {
        if |completedAgentMessages| >= 256 {
          Fail(INVALID_TERMINAL_PAYLOAD);
          return;
        }
        completedAgentMessages := completedAgentMessages + [item];
        view := view.(completedAgentMessages := completedAgentMessages);
      }
    }

    method RecordTerminalItems(items: seq<Json>)
      requires Valid()
      modifies `failureCode, `state, `completedAgentMessages, `view
      ensures Valid() && view == RecordItems(old(view), items, directive)
    {
      var i := 0;
      while i < |items|
        invariant Valid() && i <= |items|
        invariant RecordItems(view, items[i..], directive) == RecordItems(old(view), items, directive)
      {
        if !items[i].Obj? {
          Fail(UNSUPPORTED_BACKEND_ACTIVITY);
        } else {
          RecordItem(items[i], AtTerminal);
        }
        i := i + 1;
        assert items[i - 1..][1..] == items[i..];
      }
    }

    method RecordNotification(n: Notification) returns (threw: bool)
      requires Valid()
      modifies this
      ensures Valid() && (view, threw) == M.RecordNotification(old(view), n, directive)
    {
      notificationCount := notificationCount + 1;
      view := view.(notificationCount := notificationCount);
      if notificationCount > 10000 {
        Fail(UNSUPPORTED_BACKEND_ACTIVITY);
        return false;
      }
      See(n);
      var terminal := ProjectTerminalTurn(n);
      if terminal.Throws? { return true; }
      if terminal.Projected? { RecordTerminal(terminal.turn); }
      ValidateRefs();
      return false;
    }

    method See(n: Notification)
      requires Valid()
      modifies this
      ensures Valid() && view == NotificationSeen(old(view), n, directive) && notificationCount == old(notificationCount)
    {
      SeeThreads(n);
      SeeTurns(n);
      if n.name == "item/started" || n.name == "item/completed" { SeeItem(n); }
    }

    method SeeThreads(n: Notification)
      requires Valid()
      modifies `failureCode, `state, `observedThreadRefs, `view
      ensures Valid() && view == ThreadsSeen(old(view), n)
    {
      if Forbidden(n) { Fail(UNSUPPORTED_BACKEND_ACTIVITY); }
      var threadId := n.ThreadId();
      if threadId.Some? { ObserveThread(threadId.value); }
      if n.name == "thread/started" {
        var id := n.NewThread();
        if id.Some? {
          ObserveThread(id.value);
        } else {
          Fail(THREAD_BINDING_MISMATCH);
        }
      }
    }

    method SeeTurns(n: Notification)
      requires Valid()
      modifies `failureCode, `state, `observedTurnRefs, `maintenanceTurnRef, `view
      ensures Valid() && view == TurnsSeen(old(view), n)
    {
      if n.name == "turn/started" {
        var id := n.NewTurn();
        if id.None? {
          Fail(TURN_BINDING_MISMATCH);
        } else {
          if manualCompactionPending {
            if maintenanceTurnRef.Some? && maintenanceTurnRef != id {
              Fail(COMPACTION_POLICY_VIOLATION);
            } else {
              maintenanceTurnRef := id;
              view := view.(maintenanceTurn := id);
            }
          }
          if maintenanceTurnRef != id { ObserveTurn(id.value); }
        }
      }
      var turnId := n.TurnId();
      var maintenanceTurn := turnId.Some? && turnId == maintenanceTurnRef;
      if turnId.Some? && !maintenanceTurn { ObserveTurn(turnId.value); }
    }

    method SeeItem(n: Notification)
      requires Valid() && (n.name == "item/started" || n.name == "item/completed")
      modifies `failureCode, `state, `completedAgentMessages, `view
      ensures Valid() && view == ItemNotified(old(view), n, directive)
    {
      var item := Property(n.params, "item");
      if !IsObject(item) {
        Fail(UNSUPPORTED_BACKEND_ACTIVITY);
      } else if IsContextCompaction(item.value) {
        var authorized := IsAuthorized(item.value, n.ThreadId(), n.TurnId());
        if !authorized || n.TurnId() != maintenanceTurnRef { Fail(COMPACTION_POLICY_VIOLATION); }
      } else if manualCompactionPending {
        Fail(COMPACTION_POLICY_VIOLATION);
      } else {
        RecordItem(item.value, if n.name == "item/started" then AtStart else AtCompletion);
      }
    }

    method IsAuthorized(item: Json, threadId: Option<Text>, turnId: Option<Text>) returns (authorized: bool)
      requires Valid()
      ensures authorized == Authorized(view, item, threadId, turnId)
    {
      var id := StringOf(Property(item, "id"));
      if id.None? || id.value !in authorizedMaintenanceCompactionItems { return false; }
      var binding := authorizedMaintenanceCompactionItems[id.value];
      return Some(binding.threadId) == threadId && Some(binding.turnId) == turnId;
    }

    method RecordTerminal(turn: TerminalTurn)
      requires Valid()
      modifies this
      ensures Valid() && view == TurnTerminated(old(view), turn, directive)
    {
      if maintenanceTurnRef == Some(turn.turnId) {
        var ends := EndsMaintenance(turn);
        if !ends {
          Fail(COMPACTION_POLICY_VIOLATION);
        } else {
          maintenanceTerminalSeen := true;
          view := view.(maintenanceTerminalSeen := true);
        }
      } else if manualCompactionPending {
        Fail(COMPACTION_POLICY_VIOLATION);
      } else {
        RecordTerminalItems(turn.items);
        ObserveThread(turn.threadId);
        ObserveTurn(turn.turnId);
        if terminal.Some? {
          Fail(TURN_BINDING_MISMATCH);
        } else {
          terminal := Some(turn);
          view := view.(terminal := terminal);
        }
      }
    }

    method EndsMaintenance(turn: TerminalTurn) returns (ends: bool)
      requires Valid()
      ensures ends == MaintenanceEnds(view, turn)
    {
      if !manualCompactionPending || maintenanceTerminalSeen || turn.status != Ascii("completed") ||
         turn.error != Some(Null) || |turn.items| != 1 || !turn.items[0].Obj? || !IsContextCompaction(turn.items[0]) {
        return false;
      }
      ends := IsAuthorized(turn.items[0], Some(turn.threadId), Some(turn.turnId));
    }
  }

  method HasOtherThan(refs: set<Text>, bound: Text) returns (strange: bool)
    ensures strange == !(refs <= {bound})
  {
    var todo := refs;
    while todo != {}
      invariant todo <= refs && refs - todo <= {bound}
      decreases todo
    {
      var reference :| reference in todo;
      if reference != bound { return true; }
      todo := todo - {reference};
    }
    return false;
  }
}
