// packages/adapter-codex/src/adapter.ts, `InvocationObserver`: what the observer of one Worker run
// remembers and when it fails, as functions from states to states.
module ObserverModel {
  import opened Options
  import opened CodeUnits
  import opened JsonAccess
  import opened JsonValues

  datatype FailureCode =
    | ADAPTER_REUSED | BACKEND_TURN_FAILED | CLEAN_SHUTDOWN_FAILED | CLIENT_FAILURE | COMPACTION_POLICY_VIOLATION
    | DECLINED_APPROVAL_REQUEST | EFFECTIVE_INPUT_MISMATCH | HOST_CANCELLED | INVALID_REQUEST_BINDING
    | INVALID_TERMINAL_PAYLOAD | INVALID_WORKSPACE_LEASE | NO_TERMINAL_PAYLOAD | THREAD_BINDING_MISMATCH
    | TURN_BINDING_MISMATCH | UNSUPPORTED_BACKEND_ACTIVITY | UNSUPPORTED_PHASE

  datatype Status = READY | RUNNING | COMPLETED | FAILED | INTERRUPTED

  datatype Location = AtStart | AtCompletion | AtTerminal

  datatype Disposition = Allowed | CompactionViolation | Unsupported

  // The compaction policy of the profile, and the item evaluation of protocol.ts under the digest
  // of an item policy.
  datatype Directive = Directive(manualCompaction: bool, evaluate: (Json, Location, Text) -> Disposition)

  datatype Binding = Binding(threadId: Text, turnId: Text)

  datatype TerminalTurn = TerminalTurn(threadId: Text, turnId: Text, status: Text, error: Option<Json>, items: seq<Json>)

  // The state and the first failure, except that a cancellation replaces BACKEND_TURN_FAILED.
  datatype Verdict = Verdict(failure: Option<FailureCode>, state: Status)
  {
    function Fail(code: FailureCode): Verdict {
      if failure.Some? then this else Verdict(Some(code), if code == HOST_CANCELLED then INTERRUPTED else FAILED)
    }

    function Cancel(): Verdict {
      if failure.None? || failure == Some(BACKEND_TURN_FAILED) then Verdict(Some(HOST_CANCELLED), INTERRUPTED) else this
    }

    function Unless(fine: bool, code: FailureCode): Verdict { if fine then this else Fail(code) }

    function Validate(session: Option<Text>, operation: Option<Text>, threadRefs: set<Text>, turnRefs: set<Text>): Verdict {
      Unless(session.Some? ==> threadRefs <= {session.value}, THREAD_BINDING_MISMATCH)
        .Unless(operation.Some? ==> turnRefs <= {operation.value}, TURN_BINDING_MISMATCH)
    }
  }

  datatype Observer = Observer(
    verdict: Verdict,
    session: Option<Text>,
    operation: Option<Text>,
    resultEventId: Option<Text>,
    approvalRequestCount: nat,
    compactionCount: nat,
    notificationCount: nat,
    itemPolicy: Option<Text>,
    completedAgentMessages: seq<Json>,
    manualCompactionPending: bool,
    maintenanceTurn: Option<Text>,
    maintenanceTerminalSeen: bool,
    maintenanceItems: map<Text, Binding>,
    authorizedItems: map<Text, Binding>,
    threadRefs: set<Text>,
    turnRefs: set<Text>,
    terminal: Option<TerminalTurn>)

  const FRESH := Observer(Verdict(None, READY), None, None, None, 0, 0, 0, None, [], false, None, false, map[], map[], {}, {}, None)

  // ---- Failing ----

  function Fail(s: Observer, code: FailureCode): Observer { s.(verdict := s.verdict.Fail(code)) }

  function Cancel(s: Observer): Observer { s.(verdict := s.verdict.Cancel()) }

  function ValidateRefs(s: Observer): Observer {
    s.(verdict := s.verdict.Validate(s.session, s.operation, s.threadRefs, s.turnRefs))
  }

  // ---- What the run does ----

  function BindItemPolicy(s: Observer, policy: Text): Observer {
    if s.itemPolicy.Some? && s.itemPolicy.value != policy then Fail(s, EFFECTIVE_INPUT_MISMATCH)
    else s.(itemPolicy := Some(policy))
  }

  function MarkRunning(s: Observer): Observer { s.(verdict := s.verdict.(state := RUNNING)) }

  function BindThread(s: Observer, threadId: Text): Observer { ValidateRefs(s.(session := Some(threadId))) }

  function BindTurn(s: Observer, turnId: Text): Observer {
    if s.maintenanceTurn == Some(turnId) then Fail(s, TURN_BINDING_MISMATCH)
    else ValidateRefs(s.(operation := Some(turnId)))
  }

  function BeginManualCompaction(s: Observer, d: Directive): Observer {
    if !d.manualCompaction || s.manualCompactionPending || s.compactionCount != 0 then Fail(s, COMPACTION_POLICY_VIOLATION)
    else s.(manualCompactionPending := true)
  }

  function FinishManualCompaction(s: Observer): Observer {
    if !s.manualCompactionPending || s.compactionCount != 1 || |s.maintenanceItems| != 0 || s.maintenanceTurn.None? ||
       !s.maintenanceTerminalSeen
    then Fail(s, COMPACTION_POLICY_VIOLATION)
    else s.(manualCompactionPending := false)
  }

  function Complete(s: Observer, eventId: Text): Observer {
    s.(resultEventId := Some(eventId), verdict := if s.verdict.failure.None? then s.verdict.(state := COMPLETED) else s.verdict)
  }

  // ---- What the client reports ----

  function RecordApproval(s: Observer, threadId: Text, turnId: Text): Observer {
    var t := s.(approvalRequestCount := s.approvalRequestCount + 1, threadRefs := s.threadRefs + {threadId},
                turnRefs := s.turnRefs + {turnId});
    Fail(ValidateRefs(t), DECLINED_APPROVAL_REQUEST)
  }

  datatype CompactionEvent =
    CompactionEvent(itemId: Text, threadId: Text, turnId: Text, requestedManual: bool, started: bool)

  function RecordCompaction(s: Observer, e: CompactionEvent, d: Directive): Observer {
    var t := s.(threadRefs := s.threadRefs + {e.threadId});
    var binding := Binding(e.threadId, e.turnId);
    if !d.manualCompaction
    then Fail(ValidateRefs(t.(compactionCount := s.compactionCount + 1)), COMPACTION_POLICY_VIOLATION)
    else if !e.requestedManual || s.session != Some(e.threadId) then Fail(t, COMPACTION_POLICY_VIOLATION)
    else if e.started then
      if !s.manualCompactionPending || s.maintenanceTurn != Some(e.turnId) || s.compactionCount != 0 ||
         e.itemId in s.maintenanceItems
      then Fail(t, COMPACTION_POLICY_VIOLATION)
      else t.(maintenanceItems := s.maintenanceItems[e.itemId := binding],
              authorizedItems := s.authorizedItems[e.itemId := binding])
    else if e.itemId !in s.maintenanceItems || s.maintenanceItems[e.itemId] != binding
    then Fail(t, COMPACTION_POLICY_VIOLATION)
    else t.(maintenanceItems := s.maintenanceItems - {e.itemId}, compactionCount := s.compactionCount + 1)
  }

  // ---- Notifications ----

  datatype Notification = Notification(name: string, params: Json)
  {
    function ThreadId(): Option<Text> { StringOf(Property(params, "threadId")) }

    function TurnId(): Option<Text> { StringOf(Property(params, "turnId")) }

    function NewThread(): Option<Text> { StringOf(PropertyOf(Property(params, "thread"), "id")) }

    function NewTurn(): Option<Text> { StringOf(PropertyOf(Property(params, "turn"), "id")) }
  }

  const FORBIDDEN_PREFIXES := ["account/login/", "app/", "externalAgentConfig/", "fuzzyFileSearch/", "hook/", "mcpServer/",
    "skills/", "thread/environment/", "thread/realtime/"]

  const FORBIDDEN_METHODS := {"configWarning", "error", "fs/changed", "guardianWarning", "item/autoApprovalReview/completed",
    "item/autoApprovalReview/started", "item/mcpToolCall/progress", "model/rerouted", "thread/settings/updated",
    "windows/worldWritableWarning", "windowsSandbox/setupCompleted"}

  predicate IsDisabledRemoteControlStatus(n: Notification) {
    && n.name == "remoteControl/status/changed"
    && Property(n.params, "status") == Some(Str(Ascii("disabled"))) && Property(n.params, "environmentId") == Some(Null)
    && StringOf(Property(n.params, "serverName")).Some? && StringOf(Property(n.params, "installationId")).Some?
  }

  predicate Forbidden(n: Notification) {
    || n.name in FORBIDDEN_METHODS
    || (exists p | p in FORBIDDEN_PREFIXES :: p <= n.name)
    || ("remoteControl/" <= n.name && !IsDisabledRemoteControlStatus(n))
  }

  // The terminal turn of a notification: absent, or an exception, or a value.
  datatype Projection = NoTurn | Throws | Projected(turn: TerminalTurn)

  function ProjectTerminalTurn(n: Notification): Projection {
    if n.name != "turn/completed" then NoTurn else
    var turn := Property(n.params, "turn");
    if !IsObject(turn) then Throws else
    var items, view := Property(turn.value, "items"), Property(turn.value, "itemsView");
    var status := BoundedString(Property(turn.value, "status"), 16384);
    var threadId, turnId := BoundedString(Property(n.params, "threadId"), 1024), BoundedString(Property(turn.value, "id"), 1024);
    if items.None? || !items.value.Arr? || (view.Some? && BoundedString(view, 16384).None?) || status.None? ||
       threadId.None? || turnId.None?
    then Throws
    else Projected(TerminalTurn(threadId.value, turnId.value, status.value, Property(turn.value, "error"), items.value.items))
  }

  function RecordItem(s: Observer, item: Json, location: Location, d: Directive): Observer {
    if s.itemPolicy.None? then Fail(s, UNSUPPORTED_BACKEND_ACTIVITY) else
    match d.evaluate(item, location, s.itemPolicy.value)
    case CompactionViolation => Fail(s, COMPACTION_POLICY_VIOLATION)
    case Unsupported => Fail(s, UNSUPPORTED_BACKEND_ACTIVITY)
    case Allowed =>
      if !location.AtCompletion? || Property(item, "type") != Some(Str(Ascii("agentMessage"))) then s
      else if |s.completedAgentMessages| >= 256 then Fail(s, INVALID_TERMINAL_PAYLOAD)
      else s.(completedAgentMessages := s.completedAgentMessages + [item])
  }

  function RecordItems(s: Observer, items: seq<Json>, d: Directive): Observer
    decreases |items|
  {
    if items == [] then s else
    var t := if items[0].Obj? then RecordItem(s, items[0], AtTerminal, d) else Fail(s, UNSUPPORTED_BACKEND_ACTIVITY);
    RecordItems(t, items[1..], d)
  }

  function SawThread(s: Observer, id: Option<Text>): Observer {
    if id.Some? then s.(threadRefs := s.threadRefs + {id.value}) else s
  }

  function SawTurn(s: Observer, id: Option<Text>): Observer {
    if id.Some? && id != s.maintenanceTurn then s.(turnRefs := s.turnRefs + {id.value}) else s
  }

  function ThreadStarted(s: Observer, id: Option<Text>): Observer {
    if id.Some? then SawThread(s, id) else Fail(s, THREAD_BINDING_MISMATCH)
  }

  // While a manual compaction is pending, the started turn becomes the maintenance turn.
  function TurnStarted(s: Observer, id: Option<Text>): Observer {
    if id.None? then Fail(s, TURN_BINDING_MISMATCH) else
    SawTurn(
      if !s.manualCompactionPending then s
      else if s.maintenanceTurn.Some? && s.maintenanceTurn != id then Fail(s, COMPACTION_POLICY_VIOLATION)
      else s.(maintenanceTurn := id),
      id)
  }

  predicate Authorized(s: Observer, item: Json, threadId: Option<Text>, turnId: Option<Text>) {
    var id := StringOf(Property(item, "id"));
    id.Some? && id.value in s.authorizedItems && Some(s.authorizedItems[id.value].threadId) == threadId &&
    Some(s.authorizedItems[id.value].turnId) == turnId
  }

  predicate IsContextCompaction(item: Json) { Property(item, "type") == Some(Str(Ascii("contextCompaction"))) }

  function ItemNotified(s: Observer, n: Notification, d: Directive): Observer {
    var item := Property(n.params, "item");
    if n.name != "item/started" && n.name != "item/completed" then s
    else if !IsObject(item) then Fail(s, UNSUPPORTED_BACKEND_ACTIVITY)
    else if IsContextCompaction(item.value) then
      if Authorized(s, item.value, n.ThreadId(), n.TurnId()) && n.TurnId() == s.maintenanceTurn then s
      else Fail(s, COMPACTION_POLICY_VIOLATION)
    else if s.manualCompactionPending then Fail(s, COMPACTION_POLICY_VIOLATION)
    else RecordItem(s, item.value, if n.name == "item/started" then AtStart else AtCompletion, d)
  }

  predicate MaintenanceEnds(s: Observer, t: TerminalTurn) {
    && s.manualCompactionPending && !s.maintenanceTerminalSeen && t.status == Ascii("completed") && t.error == Some(Null)
    && |t.items| == 1 && t.items[0].Obj? && IsContextCompaction(t.items[0])
    && Authorized(s, t.items[0], Some(t.threadId), Some(t.turnId))
  }

  function TurnTerminated(s: Observer, t: TerminalTurn, d: Directive): Observer {
    if s.maintenanceTurn == Some(t.turnId) then
      if MaintenanceEnds(s, t) then s.(maintenanceTerminalSeen := true) else Fail(s, COMPACTION_POLICY_VIOLATION)
    else if s.manualCompactionPending then Fail(s, COMPACTION_POLICY_VIOLATION)
    else
      var u := RecordItems(s, t.items, d);
      var v := u.(threadRefs := u.threadRefs + {t.threadId}, turnRefs := u.turnRefs + {t.turnId});
      if v.terminal.Some? then Fail(v, TURN_BINDING_MISMATCH) else v.(terminal := Some(t))
  }

  function ThreadsSeen(s: Observer, n: Notification): Observer {
    var t := SawThread(if Forbidden(n) then Fail(s, UNSUPPORTED_BACKEND_ACTIVITY) else s, n.ThreadId());
    if n.name == "thread/started" then ThreadStarted(t, n.NewThread()) else t
  }

  function TurnsSeen(s: Observer, n: Notification): Observer {
    SawTurn(if n.name == "turn/started" then TurnStarted(s, n.NewTurn()) else s, n.TurnId())
  }

  // Up to the projection of the terminal turn, which may throw.
  function NotificationSeen(s: Observer, n: Notification, d: Directive): Observer {
    ItemNotified(TurnsSeen(ThreadsSeen(s, n), n), n, d)
  }

  // The rest of the handler: the new state, and whether it threw.
  function NotificationEnded(s: Observer, n: Notification, d: Directive): (Observer, bool) {
    match ProjectTerminalTurn(n)
    case Throws => (s, true)
    case NoTurn => (ValidateRefs(s), false)
    case Projected(turn) => (ValidateRefs(TurnTerminated(s, turn, d)), false)
  }

  function RecordNotification(s: Observer, n: Notification, d: Directive): (Observer, bool) {
    var t := s.(notificationCount := s.notificationCount + 1);
    if t.notificationCount > 10000 then (Fail(t, UNSUPPORTED_BACKEND_ACTIVITY), false)
    else NotificationEnded(NotificationSeen(t, n, d), n, d)
  }
}
