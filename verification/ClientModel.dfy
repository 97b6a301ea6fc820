// packages/codex-app-server-client/src/client.ts: requests, server messages, manual compactions,
// failure, shutdown and exit of one App Server connection, as a function from events to states.
// Timers, aborts, stream errors and the process are events that may happen at any time.
module ClientModel {
  import opened Options
  import opened CodeUnits
  import opened JsonAccess
  import opened JsonValues
  import opened SafeIntegers

  datatype ErrorCode =
    | HOST_CANCELLED | HOST_HANDLER_FAILED | INITIALIZATION_FAILED | MALFORMED_RESPONSE | PROCESS_EXITED
    | PROTOCOL_CORRELATION | PROTOCOL_LIMIT | PROTOCOL_MALFORMED | REQUEST_REJECTED | REQUEST_TIMEOUT
    | SERVER_REQUEST_FAILED | SHUTDOWN | SHUTDOWN_TIMEOUT | SPAWN_FAILED | STREAM_FAILED
    | UNSUPPORTED_METHOD | UNSUPPORTED_SERVER_REQUEST

  // The limits that matter here, and the generated method names of the protocol.
  datatype Config = Config(
    maximumPendingRequests: nat,
    maximumServerRequests: nat,
    maximumObservedCompactions: nat,
    maximumPendingManualCompactions: nat,
    notificationMethods: set<Text>,
    stableMethods: set<Text>)
  {
    ghost predicate Valid() {
      1 <= maximumPendingRequests && 1 <= maximumServerRequests && 1 <= maximumObservedCompactions &&
      1 <= maximumPendingManualCompactions
    }
  }

  // ---- Messages ----

  datatype RequestKey = NumberKey(n: int) | StringKey(s: Text)

  function KeyOf(id: Option<Json>): Option<RequestKey> {
    if id.Some? && id.value.Str? && 0 < |id.value.s| <= 256 then Some(StringKey(id.value.s))
    else if IsSafeInteger(id) then Some(NumberKey(id.value.n.x.Floor))
    else None
  }

  // What a notification means for compactions.
  datatype Observation =
    | Irrelevant
    | Malformed
    | TurnCompleted(threadId: Text, turnId: Text)
    | ItemStarted(item: Compaction)
    | ItemCompleted(item: Compaction)

  datatype Compaction = Compaction(itemId: Text, threadId: Text, turnId: Text)

  function Observe(message: Json): Observation {
    var name := Property(message, "method");
    var params := Property(message, "params");
    var threadId := SafeString(PropertyOf(params, "threadId"), 256);
    if name == Some(Str(Ascii("turn/completed"))) then
      var turnId := SafeString(PropertyOf(PropertyOf(params, "turn"), "id"), 256);
      if threadId.None? || turnId.None? then Irrelevant else TurnCompleted(threadId.value, turnId.value)
    else if name != Some(Str(Ascii("item/started"))) && name != Some(Str(Ascii("item/completed"))) then Irrelevant
    else
      var item := PropertyOf(params, "item");
      if PropertyOf(item, "type") != Some(Str(Ascii("contextCompaction"))) then Irrelevant else
      var itemId, turnId := SafeString(PropertyOf(item, "id"), 256), SafeString(PropertyOf(params, "turnId"), 256);
      if itemId.None? || threadId.None? || turnId.None? then Malformed else
      var compaction := Compaction(itemId.value, threadId.value, turnId.value);
      if name == Some(Str(Ascii("item/started"))) then ItemStarted(compaction) else ItemCompleted(compaction)
  }

  // ---- State ----

  datatype Outcome = Resolved | Rejected(code: ErrorCode)

  // The pending requests, by the key of their id, with their methods; how many promises were settled,
  // and how each of them was.
  datatype Requests = Requests(
    next: nat,
    pending: map<RequestKey, Text>,
    settled: nat,
    outcome: map<RequestKey, Outcome>)

  datatype Tracker = Tracker(
    token: nat,
    threadId: Text,
    itemId: Option<Text>,
    turnId: Option<Text>,
    completedItem: Option<Compaction>,
    turnCompleted: bool)

  // A manual tracker leaves the table resolved, rejected with the client, or dropped because its
  // request did not succeed.
  datatype Ending = CompactionResolved(result: Compaction) | CompactionRejected | CompactionDropped

  datatype RequestResult = Refused(code: ErrorCode) | Issued(key: RequestKey)

  datatype Observed = Observed(compaction: Compaction, requestedManual: bool)

  datatype Call = Call(threadId: Text, request: RequestResult)

  datatype Compactions = Compactions(
    manual: map<Text, Tracker>,
    observed: map<Text, Observed>,
    next: nat,
    calls: map<nat, Call>,
    endings: nat,
    ended: map<nat, Ending>)

  datatype Initialization = NotStarted | AwaitingSpawn | AwaitingResponse(key: RequestKey) | SendingInitialized | Finished

  datatype State = State(
    closed: bool,
    failure: Option<ErrorCode>,
    handshakeCompleted: bool,
    initialization: Initialization,
    ready: bool,
    requestedShutdown: bool,
    sequence: nat,
    seenServerRequestIds: set<RequestKey>,
    requests: Requests,
    compactions: Compactions)
  {
    predicate Open() { failure.None? && !closed }
  }

  const START := State(false, None, false, NotStarted, false, false, 0, {},
    Requests(1, map[], 0, map[]), Compactions(map[], map[], 0, map[], 0, map[]))

  // ---- Failure and exit ----

  // The map after each of the keys was set to the value, one after the other.
  ghost function SetEach<K, V>(m: map<K, V>, keys: set<K>, value: V): map<K, V>
    decreases |keys|
  {
    if keys == {} then m else
    var key :| key in keys;
    SetEach(m[key := value], keys - {key}, value)
  }

  lemma {:induction false} SetEachIs<K, V>(m: map<K, V>, keys: set<K>, value: V)
    ensures SetEach(m, keys, value).Keys == m.Keys + keys
    ensures forall key | key in m.Keys + keys :: SetEach(m, keys, value)[key] == if key in keys then value else m[key]
    decreases |keys|
  {
    if keys != {} {
      var key :| key in keys && SetEach(m, keys, value) == SetEach(m[key := value], keys - {key}, value);
      SetEachIs(m[key := value], keys - {key}, value);
    }
  }

  ghost function RejectPending(r: Requests, code: ErrorCode): Requests {
    r.(pending := map[], settled := r.settled + |r.pending|,
       outcome := SetEach(r.outcome, r.pending.Keys, Rejected(code)))
  }

  ghost function Tokens(manual: map<Text, Tracker>): set<nat> {
    set threadId | threadId in manual :: manual[threadId].token
  }

  ghost function RejectCompactions(c: Compactions): Compactions {
    c.(manual := map[], observed := map[], endings := c.endings + |c.manual|,
       ended := SetEach(c.ended, Tokens(c.manual), CompactionRejected))
  }

  ghost function RejectAll(s: State, code: ErrorCode): State {
    s.(requests := RejectPending(s.requests, code), compactions := RejectCompactions(s.compactions))
  }

  ghost function Fail(s: State, code: ErrorCode): State {
    if !s.Open() then s else RejectAll(s.(failure := Some(code), ready := false), code)
  }

  ghost function Exit(s: State): State {
    if s.closed then s else
    var t := s.(closed := true, ready := false);
    if s.requestedShutdown || s.failure.Some? then t else RejectAll(t.(failure := Some(PROCESS_EXITED)), PROCESS_EXITED)
  }

  ghost function Shutdown(s: State): State {
    if s.closed then s else RejectAll(s.(requestedShutdown := true, ready := false), SHUTDOWN)
  }

  ghost function ShutdownTimedOut(s: State): State {
    if s.requestedShutdown && s.Open() then s.(failure := Some(SHUTDOWN_TIMEOUT)) else s
  }

  // ---- Requests ----

  ghost function RequestInternal(s: State, name: Text, timeoutValid: bool, initialization: bool, config: Config):
    (State, RequestResult)
  {
    if (!initialization && !s.ready) || !s.Open() then (s, Refused(if s.failure.Some? then s.failure.value else SHUTDOWN))
    else if !timeoutValid then (s, Refused(PROTOCOL_LIMIT))
    else if |s.requests.pending| >= config.maximumPendingRequests then (s, Refused(PROTOCOL_LIMIT))
    else
      var id := s.requests.next;
      var key := NumberKey(id);
      (s.(requests := s.requests.(next := id + 1, pending := s.requests.pending[key := name])), Issued(key))
  }

  ghost function Request(s: State, name: Text, aborted: bool, timeoutValid: bool, config: Config): (State, RequestResult) {
    if !s.ready || s.requestedShutdown || s.closed then (s, Refused(SHUTDOWN))
    else if name !in config.stableMethods then (s, Refused(UNSUPPORTED_METHOD))
    else if aborted then (s, Refused(HOST_CANCELLED))
    else RequestInternal(s, name, timeoutValid, false, config)
  }

  ghost function Settle(s: State, key: RequestKey, outcome: Outcome): State {
    s.(requests := s.requests.(pending := s.requests.pending - {key}, settled := s.requests.settled + 1,
       outcome := s.requests.outcome[key := outcome]))
  }

  // ---- Initialization, one function per stretch of code between two awaits ----

  ghost function Initialize(s: State): State {
    if s.initialization.NotStarted? then s.(initialization := AwaitingSpawn) else s
  }

  ghost function SpawnSettled(s: State, spawned: bool, config: Config): State {
    if !s.initialization.AwaitingSpawn? then s
    else if !spawned then s.(initialization := Finished)
    else
      var (t, result) := RequestInternal(s, Ascii("initialize"), true, true, config);
      match result
      case Refused(code) => Fail(t.(initialization := Finished), code)
      case Issued(key) => t.(initialization := AwaitingResponse(key))
  }

  ghost function InitializeSettled(s: State): State {
    if !s.initialization.AwaitingResponse? || s.initialization.key !in s.requests.outcome then s else
    match s.requests.outcome[s.initialization.key]
    case Resolved => s.(initialization := SendingInitialized)
    case Rejected(code) => Fail(s.(initialization := Finished), code)
  }

  ghost function InitializedSent(s: State, error: Option<ErrorCode>): State {
    if !s.initialization.SendingInitialized? then s else
    var t := s.(initialization := Finished);
    if error.Some? then Fail(t, error.value)
    else if !s.Open() then t
    else t.(ready := true)
  }

  // ---- Messages from the server ----

  // What the code that the client calls while it handles one message does.
  datatype Host = Host(decodes: bool, compactionHandlerThrows: bool, notificationHandlerThrows: bool)

  ghost function ReceiveResponse(s: State, message: Json, host: Host): State {
    var id := KeyOf(Property(message, "id"));
    if id.None? || id.value !in s.requests.pending then Fail(s, PROTOCOL_CORRELATION) else
    var key := id.value;
    var result, error := Property(message, "result"), Property(message, "error");
    if result.Some? == error.Some? then Fail(s, PROTOCOL_MALFORMED)
    else if error.Some? then
      if IsObject(error) && IsSafeInteger(PropertyOf(error, "code")) && SafeString(PropertyOf(error, "message"), 4096).Some?
      then Settle(s, key, Rejected(REQUEST_REJECTED))
      else Fail(Settle(s, key, Rejected(PROTOCOL_MALFORMED)), PROTOCOL_MALFORMED)
    else if host.decodes then
      Settle(s.(handshakeCompleted := s.handshakeCompleted || s.requests.pending[key] == Ascii("initialize")), key, Resolved)
    else Fail(Settle(s, key, Rejected(MALFORMED_RESPONSE)), MALFORMED_RESPONSE)
  }

  // What the handler answers, and a failure after it, are separate events.
  ghost function ReceiveServerRequest(s: State, message: Json, config: Config): State {
    var key := KeyOf(Property(message, "id"));
    if SafeString(Property(message, "method"), 256).None? || key.None? || !IsObject(Property(message, "params"))
    then Fail(s, PROTOCOL_MALFORMED)
    else if key.value in s.seenServerRequestIds || |s.seenServerRequestIds| >= config.maximumServerRequests
    then Fail(s, PROTOCOL_CORRELATION)
    else s.(seenServerRequestIds := s.seenServerRequestIds + {key.value})
  }

  ghost function EmitCompaction(s: State, host: Host): State {
    if host.compactionHandlerThrows then Fail(s, HOST_HANDLER_FAILED) else s
  }

  ghost function WithTracker(s: State, threadId: Text, t: Tracker): State {
    s.(compactions := s.compactions.(manual := s.compactions.manual[threadId := t]))
  }

  ghost function EndTracker(s: State, threadId: Text, t: Tracker, ending: Ending): State {
    s.(compactions := s.compactions.(manual := s.compactions.manual - {threadId},
       endings := s.compactions.endings + 1, ended := s.compactions.ended[t.token := ending]))
  }

  ghost predicate IsPending(s: State, t: Tracker) {
    t.threadId in s.compactions.manual && s.compactions.manual[t.threadId].token == t.token
  }

  ghost function CompleteManual(s: State, t: Tracker): State {
    if t.completedItem.None? || !t.turnCompleted then s
    else if !IsPending(s, t) then Fail(s, PROTOCOL_CORRELATION)
    else EndTracker(s, t.threadId, t, CompactionResolved(t.completedItem.value))
  }

  ghost function ObserveTurn(s: State, threadId: Text, turnId: Text): State {
    if threadId !in s.compactions.manual || s.compactions.manual[threadId].turnId != Some(turnId) then s else
    var tracker := s.compactions.manual[threadId];
    if tracker.turnCompleted then Fail(s, PROTOCOL_CORRELATION) else
    var t := tracker.(turnCompleted := true);
    CompleteManual(WithTracker(s, threadId, t), t)
  }

  ghost function ObserveStart(s: State, c: Compaction, host: Host, config: Config): State {
    var observed, manual := s.compactions.observed, s.compactions.manual;
    if c.itemId in observed then Fail(s, PROTOCOL_CORRELATION)
    else if |observed| >= config.maximumObservedCompactions then Fail(s, PROTOCOL_LIMIT)
    else if c.threadId in manual && (manual[c.threadId].itemId.Some? || manual[c.threadId].turnId.Some?)
    then Fail(s, PROTOCOL_CORRELATION)
    else
      var t := if c.threadId in manual
        then WithTracker(s, c.threadId, manual[c.threadId].(itemId := Some(c.itemId), turnId := Some(c.turnId))) else s;
      EmitCompaction(t.(compactions := t.compactions.(observed := observed[c.itemId := Observed(c, c.threadId in manual)])), host)
  }

  ghost function ObserveCompletion(s: State, c: Compaction, host: Host): State {
    var observed := s.compactions.observed;
    if c.itemId !in observed || observed[c.itemId].compaction.threadId != c.threadId ||
       observed[c.itemId].compaction.turnId != c.turnId
    then Fail(s, PROTOCOL_CORRELATION) else
    var t := EmitCompaction(s.(compactions := s.compactions.(observed := observed - {c.itemId})), host);
    if !observed[c.itemId].requestedManual then t else
    var manual := t.compactions.manual;
    if c.threadId !in manual || manual[c.threadId].itemId != Some(c.itemId) || manual[c.threadId].turnId != Some(c.turnId)
    then Fail(t, PROTOCOL_CORRELATION) else
    var tracker := manual[c.threadId].(completedItem := Some(c));
    CompleteManual(WithTracker(t, c.threadId, tracker), tracker)
  }

  ghost function ObserveCompaction(s: State, o: Observation, host: Host, config: Config): State {
    match o
    case Irrelevant => s
    case Malformed => Fail(s, PROTOCOL_MALFORMED)
    case TurnCompleted(threadId, turnId) => ObserveTurn(s, threadId, turnId)
    case ItemStarted(c) => ObserveStart(s, c, host, config)
    case ItemCompleted(c) => ObserveCompletion(s, c, host)
  }

  ghost function NotifyHost(s: State, host: Host): State {
    if s.failure.None? && host.notificationHandlerThrows then Fail(s, HOST_HANDLER_FAILED) else s
  }

  ghost function ReceiveNotification(s: State, message: Json, host: Host, config: Config): State {
    var name := SafeString(Property(message, "method"), 256);
    if name.None? || name.value !in config.notificationMethods || !IsObject(Property(message, "params"))
    then Fail(s, PROTOCOL_MALFORMED)
    else if s.sequence == MAX_SAFE_INTEGER then Fail(s, PROTOCOL_LIMIT)
    else
      NotifyHost(ObserveCompaction(s.(sequence := s.sequence + 1), Observe(message), host, config), host)
  }

  // A notification has a method and no id, and no header of JSON-RPC.
  predicate IsNotification(message: Json) {
    message.Obj? && Property(message, "jsonrpc").None? && Property(message, "method").Some? && Property(message, "id").None?
  }

  ghost function ReceiveMessage(s: State, message: Json, host: Host, config: Config): State {
    var hasMethod, hasId := Property(message, "method").Some?, Property(message, "id").Some?;
    if !message.Obj? then Fail(s, PROTOCOL_MALFORMED)
    else if Property(message, "jsonrpc").Some? then Fail(s, PROTOCOL_MALFORMED)
    else if !s.handshakeCompleted && hasMethod then Fail(s, INITIALIZATION_FAILED)
    else if hasMethod && hasId then ReceiveServerRequest(s, message, config)
    else if hasMethod then ReceiveNotification(s, message, host, config)
    else if hasId then ReceiveResponse(s, message, host)
    else Fail(s, PROTOCOL_MALFORMED)
  }

  // Framing drops what arrives after a failure or the exit.
  ghost function Receive(s: State, message: Json, host: Host, config: Config): State {
    if s.Open() then ReceiveMessage(s, message, host, config) else s
  }

  // ---- Manual compactions ----

  ghost function CompactThread(s: State, threadId: Text, config: Config): (State, RequestResult) {
    if threadId == [] || Utf8Length(threadId) > 256 then (s, Refused(PROTOCOL_MALFORMED))
    else if threadId in s.compactions.manual then (s, Refused(PROTOCOL_CORRELATION))
    else if |s.compactions.manual| >= config.maximumPendingManualCompactions then (s, Refused(PROTOCOL_LIMIT))
    else
      var token := s.compactions.next;
      var tracked := WithTracker(s, threadId, Tracker(token, threadId, None, None, None, false));
      var (t, result) := Request(tracked, Ascii("thread/compact/start"), false, true, config);
      (t.(compactions := t.compactions.(next := token + 1, calls := t.compactions.calls[token := Call(threadId, result)])), result)
  }

  // The request of the call did not succeed, or its tracker was rejected.
  ghost predicate CallFailed(s: State, token: nat) {
    && token in s.compactions.calls
    && (|| s.compactions.calls[token].request.Refused?
        || (&& s.compactions.calls[token].request.key in s.requests.outcome
            && s.requests.outcome[s.compactions.calls[token].request.key].Rejected?)
        || (token in s.compactions.ended && s.compactions.ended[token].CompactionRejected?))
  }

  ghost function CompactCaught(s: State, token: nat): State {
    if !CallFailed(s, token) then s else
    var threadId := s.compactions.calls[token].threadId;
    if threadId in s.compactions.manual && s.compactions.manual[threadId].token == token
    then EndTracker(s, threadId, s.compactions.manual[threadId], CompactionDropped)
    else s
  }

  // ---- Runs ----

  datatype Event =
    | EInitialize
    | ESpawnSettled(spawned: bool)
    | EInitializeSettled
    | EInitializedSent(error: Option<ErrorCode>)
    | ERequest(name: Text, aborted: bool, timeoutValid: bool)
    | EReceive(message: Json, host: Host)
    | EFail(code: ErrorCode)
    | EExit
    | EShutdown
    | EShutdownTimedOut
    | ECompact(threadId: Text)
    | ECompactCaught(token: nat)

  ghost function Step(s: State, e: Event, config: Config): State {
    match e
    case EInitialize => Initialize(s)
    case ESpawnSettled(spawned) => SpawnSettled(s, spawned, config)
    case EInitializeSettled => InitializeSettled(s)
    case EInitializedSent(error) => InitializedSent(s, error)
    case ERequest(name, aborted, timeoutValid) => Request(s, name, aborted, timeoutValid, config).0
    case EReceive(message, host) => Receive(s, message, host, config)
    case EFail(code) => Fail(s, code)
    case EExit => Exit(s)
    case EShutdown => Shutdown(s)
    case EShutdownTimedOut => ShutdownTimedOut(s)
    case ECompact(threadId) => CompactThread(s, threadId, config).0
    case ECompactCaught(token) => CompactCaught(s, token)
  }

  ghost function Run(es: seq<Event>, config: Config): State {
    if es == [] then START else Step(Run(es[..|es| - 1], config), es[|es| - 1], config)
  }
}
