// What one event does to an open client, told by its effects: which events fail the client and with which
// code, and how each request that was pending ends.
module ClientFailures {
  import opened Options
  import opened CodeUnits
  import opened JsonAccess
  import opened JsonValues
  import opened SafeIntegers
  import opened ClientModel
  import R = ClientRuns
  import A = ClientResponses
  import H = ClientReadiness

  // ---- Messages by their headers ----

  predicate Has(m: Json, name: string) { Property(m, name).Some? }

  predicate IsMessage(m: Json) { m.Obj? && !Has(m, "jsonrpc") && (Has(m, "method") || Has(m, "id")) }

  predicate IsServerRequest(m: Json) { IsMessage(m) && Has(m, "method") && Has(m, "id") }

  predicate IsResponse(m: Json) { IsMessage(m) && !Has(m, "method") }

  // An error that the server may answer with.
  predicate IsError(error: Option<Json>) {
    IsObject(error) && IsSafeInteger(PropertyOf(error, "code")) && SafeString(PropertyOf(error, "message"), 4096).Some?
  }

  predicate NamesMethod(m: Json) { SafeString(Property(m, "method"), 256).Some? && IsObject(Property(m, "params")) }

  predicate NamesKnownMethod(m: Json, config: Config) {
    NamesMethod(m) && SafeString(Property(m, "method"), 256).value in config.notificationMethods
  }

  // ---- What a message reports of compactions ----

  predicate Names(v: Option<Json>, name: string, id: Text) { PropertyOf(v, name) == Some(Str(id)) && Utf8Length(id) <= 256 }

  predicate IsItem(m: Json, name: string) {
    && Property(m, "method") == Some(Str(Ascii(name)))
    && PropertyOf(PropertyOf(Property(m, "params"), "item"), "type") == Some(Str(Ascii("contextCompaction")))
  }

  predicate IdentifiesItem(m: Json, c: Compaction) {
    var params := Property(m, "params");
    Names(PropertyOf(params, "item"), "id", c.itemId) && Names(params, "threadId", c.threadId) && Names(params, "turnId", c.turnId)
  }

  predicate EndsTurn(m: Json, threadId: Text, turnId: Text) {
    && Property(m, "method") == Some(Str(Ascii("turn/completed")))
    && Names(Property(m, "params"), "threadId", threadId) && Names(PropertyOf(Property(m, "params"), "turn"), "id", turnId)
  }

  lemma {:induction false} NamesDiffer()
    ensures Ascii("item/started") != Ascii("item/completed") && Ascii("item/started") != Ascii("turn/completed")
    ensures Ascii("item/completed") != Ascii("turn/completed")
  {
    assert |Ascii("item/started")| == 12 && |Ascii("item/completed")| == 14 == |Ascii("turn/completed")|;
    assert Ascii("item/completed")[0] == 'i' as int && Ascii("turn/completed")[0] == 't' as int;
  }

  lemma {:induction false} NamesIs(v: Option<Json>, name: string, id: Text)
    ensures SafeString(PropertyOf(v, name), 256) == Some(id) <==> Names(v, name, id)
  {
  }

  // A message means the start, or the completion, of a compaction exactly when it says so and identifies
  // it; one that does not identify it is malformed.
  lemma {:induction false} ObservesExactly(m: Json, c: Compaction, threadId: Text, turnId: Text)
    ensures Observe(m) == ItemStarted(c) <==> IsItem(m, "item/started") && IdentifiesItem(m, c)
    ensures Observe(m) == ItemCompleted(c) <==> IsItem(m, "item/completed") && IdentifiesItem(m, c)
    ensures Observe(m) == TurnCompleted(threadId, turnId) <==> EndsTurn(m, threadId, turnId)
    ensures Observe(m).Malformed? <==> (IsItem(m, "item/started") || IsItem(m, "item/completed")) && forall x :: !IdentifiesItem(m, x)
  {
    NamesDiffer();
    var params := Property(m, "params");
    forall v, name, id ensures SafeString(PropertyOf(v, name), 256) == Some(id) <==> Names(v, name, id) { NamesIs(v, name, id); }
    if Observe(m).Malformed? {
      forall x ensures !IdentifiesItem(m, x) {
        NamesIs(PropertyOf(params, "item"), "id", x.itemId);
        NamesIs(params, "threadId", x.threadId);
        NamesIs(params, "turnId", x.turnId);
      }
    } else if Observe(m).ItemStarted? || Observe(m).ItemCompleted? {
      var x := Observe(m).item;
      NamesIs(PropertyOf(params, "item"), "id", x.itemId);
      NamesIs(params, "threadId", x.threadId);
      NamesIs(params, "turnId", x.turnId);
      assert IdentifiesItem(m, x);
    }
  }

  // ---- Which observations fail ----

  ghost predicate IsRecordable(s: State, c: Compaction, config: Config) {
    var observed, manual := s.compactions.observed, s.compactions.manual;
    && c.itemId !in observed && |observed| < config.maximumObservedCompactions
    && (c.threadId in manual ==> manual[c.threadId].itemId.None? && manual[c.threadId].turnId.None?)
  }

  predicate IsRecorded(s: State, c: Compaction) {
    var observed := s.compactions.observed;
    && c.itemId in observed && observed[c.itemId].compaction.threadId == c.threadId && observed[c.itemId].compaction.turnId == c.turnId
  }

  // It was started for a tracker which is not the one of its thread now.
  predicate IsStray(s: State, c: Compaction)
    requires IsRecorded(s, c)
  {
    var manual := s.compactions.manual;
    && s.compactions.observed[c.itemId].requestedManual
    && !(c.threadId in manual && manual[c.threadId].itemId == Some(c.itemId) && manual[c.threadId].turnId == Some(c.turnId))
  }

  predicate IsRepeated(s: State, threadId: Text, turnId: Text) {
    var manual := s.compactions.manual;
    threadId in manual && manual[threadId].turnId == Some(turnId) && manual[threadId].turnCompleted
  }

  ghost predicate ObservationFails(s: State, o: Observation, host: Host, code: ErrorCode, config: Config) {
    match code
    case PROTOCOL_MALFORMED => o.Malformed?
    case PROTOCOL_LIMIT =>
      o.ItemStarted? && o.item.itemId !in s.compactions.observed && |s.compactions.observed| >= config.maximumObservedCompactions
    case PROTOCOL_CORRELATION =>
      || (&& o.ItemStarted? && !IsRecordable(s, o.item, config)
          && (o.item.itemId in s.compactions.observed || |s.compactions.observed| < config.maximumObservedCompactions))
      || (o.ItemCompleted? && !IsRecorded(s, o.item))
      || (o.ItemCompleted? && IsRecorded(s, o.item) && IsStray(s, o.item) && !host.compactionHandlerThrows)
      || (o.TurnCompleted? && IsRepeated(s, o.threadId, o.turnId))
    case HOST_HANDLER_FAILED =>
      && host.compactionHandlerThrows
      && ((o.ItemStarted? && IsRecordable(s, o.item, config)) || (o.ItemCompleted? && IsRecorded(s, o.item)))
    case _ => false
  }

  ghost predicate FailsAs(s: State, o: Observation, host: Host, t: State, config: Config) {
    t.closed == s.closed && forall code :: t.failure == Some(code) <==> ObservationFails(s, o, host, code, config)
  }

  lemma {:induction false} ManualFails(s: State, threadId: Text, tracker: Tracker)
    requires s.Open() && tracker.threadId == threadId
    ensures var t := CompleteManual(WithTracker(s, threadId, tracker), tracker); t.failure == s.failure && t.closed == s.closed
  {
  }

  lemma {:induction false} TurnFails(s: State, threadId: Text, turnId: Text, host: Host, config: Config)
    requires R.Inv(s, config) && s.Open()
    ensures FailsAs(s, TurnCompleted(threadId, turnId), host, ObserveTurn(s, threadId, turnId), config)
  {
    if threadId in s.compactions.manual {
      assert R.TrackerInv(threadId, s.compactions.manual[threadId]);
      ManualFails(s, threadId, s.compactions.manual[threadId].(turnCompleted := true));
    }
  }

  lemma {:induction false} StartFails(s: State, c: Compaction, host: Host, config: Config)
    requires s.Open()
    ensures FailsAs(s, ItemStarted(c), host, ObserveStart(s, c, host, config), config)
  {
    var t := ObserveStart(s, c, host, config);
    if IsRecordable(s, c, config) {
      assert t.failure == if host.compactionHandlerThrows then Some(HOST_HANDLER_FAILED) else None;
    } else if c.itemId !in s.compactions.observed && |s.compactions.observed| >= config.maximumObservedCompactions {
      assert t.failure == Some(PROTOCOL_LIMIT);
    } else {
      assert t.failure == Some(PROTOCOL_CORRELATION);
    }
  }

  lemma {:induction false} CompletionFails(s: State, c: Compaction, host: Host, config: Config)
    requires R.Inv(s, config) && s.Open()
    ensures FailsAs(s, ItemCompleted(c), host, ObserveCompletion(s, c, host), config)
  {
    if IsRecorded(s, c) && !host.compactionHandlerThrows && s.compactions.observed[c.itemId].requestedManual && !IsStray(s, c) {
      assert R.TrackerInv(c.threadId, s.compactions.manual[c.threadId]);
      var t := s.(compactions := s.compactions.(observed := s.compactions.observed - {c.itemId}));
      ManualFails(t, c.threadId, s.compactions.manual[c.threadId].(completedItem := Some(c)));
      assert ObserveCompletion(s, c, host).failure.None?;
    }
  }

  lemma {:induction false} ObservationFailsExactly(s: State, o: Observation, host: Host, config: Config)
    requires R.Inv(s, config) && s.Open()
    ensures FailsAs(s, o, host, ObserveCompaction(s, o, host, config), config)
  {
    match o {
      case Irrelevant =>
      case Malformed =>
      case TurnCompleted(threadId, turnId) => TurnFails(s, threadId, turnId, host, config);
      case ItemStarted(c) => StartFails(s, c, host, config);
      case ItemCompleted(c) => CompletionFails(s, c, host, config);
    }
  }

  // ---- Which messages fail ----

  // Before the handshake a message with a method is not let in.
  predicate IsAdmitted(s: State, m: Json) { IsMessage(m) && (Has(m, "method") ==> s.handshakeCompleted) }

  predicate IsAwaited(s: State, m: Json) {
    KeyOf(Property(m, "id")).Some? && KeyOf(Property(m, "id")).value in s.requests.pending
  }

  predicate IsServed(s: State, m: Json, config: Config) {
    var key := KeyOf(Property(m, "id"));
    && IsAdmitted(s, m) && IsServerRequest(m) && NamesMethod(m) && key.Some?
    && key.value !in s.seenServerRequestIds && |s.seenServerRequestIds| < config.maximumServerRequests
  }

  predicate IsCounted(s: State, m: Json, config: Config) {
    IsAdmitted(s, m) && IsNotification(m) && NamesKnownMethod(m, config) && s.sequence < MAX_SAFE_INTEGER
  }

  ghost predicate MessageFails(s: State, m: Json, host: Host, code: ErrorCode, config: Config) {
    var observes := IsCounted(s, m, config) && ObservationFails(s, Observe(m), host, code, config);
    var response := IsAdmitted(s, m) && IsResponse(m) && IsAwaited(s, m);
    match code
    case PROTOCOL_MALFORMED =>
      || !IsMessage(m) || observes
      || (IsAdmitted(s, m) && IsServerRequest(m) && !(NamesMethod(m) && KeyOf(Property(m, "id")).Some?))
      || (IsAdmitted(s, m) && IsNotification(m) && !NamesKnownMethod(m, config))
      || (response && (Has(m, "result") <==> Has(m, "error")))
      || (response && !Has(m, "result") && Has(m, "error") && !IsError(Property(m, "error")))
    case INITIALIZATION_FAILED => IsMessage(m) && !IsAdmitted(s, m)
    case PROTOCOL_CORRELATION =>
      || observes
      || (IsAdmitted(s, m) && IsResponse(m) && !IsAwaited(s, m))
      || (&& IsAdmitted(s, m) && IsServerRequest(m) && NamesMethod(m) && KeyOf(Property(m, "id")).Some? && !IsServed(s, m, config))
    case PROTOCOL_LIMIT => observes || (IsAdmitted(s, m) && IsNotification(m) && NamesKnownMethod(m, config) && !IsCounted(s, m, config))
    case MALFORMED_RESPONSE => response && Has(m, "result") && !Has(m, "error") && !host.decodes
    case HOST_HANDLER_FAILED =>
      || observes
      || (&& IsCounted(s, m, config) && host.notificationHandlerThrows
          && forall c :: !ObservationFails(s, Observe(m), host, c, config))
    case _ => false
  }

  ghost predicate ReceivedAs(s: State, m: Json, host: Host, t: State, config: Config) {
    forall code :: t.failure == Some(code) <==> MessageFails(s, m, host, code, config)
  }

  lemma {:induction false} NotificationFails(s: State, m: Json, host: Host, config: Config)
    requires R.Inv(s, config) && s.Open() && IsAdmitted(s, m) && IsNotification(m)
    ensures ReceivedAs(s, m, host, ReceiveNotification(s, m, host, config), config)
  {
    if IsCounted(s, m, config) {
      var t := s.(sequence := s.sequence + 1);
      R.AcceptedNotification(s, m, host, config);
      assert R.Inv(t, config);
      ObservationFailsExactly(t, Observe(m), host, config);
      ObservationForgetsSequence(s, t, Observe(m), host, config);
      CountedFails(s, m, host, ObserveCompaction(t, Observe(m), host, config), config);
    } else if NamesKnownMethod(m, config) {
      assert ReceiveNotification(s, m, host, config).failure == Some(PROTOCOL_LIMIT);
    } else {
      assert ReceiveNotification(s, m, host, config).failure == Some(PROTOCOL_MALFORMED);
    }
  }

  // Of an open client that has observed a notification.
  lemma {:induction false} CountedFails(s: State, m: Json, host: Host, t: State, config: Config)
    requires IsCounted(s, m, config) && IsNotification(m) && FailsAs(s, Observe(m), host, t, config) && !t.closed
    ensures ReceivedAs(s, m, host, NotifyHost(t, host), config)
  {
    var u := NotifyHost(t, host);
    if t.failure.Some? {
      assert u == t && ObservationFails(s, Observe(m), host, t.failure.value, config);
    } else {
      assert forall c :: !ObservationFails(s, Observe(m), host, c, config);
      assert u.failure == if host.notificationHandlerThrows then Some(HOST_HANDLER_FAILED) else None;
    }
  }

  lemma {:induction false} ObservationForgetsSequence(s: State, t: State, o: Observation, host: Host, config: Config)
    requires t.compactions == s.compactions
    ensures forall code :: ObservationFails(t, o, host, code, config) <==> ObservationFails(s, o, host, code, config)
  {
  }

  lemma {:induction false} ResponseFails(s: State, m: Json, host: Host, config: Config)
    requires s.Open() && IsResponse(m)
    ensures ReceivedAs(s, m, host, ReceiveResponse(s, m, host), config)
  {
    var t := ReceiveResponse(s, m, host);
    if !IsAwaited(s, m) {
      assert t.failure == Some(PROTOCOL_CORRELATION);
    } else if Has(m, "result") <==> Has(m, "error") {
      assert t.failure == Some(PROTOCOL_MALFORMED);
    } else if Has(m, "error") {
      assert t.failure == if IsError(Property(m, "error")) then None else Some(PROTOCOL_MALFORMED);
    } else {
      assert t.failure == if host.decodes then None else Some(MALFORMED_RESPONSE);
    }
  }

  lemma {:induction false} ServerRequestFails(s: State, m: Json, host: Host, config: Config)
    requires s.Open() && IsAdmitted(s, m) && IsServerRequest(m)
    ensures ReceivedAs(s, m, host, ReceiveServerRequest(s, m, config), config)
  {
  }

  lemma {:induction false} MessageFailsExactly(s: State, m: Json, host: Host, config: Config)
    requires R.Inv(s, config) && s.Open()
    ensures ReceivedAs(s, m, host, Receive(s, m, host, config), config)
  {
    if IsAdmitted(s, m) {
      if IsServerRequest(m) {
        ServerRequestFails(s, m, host, config);
      } else if IsResponse(m) {
        ResponseFails(s, m, host, config);
      } else {
        NotificationFails(s, m, host, config);
      }
    }
  }

  // ---- Which events fail ----

  ghost predicate EventFails(s: State, e: Event, code: ErrorCode, config: Config) {
    match e
    case EReceive(m, host) => MessageFails(s, m, host, code, config)
    case EFail(c) => code == c
    case EExit => code == PROCESS_EXITED && !s.requestedShutdown
    case EShutdownTimedOut => code == SHUTDOWN_TIMEOUT && s.requestedShutdown
    case EInitializeSettled =>
      s.initialization.AwaitingResponse? && s.initialization.key in s.requests.outcome &&
      s.requests.outcome[s.initialization.key] == Rejected(code)
    case EInitializedSent(error) => s.initialization.SendingInitialized? && error == Some(code)
    case _ => false
  }

  // An open client fails with a code at an event exactly when the event is a cause of that code.
  lemma {:induction false} FailsExactly(s: State, e: Event, code: ErrorCode, config: Config)
    requires R.Inv(s, config) && config.Valid() && s.Open()
    ensures Step(s, e, config).failure == Some(code) <==> EventFails(s, e, code, config)
  {
    match e {
      case EReceive(m, host) => MessageFailsExactly(s, m, host, config);
      case ECompact(threadId) => CompactFailsNot(s, threadId, config);
      case ESpawnSettled(spawned) => SpawnFailsNot(s, spawned, config);
      case EInitializeSettled => SettledFails(s, config);
      case _ =>
    }
  }

  lemma {:induction false} CompactFailsNot(s: State, threadId: Text, config: Config)
    ensures Step(s, ECompact(threadId), config).failure == s.failure
  {
    H.CompactIs(s, Request(s, Ascii("thread/compact/start"), false, true, config).0, threadId, config);
  }

  // There is always room for the request of `initialize`.
  lemma {:induction false} SpawnFailsNot(s: State, spawned: bool, config: Config)
    requires R.Inv(s, config) && config.Valid() && s.Open()
    ensures Step(s, ESpawnSettled(spawned), config).failure == s.failure
  {
    if s.initialization.AwaitingSpawn? { NothingEarly(s, config); }
  }

  lemma {:induction false} SettledFails(s: State, config: Config)
    requires s.Open()
    ensures forall code :: Step(s, EInitializeSettled, config).failure == Some(code) <==> EventFails(s, EInitializeSettled, code, config)
  {
  }

  lemma {:induction false} NothingEarly(s: State, config: Config)
    requires R.Inv(s, config) && R.Early(s)
    ensures s.requests.pending.Keys == {} && s.requests.pending == map[]
  {
    forall key ensures key !in s.requests.pending { }
  }

  // ---- Runs ----

  lemma {:induction false} EndedStays(s: State, e: Event, config: Config)
    requires R.Inv(s, config) && !s.Open()
    ensures Step(s, e, config).failure == s.failure && !Step(s, e, config).Open()
  {
    R.StepKeeps(s, e, config);
    if s.failure.None? { ClosedFailsNot(s, e, config); }
  }

  lemma {:induction false} ClosedFailsNot(s: State, e: Event, config: Config)
    requires s.closed
    ensures Step(s, e, config).failure == s.failure
  {
    if e.ECompact? { CompactFailsNot(s, e.threadId, config); }
  }

  ghost predicate FailedAt(es: seq<Event>, i: nat, code: ErrorCode, config: Config) {
    i < |es| && Run(es[..i], config).Open() && EventFails(Run(es[..i], config), es[i], code, config)
  }

  // A client has failed with a code exactly when an event that is a cause of it came while it was open.
  lemma {:induction false} FailureExactly(es: seq<Event>, code: ErrorCode, config: Config)
    requires config.Valid()
    ensures Run(es, config).failure == Some(code) <==> exists i: nat :: FailedAt(es, i, code, config)
    decreases |es|
  {
    if es != [] {
      var before, e := es[..|es| - 1], es[|es| - 1];
      FailureExactly(before, code, config);
      R.RequestConservation(before, config);
      var s := Run(before, config);
      if s.Open() { FailsExactly(s, e, code, config); } else { EndedStays(s, e, config); }
      forall i: nat ensures FailedAt(es, i, code, config) <==>
        if i == |before| then s.Open() && EventFails(s, e, code, config) else FailedAt(before, i, code, config)
      {
        if i < |before| { assert es[..i] == before[..i]; }
      }
      assert FailedAt(es, |before|, code, config) <==> s.Open() && EventFails(s, e, code, config);
    }
  }

  // ---- How a pending request ends ----

  predicate Fails(s: State, t: State) { s.failure.None? && t.failure.Some? }

  // The one response that has the id of the request.
  ghost predicate IsResponseTo(s: State, e: Event, key: RequestKey) {
    s.Open() && e.EReceive? && IsResponse(e.message) && KeyOf(Property(e.message, "id")) == Some(key)
  }

  ghost function EndOf(s: State, e: Event, t: State, key: RequestKey): Outcome {
    if e.EShutdown? then Rejected(SHUTDOWN)
    else if Fails(s, t) then Rejected(t.failure.value)
    else if A.Answers(e, key) then Resolved
    else Rejected(REQUEST_REJECTED)
  }

  // Pending requests end together, when the client fails or is shut down, or one by one by their response.
  ghost predicate EndsAs(s: State, e: Event, t: State, key: RequestKey) {
    && (key in t.requests.outcome <==>
         (Fails(s, t) && !e.EShutdownTimedOut?) || (e.EShutdown? && !s.closed) || IsResponseTo(s, e, key))
    && (key in t.requests.outcome ==> t.requests.outcome[key] == EndOf(s, e, t, key))
  }

  lemma {:induction false} FailEnds(s: State, u: State, code: ErrorCode, key: RequestKey)
    requires u.Open() && key in u.requests.pending && key !in u.requests.outcome && s.failure == u.failure
    ensures var t := Fail(u, code); key in t.requests.outcome && t.requests.outcome[key] == Rejected(code) && t.failure == Some(code)
    ensures key in RejectAll(u, code).requests.outcome && RejectAll(u, code).requests.outcome[key] == Rejected(code)
  {
    SetEachIs(u.requests.outcome, u.requests.pending.Keys, Rejected(code));
  }

  // A failure leaves alone what has ended already.
  lemma {:induction false} FailSpares(u: State, code: ErrorCode, key: RequestKey)
    requires key in u.requests.outcome && key !in u.requests.pending
    ensures var t := Fail(u, code); key in t.requests.outcome && t.requests.outcome[key] == u.requests.outcome[key]
    ensures u.Open() ==> Fail(u, code).failure == Some(code)
  {
    SetEachIs(u.requests.outcome, u.requests.pending.Keys, Rejected(code));
  }

  // An observation ends the requests exactly when it fails.
  ghost predicate Spares(s: State, t: State, key: RequestKey) {
    if Fails(s, t) then key in t.requests.outcome && t.requests.outcome[key] == Rejected(t.failure.value)
    else t.requests == s.requests && t.closed == s.closed && t.failure == s.failure
  }

  lemma {:induction false} FailDoesSpare(s: State, u: State, code: ErrorCode, key: RequestKey)
    requires s.Open() && key in s.requests.pending && key !in s.requests.outcome && Spares(s, u, key)
    ensures Spares(s, Fail(u, code), key)
  {
    if u.Open() { FailEnds(s, u, code, key); }
  }

  lemma {:induction false} SameSpares(s: State, u: State, key: RequestKey)
    requires u.requests == s.requests && u.closed == s.closed && u.failure == s.failure
    ensures Spares(s, u, key)
  {
  }

  lemma {:induction false} CompletionSpares(s: State, c: Compaction, host: Host, key: RequestKey)
    requires s.Open() && key in s.requests.pending && key !in s.requests.outcome
    ensures Spares(s, ObserveCompletion(s, c, host), key)
  {
    var observed := s.compactions.observed;
    SameSpares(s, s, key);
    FailDoesSpare(s, s, PROTOCOL_CORRELATION, key);
    if IsRecorded(s, c) {
      var t := s.(compactions := s.compactions.(observed := observed - {c.itemId}));
      SameSpares(s, t, key);
      FailDoesSpare(s, t, HOST_HANDLER_FAILED, key);
      var u := EmitCompaction(t, host);
      if observed[c.itemId].requestedManual { ManualSpares(s, u, c, key); }
    }
  }

  lemma {:induction false} ManualSpares(s: State, u: State, c: Compaction, key: RequestKey)
    requires s.Open() && key in s.requests.pending && key !in s.requests.outcome && Spares(s, u, key)
    ensures Spares(s, R.ManualCompletion(u, c), key)
  {
    FailDoesSpare(s, u, PROTOCOL_CORRELATION, key);
    if c.threadId in u.compactions.manual { TrackerSpares(s, u, c.threadId, u.compactions.manual[c.threadId].(completedItem := Some(c)), key); }
  }

  lemma {:induction false} TrackerSpares(s: State, u: State, threadId: Text, tracker: Tracker, key: RequestKey)
    requires s.Open() && key in s.requests.pending && key !in s.requests.outcome && Spares(s, u, key)
    ensures Spares(s, CompleteManual(WithTracker(u, threadId, tracker), tracker), key)
  {
    FailDoesSpare(s, WithTracker(u, threadId, tracker), PROTOCOL_CORRELATION, key);
  }

  lemma {:induction false} ObservationSpares(s: State, o: Observation, host: Host, key: RequestKey, config: Config)
    requires s.Open() && key in s.requests.pending && key !in s.requests.outcome
    ensures Spares(s, ObserveCompaction(s, o, host, config), key)
  {
    SameSpares(s, s, key);
    FailDoesSpare(s, s, PROTOCOL_CORRELATION, key);
    FailDoesSpare(s, s, PROTOCOL_LIMIT, key);
    FailDoesSpare(s, s, PROTOCOL_MALFORMED, key);
    match o {
      case TurnCompleted(threadId, turnId) =>
        if threadId in s.compactions.manual { TrackerSpares(s, s, threadId, s.compactions.manual[threadId].(turnCompleted := true), key); }
      case ItemStarted(c) =>
        var t := s.(compactions := R.StartRecorded(s.compactions, c));
        SameSpares(s, t, key);
        FailDoesSpare(s, t, HOST_HANDLER_FAILED, key);
        if H.Starts(s, c, config) { H.StartIs(s, c, host, config); }
      case ItemCompleted(c) => CompletionSpares(s, c, host, key);
      case _ =>
    }
  }

  lemma {:induction false} NotificationSpares(s: State, m: Json, host: Host, key: RequestKey, config: Config)
    requires s.Open() && key in s.requests.pending && key !in s.requests.outcome
    ensures Spares(s, ReceiveNotification(s, m, host, config), key)
  {
    SameSpares(s, s, key);
    FailDoesSpare(s, s, PROTOCOL_MALFORMED, key);
    FailDoesSpare(s, s, PROTOCOL_LIMIT, key);
    if R.Accepts(s, m, config) {
      R.AcceptedNotification(s, m, host, config);
      var t := s.(sequence := s.sequence + 1);
      ObservationSpares(t, Observe(m), host, key, config);
      FailDoesSpare(t, ObserveCompaction(t, Observe(m), host, config), HOST_HANDLER_FAILED, key);
    }
  }

  lemma {:induction false} ResponseEnds(s: State, m: Json, host: Host, key: RequestKey)
    requires s.Open() && key in s.requests.pending && key !in s.requests.outcome && IsResponse(m)
    ensures EndsAs(s, EReceive(m, host), ReceiveResponse(s, m, host), key)
  {
    var id := KeyOf(Property(m, "id"));
    if !IsAwaited(s, m) {
      FailEnds(s, s, PROTOCOL_CORRELATION, key);
    } else if Has(m, "result") <==> Has(m, "error") {
      FailEnds(s, s, PROTOCOL_MALFORMED, key);
    } else if Has(m, "error") {
      SettledEnds(s, s, id.value, PROTOCOL_MALFORMED, key);
    } else if !host.decodes {
      SettledEnds(s, s, id.value, MALFORMED_RESPONSE, key);
    }
  }

  // The request is settled with a code, with which the client then fails.
  lemma {:induction false} SettledEnds(s: State, u: State, id: RequestKey, code: ErrorCode, key: RequestKey)
    requires u.Open() && s.failure == u.failure && key in u.requests.pending && key !in u.requests.outcome && id in u.requests.pending
    ensures var t := Fail(Settle(u, id, Rejected(code)), code);
      key in t.requests.outcome && t.requests.outcome[key] == Rejected(code) && t.failure == Some(code)
  {
    var t := Settle(u, id, Rejected(code));
    if id == key { FailSpares(t, code, key); } else { FailEnds(s, t, code, key); }
  }

  lemma {:induction false} MessageEnds(s: State, m: Json, host: Host, key: RequestKey, config: Config)
    requires s.Open() && key in s.requests.pending && key !in s.requests.outcome
    ensures EndsAs(s, EReceive(m, host), Receive(s, m, host, config), key)
  {
    SameSpares(s, s, key);
    FailDoesSpare(s, s, PROTOCOL_MALFORMED, key);
    FailDoesSpare(s, s, INITIALIZATION_FAILED, key);
    FailDoesSpare(s, s, PROTOCOL_CORRELATION, key);
    if IsAdmitted(s, m) && IsResponse(m) {
      ResponseEnds(s, m, host, key);
    } else if IsAdmitted(s, m) && !IsServerRequest(m) {
      NotificationSpares(s, m, host, key, config);
    } else {
      assert Spares(s, Receive(s, m, host, config), key);
    }
  }

  // Each request that is pending stays so, or ends in the way that the event says.
  lemma {:induction false} EndsExactly(s: State, e: Event, key: RequestKey, config: Config)
    requires R.Inv(s, config) && config.Valid() && key in s.requests.pending
    ensures EndsAs(s, e, Step(s, e, config), key)
  {
    SameSpares(s, s, key);
    match e {
      case EReceive(m, host) => if s.Open() { MessageEnds(s, m, host, key, config); }
      case EFail(code) => FailDoesSpareOpen(s, code, key);
      case EExit => ExitEnds(s, key, config);
      case EShutdown => SetEachIs(s.requests.outcome, s.requests.pending.Keys, Rejected(SHUTDOWN));
      case ECompact(threadId) => CompactEnds(s, threadId, key, config);
      case EInitializeSettled => SettledRequestEnds(s, key, config);
      case EInitializedSent(error) => if error.Some? { SentEnds(s, error.value, key, config); }
      case _ =>
    }
  }

  lemma {:induction false} CompactEnds(s: State, threadId: Text, key: RequestKey, config: Config)
    requires R.Inv(s, config) && config.Valid() && key in s.requests.pending
    ensures EndsAs(s, ECompact(threadId), Step(s, ECompact(threadId), config), key)
  {
    SameSpares(s, s, key);
    H.CompactIs(s, Request(s, Ascii("thread/compact/start"), false, true, config).0, threadId, config);
  }

  lemma {:induction false} SettledRequestEnds(s: State, key: RequestKey, config: Config)
    requires key in s.requests.pending && key !in s.requests.outcome
    ensures EndsAs(s, EInitializeSettled, InitializeSettled(s), key)
  {
    if A.CanSettle(s) && s.Open() { FailEnds(s, s.(initialization := Finished), s.requests.outcome[s.initialization.key].code, key); }
  }

  lemma {:induction false} SentEnds(s: State, code: ErrorCode, key: RequestKey, config: Config)
    requires key in s.requests.pending && key !in s.requests.outcome
    ensures EndsAs(s, EInitializedSent(Some(code)), InitializedSent(s, Some(code)), key)
  {
    if s.initialization.SendingInitialized? && s.Open() { FailEnds(s, s.(initialization := Finished), code, key); }
  }

  lemma {:induction false} FailDoesSpareOpen(s: State, code: ErrorCode, key: RequestKey)
    requires key in s.requests.pending && key !in s.requests.outcome
    ensures EndsAs(s, EFail(code), Fail(s, code), key)
  {
    if s.Open() { FailEnds(s, s, code, key); }
  }

  lemma {:induction false} ExitEnds(s: State, key: RequestKey, config: Config)
    requires key in s.requests.pending && key !in s.requests.outcome
    ensures EndsAs(s, EExit, Exit(s), key)
  {
    SetEachIs(s.requests.outcome, s.requests.pending.Keys, Rejected(PROCESS_EXITED));
  }

  ghost predicate EndedAt(es: seq<Event>, i: nat, key: RequestKey, outcome: Outcome, config: Config) {
    && i < |es| && key in Run(es[..i], config).requests.pending && key in Run(es[..i + 1], config).requests.outcome
    && outcome == EndOf(Run(es[..i], config), es[i], Run(es[..i + 1], config), key)
  }

  // Every request of a run that has ended was pending at an event that ended it in its way: with the failure
  // of the client, with the shutdown, by an answer, or by a rejection of the server.
  lemma {:induction false} HowRequestsEnd(es: seq<Event>, key: RequestKey, config: Config) returns (i: nat)
    requires config.Valid() && key in Run(es, config).requests.outcome
    ensures EndedAt(es, i, key, Run(es, config).requests.outcome[key], config)
    decreases |es|
  {
    var before, e := es[..|es| - 1], es[|es| - 1];
    assert es == before + [e];
    R.RunOneMore(before, e, config);
    if key in Run(before, config).requests.outcome {
      R.DecisionsStand(before, [e], config);
      i := HowRequestsEnd(before, key, config);
      EndedEarlier(es, before, i, key, Run(before, config).requests.outcome[key], config);
    } else {
      i := |before|;
      EndedNow(before, e, key, config);
      assert es[..i] == before && es[..i + 1] == es;
    }
  }

  lemma {:induction false} EndedNow(es: seq<Event>, e: Event, key: RequestKey, config: Config)
    requires config.Valid()
    requires var s := Run(es, config); key !in s.requests.outcome && key in Step(s, e, config).requests.outcome
    ensures var s := Run(es, config); key in s.requests.pending && EndsAs(s, e, Step(s, e, config), key)
  {
    R.RequestConservation(es, config);
    H.FirstRequest(es, config);
    WasPending(Run(es, config), e, key, config);
    EndsExactly(Run(es, config), e, key, config);
  }

  lemma {:induction false} EndedEarlier(es: seq<Event>, before: seq<Event>, i: nat, key: RequestKey, outcome: Outcome, config: Config)
    requires es != [] && before == es[..|es| - 1] && EndedAt(before, i, key, outcome, config)
    ensures EndedAt(es, i, key, outcome, config)
  {
    assert es[..i] == before[..i] && es[..i + 1] == before[..i + 1];
  }

  // Nothing ends that was not pending before.
  lemma {:induction false} WasPending(s: State, e: Event, key: RequestKey, config: Config)
    requires R.Inv(s, config) && H.FirstInv(s) && config.Valid()
    requires key !in s.requests.outcome && key in Step(s, e, config).requests.outcome
    ensures key in s.requests.pending
  {
    R.StepKeeps(s, e, config);
    IssuesOrEnds(s, e, config);
  }

  // No step both makes a request and ends one.
  lemma {:induction false} IssuesOrEnds(s: State, e: Event, config: Config)
    requires R.Inv(s, config) && H.FirstInv(s) && config.Valid()
    ensures var t := Step(s, e, config); t.requests.next == s.requests.next || t.requests.outcome == s.requests.outcome
  {
    match e {
      case EReceive(m, host) => H.ReceiveKeepsFirst(s, m, host, config);
      case EFail(code) => H.FailIsQuiet(s, code);
      case ECompact(threadId) => H.CompactIs(s, Request(s, Ascii("thread/compact/start"), false, true, config).0, threadId, config);
      case ESpawnSettled(spawned) => if s.initialization.AwaitingSpawn? { NothingEarly(s, config); }
      case EInitializeSettled => if A.CanSettle(s) { H.FailIsQuiet(s.(initialization := Finished), s.requests.outcome[s.initialization.key].code); }
      case EInitializedSent(error) => if error.Some? { H.FailIsQuiet(s.(initialization := Finished), error.value); }
      case _ =>
    }
  }

  // ---- Requests of the server, and notifications ----

  ghost predicate ServedAt(es: seq<Event>, i: nat, key: RequestKey, config: Config) {
    && i < |es| && es[i].EReceive? && Run(es[..i], config).Open() && IsServed(Run(es[..i], config), es[i].message, config)
    && KeyOf(Property(es[i].message, "id")) == Some(key)
  }

  ghost predicate CountedAt(es: seq<Event>, i: nat, config: Config) {
    i < |es| && es[i].EReceive? && Run(es[..i], config).Open() && IsCounted(Run(es[..i], config), es[i].message, config)
  }

  ghost predicate Tallies(s: State, m: Json, t: State, config: Config) {
    && t.sequence == s.sequence + (if s.Open() && IsCounted(s, m, config) then 1 else 0)
    && t.seenServerRequestIds == s.seenServerRequestIds +
         if s.Open() && IsServed(s, m, config) then {KeyOf(Property(m, "id")).value} else {}
  }

  ghost predicate SameTallies(s: State, t: State) {
    t.sequence == s.sequence && t.seenServerRequestIds == s.seenServerRequestIds
  }

  lemma {:induction false} FailTallies(s: State, code: ErrorCode)
    ensures SameTallies(s, Fail(s, code))
  {
    H.FailIsQuiet(s, code);
  }

  // Where a message goes.
  ghost function Dispatched(s: State, m: Json, host: Host, config: Config): State {
    if !IsMessage(m) then Fail(s, PROTOCOL_MALFORMED)
    else if !IsAdmitted(s, m) then Fail(s, INITIALIZATION_FAILED)
    else if IsResponse(m) then ReceiveResponse(s, m, host)
    else if IsServerRequest(m) then ReceiveServerRequest(s, m, config)
    else ReceiveNotification(s, m, host, config)
  }

  lemma {:induction false} ReceivesDispatched(s: State, m: Json, host: Host, config: Config)
    requires s.Open()
    ensures Receive(s, m, host, config) == Dispatched(s, m, host, config)
  {
  }

  lemma {:induction false} MessageTallies(s: State, m: Json, host: Host, config: Config)
    requires R.Inv(s, config)
    ensures Tallies(s, m, Receive(s, m, host, config), config)
  {
    if s.Open() {
      ReceivesDispatched(s, m, host, config);
      DispatchTallies(s, m, host, config);
    }
  }

  lemma {:induction false} DispatchTallies(s: State, m: Json, host: Host, config: Config)
    requires R.Inv(s, config) && s.Open()
    ensures Tallies(s, m, Dispatched(s, m, host, config), config)
  {
    if IsMessage(m) && IsAdmitted(s, m) {
      AdmittedTallies(s, m, host, config);
    } else {
      RefusedTallies(s, m, PROTOCOL_MALFORMED, config);
      RefusedTallies(s, m, INITIALIZATION_FAILED, config);
    }
  }

  lemma {:induction false} RefusedTallies(s: State, m: Json, code: ErrorCode, config: Config)
    requires !IsMessage(m) || !IsAdmitted(s, m)
    ensures Tallies(s, m, Fail(s, code), config)
  {
    FailTallies(s, code);
  }

  lemma {:induction false} AdmittedTallies(s: State, m: Json, host: Host, config: Config)
    requires R.Inv(s, config) && s.Open() && IsMessage(m) && IsAdmitted(s, m)
    ensures Tallies(s, m, Dispatched(s, m, host, config), config)
  {
    if IsResponse(m) {
      ResponseTallies(s, m, host);
    } else if IsServerRequest(m) {
      ServerRequestTallies(s, m, config);
    } else {
      NotificationTallies(s, m, host, config);
    }
  }

  lemma {:induction false} NotificationTallies(s: State, m: Json, host: Host, config: Config)
    requires R.Inv(s, config) && s.Open() && IsAdmitted(s, m) && IsNotification(m)
    ensures Tallies(s, m, ReceiveNotification(s, m, host, config), config)
  {
    H.NotificationIsQuiet(s, m, host, config);
    assert R.Accepts(s, m, config) <==> IsCounted(s, m, config);
  }

  lemma {:induction false} ServerRequestTallies(s: State, m: Json, config: Config)
    requires s.Open() && IsAdmitted(s, m) && IsServerRequest(m)
    ensures Tallies(s, m, ReceiveServerRequest(s, m, config), config)
  {
    FailTallies(s, PROTOCOL_MALFORMED);
    FailTallies(s, PROTOCOL_CORRELATION);
  }

  lemma {:induction false} ResponseTallies(s: State, m: Json, host: Host)
    requires IsResponse(m)
    ensures SameTallies(s, ReceiveResponse(s, m, host))
  {
    var key := KeyOf(Property(m, "id"));
    if !IsAwaited(s, m) {
      FailTallies(s, PROTOCOL_CORRELATION);
    } else if Has(m, "result") <==> Has(m, "error") {
      FailTallies(s, PROTOCOL_MALFORMED);
    } else if Has(m, "error") {
      FailTallies(Settle(s, key.value, Rejected(PROTOCOL_MALFORMED)), PROTOCOL_MALFORMED);
    } else if !host.decodes {
      FailTallies(Settle(s, key.value, Rejected(MALFORMED_RESPONSE)), MALFORMED_RESPONSE);
    }
  }

  lemma {:induction false} StepTallies(s: State, e: Event, config: Config)
    requires R.Inv(s, config) && config.Valid() && !e.EReceive?
    ensures SameTallies(s, Step(s, e, config))
  {
    match e {
      case EFail(code) => FailTallies(s, code);
      case ECompact(threadId) => CompactTallies(s, threadId, config);
      case ESpawnSettled(spawned) => SpawnTallies(s, spawned, config);
      case EInitializeSettled => if A.CanSettle(s) { FailTallies(s.(initialization := Finished), s.requests.outcome[s.initialization.key].code); }
      case EInitializedSent(error) => if error.Some? { FailTallies(s.(initialization := Finished), error.value); }
      case ERequest(_, _, _) =>
      case ECompactCaught(_) =>
      case _ => EndTallies(s, e, config);
    }
  }

  lemma {:induction false} CompactTallies(s: State, threadId: Text, config: Config)
    requires R.Inv(s, config) && config.Valid()
    ensures SameTallies(s, Step(s, ECompact(threadId), config))
  {
    H.CompactIs(s, Request(s, Ascii("thread/compact/start"), false, true, config).0, threadId, config);
  }

  lemma {:induction false} SpawnTallies(s: State, spawned: bool, config: Config)
    ensures SameTallies(s, SpawnSettled(s, spawned, config))
  {
    var (t, result) := RequestInternal(s, Ascii("initialize"), true, true, config);
    if result.Refused? { FailTallies(t.(initialization := Finished), result.code); }
  }

  lemma {:induction false} EndTallies(s: State, e: Event, config: Config)
    requires e.EInitialize? || e.EExit? || e.EShutdown? || e.EShutdownTimedOut?
    ensures SameTallies(s, Step(s, e, config))
  {
  }

  // The number of notifications that were let in and recognised.
  ghost function Counted(es: seq<Event>, config: Config): nat {
    if es == [] then 0 else
    Counted(es[..|es| - 1], config) + if CountedAt(es, |es| - 1, config) then 1 else 0
  }

  // The ids that a client remembers are those of the requests that it was right to serve, each once and no
  // more than it may; and its sequence counts the notifications.
  lemma {:induction false} ServesExactly(es: seq<Event>, key: RequestKey, config: Config)
    requires config.Valid()
    ensures key in Run(es, config).seenServerRequestIds <==> exists i: nat :: ServedAt(es, i, key, config)
    ensures Run(es, config).sequence == Counted(es, config)
    decreases |es|
  {
    if es != [] {
      var before, e := es[..|es| - 1], es[|es| - 1];
      assert es == before + [e];
      ServesExactly(before, key, config);
      ServesMore(es, before, e, key, config);
      R.RunOneMore(before, e, config);
      RunTallies(before, e, config);
    }
  }

  lemma {:induction false} RunTallies(es: seq<Event>, e: Event, config: Config)
    requires config.Valid()
    ensures var s := Run(es, config);
      if e.EReceive? then Tallies(s, e.message, Step(s, e, config), config) else SameTallies(s, Step(s, e, config))
  {
    R.RequestConservation(es, config);
    H.FirstRequest(es, config);
    if e.EReceive? { MessageTallies(Run(es, config), e.message, e.host, config); } else { StepTallies(Run(es, config), e, config); }
  }

  lemma {:induction false} ServesMore(es: seq<Event>, before: seq<Event>, e: Event, key: RequestKey, config: Config)
    requires es == before + [e]
    ensures (exists i: nat :: ServedAt(es, i, key, config)) <==>
      (exists i: nat :: ServedAt(before, i, key, config)) || ServedAt(es, |before|, key, config)
    ensures es[..|before|] == before
  {
    forall i: nat | i < |before| ensures ServedAt(es, i, key, config) <==> ServedAt(before, i, key, config) {
      assert es[..i] == before[..i];
    }
  }
}
