// Whole runs of the client: a request resolves only by the response to it.
module ClientResponses {
  import opened Options
  import opened CodeUnits
  import opened JsonAccess
  import opened JsonValues
  import opened ClientModel
  import R = ClientRuns

  // A response with this id and a result that its decoder accepted.
  ghost predicate Answers(e: Event, key: RequestKey) {
    && e.EReceive? && e.message.Obj? && e.host.decodes
    && Property(e.message, "method").None? && Property(e.message, "jsonrpc").None?
    && KeyOf(Property(e.message, "id")) == Some(key)
    && Property(e.message, "result").Some? && Property(e.message, "error").None?
  }

  ghost predicate NewlyResolved(r: Requests, t: Requests, key: RequestKey) {
    key in t.outcome && key !in r.outcome && t.outcome[key].Resolved?
  }

  ghost predicate NoneResolved(s: State, t: State) {
    forall key :: !NewlyResolved(s.requests, t.requests, key)
  }

  lemma {:induction false} FailResolvesNone(s: State, t: State, code: ErrorCode)
    requires NoneResolved(s, t)
    ensures NoneResolved(s, Fail(t, code)) && NoneResolved(s, RejectAll(t, code))
  {
    SetEachIs(t.requests.outcome, t.requests.pending.Keys, Rejected(code));
    forall key ensures !NewlyResolved(s.requests, RejectPending(t.requests, code), key) {
      assert !NewlyResolved(s.requests, t.requests, key);
    }
  }

  lemma {:induction false} SameRequests(s: State, t: State)
    requires t.requests.outcome == s.requests.outcome
    ensures NoneResolved(s, t)
  {
  }

  lemma {:induction false} NotificationResolvesNone(s: State, message: Json, host: Host, config: Config)
    ensures NoneResolved(s, ReceiveNotification(s, message, host, config))
  {
    SameRequests(s, s);
    FailResolvesNone(s, s, PROTOCOL_MALFORMED);
    FailResolvesNone(s, s, PROTOCOL_LIMIT);
    if R.Accepts(s, message, config) {
      R.AcceptedNotification(s, message, host, config);
      var t := s.(sequence := s.sequence + 1);
      ObservationResolvesNone(t, Observe(message), host, config);
      FailResolvesNone(t, ObserveCompaction(t, Observe(message), host, config), HOST_HANDLER_FAILED);
    }
  }

  lemma {:induction false} ManualResolvesNone(s: State, t: State, tracker: Tracker)
    requires t.requests == s.requests
    ensures NoneResolved(s, CompleteManual(t, tracker))
  {
    SameRequests(s, t);
    FailResolvesNone(s, t, PROTOCOL_CORRELATION);
  }

  lemma {:induction false} TurnResolvesNone(s: State, threadId: Text, turnId: Text)
    ensures NoneResolved(s, ObserveTurn(s, threadId, turnId))
  {
    SameRequests(s, s);
    FailResolvesNone(s, s, PROTOCOL_CORRELATION);
    if threadId in s.compactions.manual {
      var t := s.compactions.manual[threadId].(turnCompleted := true);
      ManualResolvesNone(s, WithTracker(s, threadId, t), t);
    }
  }

  lemma {:induction false} CompletionResolvesNone(s: State, c: Compaction, host: Host)
    ensures NoneResolved(s, ObserveCompletion(s, c, host))
  {
    var observed := s.compactions.observed;
    SameRequests(s, s);
    if c.itemId !in observed || observed[c.itemId].compaction.threadId != c.threadId ||
       observed[c.itemId].compaction.turnId != c.turnId {
      FailResolvesNone(s, s, PROTOCOL_CORRELATION);
    } else {
      var t := s.(compactions := s.compactions.(observed := observed - {c.itemId}));
      SameRequests(s, t);
      if host.compactionHandlerThrows {
        FailResolvesNone(s, t, HOST_HANDLER_FAILED);
        FailResolvesNone(s, Fail(t, HOST_HANDLER_FAILED), PROTOCOL_CORRELATION);
      } else if observed[c.itemId].requestedManual {
        ManualCompletionResolvesNone(s, t, c);
        assert ObserveCompletion(s, c, host) == R.ManualCompletion(t, c);
      }
    }
  }

  lemma {:induction false} ManualCompletionResolvesNone(s: State, t: State, c: Compaction)
    requires t.requests == s.requests
    ensures NoneResolved(s, R.ManualCompletion(t, c))
  {
    FailResolvesNone(s, t, PROTOCOL_CORRELATION);
    if c.threadId in t.compactions.manual {
      var tracker := t.compactions.manual[c.threadId].(completedItem := Some(c));
      ManualResolvesNone(s, WithTracker(t, c.threadId, tracker), tracker);
    }
  }

  lemma {:induction false} ObservationResolvesNone(s: State, o: Observation, host: Host, config: Config)
    ensures NoneResolved(s, ObserveCompaction(s, o, host, config))
  {
    SameRequests(s, s);
    FailResolvesNone(s, s, PROTOCOL_CORRELATION);
    FailResolvesNone(s, s, PROTOCOL_LIMIT);
    FailResolvesNone(s, s, PROTOCOL_MALFORMED);
    match o {
      case Irrelevant =>
      case Malformed =>
      case TurnCompleted(threadId, turnId) => TurnResolvesNone(s, threadId, turnId);
      case ItemStarted(c) => FailResolvesNone(s, s.(compactions := R.StartRecorded(s.compactions, c)), HOST_HANDLER_FAILED);
      case ItemCompleted(c) => CompletionResolvesNone(s, c, host);
    }
  }

  ghost predicate OnlyAnswered(s: State, e: Event, t: State) {
    forall key | NewlyResolved(s.requests, t.requests, key) :: Answers(e, key) && key in s.requests.pending
  }

  lemma {:induction false} ResponseResolvesOne(s: State, message: Json, host: Host)
    requires message.Obj? && Property(message, "method").None? && Property(message, "jsonrpc").None?
    ensures OnlyAnswered(s, EReceive(message, host), ReceiveResponse(s, message, host))
  {
    var id := KeyOf(Property(message, "id"));
    var result, error := Property(message, "result"), Property(message, "error");
    SameRequests(s, s);
    if id.None? || id.value !in s.requests.pending {
      FailResolvesNone(s, s, PROTOCOL_CORRELATION);
    } else if result.Some? == error.Some? {
      FailResolvesNone(s, s, PROTOCOL_MALFORMED);
    } else if error.Some? {
      FailResolvesNone(s, Settle(s, id.value, Rejected(PROTOCOL_MALFORMED)), PROTOCOL_MALFORMED);
    } else if !host.decodes {
      FailResolvesNone(s, Settle(s, id.value, Rejected(MALFORMED_RESPONSE)), MALFORMED_RESPONSE);
    }
  }

  lemma {:induction false} ReceiveResolves(s: State, message: Json, host: Host, config: Config)
    ensures OnlyAnswered(s, EReceive(message, host), Receive(s, message, host, config))
  {
    SameRequests(s, s);
    FailResolvesNone(s, s, PROTOCOL_MALFORMED);
    FailResolvesNone(s, s, PROTOCOL_CORRELATION);
    FailResolvesNone(s, s, INITIALIZATION_FAILED);
    var hasMethod, hasId := Property(message, "method").Some?, Property(message, "id").Some?;
    if !s.Open() || !message.Obj? || Property(message, "jsonrpc").Some? || (!s.handshakeCompleted && hasMethod) || (hasMethod && hasId) {
    } else if hasMethod {
      NotificationResolvesNone(s, message, host, config);
    } else if hasId {
      ResponseResolvesOne(s, message, host);
    }
  }

  lemma {:induction false} StepResolves(s: State, e: Event, config: Config)
    ensures OnlyAnswered(s, e, Step(s, e, config))
  {
    SameRequests(s, s);
    match e {
      case EReceive(message, host) => ReceiveResolves(s, message, host, config);
      case EFail(code) => FailResolvesNone(s, s, code);
      case EExit => FailResolvesNone(s, s.(closed := true, ready := false, failure := Some(PROCESS_EXITED)), PROCESS_EXITED);
      case EShutdown => FailResolvesNone(s, s.(requestedShutdown := true, ready := false), SHUTDOWN);
      case ESpawnSettled(spawned) => SpawnResolvesNone(s, spawned, config);
      case EInitializeSettled =>
        if CanSettle(s) { FailResolvesNone(s, s.(initialization := Finished), s.requests.outcome[s.initialization.key].code); }
      case EInitializedSent(error) =>
        if error.Some? { FailResolvesNone(s, s.(initialization := Finished), error.value); }
      case _ => OtherResolvesNone(s, e, config);
    }
  }

  predicate CanSettle(s: State) {
    s.initialization.AwaitingResponse? && s.initialization.key in s.requests.outcome &&
    s.requests.outcome[s.initialization.key].Rejected?
  }

  lemma {:induction false} SpawnResolvesNone(s: State, spawned: bool, config: Config)
    ensures NoneResolved(s, SpawnSettled(s, spawned, config))
  {
    SameRequests(s, SpawnSettled(s, false, config));
    var (t, result) := RequestInternal(s, Ascii("initialize"), true, true, config);
    SameRequests(s, t);
    if result.Refused? { FailResolvesNone(s, t.(initialization := Finished), result.code); }
  }

  lemma {:induction false} OtherResolvesNone(s: State, e: Event, config: Config)
    requires e.EInitialize? || e.ERequest? || e.EShutdownTimedOut? || e.ECompact? || e.ECompactCaught?
    ensures NoneResolved(s, Step(s, e, config))
  {
    SameRequests(s, Step(s, e, config));
  }

  ghost predicate AnsweredAt(es: seq<Event>, i: nat, key: RequestKey, config: Config) {
    i < |es| && Answers(es[i], key) && key in Run(es[..i], config).requests.pending && Run(es[..i], config).Open()
  }

  // One event resolves a request exactly when it is the answer to it, and it is pending in an open client.
  lemma {:induction false} ResolvesExactly(s: State, e: Event, key: RequestKey, config: Config)
    requires R.Inv(s, config)
    ensures NewlyResolved(s.requests, Step(s, e, config).requests, key) <==>
      Answers(e, key) && key in s.requests.pending && s.Open()
  {
    StepResolves(s, e, config);
    if Answers(e, key) && key in s.requests.pending && s.Open() { AnswerResolves(s, e.message, e.host, key, config); }
  }

  lemma {:induction false} AnswerResolves(s: State, message: Json, host: Host, key: RequestKey, config: Config)
    requires R.Inv(s, config) && s.Open() && key in s.requests.pending && Answers(EReceive(message, host), key)
    ensures NewlyResolved(s.requests, Receive(s, message, host, config).requests, key)
  {
  }

  // A request of a run has resolved exactly when a response to it, with an acceptable result, arrived
  // while it was pending and the client open.
  lemma {:induction false} ResolvedExactly(es: seq<Event>, key: RequestKey, config: Config)
    requires config.Valid()
    ensures (key in Run(es, config).requests.outcome && Run(es, config).requests.outcome[key].Resolved?) <==>
      exists i: nat :: AnsweredAt(es, i, key, config)
  {
    if key in Run(es, config).requests.outcome && Run(es, config).requests.outcome[key].Resolved? {
      ResolvedByItsResponse(es, key, config);
    }
    if i: nat :| AnsweredAt(es, i, key, config) {
      AnsweredStaysResolved(es, i, key, config);
    }
  }

  lemma {:induction false} AnsweredStaysResolved(es: seq<Event>, i: nat, key: RequestKey, config: Config)
    requires config.Valid() && AnsweredAt(es, i, key, config)
    ensures key in Run(es, config).requests.outcome && Run(es, config).requests.outcome[key].Resolved?
  {
    var before := es[..i];
    R.RequestConservation(before, config);
    ResolvesExactly(Run(before, config), es[i], key, config);
    R.RunOneMore(before, es[i], config);
    R.DecisionsStand(before + [es[i]], es[i + 1..], config);
    assert before + [es[i]] + es[i + 1..] == es;
  }

  // Every resolved request was pending when its response, with an acceptable result, arrived.
  lemma {:induction false} ResolvedByItsResponse(es: seq<Event>, key: RequestKey, config: Config)
    requires key in Run(es, config).requests.outcome && Run(es, config).requests.outcome[key].Resolved? && config.Valid()
    ensures exists i: nat :: AnsweredAt(es, i, key, config)
  {
    if es != [] {
      var before, e := es[..|es| - 1], es[|es| - 1];
      assert es == before + [e];
      R.RunOneMore(before, e, config);
      if key in Run(before, config).requests.outcome {
        R.DecisionsStand(before, [e], config);
        ResolvedByItsResponse(before, key, config);
        var i: nat :| AnsweredAt(before, i, key, config);
        assert es[..i] == before[..i];
        assert AnsweredAt(es, i, key, config);
      } else {
        R.RequestConservation(before, config);
        ResolvesExactly(Run(before, config), e, key, config);
        assert AnsweredAt(es, |before|, key, config);
      }
    }
  }
}
