// The client object of client.ts: its handlers do, field by field, what ClientModel says.
module Client {
  import opened Options
  import opened CodeUnits
  import opened JsonAccess
  import opened JsonValues
  import opened ClientModel
  import opened SafeIntegers

  class AppServerClient {
    const config: Config
    var closed: bool
    var failure: Option<ErrorCode>
    var initializationHandshakeCompleted: bool
    var initialization: Initialization
    var ready: bool
    var requestedShutdown: bool
    var notificationSequence: nat
    var seenServerRequestIds: set<RequestKey>
    var nextRequestId: nat
    var pending: map<RequestKey, Text>
    var manualCompactions: map<Text, Tracker>
    var observedCompactions: map<Text, Observed>
    // The identity of the next tracker object.
    var nextToken: nat
    // What became of the promises handed out so far.
    ghost var settled: nat
    ghost var outcome: map<RequestKey, Outcome>
    ghost var calls: map<nat, Call>
    ghost var endings: nat
    ghost var ended: map<nat, Ending>

    ghost function View(): State
      reads this
    {
      State(closed, failure, initializationHandshakeCompleted, initialization, ready, requestedShutdown,
        notificationSequence, seenServerRequestIds, Requests(nextRequestId, pending, settled, outcome),
        Compactions(manualCompactions, observedCompactions, nextToken, calls, endings, ended))
    }

    constructor (config: Config)
      ensures this.config == config && View() == START
    {
      this.config := config;
      closed, failure, initializationHandshakeCompleted, initialization := false, None, false, NotStarted;
      ready, requestedShutdown, notificationSequence, seenServerRequestIds := false, false, 0, {};
      nextRequestId, pending, manualCompactions, observedCompactions, nextToken := 1, map[], map[], map[], 0;
      settled, outcome, calls, endings, ended := 0, map[], map[], 0, map[];
    }

    // ---- Failure, exit and shutdown ----

    method RejectPending(code: ErrorCode)
      modifies `pending, `settled, `outcome
      ensures Requests(nextRequestId, pending, settled, outcome) ==
        ClientModel.RejectPending(Requests(nextRequestId, old(pending), old(settled), old(outcome)), code)
    {
      var todo := pending;
      ghost var before := Requests(nextRequestId, pending, settled, outcome);
      ghost var now := before;
      while todo.Keys != {}
        invariant now.next == before.next && now.pending == todo
        invariant ClientModel.RejectPending(now, code) == ClientModel.RejectPending(before, code)
        decreases todo.Keys
      {
        var key :| key in todo.Keys;
        RejectOnePending(now, key, code);
        todo := todo - {key};
        now := Requests(now.next, todo, now.settled + 1, now.outcome[key := Rejected(code)]);
      }
      pending, settled, outcome := map[], now.settled, now.outcome;
    }

    method RejectCompactions()
      modifies `manualCompactions, `observedCompactions, `endings, `ended
      ensures Compactions(manualCompactions, observedCompactions, nextToken, calls, endings, ended) == ClientModel.RejectCompactions(
        Compactions(old(manualCompactions), old(observedCompactions), nextToken, calls, old(endings), old(ended)))
    {
      var todo := manualCompactions;
      ghost var before := Compactions(manualCompactions, observedCompactions, nextToken, calls, endings, ended);
      ghost var now := before;
      while todo.Keys != {}
        invariant now == before.(manual := todo, endings := now.endings, ended := now.ended)
        invariant ClientModel.RejectCompactions(now) == ClientModel.RejectCompactions(before)
        decreases todo.Keys
      {
        var threadId :| threadId in todo.Keys;
        RejectOneTracker(now, threadId);
        now := now.(manual := todo - {threadId}, endings := now.endings + 1,
          ended := now.ended[todo[threadId].token := CompactionRejected]);
        todo := todo - {threadId};
      }
      assert Tokens(todo) == {};
      manualCompactions, observedCompactions, endings, ended := map[], map[], now.endings, now.ended;
    }

    method RejectAll(code: ErrorCode)
      modifies `pending, `settled, `outcome, `manualCompactions, `observedCompactions, `endings, `ended
      ensures View() == ClientModel.RejectAll(old(View()), code)
    {
      ghost var before := View();
      RejectPending(code);
      assert View() == before.(requests := ClientModel.RejectPending(before.requests, code));
      RejectCompactions();
    }

    method Fail(code: ErrorCode)
      modifies this
      ensures View() == ClientModel.Fail(old(View()), code)
    {
      if failure.Some? || closed { return; }
      failure, ready := Some(code), false;
      RejectAll(code);
    }

    method ProcessExited()
      modifies this
      ensures View() == Exit(old(View()))
    {
      if closed { return; }
      closed, ready := true, false;
      if !requestedShutdown && failure.None? {
        failure := Some(PROCESS_EXITED);
        RejectAll(PROCESS_EXITED);
      }
    }

    method Shutdown()
      modifies this
      ensures View() == ClientModel.Shutdown(old(View()))
    {
      if closed { return; }
      requestedShutdown, ready := true, false;
      RejectAll(SHUTDOWN);
    }

    method ShutdownTimedOut()
      requires requestedShutdown && !closed
      modifies `failure
      ensures View() == ClientModel.ShutdownTimedOut(old(View()))
    {
      if failure.None? { failure := Some(SHUTDOWN_TIMEOUT); }
    }

    // ---- Requests ----

    method RequestInternal(name: Text, timeoutValid: bool, initializing: bool) returns (result: RequestResult)
      modifies `nextRequestId, `pending
      ensures (View(), result) == ClientModel.RequestInternal(old(View()), name, timeoutValid, initializing, config)
    {
      if (!initializing && !ready) || closed || failure.Some? {
        return Refused(if failure.Some? then failure.value else SHUTDOWN);
      }
      if !timeoutValid { return Refused(PROTOCOL_LIMIT); }
      if |pending| >= config.maximumPendingRequests { return Refused(PROTOCOL_LIMIT); }
      var key := NumberKey(nextRequestId);
      nextRequestId := nextRequestId + 1;
      pending := pending[key := name];
      return Issued(key);
    }

    method Request(name: Text, aborted: bool, timeoutValid: bool) returns (result: RequestResult)
      modifies `nextRequestId, `pending
      ensures (View(), result) == ClientModel.Request(old(View()), name, aborted, timeoutValid, config)
    {
      if !ready || requestedShutdown || closed { return Refused(SHUTDOWN); }
      if name !in config.stableMethods { return Refused(UNSUPPORTED_METHOD); }
      if aborted { return Refused(HOST_CANCELLED); }
      result := RequestInternal(name, timeoutValid, false);
    }

    // ---- Initialization, cut at its awaits ----

    method Initialize() returns (accepted: bool)
      modifies `initialization
      ensures View() == ClientModel.Initialize(old(View())) && accepted == old(initialization).NotStarted?
    {
      accepted := initialization.NotStarted?;
      if accepted { initialization := AwaitingSpawn; }
    }

    method SpawnSettled(spawned: bool)
      requires initialization.AwaitingSpawn?
      modifies this
      ensures View() == ClientModel.SpawnSettled(old(View()), spawned, config)
    {
      if !spawned {
        initialization := Finished;
        return;
      }
      var result := RequestInternal(Ascii("initialize"), true, true);
      match result {
        case Refused(code) =>
          initialization := Finished;
          Fail(code);
        case Issued(key) =>
          initialization := AwaitingResponse(key);
      }
    }

    method InitializeSettled(result: Outcome)
      requires initialization.AwaitingResponse? && initialization.key in outcome && outcome[initialization.key] == result
      modifies this
      ensures View() == ClientModel.InitializeSettled(old(View()))
    {
      if result.Resolved? {
        initialization := SendingInitialized;
        return;
      }
      initialization := Finished;
      Fail(result.code);
    }

    method InitializedSent(error: Option<ErrorCode>)
      requires initialization.SendingInitialized?
      modifies this
      ensures View() == ClientModel.InitializedSent(old(View()), error)
    {
      initialization := Finished;
      if error.Some? {
        Fail(error.value);
      } else if failure.None? && !closed {
        ready := true;
      }
    }

    // ---- Messages from the server ----

    method Settle(key: RequestKey, result: Outcome)
      modifies `pending, `settled, `outcome
      ensures View() == ClientModel.Settle(old(View()), key, result)
    {
      pending := pending - {key};
      settled, outcome := settled + 1, outcome[key := result];
    }

    method ReceiveResponse(message: Json, host: Host)
      modifies this
      ensures View() == ClientModel.ReceiveResponse(old(View()), message, host)
    {
      var id := KeyOf(Property(message, "id"));
      if id.None? || id.value !in pending {
        Fail(PROTOCOL_CORRELATION);
        return;
      }
      var key, name := id.value, pending[id.value];
      var result, error := Property(message, "result"), Property(message, "error");
      if result.Some? == error.Some? {
        Fail(PROTOCOL_MALFORMED);
        return;
      }
      if error.Some? {
        if !IsObject(error) || !IsSafeInteger(PropertyOf(error, "code")) ||
           SafeString(PropertyOf(error, "message"), 4096).None? {
          Settle(key, Rejected(PROTOCOL_MALFORMED));
          Fail(PROTOCOL_MALFORMED);
          return;
        }
        Settle(key, Rejected(REQUEST_REJECTED));
        return;
      }
      if host.decodes {
        if name == Ascii("initialize") { initializationHandshakeCompleted := true; }
        Settle(key, Resolved);
      } else {
        Settle(key, Rejected(MALFORMED_RESPONSE));
        Fail(MALFORMED_RESPONSE);
      }
    }

    method ReceiveServerRequest(message: Json)
      modifies this
      ensures View() == ClientModel.ReceiveServerRequest(old(View()), message, config)
    {
      var key := KeyOf(Property(message, "id"));
      if SafeString(Property(message, "method"), 256).None? || key.None? || !IsObject(Property(message, "params")) {
        Fail(PROTOCOL_MALFORMED);
        return;
      }
      if key.value in seenServerRequestIds || |seenServerRequestIds| >= config.maximumServerRequests {
        Fail(PROTOCOL_CORRELATION);
        return;
      }
      seenServerRequestIds := seenServerRequestIds + {key.value};
    }

    method EmitCompaction(host: Host)
      modifies this
      ensures View() == ClientModel.EmitCompaction(old(View()), host)
    {
      if host.compactionHandlerThrows { Fail(HOST_HANDLER_FAILED); }
    }

    method CompleteManualCompaction(tracker: Tracker)
      modifies this
      ensures View() == CompleteManual(old(View()), tracker)
    {
      if tracker.completedItem.None? || !tracker.turnCompleted { return; }
      if tracker.threadId !in manualCompactions || manualCompactions[tracker.threadId].token != tracker.token {
        Fail(PROTOCOL_CORRELATION);
        return;
      }
      manualCompactions := manualCompactions - {tracker.threadId};
      endings := endings + 1;
      ended := ended[tracker.token := CompactionResolved(tracker.completedItem.value)];
    }

    method ObserveTurn(threadId: Text, turnId: Text)
      modifies this
      ensures View() == ClientModel.ObserveTurn(old(View()), threadId, turnId)
    {
      if threadId !in manualCompactions || manualCompactions[threadId].turnId != Some(turnId) { return; }
      var tracker := manualCompactions[threadId];
      if tracker.turnCompleted {
        Fail(PROTOCOL_CORRELATION);
        return;
      }
      tracker := tracker.(turnCompleted := true);
      manualCompactions := manualCompactions[threadId := tracker];
      CompleteManualCompaction(tracker);
    }

    method ObserveStart(c: Compaction, host: Host)
      modifies this
      ensures View() == ClientModel.ObserveStart(old(View()), c, host, config)
    {
      if c.itemId in observedCompactions {
        Fail(PROTOCOL_CORRELATION);
        return;
      }
      if |observedCompactions| >= config.maximumObservedCompactions {
        Fail(PROTOCOL_LIMIT);
        return;
      }
      var requestedManual := c.threadId in manualCompactions;
      if requestedManual {
        var tracker := manualCompactions[c.threadId];
        if tracker.itemId.Some? || tracker.turnId.Some? {
          Fail(PROTOCOL_CORRELATION);
          return;
        }
        manualCompactions := manualCompactions[c.threadId := tracker.(itemId := Some(c.itemId), turnId := Some(c.turnId))];
      }
      observedCompactions := observedCompactions[c.itemId := Observed(c, requestedManual)];
      EmitCompaction(host);
    }

    method ObserveCompletion(c: Compaction, host: Host)
      modifies this
      ensures View() == ClientModel.ObserveCompletion(old(View()), c, host)
    {
      if c.itemId !in observedCompactions {
        Fail(PROTOCOL_CORRELATION);
        return;
      }
      var observed := observedCompactions[c.itemId];
      if observed.compaction.threadId != c.threadId || observed.compaction.turnId != c.turnId {
        Fail(PROTOCOL_CORRELATION);
        return;
      }
      observedCompactions := observedCompactions - {c.itemId};
      EmitCompaction(host);
      if !observed.requestedManual { return; }
      if c.threadId !in manualCompactions || manualCompactions[c.threadId].itemId != Some(c.itemId) ||
         manualCompactions[c.threadId].turnId != Some(c.turnId) {
        Fail(PROTOCOL_CORRELATION);
        return;
      }
      var tracker := manualCompactions[c.threadId].(completedItem := Some(c));
      manualCompactions := manualCompactions[c.threadId := tracker];
      CompleteManualCompaction(tracker);
    }

    method ObserveCompaction(o: Observation, host: Host)
      modifies this
      ensures View() == ClientModel.ObserveCompaction(old(View()), o, host, config)
    {
      match o {
        case Irrelevant =>
        case Malformed => Fail(PROTOCOL_MALFORMED);
        case TurnCompleted(threadId, turnId) => ObserveTurn(threadId, turnId);
        case ItemStarted(c) => ObserveStart(c, host);
        case ItemCompleted(c) => ObserveCompletion(c, host);
      }
    }

    method ReceiveNotification(message: Json, host: Host)
      modifies this
      ensures View() == ClientModel.ReceiveNotification(old(View()), message, host, config)
    {
      var name := SafeString(Property(message, "method"), 256);
      if name.None? || name.value !in config.notificationMethods || !IsObject(Property(message, "params")) {
        Fail(PROTOCOL_MALFORMED);
        return;
      }
      if notificationSequence == MAX_SAFE_INTEGER {
        Fail(PROTOCOL_LIMIT);
        return;
      }
      notificationSequence := notificationSequence + 1;
      ObserveCompaction(Observe(message), host);
      if failure.Some? { return; }
      if host.notificationHandlerThrows { Fail(HOST_HANDLER_FAILED); }
    }

    method ReceiveMessage(message: Json, host: Host)
      modifies this
      ensures View() == ClientModel.ReceiveMessage(old(View()), message, host, config)
    {
      var hasMethod, hasId := Property(message, "method").Some?, Property(message, "id").Some?;
      if !message.Obj? {
        Fail(PROTOCOL_MALFORMED);
      } else if Property(message, "jsonrpc").Some? {
        Fail(PROTOCOL_MALFORMED);
      } else if !initializationHandshakeCompleted && hasMethod {
        Fail(INITIALIZATION_FAILED);
      } else if hasMethod {
        if hasId {
          ReceiveServerRequest(message);
        } else {
          ReceiveNotification(message, host);
        }
      } else if hasId {
        ReceiveResponse(message, host);
      } else {
        Fail(PROTOCOL_MALFORMED);
      }
    }

    // ---- Manual compactions ----

    // Up to the first await of `compactThread`.
    method CompactThread(threadId: Text) returns (result: RequestResult)
      modifies this
      ensures (View(), result) == ClientModel.CompactThread(old(View()), threadId, config)
    {
      if threadId == [] || Utf8Length(threadId) > 256 { return Refused(PROTOCOL_MALFORMED); }
      if threadId in manualCompactions { return Refused(PROTOCOL_CORRELATION); }
      if |manualCompactions| >= config.maximumPendingManualCompactions { return Refused(PROTOCOL_LIMIT); }
      var tracker := Tracker(nextToken, threadId, None, None, None, false);
      manualCompactions := manualCompactions[threadId := tracker];
      assert View() == WithTracker(old(View()), threadId, tracker);
      result := Request(Ascii("thread/compact/start"), false, true);
      calls := calls[nextToken := Call(threadId, result)];
      nextToken := nextToken + 1;
    }

    // Its `catch` clause.
    method CompactCaught(threadId: Text, token: nat)
      requires CallFailed(View(), token) && calls[token].threadId == threadId
      modifies this
      ensures View() == ClientModel.CompactCaught(old(View()), token)
    {
      if threadId in manualCompactions && manualCompactions[threadId].token == token {
        manualCompactions := manualCompactions - {threadId};
        endings, ended := endings + 1, ended[token := CompactionDropped];
      }
    }
  }

  // ---- The loops that reject everything ----

  lemma {:induction false} RejectOnePending(r: Requests, key: RequestKey, code: ErrorCode)
    requires key in r.pending
    ensures RejectPending(r, code) ==
      RejectPending(r.(pending := r.pending - {key}, settled := r.settled + 1, outcome := r.outcome[key := Rejected(code)]), code)
  {
    var keys := r.pending.Keys;
    assert (r.pending - {key}).Keys == keys - {key};
    SetOne(r.outcome, keys - {key}, key, Rejected(code));
    assert keys - {key} + {key} == keys;
  }

  lemma {:induction false} SetOne<K, V>(m: map<K, V>, keys: set<K>, key: K, value: V)
    ensures SetEach(m[key := value], keys, value) == SetEach(m, keys + {key}, value)
  {
    SetEachIs(m[key := value], keys, value);
    SetEachIs(m, keys + {key}, value);
  }

  lemma {:induction false} RejectOneTracker(c: Compactions, threadId: Text)
    requires threadId in c.manual
    ensures RejectCompactions(c) ==
      RejectCompactions(c.(manual := c.manual - {threadId}, endings := c.endings + 1,
        ended := c.ended[c.manual[threadId].token := CompactionRejected]))
  {
    OneOfTheTokens(c.manual, threadId);
    assert (c.manual - {threadId}).Keys == c.manual.Keys - {threadId};
    SetOne(c.ended, Tokens(c.manual - {threadId}), c.manual[threadId].token, CompactionRejected);
  }

  lemma {:induction false} OneOfTheTokens(manual: map<Text, Tracker>, threadId: Text)
    requires threadId in manual
    ensures Tokens(manual) == Tokens(manual - {threadId}) + {manual[threadId].token}
  {
    var rest := manual - {threadId};
    forall token | token in Tokens(manual) ensures token in Tokens(rest) + {manual[threadId].token} {
      var other :| other in manual && manual[other].token == token;
      if other != threadId { assert rest[other].token == token; }
    }
    forall token | token in Tokens(rest) ensures token in Tokens(manual) {
      var other :| other in rest && rest[other].token == token;
      assert manual[other].token == token;
    }
  }
}
