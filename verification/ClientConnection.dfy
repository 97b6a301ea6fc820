// The client object in its surroundings: whatever calls the public methods of client.ts and the handlers
// that its constructor registers, the object is where the run of these calls leads, so the theorems about
// runs hold of its fields.
module ClientConnection {
  import opened Options
  import opened CodeUnits
  import opened JsonValues
  import opened ClientModel
  import opened Client
  import R = ClientRuns
  import A = ClientResponses

  class Connection {
    const client: AppServerClient
    // What was called so far.
    ghost var events: seq<Event>

    ghost predicate Valid()
      reads this, client
    {
      client.config.Valid() && client.View() == Run(events, client.config)
    }

    constructor (config: Config)
      requires config.Valid()
      ensures Valid() && fresh(client) && client.config == config && events == []
    {
      client := new AppServerClient(config);
      events := [];
    }

    ghost method Record(e: Event, before: State)
      requires client.config.Valid() && before == Run(events, client.config) && client.View() == Step(before, e, client.config)
      modifies `events
      ensures Valid() && events == old(events) + [e]
    {
      R.RunOneMore(events, e, client.config);
      events := events + [e];
    }

    // The promises of the object: each id issued is pending or settled, once, and within the limits.
    lemma Conserves()
      requires Valid()
      ensures forall key :: key in client.pending || key in client.outcome <==> key.NumberKey? && 1 <= key.n < client.nextRequestId
      ensures client.pending.Keys !! client.outcome.Keys && client.settled == |client.outcome|
      ensures |client.pending| <= client.config.maximumPendingRequests
      ensures |client.manualCompactions| <= client.config.maximumPendingManualCompactions
      ensures |client.observedCompactions| <= client.config.maximumObservedCompactions
    {
      R.RequestConservation(events, client.config);
    }

    // And a request of the object has resolved exactly when a response to it arrived while it was pending.
    lemma Resolves(key: RequestKey)
      requires Valid()
      ensures (key in client.outcome && client.outcome[key].Resolved?) <==>
        exists i: nat :: A.AnsweredAt(events, i, key, client.config)
    {
      A.ResolvedExactly(events, key, client.config);
    }

    method Initialize() returns (accepted: bool)
      requires Valid()
      modifies `events, client
      ensures Valid() && events == old(events) + [EInitialize]
    {
      ghost var before := client.View();
      accepted := client.Initialize();
      Record(EInitialize, before);
    }

    method SpawnSettled(spawned: bool)
      requires Valid() && client.initialization.AwaitingSpawn?
      modifies `events, client
      ensures Valid() && events == old(events) + [ESpawnSettled(spawned)]
    {
      ghost var before := client.View();
      client.SpawnSettled(spawned);
      Record(ESpawnSettled(spawned), before);
    }

    method InitializeSettled(result: Outcome)
      requires Valid() && client.initialization.AwaitingResponse? && client.initialization.key in client.outcome
      requires client.outcome[client.initialization.key] == result
      modifies `events, client
      ensures Valid() && events == old(events) + [EInitializeSettled]
    {
      ghost var before := client.View();
      client.InitializeSettled(result);
      Record(EInitializeSettled, before);
    }

    method InitializedSent(error: Option<ErrorCode>)
      requires Valid() && client.initialization.SendingInitialized?
      modifies `events, client
      ensures Valid() && events == old(events) + [EInitializedSent(error)]
    {
      ghost var before := client.View();
      client.InitializedSent(error);
      Record(EInitializedSent(error), before);
    }

    method Request(name: Text, aborted: bool, timeoutValid: bool) returns (result: RequestResult)
      requires Valid()
      modifies `events, client
      ensures Valid() && events == old(events) + [ERequest(name, aborted, timeoutValid)]
      ensures result.Issued? ==> result.key !in old(client.pending) && result.key !in old(client.outcome) && result.key in client.pending
    {
      ghost var before := client.View();
      Conserves();
      result := client.Request(name, aborted, timeoutValid);
      Record(ERequest(name, aborted, timeoutValid), before);
    }

    // A message that the framing delivers; it drops what arrives after a failure or the exit.
    method Receive(message: Json, host: Host)
      requires Valid()
      modifies `events, client
      ensures Valid() && events == old(events) + [EReceive(message, host)]
    {
      ghost var before := client.View();
      if client.failure.None? && !client.closed { client.ReceiveMessage(message, host); }
      Record(EReceive(message, host), before);
    }

    // A timer, the stream or the process reports a failure: nothing stays pending in a client that was open.
    method Fail(code: ErrorCode)
      requires Valid()
      modifies `events, client
      ensures Valid() && events == old(events) + [EFail(code)]
      ensures old(client.failure.None? && !client.closed) ==> client.pending == map[] && client.manualCompactions == map[]
      ensures old(client.failure).Some? ==> client.failure == old(client.failure)
    {
      ghost var before := client.View();
      client.Fail(code);
      Record(EFail(code), before);
    }

    method ProcessExited()
      requires Valid()
      modifies `events, client
      ensures Valid() && events == old(events) + [EExit] && client.closed
    {
      ghost var before := client.View();
      client.ProcessExited();
      Record(EExit, before);
    }

    // After a shutdown nothing is pending, and nothing ever will be, exactly when it is final.
    method Shutdown()
      requires Valid()
      modifies `events, client
      ensures Valid() && events == old(events) + [EShutdown]
      ensures !old(client.closed) ==> client.pending == map[] && client.manualCompactions == map[]
      ensures R.ShutdownIsFinal(old(client.View())) <==>
        forall more :: Run(events + more, client.config).requests.pending.Keys == {}
    {
      ghost var before := client.View();
      client.Shutdown();
      R.ShutdownIsFinalExactly(events, client.config);
      Record(EShutdown, before);
    }

    method ShutdownTimedOut()
      requires Valid() && client.requestedShutdown && !client.closed
      modifies `events, client
      ensures Valid() && events == old(events) + [EShutdownTimedOut]
    {
      ghost var before := client.View();
      client.ShutdownTimedOut();
      Record(EShutdownTimedOut, before);
    }

    method CompactThread(threadId: Text) returns (result: RequestResult)
      requires Valid()
      modifies `events, client
      ensures Valid() && events == old(events) + [ECompact(threadId)]
    {
      ghost var before := client.View();
      result := client.CompactThread(threadId);
      Record(ECompact(threadId), before);
    }

    method CompactCaught(threadId: Text, token: nat)
      requires Valid() && CallFailed(client.View(), token) && client.calls[token].threadId == threadId
      modifies `events, client
      ensures Valid() && events == old(events) + [ECompactCaught(token)]
    {
      ghost var before := client.View();
      client.CompactCaught(threadId, token);
      Record(ECompactCaught(token), before);
    }
  }
}
