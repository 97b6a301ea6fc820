// Whole runs of the client: when it becomes ready, what its handshake is, and which requests it then issues.
module ClientReadiness {
  import opened Options
  import opened CodeUnits
  import opened JsonAccess
  import opened JsonValues
  import opened ClientModel
  import R = ClientRuns
  import A = ClientResponses

  // ---- The first request ----

  const FIRST := NumberKey(1)

  ghost predicate Initialized(s: State) { FIRST in s.requests.outcome && s.requests.outcome[FIRST].Resolved? }

  // The first request is that of `initialize`; no other is made, and no server message is accepted,
  // before it has resolved.
  ghost predicate FirstInv(s: State) {
    && (FIRST in s.requests.pending ==> s.initialization.AwaitingResponse? && s.requests.pending[FIRST] == Ascii("initialize"))
    && (s.ready ==> Initialized(s) && !s.closed && (s.failure.Some? ==> s.requestedShutdown))
    && (s.handshakeCompleted <==> Initialized(s))
    && (s.initialization.SendingInitialized? ==> Initialized(s))
    && (!Initialized(s) ==> forall key | key in s.requests.pending :: key == FIRST)
  }

  ghost predicate SamePending(s: State, t: State) {
    forall key | key in t.requests.pending :: key in s.requests.pending && t.requests.pending[key] == s.requests.pending[key]
  }

  // A step that makes no request, and leaves the initialization alone.
  ghost predicate Quiet(s: State, t: State) {
    && t.initialization == s.initialization && SamePending(s, t) && t.requests.next == s.requests.next && t.closed == s.closed && t.requestedShutdown == s.requestedShutdown
    && (t.ready <==> s.ready && t.failure == s.failure) && (s.failure.Some? ==> t.failure == s.failure)
    && t.handshakeCompleted == s.handshakeCompleted
    && t.seenServerRequestIds == s.seenServerRequestIds && t.sequence == s.sequence
  }

  lemma {:induction false} FailIsQuiet(s: State, code: ErrorCode)
    ensures Quiet(s, Fail(s, code))
  {
  }

  lemma {:induction false} QuietTwice(s: State, t: State, u: State)
    requires Quiet(s, t) && Quiet(t, u)
    ensures Quiet(s, u)
  {
  }

  lemma {:induction false} ManualIsQuiet(s: State, tracker: Tracker)
    ensures Quiet(s, CompleteManual(s, tracker))
  {
    FailIsQuiet(s, PROTOCOL_CORRELATION);
  }

  lemma {:induction false} ObservationIsQuiet(s: State, o: Observation, host: Host, config: Config)
    ensures Quiet(s, ObserveCompaction(s, o, host, config))
  {
    FailIsQuiet(s, PROTOCOL_MALFORMED);
    FailIsQuiet(s, PROTOCOL_CORRELATION);
    FailIsQuiet(s, PROTOCOL_LIMIT);
    match o {
      case TurnCompleted(threadId, turnId) =>
        if threadId in s.compactions.manual {
          var t := s.compactions.manual[threadId].(turnCompleted := true);
          ManualIsQuiet(WithTracker(s, threadId, t), t);
        }
      case ItemStarted(c) => StartIsQuiet(s, c, host, config);
      case ItemCompleted(c) => CompletionIsQuiet(s, c, host);
      case _ =>
    }
  }

  lemma {:induction false} StartIsQuiet(s: State, c: Compaction, host: Host, config: Config)
    ensures Quiet(s, ObserveStart(s, c, host, config))
  {
    FailIsQuiet(s, PROTOCOL_CORRELATION);
    FailIsQuiet(s, PROTOCOL_LIMIT);
    var t := s.(compactions := R.StartRecorded(s.compactions, c));
    FailIsQuiet(t, HOST_HANDLER_FAILED);
    if Starts(s, c, config) {
      StartIs(s, c, host, config);
    }
  }

  ghost predicate Starts(s: State, c: Compaction, config: Config) {
    var observed, manual := s.compactions.observed, s.compactions.manual;
    && c.itemId !in observed && |observed| < config.maximumObservedCompactions
    && (c.threadId in manual ==> manual[c.threadId].itemId.None? && manual[c.threadId].turnId.None?)
  }

  lemma {:induction false} StartIs(s: State, c: Compaction, host: Host, config: Config)
    requires Starts(s, c, config)
    ensures ObserveStart(s, c, host, config) == EmitCompaction(s.(compactions := R.StartRecorded(s.compactions, c)), host)
  {
  }

  lemma {:induction false} CompletionIsQuiet(s: State, c: Compaction, host: Host)
    ensures Quiet(s, ObserveCompletion(s, c, host))
  {
    var observed := s.compactions.observed;
    FailIsQuiet(s, PROTOCOL_CORRELATION);
    if c.itemId in observed {
      var t := s.(compactions := s.compactions.(observed := observed - {c.itemId}));
      FailIsQuiet(t, HOST_HANDLER_FAILED);
      EmittedIsQuiet(EmitCompaction(t, host), c);
    }
  }

  lemma {:induction false} EmittedIsQuiet(u: State, c: Compaction)
    ensures Quiet(u, Fail(u, PROTOCOL_CORRELATION))
    ensures c.threadId in u.compactions.manual ==>
      var tracker := u.compactions.manual[c.threadId].(completedItem := Some(c));
      Quiet(u, CompleteManual(WithTracker(u, c.threadId, tracker), tracker))
  {
    FailIsQuiet(u, PROTOCOL_CORRELATION);
    if c.threadId in u.compactions.manual {
      var tracker := u.compactions.manual[c.threadId].(completedItem := Some(c));
      ManualIsQuiet(WithTracker(u, c.threadId, tracker), tracker);
    }
  }

  lemma {:induction false} NotificationIsQuiet(s: State, message: Json, host: Host, config: Config)
    ensures Quiet(if R.Accepts(s, message, config) then s.(sequence := s.sequence + 1) else s, ReceiveNotification(s, message, host, config))
  {
    FailIsQuiet(s, PROTOCOL_MALFORMED);
    FailIsQuiet(s, PROTOCOL_LIMIT);
    if R.Accepts(s, message, config) {
      R.AcceptedNotification(s, message, host, config);
      var t := s.(sequence := s.sequence + 1);
      ObservationIsQuiet(t, Observe(message), host, config);
      FailIsQuiet(ObserveCompaction(t, Observe(message), host, config), HOST_HANDLER_FAILED);
    }
  }

  // Like Quiet, but the first request may be answered.
  ghost predicate Receives(s: State, e: Event, t: State) {
    && t.initialization == s.initialization && SamePending(s, t) && t.requests.next == s.requests.next && t.closed == s.closed && t.requestedShutdown == s.requestedShutdown
    && (t.ready <==> s.ready && t.failure == s.failure) && (s.failure.Some? ==> t.failure == s.failure)
    && (t.handshakeCompleted <==> s.handshakeCompleted || (A.Answers(e, FIRST) && FIRST in s.requests.pending && s.Open()))
  }

  lemma {:induction false} SettleThenFail(s: State, key: RequestKey, code: ErrorCode)
    requires key in s.requests.pending
    ensures Quiet(s, Settle(s, key, Rejected(code))) && Quiet(s, Fail(Settle(s, key, Rejected(code)), code))
  {
    var t := Settle(s, key, Rejected(code));
    assert Quiet(s, t);
    FailIsQuiet(t, code);
    QuietTwice(s, t, Fail(t, code));
  }

  lemma {:induction false} SettleAnswered(s: State, key: RequestKey)
    requires FirstInv(s) && key in s.requests.pending
    ensures var t := Settle(s.(handshakeCompleted := s.handshakeCompleted || s.requests.pending[key] == Ascii("initialize")), key, Outcome.Resolved);
      && t.initialization == s.initialization && SamePending(s, t) && t.requests.next == s.requests.next && t.ready == s.ready && t.closed == s.closed
      && (t.handshakeCompleted <==> s.handshakeCompleted || key == FIRST)
  {
  }

  lemma {:induction false} ResponseKeepsFirst(s: State, message: Json, host: Host)
    requires FirstInv(s) && s.Open() && message.Obj? && Property(message, "method").None? && Property(message, "jsonrpc").None?
    ensures Receives(s, EReceive(message, host), ReceiveResponse(s, message, host))
  {
    var id := KeyOf(Property(message, "id"));
    var result, error := Property(message, "result"), Property(message, "error");
    if id.None? || id.value !in s.requests.pending {
      FailIsQuiet(s, PROTOCOL_CORRELATION);
    } else if result.Some? == error.Some? {
      FailIsQuiet(s, PROTOCOL_MALFORMED);
    } else if error.Some? {
      SettleThenFail(s, id.value, REQUEST_REJECTED);
      SettleThenFail(s, id.value, PROTOCOL_MALFORMED);
    } else if host.decodes {
      SettleAnswered(s, id.value);
    } else {
      SettleThenFail(s, id.value, MALFORMED_RESPONSE);
    }
  }

  lemma {:induction false} ReceiveKeepsFirst(s: State, message: Json, host: Host, config: Config)
    requires FirstInv(s)
    ensures Receives(s, EReceive(message, host), Receive(s, message, host, config))
  {
    var hasMethod, hasId := Property(message, "method").Some?, Property(message, "id").Some?;
    FailIsQuiet(s, PROTOCOL_MALFORMED);
    FailIsQuiet(s, PROTOCOL_CORRELATION);
    FailIsQuiet(s, INITIALIZATION_FAILED);
    if !s.Open() || !message.Obj? || Property(message, "jsonrpc").Some? || (!s.handshakeCompleted && hasMethod) {
    } else if hasMethod && hasId {
      assert Quiet(s.(seenServerRequestIds := ReceiveServerRequest(s, message, config).seenServerRequestIds),
        ReceiveServerRequest(s, message, config));
    } else if hasMethod {
      NotificationIsQuiet(s, message, host, config);
    } else if hasId {
      ResponseKeepsFirst(s, message, host);
    }
  }

  // ---- Steps ----

  // How one step moves the handshake.
  ghost predicate Moves(s: State, e: Event, t: State) {
    && (t.initialization.SendingInitialized? <==>
         (s.initialization.SendingInitialized? && !e.EInitializedSent?) ||
         (e.EInitializeSettled? && s.initialization.AwaitingResponse? && Initialized(s)))
    && (t.initialization.AwaitingResponse? && !s.initialization.AwaitingResponse? ==> R.Early(s))
    && (s.initialization.AwaitingResponse? && !t.initialization.AwaitingResponse? ==> e.EInitializeSettled? && FIRST in s.requests.outcome)
    && (t.ready <==> (s.ready && !Ends(s, e, t)) || (e == EInitializedSent(None) && s.initialization.SendingInitialized? && s.Open()))
  }

  // A shutdown, an exit, or a failure other than that of a shutdown that timed out.
  ghost predicate Ends(s: State, e: Event, t: State) {
    e.EShutdown? || t.closed || (t.failure.Some? && s.failure.None? && !e.EShutdownTimedOut?)
  }

  // A received message, once it is known what it answers.
  lemma {:induction false} ReceivedKeeps(s: State, e: Event, t: State, config: Config)
    requires R.Inv(s, config) && FirstInv(s) && Receives(s, e, t) && R.Extends(s, t) && e.EReceive? && (s.Open() || t == s)
    requires A.NewlyResolved(s.requests, t.requests, FIRST) <==> A.Answers(e, FIRST) && FIRST in s.requests.pending && s.Open()
    requires R.Inv(t, config)
    ensures FirstInv(t) && Moves(s, e, t)
  {
  }

  // Only an answer resolves the first request.
  lemma {:induction false} InitializedStays(s: State, e: Event, config: Config)
    requires R.Inv(s, config) && !e.EReceive?
    ensures Initialized(Step(s, e, config)) <==> Initialized(s)
  {
    A.ResolvesExactly(s, e, FIRST, config);
    R.StepKeeps(s, e, config);
  }

  lemma {:induction false} RequestKeepsFirst(s: State, t: State, name: Text, aborted: bool, timeoutValid: bool, config: Config)
    requires R.Inv(s, config) && FirstInv(s) && t == Request(s, name, aborted, timeoutValid, config).0
    ensures FirstInv(t) && t.ready == s.ready && t.initialization == s.initialization && t.failure == s.failure && t.closed == s.closed
  {
    if t != s {
      assert FIRST in s.requests.outcome;
      assert t.requests.pending == s.requests.pending[NumberKey(s.requests.next) := name];
    }
  }

  lemma {:induction false} CompactKeepsFirst(s: State, threadId: Text, config: Config)
    requires R.Inv(s, config) && FirstInv(s)
    ensures var t := CompactThread(s, threadId, config).0;
      FirstInv(t) && t.ready == s.ready && t.initialization == s.initialization && t.failure == s.failure && t.closed == s.closed
  {
    var u := CompactThread(s, threadId, config).0;
    if u != s {
      var t := Request(s, Ascii("thread/compact/start"), false, true, config).0;
      RequestKeepsFirst(s, t, Ascii("thread/compact/start"), false, true, config);
      CompactIs(s, t, threadId, config);
    }
  }

  // But for the compactions, a compaction is its request.
  lemma {:induction false} CompactIs(s: State, t: State, threadId: Text, config: Config)
    requires t == Request(s, Ascii("thread/compact/start"), false, true, config).0
    ensures var u := CompactThread(s, threadId, config).0; u == s || u == t.(compactions := u.compactions)
  {
    var token := s.compactions.next;
    var tracked := WithTracker(s, threadId, Tracker(token, threadId, None, None, None, false));
    R.RequestIgnoresCompactions(s, tracked.compactions, Ascii("thread/compact/start"), config);
  }

  lemma {:induction false} SpawnKeepsFirst(s: State, spawned: bool, config: Config)
    requires R.Inv(s, config) && FirstInv(s) && s.initialization.AwaitingSpawn?
    ensures FirstInv(Step(s, ESpawnSettled(spawned), config)) && Moves(s, ESpawnSettled(spawned), Step(s, ESpawnSettled(spawned), config))
  {
    InitializedStays(s, ESpawnSettled(spawned), config);
    if spawned {
      var (t, result) := RequestInternal(s, Ascii("initialize"), true, true, config);
      if result.Refused? {
        FailIsQuiet(t.(initialization := Finished), result.code);
      } else {
        assert t.requests.pending == s.requests.pending[FIRST := Ascii("initialize")];
      }
    }
  }

  lemma {:induction false} SettledKeepsFirst(s: State, config: Config)
    requires R.Inv(s, config) && FirstInv(s) && s.initialization.AwaitingResponse? && FIRST in s.requests.outcome
    ensures FirstInv(Step(s, EInitializeSettled, config)) && Moves(s, EInitializeSettled, Step(s, EInitializeSettled, config))
  {
    InitializedStays(s, EInitializeSettled, config);
    assert FIRST !in s.requests.pending;
    if s.requests.outcome[FIRST].Rejected? { FailIsQuiet(s.(initialization := Finished), s.requests.outcome[FIRST].code); }
  }

  lemma {:induction false} SentKeepsFirst(s: State, error: Option<ErrorCode>, config: Config)
    requires R.Inv(s, config) && FirstInv(s) && s.initialization.SendingInitialized?
    ensures FirstInv(Step(s, EInitializedSent(error), config)) &&
      Moves(s, EInitializedSent(error), Step(s, EInitializedSent(error), config))
  {
    InitializedStays(s, EInitializedSent(error), config);
    if error.Some? { FailIsQuiet(s.(initialization := Finished), error.value); }
  }

  lemma {:induction false} StepKeepsFirst(s: State, e: Event, config: Config)
    requires R.Inv(s, config) && FirstInv(s)
    ensures FirstInv(Step(s, e, config)) && Moves(s, e, Step(s, e, config))
  {
    match e {
      case EReceive(message, host) =>
        ReceiveKeepsFirst(s, message, host, config);
        A.ResolvesExactly(s, e, FIRST, config);
        R.StepKeeps(s, e, config);
        ReceivedKeeps(s, e, Step(s, e, config), config);
      case ESpawnSettled(spawned) => if s.initialization.AwaitingSpawn? { SpawnKeepsFirst(s, spawned, config); }
      case EInitializeSettled =>
        if s.initialization.AwaitingResponse? && FIRST in s.requests.outcome { SettledKeepsFirst(s, config); }
      case EInitializedSent(error) => if s.initialization.SendingInitialized? { SentKeepsFirst(s, error, config); }
      case ERequest(name, aborted, timeoutValid) => RequestKeepsFirst(s, Step(s, e, config), name, aborted, timeoutValid, config);
      case ECompact(threadId) => CompactKeepsFirst(s, threadId, config);
      case EFail(code) =>
        InitializedStays(s, e, config);
        FailIsQuiet(s, code);
      case _ => EndKeepsFirst(s, e, config);
    }
  }

  lemma {:induction false} EndKeepsFirst(s: State, e: Event, config: Config)
    requires R.Inv(s, config) && FirstInv(s)
    requires e.EInitialize? || e.EExit? || e.EShutdown? || e.EShutdownTimedOut? || e.ECompactCaught?
    ensures FirstInv(Step(s, e, config)) && Moves(s, e, Step(s, e, config))
  {
    InitializedStays(s, e, config);
  }

  // ---- Runs ----

  lemma {:induction false} FirstRequest(es: seq<Event>, config: Config)
    requires config.Valid()
    ensures FirstInv(Run(es, config))
  {
    if es != [] {
      var before, e := es[..|es| - 1], es[|es| - 1];
      FirstRequest(before, config);
      R.RequestConservation(before, config);
      StepKeepsFirst(Run(before, config), e, config);
    }
  }

  // Server messages are accepted exactly once the request of `initialize` has resolved.
  lemma {:induction false} HandshakeExactly(es: seq<Event>, config: Config)
    requires config.Valid()
    ensures Run(es, config).handshakeCompleted <==> exists i: nat :: A.AnsweredAt(es, i, FIRST, config)
  {
    FirstRequest(es, config);
    A.ResolvedExactly(es, FIRST, config);
  }

  // `initialize` goes on after the response to its request.
  ghost predicate SettledAt(es: seq<Event>, d: nat, config: Config) {
    d < |es| && es[d].EInitializeSettled? && Initialized(Run(es[..d], config))
  }

  ghost predicate ToGreet(es: seq<Event>, config: Config) { exists d: nat :: SettledAt(es, d, config) }

  // Then the message `initialized` was sent, or failed to be.
  ghost predicate GreetsAt(es: seq<Event>, g: nat, config: Config) {
    g < |es| && es[g].EInitializedSent? && ToGreet(es[..g], config)
  }

  ghost predicate Greeted(es: seq<Event>, config: Config) { exists g: nat :: GreetsAt(es, g, config) }

  // It was sent the first time, without an error, in a client that was still open.
  ghost predicate BecameReady(es: seq<Event>, g: nat, config: Config) {
    GreetsAt(es, g, config) && es[g].error.None? && Run(es[..g], config).Open() && forall h: nat | h < g :: !GreetsAt(es, h, config)
  }

  ghost predicate EndsAt(es: seq<Event>, k: nat, config: Config) {
    k < |es| && Ends(Run(es[..k], config), es[k], Run(es[..k + 1], config))
  }

  ghost predicate ReadySince(es: seq<Event>, g: nat, config: Config) {
    BecameReady(es, g, config) && forall k: nat | g < k :: !EndsAt(es, k, config)
  }

  lemma {:induction false} PrefixOf(es: seq<Event>, e: Event, k: nat)
    requires k <= |es|
    ensures (es + [e])[..k] == es[..k] && (k < |es| ==> (es + [e])[k] == es[k])
  {
  }

  lemma {:induction false} ToGreetMore(es: seq<Event>, e: Event, config: Config)
    ensures ToGreet(es + [e], config) <==> ToGreet(es, config) || (e.EInitializeSettled? && Initialized(Run(es, config)))
  {
    var all := es + [e];
    assert es[..|es|] == es;
    forall d: nat | d <= |es| ensures SettledAt(all, d, config) <==>
      if d < |es| then SettledAt(es, d, config) else e.EInitializeSettled? && Initialized(Run(es, config))
    {
      PrefixOf(es, e, d);
    }
    if d: nat :| SettledAt(es, d, config) { assert SettledAt(all, d, config); }
    assert SettledAt(all, |es|, config) <==> e.EInitializeSettled? && Initialized(Run(es, config));
  }

  lemma {:induction false} GreetsMore(es: seq<Event>, e: Event, g: nat, config: Config)
    ensures GreetsAt(es + [e], g, config) <==>
      if g == |es| then e.EInitializedSent? && ToGreet(es, config) else GreetsAt(es, g, config)
  {
    assert es[..|es|] == es;
    if g <= |es| { PrefixOf(es, e, g); }
  }

  lemma {:induction false} GreetedMore(es: seq<Event>, e: Event, config: Config)
    ensures Greeted(es + [e], config) <==> Greeted(es, config) || (e.EInitializedSent? && ToGreet(es, config))
  {
    forall g: nat ensures GreetsAt(es + [e], g, config) <==>
      if g == |es| then e.EInitializedSent? && ToGreet(es, config) else GreetsAt(es, g, config)
    {
      GreetsMore(es, e, g, config);
    }
    if g: nat :| GreetsAt(es, g, config) { assert GreetsAt(es + [e], g, config); }
    assert GreetsAt(es + [e], |es|, config) <==> e.EInitializedSent? && ToGreet(es, config);
  }

  // Where `initialize` stands, told from the events.
  ghost predicate Stands(es: seq<Event>, config: Config) {
    var s := Run(es, config);
    && (s.initialization.SendingInitialized? <==> ToGreet(es, config) && !Greeted(es, config))
    && (Initialized(s) && !ToGreet(es, config) ==> s.initialization.AwaitingResponse?)
    && (ToGreet(es, config) ==> Initialized(s) && !s.initialization.AwaitingResponse?)
    && (Greeted(es, config) ==> ToGreet(es, config))
  }

  lemma {:induction false} StandsMore(es: seq<Event>, e: Event, config: Config)
    requires config.Valid() && Stands(es, config)
    ensures Stands(es + [e], config)
  {
    var s := Run(es, config);
    R.RunOneMore(es, e, config);
    R.RequestConservation(es, config);
    FirstRequest(es, config);
    StepKeepsFirst(s, e, config);
    R.StepKeeps(s, e, config);
    A.ResolvesExactly(s, e, FIRST, config);
    ToGreetMore(es, e, config);
    GreetedMore(es, e, config);
    NewlyInitialized(s, e, config);
  }

  lemma {:induction false} NewlyInitialized(s: State, e: Event, config: Config)
    requires R.Inv(s, config) && FirstInv(s)
    ensures Initialized(Step(s, e, config)) && !Initialized(s) ==>
      s.initialization.AwaitingResponse? && Step(s, e, config).initialization.AwaitingResponse?
    ensures Initialized(s) ==> Initialized(Step(s, e, config))
  {
    A.ResolvesExactly(s, e, FIRST, config);
    R.StepKeeps(s, e, config);
    StepKeepsFirst(s, e, config);
  }

  lemma {:induction false} RunStands(es: seq<Event>, config: Config)
    requires config.Valid()
    ensures Stands(es, config)
  {
    if es != [] {
      var before, e := es[..|es| - 1], es[|es| - 1];
      RunStands(before, config);
      StandsMore(before, e, config);
      assert before + [e] == es;
    }
  }

  lemma {:induction false} BecameMore(es: seq<Event>, e: Event, g: nat, config: Config)
    ensures BecameReady(es + [e], g, config) <==>
      if g == |es| then e == EInitializedSent(None) && ToGreet(es, config) && !Greeted(es, config) && Run(es, config).Open()
      else BecameReady(es, g, config)
  {
    forall h: nat ensures GreetsAt(es + [e], h, config) <==>
      if h == |es| then e.EInitializedSent? && ToGreet(es, config) else GreetsAt(es, h, config)
    {
      GreetsMore(es, e, h, config);
    }
    assert es[..|es|] == es;
    if g < |es| {
      PrefixOf(es, e, g);
    } else if g == |es| {
      PrefixOf(es, e, g);
      assert Greeted(es, config) <==> exists h: nat :: h < |es| && GreetsAt(es + [e], h, config);
    } else {
      assert !GreetsAt(es + [e], g, config) && !GreetsAt(es, g, config);
    }
  }

  lemma {:induction false} EndsMore(es: seq<Event>, e: Event, k: nat, config: Config)
    ensures EndsAt(es + [e], k, config) <==>
      if k == |es| then Ends(Run(es, config), e, Run(es + [e], config)) else EndsAt(es, k, config)
  {
    assert es[..|es|] == es && (es + [e])[..|es| + 1] == es + [e];
    if k <= |es| {
      PrefixOf(es, e, k);
      if k < |es| { PrefixOf(es, e, k + 1); }
    }
  }

  lemma {:induction false} ReadySinceMore(es: seq<Event>, e: Event, g: nat, config: Config)
    ensures ReadySince(es + [e], g, config) <==>
      if g == |es| then BecameReady(es + [e], g, config)
      else ReadySince(es, g, config) && !Ends(Run(es, config), e, Run(es + [e], config))
  {
    BecameMore(es, e, g, config);
    forall k: nat ensures EndsAt(es + [e], k, config) <==>
      if k == |es| then Ends(Run(es, config), e, Run(es + [e], config)) else EndsAt(es, k, config)
    {
      EndsMore(es, e, k, config);
    }
    assert EndsAt(es + [e], |es|, config) <==> Ends(Run(es, config), e, Run(es + [e], config));
  }

  // A client is ready exactly when the request of `initialize` resolved, `initialized` was then sent without
  // an error in a client still open, and since then it was not shut down, did not exit and did not fail,
  // other than by a shutdown that timed out.
  lemma {:induction false} ReadyExactly(es: seq<Event>, config: Config)
    requires config.Valid()
    ensures Run(es, config).ready <==> exists g: nat :: ReadySince(es, g, config)
    decreases |es|
  {
    if es != [] {
      var before, e := es[..|es| - 1], es[|es| - 1];
      assert before + [e] == es;
      ReadyExactly(before, config);
      ReadyMore(before, e, config);
    }
  }

  lemma {:induction false} ReadyMore(es: seq<Event>, e: Event, config: Config)
    requires config.Valid() && (Run(es, config).ready <==> exists g: nat :: ReadySince(es, g, config))
    ensures Run(es + [e], config).ready <==> exists g: nat :: ReadySince(es + [e], g, config)
  {
    var s := Run(es, config);
    R.RunOneMore(es, e, config);
    R.RequestConservation(es, config);
    FirstRequest(es, config);
    StepKeepsFirst(s, e, config);
    RunStands(es, config);
    BecameMore(es, e, |es|, config);
    ReadySinceMore(es, e, |es|, config);
    forall g: nat | g != |es| ensures ReadySince(es + [e], g, config) <==> ReadySince(es, g, config) && !Ends(s, e, Step(s, e, config)) {
      ReadySinceMore(es, e, g, config);
    }
  }

  // ---- Requests ----

  predicate Shut(es: seq<Event>) { exists k :: 0 <= k < |es| && es[k].EShutdown? }

  lemma {:induction false} ShutMore(es: seq<Event>, e: Event)
    ensures Shut(es + [e]) <==> Shut(es) || e.EShutdown?
  {
    var all := es + [e];
    assert all[|es|] == e;
    if k :| 0 <= k < |es| && es[k].EShutdown? { assert all[k].EShutdown?; }
    if k :| 0 <= k < |all| && all[k].EShutdown? { assert k < |es| ==> es[k].EShutdown?; }
  }

  // A client that has not exited has been asked to shut down exactly when it remembers so.
  ghost predicate ShutsAs(es: seq<Event>, s: State) {
    (s.requestedShutdown ==> Shut(es)) && (!s.closed ==> (s.requestedShutdown <==> Shut(es)))
  }

  lemma {:induction false} ShutExactly(es: seq<Event>, config: Config)
    requires config.Valid()
    ensures ShutsAs(es, Run(es, config))
  {
    if es != [] {
      var before, e := es[..|es| - 1], es[|es| - 1];
      assert before + [e] == es;
      ShutExactly(before, config);
      FirstRequest(before, config);
      R.RunOneMore(before, e, config);
      ShutMore(before, e);
      ShutStep(Run(before, config), e, config);
    }
  }

  lemma {:induction false} ShutStep(s: State, e: Event, config: Config)
    requires FirstInv(s)
    ensures var t := Step(s, e, config);
      && (s.closed ==> t.closed)
      && (t.requestedShutdown <==> s.requestedShutdown || (e.EShutdown? && !s.closed))
  {
    match e {
      case EReceive(message, host) => ReceiveKeepsFirst(s, message, host, config);
      case ECompact(threadId) => CompactIs(s, Request(s, Ascii("thread/compact/start"), false, true, config).0, threadId, config);
      case _ =>
    }
  }

  // The client has become ready, and neither failed, nor exited, nor was ever asked to shut down.
  ghost predicate Usable(es: seq<Event>, config: Config) {
    (exists g: nat :: BecameReady(es, g, config)) && Run(es, config).Open() && !Shut(es)
  }

  lemma {:induction false} UsableExactly(es: seq<Event>, config: Config)
    requires config.Valid()
    ensures var s := Run(es, config); Usable(es, config) <==> s.ready && !s.requestedShutdown && !s.closed
  {
    var s := Run(es, config);
    ReadyExactly(es, config);
    ShutExactly(es, config);
    FirstRequest(es, config);
    if Usable(es, config) {
      var g: nat :| BecameReady(es, g, config);
      forall k: nat | g < k ensures !EndsAt(es, k, config) {
        if k < |es| { StaysOpen(es, k, config); }
      }
      assert ReadySince(es, g, config);
    }
    if g: nat :| ReadySince(es, g, config) { assert BecameReady(es, g, config); }
  }

  // An open client was open before.
  lemma {:induction false} StaysOpen(es: seq<Event>, k: nat, config: Config)
    requires config.Valid() && k < |es| && Run(es, config).Open()
    ensures Run(es[..k + 1], config).Open()
  {
    R.DecisionsStand(es[..k + 1], es[k + 1..], config);
    assert es[..k + 1] + es[k + 1..] == es;
  }

  // What may become of a request, in terms of the run before it.
  ghost predicate Refuses(es: seq<Event>, name: Text, aborted: bool, timeoutValid: bool, code: ErrorCode, config: Config) {
    match code
    case SHUTDOWN => !Usable(es, config)
    case UNSUPPORTED_METHOD => Usable(es, config) && name !in config.stableMethods
    case HOST_CANCELLED => Usable(es, config) && name in config.stableMethods && aborted
    case PROTOCOL_LIMIT =>
      && Usable(es, config) && name in config.stableMethods && !aborted
      && (!timeoutValid || |Run(es, config).requests.pending| >= config.maximumPendingRequests)
    case _ => false
  }

  // A request is refused with a code exactly when that holds of it.  Otherwise, and so exactly when the
  // client is usable, the method stable, the host has not aborted, the timeout is valid and there is room,
  // it is issued with the next id, and becomes pending with its method.
  lemma {:induction false} RequestsExactly(es: seq<Event>, name: Text, aborted: bool, timeoutValid: bool, config: Config)
    requires config.Valid()
    ensures var s := Run(es, config);
      var (t, result) := Request(s, name, aborted, timeoutValid, config);
      && (forall code :: result == Refused(code) <==> Refuses(es, name, aborted, timeoutValid, code, config))
      && (result.Refused? ==> t == s)
      && (result.Issued? <==>
           && Usable(es, config) && name in config.stableMethods && !aborted && timeoutValid
           && |s.requests.pending| < config.maximumPendingRequests)
      && (result.Issued? ==>
           && result.key == NumberKey(s.requests.next) && t.requests.next == s.requests.next + 1
           && t.requests.pending == s.requests.pending[result.key := name])
  {
    UsableExactly(es, config);
    FirstRequest(es, config);
  }

  // An input for a client that is ready although it has failed: it was shut down between the response to
  // `initialize` and the message `initialized`, and did not exit in time.  It issues nothing.
  lemma {:induction false} ReadyOutlivesTimeout(host: Host, config: Config) returns (es: seq<Event>)
    requires config.Valid() && host.decodes
    ensures Run(es, config).ready && Run(es, config).failure == Some(SHUTDOWN_TIMEOUT) && Run(es, config).requestedShutdown
  {
    var answer := Obj(map[Ascii("id") := Num(Finite(1.0)), Ascii("result") := Null]);
    es := [EInitialize, ESpawnSettled(true), EReceive(answer, host), EInitializeSettled, EShutdown, EInitializedSent(None),
      EShutdownTimedOut];
    AnswerIs(answer);
    var s2 := Step(Step(START, EInitialize, config), ESpawnSettled(true), config);
    Spawned(config);
    var s4 := Step(Step(s2, EReceive(answer, host), config), EInitializeSettled, config);
    Answered(s2, answer, host, config);
    TimesOut(s4, config);
    RunIs(es, config);
  }

  // The request of `initialize` is pending, alone.
  ghost predicate AwaitsFirst(s: State) {
    && s.Open() && !s.requestedShutdown && !s.ready && s.initialization == AwaitingResponse(FIRST)
    && s.requests.pending == map[FIRST := Ascii("initialize")]
  }

  lemma {:induction false} Spawned(config: Config)
    requires config.Valid()
    ensures AwaitsFirst(Step(Step(START, EInitialize, config), ESpawnSettled(true), config))
  {
  }

  lemma {:induction false} Answered(s: State, answer: Json, host: Host, config: Config)
    requires AwaitsFirst(s) && host.decodes && answer.Obj? && A.Answers(EReceive(answer, host), FIRST)
    ensures var t := Step(Step(s, EReceive(answer, host), config), EInitializeSettled, config);
      t.Open() && !t.requestedShutdown && t.initialization.SendingInitialized?
  {
    var t := Receive(s, answer, host, config);
    assert t.initialization == AwaitingResponse(FIRST) && t.requests.outcome[FIRST].Resolved?;
  }

  lemma {:induction false} TimesOut(s: State, config: Config)
    requires s.Open() && !s.requestedShutdown && s.initialization.SendingInitialized?
    ensures var t := Step(Step(Step(s, EShutdown, config), EInitializedSent(None), config), EShutdownTimedOut, config);
      t.ready && t.failure == Some(SHUTDOWN_TIMEOUT) && t.requestedShutdown
  {
    var down := Shutdown(s);
    assert down.Open() && down.requestedShutdown && down.initialization.SendingInitialized?;
  }

  lemma {:induction false} AnswerIs(answer: Json)
    requires answer == Obj(map[Ascii("id") := Num(Finite(1.0)), Ascii("result") := Null])
    ensures Property(answer, "method").None? && Property(answer, "jsonrpc").None? && Property(answer, "error").None?
    ensures KeyOf(Property(answer, "id")) == Some(FIRST) && Property(answer, "result").Some?
  {
    assert |Ascii("id")| == 2 && |Ascii("result")| == 6 && |Ascii("method")| == 6 && |Ascii("jsonrpc")| == 7 && |Ascii("error")| == 5;
    assert Ascii("method")[0] == 'm' as int && Ascii("result")[0] == 'r' as int;
  }

  lemma {:induction false} RunIs(es: seq<Event>, config: Config)
    requires |es| == 7
    ensures Run(es, config) == Step(Step(Step(Step(Step(Step(Step(START, es[0], config), es[1], config), es[2], config), es[3], config),
      es[4], config), es[5], config), es[6], config)
  {
    forall k | 0 < k <= 7 ensures Run(es[..k], config) == Step(Run(es[..k - 1], config), es[k - 1], config) {
      assert es[..k][..k - 1] == es[..k - 1];
    }
    assert es[..7] == es && es[..0] == [];
  }
}
