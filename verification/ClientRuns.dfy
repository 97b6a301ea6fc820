// Whole runs of the client: what every sequence of events keeps.
module ClientRuns {
  import opened Options
  import opened CodeUnits
  import opened JsonAccess
  import opened JsonValues
  import opened ClientModel
  import opened SafeIntegers

  // ---- What every state satisfies ----

  // The ids issued so far are those pending and those settled, and every settled id was settled by
  // one of the calls counted.
  ghost predicate RequestsInv(r: Requests, config: Config) {
    && 1 <= r.next
    && (forall key :: key in r.pending || key in r.outcome <==> key.NumberKey? && 1 <= key.n < r.next)
    && r.pending.Keys !! r.outcome.Keys
    && r.settled == |r.outcome|
    && |r.pending| <= config.maximumPendingRequests
  }

  // The same for the trackers, and which of them are half way.
  ghost predicate CompactionsInv(c: Compactions, config: Config) {
    && (forall threadId | threadId in c.manual :: TrackerInv(threadId, c.manual[threadId]))
    && (forall a, b | a in c.manual && b in c.manual && c.manual[a].token == c.manual[b].token :: a == b)
    && (forall token: nat :: token in Tokens(c.manual) || token in c.ended <==> token < c.next)
    && Tokens(c.manual) !! c.ended.Keys
    && c.endings == |c.ended|
    && |c.manual| <= config.maximumPendingManualCompactions
    && |c.observed| <= config.maximumObservedCompactions
  }

  ghost predicate TrackerInv(threadId: Text, t: Tracker) {
    && t.threadId == threadId
    && t.itemId.Some? == t.turnId.Some?
    && (t.completedItem.Some? ==> t.itemId.Some? && t.completedItem.value == Compaction(t.itemId.value, threadId, t.turnId.value))
    && (t.turnCompleted ==> t.turnId.Some?)
    && !(t.completedItem.Some? && t.turnCompleted)
  }

  // The request of `initialize` has not been made.
  predicate Early(s: State) { s.initialization.NotStarted? || s.initialization.AwaitingSpawn? }

  ghost predicate PhaseInv(s: State) {
    && (Early(s) ==> s.requests.next == 1)
    && (s.initialization.AwaitingResponse? ==> s.requests.next == 2 && s.initialization.key == NumberKey(1))
    && (s.initialization.SendingInitialized? ==> s.requests.next == 2 && s.requests.pending.Keys == {})
    && (s.ready ==> s.initialization.Finished?)
    && (s.requests.pending.Keys != {} ==> (s.Open() && !s.requestedShutdown) || s.initialization.AwaitingResponse?)
    && (s.requests.pending.Keys != {} && !s.requestedShutdown ==> s.Open())
  }

  ghost predicate Inv(s: State, config: Config) {
    && RequestsInv(s.requests, config)
    && CompactionsInv(s.compactions, config)
    && PhaseInv(s)
    && |s.seenServerRequestIds| <= config.maximumServerRequests
    && s.sequence <= MAX_SAFE_INTEGER
  }

  // What is decided stays decided.
  ghost predicate Extends(s: State, t: State) {
    && (s.failure.Some? ==> t.failure == s.failure)
    && (s.closed ==> t.closed)
    && (s.requestedShutdown ==> t.requestedShutdown)
    && OutcomesExtend(s.requests, t.requests)
    && EndingsExtend(s.compactions, t.compactions)
  }

  ghost predicate OutcomesExtend(r: Requests, t: Requests) {
    && r.next <= t.next
    && (forall key | key in r.outcome :: key in t.outcome && t.outcome[key] == r.outcome[key])
  }

  ghost predicate EndingsExtend(c: Compactions, t: Compactions) {
    && c.next <= t.next
    && (forall token | token in c.ended :: token in t.ended && t.ended[token] == c.ended[token])
  }

  // ---- Rejecting everything ----

  lemma {:induction false} RejectPendingKeeps(r: Requests, code: ErrorCode, config: Config)
    requires RequestsInv(r, config)
    ensures RequestsInv(RejectPending(r, code), config) && OutcomesExtend(r, RejectPending(r, code))
    ensures forall key | key in r.pending :: RejectPending(r, code).outcome[key] == Rejected(code)
  {
    SetEachIs(r.outcome, r.pending.Keys, Rejected(code));
  }

  lemma {:induction false} TokensCount(manual: map<Text, Tracker>)
    requires forall a, b | a in manual && b in manual && manual[a].token == manual[b].token :: a == b
    ensures |Tokens(manual)| == |manual|
    decreases |manual|
  {
    if manual.Keys != {} {
      var threadId :| threadId in manual.Keys;
      var rest := manual - {threadId};
      TokensWithout(manual, threadId);
      assert |rest| == |manual| - 1 by { assert rest.Keys == manual.Keys - {threadId}; }
      TokensCount(rest);
    }
  }

  lemma {:induction false} TokensWithout(manual: map<Text, Tracker>, threadId: Text)
    requires threadId in manual
    requires forall a, b | a in manual && b in manual && manual[a].token == manual[b].token :: a == b
    ensures Tokens(manual - {threadId}) == Tokens(manual) - {manual[threadId].token}
    ensures manual[threadId].token in Tokens(manual)
  {
    var rest, token := manual - {threadId}, manual[threadId].token;
    forall other | other in Tokens(manual) && other != token ensures other in Tokens(rest) {
      var th :| th in manual && manual[th].token == other;
      assert rest[th].token == other;
    }
  }

  lemma {:induction false} RejectCompactionsKeeps(c: Compactions, config: Config)
    requires CompactionsInv(c, config)
    ensures CompactionsInv(RejectCompactions(c), config) && EndingsExtend(c, RejectCompactions(c))
  {
    TokensCount(c.manual);
    SetEachIs(c.ended, Tokens(c.manual), CompactionRejected);
    assert Tokens(RejectCompactions(c).manual) == {};
  }

  // ---- Every step keeps them ----

  ghost predicate Kept(s: State, t: State, config: Config) { Inv(t, config) && Extends(s, t) }

  // A step other than an exit, a shutdown or a part of `initialize`.
  ghost predicate Handled(s: State, t: State, config: Config) {
    && Kept(s, t, config)
    && t.initialization == s.initialization && t.requestedShutdown == s.requestedShutdown && t.closed == s.closed
    && (t.Open() || t.requests.pending.Keys <= if s.Open() then {} else s.requests.pending.Keys)
  }

  // How the initialization may move in one step.
  ghost predicate InitializationMove(s: State, t: State) {
    && (Early(t) ==> Early(s))
    && (t.initialization.AwaitingResponse? ==> s.initialization.AwaitingResponse? || (Early(s) && s.Open()))
  }

  // Nothing is pending and no request can become pending.
  ghost predicate Drained(s: State) {
    s.requests.pending.Keys == {} && (!s.Open() || (s.requestedShutdown && !Early(s)))
  }

  // A step that ends an open client, or asks it to shut down, leaves nothing pending.
  ghost predicate EndDrains(s: State, e: Event, t: State) {
    s.Open() && !s.requestedShutdown && (e.EShutdown? ==> !Early(s)) && (!t.Open() || t.requestedShutdown) ==> Drained(t)
  }

  ghost predicate Progress(s: State, e: Event, t: State, config: Config) {
    Kept(s, t, config) && InitializationMove(s, t) && EndDrains(s, e, t)
  }

  lemma {:induction false} FailKeeps(s: State, code: ErrorCode, config: Config)
    requires Inv(s, config)
    ensures Handled(s, Fail(s, code), config)
    ensures s.Open() ==> Fail(s, code).requests.pending == map[] && Fail(s, code).compactions.manual == map[]
  {
    RejectPendingKeeps(s.requests, code, config);
    RejectCompactionsKeeps(s.compactions, config);
  }

  lemma {:induction false} ExitKeeps(s: State, config: Config)
    requires Inv(s, config)
    ensures Progress(s, EExit, Exit(s), config)
  {
    if s.closed || s.requestedShutdown || s.failure.Some? { return; }
    RejectPendingKeeps(s.requests, PROCESS_EXITED, config);
    RejectCompactionsKeeps(s.compactions, config);
  }

  lemma {:induction false} ShutdownKeeps(s: State, config: Config)
    requires Inv(s, config)
    ensures Progress(s, EShutdown, Shutdown(s), config)
  {
    RejectPendingKeeps(s.requests, SHUTDOWN, config);
    RejectCompactionsKeeps(s.compactions, config);
  }

  ghost function Issue(r: Requests, name: Text): Requests {
    r.(next := r.next + 1, pending := r.pending[NumberKey(r.next) := name])
  }

  lemma {:induction false} IssueKeeps(r: Requests, name: Text, config: Config)
    requires RequestsInv(r, config) && |r.pending| < config.maximumPendingRequests
    ensures RequestsInv(Issue(r, name), config) && OutcomesExtend(r, Issue(r, name))
  {
    var t, issued := Issue(r, name), NumberKey(r.next);
    assert issued !in r.pending && issued !in r.outcome;
    forall key ensures key in t.pending || key in t.outcome <==> key.NumberKey? && 1 <= key.n < t.next {
      assert key in t.pending <==> key in r.pending || key == issued;
    }
  }

  lemma {:induction false} RequestInternalKeeps(s: State, name: Text, timeoutValid: bool, initialization: bool, config: Config)
    requires Inv(s, config) && (if initialization then s.initialization.AwaitingSpawn? else !s.requestedShutdown)
    ensures var t := RequestInternal(s, name, timeoutValid, initialization, config).0;
      RequestsInv(t.requests, config) && Extends(s, t) && (!initialization ==> Inv(t, config))
  {
    if |s.requests.pending| < config.maximumPendingRequests { IssueKeeps(s.requests, name, config); }
  }

  lemma {:induction false} SpawnSettledKeeps(s: State, spawned: bool, config: Config)
    requires Inv(s, config)
    ensures Progress(s, ESpawnSettled(spawned), SpawnSettled(s, spawned, config), config)
  {
    if s.initialization.AwaitingSpawn? && spawned {
      RequestInternalKeeps(s, Ascii("initialize"), true, true, config);
      var (t, result) := RequestInternal(s, Ascii("initialize"), true, true, config);
      if result.Refused? { FailKeeps(t.(initialization := Finished), result.code, config); }
    }
  }

  lemma {:induction false} InitializeSettledKeeps(s: State, config: Config)
    requires Inv(s, config)
    ensures Progress(s, EInitializeSettled, InitializeSettled(s), config)
  {
    if s.initialization.AwaitingResponse? && s.initialization.key in s.requests.outcome {
      forall key ensures key !in s.requests.pending {
        assert key in s.requests.pending ==> key == NumberKey(1);
      }
      if s.requests.outcome[s.initialization.key].Rejected? {
        FailKeeps(s.(initialization := Finished), s.requests.outcome[s.initialization.key].code, config);
      }
    }
  }

  lemma {:induction false} InitializedSentKeeps(s: State, error: Option<ErrorCode>, config: Config)
    requires Inv(s, config)
    ensures Progress(s, EInitializedSent(error), InitializedSent(s, error), config)
  {
    if !s.initialization.SendingInitialized? { return; }
    if error.Some? { FailKeeps(s.(initialization := Finished), error.value, config); }
  }

  lemma {:induction false} SettleKeeps(s: State, key: RequestKey, outcome: Outcome, config: Config)
    requires Inv(s, config) && key in s.requests.pending
    ensures Handled(s, Settle(s, key, outcome), config)
  {
    assert Settle(s, key, outcome).requests.pending.Keys == s.requests.pending.Keys - {key};
  }

  lemma {:induction false} ReceiveResponseKeeps(s: State, message: Json, host: Host, config: Config)
    requires Inv(s, config)
    ensures Handled(s, ReceiveResponse(s, message, host), config)
  {
    var id := KeyOf(Property(message, "id"));
    var result, error := Property(message, "result"), Property(message, "error");
    if id.None? || id.value !in s.requests.pending {
      FailKeeps(s, PROTOCOL_CORRELATION, config);
    } else if result.Some? == error.Some? {
      FailKeeps(s, PROTOCOL_MALFORMED, config);
    } else if error.Some? {
      SettleKeeps(s, id.value, Rejected(REQUEST_REJECTED), config);
      SettleAndFailKeeps(s, id.value, PROTOCOL_MALFORMED, config);
    } else if host.decodes {
      var t := s.(handshakeCompleted := s.handshakeCompleted || s.requests.pending[id.value] == Ascii("initialize"));
      SettleKeeps(t, id.value, Resolved, config);
    } else {
      SettleAndFailKeeps(s, id.value, MALFORMED_RESPONSE, config);
    }
  }

  lemma {:induction false} SettleAndFailKeeps(s: State, key: RequestKey, code: ErrorCode, config: Config)
    requires Inv(s, config) && key in s.requests.pending
    ensures Handled(s, Fail(Settle(s, key, Rejected(code)), code), config)
  {
    SettleKeeps(s, key, Rejected(code), config);
    FailKeeps(Settle(s, key, Rejected(code)), code, config);
  }

  lemma {:induction false} ReceiveServerRequestKeeps(s: State, message: Json, config: Config)
    requires Inv(s, config)
    ensures Handled(s, ReceiveServerRequest(s, message, config), config)
  {
    var key := KeyOf(Property(message, "id"));
    if SafeString(Property(message, "method"), 256).None? || key.None? || !IsObject(Property(message, "params")) {
      FailKeeps(s, PROTOCOL_MALFORMED, config);
    } else if key.value in s.seenServerRequestIds || |s.seenServerRequestIds| >= config.maximumServerRequests {
      FailKeeps(s, PROTOCOL_CORRELATION, config);
    } else {
      ServerRequestSeen(s, key.value, config);
    }
  }

  lemma {:induction false} ServerRequestSeen(s: State, key: RequestKey, config: Config)
    requires Inv(s, config) && |s.seenServerRequestIds| < config.maximumServerRequests
    ensures Handled(s, s.(seenServerRequestIds := s.seenServerRequestIds + {key}), config)
  {
  }

  lemma {:induction false} CompactionsMove(s: State, c: Compactions, config: Config)
    requires Inv(s, config) && CompactionsInv(c, config) && EndingsExtend(s.compactions, c)
    ensures Handled(s, s.(compactions := c), config)
  {
  }

  lemma {:induction false} TrackerUpdated(c: Compactions, threadId: Text, t: Tracker, config: Config)
    requires CompactionsInv(c, config) && threadId in c.manual && TrackerInv(threadId, t)
    requires t.token == c.manual[threadId].token
    ensures CompactionsInv(c.(manual := c.manual[threadId := t]), config)
  {
    var manual := c.manual[threadId := t];
    assert manual.Keys == c.manual.Keys;
    TokensAlike(c.manual, manual);
  }

  lemma {:induction false} TokensAlike(one: map<Text, Tracker>, two: map<Text, Tracker>)
    requires one.Keys == two.Keys && forall threadId | threadId in one :: one[threadId].token == two[threadId].token
    ensures Tokens(one) == Tokens(two)
  {
  }

  lemma {:induction false} TrackerEnded(c: Compactions, threadId: Text, token: nat, ending: Ending, config: Config)
    requires CompactionsInv(c, config) && threadId in c.manual && c.manual[threadId].token == token
    ensures var t := c.(manual := c.manual - {threadId}, endings := c.endings + 1, ended := c.ended[token := ending]);
      CompactionsInv(t, config) && EndingsExtend(c, t)
  {
    TokensWithout(c.manual, threadId);
    assert (c.manual - {threadId}).Keys == c.manual.Keys - {threadId};
  }

  ghost function NewTracker(c: Compactions, threadId: Text): Tracker {
    Tracker(c.next, threadId, None, None, None, false)
  }

  lemma {:induction false} TrackerAdded(c: Compactions, threadId: Text, call: Call, config: Config)
    requires CompactionsInv(c, config) && threadId !in c.manual && |c.manual| < config.maximumPendingManualCompactions
    ensures var t := c.(manual := c.manual[threadId := NewTracker(c, threadId)], next := c.next + 1,
        calls := c.calls[c.next := call]);
      CompactionsInv(t, config) && EndingsExtend(c, t)
  {
    var manual := c.manual[threadId := NewTracker(c, threadId)];
    assert c.next !in Tokens(c.manual) && c.next !in c.ended;
    TokensWith(c.manual, threadId, NewTracker(c, threadId));
    TokensDistinct(c.manual, threadId, NewTracker(c, threadId));
    forall token: nat ensures token in Tokens(manual) || token in c.ended <==> token < c.next + 1 {
      assert token in Tokens(c.manual) || token in c.ended <==> token < c.next;
    }
  }

  lemma {:induction false} TokensWith(manual: map<Text, Tracker>, threadId: Text, t: Tracker)
    requires threadId !in manual
    ensures Tokens(manual[threadId := t]) == Tokens(manual) + {t.token}
  {
    var more := manual[threadId := t];
    forall token | token in Tokens(manual) + {t.token} ensures token in Tokens(more) {
      if token == t.token {
        assert more[threadId].token == token;
      } else {
        var other :| other in manual && manual[other].token == token;
        assert more[other].token == token;
      }
    }
  }

  lemma {:induction false} TokensDistinct(manual: map<Text, Tracker>, threadId: Text, t: Tracker)
    requires threadId !in manual && t.token !in Tokens(manual)
    requires forall a, b | a in manual && b in manual && manual[a].token == manual[b].token :: a == b
    ensures var more := manual[threadId := t];
      forall a, b | a in more && b in more && more[a].token == more[b].token :: a == b
  {
    forall a | a in manual ensures manual[a].token != t.token {
      assert manual[a].token in Tokens(manual);
    }
  }

  lemma {:induction false} ObserveTurnKeeps(s: State, threadId: Text, turnId: Text, config: Config)
    requires Inv(s, config)
    ensures Handled(s, ObserveTurn(s, threadId, turnId), config)
  {
    FailKeeps(s, PROTOCOL_CORRELATION, config);
    var c := s.compactions;
    if threadId in c.manual && c.manual[threadId].turnId == Some(turnId) && !c.manual[threadId].turnCompleted {
      var t := c.manual[threadId].(turnCompleted := true);
      CompletionKeeps(s, threadId, t, config);
    }
  }

  // The tracker gets its second completion and is resolved, or its first one.
  lemma {:induction false} CompletionKeeps(s: State, threadId: Text, t: Tracker, config: Config)
    requires Inv(s, config) && threadId in s.compactions.manual && t.token == s.compactions.manual[threadId].token
    requires t.threadId == threadId
    requires (t.completedItem.Some? && t.turnCompleted) || TrackerInv(threadId, t)
    ensures Handled(s, CompleteManual(WithTracker(s, threadId, t), t), config)
  {
    var c := s.compactions;
    if t.completedItem.Some? && t.turnCompleted {
      SecondCompletion(s, threadId, t);
      TrackerEnded(c, threadId, t.token, CompactionResolved(t.completedItem.value), config);
      CompactionsMove(s, CompactionEnded(c, threadId, t), config);
    } else {
      TrackerUpdated(c, threadId, t, config);
      CompactionsMove(s, c.(manual := c.manual[threadId := t]), config);
    }
  }

  ghost function CompactionEnded(c: Compactions, threadId: Text, t: Tracker): Compactions
    requires t.completedItem.Some?
  {
    c.(manual := c.manual - {threadId}, endings := c.endings + 1,
       ended := c.ended[t.token := CompactionResolved(t.completedItem.value)])
  }

  lemma {:induction false} SecondCompletion(s: State, threadId: Text, t: Tracker)
    requires t.completedItem.Some? && t.turnCompleted && t.threadId == threadId
    ensures CompleteManual(WithTracker(s, threadId, t), t) == s.(compactions := CompactionEnded(s.compactions, threadId, t))
  {
    var c := s.compactions.(manual := s.compactions.manual[threadId := t]);
    CompactionEndedAlike(s.compactions, threadId, t);
    CompactionsReplaced(s, c, CompactionEnded(c, threadId, t));
  }

  lemma {:induction false} CompactionEndedAlike(c: Compactions, threadId: Text, t: Tracker)
    requires t.completedItem.Some?
    ensures CompactionEnded(c.(manual := c.manual[threadId := t]), threadId, t) == CompactionEnded(c, threadId, t)
  {
    assert c.manual[threadId := t] - {threadId} == c.manual - {threadId};
  }

  lemma {:induction false} CompactionsReplaced(s: State, c: Compactions, d: Compactions)
    ensures s.(compactions := c).(compactions := d) == s.(compactions := d)
  {
  }

  ghost function StartRecorded(c: Compactions, item: Compaction): Compactions {
    var known := item.threadId in c.manual;
    var d := c.(observed := c.observed[item.itemId := Observed(item, known)]);
    if known then d.(manual :=
      c.manual[item.threadId := c.manual[item.threadId].(itemId := Some(item.itemId), turnId := Some(item.turnId))])
    else d
  }

  lemma {:induction false} StartRecordedKeeps(c: Compactions, item: Compaction, config: Config)
    requires CompactionsInv(c, config) && item.itemId !in c.observed && |c.observed| < config.maximumObservedCompactions
    requires item.threadId in c.manual ==> c.manual[item.threadId].itemId.None?
    ensures CompactionsInv(StartRecorded(c, item), config) && EndingsExtend(c, StartRecorded(c, item))
  {
    var known := item.threadId in c.manual;
    var d := c.(observed := c.observed[item.itemId := Observed(item, known)]);
    if known {
      assert TrackerInv(item.threadId, c.manual[item.threadId]);
      TrackerUpdated(d, item.threadId, c.manual[item.threadId].(itemId := Some(item.itemId), turnId := Some(item.turnId)), config);
    }
  }

  lemma {:induction false} ObserveStartKeeps(s: State, item: Compaction, host: Host, config: Config)
    requires Inv(s, config)
    ensures Handled(s, ObserveStart(s, item, host, config), config)
  {
    var c := s.compactions;
    assert item.threadId in c.manual ==> TrackerInv(item.threadId, c.manual[item.threadId]);
    if item.itemId in c.observed || (item.threadId in c.manual && c.manual[item.threadId].itemId.Some?) {
      FailKeeps(s, PROTOCOL_CORRELATION, config);
      FailKeeps(s, PROTOCOL_LIMIT, config);
    } else if |c.observed| >= config.maximumObservedCompactions {
      FailKeeps(s, PROTOCOL_LIMIT, config);
    } else {
      StartRecordedKeeps(c, item, config);
      EmitKeeps(s, StartRecorded(c, item), host, config);
      assert ObserveStart(s, item, host, config) == EmitCompaction(s.(compactions := StartRecorded(c, item)), host);
    }
  }

  lemma {:induction false} EmitKeeps(s: State, c: Compactions, host: Host, config: Config)
    requires Inv(s, config) && CompactionsInv(c, config) && EndingsExtend(s.compactions, c)
    ensures Handled(s, EmitCompaction(s.(compactions := c), host), config)
  {
    CompactionsMove(s, c, config);
    FailKeeps(s.(compactions := c), HOST_HANDLER_FAILED, config);
  }

  lemma {:induction false} ObserveCompletionKeeps(s: State, item: Compaction, host: Host, config: Config)
    requires Inv(s, config)
    ensures Handled(s, ObserveCompletion(s, item, host), config)
  {
    var c := s.compactions;
    if item.itemId !in c.observed || c.observed[item.itemId].compaction.threadId != item.threadId ||
       c.observed[item.itemId].compaction.turnId != item.turnId {
      FailKeeps(s, PROTOCOL_CORRELATION, config);
    } else {
      var d := c.(observed := c.observed - {item.itemId});
      assert d.observed.Keys == c.observed.Keys - {item.itemId};
      EmitKeeps(s, d, host, config);
      var t := EmitCompaction(s.(compactions := d), host);
      if c.observed[item.itemId].requestedManual {
        ManualCompletionKeeps(t, item, config);
        HandledTwice(s, t, ManualCompletion(t, item), config);
      }
    }
  }

  ghost function ManualCompletion(s: State, item: Compaction): State {
    var manual := s.compactions.manual;
    if item.threadId !in manual || manual[item.threadId].itemId != Some(item.itemId) ||
       manual[item.threadId].turnId != Some(item.turnId)
    then Fail(s, PROTOCOL_CORRELATION)
    else
      var t := manual[item.threadId].(completedItem := Some(item));
      CompleteManual(WithTracker(s, item.threadId, t), t)
  }

  lemma {:induction false} ManualCompletionKeeps(s: State, item: Compaction, config: Config)
    requires Inv(s, config)
    ensures Handled(s, ManualCompletion(s, item), config)
  {
    var manual := s.compactions.manual;
    if item.threadId !in manual || manual[item.threadId].itemId != Some(item.itemId) ||
       manual[item.threadId].turnId != Some(item.turnId) {
      FailKeeps(s, PROTOCOL_CORRELATION, config);
    } else {
      assert TrackerInv(item.threadId, manual[item.threadId]);
      CompletionKeeps(s, item.threadId, manual[item.threadId].(completedItem := Some(item)), config);
    }
  }

  lemma {:induction false} ReceiveNotificationKeeps(s: State, message: Json, host: Host, config: Config)
    requires Inv(s, config)
    ensures Handled(s, ReceiveNotification(s, message, host, config), config)
  {
    var name := SafeString(Property(message, "method"), 256);
    if name.None? || name.value !in config.notificationMethods || !IsObject(Property(message, "params")) {
      FailKeeps(s, PROTOCOL_MALFORMED, config);
    } else if s.sequence == MAX_SAFE_INTEGER {
      FailKeeps(s, PROTOCOL_LIMIT, config);
    } else {
      AcceptedNotification(s, message, host, config);
      AcceptedNotificationKeeps(s, Observe(message), host, config);
    }
  }

  ghost predicate Accepts(s: State, message: Json, config: Config) {
    var name := SafeString(Property(message, "method"), 256);
    name.Some? && name.value in config.notificationMethods && IsObject(Property(message, "params")) && s.sequence != MAX_SAFE_INTEGER
  }

  lemma {:induction false} AcceptedNotification(s: State, message: Json, host: Host, config: Config)
    requires Accepts(s, message, config)
    ensures ReceiveNotification(s, message, host, config) ==
      NotifyHost(ObserveCompaction(s.(sequence := s.sequence + 1), Observe(message), host, config), host)
  {
  }

  lemma {:induction false} AcceptedNotificationKeeps(s: State, o: Observation, host: Host, config: Config)
    requires Inv(s, config) && s.sequence < MAX_SAFE_INTEGER
    ensures Handled(s, NotifyHost(ObserveCompaction(s.(sequence := s.sequence + 1), o, host, config), host), config)
  {
    var t := s.(sequence := s.sequence + 1);
    Counted(s, config);
    ObservationKeeps(t, o, host, config);
    NotifyKeeps(s, t, ObserveCompaction(t, o, host, config), host, config);
  }

  lemma {:induction false} Counted(s: State, config: Config)
    requires Inv(s, config) && s.sequence < MAX_SAFE_INTEGER
    ensures Handled(s, s.(sequence := s.sequence + 1), config)
  {
  }

  lemma {:induction false} NotifyKeeps(s: State, t: State, u: State, host: Host, config: Config)
    requires Handled(s, t, config) && Handled(t, u, config)
    ensures Handled(s, NotifyHost(u, host), config)
  {
    FailKeeps(u, HOST_HANDLER_FAILED, config);
    HandledTwice(s, t, u, config);
    HandledTwice(s, u, Fail(u, HOST_HANDLER_FAILED), config);
  }

  lemma {:induction false} HandledTwice(s: State, t: State, u: State, config: Config)
    requires Handled(s, t, config) && Handled(t, u, config)
    ensures Handled(s, u, config)
  {
  }

  lemma {:induction false} ObservationKeeps(s: State, o: Observation, host: Host, config: Config)
    requires Inv(s, config)
    ensures Handled(s, ObserveCompaction(s, o, host, config), config)
  {
    match o {
      case Irrelevant =>
      case Malformed => FailKeeps(s, PROTOCOL_MALFORMED, config);
      case TurnCompleted(threadId, turnId) => ObserveTurnKeeps(s, threadId, turnId, config);
      case ItemStarted(c) => ObserveStartKeeps(s, c, host, config);
      case ItemCompleted(c) => ObserveCompletionKeeps(s, c, host, config);
    }
  }

  lemma {:induction false} ReceiveKeeps(s: State, message: Json, host: Host, config: Config)
    requires Inv(s, config)
    ensures Handled(s, Receive(s, message, host, config), config)
  {
    var hasMethod, hasId := Property(message, "method").Some?, Property(message, "id").Some?;
    if !s.Open() {
    } else if !message.Obj? || Property(message, "jsonrpc").Some? {
      FailKeeps(s, PROTOCOL_MALFORMED, config);
    } else if !s.handshakeCompleted && hasMethod {
      FailKeeps(s, INITIALIZATION_FAILED, config);
    } else if hasMethod && hasId {
      ReceiveServerRequestKeeps(s, message, config);
    } else if hasMethod {
      ReceiveNotificationKeeps(s, message, host, config);
    } else if hasId {
      ReceiveResponseKeeps(s, message, host, config);
    } else {
      FailKeeps(s, PROTOCOL_MALFORMED, config);
    }
  }

  lemma {:induction false} RequestKeeps(s: State, name: Text, aborted: bool, timeoutValid: bool, config: Config)
    requires Inv(s, config)
    ensures Handled(s, Request(s, name, aborted, timeoutValid, config).0, config)
    ensures Request(s, name, aborted, timeoutValid, config).0.compactions == s.compactions
  {
    if !s.ready || s.requestedShutdown || s.closed || name !in config.stableMethods || aborted { return; }
    RequestInternalKeeps(s, name, timeoutValid, false, config);
  }

  lemma {:induction false} RequestIgnoresCompactions(s: State, c: Compactions, name: Text, config: Config)
    ensures var (t, result) := Request(s, name, false, true, config);
      Request(s.(compactions := c), name, false, true, config) == (t.(compactions := c), result)
  {
  }

  lemma {:induction false} CompactThreadKeeps(s: State, threadId: Text, config: Config)
    requires Inv(s, config)
    ensures Handled(s, CompactThread(s, threadId, config).0, config)
  {
    var c := s.compactions;
    if threadId == [] || Utf8Length(threadId) > 256 || threadId in c.manual ||
       |c.manual| >= config.maximumPendingManualCompactions {
    } else {
      var (t, result) := Request(s, Ascii("thread/compact/start"), false, true, config);
      RequestKeeps(s, Ascii("thread/compact/start"), false, true, config);
      var call := Call(threadId, result);
      TrackerAdded(c, threadId, call, config);
      var d := c.(manual := c.manual[threadId := NewTracker(c, threadId)], next := c.next + 1, calls := c.calls[c.next := call]);
      CompactionsMove(t, d, config);
      RequestIgnoresCompactions(s, c.(manual := c.manual[threadId := NewTracker(c, threadId)]),
        Ascii("thread/compact/start"), config);
    }
  }

  lemma {:induction false} CompactCaughtKeeps(s: State, token: nat, config: Config)
    requires Inv(s, config)
    ensures Handled(s, CompactCaught(s, token), config)
  {
    var c := s.compactions;
    if CallFailed(s, token) && c.calls[token].threadId in c.manual && c.manual[c.calls[token].threadId].token == token {
      TrackerEnded(c, c.calls[token].threadId, token, CompactionDropped, config);
      CompactionsMove(s, CompactCaught(s, token).compactions, config);
    }
  }

  lemma {:induction false} HandledProgress(s: State, e: Event, t: State, config: Config)
    requires Inv(s, config) && Handled(s, t, config)
    ensures Progress(s, e, t, config)
  {
  }

  lemma {:induction false} StepKeeps(s: State, e: Event, config: Config)
    requires Inv(s, config)
    ensures Progress(s, e, Step(s, e, config), config)
  {
    var t := Step(s, e, config);
    match e {
      case EInitialize =>
      case ESpawnSettled(spawned) => SpawnSettledKeeps(s, spawned, config);
      case EInitializeSettled => InitializeSettledKeeps(s, config);
      case EInitializedSent(error) => InitializedSentKeeps(s, error, config);
      case ERequest(name, aborted, timeoutValid) =>
        RequestKeeps(s, name, aborted, timeoutValid, config);
        HandledProgress(s, e, t, config);
      case EReceive(message, host) =>
        ReceiveKeeps(s, message, host, config);
        HandledProgress(s, e, t, config);
      case EFail(code) =>
        FailKeeps(s, code, config);
        HandledProgress(s, e, t, config);
      case EExit => ExitKeeps(s, config);
      case EShutdown => ShutdownKeeps(s, config);
      case EShutdownTimedOut =>
      case ECompact(threadId) =>
        CompactThreadKeeps(s, threadId, config);
        HandledProgress(s, e, t, config);
      case ECompactCaught(token) =>
        CompactCaughtKeeps(s, token, config);
        HandledProgress(s, e, t, config);
    }
  }

  // ---- Requests over whole runs ----

  lemma {:induction false} RunOneMore(es: seq<Event>, e: Event, config: Config)
    ensures Run(es + [e], config) == Step(Run(es, config), e, config)
  {
    assert (es + [e])[..|es|] == es;
  }

  // Every id issued is pending or settled, never both, and was settled once; the number of pending
  // requests stays within the limit.  The same holds for manual compactions.
  lemma {:induction false} RequestConservation(es: seq<Event>, config: Config)
    requires config.Valid()
    ensures Inv(Run(es, config), config)
  {
    if es == [] {
      assert Tokens(map[]) == {};
    } else {
      RequestConservation(es[..|es| - 1], config);
      StepKeeps(Run(es[..|es| - 1], config), es[|es| - 1], config);
    }
  }

  // The first failure, the fate of every settled request and of every ended compaction stand.
  lemma {:induction false} DecisionsStand(es: seq<Event>, more: seq<Event>, config: Config)
    requires config.Valid()
    ensures Extends(Run(es, config), Run(es + more, config))
    decreases |more|
  {
    if more == [] {
      assert es + more == es;
    } else {
      var fewer := more[..|more| - 1];
      DecisionsStand(es, fewer, config);
      assert es + more == (es + fewer) + [more[|more| - 1]];
      RunOneMore(es + fewer, more[|more| - 1], config);
      RequestConservation(es + fewer, config);
      StepKeeps(Run(es + fewer, config), more[|more| - 1], config);
    }
  }

  // `startAppServerClient` hands the client out only when `initialize` has ended, so no shutdown of
  // an open client comes before the request of `initialize`.
  ghost predicate ShutdownsWait(es: seq<Event>, config: Config) {
    forall i | 0 <= i < |es| && es[i].EShutdown? :: var s := Run(es[..i], config); !(Early(s) && s.Open())
  }

  lemma {:induction false} DrainedMove(s: State, t: State, config: Config)
    requires Inv(s, config) && Kept(s, t, config) && InitializationMove(s, t) && Drained(s)
    ensures Drained(t)
  {
    if s.initialization.AwaitingResponse? {
      assert NumberKey(1) in s.requests.pending || NumberKey(1) in s.requests.outcome;
      assert forall key | key in t.requests.pending :: key == NumberKey(1);
    }
  }

  lemma {:induction false} NothingPendingAfterTheEnd(es: seq<Event>, config: Config)
    requires config.Valid() && ShutdownsWait(es, config)
    ensures var s := Run(es, config); !s.Open() || s.requestedShutdown ==> Drained(s)
  {
    if es != [] {
      var before, e := es[..|es| - 1], es[|es| - 1];
      var s := Run(before, config);
      assert ShutdownsWait(before, config) by {
        forall i | 0 <= i < |before| && before[i].EShutdown? ensures !(Early(Run(before[..i], config)) && Run(before[..i], config).Open()) {
          assert before[..i] == es[..i];
        }
      }
      NothingPendingAfterTheEnd(before, config);
      RequestConservation(before, config);
      StepKeeps(s, e, config);
      if Drained(s) { DrainedMove(s, Step(s, e, config), config); }
    }
  }

  lemma {:induction false} DrainedForever(es: seq<Event>, more: seq<Event>, config: Config)
    requires config.Valid() && Drained(Run(es, config))
    ensures Drained(Run(es + more, config))
    decreases |more|
  {
    if more == [] {
      assert es + more == es;
    } else {
      var fewer, e := more[..|more| - 1], more[|more| - 1];
      DrainedForever(es, fewer, config);
      assert es + more == (es + fewer) + [e];
      RunOneMore(es + fewer, e, config);
      RequestConservation(es + fewer, config);
      StepKeeps(Run(es + fewer, config), e, config);
      DrainedMove(Run(es + fewer, config), Run(es + more, config), config);
    }
  }

  // Shut down, but `initialize` is still to send its request.
  predicate Reopens(s: State, config: Config) {
    Early(s) && s.Open() && s.requestedShutdown && |s.requests.pending| < config.maximumPendingRequests && s.requests.next == 1
  }

  lemma {:induction false} EarlyShutdown(s: State, config: Config)
    requires config.Valid() && Inv(s, config) && Early(s) && s.Open()
    ensures Reopens(Step(s, EShutdown, config), config)
  {
  }

  lemma {:induction false} ReopensByInitialize(s: State, config: Config)
    requires Reopens(s, config)
    ensures Reopens(Step(s, EInitialize, config), config) && Step(s, EInitialize, config).initialization.AwaitingSpawn?
  {
  }

  lemma {:induction false} ReopensBySpawn(s: State, config: Config)
    requires Reopens(s, config) && s.initialization.AwaitingSpawn?
    ensures NumberKey(1) in Step(s, ESpawnSettled(true), config).requests.pending
  {
  }

  // What a shutdown needs in order to be final: no request of `initialize` is still to be made, and none
  // was left behind when the client closed.
  ghost predicate ShutdownIsFinal(s: State) {
    !(Early(s) && s.Open()) && (s.closed ==> s.requests.pending.Keys == {})
  }

  lemma {:induction false} ShutdownDrains(s: State, config: Config)
    requires ShutdownIsFinal(s)
    ensures Drained(Step(s, EShutdown, config))
  {
  }

  // In any run, shutting down empties the table of pending requests for good exactly then.
  lemma {:induction false} ShutdownIsFinalExactly(es: seq<Event>, config: Config)
    requires config.Valid()
    ensures (forall more :: Run(es + [EShutdown] + more, config).requests.pending.Keys == {}) <==> ShutdownIsFinal(Run(es, config))
  {
    var s, down := Run(es, config), es + [EShutdown];
    RunOneMore(es, EShutdown, config);
    RequestConservation(es, config);
    if Early(s) && s.Open() {
      EarlyReopens(es, config);
      assert Run(down + [EInitialize, ESpawnSettled(true)], config).requests.pending.Keys != {};
    } else if ShutdownIsFinal(s) {
      ShutdownDrains(s, config);
      forall more ensures Run(down + more, config).requests.pending.Keys == {} {
        DrainedForever(down, more, config);
      }
    } else {
      assert Run(down, config) == s && down + [] == down;
    }
  }

  lemma {:induction false} ClosedStep(s: State, e: Event, config: Config)
    requires s.closed
    ensures Step(s, e, config).closed && Step(s, e, config).requests == s.requests
  {
  }

  // Once a client is closed, no request is made or settled any more, by a timer or otherwise.
  lemma {:induction false} ClosedSettlesNothing(es: seq<Event>, more: seq<Event>, config: Config)
    requires Run(es, config).closed
    ensures Run(es + more, config).closed && Run(es + more, config).requests == Run(es, config).requests
    decreases |more|
  {
    if more == [] {
      assert es + more == es;
    } else {
      var fewer, e := more[..|more| - 1], more[|more| - 1];
      ClosedSettlesNothing(es, fewer, config);
      assert es + more == (es + fewer) + [e];
      RunOneMore(es + fewer, e, config);
      ClosedStep(Run(es + fewer, config), e, config);
    }
  }

  lemma {:induction false} AbandonsInitialize(config: Config)
    requires config.Valid()
    ensures var s := Run([EInitialize, EShutdown, ESpawnSettled(true), EExit], config);
      s.closed && NumberKey(1) in s.requests.pending
  {
    var one, two := Step(START, EInitialize, config), Step(Step(START, EInitialize, config), EShutdown, config);
    RunOneMore([], EInitialize, config);
    RunOneMore([EInitialize], EShutdown, config);
    RunOneMore([EInitialize, EShutdown], ESpawnSettled(true), config);
    RunOneMore([EInitialize, EShutdown, ESpawnSettled(true)], EExit, config);
    assert [] + [EInitialize] == [EInitialize] && [EInitialize] + [EShutdown] == [EInitialize, EShutdown];
    assert [EInitialize, EShutdown] + [ESpawnSettled(true)] == [EInitialize, EShutdown, ESpawnSettled(true)];
    assert [EInitialize, EShutdown, ESpawnSettled(true)] + [EExit] == [EInitialize, EShutdown, ESpawnSettled(true), EExit];
    assert Run([], config) == START && Reopens(two, config) && two.initialization.AwaitingSpawn?;
  }

  // An input for the second conjunct: a client that is shut down before its process was spawned, and
  // whose process then exits, never settles the request of `initialize`.
  lemma {:induction false} InitializeIsNeverSettled(more: seq<Event>, config: Config)
    requires config.Valid()
    ensures NumberKey(1) in Run([EInitialize, EShutdown, ESpawnSettled(true), EExit] + more, config).requests.pending
  {
    AbandonsInitialize(config);
    ClosedSettlesNothing([EInitialize, EShutdown, ESpawnSettled(true), EExit], more, config);
  }

  lemma {:induction false} EarlyReopens(es: seq<Event>, config: Config)
    requires config.Valid() && Inv(Run(es, config), config) && Early(Run(es, config)) && Run(es, config).Open()
    ensures NumberKey(1) in Run(es + [EShutdown] + [EInitialize, ESpawnSettled(true)], config).requests.pending
  {
    var down := es + [EShutdown];
    var begun := down + [EInitialize];
    RunOneMore(es, EShutdown, config);
    EarlyShutdown(Run(es, config), config);
    RunOneMore(down, EInitialize, config);
    ReopensByInitialize(Run(down, config), config);
    RunOneMore(begun, ESpawnSettled(true), config);
    ReopensBySpawn(Run(begun, config), config);
    assert begun + [ESpawnSettled(true)] == down + [EInitialize, ESpawnSettled(true)];
  }
}
