// What one event does to the compactions of a client: which calls are taken up, what is on record of the
// starts, and that a failure or a shutdown ends everything.
module ClientTables {
  import opened Options
  import opened CodeUnits
  import opened JsonAccess
  import opened JsonValues
  import opened ClientModel
  import R = ClientRuns
  import H = ClientReadiness
  import F = ClientFailures

  // ---- Keys ----

  // A request is known by a text of at most 256 units, or by an integer below two to the power of 53.
  lemma {:induction false} KeysExactly(id: Option<Json>, t: Text, n: int)
    ensures KeyOf(id) == Some(StringKey(t)) <==> id == Some(Str(t)) && 1 <= |t| <= 256
    ensures KeyOf(id) == Some(NumberKey(n)) <==> id == Some(Num(Finite(n as real))) && -9007199254740992 < n < 9007199254740992
  {
    if id.Some? && id.value.Num? && id.value.n.Finite? {
      var x := id.value.n.x;
      assert (n as real).Floor == n;
      if x == x.Floor as real && x.Floor == n { assert x == n as real; }
    }
  }

  // ---- Calls ----

  predicate NamesThread(threadId: Text) { threadId != [] && Utf8Length(threadId) <= 256 }

  // The call is taken up: its tracker is registered, whatever becomes of its request.
  ghost predicate IsTakenUp(s: State, threadId: Text, config: Config) {
    NamesThread(threadId) && threadId !in s.compactions.manual && |s.compactions.manual| < config.maximumPendingManualCompactions
  }

  // Why a call is refused: for its thread, for a compaction of that thread, for the number of compactions,
  // or with the request that it makes.
  ghost predicate RefusesCall(es: seq<Event>, threadId: Text, code: ErrorCode, config: Config) {
    var s := Run(es, config);
    var requests := IsTakenUp(s, threadId, config) && H.Refuses(es, Ascii("thread/compact/start"), false, true, code, config);
    match code
    case PROTOCOL_MALFORMED => !NamesThread(threadId)
    case PROTOCOL_CORRELATION => NamesThread(threadId) && threadId in s.compactions.manual
    case PROTOCOL_LIMIT => (NamesThread(threadId) && threadId !in s.compactions.manual && !IsTakenUp(s, threadId, config)) || requests
    case _ => requests
  }

  lemma {:induction false} CallsExactly(es: seq<Event>, threadId: Text, config: Config)
    requires config.Valid()
    ensures var s := Run(es, config);
      var (t, result) := CompactThread(s, threadId, config);
      && (forall code :: result == Refused(code) <==> RefusesCall(es, threadId, code, config))
      && t.compactions == (if IsTakenUp(s, threadId, config) then
           s.compactions.(next := s.compactions.next + 1,
             calls := s.compactions.calls[s.compactions.next := Call(threadId, result)],
             manual := s.compactions.manual[threadId := Tracker(s.compactions.next, threadId, None, None, None, false)])
         else s.compactions)
  {
    H.RequestsExactly(es, Ascii("thread/compact/start"), false, true, config);
    if IsTakenUp(Run(es, config), threadId, config) { TakenUp(Run(es, config), threadId, config); }
  }

  lemma {:induction false} TakenUp(s: State, threadId: Text, config: Config)
    requires IsTakenUp(s, threadId, config)
    ensures var (t, result) := CompactThread(s, threadId, config);
      && result == Request(s, Ascii("thread/compact/start"), false, true, config).1
      && t.compactions == s.compactions.(next := s.compactions.next + 1,
           calls := s.compactions.calls[s.compactions.next := Call(threadId, result)],
           manual := s.compactions.manual[threadId := Tracker(s.compactions.next, threadId, None, None, None, false)])
  {
    var token := s.compactions.next;
    var tracked := WithTracker(s, threadId, Tracker(token, threadId, None, None, None, false));
    R.RequestIgnoresCompactions(s, tracked.compactions, Ascii("thread/compact/start"), config);
  }

  // A call that did not succeed drops its own tracker, if it is still there, and no other.
  lemma {:induction false} CaughtDrops(s: State, token: nat)
    requires token in s.compactions.calls
    ensures var t, threadId := CompactCaught(s, token), s.compactions.calls[token].threadId;
      && (forall other | other != threadId :: other in t.compactions.manual <==> other in s.compactions.manual)
      && (forall other | other != threadId && other in s.compactions.manual :: t.compactions.manual[other] == s.compactions.manual[other])
      && (if CallFailed(s, token) && threadId in s.compactions.manual && s.compactions.manual[threadId].token == token then
            threadId !in t.compactions.manual && t.compactions.ended == s.compactions.ended[token := CompactionDropped]
          else t == s)
  {
  }

  // ---- Failures clear ----

  // When the client fails, no compaction stays tracked or on record.
  predicate Clears(s: State, t: State) {
    s.failure.None? && t.failure.Some? ==> t.compactions.manual == map[] && t.compactions.observed == map[]
  }

  lemma {:induction false} FailClears(s: State, u: State, code: ErrorCode)
    requires s.Open() && Clears(s, u) && u.closed == s.closed
    ensures Clears(s, Fail(u, code)) && Fail(u, code).closed == s.closed
  {
  }

  lemma {:induction false} TrackerClears(s: State, u: State, threadId: Text, tracker: Tracker)
    requires s.Open() && u.Open()
    ensures var t := CompleteManual(WithTracker(u, threadId, tracker), tracker); Clears(s, t) && t.closed == s.closed
  {
    FailClears(s, WithTracker(u, threadId, tracker), PROTOCOL_CORRELATION);
  }

  lemma {:induction false} ManualClears(s: State, u: State, c: Compaction)
    requires s.Open() && Clears(s, u) && u.closed == s.closed
    ensures Clears(s, R.ManualCompletion(u, c)) && R.ManualCompletion(u, c).closed == s.closed
  {
    FailClears(s, u, PROTOCOL_CORRELATION);
    if u.Open() && c.threadId in u.compactions.manual {
      TrackerClears(s, u, c.threadId, u.compactions.manual[c.threadId].(completedItem := Some(c)));
    }
  }

  lemma {:induction false} CompletionClears(s: State, c: Compaction, host: Host)
    requires s.Open()
    ensures Clears(s, ObserveCompletion(s, c, host)) && ObserveCompletion(s, c, host).closed == s.closed
  {
    FailClears(s, s, PROTOCOL_CORRELATION);
    if F.IsRecorded(s, c) {
      var t := s.(compactions := s.compactions.(observed := s.compactions.observed - {c.itemId}));
      FailClears(s, t, HOST_HANDLER_FAILED);
      if s.compactions.observed[c.itemId].requestedManual { ManualClears(s, EmitCompaction(t, host), c); }
    }
  }

  lemma {:induction false} ObservationClears(s: State, o: Observation, host: Host, config: Config)
    requires s.Open()
    ensures var t := ObserveCompaction(s, o, host, config); Clears(s, t) && t.closed == s.closed
  {
    FailClears(s, s, PROTOCOL_CORRELATION);
    FailClears(s, s, PROTOCOL_LIMIT);
    FailClears(s, s, PROTOCOL_MALFORMED);
    match o {
      case TurnCompleted(threadId, turnId) =>
        if threadId in s.compactions.manual { TrackerClears(s, s, threadId, s.compactions.manual[threadId].(turnCompleted := true)); }
      case ItemStarted(c) =>
        FailClears(s, s.(compactions := R.StartRecorded(s.compactions, c)), HOST_HANDLER_FAILED);
        if H.Starts(s, c, config) { H.StartIs(s, c, host, config); }
      case ItemCompleted(c) => CompletionClears(s, c, host);
      case _ =>
    }
  }

  lemma {:induction false} NotificationClears(s: State, m: Json, host: Host, config: Config)
    requires s.Open()
    ensures Clears(s, ReceiveNotification(s, m, host, config))
  {
    FailClears(s, s, PROTOCOL_MALFORMED);
    FailClears(s, s, PROTOCOL_LIMIT);
    if R.Accepts(s, m, config) {
      R.AcceptedNotification(s, m, host, config);
      var t := s.(sequence := s.sequence + 1);
      ObservationClears(t, Observe(m), host, config);
      FailClears(t, ObserveCompaction(t, Observe(m), host, config), HOST_HANDLER_FAILED);
    }
  }

  lemma {:induction false} MessageClears(s: State, m: Json, host: Host, config: Config)
    requires s.Open()
    ensures Clears(s, Receive(s, m, host, config))
  {
    F.ReceivesDispatched(s, m, host, config);
    FailClears(s, s, PROTOCOL_MALFORMED);
    FailClears(s, s, INITIALIZATION_FAILED);
    FailClears(s, s, PROTOCOL_CORRELATION);
    if F.IsMessage(m) && F.IsAdmitted(s, m) {
      if F.IsResponse(m) {
        ResponseClears(s, m, host);
      } else if !F.IsServerRequest(m) {
        NotificationClears(s, m, host, config);
      }
    }
  }

  lemma {:induction false} ResponseClears(s: State, m: Json, host: Host)
    requires s.Open()
    ensures Clears(s, ReceiveResponse(s, m, host))
  {
    FailClears(s, s, PROTOCOL_MALFORMED);
    FailClears(s, s, PROTOCOL_CORRELATION);
    if F.IsAwaited(s, m) {
      var key := KeyOf(Property(m, "id")).value;
      FailClears(s, Settle(s, key, Rejected(PROTOCOL_MALFORMED)), PROTOCOL_MALFORMED);
      FailClears(s, Settle(s, key, Rejected(MALFORMED_RESPONSE)), MALFORMED_RESPONSE);
    }
  }

  // A failure other than that of a shutdown which timed out, and a shutdown, leave no compaction tracked
  // and none on record.
  lemma {:induction false} EndsClear(s: State, e: Event, config: Config)
    requires R.Inv(s, config) && config.Valid()
    ensures var t := Step(s, e, config);
      && (!e.EShutdownTimedOut? ==> Clears(s, t))
      && (e.EShutdown? && !s.closed ==> t.compactions.manual == map[] && t.compactions.observed == map[])
  {
    match e {
      case EReceive(m, host) => if s.Open() { MessageClears(s, m, host, config); }
      case ECompact(threadId) => F.CompactFailsNot(s, threadId, config);
      case ESpawnSettled(spawned) => if s.Open() { F.SpawnFailsNot(s, spawned, config); }
      case _ => OtherEndsClear(s, e, config);
    }
  }

  lemma {:induction false} OtherEndsClear(s: State, e: Event, config: Config)
    requires !e.EReceive? && !e.ECompact? && !e.ESpawnSettled?
    ensures var t := Step(s, e, config);
      && (!e.EShutdownTimedOut? ==> Clears(s, t))
      && (e.EShutdown? && !s.closed ==> t.compactions.manual == map[] && t.compactions.observed == map[])
  {
  }

  // ---- The starts on record ----

  // The starts that are on record after an observation: a new one with its tracker or without, and without
  // one that was completed.
  ghost function OnRecord(s: State, o: Observation): map<Text, Observed> {
    match o
    case ItemStarted(c) => s.compactions.observed[c.itemId := Observed(c, c.threadId in s.compactions.manual)]
    case ItemCompleted(c) => s.compactions.observed - {c.itemId}
    case _ => s.compactions.observed
  }

  lemma {:induction false} ManualRecords(u: State, threadId: Text, tracker: Tracker)
    ensures var t := CompleteManual(WithTracker(u, threadId, tracker), tracker);
      t.failure == u.failure ==> t.compactions.observed == u.compactions.observed
  {
  }

  lemma {:induction false} CompletionRecords(s: State, c: Compaction, host: Host)
    requires s.Open()
    ensures var t := ObserveCompletion(s, c, host); t.failure.None? ==> t.compactions.observed == OnRecord(s, ItemCompleted(c))
  {
    if F.IsRecorded(s, c) && !host.compactionHandlerThrows && s.compactions.observed[c.itemId].requestedManual {
      var u := s.(compactions := s.compactions.(observed := s.compactions.observed - {c.itemId}));
      if c.threadId in u.compactions.manual { ManualRecords(u, c.threadId, u.compactions.manual[c.threadId].(completedItem := Some(c))); }
      assert ObserveCompletion(s, c, host) == R.ManualCompletion(u, c);
    }
  }

  lemma {:induction false} ObservationRecords(s: State, o: Observation, host: Host, config: Config)
    requires s.Open()
    ensures var t := ObserveCompaction(s, o, host, config); t.failure.None? ==> t.compactions.observed == OnRecord(s, o)
  {
    match o {
      case TurnCompleted(threadId, turnId) =>
        if threadId in s.compactions.manual { ManualRecords(s, threadId, s.compactions.manual[threadId].(turnCompleted := true)); }
      case ItemStarted(c) => if H.Starts(s, c, config) { H.StartIs(s, c, host, config); }
      case ItemCompleted(c) => CompletionRecords(s, c, host);
      case _ =>
    }
  }

  // As long as the client does not fail, a notification that counts is put on record, and nothing else is.
  lemma {:induction false} RecordsExactly(s: State, m: Json, host: Host, config: Config)
    requires R.Inv(s, config) && s.Open() && Receive(s, m, host, config).failure.None?
    ensures Receive(s, m, host, config).compactions.observed ==
      if F.IsCounted(s, m, config) then OnRecord(s, Observe(m)) else s.compactions.observed
  {
    F.ReceivesDispatched(s, m, host, config);
    if !F.IsMessage(m) || !F.IsAdmitted(s, m) {
    } else if F.IsResponse(m) {
      ResponseRecords(s, m, host);
    } else if !F.IsServerRequest(m) {
      NotificationRecords(s, m, host, config);
    }
  }

  lemma {:induction false} ResponseRecords(s: State, m: Json, host: Host)
    ensures var t := ReceiveResponse(s, m, host); t.failure.None? ==> t.compactions == s.compactions
  {
    var id := KeyOf(Property(m, "id"));
    if id.None? || id.value !in s.requests.pending {
      FailRecords(s, PROTOCOL_CORRELATION);
    } else if F.Has(m, "result") <==> F.Has(m, "error") {
      FailRecords(s, PROTOCOL_MALFORMED);
    } else if F.Has(m, "error") {
      FailRecords(Settle(s, id.value, Rejected(PROTOCOL_MALFORMED)), PROTOCOL_MALFORMED);
    } else if !host.decodes {
      FailRecords(Settle(s, id.value, Rejected(MALFORMED_RESPONSE)), MALFORMED_RESPONSE);
    }
  }

  lemma {:induction false} FailRecords(s: State, code: ErrorCode)
    ensures Fail(s, code).failure.None? ==> Fail(s, code).compactions == s.compactions
  {
  }

  lemma {:induction false} NotificationRecords(s: State, m: Json, host: Host, config: Config)
    requires R.Inv(s, config) && s.Open() && F.IsAdmitted(s, m) && IsNotification(m)
    requires ReceiveNotification(s, m, host, config).failure.None?
    ensures F.IsCounted(s, m, config) && ReceiveNotification(s, m, host, config).compactions.observed == OnRecord(s, Observe(m))
  {
    assert R.Accepts(s, m, config);
    R.AcceptedNotification(s, m, host, config);
    ObservationRecords(s.(sequence := s.sequence + 1), Observe(m), host, config);
  }
}
