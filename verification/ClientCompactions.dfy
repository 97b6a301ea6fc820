// Whole runs of the client: which events must have happened before a manual compaction resolves.
module ClientCompactions {
  import opened Options
  import opened CodeUnits
  import opened JsonAccess
  import opened JsonValues
  import opened ClientModel
  import R = ClientRuns

  // ---- One observation ----

  // How the tracker of a thread that is still in the table came from the one before.
  ghost predicate TrackerMove(manual: map<Text, Tracker>, o: Observation, threadId: Text, t: Tracker) {
    threadId in manual && Advances(manual[threadId], o, threadId, t)
  }

  ghost predicate Advances(was: Tracker, o: Observation, threadId: Text, t: Tracker) {
    || (t == was && !StartsOn(o, threadId))
    || (StartsOn(o, threadId) && was.itemId.None? &&
        t == was.(itemId := Some(o.item.itemId), turnId := Some(o.item.turnId)))
    || (Completes(was, o, threadId) && t == was.(completedItem := Some(o.item)))
    || (EndsTurn(was, o, threadId) && t == was.(turnCompleted := true))
  }

  ghost predicate Completes(t: Tracker, o: Observation, threadId: Text) {
    o.ItemCompleted? && o.item.threadId == threadId && t.itemId == Some(o.item.itemId) && t.turnId == Some(o.item.turnId)
  }

  ghost predicate EndsTurn(t: Tracker, o: Observation, threadId: Text) {
    o.TurnCompleted? && o.threadId == threadId && t.turnId == Some(o.turnId)
  }

  // The observation that resolves a tracker is the second of its two completions.
  ghost predicate ResolvingMove(manual: map<Text, Tracker>, o: Observation, token: nat, c: Compaction) {
    c.threadId in manual && var t := manual[c.threadId];
    && t.token == token
    && (|| (EndsTurn(t, o, c.threadId) && t.completedItem == Some(c))
        || (Completes(t, o, c.threadId) && t.turnCompleted && o.item == c))
  }

  ghost predicate Resolves(c: Compactions, d: Compactions, token: nat) {
    token in d.ended && token !in c.ended && d.ended[token].CompactionResolved?
  }

  ghost predicate Moved(c: Compactions, o: Observation, d: Compactions) {
    && d.next == c.next
    && forall threadId | threadId in d.manual :: TrackerMove(c.manual, o, threadId, d.manual[threadId])
  }

  ghost predicate Resolving(c: Compactions, o: Observation, d: Compactions) {
    forall token | Resolves(c, d, token) :: ResolvingMove(c.manual, o, token, d.ended[token].result)
  }

  ghost predicate ObservationMove(s: State, o: Observation, t: State) {
    (t.Open() ==> Moved(s.compactions, o, t.compactions)) && Resolving(s.compactions, o, t.compactions)
  }

  lemma {:induction false} FailMoves(s: State, o: Observation, t: State, code: ErrorCode)
    requires Resolving(s.compactions, o, t.compactions)
    ensures ObservationMove(s, o, Fail(t, code)) || !t.Open()
    ensures Resolving(s.compactions, o, Fail(t, code).compactions)
  {
    SetEachIs(t.compactions.ended, Tokens(t.compactions.manual), CompactionRejected);
    forall token | Resolves(s.compactions, Fail(t, code).compactions, token)
      ensures Resolves(s.compactions, t.compactions, token) &&
        t.compactions.ended[token] == Fail(t, code).compactions.ended[token]
    {
    }
  }

  predicate StartsOn(o: Observation, threadId: Text) { o.ItemStarted? && o.item.threadId == threadId }

  lemma {:induction false} TrackerMoves(c: Compactions, o: Observation, threadId: Text, t: Tracker)
    requires TrackerMove(c.manual, o, threadId, t)
    requires forall other | other in c.manual && other != threadId :: !StartsOn(o, other)
    ensures Moved(c, o, c.(manual := c.manual[threadId := t]))
    ensures Resolving(c, o, c.(manual := c.manual[threadId := t]))
  {
  }

  lemma {:induction false} TrackerResolves(c: Compactions, o: Observation, token: nat, item: Compaction)
    requires ResolvingMove(c.manual, o, token, item) && !o.ItemStarted?
    ensures var d := c.(manual := c.manual - {item.threadId}, endings := c.endings + 1, ended := c.ended[token := CompactionResolved(item)]);
      Moved(c, o, d) && Resolving(c, o, d)
  {
  }

  lemma {:induction false} NothingMoves(c: Compactions, o: Observation)
    requires forall threadId | threadId in c.manual :: !StartsOn(o, threadId)
    ensures Moved(c, o, c) && Resolving(c, o, c)
  {
  }

  lemma {:induction false} ObserveTurnMove(s: State, threadId: Text, turnId: Text, config: Config)
    requires R.CompactionsInv(s.compactions, config) && s.Open()
    ensures ObservationMove(s, TurnCompleted(threadId, turnId), ObserveTurn(s, threadId, turnId))
  {
    var c, o := s.compactions, TurnCompleted(threadId, turnId);
    NothingMoves(c, o);
    if threadId !in c.manual || c.manual[threadId].turnId != Some(turnId) { return; }
    var was := c.manual[threadId];
    assert R.TrackerInv(threadId, was);
    if was.turnCompleted {
      FailMoves(s, o, s, PROTOCOL_CORRELATION);
    } else {
      CompletionMoves(s, o, threadId, was.(turnCompleted := true));
    }
  }

  lemma {:induction false} CompletionMoves(s: State, o: Observation, threadId: Text, t: Tracker)
    requires s.Open() && !o.ItemStarted? && TrackerMove(s.compactions.manual, o, threadId, t) && t.threadId == threadId
    requires t.completedItem.Some? && t.turnCompleted ==>
      t.completedItem.value.threadId == threadId && ResolvingMove(s.compactions.manual, o, t.token, t.completedItem.value)
    ensures ObservationMove(s, o, CompleteManual(WithTracker(s, threadId, t), t))
  {
    var c := s.compactions;
    if t.completedItem.Some? && t.turnCompleted {
      assert c.manual[threadId := t] - {threadId} == c.manual - {threadId};
      TrackerResolves(c, o, t.token, t.completedItem.value);
    } else {
      TrackerMoves(c, o, threadId, t);
    }
  }

  lemma {:induction false} ObserveStartMove(s: State, item: Compaction, host: Host, config: Config)
    requires R.CompactionsInv(s.compactions, config) && s.Open()
    ensures ObservationMove(s, ItemStarted(item), ObserveStart(s, item, host, config))
  {
    var c, o := s.compactions, ItemStarted(item);
    assert Resolving(c, o, c);
    var known := item.threadId in c.manual;
    if known { assert R.TrackerInv(item.threadId, c.manual[item.threadId]); }
    if item.itemId in c.observed || (known && c.manual[item.threadId].itemId.Some?) || |c.observed| >= config.maximumObservedCompactions {
      FailMoves(s, o, s, PROTOCOL_CORRELATION);
      FailMoves(s, o, s, PROTOCOL_LIMIT);
    } else {
      StartRecordedMoves(c, item);
      var t := s.(compactions := R.StartRecorded(c, item));
      FailMoves(s, o, t, HOST_HANDLER_FAILED);
      assert ObserveStart(s, item, host, config) == EmitCompaction(t, host);
    }
  }

  lemma {:induction false} StartRecordedMoves(c: Compactions, item: Compaction)
    requires item.threadId in c.manual ==> c.manual[item.threadId].itemId.None?
    ensures Moved(c, ItemStarted(item), R.StartRecorded(c, item)) && Resolving(c, ItemStarted(item), R.StartRecorded(c, item))
  {
  }

  lemma {:induction false} ObserveCompletionMove(s: State, item: Compaction, host: Host, config: Config)
    requires R.CompactionsInv(s.compactions, config) && s.Open()
    ensures ObservationMove(s, ItemCompleted(item), ObserveCompletion(s, item, host))
  {
    var c, o := s.compactions, ItemCompleted(item);
    NothingMoves(c, o);
    if item.itemId !in c.observed || c.observed[item.itemId].compaction.threadId != item.threadId ||
       c.observed[item.itemId].compaction.turnId != item.turnId {
      FailMoves(s, o, s, PROTOCOL_CORRELATION);
    } else {
      var t := s.(compactions := c.(observed := c.observed - {item.itemId}));
      if host.compactionHandlerThrows {
        FailMoves(s, o, t, HOST_HANDLER_FAILED);
        assert ObserveCompletion(s, item, host) == Fail(t, HOST_HANDLER_FAILED);
      } else if c.observed[item.itemId].requestedManual {
        ManualCompletionMoves(t, item, config);
        assert ObserveCompletion(s, item, host) == R.ManualCompletion(t, item);
      }
    }
  }

  lemma {:induction false} ManualCompletionMoves(s: State, item: Compaction, config: Config)
    requires R.CompactionsInv(s.compactions, config) && s.Open()
    ensures ObservationMove(s, ItemCompleted(item), R.ManualCompletion(s, item))
  {
    var manual, o := s.compactions.manual, ItemCompleted(item);
    NothingMoves(s.compactions, o);
    if item.threadId !in manual || manual[item.threadId].itemId != Some(item.itemId) ||
       manual[item.threadId].turnId != Some(item.turnId) {
      FailMoves(s, o, s, PROTOCOL_CORRELATION);
    } else {
      assert R.TrackerInv(item.threadId, manual[item.threadId]);
      CompletionMoves(s, o, item.threadId, manual[item.threadId].(completedItem := Some(item)));
    }
  }

  // ---- One event ----

  ghost function ObservationOf(e: Event): Observation {
    if e.EReceive? && IsNotification(e.message) then Observe(e.message) else Irrelevant
  }

  ghost predicate Creates(c: Compactions, e: Event, threadId: Text, d: Compactions) {
    && e == ECompact(threadId) && threadId !in c.manual && d.next == c.next + 1
    && threadId in d.manual && d.manual[threadId] == R.NewTracker(c, threadId)
  }

  ghost predicate StepMove(s: State, e: Event, t: State) {
    var c, d, o := s.compactions, t.compactions, ObservationOf(e);
    && Resolving(c, o, d)
    && (t.Open() ==>
      && s.Open()
      && (forall threadId | threadId in d.manual :: TrackerMove(c.manual, o, threadId, d.manual[threadId]) || Creates(c, e, threadId, d)))
  }

  lemma {:induction false} RejectionMoves(s: State, e: Event, t: State)
    requires t.compactions == RejectCompactions(s.compactions) && (t.Open() ==> s.Open())
    ensures StepMove(s, e, t)
  {
    SetEachIs(s.compactions.ended, Tokens(s.compactions.manual), CompactionRejected);
  }

  lemma {:induction false} NothingHappens(s: State, e: Event, t: State)
    requires t.compactions == s.compactions && (t.Open() ==> s.Open()) && (t.Open() ==> !ObservationOf(e).ItemStarted?)
    ensures StepMove(s, e, t)
  {
  }

  lemma {:induction false} FailedMove(s: State, e: Event, t: State, code: ErrorCode)
    requires t.compactions == s.compactions && t.Open() == s.Open()
    ensures Fail(t, code).Open() == false
    ensures StepMove(s, e, Fail(t, code))
  {
    if t.Open() { RejectionMoves(s, e, Fail(t, code)); } else { NothingHappens(s, e, t); }
  }

  lemma {:induction false} ReceiveMove(s: State, message: Json, host: Host, config: Config)
    requires R.Inv(s, config)
    ensures StepMove(s, EReceive(message, host), Receive(s, message, host, config))
  {
    var e := EReceive(message, host);
    var hasMethod, hasId := Property(message, "method").Some?, Property(message, "id").Some?;
    if !s.Open() {
      NothingHappens(s, e, s);
    } else if !message.Obj? || Property(message, "jsonrpc").Some? {
      FailedMove(s, e, s, PROTOCOL_MALFORMED);
    } else if !s.handshakeCompleted && hasMethod {
      FailedMove(s, e, s, INITIALIZATION_FAILED);
    } else if hasMethod && hasId {
      ServerRequestMove(s, message, host, config);
    } else if hasMethod {
      NotificationMove(s, message, host, config);
    } else if hasId {
      ResponseMove(s, message, host, config);
    } else {
      FailedMove(s, e, s, PROTOCOL_MALFORMED);
    }
  }

  lemma {:induction false} ServerRequestMove(s: State, message: Json, host: Host, config: Config)
    requires s.Open() && !IsNotification(message)
    ensures StepMove(s, EReceive(message, host), ReceiveServerRequest(s, message, config))
  {
    var e := EReceive(message, host);
    FailedMove(s, e, s, PROTOCOL_MALFORMED);
    FailedMove(s, e, s, PROTOCOL_CORRELATION);
    var t := ReceiveServerRequest(s, message, config);
    if t.Open() { NothingHappens(s, e, t); }
  }

  lemma {:induction false} ResponseMove(s: State, message: Json, host: Host, config: Config)
    requires s.Open() && !IsNotification(message)
    ensures StepMove(s, EReceive(message, host), ReceiveResponse(s, message, host))
  {
    var e := EReceive(message, host);
    var id := KeyOf(Property(message, "id"));
    var result, error := Property(message, "result"), Property(message, "error");
    if id.None? || id.value !in s.requests.pending {
      FailedMove(s, e, s, PROTOCOL_CORRELATION);
    } else if result.Some? == error.Some? {
      FailedMove(s, e, s, PROTOCOL_MALFORMED);
    } else if error.Some? {
      NothingHappens(s, e, Settle(s, id.value, Rejected(REQUEST_REJECTED)));
      FailedMove(s, e, Settle(s, id.value, Rejected(PROTOCOL_MALFORMED)), PROTOCOL_MALFORMED);
    } else if host.decodes {
      NothingHappens(s, e, ReceiveResponse(s, message, host));
    } else {
      FailedMove(s, e, Settle(s, id.value, Rejected(MALFORMED_RESPONSE)), MALFORMED_RESPONSE);
    }
  }

  lemma {:induction false} NotificationMove(s: State, message: Json, host: Host, config: Config)
    requires R.Inv(s, config) && s.Open() && IsNotification(message)
    ensures StepMove(s, EReceive(message, host), ReceiveNotification(s, message, host, config))
  {
    var e, o := EReceive(message, host), Observe(message);
    if !R.Accepts(s, message, config) {
      FailedMove(s, e, s, PROTOCOL_MALFORMED);
      FailedMove(s, e, s, PROTOCOL_LIMIT);
    } else {
      var t := s.(sequence := s.sequence + 1);
      R.AcceptedNotification(s, message, host, config);
      AnObservationMoves(t, o, host, config);
      NotifiedMoves(t, o, ObserveCompaction(t, o, host, config), host);
    }
  }

  lemma {:induction false} NotifiedMoves(s: State, o: Observation, t: State, host: Host)
    requires s.Open() && ObservationMove(s, o, t)
    ensures ObservationMove(s, o, NotifyHost(t, host))
  {
    FailMoves(s, o, t, HOST_HANDLER_FAILED);
  }

  lemma {:induction false} AnObservationMoves(s: State, o: Observation, host: Host, config: Config)
    requires R.CompactionsInv(s.compactions, config) && s.Open()
    ensures ObservationMove(s, o, ObserveCompaction(s, o, host, config))
  {
    match o {
      case Irrelevant => NothingMoves(s.compactions, o);
      case Malformed => FailMoves(s, o, s, PROTOCOL_MALFORMED);
      case TurnCompleted(threadId, turnId) => ObserveTurnMove(s, threadId, turnId, config);
      case ItemStarted(c) => ObserveStartMove(s, c, host, config);
      case ItemCompleted(c) => ObserveCompletionMove(s, c, host, config);
    }
  }

  lemma {:induction false} StepMoves(s: State, e: Event, config: Config)
    requires R.Inv(s, config)
    ensures StepMove(s, e, Step(s, e, config))
  {
    var t := Step(s, e, config);
    match e {
      case EReceive(message, host) => ReceiveMove(s, message, host, config);
      case EFail(code) => FailedMove(s, e, s, code);
      case EExit => EndMoves(s, e, t, config);
      case EShutdown => EndMoves(s, e, t, config);
      case ECompact(threadId) => CompactMove(s, threadId, config);
      case ECompactCaught(token) => CaughtMove(s, token, config);
      case _ => PhaseMoves(s, e, config);
    }
  }

  lemma {:induction false} EndMoves(s: State, e: Event, t: State, config: Config)
    requires (e.EExit? && t == Exit(s)) || (e.EShutdown? && t == Shutdown(s))
    ensures StepMove(s, e, t)
  {
    if t.compactions == s.compactions { NothingHappens(s, e, t); } else { RejectionMoves(s, e, t); }
  }

  lemma {:induction false} PhaseMoves(s: State, e: Event, config: Config)
    requires e.EInitialize? || e.ESpawnSettled? || e.EInitializeSettled? || e.EInitializedSent? || e.ERequest? || e.EShutdownTimedOut?
    ensures StepMove(s, e, Step(s, e, config))
  {
    var t := Step(s, e, config);
    if t.compactions == s.compactions { NothingHappens(s, e, t); } else { RejectionMoves(s, e, t); }
  }

  lemma {:induction false} CompactMove(s: State, threadId: Text, config: Config)
    ensures StepMove(s, ECompact(threadId), CompactThread(s, threadId, config).0)
  {
    var t := CompactThread(s, threadId, config).0;
    assert t.Open() == s.Open();
  }

  lemma {:induction false} CaughtMove(s: State, token: nat, config: Config)
    requires R.CompactionsInv(s.compactions, config)
    ensures StepMove(s, ECompactCaught(token), CompactCaught(s, token))
  {
  }

  // ---- Histories ----

  // The event that created the tracker with this token.
  ghost predicate Requested(es: seq<Event>, r: nat, token: nat, threadId: Text, config: Config) {
    && r < |es| && es[r] == ECompact(threadId)
    && Run(es[..r], config).compactions.next == token && Run(es[..r + 1], config).compactions.next == token + 1
  }

  // Among the events after r and before n, only the one at i starts a compaction on the thread.
  ghost predicate OnlyStart(es: seq<Event>, threadId: Text, r: nat, n: nat, i: nat) {
    forall m | r < m < n <= |es| && StartsOn(ObservationOf(es[m]), threadId) :: m == i
  }

  // Where the lifecycle of a manual compaction is found in a run: its request, its start, the
  // completion of its item and the completion of its turn.
  datatype Lifecycle = Lifecycle(requested: nat, started: nat, completed: nat, turnEnded: nat)

  ghost predicate Half(es: seq<Event>, t: Tracker, w: Lifecycle, config: Config) {
    && Requested(es, w.requested, t.token, t.threadId, config)
    && (t.itemId.None? ==> OnlyStart(es, t.threadId, w.requested, |es|, w.requested))
    && (t.itemId.Some? && t.turnId.Some? ==>
      var item := Compaction(t.itemId.value, t.threadId, t.turnId.value);
      && w.requested < w.started < |es| && ObservationOf(es[w.started]) == ItemStarted(item)
      && OnlyStart(es, t.threadId, w.requested, |es|, w.started)
      && (t.completedItem.Some? ==> w.started < w.completed < |es| && ObservationOf(es[w.completed]) == ItemCompleted(item))
      && (t.turnCompleted ==>
        w.started < w.turnEnded < |es| && ObservationOf(es[w.turnEnded]) == TurnCompleted(t.threadId, t.turnId.value)))
  }

  // The whole lifecycle of a resolved compaction; the later of the two completions resolved it.
  ghost predicate Whole(es: seq<Event>, token: nat, item: Compaction, w: Lifecycle, config: Config) {
    && Requested(es, w.requested, token, item.threadId, config)
    && w.requested < w.started < w.completed < |es| && w.started < w.turnEnded < |es| && w.completed != w.turnEnded
    && ObservationOf(es[w.started]) == ItemStarted(item)
    && ObservationOf(es[w.completed]) == ItemCompleted(item)
    && ObservationOf(es[w.turnEnded]) == TurnCompleted(item.threadId, item.turnId)
    && var last := if w.completed < w.turnEnded then w.turnEnded else w.completed;
    && OnlyStart(es, item.threadId, w.requested, last, w.started)
    && EndedAt(es, last, token, config)
  }

  ghost predicate EndedAt(es: seq<Event>, n: nat, token: nat, config: Config) {
    n < |es| && token !in Run(es[..n], config).compactions.ended && token in Run(es[..n + 1], config).compactions.ended
  }

  ghost predicate TrackersHaveHistory(es: seq<Event>, config: Config) {
    var c := Run(es, config).compactions;
    forall threadId | threadId in c.manual :: exists w :: Half(es, c.manual[threadId], w, config)
  }

  lemma {:induction false} RequestedEarlier(es: seq<Event>, e: Event, r: nat, token: nat, threadId: Text, config: Config)
    requires Requested(es, r, token, threadId, config)
    ensures Requested(es + [e], r, token, threadId, config)
  {
    assert (es + [e])[..r] == es[..r] && (es + [e])[..r + 1] == es[..r + 1];
  }

  lemma {:induction false} EndedEarlier(es: seq<Event>, e: Event, n: nat, token: nat, config: Config)
    requires EndedAt(es, n, token, config)
    ensures EndedAt(es + [e], n, token, config)
  {
    assert (es + [e])[..n] == es[..n] && (es + [e])[..n + 1] == es[..n + 1];
  }

  lemma {:induction false} EndedNow(es: seq<Event>, e: Event, token: nat, config: Config)
    requires token !in Run(es, config).compactions.ended && token in Run(es + [e], config).compactions.ended
    ensures EndedAt(es + [e], |es|, token, config)
  {
    assert (es + [e])[..|es|] == es && (es + [e])[..|es| + 1] == es + [e];
  }

  // While a client is open, the half-way state of each tracker is what the run says.
  lemma {:induction false} History(es: seq<Event>, e: Event, threadId: Text, w: Lifecycle, config: Config) returns (v: Lifecycle)
    requires R.Inv(Run(es, config), config)
    requires var c, d := Run(es, config).compactions, Run(es + [e], config).compactions;
      && threadId in c.manual && Half(es, c.manual[threadId], w, config) && threadId in d.manual
      && TrackerMove(c.manual, ObservationOf(e), threadId, d.manual[threadId])
    ensures Half(es + [e], Run(es + [e], config).compactions.manual[threadId], v, config)
  {
    var c, d := Run(es, config).compactions, Run(es + [e], config).compactions;
    assert R.TrackerInv(threadId, c.manual[threadId]);
    v := HalfAdvances(es, e, c.manual[threadId], d.manual[threadId], w, config);
  }

  lemma {:induction false} HalfAdvances(es: seq<Event>, e: Event, was: Tracker, t: Tracker, w: Lifecycle, config: Config)
    returns (v: Lifecycle)
    requires R.TrackerInv(was.threadId, was) && Half(es, was, w, config) && Advances(was, ObservationOf(e), was.threadId, t)
    ensures Half(es + [e], t, v, config)
  {
    RequestedEarlier(es, e, w.requested, was.token, was.threadId, config);
    v := w;
    if StartsOn(ObservationOf(e), was.threadId) {
      v := w.(started := |es|);
    } else if t.completedItem != was.completedItem {
      v := w.(completed := |es|);
    } else if t.turnCompleted != was.turnCompleted {
      v := w.(turnEnded := |es|);
    }
  }

  lemma {:induction false} OpenTrackersHaveHistory(es: seq<Event>, config: Config)
    requires config.Valid()
    ensures Run(es, config).Open() ==> TrackersHaveHistory(es, config)
  {
    if es != [] && Run(es, config).Open() {
      var before, e := es[..|es| - 1], es[|es| - 1];
      assert es == before + [e];
      OpenTrackersHaveHistory(before, config);
      R.RequestConservation(before, config);
      R.RunOneMore(before, e, config);
      StepMoves(Run(before, config), e, config);
      forall threadId | threadId in Run(es, config).compactions.manual
        ensures exists w :: Half(es, Run(es, config).compactions.manual[threadId], w, config)
      {
        OneHistory(before, e, threadId, config);
      }
    }
  }

  lemma {:induction false} OneHistory(es: seq<Event>, e: Event, threadId: Text, config: Config)
    requires R.Inv(Run(es, config), config) && TrackersHaveHistory(es, config)
    requires Run(es + [e], config).Open() && threadId in Run(es + [e], config).compactions.manual
    requires StepMove(Run(es, config), e, Run(es + [e], config))
    ensures exists w :: Half(es + [e], Run(es + [e], config).compactions.manual[threadId], w, config)
  {
    var c, d := Run(es, config).compactions, Run(es + [e], config).compactions;
    if Creates(c, e, threadId, d) {
      Created(es, e, threadId, config);
    } else {
      var w :| Half(es, c.manual[threadId], w, config);
      var v := History(es, e, threadId, w, config);
    }
  }

  lemma {:induction false} Created(es: seq<Event>, e: Event, threadId: Text, config: Config)
    requires Creates(Run(es, config).compactions, e, threadId, Run(es + [e], config).compactions)
    ensures exists w :: Half(es + [e], Run(es + [e], config).compactions.manual[threadId], w, config)
  {
    assert (es + [e])[..|es|] == es && (es + [e])[..|es| + 1] == es + [e];
    assert Half(es + [e], Run(es + [e], config).compactions.manual[threadId], Lifecycle(|es|, 0, 0, 0), config);
  }

  lemma {:induction false} WholeLater(es: seq<Event>, e: Event, token: nat, item: Compaction, w: Lifecycle, config: Config)
    requires Whole(es, token, item, w, config)
    ensures Whole(es + [e], token, item, w, config)
  {
    RequestedEarlier(es, e, w.requested, token, item.threadId, config);
    var last := if w.completed < w.turnEnded then w.turnEnded else w.completed;
    EndedEarlier(es, e, last, token, config);
  }

  // The second completion of a tracker makes its lifecycle whole.
  lemma {:induction false} Completed(es: seq<Event>, e: Event, token: nat, item: Compaction, w: Lifecycle, config: Config)
    requires R.Inv(Run(es, config), config)
    requires var c, d := Run(es, config).compactions, Run(es + [e], config).compactions;
      && item.threadId in c.manual && Half(es, c.manual[item.threadId], w, config)
      && ResolvingMove(c.manual, ObservationOf(e), token, item) && token in d.ended && token !in c.ended
    ensures exists v :: Whole(es + [e], token, item, v, config)
  {
    var t := Run(es, config).compactions.manual[item.threadId];
    assert R.TrackerInv(item.threadId, t);
    RequestedEarlier(es, e, w.requested, token, item.threadId, config);
    EndedNow(es, e, token, config);
    var v := if t.completedItem.Some? then w.(turnEnded := |es|) else w.(completed := |es|);
    assert Whole(es + [e], token, item, v, config);
  }

  // Every resolved manual compaction has a whole lifecycle in the run: its request, then the only
  // start on its thread since, then the completions of that item and of its turn, in either order.
  lemma {:induction false} ResolutionJustified(es: seq<Event>, token: nat, config: Config)
    requires config.Valid()
    requires token in Run(es, config).compactions.ended && Run(es, config).compactions.ended[token].CompactionResolved?
    ensures exists w :: Whole(es, token, Run(es, config).compactions.ended[token].result, w, config)
  {
    if es != [] {
      var before, e := es[..|es| - 1], es[|es| - 1];
      assert es == before + [e];
      var s, item := Run(before, config), Run(es, config).compactions.ended[token].result;
      R.RequestConservation(before, config);
      R.RunOneMore(before, e, config);
      if token in s.compactions.ended {
        R.StepKeeps(s, e, config);
        ResolutionJustified(before, token, config);
        var w :| Whole(before, token, item, w, config);
        WholeLater(before, e, token, item, w, config);
      } else {
        StepMoves(s, e, config);
        assert Resolves(s.compactions, Run(es, config).compactions, token);
        OpenWhenResolving(s, e, token, config);
        OpenTrackersHaveHistory(before, config);
        var w :| Half(before, s.compactions.manual[item.threadId], w, config);
        Completed(before, e, token, item, w, config);
      }
    }
  }

  // The start of the compaction is on record as that of a manual one.
  ghost predicate OnRecord(c: Compactions, item: Compaction) {
    item.itemId in c.observed && c.observed[item.itemId] == Observed(item, true)
  }

  // And the second of the two completions does resolve it, in an open client whose compaction handler
  // does not throw.
  lemma {:induction false} SecondCompletionResolves(s: State, o: Observation, host: Host, token: nat, item: Compaction, config: Config)
    requires R.Inv(s, config) && s.Open() && ResolvingMove(s.compactions.manual, o, token, item)
    requires o.ItemCompleted? ==> OnRecord(s.compactions, item) && !host.compactionHandlerThrows
    ensures var d := ObserveCompaction(s, o, host, config).compactions;
      Resolves(s.compactions, d, token) && d.ended[token] == CompactionResolved(item)
  {
    var t := s.compactions.manual[item.threadId];
    assert R.TrackerInv(item.threadId, t) && t.token == token;
    assert token in Tokens(s.compactions.manual);
    if o.TurnCompleted? {
      R.SecondCompletion(s, item.threadId, t.(turnCompleted := true));
    } else {
      var c := s.compactions.(observed := s.compactions.observed - {item.itemId});
      R.SecondCompletion(s.(compactions := c), item.threadId, t.(completedItem := Some(item)));
    }
  }

  lemma {:induction false} OpenWhenResolving(s: State, e: Event, token: nat, config: Config)
    requires R.Inv(s, config) && Resolves(s.compactions, Step(s, e, config).compactions, token)
    ensures s.Open()
  {
    StepMoves(s, e, config);
    assert e.EReceive?;
  }
}
