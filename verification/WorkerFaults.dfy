// What makes the observer of a Worker run fail: for each notification the codes that it is to blame for,
// told from the notification and the records alone.
module WorkerFaults {
  import opened Options
  import opened CodeUnits
  import opened JsonAccess
  import opened JsonValues
  import opened ObserverModel

  // ---- Forbidden notifications ----

  // What is forbidden in each name space: everything in some, parts of others, and three names without one.
  predicate IsForbiddenName(name: string) {
    || "account/login/" <= name || "app/" <= name || "externalAgentConfig/" <= name || "fuzzyFileSearch/" <= name || "hook/" <= name
    || "mcpServer/" <= name || "skills/" <= name
    || "thread/environment/" <= name || "thread/realtime/" <= name || name == "thread/settings/updated"
    || name == "item/autoApprovalReview/started" || name == "item/autoApprovalReview/completed" || name == "item/mcpToolCall/progress"
    || name == "fs/changed" || name == "model/rerouted"
    || name == "windows/worldWritableWarning" || name == "windowsSandbox/setupCompleted"
    || name == "configWarning" || name == "guardianWarning" || name == "error"
  }

  // Of the remote control only the report that it is disabled is let in, with the names of its server and
  // its installation and without an environment.
  predicate IsRemoteControl(n: Notification) { "remoteControl/" <= n.name }

  predicate SaysDisabled(n: Notification) {
    && n.name == "remoteControl/status/changed"
    && Property(n.params, "status") == Some(Str(Ascii("disabled"))) && Property(n.params, "environmentId") == Some(Null)
    && Property(n.params, "serverName").Some? && Property(n.params, "serverName").value.Str?
    && Property(n.params, "installationId").Some? && Property(n.params, "installationId").value.Str?
  }

  lemma {:induction false} PrefixesAre(name: string)
    ensures (exists p | p in FORBIDDEN_PREFIXES :: p <= name) <==>
      || "account/login/" <= name || "app/" <= name || "externalAgentConfig/" <= name || "fuzzyFileSearch/" <= name || "hook/" <= name
      || "mcpServer/" <= name || "skills/" <= name || "thread/environment/" <= name || "thread/realtime/" <= name
  {
    assert "account/login/" in FORBIDDEN_PREFIXES && "app/" in FORBIDDEN_PREFIXES && "externalAgentConfig/" in FORBIDDEN_PREFIXES;
    assert "fuzzyFileSearch/" in FORBIDDEN_PREFIXES && "hook/" in FORBIDDEN_PREFIXES && "mcpServer/" in FORBIDDEN_PREFIXES;
    assert "skills/" in FORBIDDEN_PREFIXES && "thread/environment/" in FORBIDDEN_PREFIXES && "thread/realtime/" in FORBIDDEN_PREFIXES;
  }

  lemma {:induction false} ForbiddenExactly(n: Notification)
    ensures Forbidden(n) <==> IsForbiddenName(n.name) || (IsRemoteControl(n) && !SaysDisabled(n))
  {
    PrefixesAre(n.name);
  }

  // ---- What a notification names ----

  predicate Says(v: Option<Json>, name: string, t: Text) { PropertyOf(v, name) == Some(Str(t)) }

  lemma {:induction false} NamesExactly(n: Notification, t: Text)
    ensures t in NamedThreads(n) <==>
      Says(Some(n.params), "threadId", t) || (n.name == "thread/started" && Says(Property(n.params, "thread"), "id", t))
    ensures t in NamedTurns(n) <==>
      Says(Some(n.params), "turnId", t) || (n.name == "turn/started" && Says(Property(n.params, "turn"), "id", t))
    ensures n.NewThread().None? <==> forall x :: !Says(Property(n.params, "thread"), "id", x)
    ensures n.NewTurn().None? <==> forall x :: !Says(Property(n.params, "turn"), "id", x)
  {
    if n.NewThread().Some? { assert Says(Property(n.params, "thread"), "id", n.NewThread().value); }
    if n.NewTurn().Some? { assert Says(Property(n.params, "turn"), "id", n.NewTurn().value); }
  }

  // ---- The ends of turns ----

  predicate IsText(v: Option<Json>, t: Text, maximum: nat) { v == Some(Str(t)) && Trim(t) != [] && Utf8Length(t) <= maximum }

  lemma {:induction false} TextIs(v: Option<Json>, t: Text, maximum: nat)
    ensures BoundedString(v, maximum) == Some(t) <==> IsText(v, t, maximum)
  {
    TrimKeeps(t);
  }

  ghost predicate IsSomeText(v: Option<Json>, maximum: nat) { exists t :: IsText(v, t, maximum) }

  lemma {:induction false} SomeTextIs(v: Option<Json>, maximum: nat)
    ensures BoundedString(v, maximum).Some? <==> IsSomeText(v, maximum)
  {
    forall t ensures BoundedString(v, maximum) == Some(t) <==> IsText(v, t, maximum) { TextIs(v, t, maximum); }
    if BoundedString(v, maximum).Some? { assert IsText(v, BoundedString(v, maximum).value, maximum); }
  }

  // The notification describes the end of this turn.
  ghost predicate Describes(n: Notification, t: TerminalTurn) {
    var turn := Property(n.params, "turn");
    && IsText(Property(n.params, "threadId"), t.threadId, 1024) && IsText(PropertyOf(turn, "id"), t.turnId, 1024)
    && IsText(PropertyOf(turn, "status"), t.status, 16384) && t.error == PropertyOf(turn, "error")
    && PropertyOf(turn, "items") == Some(Arr(t.items))
    && (PropertyOf(turn, "itemsView") == None || IsSomeText(PropertyOf(turn, "itemsView"), 16384))
  }

  // The end of a turn is projected from the notification that describes it; one that describes none makes
  // the handler throw.
  lemma {:induction false} ProjectsExactly(n: Notification, t: TerminalTurn)
    ensures ProjectTerminalTurn(n).NoTurn? <==> n.name != "turn/completed"
    ensures ProjectTerminalTurn(n) == Projected(t) <==> n.name == "turn/completed" && Describes(n, t)
    ensures ProjectTerminalTurn(n).Throws? <==> n.name == "turn/completed" && forall u :: !Describes(n, u)
  {
    if n.name == "turn/completed" {
      forall u ensures Describes(n, u) <==> ProjectTerminalTurn(n) == Projected(u) { DescribesIs(n, u); }
      var p := ProjectTerminalTurn(n);
      if p.Projected? { assert Describes(n, p.turn); }
    }
  }

  lemma {:induction false} DescribesIs(n: Notification, u: TerminalTurn)
    requires n.name == "turn/completed"
    ensures Describes(n, u) <==> ProjectTerminalTurn(n) == Projected(u)
  {
    var turn := Property(n.params, "turn");
    TextIs(Property(n.params, "threadId"), u.threadId, 1024);
    TextIs(PropertyOf(turn, "id"), u.turnId, 1024);
    TextIs(PropertyOf(turn, "status"), u.status, 16384);
    SomeTextIs(PropertyOf(turn, "itemsView"), 16384);
  }

  // A compaction item that an event has announced for this thread and this turn.
  predicate IsAnnouncedFor(o: Observer, item: Json, threadId: Text, turnId: Text) {
    exists id :: id in o.authorizedItems && Property(item, "id") == Some(Str(id)) && o.authorizedItems[id] == Binding(threadId, turnId)
  }

  lemma {:induction false} AuthorizedExactly(o: Observer, item: Json, threadId: Option<Text>, turnId: Option<Text>)
    ensures Authorized(o, item, threadId, turnId) <==> threadId.Some? && turnId.Some? && IsAnnouncedFor(o, item, threadId.value, turnId.value)
  {
    if Authorized(o, item, threadId, turnId) {
      var id := StringOf(Property(item, "id")).value;
      assert o.authorizedItems[id] == Binding(threadId.value, turnId.value);
    }
  }

  // The maintenance turn ends well once, completed without an error and with its compaction as the only item.
  lemma {:induction false} MaintenanceEndsExactly(o: Observer, t: TerminalTurn)
    ensures MaintenanceEnds(o, t) <==>
      && o.manualCompactionPending && !o.maintenanceTerminalSeen && t.status == Ascii("completed") && t.error == Some(Null)
      && exists item :: t.items == [item] && Property(item, "type") == Some(Str(Ascii("contextCompaction"))) &&
           IsAnnouncedFor(o, item, t.threadId, t.turnId)
  {
    if |t.items| == 1 {
      assert t.items == [t.items[0]];
      AuthorizedExactly(o, t.items[0], Some(t.threadId), Some(t.turnId));
    }
  }

  // ---- Verdicts and blame ----

  // The first failure stands; without one, the verdict fails exactly when something is to blame.
  predicate Shift(v: Verdict, w: Verdict, blame: set<FailureCode>) {
    if v.failure.Some? || blame == {} then w == v else w.failure.Some? && w.failure.value in blame && w == v.Fail(w.failure.value)
  }

  // Of two things that happen one after the other, the first that fails is to blame.
  function First(a: set<FailureCode>, b: set<FailureCode>): set<FailureCode> { if a != {} then a else b }

  lemma {:induction false} ShiftTwice(u: Verdict, v: Verdict, w: Verdict, a: set<FailureCode>, b: set<FailureCode>)
    requires Shift(u, v, a) && Shift(v, w, b)
    ensures Shift(u, w, First(a, b))
  {
  }

  // ---- What an item is to blame for ----

  predicate IsAgentMessage(item: Json) { Property(item, "type") == Some(Str(Ascii("agentMessage"))) }

  function ItemBlame(policy: Option<Text>, messages: nat, item: Json, location: Location, d: Directive): set<FailureCode> {
    if !item.Obj? || policy.None? || d.evaluate(item, location, policy.value) == Unsupported then {UNSUPPORTED_BACKEND_ACTIVITY}
    else if d.evaluate(item, location, policy.value) == CompactionViolation then {COMPACTION_POLICY_VIOLATION}
    else if location == AtCompletion && IsAgentMessage(item) && messages >= 256 then {INVALID_TERMINAL_PAYLOAD}
    else {}
  }

  // An agent message that is completed and allowed is kept, up to a number.
  function MessageIn(o: Observer, item: Json, location: Location, d: Directive): seq<Json> {
    if location == AtCompletion && IsAgentMessage(item) && o.itemPolicy.Some? &&
       d.evaluate(item, location, o.itemPolicy.value) == Allowed && |o.completedAgentMessages| < 256
    then [item] else []
  }

  // Nothing changes but the verdict and the messages.
  predicate OnlyItems(o: Observer, t: Observer) { t == o.(verdict := t.verdict, completedAgentMessages := t.completedAgentMessages) }

  lemma {:induction false} ItemShifts(o: Observer, item: Json, location: Location, d: Directive)
    requires item.Obj?
    ensures var t := RecordItem(o, item, location, d);
      && Shift(o.verdict, t.verdict, ItemBlame(o.itemPolicy, |o.completedAgentMessages|, item, location, d)) && OnlyItems(o, t)
      && t.completedAgentMessages == o.completedAgentMessages + MessageIn(o, item, location, d)
  {
    FailShifts(o, UNSUPPORTED_BACKEND_ACTIVITY);
    FailShifts(o, COMPACTION_POLICY_VIOLATION);
    FailShifts(o, INVALID_TERMINAL_PAYLOAD);
    assert o.completedAgentMessages + [] == o.completedAgentMessages;
    if o.itemPolicy.None? || d.evaluate(item, location, o.itemPolicy.value) != Allowed {
    } else if location == AtCompletion && IsAgentMessage(item) {
      assert RecordItem(o, item, location, d) == if |o.completedAgentMessages| >= 256 then Fail(o, INVALID_TERMINAL_PAYLOAD)
        else o.(completedAgentMessages := o.completedAgentMessages + [item]);
    } else {
      assert RecordItem(o, item, location, d) == o;
    }
  }

  lemma {:induction false} FailShifts(o: Observer, code: FailureCode)
    ensures Shift(o.verdict, Fail(o, code).verdict, {code}) && Fail(o, code) == o.(verdict := Fail(o, code).verdict)
  {
  }

  function ItemsBlame(policy: Option<Text>, items: seq<Json>, d: Directive): set<FailureCode> {
    if items == [] then {} else First(ItemBlame(policy, 0, items[0], AtTerminal, d), ItemsBlame(policy, items[1..], d))
  }

  lemma {:induction false} ItemsShift(o: Observer, items: seq<Json>, d: Directive)
    ensures var t := RecordItems(o, items, d);
      Shift(o.verdict, t.verdict, ItemsBlame(o.itemPolicy, items, d)) && t == o.(verdict := t.verdict)
    decreases |items|
  {
    if items != [] {
      var t := if items[0].Obj? then RecordItem(o, items[0], AtTerminal, d) else Fail(o, UNSUPPORTED_BACKEND_ACTIVITY);
      if items[0].Obj? { TerminalItemShifts(o, items[0], d); }
      ItemsShift(t, items[1..], d);
      ShiftTwice(o.verdict, t.verdict, RecordItems(o, items, d).verdict, ItemBlame(o.itemPolicy, 0, items[0], AtTerminal, d),
        ItemsBlame(o.itemPolicy, items[1..], d));
    }
  }

  lemma {:induction false} TerminalItemShifts(o: Observer, item: Json, d: Directive)
    requires item.Obj?
    ensures var t := RecordItem(o, item, AtTerminal, d);
      Shift(o.verdict, t.verdict, ItemBlame(o.itemPolicy, 0, item, AtTerminal, d)) && t == o.(verdict := t.verdict)
  {
  }

  // The first item that is to blame for anything decides.
  lemma {:induction false} ItemsBlameIs(policy: Option<Text>, items: seq<Json>, d: Directive, code: FailureCode)
    ensures code in ItemsBlame(policy, items, d) <==> exists k :: IsFirstItem(policy, items, d, code, k)
    decreases |items|
  {
    if items != [] {
      var rest := items[1..];
      ItemsBlameIs(policy, rest, d, code);
      assert forall k | 0 <= k < |rest| :: rest[k] == items[k + 1];
      if k :| IsFirstItem(policy, items, d, code, k) && k > 0 {
        assert IsFirstItem(policy, rest, d, code, k - 1);
      }
      if ItemBlame(policy, 0, items[0], AtTerminal, d) == {} {
        if k :| IsFirstItem(policy, rest, d, code, k) { assert IsFirstItem(policy, items, d, code, k + 1); }
      } else if code in ItemsBlame(policy, items, d) {
        assert IsFirstItem(policy, items, d, code, 0);
      }
    }
  }

  ghost predicate IsFirstItem(policy: Option<Text>, items: seq<Json>, d: Directive, code: FailureCode, k: int) {
    && 0 <= k < |items| && code in ItemBlame(policy, 0, items[k], AtTerminal, d)
    && forall j | 0 <= j < k :: ItemBlame(policy, 0, items[j], AtTerminal, d) == {}
  }

  // ---- What a notification is to blame for ----

  function Only(condition: bool, code: FailureCode): set<FailureCode> { if condition then {code} else {} }

  function ThreadsBlame(n: Notification): set<FailureCode> {
    First(Only(Forbidden(n), UNSUPPORTED_BACKEND_ACTIVITY), Only(n.name == "thread/started" && n.NewThread().None?, THREAD_BINDING_MISMATCH))
  }

  function TurnsBlame(o: Observer, n: Notification): set<FailureCode> {
    if n.name != "turn/started" then {}
    else if n.NewTurn().None? then {TURN_BINDING_MISMATCH}
    else Only(o.manualCompactionPending && o.maintenanceTurn.Some? && o.maintenanceTurn != n.NewTurn(), COMPACTION_POLICY_VIOLATION)
  }

  predicate IsItemNotice(n: Notification) { n.name == "item/started" || n.name == "item/completed" }

  function LocationOf(n: Notification): Location { if n.name == "item/started" then AtStart else AtCompletion }

  // A compaction item of the maintenance turn that a compaction event has announced.
  predicate IsAnnounced(o: Observer, n: Notification, item: Json) {
    Authorized(o, item, n.ThreadId(), n.TurnId()) && n.TurnId() == o.maintenanceTurn
  }

  function NoticeBlame(o: Observer, n: Notification, d: Directive): set<FailureCode> {
    var item := Property(n.params, "item");
    if !IsItemNotice(n) then {}
    else if !IsObject(item) then {UNSUPPORTED_BACKEND_ACTIVITY}
    else if IsContextCompaction(item.value) then Only(!IsAnnounced(o, n, item.value), COMPACTION_POLICY_VIOLATION)
    else if o.manualCompactionPending then {COMPACTION_POLICY_VIOLATION}
    else ItemBlame(o.itemPolicy, |o.completedAgentMessages|, item.value, LocationOf(n), d)
  }

  function TerminalBlame(o: Observer, t: TerminalTurn, d: Directive): set<FailureCode> {
    if o.maintenanceTurn == Some(t.turnId) then Only(!MaintenanceEnds(o, t), COMPACTION_POLICY_VIOLATION)
    else if o.manualCompactionPending then {COMPACTION_POLICY_VIOLATION}
    else First(ItemsBlame(o.itemPolicy, t.items, d), Only(o.terminal.Some?, TURN_BINDING_MISMATCH))
  }

  function RefsBlame(session: Option<Text>, operation: Option<Text>, threads: set<Text>, turns: set<Text>): set<FailureCode> {
    First(
      Only(session.Some? && exists x :: x in threads && session != Some(x), THREAD_BINDING_MISMATCH),
      Only(operation.Some? && exists y :: y in turns && operation != Some(y), TURN_BINDING_MISMATCH))
  }

  lemma {:induction false} RefsShift(o: Observer)
    ensures var t := ValidateRefs(o); Shift(o.verdict, t.verdict, RefsBlame(o.session, o.operation, o.threadRefs, o.turnRefs)) && t == o.(verdict := t.verdict)
  {
    assert o.session.Some? ==> (o.threadRefs <= {o.session.value} <==> forall x | x in o.threadRefs :: o.session == Some(x));
    assert o.operation.Some? ==> (o.turnRefs <= {o.operation.value} <==> forall y | y in o.turnRefs :: o.operation == Some(y));
  }

  function IdOf(id: Option<Text>): set<Text> { if id.Some? then {id.value} else {} }

  function NamedThreads(n: Notification): set<Text> { IdOf(n.ThreadId()) + if n.name == "thread/started" then IdOf(n.NewThread()) else {} }

  // The maintenance turn after the notification: the first turn that starts while a compaction is pending.
  function MaintenanceAfter(o: Observer, n: Notification): Option<Text> {
    if n.name == "turn/started" && n.NewTurn().Some? && o.manualCompactionPending && o.maintenanceTurn.None? then n.NewTurn()
    else o.maintenanceTurn
  }

  function NamedTurns(n: Notification): set<Text> { IdOf(n.TurnId()) + if n.name == "turn/started" then IdOf(n.NewTurn()) else {} }

  lemma {:induction false} SawThreadIs(o: Observer, id: Option<Text>)
    ensures SawThread(o, id) == o.(threadRefs := o.threadRefs + IdOf(id))
  {
  }

  lemma {:induction false} ThreadsShift(o: Observer, n: Notification)
    ensures var t := ThreadsSeen(o, n);
      && Shift(o.verdict, t.verdict, ThreadsBlame(n)) && t == o.(verdict := t.verdict, threadRefs := o.threadRefs + NamedThreads(n))
  {
    var o1 := if Forbidden(n) then Fail(o, UNSUPPORTED_BACKEND_ACTIVITY) else o;
    FailShifts(o, UNSUPPORTED_BACKEND_ACTIVITY);
    var o2 := SawThread(o1, n.ThreadId());
    SawThreadIs(o1, n.ThreadId());
    FailShifts(o2, THREAD_BINDING_MISMATCH);
    SawThreadIs(o2, n.NewThread());
    ShiftTwice(o.verdict, o2.verdict, ThreadsSeen(o, n).verdict, Only(Forbidden(n), UNSUPPORTED_BACKEND_ACTIVITY),
      Only(n.name == "thread/started" && n.NewThread().None?, THREAD_BINDING_MISMATCH));
    assert (o.threadRefs + IdOf(n.ThreadId())) + IdOf(n.NewThread()) == o.threadRefs + (IdOf(n.ThreadId()) + IdOf(n.NewThread()));
    assert o.threadRefs + IdOf(n.ThreadId()) == o.threadRefs + (IdOf(n.ThreadId()) + {});
  }

  lemma {:induction false} SawTurnIs(o: Observer, id: Option<Text>)
    ensures SawTurn(o, id) == o.(turnRefs := o.turnRefs + (IdOf(id) - IdOf(o.maintenanceTurn)))
  {
    assert id.Some? && id == o.maintenanceTurn ==> IdOf(id) - IdOf(o.maintenanceTurn) == {};
    assert id != o.maintenanceTurn ==> IdOf(id) - IdOf(o.maintenanceTurn) == IdOf(id);
    assert o.turnRefs + {} == o.turnRefs;
  }

  lemma {:induction false} TurnStartShifts(o: Observer, n: Notification)
    requires n.name == "turn/started"
    ensures var t := TurnStarted(o, n.NewTurn());
      && Shift(o.verdict, t.verdict, TurnsBlame(o, n))
      && t == o.(verdict := t.verdict, maintenanceTurn := MaintenanceAfter(o, n),
                 turnRefs := o.turnRefs + (IdOf(n.NewTurn()) - IdOf(MaintenanceAfter(o, n))))
  {
    var id := n.NewTurn();
    FailShifts(o, TURN_BINDING_MISMATCH);
    FailShifts(o, COMPACTION_POLICY_VIOLATION);
    if id.None? {
      assert IdOf(id) - IdOf(MaintenanceAfter(o, n)) == {} && o.turnRefs + {} == o.turnRefs;
    } else {
      var u := if !o.manualCompactionPending then o
        else if o.maintenanceTurn.Some? && o.maintenanceTurn != id then Fail(o, COMPACTION_POLICY_VIOLATION)
        else o.(maintenanceTurn := id);
      SawTurnIs(u, id);
      assert u.maintenanceTurn == MaintenanceAfter(o, n);
    }
  }

  lemma {:induction false} TurnsShift(o: Observer, n: Notification)
    ensures var t := TurnsSeen(o, n);
      && Shift(o.verdict, t.verdict, TurnsBlame(o, n))
      && t == o.(verdict := t.verdict, maintenanceTurn := MaintenanceAfter(o, n),
                 turnRefs := o.turnRefs + (NamedTurns(n) - IdOf(MaintenanceAfter(o, n))))
  {
    var m, first, second := IdOf(MaintenanceAfter(o, n)), IdOf(n.NewTurn()), IdOf(n.TurnId());
    if n.name == "turn/started" {
      TurnStartShifts(o, n);
      SawTurnIs(TurnStarted(o, n.NewTurn()), n.TurnId());
      assert (o.turnRefs + (first - m)) + (second - m) == o.turnRefs + ((second + first) - m);
    } else {
      SawTurnIs(o, n.TurnId());
      assert second + {} == second;
    }
  }

  function MessagesIn(o: Observer, n: Notification, d: Directive): seq<Json> {
    var item := Property(n.params, "item");
    if IsItemNotice(n) && IsObject(item) && !IsContextCompaction(item.value) && !o.manualCompactionPending
    then MessageIn(o, item.value, LocationOf(n), d) else []
  }

  lemma {:induction false} NoticeShifts(o: Observer, n: Notification, d: Directive)
    ensures var t := ItemNotified(o, n, d);
      && Shift(o.verdict, t.verdict, NoticeBlame(o, n, d)) && OnlyItems(o, t)
      && t.completedAgentMessages == o.completedAgentMessages + MessagesIn(o, n, d)
  {
    var item := Property(n.params, "item");
    if IsItemNotice(n) && IsObject(item) && !IsContextCompaction(item.value) && !o.manualCompactionPending {
      ItemShifts(o, item.value, LocationOf(n), d);
    } else {
      assert o.completedAgentMessages + [] == o.completedAgentMessages;
    }
  }

  lemma {:induction false} TerminalShifts(o: Observer, turn: TerminalTurn, d: Directive)
    ensures var t := TurnTerminated(o, turn, d);
      && Shift(o.verdict, t.verdict, TerminalBlame(o, turn, d))
      && t == (if IsOperation(o, turn) then
                 o.(verdict := t.verdict, threadRefs := o.threadRefs + {turn.threadId}, turnRefs := o.turnRefs + {turn.turnId},
                    terminal := if o.terminal.Some? then o.terminal else Some(turn))
               else o.(verdict := t.verdict,
                       maintenanceTerminalSeen := o.maintenanceTerminalSeen || (o.maintenanceTurn == Some(turn.turnId) && MaintenanceEnds(o, turn))))
  {
    if IsOperation(o, turn) {
      ItemsShift(o, turn.items, d);
      var u := RecordItems(o, turn.items, d);
      var v := u.(threadRefs := u.threadRefs + {turn.threadId}, turnRefs := u.turnRefs + {turn.turnId});
      assert Shift(u.verdict, TurnTerminated(o, turn, d).verdict, Only(o.terminal.Some?, TURN_BINDING_MISMATCH));
      ShiftTwice(o.verdict, u.verdict, TurnTerminated(o, turn, d).verdict, ItemsBlame(o.itemPolicy, turn.items, d),
        Only(o.terminal.Some?, TURN_BINDING_MISMATCH));
    }
  }

  // The terminal turn is not the maintenance turn, and none is expected.
  predicate IsOperation(o: Observer, turn: TerminalTurn) { o.maintenanceTurn != Some(turn.turnId) && !o.manualCompactionPending }

  // ---- The whole handler ----

  predicate EndsOperation(o: Observer, n: Notification) {
    var p := ProjectTerminalTurn(n);
    p.Projected? && IsOperation(o, p.turn)
  }

  function ThreadsAfter(o: Observer, n: Notification): set<Text> {
    o.threadRefs + NamedThreads(n) + if EndsOperation(o, n) then {ProjectTerminalTurn(n).turn.threadId} else {}
  }

  function TurnsAfter(o: Observer, n: Notification): set<Text> {
    o.turnRefs + (NamedTurns(n) - IdOf(MaintenanceAfter(o, n))) +
    if EndsOperation(o, n) then {ProjectTerminalTurn(n).turn.turnId} else {}
  }

  function EndBlame(o: Observer, n: Notification, d: Directive): set<FailureCode> {
    match ProjectTerminalTurn(n)
    case Throws => {}
    case NoTurn => RefsBlame(o.session, o.operation, ThreadsAfter(o, n), TurnsAfter(o, n))
    case Projected(turn) => First(TerminalBlame(o, turn, d), RefsBlame(o.session, o.operation, ThreadsAfter(o, n), TurnsAfter(o, n)))
  }

  function HandlerBlame(o: Observer, n: Notification, d: Directive): set<FailureCode> {
    First(SeenBlame(o, n, d), EndBlame(o, n, d))
  }

  function SeenBlame(o: Observer, n: Notification, d: Directive): set<FailureCode> {
    First(First(ThreadsBlame(n), TurnsBlame(o, n)), NoticeBlame(o, n, d))
  }

  // The ten thousand and first notification is not handled any more.
  function NotificationBlame(o: Observer, n: Notification, d: Directive): set<FailureCode> {
    if o.notificationCount >= 10000 then {UNSUPPORTED_BACKEND_ACTIVITY} else HandlerBlame(o, n, d)
  }

  // A notification that starts a turn neither reports an item nor ends a turn.
  lemma {:induction false} OneNameEach(n: Notification)
    requires IsItemNotice(n) || !ProjectTerminalTurn(n).NoTurn?
    ensures n.name != "turn/started"
  {
    assert n.name != "turn/started" by { assert |"turn/started"| == 12 && |"turn/completed"| == 14 && "turn/started"[0] == 't' && "item/started"[0] == 'i'; }
  }

  // What was seen of the threads and turns is no matter to an item.
  lemma {:induction false} NoticeSame(o: Observer, v: Observer, n: Notification, d: Directive)
    requires v.maintenanceTurn == MaintenanceAfter(o, n) && v.authorizedItems == o.authorizedItems
    requires v.manualCompactionPending == o.manualCompactionPending && v.itemPolicy == o.itemPolicy
    requires v.completedAgentMessages == o.completedAgentMessages
    ensures NoticeBlame(v, n, d) == NoticeBlame(o, n, d) && MessagesIn(v, n, d) == MessagesIn(o, n, d)
  {
    if IsItemNotice(n) { OneNameEach(n); }
  }

  lemma {:induction false} SeenShifts(o: Observer, n: Notification, d: Directive)
    ensures var t := NotificationSeen(o, n, d);
      && Shift(o.verdict, t.verdict, SeenBlame(o, n, d))
      && t == o.(verdict := t.verdict, threadRefs := o.threadRefs + NamedThreads(n), maintenanceTurn := MaintenanceAfter(o, n),
                 turnRefs := o.turnRefs + (NamedTurns(n) - IdOf(MaintenanceAfter(o, n))),
                 completedAgentMessages := o.completedAgentMessages + MessagesIn(o, n, d))
  {
    var u := ThreadsSeen(o, n);
    var v := TurnsSeen(u, n);
    ThreadsShift(o, n);
    TurnsShift(u, n);
    NoticeShifts(v, n, d);
    ShiftTwice(o.verdict, u.verdict, v.verdict, ThreadsBlame(n), TurnsBlame(o, n));
    NoticeSame(o, v, n, d);
    ShiftTwice(o.verdict, v.verdict, ItemNotified(v, n, d).verdict, First(ThreadsBlame(n), TurnsBlame(o, n)), NoticeBlame(o, n, d));
  }

  // The records after a notification that was handled, but for the verdict and the count.
  function Recorded(o: Observer, n: Notification, v: Verdict, d: Directive): Observer {
    var p := ProjectTerminalTurn(n);
    o.(verdict := v, maintenanceTurn := MaintenanceAfter(o, n), threadRefs := ThreadsAfter(o, n), turnRefs := TurnsAfter(o, n),
       completedAgentMessages := o.completedAgentMessages + MessagesIn(o, n, d),
       terminal := if o.terminal.None? && EndsOperation(o, n) then Some(p.turn) else o.terminal,
       maintenanceTerminalSeen :=
         o.maintenanceTerminalSeen || (p.Projected? && o.maintenanceTurn == Some(p.turn.turnId) && MaintenanceEnds(o, p.turn)))
  }

  ghost predicate HandledAs(o: Observer, n: Notification, d: Directive, t: Observer, threw: bool) {
    && Shift(o.verdict, t.verdict, HandlerBlame(o, n, d)) && (threw <==> ProjectTerminalTurn(n).Throws?)
    && t == Recorded(o, n, t.verdict, d)
  }

  // Up to the projection of the terminal turn.
  ghost predicate SeenAs(o: Observer, n: Notification, d: Directive, u: Observer) {
    && Shift(o.verdict, u.verdict, SeenBlame(o, n, d))
    && u == o.(verdict := u.verdict, threadRefs := o.threadRefs + NamedThreads(n), maintenanceTurn := MaintenanceAfter(o, n),
               turnRefs := o.turnRefs + (NamedTurns(n) - IdOf(MaintenanceAfter(o, n))),
               completedAgentMessages := o.completedAgentMessages + MessagesIn(o, n, d))
  }

  lemma {:induction false} NoEndShifts(o: Observer, u: Observer, n: Notification, d: Directive)
    requires SeenAs(o, n, d, u) && ProjectTerminalTurn(n).NoTurn?
    ensures HandledAs(o, n, d, ValidateRefs(u), false)
  {
    assert u.threadRefs + {} == u.threadRefs && u.turnRefs + {} == u.turnRefs;
    RefsShift(u);
    ShiftTwice(o.verdict, u.verdict, ValidateRefs(u).verdict, SeenBlame(o, n, d),
      RefsBlame(o.session, o.operation, ThreadsAfter(o, n), TurnsAfter(o, n)));
  }

  lemma {:induction false} ThrowShifts(o: Observer, u: Observer, n: Notification, d: Directive)
    requires SeenAs(o, n, d, u) && ProjectTerminalTurn(n).Throws?
    ensures HandledAs(o, n, d, u, true)
  {
    var before := SeenBlame(o, n, d);
    assert First(before, {}) == before && u.threadRefs + {} == u.threadRefs && u.turnRefs + {} == u.turnRefs;
  }

  lemma {:induction false} TurnEndShifts(o: Observer, u: Observer, n: Notification, turn: TerminalTurn, d: Directive)
    requires SeenAs(o, n, d, u) && ProjectTerminalTurn(n) == Projected(turn)
    ensures HandledAs(o, n, d, ValidateRefs(TurnTerminated(u, turn, d)), false)
  {
    var v, before := TurnTerminated(u, turn, d), SeenBlame(o, n, d);
    OneNameEach(n);
    TerminalShifts(u, turn, d);
    TurnEndRecords(o, u, n, turn, d);
    RefsShift(v);
    var refs := RefsBlame(o.session, o.operation, ThreadsAfter(o, n), TurnsAfter(o, n));
    ShiftTwice(o.verdict, u.verdict, v.verdict, before, TerminalBlame(o, turn, d));
    ShiftTwice(o.verdict, v.verdict, ValidateRefs(v).verdict, First(before, TerminalBlame(o, turn, d)), refs);
    assert First(First(before, TerminalBlame(o, turn, d)), refs) == First(before, First(TerminalBlame(o, turn, d), refs));
  }

  lemma {:induction false} TurnEndRecords(o: Observer, u: Observer, n: Notification, turn: TerminalTurn, d: Directive)
    requires SeenAs(o, n, d, u) && ProjectTerminalTurn(n) == Projected(turn) && n.name != "turn/started"
    ensures var v := TurnTerminated(u, turn, d);
      v == Recorded(o, n, v.verdict, d) && TerminalBlame(u, turn, d) == TerminalBlame(o, turn, d)
  {
    TerminalShifts(u, turn, d);
    assert u.threadRefs + {} == u.threadRefs && u.turnRefs + {} == u.turnRefs;
  }

  lemma {:induction false} HandlesExactly(o: Observer, n: Notification, d: Directive)
    ensures var (t, threw) := NotificationEnded(NotificationSeen(o, n, d), n, d); HandledAs(o, n, d, t, threw)
  {
    var u := NotificationSeen(o, n, d);
    SeenShifts(o, n, d);
    match ProjectTerminalTurn(n) {
      case Throws => ThrowShifts(o, u, n, d);
      case NoTurn => NoEndShifts(o, u, n, d);
      case Projected(turn) => TurnEndShifts(o, u, n, turn, d);
    }
  }

  // The count is in none of this.
  lemma {:induction false} CountAside(o: Observer, n: Notification, d: Directive, count: nat)
    ensures var o1 := o.(notificationCount := count);
      && HandlerBlame(o1, n, d) == HandlerBlame(o, n, d) && EndsOperation(o1, n) == EndsOperation(o, n)
      && MessagesIn(o1, n, d) == MessagesIn(o, n, d) && MaintenanceAfter(o1, n) == MaintenanceAfter(o, n)
      && ThreadsAfter(o1, n) == ThreadsAfter(o, n) && TurnsAfter(o1, n) == TurnsAfter(o, n)
  {
    var o1 := o.(notificationCount := count);
    assert NoticeBlame(o1, n, d) == NoticeBlame(o, n, d) && MessagesIn(o1, n, d) == MessagesIn(o, n, d) by { NoticeAside(o, n, d, count); }
    assert EndBlame(o1, n, d) == EndBlame(o, n, d) by { EndAside(o, n, d, count); }
    assert TurnsBlame(o1, n) == TurnsBlame(o, n);
  }

  lemma {:induction false} NoticeAside(o: Observer, n: Notification, d: Directive, count: nat)
    ensures var o1 := o.(notificationCount := count);
      NoticeBlame(o1, n, d) == NoticeBlame(o, n, d) && MessagesIn(o1, n, d) == MessagesIn(o, n, d)
  {
  }

  lemma {:induction false} EndAside(o: Observer, n: Notification, d: Directive, count: nat)
    ensures EndBlame(o.(notificationCount := count), n, d) == EndBlame(o, n, d)
  {
    var o1, p := o.(notificationCount := count), ProjectTerminalTurn(n);
    assert ThreadsAfter(o1, n) == ThreadsAfter(o, n) && TurnsAfter(o1, n) == TurnsAfter(o, n);
    if p.Projected? { assert TerminalBlame(o1, p.turn, d) == TerminalBlame(o, p.turn, d); }
  }

  lemma {:induction false} CountRecorded(o: Observer, n: Notification, v: Verdict, d: Directive, count: nat)
    ensures Recorded(o.(notificationCount := count), n, v, d) == Recorded(o, n, v, d).(notificationCount := count)
  {
    CountAside(o, n, d, count);
  }

  // Whatever the records: the handler throws exactly on a malformed end of a turn, the verdict shifts by
  // what the notification is to blame for, and the records are as they should be.
  lemma {:induction false} NotificationExactly(o: Observer, n: Notification, d: Directive)
    ensures var (t, threw) := RecordNotification(o, n, d);
      && Shift(o.verdict, t.verdict, NotificationBlame(o, n, d))
      && (threw <==> o.notificationCount < 10000 && ProjectTerminalTurn(n).Throws?)
      && (o.notificationCount < 10000 ==> t == Recorded(o, n, t.verdict, d).(notificationCount := o.notificationCount + 1))
  {
    var o1 := o.(notificationCount := o.notificationCount + 1);
    if o.notificationCount < 10000 {
      HandlesExactly(o1, n, d);
      CountAside(o, n, d, o.notificationCount + 1);
      CountRecorded(o, n, RecordNotification(o, n, d).0.verdict, d, o.notificationCount + 1);
      assert RecordNotification(o, n, d) == NotificationEnded(NotificationSeen(o1, n, d), n, d);
    } else {
      FailShifts(o1, UNSUPPORTED_BACKEND_ACTIVITY);
    }
  }

  // ---- Compactions and approvals ----

  function CompactionBlame(o: Observer, c: CompactionEvent, d: Directive): set<FailureCode> {
    if !d.manualCompaction then First(RefsBlame(o.session, o.operation, o.threadRefs + {c.threadId}, o.turnRefs), {COMPACTION_POLICY_VIOLATION})
    else Only(!IsAskedFor(o, c), COMPACTION_POLICY_VIOLATION)
  }

  // The start of a new compaction of the maintenance turn, or the completion of one that was started.
  predicate IsAskedFor(o: Observer, c: CompactionEvent) {
    && c.requestedManual && o.session == Some(c.threadId)
    && if c.started then
         o.manualCompactionPending && o.maintenanceTurn == Some(c.turnId) && o.compactionCount == 0 && c.itemId !in o.maintenanceItems
       else c.itemId in o.maintenanceItems && o.maintenanceItems[c.itemId] == Binding(c.threadId, c.turnId)
  }

  // The records after a compaction event: one that was asked for is counted when it is completed, and
  // announced for the items of its turn when it starts.
  function Compacted(o: Observer, c: CompactionEvent, v: Verdict, d: Directive): Observer {
    var t := o.(verdict := v, threadRefs := o.threadRefs + {c.threadId});
    if !d.manualCompaction then t.(compactionCount := o.compactionCount + 1)
    else if !IsAskedFor(o, c) then t
    else if c.started then
      t.(maintenanceItems := o.maintenanceItems[c.itemId := Binding(c.threadId, c.turnId)],
         authorizedItems := o.authorizedItems[c.itemId := Binding(c.threadId, c.turnId)])
    else t.(maintenanceItems := o.maintenanceItems - {c.itemId}, compactionCount := o.compactionCount + 1)
  }

  lemma {:induction false} CompactionExactly(o: Observer, c: CompactionEvent, d: Directive)
    ensures var t := RecordCompaction(o, c, d);
      && Shift(o.verdict, t.verdict, CompactionBlame(o, c, d)) && t == Compacted(o, c, t.verdict, d)
  {
    var t := o.(threadRefs := o.threadRefs + {c.threadId});
    FailShifts(t, COMPACTION_POLICY_VIOLATION);
    if !d.manualCompaction {
      var u := t.(compactionCount := o.compactionCount + 1);
      RefsShift(u);
      FailShifts(ValidateRefs(u), COMPACTION_POLICY_VIOLATION);
      ShiftTwice(o.verdict, ValidateRefs(u).verdict, Fail(ValidateRefs(u), COMPACTION_POLICY_VIOLATION).verdict,
        RefsBlame(o.session, o.operation, o.threadRefs + {c.threadId}, o.turnRefs), {COMPACTION_POLICY_VIOLATION});
    }
  }

  function ApprovalBlame(o: Observer, threadId: Text, turnId: Text): set<FailureCode> {
    First(RefsBlame(o.session, o.operation, o.threadRefs + {threadId}, o.turnRefs + {turnId}), {DECLINED_APPROVAL_REQUEST})
  }

  lemma {:induction false} ApprovalExactly(o: Observer, threadId: Text, turnId: Text)
    ensures var t := RecordApproval(o, threadId, turnId);
      && Shift(o.verdict, t.verdict, ApprovalBlame(o, threadId, turnId))
      && t == o.(verdict := t.verdict, approvalRequestCount := o.approvalRequestCount + 1, threadRefs := o.threadRefs + {threadId},
                 turnRefs := o.turnRefs + {turnId})
  {
    var u := o.(approvalRequestCount := o.approvalRequestCount + 1, threadRefs := o.threadRefs + {threadId},
                turnRefs := o.turnRefs + {turnId});
    RefsShift(u);
    FailShifts(ValidateRefs(u), DECLINED_APPROVAL_REQUEST);
    ShiftTwice(o.verdict, ValidateRefs(u).verdict, RecordApproval(o, threadId, turnId).verdict,
      RefsBlame(o.session, o.operation, o.threadRefs + {threadId}, o.turnRefs + {turnId}), {DECLINED_APPROVAL_REQUEST});
  }
}
