// Whole Worker runs: which reports satisfy the relation of terminal observations, told from what is
// known before the shutdown, and two runs of the adapter whose reports do not.
module WorkerReports {
  import opened Options
  import opened CodeUnits
  import opened JsonAccess
  import opened JsonValues
  import opened ObserverModel
  import opened WorkerRunModel
  import R = WorkerRuns
  import C = WorkerCompletion

  // ---- The condition in advance ----

  // A failed turn whose Worker Event could not be built, or that a client which does not close cleanly
  // takes with it; a host that cancels at the end replaces the failure.
  predicate Loses(r: Run, clean: bool, aborted: bool) {
    && r.observer.verdict.failure == Some(BACKEND_TURN_FAILED) && !aborted
    && (r.constructionFailed || !clean || r.handlerThrew)
  }

  lemma {:induction false} ConcludedFailure(r: Run, aborted: bool)
    requires R.Concludes(r)
    ensures Conclude(r, aborted).report.Some? &&
      (Conclude(r, aborted).report.value.failure == Some(BACKEND_TURN_FAILED) <==>
        r.observer.verdict.failure == Some(BACKEND_TURN_FAILED) && !aborted)
    ensures Conclude(r, aborted).constructionFailed == r.constructionFailed && Conclude(r, aborted).uncleanShutdown == r.uncleanShutdown
  {
  }

  lemma {:induction false} ShutDownReports(r: Run, clean: bool, aborted: bool)
    requires R.EventInv(r) && r.phase.ShuttingDown?
    ensures var s := ShutDown(r, clean, aborted);
      s.report.Some? && (R.WellFormedReport(s.report.value) <==> !Loses(r, clean, aborted))
  {
    R.ShutDownKeepsReport(r, clean, aborted);
    if clean && !r.handlerThrew {
      ConcludedFailure(r, aborted);
    } else {
      ConcludedFailure(r.(event := None, uncleanShutdown := true, observer := Fail(r.observer, CLEAN_SHUTDOWN_FAILED)), aborted);
    }
  }

  // The event is the shutdown of a run that loses its result event at it.
  predicate LosesAtOnce(r: Run, e: RunEvent) {
    e.RShutDown? && r.phase.ShuttingDown? && Loses(r, e.closedCleanly, e.aborted)
  }

  ghost predicate LosesEventAt(es: seq<RunEvent>, i: nat, d: Directive) {
    i < |es| && LosesAtOnce(RunOf(es[..i], d), es[i])
  }

  lemma {:induction false} OneMore(es: seq<RunEvent>, e: RunEvent, d: Directive)
    ensures RunOf(es + [e], d) == Step(RunOf(es, d), e, d)
  {
    assert (es + [e])[..|es|] == es;
  }

  lemma {:induction false} LastOf(es: seq<RunEvent>) returns (before: seq<RunEvent>, e: RunEvent)
    requires es != []
    ensures es == before + [e]
  {
    before, e := es[..|es| - 1], es[|es| - 1];
  }

  lemma {:induction false} ReportStays(es: seq<RunEvent>, i: nat, d: Directive)
    requires (forall e | e in es :: Possible(e)) && i <= |es| && RunOf(es[..i], d).report.Some?
    ensures RunOf(es, d).report == RunOf(es[..i], d).report
    decreases |es|
  {
    if i == |es| {
      assert es[..i] == es;
    } else {
      var before, e := LastOf(es);
      assert es[..i] == before[..i];
      ReportStays(before, i, d);
      R.TerminalRelationExactly(before, d);
      C.Reported(RunOf(before, d), e, d);
      OneMore(before, e, d);
    }
  }

  lemma {:induction false} LosingReports(es: seq<RunEvent>, i: nat, d: Directive)
    requires (forall e | e in es :: Possible(e)) && LosesEventAt(es, i, d)
    ensures RunOf(es, d).report.Some?
  {
    var before, e := es[..i], es[i];
    R.TerminalRelationExactly(before, d);
    ShutDownReports(RunOf(before, d), e.closedCleanly, e.aborted);
    OneMore(before, e, d);
    assert before + [e] == es[..i + 1];
    ReportStays(es, i + 1, d);
  }

  lemma {:induction false} NotLostBefore(before: seq<RunEvent>, e: RunEvent, i: nat, d: Directive)
    requires (forall x | x in before :: Possible(x)) && i < |before|
    ensures LosesEventAt(before + [e], i, d) <==> LosesEventAt(before, i, d)
    ensures LosesEventAt(before, i, d) ==> RunOf(before, d).report.Some?
  {
    assert (before + [e])[..i] == before[..i] && (before + [e])[i] == before[i];
    if LosesEventAt(before, i, d) { LosingReports(before, i, d); }
  }

  lemma {:induction false} StartFailedIsWellFormed(r: Run, code: FailureCode, aborted: bool, later: bool)
    requires R.EventInv(r) && r.phase.Starting? && code != BACKEND_TURN_FAILED
    ensures var s := StartFailed(r, code, aborted, later); s.report.Some? && R.WellFormedReport(s.report.value)
  {
    R.StartFailedReports(r, code, aborted, later);
    R.CaughtKeepsReport(r, code, aborted);
    ConcludedFailure(Caught(r, code, aborted), later);
  }

  // The step that reports.
  lemma {:induction false} ReportingStep(r: Run, e: RunEvent, d: Directive)
    requires R.EventInv(r) && Possible(e) && Step(r, e, d).report.Some?
    ensures R.WellFormedReport(Step(r, e, d).report.value) <==>
      !LosesAtOnce(r, e)
  {
    match e {
      case RStartFailed(code, aborted, later) => StartFailedIsWellFormed(r, code, aborted, later);
      case RShutDown(clean, aborted) => ShutDownReports(r, clean, aborted);
      case _ => C.NoReportYet(r, e, d);
    }
  }

  // Every report of every run satisfies the relation exactly when the run did not lose its result event
  // at a shutdown; whether it does is known when the shutdown ends.
  lemma {:induction false} TerminalRelationInAdvance(es: seq<RunEvent>, d: Directive)
    requires (forall e | e in es :: Possible(e)) && RunOf(es, d).report.Some?
    ensures R.WellFormedReport(RunOf(es, d).report.value) <==> !exists i: nat :: LosesEventAt(es, i, d)
    decreases |es|
  {
    if es != [] {
      var before, e := LastOf(es);
      OneMore(before, e, d);
      R.TerminalRelationExactly(before, d);
      var r := RunOf(before, d);
      assert es[..|before|] == before && es[|before|] == e;
      forall i: nat | i < |before|
        ensures (LosesEventAt(es, i, d) <==> LosesEventAt(before, i, d)) && (LosesEventAt(before, i, d) ==> r.report.Some?)
      {
        NotLostBefore(before, e, i, d);
      }
      if r.report.Some? {
        TerminalRelationInAdvance(before, d);
        C.Reported(r, e, d);
      } else {
        ReportingStep(r, e, d);
        assert LosesEventAt(es, |before|, d) <==> LosesAtOnce(r, e);
      }
    }
  }

  // ---- Two runs that lose their event ----

  // A text that the observer takes as an identifier.
  predicate IsIdentifier(t: Text) { !AllWhitespace(t) && Utf8Length(t) <= 1024 }

  const FAILED_STATUS := Ascii("failed")

  // The notification of a turn that failed.
  function FailedTurn(thread: Text, turn: Text): Notification { Notification("turn/completed", FailedTurnParams(thread, turn)) }

  function FailedTurnParams(thread: Text, turn: Text): Json {
    Obj(map[Ascii("threadId") := Str(thread), Ascii("turn") := FailedTurnBody(turn)])
  }

  function FailedTurnBody(turn: Text): Json {
    Obj(map[Ascii("id") := Str(turn), Ascii("status") := Str(FAILED_STATUS), Ascii("items") := Arr([])])
  }

  function Opening(thread: Text, turn: Text, prompt: Text): seq<RunEvent> {
    [RLaunch(None, false), RThreadReady(thread, None, false, Some(prompt)), RTurnReady(turn, None, false)]
  }

  predicate Awaits(r: Run, thread: Text, turn: Text) {
    && r.phase.AwaitingTerminal? && r.threadId == thread && r.turnId == turn && r.observer.verdict.failure.None?
    && r.observer.session == Some(thread) && r.observer.operation == Some(turn) && r.observer.terminal.None?
    && r.observer.maintenanceTurn.None? && !r.observer.manualCompactionPending && r.observer.notificationCount == 0
    && r.observer.threadRefs == {} && r.observer.turnRefs == {}
  }

  lemma {:induction false} OpeningAwaits(thread: Text, turn: Text, prompt: Text, d: Directive)
    requires !d.manualCompaction
    ensures Awaits(RunOf(Opening(thread, turn, prompt), d), thread, turn)
  {
    var one, two := [RLaunch(None, false)], [RLaunch(None, false), RThreadReady(thread, None, false, Some(prompt))];
    OneMore([], RLaunch(None, false), d);
    OneMore(one, RThreadReady(thread, None, false, Some(prompt)), d);
    OneMore(two, RTurnReady(turn, None, false), d);
    assert [] + one == one && one + [RThreadReady(thread, None, false, Some(prompt))] == two;
    assert two + [RTurnReady(turn, None, false)] == Opening(thread, turn, prompt);
    assert RunOf([], d) == READY_TO_RUN;
  }

  lemma {:induction false} Utf8AtMost(t: Text)
    ensures Utf8Length(t) <= 3 * |t|
    decreases |t|
  {
    if t != [] {
      if 0xD800 <= t[0] < 0xDC00 && |t| > 1 && 0xDC00 <= t[1] < 0xE000 { Utf8AtMost(t[2..]); } else { Utf8AtMost(t[1..]); }
    }
  }

  lemma {:induction false} BodyProperties(turn: Text)
    ensures var b := FailedTurnBody(turn);
      && Property(b, "id") == Some(Str(turn)) && Property(b, "status") == Some(Str(FAILED_STATUS))
      && Property(b, "items") == Some(Arr([])) && Property(b, "itemsView").None? && Property(b, "error").None?
  {
    assert |Ascii("id")| == 2 && |Ascii("status")| == 6 && |Ascii("items")| == 5 && |Ascii("itemsView")| == 9;
    assert |Ascii("error")| == 5 && Ascii("error")[0] == 'e' as int && Ascii("items")[0] == 'i' as int;
  }

  lemma {:induction false} ParamsProperties(thread: Text, turn: Text)
    ensures var p := FailedTurnParams(thread, turn);
      Property(p, "threadId") == Some(Str(thread)) && Property(p, "turn") == Some(FailedTurnBody(turn)) && Property(p, "turnId").None?
  {
    assert |Ascii("threadId")| == 8 && |Ascii("turn")| == 4 && |Ascii("turnId")| == 6;
  }

  lemma {:induction false} StatusIsBounded()
    ensures BoundedString(Some(Str(FAILED_STATUS)), 16384) == Some(FAILED_STATUS) && FAILED_STATUS != Ascii("completed")
  {
    Utf8AtMost(FAILED_STATUS);
    assert FAILED_STATUS[0] == 'f' as int && !IsWhitespace(FAILED_STATUS[0]) && |FAILED_STATUS| == 6 && |Ascii("completed")| == 9;
  }

  lemma {:induction false} FailedTurnProjects(thread: Text, turn: Text)
    requires IsIdentifier(thread) && IsIdentifier(turn)
    ensures ProjectTerminalTurn(FailedTurn(thread, turn)) == Projected(TerminalTurn(thread, turn, FAILED_STATUS, None, []))
    ensures FailedTurn(thread, turn).ThreadId() == Some(thread) && FailedTurn(thread, turn).TurnId().None?
  {
    BodyProperties(turn);
    ParamsProperties(thread, turn);
    StatusIsBounded();
  }

  // No forbidden name or prefix begins like "turn/completed".
  lemma {:induction false} TurnNamesAreAllowed(name: string)
    requires |name| >= 2 && name[0] == 't' && name[1] == 'u'
    ensures name !in FORBIDDEN_METHODS && !("remoteControl/" <= name)
    ensures forall p | p in FORBIDDEN_PREFIXES :: !(p <= name)
  {
  }

  lemma {:induction false} FailedTurnIsAllowed(thread: Text, turn: Text)
    ensures !Forbidden(FailedTurn(thread, turn))
  {
    TurnNamesAreAllowed("turn/completed");
  }

  lemma {:induction false} FailedTurnRecorded(o: Observer, thread: Text, turn: Text, d: Directive)
    ensures NotificationSeen(o, FailedTurn(thread, turn), d) == o.(threadRefs := o.threadRefs + {thread})
  {
    ParamsProperties(thread, turn);
    FailedTurnIsAllowed(thread, turn);
  }

  lemma {:induction false} FailedTurnEnds(o: Observer, thread: Text, turn: Text, d: Directive)
    requires IsIdentifier(thread) && IsIdentifier(turn) && o.verdict.failure.None? && o.terminal.None?
    requires o.session == Some(thread) && o.operation == Some(turn) && o.maintenanceTurn.None? && !o.manualCompactionPending
    requires o.threadRefs == {thread} && o.turnRefs == {}
    ensures var (t, threw) := NotificationEnded(o, FailedTurn(thread, turn), d);
      t.verdict.failure.None? && t.terminal == Some(TerminalTurn(thread, turn, FAILED_STATUS, None, [])) && !threw
  {
    FailedTurnProjects(thread, turn);
  }

  lemma {:induction false} RecordedIs(o: Observer, n: Notification, seen: Observer, d: Directive)
    requires o.notificationCount < 10000 && NotificationSeen(o.(notificationCount := o.notificationCount + 1), n, d) == seen
    ensures RecordNotification(o, n, d) == NotificationEnded(seen, n, d)
  {
  }

  lemma {:induction false} FailedTurnSeen(r: Run, thread: Text, turn: Text, d: Directive)
    requires Awaits(r, thread, turn) && IsIdentifier(thread) && IsIdentifier(turn)
    ensures var s := Step(r, RNotification(FailedTurn(thread, turn)), d);
      && s.phase.AwaitingTerminal? && s.threadId == thread && s.turnId == turn && s.observer.verdict.failure.None?
      && s.observer.terminal == Some(TerminalTurn(thread, turn, FAILED_STATUS, None, []))
  {
    var n := FailedTurn(thread, turn);
    var counted := r.observer.(notificationCount := r.observer.notificationCount + 1);
    var seen := counted.(threadRefs := counted.threadRefs + {thread});
    FailedTurnRecorded(counted, thread, turn, d);
    RecordedIs(r.observer, n, seen, d);
    FailedTurnEnds(seen, thread, turn, d);
    NotifiedIs(r, n, d);
  }

  lemma {:induction false} NotifiedIs(r: Run, n: Notification, d: Directive)
    requires r.phase.AwaitingTerminal?
    ensures var s := Step(r, RNotification(n), d);
      s.observer == RecordNotification(r.observer, n, d).0 && s.phase == r.phase && s.threadId == r.threadId && s.turnId == r.turnId
  {
  }

  function LosingRun(thread: Text, turn: Text, prompt: Text, built: Built, clean: bool): seq<RunEvent> {
    Opening(thread, turn, prompt) + [RNotification(FailedTurn(thread, turn))] +
    [RWaited(TERMINAL, Ending(false, built), false)] + [RShutDown(clean, false)]
  }

  lemma {:induction false} FailedTurnAwaits(thread: Text, turn: Text, prompt: Text, d: Directive)
    requires !d.manualCompaction && IsIdentifier(thread) && IsIdentifier(turn)
    ensures var r := RunOf(Opening(thread, turn, prompt) + [RNotification(FailedTurn(thread, turn))], d);
      && R.EventInv(r) && r.phase.AwaitingTerminal? && r.threadId == thread && r.turnId == turn
      && r.observer.verdict.failure.None?
      && r.observer.terminal == Some(TerminalTurn(thread, turn, FAILED_STATUS, None, []))
  {
    var opening := Opening(thread, turn, prompt);
    OpeningAwaits(thread, turn, prompt, d);
    OneMore(opening, RNotification(FailedTurn(thread, turn)), d);
    FailedTurnSeen(RunOf(opening, d), thread, turn, d);
    R.TerminalRelationExactly(opening + [RNotification(FailedTurn(thread, turn))], d);
  }

  lemma {:induction false} LosingRunEnds(thread: Text, turn: Text, prompt: Text, built: Built, clean: bool, d: Directive)
    ensures RunOf(LosingRun(thread, turn, prompt, built, clean), d) ==
      Step(Step(RunOf(Opening(thread, turn, prompt) + [RNotification(FailedTurn(thread, turn))], d),
        RWaited(TERMINAL, Ending(false, built), false), d), RShutDown(clean, false), d)
  {
    var es := Opening(thread, turn, prompt) + [RNotification(FailedTurn(thread, turn))];
    OneMore(es, RWaited(TERMINAL, Ending(false, built), false), d);
    OneMore(es + [RWaited(TERMINAL, Ending(false, built), false)], RShutDown(clean, false), d);
  }

  // A run whose turn fails and whose client then does not close cleanly is reported without its event.
  lemma {:induction false} UncleanShutdownLosesTheEvent(thread: Text, turn: Text, prompt: Text, id: Text, d: Directive)
    requires !d.manualCompaction && IsIdentifier(thread) && IsIdentifier(turn)
    ensures var s := RunOf(LosingRun(thread, turn, prompt, Event(id), false), d);
      s.report.Some? && !R.WellFormedReport(s.report.value) && s.yielded.None?
  {
    FailedTurnAwaits(thread, turn, prompt, d);
    StatusIsBounded();
    LosingRunEnds(thread, turn, prompt, Event(id), false, d);
    R.UncleanShutdownLosesIt(RunOf(Opening(thread, turn, prompt) + [RNotification(FailedTurn(thread, turn))], d),
      TerminalTurn(thread, turn, FAILED_STATUS, None, []), id, d);
  }

  // And so is a run whose turn fails and whose Worker Event cannot be built, however the client closes.
  lemma {:induction false} FailedConstructionLosesTheEvent(
    thread: Text, turn: Text, prompt: Text, code: FailureCode, clean: bool, d: Directive)
    requires !d.manualCompaction && IsIdentifier(thread) && IsIdentifier(turn) && code != HOST_CANCELLED
    ensures var s := RunOf(LosingRun(thread, turn, prompt, Error(code), clean), d);
      s.report.Some? && !R.WellFormedReport(s.report.value) && s.yielded.None?
  {
    FailedTurnAwaits(thread, turn, prompt, d);
    StatusIsBounded();
    LosingRunEnds(thread, turn, prompt, Error(code), clean, d);
    R.FailedConstructionLosesIt(RunOf(Opening(thread, turn, prompt) + [RNotification(FailedTurn(thread, turn))], d),
      TerminalTurn(thread, turn, FAILED_STATUS, None, []), code, clean, d);
  }
}
