/**
 * How an order ends: which event closes it, in which status and with which one action; when it is
 * asked about; and that nothing moves it afterwards.
 */
module MachineEnds {
  import opened Integers
  import opened MachineRuns
  import opened OrderMachine
  import opened Utf8
  import opened Wrappers

  predicate Live(sm: Sm) {
    sm.status.New? || sm.status.PartiallyFilled?
  }

  // --- What the exchange says ------------------------------------------------

  // A status check is heard by an order in doubt only.
  predicate CheckSays(sm: Sm, input: SmInput, outcome: StatusCheckOutcome) {
    sm.status.UnknownStatus? && input == StatusCheckResult(outcome)
  }

  predicate SaysCancelled(sm: Sm, input: SmInput) {
    input.CancelConfirmed? || exists id: u64 :: CheckSays(sm, input, CancelledOutcome(id))
  }

  // An expiry is heard by a live order only.
  predicate SaysExpired(sm: Sm, input: SmInput) {
    (Live(sm) && input.ExpireReceived?) || exists id: u64 :: CheckSays(sm, input, ExpiredOutcome(id))
  }

  // A rejection is not heard by an order in doubt; for that a check has to say so.
  predicate SaysRejected(sm: Sm, input: SmInput, reason: Str) {
    || (!sm.status.UnknownStatus? && input == RejectReceived(reason))
    || CheckSays(sm, input, RejectedOutcome(reason))
  }

  // Or that there is no such order.
  predicate SaysNotFound(sm: Sm, input: SmInput) {
    CheckSays(sm, input, NotFound)
  }

  predicate CheckSaysFilled(sm: Sm, input: SmInput) {
    sm.status.UnknownStatus? && input.StatusCheckResult? && input.outcome.FilledOutcome?
  }

  // --- One event -------------------------------------------------------------

  // An open order is cancelled, expired or rejected exactly by what says so, with exactly the one
  // action that tells the gateway, and nothing but its status changes.
  lemma {:induction false} CancelledIff(sm: Sm, input: SmInput)
    requires !sm.status.IsTerminal()
    ensures Process(sm, input).sm.status.Cancelled? <==> SaysCancelled(sm, input)
    ensures SaysCancelled(sm, input) ==> Process(sm, input) == Processed(sm.(status := Cancelled), [ApplyCancel])
  {
    if exists id: u64 :: CheckSays(sm, input, CancelledOutcome(id)) {
      var id: u64 :| CheckSays(sm, input, CancelledOutcome(id));
    } else if sm.status.UnknownStatus? && input.StatusCheckResult? && input.outcome.CancelledOutcome? {
      assert CheckSays(sm, input, CancelledOutcome(input.outcome.exchangeId));
    }
  }

  lemma {:induction false} ExpiredIff(sm: Sm, input: SmInput)
    requires !sm.status.IsTerminal()
    ensures Process(sm, input).sm.status.Expired? <==> SaysExpired(sm, input)
    ensures SaysExpired(sm, input) ==> Process(sm, input) == Processed(sm.(status := Expired), [ApplyExpire])
  {
    if exists id: u64 :: CheckSays(sm, input, ExpiredOutcome(id)) {
      var id: u64 :| CheckSays(sm, input, ExpiredOutcome(id));
    } else if sm.status.UnknownStatus? && input.StatusCheckResult? && input.outcome.ExpiredOutcome? {
      assert CheckSays(sm, input, ExpiredOutcome(input.outcome.exchangeId));
    }
  }

  lemma {:induction false} RejectionRejects(sm: Sm, input: SmInput, reason: Str)
    requires !sm.status.IsTerminal() && SaysRejected(sm, input, reason)
    ensures Process(sm, input) == Processed(sm.(status := Rejected), [ApplyReject(reason)])
  {
  }

  lemma {:induction false} NotFoundRejects(sm: Sm, input: SmInput)
    requires SaysNotFound(sm, input)
    ensures Process(sm, input) == Processed(sm.(status := Rejected), [ApplyReject(NotFoundReason())])
  {
  }

  lemma {:induction false} RejectedWasSaid(sm: Sm, input: SmInput)
    requires !sm.status.IsTerminal() && Process(sm, input).sm.status.Rejected?
    ensures SaysNotFound(sm, input) || exists reason: Str :: SaysRejected(sm, input, reason)
  {
    if input.RejectReceived? {
      assert SaysRejected(sm, input, input.reason);
    } else if input.StatusCheckResult? && input.outcome.RejectedOutcome? {
      assert SaysRejected(sm, input, input.outcome.reason);
    }
  }

  lemma {:induction false} RejectedIff(sm: Sm, input: SmInput)
    requires !sm.status.IsTerminal()
    ensures Process(sm, input).sm.status.Rejected?
       <==> SaysNotFound(sm, input) || exists reason: Str :: SaysRejected(sm, input, reason)
  {
    if Process(sm, input).sm.status.Rejected? {
      RejectedWasSaid(sm, input);
    } else if SaysNotFound(sm, input) {
      NotFoundRejects(sm, input);
    } else if reason: Str :| SaysRejected(sm, input, reason) {
      RejectionRejects(sm, input, reason);
    }
  }

  // An order is filled exactly by a check that says so, or by an acknowledgement or a new fill that
  // brings it to its quantity; otherwise those two leave it live.
  predicate HearsAck(sm: Sm, input: SmInput) {
    && Waiting(sm)
    && (input.Acknowledged? || exists id: u64 :: CheckSays(sm, input, LiveOutcome(id)))
  }

  predicate HearsFill(sm: Sm, input: SmInput) {
    Live(sm) && input.FillReceived? && input.trade.tradeId !in sm.seen
  }

  lemma {:induction false} AckLeavesLive(sm: Sm, input: SmInput)
    requires HearsAck(sm, input)
    ensures var after := Process(sm, input).sm;
            && (after.status.Filled? <==> after.filledQty >= sm.totalQty)
            && (after.status.PartiallyFilled? <==> 0 < after.filledQty < sm.totalQty)
            && (Live(after) || after.status.Filled?)
  {
    if id: u64 :| CheckSays(sm, input, LiveOutcome(id)) {
      assert Process(sm, input) == Flush(sm, id);
    } else {
      assert Process(sm, input) == Flush(sm, input.exchangeId);
    }
  }

  lemma {:induction false} FillLeavesLive(sm: Sm, input: SmInput)
    requires HearsFill(sm, input)
    ensures var after := Process(sm, input).sm;
            && (after.status.Filled? <==> after.filledQty >= sm.totalQty)
            && (after.status.Filled? || after.status.PartiallyFilled?)
  {
  }

  // No other input of an open order fills it or makes it live.
  lemma {:induction false} OthersLeaveStatus(sm: Sm, input: SmInput)
    requires !sm.status.IsTerminal() && !HearsAck(sm, input) && !HearsFill(sm, input) && !CheckSaysFilled(sm, input)
    ensures var after := Process(sm, input).sm;
            after.status == sm.status || after.status.Cancelled? || after.status.Expired? || after.status.Rejected?
  {
    if sm.status.UnknownStatus? && input.StatusCheckResult? {
      if input.outcome.LiveOutcome? {
        assert CheckSays(sm, input, LiveOutcome(input.outcome.exchangeId));
      }
    }
  }

  lemma {:induction false} FilledIff(sm: Sm, input: SmInput)
    requires !sm.status.IsTerminal()
    ensures Process(sm, input).sm.status.Filled?
       <==> CheckSaysFilled(sm, input)
            || ((HearsAck(sm, input) || HearsFill(sm, input)) && Process(sm, input).sm.filledQty >= sm.totalQty)
  {
    if CheckSaysFilled(sm, input) {
      assert Process(sm, input) == Resolve(sm, input.outcome);
    } else if HearsAck(sm, input) {
      AckLeavesLive(sm, input);
    } else if HearsFill(sm, input) {
      FillLeavesLive(sm, input);
    } else {
      OthersLeaveStatus(sm, input);
    }
  }

  // A finished order never moves again, whatever arrives.
  lemma {:induction false} FinishedStays(sm: Sm, timeoutNs: i64, event: Event)
    requires sm.status.IsTerminal()
    ensures Next(sm, timeoutNs, event).sm == sm
    ensures Next(sm, timeoutNs, event).actions == if event.Arrived? then [Ignored] else []
  {
  }

  // --- Timeouts --------------------------------------------------------------

  // A pending order is in doubt when it is older than the timeout; a timeout of i64::MAX never runs out.
  lemma {:induction false} TimedOutIff(sm: Sm, nowNs: i64, timeoutNs: i64)
    ensures TimedOut(sm, nowNs, timeoutNs)
       <==> sm.status.Pending? && nowNs - sm.submittedNs > timeoutNs && timeoutNs < I64_MAX
  {
  }

  predicate Overdue(sm: Sm, timeoutNs: i64, event: Event) {
    event.Ticked? && event.nowNs - sm.submittedNs > timeoutNs && timeoutNs < I64_MAX
  }

  // A status is asked for exactly when a tick finds a pending order overdue or a check failed.
  lemma {:induction false} AsksIff(sm: Sm, timeoutNs: i64, event: Event)
    ensures ScheduleStatusCheck in Next(sm, timeoutNs, event).actions
       <==> (sm.status.Pending? && Overdue(sm, timeoutNs, event))
            || (event.Arrived? && exists reason: Str :: CheckSays(sm, event.input, CheckFailed(reason)))
    ensures ScheduleStatusCheck in Next(sm, timeoutNs, event).actions ==>
              && Next(sm, timeoutNs, event).actions == [ScheduleStatusCheck]
              && Next(sm, timeoutNs, event).sm == sm.(status := UnknownStatus)
  {
    match event
    case Ticked(nowNs) =>
      TimedOutIff(sm, nowNs, timeoutNs);
    case Arrived(input, _) =>
      if ScheduleStatusCheck in Process(sm, input).actions {
        OnlyFailedChecksAsk(sm, input);
      }
      if reason: Str :| CheckSays(sm, input, CheckFailed(reason)) {
        assert Process(sm, input) == Processed(sm, [ScheduleStatusCheck]);
      }
  }

  lemma {:induction false} FillsDoNotAsk(fills: seq<Fill>)
    ensures ScheduleStatusCheck !in FillActions(fills)
  {
    if fills != [] {
      FillsDoNotAsk(fills[..|fills| - 1]);
    }
  }

  lemma {:induction false} FlushesDoNotAsk(exchangeId: u64, fills: seq<Fill>)
    ensures ScheduleStatusCheck !in [ApplyAck(exchangeId)] + FillActions(fills)
  {
    FillsDoNotAsk(fills);
  }

  lemma {:induction false} OnlyFailedChecksAsk(sm: Sm, input: SmInput)
    requires ScheduleStatusCheck in Process(sm, input).actions
    ensures exists reason: Str :: CheckSays(sm, input, CheckFailed(reason))
  {
    if input.Acknowledged? {
      FlushesDoNotAsk(input.exchangeId, sm.buffered);
    } else if input.StatusCheckResult? && sm.status.UnknownStatus? {
      CheckAsks(sm, input.outcome);
    }
  }

  lemma {:induction false} CheckAsks(sm: Sm, outcome: StatusCheckOutcome)
    requires sm.status.UnknownStatus? && ScheduleStatusCheck in Resolve(sm, outcome).actions
    ensures exists reason: Str :: CheckSays(sm, StatusCheckResult(outcome), CheckFailed(reason))
  {
    match outcome
    case LiveOutcome(exchangeId) =>
      FlushesDoNotAsk(exchangeId, sm.buffered);
    case FilledOutcome(exchangeId, trades) =>
      FlushesDoNotAsk(exchangeId, Fills(Unseen(sm.seen, trades)) + sm.buffered);
    case CheckFailed(reason) =>
      assert CheckSays(sm, StatusCheckResult(outcome), CheckFailed(reason));
    case _ =>
  }

  // Ticks alone put an order in doubt exactly when the latest of them finds it overdue.
  lemma {:induction false} TicksTimeOutIff(sm: Sm, timeoutNs: i64, events: seq<Event>)
    requires sm.status.Pending? && forall i | 0 <= i < |events| :: events[i].Ticked?
    ensures var at := RunMachine(sm, timeoutNs, events).sm;
            && (at.status.UnknownStatus? <==> exists i :: 0 <= i < |events| && Overdue(sm, timeoutNs, events[i]))
            && at == sm.(status := at.status) && (at.status.Pending? || at.status.UnknownStatus?)
  {
    if events != [] {
      var before, last := events[..|events| - 1], events[|events| - 1];
      TicksTimeOutIff(sm, timeoutNs, before);
      TimedOutIff(RunMachine(sm, timeoutNs, before).sm, last.nowNs, timeoutNs);
      assert events == before + [last];
    }
  }

  // --- Whole runs ------------------------------------------------------------

  predicate AllIgnored(actions: seq<SmAction>) {
    forall a | a in actions :: a.Ignored?
  }

  predicate Open(sm: Sm) {
    !sm.status.IsTerminal()
  }

  // Every finished run has one event that closed the order: it was open before it and as it is now
  // right after it, and from then on nothing is done but to ignore what arrives.
  lemma {:induction false} OneEventCloses(sm: Sm, timeoutNs: i64, events: seq<Event>) returns (i: nat)
    requires Open(sm) && !Open(RunMachine(sm, timeoutNs, events).sm)
    ensures i < |events| && events[i].Arrived?
    ensures var before := RunMachine(sm, timeoutNs, events[..i]);
            var closing := Process(before.sm, events[i].input);
            && Open(before.sm) && closing.sm == RunMachine(sm, timeoutNs, events).sm
            && before.actions + closing.actions <= RunMachine(sm, timeoutNs, events).actions
            && AllIgnored(RunMachine(sm, timeoutNs, events).actions[|before.actions + closing.actions|..])
  {
    var front, last := events[..|events| - 1], events[|events| - 1];
    var at := RunMachine(sm, timeoutNs, front);
    if Open(at.sm) {
      i := |front|;
      assert events[..i] == front;
      TicksStayOpen(at.sm, timeoutNs, last);
    } else {
      i := OneEventCloses(sm, timeoutNs, front);
      assert front[..i] == events[..i];
      FinishedStays(at.sm, timeoutNs, last);
    }
  }

  lemma {:induction false} TicksStayOpen(sm: Sm, timeoutNs: i64, event: Event)
    requires Open(sm) && !Open(Next(sm, timeoutNs, event).sm)
    ensures event.Arrived?
  {
  }

  // So the way a run ended tells what closed it.
  lemma {:induction false} EndTellsItsCause(sm: Sm, timeoutNs: i64, events: seq<Event>) returns (i: nat)
    requires Open(sm) && !Open(RunMachine(sm, timeoutNs, events).sm)
    ensures i < |events| && events[i].Arrived?
    ensures var end, at := RunMachine(sm, timeoutNs, events).sm.status, RunMachine(sm, timeoutNs, events[..i]).sm;
            && Open(at)
            && (end.Cancelled? <==> SaysCancelled(at, events[i].input))
            && (end.Expired? <==> SaysExpired(at, events[i].input))
            && (end.Rejected? <==> SaysNotFound(at, events[i].input)
                                   || exists reason: Str :: SaysRejected(at, events[i].input, reason))
            && (end.Filled? ==> CheckSaysFilled(at, events[i].input)
                                || HearsAck(at, events[i].input) || HearsFill(at, events[i].input))
  {
    i := OneEventCloses(sm, timeoutNs, events);
    var at := RunMachine(sm, timeoutNs, events[..i]).sm;
    CancelledIff(at, events[i].input);
    ExpiredIff(at, events[i].input);
    RejectedIff(at, events[i].input);
    FilledIff(at, events[i].input);
  }
}
