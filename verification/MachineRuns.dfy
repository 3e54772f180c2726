/**
 * Runs of the order machine: every fill is accounted for exactly once, whatever arrives, and the
 * order in which acknowledgements, fills and timeouts are delivered does not matter.
 */
module MachineRuns {
  import opened Integers
  import opened OrderMachine
  import opened Trades

  datatype Event = Arrived(input: SmInput, nowNs: i64) | Ticked(nowNs: i64)

  function Next(sm: Sm, timeoutNs: i64, event: Event): Processed {
    match event
    case Arrived(input, _) => Process(sm, input)
    case Ticked(nowNs) =>
      Processed(OrderMachine.Ticked(sm, nowNs, timeoutNs),
                if TimedOut(sm, nowNs, timeoutNs) then [ScheduleStatusCheck] else [])
  }

  // The state after a run and all actions emitted along it.
  function RunMachine(sm: Sm, timeoutNs: i64, events: seq<Event>): Processed {
    if events == [] then Processed(sm, [])
    else
      var before := RunMachine(sm, timeoutNs, events[..|events| - 1]);
      var done := Next(before.sm, timeoutNs, events[|events| - 1]);
      Processed(done.sm, before.actions + done.actions)
  }

  predicate Submitted(sm: Sm) {
    sm.status.Pending? && sm.filledQty == 0 && sm.buffered == [] && sm.seen == {}
  }

  // The fills the gateway was told to apply.
  function Emitted(actions: seq<SmAction>): seq<Fill> {
    if actions == [] then []
    else
      Emitted(actions[..|actions| - 1])
      + match actions[|actions| - 1] case ApplyFill(fill) => [fill] case _ => []
  }

  // The trades an event delivers to an order that still takes fills.
  function OfferedBy(sm: Sm, input: SmInput): seq<TradeFill> {
    match input
    case FillReceived(trade) => if sm.status.IsTerminal() then [] else [trade]
    case StatusCheckResult(outcome) =>
      if sm.status.UnknownStatus? && outcome.FilledOutcome? then outcome.fills else []
    case _ => []
  }

  function Offered(sm: Sm, event: Event): seq<TradeFill> {
    match event
    case Ticked(_) => []
    case Arrived(input, _) => OfferedBy(sm, input)
  }

  function OfferedInRun(sm: Sm, timeoutNs: i64, events: seq<Event>): seq<TradeFill> {
    if events == [] then []
    else
      var before := events[..|events| - 1];
      OfferedInRun(sm, timeoutNs, before) + Offered(RunMachine(sm, timeoutNs, before).sm, events[|events| - 1])
  }

  lemma {:induction false} EmittedConcat(a: seq<SmAction>, b: seq<SmAction>)
    ensures Emitted(a + b) == Emitted(a) + Emitted(b)
  {
    if b == [] {
      assert a + b == a;
    } else {
      EmittedConcat(a, b[..|b| - 1]);
      assert (a + b)[..|a + b| - 1] == a + b[..|b| - 1];
    }
  }

  lemma {:induction false} EmittedFills(fills: seq<Fill>)
    ensures Emitted(FillActions(fills)) == fills
  {
    if fills != [] {
      var front, last := fills[..|fills| - 1], fills[|fills| - 1];
      EmittedFills(front);
      assert FillActions(fills)[..|fills| - 1] == FillActions(front);
      assert fills == front + [last];
    }
  }

  lemma {:induction false} EmittedOne(action: SmAction)
    ensures Emitted([action]) == match action case ApplyFill(fill) => [fill] case _ => []
  {
    assert [action][..0] == [];
  }

  lemma {:induction false} EmittedAckFills(exchangeId: u64, fills: seq<Fill>)
    ensures Emitted([ApplyAck(exchangeId)] + FillActions(fills)) == fills
  {
    EmittedConcat([ApplyAck(exchangeId)], FillActions(fills));
    EmittedOne(ApplyAck(exchangeId));
    EmittedFills(fills);
  }

  // --- Exactly once ----------------------------------------------------------

  lemma {:induction false} IdsConcat(a: seq<TradeFill>, b: seq<TradeFill>)
    ensures Ids(a + b) == Ids(a) + Ids(b)
  {
    if b == [] {
      assert a + b == a;
    } else {
      IdsConcat(a, b[..|b| - 1]);
      assert (a + b)[..|a + b| - 1] == a + b[..|b| - 1];
    }
  }

  lemma {:induction false} UnseenConcat(seen: set<u64>, a: seq<TradeFill>, b: seq<TradeFill>)
    ensures Unseen(seen, a + b) == Unseen(seen, a) + Unseen(seen + Ids(a), b)
  {
    if b == [] {
      assert a + b == a;
    } else {
      var front, last := b[..|b| - 1], b[|b| - 1];
      UnseenConcat(seen, a, front);
      IdsConcat(a, front);
      assert (a + b)[..|a + b| - 1] == a + front;
      assert (a + b)[|a + b| - 1] == last;
    }
  }

  lemma {:induction false} FillsOfConcat(a: seq<TradeFill>, b: seq<TradeFill>)
    ensures Fills(a + b) == Fills(a) + Fills(b)
  {
    if b == [] {
      assert a + b == a;
    } else {
      FillsOfConcat(a, b[..|b| - 1]);
      assert (a + b)[..|a + b| - 1] == a + b[..|b| - 1];
    }
  }

  // No trade id comes up twice among the first deliveries.
  lemma {:induction false} FirstDeliveriesAreDistinct(seen: set<u64>, trades: seq<TradeFill>)
    ensures Ids(Unseen(seen, trades)) == Ids(trades) - seen
    ensures |Unseen(seen, trades)| == |Ids(trades) - seen|
  {
    if trades != [] {
      var before, last := trades[..|trades| - 1], trades[|trades| - 1];
      FirstDeliveriesAreDistinct(seen, before);
      if last.tradeId in seen || last.tradeId in Ids(before) {
        assert Ids(trades) - seen == Ids(before) - seen;
      } else {
        assert Unseen(seen, trades)[..|Unseen(seen, before)|] == Unseen(seen, before);
        assert Ids(trades) - seen == (Ids(before) - seen) + {last.tradeId};
      }
    }
  }

  predicate Waiting(sm: Sm) {
    sm.status.Pending? || sm.status.UnknownStatus?
  }

  // What holds of a tracked order between events.
  predicate Orderly(sm: Sm) {
    && (Waiting(sm) ==> sm.filledQty == 0)
    && (sm.status.New? || sm.status.PartiallyFilled? || sm.status.Filled? ==> sm.buffered == [])
  }

  // One event's effect on the accounts: the trades it offers for the first time are either emitted
  // or held back, and exactly what is emitted is added to the filled quantity.
  ghost predicate Accounts(sm: Sm, trades: seq<TradeFill>, done: Processed) {
    Moves(sm, Ids(trades), Fills(Unseen(sm.seen, trades)), done.sm, Emitted(done.actions))
  }

  ghost predicate Moves(sm: Sm, ids: set<u64>, first: seq<Fill>, after: Sm, emitted: seq<Fill>) {
    && after.seen == sm.seen + ids
    && Bag(emitted) + Bag(after.buffered) == Bag(sm.buffered) + Bag(first)
    && after.filledQty == AddFills(sm.filledQty, emitted)
    && Orderly(after)
    && (Waiting(after) ==> Waiting(sm) && emitted == [])
    && (after.buffered != [] ==> emitted == [] && (Waiting(sm) || sm.buffered != []))
  }

  lemma {:induction false} FlushAccounts(sm: Sm, exchangeId: u64)
    requires Orderly(sm) && Waiting(sm)
    ensures Accounts(sm, [], Flush(sm, exchangeId))
  {
    EmittedAckFills(exchangeId, sm.buffered);
  }

  lemma {:induction false} IdleAccounts(sm: Sm, done: Processed)
    requires Orderly(sm) && done.sm.(status := sm.status) == sm && Orderly(done.sm)
    requires Waiting(done.sm) ==> Waiting(sm)
    requires |done.actions| == 0 || (|done.actions| == 1 && !done.actions[0].ApplyFill?)
    ensures Accounts(sm, [], done)
  {
    if done.actions != [] {
      assert done.actions == [done.actions[0]];
      EmittedOne(done.actions[0]);
    }
  }

  lemma {:induction false} UnseenOne(seen: set<u64>, trade: TradeFill)
    ensures Ids([trade]) == {trade.tradeId}
    ensures Fills(Unseen(seen, [trade])) == if trade.tradeId in seen then [] else [trade.fill]
  {
    assert [trade][..0] == [];
  }

  lemma {:induction false} BufferAccounts(sm: Sm, trade: TradeFill)
    requires Orderly(sm) && Waiting(sm)
    ensures Accounts(sm, [trade], BufferFill(sm, trade))
  {
    UnseenOne(sm.seen, trade);
    EmittedOne(Ignored);
    if trade.tradeId !in sm.seen {
      HoldingMoves(sm, trade);
    }
  }

  lemma {:induction false} HoldingMoves(sm: Sm, trade: TradeFill)
    requires Orderly(sm) && Waiting(sm) && trade.tradeId !in sm.seen
    ensures Moves(sm, {trade.tradeId}, [trade.fill], BufferFill(sm, trade).sm, [])
  {
    BagSnoc(sm.buffered, trade.fill);
    BagSnoc([], trade.fill);
    assert [] + [trade.fill] == [trade.fill];
  }

  lemma {:induction false} AddOneFill(qty: i64, fill: Fill)
    ensures AddFills(qty, [fill]) == WrapI64(qty + fill.qty)
  {
    assert [fill][..0] == [];
  }

  lemma {:induction false} ApplyingMoves(sm: Sm, trade: TradeFill)
    requires Orderly(sm) && (sm.status.New? || sm.status.PartiallyFilled?) && trade.tradeId !in sm.seen
    ensures Moves(sm, {trade.tradeId}, [trade.fill], ProcessLive(sm, FillReceived(trade)).sm, [trade.fill])
  {
    AddOneFill(sm.filledQty, trade.fill);
  }

  lemma {:induction false} LiveFillAccounts(sm: Sm, trade: TradeFill)
    requires Orderly(sm) && (sm.status.New? || sm.status.PartiallyFilled?)
    ensures Accounts(sm, [trade], ProcessLive(sm, FillReceived(trade)))
  {
    UnseenOne(sm.seen, trade);
    EmittedOne(Ignored);
    EmittedOne(ApplyFill(trade.fill));
    if trade.tradeId !in sm.seen {
      ApplyingMoves(sm, trade);
    }
  }

  lemma {:induction false} ReportAccounts(sm: Sm, exchangeId: u64, trades: seq<TradeFill>)
    requires Orderly(sm) && sm.status.UnknownStatus?
    ensures Accounts(sm, trades, Resolve(sm, FilledOutcome(exchangeId, trades)))
  {
    var first := Fills(Unseen(sm.seen, trades));
    EmittedAckFills(exchangeId, first + sm.buffered);
    ReportMoves(sm, Ids(trades), first);
  }

  lemma {:induction false} ReportMoves(sm: Sm, ids: set<u64>, first: seq<Fill>)
    ensures var emitted := first + sm.buffered;
            Moves(sm, ids, first, sm.(seen := sm.seen + ids, filledQty := AddFills(sm.filledQty, emitted),
                                      buffered := [], status := Filled), emitted)
  {
    BagConcat(first, sm.buffered);
  }

  lemma {:induction false} ResolveAccounts(sm: Sm, outcome: StatusCheckOutcome)
    requires Orderly(sm) && sm.status.UnknownStatus?
    ensures Accounts(sm, if outcome.FilledOutcome? then outcome.fills else [], Resolve(sm, outcome))
  {
    match outcome
    case LiveOutcome(exchangeId) => FlushAccounts(sm, exchangeId);
    case FilledOutcome(exchangeId, trades) => ReportAccounts(sm, exchangeId, trades);
    case _ => IdleAccounts(sm, Resolve(sm, outcome));
  }

  lemma {:induction false} ArrivalAccounts(sm: Sm, input: SmInput)
    requires Orderly(sm) && !sm.status.IsTerminal() && !input.StatusCheckResult?
    ensures Accounts(sm, if input.FillReceived? then [input.trade] else [], Process(sm, input))
  {
    match input
    case Acknowledged(exchangeId) =>
      if Waiting(sm) { FlushAccounts(sm, exchangeId); } else { IdleAccounts(sm, Process(sm, input)); }
    case FillReceived(trade) =>
      if Waiting(sm) { BufferAccounts(sm, trade); } else { LiveFillAccounts(sm, trade); }
    case _ =>
      IdleAccounts(sm, Process(sm, input));
  }

  lemma {:induction false} TickAccounts(sm: Sm, timeoutNs: i64, nowNs: i64)
    requires Orderly(sm)
    ensures Accounts(sm, [], Next(sm, timeoutNs, Event.Ticked(nowNs)))
  {
    IdleAccounts(sm, Next(sm, timeoutNs, Event.Ticked(nowNs)));
  }

  lemma {:induction false} IgnoringAccounts(sm: Sm)
    requires Orderly(sm)
    ensures Accounts(sm, [], Processed(sm, [Ignored]))
  {
    EmittedOne(Ignored);
  }

  lemma {:induction false} CheckAccounts(sm: Sm, outcome: StatusCheckOutcome)
    requires Orderly(sm) && !sm.status.IsTerminal()
    ensures Accounts(sm, OfferedBy(sm, StatusCheckResult(outcome)), Process(sm, StatusCheckResult(outcome)))
  {
    if sm.status.UnknownStatus? {
      ResolveAccounts(sm, outcome);
    } else {
      IgnoringAccounts(sm);
    }
  }

  lemma {:induction false} InputAccounts(sm: Sm, input: SmInput)
    requires Orderly(sm)
    ensures Accounts(sm, OfferedBy(sm, input), Process(sm, input))
  {
    if sm.status.IsTerminal() {
      IgnoringAccounts(sm);
      assert Process(sm, input) == Processed(sm, [Ignored]) && OfferedBy(sm, input) == [];
    } else if input.StatusCheckResult? {
      CheckAccounts(sm, input.outcome);
    } else {
      ArrivalAccounts(sm, input);
    }
  }

  lemma {:induction false} NextAccounts(sm: Sm, timeoutNs: i64, event: Event)
    requires Orderly(sm)
    ensures Accounts(sm, Offered(sm, event), Next(sm, timeoutNs, event))
  {
    match event
    case Arrived(input, _) => InputAccounts(sm, input);
    case Ticked(nowNs) => TickAccounts(sm, timeoutNs, nowNs);
  }

  // The books of one order balance: what was emitted and what is held back are together the first
  // deliveries of all trades offered, and the filled quantity is what was emitted.
  ghost predicate Balanced(sm: Sm, offered: seq<TradeFill>, emitted: seq<Fill>) {
    Balances(sm, Ids(offered), Bag(Fills(Unseen({}, offered))), emitted)
  }

  ghost predicate Balances(sm: Sm, ids: set<u64>, first: multiset<Fill>, emitted: seq<Fill>) {
    && sm.seen == ids
    && Bag(emitted) + Bag(sm.buffered) == first
    && sm.filledQty == AddFills(0, emitted)
    && Orderly(sm)
    && (Waiting(sm) || sm.buffered != [] ==> emitted == [])
  }

  lemma {:induction false} FirstDeliveriesConcat(offered: seq<TradeFill>, trades: seq<TradeFill>)
    ensures Bag(Fills(Unseen({}, offered + trades)))
         == Bag(Fills(Unseen({}, offered))) + Bag(Fills(Unseen(Ids(offered), trades)))
  {
    UnseenConcat({}, offered, trades);
    assert {} + Ids(offered) == Ids(offered);
    FillsOfConcat(Unseen({}, offered), Unseen(Ids(offered), trades));
    BagConcat(Fills(Unseen({}, offered)), Fills(Unseen(Ids(offered), trades)));
  }

  lemma {:induction false} BagsAdd(emitted: multiset<Fill>, held: multiset<Fill>, more: multiset<Fill>,
                                   kept: multiset<Fill>,
                first: multiset<Fill>)
    requires more + kept == held + first
    ensures (emitted + more) + kept == (emitted + held) + first
  {
    assert (emitted + more) + kept == emitted + (more + kept);
    assert (emitted + held) + first == emitted + (held + first);
  }

  lemma {:induction false} MovesBalance(sm: Sm, ids: set<u64>, first: multiset<Fill>, emitted: seq<Fill>,
                                        moreIds: set<u64>, moreFirst: seq<Fill>, after: Sm, more: seq<Fill>)
    requires Balances(sm, ids, first, emitted) && Moves(sm, moreIds, moreFirst, after, more)
    ensures Balances(after, ids + moreIds, first + Bag(moreFirst), emitted + more)
  {
    FillsConcat(0, emitted, more);
    BagConcat(emitted, more);
    BagsAdd(Bag(emitted), Bag(sm.buffered), Bag(more), Bag(after.buffered), Bag(moreFirst));
    assert [] + more == more;
  }

  lemma {:induction false} NextBalances(sm: Sm, offered: seq<TradeFill>, emitted: seq<Fill>, trades: seq<TradeFill>,
                                        done: Processed)
    requires Balanced(sm, offered, emitted) && Accounts(sm, trades, done)
    ensures Balanced(done.sm, offered + trades, emitted + Emitted(done.actions))
  {
    IdsConcat(offered, trades);
    FirstDeliveriesConcat(offered, trades);
    MovesBalance(sm, Ids(offered), Bag(Fills(Unseen({}, offered))), emitted,
                 Ids(trades), Fills(Unseen(sm.seen, trades)), done.sm, Emitted(done.actions));
  }

  // Over every run, honest or not, each trade is accounted for exactly once, by its first delivery.
  lemma {:induction false} RunsBalance(sm: Sm, timeoutNs: i64, events: seq<Event>)
    requires Submitted(sm)
    ensures var done := RunMachine(sm, timeoutNs, events);
            Balanced(done.sm, OfferedInRun(sm, timeoutNs, events), Emitted(done.actions))
  {
    if events != [] {
      var before, last := events[..|events| - 1], events[|events| - 1];
      RunsBalance(sm, timeoutNs, before);
      var at := RunMachine(sm, timeoutNs, before);
      var done := Next(at.sm, timeoutNs, last);
      NextAccounts(at.sm, timeoutNs, last);
      NextBalances(at.sm, OfferedInRun(sm, timeoutNs, before), Emitted(at.actions), Offered(at.sm, last), done);
      EmittedConcat(at.actions, done.actions);
    }
  }

  // Fills held back are lost only by a cancel, reject or expiry before any acknowledgement.
  lemma {:induction false} LostFillsMeanClosedUnacknowledged(sm: Sm, timeoutNs: i64, events: seq<Event>)
    requires Submitted(sm)
    ensures var done := RunMachine(sm, timeoutNs, events);
            done.sm.status.IsTerminal() && done.sm.buffered != [] ==>
              && (done.sm.status.Cancelled? || done.sm.status.Rejected? || done.sm.status.Expired?)
              && Emitted(done.actions) == [] && done.sm.filledQty == 0
  {
    RunsBalance(sm, timeoutNs, events);
  }

  // --- Delivery order --------------------------------------------------------

  // Acknowledgements, fills as they happened, and timer ticks.
  predicate Delivers(book: TradeBook, event: Event) {
    match event
    case Ticked(_) => true
    case Arrived(input, _) =>
      match input
      case Acknowledged(_) => true
      case FillReceived(trade) => trade.tradeId in book && book[trade.tradeId] == trade.fill
      case _ => false
  }

  function IdOf(event: Event): set<u64> {
    if event.Arrived? && event.input.FillReceived? then {event.input.trade.tradeId} else {}
  }

  predicate IsAck(event: Event) {
    event.Arrived? && event.input.Acknowledged?
  }

  function Delivered(events: seq<Event>): set<u64> {
    if events == [] then {} else Delivered(events[..|events| - 1]) + IdOf(events[|events| - 1])
  }

  predicate HasAck(events: seq<Event>) {
    events != [] && (HasAck(events[..|events| - 1]) || IsAck(events[|events| - 1]))
  }

  // Before the acknowledgement every delivered trade is held back ...
  ghost predicate HeldBack(book: TradeBook, sm: Sm, emitted: seq<Fill>) {
    && Waiting(sm) && sm.filledQty == 0 && emitted == [] && sm.seen <= book.Keys
    && PositiveFills(sm.buffered) && TotalQty(sm.buffered) == SumOf(book, sm.seen)
    && Bag(sm.buffered) == BagOf(book, sm.seen)
  }

  // ... and after it every one is applied.
  ghost predicate AllApplied(book: TradeBook, sm: Sm, emitted: seq<Fill>) {
    && sm.buffered == [] && sm.seen <= book.Keys
    && sm.filledQty == SumOf(book, sm.seen) && sm.status == LiveStatus(sm.filledQty, sm.totalQty)
    && Bag(emitted) == BagOf(book, sm.seen)
  }

  // The state is a function of which trades were delivered and whether an acknowledgement was.
  ghost predicate Settled(book: TradeBook, sm: Sm, acked: bool, emitted: seq<Fill>) {
    if acked then AllApplied(book, sm, emitted) else HeldBack(book, sm, emitted)
  }

  lemma {:induction false} HeldFillSettles(book: TradeBook, sm: Sm, trade: TradeFill)
    requires TradesWithin(book, sm.totalQty) && HeldBack(book, sm, [])
    requires trade.tradeId in book && book[trade.tradeId] == trade.fill
    ensures var done := BufferFill(sm, trade);
            && HeldBack(book, done.sm, Emitted(done.actions)) && done.sm.seen == sm.seen + {trade.tradeId}
  {
    EmittedOne(Ignored);
    if trade.tradeId in sm.seen {
      assert sm.seen + {trade.tradeId} == sm.seen;
    } else {
      OneMore(book, sm.seen, trade.tradeId);
      TotalSnoc(sm.buffered, trade.fill);
      BagSnoc(sm.buffered, trade.fill);
    }
  }

  lemma {:induction false} NewFillBag(book: TradeBook, ids: set<u64>, emitted: seq<Fill>, trade: TradeFill)
    requires ids <= book.Keys && Bag(emitted) == BagOf(book, ids) && trade.tradeId !in ids
    requires trade.tradeId in book && book[trade.tradeId] == trade.fill
    ensures Bag(emitted + [trade.fill]) == BagOf(book, ids + {trade.tradeId})
  {
    OneMore(book, ids, trade.tradeId);
    BagSnoc(emitted, trade.fill);
  }

  lemma {:induction false} LiveFillIsExact(sm: Sm, trade: TradeFill)
    requires !sm.status.IsTerminal() && trade.tradeId !in sm.seen
    requires 0 < sm.filledQty + trade.fill.qty <= I64_MAX
    ensures ProcessLive(sm, FillReceived(trade))
         == Processed(sm.(seen := sm.seen + {trade.tradeId}, filledQty := sm.filledQty + trade.fill.qty,
                          status := LiveStatus(sm.filledQty + trade.fill.qty, sm.totalQty)),
                      [ApplyFill(trade.fill)])
  {
    WrapInRange(sm.filledQty + trade.fill.qty);
  }

  lemma {:induction false} NewFillSettles(book: TradeBook, sm: Sm, emitted: seq<Fill>, trade: TradeFill)
    requires TradesWithin(book, sm.totalQty) && AllApplied(book, sm, emitted) && trade.tradeId !in sm.seen
    requires trade.tradeId in book && book[trade.tradeId] == trade.fill
    ensures var done := ProcessLive(sm, FillReceived(trade));
            && !sm.status.IsTerminal() && done.actions == [ApplyFill(trade.fill)]
            && AllApplied(book, done.sm, emitted + [trade.fill]) && done.sm.seen == sm.seen + {trade.tradeId}
  {
    NewFillBag(book, sm.seen, emitted, trade);
    TradeFits(book, sm.totalQty, sm.seen, trade.tradeId);
    LiveFillIsExact(sm, trade);
  }

  lemma {:induction false} AppliedFillSettles(book: TradeBook, sm: Sm, emitted: seq<Fill>, trade: TradeFill)
    requires TradesWithin(book, sm.totalQty) && AllApplied(book, sm, emitted)
    requires trade.tradeId in book && book[trade.tradeId] == trade.fill
    ensures var done := Process(sm, FillReceived(trade));
            && AllApplied(book, done.sm, emitted + Emitted(done.actions)) && done.sm.seen == sm.seen + {trade.tradeId}
  {
    if trade.tradeId in sm.seen {
      EmittedOne(Ignored);
      assert emitted + [] == emitted;
      assert sm.seen + {trade.tradeId} == sm.seen;
    } else {
      EmittedOne(ApplyFill(trade.fill));
      NewFillSettles(book, sm, emitted, trade);
    }
  }

  lemma {:induction false} AckSettles(book: TradeBook, sm: Sm, exchangeId: u64)
    requires TradesWithin(book, sm.totalQty) && HeldBack(book, sm, [])
    ensures var done := Flush(sm, exchangeId);
            AllApplied(book, done.sm, Emitted(done.actions)) && done.sm.seen == sm.seen
  {
    EmittedAckFills(exchangeId, sm.buffered);
    SumGrows(book, sm.seen, book.Keys);
    AddFillsExact(0, sm.buffered);
  }

  // Ticks and repeated acknowledgements change at most Pending to UnknownStatus.
  lemma {:induction false} QuietStep(book: TradeBook, sm: Sm, acked: bool, emitted: seq<Fill>, timeoutNs: i64,
                                     event: Event)
    requires Settled(book, sm, acked, emitted) && Delivers(book, event) && IdOf(event) == {}
    requires IsAck(event) ==> acked
    ensures var done := Next(sm, timeoutNs, event);
            && done.sm.(status := sm.status) == sm && Emitted(done.actions) == []
            && (done.sm.status == sm.status || (Waiting(sm) && Waiting(done.sm)))
  {
    EmittedOne(Ignored);
    EmittedOne(ScheduleStatusCheck);
  }

  lemma {:induction false} QuietSettles(book: TradeBook, sm: Sm, acked: bool, emitted: seq<Fill>, timeoutNs: i64,
                                        event: Event)
    requires Settled(book, sm, acked, emitted) && Delivers(book, event) && IdOf(event) == {}
    requires IsAck(event) ==> acked
    ensures var done := Next(sm, timeoutNs, event);
            && Settled(book, done.sm, acked, emitted + Emitted(done.actions))
            && done.sm.seen == sm.seen && done.sm.totalQty == sm.totalQty
  {
    QuietStep(book, sm, acked, emitted, timeoutNs, event);
    StatusSettles(book, sm, acked, emitted, Next(sm, timeoutNs, event).sm);
    assert emitted + [] == emitted;
  }

  lemma {:induction false} StatusSettles(book: TradeBook, sm: Sm, acked: bool, emitted: seq<Fill>, after: Sm)
    requires Settled(book, sm, acked, emitted) && after.(status := sm.status) == sm
    requires after.status == sm.status || (Waiting(sm) && Waiting(after))
    ensures Settled(book, after, acked, emitted)
  {
    if after.status == sm.status {
      assert after == sm;
    } else {
      assert !acked || LiveStatus(sm.filledQty, sm.totalQty) == sm.status;
    }
  }

  lemma {:induction false} AckEventSettles(book: TradeBook, sm: Sm, emitted: seq<Fill>, timeoutNs: i64, event: Event)
    requires TradesWithin(book, sm.totalQty) && Settled(book, sm, false, emitted) && IsAck(event)
    ensures var done := Next(sm, timeoutNs, event);
            && Settled(book, done.sm, true, emitted + Emitted(done.actions))
            && done.sm.seen == sm.seen && done.sm.totalQty == sm.totalQty
  {
    var done := Next(sm, timeoutNs, event);
    assert done == Flush(sm, event.input.exchangeId);
    AckSettles(book, sm, event.input.exchangeId);
    assert [] + Emitted(done.actions) == Emitted(done.actions);
  }

  lemma {:induction false} FillEventSettles(book: TradeBook, sm: Sm, acked: bool, emitted: seq<Fill>, timeoutNs: i64,
                                            event: Event)
    requires TradesWithin(book, sm.totalQty) && Settled(book, sm, acked, emitted) && Delivers(book, event)
    requires event.Arrived? && event.input.FillReceived?
    ensures var done := Next(sm, timeoutNs, event);
            && Settled(book, done.sm, acked, emitted + Emitted(done.actions))
            && done.sm.seen == sm.seen + IdOf(event) && done.sm.totalQty == sm.totalQty
  {
    var trade := event.input.trade;
    if acked {
      AppliedFillSettles(book, sm, emitted, trade);
    } else {
      var done := Next(sm, timeoutNs, event);
      assert done == BufferFill(sm, trade);
      HeldFillSettles(book, sm, trade);
      assert [] + Emitted(done.actions) == Emitted(done.actions);
    }
  }

  lemma {:induction false} NextSettles(book: TradeBook, sm: Sm, acked: bool, emitted: seq<Fill>, timeoutNs: i64,
                                       event: Event)
    requires TradesWithin(book, sm.totalQty) && Settled(book, sm, acked, emitted) && Delivers(book, event)
    ensures var done := Next(sm, timeoutNs, event);
            && Settled(book, done.sm, acked || IsAck(event), emitted + Emitted(done.actions))
            && done.sm.seen == sm.seen + IdOf(event) && done.sm.totalQty == sm.totalQty
  {
    if event.Arrived? && event.input.FillReceived? {
      FillEventSettles(book, sm, acked, emitted, timeoutNs, event);
    } else if IsAck(event) && !acked {
      AckEventSettles(book, sm, emitted, timeoutNs, event);
    } else {
      QuietSettles(book, sm, acked, emitted, timeoutNs, event);
    }
  }

  lemma {:induction false} DeliveriesSettle(book: TradeBook, sm: Sm, timeoutNs: i64, events: seq<Event>)
    requires Submitted(sm) && TradesWithin(book, sm.totalQty)
    requires forall i | 0 <= i < |events| :: Delivers(book, events[i])
    ensures var done := RunMachine(sm, timeoutNs, events);
            && Settled(book, done.sm, HasAck(events), Emitted(done.actions))
            && done.sm.seen == Delivered(events) && done.sm.totalQty == sm.totalQty
  {
    if events != [] {
      var before, last := events[..|events| - 1], events[|events| - 1];
      DeliveriesSettle(book, sm, timeoutNs, before);
      var at := RunMachine(sm, timeoutNs, before);
      EmittedConcat(at.actions, Next(at.sm, timeoutNs, last).actions);
      NextSettles(book, at.sm, HasAck(before), Emitted(at.actions), timeoutNs, last);
    }
  }

  // Two deliveries of the same trades and an acknowledgement, in any order, with any duplicates
  // and any timer ticks between, apply the same fills and leave the same status and quantity.
  lemma {:induction false} DeliveryOrderIsIrrelevant(book: TradeBook, sm: Sm, timeoutNs: i64,
                                                     a: seq<Event>, b: seq<Event>)
    requires Submitted(sm) && TradesWithin(book, sm.totalQty)
    requires forall i | 0 <= i < |a| :: Delivers(book, a[i])
    requires forall i | 0 <= i < |b| :: Delivers(book, b[i])
    requires Delivered(a) == Delivered(b) && HasAck(a) == HasAck(b)
    ensures var x, y := RunMachine(sm, timeoutNs, a), RunMachine(sm, timeoutNs, b);
            && Bag(Emitted(x.actions)) == Bag(Emitted(y.actions))
            && x.sm.filledQty == y.sm.filledQty && x.sm.seen == y.sm.seen == Delivered(a) <= book.Keys
            && (HasAck(a) ==> x.sm.status == y.sm.status && Bag(Emitted(x.actions)) == BagOf(book, Delivered(a)))
            && (!HasAck(a) ==> Waiting(x.sm) && Waiting(y.sm) && Emitted(x.actions) == []
                               && Bag(x.sm.buffered) == Bag(y.sm.buffered) == BagOf(book, Delivered(a)))
  {
    DeliveriesSettle(book, sm, timeoutNs, a);
    DeliveriesSettle(book, sm, timeoutNs, b);
  }
}
