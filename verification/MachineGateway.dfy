/**
 * The order machine drives the gateway: every action it emits is dispatched to the gateway call it
 * names. With an honest exchange no such call is ever refused, and both sides stay in agreement.
 */
module MachineGateway {
  import opened Integers
  import J = Journals
  import opened MachineRuns
  import OG = OrderGateways
  import opened OrderMachine
  import OT = OrderTypes
  import opened Trades
  import opened Utf8
  import opened Wrappers

  // --- Dispatching actions ---------------------------------------------------

  function ReportOf(action: SmAction): Option<OG.Report> {
    match action
    case ApplyAck(exchangeId) => Some(OG.AckReport(exchangeId))
    case ApplyFill(fill) => Some(OG.FillReport(fill.qty, fill.price))
    case ApplyCancel => Some(OG.CancelReport)
    case ApplyReject(reason) => Some(OG.RejectReport(reason))
    case ApplyExpire => Some(OG.ExpireReport)
    case ScheduleStatusCheck => None
    case Ignored => None
  }

  function Dispatch(o: OT.PendingOrder, action: SmAction, nowNs: i64): Result<OT.PendingOrder, OT.Error> {
    match ReportOf(action)
    case None => Success(o)
    case Some(report) =>
      match OG.Transition(o, report, nowNs)
      case Refused(error) => Failure(error)
      case Unchanged => Success(o)
      case Accepted(order, _) => Success(order)
  }

  function DispatchAll(o: OT.PendingOrder, actions: seq<SmAction>, nowNs: i64): Result<OT.PendingOrder, OT.Error> {
    if actions == [] then Success(o)
    else
      var before :- DispatchAll(o, actions[..|actions| - 1], nowNs);
      Dispatch(before, actions[|actions| - 1], nowNs)
  }

  lemma {:induction false} DispatchSnoc(o: OT.PendingOrder, actions: seq<SmAction>, action: SmAction, nowNs: i64)
    ensures DispatchAll(o, actions + [action], nowNs)
         == match DispatchAll(o, actions, nowNs)
            case Success(before) => Dispatch(before, action, nowNs)
            case Failure(e) => Failure(e)
  {
    assert (actions + [action])[..|actions|] == actions;
  }

  lemma {:induction false} DispatchOne(o: OT.PendingOrder, action: SmAction, nowNs: i64)
    ensures DispatchAll(o, [action], nowNs) == Dispatch(o, action, nowNs)
  {
    assert [] + [action] == [action];
    DispatchSnoc(o, [], action, nowNs);
  }

  lemma {:induction false} DispatchConcat(o: OT.PendingOrder, a: seq<SmAction>, b: seq<SmAction>, nowNs: i64)
    ensures DispatchAll(o, a + b, nowNs)
         == match DispatchAll(o, a, nowNs)
            case Success(mid) => DispatchAll(mid, b, nowNs)
            case Failure(e) => Failure(e)
  {
    if b == [] {
      assert a + b == a;
    } else {
      var front, last := b[..|b| - 1], b[|b| - 1];
      DispatchConcat(o, a, front, nowNs);
      assert a + b == (a + front) + [last] && b == front + [last];
      DispatchSnoc(o, a + front, last, nowNs);
    }
  }

  // --- Fills -----------------------------------------------------------------

  // The order after fills summing to `filledQty` in all.
  predicate FilledTo(o: OT.PendingOrder, o': OT.PendingOrder, filledQty: i64) {
    && o'.cloid == o.cloid && o'.request == o.request && o'.filledQty == filledQty
    && o'.status == if filledQty >= o.request.qty then OT.Filled else OT.PartiallyFilled
  }

  // No fill but the last brings the sum to the ordered quantity.
  predicate NoneCompletesEarly(filledQty: i64, totalQty: i64, fills: seq<Fill>) {
    forall k | 0 < k < |fills| :: AddFills(filledQty, fills[..k]) < totalQty
  }

  lemma {:induction false} NoneEarlySnoc(filledQty: i64, totalQty: i64, fills: seq<Fill>, last: Fill)
    ensures NoneCompletesEarly(filledQty, totalQty, fills + [last])
       <==> NoneCompletesEarly(filledQty, totalQty, fills)
            && (fills != [] ==> AddFills(filledQty, fills) < totalQty)
  {
    var more := fills + [last];
    forall k | 0 < k <= |fills|
      ensures more[..k] == fills[..k]
    {
    }
    assert fills[..|fills|] == fills;
    if fills != [] && NoneCompletesEarly(filledQty, totalQty, more) {
      assert AddFills(filledQty, more[..|fills|]) < totalQty;
      forall k | 0 < k < |fills|
        ensures AddFills(filledQty, fills[..k]) < totalQty
      {
        assert AddFills(filledQty, more[..k]) < totalQty;
      }
    }
  }

  // One fill more: taken exactly when the order is still open.
  lemma {:induction false} FillDispatches(o: OT.PendingOrder, fill: Fill, nowNs: i64)
    ensures var r := Dispatch(o, ApplyFill(fill), nowNs);
            && (r.Success? <==> !o.status.IsTerminal())
            && (r.Success? ==> FilledTo(o, r.value, WrapI64(o.filledQty + fill.qty)))
  {
  }

  lemma {:induction false} FillActionsSnoc(qty: i64, fills: seq<Fill>, last: Fill)
    ensures FillActions(fills + [last]) == FillActions(fills) + [ApplyFill(last)]
    ensures AddFills(qty, fills + [last]) == WrapI64(AddFills(qty, fills) + last.qty)
  {
    assert (fills + [last])[..|fills|] == fills;
  }

  // What some fills summing to `filledQty` in all leave of the order, none or at least one of them.
  predicate After(o: OT.PendingOrder, o': OT.PendingOrder, none: bool, filledQty: i64) {
    if none then o' == o && filledQty == o.filledQty else FilledTo(o, o', filledQty)
  }

  lemma {:induction false} NextFillDispatches(o: OT.PendingOrder, before: OT.PendingOrder, none: bool, filledQty: i64,
                                              last: Fill, nowNs: i64)
    requires !o.status.IsTerminal() && After(o, before, none, filledQty)
    ensures var r := Dispatch(before, ApplyFill(last), nowNs);
            && (r.Success? <==> none || filledQty < o.request.qty)
            && (r.Success? ==> After(o, r.value, false, WrapI64(filledQty + last.qty)))
  {
    FillDispatches(before, last, nowNs);
  }

  // The gateway takes a run of fills exactly when none but the last completes the order.
  lemma {:induction false} FillsDispatchIff(o: OT.PendingOrder, fills: seq<Fill>, nowNs: i64)
    requires !o.status.IsTerminal()
    ensures var r := DispatchAll(o, FillActions(fills), nowNs);
            && (r.Success? <==> NoneCompletesEarly(o.filledQty, o.request.qty, fills))
            && (r.Success? ==> After(o, r.value, fills == [], AddFills(o.filledQty, fills)))
  {
    if fills != [] {
      var front, last := fills[..|fills| - 1], fills[|fills| - 1];
      assert fills == front + [last];
      FillsDispatchIff(o, front, nowNs);
      FillActionsSnoc(o.filledQty, front, last);
      NoneEarlySnoc(o.filledQty, o.request.qty, front, last);
      DispatchSnoc(o, FillActions(front), ApplyFill(last), nowNs);
      var before := DispatchAll(o, FillActions(front), nowNs);
      if before.Success? {
        NextFillDispatches(o, before.value, front == [], AddFills(o.filledQty, front), last, nowNs);
      }
    }
  }

  // Positive fills within the order's quantity are all taken.
  lemma {:induction false} HonestFillsComplete(filledQty: i64, totalQty: i64, fills: seq<Fill>)
    requires PositiveFills(fills) && 0 <= filledQty && filledQty + TotalQty(fills) <= totalQty
    ensures NoneCompletesEarly(filledQty, totalQty, fills)
  {
    forall k | 0 < k < |fills|
      ensures AddFills(filledQty, fills[..k]) < totalQty
    {
      assert fills == fills[..k] + fills[k..];
      TotalConcat(fills[..k], fills[k..]);
      TotalIsPositive(fills[k..]);
      AddFillsExact(filledQty, fills[..k]);
    }
  }

  // --- Agreement -------------------------------------------------------------

  // The gateway has no unknown status: it keeps such an order pending.
  function GatewayStatus(status: SmStatus): OT.OrderStatus {
    match status
    case Pending => OT.Pending
    case New => OT.New
    case PartiallyFilled => OT.PartiallyFilled
    case UnknownStatus => OT.Pending
    case Filled => OT.Filled
    case Cancelled => OT.Cancelled
    case Rejected => OT.Rejected
    case Expired => OT.Expired
  }

  predicate Agree(sm: Sm, o: OT.PendingOrder) {
    && o.request.qty == sm.totalQty
    && o.status == GatewayStatus(sm.status)
    && o.filledQty == sm.filledQty
  }

  // What the machine knows of the exchange's trades.
  ghost predicate Knows(book: TradeBook, sm: Sm) {
    && sm.seen <= book.Keys
    && match sm.status
       case Pending => Waits(book, sm)
       case UnknownStatus => Waits(book, sm)
       case New => sm.buffered == [] && sm.filledQty == SumOf(book, sm.seen) == 0
       case PartiallyFilled => sm.buffered == [] && 0 < sm.filledQty == SumOf(book, sm.seen) < sm.totalQty
       case _ => true
  }

  ghost predicate Waits(book: TradeBook, sm: Sm)
    requires sm.seen <= book.Keys
  {
    sm.filledQty == 0 && PositiveFills(sm.buffered) && TotalQty(sm.buffered) == SumOf(book, sm.seen)
  }

  // The exchange trades at most the ordered quantity, in positive fills.
  ghost predicate HonestBook(book: TradeBook, totalQty: i64) {
    totalQty > 0 && TradesWithin(book, totalQty)
  }

  ghost predicate Reports(book: TradeBook, trades: seq<TradeFill>) {
    forall i | 0 <= i < |trades| :: trades[i].tradeId in book && book[trades[i].tradeId] == trades[i].fill
  }

  // Fills are reported as they happened, and a check says "filled" only of a completed order.
  ghost predicate HonestReport(book: TradeBook, sm: Sm, input: SmInput) {
    match input
    case FillReceived(trade) => trade.tradeId in book && book[trade.tradeId] == trade.fill
    case StatusCheckResult(outcome) =>
      outcome.FilledOutcome? && sm.status.UnknownStatus? && sm.seen <= book.Keys ==>
        Reports(book, outcome.fills) && Completes(book, sm, outcome.fills)
    case _ => true
  }

  ghost predicate Completes(book: TradeBook, sm: Sm, trades: seq<TradeFill>)
    requires sm.seen <= book.Keys && Reports(book, trades)
  {
    IdsReported(book, trades);
    SumOf(book, sm.seen + Ids(trades)) >= sm.totalQty
  }

  lemma {:induction false} IdsReported(book: TradeBook, trades: seq<TradeFill>)
    requires Reports(book, trades)
    ensures Ids(trades) <= book.Keys
  {
    if trades != [] {
      IdsReported(book, trades[..|trades| - 1]);
    }
  }

  // The trades not seen before add up to exactly what they add to the seen set.
  lemma {:induction false} UnseenAddsUp(book: TradeBook, seen: set<u64>, trades: seq<TradeFill>)
    requires AllPositive(book) && seen <= book.Keys && Reports(book, trades)
    ensures seen + Ids(trades) <= book.Keys
    ensures TotalQty(Fills(Unseen(seen, trades))) == SumOf(book, seen + Ids(trades)) - SumOf(book, seen)
    ensures PositiveFills(Fills(Unseen(seen, trades)))
  {
    if trades == [] {
      assert seen + Ids(trades) == seen;
    } else {
      var before, last := trades[..|trades| - 1], trades[|trades| - 1];
      UnseenAddsUp(book, seen, before);
      var ids := seen + Ids(before);
      assert seen + Ids(trades) == ids + {last.tradeId};
      if last.tradeId in ids {
        assert ids + {last.tradeId} == ids;
      } else {
        OneMore(book, ids, last.tradeId);
        var kept := Unseen(seen, before);
        TradeFillsSnoc(kept, last);
      }
    }
  }

  lemma {:induction false} TradeFillsSnoc(kept: seq<TradeFill>, trade: TradeFill)
    ensures Fills(kept + [trade]) == Fills(kept) + [trade.fill]
    ensures TotalQty(Fills(kept + [trade])) == TotalQty(Fills(kept)) + trade.fill.qty
  {
    assert (kept + [trade])[..|kept|] == kept;
    assert (Fills(kept) + [trade.fill])[..|kept|] == Fills(kept);
  }

  // --- Agreement, event by event ---------------------------------------------

  predicate Waiting(sm: Sm) {
    sm.status.Pending? || sm.status.UnknownStatus?
  }

  // Late or in time, or by a check that finds the order live.
  predicate IsAcknowledged(sm: Sm, input: SmInput) {
    && Waiting(sm)
    && (input.Acknowledged?
        || (sm.status.UnknownStatus? && input.StatusCheckResult? && input.outcome.LiveOutcome?))
  }

  predicate IsReportedFilled(sm: Sm, input: SmInput) {
    sm.status.UnknownStatus? && input.StatusCheckResult? && input.outcome.FilledOutcome?
  }

  // The fills the machine hands on in one go.
  function HandedOn(sm: Sm, input: SmInput): seq<Fill> {
    if IsAcknowledged(sm, input) then sm.buffered
    else if IsReportedFilled(sm, input) then Fills(Unseen(sm.seen, input.outcome.fills)) + sm.buffered
    else []
  }

  // The gateway takes them when none but the last completes the order ...
  predicate Taken(sm: Sm, input: SmInput) {
    NoneCompletesEarly(sm.filledQty, sm.totalQty, HandedOn(sm, input))
  }

  // ... and has the machine's status when a check that reports the order filled hands on fills that
  // complete it, and an acknowledgement hands on none of an order with something left to fill, or
  // some that add up to something.
  predicate Matches(sm: Sm, input: SmInput) {
    var fills := HandedOn(sm, input);
    var filledQty := AddFills(sm.filledQty, fills);
    if IsReportedFilled(sm, input) then fills != [] && filledQty >= sm.totalQty
    else if !IsAcknowledged(sm, input) then true
    else if fills == [] then filledQty <= 0 && filledQty < sm.totalQty
    else filledQty > 0 || filledQty >= sm.totalQty
  }

  // What the gateway makes of an acknowledgement and some fills of a waiting order.
  predicate Acked(o: OT.PendingOrder, o': OT.PendingOrder, fills: seq<Fill>) {
    var filledQty := AddFills(o.filledQty, fills);
    && o'.cloid == o.cloid && o'.request == o.request && o'.filledQty == filledQty
    && o'.status == if fills == [] then OT.New
                    else if filledQty >= o.request.qty then OT.Filled else OT.PartiallyFilled
  }

  lemma {:induction false} AckDispatches(o: OT.PendingOrder, exchangeId: u64, nowNs: i64)
    requires o.status.Pending?
    ensures DispatchAll(o, [ApplyAck(exchangeId)], nowNs)
         == Success(o.(exchangeId := Some(exchangeId), status := OT.New, lastUpdatedNs := nowNs))
  {
    DispatchOne(o, ApplyAck(exchangeId), nowNs);
  }

  lemma {:induction false} AckThenFillsIff(o: OT.PendingOrder, exchangeId: u64, fills: seq<Fill>, nowNs: i64)
    requires o.status.Pending?
    ensures var r := DispatchAll(o, [ApplyAck(exchangeId)] + FillActions(fills), nowNs);
            && (r.Success? <==> NoneCompletesEarly(o.filledQty, o.request.qty, fills))
            && (r.Success? ==> Acked(o, r.value, fills))
  {
    AckDispatches(o, exchangeId, nowNs);
    DispatchConcat(o, [ApplyAck(exchangeId)], FillActions(fills), nowNs);
    var acked := o.(exchangeId := Some(exchangeId), status := OT.New, lastUpdatedNs := nowNs);
    FillsDispatchIff(acked, fills, nowNs);
  }

  // The statement of one event: exactly when the gateway takes its actions, and then exactly when
  // both sides agree.
  predicate DecidedBy(o: OT.PendingOrder, done: Processed, nowNs: i64, taken: bool, matches: bool) {
    var r := DispatchAll(o, done.actions, nowNs);
    && (r.Success? <==> taken)
    && (r.Success? ==> (Agree(done.sm, r.value) <==> matches))
  }

  // Whatever its quantity and fills, after an acknowledgement.
  lemma {:induction false} AckAgreesIff(sm: Sm, o: OT.PendingOrder, input: SmInput, nowNs: i64)
    requires Agree(sm, o) && IsAcknowledged(sm, input)
    ensures DecidedBy(o, Process(sm, input), nowNs, Taken(sm, input), Matches(sm, input))
  {
    var exchangeId := if input.Acknowledged? then input.exchangeId else input.outcome.exchangeId;
    assert Process(sm, input) == Flush(sm, exchangeId);
    AckThenFillsIff(o, exchangeId, sm.buffered, nowNs);
  }

  // And after a check that reports the order filled, whatever trades it reports.
  lemma {:induction false} ReportedFilledAgreesIff(sm: Sm, o: OT.PendingOrder, input: SmInput, nowNs: i64)
    requires Agree(sm, o) && IsReportedFilled(sm, input)
    ensures DecidedBy(o, Process(sm, input), nowNs, Taken(sm, input), Matches(sm, input))
  {
    AckThenFillsIff(o, input.outcome.exchangeId, HandedOn(sm, input), nowNs);
  }

  predicate AgreesAfter(o: OT.PendingOrder, done: Processed, nowNs: i64) {
    var r := DispatchAll(o, done.actions, nowNs);
    r.Success? && Agree(done.sm, r.value)
  }

  lemma {:induction false} CloseAgrees(sm: Sm, o: OT.PendingOrder, status: SmStatus, action: SmAction, nowNs: i64)
    requires Agree(sm, o) && !sm.status.IsTerminal()
    requires (status, action) == (Cancelled, ApplyCancel) || (status, action) == (Expired, ApplyExpire)
             || (status.Rejected? && action.ApplyReject?)
    ensures AgreesAfter(o, Close(sm, status, action), nowNs)
  {
    DispatchOne(o, action, nowNs);
  }

  lemma {:induction false} IdleAgrees(sm: Sm, o: OT.PendingOrder, action: SmAction, nowNs: i64)
    requires Agree(sm, o) && (action.Ignored? || action.ScheduleStatusCheck?)
    ensures AgreesAfter(o, Processed(sm, [action]), nowNs)
  {
    DispatchOne(o, action, nowNs);
  }

  lemma {:induction false} LiveFillAgrees(sm: Sm, o: OT.PendingOrder, trade: TradeFill, nowNs: i64)
    requires Agree(sm, o) && (sm.status.New? || sm.status.PartiallyFilled?)
    ensures AgreesAfter(o, ProcessLive(sm, FillReceived(trade)), nowNs)
  {
    DispatchOne(o, Ignored, nowNs);
    DispatchOne(o, ApplyFill(trade.fill), nowNs);
    FillDispatches(o, trade.fill, nowNs);
  }

  lemma {:induction false} BufferAgrees(sm: Sm, o: OT.PendingOrder, trade: TradeFill, nowNs: i64)
    requires Agree(sm, o)
    ensures AgreesAfter(o, BufferFill(sm, trade), nowNs)
  {
    DispatchOne(o, Ignored, nowNs);
  }

  lemma {:induction false} OtherCheckAgrees(sm: Sm, o: OT.PendingOrder, outcome: StatusCheckOutcome, nowNs: i64)
    requires Agree(sm, o) && sm.status.UnknownStatus? && !outcome.LiveOutcome? && !outcome.FilledOutcome?
    ensures AgreesAfter(o, Resolve(sm, outcome), nowNs)
  {
    match outcome
    case CancelledOutcome(_) => CloseAgrees(sm, o, Cancelled, ApplyCancel, nowNs);
    case RejectedOutcome(reason) => CloseAgrees(sm, o, Rejected, ApplyReject(reason), nowNs);
    case ExpiredOutcome(_) => CloseAgrees(sm, o, Expired, ApplyExpire, nowNs);
    case NotFound => CloseAgrees(sm, o, Rejected, ApplyReject(NotFoundReason()), nowNs);
    case CheckFailed(_) => IdleAgrees(sm, o, ScheduleStatusCheck, nowNs);
  }

  // Nothing else parts the two sides.
  lemma {:induction false} OthersAgree(sm: Sm, o: OT.PendingOrder, input: SmInput, nowNs: i64)
    requires Agree(sm, o) && !IsAcknowledged(sm, input) && !IsReportedFilled(sm, input)
    ensures AgreesAfter(o, Process(sm, input), nowNs)
  {
    IdleAgrees(sm, o, Ignored, nowNs);
    if !sm.status.IsTerminal() {
      match input
      case Acknowledged(_) =>
      case FillReceived(trade) =>
        if Waiting(sm) { BufferAgrees(sm, o, trade, nowNs); } else { LiveFillAgrees(sm, o, trade, nowNs); }
      case CancelConfirmed =>
        CloseAgrees(sm, o, Cancelled, ApplyCancel, nowNs);
      case RejectReceived(reason) =>
        CloseAgrees(sm, o, Rejected, ApplyReject(reason), nowNs);
      case ExpireReceived =>
        CloseAgrees(sm, o, Expired, ApplyExpire, nowNs);
      case StatusCheckResult(outcome) =>
        if sm.status.UnknownStatus? {
          OtherCheckAgrees(sm, o, outcome, nowNs);
        }
    }
  }

  lemma {:induction false} OthersHandNothingOn(sm: Sm, input: SmInput)
    requires !IsAcknowledged(sm, input) && !IsReportedFilled(sm, input)
    ensures Taken(sm, input) && Matches(sm, input)
  {
  }

  // For any machine and gateway that agree and any input whatever.
  lemma {:induction false} ProcessAgreesIff(sm: Sm, o: OT.PendingOrder, input: SmInput, nowNs: i64)
    requires Agree(sm, o)
    ensures DecidedBy(o, Process(sm, input), nowNs, Taken(sm, input), Matches(sm, input))
  {
    if IsAcknowledged(sm, input) {
      AckAgreesIff(sm, o, input, nowNs);
    } else if IsReportedFilled(sm, input) {
      ReportedFilledAgreesIff(sm, o, input, nowNs);
    } else {
      OthersHandNothingOn(sm, input);
      OthersAgree(sm, o, input, nowNs);
    }
  }

  // --- Simulation ------------------------------------------------------------

  // An acknowledgement followed by the fills that were held back.
  lemma {:induction false} AckThenFills(sm: Sm, o: OT.PendingOrder, exchangeId: u64, fills: seq<Fill>, nowNs: i64)
    requires Agree(sm, o) && o.status.Pending? && sm.filledQty == 0 && sm.totalQty > 0
    requires PositiveFills(fills) && TotalQty(fills) <= sm.totalQty
    ensures AddFills(0, fills) == TotalQty(fills) >= 0
    ensures var r := DispatchAll(o, [ApplyAck(exchangeId)] + FillActions(fills), nowNs);
            r.Success? && r.value.cloid == o.cloid && r.value.request == o.request
            && r.value.filledQty == TotalQty(fills)
            && r.value.status == GatewayStatus(LiveStatus(TotalQty(fills), sm.totalQty))
  {
    AddFillsExact(0, fills);
    TotalIsPositive(fills);
    AckThenFillsIff(o, exchangeId, fills, nowNs);
    HonestFillsComplete(0, sm.totalQty, fills);
  }

  ghost predicate Simulates(book: TradeBook, sm: Sm, o: OT.PendingOrder, done: Processed, nowNs: i64) {
    var r := DispatchAll(o, done.actions, nowNs);
    && r.Success? && Agree(done.sm, r.value) && Knows(book, done.sm)
    && r.value.cloid == o.cloid && r.value.request == o.request && done.sm.totalQty == sm.totalQty
  }

  lemma {:induction false} FlushSimulates(book: TradeBook, sm: Sm, o: OT.PendingOrder, exchangeId: u64, nowNs: i64)
    requires HonestBook(book, sm.totalQty) && Knows(book, sm) && Agree(sm, o)
    requires sm.status.Pending? || sm.status.UnknownStatus?
    ensures Simulates(book, sm, o, Flush(sm, exchangeId), nowNs)
  {
    SumGrows(book, sm.seen, book.Keys);
    AckThenFills(sm, o, exchangeId, sm.buffered, nowNs);
  }

  lemma {:induction false} HoldingSimulates(book: TradeBook, sm: Sm, o: OT.PendingOrder, trade: TradeFill, nowNs: i64)
    requires HonestBook(book, sm.totalQty) && Knows(book, sm) && Agree(sm, o) && Waiting(sm)
    requires trade.tradeId in book && book[trade.tradeId] == trade.fill && trade.tradeId !in sm.seen
    ensures Simulates(book, sm, o, BufferFill(sm, trade), nowNs)
  {
    OneMore(book, sm.seen, trade.tradeId);
    TotalSnoc(sm.buffered, trade.fill);
  }

  lemma {:induction false} BufferSimulates(book: TradeBook, sm: Sm, o: OT.PendingOrder, trade: TradeFill, nowNs: i64)
    requires HonestBook(book, sm.totalQty) && Knows(book, sm) && Agree(sm, o) && Waiting(sm)
    requires trade.tradeId in book && book[trade.tradeId] == trade.fill
    ensures Simulates(book, sm, o, BufferFill(sm, trade), nowNs)
  {
    if trade.tradeId in sm.seen {
      IdleSimulates(book, sm, o, Ignored, nowNs);
    } else {
      HoldingSimulates(book, sm, o, trade, nowNs);
    }
  }

  lemma {:induction false} NewFillSimulates(book: TradeBook, sm: Sm, o: OT.PendingOrder, trade: TradeFill, nowNs: i64)
    requires HonestBook(book, sm.totalQty) && Knows(book, sm) && Agree(sm, o)
    requires sm.status.New? || sm.status.PartiallyFilled?
    requires trade.tradeId in book && book[trade.tradeId] == trade.fill && trade.tradeId !in sm.seen
    ensures Simulates(book, sm, o, ProcessLive(sm, FillReceived(trade)), nowNs)
  {
    TradeFits(book, sm.totalQty, sm.seen, trade.tradeId);
    LiveFillIsExact(sm, trade);
    WrapInRange(sm.filledQty + trade.fill.qty);
    DispatchOne(o, ApplyFill(trade.fill), nowNs);
    FillDispatches(o, trade.fill, nowNs);
  }

  lemma {:induction false} LiveFillSimulates(book: TradeBook, sm: Sm, o: OT.PendingOrder, trade: TradeFill, nowNs: i64)
    requires HonestBook(book, sm.totalQty) && Knows(book, sm) && Agree(sm, o)
    requires sm.status.New? || sm.status.PartiallyFilled?
    requires trade.tradeId in book && book[trade.tradeId] == trade.fill
    ensures Simulates(book, sm, o, ProcessLive(sm, FillReceived(trade)), nowNs)
  {
    if trade.tradeId in sm.seen {
      DispatchOne(o, Ignored, nowNs);
    } else {
      NewFillSimulates(book, sm, o, trade, nowNs);
    }
  }

  lemma {:induction false} ReportedFillsFit(book: TradeBook, sm: Sm, trades: seq<TradeFill>)
    requires HonestBook(book, sm.totalQty) && Knows(book, sm) && sm.status.UnknownStatus? && Reports(book, trades)
    ensures var fills := Fills(Unseen(sm.seen, trades)) + sm.buffered;
            && PositiveFills(fills) && sm.seen + Ids(trades) <= book.Keys
            && TotalQty(fills) == SumOf(book, sm.seen + Ids(trades)) <= sm.totalQty
  {
    UnseenAddsUp(book, sm.seen, trades);
    TotalConcat(Fills(Unseen(sm.seen, trades)), sm.buffered);
    SumGrows(book, sm.seen + Ids(trades), book.Keys);
  }

  lemma {:induction false} ReportDispatches(sm: Sm, o: OT.PendingOrder, exchangeId: u64, fills: seq<Fill>, after: Sm,
                                            nowNs: i64)
    requires Agree(sm, o) && sm.status.UnknownStatus? && sm.filledQty == 0 && sm.totalQty > 0
    requires PositiveFills(fills) && TotalQty(fills) <= sm.totalQty
    requires after.status.Filled? && after.totalQty == sm.totalQty && after.filledQty == AddFills(0, fills)
    ensures var r := DispatchAll(o, [ApplyAck(exchangeId)] + FillActions(fills), nowNs);
            && r.Success? && r.value.cloid == o.cloid && r.value.request == o.request
            && r.value.filledQty == after.filledQty
            && (Agree(after, r.value) <==> TotalQty(fills) >= sm.totalQty)
  {
    AckThenFills(sm, o, exchangeId, fills, nowNs);
  }

  // Of an honest exchange, a check that reports the order filled is never refused, and leaves both sides in
  // agreement exactly when the trades reported and seen do complete the order.
  lemma {:induction false} HonestCheckAgreesIff(book: TradeBook, sm: Sm, o: OT.PendingOrder, exchangeId: u64,
                               trades: seq<TradeFill>, nowNs: i64)
    requires HonestBook(book, sm.totalQty) && Knows(book, sm) && Agree(sm, o)
    requires sm.status.UnknownStatus? && Reports(book, trades)
    ensures var done := Resolve(sm, FilledOutcome(exchangeId, trades));
            var r := DispatchAll(o, done.actions, nowNs);
            && r.Success? && r.value.cloid == o.cloid && r.value.request == o.request
            && r.value.filledQty == done.sm.filledQty
            && done.sm.seen <= book.Keys
            && (Agree(done.sm, r.value) <==> Completes(book, sm, trades))
  {
    ReportedFillsFit(book, sm, trades);
    var fills := Fills(Unseen(sm.seen, trades)) + sm.buffered;
    ReportDispatches(sm, o, exchangeId, fills, Resolve(sm, FilledOutcome(exchangeId, trades)).sm, nowNs);
  }

  // The machine's other exits and non-events dispatch one harmless action.
  lemma {:induction false} CloseSimulates(book: TradeBook, sm: Sm, o: OT.PendingOrder, status: SmStatus,
                                          action: SmAction, nowNs: i64)
    requires Knows(book, sm) && Agree(sm, o) && !sm.status.IsTerminal()
    requires (status, action) == (Cancelled, ApplyCancel) || (status, action) == (Expired, ApplyExpire)
             || (status.Rejected? && action.ApplyReject?)
    ensures Simulates(book, sm, o, Close(sm, status, action), nowNs)
  {
    DispatchOne(o, action, nowNs);
  }

  lemma {:induction false} IdleSimulates(book: TradeBook, sm: Sm, o: OT.PendingOrder, action: SmAction, nowNs: i64)
    requires Knows(book, sm) && Agree(sm, o) && (action.Ignored? || action.ScheduleStatusCheck?)
    ensures Simulates(book, sm, o, Processed(sm, [action]), nowNs)
  {
    DispatchOne(o, action, nowNs);
  }

  // Whatever event arrives, dispatching the machine's actions in order never makes the gateway
  // refuse one, and afterwards both agree on status and filled quantity.
  lemma {:induction false} ProcessSimulates(book: TradeBook, sm: Sm, o: OT.PendingOrder, input: SmInput, nowNs: i64)
    requires HonestBook(book, sm.totalQty) && HonestReport(book, sm, input)
    requires Knows(book, sm) && Agree(sm, o)
    ensures Simulates(book, sm, o, Process(sm, input), nowNs)
  {
    var live := sm.status.New? || sm.status.PartiallyFilled?;
    if sm.status.IsTerminal() {
      IdleSimulates(book, sm, o, Ignored, nowNs);
    } else {
      match input
      case Acknowledged(exchangeId) =>
        if live { IdleSimulates(book, sm, o, Ignored, nowNs); } else { FlushSimulates(book, sm, o, exchangeId, nowNs); }
      case FillReceived(trade) =>
        if live { LiveFillSimulates(book, sm, o, trade, nowNs); } else { BufferSimulates(book, sm, o, trade, nowNs); }
      case CancelConfirmed =>
        CloseSimulates(book, sm, o, Cancelled, ApplyCancel, nowNs);
      case RejectReceived(reason) =>
        CloseSimulates(book, sm, o, Rejected, ApplyReject(reason), nowNs);
        IdleSimulates(book, sm, o, Ignored, nowNs);
      case ExpireReceived =>
        CloseSimulates(book, sm, o, Expired, ApplyExpire, nowNs);
        IdleSimulates(book, sm, o, Ignored, nowNs);
      case StatusCheckResult(outcome) =>
        IdleSimulates(book, sm, o, Ignored, nowNs);
        if sm.status.UnknownStatus? {
          ResolveSimulates(book, sm, o, outcome, nowNs);
        }
    }
  }

  lemma {:induction false} ClosingSimulates(book: TradeBook, sm: Sm, o: OT.PendingOrder, outcome: StatusCheckOutcome,
                                            nowNs: i64)
    requires Knows(book, sm) && Agree(sm, o) && sm.status.UnknownStatus?
    requires !outcome.LiveOutcome? && !outcome.FilledOutcome? && !outcome.CheckFailed?
    ensures Simulates(book, sm, o, Resolve(sm, outcome), nowNs)
  {
    match outcome
    case CancelledOutcome(_) =>
      CloseSimulates(book, sm, o, Cancelled, ApplyCancel, nowNs);
    case RejectedOutcome(reason) =>
      CloseSimulates(book, sm, o, Rejected, ApplyReject(reason), nowNs);
    case ExpiredOutcome(_) =>
      CloseSimulates(book, sm, o, Expired, ApplyExpire, nowNs);
    case NotFound =>
      CloseSimulates(book, sm, o, Rejected, ApplyReject(NotFoundReason()), nowNs);
  }

  lemma {:induction false} CheckedFilledSimulates(book: TradeBook, sm: Sm, o: OT.PendingOrder, exchangeId: u64,
                                                  trades: seq<TradeFill>, nowNs: i64)
    requires HonestBook(book, sm.totalQty) && Knows(book, sm) && Agree(sm, o) && sm.status.UnknownStatus?
    requires Reports(book, trades) && Completes(book, sm, trades)
    ensures Simulates(book, sm, o, Resolve(sm, FilledOutcome(exchangeId, trades)), nowNs)
  {
    HonestCheckAgreesIff(book, sm, o, exchangeId, trades, nowNs);
  }

  lemma {:induction false} ResolveSimulates(book: TradeBook, sm: Sm, o: OT.PendingOrder, outcome: StatusCheckOutcome,
                                            nowNs: i64)
    requires HonestBook(book, sm.totalQty) && Knows(book, sm) && Agree(sm, o) && sm.status.UnknownStatus?
    requires HonestReport(book, sm, StatusCheckResult(outcome))
    ensures Simulates(book, sm, o, Resolve(sm, outcome), nowNs)
  {
    match outcome
    case LiveOutcome(exchangeId) =>
      FlushSimulates(book, sm, o, exchangeId, nowNs);
    case FilledOutcome(exchangeId, trades) =>
      CheckedFilledSimulates(book, sm, o, exchangeId, trades, nowNs);
    case CheckFailed(_) =>
      IdleSimulates(book, sm, o, ScheduleStatusCheck, nowNs);
    case _ =>
      ClosingSimulates(book, sm, o, outcome, nowNs);
  }

  // --- Whole runs ------------------------------------------------------------

  datatype Both = Both(sm: Sm, order: OT.PendingOrder)

  // Each event's actions are dispatched before the next event is taken.
  function RunBoth(start: Both, timeoutNs: i64, events: seq<Event>): Result<Both, OT.Error> {
    if events == [] then Success(start)
    else
      var before :- RunBoth(start, timeoutNs, events[..|events| - 1]);
      var done := Next(before.sm, timeoutNs, events[|events| - 1]);
      var order :- DispatchAll(before.order, done.actions, events[|events| - 1].nowNs);
      Success(Both(done.sm, order))
  }

  ghost predicate HonestRun(book: TradeBook, sm: Sm, timeoutNs: i64, events: seq<Event>) {
    forall i | 0 <= i < |events| ::
      events[i].Arrived? ==> HonestReport(book, RunMachine(sm, timeoutNs, events[..i]).sm, events[i].input)
  }

  // Over every honest run, from submission to the end, no action is refused and the two sides
  // agree on status and filled quantity after every event.
  lemma {:induction false} RunNeverRefused(book: TradeBook, start: Both, timeoutNs: i64, events: seq<Event>)
    requires HonestBook(book, start.sm.totalQty) && HonestRun(book, start.sm, timeoutNs, events)
    requires Agree(start.sm, start.order) && Knows(book, start.sm)
    ensures var r := RunBoth(start, timeoutNs, events);
            && r.Success? && Agree(r.value.sm, r.value.order) && Knows(book, r.value.sm)
            && r.value.sm == RunMachine(start.sm, timeoutNs, events).sm
            && r.value.sm.totalQty == start.sm.totalQty && r.value.order.cloid == start.order.cloid
  {
    if events != [] {
      var before, last := events[..|events| - 1], events[|events| - 1];
      forall i | 0 <= i < |before|
        ensures before[i] == events[i] && before[..i] == events[..i]
      {
      }
      RunNeverRefused(book, start, timeoutNs, before);
      assert events[..|events| - 1] == before;
      var at := RunBoth(start, timeoutNs, before).value;
      match last
      case Arrived(input, nowNs) =>
        ProcessSimulates(book, at.sm, at.order, input, nowNs);
      case Ticked(nowNs) =>
        TickSimulates(book, at.sm, at.order, timeoutNs, nowNs);
    }
  }

  lemma {:induction false} TickSimulates(book: TradeBook, sm: Sm, o: OT.PendingOrder, timeoutNs: i64, nowNs: i64)
    requires Knows(book, sm) && Agree(sm, o)
    ensures Simulates(book, sm, o, Next(sm, timeoutNs, Event.Ticked(nowNs)), nowNs)
  {
    DispatchOne(o, ScheduleStatusCheck, nowNs);
  }

  predicate EventTaken(sm: Sm, event: Event) {
    event.Arrived? ==> Taken(sm, event.input)
  }

  predicate EventMatches(sm: Sm, event: Event) {
    event.Arrived? ==> Matches(sm, event.input)
  }

  lemma {:induction false} EventAgreesIff(sm: Sm, o: OT.PendingOrder, timeoutNs: i64, event: Event)
    requires Agree(sm, o)
    ensures DecidedBy(o, Next(sm, timeoutNs, event), event.nowNs, EventTaken(sm, event), EventMatches(sm, event))
  {
    match event
    case Arrived(input, nowNs) =>
      ProcessAgreesIff(sm, o, input, nowNs);
    case Ticked(nowNs) =>
      DispatchOne(o, ScheduleStatusCheck, nowNs);
  }

  // No action was ever refused and both sides agreed after every event.
  predicate AgreedThroughout(start: Both, timeoutNs: i64, events: seq<Event>) {
    if events == [] then Agree(start.sm, start.order)
    else
      var r := RunBoth(start, timeoutNs, events);
      && AgreedThroughout(start, timeoutNs, events[..|events| - 1])
      && r.Success? && Agree(r.value.sm, r.value.order)
  }

  // Every event met the machine in a state in which its fills are taken and match.
  predicate MatchedThroughout(sm: Sm, timeoutNs: i64, events: seq<Event>) {
    if events == [] then true
    else
      var before, last := events[..|events| - 1], events[|events| - 1];
      var at := RunMachine(sm, timeoutNs, before).sm;
      MatchedThroughout(sm, timeoutNs, before) && EventTaken(at, last) && EventMatches(at, last)
  }

  lemma {:induction false} RunBothFollows(start: Both, timeoutNs: i64, events: seq<Event>)
    requires RunBoth(start, timeoutNs, events).Success?
    ensures RunBoth(start, timeoutNs, events).value.sm == RunMachine(start.sm, timeoutNs, events).sm
  {
    if events != [] {
      RunBothFollows(start, timeoutNs, events[..|events| - 1]);
    }
  }

  // Over every run, honest or not, of a machine and a gateway that agree at the start.
  lemma {:induction false} RunAgreesIff(start: Both, timeoutNs: i64, events: seq<Event>)
    requires Agree(start.sm, start.order)
    ensures AgreedThroughout(start, timeoutNs, events) <==> MatchedThroughout(start.sm, timeoutNs, events)
    ensures AgreedThroughout(start, timeoutNs, events) ==>
              var r := RunBoth(start, timeoutNs, events); r.Success? && Agree(r.value.sm, r.value.order)
  {
    if events != [] {
      var before, last := events[..|events| - 1], events[|events| - 1];
      RunAgreesIff(start, timeoutNs, before);
      if AgreedThroughout(start, timeoutNs, before) {
        RunBothFollows(start, timeoutNs, before);
        var at := RunBoth(start, timeoutNs, before).value;
        EventAgreesIff(at.sm, at.order, timeoutNs, last);
      }
    }
  }

  // --- The two objects together ----------------------------------------------

  // The gateway's whole state after an action, and after a list of them up to the first refusal.
  function ReportedOne(gw: OG.Gw, cloid: Str, action: SmAction, nowNs: i64): OG.Outcome {
    match ReportOf(action)
    case None => OG.Outcome(gw, Success(()))
    case Some(report) => OG.Reported(gw, cloid, report, nowNs)
  }

  function ReportedAll(gw: OG.Gw, cloid: Str, actions: seq<SmAction>, nowNs: i64): OG.Outcome {
    if actions == [] then OG.Outcome(gw, Success(()))
    else
      var before := ReportedAll(gw, cloid, actions[..|actions| - 1], nowNs);
      if before.result.Failure? then before else ReportedOne(before.gw, cloid, actions[|actions| - 1], nowNs)
  }

  lemma {:induction false} RefusalStops(gw: OG.Gw, cloid: Str, actions: seq<SmAction>, i: nat, nowNs: i64)
    requires i <= |actions| && ReportedAll(gw, cloid, actions[..i], nowNs).result.Failure?
    ensures ReportedAll(gw, cloid, actions, nowNs) == ReportedAll(gw, cloid, actions[..i], nowNs)
  {
    if i == |actions| {
      assert actions[..i] == actions;
    } else {
      assert actions[..|actions| - 1][..i] == actions[..i];
      RefusalStops(gw, cloid, actions[..|actions| - 1], i, nowNs);
    }
  }

  lemma {:induction false} ReportedOneDispatches(gw: OG.Gw, cloid: Str, action: SmAction, nowNs: i64)
    requires cloid in gw.orders
    ensures var out := ReportedOne(gw, cloid, action, nowNs);
            && out.gw.orders.Keys == gw.orders.Keys
            && match Dispatch(gw.orders[cloid], action, nowNs)
               case Success(order) => out.result == Success(()) && out.gw.orders == gw.orders[cloid := order]
               case Failure(e) => out == OG.Outcome(gw, Failure(e))
  {
  }

  // Seen from the one order, that is dispatching its actions: all or up to the first refusal, and
  // no other order moves.
  lemma {:induction false} ReportedAllDispatches(gw: OG.Gw, cloid: Str, actions: seq<SmAction>, nowNs: i64)
    requires cloid in gw.orders
    ensures var out := ReportedAll(gw, cloid, actions, nowNs);
            && cloid in out.gw.orders && out.gw.orders == gw.orders[cloid := out.gw.orders[cloid]]
            && match DispatchAll(gw.orders[cloid], actions, nowNs)
               case Success(order) => out.result == Success(()) && out.gw.orders[cloid] == order
               case Failure(e) => out.result == Failure(e)
  {
    if actions != [] {
      var front, last := actions[..|actions| - 1], actions[|actions| - 1];
      ReportedAllDispatches(gw, cloid, front, nowNs);
      ReportedOneDispatches(ReportedAll(gw, cloid, front, nowNs).gw, cloid, last, nowNs);
    }
  }

  lemma {:induction false} ReportedStep(gw: OG.Gw, cloid: Str, actions: seq<SmAction>, i: nat, mid: OG.Gw, nowNs: i64)
    requires i < |actions| && ReportedAll(gw, cloid, actions[..i], nowNs) == OG.Outcome(mid, Success(()))
    ensures ReportedAll(gw, cloid, actions[..i + 1], nowNs) == ReportedOne(mid, cloid, actions[i], nowNs)
    ensures ReportedOne(mid, cloid, actions[i], nowNs).result.Failure? ==>
              ReportedAll(gw, cloid, actions, nowNs) == ReportedOne(mid, cloid, actions[i], nowNs)
  {
    assert actions[..i + 1][..i] == actions[..i];
    if ReportedOne(mid, cloid, actions[i], nowNs).result.Failure? {
      RefusalStops(gw, cloid, actions, i + 1, nowNs);
    }
  }

  method DispatchAction(gateway: OG.OrderGateway, cloid: Str, action: SmAction, nowNs: i64)
    returns (r: Result<(), OT.Error>)
    requires gateway.Valid()
    modifies gateway`orders, gateway`log, gateway.journal
    ensures gateway.Valid()
    ensures OG.Outcome(gateway.View(), r) == ReportedOne(old(gateway.View()), cloid, action, nowNs)
  {
    match action {
      case ApplyAck(exchangeId) => r := gateway.OnAck(cloid, exchangeId, nowNs);
      case ApplyFill(fill) => r := gateway.OnFill(cloid, fill.qty, fill.price, nowNs);
      case ApplyCancel => r := gateway.OnCancel(cloid, nowNs);
      case ApplyReject(reason) => r := gateway.OnReject(cloid, reason, nowNs);
      case ApplyExpire => r := gateway.OnExpire(cloid, nowNs);
      case ScheduleStatusCheck => r := Success(());
      case Ignored => r := Success(());
    }
  }

  method DispatchTo(gateway: OG.OrderGateway, cloid: Str, actions: seq<SmAction>, nowNs: i64)
    returns (r: Result<(), OT.Error>)
    requires gateway.Valid()
    modifies gateway`orders, gateway`log, gateway.journal
    ensures gateway.Valid()
    ensures OG.Outcome(gateway.View(), r) == ReportedAll(old(gateway.View()), cloid, actions, nowNs)
  {
    ghost var gw := gateway.View();
    for i := 0 to |actions|
      invariant gateway.Valid()
      invariant ReportedAll(gw, cloid, actions[..i], nowNs) == OG.Outcome(gateway.View(), Success(()))
    {
      ReportedStep(gw, cloid, actions, i, gateway.View(), nowNs);
      r := DispatchAction(gateway, cloid, actions[i], nowNs);
      if r.Failure? {
        return r;
      }
    }
    assert actions[..|actions|] == actions;
    return Success(());
  }

  // An honest event's actions, taken to the whole gateway.
  lemma {:induction false} EventSimulates(book: TradeBook, sm: Sm, gw: OG.Gw, cloid: Str, input: SmInput, nowNs: i64)
    requires HonestBook(book, sm.totalQty) && HonestReport(book, sm, input)
    requires cloid in gw.orders && Knows(book, sm) && Agree(sm, gw.orders[cloid])
    ensures var done := Process(sm, input);
            var out := ReportedAll(gw, cloid, done.actions, nowNs);
            && out.result == Success(()) && Knows(book, done.sm)
            && cloid in out.gw.orders && Agree(done.sm, out.gw.orders[cloid])
            && out.gw.orders == gw.orders[cloid := out.gw.orders[cloid]]
  {
    ProcessSimulates(book, sm, gw.orders[cloid], input, nowNs);
    ReportedAllDispatches(gw, cloid, Process(sm, input).actions, nowNs);
  }

  // An event for a tracked order is processed and its actions dispatched, up to a refusal.
  method ProcessAndDispatch(engine: StateMachineEngine, gateway: OG.OrderGateway, cloid: Str, input: SmInput,
                            nowNs: i64) returns (r: Result<(), OT.Error>)
    requires engine.Valid() && gateway.Valid() && cloid in engine.orders
    modifies engine, engine.orders[cloid], gateway`orders, gateway`log, gateway.journal
    ensures engine.Valid() && gateway.Valid()
    ensures var sm, done := old(engine.orders)[cloid], Process(old(engine.orders[cloid].View()), input);
            && sm.View() == done.sm
            && engine.orders == (if done.sm.status.IsTerminal() then old(engine.orders) - {cloid} else old(engine.orders))
            && OG.Outcome(gateway.View(), r) == ReportedAll(old(gateway.View()), cloid, done.actions, nowNs)
  {
    var actions := engine.ProcessEvent(cloid, input);
    r := DispatchTo(gateway, cloid, actions.value, nowNs);
  }

  // With an honest exchange the gateway accepts them all, the order and its machine still agree, and
  // no other order moves.
  method HandleEvent(engine: StateMachineEngine, gateway: OG.OrderGateway, cloid: Str, input: SmInput,
                     nowNs: i64, ghost book: TradeBook) returns (r: Result<(), OT.Error>)
    requires engine.Valid() && gateway.Valid() && cloid in engine.orders && cloid in gateway.orders
    requires var sm := engine.orders[cloid].View();
             && HonestBook(book, sm.totalQty) && HonestReport(book, sm, input)
             && Knows(book, sm) && Agree(sm, gateway.orders[cloid])
    modifies engine, engine.orders[cloid], gateway`orders, gateway`log, gateway.journal
    ensures engine.Valid() && gateway.Valid() && r == Success(())
    ensures var sm := old(engine.orders)[cloid];
            && sm.View() == Process(old(engine.orders[cloid].View()), input).sm
            && cloid in gateway.orders && Agree(sm.View(), gateway.orders[cloid]) && Knows(book, sm.View())
            && engine.orders == (if sm.status.IsTerminal() then old(engine.orders) - {cloid} else old(engine.orders))
            && gateway.orders == old(gateway.orders)[cloid := gateway.orders[cloid]]
  {
    EventSimulates(book, engine.orders[cloid].View(), gateway.View(), cloid, input, nowNs);
    r := ProcessAndDispatch(engine, gateway, cloid, input, nowNs);
  }

  // --- From the enqueue on ---------------------------------------------------

  // The machine an engine tracks for a new order.
  function Tracked(cloid: Str, totalQty: i64, submittedNs: i64): Sm {
    Sm(cloid, Pending, totalQty, 0, submittedNs, [], {})
  }

  // A new order carries its request and its time, waits with nothing filled and no exchange id, and
  // its machine agrees with it whatever the exchange will do.
  lemma {:induction false} EnqueueHandsOver(gw: OG.Gw, request: OT.OrderRequest, nowNs: i64, book: TradeBook)
    ensures var after, cloid := OG.Enqueued(gw, request, nowNs), OG.NextId(gw);
            var sm := Tracked(cloid, request.qty, nowNs);
            && cloid in after.orders
            && var o := after.orders[cloid];
               && o.cloid == cloid && o.request == request && o.submittedNs == o.lastUpdatedNs == nowNs
               && o.status.Pending? && o.exchangeId.None? && o.filledQty == 0
               && Submitted(sm) && Agree(sm, o) && Knows(book, sm)
  {
  }

  // Its first acknowledgement is accepted, journalled and tells the exchange's id.
  lemma {:induction false} FirstAckIsTaken(gw: OG.Gw, request: OT.OrderRequest, nowNs: i64, exchangeId: u64, ackNs: i64)
    ensures var queued, cloid := OG.Enqueued(gw, request, nowNs), OG.NextId(gw);
            var acked := OG.Reported(queued, cloid, OG.AckReport(exchangeId), ackNs);
            && acked.result == Success(())
            && acked.gw.log == queued.log + [J.OrderAcknowledged(ackNs, cloid, exchangeId)]
            && cloid in acked.gw.orders && acked.gw.orders[cloid].status.New?
            && acked.gw.orders[cloid].exchangeId == Some(exchangeId) && acked.gw.orders[cloid].lastUpdatedNs == ackNs
  {
  }

  // So no action of an honest run is refused, from the enqueue on.
  lemma {:induction false} EnqueuedRunNeverRefused(book: TradeBook, gw: OG.Gw, request: OT.OrderRequest, nowNs: i64,
                                                   timeoutNs: i64, events: seq<Event>)
    requires HonestBook(book, request.qty)
    requires HonestRun(book, Tracked(OG.NextId(gw), request.qty, nowNs), timeoutNs, events)
    ensures var cloid := OG.NextId(gw);
            var order := OG.Enqueued(gw, request, nowNs).orders[cloid];
            var r := RunBoth(Both(Tracked(cloid, request.qty, nowNs), order), timeoutNs, events);
            && r.Success? && Agree(r.value.sm, r.value.order) && Knows(book, r.value.sm)
            && r.value.order.cloid == cloid
  {
    EnqueueHandsOver(gw, request, nowNs, book);
    var cloid := OG.NextId(gw);
    RunNeverRefused(book, Both(Tracked(cloid, request.qty, nowNs), OG.Enqueued(gw, request, nowNs).orders[cloid]),
                    timeoutNs, events);
  }

  // --- What is journalled of fills -------------------------------------------

  // The entry repeats what the action said.
  predicate Repeats(entry: J.JournalEntry, action: SmAction) {
    match action
    case ApplyAck(exchangeId) => entry.OrderAcknowledged? && entry.exchangeId == exchangeId
    case ApplyFill(fill) => entry.OrderFilled? && entry.fillQty == fill.qty && entry.fillPrice == fill.price
    case ApplyCancel => entry.OrderCancelled?
    case ApplyReject(reason) => entry.OrderRejected? && entry.reason == reason
    case ApplyExpire => entry.OrderExpired?
    case ScheduleStatusCheck => false
    case Ignored => false
  }

  // An action that moves the gateway is journalled once, in its own words; the two that ask for
  // nothing never do.
  lemma {:induction false} ActionIsJournalled(gw: OG.Gw, cloid: Str, action: SmAction, nowNs: i64)
    ensures var out := ReportedOne(gw, cloid, action, nowNs);
            && (action.ScheduleStatusCheck? || action.Ignored? ==> out == OG.Outcome(gw, Success(())))
            && (out.gw != gw ==>
                  && |out.gw.log| == |gw.log| + 1 && out.gw.log[..|gw.log|] == gw.log
                  && Repeats(out.gw.log[|gw.log|], action) && out.gw.log[|gw.log|].timestampNs == nowNs)
  {
  }

  function FillEntries(cloid: Str, filledQty: i64, totalQty: i64, fills: seq<Fill>, nowNs: i64): seq<J.JournalEntry> {
    if fills == [] then []
    else
      var before, last := fills[..|fills| - 1], fills[|fills| - 1];
      FillEntries(cloid, filledQty, totalQty, before, nowNs)
      + [J.OrderFilled(nowNs, cloid, last.qty, last.price, AddFills(filledQty, fills) >= totalQty)]
  }

  // The gateway after some entries for the order, which then has the given sum.
  predicate Journalled(gw: OG.Gw, cloid: Str, after: OG.Gw, entries: seq<J.JournalEntry>, filledQty: i64)
    requires cloid in gw.orders
  {
    && after.log == gw.log + entries
    && cloid in after.orders && after.orders[cloid].cloid == cloid
    && after.orders[cloid].request == gw.orders[cloid].request && after.orders[cloid].filledQty == filledQty
  }

  lemma {:induction false} OneFillIsJournalled(gw: OG.Gw, cloid: Str, fill: Fill, nowNs: i64)
    requires cloid in gw.orders && gw.orders[cloid].cloid == cloid
    requires ReportedOne(gw, cloid, ApplyFill(fill), nowNs).result.Success?
    ensures var o, filledQty := gw.orders[cloid], WrapI64(gw.orders[cloid].filledQty + fill.qty);
            Journalled(gw, cloid, ReportedOne(gw, cloid, ApplyFill(fill), nowNs).gw,
                       [J.OrderFilled(nowNs, cloid, fill.qty, fill.price, filledQty >= o.request.qty)], filledQty)
  {
  }

  lemma {:induction false} JournalledTwice(gw: OG.Gw, cloid: Str, mid: OG.Gw, first: seq<J.JournalEntry>, midQty: i64,
                                           after: OG.Gw, second: seq<J.JournalEntry>, filledQty: i64)
    requires cloid in gw.orders && Journalled(gw, cloid, mid, first, midQty)
    requires Journalled(mid, cloid, after, second, filledQty)
    ensures Journalled(gw, cloid, after, first + second, filledQty)
  {
  }

  // Every fill handed on is journalled once and in order, with its quantity and its price, and marked
  // final exactly when it completes the order.
  lemma {:induction false} FillsAreJournalled(gw: OG.Gw, cloid: Str, fills: seq<Fill>, nowNs: i64)
    requires cloid in gw.orders && gw.orders[cloid].cloid == cloid
    requires ReportedAll(gw, cloid, FillActions(fills), nowNs).result.Success?
    ensures var o := gw.orders[cloid];
            Journalled(gw, cloid, ReportedAll(gw, cloid, FillActions(fills), nowNs).gw,
                       FillEntries(cloid, o.filledQty, o.request.qty, fills, nowNs), AddFills(o.filledQty, fills))
  {
    if fills != [] {
      var front, last := fills[..|fills| - 1], fills[|fills| - 1];
      assert FillActions(fills)[..|fills| - 1] == FillActions(front);
      FillsAreJournalled(gw, cloid, front, nowNs);
      var o, mid := gw.orders[cloid], ReportedAll(gw, cloid, FillActions(front), nowNs).gw;
      OneFillIsJournalled(mid, cloid, last, nowNs);
      JournalledTwice(gw, cloid, mid, FillEntries(cloid, o.filledQty, o.request.qty, front, nowNs),
                      AddFills(o.filledQty, front), ReportedOne(mid, cloid, ApplyFill(last), nowNs).gw,
                      [J.OrderFilled(nowNs, cloid, last.qty, last.price,
                                     AddFills(o.filledQty, fills) >= o.request.qty)],
                      AddFills(o.filledQty, fills));
    }
  }

  // The two objects: the gateway takes the order in and the engine tracks it.
  method Submit(engine: StateMachineEngine, gateway: OG.OrderGateway, request: OT.OrderRequest, nowNs: i64,
                ghost book: TradeBook) returns (cloid: Str)
    requires engine.Valid() && gateway.Valid()
    modifies engine, gateway, gateway.cloidGen, gateway.journal
    ensures engine.Valid() && gateway.Valid()
    ensures cloid == OG.NextId(old(gateway.View()))
    ensures gateway.View() == OG.Enqueued(old(gateway.View()), request, nowNs)
    ensures cloid in engine.orders && engine.orders == old(engine.orders)[cloid := engine.orders[cloid]]
    ensures cloid in gateway.orders && gateway.orders[cloid].request == request
    ensures var sm := engine.orders[cloid].View();
            Submitted(sm) && Agree(sm, gateway.orders[cloid]) && Knows(book, sm)
  {
    EnqueueHandsOver(gateway.View(), request, nowNs, book);
    cloid := gateway.Enqueue(request, nowNs);
    engine.Track(cloid, request.qty, nowNs);
  }
}
