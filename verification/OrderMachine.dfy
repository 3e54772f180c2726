/**
 * The order state machine: it buffers fills that arrive before the acknowledgement, drops
 * redelivered trades, and asks for a status check when no acknowledgement comes in time.
 */
module OrderMachine {
  import opened Integers
  import opened Utf8
  import opened Wrappers

  const DEFAULT_UNKNOWN_TIMEOUT_NS: i64 := 5_000_000_000

  datatype SmStatus =
    | Pending
    | New
    | PartiallyFilled
    | UnknownStatus
    | Filled
    | Cancelled
    | Rejected
    | Expired
  {
    predicate IsTerminal() {
      Filled? || Cancelled? || Rejected? || Expired?
    }
  }

  datatype Fill = Fill(qty: i64, price: i64)
  datatype TradeFill = TradeFill(tradeId: u64, fill: Fill)

  datatype StatusCheckOutcome =
    | LiveOutcome(exchangeId: u64)
    | FilledOutcome(exchangeId: u64, fills: seq<TradeFill>)
    | CancelledOutcome(exchangeId: u64)
    | RejectedOutcome(reason: Str)
    | ExpiredOutcome(exchangeId: u64)
    | NotFound
    | CheckFailed(reason: Str)

  datatype SmInput =
    | Acknowledged(exchangeId: u64)
    | FillReceived(trade: TradeFill)
    | CancelConfirmed
    | RejectReceived(reason: Str)
    | ExpireReceived
    | StatusCheckResult(outcome: StatusCheckOutcome)

  datatype SmAction =
    | ApplyAck(exchangeId: u64)
    | ApplyFill(fill: Fill)
    | ApplyCancel
    | ApplyReject(reason: Str)
    | ApplyExpire
    | ScheduleStatusCheck
    | Ignored

  datatype Sm = Sm(
    cloid: Str,
    status: SmStatus,
    totalQty: i64,
    filledQty: i64,
    submittedNs: i64,
    buffered: seq<Fill>,
    seen: set<u64>)

  datatype Processed = Processed(sm: Sm, actions: seq<SmAction>)

  // "order not found by REST status check"
  function NotFoundReason(): Str {
    var bytes: seq<u8> :=
      [111, 114, 100, 101, 114, 32, 110, 111, 116, 32, 102, 111, 117, 110, 100, 32, 98, 121, 32,
       82, 69, 83, 84, 32, 115, 116, 97, 116, 117, 115, 32, 99, 104, 101, 99, 107];
    AsciiIsUtf8(bytes);
    bytes
  }

  // --- The transition function -----------------------------------------------

  function AddFills(qty: i64, fills: seq<Fill>): i64 {
    if fills == [] then qty
    else WrapI64(AddFills(qty, fills[..|fills| - 1]) + fills[|fills| - 1].qty)
  }

  function FillActions(fills: seq<Fill>): (actions: seq<SmAction>)
    ensures |actions| == |fills|
  {
    if fills == [] then [] else FillActions(fills[..|fills| - 1]) + [ApplyFill(fills[|fills| - 1])]
  }

  function Ids(trades: seq<TradeFill>): set<u64> {
    if trades == [] then {} else Ids(trades[..|trades| - 1]) + {trades[|trades| - 1].tradeId}
  }

  function Fills(trades: seq<TradeFill>): (fills: seq<Fill>)
    ensures |fills| == |trades|
  {
    if trades == [] then [] else Fills(trades[..|trades| - 1]) + [trades[|trades| - 1].fill]
  }

  // The first delivery of each trade that was not seen before.
  function Unseen(seen: set<u64>, trades: seq<TradeFill>): seq<TradeFill> {
    if trades == [] then []
    else
      var before, last := trades[..|trades| - 1], trades[|trades| - 1];
      if last.tradeId in seen || last.tradeId in Ids(before) then Unseen(seen, before)
      else Unseen(seen, before) + [last]
  }

  function LiveStatus(filledQty: i64, totalQty: i64): SmStatus {
    if filledQty >= totalQty then Filled else if filledQty > 0 then PartiallyFilled else New
  }

  // An acknowledgement applies the buffered fills in arrival order.
  function Flush(sm: Sm, exchangeId: u64): Processed {
    var filledQty := AddFills(sm.filledQty, sm.buffered);
    Processed(sm.(status := LiveStatus(filledQty, sm.totalQty), filledQty := filledQty, buffered := []),
              [ApplyAck(exchangeId)] + FillActions(sm.buffered))
  }

  function BufferFill(sm: Sm, trade: TradeFill): Processed {
    if trade.tradeId in sm.seen then Processed(sm, [Ignored])
    else Processed(sm.(seen := sm.seen + {trade.tradeId}, buffered := sm.buffered + [trade.fill]), [])
  }

  function Close(sm: Sm, status: SmStatus, action: SmAction): Processed {
    Processed(sm.(status := status), [action])
  }

  function ProcessPending(sm: Sm, input: SmInput): Processed {
    match input
    case Acknowledged(exchangeId) => Flush(sm, exchangeId)
    case FillReceived(trade) => BufferFill(sm, trade)
    case RejectReceived(reason) => Close(sm, Rejected, ApplyReject(reason))
    case CancelConfirmed => Close(sm, Cancelled, ApplyCancel)
    case _ => Processed(sm, [Ignored])
  }

  function ProcessLive(sm: Sm, input: SmInput): Processed {
    match input
    case FillReceived(trade) =>
      if trade.tradeId in sm.seen then Processed(sm, [Ignored])
      else
        var filledQty := WrapI64(sm.filledQty + trade.fill.qty);
        Processed(sm.(seen := sm.seen + {trade.tradeId},
                      filledQty := filledQty,
                      status := if filledQty >= sm.totalQty then Filled else PartiallyFilled),
                  [ApplyFill(trade.fill)])
    case CancelConfirmed => Close(sm, Cancelled, ApplyCancel)
    case ExpireReceived => Close(sm, Expired, ApplyExpire)
    case RejectReceived(reason) => Close(sm, Rejected, ApplyReject(reason))
    case _ => Processed(sm, [Ignored])
  }

  function ProcessUnknown(sm: Sm, input: SmInput): Processed {
    match input
    case Acknowledged(exchangeId) => Flush(sm, exchangeId)
    case FillReceived(trade) => BufferFill(sm, trade)
    case CancelConfirmed => Close(sm, Cancelled, ApplyCancel)
    case StatusCheckResult(outcome) => Resolve(sm, outcome)
    case _ => Processed(sm, [Ignored])
  }

  function Resolve(sm: Sm, outcome: StatusCheckOutcome): Processed {
    match outcome
    case LiveOutcome(exchangeId) => Flush(sm, exchangeId)
    case FilledOutcome(exchangeId, trades) =>
      var fills := Fills(Unseen(sm.seen, trades)) + sm.buffered;
      Processed(sm.(seen := sm.seen + Ids(trades),
                    filledQty := AddFills(sm.filledQty, fills),
                    buffered := [],
                    status := Filled),
                [ApplyAck(exchangeId)] + FillActions(fills))
    case CancelledOutcome(_) => Close(sm, Cancelled, ApplyCancel)
    case RejectedOutcome(reason) => Close(sm, Rejected, ApplyReject(reason))
    case ExpiredOutcome(_) => Close(sm, Expired, ApplyExpire)
    case NotFound => Close(sm, Rejected, ApplyReject(NotFoundReason()))
    case CheckFailed(_) => Processed(sm, [ScheduleStatusCheck])
  }

  function Process(sm: Sm, input: SmInput): Processed {
    match sm.status
    case Pending => ProcessPending(sm, input)
    case New => ProcessLive(sm, input)
    case PartiallyFilled => ProcessLive(sm, input)
    case UnknownStatus => ProcessUnknown(sm, input)
    case _ => Processed(sm, [Ignored])
  }

  predicate TimedOut(sm: Sm, nowNs: i64, timeoutNs: i64) {
    sm.status.Pending? && SaturatingSub(nowNs, sm.submittedNs) > timeoutNs
  }

  function Ticked(sm: Sm, nowNs: i64, timeoutNs: i64): Sm {
    if TimedOut(sm, nowNs, timeoutNs) then sm.(status := UnknownStatus) else sm
  }

  // --- One order -------------------------------------------------------------

  lemma {:induction false} FillsSnoc(qty: i64, fills: seq<Fill>, i: nat)
    requires i < |fills|
    ensures AddFills(qty, fills[..i + 1]) == WrapI64(AddFills(qty, fills[..i]) + fills[i].qty)
    ensures FillActions(fills[..i + 1]) == FillActions(fills[..i]) + [ApplyFill(fills[i])]
  {
    assert fills[..i + 1][..i] == fills[..i];
  }

  class OrderSm {
    const cloid: Str
    var status: SmStatus
    const totalQty: i64
    var filledQty: i64
    const submittedNs: i64
    var buffered: seq<Fill>
    var seen: set<u64>

    function View(): Sm
      reads this
    {
      Sm(cloid, status, totalQty, filledQty, submittedNs, buffered, seen)
    }

    constructor (cloid: Str, totalQty: i64, submittedNs: i64)
      ensures View() == Sm(cloid, Pending, totalQty, 0, submittedNs, [], {})
    {
      this.cloid, this.totalQty, this.submittedNs := cloid, totalQty, submittedNs;
      status, filledQty, buffered, seen := Pending, 0, [], {};
    }

    method ProcessInput(input: SmInput) returns (actions: seq<SmAction>)
      modifies this
      ensures Processed(View(), actions) == Process(old(View()), input)
    {
      if status.Pending? {
        actions := HandlePending(input);
      } else if status.New? || status.PartiallyFilled? {
        actions := HandleLive(input);
      } else if status.UnknownStatus? {
        actions := HandleUnknown(input);
      } else {
        actions := [Ignored];
      }
    }

    // Take the buffered fills and emit them one by one.
    method ApplyBuffered(actions0: seq<SmAction>) returns (actions: seq<SmAction>)
      modifies this`filledQty, this`buffered
      ensures filledQty == AddFills(old(filledQty), old(buffered)) && buffered == []
      ensures actions == actions0 + FillActions(old(buffered))
    {
      var fills := buffered;
      buffered := [];
      actions := actions0;
      for i := 0 to |fills|
        invariant filledQty == AddFills(old(filledQty), fills[..i]) && buffered == []
        invariant actions == actions0 + FillActions(fills[..i])
      {
        FillsSnoc(old(filledQty), fills, i);
        filledQty := WrapI64(filledQty + fills[i].qty);
        actions := actions + [ApplyFill(fills[i])];
      }
      assert fills[..|fills|] == fills;
    }

    method AcknowledgeAndFlush(exchangeId: u64) returns (actions: seq<SmAction>)
      modifies this
      ensures Processed(View(), actions) == Flush(old(View()), exchangeId)
    {
      status := New;
      actions := ApplyBuffered([ApplyAck(exchangeId)]);
      status := if filledQty >= totalQty then Filled else if filledQty > 0 then PartiallyFilled else New;
    }

    method KeepForLater(trade: TradeFill) returns (actions: seq<SmAction>)
      modifies this
      ensures Processed(View(), actions) == BufferFill(old(View()), trade)
    {
      if trade.tradeId in seen {
        return [Ignored];
      }
      seen := seen + {trade.tradeId};
      buffered := buffered + [trade.fill];
      return [];
    }

    method HandlePending(input: SmInput) returns (actions: seq<SmAction>)
      modifies this
      ensures Processed(View(), actions) == ProcessPending(old(View()), input)
    {
      match input {
        case Acknowledged(exchangeId) =>
          actions := AcknowledgeAndFlush(exchangeId);
        case FillReceived(trade) =>
          actions := KeepForLater(trade);
        case RejectReceived(reason) =>
          status := Rejected;
          actions := [ApplyReject(reason)];
        case CancelConfirmed =>
          status := Cancelled;
          actions := [ApplyCancel];
        case _ =>
          actions := [Ignored];
      }
    }

    method HandleLive(input: SmInput) returns (actions: seq<SmAction>)
      modifies this
      ensures Processed(View(), actions) == ProcessLive(old(View()), input)
    {
      match input {
        case FillReceived(trade) =>
          if trade.tradeId in seen {
            return [Ignored];
          }
          seen := seen + {trade.tradeId};
          filledQty := WrapI64(filledQty + trade.fill.qty);
          status := if filledQty >= totalQty then Filled else PartiallyFilled;
          actions := [ApplyFill(trade.fill)];
        case CancelConfirmed =>
          status := Cancelled;
          actions := [ApplyCancel];
        case ExpireReceived =>
          status := Expired;
          actions := [ApplyExpire];
        case RejectReceived(reason) =>
          status := Rejected;
          actions := [ApplyReject(reason)];
        case _ =>
          actions := [Ignored];
      }
    }

    method HandleUnknown(input: SmInput) returns (actions: seq<SmAction>)
      modifies this
      ensures Processed(View(), actions) == ProcessUnknown(old(View()), input)
    {
      match input {
        case Acknowledged(exchangeId) =>
          actions := AcknowledgeAndFlush(exchangeId);
        case FillReceived(trade) =>
          actions := KeepForLater(trade);
        case CancelConfirmed =>
          status := Cancelled;
          actions := [ApplyCancel];
        case StatusCheckResult(outcome) =>
          actions := ResolveFromCheck(outcome);
        case _ =>
          actions := [Ignored];
      }
    }

    method ResolveFromCheck(outcome: StatusCheckOutcome) returns (actions: seq<SmAction>)
      modifies this
      ensures Processed(View(), actions) == Resolve(old(View()), outcome)
    {
      match outcome {
        case LiveOutcome(exchangeId) =>
          actions := AcknowledgeAndFlush(exchangeId);
        case FilledOutcome(exchangeId, trades) =>
          actions := ApplyReported(exchangeId, trades);
        case CancelledOutcome(_) =>
          status := Cancelled;
          actions := [ApplyCancel];
        case RejectedOutcome(reason) =>
          status := Rejected;
          actions := [ApplyReject(reason)];
        case ExpiredOutcome(_) =>
          status := Expired;
          actions := [ApplyExpire];
        case NotFound =>
          status := Rejected;
          actions := [ApplyReject(NotFoundReason())];
        case CheckFailed(_) =>
          actions := [ScheduleStatusCheck];
      }
    }

    // The exchange's own report, without the trades already delivered.
    method ApplyUnseen(actions0: seq<SmAction>, trades: seq<TradeFill>) returns (actions: seq<SmAction>)
      modifies this`seen, this`filledQty
      ensures seen == old(seen) + Ids(trades)
      ensures filledQty == AddFills(old(filledQty), Fills(Unseen(old(seen), trades)))
      ensures actions == actions0 + FillActions(Fills(Unseen(old(seen), trades)))
    {
      actions := actions0;
      for i := 0 to |trades|
        invariant seen == old(seen) + Ids(trades[..i])
        invariant filledQty == AddFills(old(filledQty), Fills(Unseen(old(seen), trades[..i])))
        invariant actions == actions0 + FillActions(Fills(Unseen(old(seen), trades[..i])))
      {
        NextUnseen(old(seen), old(filledQty), trades, i);
        if trades[i].tradeId !in seen {
          ActionsSnoc(actions0, FillActions(Fills(Unseen(old(seen), trades[..i]))), ApplyFill(trades[i].fill));
          seen := seen + {trades[i].tradeId};
          filledQty := WrapI64(filledQty + trades[i].fill.qty);
          actions := actions + [ApplyFill(trades[i].fill)];
        }
      }
      assert trades[..|trades|] == trades;
    }

    method ApplyReported(exchangeId: u64, trades: seq<TradeFill>) returns (actions: seq<SmAction>)
      modifies this
      ensures Processed(View(), actions) == Resolve(old(View()), FilledOutcome(exchangeId, trades))
    {
      ReportedInParts(View(), exchangeId, trades, Fills(Unseen(seen, trades)));
      actions := ApplyUnseen([ApplyAck(exchangeId)], trades);
      actions := ApplyBuffered(actions);
      status := Filled;
    }

    method CheckTimeout(nowNs: i64, timeoutNs: i64) returns (fired: bool)
      modifies this`status
      ensures View() == Ticked(old(View()), nowNs, timeoutNs)
      ensures fired == TimedOut(old(View()), nowNs, timeoutNs)
      ensures status == if fired then UnknownStatus else old(status)
    {
      fired := status == Pending && SaturatingSub(nowNs, submittedNs) > timeoutNs;
      if fired {
        status := UnknownStatus;
      }
    }
  }

  // The orders a tick reports on.
  function Notified(results: seq<(Str, SmAction)>): set<Str> {
    if results == [] then {} else Notified(results[..|results| - 1]) + {results[|results| - 1].0}
  }

  // Each of the named orders is reported on once, and nothing else is.
  predicate Reports(results: seq<(Str, SmAction)>, names: set<Str>) {
    Notified(results) == names && |results| == |names| && forall r | r in results :: r.1 == ScheduleStatusCheck
  }

  lemma {:induction false} ReportsSnoc(results: seq<(Str, SmAction)>, names: set<Str>, c: Str)
    requires Reports(results, names) && c !in names
    ensures Reports(results + [(c, ScheduleStatusCheck)], names + {c})
  {
    var after := results + [(c, ScheduleStatusCheck)];
    assert after[..|after| - 1] == results;
  }

  function Names(sms: set<OrderSm>): set<Str> {
    set sm | sm in sms :: sm.cloid
  }

  ghost function Late(sms: set<OrderSm>, nowNs: i64, timeoutNs: i64): set<OrderSm>
    reads sms
  {
    set sm | sm in sms && TimedOut(sm.View(), nowNs, timeoutNs)
  }

  predicate NamedApart(sms: set<OrderSm>) {
    forall a, b | a in sms && b in sms && a != b :: a.cloid != b.cloid
  }

  // Reporting on one more of the orders.
  lemma {:induction false} ReportsOneMore(results: seq<(Str, SmAction)>, sms: set<OrderSm>, told: set<OrderSm>,
                                          sm: OrderSm)
    requires NamedApart(sms) && told <= sms && sm in sms && sm !in told
    requires Reports(results, Names(told))
    ensures Reports(results + [(sm.cloid, ScheduleStatusCheck)], Names(told + {sm}))
  {
    assert Names(told + {sm}) == Names(told) + {sm.cloid};
    ReportsSnoc(results, Names(told), sm.cloid);
  }

  lemma {:induction false} UnseenSnoc(seen: set<u64>, trades: seq<TradeFill>, i: nat)
    requires i < |trades|
    ensures Ids(trades[..i + 1]) == Ids(trades[..i]) + {trades[i].tradeId}
    ensures trades[i].tradeId in seen + Ids(trades[..i]) ==>
              Unseen(seen, trades[..i + 1]) == Unseen(seen, trades[..i])
    ensures trades[i].tradeId !in seen + Ids(trades[..i]) ==>
              Unseen(seen, trades[..i + 1]) == Unseen(seen, trades[..i]) + [trades[i]]
  {
    assert trades[..i + 1][..i] == trades[..i];
  }

  lemma ActionsSnoc(first: seq<SmAction>, actions: seq<SmAction>, action: SmAction)
    ensures first + actions + [action] == first + (actions + [action])
  {
  }

  // The next trade is left out when it was seen, and otherwise one fill more.
  lemma {:induction false} NextUnseen(seen: set<u64>, qty: i64, trades: seq<TradeFill>, i: nat)
    requires i < |trades|
    ensures var trade, ids := trades[i], seen + Ids(trades[..i]);
            var before, after := Fills(Unseen(seen, trades[..i])), Fills(Unseen(seen, trades[..i + 1]));
            && seen + Ids(trades[..i + 1]) == ids + {trade.tradeId}
            && (trade.tradeId in ids ==> ids + {trade.tradeId} == ids && after == before)
            && (trade.tradeId !in ids ==>
                  && AddFills(qty, after) == WrapI64(AddFills(qty, before) + trade.fill.qty)
                  && FillActions(after) == FillActions(before) + [ApplyFill(trade.fill)])
  {
    UnseenSnoc(seen, trades, i);
    OneMoreFill(qty, Unseen(seen, trades[..i]), trades[i]);
  }

  lemma {:induction false} OneMoreFill(qty: i64, kept: seq<TradeFill>, trade: TradeFill)
    ensures AddFills(qty, Fills(kept + [trade])) == WrapI64(AddFills(qty, Fills(kept)) + trade.fill.qty)
    ensures FillActions(Fills(kept + [trade])) == FillActions(Fills(kept)) + [ApplyFill(trade.fill)]
  {
    assert (kept + [trade])[..|kept|] == kept;
    assert Fills(kept + [trade])[..|kept|] == Fills(kept);
  }

  // A reported fill list is applied in two parts: its unseen trades, then what was held.
  lemma {:induction false} ReportedInParts(sm: Sm, exchangeId: u64, trades: seq<TradeFill>, unseen: seq<Fill>)
    requires unseen == Fills(Unseen(sm.seen, trades))
    ensures Resolve(sm, FilledOutcome(exchangeId, trades))
         == Processed(sm.(seen := sm.seen + Ids(trades), status := Filled, buffered := [],
                          filledQty := AddFills(AddFills(sm.filledQty, unseen), sm.buffered)),
                      [ApplyAck(exchangeId)] + FillActions(unseen) + FillActions(sm.buffered))
  {
    FillsConcat(sm.filledQty, unseen, sm.buffered);
    ActionsConcat([ApplyAck(exchangeId)], FillActions(unseen), FillActions(sm.buffered));
  }

  lemma {:induction false} ActionsConcat(a: seq<SmAction>, b: seq<SmAction>, c: seq<SmAction>)
    ensures a + b + c == a + (b + c)
  {
  }

  lemma {:induction false} FillsConcat(qty: i64, a: seq<Fill>, b: seq<Fill>)
    ensures AddFills(qty, a + b) == AddFills(AddFills(qty, a), b)
    ensures FillActions(a + b) == FillActions(a) + FillActions(b)
  {
    if b == [] {
      assert a + b == a;
    } else {
      FillsConcat(qty, a, b[..|b| - 1]);
      assert (a + b)[..|a + b| - 1] == a + b[..|b| - 1];
    }
  }

  // --- The engine ------------------------------------------------------------

  datatype SmError = OrderNotTracked(cloid: Str)

  class StateMachineEngine {
    var orders: map<Str, OrderSm>
    const timeoutNs: i64

    // Each tracked order is its own object, filed under its own id, and none has ended.
    ghost predicate Valid()
      reads this, orders.Values
    {
      && (forall c | c in orders :: orders[c].cloid == c && !orders[c].status.IsTerminal())
      && (forall c, d | c in orders && d in orders && c != d :: orders[c] != orders[d])
    }

    constructor ()
      ensures Valid() && orders == map[] && timeoutNs == DEFAULT_UNKNOWN_TIMEOUT_NS
    {
      orders := map[];
      timeoutNs := DEFAULT_UNKNOWN_TIMEOUT_NS;
    }

    constructor WithTimeoutNs(timeoutNs: i64)
      ensures Valid() && orders == map[] && this.timeoutNs == timeoutNs
    {
      orders := map[];
      this.timeoutNs := timeoutNs;
    }

    method Track(cloid: Str, totalQty: i64, submittedNs: i64)
      requires Valid()
      modifies this
      ensures Valid() && cloid in orders && fresh(orders[cloid])
      ensures orders == old(orders)[cloid := orders[cloid]]
      ensures orders[cloid].View() == Sm(cloid, Pending, totalQty, 0, submittedNs, [], {})
    {
      var sm := new OrderSm(cloid, totalQty, submittedNs);
      orders := orders[cloid := sm];
    }

    method Untrack(cloid: Str)
      requires Valid()
      modifies this
      ensures Valid() && orders == old(orders) - {cloid}
    {
      orders := orders - {cloid};
    }

    // Only the named order moves, by the transition function, and a finished order is dropped.
    method ProcessEvent(cloid: Str, input: SmInput) returns (r: Result<seq<SmAction>, SmError>)
      requires Valid()
      modifies this, if cloid in orders then {orders[cloid]} else {}
      ensures Valid()
      ensures cloid !in old(orders) ==> r == Failure(OrderNotTracked(cloid)) && orders == old(orders)
      ensures cloid in old(orders) ==>
                var sm := old(orders)[cloid];
                && r.Success? && Processed(sm.View(), r.value) == Process(old(orders[cloid].View()), input)
                && orders == if sm.status.IsTerminal() then old(orders) - {cloid} else old(orders)
    {
      if cloid !in orders {
        return Failure(OrderNotTracked(cloid));
      }
      var sm := orders[cloid];
      orders := orders - {cloid};
      var actions := sm.ProcessInput(input);
      if !sm.status.IsTerminal() {
        orders := orders[sm.cloid := sm];
      }
      return Success(actions);
    }

    // The names of the tracked orders past their timeout.
    ghost function Overdue(nowNs: i64): set<Str>
      reads this, orders.Values
    {
      set c | c in orders && TimedOut(orders[c].View(), nowNs, timeoutNs)
    }

    lemma {:induction false} OverdueAreLate(nowNs: i64)
      requires Valid()
      ensures Names(Late(orders.Values, nowNs, timeoutNs)) == Overdue(nowNs)
    {
      forall c | c in Overdue(nowNs)
        ensures c in Names(Late(orders.Values, nowNs, timeoutNs))
      {
        assert orders[c] in Late(orders.Values, nowNs, timeoutNs);
      }
    }

    // Exactly the timed-out orders move to UnknownStatus, and each is reported once.
    method Tick(nowNs: i64) returns (results: seq<(Str, SmAction)>)
      requires Valid()
      modifies orders.Values`status
      ensures Valid() && orders == old(orders)
      ensures forall c | c in orders :: orders[c].View() == Ticked(old(orders[c].View()), nowNs, timeoutNs)
      ensures Reports(results, old(Overdue(nowNs)))
    {
      assert forall sm | sm in orders.Values :: sm.cloid in orders && orders[sm.cloid] == sm;
      OverdueAreLate(nowNs);
      ghost var late;
      results, late := TickAll(orders.Values, nowNs, timeoutNs);
      forall c | c in orders
        ensures orders[c].View() == Ticked(old(orders[c].View()), nowNs, timeoutNs)
      {
        assert orders[c] in late <==> TimedOut(old(orders[c].View()), nowNs, timeoutNs);
      }
    }
  }

  // One of the orders is checked and reported on if it is late; the others stay as they are.
  method TickOne(ghost sms: set<OrderSm>, ghost told: set<OrderSm>, sm: OrderSm, nowNs: i64, timeoutNs: i64,
                 results: seq<(Str, SmAction)>)
    returns (fired: bool, more: seq<(Str, SmAction)>)
    requires NamedApart(sms) && told <= sms && sm in sms && sm !in told && Reports(results, Names(told))
    modifies sm`status
    ensures fired == TimedOut(old(sm.View()), nowNs, timeoutNs)
    ensures forall o | o in sms :: o.status == if o == sm && fired then UnknownStatus else old(o.status)
    ensures Reports(more, Names(told + if fired then {sm} else {}))
  {
    fired := sm.CheckTimeout(nowNs, timeoutNs);
    more := results;
    if fired {
      ReportsOneMore(results, sms, told, sm);
      more := results + [(sm.cloid, ScheduleStatusCheck)];
    } else {
      assert told + {} == told;
    }
  }

  method TickAll(sms: set<OrderSm>, nowNs: i64, timeoutNs: i64)
    returns (results: seq<(Str, SmAction)>, ghost late: set<OrderSm>)
    requires NamedApart(sms)
    modifies sms`status
    ensures late == old(Late(sms, nowNs, timeoutNs))
    ensures forall sm | sm in sms :: sm.status == if sm in late then UnknownStatus else old(sm.status)
    ensures Reports(results, Names(late))
  {
    results := [];
    var todo := sms;
    late := Late(sms, nowNs, timeoutNs);
    ghost var told := {};
    while todo != {}
      modifies sms`status
      invariant todo <= sms && told == late - todo
      invariant forall sm | sm in sms :: sm.status == if sm in told then UnknownStatus else old(sm.status)
      invariant Reports(results, Names(told))
      decreases |todo|
    {
      var sm :| sm in todo;
      assert sm.View() == old(sm.View());
      var fired;
      fired, results := TickOne(sms, told, sm, nowNs, timeoutNs, results);
      assert fired <==> sm in late;
      OneLess(late, todo, sm);
      todo := todo - {sm};
      told := told + if fired then {sm} else {};
    }
    assert told == late;
  }

  lemma {:induction false} OneLess<T>(late: set<T>, todo: set<T>, x: T)
    requires x in todo
    ensures late - (todo - {x}) == (late - todo) + if x in late then {x} else {}
  {
  }
}
