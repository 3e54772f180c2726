/**
 * The order gateway: it issues client order ids, journals every lifecycle event and tracks the
 * in-flight orders; opening a journal replays it. The main theorems say exactly when a restart
 * between calls loses nothing, and that a journal torn in the middle of a write is refused or gives
 * back an earlier state.
 */
module OrderGateways {
  import opened ClientOrderIds
  import opened Integers
  import opened Journals
  import opened OrderTypes
  import opened Utf8
  import opened Wrappers

  type Orders = map<Str, PendingOrder>

  // `log` is what the journal's bytes hold, as entries.
  datatype Gw = Gw(instanceId: u32, counter: u64, log: seq<JournalEntry>, orders: Orders)

  // --- Lifecycle of one order ------------------------------------------------

  datatype Report =
    | AckReport(exchangeId: u64)
    | FillReport(fillQty: i64, fillPrice: i64)
    | CancelReport
    | RejectReport(reason: Str)
    | ExpireReport

  datatype Verdict =
    | Refused(error: Error)
    | Unchanged
    | Accepted(order: PendingOrder, entry: JournalEntry)

  function Invalid(o: PendingOrder, to: OrderStatus): Verdict {
    Refused(InvalidTransition(o.cloid, o.status, to))
  }

  function Transition(o: PendingOrder, report: Report, nowNs: i64): Verdict {
    match report
    case AckReport(exchangeId) =>
      if o.status.New? then Unchanged
      else if o.status.IsTerminal() then Invalid(o, New)
      else Accepted(o.(exchangeId := Some(exchangeId), status := New, lastUpdatedNs := nowNs),
                    OrderAcknowledged(nowNs, o.cloid, exchangeId))
    case FillReport(fillQty, fillPrice) =>
      if o.status.IsTerminal() then Invalid(o, PartiallyFilled)
      else
        var filledQty := WrapI64(o.filledQty + fillQty);
        var isFinal := filledQty >= o.request.qty;
        Accepted(o.(filledQty := filledQty, lastUpdatedNs := nowNs,
                    status := if isFinal then Filled else PartiallyFilled),
                 OrderFilled(nowNs, o.cloid, fillQty, fillPrice, isFinal))
    case CancelReport =>
      if o.status.Cancelled? then Unchanged
      else if o.status.IsTerminal() then Invalid(o, Cancelled)
      else Accepted(o.(status := Cancelled, lastUpdatedNs := nowNs), OrderCancelled(nowNs, o.cloid))
    case RejectReport(reason) =>
      if o.status.IsTerminal() then Invalid(o, Rejected)
      else Accepted(o.(status := Rejected, lastUpdatedNs := nowNs), OrderRejected(nowNs, o.cloid, reason))
    case ExpireReport =>
      if o.status.IsTerminal() then Invalid(o, Expired)
      else Accepted(o.(status := Expired, lastUpdatedNs := nowNs), OrderExpired(nowNs, o.cloid))
  }

  // --- The gateway's operations ----------------------------------------------

  datatype Outcome = Outcome(gw: Gw, result: Result<(), Error>)

  function Reported(gw: Gw, cloid: Str, report: Report, nowNs: i64): Outcome {
    if cloid !in gw.orders then Outcome(gw, Failure(OrderNotFound(cloid)))
    else
      match Transition(gw.orders[cloid], report, nowNs)
      case Refused(error) => Outcome(gw, Failure(error))
      case Unchanged => Outcome(gw, Success(()))
      case Accepted(order, entry) =>
        Outcome(gw.(orders := gw.orders[cloid := order], log := gw.log + [entry]), Success(()))
  }

  function NewOrder(cloid: Str, request: OrderRequest, nowNs: i64): PendingOrder {
    PendingOrder(cloid, request, Pending, None, 0, nowNs, nowNs)
  }

  function NextId(gw: Gw): Str {
    GeneratedIsShortAscii(gw.instanceId, gw.counter);
    Generate(gw.instanceId, gw.counter)
  }

  function EnqueuedAs(gw: Gw, cloid: Str, request: OrderRequest, nowNs: i64): Gw {
    gw.(counter := WrapU64(gw.counter + 1),
        log := gw.log + [OrderRequested(nowNs, cloid, request)],
        orders := gw.orders[cloid := NewOrder(cloid, request, nowNs)])
  }

  function Enqueued(gw: Gw, request: OrderRequest, nowNs: i64): Gw {
    EnqueuedAs(gw, NextId(gw), request, nowNs)
  }

  // --- Replay ----------------------------------------------------------------

  function ReplayEntry(orders: Orders, entry: JournalEntry): Orders {
    if entry.OrderRequested? then
      orders[entry.cloid := NewOrder(entry.cloid, entry.request, entry.timestampNs)]
    else if entry.cloid !in orders || orders[entry.cloid].status.IsTerminal() then orders
    else
      var o := orders[entry.cloid].(lastUpdatedNs := entry.timestampNs);
      orders[entry.cloid :=
        match entry
        case OrderRequested(_, _, _) => o
        case OrderAcknowledged(_, _, exchangeId) => o.(status := New, exchangeId := Some(exchangeId))
        case OrderFilled(_, _, fillQty, _, isFinal) =>
          o.(filledQty := WrapI64(o.filledQty + fillQty), status := if isFinal then Filled else PartiallyFilled)
        case OrderCancelled(_, _) => o.(status := Cancelled)
        case OrderRejected(_, _, _) => o.(status := Rejected)
        case OrderExpired(_, _) => o.(status := Expired)]
  }

  function Replayed(entries: seq<JournalEntry>): Orders {
    if entries == [] then map[] else ReplayEntry(Replayed(entries[..|entries| - 1]), entries[|entries| - 1])
  }

  function Larger(max: Option<u64>, counter: Option<u64>): Option<u64> {
    match (max, counter)
    case (_, None) => max
    case (None, _) => counter
    case (Some(m), Some(c)) => Some(if m >= c then m else c)
  }

  function MaxCounter(entries: seq<JournalEntry>): Option<u64> {
    if entries == [] then None
    else
      var max, last := MaxCounter(entries[..|entries| - 1]), entries[|entries| - 1];
      if last.OrderRequested? then Larger(max, ParseCounter(last.cloid)) else max
  }

  function CounterAfter(max: Option<u64>): u64 {
    match max
    case None => 0
    case Some(m) => if m == U64_MAX then U64_MAX else m + 1
  }

  function Opened(instanceId: u32, journal: seq<u8>): Result<Gw, Error> {
    var entries :- DecodeAll(journal);
    Success(Gw(instanceId, CounterAfter(MaxCounter(entries)), entries, Replayed(entries)))
  }

  // --- The gateway object ----------------------------------------------------

  class OrderGateway {
    const instanceId: u32
    var cloidGen: ClientOrderIdGenerator
    const journal: Journal
    var orders: Orders
    ghost var log: seq<JournalEntry>

    ghost predicate Valid()
      reads this, cloidGen, journal
    {
      && cloidGen.instanceId == instanceId
      && journal.bytes == Written(log)
      && forall c | c in orders :: orders[c].cloid == c
    }

    ghost function View(): Gw
      reads this, cloidGen
    {
      Gw(instanceId, cloidGen.counter, log, orders)
    }

    method Append(entry: JournalEntry)
      modifies this`log, journal
      requires journal.bytes == Written(log)
      ensures log == old(log) + [entry] && journal.bytes == Written(log)
    {
      WrittenSnoc(log, entry);
      journal.Append(entry);
      log := log + [entry];
    }

    constructor InMemory(instanceId: u32)
      ensures Valid() && View() == Gw(instanceId, 0, [], map[])
      ensures fresh(cloidGen) && fresh(journal)
    {
      this.instanceId := instanceId;
      cloidGen := new ClientOrderIdGenerator(instanceId);
      journal := new Journal.InMemory();
      orders, log := map[], [];
    }

    // A gateway over an existing journal, before replay.
    constructor OverJournal(instanceId: u32, bytes: seq<u8>)
      ensures this.instanceId == instanceId == cloidGen.instanceId && cloidGen.counter == 0
      ensures journal.bytes == bytes && orders == map[]
      ensures fresh(cloidGen) && fresh(journal)
    {
      this.instanceId := instanceId;
      cloidGen := new ClientOrderIdGenerator(instanceId);
      journal := new Journal.Existing(bytes);
      orders, log := map[], [];
    }

    // The bytes are kept and later entries go after them.
    static method Open(instanceId: u32, bytes: seq<u8>) returns (r: Result<OrderGateway, Error>)
      ensures match Opened(instanceId, bytes)
              case Failure(e) => r == Failure(e)
              case Success(gw) => r.Success? && fresh(r.value) && r.value.View() == gw
                                  && r.value.journal.bytes == bytes
                                  && (bytes == Written(gw.log) ==> r.value.Valid())
    {
      var recovered :- DecodeAllRecords(bytes);
      var gateway := new OrderGateway.OverJournal(instanceId, bytes);
      gateway.ReplayJournal(recovered);
      return Success(gateway);
    }

    method ReplayJournal(entries: seq<JournalEntry>)
      requires orders == map[] && cloidGen.counter == 0 && cloidGen.instanceId == instanceId
      modifies this
      ensures orders == Replayed(entries) && log == entries
      ensures cloidGen.counter == CounterAfter(MaxCounter(entries)) && cloidGen.instanceId == instanceId
      ensures forall c | c in orders :: orders[c].cloid == c
      ensures cloidGen == old(cloidGen) || fresh(cloidGen)
    {
      var maxCounter: Option<u64> := None;
      log := entries;
      for i := 0 to |entries|
        invariant cloidGen == old(cloidGen) && log == entries
        invariant orders == Replayed(entries[..i]) && maxCounter == MaxCounter(entries[..i])
        invariant forall c | c in orders :: orders[c].cloid == c
      {
        assert entries[..i + 1][..i] == entries[..i];
        var entry := entries[i];
        if entry.OrderRequested? {
          maxCounter := Larger(maxCounter, ParseCounter(entry.cloid));
        }
        orders := ReplayEntry(orders, entry);
      }
      assert entries[..|entries|] == entries;
      if maxCounter.Some? {
        cloidGen := new ClientOrderIdGenerator.WithStartAfter(instanceId, maxCounter.value);
      }
    }

    method Enqueue(request: OrderRequest, nowNs: i64) returns (cloid: Str)
      requires Valid()
      modifies this, cloidGen, journal
      ensures Valid() && cloidGen == old(cloidGen)
      ensures cloid == NextId(old(View())) && View() == Enqueued(old(View()), request, nowNs)
    {
      cloid := cloidGen.Next();
      Append(OrderRequested(nowNs, cloid, request));
      orders := orders[cloid := NewOrder(cloid, request, nowNs)];
    }

    method OnAck(cloid: Str, exchangeId: u64, nowNs: i64) returns (r: Result<(), Error>)
      requires Valid()
      modifies this`orders, this`log, journal
      ensures Valid()
      ensures Outcome(View(), r) == Reported(old(View()), cloid, AckReport(exchangeId), nowNs)
    {
      if cloid !in orders {
        return Failure(OrderNotFound(cloid));
      }
      var order := orders[cloid];
      if order.status.New? {
        return Success(());
      }
      if order.status.IsTerminal() {
        return Failure(InvalidTransition(cloid, order.status, New));
      }
      orders := orders[cloid := order.(exchangeId := Some(exchangeId), status := New, lastUpdatedNs := nowNs)];
      Append(OrderAcknowledged(nowNs, cloid, exchangeId));
      return Success(());
    }

    method OnFill(cloid: Str, fillQty: i64, fillPrice: i64, nowNs: i64) returns (r: Result<(), Error>)
      requires Valid()
      modifies this`orders, this`log, journal
      ensures Valid()
      ensures Outcome(View(), r) == Reported(old(View()), cloid, FillReport(fillQty, fillPrice), nowNs)
    {
      if cloid !in orders {
        return Failure(OrderNotFound(cloid));
      }
      var order := orders[cloid];
      if order.status.IsTerminal() {
        return Failure(InvalidTransition(cloid, order.status, PartiallyFilled));
      }
      var filledQty := WrapI64(order.filledQty + fillQty);
      var isFinal := filledQty >= order.request.qty;
      orders := orders[cloid := order.(filledQty := filledQty, lastUpdatedNs := nowNs,
                                       status := if isFinal then Filled else PartiallyFilled)];
      Append(OrderFilled(nowNs, cloid, fillQty, fillPrice, isFinal));
      return Success(());
    }

    method OnCancel(cloid: Str, nowNs: i64) returns (r: Result<(), Error>)
      requires Valid()
      modifies this`orders, this`log, journal
      ensures Valid()
      ensures Outcome(View(), r) == Reported(old(View()), cloid, CancelReport, nowNs)
    {
      if cloid !in orders {
        return Failure(OrderNotFound(cloid));
      }
      var order := orders[cloid];
      if order.status.Cancelled? {
        return Success(());
      }
      if order.status.IsTerminal() {
        return Failure(InvalidTransition(cloid, order.status, Cancelled));
      }
      orders := orders[cloid := order.(status := Cancelled, lastUpdatedNs := nowNs)];
      Append(OrderCancelled(nowNs, cloid));
      return Success(());
    }

    method OnReject(cloid: Str, reason: Str, nowNs: i64) returns (r: Result<(), Error>)
      requires Valid()
      modifies this`orders, this`log, journal
      ensures Valid()
      ensures Outcome(View(), r) == Reported(old(View()), cloid, RejectReport(reason), nowNs)
    {
      if cloid !in orders {
        return Failure(OrderNotFound(cloid));
      }
      var order := orders[cloid];
      if order.status.IsTerminal() {
        return Failure(InvalidTransition(cloid, order.status, Rejected));
      }
      orders := orders[cloid := order.(status := Rejected, lastUpdatedNs := nowNs)];
      Append(OrderRejected(nowNs, cloid, reason));
      return Success(());
    }

    method OnExpire(cloid: Str, nowNs: i64) returns (r: Result<(), Error>)
      requires Valid()
      modifies this`orders, this`log, journal
      ensures Valid()
      ensures Outcome(View(), r) == Reported(old(View()), cloid, ExpireReport, nowNs)
    {
      if cloid !in orders {
        return Failure(OrderNotFound(cloid));
      }
      var order := orders[cloid];
      if order.status.IsTerminal() {
        return Failure(InvalidTransition(cloid, order.status, Expired));
      }
      orders := orders[cloid := order.(status := Expired, lastUpdatedNs := nowNs)];
      Append(OrderExpired(nowNs, cloid));
      return Success(());
    }
  }

  // --- Crash recovery --------------------------------------------------------

  ghost predicate Recoverable(gw: Gw) {
    LogExplains(gw) && OwnsItsOrders(gw, gw.counter)
  }

  // The log accounts for everything the gateway knows.
  predicate LogExplains(gw: Gw) {
    && AllFit(gw.log)
    && gw.orders == Replayed(gw.log)
    && gw.counter == CounterAfter(MaxCounter(gw.log))
  }

  // Orders are filed under their own ids, all of them among the first `issued` of this instance.
  ghost predicate OwnsItsOrders(gw: Gw, issued: nat) {
    forall c | c in gw.orders :: gw.orders[c].cloid == c && IssuedBefore(gw.instanceId, issued, c)
  }

  ghost predicate IssuedBefore(instanceId: u32, issued: nat, cloid: Str) {
    exists k: u64 :: k < issued && cloid == Generate(instanceId, k)
  }

  // Opening the journal of a gateway rebuilds it, every order field for field and the next id to
  // issue, exactly when the log explains the gateway.
  lemma {:induction false} ReopensIff(gw: Gw)
    ensures Opened(gw.instanceId, Written(gw.log)) == Success(gw) <==> LogExplains(gw)
  {
    JournalRoundTripIff(gw.log);
  }

  lemma {:induction false} LogOneMore(log: seq<JournalEntry>, entry: JournalEntry)
    ensures AllFit(log + [entry]) <==> AllFit(log) && Fits(entry)
    ensures Replayed(log + [entry]) == ReplayEntry(Replayed(log), entry)
    ensures MaxCounter(log + [entry])
         == if entry.OrderRequested? then Larger(MaxCounter(log), ParseCounter(entry.cloid)) else MaxCounter(log)
  {
    assert (log + [entry])[..|log|] == log;
  }

  // An id about to be issued is in no order book of this gateway.
  lemma {:induction false} NextIdIsFresh(gw: Gw)
    requires Recoverable(gw)
    ensures NextId(gw) !in gw.orders
  {
    if NextId(gw) in gw.orders {
      assert IssuedBefore(gw.instanceId, gw.counter, NextId(gw));
      var k: u64 :| k < gw.counter && NextId(gw) == Generate(gw.instanceId, k);
      GenerateIsInjective(gw.instanceId, gw.counter, gw.instanceId, k);
    }
  }

  // What a report adds to the log, if anything.
  function Journalled(gw: Gw, cloid: Str, report: Report, nowNs: i64): Option<JournalEntry> {
    if cloid !in gw.orders then None
    else
      var verdict := Transition(gw.orders[cloid], report, nowNs);
      if verdict.Accepted? then Some(verdict.entry) else None
  }

  // The entry written for an accepted report replays to the very order the report produced.
  lemma {:induction false} EntryReplaysToOrder(o: PendingOrder, report: Report, nowNs: i64, orders: Orders)
    requires Transition(o, report, nowNs).Accepted?
    requires o.cloid in orders && orders[o.cloid] == o
    ensures var verdict := Transition(o, report, nowNs);
            && ReplayEntry(orders, verdict.entry) == orders[o.cloid := verdict.order]
            && verdict.order.cloid == o.cloid && !verdict.entry.OrderRequested?
  {
  }

  // --- What the log accounts for ---------------------------------------------

  // The largest counter among the first n issued: the generator wraps, the largest does not.
  function LargestIssued(n: nat): Option<u64> {
    if n == 0 then None else Some(if n <= U64_MAX then n - 1 else U64_MAX)
  }

  // The log replays to the orders, and its largest counter is that of n enqueues.
  ghost predicate Accounts(gw: Gw, n: nat) {
    && gw.orders == Replayed(gw.log) && OwnsItsOrders(gw, n)
    && gw.counter == WrapU64(n) && MaxCounter(gw.log) == LargestIssued(n)
  }

  // The counter a restart computes is the live one: below 2^64 enqueues always, and beyond only
  // when the generator has come round to its last counter again.
  predicate CounterHolds(n: nat) {
    n <= U64_MAX || WrapU64(n) == U64_MAX
  }

  lemma {:induction false} CounterHoldsIff(n: nat)
    ensures WrapU64(n) == CounterAfter(LargestIssued(n)) <==> CounterHolds(n)
  {
    WrapBelow(n);
  }

  lemma {:induction false} AccountedReopensIff(gw: Gw, n: nat)
    requires Accounts(gw, n)
    ensures Opened(gw.instanceId, Written(gw.log)) == Success(gw) <==> AllFit(gw.log) && CounterHolds(n)
  {
    ReopensIff(gw);
    CounterHoldsIff(n);
  }

  lemma {:induction false} CountersMatch(n: nat)
    ensures WrapU64(n) <= n && WrapU64(WrapU64(n) + 1) == WrapU64(n + 1)
    ensures Larger(LargestIssued(n), Some(WrapU64(n))) == LargestIssued(n + 1)
  {
    WrapAtMost(n);
    SumWraps(n, 1);
    LargestGrows(n);
  }

  lemma {:induction false} LargestGrows(n: nat)
    ensures Larger(LargestIssued(n), Some(WrapU64(n))) == LargestIssued(n + 1)
  {
    WrapBelow(n);
  }

  lemma {:induction false} EnqueuedAsOwns(gw: Gw, n: nat, cloid: Str, k: u64, request: OrderRequest, nowNs: i64)
    requires OwnsItsOrders(gw, n) && k <= n && cloid == Generate(gw.instanceId, k)
    ensures OwnsItsOrders(EnqueuedAs(gw, cloid, request, nowNs), n + 1)
  {
    var after := EnqueuedAs(gw, cloid, request, nowNs);
    forall c | c in after.orders
      ensures IssuedBefore(after.instanceId, n + 1, c)
    {
      if c != cloid {
        assert IssuedBefore(gw.instanceId, n, c);
      }
    }
  }

  lemma {:induction false} EnqueuedAsAccounts(gw: Gw, n: nat, cloid: Str, request: OrderRequest, nowNs: i64)
    requires Accounts(gw, n) && cloid == Generate(gw.instanceId, gw.counter)
    requires ParseCounter(cloid) == Some(gw.counter)
    ensures Accounts(EnqueuedAs(gw, cloid, request, nowNs), n + 1)
  {
    LogOneMore(gw.log, OrderRequested(nowNs, cloid, request));
    CountersMatch(n);
    EnqueuedAsOwns(gw, n, cloid, gw.counter, request, nowNs);
  }

  lemma {:induction false} EnqueueAccounts(gw: Gw, n: nat, request: OrderRequest, nowNs: i64)
    requires Accounts(gw, n)
    ensures Accounts(Enqueued(gw, request, nowNs), n + 1)
  {
    ParseInvertsGenerate(gw.instanceId, gw.counter);
    EnqueuedAsAccounts(gw, n, NextId(gw), request, nowNs);
  }

  lemma {:induction false} WrapAtMost(n: nat)
    ensures WrapU64(n) <= n
  {
  }

  // A report writes at most one entry, and the log replays to the order it leaves.
  lemma {:induction false} ReportReplays(gw: Gw, cloid: Str, report: Report, nowNs: i64)
    requires gw.orders == Replayed(gw.log) && (cloid in gw.orders ==> gw.orders[cloid].cloid == cloid)
    ensures var after, entry := Reported(gw, cloid, report, nowNs).gw, Journalled(gw, cloid, report, nowNs);
            && after.instanceId == gw.instanceId && after.counter == gw.counter
            && after.log == (if entry.Some? then gw.log + [entry.value] else gw.log)
            && after.orders == Replayed(after.log) && MaxCounter(after.log) == MaxCounter(gw.log)
            && (AllFit(after.log) <==> AllFit(gw.log) && (entry.Some? ==> Fits(entry.value)))
            && (cloid !in gw.orders ==> after == gw)
            && (cloid in gw.orders ==>
                  && cloid in after.orders && after.orders[cloid].cloid == cloid
                  && after.orders == gw.orders[cloid := after.orders[cloid]])
  {
    var entry := Journalled(gw, cloid, report, nowNs);
    if entry.Some? {
      EntryReplaysToOrder(gw.orders[cloid], report, nowNs, gw.orders);
      LogOneMore(gw.log, entry.value);
    }
  }

  lemma {:induction false} OwnsAfterReport(gw: Gw, n: nat, after: Gw, cloid: Str)
    requires OwnsItsOrders(gw, n) && after.instanceId == gw.instanceId && cloid in gw.orders && cloid in after.orders
    requires after.orders == gw.orders[cloid := after.orders[cloid]] && after.orders[cloid].cloid == cloid
    ensures OwnsItsOrders(after, n)
  {
    forall c | c in after.orders
      ensures IssuedBefore(after.instanceId, n, c)
    {
      assert c in gw.orders && IssuedBefore(gw.instanceId, n, c);
    }
  }

  lemma {:induction false} ReportAccounts(gw: Gw, n: nat, cloid: Str, report: Report, nowNs: i64)
    requires Accounts(gw, n)
    ensures Accounts(Reported(gw, cloid, report, nowNs).gw, n)
  {
    ReportReplays(gw, cloid, report, nowNs);
    if cloid in gw.orders {
      OwnsAfterReport(gw, n, Reported(gw, cloid, report, nowNs).gw, cloid);
    }
  }

  // --- One call --------------------------------------------------------------

  datatype Call =
    | EnqueueCall(request: OrderRequest, enqueuedNs: i64)
    | ReportCall(cloid: Str, report: Report, reportedNs: i64)
    | Restart

  function Step(gw: Gw, call: Call): Result<Gw, Error> {
    match call
    case EnqueueCall(request, nowNs) => Success(Enqueued(gw, request, nowNs))
    case ReportCall(cloid, report, nowNs) => Success(Reported(gw, cloid, report, nowNs).gw)
    case Restart => Opened(gw.instanceId, Written(gw.log))
  }

  // What the call is to journal loses no bits of any length: a symbol of at most 255 bytes, or a
  // report that is refused, changes nothing, or has an entry that fits.
  predicate CallFits(gw: Gw, call: Call) {
    match call
    case EnqueueCall(request, _) => |request.symbol| <= 0xff
    case ReportCall(cloid, report, nowNs) =>
      var entry := Journalled(gw, cloid, report, nowNs);
      entry.Some? ==> Fits(entry.value)
    case Restart => true
  }

  predicate SafeCall(gw: Gw, call: Call) {
    CallFits(gw, call) && (call.EnqueueCall? ==> gw.counter < U64_MAX)
  }

  lemma {:induction false} RequestFitsIff(entry: JournalEntry)
    requires entry.OrderRequested? && |entry.cloid| <= 28
    ensures Fits(entry) <==> |entry.request.symbol| <= 0xff
  {
  }

  // Of the log, that is what a call decides.
  lemma {:induction false} EnqueueFitsIff(gw: Gw, request: OrderRequest, nowNs: i64)
    ensures AllFit(Enqueued(gw, request, nowNs).log) <==> AllFit(gw.log) && |request.symbol| <= 0xff
  {
    var entry := OrderRequested(nowNs, NextId(gw), request);
    GeneratedIsShortAscii(gw.instanceId, gw.counter);
    RequestFitsIff(entry);
    LogOneMore(gw.log, entry);
  }

  // At the last counter the two sides part: the live generator wraps to 0, while the log explains
  // a gateway whose counter stays at the maximum.
  lemma {:induction false} LastCounterIsNotRecovered(gw: Gw, cloid: Str, request: OrderRequest, nowNs: i64)
    requires LogExplains(gw) && gw.counter == U64_MAX && |request.symbol| <= 0xff
    requires |cloid| <= 28 && ParseCounter(cloid) == Some(gw.counter)
    ensures var after := EnqueuedAs(gw, cloid, request, nowNs);
            after.counter == 0 && !LogExplains(after) && LogExplains(after.(counter := U64_MAX))
  {
    RequestFitsIff(OrderRequested(nowNs, cloid, request));
    LogOneMore(gw.log, OrderRequested(nowNs, cloid, request));
    LargestStaysLast(gw.log, cloid);
  }

  lemma {:induction false} LargestStaysLast(log: seq<JournalEntry>, cloid: Str)
    requires ParseCounter(cloid) == Some(U64_MAX)
    ensures CounterAfter(Larger(MaxCounter(log), ParseCounter(cloid))) == U64_MAX
  {
  }

  lemma {:induction false} NextCounterIff(max: Option<u64>)
    ensures var counter := CounterAfter(max);
            CounterAfter(Larger(max, Some(counter))) == WrapU64(counter + 1) <==> counter < U64_MAX
  {
  }

  lemma {:induction false} EnqueuedAsExplainsIff(gw: Gw, cloid: Str, request: OrderRequest, nowNs: i64)
    requires LogExplains(gw) && |cloid| <= 28 && ParseCounter(cloid) == Some(gw.counter)
    ensures LogExplains(EnqueuedAs(gw, cloid, request, nowNs)) <==> gw.counter < U64_MAX && |request.symbol| <= 0xff
  {
    RequestFitsIff(OrderRequested(nowNs, cloid, request));
    LogOneMore(gw.log, OrderRequested(nowNs, cloid, request));
    NextCounterIff(MaxCounter(gw.log));
  }

  // An enqueue leaves a gateway its journal rebuilds exactly when the symbol fits its length prefix
  // and the counter was not the last.
  lemma {:induction false} EnqueueReopensIff(gw: Gw, request: OrderRequest, nowNs: i64)
    requires Recoverable(gw)
    ensures var after := Enqueued(gw, request, nowNs);
            && (Opened(gw.instanceId, Written(after.log)) == Success(after)
                <==> gw.counter < U64_MAX && |request.symbol| <= 0xff)
            && (Recoverable(after) <==> gw.counter < U64_MAX && |request.symbol| <= 0xff)
            && (gw.counter < U64_MAX ==> after.counter == gw.counter + 1)
  {
    var cloid := NextId(gw);
    GeneratedIsShortAscii(gw.instanceId, gw.counter);
    ParseInvertsGenerate(gw.instanceId, gw.counter);
    EnqueuedAsReopensIff(gw, cloid, request, nowNs);
  }

  lemma {:induction false} EnqueuedAsReopensIff(gw: Gw, cloid: Str, request: OrderRequest, nowNs: i64)
    requires Recoverable(gw) && cloid == Generate(gw.instanceId, gw.counter)
    requires |cloid| <= 28 && ParseCounter(cloid) == Some(gw.counter)
    ensures var after := EnqueuedAs(gw, cloid, request, nowNs);
            && (Opened(gw.instanceId, Written(after.log)) == Success(after)
                <==> gw.counter < U64_MAX && |request.symbol| <= 0xff)
            && (Recoverable(after) <==> gw.counter < U64_MAX && |request.symbol| <= 0xff)
            && (gw.counter < U64_MAX ==> after.counter == gw.counter + 1)
  {
    ReopensIff(EnqueuedAs(gw, cloid, request, nowNs));
    EnqueuedAsExplainsIff(gw, cloid, request, nowNs);
    EnqueuedAsOwns(gw, gw.counter, cloid, gw.counter, request, nowNs);
    WrapBelow(gw.counter + 1);
  }

  // A report does exactly when the entry it journals, if any, fits.
  lemma {:induction false} ReportReopensIff(gw: Gw, cloid: Str, report: Report, nowNs: i64)
    requires Recoverable(gw)
    ensures var after, entry := Reported(gw, cloid, report, nowNs).gw, Journalled(gw, cloid, report, nowNs);
            && (Opened(gw.instanceId, Written(after.log)) == Success(after)
                <==> (entry.Some? ==> Fits(entry.value)))
            && (Recoverable(after) <==> (entry.Some? ==> Fits(entry.value)))
  {
    var after := Reported(gw, cloid, report, nowNs).gw;
    ReopensIff(after);
    ReportReplays(gw, cloid, report, nowNs);
    if cloid in gw.orders {
      OwnsAfterReport(gw, gw.counter, after, cloid);
    }
  }

  ghost predicate StepsWell(gw: Gw, call: Call) {
    var r := Step(gw, call);
    && r.Success? && Recoverable(r.value) && r.value.instanceId == gw.instanceId
    && r.value.counter == gw.counter + (if call.EnqueueCall? then 1 else 0)
    && (call.Restart? ==> r.value == gw)
  }

  lemma {:induction false} EnqueueStepsWellIff(gw: Gw, request: OrderRequest, nowNs: i64)
    requires Recoverable(gw)
    ensures var call := EnqueueCall(request, nowNs); StepsWell(gw, call) <==> SafeCall(gw, call)
  {
    EnqueueReopensIff(gw, request, nowNs);
  }

  lemma {:induction false} ReportStepsWellIff(gw: Gw, cloid: Str, report: Report, nowNs: i64)
    requires Recoverable(gw)
    ensures var call := ReportCall(cloid, report, nowNs); StepsWell(gw, call) <==> SafeCall(gw, call)
  {
    ReportReopensIff(gw, cloid, report, nowNs);
    ReportReplays(gw, cloid, report, nowNs);
  }

  // A call keeps a recoverable gateway recoverable exactly when it is safe; a restart changes nothing.
  lemma {:induction false} StepStaysRecoverableIff(gw: Gw, call: Call)
    requires Recoverable(gw)
    ensures StepsWell(gw, call) <==> SafeCall(gw, call)
  {
    match call
    case EnqueueCall(request, nowNs) =>
      EnqueueStepsWellIff(gw, request, nowNs);
    case ReportCall(cloid, report, nowNs) =>
      ReportStepsWellIff(gw, cloid, report, nowNs);
    case Restart =>
      ReopensIff(gw);
  }

  // --- Whole runs, with restarts ---------------------------------------------

  function Run(gw: Gw, calls: seq<Call>): Result<Gw, Error> {
    if calls == [] then Success(gw)
    else
      var before :- Run(gw, calls[..|calls| - 1]);
      Step(before, calls[|calls| - 1])
  }

  function EnqueueCount(calls: seq<Call>): nat {
    if calls == [] then 0
    else EnqueueCount(calls[..|calls| - 1]) + if calls[|calls| - 1].EnqueueCall? then 1 else 0
  }

  function WithoutRestarts(calls: seq<Call>): seq<Call> {
    if calls == [] then []
    else WithoutRestarts(calls[..|calls| - 1]) + if calls[|calls| - 1].Restart? then [] else [calls[|calls| - 1]]
  }

  function FreshGateway(instanceId: u32): Gw {
    Gw(instanceId, 0, [], map[])
  }

  // Every call so far journalled something that fits, and the counter a restart computes is the live one.
  predicate Whole(instanceId: u32, calls: seq<Call>) {
    EachFits(instanceId, calls) && CounterHolds(EnqueueCount(calls))
  }

  predicate EachFits(instanceId: u32, calls: seq<Call>) {
    if calls == [] then true
    else
      var before := calls[..|calls| - 1];
      var at := Run(FreshGateway(instanceId), before);
      EachFits(instanceId, before) && at.Success? && CallFits(at.value, calls[|calls| - 1])
  }

  // Each restart comes at such a moment.
  predicate RestartsWhole(instanceId: u32, calls: seq<Call>) {
    if calls == [] then true
    else
      var before := calls[..|calls| - 1];
      RestartsWhole(instanceId, before) && (calls[|calls| - 1].Restart? ==> Whole(instanceId, before))
  }

  // What a call does to the accounts, to the fit of the log and to the log.
  ghost predicate Accounted(gw: Gw, n: nat, call: Call) {
    var r := Step(gw, call);
    && r.Success? && r.value.instanceId == gw.instanceId
    && Accounts(r.value, n + if call.EnqueueCall? then 1 else 0)
    && (AllFit(r.value.log) <==> AllFit(gw.log) && CallFits(gw, call))
    && (call.Restart? ==> r.value == gw)
    && gw.log <= r.value.log && |r.value.log| <= |gw.log| + 1
  }

  lemma {:induction false} EnqueueIsAccounted(gw: Gw, n: nat, request: OrderRequest, nowNs: i64)
    requires Accounts(gw, n)
    ensures Accounted(gw, n, EnqueueCall(request, nowNs))
  {
    EnqueueAccounts(gw, n, request, nowNs);
    EnqueueFitsIff(gw, request, nowNs);
  }

  lemma {:induction false} ReportLogs(gw: Gw, cloid: Str, report: Report, nowNs: i64)
    ensures var after := Reported(gw, cloid, report, nowNs).gw;
            && after.instanceId == gw.instanceId && gw.log <= after.log && |after.log| <= |gw.log| + 1
            && (AllFit(after.log) <==> AllFit(gw.log) && CallFits(gw, ReportCall(cloid, report, nowNs)))
  {
    var entry := Journalled(gw, cloid, report, nowNs);
    if entry.Some? {
      LogOneMore(gw.log, entry.value);
    }
  }

  lemma {:induction false} ReportIsAccounted(gw: Gw, n: nat, cloid: Str, report: Report, nowNs: i64)
    requires Accounts(gw, n)
    ensures Accounted(gw, n, ReportCall(cloid, report, nowNs))
  {
    ReportAccounts(gw, n, cloid, report, nowNs);
    ReportLogs(gw, cloid, report, nowNs);
    StepIsAccounted(gw, n, ReportCall(cloid, report, nowNs), Reported(gw, cloid, report, nowNs).gw);
  }

  lemma {:induction false} StepIsAccounted(gw: Gw, n: nat, call: Call, after: Gw)
    requires Step(gw, call) == Success(after) && !call.EnqueueCall? && !call.Restart?
    requires after.instanceId == gw.instanceId && Accounts(after, n)
    requires gw.log <= after.log && |after.log| <= |gw.log| + 1
    requires AllFit(after.log) <==> AllFit(gw.log) && CallFits(gw, call)
    ensures Accounted(gw, n, call)
  {
  }

  lemma {:induction false} RestartIsAccounted(gw: Gw, n: nat)
    requires Accounts(gw, n) && AllFit(gw.log) && CounterHolds(n)
    ensures Accounted(gw, n, Restart)
  {
    AccountedReopensIff(gw, n);
    assert Step(gw, Restart) == Success(gw);
  }

  lemma {:induction false} StepAccounts(gw: Gw, n: nat, call: Call)
    requires Accounts(gw, n) && (call.Restart? ==> AllFit(gw.log) && CounterHolds(n))
    ensures Accounted(gw, n, call)
  {
    match call
    case EnqueueCall(request, nowNs) =>
      EnqueueIsAccounted(gw, n, request, nowNs);
    case ReportCall(cloid, report, nowNs) =>
      ReportIsAccounted(gw, n, cloid, report, nowNs);
    case Restart =>
      RestartIsAccounted(gw, n);
  }

  lemma {:induction false} FreshAccounts(instanceId: u32)
    ensures Accounts(FreshGateway(instanceId), 0) && AllFit(FreshGateway(instanceId).log)
  {
  }

  lemma {:induction false} RunAccounts(instanceId: u32, calls: seq<Call>)
    requires RestartsWhole(instanceId, calls)
    ensures var r := Run(FreshGateway(instanceId), calls);
            && r.Success? && r.value.instanceId == instanceId && Accounts(r.value, EnqueueCount(calls))
            && (AllFit(r.value.log) <==> EachFits(instanceId, calls))
  {
    if calls == [] {
      FreshAccounts(instanceId);
    } else {
      var before := calls[..|calls| - 1];
      RunAccounts(instanceId, before);
      var at := Run(FreshGateway(instanceId), before).value;
      StepAccounts(at, EnqueueCount(before), calls[|calls| - 1]);
    }
  }

  // Crash recovery is exact: after any calls, accepted, refused or idempotent, and any restarts at
  // moments as described, opening the journal gives back the very same orders and the same next id
  // exactly when every call journalled something that fits and the counter has not wrapped away.
  lemma {:induction false} CrashRecoveryIsExact(instanceId: u32, calls: seq<Call>)
    requires RestartsWhole(instanceId, calls)
    ensures var r := Run(FreshGateway(instanceId), calls);
            && r.Success? && r.value.instanceId == instanceId && r.value.counter == WrapU64(EnqueueCount(calls))
            && (Opened(instanceId, Written(r.value.log)) == r <==> Whole(instanceId, calls))
            && (Whole(instanceId, calls) && EnqueueCount(calls) <= U64_MAX ==> Recoverable(r.value))
  {
    RunAccounts(instanceId, calls);
    var gw := Run(FreshGateway(instanceId), calls).value;
    AccountedReopensIff(gw, EnqueueCount(calls));
    CounterHoldsIff(EnqueueCount(calls));
    WrapBelow(EnqueueCount(calls));
  }

  // --- Invisible restarts ----------------------------------------------------

  // At every moment of the run the gateway is as if no restart had happened.
  predicate Invisible(instanceId: u32, calls: seq<Call>) {
    if calls == [] then true
    else
      && Invisible(instanceId, calls[..|calls| - 1])
      && Run(FreshGateway(instanceId), calls) == Run(FreshGateway(instanceId), WithoutRestarts(calls))
  }

  lemma {:induction false} LastRestartIsInvisibleIff(instanceId: u32, calls: seq<Call>)
    requires calls != []
    requires var before := calls[..|calls| - 1];
             RestartsWhole(instanceId, before)
             && Run(FreshGateway(instanceId), before) == Run(FreshGateway(instanceId), WithoutRestarts(before))
    ensures Run(FreshGateway(instanceId), calls) == Run(FreshGateway(instanceId), WithoutRestarts(calls))
       <==> RestartsWhole(instanceId, calls)
  {
    var before, last := calls[..|calls| - 1], calls[|calls| - 1];
    var kept := WithoutRestarts(before);
    CrashRecoveryIsExact(instanceId, before);
    if last.Restart? {
      assert WithoutRestarts(calls) == kept + [] == kept;
    } else {
      assert WithoutRestarts(calls)[..|kept|] == kept;
    }
  }

  // Restarts are invisible throughout a run exactly when each of them comes at a whole moment.
  lemma {:induction false} RestartsAreInvisibleIff(instanceId: u32, calls: seq<Call>)
    ensures Invisible(instanceId, calls) <==> RestartsWhole(instanceId, calls)
    ensures Invisible(instanceId, calls) ==>
              Run(FreshGateway(instanceId), calls) == Run(FreshGateway(instanceId), WithoutRestarts(calls))
  {
    if calls != [] {
      var before := calls[..|calls| - 1];
      RestartsAreInvisibleIff(instanceId, before);
      if RestartsWhole(instanceId, before) {
        LastRestartIsInvisibleIff(instanceId, calls);
      }
    }
  }

  // --- Issued ids ------------------------------------------------------------

  // The id handed out by the call at position k of a run.
  function IdIssuedAt(instanceId: u32, calls: seq<Call>, k: nat): Option<Str>
    requires k < |calls|
  {
    var at := Run(FreshGateway(instanceId), calls[..k]);
    if at.Success? && calls[k].EnqueueCall? then Some(NextId(at.value)) else None
  }

  lemma {:induction false} EnqueueCountGrows(calls: seq<Call>, m: nat, n: nat)
    requires m < n <= |calls| && calls[m].EnqueueCall?
    ensures EnqueueCount(calls[..m]) < EnqueueCount(calls[..n])
  {
    assert calls[..n][..n - 1] == calls[..n - 1];
    if m < n - 1 {
      EnqueueCountGrows(calls, m, n - 1);
    }
  }

  lemma {:induction false} PrefixIsWhole(instanceId: u32, calls: seq<Call>, k: nat)
    requires RestartsWhole(instanceId, calls) && k <= |calls|
    ensures RestartsWhole(instanceId, calls[..k]) && EnqueueCount(calls[..k]) <= EnqueueCount(calls)
  {
    if k == |calls| {
      assert calls[..k] == calls;
    } else {
      PrefixIsWhole(instanceId, calls[..|calls| - 1], k);
      assert calls[..|calls| - 1][..k] == calls[..k];
    }
  }

  // Whatever restarts lie between, an enqueue issues the id numbered by the enqueues before it ...
  lemma {:induction false} IdCountsEnqueues(instanceId: u32, calls: seq<Call>, k: nat)
    requires k < |calls| && calls[k].EnqueueCall? && RestartsWhole(instanceId, calls)
    ensures IdIssuedAt(instanceId, calls, k) == Some(Generate(instanceId, WrapU64(EnqueueCount(calls[..k]))))
  {
    PrefixIsWhole(instanceId, calls, k);
    CrashRecoveryIsExact(instanceId, calls[..k]);
  }

  // A multiple of 2^64 apart.
  predicate SameCount(c: nat, d: nat) {
    WrapU64(c) == WrapU64(d)
  }

  // ... so two ids are the same exactly when one instance issued them a multiple of 2^64 enqueues apart ...
  lemma {:induction false} IdsRepeatIff(i: u32, calls: seq<Call>, m: nat, j: u32, others: seq<Call>, n: nat)
    requires m < |calls| && calls[m].EnqueueCall? && n < |others| && others[n].EnqueueCall?
    requires RestartsWhole(i, calls) && RestartsWhole(j, others)
    ensures IdIssuedAt(i, calls, m) == IdIssuedAt(j, others, n)
       <==> i == j && SameCount(EnqueueCount(calls[..m]), EnqueueCount(others[..n]))
  {
    IdCountsEnqueues(i, calls, m);
    IdCountsEnqueues(j, others, n);
    SameIdIff(i, WrapU64(EnqueueCount(calls[..m])), j, WrapU64(EnqueueCount(others[..n])));
  }

  lemma {:induction false} SameIdIff(i: u32, c: u64, j: u32, d: u64)
    ensures Generate(i, c) == Generate(j, d) <==> i == j && c == d
  {
    if Generate(i, c) == Generate(j, d) {
      GenerateIsInjective(i, c, j, d);
    }
  }

  lemma {:induction false} CountsDiffer(instanceId: u32, calls: seq<Call>, m: nat, n: nat)
    requires m < n < |calls| && calls[m].EnqueueCall? && calls[n].EnqueueCall?
    requires RestartsWhole(instanceId, calls) && EnqueueCount(calls) <= U64_MAX + 1
    ensures !SameCount(EnqueueCount(calls[..m]), EnqueueCount(calls[..n]))
  {
    PrefixIsWhole(instanceId, calls, n + 1);
    EnqueueCountGrows(calls, m, n);
    EnqueueCountGrows(calls, n, n + 1);
    WrapBelow(EnqueueCount(calls[..m]));
    WrapBelow(EnqueueCount(calls[..n]));
  }

  // ... and none is issued twice in a run of at most 2^64 enqueues.
  lemma {:induction false} IdsNeverRepeat(instanceId: u32, calls: seq<Call>, m: nat, n: nat)
    requires m < n < |calls| && calls[m].EnqueueCall? && calls[n].EnqueueCall?
    requires RestartsWhole(instanceId, calls) && EnqueueCount(calls) <= U64_MAX + 1
    ensures IdIssuedAt(instanceId, calls, m) != IdIssuedAt(instanceId, calls, n)
  {
    CountsDiffer(instanceId, calls, m, n);
    IdsRepeatIff(instanceId, calls, m, instanceId, calls, n);
  }

  // --- Short calls -----------------------------------------------------------

  // Nothing too long for the journal's length prefixes is handed in.
  predicate Short(call: Call) {
    match call
    case EnqueueCall(request, _) => |request.symbol| <= 0xff
    case ReportCall(_, report, _) => report.RejectReport? ==> |report.reason| <= 0xffff - 31
    case Restart => true
  }

  lemma {:induction false} OwnedIsShort(gw: Gw, n: nat, cloid: Str)
    requires OwnsItsOrders(gw, n) && cloid in gw.orders
    ensures |gw.orders[cloid].cloid| <= 28
  {
    assert IssuedBefore(gw.instanceId, n, cloid);
    var k: u64 :| k < n && cloid == Generate(gw.instanceId, k);
    GeneratedIsShortAscii(gw.instanceId, k);
  }

  lemma {:induction false} ShortReportFits(o: PendingOrder, report: Report, nowNs: i64)
    requires |o.cloid| <= 28 && (report.RejectReport? ==> |report.reason| <= 0xffff - 31)
    requires Transition(o, report, nowNs).Accepted?
    ensures Fits(Transition(o, report, nowNs).entry)
  {
  }

  lemma {:induction false} ShortCallFits(gw: Gw, n: nat, call: Call)
    requires OwnsItsOrders(gw, n) && Short(call)
    ensures CallFits(gw, call)
  {
    if call.ReportCall? && call.cloid in gw.orders {
      OwnedIsShort(gw, n, call.cloid);
      var o := gw.orders[call.cloid];
      if Transition(o, call.report, call.reportedNs).Accepted? {
        ShortReportFits(o, call.report, call.reportedNs);
      }
    }
  }

  // A caller who hands in nothing too long, fewer than 2^64 times, never meets the exception.
  lemma {:induction false} ShortRunsAreWhole(instanceId: u32, calls: seq<Call>)
    requires forall i | 0 <= i < |calls| :: Short(calls[i])
    requires EnqueueCount(calls) <= U64_MAX
    ensures RestartsWhole(instanceId, calls) && Whole(instanceId, calls)
  {
    if calls != [] {
      var before := calls[..|calls| - 1];
      ShortRunsAreWhole(instanceId, before);
      RunAccounts(instanceId, before);
      ShortCallFits(Run(FreshGateway(instanceId), before).value, EnqueueCount(before), calls[|calls| - 1]);
    }
  }

  // --- Torn journals ---------------------------------------------------------

  lemma {:induction false} LastStep(instanceId: u32, calls: seq<Call>, gw: Gw) returns (was: Gw)
    requires RestartsWhole(instanceId, calls)
    requires Run(FreshGateway(instanceId), calls) == Success(gw) && calls != []
    ensures Run(FreshGateway(instanceId), calls[..|calls| - 1]) == Success(was)
    ensures was.log <= gw.log && |gw.log| <= |was.log| + 1
  {
    var before := calls[..|calls| - 1];
    RunAccounts(instanceId, before);
    was := Run(FreshGateway(instanceId), before).value;
    StepAccounts(was, EnqueueCount(before), calls[|calls| - 1]);
  }

  // Every prefix of the log is the log at some earlier point of the run.
  lemma {:induction false} LogWas(instanceId: u32, calls: seq<Call>, gw: Gw, j: nat) returns (m: nat)
    requires RestartsWhole(instanceId, calls)
    requires Run(FreshGateway(instanceId), calls) == Success(gw) && j <= |gw.log|
    ensures m <= |calls|
    ensures var r := Run(FreshGateway(instanceId), calls[..m]); r.Success? && r.value.log == gw.log[..j]
  {
    if j == |gw.log| {
      m := |calls|;
      assert calls[..m] == calls && gw.log[..j] == gw.log;
    } else {
      var before := calls[..|calls| - 1];
      var was := LastStep(instanceId, calls, gw);
      m := LogWas(instanceId, before, was, j);
      assert before[..m] == calls[..m] && was.log[..j] == gw.log[..j];
    }
  }

  // A gateway as a restart after the first m calls leaves it: as it was, with the largest counter
  // journalled deciding the next one.
  predicate AsAfter(r: Result<Gw, Error>, instanceId: u32, calls: seq<Call>, m: nat)
    requires m <= |calls|
  {
    var was := Run(FreshGateway(instanceId), calls[..m]);
    && was.Success?
    && r == Success(was.value.(counter := CounterAfter(LargestIssued(EnqueueCount(calls[..m])))))
    && (CounterHolds(EnqueueCount(calls[..m])) ==> r == was)
  }

  // A crash in the middle of a write leaves a journal cut at any byte. While the entries written so
  // far fit, opening it is refused exactly when the cut is inside a record; otherwise it takes the
  // gateway back to exactly the state it had after some of the run's calls.
  lemma {:induction false} TornJournalGoesBack(instanceId: u32, calls: seq<Call>, gw: Gw, fitting: nat, k: nat)
    requires RestartsWhole(instanceId, calls) && Run(FreshGateway(instanceId), calls) == Success(gw)
    requires fitting <= |gw.log| && AllFit(gw.log[..fitting]) && k <= |Written(gw.log[..fitting])|
    ensures k <= |Written(gw.log)|
    ensures var r := Opened(instanceId, Written(gw.log)[..k]);
            && (r.Success? <==> exists j | 0 <= j <= fitting :: k == |Written(gw.log[..j])|)
            && (r.Success? ==> exists m | 0 <= m <= |calls| :: AsAfter(r, instanceId, calls, m))
  {
    var log := gw.log[..fitting];
    WrittenStarts(gw.log, fitting);
    assert Written(gw.log)[..k] == Written(log)[..k];
    CutJournalDecodes(log, k);
    forall j | 0 <= j <= fitting
      ensures log[..j] == gw.log[..j]
    {
    }
    if j :| 0 <= j <= fitting && k == |Written(gw.log[..j])| {
      var m := LogWas(instanceId, calls, gw, j);
      CutOpens(instanceId, log, k, j);
      OpenedAsAfter(instanceId, calls, m);
    }
  }

  lemma {:induction false} WrittenStarts(log: seq<JournalEntry>, j: nat)
    requires j <= |log|
    ensures Written(log[..j]) <= Written(log)
  {
    if j == |log| {
      assert log[..j] == log;
    } else {
      var front := log[..|log| - 1];
      WrittenStarts(front, j);
      assert front[..j] == log[..j] && log == front + [log[|log| - 1]];
      WrittenSnoc(front, log[|log| - 1]);
    }
  }

  lemma {:induction false} OpenedAsAfter(instanceId: u32, calls: seq<Call>, m: nat)
    requires RestartsWhole(instanceId, calls) && m <= |calls|
    requires var r := Run(FreshGateway(instanceId), calls[..m]); r.Success? ==> AllFit(r.value.log)
    ensures var r := Run(FreshGateway(instanceId), calls[..m]);
            r.Success? && AsAfter(Opened(instanceId, Written(r.value.log)), instanceId, calls, m)
  {
    PrefixIsWhole(instanceId, calls, m);
    RunAccounts(instanceId, calls[..m]);
    JournalRoundTripIff(Run(FreshGateway(instanceId), calls[..m]).value.log);
    CounterHoldsIff(EnqueueCount(calls[..m]));
  }

  // What opening a journal gives depends on its decoded entries alone.
  lemma {:induction false} CutOpens(instanceId: u32, log: seq<JournalEntry>, k: nat, j: nat)
    requires AllFit(log) && j <= |log| && k <= |Written(log)| && k == |Written(log[..j])|
    ensures AllFit(log[..j]) && Opened(instanceId, Written(log)[..k]) == Opened(instanceId, Written(log[..j]))
  {
    CutJournalDecodes(log, k);
    AllFitPrefix(log, j);
    JournalRoundTripIff(log[..j]);
  }

  lemma {:induction false} AllFitPrefix(log: seq<JournalEntry>, j: nat)
    requires AllFit(log) && j <= |log|
    ensures AllFit(log[..j])
  {
    if j == |log| {
      assert log[..j] == log;
    } else {
      AllFitPrefix(log[..|log| - 1], j);
      assert log[..|log| - 1][..j] == log[..j];
    }
  }
}
