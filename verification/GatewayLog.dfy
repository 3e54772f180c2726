/**
 * What the journal says of one order is what the gateway knows of it: the order's entries, in the
 * order they were written, decide its status, quantities, exchange id and times.
 */
module GatewayLogs {
  import opened ClientOrderIds
  import opened Integers
  import opened Journals
  import opened OrderGateways
  import opened OrderTypes
  import opened Utf8
  import opened Wrappers

  // --- Reports and entries ---------------------------------------------------

  // The entry repeats what the report said.
  predicate Repeats(entry: JournalEntry, report: Report) {
    match report
    case AckReport(exchangeId) => entry.OrderAcknowledged? && entry.exchangeId == exchangeId
    case FillReport(fillQty, fillPrice) =>
      entry.OrderFilled? && entry.fillQty == fillQty && entry.fillPrice == fillPrice
    case CancelReport => entry.OrderCancelled?
    case RejectReport(reason) => entry.OrderRejected? && entry.reason == reason
    case ExpireReport => entry.OrderExpired?
  }

  // A second acknowledgement or cancellation right after the first.
  predicate Duplicates(o: PendingOrder, report: Report) {
    (report.AckReport? && o.status.New?) || (report.CancelReport? && o.status.Cancelled?)
  }

  // The status a report asks for.
  function Target(report: Report): OrderStatus {
    match report
    case AckReport(_) => New
    case FillReport(_, _) => PartiallyFilled
    case CancelReport => Cancelled
    case RejectReport(_) => Rejected
    case ExpireReport => Expired
  }

  // A report is refused exactly by an order that has ended, unless it is a duplicate, and accepted
  // exactly by one that has not; what is journalled then repeats it.
  lemma {:induction false} VerdictIff(o: PendingOrder, report: Report, nowNs: i64)
    ensures var v := Transition(o, report, nowNs);
            && (v.Unchanged? <==> Duplicates(o, report))
            && (v.Accepted? <==> !o.status.IsTerminal() && !Duplicates(o, report))
            && (v.Refused? ==> v.error == InvalidTransition(o.cloid, o.status, Target(report)))
            && (v.Accepted? ==> Repeats(v.entry, report) && v.entry.cloid == o.cloid && v.entry.timestampNs == nowNs)
  {
  }

  // What a report does to the whole gateway: nothing, unless it is accepted; then one entry is added
  // and one order moves.
  lemma {:induction false} ReportOutcomeIff(gw: Gw, cloid: Str, report: Report, nowNs: i64)
    ensures var out := Reported(gw, cloid, report, nowNs);
            && (out.result == Failure(OrderNotFound(cloid)) <==> cloid !in gw.orders)
            && (cloid in gw.orders ==>
                  var o := gw.orders[cloid];
                  && (out.result.Success? <==> !o.status.IsTerminal() || Duplicates(o, report))
                  && (out.gw == gw <==> o.status.IsTerminal() || Duplicates(o, report)))
            && (out.gw != gw ==>
                  && out.gw.log[..|gw.log|] == gw.log && |out.gw.log| == |gw.log| + 1
                  && Repeats(out.gw.log[|gw.log|], report)
                  && out.gw.orders == gw.orders[cloid := out.gw.orders[cloid]])
  {
    if cloid in gw.orders {
      VerdictIff(gw.orders[cloid], report, nowNs);
      assert (gw.log + [OrderCancelled(nowNs, cloid)]) != gw.log;
      var v := Transition(gw.orders[cloid], report, nowNs);
      if v.Accepted? {
        assert |gw.log + [v.entry]| == |gw.log| + 1;
      }
    }
  }

  // --- The entries of one order ----------------------------------------------

  function EntriesOf(log: seq<JournalEntry>, cloid: Str): seq<JournalEntry> {
    if log == [] then []
    else
      var before, last := EntriesOf(log[..|log| - 1], cloid), log[|log| - 1];
      if last.cloid == cloid then before + [last] else before
  }

  function StatusAfter(entry: JournalEntry): OrderStatus {
    match entry
    case OrderRequested(_, _, _) => Pending
    case OrderAcknowledged(_, _, _) => New
    case OrderFilled(_, _, _, _, isFinal) => if isFinal then Filled else PartiallyFilled
    case OrderCancelled(_, _) => Cancelled
    case OrderRejected(_, _, _) => Rejected
    case OrderExpired(_, _) => Expired
  }

  // The exact sum of the fills; the gateway's counter is its low 64 bits.
  function FilledIn(entries: seq<JournalEntry>): int {
    if entries == [] then 0
    else
      FilledIn(entries[..|entries| - 1])
      + if entries[|entries| - 1].OrderFilled? then entries[|entries| - 1].fillQty else 0
  }

  function LastExchangeId(entries: seq<JournalEntry>): Option<u64> {
    if entries == [] then None
    else if entries[|entries| - 1].OrderAcknowledged? then Some(entries[|entries| - 1].exchangeId)
    else LastExchangeId(entries[..|entries| - 1])
  }

  // One request, first; nothing after an end; and each fill is final exactly when it completes the
  // requested quantity.
  predicate Lifecycle(entries: seq<JournalEntry>) {
    && entries != [] && entries[0].OrderRequested?
    && (forall i | 0 < i < |entries| :: !entries[i].OrderRequested?)
    && (forall i | 0 <= i < |entries| - 1 :: !StatusAfter(entries[i]).IsTerminal())
    && (forall i | 0 <= i < |entries| :: FinalWhenComplete(entries, i))
  }

  predicate FinalWhenComplete(entries: seq<JournalEntry>, i: nat)
    requires i < |entries| && entries[0].OrderRequested?
  {
    entries[i].OrderFilled? ==>
      (entries[i].isFinal <==> WrapI64(FilledIn(entries[..i + 1])) >= entries[0].request.qty)
  }

  // The order is as its entries say.
  predicate Tells(entries: seq<JournalEntry>, o: PendingOrder) {
    && Lifecycle(entries)
    && o.request == entries[0].request && o.submittedNs == entries[0].timestampNs
    && o.status == StatusAfter(entries[|entries| - 1]) && o.lastUpdatedNs == entries[|entries| - 1].timestampNs
    && o.filledQty == WrapI64(FilledIn(entries)) && o.exchangeId == LastExchangeId(entries)
  }

  lemma {:induction false} RequestTells(cloid: Str, request: OrderRequest, nowNs: i64)
    ensures Tells([OrderRequested(nowNs, cloid, request)], NewOrder(cloid, request, nowNs))
  {
    var one := [OrderRequested(nowNs, cloid, request)];
    assert one[..0] == [];
    assert FilledIn(one) == 0;
  }

  lemma {:induction false} FilledSnoc(entries: seq<JournalEntry>, last: JournalEntry)
    ensures FilledIn(entries + [last]) == FilledIn(entries) + if last.OrderFilled? then last.fillQty else 0
    ensures LastExchangeId(entries + [last])
         == if last.OrderAcknowledged? then Some(last.exchangeId) else LastExchangeId(entries)
  {
    assert (entries + [last])[..|entries|] == entries;
  }

  lemma {:induction false} SignedSumWraps(total: int, v: i64)
    ensures WrapI64(WrapI64(total) + v) == WrapI64(total + v)
  {
    var k := total / TWO_64;
    assert total == TWO_64 * k + total % TWO_64;
    if total % TWO_64 < 0x8000_0000_0000_0000 {
      ModShift(WrapI64(total) + v, k);
    } else {
      ModShift(WrapI64(total) + v, k + 1);
    }
  }

  lemma {:induction false} LifecycleSnoc(entries: seq<JournalEntry>, last: JournalEntry)
    requires Lifecycle(entries) && !last.OrderRequested? && !StatusAfter(entries[|entries| - 1]).IsTerminal()
    requires last.OrderFilled? ==>
               (last.isFinal <==> WrapI64(FilledIn(entries + [last])) >= entries[0].request.qty)
    ensures Lifecycle(entries + [last])
  {
    var all := entries + [last];
    forall i | 0 <= i < |all|
      ensures FinalWhenComplete(all, i)
    {
      if i < |entries| {
        assert FinalWhenComplete(entries, i) && all[..i + 1] == entries[..i + 1];
      } else {
        assert all[..i + 1] == all;
      }
    }
    assert forall i | 0 <= i < |entries| :: all[i] == entries[i];
  }

  // An accepted report adds its entry, and the order moves as the entries say.
  lemma {:induction false} ReportTells(entries: seq<JournalEntry>, o: PendingOrder, report: Report, nowNs: i64)
    requires Tells(entries, o) && Transition(o, report, nowNs).Accepted?
    ensures var v := Transition(o, report, nowNs); Tells(entries + [v.entry], v.order)
  {
    var v := Transition(o, report, nowNs);
    FilledSnoc(entries, v.entry);
    if report.FillReport? {
      SignedSumWraps(FilledIn(entries), report.fillQty);
    }
    LifecycleSnoc(entries, v.entry);
  }

  // --- Every run -------------------------------------------------------------

  // Of every order the log has the entries, and they tell it; of nothing else.
  ghost predicate AllTold(gw: Gw) {
    && (forall c: Str :: c in gw.orders <==> EntriesOf(gw.log, c) != [])
    && (forall c | c in gw.orders :: Tells(EntriesOf(gw.log, c), gw.orders[c]))
  }

  lemma {:induction false} EntriesSnoc(log: seq<JournalEntry>, entry: JournalEntry, c: Str)
    ensures EntriesOf(log + [entry], c) == EntriesOf(log, c) + if entry.cloid == c then [entry] else []
  {
    assert (log + [entry])[..|log|] == log;
  }

  lemma {:induction false} OneMoreTold(gw: Gw, entry: JournalEntry, order: PendingOrder)
    requires AllTold(gw) && Tells(EntriesOf(gw.log, entry.cloid) + [entry], order)
    ensures AllTold(gw.(log := gw.log + [entry], orders := gw.orders[entry.cloid := order]))
  {
    var after := gw.(log := gw.log + [entry], orders := gw.orders[entry.cloid := order]);
    forall c: Str
      ensures c in after.orders <==> EntriesOf(after.log, c) != []
      ensures c in after.orders ==> Tells(EntriesOf(after.log, c), after.orders[c])
    {
      EntriesSnoc(gw.log, entry, c);
    }
  }

  lemma {:induction false} ReportStaysTold(gw: Gw, n: nat, cloid: Str, report: Report, nowNs: i64)
    requires AllTold(gw) && OwnsItsOrders(gw, n)
    ensures AllTold(Reported(gw, cloid, report, nowNs).gw)
  {
    if cloid in gw.orders && Transition(gw.orders[cloid], report, nowNs).Accepted? {
      var v := Transition(gw.orders[cloid], report, nowNs);
      VerdictIff(gw.orders[cloid], report, nowNs);
      ReportTells(EntriesOf(gw.log, cloid), gw.orders[cloid], report, nowNs);
      OneMoreTold(gw, v.entry, v.order);
    }
  }

  lemma {:induction false} NewIdIsUnknown(gw: Gw, n: nat)
    requires Accounts(gw, n) && n <= U64_MAX
    ensures NextId(gw) !in gw.orders
  {
    WrapBelow(n);
    if NextId(gw) in gw.orders {
      assert IssuedBefore(gw.instanceId, n, NextId(gw));
      var k: u64 :| k < n && NextId(gw) == Generate(gw.instanceId, k);
      GenerateIsInjective(gw.instanceId, gw.counter, gw.instanceId, k);
    }
  }

  lemma {:induction false} EnqueueStaysTold(gw: Gw, n: nat, request: OrderRequest, nowNs: i64)
    requires AllTold(gw) && Accounts(gw, n) && n <= U64_MAX
    ensures AllTold(Enqueued(gw, request, nowNs))
  {
    NewIdIsUnknown(gw, n);
    EnqueuedAsStaysTold(gw, NextId(gw), request, nowNs);
  }

  lemma {:induction false} EnqueuedAsStaysTold(gw: Gw, cloid: Str, request: OrderRequest, nowNs: i64)
    requires AllTold(gw) && cloid !in gw.orders
    ensures AllTold(EnqueuedAs(gw, cloid, request, nowNs))
  {
    var entry, order := OrderRequested(nowNs, cloid, request), NewOrder(cloid, request, nowNs);
    RequestTells(cloid, request, nowNs);
    assert EntriesOf(gw.log, cloid) + [entry] == [entry];
    OneMoreTold(gw, entry, order);
  }

  // Over every run of at most 2^64 enqueues.
  lemma {:induction false} OrdersAreAsJournalled(instanceId: u32, calls: seq<Call>)
    requires RestartsWhole(instanceId, calls) && EnqueueCount(calls) <= U64_MAX + 1
    ensures var r := Run(FreshGateway(instanceId), calls); r.Success? && AllTold(r.value)
  {
    if calls != [] {
      var before, last := calls[..|calls| - 1], calls[|calls| - 1];
      OrdersAreAsJournalled(instanceId, before);
      RunAccounts(instanceId, before);
      var gw, n := Run(FreshGateway(instanceId), before).value, EnqueueCount(before);
      StepAccounts(gw, n, last);
      StepStaysTold(gw, n, last);
    }
  }

  lemma {:induction false} StepStaysTold(gw: Gw, n: nat, call: Call)
    requires AllTold(gw) && Accounts(gw, n) && Accounted(gw, n, call) && (call.EnqueueCall? ==> n <= U64_MAX)
    ensures AllTold(Step(gw, call).value)
  {
    match call
    case EnqueueCall(request, nowNs) =>
      EnqueueStaysTold(gw, n, request, nowNs);
    case ReportCall(cloid, report, nowNs) =>
      ReportStaysTold(gw, n, cloid, report, nowNs);
    case Restart =>
  }
}
