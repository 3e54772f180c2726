/** Orders as the gateway sees them. */
module OrderTypes {
  import opened Integers
  import opened Utf8
  import opened Wrappers

  datatype OrderSide = Buy | Sell
  datatype OrderType = Limit | Market
  datatype TimeInForce = GoodTillCancel | ImmediateOrCancel | FillOrKill

  datatype OrderStatus =
    | Pending
    | New
    | PartiallyFilled
    | Filled
    | Cancelling
    | Cancelled
    | Rejected
    | Expired
  {
    predicate IsTerminal() {
      Filled? || Cancelled? || Rejected? || Expired?
    }
  }

  datatype OrderRequest = OrderRequest(
    symbol: Str,
    side: OrderSide,
    orderType: OrderType,
    qty: i64,
    limitPrice: Option<i64>,
    timeInForce: TimeInForce)

  datatype PendingOrder = PendingOrder(
    cloid: Str,
    request: OrderRequest,
    status: OrderStatus,
    exchangeId: Option<u64>,
    filledQty: i64,
    submittedNs: i64,
    lastUpdatedNs: i64)

  datatype Error =
    | OrderNotFound(cloid: Str)
    | InvalidTransition(invalid: Str, from: OrderStatus, to: OrderStatus)
    | JournalCorrupt(offset: nat)
    | BufferTooShort(needed: nat, have: nat)
}
