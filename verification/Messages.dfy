/** The normalised messages of connector-core: plain records, all integers fixed-width. */
module Messages {
  import opened Integers
  import opened Utf8

  datatype VenueId = BinanceSpot | BinanceFutures
  datatype MarketType = Spot | UsdmFutures
  datatype FeedState = Connecting | Live | Degraded | StaleFeed | Recovering | RecoveredFeed | Failed
  datatype AggressorSide = UnknownSide | BuySide | SellSide

  datatype BookStaleReason =
    | SequenceGap
    | WebSocketReconnect
    | SnapshotIncompatible
    | StaleTimeout
    | MalformedEvent
    | ExchangeShutdown
    | BboMismatch
    | BufferOverflow

  datatype MessageType =
    | InstrumentDefinitionType
    | TradingStatusType
    | BookSnapshotType
    | BookDeltaType
    | BestBidOfferType
    | TradeType
    | MarkPriceType
    | FundingRateType
    | LiquidationType
    | OpenInterestType
    | AccountUpdateType
    | OrderUpdateType
    | HeartbeatType
    | FeedStatusType
    | GapDetectedType
    | BookStaleType
    | BookRecoveredType
    | BookChecksumType

  datatype PriceLevel = PriceLevel(price: i64, qty: i64)

  datatype BookSnapshot = BookSnapshot(
    symbol: Str,
    priceScale: u8,
    qtyScale: u8,
    updateId: u64,
    bids: seq<PriceLevel>,
    asks: seq<PriceLevel>)

  datatype BookDelta = BookDelta(
    symbol: Str,
    priceScale: u8,
    qtyScale: u8,
    firstUpdateId: u64,
    finalUpdateId: u64,
    prevUpdateId: u64,
    bids: seq<PriceLevel>,
    asks: seq<PriceLevel>)

  datatype WireError =
    | BufferTooShort(needed: nat, have: nat)
    | StringTooLong(len: nat, maxLen: nat)
    | VecTooLong(count: nat, maxCount: nat)
    | InvalidUtf8
    | UnknownVenueId(code: u8)
    | UnknownMarketType(code: u8)
    | UnknownMessageType(code: u8)
    | UnknownFeedState(code: u8)
    | UnknownAggressorSide(code: u8)
    | UnknownBookStaleReason(code: u8)
    | MessageTypeMismatch(got: MessageType, expected: MessageType)
}
