/** The fixed 56-byte message header: every field at its own offset, little-endian. */
module WireHeader {
  import opened Integers
  import opened Messages
  import opened Wrappers

  const HEADER_SIZE: nat := 56

  datatype MessageHeader = MessageHeader(
    schemaVersion: u8,
    messageType: MessageType,
    venueId: VenueId,
    marketType: MarketType,
    instrumentId: u32,
    connectionId: u32,
    instanceId: u32,
    sequenceNumber: u64,
    exchangeEventTs: i64,
    exchangeTxTs: i64,
    localRecvTs: i64,
    localPublishTs: i64)

  // --- Enum bytes ------------------------------------------------------------

  function TypeCode(t: MessageType): u8 {
    match t
    case InstrumentDefinitionType => 1
    case TradingStatusType => 2
    case BookSnapshotType => 3
    case BookDeltaType => 4
    case BestBidOfferType => 5
    case TradeType => 6
    case MarkPriceType => 7
    case FundingRateType => 8
    case LiquidationType => 9
    case OpenInterestType => 10
    case AccountUpdateType => 11
    case OrderUpdateType => 12
    case HeartbeatType => 13
    case FeedStatusType => 14
    case GapDetectedType => 15
    case BookStaleType => 16
    case BookRecoveredType => 17
    case BookChecksumType => 18
  }

  function TypeFrom(code: u8): Result<MessageType, WireError> {
    match code
    case 1 => Success(InstrumentDefinitionType)
    case 2 => Success(TradingStatusType)
    case 3 => Success(BookSnapshotType)
    case 4 => Success(BookDeltaType)
    case 5 => Success(BestBidOfferType)
    case 6 => Success(TradeType)
    case 7 => Success(MarkPriceType)
    case 8 => Success(FundingRateType)
    case 9 => Success(LiquidationType)
    case 10 => Success(OpenInterestType)
    case 11 => Success(AccountUpdateType)
    case 12 => Success(OrderUpdateType)
    case 13 => Success(HeartbeatType)
    case 14 => Success(FeedStatusType)
    case 15 => Success(GapDetectedType)
    case 16 => Success(BookStaleType)
    case 17 => Success(BookRecoveredType)
    case 18 => Success(BookChecksumType)
    case _ => Failure(UnknownMessageType(code))
  }

  function VenueCode(venue: VenueId): u8 {
    match venue case BinanceSpot => 1 case BinanceFutures => 2
  }

  function VenueFrom(code: u8): Result<VenueId, WireError> {
    match code
    case 1 => Success(BinanceSpot)
    case 2 => Success(BinanceFutures)
    case _ => Failure(UnknownVenueId(code))
  }

  function MarketCode(market: MarketType): u8 {
    match market case Spot => 1 case UsdmFutures => 2
  }

  function MarketFrom(code: u8): Result<MarketType, WireError> {
    match code
    case 1 => Success(Spot)
    case 2 => Success(UsdmFutures)
    case _ => Failure(UnknownMarketType(code))
  }

  lemma {:induction false} TypeCodeRoundTrip(t: MessageType)
    ensures TypeFrom(TypeCode(t)) == Success(t)
  {
  }

  // --- Layout ----------------------------------------------------------------

  function Codes(h: MessageHeader): seq<u8> {
    [h.schemaVersion, TypeCode(h.messageType), VenueCode(h.venueId), MarketCode(h.marketType)]
  }

  // The twelve fields end to end.
  function HeaderBytes(h: MessageHeader): (bytes: seq<u8>)
    ensures |bytes| == HEADER_SIZE
  {
    Codes(h)
    + (Le(h.instrumentId, 4) + (Le(h.connectionId, 4) + (Le(h.instanceId, 4)
    + (Le(h.sequenceNumber, 8) + (I64Bytes(h.exchangeEventTs) + (I64Bytes(h.exchangeTxTs)
    + (I64Bytes(h.localRecvTs) + I64Bytes(h.localPublishTs))))))))
  }

  function U32At(buf: seq<u8>, at: nat): u32
    requires at + 4 <= |buf|
  {
    Widths();
    FromLe(buf[at..at + 4])
  }

  function U64At(buf: seq<u8>, at: nat): u64
    requires at + 8 <= |buf|
  {
    Widths();
    FromLe(buf[at..at + 8])
  }

  function I64At(buf: seq<u8>, at: nat): i64
    requires at + 8 <= |buf|
  {
    FromBits(U64At(buf, at))
  }

  function HeaderOf(buf: seq<u8>): (r: Result<MessageHeader, WireError>)
    ensures r.Success? ==> |buf| >= HEADER_SIZE
  {
    if |buf| < HEADER_SIZE then Failure(BufferTooShort(HEADER_SIZE, |buf|))
    else
      var messageType :- TypeFrom(buf[1]);
      var venueId :- VenueFrom(buf[2]);
      var marketType :- MarketFrom(buf[3]);
      Success(MessageHeader(buf[0], messageType, venueId, marketType, U32At(buf, 4), U32At(buf, 8), U32At(buf, 12),
                            U64At(buf, 16), I64At(buf, 24), I64At(buf, 32), I64At(buf, 40), I64At(buf, 48)))
  }

  lemma {:induction false} U32Stands(buf: seq<u8>, at: nat, v: u32)
    requires Stands(buf, at, Le(v, 4))
    ensures U32At(buf, at) == v
  {
    Widths();
    LeRoundTrip(v, 4);
  }

  lemma {:induction false} U64Stands(buf: seq<u8>, at: nat, v: u64)
    requires Stands(buf, at, Le(v, 8))
    ensures U64At(buf, at) == v
  {
    Widths();
    LeRoundTrip(v, 8);
  }

  lemma {:induction false} I64Stands(buf: seq<u8>, at: nat, v: i64)
    requires Stands(buf, at, I64Bytes(v))
    ensures I64At(buf, at) == v
  {
    U64Stands(buf, at, ToBits(v));
  }

  lemma {:induction false} CodesStand(buf: seq<u8>, h: MessageHeader)
    requires Stands(buf, 0, Codes(h))
    ensures buf[0] == h.schemaVersion && TypeFrom(buf[1]) == Success(h.messageType)
    ensures VenueFrom(buf[2]) == Success(h.venueId) && MarketFrom(buf[3]) == Success(h.marketType)
  {
    assert forall i | 0 <= i < 4 :: buf[i] == buf[0..4][i];
    TypeCodeRoundTrip(h.messageType);
  }

  lemma {:induction false} IdsStand(buf: seq<u8>, a: u32, b: u32, c: u32, d: u64, rest: seq<u8>)
    requires Stands(buf, 4, Le(a, 4) + (Le(b, 4) + (Le(c, 4) + (Le(d, 8) + rest))))
    ensures U32At(buf, 4) == a && U32At(buf, 8) == b && U32At(buf, 12) == c && U64At(buf, 16) == d
    ensures Stands(buf, 24, rest)
  {
    StandsSplit(buf, 4, Le(a, 4), Le(b, 4) + (Le(c, 4) + (Le(d, 8) + rest)));
    StandsSplit(buf, 8, Le(b, 4), Le(c, 4) + (Le(d, 8) + rest));
    StandsSplit(buf, 12, Le(c, 4), Le(d, 8) + rest);
    StandsSplit(buf, 16, Le(d, 8), rest);
    U32Stands(buf, 4, a);
    U32Stands(buf, 8, b);
    U32Stands(buf, 12, c);
    U64Stands(buf, 16, d);
  }

  lemma {:induction false} TimesStand(buf: seq<u8>, a: i64, b: i64, c: i64, d: i64)
    requires Stands(buf, 24, I64Bytes(a) + (I64Bytes(b) + (I64Bytes(c) + I64Bytes(d))))
    ensures I64At(buf, 24) == a && I64At(buf, 32) == b && I64At(buf, 40) == c && I64At(buf, 48) == d
  {
    StandsSplit(buf, 24, I64Bytes(a), I64Bytes(b) + (I64Bytes(c) + I64Bytes(d)));
    StandsSplit(buf, 32, I64Bytes(b), I64Bytes(c) + I64Bytes(d));
    StandsSplit(buf, 40, I64Bytes(c), I64Bytes(d));
    I64Stands(buf, 24, a);
    I64Stands(buf, 32, b);
    I64Stands(buf, 40, c);
    I64Stands(buf, 48, d);
  }

  // A header is read back from the first 56 bytes, whatever follows.
  lemma {:induction false} HeaderRoundTrip(h: MessageHeader, tail: seq<u8>)
    ensures HeaderOf(HeaderBytes(h) + tail) == Success(h)
  {
    var buf := HeaderBytes(h) + tail;
    var times := I64Bytes(h.exchangeEventTs) + (I64Bytes(h.exchangeTxTs)
                 + (I64Bytes(h.localRecvTs) + I64Bytes(h.localPublishTs)));
    var ids := Le(h.instrumentId, 4) + (Le(h.connectionId, 4) + (Le(h.instanceId, 4)
               + (Le(h.sequenceNumber, 8) + times)));
    assert Stands(buf, 0, Codes(h) + ids);
    StandsSplit(buf, 0, Codes(h), ids);
    CodesStand(buf, h);
    IdsStand(buf, h.instrumentId, h.connectionId, h.instanceId, h.sequenceNumber, times);
    TimesStand(buf, h.exchangeEventTs, h.exchangeTxTs, h.localRecvTs, h.localPublishTs);
  }

  // --- Patching the publish time ---------------------------------------------

  function Patched(buf: seq<u8>, publishTs: i64): seq<u8>
    requires |buf| >= HEADER_SIZE
  {
    buf[..48] + I64Bytes(publishTs) + buf[56..]
  }

  lemma {:induction false} SliceUnpatched(buf: seq<u8>, publishTs: i64, from: nat, to: nat)
    requires |buf| >= HEADER_SIZE && from <= to <= 48
    ensures Patched(buf, publishTs)[from..to] == buf[from..to]
  {
  }

  // Overwriting bytes 48 to 56 of any buffer changes at most the publish time it decodes to.
  lemma {:induction false} PatchedHeader(buf: seq<u8>, publishTs: i64)
    requires |buf| >= HEADER_SIZE
    ensures Patched(buf, publishTs)[56..] == buf[56..]
    ensures HeaderOf(Patched(buf, publishTs))
         == match HeaderOf(buf)
            case Success(h) => Success(h.(localPublishTs := publishTs))
            case Failure(e) => Failure(e)
  {
    var after := Patched(buf, publishTs);
    SliceUnpatched(buf, publishTs, 4, 8);
    SliceUnpatched(buf, publishTs, 8, 12);
    SliceUnpatched(buf, publishTs, 12, 16);
    SliceUnpatched(buf, publishTs, 16, 24);
    SliceUnpatched(buf, publishTs, 24, 32);
    SliceUnpatched(buf, publishTs, 32, 40);
    SliceUnpatched(buf, publishTs, 40, 48);
    assert after[48..56] == I64Bytes(publishTs);
    I64Stands(after, 48, publishTs);
  }
}
