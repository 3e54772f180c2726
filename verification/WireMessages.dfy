/** The normalised messages on the wire: a fixed 56-byte header, then the body's fields in order. */
module WireMessages {
  import opened FieldLists
  import opened Integers
  import opened Messages
  import opened Utf8
  import opened WireCodec
  import opened WireHeader
  import opened Wrappers

  datatype Body =
    | InstrumentDefinition(symbol: Str, baseAsset: Str, quoteAsset: Str, definedPriceScale: u32, definedQtyScale: u32,
                           tickSize: i64, stepSize: i64, minQty: i64, minNotional: i64, contractSize: i64,
                           isTrading: bool)
    | TradingStatus(symbol: Str, isTrading: bool)
    | SnapshotBody(snapshot: BookSnapshot)
    | DeltaBody(delta: BookDelta)
    | BestBidOffer(symbol: Str, priceScale: u8, qtyScale: u8, bidPrice: i64, bidQty: i64, askPrice: i64, askQty: i64,
                   updateId: u64)
    | Trade(symbol: Str, priceScale: u8, qtyScale: u8, tradeId: u64, price: i64, qty: i64, tradeTs: i64,
            isBuyerMaker: bool, side: AggressorSide)
    | MarkPrice(symbol: Str, priceScale: u8, markPrice: i64, indexPrice: i64)
    | FundingRate(symbol: Str, fundingRateScale: u8, fundingRate: i64, nextFundingTime: i64)
    | Liquidation(symbol: Str, priceScale: u8, qtyScale: u8, side: AggressorSide, price: i64, qty: i64, avgPrice: i64,
                  lastFilledQty: i64)
    | OpenInterest(symbol: Str, qtyScale: u8, openInterest: i64)
    | AccountUpdate
    | OrderUpdate
    | Heartbeat
    | FeedStatus(state: FeedState)
    | GapDetected(symbol: Str, expectedUpdateId: u64, receivedUpdateId: u64)
    | BookStale(symbol: Str, reason: BookStaleReason)
    | BookRecovered(symbol: Str, snapshotUpdateId: u64)
    | BookChecksum(symbol: Str, updateId: u64, bidDepth: u32, askDepth: u32, checksum: u64)

  datatype Message = Message(header: MessageHeader, body: Body)

  function TypeOf(body: Body): MessageType {
    match body
    case InstrumentDefinition(_, _, _, _, _, _, _, _, _, _, _) => InstrumentDefinitionType
    case TradingStatus(_, _) => TradingStatusType
    case SnapshotBody(_) => BookSnapshotType
    case DeltaBody(_) => BookDeltaType
    case BestBidOffer(_, _, _, _, _, _, _, _) => BestBidOfferType
    case Trade(_, _, _, _, _, _, _, _, _) => TradeType
    case MarkPrice(_, _, _, _) => MarkPriceType
    case FundingRate(_, _, _, _) => FundingRateType
    case Liquidation(_, _, _, _, _, _, _, _) => LiquidationType
    case OpenInterest(_, _, _) => OpenInterestType
    case AccountUpdate => AccountUpdateType
    case OrderUpdate => OrderUpdateType
    case Heartbeat => HeartbeatType
    case FeedStatus(_) => FeedStatusType
    case GapDetected(_, _, _) => GapDetectedType
    case BookStale(_, _) => BookStaleType
    case BookRecovered(_, _) => BookRecoveredType
    case BookChecksum(_, _, _, _, _) => BookChecksumType
  }

  // --- Layout ----------------------------------------------------------------

  function Layout(t: MessageType): seq<Kind> {
    match t
    case InstrumentDefinitionType =>
      [TextKind, TextKind, TextKind, U32Kind, U32Kind, I64Kind, I64Kind, I64Kind, I64Kind, I64Kind, BoolKind]
    case TradingStatusType => [TextKind, BoolKind]
    case BookSnapshotType => [TextKind, U8Kind, U8Kind, U64Kind, LevelsKind, LevelsKind]
    case BookDeltaType => [TextKind, U8Kind, U8Kind, U64Kind, U64Kind, U64Kind, LevelsKind, LevelsKind]
    case BestBidOfferType => [TextKind, U8Kind, U8Kind, I64Kind, I64Kind, I64Kind, I64Kind, U64Kind]
    case TradeType => [TextKind, U8Kind, U8Kind, U64Kind, I64Kind, I64Kind, I64Kind, BoolKind, SideKind]
    case MarkPriceType => [TextKind, U8Kind, I64Kind, I64Kind]
    case FundingRateType => [TextKind, U8Kind, I64Kind, I64Kind]
    case LiquidationType => [TextKind, U8Kind, U8Kind, SideKind, I64Kind, I64Kind, I64Kind, I64Kind]
    case OpenInterestType => [TextKind, U8Kind, I64Kind]
    case AccountUpdateType => []
    case OrderUpdateType => []
    case HeartbeatType => []
    case FeedStatusType => [StateKind]
    case GapDetectedType => [TextKind, U64Kind, U64Kind]
    case BookStaleType => [TextKind, ReasonKind]
    case BookRecoveredType => [TextKind, U64Kind]
    case BookChecksumType => [TextKind, U64Kind, U32Kind, U32Kind, U64Kind]
  }

  // The put calls of each encoder, in order.
  function Fields(body: Body): seq<Value> {
    match body
    case InstrumentDefinition(symbol, baseAsset, quoteAsset, definedPriceScale, definedQtyScale, tickSize,
                              stepSize, minQty, minNotional, contractSize, isTrading) =>
      [TextValue(symbol), TextValue(baseAsset), TextValue(quoteAsset), U32Value(definedPriceScale),
       U32Value(definedQtyScale), I64Value(tickSize), I64Value(stepSize), I64Value(minQty),
       I64Value(minNotional), I64Value(contractSize), BoolValue(isTrading)]
    case TradingStatus(symbol, isTrading) => [TextValue(symbol), BoolValue(isTrading)]
    case SnapshotBody(s) =>
      [TextValue(s.symbol), U8Value(s.priceScale), U8Value(s.qtyScale), U64Value(s.updateId),
       LevelsValue(s.bids), LevelsValue(s.asks)]
    case DeltaBody(d) =>
      [TextValue(d.symbol), U8Value(d.priceScale), U8Value(d.qtyScale), U64Value(d.firstUpdateId),
       U64Value(d.finalUpdateId), U64Value(d.prevUpdateId), LevelsValue(d.bids), LevelsValue(d.asks)]
    case BestBidOffer(symbol, priceScale, qtyScale, bidPrice, bidQty, askPrice, askQty, updateId) =>
      [TextValue(symbol), U8Value(priceScale), U8Value(qtyScale), I64Value(bidPrice), I64Value(bidQty),
       I64Value(askPrice), I64Value(askQty), U64Value(updateId)]
    case Trade(symbol, priceScale, qtyScale, tradeId, price, qty, tradeTs, isBuyerMaker, side) =>
      [TextValue(symbol), U8Value(priceScale), U8Value(qtyScale), U64Value(tradeId), I64Value(price),
       I64Value(qty), I64Value(tradeTs), BoolValue(isBuyerMaker), SideValue(side)]
    case MarkPrice(symbol, priceScale, markPrice, indexPrice) =>
      [TextValue(symbol), U8Value(priceScale), I64Value(markPrice), I64Value(indexPrice)]
    case FundingRate(symbol, fundingRateScale, fundingRate, nextFundingTime) =>
      [TextValue(symbol), U8Value(fundingRateScale), I64Value(fundingRate), I64Value(nextFundingTime)]
    case Liquidation(symbol, priceScale, qtyScale, side, price, qty, avgPrice, lastFilledQty) =>
      [TextValue(symbol), U8Value(priceScale), U8Value(qtyScale), SideValue(side), I64Value(price),
       I64Value(qty), I64Value(avgPrice), I64Value(lastFilledQty)]
    case OpenInterest(symbol, qtyScale, openInterest) =>
      [TextValue(symbol), U8Value(qtyScale), I64Value(openInterest)]
    case AccountUpdate => []
    case OrderUpdate => []
    case Heartbeat => []
    case FeedStatus(state) => [StateValue(state)]
    case GapDetected(symbol, expectedUpdateId, receivedUpdateId) =>
      [TextValue(symbol), U64Value(expectedUpdateId), U64Value(receivedUpdateId)]
    case BookStale(symbol, reason) => [TextValue(symbol), ReasonValue(reason)]
    case BookRecovered(symbol, snapshotUpdateId) => [TextValue(symbol), U64Value(snapshotUpdateId)]
    case BookChecksum(symbol, updateId, bidDepth, askDepth, checksum) =>
      [TextValue(symbol), U64Value(updateId), U32Value(bidDepth), U32Value(askDepth), U64Value(checksum)]
  }

  // What each decoder makes of the values it reads.
  function BodyOf(t: MessageType, v: seq<Value>): Body
    requires Shaped(KindOf, v, Layout(t))
  {
    match t
    case InstrumentDefinitionType =>
      InstrumentDefinition(v[0].text, v[1].text, v[2].text, v[3].u32, v[4].u32, v[5].i64, v[6].i64, v[7].i64,
                           v[8].i64, v[9].i64, v[10].flag)
    case TradingStatusType => TradingStatus(v[0].text, v[1].flag)
    case BookSnapshotType =>
      SnapshotBody(BookSnapshot(v[0].text, v[1].u8, v[2].u8, v[3].u64, v[4].levels, v[5].levels))
    case BookDeltaType =>
      DeltaBody(BookDelta(v[0].text, v[1].u8, v[2].u8, v[3].u64, v[4].u64, v[5].u64, v[6].levels, v[7].levels))
    case BestBidOfferType =>
      BestBidOffer(v[0].text, v[1].u8, v[2].u8, v[3].i64, v[4].i64, v[5].i64, v[6].i64, v[7].u64)
    case TradeType => Trade(v[0].text, v[1].u8, v[2].u8, v[3].u64, v[4].i64, v[5].i64, v[6].i64, v[7].flag, v[8].side)
    case MarkPriceType => MarkPrice(v[0].text, v[1].u8, v[2].i64, v[3].i64)
    case FundingRateType => FundingRate(v[0].text, v[1].u8, v[2].i64, v[3].i64)
    case LiquidationType =>
      Liquidation(v[0].text, v[1].u8, v[2].u8, v[3].side, v[4].i64, v[5].i64, v[6].i64, v[7].i64)
    case OpenInterestType => OpenInterest(v[0].text, v[1].u8, v[2].i64)
    case AccountUpdateType => AccountUpdate
    case OrderUpdateType => OrderUpdate
    case HeartbeatType => Heartbeat
    case FeedStatusType => FeedStatus(v[0].state)
    case GapDetectedType => GapDetected(v[0].text, v[1].u64, v[2].u64)
    case BookStaleType => BookStale(v[0].text, v[1].reason)
    case BookRecoveredType => BookRecovered(v[0].text, v[1].u64)
    case BookChecksumType => BookChecksum(v[0].text, v[1].u64, v[2].u32, v[3].u32, v[4].u64)
  }

  lemma {:induction false} BookFieldsHaveLayout(body: Body)
    requires body.SnapshotBody? || body.DeltaBody? || body.BestBidOffer? || body.BookChecksum?
    ensures Shaped(KindOf, Fields(body), Layout(TypeOf(body)))
  {
  }

  lemma {:induction false} MarketFieldsHaveLayout(body: Body)
    requires body.Trade? || body.MarkPrice? || body.FundingRate? || body.Liquidation? || body.OpenInterest?
    ensures Shaped(KindOf, Fields(body), Layout(TypeOf(body)))
  {
  }

  lemma {:induction false} FieldsHaveLayout(body: Body)
    ensures Shaped(KindOf, Fields(body), Layout(TypeOf(body)))
  {
    if body.SnapshotBody? || body.DeltaBody? || body.BestBidOffer? || body.BookChecksum? {
      BookFieldsHaveLayout(body);
    } else if body.Trade? || body.MarkPrice? || body.FundingRate? || body.Liquidation? || body.OpenInterest? {
      MarketFieldsHaveLayout(body);
    }
  }

  lemma {:induction false} FieldsGiveBody(body: Body)
    requires Shaped(KindOf, Fields(body), Layout(TypeOf(body)))
    ensures BodyOf(TypeOf(body), Fields(body)) == body
  {
  }

  lemma {:induction false} BodyHasType(t: MessageType, v: seq<Value>)
    requires Shaped(KindOf, v, Layout(t))
    ensures TypeOf(BodyOf(t, v)) == t
  {
  }

  lemma {:induction false} ValuesShaped(kinds: seq<Kind>, buf: seq<u8>, pos: nat)
    ensures var r := GetAll(GetValue, kinds, buf, pos); r.Success? ==> Shaped(KindOf, r.value.0, kinds)
  {
    GetKeepsShape(GetValue, KindOf, kinds, buf, pos);
  }

  // --- Whole messages --------------------------------------------------------

  function BodyBytes(m: Message): seq<u8> {
    BytesOf(Bytes, Fields(m.body))
  }

  function Encoded(m: Message): seq<u8> {
    HeaderBytes(m.header) + BodyBytes(m)
  }

  // No string or level list is too long for its length prefix.
  predicate Encodable(m: Message) {
    All(Fits, Fields(m.body))
  }

  predicate WellTyped(m: Message) {
    m.header.messageType == TypeOf(m.body)
  }

  function DecodeBody(h: MessageHeader, bytes: seq<u8>): Result<Message, WireError> {
    var (values, _) :- GetAll(GetValue, Layout(h.messageType), bytes, 0);
    ValuesShaped(Layout(h.messageType), bytes, 0);
    Success(Message(h, BodyOf(h.messageType, values)))
  }

  function Split(buf: seq<u8>): Result<(MessageHeader, seq<u8>), WireError> {
    var h :- HeaderOf(buf);
    Success((h, buf[HEADER_SIZE..]))
  }

  // The decoder of one message struct: it insists on its own type in the header.
  function DecodeAs(expected: MessageType, buf: seq<u8>): Result<Message, WireError> {
    var (h, rest) :- Split(buf);
    if h.messageType != expected then Failure(MessageTypeMismatch(h.messageType, expected))
    else DecodeBody(h, rest)
  }

  // Checksums travel on the status stream and are refused here.
  function FromBytes(buf: seq<u8>): Result<Message, WireError> {
    var h :- HeaderOf(buf);
    if h.messageType.BookChecksumType? then Failure(UnknownMessageType(TypeCode(BookChecksumType)))
    else DecodeAs(h.messageType, buf)
  }

  lemma {:induction false} SplitsBehindHeader(bytes: seq<u8>, rest: seq<u8>, h: MessageHeader)
    requires |bytes| == HEADER_SIZE && HeaderOf(bytes + rest) == Success(h)
    ensures Split(bytes + rest) == Success((h, rest))
  {
    assert (bytes + rest)[HEADER_SIZE..] == rest;
  }

  lemma {:induction false} ShortDecodesNothing(buf: seq<u8>, t: MessageType)
    requires |buf| < HEADER_SIZE
    ensures Split(buf).Failure? && DecodeAs(t, buf).Failure? && FromBytes(buf).Failure?
  {
  }

  lemma {:induction false} PrefixInParts(bytes: seq<u8>, body: seq<u8>, k: nat)
    requires |bytes| <= k <= |bytes + body|
    ensures (bytes + body)[..k] == bytes + body[..k - |bytes|]
  {
  }

  lemma {:induction false} EncodedSplits(m: Message, tail: seq<u8>)
    ensures Split(Encoded(m) + tail) == Success((m.header, BodyBytes(m) + tail))
  {
    Assoc(HeaderBytes(m.header), BodyBytes(m), tail);
    HeaderRoundTrip(m.header, BodyBytes(m) + tail);
    SplitsBehindHeader(HeaderBytes(m.header), BodyBytes(m) + tail, m.header);
  }

  lemma {:induction false} PrefixSplitsBehindHeader(bytes: seq<u8>, body: seq<u8>, k: nat, h: MessageHeader)
    requires |bytes| == HEADER_SIZE <= k <= |bytes + body|
    requires HeaderOf(bytes + body[..k - HEADER_SIZE]) == Success(h)
    ensures Split((bytes + body)[..k]) == Success((h, body[..k - HEADER_SIZE]))
  {
    PrefixInParts(bytes, body, k);
    SplitsBehindHeader(bytes, body[..k - HEADER_SIZE], h);
  }

  lemma {:induction false} PrefixSplits(m: Message, k: nat)
    requires HEADER_SIZE <= k <= |Encoded(m)|
    ensures Split(Encoded(m)[..k]) == Success((m.header, BodyBytes(m)[..k - HEADER_SIZE]))
  {
    HeaderRoundTrip(m.header, BodyBytes(m)[..k - HEADER_SIZE]);
    PrefixSplitsBehindHeader(HeaderBytes(m.header), BodyBytes(m), k, m.header);
  }

  lemma {:induction false} SplitDecodes(buf: seq<u8>, h: MessageHeader, rest: seq<u8>, t: MessageType)
    requires Split(buf) == Success((h, rest))
    ensures DecodeAs(t, buf)
         == if h.messageType == t then DecodeBody(h, rest) else Failure(MessageTypeMismatch(h.messageType, t))
    ensures FromBytes(buf)
         == if h.messageType.BookChecksumType? then Failure(UnknownMessageType(18)) else DecodeBody(h, rest)
  {
  }

  lemma {:induction false} BodyDecodes(m: Message, tail: seq<u8>)
    requires Encodable(m) && WellTyped(m)
    ensures DecodeBody(m.header, BodyBytes(m) + tail) == Success(m)
  {
    FieldsAreCodec();
    FieldsHaveLayout(m.body);
    FieldsGiveBody(m.body);
    assert Stands(BodyBytes(m) + tail, 0, BodyBytes(m));
    AllReadBack(Bytes, GetValue, KindOf, Fits, Fields(m.body), Layout(m.header.messageType), BodyBytes(m) + tail, 0);
  }

  lemma {:induction false} DecodedIsWellTyped(h: MessageHeader, bytes: seq<u8>)
    ensures var r := DecodeBody(h, bytes); r.Success? ==> WellTyped(r.value)
  {
    var r := GetAll(GetValue, Layout(h.messageType), bytes, 0);
    ValuesShaped(Layout(h.messageType), bytes, 0);
    if r.Success? {
      BodyHasType(h.messageType, r.value.0);
    }
  }

  lemma {:induction false} BodyDecodesIff(m: Message, tail: seq<u8>)
    requires Encodable(m)
    ensures DecodeBody(m.header, BodyBytes(m) + tail) == Success(m) <==> WellTyped(m)
  {
    DecodedIsWellTyped(m.header, BodyBytes(m) + tail);
    if WellTyped(m) {
      BodyDecodes(m, tail);
    }
  }

  // An encoded message is read back, whatever bytes follow it, exactly when its header names its
  // own type and, on the market-data stream, that type is not a checksum.
  lemma {:induction false} DecodesIff(m: Message, tail: seq<u8>)
    requires Encodable(m)
    ensures DecodeAs(TypeOf(m.body), Encoded(m) + tail) == Success(m) <==> WellTyped(m)
    ensures FromBytes(Encoded(m) + tail) == Success(m) <==> WellTyped(m) && !m.body.BookChecksum?
  {
    EncodedSplits(m, tail);
    SplitDecodes(Encoded(m) + tail, m.header, BodyBytes(m) + tail, TypeOf(m.body));
    BodyDecodesIff(m, tail);
    ChecksumHasType(m.body);
  }

  lemma {:induction false} ChecksumHasType(body: Body)
    ensures TypeOf(body).BookChecksumType? <==> body.BookChecksum?
  {
  }

  lemma {:induction false} CutOffBodyFails(m: Message, k: nat)
    requires Encodable(m) && WellTyped(m) && k < |BodyBytes(m)|
    ensures DecodeBody(m.header, BodyBytes(m)[..k]).Failure?
  {
    FieldsAreCodec();
    FieldsHaveLayout(m.body);
    var bytes := BodyBytes(m)[..k];
    assert bytes[0..] == bytes;
    CutOffIsNoticed(Bytes, GetValue, KindOf, Fits, Fields(m.body), Layout(m.header.messageType), bytes, 0);
  }

  lemma {:induction false} BodyFailureFails(buf: seq<u8>, h: MessageHeader, rest: seq<u8>, t: MessageType)
    requires Split(buf) == Success((h, rest)) && DecodeBody(h, rest).Failure?
    ensures DecodeAs(t, buf).Failure? && FromBytes(buf).Failure?
  {
    SplitDecodes(buf, h, rest, t);
  }

  lemma {:induction false} CutBodyDecodesNothing(m: Message, k: nat, t: MessageType)
    requires HEADER_SIZE <= k <= |Encoded(m)|
    requires DecodeBody(m.header, BodyBytes(m)[..k - HEADER_SIZE]).Failure?
    ensures DecodeAs(t, Encoded(m)[..k]).Failure? && FromBytes(Encoded(m)[..k]).Failure?
  {
    PrefixSplits(m, k);
    BodyFailureFails(Encoded(m)[..k], m.header, BodyBytes(m)[..k - HEADER_SIZE], t);
  }

  // No strict prefix of an encoded message decodes, as any type.
  lemma {:induction false} NoPrefixDecodes(m: Message, k: nat, t: MessageType)
    requires Encodable(m) && WellTyped(m) && k < |Encoded(m)|
    ensures DecodeAs(t, Encoded(m)[..k]).Failure? && FromBytes(Encoded(m)[..k]).Failure?
  {
    if k < HEADER_SIZE {
      ShortDecodesNothing(Encoded(m)[..k], t);
    } else {
      CutOffBodyFails(m, k - HEADER_SIZE);
      CutBodyDecodesNothing(m, k, t);
    }
  }

  // So no encoded message begins with the encoding of another.
  lemma {:induction false} EncodingsArePrefixFree(m: Message, n: Message)
    requires Encodable(m) && WellTyped(m) && Encodable(n) && WellTyped(n)
    requires Encoded(m) <= Encoded(n)
    ensures m == n
  {
    var k := |Encoded(m)|;
    assert Encoded(n)[..k] == Encoded(m) == Encoded(m) + [];
    DecodesIff(m, []);
    if k < |Encoded(n)| {
      NoPrefixDecodes(n, k, TypeOf(m.body));
    } else {
      assert Encoded(n) + [] == Encoded(m) + [];
      DecodesIff(n, []);
    }
  }

  function WithPublishTs(m: Message, publishTs: i64): Message {
    m.(header := m.header.(localPublishTs := publishTs))
  }

  // Overwriting bytes 48 to 56 of any buffer, valid or not, changes the outcome of decoding it in
  // the publish time alone.
  lemma {:induction false} PatchChangesPublishTsOnly(buf: seq<u8>, publishTs: i64)
    requires |buf| >= HEADER_SIZE
    ensures FromBytes(Patched(buf, publishTs))
         == match FromBytes(buf)
            case Success(m) => Success(WithPublishTs(m, publishTs))
            case Failure(e) => Failure(e)
  {
    PatchedHeader(buf, publishTs);
  }
}
