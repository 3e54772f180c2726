/**
 * Where everything stands on the wire: the header's offset table, the numbers of the enumerations,
 * and the place of every field of every message, as a reader of the format would list them.
 */
module WireLayouts {
  import opened FieldLists
  import opened Integers
  import opened Messages
  import opened Utf8
  import opened WireCodec
  import opened WireHeader
  import opened WireMessages
  import opened Wrappers

  // --- The header ------------------------------------------------------------

  // The offset table of the header, all integers little-endian.
  lemma {:induction false} HeaderStands(h: MessageHeader)
    ensures var w := HeaderBytes(h);
            && |w| == 56 && w[0] == h.schemaVersion && w[1] == TypeCode(h.messageType)
            && w[2] == VenueCode(h.venueId) && w[3] == MarketCode(h.marketType)
            && Stands(w, 4, Le(h.instrumentId, 4)) && Stands(w, 8, Le(h.connectionId, 4))
            && Stands(w, 12, Le(h.instanceId, 4)) && Stands(w, 16, Le(h.sequenceNumber, 8))
            && Stands(w, 24, I64Bytes(h.exchangeEventTs)) && Stands(w, 32, I64Bytes(h.exchangeTxTs))
            && Stands(w, 40, I64Bytes(h.localRecvTs)) && Stands(w, 48, I64Bytes(h.localPublishTs))
  {
    var times := I64Bytes(h.exchangeEventTs) + (I64Bytes(h.exchangeTxTs)
                 + (I64Bytes(h.localRecvTs) + I64Bytes(h.localPublishTs)));
    var ids := Le(h.instrumentId, 4) + (Le(h.connectionId, 4) + (Le(h.instanceId, 4)
               + (Le(h.sequenceNumber, 8) + times)));
    var w := HeaderBytes(h);
    assert w == Codes(h) + ids && Stands(w, 0, w);
    CodesStand(h, ids);
    StandsSplit(w, 0, Codes(h), ids);
    IdsStand(w, h, times);
    TimesStand(w, h);
  }

  lemma {:induction false} CodesStand(h: MessageHeader, rest: seq<u8>)
    ensures var w := Codes(h) + rest;
            && w[0] == h.schemaVersion && w[1] == TypeCode(h.messageType)
            && w[2] == VenueCode(h.venueId) && w[3] == MarketCode(h.marketType)
  {
  }

  lemma {:induction false} IdsStand(w: seq<u8>, h: MessageHeader, times: seq<u8>)
    requires Stands(w, 4, Le(h.instrumentId, 4) + (Le(h.connectionId, 4) + (Le(h.instanceId, 4)
                          + (Le(h.sequenceNumber, 8) + times))))
    ensures Stands(w, 4, Le(h.instrumentId, 4)) && Stands(w, 8, Le(h.connectionId, 4))
    ensures Stands(w, 12, Le(h.instanceId, 4)) && Stands(w, 16, Le(h.sequenceNumber, 8)) && Stands(w, 24, times)
  {
    var a := Le(h.sequenceNumber, 8) + times;
    var b := Le(h.instanceId, 4) + a;
    var c := Le(h.connectionId, 4) + b;
    StandsSplit(w, 4, Le(h.instrumentId, 4), c);
    StandsSplit(w, 8, Le(h.connectionId, 4), b);
    StandsSplit(w, 12, Le(h.instanceId, 4), a);
    StandsSplit(w, 16, Le(h.sequenceNumber, 8), times);
  }

  lemma {:induction false} TimesStand(w: seq<u8>, h: MessageHeader)
    requires Stands(w, 24, I64Bytes(h.exchangeEventTs) + (I64Bytes(h.exchangeTxTs)
                           + (I64Bytes(h.localRecvTs) + I64Bytes(h.localPublishTs))))
    ensures Stands(w, 24, I64Bytes(h.exchangeEventTs)) && Stands(w, 32, I64Bytes(h.exchangeTxTs))
    ensures Stands(w, 40, I64Bytes(h.localRecvTs)) && Stands(w, 48, I64Bytes(h.localPublishTs))
  {
    var a := I64Bytes(h.localRecvTs) + I64Bytes(h.localPublishTs);
    var b := I64Bytes(h.exchangeTxTs) + a;
    StandsSplit(w, 24, I64Bytes(h.exchangeEventTs), b);
    StandsSplit(w, 32, I64Bytes(h.exchangeTxTs), a);
    StandsSplit(w, 40, I64Bytes(h.localRecvTs), I64Bytes(h.localPublishTs));
  }

  // --- The numbers of the enumerations ---------------------------------------

  // Each code is the number the format gives it, and any other number is refused by name.
  lemma {:induction false} TypesAreNumbered(code: u8)
    ensures TypeFrom(code).Success? <==> 1 <= code <= 18
    ensures TypeFrom(code).Failure? ==> TypeFrom(code).error == UnknownMessageType(code)
    ensures TypeFrom(code).Success? ==> TypeCode(TypeFrom(code).value) == code
    ensures TypeCode(InstrumentDefinitionType) == 1 && TypeCode(TradingStatusType) == 2
    ensures TypeCode(BookSnapshotType) == 3 && TypeCode(BookDeltaType) == 4 && TypeCode(BestBidOfferType) == 5
    ensures TypeCode(TradeType) == 6 && TypeCode(MarkPriceType) == 7 && TypeCode(FundingRateType) == 8
    ensures TypeCode(LiquidationType) == 9 && TypeCode(OpenInterestType) == 10 && TypeCode(AccountUpdateType) == 11
    ensures TypeCode(OrderUpdateType) == 12 && TypeCode(HeartbeatType) == 13 && TypeCode(FeedStatusType) == 14
    ensures TypeCode(GapDetectedType) == 15 && TypeCode(BookStaleType) == 16 && TypeCode(BookRecoveredType) == 17
    ensures TypeCode(BookChecksumType) == 18
  {
  }

  // A header that cannot be read is refused for the first reason in this order.
  lemma {:induction false} HeaderFailsIff(buf: seq<u8>)
    ensures var r := HeaderOf(buf);
            if |buf| < 56 then r == Failure(BufferTooShort(56, |buf|))
            else if buf[1] < 1 || buf[1] > 18 then r == Failure(UnknownMessageType(buf[1]))
            else if buf[2] < 1 || buf[2] > 2 then r == Failure(UnknownVenueId(buf[2]))
            else if buf[3] < 1 || buf[3] > 2 then r == Failure(UnknownMarketType(buf[3]))
            else r.Success?
  {
    if |buf| >= 56 {
      TypesAreNumbered(buf[1]);
      PlacesAreNumbered(buf[2]);
      PlacesAreNumbered(buf[3]);
    }
  }

  // And each message carries its own.
  lemma {:induction false} BodiesAreNumbered(b: Body)
    ensures var code := TypeCode(TypeOf(b));
            && (b.InstrumentDefinition? <==> code == 1) && (b.TradingStatus? <==> code == 2)
            && (b.SnapshotBody? <==> code == 3) && (b.DeltaBody? <==> code == 4) && (b.BestBidOffer? <==> code == 5)
            && (b.Trade? <==> code == 6) && (b.MarkPrice? <==> code == 7) && (b.FundingRate? <==> code == 8)
            && (b.Liquidation? <==> code == 9) && (b.OpenInterest? <==> code == 10)
            && (b.AccountUpdate? <==> code == 11) && (b.OrderUpdate? <==> code == 12) && (b.Heartbeat? <==> code == 13)
            && (b.FeedStatus? <==> code == 14) && (b.GapDetected? <==> code == 15) && (b.BookStale? <==> code == 16)
            && (b.BookRecovered? <==> code == 17) && (b.BookChecksum? <==> code == 18)
  {
  }

  lemma {:induction false} PlacesAreNumbered(code: u8)
    ensures VenueFrom(code).Success? <==> 1 <= code <= 2
    ensures VenueCode(BinanceSpot) == 1 && VenueCode(BinanceFutures) == 2
    ensures VenueFrom(code).Success? ==> VenueCode(VenueFrom(code).value) == code
    ensures MarketFrom(code).Success? <==> 1 <= code <= 2
    ensures MarketCode(Spot) == 1 && MarketCode(UsdmFutures) == 2
    ensures MarketFrom(code).Success? ==> MarketCode(MarketFrom(code).value) == code
    ensures VenueFrom(code).Failure? ==> VenueFrom(code).error == UnknownVenueId(code)
    ensures MarketFrom(code).Failure? ==> MarketFrom(code).error == UnknownMarketType(code)
  {
  }

  lemma {:induction false} StatesAreNumbered(code: u8)
    ensures SideFrom(code).Success? <==> code <= 2
    ensures SideCode(UnknownSide) == 0 && SideCode(BuySide) == 1 && SideCode(SellSide) == 2
    ensures SideFrom(code).Success? ==> SideCode(SideFrom(code).value) == code
    ensures StateFrom(code).Success? <==> 1 <= code <= 7
    ensures StateCode(Connecting) == 1 && StateCode(Live) == 2 && StateCode(Degraded) == 3 && StateCode(StaleFeed) == 4
    ensures StateCode(Recovering) == 5 && StateCode(RecoveredFeed) == 6 && StateCode(Failed) == 7
    ensures StateFrom(code).Success? ==> StateCode(StateFrom(code).value) == code
    ensures SideFrom(code).Failure? ==> SideFrom(code).error == UnknownAggressorSide(code)
    ensures StateFrom(code).Failure? ==> StateFrom(code).error == UnknownFeedState(code)
  {
  }

  lemma {:induction false} ReasonsAreNumbered(code: u8)
    ensures ReasonFrom(code).Success? <==> 1 <= code <= 8
    ensures ReasonCode(SequenceGap) == 1 && ReasonCode(WebSocketReconnect) == 2 && ReasonCode(SnapshotIncompatible) == 3
    ensures ReasonCode(StaleTimeout) == 4 && ReasonCode(MalformedEvent) == 5 && ReasonCode(ExchangeShutdown) == 6
    ensures ReasonCode(BboMismatch) == 7 && ReasonCode(BufferOverflow) == 8
    ensures ReasonFrom(code).Success? ==> ReasonCode(ReasonFrom(code).value) == code
    ensures ReasonFrom(code).Failure? ==> ReasonFrom(code).error == UnknownBookStaleReason(code)
  {
  }

  // --- The bodies ------------------------------------------------------------

  // A string behind its length, a level list behind its count.
  function Text(s: Str): seq<u8> {
    Le(|s|, 2) + s
  }

  function Levels(levels: seq<PriceLevel>): seq<u8> {
    Le(|levels|, 4) + LevelsBytes(levels)
  }

  function OffsetOf(fields: seq<Value>, i: nat): nat
    requires i <= |fields|
  {
    if i == 0 then 0 else OffsetOf(fields, i - 1) + |Bytes(fields[i - 1])|
  }

  lemma {:induction false} LengthIs(fields: seq<Value>, n: nat)
    requires n == |fields|
    ensures |BytesOf(Bytes, fields)| == OffsetOf(fields, n)
  {
    if n > 0 {
      LengthIs(fields[..n - 1], n - 1);
      OffsetOfFront(fields, n - 1);
    }
  }

  lemma {:induction false} OffsetOfFront(fields: seq<Value>, i: nat)
    requires i < |fields|
    ensures OffsetOf(fields[..|fields| - 1], i) == OffsetOf(fields, i)
  {
    if i > 0 {
      OffsetOfFront(fields, i - 1);
    }
  }

  // Every field stands where those before it end.
  lemma {:induction false} FieldAt(fields: seq<Value>, i: nat)
    requires i < |fields|
    ensures Stands(BytesOf(Bytes, fields), OffsetOf(fields, i), Bytes(fields[i]))
  {
    var front, last := fields[..|fields| - 1], fields[|fields| - 1];
    OffsetOfFront(fields, i);
    if i < |front| {
      FieldAt(front, i);
      StandsInFront(BytesOf(Bytes, front), Bytes(last), OffsetOf(fields, i), Bytes(front[i]));
    } else {
      LengthIs(front, i);
      StandsAtEnd(BytesOf(Bytes, front), Bytes(last));
    }
  }

  lemma {:induction false} StandsAtEnd(front: seq<u8>, part: seq<u8>)
    ensures Stands(front + part, |front|, part)
  {
  }

  // The field at a known place, and where the next one begins.
  predicate Begins(fields: seq<Value>, i: nat, pos: nat)
    requires i <= |fields|
  {
    OffsetOf(fields, i) == pos
  }

  lemma {:induction false} FirstField(fields: seq<Value>)
    requires fields != []
    ensures Stands(BytesOf(Bytes, fields), 0, Bytes(fields[0])) && Begins(fields, 1, |Bytes(fields[0])|)
  {
    FieldAt(fields, 0);
    assert OffsetOf(fields, 0) == 0;
  }

  lemma {:induction false} NextField(fields: seq<Value>, i: nat, pos: nat)
    requires i < |fields| && Begins(fields, i, pos)
    ensures Stands(BytesOf(Bytes, fields), pos, Bytes(fields[i])) && Begins(fields, i + 1, pos + |Bytes(fields[i])|)
  {
    FieldAt(fields, i);
  }

  lemma {:induction false} LastField(fields: seq<Value>, pos: nat)
    requires Begins(fields, |fields|, pos)
    ensures |BytesOf(Bytes, fields)| == pos
  {
    LengthIs(fields, |fields|);
  }

  lemma {:induction false} InstrumentTextsStand(b: Body, p: nat, q: nat, r: nat)
    requires b.InstrumentDefinition?
    requires p == 2 + |b.symbol| && q == p + 2 + |b.baseAsset| && r == q + 2 + |b.quoteAsset|
    ensures var w := BytesOf(Bytes, Fields(b));
            && Stands(w, 0, Text(b.symbol)) && Stands(w, p, Text(b.baseAsset)) && Stands(w, q, Text(b.quoteAsset))
            && Begins(Fields(b), 3, r)
  {
    FirstField(Fields(b));
    NextField(Fields(b), 1, p);
    NextField(Fields(b), 2, q);
  }

  lemma {:induction false} InstrumentScalesStand(b: Body, r: nat)
    requires b.InstrumentDefinition? && Begins(Fields(b), 3, r)
    ensures var w := BytesOf(Bytes, Fields(b));
            Stands(w, r, Le(b.definedPriceScale, 4)) && Stands(w, r + 4, Le(b.definedQtyScale, 4))
    ensures Begins(Fields(b), 5, r + 8)
  {
    NextField(Fields(b), 3, r);
    NextField(Fields(b), 4, r + 4);
  }

  lemma {:induction false} InstrumentSizesStand(b: Body, r: nat)
    requires b.InstrumentDefinition? && Begins(Fields(b), 5, r + 8)
    ensures var w := BytesOf(Bytes, Fields(b));
            Stands(w, r + 8, I64Bytes(b.tickSize)) && Stands(w, r + 16, I64Bytes(b.stepSize))
    ensures Begins(Fields(b), 7, r + 24)
  {
    NextField(Fields(b), 5, r + 8);
    NextField(Fields(b), 6, r + 16);
  }

  lemma {:induction false} InstrumentLimitsStand(b: Body, r: nat)
    requires b.InstrumentDefinition? && Begins(Fields(b), 7, r + 24)
    ensures var w := BytesOf(Bytes, Fields(b));
            && |w| == r + 49 && Stands(w, r + 24, I64Bytes(b.minQty)) && Stands(w, r + 32, I64Bytes(b.minNotional))
            && Stands(w, r + 40, I64Bytes(b.contractSize)) && Stands(w, r + 48, [if b.isTrading then 1 else 0])
  {
    NextField(Fields(b), 7, r + 24);
    NextField(Fields(b), 8, r + 32);
    NextField(Fields(b), 9, r + 40);
    NextField(Fields(b), 10, r + 48);
    LastField(Fields(b), r + 49);
  }

  lemma {:induction false} InstrumentDefinitionStands(b: Body)
    requires b.InstrumentDefinition?
    ensures var w := BytesOf(Bytes, Fields(b));
            var p := 2 + |b.symbol|;
            var q := p + 2 + |b.baseAsset|;
            var r := q + 2 + |b.quoteAsset|;
            && |w| == r + 49
            && Stands(w, 0, Text(b.symbol)) && Stands(w, p, Text(b.baseAsset)) && Stands(w, q, Text(b.quoteAsset))
            && Stands(w, r, Le(b.definedPriceScale, 4)) && Stands(w, r + 4, Le(b.definedQtyScale, 4))
            && Stands(w, r + 8, I64Bytes(b.tickSize)) && Stands(w, r + 16, I64Bytes(b.stepSize))
            && Stands(w, r + 24, I64Bytes(b.minQty)) && Stands(w, r + 32, I64Bytes(b.minNotional))
            && Stands(w, r + 40, I64Bytes(b.contractSize)) && Stands(w, r + 48, [if b.isTrading then 1 else 0])
  {
    var p := 2 + |b.symbol|;
    var q := p + 2 + |b.baseAsset|;
    var r := q + 2 + |b.quoteAsset|;
    InstrumentTextsStand(b, p, q, r);
    InstrumentScalesStand(b, r);
    InstrumentSizesStand(b, r);
    InstrumentLimitsStand(b, r);
  }

  lemma {:induction false} TextAndScalesStand(f: seq<Value>, s: Str, a: u8, b: u8, p: nat)
    requires |f| >= 3 && f[0] == TextValue(s) && f[1] == U8Value(a) && f[2] == U8Value(b) && p == 2 + |s|
    ensures var w := BytesOf(Bytes, f); Stands(w, 0, Text(s)) && Stands(w, p, [a]) && Stands(w, p + 1, [b])
    ensures Begins(f, 3, p + 2)
  {
    FirstField(f);
    NextField(f, 1, p);
    NextField(f, 2, p + 1);
  }

  lemma {:induction false} IdStandsAt(f: seq<Value>, i: nat, pos: nat, id: u64)
    requires i < |f| && Begins(f, i, pos) && f[i] == U64Value(id)
    ensures Stands(BytesOf(Bytes, f), pos, Le(id, 8)) && Begins(f, i + 1, pos + 8)
  {
    NextField(f, i, pos);
  }

  lemma {:induction false} TwoListsStand(f: seq<Value>, i: nat, pos: nat, a: seq<PriceLevel>, b: seq<PriceLevel>)
    requires i + 2 == |f| && Begins(f, i, pos) && f[i] == LevelsValue(a) && f[i + 1] == LevelsValue(b)
    ensures var w, q := BytesOf(Bytes, f), pos + 4 + 16 * |a|;
            Stands(w, pos, Levels(a)) && Stands(w, q, Levels(b)) && |w| == q + 4 + 16 * |b|
  {
    var q := pos + 4 + 16 * |a|;
    LevelsLength(a);
    LevelsLength(b);
    NextField(f, i, pos);
    NextField(f, i + 1, q);
    LastField(f, q + 4 + 16 * |b|);
  }

  lemma {:induction false} OthersAreEmpty(b: Body)
    requires b.AccountUpdate? || b.OrderUpdate? || b.Heartbeat?
    ensures BytesOf(Bytes, Fields(b)) == []
  {
  }

  lemma {:induction false} TradingStatusStands(b: Body)
    requires b.TradingStatus?
    ensures var w := BytesOf(Bytes, Fields(b));
            var p := 2 + |b.symbol|;
            && |w| == p + 1
            && Stands(w, 0, Text(b.symbol))
            && Stands(w, p, [if b.isTrading then 1 else 0])
  {
    var fields := Fields(b);
    var p := 2 + |b.symbol|;
    FirstField(fields);
    NextField(fields, 1, p);
    LastField(fields, p + 1);
  }

  lemma {:induction false} SnapshotStands(x: BookSnapshot)
    ensures var w := BytesOf(Bytes, Fields(SnapshotBody(x)));
            var p := 2 + |x.symbol|;
            var q := p + 10 + 4 + 16 * |x.bids|;
            var r := q + 4 + 16 * |x.asks|;
            && |w| == r
            && Stands(w, 0, Text(x.symbol))
            && Stands(w, p, [x.priceScale])
            && Stands(w, p + 1, [x.qtyScale])
            && Stands(w, p + 2, Le(x.updateId, 8))
            && Stands(w, p + 10, Levels(x.bids))
            && Stands(w, q, Levels(x.asks))
  {
    var f := Fields(SnapshotBody(x));
    var p := 2 + |x.symbol|;
    TextAndScalesStand(f, x.symbol, x.priceScale, x.qtyScale, p);
    IdStandsAt(f, 3, p + 2, x.updateId);
    TwoListsStand(f, 4, p + 10, x.bids, x.asks);
  }

  lemma {:induction false} DeltaHeadStands(d: BookDelta)
    ensures var w := BytesOf(Bytes, Fields(DeltaBody(d)));
            var p := 2 + |d.symbol|;
            && Stands(w, 0, Text(d.symbol)) && Stands(w, p, [d.priceScale]) && Stands(w, p + 1, [d.qtyScale])
            && Stands(w, p + 2, Le(d.firstUpdateId, 8)) && Stands(w, p + 10, Le(d.finalUpdateId, 8))
            && Stands(w, p + 18, Le(d.prevUpdateId, 8)) && Begins(Fields(DeltaBody(d)), 6, p + 26)
  {
    var f := Fields(DeltaBody(d));
    var p := 2 + |d.symbol|;
    TextAndScalesStand(f, d.symbol, d.priceScale, d.qtyScale, p);
    IdStandsAt(f, 3, p + 2, d.firstUpdateId);
    IdStandsAt(f, 4, p + 10, d.finalUpdateId);
    IdStandsAt(f, 5, p + 18, d.prevUpdateId);
  }

  lemma {:induction false} DeltaStands(d: BookDelta)
    ensures var w := BytesOf(Bytes, Fields(DeltaBody(d)));
            var p := 2 + |d.symbol|;
            var q := p + 26 + 4 + 16 * |d.bids|;
            var r := q + 4 + 16 * |d.asks|;
            && |w| == r
            && Stands(w, 0, Text(d.symbol))
            && Stands(w, p, [d.priceScale])
            && Stands(w, p + 1, [d.qtyScale])
            && Stands(w, p + 2, Le(d.firstUpdateId, 8))
            && Stands(w, p + 10, Le(d.finalUpdateId, 8))
            && Stands(w, p + 18, Le(d.prevUpdateId, 8))
            && Stands(w, p + 26, Levels(d.bids))
            && Stands(w, q, Levels(d.asks))
  {
    DeltaHeadStands(d);
    TwoListsStand(Fields(DeltaBody(d)), 6, 2 + |d.symbol| + 26, d.bids, d.asks);
  }

  lemma {:induction false} BestBidOfferStands(b: Body)
    requires b.BestBidOffer?
    ensures var w := BytesOf(Bytes, Fields(b));
            var p := 2 + |b.symbol|;
            && |w| == p + 42
            && Stands(w, 0, Text(b.symbol))
            && Stands(w, p, [b.priceScale])
            && Stands(w, p + 1, [b.qtyScale])
            && Stands(w, p + 2, I64Bytes(b.bidPrice))
            && Stands(w, p + 10, I64Bytes(b.bidQty))
            && Stands(w, p + 18, I64Bytes(b.askPrice))
            && Stands(w, p + 26, I64Bytes(b.askQty))
            && Stands(w, p + 34, Le(b.updateId, 8))
  {
    var fields := Fields(b);
    var p := 2 + |b.symbol|;
    FirstField(fields);
    NextField(fields, 1, p);
    NextField(fields, 2, p + 1);
    NextField(fields, 3, p + 2);
    NextField(fields, 4, p + 10);
    NextField(fields, 5, p + 18);
    NextField(fields, 6, p + 26);
    NextField(fields, 7, p + 34);
    LastField(fields, p + 42);
  }

  lemma {:induction false} TradeStands(b: Body)
    requires b.Trade?
    ensures var w := BytesOf(Bytes, Fields(b));
            var p := 2 + |b.symbol|;
            && |w| == p + 36
            && Stands(w, 0, Text(b.symbol))
            && Stands(w, p, [b.priceScale])
            && Stands(w, p + 1, [b.qtyScale])
            && Stands(w, p + 2, Le(b.tradeId, 8))
            && Stands(w, p + 10, I64Bytes(b.price))
            && Stands(w, p + 18, I64Bytes(b.qty))
            && Stands(w, p + 26, I64Bytes(b.tradeTs))
            && Stands(w, p + 34, [if b.isBuyerMaker then 1 else 0])
            && Stands(w, p + 35, [SideCode(b.side)])
  {
    var fields := Fields(b);
    var p := 2 + |b.symbol|;
    FirstField(fields);
    NextField(fields, 1, p);
    NextField(fields, 2, p + 1);
    NextField(fields, 3, p + 2);
    NextField(fields, 4, p + 10);
    NextField(fields, 5, p + 18);
    NextField(fields, 6, p + 26);
    NextField(fields, 7, p + 34);
    NextField(fields, 8, p + 35);
    LastField(fields, p + 36);
  }

  lemma {:induction false} MarkPriceStands(b: Body)
    requires b.MarkPrice?
    ensures var w := BytesOf(Bytes, Fields(b));
            var p := 2 + |b.symbol|;
            && |w| == p + 17
            && Stands(w, 0, Text(b.symbol))
            && Stands(w, p, [b.priceScale])
            && Stands(w, p + 1, I64Bytes(b.markPrice))
            && Stands(w, p + 9, I64Bytes(b.indexPrice))
  {
    var fields := Fields(b);
    var p := 2 + |b.symbol|;
    FirstField(fields);
    NextField(fields, 1, p);
    NextField(fields, 2, p + 1);
    NextField(fields, 3, p + 9);
    LastField(fields, p + 17);
  }

  lemma {:induction false} FundingRateStands(b: Body)
    requires b.FundingRate?
    ensures var w := BytesOf(Bytes, Fields(b));
            var p := 2 + |b.symbol|;
            && |w| == p + 17
            && Stands(w, 0, Text(b.symbol))
            && Stands(w, p, [b.fundingRateScale])
            && Stands(w, p + 1, I64Bytes(b.fundingRate))
            && Stands(w, p + 9, I64Bytes(b.nextFundingTime))
  {
    var fields := Fields(b);
    var p := 2 + |b.symbol|;
    FirstField(fields);
    NextField(fields, 1, p);
    NextField(fields, 2, p + 1);
    NextField(fields, 3, p + 9);
    LastField(fields, p + 17);
  }

  lemma {:induction false} LiquidationStands(b: Body)
    requires b.Liquidation?
    ensures var w := BytesOf(Bytes, Fields(b));
            var p := 2 + |b.symbol|;
            && |w| == p + 35
            && Stands(w, 0, Text(b.symbol))
            && Stands(w, p, [b.priceScale])
            && Stands(w, p + 1, [b.qtyScale])
            && Stands(w, p + 2, [SideCode(b.side)])
            && Stands(w, p + 3, I64Bytes(b.price))
            && Stands(w, p + 11, I64Bytes(b.qty))
            && Stands(w, p + 19, I64Bytes(b.avgPrice))
            && Stands(w, p + 27, I64Bytes(b.lastFilledQty))
  {
    var fields := Fields(b);
    var p := 2 + |b.symbol|;
    FirstField(fields);
    NextField(fields, 1, p);
    NextField(fields, 2, p + 1);
    NextField(fields, 3, p + 2);
    NextField(fields, 4, p + 3);
    NextField(fields, 5, p + 11);
    NextField(fields, 6, p + 19);
    NextField(fields, 7, p + 27);
    LastField(fields, p + 35);
  }

  lemma {:induction false} OpenInterestStands(b: Body)
    requires b.OpenInterest?
    ensures var w := BytesOf(Bytes, Fields(b));
            var p := 2 + |b.symbol|;
            && |w| == p + 9
            && Stands(w, 0, Text(b.symbol))
            && Stands(w, p, [b.qtyScale])
            && Stands(w, p + 1, I64Bytes(b.openInterest))
  {
    var fields := Fields(b);
    var p := 2 + |b.symbol|;
    FirstField(fields);
    NextField(fields, 1, p);
    NextField(fields, 2, p + 1);
    LastField(fields, p + 9);
  }

  lemma {:induction false} FeedStatusStands(b: Body)
    requires b.FeedStatus?
    ensures var w := BytesOf(Bytes, Fields(b));
            && |w| == 1
            && Stands(w, 0, [StateCode(b.state)])
  {
    var fields := Fields(b);
    FirstField(fields);
    LastField(fields, 1);
  }

  lemma {:induction false} GapDetectedStands(b: Body)
    requires b.GapDetected?
    ensures var w := BytesOf(Bytes, Fields(b));
            var p := 2 + |b.symbol|;
            && |w| == p + 16
            && Stands(w, 0, Text(b.symbol))
            && Stands(w, p, Le(b.expectedUpdateId, 8))
            && Stands(w, p + 8, Le(b.receivedUpdateId, 8))
  {
    var fields := Fields(b);
    var p := 2 + |b.symbol|;
    FirstField(fields);
    NextField(fields, 1, p);
    NextField(fields, 2, p + 8);
    LastField(fields, p + 16);
  }

  lemma {:induction false} BookStaleStands(b: Body)
    requires b.BookStale?
    ensures var w := BytesOf(Bytes, Fields(b));
            var p := 2 + |b.symbol|;
            && |w| == p + 1
            && Stands(w, 0, Text(b.symbol))
            && Stands(w, p, [ReasonCode(b.reason)])
  {
    var fields := Fields(b);
    var p := 2 + |b.symbol|;
    FirstField(fields);
    NextField(fields, 1, p);
    LastField(fields, p + 1);
  }

  lemma {:induction false} BookRecoveredStands(b: Body)
    requires b.BookRecovered?
    ensures var w := BytesOf(Bytes, Fields(b));
            var p := 2 + |b.symbol|;
            && |w| == p + 8
            && Stands(w, 0, Text(b.symbol))
            && Stands(w, p, Le(b.snapshotUpdateId, 8))
  {
    var fields := Fields(b);
    var p := 2 + |b.symbol|;
    FirstField(fields);
    NextField(fields, 1, p);
    LastField(fields, p + 8);
  }

  lemma {:induction false} BookChecksumStands(b: Body)
    requires b.BookChecksum?
    ensures var w := BytesOf(Bytes, Fields(b));
            var p := 2 + |b.symbol|;
            && |w| == p + 24
            && Stands(w, 0, Text(b.symbol))
            && Stands(w, p, Le(b.updateId, 8))
            && Stands(w, p + 8, Le(b.bidDepth, 4))
            && Stands(w, p + 12, Le(b.askDepth, 4))
            && Stands(w, p + 16, Le(b.checksum, 8))
  {
    var fields := Fields(b);
    var p := 2 + |b.symbol|;
    FirstField(fields);
    NextField(fields, 1, p);
    NextField(fields, 2, p + 8);
    NextField(fields, 3, p + 12);
    NextField(fields, 4, p + 16);
    LastField(fields, p + 24);
  }
}
