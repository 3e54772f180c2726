/**
 * Where everything stands in the journal: the record's offset table, the numbers of tags and codes,
 * and the place of every field of every payload.
 */
module JournalLayouts {
  import opened Framing
  import opened Integers
  import opened Journals
  import opened OrderTypes
  import opened Utf8
  import opened Wrappers

  // The tags and the codes of an order, and what the reader makes of any other number.
  lemma {:induction false} TagsAreNumbered(entry: JournalEntry)
    ensures entry.OrderRequested? <==> Tag(entry) == 1
    ensures entry.OrderAcknowledged? <==> Tag(entry) == 2
    ensures entry.OrderFilled? <==> Tag(entry) == 3
    ensures entry.OrderCancelled? <==> Tag(entry) == 4
    ensures entry.OrderRejected? <==> Tag(entry) == 5
    ensures entry.OrderExpired? <==> Tag(entry) == 6
  {
  }

  lemma {:induction false} CodesAreNumbered(code: u8)
    ensures SideCode(Buy) == 0 && SideCode(Sell) == 1 && (SideOf(code).Some? <==> code <= 1)
    ensures SideOf(code).Some? ==> SideCode(SideOf(code).value) == code
    ensures TypeCode(Limit) == 0 && TypeCode(Market) == 1 && (TypeOf(code).Some? <==> code <= 1)
    ensures TypeOf(code).Some? ==> TypeCode(TypeOf(code).value) == code
    ensures TifCode(GoodTillCancel) == 0 && TifCode(ImmediateOrCancel) == 1 && TifCode(FillOrKill) == 2
    ensures (TifOf(code).Some? <==> code <= 2) && (TifOf(code).Some? ==> TifCode(TifOf(code).value) == code)
  {
  }

  // The record: tag, timestamp, payload length, payload.
  lemma {:induction false} RecordStands(entry: JournalEntry)
    ensures var w := EncodeEntry(entry);
            && |w| == 11 + |Payload(entry)| && w[0] == Tag(entry)
            && Stands(w, 1, I64Bytes(entry.timestampNs)) && Stands(w, 9, Le(|Payload(entry)| % 0x1_0000, 2))
            && Stands(w, 11, Payload(entry))
  {
    var w := EncodeEntry(entry);
    assert w == Frame(Tag(entry), entry.timestampNs, Payload(entry));
    FrameStands(Tag(entry), entry.timestampNs, Payload(entry));
  }

  lemma {:induction false} FrameStands(tag: u8, timestampNs: i64, payload: seq<u8>)
    ensures var w := Frame(tag, timestampNs, payload);
            && w[0] == tag && Stands(w, 1, I64Bytes(timestampNs))
            && Stands(w, 9, Le(|payload| % 0x1_0000, 2)) && Stands(w, 11, payload)
  {
    var w, len := Frame(tag, timestampNs, payload), Le(|payload| % 0x1_0000, 2);
    assert Stands(w, 0, [tag] + (I64Bytes(timestampNs) + (len + payload)));
    StandsSplit(w, 0, [tag], I64Bytes(timestampNs) + (len + payload));
    StandsSplit(w, 1, I64Bytes(timestampNs), len + payload);
    StandsSplit(w, 9, len, payload);
  }

  // Every payload begins with the client order id behind its length.
  lemma {:induction false} IdStands(entry: JournalEntry)
    ensures var w := Payload(entry);
            && w[0] == |entry.cloid| % 0x100 && Stands(w, 1, entry.cloid) && Stands(w, 1 + |entry.cloid|, Body(entry))
  {
    var w := Payload(entry);
    assert Stands(w, 0, Str8(entry.cloid) + Body(entry));
    StandsSplit(w, 0, Str8(entry.cloid), Body(entry));
    StandsSplit(w, 0, [|entry.cloid| % 0x100], entry.cloid);
  }

  // Then, of a request: symbol behind its length, side, type and time in force, quantity, and the
  // price behind a one, or a zero.
  lemma {:induction false} RequestStands(entry: JournalEntry)
    requires entry.OrderRequested?
    ensures var w, p := Payload(entry), 1 + |entry.cloid|;
            var o := entry.request;
            var q := p + 1 + |o.symbol|;
            && w[p] == |o.symbol| % 0x100 && Stands(w, p + 1, o.symbol)
            && w[q] == SideCode(o.side) && w[q + 1] == TypeCode(o.orderType) && w[q + 2] == TifCode(o.timeInForce)
            && Stands(w, q + 3, I64Bytes(o.qty))
            && match o.limitPrice
               case None => w[q + 11] == 0 && |w| == q + 12
               case Some(price) => w[q + 11] == 1 && Stands(w, q + 12, I64Bytes(price)) && |w| == q + 20
  {
    var w, p := Payload(entry), 1 + |entry.cloid|;
    var o := entry.request;
    var q := p + 1 + |o.symbol|;
    IdStands(entry);
    RequestParts(w, p, o);
    StandsSplit(w, p, [|o.symbol| % 0x100], o.symbol);
    CodesStand(w, q, SideCode(o.side), TypeCode(o.orderType), TifCode(o.timeInForce));
    PayloadSizeIsItsLength(entry);
    PriceStands(w, q + 11, o.limitPrice);
  }

  lemma {:induction false} CodesStand(w: seq<u8>, q: nat, a: u8, b: u8, c: u8)
    requires Stands(w, q, [a, b, c])
    ensures q + 3 <= |w| && w[q] == a && w[q + 1] == b && w[q + 2] == c
  {
    var codes := w[q..q + 3];
    assert w[q] == codes[0] && w[q + 1] == codes[1] && w[q + 2] == codes[2];
  }

  lemma {:induction false} PriceStands(w: seq<u8>, q: nat, price: Option<i64>)
    requires Stands(w, q, PriceBytes(price))
    ensures q < |w|
    ensures match price case None => w[q] == 0 case Some(p) => w[q] == 1 && Stands(w, q + 1, I64Bytes(p))
  {
    match price
    case None =>
      assert w[q] == w[q..q + 1][0];
    case Some(p) =>
      StandsSplit(w, q, [1], I64Bytes(p));
      assert w[q] == w[q..q + 1][0];
  }

  // Of an acknowledgement: the exchange's id; of a fill: quantity, price and whether it is final; of
  // a rejection: the reason behind its length; of the two others nothing.
  lemma {:induction false} ReportStands(entry: JournalEntry)
    requires !entry.OrderRequested?
    ensures var w, p := Payload(entry), 1 + |entry.cloid|;
            match entry
            case OrderAcknowledged(_, _, exchangeId) => Stands(w, p, Le(exchangeId, 8)) && |w| == p + 8
            case OrderFilled(_, _, qty, price, isFinal) =>
              && Stands(w, p, I64Bytes(qty)) && Stands(w, p + 8, I64Bytes(price))
              && |w| == p + 17 && w[p + 16] == if isFinal then 1 else 0
            case OrderRejected(_, _, reason) =>
              Stands(w, p, Le(|reason| % 0x1_0000, 2)) && Stands(w, p + 2, reason) && |w| == p + 2 + |reason|
            case _ => |w| == p
  {
    var w, p := Payload(entry), 1 + |entry.cloid|;
    IdStands(entry);
    PayloadSizeIsItsLength(entry);
    match entry
    case OrderFilled(_, _, qty, price, isFinal) =>
      FillStands(w, p, qty, price, if isFinal then 1 else 0);
    case OrderRejected(_, _, reason) =>
      StandsSplit(w, p, Le(|reason| % 0x1_0000, 2), reason);
    case _ =>
  }

  lemma {:induction false} FillStands(w: seq<u8>, p: nat, qty: i64, price: i64, flag: u8)
    requires Stands(w, p, I64Bytes(qty) + (I64Bytes(price) + [flag]))
    ensures Stands(w, p, I64Bytes(qty)) && Stands(w, p + 8, I64Bytes(price)) && p + 16 < |w| && w[p + 16] == flag
  {
    StandsSplit(w, p, I64Bytes(qty), I64Bytes(price) + [flag]);
    StandsSplit(w, p + 8, I64Bytes(price), [flag]);
    assert w[p + 16] == w[p + 16..p + 17][0];
  }
}
