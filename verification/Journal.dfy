/**
 * The order journal: an append-only byte log of length-prefixed records
 * (tag, timestamp, payload length, payload), and its decoder.
 */
module Journals {
  import opened Framing
  import opened Integers
  import opened OrderTypes
  import opened RecordLog
  import opened Utf8
  import opened Wrappers

  datatype JournalEntry =
    | OrderRequested(timestampNs: i64, cloid: Str, request: OrderRequest)
    | OrderAcknowledged(timestampNs: i64, cloid: Str, exchangeId: u64)
    | OrderFilled(timestampNs: i64, cloid: Str, fillQty: i64, fillPrice: i64, isFinal: bool)
    | OrderCancelled(timestampNs: i64, cloid: Str)
    | OrderRejected(timestampNs: i64, cloid: Str, reason: Str)
    | OrderExpired(timestampNs: i64, cloid: Str)

  // --- Codes -----------------------------------------------------------------

  function Tag(entry: JournalEntry): u8 {
    match entry
    case OrderRequested(_, _, _) => 1
    case OrderAcknowledged(_, _, _) => 2
    case OrderFilled(_, _, _, _, _) => 3
    case OrderCancelled(_, _) => 4
    case OrderRejected(_, _, _) => 5
    case OrderExpired(_, _) => 6
  }

  function SideCode(side: OrderSide): u8 {
    match side case Buy => 0 case Sell => 1
  }

  function TypeCode(orderType: OrderType): u8 {
    match orderType case Limit => 0 case Market => 1
  }

  function TifCode(tif: TimeInForce): u8 {
    match tif case GoodTillCancel => 0 case ImmediateOrCancel => 1 case FillOrKill => 2
  }

  function SideOf(code: u8): Option<OrderSide> {
    if code == 0 then Some(Buy) else if code == 1 then Some(Sell) else None
  }

  function TypeOf(code: u8): Option<OrderType> {
    if code == 0 then Some(Limit) else if code == 1 then Some(Market) else None
  }

  function TifOf(code: u8): Option<TimeInForce> {
    if code == 0 then Some(GoodTillCancel)
    else if code == 1 then Some(ImmediateOrCancel)
    else if code == 2 then Some(FillOrKill)
    else None
  }

  // --- Encoding --------------------------------------------------------------

  // Length prefixes are casts: they silently keep the low bits of a longer length.
  function Str8(s: Str): seq<u8> {
    [|s| % 0x100] + s
  }

  function Str16(s: Str): seq<u8> {
    Le(|s| % 0x1_0000, 2) + s
  }

  function PriceBytes(price: Option<i64>): seq<u8> {
    match price
    case None => [0]
    case Some(p) => [1] + I64Bytes(p)
  }

  function RequestBytes(request: OrderRequest): seq<u8> {
    Str8(request.symbol)
    + ([SideCode(request.side), TypeCode(request.orderType), TifCode(request.timeInForce)]
    + (I64Bytes(request.qty) + PriceBytes(request.limitPrice)))
  }

  // What follows the client order id in a payload.
  function Body(entry: JournalEntry): seq<u8> {
    match entry
    case OrderRequested(_, _, request) => RequestBytes(request)
    case OrderAcknowledged(_, _, exchangeId) => Le(exchangeId, 8)
    case OrderFilled(_, _, fillQty, fillPrice, isFinal) =>
      I64Bytes(fillQty) + (I64Bytes(fillPrice) + [if isFinal then 1 else 0])
    case OrderCancelled(_, _) => []
    case OrderRejected(_, _, reason) => Str16(reason)
    case OrderExpired(_, _) => []
  }

  function Payload(entry: JournalEntry): seq<u8> {
    Str8(entry.cloid) + Body(entry)
  }

  const JOURNAL_WRITER: Writer<JournalEntry> := Writer(Tag, (entry: JournalEntry) => entry.timestampNs, Payload)

  function EncodeEntry(entry: JournalEntry): seq<u8> {
    Record(JOURNAL_WRITER, entry)
  }

  // What a journal holds after appending the entries in order.
  function Written(entries: seq<JournalEntry>): seq<u8> {
    EncodeAll(RecordOf(JOURNAL_WRITER), entries)
  }

  // --- Decoding --------------------------------------------------------------

  function GetText(buf: seq<u8>, pos: nat, len: nat): (r: Got<Str>)
    requires pos <= |buf|
    ensures r.Success? ==> r.value.1 == pos + len <= |buf| && |r.value.0| == len
  {
    if |buf| - pos < len then Failure(BufferTooShort(pos + len, |buf|))
    else if !ValidUtf8(buf[pos..pos + len]) then Failure(JournalCorrupt(pos))
    else Success((buf[pos..pos + len], pos + len))
  }

  function GetStr8(buf: seq<u8>, pos: nat): (r: Got<Str>)
    requires pos <= |buf|
    ensures r.Success? ==> r.value.1 == pos + 1 + |r.value.0| <= |buf| && |r.value.0| <= 0xff
  {
    var (len, p) :- GetU8(buf, pos);
    GetText(buf, p, len)
  }

  function GetStr16(buf: seq<u8>, pos: nat): (r: Got<Str>)
    requires pos <= |buf|
    ensures r.Success? ==> r.value.1 == pos + 2 + |r.value.0| <= |buf|
  {
    var (len, p) :- GetU16(buf, pos);
    GetText(buf, p, len)
  }

  function Required<T>(code: Option<T>, offset: nat): Result<T, Error> {
    match code case Some(v) => Success(v) case None => Failure(JournalCorrupt(offset))
  }

  datatype Codes = Codes(side: OrderSide, orderType: OrderType, tif: TimeInForce)

  function DecodeCodes(buf: seq<u8>, pos: nat, offset: nat): (r: Got<Codes>)
    requires pos <= |buf|
    ensures r.Success? ==> r.value.1 <= |buf|
  {
    var (sideCode, p) :- GetU8(buf, pos);
    var side :- Required(SideOf(sideCode), offset);
    var (typeCode, p) :- GetU8(buf, p);
    var orderType :- Required(TypeOf(typeCode), offset);
    var (tifCode, p) :- GetU8(buf, p);
    var tif :- Required(TifOf(tifCode), offset);
    Success((Codes(side, orderType, tif), p))
  }

  function DecodePrice(buf: seq<u8>, pos: nat): Result<Option<i64>, Error>
    requires pos <= |buf|
  {
    var (hasPrice, p) :- GetU8(buf, pos);
    if hasPrice == 0 then
      Success(None)
    else
      var (price, _) :- GetI64(buf, p);
      Success(Some(price))
  }

  function DecodeRequest(buf: seq<u8>, pos: nat, offset: nat): Result<OrderRequest, Error>
    requires pos <= |buf|
  {
    var (symbol, p) :- GetStr8(buf, pos);
    var (codes, p) :- DecodeCodes(buf, p, offset);
    var (qty, p) :- GetI64(buf, p);
    var price :- DecodePrice(buf, p);
    Success(OrderRequest(symbol, codes.side, codes.orderType, qty, price, codes.tif))
  }

  function DecodeBody(tag: u8, timestampNs: i64, cloid: Str, buf: seq<u8>, pos: nat, offset: nat)
    : Result<JournalEntry, Error>
    requires pos <= |buf|
  {
    if tag == 1 then
      var request :- DecodeRequest(buf, pos, offset);
      Success(OrderRequested(timestampNs, cloid, request))
    else if tag == 2 then
      var (exchangeId, _) :- GetU64(buf, pos);
      Success(OrderAcknowledged(timestampNs, cloid, exchangeId))
    else if tag == 3 then
      var (fillQty, p) :- GetI64(buf, pos);
      var (fillPrice, p) :- GetI64(buf, p);
      var (flag, _) :- GetU8(buf, p);
      Success(OrderFilled(timestampNs, cloid, fillQty, fillPrice, flag != 0))
    else if tag == 4 then
      Success(OrderCancelled(timestampNs, cloid))
    else if tag == 5 then
      var (reason, _) :- GetStr16(buf, pos);
      Success(OrderRejected(timestampNs, cloid, reason))
    else
      Success(OrderExpired(timestampNs, cloid))
  }

  function DecodePayload(tag: u8, timestampNs: i64, buf: seq<u8>, offset: nat): Result<JournalEntry, Error> {
    if tag < 1 || tag > 6 then Failure(JournalCorrupt(offset))
    else
      var (cloid, p) :- GetStr8(buf, 0);
      DecodeBody(tag, timestampNs, cloid, buf, p, offset)
  }

  function DecodeAll(buf: seq<u8>): Result<seq<JournalEntry>, Error> {
    ReaderAdvances(DecodePayload, buf);
    DecodeFrom(ReaderOf(DecodePayload), buf, 0)
  }

  // --- The imperative codec --------------------------------------------------

  class Encoder {
    var buf: seq<u8>

    constructor ()
      ensures buf == []
    {
      buf := [];
    }

    method U8(v: u8)
      modifies this
      ensures buf == old(buf) + [v]
    {
      buf := buf + [v];
    }

    method U16(v: u16)
      modifies this
      ensures buf == old(buf) + Le(v, 2)
    {
      buf := buf + Le(v, 2);
    }

    method U64(v: u64)
      modifies this
      ensures buf == old(buf) + Le(v, 8)
    {
      buf := buf + Le(v, 8);
    }

    method I64(v: i64)
      modifies this
      ensures buf == old(buf) + I64Bytes(v)
    {
      buf := buf + I64Bytes(v);
    }

    method PutStr8(s: Str)
      modifies this
      ensures buf == old(buf) + Str8(s)
    {
      U8(|s| % 0x100);
      buf := buf + s;
    }

    method PutStr16(s: Str)
      modifies this
      ensures buf == old(buf) + Str16(s)
    {
      U16(|s| % 0x1_0000);
      buf := buf + s;
    }
  }

  method EncodeRequest(enc: Encoder, request: OrderRequest)
    modifies enc
    ensures enc.buf == old(enc.buf) + RequestBytes(request)
  {
    enc.PutStr8(request.symbol);
    ghost var b1 := enc.buf;
    enc.U8(SideCode(request.side));
    enc.U8(TypeCode(request.orderType));
    enc.U8(TifCode(request.timeInForce));
    ghost var codes := [SideCode(request.side), TypeCode(request.orderType), TifCode(request.timeInForce)];
    ghost var b2 := enc.buf;
    assert b2 == b1 + codes;
    enc.I64(request.qty);
    ghost var price := PriceBytes(request.limitPrice);
    match request.limitPrice {
      case None =>
        enc.U8(0);
      case Some(p) =>
        ghost var b3 := enc.buf;
        enc.U8(1);
        enc.I64(p);
        Assoc(b3, [1], I64Bytes(p));
    }
    Assoc(b2, I64Bytes(request.qty), price);
    Assoc(b1, codes, I64Bytes(request.qty) + price);
    Assoc(old(enc.buf), Str8(request.symbol), codes + (I64Bytes(request.qty) + price));
  }

  method EncodePayload(entry: JournalEntry) returns (payload: seq<u8>)
    ensures payload == Payload(entry)
  {
    var enc := new Encoder();
    enc.PutStr8(entry.cloid);
    ghost var start := enc.buf;
    match entry {
      case OrderRequested(_, _, request) =>
        EncodeRequest(enc, request);
      case OrderAcknowledged(_, _, exchangeId) =>
        enc.U64(exchangeId);
      case OrderFilled(_, _, fillQty, fillPrice, isFinal) =>
        enc.I64(fillQty);
        ghost var mid := enc.buf;
        enc.I64(fillPrice);
        enc.U8(if isFinal then 1 else 0);
        Assoc(mid, I64Bytes(fillPrice), [if isFinal then 1 else 0]);
        Assoc(start, I64Bytes(fillQty), I64Bytes(fillPrice) + [if isFinal then 1 else 0]);
      case OrderCancelled(_, _) =>
      case OrderRejected(_, _, reason) =>
        enc.PutStr16(reason);
      case OrderExpired(_, _) =>
    }
    payload := enc.buf;
    assert start == Str8(entry.cloid) && payload == start + Body(entry);
  }

  class Decoder {
    const buf: seq<u8>
    var pos: nat

    constructor (buf: seq<u8>, pos: nat)
      ensures this.buf == buf && this.pos == pos
    {
      this.buf := buf;
      this.pos := pos;
    }

    // A read returns what the cursor-passing function gives and moves to where it points.
    ghost predicate Read<T>(r: Result<T, Error>, got: Got<T>)
      reads this
    {
      match got
      case Success((v, p)) => r == Success(v) && pos == p
      case Failure(e) => r == Failure(e)
    }

    method Need(n: nat) returns (r: Result<(), Error>)
      requires pos <= |buf|
      ensures r == if |buf| - pos < n then Failure(BufferTooShort(pos + n, |buf|)) else Success(())
    {
      r := if |buf| - pos < n then Failure(BufferTooShort(pos + n, |buf|)) else Success(());
    }

    method U8() returns (r: Result<u8, Error>)
      requires pos <= |buf|
      modifies this
      ensures Read(r, GetU8(buf, old(pos)))
    {
      var _ :- Need(1);
      r := Success(buf[pos]);
      pos := pos + 1;
    }

    method I64() returns (r: Result<i64, Error>)
      requires pos <= |buf|
      modifies this
      ensures Read(r, GetI64(buf, old(pos)))
    {
      Widths();
      var _ :- Need(8);
      r := Success(FromBits(FromLe(buf[pos..pos + 8])));
      pos := pos + 8;
    }

    method U64() returns (r: Result<u64, Error>)
      requires pos <= |buf|
      modifies this
      ensures Read(r, GetU64(buf, old(pos)))
    {
      Widths();
      var _ :- Need(8);
      r := Success(FromLe(buf[pos..pos + 8]));
      pos := pos + 8;
    }

    method U16() returns (r: Result<u16, Error>)
      requires pos <= |buf|
      modifies this
      ensures Read(r, GetU16(buf, old(pos)))
    {
      Widths();
      var _ :- Need(2);
      r := Success(FromLe(buf[pos..pos + 2]));
      pos := pos + 2;
    }

    method Text(len: nat) returns (r: Result<Str, Error>)
      requires pos <= |buf|
      modifies this
      ensures Read(r, GetText(buf, old(pos), len))
    {
      var _ :- Need(len);
      if !ValidUtf8(buf[pos..pos + len]) {
        return Failure(JournalCorrupt(pos));
      }
      r := Success(buf[pos..pos + len]);
      pos := pos + len;
    }

    method ReadStr8() returns (r: Result<Str, Error>)
      requires pos <= |buf|
      modifies this
      ensures Read(r, GetStr8(buf, old(pos)))
    {
      var len :- U8();
      r := Text(len);
    }

    method ReadStr16() returns (r: Result<Str, Error>)
      requires pos <= |buf|
      modifies this
      ensures Read(r, GetStr16(buf, old(pos)))
    {
      var len :- U16();
      r := Text(len);
    }
  }

  method DecodeRequestFrom(dec: Decoder, offset: nat) returns (r: Result<OrderRequest, Error>)
    requires dec.pos <= |dec.buf|
    modifies dec
    ensures r == DecodeRequest(dec.buf, old(dec.pos), offset)
  {
    var symbol :- dec.ReadStr8();
    var codes :- DecodeCodesFrom(dec, offset);
    var qty :- dec.I64();
    var hasPrice :- dec.U8();
    if hasPrice == 0 {
      return Success(OrderRequest(symbol, codes.side, codes.orderType, qty, None, codes.tif));
    }
    var price :- dec.I64();
    return Success(OrderRequest(symbol, codes.side, codes.orderType, qty, Some(price), codes.tif));
  }

  method DecodeCodesFrom(dec: Decoder, offset: nat) returns (r: Result<Codes, Error>)
    requires dec.pos <= |dec.buf|
    modifies dec
    ensures dec.Read(r, DecodeCodes(dec.buf, old(dec.pos), offset))
  {
    var sideCode :- dec.U8();
    var side :- Required(SideOf(sideCode), offset);
    var typeCode :- dec.U8();
    var orderType :- Required(TypeOf(typeCode), offset);
    var tifCode :- dec.U8();
    var tif :- Required(TifOf(tifCode), offset);
    return Success(Codes(side, orderType, tif));
  }

  method DecodePayloadBytes(tag: u8, timestampNs: i64, payload: seq<u8>, offset: nat)
    returns (r: Result<JournalEntry, Error>)
    ensures r == DecodePayload(tag, timestampNs, payload, offset)
  {
    if tag < 1 || tag > 6 {
      return Failure(JournalCorrupt(offset));
    }
    var dec := new Decoder(payload, 0);
    var cloid :- dec.ReadStr8();
    r := DecodeBodyFrom(tag, timestampNs, cloid, dec, offset);
  }

  method DecodeBodyFrom(tag: u8, timestampNs: i64, cloid: Str, dec: Decoder, offset: nat)
    returns (r: Result<JournalEntry, Error>)
    requires dec.pos <= |dec.buf|
    modifies dec
    ensures r == DecodeBody(tag, timestampNs, cloid, dec.buf, old(dec.pos), offset)
  {
    if tag == 1 {
      var request :- DecodeRequestFrom(dec, offset);
      return Success(OrderRequested(timestampNs, cloid, request));
    } else if tag == 2 {
      var exchangeId :- dec.U64();
      return Success(OrderAcknowledged(timestampNs, cloid, exchangeId));
    } else if tag == 3 {
      var fillQty :- dec.I64();
      var fillPrice :- dec.I64();
      var flag :- dec.U8();
      return Success(OrderFilled(timestampNs, cloid, fillQty, fillPrice, flag != 0));
    } else if tag == 4 {
      return Success(OrderCancelled(timestampNs, cloid));
    } else if tag == 5 {
      var reason :- dec.ReadStr16();
      return Success(OrderRejected(timestampNs, cloid, reason));
    }
    return Success(OrderExpired(timestampNs, cloid));
  }

  method ReadFrame(buf: seq<u8>, offset: nat) returns (r: Result<(u8, i64, u16), Error>)
    requires offset <= |buf|
    ensures r == DecodeFrame(buf, offset)
  {
    var dec := new Decoder(buf, offset);
    var tag :- dec.U8();
    var timestampNs :- dec.I64();
    var payloadLen :- dec.U16();
    if |buf| - dec.pos < payloadLen {
      return Failure(JournalCorrupt(offset));
    }
    return Success((tag, timestampNs, payloadLen));
  }

  method DecodeOneRecord(buf: seq<u8>, offset: nat) returns (r: Got<JournalEntry>)
    requires offset <= |buf|
    ensures r == DecodeOne(DecodePayload, buf, offset)
  {
    DecodeOneInParts(DecodePayload, buf, offset);
    var frame :- ReadFrame(buf, offset);
    var start := offset + 11;
    var entry :- DecodePayloadBytes(frame.0, frame.1, buf[start..start + frame.2], offset);
    return Success((entry, start + frame.2));
  }

  lemma {:induction false} PrependedStep(entries: seq<JournalEntry>, entry: JournalEntry,
                                         r: Result<seq<JournalEntry>, Error>)
    ensures Prepended(entries, Prepended([entry], r)) == Prepended(entries + [entry], r)
    ensures Prepended([], r) == r
  {
    if r.Success? {
      assert [] + r.value == r.value;
      assert entries + ([entry] + r.value) == entries + [entry] + r.value;
    }
  }

  method DecodeAllRecords(buf: seq<u8>) returns (r: Result<seq<JournalEntry>, Error>)
    ensures r == DecodeAll(buf)
  {
    var entries: seq<JournalEntry>, pos := [], 0;
    ghost var goal := DecodeAll(buf);
    assert goal.Success? ==> [] + goal.value == goal.value;
    ReaderAdvances(DecodePayload, buf);
    while pos < |buf|
      invariant 0 <= pos <= |buf|
      invariant goal == Prepended(entries, DecodeFrom(ReaderOf(DecodePayload), buf, pos))
    {
      var record :- DecodeOneRecord(buf, pos);
      PrependedStep(entries, record.0, DecodeFrom(ReaderOf(DecodePayload), buf, record.1));
      entries, pos := entries + [record.0], record.1;
    }
    assert entries + [] == entries;
    return Success(entries);
  }

  // The in-memory backend: appending never fails.
  class Journal {
    var bytes: seq<u8>

    constructor InMemory()
      ensures bytes == []
    {
      bytes := [];
    }

    constructor Existing(bytes: seq<u8>)
      ensures this.bytes == bytes
    {
      this.bytes := bytes;
    }

    method Append(entry: JournalEntry)
      modifies this
      ensures bytes == old(bytes) + EncodeEntry(entry)
    {
      var payload := EncodePayload(entry);
      var out := EncodeFrame(Tag(entry), entry.timestampNs, payload);
      bytes := bytes + out;
    }
  }

  method EncodeFrame(tag: u8, timestampNs: i64, payload: seq<u8>) returns (out: seq<u8>)
    ensures out == Frame(tag, timestampNs, payload)
  {
    out := [tag];
    out := out + I64Bytes(timestampNs);
    out := out + Le(|payload| % 0x1_0000, 2);
    out := out + payload;
  }

  // --- Round trip ------------------------------------------------------------

  function SymbolLength(entry: JournalEntry): nat {
    if entry.OrderRequested? then |entry.request.symbol| else 0
  }

  function PayloadSize(entry: JournalEntry): nat {
    1 + |entry.cloid| +
    match entry
    case OrderRequested(_, _, request) => 1 + |request.symbol| + 3 + 8 + (if request.limitPrice.None? then 1 else 9)
    case OrderAcknowledged(_, _, _) => 8
    case OrderFilled(_, _, _, _, _) => 17
    case OrderCancelled(_, _) => 0
    case OrderRejected(_, _, reason) => 2 + |reason|
    case OrderExpired(_, _) => 0
  }

  lemma {:induction false} PayloadSizeIsItsLength(entry: JournalEntry)
    ensures |Payload(entry)| == PayloadSize(entry)
  {
  }

  // No length prefix loses bits.
  predicate Fits(entry: JournalEntry) {
    |entry.cloid| <= 0xff && SymbolLength(entry) <= 0xff && PayloadSize(entry) <= 0xffff
  }

  lemma {:induction false} GetsStr8(buf: seq<u8>, pos: nat, s: Str)
    requires |s| <= 0xff && Stands(buf, pos, Str8(s))
    ensures GetStr8(buf, pos) == Success((s, pos + 1 + |s|))
  {
    StandsSplit(buf, pos, [|s|], s);
    GetsU8(buf, pos, |s|);
  }

  lemma {:induction false} GetsStr16(buf: seq<u8>, pos: nat, s: Str)
    requires |s| <= 0xffff && Stands(buf, pos, Str16(s))
    ensures GetStr16(buf, pos) == Success((s, pos + 2 + |s|))
  {
    Widths();
    StandsSplit(buf, pos, Le(|s|, 2), s);
    GetsLe(buf, pos, |s|, 2);
  }

  lemma {:induction false} CodesRoundTrip(buf: seq<u8>, pos: nat, codes: Codes, offset: nat)
    requires Stands(buf, pos, [SideCode(codes.side), TypeCode(codes.orderType), TifCode(codes.tif)])
    ensures DecodeCodes(buf, pos, offset) == Success((codes, pos + 3))
  {
    var bytes := [SideCode(codes.side), TypeCode(codes.orderType), TifCode(codes.tif)];
    assert forall i | 0 <= i < 3 :: buf[pos + i] == buf[pos..pos + 3][i] == bytes[i];
  }

  lemma {:induction false} PriceRoundTrip(buf: seq<u8>, pos: nat, price: Option<i64>)
    requires Stands(buf, pos, PriceBytes(price))
    ensures DecodePrice(buf, pos) == Success(price)
  {
    match price
    case None =>
      GetsU8(buf, pos, 0);
    case Some(v) =>
      StandsSplit(buf, pos, [1], I64Bytes(v));
      GetsU8(buf, pos, 1);
      GetsI64(buf, pos + 1, v);
  }

  lemma {:induction false} RequestParts(buf: seq<u8>, pos: nat, request: OrderRequest)
    requires Stands(buf, pos, RequestBytes(request))
    ensures var p := pos + 1 + |request.symbol|;
            && Stands(buf, pos, Str8(request.symbol))
            && Stands(buf, p, [SideCode(request.side), TypeCode(request.orderType), TifCode(request.timeInForce)])
            && Stands(buf, p + 3, I64Bytes(request.qty))
            && Stands(buf, p + 11, PriceBytes(request.limitPrice))
  {
    var terms := I64Bytes(request.qty) + PriceBytes(request.limitPrice);
    var codes := [SideCode(request.side), TypeCode(request.orderType), TifCode(request.timeInForce)];
    var p := pos + 1 + |request.symbol|;
    StandsSplit(buf, pos, Str8(request.symbol), codes + terms);
    StandsSplit(buf, p, codes, terms);
    StandsSplit(buf, p + 3, I64Bytes(request.qty), PriceBytes(request.limitPrice));
  }

  lemma {:induction false} RequestReads(buf: seq<u8>, pos: nat, request: OrderRequest, offset: nat, p: nat)
    requires pos <= p <= |buf| - 11
    requires GetStr8(buf, pos) == Success((request.symbol, p))
    requires DecodeCodes(buf, p, offset)
          == Success((Codes(request.side, request.orderType, request.timeInForce), p + 3))
    requires GetI64(buf, p + 3) == Success((request.qty, p + 11))
    requires DecodePrice(buf, p + 11) == Success(request.limitPrice)
    ensures DecodeRequest(buf, pos, offset) == Success(request)
  {
  }

  lemma {:induction false} RequestRoundTrip(buf: seq<u8>, pos: nat, request: OrderRequest, offset: nat)
    requires |request.symbol| <= 0xff
    requires Stands(buf, pos, RequestBytes(request))
    ensures DecodeRequest(buf, pos, offset) == Success(request)
  {
    RequestParts(buf, pos, request);
    var p := pos + 1 + |request.symbol|;
    GetsStr8(buf, pos, request.symbol);
    CodesRoundTrip(buf, p, Codes(request.side, request.orderType, request.timeInForce), offset);
    GetsI64(buf, p + 3, request.qty);
    PriceRoundTrip(buf, p + 11, request.limitPrice);
    RequestReads(buf, pos, request, offset, p);
  }

  lemma {:induction false} FillRoundTrip(entry: JournalEntry, buf: seq<u8>, pos: nat, offset: nat)
    requires entry.OrderFilled? && Stands(buf, pos, Body(entry))
    ensures DecodeBody(3, entry.timestampNs, entry.cloid, buf, pos, offset) == Success(entry)
  {
    var flag := [if entry.isFinal then 1 else 0];
    StandsSplit(buf, pos, I64Bytes(entry.fillQty), I64Bytes(entry.fillPrice) + flag);
    GetsI64(buf, pos, entry.fillQty);
    StandsSplit(buf, pos + 8, I64Bytes(entry.fillPrice), flag);
    GetsI64(buf, pos + 8, entry.fillPrice);
    GetsU8(buf, pos + 16, flag[0]);
  }

  lemma {:induction false} BodyRoundTrip(entry: JournalEntry, buf: seq<u8>, pos: nat, offset: nat)
    requires Fits(entry) && Stands(buf, pos, Body(entry))
    ensures DecodeBody(Tag(entry), entry.timestampNs, entry.cloid, buf, pos, offset) == Success(entry)
  {
    match entry
    case OrderRequested(_, _, request) =>
      RequestRoundTrip(buf, pos, request, offset);
    case OrderAcknowledged(_, _, exchangeId) =>
      Widths();
      GetsLe(buf, pos, exchangeId, 8);
    case OrderFilled(_, _, _, _, _) =>
      FillRoundTrip(entry, buf, pos, offset);
    case OrderCancelled(_, _) =>
    case OrderRejected(_, _, reason) =>
      GetsStr16(buf, pos, reason);
    case OrderExpired(_, _) =>
  }

  lemma {:induction false} TextThenRest(s: Str, rest: seq<u8>)
    requires |s| <= 0xff
    ensures GetStr8(Str8(s) + rest, 0) == Success((s, 1 + |s|)) && Stands(Str8(s) + rest, 1 + |s|, rest)
  {
    var buf := Str8(s) + rest;
    assert Stands(buf, 0, buf);
    StandsSplit(buf, 0, Str8(s), rest);
    GetsStr8(buf, 0, s);
  }

  lemma {:induction false} PayloadParts(entry: JournalEntry)
    requires |entry.cloid| <= 0xff
    ensures var p := 1 + |entry.cloid|;
            && GetStr8(Payload(entry), 0) == Success((entry.cloid, p))
            && Stands(Payload(entry), p, Body(entry))
  {
    TextThenRest(entry.cloid, Body(entry));
  }

  lemma {:induction false} PayloadRoundTrip(entry: JournalEntry, offset: nat)
    requires Fits(entry)
    ensures DecodePayload(Tag(entry), entry.timestampNs, Payload(entry), offset) == Success(entry)
  {
    PayloadParts(entry);
    BodyRoundTrip(entry, Payload(entry), 1 + |entry.cloid|, offset);
  }

  // Only entries whose lengths fit their prefixes ever come out of the decoder.
  lemma {:induction false} DecodedFits(tag: u8, timestampNs: i64, payload: seq<u8>, offset: nat)
    requires |payload| <= 0xffff && DecodePayload(tag, timestampNs, payload, offset).Success?
    ensures Fits(DecodePayload(tag, timestampNs, payload, offset).value)
  {
    var (cloid, p) := GetStr8(payload, 0).value;
    DecodedBodyFits(tag, timestampNs, cloid, payload, p, offset);
  }

  lemma {:induction false} DecodedBodyFits(tag: u8, timestampNs: i64, cloid: Str, payload: seq<u8>, pos: nat,
                                           offset: nat)
    requires pos == 1 + |cloid| <= |payload| <= 0xffff && |cloid| <= 0xff
    requires DecodeBody(tag, timestampNs, cloid, payload, pos, offset).Success?
    ensures Fits(DecodeBody(tag, timestampNs, cloid, payload, pos, offset).value)
  {
    if tag == 1 {
      DecodedSymbolIsShort(payload, pos, offset);
    }
  }

  lemma {:induction false} DecodedSymbolIsShort(buf: seq<u8>, pos: nat, offset: nat)
    requires pos <= |buf| && DecodeRequest(buf, pos, offset).Success?
    ensures |DecodeRequest(buf, pos, offset).value.symbol| <= 0xff
  {
  }

  // An entry survives the journal exactly when none of its length prefixes loses bits:
  // a longer symbol or reject reason is written, but not read back.
  lemma {:induction false} SurvivesIffFits(entry: JournalEntry)
    ensures DecodeAll(EncodeEntry(entry)) == Success([entry]) <==> Fits(entry)
  {
    var buf := EncodeEntry(entry);
    ReaderAdvances(DecodePayload, buf);
    SoleEntryIff(ReaderOf(DecodePayload), buf, entry);
    SoleRecordIff(JOURNAL_WRITER, DecodePayload, entry);
    PayloadSizeIsItsLength(entry);
    if Fits(entry) {
      PayloadRoundTrip(entry, 0);
    }
    if |Payload(entry)| <= 0xffff && DecodePayload(Tag(entry), entry.timestampNs, Payload(entry), 0) == Success(entry) {
      DecodedFits(Tag(entry), entry.timestampNs, Payload(entry), 0);
    }
  }

  // --- Whole journals and torn tails -----------------------------------------

  predicate AllFit(entries: seq<JournalEntry>) {
    entries == [] || (AllFit(entries[..|entries| - 1]) && Fits(entries[|entries| - 1]))
  }

  lemma {:induction false} AllFitAt(entries: seq<JournalEntry>, i: nat)
    requires AllFit(entries) && i < |entries|
    ensures Fits(entries[i])
  {
    if i < |entries| - 1 {
      AllFitAt(entries[..|entries| - 1], i);
    }
  }

  lemma {:induction false} AllFitWhenEachDoes(entries: seq<JournalEntry>)
    requires forall e | e in entries :: Fits(e)
    ensures AllFit(entries)
  {
    if entries != [] {
      AllFitWhenEachDoes(entries[..|entries| - 1]);
    }
  }

  // Whatever bytes are decoded, the entries that come out fit.
  lemma {:induction false} DecodedAllFit(buf: seq<u8>)
    requires DecodeAll(buf).Success?
    ensures AllFit(DecodeAll(buf).value)
  {
    ReaderAdvances(DecodePayload, buf);
    forall p: nat | p <= |buf| && ReaderOf(DecodePayload)(buf, p).Success?
      ensures Fits(ReaderOf(DecodePayload)(buf, p).value.0)
    {
      DecodedRecordFits(buf, p);
    }
    DecodedSatisfy(ReaderOf(DecodePayload), buf, 0, Fits);
    AllFitWhenEachDoes(DecodeAll(buf).value);
  }

  lemma {:induction false} DecodedRecordFits(buf: seq<u8>, pos: nat)
    requires pos <= |buf| && DecodeOne(DecodePayload, buf, pos).Success?
    ensures Fits(DecodeOne(DecodePayload, buf, pos).value.0)
  {
    DecodeOneInParts(DecodePayload, buf, pos);
    var (tag, timestampNs, len) := DecodeFrame(buf, pos).value;
    DecodedFits(tag, timestampNs, buf[pos + 11..pos + 11 + len], pos);
  }

  lemma {:induction false} FittingEntriesAgree(entries: seq<JournalEntry>)
    requires AllFit(entries)
    ensures AllAgree(RecordOf(JOURNAL_WRITER), ReaderOf(DecodePayload), entries)
  {
    forall i | 0 <= i < |entries|
      ensures Recovers(JOURNAL_WRITER, DecodePayload, entries[i])
    {
      AllFitAt(entries, i);
      FittingRecovers(entries[i]);
    }
    FramedRecordsAgree(JOURNAL_WRITER, DecodePayload, entries);
  }

  lemma {:induction false} FittingRecovers(entry: JournalEntry)
    requires Fits(entry)
    ensures Recovers(JOURNAL_WRITER, DecodePayload, entry)
  {
    PayloadSizeIsItsLength(entry);
    forall offset: nat
      ensures DecodePayload(Tag(entry), entry.timestampNs, Payload(entry), offset) == Success(entry)
    {
      PayloadRoundTrip(entry, offset);
    }
  }

  // A journal cut anywhere decodes exactly when the cut is at a record boundary, and then to
  // exactly the records before the cut: a torn write is noticed, never misread.
  lemma {:induction false} CutJournalDecodes(entries: seq<JournalEntry>, k: nat)
    requires AllFit(entries) && k <= |Written(entries)|
    ensures var r := DecodeAll(Written(entries)[..k]);
            && (r.Success? <==> exists j | 0 <= j <= |entries| :: k == |Written(entries[..j])|)
            && (forall j | 0 <= j <= |entries| && k == |Written(entries[..j])| :: r == Success(entries[..j]))
  {
    FittingEntriesAgree(entries);
    PrefixDecodes(RecordOf(JOURNAL_WRITER), ReaderOf(DecodePayload), entries, k);
    forall j | 0 <= j <= |entries|
      ensures Written(entries[..j]) == EncodeAll(RecordOf(JOURNAL_WRITER), entries[..j])
    {
    }
  }

  // A journal reads back what was appended to it exactly when every entry fits.
  lemma {:induction false} JournalRoundTripIff(entries: seq<JournalEntry>)
    ensures DecodeAll(Written(entries)) == Success(entries) <==> AllFit(entries)
  {
    if AllFit(entries) {
      FittingEntriesAgree(entries);
      WholeLogDecodes(RecordOf(JOURNAL_WRITER), ReaderOf(DecodePayload), entries);
    }
    if DecodeAll(Written(entries)) == Success(entries) {
      DecodedAllFit(Written(entries));
    }
  }

  lemma {:induction false} WrittenSnoc(entries: seq<JournalEntry>, entry: JournalEntry)
    ensures Written(entries + [entry]) == Written(entries) + EncodeEntry(entry)
  {
    EncodeAllSnoc(RecordOf(JOURNAL_WRITER), entries, entry);
  }
}
