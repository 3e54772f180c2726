/**
 * Framed records: tag, timestamp, payload length, payload. Given how entries become payloads and
 * payloads entries, it supplies a record writer and a record reader that agree.
 */
module Framing {
  import opened Integers
  import opened OrderTypes
  import opened RecordLog
  import opened Wrappers

  // --- Reading primitives ----------------------------------------------------

  type Got<T> = Result<(T, nat), Error>

  function GetU8(buf: seq<u8>, pos: nat): (r: Got<u8>)
    requires pos <= |buf|
    ensures r.Success? ==> r.value.1 <= |buf|
  {
    if |buf| - pos < 1 then Failure(BufferTooShort(pos + 1, |buf|)) else Success((buf[pos], pos + 1))
  }

  function GetLe(buf: seq<u8>, pos: nat, n: nat): (r: Got<nat>)
    requires pos <= |buf|
    ensures r.Success? ==> r.value.1 == pos + n <= |buf| && r.value.0 < Pow256(n)
  {
    if |buf| - pos < n then Failure(BufferTooShort(pos + n, |buf|))
    else Success((FromLe(buf[pos..pos + n]), pos + n))
  }

  function GetI64(buf: seq<u8>, pos: nat): (r: Got<i64>)
    requires pos <= |buf|
    ensures r.Success? ==> r.value.1 <= |buf|
  {
    Widths();
    var (v, p) :- GetLe(buf, pos, 8);
    Success((FromBits(v), p))
  }

  function GetU64(buf: seq<u8>, pos: nat): (r: Got<u64>)
    requires pos <= |buf|
    ensures r.Success? ==> r.value.1 <= |buf|
  {
    Widths();
    var (v, p) :- GetLe(buf, pos, 8);
    Success((v, p))
  }

  function GetU16(buf: seq<u8>, pos: nat): (r: Got<u16>)
    requires pos <= |buf|
    ensures r.Success? ==> r.value.1 == pos + 2 <= |buf|
  {
    Widths();
    var (v, p) :- GetLe(buf, pos, 2);
    Success((v, p))
  }

  lemma {:induction false} GetsU8(buf: seq<u8>, pos: nat, v: u8)
    requires Stands(buf, pos, [v])
    ensures GetU8(buf, pos) == Success((v, pos + 1))
  {
    assert buf[pos] == buf[pos..pos + 1][0];
  }

  lemma {:induction false} GetsLe(buf: seq<u8>, pos: nat, v: nat, n: nat)
    requires v < Pow256(n) && Stands(buf, pos, Le(v, n))
    ensures GetLe(buf, pos, n) == Success((v, pos + n))
  {
    LeRoundTrip(v, n);
  }

  lemma {:induction false} GetsI64(buf: seq<u8>, pos: nat, v: i64)
    requires Stands(buf, pos, I64Bytes(v))
    ensures GetI64(buf, pos) == Success((v, pos + 8))
  {
    Widths();
    GetsLe(buf, pos, ToBits(v), 8);
  }

  // --- Frames ----------------------------------------------------------------

  // The payload length is a cast: it silently keeps the low sixteen bits.
  function Frame(tag: u8, timestampNs: i64, payload: seq<u8>): (bytes: seq<u8>)
    ensures |bytes| == 11 + |payload|
  {
    [tag] + (I64Bytes(timestampNs) + (Le(|payload| % 0x1_0000, 2) + payload))
  }

  function DecodeFrame(buf: seq<u8>, offset: nat): (r: Result<(u8, i64, u16), Error>)
    requires offset <= |buf|
    ensures r.Success? ==> offset + 11 + r.value.2 <= |buf|
  {
    var (tag, p) :- GetU8(buf, offset);
    var (timestampNs, p) :- GetI64(buf, p);
    var (payloadLen, p) :- GetU16(buf, p);
    if |buf| - p < payloadLen then Failure(JournalCorrupt(offset)) else Success((tag, timestampNs, payloadLen))
  }

  // What a frame says, whether or not its payload is complete.
  lemma {:induction false} FrameReads(buf: seq<u8>, pos: nat, tag: u8, timestampNs: i64, payload: seq<u8>)
    requires pos + 11 <= |buf| && buf[pos..pos + 11] == Frame(tag, timestampNs, payload)[..11]
    ensures var len := |payload| % 0x1_0000;
            DecodeFrame(buf, pos) == if pos + 11 + len <= |buf| then Success((tag, timestampNs, len))
                                     else Failure(JournalCorrupt(pos))
  {
    var ts, len := I64Bytes(timestampNs), Le(|payload| % 0x1_0000, 2);
    assert Frame(tag, timestampNs, payload)[..11] == [tag] + (ts + len);
    StandsSplit(buf, pos, [tag], ts + len);
    StandsSplit(buf, pos + 1, ts, len);
    Widths();
    GetsU8(buf, pos, tag);
    GetsI64(buf, pos + 1, timestampNs);
    GetsLe(buf, pos + 9, |payload| % 0x1_0000, 2);
  }

  lemma {:induction false} FrameSlice(buf: seq<u8>, pos: nat, tag: u8, timestampNs: i64, payload: seq<u8>)
    requires |payload| <= 0xffff && Stands(buf, pos, Frame(tag, timestampNs, payload))
    ensures DecodeFrame(buf, pos) == Success((tag, timestampNs, |payload|))
    ensures buf[pos + 11..pos + 11 + |payload|] == payload
  {
    var frame := Frame(tag, timestampNs, payload);
    assert frame == frame[..11] + payload;
    StandsSplit(buf, pos, frame[..11], payload);
    FrameReads(buf, pos, tag, timestampNs, payload);
  }

  lemma {:induction false} TornFrame(buf: seq<u8>, pos: nat, tag: u8, timestampNs: i64, payload: seq<u8>)
    requires |payload| <= 0xffff && TornAt(buf, pos, Frame(tag, timestampNs, payload))
    ensures DecodeFrame(buf, pos).Failure?
  {
    if |buf| - pos >= 11 {
      assert buf[pos..pos + 11] == Frame(tag, timestampNs, payload)[..11];
      FrameReads(buf, pos, tag, timestampNs, payload);
    }
  }

  // --- Records ---------------------------------------------------------------

  datatype Writer<!E> = Writer(tag: E -> u8, timestampNs: E -> i64, payload: E -> seq<u8>)
  type Parser<!E> = (u8, i64, seq<u8>, nat) -> Result<E, Error>

  function Record<E>(w: Writer<E>, entry: E): seq<u8> {
    Frame(w.tag(entry), w.timestampNs(entry), w.payload(entry))
  }

  function RecordOf<E>(w: Writer<E>): E -> seq<u8> {
    (entry: E) => Record(w, entry)
  }

  // Every record advances by at least its eleven-byte frame.
  function DecodeOne<E>(parse: Parser<E>, buf: seq<u8>, offset: nat): (r: Got<E>)
    requires offset <= |buf|
    ensures r.Success? ==> offset + 11 <= r.value.1 <= |buf|
  {
    var (tag, timestampNs, payloadLen) :- DecodeFrame(buf, offset);
    var start := offset + 11;
    var entry :- parse(tag, timestampNs, buf[start..start + payloadLen], offset);
    Success((entry, start + payloadLen))
  }

  lemma {:induction false} DecodeOneInParts<E>(parse: Parser<E>, buf: seq<u8>, offset: nat)
    requires offset <= |buf|
    ensures DecodeOne(parse, buf, offset)
         == match DecodeFrame(buf, offset)
            case Failure(e) => Failure(e)
            case Success((tag, timestampNs, len)) =>
              match parse(tag, timestampNs, buf[offset + 11..offset + 11 + len], offset)
              case Failure(e) => Failure(e)
              case Success(entry) => Success((entry, offset + 11 + len))
  {
  }

  function ReaderOf<E>(parse: Parser<E>): Reader<E, Error> {
    (buf: seq<u8>, pos: nat) requires pos <= |buf| => DecodeOne(parse, buf, pos)
  }

  lemma {:induction false} ReaderAdvances<E>(parse: Parser<E>, buf: seq<u8>)
    ensures Advances(ReaderOf(parse), buf)
  {
    forall pos: nat | pos <= |buf|
      ensures ReaderOf(parse).requires(buf, pos)
      ensures ReaderOf(parse)(buf, pos).Success? ==> pos < ReaderOf(parse)(buf, pos).value.1 <= |buf|
    {
      assert ReaderOf(parse)(buf, pos) == DecodeOne(parse, buf, pos);
    }
  }

  // The parser recovers this entry from its own payload.
  ghost predicate Recovers<E>(w: Writer<E>, parse: Parser<E>, entry: E) {
    && |w.payload(entry)| <= 0xffff
    && forall offset: nat :: parse(w.tag(entry), w.timestampNs(entry), w.payload(entry), offset) == Success(entry)
  }

  lemma {:induction false} RecordDecodes<E>(w: Writer<E>, parse: Parser<E>, buf: seq<u8>, pos: nat, entry: E)
    requires Recovers(w, parse, entry) && Stands(buf, pos, Record(w, entry))
    ensures DecodeOne(parse, buf, pos) == Success((entry, pos + |Record(w, entry)|))
  {
    FrameSlice(buf, pos, w.tag(entry), w.timestampNs(entry), w.payload(entry));
  }

  lemma {:induction false} TornRecordFails<E>(w: Writer<E>, parse: Parser<E>, buf: seq<u8>, pos: nat, entry: E)
    requires Recovers(w, parse, entry) && TornAt(buf, pos, Record(w, entry))
    ensures DecodeOne(parse, buf, pos).Failure?
  {
    TornFrame(buf, pos, w.tag(entry), w.timestampNs(entry), w.payload(entry));
  }

  lemma {:induction false} FramedRecordsAgree<E(!new)>(w: Writer<E>, parse: Parser<E>, entries: seq<E>)
    requires forall i | 0 <= i < |entries| :: Recovers(w, parse, entries[i])
    ensures forall buf: seq<u8> :: Advances(ReaderOf(parse), buf)
    ensures forall i | 0 <= i < |entries| :: Agree(RecordOf(w), ReaderOf(parse), entries[i])
  {
    forall buf: seq<u8>
      ensures Advances(ReaderOf(parse), buf)
    {
      ReaderAdvances(parse, buf);
    }
    forall i | 0 <= i < |entries|
      ensures Agree(RecordOf(w), ReaderOf(parse), entries[i])
    {
      FramedRecordAgrees(w, parse, entries[i]);
    }
  }

  lemma {:induction false} FramedRecordAgrees<E(!new)>(w: Writer<E>, parse: Parser<E>, entry: E)
    requires Recovers(w, parse, entry)
    ensures Agree(RecordOf(w), ReaderOf(parse), entry)
  {
    var read, part := ReaderOf(parse), RecordOf(w)(entry);
    assert part == Record(w, entry);
    forall buf: seq<u8>, pos: nat | Stands(buf, pos, part)
      ensures read(buf, pos) == Success((entry, pos + |part|))
    {
      RecordDecodes(w, parse, buf, pos, entry);
    }
    forall buf: seq<u8>, pos: nat | TornAt(buf, pos, part)
      ensures read(buf, pos).Failure?
    {
      TornRecordFails(w, parse, buf, pos, entry);
    }
  }

  // A record alone in a buffer reads back, to the end of the buffer, exactly when its payload
  // fits the length field and parses back.
  lemma {:induction false} SoleRecordIff<E>(w: Writer<E>, parse: Parser<E>, entry: E)
    ensures DecodeOne(parse, Record(w, entry), 0) == Success((entry, |Record(w, entry)|))
       <==> |w.payload(entry)| <= 0xffff
            && parse(w.tag(entry), w.timestampNs(entry), w.payload(entry), 0) == Success(entry)
  {
    var buf, payload := Record(w, entry), w.payload(entry);
    assert buf[0..11] == buf[..11];
    FrameReads(buf, 0, w.tag(entry), w.timestampNs(entry), payload);
    if |payload| <= 0xffff {
      FrameSlice(buf, 0, w.tag(entry), w.timestampNs(entry), payload);
    }
  }
}
