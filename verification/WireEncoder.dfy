/** Encoding into a caller's buffer, in place. */
module WireEncoder {
  import opened FieldLists
  import opened Integers
  import opened Messages
  import opened Utf8
  import opened WireCodec
  import opened WireHeader
  import opened WireMessages
  import opened Wrappers

  function Chunk(written: seq<u8>, room: nat, bytes: seq<u8>): Progress {
    if room < |written| + |bytes| then Progress(written, Some(BufferTooShort(|written| + |bytes|, room)))
    else Progress(written + bytes, None)
  }

  function Chained(p: Progress, room: nat, bytes: seq<u8>): Progress {
    if p.failure.Some? then p else Chunk(p.written, room, bytes)
  }

  function PutLevelsFrom(p: Progress, room: nat, levels: seq<PriceLevel>): Progress {
    if levels == [] then p
    else
      var last := levels[|levels| - 1];
      var before := PutLevelsFrom(p, room, levels[..|levels| - 1]);
      Chained(Chained(before, room, I64Bytes(last.price)), room, I64Bytes(last.qty))
  }

  function Put(written: seq<u8>, room: nat, v: Value): Progress {
    match v
    case TextValue(text) =>
      if |text| > 0xffff then Progress(written, Some(StringTooLong(|text|, 0xffff)))
      else Chained(Chunk(written, room, Le(|text|, 2)), room, text)
    case LevelsValue(levels) =>
      if |levels| > 0xffff_ffff then Progress(written, Some(VecTooLong(|levels|, 0xffff_ffff)))
      else PutLevelsFrom(Chunk(written, room, Le(|levels|, 4)), room, levels)
    case _ => Chunk(written, room, Bytes(v))
  }

  function PutIn(room: nat): Putter<Value> {
    (written: seq<u8>, v: Value) => Put(written, room, v)
  }

  // The bytes went in whole, which they do exactly when they fit the room.
  predicate WentIn(p: Progress, room: nat, bytes: seq<u8>) {
    && (p.failure.None? <==> |bytes| <= room)
    && (p.failure.None? ==> p.written == bytes)
  }

  lemma {:induction false} ChunkGoesIn(written: seq<u8>, room: nat, bytes: seq<u8>)
    ensures WentIn(Chunk(written, room, bytes), room, written + bytes)
  {
  }

  lemma {:induction false} ChunksAdd(p: Progress, room: nat, sofar: seq<u8>, bytes: seq<u8>)
    requires WentIn(p, room, sofar)
    ensures WentIn(Chained(p, room, bytes), room, sofar + bytes)
  {
  }

  // Bytes behind their prefix.
  lemma {:induction false} Prefixed(written: seq<u8>, prefix: seq<u8>, bytes: seq<u8>)
    ensures written + prefix + bytes == written + (prefix + bytes)
  {
  }

  // Both numbers of a level, one behind the other.
  lemma {:induction false} LevelAdds(p: Progress, room: nat, sofar: seq<u8>, before: seq<u8>, price: seq<u8>,
                                     qty: seq<u8>)
    requires WentIn(p, room, sofar + before)
    ensures WentIn(Chained(Chained(p, room, price), room, qty), room, sofar + (before + (price + qty)))
  {
    ChunksAdd(p, room, sofar + before, price);
    ChunksAdd(Chained(p, room, price), room, sofar + before + price, qty);
    Prefixed(sofar + before, price, qty);
    Prefixed(sofar, before, price + qty);
  }

  lemma {:induction false} LevelsAdd(p: Progress, room: nat, sofar: seq<u8>, levels: seq<PriceLevel>)
    requires WentIn(p, room, sofar)
    ensures WentIn(PutLevelsFrom(p, room, levels), room, sofar + LevelsBytes(levels))
  {
    if levels == [] {
      assert sofar + LevelsBytes(levels) == sofar;
    } else {
      var front, last := levels[..|levels| - 1], levels[|levels| - 1];
      LevelsAdd(p, room, sofar, front);
      LevelAdds(PutLevelsFrom(p, room, front), room, sofar, LevelsBytes(front),
                I64Bytes(last.price), I64Bytes(last.qty));
    }
  }

  lemma {:induction false} TextGoesIn(written: seq<u8>, room: nat, text: Str)
    requires |text| <= 0xffff
    ensures WentIn(Put(written, room, TextValue(text)), room, written + Bytes(TextValue(text)))
  {
    var prefix := Le(|text|, 2);
    ChunkGoesIn(written, room, prefix);
    ChunksAdd(Chunk(written, room, prefix), room, written + prefix, text);
    Prefixed(written, prefix, text);
  }

  lemma {:induction false} LevelsGoIn(written: seq<u8>, room: nat, levels: seq<PriceLevel>)
    requires |levels| <= 0xffff_ffff
    ensures WentIn(Put(written, room, LevelsValue(levels)), room, written + Bytes(LevelsValue(levels)))
  {
    var prefix := Le(|levels|, 4);
    ChunkGoesIn(written, room, prefix);
    LevelsAdd(Chunk(written, room, prefix), room, written + prefix, levels);
    Prefixed(written, prefix, LevelsBytes(levels));
  }

  // A field goes in exactly when it fits its length prefix and the room left.
  lemma {:induction false} PutIff(written: seq<u8>, room: nat, v: Value)
    ensures var next := Put(written, room, v);
            && (next.failure.None? <==> Fits(v) && |written + Bytes(v)| <= room)
            && (next.failure.None? ==> next.written == written + Bytes(v))
  {
    match v
    case TextValue(text) =>
      if Fits(v) {
        TextGoesIn(written, room, text);
      }
    case LevelsValue(levels) =>
      if Fits(v) {
        LevelsGoIn(written, room, levels);
      }
    case _ => ChunkGoesIn(written, room, Bytes(v));
  }

  // The whole body goes in exactly when every field fits its length prefix and the total the room.
  lemma {:induction false} PutFieldsIff(room: nat, values: seq<Value>)
    ensures var p := PutAll(PutIn(room), values);
            && (p.failure.None? <==> All(Fits, values) && |BytesOf(Bytes, values)| <= room)
            && (p.failure.None? ==> p.written == BytesOf(Bytes, values))
  {
    forall written, v | |written| <= room
      ensures Appends(PutIn(room), Bytes, Fits, room, written, v)
    {
      PutIff(written, room, v);
    }
    PutAllIff(PutIn(room), Bytes, Fits, room, values);
  }

  lemma {:induction false} LevelFailureSticks(p: Progress, room: nat, levels: seq<PriceLevel>, i: nat)
    requires i <= |levels| && PutLevelsFrom(p, room, levels[..i]).failure.Some?
    ensures PutLevelsFrom(p, room, levels) == PutLevelsFrom(p, room, levels[..i])
  {
    if i == |levels| {
      assert levels[..i] == levels;
    } else {
      assert levels[..|levels| - 1][..i] == levels[..i];
      LevelFailureSticks(p, room, levels[..|levels| - 1], i);
    }
  }

  // --- Writing in place ------------------------------------------------------

  // `done` written over the beginning of `under`.
  function Over(done: seq<u8>, under: seq<u8>): seq<u8>
    requires |done| <= |under|
  {
    done + under[|done|..]
  }

  // copy_from_slice
  method CopyInto(buf: array<u8>, at: nat, bytes: seq<u8>)
    requires at + |bytes| <= buf.Length
    modifies buf
    ensures buf[..] == old(buf[..at]) + bytes + old(buf[at + |bytes|..])
  {
    forall i | 0 <= i < |bytes| {
      buf[at + i] := bytes[i];
    }
  }

  lemma {:induction false} OverMore(done: seq<u8>, under: seq<u8>, bytes: seq<u8>)
    requires |done| + |bytes| <= |under|
    ensures var s := Over(done, under);
            s[..|done|] + bytes + s[|done| + |bytes|..] == Over(done + bytes, under)
  {
  }

  method WriteHeader(h: MessageHeader, buf: array<u8>) returns (r: Result<(), WireError>)
    modifies buf
    ensures if buf.Length < HEADER_SIZE
            then r == Failure(BufferTooShort(HEADER_SIZE, buf.Length)) && buf[..] == old(buf[..])
            else r == Success(()) && buf[..] == Over(HeaderBytes(h), old(buf[..]))
  {
    if buf.Length < HEADER_SIZE {
      return Failure(BufferTooShort(HEADER_SIZE, buf.Length));
    }
    ghost var under := buf[..];
    CopyInto(buf, 0, Codes(h));
    assert buf[..] == Over(Codes(h), under);
    WriteIds(h, buf, under);
    WriteTimes(h, buf, under);
    HeaderInParts(h);
    return Success(());
  }

  function IdBytes(h: MessageHeader): seq<u8> {
    Codes(h) + Le(h.instrumentId, 4) + Le(h.connectionId, 4) + Le(h.instanceId, 4) + Le(h.sequenceNumber, 8)
  }

  lemma {:induction false} HeaderInParts(h: MessageHeader)
    ensures |IdBytes(h)| == 24
    ensures HeaderBytes(h) == IdBytes(h) + I64Bytes(h.exchangeEventTs) + I64Bytes(h.exchangeTxTs)
                              + I64Bytes(h.localRecvTs) + I64Bytes(h.localPublishTs)
  {
  }

  method WriteIds(h: MessageHeader, buf: array<u8>, ghost under: seq<u8>)
    requires buf.Length == |under| >= HEADER_SIZE && buf[..] == Over(Codes(h), under)
    modifies buf
    ensures buf[..] == Over(IdBytes(h), under)
  {
    ghost var done := Codes(h);
    OverMore(done, under, Le(h.instrumentId, 4));
    CopyInto(buf, 4, Le(h.instrumentId, 4));
    done := done + Le(h.instrumentId, 4);
    OverMore(done, under, Le(h.connectionId, 4));
    CopyInto(buf, 8, Le(h.connectionId, 4));
    done := done + Le(h.connectionId, 4);
    OverMore(done, under, Le(h.instanceId, 4));
    CopyInto(buf, 12, Le(h.instanceId, 4));
    done := done + Le(h.instanceId, 4);
    OverMore(done, under, Le(h.sequenceNumber, 8));
    CopyInto(buf, 16, Le(h.sequenceNumber, 8));
  }

  method WriteTimes(h: MessageHeader, buf: array<u8>, ghost under: seq<u8>)
    requires buf.Length == |under| >= HEADER_SIZE && buf[..] == Over(IdBytes(h), under)
    modifies buf
    ensures buf[..] == Over(IdBytes(h) + I64Bytes(h.exchangeEventTs) + I64Bytes(h.exchangeTxTs)
                            + I64Bytes(h.localRecvTs) + I64Bytes(h.localPublishTs), under)
  {
    HeaderInParts(h);
    ghost var done := IdBytes(h);
    OverMore(done, under, I64Bytes(h.exchangeEventTs));
    CopyInto(buf, 24, I64Bytes(h.exchangeEventTs));
    done := done + I64Bytes(h.exchangeEventTs);
    OverMore(done, under, I64Bytes(h.exchangeTxTs));
    CopyInto(buf, 32, I64Bytes(h.exchangeTxTs));
    done := done + I64Bytes(h.exchangeTxTs);
    OverMore(done, under, I64Bytes(h.localRecvTs));
    CopyInto(buf, 40, I64Bytes(h.localRecvTs));
    done := done + I64Bytes(h.localRecvTs);
    OverMore(done, under, I64Bytes(h.localPublishTs));
    CopyInto(buf, 48, I64Bytes(h.localPublishTs));
  }

  // A cursor over the buffer behind the header.
  class Encoder {
    const buf: array<u8>
    var pos: nat
    ghost var written: seq<u8>
    ghost const head: seq<u8>
    ghost const under: seq<u8>

    ghost predicate Valid()
      reads this, buf
    {
      && |head| == HEADER_SIZE && buf.Length == |under| && HEADER_SIZE + pos <= buf.Length && pos == |written|
      && buf[..] == Over(head + written, under)
    }

    constructor (buf: array<u8>, ghost head: seq<u8>, ghost under: seq<u8>)
      requires |head| == HEADER_SIZE <= buf.Length == |under| && buf[..] == Over(head, under)
      ensures Valid() && this.buf == buf && this.head == head && this.under == under && written == []
    {
      this.buf, this.head, this.under := buf, head, under;
      pos, written := 0, [];
      assert head + [] == head;
    }

    ghost predicate Follows(r: Result<(), WireError>, p: Progress)
      reads this
    {
      written == p.written && r == match p.failure case None => Success(()) case Some(e) => Failure(e)
    }

    method PutBytes(bytes: seq<u8>) returns (r: Result<(), WireError>)
      requires Valid()
      modifies this`pos, this`written, buf
      ensures Valid() && Follows(r, Chunk(old(written), buf.Length - HEADER_SIZE, bytes))
    {
      var room := buf.Length - HEADER_SIZE;
      if room - pos < |bytes| {
        return Failure(BufferTooShort(pos + |bytes|, room));
      }
      OverMore(head + written, under, bytes);
      CopyInto(buf, HEADER_SIZE + pos, bytes);
      assert head + written + bytes == head + (written + bytes);
      written := written + bytes;
      pos := pos + |bytes|;
      return Success(());
    }

    method PutText(text: Str) returns (r: Result<(), WireError>)
      requires Valid()
      modifies this`pos, this`written, buf
      ensures Valid() && Follows(r, Put(old(written), buf.Length - HEADER_SIZE, TextValue(text)))
    {
      if |text| > 0xffff {
        return Failure(StringTooLong(|text|, 0xffff));
      }
      var _ :- PutBytes(Le(|text|, 2));
      r := PutBytes(text);
    }

    method PutLevels(levels: seq<PriceLevel>) returns (r: Result<(), WireError>)
      requires Valid()
      modifies this`pos, this`written, buf
      ensures Valid() && Follows(r, Put(old(written), buf.Length - HEADER_SIZE, LevelsValue(levels)))
    {
      if |levels| > 0xffff_ffff {
        return Failure(VecTooLong(|levels|, 0xffff_ffff));
      }
      ghost var room := buf.Length - HEADER_SIZE;
      ghost var start := Chunk(written, room, Le(|levels|, 4));
      r := PutBytes(Le(|levels|, 4));
      if r.Failure? {
        LevelFailureSticks(start, room, levels, 0);
        return r;
      }
      for i := 0 to |levels|
        invariant Valid() && PutLevelsFrom(start, room, levels[..i]) == Progress(written, None)
      {
        assert levels[..i + 1][..i] == levels[..i];
        r := PutBytes(I64Bytes(levels[i].price));
        if r.Success? {
          r := PutBytes(I64Bytes(levels[i].qty));
        }
        if r.Failure? {
          LevelFailureSticks(start, room, levels, i + 1);
          return r;
        }
      }
      assert levels[..|levels|] == levels;
      return Success(());
    }

    method PutValue(v: Value) returns (r: Result<(), WireError>)
      requires Valid()
      modifies this`pos, this`written, buf
      ensures Valid() && Follows(r, Put(old(written), buf.Length - HEADER_SIZE, v))
    {
      match v {
        case TextValue(text) => r := PutText(text);
        case LevelsValue(levels) => r := PutLevels(levels);
        case _ => r := PutBytes(Bytes(v));
      }
    }
  }

  // Field after field, until one does not fit.
  method EncodeFields(values: seq<Value>, enc: Encoder) returns (r: Result<(), WireError>)
    requires enc.Valid() && enc.written == []
    modifies enc`pos, enc`written, enc.buf
    ensures enc.Valid() && enc.Follows(r, PutAll(PutIn(enc.buf.Length - HEADER_SIZE), values))
  {
    ghost var room := enc.buf.Length - HEADER_SIZE;
    for i := 0 to |values|
      invariant enc.Valid() && PutAll(PutIn(room), values[..i]) == Progress(enc.written, None)
    {
      assert values[..i + 1][..i] == values[..i];
      var put := enc.PutValue(values[i]);
      if put.Failure? {
        FailureSticks(PutIn(room), values, i + 1);
        return put;
      }
    }
    assert values[..|values|] == values;
    return Success(());
  }

  // On success exactly the message's bytes are written; on failure only the header and the fields
  // before the first failing put are.
  method EncodeInto(m: Message, buf: array<u8>) returns (r: Result<nat, WireError>)
    modifies buf
    ensures r.Success? <==> Encodable(m) && |Encoded(m)| <= buf.Length
    ensures r.Success? ==> r.value == |Encoded(m)| && buf[..] == Over(Encoded(m), old(buf[..]))
    ensures buf.Length < HEADER_SIZE ==>
              r == Failure(BufferTooShort(HEADER_SIZE, buf.Length)) && buf[..] == old(buf[..])
    ensures buf.Length >= HEADER_SIZE && r.Failure? ==>
              var p := PutAll(PutIn(buf.Length - HEADER_SIZE), Fields(m.body));
              && p.failure == Some(r.error) && HEADER_SIZE + |p.written| <= buf.Length
              && buf[..] == Over(HeaderBytes(m.header) + p.written, old(buf[..]))
  {
    ghost var under := buf[..];
    var _ :- WriteHeader(m.header, buf);
    var enc := new Encoder(buf, HeaderBytes(m.header), under);
    PutFieldsIff(buf.Length - HEADER_SIZE, Fields(m.body));
    var _ :- EncodeFields(Fields(m.body), enc);
    return Success(HEADER_SIZE + enc.pos);
  }

  lemma {:induction false} StampedDecodes(m: Message, publishTs: i64)
    requires Encodable(m) && WellTyped(m) && !m.body.BookChecksum?
    ensures FromBytes(Patched(Encoded(m), publishTs)) == Success(WithPublishTs(m, publishTs))
  {
    assert Encoded(m) + [] == Encoded(m);
    DecodesIff(m, []);
    PatchChangesPublishTsOnly(Encoded(m), publishTs);
  }

  lemma {:induction false} OverStarts(done: seq<u8>, under: seq<u8>)
    requires |done| <= |under|
    ensures Over(done, under)[..|done|] == done
  {
  }

  lemma {:induction false} PatchOfPrefix(full: seq<u8>, after: seq<u8>, publishTs: i64, len: nat)
    requires HEADER_SIZE <= len <= |full| && after == full[..48] + I64Bytes(publishTs) + full[56..]
    ensures after[..len] == Patched(full[..len], publishTs)
  {
  }

  // What the publisher sends: the encoded message with the publish time patched in. The receiver
  // decodes the very message with that time.
  method EncodeAndStamp(m: Message, publishTs: i64, buf: array<u8>) returns (sent: Option<seq<u8>>)
    requires WellTyped(m) && !m.body.BookChecksum?
    modifies buf
    ensures sent.Some? <==> Encodable(m) && |Encoded(m)| <= buf.Length
    ensures sent.Some? ==> FromBytes(sent.value) == Success(WithPublishTs(m, publishTs))
  {
    ghost var under := buf[..];
    var encoded := EncodeInto(m, buf);
    if encoded.Failure? {
      return None;
    }
    var len := encoded.value;
    StampedDecodes(m, publishTs);
    OverStarts(Encoded(m), under);
    ghost var full := buf[..];
    CopyInto(buf, 48, I64Bytes(publishTs));
    PatchOfPrefix(full, buf[..], publishTs, len);
    return Some(buf[..len]);
  }
}
