/** Decoding message bodies with a mutable cursor. */
module WireDecoder {
  import opened FieldLists
  import opened Integers
  import opened Messages
  import opened Utf8
  import opened WireCodec
  import opened WireHeader
  import opened WireMessages
  import opened Wrappers

  class Decoder {
    const buf: seq<u8>
    var pos: nat

    constructor (buf: seq<u8>)
      ensures this.buf == buf && pos == 0
    {
      this.buf := buf;
      pos := 0;
    }

    // A read returns what the cursor-passing function gives and moves to where it points.
    ghost predicate Read<T>(r: Result<T, WireError>, got: Got<T>)
      reads this
    {
      match got
      case Success((v, p)) => r == Success(v) && pos == p
      case Failure(e) => r == Failure(e)
    }

    method U8() returns (r: Result<u8, WireError>)
      modifies this
      ensures Read(r, GetU8(buf, old(pos)))
    {
      if |buf| < pos + 1 {
        return Failure(BufferTooShort(pos + 1, |buf|));
      }
      r := Success(buf[pos]);
      pos := pos + 1;
    }

    method LeBytes(n: nat) returns (r: Result<nat, WireError>)
      modifies this
      ensures Read(r, GetLe(buf, old(pos), n)) && (r.Success? ==> r.value < Pow256(n))
    {
      if |buf| < pos + n {
        return Failure(BufferTooShort(pos + n, |buf|));
      }
      r := Success(FromLe(buf[pos..pos + n]));
      pos := pos + n;
    }

    method U32() returns (r: Result<u32, WireError>)
      modifies this
      ensures Read(r, GetU32(buf, old(pos)))
    {
      Widths();
      var v :- LeBytes(4);
      r := Success(v);
    }

    method U64() returns (r: Result<u64, WireError>)
      modifies this
      ensures Read(r, GetU64(buf, old(pos)))
    {
      Widths();
      var v :- LeBytes(8);
      r := Success(v);
    }

    method I64() returns (r: Result<i64, WireError>)
      modifies this
      ensures Read(r, GetI64(buf, old(pos)))
    {
      var v :- U64();
      r := Success(FromBits(v));
    }

    method Text() returns (r: Result<Str, WireError>)
      modifies this
      ensures Read(r, GetText(buf, old(pos)))
    {
      var len :- LeBytes(2);
      if |buf| < pos + len {
        return Failure(BufferTooShort(pos + len, |buf|));
      }
      if !ValidUtf8(buf[pos..pos + len]) {
        return Failure(InvalidUtf8);
      }
      r := Success(buf[pos..pos + len]);
      pos := pos + len;
    }

    method Level() returns (r: Result<PriceLevel, WireError>)
      modifies this
      ensures Read(r, GetLevel(buf, old(pos)))
    {
      var price :- I64();
      var qty :- I64();
      r := Success(PriceLevel(price, qty));
    }

    method Levels() returns (r: Result<seq<PriceLevel>, WireError>)
      modifies this
      ensures Read(r, GetCountedLevels(buf, old(pos)))
    {
      var count :- U32();
      ghost var start := pos;
      var levels: seq<PriceLevel> := [];
      for i := 0 to count
        invariant GetLevels(buf, start, i) == Success((levels, pos))
      {
        var level := Level();
        if level.Failure? {
          LevelsFailureSticks(buf, start, i + 1, count);
          return Failure(level.error);
        }
        levels := levels + [level.value];
      }
      return Success(levels);
    }

    method ReadValue(kind: Kind) returns (r: Result<Value, WireError>)
      modifies this
      ensures Read(r, GetValue(kind, buf, old(pos)))
    {
      match kind {
        case U32Kind => var v :- U32(); r := Success(U32Value(v));
        case U64Kind => var v :- U64(); r := Success(U64Value(v));
        case I64Kind => var v :- I64(); r := Success(I64Value(v));
        case TextKind => var v :- Text(); r := Success(TextValue(v));
        case LevelsKind => var v :- Levels(); r := Success(LevelsValue(v));
        case _ => r := ReadByte(kind);
      }
    }

    method ReadByte(kind: Kind) returns (r: Result<Value, WireError>)
      requires kind.U8Kind? || kind.BoolKind? || kind.SideKind? || kind.StateKind? || kind.ReasonKind?
      modifies this
      ensures Read(r, GetValue(kind, buf, old(pos)))
    {
      var code :- U8();
      match kind {
        case BoolKind => r := Success(BoolValue(code != 0));
        case SideKind => var side :- SideFrom(code); r := Success(SideValue(side));
        case StateKind => var state :- StateFrom(code); r := Success(StateValue(state));
        case ReasonKind => var reason :- ReasonFrom(code); r := Success(ReasonValue(reason));
        case _ => r := Success(U8Value(code));
      }
    }
  }

  lemma {:induction false} LevelsFailureSticks(buf: seq<u8>, pos: nat, i: nat, count: nat)
    requires i <= count && GetLevels(buf, pos, i).Failure?
    ensures GetLevels(buf, pos, count) == GetLevels(buf, pos, i)
  {
    if i < count {
      LevelsFailureSticks(buf, pos, i, count - 1);
    }
  }

  lemma {:induction false} ReadFailureSticks(kinds: seq<Kind>, buf: seq<u8>, pos: nat, i: nat)
    requires i <= |kinds| && GetAll(GetValue, kinds[..i], buf, pos).Failure?
    ensures GetAll(GetValue, kinds, buf, pos) == GetAll(GetValue, kinds[..i], buf, pos)
  {
    if i == |kinds| {
      assert kinds[..i] == kinds;
    } else {
      assert kinds[..|kinds| - 1][..i] == kinds[..i];
      ReadFailureSticks(kinds[..|kinds| - 1], buf, pos, i);
    }
  }

  method ReadFields(kinds: seq<Kind>, dec: Decoder) returns (r: Result<seq<Value>, WireError>)
    modifies dec
    ensures dec.Read(r, GetAll(GetValue, kinds, dec.buf, old(dec.pos)))
  {
    ghost var start := dec.pos;
    var values: seq<Value> := [];
    for i := 0 to |kinds|
      invariant GetAll(GetValue, kinds[..i], dec.buf, start) == Success((values, dec.pos))
    {
      assert kinds[..i + 1][..i] == kinds[..i];
      var v := dec.ReadValue(kinds[i]);
      if v.Failure? {
        ReadFailureSticks(kinds, dec.buf, start, i + 1);
        return Failure(v.error);
      }
      values := values + [v.value];
    }
    assert kinds[..|kinds|] == kinds;
    return Success(values);
  }

  // What a subscriber does with the bytes of one message.
  method DecodeMessage(buf: seq<u8>) returns (r: Result<Message, WireError>)
    ensures r == FromBytes(buf)
  {
    var h :- HeaderOf(buf);
    if h.messageType.BookChecksumType? {
      return Failure(UnknownMessageType(TypeCode(BookChecksumType)));
    }
    var dec := new Decoder(buf[HEADER_SIZE..]);
    var values :- ReadFields(Layout(h.messageType), dec);
    ValuesShaped(Layout(h.messageType), buf[HEADER_SIZE..], 0);
    return Success(Message(h, BodyOf(h.messageType, values)));
  }
}
