/**
 * The cursor codec of message bodies: little-endian integers, length-prefixed strings and level
 * lists, and enum bytes. A body is a list of field values, written and read in order.
 */
module WireCodec {
  import opened Integers
  import opened FieldLists
  import opened Messages
  import opened Utf8
  import opened Wrappers

  datatype Kind =
    | U8Kind
    | BoolKind
    | U32Kind
    | U64Kind
    | I64Kind
    | TextKind
    | LevelsKind
    | SideKind
    | StateKind
    | ReasonKind

  datatype Value =
    | U8Value(u8: u8)
    | BoolValue(flag: bool)
    | U32Value(u32: u32)
    | U64Value(u64: u64)
    | I64Value(i64: i64)
    | TextValue(text: Str)
    | LevelsValue(levels: seq<PriceLevel>)
    | SideValue(side: AggressorSide)
    | StateValue(state: FeedState)
    | ReasonValue(reason: BookStaleReason)

  function KindOf(v: Value): Kind {
    match v
    case U8Value(_) => U8Kind
    case BoolValue(_) => BoolKind
    case U32Value(_) => U32Kind
    case U64Value(_) => U64Kind
    case I64Value(_) => I64Kind
    case TextValue(_) => TextKind
    case LevelsValue(_) => LevelsKind
    case SideValue(_) => SideKind
    case StateValue(_) => StateKind
    case ReasonValue(_) => ReasonKind
  }

  // --- Enum bytes ------------------------------------------------------------

  function SideCode(side: AggressorSide): u8 {
    match side case UnknownSide => 0 case BuySide => 1 case SellSide => 2
  }

  function SideFrom(code: u8): Result<AggressorSide, WireError> {
    match code
    case 0 => Success(UnknownSide)
    case 1 => Success(BuySide)
    case 2 => Success(SellSide)
    case _ => Failure(UnknownAggressorSide(code))
  }

  function StateCode(state: FeedState): u8 {
    match state
    case Connecting => 1
    case Live => 2
    case Degraded => 3
    case StaleFeed => 4
    case Recovering => 5
    case RecoveredFeed => 6
    case Failed => 7
  }

  function StateFrom(code: u8): Result<FeedState, WireError> {
    match code
    case 1 => Success(Connecting)
    case 2 => Success(Live)
    case 3 => Success(Degraded)
    case 4 => Success(StaleFeed)
    case 5 => Success(Recovering)
    case 6 => Success(RecoveredFeed)
    case 7 => Success(Failed)
    case _ => Failure(UnknownFeedState(code))
  }

  function ReasonCode(reason: BookStaleReason): u8 {
    match reason
    case SequenceGap => 1
    case WebSocketReconnect => 2
    case SnapshotIncompatible => 3
    case StaleTimeout => 4
    case MalformedEvent => 5
    case ExchangeShutdown => 6
    case BboMismatch => 7
    case BufferOverflow => 8
  }

  function ReasonFrom(code: u8): Result<BookStaleReason, WireError> {
    match code
    case 1 => Success(SequenceGap)
    case 2 => Success(WebSocketReconnect)
    case 3 => Success(SnapshotIncompatible)
    case 4 => Success(StaleTimeout)
    case 5 => Success(MalformedEvent)
    case 6 => Success(ExchangeShutdown)
    case 7 => Success(BboMismatch)
    case 8 => Success(BufferOverflow)
    case _ => Failure(UnknownBookStaleReason(code))
  }

  // --- Bytes of a field ------------------------------------------------------

  function LevelsBytes(levels: seq<PriceLevel>): seq<u8> {
    if levels == [] then []
    else
      var last := levels[|levels| - 1];
      LevelsBytes(levels[..|levels| - 1]) + (I64Bytes(last.price) + I64Bytes(last.qty))
  }

  lemma {:induction false} LevelsLength(levels: seq<PriceLevel>)
    ensures |LevelsBytes(levels)| == 16 * |levels|
  {
    if levels != [] {
      LevelsLength(levels[..|levels| - 1]);
    }
  }

  // Each level takes sixteen bytes, its price before its quantity.
  lemma {:induction false} LevelStands(levels: seq<PriceLevel>, k: nat)
    requires k < |levels|
    ensures Stands(LevelsBytes(levels), 16 * k, I64Bytes(levels[k].price))
    ensures Stands(LevelsBytes(levels), 16 * k + 8, I64Bytes(levels[k].qty))
  {
    var front, last := levels[..|levels| - 1], levels[|levels| - 1];
    LevelsLength(front);
    if k < |front| {
      LevelStands(front, k);
      StandsInFront(LevelsBytes(front), I64Bytes(last.price) + I64Bytes(last.qty), 16 * k, I64Bytes(levels[k].price));
      StandsInFront(LevelsBytes(front), I64Bytes(last.price) + I64Bytes(last.qty), 16 * k + 8, I64Bytes(levels[k].qty));
    } else {
      PairStandsBehind(LevelsBytes(front), I64Bytes(last.price), I64Bytes(last.qty));
    }
  }

  lemma {:induction false} PairStandsBehind(front: seq<u8>, a: seq<u8>, b: seq<u8>)
    ensures Stands(front + (a + b), |front|, a) && Stands(front + (a + b), |front| + |a|, b)
  {
    assert Stands(front + (a + b), |front|, a + b);
    StandsSplit(front + (a + b), |front|, a, b);
  }

  lemma {:induction false} StandsInFront(front: seq<u8>, back: seq<u8>, pos: nat, part: seq<u8>)
    requires Stands(front, pos, part)
    ensures Stands(front + back, pos, part)
  {
    assert (front + back)[pos..pos + |part|] == front[pos..pos + |part|];
  }

  function Bytes(v: Value): seq<u8> {
    match v
    case U8Value(x) => [x]
    case BoolValue(flag) => [if flag then 1 else 0]
    case U32Value(x) => Le(x, 4)
    case U64Value(x) => Le(x, 8)
    case I64Value(x) => I64Bytes(x)
    case TextValue(text) => Le(|text|, 2) + text
    case LevelsValue(levels) => Le(|levels|, 4) + LevelsBytes(levels)
    case SideValue(side) => [SideCode(side)]
    case StateValue(state) => [StateCode(state)]
    case ReasonValue(reason) => [ReasonCode(reason)]
  }

  // Short enough for its length prefix.
  predicate Fits(v: Value) {
    match v
    case TextValue(text) => |text| <= 0xffff
    case LevelsValue(levels) => |levels| <= 0xffff_ffff
    case _ => true
  }

  // --- Reading ---------------------------------------------------------------

  function GetU8(buf: seq<u8>, pos: nat): (r: Got<u8>)
  {
    if |buf| < pos + 1 then Failure(BufferTooShort(pos + 1, |buf|)) else Success((buf[pos], pos + 1))
  }

  function GetLe(buf: seq<u8>, pos: nat, n: nat): (r: Got<nat>)
    ensures r.Success? ==> r.value.0 < Pow256(n)
  {
    if |buf| < pos + n then Failure(BufferTooShort(pos + n, |buf|))
    else Success((FromLe(buf[pos..pos + n]), pos + n))
  }

  function GetU64(buf: seq<u8>, pos: nat): (r: Got<u64>)
  {
    Widths();
    var (v, p) :- GetLe(buf, pos, 8);
    Success((v, p))
  }

  function GetU32(buf: seq<u8>, pos: nat): (r: Got<u32>)
  {
    Widths();
    var (v, p) :- GetLe(buf, pos, 4);
    Success((v, p))
  }

  function GetI64(buf: seq<u8>, pos: nat): (r: Got<i64>)
  {
    var (v, p) :- GetU64(buf, pos);
    Success((FromBits(v), p))
  }

  function GetText(buf: seq<u8>, pos: nat): (r: Got<Str>)
  {
    var (len, p) :- GetLe(buf, pos, 2);
    if |buf| < p + len then Failure(BufferTooShort(p + len, |buf|))
    else if !ValidUtf8(buf[p..p + len]) then Failure(InvalidUtf8)
    else Success((buf[p..p + len], p + len))
  }

  function GetLevel(buf: seq<u8>, pos: nat): (r: Got<PriceLevel>)
  {
    var (price, p) :- GetI64(buf, pos);
    var (qty, p) :- GetI64(buf, p);
    Success((PriceLevel(price, qty), p))
  }

  function GetLevels(buf: seq<u8>, pos: nat, count: nat): (r: Got<seq<PriceLevel>>)
  {
    if count == 0 then Success(([], pos))
    else
      var (levels, p) :- GetLevels(buf, pos, count - 1);
      var (level, p) :- GetLevel(buf, p);
      Success((levels + [level], p))
  }

  function GetCountedLevels(buf: seq<u8>, pos: nat): Got<seq<PriceLevel>> {
    var (count, p) :- GetU32(buf, pos);
    GetLevels(buf, p, count)
  }

  function GetValue(kind: Kind, buf: seq<u8>, pos: nat): (r: Got<Value>)
    ensures r.Success? ==> KindOf(r.value.0) == kind
  {
    match kind
    case U8Kind => var (v, p) :- GetU8(buf, pos); Success((U8Value(v), p))
    case BoolKind => var (v, p) :- GetU8(buf, pos); Success((BoolValue(v != 0), p))
    case U32Kind => var (v, p) :- GetU32(buf, pos); Success((U32Value(v), p))
    case U64Kind => var (v, p) :- GetU64(buf, pos); Success((U64Value(v), p))
    case I64Kind => var (v, p) :- GetI64(buf, pos); Success((I64Value(v), p))
    case TextKind => var (v, p) :- GetText(buf, pos); Success((TextValue(v), p))
    case LevelsKind => var (levels, p) :- GetCountedLevels(buf, pos); Success((LevelsValue(levels), p))
    case SideKind => var (v, p) :- GetU8(buf, pos); var side :- SideFrom(v); Success((SideValue(side), p))
    case StateKind => var (v, p) :- GetU8(buf, pos); var state :- StateFrom(v); Success((StateValue(state), p))
    case ReasonKind => var (v, p) :- GetU8(buf, pos); var reason :- ReasonFrom(v); Success((ReasonValue(reason), p))
  }

  // --- What is written is read -----------------------------------------------

  lemma {:induction false} GetsU8(buf: seq<u8>, pos: nat, v: u8)
    requires Stands(buf, pos, [v])
    ensures GetU8(buf, pos) == Success((v, pos + 1))
  {
    assert buf[pos] == buf[pos..pos + 1][0];
  }

  lemma {:induction false} GetsLe(buf: seq<u8>, pos: nat, v: nat, n: nat)
    requires v < Pow256(n) && Stands(buf, pos, Le(v, n))
    ensures GetLe(buf, pos, n) == Success((v, pos + n))
  {
    LeRoundTrip(v, n);
  }

  lemma {:induction false} GetsI64(buf: seq<u8>, pos: nat, v: i64)
    requires Stands(buf, pos, I64Bytes(v))
    ensures GetI64(buf, pos) == Success((v, pos + 8))
  {
    Widths();
    GetsLe(buf, pos, ToBits(v), 8);
  }

  // A length prefix and what follows it.
  lemma {:induction false} PrefixReads(buf: seq<u8>, pos: nat, v: nat, n: nat, rest: seq<u8>)
    requires v < Pow256(n) && Stands(buf, pos, Le(v, n) + rest)
    ensures GetLe(buf, pos, n) == Success((v, pos + n)) && Stands(buf, pos + n, rest)
  {
    StandsSplit(buf, pos, Le(v, n), rest);
    GetsLe(buf, pos, v, n);
  }

  lemma {:induction false} CutOffPrefix(buf: seq<u8>, pos: nat, v: nat, n: nat, rest: seq<u8>)
    requires v < Pow256(n) && CutOff(buf, pos, Le(v, n) + rest)
    ensures if |buf| < pos + n then GetLe(buf, pos, n).Failure?
            else GetLe(buf, pos, n) == Success((v, pos + n)) && CutOff(buf, pos + n, rest)
  {
    CutOffSplit(buf, pos, Le(v, n), rest);
    if |buf| >= pos + n {
      GetsLe(buf, pos, v, n);
    }
  }

  lemma {:induction false} TextFollows(buf: seq<u8>, pos: nat, p: nat, text: Str)
    requires GetLe(buf, pos, 2) == Success((|text|, p))
    ensures Stands(buf, p, text) ==> GetText(buf, pos) == Success((text, p + |text|))
    ensures CutOff(buf, p, text) ==> GetText(buf, pos).Failure?
  {
  }

  lemma {:induction false} GetsText(buf: seq<u8>, pos: nat, text: Str)
    requires |text| <= 0xffff && Stands(buf, pos, Le(|text|, 2) + text)
    ensures GetText(buf, pos) == Success((text, pos + 2 + |text|))
  {
    Widths();
    PrefixReads(buf, pos, |text|, 2, text);
    TextFollows(buf, pos, pos + 2, text);
  }

  lemma {:induction false} CutOffTextFails(buf: seq<u8>, pos: nat, text: Str)
    requires |text| <= 0xffff && CutOff(buf, pos, Le(|text|, 2) + text)
    ensures GetText(buf, pos).Failure?
  {
    Widths();
    CutOffPrefix(buf, pos, |text|, 2, text);
    if |buf| >= pos + 2 {
      TextFollows(buf, pos, pos + 2, text);
    }
  }

  lemma {:induction false} GetsLevel(buf: seq<u8>, pos: nat, level: PriceLevel)
    requires Stands(buf, pos, I64Bytes(level.price) + I64Bytes(level.qty))
    ensures GetLevel(buf, pos) == Success((level, pos + 16))
  {
    StandsSplit(buf, pos, I64Bytes(level.price), I64Bytes(level.qty));
    GetsI64(buf, pos, level.price);
    GetsI64(buf, pos + 8, level.qty);
  }

  lemma {:induction false} CutOffLevelFails(buf: seq<u8>, pos: nat, level: PriceLevel)
    requires CutOff(buf, pos, I64Bytes(level.price) + I64Bytes(level.qty))
    ensures GetLevel(buf, pos).Failure?
  {
    CutOffSplit(buf, pos, I64Bytes(level.price), I64Bytes(level.qty));
    if |buf| >= pos + 8 {
      GetsI64(buf, pos, level.price);
    }
  }

  lemma {:induction false} LevelsSnoc(levels: seq<PriceLevel>, last: PriceLevel)
    ensures LevelsBytes(levels + [last]) == LevelsBytes(levels) + (I64Bytes(last.price) + I64Bytes(last.qty))
  {
    assert (levels + [last])[..|levels|] == levels;
  }

  lemma {:induction false} LevelsSplit(buf: seq<u8>, pos: nat, front: seq<PriceLevel>, last: PriceLevel)
    requires Stands(buf, pos, LevelsBytes(front + [last]))
    ensures var p := pos + |LevelsBytes(front)|;
            && Stands(buf, pos, LevelsBytes(front)) && Stands(buf, p, I64Bytes(last.price) + I64Bytes(last.qty))
            && pos + |LevelsBytes(front + [last])| == p + 16
  {
    LevelsSnoc(front, last);
    StandsSplit(buf, pos, LevelsBytes(front), I64Bytes(last.price) + I64Bytes(last.qty));
  }

  lemma {:induction false} GetsLevels(buf: seq<u8>, pos: nat, levels: seq<PriceLevel>)
    requires Stands(buf, pos, LevelsBytes(levels))
    ensures GetLevels(buf, pos, |levels|) == Success((levels, pos + |LevelsBytes(levels)|))
  {
    if levels != [] {
      var front, last := levels[..|levels| - 1], levels[|levels| - 1];
      assert levels == front + [last];
      LevelsSplit(buf, pos, front, last);
      var p := pos + |LevelsBytes(front)|;
      GetsLevels(buf, pos, front);
      GetsLevel(buf, p, last);
      OneLevelOn(buf, pos, |front|, front, p, last, p + 16);
    }
  }

  lemma {:induction false} OneLevelOn(buf: seq<u8>, pos: nat, n: nat, front: seq<PriceLevel>, p: nat, last: PriceLevel,
                                      q: nat)
    requires GetLevels(buf, pos, n) == Success((front, p)) && GetLevel(buf, p) == Success((last, q))
    ensures GetLevels(buf, pos, n + 1) == Success((front + [last], q))
  {
  }

  lemma {:induction false} CutOffLevelsFail(buf: seq<u8>, pos: nat, levels: seq<PriceLevel>)
    requires CutOff(buf, pos, LevelsBytes(levels))
    ensures GetLevels(buf, pos, |levels|).Failure?
  {
    if levels != [] {
      var front, last := levels[..|levels| - 1], levels[|levels| - 1];
      assert levels == front + [last];
      LevelsSnoc(front, last);
      CutOffSplit(buf, pos, LevelsBytes(front), I64Bytes(last.price) + I64Bytes(last.qty));
      if |buf| < pos + |LevelsBytes(front)| {
        CutOffLevelsFail(buf, pos, front);
      } else {
        GetsLevels(buf, pos, front);
        CutOffLevelFails(buf, pos + |LevelsBytes(front)|, last);
      }
    }
  }

  lemma {:induction false} LevelsFollow(buf: seq<u8>, pos: nat, count: u32, p: nat)
    requires GetLe(buf, pos, 4) == Success((count, p))
    ensures GetCountedLevels(buf, pos) == GetLevels(buf, p, count)
  {
  }

  lemma {:induction false} GetsCountedLevels(buf: seq<u8>, pos: nat, levels: seq<PriceLevel>)
    requires |levels| <= 0xffff_ffff && Stands(buf, pos, Le(|levels|, 4) + LevelsBytes(levels))
    ensures GetCountedLevels(buf, pos) == Success((levels, pos + 4 + |LevelsBytes(levels)|))
  {
    Widths();
    PrefixReads(buf, pos, |levels|, 4, LevelsBytes(levels));
    GetsLevels(buf, pos + 4, levels);
    LevelsFollow(buf, pos, |levels|, pos + 4);
  }

  lemma {:induction false} CutOffCountedLevelsFail(buf: seq<u8>, pos: nat, levels: seq<PriceLevel>)
    requires |levels| <= 0xffff_ffff && CutOff(buf, pos, Le(|levels|, 4) + LevelsBytes(levels))
    ensures GetCountedLevels(buf, pos).Failure?
  {
    Widths();
    CutOffPrefix(buf, pos, |levels|, 4, LevelsBytes(levels));
    if |buf| < pos + 4 {
      assert GetLe(buf, pos, 4).Failure?;
    } else {
      CutOffLevelsFail(buf, pos + 4, levels);
      LevelsFollow(buf, pos, |levels|, pos + 4);
    }
  }

  predicate OneByte(v: Value) {
    v.U8Value? || v.BoolValue? || v.SideValue? || v.StateValue? || v.ReasonValue?
  }

  lemma {:induction false} ByteReads(v: Value, buf: seq<u8>, pos: nat)
    requires OneByte(v) && Stands(buf, pos, Bytes(v))
    ensures GetValue(KindOf(v), buf, pos) == Success((v, pos + |Bytes(v)|))
  {
    GetsU8(buf, pos, Bytes(v)[0]);
  }

  // A field that stands complete in the buffer is read back, whatever follows it ...
  lemma {:induction false} ValueReads(v: Value, buf: seq<u8>, pos: nat)
    requires Fits(v) && Stands(buf, pos, Bytes(v))
    ensures GetValue(KindOf(v), buf, pos) == Success((v, pos + |Bytes(v)|))
  {
    Widths();
    match v
    case U32Value(x) => GetsLe(buf, pos, x, 4);
    case U64Value(x) => GetsLe(buf, pos, x, 8);
    case I64Value(x) => GetsI64(buf, pos, x);
    case TextValue(text) => GetsText(buf, pos, text);
    case LevelsValue(levels) => GetsCountedLevels(buf, pos, levels);
    case _ => ByteReads(v, buf, pos);
  }

  // ... and one cut short is always noticed.
  lemma {:induction false} CutOffValueFails(v: Value, buf: seq<u8>, pos: nat)
    requires Fits(v) && CutOff(buf, pos, Bytes(v))
    ensures GetValue(KindOf(v), buf, pos).Failure?
  {
    match v
    case TextValue(text) => CutOffTextFails(buf, pos, text);
    case LevelsValue(levels) => CutOffCountedLevelsFail(buf, pos, levels);
    case _ =>
  }

  lemma {:induction false} FieldReadsAt(v: Value, buf: seq<u8>, pos: nat)
    requires Fits(v)
    ensures Stands(buf, pos, Bytes(v)) ==> GetValue(KindOf(v), buf, pos) == Success((v, pos + |Bytes(v)|))
    ensures CutOff(buf, pos, Bytes(v)) ==> GetValue(KindOf(v), buf, pos).Failure?
  {
    if Stands(buf, pos, Bytes(v)) {
      ValueReads(v, buf, pos);
    }
    if CutOff(buf, pos, Bytes(v)) {
      CutOffValueFails(v, buf, pos);
    }
  }

  lemma {:induction false} FieldsAreCodec()
    ensures Codec(Bytes, GetValue, KindOf, Fits)
  {
    forall v | Fits(v)
      ensures ReadsBack(Bytes, GetValue, KindOf, v)
    {
      FieldReadsBack(Bytes, GetValue, KindOf, v);
    }
  }

  // With the codec's functions behind names of their own.
  lemma {:induction false} FieldReadsBack(bytes: Value -> seq<u8>, get: Getter<Kind, Value>, kindOf: Value -> Kind,
                                          v: Value)
    requires Fits(v) && bytes == Bytes && get == GetValue && kindOf == KindOf
    ensures ReadsBack(bytes, get, kindOf, v)
  {
    forall buf, pos: nat
      ensures Stands(buf, pos, bytes(v)) ==> get(kindOf(v), buf, pos) == Success((v, pos + |bytes(v)|))
      ensures CutOff(buf, pos, bytes(v)) ==> get(kindOf(v), buf, pos).Failure?
    {
      FieldReadsAt(v, buf, pos);
    }
  }
}
