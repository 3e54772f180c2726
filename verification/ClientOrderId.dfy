/** Client order ids: `cc-{instance:04x}-{counter:016x}`, as UTF-8 bytes. */
module ClientOrderIds {
  import opened Integers
  import opened Utf8
  import opened Wrappers

  const DASH: u8 := 45
  const PLUS: u8 := 43
  const PREFIX: seq<u8> := [99, 99]

  // --- Hexadecimal numerals --------------------------------------------------

  function HexDigit(d: nat): (c: u8)
    requires d < 16
  {
    if d < 10 then 48 + d else 87 + d
  }

  // Either case is accepted when parsing.
  function DigitValue(c: u8): Option<nat> {
    if 48 <= c <= 57 then Some(c - 48)
    else if 97 <= c <= 102 then Some(c - 87)
    else if 65 <= c <= 70 then Some(c - 55)
    else None
  }

  function Hex(n: nat): (s: seq<u8>)
    ensures |s| > 0
  {
    if n < 16 then [HexDigit(n)] else Hex(n / 16) + [HexDigit(n % 16)]
  }

  function Zeros(n: nat): (s: seq<u8>)
    ensures |s| == n
  {
    if n == 0 then [] else [48] + Zeros(n - 1)
  }

  // {:0width x}
  function PaddedHex(n: nat, width: nat): seq<u8> {
    if |Hex(n)| >= width then Hex(n) else Zeros(width - |Hex(n)|) + Hex(n)
  }

  function HexValue(s: seq<u8>): Option<nat> {
    if s == [] then Some(0)
    else
      match (HexValue(s[..|s| - 1]), DigitValue(s[|s| - 1]))
      case (Some(high), Some(low)) => Some(16 * high + low)
      case _ => None
  }

  // from_str_radix(_, 16) for an unsigned type with the given maximum.
  function ParseHex(s: seq<u8>, max: nat): Option<nat> {
    if s == [] || s == [PLUS] then None
    else
      var digits := if s[0] == PLUS then s[1..] else s;
      match HexValue(digits)
      case Some(v) => if v <= max then Some(v) else None
      case None => None
  }

  // --- Generating and parsing ------------------------------------------------

  function Generate(instanceId: u32, counter: u64): seq<u8> {
    PREFIX + [DASH] + PaddedHex(instanceId, 4) + [DASH] + PaddedHex(counter, 16)
  }

  // The part before the first dash, and the part after it if there is one.
  function SplitOnce(s: seq<u8>): (seq<u8>, Option<seq<u8>>) {
    if s == [] then ([], None)
    else if s[0] == DASH then ([], Some(s[1..]))
    else
      var (head, tail) := SplitOnce(s[1..]);
      ([s[0]] + head, tail)
  }

  function ParseCounter(cloid: seq<u8>): Option<u64> {
    match SplitOnce(cloid)
    case (_, None) => None
    case (prefix, Some(rest)) =>
      match SplitOnce(rest)
      case (_, None) => None
      case (_, Some(counter)) => if prefix != PREFIX then None else ParseHex(counter, U64_MAX)
  }

  function ParseInstance(cloid: seq<u8>): Option<u32> {
    match SplitOnce(cloid)
    case (_, None) => None
    case (prefix, Some(rest)) =>
      if prefix != PREFIX then None else ParseHex(SplitOnce(rest).0, 0xffff_ffff)
  }

  class ClientOrderIdGenerator {
    const instanceId: u32
    var counter: u64

    constructor (instanceId: u32)
      ensures this.instanceId == instanceId && counter == 0
    {
      this.instanceId := instanceId;
      counter := 0;
    }

    constructor WithStartAfter(instanceId: u32, lastCounter: u64)
      ensures this.instanceId == instanceId
      ensures counter == if lastCounter == U64_MAX then U64_MAX else lastCounter + 1
    {
      this.instanceId := instanceId;
      counter := if lastCounter == U64_MAX then U64_MAX else lastCounter + 1;
    }

    method Next() returns (cloid: Str)
      modifies this
      ensures cloid == Generate(instanceId, old(counter)) && 24 <= |cloid| <= 28
      ensures counter == WrapU64(old(counter) + 1)
    {
      GeneratedIsShortAscii(instanceId, counter);
      cloid := Generate(instanceId, counter);
      counter := WrapU64(counter + 1);
    }
  }

  // --- Fixed-width numerals --------------------------------------------------

  function Pow16(n: nat): (p: nat)
    ensures p > 0
  {
    if n == 0 then 1 else 16 * Pow16(n - 1)
  }

  // Exactly `width` digits.
  function FixedHex(n: nat, width: nat): (s: seq<u8>)
    ensures |s| == width
  {
    if width == 0 then [] else FixedHex(n / 16, width - 1) + [HexDigit(n % 16)]
  }

  lemma {:induction false} FixedHexOfZero(width: nat)
    ensures FixedHex(0, width) == Zeros(width)
  {
    if width > 0 {
      FixedHexOfZero(width - 1);
      ZerosSnoc(width - 1);
    }
  }

  lemma {:induction false} ZerosSnoc(n: nat)
    ensures Zeros(n + 1) == Zeros(n) + [48]
  {
    if n > 0 {
      ZerosSnoc(n - 1);
    }
  }

  lemma {:induction false} HexLength(n: nat, width: nat)
    requires n < Pow16(width) && width > 0
    ensures |Hex(n)| <= width
  {
    if n >= 16 {
      HexLength(n / 16, width - 1);
    }
  }

  lemma {:induction false} PaddedIsFixed(n: nat, width: nat)
    requires n < Pow16(width) && width > 0
    ensures PaddedHex(n, width) == FixedHex(n, width)
  {
    HexLength(n, width);
    if n < 16 {
      FixedHexOfZero(width - 1);
      assert n / 16 == 0;
    } else {
      PaddedIsFixed(n / 16, width - 1);
      HexLength(n / 16, width - 1);
      assert PaddedHex(n, width) == PaddedHex(n / 16, width - 1) + [HexDigit(n % 16)];
    }
  }

  lemma {:induction false} Pow16Values()
    ensures Pow16(4) == 0x1_0000 && Pow16(8) == 0x1_0000_0000 && Pow16(16) == TWO_64
  {
    assert Pow16(2) == 256;
    assert Pow16(6) == 0x100_0000;
    assert Pow16(10) == 0x100_0000_0000;
    assert Pow16(12) == 0x1_0000_0000_0000;
    assert Pow16(14) == 0x100_0000_0000_0000;
  }

  // --- Parsing inverts generating --------------------------------------------

  lemma {:induction false} HexHasNoMarks(n: nat)
    ensures DASH !in Hex(n) && PLUS !in Hex(n) && forall c | c in Hex(n) :: c < 0x80
  {
    if n >= 16 {
      HexHasNoMarks(n / 16);
    }
  }

  lemma {:induction false} ZerosHaveNoMarks(n: nat)
    ensures DASH !in Zeros(n) && PLUS !in Zeros(n) && forall c | c in Zeros(n) :: c < 0x80
  {
    if n > 0 {
      ZerosHaveNoMarks(n - 1);
    }
  }

  lemma {:induction false} PaddedHasNoMarks(n: nat, width: nat)
    ensures |PaddedHex(n, width)| > 0
    ensures DASH !in PaddedHex(n, width) && PLUS !in PaddedHex(n, width)
    ensures forall c | c in PaddedHex(n, width) :: c < 0x80
  {
    HexHasNoMarks(n);
    if |Hex(n)| < width {
      ZerosHaveNoMarks(width - |Hex(n)|);
    }
  }

  lemma {:induction false} HexValueOfHex(n: nat)
    ensures HexValue(Hex(n)) == Some(n)
  {
    if n >= 16 {
      HexValueOfHex(n / 16);
      assert Hex(n)[..|Hex(n)| - 1] == Hex(n / 16);
    } else {
      assert Hex(n)[..0] == [];
    }
  }

  lemma {:induction false} LeadingZeros(k: nat, s: seq<u8>)
    ensures HexValue(Zeros(k) + s) == HexValue(s)
    decreases k + |s|
  {
    if s == [] {
      assert Zeros(k) + s == Zeros(k);
      if k > 0 {
        LeadingZeros(k - 1, []);
        assert Zeros(k - 1) + [] == Zeros(k - 1);
        ZerosSnoc(k - 1);
        assert Zeros(k)[..k - 1] == Zeros(k - 1);
      }
    } else {
      LeadingZeros(k, s[..|s| - 1]);
      assert (Zeros(k) + s)[..k + |s| - 1] == Zeros(k) + s[..|s| - 1];
    }
  }

  lemma {:induction false} ParseHexOfPadded(n: nat, width: nat, max: nat)
    requires n <= max
    ensures ParseHex(PaddedHex(n, width), max) == Some(n)
  {
    PaddedHasNoMarks(n, width);
    HexValueOfHex(n);
    if |Hex(n)| < width {
      LeadingZeros(width - |Hex(n)|, Hex(n));
    }
  }

  lemma {:induction false} SplitAtFirstDash(head: seq<u8>, tail: seq<u8>)
    requires DASH !in head
    ensures SplitOnce(head + [DASH] + tail) == (head, Some(tail))
  {
    var s := head + [DASH] + tail;
    if head == [] {
      assert s[1..] == tail;
    } else {
      SplitAtFirstDash(head[1..], tail);
      assert s[1..] == head[1..] + [DASH] + tail;
      assert head == [s[0]] + head[1..];
    }
  }

  lemma {:induction false} ParseInvertsGenerate(instanceId: u32, counter: u64)
    ensures ParseCounter(Generate(instanceId, counter)) == Some(counter)
    ensures ParseInstance(Generate(instanceId, counter)) == Some(instanceId)
  {
    var inst, ctr := PaddedHex(instanceId, 4), PaddedHex(counter, 16);
    PaddedHasNoMarks(instanceId, 4);
    assert Generate(instanceId, counter) == PREFIX + [DASH] + (inst + [DASH] + ctr);
    SplitAtFirstDash(PREFIX, inst + [DASH] + ctr);
    SplitAtFirstDash(inst, ctr);
    ParseHexOfPadded(instanceId, 4, 0xffff_ffff);
    ParseHexOfPadded(counter, 16, U64_MAX);
  }

  lemma {:induction false} GenerateIsInjective(i: u32, c: u64, j: u32, d: u64)
    requires Generate(i, c) == Generate(j, d)
    ensures i == j && c == d
  {
    ParseInvertsGenerate(i, c);
    ParseInvertsGenerate(j, d);
  }

  lemma {:induction false} GeneratedIsShortAscii(instanceId: u32, counter: u64)
    ensures 24 <= |Generate(instanceId, counter)| <= 28 && ValidUtf8(Generate(instanceId, counter))
  {
    PaddedHasNoMarks(instanceId, 4);
    PaddedHasNoMarks(counter, 16);
    Pow16Values();
    HexLength(instanceId, 8);
    HexLength(counter, 16);
    var id := Generate(instanceId, counter);
    forall i | 0 <= i < |id|
      ensures id[i] < 0x80
    {
      assert id[i] in PREFIX + [DASH] || id[i] in PaddedHex(instanceId, 4) || id[i] in PaddedHex(counter, 16);
    }
    AsciiIsUtf8(Generate(instanceId, counter));
  }

  // --- String order ----------------------------------------------------------

  // Byte-wise lexicographic order, which is Rust's order on strings.
  predicate Less(a: seq<u8>, b: seq<u8>) {
    b != [] && (a == [] || a[0] < b[0] || (a[0] == b[0] && Less(a[1..], b[1..])))
  }

  lemma {:induction false} LessWithCommonPrefix(p: seq<u8>, a: seq<u8>, b: seq<u8>)
    ensures Less(p + a, p + b) <==> Less(a, b)
  {
    if p == [] {
      assert p + a == a && p + b == b;
    } else {
      LessWithCommonPrefix(p[1..], a, b);
      assert (p + a)[1..] == p[1..] + a && (p + b)[1..] == p[1..] + b;
    }
  }

  lemma {:induction false} LessIsDecidedByHeads(p: seq<u8>, q: seq<u8>, a: seq<u8>, b: seq<u8>)
    requires |p| == |q| && p != q
    ensures Less(p + a, q + b) <==> Less(p, q)
  {
    assert (p + a)[1..] == p[1..] + a && (q + b)[1..] == q[1..] + b;
    if p[0] == q[0] {
      LessIsDecidedByHeads(p[1..], q[1..], a, b);
    }
  }

  lemma {:induction false} FixedHexOrder(m: nat, n: nat, width: nat)
    requires m < Pow16(width) && n < Pow16(width)
    ensures Less(FixedHex(m, width), FixedHex(n, width)) <==> m < n
    ensures FixedHex(m, width) == FixedHex(n, width) ==> m == n
  {
    if width > 0 {
      FixedHexOrder(m / 16, n / 16, width - 1);
      var p, q := FixedHex(m / 16, width - 1), FixedHex(n / 16, width - 1);
      var x, y := [HexDigit(m % 16)], [HexDigit(n % 16)];
      if p == q {
        LessWithCommonPrefix(p, x, y);
      } else {
        LessIsDecidedByHeads(p, q, x, y);
      }
      assert FixedHex(m, width)[..width - 1] == p && FixedHex(n, width)[..width - 1] == q;
    }
  }

  lemma {:induction false} PairOrder(p: seq<u8>, q: seq<u8>, x: seq<u8>, y: seq<u8>)
    requires |p| == |q|
    ensures Less(p + x, q + y) <==> if p == q then Less(x, y) else Less(p, q)
  {
    if p == q {
      LessWithCommonPrefix(p, x, y);
    } else {
      LessIsDecidedByHeads(p, q, x, y);
    }
  }

  lemma {:induction false} PaddedOrder(m: nat, n: nat, width: nat)
    requires (width == 4 && m <= 0xffff && n <= 0xffff) || (width == 16 && m <= U64_MAX && n <= U64_MAX)
    ensures |PaddedHex(m, width)| == |PaddedHex(n, width)|
    ensures Less(PaddedHex(m, width), PaddedHex(n, width)) <==> m < n
    ensures PaddedHex(m, width) == PaddedHex(n, width) <==> m == n
  {
    Pow16Values();
    PaddedIsFixed(m, width);
    PaddedIsFixed(n, width);
    FixedHexOrder(m, n, width);
  }

  // --- When string order is (instance, counter) order ------------------------

  // How many digits an instance is printed with.
  function Width(instanceId: u32): (w: nat)
    ensures w >= 4
  {
    if |Hex(instanceId)| >= 4 then |Hex(instanceId)| else 4
  }

  lemma {:induction false} HexIsFixed(n: nat)
    ensures n < Pow16(|Hex(n)|) && Hex(n) == FixedHex(n, |Hex(n)|)
  {
    if n >= 16 {
      HexIsFixed(n / 16);
    } else {
      assert Pow16(1) == 16 && FixedHex(n, 1) == FixedHex(n / 16, 0) + [HexDigit(n)];
    }
  }

  lemma {:induction false} InstanceIsFixed(i: u32)
    ensures i < Pow16(Width(i)) && PaddedHex(i, 4) == FixedHex(i, Width(i))
  {
    HexIsFixed(i);
    if |Hex(i)| < 4 {
      Pow16Grows(|Hex(i)|, 4);
      PaddedIsFixed(i, 4);
    }
  }

  lemma {:induction false} Pow16Grows(m: nat, n: nat)
    requires m <= n
    ensures Pow16(m) <= Pow16(n)
  {
    if m < n {
      Pow16Grows(m, n - 1);
    }
  }

  lemma {:induction false} WidthGrows(i: u32, j: u32)
    requires i <= j
    ensures Width(i) <= Width(j)
  {
    InstanceIsFixed(j);
    HexLength(i, Width(j));
  }

  lemma {:induction false} FixedHexDigits(n: nat, width: nat, k: nat)
    requires k < width
    ensures FixedHex(n, width)[k] >= 48
  {
    if k < width - 1 {
      FixedHexDigits(n / 16, width - 1, k);
    }
  }

  // The digit k places from the end.
  lemma {:induction false} DigitAt(n: nat, width: nat, k: nat)
    requires k < width
    ensures FixedHex(n, width)[width - 1 - k] == HexDigit(n / Pow16(k) % 16)
  {
    if k > 0 {
      DigitAt(n / 16, width - 1, k - 1);
      QuotientInSteps(n, Pow16(k - 1));
    }
  }

  // Lower-case digits, in the order 0 to 9 and a to f.
  lemma {:induction false} DigitsAre(d: nat)
    requires d < 16
    ensures d < 10 ==> HexDigit(d) == 48 + d
    ensures d >= 10 ==> HexDigit(d) == 97 + (d - 10)
  {
  }

  // An id byte for byte: "cc-", the instance in at least four digits, a dash, the counter in sixteen.
  lemma {:induction false} IdStands(instanceId: u32, counter: u64, k: nat)
    ensures var id, w := Generate(instanceId, counter), Width(instanceId);
            && |id| == 20 + w && id[0] == id[1] == 99 && id[2] == id[3 + w] == 45
            && (k < w ==> id[2 + w - k] == HexDigit(instanceId / Pow16(k) % 16))
            && (k < 16 ==> id[19 + w - k] == HexDigit(counter / Pow16(k) % 16))
  {
    var w := Width(instanceId);
    InstanceIsFixed(instanceId);
    Pow16Values();
    PaddedIsFixed(counter, 16);
    if k < w {
      DigitAt(instanceId, w, k);
    }
    if k < 16 {
      DigitAt(counter, 16, k);
    }
    PlacesInId(FixedHex(instanceId, w), FixedHex(counter, 16));
  }

  lemma {:induction false} PlacesInId(a: seq<u8>, b: seq<u8>)
    ensures var id := PREFIX + [DASH] + a + [DASH] + b;
            && |id| == 4 + |a| + |b| && id[0] == id[1] == 99 && id[2] == id[3 + |a|] == 45
            && (forall i | 0 <= i < |a| :: id[3 + i] == a[i])
            && (forall i | 0 <= i < |b| :: id[4 + |a| + i] == b[i])
  {
  }

  // The width is four digits, or as many as the instance has.
  lemma {:induction false} WidthIff(instanceId: u32, w: nat)
    requires w > 4
    ensures Width(instanceId) == w <==> Pow16(w - 1) <= instanceId < Pow16(w)
  {
    HexIsFixed(instanceId);
    HexIsLeast(instanceId);
    if Pow16(w - 1) <= instanceId < Pow16(w) {
      HexLength(instanceId, w);
      if |Hex(instanceId)| < w {
        Pow16Grows(|Hex(instanceId)|, w - 1);
      }
    }
  }

  lemma {:induction false} HexIsLeast(n: nat)
    ensures |Hex(n)| > 1 ==> n >= Pow16(|Hex(n)| - 1)
  {
    if n >= 16 {
      HexIsLeast(n / 16);
    }
  }

  // A number without its last d hexadecimal digits.
  function Cut(n: nat, d: nat): nat {
    if d == 0 then n else Cut(n / 16, d - 1)
  }

  lemma {:induction false} CutIsQuotient(n: nat, d: nat)
    ensures Cut(n, d) == n / Pow16(d)
  {
    if d > 0 {
      CutIsQuotient(n / 16, d - 1);
      QuotientInSteps(n, Pow16(d - 1));
    }
  }

  lemma {:induction false} QuotientInSteps(n: nat, q: nat)
    requires q > 0
    ensures (n / 16) / q == n / (16 * q)
  {
    var k, r := (n / 16) / q, (n / 16) % q;
    SixteenTimes(k, q);
    assert n == k * (16 * q) + (16 * r + n % 16);
    QuotientIs(k, 16 * q, 16 * r + n % 16);
  }

  lemma {:induction false} SixteenTimes(a: nat, b: nat)
    ensures 16 * (a * b) == a * (16 * b)
  {
  }

  // The first digits of a numeral are the numeral of the number without the rest.
  lemma {:induction false} FirstDigits(n: nat, w: nat, d: nat)
    requires n < Pow16(w + d)
    ensures Cut(n, d) < Pow16(w) && FixedHex(n, w + d)[..w] == FixedHex(Cut(n, d), w)
  {
    if d == 0 {
      assert FixedHex(n, w)[..w] == FixedHex(n, w);
    } else {
      FirstDigits(n / 16, w, d - 1);
      assert FixedHex(n, w + d)[..w] == FixedHex(n / 16, w + d - 1)[..w];
    }
  }

  // After the counter's dash comes no further digit, and a dash sorts below every digit.
  lemma {:induction false} DashSortsFirst(x: seq<u8>, t: seq<u8>, y: seq<u8>)
    requires forall k | 0 <= k < |t| :: t[k] >= 48
    ensures t != [] ==> Less([DASH] + x, t + ([DASH] + y))
  {
  }

  lemma {:induction false} HeadedOrder(h: seq<u8>, p: seq<u8>, u: seq<u8>, q: seq<u8>, v: seq<u8>)
    requires |p| == |q|
    ensures Less(h + (p + u), h + (q + v)) <==> if p == q then Less(u, v) else Less(p, q)
  {
    LessWithCommonPrefix(h, p + u, q + v);
    PairOrder(p, q, u, v);
  }

  lemma {:induction false} GeneratedInParts(i: u32, c: u64, w: nat)
    requires w <= |PaddedHex(i, 4)|
    ensures Generate(i, c) == (PREFIX + [DASH])
                              + (PaddedHex(i, 4)[..w] + (PaddedHex(i, 4)[w..] + ([DASH] + PaddedHex(c, 16))))
  {
  }

  lemma {:induction false} DigitsBeyond(j: u32, w: nat)
    requires w <= Width(j)
    ensures |PaddedHex(j, 4)| == Width(j) && forall k | w <= k < Width(j) :: PaddedHex(j, 4)[k] >= 48
  {
    InstanceIsFixed(j);
    forall k | w <= k < Width(j)
      ensures PaddedHex(j, 4)[k] >= 48
    {
      FixedHexDigits(j, Width(j), k);
    }
  }

  // The first digits of one instance, compared with all of another one's.
  lemma {:induction false} InstanceCutOrder(i: u32, j: u32)
    requires Width(i) <= Width(j)
    ensures |PaddedHex(i, 4)| == Width(i) && |PaddedHex(j, 4)| == Width(j)
    ensures var p, q, cut := PaddedHex(i, 4), PaddedHex(j, 4)[..Width(i)], Cut(j, Width(j) - Width(i));
            (p == q <==> i == cut) && (Less(p, q) <==> i < cut)
  {
    InstanceIsFixed(i);
    InstanceIsFixed(j);
    FirstDigits(j, Width(i), Width(j) - Width(i));
    FixedHexOrder(i, Cut(j, Width(j) - Width(i)), Width(i));
  }

  // A lower instance sorts before a higher one exactly when it is at most the higher one cut to the
  // lower one's printed width.
  lemma {:induction false} CutWidthDecides(i: u32, c: u64, j: u32, d: u64)
    requires i < j
    ensures Width(i) <= Width(j)
    ensures Less(Generate(i, c), Generate(j, d)) <==> i <= Cut(j, Width(j) - Width(i))
  {
    WidthGrows(i, j);
    DigitsBeyond(j, Width(i));
    InstanceCutOrder(i, j);
    var w, x, y := Width(i), PaddedHex(c, 16), PaddedHex(d, 16);
    var p, q, t := PaddedHex(i, 4), PaddedHex(j, 4)[..w], PaddedHex(j, 4)[w..];
    GeneratedInParts(i, c, w);
    GeneratedInParts(j, d, w);
    assert p[..w] == p && p[w..] == [] && [] + ([DASH] + x) == [DASH] + x;
    HeadedOrder(PREFIX + [DASH], p, [DASH] + x, q, t + ([DASH] + y));
    DashSortsFirst(x, t, y);
  }

  // Byte order is a strict total order.
  lemma {:induction false} LessIsTotal(a: seq<u8>, b: seq<u8>)
    ensures a != b ==> (Less(a, b) <==> !Less(b, a))
    ensures a == b ==> !Less(a, b)
  {
    if a != [] && b != [] {
      LessIsTotal(a[1..], b[1..]);
      assert a == [a[0]] + a[1..] && b == [b[0]] + b[1..];
    }
  }

  lemma {:induction false} SameInstanceOrder(i: u32, c: u64, d: u64)
    ensures Less(Generate(i, c), Generate(i, d)) <==> c < d
  {
    var p, x, y := PaddedHex(i, 4), PaddedHex(c, 16), PaddedHex(d, 16);
    PaddedOrder(c, d, 16);
    assert Generate(i, c) == (PREFIX + [DASH] + p + [DASH]) + x;
    assert Generate(i, d) == (PREFIX + [DASH] + p + [DASH]) + y;
    LessWithCommonPrefix(PREFIX + [DASH] + p + [DASH], x, y);
  }

  predicate Sorts(i: u32, c: u64, j: u32, d: u64) {
    Less(Generate(i, c), Generate(j, d)) <==> i < j || (i == j && c < d)
  }

  // The lower instance is at most the higher one cut to its width: always so at equal widths, and
  // otherwise a quotient by a power of sixteen.
  predicate KeepsOrder(i: u32, j: u32)
    requires i <= j
  {
    WidthGrows(i, j);
    i <= Cut(j, Width(j) - Width(i))
  }

  // Two ids sort as strings by instance, then counter, exactly when their instances keep order.
  lemma {:induction false} SortsIff(i: u32, c: u64, j: u32, d: u64)
    ensures Sorts(i, c, j, d) <==> if i <= j then KeepsOrder(i, j) else KeepsOrder(j, i)
  {
    if i < j {
      CutWidthDecides(i, c, j, d);
    } else if j < i {
      CutWidthDecides(j, d, i, c);
      LessIsTotal(Generate(i, c), Generate(j, d));
      if Generate(i, c) == Generate(j, d) {
        GenerateIsInjective(i, c, j, d);
      }
    } else {
      SameInstanceOrder(i, c, d);
    }
  }

  lemma {:induction false} EqualWidthsKeepOrder(i: u32, j: u32)
    requires i <= j && Width(i) == Width(j)
    ensures KeepsOrder(i, j)
  {
  }

  // For instance ids of at most 16 bits, ids sort as strings exactly by (instance, counter).
  lemma {:induction false} StringOrderIsCounterOrder(i: u32, c: u64, j: u32, d: u64)
    requires i <= 0xffff && j <= 0xffff
    ensures Sorts(i, c, j, d)
  {
    Pow16Values();
    HexLength(i, 4);
    HexLength(j, 4);
    SortsIff(i, c, j, d);
    if i <= j {
      EqualWidthsKeepOrder(i, j);
    } else {
      EqualWidthsKeepOrder(j, i);
    }
  }

  // And sixteen bits is the largest bound under which all ids do.
  lemma {:induction false} AllSortIff(bound: u32)
    ensures (forall i: u32, c: u64, j: u32, d: u64 | i <= bound && j <= bound :: Sorts(i, c, j, d))
       <==> bound <= 0xffff
  {
    if bound <= 0xffff {
      forall i: u32, c: u64, j: u32, d: u64 | i <= bound && j <= bound
        ensures Sorts(i, c, j, d)
      {
        StringOrderIsCounterOrder(i, c, j, d);
      }
    } else {
      FiveDigitsBreakOrder();
      SortsIff(0x1001, 0, 0x1_0000, 0);
      assert !Sorts(0x1001, 0, 0x1_0000, 0);
    }
  }

  lemma {:induction false} FiveDigitsBreakOrder()
    ensures !KeepsOrder(0x1001, 0x1_0000)
  {
    assert Pow16(3) == 0x1000 && Pow16(4) == 0x1_0000 && Pow16(5) == 0x10_0000;
    HexWidth(0x1001, 4);
    HexWidth(0x1_0000, 5);
    assert Cut(0x1_0000, 1) == 0x1000;
  }

  lemma {:induction false} HexWidth(n: nat, width: nat)
    requires width > 0 && Pow16(width - 1) <= n < Pow16(width)
    ensures |Hex(n)| == width
  {
    if width == 1 {
      assert Pow16(1) == 16;
    } else {
      assert Pow16(width) == 16 * Pow16(width - 1) && Pow16(width - 1) == 16 * Pow16(width - 2);
      HexWidth(n / 16, width - 1);
    }
  }
}
