/**
 * Decimal prices on their three paths: decimal strings from JSON, mantissas with eight decimals
 * from SBE, and the eight-decimal column of the database. Text is ASCII.
 */
module Decimals {
  import opened Integers
  import opened Wrappers

  const SCALE: nat := 8

  function Pow10(n: nat): (p: nat)
    ensures p > 0
  {
    if n == 0 then 1 else 10 * Pow10(n - 1)
  }

  // Rust's integer division rounds toward zero.
  function TruncDiv(a: int, b: int): int
    requires b > 0
  {
    if a >= 0 then a / b else -((-a) / b)
  }

  // --- SBE and the database --------------------------------------------------

  function ToScaled(mantissa: i64, targetScale: u32): i64 {
    if targetScale == SCALE then mantissa
    else if targetScale < SCALE then
      TruncInRange(mantissa, Pow10(SCALE - targetScale));
      TruncDiv(mantissa, Pow10(SCALE - targetScale))
    else WrapI64(mantissa * Pow10(targetScale - SCALE))
  }

  // Beyond scale 26 the divisor no longer fits its integer type.
  function ToD8(mantissa: i64, scale: u8): i64
    requires scale <= 26
  {
    if scale == SCALE then mantissa
    else if scale < SCALE then WrapI64(mantissa * Pow10(SCALE - scale))
    else
      TruncInRange(mantissa, Pow10(scale - SCALE));
      TruncDiv(mantissa, Pow10(scale - SCALE))
  }

  lemma {:induction false} TruncInRange(a: i64, b: int)
    requires b > 0
    ensures I64_MIN <= TruncDiv(a, b) <= I64_MAX
  {
    Shrinks(if a >= 0 then a else 0 - a, b);
  }

  lemma {:induction false} Shrinks(a: nat, b: int)
    requires b > 0
    ensures 0 <= a / b <= a
  {
    MultiplesGrow(0, b, a / b);
  }

  // --- Decimal strings -------------------------------------------------------

  type Text = seq<u8>

  const DOT: u8 := 46
  const PLUS: u8 := 43
  const MINUS: u8 := 45

  predicate IsSpace(c: u8) {
    9 <= c <= 13 || c == 32
  }

  predicate IsDigit(c: u8) {
    48 <= c <= 57
  }

  predicate Digits(s: Text) {
    forall i | 0 <= i < |s| :: IsDigit(s[i])
  }

  function Value(s: Text): nat
    requires Digits(s)
  {
    if s == [] then 0 else Value(s[..|s| - 1]) * 10 + (s[|s| - 1] - 48)
  }

  function Trim(s: Text): Text
    decreases |s|
  {
    if s == [] then []
    else if IsSpace(s[0]) then Trim(s[1..])
    else if IsSpace(s[|s| - 1]) then Trim(s[..|s| - 1])
    else s
  }

  // Before the first dot, and after it if there is one.
  function SplitDot(s: Text): (Text, Text) {
    if s == [] then ([], [])
    else if s[0] == DOT then ([], s[1..])
    else var (head, tail) := SplitDot(s[1..]); ([s[0]] + head, tail)
  }

  // str::parse::<i64>
  function ParseI64(s: Text): Option<i64> {
    if s == [] then None
    else
      var signed := s[0] == PLUS || s[0] == MINUS;
      var digits := if signed then s[1..] else s;
      if digits == [] || !Digits(digits) then None
      else
        var v := if s[0] == MINUS then 0 - Value(digits) else Value(digits);
        if I64_MIN <= v <= I64_MAX then Some(v) else None
  }

  function Zeros(n: nat): (s: Text)
    ensures |s| == n && Digits(s)
  {
    if n == 0 then [] else Zeros(n - 1) + [48]
  }

  // Padded on the right with zeros to at least n characters, of which the first n are kept.
  function FirstPadded(s: Text, n: nat): (r: Text)
    ensures |r| == n
  {
    if |s| >= n then s[..n] else s + Zeros(n - |s|)
  }

  function ParsePart(s: Text, absent: bool): Option<i64> {
    if absent then Some(0) else ParseI64(s)
  }

  function Combine(intVal: i64, fracVal: i64, scale: u32): i64 {
    WrapI64(intVal * Pow10(scale) + fracVal)
  }

  function ParseScaled(s: Text, scale: u32): Option<i64> {
    var (intPart, fracPart) := SplitDot(Trim(s));
    match (ParsePart(intPart, intPart == []), ParsePart(FirstPadded(fracPart, scale), scale == 0))
    case (Some(intVal), Some(fracVal)) => Some(Combine(intVal, fracVal, scale))
    case _ => None
  }

  // --- Values ----------------------------------------------------------------

  lemma {:induction false} Pow10Adds(m: nat, n: nat)
    ensures Pow10(m + n) == Pow10(m) * Pow10(n)
  {
    if n > 0 {
      Pow10Adds(m, n - 1);
      TenTimes(Pow10(m), Pow10(n - 1));
    }
  }

  lemma {:induction false} TenTimes(a: nat, b: nat)
    ensures 10 * (a * b) == a * (10 * b)
  {
  }

  lemma {:induction false} ValueConcat(a: Text, b: Text)
    requires Digits(a) && Digits(b)
    ensures Digits(a + b) && Value(a + b) == Value(a) * Pow10(|b|) + Value(b)
  {
    if b == [] {
      assert a + b == a;
    } else {
      var front := b[..|b| - 1];
      ValueConcat(a, front);
      assert (a + b)[..|a + b| - 1] == a + front;
      TenTimes(Value(a), Pow10(|front|));
    }
  }

  lemma {:induction false} ValueBound(s: Text)
    requires Digits(s)
    ensures Value(s) < Pow10(|s|)
  {
    if s != [] {
      ValueBound(s[..|s| - 1]);
    }
  }

  lemma {:induction false} ZerosHaveNoValue(n: nat)
    ensures Value(Zeros(n)) == 0
  {
    if n > 0 {
      ZerosHaveNoValue(n - 1);
      assert Zeros(n)[..n - 1] == Zeros(n - 1);
    }
  }

  // The decimals of a number, with the dot or without one when there are none.
  function Tail(f: Text, dotted: bool): Text {
    if dotted then [DOT] + f else f
  }

  lemma {:induction false} SplitAfter(head: Text, rest: Text, f: Text)
    requires DOT !in head && SplitDot(rest) == ([], f)
    ensures SplitDot(head + rest) == (head, f)
  {
    if head == [] {
      assert head + rest == rest;
    } else {
      SplitAfter(head[1..], rest, f);
      assert head[0] in head && (head + rest)[1..] == head[1..] + rest && [head[0]] + head[1..] == head;
    }
  }

  // Neither digits nor a sign are trimmed away or mistaken for the dot.
  lemma {:induction false} SplitsInParts(head: Text, f: Text, dotted: bool)
    requires forall i | 0 <= i < |head| :: IsDigit(head[i]) || head[i] == MINUS
    requires Digits(f) && (dotted || f == [])
    ensures SplitDot(Trim(head + Tail(f, dotted))) == (head, f)
  {
    var s := head + Tail(f, dotted);
    assert forall i | 0 <= i < |s| :: s[i] == MINUS || s[i] == DOT || IsDigit(s[i]);
    assert SplitDot(Tail(f, dotted)) == ([], f);
    SplitAfter(head, Tail(f, dotted), f);
  }

  lemma {:induction false} DigitsParse(s: Text)
    requires Digits(s) && s != []
    ensures ParseI64(s) == if Value(s) <= I64_MAX then Some(Value(s)) else None
  {
    assert IsDigit(s[0]);
  }

  lemma {:induction false} PaddedAreDigits(f: Text, n: nat)
    requires Digits(f)
    ensures Digits(FirstPadded(f, n))
  {
  }

  // The two parts are read on their own, each as an i64.
  function PartsGive(v: int, w: nat, scale: u32): Option<i64> {
    if I64_MIN <= v <= I64_MAX && w <= I64_MAX then Some(Combine(v, w, scale)) else None
  }

  lemma {:induction false} PartsRead(a: Text, f: Text, dotted: bool, scale: u32)
    requires Digits(a) && Digits(f) && (dotted || f == []) && Digits(FirstPadded(f, scale))
    ensures ParseScaled(a + Tail(f, dotted), scale) == PartsGive(Value(a), Value(FirstPadded(f, scale)), scale)
  {
    SplitsInParts(a, f, dotted);
    if a != [] {
      DigitsParse(a);
    }
    if scale > 0 {
      DigitsParse(FirstPadded(f, scale));
    }
  }

  lemma {:induction false} CombinesExactly(v: nat, w: nat, scale: u32)
    requires v * Pow10(scale) + w <= I64_MAX
    ensures v <= I64_MAX && w <= I64_MAX && Combine(v, w, scale) == v * Pow10(scale) + w
  {
    PartsFit(v, Pow10(scale), w);
    WrapInRange(v * Pow10(scale) + w);
  }

  lemma {:induction false} PartsFit(v: nat, pow: nat, p: nat)
    requires pow > 0
    ensures v <= v * pow + p && p <= v * pow + p
  {
  }

  lemma {:induction false} CombinedValue(a: Text, p: Text, scale: u32)
    requires Digits(a) && Digits(p) && |p| == scale && Digits(a + p) && Value(a + p) <= I64_MAX
    ensures Value(a) <= I64_MAX && Value(p) <= I64_MAX && Combine(Value(a), Value(p), scale) == Value(a + p)
  {
    ValueConcat(a, p);
    CombinesExactly(Value(a), Value(p), scale);
  }

  // A parse gives the number n, whatever its size.
  predicate Reads(r: Option<i64>, n: int) {
    r.Some? && r.value == n
  }

  // A digit string, with a dot or without, is read as the digits of its integer part followed by
  // exactly `scale` decimals, exactly when that number fits.
  lemma {:induction false} DecimalReadsIff(a: Text, f: Text, dotted: bool, scale: u32)
    requires Digits(a) && Digits(f) && (dotted || f == []) && Digits(a + FirstPadded(f, scale))
    ensures Reads(ParseScaled(a + Tail(f, dotted), scale), Value(a + FirstPadded(f, scale)))
       <==> Value(a + FirstPadded(f, scale)) <= I64_MAX
  {
    PaddedAreDigits(f, scale);
    if Value(a + FirstPadded(f, scale)) <= I64_MAX {
      CombinedValue(a, FirstPadded(f, scale), scale);
      PartsRead(a, f, dotted, scale);
    }
  }

  lemma {:induction false} LongDecimalsAreFloored(a: Text, f: Text, scale: u32)
    requires Digits(a) && Digits(f) && |f| >= scale
    ensures Digits(a + f) && Digits(a + f[..scale])
    ensures Value(a + f[..scale]) == Value(a + f) * Pow10(scale) / Pow10(|f|)
  {
    var kept, cut := a + f[..scale], f[scale..];
    assert a + f == kept + cut;
    ValueConcat(kept, cut);
    ValueBound(cut);
    Pow10Adds(scale, |cut|);
    FloorDropsDigits(Value(kept), Pow10(scale), Pow10(|cut|), Value(cut));
  }

  lemma {:induction false} ShortDecimalsAreExact(a: Text, f: Text, scale: u32)
    requires Digits(a) && Digits(f) && |f| < scale
    ensures Digits(a + f) && Digits(a + (f + Zeros(scale - |f|)))
    ensures Value(a + (f + Zeros(scale - |f|))) == Value(a + f) * Pow10(scale) / Pow10(|f|)
  {
    var more := scale - |f|;
    assert a + (f + Zeros(more)) == (a + f) + Zeros(more);
    ValueConcat(a + f, Zeros(more));
    ZerosHaveNoValue(more);
    Pow10Adds(|f|, more);
    ExactQuotient(Value(a + f), Pow10(more), Pow10(|f|));
  }

  // Which is the decimal number, scaled and rounded down.
  lemma {:induction false} DecimalIsFloored(a: Text, f: Text, scale: u32)
    requires Digits(a) && Digits(f)
    ensures Digits(a + f) && Digits(a + FirstPadded(f, scale))
    ensures Value(a + FirstPadded(f, scale)) == Value(a + f) * Pow10(scale) / Pow10(|f|)
  {
    if |f| >= scale {
      LongDecimalsAreFloored(a, f, scale);
    } else {
      ShortDecimalsAreExact(a, f, scale);
    }
  }

  lemma {:induction false} FloorDropsDigits(kept: nat, p: nat, q: nat, cut: nat)
    requires p > 0 && cut < q
    ensures p * q > 0 && (kept * q + cut) * p / (p * q) == kept
  {
    var r := cut * p;
    assert (kept * q + cut) * p == kept * (p * q) + r;
    assert r < p * q;
    QuotientIs(kept, p * q, r);
  }

  lemma {:induction false} ExactQuotient(v: nat, q: nat, d: nat)
    requires d > 0
    ensures v * (d * q) / d == v * q
  {
    assert v * (d * q) == (v * q) * d + 0;
    QuotientIs(v * q, d, 0);
  }

  // --- Rendering -------------------------------------------------------------

  function FixedDigits(n: nat, width: nat): (s: Text)
    ensures |s| == width && Digits(s)
  {
    if width == 0 then [] else FixedDigits(n / 10, width - 1) + [48 + n % 10]
  }

  function PlainDigits(n: nat): (s: Text)
    ensures Digits(s)
  {
    if n < 10 then [48 + n] else PlainDigits(n / 10) + [48 + n % 10]
  }

  // The exchange's rendering of a mantissa with eight decimals.
  function Render(mantissa: nat): Text {
    PlainDigits(mantissa / 100_000_000) + [DOT] + FixedDigits(mantissa % 100_000_000, 8)
  }

  lemma {:induction false} FixedValue(n: nat, width: nat)
    requires n < Pow10(width)
    ensures Value(FixedDigits(n, width)) == n
  {
    if width > 0 {
      FixedValue(n / 10, width - 1);
      assert FixedDigits(n, width)[..width - 1] == FixedDigits(n / 10, width - 1);
    }
  }

  lemma {:induction false} PlainValue(n: nat)
    ensures Value(PlainDigits(n)) == n
  {
    var s := PlainDigits(n);
    if n < 10 {
      assert s[..0] == [];
    } else {
      PlainValue(n / 10);
      assert s[..|s| - 1] == PlainDigits(n / 10);
    }
  }

  lemma {:induction false} RenderedValue(m: nat)
    ensures var a, f := PlainDigits(m / 100_000_000), FixedDigits(m % 100_000_000, 8);
            Digits(a + f) && Value(a + f) == m
  {
    var a, f := PlainDigits(m / 100_000_000), FixedDigits(m % 100_000_000, 8);
    EighthPower();
    PlainValue(m / 100_000_000);
    FixedValue(m % 100_000_000, 8);
    ValueConcat(a, f);
  }

  lemma {:induction false} EighthPower()
    ensures Pow10(8) == 100_000_000
  {
  }

  lemma {:induction false} Rescaled(m: nat, t: nat)
    requires t <= 8
    ensures m * Pow10(t) / Pow10(8) == m / Pow10(8 - t)
  {
    Pow10Adds(t, 8 - t);
    CommonFactor(m, Pow10(t), Pow10(8 - t));
  }

  lemma {:induction false} CommonFactor(m: nat, p: nat, q: nat)
    requires p > 0 && q > 0
    ensures p * q > 0 && m * p / (p * q) == m / q
  {
    assert m == (m / q) * q + m % q;
    FloorDropsDigits(m / q, p, q, m % q);
  }

  lemma {:induction false} ScalesDown(m: nat, t: u8)
    requires m <= I64_MAX && t <= 8
    ensures ToScaled(m, t) == m / Pow10(8 - t) <= m
    ensures ToD8(ToScaled(m, t), t) == m - m % Pow10(8 - t)
  {
    Shrinks(m, Pow10(8 - t));
    BackUp(m, Pow10(8 - t));
    WrapInRange(m - m % Pow10(8 - t));
  }

  // Downward a negative mantissa loses its digits as a positive one does, toward zero.
  lemma {:induction false} ScalesTowardZero(m: i64, t: nat)
    requires m < 0 && t != 8
    ensures t < 8 ==> ToScaled(m, t) == 0 - (0 - m) / Pow10(8 - t)
    ensures 8 < t <= 26 ==> ToD8(m, t) == 0 - (0 - m) / Pow10(t - 8)
  {
    if t < 8 {
      Shrinks(0 - m, Pow10(8 - t));
    } else {
      Shrinks(0 - m, Pow10(t - 8));
    }
  }

  // Upward the digits are followed by zeros, exactly when the number still fits.
  lemma {:induction false} ScalesUpIff(m: i64, t: u32)
    ensures t > 8 ==> (ToScaled(m, t) == m * Pow10(t - 8) <==> I64_MIN <= m * Pow10(t - 8) <= I64_MAX)
    ensures t < 8 ==> (ToD8(m, t) == m * Pow10(8 - t) <==> I64_MIN <= m * Pow10(8 - t) <= I64_MAX)
    ensures t == 8 ==> ToScaled(m, t) == ToD8(m, t) == m
  {
    if t > 8 {
      WrapsIff(m * Pow10(t - 8));
    } else if t < 8 {
      WrapsIff(m * Pow10(8 - t));
    }
  }

  lemma {:induction false} WrapsIff(x: int)
    ensures WrapI64(x) == x <==> I64_MIN <= x <= I64_MAX
  {
  }

  lemma {:induction false} RenderingParses(m: nat, t: u8)
    requires m <= I64_MAX && t <= 8
    ensures m / Pow10(8 - t) <= I64_MAX && ParseScaled(Render(m), t) == Some(m / Pow10(8 - t))
  {
    var a, f := PlainDigits(m / 100_000_000), FixedDigits(m % 100_000_000, 8);
    assert Render(m) == a + Tail(f, true);
    RenderedValue(m);
    DecimalIsFloored(a, f, t);
    Rescaled(m, t);
    Shrinks(m, Pow10(8 - t));
    DecimalReadsIff(a, f, true, t);
  }

  // JSON and SBE agree: the eight-decimal rendering of a mantissa, parsed to any coarser scale,
  // is the mantissa scaled down, with no overflow; and bringing that back to eight decimals
  // loses exactly the digits below the scale.
  lemma {:induction false} JsonAndSbeAgree(m: nat, t: u8)
    requires m <= I64_MAX && t <= 8
    ensures ParseScaled(Render(m), t) == Some(ToScaled(m, t))
    ensures ToScaled(m, t) == m / Pow10(8 - t)
    ensures ToD8(ToScaled(m, t), t) == m - m % Pow10(8 - t)
  {
    RenderingParses(m, t);
    ScalesDown(m, t);
  }

  lemma {:induction false} BackUp(m: nat, q: nat)
    requires q > 0
    ensures (m / q) * q == m - m % q && 0 <= m - m % q <= m
  {
  }

  lemma {:induction false} NegativeReads(a: Text, f: Text, dotted: bool, scale: u32)
    requires Digits(a) && Digits(f) && (dotted || f == []) && a != [] && Digits(FirstPadded(f, scale))
    ensures ParseScaled([MINUS] + a + Tail(f, dotted), scale)
         == PartsGive(0 - Value(a), Value(FirstPadded(f, scale)), scale)
  {
    SplitsInParts([MINUS] + a, f, dotted);
    NegativeParses(a);
    if scale > 0 {
      DigitsParse(FirstPadded(f, scale));
    }
  }

  lemma {:induction false} LoneSignFails(f: Text, dotted: bool, scale: u32)
    requires Digits(f) && (dotted || f == [])
    ensures ParseScaled([MINUS] + Tail(f, dotted), scale) == None
  {
    SplitsInParts([MINUS], f, dotted);
  }

  lemma {:induction false} CombinesIff(v: nat, w: nat, scale: u32)
    requires 0 - (v * Pow10(scale) + w) >= I64_MIN && 0 - v >= I64_MIN && w <= I64_MAX
    ensures Combine(0 - v, w, scale) == 0 - (v * Pow10(scale) + w) <==> w == 0
  {
    var x := v * Pow10(scale);
    assert (0 - v) * Pow10(scale) == 0 - x;
    WrapInRange(0 - x + w);
  }

  lemma {:induction false} NegativeGivesIff(v: nat, w: nat, scale: u32)
    ensures Reads(PartsGive(0 - v, w, scale), 0 - (v * Pow10(scale) + w))
       <==> w == 0 && 0 - (v * Pow10(scale) + w) >= I64_MIN
  {
    if 0 - (v * Pow10(scale) + w) >= I64_MIN {
      PartsFit(v, Pow10(scale), w);
      if w <= I64_MAX {
        CombinesIff(v, w, scale);
      }
    }
  }

  lemma {:induction false} NegativeWholeIff(a: Text, p: Text, scale: u32)
    requires Digits(a) && Digits(p) && |p| == scale && Digits(a + p)
    ensures Reads(PartsGive(0 - Value(a), Value(p), scale), 0 - Value(a + p))
       <==> Value(p) == 0 && 0 - Value(a + p) >= I64_MIN
  {
    ValueConcat(a, p);
    NegativeGivesIff(Value(a), Value(p), scale);
  }

  // For a negative number the code adds the fraction where it should subtract it, and it insists on
  // an integer digit: the result is the number scaled exactly when there is one, no fractional
  // digit other than zero is kept, and the number fits.
  lemma {:induction false} NegativeScalesIff(a: Text, f: Text, dotted: bool, scale: u32)
    requires Digits(a) && Digits(f) && (dotted || f == []) && Digits(FirstPadded(f, scale))
    requires Digits(a + FirstPadded(f, scale))
    ensures Reads(ParseScaled([MINUS] + a + Tail(f, dotted), scale), 0 - Value(a + FirstPadded(f, scale)))
       <==> a != [] && Value(FirstPadded(f, scale)) == 0 && 0 - Value(a + FirstPadded(f, scale)) >= I64_MIN
  {
    if a == [] {
      assert [MINUS] + a == [MINUS];
      LoneSignFails(f, dotted, scale);
    } else {
      NegativeReads(a, f, dotted, scale);
      NegativeWholeIff(a, FirstPadded(f, scale), scale);
    }
  }

  lemma {:induction false} NegativeParses(a: Text)
    requires Digits(a) && a != []
    ensures ParseI64([MINUS] + a) == if 0 - Value(a) >= I64_MIN then Some(0 - Value(a)) else None
  {
    assert ([MINUS] + a)[1..] == a;
  }
}
