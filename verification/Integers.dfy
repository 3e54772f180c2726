/** Rust's fixed-width integers, their overflow behaviour, and their little-endian byte form. */
module Integers {

  const TWO_64: int := 0x1_0000_0000_0000_0000
  const U64_MAX: int := 0xffff_ffff_ffff_ffff
  const I64_MAX: int := 0x7fff_ffff_ffff_ffff
  const I64_MIN: int := -0x8000_0000_0000_0000

  type u8 = x: int | 0 <= x < 0x100
  type u16 = x: int | 0 <= x < 0x1_0000
  type u32 = x: int | 0 <= x < 0x1_0000_0000
  type u64 = x: int | 0 <= x < 0x1_0000_0000_0000_0000
  type i64 = x: int | -0x8000_0000_0000_0000 <= x < 0x8000_0000_0000_0000

  // Release builds wrap on overflow.
  function WrapU64(x: int): u64 {
    x % 0x1_0000_0000_0000_0000
  }

  lemma {:induction false} SumWraps(total: nat, v: u64)
    ensures WrapU64(WrapU64(total) + v) == WrapU64(total + v)
  {
    ModShift(WrapU64(total) + v, total / 0x1_0000_0000_0000_0000);
  }

  lemma {:induction false} WrapBelow(n: nat)
    ensures n <= U64_MAX ==> WrapU64(n) == n
  {
  }

  function WrapI64(x: int): i64 {
    FromBits(x % 0x1_0000_0000_0000_0000)
  }

  // saturating_sub on i64
  function SaturatingSub(x: i64, y: i64): i64 {
    if x - y > I64_MAX then I64_MAX else if x - y < I64_MIN then I64_MIN else x - y
  }

  // Two's complement: the unsigned value with the same 64 bits, and back.
  function ToBits(x: i64): u64 {
    if x < 0 then x + 0x1_0000_0000_0000_0000 else x
  }

  function FromBits(x: u64): i64 {
    if x < 0x8000_0000_0000_0000 then x else x - 0x1_0000_0000_0000_0000
  }

  lemma {:induction false} WrapInRange(x: int)
    requires I64_MIN <= x <= I64_MAX
    ensures WrapI64(x) == x
  {
  }

  lemma {:induction false} ModShift(x: int, k: int)
    ensures (x + 0x1_0000_0000_0000_0000 * k) % 0x1_0000_0000_0000_0000 == x % 0x1_0000_0000_0000_0000
  {
  }

  lemma {:induction false} MultiplesGrow(a: nat, b: nat, d: nat)
    requires a < b
    ensures a * d + d <= b * d
  {
    if a + 1 < b {
      MultiplesGrow(a, b - 1, d);
    }
    assert b * d == (b - 1) * d + d;
  }

  lemma {:induction false} QuotientIs(k: nat, d: nat, r: nat)
    requires r < d
    ensures (k * d + r) / d == k
  {
    QuotientIsUnique(k, d, r, (k * d + r) / d, (k * d + r) % d);
  }

  lemma {:induction false} QuotientIsUnique(k: nat, d: nat, r: nat, q: nat, s: nat)
    requires r < d && s < d && k * d + r == q * d + s
    ensures q == k
  {
    if q < k {
      MultiplesGrow(q, k, d);
    } else if k < q {
      MultiplesGrow(k, q, d);
    }
  }

  // --- Little-endian bytes ---------------------------------------------------

  function Pow256(n: nat): (p: nat)
    ensures p > 0
  {
    if n == 0 then 1 else 256 * Pow256(n - 1)
  }

  function Le(v: nat, n: nat): (bytes: seq<u8>)
    ensures |bytes| == n
  {
    if n == 0 then [] else [v % 256] + Le(v / 256, n - 1)
  }

  function FromLe(bytes: seq<u8>): (v: nat)
    ensures v < Pow256(|bytes|)
  {
    if bytes == [] then 0 else bytes[0] + 256 * FromLe(bytes[1..])
  }

  function I64Bytes(v: i64): (bytes: seq<u8>)
    ensures |bytes| == 8
  {
    Le(ToBits(v), 8)
  }

  // to_le_bytes followed by from_le_bytes keeps the value's low n bytes.
  lemma {:induction false} LeRoundTrip(v: nat, n: nat)
    requires v < Pow256(n)
    ensures FromLe(Le(v, n)) == v
  {
    if n > 0 {
      LeRoundTrip(v / 256, n - 1);
      assert Le(v, n)[1..] == Le(v / 256, n - 1);
    }
  }

  // The byte at position i is the i-th digit to the base 256, counted from the lowest.
  lemma {:induction false} LeDigits(v: nat, n: nat, i: nat)
    requires i < n
    ensures Le(v, n)[i] == v / Pow256(i) % 256
  {
    if i > 0 {
      LeDigits(v / 256, n - 1, i - 1);
      DivTwice(v, Pow256(i - 1));
    }
  }

  lemma {:induction false} DivTwice(v: nat, p: nat)
    requires p > 0
    ensures v / 256 / p == v / (256 * p)
  {
    var q, r := v / 256 / p, v / 256 % p;
    var low := v % 256;
    assert v == 256 * (q * p + r) + low;
    assert 256 * (q * p + r) + low == q * (256 * p) + (256 * r + low);
    QuotientIs(q, 256 * p, 256 * r + low);
  }

  // Two's complement: the unsigned bits are the value modulo 2^64.
  lemma {:induction false} BitsAreModulo(x: i64)
    ensures ToBits(x) == x % TWO_64 && FromBits(ToBits(x)) == x
  {
  }

  lemma {:induction false} Widths()
    ensures Pow256(1) == 0x100
    ensures Pow256(2) == 0x1_0000
    ensures Pow256(4) == 0x1_0000_0000
    ensures Pow256(8) == TWO_64
  {
    assert Pow256(3) == 256 * Pow256(2);
    assert Pow256(5) == 256 * Pow256(4);
    assert Pow256(6) == 256 * Pow256(5);
    assert Pow256(7) == 256 * Pow256(6);
  }

  lemma {:induction false} Assoc(a: seq<u8>, b: seq<u8>, c: seq<u8>)
    ensures a + b + c == a + (b + c)
  {
  }

  // The bytes `part` stand in `buf` at `pos`.
  predicate Stands(buf: seq<u8>, pos: nat, part: seq<u8>) {
    pos + |part| <= |buf| && buf[pos..pos + |part|] == part
  }

  lemma {:induction false} StandsSplit(buf: seq<u8>, pos: nat, a: seq<u8>, b: seq<u8>)
    requires Stands(buf, pos, a + b)
    ensures Stands(buf, pos, a) && Stands(buf, pos + |a|, b)
  {
    assert buf[pos..pos + |a|] == (a + b)[..|a|];
    assert buf[pos + |a|..pos + |a| + |b|] == (a + b)[|a|..];
  }
}
