/**
 * The book in price order, and its checksum: 64-bit FNV-1a (section 2 of draft-eastlake-fnv) over
 * the position, the bids best first and the asks best first.
 */
module BookChecksums {
  import opened Integers
  import opened Messages
  import opened OrderBooks
  import opened WireCodec
  import opened Wrappers

  // --- Price order -----------------------------------------------------------

  lemma {:induction false} FindLowest(prices: set<i64>) returns (low: i64)
    requires prices != {}
    ensures low in prices && forall q | q in prices :: low <= q
  {
    low :| low in prices;
    if p :| p in prices && p < low {
      assert p in prices - {low};
      var least := FindLowest(prices - {low});
      forall q | q in prices
        ensures least <= q
      {
        assert q == low || q in prices - {low};
      }
      low := least;
    }
  }

  function Lowest(prices: set<i64>): (low: i64)
    requires prices != {}
    ensures low in prices && forall q | q in prices :: low <= q
  {
    assert exists p :: p in prices && forall q | q in prices :: p <= q by {
      var p := FindLowest(prices);
    }
    var p :| p in prices && forall q | q in prices :: p <= q;
    p
  }

  // A side as its map iterates: ascending in price.
  function Ascending(side: Side): (levels: seq<PriceLevel>)
    ensures |levels| == |side|
    decreases |side|
  {
    if side == map[] then []
    else
      var p := Lowest(side.Keys);
      assert |(side - {p}).Keys| == |side.Keys - {p}|;
      [PriceLevel(p, side[p])] + Ascending(side - {p})
  }

  function Reversed<T>(s: seq<T>): (r: seq<T>)
    ensures |r| == |s| && forall i | 0 <= i < |s| :: r[i] == s[|s| - 1 - i]
  {
    if s == [] then [] else Reversed(s[1..]) + [s[0]]
  }

  function Descending(side: Side): seq<PriceLevel> {
    Reversed(Ascending(side))
  }

  predicate StrictlyAscending(levels: seq<PriceLevel>) {
    forall i, j | 0 <= i < j < |levels| :: levels[i].price < levels[j].price
  }

  function ItemsOf(levels: seq<PriceLevel>): Side {
    if levels == [] then map[] else ItemsOf(levels[1..])[levels[0].price := levels[0].qty]
  }

  lemma {:induction false} ItemsOfPrices(levels: seq<PriceLevel>, p: i64)
    ensures p in ItemsOf(levels) <==> exists i :: 0 <= i < |levels| && levels[i].price == p
  {
    if levels != [] {
      ItemsOfPrices(levels[1..], p);
      if p in ItemsOf(levels[1..]) {
        var i :| 0 <= i < |levels[1..]| && levels[1..][i].price == p;
        assert levels[i + 1].price == p;
      }
      if i :| 0 <= i < |levels| && levels[i].price == p && i > 0 {
        assert levels[1..][i - 1].price == p;
      }
    }
  }

  // The iteration lists exactly the side's levels ...
  lemma {:induction false} AscendingListsSide(side: Side)
    ensures ItemsOf(Ascending(side)) == side
    decreases |side|
  {
    if side != map[] {
      var p := Lowest(side.Keys);
      assert |(side - {p}).Keys| == |side.Keys - {p}|;
      AscendingListsSide(side - {p});
      assert Ascending(side)[1..] == Ascending(side - {p});
      assert side == (side - {p})[p := side[p]];
    }
  }

  // ... in strictly ascending order ...
  lemma {:induction false} AscendingAscends(side: Side)
    ensures StrictlyAscending(Ascending(side))
    decreases |side|
  {
    if side != map[] {
      var p := Lowest(side.Keys);
      var rest := Ascending(side - {p});
      assert |(side - {p}).Keys| == |side.Keys - {p}|;
      AscendingAscends(side - {p});
      AscendingListsSide(side - {p});
      forall j | 0 <= j < |rest|
        ensures p < rest[j].price
      {
        ItemsOfPrices(rest, rest[j].price);
      }
    }
  }

  // ... and nothing else does: the order is canonical.
  lemma {:induction false} AscendingIsUnique(levels: seq<PriceLevel>)
    requires StrictlyAscending(levels)
    ensures Ascending(ItemsOf(levels)) == levels
  {
    if levels != [] {
      var first, rest := levels[0], levels[1..];
      AscendingIsUnique(rest);
      ItemsOfPrices(rest, first.price);
      var side := ItemsOf(levels);
      forall q | q in side.Keys
        ensures first.price <= q
      {
        ItemsOfPrices(levels, q);
      }
      assert first.price in side.Keys && Lowest(side.Keys) in side.Keys;
      assert Lowest(side.Keys) == first.price;
      assert side - {first.price} == ItemsOf(rest);
    }
  }

  // Bids are listed the other way round, best first.
  lemma {:induction false} DescendingDescends(side: Side)
    ensures |Descending(side)| == |side|
    ensures forall i, j | 0 <= i < j < |side| :: Descending(side)[i].price > Descending(side)[j].price
  {
    AscendingAscends(side);
  }

  function BestBid(bids: Side): Option<PriceLevel> {
    if Ascending(bids) == [] then None else Some(Ascending(bids)[|bids| - 1])
  }

  function BestAsk(asks: Side): Option<PriceLevel> {
    if Ascending(asks) == [] then None else Some(Ascending(asks)[0])
  }

  // The ends of an ascending listing are levels of the side and the extremes of its prices.
  lemma {:induction false} EndsAreExtremes(levels: seq<PriceLevel>, side: Side)
    requires StrictlyAscending(levels) && ItemsOf(levels) == side && side != map[]
    ensures levels != [] && Lists(side, levels[0]) && Lists(side, levels[|levels| - 1])
    ensures forall p | p in side :: levels[0].price <= p <= levels[|levels| - 1].price
  {
    ItemsOfLists(levels, 0);
    ItemsOfLists(levels, |levels| - 1);
    forall p | p in side
      ensures levels[0].price <= p <= levels[|levels| - 1].price
    {
      ItemsOfPrices(levels, p);
    }
  }

  predicate Lists(side: Side, level: PriceLevel) {
    level.price in side && side[level.price] == level.qty
  }

  lemma {:induction false} ItemsOfLists(levels: seq<PriceLevel>, i: nat)
    requires StrictlyAscending(levels) && i < |levels|
    ensures Lists(ItemsOf(levels), levels[i])
  {
    if i > 0 {
      assert levels[i] == levels[1..][i - 1] && levels[0].price < levels[i].price;
      ItemsOfLists(levels[1..], i - 1);
    }
  }

  lemma {:induction false} BestBidIsHighest(bids: Side)
    requires bids != map[]
    ensures BestBid(bids).Some? && Descending(bids) != [] && BestBid(bids) == Some(Descending(bids)[0])
    ensures Lists(bids, BestBid(bids).value) && forall p | p in bids :: p <= BestBid(bids).value.price
  {
    AscendingListsSide(bids);
    AscendingAscends(bids);
    EndsAreExtremes(Ascending(bids), bids);
  }

  lemma {:induction false} BestAskIsLowest(asks: Side)
    requires asks != map[]
    ensures BestAsk(asks).Some?
    ensures Lists(asks, BestAsk(asks).value) && forall p | p in asks :: BestAsk(asks).value.price <= p
  {
    AscendingListsSide(asks);
    AscendingAscends(asks);
    EndsAreExtremes(Ascending(asks), asks);
  }

  // Both listings run from their best level, which is the extreme of its side.
  lemma {:induction false} BestAreExtremes(bids: Side, asks: Side)
    ensures BestBid(bids).None? <==> bids == map[]
    ensures BestAsk(asks).None? <==> asks == map[]
    ensures bids != map[] ==> Descending(bids) != [] && BestBid(bids) == Some(Descending(bids)[0])
                              && Lists(bids, BestBid(bids).value)
                              && forall p | p in bids :: p <= BestBid(bids).value.price
    ensures asks != map[] ==> Lists(asks, BestAsk(asks).value)
                              && forall p | p in asks :: BestAsk(asks).value.price <= p
  {
    if bids != map[] {
      BestBidIsHighest(bids);
    }
    if asks != map[] {
      BestAskIsLowest(asks);
    }
  }

  // --- FNV-1a ----------------------------------------------------------------

  const OFFSET: u64 := 14_695_981_039_346_656_037
  const PRIME: u64 := 1_099_511_628_211

  // Bitwise exclusive or of the low n bits.
  function Xor(a: nat, b: nat, n: nat): nat {
    if n == 0 then 0 else (a + b) % 2 + 2 * Xor(a / 2, b / 2, n - 1)
  }

  function Pow2(n: nat): (p: nat)
    ensures p > 0
  {
    if n == 0 then 1 else 2 * Pow2(n - 1)
  }

  lemma {:induction false} XorCancels(a: nat, b: nat, n: nat)
    requires a < Pow2(n)
    ensures Xor(a, b, n) < Pow2(n)
    ensures Xor(Xor(a, b, n), b, n) == a
  {
    if n > 0 {
      XorCancels(a / 2, b / 2, n - 1);
      LowBitCancels(a, b, Xor(a / 2, b / 2, n - 1));
    }
  }

  lemma {:induction false} LowBitCancels(a: nat, b: nat, rest: nat)
    ensures var x := (a + b) % 2 + 2 * rest; x / 2 == rest && (x + b) % 2 == a % 2
    ensures a == a % 2 + 2 * (a / 2)
  {
  }

  lemma {:induction false} XorCommutes(a: nat, b: nat, n: nat)
    ensures Xor(a, b, n) == Xor(b, a, n)
  {
    if n > 0 {
      XorCommutes(a / 2, b / 2, n - 1);
    }
  }

  function XorByte(h: u64, b: u8): nat {
    256 * (h / 256) + Xor(h % 256, b, 8)
  }

  function Times(x: nat): u64 {
    x * 1_099_511_628_211 % 0x1_0000_0000_0000_0000
  }

  function Step(h: u64, b: u8): u64 {
    Times(XorByte(h, b))
  }

  function Fnv(h: u64, bytes: seq<u8>): u64 {
    if bytes == [] then h else Step(Fnv(h, bytes[..|bytes| - 1]), bytes[|bytes| - 1])
  }

  // The prime is odd, so multiplying by it modulo 2^64 can be undone.
  lemma {:induction false} TimesIsInjective(x: u64, y: u64)
    requires Times(x) == Times(y)
    ensures x == y
  {
    var k := x * 1_099_511_628_211 / 0x1_0000_0000_0000_0000 - y * 1_099_511_628_211 / 0x1_0000_0000_0000_0000;
    assert (x - y) * 1_099_511_628_211 == k * 0x1_0000_0000_0000_0000;
    OnlyZeroVanishes(x - y, k);
  }

  // 14886173955864302971 is the inverse of the prime.
  lemma {:induction false} OnlyZeroVanishes(d: int, k: int)
    requires -0x1_0000_0000_0000_0000 < d < 0x1_0000_0000_0000_0000
    requires d * 1_099_511_628_211 == k * 0x1_0000_0000_0000_0000
    ensures d == 0
  {
    var m := k * 14_886_173_955_864_302_971 - d * 887_285_111_055;
    assert d == m * 0x1_0000_0000_0000_0000;
  }

  lemma {:induction false} XorIsInjective(x: nat, y: nat, b: nat, c: nat, n: nat)
    requires x < Pow2(n) && y < Pow2(n) && b < Pow2(n) && c < Pow2(n)
    ensures Xor(x, b, n) < Pow2(n) && Xor(y, c, n) < Pow2(n)
    ensures Xor(x, b, n) == Xor(y, c, n) ==> (b == c <==> x == y)
  {
    XorCancels(x, b, n);
    XorCancels(y, c, n);
    XorCommutes(x, b, n);
    XorCommutes(y, c, n);
    XorCancels(b, x, n);
    XorCancels(c, y, n);
  }

  lemma {:induction false} XorByteIsInjective(h: u64, g: u64, b: u8, c: u8)
    requires XorByte(h, b) == XorByte(g, c)
    ensures XorByte(h, b) < 0x1_0000_0000_0000_0000
    ensures b == c <==> h == g
  {
    assert Pow2(8) == 256;
    XorIsInjective(h % 256, g % 256, b, c, 8);
    SameParts(h / 256, Xor(h % 256, b, 8), g / 256, Xor(g % 256, c, 8));
    PartsInRange(h, Xor(h % 256, b, 8));
  }

  lemma {:induction false} PartsInRange(h: u64, low: nat)
    requires low < 256
    ensures 256 * (h / 256) + low < 0x1_0000_0000_0000_0000
  {
  }

  lemma {:induction false} SameParts(q: nat, r: nat, q': nat, r': nat)
    requires 256 * q + r == 256 * q' + r' && r < 256 && r' < 256
    ensures q == q' && r == r'
  {
  }

  lemma {:induction false} XorByteInRange(h: u64, b: u8)
    ensures XorByte(h, b) < 0x1_0000_0000_0000_0000
  {
    XorByteIsInjective(h, h, b, b);
  }

  // One step is a bijection of the state for each byte, and tells bytes apart in each state.
  lemma {:induction false} StepIsInjective(h: u64, g: u64, b: u8, c: u8)
    requires Step(h, b) == Step(g, c)
    ensures b == c <==> h == g
  {
    XorByteInRange(h, b);
    XorByteInRange(g, c);
    TimesIsInjective(XorByte(h, b), XorByte(g, c));
    XorByteIsInjective(h, g, b, c);
  }

  // --- What a step does ------------------------------------------------------

  function Bit(x: nat, k: nat): nat {
    x / Pow2(k) % 2
  }

  lemma {:induction false} XorBit(a: nat, b: nat, n: nat, k: nat)
    requires k < n
    ensures Bit(Xor(a, b, n), k) == if Bit(a, k) == Bit(b, k) then 0 else 1
  {
    var rest := Xor(a / 2, b / 2, n - 1);
    LowBitCancels(a, b, rest);
    if k == 0 {
      assert Pow2(0) == 1;
      LowBit(a, b, rest);
    } else {
      XorBit(a / 2, b / 2, n - 1, k - 1);
      HigherBit(a, k);
      HigherBit(b, k);
      HigherBit(Xor(a, b, n), k);
    }
  }

  lemma {:induction false} LowBit(a: nat, b: nat, rest: nat)
    ensures ((a + b) % 2 + 2 * rest) % 2 == if a % 2 == b % 2 then 0 else 1
  {
  }

  lemma {:induction false} HigherBit(x: nat, k: nat)
    requires k > 0
    ensures Bit(x, k) == Bit(x / 2, k - 1)
  {
    HalvesTwice(x, Pow2(k - 1));
  }

  lemma {:induction false} HalvesTwice(x: nat, p: nat)
    requires p > 0
    ensures x / (2 * p) == x / 2 / p
  {
    var q, r, low := x / 2 / p, x / 2 % p, x % 2;
    assert x == 2 * (q * p + r) + low;
    assert 2 * (q * p + r) + low == q * (2 * p) + (2 * r + low);
    QuotientIs(q, 2 * p, 2 * r + low);
  }

  // The inverse of the prime modulo 2^64.
  const INVERSE: u64 := 14_886_173_955_864_302_971

  lemma {:induction false} TimesUndone(x: u64)
    ensures WrapU64(Times(x) * INVERSE) == x
  {
    var k := x * 1_099_511_628_211 / 0x1_0000_0000_0000_0000;
    var m := x * 887_285_111_055 - k * 14_886_173_955_864_302_971;
    assert Times(x) == x * 1_099_511_628_211 - k * 0x1_0000_0000_0000_0000;
    assert Times(x) * INVERSE == x + m * 0x1_0000_0000_0000_0000;
    ModShift(x, m);
  }

  // Multiplying back gives the state as it was, but for the low eight bits that the byte flips.
  lemma {:induction false} StepFlipsThenMultiplies(h: u64, b: u8, k: nat)
    requires k < 8
    ensures var u := WrapU64(Step(h, b) * INVERSE);
            && u / 256 == h / 256
            && Bit(u % 256, k) == if Bit(b, k) == 1 then 1 - Bit(h % 256, k) else Bit(h % 256, k)
  {
    XorByteInRange(h, b);
    TimesUndone(XorByte(h, b));
    assert Pow2(8) == 256;
    XorIsInjective(h % 256, h % 256, b, b, 8);
    LowByte(h / 256, Xor(h % 256, b, 8));
    XorBit(h % 256, b, 8, k);
  }

  lemma {:induction false} LowByte(q: nat, r: nat)
    requires r < 256
    ensures (256 * q + r) / 256 == q && (256 * q + r) % 256 == r
  {
  }

  lemma {:induction false} FnvConcat(h: u64, a: seq<u8>, b: seq<u8>)
    ensures Fnv(h, a + b) == Fnv(Fnv(h, a), b)
  {
    if b == [] {
      assert a + b == a;
    } else {
      FnvConcat(h, a, b[..|b| - 1]);
      assert (a + b)[..|a + b| - 1] == a + b[..|b| - 1];
    }
  }

  lemma {:induction false} FnvIsInjective(h: u64, g: u64, bytes: seq<u8>)
    requires Fnv(h, bytes) == Fnv(g, bytes)
    ensures h == g
  {
    if bytes != [] {
      var front, last := bytes[..|bytes| - 1], bytes[|bytes| - 1];
      StepIsInjective(Fnv(h, front), Fnv(g, front), last, last);
      FnvIsInjective(h, g, front);
    }
  }

  // Streams that differ in exactly one byte always hash differently.
  lemma {:induction false} OneByteIsNoticed(h: u64, a: seq<u8>, b: seq<u8>, i: nat)
    requires |a| == |b| && i < |a| && a[i] != b[i]
    requires forall j | 0 <= j < |a| && j != i :: a[j] == b[j]
    ensures Fnv(h, a) != Fnv(h, b)
  {
    var pre, post := a[..i], a[i + 1..];
    assert a == pre + [a[i]] + post && b == pre + [b[i]] + post;
    FnvConcat(h, pre + [a[i]], post);
    FnvConcat(h, pre + [b[i]], post);
    FnvSnoc(h, pre, a[i]);
    FnvSnoc(h, pre, b[i]);
    if Fnv(h, a) == Fnv(h, b) {
      FnvIsInjective(Fnv(h, pre + [a[i]]), Fnv(h, pre + [b[i]]), post);
      StepIsInjective(Fnv(h, pre), Fnv(h, pre), a[i], b[i]);
      assert false;
    }
  }

  lemma {:induction false} FnvSnoc(h: u64, pre: seq<u8>, b: u8)
    ensures Fnv(h, pre + [b]) == Step(Fnv(h, pre), b)
  {
    assert (pre + [b])[..|pre|] == pre;
  }

  lemma {:induction false} StepTo(h: u64, b: u8, x: nat, q: nat, r: u64)
    requires XorByte(h, b) == x && x * 1_099_511_628_211 == q * 0x1_0000_0000_0000_0000 + r
    ensures Step(h, b) == r
  {
    ModShift(r, q);
  }

  lemma {:induction false} FnvStep(s: seq<u8>, i: nat, h: u64, before: nat, b: u8, low: nat, q: nat, r: u64)
    requires i < |s| && Fnv(OFFSET, s[..i]) == h && h % 256 == before && s[i] == b && Xor(before, b, 8) == low
    requires (256 * (h / 256) + low) * 1_099_511_628_211 == q * 0x1_0000_0000_0000_0000 + r
    ensures Fnv(OFFSET, s[..i + 1]) == r
  {
    assert s[..i + 1] == s[..i] + [s[i]];
    FnvSnoc(OFFSET, s[..i], s[i]);
    StepTo(h, s[i], 256 * (h / 256) + low, q, r);
  }

  lemma {:induction false} Xor37With97()
    ensures Xor(37, 97, 8) == 68
  {
    assert Xor(0, 0, 1) == 0;
    assert Xor(0, 1, 2) == 1;
    assert Xor(1, 3, 3) == 2;
    assert Xor(2, 6, 4) == 4;
    assert Xor(4, 12, 5) == 8;
    assert Xor(9, 24, 6) == 17;
    assert Xor(18, 48, 7) == 34;
  }

  lemma {:induction false} Xor37With102()
    ensures Xor(37, 102, 8) == 67
  {
    assert Xor(0, 0, 1) == 0;
    assert Xor(0, 1, 2) == 1;
    assert Xor(1, 3, 3) == 2;
    assert Xor(2, 6, 4) == 4;
    assert Xor(4, 12, 5) == 8;
    assert Xor(9, 25, 6) == 16;
    assert Xor(18, 51, 7) == 33;
  }

  lemma {:induction false} Xor217With111()
    ensures Xor(217, 111, 8) == 182
  {
    assert Xor(1, 0, 1) == 1;
    assert Xor(3, 1, 2) == 2;
    assert Xor(6, 3, 3) == 5;
    assert Xor(13, 6, 4) == 11;
    assert Xor(27, 13, 5) == 22;
    assert Xor(54, 27, 6) == 45;
    assert Xor(108, 55, 7) == 91;
  }

  lemma {:induction false} Xor66With111()
    ensures Xor(66, 111, 8) == 45
  {
    assert Xor(0, 0, 1) == 0;
    assert Xor(1, 1, 2) == 0;
    assert Xor(2, 3, 3) == 1;
    assert Xor(4, 6, 4) == 2;
    assert Xor(8, 13, 5) == 5;
    assert Xor(16, 27, 6) == 11;
    assert Xor(33, 55, 7) == 22;
  }

  lemma {:induction false} Xor119With98()
    ensures Xor(119, 98, 8) == 21
  {
    assert Xor(0, 0, 1) == 0;
    assert Xor(1, 1, 2) == 0;
    assert Xor(3, 3, 3) == 0;
    assert Xor(7, 6, 4) == 1;
    assert Xor(14, 12, 5) == 2;
    assert Xor(29, 24, 6) == 5;
    assert Xor(59, 49, 7) == 10;
  }

  lemma {:induction false} Xor175With97()
    ensures Xor(175, 97, 8) == 206
  {
    assert Xor(1, 0, 1) == 1;
    assert Xor(2, 1, 2) == 3;
    assert Xor(5, 3, 3) == 6;
    assert Xor(10, 6, 4) == 12;
    assert Xor(21, 12, 5) == 25;
    assert Xor(43, 24, 6) == 51;
    assert Xor(87, 48, 7) == 103;
  }

  lemma {:induction false} Xor10With114()
    ensures Xor(10, 114, 8) == 120
  {
    assert Xor(0, 0, 1) == 0;
    assert Xor(0, 1, 2) == 1;
    assert Xor(0, 3, 3) == 3;
    assert Xor(0, 7, 4) == 7;
    assert Xor(1, 14, 5) == 15;
    assert Xor(2, 28, 6) == 30;
    assert Xor(5, 57, 7) == 60;
  }

  // The published values: of nothing, ...
  lemma {:induction false} FnvOfNothing()
    ensures Fnv(OFFSET, []) == 0xcbf2_9ce4_8422_2325
  {
  }

  // ... of "a", ...
  lemma {:induction false} FnvOfA(s: seq<u8>)
    requires |s| == 1 && s[0] == 97
    ensures Fnv(OFFSET, s) == 0xaf63_dc4c_8601_ec8c
  {
    assert s == s[..1];
    FnvOfFirstA(s);
  }

  lemma {:induction false} FnvOfFirstA(s: seq<u8>)
    requires |s| > 0 && s[0] == 97
    ensures Fnv(OFFSET, s[..1]) == 0xaf63_dc4c_8601_ec8c
  {
    Xor37With97();
    FnvStep(s, 0, OFFSET, 37, 97, 68, 875_948_729_822, 12_638_187_200_555_641_996);
  }

  // ... and of "foobar".
  lemma {:induction false} FnvOfFoobar(s: seq<u8>)
    requires |s| == 6
    requires s[0] == 102 && s[1] == 111 && s[2] == 111 && s[3] == 98 && s[4] == 97 && s[5] == 114
    ensures Fnv(OFFSET, s) == 0x8594_4171_f739_67e8
  {
    Xor37With102();
    FnvStep(s, 0, OFFSET, 37, 102, 67, 875_948_729_822, 12_638_186_101_044_013_785);
    Xor217With111();
    FnvStep(s, 1, 12_638_186_101_044_013_785, 217, 111, 182, 753_294_593_456, 619_342_838_404_076_354);
    Xor66With111();
    FnvStep(s, 2, 619_342_838_404_076_354, 66, 111, 45, 36_915_709_891, 15_902_901_984_413_996_407);
    Xor119With98();
    FnvStep(s, 3, 15_902_901_984_413_996_407, 119, 98, 21, 947_886_824_053, 15_929_810_745_020_453_551);
    Xor175With97();
    FnvStep(s, 4, 15_929_810_745_020_453_551, 175, 97, 206, 949_490_711_171, 14_610_070_471_194_899_466);
    Xor10With114();
    FnvStep(s, 5, 14_610_070_471_194_899_466, 10, 114, 120, 870_828_060_923, 9_625_390_261_332_436_968);
    assert s[..6] == s;
  }

  // --- The checksum ----------------------------------------------------------

  function Stream(book: Book): seq<u8> {
    Le(book.lastUpdateId, 8) + LevelsBytes(Descending(book.bids)) + LevelsBytes(Ascending(book.asks))
  }

  function ChecksumOf(book: Book): u64 {
    Fnv(OFFSET, Stream(book))
  }

  method Feed(h: u64, bytes: seq<u8>) returns (r: u64)
    ensures r == Fnv(h, bytes)
  {
    r := h;
    for i := 0 to |bytes|
      invariant r == Fnv(h, bytes[..i])
    {
      assert bytes[..i + 1][..i] == bytes[..i];
      r := WrapU64(XorByte(r, bytes[i]) * PRIME);
    }
    assert bytes[..|bytes|] == bytes;
  }

  method FeedLevels(h: u64, levels: seq<PriceLevel>) returns (r: u64)
    ensures r == Fnv(h, LevelsBytes(levels))
  {
    r := h;
    for i := 0 to |levels|
      invariant r == Fnv(h, LevelsBytes(levels[..i]))
    {
      assert levels[..i + 1][..i] == levels[..i];
      ghost var done, price, qty := LevelsBytes(levels[..i]), I64Bytes(levels[i].price), I64Bytes(levels[i].qty);
      FnvConcat(h, done, price + qty);
      FnvConcat(Fnv(h, done), price, qty);
      r := Feed(r, I64Bytes(levels[i].price));
      r := Feed(r, I64Bytes(levels[i].qty));
    }
    assert levels[..|levels|] == levels;
  }

  method Checksum(book: OrderBook) returns (h: u64)
    ensures h == ChecksumOf(book.View())
  {
    ghost var id, bids := Le(book.lastUpdateId, 8), LevelsBytes(Descending(book.bids));
    FnvConcat(OFFSET, id, bids);
    FnvConcat(OFFSET, id + bids, LevelsBytes(Ascending(book.asks)));
    h := Feed(OFFSET, Le(book.lastUpdateId, 8));
    h := FeedLevels(h, Descending(book.bids));
    h := FeedLevels(h, Ascending(book.asks));
  }

  // The checksum does not depend on the order of levels inside a delta.
  lemma {:induction false} OrderInsideDeltaIsInvisible(book: Book, a: BookDelta, b: BookDelta)
    requires a.finalUpdateId == b.finalUpdateId
    requires forall p: i64 :: LastQty(a.bids, p) == LastQty(b.bids, p) && LastQty(a.asks, p) == LastQty(b.asks, p)
    ensures ChecksumOf(Updated(book, a)) == ChecksumOf(Updated(book, b))
  {
    OnlyLastWritesMatter(book.bids, a.bids, b.bids);
    OnlyLastWritesMatter(book.asks, a.asks, b.asks);
  }

  // Two books of equal depth that differ in one byte of their position, a price or a quantity
  // never share a checksum.
  lemma {:induction false} OneByteChangesChecksum(x: Book, y: Book, i: nat)
    requires |Stream(x)| == |Stream(y)| && i < |Stream(x)| && Stream(x)[i] != Stream(y)[i]
    requires forall j | 0 <= j < |Stream(x)| && j != i :: Stream(x)[j] == Stream(y)[j]
    ensures ChecksumOf(x) != ChecksumOf(y)
  {
    OneByteIsNoticed(OFFSET, Stream(x), Stream(y), i);
  }

  lemma {:induction false} LevelsBytesAreInjective(a: seq<PriceLevel>, b: seq<PriceLevel>)
    requires LevelsBytes(a) == LevelsBytes(b)
    ensures a == b
  {
    LevelsLength(a);
    LevelsLength(b);
    var bytes := LevelsBytes(a);
    assert bytes[0..|bytes|] == bytes;
    GetsLevels(bytes, 0, a);
    GetsLevels(bytes, 0, b);
  }

  lemma {:induction false} LeIsInjective(x: u64, y: u64)
    requires Le(x, 8) == Le(y, 8)
    ensures x == y
  {
    Widths();
    LeRoundTrip(x, 8);
    LeRoundTrip(y, 8);
  }

  lemma {:induction false} LevelsBytesConcat(a: seq<PriceLevel>, b: seq<PriceLevel>)
    ensures LevelsBytes(a + b) == LevelsBytes(a) + LevelsBytes(b)
  {
    if b == [] {
      assert a + b == a;
    } else {
      var front, last := b[..|b| - 1], b[|b| - 1];
      LevelsBytesConcat(a, front);
      LevelsSnoc(a + front, last);
      LevelsSnoc(front, last);
      assert a + b == (a + front) + [last] && b == front + [last];
      Assoc(LevelsBytes(a), LevelsBytes(front), I64Bytes(last.price) + I64Bytes(last.qty));
    }
  }

  function Listed(book: Book): seq<PriceLevel> {
    Descending(book.bids) + Ascending(book.asks)
  }

  lemma {:induction false} StreamIsListed(book: Book)
    ensures Stream(book) == Le(book.lastUpdateId, 8) + LevelsBytes(Listed(book))
  {
    LevelsBytesConcat(Descending(book.bids), Ascending(book.asks));
  }

  // What is hashed, byte for byte: the position, then sixteen bytes a level, bids from the highest
  // price down and asks from the lowest up, each price before its quantity.
  lemma {:induction false} StreamStands(book: Book, k: nat)
    requires k < |Listed(book)|
    ensures |Stream(book)| == 8 + 16 * |Listed(book)| && Stands(Stream(book), 0, Le(book.lastUpdateId, 8))
    ensures Stands(Stream(book), 8 + 16 * k, I64Bytes(Listed(book)[k].price))
    ensures Stands(Stream(book), 16 + 16 * k, I64Bytes(Listed(book)[k].qty))
  {
    StreamIsListed(book);
    LevelsLength(Listed(book));
    LevelStands(Listed(book), k);
    var id, levels := Le(book.lastUpdateId, 8), LevelsBytes(Listed(book));
    StandsBehind(id, levels, 16 * k, I64Bytes(Listed(book)[k].price));
    StandsBehind(id, levels, 16 * k + 8, I64Bytes(Listed(book)[k].qty));
  }

  lemma {:induction false} StandsBehind(front: seq<u8>, back: seq<u8>, pos: nat, part: seq<u8>)
    requires Stands(back, pos, part)
    ensures Stands(front + back, |front| + pos, part) && Stands(front + back, 0, front)
  {
    assert (front + back)[|front| + pos..|front| + pos + |part|] == back[pos..pos + |part|];
  }

  // Two books hash the same bytes exactly when they stand at the same position and list the same
  // levels: where the bids end and the asks begin is not hashed.
  lemma {:induction false} SameStreamIff(x: Book, y: Book)
    ensures Stream(x) == Stream(y) <==> x.lastUpdateId == y.lastUpdateId && Listed(x) == Listed(y)
  {
    StreamIsListed(x);
    StreamIsListed(y);
    if Stream(x) == Stream(y) {
      assert Stream(x)[..8] == Le(x.lastUpdateId, 8) && Stream(y)[..8] == Le(y.lastUpdateId, 8);
      assert Stream(x)[8..] == LevelsBytes(Listed(x)) && Stream(y)[8..] == LevelsBytes(Listed(y));
      LeIsInjective(x.lastUpdateId, y.lastUpdateId);
      LevelsBytesAreInjective(Listed(x), Listed(y));
    }
  }

  // With the number of bids, which checksum messages carry beside it, the stream tells everything.
  lemma {:induction false} StreamDeterminesBook(x: Book, y: Book)
    requires |x.bids| == |y.bids|
    ensures Stream(x) == Stream(y) <==> x.lastUpdateId == y.lastUpdateId && x.bids == y.bids && x.asks == y.asks
  {
    SameStreamIff(x, y);
    if Listed(x) == Listed(y) {
      var n := |x.bids|;
      assert Listed(x)[..n] == Descending(x.bids) && Listed(y)[..n] == Descending(y.bids);
      assert Listed(x)[n..] == Ascending(x.asks) && Listed(y)[n..] == Ascending(y.asks);
      ReversedTwice(Ascending(x.bids), Ascending(y.bids));
      AscendingListsSide(x.bids);
      AscendingListsSide(y.bids);
      AscendingListsSide(x.asks);
      AscendingListsSide(y.asks);
    }
  }

  lemma {:induction false} ReversedTwice<T>(a: seq<T>, b: seq<T>)
    requires Reversed(a) == Reversed(b)
    ensures a == b
  {
    assert |a| == |b|;
    forall i | 0 <= i < |a|
      ensures a[i] == b[i]
    {
      assert a[i] == Reversed(a)[|a| - 1 - i] && b[i] == Reversed(b)[|b| - 1 - i];
    }
  }

  // Without it a lone bid and a lone ask at the same price hash alike.
  lemma {:induction false} SidesAreNotTold(updateId: u64, price: i64, qty: i64, stale: bool,
                                           reason: Option<BookStaleReason>)
    ensures var side := map[price := qty];
            && ChecksumOf(Book(side, map[], updateId, stale, reason))
            == ChecksumOf(Book(map[], side, updateId, stale, reason))
  {
    var side, levels := map[price := qty], [PriceLevel(price, qty)];
    AscendingIsUnique(levels);
    assert ItemsOf(levels) == side && Reversed(levels) == levels;
    assert Ascending(map[]) == [] && Reversed<PriceLevel>([]) == [] && levels + [] == [] + levels;
    SameStreamIff(Book(side, map[], updateId, stale, reason), Book(map[], side, updateId, stale, reason));
  }
}
