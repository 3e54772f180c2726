/** The latency histogram: bucketed samples, and percentiles against true order statistics. */
module Histograms {
  import opened Integers
  import opened Wrappers

  const NUM_BOUNDS: nat := 19
  const NUM_BUCKETS: nat := 20

  function BucketBounds(): (bounds: seq<u64>)
    ensures |bounds| == NUM_BOUNDS
  {
    [1_000, 5_000, 10_000, 25_000, 50_000, 100_000, 250_000, 500_000, 1_000_000, 2_500_000, 5_000_000, 10_000_000,
     25_000_000, 50_000_000, 100_000_000, 200_000_000, 500_000_000, 1_000_000_000, 5_000_000_000]
  }

  ghost predicate Sorted(s: seq<u64>) {
    forall i, j | 0 <= i <= j < |s| :: s[i] <= s[j]
  }

  lemma {:induction false} SortedByNeighbours(s: seq<u64>, i: nat, j: nat)
    requires forall k | 0 < k < |s| :: s[k - 1] <= s[k]
    requires i <= j < |s|
    ensures s[i] <= s[j]
  {
    if i < j {
      SortedByNeighbours(s, i, j - 1);
    }
  }

  lemma {:induction false} BoundsAreSorted()
    ensures Sorted(BucketBounds())
  {
    var bounds := BucketBounds();
    forall i, j | 0 <= i <= j < |bounds|
      ensures bounds[i] <= bounds[j]
    {
      SortedByNeighbours(bounds, i, j);
    }
  }

  // How many of the sorted bounds lie below v: the index of the first that does not.
  function PartitionPoint(bounds: seq<u64>, v: u64): (k: nat)
    ensures k <= |bounds|
    ensures forall i | 0 <= i < k :: bounds[i] < v
    ensures k < |bounds| ==> v <= bounds[k]
  {
    if bounds == [] || v <= bounds[0] then 0 else 1 + PartitionPoint(bounds[1..], v)
  }

  // The end of a sample's bucket: what a percentile is meant to report of it.
  function LeastBound(bounds: seq<u64>, v: u64): u64 {
    var k := PartitionPoint(bounds, v);
    if k < |bounds| then bounds[k] else U64_MAX
  }

  lemma {:induction false} LeastBoundIsLeast(bounds: seq<u64>, v: u64)
    requires Sorted(bounds)
    ensures LeastBound(bounds, v) >= v && forall b | b in bounds && b >= v :: LeastBound(bounds, v) <= b
    ensures LeastBound(bounds, v) in bounds
            || (LeastBound(bounds, v) == U64_MAX && forall b | b in bounds :: b < v)
  {
  }

  lemma {:induction false} FirstReached(bounds: seq<u64>, v: u64, k: nat)
    requires k <= |bounds| && (k < |bounds| ==> v <= bounds[k])
    requires forall j | 0 <= j < k :: bounds[j] < v
    ensures PartitionPoint(bounds, v) == k
  {
    var p := PartitionPoint(bounds, v);
    assert !(p < k) && !(k < p);
  }

  // --- Order statistics ------------------------------------------------------

  function CountAtMost(samples: seq<u64>, x: u64): nat {
    if samples == [] then 0
    else CountAtMost(samples[..|samples| - 1], x) + if samples[|samples| - 1] <= x then 1 else 0
  }

  function Insert(sorted: seq<u64>, v: u64): (r: seq<u64>)
    ensures |r| == |sorted| + 1
  {
    if sorted == [] || sorted[|sorted| - 1] <= v then sorted + [v]
    else Insert(sorted[..|sorted| - 1], v) + [sorted[|sorted| - 1]]
  }

  function SortedSamples(samples: seq<u64>): (r: seq<u64>)
    ensures |r| == |samples|
  {
    if samples == [] then [] else Insert(SortedSamples(samples[..|samples| - 1]), samples[|samples| - 1])
  }

  lemma {:induction false} CountSnoc(s: seq<u64>, v: u64, x: u64)
    ensures CountAtMost(s + [v], x) == CountAtMost(s, x) + if v <= x then 1 else 0
  {
    assert (s + [v])[..|s|] == s;
  }

  lemma {:induction false} InsertSorts(sorted: seq<u64>, v: u64, hi: u64)
    requires Sorted(sorted) && v <= hi && forall i | 0 <= i < |sorted| :: sorted[i] <= hi
    ensures Sorted(Insert(sorted, v)) && forall i | 0 <= i <= |sorted| :: Insert(sorted, v)[i] <= hi
  {
    if sorted != [] && sorted[|sorted| - 1] > v {
      InsertSorts(sorted[..|sorted| - 1], v, sorted[|sorted| - 1]);
    }
  }

  lemma {:induction false} InsertAdds(sorted: seq<u64>, v: u64)
    ensures multiset(Insert(sorted, v)) == multiset(sorted) + multiset{v}
  {
    if sorted != [] && sorted[|sorted| - 1] > v {
      var front, last := sorted[..|sorted| - 1], sorted[|sorted| - 1];
      InsertAdds(front, v);
      assert sorted == front + [last];
    }
  }

  lemma {:induction false} InsertCounts(sorted: seq<u64>, v: u64, x: u64)
    ensures CountAtMost(Insert(sorted, v), x) == CountAtMost(sorted, x) + if v <= x then 1 else 0
  {
    if sorted == [] || sorted[|sorted| - 1] <= v {
      CountSnoc(sorted, v, x);
    } else {
      InsertCounts(sorted[..|sorted| - 1], v, x);
      CountSnoc(Insert(sorted[..|sorted| - 1], v), sorted[|sorted| - 1], x);
    }
  }

  // The sorted samples are in order ...
  lemma {:induction false} SortedSamplesAreSorted(samples: seq<u64>)
    ensures Sorted(SortedSamples(samples))
  {
    if samples != [] {
      SortedSamplesAreSorted(samples[..|samples| - 1]);
      InsertSorts(SortedSamples(samples[..|samples| - 1]), samples[|samples| - 1], U64_MAX);
    }
  }

  // ... and are the samples.
  lemma {:induction false} SortedSamplesAreSamples(samples: seq<u64>)
    ensures multiset(SortedSamples(samples)) == multiset(samples)
  {
    if samples != [] {
      var front, last := samples[..|samples| - 1], samples[|samples| - 1];
      SortedSamplesAreSamples(front);
      InsertAdds(SortedSamples(front), last);
      assert samples == front + [last];
    }
  }

  lemma {:induction false} SortedSamplesCount(samples: seq<u64>, x: u64)
    ensures CountAtMost(SortedSamples(samples), x) == CountAtMost(samples, x)
  {
    if samples != [] {
      SortedSamplesCount(samples[..|samples| - 1], x);
      InsertCounts(SortedSamples(samples[..|samples| - 1]), samples[|samples| - 1], x);
    }
  }

  lemma {:induction false} CountOfSorted(sorted: seq<u64>, k: nat, x: u64)
    requires Sorted(sorted) && 1 <= k <= |sorted|
    ensures CountAtMost(sorted, x) <= |sorted|
    ensures CountAtMost(sorted, x) >= k <==> sorted[k - 1] <= x
  {
    var n := |sorted| - 1;
    if n > 0 {
      CountOfSorted(sorted[..n], if k <= n then k else n, x);
    }
  }

  // The k-th smallest sample is at most x exactly when k samples are.
  lemma {:induction false} RankIff(samples: seq<u64>, k: nat, x: u64)
    requires 1 <= k <= |samples|
    ensures CountAtMost(samples, x) >= k <==> SortedSamples(samples)[k - 1] <= x
  {
    SortedSamplesAreSorted(samples);
    SortedSamplesCount(samples, x);
    CountOfSorted(SortedSamples(samples), k, x);
  }

  // --- Buckets ---------------------------------------------------------------

  function CountIn(bounds: seq<u64>, samples: seq<u64>, i: nat): nat {
    if samples == [] then 0
    else CountIn(bounds, samples[..|samples| - 1], i)
         + if PartitionPoint(bounds, samples[|samples| - 1]) == i then 1 else 0
  }

  // One bucket per bound, and one more for whatever exceeds them all; counters wrap.
  ghost predicate Buckets(bounds: seq<u64>, buckets: seq<u64>, samples: seq<u64>) {
    && |buckets| == |bounds| + 1
    && forall i | 0 <= i < |buckets| :: buckets[i] == WrapU64(CountIn(bounds, samples, i))
  }

  lemma {:induction false} CountInIsBounded(bounds: seq<u64>, samples: seq<u64>, i: nat)
    ensures CountIn(bounds, samples, i) <= |samples|
  {
    if samples != [] {
      CountInIsBounded(bounds, samples[..|samples| - 1], i);
    }
  }

  // Until 2^64 samples are recorded no counter has wrapped.
  lemma {:induction false} BucketsAreExact(bounds: seq<u64>, buckets: seq<u64>, samples: seq<u64>)
    requires Buckets(bounds, buckets, samples) && |samples| <= U64_MAX
    ensures forall i | 0 <= i < |buckets| :: buckets[i] == CountIn(bounds, samples, i)
  {
    forall i | 0 <= i < |buckets|
      ensures buckets[i] == CountIn(bounds, samples, i)
    {
      CountInIsBounded(bounds, samples, i);
    }
  }

  function Incremented(n: u64): u64 {
    WrapU64(n as int + 1)
  }

  lemma {:induction false} BucketsGrow(bounds: seq<u64>, buckets: seq<u64>, samples: seq<u64>, v: u64)
    requires Buckets(bounds, buckets, samples)
    ensures var k := PartitionPoint(bounds, v);
            Buckets(bounds, buckets[k := Incremented(buckets[k])], samples + [v])
  {
    assert (samples + [v])[..|samples|] == samples;
    SumWraps(CountIn(bounds, samples, PartitionPoint(bounds, v)), 1);
  }

  function SumTo(buckets: seq<u64>, k: nat): nat
    requires k <= |buckets|
  {
    if k == 0 then 0 else SumTo(buckets, k - 1) + buckets[k - 1]
  }

  function CountBelow(bounds: seq<u64>, samples: seq<u64>, k: nat): nat {
    if k == 0 then 0 else CountBelow(bounds, samples, k - 1) + CountIn(bounds, samples, k - 1)
  }

  lemma {:induction false} SumIsCountBelow(bounds: seq<u64>, buckets: seq<u64>, samples: seq<u64>, k: nat)
    requires Buckets(bounds, buckets, samples) && k <= |buckets| && |samples| <= U64_MAX
    ensures SumTo(buckets, k) == CountBelow(bounds, samples, k)
  {
    if k > 0 {
      BucketsAreExact(bounds, buckets, samples);
      SumIsCountBelow(bounds, buckets, samples, k - 1);
    }
  }

  lemma {:induction false} CountBelowSnoc(bounds: seq<u64>, samples: seq<u64>, v: u64, k: nat)
    ensures CountBelow(bounds, samples + [v], k)
         == CountBelow(bounds, samples, k) + if PartitionPoint(bounds, v) < k then 1 else 0
  {
    if k > 0 {
      assert (samples + [v])[..|samples|] == samples;
      CountBelowSnoc(bounds, samples, v, k - 1);
    }
  }

  lemma {:induction false} CountBelowNothing(bounds: seq<u64>, k: nat)
    ensures CountBelow(bounds, [], k) == 0
  {
    if k > 0 {
      CountBelowNothing(bounds, k - 1);
    }
  }

  // A sample lies in the first k buckets exactly when it is at most the k-th bound.
  lemma {:induction false} BelowIff(bounds: seq<u64>, v: u64, k: nat)
    requires Sorted(bounds) && 1 <= k <= |bounds|
    ensures PartitionPoint(bounds, v) < k <==> v <= bounds[k - 1]
  {
  }

  // The first k buckets hold exactly the samples up to the k-th bound, and all of them hold all.
  lemma {:induction false} CountBelowIsCountAtMost(bounds: seq<u64>, samples: seq<u64>, k: nat)
    requires Sorted(bounds) && 1 <= k <= |bounds| + 1
    ensures CountBelow(bounds, samples, k)
         == if k <= |bounds| then CountAtMost(samples, bounds[k - 1]) else |samples|
  {
    if samples == [] {
      CountBelowNothing(bounds, k);
    } else {
      var front, last := samples[..|samples| - 1], samples[|samples| - 1];
      assert samples == front + [last];
      CountBelowIsCountAtMost(bounds, front, k);
      CountBelowSnoc(bounds, front, last, k);
      if k <= |bounds| {
        BelowIff(bounds, last, k);
      }
    }
  }

  // The bucket counts add up to the number of samples.
  lemma {:induction false} BucketsAddUp(bounds: seq<u64>, buckets: seq<u64>, samples: seq<u64>)
    requires Sorted(bounds) && Buckets(bounds, buckets, samples) && |samples| <= U64_MAX
    ensures SumTo(buckets, |buckets|) == |samples|
  {
    SumIsCountBelow(bounds, buckets, samples, |buckets|);
    CountBelowIsCountAtMost(bounds, samples, |buckets|);
  }

  lemma {:induction false} Reaches(bounds: seq<u64>, buckets: seq<u64>, samples: seq<u64>, i: nat, target: nat)
    requires Sorted(bounds) && Buckets(bounds, buckets, samples) && |samples| <= U64_MAX
    requires i < |bounds| && 1 <= target <= |samples|
    ensures SumTo(buckets, i + 1) >= target <==> SortedSamples(samples)[target - 1] <= bounds[i]
  {
    SumIsCountBelow(bounds, buckets, samples, i + 1);
    CountBelowIsCountAtMost(bounds, samples, i + 1);
    RankIff(samples, target, bounds[i]);
  }

  // --- The histogram ---------------------------------------------------------

  function Total(samples: seq<u64>): nat {
    if samples == [] then 0 else Total(samples[..|samples| - 1]) + samples[|samples| - 1]
  }

  function Ceil(x: real): int {
    0 - (0.0 - x).Floor
  }

  // The cast from floating point saturates.
  function RankOf(product: real): u64
    requires product >= 0.0
  {
    if Ceil(product) > U64_MAX then U64_MAX else Ceil(product)
  }

  // What the first bucket whose cumulative count reaches the rank tells: the end of the bucket of the
  // sample of that rank, the first bound for rank 0, and u64::MAX beyond the last sample.
  function CoveringBound(bounds: seq<u64>, samples: seq<u64>, rank: nat): u64
    requires |bounds| > 0
  {
    if rank == 0 then bounds[0]
    else if rank <= |samples| then LeastBound(bounds, SortedSamples(samples)[rank - 1])
    else U64_MAX
  }

  // Rounding to the nearest double is monotone and leaves whole numbers up to 2^53 alone; a product
  // of a count and a positive fraction does not vanish.
  ghost predicate RoundsTo(x: real, rounded: real) {
    && (x > 0.0 ==> rounded > 0.0)
    && (forall n: nat | n <= 0x20_0000_0000_0000 :: OnItsSide(x, rounded, n))
  }

  predicate OnItsSide(x: real, rounded: real, n: nat) {
    (x <= n as real ==> rounded <= n as real) && (x >= n as real ==> rounded >= n as real)
  }

  lemma {:induction false} CeilIs(x: real, n: int)
    ensures Ceil(x) == n <==> (n - 1) as real < x <= n as real
  {
  }

  lemma {:induction false} CeilAtMost(x: real, n: int)
    requires x <= n as real
    ensures Ceil(x) <= n
  {
  }

  // So the rank taken is the exact one, or the one before it when the product was rounded down onto
  // a whole number, and always the rank of a sample.
  lemma {:induction false} RankIsClose(n: nat, p: real, product: real)
    requires 0 < n <= 0x20_0000_0000_0000 && 0.0 < p <= 1.0 && RoundsTo(n as real * p, product)
    ensures var exact := Ceil(n as real * p);
            && product > 0.0 && 1 <= exact <= n && 1 <= RankOf(product) <= n
            && (RankOf(product) == exact || RankOf(product) == exact - 1)
            && (n as real * p == exact as real ==> RankOf(product) == exact)
  {
    var x := n as real * p;
    FractionOf(n as real, p);
    var exact := Ceil(x);
    CeilIs(x, exact);
    CeilAtMost(x, n);
    assert OnItsSide(x, product, exact) && OnItsSide(x, product, exact - 1);
    CeilIs(product, exact);
    CeilIs(product, exact - 1);
  }

  lemma {:induction false} FractionOf(n: real, p: real)
    requires n > 0.0 && 0.0 < p <= 1.0
    ensures 0.0 < n * p <= n
  {
  }

  // The counters tell the samples.
  ghost predicate Accounted(bounds: seq<u64>, buckets: seq<u64>, sum: u64, count: u64, samples: seq<u64>) {
    Buckets(bounds, buckets, samples) && count == WrapU64(|samples|) && sum == WrapU64(Total(samples))
  }

  lemma {:induction false} StaysAccounted(bounds: seq<u64>, buckets: seq<u64>, sum: u64, count: u64,
                                          samples: seq<u64>, v: u64)
    requires Accounted(bounds, buckets, sum, count, samples)
    ensures var k := PartitionPoint(bounds, v);
            Accounted(bounds, buckets[k := Incremented(buckets[k])], WrapU64(sum + v), Incremented(count),
                      samples + [v])
  {
    BucketsGrow(bounds, buckets, samples, v);
    TotalGrows(samples, v);
    SumWraps(|samples|, 1);
  }

  class Histogram {
    var buckets: seq<u64>
    var sum: u64
    var count: u64
    // Every sample recorded so far, in order.
    ghost var samples: seq<u64>

    ghost predicate Valid()
      reads this
    {
      Accounted(BucketBounds(), buckets, sum, count, samples)
    }

    constructor ()
      ensures Valid() && samples == []
    {
      buckets := seq(NUM_BUCKETS, _ => 0);
      sum, count, samples := 0, 0, [];
    }

    // Negative latencies, from clock skew, are ignored.
    method Record(nanos: i64)
      requires Valid()
      modifies this
      ensures Valid() && samples == if nanos < 0 then old(samples) else old(samples) + [nanos]
    {
      if nanos < 0 {
        return;
      }
      StaysAccounted(BucketBounds(), buckets, sum, count, samples, nanos);
      var k := PartitionPoint(BucketBounds(), nanos);
      buckets := buckets[k := Incremented(buckets[k])];
      sum := WrapU64(sum + nanos);
      count := Incremented(count);
      samples := samples + [nanos];
    }

    // `product` is the count times the wanted fraction, in floating point. Nothing when nothing was
    // recorded, else what the rank it rounds up to tells.
    method Percentile(product: real) returns (r: Option<u64>)
      requires Valid() && product >= 0.0
      ensures r.None? <==> WrapU64(|samples|) == 0
      ensures 0 < |samples| <= U64_MAX ==> r == Some(CoveringBound(BucketBounds(), samples, RankOf(product)))
    {
      if count == 0 {
        return None;
      }
      BoundsAreSorted();
      var upper := FirstCovering(BucketBounds(), buckets, RankOf(product), samples);
      return Some(upper);
    }
  }

  method FirstCovering(bounds: seq<u64>, buckets: seq<u64>, target: nat, ghost samples: seq<u64>)
    returns (upper: u64)
    requires Sorted(bounds) && Buckets(bounds, buckets, samples) && |bounds| > 0
    ensures |samples| <= U64_MAX ==> upper == CoveringBound(bounds, samples, target)
  {
    var cumulative: u64 := 0;
    for i := 0 to |bounds|
      invariant |samples| <= U64_MAX ==> cumulative == SumTo(buckets, i) && BoundsBefore(bounds, samples, target, i)
    {
      cumulative := WrapU64(cumulative + buckets[i]);
      if |samples| <= U64_MAX {
        SumIsBounded(bounds, buckets, samples, i + 1);
        CoversIff(bounds, buckets, samples, i, target);
      }
      if cumulative >= target {
        return bounds[i];
      }
    }
    if |samples| <= U64_MAX {
      NoneCovers(bounds, samples, target);
    }
    return U64_MAX;
  }

  // The first i bounds lie below the sample of the rank, if there is one.
  predicate BoundsBefore(bounds: seq<u64>, samples: seq<u64>, rank: nat, i: nat)
    requires i <= |bounds|
  {
    && (rank == 0 ==> i == 0)
    && (1 <= rank <= |samples| ==> forall j | 0 <= j < i :: bounds[j] < SortedSamples(samples)[rank - 1])
  }

  lemma {:induction false} CoversIff(bounds: seq<u64>, buckets: seq<u64>, samples: seq<u64>, i: nat, rank: nat)
    requires Sorted(bounds) && Buckets(bounds, buckets, samples) && |samples| <= U64_MAX
    requires i < |bounds| && BoundsBefore(bounds, samples, rank, i)
    ensures if SumTo(buckets, i + 1) >= rank then CoveringBound(bounds, samples, rank) == bounds[i]
            else BoundsBefore(bounds, samples, rank, i + 1)
  {
    if 1 <= rank <= |samples| {
      Reaches(bounds, buckets, samples, i, rank);
      if SumTo(buckets, i + 1) >= rank {
        FirstReached(bounds, SortedSamples(samples)[rank - 1], i);
      }
    } else if rank > |samples| {
      SumIsBounded(bounds, buckets, samples, i + 1);
    }
  }

  lemma {:induction false} NoneCovers(bounds: seq<u64>, samples: seq<u64>, rank: nat)
    requires |bounds| > 0 && BoundsBefore(bounds, samples, rank, |bounds|)
    ensures CoveringBound(bounds, samples, rank) == U64_MAX
  {
    if 1 <= rank <= |samples| {
      FirstReached(bounds, SortedSamples(samples)[rank - 1], |bounds|);
    }
  }

  lemma {:induction false} CountAtMostIsBounded(samples: seq<u64>, x: u64)
    ensures CountAtMost(samples, x) <= |samples|
  {
    if samples != [] {
      CountAtMostIsBounded(samples[..|samples| - 1], x);
    }
  }

  lemma {:induction false} SumIsBounded(bounds: seq<u64>, buckets: seq<u64>, samples: seq<u64>, k: nat)
    requires Sorted(bounds) && Buckets(bounds, buckets, samples) && |samples| <= U64_MAX && 1 <= k <= |buckets|
    ensures SumTo(buckets, k) <= |samples|
  {
    SumIsCountBelow(bounds, buckets, samples, k);
    CountBelowIsCountAtMost(bounds, samples, k);
    if k <= |bounds| {
      CountAtMostIsBounded(samples, bounds[k - 1]);
    }
  }

  lemma {:induction false} TotalGrows(samples: seq<u64>, v: u64)
    ensures Total(samples + [v]) == Total(samples) + v
    ensures WrapU64(Total(samples) % 0x1_0000_0000_0000_0000 + v) == Total(samples + [v]) % 0x1_0000_0000_0000_0000
  {
    assert (samples + [v])[..|samples|] == samples;
    SumWraps(Total(samples), v);
  }
}
