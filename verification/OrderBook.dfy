/** The single-symbol L2 book: two price -> quantity maps, a position, and a stale flag. */
module OrderBooks {
  import opened Integers
  import opened Messages
  import opened Utf8
  import opened Wrappers

  type Side = map<i64, i64>

  datatype Book = Book(
    bids: Side,
    asks: Side,
    lastUpdateId: u64,
    stale: bool,
    staleReason: Option<BookStaleReason>)

  // --- One side --------------------------------------------------------------

  function ApplyLevel(side: Side, level: PriceLevel): Side {
    if level.qty == 0 then side - {level.price} else side[level.price := level.qty]
  }

  function ApplyLevels(side: Side, levels: seq<PriceLevel>): Side {
    if levels == [] then side
    else ApplyLevel(ApplyLevels(side, levels[..|levels| - 1]), levels[|levels| - 1])
  }

  function SnapshotSide(levels: seq<PriceLevel>): Side {
    if levels == [] then map[]
    else
      var side := SnapshotSide(levels[..|levels| - 1]);
      var level := levels[|levels| - 1];
      if level.qty > 0 then side[level.price := level.qty] else side
  }

  // What a list of levels says about one price: the last entry for it wins.
  function LastQty(levels: seq<PriceLevel>, price: i64): Option<i64> {
    if levels == [] then None
    else if levels[|levels| - 1].price == price then Some(levels[|levels| - 1].qty)
    else LastQty(levels[..|levels| - 1], price)
  }

  // Quantity resting at a price; an absent level rests nothing.
  function At(side: Side, price: i64): i64 {
    if price in side then side[price] else 0
  }

  ghost predicate ZeroFree(side: Side) {
    forall p | p in side :: side[p] != 0
  }

  ghost predicate Positive(side: Side) {
    forall p | p in side :: side[p] > 0
  }

  predicate NonNegative(levels: seq<PriceLevel>) {
    forall i | 0 <= i < |levels| :: levels[i].qty >= 0
  }

  // Level-by-level update is exactly a last-write-wins overlay.
  lemma {:induction false} ApplyLevelsIsOverlay(side: Side, levels: seq<PriceLevel>, price: i64)
    ensures match LastQty(levels, price)
            case None => (price in ApplyLevels(side, levels) <==> price in side)
                         && At(ApplyLevels(side, levels), price) == At(side, price)
            case Some(q) => (price in ApplyLevels(side, levels) <==> q != 0)
                            && At(ApplyLevels(side, levels), price) == q
  {
    if levels != [] {
      ApplyLevelsIsOverlay(side, levels[..|levels| - 1], price);
    }
  }

  // The order inside a delta is irrelevant beyond the last word on each price:
  // two lists that agree there produce the same side from any side.
  lemma {:induction false} OnlyLastWritesMatter(side: Side, a: seq<PriceLevel>, b: seq<PriceLevel>)
    requires forall p: i64 :: LastQty(a, p) == LastQty(b, p)
    ensures ApplyLevels(side, a) == ApplyLevels(side, b)
  {
    forall p: i64
      ensures p in ApplyLevels(side, a) <==> p in ApplyLevels(side, b)
      ensures At(ApplyLevels(side, a), p) == At(ApplyLevels(side, b), p)
    {
      ApplyLevelsIsOverlay(side, a, p);
      ApplyLevelsIsOverlay(side, b, p);
    }
    forall p | p in ApplyLevels(side, a)
      ensures ApplyLevels(side, a)[p] == ApplyLevels(side, b)[p]
    {
      assert At(ApplyLevels(side, a), p) == At(ApplyLevels(side, b), p);
    }
  }

  // Two deltas in sequence equal one delta carrying both level lists.
  lemma {:induction false} ApplyLevelsCompose(side: Side, a: seq<PriceLevel>, b: seq<PriceLevel>)
    ensures ApplyLevels(ApplyLevels(side, a), b) == ApplyLevels(side, a + b)
  {
    if b == [] {
      assert a + b == a;
    } else {
      ApplyLevelsCompose(side, a, b[..|b| - 1]);
      assert (a + b)[..|a + b| - 1] == a + b[..|b| - 1];
    }
  }

  lemma {:induction false} ApplyLevelsZeroFree(side: Side, levels: seq<PriceLevel>)
    requires ZeroFree(side)
    ensures ZeroFree(ApplyLevels(side, levels))
  {
    if levels != [] {
      ApplyLevelsZeroFree(side, levels[..|levels| - 1]);
    }
  }

  // Stored quantities stay positive as long as no delta carries a negative one.
  lemma {:induction false} ApplyLevelsPositive(side: Side, levels: seq<PriceLevel>)
    requires Positive(side)
    requires NonNegative(levels)
    ensures Positive(ApplyLevels(side, levels))
  {
    if levels != [] {
      ApplyLevelsPositive(side, levels[..|levels| - 1]);
    }
  }

  // --- The whole book --------------------------------------------------------

  function Snapshotted(book: Book, snap: BookSnapshot): Book {
    book.(bids := SnapshotSide(snap.bids), asks := SnapshotSide(snap.asks), lastUpdateId := snap.updateId)
  }

  function Updated(book: Book, delta: BookDelta): Book {
    book.(bids := ApplyLevels(book.bids, delta.bids),
          asks := ApplyLevels(book.asks, delta.asks),
          lastUpdateId := delta.finalUpdateId)
  }

  datatype BookEvent = Replaced(snapshot: BookSnapshot) | Changed(delta: BookDelta)

  function AfterEvents(book: Book, events: seq<BookEvent>): Book {
    if events == [] then book
    else
      var before := AfterEvents(book, events[..|events| - 1]);
      match events[|events| - 1]
      case Replaced(snapshot) => Snapshotted(before, snapshot)
      case Changed(delta) => Updated(before, delta)
  }

  // The i-th entry puts a quantity at the price.
  predicate Rests(levels: seq<PriceLevel>, i: int, price: i64) {
    0 <= i < |levels| && levels[i].price == price && levels[i].qty > 0
  }

  // The last entry to do so.
  predicate RestsLast(levels: seq<PriceLevel>, i: int, price: i64) {
    Rests(levels, i, price) && forall j | i < j < |levels| :: !Rests(levels, j, price)
  }

  // A side holds a snapshot's list when its prices are those with an entry of positive quantity, and
  // each has the quantity of the last such entry.
  ghost predicate Holds(side: Side, levels: seq<PriceLevel>) {
    && (forall p: i64 :: p in side <==> exists i :: Rests(levels, i, p))
    && (forall p: i64, i | RestsLast(levels, i, p) && p in side :: side[p] == levels[i].qty)
  }

  lemma {:induction false} RestsSnoc(front: seq<PriceLevel>, last: PriceLevel, p: i64)
    ensures var all := front + [last];
            && (forall i | 0 <= i < |front| :: Rests(all, i, p) <==> Rests(front, i, p))
            && (Rests(all, |front|, p) <==> last.price == p && last.qty > 0)
            && ((exists i :: Rests(all, i, p))
                <==> (exists i :: Rests(front, i, p)) || (last.price == p && last.qty > 0))
  {
    var all := front + [last];
    if i :| Rests(front, i, p) {
      assert Rests(all, i, p);
    }
    if last.price == p && last.qty > 0 {
      assert Rests(all, |front|, p);
    }
    if i :| Rests(all, i, p) && i < |front| {
      assert Rests(front, i, p);
    }
  }

  lemma {:induction false} LastSnoc(front: seq<PriceLevel>, last: PriceLevel, p: i64, i: int)
    requires RestsLast(front + [last], i, p)
    ensures if last.price == p && last.qty > 0 then i == |front| else i < |front| && RestsLast(front, i, p)
  {
    RestsSnoc(front, last, p);
    forall j | i < j < |front|
      ensures !Rests(front, j, p)
    {
      assert !Rests(front + [last], j, p);
    }
  }

  // What a snapshot's list leaves, whatever it lists.
  lemma {:induction false} SnapshotSideHolds(levels: seq<PriceLevel>)
    ensures Holds(SnapshotSide(levels), levels)
  {
    if levels != [] {
      var front, last := levels[..|levels| - 1], levels[|levels| - 1];
      assert levels == front + [last];
      SnapshotSideHolds(front);
      forall p: i64
        ensures p in SnapshotSide(levels) <==> exists i :: Rests(levels, i, p)
      {
        RestsSnoc(front, last, p);
      }
      forall p: i64, i | RestsLast(levels, i, p) && p in SnapshotSide(levels)
        ensures SnapshotSide(levels)[p] == levels[i].qty
      {
        LastSnoc(front, last, p, i);
        RestsSnoc(front, last, p);
      }
    }
  }

  lemma {:induction false} LastExists(levels: seq<PriceLevel>, i: int, p: i64) returns (k: int)
    requires Rests(levels, i, p)
    ensures RestsLast(levels, k, p)
    decreases |levels| - i
  {
    k := i;
    if j :| i < j < |levels| && Rests(levels, j, p) {
      k := LastExists(levels, j, p);
    }
  }

  // There is but one side that holds a list.
  lemma {:induction false} HoldsIff(side: Side, levels: seq<PriceLevel>)
    ensures Holds(side, levels) <==> side == SnapshotSide(levels)
  {
    SnapshotSideHolds(levels);
    if Holds(side, levels) {
      forall p | p in side
        ensures p in SnapshotSide(levels) && side[p] == SnapshotSide(levels)[p]
      {
        var i :| Rests(levels, i, p);
        var k := LastExists(levels, i, p);
      }
      assert side.Keys == SnapshotSide(levels).Keys;
    }
  }

  predicate Distinct(levels: seq<PriceLevel>) {
    forall i, j | 0 <= i < j < |levels| :: levels[i].price != levels[j].price
  }

  predicate AllRest(levels: seq<PriceLevel>) {
    forall i | 0 <= i < |levels| :: levels[i].qty > 0
  }

  lemma {:induction false} DistinctIsAbsent(front: seq<PriceLevel>, last: PriceLevel)
    requires Distinct(front + [last])
    ensures last.price !in SnapshotSide(front)
  {
    SnapshotSideHolds(front);
    var all := front + [last];
    forall i | 0 <= i < |front|
      ensures front[i].price != last.price
    {
      assert all[i] == front[i] && all[|front|] == last;
    }
  }

  lemma {:induction false} OneMoreRests(side: Side, level: PriceLevel)
    requires level.price !in side
    ensures |side[level.price := level.qty]| == |side| + 1
  {
    assert side[level.price := level.qty].Keys == side.Keys + {level.price};
  }

  // With distinct prices and positive quantities that is one level each.
  lemma {:induction false} DistinctLevelsAllRest(levels: seq<PriceLevel>)
    requires Distinct(levels) && AllRest(levels)
    ensures |SnapshotSide(levels)| == |levels|
  {
    if levels != [] {
      var front, last := levels[..|levels| - 1], levels[|levels| - 1];
      assert levels == front + [last];
      DistinctLevelsAllRest(front);
      DistinctIsAbsent(front, last);
      OneMoreRests(SnapshotSide(front), last);
    }
  }

  lemma {:induction false} SnapshotSidePositive(levels: seq<PriceLevel>)
    ensures Positive(SnapshotSide(levels))
  {
    if levels != [] {
      SnapshotSidePositive(levels[..|levels| - 1]);
    }
  }

  // Whatever snapshots and deltas arrive, every stored quantity is positive, as long as no delta
  // carries a negative one.
  lemma {:induction false} StoredQuantitiesArePositive(book: Book, events: seq<BookEvent>)
    requires Positive(book.bids) && Positive(book.asks)
    requires forall i | 0 <= i < |events| && events[i].Changed? ::
               NonNegative(events[i].delta.bids) && NonNegative(events[i].delta.asks)
    ensures var after := AfterEvents(book, events); Positive(after.bids) && Positive(after.asks)
  {
    if events != [] {
      var before := AfterEvents(book, events[..|events| - 1]);
      StoredQuantitiesArePositive(book, events[..|events| - 1]);
      match events[|events| - 1]
      case Replaced(snapshot) =>
        SnapshotSidePositive(snapshot.bids);
        SnapshotSidePositive(snapshot.asks);
      case Changed(delta) =>
        ApplyLevelsPositive(before.bids, delta.bids);
        ApplyLevelsPositive(before.asks, delta.asks);
    }
  }

  class OrderBook {
    const symbol: Str
    var bids: Side
    var asks: Side
    var lastUpdateId: u64
    var stale: bool
    var staleReason: Option<BookStaleReason>

    function View(): Book
      reads this
    {
      Book(bids, asks, lastUpdateId, stale, staleReason)
    }

    constructor (symbol: Str)
      ensures this.symbol == symbol
      ensures View() == Book(map[], map[], 0, false, None)
    {
      this.symbol := symbol;
      bids, asks := map[], map[];
      lastUpdateId, stale, staleReason := 0, false, None;
    }

    method MarkStale(reason: BookStaleReason)
      modifies this
      ensures View() == old(View()).(stale := true, staleReason := Some(reason))
    {
      stale, staleReason := true, Some(reason);
    }

    method MarkRecovered()
      modifies this
      ensures View() == old(View()).(stale := false, staleReason := None)
    {
      stale, staleReason := false, None;
    }

    method ApplySnapshot(snap: BookSnapshot)
      modifies this
      ensures View() == Snapshotted(old(View()), snap)
      ensures Holds(bids, snap.bids) && Holds(asks, snap.asks) && lastUpdateId == snap.updateId
      ensures unchanged(this`stale, this`staleReason)
    {
      bids, asks := map[], map[];
      for i := 0 to |snap.bids|
        invariant View() == old(View()).(bids := SnapshotSide(snap.bids[..i]), asks := map[])
      {
        assert snap.bids[..i + 1][..i] == snap.bids[..i];
        if snap.bids[i].qty > 0 {
          bids := bids[snap.bids[i].price := snap.bids[i].qty];
        }
      }
      assert snap.bids[..|snap.bids|] == snap.bids;
      for i := 0 to |snap.asks|
        invariant View() == old(View()).(bids := SnapshotSide(snap.bids), asks := SnapshotSide(snap.asks[..i]))
      {
        assert snap.asks[..i + 1][..i] == snap.asks[..i];
        if snap.asks[i].qty > 0 {
          asks := asks[snap.asks[i].price := snap.asks[i].qty];
        }
      }
      assert snap.asks[..|snap.asks|] == snap.asks;
      lastUpdateId := snap.updateId;
      SnapshotSideHolds(snap.bids);
      SnapshotSideHolds(snap.asks);
    }

    method ApplyDelta(delta: BookDelta)
      modifies this
      ensures View() == Updated(old(View()), delta)
    {
      bids := ApplyLevelList(bids, delta.bids);
      asks := ApplyLevelList(asks, delta.asks);
      lastUpdateId := delta.finalUpdateId;
    }
  }

  method ApplyLevelList(side: Side, levels: seq<PriceLevel>) returns (r: Side)
    ensures r == ApplyLevels(side, levels)
  {
    r := side;
    for i := 0 to |levels|
      invariant r == ApplyLevels(side, levels[..i])
    {
      assert levels[..i + 1][..i] == levels[..i];
      if levels[i].qty == 0 {
        r := r - {levels[i].price};
      } else {
        r := r[levels[i].price := levels[i].qty];
      }
    }
    assert levels[..|levels|] == levels;
  }
}
