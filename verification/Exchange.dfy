/**
 * The exchange as a ghost history: its true book after every update id, and
 * what it means for a delta or a snapshot to report that history honestly.
 */
module Exchange {
  import opened Integers
  import opened Messages
  import opened OrderBooks

  datatype History = History(bids: nat -> Side, asks: nat -> Side)

  // The prices on each side whose state the local book claims to know.
  // REST snapshots are depth-capped, so this need not be every price.
  datatype Cover = Cover(bids: iset<i64>, asks: iset<i64>)

  const EveryPrice: Cover := Cover(iset p: i64 | true, iset p: i64 | true)
  const NoPrice: Cover := Cover(iset{}, iset{})

  ghost predicate WellFormed(h: History) {
    forall n: nat :: ZeroFree(h.bids(n)) && ZeroFree(h.asks(n))
  }

  ghost function Restrict(side: Side, cover: iset<i64>): Side {
    map p | p in side && p in cover :: side[p]
  }

  // A list of levels reports the span lo..hi honestly when it carries the quantity
  // at hi of every price it names, and every other price rests unchanged over the span.
  ghost predicate HonestSide(h: nat -> Side, levels: seq<PriceLevel>, lo: nat, hi: nat) {
    forall p: i64 ::
      match LastQty(levels, p)
      case Some(q) => q == At(h(hi), p)
      case None => forall n: nat | lo <= n <= hi :: At(h(n), p) == At(h(hi), p)
  }

  ghost predicate HonestSpan(h: History, delta: BookDelta, lo: nat) {
    && lo <= delta.finalUpdateId
    && HonestSide(h.bids, delta.bids, lo, delta.finalUpdateId)
    && HonestSide(h.asks, delta.asks, lo, delta.finalUpdateId)
  }

  ghost predicate HonestSnapshot(h: History, snap: BookSnapshot, cover: Cover) {
    && Holds(Restrict(h.bids(snap.updateId), cover.bids), snap.bids)
    && Holds(Restrict(h.asks(snap.updateId), cover.asks), snap.asks)
  }

  // Installing an honest snapshot shows the exchange's book at its id.
  lemma {:induction false} SnapshotShows(h: History, snap: BookSnapshot, cover: Cover, book: Book)
    requires HonestSnapshot(h, snap, cover)
    ensures Shows(h, cover, Snapshotted(book, snap), snap.updateId)
  {
    HoldsIff(Restrict(h.bids(snap.updateId), cover.bids), snap.bids);
    HoldsIff(Restrict(h.asks(snap.updateId), cover.asks), snap.asks);
  }

  // The local book shows, on the cover, the exchange's book at update id n, and nothing else.
  ghost predicate Shows(h: History, cover: Cover, book: Book, n: nat) {
    && book.lastUpdateId == n
    && book.bids == Restrict(h.bids(n), cover.bids)
    && book.asks == Restrict(h.asks(n), cover.asks)
  }

  ghost function Named(levels: seq<PriceLevel>): iset<i64> {
    iset p: i64 | LastQty(levels, p).Some?
  }

  // A delta also teaches the book the prices it names.
  ghost function Widened(cover: Cover, delta: BookDelta): Cover {
    Cover(cover.bids + Named(delta.bids), cover.asks + Named(delta.asks))
  }

  lemma {:induction false} AdvanceSide(h: nat -> Side, levels: seq<PriceLevel>, lo: nat, k: nat, hi: nat,
                                       cover: iset<i64>)
    requires ZeroFree(h(k)) && ZeroFree(h(hi))
    requires HonestSide(h, levels, lo, hi) && lo <= k <= hi
    ensures ApplyLevels(Restrict(h(k), cover), levels) == Restrict(h(hi), cover + Named(levels))
  {
    var before := Restrict(h(k), cover);
    var after := ApplyLevels(before, levels);
    var target := Restrict(h(hi), cover + Named(levels));
    forall p: i64
      ensures p in after <==> p in target
      ensures At(after, p) == At(target, p)
    {
      ApplyLevelsIsOverlay(before, levels, p);
      if LastQty(levels, p).None? {
        assert At(h(k), p) == At(h(hi), p);
      }
    }
    forall p | p in after
      ensures after[p] == target[p]
    {
      assert At(after, p) == At(target, p);
    }
  }

  // The heart of the protocol: from any position inside the span of an honest delta,
  // applying it lands exactly on the exchange's book at the delta's final id.
  lemma {:induction false} Advance(h: History, cover: Cover, book: Book, k: nat, delta: BookDelta, lo: nat)
    requires WellFormed(h) && Shows(h, cover, book, k)
    requires HonestSpan(h, delta, lo) && lo <= k <= delta.finalUpdateId
    ensures Shows(h, Widened(cover, delta), Updated(book, delta), delta.finalUpdateId)
  {
    AdvanceSide(h.bids, delta.bids, lo, k, delta.finalUpdateId, cover.bids);
    AdvanceSide(h.asks, delta.asks, lo, k, delta.finalUpdateId, cover.asks);
  }

  // Some price whose quantity a delta does not tell.
  ghost predicate LeavesOpen(levels: seq<PriceLevel>) {
    exists p: i64 :: LastQty(levels, p).None?
  }

  // Before id k one side, after it another.
  ghost function Jump(k: nat, before: Side, after: Side): nat -> Side {
    (n: nat) => if n <= k then before else after
  }

  // The same side as a delta leaves, but for one price it does not name.
  ghost function Otherwise(side: Side, levels: seq<PriceLevel>, p: i64): Side {
    ApplyLevels(side, levels)[p := if At(side, p) == 1 then 2 else 1]
  }

  lemma {:induction false} JumpIsHonest(k: nat, before: Side, after: Side, levels: seq<PriceLevel>, lo: nat, hi: nat)
    requires k < lo <= hi
    requires forall p: i64 :: LastQty(levels, p).Some? ==> At(after, p) == LastQty(levels, p).value
    ensures HonestSide(Jump(k, before, after), levels, lo, hi)
  {
  }

  lemma {:induction false} ApplyingIsHonest(k: nat, side: Side, levels: seq<PriceLevel>, lo: nat, hi: nat)
    requires ZeroFree(side) && k < lo <= hi
    ensures ZeroFree(ApplyLevels(side, levels))
    ensures HonestSide(Jump(k, side, ApplyLevels(side, levels)), levels, lo, hi)
  {
    ApplyLevelsZeroFree(side, levels);
    forall p: i64 | LastQty(levels, p).Some?
      ensures At(ApplyLevels(side, levels), p) == LastQty(levels, p).value
    {
      ApplyLevelsIsOverlay(side, levels, p);
    }
    JumpIsHonest(k, side, ApplyLevels(side, levels), levels, lo, hi);
  }

  lemma {:induction false} OtherwiseIsHonest(k: nat, side: Side, levels: seq<PriceLevel>, p: i64, lo: nat, hi: nat)
    requires ZeroFree(side) && k < lo <= hi && LastQty(levels, p).None?
    ensures ZeroFree(Otherwise(side, levels, p)) && Otherwise(side, levels, p) != ApplyLevels(side, levels)
    ensures HonestSide(Jump(k, side, Otherwise(side, levels, p)), levels, lo, hi)
  {
    ApplyLevelsZeroFree(side, levels);
    ApplyLevelsIsOverlay(side, levels, p);
    assert At(ApplyLevels(side, levels), p) != At(Otherwise(side, levels, p), p);
    forall q: i64 | LastQty(levels, q).Some?
      ensures At(Otherwise(side, levels, p), q) == LastQty(levels, q).value
    {
      ApplyLevelsIsOverlay(side, levels, q);
    }
    JumpIsHonest(k, side, Otherwise(side, levels, p), levels, lo, hi);
  }

  // The position rule cannot be relaxed. Whatever the book and the delta, if the delta starts above
  // the book's position and leaves a price open, then there is an exchange for which book and delta
  // are honest and applying the delta yields a wrong book.
  lemma {:induction false} SkippingIsUnsound(k: u64, book: Book, delta: BookDelta, lo: nat) returns (h: History)
    requires ZeroFree(book.bids) && ZeroFree(book.asks) && book.lastUpdateId == k < lo <= delta.finalUpdateId
    requires LeavesOpen(delta.bids) || LeavesOpen(delta.asks)
    ensures WellFormed(h) && Shows(h, EveryPrice, book, k) && HonestSpan(h, delta, lo)
    ensures !Shows(h, EveryPrice, Updated(book, delta), delta.finalUpdateId)
  {
    var hi := delta.finalUpdateId;
    var bids, asks := ApplyLevels(book.bids, delta.bids), ApplyLevels(book.asks, delta.asks);
    ApplyingIsHonest(k, book.bids, delta.bids, lo, hi);
    ApplyingIsHonest(k, book.asks, delta.asks, lo, hi);
    if p: i64 :| LastQty(delta.bids, p).None? {
      OtherwiseIsHonest(k, book.bids, delta.bids, p, lo, hi);
      bids := Otherwise(book.bids, delta.bids, p);
    } else {
      var p: i64 :| LastQty(delta.asks, p).None?;
      OtherwiseIsHonest(k, book.asks, delta.asks, p, lo, hi);
      asks := Otherwise(book.asks, delta.asks, p);
    }
    h := History(Jump(k, book.bids, bids), Jump(k, book.asks, asks));
    assert Restrict(bids, EveryPrice.bids) == bids && Restrict(asks, EveryPrice.asks) == asks;
  }

  // And only then: a delta that leaves no price open sets the whole book right from anywhere.
  lemma {:induction false} NamingEverythingIsSound(h: History, book: Book, delta: BookDelta, lo: nat)
    requires WellFormed(h) && HonestSpan(h, delta, lo)
    requires !LeavesOpen(delta.bids) && !LeavesOpen(delta.asks)
    ensures Shows(h, EveryPrice, Updated(book, delta), delta.finalUpdateId)
  {
    NamedSideIsRight(h.bids, book.bids, delta.bids, lo, delta.finalUpdateId);
    NamedSideIsRight(h.asks, book.asks, delta.asks, lo, delta.finalUpdateId);
  }

  lemma {:induction false} NamedSideIsRight(h: nat -> Side, side: Side, levels: seq<PriceLevel>, lo: nat, hi: nat)
    requires ZeroFree(h(hi)) && HonestSide(h, levels, lo, hi) && !LeavesOpen(levels)
    ensures ApplyLevels(side, levels) == h(hi) == Restrict(h(hi), EveryPrice.bids)
  {
    var after := ApplyLevels(side, levels);
    forall p: i64
      ensures (p in after <==> p in h(hi)) && At(after, p) == At(h(hi), p)
    {
      ApplyLevelsIsOverlay(side, levels, p);
    }
    forall p | p in after
      ensures after[p] == h(hi)[p]
    {
      assert At(after, p) == At(h(hi), p);
    }
  }

  // Where the book claims a price, it is right; with every price covered it is the exchange's book.
  lemma {:induction false} ShowsMeansRight(h: History, cover: Cover, book: Book, n: nat)
    requires WellFormed(h) && Shows(h, cover, book, n)
    ensures forall p | p in cover.bids :: At(book.bids, p) == At(h.bids(n), p)
    ensures forall p | p in cover.asks :: At(book.asks, p) == At(h.asks(n), p)
    ensures forall p | p in book.bids :: p in h.bids(n) && book.bids[p] == h.bids(n)[p]
    ensures forall p | p in book.asks :: p in h.asks(n) && book.asks[p] == h.asks(n)[p]
    ensures cover == EveryPrice ==> book.bids == h.bids(n) && book.asks == h.asks(n)
  {
  }
}
