/** What the exchange really traded on one order: a fixed fill per trade id. */
module Trades {
  import opened Integers
  import opened OrderMachine

  type TradeBook = map<u64, Fill>

  ghost predicate AllPositive(book: TradeBook) {
    forall id | id in book :: book[id].qty > 0
  }

  // Total quantity and bag of fills of a set of trades.
  ghost function SumOf(book: TradeBook, ids: set<u64>): int
    requires ids <= book.Keys
  {
    if ids == {} then 0
    else
      var id :| id in ids;
      book[id].qty + SumOf(book, ids - {id})
  }

  ghost function BagOf(book: TradeBook, ids: set<u64>): multiset<Fill>
    requires ids <= book.Keys
  {
    if ids == {} then multiset{}
    else
      var id :| id in ids;
      multiset{book[id]} + BagOf(book, ids - {id})
  }

  lemma {:induction false} OneLess(book: TradeBook, ids: set<u64>, one: u64)
    requires ids <= book.Keys && one in ids
    ensures SumOf(book, ids) == book[one].qty + SumOf(book, ids - {one})
    decreases ids
  {
    var id :| id in ids && SumOf(book, ids) == book[id].qty + SumOf(book, ids - {id});
    if id != one {
      OneLess(book, ids - {id}, one);
      OneLess(book, ids - {one}, id);
      assert ids - {id} - {one} == ids - {one} - {id};
    }
  }

  lemma {:induction false} OneLessInBag(book: TradeBook, ids: set<u64>, one: u64)
    requires ids <= book.Keys && one in ids
    ensures BagOf(book, ids) == multiset{book[one]} + BagOf(book, ids - {one})
    decreases ids
  {
    var id :| id in ids && BagOf(book, ids) == multiset{book[id]} + BagOf(book, ids - {id});
    if id != one {
      OneLessInBag(book, ids - {id}, one);
      OneLessInBag(book, ids - {one}, id);
      assert ids - {id} - {one} == ids - {one} - {id};
      BagsSwap(multiset{book[id]}, multiset{book[one]}, BagOf(book, ids - {id} - {one}));
    }
  }

  lemma {:induction false} BagsSwap(a: multiset<Fill>, b: multiset<Fill>, c: multiset<Fill>)
    ensures a + (b + c) == b + (a + c)
  {
  }

  lemma {:induction false} BagsAssociate(a: multiset<Fill>, b: multiset<Fill>, c: multiset<Fill>)
    ensures (a + b) + c == a + (b + c)
  {
  }

  lemma {:induction false} OneMore(book: TradeBook, ids: set<u64>, one: u64)
    requires ids <= book.Keys && one in book && one !in ids
    ensures SumOf(book, ids + {one}) == SumOf(book, ids) + book[one].qty
    ensures BagOf(book, ids + {one}) == BagOf(book, ids) + multiset{book[one]}
  {
    OneLess(book, ids + {one}, one);
    OneLessInBag(book, ids + {one}, one);
    assert ids + {one} - {one} == ids;
  }

  lemma {:induction false} SumGrows(book: TradeBook, few: set<u64>, many: set<u64>)
    requires AllPositive(book) && few <= many <= book.Keys
    ensures 0 <= SumOf(book, few) <= SumOf(book, many)
    ensures few != many ==> SumOf(book, few) < SumOf(book, many)
    decreases many
  {
    if id :| id in many && id !in few {
      OneLess(book, many, id);
      SumGrows(book, few, many - {id});
    } else {
      assert few == many;
      if many != {} {
        var id :| id in many;
        OneLess(book, many, id);
        SumGrows(book, many - {id}, many - {id});
      }
    }
  }

  // The exchange trades at most the given quantity, in positive fills.
  ghost predicate TradesWithin(book: TradeBook, totalQty: i64) {
    AllPositive(book) && SumOf(book, book.Keys) <= totalQty
  }

  lemma {:induction false} TradeFits(book: TradeBook, totalQty: i64, ids: set<u64>, id: u64)
    requires TradesWithin(book, totalQty) && ids <= book.Keys && id in book && id !in ids
    ensures SumOf(book, ids + {id}) == SumOf(book, ids) + book[id].qty
    ensures 0 <= SumOf(book, ids) < SumOf(book, ids + {id}) <= totalQty
  {
    OneMore(book, ids, id);
    SumGrows(book, ids + {id}, book.Keys);
    SumGrows(book, ids, ids + {id});
  }

  // --- Sequences of fills ----------------------------------------------------

  function TotalQty(fills: seq<Fill>): int {
    if fills == [] then 0 else TotalQty(fills[..|fills| - 1]) + fills[|fills| - 1].qty
  }

  // The fills of a sequence with their multiplicities, whatever their order.
  function Bag(fills: seq<Fill>): multiset<Fill> {
    if fills == [] then multiset{} else Bag(fills[..|fills| - 1]) + multiset{fills[|fills| - 1]}
  }

  lemma {:induction false} BagSnoc(fills: seq<Fill>, fill: Fill)
    ensures Bag(fills + [fill]) == Bag(fills) + multiset{fill}
  {
    assert (fills + [fill])[..|fills|] == fills;
  }

  lemma {:induction false} BagConcat(a: seq<Fill>, b: seq<Fill>)
    ensures Bag(a + b) == Bag(a) + Bag(b)
  {
    if b == [] {
      assert a + b == a;
    } else {
      var front, last := b[..|b| - 1], b[|b| - 1];
      BagConcat(a, front);
      assert a + b == (a + front) + [last] && b == front + [last];
      BagSnoc(a + front, last);
      BagSnoc(front, last);
      BagsAssociate(Bag(a), Bag(front), multiset{last});
    }
  }

  lemma {:induction false} BagIsMultiset(fills: seq<Fill>)
    ensures Bag(fills) == multiset(fills)
  {
    if fills != [] {
      BagIsMultiset(fills[..|fills| - 1]);
      assert fills == fills[..|fills| - 1] + [fills[|fills| - 1]];
    }
  }

  predicate PositiveFills(fills: seq<Fill>) {
    forall i | 0 <= i < |fills| :: fills[i].qty > 0
  }

  lemma {:induction false} TotalSnoc(fills: seq<Fill>, fill: Fill)
    ensures TotalQty(fills + [fill]) == TotalQty(fills) + fill.qty
  {
    assert (fills + [fill])[..|fills|] == fills;
  }

  lemma {:induction false} TotalConcat(a: seq<Fill>, b: seq<Fill>)
    ensures TotalQty(a + b) == TotalQty(a) + TotalQty(b)
  {
    if b == [] {
      assert a + b == a;
    } else {
      TotalConcat(a, b[..|b| - 1]);
      assert (a + b)[..|a + b| - 1] == a + b[..|b| - 1];
    }
  }

  lemma {:induction false} TotalIsPositive(fills: seq<Fill>)
    requires PositiveFills(fills)
    ensures TotalQty(fills) >= 0 && (fills != [] ==> TotalQty(fills) > 0)
  {
    if fills != [] {
      TotalIsPositive(fills[..|fills| - 1]);
    }
  }

  // Adding positive fills within range never wraps.
  lemma {:induction false} AddFillsExact(qty: i64, fills: seq<Fill>)
    requires PositiveFills(fills) && qty >= 0 && qty + TotalQty(fills) <= I64_MAX
    ensures AddFills(qty, fills) == qty + TotalQty(fills)
  {
    if fills != [] {
      var front, last := fills[..|fills| - 1], fills[|fills| - 1];
      TotalIsPositive(front);
      AddFillsExact(qty, front);
      WrapInRange(qty + TotalQty(front) + last.qty);
    }
  }
}
