/** Requests the engine can be sent at which the source departs from its intent, taken through the linked
    book. */
module Departures {
  import opened Exchange
  import opened Pools
  import opened PriceIndex
  import opened PriceTimeBook
  import opened BookInvariant
  import opened RestingOrders
  import opened QueueViews
  import opened Lookups
  import opened Engine
  import RoundTrip

  // ----- order_book.cpp line 313: the map entry of a live order is overwritten

  /** Two new orders of one client under one id and on one side: if something of each is left to
      rest, the second is not admissible. */
  lemma ReusedIdIsNotAdmissible(b: Book, first: Request, second: Request)
    requires Inv(b) && first.kind == second.kind == NewRequest && Admissible(b, first)
    requires first.side == second.side && first.clientId == second.clientId && first.orderId == second.orderId
    requires MatchOf(b, first).remains > 0 && MatchOf(AddOrder(b, first).book, second).remains > 0
    ensures !Admissible(AddOrder(b, first).book, second)
  {
    var own := b.Queue(first.side);
    var o := RestingOrder(first, b.nextMarketOid, MatchOf(b, first).remains, NextPriority(own, first.price));
    RoundTrip.RemoveUndoesInsert(own, o);
    var b' := AddOrder(b, first).book;
    assert b'.Queue(first.side) == Insert(own, o);
    assert AfterMatch(b', second).Queue(first.side) == Insert(own, o);
  }

  /** An order to buy, resting alone on an empty book. */
  lemma FirstOrderRests(first: Request, limits: Limits)
    requires limits.levels > 0 && first.kind == NewRequest && first.side == Buy && first.qty > 0
    requires first.clientId < limits.clients && first.orderId < limits.orderIds && limits.orders > 0
    ensures RunServable(EMPTY_BOOK, [first], limits)
    ensures Run(EMPTY_BOOK, [first]).book == Book([RestingOrder(first, 1, first.qty, 1)], [], 2)
  {
    assert [first][..0] == [];
    assert Run(EMPTY_BOOK, []).book == EMPTY_BOOK;
    assert Servable(EMPTY_BOOK, first, limits);
  }

  /** An engine that was sent one order to buy. */
  method FirstOrder(first: Request, limits: Limits) returns (engine: MatchingEngine)
    requires limits.levels > 0 && first.kind == NewRequest && first.side == Buy && first.qty > 0
    requires first.clientId < limits.clients && first.orderId < limits.orderIds && limits.orders > 0
    ensures engine.Valid() && engine.orderBook.Bounds() == limits
    ensures engine.orderBook.Contents() == Book([RestingOrder(first, 1, first.qty, 1)], [], 2)
    ensures fresh(engine.output) && fresh(engine.orderBook) && fresh(engine.orderBook.mapPriceToPriceLevel)
    ensures fresh(engine.orderBook.orderPool) && fresh(engine.orderBook.orderPool.memoryBlocks)
    ensures fresh(engine.orderBook.ordersAtPricePool) && fresh(engine.orderBook.ordersAtPricePool.memoryBlocks)
  {
    FirstOrderRests(first, limits);
    engine := new MatchingEngine(limits);
    engine.RunMatchingEngine([first]);
  }

  /** A client buys 10 at 100 and then 5 at 100 under the same id. Both orders rest, in order; the
      client map names the second, and nothing names the first: it can no longer be cancelled. */
  method ReusedIdExample(limits: Limits) returns (engine: MatchingEngine, newer: int, ghost older: int)
    requires limits.levels > 0 && limits.clients > 1 && limits.orderIds > 7 && limits.orders >= 2
    ensures var book := engine.orderBook;
            var first := Request(NewRequest, 1, 0, 7, Buy, 100, 10);
            var second := first.(qty := 5);
            && !Admissible(AddOrder(EMPTY_BOOK, first).book, second)
            && book.PoolsOk() && StoreSound(book.State(), book.orderPool.used, book.ordersAtPricePool.used)
            && Rest(book.State(), book.orderPool.used, book.ordersAtPricePool.used, Buy) ==
               [RestingOrder(first, 1, 10, 1), RestingOrder(second, 2, 5, 2)]
            && book.OnlyNewerIsNamed((1, 7), older, newer)
  {
    var first := Request(NewRequest, 1, 0, 7, Buy, 100, 10);
    var second := first.(qty := 5);
    engine := FirstOrder(first, limits);
    SecondOrderRests(first, second, limits);
    newer, older := engine.orderBook.AddOrderUnderUsedId(second);
  }

  lemma SecondOrderRests(first: Request, second: Request, limits: Limits)
    requires limits.levels > 0 && first.kind == NewRequest && first.side == Buy && first.qty > 0
    requires first.clientId < limits.clients && first.orderId < limits.orderIds && limits.orders >= 2
    requires second == first.(qty := second.qty) && second.qty > 0
    ensures var o := RestingOrder(first, 1, first.qty, 1);
            var b := Book([o], [], 2);
            && MatchOf(b, second).remains == second.qty && AfterMatch(b, second) == b
            && RestServable(b, second, limits) && !KeyFreeIn(b, (second.clientId, second.orderId))
            && AddOrder(EMPTY_BOOK, first).book == b && !Admissible(b, second)
            && NextPriority([o], second.price) == 2
            && Insert([o], RestingOrder(second, 2, second.qty, 2)) == [o, RestingOrder(second, 2, second.qty, 2)]
  {
    var o := RestingOrder(first, 1, first.qty, 1);
    assert [o][1..] == [] && [o][0].Key() == (second.clientId, second.orderId);
  }

  // ----- order_book.h lines 106-112: the level found need not have the price

  lemma AWindowAway(p: int, q: int, n: nat)
    requires n == 256 && q == p + n
    ensures TWO_TO_THE_64 % n == 0 && (q - p) % n == 0
  {
  }

  /** With 256 levels a client buys at 100, and another order to buy comes at 356: it cannot be served,
      because its price leads to the level of 100. */
  method CollidingPriceExample(limits: Limits) returns (engine: MatchingEngine)
    requires limits.levels == 256 && limits.clients > 1 && limits.orderIds > 8 && limits.orders >= 2
    ensures var book := engine.orderBook;
            var second := Request(NewRequest, 1, 0, 8, Buy, 356, 5);
            && engine.Valid() && book.Bounds() == limits
            && MatchOf(book.Contents(), second).remains > 0 && !Servable(book.Contents(), second, limits)
            && var l := book.Levels().slots[book.Levels().Slot(356)];
               l != NULL && book.Levels().Block(l) && book.Levels().Price(l) == 100
  {
    var first := Request(NewRequest, 1, 0, 7, Buy, 100, 10);
    engine := FirstOrder(first, limits);
    assert engine.orderBook.SideQueue(Buy) == engine.orderBook.Contents().bids == [RestingOrder(first, 1, 10, 1)];
    AWindowAway(100, 356, engine.orderBook.mapPriceToPriceLevel.Length);
    engine.orderBook.OtherPriceLeadsTo(Buy, 0, 356);
    assert AfterMatch(engine.orderBook.Contents(), Request(NewRequest, 1, 0, 8, Buy, 356, 5)) == engine.orderBook.Contents();
  }
}
