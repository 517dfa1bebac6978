/** Runs whose prices all lie in one window as wide as the price array never meet a price collision. */
module PriceWindow {
  import opened Exchange
  import opened PriceIndex
  import opened PriceTimeBook
  import opened BookInvariant
  import opened Lookups

  predicate InWindow(price: int, low: int, n: nat) { low <= price < low + n }

  predicate Windowed(q: seq<Order>, low: int, n: nat) {
    forall i :: 0 <= i < |q| ==> InWindow(q[i].price, low, n)
  }

  predicate WindowedBook(b: Book, low: int, n: nat) {
    Windowed(b.bids, low, n) && Windowed(b.asks, low, n)
  }

  predicate WindowedRequests(rs: seq<Request>, low: int, n: nat) {
    forall i :: 0 <= i < |rs| && rs[i].kind == NewRequest ==> InWindow(rs[i].price, low, n)
  }

  lemma WindowFits(q: seq<Order>, price: int, low: int, n: nat)
    requires n > 0 && TWO_TO_THE_64 % n == 0 && Windowed(q, low, n) && InWindow(price, low, n)
    ensures Fits(q, price, n)
  {
    forall i | 0 <= i < |q|
      ensures PriceToIndex(q[i].price, n) == PriceToIndex(price, n) ==> q[i].price == price
    {
      WindowHasNoCollision(q[i].price, price, n);
    }
  }

  lemma {:induction false} MatchKeepsWindow(t: Taker, qty: nat, q: seq<Order>, low: int, n: nat)
    requires Windowed(q, low, n)
    ensures Windowed(Match(t, qty, q).queue, low, n)
    decreases |q|, qty
  {
    if CanMatch(t, qty, q) {
      var one := MatchOne(t, qty, q);
      MatchKeepsWindow(t, one.remains, one.queue, low, n);
    }
  }

  lemma InsertKeepsWindow(q: seq<Order>, o: Order, low: int, n: nat)
    requires Windowed(q, low, n) && InWindow(o.price, low, n)
    ensures Windowed(Insert(q, o), low, n)
  {
    var k := Place(q, o);
  }

  lemma RemoveKeepsWindow(q: seq<Order>, key: (nat, nat), low: int, n: nat)
    requires Windowed(q, low, n)
    ensures Windowed(Remove(q, key), low, n)
  {
    RemoveShape(q, key);
  }

  lemma StepKeepsWindow(b: Book, r: Request, low: int, n: nat)
    requires WindowedBook(b, low, n) && (r.kind == NewRequest ==> InWindow(r.price, low, n))
    ensures WindowedBook(Step(b, r).book, low, n)
    ensures r.kind == NewRequest ==> WindowedBook(AfterMatch(b, r), low, n)
  {
    match r.kind
    case NewRequest =>
      MatchKeepsWindow(TakerOf(r, b.nextMarketOid), r.qty, b.Queue(Opposite(r.side)), low, n);
      var b' := AfterMatch(b, r);
      var own := b'.Queue(r.side);
      InsertKeepsWindow(own, RestingOrder(r, b.nextMarketOid, MatchOf(b, r).remains, NextPriority(own, r.price)), low, n);
    case CancelRequest =>
      RemoveKeepsWindow(b.bids, (r.clientId, r.orderId), low, n);
      RemoveKeepsWindow(b.asks, (r.clientId, r.orderId), low, n);
    case InvalidRequest =>
  }

  /** A request that can be served, as far as everything but its price is concerned. */
  predicate ServableButPrice(b: Book, r: Request, limits: Limits) {
    && Admissible(b, r)
    && (r.kind == NewRequest ==>
          b.nextMarketOid < ORDER_ID_INVALID && (MatchOf(b, r).remains > 0 ==> HasRoom(AfterMatch(b, r), r, limits)))
    && (r.kind == CancelRequest && r.clientId < limits.clients ==> r.orderId < limits.orderIds)
  }

  predicate RunServableButPrice(b: Book, rs: seq<Request>, limits: Limits) {
    rs == [] ||
    (RunServableButPrice(b, rs[..|rs| - 1], limits) && ServableButPrice(Run(b, rs[..|rs| - 1]).book, rs[|rs| - 1], limits))
  }

  /** If all new orders of a run lie in one window of as many prices as there are levels, no price is
      ever led to another's level: the run can be served if it could be but for prices. */
  lemma {:induction false} WindowedRunIsServable(b: Book, rs: seq<Request>, limits: Limits, low: int)
    requires limits.levels > 0 && TWO_TO_THE_64 % limits.levels == 0
    requires WindowedBook(b, low, limits.levels) && WindowedRequests(rs, low, limits.levels)
    requires RunServableButPrice(b, rs, limits)
    ensures RunServable(b, rs, limits) && WindowedBook(Run(b, rs).book, low, limits.levels)
  {
    if rs != [] {
      var before, r := rs[..|rs| - 1], rs[|rs| - 1];
      WindowedRunIsServable(b, before, limits, low);
      var now := Run(b, before).book;
      StepKeepsWindow(now, r, low, limits.levels);
      if r.kind == NewRequest {
        WindowFits(AfterMatch(now, r).bids, r.price, low, limits.levels);
        WindowFits(AfterMatch(now, r).asks, r.price, low, limits.levels);
      }
    }
  }
}
