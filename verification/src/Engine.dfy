/** The matching engine's request loop over one instrument's book, and what it guarantees over
    every run. */
module Engine {
  import opened Exchange
  import opened PriceTimeBook
  import opened BookInvariant
  import opened Lookups
  import opened LinkedBook
  import MarketData
  import LifeCycle
  import Account
  import Register

  // ----- runs

  lemma {:induction false} RunServablePrefix(b: Book, rs: seq<Request>, limits: Limits, i: nat)
    requires limits.levels > 0 && RunServable(b, rs, limits) && i < |rs|
    ensures RunServable(b, rs[..i], limits) && Servable(Run(b, rs[..i]).book, rs[i], limits)
  {
    if i < |rs| - 1 {
      assert rs[..|rs| - 1][..i] == rs[..i];
      RunServablePrefix(b, rs[..|rs| - 1], limits, i);
    }
  }

  lemma StepKeepsClients(b: Book, r: Request, limits: Limits)
    requires Inv(b) && limits.levels > 0 && Servable(b, r, limits)
    requires ClientsBelow(b.bids, limits.clients) && ClientsBelow(b.asks, limits.clients)
    ensures ClientsBelow(Step(b, r).book.bids, limits.clients) && ClientsBelow(Step(b, r).book.asks, limits.clients)
  {
    match r.kind
    case NewRequest =>
      var m := MatchOf(b, r);
      MatchKeepsClients(TakerOf(r, b.nextMarketOid), r.qty, b.Queue(Opposite(r.side)), limits.clients);
      var own := b.Queue(r.side);
      if m.remains > 0 {
        InsertKeepsClients(own, RestingOrder(r, b.nextMarketOid, m.remains, NextPriority(own, r.price)), limits.clients);
      }
    case CancelRequest =>
      RemoveKeepsClients(b.bids, (r.clientId, r.orderId), limits.clients);
      RemoveKeepsClients(b.asks, (r.clientId, r.orderId), limits.clients);
    case InvalidRequest =>
  }

  lemma CancelReadsIds(b: Book, r: Request)
    ensures CancelOrder(b, Request(CancelRequest, r.clientId, r.tickerId, r.orderId, NoSide, 0, 0)) == CancelOrder(b, r)
  {
  }

  /** The requests of a run that are of a known type. */
  function KnownRequests(rs: seq<Request>): seq<Request> {
    if rs == [] then []
    else
      var before, last := KnownRequests(rs[..|rs| - 1]), rs[|rs| - 1];
      if last.kind == InvalidRequest then before else before + [last]
  }

  /** Requests of unknown type might as well not have been sent. */
  lemma {:induction false} UnknownRequestsDropOut(b: Book, rs: seq<Request>)
    ensures Run(b, KnownRequests(rs)) == Run(b, rs)
  {
    if rs != [] {
      var init, last := rs[..|rs| - 1], rs[|rs| - 1];
      UnknownRequestsDropOut(b, init);
      if last.kind == InvalidRequest {
        var before := Run(b, init);
        assert before.responses + [] == before.responses && before.updates + [] == before.updates;
      } else {
        var known := KnownRequests(rs);
        assert known[..|known| - 1] == KnownRequests(init);
      }
    }
  }

  /** The book and streams after an outcome on top of those of a start. */
  function Extended(start: Outcome, out: Outcome): Outcome {
    Outcome(out.book, start.responses + out.responses, start.updates + out.updates)
  }

  lemma RunOneMore(start: Outcome, rs: seq<Request>, i: nat)
    requires i < |rs|
    ensures Extended(start, Run(start.book, rs[..i + 1])) ==
            var before := Extended(start, Run(start.book, rs[..i]));
            Extended(before, Step(before.book, rs[i]))
  {
    assert rs[..i + 1][..i] == rs[..i] && rs[..i + 1][i] == rs[i];
    var before := Run(start.book, rs[..i]);
    var last := Step(before.book, rs[i]);
    assert start.responses + (before.responses + last.responses) == (start.responses + before.responses) + last.responses;
    assert start.updates + (before.updates + last.updates) == (start.updates + before.updates) + last.updates;
  }

  class MatchingEngine {
    const output: MatchingEngineOutput
    const orderBook: OrderBook

    ghost predicate Valid()
      reads orderBook, orderBook.Footprint()
    {
      orderBook.Valid() && orderBook.ome == output
    }

    constructor (limits: Limits)
      requires limits.levels > 0 && limits.orders > 0
      ensures Valid() && orderBook.Contents() == EMPTY_BOOK && orderBook.Bounds() == limits
      ensures output.clientResponses == [] && output.marketUpdates == []
      ensures fresh(output) && fresh(orderBook) && fresh(orderBook.orderPool) && fresh(orderBook.orderPool.memoryBlocks)
      ensures fresh(orderBook.ordersAtPricePool) && fresh(orderBook.ordersAtPricePool.memoryBlocks)
      ensures fresh(orderBook.mapPriceToPriceLevel)
    {
      var queues := new MatchingEngineOutput();
      output := queues;
      orderBook := new OrderBook(queues, limits);
    }

    /** Dispatches a request by its type; a request of no known type is only logged. */
    method HandleClientRequest(request: Request)
      requires Valid() && Servable(orderBook.Contents(), request, orderBook.Bounds())
      modifies output, orderBook.Footprint()
      ensures Valid() && orderBook.Bounds() == old(orderBook.Bounds())
      ensures var out := Step(old(orderBook.Contents()), request);
              && orderBook.Contents() == out.book
              && output.clientResponses == old(output.clientResponses) + out.responses
              && output.marketUpdates == old(output.marketUpdates) + out.updates
              && Account.AccountOf(old(orderBook.Contents()), request, out)
      ensures request.kind == InvalidRequest ==>
                && orderBook.Contents() == old(orderBook.Contents())
                && output.clientResponses == old(output.clientResponses)
                && output.marketUpdates == old(output.marketUpdates)
    {
      ghost var b := orderBook.Contents();
      Account.StepHasAccount(b, request);
      StepInv(b, request);
      StepKeepsClients(b, request, orderBook.Bounds());
      match request.kind {
        case NewRequest =>
          orderBook.AddOrder(request.clientId, request.orderId, request.tickerId, request.side, request.price, request.qty);
        case CancelRequest =>
          CancelReadsIds(b, request);
          orderBook.CancelOrder(request.clientId, request.orderId, request.tickerId);
        case InvalidRequest =>
      }
    }

    /** Handles requests one after the other: the streams and the book are those of Run. */
    method RunMatchingEngine(requests: seq<Request>)
      requires Valid() && RunServable(orderBook.Contents(), requests, orderBook.Bounds())
      modifies output, orderBook.Footprint()
      ensures Valid() && orderBook.Bounds() == old(orderBook.Bounds())
      ensures var out := Run(old(orderBook.Contents()), requests);
              && orderBook.Contents() == out.book
              && output.clientResponses == old(output.clientResponses) + out.responses
              && output.marketUpdates == old(output.marketUpdates) + out.updates
    {
      ghost var start := Outcome(orderBook.Contents(), output.clientResponses, output.marketUpdates);
      ghost var now := start;
      var i := 0;
      while i < |requests|
        invariant 0 <= i <= |requests|
        invariant Valid() && orderBook.Bounds() == old(orderBook.Bounds())
        invariant now == Outcome(orderBook.Contents(), output.clientResponses, output.marketUpdates)
        invariant now == Extended(start, Run(start.book, requests[..i]))
      {
        RunServablePrefix(start.book, requests, orderBook.Bounds(), i);
        RunOneMore(start, requests, i);
        HandleClientRequest(requests[i]);
        now := Extended(now, Step(now.book, requests[i]));
        i := i + 1;
      }
      assert requests[..i] == requests;
    }
  }

  /** The laws of a run from the empty book: both sides are in price-time order and no bid is at or
      above an ask; all that rests, is answered and is published under an id is of the one request that
      got the id, and no fill or trade is beyond a limit; the market data rebuilds the book; each order's
      quantity is conserved and its responses tell an allowed story; both sides were filled by the same
      total, which is what the market saw traded. */
  ghost predicate Lawful(requests: seq<Request>, out: Outcome) {
    && Inv(out.book)
    && Register.IsOf(Register.NewRequests(requests), out)
    && MarketData.Fold(map[], out.updates) == MarketData.Depth(out.book)
    && LifeCycle.Balanced(out.responses, out.updates)
    && (forall oid: nat :: 1 <= oid < ORDER_ID_INVALID ==> LawfulOrder(out, oid))
  }

  ghost predicate LawfulOrder(out: Outcome, oid: nat) {
    && LifeCycle.QtyAccepted(oid, out.responses) ==
       LifeCycle.QtyFilled(oid, out.responses) + LifeCycle.QtyCancelled(oid, out.responses) + LifeCycle.OpenIn(out.book, oid)
    && LifeCycle.Agrees(out.book, oid, LifeCycle.Track(LifeCycle.Unborn, oid, out.responses))
  }

  lemma RunIsLawful(requests: seq<Request>)
    requires RunAdmissible(EMPTY_BOOK, requests)
    ensures Lawful(requests, Run(EMPTY_BOOK, requests))
  {
    RunInv(requests);
    Register.RunIsOfItsRequests(requests);
    MarketData.UpdatesReconstructBook(requests);
    LifeCycle.FillsBalance(requests);
    forall oid: nat | 1 <= oid < ORDER_ID_INVALID
      ensures LawfulOrder(Run(EMPTY_BOOK, requests), oid)
    {
      LifeCycle.QuantityIsConserved(requests, oid);
      LifeCycle.OrderLifeCycle(requests, oid);
    }
  }

  lemma NothingBefore(out: Outcome)
    ensures [] + out.responses == out.responses && [] + out.updates == out.updates
  {
  }

  /** A new engine handles the requests one after the other. */
  method Trade(limits: Limits, requests: seq<Request>) returns (engine: MatchingEngine)
    requires limits.levels > 0 && limits.orders > 0
    requires RunServable(EMPTY_BOOK, requests, limits)
    ensures engine.Valid()
    ensures Outcome(engine.orderBook.Contents(), engine.output.clientResponses, engine.output.marketUpdates) ==
            Run(EMPTY_BOOK, requests)
  {
    engine := new MatchingEngine(limits);
    engine.RunMatchingEngine(requests);
    NothingBefore(Run(EMPTY_BOOK, requests));
  }

  /** A day of trading from the empty book. Whatever the requests, the linked book and the streams
      are those of the reference run and obey its laws, and exactly the resting orders hold blocks
      of the order pool. */
  method TradeFromEmpty(limits: Limits, requests: seq<Request>) returns (engine: MatchingEngine)
    requires limits.levels > 0 && limits.orders > 0
    requires RunServable(EMPTY_BOOK, requests, limits)
    ensures engine.Valid()
    ensures var out := Outcome(engine.orderBook.Contents(), engine.output.clientResponses, engine.output.marketUpdates);
            out == Run(EMPTY_BOOK, requests) && Lawful(requests, out)
    ensures engine.orderBook.HoldsExactlyWhatRests()
  {
    ServableIsAdmissible(EMPTY_BOOK, requests, limits);
    RunIsLawful(requests);
    engine := Trade(limits, requests);
    engine.orderBook.BlocksInUse();
  }
}
