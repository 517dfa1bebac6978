/** Over whole runs: the market order ids are handed out to the new requests in order, and whatever
    rests, is answered or is published under an id is of the request it was handed out to: its client,
    its order id, its side, and no price beyond its limit. */
module Register {
  import opened Exchange
  import opened PriceTimeBook
  import opened BookInvariant
  import opened Account

  /** The new requests of a run: the one with market order id k is the k-th of them. */
  function NewRequests(rs: seq<Request>): seq<Request> {
    if rs == [] then []
    else
      var before, last := NewRequests(rs[..|rs| - 1]), rs[|rs| - 1];
      if last.kind == NewRequest then before + [last] else before
  }

  predicate Known(news: seq<Request>, oid: nat) { 1 <= oid <= |news| }

  /** A resting order is what is left of its request, at its limit. */
  predicate RestsFor(news: seq<Request>, o: Order) {
    Known(news, o.marketOrderId) &&
    var r := news[o.marketOrderId - 1];
    && o.tickerId == r.tickerId && o.clientId == r.clientId && o.clientOrderId == r.orderId
    && o.side == r.side && o.price == r.price && o.qty <= r.qty
  }

  predicate AllRestFor(news: seq<Request>, q: seq<Order>) {
    forall i :: 0 <= i < |q| ==> RestsFor(news, q[i])
  }

  /** A response goes to the client of the request it is about, under its order id and side; it was
      accepted with the request's price and quantity, is filled within the limit, and is given back at
      the limit. Only a rejection is about no order. */
  predicate Answers(news: seq<Request>, a: Response) {
    if a.kind == CancelRejected then a.marketOrderId == ORDER_ID_INVALID
    else
      Known(news, a.marketOrderId) &&
      var r := news[a.marketOrderId - 1];
      && a.clientId == r.clientId && a.clientOrderId == r.orderId && a.side == r.side
      && match a.kind
         case Accepted => a.price == r.price && a.qtyExec == 0 && a.qtyRemain == r.qty
         case Filled => WithinLimit(r, a.price) && 0 < a.qtyExec && a.qtyExec + a.qtyRemain <= r.qty
         case Cancelled => a.price == r.price && a.qtyRemain <= r.qty
  }

  predicate AllAnswer(news: seq<Request>, responses: seq<Response>) {
    forall i :: 0 <= i < |responses| ==> Answers(news, responses[i])
  }

  /** An update of an order has the side and the limit of its request; a trade is within the limit of
      some request on its side. */
  predicate Publishes(news: seq<Request>, u: Update) {
    if u.kind == Trade then exists j :: 0 <= j < |news| && news[j].side == u.side && WithinLimit(news[j], u.price)
    else Known(news, u.orderId) && u.side == news[u.orderId - 1].side && u.price == news[u.orderId - 1].price
  }

  predicate AllPublish(news: seq<Request>, updates: seq<Update>) {
    forall i :: 0 <= i < |updates| ==> Publishes(news, updates[i])
  }

  predicate BookIsOf(news: seq<Request>, b: Book) {
    b.nextMarketOid == 1 + |news| && AllRestFor(news, b.bids) && AllRestFor(news, b.asks)
  }

  predicate IsOf(news: seq<Request>, out: Outcome) {
    BookIsOf(news, out.book) && AllAnswer(news, out.responses) && AllPublish(news, out.updates)
  }

  // ----- what is true of the requests so far stays true

  lemma QueueStays(news: seq<Request>, r: Request, q: seq<Order>)
    requires AllRestFor(news, q)
    ensures AllRestFor(news + [r], q)
  {
  }

  lemma MoreRequests(news: seq<Request>, r: Request, out: Outcome)
    ensures AllAnswer(news, out.responses) ==> AllAnswer(news + [r], out.responses)
    ensures AllPublish(news, out.updates) ==> AllPublish(news + [r], out.updates)
  {
    forall i | 0 <= i < |out.updates| && Publishes(news, out.updates[i])
      ensures Publishes(news + [r], out.updates[i])
    {
      UpdateStays(news, r, out.updates[i]);
    }
  }

  lemma UpdateStays(news: seq<Request>, r: Request, u: Update)
    requires Publishes(news, u)
    ensures Publishes(news + [r], u)
  {
    if u.kind == Trade {
      var j :| 0 <= j < |news| && news[j].side == u.side && WithinLimit(news[j], u.price);
      assert (news + [r])[j] == news[j];
    }
  }

  // ----- a new order

  lemma TradeIsOf(news: seq<Request>, r: Request, left: nat, maker: Order,
                  taken: Response, made: Response, trade: Update, change: Update)
    requires r.side != NoSide && left <= r.qty && RestsFor(news, maker)
    requires TradeIs(r, |news| + 1, left, maker, taken, made, trade, change)
    ensures Answers(news + [r], taken) && Answers(news + [r], made)
    ensures Publishes(news + [r], trade) && Publishes(news + [r], change)
  {
    assert (news + [r])[|news|] == r;
    assert (news + [r])[maker.marketOrderId - 1] == news[maker.marketOrderId - 1];
  }

  lemma TradesAreOf(news: seq<Request>, r: Request, q: seq<Order>, n: nat, responses: seq<Response>, updates: seq<Update>)
    requires r.side != NoSide && AllRestFor(news, q)
    requires TradesAre(r, |news| + 1, r.qty, q, n, responses, updates)
    ensures AllAnswer(news + [r], responses) && AllPublish(news + [r], updates)
  {
    forall i | 0 <= i < 2 * n
      ensures Answers(news + [r], responses[i]) && Publishes(news + [r], updates[i])
    {
      var k := i / 2;
      assert TradeAt(r, |news| + 1, r.qty, q, k, responses, updates);
      TradeIsOf(news, r, r.qty - Volume(q, k), q[k], responses[2 * k], responses[2 * k + 1], updates[2 * k], updates[2 * k + 1]);
    }
  }

  lemma QueueAfterIsOf(news: seq<Request>, qty: nat, q: seq<Order>, n: nat)
    requires n <= |q| && AllRestFor(news, q)
    requires n > 0 ==> Volume(q, n - 1) < qty
    ensures AllRestFor(news, QueueAfter(qty, q, n))
  {
  }

  lemma RestingIsOf(news: seq<Request>, r: Request, oid: nat, left: nat, q: seq<Order>, q': seq<Order>, added: seq<Update>)
    requires oid == |news| + 1 && left <= r.qty && AllRestFor(news, q)
    requires exists o: Order, k: nat :: RestsIs(r, oid, left, q, o, k, q', added)
    ensures AllRestFor(news + [r], q') && AllPublish(news + [r], added)
  {
    var o: Order, k: nat :| RestsIs(r, oid, left, q, o, k, q', added);
    assert RestsFor(news + [r], o);
    QueueStays(news, r, q);
  }

  lemma AcceptedIsOf(news: seq<Request>, r: Request, accepted: Response)
    requires AcceptedIs(r, |news| + 1, accepted)
    ensures Answers(news + [r], accepted)
  {
  }

  lemma TradedQueueIsOf(news: seq<Request>, r: Request, q: seq<Order>, n: nat, responses: seq<Response>, updates: seq<Update>)
    requires AllRestFor(news, q) && TradesAre(r, |news| + 1, r.qty, q, n, responses, updates)
    ensures AllRestFor(news + [r], QueueAfter(r.qty, q, n))
  {
    if n > 0 { assert TradeAt(r, |news| + 1, r.qty, q, n - 1, responses, updates); }
    QueueAfterIsOf(news, r.qty, q, n);
    QueueStays(news, r, QueueAfter(r.qty, q, n));
  }

  lemma NewOrderBookIsOf(news: seq<Request>, b: Book, r: Request, out: Outcome, n: nat)
    requires r.side != NoSide && BookIsOf(news, b) && NewOrderTrades(b, r, out, n)
    ensures BookIsOf(news + [r], out.book) && AllPublish(news + [r], out.updates[2 * n..])
  {
    var q := Facing(b, r);
    TradedQueueIsOf(news, r, q, n, out.responses[1..], out.updates[..2 * n]);
    if LeftAfter(r.qty, q, n) > 0 {
      RestingIsOf(news, r, |news| + 1, LeftAfter(r.qty, q, n), Beside(b, r), Beside(out.book, r), out.updates[2 * n..]);
    } else {
      QueueStays(news, r, Beside(b, r));
    }
  }

  lemma NewOrderIsOf(news: seq<Request>, b: Book, r: Request, out: Outcome, n: nat)
    requires r.side != NoSide && BookIsOf(news, b) && NewOrderTrades(b, r, out, n)
    ensures IsOf(news + [r], out)
  {
    NewOrderBookIsOf(news, b, r, out, n);
    AcceptedIsOf(news, r, out.responses[0]);
    TradesAreOf(news, r, Facing(b, r), n, out.responses[1..], out.updates[..2 * n]);
    assert out.responses == [out.responses[0]] + out.responses[1..];
    assert out.updates == out.updates[..2 * n] + out.updates[2 * n..];
  }

  // ----- a cancellation

  lemma TakenOutIsOf(news: seq<Request>, r: Request, q: seq<Order>, i: nat, q': seq<Order>, responses: seq<Response>, updates: seq<Update>)
    requires AllRestFor(news, q) && TakesOut(r, q, i, q', responses, updates)
    ensures AllRestFor(news, q') && AllAnswer(news, responses) && AllPublish(news, updates)
  {
    assert RestsFor(news, q[i]);
  }

  lemma CancelIsOf(news: seq<Request>, b: Book, r: Request, out: Outcome)
    requires BookIsOf(news, b) && CancelIs(b, r, out)
    ensures IsOf(news, out)
  {
    if i: nat :| TakesOut(r, b.bids, i, out.book.bids, out.responses, out.updates) && out.book.asks == b.asks {
      TakenOutIsOf(news, r, b.bids, i, out.book.bids, out.responses, out.updates);
    } else if i: nat :| TakesOut(r, b.asks, i, out.book.asks, out.responses, out.updates) && out.book.bids == b.bids {
      TakenOutIsOf(news, r, b.asks, i, out.book.asks, out.responses, out.updates);
    }
  }

  // ----- runs

  function AfterRequest(news: seq<Request>, r: Request): seq<Request> {
    if r.kind == NewRequest then news + [r] else news
  }

  lemma StepIsOf(news: seq<Request>, b: Book, r: Request)
    requires Inv(b) && Admissible(b, r) && BookIsOf(news, b)
    ensures IsOf(AfterRequest(news, r), Step(b, r))
  {
    StepHasAccount(b, r);
    match r.kind
    case NewRequest =>
      var n: nat :| NewOrderTrades(b, r, Step(b, r), n);
      NewOrderIsOf(news, b, r, Step(b, r), n);
    case CancelRequest => CancelIsOf(news, b, r, Step(b, r));
    case InvalidRequest =>
  }

  lemma StaysOf(news: seq<Request>, r: Request, out: Outcome)
    requires IsOf(news, out)
    ensures AllAnswer(AfterRequest(news, r), out.responses) && AllPublish(AfterRequest(news, r), out.updates)
  {
    MoreRequests(news, r, out);
  }

  /** Any run: ids go to the new requests in order, and everything under an id is of its request. */
  lemma {:induction false} RunIsOfItsRequests(rs: seq<Request>)
    requires RunAdmissible(EMPTY_BOOK, rs)
    ensures IsOf(NewRequests(rs), Run(EMPTY_BOOK, rs))
  {
    if rs != [] {
      var init, r := rs[..|rs| - 1], rs[|rs| - 1];
      RunIsOfItsRequests(init);
      RunInv(init);
      StaysOf(NewRequests(init), r, Run(EMPTY_BOOK, init));
      StepIsOf(NewRequests(init), Run(EMPTY_BOOK, init).book, r);
    }
  }

  lemma EachAnswers(news: seq<Request>, responses: seq<Response>, a: Response)
    requires AllAnswer(news, responses) && a in responses
    ensures Answers(news, a)
  {
  }

  /** So whatever is answered under one id, first its acceptance, goes to one client, under one order
      id and for one side. */
  lemma OneOwner(rs: seq<Request>, a: Response, c: Response)
    requires RunAdmissible(EMPTY_BOOK, rs)
    requires a in Run(EMPTY_BOOK, rs).responses && c in Run(EMPTY_BOOK, rs).responses
    requires a.kind != CancelRejected && c.kind != CancelRejected && a.marketOrderId == c.marketOrderId
    ensures a.clientId == c.clientId && a.clientOrderId == c.clientOrderId && a.side == c.side
  {
    RunIsOfItsRequests(rs);
    EachAnswers(NewRequests(rs), Run(EMPTY_BOOK, rs).responses, a);
    EachAnswers(NewRequests(rs), Run(EMPTY_BOOK, rs).responses, c);
  }

  // ----- the instrument

  predicate OfTicker(tickerId: nat, responses: seq<Response>, updates: seq<Update>) {
    && (forall i :: 0 <= i < |responses| ==> responses[i].tickerId == tickerId)
    && (forall i :: 0 <= i < |updates| ==> updates[i].tickerId == tickerId)
  }

  lemma TradesOfTicker(r: Request, oid: nat, q: seq<Order>, n: nat, responses: seq<Response>, updates: seq<Update>)
    requires TradesAre(r, oid, r.qty, q, n, responses, updates)
    ensures OfTicker(r.tickerId, responses, updates)
  {
    forall i | 0 <= i < 2 * n
      ensures responses[i].tickerId == updates[i].tickerId == r.tickerId
    {
      assert TradeAt(r, oid, r.qty, q, i / 2, responses, updates);
    }
  }

  lemma NewOrderOfTicker(b: Book, r: Request, out: Outcome, n: nat)
    requires NewOrderTrades(b, r, out, n)
    ensures OfTicker(r.tickerId, out.responses, out.updates)
  {
    TradesOfTicker(r, b.nextMarketOid, Facing(b, r), n, out.responses[1..], out.updates[..2 * n]);
    assert out.responses == [out.responses[0]] + out.responses[1..];
    assert out.updates == out.updates[..2 * n] + out.updates[2 * n..];
  }

  /** All that a request causes to be told is told of the request's instrument. */
  lemma StepOfTicker(b: Book, r: Request)
    requires Inv(b) && (r.kind == NewRequest ==> r.side != NoSide)
    ensures OfTicker(r.tickerId, Step(b, r).responses, Step(b, r).updates)
  {
    StepHasAccount(b, r);
    if r.kind == NewRequest {
      var n: nat :| NewOrderTrades(b, r, Step(b, r), n);
      NewOrderOfTicker(b, r, Step(b, r), n);
    }
  }

  /** A book that is sent the requests of one instrument, as the engine does, speaks of it alone. */
  lemma {:induction false} RunOfTicker(rs: seq<Request>, tickerId: nat)
    requires RunAdmissible(EMPTY_BOOK, rs) && forall i :: 0 <= i < |rs| ==> rs[i].tickerId == tickerId
    ensures OfTicker(tickerId, Run(EMPTY_BOOK, rs).responses, Run(EMPTY_BOOK, rs).updates)
  {
    if rs != [] {
      var init := rs[..|rs| - 1];
      RunOfTicker(init, tickerId);
      RunInv(init);
      StepOfTicker(Run(EMPTY_BOOK, init).book, rs[|rs| - 1]);
    }
  }
}
