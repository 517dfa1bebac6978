/** A plain account of what one request does: which orders trade, at which prices and for how much,
    what each client and the market are told of it, and what the book is afterwards. It is written in
    comparisons of the request with the resting orders, without the functions that compute the outcome,
    and it leaves nothing open. */
module Account {
  import opened Exchange
  import opened PriceTimeBook
  import opened BookInvariant
  import opened MatchProperties

  /** What the first k orders of a queue amount to. */
  function Volume(q: seq<Order>, k: nat): nat
    requires k <= |q|
  {
    if k == 0 then 0 else Volume(q, k - 1) + q[k - 1].qty
  }

  // ----- a new order

  /** The orders a new one may trade with, and the orders it may come to rest among. */
  function Facing(b: Book, r: Request): seq<Order> { if r.side == Buy then b.asks else b.bids }

  function Beside(b: Book, r: Request): seq<Order> { if r.side == Buy then b.bids else b.asks }

  /** At or below a buyer's limit, at or above a seller's. */
  predicate WithinLimit(r: Request, price: int) { if r.side == Buy then price <= r.price else price >= r.price }

  /** One trade of a new order, of which this much was left, with a resting order: within the limit, at
      the resting price, for as much as both have. Each client is told of its own order, the market of
      the trade and of what became of the resting order. */
  predicate TradeIs(r: Request, oid: nat, left: nat, maker: Order,
                    taken: Response, made: Response, trade: Update, change: Update) {
    && WithinLimit(r, maker.price)
    && var fill: nat := if left <= maker.qty then left else maker.qty;
       && fill > 0
       && taken == Response(Filled, r.clientId, r.tickerId, r.orderId, oid, r.side, maker.price, fill, left - fill)
       && made == Response(Filled, maker.clientId, r.tickerId, maker.clientOrderId, maker.marketOrderId, maker.side,
                           maker.price, fill, maker.qty - fill)
       && trade == Update(Trade, ORDER_ID_INVALID, r.tickerId, r.side, maker.price, fill, PRIORITY_INVALID)
       && change == if fill == maker.qty
                    then Update(Cancel, maker.marketOrderId, r.tickerId, maker.side, maker.price, fill, PRIORITY_INVALID)
                    else Update(Modify, maker.marketOrderId, r.tickerId, maker.side, maker.price, maker.qty - fill, maker.priority)
  }

  /** The k-th trade of a quantity is with the k-th order of the queue. */
  predicate TradeAt(r: Request, oid: nat, qty: nat, q: seq<Order>, k: nat, responses: seq<Response>, updates: seq<Update>)
    requires k < |q| && 2 * k + 1 < |responses| && 2 * k + 1 < |updates|
  {
    && Volume(q, k) < qty
    && TradeIs(r, oid, qty - Volume(q, k), q[k], responses[2 * k], responses[2 * k + 1], updates[2 * k], updates[2 * k + 1])
  }

  /** The n trades of a quantity, one with each of the first n orders of a queue. */
  predicate TradesAre(r: Request, oid: nat, qty: nat, q: seq<Order>, n: nat, responses: seq<Response>, updates: seq<Update>) {
    && n <= |q| && |responses| == |updates| == 2 * n
    && forall k :: 0 <= k < n ==> TradeAt(r, oid, qty, q, k, responses, updates)
  }

  /** Trading goes on as long as there is something left, and an order within the limit to trade it with. */
  predicate EndsAfter(r: Request, qty: nat, q: seq<Order>, n: nat) {
    && n <= |q|
    && (Volume(q, n) >= qty || n == |q| || !WithinLimit(r, q[n].price))
  }

  /** What n trades leave of a quantity. */
  function LeftAfter(qty: nat, q: seq<Order>, n: nat): nat
    requires n <= |q|
  {
    if Volume(q, n) < qty then qty - Volume(q, n) else 0
  }

  /** What they leave of the queue: the last order traded with stays at its place with what it has left. */
  function QueueAfter(qty: nat, q: seq<Order>, n: nat): seq<Order>
    requires n <= |q|
  {
    if n > 0 && Volume(q, n) > qty then [q[n - 1].(qty := Volume(q, n) - qty)] + q[n..] else q[n..]
  }

  /** An order queued at place k: behind every order at least as good, ahead of all that are worse, and
      at its price with the priority after the last one's. */
  predicate QueuedAt(q: seq<Order>, o: Order, k: nat, q': seq<Order>) {
    && k <= |q| && q' == q[..k] + [o] + q[k..]
    && (forall i :: 0 <= i < k ==> if o.side == Buy then q[i].price >= o.price else q[i].price <= o.price)
    && (forall i :: k <= i < |q| ==> if o.side == Buy then q[i].price < o.price else q[i].price > o.price)
    && o.priority == if k > 0 && q[k - 1].price == o.price then q[k - 1].priority + 1 else 1
  }

  /** What is left of a new order rests, and the market is told. */
  predicate RestsIs(r: Request, oid: nat, left: nat, q: seq<Order>, o: Order, k: nat, q': seq<Order>, added: seq<Update>) {
    && o == Order(r.tickerId, r.clientId, r.orderId, oid, r.side, r.price, left, o.priority)
    && QueuedAt(q, o, k, q')
    && added == [Update(Add, oid, r.tickerId, r.side, r.price, left, o.priority)]
  }

  predicate AcceptedIs(r: Request, oid: nat, accepted: Response) {
    accepted == Response(Accepted, r.clientId, r.tickerId, r.orderId, oid, r.side, r.price, 0, r.qty)
  }

  /** The whole account of a new order that trades n times. */
  ghost predicate NewOrderTrades(b: Book, r: Request, out: Outcome, n: nat) {
    var q, own, oid := Facing(b, r), Beside(b, r), b.nextMarketOid;
    && n <= |q| && |out.responses| == 1 + 2 * n && |out.updates| >= 2 * n
    && AcceptedIs(r, oid, out.responses[0])
    && TradesAre(r, oid, r.qty, q, n, out.responses[1..], out.updates[..2 * n])
    && EndsAfter(r, r.qty, q, n)
    && Facing(out.book, r) == QueueAfter(r.qty, q, n)
    && (if LeftAfter(r.qty, q, n) == 0 then out.updates[2 * n..] == [] && Beside(out.book, r) == own
        else exists o: Order, k: nat ::
               RestsIs(r, oid, LeftAfter(r.qty, q, n), own, o, k, Beside(out.book, r), out.updates[2 * n..]))
    && out.book.nextMarketOid == oid + 1
  }

  // ----- a cancellation

  predicate RejectedIs(r: Request, rejected: Response) {
    rejected == Response(CancelRejected, r.clientId, r.tickerId, r.orderId, ORDER_ID_INVALID, NoSide,
                         PRICE_INVALID, QTY_INVALID, QTY_INVALID)
  }

  /** The i-th order of a queue is taken out: its client gets back what it still had. */
  predicate TakesOut(r: Request, q: seq<Order>, i: nat, q': seq<Order>, responses: seq<Response>, updates: seq<Update>) {
    && i < |q| && q[i].clientId == r.clientId && q[i].clientOrderId == r.orderId
    && q' == q[..i] + q[i + 1..]
    && responses == [Response(Cancelled, r.clientId, r.tickerId, r.orderId, q[i].marketOrderId, q[i].side, q[i].price,
                              QTY_INVALID, q[i].qty)]
    && updates == [Update(Cancel, q[i].marketOrderId, r.tickerId, q[i].side, q[i].price, 0, q[i].priority)]
  }

  predicate NoneNamed(r: Request, q: seq<Order>) {
    forall i :: 0 <= i < |q| ==> !(q[i].clientId == r.clientId && q[i].clientOrderId == r.orderId)
  }

  /** The whole account of a cancellation: the order of that client under that id goes, or there is none. */
  ghost predicate CancelIs(b: Book, r: Request, out: Outcome) {
    && out.book.nextMarketOid == b.nextMarketOid
    && ( || (exists i: nat :: TakesOut(r, b.bids, i, out.book.bids, out.responses, out.updates) && out.book.asks == b.asks)
         || (exists i: nat :: TakesOut(r, b.asks, i, out.book.asks, out.responses, out.updates) && out.book.bids == b.bids)
         || (&& NoneNamed(r, b.bids) && NoneNamed(r, b.asks) && out.book == b
             && |out.responses| == 1 && RejectedIs(r, out.responses[0]) && out.updates == []))
  }

  /** The account of any request; one of unknown type does nothing and is told to nobody. */
  ghost predicate AccountOf(b: Book, r: Request, out: Outcome) {
    match r.kind
    case NewRequest => exists n: nat :: NewOrderTrades(b, r, out, n)
    case CancelRequest => CancelIs(b, r, out)
    case InvalidRequest => out == Outcome(b, [], [])
  }

  // ----- matching keeps the account

  lemma {:induction false} VolumeFromHead(q: seq<Order>, k: nat)
    requires q != [] && k < |q|
    ensures Volume(q, k + 1) == q[0].qty + Volume(q[1..], k)
  {
    if k > 0 { VolumeFromHead(q, k - 1); }
  }

  lemma TradeOnlyAt(r: Request, oid: nat, qty: nat, q: seq<Order>, responses: seq<Response>, updates: seq<Update>)
    requires q != [] && |responses| == |updates| == 2 && qty > 0
    requires TradeIs(r, oid, qty, q[0], responses[0], responses[1], updates[0], updates[1])
    ensures TradesAre(r, oid, qty, q, 1, responses, updates)
  {
    assert TradeAt(r, oid, qty, q, 0, responses, updates);
  }

  lemma TradeMovesOn(r: Request, oid: nat, qty: nat, q: seq<Order>, k: nat, one: MatchResult, rest: MatchResult)
    requires q != [] && q[0].qty <= qty && |one.responses| == |one.updates| == 2
    requires k < |q[1..]| && 2 * k + 1 < |rest.responses| && 2 * k + 1 < |rest.updates|
    requires TradeAt(r, oid, qty - q[0].qty, q[1..], k, rest.responses, rest.updates)
    ensures TradeAt(r, oid, qty, q, k + 1, one.responses + rest.responses, one.updates + rest.updates)
  {
    VolumeFromHead(q, k);
    var responses, updates := one.responses + rest.responses, one.updates + rest.updates;
    assert responses[2 * (k + 1)] == rest.responses[2 * k] && responses[2 * (k + 1) + 1] == rest.responses[2 * k + 1];
    assert updates[2 * (k + 1)] == rest.updates[2 * k] && updates[2 * (k + 1) + 1] == rest.updates[2 * k + 1];
  }

  /** Trading away the head whole and then n orders behind it is trading with n + 1 orders. */
  lemma TradesFromHead(r: Request, oid: nat, qty: nat, q: seq<Order>, n: nat, one: MatchResult, rest: MatchResult)
    requires q != [] && q[0].qty <= qty
    requires TradesAre(r, oid, qty, q, 1, one.responses, one.updates)
    requires TradesAre(r, oid, qty - q[0].qty, q[1..], n, rest.responses, rest.updates)
    ensures TradesAre(r, oid, qty, q, n + 1, one.responses + rest.responses, one.updates + rest.updates)
  {
    var responses, updates := one.responses + rest.responses, one.updates + rest.updates;
    forall k | 0 <= k < n + 1
      ensures TradeAt(r, oid, qty, q, k, responses, updates)
    {
      if k == 0 {
        assert TradeAt(r, oid, qty, q, 0, one.responses, one.updates);
      } else {
        assert TradeAt(r, oid, qty - q[0].qty, q[1..], k - 1, rest.responses, rest.updates);
        TradeMovesOn(r, oid, qty, q, k - 1, one, rest);
      }
    }
  }

  lemma EndsFromHead(r: Request, qty: nat, q: seq<Order>, n: nat)
    requires q != [] && 0 < q[0].qty <= qty && EndsAfter(r, qty - q[0].qty, q[1..], n)
    ensures EndsAfter(r, qty, q, n + 1)
    ensures LeftAfter(qty, q, n + 1) == LeftAfter(qty - q[0].qty, q[1..], n)
    ensures QueueAfter(qty, q, n + 1) == QueueAfter(qty - q[0].qty, q[1..], n)
  {
    VolumeFromHead(q, n);
    assert q[1..][n..] == q[n + 1..];
  }

  lemma OneTradeIs(r: Request, oid: nat, qty: nat, q: seq<Order>)
    requires r.side != NoSide && Positive(q) && CanMatch(TakerOf(r, oid), qty, q)
    ensures var one := MatchOne(TakerOf(r, oid), qty, q);
            TradesAre(r, oid, qty, q, 1, one.responses, one.updates)
  {
    var one := MatchOne(TakerOf(r, oid), qty, q);
    TradeOnlyAt(r, oid, qty, q, one.responses, one.updates);
  }

  /** This is how a match of a quantity with a queue went. */
  predicate MatchIs(r: Request, oid: nat, qty: nat, q: seq<Order>, n: nat, m: MatchResult) {
    && TradesAre(r, oid, qty, q, n, m.responses, m.updates)
    && EndsAfter(r, qty, q, n)
    && m.remains == LeftAfter(qty, q, n) && m.queue == QueueAfter(qty, q, n)
  }

  lemma HeadThenRest(r: Request, oid: nat, qty: nat, q: seq<Order>, n: nat, one: MatchResult, rest: MatchResult)
    requires q != [] && 0 < q[0].qty <= qty
    requires TradesAre(r, oid, qty, q, 1, one.responses, one.updates)
    requires MatchIs(r, oid, qty - q[0].qty, q[1..], n, rest)
    ensures MatchIs(r, oid, qty, q, n + 1, Then(one, rest)) && |Then(one, rest).responses| == 2 * (n + 1)
  {
    TradesFromHead(r, oid, qty, q, n, one, rest);
    EndsFromHead(r, qty, q, n);
  }

  lemma WholeHeadLeaves(t: Taker, qty: nat, q: seq<Order>)
    requires CanMatch(t, qty, q) && q[0].qty <= qty
    ensures Match(t, qty, q) == Then(MatchOne(t, qty, q), Match(t, qty - q[0].qty, q[1..]))
  {
    var one := MatchOne(t, qty, q);
    assert one.queue == q[1..] && one.remains == qty - q[0].qty;
  }

  lemma WholeHeadTrades(r: Request, oid: nat, qty: nat, q: seq<Order>, n: nat)
    requires r.side != NoSide && Positive(q) && CanMatch(TakerOf(r, oid), qty, q) && q[0].qty <= qty
    requires MatchIs(r, oid, qty - q[0].qty, q[1..], n, Match(TakerOf(r, oid), qty - q[0].qty, q[1..]))
    ensures MatchIs(r, oid, qty, q, n + 1, Match(TakerOf(r, oid), qty, q))
  {
    var t := TakerOf(r, oid);
    var one, rest := MatchOne(t, qty, q), Match(t, qty - q[0].qty, q[1..]);
    OneTradeIs(r, oid, qty, q);
    HeadThenRest(r, oid, qty, q, n, one, rest);
    WholeHeadLeaves(t, qty, q);
  }

  lemma PartOfHeadTrades(r: Request, oid: nat, qty: nat, q: seq<Order>)
    requires r.side != NoSide && Positive(q) && CanMatch(TakerOf(r, oid), qty, q) && q[0].qty > qty
    ensures MatchIs(r, oid, qty, q, 1, Match(TakerOf(r, oid), qty, q))
  {
    var t := TakerOf(r, oid);
    var one := MatchOne(t, qty, q);
    OneTradeIs(r, oid, qty, q);
    var none := Match(t, 0, one.queue);
    assert none == MatchResult(0, one.queue, [], []);
    assert Match(t, qty, q) == one by {
      assert Match(t, qty, q) == Then(one, none);
      assert one.responses + [] == one.responses && one.updates + [] == one.updates;
    }
    assert Volume(q, 1) == q[0].qty;
    assert one.queue == [q[0].(qty := q[0].qty - qty)] + q[1..];
  }

  lemma NothingTrades(r: Request, oid: nat, qty: nat, q: seq<Order>)
    requires r.side != NoSide && !CanMatch(TakerOf(r, oid), qty, q)
    ensures MatchIs(r, oid, qty, q, 0, Match(TakerOf(r, oid), qty, q))
  {
  }

  /** Matching is the account's trading. */
  lemma {:induction false} MatchTrades(r: Request, oid: nat, qty: nat, q: seq<Order>) returns (n: nat)
    requires r.side != NoSide && Positive(q)
    ensures MatchIs(r, oid, qty, q, n, Match(TakerOf(r, oid), qty, q))
    decreases |q|
  {
    if !CanMatch(TakerOf(r, oid), qty, q) {
      NothingTrades(r, oid, qty, q);
      n := 0;
    } else if q[0].qty <= qty {
      n := MatchTrades(r, oid, qty - q[0].qty, q[1..]);
      WholeHeadTrades(r, oid, qty, q, n);
      n := n + 1;
    } else {
      PartOfHeadTrades(r, oid, qty, q);
      n := 1;
    }
  }

  lemma PriorityIsNext(side: Side, q: seq<Order>, price: int, k: nat)
    requires side != NoSide && InOrder(side, q) && k <= |q|
    requires forall i :: 0 <= i < k ==> if side == Buy then q[i].price >= price else q[i].price <= price
    requires forall i :: k <= i < |q| ==> if side == Buy then q[i].price < price else q[i].price > price
    ensures NextPriority(q, price) == if k > 0 && q[k - 1].price == price then q[k - 1].priority + 1 else 1
  {
    if k < |q| {
      PriorityIsNext(side, q[..|q| - 1], price, k);
    } else if k > 0 && q[k - 1].price != price {
      forall i | 0 <= i < k
        ensures if side == Buy then q[i].price > price else q[i].price < price
      {
        if i < k - 1 { assert Ahead(side, q[i], q[k - 1]); }
      }
      NoneAtPrice(q, price);
    }
  }

  lemma {:induction false} NoneAtPrice(q: seq<Order>, price: int)
    requires forall i :: 0 <= i < |q| ==> q[i].price != price
    ensures NextPriority(q, price) == 1
  {
    if q != [] { NoneAtPrice(q[..|q| - 1], price); }
  }

  lemma InsertQueues(side: Side, q: seq<Order>, o: Order) returns (k: nat)
    requires side != NoSide && o.side == side && InOrder(side, q)
    requires o.priority == NextPriority(q, o.price)
    ensures QueuedAt(q, o, k, Insert(q, o))
  {
    k := Place(q, o);
    forall i | k <= i < |q|
      ensures if o.side == Buy then q[i].price < o.price else q[i].price > o.price
    {
      if k < i { assert Ahead(side, q[k], q[i]); }
    }
    PriorityIsNext(side, q, o.price, k);
  }

  lemma RestingIs(r: Request, oid: nat, left: nat, own: seq<Order>) returns (o: Order, k: nat)
    requires r.side != NoSide && InOrder(r.side, own)
    ensures o == RestingOrder(r, oid, left, NextPriority(own, r.price))
    ensures RestsIs(r, oid, left, own, o, k, Insert(own, o), [AddUpdate(o)])
  {
    o := RestingOrder(r, oid, left, NextPriority(own, r.price));
    k := InsertQueues(r.side, own, o);
  }

  /** What AddOrder adds to its matching. */
  lemma AddOrderAfterMatch(b: Book, r: Request)
    requires r.side != NoSide
    ensures var m, out, own := MatchOf(b, r), AddOrder(b, r), Beside(b, r);
            && out.responses == [AcceptedResponse(r, b.nextMarketOid)] + m.responses
            && Facing(out.book, r) == m.queue && out.book.nextMarketOid == b.nextMarketOid + 1
            && (if m.remains == 0 then out.updates == m.updates && Beside(out.book, r) == own
                else var o := RestingOrder(r, b.nextMarketOid, m.remains, NextPriority(own, r.price));
                     out.updates == m.updates + [AddUpdate(o)] && Beside(out.book, r) == Insert(own, o))
  {
  }

  lemma FacingIsSound(b: Book, r: Request)
    requires Inv(b) && r.side != NoSide
    ensures Facing(b, r) == b.Queue(Opposite(r.side)) && Positive(Facing(b, r)) && InOrder(r.side, Beside(b, r))
  {
    PositiveQueue(Opposite(r.side), Facing(b, r), b.nextMarketOid);
  }

  lemma AddOrderTrades(b: Book, r: Request) returns (n: nat)
    requires Inv(b) && r.side != NoSide
    ensures NewOrderTrades(b, r, AddOrder(b, r), n)
  {
    var own, oid, m, out := Beside(b, r), b.nextMarketOid, MatchOf(b, r), AddOrder(b, r);
    FacingIsSound(b, r);
    n := MatchTrades(r, oid, r.qty, Facing(b, r));
    AddOrderAfterMatch(b, r);
    assert out.responses[1..] == m.responses;
    assert out.updates[..2 * n] == m.updates;
    if m.remains > 0 {
      var o, k := RestingIs(r, oid, m.remains, own);
      assert out.updates[2 * n..] == [AddUpdate(o)];
      assert RestsIs(r, oid, m.remains, own, o, k, Beside(out.book, r), out.updates[2 * n..]);
    }
  }

  // ----- cancelling keeps the account

  lemma TakesOutFound(r: Request, q: seq<Order>)
    ensures var i := Find(q, (r.clientId, r.orderId));
            if i == |q| then NoneNamed(r, q)
            else TakesOut(r, q, i, Remove(q, q[i].Key()), [CancelledResponse(r, q[i])], [CancelUpdate(r, q[i])])
  {
    RemoveShape(q, (r.clientId, r.orderId));
  }

  lemma CancelOrderTakesOut(b: Book, r: Request)
    requires Inv(b)
    ensures CancelIs(b, r, CancelOrder(b, r))
  {
    var key := (r.clientId, r.orderId);
    var out := CancelOrder(b, r);
    TakesOutFound(r, b.bids);
    TakesOutFound(r, b.asks);
    var i, j := Find(b.bids, key), Find(b.asks, key);
    if i < |b.bids| {
      assert out == Outcome(b.(bids := Remove(b.bids, key)), [CancelledResponse(r, b.bids[i])], [CancelUpdate(r, b.bids[i])]);
    } else if j < |b.asks| {
      assert out == Outcome(b.(asks := Remove(b.asks, key)), [CancelledResponse(r, b.asks[j])], [CancelUpdate(r, b.asks[j])]);
    }
  }

  /** Every request does what its account says. */
  lemma StepHasAccount(b: Book, r: Request)
    requires Inv(b) && (r.kind == NewRequest ==> r.side != NoSide)
    ensures AccountOf(b, r, Step(b, r))
  {
    match r.kind
    case NewRequest =>
      var n := AddOrderTrades(b, r);
    case CancelRequest => CancelOrderTakesOut(b, r);
    case InvalidRequest =>
  }

  // ----- the account leaves nothing open

  lemma GoesOn(r: Request, oid: nat, qty: nat, q: seq<Order>, n: nat, responses: seq<Response>, updates: seq<Update>)
    requires TradesAre(r, oid, qty, q, n, responses, updates)
    ensures forall k :: 0 <= k < n ==> !EndsAfter(r, qty, q, k)
  {
    forall k | 0 <= k < n
      ensures !EndsAfter(r, qty, q, k)
    {
      assert TradeAt(r, oid, qty, q, k, responses, updates);
    }
  }

  lemma SameTrades(r: Request, oid: nat, qty: nat, q: seq<Order>, n: nat, responses: seq<Response>, updates: seq<Update>,
                   responses': seq<Response>, updates': seq<Update>)
    requires TradesAre(r, oid, qty, q, n, responses, updates) && TradesAre(r, oid, qty, q, n, responses', updates')
    ensures responses == responses' && updates == updates'
  {
    forall i | 0 <= i < 2 * n
      ensures responses[i] == responses'[i] && updates[i] == updates'[i]
    {
      var k := i / 2;
      assert TradeAt(r, oid, qty, q, k, responses, updates) && TradeAt(r, oid, qty, q, k, responses', updates');
    }
  }

  lemma SamePlace(q: seq<Order>, o: Order, k: nat, q': seq<Order>, o2: Order, k2: nat, q2: seq<Order>)
    requires QueuedAt(q, o, k, q') && QueuedAt(q, o2, k2, q2)
    requires o2 == o.(priority := o2.priority)
    ensures o2 == o && k2 == k && q2 == q'
  {
  }

  lemma SameResting(r: Request, oid: nat, left: nat, own: seq<Order>, q: seq<Order>, added: seq<Update>,
                    q': seq<Order>, added': seq<Update>)
    requires exists o: Order, k: nat :: RestsIs(r, oid, left, own, o, k, q, added)
    requires exists o: Order, k: nat :: RestsIs(r, oid, left, own, o, k, q', added')
    ensures q == q' && added == added'
  {
    var o: Order, k: nat :| RestsIs(r, oid, left, own, o, k, q, added);
    var o': Order, k': nat :| RestsIs(r, oid, left, own, o', k', q', added');
    SamePlace(own, o, k, q, o', k', q');
  }

  lemma NewOrderIsDetermined(b: Book, r: Request, out: Outcome, n: nat, out': Outcome, n': nat)
    requires r.side != NoSide && NewOrderTrades(b, r, out, n) && NewOrderTrades(b, r, out', n')
    ensures out == out'
  {
    var q, own, oid := Facing(b, r), Beside(b, r), b.nextMarketOid;
    GoesOn(r, oid, r.qty, q, n', out'.responses[1..], out'.updates[..2 * n']);
    GoesOn(r, oid, r.qty, q, n, out.responses[1..], out.updates[..2 * n]);
    SameTrades(r, oid, r.qty, q, n, out.responses[1..], out.updates[..2 * n], out'.responses[1..], out'.updates[..2 * n]);
    if LeftAfter(r.qty, q, n) > 0 {
      SameResting(r, oid, LeftAfter(r.qty, q, n), own, Beside(out.book, r), out.updates[2 * n..],
                  Beside(out'.book, r), out'.updates[2 * n..]);
    }
    assert out.responses == [out.responses[0]] + out.responses[1..];
    assert out'.responses == [out'.responses[0]] + out'.responses[1..];
    assert out.updates == out.updates[..2 * n] + out.updates[2 * n..];
    assert out'.updates == out'.updates[..2 * n] + out'.updates[2 * n..];
  }

  lemma NamedOnce(b: Book, r: Request)
    requires Inv(b)
    ensures NoneNamed(r, b.bids) || NoneNamed(r, b.asks)
    ensures forall i, j :: 0 <= i < j < |b.bids| ==> b.bids[i].Key() != b.bids[j].Key()
    ensures forall i, j :: 0 <= i < j < |b.asks| ==> b.asks[i].Key() != b.asks[j].Key()
  {
    assert forall i, j :: 0 <= i < |b.bids| && 0 <= j < |b.asks| ==> !SameOrder(b.bids[i], b.asks[j]);
    assert forall i, j :: 0 <= i < j < |b.bids| ==> !SameOrder(b.bids[i], b.bids[j]);
    assert forall i, j :: 0 <= i < j < |b.asks| ==> !SameOrder(b.asks[i], b.asks[j]);
  }

  lemma OneTakenOut(r: Request, q: seq<Order>, i: nat, q': seq<Order>, out: Outcome, j: nat, q2: seq<Order>, out': Outcome)
    requires forall i, j :: 0 <= i < j < |q| ==> q[i].Key() != q[j].Key()
    requires TakesOut(r, q, i, q', out.responses, out.updates) && TakesOut(r, q, j, q2, out'.responses, out'.updates)
    ensures i == j && q' == q2 && out.responses == out'.responses && out.updates == out'.updates
  {
  }

  lemma CancelIsDetermined(b: Book, r: Request, out: Outcome, out': Outcome)
    requires Inv(b) && CancelIs(b, r, out) && CancelIs(b, r, out')
    ensures out == out'
  {
    NamedOnce(b, r);
    if !NoneNamed(r, b.bids) {
      var i: nat :| TakesOut(r, b.bids, i, out.book.bids, out.responses, out.updates) && out.book.asks == b.asks;
      var j: nat :| TakesOut(r, b.bids, j, out'.book.bids, out'.responses, out'.updates) && out'.book.asks == b.asks;
      OneTakenOut(r, b.bids, i, out.book.bids, out, j, out'.book.bids, out');
    } else if !NoneNamed(r, b.asks) {
      var i: nat :| TakesOut(r, b.asks, i, out.book.asks, out.responses, out.updates) && out.book.bids == b.bids;
      var j: nat :| TakesOut(r, b.asks, j, out'.book.asks, out'.responses, out'.updates) && out'.book.bids == b.bids;
      OneTakenOut(r, b.asks, i, out.book.asks, out, j, out'.book.asks, out');
    }
  }

  /** The account of a request and its outcome determine each other. */
  lemma StepIsItsAccount(b: Book, r: Request, out: Outcome)
    requires Inv(b) && (r.kind == NewRequest ==> r.side != NoSide)
    ensures AccountOf(b, r, out) <==> out == Step(b, r)
  {
    StepHasAccount(b, r);
    if AccountOf(b, r, out) {
      match r.kind
      case NewRequest =>
        var n: nat :| NewOrderTrades(b, r, out, n);
        var n': nat :| NewOrderTrades(b, r, Step(b, r), n');
        NewOrderIsDetermined(b, r, out, n, Step(b, r), n');
      case CancelRequest => CancelIsDetermined(b, r, out, Step(b, r));
      case InvalidRequest =>
    }
  }
}
