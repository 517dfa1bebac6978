/** The reference book: one queue of resting orders a side, best price first and
    oldest first at each price. Everything here is a pure function; the linked book
    of module LinkedBook is proved to compute exactly these outcomes. */
module PriceTimeBook {
  import opened Exchange

  datatype Book = Book(bids: seq<Order>, asks: seq<Order>, nextMarketOid: nat)
  {
    function Queue(side: Side): seq<Order> { if side == Buy then bids else asks }

    function WithQueue(side: Side, q: seq<Order>): Book {
      if side == Buy then this.(bids := q) else this.(asks := q)
    }

    function Resting(): seq<Order> { bids + asks }
  }

  const EMPTY_BOOK := Book([], [], 1)

  /** What one request (or a run of them) leaves behind: the book and the two streams. */
  datatype Outcome = Outcome(book: Book, responses: seq<Response>, updates: seq<Update>)

  /** The incoming side of a match: everything about the new order but its quantity. */
  datatype Taker = Taker(clientId: nat, clientOrderId: nat, tickerId: nat, side: Side, price: int, marketOrderId: nat)

  datatype MatchResult = MatchResult(remains: nat, queue: seq<Order>, responses: seq<Response>, updates: seq<Update>)

  // ----- prices

  /** Price p is strictly more aggressive than q for orders resting on the given side. */
  predicate Improves(side: Side, p: int, q: int) {
    if side == Buy then p > q else p < q
  }

  /** An incoming order with this limit may trade at the resting price. */
  predicate Crosses(side: Side, limit: int, resting: int) {
    if side == Buy then resting <= limit else resting >= limit
  }

  // ----- matching

  function FillResponses(t: Taker, maker: Order, fill: nat, remains: nat): seq<Response> {
    [Response(Filled, t.clientId, t.tickerId, t.clientOrderId, t.marketOrderId, t.side, maker.price, fill, remains),
     Response(Filled, maker.clientId, t.tickerId, maker.clientOrderId, maker.marketOrderId, maker.side, maker.price, fill, maker.qty)]
  }

  function FillUpdates(t: Taker, maker: Order, fill: nat): seq<Update> {
    [Update(Trade, ORDER_ID_INVALID, t.tickerId, t.side, maker.price, fill, PRIORITY_INVALID),
     if maker.qty == 0
     then Update(Cancel, maker.marketOrderId, t.tickerId, maker.side, maker.price, fill, PRIORITY_INVALID)
     else Update(Modify, maker.marketOrderId, t.tickerId, maker.side, maker.price, maker.qty, maker.priority)]
  }

  /** One execution against the head of the opposite queue. */
  function MatchOne(t: Taker, qty: nat, q: seq<Order>): MatchResult
    requires q != []
  {
    var fill := Min(qty, q[0].qty);
    var maker := q[0].(qty := q[0].qty - fill);
    MatchResult(qty - fill,
                if maker.qty == 0 then q[1..] else [maker] + q[1..],
                FillResponses(t, maker, fill, qty - fill),
                FillUpdates(t, maker, fill))
  }

  /** The incoming quantity can still trade: there is some, and the head's price is acceptable. */
  predicate CanMatch(t: Taker, qty: nat, q: seq<Order>) {
    qty > 0 && q != [] && Crosses(t.side, t.price, q[0].price)
  }

  /** Price-time matching: trade with the head while the limit allows it. */
  function Match(t: Taker, qty: nat, q: seq<Order>): MatchResult
    decreases |q|, qty
  {
    if !CanMatch(t, qty, q) then
      MatchResult(qty, q, [], [])
    else
      var one := MatchOne(t, qty, q);
      var rest := Match(t, one.remains, one.queue);
      MatchResult(rest.remains, rest.queue, one.responses + rest.responses, one.updates + rest.updates)
  }

  // ----- resting and cancelling

  /** The place in line a new order gets at its price. */
  function NextPriority(q: seq<Order>, price: int): nat {
    if q == [] then 1
    else if q[|q| - 1].price == price then q[|q| - 1].priority + 1
    else NextPriority(q[..|q| - 1], price)
  }

  /** Queue an order behind every order whose price is at least as good. */
  function Insert(q: seq<Order>, o: Order): seq<Order> {
    if q == [] then [o]
    else if Improves(o.side, o.price, q[0].price) then [o] + q
    else [q[0]] + Insert(q[1..], o)
  }

  /** Delete the order a client knows by this key; there is at most one. */
  function Remove(q: seq<Order>, key: (nat, nat)): seq<Order> {
    if q == [] then []
    else if q[0].Key() == key then q[1..]
    else [q[0]] + Remove(q[1..], key)
  }

  /** Position of the order with this key, or |q|. */
  function Find(q: seq<Order>, key: (nat, nat)): (i: nat)
    ensures i <= |q|
    ensures i < |q| ==> q[i].Key() == key
    ensures forall j :: 0 <= j < i ==> q[j].Key() != key
  {
    if q == [] then 0 else if q[0].Key() == key then 0 else 1 + Find(q[1..], key)
  }

  // ----- requests

  function TakerOf(r: Request, oid: nat): Taker {
    Taker(r.clientId, r.orderId, r.tickerId, r.side, r.price, oid)
  }

  function AcceptedResponse(r: Request, oid: nat): Response {
    Response(Accepted, r.clientId, r.tickerId, r.orderId, oid, r.side, r.price, 0, r.qty)
  }

  function RestingOrder(r: Request, oid: nat, qty: nat, priority: nat): Order {
    Order(r.tickerId, r.clientId, r.orderId, oid, r.side, r.price, qty, priority)
  }

  function AddUpdate(o: Order): Update {
    Update(Add, o.marketOrderId, o.tickerId, o.side, o.price, o.qty, o.priority)
  }

  function AddOrder(b: Book, r: Request): Outcome {
    var oid := b.nextMarketOid;
    var m := Match(TakerOf(r, oid), r.qty, b.Queue(Opposite(r.side)));
    var b' := b.WithQueue(Opposite(r.side), m.queue).(nextMarketOid := oid + 1);
    var responses := [AcceptedResponse(r, oid)] + m.responses;
    if m.remains == 0 then
      Outcome(b', responses, m.updates)
    else
      var own := b'.Queue(r.side);
      var o := RestingOrder(r, oid, m.remains, NextPriority(own, r.price));
      Outcome(b'.WithQueue(r.side, Insert(own, o)), responses, m.updates + [AddUpdate(o)])
  }

  function CancelledResponse(r: Request, o: Order): Response {
    Response(Cancelled, r.clientId, r.tickerId, r.orderId, o.marketOrderId, o.side, o.price, QTY_INVALID, o.qty)
  }

  function RejectedResponse(r: Request): Response {
    Response(CancelRejected, r.clientId, r.tickerId, r.orderId, ORDER_ID_INVALID, NoSide, PRICE_INVALID, QTY_INVALID, QTY_INVALID)
  }

  function CancelUpdate(r: Request, o: Order): Update {
    Update(Cancel, o.marketOrderId, r.tickerId, o.side, o.price, 0, o.priority)
  }

  function CancelOrder(b: Book, r: Request): Outcome {
    var key := (r.clientId, r.orderId);
    var side := if Find(b.bids, key) < |b.bids| then Buy else Sell;
    var q := b.Queue(side);
    var i := Find(q, key);
    if i == |q| then
      Outcome(b, [RejectedResponse(r)], [])
    else
      Outcome(b.WithQueue(side, Remove(q, key)), [CancelledResponse(r, q[i])], [CancelUpdate(r, q[i])])
  }

  /** The dispatch of one request; requests of an unknown type are dropped. */
  function Step(b: Book, r: Request): Outcome {
    match r.kind
    case NewRequest => AddOrder(b, r)
    case CancelRequest => CancelOrder(b, r)
    case InvalidRequest => Outcome(b, [], [])
  }

  /** The outcome of handling a sequence of requests one after the other. */
  function Run(b: Book, rs: seq<Request>): Outcome {
    if rs == [] then Outcome(b, [], [])
    else
      var before := Run(b, rs[..|rs| - 1]);
      var last := Step(before.book, rs[|rs| - 1]);
      Outcome(last.book, before.responses + last.responses, before.updates + last.updates)
  }

  lemma RunOfTwo(b: Book, first: Request, second: Request)
    ensures var one := Step(b, first);
            var two := Step(one.book, second);
            Run(b, [first, second]) == Outcome(two.book, one.responses + two.responses, one.updates + two.updates)
  {
    assert [first, second][..1] == [first] && [first][..0] == [];
    assert Run(b, []) == Outcome(b, [], []);
    var one := Step(b, first);
    assert Run(b, [first]) == one by {
      assert [] + one.responses == one.responses && [] + one.updates == one.updates;
    }
  }

  // ----- what the book asks of the requests it is given

  predicate KeyFree(q: seq<Order>, key: (nat, nat)) {
    forall i :: 0 <= i < |q| ==> q[i].Key() != key
  }

  predicate KeyFreeIn(b: Book, key: (nat, nat)) {
    KeyFree(b.bids, key) && KeyFree(b.asks, key)
  }

  /** The matching of a new order. */
  function MatchOf(b: Book, r: Request): MatchResult {
    Match(TakerOf(r, b.nextMarketOid), r.qty, b.Queue(Opposite(r.side)))
  }

  /** The book between matching and resting. */
  function AfterMatch(b: Book, r: Request): Book {
    b.WithQueue(Opposite(r.side), MatchOf(b, r).queue)
  }

  /** A new order names a side, and if some of it is left to rest, its client does not reuse the id
      of an order resting then: the client map would silently lose the older order. */
  predicate Admissible(b: Book, r: Request) {
    r.kind == NewRequest ==>
      r.side != NoSide && (MatchOf(b, r).remains > 0 ==> KeyFreeIn(AfterMatch(b, r), (r.clientId, r.orderId)))
  }

  predicate RunAdmissible(b: Book, rs: seq<Request>) {
    rs == [] ||
    (RunAdmissible(b, rs[..|rs| - 1]) && Admissible(Run(b, rs[..|rs| - 1]).book, rs[|rs| - 1]))
  }
}
