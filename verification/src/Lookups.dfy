/** Reading the linked book through its client map and its price array, in terms of the
    reference queues. */
module Lookups {
  import opened Exchange
  import opened Pools
  import opened Ring
  import opened PriceIndex
  import opened PriceTimeBook
  import opened BookInvariant
  import opened PriceLevels
  import opened RestingOrders
  import opened QueueViews
  import opened OrderMoves
  import opened Soundness

  /** Every order in use is in the reference queue of its side. */
  lemma OrderInRest(s: Store, ords: set<int>, lvls: set<int>, side: Side, k: nat, j: nat) returns (i: nat)
    requires SideParts(s, ords, lvls, side) && k < |s.levels.Ring(side)|
    requires s.levels.Ring(side)[k] in s.queues && j < |s.queues[s.levels.Ring(side)[k]]|
    ensures s.Node(s.queues[s.levels.Ring(side)[k]][j])
    ensures i < |Rest(s, ords, lvls, side)| && Rest(s, ords, lvls, side)[i] == s.Item(s.queues[s.levels.Ring(side)[k]][j])
    ensures Flat(s.queues, s.levels.Ring(side))[i] == s.queues[s.levels.Ring(side)[k]][j]
  {
    var r := s.levels.Ring(side);
    OrdersCut(s, ords, lvls, side, r, k);
    QueuePrice(s, ords, r[k], j);
    i := |Flat(s.queues, r[..k])| + j;
    FlatSplit(s.queues, r, k);
  }

  // ----- by key

  /** A key that no resting order has is not in the client map. */
  lemma FreeKeyIsUnmapped(s: Store, ords: set<int>, lvls: set<int>, key: (nat, nat))
    requires StoreValid(s, ords, lvls) && Readable(s, ords, lvls)
    requires KeyFree(Rest(s, ords, lvls, Buy), key) && KeyFree(Rest(s, ords, lvls, Sell), key)
    ensures key !in s.index
  {
    if key in s.index {
      assert NamesOrder(s, ords, key);
      var l, side, k, j := OrderPlace(s, ords, lvls, s.index[key]);
      PartsOfStore(s, ords, lvls, side);
      var i := OrderInRest(s, ords, lvls, side, k, j);
    }
  }

  /** A key not in the client map is the key of no resting order. */
  lemma UnmappedKeyIsFree(s: Store, ords: set<int>, lvls: set<int>, side: Side, key: (nat, nat))
    requires Queues(s, ords, lvls) && RingMembers(s.levels, lvls, side) && Indexed(s, ords) && key !in s.index
    ensures KeyFree(Rest(s, ords, lvls, side), key)
  {
    var q := Rest(s, ords, lvls, side);
    forall i | 0 <= i < |q|
      ensures q[i].Key() != key
    {
      var k := OrdersPrice(s, ords, lvls, side, s.levels.Ring(side), i);
      assert IndexedAt(s, Flat(s.queues, s.levels.Ring(side))[i]);
    }
  }

  // ----- by price

  /** Prices resting in this queue share the slot of a price only if they are that price. */
  predicate Fits(q: seq<Order>, price: int, n: nat)
    requires n > 0
  {
    forall i :: 0 <= i < |q| ==> (PriceToIndex(q[i].price, n) == PriceToIndex(price, n) ==> q[i].price == price)
  }

  predicate NoneCrosses(q: seq<Order>, side: Side, price: int) {
    forall i :: 0 <= i < |q| ==> !Crosses(side, price, q[i].price)
  }

  lemma HeadDecides(q: seq<Order>, side: Side, price: int)
    requires side != NoSide && InOrder(Opposite(side), q)
    requires q == [] || !Crosses(side, price, q[0].price)
    ensures NoneCrosses(q, side, price)
  {
  }

  /** The price array leads an order that has nothing left to trade with to the level of its own
      price and side, or to none. Only the uncrossed book makes one array for both sides sound. */
  lemma SlotIsOwn(s: Store, ords: set<int>, lvls: set<int>, side: Side, price: int)
    requires StoreValid(s, ords, lvls) && Readable(s, ords, lvls) && side != NoSide && |s.levels.slots| > 0
    requires Fits(Rest(s, ords, lvls, Buy), price, |s.levels.slots|) && Fits(Rest(s, ords, lvls, Sell), price, |s.levels.slots|)
    requires NoneCrosses(Rest(s, ords, lvls, Opposite(side)), side, price)
    ensures var l := s.levels.slots[s.levels.Slot(price)];
            l != NULL ==> l in lvls && s.levels.Block(l) && s.levels.Price(l) == price && s.levels.SideOf(l) == side
  {
    var l := s.levels.slots[s.levels.Slot(price)];
    if l != NULL {
      assert SlotExact(s.levels, lvls, s.levels.Slot(price));
      assert QueueAt(s, ords, l);
      var k := HouseNumber(s.levels, lvls, l);
      var at := s.levels.SideOf(l);
      PartsOfStore(s, ords, lvls, at);
      var i := OrderInRest(s, ords, lvls, at, k, 0);
      assert Belongs(s, ords, l, s.queues[l][0]);
    }
  }

  lemma OrderOwnsSlot(s: Store, ords: set<int>, lvls: set<int>, side: Side, j: nat)
    requires SideParts(s, ords, lvls, side) && j < |Rest(s, ords, lvls, side)| && |s.levels.slots| > 0
    ensures var l := s.levels.slots[s.levels.Slot(Rest(s, ords, lvls, side)[j].price)];
            l in lvls && s.levels.Block(l) && s.levels.Price(l) == Rest(s, ords, lvls, side)[j].price
  {
    var k := OrdersPrice(s, ords, lvls, side, s.levels.Ring(side), j);
    var l := s.levels.Ring(side)[k];
    assert OnSide(s.levels, lvls, side, l) && OwnsSlot(s.levels, l);
  }

  /** The price array leads a price to its own level or to none if and only if no order rests at a
      different price of the same slot: the array itself never compares prices. */
  lemma OwnPriceIff(s: Store, ords: set<int>, lvls: set<int>, price: int)
    requires StoreValid(s, ords, lvls) && Readable(s, ords, lvls) && |s.levels.slots| > 0
    requires forall l :: l in lvls ==> l != NULL
    ensures var l := s.levels.slots[s.levels.Slot(price)];
            (l != NULL ==> s.levels.Block(l) && s.levels.Price(l) == price) <==>
            && Fits(Rest(s, ords, lvls, Buy), price, |s.levels.slots|)
            && Fits(Rest(s, ords, lvls, Sell), price, |s.levels.slots|)
  {
    PartsOfStore(s, ords, lvls, Buy);
    PartsOfStore(s, ords, lvls, Sell);
    var i, n := s.levels.Slot(price), |s.levels.slots|;
    forall side: Side, j | side != NoSide && 0 <= j < |Rest(s, ords, lvls, side)|
      ensures var p := Rest(s, ords, lvls, side)[j].price;
              PriceToIndex(p, n) == i ==>
                s.levels.slots[i] in lvls && s.levels.Block(s.levels.slots[i]) && s.levels.Price(s.levels.slots[i]) == p
    {
      OrderOwnsSlot(s, ords, lvls, side, j);
    }
    if s.levels.slots[i] != NULL {
      FilledSlotIsUsed(s, ords, lvls, i);
    }
  }

  /** With an order resting, any other price a multiple of the number of slots away is led to the
      level of that order. */
  lemma OtherPriceIsMisled(s: Store, ords: set<int>, lvls: set<int>, side: Side, j: nat, price: int)
    requires SideParts(s, ords, lvls, side) && j < |Rest(s, ords, lvls, side)|
    requires |s.levels.slots| > 0 && TWO_TO_THE_64 % |s.levels.slots| == 0
    requires var p := Rest(s, ords, lvls, side)[j].price; price != p && (price - p) % |s.levels.slots| == 0
    ensures !Fits(Rest(s, ords, lvls, side), price, |s.levels.slots|)
    ensures var l := s.levels.slots[s.levels.Slot(price)];
            l in lvls && s.levels.Block(l) && s.levels.Price(l) == Rest(s, ords, lvls, side)[j].price
  {
    SharedSlot(price, Rest(s, ords, lvls, side)[j].price, |s.levels.slots|);
    OrderOwnsSlot(s, ords, lvls, side, j);
  }

  /** No order of this queue is at a price of this slot. */
  predicate SlotUnused(q: seq<Order>, i: nat, n: nat)
    requires n > 0
  {
    forall j :: 0 <= j < |q| ==> PriceToIndex(q[j].price, n) != i
  }

  lemma EmptySlotIsUnused(s: Store, ords: set<int>, lvls: set<int>, side: Side, i: nat)
    requires SideParts(s, ords, lvls, side) && i < |s.levels.slots| && s.levels.slots[i] == NULL
    requires forall l :: l in lvls ==> l != NULL
    ensures SlotUnused(Rest(s, ords, lvls, side), i, |s.levels.slots|)
  {
    var q := Rest(s, ords, lvls, side);
    forall j | 0 <= j < |q|
      ensures PriceToIndex(q[j].price, |s.levels.slots|) != i
    {
      OrderOwnsSlot(s, ords, lvls, side, j);
    }
  }

  lemma FilledSlotIsUsed(s: Store, ords: set<int>, lvls: set<int>, i: nat)
    requires StoreValid(s, ords, lvls) && Readable(s, ords, lvls)
    requires i < |s.levels.slots| && s.levels.slots[i] != NULL
    ensures !SlotUnused(Rest(s, ords, lvls, Buy), i, |s.levels.slots|) || !SlotUnused(Rest(s, ords, lvls, Sell), i, |s.levels.slots|)
  {
    var l := s.levels.slots[i];
    assert SlotExact(s.levels, lvls, i);
    assert QueueAt(s, ords, l);
    var k := HouseNumber(s.levels, lvls, l);
    var side := s.levels.SideOf(l);
    PartsOfStore(s, ords, lvls, side);
    var j := OrderInRest(s, ords, lvls, side, k, 0);
    assert Belongs(s, ords, l, s.queues[l][0]);
  }

  /** The one price array is exact for both sides: a slot is empty just when no resting bid or ask is
      at a price of that slot. */
  lemma SlotsAreExact(s: Store, ords: set<int>, lvls: set<int>, i: nat)
    requires StoreValid(s, ords, lvls) && Readable(s, ords, lvls) && i < |s.levels.slots|
    requires forall l :: l in lvls ==> l != NULL
    ensures s.levels.slots[i] == NULL <==>
            SlotUnused(Rest(s, ords, lvls, Buy), i, |s.levels.slots|) && SlotUnused(Rest(s, ords, lvls, Sell), i, |s.levels.slots|)
  {
    if s.levels.slots[i] == NULL {
      PartsOfStore(s, ords, lvls, Buy);
      PartsOfStore(s, ords, lvls, Sell);
      EmptySlotIsUnused(s, ords, lvls, Buy, i);
      EmptySlotIsUnused(s, ords, lvls, Sell, i);
    } else {
      FilledSlotIsUsed(s, ords, lvls, i);
    }
  }

  /** The client map is exact: a key is in it just when a resting order has it. */
  lemma KeysAreExact(s: Store, ords: set<int>, lvls: set<int>, key: (nat, nat))
    requires StoreValid(s, ords, lvls) && Readable(s, ords, lvls)
    ensures key !in s.index <==> KeyFree(Rest(s, ords, lvls, Buy), key) && KeyFree(Rest(s, ords, lvls, Sell), key)
  {
    if key !in s.index {
      UnmappedKeyIsFree(s, ords, lvls, Buy, key);
      UnmappedKeyIsFree(s, ords, lvls, Sell, key);
    } else if KeyFree(Rest(s, ords, lvls, Buy), key) && KeyFree(Rest(s, ords, lvls, Sell), key) {
      FreeKeyIsUnmapped(s, ords, lvls, key);
    }
  }

  /** At an existing level the next priority is one more than that of its last order. */
  lemma PriorityAtLevel(s: Store, ords: set<int>, lvls: set<int>, side: Side, k: nat)
    requires SideParts(s, ords, lvls, side) && k < |s.levels.Ring(side)|
    ensures QueueAt(s, ords, s.levels.Ring(side)[k])
    ensures var q := QueueOf(s, ords, s.levels.Ring(side)[k]);
            NextPriority(Rest(s, ords, lvls, side), s.levels.Price(s.levels.Ring(side)[k])) == q[|q| - 1].priority + 1
  {
    var r := s.levels.Ring(side);
    CutAtLevel(s, ords, lvls, side, k);
    QueuePrices(s, ords, r[k]);
    var a, q, b := Orders(s, ords, lvls, side, r[..k]), QueueOf(s, ords, r[k]), Orders(s, ords, lvls, side, r[k + 1..]);
    NextPriorityBefore(a + q, b, s.levels.Price(r[k]));
    assert (a + q)[|a + q| - 1] == q[|q| - 1];
  }

  /** The same for a level that the price array leads to. */
  lemma PriorityAtLive(s: Store, ords: set<int>, lvls: set<int>, side: Side, l: int)
    requires SideParts(s, ords, lvls, side) && Housed(s.levels, lvls)
    requires l in lvls && s.levels.Block(l) && s.levels.SideOf(l) == side
    ensures QueueAt(s, ords, l) && s.Node(s.queues[l][|s.queues[l]| - 1])
    ensures NextPriority(Rest(s, ords, lvls, side), s.levels.Price(l)) == s.Item(s.queues[l][|s.queues[l]| - 1]).priority + 1
  {
    var k := HouseNumber(s.levels, lvls, l);
    PriorityAtLevel(s, ords, lvls, side, k);
    assert QueueAt(s, ords, l);
    var last := |s.queues[l]| - 1;
    assert Belongs(s, ords, l, s.queues[l][last]);
    assert QueueOf(s, ords, l)[last] == s.Item(s.queues[l][last]);
  }

  /** Where no level is, the next priority is 1. */
  lemma PriorityAtNewLevel(s: Store, ords: set<int>, lvls: set<int>, side: Side, price: int)
    requires SideParts(s, ords, lvls, side) && s.levels.slots[s.levels.Slot(price)] == NULL
    ensures NextPriority(Rest(s, ords, lvls, side), price) == 1
  {
    var q := Rest(s, ords, lvls, side);
    forall i | 0 <= i < |q|
      ensures q[i].price != price
    {
      var k := OrdersPrice(s, ords, lvls, side, s.levels.Ring(side), i);
      assert OwnsSlot(s.levels, s.levels.Ring(side)[k]);
    }
    NextPriorityBefore([], q, price);
    assert [] + q == q;
  }

  // ----- how many

  lemma {:induction false} SeqOfSet(f: seq<int>, all: set<int>)
    requires NoDup(f) && (forall x :: x in all <==> x in f)
    ensures |all| == |f|
  {
    if f != [] {
      var x := f[0];
      assert forall y :: y in f[1..] <==> y in f && y != x;
      SeqOfSet(f[1..], all - {x});
    } else {
      assert forall x :: x !in all;
      assert all == {};
    }
  }

  lemma {:induction false} FlatNoDup(s: Store, ords: set<int>, lvls: set<int>, side: Side, r: seq<int>)
    requires SlotsExact(s.levels, lvls) && Queues(s, ords, lvls) && OnSideAll(s.levels, lvls, side, r) && NoDup(r)
    ensures NoDup(Flat(s.queues, r))
  {
    if r != [] {
      assert OnSide(s.levels, lvls, side, r[0]);
      assert QueueAt(s, ords, r[0]);
      forall j | 0 <= j < |r[1..]|
        ensures OnSide(s.levels, lvls, side, r[1..][j])
      {
        assert OnSide(s.levels, lvls, side, r[j + 1]);
      }
      FlatNoDup(s, ords, lvls, side, r[1..]);
      var q, f := s.queues[r[0]], Flat(s.queues, r[1..]);
      forall i, j | 0 <= i < |q| && 0 <= j < |f|
        ensures q[i] != f[j]
      {
        var k := FlatBelongs(s, ords, lvls, side, r[1..], j);
        assert QueueAt(s, ords, r[k + 1]);
        QueuesDisjoint(s, ords, lvls, r[0], r[k + 1], q[i]);
      }
    }
  }

  lemma SidesApart(s: Store, ords: set<int>, lvls: set<int>)
    requires SideParts(s, ords, lvls, Buy) && SideParts(s, ords, lvls, Sell)
    ensures NoDup(Flat(s.queues, s.levels.bids) + Flat(s.queues, s.levels.asks))
  {
    var f, g := Flat(s.queues, s.levels.bids), Flat(s.queues, s.levels.asks);
    FlatNoDup(s, ords, lvls, Buy, s.levels.bids);
    FlatNoDup(s, ords, lvls, Sell, s.levels.asks);
    forall i, j | 0 <= i < |f| && 0 <= j < |g|
      ensures f[i] != g[j]
    {
      var k := FlatBelongs(s, ords, lvls, Buy, s.levels.bids, i);
      var m := FlatBelongs(s, ords, lvls, Sell, s.levels.asks, j);
    }
  }

  lemma AllOrdersAreResting(s: Store, ords: set<int>, lvls: set<int>, x: int)
    requires StoreValid(s, ords, lvls)
    ensures x in ords <==> x in Flat(s.queues, s.levels.bids) + Flat(s.queues, s.levels.asks)
  {
    var f, g := Flat(s.queues, s.levels.bids), Flat(s.queues, s.levels.asks);
    if x in ords {
      var l, side, k, j := OrderPlace(s, ords, lvls, x);
      PartsOfStore(s, ords, lvls, side);
      var i := OrderInRest(s, ords, lvls, side, k, j);
      assert (if side == Buy then f else g)[i] == x;
    }
    if i :| 0 <= i < |f| && f[i] == x {
      var k := FlatBelongs(s, ords, lvls, Buy, s.levels.bids, i);
    }
    if i :| 0 <= i < |g| && g[i] == x {
      var k := FlatBelongs(s, ords, lvls, Sell, s.levels.asks, i);
    }
  }

  /** Exactly the blocks on the rings are in use, each is there once, and they hold the resting orders. */
  lemma BlocksHoldOrders(s: Store, ords: set<int>, lvls: set<int>)
    requires StoreValid(s, ords, lvls) && Readable(s, ords, lvls)
    ensures var blocks := Flat(s.queues, s.levels.bids) + Flat(s.queues, s.levels.asks);
            var resting := Rest(s, ords, lvls, Buy) + Rest(s, ords, lvls, Sell);
            && NoDup(blocks) && (forall p :: p in ords <==> p in blocks)
            && |blocks| == |resting|
            && (forall i :: 0 <= i < |blocks| ==> s.Node(blocks[i]) && s.Item(blocks[i]) == resting[i])
  {
    PartsOfStore(s, ords, lvls, Buy);
    PartsOfStore(s, ords, lvls, Sell);
    SidesApart(s, ords, lvls);
    forall p
      ensures p in ords <==> p in Flat(s.queues, s.levels.bids) + Flat(s.queues, s.levels.asks)
    {
      AllOrdersAreResting(s, ords, lvls, p);
    }
    FlatBlocks(s, ords, lvls, Buy, s.levels.bids);
    FlatBlocks(s, ords, lvls, Sell, s.levels.asks);
  }

  /** No leak and no sharing: as many order blocks are in use as there are resting orders. */
  lemma BlocksAreOrders(s: Store, ords: set<int>, lvls: set<int>)
    requires StoreValid(s, ords, lvls) && Readable(s, ords, lvls)
    ensures |ords| == |Rest(s, ords, lvls, Buy)| + |Rest(s, ords, lvls, Sell)|
  {
    BlocksHoldOrders(s, ords, lvls);
    SeqOfSet(Flat(s.queues, s.levels.bids) + Flat(s.queues, s.levels.asks), ords);
  }

  // ----- what one request asks of the book's fixed sizes

  /** The number of price slots, of clients, of order ids a client has, and of order blocks. */
  datatype Limits = Limits(levels: nat, clients: nat, orderIds: nat, orders: nat)

  predicate ClientsBelow(q: seq<Order>, n: nat) {
    forall i :: 0 <= i < |q| ==> q[i].clientId < n
  }

  lemma {:induction false} MatchKeepsClients(t: Taker, qty: nat, q: seq<Order>, n: nat)
    requires ClientsBelow(q, n)
    ensures ClientsBelow(Match(t, qty, q).queue, n) && |Match(t, qty, q).queue| <= |q|
    decreases |q|, qty
  {
    if CanMatch(t, qty, q) {
      var one := MatchOne(t, qty, q);
      MatchKeepsClients(t, one.remains, one.queue, n);
    }
  }

  /** What is left of a new order is from a known client, under an id in range, and there is a block
      for it. */
  predicate HasRoom(b: Book, r: Request, limits: Limits) {
    r.clientId < limits.clients && r.orderId < limits.orderIds && |b.bids| + |b.asks| < limits.orders
  }

  /** And its price's slot is not taken by another price. */
  predicate RestServable(b: Book, r: Request, limits: Limits)
    requires limits.levels > 0
  {
    && HasRoom(b, r, limits)
    && Fits(b.bids, r.price, limits.levels) && Fits(b.asks, r.price, limits.levels)
  }

  /** The requests the source can handle: there is a market order id for a new order, and what
      matching leaves of it can rest; a cancellation from a known client has an id in range. */
  predicate Servable(b: Book, r: Request, limits: Limits)
    requires limits.levels > 0
  {
    && Admissible(b, r)
    && (r.kind == NewRequest ==>
          && b.nextMarketOid < ORDER_ID_INVALID
          && (MatchOf(b, r).remains > 0 ==> RestServable(AfterMatch(b, r), r, limits)))
    && (r.kind == CancelRequest && r.clientId < limits.clients ==> r.orderId < limits.orderIds)
  }

  predicate RunServable(b: Book, rs: seq<Request>, limits: Limits)
    requires limits.levels > 0
  {
    rs == [] ||
    (RunServable(b, rs[..|rs| - 1], limits) && Servable(Run(b, rs[..|rs| - 1]).book, rs[|rs| - 1], limits))
  }

  lemma {:induction false} ServableIsAdmissible(b: Book, rs: seq<Request>, limits: Limits)
    requires limits.levels > 0 && RunServable(b, rs, limits)
    ensures RunAdmissible(b, rs)
  {
    if rs != [] { ServableIsAdmissible(b, rs[..|rs| - 1], limits); }
  }

  /** What is left after matching crosses nothing. */
  lemma NoneCrossesAfterMatch(b: Book, r: Request)
    requires Inv(b) && r.side != NoSide && MatchOf(b, r).remains > 0
    ensures NoneCrosses(AfterMatch(b, r).Queue(Opposite(r.side)), r.side, r.price)
  {
    MatchInv(b, TakerOf(r, b.nextMarketOid), r.qty);
    HeadDecides(MatchOf(b, r).queue, r.side, r.price);
  }

  lemma InsertKeepsClients(q: seq<Order>, o: Order, n: nat)
    requires ClientsBelow(q, n) && o.clientId < n
    ensures ClientsBelow(Insert(q, o), n)
  {
  }

  lemma RemoveKeepsClients(q: seq<Order>, key: (nat, nat), n: nat)
    requires ClientsBelow(q, n)
    ensures ClientsBelow(Remove(q, key), n)
  {
  }
}
