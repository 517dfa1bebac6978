/** What every admissible request keeps: queues in price-time order, positive
    quantities, unique ids, and no bid at or above an ask. */
module BookInvariant {
  import opened Exchange
  import opened PriceTimeBook

  /** Order a is served before order b on this side: better price, or same price and earlier. */
  predicate Ahead(side: Side, a: Order, b: Order) {
    (if side == Buy then a.price > b.price else a.price < b.price) ||
    (a.price == b.price && a.marketOrderId < b.marketOrderId && a.priority < b.priority)
  }

  predicate InOrder(side: Side, q: seq<Order>) {
    forall i, j :: 0 <= i < j < |q| ==> Ahead(side, q[i], q[j])
  }

  predicate SoundOrder(side: Side, o: Order, next: nat) {
    o.side == side && o.qty > 0 && 1 <= o.priority <= o.marketOrderId < next
  }

  predicate SoundQueue(side: Side, q: seq<Order>, next: nat) {
    forall i :: 0 <= i < |q| ==> SoundOrder(side, q[i], next)
  }

  predicate SameOrder(a: Order, b: Order) {
    a.marketOrderId == b.marketOrderId || a.Key() == b.Key()
  }

  predicate Distinct(q: seq<Order>) {
    forall i, j :: 0 <= i < j < |q| ==> !SameOrder(q[i], q[j])
  }

  predicate Apart(q: seq<Order>, p: seq<Order>) {
    forall i, j :: 0 <= i < |q| && 0 <= j < |p| ==> !SameOrder(q[i], p[j])
  }

  predicate Uncrossed(bids: seq<Order>, asks: seq<Order>) {
    forall i, j :: 0 <= i < |bids| && 0 <= j < |asks| ==> bids[i].price < asks[j].price
  }

  predicate GoodQueue(side: Side, q: seq<Order>, next: nat) {
    InOrder(side, q) && SoundQueue(side, q, next) && Distinct(q)
  }

  predicate Inv(b: Book) {
    && b.nextMarketOid >= 1
    && GoodQueue(Buy, b.bids, b.nextMarketOid)
    && GoodQueue(Sell, b.asks, b.nextMarketOid)
    && Apart(b.bids, b.asks)
    && Uncrossed(b.bids, b.asks)
  }

  // ----- matching

  /** q' is q after an execution: the head may have left, and only quantities differ. */
  predicate Served(q: seq<Order>, q': seq<Order>) {
    && |q'| <= |q| <= |q'| + 1
    && forall i :: 0 <= i < |q'| ==> ServedAt(q, q', i)
  }

  predicate ServedAt(q: seq<Order>, q': seq<Order>, i: nat)
    requires i < |q'| <= |q|
  {
    var o := q[i + |q| - |q'|];
    q'[i].qty > 0 && q'[i] == o.(qty := q'[i].qty)
  }

  lemma MatchOneServes(t: Taker, qty: nat, side: Side, q: seq<Order>, next: nat)
    requires SoundQueue(side, q, next) && CanMatch(t, qty, q)
    ensures Served(q, MatchOne(t, qty, q).queue)
  {
  }

  lemma ServedIsGood(side: Side, q: seq<Order>, q': seq<Order>, next: nat)
    requires GoodQueue(side, q, next) && Served(q, q')
    ensures GoodQueue(side, q', next)
  {
    forall i | 0 <= i < |q'|
      ensures SoundOrder(side, q'[i], next)
    {
      assert ServedAt(q, q', i) && SoundOrder(side, q[i + |q| - |q'|], next);
    }
    forall i, j | 0 <= i < j < |q'|
      ensures Ahead(side, q'[i], q'[j]) && !SameOrder(q'[i], q'[j])
    {
      var a, b := q[i + |q| - |q'|], q[j + |q| - |q'|];
      assert ServedAt(q, q', i) && ServedAt(q, q', j);
      assert Ahead(side, a, b) && !SameOrder(a, b);
    }
  }

  lemma ServedOutside(q: seq<Order>, q': seq<Order>, p: seq<Order>)
    requires Served(q, q')
    ensures Apart(q, p) ==> Apart(q', p)
    ensures Apart(p, q) ==> Apart(p, q')
    ensures Uncrossed(q, p) ==> Uncrossed(q', p)
    ensures Uncrossed(p, q) ==> Uncrossed(p, q')
  {
    forall i, j | 0 <= i < |q'| && 0 <= j < |p|
      ensures Apart(q, p) ==> !SameOrder(q'[i], p[j])
      ensures Apart(p, q) ==> !SameOrder(p[j], q'[i])
      ensures Uncrossed(q, p) ==> q'[i].price < p[j].price
      ensures Uncrossed(p, q) ==> p[j].price < q'[i].price
    {
      assert ServedAt(q, q', i);
      var o := q[i + |q| - |q'|];
      assert SameOrder(q'[i], p[j]) == SameOrder(o, p[j]) && SameOrder(p[j], q'[i]) == SameOrder(p[j], o);
    }
  }

  /** One execution keeps the book sound: the head leaves, or stays with less to trade. */
  lemma MatchOneInv(b: Book, t: Taker, qty: nat)
    requires Inv(b) && t.side != NoSide
    requires CanMatch(t, qty, b.Queue(Opposite(t.side)))
    ensures Inv(b.WithQueue(Opposite(t.side), MatchOne(t, qty, b.Queue(Opposite(t.side))).queue))
  {
    var side := Opposite(t.side);
    var q, other := b.Queue(side), b.Queue(t.side);
    var q' := MatchOne(t, qty, q).queue;
    MatchOneServes(t, qty, side, q, b.nextMarketOid);
    ServedIsGood(side, q, q', b.nextMarketOid);
    ServedOutside(q, q', other);
  }

  /** Matching keeps the book sound, and stops only when nothing is left to trade or the
      next price is not acceptable. */
  lemma {:induction false} MatchInv(b: Book, t: Taker, qty: nat)
    requires Inv(b) && t.side != NoSide
    ensures var m := Match(t, qty, b.Queue(Opposite(t.side)));
            Inv(b.WithQueue(Opposite(t.side), m.queue)) && !CanMatch(t, m.remains, m.queue) && m.remains <= qty
    decreases |b.Queue(Opposite(t.side))|, qty
  {
    var q := b.Queue(Opposite(t.side));
    if CanMatch(t, qty, q) {
      MatchOneInv(b, t, qty);
      var one := MatchOne(t, qty, q);
      MatchInv(b.WithQueue(Opposite(t.side), one.queue), t, one.remains);
    }
  }

  // ----- insertion

  /** How many resting orders are served before a new one at this price. */
  function Place(q: seq<Order>, o: Order): (k: nat)
    ensures k <= |q|
    ensures forall i :: 0 <= i < k ==> !Improves(o.side, o.price, q[i].price)
    ensures k < |q| ==> Improves(o.side, o.price, q[k].price)
    ensures Insert(q, o) == q[..k] + [o] + q[k..]
  {
    if q == [] || Improves(o.side, o.price, q[0].price) then 0
    else
      var k := 1 + Place(q[1..], o);
      ShiftPlace(q, o, k);
      k
  }

  lemma ShiftPlace(q: seq<Order>, o: Order, k: nat)
    requires 1 <= k <= |q|
    ensures [q[0]] + (q[1..][..k - 1] + [o] + q[1..][k - 1..]) == q[..k] + [o] + q[k..]
  {
  }

  lemma {:induction false} NextPriorityIsLast(side: Side, q: seq<Order>, price: int, next: nat)
    requires SoundQueue(side, q, next)
    requires InOrder(side, q)
    requires next >= 1
    ensures 1 <= NextPriority(q, price) <= next
    ensures forall i :: 0 <= i < |q| && q[i].price == price ==> q[i].priority < NextPriority(q, price)
  {
    if q != [] {
      assert SoundOrder(side, q[|q| - 1], next);
      if q[|q| - 1].price == price {
        forall i | 0 <= i < |q| && q[i].price == price
          ensures q[i].priority < NextPriority(q, price)
        {
          if i < |q| - 1 { assert Ahead(side, q[i], q[|q| - 1]); }
        }
      } else {
        NextPriorityIsLast(side, q[..|q| - 1], price, next);
        forall i | 0 <= i < |q| && q[i].price == price
          ensures q[i].priority < NextPriority(q, price)
        {
          assert q[i] == q[..|q| - 1][i];
        }
      }
    }
  }

  lemma InsertInOrder(side: Side, q: seq<Order>, o: Order)
    requires side != NoSide && o.side == side
    requires InOrder(side, q)
    requires forall i :: 0 <= i < |q| ==> q[i].marketOrderId < o.marketOrderId
    requires forall i :: 0 <= i < |q| && q[i].price == o.price ==> q[i].priority < o.priority
    ensures InOrder(side, Insert(q, o))
  {
    var k := Place(q, o);
    forall i | 0 <= i < |q|
      ensures if i < k then Ahead(side, q[i], o) else Ahead(side, o, q[i])
    {
      if k < i { assert Ahead(side, q[k], q[i]); }
    }
  }

  lemma InsertIsDistinct(q: seq<Order>, o: Order)
    requires Distinct(q)
    requires forall i :: 0 <= i < |q| ==> !SameOrder(q[i], o)
    ensures Distinct(Insert(q, o))
  {
    var k := Place(q, o);
  }

  lemma InsertIsSound(side: Side, q: seq<Order>, o: Order, next: nat)
    requires SoundQueue(side, q, next) && SoundOrder(side, o, next)
    ensures SoundQueue(side, Insert(q, o), next)
  {
  }

  /** A younger order queued behind its price keeps the queue in price-time order. */
  lemma InsertIsGood(side: Side, q: seq<Order>, o: Order)
    requires side != NoSide
    requires GoodQueue(side, q, o.marketOrderId)
    requires SoundOrder(side, o, o.marketOrderId + 1)
    requires KeyFree(q, o.Key())
    requires o.priority == NextPriority(q, o.price)
    ensures GoodQueue(side, Insert(q, o), o.marketOrderId + 1)
  {
    NextPriorityIsLast(side, q, o.price, o.marketOrderId);
    forall i | 0 <= i < |q|
      ensures SoundOrder(side, q[i], o.marketOrderId + 1) && !SameOrder(q[i], o)
    {
      assert SoundOrder(side, q[i], o.marketOrderId);
    }
    InsertInOrder(side, q, o);
    InsertIsDistinct(q, o);
    InsertIsSound(side, q, o, o.marketOrderId + 1);
  }

  // ----- deletion

  lemma {:induction false} RemoveShape(q: seq<Order>, key: (nat, nat))
    ensures var i := Find(q, key);
            Remove(q, key) == if i < |q| then q[..i] + q[i + 1..] else q
  {
    if q != [] && q[0].Key() != key {
      RemoveShape(q[1..], key);
      var i := Find(q, key);
      if i < |q| {
        assert q[..i] == [q[0]] + q[1..][..i - 1];
      }
    }
  }

  lemma RemoveIsGood(side: Side, q: seq<Order>, key: (nat, nat), next: nat)
    requires GoodQueue(side, q, next)
    ensures GoodQueue(side, Remove(q, key), next)
    ensures forall o :: o in Remove(q, key) ==> o in q
  {
    RemoveShape(q, key);
    var i := Find(q, key);
    var r := Remove(q, key);
    forall a, b | 0 <= a < b < |r|
      ensures Ahead(side, r[a], r[b]) && !SameOrder(r[a], r[b])
    {
      var a0 := if a < i then a else a + 1;
      var b0 := if b < i then b else b + 1;
      if i < |q| {
        assert r[a] == q[a0] && r[b] == q[b0];
        assert Ahead(side, q[a0], q[b0]) && !SameOrder(q[a0], q[b0]);
      }
    }
  }

  // ----- requests

  lemma NextIdInv(b: Book)
    requires Inv(b)
    ensures Inv(b.(nextMarketOid := b.nextMarketOid + 1))
  {
  }

  /** An order that no opposite order can trade with may rest. */
  lemma InsertInv(b: Book, o: Order)
    requires Inv(b) && o.side != NoSide && o.qty > 0
    requires o.marketOrderId == b.nextMarketOid && o.priority == NextPriority(b.Queue(o.side), o.price)
    requires KeyFree(b.bids, o.Key()) && KeyFree(b.asks, o.Key())
    requires var q := b.Queue(Opposite(o.side)); q == [] || !Crosses(o.side, o.price, q[0].price)
    ensures Inv(b.WithQueue(o.side, Insert(b.Queue(o.side), o)).(nextMarketOid := b.nextMarketOid + 1))
  {
    var own, q := b.Queue(o.side), b.Queue(Opposite(o.side));
    NextPriorityIsLast(o.side, own, o.price, b.nextMarketOid);
    InsertIsGood(o.side, own, o);
    NextIdInv(b);
    forall j | 0 <= j < |q|
      ensures !SameOrder(o, q[j]) && !Crosses(o.side, o.price, q[j].price)
    {
      assert SoundOrder(Opposite(o.side), q[j], b.nextMarketOid);
      if j > 0 { assert Ahead(Opposite(o.side), q[0], q[j]); }
    }
    InsertKeepsApart(own, o, q);
  }

  lemma InsertKeepsApart(own: seq<Order>, o: Order, q: seq<Order>)
    requires o.side != NoSide
    requires forall j :: 0 <= j < |q| ==> !SameOrder(o, q[j]) && !Crosses(o.side, o.price, q[j].price)
    ensures Apart(own, q) ==> Apart(Insert(own, o), q)
    ensures Apart(q, own) ==> Apart(q, Insert(own, o))
    ensures o.side == Buy && Uncrossed(own, q) ==> Uncrossed(Insert(own, o), q)
    ensures o.side == Sell && Uncrossed(q, own) ==> Uncrossed(q, Insert(own, o))
  {
    var k := Place(own, o);
  }

  lemma AddOrderInv(b: Book, r: Request)
    requires Inv(b)
    requires r.kind == NewRequest && Admissible(b, r)
    ensures Inv(AddOrder(b, r).book)
  {
    var t := TakerOf(r, b.nextMarketOid);
    var opp := Opposite(r.side);
    MatchInv(b, t, r.qty);
    var m := Match(t, r.qty, b.Queue(opp));
    var b' := AfterMatch(b, r);
    if m.remains == 0 {
      NextIdInv(b');
    } else {
      InsertInv(b', RestingOrder(r, b.nextMarketOid, m.remains, NextPriority(b.Queue(r.side), r.price)));
    }
  }

  lemma RemoveKeepsApart(q: seq<Order>, key: (nat, nat), p: seq<Order>)
    ensures Apart(q, p) ==> Apart(Remove(q, key), p)
    ensures Apart(p, q) ==> Apart(p, Remove(q, key))
    ensures Uncrossed(q, p) ==> Uncrossed(Remove(q, key), p)
    ensures Uncrossed(p, q) ==> Uncrossed(p, Remove(q, key))
  {
    RemoveShape(q, key);
  }

  lemma CancelOrderInv(b: Book, r: Request)
    requires Inv(b)
    ensures Inv(CancelOrder(b, r).book)
  {
    var key := (r.clientId, r.orderId);
    RemoveIsGood(Buy, b.bids, key, b.nextMarketOid);
    RemoveIsGood(Sell, b.asks, key, b.nextMarketOid);
    RemoveKeepsApart(b.bids, key, b.asks);
    RemoveKeepsApart(b.asks, key, b.bids);
  }

  /** One request keeps the invariant. */
  lemma StepInv(b: Book, r: Request)
    requires Inv(b) && Admissible(b, r)
    ensures Inv(Step(b, r).book)
  {
    match r.kind
    case NewRequest => AddOrderInv(b, r);
    case CancelRequest => CancelOrderInv(b, r);
    case InvalidRequest =>
  }

  /** Every state reachable from the empty book is sound; in particular it is never crossed. */
  lemma {:induction false} RunInv(rs: seq<Request>)
    requires RunAdmissible(EMPTY_BOOK, rs)
    ensures Inv(Run(EMPTY_BOOK, rs).book)
  {
    if rs != [] {
      RunInv(rs[..|rs| - 1]);
      StepInv(Run(EMPTY_BOOK, rs[..|rs| - 1]).book, rs[|rs| - 1]);
    }
  }
}
