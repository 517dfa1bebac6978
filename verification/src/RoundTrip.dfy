/** Adding an order and cancelling it again. */
module RoundTrip {
  import opened Exchange
  import opened PriceTimeBook
  import opened BookInvariant

  lemma {:induction false} RemoveUndoesInsert(q: seq<Order>, o: Order)
    requires KeyFree(q, o.Key())
    ensures Remove(Insert(q, o), o.Key()) == q
    ensures Find(Insert(q, o), o.Key()) < |Insert(q, o)|
    ensures Insert(q, o)[Find(Insert(q, o), o.Key())] == o
  {
    var r := Insert(q, o);
    if q != [] && !Improves(o.side, o.price, q[0].price) {
      RemoveUndoesInsert(q[1..], o);
      assert r[1..] == Insert(q[1..], o);
    } else {
      assert r[1..] == q;
    }
  }

  lemma FindNothing(q: seq<Order>, key: (nat, nat))
    requires KeyFree(q, key)
    ensures Find(q, key) == |q|
  {
  }

  /** The client gets back exactly what was left resting, and the book is what matching alone
      would have left. The id stays used. */
  lemma CancelUndoesResting(b: Book, r: Request, c: Request)
    requires Inv(b) && r.kind == NewRequest && Admissible(b, r)
    requires Match(TakerOf(r, b.nextMarketOid), r.qty, b.Queue(Opposite(r.side))).remains > 0
    requires c.clientId == r.clientId && c.orderId == r.orderId
    ensures var remains := Match(TakerOf(r, b.nextMarketOid), r.qty, b.Queue(Opposite(r.side))).remains;
            var out := CancelOrder(AddOrder(b, r).book, c);
            && out.book == AfterMatch(b, r).(nextMarketOid := b.nextMarketOid + 1)
            && out.responses == [Response(Cancelled, r.clientId, c.tickerId, r.orderId, b.nextMarketOid,
                                          r.side, r.price, QTY_INVALID, remains)]
            && |out.updates| == 1 && out.updates[0].kind == Cancel && out.updates[0].orderId == b.nextMarketOid
  {
    var t := TakerOf(r, b.nextMarketOid);
    var opp := Opposite(r.side);
    var key := (r.clientId, r.orderId);
    var m := Match(t, r.qty, b.Queue(opp));
    var own := b.Queue(r.side);
    var o := RestingOrder(r, b.nextMarketOid, m.remains, NextPriority(own, r.price));
    FindNothing(m.queue, key);
    RemoveUndoesInsert(own, o);
  }

  lemma MatchesNothing(b: Book, r: Request)
    requires r.side != NoSide && r.qty > 0
    requires !CanMatch(TakerOf(r, b.nextMarketOid), r.qty, b.Queue(Opposite(r.side)))
    ensures MatchOf(b, r) == MatchResult(r.qty, b.Queue(Opposite(r.side)), [], [])
    ensures AfterMatch(b, r) == b && |AddOrder(b, r).responses| == 1
  {
  }

  /** A positive order that trades with nothing, once cancelled, leaves no trace but its id. */
  lemma AddThenCancelRestores(b: Book, r: Request, c: Request)
    requires Inv(b) && r.kind == NewRequest && Admissible(b, r)
    requires r.qty > 0 && !CanMatch(TakerOf(r, b.nextMarketOid), r.qty, b.Queue(Opposite(r.side)))
    requires c.kind == CancelRequest && c.clientId == r.clientId && c.orderId == r.orderId
    ensures Run(b, [r, c]).book == b.(nextMarketOid := b.nextMarketOid + 1)
    ensures |Run(b, [r, c]).responses| == 2 && Run(b, [r, c]).responses[1].qtyRemain == r.qty
  {
    MatchesNothing(b, r);
    CancelUndoesResting(b, r, c);
    RunOfTwo(b, r, c);
  }
}
