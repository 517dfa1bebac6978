/** The published market data is complete: a subscriber that folds the updates over an
    empty table holds exactly the resting orders. */
module MarketData {
  import opened Exchange
  import opened PriceTimeBook
  import opened BookInvariant

  /** What a subscriber knows of a resting order, under its market order id. */
  datatype Entry = Entry(side: Side, price: int, qty: nat, priority: nat)

  type Table = map<nat, Entry>

  // ----- the subscriber

  function Apply(m: Table, u: Update): Table {
    match u.kind
    case Add => m[u.orderId := Entry(u.side, u.price, u.qty, u.priority)]
    case Modify => if u.orderId in m then m[u.orderId := m[u.orderId].(qty := u.qty)] else m
    case Cancel => m - {u.orderId}
    case Trade => m
  }

  function Fold(m: Table, us: seq<Update>): Table
    decreases |us|
  {
    if us == [] then m else Fold(Apply(m, us[0]), us[1..])
  }

  lemma FoldOne(m: Table, u: Update)
    ensures Fold(m, [u]) == Apply(m, u)
  {
  }

  lemma FoldTwo(m: Table, u: Update, v: Update)
    ensures Fold(m, [u, v]) == Apply(Apply(m, u), v)
  {
    assert [u, v][1..] == [v];
    FoldOne(Apply(m, u), v);
  }

  lemma {:induction false} FoldAppend(m: Table, us: seq<Update>, vs: seq<Update>)
    ensures Fold(m, us + vs) == Fold(Fold(m, us), vs)
    decreases |us|
  {
    if us == [] {
      assert us + vs == vs;
    } else {
      assert (us + vs)[1..] == us[1..] + vs;
      FoldAppend(Apply(m, us[0]), us[1..], vs);
    }
  }

  // ----- the book as a table

  function EntryOf(o: Order): Entry { Entry(o.side, o.price, o.qty, o.priority) }

  function Ids(q: seq<Order>): (ids: set<nat>)
    ensures forall i :: 0 <= i < |q| ==> q[i].marketOrderId in ids
  {
    if q == [] then {} else {q[0].marketOrderId} + Ids(q[1..])
  }

  lemma {:induction false} IdHasOrder(q: seq<Order>, id: nat) returns (i: nat)
    requires id in Ids(q)
    ensures i < |q| && q[i].marketOrderId == id
  {
    if q[0].marketOrderId == id {
      i := 0;
    } else {
      i := IdHasOrder(q[1..], id);
      i := i + 1;
    }
  }

  lemma {:induction false} IdHasNoOrder(q: seq<Order>, id: nat)
    requires forall i :: 0 <= i < |q| ==> q[i].marketOrderId != id
    ensures id !in Ids(q)
  {
    if q != [] {
      IdHasNoOrder(q[1..], id);
    }
  }

  function Snapshot(q: seq<Order>): (m: Table)
    ensures m.Keys == Ids(q)
  {
    if q == [] then map[] else Snapshot(q[1..])[q[0].marketOrderId := EntryOf(q[0])]
  }

  function Depth(b: Book): Table { Snapshot(b.bids) + Snapshot(b.asks) }

  /** Each resting order is in the table under its id, and nothing else is. */
  lemma {:induction false} SnapshotIsExact(q: seq<Order>, i: nat)
    requires Distinct(q) && i < |q|
    ensures q[i].marketOrderId in Snapshot(q) && Snapshot(q)[q[i].marketOrderId] == EntryOf(q[i])
  {
    if i > 0 {
      assert !SameOrder(q[0], q[i]);
      DistinctTail(q);
      SnapshotIsExact(q[1..], i - 1);
    }
  }

  lemma DistinctTail(q: seq<Order>)
    requires Distinct(q) && q != []
    ensures Distinct(q[1..])
    ensures q[0].marketOrderId !in Ids(q[1..])
  {
    forall i | 0 <= i < |q[1..]|
      ensures q[1..][i].marketOrderId != q[0].marketOrderId
    {
      assert !SameOrder(q[0], q[i + 1]);
    }
    IdHasNoOrder(q[1..], q[0].marketOrderId);
  }

  lemma ApartIds(q: seq<Order>, p: seq<Order>)
    requires Apart(q, p)
    ensures Ids(q) !! Ids(p)
  {
    forall id | id in Ids(q)
      ensures id !in Ids(p)
    {
      var i := IdHasOrder(q, id);
      assert forall j :: 0 <= j < |p| ==> !SameOrder(q[i], p[j]);
      IdHasNoOrder(p, id);
    }
  }

  lemma DepthBySide(b: Book, side: Side)
    requires Apart(b.bids, b.asks) && side != NoSide
    ensures Depth(b) == Snapshot(b.Queue(side)) + Snapshot(b.Queue(Opposite(side)))
    ensures Ids(b.Queue(side)) !! Ids(b.Queue(Opposite(side)))
  {
    ApartIds(b.bids, b.asks);
  }

  // ----- one execution

  lemma FillUpdatesFold(t: Taker, qty: nat, q: seq<Order>, own: Table)
    requires CanMatch(t, qty, q) && Distinct(q) && Ids(q) !! own.Keys
    ensures Fold(Snapshot(q) + own, MatchOne(t, qty, q).updates) == Snapshot(MatchOne(t, qty, q).queue) + own
  {
    var one := MatchOne(t, qty, q);
    var m := Snapshot(q) + own;
    var id := q[0].marketOrderId;
    FoldTwo(m, one.updates[0], one.updates[1]);
    DistinctTail(q);
    assert id in Ids(q);
    if one.updates[1].kind == Cancel {
      assert m - {id} == Snapshot(q[1..]) + own;
    } else {
      assert one.queue[1..] == q[1..];
      assert m[id := m[id].(qty := one.updates[1].qty)] == Snapshot(one.queue) + own;
    }
  }

  lemma {:induction false} MatchUpdatesFold(b: Book, t: Taker, qty: nat)
    requires Inv(b) && t.side != NoSide
    ensures var m := Match(t, qty, b.Queue(Opposite(t.side)));
            Fold(Depth(b), m.updates) == Depth(b.WithQueue(Opposite(t.side), m.queue))
    decreases |b.Queue(Opposite(t.side))|, qty
  {
    var opp := Opposite(t.side);
    var q := b.Queue(opp);
    if CanMatch(t, qty, q) {
      var one := MatchOne(t, qty, q);
      var b' := b.WithQueue(opp, one.queue);
      MatchOneInv(b, t, qty);
      DepthBySide(b, opp);
      DepthBySide(b', opp);
      FillUpdatesFold(t, qty, q, Snapshot(b.Queue(t.side)));
      MatchUpdatesFold(b', t, one.remains);
      FoldAppend(Depth(b), one.updates, Match(t, one.remains, one.queue).updates);
    }
  }

  // ----- resting and cancelling

  lemma {:induction false} SnapshotInsert(q: seq<Order>, o: Order)
    requires o.marketOrderId !in Ids(q)
    ensures Snapshot(Insert(q, o)) == Snapshot(q)[o.marketOrderId := EntryOf(o)]
  {
    var r := Insert(q, o);
    if q != [] && !Improves(o.side, o.price, q[0].price) {
      SnapshotInsert(q[1..], o);
      assert r[1..] == Insert(q[1..], o);
    } else {
      assert r[1..] == q;
    }
  }

  lemma {:induction false} SnapshotRemove(q: seq<Order>, key: (nat, nat))
    requires Distinct(q) && Find(q, key) < |q|
    ensures Snapshot(Remove(q, key)) == Snapshot(q) - {q[Find(q, key)].marketOrderId}
  {
    DistinctTail(q);
    if q[0].Key() == key {
      assert Snapshot(q) - {q[0].marketOrderId} == Snapshot(q[1..]);
    } else {
      var i := Find(q, key);
      assert !SameOrder(q[0], q[i]);
      SnapshotRemove(q[1..], key);
      SnapshotCons(q[0], Remove(q[1..], key));
      assert Snapshot(q) == Snapshot(q[1..])[q[0].marketOrderId := EntryOf(q[0])];
      assert q[1..][i - 1] == q[i];
    }
  }

  lemma SnapshotCons(o: Order, q: seq<Order>)
    ensures Snapshot([o] + q) == Snapshot(q)[o.marketOrderId := EntryOf(o)]
  {
  }

  lemma RestingUpdateFold(b: Book, o: Order)
    requires Inv(b) && o.side != NoSide && o.marketOrderId == b.nextMarketOid
    ensures Apply(Depth(b), AddUpdate(o)) == Depth(b.WithQueue(o.side, Insert(b.Queue(o.side), o)))
  {
    FreshId(b, Buy);
    FreshId(b, Sell);
    var own, other := Snapshot(b.Queue(o.side)), Snapshot(b.Queue(Opposite(o.side)));
    SnapshotInsert(b.Queue(o.side), o);
    UpdateLeft(own, other, o.marketOrderId, EntryOf(o));
    UpdateRight(other, own, o.marketOrderId, EntryOf(o));
  }

  lemma UpdateLeft(m: Table, n: Table, id: nat, e: Entry)
    requires id !in n
    ensures (m + n)[id := e] == m[id := e] + n
  {
  }

  lemma UpdateRight(m: Table, n: Table, id: nat, e: Entry)
    ensures (m + n)[id := e] == m + n[id := e]
  {
  }

  lemma AddOrderUpdatesFold(b: Book, r: Request)
    requires Inv(b) && r.kind == NewRequest && Admissible(b, r)
    ensures Fold(Depth(b), AddOrder(b, r).updates) == Depth(AddOrder(b, r).book)
  {
    var t := TakerOf(r, b.nextMarketOid);
    var m := Match(t, r.qty, b.Queue(Opposite(r.side)));
    var b' := AfterMatch(b, r);
    MatchUpdatesFold(b, t, r.qty);
    MatchInv(b, t, r.qty);
    if m.remains > 0 {
      var own := b.Queue(r.side);
      var o := RestingOrder(r, b.nextMarketOid, m.remains, NextPriority(own, r.price));
      FoldAppend(Depth(b), m.updates, [AddUpdate(o)]);
      FoldOne(Depth(b'), AddUpdate(o));
      RestingUpdateFold(b', o);
    }
  }

  /** The next market order id names no resting order. */
  lemma FreshId(b: Book, side: Side)
    requires Inv(b) && side != NoSide
    ensures b.nextMarketOid !in Ids(b.Queue(side))
  {
    var q := b.Queue(side);
    assert forall i :: 0 <= i < |q| ==> SoundOrder(side, q[i], b.nextMarketOid);
    IdHasNoOrder(q, b.nextMarketOid);
  }

  lemma DropLeft(m: Table, n: Table, id: nat)
    requires id !in n
    ensures (m + n) - {id} == (m - {id}) + n
    ensures (n + m) - {id} == n + (m - {id})
  {
  }

  lemma CancelUpdateFold(b: Book, side: Side, key: (nat, nat), u: Update)
    requires Inv(b) && side != NoSide && Find(b.Queue(side), key) < |b.Queue(side)|
    requires u.kind == Cancel && u.orderId == b.Queue(side)[Find(b.Queue(side), key)].marketOrderId
    ensures Apply(Depth(b), u) == Depth(b.WithQueue(side, Remove(b.Queue(side), key)))
  {
    var q, p := b.Queue(side), b.Queue(Opposite(side));
    SnapshotRemove(q, key);
    ApartIds(b.bids, b.asks);
    assert u.orderId in Ids(q);
    DropLeft(Snapshot(q), Snapshot(p), u.orderId);
  }

  lemma CancelOrderUpdatesFold(b: Book, r: Request)
    requires Inv(b)
    ensures Fold(Depth(b), CancelOrder(b, r).updates) == Depth(CancelOrder(b, r).book)
  {
    var key := (r.clientId, r.orderId);
    var side := if Find(b.bids, key) < |b.bids| then Buy else Sell;
    var q := b.Queue(side);
    var i := Find(q, key);
    if i < |q| {
      var u := CancelUpdate(r, q[i]);
      CancelUpdateFold(b, side, key, u);
      FoldOne(Depth(b), u);
    }
  }

  /** One request: the published updates carry the subscriber's table from one book to the next. */
  lemma StepUpdatesFold(b: Book, r: Request)
    requires Inv(b) && Admissible(b, r)
    ensures Fold(Depth(b), Step(b, r).updates) == Depth(Step(b, r).book)
  {
    match r.kind
    case NewRequest => AddOrderUpdatesFold(b, r);
    case CancelRequest => CancelOrderUpdatesFold(b, r);
    case InvalidRequest =>
  }

  /** After any run, the updates folded over the empty table are exactly the resting orders. */
  lemma {:induction false} UpdatesReconstructBook(rs: seq<Request>)
    requires RunAdmissible(EMPTY_BOOK, rs)
    ensures Fold(map[], Run(EMPTY_BOOK, rs).updates) == Depth(Run(EMPTY_BOOK, rs).book)
  {
    if rs != [] {
      var init := rs[..|rs| - 1];
      var last := rs[|rs| - 1];
      UpdatesReconstructBook(init);
      RunInv(init);
      var before := Run(EMPTY_BOOK, init);
      StepUpdatesFold(before.book, last);
      FoldAppend(map[], before.updates, Step(before.book, last).updates);
    }
  }

  /** So the subscriber knows each resting order by side, price, quantity and priority, and no other. */
  lemma SubscriberSeesEachOrder(rs: seq<Request>)
    requires RunAdmissible(EMPTY_BOOK, rs)
    ensures var b := Run(EMPTY_BOOK, rs).book;
            var m := Fold(map[], Run(EMPTY_BOOK, rs).updates);
            && m.Keys == Ids(b.bids) + Ids(b.asks)
            && (forall i :: 0 <= i < |b.bids| ==> m[b.bids[i].marketOrderId] == EntryOf(b.bids[i]))
            && (forall i :: 0 <= i < |b.asks| ==> m[b.asks[i].marketOrderId] == EntryOf(b.asks[i]))
  {
    UpdatesReconstructBook(rs);
    RunInv(rs);
    var b := Run(EMPTY_BOOK, rs).book;
    ApartIds(b.bids, b.asks);
    forall i | 0 <= i < |b.bids|
      ensures Depth(b)[b.bids[i].marketOrderId] == EntryOf(b.bids[i])
    {
      SnapshotIsExact(b.bids, i);
    }
    forall i | 0 <= i < |b.asks|
      ensures Depth(b)[b.asks[i].marketOrderId] == EntryOf(b.asks[i])
    {
      SnapshotIsExact(b.asks, i);
    }
  }
}
