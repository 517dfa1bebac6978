/** The life of an order as its client sees it, and the conservation of quantity. */
module LifeCycle {
  import opened Exchange
  import opened PriceTimeBook
  import opened BookInvariant

  /** What the responses so far say of one market order id: not accepted yet, accepted with
      this much left, cancelled, or a sequence no order may produce. */
  datatype Life = Unborn | Live(remain: nat) | Ended | Broken

  /** Accepted once; then fills, each strictly lowering what remains by what it executed;
      then at most one cancellation, of exactly what remains; then nothing. */
  function Advance(s: Life, r: Response): Life {
    match (s, r.kind)
    case (Unborn, Accepted) => if r.qtyExec == 0 then Live(r.qtyRemain) else Broken
    case (Live(n), Filled) => if r.qtyExec > 0 && r.qtyExec + r.qtyRemain == n then Live(r.qtyRemain) else Broken
    case (Live(n), Cancelled) => if n > 0 && r.qtyRemain == n then Ended else Broken
    case _ => Broken
  }

  function Track(s: Life, oid: nat, rs: seq<Response>): Life
    decreases |rs|
  {
    if rs == [] then s
    else Track(if rs[0].marketOrderId == oid then Advance(s, rs[0]) else s, oid, rs[1..])
  }

  lemma {:induction false} TrackAppend(s: Life, oid: nat, rs: seq<Response>, ts: seq<Response>)
    ensures Track(s, oid, rs + ts) == Track(Track(s, oid, rs), oid, ts)
    decreases |rs|
  {
    if rs == [] {
      assert rs + ts == ts;
    } else {
      assert (rs + ts)[1..] == rs[1..] + ts;
      TrackAppend(if rs[0].marketOrderId == oid then Advance(s, rs[0]) else s, oid, rs[1..], ts);
    }
  }

  function TrackOne(s: Life, oid: nat, r: Response): Life {
    if r.marketOrderId == oid then Advance(s, r) else s
  }

  lemma TrackSingle(s: Life, oid: nat, r: Response)
    ensures Track(s, oid, [r]) == TrackOne(s, oid, r)
  {
  }

  lemma TrackPair(s: Life, oid: nat, r: Response, r': Response)
    ensures Track(s, oid, [r, r']) == TrackOne(TrackOne(s, oid, r), oid, r')
  {
    assert [r, r'][1..] == [r'];
    TrackSingle(TrackOne(s, oid, r), oid, r');
  }

  // ----- what the book still holds of an order

  function Open(q: seq<Order>, oid: nat): nat {
    if q == [] then 0 else (if q[0].marketOrderId == oid then q[0].qty else 0) + Open(q[1..], oid)
  }

  function OpenIn(b: Book, oid: nat): nat { Open(b.bids, oid) + Open(b.asks, oid) }

  lemma {:induction false} OpenNone(q: seq<Order>, oid: nat)
    requires forall i :: 0 <= i < |q| ==> q[i].marketOrderId != oid
    ensures Open(q, oid) == 0
  {
    if q != [] { OpenNone(q[1..], oid); }
  }

  lemma {:induction false} OpenOne(q: seq<Order>, i: nat)
    requires Distinct(q) && i < |q|
    ensures Open(q, q[i].marketOrderId) == q[i].qty
  {
    if i == 0 {
      forall j | 0 <= j < |q[1..]|
        ensures q[1..][j].marketOrderId != q[0].marketOrderId
      {
        assert !SameOrder(q[0], q[j + 1]);
      }
      OpenNone(q[1..], q[0].marketOrderId);
    } else {
      assert !SameOrder(q[0], q[i]);
      assert Distinct(q[1..]) by {
        forall a, b | 0 <= a < b < |q[1..]| ensures !SameOrder(q[1..][a], q[1..][b]) { assert !SameOrder(q[a + 1], q[b + 1]); }
      }
      OpenOne(q[1..], i - 1);
    }
  }

  lemma OpenOneSide(b: Book, side: Side, i: nat)
    requires Inv(b) && side != NoSide && i < |b.Queue(side)|
    ensures OpenIn(b, b.Queue(side)[i].marketOrderId) == b.Queue(side)[i].qty
  {
    var q, p := b.Queue(side), b.Queue(Opposite(side));
    OpenOne(q, i);
    forall j | 0 <= j < |p|
      ensures p[j].marketOrderId != q[i].marketOrderId
    {
      assert side == Buy ==> !SameOrder(q[i], p[j]);
      assert side == Sell ==> !SameOrder(p[j], q[i]);
    }
    OpenNone(p, q[i].marketOrderId);
  }

  lemma OpenFresh(b: Book, oid: nat)
    requires Inv(b) && oid >= b.nextMarketOid
    ensures OpenIn(b, oid) == 0
  {
    assert forall i :: 0 <= i < |b.bids| ==> SoundOrder(Buy, b.bids[i], b.nextMarketOid);
    assert forall i :: 0 <= i < |b.asks| ==> SoundOrder(Sell, b.asks[i], b.nextMarketOid);
    OpenNone(b.bids, oid);
    OpenNone(b.asks, oid);
  }

  lemma {:induction false} OpenInsert(q: seq<Order>, o: Order, oid: nat)
    ensures Open(Insert(q, o), oid) == Open(q, oid) + (if o.marketOrderId == oid then o.qty else 0)
  {
    var r := Insert(q, o);
    if q != [] && !Improves(o.side, o.price, q[0].price) {
      OpenInsert(q[1..], o, oid);
      assert r[1..] == Insert(q[1..], o);
    } else {
      assert r[1..] == q;
    }
  }

  lemma {:induction false} OpenRemove(q: seq<Order>, key: (nat, nat), oid: nat)
    requires Find(q, key) < |q|
    ensures Open(q, oid) == Open(Remove(q, key), oid) + (if q[Find(q, key)].marketOrderId == oid then q[Find(q, key)].qty else 0)
  {
    if q[0].Key() != key {
      OpenRemove(q[1..], key, oid);
      assert Remove(q, key)[1..] == Remove(q[1..], key);
    }
  }

  lemma OpenMatchOne(t: Taker, qty: nat, q: seq<Order>, oid: nat)
    requires q != []
    ensures Open(q, oid) == Open(MatchOne(t, qty, q).queue, oid) + (if q[0].marketOrderId == oid then Min(qty, q[0].qty) else 0)
  {
  }

  // ----- the book and the life of an order agree

  /** The life story told by the responses matches what the book holds under this id. */
  predicate Agrees(b: Book, oid: nat, s: Life) {
    if oid >= b.nextMarketOid then s == Unborn
    else s == Live(OpenIn(b, oid)) || (s == Ended && OpenIn(b, oid) == 0)
  }

  /** The same while an order is being matched: the taker itself is live but not in the book. */
  predicate AgreesDuring(b: Book, oid: nat, s: Life, remains: nat) {
    if oid == b.nextMarketOid then s == Live(remains) else Agrees(b, oid, s)
  }

  lemma MatchOneTracks(b: Book, t: Taker, qty: nat, oid: nat, s: Life)
    requires Inv(b) && t.side != NoSide && t.marketOrderId == b.nextMarketOid
    requires CanMatch(t, qty, b.Queue(Opposite(t.side)))
    requires AgreesDuring(b, oid, s, qty)
    ensures var one := MatchOne(t, qty, b.Queue(Opposite(t.side)));
            AgreesDuring(b.WithQueue(Opposite(t.side), one.queue), oid, Track(s, oid, one.responses), one.remains)
  {
    var q := b.Queue(Opposite(t.side));
    var one := MatchOne(t, qty, q);
    assert SoundOrder(Opposite(t.side), q[0], b.nextMarketOid);
    TrackPair(s, oid, one.responses[0], one.responses[1]);
    OpenMatchOne(t, qty, q, oid);
    OpenOneSide(b, Opposite(t.side), 0);
  }

  lemma {:induction false} MatchTracks(b: Book, t: Taker, qty: nat, oid: nat, s: Life)
    requires Inv(b) && t.side != NoSide && t.marketOrderId == b.nextMarketOid
    requires AgreesDuring(b, oid, s, qty)
    ensures var m := Match(t, qty, b.Queue(Opposite(t.side)));
            AgreesDuring(b.WithQueue(Opposite(t.side), m.queue), oid, Track(s, oid, m.responses), m.remains)
    decreases |b.Queue(Opposite(t.side))|, qty
  {
    var opp := Opposite(t.side);
    var q := b.Queue(opp);
    if CanMatch(t, qty, q) {
      var one := MatchOne(t, qty, q);
      var b' := b.WithQueue(opp, one.queue);
      MatchOneTracks(b, t, qty, oid, s);
      MatchOneInv(b, t, qty);
      MatchTracks(b', t, one.remains, oid, Track(s, oid, one.responses));
      TrackAppend(s, oid, one.responses, Match(t, one.remains, one.queue).responses);
    }
  }

  lemma AddOrderTracks(b: Book, r: Request, oid: nat, s: Life)
    requires Inv(b) && r.kind == NewRequest && Admissible(b, r)
    requires Agrees(b, oid, s)
    ensures Agrees(AddOrder(b, r).book, oid, Track(s, oid, AddOrder(b, r).responses))
  {
    var t := TakerOf(r, b.nextMarketOid);
    var m := Match(t, r.qty, b.Queue(Opposite(r.side)));
    var accepted := AcceptedResponse(r, b.nextMarketOid);
    var b' := AfterMatch(b, r);
    TrackSingle(s, oid, accepted);
    TrackAppend(s, oid, [accepted], m.responses);
    MatchTracks(b, t, r.qty, oid, TrackOne(s, oid, accepted));
    MatchInv(b, t, r.qty);
    var s' := Track(TrackOne(s, oid, accepted), oid, m.responses);
    assert AgreesDuring(b', oid, s', m.remains);
    RestTracks(b', b.nextMarketOid, r, m.remains, oid, s');
  }

  /** Resting what is left, or nothing. */
  lemma RestTracks(b: Book, marketOid: nat, r: Request, remains: nat, oid: nat, s: Life)
    requires Inv(b) && b.nextMarketOid == marketOid && r.side != NoSide
    requires AgreesDuring(b, oid, s, remains)
    ensures var own := b.Queue(r.side);
            var o := RestingOrder(r, marketOid, remains, NextPriority(own, r.price));
            var rested := if remains > 0 then b.WithQueue(r.side, Insert(own, o)) else b;
            Agrees(rested.(nextMarketOid := marketOid + 1), oid, s)
  {
    OpenFresh(b, b.nextMarketOid);
    if remains > 0 {
      var own := b.Queue(r.side);
      OpenInsert(own, RestingOrder(r, marketOid, remains, NextPriority(own, r.price)), oid);
    }
  }

  lemma CancelOrderTracks(b: Book, r: Request, oid: nat, s: Life)
    requires Inv(b) && oid != ORDER_ID_INVALID
    requires Agrees(b, oid, s)
    ensures Agrees(CancelOrder(b, r).book, oid, Track(s, oid, CancelOrder(b, r).responses))
  {
    var key := (r.clientId, r.orderId);
    var side := if Find(b.bids, key) < |b.bids| then Buy else Sell;
    var q := b.Queue(side);
    var i := Find(q, key);
    TrackSingle(s, oid, CancelOrder(b, r).responses[0]);
    if i < |q| {
      OpenRemove(q, key, oid);
      OpenOneSide(b, side, i);
      assert SoundOrder(side, q[i], b.nextMarketOid);
    }
  }

  lemma StepTracks(b: Book, r: Request, oid: nat, s: Life)
    requires Inv(b) && Admissible(b, r) && oid != ORDER_ID_INVALID
    requires Agrees(b, oid, s)
    ensures Agrees(Step(b, r).book, oid, Track(s, oid, Step(b, r).responses))
  {
    match r.kind
    case NewRequest => AddOrderTracks(b, r, oid, s);
    case CancelRequest => CancelOrderTracks(b, r, oid, s);
    case InvalidRequest =>
  }

  /** Over any run, the responses under each market order id tell an allowed life story, and it
      ends where the book stands: unborn, live with exactly the resting quantity (0 once all is
      filled), or cancelled and gone. Never broken. */
  lemma {:induction false} OrderLifeCycle(rs: seq<Request>, oid: nat)
    requires RunAdmissible(EMPTY_BOOK, rs) && oid != ORDER_ID_INVALID && oid >= 1
    ensures Agrees(Run(EMPTY_BOOK, rs).book, oid, Track(Unborn, oid, Run(EMPTY_BOOK, rs).responses))
  {
    if rs != [] {
      var init := rs[..|rs| - 1];
      OrderLifeCycle(init, oid);
      RunInv(init);
      var before := Run(EMPTY_BOOK, init);
      var s := Track(Unborn, oid, before.responses);
      StepTracks(before.book, rs[|rs| - 1], oid, s);
      TrackAppend(Unborn, oid, before.responses, Step(before.book, rs[|rs| - 1]).responses);
    }
  }

  // ----- conservation, order by order

  function QtyAccepted(oid: nat, rs: seq<Response>): nat {
    if rs == [] then 0
    else (if rs[0].marketOrderId == oid && rs[0].kind == Accepted then rs[0].qtyRemain else 0) + QtyAccepted(oid, rs[1..])
  }

  function QtyFilled(oid: nat, rs: seq<Response>): nat {
    if rs == [] then 0
    else (if rs[0].marketOrderId == oid && rs[0].kind == Filled then rs[0].qtyExec else 0) + QtyFilled(oid, rs[1..])
  }

  function QtyCancelled(oid: nat, rs: seq<Response>): nat {
    if rs == [] then 0
    else (if rs[0].marketOrderId == oid && rs[0].kind == Cancelled then rs[0].qtyRemain else 0) + QtyCancelled(oid, rs[1..])
  }

  function Held(s: Life): nat { if s.Live? then s.remain else 0 }

  lemma {:induction false} BrokenStays(oid: nat, rs: seq<Response>)
    ensures Track(Broken, oid, rs) == Broken
  {
    if rs != [] { BrokenStays(oid, rs[1..]); }
  }

  /** Any allowed life story balances: what it held and accepted is what it filled, cancelled and still holds. */
  lemma {:induction false} LifeBalances(s: Life, oid: nat, rs: seq<Response>)
    requires Track(s, oid, rs) != Broken
    ensures Held(s) + QtyAccepted(oid, rs) == QtyFilled(oid, rs) + QtyCancelled(oid, rs) + Held(Track(s, oid, rs))
    decreases |rs|
  {
    if rs != [] {
      var s' := TrackOne(s, oid, rs[0]);
      if s' == Broken { BrokenStays(oid, rs[1..]); }
      LifeBalances(s', oid, rs[1..]);
    }
  }

  /** Over any run, each order's accepted quantity is what was filled, plus what was cancelled, plus what rests. */
  lemma QuantityIsConserved(rs: seq<Request>, oid: nat)
    requires RunAdmissible(EMPTY_BOOK, rs) && oid != ORDER_ID_INVALID && oid >= 1
    ensures var out := Run(EMPTY_BOOK, rs);
            QtyAccepted(oid, out.responses)
            == QtyFilled(oid, out.responses) + QtyCancelled(oid, out.responses) + OpenIn(out.book, oid)
  {
    OrderLifeCycle(rs, oid);
    RunInv(rs);
    var out := Run(EMPTY_BOOK, rs);
    LifeBalances(Unborn, oid, out.responses);
    if oid >= out.book.nextMarketOid { OpenFresh(out.book, oid); }
  }

  // ----- conservation, side by side

  function FilledOn(side: Side, rs: seq<Response>): nat {
    if rs == [] then 0
    else (if rs[0].kind == Filled && rs[0].side == side then rs[0].qtyExec else 0) + FilledOn(side, rs[1..])
  }

  function Traded(us: seq<Update>): nat {
    if us == [] then 0 else (if us[0].kind == Trade then us[0].qty else 0) + Traded(us[1..])
  }

  lemma {:induction false} FilledOnAppend(side: Side, rs: seq<Response>, ts: seq<Response>)
    ensures FilledOn(side, rs + ts) == FilledOn(side, rs) + FilledOn(side, ts)
  {
    if rs == [] {
      assert rs + ts == ts;
    } else {
      assert (rs + ts)[1..] == rs[1..] + ts;
      FilledOnAppend(side, rs[1..], ts);
    }
  }

  lemma {:induction false} TradedAppend(us: seq<Update>, vs: seq<Update>)
    ensures Traded(us + vs) == Traded(us) + Traded(vs)
  {
    if us == [] {
      assert us + vs == vs;
    } else {
      assert (us + vs)[1..] == us[1..] + vs;
      TradedAppend(us[1..], vs);
    }
  }

  /** Both sides were filled by the same total, and the trades published add up to it. */
  predicate Balanced(rs: seq<Response>, us: seq<Update>) {
    FilledOn(Buy, rs) == FilledOn(Sell, rs) == Traded(us)
  }

  lemma BalancedAppend(rs: seq<Response>, us: seq<Update>, rs': seq<Response>, us': seq<Update>)
    requires Balanced(rs, us) && Balanced(rs', us')
    ensures Balanced(rs + rs', us + us')
  {
    FilledOnAppend(Buy, rs, rs');
    FilledOnAppend(Sell, rs, rs');
    TradedAppend(us, us');
  }

  lemma MatchOneBalances(t: Taker, qty: nat, q: seq<Order>)
    requires q != [] && t.side != NoSide && q[0].side == Opposite(t.side)
    ensures Balanced(MatchOne(t, qty, q).responses, MatchOne(t, qty, q).updates)
  {
    var one := MatchOne(t, qty, q);
    assert one.responses[1..] == [one.responses[1]] && one.responses[1..][1..] == [];
    assert one.updates[1..] == [one.updates[1]] && one.updates[1..][1..] == [];
    assert FilledOn(Buy, one.responses[1..]) == (if t.side == Buy then 0 else one.responses[1].qtyExec);
    assert FilledOn(Sell, one.responses[1..]) == (if t.side == Sell then 0 else one.responses[1].qtyExec);
    assert Traded(one.updates[1..]) == 0;
  }

  lemma {:induction false} MatchBalances(t: Taker, qty: nat, q: seq<Order>)
    requires t.side != NoSide && forall i :: 0 <= i < |q| ==> q[i].side == Opposite(t.side)
    ensures Balanced(Match(t, qty, q).responses, Match(t, qty, q).updates)
    decreases |q|, qty
  {
    if CanMatch(t, qty, q) {
      var one := MatchOne(t, qty, q);
      var rest := Match(t, one.remains, one.queue);
      MatchOneBalances(t, qty, q);
      MatchBalances(t, one.remains, one.queue);
      BalancedAppend(one.responses, one.updates, rest.responses, rest.updates);
    }
  }

  lemma NoFills(rs: seq<Response>, us: seq<Update>)
    requires forall i :: 0 <= i < |rs| ==> rs[i].kind != Filled
    requires forall i :: 0 <= i < |us| ==> us[i].kind != Trade
    ensures Balanced(rs, us)
    decreases |rs| + |us|
  {
    if rs != [] { NoFills(rs[1..], us); }
    if us != [] { NoFills(rs, us[1..]); }
  }

  lemma SandwichBalances(r: Response, m: MatchResult, us: seq<Update>)
    requires r.kind != Filled && Balanced(m.responses, m.updates)
    requires forall i :: 0 <= i < |us| ==> us[i].kind != Trade
    ensures Balanced([r] + m.responses, m.updates + us)
  {
    NoFills([r], []);
    NoFills([], us);
    BalancedAppend([r], [], m.responses, m.updates);
    BalancedAppend([r] + m.responses, [] + m.updates, [], us);
    assert [] + m.updates == m.updates;
    assert [r] + m.responses + [] == [r] + m.responses;
  }

  lemma AddOrderBalances(b: Book, r: Request)
    requires Inv(b) && r.side != NoSide
    ensures Balanced(AddOrder(b, r).responses, AddOrder(b, r).updates)
  {
    var t := TakerOf(r, b.nextMarketOid);
    var q := b.Queue(Opposite(r.side));
    assert forall i :: 0 <= i < |q| ==> SoundOrder(Opposite(r.side), q[i], b.nextMarketOid);
    MatchBalances(t, r.qty, q);
    var m := Match(t, r.qty, q);
    var out := AddOrder(b, r);
    if m.remains == 0 {
      SandwichBalances(AcceptedResponse(r, b.nextMarketOid), m, []);
      assert m.updates + [] == m.updates;
    } else {
      var own := b.Queue(r.side);
      var o := RestingOrder(r, b.nextMarketOid, m.remains, NextPriority(own, r.price));
      SandwichBalances(AcceptedResponse(r, b.nextMarketOid), m, [AddUpdate(o)]);
    }
  }

  lemma StepBalances(b: Book, r: Request)
    requires Inv(b) && Admissible(b, r)
    ensures Balanced(Step(b, r).responses, Step(b, r).updates)
  {
    if r.kind == NewRequest {
      AddOrderBalances(b, r);
    } else {
      NoFills(Step(b, r).responses, Step(b, r).updates);
    }
  }

  /** Over any run, buyers and sellers were filled by the same total, which is the total traded. */
  lemma {:induction false} FillsBalance(rs: seq<Request>)
    requires RunAdmissible(EMPTY_BOOK, rs)
    ensures Balanced(Run(EMPTY_BOOK, rs).responses, Run(EMPTY_BOOK, rs).updates)
  {
    if rs != [] {
      var init := rs[..|rs| - 1];
      FillsBalance(init);
      RunInv(init);
      var before := Run(EMPTY_BOOK, init);
      StepBalances(before.book, rs[|rs| - 1]);
      var last := Step(before.book, rs[|rs| - 1]);
      BalancedAppend(before.responses, before.updates, last.responses, last.updates);
    }
  }
}
