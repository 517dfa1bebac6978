/** How much matching executes, and in which order it serves the resting orders. */
module MatchProperties {
  import opened Exchange
  import opened PriceTimeBook
  import opened BookInvariant

  predicate Positive(q: seq<Order>) { forall i :: 0 <= i < |q| ==> q[i].qty > 0 }

  function Total(q: seq<Order>): nat {
    if q == [] then 0 else q[0].qty + Total(q[1..])
  }

  /** Everything resting within a limit, wherever it stands in the queue: at or below it for a buyer,
      at or above it for a seller. */
  function Liquidity(side: Side, limit: int, q: seq<Order>): nat {
    if q == [] then 0
    else
      (if (if side == Buy then q[0].price <= limit else q[0].price >= limit) then q[0].qty else 0) +
      Liquidity(side, limit, q[1..])
  }

  /** In a sorted queue, nothing behind an unacceptable price is acceptable. */
  lemma {:induction false} NothingBehind(t: Taker, q: seq<Order>, k: nat)
    requires t.side != NoSide && InOrder(Opposite(t.side), q)
    requires q != [] && !Crosses(t.side, t.price, q[0].price)
    requires k <= |q|
    ensures Liquidity(t.side, t.price, q[k..]) == 0
    decreases |q| - k
  {
    if k < |q| {
      NothingBehind(t, q, k + 1);
      assert q[k..][1..] == q[k + 1..];
      if k > 0 { assert Ahead(Opposite(t.side), q[0], q[k]); }
    }
  }

  /** The order stays sorted, positive and of one side through one execution. */
  lemma MatchOneKeepsOrder(t: Taker, qty: nat, q: seq<Order>)
    requires CanMatch(t, qty, q) && t.side != NoSide
    requires InOrder(Opposite(t.side), q) && Positive(q)
    ensures InOrder(Opposite(t.side), MatchOne(t, qty, q).queue) && Positive(MatchOne(t, qty, q).queue)
  {
  }

  /** Greedy exactness: matching executes all the acceptable liquidity, or all of the order. */
  lemma {:induction false} MatchIsGreedy(t: Taker, qty: nat, q: seq<Order>)
    requires t.side != NoSide && InOrder(Opposite(t.side), q) && Positive(q)
    ensures var m := Match(t, qty, q);
            m.remains == qty - Min(qty, Liquidity(t.side, t.price, q)) && Total(m.queue) == Total(q) - Min(qty, Liquidity(t.side, t.price, q))
    decreases |q|, qty
  {
    if CanMatch(t, qty, q) {
      var one := MatchOne(t, qty, q);
      MatchOneKeepsOrder(t, qty, q);
      MatchIsGreedy(t, one.remains, one.queue);
      if one.queue != q[1..] {
        assert one.queue[1..] == q[1..];
      }
    } else if q != [] && qty > 0 {
      NothingBehind(t, q, 0);
      assert q[0..] == q;
    }
  }

  /** The k-th maker response of a match. */
  function MakerResponse(m: MatchResult, k: nat): Response
    requires 2 * k + 1 < |m.responses|
  {
    m.responses[2 * k + 1]
  }

  /** The resting orders are served one after the other from the head: the k-th trade is with
      the k-th order at its own price, and each order served before the last is used up. */
  ghost predicate ServesFromHead(q: seq<Order>, m: MatchResult, n: nat) {
    && n <= |q|
    && |m.responses| == 2 * n
    && (forall k :: 0 <= k < n ==>
          && MakerResponse(m, k).marketOrderId == q[k].marketOrderId
          && MakerResponse(m, k).price == q[k].price
          && 0 < MakerResponse(m, k).qtyExec
          && MakerResponse(m, k).qtyExec + MakerResponse(m, k).qtyRemain == q[k].qty
          && (k < n - 1 ==> MakerResponse(m, k).qtyRemain == 0))
  }

  /** Orders not reached are untouched; an order only partly filled keeps its place, its
      id and its priority. */
  ghost predicate LeavesTheRest(q: seq<Order>, m: MatchResult, n: nat) {
    && n <= |q|
    && |m.responses| == 2 * n
    && m.queue == (if n > 0 && MakerResponse(m, n - 1).qtyRemain > 0
                   then [q[n - 1].(qty := MakerResponse(m, n - 1).qtyRemain)] + q[n..]
                   else q[n..])
  }

  function Trades(m: MatchResult): nat { |m.responses| / 2 }

  /** A match that uses up the head and then serves the rest of the queue from its head. */
  function Then(one: MatchResult, rest: MatchResult): MatchResult {
    MatchResult(rest.remains, rest.queue, one.responses + rest.responses, one.updates + rest.updates)
  }

  lemma ServesNext(t: Taker, qty: nat, q: seq<Order>, rest: MatchResult, n: nat)
    requires CanMatch(t, qty, q) && q[0].qty > 0
    requires MatchOne(t, qty, q).queue == q[1..]
    requires ServesFromHead(q[1..], rest, n)
    ensures ServesFromHead(q, Then(MatchOne(t, qty, q), rest), n + 1)
  {
  }

  lemma LeavesNext(t: Taker, qty: nat, q: seq<Order>, rest: MatchResult, n: nat)
    requires CanMatch(t, qty, q) && q[0].qty > 0
    requires MatchOne(t, qty, q).queue == q[1..]
    requires LeavesTheRest(q[1..], rest, n)
    ensures LeavesTheRest(q, Then(MatchOne(t, qty, q), rest), n + 1)
  {
  }

  /** An order that uses up the head goes on with the rest of the queue. */
  lemma ServesWhole(t: Taker, qty: nat, q: seq<Order>)
    requires CanMatch(t, qty, q) && 0 < q[0].qty <= qty
    requires var rest := Match(t, qty - q[0].qty, q[1..]);
             ServesFromHead(q[1..], rest, Trades(rest)) && LeavesTheRest(q[1..], rest, Trades(rest))
    ensures var m := Match(t, qty, q); ServesFromHead(q, m, Trades(m)) && LeavesTheRest(q, m, Trades(m))
  {
    var one := MatchOne(t, qty, q);
    var rest := Match(t, qty - q[0].qty, q[1..]);
    assert one.queue == q[1..] && one.remains == qty - q[0].qty;
    assert Match(t, qty, q) == Then(one, rest);
    assert Trades(Then(one, rest)) == Trades(rest) + 1;
    ServesNext(t, qty, q, rest, Trades(rest));
    LeavesNext(t, qty, q, rest, Trades(rest));
  }

  /** An order smaller than the head trades once and is done. */
  lemma ServesPart(t: Taker, qty: nat, q: seq<Order>)
    requires CanMatch(t, qty, q) && qty < q[0].qty
    ensures var m := Match(t, qty, q); Trades(m) == 1 && ServesFromHead(q, m, 1) && LeavesTheRest(q, m, 1)
  {
  }

  lemma {:induction false} MatchServesFromHead(t: Taker, qty: nat, q: seq<Order>)
    requires Positive(q)
    ensures ServesFromHead(q, Match(t, qty, q), Trades(Match(t, qty, q)))
    ensures LeavesTheRest(q, Match(t, qty, q), Trades(Match(t, qty, q)))
    decreases |q|, qty
  {
    if CanMatch(t, qty, q) {
      if q[0].qty <= qty {
        MatchServesFromHead(t, qty - q[0].qty, q[1..]);
        ServesWhole(t, qty, q);
      } else {
        ServesPart(t, qty, q);
      }
    }
  }

  /** The quantity left and the queue as they are just before the k-th trade of a match. */
  function Moment(t: Taker, qty: nat, q: seq<Order>, k: nat): (nat, seq<Order>)
  {
    if k == 0 || !CanMatch(t, qty, q) then (qty, q)
    else
      var one := MatchOne(t, qty, q);
      Moment(t, one.remains, one.queue, k - 1)
  }

  /** The k-th trade of a match of b is fair: when it happens the book is sound and the incoming order
      may trade with the head of the queue, which is the order served, at its own price; and every other
      order on that side has a worse price, or the same price, a later id and a later priority. */
  ghost predicate FairTrade(b: Book, t: Taker, qty: nat, k: nat)
    requires 2 * k + 1 < |Match(t, qty, b.Queue(Opposite(t.side))).responses|
  {
    var side := Opposite(t.side);
    var m := Match(t, qty, b.Queue(side));
    var (left, q) := Moment(t, qty, b.Queue(side), k);
    && Inv(b.WithQueue(side, q))
    && CanMatch(t, left, q)
    && MakerResponse(m, k).marketOrderId == q[0].marketOrderId
    && MakerResponse(m, k).price == q[0].price
    && MakerResponse(m, k).qtyExec == Min(left, q[0].qty)
    && (forall j :: 0 < j < |q| ==> Ahead(side, q[0], q[j]))
  }

  lemma FirstTradeIsFair(b: Book, t: Taker, qty: nat)
    requires Inv(b) && t.side != NoSide && Match(t, qty, b.Queue(Opposite(t.side))).responses != []
    ensures |Match(t, qty, b.Queue(Opposite(t.side))).responses| > 1 && FairTrade(b, t, qty, 0)
  {
    var side := Opposite(t.side);
    var q := b.Queue(side);
    var one := MatchOne(t, qty, q);
    assert MakerResponse(Match(t, qty, q), 0) == one.responses[1];
  }

  lemma LaterTrade(t: Taker, qty: nat, q: seq<Order>, k: nat)
    requires 0 < k && 2 * k + 1 < |Match(t, qty, q).responses|
    ensures CanMatch(t, qty, q)
    ensures var one := MatchOne(t, qty, q);
            var rest := Match(t, one.remains, one.queue);
            && 2 * (k - 1) + 1 < |rest.responses| && MakerResponse(Match(t, qty, q), k) == MakerResponse(rest, k - 1)
            && Moment(t, qty, q, k) == Moment(t, one.remains, one.queue, k - 1)
  {
    var one := MatchOne(t, qty, q);
    assert Match(t, qty, q).responses == one.responses + Match(t, one.remains, one.queue).responses;
  }

  /** Price-time fairness: every trade of a match against a sound book is fair at its moment. */
  lemma {:induction false} MatchIsFair(b: Book, t: Taker, qty: nat, k: nat)
    requires Inv(b) && t.side != NoSide
    requires 2 * k + 1 < |Match(t, qty, b.Queue(Opposite(t.side))).responses|
    ensures FairTrade(b, t, qty, k)
    decreases k
  {
    if k == 0 {
      FirstTradeIsFair(b, t, qty);
    } else {
      var side := Opposite(t.side);
      LaterTrade(t, qty, b.Queue(side), k);
      MatchOneInv(b, t, qty);
      var one := MatchOne(t, qty, b.Queue(side));
      var b' := b.WithQueue(side, one.queue);
      MatchIsFair(b', t, one.remains, k - 1);
      SameButQueue(b, side, one.queue, Moment(t, qty, b.Queue(side), k).1);
    }
  }

  lemma SameButQueue(b: Book, side: Side, q: seq<Order>, q': seq<Order>)
    requires side != NoSide
    ensures b.WithQueue(side, q).WithQueue(side, q') == b.WithQueue(side, q') && b.WithQueue(side, q).Queue(side) == q
  {
  }

  /** Fairness and greediness at every point of every run from the empty book. */
  lemma RunIsFair(rs: seq<Request>, r: Request)
    requires RunAdmissible(EMPTY_BOOK, rs) && r.kind == NewRequest && r.side != NoSide
    ensures var b := Run(EMPTY_BOOK, rs).book;
            var q := b.Queue(Opposite(r.side));
            var t := TakerOf(r, b.nextMarketOid);
            var m := Match(t, r.qty, q);
            && ServesFromHead(q, m, Trades(m))
            && LeavesTheRest(q, m, Trades(m))
            && (forall k: nat :: 2 * k + 1 < |m.responses| ==> FairTrade(b, t, r.qty, k))
            && m.remains == r.qty - Min(r.qty, Liquidity(r.side, r.price, q))
  {
    RunInv(rs);
    var b := Run(EMPTY_BOOK, rs).book;
    var q := b.Queue(Opposite(r.side));
    var t := TakerOf(r, b.nextMarketOid);
    PositiveQueue(Opposite(r.side), q, b.nextMarketOid);
    MatchServesFromHead(t, r.qty, q);
    MatchIsGreedy(t, r.qty, q);
    forall k: nat | 2 * k + 1 < |Match(t, r.qty, q).responses|
      ensures FairTrade(b, t, r.qty, k)
    {
      MatchIsFair(b, t, r.qty, k);
    }
  }

  lemma PositiveQueue(side: Side, q: seq<Order>, next: nat)
    requires SoundQueue(side, q, next)
    ensures Positive(q)
  {
  }
}
