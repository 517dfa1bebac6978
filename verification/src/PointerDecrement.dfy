/** order_book.cpp line 100 subtracts the fill from the pointer to the remaining quantity and
    not from the quantity itself. The rest of the project models the intended statement. This
    module models what the statement as written does to the book and to the value findMatch
    returns, and says exactly when that differs. (What line 107 then reads through the moved
    pointer is undefined, so the quantities reported are not modelled here.) */
module PointerDecrement {
  import opened Exchange
  import opened PriceTimeBook
  import opened BookInvariant
  import opened MatchProperties

  /** The loop of findMatch when the remaining quantity never changes. */
  function MatchAsWritten(t: Taker, qty: nat, q: seq<Order>): (nat, seq<Order>)
    decreases |q|, if q == [] then 0 else q[0].qty
  {
    if !CanMatch(t, qty, q) then (qty, q)
    else MatchAsWritten(t, qty, MatchOne(t, qty, q).queue)
  }

  /** As written, the whole quantity is returned as unfilled, and any positive order sweeps
      away all the acceptable liquidity, however small the order. */
  lemma {:induction false} AsWrittenSweeps(t: Taker, qty: nat, q: seq<Order>)
    requires t.side != NoSide && InOrder(Opposite(t.side), q) && Positive(q)
    ensures MatchAsWritten(t, qty, q).0 == qty
    ensures Total(MatchAsWritten(t, qty, q).1) + (if qty > 0 then Liquidity(t.side, t.price, q) else 0) == Total(q)
    decreases |q|, if q == [] then 0 else q[0].qty
  {
    if CanMatch(t, qty, q) {
      var one := MatchOne(t, qty, q);
      MatchOneKeepsOrder(t, qty, q);
      AsWrittenSweeps(t, qty, one.queue);
      if one.queue != q[1..] {
        assert one.queue[1..] == q[1..];
      }
    } else if q != [] && qty > 0 {
      NothingBehind(t, q, 0);
      assert q[0..] == q;
    }
  }

  /** What is returned as unfilled is right exactly when there was nothing to match. */
  lemma ReturnsRightRemainder(t: Taker, qty: nat, q: seq<Order>)
    requires t.side != NoSide && InOrder(Opposite(t.side), q) && Positive(q)
    ensures MatchAsWritten(t, qty, q).0 == Match(t, qty, q).remains <==> !CanMatch(t, qty, q)
  {
    AsWrittenSweeps(t, qty, q);
    MatchIsGreedy(t, qty, q);
  }

  /** With enough quantity for all it may trade with, matching is the same however the quantity falls. */
  lemma {:induction false} EnoughSweepsAlike(t: Taker, qty: nat, left: nat, q: seq<Order>)
    requires Positive(q) && qty > 0 && Liquidity(t.side, t.price, q) <= qty && Liquidity(t.side, t.price, q) <= left
    ensures MatchAsWritten(t, qty, q).1 == Match(t, left, q).queue
  {
    if q != [] && Crosses(t.side, t.price, q[0].price) {
      assert MatchOne(t, qty, q).queue == q[1..] && MatchOne(t, left, q).queue == q[1..];
      EnoughSweepsAlike(t, qty, left - q[0].qty, q[1..]);
    }
  }

  /** The resting queue is left right exactly when the order is empty or is at least as large as
      everything it may trade with. */
  lemma TakesRightQueue(t: Taker, qty: nat, q: seq<Order>)
    requires t.side != NoSide && InOrder(Opposite(t.side), q) && Positive(q)
    ensures MatchAsWritten(t, qty, q).1 == Match(t, qty, q).queue <==> qty == 0 || Liquidity(t.side, t.price, q) <= qty
  {
    if qty > 0 && Liquidity(t.side, t.price, q) <= qty {
      EnoughSweepsAlike(t, qty, qty, q);
    } else {
      AsWrittenSweeps(t, qty, q);
      MatchIsGreedy(t, qty, q);
    }
  }

  /** A single resting order is taken whole by any acceptable order, in bites of its size. */
  lemma {:induction false} AsWrittenTakesWhole(t: Taker, qty: nat, o: Order)
    requires qty > 0 && o.qty > 0 && Crosses(t.side, t.price, o.price)
    ensures MatchAsWritten(t, qty, [o]) == (qty, [])
    decreases o.qty
  {
    var rest := MatchOne(t, qty, [o]).queue;
    if qty < o.qty {
      var o' := o.(qty := o.qty - qty);
      assert rest == [o'];
      AsWrittenTakesWhole(t, qty, o');
    } else {
      assert rest == [];
    }
  }

  /** Buying 1 against a resting 5: as written, all 5 go and the buyer still has 1 to buy. */
  lemma SweepExample()
    ensures var ask := Order(0, 7, 1, 1, Sell, 100, 5, 1);
            var t := Taker(8, 1, 0, Buy, 100, 2);
            MatchAsWritten(t, 1, [ask]) == (1, []) && Match(t, 1, [ask]).queue == [ask.(qty := 4)]
  {
    var ask := Order(0, 7, 1, 1, Sell, 100, 5, 1);
    var t := Taker(8, 1, 0, Buy, 100, 2);
    AsWrittenTakesWhole(t, 1, ask);
    assert MatchOne(t, 1, [ask]).queue == [ask.(qty := 4)];
    assert Match(t, 0, [ask.(qty := 4)]).queue == [ask.(qty := 4)];
  }
}
