/** The reference queue of a side, cut at one price level. */
module QueueViews {
  import opened Exchange
  import opened PriceTimeBook
  import opened PriceLevels
  import opened RestingOrders
  import opened QueueChanges

  // ----- Insert, Remove and NextPriority on a queue cut in two

  lemma {:induction false} InsertBetween(a: seq<Order>, o: Order, b: seq<Order>)
    requires forall i :: 0 <= i < |a| ==> !Improves(o.side, o.price, a[i].price)
    requires b != [] ==> Improves(o.side, o.price, b[0].price)
    ensures Insert(a + b, o) == a + [o] + b
  {
    if a == [] {
      assert a + b == b;
    } else {
      assert (a + b)[1..] == a[1..] + b;
      InsertBetween(a[1..], o, b);
      assert a + [o] + b == [a[0]] + (a[1..] + [o] + b);
    }
  }

  lemma {:induction false} RemoveBetween(a: seq<Order>, o: Order, b: seq<Order>)
    requires KeyFree(a, o.Key())
    ensures Remove(a + [o] + b, o.Key()) == a + b
    ensures Find(a + [o] + b, o.Key()) == |a|
  {
    if a == [] {
      assert (a + [o] + b)[1..] == b;
    } else {
      assert (a + [o] + b)[1..] == a[1..] + [o] + b;
      RemoveBetween(a[1..], o, b);
      assert a + b == [a[0]] + (a[1..] + b);
    }
  }

  lemma {:induction false} NextPriorityBefore(a: seq<Order>, b: seq<Order>, price: int)
    requires forall i :: 0 <= i < |b| ==> b[i].price != price
    ensures NextPriority(a + b, price) == NextPriority(a, price)
  {
    if b == [] {
      assert a + b == a;
    } else {
      assert (a + b)[..|a + b| - 1] == a + b[..|b| - 1];
      NextPriorityBefore(a, b[..|b| - 1], price);
    }
  }

  // ----- a side cut at one level

  predicate OnSideAll(v: View, lvls: set<int>, side: Side, r: seq<int>) {
    forall j :: 0 <= j < |r| ==> OnSide(v, lvls, side, r[j])
  }

  /** The orders of these levels, level after level. */
  function Orders(s: Store, ords: set<int>, lvls: set<int>, side: Side, r: seq<int>): (q: seq<Order>)
    requires Queues(s, ords, lvls) && OnSideAll(s.levels, lvls, side, r)
    ensures |q| == |Flat(s.queues, r)|
  {
    FlatBlocks(s, ords, lvls, side, r);
    Items(s.nodes, Flat(s.queues, r))
  }

  function QueueOf(s: Store, ords: set<int>, l: int): (q: seq<Order>)
    requires QueueAt(s, ords, l)
    ensures |q| == |s.queues[l]|
  {
    Items(s.nodes, s.queues[l])
  }

  /** The resting orders of one side, in the order they are served. */
  function Rest(s: Store, ords: set<int>, lvls: set<int>, side: Side): seq<Order>
    requires Queues(s, ords, lvls) && RingMembers(s.levels, lvls, side)
  {
    Orders(s, ords, lvls, side, s.levels.Ring(side))
  }

  lemma OrdersAppend(s: Store, ords: set<int>, lvls: set<int>, side: Side, a: seq<int>, b: seq<int>)
    requires Queues(s, ords, lvls) && OnSideAll(s.levels, lvls, side, a) && OnSideAll(s.levels, lvls, side, b)
    ensures OnSideAll(s.levels, lvls, side, a + b)
    ensures Orders(s, ords, lvls, side, a + b) == Orders(s, ords, lvls, side, a) + Orders(s, ords, lvls, side, b)
  {
    FlatAppend(s.queues, a, b);
    FlatBlocks(s, ords, lvls, side, a);
    FlatBlocks(s, ords, lvls, side, b);
    ItemsAppend(s.nodes, Flat(s.queues, a), Flat(s.queues, b));
  }

  lemma OrdersOne(s: Store, ords: set<int>, lvls: set<int>, side: Side, l: int)
    requires Queues(s, ords, lvls) && OnSide(s.levels, lvls, side, l)
    ensures QueueAt(s, ords, l) && OnSideAll(s.levels, lvls, side, [l])
    ensures Orders(s, ords, lvls, side, [l]) == QueueOf(s, ords, l)
  {
    assert QueueAt(s, ords, l);
    assert [l][1..] == [];
    assert Flat(s.queues, [l]) == s.queues[l] + [];
    assert s.queues[l] + [] == s.queues[l];
  }

  lemma OrdersCut(s: Store, ords: set<int>, lvls: set<int>, side: Side, r: seq<int>, k: nat)
    requires Queues(s, ords, lvls) && OnSideAll(s.levels, lvls, side, r) && k < |r|
    ensures OnSideAll(s.levels, lvls, side, r[..k]) && OnSideAll(s.levels, lvls, side, r[k + 1..]) && QueueAt(s, ords, r[k])
    ensures Orders(s, ords, lvls, side, r) ==
            Orders(s, ords, lvls, side, r[..k]) + QueueOf(s, ords, r[k]) + Orders(s, ords, lvls, side, r[k + 1..])
  {
    assert OnSide(s.levels, lvls, side, r[k]);
    assert r == r[..k] + [r[k]] + r[k + 1..];
    OrdersOne(s, ords, lvls, side, r[k]);
    OrdersAppend(s, ords, lvls, side, r[..k], [r[k]]);
    OrdersAppend(s, ords, lvls, side, r[..k] + [r[k]], r[k + 1..]);
  }

  /** Each order of these levels has the price of one of them. */
  lemma OrdersPrice(s: Store, ords: set<int>, lvls: set<int>, side: Side, r: seq<int>, i: nat) returns (k: nat)
    requires Queues(s, ords, lvls) && OnSideAll(s.levels, lvls, side, r) && i < |Orders(s, ords, lvls, side, r)|
    ensures k < |r| && OnSide(s.levels, lvls, side, r[k])
    ensures Orders(s, ords, lvls, side, r)[i].price == s.levels.Price(r[k]) && Orders(s, ords, lvls, side, r)[i].side == side
    ensures var p := Flat(s.queues, r)[i]; s.Node(p) && p in ords && Orders(s, ords, lvls, side, r)[i] == s.Item(p)
    ensures QueueAt(s, ords, r[k]) && Flat(s.queues, r)[i] in s.queues[r[k]]
  {
    k := FlatBelongs(s, ords, lvls, side, r, i);
    assert QueueAt(s, ords, r[k]);
  }

  lemma QueuePrice(s: Store, ords: set<int>, l: int, i: nat)
    requires QueueAt(s, ords, l) && i < |QueueOf(s, ords, l)|
    ensures QueueOf(s, ords, l)[i].price == s.levels.Price(l) && QueueOf(s, ords, l)[i].side == s.levels.SideOf(l)
    ensures s.Node(s.queues[l][i]) && s.queues[l][i] in ords && QueueOf(s, ords, l)[i] == s.Item(s.queues[l][i])
  {
    assert Belongs(s, ords, l, s.queues[l][i]);
  }

  /** Orders of the levels before place k are at better prices than orders from place k on. */
  lemma BetterBefore(s: Store, ords: set<int>, lvls: set<int>, side: Side, k: nat, price: int)
    requires Queues(s, ords, lvls) && RingMembers(s.levels, lvls, side)
    requires k <= |s.levels.Ring(side)| && forall i :: 0 <= i < |s.levels.Ring(side)| ==> s.levels.Block(s.levels.Ring(side)[i])
    requires forall i :: 0 <= i < k ==> Improves(side, s.levels.Price(s.levels.Ring(side)[i]), price)
    ensures OnSideAll(s.levels, lvls, side, s.levels.Ring(side)[..k])
    ensures var q := Orders(s, ords, lvls, side, s.levels.Ring(side)[..k]);
            forall i :: 0 <= i < |q| ==> Improves(side, q[i].price, price)
  {
    var r := s.levels.Ring(side);
    assert OnSideAll(s.levels, lvls, side, r[..k]) by {
      forall j | 0 <= j < |r[..k]| ensures OnSide(s.levels, lvls, side, r[..k][j]) { assert OnSide(s.levels, lvls, side, r[j]); }
    }
    var q := Orders(s, ords, lvls, side, r[..k]);
    forall i | 0 <= i < |q|
      ensures Improves(side, q[i].price, price)
    {
      var j := OrdersPrice(s, ords, lvls, side, r[..k], i);
      assert r[..k][j] == r[j];
    }
  }

  lemma WorseFrom(s: Store, ords: set<int>, lvls: set<int>, side: Side, k: nat, price: int)
    requires Queues(s, ords, lvls) && RingMembers(s.levels, lvls, side)
    requires k <= |s.levels.Ring(side)| && forall i :: 0 <= i < |s.levels.Ring(side)| ==> s.levels.Block(s.levels.Ring(side)[i])
    requires forall i :: k <= i < |s.levels.Ring(side)| ==> Improves(side, price, s.levels.Price(s.levels.Ring(side)[i]))
    ensures OnSideAll(s.levels, lvls, side, s.levels.Ring(side)[k..])
    ensures var q := Orders(s, ords, lvls, side, s.levels.Ring(side)[k..]);
            forall i :: 0 <= i < |q| ==> Improves(side, price, q[i].price)
  {
    var r := s.levels.Ring(side);
    assert OnSideAll(s.levels, lvls, side, r[k..]) by {
      forall j | 0 <= j < |r[k..]| ensures OnSide(s.levels, lvls, side, r[k..][j]) { assert OnSide(s.levels, lvls, side, r[k + j]); }
    }
    var q := Orders(s, ords, lvls, side, r[k..]);
    forall i | 0 <= i < |q|
      ensures Improves(side, price, q[i].price)
    {
      var j := OrdersPrice(s, ords, lvls, side, r[k..], i);
      assert r[k..][j] == r[k + j];
    }
  }

  /** The same levels with the same queues hold the same orders. */
  lemma OrdersFrame(s: Store, s': Store, ords: set<int>, ords': set<int>, lvls: set<int>, lvls': set<int>, side: Side, r: seq<int>)
    requires Queues(s, ords, lvls) && OnSideAll(s.levels, lvls, side, r)
    requires Queues(s', ords', lvls') && OnSideAll(s'.levels, lvls', side, r)
    requires |s'.nodes| == |s.nodes| && forall x :: 0 <= x < |s.nodes| ==> s'.nodes[x].item == s.nodes[x].item
    requires forall i :: 0 <= i < |r| && r[i] in s.queues ==> r[i] in s'.queues && s'.queues[r[i]] == s.queues[r[i]]
    ensures Orders(s', ords', lvls', side, r) == Orders(s, ords, lvls, side, r)
  {
    forall i | 0 <= i < |r|
      ensures r[i] in s.queues
    {
      assert OnSide(s.levels, lvls, side, r[i]);
      assert QueueAt(s, ords, r[i]);
    }
    FlatFrame(s.queues, s'.queues, r);
    FlatBlocks(s, ords, lvls, side, r);
    ItemsSame(s.nodes, s'.nodes, Flat(s.queues, r));
  }
}
