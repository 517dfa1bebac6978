/** Resting and removing an order in the linked book: the pointer changes of addOrderToBook and
    removeOrderFromBook keep the invariant and do Insert and Remove on the reference queue. */
module OrderMoves {
  import opened Exchange
  import opened Pools
  import opened Ring
  import opened PriceTimeBook
  import opened PriceLevels
  import opened RestingOrders
  import opened QueueChanges
  import opened QueueViews

  /** Order p is filled in and not yet in the book. */
  predicate Unplaced(s: Store, ords: set<int>, p: int) {
    s.Node(p) && p !in ords
  }

  /** And its key is free. */
  predicate NewOrder(s: Store, ords: set<int>, p: int) {
    Unplaced(s, ords, p) && s.Item(p).Key() !in s.index
  }

  // ----- joining a level

  /** s' is s with p linked in behind the last order of level l. */
  predicate Joined(s: Store, s': Store, l: int, p: int) {
    && s.Node(p) && s.levels.Block(l) && l in s.queues
    && s.Node(s.levels.blocks[l].item.order0) && s.Node(s.nodes[s.levels.blocks[l].item.order0].prev)
    && s' == s.(nodes := SpliceBefore(s.nodes, p, s.levels.blocks[l].item.order0),
                queues := s.queues[l := s.queues[l] + [p]],
                index := s.index[s.Item(p).Key() := p])
  }

  lemma JoinQueue(s: Store, s': Store, ords: set<int>, lvls: set<int>, l: int, p: int)
    requires SlotsExact(s.levels, lvls) && l in lvls && QueueAt(s, ords, l)
    requires Unplaced(s, ords, p) && Joined(s, s', l, p)
    requires s.Item(p).price == s.levels.Price(l) && s.Item(p).side == s.levels.SideOf(l)
    ensures OnlyAround(s, s', l, p)
    ensures QueueAt(s', ords + {p}, l)
  {
    var q := s.queues[l];
    forall i | 0 <= i < |q|
      ensures q[i] in ords && q[i] != p
    {
      QueueOwner(s, ords, lvls, l, q[i]);
    }
    assert LinkedAt(s.nodes, q, 0);
    RingSplice(s.nodes, q, 0, p);
    assert With(q, |q|, p) == q + [p];
    forall i | 0 <= i < |q + [p]|
      ensures Belongs(s', ords + {p}, l, (q + [p])[i])
    {
      if i < |q| { assert Belongs(s, ords, l, q[i]); }
    }
  }

  lemma JoinQueues(s: Store, s': Store, ords: set<int>, lvls: set<int>, l: int, p: int)
    requires SlotsExact(s.levels, lvls) && Queues(s, ords, lvls) && l in lvls
    requires Unplaced(s, ords, p) && Joined(s, s', l, p)
    requires s.Item(p).price == s.levels.Price(l) && s.Item(p).side == s.levels.SideOf(l)
    ensures Queues(s', ords + {p}, lvls)
  {
    assert QueueAt(s, ords, l);
    JoinQueue(s, s', ords, lvls, l, p);
    forall m | m in lvls && m != l
      ensures m in s.queues && m in s'.queues && s'.queues[m] == s.queues[m]
    {
      assert QueueAt(s, ords, m);
    }
    QueuesAfter(s, s', ords, ords + {p}, lvls, lvls, l, p);
  }

  lemma JoinLocated(s: Store, s': Store, ords: set<int>, lvls: set<int>, l: int, p: int)
    requires SlotsExact(s.levels, lvls) && Located(s, ords, lvls) && l in lvls
    requires OnlyAround(s, s', l, p) && Unplaced(s, ords, p) && Joined(s, s', l, p)
    requires s.Item(p).price == s.levels.Price(l)
    ensures Located(s', ords + {p}, lvls)
  {
    forall x | x in ords && s.Node(x) && s.LevelOf(x) == l
      ensures x in s'.queues[l]
    {
      assert LocatedAt(s, lvls, x);
    }
    LocatedAfter(s, s', ords, ords + {p}, lvls, lvls, l, p);
  }

  /** Joining a level keeps rings, price array and queues; the client map too, if the key was free. */
  lemma JoinValid(s: Store, s': Store, ords: set<int>, lvls: set<int>, l: int, p: int)
    requires StoreValid(s, ords, lvls) && l in lvls
    requires Unplaced(s, ords, p) && Joined(s, s', l, p)
    requires s.Item(p).price == s.levels.Price(l) && s.Item(p).side == s.levels.SideOf(l)
    ensures StoreSound(s', ords + {p}, lvls)
    ensures NewOrder(s, ords, p) ==> StoreValid(s', ords + {p}, lvls)
  {
    assert QueueAt(s, ords, l);
    JoinQueue(s, s', ords, lvls, l, p);
    JoinQueues(s, s', ords, lvls, l, p);
    JoinLocated(s, s', ords, lvls, l, p);
    if NewOrder(s, ords, p) {
      IndexedAfterAdd(s, s', ords, p);
    }
  }

  /** The queue of a side around one of its levels: better prices, the level's orders, worse prices. */
  lemma CutAtLevel(s: Store, ords: set<int>, lvls: set<int>, side: Side, k: nat)
    requires Queues(s, ords, lvls) && RingMembers(s.levels, lvls, side) && SideSorted(s.levels, side)
    requires side != NoSide && k < |s.levels.Ring(side)|
    ensures var r := s.levels.Ring(side);
            && OnSideAll(s.levels, lvls, side, r[..k]) && OnSideAll(s.levels, lvls, side, r[k + 1..]) && QueueAt(s, ords, r[k])
            && Rest(s, ords, lvls, side) ==
               Orders(s, ords, lvls, side, r[..k]) + QueueOf(s, ords, r[k]) + Orders(s, ords, lvls, side, r[k + 1..])
    ensures var r := s.levels.Ring(side);
            var a := Orders(s, ords, lvls, side, r[..k]);
            forall i :: 0 <= i < |a| ==> Improves(side, a[i].price, s.levels.Price(r[k]))
    ensures var r := s.levels.Ring(side);
            var b := Orders(s, ords, lvls, side, r[k + 1..]);
            forall i :: 0 <= i < |b| ==> Improves(side, s.levels.Price(r[k]), b[i].price)
  {
    var r := s.levels.Ring(side);
    OrdersCut(s, ords, lvls, side, r, k);
    forall i | 0 <= i < |r|
      ensures i < k ==> Improves(side, s.levels.Price(r[i]), s.levels.Price(r[k]))
      ensures k < i ==> Improves(side, s.levels.Price(r[k]), s.levels.Price(r[i]))
    {
      if i < k { assert SortedAt(s.levels, side, i, k); }
      if k < i { assert SortedAt(s.levels, side, k, i); }
    }
    BetterBefore(s, ords, lvls, side, k, s.levels.Price(r[k]));
    WorseFrom(s, ords, lvls, side, k + 1, s.levels.Price(r[k]));
  }

  /** Around an unchanged level the cut pieces are the same before and after. */
  lemma PiecesKept(s: Store, s': Store, ords: set<int>, ords': set<int>, lvls: set<int>, lvls': set<int>, side: Side, r: seq<int>, l: int)
    requires Queues(s, ords, lvls) && OnSideAll(s.levels, lvls, side, r)
    requires Queues(s', ords', lvls') && OnSideAll(s'.levels, lvls', side, r)
    requires |s'.nodes| == |s.nodes| && forall x :: 0 <= x < |s.nodes| ==> s'.nodes[x].item == s.nodes[x].item
    requires forall m :: m in s.queues && m != l ==> m in s'.queues && s'.queues[m] == s.queues[m]
    requires l !in r
    ensures Orders(s', ords', lvls', side, r) == Orders(s, ords, lvls, side, r)
  {
    OrdersFrame(s, s', ords, ords', lvls, lvls', side, r);
  }

  /** What queueing behind a level does to the three pieces of a queue. */
  lemma JoinPieces(s: Store, s': Store, ords: set<int>, lvls: set<int>, side: Side, k: nat, p: int)
    requires Queues(s, ords, lvls) && Queues(s', ords + {p}, lvls)
    requires RingMembers(s.levels, lvls, side) && SideSorted(s.levels, side)
    requires side != NoSide && k < |s.levels.Ring(side)| && NoDup(s.levels.Ring(side))
    requires Joined(s, s', s.levels.Ring(side)[k], p)
    requires forall x :: 0 <= x < |s.nodes| ==> s'.nodes[x].item == s.nodes[x].item
    ensures var r := s.levels.Ring(side);
            && OnSideAll(s.levels, lvls, side, r[..k]) && OnSideAll(s.levels, lvls, side, r[k + 1..]) && QueueAt(s, ords, r[k])
            && Rest(s', ords + {p}, lvls, side) ==
               Orders(s, ords, lvls, side, r[..k]) + (QueueOf(s, ords, r[k]) + [s.Item(p)]) + Orders(s, ords, lvls, side, r[k + 1..])
  {
    var r := s.levels.Ring(side);
    var l := r[k];
    CutAtLevel(s, ords, lvls, side, k);
    OrdersCut(s', ords + {p}, lvls, side, r, k);
    PiecesKept(s, s', ords, ords + {p}, lvls, lvls, side, r[..k], l);
    PiecesKept(s, s', ords, ords + {p}, lvls, lvls, side, r[k + 1..], l);
    ItemsSame(s.nodes, s'.nodes, s.queues[l]);
    ItemsAppend(s'.nodes, s.queues[l], [p]);
  }

  lemma QueuePrices(s: Store, ords: set<int>, l: int)
    requires QueueAt(s, ords, l)
    ensures forall i :: 0 <= i < |QueueOf(s, ords, l)| ==> QueueOf(s, ords, l)[i].price == s.levels.Price(l)
  {
    forall i | 0 <= i < |QueueOf(s, ords, l)|
      ensures QueueOf(s, ords, l)[i].price == s.levels.Price(l)
    {
      QueuePrice(s, ords, l, i);
    }
  }

  /** A new order goes behind those at better prices and at its own, and takes the next priority there. */
  lemma InsertAround(a: seq<Order>, q: seq<Order>, o: Order, b: seq<Order>)
    requires q != [] && o.side != NoSide
    requires forall i :: 0 <= i < |a| ==> Improves(o.side, a[i].price, o.price)
    requires forall i :: 0 <= i < |q| ==> q[i].price == o.price
    requires forall i :: 0 <= i < |b| ==> Improves(o.side, o.price, b[i].price)
    ensures Insert(a + q + b, o) == a + (q + [o]) + b
    ensures NextPriority(a + q + b, o.price) == q[|q| - 1].priority + 1
  {
    InsertBetween(a + q, o, b);
    Regroup(a, q, o, b);
    NextPriorityBefore(a + q, b, o.price);
  }

  lemma Regroup(a: seq<Order>, q: seq<Order>, o: Order, b: seq<Order>)
    ensures a + (q + [o]) + b == (a + q) + [o] + b
    ensures q != [] ==> (a + q)[|a + q| - 1] == q[|q| - 1]
  {
  }

  /** Joining a level queues the order in the reference queue, at the priority the source computes. */
  lemma JoinRest(s: Store, s': Store, ords: set<int>, lvls: set<int>, side: Side, k: nat, p: int)
    requires Queues(s, ords, lvls) && Queues(s', ords + {p}, lvls)
    requires RingMembers(s.levels, lvls, side) && SideSorted(s.levels, side)
    requires side != NoSide && k < |s.levels.Ring(side)| && NoDup(s.levels.Ring(side))
    requires Joined(s, s', s.levels.Ring(side)[k], p)
    requires s.Item(p).price == s.levels.Price(s.levels.Ring(side)[k]) && s.Item(p).side == side
    requires forall x :: 0 <= x < |s.nodes| ==> s'.nodes[x].item == s.nodes[x].item
    ensures Rest(s', ords + {p}, lvls, side) == Insert(Rest(s, ords, lvls, side), s.Item(p))
    ensures QueueAt(s, ords, s.levels.Ring(side)[k])
    ensures var q := QueueOf(s, ords, s.levels.Ring(side)[k]);
            NextPriority(Rest(s, ords, lvls, side), s.Item(p).price) == q[|q| - 1].priority + 1
  {
    var r := s.levels.Ring(side);
    CutAtLevel(s, ords, lvls, side, k);
    JoinPieces(s, s', ords, lvls, side, k, p);
    QueuePrices(s, ords, r[k]);
    InsertAround(Orders(s, ords, lvls, side, r[..k]), QueueOf(s, ords, r[k]), s.Item(p), Orders(s, ords, lvls, side, r[k + 1..]));
  }

  // ----- opening a level

  /** s' is s with p alone at a new level l. */
  predicate Opened(s: Store, s': Store, l: int, p: int) {
    && s.Node(p) && s.levels.Block(l) && l !in s.queues
    && s'.nodes == s.nodes[p := Node(s.nodes[p].item, p, p)]
    && s'.queues == s.queues[l := [p]]
    && s'.index == s.index[s.Item(p).Key() := p]
    && SamePrices(s.levels, s'.levels)
    && (forall m :: 0 <= m < |s.levels.blocks| ==> s'.levels.blocks[m].item.order0 == s.levels.blocks[m].item.order0)
    && s.levels.blocks[l].item.order0 == p
    && s.Item(p).price == s.levels.Price(l) && s.Item(p).side == s.levels.SideOf(l)
    && |s'.levels.slots| == |s.levels.slots|
  }

  lemma OpenQueues(s: Store, s': Store, ords: set<int>, lvls: set<int>, l: int, p: int)
    requires SlotsExact(s.levels, lvls) && Queues(s, ords, lvls)
    requires Unplaced(s, ords, p) && Opened(s, s', l, p)
    ensures OnlyAround(s, s', l, p)
    ensures Queues(s', ords + {p}, lvls + {l})
  {
    RingSingle(s'.nodes, p);
    assert Belongs(s', ords + {p}, l, p);
    assert QueueAt(s', ords + {p}, l);
    QueuesAfter(s, s', ords, ords + {p}, lvls, lvls + {l}, l, p);
  }

  lemma OpenLocated(s: Store, s': Store, ords: set<int>, lvls: set<int>, l: int, p: int)
    requires SlotsExact(s.levels, lvls) && SlotsExact(s'.levels, lvls + {l}) && Located(s, ords, lvls)
    requires OnlyAround(s, s', l, p) && Unplaced(s, ords, p) && Opened(s, s', l, p)
    requires s.queues.Keys == lvls
    ensures Located(s', ords + {p}, lvls + {l})
  {
    forall x | x in ords && s.Node(x)
      ensures s.LevelOf(x) != l
    {
      assert LocatedAt(s, lvls, x);
    }
    LocatedAfter(s, s', ords, ords + {p}, lvls, lvls + {l}, l, p);
  }

  /** Opening a level keeps rings, price array and queues; the client map too, if the key was free. */
  lemma OpenValid(s: Store, s': Store, ords: set<int>, lvls: set<int>, l: int, p: int)
    requires StoreValid(s, ords, lvls) && LevelsValid(s'.levels, lvls + {l})
    requires Unplaced(s, ords, p) && Opened(s, s', l, p)
    ensures StoreSound(s', ords + {p}, lvls + {l})
    ensures NewOrder(s, ords, p) ==> StoreValid(s', ords + {p}, lvls + {l})
  {
    OpenQueues(s, s', ords, lvls, l, p);
    OpenLocated(s, s', ords, lvls, l, p);
    if NewOrder(s, ords, p) {
      IndexedAfterAdd(s, s', ords, p);
    }
  }

  lemma RestAtPlace(s: Store, ords: set<int>, lvls: set<int>, side: Side, k: nat)
    requires Queues(s, ords, lvls) && RingMembers(s.levels, lvls, side) && k <= |s.levels.Ring(side)|
    ensures var r := s.levels.Ring(side);
            && OnSideAll(s.levels, lvls, side, r[..k]) && OnSideAll(s.levels, lvls, side, r[k..])
            && Rest(s, ords, lvls, side) == Orders(s, ords, lvls, side, r[..k]) + Orders(s, ords, lvls, side, r[k..])
  {
    var r := s.levels.Ring(side);
    forall j | 0 <= j < |r|
      ensures OnSide(s.levels, lvls, side, r[j])
    {
    }
    OrdersAppend(s, ords, lvls, side, r[..k], r[k..]);
    assert r[..k] + r[k..] == r;
  }

  lemma OpenPieces(s: Store, s': Store, ords: set<int>, lvls: set<int>, side: Side, p: int, l: int, k: nat)
    requires Queues(s, ords, lvls) && Queues(s', ords + {p}, lvls + {l}) && RingMembers(s'.levels, lvls + {l}, side)
    requires k <= |s.levels.Ring(side)| && l !in lvls && l !in s.levels.Ring(side)
    requires OnSideAll(s.levels, lvls, side, s.levels.Ring(side)[..k]) && OnSideAll(s.levels, lvls, side, s.levels.Ring(side)[k..])
    requires s'.levels.Ring(side) == With(s.levels.Ring(side), k, l)
    requires Opened(s, s', l, p)
    ensures var r := s.levels.Ring(side);
            Rest(s', ords + {p}, lvls + {l}, side) ==
               Orders(s, ords, lvls, side, r[..k]) + [s.Item(p)] + Orders(s, ords, lvls, side, r[k..])
  {
    var r, r' := s.levels.Ring(side), s'.levels.Ring(side);
    assert r'[..k] == r[..k] && r'[k + 1..] == r[k..] && r'[k] == l;
    OrdersCut(s', ords + {p}, lvls + {l}, side, r', k);
    PiecesKept(s, s', ords, ords + {p}, lvls, lvls + {l}, side, r[..k], l);
    PiecesKept(s, s', ords, ords + {p}, lvls, lvls + {l}, side, r[k..], l);
    assert QueueOf(s', ords + {p}, l) == [s.Item(p)];
  }

  lemma InsertAlone(a: seq<Order>, o: Order, b: seq<Order>)
    requires o.side != NoSide
    requires forall i :: 0 <= i < |a| ==> Improves(o.side, a[i].price, o.price)
    requires forall i :: 0 <= i < |b| ==> Improves(o.side, o.price, b[i].price)
    ensures Insert(a + b, o) == a + [o] + b
    ensures NextPriority(a + b, o.price) == 1
  {
    InsertBetween(a, o, b);
    NextPriorityBefore([], a + b, o.price);
    assert [] + (a + b) == a + b;
  }

  /** Opening a level queues the order in the reference queue, first at its price. */
  lemma OpenRest(s: Store, s': Store, ords: set<int>, lvls: set<int>, side: Side, p: int, l: int, k: nat)
    requires Queues(s, ords, lvls) && RingMembers(s.levels, lvls, side)
    requires Queues(s', ords + {p}, lvls + {l}) && RingMembers(s'.levels, lvls + {l}, side)
    requires side != NoSide && k <= |s.levels.Ring(side)| && l !in lvls
    requires s'.levels.Ring(side) == With(s.levels.Ring(side), k, l)
    requires Opened(s, s', l, p) && s.Item(p).side == side
    requires forall i :: 0 <= i < |s.levels.Ring(side)| ==> s.levels.Block(s.levels.Ring(side)[i])
    requires forall i :: 0 <= i < k ==> Improves(side, s.levels.Price(s.levels.Ring(side)[i]), s.levels.Price(l))
    requires forall i :: k <= i < |s.levels.Ring(side)| ==> Improves(side, s.levels.Price(l), s.levels.Price(s.levels.Ring(side)[i]))
    ensures Rest(s', ords + {p}, lvls + {l}, side) == Insert(Rest(s, ords, lvls, side), s.Item(p))
    ensures NextPriority(Rest(s, ords, lvls, side), s.Item(p).price) == 1
  {
    var r := s.levels.Ring(side);
    RestAtPlace(s, ords, lvls, side, k);
    assert forall i :: 0 <= i < |r| ==> OnSide(s.levels, lvls, side, r[i]);
    OpenPieces(s, s', ords, lvls, side, p, l, k);
    BetterBefore(s, ords, lvls, side, k, s.levels.Price(l));
    WorseFrom(s, ords, lvls, side, k, s.levels.Price(l));
    InsertAlone(Orders(s, ords, lvls, side, r[..k]), s.Item(p), Orders(s, ords, lvls, side, r[k..]));
  }

  // ----- leaving a level that keeps other orders

  /** s' is s with the j-th order of level l unlinked; the next order becomes first if it was. */
  predicate Left(s: Store, s': Store, l: int, j: nat) {
    && l in s.queues && j < |s.queues[l]| && |s.queues[l]| >= 2
    && IsRing(s.nodes, s.queues[l]) && s.levels.Block(l)
    && var p := s.queues[l][j];
    && s.Node(s.nodes[p].prev) && s.Node(s.nodes[p].next) && s.nodes[p].prev != p
    && s'.nodes == Bypass(s.nodes, p)[p := Node(s.nodes[p].item, NULL, NULL)]
    && s'.queues == s.queues[l := Without(s.queues[l], j)]
    && s'.index == s.index - {s.Item(p).Key()}
    && SameLevels(s.levels, s'.levels)
    && (forall m :: 0 <= m < |s.levels.blocks| && m != l ==> s'.levels.blocks[m].item.order0 == s.levels.blocks[m].item.order0)
    && s'.levels.blocks[l].item.order0 == (if j == 0 then s.queues[l][1] else s.levels.blocks[l].item.order0)
  }

  lemma LeaveQueue(s: Store, s': Store, ords: set<int>, l: int, j: nat)
    requires QueueAt(s, ords, l) && Left(s, s', l, j)
    ensures OnlyAround(s, s', l, s.queues[l][j])
    ensures QueueAt(s', ords - {s.queues[l][j]}, l)
  {
    var q := s.queues[l];
    var p := q[j];
    assert LinkedAt(s.nodes, q, j);
    RingBypass(s.nodes, q, j);
    RingFrame(Bypass(s.nodes, p), s'.nodes, Without(q, j));
    forall i | 0 <= i < |Without(q, j)|
      ensures Belongs(s', ords - {p}, l, Without(q, j)[i])
    {
      assert Belongs(s, ords, l, q[if i < j then i else i + 1]);
    }
  }

  lemma LeaveQueues(s: Store, s': Store, ords: set<int>, lvls: set<int>, l: int, j: nat)
    requires SlotsExact(s.levels, lvls) && Queues(s, ords, lvls) && l in lvls && Left(s, s', l, j)
    ensures OnlyAround(s, s', l, s.queues[l][j])
    ensures Queues(s', ords - {s.queues[l][j]}, lvls)
  {
    assert QueueAt(s, ords, l);
    var p := s.queues[l][j];
    LeaveQueue(s, s', ords, l, j);
    QueuesAfter(s, s', ords, ords - {p}, lvls, lvls, l, p);
  }

  lemma LeaveLocated(s: Store, s': Store, ords: set<int>, lvls: set<int>, l: int, j: nat)
    requires SlotsExact(s.levels, lvls) && SlotsExact(s'.levels, lvls) && Located(s, ords, lvls) && l in lvls
    requires Left(s, s', l, j) && OnlyAround(s, s', l, s.queues[l][j])
    ensures Located(s', ords - {s.queues[l][j]}, lvls)
  {
    var q := s.queues[l];
    var p := q[j];
    forall x | x in ords && x != p && s.Node(x) && s.LevelOf(x) == l
      ensures x in s'.queues[l]
    {
      assert LocatedAt(s, lvls, x);
      var i :| 0 <= i < |q| && q[i] == x;
      assert x == Without(q, j)[if i < j then i else i - 1];
    }
    LocatedAfter(s, s', ords, ords - {p}, lvls, lvls, l, p);
  }

  lemma LeaveValid(s: Store, s': Store, ords: set<int>, lvls: set<int>, l: int, j: nat)
    requires StoreValid(s, ords, lvls) && l in lvls && Left(s, s', l, j)
    ensures StoreValid(s', ords - {s.queues[l][j]}, lvls)
  {
    var p := s.queues[l][j];
    FirstOrderIsFree(s.levels, s'.levels, lvls);
    assert QueueAt(s, ords, l);
    QueueOwner(s, ords, lvls, l, p);
    LeaveQueues(s, s', ords, lvls, l, j);
    LeaveLocated(s, s', ords, lvls, l, j);
    IndexedAfterRemove(s, s', ords, p);
  }

  /** What the reference queue of one side depends on. */
  predicate SideParts(s: Store, ords: set<int>, lvls: set<int>, side: Side) {
    && side != NoSide
    && SlotsExact(s.levels, lvls)
    && Queues(s, ords, lvls)
    && RingMembers(s.levels, lvls, side) && SideSorted(s.levels, side) && NoDup(s.levels.Ring(side))
  }

  lemma PartsOfStore(s: Store, ords: set<int>, lvls: set<int>, side: Side)
    requires StoreValid(s, ords, lvls) && side != NoSide
    ensures SideParts(s, ords, lvls, side)
  {
  }

  /** Only one order in use has a given key. */
  lemma KeyOwner(s: Store, ords: set<int>, p: int, x: int)
    requires Indexed(s, ords) && p in ords && x in ords
    ensures s.Node(p) && s.Node(x)
    ensures s.Item(x).Key() == s.Item(p).Key() ==> x == p
  {
    assert IndexedAt(s, p) && IndexedAt(s, x);
  }

  /** Nothing served before the j-th order of level k has its key. */
  lemma KeyFreeBefore(s: Store, ords: set<int>, lvls: set<int>, side: Side, k: nat, j: nat)
    requires SideParts(s, ords, lvls, side) && Indexed(s, ords) && k < |s.levels.Ring(side)|
    requires QueueAt(s, ords, s.levels.Ring(side)[k]) && j < |s.queues[s.levels.Ring(side)[k]]|
    requires OnSideAll(s.levels, lvls, side, s.levels.Ring(side)[..k])
    ensures var l := s.levels.Ring(side)[k];
            && s.Node(s.queues[l][j])
            && KeyFree(Orders(s, ords, lvls, side, s.levels.Ring(side)[..k]) + QueueOf(s, ords, l)[..j], s.Item(s.queues[l][j]).Key())
  {
    var r := s.levels.Ring(side);
    var l := r[k];
    var q := s.queues[l];
    assert OnSide(s.levels, lvls, side, l);
    QueueOwner(s, ords, lvls, l, q[j]);
    var a := Orders(s, ords, lvls, side, r[..k]);
    forall i | 0 <= i < |a|
      ensures a[i].Key() != s.Item(q[j]).Key()
    {
      var m := OrdersPrice(s, ords, lvls, side, r[..k], i);
      assert r[..k][m] == r[m];
      var x := Flat(s.queues, r[..k])[i];
      QueuesDisjoint(s, ords, lvls, r[m], l, x);
      KeyOwner(s, ords, q[j], x);
    }
    forall i | 0 <= i < j
      ensures QueueOf(s, ords, l)[i].Key() != s.Item(q[j]).Key()
    {
      QueuePrice(s, ords, l, i);
      KeyOwner(s, ords, q[j], q[i]);
    }
  }

  lemma LeaveQueueOf(s: Store, s': Store, ords: set<int>, ords': set<int>, l: int, j: nat)
    requires QueueAt(s, ords, l) && QueueAt(s', ords', l) && j < |s.queues[l]|
    requires s'.queues[l] == Without(s.queues[l], j)
    requires |s'.nodes| == |s.nodes| && forall x :: 0 <= x < |s.nodes| ==> s'.nodes[x].item == s.nodes[x].item
    ensures QueueOf(s', ords', l) == QueueOf(s, ords, l)[..j] + QueueOf(s, ords, l)[j + 1..]
  {
  }

  lemma LeavePieces(s: Store, s': Store, ords: set<int>, ords': set<int>, lvls: set<int>, side: Side, k: nat, j: nat)
    requires SideParts(s, ords, lvls, side) && k < |s.levels.Ring(side)|
    requires Queues(s', ords', lvls) && RingMembers(s'.levels, lvls, side) && s'.levels.Ring(side) == s.levels.Ring(side)
    requires s.levels.Ring(side)[k] in s.queues && j < |s.queues[s.levels.Ring(side)[k]]|
    requires s'.queues == s.queues[s.levels.Ring(side)[k] := Without(s.queues[s.levels.Ring(side)[k]], j)]
    requires |s'.nodes| == |s.nodes| && forall x :: 0 <= x < |s.nodes| ==> s'.nodes[x].item == s.nodes[x].item
    ensures var r := s.levels.Ring(side);
            var l := r[k];
            && OnSideAll(s.levels, lvls, side, r[..k]) && OnSideAll(s.levels, lvls, side, r[k + 1..]) && QueueAt(s, ords, l)
            && Rest(s', ords', lvls, side) ==
               Orders(s, ords, lvls, side, r[..k])
               + (QueueOf(s, ords, l)[..j] + QueueOf(s, ords, l)[j + 1..])
               + Orders(s, ords, lvls, side, r[k + 1..])
  {
    var r := s.levels.Ring(side);
    var l := r[k];
    OrdersCut(s, ords, lvls, side, r, k);
    OrdersCut(s', ords', lvls, side, r, k);
    PiecesKept(s, s', ords, ords', lvls, lvls, side, r[..k], l);
    PiecesKept(s, s', ords, ords', lvls, lvls, side, r[k + 1..], l);
    LeaveQueueOf(s, s', ords, ords', l, j);
  }

  lemma RemoveAround(a: seq<Order>, q: seq<Order>, j: nat, b: seq<Order>)
    requires j < |q| && KeyFree(a + q[..j], q[j].Key())
    ensures Remove(a + q + b, q[j].Key()) == a + (q[..j] + q[j + 1..]) + b
    ensures Find(a + q + b, q[j].Key()) == |a| + j
  {
    RemoveBetween(a + q[..j], q[j], q[j + 1..] + b);
    assert a + q + b == (a + q[..j]) + [q[j]] + (q[j + 1..] + b);
    assert a + (q[..j] + q[j + 1..]) + b == (a + q[..j]) + (q[j + 1..] + b);
  }

  /** The order the j-th place of level k stands for in the reference queue. */
  predicate Removes(before: seq<Order>, after: seq<Order>, o: Order) {
    && Find(before, o.Key()) < |before|
    && before[Find(before, o.Key())] == o
    && after == Remove(before, o.Key())
  }

  /** Leaving a level removes the order from the reference queue. */
  lemma LeaveRest(s: Store, s': Store, ords: set<int>, ords': set<int>, lvls: set<int>, side: Side, k: nat, j: nat)
    requires SideParts(s, ords, lvls, side) && Indexed(s, ords) && k < |s.levels.Ring(side)|
    requires Queues(s', ords', lvls) && RingMembers(s'.levels, lvls, side) && s'.levels.Ring(side) == s.levels.Ring(side)
    requires s.levels.Ring(side)[k] in s.queues && j < |s.queues[s.levels.Ring(side)[k]]|
    requires s'.queues == s.queues[s.levels.Ring(side)[k] := Without(s.queues[s.levels.Ring(side)[k]], j)]
    requires |s'.nodes| == |s.nodes| && forall x :: 0 <= x < |s.nodes| ==> s'.nodes[x].item == s.nodes[x].item
    ensures var p := s.queues[s.levels.Ring(side)[k]][j];
            s.Node(p) && Removes(Rest(s, ords, lvls, side), Rest(s', ords', lvls, side), s.Item(p))
  {
    var r := s.levels.Ring(side);
    LeavePieces(s, s', ords, ords', lvls, side, k, j);
    OrdersCut(s, ords, lvls, side, r, k);
    KeyFreeBefore(s, ords, lvls, side, k, j);
    RemoveAround(Orders(s, ords, lvls, side, r[..k]), QueueOf(s, ords, r[k]), j, Orders(s, ords, lvls, side, r[k + 1..]));
  }

  // ----- closing a level with its last order

  /** s' is s with level l gone, together with its only order p. */
  predicate Closed(s: Store, s': Store, l: int, p: int) {
    && l in s.queues && s.queues[l] == [p] && s.Node(p)
    && s'.nodes == s.nodes
    && s'.queues == s.queues - {l}
    && s'.index == s.index - {s.Item(p).Key()}
    && SamePrices(s.levels, s'.levels)
    && (forall m :: 0 <= m < |s.levels.blocks| ==> s'.levels.blocks[m].item.order0 == s.levels.blocks[m].item.order0)
    && |s'.levels.slots| == |s.levels.slots|
  }

  lemma CloseQueues(s: Store, s': Store, ords: set<int>, lvls: set<int>, l: int, p: int)
    requires SlotsExact(s.levels, lvls) && Queues(s, ords, lvls) && l in lvls && Closed(s, s', l, p)
    ensures Queues(s', ords - {p}, lvls - {l})
  {
    assert QueueAt(s, ords, l);
    QueuesAfter(s, s', ords, ords - {p}, lvls, lvls - {l}, l, p);
  }

  lemma CloseLocated(s: Store, s': Store, ords: set<int>, lvls: set<int>, l: int, p: int)
    requires SlotsExact(s.levels, lvls) && SlotsExact(s'.levels, lvls - {l}) && Located(s, ords, lvls)
    requires l in lvls && Closed(s, s', l, p)
    ensures Located(s', ords - {p}, lvls - {l})
  {
    forall x | x in ords && x != p && s.Node(x)
      ensures s.LevelOf(x) != l
    {
      assert LocatedAt(s, lvls, x);
    }
    LocatedAfter(s, s', ords, ords - {p}, lvls, lvls - {l}, l, p);
  }

  lemma CloseValid(s: Store, s': Store, ords: set<int>, lvls: set<int>, l: int, p: int)
    requires StoreValid(s, ords, lvls) && l in lvls && LevelsValid(s'.levels, lvls - {l}) && Closed(s, s', l, p)
    ensures StoreValid(s', ords - {p}, lvls - {l})
  {
    assert QueueAt(s, ords, l);
    QueueOwner(s, ords, lvls, l, p);
    CloseQueues(s, s', ords, lvls, l, p);
    CloseLocated(s, s', ords, lvls, l, p);
    IndexedAfterRemove(s, s', ords, p);
  }

  lemma ClosePieces(s: Store, s': Store, ords: set<int>, lvls: set<int>, side: Side, k: nat, p: int)
    requires SideParts(s, ords, lvls, side) && k < |s.levels.Ring(side)|
    requires Closed(s, s', s.levels.Ring(side)[k], p)
    requires Queues(s', ords - {p}, lvls - {s.levels.Ring(side)[k]})
    requires RingMembers(s'.levels, lvls - {s.levels.Ring(side)[k]}, side)
    requires s'.levels.Ring(side) == Without(s.levels.Ring(side), k)
    ensures var r := s.levels.Ring(side);
            && OnSideAll(s.levels, lvls, side, r[..k]) && OnSideAll(s.levels, lvls, side, r[k + 1..])
            && Rest(s', ords - {p}, lvls - {r[k]}, side) ==
               Orders(s, ords, lvls, side, r[..k]) + Orders(s, ords, lvls, side, r[k + 1..])
  {
    var r, r' := s.levels.Ring(side), s'.levels.Ring(side);
    var l := r[k];
    OrdersCut(s, ords, lvls, side, r, k);
    RestAtPlace(s', ords - {p}, lvls - {l}, side, k);
    assert r'[..k] == r[..k] && r'[k..] == r[k + 1..];
    PiecesKept(s, s', ords, ords - {p}, lvls, lvls - {l}, side, r[..k], l);
    PiecesKept(s, s', ords, ords - {p}, lvls, lvls - {l}, side, r[k + 1..], l);
  }

  lemma RemoveAlone(a: seq<Order>, o: Order, b: seq<Order>)
    requires KeyFree(a, o.Key())
    ensures Removes(a + [o] + b, a + b, o)
  {
    RemoveBetween(a, o, b);
  }

  /** Closing a level removes its order from the reference queue. */
  lemma CloseRest(s: Store, s': Store, ords: set<int>, lvls: set<int>, side: Side, k: nat, p: int)
    requires SideParts(s, ords, lvls, side) && Indexed(s, ords) && k < |s.levels.Ring(side)|
    requires Closed(s, s', s.levels.Ring(side)[k], p)
    requires Queues(s', ords - {p}, lvls - {s.levels.Ring(side)[k]})
    requires RingMembers(s'.levels, lvls - {s.levels.Ring(side)[k]}, side)
    requires s'.levels.Ring(side) == Without(s.levels.Ring(side), k)
    ensures Removes(Rest(s, ords, lvls, side), Rest(s', ords - {p}, lvls - {s.levels.Ring(side)[k]}, side), s.Item(p))
  {
    var r := s.levels.Ring(side);
    OrdersCut(s, ords, lvls, side, r, k);
    ClosePieces(s, s', ords, lvls, side, k, p);
    KeyFreeBefore(s, ords, lvls, side, k, 0);
    var a, b := Orders(s, ords, lvls, side, r[..k]), Orders(s, ords, lvls, side, r[k + 1..]);
    assert QueueOf(s, ords, r[k]) == [s.Item(p)];
    assert a + QueueOf(s, ords, r[k])[..0] == a;
    RemoveAlone(a, s.Item(p), b);
  }

  // ----- trading part of an order

  /** s' is s with the quantity of order p changed. */
  predicate Requantified(s: Store, s': Store, p: int, qty: nat) {
    s.Node(p) && s' == s.(nodes := s.nodes[p := s.nodes[p].(item := s.Item(p).(qty := qty))])
  }

  lemma RequantifyQueues(s: Store, s': Store, ords: set<int>, lvls: set<int>, p: int, qty: nat)
    requires Queues(s, ords, lvls) && Requantified(s, s', p, qty)
    ensures Queues(s', ords, lvls)
  {
    forall m | m in lvls
      ensures QueueAt(s', ords, m)
    {
      assert QueueAt(s, ords, m);
      forall i | 0 <= i < |s.queues[m]|
        ensures s.Node(s.queues[m][i]) && s.queues[m][i] in ords
      {
        assert Belongs(s, ords, m, s.queues[m][i]);
      }
      QueueKept(s, s', ords, ords, m);
    }
  }

  lemma RequantifyValid(s: Store, s': Store, ords: set<int>, lvls: set<int>, p: int, qty: nat)
    requires StoreValid(s, ords, lvls) && Requantified(s, s', p, qty)
    ensures StoreValid(s', ords, lvls)
  {
    RequantifyQueues(s, s', ords, lvls, p, qty);
    forall x | x in ords
      ensures LocatedAt(s', lvls, x) && IndexedAt(s', x)
    {
      assert LocatedAt(s, lvls, x) && IndexedAt(s, x);
    }
    forall key | key in s'.index
      ensures NamesOrder(s', ords, key)
    {
      assert NamesOrder(s, ords, key);
    }
  }

  lemma ItemsExcept(nodes: seq<OrderNode>, nodes': seq<OrderNode>, f: seq<int>, p: int)
    requires |nodes'| == |nodes| && Blocks(nodes, f) && p !in f
    requires forall x :: 0 <= x < |nodes| && x != p ==> nodes'[x].item == nodes[x].item
    ensures Items(nodes', f) == Items(nodes, f)
  {
  }

  /** The order at the head of a side is served next; nothing else there is the same block. */
  lemma HeadOfSide(s: Store, ords: set<int>, lvls: set<int>, side: Side)
    requires SideParts(s, ords, lvls, side) && s.levels.Ring(side) != []
    ensures var f := Flat(s.queues, s.levels.Ring(side));
            && QueueAt(s, ords, s.levels.Ring(side)[0])
            && |f| > 0 && f[0] == s.queues[s.levels.Ring(side)[0]][0] && s.Node(f[0]) && f[0] in ords
            && Rest(s, ords, lvls, side)[0] == s.Item(f[0])
  {
    var l := s.levels.Ring(side)[0];
    assert OnSide(s.levels, lvls, side, l);
    assert QueueAt(s, ords, l);
    QueueOwner(s, ords, lvls, l, s.queues[l][0]);
  }

  lemma HeadIsOnce(s: Store, ords: set<int>, lvls: set<int>, side: Side)
    requires SideParts(s, ords, lvls, side) && s.levels.Ring(side) != []
    requires Flat(s.queues, s.levels.Ring(side)) != []
    ensures var f := Flat(s.queues, s.levels.Ring(side)); f[0] !in f[1..]
  {
    var r := s.levels.Ring(side);
    var l := r[0];
    HeadOfSide(s, ords, lvls, side);
    assert OnSide(s.levels, lvls, side, l);
    var q := s.queues[l];
    var f := Flat(s.queues, r);
    assert f == q + Flat(s.queues, r[1..]);
    forall i | 0 < i < |f|
      ensures f[i] != f[0]
    {
      if i >= |q| {
        var k := FlatMember(s.queues, r[1..], i - |q|);
        assert OnSide(s.levels, lvls, side, r[k + 1]);
        assert QueueAt(s, ords, r[k + 1]);
        QueuesDisjoint(s, ords, lvls, l, r[k + 1], q[0]);
      }
    }
  }

  /** A partial fill changes the head of the side's reference queue in place. */
  lemma RequantifyRest(s: Store, s': Store, ords: set<int>, lvls: set<int>, side: Side, qty: nat)
    requires SideParts(s, ords, lvls, side) && s.levels.Ring(side) != []
    requires Queues(s', ords, lvls) && s.levels.Ring(side)[0] in s.queues && s.queues[s.levels.Ring(side)[0]] != []
    requires Requantified(s, s', s.queues[s.levels.Ring(side)[0]][0], qty)
    ensures Rest(s, ords, lvls, side) != []
    ensures Rest(s', ords, lvls, side) == [Rest(s, ords, lvls, side)[0].(qty := qty)] + Rest(s, ords, lvls, side)[1..]
  {
    HeadOfSide(s, ords, lvls, side);
    HeadIsOnce(s, ords, lvls, side);
    var f := Flat(s.queues, s.levels.Ring(side));
    FlatBlocks(s, ords, lvls, side, s.levels.Ring(side));
    ItemsExcept(s.nodes, s'.nodes, f[1..], f[0]);
    assert Rest(s, ords, lvls, side)[1..] == Items(s.nodes, f[1..]);
    assert Rest(s', ords, lvls, side)[1..] == Items(s'.nodes, f[1..]);
  }

  // ----- the other side

  /** Changing blocks of orders not on a side leaves its reference queue as it was. */
  lemma OtherRest(s: Store, s': Store, ords: set<int>, ords': set<int>, lvls: set<int>, lvls': set<int>, side: Side, l: int)
    requires Queues(s, ords, lvls) && RingMembers(s.levels, lvls, side)
    requires Queues(s', ords', lvls') && RingMembers(s'.levels, lvls', side)
    requires s'.levels.Ring(side) == s.levels.Ring(side)
    requires |s'.nodes| == |s.nodes| && forall x :: 0 <= x < |s.nodes| ==> s'.nodes[x].item == s.nodes[x].item
    requires forall m :: m in s.queues && m != l ==> m in s'.queues && s'.queues[m] == s.queues[m]
    requires s.levels.Block(l) && s.levels.SideOf(l) != side
    ensures Rest(s', ords', lvls', side) == Rest(s, ords, lvls, side)
  {
    var r := s.levels.Ring(side);
    forall j | 0 <= j < |r|
      ensures r[j] != l
    {
      assert OnSide(s.levels, lvls, side, r[j]);
    }
    PiecesKept(s, s', ords, ords', lvls, lvls', side, r, l);
  }

  lemma RequantifyOtherRest(s: Store, s': Store, ords: set<int>, lvls: set<int>, side: Side, p: int, qty: nat)
    requires StoreValid(s, ords, lvls) && StoreValid(s', ords, lvls) && Requantified(s, s', p, qty)
    requires side != NoSide && RingMembers(s.levels, lvls, side) && s.Item(p).side != side
    ensures Rest(s', ords, lvls, side) == Rest(s, ords, lvls, side)
  {
    var r := s.levels.Ring(side);
    var f := Flat(s.queues, r);
    forall i | 0 <= i < |f|
      ensures f[i] != p
    {
      var k := OrdersPrice(s, ords, lvls, side, r, i);
    }
    FlatBlocks(s, ords, lvls, side, r);
    ItemsExcept(s.nodes, s'.nodes, f, p);
  }
}
