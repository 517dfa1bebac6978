/** Each move of the linked book, taken from its pointer changes to the whole invariant and to the
    reference queues of both sides. */
module Soundness {
  import opened Exchange
  import opened Pools
  import opened Ring
  import opened PriceTimeBook
  import opened PriceLevels
  import opened RestingOrders
  import opened QueueViews
  import opened OrderMoves
  import opened Allocation

  /** The price array plays no part in where a level goes. */
  lemma SlotsDoNotPlace(v: View, v': View, side: Side, price: int, r: seq<int>)
    requires v' == v.(slots := v'.slots) && forall i :: 0 <= i < |r| ==> v.Block(r[i]) && v'.Block(r[i])
    ensures LevelPlace(v', side, price, r) == LevelPlace(v, side, price, r)
  {
  }

  lemma MakePlaced(v: View, v1: View, v': View, side: Side, l: int, k: nat)
    requires side != NoSide && v.Block(l) && |v.slots| > 0
    requires v1 == v.(slots := v.slots[v.Slot(v.Price(l)) := l])
    requires Spliced(v1, v', side, l, k)
    ensures Placed(v, v', side, l, k)
  {
  }

  lemma RingIsInUse(v: View, live: set<int>, side: Side)
    requires RingMembers(v, live, side)
    ensures forall i :: 0 <= i < |v.Ring(side)| ==> v.Ring(side)[i] in live && v.Block(v.Ring(side)[i])
  {
    forall i | 0 <= i < |v.Ring(side)|
      ensures v.Ring(side)[i] in live && v.Block(v.Ring(side)[i])
    {
      assert OnSide(v, live, side, v.Ring(side)[i]);
    }
  }

  lemma SlotIsLive(v: View, live: set<int>, i: nat)
    requires SlotsExact(v, live) && i < |v.slots| && v.slots[i] != NULL
    ensures v.slots[i] in live && v.Block(v.slots[i]) && v.Slot(v.Price(v.slots[i])) == i
  {
    assert SlotExact(v, live, i);
  }

  lemma HouseNumber(v: View, live: set<int>, l: int) returns (k: nat)
    requires Housed(v, live) && l in live
    ensures v.Block(l) && v.SideOf(l) != NoSide && k < |v.Ring(v.SideOf(l))| && v.Ring(v.SideOf(l))[k] == l
  {
    assert HousedAt(v, l);
    k :| 0 <= k < |v.Ring(v.SideOf(l))| && v.Ring(v.SideOf(l))[k] == l;
  }

  /** The parts of the store the reference queues of both sides depend on. */
  predicate Readable(s: Store, ords: set<int>, lvls: set<int>) {
    Queues(s, ords, lvls) && RingMembers(s.levels, lvls, Buy) && RingMembers(s.levels, lvls, Sell)
  }

  /** What resting an order does to the reference queues of both sides. */
  predicate RestsAs(s: Store, ords: set<int>, lvls: set<int>, s': Store, ords': set<int>, lvls': set<int>, o: Order)
    requires Readable(s, ords, lvls) && Readable(s', ords', lvls') && o.side != NoSide
  {
    && Rest(s', ords', lvls', o.side) == Insert(Rest(s, ords, lvls, o.side), o)
    && Rest(s', ords', lvls', Opposite(o.side)) == Rest(s, ords, lvls, Opposite(o.side))
  }

  /** s' is s with p, which waited to be placed, resting as the source rests it, whatever its key:
      rings, price array and queues agree, on its side this is Insert, the client map names it, and
      if its key was free everything agrees. */
  predicate PutToRest(s: Store, ords: set<int>, lvls: set<int>, s': Store, ords': set<int>, lvls': set<int>, p: int) {
    && s.Node(p) && s.Item(p).side != NoSide
    && Readable(s, ords, lvls) && StoreSound(s', ords', lvls')
    && RestsAs(s, ords, lvls, s', ords', lvls', s.Item(p))
    && s'.index == s.index[s.Item(p).Key() := p]
    && |s'.nodes| == |s.nodes| && (forall x :: 0 <= x < |s.nodes| ==> s'.nodes[x].item == s.nodes[x].item)
    && (NewOrder(s, ords, p) ==> StoreValid(s', ords', lvls'))
  }

  lemma JoinedSound(s: Store, s': Store, ords: set<int>, lvls: set<int>, l: int, p: int)
    requires StoreValid(s, ords, lvls) && l in lvls
    requires Unplaced(s, ords, p) && Joined(s, s', l, p) && s.Item(p).side != NoSide
    requires s.Item(p).price == s.levels.Price(l) && s.Item(p).side == s.levels.SideOf(l)
    ensures StoreSound(s', ords + {p}, lvls) && (NewOrder(s, ords, p) ==> StoreValid(s', ords + {p}, lvls))
    ensures RestsAs(s, ords, lvls, s', ords + {p}, lvls, s.Item(p))
  {
    var side := s.Item(p).side;
    assert QueueAt(s, ords, l);
    JoinQueue(s, s', ords, lvls, l, p);
    JoinValid(s, s', ords, lvls, l, p);
    var k := HouseNumber(s.levels, lvls, l);
    PartsOfStore(s, ords, lvls, side);
    JoinRest(s, s', ords, lvls, side, k, p);
    OtherRest(s, s', ords, ords + {p}, lvls, lvls, Opposite(side), l);
  }

  lemma OpenedRests(s1: Store, s': Store, ords: set<int>, lvls: set<int>, l: int, p: int)
    requires s1.levels.Block(l) && SideParts(s1, ords, lvls, s1.levels.SideOf(l)) && Readable(s1, ords, lvls)
    requires Readable(s', ords + {p}, lvls + {l})
    requires Unplaced(s1, ords, p) && Opened(s1, s', l, p)
    requires Newcomer(s1.levels, lvls, s1.levels.SideOf(l), l)
    requires var v := s1.levels;
             Placed(v, s'.levels, v.SideOf(l), l, LevelPlace(v, v.SideOf(l), v.Price(l), v.Ring(v.SideOf(l))))
    ensures RestsAs(s1, ords, lvls, s', ords + {p}, lvls + {l}, s1.Item(p))
  {
    var v, side := s1.levels, s1.levels.SideOf(l);
    NoLevelAtPrice(v, lvls, side, l);
    var k := LevelPlace(v, side, v.Price(l), v.Ring(side));
    BetterAndWorse(v, side, v.Price(l), k);
    OpenRest(s1, s', ords, lvls, side, p, l, k);
    OtherRest(s1, s', ords, ords + {p}, lvls, lvls + {l}, Opposite(side), l);
  }

  lemma OpenedSound(s: Store, s1: Store, s': Store, ords: set<int>, lvls: set<int>, l: int, p: int)
    requires StoreValid(s, ords, lvls) && LevelTaken(s.levels, s1.levels, lvls, l) && s1 == s.(levels := s1.levels)
    requires Unplaced(s, ords, p) && Opened(s1, s', l, p) && s.Item(p).side != NoSide
    requires LevelsValid(s'.levels, lvls + {l})
    requires Newcomer(s1.levels, lvls, s.Item(p).side, l)
    requires var v := s1.levels;
             Placed(v, s'.levels, v.SideOf(l), l, LevelPlace(v, v.SideOf(l), v.Price(l), v.Ring(v.SideOf(l))))
    ensures StoreSound(s', ords + {p}, lvls + {l}) && (NewOrder(s, ords, p) ==> StoreValid(s', ords + {p}, lvls + {l}))
    ensures RestsAs(s, ords, lvls, s', ords + {p}, lvls + {l}, s.Item(p))
  {
    TakenLevelStore(s, s1, ords, lvls, l);
    OpenValid(s1, s', ords, lvls, l, p);
    PartsOfStore(s1, ords, lvls, s.Item(p).side);
    OpenedRests(s1, s', ords, lvls, l, p);
  }

  /** The view with block l filled in for a level that holds order p alone. */
  function TakenView(v: View, l: int, o: Order, p: int): View
    requires v.Block(l)
  {
    v.(blocks := v.blocks[l := Node(Level(o.side, o.price, p), NULL, NULL)])
  }

  /** s' is s with order p alone on a new level l, behind the better ones. */
  predicate OpenedAs(s: Store, s': Store, l: int, p: int) {
    && s.Node(p) && s.levels.Block(l)
    && s'.nodes == s.nodes[p := Node(s.Item(p), p, p)]
    && s'.queues == s.queues[l := [p]]
    && s'.index == s.index[s.Item(p).Key() := p]
    && var o := s.Item(p);
       var taken := TakenView(s.levels, l, o, p);
       && (forall i :: 0 <= i < |taken.Ring(o.side)| ==> taken.Block(taken.Ring(o.side)[i]))
       && Placed(taken, s'.levels, o.side, l, LevelPlace(taken, o.side, o.price, taken.Ring(o.side)))
       && (forall m :: 0 <= m < |taken.blocks| ==> s'.levels.blocks[m].item == taken.blocks[m].item)
  }

  lemma MakeOpened(s: Store, s': Store, taken: View, l: int, p: int)
    requires s.Node(p) && s.levels.Block(l) && taken == TakenView(s.levels, l, s.Item(p), p)
    requires s'.nodes == s.nodes[p := Node(s.Item(p), p, p)]
    requires s'.queues == s.queues[l := [p]]
    requires s'.index == s.index[s.Item(p).Key() := p]
    requires forall i :: 0 <= i < |taken.Ring(taken.SideOf(l))| ==> taken.Block(taken.Ring(taken.SideOf(l))[i])
    requires Placed(taken, s'.levels, taken.SideOf(l), l,
                    LevelPlace(taken, taken.SideOf(l), taken.Price(l), taken.Ring(taken.SideOf(l))))
    requires forall m :: 0 <= m < |taken.blocks| ==> s'.levels.blocks[m].item == taken.blocks[m].item
    ensures OpenedAs(s, s', l, p)
  {
  }

  lemma OpenedAsOpened(s: Store, s': Store, l: int, p: int)
    requires OpenedAs(s, s', l, p) && l !in s.queues
    ensures Opened(s.(levels := TakenView(s.levels, l, s.Item(p), p)), s', l, p)
  {
  }

  lemma TakenIsNew(s: Store, lvls: set<int>, l: int, p: int)
    requires |s.levels.slots| > 0 && s.Node(p) && s.Item(p).side != NoSide
    requires s.LevelOf(p) == NULL && s.levels.Block(l) && l !in lvls
    ensures LevelTaken(s.levels, TakenView(s.levels, l, s.Item(p), p), lvls, l)
    ensures Newcomer(TakenView(s.levels, l, s.Item(p), p), lvls, s.Item(p).side, l)
  {
  }

  lemma OpeningSound(s: Store, s': Store, ords: set<int>, ords': set<int>, lvls: set<int>, lvls': set<int>, l: int, p: int)
    requires StoreValid(s, ords, lvls) && Unplaced(s, ords, p) && s.Item(p).side != NoSide
    requires ords' == ords + {p} && lvls' == lvls + {l} && l !in lvls
    requires s.LevelOf(p) == NULL && OpenedAs(s, s', l, p)
    requires LevelsValid(s'.levels, lvls')
    ensures PutToRest(s, ords, lvls, s', ords', lvls', p)
  {
    TakenIsNew(s, lvls, l, p);
    OpenedAsOpened(s, s', l, p);
    OpenedSound(s, s.(levels := TakenView(s.levels, l, s.Item(p), p)), s', ords, lvls, l, p);
  }

  lemma JoiningSound(s: Store, s': Store, ords: set<int>, ords': set<int>, lvls: set<int>, l: int, p: int)
    requires StoreValid(s, ords, lvls) && l in lvls
    requires ords' == ords + {p}
    requires Unplaced(s, ords, p) && Joined(s, s', l, p) && s.Item(p).side != NoSide
    requires s.Item(p).price == s.levels.Price(l) && s.Item(p).side == s.levels.SideOf(l)
    ensures PutToRest(s, ords, lvls, s', ords', lvls, p)
  {
    JoinedSound(s, s', ords, lvls, l, p);
  }

  /** Where an order in use is: its level, the place of the level on its side, its place in the level. */
  lemma OrderPlace(s: Store, ords: set<int>, lvls: set<int>, p: int) returns (l: int, side: Side, k: nat, j: nat)
    requires StoreValid(s, ords, lvls) && p in ords
    ensures s.Node(p) && l == s.LevelOf(p) && l in lvls && QueueAt(s, ords, l)
    ensures side == s.Item(p).side && side == s.levels.SideOf(l) && side != NoSide && s.Item(p).price == s.levels.Price(l)
    ensures k < |s.levels.Ring(side)| && s.levels.Ring(side)[k] == l
    ensures j < |s.queues[l]| && s.queues[l][j] == p
    ensures s.nodes[p].prev == p <==> s.queues[l] == [p]
  {
    assert LocatedAt(s, lvls, p);
    l := s.LevelOf(p);
    assert QueueAt(s, ords, l);
    j :| 0 <= j < |s.queues[l]| && s.queues[l][j] == p;
    assert Belongs(s, ords, l, s.queues[l][j]);
    side := s.Item(p).side;
    k := HouseNumber(s.levels, lvls, l);
    assert LinkedAt(s.nodes, s.queues[l], j);
  }

  /** What deleting an order does to the reference queues of both sides. */
  predicate RemovesAs(s: Store, ords: set<int>, lvls: set<int>, s': Store, ords': set<int>, lvls': set<int>, o: Order)
    requires Readable(s, ords, lvls) && Readable(s', ords', lvls') && o.side != NoSide
  {
    && Removes(Rest(s, ords, lvls, o.side), Rest(s', ords', lvls', o.side), o)
    && Rest(s', ords', lvls', Opposite(o.side)) == Rest(s, ords, lvls, Opposite(o.side))
  }

  lemma BelongsInUse(s: Store, ords: set<int>, l: int)
    requires QueueAt(s, ords, l)
    ensures forall i :: 0 <= i < |s.queues[l]| ==> s.queues[l][i] in ords
  {
    forall i | 0 <= i < |s.queues[l]|
      ensures s.queues[l][i] in ords
    {
      assert Belongs(s, ords, l, s.queues[l][i]);
    }
  }

  lemma MakeLeft(s: Store, s': Store, l: int, j: nat)
    requires s.levels.Block(l) && l in s.queues && IsRing(s.nodes, s.queues[l]) && |s.queues[l]| >= 2 && j < |s.queues[l]|
    requires s.queues[l][0] == s.levels.blocks[l].item.order0
    requires var p := s.queues[l][j];
             && s.Node(s.nodes[p].prev) && s.Node(s.nodes[p].next) && s.nodes[p].prev != p
             && s'.nodes == Bypass(s.nodes, p)[p := Node(s.nodes[p].item, NULL, NULL)]
             && s'.index == s.index - {s.Item(p).Key()}
             && s'.levels == s.levels.(blocks :=
                  if s.levels.blocks[l].item.order0 == p
                  then s.levels.blocks[l := s.levels.blocks[l].(item := s.levels.blocks[l].item.(order0 := s.nodes[p].next))]
                  else s.levels.blocks)
    requires s'.queues == s.queues[l := Without(s.queues[l], j)]
    ensures Left(s, s', l, j)
  {
    assert LinkedAt(s.nodes, s.queues[l], j);
  }

  lemma MakeClosed(s: Store, s': Store, side: Side, k: nat, l: int, p: int)
    requires SideRing(s.levels, side) && k < |s.levels.Ring(side)| && |s.levels.slots| > 0
    requires l in s.queues && s.queues[l] == [p] && s.Node(p)
    requires s'.nodes == s.nodes && s'.queues == s.queues - {l} && s'.index == s.index - {s.Item(p).Key()}
    requires s'.levels == RemoveLevel(s.levels, side, k)
    ensures Closed(s, s', l, p)
  {
    RemoveLevelItems(s.levels, side, k);
  }

  lemma LeavingRests(s: Store, s': Store, ords: set<int>, ords': set<int>, lvls: set<int>, side: Side, k: nat, l: int, j: nat)
    requires SideParts(s, ords, lvls, side) && Indexed(s, ords) && Readable(s, ords, lvls)
    requires k < |s.levels.Ring(side)| && s.levels.Ring(side)[k] == l && s.levels.Block(l) && s.levels.SideOf(l) == side
    requires Readable(s', ords', lvls) && s'.levels.bids == s.levels.bids && s'.levels.asks == s.levels.asks
    requires l in s.queues && j < |s.queues[l]| && s'.queues == s.queues[l := Without(s.queues[l], j)]
    requires |s'.nodes| == |s.nodes| && forall x :: 0 <= x < |s.nodes| ==> s'.nodes[x].item == s.nodes[x].item
    requires s.Node(s.queues[l][j]) && s.Item(s.queues[l][j]).side == side
    ensures RemovesAs(s, ords, lvls, s', ords', lvls, s.Item(s.queues[l][j]))
  {
    LeaveRest(s, s', ords, ords', lvls, side, k, j);
    OtherRest(s, s', ords, ords', lvls, lvls, Opposite(side), l);
  }

  lemma LeavingSound(s: Store, s': Store, ords: set<int>, ords': set<int>, lvls: set<int>, side: Side, k: nat, l: int, j: nat)
    requires StoreValid(s, ords, lvls) && l in lvls && Left(s, s', l, j) && ords' == ords - {s.queues[l][j]}
    requires side != NoSide && k < |s.levels.Ring(side)| && s.levels.Ring(side)[k] == l
    requires s.levels.SideOf(l) == side && s.Node(s.queues[l][j]) && s.Item(s.queues[l][j]).side == side
    ensures StoreValid(s', ords', lvls)
    ensures RemovesAs(s, ords, lvls, s', ords', lvls, s.Item(s.queues[l][j]))
  {
    assert QueueAt(s, ords, l);
    LeaveQueue(s, s', ords, l, j);
    LeaveValid(s, s', ords, lvls, l, j);
    PartsOfStore(s, ords, lvls, side);
    LeavingRests(s, s', ords, ords', lvls, side, k, l, j);
  }

  lemma ClosingRests(s: Store, s': Store, ords: set<int>, ords': set<int>, lvls: set<int>, lvls': set<int>,
                     side: Side, k: nat, l: int, p: int)
    requires SideParts(s, ords, lvls, side) && Indexed(s, ords) && Readable(s, ords, lvls)
    requires k < |s.levels.Ring(side)| && s.levels.Ring(side)[k] == l && s.levels.Block(l) && s.levels.SideOf(l) == side
    requires Readable(s', ords', lvls') && ords' == ords - {p} && lvls' == lvls - {l}
    requires s'.levels.Ring(side) == Without(s.levels.Ring(side), k)
    requires s'.levels.Ring(Opposite(side)) == s.levels.Ring(Opposite(side))
    requires Closed(s, s', l, p) && s.Item(p).side == side
    ensures RemovesAs(s, ords, lvls, s', ords', lvls', s.Item(p))
  {
    CloseRest(s, s', ords, lvls, side, k, p);
    OtherRest(s, s', ords, ords', lvls, lvls', Opposite(side), l);
  }

  lemma ClosingSound(s: Store, s': Store, ords: set<int>, ords': set<int>, lvls: set<int>, lvls': set<int>,
                     side: Side, k: nat, l: int, p: int)
    requires StoreValid(s, ords, lvls) && l in lvls && Closed(s, s', l, p) && LevelsValid(s'.levels, lvls')
    requires ords' == ords - {p} && lvls' == lvls - {l}
    requires side != NoSide && k < |s.levels.Ring(side)| && s.levels.Ring(side)[k] == l
    requires s.levels.Block(l) && s.levels.SideOf(l) == side && s.Item(p).side == side
    requires s'.levels.Ring(side) == Without(s.levels.Ring(side), k)
    requires s'.levels.Ring(Opposite(side)) == s.levels.Ring(Opposite(side))
    ensures StoreValid(s', ords', lvls')
    ensures RemovesAs(s, ords, lvls, s', ords', lvls', s.Item(p))
  {
    CloseValid(s, s', ords, lvls, l, p);
    PartsOfStore(s, ords, lvls, side);
    ClosingRests(s, s', ords, ords', lvls, lvls', side, k, l, p);
  }

  lemma RequantifySound(s: Store, s': Store, ords: set<int>, lvls: set<int>, side: Side, p: int, qty: nat)
    requires StoreValid(s, ords, lvls) && Requantified(s, s', p, qty) && Readable(s, ords, lvls)
    requires side != NoSide && s.levels.Ring(side) != [] && s.levels.Ring(side)[0] in s.queues
    requires s.queues[s.levels.Ring(side)[0]] != [] && s.queues[s.levels.Ring(side)[0]][0] == p
    ensures StoreValid(s', ords, lvls)
    ensures Rest(s, ords, lvls, side) != [] && Rest(s, ords, lvls, side)[0] == s.Item(p)
    ensures Rest(s', ords, lvls, side) == [s.Item(p).(qty := qty)] + Rest(s, ords, lvls, side)[1..]
    ensures Rest(s', ords, lvls, Opposite(side)) == Rest(s, ords, lvls, Opposite(side))
  {
    RequantifyValid(s, s', ords, lvls, p, qty);
    PartsOfStore(s, ords, lvls, side);
    HeadOfSide(s, ords, lvls, side);
    RequantifyRest(s, s', ords, lvls, side, qty);
    HeadSide(s, ords, lvls, side, p);
    RequantifyOtherRest(s, s', ords, lvls, Opposite(side), p, qty);
  }

  lemma HeadSide(s: Store, ords: set<int>, lvls: set<int>, side: Side, p: int)
    requires Queues(s, ords, lvls) && RingMembers(s.levels, lvls, side) && s.levels.Ring(side) != []
    requires s.levels.Ring(side)[0] in s.queues && s.queues[s.levels.Ring(side)[0]] != []
    requires s.queues[s.levels.Ring(side)[0]][0] == p && s.Node(p)
    ensures s.Item(p).side == side
  {
    var l := s.levels.Ring(side)[0];
    assert OnSide(s.levels, lvls, side, l);
    assert QueueAt(s, ords, l);
    assert Belongs(s, ords, l, s.queues[l][0]);
  }

  /** A book of no levels and no orders is sound. */
  lemma EmptySound(s: Store)
    requires s.levels.bids == [] && s.levels.asks == [] && s.levels.bestBid == NULL && s.levels.bestAsk == NULL
    requires |s.levels.slots| > 0 && forall i :: 0 <= i < |s.levels.slots| ==> s.levels.slots[i] == NULL
    requires s.queues == map[] && s.index == map[]
    ensures StoreValid(s, {}, {}) && Readable(s, {}, {})
    ensures Rest(s, {}, {}, Buy) == [] && Rest(s, {}, {}, Sell) == []
  {
  }
}
