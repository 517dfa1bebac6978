/** The linked limit order book, as the source builds it: two pools of blocks, a ring of price
    levels a side, a ring of orders a level, the price array and the client map. */
module LinkedBook {
  import opened Exchange
  import opened Pools
  import opened Ring
  import opened PriceIndex
  import opened PriceTimeBook
  import opened BookInvariant
  import opened PriceLevels
  import opened RestingOrders
  import opened QueueChanges
  import opened QueueViews
  import opened OrderMoves
  import opened Allocation
  import opened Soundness
  import opened Lookups

  /** The engine's two output queues, as the book sees them: what has been pushed so far, oldest
      first. Both queues are taken to have room; the source only logs a failed push. */
  class MatchingEngineOutput {
    var clientResponses: seq<Response>
    var marketUpdates: seq<Update>

    constructor ()
      ensures clientResponses == [] && marketUpdates == []
    {
      clientResponses, marketUpdates := [], [];
    }

    method DispatchClientResponse(response: Response)
      modifies this
      ensures clientResponses == old(clientResponses) + [response] && marketUpdates == old(marketUpdates)
    {
      clientResponses := clientResponses + [response];
    }

    method PublishMarketUpdate(update: Update)
      modifies this
      ensures marketUpdates == old(marketUpdates) + [update] && clientResponses == old(clientResponses)
    {
      marketUpdates := marketUpdates + [update];
    }
  }

  class OrderBook {
    const ome: MatchingEngineOutput
    const maxClients: nat
    const maxOrderIds: nat
    const orderPool: MemoryPool<OrderNode>
    const ordersAtPricePool: MemoryPool<LevelNode>
    const mapPriceToPriceLevel: array<int>
    var mapClientIdToOrder: map<(nat, nat), int>
    var bidsByPrice: int
    var asksByPrice: int
    var nextMarketOid: nat

    // The rings: the levels of each side from the best, and the orders of each level from the oldest.
    ghost var bidLevels: seq<int>
    ghost var askLevels: seq<int>
    ghost var queues: map<int, seq<int>>

    /** An empty book. */
    constructor (ome: MatchingEngineOutput, limits: Limits)
      requires limits.levels > 0 && limits.orders > 0
      ensures Valid() && Contents() == EMPTY_BOOK
      ensures this.ome == ome && Bounds() == limits
      ensures fresh(orderPool) && fresh(orderPool.memoryBlocks) && fresh(mapPriceToPriceLevel)
      ensures fresh(ordersAtPricePool) && fresh(ordersAtPricePool.memoryBlocks)
    {
      var order := Order(0, 0, 0, 0, NoSide, 0, 0, 0);
      orderPool := new MemoryPool<OrderNode>(limits.orders, Node(order, NULL, NULL));
      ordersAtPricePool := new MemoryPool<LevelNode>(limits.levels, Node(Level(NoSide, 0, NULL), NULL, NULL));
      mapPriceToPriceLevel := new int[limits.levels](_ => NULL);
      mapClientIdToOrder := map[];
      bidsByPrice, asksByPrice, nextMarketOid := NULL, NULL, 1;
      this.ome, maxClients, maxOrderIds := ome, limits.clients, limits.orderIds;
      bidLevels, askLevels, queues := [], [], map[];
      new;
      EmptyIsValid();
    }

    lemma EmptyIsValid()
      requires PoolsOk() && orderPool.used == {} && ordersAtPricePool.used == {} && mapPriceToPriceLevel.Length > 0
      requires bidsByPrice == asksByPrice == NULL && bidLevels == askLevels == [] && nextMarketOid == 1
      requires queues == map[] && mapClientIdToOrder == map[]
      requires forall i :: 0 <= i < mapPriceToPriceLevel.Length ==> mapPriceToPriceLevel[i] == NULL
      ensures Valid() && Contents() == EMPTY_BOOK
    {
      EmptySound(State());
      assert Linked() && SideQueue(Buy) == [] && SideQueue(Sell) == [];
    }

    /** The sizes of the price array, the client map and the order pool. */
    ghost function Bounds(): Limits
      reads orderPool`cells
    {
      Limits(mapPriceToPriceLevel.Length, maxClients, maxOrderIds, |orderPool.cells|)
    }

    ghost function Footprint(): set<object> {
      {this, orderPool, orderPool.memoryBlocks, ordersAtPricePool, ordersAtPricePool.memoryBlocks, mapPriceToPriceLevel}
    }

    ghost predicate Separate() {
      && ome as object !in Footprint()
      && orderPool as object != ordersAtPricePool as object
      && orderPool.memoryBlocks as object != ordersAtPricePool.memoryBlocks as object
      && mapPriceToPriceLevel as object != orderPool.memoryBlocks as object
      && mapPriceToPriceLevel as object != ordersAtPricePool.memoryBlocks as object
    }

    ghost function Levels(): View
      reads this`bidsByPrice, this`asksByPrice, this`bidLevels, this`askLevels
      reads ordersAtPricePool`cells, mapPriceToPriceLevel
    {
      View(ordersAtPricePool.cells, mapPriceToPriceLevel[..], bidsByPrice, asksByPrice, bidLevels, askLevels)
    }

    ghost predicate LevelPoolOk()
      reads ordersAtPricePool, ordersAtPricePool.memoryBlocks
    {
      Separate() && ordersAtPricePool.Valid() && mapPriceToPriceLevel.Length == |ordersAtPricePool.cells|
    }

    // ----- price levels

    /** Splices level l in behind target: the source's "insert after" branch. */
    method LinkAfter(l: int, target: int, ghost r: seq<int>, ghost k: nat)
      requires ordersAtPricePool.Valid()
      requires IsRing(ordersAtPricePool.cells, r) && k < |r| && r[k] == target && l !in r
      requires l in ordersAtPricePool.used && forall i :: 0 <= i < |r| ==> r[i] in ordersAtPricePool.used
      modifies ordersAtPricePool, ordersAtPricePool.memoryBlocks
      ensures ordersAtPricePool.Valid() && ordersAtPricePool.used == old(ordersAtPricePool.used)
      ensures |ordersAtPricePool.cells| == |old(ordersAtPricePool.cells)|
      ensures IsRing(ordersAtPricePool.cells, With(r, k + 1, l))
      ensures forall m :: 0 <= m < |ordersAtPricePool.cells| ==> ordersAtPricePool.cells[m].item == old(ordersAtPricePool.cells)[m].item
      ensures forall m :: 0 <= m < |ordersAtPricePool.cells| && m != l && m !in r ==>
                ordersAtPricePool.cells[m] == old(ordersAtPricePool.cells)[m]
    {
      ghost var cells := ordersAtPricePool.cells;
      assert LinkedAt(cells, r, k);
      ghost var k' := Succ(k, |r|);
      assert LinkedAt(cells, r, k');
      var next := ordersAtPricePool.Load(target).next;
      ordersAtPricePool.Store(l, Node(ordersAtPricePool.Load(l).item, target, next));
      ordersAtPricePool.Store(next, ordersAtPricePool.Load(next).(prev := l));
      ordersAtPricePool.Store(target, ordersAtPricePool.Load(target).(next := l));
      SetsCommute(cells[l := Node(cells[l].item, target, next)], next, l, target, l);
      assert ordersAtPricePool.cells == SpliceBefore(cells, l, r[k']);
      RingSplice(cells, r, k', l);
      if k' != 0 { assert With(r, k', l) == With(r, k + 1, l); }
    }

    /** Splices level l in before target; before the head that is the end of the ring. */
    method LinkBefore(l: int, target: int, ghost r: seq<int>, ghost k: nat)
      requires ordersAtPricePool.Valid()
      requires IsRing(ordersAtPricePool.cells, r) && k < |r| && r[k] == target && l !in r
      requires l in ordersAtPricePool.used && forall i :: 0 <= i < |r| ==> r[i] in ordersAtPricePool.used
      modifies ordersAtPricePool, ordersAtPricePool.memoryBlocks
      ensures ordersAtPricePool.Valid() && ordersAtPricePool.used == old(ordersAtPricePool.used)
      ensures |ordersAtPricePool.cells| == |old(ordersAtPricePool.cells)|
      ensures IsRing(ordersAtPricePool.cells, With(r, if k == 0 then |r| else k, l))
      ensures forall m :: 0 <= m < |ordersAtPricePool.cells| ==> ordersAtPricePool.cells[m].item == old(ordersAtPricePool.cells)[m].item
      ensures forall m :: 0 <= m < |ordersAtPricePool.cells| && m != l && m !in r ==>
                ordersAtPricePool.cells[m] == old(ordersAtPricePool.cells)[m]
    {
      ghost var cells := ordersAtPricePool.cells;
      assert LinkedAt(cells, r, k);
      var before := ordersAtPricePool.Load(target).prev;
      ordersAtPricePool.Store(l, Node(ordersAtPricePool.Load(l).item, before, target));
      ordersAtPricePool.Store(before, ordersAtPricePool.Load(before).(next := l));
      ordersAtPricePool.Store(target, ordersAtPricePool.Load(target).(prev := l));
      assert ordersAtPricePool.cells == SpliceBefore(cells, l, target);
      RingSplice(cells, r, k, l);
    }

    /** The walk of addPriceLevel: to the first level that is not better than the price, or all
        the way round to the head when every level is better. */
    method FindTarget(side: Side, price: int) returns (target: int, shouldAddAfter: bool, ghost k: nat)
      requires ordersAtPricePool.Valid()
      requires SideRing(Levels(), side) && Levels().Ring(side) != []
      requires forall i :: 0 <= i < |Levels().Ring(side)| ==> Levels().Ring(side)[i] in ordersAtPricePool.used
      ensures k <= |Levels().Ring(side)| && (shouldAddAfter <==> k == |Levels().Ring(side)|)
      ensures forall i :: 0 <= i < k ==> Improves(side, Levels().Price(Levels().Ring(side)[i]), price)
      ensures k < |Levels().Ring(side)| ==> !Improves(side, Levels().Price(Levels().Ring(side)[k]), price)
      ensures target == Levels().Ring(side)[if shouldAddAfter then 0 else k]
    {
      ghost var v, r := Levels(), Levels().Ring(side);
      var best := if side == Buy then bidsByPrice else asksByPrice;
      target := best;
      shouldAddAfter := Improves(side, ordersAtPricePool.Load(target).item.price, price);
      k := 0;
      if shouldAddAfter {
        while true
          invariant 0 <= k < |r| && target == r[k]
          invariant forall i :: 0 <= i <= k ==> Improves(side, v.Price(r[i]), price)
          decreases |r| - k
        {
          assert LinkedAt(v.blocks, r, k);
          target := ordersAtPricePool.Load(target).next;
          shouldAddAfter := Improves(side, ordersAtPricePool.Load(target).item.price, price);
          k := k + 1;
          if !(shouldAddAfter && target != best) {
            break;
          }
        }
      }
    }

    /** The first level of a side: alone on its ring, and the best. */
    method StartSide(l: int, side: Side)
      requires LevelPoolOk() && l in ordersAtPricePool.used && side != NoSide
      requires Levels().Ring(side) == []
      modifies this`bidsByPrice, this`asksByPrice, this`bidLevels, this`askLevels
      modifies ordersAtPricePool, ordersAtPricePool.memoryBlocks
      ensures LevelPoolOk() && ordersAtPricePool.used == old(ordersAtPricePool.used)
      ensures Spliced(old(Levels()), Levels(), side, l, 0)
    {
      ordersAtPricePool.Store(l, Node(ordersAtPricePool.Load(l).item, l, l));
      if side == Buy {
        bidsByPrice, bidLevels := l, [l];
      } else {
        asksByPrice, askLevels := l, [l];
      }
      RingSingle(ordersAtPricePool.cells, l);
    }

    /** Puts level l behind a level of its side's ring. */
    method InsertAfter(l: int, side: Side, target: int, ghost k: nat, ghost place: nat)
      requires LevelPoolOk() && l in ordersAtPricePool.used && side != NoSide
      requires Levels().Ring(side) != [] && SideRing(Levels(), side) && l !in Levels().Ring(side)
      requires k < |Levels().Ring(side)| && target == Levels().Ring(side)[k] && place == k + 1
      requires forall i :: 0 <= i < |Levels().Ring(side)| ==> Levels().Ring(side)[i] in ordersAtPricePool.used
      modifies this`bidLevels, this`askLevels
      modifies ordersAtPricePool, ordersAtPricePool.memoryBlocks
      ensures LevelPoolOk() && ordersAtPricePool.used == old(ordersAtPricePool.used)
      ensures Spliced(old(Levels()), Levels(), side, l, place)
    {
      ghost var r := Levels().Ring(side);
      LinkAfter(l, target, r, k);
      if side == Buy { bidLevels := With(r, place, l); } else { askLevels := With(r, place, l); }
    }

    /** Puts level l before a level of its side's ring; before the head only as the new best. */
    method InsertBefore(l: int, side: Side, target: int, ghost k: nat)
      requires LevelPoolOk() && l in ordersAtPricePool.used && side != NoSide
      requires ordersAtPricePool.cells[l].item.side == side
      requires Levels().Ring(side) != [] && SideRing(Levels(), side) && l !in Levels().Ring(side)
      requires k < |Levels().Ring(side)| && target == Levels().Ring(side)[k]
      requires forall i :: 0 <= i < |Levels().Ring(side)| ==> Levels().Ring(side)[i] in ordersAtPricePool.used
      requires k == 0 <==> Improves(side, ordersAtPricePool.cells[l].item.price, Levels().Price(Levels().Ring(side)[0]))
      modifies this`bidsByPrice, this`asksByPrice, this`bidLevels, this`askLevels
      modifies ordersAtPricePool, ordersAtPricePool.memoryBlocks
      ensures LevelPoolOk() && ordersAtPricePool.used == old(ordersAtPricePool.used)
      ensures Spliced(old(Levels()), Levels(), side, l, k)
    {
      ghost var r := Levels().Ring(side);
      LinkBefore(l, target, r, k);
      if k == 0 {
        assert With(r, |r|, l) == r + [l] && With(r, 0, l) == [l] + r;
        RingRotate(ordersAtPricePool.cells, r, l);
      }
      if side == Buy { bidLevels := With(r, k, l); } else { askLevels := With(r, k, l); }
      var price := ordersAtPricePool.Load(l).item.price;
      var best := if side == Buy then bidsByPrice else asksByPrice;
      if Improves(side, price, ordersAtPricePool.Load(best).item.price) {
        if side == Buy { bidsByPrice := l; } else { asksByPrice := l; }
      }
    }

    /** Puts level l behind or before a level of its side's ring. */
    method InsertNextTo(l: int, side: Side, target: int, shouldAddAfter: bool, ghost k: nat, ghost place: nat)
      requires LevelPoolOk() && l in ordersAtPricePool.used && side != NoSide
      requires ordersAtPricePool.cells[l].item.side == side
      requires Levels().Ring(side) != [] && SideRing(Levels(), side) && l !in Levels().Ring(side)
      requires k < |Levels().Ring(side)| && target == Levels().Ring(side)[k]
      requires place == if shouldAddAfter then k + 1 else k
      requires forall i :: 0 <= i < |Levels().Ring(side)| ==> Levels().Ring(side)[i] in ordersAtPricePool.used
      requires !shouldAddAfter ==>
                 (k == 0 <==> Improves(side, ordersAtPricePool.cells[l].item.price, Levels().Price(Levels().Ring(side)[0])))
      modifies this`bidsByPrice, this`asksByPrice, this`bidLevels, this`askLevels
      modifies ordersAtPricePool, ordersAtPricePool.memoryBlocks
      ensures LevelPoolOk() && ordersAtPricePool.used == old(ordersAtPricePool.used)
      ensures Spliced(old(Levels()), Levels(), side, l, place)
    {
      if shouldAddAfter {
        InsertAfter(l, side, target, k, place);
      } else {
        InsertBefore(l, side, target, k);
      }
    }

    /** A level that is allocated and filled in, and waits to be put on the ring of its side. */
    ghost predicate Pending(l: int, side: Side)
      reads this`bidsByPrice, this`asksByPrice, this`bidLevels, this`askLevels
      reads ordersAtPricePool, ordersAtPricePool.memoryBlocks, mapPriceToPriceLevel
    {
      && LevelPoolOk() && l in ordersAtPricePool.used && side != NoSide
      && LevelsValid(Levels(), ordersAtPricePool.used - {l})
      && Newcomer(Levels(), ordersAtPricePool.used - {l}, side, l)
    }

    /** Links a level into the ring of its side. The source inserts right behind the head when the
        price is worse than every level (see PlaceOnRingAsWritten); here that case goes behind the
        last level, head.prev_. */
    method PlaceOnRing(l: int, side: Side)
      requires LevelPoolOk() && l in ordersAtPricePool.used && side != NoSide
      requires SideRing(Levels(), side) && l !in Levels().Ring(side)
      requires Levels().SideOf(l) == side
      requires forall i :: 0 <= i < |Levels().Ring(side)| ==>
                 Levels().Ring(side)[i] in ordersAtPricePool.used && Levels().Price(Levels().Ring(side)[i]) != Levels().Price(l)
      modifies this`bidsByPrice, this`asksByPrice, this`bidLevels, this`askLevels
      modifies ordersAtPricePool, ordersAtPricePool.memoryBlocks
      ensures LevelPoolOk() && ordersAtPricePool.used == old(ordersAtPricePool.used)
      ensures var v := old(Levels());
              Spliced(v, Levels(), side, l, LevelPlace(v, side, v.Price(l), v.Ring(side)))
    {
      ghost var v := Levels();
      ghost var r := v.Ring(side);
      var best := if side == Buy then bidsByPrice else asksByPrice;
      if best == NULL {
        StartSide(l, side);
      } else {
        var price := ordersAtPricePool.Load(l).item.price;
        var target, shouldAddAfter;
        ghost var k;
        target, shouldAddAfter, k := FindTarget(side, price);
        PlaceIsFirst(v, side, price, r, k);
        if shouldAddAfter {
          assert LinkedAt(v.blocks, r, 0);
          target := ordersAtPricePool.Load(target).prev;
          InsertNextTo(l, side, target, true, |r| - 1, k);
        } else {
          InsertNextTo(l, side, target, false, k, k);
        }
      }
    }

    /** Links a level into the ring of its side as the source does: when the walk comes back to the
        head, right behind the head. */
    method PlaceOnRingAsWritten(l: int, side: Side)
      requires LevelPoolOk() && l in ordersAtPricePool.used && side != NoSide
      requires SideRing(Levels(), side) && l !in Levels().Ring(side)
      requires Levels().SideOf(l) == side
      requires forall i :: 0 <= i < |Levels().Ring(side)| ==>
                 Levels().Ring(side)[i] in ordersAtPricePool.used && Levels().Price(Levels().Ring(side)[i]) != Levels().Price(l)
      modifies this`bidsByPrice, this`asksByPrice, this`bidLevels, this`askLevels
      modifies ordersAtPricePool, ordersAtPricePool.memoryBlocks
      ensures LevelPoolOk() && ordersAtPricePool.used == old(ordersAtPricePool.used)
      ensures var v := old(Levels());
              Spliced(v, Levels(), side, l, AsWrittenPlace(v, side, v.Price(l), v.Ring(side)))
    {
      ghost var v := Levels();
      ghost var r := v.Ring(side);
      var best := if side == Buy then bidsByPrice else asksByPrice;
      if best == NULL {
        StartSide(l, side);
      } else {
        var price := ordersAtPricePool.Load(l).item.price;
        var target, shouldAddAfter;
        ghost var k;
        target, shouldAddAfter, k := FindTarget(side, price);
        PlaceIsFirst(v, side, price, r, k);
        InsertNextTo(l, side, target, shouldAddAfter, if shouldAddAfter then 0 else k, if shouldAddAfter then 1 else k);
      }
    }

    /** Adds a level to the price array and the ring of its side. The result is always sorted from
        the head. */
    method AddPriceLevel(l: int)
      requires LevelPoolOk() && l in ordersAtPricePool.used && Pending(l, Levels().SideOf(l))
      modifies this`bidsByPrice, this`asksByPrice, this`bidLevels, this`askLevels
      modifies ordersAtPricePool, ordersAtPricePool.memoryBlocks, mapPriceToPriceLevel
      ensures LevelPoolOk() && ordersAtPricePool.used == old(ordersAtPricePool.used)
      ensures var v := old(Levels());
              Placed(v, Levels(), v.SideOf(l), l, LevelPlace(v, v.SideOf(l), v.Price(l), v.Ring(v.SideOf(l))))
      ensures LevelsValid(Levels(), ordersAtPricePool.used)
      ensures forall m :: 0 <= m < |ordersAtPricePool.cells| ==> ordersAtPricePool.cells[m].item == old(ordersAtPricePool.cells)[m].item
    {
      ghost var v, live := Levels(), ordersAtPricePool.used - {l};
      assert live + {l} == ordersAtPricePool.used;
      var side, price := ordersAtPricePool.Load(l).item.side, ordersAtPricePool.Load(l).item.price;
      RingIsInUse(v, live, side);
      NoLevelAtPrice(v, live, side, l);
      mapPriceToPriceLevel[PriceToIndex(price, mapPriceToPriceLevel.Length)] := l;
      SlotsDoNotPlace(v, Levels(), side, price, v.Ring(side));
      ghost var v1 := Levels();
      PlaceOnRing(l, side);
      MakePlaced(v, v1, Levels(), side, l, LevelPlace(v, side, price, v.Ring(side)));
      AddLevelValid(v, Levels(), live, side, l);
    }

    /** The insertion as the source has it. Everything but the order of the side is kept, and the
        side stays sorted exactly when it had at most one level or the price is not worse than all. */
    method AddPriceLevelAsWritten(l: int)
      requires LevelPoolOk() && l in ordersAtPricePool.used && Pending(l, Levels().SideOf(l))
      modifies this`bidsByPrice, this`asksByPrice, this`bidLevels, this`askLevels
      modifies ordersAtPricePool, ordersAtPricePool.memoryBlocks, mapPriceToPriceLevel
      ensures LevelPoolOk() && ordersAtPricePool.used == old(ordersAtPricePool.used)
      ensures var v := old(Levels());
              Placed(v, Levels(), v.SideOf(l), l, AsWrittenPlace(v, v.SideOf(l), v.Price(l), v.Ring(v.SideOf(l))))
      ensures SlotsExact(Levels(), ordersAtPricePool.used) && SideSorted(Levels(), Opposite(old(Levels()).SideOf(l)))
      ensures var v := old(Levels());
              var r := v.Ring(v.SideOf(l));
              && (SideSorted(Levels(), v.SideOf(l)) <==> |r| <= 1 || !WorseThanAll(v, v.SideOf(l), v.Price(l), r))
              && (r != [] && WorseThanAll(v, v.SideOf(l), v.Price(l), r) ==> Levels().Ring(v.SideOf(l)) == [r[0], l] + r[1..])
    {
      ghost var v, live := Levels(), ordersAtPricePool.used - {l};
      assert live + {l} == ordersAtPricePool.used;
      var side, price := ordersAtPricePool.Load(l).item.side, ordersAtPricePool.Load(l).item.price;
      RingIsInUse(v, live, side);
      NoLevelAtPrice(v, live, side, l);
      mapPriceToPriceLevel[PriceToIndex(price, mapPriceToPriceLevel.Length)] := l;
      SlotsDoNotPlace(v, Levels(), side, price, v.Ring(side));
      ghost var v1 := Levels();
      PlaceOnRingAsWritten(l, side);
      MakePlaced(v, v1, Levels(), side, l, AsWrittenPlace(v, side, price, v.Ring(side)));
      AddLevelKeeps(v, Levels(), live, side, l, AsWrittenPlace(v, side, price, v.Ring(side)));
      AsWrittenSortedIff(v, Levels(), side, l);
    }

    /** Takes a level off its ring; if it was the best, the next one is. */
    method UnlinkLevel(level: int, side: Side, ghost k: nat)
      requires LevelPoolOk() && side != NoSide
      requires SideRing(Levels(), side) && k < |Levels().Ring(side)| && Levels().Ring(side)[k] == level
      requires forall i :: 0 <= i < |Levels().Ring(side)| ==> Levels().Ring(side)[i] in ordersAtPricePool.used
      modifies this`bidsByPrice, this`asksByPrice, this`bidLevels, this`askLevels
      modifies ordersAtPricePool, ordersAtPricePool.memoryBlocks
      ensures LevelPoolOk() && ordersAtPricePool.used == old(ordersAtPricePool.used)
      ensures Levels() == RemoveLevel(old(Levels()), side, k).(slots := old(Levels()).slots)
    {
      ghost var r := Levels().Ring(side);
      UnlinkRing(Levels(), side, k);
      assert LinkedAt(ordersAtPricePool.cells, r, k);
      var next := ordersAtPricePool.Load(level).next;
      if next == level {
        if side == Buy { bidsByPrice, bidLevels := NULL, []; } else { asksByPrice, askLevels := NULL, []; }
      } else {
        BypassLevel(level);
        if level == (if side == Buy then bidsByPrice else asksByPrice) {
          if side == Buy { bidsByPrice := next; } else { asksByPrice := next; }
        }
        if side == Buy { bidLevels := Without(r, k); } else { askLevels := Without(r, k); }
        ordersAtPricePool.Store(level, Node(ordersAtPricePool.Load(level).item, NULL, NULL));
      }
    }

    /** Links the neighbours of a level past it. */
    method BypassLevel(level: int)
      requires ordersAtPricePool.Valid() && level in ordersAtPricePool.used
      requires var node := ordersAtPricePool.cells[level];
               node.prev in ordersAtPricePool.used && node.next in ordersAtPricePool.used && node.prev != level && node.next != level
      modifies ordersAtPricePool, ordersAtPricePool.memoryBlocks
      ensures ordersAtPricePool.Valid() && ordersAtPricePool.used == old(ordersAtPricePool.used)
      ensures var node := old(ordersAtPricePool.cells)[level];
              && 0 <= node.prev < |old(ordersAtPricePool.cells)| && 0 <= node.next < |old(ordersAtPricePool.cells)|
              && ordersAtPricePool.cells == Bypass(old(ordersAtPricePool.cells), level)
    {
      var next, prev := ordersAtPricePool.Load(level).next, ordersAtPricePool.Load(level).prev;
      ordersAtPricePool.Store(prev, ordersAtPricePool.Load(prev).(next := next));
      ordersAtPricePool.Store(next, ordersAtPricePool.Load(next).(prev := prev));
    }

    /** Takes the level of this price off its ring and out of the price array, and frees its block. */
    method RemovePriceLevel(side: Side, price: int, ghost k: nat)
      requires LevelPoolOk() && LevelsValid(Levels(), ordersAtPricePool.used) && side != NoSide
      requires k < |Levels().Ring(side)| && Levels().Price(Levels().Ring(side)[k]) == price
      modifies this`bidsByPrice, this`asksByPrice, this`bidLevels, this`askLevels
      modifies ordersAtPricePool, ordersAtPricePool.memoryBlocks, mapPriceToPriceLevel
      ensures LevelPoolOk()
      ensures Levels() == RemoveLevel(old(Levels()), side, k)
      ensures ordersAtPricePool.used == old(ordersAtPricePool.used) - {old(Levels()).Ring(side)[k]}
      ensures LevelsValid(Levels(), ordersAtPricePool.used)
    {
      ghost var v, live := Levels(), ordersAtPricePool.used;
      RingIsInUse(v, live, side);
      var level := mapPriceToPriceLevel[PriceToIndex(price, mapPriceToPriceLevel.Length)];
      assert OwnsSlot(v, v.Ring(side)[k]);
      UnlinkLevel(level, side, k);
      mapPriceToPriceLevel[PriceToIndex(price, mapPriceToPriceLevel.Length)] := NULL;
      ordersAtPricePool.Deallocate(level);
      RemoveLevelValid(v, live, side, k);
    }

    // ----- orders

    ghost function State(): Store
      reads this`bidsByPrice, this`asksByPrice, this`bidLevels, this`askLevels
      reads this`mapClientIdToOrder, this`queues, orderPool`cells, ordersAtPricePool`cells, mapPriceToPriceLevel
    {
      Store(orderPool.cells, Levels(), mapClientIdToOrder, queues)
    }

    ghost predicate PoolsOk()
      reads orderPool, orderPool.memoryBlocks, ordersAtPricePool, ordersAtPricePool.memoryBlocks
    {
      LevelPoolOk() && orderPool.Valid()
    }

    /** Rings, price array, client map and pools agree: the blocks in use are exactly the levels and
        orders on the rings, each order is in the client map under its key, and nothing else is. */
    ghost predicate Linked()
      reads this`bidsByPrice, this`asksByPrice, this`bidLevels, this`askLevels, this`mapClientIdToOrder, this`queues
      reads orderPool, orderPool.memoryBlocks
      reads ordersAtPricePool, ordersAtPricePool.memoryBlocks, mapPriceToPriceLevel
    {
      PoolsOk() && StoreValid(State(), orderPool.used, ordersAtPricePool.used)
    }

    /** The resting orders of a side, as the rings hold them. */
    ghost function SideQueue(side: Side): seq<Order>
      requires Linked() && side != NoSide
      reads this`bidsByPrice, this`asksByPrice, this`bidLevels, this`askLevels, this`mapClientIdToOrder, this`queues
      reads orderPool, orderPool.memoryBlocks
      reads ordersAtPricePool, ordersAtPricePool.memoryBlocks, mapPriceToPriceLevel
    {
      Rest(State(), orderPool.used, ordersAtPricePool.used, side)
    }

    /** The reference book these structures stand for. */
    ghost function Contents(): Book
      requires Linked()
      reads Footprint()
    {
      Book(SideQueue(Buy), SideQueue(Sell), nextMarketOid)
    }

    ghost predicate Valid()
      reads Footprint()
    {
      Linked() && Inv(Contents()) && ClientsBelow(SideQueue(Buy), maxClients) && ClientsBelow(SideQueue(Sell), maxClients)
    }

    /** Order p is filled in but not yet in the book; the price array leads to no level, or to the
        level of its price on its own side. Its key need not be free. */
    ghost predicate PendingOrder(p: int)
      reads Footprint()
    {
      && PoolsOk() && p in orderPool.used && p < |orderPool.cells|
      && StoreValid(State(), orderPool.used - {p}, ordersAtPricePool.used)
      && Unplaced(State(), orderPool.used - {p}, p)
      && State().Item(p).side != NoSide
      && var l := State().LevelOf(p);
         l == NULL || (Levels().Block(l) && Levels().Price(l) == State().Item(p).price && Levels().SideOf(l) == State().Item(p).side)
    }

    /** The order becomes the last of the ring of its level, and the client map names it. */
    method JoinLevel(p: int, level: int, ghost ords: set<int>)
      requires PoolsOk() && p in orderPool.used && level in ordersAtPricePool.used && ords <= orderPool.used
      requires level in queues && QueueAt(State(), ords, level)
      modifies this`queues, this`mapClientIdToOrder, orderPool, orderPool.memoryBlocks
      ensures PoolsOk() && orderPool.used == old(orderPool.used)
      ensures Joined(old(State()), State(), level, p)
    {
      ghost var s := State();
      ghost var q := queues[level];
      assert LinkedAt(s.nodes, q, 0);
      var order := orderPool.Load(p).item;
      var firstOrder := ordersAtPricePool.Load(level).item.order0;
      assert Belongs(s, ords, level, q[0]);
      var last := orderPool.Load(firstOrder).prev;
      assert Belongs(s, ords, level, q[Pred(0, |q|)]);
      orderPool.Store(p, Node(order, last, firstOrder));
      orderPool.Store(last, orderPool.Load(last).(next := p));
      orderPool.Store(firstOrder, orderPool.Load(firstOrder).(prev := p));
      mapClientIdToOrder := mapClientIdToOrder[order.Key() := p];
      queues := queues[level := q + [p]];
      assert orderPool.cells == SpliceBefore(s.nodes, p, firstOrder);
    }

    /** A block for a new level. The pool has a free one: fewer levels are live than there are
        slots, because the slot of this price is empty. */
    method NewLevel(side: Side, price: int, p: int) returns (l: int)
      requires LevelPoolOk() && LevelsValid(Levels(), ordersAtPricePool.used) && side != NoSide
      requires Levels().slots[Levels().Slot(price)] == NULL
      modifies ordersAtPricePool, ordersAtPricePool.memoryBlocks
      ensures LevelPoolOk()
      ensures l !in old(ordersAtPricePool.used) && ordersAtPricePool.used == old(ordersAtPricePool.used) + {l}
      ensures 0 <= l < |old(Levels()).blocks|
      ensures Levels() == old(Levels()).(blocks := old(Levels()).blocks[l := Node(Level(side, price, p), NULL, NULL)])
      ensures Pending(l, side)
    {
      ghost var v, lvls := Levels(), ordersAtPricePool.used;
      LevelBlockIsFree(v, lvls, v.Slot(price));
      l := ordersAtPricePool.Allocate(Node(Level(side, price, p), NULL, NULL));
      assert ordersAtPricePool.used - {l} == lvls;
      TakenLevels(v, Levels(), lvls, l);
    }

    /** A new level with the order alone on it; the client map names the order. */
    method OpenLevel(p: int) returns (l: int)
      requires PoolsOk() && p in orderPool.used && p < |orderPool.cells|
      requires LevelsValid(Levels(), ordersAtPricePool.used)
      requires State().LevelOf(p) == NULL && State().Item(p).side != NoSide
      modifies this`mapClientIdToOrder, this`queues, this`bidsByPrice, this`asksByPrice, this`bidLevels, this`askLevels
      modifies orderPool, orderPool.memoryBlocks
      modifies ordersAtPricePool, ordersAtPricePool.memoryBlocks, mapPriceToPriceLevel
      ensures PoolsOk() && orderPool.used == old(orderPool.used)
      ensures l !in old(ordersAtPricePool.used) && ordersAtPricePool.used == old(ordersAtPricePool.used) + {l}
      ensures LevelsValid(Levels(), ordersAtPricePool.used)
      ensures OpenedAs(old(State()), State(), l, p)
    {
      ghost var s := State();
      var order := orderPool.Load(p).item;
      orderPool.Store(p, Node(order, p, p));
      l := NewLevel(order.side, order.price, p);
      mapClientIdToOrder := mapClientIdToOrder[order.Key() := p];
      queues := queues[l := [p]];
      ghost var taken := Levels();
      RingIsInUse(taken, ordersAtPricePool.used - {l}, order.side);
      AddPriceLevel(l);
      MakeOpened(s, State(), taken, l, p);
    }

    /** Rests an order at a level of its own. */
    method RestOnNewLevel(p: int)
      requires PendingOrder(p) && State().LevelOf(p) == NULL
      modifies this`mapClientIdToOrder, this`queues, this`bidsByPrice, this`asksByPrice, this`bidLevels, this`askLevels
      modifies orderPool, orderPool.memoryBlocks
      modifies ordersAtPricePool, ordersAtPricePool.memoryBlocks, mapPriceToPriceLevel
      ensures PoolsOk() && orderPool.used == old(orderPool.used)
      ensures PutToRest(old(State()), old(orderPool.used) - {p}, old(ordersAtPricePool.used),
                     State(), orderPool.used, ordersAtPricePool.used, p)
    {
      ghost var s, ords, lvls := State(), orderPool.used - {p}, ordersAtPricePool.used;
      assert ords + {p} == orderPool.used;
      var l := OpenLevel(p);
      OpeningSound(s, State(), ords, orderPool.used, lvls, ordersAtPricePool.used, l, p);
    }

    /** Rests an order behind the others at its price. */
    method RestOnLevel(p: int, priceLevel: int)
      requires PendingOrder(p) && State().LevelOf(p) == priceLevel && priceLevel != NULL
      modifies this`mapClientIdToOrder, this`queues, orderPool, orderPool.memoryBlocks
      ensures PoolsOk() && orderPool.used == old(orderPool.used)
      ensures PutToRest(old(State()), old(orderPool.used) - {p}, old(ordersAtPricePool.used),
                     State(), orderPool.used, ordersAtPricePool.used, p)
    {
      ghost var s, ords, lvls := State(), orderPool.used - {p}, ordersAtPricePool.used;
      assert ords + {p} == orderPool.used;
      SlotIsLive(s.levels, lvls, s.levels.Slot(s.Item(p).price));
      assert QueueAt(s, ords, priceLevel);
      JoinLevel(p, priceLevel, ords);
      JoiningSound(s, State(), ords, orderPool.used, lvls, priceLevel, p);
    }

    /** Rests an order: behind the others at its price, or at a new level. On its side this is
        Insert on the reference queue; the other side is untouched. The client map stays exact if
        the key of the order was free. */
    method AddOrderToBook(p: int)
      requires PendingOrder(p)
      modifies this`mapClientIdToOrder, this`queues, this`bidsByPrice, this`asksByPrice, this`bidLevels, this`askLevels
      modifies orderPool, orderPool.memoryBlocks
      modifies ordersAtPricePool, ordersAtPricePool.memoryBlocks, mapPriceToPriceLevel
      ensures PoolsOk() && orderPool.used == old(orderPool.used)
      ensures PutToRest(old(State()), old(orderPool.used) - {p}, old(ordersAtPricePool.used),
                     State(), orderPool.used, ordersAtPricePool.used, p)
    {
      var price := orderPool.Load(p).item.price;
      var priceLevel := mapPriceToPriceLevel[PriceToIndex(price, mapPriceToPriceLevel.Length)];
      if priceLevel == NULL {
        RestOnNewLevel(p);
      } else {
        RestOnLevel(p, priceLevel);
      }
    }

    /** Takes an order off its ring and clears its links. */
    method UnlinkOrder(p: int, ghost q: seq<int>, ghost j: nat)
      requires orderPool.Valid() && IsRing(orderPool.cells, q) && |q| >= 2
      requires j < |q| && q[j] == p && forall i :: 0 <= i < |q| ==> q[i] in orderPool.used
      modifies orderPool, orderPool.memoryBlocks
      ensures orderPool.Valid() && orderPool.used == old(orderPool.used)
      ensures var ns := old(orderPool.cells);
              && 0 <= ns[p].prev < |ns| && 0 <= ns[p].next < |ns| && ns[p].prev != p
              && orderPool.cells == Bypass(ns, p)[p := Node(ns[p].item, NULL, NULL)]
    {
      ghost var ns := orderPool.cells;
      RingBypass(ns, q, j);
      assert LinkedAt(ns, q, j);
      var order := orderPool.Load(p);
      orderPool.Store(order.prev, orderPool.Load(order.prev).(next := order.next));
      orderPool.Store(order.next, orderPool.Load(order.next).(prev := order.prev));
      orderPool.Store(p, Node(orderPool.Load(p).item, NULL, NULL));
    }

    /** Takes an order off its level, which keeps others, out of the client map, and frees its block.
        If it was the first, the next order becomes the first. */
    method LeaveLevel(p: int, level: int, ghost j: nat)
      requires PoolsOk() && p in orderPool.used && level in ordersAtPricePool.used
      requires QueueAt(State(), orderPool.used, level) && |queues[level]| >= 2
      requires j < |queues[level]| && queues[level][j] == p
      modifies this`queues, this`mapClientIdToOrder, orderPool, orderPool.memoryBlocks
      modifies ordersAtPricePool, ordersAtPricePool.memoryBlocks
      ensures PoolsOk() && orderPool.used == old(orderPool.used) - {p} && ordersAtPricePool.used == old(ordersAtPricePool.used)
      ensures Left(old(State()), State(), level, j)
    {
      ghost var s := State();
      ghost var q := queues[level];
      BelongsInUse(s, orderPool.used, level);
      assert LinkedAt(s.nodes, q, j);
      var order := orderPool.Load(p);
      var ordersAtPrice := ordersAtPricePool.Load(level);
      UnlinkOrder(p, q, j);
      if ordersAtPrice.item.order0 == p {
        ordersAtPricePool.Store(level, ordersAtPrice.(item := ordersAtPrice.item.(order0 := order.next)));
      }
      queues := queues[level := Without(q, j)];
      ForgetOrder(p);
      MakeLeft(s, State(), level, j);
    }

    /** Takes an order out of the client map and frees its block. */
    method ForgetOrder(p: int)
      requires orderPool.Valid() && p in orderPool.used && p < |orderPool.cells|
      modifies this`mapClientIdToOrder, orderPool, orderPool.memoryBlocks
      ensures orderPool.Valid() && orderPool.used == old(orderPool.used) - {p} && orderPool.cells == old(orderPool.cells)
      ensures mapClientIdToOrder == old(mapClientIdToOrder) - {orderPool.cells[p].item.Key()}
    {
      var order := orderPool.Load(p).item;
      mapClientIdToOrder := mapClientIdToOrder - {order.Key()};
      orderPool.Deallocate(p);
    }

    /** Removes a level together with its only order. */
    method CloseLevel(p: int, ghost l: int, ghost k: nat)
      requires PoolsOk() && p in orderPool.used && LevelsValid(Levels(), ordersAtPricePool.used)
      requires l in queues && queues[l] == [p] && State().Node(p) && State().Item(p).side != NoSide
      requires var side := State().Item(p).side;
               k < |Levels().Ring(side)| && Levels().Ring(side)[k] == l && Levels().Price(l) == State().Item(p).price
      modifies this`mapClientIdToOrder, this`queues, this`bidsByPrice, this`asksByPrice, this`bidLevels, this`askLevels
      modifies orderPool, orderPool.memoryBlocks
      modifies ordersAtPricePool, ordersAtPricePool.memoryBlocks, mapPriceToPriceLevel
      ensures PoolsOk() && orderPool.used == old(orderPool.used) - {p}
      ensures ordersAtPricePool.used == old(ordersAtPricePool.used) - {l}
      ensures LevelsValid(Levels(), ordersAtPricePool.used)
      ensures Closed(old(State()), State(), l, p)
      ensures Levels().Ring(old(State()).Item(p).side) == Without(old(Levels()).Ring(old(State()).Item(p).side), k)
      ensures Levels().Ring(Opposite(old(State()).Item(p).side)) == old(Levels()).Ring(Opposite(old(State()).Item(p).side))
    {
      var order := orderPool.Load(p).item;
      ghost var s := State();
      queues := queues - {l};
      RemovePriceLevel(order.side, order.price, k);
      ForgetOrder(p);
      MakeClosed(s, State(), order.side, k, l, p);
    }

    /** Deletes an order from the book. On its side this is Remove on the reference queue; the other
        side is untouched, and its block and its client map entry are free again. */
    method RemoveOrderFromBook(p: int)
      requires Linked() && p in orderPool.used
      modifies this`mapClientIdToOrder, this`queues, this`bidsByPrice, this`asksByPrice, this`bidLevels, this`askLevels
      modifies orderPool, orderPool.memoryBlocks
      modifies ordersAtPricePool, ordersAtPricePool.memoryBlocks, mapPriceToPriceLevel
      ensures Linked() && orderPool.used == old(orderPool.used) - {p}
      ensures old(State()).Node(p) && old(State()).Item(p).side != NoSide
      ensures RemovesAs(old(State()), old(orderPool.used), old(ordersAtPricePool.used),
                        State(), orderPool.used, ordersAtPricePool.used, old(State()).Item(p))
    {
      ghost var s, ords, lvls := State(), orderPool.used, ordersAtPricePool.used;
      ghost var l, side, k, j := OrderPlace(s, ords, lvls, p);
      var order := orderPool.Load(p);
      if order.prev == p {
        CloseLevel(p, l, k);
        ClosingSound(s, State(), ords, orderPool.used, lvls, ordersAtPricePool.used, side, k, l, p);
      } else {
        var ordersAtPrice := mapPriceToPriceLevel[PriceToIndex(order.item.price, mapPriceToPriceLevel.Length)];
        LeaveLevel(p, ordersAtPrice, j);
        LeavingSound(s, State(), ords, orderPool.used, lvls, side, k, l, j);
      }
    }

    // ----- matching

    /** Order p is the first order of the best level of a side. */
    ghost predicate IsHead(p: int, side: Side)
      reads Footprint()
    {
      && Levels().Ring(side) != [] && Levels().Ring(side)[0] in queues
      && queues[Levels().Ring(side)[0]] != [] && queues[Levels().Ring(side)[0]][0] == p
    }

    /** The first order of the best level of a side is the head of its queue. */
    lemma FirstOrder(p: int, side: Side)
      requires Linked() && side != NoSide && SideQueue(side) != []
      requires IsHead(p, side)
      ensures p in orderPool.used && 0 <= p < |orderPool.cells| && orderPool.cells[p].item == SideQueue(side)[0]
      ensures orderPool.cells[p].item.side == side
    {
      PartsOfStore(State(), orderPool.used, ordersAtPricePool.used, side);
      HeadOfSide(State(), orderPool.used, ordersAtPricePool.used, side);
      HeadSide(State(), orderPool.used, ordersAtPricePool.used, side, p);
    }

    /** Takes the head of a side off the book. */
    method RemoveHead(p: int, ghost side: Side)
      requires Linked() && side != NoSide && SideQueue(side) != []
      requires p in orderPool.used && 0 <= p < |orderPool.cells| && orderPool.cells[p].item == SideQueue(side)[0]
      requires orderPool.cells[p].item.side == side
      modifies this`mapClientIdToOrder, this`queues, this`bidsByPrice, this`asksByPrice, this`bidLevels, this`askLevels
      modifies orderPool, orderPool.memoryBlocks
      modifies ordersAtPricePool, ordersAtPricePool.memoryBlocks, mapPriceToPriceLevel
      ensures Linked() && orderPool.used <= old(orderPool.used)
      ensures SideQueue(side) == old(SideQueue(side))[1..]
      ensures SideQueue(Opposite(side)) == old(SideQueue(Opposite(side)))
    {
      ghost var q := SideQueue(side);
      RemoveOrderFromBook(p);
      assert Remove(q, q[0].Key()) == q[1..];
    }

    /** Writes the quantity of an order. */
    method SetQty(p: int, qty: nat)
      requires PoolsOk() && p in orderPool.used
      modifies orderPool, orderPool.memoryBlocks
      ensures PoolsOk() && orderPool.used == old(orderPool.used)
      ensures Requantified(old(State()), State(), p, qty)
    {
      var node := orderPool.Load(p);
      orderPool.Store(p, node.(item := node.item.(qty := qty)));
    }

    /** Lowers the quantity of the first order of the best level of a side. */
    method SetHeadQty(p: int, ghost side: Side, qty: nat)
      requires Linked() && side != NoSide && SideQueue(side) != []
      requires IsHead(p, side)
      modifies orderPool, orderPool.memoryBlocks
      ensures Linked() && orderPool.used == old(orderPool.used)
      ensures IsHead(p, side)
      ensures SideQueue(side) == [old(SideQueue(side))[0].(qty := qty)] + old(SideQueue(side))[1..]
      ensures SideQueue(Opposite(side)) == old(SideQueue(Opposite(side)))
    {
      ghost var s := State();
      FirstOrder(p, side);
      SetQty(p, qty);
      RequantifySound(s, State(), orderPool.used, ordersAtPricePool.used, side, p, qty);
    }

    /** Lowers the first order of a side by a fill; an order left with nothing leaves the book. */
    method TakeFromHead(p: int, ghost side: Side, fillQty: nat)
      requires Linked() && side != NoSide && SideQueue(side) != [] && fillQty <= SideQueue(side)[0].qty
      requires IsHead(p, side)
      modifies this`mapClientIdToOrder, this`queues, this`bidsByPrice, this`asksByPrice, this`bidLevels, this`askLevels
      modifies orderPool, orderPool.memoryBlocks
      modifies ordersAtPricePool, ordersAtPricePool.memoryBlocks, mapPriceToPriceLevel
      ensures Linked() && orderPool.used <= old(orderPool.used)
      ensures SideQueue(side) == Lowered(old(SideQueue(side)), fillQty)
      ensures SideQueue(Opposite(side)) == old(SideQueue(Opposite(side)))
    {
      FirstOrder(p, side);
      var qty := orderPool.Load(p).item.qty - fillQty;
      LoweredIs(SideQueue(side), fillQty, qty);
      SetHeadQty(p, side, qty);
      if qty == 0 {
        FirstOrder(p, side);
        RemoveHead(p, side);
      }
    }

    /** Tells both clients and the market of one execution. */
    method ReportFill(t: Taker, order: Order, fillQty: nat, remains: nat)
      modifies ome
      ensures ome.clientResponses == old(ome.clientResponses) + FillResponses(t, order, fillQty, remains)
      ensures ome.marketUpdates == old(ome.marketUpdates) + FillUpdates(t, order, fillQty)
    {
      ome.DispatchClientResponse(Response(Filled, t.clientId, t.tickerId, t.clientOrderId, t.marketOrderId, t.side,
                                          order.price, fillQty, remains));
      ome.DispatchClientResponse(Response(Filled, order.clientId, t.tickerId, order.clientOrderId, order.marketOrderId,
                                          order.side, order.price, fillQty, order.qty));
      ome.PublishMarketUpdate(Update(Trade, ORDER_ID_INVALID, t.tickerId, t.side, order.price, fillQty, PRIORITY_INVALID));
      if order.qty == 0 {
        ome.PublishMarketUpdate(Update(Cancel, order.marketOrderId, t.tickerId, order.side, order.price, fillQty, PRIORITY_INVALID));
      } else {
        ome.PublishMarketUpdate(Update(Modify, order.marketOrderId, t.tickerId, order.side, order.price, order.qty, order.priority));
      }
    }

    /** One execution against the first order of the opposite side's best level. The source's
        "qtyRemains -= fillQty" moves the pointer it was given; the intended decrement of the quantity
        is modelled here, and module PointerDecrement says what the statement as written does. */
    method MatchOrder(t: Taker, orderMatched: int, qtyRemains: nat) returns (remains: nat)
      requires Linked() && t.side != NoSide
      requires SideQueue(Opposite(t.side)) != [] && IsHead(orderMatched, Opposite(t.side))
      modifies this`mapClientIdToOrder, this`queues, this`bidsByPrice, this`asksByPrice, this`bidLevels, this`askLevels
      modifies ome, orderPool, orderPool.memoryBlocks
      modifies ordersAtPricePool, ordersAtPricePool.memoryBlocks, mapPriceToPriceLevel
      ensures Linked() && orderPool.used <= old(orderPool.used)
      ensures var one := MatchOne(t, qtyRemains, old(SideQueue(Opposite(t.side))));
              && remains == one.remains
              && SideQueue(Opposite(t.side)) == one.queue
              && SideQueue(t.side) == old(SideQueue(t.side))
              && ome.clientResponses == old(ome.clientResponses) + one.responses
              && ome.marketUpdates == old(ome.marketUpdates) + one.updates
    {
      ghost var opp := Opposite(t.side);
      ghost var q := SideQueue(opp);
      FirstOrder(orderMatched, opp);
      var order := orderPool.Load(orderMatched).item;
      var fillQty := Min(qtyRemains, order.qty);
      remains := qtyRemains - fillQty;
      MatchOneIs(t, qtyRemains, q, order, fillQty);
      ReportFill(t, order.(qty := order.qty - fillQty), fillQty, remains);
      ghost var responses, updates := ome.clientResponses, ome.marketUpdates;
      TakeFromHead(orderMatched, opp, fillQty);
      assert ome.clientResponses == responses && ome.marketUpdates == updates;
    }

    /** The first order of the best level of a side, or null. */
    method BestOrder(side: Side) returns (p: int)
      requires Linked() && side != NoSide
      ensures p == NULL <==> SideQueue(side) == []
      ensures p != NULL ==>
                && IsHead(p, side) && p in orderPool.used
                && 0 <= p < |orderPool.cells| && orderPool.cells[p].item == SideQueue(side)[0]
    {
      var best := if side == Buy then bidsByPrice else asksByPrice;
      if best == NULL {
        return NULL;
      }
      ghost var s := State();
      PartsOfStore(s, orderPool.used, ordersAtPricePool.used, side);
      HeadOfSide(s, orderPool.used, ordersAtPricePool.used, side);
      assert OnSide(s.levels, ordersAtPricePool.used, side, s.levels.Ring(side)[0]);
      p := ordersAtPricePool.Load(best).item.order0;
    }

    /** One turn of the matching loop: trades with the best opposite order if there is quantity left
        and the price is acceptable. */
    method MatchBest(t: Taker, qtyRemains: nat) returns (matched: bool, remains: nat)
      requires Linked() && t.side != NoSide
      modifies this`mapClientIdToOrder, this`queues, this`bidsByPrice, this`asksByPrice, this`bidLevels, this`askLevels
      modifies ome, orderPool, orderPool.memoryBlocks
      modifies ordersAtPricePool, ordersAtPricePool.memoryBlocks, mapPriceToPriceLevel
      ensures Linked() && orderPool.used <= old(orderPool.used)
      ensures matched <==> CanMatch(t, qtyRemains, old(SideQueue(Opposite(t.side))))
      ensures SideQueue(t.side) == old(SideQueue(t.side))
      ensures MatchResult(remains, SideQueue(Opposite(t.side)), ome.clientResponses, ome.marketUpdates) ==
              var before := MatchResult(qtyRemains, old(SideQueue(Opposite(t.side))), old(ome.clientResponses), old(ome.marketUpdates));
              if CanMatch(t, qtyRemains, before.queue) then Executed(t, before) else before
    {
      var head := BestOrder(Opposite(t.side));
      if qtyRemains == 0 || head == NULL {
        return false, qtyRemains;
      }
      var price := orderPool.Load(head).item.price;
      if (if t.side == Buy then t.price < price else t.price > price) {
        return false, qtyRemains;
      }
      matched := true;
      remains := MatchOrder(t, head, qtyRemains);
    }

    /** Matches an incoming order while it has quantity left and the best opposite price is
        acceptable. The source writes the loop once for each side. */
    method FindMatch(t: Taker, qty: nat) returns (qtyRemains: nat)
      requires Linked() && t.side != NoSide
      modifies this`mapClientIdToOrder, this`queues, this`bidsByPrice, this`asksByPrice, this`bidLevels, this`askLevels
      modifies ome, orderPool, orderPool.memoryBlocks
      modifies ordersAtPricePool, ordersAtPricePool.memoryBlocks, mapPriceToPriceLevel
      ensures Linked() && orderPool.used <= old(orderPool.used)
      ensures var m := Match(t, qty, old(SideQueue(Opposite(t.side))));
              && qtyRemains == m.remains
              && SideQueue(Opposite(t.side)) == m.queue
              && SideQueue(t.side) == old(SideQueue(t.side))
              && ome.clientResponses == old(ome.clientResponses) + m.responses
              && ome.marketUpdates == old(ome.marketUpdates) + m.updates
    {
      ghost var m := MatchResult(qty, SideQueue(Opposite(t.side)), ome.clientResponses, ome.marketUpdates);
      qtyRemains := qty;
      ghost var now := m;
      var matched := true;
      while matched
        invariant Linked() && orderPool.used <= old(orderPool.used)
        invariant SideQueue(t.side) == old(SideQueue(t.side))
        invariant now == MatchResult(qtyRemains, SideQueue(Opposite(t.side)), ome.clientResponses, ome.marketUpdates)
        invariant Follows(t, m, now)
        invariant !matched ==> !CanMatch(t, now.remains, now.queue)
        decreases matched, |now.queue|, now.remains
      {
        matched, qtyRemains := MatchBest(t, qtyRemains);
        if matched {
          FollowsStep(t, m, now);
          now := Executed(t, now);
        }
      }
      FollowsEnd(t, m, now);
    }

    // ----- resting

    /** The price array leads this price to a level of that price and side, or to none. */
    ghost predicate SlotFits(side: Side, price: int)
      reads Footprint()
    {
      |Levels().slots| > 0 &&
      var l := Levels().slots[Levels().Slot(price)];
      l != NULL ==> l in ordersAtPricePool.used && Levels().Block(l) && Levels().Price(l) == price && Levels().SideOf(l) == side
    }

    /** The priority of a new order: one more than that of the last order of the level its price leads
        to, whatever the price of that level, or 1. When it is the level of the price on the order's
        side, that is one more than the last order at the price. */
    method GetNextPriority(price: int, ghost side: Side) returns (priority: nat)
      requires Linked()
      ensures var l := mapPriceToPriceLevel[PriceToIndex(price, mapPriceToPriceLevel.Length)];
              if l == NULL then priority == 1
              else l in queues && queues[l] != [] && IsPriorityOf(queues[l][|queues[l]| - 1], priority - 1)
      ensures side != NoSide && SlotFits(side, price) ==> priority == NextPriority(SideQueue(side), price)
    {
      ghost var s, ords, lvls := State(), orderPool.used, ordersAtPricePool.used;
      var i := PriceToIndex(price, mapPriceToPriceLevel.Length);
      var level := mapPriceToPriceLevel[i];
      if level == NULL {
        if side != NoSide {
          PartsOfStore(s, ords, lvls, side);
          PriorityAtNewLevel(s, ords, lvls, side, price);
        }
        return 1;
      }
      SlotIsLive(s.levels, lvls, i);
      assert QueueAt(s, ords, level);
      var last := LastPriority(level);
      priority := last + 1;
      if side != NoSide && SlotFits(side, price) {
        PartsOfStore(s, ords, lvls, side);
        PriorityAtLive(s, ords, lvls, side, level);
      }
    }

    ghost predicate IsPriorityOf(p: int, priority: int)
      reads orderPool`cells
    {
      0 <= p < |orderPool.cells| && orderPool.cells[p].item.priority == priority
    }

    /** The priority of the last order at a level: the one before the first, since the ring is circular. */
    method LastPriority(level: int) returns (priority: nat)
      requires PoolsOk() && level in ordersAtPricePool.used && QueueAt(State(), orderPool.used, level)
      ensures var q := queues[level]; State().Node(q[|q| - 1]) && priority == State().Item(q[|q| - 1]).priority
    {
      ghost var s, ords, q := State(), orderPool.used, queues[level];
      assert LinkedAt(s.nodes, q, 0);
      assert Belongs(s, ords, level, q[0]) && Belongs(s, ords, level, q[|q| - 1]);
      var first := ordersAtPricePool.Load(level).item.order0;
      var last := orderPool.Load(first).prev;
      priority := orderPool.Load(last).item.priority;
    }

    /** Takes a block for an order. Neither the structures nor the reference queues know of it yet. */
    method TakeBlock(o: Order) returns (p: int)
      requires Linked() && o.side != NoSide && SlotFits(o.side, o.price) && orderPool.GetFreeBlocksCount() > 0
      modifies orderPool, orderPool.memoryBlocks
      ensures PendingOrder(p) && p !in old(orderPool.used) && orderPool.used == old(orderPool.used) + {p}
      ensures State() == old(State()).(nodes := orderPool.cells) && orderPool.cells == old(orderPool.cells)[p := Node(o, NULL, NULL)]
      ensures Readable(State(), orderPool.used - {p}, ordersAtPricePool.used)
      ensures Rest(State(), orderPool.used - {p}, ordersAtPricePool.used, Buy) == old(SideQueue(Buy))
      ensures Rest(State(), orderPool.used - {p}, ordersAtPricePool.used, Sell) == old(SideQueue(Sell))
    {
      ghost var s, ords, lvls := State(), orderPool.used, ordersAtPricePool.used;
      p := orderPool.Allocate(Node(o, NULL, NULL));
      assert orderPool.used - {p} == ords;
      TakenOrderStore(s, State(), ords, lvls, p);
      TakenOrderRest(s, State(), ords, lvls, Buy, p);
      TakenOrderRest(s, State(), ords, lvls, Sell, p);
    }

    /** Takes a block for an order and rests it. */
    method RestOrder(o: Order)
      requires Linked() && o.side != NoSide && SlotFits(o.side, o.price)
      requires orderPool.GetFreeBlocksCount() > 0 && o.Key() !in mapClientIdToOrder
      modifies this`mapClientIdToOrder, this`queues, this`bidsByPrice, this`asksByPrice, this`bidLevels, this`askLevels
      modifies orderPool, orderPool.memoryBlocks
      modifies ordersAtPricePool, ordersAtPricePool.memoryBlocks, mapPriceToPriceLevel
      ensures Linked()
      ensures SideQueue(o.side) == Insert(old(SideQueue(o.side)), o)
      ensures SideQueue(Opposite(o.side)) == old(SideQueue(Opposite(o.side)))
    {
      var p := TakeBlock(o);
      AddOrderToBook(p);
    }

    /** Two orders in use have this key; the client map names the newer, and the older nowhere: the
        client can cancel only the newer. */
    ghost predicate OnlyNewerIsNamed(key: (nat, nat), older: int, newer: int)
      reads this`mapClientIdToOrder, orderPool`used, orderPool`cells
    {
      && older in orderPool.used && newer in orderPool.used && older != newer
      && 0 <= older < |orderPool.cells| && orderPool.cells[older].item.Key() == key
      && 0 <= newer < |orderPool.cells| && orderPool.cells[newer].item.Key() == key
      && key in mapClientIdToOrder && mapClientIdToOrder[key] == newer
      && forall k :: k in mapClientIdToOrder ==> mapClientIdToOrder[k] != older
    }

    /** The same when the client reuses the id of an order that still rests, which the source does
        not prevent: both orders are in the book as Insert would have them, but the client map names
        the new one, and nothing in it names the older order any more. */
    method RestUnderUsedId(o: Order) returns (p: int)
      requires Linked() && o.side != NoSide && SlotFits(o.side, o.price)
      requires orderPool.GetFreeBlocksCount() > 0 && o.Key() in mapClientIdToOrder
      modifies this`mapClientIdToOrder, this`queues, this`bidsByPrice, this`asksByPrice, this`bidLevels, this`askLevels
      modifies orderPool, orderPool.memoryBlocks
      modifies ordersAtPricePool, ordersAtPricePool.memoryBlocks, mapPriceToPriceLevel
      ensures PoolsOk() && StoreSound(State(), orderPool.used, ordersAtPricePool.used)
      ensures Rest(State(), orderPool.used, ordersAtPricePool.used, o.side) == Insert(old(SideQueue(o.side)), o)
      ensures Rest(State(), orderPool.used, ordersAtPricePool.used, Opposite(o.side)) == old(SideQueue(Opposite(o.side)))
      ensures OnlyNewerIsNamed(o.Key(), old(mapClientIdToOrder[o.Key()]), p)
    {
      ghost var s, ords := State(), orderPool.used;
      assert NamesOrder(s, ords, o.Key());
      p := TakeBlock(o);
      AddOrderToBook(p);
      UsedKeyIsLost(s, State(), ords, o.Key(), p);
    }

    /** What the reference queues say is enough to rest an order. */
    lemma SpaceToRest(side: Side, price: int)
      requires Linked() && side != NoSide
      requires Fits(SideQueue(Buy), price, mapPriceToPriceLevel.Length) && Fits(SideQueue(Sell), price, mapPriceToPriceLevel.Length)
      requires NoneCrosses(SideQueue(Opposite(side)), side, price)
      requires |SideQueue(Buy)| + |SideQueue(Sell)| < |orderPool.cells|
      ensures SlotFits(side, price) && orderPool.GetFreeBlocksCount() > 0
    {
      SlotIsOwn(State(), orderPool.used, ordersAtPricePool.used, side, price);
      BlocksAreOrders(State(), orderPool.used, ordersAtPricePool.used);
    }

    /** Rests what matching left of an order, in the place in line that is next at its price. */
    method RestNew(r: Request, newMarketOid: nat, qtyRemains: nat) returns (order: Order)
      requires Linked() && r.side != NoSide && SlotFits(r.side, r.price)
      requires orderPool.GetFreeBlocksCount() > 0 && (r.clientId, r.orderId) !in mapClientIdToOrder
      modifies this`mapClientIdToOrder, this`queues, this`bidsByPrice, this`asksByPrice, this`bidLevels, this`askLevels
      modifies orderPool, orderPool.memoryBlocks
      modifies ordersAtPricePool, ordersAtPricePool.memoryBlocks, mapPriceToPriceLevel
      ensures Linked()
      ensures order == RestingOrder(r, newMarketOid, qtyRemains, NextPriority(old(SideQueue(r.side)), r.price))
      ensures SideQueue(r.side) == Insert(old(SideQueue(r.side)), order)
      ensures SideQueue(Opposite(r.side)) == old(SideQueue(Opposite(r.side)))
    {
      var priority := GetNextPriority(r.price, r.side);
      order := RestingOrder(r, newMarketOid, qtyRemains, priority);
      RestOrder(order);
    }

    /** Rests what matching left of an order, as the reference book says. */
    method RestLeftover(r: Request, newMarketOid: nat, qtyRemains: nat) returns (order: Order)
      requires Linked() && r.side != NoSide
      requires KeyFree(Contents().bids, (r.clientId, r.orderId)) && KeyFree(Contents().asks, (r.clientId, r.orderId))
      requires Fits(Contents().bids, r.price, Bounds().levels) && Fits(Contents().asks, r.price, Bounds().levels)
      requires NoneCrosses(Contents().Queue(Opposite(r.side)), r.side, r.price)
      requires |Contents().bids| + |Contents().asks| < Bounds().orders
      modifies this`mapClientIdToOrder, this`queues, this`bidsByPrice, this`asksByPrice, this`bidLevels, this`askLevels
      modifies orderPool, orderPool.memoryBlocks
      modifies ordersAtPricePool, ordersAtPricePool.memoryBlocks, mapPriceToPriceLevel
      ensures Linked() && Bounds() == old(Bounds())
      ensures order == RestingOrder(r, newMarketOid, qtyRemains, NextPriority(old(Contents()).Queue(r.side), r.price))
      ensures Contents() == old(Contents()).WithQueue(r.side, Insert(old(Contents()).Queue(r.side), order))
    {
      SpaceToRest(r.side, r.price);
      FreeKeyIsUnmapped(State(), orderPool.used, ordersAtPricePool.used, (r.clientId, r.orderId));
      order := RestNew(r, newMarketOid, qtyRemains);
    }

    /** The same under the id of an order that still rests. */
    method RestLeftoverUnderUsedId(r: Request, newMarketOid: nat, qtyRemains: nat, ghost b: Book)
      returns (order: Order, newer: int, ghost older: int)
      requires Linked() && Contents() == b && r.side != NoSide && !KeyFreeIn(b, (r.clientId, r.orderId))
      requires Fits(b.bids, r.price, Bounds().levels) && Fits(b.asks, r.price, Bounds().levels)
      requires NoneCrosses(b.Queue(Opposite(r.side)), r.side, r.price)
      requires |b.bids| + |b.asks| < Bounds().orders
      modifies this`mapClientIdToOrder, this`queues, this`bidsByPrice, this`asksByPrice, this`bidLevels, this`askLevels
      modifies orderPool, orderPool.memoryBlocks
      modifies ordersAtPricePool, ordersAtPricePool.memoryBlocks, mapPriceToPriceLevel
      ensures PoolsOk() && StoreSound(State(), orderPool.used, ordersAtPricePool.used)
      ensures order == RestingOrder(r, newMarketOid, qtyRemains, NextPriority(b.Queue(r.side), r.price))
      ensures Rest(State(), orderPool.used, ordersAtPricePool.used, r.side) == Insert(b.Queue(r.side), order)
      ensures Rest(State(), orderPool.used, ordersAtPricePool.used, Opposite(r.side)) == b.Queue(Opposite(r.side))
      ensures OnlyNewerIsNamed((r.clientId, r.orderId), older, newer)
    {
      SpaceToRest(r.side, r.price);
      KeysAreExact(State(), orderPool.used, ordersAtPricePool.used, (r.clientId, r.orderId));
      var priority := GetNextPriority(r.price, r.side);
      order := RestingOrder(r, newMarketOid, qtyRemains, priority);
      older := mapClientIdToOrder[order.Key()];
      newer := RestUnderUsedId(order);
    }

    /** Rests what matching left of an order, and announces it. */
    method RestRemainder(r: Request, newMarketOid: nat, qtyRemains: nat)
      requires Linked() && r.side != NoSide
      requires KeyFree(Contents().bids, (r.clientId, r.orderId)) && KeyFree(Contents().asks, (r.clientId, r.orderId))
      requires Fits(Contents().bids, r.price, Bounds().levels) && Fits(Contents().asks, r.price, Bounds().levels)
      requires NoneCrosses(Contents().Queue(Opposite(r.side)), r.side, r.price)
      requires |Contents().bids| + |Contents().asks| < Bounds().orders
      modifies this`mapClientIdToOrder, this`queues, this`bidsByPrice, this`asksByPrice, this`bidLevels, this`askLevels
      modifies ome, orderPool, orderPool.memoryBlocks
      modifies ordersAtPricePool, ordersAtPricePool.memoryBlocks, mapPriceToPriceLevel
      ensures Linked() && Bounds() == old(Bounds())
      ensures var b := old(Contents());
              var o := RestingOrder(r, newMarketOid, qtyRemains, NextPriority(b.Queue(r.side), r.price));
              && Contents() == b.WithQueue(o.side, Insert(b.Queue(o.side), o))
              && ome.marketUpdates == old(ome.marketUpdates) + [AddUpdate(o)]
              && ome.clientResponses == old(ome.clientResponses)
    {
      var order := RestLeftover(r, newMarketOid, qtyRemains);
      ome.PublishMarketUpdate(AddUpdate(order));
    }

    // ----- requests

    method GetNewMarketOrderId() returns (oid: nat)
      requires nextMarketOid < ORDER_ID_INVALID
      modifies this`nextMarketOid
      ensures oid == old(nextMarketOid) && nextMarketOid == oid + 1
    {
      oid := nextMarketOid;
      nextMarketOid := nextMarketOid + 1;
    }

    /** Gives a new order its market id and tells its client. */
    method Accept(r: Request) returns (newMarketOid: nat)
      requires nextMarketOid < ORDER_ID_INVALID && ome as object != this as object
      modifies this`nextMarketOid, ome
      ensures newMarketOid == old(nextMarketOid) && nextMarketOid == newMarketOid + 1
      ensures ome.clientResponses == old(ome.clientResponses) + [AcceptedResponse(r, newMarketOid)]
      ensures ome.marketUpdates == old(ome.marketUpdates)
    {
      newMarketOid := GetNewMarketOrderId();
      ome.DispatchClientResponse(AcceptedResponse(r, newMarketOid));
    }

    /** Accepts a new order and matches it. */
    method AcceptAndMatch(r: Request) returns (newMarketOid: nat, qtyRemains: nat)
      requires Linked() && r.side != NoSide && nextMarketOid < ORDER_ID_INVALID
      modifies this`nextMarketOid
      modifies this`mapClientIdToOrder, this`queues, this`bidsByPrice, this`asksByPrice, this`bidLevels, this`askLevels
      modifies ome, orderPool, orderPool.memoryBlocks
      modifies ordersAtPricePool, ordersAtPricePool.memoryBlocks, mapPriceToPriceLevel
      ensures Linked() && Bounds() == old(Bounds())
      ensures newMarketOid == old(nextMarketOid)
      ensures qtyRemains == MatchOf(old(Contents()), r).remains
      ensures Contents() == Matched(old(Contents()), r).book
      ensures ome.clientResponses == old(ome.clientResponses) + Matched(old(Contents()), r).responses
      ensures ome.marketUpdates == old(ome.marketUpdates) + Matched(old(Contents()), r).updates
    {
      ghost var b, responses := Contents(), ome.clientResponses;
      MatchedParts(b, r, responses);
      newMarketOid := Accept(r);
      qtyRemains := FindMatch(TakerOf(r, newMarketOid), r.qty);
    }

    /** Accepts a new order, matches it, and rests what is left: exactly AddOrder of the reference
        book, with the same responses and the same market updates. */
    method AddOrder(clientId: nat, clientOid: nat, tickerId: nat, side: Side, price: int, qty: nat)
      requires Valid()
      requires Servable(Contents(), Request(NewRequest, clientId, tickerId, clientOid, side, price, qty), Bounds())
      modifies ome, Footprint()
      ensures Linked() && Bounds() == old(Bounds())
      ensures var out := PriceTimeBook.AddOrder(old(Contents()), Request(NewRequest, clientId, tickerId, clientOid, side, price, qty));
              && Contents() == out.book
              && ome.clientResponses == old(ome.clientResponses) + out.responses
              && ome.marketUpdates == old(ome.marketUpdates) + out.updates
    {
      var r := Request(NewRequest, clientId, tickerId, clientOid, side, price, qty);
      ghost var b := Contents();
      ghost var limits := Bounds();
      AddOrderParts(b, r, ome.marketUpdates);
      var newMarketOid, qtyRemains := AcceptAndMatch(r);
      if qtyRemains != 0 {
        ReadyAfterMatch(b, r, limits);
        RestRemainder(r, newMarketOid, qtyRemains);
      }
    }

    /** The id, the responses, the matching and the resting of a new order whose client reuses the id
        of an order that still rests after matching. */
    method MatchAndRestUnderUsedId(r: Request) returns (order: Order, newer: int, ghost older: int)
      requires Valid() && r.side != NoSide && nextMarketOid < ORDER_ID_INVALID
      requires MatchOf(Contents(), r).remains > 0 && RestServable(AfterMatch(Contents(), r), r, Bounds())
      requires !KeyFreeIn(AfterMatch(Contents(), r), (r.clientId, r.orderId))
      modifies ome, Footprint()
      ensures PoolsOk() && StoreSound(State(), orderPool.used, ordersAtPricePool.used)
      ensures var b := AfterMatch(old(Contents()), r);
              && order == RestingOrder(r, old(nextMarketOid), MatchOf(old(Contents()), r).remains, NextPriority(b.Queue(r.side), r.price))
              && Rest(State(), orderPool.used, ordersAtPricePool.used, r.side) == Insert(b.Queue(r.side), order)
              && Rest(State(), orderPool.used, ordersAtPricePool.used, Opposite(r.side)) == b.Queue(Opposite(r.side))
      ensures nextMarketOid == old(nextMarketOid) + 1
      ensures ome.clientResponses == old(ome.clientResponses) + Matched(old(Contents()), r).responses
      ensures ome.marketUpdates == old(ome.marketUpdates) + Matched(old(Contents()), r).updates
      ensures OnlyNewerIsNamed((r.clientId, r.orderId), older, newer)
    {
      ghost var b := Matched(Contents(), r).book;
      ReadyUnderUsedId(Contents(), r, Bounds());
      var newMarketOid, qtyRemains := AcceptAndMatch(r);
      order, newer, older := RestLeftoverUnderUsedId(r, newMarketOid, qtyRemains, b);
    }

    /** AddOrder for such a request. Nothing in the source prevents it, and both streams are as for any
        other; it is not admissible, because the older order stays in the book under a key that leads to
        the new one. */
    method AddOrderUnderUsedId(r: Request) returns (newer: int, ghost older: int)
      requires Valid() && r.side != NoSide && nextMarketOid < ORDER_ID_INVALID
      requires MatchOf(Contents(), r).remains > 0 && RestServable(AfterMatch(Contents(), r), r, Bounds())
      requires !KeyFreeIn(AfterMatch(Contents(), r), (r.clientId, r.orderId))
      modifies ome, Footprint()
      ensures PoolsOk() && StoreSound(State(), orderPool.used, ordersAtPricePool.used)
      ensures var b := AfterMatch(old(Contents()), r);
              var o := RestingOrder(r, old(nextMarketOid), MatchOf(old(Contents()), r).remains, NextPriority(b.Queue(r.side), r.price));
              && Rest(State(), orderPool.used, ordersAtPricePool.used, r.side) == Insert(b.Queue(r.side), o)
              && Rest(State(), orderPool.used, ordersAtPricePool.used, Opposite(r.side)) == b.Queue(Opposite(r.side))
      ensures nextMarketOid == old(nextMarketOid) + 1
      ensures ome.clientResponses == old(ome.clientResponses) + PriceTimeBook.AddOrder(old(Contents()), r).responses
      ensures ome.marketUpdates == old(ome.marketUpdates) + PriceTimeBook.AddOrder(old(Contents()), r).updates
      ensures OnlyNewerIsNamed((r.clientId, r.orderId), older, newer)
    {
      AddOrderParts(Contents(), r, ome.marketUpdates);
      var order;
      order, newer, older := MatchAndRestUnderUsedId(r);
      ome.PublishMarketUpdate(AddUpdate(order));
    }

    /** Looks an order up in the client map: null exactly when it is not resting. */
    method FindOrder(clientId: nat, orderId: nat) returns (p: int, order: Order)
      requires Linked()
      ensures p == NULL ==> KeyFree(Contents().bids, (clientId, orderId)) && KeyFree(Contents().asks, (clientId, orderId))
      ensures p != NULL ==> p in orderPool.used && p < |orderPool.cells| && order == orderPool.cells[p].item
                            && order.Key() == (clientId, orderId)
    {
      if (clientId, orderId) in mapClientIdToOrder {
        p := mapClientIdToOrder[(clientId, orderId)];
        assert NamesOrder(State(), orderPool.used, (clientId, orderId));
        order := orderPool.Load(p).item;
      } else {
        UnmappedKeyIsFree(State(), orderPool.used, ordersAtPricePool.used, Buy, (clientId, orderId));
        UnmappedKeyIsFree(State(), orderPool.used, ordersAtPricePool.used, Sell, (clientId, orderId));
        p, order := NULL, Order(0, 0, 0, 0, NoSide, 0, 0, 0);
      }
    }

    /** The price array and the client map name what rests in the book, and nothing else. */
    lemma IndexesAreExact(price: int, key: (nat, nat))
      requires Linked() && mapPriceToPriceLevel.Length > 0
      ensures var i := PriceToIndex(price, mapPriceToPriceLevel.Length);
              mapPriceToPriceLevel[i] == NULL <==>
              && SlotUnused(SideQueue(Buy), i, mapPriceToPriceLevel.Length)
              && SlotUnused(SideQueue(Sell), i, mapPriceToPriceLevel.Length)
      ensures key in mapClientIdToOrder <==> !KeyFreeIn(Contents(), key)
    {
      SlotsAreExact(State(), orderPool.used, ordersAtPricePool.used, PriceToIndex(price, mapPriceToPriceLevel.Length));
      KeysAreExact(State(), orderPool.used, ordersAtPricePool.used, key);
    }

    /** With an order resting, any other price a multiple of the number of levels away leads to the
        level of that order, and does not fit. */
    lemma OtherPriceLeadsTo(side: Side, j: nat, price: int)
      requires Linked() && side != NoSide && j < |SideQueue(side)|
      requires TWO_TO_THE_64 % mapPriceToPriceLevel.Length == 0
      requires price != SideQueue(side)[j].price && (price - SideQueue(side)[j].price) % mapPriceToPriceLevel.Length == 0
      ensures !Fits(SideQueue(side), price, mapPriceToPriceLevel.Length)
      ensures var l := mapPriceToPriceLevel[PriceToIndex(price, mapPriceToPriceLevel.Length)];
              l != NULL && Levels().Block(l) && Levels().Price(l) == SideQueue(side)[j].price
    {
      PartsOfStore(State(), orderPool.used, ordersAtPricePool.used, side);
      OtherPriceIsMisled(State(), orderPool.used, ordersAtPricePool.used, side, j, price);
    }

    /** The order blocks on the rings of the two sides, in the order they are served. */
    ghost function RestingBlocks(): seq<int>
      reads this`queues, this`bidLevels, this`askLevels
    {
      Flat(queues, bidLevels) + Flat(queues, askLevels)
    }

    /** The blocks in use are exactly those on the rings, each there once, and the i-th holds the i-th
        resting order: no block of the order pool is leaked, dangling or shared. */
    ghost predicate HoldsExactlyWhatRests()
      requires Linked()
      reads Footprint()
    {
      var blocks, resting := RestingBlocks(), Contents().Resting();
      && NoDup(blocks) && (forall p :: p in orderPool.used <==> p in blocks)
      && |blocks| == |resting|
      && (forall i :: 0 <= i < |blocks| ==> 0 <= blocks[i] < |orderPool.cells| && orderPool.cells[blocks[i]].item == resting[i])
    }

    lemma BlocksInUse()
      requires Linked()
      ensures HoldsExactlyWhatRests()
      ensures |orderPool.used| == |Contents().bids| + |Contents().asks|
    {
      BlocksAreOrders(State(), orderPool.used, ordersAtPricePool.used);
      BlocksHoldOrders(State(), orderPool.used, ordersAtPricePool.used);
    }

    /** Tells the market and the client of a cancelled order. */
    method ReportCancel(r: Request, order: Order)
      requires Linked()
      modifies ome
      ensures Linked() && Bounds() == old(Bounds()) && Contents() == old(Contents())
      ensures ome.clientResponses == old(ome.clientResponses) + [CancelledResponse(r, order)]
      ensures ome.marketUpdates == old(ome.marketUpdates) + [CancelUpdate(r, order)]
    {
      ome.PublishMarketUpdate(CancelUpdate(r, order));
      ome.DispatchClientResponse(CancelledResponse(r, order));
    }

    /** Deletes a resting order from the reference book. */
    method DeleteOrder(p: int, ghost order: Order)
      requires Linked() && p in orderPool.used && p < |orderPool.cells| && order == orderPool.cells[p].item
      modifies this`mapClientIdToOrder, this`queues, this`bidsByPrice, this`asksByPrice, this`bidLevels, this`askLevels
      modifies orderPool, orderPool.memoryBlocks
      modifies ordersAtPricePool, ordersAtPricePool.memoryBlocks, mapPriceToPriceLevel
      ensures Linked() && Bounds() == old(Bounds()) && order.side != NoSide
      ensures Removes(old(Contents()).Queue(order.side), Contents().Queue(order.side), order)
      ensures Contents() == old(Contents()).WithQueue(order.side, Remove(old(Contents()).Queue(order.side), order.Key()))
    {
      RemoveOrderFromBook(p);
    }

    /** Deletes a resting order and reports it. */
    method CancelResting(p: int, order: Order, r: Request)
      requires Linked() && p in orderPool.used && p < |orderPool.cells| && order == orderPool.cells[p].item
      modifies this`mapClientIdToOrder, this`queues, this`bidsByPrice, this`asksByPrice, this`bidLevels, this`askLevels
      modifies ome, orderPool, orderPool.memoryBlocks
      modifies ordersAtPricePool, ordersAtPricePool.memoryBlocks, mapPriceToPriceLevel
      ensures Linked() && Bounds() == old(Bounds()) && order.side != NoSide
      ensures Removes(old(Contents()).Queue(order.side), Contents().Queue(order.side), order)
      ensures Contents() == old(Contents()).WithQueue(order.side, Remove(old(Contents()).Queue(order.side), order.Key()))
      ensures ome.clientResponses == old(ome.clientResponses) + [CancelledResponse(r, order)]
      ensures ome.marketUpdates == old(ome.marketUpdates) + [CancelUpdate(r, order)]
    {
      DeleteOrder(p, order);
      ReportCancel(r, order);
    }

    /** Cancels a resting order: exactly CancelOrder of the reference book, with the same streams.
        A client or an order the book does not know is rejected. */
    method CancelOrder(clientId: nat, orderId: nat, tickerId: nat)
      requires Valid()
      requires clientId < maxClients ==> orderId < maxOrderIds
      modifies ome, Footprint()
      ensures Linked() && Bounds() == old(Bounds())
      ensures var out := PriceTimeBook.CancelOrder(old(Contents()), Request(CancelRequest, clientId, tickerId, orderId, NoSide, 0, 0));
              && Contents() == out.book
              && ome.clientResponses == old(ome.clientResponses) + out.responses
              && ome.marketUpdates == old(ome.marketUpdates) + out.updates
    {
      ghost var b := Contents();
      var r := Request(CancelRequest, clientId, tickerId, orderId, NoSide, 0, 0);
      var exchangeOrder, order := FindOrder(clientId, orderId);
      if clientId >= maxClients || exchangeOrder == NULL {
        CancelNothing(b, r, maxClients);
        ome.DispatchClientResponse(RejectedResponse(r));
      } else {
        CancelResting(exchangeOrder, order, r);
        CancelSomething(b, r, order);
      }
    }
  }

  /** A queue whose head has been lowered by a fill, or has left with nothing. */
  function Lowered(q: seq<Order>, fill: nat): seq<Order>
    requires q != [] && fill <= q[0].qty
  {
    var maker := q[0].(qty := q[0].qty - fill);
    if maker.qty == 0 then q[1..] else [maker] + q[1..]
  }

  lemma LoweredIs(q: seq<Order>, fill: nat, qty: nat)
    requires q != [] && qty + fill == q[0].qty
    ensures var lowered := [q[0].(qty := qty)] + q[1..];
            Lowered(q, fill) == (if qty == 0 then lowered[1..] else lowered)
  {
  }

  lemma MatchOneIs(t: Taker, qty: nat, q: seq<Order>, order: Order, fill: nat)
    requires q != [] && order == q[0] && fill == Min(qty, order.qty)
    ensures MatchOne(t, qty, q) ==
            MatchResult(qty - fill, Lowered(q, fill),
                        FillResponses(t, order.(qty := order.qty - fill), fill, qty - fill),
                        FillUpdates(t, order.(qty := order.qty - fill), fill))
  {
  }

  /** From the streams, queue and quantity of m, matching the rest leads where it led from m0. */
  predicate Follows(t: Taker, m0: MatchResult, m: MatchResult) {
    var rest0, rest := Match(t, m0.remains, m0.queue), Match(t, m.remains, m.queue);
    && rest0.remains == rest.remains
    && rest0.queue == rest.queue
    && m0.responses + rest0.responses == m.responses + rest.responses
    && m0.updates + rest0.updates == m.updates + rest.updates
  }

  /** The state after one more execution. */
  function Executed(t: Taker, m: MatchResult): MatchResult
    requires m.queue != []
  {
    var one := MatchOne(t, m.remains, m.queue);
    MatchResult(one.remains, one.queue, m.responses + one.responses, m.updates + one.updates)
  }

  lemma FollowsStep(t: Taker, m0: MatchResult, m: MatchResult)
    requires Follows(t, m0, m) && CanMatch(t, m.remains, m.queue)
    ensures Follows(t, m0, Executed(t, m))
  {
    var one := MatchOne(t, m.remains, m.queue);
    var rest := Match(t, one.remains, one.queue);
    assert m.responses + (one.responses + rest.responses) == (m.responses + one.responses) + rest.responses;
    assert m.updates + (one.updates + rest.updates) == (m.updates + one.updates) + rest.updates;
  }

  lemma FollowsEnd(t: Taker, m0: MatchResult, m: MatchResult)
    requires Follows(t, m0, m) && !CanMatch(t, m.remains, m.queue)
    ensures var rest := Match(t, m0.remains, m0.queue);
            m == MatchResult(rest.remains, rest.queue, m0.responses + rest.responses, m0.updates + rest.updates)
  {
  }

  // ----- the reference AddOrder in its two parts

  /** The outcome before anything rests. */
  function Matched(b: Book, r: Request): Outcome {
    Outcome(AfterMatch(b, r).(nextMarketOid := b.nextMarketOid + 1),
            [AcceptedResponse(r, b.nextMarketOid)] + MatchOf(b, r).responses,
            MatchOf(b, r).updates)
  }

  lemma MatchedParts(b: Book, r: Request, responses: seq<Response>)
    requires r.side != NoSide
    ensures var m := MatchOf(b, r);
            && Matched(b, r).book == (if r.side == Buy then Book(b.bids, m.queue, b.nextMarketOid + 1)
                                      else Book(m.queue, b.asks, b.nextMarketOid + 1))
            && responses + Matched(b, r).responses == responses + [AcceptedResponse(r, b.nextMarketOid)] + m.responses
            && Matched(b, r).updates == m.updates
  {
  }

  /** The outcome after the remainder rests. */
  function Rested(out: Outcome, o: Order): Outcome {
    Outcome(out.book.WithQueue(o.side, Insert(out.book.Queue(o.side), o)), out.responses, out.updates + [AddUpdate(o)])
  }

  lemma AddOrderParts(b: Book, r: Request, updates: seq<Update>)
    requires r.side != NoSide
    ensures var m, out := MatchOf(b, r), Matched(b, r);
            var o := RestingOrder(r, b.nextMarketOid, m.remains, NextPriority(out.book.Queue(r.side), r.price));
            && PriceTimeBook.AddOrder(b, r) == (if m.remains == 0 then out else Rested(out, o))
            && updates + Rested(out, o).updates == updates + out.updates + [AddUpdate(o)]
  {
  }

  /** What is left after matching may rest. */
  lemma ReadyAfterMatch(b: Book, r: Request, limits: Limits)
    requires Inv(b) && limits.levels > 0 && r.kind == NewRequest && Servable(b, r, limits)
    requires MatchOf(b, r).remains > 0
    ensures var b' := Matched(b, r).book;
            && KeyFree(b'.bids, (r.clientId, r.orderId)) && KeyFree(b'.asks, (r.clientId, r.orderId))
            && Fits(b'.bids, r.price, limits.levels) && Fits(b'.asks, r.price, limits.levels)
            && NoneCrosses(b'.Queue(Opposite(r.side)), r.side, r.price)
            && |b'.bids| + |b'.asks| < limits.orders
  {
    NoneCrossesAfterMatch(b, r);
  }

  /** The same under a used id. */
  lemma ReadyUnderUsedId(b: Book, r: Request, limits: Limits)
    requires Inv(b) && limits.levels > 0 && r.side != NoSide && MatchOf(b, r).remains > 0
    requires RestServable(AfterMatch(b, r), r, limits) && !KeyFreeIn(AfterMatch(b, r), (r.clientId, r.orderId))
    ensures var b' := Matched(b, r).book;
            && !KeyFreeIn(b', (r.clientId, r.orderId))
            && Fits(b'.bids, r.price, limits.levels) && Fits(b'.asks, r.price, limits.levels)
            && NoneCrosses(b'.Queue(Opposite(r.side)), r.side, r.price)
            && |b'.bids| + |b'.asks| < limits.orders
            && b'.Queue(r.side) == AfterMatch(b, r).Queue(r.side)
            && b'.Queue(Opposite(r.side)) == AfterMatch(b, r).Queue(Opposite(r.side))
  {
    NoneCrossesAfterMatch(b, r);
  }

  // ----- the reference CancelOrder in its two cases

  lemma CancelNothing(b: Book, r: Request, clients: nat)
    requires ClientsBelow(b.bids, clients) && ClientsBelow(b.asks, clients)
    requires r.clientId >= clients || (KeyFree(b.bids, (r.clientId, r.orderId)) && KeyFree(b.asks, (r.clientId, r.orderId)))
    ensures PriceTimeBook.CancelOrder(b, r) == Outcome(b, [RejectedResponse(r)], [])
  {
  }

  lemma CancelSomething(b: Book, r: Request, o: Order)
    requires Inv(b) && o.side != NoSide && o.Key() == (r.clientId, r.orderId)
    requires Find(b.Queue(o.side), o.Key()) < |b.Queue(o.side)| && b.Queue(o.side)[Find(b.Queue(o.side), o.Key())] == o
    ensures PriceTimeBook.CancelOrder(b, r) ==
            Outcome(b.WithQueue(o.side, Remove(b.Queue(o.side), o.Key())), [CancelledResponse(r, o)], [CancelUpdate(r, o)])
  {
  }
}
