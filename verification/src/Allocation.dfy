/** Taking a block from a pool touches nothing the book already holds, and a free level block
    is always there when a level has to be opened. */
module Allocation {
  import opened Exchange
  import opened Pools
  import opened Ring
  import opened PriceLevels
  import opened RestingOrders
  import opened QueueChanges
  import opened QueueViews

  // ----- a level block is taken

  /** v' is v with block l, which is not live, filled in. */
  predicate LevelTaken(v: View, v': View, live: set<int>, l: int) {
    v.Block(l) && l !in live && v' == v.(blocks := v'.blocks) && |v'.blocks| == |v.blocks| && v'.blocks == v.blocks[l := v'.blocks[l]]
  }

  lemma TakenRing(v: View, v': View, live: set<int>, l: int, side: Side)
    requires LevelTaken(v, v', live, l) && SideRing(v, side) && RingMembers(v, live, side)
    ensures SideRing(v', side) && RingMembers(v', live, side)
  {
    var r := v.Ring(side);
    forall i | 0 <= i < |r|
      ensures OnSide(v', live, side, r[i]) && v'.blocks[r[i]] == v.blocks[r[i]]
    {
      assert OnSide(v, live, side, r[i]);
    }
    if r != [] { RingFrame(v.blocks, v'.blocks, r); }
  }

  lemma TakenSlots(v: View, v': View, live: set<int>, l: int)
    requires LevelTaken(v, v', live, l) && SlotsExact(v, live)
    ensures SlotsExact(v', live)
  {
    forall i: nat | i < |v'.slots|
      ensures SlotExact(v', live, i)
    {
      assert SlotExact(v, live, i);
    }
    forall m | m in live
      ensures OwnsSlot(v', m)
    {
      assert OwnsSlot(v, m);
    }
  }

  lemma TakenHouse(v: View, v': View, live: set<int>, l: int)
    requires LevelTaken(v, v', live, l) && Housed(v, live)
    ensures Housed(v', live)
  {
    forall m | m in live
      ensures HousedAt(v', m)
    {
      assert HousedAt(v, m);
    }
  }

  lemma TakenSorted(v: View, v': View, live: set<int>, l: int, side: Side)
    requires LevelTaken(v, v', live, l) && SideSorted(v, side) && RingMembers(v, live, side)
    ensures SideSorted(v', side)
  {
    var r := v.Ring(side);
    forall i | 0 <= i < |r|
      ensures v'.Block(v'.Ring(side)[i]) && v'.blocks[r[i]] == v.blocks[r[i]]
    {
      assert OnSide(v, live, side, r[i]);
    }
    forall i, j | 0 <= i < j < |r|
      ensures SortedAt(v', side, i, j)
    {
      assert SortedAt(v, side, i, j);
    }
  }

  lemma TakenLevels(v: View, v': View, live: set<int>, l: int)
    requires LevelTaken(v, v', live, l) && LevelsValid(v, live)
    ensures LevelsValid(v', live)
  {
    TakenRing(v, v', live, l, Buy);
    TakenRing(v, v', live, l, Sell);
    TakenSlots(v, v', live, l);
    TakenHouse(v, v', live, l);
    TakenSorted(v, v', live, l, Buy);
    TakenSorted(v, v', live, l, Sell);
  }

  lemma TakenLevelQueues(s: Store, s': Store, ords: set<int>, lvls: set<int>, l: int)
    requires Queues(s, ords, lvls) && LevelTaken(s.levels, s'.levels, lvls, l) && s' == s.(levels := s'.levels)
    ensures Queues(s', ords, lvls)
  {
    forall m | m in lvls
      ensures QueueAt(s', ords, m)
    {
      assert QueueAt(s, ords, m);
      forall i | 0 <= i < |s.queues[m]|
        ensures Belongs(s', ords, m, s.queues[m][i])
      {
        assert Belongs(s, ords, m, s.queues[m][i]);
      }
    }
  }

  lemma TakenLevelLocated(s: Store, s': Store, ords: set<int>, lvls: set<int>, l: int)
    requires Located(s, ords, lvls) && LevelTaken(s.levels, s'.levels, lvls, l) && s' == s.(levels := s'.levels)
    ensures Located(s', ords, lvls)
  {
    forall p | p in ords
      ensures LocatedAt(s', lvls, p)
    {
      assert LocatedAt(s, lvls, p);
    }
  }

  lemma TakenLevelIndexed(s: Store, s': Store, ords: set<int>)
    requires Indexed(s, ords) && s' == s.(levels := s'.levels)
    ensures Indexed(s', ords)
  {
    forall p | p in ords
      ensures IndexedAt(s', p)
    {
      assert IndexedAt(s, p);
    }
    forall key | key in s'.index
      ensures NamesOrder(s', ords, key)
    {
      assert NamesOrder(s, ords, key);
    }
  }

  /** Allocating a level block keeps the whole book. */
  lemma TakenLevelStore(s: Store, s': Store, ords: set<int>, lvls: set<int>, l: int)
    requires StoreValid(s, ords, lvls) && LevelTaken(s.levels, s'.levels, lvls, l) && s' == s.(levels := s'.levels)
    ensures StoreValid(s', ords, lvls)
  {
    TakenLevels(s.levels, s'.levels, lvls, l);
    TakenLevelQueues(s, s', ords, lvls, l);
    TakenLevelLocated(s, s', ords, lvls, l);
    TakenLevelIndexed(s, s', ords);
  }

  // ----- an order block is taken

  /** s' is s with block p, which holds no live order, filled in. */
  predicate OrderTaken(s: Store, s': Store, ords: set<int>, p: int) {
    s.Node(p) && p !in ords && s' == s.(nodes := s'.nodes) && |s'.nodes| == |s.nodes| && s'.nodes == s.nodes[p := s'.nodes[p]]
  }

  lemma TakenOrderQueues(s: Store, s': Store, ords: set<int>, lvls: set<int>, p: int)
    requires Queues(s, ords, lvls) && OrderTaken(s, s', ords, p)
    ensures Queues(s', ords, lvls)
  {
    forall m | m in lvls
      ensures QueueAt(s', ords, m)
    {
      assert QueueAt(s, ords, m);
      forall i | 0 <= i < |s.queues[m]|
        ensures s.Node(s.queues[m][i]) && s.queues[m][i] in ords
      {
        assert Belongs(s, ords, m, s.queues[m][i]);
      }
      QueueKept(s, s', ords, ords, m);
    }
  }

  lemma TakenOrderStore(s: Store, s': Store, ords: set<int>, lvls: set<int>, p: int)
    requires StoreValid(s, ords, lvls) && OrderTaken(s, s', ords, p)
    ensures StoreValid(s', ords, lvls)
  {
    TakenOrderQueues(s, s', ords, lvls, p);
    forall x | x in ords
      ensures LocatedAt(s', lvls, x) && IndexedAt(s', x)
    {
      assert LocatedAt(s, lvls, x) && IndexedAt(s, x);
    }
    forall key | key in s'.index
      ensures NamesOrder(s', ords, key)
    {
      assert NamesOrder(s, ords, key);
    }
  }

  lemma TakenOrderRest(s: Store, s': Store, ords: set<int>, lvls: set<int>, side: Side, p: int)
    requires Queues(s, ords, lvls) && RingMembers(s.levels, lvls, side) && OrderTaken(s, s', ords, p)
    requires Queues(s', ords, lvls)
    ensures Rest(s', ords, lvls, side) == Rest(s, ords, lvls, side)
  {
    var r := s.levels.Ring(side);
    var f := Flat(s.queues, r);
    FlatBlocks(s, ords, lvls, side, r);
    forall i | 0 <= i < |f|
      ensures f[i] != p
    {
      var k := OrdersPrice(s, ords, lvls, side, r, i);
    }
    assert Items(s'.nodes, f) == Items(s.nodes, f);
  }

  // ----- the level pool cannot run out

  /** Each live level owns a slot of its own. */
  lemma {:induction false} SlotsOwned(v: View, live: set<int>) returns (owned: set<int>)
    requires |v.slots| > 0 && forall l :: l in live ==> v.Block(l) && v.slots[v.Slot(v.Price(l))] == l
    ensures |owned| == |live| && forall i :: i in owned ==> 0 <= i < |v.slots| && v.slots[i] in live
    decreases |live|
  {
    if l :| l in live {
      owned := SlotsOwned(v, live - {l});
      owned := owned + {v.Slot(v.Price(l)) as int};
    } else {
      owned := {};
      assert forall x :: x !in live;
      assert live == {};
    }
  }

  /** As long as one slot is empty there are fewer live levels than slots, so a pool with a block
      for each slot has a free block. */
  lemma LevelBlockIsFree(v: View, live: set<int>, i: nat)
    requires SlotsExact(v, live) && i < |v.slots| && v.slots[i] == NULL
    ensures |live| < |v.slots|
  {
    forall l | l in live
      ensures v.Block(l) && v.slots[v.Slot(v.Price(l))] == l
    {
      assert OwnsSlot(v, l);
    }
    var owned := SlotsOwned(v, live);
    assert forall j :: j in owned ==> v.Block(v.slots[j]);
    Pigeonhole(owned + {i as int}, |v.slots|);
  }
}
