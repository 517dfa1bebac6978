/** The five ways the linked book changes a queue of orders, each with its effect on the
    invariant and on the reference queue of the side. */
module QueueChanges {
  import opened Ring
  import opened PriceLevels
  import opened RestingOrders

  /** The blocks of these orders keep their links, price, side and key. */
  predicate SameLinks(s: Store, s': Store, q: seq<int>) {
    |s'.nodes| == |s.nodes| &&
    forall i :: 0 <= i < |q| ==>
      && s.Node(q[i])
      && s'.nodes[q[i]].next == s.nodes[q[i]].next && s'.nodes[q[i]].prev == s.nodes[q[i]].prev
      && s'.Item(q[i]).price == s.Item(q[i]).price && s'.Item(q[i]).side == s.Item(q[i]).side
  }

  lemma QueueKept(s: Store, s': Store, ords: set<int>, ords': set<int>, m: int)
    requires QueueAt(s, ords, m) && SamePrices(s.levels, s'.levels)
    requires m in s'.queues && s'.queues[m] == s.queues[m]
    requires s'.levels.blocks[m].item.order0 == s.levels.blocks[m].item.order0
    requires SameLinks(s, s', s.queues[m])
    requires forall i :: 0 <= i < |s.queues[m]| ==> s.queues[m][i] in ords'
    ensures QueueAt(s', ords', m)
  {
    var q := s.queues[m];
    RingFrame(s.nodes, s'.nodes, q);
    forall i | 0 <= i < |q|
      ensures Belongs(s', ords', m, q[i])
    {
      assert Belongs(s, ords, m, q[i]);
    }
  }

  /** Only p and the orders of level l may have changed; all other queues are as they were. */
  predicate OnlyAround(s: Store, s': Store, l: int, p: int) {
    && |s'.nodes| == |s.nodes|
    && (forall x :: 0 <= x < |s.nodes| && x != p && !(l in s.queues && x in s.queues[l]) ==> s'.nodes[x] == s.nodes[x])
    && (forall x :: 0 <= x < |s.nodes| ==> s'.nodes[x].item == s.nodes[x].item)
    && SamePrices(s.levels, s'.levels)
    && (forall m :: 0 <= m < |s.levels.blocks| && m != l ==> s'.levels.blocks[m].item.order0 == s.levels.blocks[m].item.order0)
  }

  /** Orders of another level are neither p nor around it. */
  lemma NotAround(s: Store, s': Store, ords: set<int>, lvls: set<int>, l: int, p: int, m: int, x: int)
    requires SlotsExact(s.levels, lvls) && m in lvls && m != l && QueueAt(s, ords, m)
    requires if l in lvls then QueueAt(s, ords, l) && (p in ords ==> p in s.queues[l]) else l !in s.queues && p !in ords
    requires OnlyAround(s, s', l, p)
    requires x in s.queues[m]
    ensures s.Node(x) && x != p && x in ords && s'.nodes[x] == s.nodes[x]
  {
    QueueOwner(s, ords, lvls, m, x);
    if l in lvls { QueuesDisjoint(s, ords, lvls, m, l, x); }
  }

  lemma OtherQueueKept(s: Store, s': Store, ords: set<int>, ords': set<int>, lvls: set<int>, l: int, p: int, m: int)
    requires SlotsExact(s.levels, lvls) && m in lvls && m != l && QueueAt(s, ords, m)
    requires if l in lvls then QueueAt(s, ords, l) && (p in ords ==> p in s.queues[l]) else l !in s.queues && p !in ords
    requires OnlyAround(s, s', l, p)
    requires m in s'.queues && s'.queues[m] == s.queues[m]
    requires ords - {p} <= ords'
    ensures QueueAt(s', ords', m)
  {
    var q := s.queues[m];
    forall i | 0 <= i < |q|
      ensures s.Node(q[i]) && s'.nodes[q[i]] == s.nodes[q[i]] && q[i] in ords'
    {
      NotAround(s, s', ords, lvls, l, p, m, q[i]);
    }
    QueueKept(s, s', ords, ords', m);
  }

  // ----- the parts of the invariant after a change around level l and order p

  lemma QueuesAfter(s: Store, s': Store, ords: set<int>, ords': set<int>, lvls: set<int>, lvls': set<int>, l: int, p: int)
    requires SlotsExact(s.levels, lvls) && Queues(s, ords, lvls)
    requires if l in lvls then l in s.queues && (p in ords ==> p in s.queues[l]) else l !in s.queues && p !in ords
    requires OnlyAround(s, s', l, p)
    requires lvls' - {l} <= lvls && ords - {p} <= ords'
    requires forall m :: m in lvls' && m != l ==> m in s.queues && m in s'.queues && s'.queues[m] == s.queues[m]
    requires l in lvls' ==> QueueAt(s', ords', l)
    requires s'.queues.Keys == lvls'
    ensures Queues(s', ords', lvls')
  {
    forall m | m in lvls'
      ensures QueueAt(s', ords', m)
    {
      if m != l { OtherQueueKept(s, s', ords, ords', lvls, l, p, m); }
    }
  }

  lemma LocatedAfter(s: Store, s': Store, ords: set<int>, ords': set<int>, lvls: set<int>, lvls': set<int>, l: int, p: int)
    requires SlotsExact(s.levels, lvls) && SlotsExact(s'.levels, lvls') && |s'.levels.slots| == |s.levels.slots|
    requires Located(s, ords, lvls)
    requires OnlyAround(s, s', l, p)
    requires lvls - {l} <= lvls' && ords' - {p} <= ords
    requires forall m :: m in lvls && m != l && m in s.queues ==> m in s'.queues && s'.queues[m] == s.queues[m]
    requires p in ords' ==>
               && l in lvls' && l in s'.queues && p in s'.queues[l]
               && s'.Node(p) && s'.levels.Block(l) && s'.levels.Price(l) == s'.Item(p).price
    requires forall x :: x in ords' && x != p && s.Node(x) && s.LevelOf(x) == l ==> l in lvls' && l in s'.queues && x in s'.queues[l]
    ensures Located(s', ords', lvls')
  {
    forall x | x in ords'
      ensures LocatedAt(s', lvls', x)
    {
      if x != p {
        assert LocatedAt(s, lvls, x);
        var m := s.LevelOf(x);
        assert SlotExact(s.levels, lvls, s.levels.Slot(s.Item(x).price));
        assert s'.Item(x) == s.Item(x);
        assert OwnsSlot(s.levels, m);
        assert OwnsSlot(s'.levels, m);
      } else {
        assert OwnsSlot(s'.levels, l);
      }
    }
  }

  lemma IndexedAfterAdd(s: Store, s': Store, ords: set<int>, p: int)
    requires Indexed(s, ords) && p !in ords && s.Node(p)
    requires |s'.nodes| == |s.nodes| && forall x :: 0 <= x < |s.nodes| ==> s'.nodes[x].item == s.nodes[x].item
    requires s.Item(p).Key() !in s.index && s'.index == s.index[s.Item(p).Key() := p]
    ensures Indexed(s', ords + {p})
  {
    forall x | x in ords + {p}
      ensures IndexedAt(s', x)
    {
      if x != p { assert IndexedAt(s, x); }
    }
    forall key | key in s'.index
      ensures NamesOrder(s', ords + {p}, key)
    {
      if key in s.index { assert NamesOrder(s, ords, key); }
    }
  }

  lemma IndexedAfterRemove(s: Store, s': Store, ords: set<int>, p: int)
    requires Indexed(s, ords) && p in ords && s.Node(p)
    requires |s'.nodes| == |s.nodes| && forall x :: 0 <= x < |s.nodes| ==> s'.nodes[x].item == s.nodes[x].item
    requires s'.index == s.index - {s.Item(p).Key()}
    ensures Indexed(s', ords - {p})
  {
    assert IndexedAt(s, p);
    forall x | x in ords && x != p
      ensures IndexedAt(s', x)
    {
      assert IndexedAt(s, x);
    }
    forall key | key in s'.index
      ensures NamesOrder(s', ords - {p}, key)
    {
      assert NamesOrder(s, ords, key);
    }
  }

  // ----- what the client map must be asked

  /** Writing the map entry of a key keeps the map exact if and only if no live order has the key:
      otherwise the older order stays in the book and can no longer be cancelled. */
  lemma FreshKeyIff(s: Store, s': Store, ords: set<int>, p: int)
    requires Indexed(s, ords) && p !in ords && s.Node(p)
    requires s' == s.(index := s.index[s.Item(p).Key() := p])
    ensures Indexed(s', ords + {p}) <==> forall x :: x in ords && s.Node(x) ==> s.Item(x).Key() != s.Item(p).Key()
  {
    if s.Item(p).Key() in s.index {
      var x := s.index[s.Item(p).Key()];
      assert NamesOrder(s, ords, s.Item(p).Key());
      assert !IndexedAt(s', x);
    } else {
      IndexedAfterAdd(s, s', ords, p);
      forall x | x in ords
        ensures s.Node(x) && s.Item(x).Key() != s.Item(p).Key()
      {
        assert IndexedAt(s, x);
      }
    }
  }

  /** With the key of a live order, the entry now names the new order, and no entry at all names the
      older one, wherever it rests. */
  lemma UsedKeyIsLost(s: Store, s': Store, ords: set<int>, key: (nat, nat), p: int)
    requires Indexed(s, ords) && p !in ords && key in s.index && s'.index == s.index[key := p]
    ensures s.index[key] in ords && s'.index[key] == p
    ensures forall k :: k in s'.index ==> s'.index[k] != s.index[key]
  {
    assert NamesOrder(s, ords, key);
    forall k | k in s'.index
      ensures s'.index[k] != s.index[key]
    {
      if k != key { assert NamesOrder(s, ords, k); }
    }
  }

  // ----- the reference queue after a change

  lemma ItemsSame(nodes: seq<OrderNode>, nodes': seq<OrderNode>, f: seq<int>)
    requires |nodes'| == |nodes| && Blocks(nodes, f)
    requires forall x :: 0 <= x < |nodes| ==> nodes'[x].item == nodes[x].item
    ensures Items(nodes', f) == Items(nodes, f)
  {
  }

  lemma ItemsAppend(nodes: seq<OrderNode>, f: seq<int>, g: seq<int>)
    requires Blocks(nodes, f) && Blocks(nodes, g)
    ensures Blocks(nodes, f + g) && Items(nodes, f + g) == Items(nodes, f) + Items(nodes, g)
  {
  }
}
