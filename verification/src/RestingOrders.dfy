/** The orders of the linked book: a ring of pool blocks at each price level, the client map
    that indexes the same blocks, and the reference queue they stand for. */
module RestingOrders {
  import opened Exchange
  import opened Ring
  import opened PriceLevels

  type OrderNode = Node<Order>

  /** Everything the linked book is made of; queues gives the ring of orders of each level. */
  datatype Store = Store(
    nodes: seq<OrderNode>,
    levels: View,
    index: map<(nat, nat), int>,
    queues: map<int, seq<int>>)
  {
    predicate Node(p: int) { 0 <= p < |nodes| }

    function Item(p: int): Order
      requires Node(p)
    {
      nodes[p].item
    }

    /** The level the price array names for the price of order p. */
    function LevelOf(p: int): int
      requires Node(p) && |levels.slots| > 0
    {
      levels.slots[levels.Slot(nodes[p].item.price)]
    }
  }

  predicate Belongs(s: Store, ords: set<int>, l: int, p: int)
    requires s.levels.Block(l)
  {
    p in ords && s.Node(p) && s.Item(p).price == s.levels.Price(l) && s.Item(p).side == s.levels.SideOf(l)
  }

  /** The orders of level l form a ring from its first order, all at its price and on its side. */
  predicate QueueAt(s: Store, ords: set<int>, l: int) {
    && s.levels.Block(l)
    && l in s.queues
    && IsRing(s.nodes, s.queues[l])
    && s.queues[l][0] == s.levels.blocks[l].item.order0
    && (forall i {:trigger Belongs(s, ords, l, s.queues[l][i])} :: 0 <= i < |s.queues[l]| ==> Belongs(s, ords, l, s.queues[l][i]))
  }

  predicate Queues(s: Store, ords: set<int>, lvls: set<int>) {
    s.queues.Keys == lvls && forall l {:trigger QueueAt(s, ords, l)} :: l in lvls ==> QueueAt(s, ords, l)
  }

  predicate LocatedAt(s: Store, lvls: set<int>, p: int) {
    && s.Node(p) && |s.levels.slots| > 0
    && s.LevelOf(p) in lvls && s.LevelOf(p) in s.queues
    && p in s.queues[s.LevelOf(p)]
  }

  /** Every order in use rests in the queue of the level its price leads to. */
  predicate Located(s: Store, ords: set<int>, lvls: set<int>) {
    forall p {:trigger LocatedAt(s, lvls, p)} :: p in ords ==> LocatedAt(s, lvls, p)
  }

  predicate IndexedAt(s: Store, p: int) {
    s.Node(p) && s.Item(p).Key() in s.index && s.index[s.Item(p).Key()] == p
  }

  predicate NamesOrder(s: Store, ords: set<int>, key: (nat, nat))
    requires key in s.index
  {
    s.index[key] in ords && s.Node(s.index[key]) && s.Item(s.index[key]).Key() == key
  }

  /** The client map names exactly the orders in use, each under its own key. */
  predicate Indexed(s: Store, ords: set<int>) {
    && (forall p {:trigger IndexedAt(s, p)} :: p in ords ==> IndexedAt(s, p))
    && (forall key {:trigger NamesOrder(s, ords, key)} :: key in s.index ==> NamesOrder(s, ords, key))
  }

  predicate StoreValid(s: Store, ords: set<int>, lvls: set<int>) {
    LevelsValid(s.levels, lvls) && Queues(s, ords, lvls) && Located(s, ords, lvls) && Indexed(s, ords)
  }

  /** All but the client map: rings, price array and queues agree. */
  predicate StoreSound(s: Store, ords: set<int>, lvls: set<int>) {
    LevelsValid(s.levels, lvls) && Queues(s, ords, lvls) && Located(s, ords, lvls)
  }

  // ----- the reference queue of a side

  /** The orders of the levels in r, level after level. */
  function Flat(queues: map<int, seq<int>>, r: seq<int>): seq<int> {
    if r == [] then [] else (if r[0] in queues then queues[r[0]] else []) + Flat(queues, r[1..])
  }

  function Items(nodes: seq<OrderNode>, f: seq<int>): (q: seq<Order>)
    requires Blocks(nodes, f)
    ensures |q| == |f|
  {
    seq(|f|, i requires 0 <= i < |f| => nodes[f[i]].item)
  }

  lemma {:induction false} FlatAppend(queues: map<int, seq<int>>, a: seq<int>, b: seq<int>)
    ensures Flat(queues, a + b) == Flat(queues, a) + Flat(queues, b)
  {
    if a == [] {
      assert a + b == b;
    } else {
      assert (a + b)[1..] == a[1..] + b;
      FlatAppend(queues, a[1..], b);
    }
  }

  lemma FlatSplit(queues: map<int, seq<int>>, r: seq<int>, k: nat)
    requires k < |r| && r[k] in queues
    ensures Flat(queues, r) == Flat(queues, r[..k]) + queues[r[k]] + Flat(queues, r[k + 1..])
  {
    assert r == r[..k] + ([r[k]] + r[k + 1..]);
    FlatAppend(queues, r[..k], [r[k]] + r[k + 1..]);
    assert ([r[k]] + r[k + 1..])[1..] == r[k + 1..];
  }

  lemma {:induction false} FlatFrame(queues: map<int, seq<int>>, queues': map<int, seq<int>>, r: seq<int>)
    requires forall i :: 0 <= i < |r| ==> r[i] in queues && r[i] in queues' && queues'[r[i]] == queues[r[i]]
    ensures Flat(queues', r) == Flat(queues, r)
  {
    if r != [] {
      assert forall i :: 0 <= i < |r[1..]| ==> r[1..][i] == r[i + 1];
      FlatFrame(queues, queues', r[1..]);
    }
  }

  /** Each entry of the flat queue is an order of one of the levels. */
  lemma {:induction false} FlatMember(queues: map<int, seq<int>>, r: seq<int>, i: nat) returns (k: nat)
    requires i < |Flat(queues, r)|
    ensures k < |r| && r[k] in queues && Flat(queues, r)[i] in queues[r[k]]
  {
    var q := if r[0] in queues then queues[r[0]] else [];
    if i < |q| {
      k := 0;
    } else {
      assert Flat(queues, r)[i] == Flat(queues, r[1..])[i - |q|];
      k := FlatMember(queues, r[1..], i - |q|);
      k := k + 1;
    }
  }

  lemma FlatBelongs(s: Store, ords: set<int>, lvls: set<int>, side: Side, r: seq<int>, i: nat) returns (k: nat)
    requires Queues(s, ords, lvls) && (forall j :: 0 <= j < |r| ==> OnSide(s.levels, lvls, side, r[j]))
    requires i < |Flat(s.queues, r)|
    ensures k < |r| && OnSide(s.levels, lvls, side, r[k]) && Belongs(s, ords, r[k], Flat(s.queues, r)[i])
    ensures Flat(s.queues, r)[i] in s.queues[r[k]]
  {
    k := FlatMember(s.queues, r, i);
    assert QueueAt(s, ords, r[k]);
    var j :| 0 <= j < |s.queues[r[k]]| && s.queues[r[k]][j] == Flat(s.queues, r)[i];
    assert Belongs(s, ords, r[k], s.queues[r[k]][j]);
  }

  lemma FlatBlocks(s: Store, ords: set<int>, lvls: set<int>, side: Side, r: seq<int>)
    requires Queues(s, ords, lvls) && (forall j :: 0 <= j < |r| ==> OnSide(s.levels, lvls, side, r[j]))
    ensures Blocks(s.nodes, Flat(s.queues, r))
  {
    var f := Flat(s.queues, r);
    forall i | 0 <= i < |f|
      ensures 0 <= f[i] < |s.nodes|
    {
      var k := FlatBelongs(s, ords, lvls, side, r, i);
    }
  }

  // ----- an order rests in one queue only

  /** The price array leads from an order of a level back to that level. */
  lemma QueueOwner(s: Store, ords: set<int>, lvls: set<int>, l: int, p: int)
    requires SlotsExact(s.levels, lvls) && l in lvls && QueueAt(s, ords, l)
    requires p in s.queues[l]
    ensures s.Node(p) && s.LevelOf(p) == l && p in ords
  {
    var i :| 0 <= i < |s.queues[l]| && s.queues[l][i] == p;
    assert Belongs(s, ords, l, s.queues[l][i]);
    assert OwnsSlot(s.levels, l);
  }

  lemma QueuesDisjoint(s: Store, ords: set<int>, lvls: set<int>, l: int, m: int, p: int)
    requires SlotsExact(s.levels, lvls) && l in lvls && m in lvls && l != m
    requires QueueAt(s, ords, l) && QueueAt(s, ords, m)
    requires p in s.queues[l]
    ensures p !in s.queues[m]
  {
    QueueOwner(s, ords, lvls, l, p);
    if p in s.queues[m] {
      QueueOwner(s, ords, lvls, m, p);
    }
  }
}
