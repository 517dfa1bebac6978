/** The price levels of both sides: two rings of pool blocks and the one array of slots that
    indexes them by price. */
module PriceLevels {
  import opened Exchange
  import opened Pools
  import opened Ring
  import opened PriceIndex
  import opened PriceTimeBook

  /** One price level, without its links. order0 is the oldest order at the price. */
  datatype Level = Level(side: Side, price: int, order0: int)

  type LevelNode = Node<Level>

  /** The level blocks, the slots and the best levels as the book holds them, and for each side
      the ring the best level starts. */
  datatype View = View(
    blocks: seq<LevelNode>,
    slots: seq<int>,
    bestBid: int,
    bestAsk: int,
    bids: seq<int>,
    asks: seq<int>)
  {
    function Best(side: Side): int { if side == Buy then bestBid else bestAsk }

    function Ring(side: Side): seq<int> { if side == Buy then bids else asks }

    function WithBest(side: Side, best: int): View {
      if side == Buy then this.(bestBid := best) else this.(bestAsk := best)
    }

    function WithRing(side: Side, r: seq<int>): View {
      if side == Buy then this.(bids := r) else this.(asks := r)
    }

    predicate Block(l: int) { 0 <= l < |blocks| }

    function Price(l: int): int
      requires Block(l)
    {
      blocks[l].item.price
    }

    function SideOf(l: int): Side
      requires Block(l)
    {
      blocks[l].item.side
    }

    function Slot(price: int): (i: nat)
      requires |slots| > 0
      ensures i < |slots|
    {
      PriceToIndex(price, |slots|)
    }
  }

  predicate SideRing(v: View, side: Side) {
    if v.Ring(side) == [] then v.Best(side) == NULL
    else IsRing(v.blocks, v.Ring(side)) && v.Best(side) == v.Ring(side)[0]
  }

  predicate OnSide(v: View, live: set<int>, side: Side, l: int) {
    l in live && v.Block(l) && v.SideOf(l) == side
  }

  /** The levels on the ring of a side are live levels of that side. */
  predicate RingMembers(v: View, live: set<int>, side: Side) {
    forall i {:trigger OnSide(v, live, side, v.Ring(side)[i])} :: 0 <= i < |v.Ring(side)| ==> OnSide(v, live, side, v.Ring(side)[i])
  }

  predicate HousedAt(v: View, l: int) {
    v.Block(l) && v.SideOf(l) != NoSide && l in v.Ring(v.SideOf(l))
  }

  /** Every live level is on the ring of its side. */
  predicate Housed(v: View, live: set<int>) {
    forall l {:trigger HousedAt(v, l)} :: l in live ==> HousedAt(v, l)
  }

  predicate SlotExact(v: View, live: set<int>, i: nat)
    requires i < |v.slots|
  {
    v.slots[i] == NULL || (v.slots[i] in live && v.Block(v.slots[i]) && v.Slot(v.Price(v.slots[i])) == i)
  }

  predicate OwnsSlot(v: View, l: int)
    requires |v.slots| > 0
  {
    v.Block(l) && v.slots[v.Slot(v.Price(l))] == l
  }

  /** A slot is filled exactly when a level of its price is live, and then names it. */
  predicate SlotsExact(v: View, live: set<int>) {
    && |v.slots| > 0
    && (forall l {:trigger OwnsSlot(v, l)} :: l in live ==> OwnsSlot(v, l))
    && (forall i: nat :: i < |v.slots| ==> SlotExact(v, live, i))
  }

  predicate SortedAt(v: View, side: Side, i: int, j: int)
    requires 0 <= i < j < |v.Ring(side)| && v.Block(v.Ring(side)[i]) && v.Block(v.Ring(side)[j])
  {
    Improves(side, v.Price(v.Ring(side)[i]), v.Price(v.Ring(side)[j]))
  }

  /** Best price first. */
  predicate SideSorted(v: View, side: Side) {
    && (forall i {:trigger v.Block(v.Ring(side)[i])} :: 0 <= i < |v.Ring(side)| ==> v.Block(v.Ring(side)[i]))
    && (forall i, j {:trigger SortedAt(v, side, i, j)} :: 0 <= i < j < |v.Ring(side)| ==> SortedAt(v, side, i, j))
  }

  predicate LevelsValid(v: View, live: set<int>) {
    && SideRing(v, Buy) && SideRing(v, Sell)
    && RingMembers(v, live, Buy) && RingMembers(v, live, Sell) && Housed(v, live)
    && SlotsExact(v, live)
    && SideSorted(v, Buy) && SideSorted(v, Sell)
  }

  /** Sides and prices of all blocks are the same; links and first orders may differ. */
  predicate SamePrices(v: View, v': View) {
    |v'.blocks| == |v.blocks| &&
    forall l :: 0 <= l < |v.blocks| ==> v'.blocks[l].item.side == v.blocks[l].item.side && v'.blocks[l].item.price == v.blocks[l].item.price
  }

  /** Number of levels that are strictly better than the price: the place of a new level. */
  function LevelPlace(v: View, side: Side, price: int, r: seq<int>): (k: nat)
    requires forall i :: 0 <= i < |r| ==> v.Block(r[i])
    ensures k <= |r|
    ensures forall i :: 0 <= i < k ==> Improves(side, v.Price(r[i]), price)
    ensures k < |r| ==> !Improves(side, v.Price(r[k]), price)
  {
    if r == [] || !Improves(side, v.Price(r[0]), price) then 0 else 1 + LevelPlace(v, side, price, r[1..])
  }

  lemma PlaceIsFirst(v: View, side: Side, price: int, r: seq<int>, k: nat)
    requires forall i :: 0 <= i < |r| ==> v.Block(r[i])
    requires k <= |r| && forall i :: 0 <= i < k ==> Improves(side, v.Price(r[i]), price)
    requires k < |r| ==> !Improves(side, v.Price(r[k]), price)
    ensures LevelPlace(v, side, price, r) == k
  {
  }

  // ----- removing a level

  /** The blocks after level l has been taken off its ring. */
  function Unlinked(blocks: seq<LevelNode>, l: int): seq<LevelNode>
    requires 0 <= l < |blocks| && 0 <= blocks[l].prev < |blocks| && 0 <= blocks[l].next < |blocks|
    requires blocks[l].next != l ==> blocks[l].prev != l
  {
    if blocks[l].next == l then blocks
    else Bypass(blocks, l)[l := Node(blocks[l].item, NULL, NULL)]
  }

  lemma UnlinkRing(v: View, side: Side, k: nat)
    requires SideRing(v, side) && k < |v.Ring(side)|
    ensures var l := v.Ring(side)[k];
            && v.Block(l) && v.Block(v.blocks[l].prev) && v.Block(v.blocks[l].next)
            && (v.blocks[l].next == l <==> |v.Ring(side)| == 1)
            && (v.blocks[l].next != l ==> v.blocks[l].prev != l)
            && (|v.Ring(side)| > 1 && k == 0 ==> v.blocks[l].next == v.Ring(side)[1])
            && (|v.Ring(side)| > 1 ==> IsRing(Unlinked(v.blocks, l), Without(v.Ring(side), k)))
  {
    var r := v.Ring(side);
    var l := r[k];
    assert LinkedAt(v.blocks, r, k);
    if |r| > 1 {
      RingBypass(v.blocks, r, k);
      RingFrame(Bypass(v.blocks, l), Unlinked(v.blocks, l), Without(r, k));
    }
  }

  /** The view after removePriceLevel. */
  function RemoveLevel(v: View, side: Side, k: nat): View
    requires SideRing(v, side) && k < |v.Ring(side)| && |v.slots| > 0
  {
    UnlinkRing(v, side, k);
    var r := v.Ring(side);
    var l := r[k];
    var r' := Without(r, k);
    v.(blocks := Unlinked(v.blocks, l), slots := v.slots[v.Slot(v.Price(l)) := NULL])
     .WithRing(side, r')
     .WithBest(side, if r' == [] then NULL else r'[0])
  }

  lemma RemoveLevelItems(v: View, side: Side, k: nat)
    requires SideRing(v, side) && k < |v.Ring(side)| && |v.slots| > 0
    ensures |RemoveLevel(v, side, k).blocks| == |v.blocks|
    ensures forall m :: 0 <= m < |v.blocks| ==> RemoveLevel(v, side, k).blocks[m].item == v.blocks[m].item
  {
  }

  // Each of the next lemmas looks at one part of the invariant; v' is v with level l gone.

  lemma RemoveFromMembers(v: View, v': View, live: set<int>, side: Side, k: nat)
    requires RingMembers(v, live, side) && SamePrices(v, v')
    requires k < |v.Ring(side)| && NoDup(v.Ring(side)) && v'.Ring(side) == Without(v.Ring(side), k)
    ensures RingMembers(v', live - {v.Ring(side)[k]}, side)
  {
    var r, r' := v.Ring(side), v'.Ring(side);
    forall i | 0 <= i < |r'|
      ensures OnSide(v', live - {r[k]}, side, r'[i])
    {
      var i0 := if i < k then i else i + 1;
      assert r'[i] == r[i0];
      assert OnSide(v, live, side, r[i0]);
    }
  }

  lemma OtherMembers(v: View, v': View, live: set<int>, live': set<int>, side: Side, l: int)
    requires RingMembers(v, live, side) && SamePrices(v, v') && v'.Ring(side) == v.Ring(side)
    requires live - {l} <= live' && v.Block(l) && v.SideOf(l) != side
    ensures RingMembers(v', live', side)
  {
    var r := v.Ring(side);
    forall i | 0 <= i < |r|
      ensures OnSide(v', live', side, r[i])
    {
      assert OnSide(v, live, side, r[i]);
    }
  }

  lemma RemoveFromHouse(v: View, v': View, live: set<int>, side: Side, k: nat)
    requires Housed(v, live) && SamePrices(v, v') && side != NoSide
    requires k < |v.Ring(side)| && v'.Ring(side) == Without(v.Ring(side), k)
    requires v'.Ring(Opposite(side)) == v.Ring(Opposite(side))
    ensures Housed(v', live - {v.Ring(side)[k]})
  {
    var r, r' := v.Ring(side), v'.Ring(side);
    forall m | m in live && m != r[k]
      ensures HousedAt(v', m)
    {
      assert HousedAt(v, m);
      if v.SideOf(m) == side {
        var i :| 0 <= i < |r| && r[i] == m;
        assert m == r'[if i < k then i else i - 1];
      }
    }
  }

  lemma RemoveFromSlots(v: View, v': View, live: set<int>, l: int)
    requires SlotsExact(v, live) && SamePrices(v, v') && l in live
    requires v.Block(l) && v'.slots == v.slots[v.Slot(v.Price(l)) := NULL]
    ensures SlotsExact(v', live - {l})
  {
    forall i: nat | i < |v'.slots|
      ensures SlotExact(v', live - {l}, i)
    {
      assert SlotExact(v, live, i);
    }
    forall m | m in live && m != l
      ensures OwnsSlot(v', m)
    {
      assert OwnsSlot(v, m) && OwnsSlot(v, l);
    }
  }

  lemma RemoveFromSorted(v: View, v': View, side: Side, k: nat)
    requires SideSorted(v, side) && SamePrices(v, v')
    requires k < |v.Ring(side)| && v'.Ring(side) == Without(v.Ring(side), k)
    ensures SideSorted(v', side)
  {
    forall i | 0 <= i < |v'.Ring(side)|
      ensures v'.Block(v'.Ring(side)[i])
    {
      assert v.Block(v.Ring(side)[if i < k then i else i + 1]);
    }
    forall i, j | 0 <= i < j < |v'.Ring(side)|
      ensures SortedAt(v', side, i, j)
    {
      assert SortedAt(v, side, if i < k then i else i + 1, if j < k then j else j + 1);
    }
  }

  lemma OtherSorted(v: View, v': View, side: Side)
    requires SideSorted(v, side) && SamePrices(v, v') && v'.Ring(side) == v.Ring(side)
    ensures SideSorted(v', side)
  {
    forall i | 0 <= i < |v'.Ring(side)|
      ensures v'.Block(v'.Ring(side)[i])
    {
      assert v.Block(v.Ring(side)[i]);
    }
    forall i, j | 0 <= i < j < |v'.Ring(side)|
      ensures SortedAt(v', side, i, j)
    {
      assert SortedAt(v, side, i, j);
    }
  }

  /** A ring of the other side shares no block with this one, so its links are untouched. */
  lemma OtherRing(v: View, v': View, live: set<int>, side: Side, l: int)
    requires SideRing(v, Opposite(side)) && RingMembers(v, live, side) && RingMembers(v, live, Opposite(side))
    requires side != NoSide
    requires |v'.blocks| == |v.blocks|
    requires forall m :: 0 <= m < |v.blocks| && m != l && m !in v.Ring(side) ==> v'.blocks[m] == v.blocks[m]
    requires v.Block(l) && v.SideOf(l) == side
    requires v'.Ring(Opposite(side)) == v.Ring(Opposite(side)) && v'.Best(Opposite(side)) == v.Best(Opposite(side))
    ensures SideRing(v', Opposite(side))
  {
    var r, o := v.Ring(side), v.Ring(Opposite(side));
    if o != [] {
      forall i | 0 <= i < |o|
        ensures o[i] !in r && o[i] != l && 0 <= o[i] < |v.blocks|
      {
        assert OnSide(v, live, Opposite(side), o[i]);
        assert forall j :: 0 <= j < |r| ==> OnSide(v, live, side, r[j]);
      }
      RingFrame(v.blocks, v'.blocks, o);
    }
  }

  lemma UnlinkTouches(v: View, side: Side, k: nat)
    requires SideRing(v, side) && k < |v.Ring(side)| && |v.slots| > 0
    ensures var v' := RemoveLevel(v, side, k);
            && SamePrices(v, v')
            && (forall m :: 0 <= m < |v.blocks| && m !in v.Ring(side) ==> v'.blocks[m] == v.blocks[m])
  {
    UnlinkRing(v, side, k);
    var r := v.Ring(side);
    assert LinkedAt(v.blocks, r, k);
  }

  /** Taking a level off the book keeps rings, slots and order. */
  lemma RemoveLevelValid(v: View, live: set<int>, side: Side, k: nat)
    requires LevelsValid(v, live) && side != NoSide && k < |v.Ring(side)|
    ensures LevelsValid(RemoveLevel(v, side, k), live - {v.Ring(side)[k]})
  {
    var l := v.Ring(side)[k];
    var v' := RemoveLevel(v, side, k);
    assert OnSide(v, live, side, l);
    UnlinkRing(v, side, k);
    UnlinkTouches(v, side, k);
    OtherRing(v, v', live, side, l);
    RemoveFromMembers(v, v', live, side, k);
    OtherMembers(v, v', live, live - {l}, Opposite(side), l);
    RemoveFromHouse(v, v', live, side, k);
    RemoveFromSlots(v, v', live, l);
    RemoveFromSorted(v, v', side, k);
    OtherSorted(v, v', Opposite(side));
  }

  // ----- adding a level

  /** A block waiting to be put on its ring: allocated, of this side, at a price without a level. */
  predicate Newcomer(v: View, live: set<int>, side: Side, l: int) {
    && v.Block(l) && l !in live
    && side != NoSide && v.SideOf(l) == side
    && |v.slots| > 0 && v.slots[v.Slot(v.Price(l))] == NULL
  }

  /** v' is v with block l linked in at place k of the side's ring, which the best level starts; no
      block but l and those of the ring is touched, and none but in its links. */
  predicate Spliced(v: View, v': View, side: Side, l: int, k: nat) {
    && k <= |v.Ring(side)|
    && v' == v.(blocks := v'.blocks).WithRing(side, With(v.Ring(side), k, l)).WithBest(side, With(v.Ring(side), k, l)[0])
    && SideRing(v', side)
    && |v'.blocks| == |v.blocks|
    && (forall m :: 0 <= m < |v.blocks| ==> v'.blocks[m].item == v.blocks[m].item)
    && (forall m :: 0 <= m < |v.blocks| && m != l && m !in v.Ring(side) ==> v'.blocks[m] == v.blocks[m])
  }

  /** v' is v with block l put at place k of its side's ring and into its slot. */
  predicate Placed(v: View, v': View, side: Side, l: int, k: nat) {
    && k <= |v.Ring(side)|
    && v.Block(l) && |v.slots| > 0
    && SamePrices(v, v')
    && (forall m :: 0 <= m < |v.blocks| && m != l && m !in v.Ring(side) ==> v'.blocks[m] == v.blocks[m])
    && v'.slots == v.slots[v.Slot(v.Price(l)) := l]
    && v'.Ring(side) == With(v.Ring(side), k, l)
    && v'.Ring(Opposite(side)) == v.Ring(Opposite(side))
    && v'.Best(Opposite(side)) == v.Best(Opposite(side))
    && SideRing(v', side)
  }

  lemma AddToMembers(v: View, v': View, live: set<int>, side: Side, l: int, k: nat)
    requires RingMembers(v, live, side) && SamePrices(v, v') && v.Block(l) && v.SideOf(l) == side
    requires k <= |v.Ring(side)| && v'.Ring(side) == With(v.Ring(side), k, l)
    ensures RingMembers(v', live + {l}, side)
  {
    var r, r' := v.Ring(side), v'.Ring(side);
    forall i | 0 <= i < |r'|
      ensures OnSide(v', live + {l}, side, r'[i])
    {
      if i != k {
        var i0 := if i < k then i else i - 1;
        assert r'[i] == r[i0];
        assert OnSide(v, live, side, r[i0]);
      }
    }
  }

  lemma AddToHouse(v: View, v': View, live: set<int>, side: Side, l: int, k: nat)
    requires Housed(v, live) && SamePrices(v, v') && side != NoSide && v.Block(l) && v.SideOf(l) == side
    requires k <= |v.Ring(side)| && v'.Ring(side) == With(v.Ring(side), k, l)
    requires v'.Ring(Opposite(side)) == v.Ring(Opposite(side))
    ensures Housed(v', live + {l})
  {
    var r, r' := v.Ring(side), v'.Ring(side);
    forall m | m in live + {l}
      ensures HousedAt(v', m)
    {
      if m == l {
        assert r'[k] == l;
      } else {
        assert HousedAt(v, m);
        if v.SideOf(m) == side {
          var i :| 0 <= i < |r| && r[i] == m;
          assert m == r'[if i < k then i else i + 1];
        }
      }
    }
  }

  lemma AddToSlots(v: View, v': View, live: set<int>, l: int)
    requires SlotsExact(v, live) && SamePrices(v, v') && v.Block(l) && l !in live && l >= 0
    requires v.slots[v.Slot(v.Price(l))] == NULL
    requires v'.slots == v.slots[v.Slot(v.Price(l)) := l]
    ensures SlotsExact(v', live + {l})
  {
    forall i: nat | i < |v'.slots|
      ensures SlotExact(v', live + {l}, i)
    {
      assert SlotExact(v, live, i);
    }
    forall m | m in live + {l}
      ensures OwnsSlot(v', m)
    {
      if m != l { assert OwnsSlot(v, m); }
    }
  }

  lemma BetterAndWorse(v: View, side: Side, price: int, k: nat)
    requires SideSorted(v, side) && side != NoSide
    requires forall i :: 0 <= i < |v.Ring(side)| ==> v.Price(v.Ring(side)[i]) != price
    requires k == LevelPlace(v, side, price, v.Ring(side))
    ensures forall i :: k <= i < |v.Ring(side)| ==> Improves(side, price, v.Price(v.Ring(side)[i]))
  {
    var r := v.Ring(side);
    forall i | k <= i < |r|
      ensures Improves(side, price, v.Price(r[i]))
    {
      if k < i { assert SortedAt(v, side, k, i); }
    }
  }

  lemma AddToSorted(v: View, v': View, side: Side, l: int)
    requires SideSorted(v, side) && SamePrices(v, v') && v.Block(l) && side != NoSide
    requires forall i :: 0 <= i < |v.Ring(side)| ==> v.Price(v.Ring(side)[i]) != v.Price(l)
    requires v'.Ring(side) == With(v.Ring(side), LevelPlace(v, side, v.Price(l), v.Ring(side)), l)
    ensures SideSorted(v', side)
  {
    var r, r' := v.Ring(side), v'.Ring(side);
    var k := LevelPlace(v, side, v.Price(l), r);
    BetterAndWorse(v, side, v.Price(l), k);
    forall i | 0 <= i < |r'|
      ensures v'.Block(r'[i])
      ensures r'[i] == if i == k then l else r[if i < k then i else i - 1]
    {
    }
    forall i, j | 0 <= i < j < |r'|
      ensures SortedAt(v', side, i, j)
    {
      if i != k && j != k {
        assert SortedAt(v, side, if i < k then i else i - 1, if j < k then j else j - 1);
      }
    }
  }

  lemma NoLevelAtPrice(v: View, live: set<int>, side: Side, l: int)
    requires SlotsExact(v, live) && RingMembers(v, live, side)
    requires v.Block(l) && v.slots[v.Slot(v.Price(l))] == NULL
    ensures forall i :: 0 <= i < |v.Ring(side)| ==> v.Block(v.Ring(side)[i]) && v.Price(v.Ring(side)[i]) != v.Price(l)
  {
    forall i | 0 <= i < |v.Ring(side)|
      ensures v.Block(v.Ring(side)[i]) && v.Price(v.Ring(side)[i]) != v.Price(l)
    {
      assert OnSide(v, live, side, v.Ring(side)[i]);
      assert OwnsSlot(v, v.Ring(side)[i]);
    }
  }

  /** A level put anywhere on its ring keeps everything but possibly the order of that side. */
  lemma AddLevelKeeps(v: View, v': View, live: set<int>, side: Side, l: int, k: nat)
    requires LevelsValid(v, live) && Newcomer(v, live, side, l) && Placed(v, v', side, l, k)
    ensures SideRing(v', Buy) && SideRing(v', Sell)
    ensures RingMembers(v', live + {l}, Buy) && RingMembers(v', live + {l}, Sell) && Housed(v', live + {l})
    ensures SlotsExact(v', live + {l})
    ensures SideSorted(v', Opposite(side))
  {
    OtherRing(v, v', live, side, l);
    AddToMembers(v, v', live, side, l, k);
    OtherMembers(v, v', live, live + {l}, Opposite(side), l);
    AddToHouse(v, v', live, side, l, k);
    AddToSlots(v, v', live, l);
    OtherSorted(v, v', Opposite(side));
  }

  /** A level put behind exactly the better ones keeps the whole invariant. */
  lemma AddLevelValid(v: View, v': View, live: set<int>, side: Side, l: int)
    requires LevelsValid(v, live) && Newcomer(v, live, side, l)
    requires Placed(v, v', side, l, LevelPlace(v, side, v.Price(l), v.Ring(side)))
    ensures LevelsValid(v', live + {l})
  {
    AddLevelKeeps(v, v', live, side, l, LevelPlace(v, side, v.Price(l), v.Ring(side)));
    NoLevelAtPrice(v, live, side, l);
    AddToSorted(v, v', side, l);
  }

  // ----- where addPriceLevel as written puts a level

  predicate WorseThanAll(v: View, side: Side, price: int, r: seq<int>)
    requires forall i :: 0 <= i < |r| ==> v.Block(r[i])
  {
    forall i :: 0 <= i < |r| ==> Improves(side, v.Price(r[i]), price)
  }

  /** The walk of addPriceLevel ends back at the head when the price is worse than all, and the
      level then goes right behind the head. */
  function AsWrittenPlace(v: View, side: Side, price: int, r: seq<int>): (k: nat)
    requires forall i :: 0 <= i < |r| ==> v.Block(r[i])
    ensures k <= |r|
  {
    var k := LevelPlace(v, side, price, r);
    if r != [] && k == |r| then 1 else k
  }

  lemma AsWrittenPlaceIsRight(v: View, side: Side, price: int, r: seq<int>)
    requires forall i :: 0 <= i < |r| ==> v.Block(r[i])
    ensures AsWrittenPlace(v, side, price, r) == LevelPlace(v, side, price, r) <==> |r| <= 1 || !WorseThanAll(v, side, price, r)
  {
  }

  /** The insertion as written leaves the side sorted exactly when there was at most one level
      or the new price is not worse than all of them. */
  lemma AsWrittenSortedIff(v: View, v': View, side: Side, l: int)
    requires SideSorted(v, side) && SamePrices(v, v') && v.Block(l) && side != NoSide
    requires forall i :: 0 <= i < |v.Ring(side)| ==> v.Price(v.Ring(side)[i]) != v.Price(l)
    requires v'.Ring(side) == With(v.Ring(side), AsWrittenPlace(v, side, v.Price(l), v.Ring(side)), l)
    ensures SideSorted(v', side) <==> |v.Ring(side)| <= 1 || !WorseThanAll(v, side, v.Price(l), v.Ring(side))
    ensures v.Ring(side) != [] && WorseThanAll(v, side, v.Price(l), v.Ring(side)) ==>
              v'.Ring(side) == [v.Ring(side)[0], l] + v.Ring(side)[1..]
  {
    var r, r' := v.Ring(side), v'.Ring(side);
    AsWrittenPlaceIsRight(v, side, v.Price(l), r);
    if |r| > 1 && WorseThanAll(v, side, v.Price(l), r) {
      assert r'[1] == l && r'[2] == r[1];
      assert !SortedAt(v', side, 1, 2);
      assert Improves(side, v.Price(r[1]), v.Price(l));
      assert !Improves(side, v'.Price(r'[1]), v'.Price(r'[2]));
    } else {
      AddToSorted(v, v', side, l);
    }
  }

  /** Asks at 10 and 20, and a new one at 30, which as written goes between them. A buyer of 2 at a
      limit of 25 then gets only the first: the next level is at 30, which is too dear. It would rest
      at 25 although 20 is on offer, and the book would be crossed. */
  lemma AsWrittenExample(v: View, first: int, second: int)
    requires v.asks == [first, second] && v.Block(first) && v.Block(second)
    requires v.Price(first) == 10 && v.Price(second) == 20
    ensures AsWrittenPlace(v, Sell, 30, v.asks) == 1 && LevelPlace(v, Sell, 30, v.asks) == 2
    ensures var buyer := Taker(9, 1, 0, Buy, 25, 4);
            var at10, at20, at30 := Ask(10, 1), Ask(20, 2), Ask(30, 3);
            && Match(buyer, 2, [at10, at30, at20]).remains == 1
            && Match(buyer, 2, [at10, at30, at20]).queue == [at30, at20]
            && Match(buyer, 2, [at10, at20, at30]).remains == 0
            && Crosses(Buy, 25, at20.price)
  {
    var buyer := Taker(9, 1, 0, Buy, 25, 4);
    var at10, at20, at30 := Ask(10, 1), Ask(20, 2), Ask(30, 3);
    PlaceIsFirst(v, Sell, 30, v.asks, 2);
    var bad := MatchOne(buyer, 2, [at10, at30, at20]);
    assert bad.queue == [at30, at20] && bad.remains == 1;
    assert !CanMatch(buyer, 1, [at30, at20]);
    var good := MatchOne(buyer, 2, [at10, at20, at30]);
    assert good.queue == [at20, at30] && good.remains == 1;
    assert MatchOne(buyer, 1, [at20, at30]).remains == 0;
    assert Match(buyer, 1, [at30, at20]) == MatchResult(1, [at30, at20], [], []);
    assert Match(buyer, 1, [at20, at30]).remains == 0 by {
      assert !CanMatch(buyer, 0, MatchOne(buyer, 1, [at20, at30]).queue);
    }
  }

  function Ask(price: int, oid: nat): Order {
    Order(0, oid, 1, oid, Sell, price, 1, 1)
  }

  // ----- changing the first order of a level

  /** Only first orders differ. */
  predicate SameLevels(v: View, v': View) {
    && v'.bids == v.bids && v'.asks == v.asks && v'.slots == v.slots && v'.bestBid == v.bestBid && v'.bestAsk == v.bestAsk
    && SamePrices(v, v')
    && (forall l :: 0 <= l < |v.blocks| ==> v'.blocks[l].next == v.blocks[l].next && v'.blocks[l].prev == v.blocks[l].prev)
  }

  lemma SameMembers(v: View, v': View, live: set<int>, side: Side)
    requires RingMembers(v, live, side) && SameLevels(v, v')
    ensures RingMembers(v', live, side)
  {
    forall i | 0 <= i < |v.Ring(side)|
      ensures OnSide(v', live, side, v'.Ring(side)[i])
    {
      assert OnSide(v, live, side, v.Ring(side)[i]);
    }
  }

  lemma SameHouse(v: View, v': View, live: set<int>)
    requires Housed(v, live) && SameLevels(v, v')
    ensures Housed(v', live)
  {
    forall m | m in live
      ensures HousedAt(v', m)
    {
      assert HousedAt(v, m);
    }
  }

  lemma SameSlots(v: View, v': View, live: set<int>)
    requires SlotsExact(v, live) && SameLevels(v, v')
    ensures SlotsExact(v', live)
  {
    forall i: nat | i < |v'.slots|
      ensures SlotExact(v', live, i)
    {
      assert SlotExact(v, live, i);
    }
    forall m | m in live
      ensures OwnsSlot(v', m)
    {
      assert OwnsSlot(v, m);
    }
  }

  lemma SameRing(v: View, v': View, side: Side)
    requires SideRing(v, side) && SameLevels(v, v')
    ensures SideRing(v', side)
  {
    if v.Ring(side) != [] { RingFrame(v.blocks, v'.blocks, v.Ring(side)); }
  }

  /** No ring, slot or order of levels depends on which order is first at its price. */
  lemma FirstOrderIsFree(v: View, v': View, live: set<int>)
    requires LevelsValid(v, live) && SameLevels(v, v')
    ensures LevelsValid(v', live)
  {
    SameRing(v, v', Buy);
    SameRing(v, v', Sell);
    SameMembers(v, v', live, Buy);
    SameMembers(v, v', live, Sell);
    SameHouse(v, v', live);
    SameSlots(v, v', live);
    OtherSorted(v, v', Buy);
    OtherSorted(v, v', Sell);
  }
}
