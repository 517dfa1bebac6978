/** Circular doubly-linked rings of pool blocks, used for the price levels of a side and for
    the orders of a level. */
module Ring {

  /** A block with the intrusive links of the source's Order and OrdersAtPrice. */
  datatype Node<T> = Node(item: T, prev: int, next: int)

  function Succ(i: int, n: int): int { if i + 1 < n then i + 1 else 0 }

  function Pred(i: int, n: int): int { if i > 0 then i - 1 else n - 1 }

  predicate NoDup(r: seq<int>) {
    forall i, j :: 0 <= i < j < |r| ==> r[i] != r[j]
  }

  predicate Blocks<T>(ns: seq<Node<T>>, r: seq<int>) {
    forall i :: 0 <= i < |r| ==> 0 <= r[i] < |ns|
  }

  predicate LinkedAt<T>(ns: seq<Node<T>>, r: seq<int>, i: int)
    requires 0 <= i < |r| && Blocks(ns, r)
  {
    ns[r[i]].next == r[Succ(i, |r|)] && ns[r[i]].prev == r[Pred(i, |r|)]
  }

  /** Following next_ from r[0] visits r in order and returns to r[0]; prev_ goes the other way. */
  predicate IsRing<T>(ns: seq<Node<T>>, r: seq<int>) {
    r != [] && Blocks(ns, r) && NoDup(r) && forall i :: 0 <= i < |r| ==> LinkedAt(ns, r, i)
  }

  // ----- the pointer writes of the source

  function SetNext<T>(ns: seq<Node<T>>, p: int, next: int): (ns': seq<Node<T>>)
    requires 0 <= p < |ns|
    ensures |ns'| == |ns|
  {
    ns[p := ns[p].(next := next)]
  }

  function SetPrev<T>(ns: seq<Node<T>>, p: int, prev: int): (ns': seq<Node<T>>)
    requires 0 <= p < |ns|
    ensures |ns'| == |ns|
  {
    ns[p := ns[p].(prev := prev)]
  }

  /** p is bypassed: its neighbours point at each other. */
  function Bypass<T>(ns: seq<Node<T>>, p: int): seq<Node<T>>
    requires 0 <= p < |ns| && 0 <= ns[p].prev < |ns| && 0 <= ns[p].next < |ns|
    requires ns[p].prev != p
  {
    var ns' := SetNext(ns, ns[p].prev, ns[p].next);
    SetPrev(ns', ns[p].next, ns[p].prev)
  }

  /** p is spliced in between target's predecessor and target. */
  function SpliceBefore<T>(ns: seq<Node<T>>, p: int, target: int): seq<Node<T>>
    requires 0 <= p < |ns| && 0 <= target < |ns| && 0 <= ns[target].prev < |ns|
  {
    var before := ns[target].prev;
    var ns1 := ns[p := Node(ns[p].item, before, target)];
    var ns2 := SetNext(ns1, before, p);
    SetPrev(ns2, target, p)
  }

  /** The two neighbour writes of a splice may come in either order. */
  lemma SetsCommute<T>(ns: seq<Node<T>>, a: int, x: int, b: int, y: int)
    requires 0 <= a < |ns| && 0 <= b < |ns|
    ensures SetNext(SetPrev(ns, a, x), b, y) == SetPrev(SetNext(ns, b, y), a, x)
  {
  }

  // ----- lemmas

  lemma RingFrame<T>(ns: seq<Node<T>>, ns': seq<Node<T>>, r: seq<int>)
    requires IsRing(ns, r)
    requires |ns| == |ns'|
    requires forall i :: 0 <= i < |r| ==> ns'[r[i]].next == ns[r[i]].next && ns'[r[i]].prev == ns[r[i]].prev
    ensures IsRing(ns', r)
  {
    forall i | 0 <= i < |r|
      ensures LinkedAt(ns', r, i)
    {
      assert LinkedAt(ns, r, i);
    }
  }

  /** Where the ring starts does not matter. */
  lemma RingRotate<T>(ns: seq<Node<T>>, r: seq<int>, p: int)
    requires IsRing(ns, r + [p])
    ensures IsRing(ns, [p] + r)
  {
    var a, b := r + [p], [p] + r;
    assert Blocks(ns, b) by {
      assert forall i :: 0 <= i < |b| ==> b[i] == a[Pred(i, |a|)];
    }
    forall i | 0 <= i < |b|
      ensures LinkedAt(ns, b, i)
    {
      assert LinkedAt(ns, a, Pred(i, |a|));
    }
    forall i, j | 0 <= i < j < |b|
      ensures b[i] != b[j]
    {
      assert a[Pred(i, |a|)] != a[Pred(j, |a|)];
    }
  }

  function Without(r: seq<int>, k: nat): seq<int>
    requires k < |r|
  {
    r[..k] + r[k + 1..]
  }

  function With(r: seq<int>, k: nat, p: int): seq<int>
    requires k <= |r|
  {
    r[..k] + [p] + r[k..]
  }

  lemma RingBypass<T>(ns: seq<Node<T>>, r: seq<int>, k: nat)
    requires IsRing(ns, r) && k < |r| && |r| >= 2
    ensures ns[r[k]].prev == r[Pred(k, |r|)] && ns[r[k]].next == r[Succ(k, |r|)]
    ensures IsRing(Bypass(ns, r[k]), Without(r, k))
  {
    assert LinkedAt(ns, r, k);
    WithoutIsApart(ns, r, k);
    forall i | 0 <= i < |Without(r, k)|
      ensures LinkedAt(Bypass(ns, r[k]), Without(r, k), i)
    {
      BypassLinksAt(ns, r, k, i);
    }
  }

  lemma WithoutIsApart<T>(ns: seq<Node<T>>, r: seq<int>, k: nat)
    requires Blocks(ns, r) && NoDup(r) && k < |r|
    ensures Blocks(ns, Without(r, k)) && NoDup(Without(r, k))
  {
  }

  lemma BypassLinksAt<T>(ns: seq<Node<T>>, r: seq<int>, k: nat, i: nat)
    requires IsRing(ns, r) && k < |r| && |r| >= 2 && i < |r| - 1
    requires ns[r[k]].prev == r[Pred(k, |r|)] && ns[r[k]].next == r[Succ(k, |r|)]
    requires Blocks(ns, Without(r, k))
    ensures LinkedAt(Bypass(ns, r[k]), Without(r, k), i)
  {
    var i0 := if i < k then i else i + 1;
    assert Without(r, k)[i] == r[i0];
    assert LinkedAt(ns, r, i0);
  }

  /** Splicing in before r[k] puts p at place k of the ring; before the head that is the end,
      because the ring is circular. */
  lemma RingSplice<T>(ns: seq<Node<T>>, r: seq<int>, k: nat, p: int)
    requires IsRing(ns, r) && k < |r| && 0 <= p < |ns| && p !in r
    ensures ns[r[k]].prev == r[Pred(k, |r|)]
    ensures IsRing(SpliceBefore(ns, p, r[k]), With(r, if k == 0 then |r| else k, p))
  {
    assert LinkedAt(ns, r, k);
    var at := if k == 0 then |r| else k;
    WithIsApart(ns, r, at, p);
    forall i | 0 <= i < |With(r, at, p)|
      ensures LinkedAt(SpliceBefore(ns, p, r[k]), With(r, at, p), i)
    {
      SpliceLinksAt(ns, r, k, p, i);
    }
  }

  lemma WithIsApart<T>(ns: seq<Node<T>>, r: seq<int>, k: nat, p: int)
    requires Blocks(ns, r) && NoDup(r) && k <= |r| && 0 <= p < |ns| && p !in r
    ensures Blocks(ns, With(r, k, p)) && NoDup(With(r, k, p))
  {
  }

  lemma SpliceLinksAt<T>(ns: seq<Node<T>>, r: seq<int>, k: nat, p: int, i: nat)
    requires IsRing(ns, r) && k < |r| && 0 <= p < |ns| && p !in r && i <= |r|
    requires ns[r[k]].prev == r[Pred(k, |r|)]
    requires Blocks(ns, With(r, if k == 0 then |r| else k, p))
    ensures LinkedAt(SpliceBefore(ns, p, r[k]), With(r, if k == 0 then |r| else k, p), i)
  {
    var at := if k == 0 then |r| else k;
    if i != at {
      var i0 := if i < at then i else i - 1;
      assert With(r, at, p)[i] == r[i0];
      assert LinkedAt(ns, r, i0);
    }
  }

  lemma RingSingle<T>(ns: seq<Node<T>>, p: int)
    requires 0 <= p < |ns| && ns[p].next == p && ns[p].prev == p
    ensures IsRing(ns, [p])
  {
  }
}
