/** Sorting pending requests by the time they were received: what any sort, and what a stable sort,
    keeps of the order in which one client's requests came in. */
module Sequencing {
  import opened Exchange
  import PriceTimeBook

  datatype PendingRequest = PendingRequest(tRx: int, request: Request)

  /** In order of reception time. */
  ghost predicate InTime(s: seq<PendingRequest>) {
    forall i, j :: 0 <= i < j < |s| ==> s[i].tRx <= s[j].tRx
  }

  /** A result of sorting s that any sorting method may give. */
  ghost predicate SortOf(out: seq<PendingRequest>, s: seq<PendingRequest>) {
    InTime(out) && multiset(out) == multiset(s)
  }

  /** The pending requests of one client, in order. */
  function OfClient(s: seq<PendingRequest>, clientId: nat): (mine: seq<PendingRequest>)
    ensures forall i :: 0 <= i < |mine| ==> mine[i].request.clientId == clientId
  {
    if s == [] then []
    else
      var earlier := OfClient(s[..|s| - 1], clientId);
      var last := s[|s| - 1];
      if last.request.clientId == clientId then earlier + [last] else earlier
  }

  /** The requests alone, as the engine will see them. */
  function Requests(s: seq<PendingRequest>): (r: seq<Request>)
    ensures |r| == |s| && forall i :: 0 <= i < |s| ==> r[i] == s[i].request
  {
    seq(|s|, i requires 0 <= i < |s| => s[i].request)
  }

  // ----- one client's part of a sequence

  lemma {:induction false} OfClientConcat(s: seq<PendingRequest>, t: seq<PendingRequest>, clientId: nat)
    ensures OfClient(s + t, clientId) == OfClient(s, clientId) + OfClient(t, clientId)
  {
    if t == [] {
      assert s + t == s;
    } else {
      var u := s + t;
      assert u[..|u| - 1] == s + t[..|t| - 1] && u[|u| - 1] == t[|t| - 1];
      OfClientConcat(s, t[..|t| - 1], clientId);
    }
  }

  lemma {:induction false} OfClientCounts(s: seq<PendingRequest>, clientId: nat, p: PendingRequest)
    ensures multiset(OfClient(s, clientId))[p] == if p.request.clientId == clientId then multiset(s)[p] else 0
  {
    if s != [] {
      assert s == s[..|s| - 1] + [s[|s| - 1]];
      OfClientCounts(s[..|s| - 1], clientId, p);
    }
  }

  lemma OfClientOfSort(out: seq<PendingRequest>, s: seq<PendingRequest>, clientId: nat)
    requires multiset(out) == multiset(s)
    ensures multiset(OfClient(out, clientId)) == multiset(OfClient(s, clientId))
  {
    forall p
      ensures multiset(OfClient(out, clientId))[p] == multiset(OfClient(s, clientId))[p]
    {
      OfClientCounts(out, clientId, p);
      OfClientCounts(s, clientId, p);
    }
  }

  lemma {:induction false} OfClientInTime(s: seq<PendingRequest>, clientId: nat)
    requires InTime(s)
    ensures InTime(OfClient(s, clientId))
  {
    if s != [] {
      OfClientInTime(s[..|s| - 1], clientId);
      var earlier := OfClient(s[..|s| - 1], clientId);
      forall i | 0 <= i < |earlier|
        ensures earlier[i].tRx <= s[|s| - 1].tRx
      {
        assert earlier[i] in multiset(earlier);
        OfClientCounts(s[..|s| - 1], clientId, earlier[i]);
        assert earlier[i] in s[..|s| - 1];
      }
    }
  }

  // ----- the stable sort

  /** Puts a request behind all that were received no later. */
  function Place(s: seq<PendingRequest>, p: PendingRequest): seq<PendingRequest> {
    if s == [] || s[|s| - 1].tRx <= p.tRx then s + [p]
    else Place(s[..|s| - 1], p) + [s[|s| - 1]]
  }

  function StableSort(s: seq<PendingRequest>): seq<PendingRequest> {
    if s == [] then [] else Place(StableSort(s[..|s| - 1]), s[|s| - 1])
  }

  lemma LatestStaysLast(placed: seq<PendingRequest>, s: seq<PendingRequest>, p: PendingRequest, last: PendingRequest)
    requires InTime(placed) && multiset(placed) == multiset(s) + multiset{p}
    requires p.tRx <= last.tRx && forall i :: 0 <= i < |s| ==> s[i].tRx <= last.tRx
    ensures InTime(placed + [last])
  {
    forall i | 0 <= i < |placed|
      ensures placed[i].tRx <= last.tRx
    {
      assert placed[i] in multiset(placed);
    }
  }

  lemma {:induction false} PlaceSorts(s: seq<PendingRequest>, p: PendingRequest)
    requires InTime(s)
    ensures InTime(Place(s, p)) && multiset(Place(s, p)) == multiset(s) + multiset{p}
  {
    if s != [] && s[|s| - 1].tRx > p.tRx {
      var before, last := s[..|s| - 1], s[|s| - 1];
      PlaceSorts(before, p);
      assert s == before + [last];
      LatestStaysLast(Place(before, p), before, p, last);
    }
  }

  lemma {:induction false} StableSortSorts(s: seq<PendingRequest>)
    ensures SortOf(StableSort(s), s)
  {
    if s != [] {
      StableSortSorts(s[..|s| - 1]);
      PlaceSorts(StableSort(s[..|s| - 1]), s[|s| - 1]);
      assert s == s[..|s| - 1] + [s[|s| - 1]];
    }
  }

  lemma {:induction false} PlaceOfClient(s: seq<PendingRequest>, p: PendingRequest, clientId: nat)
    requires InTime(s)
    ensures OfClient(Place(s, p), clientId) ==
            if p.request.clientId == clientId then Place(OfClient(s, clientId), p) else OfClient(s, clientId)
  {
    if s != [] && s[|s| - 1].tRx > p.tRx {
      var before := s[..|s| - 1];
      PlaceOfClient(before, p, clientId);
      OfClientConcat(Place(before, p), [s[|s| - 1]], clientId);
      assert Place(s, p)[..|Place(s, p)| - 1] == Place(before, p);
      var mine := OfClient(s, clientId);
      assert s[|s| - 1].request.clientId == clientId ==> mine[..|mine| - 1] == OfClient(before, clientId);
    } else {
      OfClientConcat(s, [p], clientId);
      assert OfClient([p], clientId) == if p.request.clientId == clientId then [p] else [] by {
        assert [p][..0] == [];
      }
      OfClientInTime(s, clientId);
      LastOfClient(s, clientId);
    }
  }

  lemma LastOfClient(s: seq<PendingRequest>, clientId: nat)
    requires InTime(s)
    ensures var mine := OfClient(s, clientId); mine != [] ==> s != [] && mine[|mine| - 1].tRx <= s[|s| - 1].tRx
  {
  }

  lemma {:induction false} StableSortOfClient(s: seq<PendingRequest>, clientId: nat)
    ensures OfClient(StableSort(s), clientId) == StableSort(OfClient(s, clientId))
  {
    if s != [] {
      var before := s[..|s| - 1];
      StableSortOfClient(before, clientId);
      StableSortSorts(before);
      PlaceOfClient(StableSort(before), s[|s| - 1], clientId);
      var mine := OfClient(s, clientId);
      assert s[|s| - 1].request.clientId == clientId ==> mine[..|mine| - 1] == OfClient(before, clientId);
    }
  }

  lemma {:induction false} StableSortLeaves(s: seq<PendingRequest>)
    requires InTime(s)
    ensures StableSort(s) == s
  {
    if s != [] {
      StableSortLeaves(s[..|s| - 1]);
      assert s == s[..|s| - 1] + [s[|s| - 1]];
    }
  }

  /** The requests of one time, in order. */
  function AtTime(s: seq<PendingRequest>, tRx: int): (ties: seq<PendingRequest>)
    ensures forall i :: 0 <= i < |ties| ==> ties[i].tRx == tRx && ties[i] in s
  {
    if s == [] then []
    else
      var earlier := AtTime(s[..|s| - 1], tRx);
      if s[|s| - 1].tRx == tRx then earlier + [s[|s| - 1]] else earlier
  }

  /** A result of sorting s that a stable method may give: in time, with ties left as they were. */
  ghost predicate StableSortOf(out: seq<PendingRequest>, s: seq<PendingRequest>) {
    InTime(out) && forall tRx :: AtTime(out, tRx) == AtTime(s, tRx)
  }

  lemma {:induction false} PlaceAtTime(s: seq<PendingRequest>, p: PendingRequest, tRx: int)
    ensures AtTime(Place(s, p), tRx) == if p.tRx == tRx then AtTime(s, tRx) + [p] else AtTime(s, tRx)
  {
    var placed := Place(s, p);
    if s != [] && s[|s| - 1].tRx > p.tRx {
      PlaceAtTime(s[..|s| - 1], p, tRx);
      assert placed[..|placed| - 1] == Place(s[..|s| - 1], p);
    } else {
      assert placed[..|placed| - 1] == s;
    }
  }

  lemma {:induction false} StableSortAtTime(s: seq<PendingRequest>, tRx: int)
    ensures AtTime(StableSort(s), tRx) == AtTime(s, tRx)
  {
    if s != [] {
      StableSortAtTime(s[..|s| - 1], tRx);
      PlaceAtTime(StableSort(s[..|s| - 1]), s[|s| - 1], tRx);
    }
  }

  lemma LastAtTime(s: seq<PendingRequest>, tRx: int)
    requires AtTime(s, tRx) != [] && InTime(s)
    ensures s != [] && tRx <= s[|s| - 1].tRx
  {
    assert AtTime(s, tRx)[0] in s;
  }

  lemma LastIsSame(s: seq<PendingRequest>, t: seq<PendingRequest>)
    requires InTime(s) && InTime(t) && s != [] && t != []
    requires forall tRx :: AtTime(s, tRx) == AtTime(t, tRx)
    ensures s[|s| - 1] == t[|t| - 1]
  {
    var p, q := s[|s| - 1], t[|t| - 1];
    assert AtTime(s, p.tRx)[|AtTime(s, p.tRx)| - 1] == p;
    assert AtTime(t, q.tRx)[|AtTime(t, q.tRx)| - 1] == q;
    LastAtTime(t, p.tRx);
    LastAtTime(s, q.tRx);
  }

  lemma DropLastAtTime(s: seq<PendingRequest>, t: seq<PendingRequest>, tRx: int)
    requires s != [] && t != [] && s[|s| - 1] == t[|t| - 1] && AtTime(s, tRx) == AtTime(t, tRx)
    ensures AtTime(s[..|s| - 1], tRx) == AtTime(t[..|t| - 1], tRx)
  {
    var a, b := AtTime(s[..|s| - 1], tRx), AtTime(t[..|t| - 1], tRx);
    var ties := AtTime(s, tRx);
    if s[|s| - 1].tRx == tRx {
      assert ties[..|ties| - 1] == a && ties[..|ties| - 1] == b;
    }
  }

  lemma BothEmpty(s: seq<PendingRequest>, t: seq<PendingRequest>)
    requires forall tRx :: AtTime(s, tRx) == AtTime(t, tRx)
    ensures s == [] <==> t == []
  {
    if s != [] {
      assert AtTime(s, s[|s| - 1].tRx) != [];
    }
    if t != [] {
      assert AtTime(t, t[|t| - 1].tRx) != [];
    }
  }

  lemma {:induction false} TimesDecide(s: seq<PendingRequest>, t: seq<PendingRequest>)
    requires InTime(s) && InTime(t) && forall tRx :: AtTime(s, tRx) == AtTime(t, tRx)
    ensures s == t
  {
    BothEmpty(s, t);
    if s != [] {
      LastIsSame(s, t);
      var s', t' := s[..|s| - 1], t[..|t| - 1];
      forall tRx
        ensures AtTime(s', tRx) == AtTime(t', tRx)
      {
        DropLastAtTime(s, t, tRx);
      }
      TimesDecide(s', t');
      assert s == s' + [s[|s| - 1]] && t == t' + [t[|t| - 1]];
    }
  }

  /** There is exactly one stable sort. */
  lemma StableSortIsUnique(out: seq<PendingRequest>, s: seq<PendingRequest>)
    ensures StableSortOf(out, s) <==> out == StableSort(s)
  {
    StableSortSorts(s);
    forall tRx
      ensures AtTime(StableSort(s), tRx) == AtTime(s, tRx)
    {
      StableSortAtTime(s, tRx);
    }
    if StableSortOf(out, s) {
      TimesDecide(out, StableSort(s));
    }
  }

  /** A stable sort keeps a client's requests in order exactly when their times never go back. */
  lemma StableSortKeepsClientOrder(out: seq<PendingRequest>, s: seq<PendingRequest>, clientId: nat)
    requires StableSortOf(out, s)
    ensures OfClient(out, clientId) == OfClient(s, clientId) <==> InTime(OfClient(s, clientId))
  {
    StableSortIsUnique(out, s);
    StableSortOfClient(s, clientId);
    StableSortSorts(OfClient(s, clientId));
    if InTime(OfClient(s, clientId)) {
      StableSortLeaves(OfClient(s, clientId));
    }
  }

  // ----- any sort

  /** No two requests could change places: a later one has a later time, or is the very same. */
  ghost predicate Decided(s: seq<PendingRequest>) {
    forall i, j :: 0 <= i < j < |s| ==> s[i].tRx < s[j].tRx || s[i] == s[j]
  }

  lemma LastIsLatest(out: seq<PendingRequest>, s: seq<PendingRequest>)
    requires Decided(s) && SortOf(out, s) && s != []
    ensures |out| == |s| && out[|s| - 1] == s[|s| - 1]
  {
    assert |out| == |multiset(out)| == |multiset(s)| == |s|;
    var n := |s| - 1;
    assert out[n] in multiset(s) && s[n] in multiset(out);
    var i :| 0 <= i <= n && s[i] == out[n];
    var j :| 0 <= j <= n && out[j] == s[n];
  }

  lemma DropLast(s: seq<PendingRequest>)
    requires s != []
    ensures multiset(s[..|s| - 1]) == multiset(s) - multiset{s[|s| - 1]}
  {
    assert s == s[..|s| - 1] + [s[|s| - 1]];
  }

  lemma ShorterSort(out: seq<PendingRequest>, s: seq<PendingRequest>)
    requires SortOf(out, s) && s != [] && |out| == |s| && out[|s| - 1] == s[|s| - 1]
    ensures SortOf(out[..|s| - 1], s[..|s| - 1])
  {
    DropLast(out);
    DropLast(s);
  }

  /** Two sequences in time of the same elements, no two of which tie, are the same. */
  lemma {:induction false} OnlyOneSort(out: seq<PendingRequest>, s: seq<PendingRequest>)
    requires Decided(s) && SortOf(out, s)
    ensures out == s
  {
    if s == [] {
      assert |out| == |multiset(out)| == 0;
    } else {
      LastIsLatest(out, s);
      ShorterSort(out, s);
      OnlyOneSort(out[..|s| - 1], s[..|s| - 1]);
      assert out == out[..|s| - 1] + [out[|s| - 1]] && s == s[..|s| - 1] + [s[|s| - 1]];
    }
  }

  function Exchanged(s: seq<PendingRequest>, i: nat, j: nat): seq<PendingRequest>
    requires i < j < |s|
  {
    s[i := s[j]][j := s[i]]
  }

  lemma ExchangeKeepsTime(out: seq<PendingRequest>, i: nat, j: nat)
    requires InTime(out) && i < j < |out| && out[i].tRx == out[j].tRx
    ensures SortOf(Exchanged(out, i, j), out)
  {
  }

  /** Two requests of one client, of equal time but different, may change places in a sorted result:
      then the client's order changes. */
  lemma TieCanSwap(out: seq<PendingRequest>, i: nat, j: nat)
    requires i < j < |out| && out[i] != out[j]
    requires out[i].request.clientId == out[j].request.clientId
    ensures OfClient(Exchanged(out, i, j), out[i].request.clientId) != OfClient(out, out[i].request.clientId)
  {
    var c := out[i].request.clientId;
    var swapped := Exchanged(out, i, j);
    OfClientSplit(out, i, c);
    OfClientSplit(swapped, i, c);
    assert swapped[..i] == out[..i];
    var k := |OfClient(out[..i], c)|;
    assert OfClient(out, c)[k] == out[i] && OfClient(swapped, c)[k] == out[j];
  }

  lemma OfClientSplit(s: seq<PendingRequest>, i: nat, clientId: nat)
    requires i < |s| && s[i].request.clientId == clientId
    ensures OfClient(s, clientId) == OfClient(s[..i], clientId) + [s[i]] + OfClient(s[i + 1..], clientId)
  {
    assert s == s[..i + 1] + s[i + 1..];
    OfClientConcat(s[..i + 1], s[i + 1..], clientId);
    assert s[..i + 1][..i] == s[..i];
  }

  ghost predicate EverySortKeeps(s: seq<PendingRequest>, clientId: nat) {
    forall out :: SortOf(out, s) ==> OfClient(out, clientId) == OfClient(s, clientId)
  }

  /** Whatever the sorting method, a client's requests stay in order exactly when no two different
      ones share a time and none goes back. */
  lemma AnySortKeepsClientOrder(s: seq<PendingRequest>, clientId: nat)
    ensures EverySortKeeps(s, clientId) <==> Decided(OfClient(s, clientId))
  {
    if Decided(OfClient(s, clientId)) {
      forall out | SortOf(out, s)
        ensures OfClient(out, clientId) == OfClient(s, clientId)
      {
        OfClientOfSort(out, s, clientId);
        OfClientInTime(out, clientId);
        OnlyOneSort(OfClient(out, clientId), OfClient(s, clientId));
      }
    }
    if !Decided(OfClient(s, clientId)) {
      UndecidedIsNotKept(s, clientId);
    }
  }

  lemma ChangedSort(s: seq<PendingRequest>, out: seq<PendingRequest>, clientId: nat, i: nat, j: nat)
    requires SortOf(out, s) && i < j < |out| && out[i].tRx == out[j].tRx && out[i] != out[j]
    requires out[i].request.clientId == out[j].request.clientId == clientId
    requires OfClient(out, clientId) == OfClient(s, clientId)
    ensures !EverySortKeeps(s, clientId)
  {
    ExchangeKeepsTime(out, i, j);
    TieCanSwap(out, i, j);
    assert SortOf(Exchanged(out, i, j), s);
  }

  lemma UndecidedIsNotKept(s: seq<PendingRequest>, clientId: nat)
    requires !Decided(OfClient(s, clientId))
    ensures !EverySortKeeps(s, clientId)
  {
    var mine := OfClient(s, clientId);
    var out := StableSort(s);
    StableSortSorts(s);
    OfClientInTime(out, clientId);
    if OfClient(out, clientId) == mine {
      var i, j :| 0 <= i < j < |mine| && mine[i].tRx >= mine[j].tRx && mine[i] != mine[j];
      var k := PositionOf(out, clientId, mine[i]);
      var l := PositionOf(out, clientId, mine[j]);
      ChangedSort(s, out, clientId, if k < l then k else l, if k < l then l else k);
    }
  }

  lemma PositionOf(s: seq<PendingRequest>, clientId: nat, p: PendingRequest) returns (k: nat)
    requires p in OfClient(s, clientId)
    ensures k < |s| && s[k] == p
  {
    assert p in multiset(OfClient(s, clientId));
    OfClientCounts(s, clientId, p);
    assert p in s;
    k :| k < |s| && s[k] == p;
  }

  // ----- why it matters

  /** Two requests of one receive may be handed over either way round. */
  lemma TiedPairEitherWay(p: PendingRequest, q: PendingRequest)
    requires p.tRx == q.tRx
    ensures SortOf([p, q], [p, q]) && SortOf([q, p], [p, q])
  {
  }

  lemma AddToEmpty(order: Request)
    requires order.side != NoSide && order.qty > 0
    ensures var o := PriceTimeBook.RestingOrder(order, 1, order.qty, 1);
            PriceTimeBook.AddOrder(PriceTimeBook.EMPTY_BOOK, order).book.Resting() == [o]
  {
  }

  /** A new order and its cancellation, received together: a sort may hand them over the wrong way
      round, and the order the client believes cancelled stays in the book. */
  lemma TiedCancelMayComeFirst(order: Request, tRx: int)
    requires order.kind == NewRequest && order.side != NoSide && order.qty > 0
    ensures var cancel := order.(kind := CancelRequest);
            var received := [PendingRequest(tRx, order), PendingRequest(tRx, cancel)];
            var out := [PendingRequest(tRx, cancel), PendingRequest(tRx, order)];
            && SortOf(received, received) && SortOf(out, received)
            && PriceTimeBook.Run(PriceTimeBook.EMPTY_BOOK, Requests(received)).book.Resting() == []
            && |PriceTimeBook.Run(PriceTimeBook.EMPTY_BOOK, Requests(out)).book.Resting()| == 1
  {
    var cancel := order.(kind := CancelRequest);
    var p, q := PendingRequest(tRx, order), PendingRequest(tRx, cancel);
    TiedPairEitherWay(p, q);
    assert Requests([p, q]) == [order, cancel] && Requests([q, p]) == [cancel, order];
    PriceTimeBook.RunOfTwo(PriceTimeBook.EMPTY_BOOK, order, cancel);
    PriceTimeBook.RunOfTwo(PriceTimeBook.EMPTY_BOOK, cancel, order);
    AddToEmpty(order);
    CancelOnEmpty(cancel);
    CancelOnly(order, cancel);
  }

  lemma CancelOnEmpty(cancel: Request)
    ensures PriceTimeBook.CancelOrder(PriceTimeBook.EMPTY_BOOK, cancel).book == PriceTimeBook.EMPTY_BOOK
  {
  }

  lemma CancelOnly(order: Request, cancel: Request)
    requires order.side != NoSide && order.qty > 0
    requires cancel.clientId == order.clientId && cancel.orderId == order.orderId
    ensures PriceTimeBook.CancelOrder(PriceTimeBook.AddOrder(PriceTimeBook.EMPTY_BOOK, order).book, cancel).book.Resting() == []
  {
  }
}
