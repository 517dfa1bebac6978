/** The sequencer between the gateway and the matching engine: a buffer of received requests that is
    sorted in place by reception time and handed over to the request queue. */
module Sequencer {
  import opened Exchange
  import opened LFQueueClass
  import opened Sequencing

  // ----- sorting in place

  /** In order of time but for the request at j, which is still on its way down. */
  ghost predicate InTimeBut(s: seq<PendingRequest>, j: nat) {
    forall k, l :: 0 <= k < l < |s| && l != j ==> s[k].tRx <= s[l].tRx
  }

  function Swapped(s: seq<PendingRequest>, j: nat): seq<PendingRequest>
    requires 0 < j < |s|
  {
    s[j - 1 := s[j]][j := s[j - 1]]
  }

  lemma SwapStep(s: seq<PendingRequest>, j: nat)
    requires 0 < j < |s| && InTimeBut(s, j) && s[j - 1].tRx > s[j].tRx
    ensures InTimeBut(Swapped(s, j), j - 1) && multiset(Swapped(s, j)) == multiset(s)
  {
  }

  lemma AtRest(s: seq<PendingRequest>, j: nat)
    requires j < |s| && InTimeBut(s, j) && (j == 0 || s[j - 1].tRx <= s[j].tRx)
    ensures InTime(s)
  {
  }

  // ----- the buffer

  class FIFOSequencer {
    const rxRequests: LFQueue<Request>
    const pendingRequests: array<PendingRequest>
    var nPendingRequests: nat

    ghost predicate Valid()
      reads this, rxRequests, rxRequests.queue
    {
      && nPendingRequests <= pendingRequests.Length
      && (pendingRequests as object) != rxRequests.queue
      && rxRequests.Valid()
    }

    ghost function Pending(): seq<PendingRequest>
      reads this, pendingRequests, rxRequests, rxRequests.queue
      requires Valid()
    {
      pendingRequests[..nPendingRequests]
    }

    /** Free slots of the request queue. */
    ghost function Room(): nat
      reads this, rxRequests, rxRequests.queue
      requires Valid()
    {
      rxRequests.queue.Length - |rxRequests.Contents()|
    }

    constructor (rxRequests: LFQueue<Request>, maxPending: nat)
      requires rxRequests.Valid()
      ensures Valid() && Pending() == [] && this.rxRequests == rxRequests
      ensures pendingRequests.Length == maxPending && fresh(pendingRequests)
    {
      this.rxRequests := rxRequests;
      pendingRequests := new PendingRequest[maxPending];
      nPendingRequests := 0;
    }

    /** Buffers a request; running out of buffer ends the process. */
    method PushClientRequest(request: Request, tRx: int)
      requires Valid() && nPendingRequests < pendingRequests.Length
      modifies this, pendingRequests
      ensures Valid() && Pending() == old(Pending()) + [PendingRequest(tRx, request)]
    {
      pendingRequests[nPendingRequests] := PendingRequest(tRx, request);
      nPendingRequests := nPendingRequests + 1;
    }

    /** Moves the request at i down to its place among the sorted ones before it. */
    method SinkInto(i: nat)
      requires i < pendingRequests.Length && InTime(pendingRequests[..i])
      modifies pendingRequests
      ensures SortOf(pendingRequests[..i + 1], old(pendingRequests[..i + 1]))
      ensures pendingRequests[i + 1..] == old(pendingRequests[i + 1..])
    {
      var j := i;
      ghost var s := pendingRequests[..i + 1];
      assert s[..i] == pendingRequests[..i];
      while j > 0 && pendingRequests[j - 1].tRx > pendingRequests[j].tRx
        invariant 0 <= j <= i && s == pendingRequests[..i + 1]
        invariant InTimeBut(s, j)
        invariant multiset(s) == multiset(old(pendingRequests[..i + 1]))
        invariant pendingRequests[i + 1..] == old(pendingRequests[i + 1..])
      {
        SwapStep(s, j);
        s := Swapped(s, j);
        pendingRequests[j - 1], pendingRequests[j] := pendingRequests[j], pendingRequests[j - 1];
        j := j - 1;
      }
      AtRest(s, j);
    }

    /** Sorts the pending requests in place. The library sort of the source promises no more than
        this contract, and nothing below relies on more: in particular not on ties keeping order. */
    method SortPending()
      requires Valid()
      modifies pendingRequests
      ensures Valid() && SortOf(Pending(), old(Pending()))
    {
      var i := 0;
      ghost var s := pendingRequests[..];
      while i < nPendingRequests
        invariant 0 <= i <= nPendingRequests
        invariant SortOf(pendingRequests[..i], s[..i])
        invariant pendingRequests[i..] == s[i..]
      {
        OneMoreToSort(pendingRequests[..], s, i);
        SinkInto(i);
        i := i + 1;
      }
    }

    /** Hands one request over, unless the queue is full. */
    method Offer(request: Request)
      requires Valid()
      modifies rxRequests, rxRequests.queue
      ensures Valid() && Pending() == old(Pending())
      ensures rxRequests.Contents() ==
              if old(Room()) > 0 then old(rxRequests.Contents()) + [request] else old(rxRequests.Contents())
    {
      var _ := rxRequests.Push(request);
    }

    /** Hands the pending requests over in order; what does not fit is lost. */
    method PublishPending()
      requires Valid()
      modifies rxRequests, rxRequests.queue
      ensures Valid() && Pending() == old(Pending())
      ensures rxRequests.Contents() == Delivered(old(rxRequests.Contents()), Pending(), |Pending()|, old(Room()))
    {
      ghost var sorted, queued, room := Pending(), rxRequests.Contents(), Room();
      var i := 0;
      while i < nPendingRequests
        invariant 0 <= i <= nPendingRequests
        invariant Valid() && Pending() == sorted
        invariant rxRequests.Contents() == Delivered(queued, sorted, i, room)
      {
        DeliverOne(queued, sorted, i, room);
        Offer(pendingRequests[i].request);
        i := i + 1;
      }
    }

    /** Sorts, hands over as many requests as the queue has room for, and empties the buffer; what
        the queue refuses is lost. */
    method SequenceAndPublish()
      requires Valid()
      modifies this, pendingRequests, rxRequests, rxRequests.queue
      ensures Valid() && Pending() == []
      ensures var sorted := pendingRequests[..old(nPendingRequests)];
              && SortOf(sorted, old(Pending()))
              && rxRequests.Contents() == Delivered(old(rxRequests.Contents()), sorted, |sorted|, old(Room()))
    {
      if nPendingRequests == 0 {
        return;
      }
      SortPending();
      PublishPending();
      nPendingRequests := 0;
    }
  }

  /** A queue after the first i of the sorted requests were offered to it, given its free slots. */
  function Delivered(queued: seq<Request>, sorted: seq<PendingRequest>, i: nat, room: nat): (q: seq<Request>)
    requires i <= |sorted|
    ensures |sorted| <= room && i == |sorted| ==> q == queued + Requests(sorted)
    ensures |q| == |queued| + (if i <= room then i else room) && queued <= q
    ensures forall k :: 0 <= k < i && k < room ==> q[|queued| + k] == sorted[k].request
  {
    assert sorted[..|sorted|] == sorted;
    queued + Requests(sorted[..Min(i, room)])
  }

  lemma DeliverOne(queued: seq<Request>, sorted: seq<PendingRequest>, i: nat, room: nat)
    requires i < |sorted|
    ensures Delivered(queued, sorted, i + 1, room) ==
            if i < room then Delivered(queued, sorted, i, room) + [sorted[i].request]
            else Delivered(queued, sorted, i, room)
  {
  }

  lemma OneMoreToSort(a: seq<PendingRequest>, s: seq<PendingRequest>, i: nat)
    requires |a| == |s| && i < |s| && a[i..] == s[i..]
    requires multiset(a[..i]) == multiset(s[..i])
    ensures multiset(a[..i + 1]) == multiset(s[..i + 1])
    ensures a[i + 1..] == s[i + 1..]
  {
    assert a[i] == a[i..][0] == s[i..][0] == s[i];
    assert a[..i + 1] == a[..i] + [a[i]] && s[..i + 1] == s[..i] + [s[i]];
    assert a[i + 1..] == a[i..][1..] && s[i + 1..] == s[i..][1..];
  }
}
