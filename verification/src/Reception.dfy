/** When a record counts as received: with the receive whose bytes complete it, at the time of that
    receive; and what that means for the order in which a round is published. */
module Reception {
  import opened Framing
  import opened Intake
  import opened Sequencing
  import opened Sessions
  import opened Sockets

  // ----- the receive that completes it

  /** The records there are of a socket after some receives, from its joined stream. */
  function RecordsOf(segments: seq<Segment>, socket: TCPSocket, size: nat): seq<Bytes>
    requires size > 0
  {
    Records(StreamOf(segments, socket), size)
  }

  /** The socket of receive i has its record k complete with that receive, and not before. */
  predicate CompleteWith(segments: seq<Segment>, i: nat, k: nat, size: nat)
    requires size > 0 && i < |segments|
  {
    |RecordsOf(segments[..i], segments[i].socket, size)| <= k < |RecordsOf(segments[..i + 1], segments[i].socket, size)|
  }

  /** An arrival that k others on its socket came before is that socket's record k; it arrives with
      receive i, which completes it, and has the time of that receive. */
  predicate ArrivesWith(segments: seq<Segment>, earlier: seq<Arrival>, a: Arrival, i: nat, size: nat, decode: Decoder)
    requires size > 0
  {
    var k := |FromSocket(earlier, a.socket)|;
    && i < |segments| && a.socket == segments[i].socket && a.tRx == segments[i].tRx
    && CompleteWith(segments, i, k, size)
    && k < |RecordsOf(segments, a.socket, size)| && a.record == decode(RecordsOf(segments, a.socket, size)[k])
  }

  /** One receive more only adds records, and only to those of its socket: what it completes. */
  lemma RecordsGrow(segments: seq<Segment>, next: Segment, socket: TCPSocket, size: nat, decode: Decoder)
    requires size > 0
    ensures RecordsOf(segments + [next], socket, size) ==
            RecordsOf(segments, socket, size) +
            (if next.socket == socket then Records(BufferOf(segments, socket, size) + next.bytes, size) else [])
  {
    assert (segments + [next])[..|segments|] == segments;
    Reassembly(segments, socket, size, decode);
    SplitResumes(StreamOf(segments, socket), next.bytes, size);
  }

  lemma ArrivalStays(segments: seq<Segment>, next: Segment, earlier: seq<Arrival>, a: Arrival, i: nat, size: nat, decode: Decoder)
    requires size > 0 && ArrivesWith(segments, earlier, a, i, size, decode)
    ensures ArrivesWith(segments + [next], earlier, a, i, size, decode)
  {
    RecordsGrow(segments, next, a.socket, size, decode);
    assert (segments + [next])[..i] == segments[..i] && (segments + [next])[..i + 1] == segments[..i + 1];
  }

  /** The j-th record that a receive completes follows the records there were. */
  lemma CompletedArrives(segments: seq<Segment>, next: Segment, j: nat, size: nat, decode: Decoder)
    requires size > 0 && j < |Completed(segments, next, size, decode)|
    ensures var added := Completed(segments, next, size, decode);
            ArrivesWith(segments + [next], Arrivals(segments, size, decode) + added[..j], added[j], |segments|, size, decode)
  {
    CompletedCount(segments, next, j, size, decode);
    RecordsGrow(segments, next, next.socket, size, decode);
    assert (segments + [next])[..|segments|] == segments && (segments + [next])[..|segments| + 1] == segments + [next];
  }

  lemma CompletedCount(segments: seq<Segment>, next: Segment, j: nat, size: nat, decode: Decoder)
    requires size > 0 && j <= |Completed(segments, next, size, decode)|
    ensures |FromSocket(Arrivals(segments, size, decode) + Completed(segments, next, size, decode)[..j], next.socket)| ==
            |RecordsOf(segments, next.socket, size)| + j
  {
    var records := Records(BufferOf(segments, next.socket, size) + next.bytes, size);
    Reassembly(segments, next.socket, size, decode);
    assert Completed(segments, next, size, decode)[..j] == ReadFrom(records[..j], next.socket, next.tRx, decode);
    FromSocketConcat(Arrivals(segments, size, decode), ReadFrom(records[..j], next.socket, next.tRx, decode), next.socket);
    FromSocketRead(records[..j], next.socket, next.tRx, decode, next.socket);
  }

  /** Nondecreasing, and within bounds. */
  predicate Ascending(at: seq<nat>, first: nat, end: nat) {
    && (forall p :: 0 <= p < |at| ==> first <= at[p] < end)
    && (forall p, q :: 0 <= p < q < |at| ==> at[p] <= at[q])
  }

  lemma AscendingJoin(at: seq<nat>, at': seq<nat>, first: nat, second: nat, end: nat)
    requires Ascending(at, first, end) && Ascending(at', second, end) && first <= second
    requires forall p :: 0 <= p < |at| ==> at[p] <= second
    ensures Ascending(at + at', first, end)
  {
  }

  lemma PartsOfJoin(earlier: seq<Arrival>, added: seq<Arrival>, more: seq<Arrival>, p: nat)
    requires p < |added| + |more|
    ensures p < |added| ==> (added + more)[..p] == added[..p]
    ensures p >= |added| ==> earlier + (added + more)[..p] == (earlier + added) + more[..p - |added|]
  {
  }

  /** These further arrivals came with these receives, one after the other. */
  ghost predicate ArrivedWith(segments: seq<Segment>, first: nat, earlier: seq<Arrival>, added: seq<Arrival>, at: seq<nat>,
                              size: nat, decode: Decoder)
    requires size > 0
  {
    && |at| == |added| && Ascending(at, first, |segments|)
    && (forall p :: 0 <= p < |at| ==> ArrivesWith(segments, earlier + added[..p], added[p], at[p], size, decode))
  }

  lemma ArrivedStays(segments: seq<Segment>, next: Segment, first: nat, earlier: seq<Arrival>, added: seq<Arrival>, at: seq<nat>,
                     size: nat, decode: Decoder)
    requires size > 0 && ArrivedWith(segments, first, earlier, added, at, size, decode)
    ensures ArrivedWith(segments + [next], first, earlier, added, at, size, decode)
  {
    forall p | 0 <= p < |at|
      ensures ArrivesWith(segments + [next], earlier + added[..p], added[p], at[p], size, decode)
    {
      ArrivalStays(segments, next, earlier + added[..p], added[p], at[p], size, decode);
    }
  }

  lemma ArrivedJoin(segments: seq<Segment>, first: nat, earlier: seq<Arrival>, added: seq<Arrival>, at: seq<nat>,
                    second: nat, more: seq<Arrival>, at': seq<nat>, size: nat, decode: Decoder)
    requires size > 0 && ArrivedWith(segments, first, earlier, added, at, size, decode) && first <= second
    requires ArrivedWith(segments, second, earlier + added, more, at', size, decode)
    requires forall p :: 0 <= p < |at| ==> at[p] <= second
    ensures ArrivedWith(segments, first, earlier, added + more, at + at', size, decode)
  {
    AscendingJoin(at, at', first, second, |segments|);
    forall p | 0 <= p < |at + at'|
      ensures ArrivesWith(segments, earlier + (added + more)[..p], (added + more)[p], (at + at')[p], size, decode)
    {
      PartsOfJoin(earlier, added, more, p);
      if p < |added| {
        assert ArrivesWith(segments, earlier + added[..p], added[p], at[p], size, decode);
      } else {
        var q := p - |added|;
        assert ArrivesWith(segments, (earlier + added) + more[..q], more[q], at'[q], size, decode);
      }
    }
  }

  lemma CompletedArrived(segments: seq<Segment>, next: Segment, size: nat, decode: Decoder) returns (at: seq<nat>)
    requires size > 0
    ensures ArrivedWith(segments + [next], |segments|, Arrivals(segments, size, decode), Completed(segments, next, size, decode),
                        at, size, decode)
  {
    var more := Completed(segments, next, size, decode);
    at := seq(|more|, _ => |segments|);
    forall p | 0 <= p < |at|
      ensures ArrivesWith(segments + [next], Arrivals(segments, size, decode) + more[..p], more[p], at[p], size, decode)
    {
      CompletedArrives(segments, next, p, size, decode);
    }
  }

  lemma OneReceiveMore(segments: seq<Segment>, next: Segment, first: nat, earlier: seq<Arrival>, added: seq<Arrival>, at: seq<nat>,
                       size: nat, decode: Decoder) returns (at': seq<nat>)
    requires size > 0 && first <= |segments| && earlier + added == Arrivals(segments, size, decode)
    requires ArrivedWith(segments, first, earlier, added, at, size, decode)
    ensures ArrivedWith(segments + [next], first, earlier, added + Completed(segments, next, size, decode), at', size, decode)
  {
    ArrivedStays(segments, next, first, earlier, added, at, size, decode);
    var at2 := CompletedArrived(segments, next, size, decode);
    ArrivedJoin(segments + [next], first, earlier, added, at, |segments|, Completed(segments, next, size, decode), at2, size, decode);
    at' := at + at2;
  }

  /** The arrivals of some further receives come in the order of the receives that complete them, each
      at the time of its receive. */
  lemma {:induction false} ArriveInOrder(history: seq<Segment>, segments: seq<Segment>, size: nat, decode: Decoder)
    returns (at: seq<nat>)
    requires size > 0
    ensures ArrivedWith(history + segments, |history|, Arrivals(history, size, decode), NewArrivals(history, segments, size, decode),
                        at, size, decode)
  {
    if segments == [] {
      at := [];
    } else {
      var before, next := segments[..|segments| - 1], segments[|segments| - 1];
      at := ArriveInOrder(history, before, size, decode);
      assert history + segments == (history + before) + [next];
      ArrivalsGrow(history, before, size, decode);
      at := OneReceiveMore(history + before, next, |history|, Arrivals(history, size, decode),
                           NewArrivals(history, before, size, decode), at, size, decode);
    }
  }

  // ----- rounds

  lemma {:induction false} AcceptedArrived(t: Sessions, arrivals: seq<Arrival>, a: Arrival)
    requires AllKnown(t, arrivals) && a in AcceptedOf(t, arrivals)
    ensures a in arrivals
  {
    if arrivals != [] {
      var before, last := arrivals[..|arrivals| - 1], arrivals[|arrivals| - 1];
      if a != last { AcceptedArrived(t, before, a); }
    }
  }

  lemma {:induction false} RoundOf(t: Sessions, rounds: seq<seq<Arrival>>, outs: seq<seq<PendingRequest>>, m: nat)
    requires AllKnown(t, Flat(rounds)) && SortedRounds(t, rounds, outs) && m < |rounds|
    ensures AllKnown(t, Flat(rounds[..m])) && AllKnown(t, rounds[m]) && |outs| == |rounds|
    ensures SortOf(outs[m], Stamped(AcceptedOf(After(t, Flat(rounds[..m])), rounds[m])))
  {
    var n := |rounds| - 1;
    KnownParts(t, Flat(rounds[..n]), rounds[n]);
    if m < n {
      assert rounds[..n][..m] == rounds[..m];
      RoundOf(t, rounds[..n], outs[..n], m);
    }
  }

  lemma {:induction false} ArrivalsOfRound(rounds: seq<seq<Segment>>, m: nat, size: nat, decode: Decoder)
    requires size > 0 && m < |rounds|
    ensures ArrivalRounds(rounds, size, decode)[m] == NewArrivals(AllSegments(rounds[..m]), rounds[m], size, decode)
    ensures ArrivalRounds(rounds, size, decode)[..m] == ArrivalRounds(rounds[..m], size, decode)
  {
    var n := |rounds| - 1;
    if m < n {
      ArrivalsOfRound(rounds[..n], m, size, decode);
      assert rounds[..n][..m] == rounds[..m];
    }
  }

  /** This request was complete with receive i, as record k of its socket, and is pending since then. */
  predicate ReceivedWith(segments: seq<Segment>, x: PendingRequest, i: nat, k: nat, size: nat, decode: Decoder)
    requires size > 0
  {
    && i < |segments| && x.tRx == segments[i].tRx
    && CompleteWith(segments, i, k, size)
    && k < |RecordsOf(segments, segments[i].socket, size)|
    && x.request == decode(RecordsOf(segments, segments[i].socket, size)[k]).request
  }

  lemma AcceptedWasReceived(history: seq<Segment>, segments: seq<Segment>, t: Sessions, x: PendingRequest, size: nat, decode: Decoder)
    returns (i: nat, k: nat)
    requires size > 0 && AllKnown(t, NewArrivals(history, segments, size, decode))
    requires x in Stamped(AcceptedOf(t, NewArrivals(history, segments, size, decode)))
    ensures |history| <= i && ReceivedWith(history + segments, x, i, k, size, decode)
  {
    var arrivals := NewArrivals(history, segments, size, decode);
    var accepted := AcceptedOf(t, arrivals);
    var j :| 0 <= j < |accepted| && Stamped(accepted)[j] == x;
    AcceptedArrived(t, arrivals, accepted[j]);
    var p :| 0 <= p < |arrivals| && arrivals[p] == accepted[j];
    var at := ArriveInOrder(history, segments, size, decode);
    assert ArrivesWith(history + segments, Arrivals(history, size, decode) + arrivals[..p], arrivals[p], at[p], size, decode);
    i, k := at[p], |FromSocket(Arrivals(history, size, decode) + arrivals[..p], arrivals[p].socket)|;
  }

  /** This request was completed by one of these receives, after a history of others. */
  ghost predicate ReceivedAmong(history: seq<Segment>, segments: seq<Segment>, x: PendingRequest, size: nat, decode: Decoder)
    requires size > 0
  {
    exists i: nat, k: nat :: |history| <= i && ReceivedWith(history + segments, x, i, k, size, decode)
  }

  /** In order of reception, over all sockets and clients: each request was completed by one of these
      receives and has its time, and the times never go back. */
  ghost predicate InReceptionOrder(history: seq<Segment>, segments: seq<Segment>, out: seq<PendingRequest>, size: nat, decode: Decoder)
    requires size > 0
  {
    && (forall j, l :: 0 <= j < l < |out| ==> out[j].tRx <= out[l].tRx)
    && (forall j :: 0 <= j < |out| ==> ReceivedAmong(history, segments, out[j], size, decode))
  }

  lemma SortedIsInReceptionOrder(history: seq<Segment>, segments: seq<Segment>, t: Sessions, out: seq<PendingRequest>,
                                 size: nat, decode: Decoder)
    requires size > 0 && AllKnown(t, NewArrivals(history, segments, size, decode))
    requires SortOf(out, Stamped(AcceptedOf(t, NewArrivals(history, segments, size, decode))))
    ensures InReceptionOrder(history, segments, out, size, decode)
  {
    var pending := Stamped(AcceptedOf(t, NewArrivals(history, segments, size, decode)));
    forall j | 0 <= j < |out|
      ensures ReceivedAmong(history, segments, out[j], size, decode)
    {
      assert out[j] in multiset(out);
      assert out[j] in pending;
      var i, k := AcceptedWasReceived(history, segments, t, out[j], size, decode);
    }
  }

  /** Every round is published in order of reception. */
  lemma PublishedAsReceived(t: Sessions, rounds: seq<seq<Segment>>, outs: seq<seq<PendingRequest>>, m: nat, size: nat, decode: Decoder)
    requires size > 0 && AllKnown(t, Flat(ArrivalRounds(rounds, size, decode))) && m < |rounds|
    requires SortedRounds(t, ArrivalRounds(rounds, size, decode), outs)
    ensures |outs| == |rounds| && InReceptionOrder(AllSegments(rounds[..m]), rounds[m], outs[m], size, decode)
  {
    var arrivals := ArrivalRounds(rounds, size, decode);
    RoundOf(t, arrivals, outs, m);
    ArrivalsOfRound(rounds, m, size, decode);
    SortedIsInReceptionOrder(AllSegments(rounds[..m]), rounds[m], After(t, Flat(arrivals[..m])), outs[m], size, decode);
  }
}
