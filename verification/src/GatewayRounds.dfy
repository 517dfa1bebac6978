/** The gateway serving round after round: what it hands to the engine in all. */
module GatewayRounds {
  import opened Exchange
  import opened Intake
  import Reception
  import opened Sequencing
  import opened Sessions
  import opened Sockets
  import opened Gateway
  import opened StreamToEngine

  // ----- one round more, on values

  lemma OneRoundMore(t: Sessions, rounds: seq<seq<Segment>>, segments: seq<Segment>, size: nat, decode: Decoder)
    requires size > 0 && AllKnown(t, Flat(ArrivalRounds(rounds, size, decode)))
    requires AllKnown(t, NewArrivals(AllSegments(rounds), segments, size, decode))
    ensures var before, arrivals := ArrivalRounds(rounds, size, decode), NewArrivals(AllSegments(rounds), segments, size, decode);
            var all := ArrivalRounds(rounds + [segments], size, decode);
            && all == before + [arrivals] && Flat(all) == Flat(before) + arrivals
            && AllSegments(rounds + [segments]) == AllSegments(rounds) + segments
            && AllKnown(t, Flat(all))
            && After(t, Flat(all)) == After(After(t, Flat(before)), arrivals)
            && PendingOf(t, all) == Stamped(AcceptedOf(After(t, Flat(before)), arrivals))
  {
    var before, arrivals := ArrivalRounds(rounds, size, decode), NewArrivals(AllSegments(rounds), segments, size, decode);
    assert (rounds + [segments])[..|rounds|] == rounds;
    assert (before + [arrivals])[..|before|] == before;
    HistoryConcat(t, Flat(before), arrivals);
  }

  lemma OneOutMore(t: Sessions, rounds: seq<seq<Arrival>>, arrivals: seq<Arrival>, outs: seq<seq<PendingRequest>>, out: seq<PendingRequest>)
    requires AllKnown(t, Flat(rounds)) && SortedRounds(t, rounds, outs)
    requires AllKnown(t, Flat(rounds + [arrivals])) && SortOf(out, PendingOf(t, rounds + [arrivals]))
    ensures SortedRounds(t, rounds + [arrivals], outs + [out])
  {
    assert (rounds + [arrivals])[..|rounds|] == rounds && (outs + [out])[..|outs|] == outs;
  }

  lemma PublishedOneMore(queued: seq<Request>, outs: seq<seq<PendingRequest>>, out: seq<PendingRequest>)
    ensures queued + Requests(Published(outs + [out])) == (queued + Requests(Published(outs))) + Requests(out)
  {
    assert (outs + [out])[..|outs|] == outs;
    assert Requests(Published(outs) + out) == Requests(Published(outs)) + Requests(out);
  }

  // ----- the gateway between two rounds

  /** Started from sessions t and a request queue with these requests in it, the gateway has served
      these rounds and published each as outs says. */
  ghost predicate Served(g: OrderGatewayServer, sockets: set<TCPSocket>, t: Sessions, queued: seq<Request>,
                         rounds: seq<seq<Segment>>, outs: seq<seq<PendingRequest>>)
    reads g.fifo, g.fifo.rxRequests, g.fifo.rxRequests.queue, g.fifo.pendingRequests, g.mapClientToSocket, g.mapClientToRxNSeq
    reads sockets`nextRcvValidIndex, sockets`nextSendValidIndex, set s: TCPSocket | s in sockets :: s.inboundData
  {
    && g.Valid() && g.SocketsApart(sockets) && g.Buffering(sockets, AllSegments(rounds))
    && var arrivals := ArrivalRounds(rounds, g.recordSize, g.decode);
       && AllKnown(t, Flat(arrivals))
       && g.State() == Books(After(t, Flat(arrivals)), [])
       && SortedRounds(t, arrivals, outs)
       && g.fifo.rxRequests.Contents() == queued + Requests(Published(outs))
  }

  /** The gateway can take in the round after these, and the request queue has room for what it accepts. */
  ghost predicate CanServe(g: OrderGatewayServer, sockets: set<TCPSocket>, t: Sessions, queued: seq<Request>,
                           rounds: seq<seq<Segment>>, segments: seq<Segment>)
    requires g.recordSize > 0 && AllKnown(t, Flat(ArrivalRounds(rounds, g.recordSize, g.decode)))
    reads g.fifo
  {
    var now := After(t, Flat(ArrivalRounds(rounds, g.recordSize, g.decode)));
    var arrivals := NewArrivals(AllSegments(rounds), segments, g.recordSize, g.decode);
    && g.Receivable(sockets, AllSegments(rounds), Books(now, []), segments)
    && AllKnown(t, arrivals)
    && |queued| + |AcceptedOf(t, Flat(ArrivalRounds(rounds, g.recordSize, g.decode)) + arrivals)| <= g.fifo.rxRequests.queue.Length
  }

  lemma {:induction false} PublishedCount(t: Sessions, rounds: seq<seq<Arrival>>, outs: seq<seq<PendingRequest>>)
    requires AllKnown(t, Flat(rounds)) && SortedRounds(t, rounds, outs)
    ensures |Published(outs)| == |AcceptedOf(t, Flat(rounds))|
  {
    if rounds != [] {
      var n := |rounds| - 1;
      KnownParts(t, Flat(rounds[..n]), rounds[n]);
      PublishedCount(t, rounds[..n], outs[..n]);
      HistoryConcat(t, Flat(rounds[..n]), rounds[n]);
      assert |outs[n]| == |multiset(outs[n])| == |PendingOf(t, rounds)|;
    }
  }

  /** A round that the request queue has room for: nothing is lost. */
  method ReceiveAndPublish(g: OrderGatewayServer, ghost sockets: set<TCPSocket>, ghost history: seq<Segment>, segments: seq<Segment>)
    returns (ghost out: seq<PendingRequest>)
    requires g.Valid() && g.SocketsApart(sockets) && g.Buffering(sockets, history) && g.fifo.Pending() == []
    requires g.Receivable(sockets, history, g.State(), segments)
    requires |Gains(g.Table(), NewArrivals(history, segments, g.recordSize, g.decode))| <= g.fifo.Room()
    modifies g.mapClientToSocket, g.mapClientToRxNSeq
    modifies g.fifo, g.fifo.pendingRequests, g.fifo.rxRequests, g.fifo.rxRequests.queue
    modifies sockets`nextRcvValidIndex, set s: TCPSocket | s in sockets :: s.inboundData
    ensures g.Valid() && g.SocketsApart(sockets) && g.Buffering(sockets, history + segments)
    ensures var arrivals := NewArrivals(history, segments, g.recordSize, g.decode);
            && g.State() == Books(After(old(g.Table()), arrivals), [])
            && SortOf(out, Gains(old(g.Table()), arrivals))
            && g.fifo.rxRequests.Contents() == old(g.fifo.rxRequests.Contents()) + Requests(out)
  {
    ghost var pending := Gains(g.Table(), NewArrivals(history, segments, g.recordSize, g.decode));
    assert history + [] == history;
    assert g.fifo.Pending() + pending == pending;
    g.ReceiveRound(sockets, history, segments);
    out := g.fifo.pendingRequests[..|pending|];
  }

  /** One round more. */
  method ServeRound(g: OrderGatewayServer, ghost sockets: set<TCPSocket>, ghost t: Sessions, ghost queued: seq<Request>,
                    ghost rounds: seq<seq<Segment>>, segments: seq<Segment>, ghost outs: seq<seq<PendingRequest>>)
    returns (ghost out: seq<PendingRequest>)
    requires Served(g, sockets, t, queued, rounds, outs) && CanServe(g, sockets, t, queued, rounds, segments)
    modifies g.mapClientToSocket, g.mapClientToRxNSeq
    modifies g.fifo, g.fifo.pendingRequests, g.fifo.rxRequests, g.fifo.rxRequests.queue
    modifies sockets`nextRcvValidIndex, set s: TCPSocket | s in sockets :: s.inboundData
    ensures Served(g, sockets, t, queued, rounds + [segments], outs + [out])
  {
    ghost var before := ArrivalRounds(rounds, g.recordSize, g.decode);
    ghost var arrivals := NewArrivals(AllSegments(rounds), segments, g.recordSize, g.decode);
    OneRoundMore(t, rounds, segments, g.recordSize, g.decode);
    PublishedCount(t, before, outs);
    HistoryConcat(t, Flat(before), arrivals);
    out := ReceiveAndPublish(g, sockets, AllSegments(rounds), segments);
    OneOutMore(t, before, arrivals, outs, out);
    PublishedOneMore(queued, outs, out);
  }

  /** Any number of rounds: the request queue gets, round after round, what was accepted in the round,
      sorted by time; the sessions are those of all arrivals. */
  method ServeRounds(g: OrderGatewayServer, ghost sockets: set<TCPSocket>, rounds: seq<seq<Segment>>)
    returns (ghost outs: seq<seq<PendingRequest>>)
    requires g.Valid() && g.SocketsApart(sockets) && g.Buffering(sockets, []) && g.fifo.Pending() == []
    requires RoundsServable(g, sockets, g.Table(), g.fifo.rxRequests.Contents(), rounds)
    modifies g.mapClientToSocket, g.mapClientToRxNSeq
    modifies g.fifo, g.fifo.pendingRequests, g.fifo.rxRequests, g.fifo.rxRequests.queue
    modifies sockets`nextRcvValidIndex, set s: TCPSocket | s in sockets :: s.inboundData
    ensures Served(g, sockets, old(g.Table()), old(g.fifo.rxRequests.Contents()), rounds, outs)
  {
    ghost var t, queued := g.Table(), g.fifo.rxRequests.Contents();
    outs := [];
    NothingServed(g, sockets);
    TakeEnds(rounds);
    var i := 0;
    while i < |rounds|
      invariant 0 <= i <= |rounds|
      invariant Served(g, sockets, t, queued, rounds[..i], outs)
      invariant RoundsServable(g, sockets, t, queued, rounds)
    {
      NextIsServable(g, sockets, t, queued, rounds, i);
      TakeOneMore(rounds, i);
      ghost var out := ServeRound(g, sockets, t, queued, rounds[..i], rounds[i], outs);
      outs := outs + [out];
      i := i + 1;
    }
  }

  /** Every round can be served when its turn comes. */
  ghost predicate RoundsServable(g: OrderGatewayServer, sockets: set<TCPSocket>, t: Sessions, queued: seq<Request>,
                                 rounds: seq<seq<Segment>>)
    requires g.recordSize > 0
    reads g.fifo
  {
    forall i :: 0 <= i < |rounds| && AllKnown(t, Flat(ArrivalRounds(rounds[..i], g.recordSize, g.decode))) ==>
      CanServe(g, sockets, t, queued, rounds[..i], rounds[i])
  }

  lemma NextIsServable(g: OrderGatewayServer, sockets: set<TCPSocket>, t: Sessions, queued: seq<Request>,
                       rounds: seq<seq<Segment>>, i: nat)
    requires g.recordSize > 0 && RoundsServable(g, sockets, t, queued, rounds) && i < |rounds|
    requires AllKnown(t, Flat(ArrivalRounds(rounds[..i], g.recordSize, g.decode)))
    ensures CanServe(g, sockets, t, queued, rounds[..i], rounds[i])
  {
  }

  lemma TakeEnds<T>(s: seq<T>)
    ensures s[..0] == [] && s[..|s|] == s
  {
  }

  lemma TakeOneMore<T>(s: seq<T>, i: nat)
    requires i < |s|
    ensures s[..i + 1] == s[..i] + [s[i]]
  {
  }

  lemma NothingServed(g: OrderGatewayServer, sockets: set<TCPSocket>)
    requires g.Valid() && g.SocketsApart(sockets) && g.Buffering(sockets, []) && g.fifo.Pending() == []
    ensures Served(g, sockets, g.Table(), g.fifo.rxRequests.Contents(), [], [])
  {
    var queued := g.fifo.rxRequests.Contents();
    assert queued + Requests(Published([])) == queued;
  }

  // ----- what that means for the order of requests

  /** Every round went to the engine in order of reception: each request is one that a receive of this
      round completed, with the time of that receive, and the times never go back. */
  lemma ServedAsReceived(g: OrderGatewayServer, sockets: set<TCPSocket>, t: Sessions, queued: seq<Request>,
                         rounds: seq<seq<Segment>>, outs: seq<seq<PendingRequest>>, m: nat)
    requires Served(g, sockets, t, queued, rounds, outs) && m < |rounds|
    ensures g.fifo.rxRequests.Contents() == queued + Requests(Published(outs))
    ensures |outs| == |rounds|
    ensures Reception.InReceptionOrder(AllSegments(rounds[..m]), rounds[m], outs[m], g.recordSize, g.decode)
  {
    Reception.PublishedAsReceived(t, rounds, outs, m, g.recordSize, g.decode);
  }

  // ----- what that means for a client

  /** What a gateway that started without sessions has put on the request queue holds each client's
      accepted requests in order, numbered 1, 2, 3, ... and from the one socket it is bound to, if no
      two of its requests in one round tie or go back in time. */
  lemma ServedInOrder(g: OrderGatewayServer, sockets: set<TCPSocket>, clients: nat, queued: seq<Request>,
                      rounds: seq<seq<Segment>>, outs: seq<seq<PendingRequest>>, clientId: nat)
    requires Served(g, sockets, NoSessions(clients), queued, rounds, outs) && clientId < clients
    requires DecidedRounds(NoSessions(clients), ArrivalRounds(rounds, g.recordSize, g.decode), clientId)
    ensures g.fifo.rxRequests.Contents() == queued + Requests(Published(outs))
    ensures var accepted := FromClient(AcceptedOf(NoSessions(clients), Flat(ArrivalRounds(rounds, g.recordSize, g.decode))), clientId);
            && OfClient(Published(outs), clientId) == Stamped(accepted)
            && InSession(accepted, g.Table().socketOf[clientId], 1)
  {
    var arrivals := ArrivalRounds(rounds, g.recordSize, g.decode);
    SortedIsInOrder(NoSessions(clients), arrivals, outs, clientId);
    EngineSeesClientOrder(clients, arrivals, outs, clientId);
  }

  /** If such a client keeps to one socket and numbers its requests from 1, the queue holds exactly the
      requests of its stream, in the order of the stream. */
  lemma ServedStream(g: OrderGatewayServer, sockets: set<TCPSocket>, clients: nat, queued: seq<Request>,
                     rounds: seq<seq<Segment>>, outs: seq<seq<PendingRequest>>, clientId: nat, socket: TCPSocket)
    requires Served(g, sockets, NoSessions(clients), queued, rounds, outs) && clientId < clients
    requires DecidedRounds(NoSessions(clients), ArrivalRounds(rounds, g.recordSize, g.decode), clientId)
    requires KeepsTo(Arrivals(AllSegments(rounds), g.recordSize, g.decode), clientId, socket)
    requires NumberedFromOne(StreamOfClient(AllSegments(rounds), clientId, socket, g.recordSize, g.decode))
    ensures g.fifo.rxRequests.Contents() == queued + Requests(Published(outs))
    ensures var stream := StreamOfClient(AllSegments(rounds), clientId, socket, g.recordSize, g.decode);
            var handed := Requests(OfClient(Published(outs), clientId));
            |handed| == |stream| && forall i :: 0 <= i < |stream| ==> handed[i] == stream[i].request
  {
    SortedIsInOrder(NoSessions(clients), ArrivalRounds(rounds, g.recordSize, g.decode), outs, clientId);
    StreamReachesEngine(clients, rounds, outs, clientId, socket, g.recordSize, g.decode);
  }
}
