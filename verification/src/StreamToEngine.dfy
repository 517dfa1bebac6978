/** From the bytes on a socket to the requests the engine is handed: framing, sessions and sequencing
    put together over any number of rounds. */
module StreamToEngine {
  import opened Framing
  import opened Intake
  import opened Sequencing
  import opened Sessions
  import opened Sockets

  // ----- one client's stream

  /** The client's records come on this socket alone, which others may use as well. */
  ghost predicate KeepsTo(arrivals: seq<Arrival>, clientId: nat, socket: TCPSocket) {
    forall i :: 0 <= i < |arrivals| ==> (arrivals[i].Client() == clientId ==> arrivals[i].socket == socket)
  }

  /** The client's own records among those of a stream. */
  function Own(records: seq<ClientRecord>, clientId: nat): seq<ClientRecord> {
    if records == [] then []
    else
      var before := Own(records[..|records| - 1], clientId);
      var last := records[|records| - 1];
      if last.request.clientId == clientId then before + [last] else before
  }

  lemma {:induction false} OwnIsMine(arrivals: seq<Arrival>, clientId: nat, socket: TCPSocket)
    requires KeepsTo(arrivals, clientId, socket)
    ensures var mine, own := FromClient(arrivals, clientId), Own(FromSocket(arrivals, socket), clientId);
            |mine| == |own| && forall i :: 0 <= i < |mine| ==> mine[i].record == own[i] && mine[i].socket == socket
  {
    if arrivals != [] {
      var before, last := arrivals[..|arrivals| - 1], arrivals[|arrivals| - 1];
      OwnIsMine(before, clientId, socket);
      if last.socket == socket {
        var records := FromSocket(before, socket);
        assert (records + [last.record])[..|records|] == records;
      }
    }
  }

  /** The records a client sent on its socket. */
  function StreamOfClient(segments: seq<Segment>, clientId: nat, socket: TCPSocket, size: nat, decode: Decoder): seq<ClientRecord>
    requires size > 0
  {
    Own(Decoded(Records(StreamOf(segments, socket), size), decode), clientId)
  }

  ghost predicate NumberedFromOne(stream: seq<ClientRecord>) {
    forall i :: 0 <= i < |stream| ==> stream[i].nSeq == 1 + i
  }

  lemma ArrivedFromClient(segments: seq<Segment>, clientId: nat, socket: TCPSocket, size: nat, decode: Decoder)
    requires size > 0 && KeepsTo(Arrivals(segments, size, decode), clientId, socket)
    ensures var mine := FromClient(Arrivals(segments, size, decode), clientId);
            var stream := StreamOfClient(segments, clientId, socket, size, decode);
            |mine| == |stream| && forall i :: 0 <= i < |mine| ==> mine[i].record == stream[i] && mine[i].socket == socket
  {
    Reassembly(segments, socket, size, decode);
    OwnIsMine(Arrivals(segments, size, decode), clientId, socket);
  }

  lemma StreamIsAccepted(clients: nat, segments: seq<Segment>, clientId: nat, socket: TCPSocket, size: nat, decode: Decoder)
    requires size > 0 && clientId < clients && AllKnown(NoSessions(clients), Arrivals(segments, size, decode))
    requires KeepsTo(Arrivals(segments, size, decode), clientId, socket)
    requires NumberedFromOne(StreamOfClient(segments, clientId, socket, size, decode))
    ensures FromClient(AcceptedOf(NoSessions(clients), Arrivals(segments, size, decode)), clientId) ==
            FromClient(Arrivals(segments, size, decode), clientId)
  {
    ArrivedFromClient(segments, clientId, socket, size, decode);
    WellBehavedIsAccepted(clients, Arrivals(segments, size, decode), clientId, socket);
  }

  /** A client that keeps to one socket, shared or not, and numbers its requests from 1: however the
      stream was cut up, whatever came from others, and however the rounds fell, the engine is handed
      exactly the client's requests of the stream, in the order of the stream. */
  lemma StreamReachesEngine(clients: nat, rounds: seq<seq<Segment>>, outs: seq<seq<PendingRequest>>,
                            clientId: nat, socket: TCPSocket, size: nat, decode: Decoder)
    requires size > 0 && clientId < clients
    requires AllKnown(NoSessions(clients), Flat(ArrivalRounds(rounds, size, decode)))
    requires PublishedInOrder(NoSessions(clients), ArrivalRounds(rounds, size, decode), outs, clientId)
    requires KeepsTo(Arrivals(AllSegments(rounds), size, decode), clientId, socket)
    requires NumberedFromOne(StreamOfClient(AllSegments(rounds), clientId, socket, size, decode))
    ensures var stream := StreamOfClient(AllSegments(rounds), clientId, socket, size, decode);
            var handed := Requests(OfClient(Published(outs), clientId));
            |handed| == |stream| && forall i :: 0 <= i < |stream| ==> handed[i] == stream[i].request
  {
    RoundsJoin(rounds, size, decode);
    StreamIsAccepted(clients, AllSegments(rounds), clientId, socket, size, decode);
    ArrivedFromClient(AllSegments(rounds), clientId, socket, size, decode);
    PublishedIsAccepted(NoSessions(clients), ArrivalRounds(rounds, size, decode), outs, clientId);
  }
}
