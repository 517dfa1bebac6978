/** The order gateway: it takes records out of the sockets' buffers, checks each against its client's
    session, hands the accepted requests to the sequencer, and sends the responses out. */
module Gateway {
  import opened Exchange
  import opened Framing
  import opened Intake
  import opened LFQueueClass
  import opened Responses
  import opened Sequencer
  import opened Sequencing
  import opened Sessions
  import opened Sockets

  // ----- the loop over a buffer

  /** What an arrival adds to the pending requests. */
  function Gain(t: Sessions, a: Arrival): seq<PendingRequest>
    requires t.Knows(a.Client())
  {
    if Accepts(t, a) then [PendingRequest(a.tRx, a.record.request)] else []
  }

  /** What a sequence of arrivals adds. */
  function Gains(t: Sessions, arrivals: seq<Arrival>): seq<PendingRequest>
    requires AllKnown(t, arrivals)
  {
    Stamped(AcceptedOf(t, arrivals))
  }

  /** Taking arrivals from the front comes to the same. */
  lemma FirstArrival(t: Sessions, a: Arrival, rest: seq<Arrival>)
    requires AllKnown(t, [a] + rest)
    ensures t.Knows(a.Client()) && AllKnown(Next(t, a), rest)
    ensures After(t, [a] + rest) == After(Next(t, a), rest)
    ensures Gains(t, [a] + rest) == Gain(t, a) + Gains(Next(t, a), rest)
  {
    assert ([a] + rest)[0] == a;
    KnownParts(t, [a], rest);
    HistoryConcat(t, [a], rest);
    assert [a][..0] == [];
    assert After(t, []) == t;
    assert AcceptedOf(t, [a]) == if Accepts(t, a) then [a] else [];
  }

  /** The whole of a receive: where its bytes are from and how they are read. */
  datatype Reading = Reading(stream: Bytes, size: nat, socket: TCPSocket, tRx: int, decode: Decoder)
  {
    /** The arrivals in the buffer from its byte i on. */
    function From(i: nat): seq<Arrival>
      requires size > 0 && i <= |stream|
    {
      ReadFrom(Records(stream[i..], size), socket, tRx, decode)
    }

    function At(i: nat): Arrival
      requires i + size <= |stream|
    {
      Arrival(socket, tRx, decode(stream[i..i + size]))
    }
  }

  /** Sessions and pending requests. */
  datatype Books = Books(table: Sessions, pending: seq<PendingRequest>)

  /** Both after one arrival more. */
  function NextBooks(b: Books, a: Arrival): Books
    requires b.table.Knows(a.Client())
  {
    Books(Next(b.table, a), b.pending + Gain(b.table, a))
  }

  /** Both after a sequence of arrivals. */
  function BooksAfter(b: Books, arrivals: seq<Arrival>): Books
    requires AllKnown(b.table, arrivals)
  {
    Books(After(b.table, arrivals), b.pending + Gains(b.table, arrivals))
  }

  lemma FirstBooks(b: Books, a: Arrival, rest: seq<Arrival>)
    requires AllKnown(b.table, [a] + rest)
    ensures b.table.Knows(a.Client()) && AllKnown(Next(b.table, a), rest)
    ensures BooksAfter(b, [a] + rest) == BooksAfter(NextBooks(b, a), rest)
    ensures |NextBooks(b, a).pending| <= |BooksAfter(b, [a] + rest).pending|
  {
    FirstArrival(b.table, a, rest);
    JoinAssociates(b.pending, Gain(b.table, a), Gains(Next(b.table, a), rest));
  }

  /** The loop has handled everything before byte i, and this is the state it is in: what is still in
      the buffer leads on to the result of the whole. */
  ghost predicate HandledUpTo(r: Reading, start: Books, i: nat, now: Books) {
    && r.size > 0 && i <= |r.stream|
    && (i == 0 || i >= r.size)
    && Leftover(r.stream[i..], r.size) == Leftover(r.stream, r.size)
    && AllKnown(start.table, r.From(0)) && AllKnown(now.table, r.From(i))
    && BooksAfter(now, r.From(i)) == BooksAfter(start, r.From(0))
  }

  lemma HandleFirst(r: Reading, start: Books)
    requires r.size > 0 && AllKnown(start.table, r.From(0))
    ensures HandledUpTo(r, start, 0, start)
  {
  }

  lemma FromStep(r: Reading, i: nat, next: nat)
    requires r.size > 0 && next == i + r.size <= |r.stream|
    ensures r.From(i) == [r.At(i)] + r.From(next)
    ensures Leftover(r.stream[i..], r.size) == Leftover(r.stream[next..], r.size)
  {
    SplitFrom(r.stream, i, r.size);
  }

  lemma HandleNext(r: Reading, start: Books, i: nat, next: nat, now: Books)
    requires HandledUpTo(r, start, i, now) && next == i + r.size <= |r.stream|
    ensures now.table.Knows(r.At(i).Client())
    ensures Accepts(now.table, r.At(i)) ==> |now.pending| < |BooksAfter(start, r.From(0)).pending|
    ensures HandledUpTo(r, start, next, NextBooks(now, r.At(i)))
  {
    FromStep(r, i, next);
    FirstBooks(now, r.At(i), r.From(next));
  }

  lemma HandledAll(r: Reading, start: Books, i: nat, now: Books)
    requires HandledUpTo(r, start, i, now) && i + r.size > |r.stream|
    ensures now == BooksAfter(start, r.From(0))
    ensures r.stream[i..] == Leftover(r.stream, r.size)
    ensures i > 0 ==> |r.stream| - i < i
  {
  }

  lemma NothingToRead(r: Reading, b: Books)
    requires r.size > |r.stream|
    ensures r.From(0) == [] && Leftover(r.stream, r.size) == r.stream
    ensures BooksAfter(b, []) == b
  {
  }

  /** Taking arrivals in two goes comes to the same as taking them at once. */
  lemma BooksInTwo(b: Books, first: seq<Arrival>, more: seq<Arrival>)
    requires AllKnown(b.table, first + more)
    ensures AllKnown(b.table, first) && AllKnown(b.table, more)
    ensures BooksAfter(b, first + more) == BooksAfter(BooksAfter(b, first), more)
    ensures |BooksAfter(b, first).pending| <= |BooksAfter(b, first + more).pending|
  {
    KnownParts(b.table, first, more);
    HistoryConcat(b.table, first, more);
    assert Gains(b.table, first + more) == Gains(b.table, first) + Gains(After(b.table, first), more);
    JoinAssociates(b.pending, Gains(b.table, first), Gains(After(b.table, first), more));
  }

  lemma OneMore<T>(s: seq<T>, t: seq<T>, i: nat)
    requires i < |t|
    ensures s + t[..i + 1] == (s + t[..i]) + [t[i]]
  {
  }

  /** The i-th receive of a round, when the round as a whole is in order. */
  lemma OneMoreReceive(b: Books, history: seq<Segment>, segments: seq<Segment>, i: nat, size: nat, decode: Decoder)
    requires size > 0 && i < |segments| && AllKnown(b.table, NewArrivals(history, segments, size, decode))
    ensures var before := NewArrivals(history, segments[..i], size, decode);
            var arrivals := Completed(history + segments[..i], segments[i], size, decode);
            && AllKnown(b.table, before) && AllKnown(b.table, arrivals)
            && NewArrivals(history, segments[..i + 1], size, decode) == before + arrivals
            && AllKnown(b.table, before + arrivals)
            && BooksAfter(b, before + arrivals) == BooksAfter(BooksAfter(b, before), arrivals)
            && |BooksAfter(b, before + arrivals).pending| <= |BooksAfter(b, NewArrivals(history, segments, size, decode)).pending|
  {
    var later := EarlierArrivals(history, segments, i + 1, size, decode);
    BooksInTwo(b, NewArrivals(history, segments[..i + 1], size, decode), later);
    assert segments[..i + 1][..i] == segments[..i];
    BooksInTwo(b, NewArrivals(history, segments[..i], size, decode), Completed(history + segments[..i], segments[i], size, decode));
  }

  lemma SliceOfPrefix<T>(a: array<T>, n: nat, i: nat, j: nat)
    requires i <= j <= n <= a.Length
    ensures a[i..j] == a[..n][i..j]
  {
    forall k | 0 <= k < j - i
      ensures a[i..j][k] == a[..n][i..j][k]
    {
      assert a[i..j][k] == a[i + k] && a[..n][i..j][k] == a[..n][i + k];
    }
  }

  class OrderGatewayServer {
    const recordSize: nat
    const decode: Decoder
    const layout: Layout
    const rxResponses: LFQueue<Response>
    const fifo: FIFOSequencer
    const mapClientToTxNSeq: array<nat>
    const mapClientToRxNSeq: array<nat>
    const mapClientToSocket: array<TCPSocket?>

    /** Each client's session. */
    ghost function Table(): Sessions
      reads mapClientToSocket, mapClientToRxNSeq
    {
      Sessions(mapClientToSocket[..], mapClientToRxNSeq[..])
    }

    ghost function State(): Books
      requires Valid()
      reads fifo, fifo.rxRequests, fifo.rxRequests.queue, fifo.pendingRequests, mapClientToSocket, mapClientToRxNSeq
    {
      Books(Table(), fifo.Pending())
    }

    ghost predicate Separate()
      reads fifo
    {
      && mapClientToTxNSeq != mapClientToRxNSeq
      && mapClientToTxNSeq.Length == mapClientToRxNSeq.Length == mapClientToSocket.Length
      && {mapClientToTxNSeq as object, mapClientToRxNSeq, mapClientToSocket}
         !! {fifo.pendingRequests as object, fifo.rxRequests.queue, rxResponses.queue}
      && fifo.pendingRequests as object != rxResponses.queue
      && fifo.rxRequests as object != rxResponses && fifo.rxRequests.queue as object != rxResponses.queue
    }

    ghost predicate Valid()
      reads fifo, fifo.rxRequests, fifo.rxRequests.queue
    {
      && recordSize > 0
      && Separate()
      && fifo.Valid()
    }

    constructor (clients: nat, recordSize: nat, decode: Decoder, layout: Layout,
                 txRequests: LFQueue<Request>, rxResponses: LFQueue<Response>, maxPending: nat)
      requires recordSize > 0 && txRequests.Valid()
      requires txRequests as object != rxResponses && txRequests.queue as object != rxResponses.queue
      ensures Valid() && Table() == NoSessions(clients) && fifo.Pending() == []
      ensures forall c :: 0 <= c < clients ==> mapClientToTxNSeq.Length == clients && mapClientToTxNSeq[c] == 1
      ensures this.recordSize == recordSize && this.decode == decode && this.layout == layout
      ensures this.rxResponses == rxResponses && fifo.rxRequests == txRequests
      ensures fifo.pendingRequests.Length == maxPending
      ensures fresh(fifo) && fresh(fifo.pendingRequests)
      ensures fresh(mapClientToTxNSeq) && fresh(mapClientToRxNSeq) && fresh(mapClientToSocket)
    {
      this.recordSize, this.decode, this.layout := recordSize, decode, layout;
      this.rxResponses := rxResponses;
      fifo := new FIFOSequencer(txRequests, maxPending);
      mapClientToTxNSeq := new nat[clients](_ => 1);
      mapClientToRxNSeq := new nat[clients](_ => 1);
      mapClientToSocket := new TCPSocket?[clients](_ => null);
      new;
      assert Table() == NoSessions(clients);
    }

    /** The body of the receive loop: one record of a socket. */
    method HandleRecord(socket: TCPSocket, tRx: int, record: ClientRecord)
      requires Valid() && Table().Knows(record.request.clientId)
      requires Accepts(Table(), Arrival(socket, tRx, record)) ==> fifo.nPendingRequests < fifo.pendingRequests.Length
      modifies mapClientToSocket, mapClientToRxNSeq, fifo, fifo.pendingRequests
      ensures Valid()
      ensures State() == NextBooks(old(State()), Arrival(socket, tRx, record))
    {
      var clientId := record.request.clientId;
      if mapClientToSocket[clientId] == null {
        mapClientToSocket[clientId] := socket;
      }
      if mapClientToSocket[clientId] == socket && record.nSeq == mapClientToRxNSeq[clientId] {
        mapClientToRxNSeq[clientId] := mapClientToRxNSeq[clientId] + 1;
        fifo.PushClientRequest(record.request, tRx);
      }
    }

    /** What a receive on this socket has to read, as long as nothing is consumed. */
    ghost function ReadingOf(socket: TCPSocket, tRx: int): Reading
      requires socket.Valid()
      reads socket, socket.inboundData
    {
      Reading(socket.Inbound(), recordSize, socket, tRx, decode)
    }

    /** The socket's buffer is none of the gateway's own. */
    ghost predicate Apart(socket: TCPSocket)
      reads fifo
    {
      {socket.inboundData as object}
      !! {mapClientToTxNSeq as object, mapClientToRxNSeq, mapClientToSocket, fifo.pendingRequests, fifo.rxRequests.queue}
    }

    /** The record at byte i of a socket's buffer. */
    method HandleRecordAt(socket: TCPSocket, tRx: int, i: nat)
      requires Valid() && socket.Valid() && Apart(socket) && i + recordSize <= socket.nextRcvValidIndex
      requires var a := ReadingOf(socket, tRx).At(i);
               Table().Knows(a.Client()) && (Accepts(Table(), a) ==> fifo.nPendingRequests < fifo.pendingRequests.Length)
      modifies mapClientToSocket, mapClientToRxNSeq, fifo, fifo.pendingRequests
      ensures Valid() && socket.Valid() && ReadingOf(socket, tRx) == old(ReadingOf(socket, tRx))
      ensures State() == NextBooks(old(State()), old(ReadingOf(socket, tRx)).At(i))
    {
      SliceOfPrefix(socket.inboundData, socket.nextRcvValidIndex, i, i + recordSize);
      HandleRecord(socket, tRx, decode(socket.inboundData[i..i + recordSize]));
    }

    /** One round of the loop over a buffer. */
    method HandleNextRecord(socket: TCPSocket, tRx: int, i: nat, ghost start: Books) returns (next: nat)
      requires Valid() && socket.Valid() && Apart(socket) && i + recordSize <= socket.nextRcvValidIndex
      requires HandledUpTo(ReadingOf(socket, tRx), start, i, State())
      requires |BooksAfter(start, ReadingOf(socket, tRx).From(0)).pending| <= fifo.pendingRequests.Length
      modifies mapClientToSocket, mapClientToRxNSeq, fifo, fifo.pendingRequests
      ensures Valid() && socket.Valid() && ReadingOf(socket, tRx) == old(ReadingOf(socket, tRx))
      ensures next == i + recordSize
      ensures HandledUpTo(ReadingOf(socket, tRx), start, next, State())
    {
      next := i + recordSize;
      HandleNext(ReadingOf(socket, tRx), start, i, next, State());
      HandleRecordAt(socket, tRx, i);
    }

    /** Handles the complete records in a socket's buffer and says how many bytes they take. */
    method HandleRecords(socket: TCPSocket, tRx: int) returns (i: nat)
      requires Valid() && socket.Valid() && Apart(socket)
      requires var arrivals := ReadingOf(socket, tRx).From(0);
               && AllKnown(Table(), arrivals)
               && |BooksAfter(State(), arrivals).pending| <= fifo.pendingRequests.Length
      modifies mapClientToSocket, mapClientToRxNSeq, fifo, fifo.pendingRequests
      ensures Valid() && socket.Valid() && socket.Inbound() == old(socket.Inbound())
      ensures i <= socket.nextRcvValidIndex && (i > 0 ==> socket.nextRcvValidIndex - i < i)
      ensures socket.Inbound()[i..] == Leftover(socket.Inbound(), recordSize)
      ensures State() == BooksAfter(old(State()), old(ReadingOf(socket, tRx).From(0)))
    {
      ghost var r, start := ReadingOf(socket, tRx), State();
      i := 0;
      HandleFirst(r, start);
      while i + recordSize <= socket.nextRcvValidIndex
        invariant Valid() && ReadingOf(socket, tRx) == r
        invariant HandledUpTo(ReadingOf(socket, tRx), start, i, State())
      {
        i := HandleNextRecord(socket, tRx, i, start);
      }
      HandledAll(r, start, i, State());
    }

    /** Takes the complete records out of a socket's buffer; the copy that closes the gap never
        overlaps, because less than a record is left and at least one was taken. */
    method RxCallback(socket: TCPSocket, tRx: int)
      requires Valid() && socket.Valid() && Apart(socket)
      requires var arrivals := ReadingOf(socket, tRx).From(0);
               && AllKnown(Table(), arrivals)
               && |BooksAfter(State(), arrivals).pending| <= fifo.pendingRequests.Length
      modifies mapClientToSocket, mapClientToRxNSeq, fifo, fifo.pendingRequests
      modifies socket`nextRcvValidIndex, socket.inboundData
      ensures Valid() && socket.Valid()
      ensures socket.Inbound() == Leftover(old(socket.Inbound()), recordSize)
      ensures State() == BooksAfter(old(State()), old(ReadingOf(socket, tRx).From(0)))
    {
      if socket.nextRcvValidIndex >= recordSize {
        var i := HandleRecords(socket, tRx);
        socket.Consume(i);
      } else {
        NothingToRead(ReadingOf(socket, tRx), State());
      }
    }

    /** Everything has been received: the requests of this round go to the engine. */
    method RxDoneCallback()
      requires Valid()
      modifies fifo, fifo.pendingRequests, fifo.rxRequests, fifo.rxRequests.queue
      ensures Valid() && fifo.Pending() == []
      ensures var sorted := fifo.pendingRequests[..old(fifo.nPendingRequests)];
              && SortOf(sorted, old(fifo.Pending()))
              && fifo.rxRequests.Contents() ==
                 Delivered(old(fifo.rxRequests.Contents()), sorted, |sorted|, old(fifo.Room()))
    {
      fifo.SequenceAndPublish();
    }

    // ----- a round of receives

    ghost predicate SocketsApart(sockets: set<TCPSocket>)
      reads fifo, sockets`nextRcvValidIndex, sockets`nextSendValidIndex
    {
      && (forall s: TCPSocket :: s in sockets ==> s.Valid() && Apart(s))
      && (forall s: TCPSocket, u: TCPSocket :: s in sockets && u in sockets && s != u ==> s.inboundData != u.inboundData)
    }

    /** The sockets buffer what a history of receives left in them. */
    ghost predicate Buffering(sockets: set<TCPSocket>, history: seq<Segment>)
      requires recordSize > 0 && SocketsApart(sockets)
      reads fifo, sockets`nextRcvValidIndex, sockets`nextSendValidIndex, set s: TCPSocket | s in sockets :: s.inboundData
    {
      forall s: TCPSocket :: s in sockets ==> s.Inbound() == BufferOf(history, s, recordSize)
    }

    /** One receive: the bytes come in and the callback takes the complete records out. */
    method ReceiveAndDispatch(segment: Segment)
      requires Valid() && segment.socket.Valid() && Apart(segment.socket)
      requires segment.socket.nextRcvValidIndex + |segment.bytes| <= segment.socket.inboundData.Length
      requires var arrivals := ReadFrom(Records(segment.socket.Inbound() + segment.bytes, recordSize), segment.socket, segment.tRx, decode);
               && AllKnown(Table(), arrivals)
               && |BooksAfter(State(), arrivals).pending| <= fifo.pendingRequests.Length
      modifies mapClientToSocket, mapClientToRxNSeq, fifo, fifo.pendingRequests
      modifies segment.socket`nextRcvValidIndex, segment.socket.inboundData
      ensures Valid() && segment.socket.Valid() && Apart(segment.socket)
      ensures segment.socket.Inbound() == Leftover(old(segment.socket.Inbound()) + segment.bytes, recordSize)
      ensures State() == BooksAfter(old(State()),
                ReadFrom(Records(old(segment.socket.Inbound()) + segment.bytes, recordSize), segment.socket, segment.tRx, decode))
    {
      ghost var stream := segment.socket.Inbound() + segment.bytes;
      segment.socket.Receive(segment.bytes);
      assert stream[0..] == stream;
      RxCallback(segment.socket, segment.tRx);
    }

    /** A round so far: after a history of receives and these more, the sockets and the state are as
        the receives make them. */
    ghost predicate Received(sockets: set<TCPSocket>, history: seq<Segment>, start: Books, segments: seq<Segment>)
      reads fifo, fifo.rxRequests, fifo.rxRequests.queue, fifo.pendingRequests, mapClientToSocket, mapClientToRxNSeq
      reads sockets`nextRcvValidIndex, sockets`nextSendValidIndex, set s: TCPSocket | s in sockets :: s.inboundData
    {
      && Valid() && SocketsApart(sockets) && Buffering(sockets, history + segments)
      && AllKnown(start.table, NewArrivals(history, segments, recordSize, decode))
      && State() == BooksAfter(start, NewArrivals(history, segments, recordSize, decode))
    }

    /** The round can be taken in: its sockets are known and have room for the bytes as they come, its
        records name known clients, and the sequencer has room for what is accepted. */
    ghost predicate Receivable(sockets: set<TCPSocket>, history: seq<Segment>, start: Books, segments: seq<Segment>)
      requires recordSize > 0
      reads fifo
    {
      && (forall i :: 0 <= i < |segments| ==>
            && segments[i].socket in sockets
            && |BufferOf(history + segments[..i], segments[i].socket, recordSize)| + |segments[i].bytes|
               <= segments[i].socket.inboundData.Length)
      && AllKnown(start.table, NewArrivals(history, segments, recordSize, decode))
      && |BooksAfter(start, NewArrivals(history, segments, recordSize, decode)).pending| <= fifo.pendingRequests.Length
    }

    /** One receive on one of the sockets; the others' buffers stay as they are. */
    method ReceiveOn(ghost sockets: set<TCPSocket>, ghost history: seq<Segment>, segment: Segment)
      requires Valid() && SocketsApart(sockets) && Buffering(sockets, history) && segment.socket in sockets
      requires |BufferOf(history, segment.socket, recordSize)| + |segment.bytes| <= segment.socket.inboundData.Length
      requires AllKnown(Table(), Completed(history, segment, recordSize, decode))
      requires |BooksAfter(State(), Completed(history, segment, recordSize, decode)).pending| <= fifo.pendingRequests.Length
      modifies mapClientToSocket, mapClientToRxNSeq, fifo, fifo.pendingRequests
      modifies sockets`nextRcvValidIndex, set s: TCPSocket | s in sockets :: s.inboundData
      ensures Valid() && SocketsApart(sockets) && Buffering(sockets, history + [segment])
      ensures State() == BooksAfter(old(State()), Completed(history, segment, recordSize, decode))
    {
      assert (history + [segment])[..|history|] == history;
      ReceiveAndDispatch(segment);
    }

    method ReceiveNext(ghost sockets: set<TCPSocket>, ghost history: seq<Segment>, ghost start: Books,
                       segments: seq<Segment>, i: nat)
      requires i < |segments| && Received(sockets, history, start, segments[..i])
      requires Receivable(sockets, history, start, segments)
      modifies mapClientToSocket, mapClientToRxNSeq, fifo, fifo.pendingRequests
      modifies sockets`nextRcvValidIndex, set s: TCPSocket | s in sockets :: s.inboundData
      ensures Received(sockets, history, start, segments[..i + 1])
      ensures Receivable(sockets, history, start, segments)
    {
      OneMoreReceive(start, history, segments, i, recordSize, decode);
      OneMore(history, segments, i);
      ReceiveOn(sockets, history + segments[..i], segments[i]);
    }

    /** All the receives of a round. */
    method ReceiveAll(ghost sockets: set<TCPSocket>, ghost history: seq<Segment>, segments: seq<Segment>)
      requires Valid() && Received(sockets, history, State(), []) && Receivable(sockets, history, State(), segments)
      modifies mapClientToSocket, mapClientToRxNSeq, fifo, fifo.pendingRequests
      modifies sockets`nextRcvValidIndex, set s: TCPSocket | s in sockets :: s.inboundData
      ensures Received(sockets, history, old(State()), segments)
    {
      ghost var start := State();
      var i := 0;
      assert segments[..0] == [];
      while i < |segments|
        invariant 0 <= i <= |segments|
        invariant Received(sockets, history, start, segments[..i])
        invariant Receivable(sockets, history, start, segments)
      {
        ReceiveNext(sockets, history, start, segments, i);
        i := i + 1;
      }
      assert segments[..i] == segments;
    }

    /** Publishing leaves the sockets' buffers and the sessions as they are. */
    method PublishRound(ghost sockets: set<TCPSocket>, ghost history: seq<Segment>)
      requires Valid() && SocketsApart(sockets) && Buffering(sockets, history)
      modifies fifo, fifo.pendingRequests, fifo.rxRequests, fifo.rxRequests.queue
      ensures Valid() && SocketsApart(sockets) && Buffering(sockets, history)
      ensures Table() == old(Table()) && fifo.Pending() == []
      ensures var sorted := fifo.pendingRequests[..|old(fifo.Pending())|];
              && SortOf(sorted, old(fifo.Pending()))
              && fifo.rxRequests.Contents() ==
                 Delivered(old(fifo.rxRequests.Contents()), sorted, |sorted|, old(fifo.Room()))
    {
      RxDoneCallback();
    }

    /** A whole round: everything received is sorted and handed to the engine. */
    method ReceiveRound(ghost sockets: set<TCPSocket>, ghost history: seq<Segment>, segments: seq<Segment>)
      requires Valid() && Received(sockets, history, State(), []) && Receivable(sockets, history, State(), segments)
      modifies mapClientToSocket, mapClientToRxNSeq, fifo, fifo.pendingRequests, fifo.rxRequests, fifo.rxRequests.queue
      modifies sockets`nextRcvValidIndex, set s: TCPSocket | s in sockets :: s.inboundData
      ensures Valid() && SocketsApart(sockets) && Buffering(sockets, history + segments)
      ensures var out := BooksAfter(old(State()), NewArrivals(history, segments, recordSize, decode));
              && Table() == out.table && fifo.Pending() == []
              && |out.pending| <= fifo.pendingRequests.Length
              && var sorted := fifo.pendingRequests[..|out.pending|];
              && SortOf(sorted, out.pending)
              && fifo.rxRequests.Contents() ==
                 Delivered(old(fifo.rxRequests.Contents()), sorted, |sorted|, old(fifo.Room()))
    {
      ReceiveAll(sockets, history, segments);
      PublishRound(sockets, history + segments);
    }

    // ----- responses

    /** The sockets some client is bound to. */
    ghost function Peers(): set<TCPSocket>
      reads mapClientToSocket
    {
      set s: TCPSocket | s in mapClientToSocket[..]
    }

    ghost predicate PeersApart()
      reads mapClientToSocket, Peers()`nextRcvValidIndex, Peers()`nextSendValidIndex
    {
      && (forall s: TCPSocket :: s in Peers() ==>
            && s.Valid()
            && {s.outboundData as object} !! {mapClientToTxNSeq as object, mapClientToSocket, rxResponses.queue})
      && (forall s: TCPSocket, u: TCPSocket :: s in Peers() && u in Peers() && s != u ==> s.outboundData != u.outboundData)
    }

    /** The bytes queued on each of them. */
    ghost function Outbounds(): map<TCPSocket, Bytes>
      requires PeersApart()
      reads mapClientToSocket, Peers()`nextRcvValidIndex, Peers()`nextSendValidIndex
      reads set s: TCPSocket | s in Peers() :: s.outboundData
    {
      map s: TCPSocket | s in Peers() :: s.Outbound()
    }

    /** What a response's client is owed next, and where. */
    ghost function DeliveryOf(response: Response): Delivery
      requires response.clientId < mapClientToSocket.Length == mapClientToTxNSeq.Length
      requires mapClientToSocket[response.clientId] != null
      reads mapClientToSocket, mapClientToTxNSeq
    {
      Delivery(mapClientToSocket[response.clientId], mapClientToTxNSeq[response.clientId], response)
    }

    /** The two sends that make up a message. */
    method SendMessage(socket: TCPSocket, number: Bytes, response: Bytes, ghost d: Delivery)
      requires PeersApart() && socket in Peers() && d.socket == socket && layout.Message(d) == number + response
      requires |socket.Outbound()| + |layout.Message(d)| <= socket.outboundData.Length
      modifies socket`nextSendValidIndex, socket.outboundData
      ensures PeersApart() && Outbounds() == Appended(old(Outbounds()), [d], layout)
      ensures socket.Outbound() == old(socket.Outbound()) + number + response
    {
      assert [d][..0] == [];
      socket.Send(number);
      socket.Send(response);
      assert forall s: TCPSocket :: s in Peers() ==> s.Outbound() == old(s.Outbound()) + WireTo([d], s, layout);
    }

    /** Sends one response on its client's socket, behind its number, and counts it. */
    method SendResponse(response: Response, socket: TCPSocket)
      requires Separate() && PeersApart()
      requires response.clientId < mapClientToSocket.Length && mapClientToSocket[response.clientId] == socket
      requires |socket.Outbound()| + |layout.Message(DeliveryOf(response))| <= socket.outboundData.Length
      modifies mapClientToTxNSeq, socket`nextSendValidIndex, socket.outboundData
      ensures PeersApart()
      ensures socket.Outbound() ==
              old(socket.Outbound()) + layout.number(old(mapClientToTxNSeq[response.clientId])) + layout.response(response)
      ensures Outbounds() == Appended(old(Outbounds()), [old(DeliveryOf(response))], layout)
      ensures mapClientToTxNSeq[..] ==
              old(mapClientToTxNSeq[..])[response.clientId := old(mapClientToTxNSeq[response.clientId]) + 1]
    {
      var nSeq := mapClientToTxNSeq[response.clientId];
      assert socket in mapClientToSocket[..];
      SendMessage(socket, layout.number(nSeq), layout.response(response), DeliveryOf(response));
      mapClientToTxNSeq[response.clientId] := nSeq + 1;
    }

    /** What is about to be sent, and to where. */
    ghost function Sending(): Outgoing
      requires rxResponses.Valid() && PeersApart()
      reads mapClientToSocket, mapClientToTxNSeq, rxResponses, rxResponses.queue
      reads Peers()`nextRcvValidIndex, Peers()`nextSendValidIndex, set s: TCPSocket | s in Peers() :: s.outboundData
    {
      Outgoing(mapClientToSocket[..], mapClientToTxNSeq[..], rxResponses.Contents(), Outbounds())
    }

    /** The loop over the responses may go on: every response has a socket to go to, and no socket
        is sent more than it has room for, since the copies are unchecked. */
    ghost predicate Sendable()
      reads fifo, mapClientToSocket, mapClientToTxNSeq, rxResponses, rxResponses.queue
      reads Peers()`nextRcvValidIndex, Peers()`nextSendValidIndex, set s: TCPSocket | s in Peers() :: s.outboundData
    {
      && Separate() && rxResponses.Valid() && PeersApart() && Sending().Ready()
      && forall s: TCPSocket :: s in Peers() ==> |Sending().AllSent(layout).outbound[s]| <= s.outboundData.Length
    }

    /** Takes the oldest response off the queue; nothing queued for sending changes. */
    method Advance()
      requires rxResponses.Valid() && PeersApart() && rxResponses.Contents() != []
      modifies rxResponses
      ensures rxResponses.Valid() && PeersApart() && Outbounds() == old(Outbounds())
      ensures rxResponses.Contents() == old(rxResponses.Contents())[1..]
    {
      rxResponses.UpdateReadIndex();
    }

    /** The two sends, the step of the queue and the count for the oldest response. */
    method SendFirst(response: Response, socket: TCPSocket)
      requires Separate() && rxResponses.Valid() && PeersApart() && Sending().Ready()
      requires Sending().responses != [] && response == Sending().responses[0]
      requires socket == Sending().First().socket
      requires |socket.Outbound()| + |layout.Message(DeliveryOf(response))| <= socket.outboundData.Length
      modifies mapClientToTxNSeq, rxResponses, socket`nextSendValidIndex, socket.outboundData
      ensures Separate() && rxResponses.Valid() && PeersApart()
      ensures Sending() == old(Sending().FirstSent(layout))
    {
      SendResponse(response, socket);
      Advance();
    }

    method SendNext(response: Response)
      requires Sendable() && rxResponses.Contents() != [] && response == rxResponses.Contents()[0]
      modifies mapClientToTxNSeq, rxResponses, Peers()`nextSendValidIndex
      modifies set s: TCPSocket | s in Peers() :: s.outboundData
      ensures Sendable() && Sending().AllSent(layout) == old(Sending().AllSent(layout))
      ensures rxResponses.Contents() == old(rxResponses.Contents())[1..]
    {
      FirstThenRest(Sending(), layout);
      FirstFits(Sending(), layout);
      var socket: TCPSocket := mapClientToSocket[response.clientId];
      SendFirst(response, socket);
    }

    /** Sends all the responses that are due: each client's, in queue order and numbered on, to its
        socket. */
    method SendResponses()
      requires Sendable()
      modifies mapClientToTxNSeq, rxResponses, Peers()`nextSendValidIndex
      modifies set s: TCPSocket | s in Peers() :: s.outboundData
      ensures Sendable() && Sending() == old(Sending().AllSent(layout))
    {
      var res := rxResponses.GetNextToRead();
      while res.Some?
        invariant Sendable() && Sending().AllSent(layout) == old(Sending().AllSent(layout))
        invariant res == rxResponses.GetNextToRead()
        decreases |rxResponses.Contents()|
      {
        SendNext(res.value);
        res := rxResponses.GetNextToRead();
      }
      NoneToSend(Sending(), layout);
    }
  }
}
