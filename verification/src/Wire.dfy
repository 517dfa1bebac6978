/** What a client can read off its socket: if numbers and responses have fixed widths, the bytes that
    were sent cut up into exactly the responses due on that socket, each behind its number. */
module Wire {
  import opened Exchange
  import opened Framing
  import opened Sockets
  import opened Responses

  /** Every number takes so many bytes, and every response. */
  ghost predicate FixedWidths(layout: Layout, number: nat, response: nat) {
    && (forall n: nat :: |layout.number(n)| == number)
    && (forall r: Response :: |layout.response(r)| == response)
  }

  /** The responses to clients that are bound to this socket. */
  function DueOn(socketOf: seq<TCPSocket?>, responses: seq<Response>, socket: TCPSocket): seq<Response>
    requires forall i :: 0 <= i < |responses| ==> responses[i].clientId < |socketOf|
  {
    if responses == [] then []
    else
      var before, last := DueOn(socketOf, responses[..|responses| - 1], socket), responses[|responses| - 1];
      if socketOf[last.clientId] == socket then before + [last] else before
  }

  /** The block for the i-th of these responses: its number goes on from where its client was, by one
      for each earlier response to the client, and comes first. */
  predicate BlockIs(block: Bytes, layout: Layout, width: nat, nextSeq: seq<nat>, due: seq<Response>, i: nat)
    requires i < |due| && due[i].clientId < |nextSeq|
  {
    && |block| >= width
    && block[..width] == layout.number(nextSeq[due[i].clientId] + |ToClient(due[..i], due[i].clientId)|)
    && block[width..] == layout.response(due[i])
  }

  /** These blocks are those responses, in order. */
  predicate BlocksAre(blocks: seq<Bytes>, layout: Layout, width: nat, nextSeq: seq<nat>, due: seq<Response>) {
    && |blocks| == |due|
    && forall i :: 0 <= i < |due| ==> due[i].clientId < |nextSeq| && BlockIs(blocks[i], layout, width, nextSeq, due, i)
  }

  // ----- numbers on a socket

  /** A client's responses all go to its socket. */
  lemma {:induction false} DueToClient(socketOf: seq<TCPSocket?>, responses: seq<Response>, socket: TCPSocket, clientId: nat)
    requires forall i :: 0 <= i < |responses| ==> responses[i].clientId < |socketOf|
    requires clientId < |socketOf| && socketOf[clientId] == socket
    ensures ToClient(DueOn(socketOf, responses, socket), clientId) == ToClient(responses, clientId)
  {
    if responses != [] {
      DueToClient(socketOf, responses[..|responses| - 1], socket, clientId);
      var before, last := DueOn(socketOf, responses[..|responses| - 1], socket), responses[|responses| - 1];
      assert (before + [last])[..|before|] == before;
    }
  }

  // ----- cutting

  lemma RecordsOneMore(stream: Bytes, block: Bytes, size: nat)
    requires size > 0 && |block| == size && Leftover(stream, size) == []
    ensures Records(stream + block, size) == Records(stream, size) + [block]
    ensures Leftover(stream + block, size) == []
  {
    SplitResumes(stream, block, size);
    assert [] + block == block && block[..size] == block && block[size..] == [];
    assert Records([], size) == [];
  }

  lemma BlockStays(block: Bytes, layout: Layout, width: nat, nextSeq: seq<nat>, due: seq<Response>, last: Response, i: nat)
    requires i < |due| && due[i].clientId < |nextSeq| && BlockIs(block, layout, width, nextSeq, due, i)
    ensures BlockIs(block, layout, width, nextSeq, due + [last], i)
  {
    assert (due + [last])[..i] == due[..i];
  }

  lemma LastBlock(block: Bytes, layout: Layout, width: nat, nextSeq: seq<nat>, due: seq<Response>, last: Response)
    requires last.clientId < |nextSeq| && |block| >= width
    requires block[..width] == layout.number(nextSeq[last.clientId] + |ToClient(due, last.clientId)|)
    requires block[width..] == layout.response(last)
    ensures BlockIs(block, layout, width, nextSeq, due + [last], |due|)
  {
    assert (due + [last])[..|due|] == due;
  }

  lemma BlocksOneMore(blocks: seq<Bytes>, block: Bytes, layout: Layout, width: nat, nextSeq: seq<nat>, due: seq<Response>, last: Response)
    requires BlocksAre(blocks, layout, width, nextSeq, due) && last.clientId < |nextSeq| && |block| >= width
    requires block[..width] == layout.number(nextSeq[last.clientId] + |ToClient(due, last.clientId)|)
    requires block[width..] == layout.response(last)
    ensures BlocksAre(blocks + [block], layout, width, nextSeq, due + [last])
  {
    forall i | 0 <= i < |due| + 1
      ensures (due + [last])[i].clientId < |nextSeq| && BlockIs((blocks + [block])[i], layout, width, nextSeq, due + [last], i)
    {
      if i < |due| {
        BlockStays(blocks[i], layout, width, nextSeq, due, last, i);
      } else {
        LastBlock(block, layout, width, nextSeq, due, last);
      }
    }
  }

  lemma MessageParts(layout: Layout, d: Delivery, number: nat, response: nat)
    requires FixedWidths(layout, number, response)
    ensures |layout.Message(d)| == number + response
    ensures layout.Message(d)[..number] == layout.number(d.nSeq) && layout.Message(d)[number..] == layout.response(d.response)
  {
  }

  lemma WireOneMore(socketOf: seq<TCPSocket?>, nextSeq: seq<nat>, responses: seq<Response>, socket: TCPSocket, layout: Layout)
    returns (d: Delivery)
    requires Deliverable(socketOf, nextSeq, responses) && responses != []
    ensures var before, last := responses[..|responses| - 1], responses[|responses| - 1];
            && d == Delivery(socketOf[last.clientId], NumbersAfter(socketOf, nextSeq, before)[last.clientId], last)
            && WireTo(Deliveries(socketOf, nextSeq, responses), socket, layout) ==
               WireTo(Deliveries(socketOf, nextSeq, before), socket, layout) +
               (if socketOf[last.clientId] == socket then layout.Message(d) else [])
  {
    var before, last := responses[..|responses| - 1], responses[|responses| - 1];
    var all := Deliveries(socketOf, nextSeq, responses);
    d := Delivery(socketOf[last.clientId], NumbersAfter(socketOf, nextSeq, before)[last.clientId], last);
    assert all[..|all| - 1] == Deliveries(socketOf, nextSeq, before) && all[|all| - 1] == d;
  }

  /** One more response on the socket: the block behind the others is its message, with its number. */
  lemma CutOneMore(socketOf: seq<TCPSocket?>, nextSeq: seq<nat>, before: seq<Response>, d: Delivery, wire: Bytes,
                   socket: TCPSocket, layout: Layout, number: nat, response: nat)
    requires Deliverable(socketOf, nextSeq, before) && FixedWidths(layout, number, response) && number + response > 0
    requires d.response.clientId < |socketOf| && socketOf[d.response.clientId] == socket
    requires d.nSeq == NumbersAfter(socketOf, nextSeq, before)[d.response.clientId]
    requires Leftover(wire, number + response) == []
    requires BlocksAre(Records(wire, number + response), layout, number, nextSeq, DueOn(socketOf, before, socket))
    ensures BlocksAre(Records(wire + layout.Message(d), number + response), layout, number, nextSeq,
                      DueOn(socketOf, before, socket) + [d.response])
    ensures Leftover(wire + layout.Message(d), number + response) == []
  {
    MessageParts(layout, d, number, response);
    NumberedInOrder(socketOf, nextSeq, before, d.response.clientId);
    DueToClient(socketOf, before, socket, d.response.clientId);
    RecordsOneMore(wire, layout.Message(d), number + response);
    BlocksOneMore(Records(wire, number + response), layout.Message(d), layout, number, nextSeq,
                  DueOn(socketOf, before, socket), d.response);
  }

  /** The bytes put on a socket cut up into the responses due on it, in queue order, numbered on. */
  lemma {:induction false} WireIsCut(socketOf: seq<TCPSocket?>, nextSeq: seq<nat>, responses: seq<Response>, socket: TCPSocket,
                                     layout: Layout, number: nat, response: nat)
    requires Deliverable(socketOf, nextSeq, responses) && FixedWidths(layout, number, response) && number + response > 0
    ensures var wire := WireTo(Deliveries(socketOf, nextSeq, responses), socket, layout);
            && BlocksAre(Records(wire, number + response), layout, number, nextSeq, DueOn(socketOf, responses, socket))
            && Leftover(wire, number + response) == []
  {
    if responses != [] {
      var before, last := responses[..|responses| - 1], responses[|responses| - 1];
      WireIsCut(socketOf, nextSeq, before, socket, layout, number, response);
      var wire := WireTo(Deliveries(socketOf, nextSeq, before), socket, layout);
      var d := WireOneMore(socketOf, nextSeq, responses, socket, layout);
      if socketOf[last.clientId] == socket {
        CutOneMore(socketOf, nextSeq, before, d, wire, socket, layout, number, response);
      } else {
        assert wire + [] == wire;
      }
    }
  }

  /** After sending all, each socket has behind what was queued on it exactly that. */
  lemma SentIsCut(o: Outgoing, layout: Layout, socket: TCPSocket, number: nat, response: nat)
    requires o.Ready() && socket in o.outbound && FixedWidths(layout, number, response) && number + response > 0
    ensures o.outbound[socket] <= o.AllSent(layout).outbound[socket]
    ensures var sent := o.AllSent(layout).outbound[socket][|o.outbound[socket]|..];
            && BlocksAre(Records(sent, number + response), layout, number, o.nextSeq, DueOn(o.socketOf, o.responses, socket))
            && Leftover(sent, number + response) == []
  {
    WireIsCut(o.socketOf, o.nextSeq, o.responses, socket, layout, number, response);
    var wire := WireTo(Deliveries(o.socketOf, o.nextSeq, o.responses), socket, layout);
    assert o.AllSent(layout).outbound[socket] == o.outbound[socket] + wire;
    assert (o.outbound[socket] + wire)[|o.outbound[socket]|..] == wire;
  }
}
