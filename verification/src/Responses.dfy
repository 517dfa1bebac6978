/** The responses the gateway sends out: to each client numbered in queue order, on its socket. */
module Responses {
  import opened Exchange
  import opened Framing
  import opened Sockets

  datatype Delivery = Delivery(socket: TCPSocket, nSeq: nat, response: Response)

  /** How a number and a response are laid out in bytes. */
  datatype Layout = Layout(number: nat -> Bytes, response: Response -> Bytes)
  {
    function Message(d: Delivery): Bytes { number(d.nSeq) + response(d.response) }
  }

  /** Every response is to a client that is bound to a socket. */
  predicate Deliverable(socketOf: seq<TCPSocket?>, nextSeq: seq<nat>, responses: seq<Response>) {
    && |socketOf| == |nextSeq|
    && forall i :: 0 <= i < |responses| ==>
         responses[i].clientId < |socketOf| && socketOf[responses[i].clientId] != null
  }

  function NumbersAfter(socketOf: seq<TCPSocket?>, nextSeq: seq<nat>, responses: seq<Response>): (next: seq<nat>)
    requires Deliverable(socketOf, nextSeq, responses)
    ensures |next| == |nextSeq|
  {
    if responses == [] then nextSeq
    else
      var before := NumbersAfter(socketOf, nextSeq, responses[..|responses| - 1]);
      var c := responses[|responses| - 1].clientId;
      before[c := before[c] + 1]
  }

  function Deliveries(socketOf: seq<TCPSocket?>, nextSeq: seq<nat>, responses: seq<Response>): seq<Delivery>
    requires Deliverable(socketOf, nextSeq, responses)
  {
    if responses == [] then []
    else
      var before := responses[..|responses| - 1];
      var last := responses[|responses| - 1];
      Deliveries(socketOf, nextSeq, before) +
      [Delivery(socketOf[last.clientId], NumbersAfter(socketOf, nextSeq, before)[last.clientId], last)]
  }

  /** The bytes that deliveries put on one socket. */
  function WireTo(deliveries: seq<Delivery>, socket: TCPSocket, layout: Layout): Bytes {
    if deliveries == [] then []
    else
      var before := WireTo(deliveries[..|deliveries| - 1], socket, layout);
      var last := deliveries[|deliveries| - 1];
      if last.socket == socket then before + layout.Message(last) else before
  }

  /** What the sockets have queued once deliveries are added. */
  function Appended(outbound: map<TCPSocket, Bytes>, deliveries: seq<Delivery>, layout: Layout): map<TCPSocket, Bytes> {
    map s: TCPSocket | s in outbound :: outbound[s] + WireTo(deliveries, s, layout)
  }

  // ----- one client's responses

  function ToClient(responses: seq<Response>, clientId: nat): seq<Response> {
    if responses == [] then []
    else
      var before := ToClient(responses[..|responses| - 1], clientId);
      var last := responses[|responses| - 1];
      if last.clientId == clientId then before + [last] else before
  }

  function DeliveredTo(deliveries: seq<Delivery>, clientId: nat): seq<Delivery> {
    if deliveries == [] then []
    else
      var before := DeliveredTo(deliveries[..|deliveries| - 1], clientId);
      var last := deliveries[|deliveries| - 1];
      if last.response.clientId == clientId then before + [last] else before
  }

  /** A client gets all its responses in queue order, on its socket, numbered on from the number it
      was due, and that number goes up by as many. */
  lemma {:induction false} NumberedInOrder(socketOf: seq<TCPSocket?>, nextSeq: seq<nat>, responses: seq<Response>, clientId: nat)
    requires Deliverable(socketOf, nextSeq, responses) && clientId < |nextSeq|
    ensures var mine := ToClient(responses, clientId);
            var sent := DeliveredTo(Deliveries(socketOf, nextSeq, responses), clientId);
            && |sent| == |mine|
            && NumbersAfter(socketOf, nextSeq, responses)[clientId] == nextSeq[clientId] + |mine|
            && forall i :: 0 <= i < |mine| ==>
                 sent[i].response == mine[i] && sent[i].nSeq == nextSeq[clientId] + i && sent[i].socket == socketOf[clientId]
  {
    if responses != [] {
      var before := responses[..|responses| - 1];
      NumberedInOrder(socketOf, nextSeq, before, clientId);
      var all := Deliveries(socketOf, nextSeq, responses);
      assert all[..|all| - 1] == Deliveries(socketOf, nextSeq, before);
    }
  }

  /** Numbering goes on where it was: sending in two goes is sending at once. */
  lemma {:induction false} SendingResumes(socketOf: seq<TCPSocket?>, nextSeq: seq<nat>, first: seq<Response>, more: seq<Response>)
    requires Deliverable(socketOf, nextSeq, first) && Deliverable(socketOf, nextSeq, more)
    ensures Deliverable(socketOf, nextSeq, first + more)
    ensures var mid := NumbersAfter(socketOf, nextSeq, first);
            && NumbersAfter(socketOf, nextSeq, first + more) == NumbersAfter(socketOf, mid, more)
            && Deliveries(socketOf, nextSeq, first + more) == Deliveries(socketOf, nextSeq, first) + Deliveries(socketOf, mid, more)
  {
    if more == [] {
      assert first + more == first;
    } else {
      var all := first + more;
      SendingResumes(socketOf, nextSeq, first, more[..|more| - 1]);
      assert all[..|all| - 1] == first + more[..|more| - 1];
    }
  }

  lemma {:induction false} WireToConcat(s: seq<Delivery>, t: seq<Delivery>, socket: TCPSocket, layout: Layout)
    ensures WireTo(s + t, socket, layout) == WireTo(s, socket, layout) + WireTo(t, socket, layout)
  {
    if t == [] {
      assert s + t == s;
    } else {
      var u := s + t;
      assert u[..|u| - 1] == s + t[..|t| - 1] && u[|u| - 1] == t[|t| - 1];
      WireToConcat(s, t[..|t| - 1], socket, layout);
    }
  }

  // ----- the loop that sends

  /** Sockets, numbers, responses due, and bytes queued per socket. */
  datatype Outgoing = Outgoing(socketOf: seq<TCPSocket?>, nextSeq: seq<nat>, responses: seq<Response>,
                               outbound: map<TCPSocket, Bytes>)
  {
    predicate Ready() { Deliverable(socketOf, nextSeq, responses) }

    /** The message for the oldest response. */
    function First(): Delivery
      requires Ready() && responses != []
    {
      Delivery(socketOf[responses[0].clientId], nextSeq[responses[0].clientId], responses[0])
    }

    /** When the oldest response has been sent. */
    function FirstSent(layout: Layout): Outgoing
      requires Ready() && responses != []
    {
      var c := responses[0].clientId;
      Outgoing(socketOf, nextSeq[c := nextSeq[c] + 1], responses[1..],
               Appended(outbound, [First()], layout))
    }

    /** When all responses have been sent. */
    function AllSent(layout: Layout): Outgoing
      requires Ready()
    {
      Outgoing(socketOf, NumbersAfter(socketOf, nextSeq, responses), [],
               Appended(outbound, Deliveries(socketOf, nextSeq, responses), layout))
    }
  }

  lemma FrontParts(o: Outgoing)
    requires o.Ready() && o.responses != []
    ensures Deliverable(o.socketOf, o.nextSeq, [o.responses[0]])
    ensures Deliveries(o.socketOf, o.nextSeq, [o.responses[0]]) == [o.First()]
    ensures var c := o.responses[0].clientId;
            NumbersAfter(o.socketOf, o.nextSeq, [o.responses[0]]) == o.nextSeq[c := o.nextSeq[c] + 1]
  {
  }

  /** All deliveries are the oldest and then those of what is left. */
  lemma DeliveriesInTwo(o: Outgoing, layout: Layout)
    requires o.Ready() && o.responses != []
    ensures var next := o.FirstSent(layout);
            && next.Ready()
            && Deliveries(o.socketOf, o.nextSeq, o.responses) ==
               [o.First()] + Deliveries(next.socketOf, next.nextSeq, next.responses)
            && NumbersAfter(o.socketOf, o.nextSeq, o.responses) ==
               NumbersAfter(next.socketOf, next.nextSeq, next.responses)
  {
    FrontParts(o);
    assert o.responses == [o.responses[0]] + o.responses[1..];
    SendingResumes(o.socketOf, o.nextSeq, [o.responses[0]], o.responses[1..]);
  }

  lemma WireInTwo(o: Outgoing, layout: Layout, s: TCPSocket)
    requires o.Ready() && o.responses != [] && s in o.outbound
    requires o.FirstSent(layout).Ready()
    ensures o.FirstSent(layout).AllSent(layout).outbound[s] == o.AllSent(layout).outbound[s]
    ensures |o.FirstSent(layout).outbound[s]| <= |o.AllSent(layout).outbound[s]|
  {
    DeliveriesInTwo(o, layout);
    var next := o.FirstSent(layout);
    var later := Deliveries(next.socketOf, next.nextSeq, next.responses);
    WireToConcat([o.First()], later, s, layout);
    var before, first, rest := o.outbound[s], WireTo([o.First()], s, layout), WireTo(later, s, layout);
    assert (before + first) + rest == before + (first + rest);
  }

  /** Sending the oldest and then the others comes to the same as sending all. */
  lemma FirstThenRest(o: Outgoing, layout: Layout)
    requires o.Ready() && o.responses != []
    ensures o.FirstSent(layout).Ready()
    ensures o.FirstSent(layout).AllSent(layout) == o.AllSent(layout)
  {
    DeliveriesInTwo(o, layout);
    var all, rest := o.AllSent(layout).outbound, o.FirstSent(layout).AllSent(layout).outbound;
    forall s: TCPSocket | s in o.outbound
      ensures rest[s] == all[s]
    {
      WireInTwo(o, layout, s);
    }
    assert rest == all;
  }

  /** There is room for the oldest message if there is room for all. */
  lemma FirstFits(o: Outgoing, layout: Layout)
    requires o.Ready() && o.responses != [] && o.First().socket in o.outbound
    ensures |o.outbound[o.First().socket]| + |layout.Message(o.First())| <= |o.AllSent(layout).outbound[o.First().socket]|
  {
    DeliveriesInTwo(o, layout);
    WireInTwo(o, layout, o.First().socket);
    assert [o.First()][..0] == [];
  }

  lemma NoneToSend(o: Outgoing, layout: Layout)
    requires o.Ready() && o.responses == []
    ensures o.AllSent(layout) == o
  {
    forall s: TCPSocket | s in o.outbound
      ensures o.AllSent(layout).outbound[s] == o.outbound[s]
    {
      assert o.outbound[s] + [] == o.outbound[s];
    }
    assert o.AllSent(layout).outbound == o.outbound;
  }
}
