/** Which of the records that arrive the gateway accepts: each client is bound to the socket it first
    used and must number its requests without a gap. */
module Sessions {
  import opened Exchange
  import opened Sequencing
  import opened Sockets

  datatype ClientRecord = ClientRecord(nSeq: nat, request: Request)

  /** A record read from a socket at a time. */
  datatype Arrival = Arrival(socket: TCPSocket, tRx: int, record: ClientRecord)
  {
    function Client(): nat { record.request.clientId }
  }

  /** Per client: the socket it is bound to, and the number its next request must have. */
  datatype Sessions = Sessions(socketOf: seq<TCPSocket?>, nextSeq: seq<nat>)
  {
    predicate Knows(clientId: nat) { clientId < |socketOf| && clientId < |nextSeq| }
  }

  predicate AllKnown(t: Sessions, arrivals: seq<Arrival>) {
    forall i :: 0 <= i < |arrivals| ==> t.Knows(arrivals[i].Client())
  }

  /** A client's first record binds it to the socket, whatever becomes of the record. */
  function Bound(t: Sessions, a: Arrival): Sessions
    requires t.Knows(a.Client())
  {
    if t.socketOf[a.Client()] == null then t.(socketOf := t.socketOf[a.Client() := a.socket]) else t
  }

  /** The record is from its client's socket and has the next number. */
  predicate Accepts(t: Sessions, a: Arrival)
    requires t.Knows(a.Client())
  {
    Bound(t, a).socketOf[a.Client()] == a.socket && t.nextSeq[a.Client()] == a.record.nSeq
  }

  function Next(t: Sessions, a: Arrival): (t': Sessions)
    requires t.Knows(a.Client())
    ensures |t'.socketOf| == |t.socketOf| && |t'.nextSeq| == |t.nextSeq|
  {
    var b := Bound(t, a);
    if Accepts(t, a) then b.(nextSeq := b.nextSeq[a.Client() := b.nextSeq[a.Client()] + 1]) else b
  }

  /** The sessions after a history of arrivals. */
  function After(t: Sessions, arrivals: seq<Arrival>): (t': Sessions)
    requires AllKnown(t, arrivals)
    ensures |t'.socketOf| == |t.socketOf| && |t'.nextSeq| == |t.nextSeq|
  {
    if arrivals == [] then t
    else Next(After(t, arrivals[..|arrivals| - 1]), arrivals[|arrivals| - 1])
  }

  /** The arrivals that are accepted, in order. */
  function AcceptedOf(t: Sessions, arrivals: seq<Arrival>): seq<Arrival>
    requires AllKnown(t, arrivals)
  {
    if arrivals == [] then []
    else
      var before := arrivals[..|arrivals| - 1];
      var last := arrivals[|arrivals| - 1];
      if Accepts(After(t, before), last) then AcceptedOf(t, before) + [last] else AcceptedOf(t, before)
  }

  /** The sessions the gateway starts with. */
  function NoSessions(clients: nat): (t: Sessions)
    ensures |t.socketOf| == |t.nextSeq| == clients
    ensures forall c :: 0 <= c < clients ==> t.socketOf[c] == null && t.nextSeq[c] == 1
  {
    Sessions(seq(clients, _ => null), seq(clients, _ => 1))
  }

  // ----- one client's arrivals

  function FromClient(arrivals: seq<Arrival>, clientId: nat): seq<Arrival> {
    if arrivals == [] then []
    else
      var before := FromClient(arrivals[..|arrivals| - 1], clientId);
      var last := arrivals[|arrivals| - 1];
      if last.Client() == clientId then before + [last] else before
  }

  /** These arrivals carry the numbers from first on and are all from this socket. */
  predicate InSession(arrivals: seq<Arrival>, socket: TCPSocket?, first: nat) {
    forall i :: 0 <= i < |arrivals| ==> arrivals[i].record.nSeq == first + i && arrivals[i].socket == socket
  }

  lemma AcceptedOneMore(t: Sessions, arrivals: seq<Arrival>, clientId: nat)
    requires arrivals != [] && AllKnown(t, arrivals)
    ensures var before := arrivals[..|arrivals| - 1];
            var last := arrivals[|arrivals| - 1];
            FromClient(AcceptedOf(t, arrivals), clientId) ==
            if last.Client() == clientId && Accepts(After(t, before), last)
            then FromClient(AcceptedOf(t, before), clientId) + [last]
            else FromClient(AcceptedOf(t, before), clientId)
  {
  }

  /** What a client's session state should be after all its arrivals, of which some were accepted:
      it is bound to the socket it used first; what was accepted is numbered 1, 2, 3, ... without a
      gap and came from that socket alone; the next number is due. */
  ghost predicate SessionIs(t: Sessions, clientId: nat, all: seq<Arrival>, accepted: seq<Arrival>) {
    && t.Knows(clientId)
    && t.socketOf[clientId] == (if all == [] then null else all[0].socket)
    && t.nextSeq[clientId] == 1 + |accepted|
    && InSession(accepted, t.socketOf[clientId], 1)
    && (all == [] ==> accepted == [])
  }

  lemma SessionStep(t: Sessions, a: Arrival, clientId: nat, all: seq<Arrival>, accepted: seq<Arrival>)
    requires t.Knows(a.Client()) && SessionIs(t, clientId, all, accepted)
    ensures SessionIs(Next(t, a), clientId,
                      if a.Client() == clientId then all + [a] else all,
                      if a.Client() == clientId && Accepts(t, a) then accepted + [a] else accepted)
  {
  }

  /** From the client's first socket, and one more than what was accepted. */
  predicate IsNext(a: Arrival, all: seq<Arrival>, accepted: seq<Arrival>) {
    (all == [] || all[0].socket == a.socket) && a.record.nSeq == 1 + |accepted|
  }

  /** Over any interleaving of sockets and clients, every client's session is as it should be. */
  lemma {:induction false} SessionSafety(clients: nat, arrivals: seq<Arrival>, clientId: nat)
    requires AllKnown(NoSessions(clients), arrivals) && clientId < clients
    ensures SessionIs(After(NoSessions(clients), arrivals), clientId, FromClient(arrivals, clientId),
                      FromClient(AcceptedOf(NoSessions(clients), arrivals), clientId))
  {
    if arrivals != [] {
      var t := NoSessions(clients);
      var before := arrivals[..|arrivals| - 1];
      var last := arrivals[|arrivals| - 1];
      SessionSafety(clients, before, clientId);
      SessionStep(After(t, before), last, clientId,
                  FromClient(before, clientId), FromClient(AcceptedOf(t, before), clientId));
      AcceptedOneMore(t, arrivals, clientId);
    }
  }

  /** A record is accepted exactly when it is on the socket its client used first and its number is
      one more than how many were accepted from the client before. */
  lemma AcceptedExactly(clients: nat, arrivals: seq<Arrival>, a: Arrival)
    requires AllKnown(NoSessions(clients), arrivals) && a.Client() < clients
    ensures Accepts(After(NoSessions(clients), arrivals), a) <==>
            IsNext(a, FromClient(arrivals, a.Client()), FromClient(AcceptedOf(NoSessions(clients), arrivals), a.Client()))
  {
    SessionSafety(clients, arrivals, a.Client());
    AcceptsIsNext(After(NoSessions(clients), arrivals), a, FromClient(arrivals, a.Client()),
                  FromClient(AcceptedOf(NoSessions(clients), arrivals), a.Client()));
  }

  lemma AcceptsIsNext(t: Sessions, a: Arrival, all: seq<Arrival>, accepted: seq<Arrival>)
    requires SessionIs(t, a.Client(), all, accepted)
    ensures Accepts(t, a) <==> IsNext(a, all, accepted)
  {
  }

  /** A client that keeps to one socket and numbers its requests from 1 has them all accepted,
      whatever other clients do. */
  lemma {:induction false} WellBehavedIsAccepted(clients: nat, arrivals: seq<Arrival>, clientId: nat, socket: TCPSocket)
    requires AllKnown(NoSessions(clients), arrivals) && clientId < clients
    requires InSession(FromClient(arrivals, clientId), socket, 1)
    ensures FromClient(AcceptedOf(NoSessions(clients), arrivals), clientId) == FromClient(arrivals, clientId)
  {
    if arrivals != [] {
      var t := NoSessions(clients);
      var before := arrivals[..|arrivals| - 1];
      var all, earlier := FromClient(arrivals, clientId), FromClient(before, clientId);
      assert forall i :: 0 <= i < |earlier| ==> earlier[i] == all[i];
      WellBehavedIsAccepted(clients, before, clientId, socket);
      AcceptedOneMore(t, arrivals, clientId);
      SessionSafety(clients, before, clientId);
      var last := arrivals[|arrivals| - 1];
      if last.Client() == clientId {
        assert all[|earlier|] == last;
        AcceptsIsNext(After(t, before), last, earlier, earlier);
      }
    }
  }

  // ----- going on from a history

  lemma JoinAssociates<T>(s: seq<T>, t: seq<T>, u: seq<T>)
    ensures (s + t) + u == s + (t + u)
  {
  }

  lemma {:induction false} HistoryConcat(t: Sessions, past: seq<Arrival>, more: seq<Arrival>)
    requires AllKnown(t, past) && AllKnown(t, more)
    ensures AllKnown(t, past + more)
    ensures After(t, past + more) == After(After(t, past), more)
    ensures AcceptedOf(t, past + more) == AcceptedOf(t, past) + AcceptedOf(After(t, past), more)
  {
    if more == [] {
      assert past + more == past;
    } else {
      var before, a := more[..|more| - 1], more[|more| - 1];
      HistoryConcat(t, past, before);
      HistoryStep(t, past, before, a);
      assert more == before + [a];
    }
  }

  lemma HistoryStep(t: Sessions, past: seq<Arrival>, before: seq<Arrival>, a: Arrival)
    requires AllKnown(t, past) && AllKnown(t, before) && AllKnown(t, past + before) && t.Knows(a.Client())
    requires After(t, past + before) == After(After(t, past), before)
    requires AcceptedOf(t, past + before) == AcceptedOf(t, past) + AcceptedOf(After(t, past), before)
    ensures AllKnown(t, before + [a]) && AllKnown(t, past + (before + [a]))
    ensures After(t, past + (before + [a])) == After(After(t, past), before + [a])
    ensures AcceptedOf(t, past + (before + [a])) == AcceptedOf(t, past) + AcceptedOf(After(t, past), before + [a])
  {
    HistoryOneMore(t, past + before, a);
    HistoryOneMore(After(t, past), before, a);
    JoinAssociates(past, before, [a]);
    JoinAssociates(AcceptedOf(t, past), AcceptedOf(After(t, past), before), [a]);
  }

  lemma HistoryOneMore(t: Sessions, past: seq<Arrival>, a: Arrival)
    requires AllKnown(t, past) && t.Knows(a.Client())
    ensures AllKnown(t, past + [a])
    ensures After(t, past + [a]) == Next(After(t, past), a)
    ensures AcceptedOf(t, past + [a]) ==
            if Accepts(After(t, past), a) then AcceptedOf(t, past) + [a] else AcceptedOf(t, past)
  {
  }

  lemma {:induction false} FromClientConcat(s: seq<Arrival>, u: seq<Arrival>, clientId: nat)
    ensures FromClient(s + u, clientId) == FromClient(s, clientId) + FromClient(u, clientId)
  {
    if u == [] {
      assert s + u == s;
    } else {
      var all := s + u;
      assert all[..|all| - 1] == s + u[..|u| - 1];
      FromClientConcat(s, u[..|u| - 1], clientId);
    }
  }

  // ----- what the sequencer gets

  /** Accepted requests with their reception times. */
  function Stamped(arrivals: seq<Arrival>): (p: seq<PendingRequest>)
    ensures |p| == |arrivals|
    ensures forall i :: 0 <= i < |p| ==> p[i] == PendingRequest(arrivals[i].tRx, arrivals[i].record.request)
  {
    seq(|arrivals|, i requires 0 <= i < |arrivals| => PendingRequest(arrivals[i].tRx, arrivals[i].record.request))
  }

  lemma StampedConcat(a: seq<Arrival>, b: seq<Arrival>)
    ensures Stamped(a + b) == Stamped(a) + Stamped(b)
  {
  }

  lemma {:induction false} StampedOfClient(arrivals: seq<Arrival>, clientId: nat)
    ensures OfClient(Stamped(arrivals), clientId) == Stamped(FromClient(arrivals, clientId))
  {
    if arrivals != [] {
      var before := arrivals[..|arrivals| - 1];
      StampedOfClient(before, clientId);
      assert Stamped(arrivals)[..|arrivals| - 1] == Stamped(before);
    }
  }

  // ----- rounds: everything received between two publications

  function Flat(rounds: seq<seq<Arrival>>): seq<Arrival> {
    if rounds == [] then [] else Flat(rounds[..|rounds| - 1]) + rounds[|rounds| - 1]
  }

  /** What the last round leaves pending. */
  function PendingOf(t: Sessions, rounds: seq<seq<Arrival>>): seq<PendingRequest>
    requires rounds != [] && AllKnown(t, Flat(rounds))
  {
    var past := Flat(rounds[..|rounds| - 1]);
    assert AllKnown(t, past) by { KnownParts(t, past, rounds[|rounds| - 1]); }
    assert AllKnown(t, rounds[|rounds| - 1]) by { KnownParts(t, past, rounds[|rounds| - 1]); }
    Stamped(AcceptedOf(After(t, past), rounds[|rounds| - 1]))
  }

  lemma KnownParts(t: Sessions, past: seq<Arrival>, more: seq<Arrival>)
    requires AllKnown(t, past + more)
    ensures AllKnown(t, past) && AllKnown(t, more)
  {
    forall i | 0 <= i < |past| ensures t.Knows(past[i].Client()) { assert past[i] == (past + more)[i]; }
    forall i | 0 <= i < |more| ensures t.Knows(more[i].Client()) { assert more[i] == (past + more)[|past| + i]; }
  }

  /** The sort cannot disturb this client: its times strictly increase, or they never go back and
      the sort is stable. */
  ghost predicate Undisturbed(out: seq<PendingRequest>, pending: seq<PendingRequest>, clientId: nat) {
    || (SortOf(out, pending) && Decided(OfClient(pending, clientId)))
    || (StableSortOf(out, pending) && InTime(OfClient(pending, clientId)))
  }

  /** Each round was published as a sorted form of what it left pending, undisturbed for the client. */
  ghost predicate PublishedInOrder(t: Sessions, rounds: seq<seq<Arrival>>, outs: seq<seq<PendingRequest>>, clientId: nat)
    requires AllKnown(t, Flat(rounds))
  {
    |outs| == |rounds| &&
    (rounds == [] ||
     (var n := |rounds| - 1;
      assert AllKnown(t, Flat(rounds[..n])) by { KnownParts(t, Flat(rounds[..n]), rounds[n]); }
      && PublishedInOrder(t, rounds[..n], outs[..n], clientId)
      && Undisturbed(outs[n], PendingOf(t, rounds), clientId)))
  }

  /** Each round was published as some sorted form of what it left pending. */
  ghost predicate SortedRounds(t: Sessions, rounds: seq<seq<Arrival>>, outs: seq<seq<PendingRequest>>)
    requires AllKnown(t, Flat(rounds))
  {
    |outs| == |rounds| &&
    (rounds == [] ||
     (var n := |rounds| - 1;
      assert AllKnown(t, Flat(rounds[..n])) by { KnownParts(t, Flat(rounds[..n]), rounds[n]); }
      && SortedRounds(t, rounds[..n], outs[..n])
      && SortOf(outs[n], PendingOf(t, rounds))))
  }

  /** In no round do two different accepted requests of the client tie, or go back in time. */
  ghost predicate DecidedRounds(t: Sessions, rounds: seq<seq<Arrival>>, clientId: nat)
    requires AllKnown(t, Flat(rounds))
  {
    rounds == [] ||
    (var n := |rounds| - 1;
     assert AllKnown(t, Flat(rounds[..n])) by { KnownParts(t, Flat(rounds[..n]), rounds[n]); }
     && DecidedRounds(t, rounds[..n], clientId)
     && Decided(OfClient(PendingOf(t, rounds), clientId)))
  }

  /** Then no sorting method can have disturbed the client. */
  lemma {:induction false} SortedIsInOrder(t: Sessions, rounds: seq<seq<Arrival>>, outs: seq<seq<PendingRequest>>, clientId: nat)
    requires AllKnown(t, Flat(rounds)) && SortedRounds(t, rounds, outs) && DecidedRounds(t, rounds, clientId)
    ensures PublishedInOrder(t, rounds, outs, clientId)
  {
    if rounds != [] {
      var n := |rounds| - 1;
      KnownParts(t, Flat(rounds[..n]), rounds[n]);
      SortedIsInOrder(t, rounds[..n], outs[..n], clientId);
    }
  }

  function Published(outs: seq<seq<PendingRequest>>): seq<PendingRequest> {
    if outs == [] then [] else Published(outs[..|outs| - 1]) + outs[|outs| - 1]
  }

  lemma {:induction false} PublishedIsAccepted(t: Sessions, rounds: seq<seq<Arrival>>, outs: seq<seq<PendingRequest>>, clientId: nat)
    requires AllKnown(t, Flat(rounds)) && PublishedInOrder(t, rounds, outs, clientId)
    ensures OfClient(Published(outs), clientId) == Stamped(FromClient(AcceptedOf(t, Flat(rounds)), clientId))
  {
    if rounds != [] {
      var n := |rounds| - 1;
      KnownParts(t, Flat(rounds[..n]), rounds[n]);
      PublishedIsAccepted(t, rounds[..n], outs[..n], clientId);
      OfClientConcat(Published(outs[..n]), outs[n], clientId);
      RoundInOrder(outs[n], AcceptedOf(After(t, Flat(rounds[..n])), rounds[n]), clientId);
      AcceptedInTwo(t, Flat(rounds[..n]), rounds[n], clientId);
    }
  }

  lemma AcceptedInTwo(t: Sessions, past: seq<Arrival>, more: seq<Arrival>, clientId: nat)
    requires AllKnown(t, past) && AllKnown(t, more)
    ensures AllKnown(t, past + more)
    ensures Stamped(FromClient(AcceptedOf(t, past + more), clientId)) ==
            Stamped(FromClient(AcceptedOf(t, past), clientId)) + Stamped(FromClient(AcceptedOf(After(t, past), more), clientId))
  {
    HistoryConcat(t, past, more);
    FromClientConcat(AcceptedOf(t, past), AcceptedOf(After(t, past), more), clientId);
    StampedConcat(FromClient(AcceptedOf(t, past), clientId), FromClient(AcceptedOf(After(t, past), more), clientId));
  }

  lemma RoundInOrder(out: seq<PendingRequest>, accepted: seq<Arrival>, clientId: nat)
    requires Undisturbed(out, Stamped(accepted), clientId)
    ensures OfClient(out, clientId) == Stamped(FromClient(accepted, clientId))
  {
    var pending := Stamped(accepted);
    StampedOfClient(accepted, clientId);
    if SortOf(out, pending) && Decided(OfClient(pending, clientId)) {
      AnySortKeepsClientOrder(pending, clientId);
    } else {
      StableSortKeepsClientOrder(out, pending, clientId);
    }
  }

  /** From the first byte to the engine: after any number of rounds, what the engine was handed of a
      client is what was accepted of it, numbered 1, 2, 3, ... in that order, from its one socket. */
  lemma EngineSeesClientOrder(clients: nat, rounds: seq<seq<Arrival>>, outs: seq<seq<PendingRequest>>, clientId: nat)
    requires AllKnown(NoSessions(clients), Flat(rounds)) && clientId < clients
    requires PublishedInOrder(NoSessions(clients), rounds, outs, clientId)
    ensures var accepted := FromClient(AcceptedOf(NoSessions(clients), Flat(rounds)), clientId);
            && OfClient(Published(outs), clientId) == Stamped(accepted)
            && InSession(accepted, After(NoSessions(clients), Flat(rounds)).socketOf[clientId], 1)
  {
    PublishedIsAccepted(NoSessions(clients), rounds, outs, clientId);
    SessionSafety(clients, Flat(rounds), clientId);
  }
}
