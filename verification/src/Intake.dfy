/** Receiving from many sockets at once: the bytes of each come in pieces, in any interleaving, and
    complete records are taken out as soon as they are there. */
module Intake {
  import opened Framing
  import opened Sockets
  import opened Sessions

  /** How the bytes of one record are read; every block of the right size means some record. */
  type Decoder = Bytes -> ClientRecord

  /** One receive: some bytes on a socket, at a time. */
  datatype Segment = Segment(socket: TCPSocket, tRx: int, bytes: Bytes)

  function ReadFrom(records: seq<Bytes>, socket: TCPSocket, tRx: int, decode: Decoder): (a: seq<Arrival>)
    ensures |a| == |records|
    ensures forall i :: 0 <= i < |a| ==> a[i] == Arrival(socket, tRx, decode(records[i]))
  {
    seq(|records|, i requires 0 <= i < |records| => Arrival(socket, tRx, decode(records[i])))
  }

  /** What a socket still buffers after a history of receives. */
  function BufferOf(segments: seq<Segment>, socket: TCPSocket, size: nat): Bytes
    requires size > 0
  {
    if segments == [] then []
    else
      var before := BufferOf(segments[..|segments| - 1], socket, size);
      var last := segments[|segments| - 1];
      if last.socket == socket then Leftover(before + last.bytes, size) else before
  }

  /** The records that one more receive completes. */
  function Completed(history: seq<Segment>, next: Segment, size: nat, decode: Decoder): seq<Arrival>
    requires size > 0
  {
    ReadFrom(Records(BufferOf(history, next.socket, size) + next.bytes, size), next.socket, next.tRx, decode)
  }

  /** The records taken out over a history of receives, as they came. */
  function Arrivals(segments: seq<Segment>, size: nat, decode: Decoder): seq<Arrival>
    requires size > 0
  {
    if segments == [] then []
    else
      var before := segments[..|segments| - 1];
      var last := segments[|segments| - 1];
      Arrivals(before, size, decode) + Completed(before, last, size, decode)
  }

  /** The bytes of one socket, joined. */
  function StreamOf(segments: seq<Segment>, socket: TCPSocket): Bytes {
    if segments == [] then []
    else
      var before := StreamOf(segments[..|segments| - 1], socket);
      var last := segments[|segments| - 1];
      if last.socket == socket then before + last.bytes else before
  }

  function FromSocket(arrivals: seq<Arrival>, socket: TCPSocket): seq<ClientRecord> {
    if arrivals == [] then []
    else
      var before := FromSocket(arrivals[..|arrivals| - 1], socket);
      var last := arrivals[|arrivals| - 1];
      if last.socket == socket then before + [last.record] else before
  }

  function Decoded(records: seq<Bytes>, decode: Decoder): (r: seq<ClientRecord>)
    ensures |r| == |records| && forall i :: 0 <= i < |r| ==> r[i] == decode(records[i])
  {
    seq(|records|, i requires 0 <= i < |records| => decode(records[i]))
  }

  lemma {:induction false} FromSocketConcat(s: seq<Arrival>, t: seq<Arrival>, socket: TCPSocket)
    ensures FromSocket(s + t, socket) == FromSocket(s, socket) + FromSocket(t, socket)
  {
    if t == [] {
      assert s + t == s;
    } else {
      var u := s + t;
      assert u[..|u| - 1] == s + t[..|t| - 1] && u[|u| - 1] == t[|t| - 1];
      FromSocketConcat(s, t[..|t| - 1], socket);
    }
  }

  lemma {:induction false} FromSocketRead(records: seq<Bytes>, from: TCPSocket, tRx: int, decode: Decoder, socket: TCPSocket)
    ensures FromSocket(ReadFrom(records, from, tRx, decode), socket) ==
            if from == socket then Decoded(records, decode) else []
  {
    if records != [] {
      var n := |records| - 1;
      FromSocketRead(records[..n], from, tRx, decode, socket);
      assert ReadFrom(records, from, tRx, decode)[..n] == ReadFrom(records[..n], from, tRx, decode);
      assert Decoded(records, decode) == Decoded(records[..n], decode) + [decode(records[n])];
    }
  }

  /** The records that a receive adds to those of one socket. */
  lemma CompletedOf(history: seq<Segment>, next: Segment, socket: TCPSocket, size: nat, decode: Decoder)
    requires size > 0
    ensures FromSocket(Arrivals(history, size, decode) + Completed(history, next, size, decode), socket) ==
            FromSocket(Arrivals(history, size, decode), socket) +
            (if next.socket == socket then Decoded(Records(BufferOf(history, socket, size) + next.bytes, size), decode) else [])
  {
    FromSocketConcat(Arrivals(history, size, decode), Completed(history, next, size, decode), socket);
    FromSocketRead(Records(BufferOf(history, next.socket, size) + next.bytes, size), next.socket, next.tRx, decode, socket);
  }

  lemma DecodedConcat(first: seq<Bytes>, more: seq<Bytes>, decode: Decoder)
    ensures Decoded(first + more, decode) == Decoded(first, decode) + Decoded(more, decode)
  {
  }

  /** Reassembly: however a socket's bytes were cut up and whatever came in between, its records are
      those of the joined stream, and what it still buffers is less than one record. */
  lemma {:induction false} Reassembly(segments: seq<Segment>, socket: TCPSocket, size: nat, decode: Decoder)
    requires size > 0
    ensures FromSocket(Arrivals(segments, size, decode), socket) == Decoded(Records(StreamOf(segments, socket), size), decode)
    ensures BufferOf(segments, socket, size) == Leftover(StreamOf(segments, socket), size)
  {
    if segments != [] {
      var before := segments[..|segments| - 1];
      var last := segments[|segments| - 1];
      Reassembly(before, socket, size, decode);
      CompletedOf(before, last, socket, size, decode);
      var stream := StreamOf(before, socket);
      SplitResumes(stream, last.bytes, size);
      DecodedConcat(Records(stream, size), Records(Leftover(stream, size) + last.bytes, size), decode);
    }
  }

  /** The records taken out by further receives, after a history of them. */
  function NewArrivals(history: seq<Segment>, segments: seq<Segment>, size: nat, decode: Decoder): seq<Arrival>
    requires size > 0
  {
    if segments == [] then []
    else
      var before := segments[..|segments| - 1];
      NewArrivals(history, before, size, decode) + Completed(history + before, segments[|segments| - 1], size, decode)
  }

  lemma {:induction false} ArrivalsGrow(history: seq<Segment>, segments: seq<Segment>, size: nat, decode: Decoder)
    requires size > 0
    ensures Arrivals(history + segments, size, decode) ==
            Arrivals(history, size, decode) + NewArrivals(history, segments, size, decode)
  {
    if segments == [] {
      assert history + segments == history;
    } else {
      var all := history + segments;
      assert all[..|all| - 1] == history + segments[..|segments| - 1];
      var before := segments[..|segments| - 1];
      ArrivalsGrow(history, before, size, decode);
      JoinAssociates(Arrivals(history, size, decode), NewArrivals(history, before, size, decode),
                     Completed(history + before, segments[|segments| - 1], size, decode));
    }
  }

  /** The new arrivals of the first i receives come first. */
  lemma {:induction false} EarlierArrivals(history: seq<Segment>, segments: seq<Segment>, i: nat, size: nat, decode: Decoder)
    returns (later: seq<Arrival>)
    requires size > 0 && i <= |segments|
    ensures NewArrivals(history, segments, size, decode) == NewArrivals(history, segments[..i], size, decode) + later
  {
    if i == |segments| {
      assert segments[..i] == segments;
      later := [];
    } else {
      var n := |segments| - 1;
      assert segments[..n][..i] == segments[..i];
      var some := EarlierArrivals(history, segments[..n], i, size, decode);
      var last := Completed(history + segments[..n], segments[n], size, decode);
      later := some + last;
      JoinAssociates(NewArrivals(history, segments[..i], size, decode), some, last);
    }
  }

  // ----- rounds of receives

  function AllSegments(rounds: seq<seq<Segment>>): seq<Segment> {
    if rounds == [] then [] else AllSegments(rounds[..|rounds| - 1]) + rounds[|rounds| - 1]
  }

  /** The arrivals of each round. */
  function ArrivalRounds(rounds: seq<seq<Segment>>, size: nat, decode: Decoder): (a: seq<seq<Arrival>>)
    requires size > 0
    ensures |a| == |rounds|
  {
    if rounds == [] then []
    else
      var before := rounds[..|rounds| - 1];
      ArrivalRounds(before, size, decode) + [NewArrivals(AllSegments(before), rounds[|rounds| - 1], size, decode)]
  }

  lemma {:induction false} RoundsJoin(rounds: seq<seq<Segment>>, size: nat, decode: Decoder)
    requires size > 0
    ensures Flat(ArrivalRounds(rounds, size, decode)) == Arrivals(AllSegments(rounds), size, decode)
  {
    if rounds != [] {
      var before := rounds[..|rounds| - 1];
      RoundsJoin(before, size, decode);
      ArrivalsGrow(AllSegments(before), rounds[|rounds| - 1], size, decode);
      var all := ArrivalRounds(rounds, size, decode);
      assert all[..|all| - 1] == ArrivalRounds(before, size, decode);
    }
  }
}
