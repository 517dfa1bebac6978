/** Cutting a byte stream into records of one fixed size, however the bytes come in. */
module Framing {

  type Bytes = seq<bv8>

  /** The complete records at the front of a stream. */
  function Records(stream: Bytes, size: nat): (records: seq<Bytes>)
    requires size > 0
    ensures forall i :: 0 <= i < |records| ==> |records[i]| == size
  {
    if |stream| < size then [] else [stream[..size]] + Records(stream[size..], size)
  }

  /** What follows the last complete record. */
  function Leftover(stream: Bytes, size: nat): (rest: Bytes)
    requires size > 0
    ensures |rest| < size
    ensures |stream| < size ==> rest == stream
  {
    if |stream| < size then stream else Leftover(stream[size..], size)
  }

  function Joined(pieces: seq<Bytes>): Bytes {
    if pieces == [] then [] else pieces[0] + Joined(pieces[1..])
  }

  /** Nothing is lost or reordered: records and leftover make up the stream. */
  lemma {:induction false} SplitIsWhole(stream: Bytes, size: nat)
    requires size > 0
    ensures Joined(Records(stream, size)) + Leftover(stream, size) == stream
  {
    if |stream| >= size {
      SplitIsWhole(stream[size..], size);
      assert stream == stream[..size] + stream[size..];
      assert Records(stream, size)[1..] == Records(stream[size..], size);
    }
  }

  /** There is no other way to cut a stream into records and a leftover shorter than one. */
  lemma {:induction false} SplitIsUnique(records: seq<Bytes>, rest: Bytes, size: nat)
    requires size > 0 && |rest| < size
    requires forall i :: 0 <= i < |records| ==> |records[i]| == size
    ensures Records(Joined(records) + rest, size) == records
    ensures Leftover(Joined(records) + rest, size) == rest
  {
    var stream := Joined(records) + rest;
    if records == [] {
      assert stream == rest;
    } else {
      SplitIsUnique(records[1..], rest, size);
      assert stream == records[0] + (Joined(records[1..]) + rest);
      assert stream[..size] == records[0] && stream[size..] == Joined(records[1..]) + rest;
    }
  }

  /** More bytes only ever extend the records; cutting may resume from the leftover. */
  lemma {:induction false} SplitResumes(stream: Bytes, more: Bytes, size: nat)
    requires size > 0
    ensures Records(stream + more, size) == Records(stream, size) + Records(Leftover(stream, size) + more, size)
    ensures Leftover(stream + more, size) == Leftover(Leftover(stream, size) + more, size)
  {
    if |stream| >= size {
      SplitResumes(stream[size..], more, size);
      assert (stream + more)[..size] == stream[..size];
      assert (stream + more)[size..] == stream[size..] + more;
    }
  }

  /** The state of the loop over a buffer after i bytes: the records before i are out. */
  lemma SplitFrom(stream: Bytes, i: nat, size: nat)
    requires size > 0 && i + size <= |stream|
    ensures Records(stream[i..], size) == [stream[i..i + size]] + Records(stream[i + size..], size)
    ensures Leftover(stream[i..], size) == Leftover(stream[i + size..], size)
  {
    assert stream[i..][..size] == stream[i..i + size] && stream[i..][size..] == stream[i + size..];
  }
}
