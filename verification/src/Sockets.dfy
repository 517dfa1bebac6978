/** A socket's two buffers, as the gateway uses them. */
module Sockets {
  import opened Framing

  class TCPSocket {
    const inboundData: array<bv8>
    const outboundData: array<bv8>
    var nextRcvValidIndex: nat
    var nextSendValidIndex: nat

    ghost predicate Valid()
      reads `nextRcvValidIndex, `nextSendValidIndex
    {
      && inboundData != outboundData
      && nextRcvValidIndex <= inboundData.Length
      && nextSendValidIndex <= outboundData.Length
    }

    /** Received bytes that are not consumed yet. */
    ghost function Inbound(): (b: Bytes)
      requires Valid()
      reads `nextRcvValidIndex, `nextSendValidIndex, inboundData
      ensures |b| == nextRcvValidIndex
    {
      inboundData[..nextRcvValidIndex]
    }

    /** Bytes handed in for sending. */
    ghost function Outbound(): (b: Bytes)
      requires Valid()
      reads `nextRcvValidIndex, `nextSendValidIndex, outboundData
      ensures |b| == nextSendValidIndex
    {
      outboundData[..nextSendValidIndex]
    }

    constructor (bufferSize: nat)
      ensures Valid() && Inbound() == [] && Outbound() == []
      ensures fresh(inboundData) && fresh(outboundData)
      ensures inboundData.Length == outboundData.Length == bufferSize
    {
      inboundData := new bv8[bufferSize];
      outboundData := new bv8[bufferSize];
      nextRcvValidIndex, nextSendValidIndex := 0, 0;
    }

    /** What a receive does: the bytes, no more than there is room for, land behind the others. */
    method Receive(bytes: Bytes)
      requires Valid() && nextRcvValidIndex + |bytes| <= inboundData.Length
      modifies `nextRcvValidIndex, inboundData
      ensures Valid() && Inbound() == old(Inbound()) + bytes
    {
      forall k | 0 <= k < |bytes| {
        inboundData[nextRcvValidIndex + k] := bytes[k];
      }
      nextRcvValidIndex := nextRcvValidIndex + |bytes|;
    }

    /** Drops the first i bytes by copying the others to the front. The copy must not overlap:
        no more bytes may remain than are dropped. */
    method Consume(i: nat)
      requires Valid() && i <= nextRcvValidIndex
      requires nextRcvValidIndex - i <= i
      modifies `nextRcvValidIndex, inboundData
      ensures Valid() && Inbound() == old(Inbound())[i..]
    {
      forall k | 0 <= k < nextRcvValidIndex - i {
        inboundData[k] := inboundData[i + k];
      }
      nextRcvValidIndex := nextRcvValidIndex - i;
    }

    /** Queues bytes for sending; the copy is unchecked, so there must be room. */
    method Send(bytes: Bytes)
      requires Valid() && nextSendValidIndex + |bytes| <= outboundData.Length
      modifies `nextSendValidIndex, outboundData
      ensures Valid() && Outbound() == old(Outbound()) + bytes
    {
      forall k | 0 <= k < |bytes| {
        outboundData[nextSendValidIndex + k] := bytes[k];
      }
      nextSendValidIndex := nextSendValidIndex + |bytes|;
    }
  }
}
