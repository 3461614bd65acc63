/** Client::writeMqttPacket: which packets go into the write buffer, and how far the buffer grows for them. */
module ClientWrite {
  import opened Bits
  import opened CirBufs

  datatype PacketDropReason = Success | BiggerThanPacketLimit | BufferFull | ClientError

  /** The largest MQTT packet: a fixed header and a remaining length of four bytes. */
  const MAX_PACKET: int := 268_435_460

  /** Twice the packet, or the configured maximum if that is more. */
  function GrowBufMaxTo(maxBufSize: nat, packetSize: nat): (r: nat)
    ensures r >= maxBufSize && r >= 2 * packetSize && (r == maxBufSize || r == 2 * packetSize)
  {
    if maxBufSize < 2 * packetSize then 2 * packetSize else maxBufSize
  }

  /**
   When growth stops short of the capacity limit, an empty buffer always has room for one packet
   afterwards, whatever its size and the configured maximum are.
   */
  lemma EmptyBufferFits(size: nat, packetSize: nat, maxBufSize: nat)
    requires size > 0 && packetSize > 0
    ensures var g := GrownSize(size, 0, packetSize, GrowBufMaxTo(maxBufSize, packetSize));
      && g - 1 >= packetSize
      && (g == size || g < 2 * GrowBufMaxTo(maxBufSize, packetSize))
  {
    GrowStops(size, 0, packetSize, GrowBufMaxTo(maxBufSize, packetSize));
  }

  class WriteBuf {
    const buf: CirBuf
    const maxOutgoingPacketSize: nat
    const maxBufSize: nat

    ghost predicate Valid()
      reads this, buf, buf.buf
    {
      buf.Valid()
    }

    ghost function Target(packet: seq<byte>): nat
      reads this, buf, buf.buf
      requires Valid()
    {
      GrownSize(buf.size, |buf.Contents()|, |packet|, GrowBufMaxTo(maxBufSize, |packet|))
    }

    constructor (exponent: nat, maxOutgoingPacketSize: nat, maxBufSize: nat)
      requires exponent <= 30
      ensures Valid() && fresh(buf) && buf.Contents() == [] && buf.size == Pow2(exponent)
      ensures this.maxOutgoingPacketSize == maxOutgoingPacketSize && this.maxBufSize == maxBufSize
    {
      buf := new CirBuf(exponent);
      this.maxOutgoingPacketSize := maxOutgoingPacketSize;
      this.maxBufSize := maxBufSize;
    }

    /**
     A packet over the peer's limit is discarded. Otherwise the buffer grows towards the maximum, and
     a QoS 0 publish that does not fit then is dropped; everything else is appended whole, unless
     growing, towards the maximum or beyond it, exceeds what a buffer can be.
     */
    method WriteMqttPacket(packet: seq<byte>, isQos0Publish: bool) returns (reason: PacketDropReason)
      requires Valid() && 0 < |packet| <= MAX_PACKET
      requires Target(packet) != CAPACITY_LIMIT
      requires GrownSize(if Target(packet) < CAPACITY_LIMIT then Target(packet) else buf.size, |buf.Contents()|, |packet|, UINT32_VALUES - 1)
                 != CAPACITY_LIMIT
      modifies buf, buf.buf
      ensures Valid()
      ensures buf.Contents() == old(buf.Contents()) + if reason == Success then packet else []
      ensures reason == BiggerThanPacketLimit <==> |packet| > maxOutgoingPacketSize
      ensures reason == BiggerThanPacketLimit ==> buf.size == old(buf.size)
      ensures reason == BufferFull <==>
        && |packet| <= maxOutgoingPacketSize && isQos0Publish
        && old(Target(packet)) < CAPACITY_LIMIT && old(Target(packet)) - 1 - |old(buf.Contents())| < |packet|
      ensures reason == BufferFull ==> old(buf.Contents()) != []
      ensures reason == ClientError <==>
        && |packet| <= maxOutgoingPacketSize && reason != BufferFull
        && (old(Target(packet)) > CAPACITY_LIMIT
            || GrownSize(old(Target(packet)), |old(buf.Contents())|, |packet|, UINT32_VALUES - 1) > CAPACITY_LIMIT)
      ensures (old(buf.Contents()) == [] && |packet| <= maxOutgoingPacketSize
               && GrowBufMaxTo(maxBufSize, |packet|) <= CAPACITY_LIMIT / 2) ==> reason == Success
    {
      if |packet| > maxOutgoingPacketSize {
        return BiggerThanPacketLimit;
      }
      EmptyBufferFits(buf.size, |packet|, maxBufSize);
      PowFits(buf.exponent);
      var grown := buf.EnsureFreeSpace(|packet|, GrowBufMaxTo(maxBufSize, |packet|));
      if !grown {
        return ClientError;
      }
      if isQos0Publish && |packet| > buf.FreeSpace() {
        return BufferFull;
      }
      var ok;
      ghost var rounds;
      ok, rounds := buf.WriteRange(packet);
      reason := if ok then Success else ClientError;
    }
  }
}
