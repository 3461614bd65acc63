/**
 Splitting the bytes from a client into MQTT packets, section 2.1.4 of MQTT 5.0. The limits and the
 client's state do not change meanwhile.
 */
module MqttSplitter {
  import opened Bits
  import opened CirBufs
  import opened ProtocolVersions
  import opened VariableByteInts

  const ABSOLUTE_MAX_PACKET_SIZE: nat := 268_435_455
  const UNAUTHENTICATED_MAX: nat := 1024 * 1024

  const PUBREL: nat := 6
  const SUBSCRIBE: nat := 8
  const UNSUBSCRIBE: nat := 10
  const PUBLISH: nat := 3
  const DISCONNECT: nat := 14

  datatype Sender = Sender(authenticated: bool, maxIncomingPacketSize: nat, protocolVersion: nat)

  datatype Error = MalformedLength | ProbablyNotMqtt | PacketTooLarge | BadClient | InvalidType | MalformedFlags

  function SizeLimit(sender: Sender): nat {
    if sender.maxIncomingPacketSize < ABSOLUTE_MAX_PACKET_SIZE then sender.maxIncomingPacketSize else ABSOLUTE_MAX_PACKET_SIZE
  }

  /** What the front of the buffer is: too little, wrong, or a whole packet of `size` bytes. */
  datatype Front = Wait | Wrong(error: Error) | Whole(size: nat)

  function Next(b: seq<byte>, sender: Sender): Front {
    if |b| < 2 then Wait
    else
      match Decode(b[1..], 0)
      case NeedMore => Wait
      case Malformed => Wrong(MalformedLength)
      case Value(remaining, length) =>
        var size := remaining + 1 + length;
        if !sender.authenticated && size >= UNAUTHENTICATED_MAX then Wrong(ProbablyNotMqtt)
        else if size > SizeLimit(sender) then Wrong(PacketTooLarge)
        else if size <= |b| then Whole(size)
        else Wait
  }

  /** What the constructor of an incoming packet complains about, if anything. */
  function Complaint(p: seq<byte>, sender: Sender): (r: seq<Error>)
    requires p != []
    ensures |r| <= 1
  {
    var packetType, flags := p[0] / 16, p[0] % 16;
    if packetType == 0 || (sender.protocolVersion < MQTT_5 && packetType > DISCONNECT) then
      [if sender.protocolVersion == MQTT_NONE then BadClient else InvalidType]
    else if sender.protocolVersion >= MQTT_311 && packetType != PUBLISH
      && flags != (if packetType in {PUBREL, SUBSCRIBE, UNSUBSCRIBE} then 2 else 0) then [MalformedFlags]
    else []
  }

  /** The first bytes that a packet of this version may have; section 2.1.3 of MQTT 5.0 lists those of the last one. */
  predicate FirstByteAllowed(first: byte, version: nat) {
    if version >= 4 then
      || first in {0x10, 0x20, 0x40, 0x50, 0x62, 0x70, 0x82, 0x90, 0xA2, 0xB0, 0xC0, 0xD0, 0xE0}
      || 0x30 <= first <= 0x3F
      || (version >= 5 && first == 0xF0)
    else 0x10 <= first <= 0xEF
  }

  lemma ComplainsByFirstByte(p: seq<byte>, sender: Sender)
    requires p != []
    ensures Complaint(p, sender) ==
      if FirstByteAllowed(p[0], sender.protocolVersion) then []
      else if p[0] < 0x10 || (p[0] >= 0xF0 && sender.protocolVersion < 5)
        then [if sender.protocolVersion == 0 then BadClient else InvalidType]
      else [MalformedFlags]
  {
    assert p[0] == 16 * (p[0] / 16) + p[0] % 16;
  }

  datatype Split = Split(packets: seq<seq<byte>>, left: seq<byte>, errors: seq<Error>)

  lemma WholeIsPositive(b: seq<byte>, sender: Sender)
    requires Next(b, sender).Whole?
    ensures 2 <= Next(b, sender).size <= |b|
  {
  }

  /** All the packets at the front of `b`, up to the first error. */
  function SplitAll(b: seq<byte>, sender: Sender): Split
    decreases |b|
  {
    match Next(b, sender)
    case Wait => Split([], b, [])
    case Wrong(error) => Split([], b, [error])
    case Whole(size) =>
      WholeIsPositive(b, sender);
      if Complaint(b[..size], sender) != [] then Split([], b[size..], Complaint(b[..size], sender))
      else Prepend(b[..size], SplitAll(b[size..], sender))
  }

  function Prepend(packet: seq<byte>, r: Split): Split {
    r.(packets := [packet] + r.packets)
  }

  function Concat(packets: seq<seq<byte>>): seq<byte> {
    if packets == [] then [] else packets[0] + Concat(packets[1..])
  }

  // ---------- conservation ----------

  /** Without an error, no byte is lost or made up. */
  lemma {:induction false} SplitConserves(b: seq<byte>, sender: Sender)
    ensures Conserves(SplitAll(b, sender), b)
    decreases |b|
  {
    match Next(b, sender)
    case Wait => assert [] + b == b;
    case Wrong(error) =>
    case Whole(size) =>
      WholeIsPositive(b, sender);
      SplitConserves(b[size..], sender);
      PrependConserves(b, size, SplitAll(b[size..], sender));
  }

  predicate Conserves(r: Split, b: seq<byte>) {
    r.errors == [] ==> Concat(r.packets) + r.left == b
  }

  lemma PrependConserves(b: seq<byte>, size: nat, r: Split)
    requires size <= |b| && Conserves(r, b[size..])
    ensures Conserves(Prepend(b[..size], r), b)
  {
  }

  // ---------- one packet ----------

  /**
   What becomes of a packet at the front, by its first byte and its size. Before authentication a packet of
   a mebibyte or more, and in any case one over the limits, is refused as soon as its length is known.
   */
  lemma OnePacket(first: byte, body: seq<byte>, more: seq<byte>, sender: Sender)
    requires |body| <= MAX_VALUE
    ensures var p := [first] + Encode(|body|) + body;
      SplitAll(p + more, sender) ==
        if !sender.authenticated && |p| >= 1_048_576 then Split([], p + more, [ProbablyNotMqtt])
        else if |p| > sender.maxIncomingPacketSize || |p| > 268_435_455 then Split([], p + more, [PacketTooLarge])
        else if FirstByteAllowed(first, sender.protocolVersion) then Prepend(p, SplitAll(more, sender))
        else if first < 0x10 || (first >= 0xF0 && sender.protocolVersion < 5)
          then Split([], more, [if sender.protocolVersion == 0 then BadClient else InvalidType])
        else Split([], more, [MalformedFlags])
  {
    var p := [first] + Encode(|body|) + body;
    RoundTrip(|body|, body + more);
    assert (p + more)[1..] == Encode(|body|) + (body + more);
    assert Encode(|body|) != [] && (p + more)[..|p|] == p && (p + more)[|p|..] == more;
    ComplainsByFirstByte(p, sender);
  }

  predicate Acceptable(p: seq<byte>, sender: Sender) {
    && |p| >= 2 && FirstByteAllowed(p[0], sender.protocolVersion)
    && |p| <= sender.maxIncomingPacketSize && |p| <= 268_435_455 && (sender.authenticated || |p| < 1_048_576)
  }

  /** Nothing else is accepted. */
  lemma {:induction false} AcceptsOnly(b: seq<byte>, sender: Sender)
    ensures forall p :: p in SplitAll(b, sender).packets ==> Acceptable(p, sender)
    decreases |b|
  {
    var front := Next(b, sender);
    if front.Whole? {
      WholeIsPositive(b, sender);
      AcceptsOnly(b[front.size..], sender);
      ComplainsByFirstByte(b[..front.size], sender);
    }
  }

  /** A packet over the limits is refused before all of it has arrived. */
  lemma RefusedEarly(first: byte, remaining: nat, start: seq<byte>, sender: Sender)
    requires remaining <= MAX_VALUE
    ensures var b := [first] + Encode(remaining) + start;
      var size := 1 + |Encode(remaining)| + remaining;
      && (!sender.authenticated && size >= 1_048_576 ==> SplitAll(b, sender) == Split([], b, [ProbablyNotMqtt]))
      && ((sender.authenticated || size < 1_048_576) && (size > sender.maxIncomingPacketSize || size > 268_435_455) ==>
            SplitAll(b, sender) == Split([], b, [PacketTooLarge]))
  {
    var b := [first] + Encode(remaining) + start;
    RoundTrip(remaining, start);
    assert b[1..] == Encode(remaining) + start && Encode(remaining) != [];
  }

  // ---------- chunking ----------

  /** What was recognised at the front stays recognised when more bytes arrive. */
  lemma NextStable(b: seq<byte>, more: seq<byte>, sender: Sender)
    requires Next(b, sender) != Wait
    ensures Next(b + more, sender) == Next(b, sender)
  {
    DecodeStable(b[1..], more, 0);
    assert (b + more)[1..] == b[1..] + more;
  }

  /** Feeding `more` after `b` was split. */
  function Continue(r: Split, more: seq<byte>, sender: Sender): Split {
    if r.errors != [] then r.(left := r.left + more)
    else
      var r' := SplitAll(r.left + more, sender);
      r'.(packets := r.packets + r'.packets)
  }

  lemma PrependContinue(packet: seq<byte>, r: Split, more: seq<byte>, sender: Sender)
    ensures Continue(Prepend(packet, r), more, sender) == Prepend(packet, Continue(r, more, sender))
  {
  }

  lemma {:induction false} SplitInTwo(b: seq<byte>, more: seq<byte>, sender: Sender)
    ensures SplitAll(b + more, sender) == Continue(SplitAll(b, sender), more, sender)
    decreases |b|
  {
    var front := Next(b, sender);
    if front == Wait {
      var r' := SplitAll(b + more, sender);
      assert [] + r'.packets == r'.packets;
    } else {
      NextStable(b, more, sender);
      if front.Whole? {
        WholeIsPositive(b, sender);
        var size := front.size;
        assert (b + more)[..size] == b[..size] && (b + more)[size..] == b[size..] + more;
        SplitInTwo(b[size..], more, sender);
        PrependContinue(b[..size], SplitAll(b[size..], sender), more, sender);
      }
    }
  }

  /** The buffer is split again after each arrival; after an error nothing more is split. */
  function Feed(chunks: seq<seq<byte>>, sender: Sender): Split
    decreases |chunks|
  {
    if chunks == [] then Split([], [], []) else Continue(Feed(chunks[..|chunks| - 1], sender), chunks[|chunks| - 1], sender)
  }

  function Joined(chunks: seq<seq<byte>>): seq<byte>
    decreases |chunks|
  {
    if chunks == [] then [] else Joined(chunks[..|chunks| - 1]) + chunks[|chunks| - 1]
  }

  /** However a stream arrives in pieces: the same packets, the same leftover and the same error. */
  lemma {:induction false} SplittingIgnoresChunking(chunks: seq<seq<byte>>, sender: Sender)
    ensures Feed(chunks, sender) == SplitAll(Joined(chunks), sender)
    decreases |chunks|
  {
    if chunks != [] {
      SplittingIgnoresChunking(chunks[..|chunks| - 1], sender);
      SplitInTwo(Joined(chunks[..|chunks| - 1]), chunks[|chunks| - 1], sender);
    }
  }

  // ---------- packets in, packets out ----------

  /** A packet as a client sends it: within the limits, and as long as its header says. */
  predicate Sendable(p: seq<byte>, sender: Sender) {
    Next(p, sender) == Whole(|p|) && Complaint(p, sender) == []
  }

  /** Concatenated packets come apart again at the same places. */
  lemma {:induction false} SplitUndoesConcat(packets: seq<seq<byte>>, sender: Sender)
    requires forall p :: p in packets ==> p != [] && Sendable(p, sender)
    ensures SplitAll(Concat(packets), sender) == Split(packets, [], [])
  {
    if packets != [] {
      var p, rest := packets[0], Concat(packets[1..]);
      assert p in packets && Next(p, sender) != Wait;
      NextStable(p, rest, sender);
      assert (p + rest)[..|p|] == p && (p + rest)[|p|..] == rest;
      assert forall q :: q in packets[1..] ==> q in packets;
      SplitUndoesConcat(packets[1..], sender);
      assert [p] + packets[1..] == packets;
    }
  }

  // ---------- the loops ----------

  /** The loop over the remaining length after `k` bytes, without a last one. */
  ghost predicate LengthSoFar(b: seq<byte>, k: nat, packet_length: nat, multiplier: nat) {
    k <= 4 && multiplier == Pow128(k) && Decode(b, 0) == Later(Decode(b, k), packet_length)
  }

  lemma LengthRound(b: seq<byte>, k: nat, packet_length: nat, multiplier: nat)
    requires LengthSoFar(b, k, packet_length, multiplier) && k < 4 && k < |b|
    ensures (b[k] % 128) * multiplier >= 0
    ensures var low := packet_length + (b[k] % 128) * multiplier;
      if b[k] < 128 then Decode(b, 0) == Value(low, k + 1) else LengthSoFar(b, k + 1, low, multiplier * 128)
  {
    DecodeRound(b, k, packet_length, multiplier);
  }

  /** The do-while loop over the remaining length. */
  method RemainingLength(buf: CirBuf) returns (r: Decoded)
    requires buf.Valid()
    ensures |buf.Contents()| >= 2 ==> r == Decode(buf.Contents()[1..], 0)
  {
    ghost var b := if |buf.Contents()| >= 2 then buf.Contents()[1..] else [];
    var used := buf.UsedBytes();
    var fixed_header_length: nat, multiplier: nat, packet_length: nat := 1, 1, 0;
    while fixed_header_length < 5
      invariant 1 <= fixed_header_length <= 5
      invariant LengthSoFar(b, fixed_header_length - 1, packet_length, multiplier)
    {
      fixed_header_length := fixed_header_length + 1;
      if fixed_header_length > used {
        return NeedMore;
      }
      var encodedByte := buf.PeakAhead(fixed_header_length - 1);
      assert encodedByte == b[fixed_header_length - 2];
      LengthRound(b, fixed_header_length - 2, packet_length, multiplier);
      packet_length := packet_length + (encodedByte % 128) * multiplier;
      multiplier := multiplier * 128;
      if encodedByte < 128 {
        return Value(packet_length, fixed_header_length - 1);
      }
    }
    r := Malformed;
  }

  /** What one round of the outer loop finds at the front of the buffer. */
  method Recognise(buf: CirBuf, sender: Sender) returns (front: Front)
    requires buf.Valid()
    ensures front == Next(buf.Contents(), sender)
  {
    if buf.UsedBytes() < 2 {
      return Wait;
    }
    var remaining := RemainingLength(buf);
    match remaining
    case Malformed => return Wrong(MalformedLength);
    case NeedMore => return Wait;
    case Value(value, length) =>
      var packet_length := value + 1 + length;
      if !sender.authenticated && packet_length >= UNAUTHENTICATED_MAX {
        return Wrong(ProbablyNotMqtt);
      }
      if packet_length > SizeLimit(sender) {
        return Wrong(PacketTooLarge);
      }
      if packet_length > buf.UsedBytes() {
        return Wait;
      }
      return Whole(packet_length);
  }

  /** The packets so far and what is still to be split. */
  ghost predicate Splitting(all: Split, packets: seq<seq<byte>>, b: seq<byte>, sender: Sender) {
    var r := SplitAll(b, sender);
    all == r.(packets := packets + r.packets)
  }

  lemma SplitStep(all: Split, packets: seq<seq<byte>>, b: seq<byte>, sender: Sender)
    requires Splitting(all, packets, b, sender)
    ensures var front := Next(b, sender);
      match front
      case Wait => all == Split(packets, b, [])
      case Wrong(error) => all == Split(packets, b, [error])
      case Whole(size) =>
        && 2 <= size <= |b|
        && var complaint := Complaint(b[..size], sender);
        if complaint != [] then all == Split(packets, b[size..], complaint)
        else Splitting(all, packets + [b[..size]], b[size..], sender)
  {
  }

  method Take(buf: CirBuf, length: nat) returns (packet_bytes: seq<byte>)
    requires buf.Valid() && length <= |buf.Contents()|
    modifies buf
    ensures buf.Valid() && buf.buf == old(buf.buf)
    ensures packet_bytes == old(buf.Contents())[..length] && buf.Contents() == old(buf.Contents())[length..]
  {
    ghost var rounds;
    packet_bytes, rounds := buf.ReadToVector(length);
  }

  /** The checks in the constructor of an incoming packet. */
  method CheckFirstByte(first_byte: byte, ghost packet_bytes: seq<byte>, sender: Sender) returns (errors: seq<Error>)
    requires packet_bytes != [] && packet_bytes[0] == first_byte
    ensures errors == Complaint(packet_bytes, sender)
  {
    var packetType := first_byte / 16;
    if packetType == 0 || (sender.protocolVersion < MQTT_5 && packetType > DISCONNECT) {
      if sender.protocolVersion == MQTT_NONE {
        return [BadClient];
      }
      return [InvalidType];
    }
    var fine := ValidateFirstByteLSB(first_byte, packetType, sender.protocolVersion);
    errors := if fine then [] else [MalformedFlags];
  }

  /** MqttPacket::validateFirstByteLSB, but for its exception. */
  method ValidateFirstByteLSB(first_byte: byte, packetType: nat, protocolVersion: nat) returns (fine: bool)
    requires 0 < packetType == first_byte / 16
    ensures fine <==> protocolVersion < MQTT_311 || packetType == PUBLISH
                      || first_byte % 16 == if packetType in {PUBREL, SUBSCRIBE, UNSUBSCRIBE} then 2 else 0
  {
    if protocolVersion < MQTT_311 {
      return true;
    }
    var four_lsb := first_byte % 16;
    if packetType == PUBREL || packetType == SUBSCRIBE || packetType == UNSUBSCRIBE {
      return four_lsb == 2;
    }
    if packetType != PUBLISH {
      return four_lsb == 0;
    }
    fine := true;
  }

  /** MqttPacket::bufferToMqttPackets: takes the packets out of the buffer, and leaves what SplitAll leaves. */
  method BufferToMqttPackets(buf: CirBuf, sender: Sender) returns (packetQueueIn: seq<seq<byte>>, errors: seq<Error>)
    requires buf.Valid()
    modifies buf
    ensures buf.Valid()
    ensures Split(packetQueueIn, buf.Contents(), errors) == SplitAll(old(buf.Contents()), sender)
    ensures forall p :: p in packetQueueIn ==> Acceptable(p, sender)
  {
    AcceptsOnly(buf.Contents(), sender);
    ghost var all := SplitAll(buf.Contents(), sender);
    packetQueueIn, errors := [], [];
    assert Splitting(all, packetQueueIn, buf.Contents(), sender) by {
      assert [] + all.packets == all.packets;
    }
    while true
      invariant buf.Valid() && buf.buf == old(buf.buf) && errors == []
      invariant Splitting(all, packetQueueIn, buf.Contents(), sender)
      decreases |buf.Contents()|
    {
      SplitStep(all, packetQueueIn, buf.Contents(), sender);
      var front := Recognise(buf, sender);
      match front
      case Wait => return;
      case Wrong(error) => return packetQueueIn, [error];
      case Whole(packet_length) =>
        var packet_bytes := Take(buf, packet_length);
        errors := CheckFirstByte(packet_bytes[0], packet_bytes, sender);
        if errors != [] {
          return;
        }
        packetQueueIn := packetQueueIn + [packet_bytes];
    }
  }
}
