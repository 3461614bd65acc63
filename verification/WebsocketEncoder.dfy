/** Framing outgoing bytes into the write remainder. */
module WebsocketEncoder {
  import opened Bits
  import opened CirBufs
  import opened WebsocketFrames

  const MAX_HEADER: nat := 10

  /** How many bytes of extended payload length a payload of this size gets. */
  function LengthBytes(n: nat): nat {
    if n < 126 then 0 else if n <= 0xFFFF then 2 else 8
  }

  /** The unmasked frame around `payload`. */
  function Wrapped(opcode: nat, payload: seq<byte>): Frame {
    Frame(true, opcode, false, NO_KEY, LengthBytes(|payload|), payload)
  }

  lemma TwoBytes()
    ensures Pow256(2) == 0x1_0000
  {
  }

  lemma WrappedIsValid(opcode: nat, payload: seq<byte>, limit: nat)
    requires opcode in {BINARY, PONG} && |payload| < Pow256(8) && (opcode == PONG ==> |payload| <= limit)
    ensures ValidFrame(Wrapped(opcode, payload), limit)
    ensures HeaderLength(Wrapped(opcode, payload)) <= MAX_HEADER
  {
  }

  lemma EightBytes()
    ensures Pow256(8) == 0x1_0000_0000_0000_0000
  {
  }

  lemma DivTwice(x: nat, b: nat)
    requires b > 0
    ensures (x / 256) / b == x / (256 * b)
  {
    var q1 := x / 256;
    var q2, r2 := q1 / b, q1 % b;
    var t := b * q2;
    assert q1 == t + r2;
    assert (256 * b) * q2 == 256 * t;
    DivUnique(x, 256 * b, q2, 256 * r2 + x % 256);
  }

  lemma DivUnique(x: int, m: nat, q: int, r: int)
    requires m > 0 && x == m * q + r && 0 <= r < m
    ensures x / m == q
  {
    ModUnique(x, m, q, r);
    assert x == m * (x / m) + r;
    assert m * (x / m - q) == m * (x / m) - m * q == 0;
    MulBetween(m, x / m - q);
  }

  /** The bytes of a big-endian number, one by one. */
  lemma {:induction false} BigEndianAt(x: nat, n: nat, i: nat)
    requires x < Pow256(n) && i < n
    ensures BigEndian(x, n)[i] == (x / Pow256(n - 1 - i)) % 256
  {
    if i < n - 1 {
      BigEndianAt(x / 256, n - 1, i);
      DivTwice(x, Pow256(n - 2 - i));
    }
  }

  /** The header array of writeAsMuchOfBufAsWebsocketFrame. */
  method Header(opcode: nat, n: nat, ghost payload: seq<byte>) returns (header: seq<byte>)
    requires opcode in {BINARY, PONG} && n == |payload| < Pow256(8) && Framable(opcode, payload)
    ensures header == HeaderBytes(Wrapped(opcode, payload)) && |header| <= MAX_HEADER
  {
    var extended, payload_length := 0, 0;
    if n < 126 {
      payload_length := n;
    } else if n <= 0xFFFF {
      payload_length, extended := 126, 2;
    } else {
      payload_length, extended := 127, 8;
    }
    TwoBytes();
    header := [128 + opcode, payload_length];
    var z := extended;
    while z > 0
      invariant 0 <= z <= extended
      invariant n < Pow256(extended) || extended == 0
      invariant extended == 0 ==> header == [128 + opcode, payload_length]
      invariant extended > 0 ==> header == [128 + opcode, payload_length] + BigEndian(n, extended)[..extended - z]
    {
      z := z - 1;
      BigEndianAt(n, extended, extended - 1 - z);
      assert BigEndian(n, extended)[..extended - z] == BigEndian(n, extended)[..extended - z - 1] + [BigEndian(n, extended)[extended - z - 1]];
      header := header + [(n / Pow256(z)) % 256];
    }
  }

  /**
   Frames as much of `data` as the write remainder has room for, behind a header of at most ten
   bytes. The count returned says which prefix was framed; header and body never exceed the room.
   Nothing is framed when no more than ten bytes are free, nor for empty binary data.
   */
  method WriteAsMuchOfBufAsWebsocketFrame(remainder: CirBuf, data: seq<byte>, opcode: nat, maxBuf: nat)
    returns (ok: bool, n: nat)
    requires remainder.Valid() && opcode in {BINARY, PONG} && |data| < CAPACITY_LIMIT
    requires GrownSize(remainder.size, |remainder.Contents()|, |data| + MAX_HEADER, maxBuf) != CAPACITY_LIMIT
    modifies remainder, remainder.buf
    ensures remainder.Valid() && (remainder.buf == old(remainder.buf) || fresh(remainder.buf))
    ensures n <= |data| && Framable(opcode, data[..n])
    ensures data == [] && opcode == BINARY ==> ok && n == 0 && remainder.Contents() == old(remainder.Contents())
    ensures ok == ((data == [] && opcode == BINARY)
                   || GrownSize(old(remainder.size), |old(remainder.Contents())|, |data| + MAX_HEADER, maxBuf) < CAPACITY_LIMIT)
    ensures !ok ==> n == 0 && remainder.Contents() == old(remainder.Contents())
    ensures ok && (data != [] || opcode == PONG) ==>
      var room := GrownSize(old(remainder.size), |old(remainder.Contents())|, |data| + MAX_HEADER, maxBuf) - 1 - |old(remainder.Contents())|;
      && n == (if room < MAX_HEADER then 0 else if |data| < room - MAX_HEADER then |data| else room - MAX_HEADER)
      && remainder.Contents() == old(remainder.Contents()) + (if room > MAX_HEADER then FrameOf(opcode, data[..n]) else [])
      && |remainder.Contents()| <= |old(remainder.Contents())| + room
  {
    EightBytes();
    WrappedIsValid(opcode, data[..0], 0);
    if data == [] && opcode == BINARY {
      return true, 0;
    }
    ok := remainder.EnsureFreeSpace(|data| + MAX_HEADER, maxBuf);
    if !ok {
      return false, 0;
    }
    var bytesFree := remainder.FreeSpace();
    var bodyBytesAvailable := if bytesFree < MAX_HEADER then 0 else bytesFree - MAX_HEADER;
    n := if |data| < bodyBytesAvailable then |data| else bodyBytesAvailable;
    WrappedIsValid(opcode, data[..n], n);
    if bytesFree > MAX_HEADER {
      WriteFrame(remainder, opcode, data[..n]);
    }
  }

  /** Writes header and body; there is room for both. */
  method WriteFrame(remainder: CirBuf, opcode: nat, payload: seq<byte>)
    requires remainder.Valid() && opcode in {BINARY, PONG} && |payload| < CAPACITY_LIMIT && Framable(opcode, payload)
    requires |payload| + MAX_HEADER <= remainder.size - 1 - |remainder.Contents()|
    modifies remainder, remainder.buf
    ensures remainder.Valid() && remainder.size == old(remainder.size) && (remainder.buf == old(remainder.buf) || fresh(remainder.buf))
    ensures remainder.Contents() == old(remainder.Contents()) + FrameOf(opcode, payload)
    ensures |FrameOf(opcode, payload)| <= |payload| + MAX_HEADER
  {
    EightBytes();
    ghost var before := remainder.Contents();
    var header := Header(opcode, |payload|, payload);
    Append(remainder, header);
    Append(remainder, payload);
    assert before + header + payload == before + (header + payload);
  }

  /** writerange into a buffer that has room. */
  method Append(remainder: CirBuf, data: seq<byte>)
    requires remainder.Valid() && |data| <= remainder.size - 1 - |remainder.Contents()|
    modifies remainder, remainder.buf
    ensures remainder.Valid() && remainder.size == old(remainder.size) && (remainder.buf == old(remainder.buf) || fresh(remainder.buf))
    ensures remainder.Contents() == old(remainder.Contents()) + data
  {
    PowFits(remainder.exponent);
    var ok;
    ghost var rounds;
    ok, rounds := remainder.WriteRange(data);
  }

  ghost predicate Framable(opcode: nat, payload: seq<byte>) {
    ValidFrame(Wrapped(opcode, payload), |payload|)
  }

  ghost function FrameOf(opcode: nat, payload: seq<byte>): seq<byte>
    requires Framable(opcode, payload)
  {
    HeaderBytes(Wrapped(opcode, payload)) + payload
  }

  /**
   Ponging a ping, as the decoder does it. The payload comes back in one whole frame, except that an
   empty one is not answered at all when exactly ten bytes are free: room is made for ten bytes, but
   a frame is written only into more than that.
   */
  method Pong(remainder: CirBuf, payload: seq<byte>, maxBuf: nat) returns (ok: bool)
    requires remainder.Valid() && |payload| + MAX_HEADER < CAPACITY_LIMIT
    requires GrownSize(remainder.size, |remainder.Contents()|, |payload| + MAX_HEADER, UINT32_VALUES - 1) != CAPACITY_LIMIT
    modifies remainder, remainder.buf
    ensures remainder.Valid() && (remainder.buf == old(remainder.buf) || fresh(remainder.buf)) && Framable(PONG, payload)
    ensures ok == (GrownSize(old(remainder.size), |old(remainder.Contents())|, |payload| + MAX_HEADER, UINT32_VALUES - 1) < CAPACITY_LIMIT)
    ensures !ok ==> remainder.Contents() == old(remainder.Contents())
    ensures ok ==>
      var free := GrownSize(old(remainder.size), |old(remainder.Contents())|, |payload| + MAX_HEADER, UINT32_VALUES - 1) - 1 - |old(remainder.Contents())|;
      remainder.Contents() == old(remainder.Contents()) + (if payload == [] && free == MAX_HEADER then [] else FrameOf(PONG, payload))
  {
    EightBytes();
    PowFits(remainder.exponent);
    WrappedIsValid(PONG, payload, |payload|);
    ok := remainder.EnsureFreeSpace(|payload| + MAX_HEADER, UINT32_VALUES - 1);
    if ok {
      PowFits(remainder.exponent);
      PongIntoRoom(remainder, payload, maxBuf);
    }
  }

  method PongIntoRoom(remainder: CirBuf, payload: seq<byte>, maxBuf: nat)
    requires remainder.Valid() && Framable(PONG, payload) && remainder.size < CAPACITY_LIMIT
    requires |payload| + MAX_HEADER <= remainder.size - 1 - |remainder.Contents()|
    modifies remainder, remainder.buf
    ensures remainder.Valid() && (remainder.buf == old(remainder.buf) || fresh(remainder.buf))
    ensures var free := old(remainder.size) - 1 - |old(remainder.Contents())|;
      remainder.Contents() == old(remainder.Contents()) + (if payload == [] && free == MAX_HEADER then [] else FrameOf(PONG, payload))
  {
    var ok, n := WriteAsMuchOfBufAsWebsocketFrame(remainder, payload, PONG, maxBuf);
    assert payload[..|payload|] == payload;
  }

  /** The bytes of such a frame do not depend on the limit its reader has. */
  lemma FrameOfIsFrameBytes(opcode: nat, payload: seq<byte>, limit: nat)
    requires opcode in {BINARY, PONG} && |payload| < Pow256(8) && (opcode == PONG ==> |payload| <= limit)
    ensures Framable(opcode, payload) && ValidFrame(Wrapped(opcode, payload), limit)
    ensures FrameOf(opcode, payload) == FrameBytes(Wrapped(opcode, payload))
  {
    WrappedIsValid(opcode, payload, |payload|);
    WrappedIsValid(opcode, payload, limit);
    MaskNone(0, payload);
  }

  /** The opcodes of section 5.2 of RFC 6455 behind a final bit: 2 is binary, 10 is a pong. */
  lemma FirstBytesSent(payload: seq<byte>)
    requires Framable(BINARY, payload) && Framable(PONG, payload)
    ensures FrameOf(BINARY, payload)[0] == 0x82 && FrameOf(PONG, payload)[0] == 0x8A
  {
  }
}
