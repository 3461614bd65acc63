/**
 The resumable WebSocket decoder. `pending` is the content of websocketPendingBytes; a frame may be
 begun in one call and finished in another.
 */
module WebsocketDecoder {
  import opened Bits
  import opened Numbers
  import opened WebsocketFrames

  const MAX_ITERATIONS: nat := 1_000_000

  /** IncompleteWebsocketRead. */
  datatype Incomplete = Incomplete(left: nat, key: seq<byte>, keyIndex: nat, opcode: nat)

  const RESET: Incomplete := Incomplete(0, NO_KEY, 0, UNKNOWN)

  datatype Header = NeedMore | Reserved | Parsed(length: nat, opcode: nat, left: nat, key: seq<byte>)

  function FromBigEndian(bytes: seq<byte>): nat {
    if bytes == [] then 0 else 256 * FromBigEndian(bytes[..|bytes| - 1]) + bytes[|bytes| - 1]
  }

  /** The frame header at the front of `p`; a missing masking key leaves `key` in place. */
  function ParseHeader(p: seq<byte>, key: seq<byte>): Header {
    if |p| < 2 then NeedMore
    else
      var masked, length7 := p[1] >= 128, p[1] % 128;
      var extended := if length7 == 126 then 2 else if length7 == 127 then 8 else 0;
      var length := 2 + extended + if masked then 4 else 0;
      if (p[0] / 16) % 8 != 0 then Reserved
      else if length > |p| then NeedMore
      else Parsed(length, p[0] % 16, if extended == 0 then length7 else FromBigEndian(p[2..2 + extended]),
                  if masked then p[2 + extended..6 + extended] else key)
  }

  datatype Status = Running | Waiting | BadClient | Closed | SpinLoop

  /** One iteration of the loop: the new state, the MQTT bytes produced, the payloads ponged, and whether the loop goes on. */
  datatype Iteration = Iteration(st: Incomplete, pending: seq<byte>, out: seq<byte>, pongs: seq<seq<byte>>, status: Status)

  function ResetWhenDone(st: Incomplete): Incomplete {
    if st.left == 0 then RESET else st
  }

  /** The part of an iteration that deals with the frame at hand. */
  function Body(st: Incomplete, pending: seq<byte>, room: nat, limit: nat): Iteration
    requires |st.key| == 4
  {
    if st.opcode == BINARY then
      var n := Min(Min(|pending|, st.left), room);
      Iteration(ResetWhenDone(st.(left := st.left - n, keyIndex := st.keyIndex + n)), pending[n..],
                Mask(st.key, st.keyIndex, pending[..n]), [], Running)
    else if st.opcode !in {PING, PONG, CLOSE} || st.left > limit then Iteration(st, pending, [], [], BadClient)
    else if st.left > |pending| then Iteration(st, pending, [], [], Waiting)
    else if st.opcode == CLOSE then Iteration(RESET, [], [], [], Closed)
    else Iteration(RESET, pending[st.left..], [],
                   if st.opcode == PING then [Mask(st.key, st.keyIndex, pending[..st.left])] else [], Running)
  }

  function Step(st: Incomplete, pending: seq<byte>, room: nat, limit: nat): (r: Iteration)
    requires |st.key| == 4
  {
    if st.left > 0 then Body(st, pending, room, limit)
    else
      match ParseHeader(pending, st.key)
      case NeedMore => Iteration(st, pending, [], [], Waiting)
      case Reserved => Iteration(st, pending, [], [], BadClient)
      case Parsed(length, opcode, left, key) => Body(Incomplete(left, key, st.keyIndex, opcode), pending[length..], room, limit)
  }

  lemma BodyConsumes(st: Incomplete, pending: seq<byte>, room: nat, limit: nat)
    requires |st.key| == 4 && room > 0
    ensures var i := Body(st, pending, room, limit);
      && |i.st.key| == 4 && |i.out| <= room && i.status != SpinLoop
      && (i.status == Running ==> |i.pending| <= |pending| && (st.left > 0 && pending != [] ==> |i.pending| < |pending|))
      && (i.status == Running && i.st.left > 0 ==> i.pending == [] || |i.out| == room)
  {
  }

  /** An iteration after which the loop goes on has used up a pending byte, and two if it began a frame. */
  lemma StepConsumes(st: Incomplete, pending: seq<byte>, room: nat, limit: nat)
    requires |st.key| == 4 && pending != [] && room > 0
    ensures var i := Step(st, pending, room, limit);
      && |i.st.key| == 4 && |i.out| <= room && i.status != SpinLoop
      && (i.status == Running ==> |i.pending| < |pending|)
      && (i.status == Running && st.left == 0 ==> |i.pending| + 2 <= |pending|)
      && (i.status == Running && i.st.left > 0 ==> i.pending == [] || |i.out| == room)
  {
    if st.left > 0 {
      BodyConsumes(st, pending, room, limit);
    } else {
      match ParseHeader(pending, st.key)
      case NeedMore =>
      case Reserved =>
      case Parsed(length, opcode, left, key) =>
        BodyConsumes(Incomplete(left, key, st.keyIndex, opcode), pending[length..], room, limit);
    }
  }

  /** The whole loop of websocketBytesToReadBuffer. */
  function Read(st: Incomplete, pending: seq<byte>, room: nat, limit: nat): Iteration
    requires |st.key| == 4
    decreases |pending|
  {
    if pending == [] || room == 0 then Iteration(st, pending, [], [], Running)
    else
      StepConsumes(st, pending, room, limit);
      var i := Step(st, pending, room, limit);
      if i.status != Running then i
      else
        var r := Read(i.st, i.pending, room - |i.out|, limit);
        r.(out := i.out + r.out, pongs := i.pongs + r.pongs)
  }

  /** Iterations done so far, with the output `out` and `pongs`, and the whole call that they begin. */
  ghost predicate Begins(out: seq<byte>, pongs: seq<seq<byte>>, r: Iteration, whole: Iteration) {
    whole == r.(out := out + r.out, pongs := pongs + r.pongs)
  }

  lemma BeginsNothing(r: Iteration)
    ensures Begins([], [], r, r)
  {
  }

  lemma BeginsJoin(out: seq<byte>, pongs: seq<seq<byte>>, i: Iteration, r: Iteration, whole: Iteration)
    requires Begins(out, pongs, r.(out := i.out + r.out, pongs := i.pongs + r.pongs), whole)
    ensures Begins(out + i.out, pongs + i.pongs, r, whole)
  {
    assert out + (i.out + r.out) == (out + i.out) + r.out;
    assert pongs + (i.pongs + r.pongs) == (pongs + i.pongs) + r.pongs;
  }

  /** One more iteration, after which the loop goes on or not. */
  lemma BeginsMore(out: seq<byte>, pongs: seq<seq<byte>>, st: Incomplete, pending: seq<byte>, room: nat, limit: nat, whole: Iteration)
    requires |st.key| == 4 && pending != [] && room > 0 && Begins(out, pongs, Read(st, pending, room, limit), whole)
    ensures var i := Step(st, pending, room, limit);
      && |i.st.key| == 4 && |i.out| <= room
      && (if i.status != Running then Begins(out, pongs, i, whole)
          else Begins(out + i.out, pongs + i.pongs, Read(i.st, i.pending, room - |i.out|, limit), whole))
  {
    StepConsumes(st, pending, room, limit);
    var i := Step(st, pending, room, limit);
    if i.status == Running {
      BeginsJoin(out, pongs, i, Read(i.st, i.pending, room - |i.out|, limit), whole);
    }
  }

  lemma BeginsAll(out: seq<byte>, pongs: seq<seq<byte>>, st: Incomplete, pending: seq<byte>, room: nat, limit: nat, whole: Iteration)
    requires |st.key| == 4 && (pending == [] || room == 0) && Begins(out, pongs, Read(st, pending, room, limit), whole)
    ensures whole == Iteration(st, pending, out, pongs, Running)
  {
  }

  // ---------- what the loops of the class compute ----------

  lemma FromBigEndianNext(bytes: seq<byte>, b: byte, value: nat, k: nat)
    requires value == FromBigEndian(bytes) * Pow256(k + 1)
    ensures value + b * Pow256(k) == FromBigEndian(bytes + [b]) * Pow256(k)
  {
  }

  lemma MaskNext(key: seq<byte>, start: nat, data: seq<byte>, x: nat)
    requires |key| == 4 && x < |data|
    ensures Mask(key, start, data[..x + 1]) == Mask(key, start, data[..x]) + [Xor(data[x], key[(start + x) % 4])]
  {
    MaskSplit(key, start, data[..x + 1], x);
    assert data[..x + 1][..x] == data[..x] && data[..x + 1][x..] == [data[x]];
    assert Mask(key, start + x, [data[x]]) == [Xor(data[x], key[(start + x) % 4])];
  }

  /** `b'` is `b` with `piece` put in place of the bytes at `at`. */
  ghost predicate Placed(b: seq<byte>, at: nat, piece: seq<byte>, b': seq<byte>) {
    at + |piece| <= |b| && b' == b[..at] + piece + b[at + |piece|..]
  }

  lemma PlacedNothing(b: seq<byte>, at: nat)
    requires at <= |b|
    ensures Placed(b, at, [], b)
  {
  }

  lemma PlacedMore(b: seq<byte>, at: nat, one: seq<byte>, b1: seq<byte>, two: seq<byte>, b2: seq<byte>)
    requires Placed(b, at, one, b1) && Placed(b1, at + |one|, two, b2)
    ensures Placed(b, at, one + two, b2)
  {
  }

  lemma PlacedByte(b: seq<byte>, at: nat, one: seq<byte>, b1: seq<byte>, x: byte)
    requires Placed(b, at, one, b1) && at + |one| < |b|
    ensures Placed(b, at, one + [x], b1[at + |one| := x])
  {
  }

  lemma PlacedUnmasked(b: seq<byte>, at: nat, key: seq<byte>, start: nat, data: seq<byte>, x: nat, b1: seq<byte>)
    requires |key| == 4 && x < |data| && at + x < |b|
    requires Placed(b, at, Mask(key, start, data[..x]), b1)
    ensures |b1| == |b|
    ensures Placed(b, at, Mask(key, start, data[..x + 1]), b1[at + x := Xor(data[x], key[(start + x) % 4])])
  {
    MaskNext(key, start, data, x);
    PlacedByte(b, at, Mask(key, start, data[..x]), b1, Xor(data[x], key[(start + x) % 4]));
  }

  class WebsocketReader {
    var pending: seq<byte>
    var frame_bytes_left: nat
    var maskingKey: seq<byte>
    var maskingKeyI: nat
    var opcode: nat

    ghost function State(): Incomplete
      reads this
    {
      Incomplete(frame_bytes_left, maskingKey, maskingKeyI, opcode)
    }

    constructor ()
      ensures State() == RESET && pending == []
    {
      pending := [];
      frame_bytes_left, maskingKey, maskingKeyI, opcode := 0, NO_KEY, 0, UNKNOWN;
    }

    /** IncompleteWebsocketRead::reset. */
    method Reset()
      modifies this`frame_bytes_left, this`maskingKey, this`maskingKeyI, this`opcode
      ensures State() == RESET
    {
      frame_bytes_left, maskingKey, maskingKeyI, opcode := 0, NO_KEY, 0, UNKNOWN;
    }

    /** The loop that adds up the bytes of the extended payload length. */
    method ExtendedLength(count: nat) returns (value: nat)
      requires count + 2 <= |pending|
      ensures value == FromBigEndian(pending[2..2 + count])
    {
      value := 0;
      var i := 0;
      while i < count
        invariant 0 <= i <= count
        invariant value == FromBigEndian(pending[2..2 + i]) * Pow256(count - i)
      {
        FromBigEndianNext(pending[2..2 + i], pending[2 + i], value, count - i - 1);
        assert pending[2..2 + i] + [pending[2 + i]] == pending[2..2 + (i + 1)];
        value := value + pending[2 + i] * Pow256(count - i - 1);
        i := i + 1;
      }
    }

    /** The block that decodes a frame header, when no frame is at hand. */
    method DecodeHeader() returns (status: Status)
      requires |maskingKey| == 4
      modifies this
      ensures match ParseHeader(old(pending), old(maskingKey))
        case NeedMore => status == Waiting && State() == old(State()) && pending == old(pending)
        case Reserved => status == BadClient && State() == old(State()) && pending == old(pending)
        case Parsed(length, op, left, key) =>
          status == Running && State() == Incomplete(left, key, old(maskingKeyI), op) && pending == old(pending)[length..]
    {
      if |pending| < 2 {
        return Waiting;
      }
      var masked := pending[1] >= 128;
      var reserved := (pending[0] / 16) % 8;
      var newOpcode := pending[0] % 16;
      var realPayloadLength: nat := pending[1] % 128;
      var extendedPayloadLengthLength := if realPayloadLength == 126 then 2 else if realPayloadLength == 127 then 8 else 0;
      var headerLength := (if masked then 6 else 2) + extendedPayloadLengthLength;
      if reserved != 0 {
        return BadClient;
      }
      if headerLength > |pending| {
        return Waiting;
      }
      if extendedPayloadLengthLength > 0 {
        realPayloadLength := ExtendedLength(extendedPayloadLengthLength);
      }
      if masked {
        maskingKey := pending[2 + extendedPayloadLengthLength..6 + extendedPayloadLengthLength];
      }
      pending := pending[headerLength..];
      frame_bytes_left := realPayloadLength;
      opcode := newOpcode;
      status := Running;
    }

    /** Unmasks one byte with getNextMaskingByte and stores it. */
    method PutUnmasked(buf: array<byte>, at: nat, b: byte)
      requires |maskingKey| == 4 && at < buf.Length
      modifies buf, this`maskingKeyI
      ensures buf[..] == old(buf[..])[at := Xor(b, maskingKey[old(maskingKeyI) % 4])]
      ensures maskingKeyI == old(maskingKeyI) + 1
    {
      buf[at] := Xor(b, maskingKey[maskingKeyI % 4]);
      maskingKeyI := maskingKeyI + 1;
    }

    /** Moves part of a binary frame into the caller's buffer, unmasking it. */
    method BinaryInto(buf: array<byte>, at: nat, n: nat)
      requires |maskingKey| == 4 && n <= |pending| && n <= frame_bytes_left && at + n <= buf.Length
      modifies this, buf
      ensures Placed(old(buf[..]), at, Mask(old(maskingKey), old(maskingKeyI), old(pending)[..n]), buf[..])
      ensures State() == old(State()).(left := old(frame_bytes_left) - n, keyIndex := old(maskingKeyI) + n)
      ensures pending == old(pending)[n..]
    {
      ghost var org, start := buf[..], maskingKeyI;
      PlacedNothing(org, at);
      var x := 0;
      while x < n
        invariant 0 <= x <= n && maskingKeyI == start + x
        invariant Placed(org, at, Mask(maskingKey, start, pending[..x]), buf[..])
        modifies buf, this`maskingKeyI
      {
        PlacedUnmasked(org, at, maskingKey, start, pending, x, buf[..]);
        PutUnmasked(buf, at + x, pending[x]);
        x := x + 1;
      }
      pending := pending[n..];
      frame_bytes_left := frame_bytes_left - n;
    }

    /** The ping and pong branches: the whole payload is taken, and a ping's is unmasked to be ponged. */
    method TakeControlPayload() returns (payload: seq<byte>)
      requires |maskingKey| == 4 && frame_bytes_left <= |pending|
      modifies this
      ensures payload == Mask(old(maskingKey), old(maskingKeyI), old(pending)[..old(frame_bytes_left)])
      ensures State() == old(State()).(left := 0, keyIndex := old(maskingKeyI) + old(frame_bytes_left))
      ensures pending == old(pending)[old(frame_bytes_left)..]
    {
      var masked_payload := pending[..frame_bytes_left];
      payload := [];
      var i := 0;
      while i < |masked_payload|
        invariant 0 <= i <= |masked_payload| && maskingKeyI == old(maskingKeyI) + i
        invariant payload == Mask(maskingKey, old(maskingKeyI), masked_payload[..i])
        modifies this`maskingKeyI
      {
        MaskNext(maskingKey, old(maskingKeyI), masked_payload, i);
        payload := payload + [Xor(masked_payload[i], maskingKey[maskingKeyI % 4])];
        maskingKeyI := maskingKeyI + 1;
        i := i + 1;
      }
      assert masked_payload[..i] == masked_payload;
      pending := pending[frame_bytes_left..];
      frame_bytes_left := 0;
    }

    /** The branches of an iteration by opcode, and the reset when the frame is done. */
    method HandleFrame(buf: array<byte>, at: nat, nbytes: nat, limit: nat)
      returns (nread: nat, pongs: seq<seq<byte>>, status: Status)
      requires |maskingKey| == 4 && at < nbytes <= buf.Length
      modifies this, buf
      ensures var i := Body(old(State()), old(pending), nbytes - at, limit);
        && State() == i.st && pending == i.pending && nread == |i.out| <= nbytes - at && pongs == i.pongs && status == i.status
        && Placed(old(buf[..]), at, i.out, buf[..])
    {
      nread, pongs, status := 0, [], Running;
      PlacedNothing(buf[..], at);
      if opcode == BINARY {
        nread := Min(Min(|pending|, frame_bytes_left), nbytes - at);
        BinaryInto(buf, at, nread);
      } else if opcode !in {PING, PONG, CLOSE} || frame_bytes_left > limit {
        status := BadClient;
      } else if frame_bytes_left > |pending| {
        status := Waiting;
      } else if opcode == CLOSE {
        Reset();
        pending := [];
        status := Closed;
      } else {
        var isPing := opcode == PING;
        var payload := TakeControlPayload();
        pongs := if isPing then [payload] else [];
      }
      if status == Running && frame_bytes_left == 0 {
        Reset();
      }
    }

    /** One iteration of the loop. */
    method Iterate(buf: array<byte>, at: nat, nbytes: nat, limit: nat)
      returns (nread: nat, pongs: seq<seq<byte>>, status: Status)
      requires |maskingKey| == 4 && at < nbytes <= buf.Length
      modifies this, buf
      ensures var i := Step(old(State()), old(pending), nbytes - at, limit);
        && State() == i.st && pending == i.pending && nread == |i.out| <= nbytes - at && pongs == i.pongs && status == i.status
        && Placed(old(buf[..]), at, i.out, buf[..])
    {
      status := Running;
      if frame_bytes_left == 0 {
        status := DecodeHeader();
      }
      if status != Running {
        PlacedNothing(buf[..], at);
        return 0, [], status;
      }
      nread, pongs, status := HandleFrame(buf, at, nbytes, limit);
    }

    /**
     websocketBytesToReadBuffer computes Read, into the first `n` bytes of the caller's buffer and
     nowhere else. It takes at most 1 + |pending| / 2 rounds, so that the guard against spinning
     never trips with fewer than two million bytes pending.
     */
    method WebsocketBytesToReadBuffer(buf: array<byte>, nbytes: nat, limit: nat)
      returns (n: nat, pongs: seq<seq<byte>>, status: Status)
      requires |maskingKey| == 4 && nbytes <= buf.Length
      modifies this, buf
      ensures status == SpinLoop ==> |old(pending)| >= 2 * MAX_ITERATIONS
      ensures status != SpinLoop ==>
        var i := Read(old(State()), old(pending), nbytes, limit);
        && State() == i.st && pending == i.pending && n == |i.out| <= nbytes && pongs == i.pongs && status == i.status
        && Placed(old(buf[..]), 0, i.out, buf[..])
    {
      n, pongs, status := 0, [], Running;
      var iter_count := 0;
      ghost var out, whole := [], Read(State(), pending, nbytes, limit);
      BeginsNothing(whole);
      PlacedNothing(buf[..], 0);
      while |pending| > 0 && n < nbytes
        invariant n == |out| && status == Running
        invariant Reading(buf, nbytes, limit, old(buf[..]), out, pongs, whole)
        invariant iter_count > 0 ==> |old(pending)| - |pending| >= 2 * iter_count - 1
        invariant iter_count > 0 ==> frame_bytes_left == 0 || pending == [] || n == nbytes
        invariant 0 <= iter_count <= MAX_ITERATIONS
        decreases |pending|
      {
        if iter_count >= MAX_ITERATIONS {
          return n, pongs, SpinLoop;
        }
        iter_count := iter_count + 1;
        n, pongs, status, out := Round(buf, nbytes, limit, n, pongs, old(buf[..]), out, whole);
        if status != Running {
          return;
        }
      }
      BeginsAll(out, pongs, State(), pending, nbytes - n, limit, whole);
    }

    /** Part way through the call `whole`: `out` was put into the caller's buffer, and the rest of the call is still to be done. */
    ghost predicate Reading(buf: array<byte>, nbytes: nat, limit: nat, org: seq<byte>, out: seq<byte>, pongs: seq<seq<byte>>, whole: Iteration)
      reads this, buf
    {
      && |maskingKey| == 4 && |out| <= nbytes <= buf.Length
      && Placed(org, 0, out, buf[..])
      && Begins(out, pongs, Read(State(), pending, nbytes - |out|, limit), whole)
    }

    /** One round of the loop: an iteration, and what it adds to the call so far. */
    method Round(buf: array<byte>, nbytes: nat, limit: nat, n: nat, pongs: seq<seq<byte>>,
                 ghost org: seq<byte>, ghost out: seq<byte>, ghost whole: Iteration)
      returns (n': nat, pongs': seq<seq<byte>>, status: Status, ghost out': seq<byte>)
      requires Reading(buf, nbytes, limit, org, out, pongs, whole) && n == |out| < nbytes && pending != []
      modifies this, buf
      ensures n' == |out'| && status != SpinLoop
      ensures status == Running ==> Reading(buf, nbytes, limit, org, out', pongs', whole)
      ensures status == Running ==> |pending| < |old(pending)| && (old(frame_bytes_left) == 0 ==> |pending| + 2 <= |old(pending)|)
      ensures status == Running && frame_bytes_left > 0 ==> pending == [] || n' == nbytes
      ensures status != Running ==> n' <= nbytes && Placed(org, 0, out', buf[..])
                                    && whole == Iteration(State(), pending, out', pongs', status)
    {
      StepConsumes(State(), pending, nbytes - n, limit);
      BeginsMore(out, pongs, State(), pending, nbytes - n, limit, whole);
      ghost var i, before := Step(State(), pending, nbytes - n, limit), buf[..];
      var nread, more;
      nread, more, status := Iterate(buf, n, nbytes, limit);
      PlacedMore(org, 0, out, before, i.out, buf[..]);
      n', pongs', out' := n + nread, pongs + more, out + i.out;
    }
  }
}
