/**
 The sending side of a WebSocket connection over whole runs: MQTT bytes are framed as far as there is
 room, pongs are framed in between, and the socket takes what it likes.
 */
module WebsocketWriter {
  import opened Bits
  import opened CirBufs
  import opened WebsocketFrames
  import opened WebsocketEncoder
  import WebsocketDecoder
  import WebsocketRuns

  // ---------- frames, one after the other ----------

  /** The payloads ponged. */
  function Pongs(frames: seq<Frame>): seq<seq<byte>> {
    if frames == [] then []
    else (if frames[0].opcode == PONG then [frames[0].payload] else []) + Pongs(frames[1..])
  }

  function NonEmpty(payloads: seq<seq<byte>>): seq<seq<byte>> {
    if payloads == [] then [] else (if payloads[0] == [] then [] else [payloads[0]]) + NonEmpty(payloads[1..])
  }

  lemma {:induction false} NonEmptySnoc(payloads: seq<seq<byte>>, p: seq<byte>)
    ensures NonEmpty(payloads + [p]) == NonEmpty(payloads) + if p == [] then [] else [p]
  {
    if payloads != [] {
      NonEmptySnoc(payloads[1..], p);
      assert (payloads + [p])[1..] == payloads[1..] + [p];
    }
  }

  lemma {:induction false} FramesSnoc(frames: seq<Frame>, f: Frame)
    ensures Payloads(frames + [f]) == Payloads(frames) + if f.opcode == BINARY then f.payload else []
    ensures Pongs(frames + [f]) == Pongs(frames) + if f.opcode == PONG then [f.payload] else []
  {
    if frames != [] {
      FramesSnoc(frames[1..], f);
      assert (frames + [f])[1..] == frames[1..] + [f];
    }
  }

  lemma {:induction false} StreamSnoc(frames: seq<Frame>, f: Frame, limit: nat)
    requires ValidFrames(frames, limit) && ValidFrame(f, limit)
    ensures ValidFrames(frames + [f], limit) && Stream(frames + [f], limit) == Stream(frames, limit) + FrameBytes(f)
    decreases frames
  {
    if frames != [] {
      StreamSnoc(frames[1..], f, limit);
      assert (frames + [f])[1..] == frames[1..] + [f];
    }
  }

  // ---------- what was sent ----------

  /** The bytes the socket took, the frames written, the MQTT bytes taken for framing, and the payloads to pong. */
  datatype Sent = Sent(wire: seq<byte>, frames: seq<Frame>, framed: seq<byte>, pinged: seq<seq<byte>>)

  /**
   What went out and what waits in `rest` are whole frames around exactly the MQTT bytes taken; the
   pongs are the payloads to pong, in order, but for empty ones that may be missing.
   */
  ghost predicate Faithful(sent: Sent, rest: seq<byte>, limit: nat) {
    && ValidFrames(sent.frames, limit) && sent.wire + rest == Stream(sent.frames, limit)
    && Payloads(sent.frames) == sent.framed
    && NonEmpty(Pongs(sent.frames)) == NonEmpty(sent.pinged) && |Pongs(sent.frames)| <= |sent.pinged|
  }

  function Framed(sent: Sent, data: seq<byte>): Sent {
    if data == [] then sent
    else sent.(frames := sent.frames + [Wrapped(BINARY, data)], framed := sent.framed + data)
  }

  /** One frame more on the way. */
  lemma FrameAdded(sent: Sent, rest: seq<byte>, opcode: nat, payload: seq<byte>, limit: nat)
    requires ValidFrames(sent.frames, limit) && sent.wire + rest == Stream(sent.frames, limit)
    requires opcode in {BINARY, PONG} && |payload| < Pow256(8) && (opcode == PONG ==> |payload| <= limit)
    ensures Framable(opcode, payload)
    ensures var frames := sent.frames + [Wrapped(opcode, payload)];
      && ValidFrames(frames, limit) && sent.wire + (rest + FrameOf(opcode, payload)) == Stream(frames, limit)
      && Payloads(frames) == Payloads(sent.frames) + (if opcode == BINARY then payload else [])
      && Pongs(frames) == Pongs(sent.frames) + (if opcode == PONG then [payload] else [])
  {
    FrameOfIsFrameBytes(opcode, payload, limit);
    StreamSnoc(sent.frames, Wrapped(opcode, payload), limit);
    FramesSnoc(sent.frames, Wrapped(opcode, payload));
    WireGrows(sent.wire, rest, FrameOf(opcode, payload));
  }

  lemma WireGrows(wire: seq<byte>, rest: seq<byte>, frame: seq<byte>)
    ensures wire + (rest + frame) == wire + rest + frame
  {
  }

  lemma FramedFaithful(sent: Sent, rest: seq<byte>, data: seq<byte>, limit: nat)
    requires Faithful(sent, rest, limit) && 0 < |data| < Pow256(8)
    ensures Framable(BINARY, data) && Faithful(Framed(sent, data), rest + FrameOf(BINARY, data), limit)
  {
    FrameAdded(sent, rest, BINARY, data, limit);
    assert Pongs(sent.frames) + [] == Pongs(sent.frames);
  }

  lemma NothingLost(framed: seq<byte>, content: seq<byte>, data: seq<byte>, n: nat)
    requires n <= |data| <= |content| && data == content[..|data|]
    ensures framed + data[..n] + content[n..] == framed + content
    ensures data[..n] == [] ==> framed + content[n..] == framed + content
  {
    assert content == data[..n] + content[n..];
  }

  function Ponged(sent: Sent, payload: seq<byte>, written: bool): Sent {
    sent.(pinged := sent.pinged + [payload], frames := if written then sent.frames + [Wrapped(PONG, payload)] else sent.frames)
  }

  lemma PongedFaithful(sent: Sent, rest: seq<byte>, payload: seq<byte>, written: bool, limit: nat)
    requires Faithful(sent, rest, limit) && |payload| <= limit && |payload| < Pow256(8) && (!written ==> payload == [])
    ensures Framable(PONG, payload) && Faithful(Ponged(sent, payload, written), rest + if written then FrameOf(PONG, payload) else [], limit)
  {
    FrameAdded(sent, rest, PONG, payload, limit);
    NonEmptySnoc(sent.pinged, payload);
    NonEmptySnoc(Pongs(sent.frames), payload);
    assert rest + [] == rest && Payloads(sent.frames) + [] == Payloads(sent.frames);
  }

  lemma TakenFaithful(sent: Sent, rest: seq<byte>, n: nat, limit: nat)
    requires Faithful(sent, rest, limit) && n <= |rest|
    ensures Faithful(sent.(wire := sent.wire + rest[..n]), rest[n..], limit)
  {
    assert sent.wire + rest[..n] + rest[n..] == sent.wire + rest;
  }

  /**
   Encoding and then decoding is the identity: whatever was written, however it arrives in pieces and
   whatever room the reader gives each call, the decoder hands on a prefix of the bytes taken for
   framing, without error, and all of them once everything arrived and a call is not filled up.
   */
  lemma EncodeThenDecode(sent: Sent, rest: seq<byte>, events: seq<WebsocketRuns.Event>, later: seq<byte>, room: nat, limit: nat)
    requires Faithful(sent, rest, limit) && WebsocketRuns.Arrivals(events) + later == sent.wire + rest
    ensures var r := WebsocketRuns.After(WebsocketRuns.START, events, limit);
      var r' := WebsocketRuns.Happen(r, WebsocketRuns.Ask(room), limit);
      && r.status in {WebsocketDecoder.Running, WebsocketDecoder.Waiting}
      && r.out <= sent.framed
      && (later == [] && |r'.out| < |r.out| + room ==> r'.out == sent.framed)
  {
    WebsocketRuns.DecodingIgnoresChunking(sent.frames, events, later, room, limit);
  }

  // ---------- what the socket takes ----------

  /**
   How many bytes go out when the socket takes at most `takes[k]` at its k-th turn, is offered one
   piece at a time, `piece` bytes and then `rest`, and is not asked again after it took none.
   */
  function Flow(takes: seq<nat>, piece: nat, rest: nat): (r: nat)
    ensures r <= piece + rest
    decreases |takes|
  {
    if takes == [] || takes[0] == 0 || piece == 0 then 0
    else if takes[0] < piece then takes[0] + Flow(takes[1..], piece - takes[0], rest)
    else piece + Flow(takes[1..], rest, 0)
  }

  /** One turn, at which `n` bytes of the piece go out. */
  lemma FlowNext(takes: seq<nat>, k: nat, piece: nat, total: nat, n: nat)
    requires k < |takes| && piece <= total && n == if takes[k] < piece then takes[k] else piece
    ensures var piece' := if n < piece then piece - n else total - piece;
      && piece' <= total - n
      && Flow(takes[k..], piece, total - piece) == n + if n > 0 then Flow(takes[k + 1..], piece', total - n - piece') else 0
  {
    assert takes[k..][0] == takes[k] && takes[k..][1..] == takes[k + 1..];
  }

  /** A socket that takes anything it is offered, twice. */
  predicate TakesAll(takes: seq<nat>) {
    |takes| >= 2 && takes[0] >= CAPACITY_LIMIT && takes[1] >= CAPACITY_LIMIT
  }

  /** A socket that takes something gets at least that going, and one that takes all, all. */
  lemma FlowsOut(takes: seq<nat>, piece: nat, rest: nat)
    requires piece + rest < CAPACITY_LIMIT
    ensures takes != [] ==> Flow(takes, piece, rest) >= if takes[0] < piece then takes[0] else piece
    ensures TakesAll(takes) && (piece == 0 ==> rest == 0) ==> Flow(takes, piece, rest) == piece + rest
  {
    if TakesAll(takes) {
      assert takes[1..][0] == takes[1];
    }
  }

  /** With such a socket and room for a byte, nothing waits after a round, and all but the first round send something. */
  ghost predicate Clearing(all: bool, i: nat, waiting: seq<byte>, content: seq<byte>, length: nat) {
    && (i == 0 ==> |content| <= length)
    && (all && i > 0 ==> waiting == [] && (content == [] || |content| + i <= length + 1))
  }

  lemma ClearingNext(all: bool, i: nat, waiting: seq<byte>, content: seq<byte>, n: nat, waiting': seq<byte>, length: nat)
    requires Clearing(all, i, waiting, content, length) && n <= |content|
    requires all ==> waiting' == [] && (waiting == [] && content != [] ==> n > 0)
    ensures Clearing(all, i + 1, waiting', content[n..], length)
  {
  }

  /** Bytes have gone from what waited to the wire, and that is all. */
  ghost predicate Drained(before: Sent, waiting: seq<byte>, sent: Sent, rest: seq<byte>) {
    sent == before.(wire := sent.wire) && sent.wire + rest == before.wire + waiting
  }

  // ---------- the writer ----------

  class Writer {
    const remainder: CirBuf
    const maxBuf: nat
    ghost const limit: nat
    ghost var sent: Sent

    ghost predicate Valid()
      reads this, remainder, remainder.buf
    {
      && remainder.Valid() && maxBuf <= CAPACITY_LIMIT / 2
      && Faithful(sent, remainder.Contents(), limit)
    }

    constructor (exponent: nat, maxBuf: nat, ghost limit: nat)
      requires exponent <= 30 && maxBuf <= CAPACITY_LIMIT / 2
      ensures Valid() && sent == Sent([], [], [], []) && fresh(remainder) && fresh(remainder.buf) && remainder.Contents() == []
      ensures this.maxBuf == maxBuf && this.limit == limit
    {
      remainder := new CirBuf(exponent);
      this.maxBuf, this.limit, sent := maxBuf, limit, Sent([], [], [], []);
    }

    /**
     Frames a prefix of `data`, as much as there is room for; with nothing waiting and a buffer that
     may hold a byte and its header, that is not nothing.
     */
    method Offer(data: seq<byte>) returns (n: nat)
      requires Valid() && |data| < CAPACITY_LIMIT
      modifies this`sent, remainder, remainder.buf
      ensures Valid() && (remainder.buf == old(remainder.buf) || fresh(remainder.buf))
      ensures n <= |data| && sent == Framed(old(sent), data[..n])
      ensures old(remainder.Contents()) == [] && data != [] && maxBuf > MAX_HEADER + 1 ==> n > 0
    {
      ghost var rest := remainder.Contents();
      PowFits(remainder.exponent);
      GrowStops(remainder.size, |rest|, |data| + MAX_HEADER, maxBuf);
      var ok;
      ok, n := WriteAsMuchOfBufAsWebsocketFrame(remainder, data, BINARY, maxBuf);
      EightBytes();
      if n > 0 {
        FramedFaithful(sent, rest, data[..n], limit);
      }
      sent := Framed(sent, data[..n]);
    }

    /** The loop of writeWebsocketAndOrSsl: the socket takes as many bytes as `takes` says, until it takes none. */
    method Drain(takes: seq<nat>)
      requires Valid()
      modifies this`sent, remainder`tail, remainder`taken
      ensures Valid() && remainder.buf == old(remainder.buf)
      ensures Drained(old(sent), old(remainder.Contents()), sent, remainder.Contents())
      ensures var piece := old(PieceSize());
        |sent.wire| == |old(sent.wire)| + Flow(takes, piece, |old(remainder.Contents())| - piece)
    {
      ghost var before, waiting, target := sent, remainder.Contents(), GoesTo(takes, 0);
      assert takes[0..] == takes;
      var n, k := 1, 0;
      while k < |takes| && n > 0
        invariant k <= |takes| && Valid() && Drained(before, waiting, sent, remainder.Contents())
        invariant target == if n > 0 then GoesTo(takes, k) else |sent.wire|
      {
        n := Turn(takes, k, target);
        k := k + 1;
      }
    }

    /** How many of the bytes that wait lie in one piece. */
    ghost function PieceSize(): nat
      reads this, remainder, remainder.buf
      requires Valid()
    {
      if |remainder.Contents()| < remainder.size - remainder.tail then |remainder.Contents()| else remainder.size - remainder.tail
    }

    /** How long the wire is to be after the turns from the k-th on. */
    ghost function GoesTo(takes: seq<nat>, k: nat): nat
      requires Valid() && k <= |takes|
      reads this, remainder, remainder.buf
    {
      |sent.wire| + Flow(takes[k..], PieceSize(), |remainder.Contents()| - PieceSize())
    }

    /** One round of that loop. */
    method Turn(takes: seq<nat>, k: nat, ghost target: nat) returns (n: nat)
      requires Valid() && k < |takes| && target == GoesTo(takes, k)
      modifies this`sent, remainder`tail, remainder`taken
      ensures Valid() && Drained(old(sent), old(remainder.Contents()), sent, remainder.Contents())
      ensures target == if n > 0 then GoesTo(takes, k + 1) else |sent.wire|
    {
      ghost var piece, total := PieceSize(), |remainder.Contents()|;
      n := SocketTakes(takes[k]);
      FlowNext(takes, k, piece, total, n);
    }

    /** One turn: the socket takes up to `take` bytes of the piece it is offered. */
    method SocketTakes(take: nat) returns (n: nat)
      requires Valid()
      modifies this`sent, remainder`tail, remainder`taken
      ensures Valid() && Drained(old(sent), old(remainder.Contents()), sent, remainder.Contents()) && |sent.wire| == |old(sent.wire)| + n
      ensures n == if take < old(PieceSize()) then take else old(PieceSize())
      ensures var piece, total := old(PieceSize()), |old(remainder.Contents())|;
        && |remainder.Contents()| == total - n
        && PieceSize() == if n < piece then piece - n else total - piece
    {
      n := if take < remainder.MaxReadSize() then take else remainder.MaxReadSize();
      if n > 0 {
        ghost var rest := remainder.Contents();
        TakenFaithful(sent, rest, n, limit);
        assert sent.wire + rest[..n] + rest[n..] == sent.wire + rest;
        sent := sent.(wire := sent.wire + rest[..n]);
        var ok := remainder.AdvanceTail(n);
      }
    }

    /** IoWrapper::writeWebsocketAndOrSsl on an upgraded connection. */
    method WriteWebsocketAndOrSsl(data: seq<byte>, takes: seq<nat>) returns (n: nat)
      requires Valid() && |data| < CAPACITY_LIMIT
      modifies this`sent, remainder, remainder.buf
      ensures Valid() && (remainder.buf == old(remainder.buf) || fresh(remainder.buf))
      ensures n <= |data| && sent == Framed(old(sent), data[..n]).(wire := sent.wire)
      ensures old(remainder.Contents()) == [] && data != [] && maxBuf > MAX_HEADER + 1 ==> n > 0
      ensures TakesAll(takes) ==> remainder.Contents() == []
    {
      n := Offer(data);
      PowFits(remainder.exponent);
      FlowsOut(takes, PieceSize(), |remainder.Contents()| - PieceSize());
      Drain(takes);
    }

    /**
     The loop of Client::writeBufIntoFd, one entry of `rounds` for each time round: what was not
     framed is offered again, and no byte of the client's buffer is lost or sent twice. With a socket
     that takes all it is offered, one round for each byte and one more are enough to send everything.
     */
    method WriteBufIntoFd(buf: CirBuf, rounds: seq<seq<nat>>)
      requires Valid() && buf.Valid() && buf != remainder && buf.buf != remainder.buf
      modifies this`sent, remainder, remainder.buf, buf`tail, buf`taken
      ensures Valid() && buf.Valid()
      ensures sent.framed + buf.Contents() == old(sent.framed + buf.Contents()) && sent.pinged == old(sent.pinged)
      ensures (maxBuf > MAX_HEADER + 1 && |rounds| > |old(buf.Contents())| && forall takes :: takes in rounds ==> TakesAll(takes)) ==>
        buf.Contents() == [] && remainder.Contents() == []
    {
      ghost var all := maxBuf > MAX_HEADER + 1 && forall takes :: takes in rounds ==> TakesAll(takes);
      ghost var length := |buf.Contents()|;
      for i := 0 to |rounds|
        invariant Valid() && buf.Valid() && buf.buf != remainder.buf
        invariant remainder.buf == old(remainder.buf) || fresh(remainder.buf)
        invariant sent.framed + buf.Contents() == old(sent.framed + buf.Contents()) && sent.pinged == old(sent.pinged)
        invariant Clearing(all, i, remainder.Contents(), buf.Contents(), length)
      {
        assert rounds[i] in rounds;
        ghost var waiting, content := remainder.Contents(), buf.Contents();
        ghost var n := Round(buf, rounds[i]);
        ClearingNext(all, i, waiting, content, n, remainder.Contents(), length);
      }
    }

    /** Once round: a frame around a prefix of what the client's buffer holds, and what the socket takes. */
    method Round(buf: CirBuf, takes: seq<nat>) returns (ghost n: nat)
      requires Valid() && buf.Valid() && buf != remainder && buf.buf != remainder.buf
      modifies this`sent, remainder, remainder.buf, buf`tail, buf`taken
      ensures Valid() && buf.Valid() && (remainder.buf == old(remainder.buf) || fresh(remainder.buf))
      ensures sent.framed + buf.Contents() == old(sent.framed + buf.Contents()) && sent.pinged == old(sent.pinged)
      ensures n <= |old(buf.Contents())| && buf.Contents() == old(buf.Contents())[n..]
      ensures sent == Framed(old(sent), old(buf.Contents())[..n]).(wire := sent.wire)
      ensures old(remainder.Contents()) == [] && old(buf.Contents()) != [] && maxBuf > MAX_HEADER + 1 ==> n > 0
      ensures TakesAll(takes) ==> remainder.Contents() == []
    {
      var data := buf.PeekPiece();
      ghost var content, framed := buf.Contents(), sent.framed;
      PowFits(buf.exponent);
      var m := WriteWebsocketAndOrSsl(data, takes);
      n := m;
      NothingLost(framed, content, data, n);
      assert data[..n] == content[..n];
      var ok := buf.AdvanceTail(m);
    }

    /** Answers a ping, as the decoder does; an empty answer is left out when exactly ten bytes are free. */
    method Answer(payload: seq<byte>)
      requires Valid() && |payload| <= limit && |remainder.Contents()| + |payload| + MAX_HEADER < CAPACITY_LIMIT / 2
      modifies this`sent, remainder, remainder.buf
      ensures Valid() && (remainder.buf == old(remainder.buf) || fresh(remainder.buf))
      ensures |remainder.Contents()| <= |old(remainder.Contents())| + |payload| + MAX_HEADER
      ensures exists written :: sent == Ponged(old(sent), payload, written) && (payload != [] ==> written)
    {
      ghost var rest := remainder.Contents();
      PowFits(remainder.exponent);
      GrowStops(remainder.size, |rest|, |payload| + MAX_HEADER, UINT32_VALUES - 1);
      EightBytes();
      var ok := Pong(remainder, payload, maxBuf);
      ghost var written := payload != [] || remainder.Contents() != rest;
      PongedFaithful(sent, rest, payload, written, limit);
      sent := Ponged(sent, payload, written);
    }

    /** The pongs that a call of the decoder asks for. */
    method AnswerAll(pings: seq<seq<byte>>)
      requires Valid() && (forall p :: p in pings ==> |p| <= limit) && |remainder.Contents()| + Total(pings) < CAPACITY_LIMIT / 2
      modifies this`sent, remainder, remainder.buf
      ensures Valid() && (remainder.buf == old(remainder.buf) || fresh(remainder.buf))
      ensures sent.pinged == old(sent.pinged) + pings && sent.framed == old(sent.framed) && sent.wire == old(sent.wire)
    {
      ghost var before := sent;
      for k := 0 to |pings|
        invariant Valid() && (remainder.buf == old(remainder.buf) || fresh(remainder.buf))
        invariant |remainder.Contents()| + Total(pings[k..]) < CAPACITY_LIMIT / 2
        invariant sent.pinged == before.pinged + pings[..k] && sent.framed == before.framed && sent.wire == before.wire
      {
        NextPing(before.pinged, pings, k);
        Answer(pings[k]);
      }
      assert pings[..|pings|] == pings;
    }
  }

  /** How many bytes the pongs can take. */
  function Total(pings: seq<seq<byte>>): nat {
    if pings == [] then 0 else |pings[0]| + MAX_HEADER + Total(pings[1..])
  }

  lemma NextPing(before: seq<seq<byte>>, pings: seq<seq<byte>>, k: nat)
    requires k < |pings|
    ensures pings[k] in pings
    ensures Total(pings[k..]) == |pings[k]| + MAX_HEADER + Total(pings[k + 1..])
    ensures before + pings[..k] + [pings[k]] == before + pings[..k + 1]
  {
    assert pings[k..][0] == pings[k] && pings[k..][1..] == pings[k + 1..];
  }

  /** No pong exceeds the limit, and they go with the bytes that were used up. */
  ghost predicate Fitting(pongs: seq<seq<byte>>, used: int, limit: nat) {
    (forall p :: p in pongs ==> |p| <= limit) && Total(pongs) <= (MAX_HEADER + 1) * used
  }

  lemma FittingOneMore(first: seq<seq<byte>>, used: int, pongs: seq<seq<byte>>, used': int, limit: nat)
    requires |first| <= 1 && Fitting(first, used, limit) && Fitting(pongs, used', limit)
    ensures Fitting(first + pongs, used + used', limit)
  {
    if first == [] {
      assert first + pongs == pongs;
    } else {
      assert (first + pongs)[1..] == pongs && first[1..] == [];
    }
  }

  /** The decoder asks for no pong above its limit. */
  lemma {:induction false} PongsFit(st: WebsocketDecoder.Incomplete, pending: seq<byte>, room: nat, limit: nat)
    requires |st.key| == 4
    ensures Fitting(WebsocketDecoder.Read(st, pending, room, limit).pongs, |pending|, limit)
    decreases |pending|
  {
    if pending != [] && room > 0 {
      WebsocketDecoder.StepConsumes(st, pending, room, limit);
      StepPongsFit(st, pending, room, limit);
      var i := WebsocketDecoder.Step(st, pending, room, limit);
      if i.status == WebsocketDecoder.Running {
        PongsFit(i.st, i.pending, room - |i.out|, limit);
        var r := WebsocketDecoder.Read(i.st, i.pending, room - |i.out|, limit);
        FittingOneMore(i.pongs, |pending| - |i.pending|, r.pongs, |i.pending|, limit);
      }
    }
  }

  lemma StepPongsFit(st: WebsocketDecoder.Incomplete, pending: seq<byte>, room: nat, limit: nat)
    requires |st.key| == 4 && pending != []
    ensures var i := WebsocketDecoder.Step(st, pending, room, limit);
      && |i.pongs| <= 1 && |i.pending| <= |pending| && Fitting(i.pongs, |pending| - |i.pending|, limit)
      && (i.status != WebsocketDecoder.Running ==> i.pongs == [])
  {
  }

  /** Reading from the socket with the pongs that go out for it; MQTT bytes taken for framing are not affected. */
  method ReadAndAnswer(reader: WebsocketDecoder.WebsocketReader, writer: Writer, buf: array<byte>, nbytes: nat)
    returns (n: nat, status: WebsocketDecoder.Status)
    requires |reader.maskingKey| == 4 && nbytes <= buf.Length && writer.Valid() && writer.maxBuf / 2 <= writer.limit && buf != writer.remainder.buf
    requires |writer.remainder.Contents()| + (MAX_HEADER + 1) * |reader.pending| < CAPACITY_LIMIT / 2
    modifies reader, buf, writer`sent, writer.remainder, writer.remainder.buf
    ensures writer.Valid() && writer.sent.framed == old(writer.sent.framed)
    ensures status != WebsocketDecoder.SpinLoop ==>
      var i := WebsocketDecoder.Read(old(reader.State()), old(reader.pending), nbytes, writer.maxBuf / 2);
      && n == |i.out| && status == i.status && reader.State() == i.st && reader.pending == i.pending
      && WebsocketDecoder.Placed(old(buf[..]), 0, i.out, buf[..])
      && writer.sent.pinged == old(writer.sent.pinged) + i.pongs
  {
    PongsFit(reader.State(), reader.pending, nbytes, writer.maxBuf / 2);
    var pongs;
    n, pongs, status := reader.WebsocketBytesToReadBuffer(buf, nbytes, writer.maxBuf / 2);
    if status != WebsocketDecoder.SpinLoop {
      writer.AnswerAll(pongs);
    }
  }

  /** A ping without payload that arrives while five bytes wait in a buffer of sixteen goes well, and is not answered. */
  method EmptyPingGoesUnanswered(waiting: seq<byte>, maxBuf: nat) returns (ok: bool, content: seq<byte>)
    requires |waiting| == 5
    ensures ok && content == waiting
  {
    assert Pow2(4) == 16;
    var remainder := new CirBuf(4);
    Append(remainder, waiting);
    ok := Pong(remainder, [], maxBuf);
    content := remainder.PeekAllToVector();
  }
}
