/**
 However a stream of valid frames arrives in pieces, and however much room each call is given, the
 decoder hands on exactly the binary payloads and pongs exactly the pings, in order.
 */
module WebsocketRuns {
  import opened Bits
  import opened Numbers
  import opened WebsocketFrames
  import opened WebsocketDecoder

  // ---------- parsing a header that may not be complete ----------

  lemma {:induction false} BigEndianBack(x: nat, n: nat)
    requires x < Pow256(n)
    ensures FromBigEndian(BigEndian(x, n)) == x
  {
    if n > 0 {
      BigEndianBack(x / 256, n - 1);
      var b := BigEndian(x, n);
      assert b[..|b| - 1] == BigEndian(x / 256, n - 1);
    }
  }

  lemma HeaderParts(f: Frame)
    requires LaidOut(f)
    ensures var h := HeaderBytes(f);
      && h[0] == (if f.fin then 128 else 0) + f.opcode
      && h[1] == (if f.masked then 128 else 0) + (if f.lengthBytes == 0 then |f.payload| else if f.lengthBytes == 2 then 126 else 127)
      && (f.lengthBytes > 0 ==> h[2..2 + f.lengthBytes] == BigEndian(|f.payload|, f.lengthBytes))
      && (f.masked ==> h[2 + f.lengthBytes..6 + f.lengthBytes] == f.key)
  {
  }

  lemma FirstByte(fin: bool, opcode: nat)
    requires opcode < 16
    ensures var b := (if fin then 128 else 0) + opcode; b % 16 == opcode && (b / 16) % 8 == 0
  {
  }

  lemma SecondByte(masked: bool, length7: nat)
    requires length7 < 128
    ensures var b := (if masked then 128 else 0) + length7; b % 128 == length7 && (b >= 128 <==> masked)
  {
  }

  lemma SliceOfPrefix(p: seq<byte>, n: nat, a: nat, b: nat)
    requires a <= b <= n <= |p|
    ensures p[..n][a..b] == p[a..b]
  {
  }

  lemma ParseWhole(f: Frame, p: seq<byte>)
    requires LaidOut(f) && |p| >= HeaderLength(f) && p[..HeaderLength(f)] == HeaderBytes(f)
    ensures ParseHeader(p, NO_KEY) == Parsed(HeaderLength(f), f.opcode, |f.payload|, f.key)
  {
    var h, e := HeaderBytes(f), f.lengthBytes;
    HeaderParts(f);
    assert p[0] == p[..HeaderLength(f)][0] && p[1] == p[..HeaderLength(f)][1];
    FirstByte(f.fin, f.opcode);
    SecondByte(f.masked, if e == 0 then |f.payload| else if e == 2 then 126 else 127);
    if e > 0 {
      SliceOfPrefix(p, HeaderLength(f), 2, 2 + e);
      BigEndianBack(|f.payload|, e);
    }
    if f.masked {
      SliceOfPrefix(p, HeaderLength(f), 2 + e, 6 + e);
    }
  }

  lemma ParsePart(f: Frame, p: seq<byte>)
    requires LaidOut(f) && |p| < HeaderLength(f) && p == HeaderBytes(f)[..|p|]
    ensures ParseHeader(p, NO_KEY) == NeedMore
  {
    HeaderParts(f);
    FirstByte(f.fin, f.opcode);
    SecondByte(f.masked, if f.lengthBytes == 0 then |f.payload| else if f.lengthBytes == 2 then 126 else 127);
  }

  /** The header of a valid frame is recognised as soon as all of it is there, and never mistaken before. */
  lemma ParseFrame(f: Frame, p: seq<byte>, more: seq<byte>, after: seq<byte>)
    requires LaidOut(f) && p + more == HeaderBytes(f) + after
    ensures ParseHeader(p, NO_KEY)
         == if |p| < HeaderLength(f) then NeedMore else Parsed(HeaderLength(f), f.opcode, |f.payload|, f.key)
  {
    var h := HeaderBytes(f);
    if |p| < |h| {
      assert p == (p + more)[..|p|] == h[..|p|];
      ParsePart(f, p);
    } else {
      assert p[..|h|] == (p + more)[..|h|] == h;
      ParseWhole(f, p);
    }
  }

  // ---------- the state between the wire and the output ----------

  /**
   What is still to come: `raw`, the bytes of the frame at hand that were not decoded, and `tail`, the
   frames after it. The bytes that are pending, followed by the bytes `future` that did not arrive,
   are exactly these.
   */
  ghost predicate Ahead(st: Incomplete, pending: seq<byte>, future: seq<byte>, raw: seq<byte>, tail: seq<byte>, limit: nat) {
    && (raw == [] ==> st == RESET)
    && AtFrameOrReset(st, raw, limit)
    && pending + future == raw + tail
  }

  ghost predicate AtFrameOrReset(st: Incomplete, raw: seq<byte>, limit: nat) {
    && |st.key| == 4 && st.left == |raw|
    && (st != RESET ==> st.opcode in {BINARY, PING, PONG} && (st.opcode != BINARY ==> st.left <= limit && st.keyIndex == 0))
  }

  /** The MQTT bytes still to come, when `outs` come from the frames after the one at hand. */
  ghost function OutAhead(st: Incomplete, raw: seq<byte>, outs: seq<byte>): seq<byte>
    requires |st.key| == 4
  {
    if st.opcode == BINARY then Mask(st.key, st.keyIndex, raw) + outs else outs
  }

  ghost function PongsAhead(st: Incomplete, raw: seq<byte>, pongs: seq<seq<byte>>): seq<seq<byte>>
    requires |st.key| == 4
  {
    if st.opcode == PING then [Mask(st.key, 0, raw)] + pongs else pongs
  }

  /** What an iteration does: it yields its part of what was to come, and waits only for bytes that are to arrive. */
  ghost predicate Yields(st: Incomplete, raw: seq<byte>, outs: seq<byte>, pongs: seq<seq<byte>>, i: Iteration,
                         raw': seq<byte>, outs': seq<byte>, pongs': seq<seq<byte>>, future: seq<byte>)
    requires |st.key| == 4 && |i.st.key| == 4
  {
    && i.status in {Running, Waiting}
    && OutAhead(st, raw, outs) == i.out + OutAhead(i.st, raw', outs')
    && PongsAhead(st, raw, pongs) == i.pongs + PongsAhead(i.st, raw', pongs')
    && (i.status == Waiting ==> future != [])
  }

  lemma EmptyFirst<T>(s: seq<T>)
    ensures [] + s == s
  {
  }

  lemma DropBoth(pending: seq<byte>, future: seq<byte>, raw: seq<byte>, tail: seq<byte>, n: nat)
    requires pending + future == raw + tail && n <= |pending| && n <= |raw|
    ensures pending[..n] == raw[..n] && pending[n..] + future == raw[n..] + tail
  {
    var whole := pending + future;
    assert pending[..n] == whole[..n] == raw[..n];
    assert pending[n..] + future == whole[n..] == raw[n..] + tail;
  }

  lemma BinaryOut(key: seq<byte>, start: nat, raw: seq<byte>, n: nat, after: seq<byte>)
    requires |key| == 4 && n <= |raw|
    ensures Mask(key, start, raw) + after
         == Mask(key, start, raw[..n]) + (if raw[n..] != [] then Mask(key, start + n, raw[n..]) + after else after)
  {
    MaskSplit(key, start, raw, n);
    var a, b := Mask(key, start, raw[..n]), Mask(key, start + n, raw[n..]);
    assert (a + b) + after == a + (b + after);
    if raw[n..] == [] { assert b + after == after; }
  }

  /** The body of an iteration, for a frame whose header was read; its payload may be empty. */
  lemma BodyYields(st: Incomplete, pending: seq<byte>, future: seq<byte>, raw: seq<byte>, tail: seq<byte>,
                   outs: seq<byte>, pongs: seq<seq<byte>>, room: nat, limit: nat) returns (raw': seq<byte>)
    requires AtFrameOrReset(st, raw, limit) && st.opcode != UNKNOWN && pending + future == raw + tail
    ensures var i := Body(st, pending, room, limit);
      Ahead(i.st, i.pending, future, raw', tail, limit) && Yields(st, raw, outs, pongs, i, raw', outs, pongs, future)
  {
    EmptyFirst(outs);
    EmptyFirst(pongs);
    if st.opcode == BINARY {
      var n := Min(Min(|pending|, st.left), room);
      DropBoth(pending, future, raw, tail, n);
      raw' := raw[n..];
      BinaryOut(st.key, st.keyIndex, raw, n, outs);
    } else if st.left > |pending| {
      raw' := raw;
      EmptyFirst(PongsAhead(st, raw, pongs));
      assert |pending| + |future| == |raw| + |tail|;
    } else {
      raw' := [];
      DropBoth(pending, future, raw, tail, st.left);
      assert raw[..st.left] == raw && raw[st.left..] == [];
    }
  }

  /** The decoder's state right after it took the header of `f`. */
  ghost function Begun(f: Frame): Incomplete {
    Incomplete(|f.payload|, f.key, 0, f.opcode)
  }

  /** A stream is a header, a masked payload, and the rest of the stream. */
  lemma StreamParts(rest: seq<Frame>, limit: nat)
    requires ValidFrames(rest, limit) && rest != []
    ensures ValidFrame(rest[0], limit)
    ensures Stream(rest, limit) == HeaderBytes(rest[0]) + (Mask(rest[0].key, 0, rest[0].payload) + Stream(rest[1..], limit))
  {
    assert rest[0] in rest;
    Append(HeaderBytes(rest[0]), Mask(rest[0].key, 0, rest[0].payload), Stream(rest[1..], limit));
  }

  /** Taking the header of the next frame changes nothing about what is to come. */
  lemma BegunAhead(f: Frame, outs: seq<byte>, pongs: seq<seq<byte>>, limit: nat)
    requires ValidFrame(f, limit)
    ensures var m := Mask(f.key, 0, f.payload);
      && AtFrameOrReset(Begun(f), m, limit) && f.opcode != UNKNOWN
      && (if f.opcode == BINARY then f.payload else []) + outs == OutAhead(Begun(f), m, outs)
      && (if f.opcode == PING then [f.payload] else []) + pongs == PongsAhead(Begun(f), m, pongs)
  {
    MaskTwice(f.key, 0, f.payload);
    EmptyFirst(outs);
    EmptyFirst(pongs);
  }

  /** Mid-stream, with the frames `rest` after the one at hand. */
  ghost predicate MidStream(st: Incomplete, pending: seq<byte>, future: seq<byte>, raw: seq<byte>, rest: seq<Frame>, limit: nat) {
    ValidFrames(rest, limit) && Ahead(st, pending, future, raw, Stream(rest, limit), limit)
  }

  /** What was to come splits into what was produced and what is to come now. */
  ghost predicate Produces(st: Incomplete, raw: seq<byte>, rest: seq<Frame>, i: Iteration, raw': seq<byte>, rest': seq<Frame>, future: seq<byte>)
    requires |st.key| == 4 && |i.st.key| == 4
  {
    Yields(st, raw, Payloads(rest), Pings(rest), i, raw', Payloads(rest'), Pings(rest'), future)
  }

  /** One iteration makes progress, and waits only for bytes that are still to arrive. */
  lemma StepProduces(st: Incomplete, pending: seq<byte>, future: seq<byte>, raw: seq<byte>, rest: seq<Frame>, room: nat, limit: nat)
    returns (raw': seq<byte>, rest': seq<Frame>)
    requires MidStream(st, pending, future, raw, rest, limit) && pending != []
    ensures var i := Step(st, pending, room, limit);
      MidStream(i.st, i.pending, future, raw', rest', limit) && Produces(st, raw, rest, i, raw', rest', future)
  {
    if raw != [] {
      rest' := rest;
      raw' := BodyYields(st, pending, future, raw, Stream(rest, limit), Payloads(rest), Pings(rest), room, limit);
    } else {
      raw', rest' := NextFrame(pending, future, rest, room, limit);
    }
  }

  lemma NextFrame(pending: seq<byte>, future: seq<byte>, rest: seq<Frame>, room: nat, limit: nat)
    returns (raw': seq<byte>, rest': seq<Frame>)
    requires MidStream(RESET, pending, future, [], rest, limit) && pending != []
    ensures var i := Step(RESET, pending, room, limit);
      MidStream(i.st, i.pending, future, raw', rest', limit) && Produces(RESET, [], rest, i, raw', rest', future)
  {
    EmptyFirst(Stream(rest, limit));
    StreamParts(rest, limit);
    var f, after := rest[0], Stream(rest[1..], limit);
    var h, m := HeaderBytes(f), Mask(f.key, 0, f.payload);
    ParseFrame(f, pending, future, m + after);
    if |pending| < |h| {
      raw', rest' := [], rest;
      EmptyFirst(Payloads(rest));
      EmptyFirst(Pings(rest));
      assert |pending| + |future| >= |h|;
    } else {
      rest' := rest[1..];
      DropBoth(pending, future, h, m + after, |h|);
      EmptyFirst(m + after);
      BegunAhead(f, Payloads(rest'), Pings(rest'), limit);
      raw' := BodyYields(Begun(f), pending[|h|..], future, m, after, Payloads(rest'), Pings(rest'), room, limit);
    }
  }

  /** A whole call makes progress; if it returns with room left and nothing is to arrive, everything is decoded. */
  lemma {:induction false} ReadProduces(st: Incomplete, pending: seq<byte>, future: seq<byte>, raw: seq<byte>, rest: seq<Frame>,
                                        room: nat, limit: nat) returns (raw': seq<byte>, rest': seq<Frame>)
    requires MidStream(st, pending, future, raw, rest, limit)
    ensures var i := Read(st, pending, room, limit);
      && MidStream(i.st, i.pending, future, raw', rest', limit) && Produces(st, raw, rest, i, raw', rest', future)
      && |i.out| <= room
      && (|i.out| < room && future == [] ==> i.pending == [])
    decreases |pending|
  {
    if pending == [] || room == 0 {
      raw', rest' := raw, rest;
      EmptyFirst(OutAhead(st, raw, Payloads(rest)));
      EmptyFirst(PongsAhead(st, raw, Pings(rest)));
    } else {
      StepConsumes(st, pending, room, limit);
      var i := Step(st, pending, room, limit);
      var raw1, rest1 := StepProduces(st, pending, future, raw, rest, room, limit);
      if i.status != Running {
        raw', rest' := raw1, rest1;
      } else {
        raw', rest' := ReadProduces(i.st, i.pending, future, raw1, rest1, room - |i.out|, limit);
        var r := Read(i.st, i.pending, room - |i.out|, limit);
        Append(i.out, r.out, OutAhead(r.st, raw', Payloads(rest')));
        Append(i.pongs, r.pongs, PongsAhead(r.st, raw', Pings(rest')));
      }
    }
  }

  lemma Append<T>(a: seq<T>, b: seq<T>, c: seq<T>)
    ensures a + (b + c) == (a + b) + c
  {
  }

  // ---------- runs ----------

  /** Bytes arrive from the socket, or the client asks for at most `room` bytes. */
  datatype Event = Arrive(bytes: seq<byte>) | Ask(room: nat)

  datatype Run = Run(st: Incomplete, pending: seq<byte>, out: seq<byte>, pongs: seq<seq<byte>>, status: Status)

  function Happen(r: Run, ev: Event, limit: nat): (r': Run)
    requires |r.st.key| == 4
    ensures |r'.st.key| == 4
  {
    match ev
    case Arrive(bytes) => r.(pending := r.pending + bytes)
    case Ask(room) =>
      ReadKeepsKey(r.st, r.pending, room, limit);
      var i := Read(r.st, r.pending, room, limit);
      Run(i.st, i.pending, r.out + i.out, r.pongs + i.pongs, i.status)
  }

  function Arrivals(events: seq<Event>): seq<byte> {
    if events == [] then [] else (if events[0].Arrive? then events[0].bytes else []) + Arrivals(events[1..])
  }

  const START: Run := Run(RESET, [], [], [], Running)

  lemma ReadKeepsKey(st: Incomplete, pending: seq<byte>, room: nat, limit: nat)
    requires |st.key| == 4
    ensures |Read(st, pending, room, limit).st.key| == 4
    decreases |pending|
  {
    if pending != [] && room != 0 {
      StepConsumes(st, pending, room, limit);
      var i := Step(st, pending, room, limit);
      if i.status == Running { ReadKeepsKey(i.st, i.pending, room - |i.out|, limit); }
    }
  }

  function After(r: Run, events: seq<Event>, limit: nat): (r': Run)
    requires |r.st.key| == 4
    ensures |r'.st.key| == 4
    decreases events
  {
    if events == [] then r else After(Happen(r, events[0], limit), events[1..], limit)
  }

  /** Output so far and output to come make up all the output, and nothing went wrong. */
  ghost predicate OnTrack(r: Run, future: seq<byte>, raw: seq<byte>, rest: seq<Frame>, frames: seq<Frame>, limit: nat) {
    && MidStream(r.st, r.pending, future, raw, rest, limit)
    && r.out + OutAhead(r.st, raw, Payloads(rest)) == Payloads(frames)
    && r.pongs + PongsAhead(r.st, raw, Pings(rest)) == Pings(frames)
    && r.status in {Running, Waiting}
  }

  lemma AskKeeps(r: Run, room: nat, future: seq<byte>, raw: seq<byte>, rest: seq<Frame>, frames: seq<Frame>, limit: nat)
    returns (raw': seq<byte>, rest': seq<Frame>)
    requires OnTrack(r, future, raw, rest, frames, limit)
    ensures var r' := Happen(r, Ask(room), limit);
      && OnTrack(r', future, raw', rest', frames, limit)
      && |r'.out| <= |r.out| + room
      && (|r'.out| < |r.out| + room && future == [] ==> r'.pending == [])
  {
    raw', rest' := ReadProduces(r.st, r.pending, future, raw, rest, room, limit);
    var i := Read(r.st, r.pending, room, limit);
    Append(r.out, i.out, OutAhead(i.st, raw', Payloads(rest')));
    Append(r.pongs, i.pongs, PongsAhead(i.st, raw', Pings(rest')));
  }

  lemma {:induction false} RunKeeps(r: Run, events: seq<Event>, later: seq<byte>, raw: seq<byte>, rest: seq<Frame>,
                                    frames: seq<Frame>, limit: nat) returns (raw': seq<byte>, rest': seq<Frame>)
    requires |r.st.key| == 4 && OnTrack(r, Arrivals(events) + later, raw, rest, frames, limit)
    ensures OnTrack(After(r, events, limit), later, raw', rest', frames, limit)
    decreases events
  {
    if events == [] {
      EmptyFirst(later);
      raw', rest' := raw, rest;
    } else {
      var next := Happen(r, events[0], limit);
      var future := Arrivals(events[1..]) + later;
      var raw1, rest1 := raw, rest;
      match events[0] {
        case Arrive(bytes) =>
          Append(bytes, Arrivals(events[1..]), later);
          Append(r.pending, bytes, future);
        case Ask(room) =>
          EmptyFirst(Arrivals(events[1..]));
          raw1, rest1 := AskKeeps(r, room, future, raw, rest, frames, limit);
      }
      raw', rest' := RunKeeps(next, events[1..], later, raw1, rest1, frames, limit);
    }
  }

  lemma Started(frames: seq<Frame>, limit: nat)
    requires ValidFrames(frames, limit)
    ensures OnTrack(START, Stream(frames, limit), [], frames, frames, limit)
  {
    EmptyFirst(Stream(frames, limit));
    EmptyFirst(Payloads(frames));
    EmptyFirst(Pings(frames));
  }

  /**
   Decoding does not depend on chunking: while any stream of valid frames arrives, in any pieces and
   with any requests in between, the output is a prefix of the concatenated binary payloads, the
   pongs are a prefix of the pings, and no error occurs; and once all of it arrived, a request that
   is not filled up completes both.
   */
  lemma DecodingIgnoresChunking(frames: seq<Frame>, events: seq<Event>, later: seq<byte>, room: nat, limit: nat)
    requires ValidFrames(frames, limit) && Arrivals(events) + later == Stream(frames, limit)
    ensures var r := After(START, events, limit);
      && r.status in {Running, Waiting}
      && r.out <= Payloads(frames) && r.pongs <= Pings(frames)
    ensures var r := After(START, events, limit);
      var r' := Happen(r, Ask(room), limit);
      later == [] && |r'.out| < |r.out| + room ==> r'.out == Payloads(frames) && r'.pongs == Pings(frames)
  {
    Started(frames, limit);
    var raw, rest := RunKeeps(START, events, later, [], frames, frames, limit);
    var r := After(START, events, limit);
    var raw', rest' := AskKeeps(r, room, later, raw, rest, frames, limit);
    if later == [] && |Happen(r, Ask(room), limit).out| < |r.out| + room {
      NothingLeft(Happen(r, Ask(room), limit), raw', rest', frames, limit);
    }
  }

  lemma NothingLeft(r: Run, raw: seq<byte>, rest: seq<Frame>, frames: seq<Frame>, limit: nat)
    requires OnTrack(r, [], raw, rest, frames, limit) && r.pending == []
    ensures r.out == Payloads(frames) && r.pongs == Pings(frames)
  {
  }

  // ---------- frames that end the connection ----------

  /** What the decoder makes of a frame it does not go on after; 2, 8, 9 and 10 are binary, close, ping and pong. */
  predicate Ends(f: Frame, limit: nat, status: Status) {
    match status
    case Closed => f.opcode == 8 && |f.payload| <= limit
    case BadClient => f.opcode !in {2, 8, 9, 10} || (f.opcode != 2 && |f.payload| > limit)
    case _ => false
  }

  /** The iteration that meets it, with nothing of another frame at hand. */
  ghost predicate EndsAt(p: seq<byte>, room: nat, limit: nat, status: Status) {
    var i := Step(RESET, p, room, limit);
    i.out == [] && i.pongs == [] && i.status == status && (status == Closed ==> i.st == RESET && i.pending == [])
  }

  lemma EndsReading(f: Frame, more: seq<byte>, room: nat, limit: nat, status: Status)
    requires LaidOut(f) && Ends(f, limit, status)
    ensures EndsAt(FrameBytes(f) + more, room, limit, status)
  {
    var h, m := HeaderBytes(f), Mask(f.key, 0, f.payload);
    Append(h, m, more);
    ParseFrame(f, FrameBytes(f) + more, [], m + more);
    assert (FrameBytes(f) + more)[|h|..] == m + more;
    assert FrameBytes(f) + more + [] == h + (m + more);
  }

  /** A reserved bit is an error as soon as two bytes of the header are there. */
  lemma ReservedBitEndsReading(p: seq<byte>, room: nat, limit: nat)
    requires |p| >= 2 && (p[0] / 0x10) % 8 != 0 && room > 0
    ensures Read(RESET, p, room, limit) == Iteration(RESET, p, [], [], BadClient)
  {
  }

  /** An iteration that takes in one frame, or the rest of one, whole. */
  lemma BodyThrough(st: Incomplete, raw: seq<byte>, after: seq<byte>, room: nat, limit: nat)
    requires AtFrameOrReset(st, raw, limit) && st.opcode != UNKNOWN && |OutAhead(st, raw, [])| < room
    ensures Body(st, raw + after, room, limit) == Iteration(RESET, after, OutAhead(st, raw, []), PongsAhead(st, raw, []), Running)
  {
    assert (raw + after)[..|raw|] == raw && (raw + after)[|raw|..] == after;
    if st.opcode == BINARY { assert Mask(st.key, st.keyIndex, raw) + [] == Mask(st.key, st.keyIndex, raw); }
    if st.opcode == PING { assert [Mask(st.key, 0, raw)] + [] == [Mask(st.key, 0, raw)]; }
  }

  lemma StepThrough(f: Frame, after: seq<byte>, room: nat, limit: nat)
    requires ValidFrame(f, limit) && room > 0 && (f.opcode == BINARY ==> |f.payload| < room)
    ensures var i := Step(RESET, FrameBytes(f) + after, room, limit);
      i == Iteration(RESET, after, if f.opcode == BINARY then f.payload else [], if f.opcode == PING then [f.payload] else [], Running)
  {
    var h, m := HeaderBytes(f), Mask(f.key, 0, f.payload);
    Append(h, m, after);
    ParseFrame(f, FrameBytes(f) + after, [], m + after);
    assert (FrameBytes(f) + after)[|h|..] == m + after;
    assert FrameBytes(f) + after + [] == h + (m + after);
    MaskTwice(f.key, 0, f.payload);
    BodyThrough(Begun(f), m, after, room, limit);
  }

  /** Mid-stream, with `p` after the frames `rest`, and room for what they hold. */
  ghost predicate Before(st: Incomplete, pending: seq<byte>, raw: seq<byte>, rest: seq<Frame>, p: seq<byte>, room: nat, limit: nat) {
    && AtFrameOrReset(st, raw, limit) && (raw == [] ==> st == RESET) && ValidFrames(rest, limit)
    && pending == raw + (Stream(rest, limit) + p) && |OutAhead(st, raw, Payloads(rest))| < room
  }

  /** One iteration takes in the next frame, or the rest of the one at hand. */
  lemma StepOverFrame(st: Incomplete, pending: seq<byte>, raw: seq<byte>, rest: seq<Frame>, p: seq<byte>, room: nat, limit: nat)
    returns (raw': seq<byte>, rest': seq<Frame>)
    requires Before(st, pending, raw, rest, p, room, limit) && (raw != [] || rest != [])
    ensures var i := Step(st, pending, room, limit);
      && i.status == Running && |i.pending| < |pending| && |i.out| <= room && Before(i.st, i.pending, raw', rest', p, room - |i.out|, limit)
      && OutAhead(st, raw, Payloads(rest)) == i.out + OutAhead(i.st, raw', Payloads(rest'))
      && PongsAhead(st, raw, Pings(rest)) == i.pongs + PongsAhead(i.st, raw', Pings(rest'))
  {
    raw' := [];
    if raw != [] {
      rest' := rest;
      BodyThrough(st, raw, Stream(rest, limit) + p, room, limit);
      JoinsAhead(st, raw, Payloads(rest), Pings(rest));
    } else {
      rest' := rest[1..];
      assert rest[0] in rest;
      EmptyFirst(Stream(rest, limit) + p);
      Append(FrameBytes(rest[0]), Stream(rest', limit), p);
      StepThrough(rest[0], Stream(rest', limit) + p, room, limit);
    }
    EmptyFirst(Stream(rest', limit) + p);
  }

  lemma JoinsAhead(st: Incomplete, raw: seq<byte>, outs: seq<byte>, pongs: seq<seq<byte>>)
    requires |st.key| == 4
    ensures OutAhead(st, raw, []) + outs == OutAhead(st, raw, outs) && PongsAhead(st, raw, []) + pongs == PongsAhead(st, raw, pongs)
  {
  }

  /** How such a call ends. */
  ghost predicate EndsWith(st: Incomplete, raw: seq<byte>, rest: seq<Frame>, i: Iteration, status: Status)
    requires |st.key| == 4
  {
    && i.out == OutAhead(st, raw, Payloads(rest)) && i.pongs == PongsAhead(st, raw, Pings(rest)) && i.status == status
    && (status == Closed ==> i.st == RESET && i.pending == [])
  }

  /** An iteration, and how the call ends that goes on after it. */
  lemma EndsAfter(st: Incomplete, raw: seq<byte>, rest: seq<Frame>, i: Iteration, raw': seq<byte>, rest': seq<Frame>, r: Iteration, status: Status)
    requires |st.key| == 4 && |i.st.key| == 4 && EndsWith(i.st, raw', rest', r, status)
    requires OutAhead(st, raw, Payloads(rest)) == i.out + OutAhead(i.st, raw', Payloads(rest'))
    requires PongsAhead(st, raw, Pings(rest)) == i.pongs + PongsAhead(i.st, raw', Pings(rest'))
    ensures EndsWith(st, raw, rest, r.(out := i.out + r.out, pongs := i.pongs + r.pongs), status)
  {
  }

  lemma EndsNow(p: seq<byte>, pending: seq<byte>, room: nat, limit: nat, status: Status)
    requires p != [] && pending == [] + ([] + p) && status != Running && EndsAt(p, room, limit, status) && room > 0
    ensures EndsWith(RESET, [], [], Read(RESET, pending, room, limit), status)
  {
    EmptyFirst(p);
  }

  /** A call with room for all of them reads through whole frames, up to one that ends the connection. */
  lemma {:induction false} ReadEnds(st: Incomplete, pending: seq<byte>, raw: seq<byte>, rest: seq<Frame>, p: seq<byte>,
                                    room: nat, limit: nat, status: Status)
    requires Before(st, pending, raw, rest, p, room, limit)
    requires p != [] && status != Running && forall room' :: EndsAt(p, room', limit, status)
    ensures EndsWith(st, raw, rest, Read(st, pending, room, limit), status)
    decreases |pending|
  {
    if raw == [] && rest == [] {
      assert EndsAt(p, room, limit, status);
      EndsNow(p, pending, room, limit, status);
    } else {
      StepConsumes(st, pending, room, limit);
      var i := Step(st, pending, room, limit);
      var raw1, rest1 := StepOverFrame(st, pending, raw, rest, p, room, limit);
      ReadEnds(i.st, i.pending, raw1, rest1, p, room - |i.out|, limit, status);
      var r := Read(i.st, i.pending, room - |i.out|, limit);
      EndsAfter(st, raw, rest, i, raw1, rest1, r, status);
    }
  }

  /**
   However valid frames arrived in pieces, with whatever was asked for in between: once the rest of them
   has come and then a close frame, one of an unknown kind, or a control frame over the limit, a request
   with room for all of it hands on the payloads of the valid frames, pongs their pings, and ends with
   the status for that frame. After a close, all that was pending is dropped.
   */
  lemma RunEnds(frames: seq<Frame>, events: seq<Event>, later: seq<byte>, f: Frame, more: seq<byte>, room: nat, limit: nat, status: Status)
    requires ValidFrames(frames, limit) && Arrivals(events) + later == Stream(frames, limit)
    requires LaidOut(f) && Ends(f, limit, status) && room > |Payloads(frames)|
    ensures var r := Happen(Happen(After(START, events, limit), Arrive(later + (FrameBytes(f) + more)), limit), Ask(room), limit);
      && r.out == Payloads(frames) && r.pongs == Pings(frames) && r.status == status
      && (status == Closed ==> r.st == RESET && r.pending == [])
  {
    Started(frames, limit);
    var raw, rest := RunKeeps(START, events, later, [], frames, frames, limit);
    var r, p := After(START, events, limit), FrameBytes(f) + more;
    Append(r.pending, later, p);
    Append(raw, Stream(rest, limit), p);
    forall room' ensures EndsAt(p, room', limit, status) {
      EndsReading(f, more, room', limit, status);
    }
    ReadEnds(r.st, r.pending + (later + p), raw, rest, p, room, limit, status);
  }
}
