/** WebSocket frames as RFC 6455 section 5.2 lays them out, independently of how they are decoded. */
module WebsocketFrames {
  import opened Bits

  const BINARY: nat := 2
  const CLOSE: nat := 8
  const PING: nat := 9
  const PONG: nat := 10
  const UNKNOWN: nat := 15

  const NO_KEY: seq<byte> := [0, 0, 0, 0]

  /** A frame; `lengthBytes` is how many bytes the extended payload length takes. */
  datatype Frame = Frame(fin: bool, opcode: nat, masked: bool, key: seq<byte>, lengthBytes: nat, payload: seq<byte>)

  /** A frame of any kind that can be laid out in bytes. */
  predicate LaidOut(f: Frame) {
    && f.opcode < 16 && |f.key| == 4 && (!f.masked ==> f.key == NO_KEY)
    && (if f.lengthBytes == 0 then |f.payload| < 126
        else f.lengthBytes in {2, 8} && |f.payload| < Pow256(f.lengthBytes))
  }

  /** Frames that carry MQTT data or keep the connection alive. A pong cannot be larger than `limit`, nor a ping. */
  predicate ValidFrame(f: Frame, limit: nat) {
    LaidOut(f) && f.opcode in {BINARY, PING, PONG} && (f.opcode != BINARY ==> |f.payload| <= limit)
  }

  function Pow256(n: nat): (r: nat)
    ensures r > 0
  {
    if n == 0 then 1 else 256 * Pow256(n - 1)
  }

  /** `x` in `n` bytes, most significant first. */
  function BigEndian(x: nat, n: nat): (r: seq<byte>)
    requires x < Pow256(n)
    ensures |r| == n
  {
    if n == 0 then [] else BigEndian(x / 256, n - 1) + [x % 256]
  }

  /** `data` with the bytes of `key` xor-ed in, starting with key byte `start`. */
  function Mask(key: seq<byte>, start: nat, data: seq<byte>): (r: seq<byte>)
    requires |key| == 4
    ensures |r| == |data|
    decreases data
  {
    if data == [] then [] else [Xor(data[0], key[start % 4])] + Mask(key, start + 1, data[1..])
  }

  function HeaderLength(f: Frame): nat {
    2 + f.lengthBytes + (if f.masked then 4 else 0)
  }

  function HeaderBytes(f: Frame): (r: seq<byte>)
    requires LaidOut(f)
    ensures |r| == HeaderLength(f)
  {
    [(if f.fin then 128 else 0) + f.opcode]
    + [(if f.masked then 128 else 0) + (if f.lengthBytes == 0 then |f.payload| else if f.lengthBytes == 2 then 126 else 127)]
    + (if f.lengthBytes == 0 then [] else BigEndian(|f.payload|, f.lengthBytes))
    + (if f.masked then f.key else [])
  }

  function FrameBytes(f: Frame): seq<byte>
    requires LaidOut(f)
  {
    HeaderBytes(f) + Mask(f.key, 0, f.payload)
  }

  predicate ValidFrames(frames: seq<Frame>, limit: nat) {
    forall f :: f in frames ==> ValidFrame(f, limit)
  }

  function Stream(frames: seq<Frame>, limit: nat): seq<byte>
    requires ValidFrames(frames, limit)
  {
    if frames == [] then []
    else
      assert frames[0] in frames;
      FrameBytes(frames[0]) + Stream(frames[1..], limit)
  }

  /** The MQTT bytes in a sequence of frames. */
  function Payloads(frames: seq<Frame>): seq<byte> {
    if frames == [] then []
    else (if frames[0].opcode == BINARY then frames[0].payload else []) + Payloads(frames[1..])
  }

  /** The payloads to pong back, in order. */
  function Pings(frames: seq<Frame>): seq<seq<byte>> {
    if frames == [] then []
    else (if frames[0].opcode == PING then [frames[0].payload] else []) + Pings(frames[1..])
  }

  // ---------- masking ----------

  lemma {:induction false} MaskTwice(key: seq<byte>, start: nat, data: seq<byte>)
    requires |key| == 4
    ensures Mask(key, start, Mask(key, start, data)) == data
    decreases data
  {
    if data != [] {
      MaskTwice(key, start + 1, data[1..]);
      XorTwice(data[0], key[start % 4]);
      assert Mask(key, start, data)[1..] == Mask(key, start + 1, data[1..]);
    }
  }

  lemma {:induction false} MaskNone(start: nat, data: seq<byte>)
    ensures Mask(NO_KEY, start, data) == data
    decreases data
  {
    if data != [] {
      MaskNone(start + 1, data[1..]);
      XorZero(data[0]);
      assert NO_KEY[start % 4] == 0;
    }
  }

  lemma {:induction false} MaskSplit(key: seq<byte>, start: nat, data: seq<byte>, k: nat)
    requires |key| == 4 && k <= |data|
    ensures Mask(key, start, data) == Mask(key, start, data[..k]) + Mask(key, start + k, data[k..])
    decreases data
  {
    if k == 0 {
      assert data[..0] == [] && data[0..] == data;
    } else {
      MaskSplit(key, start + 1, data[1..], k - 1);
      assert start + 1 + (k - 1) == start + k;
      assert data[..k][1..] == data[1..][..k - 1] && data[k..] == data[1..][k - 1..];
    }
  }

  /** Byte for byte. */
  lemma {:induction false} MaskAt(key: seq<byte>, start: nat, data: seq<byte>, i: nat)
    requires |key| == 4 && i < |data|
    ensures Mask(key, start, data)[i] == Xor(data[i], key[(start + i) % 4])
    decreases data
  {
    if i > 0 {
      MaskAt(key, start + 1, data[1..], i - 1);
    }
  }
}
