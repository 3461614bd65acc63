/** The variable byte integers of section 1.5.5 of MQTT 5.0, and the loops that write and read them. */
module VariableByteInts {
  import opened Bits

  const MAX_VALUE: nat := 268_435_455

  function Pow128(k: nat): (r: nat)
    ensures r > 0
  {
    if k == 0 then 1 else 128 * Pow128(k - 1)
  }

  function Encode(x: nat): (r: seq<byte>)
    ensures |r| > 0
  {
    if x < 128 then [x] else [x % 128 + 128] + Encode(x / 128)
  }

  datatype Decoded = NeedMore | Malformed | Value(value: nat, length: nat)

  /** The integer at the front of `b`, from its k-th byte on; four bytes is all it can have. */
  function Decode(b: seq<byte>, k: nat): Decoded
    requires k <= 4
    decreases 4 - k
  {
    if k == 4 then Malformed
    else if |b| <= k then NeedMore
    else
      var low := (b[k] % 128) * Pow128(k);
      if b[k] < 128 then Value(low, k + 1)
      else
        match Decode(b, k + 1)
        case Value(value, length) => Value(low + value, length)
        case other => other
  }

  /** More bytes do not change what was recognised. */
  lemma {:induction false} DecodeStable(b: seq<byte>, more: seq<byte>, k: nat)
    requires k <= 4 && Decode(b, k) != NeedMore
    ensures Decode(b + more, k) == Decode(b, k)
    ensures Decode(b, k).Value? ==> k < Decode(b, k).length <= |b|
    decreases 4 - k
  {
    if k < 4 && b[k] >= 128 {
      DecodeStable(b, more, k + 1);
    }
  }

  /** One round of the length loop: the byte just read, and the rest of the integer. */
  lemma DecodeRound(b: seq<byte>, k: nat, packet_length: nat, multiplier: nat)
    requires k < 4 && k < |b| && multiplier == Pow128(k)
    ensures var low := packet_length + (b[k] % 128) * multiplier;
      Later(Decode(b, k), packet_length) == if b[k] < 128 then Value(low, k + 1) else Later(Decode(b, k + 1), low)
    ensures multiplier * 128 == Pow128(k + 1) && (b[k] % 128) * multiplier >= 0
  {
  }

  function Later(rest: Decoded, packet_length: nat): Decoded {
    if rest.Value? then Value(packet_length + rest.value, rest.length) else rest
  }

  lemma Recombine(x: nat, p: nat)
    ensures (x % 128) * p + (x / 128) * (128 * p) == x * p
  {
  }

  /** What was encoded is decoded again, in place, and with the same length. */
  lemma {:induction false} DecodeEncoded(b: seq<byte>, k: nat, x: nat, rest: seq<byte>)
    requires k < 4 && |b| == k && x < Pow128(4 - k)
    ensures |Encode(x)| <= 4 - k
    ensures Decode(b + Encode(x) + rest, k) == Value(x * Pow128(k), k + |Encode(x)|)
    decreases 4 - k
  {
    var e, p := Encode(x), Pow128(k);
    var whole := b + e + rest;
    assert whole[k] == e[0];
    if x >= 128 {
      assert x / 128 < Pow128(3 - k);
      assert k < 3;
      var b' := b + [e[0]];
      assert whole == b' + Encode(x / 128) + rest;
      DecodeEncoded(b', k + 1, x / 128, rest);
      Recombine(x, p);
    }
  }

  lemma RoundTrip(x: nat, rest: seq<byte>)
    requires x <= MAX_VALUE
    ensures Decode(Encode(x) + rest, 0) == Value(x, |Encode(x)|) && |Encode(x)| <= 4
  {
    assert Pow128(4) == MAX_VALUE + 1 by {
      assert Pow128(2) == 16_384;
    }
    DecodeEncoded([], 0, x, rest);
    assert [] + Encode(x) + rest == Encode(x) + rest;
  }

  /** The borders in the table of section 1.5.5 of MQTT 5.0. */
  lemma EncodedBorders()
    ensures Encode(0) == [0x00] && Encode(127) == [0x7F]
    ensures Encode(128) == [0x80, 0x01] && Encode(16_383) == [0xFF, 0x7F]
    ensures Encode(16_384) == [0x80, 0x80, 0x01] && Encode(2_097_151) == [0xFF, 0xFF, 0x7F]
    ensures Encode(2_097_152) == [0x80, 0x80, 0x80, 0x01] && Encode(268_435_455) == [0xFF, 0xFF, 0xFF, 0x7F]
  {
  }

  /** VariableByteInt::operator=. */
  method Assign(val: nat) returns (ok: bool, bytes: seq<byte>)
    ensures ok == (val <= MAX_VALUE)
    ensures ok ==> bytes == Encode(val)
  {
    if val > MAX_VALUE {
      return false, [];
    }
    bytes := [];
    var x := val;
    while x >= 128
      invariant bytes + Encode(x) == Encode(val)
    {
      assert bytes + ([x % 128 + 128] + Encode(x / 128)) == (bytes + [x % 128 + 128]) + Encode(x / 128);
      bytes := bytes + [x % 128 + 128];
      x := x / 128;
    }
    bytes := bytes + [x];
    ok := true;
  }
}
