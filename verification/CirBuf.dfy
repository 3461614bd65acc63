/** The circular buffer: masked index arithmetic over a power-of-two array is a first-in, first-out byte sequence. */
module CirBufs {
  import opened Bits

  /** One past the largest capacity that doubleCapacity accepts; capacities are powers of two from 1 to half of it. */
  const CAPACITY_LIMIT: int := 0x8000_0000

  ghost predicate Capacity(size: int, exponent: nat) {
    exponent <= 30 && size == Pow2(exponent)
  }

  /** The array index `i` places after `start`. */
  function Slot(size: nat, start: nat, i: nat): nat {
    if start + i < size then start + i else start + i - size
  }

  /** The `n` bytes from `start` on, wrapping around at the end. */
  ghost function Ring(bytes: seq<byte>, start: nat, n: nat): (r: seq<byte>)
    requires start < |bytes| && n <= |bytes|
    ensures |r| == n
  {
    seq(n, i requires 0 <= i < n => bytes[Slot(|bytes|, start, i)])
  }

  /** The number of bytes between tail and head. */
  function Used(size: nat, head: nat, tail: nat): nat
    requires head < size && tail < size
  {
    if tail <= head then head - tail else head + size - tail
  }

  lemma MaskedIs(x: int, size: nat, exponent: nat)
    requires Capacity(size, exponent) && 0 - size <= x < 2 * size
    ensures size <= 0x4000_0000
    ensures And(Uint32(x), size - 1) == if x < 0 then x + size else if x < size then x else x - size
  {
    PowFits(exponent);
    MaskUint32(x, exponent);
    if x < 0 {
      ModUnique(x, size, -1, x + size);
    } else if x < size {
      ModUnique(x, size, 0, x);
    } else {
      ModUnique(x, size, 1, x - size);
    }
  }

  lemma PowFits(exponent: nat)
    requires exponent <= 30
    ensures 1 <= Pow2(exponent) <= 0x4000_0000
    ensures exponent < 30 ==> Pow2(exponent) <= 0x2000_0000
  {
    PowMonotone(exponent, 30);
    if exponent < 30 { PowMonotone(exponent, 29); }
    Pow2Of32();
    assert Pow2(32) == 4 * Pow2(30) && Pow2(30) == 2 * Pow2(29);
  }

  lemma {:induction false} PowMonotone(a: nat, b: nat)
    requires a <= b
    ensures Pow2(a) <= Pow2(b)
    ensures a < b ==> 2 * Pow2(a) <= Pow2(b)
    decreases b
  {
    if a < b { PowMonotone(a, b - 1); }
  }

  lemma RingSplit(bytes: seq<byte>, start: nat, n: nat, m: nat)
    requires start < |bytes| && n + m <= |bytes| && n < |bytes|
    ensures Ring(bytes, start, n + m) == Ring(bytes, start, n) + Ring(bytes, Slot(|bytes|, start, n), m)
  {
  }

  /** A stretch that does not reach the end of the array is a slice. */
  lemma RingIsSlice(bytes: seq<byte>, start: nat, n: nat)
    requires start < |bytes| && start + n <= |bytes|
    ensures Ring(bytes, start, n) == bytes[start..start + n]
  {
  }

  lemma HeadMoves(bytes: seq<byte>, head: nat, tail: nat, n: nat, written: seq<byte>, taken: nat)
    requires head < |bytes| && tail < |bytes| && n <= |bytes| - 1 - Used(|bytes|, head, tail)
    requires taken <= |written| && Ring(bytes, tail, Used(|bytes|, head, tail)) == written[taken..]
    ensures var used, head' := Used(|bytes|, head, tail), Slot(|bytes|, head, n);
      && Used(|bytes|, head', tail) == used + n
      && Ring(bytes, tail, used + n) == Ring(bytes, tail, used) + Ring(bytes, head, n) == (written + Ring(bytes, head, n))[taken..]
  {
    RingSplit(bytes, tail, Used(|bytes|, head, tail), n);
    assert (written + Ring(bytes, head, n))[taken..] == written[taken..] + Ring(bytes, head, n);
  }

  lemma TailMoves(bytes: seq<byte>, head: nat, tail: nat, n: nat, written: seq<byte>, taken: nat)
    requires head < |bytes| && tail < |bytes| && n <= Used(|bytes|, head, tail)
    requires taken <= |written| && Ring(bytes, tail, Used(|bytes|, head, tail)) == written[taken..]
    ensures var used, tail' := Used(|bytes|, head, tail), Slot(|bytes|, tail, n);
      && Used(|bytes|, head, tail') == used - n
      && Ring(bytes, tail', used - n) == Ring(bytes, tail, used)[n..] == written[taken + n..]
  {
    var used := Used(|bytes|, head, tail);
    RingSplit(bytes, tail, n, used - n);
    assert written[taken..][n..] == written[taken + n..];
  }

  // ---------- growth ----------

  /** The capacity that ensureFreeSpace asks for, doubling from `size` on. */
  function Grow(size: nat, used: nat, n: nat, max: nat): (r: nat)
    requires size > 0
    ensures r >= size
    decreases max - size
  {
    if size - used - 1 < n && size < max then Grow(2 * size, used, n, max) else size
  }

  function GrownSize(size: nat, used: nat, n: nat, max: nat): (r: nat)
    requires used < size
    ensures r >= size
  {
    if n <= size - 1 - used then size else Grow(size, used, n, max)
  }

  /** `size`, doubled `j` times. */
  function Doubled(size: nat, j: nat): nat {
    if j == 0 then size else 2 * Doubled(size, j - 1)
  }

  /** Growth stops with room enough or at the maximum, and overshoots the maximum by less than a factor of two. */
  lemma {:induction false} GrowStops(size: nat, used: nat, n: nat, max: nat)
    requires size > used
    ensures var g := Grow(size, used, n, max);
      && g >= size
      && (g - used - 1 >= n || g >= max)
      && (g == size || g < 2 * max)
      && (g == size || g < 2 * (n + used + 1))
    decreases max - size
  {
    if size - used - 1 < n && size < max {
      GrowStops(2 * size, used, n, max);
    }
  }

  lemma {:induction false} GrowIsCapacity(size: nat, exponent: nat, used: nat, n: nat, max: nat) returns (e: nat)
    requires size == Pow2(exponent)
    ensures Grow(size, used, n, max) == Pow2(e) && e >= exponent
    decreases max - size
  {
    e := exponent;
    if size - used - 1 < n && size < max {
      e := GrowIsCapacity(2 * size, exponent + 1, used, n, max);
    }
  }

  class CirBuf {
    var buf: array<byte>
    var head: nat
    var tail: nat
    var size: nat
    var primedForSizeReset: bool
    ghost var exponent: nat

    /** The history: every byte written, and how many of them were read or dropped. */
    ghost var written: seq<byte>
    ghost var taken: nat

    ghost predicate Valid()
      reads this, buf
    {
      && Capacity(size, exponent) && buf.Length == size
      && head < size && tail < size
      && taken <= |written| && Contents() == written[taken..]
    }

    ghost function Contents(): seq<byte>
      reads this, buf
      requires head < size && tail < size && buf.Length == size
    {
      Ring(buf[..], tail, Used(size, head, tail))
    }

    constructor (exponent: nat)
      requires exponent <= 30
      ensures Valid() && fresh(buf) && size == Pow2(exponent) && Contents() == [] && written == []
    {
      size := Pow2(exponent);
      this.exponent := exponent;
      buf := new byte[Pow2(exponent)];
      head, tail, primedForSizeReset := 0, 0, false;
      written, taken := [], 0;
    }

    function UsedBytes(): (r: nat)
      reads this, buf
      requires Valid()
      ensures r == |Contents()|
    {
      MaskedIs(head - tail, size, exponent);
      And(Uint32(head - tail), size - 1)
    }

    function FreeSpace(): (r: nat)
      reads this, buf
      requires Valid()
      ensures r == size - 1 - |Contents()|
    {
      MaskedIs(tail - (head + 1), size, exponent);
      And(Uint32(tail - (head + 1)), size - 1)
    }

    /** The free bytes from head on that lie in one piece. */
    function MaxWriteSize(): (r: nat)
      reads this, buf
      requires Valid()
      ensures r <= size - 1 - |Contents()| && head + r <= size
      ensures r == size - 1 - |Contents()| || head + r == size
    {
      var end := size - 1 - head;
      MaskedIs(end + tail, size, exponent);
      var n := And(Uint32(end + tail), size - 1);
      if n <= end then n else end + 1
    }

    /** The used bytes from tail on that lie in one piece. */
    function MaxReadSize(): (r: nat)
      reads this, buf
      requires Valid()
      ensures r <= |Contents()| && tail + r <= size
      ensures r == |Contents()| || tail + r == size
    {
      var end := size - tail;
      MaskedIs(head + end, size, exponent);
      var n := And(Uint32(head + end), size - 1);
      if n < end then n else end
    }

    /** Takes the next `n` bytes after head as written, if there is room for them. */
    method AdvanceHead(n: nat) returns (ok: bool)
      requires Valid()
      modifies this`head, this`written
      ensures Valid() && ok == (n <= old(FreeSpace()))
      ensures written == old(written) + if ok then Ring(buf[..], old(head), n) else []
      ensures Contents() == old(Contents()) + if ok then Ring(buf[..], old(head), n) else []
      ensures ok ==> head == Slot(size, old(head), n)
    {
      ok := n <= FreeSpace();
      if !ok {
        return;
      }
      HeadMoves(buf[..], head, tail, n, written, taken);
      written := written + Ring(buf[..], head, n);
      MaskedIs(head + n, size, exponent);
      head := And(Uint32(head + n), size - 1);
    }

    /** Drops the `n` oldest bytes, if there are so many. */
    method AdvanceTail(n: nat) returns (ok: bool)
      requires Valid()
      modifies this`tail, this`taken
      ensures Valid() && ok == (n <= |old(Contents())|)
      ensures taken == old(taken) + if ok then n else 0
      ensures Contents() == if ok then old(Contents())[n..] else old(Contents())
      ensures ok ==> tail == Slot(size, old(tail), n)
    {
      ok := n <= UsedBytes();
      if !ok {
        return;
      }
      TailMoves(buf[..], head, tail, n, written, taken);
      taken := taken + n;
      MaskedIs(tail + n, size, exponent);
      assert And(Uint32(tail + n), size - 1) == Slot(size, tail, n);
      tail := And(Uint32(tail + n), size - 1);
    }

    /** The byte `offset` places after the oldest one. */
    method PeakAhead(offset: nat) returns (b: byte)
      requires Valid() && offset < |Contents()|
      ensures b == Contents()[offset]
    {
      MaskedIs(tail + offset, size, exponent);
      b := buf[And(Uint32(tail + offset), size - 1)];
    }

    /**
     Moves the content to an array `factor` times as large; a wrapped content is laid out in one
     piece again. Fails without effect beyond the capacity limit.
     */
    method DoubleCapacity(factor: nat, ghost j: nat) returns (ok: bool)
      requires Valid() && factor == Pow2(j) && Doubled(size, j) != CAPACITY_LIMIT
      modifies this`buf, this`head, this`size, this`exponent, this`primedForSizeReset
      ensures Valid() && ok == (Doubled(old(size), j) < CAPACITY_LIMIT)
      ensures size == if ok then Doubled(old(size), j) else old(size)
      ensures Contents() == old(Contents())
      ensures j == 0 || !ok ==> buf == old(buf) && head == old(head)
      ensures j != 0 && ok ==> fresh(buf)
    {
      DoubledIs(size, exponent, j);
      if factor == 1 {
        return true;
      }
      if size * factor > CAPACITY_LIMIT {
        return false;
      }
      var newSize := size * factor;
      var used := UsedBytes();
      buf := Reallocate(newSize);
      head := tail + used;
      size := newSize;
      exponent := exponent + j;
      primedForSizeReset := false;
      ok := true;
    }

    /** A larger array with the same bytes, and the wrapped part of the content moved behind the rest. */
    method Reallocate(newSize: nat) returns (newBuf: array<byte>)
      requires Valid() && newSize >= 2 * size
      ensures fresh(newBuf) && newBuf.Length == newSize && tail + |Contents()| < newSize
      ensures Ring(newBuf[..], tail, |Contents()|) == Contents()
    {
      newBuf := Relay(newSize);
      RingRelaid(buf[..], newBuf[..], tail, UsedBytes());
    }

    method Relay(newSize: nat) returns (newBuf: array<byte>)
      requires Valid() && newSize >= 2 * size
      ensures fresh(newBuf) && newBuf.Length == newSize
      ensures newBuf[..size] == buf[..]
      ensures head < tail ==> newBuf[size..size + head] == buf[..head]
    {
      newBuf := Enlarged(buf, newSize);
      var maxRead := MaxReadSize();
      if head < tail {
        CopyWithin(newBuf, tail + maxRead, head);
      }
    }

    static method Enlarged(a: array<byte>, newSize: nat) returns (r: array<byte>)
      requires newSize >= a.Length
      ensures fresh(r) && r.Length == newSize && r[..a.Length] == a[..]
    {
      r := new byte[newSize];
      forall i | 0 <= i < a.Length {
        r[i] := a[i];
      }
    }

    /** Copies the first `n` bytes to behind `at`. */
    static method CopyWithin(a: array<byte>, at: nat, n: nat)
      requires n <= at && at + n <= a.Length
      modifies a
      ensures a[..at] == old(a[..at]) && a[at..at + n] == old(a[..n])
    {
      forall i | 0 <= i < n {
        a[at + i] := a[i];
      }
    }

    /**
     Makes room for `n` more bytes by doubling, but not once the capacity reaches `max`. The
     content stays as it is; an attempt to go beyond the capacity limit fails without effect.
     */
    method EnsureFreeSpace(n: nat, max: nat) returns (ok: bool)
      requires Valid() && GrownSize(size, |Contents()|, n, max) != CAPACITY_LIMIT
      modifies this`buf, this`head, this`size, this`exponent, this`primedForSizeReset
      ensures Valid() && ok == (GrownSize(old(size), |old(Contents())|, n, max) < CAPACITY_LIMIT)
      ensures size == if ok then GrownSize(old(size), |old(Contents())|, n, max) else old(size)
      ensures Contents() == old(Contents())
      ensures size == old(size) ==> buf == old(buf) && head == old(head)
      ensures size != old(size) ==> fresh(buf)
      ensures ok ==> size - 1 - |Contents()| >= n || size >= max
    {
      PowFits(exponent);
      var used := UsedBytes();
      if n <= FreeSpace() {
        return true;
      }
      GrowStops(size, used, n, max);
      var mul;
      ghost var j;
      mul, j := GrowthFactor(size, used, n, max);
      DoubledIs(size, exponent, j);
      ok := DoubleCapacity(mul, j);
    }

    static method GrowthFactor(size: nat, used: nat, n: nat, max: nat) returns (mul: nat, ghost j: nat)
      requires used < size
      ensures mul == Pow2(j) && Doubled(size, j) == Grow(size, used, n, max)
    {
      mul, j := 1, 0;
      while mul * size - used - 1 < n && mul * size < max
        invariant mul == Pow2(j) && mul * size == Doubled(size, j) >= size
        invariant Grow(Doubled(size, j), used, n, max) == Grow(size, used, n, max)
        decreases max - Doubled(size, j)
      {
        TimesTwo(mul, size);
        mul := 2 * mul;
        j := j + 1;
      }
    }

    /** One round of the copy loop: as much of `data` as fits in one piece from head on. */
    method WritePiece(data: seq<byte>) returns (len: nat)
      requires Valid() && 0 < |data| <= FreeSpace()
      modifies this`head, this`written, buf
      ensures Valid() && 0 < len <= |data|
      ensures Contents() == old(Contents()) + data[..len]
      ensures written == old(written) + data[..len]
      ensures len == |data| || (head == 0 && old(head) != 0)
    {
      len := if |data| <= MaxWriteSize() then |data| else MaxWriteSize();
      ghost var org := buf[..];
      forall i | 0 <= i < len {
        buf[head + i] := data[i];
      }
      RingUntouched(org, buf[..], tail, Used(size, head, tail), head, len);
      RingIsSlice(buf[..], head, len);
      assert Ring(buf[..], head, len) == data[..len];
      var ok := AdvanceHead(len);
    }

    /** CirBuf::write(const void*, size_t) and writerange: the whole range goes in, in at most two pieces. */
    method WriteRange(data: seq<byte>) returns (ok: bool, ghost rounds: nat)
      requires Valid() && |data| < CAPACITY_LIMIT
      requires GrownSize(size, |Contents()|, |data|, UINT32_VALUES - 1) != CAPACITY_LIMIT
      modifies this, buf
      ensures Valid() && rounds <= 2 && (buf == old(buf) || fresh(buf))
      ensures ok == (GrownSize(old(size), |old(Contents())|, |data|, UINT32_VALUES - 1) < CAPACITY_LIMIT)
      ensures size == if ok then GrownSize(old(size), |old(Contents())|, |data|, UINT32_VALUES - 1) else old(size)
      ensures written == old(written) + if ok then data else []
      ensures Contents() == old(Contents()) + if ok then data else []
    {
      ok := EnsureFreeSpace(|data|, UINT32_VALUES - 1);
      rounds := 0;
      if ok {
        rounds := WriteFitting(data);
      }
    }

    method WriteFitting(data: seq<byte>) returns (ghost rounds: nat)
      requires Valid() && |data| <= FreeSpace()
      modifies this`head, this`written, buf
      ensures Valid() && rounds <= 2
      ensures written == old(written) + data && Contents() == old(Contents()) + data
    {
      rounds := 0;
      var len_left: nat, pos: nat := |data|, 0;
      ghost var content, history := Contents(), written;
      while len_left > 0
        invariant Valid() && 0 <= pos && pos + len_left == |data| && len_left <= FreeSpace()
        invariant Contents() == content + data[..pos]
        invariant written == history + data[..pos]
        invariant rounds == 0 || len_left == 0 || (rounds == 1 && head == 0)
        invariant rounds <= 2
        decreases len_left
      {
        var len := WritePiece(data[pos..]);
        AppendNext(content, data, pos, len);
        AppendNext(history, data, pos, len);
        pos := pos + len;
        len_left := len_left - len;
        rounds := rounds + 1;
      }
      assert data[..pos] == data;
    }

    /** One round of the reading loop: as much as lies in one piece from tail on. */
    method ReadPiece(max: nat) returns (data: seq<byte>)
      requires Valid() && 0 < max <= |Contents()|
      modifies this`tail, this`taken
      ensures Valid() && 0 < |data| <= max
      ensures data == old(Contents())[..|data|] && Contents() == old(Contents())[|data|..]
      ensures taken == old(taken) + |data|
      ensures |data| == max || (tail == 0 && old(tail) != 0)
    {
      var readlen := if MaxReadSize() <= max then MaxReadSize() else max;
      data := buf[tail..tail + readlen];
      RingSplit(buf[..], tail, readlen, UsedBytes() - readlen);
      RingIsSlice(buf[..], tail, readlen);
      var ok := AdvanceTail(readlen);
    }

    /** What lies in one piece from tail on, as a caller sees it through tailPtr and maxReadSize. */
    method PeekPiece() returns (data: seq<byte>)
      requires Valid()
      ensures |data| <= |Contents()| && data == Contents()[..|data|] && (Contents() != [] ==> data != [])
    {
      data := buf[tail..tail + MaxReadSize()];
      RingSplit(buf[..], tail, MaxReadSize(), UsedBytes() - MaxReadSize());
      RingIsSlice(buf[..], tail, MaxReadSize());
    }

    /** CirBuf::readToVector: takes the oldest bytes, at most `max`, in at most two pieces. */
    method ReadToVector(max: nat) returns (result: seq<byte>, ghost rounds: nat)
      requires Valid()
      modifies this`tail, this`taken
      ensures Valid() && rounds <= 2
      ensures |result| == if max < |old(Contents())| then max else |old(Contents())|
      ensures result == old(Contents())[..|result|] && Contents() == old(Contents())[|result|..]
      ensures taken == old(taken) + |result|
    {
      var bytes_left: nat := if max < UsedBytes() then max else UsedBytes();
      ghost var count := bytes_left;
      result, rounds := [], 0;
      while bytes_left > 0
        invariant Valid() && |result| + bytes_left == count <= |old(Contents())|
        invariant result == old(Contents())[..|result|] && Contents() == old(Contents())[|result|..]
        invariant taken == old(taken) + |result|
        invariant rounds == 0 || bytes_left == 0 || (rounds == 1 && tail == 0)
        invariant rounds <= 2
        decreases bytes_left
      {
        var data := ReadPiece(bytes_left);
        assert old(Contents())[..|result|] + old(Contents())[|result|..][..|data|] == old(Contents())[..|result| + |data|];
        result := result + data;
        bytes_left := bytes_left - |data|;
        rounds := rounds + 1;
      }
    }

    /** CirBuf::peekAllToVector: all the content, which stays. */
    method PeekAllToVector() returns (result: seq<byte>)
      requires Valid()
      modifies this`tail, this`taken
      ensures Valid() && tail == old(tail) && taken == old(taken)
      ensures result == Contents() == old(Contents())
    {
      PowFits(exponent);
      var tail_org := tail;
      ghost var taken_org := taken;
      ghost var rounds;
      result, rounds := ReadToVector(UINT32_VALUES - 1);
      tail := tail_org;
      taken := taken_org;
    }

    /** Forgets the content. */
    method Reset()
      requires Valid()
      modifies this`head, this`tail, this`taken
      ensures Valid() && Contents() == [] && taken == |written|
    {
      head, tail := 0, 0;
      taken := |written|;
    }

    /** Called by a timer: gives an empty buffer its initial size back, from the second time on since it last grew. */
    method ResetCapacityIfEligible(newSize: nat, ghost newExponent: nat)
      requires Valid() && Capacity(newSize, newExponent)
      modifies this
      ensures Valid() && Contents() == old(Contents()) && written == old(written) && taken == old(taken)
      ensures size == if old(primedForSizeReset) && |old(Contents())| == 0 then newSize else old(size)
      ensures buf == old(buf) || fresh(buf)
    {
      if !primedForSizeReset {
        primedForSizeReset := true;
        return;
      }
      if UsedBytes() > 0 {
        return;
      }
      primedForSizeReset := false;
      if size == newSize {
        return;
      }
      buf := new byte[newSize];
      size, exponent := newSize, newExponent;
      head, tail := 0, 0;
    }
  }

  lemma AppendNext(a: seq<byte>, data: seq<byte>, pos: nat, len: nat)
    requires pos + len <= |data|
    ensures a + data[..pos] + data[pos..][..len] == a + data[..pos + len]
  {
  }

  /** Writing outside the content leaves the content alone. */
  lemma RingUntouched(bytes: seq<byte>, bytes': seq<byte>, tail: nat, n: nat, from: nat, len: nat)
    requires tail < |bytes| && |bytes'| == |bytes| && from == Slot(|bytes|, tail, n) && n + len < |bytes| && from + len <= |bytes|
    requires forall i :: 0 <= i < |bytes| && !(from <= i < from + len) ==> bytes'[i] == bytes[i]
    ensures Ring(bytes', tail, n) == Ring(bytes, tail, n)
  {
  }

  lemma TimesTwo(mul: nat, size: nat)
    ensures (2 * mul) * size == 2 * (mul * size)
  {
  }

  lemma {:induction false} DoubledTimes(size: nat, j: nat)
    ensures size * Pow2(j) == Doubled(size, j)
  {
    if j > 0 {
      DoubledTimes(size, j - 1);
      assert size * (2 * Pow2(j - 1)) == 2 * (size * Pow2(j - 1));
    }
  }

  lemma {:induction false} DoubledPow(exponent: nat, j: nat)
    ensures Doubled(Pow2(exponent), j) == Pow2(exponent + j)
  {
    if j > 0 { DoubledPow(exponent, j - 1); }
  }

  lemma DoubledIs(size: nat, exponent: nat, j: nat)
    requires Capacity(size, exponent)
    ensures size * Pow2(j) == Doubled(size, j)
    ensures Pow2(j) == 1 <==> j == 0
    ensures size < CAPACITY_LIMIT
    ensures Doubled(size, j) < CAPACITY_LIMIT ==> Capacity(Doubled(size, j), exponent + j)
    ensures j > 0 ==> Doubled(size, j) >= 2 * size
  {
    DoubledTimes(size, j);
    DoubledPow(exponent, j);
    PowFits(exponent);
    PowMonotone(0, j);
    PowMonotone(exponent, exponent + j);
    if exponent + j > 30 {
      PowMonotone(31, exponent + j);
      Pow2Of32();
    }
  }

  /** The content is the same when the part before the seam is where it was and the wrapped part follows it. */
  lemma RingRelaid(bytes: seq<byte>, bytes': seq<byte>, tail: nat, n: nat)
    requires tail < |bytes| && n < |bytes| && tail + n < |bytes'| && |bytes| <= |bytes'|
    requires bytes'[..|bytes|] == bytes
    requires tail + n > |bytes| ==> bytes'[|bytes|..tail + n] == bytes[..tail + n - |bytes|]
    ensures Ring(bytes', tail, n) == Ring(bytes, tail, n)
  {
  }
}
