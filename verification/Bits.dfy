/** Bytes and the bit operations of the source, on natural numbers. */
module Bits {
  type byte = x: int | 0 <= x < 256

  const UINT32_VALUES: int := 0x1_0000_0000

  /** uint32_t arithmetic wraps around; for sums and differences of two values in range. */
  function Uint32(x: int): nat
    requires -UINT32_VALUES <= x < 2 * UINT32_VALUES
  {
    if x < 0 then x + UINT32_VALUES else if x < UINT32_VALUES then x else x - UINT32_VALUES
  }

  /** Bitwise and. */
  function And(x: nat, y: nat): (r: nat)
    decreases x
  {
    if x == 0 || y == 0 then 0 else 2 * And(x / 2, y / 2) + (x % 2) * (y % 2)
  }

  function Pow2(k: nat): (r: nat)
    ensures r > 0
  {
    if k == 0 then 1 else 2 * Pow2(k - 1)
  }

  lemma {:induction false} Pow2Add(a: nat, b: nat)
    ensures Pow2(a + b) == Pow2(a) * Pow2(b)
  {
    if a > 0 {
      Pow2Add(a - 1, b);
      assert Pow2(a + b) == 2 * Pow2(a - 1 + b);
    }
  }

  /** Masking with 2^k - 1 is the remainder modulo 2^k. */
  lemma {:induction false} MaskIsMod(x: nat, k: nat)
    ensures And(x, Pow2(k) - 1) == x % Pow2(k)
  {
    if k == 0 || x == 0 {
    } else {
      var m := Pow2(k - 1);
      MaskIsMod(x / 2, k - 1);
      assert (Pow2(k) - 1) / 2 == m - 1;
      assert (Pow2(k) - 1) % 2 == 1;
      ModDouble(x, m);
    }
  }

  lemma ModDouble(x: nat, m: nat)
    requires m > 0
    ensures x % (2 * m) == 2 * ((x / 2) % m) + x % 2
  {
    var h := x / 2;
    var q, r := h / m, h % m;
    assert h == m * q + r;
    assert (2 * m) * q == 2 * (m * q);
    assert x == (2 * m) * q + (2 * r + x % 2);
    ModUnique(x, 2 * m, q, 2 * r + x % 2);
  }

  lemma MulBetween(m: int, d: int)
    requires m > 0 && 0 - m < m * d < m
    ensures d == 0
  {
  }

  lemma ModUnique(x: int, m: nat, q: int, r: int)
    requires m > 0 && x == m * q + r && 0 <= r < m
    ensures x % m == r
  {
    var q', r' := x / m, x % m;
    assert x == m * q' + r';
    assert m * (q - q') == m * q - m * q' == r' - r;
    MulBetween(m, q - q');
  }

  lemma {:induction false} ModAdd(x: int, m: nat, n: nat)
    requires m > 0
    ensures (x + m * n) % m == x % m
  {
    var q, r := x / m, x % m;
    assert x == m * q + r;
    assert m * (q + n) == m * q + m * n;
    ModUnique(x + m * n, m, q + n, r);
  }

  lemma Pow2Of32()
    ensures Pow2(8) == 0x100 && Pow2(16) == 0x1_0000 && Pow2(32) == UINT32_VALUES
  {
    assert Pow2(8) == 256;
    Pow2Add(8, 8);
    Pow2Add(16, 16);
  }

  /** Masking a uint32_t sum or difference with a power of two takes it modulo that power. */
  lemma MaskUint32(x: int, k: nat)
    requires k <= 32 && -UINT32_VALUES <= x < 2 * UINT32_VALUES
    ensures And(Uint32(x), Pow2(k) - 1) == x % Pow2(k)
  {
    MaskIsMod(Uint32(x), k);
    var m, n := Pow2(k), Pow2(32 - k);
    Pow2Add(k, 32 - k);
    Pow2Of32();
    assert m * n == UINT32_VALUES;
    if x < 0 {
      ModAdd(x, m, n);
    } else if x >= UINT32_VALUES {
      ModAdd(x - UINT32_VALUES, m, n);
    }
  }

  /** Bitwise exclusive or of two bytes. */
  function XorBits(x: nat, y: nat, bits: nat): (r: nat)
    ensures r < Pow2(bits)
  {
    if bits == 0 then 0 else 2 * XorBits(x / 2, y / 2, bits - 1) + (if x % 2 == y % 2 then 0 else 1)
  }

  function Xor(x: byte, y: byte): byte {
    assert Pow2(8) == 256;
    XorBits(x, y, 8)
  }

  /** Bit `i`, counting from the least significant one. */
  function Bit(x: nat, i: nat): (b: nat)
    ensures b < 2
  {
    if i == 0 then x % 2 else Bit(x / 2, i - 1)
  }

  lemma {:induction false} XorBitsAt(x: nat, y: nat, bits: nat, i: nat)
    requires i < bits
    ensures Bit(XorBits(x, y, bits), i) == 1 <==> Bit(x, i) != Bit(y, i)
  {
    if i > 0 {
      XorBitsAt(x / 2, y / 2, bits - 1, i - 1);
    }
  }

  /** A bit of the result is set exactly when the two bytes differ in it. */
  lemma XorAt(x: byte, y: byte, i: nat)
    requires i < 8
    ensures Bit(Xor(x, y), i) == 1 <==> Bit(x, i) != Bit(y, i)
  {
    XorBitsAt(x, y, 8, i);
  }

  lemma {:induction false} XorBitsTwice(x: nat, y: nat, bits: nat)
    requires x < Pow2(bits)
    ensures XorBits(XorBits(x, y, bits), y, bits) == x
  {
    if bits > 0 {
      XorBitsTwice(x / 2, y / 2, bits - 1);
      var r := XorBits(x, y, bits);
      assert r / 2 == XorBits(x / 2, y / 2, bits - 1);
      assert r % 2 == if x % 2 == y % 2 then 0 else 1;
    }
  }

  /** Masking twice with the same key byte gives the byte back. */
  lemma XorTwice(x: byte, y: byte)
    ensures Xor(Xor(x, y), y) == x
  {
    assert Pow2(8) == 256;
    XorBitsTwice(x, y, 8);
  }

  lemma {:induction false} XorBitsZero(x: nat, bits: nat)
    requires x < Pow2(bits)
    ensures XorBits(x, 0, bits) == x
  {
    if bits > 0 {
      XorBitsZero(x / 2, bits - 1);
    }
  }

  lemma XorZero(x: byte)
    ensures Xor(x, 0) == x
  {
    assert Pow2(8) == 256;
    XorBitsZero(x, 8);
  }
}
