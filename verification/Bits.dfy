/** The bits of a number, for the pin masks and the device latch. */
module Bits {

  function Pow2(n: nat): (p: nat)
    ensures p >= 1
  {
    if n == 0 then 1 else 2 * Pow2(n - 1)
  }

  predicate Bit(x: nat, i: nat)
  {
    if i == 0 then x % 2 == 1 else Bit(x / 2, i - 1)
  }

  /** x | (1 << i) */
  function SetBit(x: nat, i: nat): nat
  {
    if i == 0 then x / 2 * 2 + 1 else 2 * SetBit(x / 2, i - 1) + x % 2
  }

  lemma {:induction false} BitOfSetBit(x: nat, i: nat, j: nat)
    ensures Bit(SetBit(x, i), j) <==> i == j || Bit(x, j)
  {
    if i > 0 {
      var y := 2 * SetBit(x / 2, i - 1) + x % 2;
      assert y / 2 == SetBit(x / 2, i - 1) && y % 2 == x % 2;
      if j > 0 {
        BitOfSetBit(x / 2, i - 1, j - 1);
      }
    } else {
      assert (x / 2 * 2 + 1) / 2 == x / 2;
    }
  }

  /** The low n bits, x & (2^n - 1). */
  lemma {:induction false} BitOfLow(x: nat, n: nat, j: nat)
    ensures Bit(x % Pow2(n), j) <==> j < n && Bit(x, j)
  {
    if n == 0 {
      BitOfZero(j);
    } else {
      ModHalves(x, Pow2(n - 1));
      if j > 0 {
        BitOfLow(x / 2, n - 1, j - 1);
      }
    }
  }

  lemma ModHalves(x: nat, m: nat)
    requires m >= 1
    ensures x % (2 * m) == 2 * (x / 2 % m) + x % 2
    ensures x % (2 * m) / 2 == x / 2 % m && x % (2 * m) % 2 == x % 2
  {
    var h := x / 2;
    var r := 2 * (h % m) + x % 2;
    assert h == m * (h / m) + h % m;
    assert 2 * (m * (h / m)) == 2 * m * (h / m);
    assert x == 2 * m * (h / m) + r;
    assert 0 <= r < 2 * m;
    DivModUnique(x, 2 * m, h / m, r);
  }

  lemma DivModUnique(x: nat, d: nat, q: nat, r: nat)
    requires d >= 1 && x == d * q + r && r < d
    ensures x / d == q && x % d == r
  {
    assert x == d * (x / d) + x % d;
    var e := x / d - q;
    assert d * e == r - x % d;
    assert 0 - d < d * e < d;
    if e >= 1 {
      ProductIsLarge(d, e);
    } else if e <= -1 {
      assert d * e == -(d * -e);
      ProductIsLarge(d, -e);
    }
  }

  lemma ProductIsLarge(d: int, e: int)
    requires d >= 1 && e >= 1
    ensures d * e >= d
  {
  }

  lemma {:induction false} BitOfZero(j: nat)
    ensures !Bit(0, j)
  {
    if j > 0 {
      BitOfZero(j - 1);
    }
  }

  /** x << n */
  lemma {:induction false} BitOfShifted(x: nat, n: nat, j: nat)
    ensures Bit(x * Pow2(n), j) <==> j >= n && Bit(x, j - n)
  {
    if n > 0 {
      var y := x * Pow2(n - 1);
      assert x * Pow2(n) == 2 * y;
      assert 2 * y / 2 == y;
      if j > 0 {
        BitOfShifted(x, n - 1, j - 1);
      }
    }
  }

  lemma {:induction false} BitOfOnes(n: nat, j: nat)
    ensures Bit(Pow2(n) - 1, j) <==> j < n
  {
    if n == 0 {
      BitOfZero(j);
    } else {
      var y := Pow2(n - 1) - 1;
      assert Pow2(n) - 1 == 2 * y + 1;
      assert (2 * y + 1) / 2 == y;
      if j > 0 {
        BitOfOnes(n - 1, j - 1);
      }
    }
  }

  lemma PowersOfTwo()
    ensures Pow2(5) == 32 && Pow2(8) == 0x100 && Pow2(16) == 0x1_0000
    ensures Pow2(24) == 0x100_0000 && Pow2(32) == 0x1_0000_0000
  {
    assert Pow2(4) == 16;
    assert Pow2(8) == 256 by { assert Pow2(6) == 64; }
    assert Pow2(12) == 4096 by { assert Pow2(10) == 1024; }
    assert Pow2(16) == 0x1_0000 by { assert Pow2(14) == 0x4000; }
    assert Pow2(20) == 0x10_0000 by { assert Pow2(18) == 0x4_0000; }
    assert Pow2(24) == 0x100_0000 by { assert Pow2(22) == 0x40_0000; }
    assert Pow2(28) == 0x1000_0000 by { assert Pow2(26) == 0x400_0000; }
    assert Pow2(32) == 0x1_0000_0000 by { assert Pow2(30) == 0x4000_0000; }
  }

  /** The number that a list of bits denotes, lowest first. */
  function FromBits(bits: seq<bool>): nat
  {
    if bits == [] then 0 else (if bits[0] then 1 else 0) + 2 * FromBits(bits[1..])
  }

  /** n bits of x from bit k on. */
  function BitsOf(x: nat, k: nat, n: nat): (s: seq<bool>)
    ensures |s| == n
  {
    seq(n, (i: nat) => Bit(x, k + i))
  }

  /** The n bits of x from bit 0 on denote x modulo 2^n. */
  lemma {:induction false} FromBitsOf(x: nat, n: nat)
    ensures FromBits(BitsOf(x, 0, n)) == x % Pow2(n)
  {
    if n > 0 {
      FromBitsOf(x / 2, n - 1);
      assert BitsOf(x, 0, n)[1..] == BitsOf(x / 2, 0, n - 1);
      ModHalves(x, Pow2(n - 1));
    }
  }

  /** Numbers below 2^n with the same bits are the same. */
  lemma SameBits(x: nat, y: nat, n: nat)
    requires x < Pow2(n) && y < Pow2(n)
    requires forall i :: 0 <= i < n ==> (Bit(x, i) <==> Bit(y, i))
    ensures x == y
  {
    FromBitsOf(x, n);
    FromBitsOf(y, n);
    assert BitsOf(x, 0, n) == BitsOf(y, 0, n);
    DivModUnique(x, Pow2(n), 0, x);
    DivModUnique(y, Pow2(n), 0, y);
  }
}
