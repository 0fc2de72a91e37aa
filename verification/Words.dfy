/** Fixed-width unsigned arithmetic: wrap-around and exclusive-or on natural numbers.

    C's `unsigned int` and `unsigned long` (32 and 64 bits here) wrap modulo a power of two
    (C11, section 6.2.5 paragraph 9). A word is the natural number below that power, so that
    arithmetic on words and on counters is the same arithmetic. */
module Words {
  const TWO_32: int := 0x1_0000_0000
  const TWO_64: int := 0x1_0000_0000_0000_0000

  type Word32 = n: int | 0 <= n < TWO_32
  type Word64 = n: int | 0 <= n < TWO_64

  // The casts `(unsigned int)n` and `(unsigned long)n`.
  function ToWord32(n: int): Word32 { n % TWO_32 }
  function ToWord64(n: int): Word64 { n % TWO_64 }

  function Pow2(k: nat): nat {
    if k == 0 then 1 else 2 * Pow2(k - 1)
  }

  /** Bitwise exclusive-or, one bit at a time from the low end. */
  function Xor(a: nat, b: nat): nat {
    if a == 0 && b == 0 then 0
    else 2 * Xor(a / 2, b / 2) + (a % 2 + b % 2) % 2
  }

  lemma {:induction false} XorBound(a: nat, b: nat, k: nat)
    requires a < Pow2(k) && b < Pow2(k)
    ensures Xor(a, b) < Pow2(k)
  {
    if a != 0 || b != 0 {
      XorBound(a / 2, b / 2, k - 1);
    }
  }

  /** Exclusive-or with the same word twice gives the other word back. */
  lemma {:induction false} XorCancels(a: nat, b: nat)
    ensures Xor(Xor(a, b), b) == a
    decreases a + b
  {
    if a != 0 || b != 0 {
      XorCancels(a / 2, b / 2);
      var h, bit := Xor(a / 2, b / 2), (a % 2 + b % 2) % 2;
      LowBit(h, bit);
      BitCancels(a % 2, b % 2);
      assert Xor(a, b) == 2 * h + bit;
    }
  }

  lemma LowBit(h: nat, bit: nat)
    requires bit < 2
    ensures (2 * h + bit) / 2 == h && (2 * h + bit) % 2 == bit
  {
  }

  lemma BitCancels(p: nat, q: nat)
    requires p < 2 && q < 2
    ensures ((p + q) % 2 + q) % 2 == p
  {
  }

  lemma {:induction false} XorCommutes(a: nat, b: nat)
    ensures Xor(a, b) == Xor(b, a)
    decreases a + b
  {
    if a != 0 || b != 0 {
      XorCommutes(a / 2, b / 2);
    }
  }

  /** Bit k of a number. */
  function Bit(n: nat, k: nat): nat {
    if k == 0 then n % 2 else Bit(n / 2, k - 1)
  }

  /** A bit of the exclusive-or is set exactly when the two bits differ. */
  lemma {:induction false} XorBit(a: nat, b: nat, k: nat)
    ensures Bit(Xor(a, b), k) == if Bit(a, k) == Bit(b, k) then 0 else 1
    decreases k
  {
    if a == 0 && b == 0 {
      ZeroBit(k);
    } else {
      var h, bit := Xor(a / 2, b / 2), (a % 2 + b % 2) % 2;
      LowBit(h, bit);
      if k > 0 {
        XorBit(a / 2, b / 2, k - 1);
      }
    }
  }

  lemma {:induction false} ZeroBit(k: nat)
    ensures Bit(0, k) == 0
  {
    if k > 0 {
      ZeroBit(k - 1);
    }
  }

  lemma Pow2Of64()
    ensures Pow2(32) == TWO_32 && Pow2(64) == TWO_64
  {
    assert Pow2(8) == 0x100;
    assert Pow2(16) == 0x1_0000;
    assert Pow2(24) == 0x100_0000;
    assert Pow2(32) == 0x1_0000_0000;
    assert Pow2(40) == 0x100_0000_0000;
    assert Pow2(48) == 0x1_0000_0000_0000;
    assert Pow2(56) == 0x100_0000_0000_0000;
    assert Pow2(64) == 0x1_0000_0000_0000_0000;
  }

  function Xor32(a: Word32, b: Word32): Word32 {
    Pow2Of64(); XorBound(a, b, 32);
    Xor(a, b)
  }

  function Xor64(a: Word64, b: Word64): Word64 {
    Pow2Of64(); XorBound(a, b, 64);
    Xor(a, b)
  }

  /** With one operand fixed, exclusive-or is injective in the other. */
  lemma XorInjective(a: nat, b: nat, c: nat)
    requires Xor(a, b) == Xor(a, c)
    ensures b == c
  {
    XorCommutes(a, b); XorCommutes(a, c);
    XorCancels(b, a); XorCancels(c, a);
  }

  /** Multiplication by `m` modulo `modulus` is undone by multiplication by `inverse`. */
  lemma MulInverse(x: int, m: int, inverse: int, modulus: int)
    requires 0 <= x < modulus
    requires m * inverse % modulus == 1
    ensures (x * m % modulus) * inverse % modulus == x
  {
    var q := x * m / modulus;
    var r := m * inverse / modulus;
    assert x * m == q * modulus + x * m % modulus;
    assert m * inverse == r * modulus + 1;
    var y := x * m % modulus;
    calc {
      y * inverse;
      (x * m - q * modulus) * inverse;
      x * (m * inverse) - q * modulus * inverse;
      x * (r * modulus + 1) - q * modulus * inverse;
      (x * r - q * inverse) * modulus + x;
    }
    ModUnique(y * inverse, x * r - q * inverse, x, modulus);
  }

  /** Multiplication by an invertible factor is injective modulo `modulus`. */
  lemma MulInjective(x: int, y: int, m: int, inverse: int, modulus: int)
    requires 0 <= x < modulus && 0 <= y < modulus
    requires m * inverse % modulus == 1
    requires x * m % modulus == y * m % modulus
    ensures x == y
  {
    MulInverse(x, m, inverse, modulus);
    MulInverse(y, m, inverse, modulus);
  }

  /** Adding a constant is injective modulo `modulus`. */
  lemma AddInjective(x: int, y: int, c: int, modulus: int)
    requires 0 < modulus && (x + c) % modulus == (y + c) % modulus
    ensures x % modulus == y % modulus
  {
    var q, r := (x + c) / modulus - (y + c) / modulus, y % modulus;
    var k := y / modulus;
    assert x + c == ((x + c) / modulus) * modulus + (x + c) % modulus;
    assert y + c == ((y + c) / modulus) * modulus + (y + c) % modulus;
    assert x == y + q * modulus && y == k * modulus + r;
    assert k * modulus + q * modulus == (k + q) * modulus;
    ModUnique(x, k + q, r, modulus);
  }

  /** Congruent numbers less than a modulus apart are equal. */
  lemma CongruentAndClose(x: int, y: int, modulus: int)
    requires 0 < modulus && x % modulus == y % modulus
    requires -modulus < x - y < modulus
    ensures x == y
  {
    var d := x / modulus - y / modulus;
    assert x == (x / modulus) * modulus + x % modulus;
    assert y == (y / modulus) * modulus + y % modulus;
    assert d * modulus == x - y;
    assert d >= 1 ==> d * modulus >= modulus;
    assert d <= -1 ==> d * modulus <= -modulus;
  }

  lemma ModUnique(n: int, q: int, r: int, d: int)
    requires 0 <= r < d && n == q * d + r
    ensures n % d == r && n / d == q
  {
    var q', r' := n / d, n % d;
    assert n == q' * d + r';
    assert (q - q') * d == r' - r;
    assert q - q' >= 1 ==> (q - q') * d >= d;
    assert q - q' <= -1 ==> (q - q') * d <= -d;
  }
}
