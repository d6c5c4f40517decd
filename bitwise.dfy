/** Exclusive-or on the bit patterns of Java longs. A long's 64 bits are read
    as an unsigned number below 2^64 and `^` is defined bit by bit, so that the
    hash proofs rely on the algebra proved here rather than on bit-vector
    reasoning over whole boards. */
module Bitwise {

  function Pow2(k: nat): (r: nat)
    ensures r >= 1
  {
    if k == 0 then 1 else 2 * Pow2(k - 1)
  }

  /** 2^64, the number of bit patterns of a long. */
  const LongRange: nat := 0x1_0000_0000_0000_0000

  /** The bit pattern of a long. */
  type Word = w: nat | w < LongRange

  /** Bitwise exclusive-or: 0 for two zeros, otherwise built from the lowest bits. */
  function Xor(a: nat, b: nat): nat
    decreases a + b, 1
  {
    if a == 0 && b == 0 then 0 else XorStep(a, b)
  }

  /** The lowest bit is the parity of the two lowest bits, the rest is the
      exclusive-or of the remaining bits. */
  function XorStep(a: nat, b: nat): nat
    requires a + b > 0
    decreases a + b, 0
  {
    2 * Xor(a / 2, b / 2) + (a % 2 + b % 2) % 2
  }

  /** Two numbers with the same lowest bit and the same remaining bits are equal. */
  lemma SameBits(x: nat, y: nat)
    requires x / 2 == y / 2 && x % 2 == y % 2
    ensures x == y
  {
  }

  lemma Halve(n: nat)
    ensures n / 2 <= n && (n > 0 ==> n / 2 < n)
  {
  }

  lemma XorBits(a: nat, b: nat)
    ensures Xor(a, b) / 2 == Xor(a / 2, b / 2)
    ensures Xor(a, b) % 2 == (a % 2 + b % 2) % 2
  {
    if a + b > 0 {
      var q, r := Xor(a / 2, b / 2), (a % 2 + b % 2) % 2;
      assert Xor(a, b) == XorStep(a, b) == 2 * q + r;
      assert 0 <= r < 2;
    }
  }

  lemma {:induction false} XorZero(a: nat)
    ensures Xor(a, 0) == a && Xor(0, a) == a
    decreases a
  {
    XorZeroRight(a);
    XorComm(a, 0);
  }

  lemma {:induction false} XorZeroRight(a: nat)
    ensures Xor(a, 0) == a
    decreases a
  {
    if a != 0 {
      XorZeroRight(a / 2);
      XorBits(a, 0);
      assert a % 2 == 0 || a % 2 == 1;
      SameBits(Xor(a, 0), a);
    }
  }

  lemma {:induction false} XorSelf(a: nat)
    ensures Xor(a, a) == 0
    decreases a
  {
    if a != 0 {
      XorSelf(a / 2);
      XorBits(a, a);
      SameBits(Xor(a, a), 0);
    }
  }

  lemma {:induction false} XorComm(a: nat, b: nat)
    ensures Xor(a, b) == Xor(b, a)
    decreases a + b
  {
    if a + b != 0 {
      XorComm(a / 2, b / 2);
      XorBits(a, b);
      XorBits(b, a);
      SameBits(Xor(a, b), Xor(b, a));
    }
  }

  /** The lowest bit of an exclusive-or of three values does not depend on grouping. */
  lemma ParityAssoc(a: nat, b: nat, c: nat, x: nat, y: nat)
    requires x % 2 == (a % 2 + b % 2) % 2 && y % 2 == (b % 2 + c % 2) % 2
    ensures (x % 2 + c % 2) % 2 == (a % 2 + y % 2) % 2
  {
    var p, q, r := a % 2, b % 2, c % 2;
    assert p == 0 || p == 1;
    assert q == 0 || q == 1;
    assert r == 0 || r == 1;
  }

  lemma {:induction false} XorAssoc(a: nat, b: nat, c: nat)
    ensures Xor(Xor(a, b), c) == Xor(a, Xor(b, c))
    decreases a + b + c
  {
    if a + b + c != 0 {
      var x, y := Xor(a, b), Xor(b, c);
      Halve(a);
      Halve(b);
      Halve(c);
      XorBits(a, b);
      XorBits(b, c);
      XorBits(x, c);
      XorBits(a, y);
      calc {
        Xor(x, c) / 2;
        Xor(x / 2, c / 2);
        Xor(Xor(a / 2, b / 2), c / 2);
        { XorAssoc(a / 2, b / 2, c / 2); }
        Xor(a / 2, Xor(b / 2, c / 2));
        Xor(a / 2, y / 2);
        Xor(a, y) / 2;
      }
      ParityAssoc(a, b, c, x, y);
      SameBits(Xor(x, c), Xor(a, y));
    }
  }

  /** Exclusive-or with the same value twice is no change. */
  lemma XorCancel(a: nat, b: nat)
    ensures Xor(Xor(a, b), b) == a && Xor(b, Xor(b, a)) == a
  {
    XorAssoc(a, b, b);
    XorSelf(b);
    XorZero(a);
    XorAssoc(b, b, a);
  }

  /** The last two of three updates can be made in either order. */
  lemma XorSwap(a: nat, b: nat, c: nat)
    ensures Xor(Xor(a, b), c) == Xor(Xor(a, c), b)
  {
    XorAssoc(a, b, c);
    XorComm(b, c);
    XorAssoc(a, c, b);
  }

  /** Three updates undone in the opposite order. */
  lemma XorUndo(h: nat, a: nat, b: nat, c: nat)
    ensures Xor(Xor(Xor(Xor(Xor(Xor(h, c), b), a), a), b), c) == h
  {
    XorCancel(Xor(Xor(h, c), b), a);
    XorCancel(Xor(h, c), b);
    XorCancel(h, c);
  }

  /** Exclusive-or keeps values below a power of two; in particular the
      exclusive-or of two longs is a long. */
  lemma {:induction false} XorBelow(a: nat, b: nat, k: nat)
    requires a < Pow2(k) && b < Pow2(k)
    ensures Xor(a, b) < Pow2(k)
    decreases k
  {
    if k != 0 && a + b != 0 {
      XorBelow(a / 2, b / 2, k - 1);
      XorBits(a, b);
    }
  }

  lemma XorWord(a: Word, b: Word)
    ensures Xor(a, b) < LongRange
  {
    Pow2Long();
    XorBelow(a, b, 64);
  }

  /** Pow2 doubles exponents to products. */
  lemma {:induction false} Pow2Add(a: nat, b: nat)
    ensures Pow2(a + b) == Pow2(a) * Pow2(b)
    decreases a
  {
    if a > 0 {
      Pow2Add(a - 1, b);
    }
  }

  /** Squaring a power of two doubles its exponent. */
  lemma Pow2Square(k: nat, v: nat)
    requires Pow2(k) == v
    ensures Pow2(2 * k) == v * v
  {
    Pow2Add(k, k);
  }

  /** Pow2(64) is the literal LongRange. */
  lemma Pow2Long()
    ensures Pow2(64) == LongRange
  {
    Pow2Square(1, 2);
    Pow2Square(2, 4);
    Pow2Square(4, 0x10);
    Pow2Square(8, 0x100);
    Pow2Square(16, 0x1_0000);
    Pow2Square(32, 0x1_0000_0000);
  }
}
