// Facts about the bits of natural numbers and the powers of two, shared by the
// modules that compute with machine words.

module Bits {
  import opened Words

  /** Wrapping gives the one word that is congruent modulo 2^64. */
  lemma WrapIsCongruent(x: int, w: i64)
    ensures w == Wrap(x) <==> (w - x) % TWO_64 == 0
  {
    var q := (x + TWO_63) / TWO_64;
    assert Wrap(x) == x - TWO_64 * q;
  }

  lemma {:induction false} BitOfBitwise(o: BitOp, a: nat, b: nat, n: nat, i: nat)
    ensures Bit(Bitwise(o, a, b, n), i) <==> i < n && OneBit(o, Bit(a, i), Bit(b, i))
    decreases n
  {
    if n > 0 {
      if i > 0 { BitOfBitwise(o, a / 2, b / 2, n - 1, i - 1); }
    } else {
      ZeroBits(i);
    }
  }

  lemma {:induction false} ZeroBits(i: nat)
    ensures !Bit(0, i)
    decreases i
  {
    if i > 0 { ZeroBits(i - 1); }
  }

  lemma {:induction false} BitwiseBelow(o: BitOp, a: nat, b: nat, n: nat)
    ensures Bitwise(o, a, b, n) < Pow2(n)
  {
    if n > 0 { BitwiseBelow(o, a / 2, b / 2, n - 1); }
  }

  lemma {:induction false} Pow2Sum(a: nat, b: nat)
    ensures Pow2(a + b) == Pow2(a) * Pow2(b)
    decreases a
  {
    if a > 0 {
      Pow2Sum(a - 1, b);
      assert Pow2(a + b) == 2 * (Pow2(a - 1) * Pow2(b));
    }
  }

  lemma Pow2Values()
    ensures Pow2(8) == 0x100 && Pow2(56) == 0x100_0000_0000_0000 && Pow2(60) == 0x1000_0000_0000_0000
    ensures Pow2(63) == 0x8000_0000_0000_0000 && Pow2(64) == 0x1_0000_0000_0000_0000
  {
    SmallPowers();
    hide Pow2;
    Pow2Sum(8, 8);
    Pow2Sum(8, 16);
    Pow2Sum(16, 16);
    Pow2Sum(24, 32);
    Pow2Sum(4, 56);
    Pow2Sum(7, 56);
    Pow2Sum(32, 32);
  }

  lemma SmallPowers()
    ensures Pow2(4) == 16 && Pow2(7) == 128 && Pow2(8) == 256
  {
    assert Pow2(1) == 2 && Pow2(2) == 4 && Pow2(3) == 8 && Pow2(4) == 16;
    assert Pow2(5) == 32 && Pow2(6) == 64;
  }

  /** A number put in front of n low bits. */
  lemma {:induction false} BitOfPair(a: nat, b: nat, n: nat, i: nat)
    requires b < Pow2(n)
    ensures Bit(a * Pow2(n) + b, i) <==> if i < n then Bit(b, i) else Bit(a, i - n)
    decreases n
  {
    if n > 0 {
      var p := Pow2(n - 1);
      assert a * Pow2(n) == 2 * (a * p);
      assert (2 * (a * p) + b) / 2 == a * p + b / 2;
      if i > 0 { BitOfPair(a, b / 2, n - 1, i - 1); }
    }
  }

  lemma {:induction false} BitIsQuotient(u: nat, n: nat)
    ensures Bit(u, n) <==> u / Pow2(n) % 2 == 1
    decreases n
  {
    if n > 0 {
      BitIsQuotient(u / 2, n - 1);
      Halves(u, Pow2(n - 1));
    }
  }

  lemma Halves(u: nat, p: nat)
    requires p > 0
    ensures u / (2 * p) == u / 2 / p
  {
    var h := u / 2;
    var q := h / p;
    assert h == p * q + h % p && u == 2 * h + u % 2;
    var r := 2 * (h % p) + u % 2;
    assert u == 2 * p * q + r && 0 <= r < 2 * p;
    QuotientUnique(u, 2 * p, q, r);
  }

  lemma MulGap(d: nat, a: nat, b: nat)
    requires a < b
    ensures d * a + d <= d * b
  {
    assert d * b == d * a + d * (b - a);
    AtLeastOnce(d, b - a);
  }

  lemma {:induction false} AtLeastOnce(p: nat, d: int)
    requires d >= 1
    ensures p * d >= p
    decreases d
  {
    if d > 1 {
      AtLeastOnce(p, d - 1);
      assert p * d == p * (d - 1) + p;
    }
  }

  lemma QuotientUnique(u: nat, d: nat, q: nat, r: nat)
    requires u == d * q + r && r < d
    ensures u / d == q
  {
    var q1 := u / d;
    assert u == d * q1 + u % d;
    if q1 > q { MulGap(d, q, q1); }
    if q1 < q { MulGap(d, q1, q); }
  }

  /** XOR with a set bit that was just added takes it away. */
  lemma {:induction false} XorRemoves(a: nat, n: nat, w: nat)
    requires n < w && a < Pow2(w) && !Bit(a, n)
    ensures Bitwise(BitXor, a + Pow2(n), Pow2(n), w) == a
    decreases n
  {
    if n == 0 {
      BitwiseZero(a / 2, w - 1);
    } else {
      assert (a + Pow2(n)) / 2 == a / 2 + Pow2(n - 1);
      XorRemoves(a / 2, n - 1, w - 1);
    }
  }

  lemma {:induction false} BitwiseZero(a: nat, n: nat)
    requires a < Pow2(n)
    ensures Bitwise(BitXor, a, 0, n) == a
    decreases n
  {
    if n > 0 { BitwiseZero(a / 2, n - 1); }
  }
}
