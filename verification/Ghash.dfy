// `ghash_multiply`: two 128-bit blocks multiplied with 64-bit words. Bit i of
// a block, counted from the top bit of its first byte, is the coefficient of
// x^i, as in section 6.3 of NIST SP 800-38D.

module Ghash {
  import opened Words
  import opened Bits
  import opened Gf128

  type u64 = x: int | 0 <= x < 0x1_0000_0000_0000_0000

  // ---- words and blocks ------------------------------------------------------

  function Xor(a: u64, b: u64): u64 {
    BitwiseBelow(BitXor, a, b, 64);
    Pow2Values();
    Bitwise(BitXor, a, b, 64)
  }

  function Or(a: u64, b: u64): u64 {
    BitwiseBelow(BitOr, a, b, 64);
    Pow2Values();
    Bitwise(BitOr, a, b, 64)
  }

  predicate PairBit(v0: u64, v1: u64, e: nat)
    requires e < 128
  {
    if e < 64 then Bit(v0, 63 - e) else Bit(v1, 127 - e)
  }

  /** The polynomial in a pair of words. */
  function Pair(v0: u64, v1: u64): (p: Poly)
    ensures forall e :: e in p <==> 0 <= e < 128 && PairBit(v0, v1, e)
  {
    set e: nat | e < 128 && PairBit(v0, v1, e)
  }

  predicate BlockBit(b: seq<u8>, e: nat)
    requires |b| == 16 && e < 128
  {
    Bit(b[e / 8], 7 - e % 8)
  }

  /** The polynomial in a block of 16 bytes. */
  function Block(b: seq<u8>): (p: Poly)
    requires |b| == 16
    ensures forall e :: e in p <==> 0 <= e < 128 && BlockBit(b, e)
  {
    set e: nat | e < 128 && BlockBit(b, e)
  }

  lemma XorAdds(a0: u64, a1: u64, b0: u64, b1: u64)
    ensures Pair(Xor(a0, b0), Xor(a1, b1)) == Add(Pair(a0, a1), Pair(b0, b1))
  {
    forall e: nat ensures e in Pair(Xor(a0, b0), Xor(a1, b1)) <==> e in Add(Pair(a0, a1), Pair(b0, b1)) {
      if e < 64 {
        BitOfBitwise(BitXor, a0, b0, 64, 63 - e);
      } else if e < 128 {
        BitOfBitwise(BitXor, a1, b1, 64, 127 - e);
      }
    }
  }

  /** The pair shifted right by one: times x, without the term x^128. */
  function Right(v0: u64, v1: u64): (u64, u64) {
    (v0 / 2, Or(v1 / 2, v0 % 2 * 0x8000_0000_0000_0000))
  }

  lemma TopBit(c: nat, i: nat)
    requires c < 2
    ensures Bit(c * 0x8000_0000_0000_0000, i) <==> i == 63 && c == 1
  {
    Pow2Values();
    BitOfPair(c, 0, 63, i);
    if i < 63 { ZeroBits(i); } else if i > 63 { SmallBit(c, i - 63); }
  }

  lemma SmallBit(c: nat, i: nat)
    requires c < 2
    ensures Bit(c, i) <==> i == 0 && c == 1
  {
    if i > 0 { ZeroBits(i - 1); }
  }

  lemma RightShifts(v0: u64, v1: u64, e: nat)
    requires e < 128
    ensures e in Pair(Right(v0, v1).0, Right(v0, v1).1) <==> e > 0 && e - 1 in Pair(v0, v1)
  {
    if e < 64 {
      if e == 0 { TooHigh(v0 / 2, 63); }
    } else {
      BitOfBitwise(BitOr, v1 / 2, v0 % 2 * 0x8000_0000_0000_0000, 64, 127 - e);
      TopBit(v0 % 2, 127 - e);
      if e == 64 { TooHigh(v1 / 2, 63); }
    }
  }

  lemma TooHigh(v: nat, i: nat)
    requires i == 63 && v < 0x8000_0000_0000_0000
    ensures !Bit(v, i)
  {
    Pow2Values();
    BitOfPair(0, v, 63, 63);
    ZeroBits(0);
  }

  const REDUCTION: u64 := 0xE100_0000_0000_0000

  lemma ReductionBits(e: nat)
    requires e < 128
    ensures PairBit(REDUCTION, 0, e) <==> e in {0, 1, 2, 7}
  {
    if e < 64 {
      Pow2Values();
      BitOfPair(225, 0, 56, 63 - e);
      if 63 - e < 56 { ZeroBits(63 - e); } else { Bits225(7 - e); }
    } else {
      ZeroBits(127 - e);
    }
  }

  lemma Bits225(i: nat)
    requires i < 8
    ensures Bit(225, i) <==> i in {0, 5, 6, 7}
  {
    if i >= 1 { assert Bit(225, i) == Bit(112, i - 1); }
    if i >= 2 { assert Bit(112, i - 1) == Bit(56, i - 2); }
    if i >= 3 { assert Bit(56, i - 2) == Bit(28, i - 3); }
    if i >= 4 { assert Bit(28, i - 3) == Bit(14, i - 4); }
    if i >= 5 { assert Bit(14, i - 4) == Bit(7, i - 5); }
    if i >= 6 { assert Bit(7, i - 5) == Bit(3, i - 6); }
    if i >= 7 { assert Bit(3, i - 6) == Bit(1, i - 7); }
  }

  /** One round of the loop on v: times x in the field. */
  function Next(v0: u64, v1: u64): (u64, u64) {
    var r := Right(v0, v1);
    if v1 % 2 != 0 then (Xor(r.0, REDUCTION), r.1) else r
  }

  lemma NextIsTimesX(v0: u64, v1: u64)
    ensures Pair(Next(v0, v1).0, Next(v0, v1).1) == TimesX(Pair(v0, v1))
  {
    var r := Right(v0, v1);
    var p := Pair(v0, v1);
    assert 127 in p <==> v1 % 2 != 0;
    forall e: nat ensures e in Pair(r.0, r.1) <==> e < 128 && e in Shift(p, 1) {
      if e < 128 { RightShifts(v0, v1, e); }
    }
    if v1 % 2 != 0 {
      XorAdds(r.0, r.1, REDUCTION, 0);
      XorZero(r.1);
      forall e: nat ensures e in Pair(REDUCTION, 0) <==> e in {0, 1, 2, 7} {
        if e < 128 { ReductionBits(e); }
      }
      assert Pair(Xor(r.0, REDUCTION), r.1) == TimesX(p);
    } else {
      assert Pair(r.0, r.1) == Shift(p, 1);
    }
  }

  lemma XorZero(a: u64)
    ensures Xor(a, 0) == a
  {
    Pow2Values();
    BitwiseZero(a, 64);
  }

  // ---- bytes -----------------------------------------------------------------

  /** Big-endian. */
  function FromBytes(b: seq<u8>): nat {
    if b == [] then 0 else FromBytes(b[..|b| - 1]) * 256 + b[|b| - 1]
  }

  function ToBytes(v: nat, n: nat): (b: seq<u8>)
    ensures |b| == n
  {
    if n == 0 then [] else ToBytes(v / 256, n - 1) + [v % 256]
  }

  lemma {:induction false} FromBytesBelow(b: seq<u8>)
    ensures FromBytes(b) < Pow2(8 * |b|)
  {
    if b != [] {
      FromBytesBelow(b[..|b| - 1]);
      Pow2Values();
      Pow2Sum(8, 8 * (|b| - 1));
    }
  }

  lemma {:induction false} ThereAndBack(v: nat, n: nat)
    requires v < Pow2(8 * n)
    ensures FromBytes(ToBytes(v, n)) == v
    decreases n
  {
    if n > 0 {
      Pow2Values();
      Pow2Sum(8, 8 * (n - 1));
      ThereAndBack(v / 256, n - 1);
      assert ToBytes(v, n)[..n - 1] == ToBytes(v / 256, n - 1);
    }
  }

  lemma {:induction false} BytesBit(b: seq<u8>, i: nat)
    requires i < 8 * |b|
    ensures Bit(FromBytes(b), i) <==> Bit(b[|b| - 1 - i / 8], i % 8)
    decreases |b|
  {
    Pow2Values();
    var n := |b| - 1;
    BitOfPair(FromBytes(b[..n]), b[n], 8, i);
    if i >= 8 { BytesBit(b[..n], i - 8); }
  }

  function Word(b: seq<u8>): u64
    requires |b| == 8
  {
    FromBytesBelow(b);
    Pow2Values();
    FromBytes(b)
  }

  lemma PairIsBlock(b: seq<u8>)
    requires |b| == 16
    ensures Pair(Word(b[..8]), Word(b[8..])) == Block(b)
  {
    hide Bit, FromBytes, Pair, Block;
    forall e: nat ensures e in Pair(Word(b[..8]), Word(b[8..])) <==> e in Block(b) {
      if e < 64 { BytesBit(b[..8], 63 - e); Ninths(e, 63 - e); }
      else if e < 128 { BytesBit(b[8..], 127 - e); Ninths(e - 64, 127 - e); }
    }
  }

  lemma Ninths(e: nat, i: nat)
    requires e < 64 && i == 63 - e
    ensures 7 - i / 8 == e / 8 && i % 8 == 7 - e % 8
  {
  }

  lemma BytesOfPair(z0: u64, z1: u64)
    ensures Block(ToBytes(z0, 8) + ToBytes(z1, 8)) == Pair(z0, z1)
  {
    Pow2Values();
    ThereAndBack(z0, 8);
    ThereAndBack(z1, 8);
    var b := ToBytes(z0, 8) + ToBytes(z1, 8);
    assert b[..8] == ToBytes(z0, 8) && b[8..] == ToBytes(z1, 8);
    PairIsBlock(b);
  }

  // ---- the multiplication ------------------------------------------------------

  /** Multiplies two blocks in the field. */
  method GhashMultiply(x: array<u8>, y: array<u8>, out: array<u8>)
    requires x.Length == y.Length == out.Length == 16
    modifies out
    ensures Block(out[..]) == FieldMul(Block(old(x[..])), Block(old(y[..])))
  {
    ghost var xs := x[..];
    ghost var px, py := Block(xs), Block(y[..]);
    var z0: u64, z1: u64 := 0, 0;
    var v0: u64, v1: u64 := Word(y[..8]), Word(y[8..]);
    assert y[..][..8] == y[..8] && y[..][8..] == y[8..];
    PairIsBlock(y[..]);
    NoTerms();
    for byteIdx := 0 to 16
      invariant x[..] == xs
      invariant Pair(z0, z1) == Serial(px, py, 8 * byteIdx) && Pair(v0, v1) == Power(py, 8 * byteIdx)
    {
      z0, z1, v0, v1 := ByteRound(x[byteIdx], z0, z1, v0, v1, px, py, 8 * byteIdx, xs);
    }
    var bytes := ToBytes(z0, 8) + ToBytes(z1, 8);
    BytesOfPair(z0, z1);
    forall k | 0 <= k < 16 { out[k] := bytes[k]; }
    assert out[..] == bytes;
  }

  lemma NoTerms()
    ensures Pair(0, 0) == {}
  {
    forall e: nat ensures e !in Pair(0, 0) {
      if e < 64 { ZeroBits(63 - e); } else if e < 128 { ZeroBits(127 - e); }
    }
  }

  /** The eight bits of one byte of x, from the top. */
  method ByteRound(b: u8, a0: u64, a1: u64, b0: u64, b1: u64, ghost px: Poly, ghost py: Poly, ghost at: nat,
                   ghost x: seq<u8>)
    returns (z0: u64, z1: u64, v0: u64, v1: u64)
    requires |x| == 16 && at % 8 == 0 && at < 128 && x[at / 8] == b && px == Block(x)
    requires Pair(a0, a1) == Serial(px, py, at) && Pair(b0, b1) == Power(py, at)
    ensures Pair(z0, z1) == Serial(px, py, at + 8) && Pair(v0, v1) == Power(py, at + 8)
  {
    hide Pair, Bit, Serial, Power, Xor, Right;
    z0, z1, v0, v1 := a0, a1, b0, b1;
    var bitIdx := 8;
    while bitIdx > 0
      invariant 0 <= bitIdx <= 8
      invariant Pair(z0, z1) == Serial(px, py, at + 8 - bitIdx) && Pair(v0, v1) == Power(py, at + 8 - bitIdx)
    {
      bitIdx := bitIdx - 1;
      RoundSteps(x, py, at + 7 - bitIdx, z0, z1, v0, v1);
      assert (at + 7 - bitIdx) / 8 == at / 8 && 7 - (at + 7 - bitIdx) % 8 == bitIdx;
      if Bit(b, bitIdx) {
        z0, z1 := Xor(z0, v0), Xor(z1, v1);
      }
      var lsb := v1 % 2;
      var r := Right(v0, v1);
      v0, v1 := r.0, r.1;
      if lsb != 0 {
        v0 := Xor(v0, REDUCTION);
      }
    }
  }

  /** One bit of x: z takes v if it is set, and v is multiplied by x. */
  lemma RoundSteps(x: seq<u8>, py: Poly, i: nat, z0: u64, z1: u64, v0: u64, v1: u64)
    requires |x| == 16 && i < 128
    requires Pair(z0, z1) == Serial(Block(x), py, i) && Pair(v0, v1) == Power(py, i)
    ensures Serial(Block(x), py, i + 1)
         == if Bit(x[i / 8], 7 - i % 8) then Pair(Xor(z0, v0), Xor(z1, v1)) else Pair(z0, z1)
    ensures Power(py, i + 1) == Pair(Next(v0, v1).0, Next(v0, v1).1)
  {
    XorAdds(z0, z1, v0, v1);
    NextIsTimesX(v0, v1);
    assert i in Block(x) <==> BlockBit(x, i);
  }

  /** The block product, whatever bytes come in: it is the residue of the
      polynomial product, commutative, and linear over XOR. */
  lemma BlockProduct(x: seq<u8>, y: seq<u8>, z: seq<u8>)
    requires |x| == |y| == |z| == 16
    ensures Congruent(FieldMul(Block(x), Block(y)), Product(Block(x), Block(y), 128))
    ensures FieldMul(Block(x), Block(y)) == FieldMul(Block(y), Block(x))
    ensures FieldMul(Add(Block(x), Block(z)), Block(y))
         == Add(FieldMul(Block(x), Block(y)), FieldMul(Block(z), Block(y)))
    ensures FieldMul(Block(y), Add(Block(x), Block(z)))
         == Add(FieldMul(Block(y), Block(x)), FieldMul(Block(y), Block(z)))
  {
    assert Below(Block(x), 128) && Below(Block(y), 128) && Below(Block(z), 128);
    hide Congruent, FieldMul, Product;
    FieldMulIsResidue(Block(x), Block(y));
    FieldMulCommutes(Block(x), Block(y));
    FieldMulBilinear(Block(x), Block(z), Block(y));
  }
}
