// The checksum as a remainder of polynomials over GF(2): the message, with its
// first 32 bits complemented, times x^32 leaves the complement of the checksum
// modulo the generator of section 3.2.9 of IEEE 802.3.

module CrcResidue {
  import opened Crc32
  import opened Gf128

  /** x^32 + x^26 + x^23 + x^22 + x^16 + x^12 + x^11 + x^10 + x^8 + x^7 + x^5
      + x^4 + x^2 + x + 1 */
  const GENERATOR: Poly := {32, 26, 23, 22, 16, 12, 11, 10, 8, 7, 5, 4, 2, 1, 0}

  /** x^(n-1) + ... + x + 1 */
  function Ones(n: nat): (r: Poly)
    ensures forall e: nat :: e in r <==> e < n
  {
    if n == 0 then {} else Ones(n - 1) + {n - 1}
  }

  // ---- bits of a register ------------------------------------------------------

  /** Bit i of a register, 0 being the least significant. */
  predicate RegBit(w: bv32, i: nat) {
    if i == 0 then w & 1 == 1 else RegBit(w >> 1, i - 1)
  }

  predicate HasTerm(w: bv32, e: nat) {
    e < 32 && RegBit(w, 31 - e)
  }

  /** The register as a polynomial; the least significant bit is x^31. */
  function Reg(w: bv32): (r: Poly)
    ensures forall e: nat :: e in r <==> HasTerm(w, e)
  {
    set e: nat | e < 32 && HasTerm(w, e)
  }

  lemma FirstBit(w: bv32)
    ensures RegBit(w, 0) <==> Odd(w)
  {
  }

  lemma NextBit(w: bv32, i: nat)
    ensures RegBit(w, i + 1) == RegBit(Half(w), i)
  {
  }

  lemma {:induction false} XorBit(a: bv32, b: bv32, i: nat)
    ensures RegBit(Xor(a, b), i) <==> RegBit(a, i) != RegBit(b, i)
    decreases i
  {
    hide RegBit, Xor, Half, Odd;
    HalfXor(a, b);
    if i == 0 {
      FirstBit(a);
      FirstBit(b);
      FirstBit(Xor(a, b));
    } else {
      NextBit(a, i - 1);
      NextBit(b, i - 1);
      NextBit(Xor(a, b), i - 1);
      XorBit(Half(a), Half(b), i - 1);
    }
  }

  lemma ByteOn(w: bv32, i: nat)
    ensures RegBit(w, i + 8) == RegBit(Shifted(w), i)
  {
    hide RegBit, Half, Shifted;
    EightHalves(w);
    HalvesChain(w);
    hide Halves;
    NextBit(w, i + 7);
    NextBit(Halves(w, 1), i + 6);
    NextBit(Halves(w, 2), i + 5);
    NextBit(Halves(w, 3), i + 4);
    NextBit(Halves(w, 4), i + 3);
    NextBit(Halves(w, 5), i + 2);
    NextBit(Halves(w, 6), i + 1);
    NextBit(Halves(w, 7), i);
  }

  lemma EightHalves(w: bv32)
    ensures Halves(w, 8) == Shifted(w)
  {
    HalvesChain(w);
    assert Half(Half(Half(Half(Half(Half(Half(Half(w)))))))) == Shifted(w);
  }

  lemma {:induction false} NoBits(i: nat)
    ensures !RegBit(0, i)
    decreases i
  {
    if i > 0 { NoBits(i - 1); }
  }

  /** A register has 32 bits. */
  lemma BitsBelow(w: bv32, i: nat)
    requires i >= 32
    ensures !RegBit(w, i)
  {
    hide RegBit, Shifted;
    ByteOn(w, i - 8);
    ByteOn(Shifted(w), i - 16);
    ByteOn(Shifted(Shifted(w)), i - 24);
    ByteOn(Shifted(Shifted(Shifted(w))), i - 32);
    FourDown(w);
    NoBits(i - 32);
  }

  lemma FourDown(w: bv32)
    ensures Shifted(Shifted(Shifted(Shifted(w)))) == 0
  {
  }

  // ---- bits of a byte ----------------------------------------------------------

  /** m is bit k alone. */
  predicate IsMask(k: nat, m: bv32) {
    if k == 0 then m == 1 else m & 1 == 0 && IsMask(k - 1, m >> 1)
  }

  predicate Meets(w: bv32, m: bv32) { w & m != 0 }

  lemma {:induction false} MaskBit(w: bv32, k: nat, m: bv32)
    requires IsMask(k, m)
    ensures RegBit(w, k) <==> Meets(w, m)
    decreases k
  {
    hide RegBit, IsMask, Half, Odd, Meets;
    if k > 0 {
      MaskMore(k, m);
      NextBit(w, k - 1);
      MaskBit(Half(w), k - 1, Half(m));
      Downward(w, m);
    } else {
      MaskZero(w, m);
    }
  }

  lemma MaskZero(w: bv32, m: bv32)
    requires IsMask(0, m)
    ensures RegBit(w, 0) <==> Meets(w, m)
  {
  }

  lemma MaskMore(k: nat, m: bv32)
    requires k > 0 && IsMask(k, m)
    ensures !Odd(m) && IsMask(k - 1, Half(m))
  {
  }

  lemma Downward(w: bv32, m: bv32)
    requires !Odd(m)
    ensures Meets(Half(w), Half(m)) <==> Meets(w, m)
  {
  }

  lemma LowBits(w: bv32)
    ensures RegBit(w, 0) <==> w & 1 != 0
    ensures RegBit(w, 1) <==> w & 2 != 0
    ensures RegBit(w, 2) <==> w & 4 != 0
    ensures RegBit(w, 3) <==> w & 8 != 0
    ensures RegBit(w, 4) <==> w & 16 != 0
    ensures RegBit(w, 5) <==> w & 32 != 0
    ensures RegBit(w, 6) <==> w & 64 != 0
    ensures RegBit(w, 7) <==> w & 128 != 0
  {
    hide RegBit;
    assert IsMask(0, 1) && IsMask(1, 2) && IsMask(2, 4) && IsMask(3, 8);
    assert IsMask(4, 16) && IsMask(5, 32) && IsMask(6, 64) && IsMask(7, 128);
    MaskBit(w, 0, 1);
    MaskBit(w, 1, 2);
    MaskBit(w, 2, 4);
    MaskBit(w, 3, 8);
    MaskBit(w, 4, 16);
    MaskBit(w, 5, 32);
    MaskBit(w, 6, 64);
    MaskBit(w, 7, 128);
  }

  /** The bytes of the feedback word. */
  lemma FeedbackBytes()
    ensures Shifted(POLYNOMIAL) == 0x00EDB883 && Shifted(0x00EDB883) == 0x0000EDB8 && Shifted(0x0000EDB8) == 0xED
  {
  }

  /** The feedback word is the generator without its first term. */
  lemma FeedbackTerm(e: nat)
    requires e < 32
    ensures HasTerm(POLYNOMIAL, e) <==> e in GENERATOR
  {
    hide RegBit, Shifted;
    FeedbackBytes();
    var i := 31 - e;
    if i < 8 {
      LowBits(POLYNOMIAL);
    } else if i < 16 {
      ByteOn(POLYNOMIAL, i - 8);
      LowBits(0x00EDB883);
    } else if i < 24 {
      ByteOn(POLYNOMIAL, i - 8);
      ByteOn(0x00EDB883, i - 16);
      LowBits(0x0000EDB8);
    } else {
      ByteOn(POLYNOMIAL, i - 8);
      ByteOn(0x00EDB883, i - 16);
      ByteOn(0x0000EDB8, i - 24);
      LowBits(0xED);
    }
  }

  lemma FullBytes()
    ensures Shifted(0xFFFFFFFF) == 0xFFFFFF && Shifted(0xFFFFFF) == 0xFFFF && Shifted(0xFFFF) == 0xFF
  {
  }

  lemma FullBit(i: nat)
    requires i < 32
    ensures RegBit(0xFFFFFFFF, i)
  {
    hide RegBit, Shifted;
    FullBytes();
    if i < 8 {
      LowBits(0xFFFFFFFF);
    } else if i < 16 {
      ByteOn(0xFFFFFFFF, i - 8);
      LowBits(0xFFFFFF);
    } else if i < 24 {
      ByteOn(0xFFFFFFFF, i - 8);
      ByteOn(0xFFFFFF, i - 16);
      LowBits(0xFFFF);
    } else {
      ByteOn(0xFFFFFFFF, i - 8);
      ByteOn(0xFFFFFF, i - 16);
      ByteOn(0xFFFF, i - 24);
      LowBits(0xFF);
    }
  }

  // ---- registers as polynomials ------------------------------------------------

  lemma RegXor(a: bv32, b: bv32)
    ensures Reg(Xor(a, b)) == Add(Reg(a), Reg(b))
  {
    hide RegBit, Xor;
    forall e: nat | e < 32 ensures HasTerm(Xor(a, b), e) <==> HasTerm(a, e) != HasTerm(b, e) {
      XorBit(a, b, 31 - e);
    }
  }

  lemma RegFull()
    ensures Reg(0xFFFFFFFF) == Ones(32)
  {
    hide RegBit;
    forall e: nat | e < 32 ensures HasTerm(0xFFFFFFFF, e) { FullBit(31 - e); }
  }

  lemma RegNot(w: bv32)
    ensures Reg(!w) == Add(Reg(w), Ones(32))
  {
    NotIsXor(w);
    hide Xor;
    RegFull();
    RegXor(w, 0xFFFFFFFF);
  }

  lemma NotIsXor(w: bv32)
    ensures !w == Xor(w, 0xFFFFFFFF)
  {
  }

  /** Moving the register down is multiplying by x and dropping x^32. */
  lemma RegHalf(w: bv32)
    ensures Reg(Half(w)) == Shift(Reg(w), 1) - {32}
    ensures 32 in Shift(Reg(w), 1) <==> Odd(w)
  {
    hide RegBit, Half, Odd;
    FirstBit(w);
    forall e: nat | e < 32 ensures HasTerm(Half(w), e) <==> e >= 1 && HasTerm(w, e - 1) {
      NextBit(w, 31 - e);
      if e == 0 { BitsBelow(w, 32); }
    }
  }

  /** The terms of one bit in front of the register. */
  function Front(bit: bool): Poly { if bit then {32} else {} }

  /** One bit enters: x times the register, plus the bit at x^32, plus the
      generator if that leaves a term x^32. */
  lemma EnterTerms(w: bv32, bit: bool)
    ensures Reg(Enter(w, bit))
         == Add(Add(Shift(Reg(w), 1), Front(bit)), if Odd(w) != bit then GENERATOR else {})
  {
    hide RegBit, Half, Odd, Xor, Shift, Reg;
    RegHalf(w);
    RegXor(Half(w), POLYNOMIAL);
    RegFeedback();
    RegBelow(w);
  }

  lemma RegFeedback()
    ensures Reg(POLYNOMIAL) == GENERATOR - {32}
  {
    hide RegBit;
    forall e: nat | e < 32 ensures HasTerm(POLYNOMIAL, e) <==> e in GENERATOR { FeedbackTerm(e); }
    forall e: nat ensures e in Reg(POLYNOMIAL) <==> e in GENERATOR - {32} {
    }
  }

  lemma RegBelow(w: bv32)
    ensures Gf128.Below(Reg(w), 32)
  {
  }

  // ---- the message ---------------------------------------------------------------

  predicate HasBit(bits: seq<bool>, e: nat) {
    e < |bits| && bits[|bits| - 1 - e]
  }

  /** The polynomial of some bits, the first of them before the highest power. */
  function Terms(bits: seq<bool>): (r: Poly)
    ensures forall e: nat :: e in r <==> HasBit(bits, e)
  {
    set e: nat | e < |bits| && HasBit(bits, e)
  }

  lemma TermsMore(bits: seq<bool>, b: bool)
    ensures Terms(bits + [b]) == Add(Shift(Terms(bits), 1), if b then {0} else {})
  {
    forall e: nat ensures HasBit(bits + [b], e) <==> (if e == 0 then b else HasBit(bits, e - 1)) {
    }
  }

  /** What the register and the bits that enter it stand for. */
  function Entering(w: bv32, bits: seq<bool>): Poly {
    Add(Shift(Reg(w), |bits|), Shift(Terms(bits), 32))
  }

  lemma EnteringMore(w: bv32, bits: seq<bool>, b: bool)
    ensures Entering(w, bits + [b]) == Add(Shift(Entering(w, bits), 1), Front(b))
  {
    hide Terms, Reg, Shift, Add, Front;
    TermsMore(bits, b);
    var m, z := Terms(bits), if b then {0} else {};
    ShiftSum(Shift(m, 1), z, 32);
    ShiftTwice(m, 1, 32);
    FrontIsShift(b);
    ShiftMore(Reg(w), |bits|);
    ShiftAdd(Shift(Reg(w), |bits|), Shift(m, 32));
    AddInOrder(Shift(Shift(Reg(w), |bits|), 1), Shift(Shift(m, 32), 1), Front(b));
  }

  lemma ShiftSum(a: Poly, b: Poly, k: nat)
    ensures Shift(Add(a, b), k) == Add(Shift(a, k), Shift(b, k))
  {
    hide Shift, Add;
  }

  lemma ShiftTwice(a: Poly, j: nat, k: nat)
    ensures Shift(Shift(a, j), k) == Shift(Shift(a, k), j)
  {
    hide Shift;
  }

  lemma FrontIsShift(b: bool)
    ensures Shift(if b then {0} else {}, 32) == Front(b)
  {
  }

  lemma AddInOrder(a: Poly, b: Poly, c: Poly)
    ensures Add(a, Add(b, c)) == Add(Add(a, b), c)
  {
    hide Add;
  }

  lemma TimesOne(n: nat)
    requires n > 0
    ensures Product({0}, GENERATOR, n) == GENERATOR && Product({}, GENERATOR, n) == {}
  {
    ProductBound({0}, GENERATOR, 1, n);
    assert Shift(GENERATOR, 0) == GENERATOR;
    assert Product({0}, GENERATOR, 1) == Add(Product({0}, GENERATOR, 0), Shift(GENERATOR, 0));
    ProductEmpty(GENERATOR, n);
  }

  /** The quotient of one more bit. */
  lemma QuotientMore(q: Poly, n: nat, top: bool)
    requires Gf128.Below(q, n)
    ensures var r := Add(Shift(q, 1), if top then {0} else {});
            && Gf128.Below(r, n + 1)
            && Product(r, GENERATOR, n + 1)
               == Add(Shift(Product(q, GENERATOR, n), 1), if top then GENERATOR else {})
  {
    hide Product;
    ProductAdd(Shift(q, 1), if top then {0} else {}, GENERATOR, n + 1);
    ProductShift(q, GENERATOR, n);
    TimesOne(n + 1);
  }

  /** The bits that entered and what they left differ by a multiple of the
      generator. */
  lemma {:induction false} EnterResidue(w: bv32, bits: seq<bool>) returns (q: Poly)
    ensures Gf128.Below(q, |bits|)
    ensures Add(Entering(w, bits), Reg(EnterAll(w, bits))) == Product(q, GENERATOR, |bits|)
    decreases |bits|
  {
    hide Reg, Terms, Enter, Odd;
    if bits == [] {
      q := {};
      NothingEntering(w);
    } else {
      var n := |bits| - 1;
      var t, b := bits[..n], bits[n];
      var q0 := EnterResidue(w, t);
      var now := EnterAll(w, t);
      var top := Odd(now) != b;
      EnterMore(w, t, [b]);
      assert bits == t + [b];
      OneMore(now, b);
      EnterTerms(now, b);
      EnteringMore(w, t, b);
      QuotientMore(q0, n, top);
      q := Add(Shift(q0, 1), if top then {0} else {});
      Telescope(Entering(w, t), Reg(now), Front(b), if top then GENERATOR else {});
    }
  }

  lemma NothingEntering(w: bv32)
    ensures Add(Entering(w, []), Reg(EnterAll(w, []))) == {}
  {
    hide Reg;
    assert Terms([]) == {};
    assert Shift(Reg(w), 0) == Reg(w);
  }

  lemma OneMore(w: bv32, b: bool)
    ensures EnterAll(w, [b]) == Enter(w, b)
  {
    hide Enter;
    assert [b][1..] == [];
  }

  lemma Telescope(a: Poly, r: Poly, f: Poly, g: Poly)
    ensures Add(Add(Shift(a, 1), f), Add(Add(Shift(r, 1), f), g)) == Add(Shift(Add(a, r), 1), g)
  {
    ShiftAdd(a, r);
    hide Shift, Add;
  }

  // ---- the checksum --------------------------------------------------------------

  /** Bit j of a message in transmission order: bit j mod 8 of byte j / 8. */
  predicate DataBit(data: seq<bv8>, j: nat)
    requires j < 8 * |data|
  {
    RegBit(data[j / 8] as bv32, j % 8)
  }

  predicate HasDataTerm(data: seq<bv8>, e: nat) {
    e < 8 * |data| && DataBit(data, 8 * |data| - 1 - e)
  }

  /** The message as a polynomial: its first bit is the highest power. */
  function Message(data: seq<bv8>): (r: Poly)
    ensures forall e: nat :: e in r <==> HasDataTerm(data, e)
  {
    set e: nat | e < 8 * |data| && HasDataTerm(data, e)
  }

  lemma {:induction false} ByteInOrder(b: bv32, n: nat, k: nat)
    requires k < n
    ensures BitsFrom(b, n)[k] <==> RegBit(b, k)
    decreases n
  {
    hide RegBit, Odd, Half;
    if k == 0 {
      FirstBit(b);
    } else {
      NextBit(b, k - 1);
      ByteInOrder(Half(b), n - 1, k - 1);
    }
  }

  lemma {:induction false} SentInOrder(data: seq<bv8>, j: nat)
    ensures |Transmitted(data)| == 8 * |data|
    ensures j < 8 * |data| ==> (Transmitted(data)[j] <==> DataBit(data, j))
    decreases |data|
  {
    hide BitsFrom, RegBit;
    if data != [] {
      var t, b := data[..|data| - 1], data[|data| - 1];
      SentInOrder(t, j);
      if 8 * |t| <= j < 8 * |data| { ByteInOrder(Wide(b), 8, j - 8 * |t|); }
    }
  }

  lemma SentIsMessage(data: seq<bv8>)
    ensures |Transmitted(data)| == 8 * |data| && Terms(Transmitted(data)) == Message(data)
  {
    hide Transmitted, DataBit;
    SentInOrder(data, 0);
    forall e: nat | e < 8 * |data| ensures HasBit(Transmitted(data), e) <==> HasDataTerm(data, e) {
      SentInOrder(data, 8 * |data| - 1 - e);
    }
  }

  /** r is what a leaves modulo the generator. */
  ghost predicate Remainder(a: Poly, r: Poly) {
    Gf128.Below(r, 32) && exists q: Poly, n: nat :: Divides(a, r, q, n)
  }

  predicate Divides(a: Poly, r: Poly, q: Poly, n: nat) {
    Gf128.Below(q, n) && Add(a, r) == Product(q, GENERATOR, n)
  }

  lemma RemainderUnique(a: Poly, r: Poly, s: Poly)
    requires Remainder(a, r) && Remainder(a, s)
    ensures r == s
  {
    hide Divides;
    var q: Poly, n: nat :| Divides(a, r, q, n);
    var p: Poly, m: nat :| Divides(a, s, p, m);
    SameRemainder(a, r, q, n, s, p, m);
  }

  lemma SameRemainder(a: Poly, r: Poly, q: Poly, n: nat, s: Poly, p: Poly, m: nat)
    requires Gf128.Below(r, 32) && Divides(a, r, q, n) && Gf128.Below(s, 32) && Divides(a, s, p, m)
    ensures r == s
  {
    hide Product, Add;
    var k := if n <= m then m else n;
    ProductBound(q, GENERATOR, n, k);
    ProductBound(p, GENERATOR, m, k);
    ProductAdd(q, p, GENERATOR, k);
    SumOfSums(a, r, s);
    assert Leads(GENERATOR, 32);
    SmallMultiple(Add(q, p), GENERATOR, 32, k);
    forall e ensures e in r <==> e in s { assert e !in Add(r, s); }
  }

  lemma SumOfSums(a: Poly, r: Poly, s: Poly)
    ensures Add(Add(a, r), Add(a, s)) == Add(r, s)
  {
    hide Add;
  }

  /** The message times x^32, with the first 32 bits complemented. */
  function Dividend(data: seq<bv8>): Poly {
    Add(Shift(Message(data), 32), Shift(Ones(32), 8 * |data|))
  }

  /** The complement of the checksum is the remainder, and that of no other
      register is. */
  lemma ChecksumIsRemainder(data: seq<bv8>, w: bv32)
    ensures w == Checksum(data) <==> Remainder(Dividend(data), Add(Reg(w), Ones(32)))
  {
    hide Transmitted, EnterAll, Reg, Remainder, Dividend;
    ChecksumLeaves(data);
    if Remainder(Dividend(data), Add(Reg(w), Ones(32))) {
      RemainderUnique(Dividend(data), Add(Reg(w), Ones(32)), Add(Reg(Checksum(data)), Ones(32)));
      AddCancels(Reg(w), Reg(Checksum(data)), Ones(32));
      RegInjective(w, Checksum(data));
    }
  }

  lemma AddCancels(a: Poly, b: Poly, c: Poly)
    requires Add(a, c) == Add(b, c)
    ensures a == b
  {
    forall e ensures e in a <==> e in b { assert e in Add(a, c) <==> e in Add(b, c); }
  }

  lemma ChecksumLeaves(data: seq<bv8>)
    ensures Remainder(Dividend(data), Add(Reg(Checksum(data)), Ones(32)))
  {
    hide Transmitted, EnterAll, Reg, Terms, Message, Product, Shift;
    var left := EnterAll(0xFFFFFFFF, Transmitted(data));
    SentIsMessage(data);
    RegFull();
    RegNot(left);
    RegBelow(left);
    assert Add(Add(Reg(left), Ones(32)), Ones(32)) == Reg(left);
    var q := EnterResidue(0xFFFFFFFF, Transmitted(data));
    assert Entering(0xFFFFFFFF, Transmitted(data)) == Dividend(data);
    assert Divides(Dividend(data), Reg(left), q, 8 * |data|);
  }

  lemma RegInjective(a: bv32, b: bv32)
    requires Reg(a) == Reg(b)
    ensures a == b
  {
    hide RegBit, Xor, Shifted;
    var x := Xor(a, b);
    forall i: nat | i < 32 ensures !RegBit(x, i) {
      XorBit(a, b, i);
      assert HasTerm(a, 31 - i) <==> 31 - i in Reg(a);
      assert HasTerm(b, 31 - i) <==> 31 - i in Reg(b);
    }
    forall i: nat | i < 8
      ensures !RegBit(Shifted(x), i) && !RegBit(Shifted(Shifted(x)), i) && !RegBit(Shifted(Shifted(Shifted(x))), i)
    {
      ByteOn(x, i);
      ByteOn(x, i + 8);
      ByteOn(x, i + 16);
      ByteOn(Shifted(x), i);
      ByteOn(Shifted(x), i + 8);
      ByteOn(Shifted(Shifted(x)), i);
    }
    LowBits(x);
    LowBits(Shifted(x));
    LowBits(Shifted(Shifted(x)));
    LowBits(Shifted(Shifted(Shifted(x))));
    NoBytes(x);
    XorZero(a, b);
  }

  predicate NoByte(w: bv32) {
    && w & 1 == 0 && w & 2 == 0 && w & 4 == 0 && w & 8 == 0
    && w & 16 == 0 && w & 32 == 0 && w & 64 == 0 && w & 128 == 0
  }

  lemma NoBytes(x: bv32)
    requires NoByte(x) && NoByte(Shifted(x)) && NoByte(Shifted(Shifted(x))) && NoByte(Shifted(Shifted(Shifted(x))))
    ensures x == 0
  {
  }

  lemma XorZero(a: bv32, b: bv32)
    requires Xor(a, b) == 0
    ensures a == b
  {
  }
}
