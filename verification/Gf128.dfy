// Polynomials over GF(2) as sets of exponents, their schoolbook product, and
// the field GF(2^128) of section 6.3 of NIST SP 800-38D: the bit-serial product
// is the residue of the polynomial product modulo x^128 + x^7 + x^2 + x + 1.

module Gf128 {

  type Poly = set<nat>

  function Add(a: Poly, b: Poly): (r: Poly)
    ensures forall e :: e in r <==> (e in a) != (e in b)
  {
    (a - b) + (b - a)
  }

  /** x^k times a */
  function Shift(a: Poly, k: nat): (r: Poly)
    ensures forall e: nat :: e in r <==> e >= k && e - k in a
  {
    set e | e in a :: e + k
  }

  predicate Below(a: Poly, n: nat) {
    forall e :: e in a ==> e < n
  }

  /** The sum of x^i times b over the exponents i of a below n. */
  function Product(a: Poly, b: Poly, n: nat): Poly {
    if n == 0 then {}
    else Add(Product(a, b, n - 1), if n - 1 in a then Shift(b, n - 1) else {})
  }

  // ---- the product is linear, commutes with shifts, and is commutative ----

  lemma {:induction false} ProductAdd(a: Poly, c: Poly, b: Poly, n: nat)
    ensures Product(Add(a, c), b, n) == Add(Product(a, b, n), Product(c, b, n))
  {
    if n > 0 { ProductAdd(a, c, b, n - 1); }
  }

  lemma {:induction false} ProductAddRight(a: Poly, b: Poly, c: Poly, n: nat)
    ensures Product(a, Add(b, c), n) == Add(Product(a, b, n), Product(a, c, n))
  {
    if n > 0 {
      ProductAddRight(a, b, c, n - 1);
      assert Shift(Add(b, c), n - 1) == Add(Shift(b, n - 1), Shift(c, n - 1));
    }
  }

  lemma ShiftAdd(a: Poly, b: Poly)
    ensures Shift(Add(a, b), 1) == Add(Shift(a, 1), Shift(b, 1))
  {
    hide Shift, Add;
  }

  lemma ShiftMore(b: Poly, n: nat)
    ensures Shift(b, n + 1) == Shift(Shift(b, n), 1)
  {
    hide Shift;
  }

  lemma {:induction false} ProductShift(a: Poly, b: Poly, n: nat)
    ensures Product(Shift(a, 1), b, n + 1) == Shift(Product(a, b, n), 1)
    decreases n
  {
    if n > 0 {
      ProductShift(a, b, n - 1);
      var term := if n - 1 in a then Shift(b, n - 1) else {};
      ShiftAdd(Product(a, b, n - 1), term);
      ShiftMore(b, n - 1);
      assert n in Shift(a, 1) <==> n - 1 in a;
      hide Shift, Add;
    }
  }

  /** Exponents from n on do not matter. */
  lemma {:induction false} ProductBound(a: Poly, b: Poly, n: nat, m: nat)
    requires Below(a, n) && n <= m
    ensures Product(a, b, m) == Product(a, b, n)
    decreases m
  {
    if m > n { ProductBound(a, b, n, m - 1); }
  }

  lemma {:induction false} TermMember(a: Poly, j: nat, n: nat, e: nat)
    ensures e in Product(a, {j}, n) <==> e >= j && e - j in a && e - j < n
  {
    if n > 0 { TermMember(a, j, n - 1, e); }
  }

  lemma ProductOfTerm(a: Poly, j: nat, n: nat)
    requires Below(a, n)
    ensures Product(a, {j}, n) == Shift(a, j)
  {
    forall e: nat ensures e in Product(a, {j}, n) <==> e in Shift(a, j) { TermMember(a, j, n, e); }
  }

  lemma {:induction false} ProductEmpty(a: Poly, n: nat)
    ensures Product(a, {}, n) == {} && Product({}, a, n) == {}
  {
    if n > 0 { ProductEmpty(a, n - 1); }
  }

  lemma {:induction false} ProductCommutes(a: Poly, b: Poly, n: nat, m: nat)
    requires Below(a, n) && Below(b, m)
    ensures Product(a, b, n) == Product(b, a, m)
    decreases m
  {
    if m == 0 {
      assert b == {};
      ProductEmpty(a, n);
    } else {
      var low := b - {m - 1};
      ProductCommutes(a, low, n, m - 1);
      SameTerms(b, low, a, m - 1);
      if m - 1 in b {
        assert b == Add(low, {m - 1});
        ProductAddRight(a, low, {m - 1}, n);
        ProductOfTerm(a, m - 1, n);
      } else {
        assert low == b;
      }
    }
  }

  lemma {:induction false} SameTerms(a: Poly, c: Poly, b: Poly, n: nat)
    requires forall e :: 0 <= e < n ==> (e in a <==> e in c)
    ensures Product(a, b, n) == Product(c, b, n)
  {
    if n > 0 { SameTerms(a, c, b, n - 1); }
  }

  // ---- residues ------------------------------------------------------------

  /** x^128 + x^7 + x^2 + x + 1 */
  const MODULUS: Poly := {0, 1, 2, 7, 128}

  /** a and b differ by q times the modulus. */
  predicate Differ(a: Poly, b: Poly, q: Poly, n: nat) {
    Below(q, n) && Add(a, b) == Product(q, MODULUS, n)
  }

  /** a and b are congruent modulo the modulus. */
  ghost predicate Congruent(a: Poly, b: Poly) {
    exists q: Poly, n: nat :: Differ(a, b, q, n)
  }

  lemma CongruentSelf(a: Poly)
    ensures Congruent(a, a)
  {
    assert Add(a, a) == {};
    assert Differ(a, a, {}, 0);
  }

  lemma CongruentBack(a: Poly, b: Poly)
    requires Congruent(a, b)
    ensures Congruent(b, a)
  {
    var q: Poly, n: nat :| Differ(a, b, q, n);
    assert Add(b, a) == Add(a, b);
    assert Differ(b, a, q, n);
  }

  lemma CongruentAdd(a: Poly, b: Poly, c: Poly, d: Poly)
    requires Congruent(a, b) && Congruent(c, d)
    ensures Congruent(Add(a, c), Add(b, d))
  {
    var q: Poly, n: nat :| Differ(a, b, q, n);
    var r: Poly, m: nat :| Differ(c, d, r, m);
    var k := if n <= m then m else n;
    ProductBound(q, MODULUS, n, k);
    ProductBound(r, MODULUS, m, k);
    ProductAdd(q, r, MODULUS, k);
    assert Add(Add(a, c), Add(b, d)) == Add(Add(a, b), Add(c, d));
    assert Differ(Add(a, c), Add(b, d), Add(q, r), k);
  }

  lemma CongruentTrans(a: Poly, b: Poly, c: Poly)
    requires Congruent(a, b) && Congruent(b, c)
    ensures Congruent(a, c)
  {
    CongruentAdd(a, b, b, c);
    CongruentSelf(b);
    CongruentAdd(Add(a, b), Add(b, c), b, b);
    assert Add(Add(a, b), b) == a;
    assert Add(Add(b, c), b) == c;
  }

  lemma CongruentShift(a: Poly, b: Poly)
    requires Congruent(a, b)
    ensures Congruent(Shift(a, 1), Shift(b, 1))
  {
    var q: Poly, n: nat :| Differ(a, b, q, n);
    ProductShift(q, MODULUS, n);
    assert Add(Shift(a, 1), Shift(b, 1)) == Shift(Add(a, b), 1);
    assert Differ(Shift(a, 1), Shift(b, 1), Shift(q, 1), n + 1);
  }

  lemma ModulusIsZero(a: Poly)
    ensures Congruent(Add(a, MODULUS), a)
  {
    assert Add(Add(a, MODULUS), a) == MODULUS;
    assert Product({0}, MODULUS, 1) == Add(Product({0}, MODULUS, 0), Shift(MODULUS, 0));
    assert Shift(MODULUS, 0) == MODULUS;
    assert Differ(Add(a, MODULUS), a, {0}, 1);
  }

  // ---- residues are unique ---------------------------------------------------

  /** x^d is the first term of g. */
  predicate Leads(g: Poly, d: nat) {
    d in g && Below(g, d + 1)
  }

  lemma {:induction false} ProductBelow(q: Poly, g: Poly, d: nat, n: nat)
    requires Leads(g, d)
    ensures Below(Product(q, g, n), n + d)
  {
    if n > 0 { ProductBelow(q, g, d, n - 1); }
  }

  lemma TopTerm(q: Poly, g: Poly, d: nat, n: nat)
    requires Leads(g, d) && n > 0 && n - 1 in q
    ensures n + d - 1 in Product(q, g, n)
  {
    ProductBelow(q, g, d, n - 1);
    assert n + d - 1 in Shift(g, n - 1);
  }

  /** A multiple of g below its first term is zero. */
  lemma {:induction false} SmallMultiple(q: Poly, g: Poly, d: nat, n: nat)
    requires Leads(g, d) && Below(q, n) && Below(Product(q, g, n), d)
    ensures Product(q, g, n) == {}
    decreases n
  {
    if n > 0 {
      if n - 1 in q {
        TopTerm(q, g, d, n);
        assert false;
      }
      assert Add(Product(q, g, n - 1), {}) == Product(q, g, n - 1);
      assert Below(q, n - 1);
      SmallMultiple(q, g, d, n - 1);
    }
  }

  lemma ResidueUnique(a: Poly, b: Poly)
    requires Below(a, 128) && Below(b, 128) && Congruent(a, b)
    ensures a == b
  {
    var q: Poly, n: nat :| Differ(a, b, q, n);
    SmallMultiple(q, MODULUS, 128, n);
    assert Add(a, b) == {};
    forall e ensures e in a <==> e in b { assert e !in Add(a, b); }
  }

  // ---- the bit-serial product --------------------------------------------------

  /** x times v, reduced: the top term x^127 comes back as x^7 + x^2 + x + 1. */
  function TimesX(v: Poly): Poly {
    if 127 in v then Add(Shift(v, 1), MODULUS) else Shift(v, 1)
  }

  function Power(y: Poly, n: nat): Poly {
    if n == 0 then y else TimesX(Power(y, n - 1))
  }

  /** The terms of x below n, each times y and reduced. */
  function Serial(x: Poly, y: Poly, n: nat): Poly {
    if n == 0 then {}
    else if n - 1 in x then Add(Serial(x, y, n - 1), Power(y, n - 1)) else Serial(x, y, n - 1)
  }

  function FieldMul(x: Poly, y: Poly): Poly { Serial(x, y, 128) }

  lemma TimesXBelow(v: Poly)
    requires Below(v, 128)
    ensures Below(TimesX(v), 128)
  {
    var s := Shift(v, 1);
    assert forall e :: e in s ==> e <= 128;
    assert 128 in s <==> 127 in v;
  }

  lemma TimesXReduces(v: Poly)
    requires Below(v, 128)
    ensures Below(TimesX(v), 128) && Congruent(TimesX(v), Shift(v, 1))
  {
    TimesXBelow(v);
    hide Congruent, Shift, Add, Below;
    if 127 in v { ModulusIsZero(Shift(v, 1)); } else { CongruentSelf(Shift(v, 1)); }
  }

  lemma {:induction false} PowerIsShift(y: Poly, n: nat)
    requires Below(y, 128)
    ensures Below(Power(y, n), 128) && Congruent(Power(y, n), Shift(y, n))
  {
    if n == 0 {
      assert Shift(y, 0) == y;
      CongruentSelf(y);
    } else {
      PowerIsShift(y, n - 1);
      var v := Power(y, n - 1);
      hide Congruent, TimesX;
      TimesXReduces(v);
      CongruentShift(v, Shift(y, n - 1));
      assert Shift(Shift(y, n - 1), 1) == Shift(y, n);
      CongruentTrans(TimesX(v), Shift(v, 1), Shift(y, n));
    }
  }

  lemma {:induction false} SerialIsProduct(x: Poly, y: Poly, n: nat)
    requires Below(y, 128)
    ensures Below(Serial(x, y, n), 128) && Congruent(Serial(x, y, n), Product(x, y, n))
  {
    if n == 0 {
      CongruentSelf({});
    } else {
      SerialIsProduct(x, y, n - 1);
      if n - 1 in x {
        PowerIsShift(y, n - 1);
        CongruentAdd(Serial(x, y, n - 1), Product(x, y, n - 1), Power(y, n - 1), Shift(y, n - 1));
      } else {
        assert Add(Product(x, y, n - 1), {}) == Product(x, y, n - 1);
      }
    }
  }

  /** The bit-serial result is the residue of the polynomial product. */
  lemma FieldMulIsResidue(x: Poly, y: Poly)
    requires Below(x, 128) && Below(y, 128)
    ensures Below(FieldMul(x, y), 128) && Congruent(FieldMul(x, y), Product(x, y, 128))
  {
    SerialIsProduct(x, y, 128);
  }

  lemma FieldMulCommutes(x: Poly, y: Poly)
    requires Below(x, 128) && Below(y, 128)
    ensures FieldMul(x, y) == FieldMul(y, x)
  {
    FieldMulIsResidue(x, y);
    FieldMulIsResidue(y, x);
    ProductCommutes(x, y, 128, 128);
    CongruentBack(FieldMul(y, x), Product(y, x, 128));
    CongruentTrans(FieldMul(x, y), Product(x, y, 128), FieldMul(y, x));
    ResidueUnique(FieldMul(x, y), FieldMul(y, x));
  }

  lemma {:induction false} SerialAdd(x: Poly, w: Poly, y: Poly, n: nat)
    ensures Serial(Add(x, w), y, n) == Add(Serial(x, y, n), Serial(w, y, n))
  {
    if n > 0 { SerialAdd(x, w, y, n - 1); }
  }

  /** Linear over XOR in each argument. */
  lemma FieldMulBilinear(x: Poly, w: Poly, y: Poly)
    requires Below(x, 128) && Below(w, 128) && Below(y, 128)
    ensures FieldMul(Add(x, w), y) == Add(FieldMul(x, y), FieldMul(w, y))
    ensures FieldMul(y, Add(x, w)) == Add(FieldMul(y, x), FieldMul(y, w))
  {
    SerialAdd(x, w, y, 128);
    FieldMulCommutes(y, Add(x, w));
    FieldMulCommutes(y, x);
    FieldMulCommutes(y, w);
  }
}
