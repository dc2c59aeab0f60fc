// What the arithmetic, logic and compare instructions mean in terms of numbers
// and bits, for the machine and for the compiler's folding of constants.

module AluLaws {
  import opened Words
  import opened Bits
  import opened Isa
  import opened Vm
  import opened Lang
  import opened LateReads

  // ---- division ------------------------------------------------------------

  function Abs(x: int): nat { if x >= 0 then x else -x }

  /** q and r are quotient and remainder of x by y, rounded toward zero: the
      remainder is smaller than the divisor and has the dividend's sign. */
  predicate Divides(x: int, y: int, q: int, r: int) {
    x == y * q + r && Abs(r) < Abs(y) && (r == 0 || (r > 0 <==> x > 0))
  }

  /** No other pair is. */
  lemma DividesUnique(x: int, y: int, q: int, r: int, q1: int, r1: int)
    requires Divides(x, y, q, r) && Divides(x, y, q1, r1)
    ensures q == q1 && r == r1
  {
    assert y * (q - q1) == r1 - r;
    if q != q1 {
      AtLeastOnce(Abs(y), Abs(q - q1));
      AbsProduct(y, q - q1);
    }
  }

  lemma AbsProduct(a: int, b: int)
    ensures Abs(a * b) == Abs(a) * Abs(b)
  {
    if a >= 0 && b >= 0 { Sign(a, b); }
    else if a >= 0 { Sign(a, -b); assert a * b == -(a * -b); }
    else if b >= 0 { Sign(-a, b); assert a * b == -(-a * b); }
    else { Sign(-a, -b); assert a * b == -a * -b; }
  }

  lemma Sign(a: nat, b: nat)
    ensures a * b >= 0
  {
  }

  /** The division the instructions use is that one. */
  lemma QuotientLaw(x: int, y: int)
    requires y != 0
    ensures Divides(x, y, QuotTowardZero(x, y), RemTowardZero(x, y))
  {
    var a, b := Abs(x), Abs(y);
    Euclid(a, b);
    var q: int, r: int := a / b, a % b;
    assert QuotTowardZero(x, y) == if (x >= 0) == (y > 0) then q else -q;
    assert RemTowardZero(x, y) == if x >= 0 then r else -r;
    if x >= 0 && y < 0 { assert y * -q == b * q; }
    if x < 0 && y > 0 { assert y * -q == -(b * q); }
    if x < 0 && y < 0 { assert y * q == -(b * q); }
  }

  lemma Euclid(a: nat, b: nat)
    requires b > 0
    ensures a == b * (a / b) + a % b && a % b < b && a / b >= 0
  {
  }

  /** Words that divide, or the one quotient that is no word: the smallest word
      by minus one wraps to itself. */
  ghost predicate WordsDivide(x: i64, y: i64, q: i64, r: i64) {
    if x == -TWO_63 && y == -1 then q == -TWO_63 && r == 0 else Divides(x, y, q, r)
  }

  lemma WrappedDivision(x: i64, y: i64)
    requires y != 0
    ensures WordsDivide(x, y, Wrap(QuotTowardZero(x, y)), Wrap(RemTowardZero(x, y)))
  {
    hide QuotTowardZero, RemTowardZero, Wrap;
    QuotientLaw(x, y);
    var q, r := QuotTowardZero(x, y), RemTowardZero(x, y);
    if x == -TWO_63 && y == -1 {
      DividesUnique(x, y, q, r, TWO_63, 0);
      WrapIsCongruent(TWO_63, -TWO_63);
      WrapIsCongruent(0, 0);
    } else {
      QuotientFits(x, y, q, r);
      WrapIsCongruent(q, q);
      WrapIsCongruent(r, r);
    }
  }

  lemma QuotientFits(x: i64, y: i64, q: int, r: int)
    requires Divides(x, y, q, r) && !(x == -TWO_63 && y == -1)
    ensures -TWO_63 <= q < TWO_63 && -TWO_63 <= r < TWO_63
  {
    AbsProduct(y, q);
    if q != 0 { AtLeastOnce(Abs(q), Abs(y)); SmallerThan(x, y, q, r); }
  }

  lemma SmallerThan(x: int, y: int, q: int, r: int)
    requires Divides(x, y, q, r) && q != 0 && Abs(y * q) == Abs(y) * Abs(q) && Abs(q) * Abs(y) >= Abs(q)
    ensures Abs(q) <= Abs(x)
    ensures Abs(q) == Abs(x) ==> x == 0 || Abs(y) == 1
  {
    SameSide(x, y, q, r);
    if Abs(y) >= 2 {
      assert Abs(y) * Abs(q) >= 2 * Abs(q) by { AtLeastOnce(Abs(q), Abs(y) - 1); Twice(Abs(y), Abs(q)); }
    }
  }

  lemma Twice(a: nat, b: nat)
    requires a >= 1
    ensures a * b == b + b * (a - 1)
  {
  }

  /** The product part of a division is no larger than the dividend. */
  lemma SameSide(x: int, y: int, q: int, r: int)
    requires Divides(x, y, q, r) && q != 0
    ensures Abs(y * q) <= Abs(x)
  {
    AbsProduct(y, q);
    AtLeastOnce(Abs(y), Abs(q));
  }

  /** DIV and MOD leave quotient and remainder, rounded toward zero, in their
      registers, and raise the fault exactly for divisor zero. */
  lemma DivisionInRegisters(m: Machine, st: State, q: u8, r: u8, a: u8, b: u8)
    requires Valid(st) && q < 20 && r < 20 && a < 20 && b < 20
    ensures var d, e := Exec(m, Instr(Alu(Div), q, a, b), st), Exec(m, Instr(Alu(Mod), r, a, b), st);
            if st.regs[b] == 0 then
              d.Faulted? && d.fault == DivByZero && e.Faulted? && e.fault == DivByZero
            else
              && d.Next? && d.st == st.(regs := st.regs[q := d.st.regs[q]])
              && e.Next? && e.st == st.(regs := st.regs[r := e.st.regs[r]])
              && WordsDivide(st.regs[a], st.regs[b], d.st.regs[q], e.st.regs[r])
  {
    hide QuotTowardZero, RemTowardZero, Wrap, Divides;
    if st.regs[b] != 0 { WrappedDivision(st.regs[a], st.regs[b]); }
  }

  /** Folded constants divide likewise; a zero divisor of a division or remainder
      is the compile error, and nothing else is. */
  lemma FoldedDivision(op: BinOp, a: i64, b: i64)
    ensures FoldBin(op, a, b).None? <==> op in {Arith(Div), Arith(Mod)} && b == 0
    ensures b != 0 ==> WordsDivide(a, b, FoldBin(Arith(Div), a, b).value, FoldBin(Arith(Mod), a, b).value)
  {
    hide QuotTowardZero, RemTowardZero, Wrap, Divides;
    if b != 0 { WrappedDivision(a, b); }
  }

  /** Literals under parentheses, signs and operators. */
  predicate Constant(e: Expr) {
    match e
    case Lit(_) => true
    case Paren(i) => Constant(i)
    case Neg(a) => Constant(a)
    case Not(a) => Constant(a)
    case Bin(_, l, r) => Constant(l) && Constant(r)
    case _ => false
  }

  /** Exactly the constant expressions without a fault fold. */
  lemma {:induction false} FoldsExactly(m: Machine, e: Expr, env: Env)
    requires Faithful(m, e)
    ensures Fold(e).Some? <==> Constant(e) && Eval(m, e, env).Value?
  {
    match e
    case Paren(i) => FoldsExactly(m, i, env);
    case Neg(a) => FoldsExactly(m, a, env);
    case Not(a) => FoldsExactly(m, a, env);
    case Bin(op, l, r) =>
      hide FoldBin, AluResult;
      FoldsExactly(m, l, env);
      FoldsExactly(m, r, env);
      if Fold(l).Some? && Fold(r).Some? {
        FoldIsEval(m, l, env);
        FoldIsEval(m, r, env);
        FaultsAlike(m, op, Fold(l).value, Fold(r).value);
      }
    case _ =>
  }

  lemma FaultsAlike(m: Machine, op: BinOp, a: i64, b: i64)
    ensures FoldBin(op, a, b).Some? <==> Apply(m, op, a, b).Value?
  {
  }

  // ---- sums, products, bits ------------------------------------------------

  /** The word of a number has the number's low 64 bits. */
  lemma WordBits(u: nat, i: nat)
    requires i < 64
    ensures Bit(Unsigned(Wrap(u)), i) <==> Bit(u, i)
  {
    hide Bit, Pow2, Wrap;
    UnsignedOfWrap(u);
    Pow2Values();
    BitOfPair(u / TWO_64, u % TWO_64, 64, i);
  }

  lemma UnsignedOfWrap(u: nat)
    ensures Unsigned(Wrap(u)) == u % TWO_64 && u == u / TWO_64 * TWO_64 + u % TWO_64 && u / TWO_64 >= 0
  {
  }

  /** Addition, subtraction and multiplication are those of the integers modulo
      2^64. */
  lemma SumLaw(m: Machine, f: AluOp, x: i64, y: i64)
    requires f in {Add, Sub, Mul}
    ensures AluResult(m, f, x, y).Value?
    ensures var v: int := AluResult(m, f, x, y).v;
            && (f == Add ==> (v - x - y) % TWO_64 == 0)
            && (f == Sub ==> (v - x + y) % TWO_64 == 0)
            && (f == Mul ==> (v - x * y) % TWO_64 == 0)
  {
    WrapIsCongruent(x + y, Wrap(x + y));
    WrapIsCongruent(x - y, Wrap(x - y));
    WrapIsCongruent(x * y, Wrap(x * y));
  }

  /** AND, OR and XOR work bit by bit. */
  lemma LogicLaw(m: Machine, f: AluOp, x: i64, y: i64, i: nat)
    requires f in {And, Or, Xor} && i < 64
    ensures AluResult(m, f, x, y).Value?
    ensures var a, b := Bit(Unsigned(x), i), Bit(Unsigned(y), i);
            var c := Bit(Unsigned(AluResult(m, f, x, y).v), i);
            && (f == And ==> (c <==> a && b))
            && (f == Or ==> (c <==> a || b))
            && (f == Xor ==> (c <==> a != b))
  {
    var o := if f == And then BitAnd else if f == Or then BitOr else BitXor;
    BitOfBitwise(o, Unsigned(x), Unsigned(y), 64, i);
    WordBits(Bitwise(o, Unsigned(x), Unsigned(y), 64), i);
  }

  /** Shifts move bits by the low six bits of the count and fill with zeros; the
      right shift is logical. */
  lemma ShiftLaw(m: Machine, x: i64, y: i64, i: nat)
    requires i < 64
    ensures AluResult(m, Shl, x, y).Value? && AluResult(m, Shr, x, y).Value?
    ensures var n := Unsigned(y) % 64;
            && (Bit(Unsigned(AluResult(m, Shl, x, y).v), i) <==> i >= n && Bit(Unsigned(x), i - n))
            && (Bit(Unsigned(AluResult(m, Shr, x, y).v), i) <==> i + n < 64 && Bit(Unsigned(x), i + n))
  {
    hide Wrap, Pow2, Bit;
    var n, u := Unsigned(y) % 64, Unsigned(x);
    LeftBits(u, n, i);
    WordBits(u * Pow2(n), i);
    QuotientBelow(u, Pow2(n));
    var q: nat := u / Pow2(n);
    RightBits(u, n, i, q);
    WordBits(q, i);
  }

  lemma LeftBits(u: nat, n: nat, i: nat)
    ensures Bit(u * Pow2(n), i) <==> i >= n && Bit(u, i - n)
  {
    BitOfPair(u, 0, n, i);
    ZeroBits(i);
  }

  lemma RightBits(u: nat, n: nat, i: nat, q: nat)
    requires u < TWO_64 && q == u / Pow2(n)
    ensures Bit(q, i) <==> i + n < 64 && Bit(u, i + n)
  {
    hide Bit, Pow2;
    var p := Pow2(n);
    Euclid(u, p);
    var r: nat := u % p;
    BitOfPair(q, r, n, i + n);
    if i + n >= 64 { HighBits(u, i + n); }
  }

  lemma HighBits(u: nat, i: nat)
    requires u < TWO_64 && i >= 64
    ensures !Bit(u, i)
  {
    Pow2Values();
    BitOfPair(0, u, 64, i);
    ZeroBits(i - 64);
  }

  // ---- comparisons ---------------------------------------------------------

  /** Comparisons give 1 or 0; the order is that of signed words, and each
      comparison is the negation of its opposite. */
  lemma CompareLaw(m: Machine, x: i64, y: i64)
    ensures forall f :: f in {Eq, Ne, Lt, Le, Gt, Ge} ==> AluResult(m, f, x, y).Value?
    ensures AluResult(m, Lt, x, y).v == 1 <==> (y as int) - (x as int) > 0
    ensures AluResult(m, Gt, x, y) == AluResult(m, Lt, y, x)
    ensures AluResult(m, Le, x, y).v == 1 - AluResult(m, Lt, y, x).v
    ensures AluResult(m, Ge, x, y).v == 1 - AluResult(m, Lt, x, y).v
    ensures AluResult(m, Ne, x, y).v == 1 - AluResult(m, Eq, x, y).v
    ensures AluResult(m, Lt, x, y).v in {0, 1} && AluResult(m, Eq, x, y).v in {0, 1}
    ensures !(IsTextWord(x) && IsTextWord(y)) ==> (AluResult(m, Eq, x, y).v == 1 <==> x == y)
  {
  }

  /** Two text words are equal exactly if both stand for some bytes, the same. */
  lemma TextEquality(m: Machine, x: i64, y: i64)
    requires IsTextWord(x) && IsTextWord(y) && x != y
    ensures AluResult(m, Eq, x, y).Value?
    ensures AluResult(m, Eq, x, y).v == 1 <==> exists b :: TextOf(m, x) == Text(b) && TextOf(m, y) == Text(b)
  {
    if SameText(m, x, y) { assert TextOf(m, y) == Text(TextOf(m, x).bytes); }
  }

  // ---- intrinsics ----------------------------------------------------------

  /** `min`, `max` and `clamp` pick the word the order asks for, `abs` the one of
      two opposite words that is not negative; the smallest word has no opposite
      and gives the largest. */
  lemma OrderLaw(m: Machine, x: i64, y: i64, z: i64)
    ensures var (p, q, r) := (MathResult(m, 21, x, y, z), MathResult(m, 22, x, y, z), MathResult(m, 24, x, y, z));
            && p.Value? && p.v <= x && p.v <= y && p.v in {x, y}
            && q.Value? && q.v >= x && q.v >= y && q.v in {x, y}
            && r.Value? && (y <= x <= z ==> r.v == x) && (x < y <= z ==> r.v == y) && (x > z || y > z ==> r.v == z)
    ensures AbsWord(x) >= 0
    ensures if x == -TWO_63 then AbsWord(x) == TWO_63 - 1 else AbsWord(x) == x || AbsWord(x) + x == 0
  {
  }

  /** The error tag is bit 60; the tags change that bit and no other. */
  lemma TagLaw(x: i64, i: nat)
    requires i < 64
    ensures Tagged(x, ERR_TAG) <==> Bit(Unsigned(x), 60)
    ensures Bit(Unsigned(SetTag(x, ERR_TAG)), i) <==> i == 60 || Bit(Unsigned(x), i)
    ensures Bit(Unsigned(ClearTag(x, ERR_TAG)), i) <==> i != 60 && Bit(Unsigned(x), i)
  {
    var u := Unsigned(x);
    Pow2Values();
    BitIsQuotient(u, 60);
    hide Bit, Pow2;
    if Tagged(x, ERR_TAG) {
      ClearBit(u, i);
      WordBits(u - ERR_TAG, i);
    } else {
      SetBit(u, i);
      WordBits(u + ERR_TAG, i);
    }
  }

  lemma ClearBit(u: nat, i: nat)
    requires u >= ERR_TAG && u / ERR_TAG % 2 == 1
    ensures Bit(u - ERR_TAG, i) <==> i != 60 && Bit(u, i)
    ensures Bit(u, 60)
  {
    BitIsQuotient(u, 60);
    Pow2Values();
    SetBit(u - ERR_TAG, i);
    assert (u - ERR_TAG) / ERR_TAG == u / ERR_TAG - 1;
    BitIsQuotient(u - ERR_TAG, 60);
  }

  lemma SetBit(u: nat, i: nat)
    requires u / ERR_TAG % 2 == 0
    ensures Bit(u + ERR_TAG, i) <==> i == 60 || Bit(u, i)
  {
    Pow2Values();
    var q, r := u / ERR_TAG, u % ERR_TAG;
    assert u == q * ERR_TAG + r && u + ERR_TAG == (q + 1) * ERR_TAG + r;
    BitOfPair(q, r, 60, i);
    BitOfPair(q + 1, r, 60, i);
    if i == 60 {
      assert Bit(q + 1, 0);
    } else if i > 60 {
      assert (q + 1) / 2 == q / 2;
    }
  }
}
