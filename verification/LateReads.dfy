// Assignments that read their target after a partial result was left in its
// register: for every operator, exactly when the result is still the source's,
// and a class of expressions on which the syntactic test is exact.

module LateReads {
  import opened Words
  import opened Bits
  import opened Isa
  import opened Vm
  import opened Lang

  // ---- shifts --------------------------------------------------------------

  /** A power of two divides no more of an odd multiple than of the number. */
  lemma {:induction false} OddFactor(a: int, b: int, n: nat)
    requires b % 2 == 1
    ensures a * b % Pow2(n) == 0 <==> a % Pow2(n) == 0
    decreases n
  {
    var p := Pow2(n);
    if a % p == 0 {
      var q := a / p;
      assert a * b == p * (q * b);
      Multiple(p, q * b);
    } else if n > 0 && a * b % p == 0 {
      var q := a * b / p;
      assert a * b == 2 * (Pow2(n - 1) * q);
      EvenFactor(a, b, Pow2(n - 1) * q);
      var h := a / 2;
      assert a == 2 * h;
      assert h * b == Pow2(n - 1) * q;
      Multiple(Pow2(n - 1), q);
      OddFactor(h, b, n - 1);
      var t := h / Pow2(n - 1);
      assert a == p * t;
      Multiple(p, t);
    }
  }

  lemma Multiple(p: nat, q: int)
    requires p > 0
    ensures p * q % p == 0
  {
    MultipleOf(p, q, p * q / p, p * q % p);
  }

  lemma MultipleOf(p: nat, q: int, k: int, r: int)
    requires p * q == p * k + r && 0 <= r < p
    ensures r == 0
  {
    assert p * (q - k) == r && p * (k - q) == -r;
    if q > k { AtLeastOnce(p, q - k); }
    if k > q { AtLeastOnce(p, k - q); }
  }

  lemma EvenFactor(a: int, b: int, c: int)
    requires b % 2 == 1 && a * b == 2 * c
    ensures a % 2 == 0
  {
    var h := b / 2;
    assert b == 2 * h + 1;
    assert a * b == 2 * (a * h) + a;
  }

  lemma PowSplit(a: nat, b: nat)
    requires a < b
    ensures Pow2(b) == Pow2(a) * Pow2(b - a) && Pow2(b - a) >= 2 && Pow2(b - a) % 2 == 0
  {
    Pow2Sum(a, b - a);
    assert Pow2(b - a) == 2 * Pow2(b - a - 1);
  }

  lemma LessMultiple(w: int, k: nat, n: nat)
    requires k % 2 == 0
    ensures (w - w * k) % Pow2(n) == 0 <==> w % Pow2(n) == 0
  {
    hide Pow2;
    assert w - w * k == w * (1 - k);
    OddFactor(w, 1 - k, n);
  }

  /** Different shifts of u agree only if both shift every bit out. */
  lemma ShiftedAlike(u: nat, a: nat, b: nat, n: nat)
    requires a < b
    ensures (u * Pow2(a) - u * Pow2(b)) % Pow2(n) == 0 <==> u * Pow2(a) % Pow2(n) == 0
  {
    hide Pow2;
    PowSplit(a, b);
    assert u * (Pow2(a) * Pow2(b - a)) == u * Pow2(a) * Pow2(b - a);
    LessMultiple(u * Pow2(a), Pow2(b - a), n);
  }

  lemma DroppedAlike(u: nat, a: nat, b: nat)
    requires a < b
    ensures u / Pow2(a) == u / Pow2(b) <==> u / Pow2(a) == 0
  {
    hide Pow2;
    PowSplit(a, b);
    Dropped(u, Pow2(a), Pow2(b - a), u / Pow2(a), u % Pow2(a), u / Pow2(b), u % Pow2(b));
  }

  lemma Dropped(u: nat, p: nat, k: nat, q: int, r: int, q1: int, r1: int)
    requires p > 0 && k >= 2 && u == p * q + r && 0 <= r < p && u == p * k * q1 + r1 && 0 <= r1 < p * k
    ensures q == q1 <==> q == 0
  {
    if q == q1 && q != 0 {
      assert p * k * q - p * q == p * ((k - 1) * q);
      if q > 0 {
        AtLeastOnce(k - 1, q);
        AtLeastOnce(p, (k - 1) * q);
      } else {
        AtLeastOnce(p, -q);
      }
    }
    if q == 0 && q1 != 0 {
      var d: nat := p * k;
      AtLeastOnce(p, k);
      AtLeastOnce(d, Size(q1));
    }
  }

  // ---- one operator --------------------------------------------------------

  /** Whether `v op w` is what `v op v` gives: w is the value the source reads
      from the target, v the partial result found there instead. */
  predicate Harmless(m: Machine, op: BinOp, v: i64, w: i64) {
    match op
    case LogAnd => v == 0 || w != 0
    case LogOr => v != 0 || w == 0
    case Arith(f) =>
      match f
      case Add | Sub | Xor => v == w
      case Mul => v * (w - v) % TWO_64 == 0
      case Div => if v == 0 then w == 0 else w != 0 && QuotTowardZero(v, w) == 1
      case Mod => if v == 0 then w == 0 else w != 0 && RemTowardZero(v, w) == 0
      case And => Logic(BitAnd, v, w) == v
      case Or => Logic(BitOr, v, w) == v
      case Shl => ShiftsAlike(Unsigned(v), Unsigned(v) % 64, Unsigned(w) % 64)
      case Shr => DropsAlike(Unsigned(v), Unsigned(v) % 64, Unsigned(w) % 64)
      case Eq | Ne => WordsEqual(m, v, w)
      case Lt => v >= w
      case Gt => v <= w
      case Le => v <= w
      case Ge => v >= w
  }

  /** The same count, or both shift all of u out of the word. */
  predicate ShiftsAlike(u: nat, a: nat, b: nat) {
    a == b || u * Pow2(if a < b then a else b) % TWO_64 == 0
  }

  predicate DropsAlike(u: nat, a: nat, b: nat) {
    a == b || u / Pow2(if a < b then a else b) == 0
  }

  lemma WrapAlike(x: int, y: int)
    ensures Wrap(x) == Wrap(y) <==> (x - y) % TWO_64 == 0
  {
  }

  lemma UnsignedOf(v: i64)
    ensures Wrap(Unsigned(v)) == v
  {
  }

  lemma {:induction false} BitwiseSelf(a: nat, b: nat, n: nat)
    requires a < Pow2(n) && b < Pow2(n)
    ensures Bitwise(BitAnd, a, a, n) == a && Bitwise(BitOr, a, a, n) == a
    ensures Bitwise(BitXor, a, a, n) == 0
    ensures Bitwise(BitXor, a, b, n) == 0 <==> a == b
  {
    if n > 0 { BitwiseSelf(a / 2, b / 2, n - 1); }
  }

  lemma LogicSelf(v: i64, w: i64)
    ensures Logic(BitAnd, v, v) == v && Logic(BitOr, v, v) == v
    ensures Logic(BitXor, v, v) == Logic(BitXor, v, w) <==> v == w
  {
    hide Bitwise, Pow2;
    Pow2Values();
    BitwiseSelf(Unsigned(v), Unsigned(w), 64);
    BitwiseBelow(BitXor, Unsigned(v), Unsigned(w), 64);
    UnsignedOf(v);
  }

  function Size(x: int): nat { if x >= 0 then x else -x }

  lemma QuotBounds(x: i64, y: i64)
    requires y != 0
    ensures -TWO_63 <= QuotTowardZero(x, y) <= TWO_63
    ensures x != 0 ==> QuotTowardZero(x, x) == 1
  {
    QuotientBelow(Size(x), Size(y));
  }

  lemma RemBounds(x: i64, y: i64)
    requires y != 0
    ensures -TWO_63 < RemTowardZero(x, y) < TWO_63
    ensures x != 0 ==> RemTowardZero(x, x) == 0
  {
  }

  lemma SumHarmless(m: Machine, f: AluOp, v: i64, w: i64)
    requires f in {Add, Sub, Mul}
    ensures AluResult(m, f, v, v) == AluResult(m, f, v, w) <==> Harmless(m, Arith(f), v, w)
  {
    hide Wrap;
    if f == Mul {
      MulAlike(v, w, v * v, v * w, v * (w - v));
    } else {
      WrapAlike(v + v, v + w);
      WrapAlike(v - v, v - w);
    }
  }

  lemma MulAlike(v: int, w: int, square: int, product: int, gap: int)
    requires square == v * v && product == v * w && gap == v * (w - v)
    ensures Wrap(square) == Wrap(product) <==> gap % TWO_64 == 0
  {
    hide Wrap;
    assert gap == product - square;
    WrapAlike(product, square);
  }

  lemma LogicHarmless(m: Machine, f: AluOp, v: i64, w: i64)
    requires f in {And, Or, Xor}
    ensures AluResult(m, f, v, v) == AluResult(m, f, v, w) <==> Harmless(m, Arith(f), v, w)
  {
    hide Logic;
    LogicSelf(v, w);
  }

  lemma TestHarmless(m: Machine, f: AluOp, v: i64, w: i64)
    requires f in {Eq, Ne, Lt, Le, Gt, Ge}
    ensures AluResult(m, f, v, v) == AluResult(m, f, v, w) <==> Harmless(m, Arith(f), v, w)
  {
  }

  lemma DivHarmless(m: Machine, v: i64, w: i64)
    ensures AluResult(m, Div, v, v) == AluResult(m, Div, v, w) <==> Harmless(m, Arith(Div), v, w)
    ensures AluResult(m, Mod, v, v) == AluResult(m, Mod, v, w) <==> Harmless(m, Arith(Mod), v, w)
  {
    hide QuotTowardZero, RemTowardZero;
    if v != 0 && w != 0 {
      QuotBounds(v, w);
      QuotBounds(v, v);
      RemBounds(v, w);
      RemBounds(v, v);
    }
  }

  lemma ShlHarmless(m: Machine, v: i64, w: i64)
    ensures AluResult(m, Shl, v, v) == AluResult(m, Shl, v, w) <==> Harmless(m, Arith(Shl), v, w)
  {
    hide Pow2, Wrap;
    Pow2Values();
    var u, a, b := Unsigned(v), Unsigned(v) % 64, Unsigned(w) % 64;
    WrapAlike(u * Pow2(a), u * Pow2(b));
    WrapAlike(u * Pow2(b), u * Pow2(a));
    if a < b { ShiftedAlike(u, a, b, 64); }
    if b < a { ShiftedAlike(u, b, a, 64); }
  }

  lemma ShrHarmless(m: Machine, v: i64, w: i64)
    ensures AluResult(m, Shr, v, v) == AluResult(m, Shr, v, w) <==> Harmless(m, Arith(Shr), v, w)
  {
    hide Pow2, Wrap;
    var u, a, b := Unsigned(v), Unsigned(v) % 64, Unsigned(w) % 64;
    QuotientBelow(u, Pow2(a));
    QuotientBelow(u, Pow2(b));
    WrapAlike(u / Pow2(a), u / Pow2(b));
    if a < b { DroppedAlike(u, a, b); }
    if b < a { DroppedAlike(u, b, a); }
  }

  lemma QuotientBelow(u: nat, p: nat)
    requires p > 0
    ensures 0 <= u / p <= u
  {
    PartBelow(u, p, u / p, u % p);
  }

  lemma PartBelow(u: nat, p: nat, q: int, r: int)
    requires p > 0 && u == p * q + r && 0 <= r < p
    ensures 0 <= q <= u
  {
    if q < 0 { AtLeastOnce(p, -q); }
    if q > 0 { AtLeastOnce(q, p); }
  }

  /** For every operator: using v for the second operand instead of w makes no
      difference exactly when Harmless says so. */
  lemma HarmlessIff(m: Machine, op: BinOp, v: i64, w: i64)
    ensures Apply(m, op, v, v) == Apply(m, op, v, w) <==> Harmless(m, op, v, w)
  {
    if op.Arith? {
      hide AluResult, Harmless;
      var f := op.f;
      if f in {Add, Sub, Mul} { SumHarmless(m, f, v, w); }
      else if f in {And, Or, Xor} { LogicHarmless(m, f, v, w); }
      else if f in {Div, Mod} { DivHarmless(m, v, w); }
      else if f == Shl { ShlHarmless(m, v, w); }
      else if f == Shr { ShrHarmless(m, v, w); }
      else { TestHarmless(m, f, v, w); }
    }
  }

  /** `$x := l op $x` where l is not a constant: it is right, faults included,
      exactly if l faults or its value is harmless to the operator. */
  lemma LateReadIff(m: Machine, op: BinOp, l: Expr, x: string, env: Env)
    requires Fold(l).None? && ReadsInTime(l, x)
    ensures EvalInto(m, Bin(op, l, Var(x)), Some(x), env) == Eval(m, Bin(op, l, Var(x)), env)
       <==> (Eval(m, l, env).Trap? || Harmless(m, op, Eval(m, l, env).v, Get(env, x)))
  {
    hide Apply, Harmless;
    EvalIntoIsEval(m, l, x, env);
    if Eval(m, l, env).Value? { HarmlessIff(m, op, Eval(m, l, env).v, Get(env, x)); }
  }

  // ---- a class on which the syntactic test is exact ------------------------

  /** A literal or a variable, possibly in parentheses. */
  predicate Atom(e: Expr) {
    match e
    case Lit(_) => true
    case Var(_) => true
    case Paren(i) => Atom(i)
    case _ => false
  }

  /** One operator on atoms, or a variable that selects one of two atoms. */
  predicate Flat(e: Expr) {
    match e
    case Bin(_, l, r) => Atom(l) && Atom(r)
    case Tern(c, a, b) => Atom(c) && Fold(c).None? && Atom(a) && Atom(b)
    case _ => Atom(e)
  }

  function NameOf(e: Expr): string
    requires Atom(e) && Fold(e).None?
  {
    if e.Var? then e.x else NameOf(e.inner)
  }

  lemma {:induction false} AtomMeaning(m: Machine, e: Expr, tgt: Option<string>, x: string, env: Env)
    requires Atom(e)
    ensures EvalInto(m, e, tgt, env) == Eval(m, e, env) && ReadsInTime(e, x)
    ensures Eval(m, e, env) == Value(if Fold(e).Some? then Fold(e).value else Get(env, NameOf(e)))
    ensures Reads(e, x) <==> Fold(e).None? && NameOf(e) == x
    ensures IsVar(e, x) <==> Fold(e).None? && NameOf(e) == x
  {
    if e.Paren? { AtomMeaning(m, e.inner, tgt, x, env); }
  }

  /** A partial result and a value of the target that show the difference. */
  function Harmful(op: BinOp): ((i64, i64)) {
    if op in {LogOr, Arith(Or), Arith(Lt), Arith(Ge)} then (0, 1) else (1, 0)
  }

  lemma OneAndNone()
    ensures Logic(BitAnd, 1, 0) == 0 && Logic(BitOr, 0, 1) == 1
  {
    OneWithZero(63);
  }

  lemma {:induction false} OneWithZero(n: nat)
    ensures Bitwise(BitAnd, 0, 0, n) == 0 && Bitwise(BitOr, 0, 0, n) == 0
    ensures Bitwise(BitAnd, 1, 0, n + 1) == 0 && Bitwise(BitOr, 0, 1, n + 1) == 1
  {
    if n > 0 { OneWithZero(n - 1); }
  }

  lemma HarmfulHarms(m: Machine, op: BinOp)
    ensures !Harmless(m, op, Harmful(op).0, Harmful(op).1)
  {
    hide Logic;
    OneAndNone();
  }

  /** On flat expressions the compiler's result is the source's in every
      environment exactly if reads of the target come in time. */
  lemma FlatInTimeIff(m: Machine, e: Expr, x: string)
    requires Flat(e)
    ensures ReadsInTime(e, x) <==> forall env :: EvalInto(m, e, Some(x), env) == Eval(m, e, env)
  {
    if ReadsInTime(e, x) {
      forall env ensures EvalInto(m, e, Some(x), env) == Eval(m, e, env) { EvalIntoIsEval(m, e, x, env); }
    } else {
      var env := LateEnv(m, e, x);
      assert EvalInto(m, e, Some(x), env) != Eval(m, e, env);
    }
  }

  /** An environment in which a late read shows. */
  lemma LateEnv(m: Machine, e: Expr, x: string) returns (env: Env)
    requires Flat(e) && !ReadsInTime(e, x)
    ensures EvalInto(m, e, Some(x), env) != Eval(m, e, env)
  {
    hide Apply, Harmless;
    env := map[];
    if e.Bin? {
      AtomMeaning(m, e.l, Some(x), x, env);
      AtomMeaning(m, e.r, None, x, env);
      var p := Harmful(e.op);
      env := map[NameOf(e.l) := p.0, x := p.1];
      AtomMeaning(m, e.l, Some(x), x, env);
      AtomMeaning(m, e.r, None, x, env);
      AtomMeaning(m, e.r, None, x, env[x := p.0]);
      HarmfulHarms(m, e.op);
      HarmlessIff(m, e.op, p.0, p.1);
    } else if e.Tern? {
      AtomMeaning(m, e.c, Some(x), x, env);
      AtomMeaning(m, e.a, Some(x), x, env);
      AtomMeaning(m, e.b, Some(x), x, env);
      var v := if Reads(e.a, x) then 1 else 0;
      env := map[NameOf(e.c) := v, x := 2];
      AtomMeaning(m, e.c, Some(x), x, env);
      var t := if v != 0 then e.a else e.b;
      AtomMeaning(m, t, Some(x), x, env);
      AtomMeaning(m, t, Some(x), x, env[x := v]);
    } else {
      AtomMeaning(m, e, Some(x), x, env);
    }
  }
}
