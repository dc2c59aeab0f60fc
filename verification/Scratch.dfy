// How many scratch registers an expression takes: exactly those that need more
// than the eight there are are refused as too complex.

module Scratch {
  import opened Words
  import opened Isa
  import opened Vm
  import opened Lang
  import opened Codegen

  function Larger(x: nat, y: nat): nat { if x >= y then x else y }

  /** The scratch registers e takes. Operands are held while the next is
      computed; `!`, `&&` and `||` take one and two more for their zero and flag,
      unless they fold. */
  function Taken(e: Expr): nat {
    match e
    case Lit(_) | Var(_) => 0
    case Paren(i) => Taken(i)
    case Neg(a) => 2 + Taken(a)
    case Not(a) => Larger(if Fold(a).Some? then 1 else 2, 1 + Taken(a))
    case Bin(op, l, r) =>
      Larger(Taken(l), Larger(if op.Arith? || (Fold(l).Some? && Fold(r).Some?) then 1 else 3, 1 + Taken(r)))
    case Tern(c, a, b) => Larger(Taken(c), Larger(Taken(a), Taken(b)))
    case Call1(_, a) => 1 + Taken(a)
    case Call2(_, a, b) => Larger(1 + Taken(a), 2 + Taken(b))
    case Clamp(a, b, c) => Larger(1 + Taken(a), Larger(2 + Taken(b), 3 + Taken(c)))
  }

  /** With k in use, n more are enough for what compiled and too many for what
      was too complex. */
  ghost predicate Judged(k: nat, n: nat, r: Result<Gen>) {
    (r.Ok? ==> k + n <= 8) && (r == Err(ExprTooComplex) ==> k + n > 8)
  }

  lemma EmitNeverComplex(g: Gen, dst: u8, c: Option<i64>, i: Instr)
    requires WellFormed(g)
    ensures Emit(g, i) != Err(ExprTooComplex) && EmitFolded(g, dst, c) != Err(ExprTooComplex)
    ensures c.Some? ==> EmitConst(g, dst, c.value) != Err(ExprTooComplex)
  {
  }

  lemma OperateJudged(op: BinOp, dst: u8, rhs: u8, k: nat, g: Gen)
    requires WellFormed(g) && k <= 8
    ensures Judged(k, if op.Arith? then 0 else 2, Operate(op, dst, rhs, k, g))
  {
    hide EmitConst, Emit;
    EmitsSimple();
  }

  /** No emission is too complex. */
  lemma EmitsSimple()
    ensures forall g: Gen, i: Instr :: WellFormed(g) ==> Emit(g, i) != Err(ExprTooComplex)
    ensures forall g: Gen, d: u8, v: i64 :: WellFormed(g) ==> EmitConst(g, d, v) != Err(ExprTooComplex)
    ensures forall g: Gen, d: u8, c: Option<i64> :: WellFormed(g) ==> EmitFolded(g, d, c) != Err(ExprTooComplex)
  {
    forall g: Gen, i: Instr | WellFormed(g) ensures Emit(g, i) != Err(ExprTooComplex) {
    }
    forall g: Gen, d: u8, v: i64 | WellFormed(g) ensures EmitConst(g, d, v) != Err(ExprTooComplex) {
      EmitNeverComplex(g, d, Some(v), Instr(Nop, d, d, d));
    }
    forall g: Gen, d: u8, c: Option<i64> | WellFormed(g) ensures EmitFolded(g, d, c) != Err(ExprTooComplex) {
      EmitNeverComplex(g, d, c, Instr(Nop, d, d, d));
    }
  }

  lemma CombineJudged(op: BinOp, dst: u8, rhs: u8, lc: Option<i64>, rc: Option<i64>, k: nat, g: Gen)
    requires WellFormed(g) && k <= 8
    ensures Judged(k, if op.Arith? || (lc.Some? && rc.Some?) then 0 else 2, Combine(op, dst, rhs, lc, rc, k, g))
  {
    hide EmitFolded, Operate, FoldBin, Emit, EmitConst;
    EmitsSimple();
    if !(lc.Some? && rc.Some?) && EmitFolded(g, dst, lc).Ok? {
      var g1 := EmitFolded(g, dst, lc).value;
      if EmitFolded(g1, rhs, rc).Ok? { OperateJudged(op, dst, rhs, k, EmitFolded(g1, rhs, rc).value); }
    }
  }

  lemma {:induction false} LadderJudged(e: Expr, dst: u8, k: nat, g: Gen)
    requires WellFormed(g) && k <= 8
    ensures Judged(k, Taken(e), Ladder(e, dst, k, g))
    decreases e, 1
  {
    hide Combine, EmitConst, Expression, IndexOf, Fold;
    match e
    case Lit(_) =>
    case Var(x) =>
    case Paren(i) => LadderJudged(i, dst, k, g);
    case Neg(_) => UnaryJudged(e, dst, k, g);
    case Not(_) => UnaryJudged(e, dst, k, g);
    case Bin(op, l, r) =>
      LadderJudged(l, dst, k, g);
      if Ladder(l, dst, k, g).Ok? && k + 1 <= 8 {
        var g1 := Ladder(l, dst, k, g).value;
        LadderJudged(r, Temp(k), k + 1, g1);
        if Ladder(r, Temp(k), k + 1, g1).Ok? {
          CombineJudged(op, dst, Temp(k), Fold(l), Fold(r), k + 1, Ladder(r, Temp(k), k + 1, g1).value);
        }
      }
    case Tern(_, _, _) => TernaryJudged(e, dst, k, g);
    case _ => IntrinsicJudged(e, dst, k, g);
  }

  lemma {:induction false} UnaryJudged(e: Expr, dst: u8, k: nat, g: Gen)
    requires WellFormed(g) && k <= 8 && (e.Neg? || e.Not?)
    ensures Judged(k, Taken(e), Unary(e, dst, k, g))
    decreases e, 0
  {
    hide EmitConst, Emit, Ladder, Fold;
    EmitsSimple();
    if k + 1 <= 8 {
      if e.Not? { LadderJudged(e.arg, Temp(k), k + 1, g); }
      else if EmitConst(g, Temp(k), 0).Ok? && k + 2 <= 8 {
        LadderJudged(e.arg, Temp(k + 1), k + 2, EmitConst(g, Temp(k), 0).value);
      }
    }
  }

  lemma {:induction false} TernaryJudged(e: Expr, dst: u8, k: nat, g: Gen)
    requires WellFormed(g) && k <= 8 && e.Tern?
    ensures Judged(k, Taken(e), Ternary(e, dst, k, g))
    decreases e, 0
  {
    hide Expression, PatchHere, Emit;
    EmitsSimple();
    ExpressionJudged(e.c, dst, k, g);
    if TernaryTest(e, dst, k, g).Ok? {
      var g1 := TernaryTest(e, dst, k, g).value;
      ExpressionJudged(e.a, dst, k, g1);
      if TernaryThen(e, dst, k, g).Ok? { ExpressionJudged(e.b, dst, k, TernaryThen(e, dst, k, g).value); }
    }
  }

  lemma {:induction false} ExpressionJudged(e: Expr, dst: u8, k: nat, g: Gen)
    requires WellFormed(g) && k <= 8
    ensures Judged(k, Taken(e), Expression(e, dst, k, g))
    decreases e, 2
  {
    hide EmitFolded, Ladder, Emit, EmitConst;
    EmitsSimple();
    LadderJudged(e, dst, k, g);
  }

  lemma {:induction false} IntrinsicJudged(e: Expr, dst: u8, k: nat, g: Gen)
    requires WellFormed(g) && k <= 8 && (e.Call1? || e.Call2? || e.Clamp?)
    ensures Judged(k, Taken(e), Intrinsic(e, dst, k, g))
    decreases e, 0
  {
    hide Expression, Emit;
    EmitsSimple();
    if k + 1 <= 8 {
      ExpressionJudged(e.a0, Temp(k), k + 1, g);
      var r1 := Expression(e.a0, Temp(k), k + 1, g);
      if r1.Ok? && !e.Call1? && k + 2 <= 8 {
        ExpressionJudged(e.a1, Temp(k + 1), k + 2, r1.value);
        var r2 := Expression(e.a1, Temp(k + 1), k + 2, r1.value);
        if r2.Ok? && e.Clamp? && k + 3 <= 8 { ExpressionJudged(e.a2, Temp(k + 2), k + 3, r2.value); }
      }
    }
  }

  /** With k scratch registers in use, an expression that meets no other limit
      compiles exactly if it takes at most 8 - k more. */
  lemma ComplexIff(e: Expr, dst: u8, k: nat, g: Gen)
    requires WellFormed(g) && k <= 8
    requires Expression(e, dst, k, g).Err? ==> Expression(e, dst, k, g).error == ExprTooComplex
    ensures Expression(e, dst, k, g).Ok? <==> k + Taken(e) <= 8
  {
    hide Expression, Taken;
    ExpressionJudged(e, dst, k, g);
  }
}
