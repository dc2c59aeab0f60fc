// Variables take registers upwards from 1, scratch values downwards from 15, and
// nothing keeps them apart: what happens when both together exceed 15.

module RegisterClash {
  import opened Words
  import opened Isa
  import opened Vm
  import opened Lang
  import opened Codegen
  import opened Simulation
  import opened ExprCorrect

  /** Some variable and some scratch register are the same register exactly if
      n variables and h scratch registers do not fit into 15. */
  lemma RegistersClashIff(n: nat, h: nat)
    requires n <= MAX_GPR_VARS && h <= MAX_TEMPS
    ensures (exists i, k :: 0 <= i < n && 0 <= k < h && VarReg(i) == Temp(k)) <==> n > 0 && h > 0 && n + h > 15
  {
    if n > 0 && h > 0 && n + h > 15 { assert VarReg(15 - h) == Temp(h - 1); }
  }

  /** `-(-$x)` */
  function Twice(x: string): Expr { Neg(Neg(Var(x))) }

  /** The code of `-(-$x)` for the last of thirteen variables. */
  lemma TwiceShape(x: string, dst: u8, g: Gen)
    requires WellFormed(g) && |g.names| == 13 && IndexOf(g.names, x) == 12 && Ladder(Twice(x), dst, 0, g).Ok?
    ensures EmitConst(g, 15, 0).Ok?
    ensures var g1 := EmitConst(g, 15, 0).value;
            && EmitConst(g1, 13, 0).Ok?
            && var g2 := EmitConst(g1, 13, 0).value;
            && MoveVar(12, 13, g2).Ok?
            && var g3 := MoveVar(12, 13, g2).value;
            && Emit(g3, Instr(Alu(Sub), 14, 13, 12)).Ok?
            && var g4 := Emit(g3, Instr(Alu(Sub), 14, 13, 12)).value;
            && Emit(g4, Instr(Alu(Sub), dst, 15, 14)) == Ladder(Twice(x), dst, 0, g)
  {
    hide EmitConst, IndexOf, MoveVar, Emit;
    var g1 := EmitConst(g, 15, 0).value;
    assert Unary(Twice(x), dst, 0, g).Ok?;
    assert Ladder(Neg(Var(x)), 14, 2, g1) == Unary(Neg(Var(x)), 14, 2, g1);
    var g2 := EmitConst(g1, 13, 0).value;
    assert g2.names == g.names;
    assert Ladder(Var(x), 12, 4, g2) == MoveVar(12, 13, g2);
  }

  /** With thirteen variables `-(-$x)` of the last one clears $x and the
      variable before it and gives zero: it is right exactly if $x is zero. */
  lemma TwiceGivesZero(m: Machine, vs: seq<string>, x: string, dst: u8, g: Gen, st: State, env: Env)
    requires AtEnd(st, g) && WellFormed(g) && |g.names| == 13 && IndexOf(g.names, x) == 12 && 1 <= dst <= 11
    requires Agree(st.regs, vs, env) && Loaded(m, vs, g, Ladder(Twice(x), dst, 0, g))
    ensures Steps(m, st, 5).Next?
    ensures var s := Steps(m, st, 5).st;
            Valid(s) && s.regs[dst] == 0 && s.regs[12] == 0 && s.regs[13] == 0
    ensures Eval(m, Twice(x), env) == Value(Steps(m, st, 5).st.regs[dst]) <==> Get(env, x) == 0
  {
    hide Steps, Step, EmitConst, IndexOf, Ladder, Holds, Linked;
    TwiceShape(x, dst, g);
    var h := Ladder(Twice(x), dst, 0, g).value;
    var g1 := EmitConst(g, 15, 0).value;
    var g2 := EmitConst(g1, 13, 0).value;
    var g3 := MoveVar(12, 13, g2).value;
    var g4 := Emit(g3, Instr(Alu(Sub), 14, 13, 12)).value;
    LinkedPart(m, vs, g1, h);
    HoldsPart(m, |g.code|, h, |g.code|, g1);
    RunConst(m, vs, st, g, 15, 0);
    var s1 := Steps(m, st, 1).st;
    LinkedPart(m, vs, g2, h);
    HoldsPart(m, |g.code|, h, |g1.code|, g2);
    RunConst(m, vs, s1, g1, 13, 0);
    var s2 := Steps(m, s1, 1).st;
    HoldsPart(m, |g.code|, h, |g2.code|, g3);
    RunMoveVar(m, s2, g2, 12, 13);
    var s3 := Steps(m, s2, 1).st;
    HoldsPart(m, |g.code|, h, |g3.code|, g4);
    RunAlu(m, s3, g3, Sub, 14, 13, 12);
    var s4 := Steps(m, s3, 1).st;
    HoldsPart(m, |g.code|, h, |g4.code|, h);
    RunAlu(m, s4, g4, Sub, dst, 15, 14);
    StepsCompose(m, st, 1, 1);
    StepsCompose(m, st, 2, 1);
    StepsCompose(m, st, 3, 1);
    StepsCompose(m, st, 4, 1);
    TwiceIsSame(m, x, env);
  }

  lemma TwiceIsSame(m: Machine, x: string, env: Env)
    ensures Eval(m, Twice(x), env) == Value(Get(env, x))
  {
    var v: int := Get(env, x);
    assert Eval(m, Neg(Var(x)), env) == Value(Wrap(0 - v));
    assert Wrap(0 - Wrap(0 - v)) == v;
  }
}
