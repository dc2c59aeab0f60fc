// The code emitted for an expression leaves the source value in the
// destination, faults as the source does, and disturbs nothing but the
// destination and scratch registers that were free.

module ExprCorrect {
  import opened Words
  import opened Isa
  import opened Vm
  import opened Lang
  import opened Codegen
  import opened Simulation

  /** How many scratch registers the code for e takes. */
  function Peak(e: Expr): nat {
    match e
    case Lit(_) | Var(_) => 0
    case Paren(i) => Peak(i)
    case Neg(a) => 2 + Peak(a)
    case Not(a) => Max(2, 1 + Peak(a))
    case Bin(op, l, r) => Max(Peak(l), Max(if op.Arith? then 1 else 3, 1 + Peak(r)))
    case Tern(c, a, b) => Max(Peak(c), Max(Peak(a), Peak(b)))
    case Call1(_, a) => 1 + Peak(a)
    case Call2(_, a, b) => Max(1 + Peak(a), 2 + Peak(b))
    case Clamp(a, b, c) => Max(1 + Peak(a), Max(2 + Peak(b), 3 + Peak(c)))
  }

  function Max(x: nat, y: nat): nat { if x >= y then x else y }

  /** dst is no variable-to-be-read-later and no scratch register from lo to
      hi - 1. */
  predicate Free(dst: int, lo: nat, hi: nat) {
    0 <= dst < 16 && !(15 - hi < dst <= 15 - lo)
  }

  /** o is where a run that computes c into dst ends: at the end of h, with
      nothing but dst and the scratch registers lo to hi - 1 different from
      st. A folded constant is not yet in dst. */
  ghost predicate Ends(o: Outcome, st: State, h: Gen, dst: int, lo: nat, hi: nat, folded: Option<i64>, c: Computed) {
    match c
    case Trap(f) => folded.None? && o.Faulted? && o.fault == f
    case Value(v) =>
      && o.Next? && AtEnd(o.st, h)
      && Touches(st, o.st, if folded.Some? then -1 else dst, lo, hi)
      && 0 <= dst < NUM_REGISTERS
      && v == if folded.Some? then folded.value else o.st.regs[dst]
  }

  ghost predicate Computes(m: Machine, st: State, n: nat, h: Gen, dst: int, lo: nat, hi: nat, c: Computed)
    requires Valid(st)
  {
    Ends(Steps(m, st, n), st, h, dst, lo, hi, None, c)
  }

  lemma ZeroIsPlain(m: Machine, x: i64)
    ensures WordsEqual(m, x, 0) == (x == 0)
  {
  }

  lemma {:induction false} BitwiseOfZeros(o: BitOp, n: nat)
    ensures Bitwise(o, 0, 0, n) == 0
  {
    if n > 0 { BitwiseOfZeros(o, n - 1); }
  }

  lemma BitwiseOneBit(o: BitOp, x: nat, y: nat, n: nat)
    requires x < 2 && y < 2 && n > 0
    ensures Bitwise(o, x, y, n) == if OneBit(o, x == 1, y == 1) then 1 else 0
  {
    BitwiseOfZeros(o, n - 1);
    assert x / 2 == 0 && y / 2 == 0;
  }

  lemma LogicOfTruths(o: BitOp, x: i64, y: i64)
    requires 0 <= x < 2 && 0 <= y < 2
    ensures Logic(o, x, y) == Truth(OneBit(o, x == 1, y == 1))
  {
    BitwiseOneBit(o, x, y, 64);
  }

  // ---- straight-line pieces ------------------------------------------------

  lemma ArithRuns(m: Machine, g: Gen, f: AluOp, dst: u8, rhs: u8, st: State, lo: nat, hi: nat)
    requires AtEnd(st, g) && WellFormed(g) && dst < 16 && rhs < 16
    requires Operate(Arith(f), dst, rhs, lo + 1, g).Ok?
    requires Holds(m, |g.code|, Operate(Arith(f), dst, rhs, lo + 1, g).value)
    ensures Computes(m, st, 1, Operate(Arith(f), dst, rhs, lo + 1, g).value, dst, lo, hi,
                     Apply(m, Arith(f), st.regs[dst], st.regs[rhs]))
  {
    hide Steps, AluResult;
    RunAlu(m, st, g, f, dst, dst, rhs);
  }

  /** `dst = (src != 0)` with the zero already in a register. */
  lemma TestRuns(m: Machine, g: Gen, dst: u8, src: u8, zero: u8, st: State)
    requires AtEnd(st, g) && WellFormed(g) && dst < 20 && src < 20 && zero < 20 && st.regs[zero] == 0
    requires Emit(g, Instr(Alu(Ne), dst, src, zero)).Ok?
    requires Holds(m, |g.code|, Emit(g, Instr(Alu(Ne), dst, src, zero)).value)
    ensures var h := Emit(g, Instr(Alu(Ne), dst, src, zero)).value;
            Steps(m, st, 1) == Next(After(st, h, 1, st.regs[dst := Truth(st.regs[src] != 0)]))
  {
    hide Steps, WordsEqual;
    ZeroIsPlain(m, st.regs[src]);
    RunAlu(m, st, g, Ne, dst, src, zero);
  }

  /** `dst = dst o other` for two truth values. */
  lemma JoinRuns(m: Machine, g: Gen, op: BinOp, dst: u8, other: u8, st: State)
    requires AtEnd(st, g) && WellFormed(g) && dst < 20 && other < 20 && !op.Arith?
    requires 0 <= st.regs[dst] < 2 && 0 <= st.regs[other] < 2
    requires Emit(g, Instr(Alu(if op == LogAnd then And else Or), dst, dst, other)).Ok?
    requires Holds(m, |g.code|, Emit(g, Instr(Alu(if op == LogAnd then And else Or), dst, dst, other)).value)
    ensures var h := Emit(g, Instr(Alu(if op == LogAnd then And else Or), dst, dst, other)).value;
            var v := Truth(if op == LogAnd then st.regs[dst] == 1 && st.regs[other] == 1
                           else st.regs[dst] == 1 || st.regs[other] == 1);
            Steps(m, st, 1) == Next(After(st, h, 1, st.regs[dst := v]))
  {
    hide Steps, Logic;
    LogicOfTruths(if op == LogAnd then BitAnd else BitOr, st.regs[dst], st.regs[other]);
    RunAlu(m, st, g, if op == LogAnd then And else Or, dst, dst, other);
  }

  /** Loads the zero, then `dst = (dst != 0)`. */
  lemma ZeroTestRuns(m: Machine, vs: seq<string>, g: Gen, dst: u8, zero: u8, st: State)
    requires AtEnd(st, g) && WellFormed(g) && dst < 20 && zero < 20 && dst != zero
    requires EmitConst(g, zero, 0).Ok? && Emit(EmitConst(g, zero, 0).value, Instr(Alu(Ne), dst, dst, zero)).Ok?
    requires Linked(m, vs, EmitConst(g, zero, 0).value)
    requires Holds(m, |g.code|, Emit(EmitConst(g, zero, 0).value, Instr(Alu(Ne), dst, dst, zero)).value)
    ensures var h := Emit(EmitConst(g, zero, 0).value, Instr(Alu(Ne), dst, dst, zero)).value;
            Steps(m, st, 2) == Next(After(st, h, 2, st.regs[zero := 0][dst := Truth(st.regs[dst] != 0)]))
  {
    hide Steps, EmitConst, Holds, Linked;
    var g1 := EmitConst(g, zero, 0).value;
    var h := Emit(g1, Instr(Alu(Ne), dst, dst, zero)).value;
    HoldsPart(m, |g.code|, h, |g.code|, g1);
    RunConst(m, vs, st, g, zero, 0);
    HoldsPart(m, |g.code|, h, |g1.code|, h);
    TestRuns(m, g1, dst, dst, zero, After(st, g1, 1, st.regs[zero := 0]));
    StepsCompose(m, st, 1, 1);
  }

  lemma ScratchUpdates(st: State, s: State, dst: u8, zero: u8, other: u8, v0: i64, v1: i64, v2: i64, v3: i64,
                       lo: nat, hi: nat)
    requires Valid(st) && dst < 16 && 15 - hi < zero <= 15 - lo < 16 && 15 - hi < other <= 15 - lo
    requires 0 <= zero && 0 <= other
    requires s == st.(ip := s.ip, tick := s.tick, regs := st.regs[zero := v0][dst := v1][other := v2][dst := v3])
    ensures Touches(st, s, dst, lo, hi)
  {
  }

  lemma OneUpdate(st: State, s: State, dst: u8, v: i64, lo: nat, hi: nat)
    requires Valid(st) && dst < 16 && s == st.(ip := s.ip, tick := s.tick, regs := st.regs[dst := v])
    ensures Touches(st, s, dst, lo, hi)
  {
  }

  lemma LogicalRuns(m: Machine, vs: seq<string>, g: Gen, op: BinOp, dst: u8, rhs: u8, st: State, lo: nat, hi: nat)
    requires AtEnd(st, g) && !op.Arith? && lo + 3 <= hi && rhs == 15 - lo && Free(dst, lo, hi)
    requires WellFormed(g) && Operate(op, dst, rhs, lo + 1, g).Ok?
    requires Linked(m, vs, Operate(op, dst, rhs, lo + 1, g).value)
    requires Holds(m, |g.code|, Operate(op, dst, rhs, lo + 1, g).value)
    ensures Computes(m, st, 4, Operate(op, dst, rhs, lo + 1, g).value, dst, lo, hi,
                     Apply(m, op, st.regs[dst], st.regs[rhs]))
  {
    hide Steps, EmitConst, Holds, Linked, Touches;
    var zero, other: u8 := 14 - lo, 13 - lo;
    var g1 := EmitConst(g, zero, 0).value;
    var g2 := Emit(g1, Instr(Alu(Ne), dst, dst, zero)).value;
    var g3 := Emit(g2, Instr(Alu(Ne), other, rhs, zero)).value;
    var h := Operate(op, dst, rhs, lo + 1, g).value;
    HoldsPart(m, |g.code|, h, |g.code|, g2);
    LinkedPart(m, vs, g1, h);
    ZeroTestRuns(m, vs, g, dst, zero, st);
    var s2 := Steps(m, st, 2).st;
    HoldsPart(m, |g.code|, h, |g2.code|, g3);
    TestRuns(m, g2, other, rhs, zero, s2);
    var s3 := Steps(m, s2, 1).st;
    HoldsPart(m, |g.code|, h, |g3.code|, h);
    JoinRuns(m, g3, op, dst, other, s3);
    StepsCompose(m, st, 2, 1);
    StepsCompose(m, st, 3, 1);
    ScratchUpdates(st, Steps(m, st, 4).st, dst, zero, other, 0, s2.regs[dst], s3.regs[other],
                   Steps(m, st, 4).st.regs[dst], lo, hi);
  }

  function Cost(c: Option<i64>): nat { if c.Some? then 1 else 0 }

  /** A folded constant is loaded where its value was left out. */
  lemma FoldedRuns(m: Machine, vs: seq<string>, st: State, g: Gen, dst: u8, c: Option<i64>)
    requires AtEnd(st, g) && WellFormed(g) && dst < 20
    requires EmitFolded(g, dst, c).Ok?
    requires Linked(m, vs, EmitFolded(g, dst, c).value) && Holds(m, |g.code|, EmitFolded(g, dst, c).value)
    ensures Steps(m, st, Cost(c))
         == Next(After(st, EmitFolded(g, dst, c).value, Cost(c), if c.Some? then st.regs[dst := c.value] else st.regs))
  {
    hide Step;
    match c
    case Some(v) => RunConst(m, vs, st, g, dst, v);
    case None =>
  }

  lemma OperateRuns(m: Machine, vs: seq<string>, g: Gen, op: BinOp, dst: u8, rhs: u8, st: State, lo: nat, hi: nat)
    returns (n: nat)
    requires AtEnd(st, g) && lo + (if op.Arith? then 1 else 3) <= hi && lo < 8 && rhs == 15 - lo && Free(dst, lo, hi)
    requires WellFormed(g) && Operate(op, dst, rhs, lo + 1, g).Ok?
    requires Linked(m, vs, Operate(op, dst, rhs, lo + 1, g).value)
    requires Holds(m, |g.code|, Operate(op, dst, rhs, lo + 1, g).value)
    ensures Computes(m, st, n, Operate(op, dst, rhs, lo + 1, g).value, dst, lo, hi,
                     Apply(m, op, st.regs[dst], st.regs[rhs]))
    ensures n <= |Operate(op, dst, rhs, lo + 1, g).value.code| - |g.code|
  {
    match op
    case Arith(f) => ArithRuns(m, g, f, dst, rhs, st, lo, hi); n := 1;
    case _ => LogicalRuns(m, vs, g, op, dst, rhs, st, lo, hi); n := 4;
  }

  /** Both operands are done: dst and rhs hold those that did not fold. */
  lemma CombineRuns(m: Machine, vs: seq<string>, g: Gen, op: BinOp, dst: u8, rhs: u8,
                    lc: Option<i64>, rc: Option<i64>, x: i64, y: i64, st: State, lo: nat, hi: nat)
    returns (n: nat)
    requires AtEnd(st, g) && lo + (if op.Arith? then 1 else 3) <= hi && lo < 8 && rhs == 15 - lo && Free(dst, lo, hi)
    requires lc.None? || rc.None?
    requires x == if lc.Some? then lc.value else st.regs[dst]
    requires y == if rc.Some? then rc.value else st.regs[rhs]
    requires WellFormed(g) && Combine(op, dst, rhs, lc, rc, lo + 1, g).Ok?
    requires Linked(m, vs, Combine(op, dst, rhs, lc, rc, lo + 1, g).value)
    requires Holds(m, |g.code|, Combine(op, dst, rhs, lc, rc, lo + 1, g).value)
    ensures Computes(m, st, n, Combine(op, dst, rhs, lc, rc, lo + 1, g).value, dst, lo, hi, Apply(m, op, x, y))
    ensures n <= |Combine(op, dst, rhs, lc, rc, lo + 1, g).value.code| - |g.code|
  {
    hide Steps, Apply, Operate, EmitFolded;
    var h := Combine(op, dst, rhs, lc, rc, lo + 1, g).value;
    var g1 := EmitFolded(g, dst, lc).value;
    var g2 := EmitFolded(g1, rhs, rc).value;
    HoldsPart(m, |g.code|, h, |g.code|, g1);
    LinkedPart(m, vs, g1, h);
    FoldedRuns(m, vs, st, g, dst, lc);
    var s1 := Steps(m, st, Cost(lc)).st;
    HoldsPart(m, |g.code|, h, |g1.code|, g2);
    LinkedPart(m, vs, g2, h);
    FoldedRuns(m, vs, s1, g1, rhs, rc);
    var s2 := Steps(m, s1, Cost(rc)).st;
    HoldsPart(m, |g.code|, h, |g2.code|, h);
    var c := OperateRuns(m, vs, g2, op, dst, rhs, s2, lo, hi);
    StepsCompose(m, st, Cost(lc), Cost(rc));
    StepsCompose(m, st, Cost(lc) + Cost(rc), c);
    n := Cost(lc) + Cost(rc) + c;
  }
  // ---- the recursion over expressions -------------------------------------

  /** The destination is tgt's register, or no variable's. */
  ghost predicate Aims(dst: int, tgt: Option<string>, vs: seq<string>) {
    match tgt
    case Some(x) => x in vs && dst == 1 + IndexOf(vs, x)
    case None => dst == 0 || |vs| < dst
  }

  /** The machine is about to run code that puts e in dst, with scratch
      registers k and up free and all below hi clear of the variables. */
  ghost predicate Ready(m: Machine, vs: seq<string>, e: Expr, dst: u8, tgt: Option<string>,
                        k: nat, hi: nat, g: Gen, st: State, env: Env) {
    && AtEnd(st, g) && WellFormed(g)
    && Faithful(m, e)
    && k + Peak(e) <= hi && |vs| + hi <= 15
    && Free(dst, k, hi) && Aims(dst, tgt, vs)
    && Agree(st.regs, vs, env)
  }

  /** The emitted code from g to h is what the machine holds. */
  ghost predicate Loaded(m: Machine, vs: seq<string>, g: Gen, r: Result<Gen>) {
    r.Ok? && Linked(m, vs, r.value) && Holds(m, |g.code|, r.value)
  }

  ghost predicate Leaves(m: Machine, st: State, n: nat, h: Gen, dst: int, lo: nat, hi: nat,
                         folded: Option<i64>, c: Computed)
    requires Valid(st)
  {
    Ends(Steps(m, st, n), st, h, dst, lo, hi, folded, c)
  }

  predicate Covered(d: int, dst: int, lo: nat, hi: nat) {
    d == -1 || d == dst || 15 - hi < d <= 15 - lo
  }

  lemma TouchesBoth(a: State, b: State, c: State, d1: int, l1: nat, d2: int, l2: nat, dst: int, lo: nat, hi: nat)
    requires Touches(a, b, d1, l1, hi) && Touches(b, c, d2, l2, hi)
    requires lo <= l1 && lo <= l2 && Covered(d1, dst, lo, hi) && Covered(d2, dst, lo, hi)
    ensures Touches(a, c, dst, lo, hi)
  {
  }

  lemma AgreeKept(st: State, s: State, dst: int, lo: nat, hi: nat, vs: seq<string>, env: Env)
    requires Touches(st, s, dst, lo, hi) && |vs| + hi <= 15 && Agree(st.regs, vs, env)
    requires dst <= 0 || |vs| < dst
    ensures Agree(s.regs, vs, env)
  {
  }

  lemma AgreeSpoiled(st: State, s: State, dst: int, lo: nat, hi: nat, tgt: Option<string>, vs: seq<string>, env: Env)
    requires Touches(st, s, dst, lo, hi) && |vs| + hi <= 15 && Agree(st.regs, vs, env)
    requires 0 <= dst < 16 && Aims(dst, tgt, vs)
    requires forall i, j :: 0 <= i < j < |vs| ==> vs[i] != vs[j]
    ensures Agree(s.regs, vs, Spoil(tgt, env, s.regs[dst]))
  {
  }

  lemma {:induction false} FoldIsEvalInto(m: Machine, e: Expr, tgt: Option<string>, env: Env)
    requires Faithful(m, e) && Fold(e).Some?
    ensures EvalInto(m, e, tgt, env) == Value(Fold(e).value)
  {
    match e
    case Paren(i) => FoldIsEvalInto(m, i, tgt, env);
    case Bin(op, l, r) =>
      FoldIsEvalInto(m, l, tgt, env);
      FoldIsEval(m, r, env);
      FoldBinAgrees(m, op, Fold(l).value, Fold(r).value);
    case _ => FoldIsEval(m, e, env);
  }

  lemma LadderRuns(m: Machine, vs: seq<string>, e: Expr, dst: u8, tgt: Option<string>,
                   k: nat, hi: nat, g: Gen, st: State, env: Env) returns (n: nat)
    requires Ready(m, vs, e, dst, tgt, k, hi, g, st, env) && Loaded(m, vs, g, Ladder(e, dst, k, g))
    ensures Leaves(m, st, n, Ladder(e, dst, k, g).value, dst, k, hi, Fold(e), EvalInto(m, e, tgt, env))
    ensures n <= |Ladder(e, dst, k, g).value.code| - |g.code|
    decreases e, 3
  {
    hide Step;
    match e
    case Lit(_) => n := 0;
    case Var(x) => n := VarRuns(m, vs, e, dst, tgt, k, hi, g, st, env);
    case Paren(i) => n := LadderRuns(m, vs, i, dst, tgt, k, hi, g, st, env);
    case Neg(_) => n := NegRuns(m, vs, e, dst, tgt, k, hi, g, st, env);
    case Not(_) => n := NotRuns(m, vs, e, dst, tgt, k, hi, g, st, env);
    case Bin(_, _, _) => n := BinRuns(m, vs, e, dst, tgt, k, hi, g, st, env);
    case Tern(_, _, _) => n := TernRuns(m, vs, e, dst, tgt, k, hi, g, st, env);
    case _ => n := IntrinsicRuns(m, vs, e, dst, tgt, k, hi, g, st, env);
  }

  lemma VarRuns(m: Machine, vs: seq<string>, e: Expr, dst: u8, tgt: Option<string>,
                k: nat, hi: nat, g: Gen, st: State, env: Env) returns (n: nat)
    requires e.Var?
    requires Ready(m, vs, e, dst, tgt, k, hi, g, st, env) && Loaded(m, vs, g, Ladder(e, dst, k, g))
    ensures Leaves(m, st, n, Ladder(e, dst, k, g).value, dst, k, hi, Fold(e), EvalInto(m, e, tgt, env))
    ensures n <= |Ladder(e, dst, k, g).value.code| - |g.code|
  {
    hide Step;
    var i := IndexOf(g.names, e.x);
    var g1 := Resolve(g, e.x).value;
    assert g1.names[i] == vs[i] == e.x;
    if VarReg(i) == dst {
      n := 0;
    } else {
      RunMoveVar(m, st, g1, dst, VarReg(i));
      n := 1;
    }
  }

  /** Both operands of a binary operator have run. */
  lemma BinTail(m: Machine, vs: seq<string>, op: BinOp, dst: u8, lc: Option<i64>, rc: Option<i64>, v: i64, w: i64,
                k: nat, hi: nat, g: Gen, st: State, s1: State, s2: State) returns (n: nat)
    requires AtEnd(s2, g) && WellFormed(g) && k < 8 && k + (if op.Arith? then 1 else 3) <= hi && Free(dst, k, hi)
    requires Touches(st, s1, if lc.Some? then -1 else dst, k, hi)
    requires v == if lc.Some? then lc.value else s1.regs[dst]
    requires Touches(s1, s2, if rc.Some? then -1 else 15 - k, k + 1, hi)
    requires w == if rc.Some? then rc.value else s2.regs[15 - k]
    requires lc.None? || rc.None?
    requires Loaded(m, vs, g, Combine(op, dst, 15 - k, lc, rc, k + 1, g))
    ensures Ends(Steps(m, s2, n), st, Combine(op, dst, 15 - k, lc, rc, k + 1, g).value, dst, k, hi, None,
        Apply(m, op, v, w))
    ensures n <= |Combine(op, dst, 15 - k, lc, rc, k + 1, g).value.code| - |g.code|
  {
    hide Step, Steps, Combine, Apply, Linked, Holds, AtEnd;
    n := CombineRuns(m, vs, g, op, dst, 15 - k, lc, rc, v, w, s2, k, hi);
    if Apply(m, op, v, w).Value? {
      TouchesBoth(st, s1, s2, if lc.Some? then -1 else dst, k, if rc.Some? then -1 else 15 - k, k + 1, dst, k, hi);
      TouchesBoth(st, s2, Steps(m, s2, n).st, dst, k, dst, k, dst, k, hi);
    }
  }

  /** The environment in which a binary operator's right operand is read. */
  function RightEnv(l: Expr, tgt: Option<string>, env: Env, v: i64): Env {
    if Fold(l).Some? then env else Spoil(tgt, env, v)
  }

  /** One level of a binary operator: what is generated and what it means. */
  lemma BinShape(m: Machine, e: Expr, dst: u8, tgt: Option<string>, k: nat, hi: nat, g: Gen, env: Env)
    requires e.Bin? && WellFormed(g) && Ladder(e, dst, k, g).Ok? && Faithful(m, e) && k + Peak(e) <= hi
    ensures k < 8 && Ladder(e.l, dst, k, g).Ok?
    ensures var g1 := Ladder(e.l, dst, k, g).value;
            && Ladder(e.r, 15 - k, k + 1, g1).Ok?
            && Ladder(e, dst, k, g)
               == Combine(e.op, dst, 15 - k, Fold(e.l), Fold(e.r), k + 1, Ladder(e.r, 15 - k, k + 1, g1).value)
    ensures Faithful(m, e.l) && Faithful(m, e.r)
    ensures k + Peak(e.l) <= hi && k + 1 + Peak(e.r) <= hi && k + (if e.op.Arith? then 1 else 3) <= hi
    ensures Fold(e).Some? == (Fold(e.l).Some? && Fold(e.r).Some?)
    ensures EvalInto(m, e, tgt, env) ==
      match EvalInto(m, e.l, tgt, env)
      case Trap(f) => Trap(f)
      case Value(v) =>
        match Eval(m, e.r, RightEnv(e.l, tgt, env, v))
        case Trap(f) => Trap(f)
        case Value(w) => Apply(m, e.op, v, w)
  {
    hide Apply;
  }

  /** The left operand has run to s1 and left v. */
  lemma BinRight(m: Machine, vs: seq<string>, e: Expr, dst: u8, tgt: Option<string>,
                 k: nat, hi: nat, g: Gen, st: State, env: Env, s1: State, v: i64) returns (n: nat)
    requires e.Bin?
    requires Ready(m, vs, e, dst, tgt, k, hi, g, st, env) && Loaded(m, vs, g, Ladder(e, dst, k, g))
    requires EvalInto(m, e.l, tgt, env) == Value(v) && Ladder(e.l, dst, k, g).Ok?
    requires Ends(Next(s1), st, Ladder(e.l, dst, k, g).value, dst, k, hi, Fold(e.l), Value(v))
    requires Agree(s1.regs, vs, RightEnv(e.l, tgt, env, v))
    ensures Ends(Steps(m, s1, n), st, Ladder(e, dst, k, g).value, dst, k, hi, Fold(e), EvalInto(m, e, tgt, env))
    ensures n <= |Ladder(e, dst, k, g).value.code| - |Ladder(e.l, dst, k, g).value.code|
    decreases e, 0
  {
    hide Ladder, EvalInto, Eval, Fold, Faithful, Peak;
    hide Steps, Step, Apply, FoldBin, Touches, Agree, Operate, Holds, Linked, EmitFolded, FoldAgrees;
    BinShape(m, e, dst, tgt, k, hi, g, env);
    var env1 := RightEnv(e.l, tgt, env, v);
    var h := Ladder(e, dst, k, g).value;
    var g1 := Ladder(e.l, dst, k, g).value;
    var g2 := Ladder(e.r, 15 - k, k + 1, g1).value;
    HoldsPart(m, |g.code|, h, |g1.code|, g2);
    LinkedPart(m, vs, g2, h);
    EvalIntoNothing(m, e.r, env1);
    n := LadderRuns(m, vs, e.r, 15 - k, None, k + 1, hi, g1, s1, env1);
    if Eval(m, e.r, env1).Value? {
      var s2 := Steps(m, s1, n).st;
      if Fold(e).Some? {
        TouchesBoth(st, s1, s2, -1, k, -1, k + 1, -1, k, hi);
        FoldIsEvalInto(m, e, tgt, env);
      } else {
        HoldsPart(m, |g.code|, h, |g2.code|, h);
        var n3 := BinTail(m, vs, e.op, dst, Fold(e.l), Fold(e.r), v, Eval(m, e.r, env1).v, k, hi, g2, st, s1, s2);
        StepsCompose(m, s1, n, n3);
        n := n + n3;
      }
    }
  }

  lemma BinRuns(m: Machine, vs: seq<string>, e: Expr, dst: u8, tgt: Option<string>,
                k: nat, hi: nat, g: Gen, st: State, env: Env) returns (n: nat)
    requires e.Bin?
    requires Ready(m, vs, e, dst, tgt, k, hi, g, st, env) && Loaded(m, vs, g, Ladder(e, dst, k, g))
    ensures Leaves(m, st, n, Ladder(e, dst, k, g).value, dst, k, hi, Fold(e), EvalInto(m, e, tgt, env))
    ensures n <= |Ladder(e, dst, k, g).value.code| - |g.code|
    decreases e, 1
  {
    hide Ladder, EvalInto, Eval, Fold, Faithful, Peak;
    hide Steps, Step, Apply, FoldBin, Touches, Agree, Combine, FoldAgrees;
    BinShape(m, e, dst, tgt, k, hi, g, env);
    var h := Ladder(e, dst, k, g).value;
    var g1 := Ladder(e.l, dst, k, g).value;
    HoldsPart(m, |g.code|, h, |g.code|, g1);
    LinkedPart(m, vs, g1, h);
    n := LadderRuns(m, vs, e.l, dst, tgt, k, hi, g, st, env);
    if EvalInto(m, e.l, tgt, env).Value? {
      var v := EvalInto(m, e.l, tgt, env).v;
      var s1 := Steps(m, st, n).st;
      if Fold(e.l).Some? { AgreeKept(st, s1, -1, k, hi, vs, env); }
      else { AgreeSpoiled(st, s1, dst, k, hi, tgt, vs, env); }
      var n2 := BinRight(m, vs, e, dst, tgt, k, hi, g, st, env, s1, v);
      StepsCompose(m, st, n, n2);
      n := n + n2;
    }
  }

  // ---- whole expressions, unary operators ----------------------------------

  lemma ExpressionRuns(m: Machine, vs: seq<string>, e: Expr, dst: u8, tgt: Option<string>,
                       k: nat, hi: nat, g: Gen, st: State, env: Env) returns (n: nat)
    requires Ready(m, vs, e, dst, tgt, k, hi, g, st, env) && Loaded(m, vs, g, Expression(e, dst, k, g))
    ensures Computes(m, st, n, Expression(e, dst, k, g).value, dst, k, hi, EvalInto(m, e, tgt, env))
    ensures n <= |Expression(e, dst, k, g).value.code| - |g.code|
    decreases e, 4
  {
    hide Ladder, EvalInto, Fold, Faithful, Peak, Steps, Step, Holds, Linked, EmitFolded, Agree;
    var h := Expression(e, dst, k, g).value;
    var g1 := Ladder(e, dst, k, g).value;
    HoldsPart(m, |g.code|, h, |g.code|, g1);
    LinkedPart(m, vs, g1, h);
    n := LadderRuns(m, vs, e, dst, tgt, k, hi, g, st, env);
    if Fold(e).Some? {
      var s1 := Steps(m, st, n).st;
      HoldsPart(m, |g.code|, h, |g1.code|, h);
      FoldedRuns(m, vs, s1, g1, dst, Fold(e));
      StepsCompose(m, st, n, 1);
      n := n + 1;
    }
  }

  lemma NegShape(m: Machine, e: Expr, dst: u8, tgt: Option<string>, k: nat, hi: nat, g: Gen, env: Env)
    requires e.Neg? && WellFormed(g) && Ladder(e, dst, k, g).Ok? && Faithful(m, e) && k + Peak(e) <= hi
    ensures k + 1 < 8 && EmitConst(g, 15 - k, 0).Ok? && Ladder(e.arg, 14 - k, k + 2, EmitConst(g, 15 - k, 0).value).Ok?
    ensures var g2 := Ladder(e.arg, 14 - k, k + 2, EmitConst(g, 15 - k, 0).value);
            Ladder(e, dst, k, g)
              == if Fold(e.arg).Some? then g2 else Emit(g2.value, Instr(Alu(Sub), dst, 15 - k, 14 - k))
    ensures Faithful(m, e.arg) && k + 2 + Peak(e.arg) <= hi
    ensures Fold(e).Some? == Fold(e.arg).Some?
    ensures EvalInto(m, e, tgt, env) ==
      match Eval(m, e.arg, env)
      case Trap(f) => Trap(f)
      case Value(v) => Value(Wrap(0 - v))
  {
    hide Wrap, EmitConst, Emit;
  }

  /** Zero and the operand are in scratch registers k and k + 1. */
  lemma NegTail(m: Machine, dst: u8, k: nat, hi: nat, g: Gen, st: State, s1: State, s2: State)
    requires WellFormed(g) && AtEnd(s2, g) && k + 2 <= hi && k + 1 < 8 && dst < 16 && Free(dst, k, hi)
    requires Touches(st, s1, 15 - k, k, hi) && s1.regs[15 - k] == 0
    requires Touches(s1, s2, 14 - k, k + 2, hi)
    requires Emit(g, Instr(Alu(Sub), dst, 15 - k, 14 - k)).Ok?
    requires Holds(m, |g.code|, Emit(g, Instr(Alu(Sub), dst, 15 - k, 14 - k)).value)
    ensures Ends(Steps(m, s2, 1), st, Emit(g, Instr(Alu(Sub), dst, 15 - k, 14 - k)).value, dst, k, hi, None,
                 Value(Wrap(0 - s2.regs[14 - k] as int)))
  {
    hide Steps, Holds, Wrap;
    RunAlu(m, s2, g, Sub, dst, 15 - k, 14 - k);
  }

  lemma NegRuns(m: Machine, vs: seq<string>, e: Expr, dst: u8, tgt: Option<string>,
                k: nat, hi: nat, g: Gen, st: State, env: Env) returns (n: nat)
    requires e.Neg?
    requires Ready(m, vs, e, dst, tgt, k, hi, g, st, env) && Loaded(m, vs, g, Ladder(e, dst, k, g))
    ensures Leaves(m, st, n, Ladder(e, dst, k, g).value, dst, k, hi, Fold(e), EvalInto(m, e, tgt, env))
    ensures n <= |Ladder(e, dst, k, g).value.code| - |g.code|
    decreases e, 0
  {
    hide Ladder, EvalInto, Eval, Fold, Faithful, Peak, Steps, Step, Holds, Linked, EmitConst, Agree, Wrap, Touches,
        Emit, FoldBin, Apply;
    NegShape(m, e, dst, tgt, k, hi, g, env);
    EvalIntoNothing(m, e.arg, env);
    var zero, rhs: u8 := 15 - k, 14 - k;
    var h := Ladder(e, dst, k, g).value;
    var g1 := EmitConst(g, zero, 0).value;
    var g2 := Ladder(e.arg, rhs, k + 2, g1).value;
    HoldsPart(m, |g.code|, h, |g.code|, g1);
    LinkedPart(m, vs, g1, h);
    RunConst(m, vs, st, g, zero, 0);
    var s1 := Steps(m, st, 1).st;
    OneUpdate(st, s1, zero, 0, k, hi);
    AgreeKept(st, s1, zero, k, hi, vs, env);
    HoldsPart(m, |g.code|, h, |g1.code|, g2);
    LinkedPart(m, vs, g2, h);
    n := LadderRuns(m, vs, e.arg, rhs, None, k + 2, hi, g1, s1, env);
    StepsCompose(m, st, 1, n);
    n := 1 + n;
    if Eval(m, e.arg, env).Value? {
      var s2 := Steps(m, st, n).st;
      if Fold(e).Some? {
        TouchesBoth(st, s1, s2, zero, k, -1, k + 2, -1, k, hi);
        FoldIsEvalInto(m, e, tgt, env);
      } else {
        HoldsPart(m, |g.code|, h, |g2.code|, h);
        NegTail(m, dst, k, hi, g2, st, s1, s2);
        StepsCompose(m, st, n, 1);
        n := n + 1;
      }
    }
  }

  lemma NotShape(m: Machine, e: Expr, dst: u8, tgt: Option<string>, k: nat, hi: nat, g: Gen, env: Env)
    requires e.Not? && WellFormed(g) && Ladder(e, dst, k, g).Ok? && Faithful(m, e) && k + Peak(e) <= hi
    ensures k < 8 && Ladder(e.arg, 15 - k, k + 1, g).Ok? && k + 2 <= hi
    ensures var g1 := Ladder(e.arg, 15 - k, k + 1, g);
            Ladder(e, dst, k, g) == if Fold(e.arg).Some? then g1 else CompareZero(dst, k, g1.value)
    ensures Faithful(m, e.arg) && k + 1 + Peak(e.arg) <= hi
    ensures Fold(e).Some? == Fold(e.arg).Some?
    ensures EvalInto(m, e, tgt, env) ==
      match Eval(m, e.arg, env)
      case Trap(f) => Trap(f)
      case Value(v) => Value(Truth(v == 0))
  {
    hide CompareZero;
  }

  lemma CompareZeroRuns(m: Machine, vs: seq<string>, dst: u8, k: nat, hi: nat, g: Gen, st: State)
    requires AtEnd(st, g) && WellFormed(g) && k < 8 && k + 2 <= hi && dst < 16 && Free(dst, k, hi)
    requires Loaded(m, vs, g, CompareZero(dst, k, g))
    ensures Computes(m, st, 2, CompareZero(dst, k, g).value, dst, k, hi, Value(Truth(st.regs[15 - k] == 0)))
    ensures |CompareZero(dst, k, g).value.code| == |g.code| + 2
  {
    hide Steps, Step, Holds, Linked, EmitConst, WordsEqual;
    var zero: u8 := 14 - k;
    var g1 := EmitConst(g, zero, 0).value;
    var h := CompareZero(dst, k, g).value;
    HoldsPart(m, |g.code|, h, |g.code|, g1);
    LinkedPart(m, vs, g1, h);
    RunConst(m, vs, st, g, zero, 0);
    var s1 := Steps(m, st, 1).st;
    HoldsPart(m, |g.code|, h, |g1.code|, h);
    RunAlu(m, s1, g1, Eq, dst, 15 - k, zero);
    ZeroIsPlain(m, st.regs[15 - k]);
    StepsCompose(m, st, 1, 1);
  }

  lemma NotRuns(m: Machine, vs: seq<string>, e: Expr, dst: u8, tgt: Option<string>,
                k: nat, hi: nat, g: Gen, st: State, env: Env) returns (n: nat)
    requires e.Not?
    requires Ready(m, vs, e, dst, tgt, k, hi, g, st, env) && Loaded(m, vs, g, Ladder(e, dst, k, g))
    ensures Leaves(m, st, n, Ladder(e, dst, k, g).value, dst, k, hi, Fold(e), EvalInto(m, e, tgt, env))
    ensures n <= |Ladder(e, dst, k, g).value.code| - |g.code|
    decreases e, 0
  {
    hide Ladder, EvalInto, Eval, Fold, Faithful, Peak, Steps, Step, Holds, Linked, Agree, Touches, CompareZero;
    NotShape(m, e, dst, tgt, k, hi, g, env);
    EvalIntoNothing(m, e.arg, env);
    var rhs: u8 := 15 - k;
    var h := Ladder(e, dst, k, g).value;
    var g1 := Ladder(e.arg, rhs, k + 1, g).value;
    HoldsPart(m, |g.code|, h, |g.code|, g1);
    LinkedPart(m, vs, g1, h);
    n := LadderRuns(m, vs, e.arg, rhs, None, k + 1, hi, g, st, env);
    if Eval(m, e.arg, env).Value? {
      var s1 := Steps(m, st, n).st;
      if Fold(e).Some? {
        TouchesWider(st, s1, -1, k + 1, -1, k, hi);
        FoldIsEvalInto(m, e, tgt, env);
      } else {
        HoldsPart(m, |g.code|, h, |g1.code|, h);
        CompareZeroRuns(m, vs, dst, k, hi, g1, s1);
        StepsCompose(m, st, n, 2);
        TouchesBoth(st, s1, Steps(m, s1, 2).st, rhs, k + 1, dst, k, dst, k, hi);
        n := n + 2;
      }
    }
  }

  lemma TouchesWider(st: State, s: State, d: int, l: nat, dst: int, lo: nat, hi: nat)
    requires Touches(st, s, d, l, hi) && lo <= l && Covered(d, dst, lo, hi)
    ensures Touches(st, s, dst, lo, hi)
  {
  }

  // ---- ternary -------------------------------------------------------------

  lemma TernShape(m: Machine, e: Expr, dst: u8, tgt: Option<string>, k: nat, hi: nat, g: Gen, env: Env)
    requires e.Tern? && WellFormed(g) && Ladder(e, dst, k, g).Ok? && Faithful(m, e) && k + Peak(e) <= hi
    ensures Expression(e.c, dst, k, g).Ok?
    ensures var g1 := Expression(e.c, dst, k, g).value;
            && Emit(g1, Instr(Jz, dst, 0, 0)).Ok?
            && var g2 := Emit(g1, Instr(Jz, dst, 0, 0)).value;
            && Expression(e.a, dst, k, g2).Ok?
            && var g3 := Expression(e.a, dst, k, g2).value;
            && Emit(g3, Instr(Jmp, 0, 0, 0)).Ok?
            && var g4 := PatchHere(Emit(g3, Instr(Jmp, 0, 0, 0)).value, |g1.code|);
            && Expression(e.b, dst, k, g4).Ok?
            && Ladder(e, dst, k, g).value == PatchHere(Expression(e.b, dst, k, g4).value, |g3.code|)
    ensures Faithful(m, e.c) && Faithful(m, e.a) && Faithful(m, e.b)
    ensures k + Peak(e.c) <= hi && k + Peak(e.a) <= hi && k + Peak(e.b) <= hi
    ensures Fold(e).None?
    ensures EvalInto(m, e, tgt, env) ==
      match EvalInto(m, e.c, tgt, env)
      case Trap(f) => Trap(f)
      case Value(v) => EvalInto(m, if v != 0 then e.a else e.b, tgt, Spoil(tgt, env, v))
  {
    hide Emit, PatchHere, Expression;
    assert Ladder(e, dst, k, g) == Ternary(e, dst, k, g);
    assert TernaryThen(e, dst, k, g).Ok?;
    assert TernaryTest(e, dst, k, g).Ok?;
  }

  /** The stages of a ternary: after its condition, its first jump, its first
      branch, its second jump, its second branch. */
  datatype Stages = Stages(g1: Gen, g2: Gen, g3: Gen, g4: Gen, g5: Gen)

  /** Where the machine's code holds the parts of a ternary. */
  lemma TernLayout(m: Machine, vs: seq<string>, t: Stages, dst: u8, g: Gen, h: Gen)
    requires WellFormed(g) && WellFormed(t.g1) && Extends(g, t.g1)
    requires Emit(t.g1, Instr(Jz, dst, 0, 0)) == Ok(t.g2) && Extends(t.g2, t.g3)
    requires Emit(t.g3, Instr(Jmp, 0, 0, 0)).Ok?
    requires t.g4 == PatchHere(Emit(t.g3, Instr(Jmp, 0, 0, 0)).value, |t.g1.code|)
    requires Extends(t.g4, t.g5) && h == PatchHere(t.g5, |t.g3.code|)
    requires Linked(m, vs, h) && Holds(m, |g.code|, h)
    ensures Linked(m, vs, t.g1) && Holds(m, |g.code|, t.g1)
    ensures Linked(m, vs, t.g3) && Holds(m, |t.g2.code|, t.g3)
    ensures Linked(m, vs, t.g5) && Holds(m, |t.g4.code|, t.g5)
    ensures Holds(m, |t.g1.code|, h) && Holds(m, |t.g3.code|, h)
    ensures |g.code| <= |t.g1.code| && |t.g2.code| == |t.g1.code| + 1 <= |t.g3.code|
    ensures |t.g4.code| == |t.g3.code| + 1 <= |h.code| == |t.g5.code|
    ensures h.code[|t.g1.code|] == WithImm(Jz, dst, 4 * |t.g4.code|)
    ensures h.code[|t.g3.code|] == WithImm(Jmp, 0, 4 * |h.code|)
  {
    hide Fetch;
    assert h.code[|t.g1.code|] == t.g5.code[|t.g1.code|] == t.g4.code[|t.g1.code|];
    assert forall i :: |t.g2.code| <= i < |t.g3.code| ==> h.code[i] == t.g5.code[i] == t.g4.code[i] == t.g3.code[i];
    assert forall i :: 0 <= i < |t.g1.code| ==> h.code[i] == t.g5.code[i] == t.g4.code[i] == t.g1.code[i];
  }

  /** The condition was true: first branch, then the jump over the second. */
  lemma TernTrue(m: Machine, vs: seq<string>, e: Expr, dst: u8, tgt: Option<string>, k: nat, hi: nat,
                 t: Stages, h: Gen, s2: State, env: Env) returns (n: nat)
    requires Ready(m, vs, e, dst, tgt, k, hi, t.g2, s2, env) && Loaded(m, vs, t.g2, Expression(e, dst, k, t.g2))
    requires Expression(e, dst, k, t.g2).value == t.g3
    requires Holds(m, |t.g3.code|, h) && |t.g3.code| < |h.code| && WellFormed(h)
    requires h.code[|t.g3.code|] == WithImm(Jmp, 0, 4 * |h.code|)
    ensures Ends(Steps(m, s2, n), s2, h, dst, k, hi, None, EvalInto(m, e, tgt, env))
    ensures n <= |t.g3.code| + 1 - |t.g2.code|
    decreases e, 5
  {
    hide Ladder, Expression, EvalInto, Fold, Faithful, Peak, Steps, Step, Holds, Linked, Agree, WithImm;
    n := ExpressionRuns(m, vs, e, dst, tgt, k, hi, t.g2, s2, env);
    if EvalInto(m, e, tgt, env).Value? {
      var s3 := Steps(m, s2, n).st;
      RunBranch(m, s3, t.g3, h);
      StepsCompose(m, s2, n, 1);
      n := n + 1;
    }
  }

  lemma TernRuns(m: Machine, vs: seq<string>, e: Expr, dst: u8, tgt: Option<string>,
                 k: nat, hi: nat, g: Gen, st: State, env: Env) returns (n: nat)
    requires e.Tern?
    requires Ready(m, vs, e, dst, tgt, k, hi, g, st, env) && Loaded(m, vs, g, Ladder(e, dst, k, g))
    ensures Leaves(m, st, n, Ladder(e, dst, k, g).value, dst, k, hi, Fold(e), EvalInto(m, e, tgt, env))
    ensures n <= |Ladder(e, dst, k, g).value.code| - |g.code|
    decreases e, 1
  {
    hide Ladder, Expression, Ternary, TernaryThen, TernaryTest, EvalInto, Fold, Faithful, Peak;
    hide Steps, Step, Holds, Agree, Touches, Emit, PatchHere, WithImm;
    TernShape(m, e, dst, tgt, k, hi, g, env);
    var h := Ladder(e, dst, k, g).value;
    var g1 := Expression(e.c, dst, k, g).value;
    var g2 := Emit(g1, Instr(Jz, dst, 0, 0)).value;
    var g3 := Expression(e.a, dst, k, g2).value;
    var g4 := PatchHere(Emit(g3, Instr(Jmp, 0, 0, 0)).value, |g1.code|);
    var t := Stages(g1, g2, g3, g4, Expression(e.b, dst, k, g4).value);
    TernLayout(m, vs, t, dst, g, h);
    n := ExpressionRuns(m, vs, e.c, dst, tgt, k, hi, g, st, env);
    if EvalInto(m, e.c, tgt, env).Value? {
      var s1 := Steps(m, st, n).st;
      var v := s1.regs[dst];
      AgreeSpoiled(st, s1, dst, k, hi, tgt, vs, env);
      var n2 := TernBranch(m, vs, e, dst, tgt, k, hi, t, h, s1, Spoil(tgt, env, v));
      StepsCompose(m, st, n, n2);
      if Steps(m, s1, n2).Next? {
        TouchesBoth(st, s1, Steps(m, s1, n2).st, dst, k, dst, k, dst, k, hi);
      }
      n := n + n2;
    }
  }

  /** The condition's value is in dst; its jump and one of the branches run. */
  lemma TernBranch(m: Machine, vs: seq<string>, e: Expr, dst: u8, tgt: Option<string>, k: nat, hi: nat,
                   t: Stages, h: Gen, s1: State, env: Env) returns (n: nat)
    requires e.Tern? && Faithful(m, e.a) && Faithful(m, e.b) && k + Peak(e.a) <= hi && k + Peak(e.b) <= hi
    requires |vs| + hi <= 15 && Free(dst, k, hi) && Aims(dst, tgt, vs) && Agree(s1.regs, vs, env)
    requires AtEnd(s1, t.g1) && WellFormed(t.g2) && WellFormed(t.g4) && WellFormed(h)
    requires Expression(e.a, dst, k, t.g2) == Ok(t.g3) && Expression(e.b, dst, k, t.g4) == Ok(t.g5)
    requires Linked(m, vs, t.g3) && Holds(m, |t.g2.code|, t.g3)
    requires Linked(m, vs, t.g5) && Holds(m, |t.g4.code|, t.g5)
    requires Holds(m, |t.g1.code|, h) && Holds(m, |t.g3.code|, h)
    requires |t.g2.code| == |t.g1.code| + 1 <= |t.g3.code| && |t.g4.code| == |t.g3.code| + 1 <= |h.code| == |t.g5.code|
    requires h.code[|t.g1.code|] == WithImm(Jz, dst, 4 * |t.g4.code|)
    requires h.code[|t.g3.code|] == WithImm(Jmp, 0, 4 * |h.code|)
    ensures Ends(Steps(m, s1, n), s1, h, dst, k, hi, None,
                 EvalInto(m, if s1.regs[dst] != 0 then e.a else e.b, tgt, env))
    ensures n <= |h.code| - |t.g1.code|
    decreases e, 0
  {
    hide Ladder, Expression, EvalInto, Fold, Faithful, Peak, Steps, Step, Holds, Linked, Agree, Touches, WithImm;
    RunBranch(m, s1, t.g1, h);
    var s2 := Steps(m, s1, 1).st;
    assert s2 == s1.(ip := s2.ip, tick := s2.tick);
    SameRegsTouch(s1, s2, k, hi);
    if s1.regs[dst] != 0 {
      n := TernTrue(m, vs, e.a, dst, tgt, k, hi, t, h, s2, env);
    } else {
      n := ExpressionRuns(m, vs, e.b, dst, tgt, k, hi, t.g4, s2, env);
    }
    StepsCompose(m, s1, 1, n);
    if Steps(m, s2, n).Next? {
      TouchesBoth(s1, s2, Steps(m, s2, n).st, -1, k, dst, k, dst, k, hi);
    }
    n := 1 + n;
  }

  lemma SameRegsTouch(st: State, s: State, lo: nat, hi: nat)
    requires Valid(st) && s == st.(ip := s.ip, tick := s.tick)
    ensures Touches(st, s, -1, lo, hi)
  {
  }

  // ---- intrinsics ----------------------------------------------------------

  /** One argument, evaluated into scratch register j. */
  lemma ArgRuns(m: Machine, vs: seq<string>, a: Expr, j: nat, hi: nat, g: Gen, st: State, env: Env) returns (n: nat)
    requires AtEnd(st, g) && WellFormed(g) && Faithful(m, a) && j < 8
    requires j + 1 + Peak(a) <= hi && |vs| + hi <= 15 && Agree(st.regs, vs, env)
    requires Loaded(m, vs, g, Expression(a, 15 - j, j + 1, g))
    ensures Computes(m, st, n, Expression(a, 15 - j, j + 1, g).value, 15 - j, j + 1, hi, Eval(m, a, env))
    ensures Steps(m, st, n).Next? ==> Agree(Steps(m, st, n).st.regs, vs, env)
    ensures n <= |Expression(a, 15 - j, j + 1, g).value.code| - |g.code|
    decreases a, 5
  {
    hide Ladder, Expression, EvalInto, Eval, Fold, Faithful, Peak, Steps, Step, Holds, Linked, Agree, Touches;
    EvalIntoNothing(m, a, env);
    n := ExpressionRuns(m, vs, a, 15 - j, None, j + 1, hi, g, st, env);
    if Steps(m, st, n).Next? {
      AgreeKept(st, Steps(m, st, n).st, 15 - j, j + 1, hi, vs, env);
    }
  }

  /** The argument words an intrinsic finds in scratch registers k, k + 1, ... */
  ghost predicate ArgsIn(s: State, k: nat, args: seq<i64>) {
    && Valid(s) && |args| <= 3 && k + |args| <= 8
    && forall j :: 0 <= j < |args| ==> s.regs[15 - k - j] == args[j]
  }

  /** The meaning of intrinsic e on evaluated arguments. */
  function ApplyIntrinsic(m: Machine, e: Expr, args: seq<i64>): Computed
    requires (e.Call1? && |args| == 1) || (e.Call2? && |args| == 2) || (e.Clamp? && |args| == 3)
  {
    if e.Call1? then Apply1(e.f1, args[0])
    else if e.Call2? then Value(Apply2(m, e.f2, args[0], args[1]))
    else Value(MinWord(MaxWord(args[0], args[1]), args[2]))
  }

  function IntrinsicId(e: Expr): u8
    requires e.Call1? || e.Call2? || e.Clamp?
  {
    if e.Call1? then NativeId1(e.f1) else if e.Call2? then NativeId2(e.f2) else NATIVE_MATH_CLAMP
  }

  /** The machine reads an intrinsic's arguments where the compiler put them. */
  lemma NativeSeesArgs(m: Machine, e: Expr, k: nat, s: State, args: seq<i64>)
    requires (e.Call1? && |args| == 1) || (e.Call2? && |args| == 2) || (e.Clamp? && |args| == 3)
    requires ArgsIn(s, k, args)
    ensures NativeResult(m, IntrinsicId(e), 15 - k, s) == ApplyIntrinsic(m, e, args)
  {
    hide ClearTag, SetTag, Tagged, AbsWord, MinWord, MaxWord;
    assert s.regs[15 - k] == args[0];
    if !e.Call1? { assert s.regs[14 - k] == args[1]; }
    if e.Clamp? { assert s.regs[13 - k] == args[2]; }
  }

  /** The call itself, with all arguments in place. */
  lemma CallRuns(m: Machine, vs: seq<string>, e: Expr, dst: u8, k: nat, hi: nat, g: Gen, st: State, s: State,
                 args: seq<i64>)
    requires (e.Call1? && |args| == 1) || (e.Call2? && |args| == 2) || (e.Clamp? && |args| == 3)
    requires AtEnd(s, g) && WellFormed(g) && dst < 16 && ArgsIn(s, k, args)
    requires Touches(st, s, -1, k, hi)
    requires Loaded(m, vs, g, Emit(g, Instr(CallNat, dst, IntrinsicId(e), 15 - k)))
    ensures Ends(Steps(m, s, 1), st, Emit(g, Instr(CallNat, dst, IntrinsicId(e), 15 - k)).value, dst, k, hi, None,
                 ApplyIntrinsic(m, e, args))
  {
    hide Steps, Step, ApplyIntrinsic, NativeResult;
    RunNative(m, s, g, dst, IntrinsicId(e), 15 - k);
    NativeSeesArgs(m, e, k, s.(ip := 4 * |g.code| + 4, tick := s.tick + 1), args);
  }

  /** What the code of an intrinsic consists of. */
  lemma IntrinsicShape(m: Machine, e: Expr, dst: u8, tgt: Option<string>, k: nat, hi: nat, g: Gen, env: Env)
    requires (e.Call1? || e.Call2? || e.Clamp?) && WellFormed(g) && Ladder(e, dst, k, g).Ok? && Faithful(m, e)
        && k + Peak(e) <= hi
    ensures k < 8 && Expression(e.a0, 15 - k, k + 1, g).Ok? && Faithful(m, e.a0) && k + 1 + Peak(e.a0) <= hi
    ensures var g1 := Expression(e.a0, 15 - k, k + 1, g).value;
            (e.Call1? ==> Ladder(e, dst, k, g) == Emit(g1, Instr(CallNat, dst, IntrinsicId(e), 15 - k)))
            && (!e.Call1? ==>
              && k < 7 && Expression(e.a1, 14 - k, k + 2, g1).Ok? && Faithful(m, e.a1) && k + 2 + Peak(e.a1) <= hi
              && var g2 := Expression(e.a1, 14 - k, k + 2, g1).value;
              (e.Call2? ==> Ladder(e, dst, k, g) == Emit(g2, Instr(CallNat, dst, IntrinsicId(e), 15 - k)))
              && (e.Clamp? ==>
                && k < 6 && Expression(e.a2, 13 - k, k + 3, g2).Ok? && Faithful(m, e.a2) && k + 3 + Peak(e.a2) <= hi
                && Ladder(e, dst, k, g)
                   == Emit(Expression(e.a2, 13 - k, k + 3, g2).value, Instr(CallNat, dst, IntrinsicId(e), 15 - k))))
    ensures Fold(e).None? && EvalInto(m, e, tgt, env) == Eval(m, e, env)
  {
    hide Expression, Emit, Eval;
    assert Ladder(e, dst, k, g) == Intrinsic(e, dst, k, g);
  }

  /** s has the argument words in place and is otherwise st. */
  ghost predicate ArgState(st: State, s: State, g: Gen, vs: seq<string>, env: Env, k: nat, hi: nat, args: seq<i64>) {
    && AtEnd(s, g) && ArgsIn(s, k, args)
    && Touches(st, s, -1, k, hi) && Agree(s.regs, vs, env)
  }

  lemma ArgAdded(st: State, s: State, s': State, g: Gen, h: Gen, vs: seq<string>, env: Env,
                 k: nat, hi: nat, args: seq<i64>, v: i64)
    requires ArgState(st, s, g, vs, env, k, hi, args) && |args| < 3 && k + |args| < 8 && k + |args| < hi
    requires AtEnd(s', h) && Touches(s, s', 15 - k - |args|, k + |args| + 1, hi) && Agree(s'.regs, vs, env)
    requires s'.regs[15 - k - |args|] == v
    ensures ArgState(st, s', h, vs, env, k, hi, args + [v])
  {
    TouchesBoth(st, s, s', -1, k, 15 - k - |args|, k + |args| + 1, -1, k, hi);
  }

  /** One more argument. */
  lemma NextArg(m: Machine, vs: seq<string>, a: Expr, k: nat, hi: nat, args: seq<i64>,
                g: Gen, st: State, s: State, env: Env) returns (n: nat)
    requires ArgState(st, s, g, vs, env, k, hi, args) && |args| < 3 && k + |args| < 8
    requires WellFormed(g) && Faithful(m, a) && k + |args| + 1 + Peak(a) <= hi && |vs| + hi <= 15
    requires Loaded(m, vs, g, Expression(a, 15 - k - |args|, k + |args| + 1, g))
    ensures var o := Steps(m, s, n);
            match Eval(m, a, env)
            case Trap(f) => o.Faulted? && o.fault == f
            case Value(v) =>
              o.Next? && ArgState(st, o.st, Expression(a, 15 - k - |args|, k + |args| + 1, g).value, vs, env, k, hi,
                  args + [v])
    ensures n <= |Expression(a, 15 - k - |args|, k + |args| + 1, g).value.code| - |g.code|
    decreases a, 6
  {
    hide Expression, Eval, Faithful, Peak, Steps, Step, Holds, Linked, Agree, Touches;
    n := ArgRuns(m, vs, a, k + |args|, hi, g, s, env);
    if Eval(m, a, env).Value? {
      ArgAdded(st, s, Steps(m, s, n).st, g, Expression(a, 15 - k - |args|, k + |args| + 1, g).value,
               vs, env, k, hi, args, Eval(m, a, env).v);
    }
  }

  lemma IntrinsicRuns(m: Machine, vs: seq<string>, e: Expr, dst: u8, tgt: Option<string>,
                      k: nat, hi: nat, g: Gen, st: State, env: Env) returns (n: nat)
    requires e.Call1? || e.Call2? || e.Clamp?
    requires Ready(m, vs, e, dst, tgt, k, hi, g, st, env) && Loaded(m, vs, g, Ladder(e, dst, k, g))
    ensures Leaves(m, st, n, Ladder(e, dst, k, g).value, dst, k, hi, Fold(e), EvalInto(m, e, tgt, env))
    ensures n <= |Ladder(e, dst, k, g).value.code| - |g.code|
    decreases e, 2
  {
    hide Ladder, Expression, EvalInto, Fold, Faithful, Peak;
    hide Steps, Step, Holds, Linked, Agree, Touches, Emit;
    IntrinsicShape(m, e, dst, tgt, k, hi, g, env);
    var h := Ladder(e, dst, k, g).value;
    var g1 := Expression(e.a0, 15 - k, k + 1, g).value;
    HoldsPart(m, |g.code|, h, |g.code|, g1);
    LinkedPart(m, vs, g1, h);
    SameRegsTouch(st, st, k, hi);
    n := NextArg(m, vs, e.a0, k, hi, [], g, st, st, env);
    if Eval(m, e.a0, env).Value? {
      var s1 := Steps(m, st, n).st;
      var ws := [] + [Eval(m, e.a0, env).v];
      HoldsPart(m, |g.code|, h, |g1.code|, h);
      var n2: nat;
      if e.Call1? {
        CallRuns(m, vs, e, dst, k, hi, g1, st, s1, ws);
        n2 := 1;
      } else {
        n2 := SecondArg(m, vs, e, dst, k, hi, g1, h, st, s1, env, ws);
      }
      StepsCompose(m, st, n, n2);
      n := n + n2;
    }
  }

  /** An intrinsic of two or three arguments whose first is in place. */
  lemma SecondArg(m: Machine, vs: seq<string>, e: Expr, dst: u8, k: nat, hi: nat,
                  g1: Gen, h: Gen, st: State, s1: State, env: Env, ws: seq<i64>) returns (n: nat)
    requires (e.Call2? || e.Clamp?) && |ws| == 1 && Eval(m, e.a0, env) == Value(ws[0])
    requires ArgState(st, s1, g1, vs, env, k, hi, ws) && WellFormed(g1) && dst < 16 && k < 7
    requires Faithful(m, e.a1) && k + 2 + Peak(e.a1) <= hi && |vs| + hi <= 15
    requires Expression(e.a1, 14 - k, k + 2, g1).Ok?
    requires Loaded(m, vs, g1, Ok(h))
    requires var g2 := Expression(e.a1, 14 - k, k + 2, g1).value;
             && (e.Call2? ==> Emit(g2, Instr(CallNat, dst, IntrinsicId(e), 15 - k)) == Ok(h))
             && (e.Clamp? ==>
                  (&& k < 6 && Faithful(m, e.a2) && k + 3 + Peak(e.a2) <= hi
                   && Expression(e.a2, 13 - k, k + 3, g2).Ok?
                   && Ok(h)
                      == Emit(Expression(e.a2, 13 - k, k + 3, g2).value, Instr(CallNat, dst, IntrinsicId(e), 15 - k))))
    ensures Ends(Steps(m, s1, n), st, h, dst, k, hi, None, Eval(m, e, env))
    ensures n <= |h.code| - |g1.code|
    decreases e, 1
  {
    hide Expression, Faithful, Peak, Steps, Step, Holds, Linked, Agree, Touches, Emit;
    var g2 := Expression(e.a1, 14 - k, k + 2, g1).value;
    HoldsPart(m, |g1.code|, h, |g1.code|, g2);
    LinkedPart(m, vs, g2, h);
    n := NextArg(m, vs, e.a1, k, hi, ws, g1, st, s1, env);
    if Eval(m, e.a1, env).Value? {
      var s2 := Steps(m, s1, n).st;
      var ws2 := ws + [Eval(m, e.a1, env).v];
      HoldsPart(m, |g1.code|, h, |g2.code|, h);
      var n2: nat;
      if e.Call2? {
        CallRuns(m, vs, e, dst, k, hi, g2, st, s2, ws2);
        n2 := 1;
      } else {
        n2 := ThirdArg(m, vs, e, dst, k, hi, g2, h, st, s2, env, ws2);
      }
      StepsCompose(m, s1, n, n2);
      n := n + n2;
    }
  }

  lemma ThirdArg(m: Machine, vs: seq<string>, e: Expr, dst: u8, k: nat, hi: nat,
                 g2: Gen, h: Gen, st: State, s2: State, env: Env, ws: seq<i64>) returns (n: nat)
    requires e.Clamp? && |ws| == 2 && Eval(m, e.a0, env) == Value(ws[0]) && Eval(m, e.a1, env) == Value(ws[1])
    requires ArgState(st, s2, g2, vs, env, k, hi, ws) && WellFormed(g2) && dst < 16 && k < 6
    requires Faithful(m, e.a2) && k + 3 + Peak(e.a2) <= hi && |vs| + hi <= 15
    requires Expression(e.a2, 13 - k, k + 3, g2).Ok? && Loaded(m, vs, g2, Ok(h))
    requires Emit(Expression(e.a2, 13 - k, k + 3, g2).value, Instr(CallNat, dst, IntrinsicId(e), 15 - k)) == Ok(h)
    ensures Ends(Steps(m, s2, n), st, h, dst, k, hi, None, Eval(m, e, env))
    ensures n <= |h.code| - |g2.code|
    decreases e, 0
  {
    hide Expression, Faithful, Peak, Steps, Step, Holds, Linked, Agree, Touches, Emit;
    var g3 := Expression(e.a2, 13 - k, k + 3, g2).value;
    HoldsPart(m, |g2.code|, h, |g2.code|, g3);
    LinkedPart(m, vs, g3, h);
    n := NextArg(m, vs, e.a2, k, hi, ws, g2, st, s2, env);
    if Eval(m, e.a2, env).Value? {
      var s3 := Steps(m, s2, n).st;
      HoldsPart(m, |g2.code|, h, |g3.code|, h);
      CallRuns(m, vs, e, dst, k, hi, g3, st, s3, ws + [Eval(m, e.a2, env).v]);
      StepsCompose(m, s2, n, 1);
      n := n + 1;
    }
  }
}
