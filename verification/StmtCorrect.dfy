// The code emitted for a statement does what the statement means, and takes
// no more instructions than the static bound allows.

module StmtCorrect {
  import opened Words
  import opened Isa
  import opened Vm
  import opened Lang
  import opened Stmts
  import opened Codegen
  import opened StmtGen
  import opened Simulation
  import opened ExprCorrect

  predicate SmallLead(e: Expr) {
    LeadNumber(e).Some? && 0 <= LeadNumber(e).value <= 255
  }

  /** How many scratch registers the code for s takes. */
  function PeakOf(s: Stmt): nat {
    match s
    case Skip => 0
    case Seq(s1, s2) => Max(PeakOf(s1), PeakOf(s2))
    case Let(_, _, e) => Peak(e)
    case Assign(_, e) => Peak(e)
    case Update(_, _, e) => if SmallLead(e) then 0 else 1 + Peak(e)
    case Check(e) => Peak(e)
    case Do(e) => Peak(e)
    case If(c, t) => Max(Peak(c), PeakOf(t))
    case IfElse(c, t, e) => Max(Peak(c), Max(PeakOf(t), PeakOf(e)))
    case While(c, b) => Max(Peak(c), PeakOf(b))
    case For(_, _, _, b) => 1 + PeakOf(b)
  }

  /** Whether s may change variable x. */
  predicate Writes(s: Stmt, x: string) {
    match s
    case Let(y, _, _) => x == y
    case Assign(y, _) => x == y
    case Update(y, _, _) => x == y
    case Seq(s1, s2) => Writes(s1, x) || Writes(s2, x)
    case If(_, t) => Writes(t, x)
    case IfElse(_, t, e) => Writes(t, x) || Writes(e, x)
    case While(_, b) => Writes(b, x)
    case For(y, _, _, b) => x == y || Writes(b, x)
    case _ => false
  }

  lemma {:induction false} UnwrittenKept(m: Machine, s: Stmt, x: string, env: Env, fuel: nat, inPlace: bool)
    requires !Writes(s, x) && Meaning(m, s, env, fuel, inPlace).Done?
    ensures Get(Meaning(m, s, env, fuel, inPlace).env, x) == Get(env, x)
    decreases fuel, s, 0
  {
    hide Eval, EvalInto, Wrap;
    match s
    case Seq(s1, s2) =>
      UnwrittenKept(m, s1, x, env, fuel, inPlace);
      UnwrittenKept(m, s2, x, Meaning(m, s1, env, fuel, inPlace).env, fuel, inPlace);
    case If(c, t) =>
      if Eval(m, c, env).v != 0 { UnwrittenKept(m, t, x, env, fuel, inPlace); }
    case IfElse(c, t, e) =>
      UnwrittenKept(m, if Eval(m, c, env).v != 0 then t else e, x, env, fuel, inPlace);
    case While(c, b) =>
      if Eval(m, c, env).v != 0 {
        UnwrittenKept(m, b, x, env, fuel, inPlace);
        UnwrittenKept(m, s, x, Meaning(m, b, env, fuel, inPlace).env, fuel - 1, inPlace);
      }
    case For(y, lo, hi, b) => RoundsKeepUnwritten(m, y, hi, b, x, env[y := lo], fuel, inPlace);
    case _ =>
  }

  lemma {:induction false} RoundsKeepUnwritten(m: Machine, y: string, hi: i64, b: Stmt, x: string,
                                               env: Env, fuel: nat, inPlace: bool)
    requires x != y && !Writes(b, x) && Rounds(m, y, hi, b, env, fuel, inPlace).Done?
    ensures Get(Rounds(m, y, hi, b, env, fuel, inPlace).env, x) == Get(env, x)
    decreases fuel, b, 1
  {
    hide Meaning, Wrap, Writes;
    if Get(env, y) < hi {
      UnwrittenKept(m, b, x, env, fuel, inPlace);
      RoundsKeepUnwritten(m, y, hi, b, x, Bump(y, Meaning(m, b, env, fuel, inPlace).env), fuel - 1, inPlace);
    }
  }

  // ---- static instruction bounds -------------------------------------------

  /** No `while`, and no range loop that writes its own variable. */
  predicate Bounded(s: Stmt) {
    match s
    case Seq(s1, s2) => Bounded(s1) && Bounded(s2)
    case If(_, t) => Bounded(t)
    case IfElse(_, t, e) => Bounded(t) && Bounded(e)
    case While(_, _) => false
    case For(x, _, _, b) => Bounded(b) && !Writes(b, x)
    case _ => true
  }

  /** The generated code, or g where generation fails. */
  function OrElse(r: Result<Gen>, g: Gen): (h: Gen)
    requires WellFormed(g) && Grown(g, r)
    ensures WellFormed(h) && |g.code| <= |h.code|
  {
    if r.Ok? then r.value else g
  }

  /** A bound on the instructions s executes, from the code generated for it:
      a range loop takes four instructions around each round, two to set its
      bounds and two for the final test. */
  function Bound(s: Stmt, k: nat, g: Gen): nat
    requires WellFormed(g) && Bounded(s)
    decreases s, 1
  {
    match s
    case Seq(s1, s2) => Bound(s1, k, g) + Bound(s2, k, OrElse(Statement(s1, k, g), g))
    case If(_, _) => IfBound(s, k, g)
    case IfElse(_, _, _) => IfElseBound(s, k, g)
    case For(_, _, _, _) => RangeBound(s, k, g)
    case _ => |OrElse(Statement(s, k, g), g).code| - |g.code|
  }

  function IfBound(s: Stmt, k: nat, g: Gen): nat
    requires WellFormed(g) && s.If? && Bounded(s)
    decreases s, 0
  {
    var g1 := OrElse(GenTest(s.c, Instr(Jz, 0, 0, 0), k, g), g);
    |g1.code| - |g.code| + Bound(s.thn, k, g1)
  }

  function IfElseBound(s: Stmt, k: nat, g: Gen): nat
    requires WellFormed(g) && s.IfElse? && Bounded(s)
    decreases s, 0
  {
    var g1 := OrElse(GenTest(s.c, Instr(Jz, 0, 0, 0), k, g), g);
    var g2 := OrElse(Statement(s.thn, k, g1), g1);
    |g1.code| - |g.code| + 1 + Max(Bound(s.thn, k, g1), Bound(s.els, k, ElseStart(g, g1, g2)))
  }

  /** The code before the else branch. */
  function ElseStart(g: Gen, g1: Gen, g2: Gen): (h: Gen)
    requires WellFormed(g2)
    ensures WellFormed(h)
  {
    if WellFormed(g) && |g.code| < |g1.code| && Extends(g, g1) && Extends(g1, g2) && OpenElse(g, g1, g2).Ok?
    then OpenElse(g, g1, g2).value else g2
  }

  function RangeBound(s: Stmt, k: nat, g: Gen): nat
    requires WellFormed(g) && Bounded(s) && s.For?
    decreases s, 0
  {
    Times(Iterations(s.lo, s.hi), Bound(s.body, k + 1, OrElse(GenRange(s.x, s.lo, s.hi, k, g), g)) + 4) + 4
  }

  // ---- what a statement's code does ---------------------------------------

  /** Scratch registers below k, handles, frames and static slots are kept. */
  ghost predicate Kept(st: State, s: State, k: nat) {
    && Valid(st) && Valid(s)
    && s.stack == st.stack && s.mem == st.mem
    && forall r :: 0 <= r < NUM_REGISTERS && 15 - k < r ==> s.regs[r] == st.regs[r]
  }

  /** o is where n instructions for a statement that exits by x lead: behind h
      with the new variables, to the same fault, or still running after at
      least as many instructions as there was fuel. */
  ghost predicate Exits(o: Outcome, n: nat, st: State, h: Gen, vs: seq<string>, k: nat, x: Exit, fuel: nat) {
    match x
    case Done(env) => o.Next? && AtEnd(o.st, h) && Kept(st, o.st, k) && Agree(o.st.regs, vs, env)
    case Fail(f) => o.Faulted? && o.fault == f
    case OutOfFuel => o.Next? && n >= fuel
  }

  ghost predicate Prepared(m: Machine, vs: seq<string>, s: Stmt, k: nat, hi: nat, g: Gen, st: State, env: Env) {
    && AtEnd(st, g) && WellFormed(g)
    && FaithfulStmt(m, s)
    && k + PeakOf(s) <= hi && |vs| + hi <= 15
    && Agree(st.regs, vs, env)
  }

  lemma TouchesKept(st: State, s: State, dst: int, k: nat, hi: nat)
    requires Touches(st, s, dst, k, hi) && dst <= 15 - k
    ensures Kept(st, s, k)
  {
  }

  lemma KeptBoth(a: State, b: State, c: State, k: nat)
    requires Kept(a, b, k) && Kept(b, c, k)
    ensures Kept(a, c, k)
  {
  }

  lemma TableIndex(vs: seq<string>, x: string, i: nat)
    requires i < |vs| && vs[i] == x && forall i, j :: 0 <= i < j < |vs| ==> vs[i] != vs[j]
    ensures IndexOf(vs, x) == i
  {
  }

  // ---- assignments ---------------------------------------------------------

  /** `Expression` into the register of variable x. */
  lemma StoreRuns(m: Machine, vs: seq<string>, x: string, e: Expr, k: nat, hi: nat, g: Gen, i: nat, st: State,
                  env: Env, fuel: nat)
    returns (n: nat)
    requires AtEnd(st, g) && WellFormed(g) && Faithful(m, e) && k + Peak(e) <= hi && |vs| + hi <= 15
    requires Agree(st.regs, vs, env) && i < |g.names| && g.names[i] == x
    requires Loaded(m, vs, g, Expression(e, 1 + i, k, g))
    ensures Exits(Steps(m, st, n), n, st, Expression(e, 1 + i, k, g).value, vs, k,
        Store(x, EvalInto(m, e, Some(x), env), env), fuel)
    ensures n <= |Expression(e, 1 + i, k, g).value.code| - |g.code|
  {
    hide Expression, EvalInto, Steps, Holds, Faithful, Peak;
    var h := Expression(e, 1 + i, k, g).value;
    assert vs[i] == x by { assert h.names[i] == x; }
    TableIndex(vs, x, i);
    n := ExpressionRuns(m, vs, e, 1 + i, Some(x), k, hi, g, st, env);
    if EvalInto(m, e, Some(x), env).Value? {
      TouchesKept(st, Steps(m, st, n).st, 1 + i, k, hi);
      AgreeSpoiled(st, Steps(m, st, n).st, 1 + i, k, hi, Some(x), vs, env);
    }
  }

  lemma LetRuns(m: Machine, vs: seq<string>, s: Stmt, k: nat, hi: nat, g: Gen, st: State, env: Env,
                fuel: nat) returns (n: nat)
    requires s.Let? || s.Assign?
    requires Prepared(m, vs, s, k, hi, g, st, env) && Loaded(m, vs, g, Statement(s, k, g))
    ensures Exits(Steps(m, st, n), n, st, Statement(s, k, g).value, vs, k, Meaning(m, s, env, fuel, true), fuel)
    ensures n <= |Statement(s, k, g).value.code| - |g.code|
  {
    hide Expression, EvalInto, Steps, Holds, Faithful, Peak, IndexOf;
    var g1 := (if s.Let? then Declare(g, s.x, s.mutable) else Resolve(g, s.x)).value;
    n := StoreRuns(m, vs, s.x, s.e, k, hi, g1, IndexOf(g.names, s.x), st, env, fuel);
  }

  // ---- expressions in register 0 -------------------------------------------

  /** e runs into register 0 and nothing else changes. */
  lemma CondRuns(m: Machine, vs: seq<string>, e: Expr, k: nat, hi: nat, g: Gen, st: State, env: Env) returns (n: nat)
    requires AtEnd(st, g) && WellFormed(g) && Faithful(m, e) && k + Peak(e) <= hi && |vs| + hi <= 15
    requires Agree(st.regs, vs, env) && Loaded(m, vs, g, Expression(e, 0, k, g))
    ensures var o := Steps(m, st, n);
            match Eval(m, e, env)
            case Trap(f) => o.Faulted? && o.fault == f
            case Value(v) =>
              && o.Next? && AtEnd(o.st, Expression(e, 0, k, g).value)
              && Kept(st, o.st, k) && Agree(o.st.regs, vs, env) && o.st.regs[0] == v
    ensures n <= |Expression(e, 0, k, g).value.code| - |g.code|
  {
    hide Expression, EvalInto, Eval, Steps, Holds, Faithful, Peak, Linked;
    EvalIntoNothing(m, e, env);
    n := ExpressionRuns(m, vs, e, 0, None, k, hi, g, st, env);
    if Eval(m, e, env).Value? {
      TouchesKept(st, Steps(m, st, n).st, 0, k, hi);
      AgreeKept(st, Steps(m, st, n).st, 0, k, hi, vs, env);
    }
  }

  lemma RunAssert(m: Machine, st: State, g: Gen, h: Gen)
    requires AtEnd(st, g) && |g.code| < |h.code| && Holds(m, |g.code|, h) && h.code[|g.code|] == Instr(Assert, 0, 0, 0)
    ensures if st.regs[0] == 0 then Steps(m, st, 1).Faulted? && Steps(m, st, 1).fault == AssertionFailed
            else Steps(m, st, 1) == Next(st.(ip := st.ip + 4, tick := st.tick + 1))
  {
    hide Step, Steps;
    RunCell(m, st, g, h);
  }

  lemma CheckRuns(m: Machine, vs: seq<string>, s: Stmt, k: nat, hi: nat, g: Gen, st: State, env: Env,
                  fuel: nat) returns (n: nat)
    requires s.Check? || s.Do?
    requires Prepared(m, vs, s, k, hi, g, st, env) && Loaded(m, vs, g, Statement(s, k, g))
    ensures Exits(Steps(m, st, n), n, st, Statement(s, k, g).value, vs, k, Meaning(m, s, env, fuel, true), fuel)
    ensures n <= |Statement(s, k, g).value.code| - |g.code|
  {
    hide Expression, Eval, Steps, Holds, Faithful, Peak, Linked, Agree;
    var h := Statement(s, k, g).value;
    var g1 := Expression(s.e, 0, k, g).value;
    HoldsPart(m, |g.code|, h, |g.code|, g1);
    LinkedPart(m, vs, g1, h);
    n := CondRuns(m, vs, s.e, k, hi, g, st, env);
    if s.Check? && Eval(m, s.e, env).Value? {
      HoldsPart(m, |g.code|, h, |g1.code|, h);
      RunAssert(m, Steps(m, st, n).st, g1, h);
      StepsCompose(m, st, n, 1);
      n := n + 1;
    }
  }

  // ---- compound assignment -------------------------------------------------

  lemma RunImmediate(m: Machine, st: State, g: Gen, plus: bool, reg: u8, c: u8)
    requires AtEnd(st, g) && WellFormed(g) && reg < 20
    requires Emit(g, Instr(if plus then AddI else SubI, reg, reg, c)).Ok?
    requires Holds(m, |g.code|, Emit(g, Instr(if plus then AddI else SubI, reg, reg, c)).value)
    ensures var h := Emit(g, Instr(if plus then AddI else SubI, reg, reg, c)).value;
            Steps(m, st, 1) == Next(After(st, h, 1, st.regs[reg := Updated(plus, st.regs[reg], c)]))
  {
    hide Step, Steps, Wrap;
    RunCell(m, st, g, Emit(g, Instr(if plus then AddI else SubI, reg, reg, c)).value);
  }

  /** Variable i receives v and nothing else changes. */
  lemma VariableSet(st: State, s: State, vs: seq<string>, i: nat, v: i64, k: nat, hi: nat, env: Env)
    requires Valid(st) && i < |vs| && |vs| + hi <= 15 && k <= hi && Agree(st.regs, vs, env)
    requires s == st.(ip := s.ip, tick := s.tick, regs := st.regs[1 + i := v])
    requires forall i, j :: 0 <= i < j < |vs| ==> vs[i] != vs[j]
    ensures Kept(st, s, k) && Agree(s.regs, vs, env[vs[i] := v])
  {
  }

  lemma UpdateSmall(m: Machine, vs: seq<string>, s: Stmt, k: nat, hi: nat, g: Gen, g1: Gen, i: nat, st: State,
                    env: Env) returns (n: nat)
    requires s.Update? && AtEnd(st, g1) && WellFormed(g1) && k <= hi && |vs| + hi <= 15 && Agree(st.regs, vs, env)
    requires s.e.Lit? && 0 <= s.e.n <= 255 && i < |g1.names| && g1.names[i] == s.x
    requires Loaded(m, vs, g1, Emit(g1, Instr(if s.plus then AddI else SubI, 1 + i, 1 + i, s.e.n)))
    ensures n == 1
    ensures Exits(Steps(m, st, n), n, st, Emit(g1, Instr(if s.plus then AddI else SubI, 1 + i, 1 + i, s.e.n)).value,
        vs, k,
                  Done(env[s.x := Updated(s.plus, Get(env, s.x), s.e.n)]), 1)
  {
    hide Steps, Holds, Updated;
    var h := Emit(g1, Instr(if s.plus then AddI else SubI, 1 + i, 1 + i, s.e.n)).value;
    assert vs[i] == s.x by { assert h.names[i] == s.x; }
    RunImmediate(m, st, g1, s.plus, 1 + i, s.e.n);
    n := 1;
    VariableSet(st, Steps(m, st, 1).st, vs, i, Updated(s.plus, Get(env, s.x), s.e.n), k, hi, env);
  }

  lemma UpdateLarge(m: Machine, vs: seq<string>, s: Stmt, k: nat, hi: nat, g: Gen, i: nat, st: State,
                    env: Env) returns (n: nat)
    requires s.Update? && AtEnd(st, g) && WellFormed(g) && k + 1 + Peak(s.e) <= hi && |vs| + hi <= 15
        && Agree(st.regs, vs, env)
    requires Faithful(m, s.e) && i < |g.names| && g.names[i] == s.x
    requires Loaded(m, vs, g, UpdateByReg(1 + i, s.plus, s.e, k, g))
    ensures Exits(Steps(m, st, n), n, st, UpdateByReg(1 + i, s.plus, s.e, k, g).value, vs, k,
                  match Eval(m, s.e, env)
                  case Value(v) => Done(env[s.x := Updated(s.plus, Get(env, s.x), v)])
                  case Trap(f) => Fail(f), 1)
    ensures n <= |UpdateByReg(1 + i, s.plus, s.e, k, g).value.code| - |g.code|
  {
    hide Expression, Eval, Steps, Step, Holds, Faithful, Peak, Wrap;
    var h := UpdateByReg(1 + i, s.plus, s.e, k, g).value;
    assert vs[i] == s.x by { assert h.names[i] == s.x; }
    var g1 := Expression(s.e, 15 - k, k + 1, g).value;
    HoldsPart(m, |g.code|, h, |g.code|, g1);
    n := ArgRuns(m, vs, s.e, k, hi, g, st, env);
    if Eval(m, s.e, env).Value? {
      var s1 := Steps(m, st, n).st;
      HoldsPart(m, |g.code|, h, |g1.code|, h);
      RunAlu(m, s1, g1, if s.plus then Add else Sub, 1 + i, 1 + i, 15 - k);
      StepsCompose(m, st, n, 1);
      TouchesKept(st, s1, 15 - k, k, hi);
      VariableSet(s1, Steps(m, s1, 1).st, vs, i, Updated(s.plus, Get(env, s.x), Eval(m, s.e, env).v), k, hi, env);
      n := n + 1;
    }
  }

  lemma UpdateRuns(m: Machine, vs: seq<string>, s: Stmt, k: nat, hi: nat, g: Gen, st: State, env: Env,
                   fuel: nat) returns (n: nat)
    requires s.Update?
    requires Prepared(m, vs, s, k, hi, g, st, env) && Loaded(m, vs, g, Statement(s, k, g))
    ensures Exits(Steps(m, st, n), n, st, Statement(s, k, g).value, vs, k, Meaning(m, s, env, fuel, true), fuel)
    ensures n <= |Statement(s, k, g).value.code| - |g.code|
  {
    hide Steps, Holds, Faithful, Peak, IndexOf, UpdateByReg, Agree, Linked, Updated;
    var g1 := Resolve(g, s.x).value;
    var i := IndexOf(g.names, s.x);
    if SmallLead(s.e) {
      n := UpdateSmall(m, vs, s, k, hi, g, g1, i, st, env);
    } else {
      n := UpdateLarge(m, vs, s, k, hi, g1, i, st, env);
    }
  }

  // ---- branches ------------------------------------------------------------

  /** A test in register 0 and its exit jump: what the jump does once patched.
      g0 is the code up to the jump, h the finished statement. */
  lemma TestAndBranch(m: Machine, vs: seq<string>, c: Expr, k: nat, hi: nat, g: Gen, h: Gen, exit: nat, st: State,
                      env: Env)
    returns (n: nat)
    requires AtEnd(st, g) && WellFormed(g) && Faithful(m, c) && k + Peak(c) <= hi && |vs| + hi <= 15
    requires Agree(st.regs, vs, env) && Loaded(m, vs, g, Expression(c, 0, k, g))
    requires WellFormed(h) && exit <= |h.code| && |Expression(c, 0, k, g).value.code| < |h.code|
    requires Holds(m, |Expression(c, 0, k, g).value.code|, h)
    requires h.code[|Expression(c, 0, k, g).value.code|] == WithImm(Jz, 0, 4 * exit)
    ensures var o := Steps(m, st, n);
            match Eval(m, c, env)
            case Trap(f) => o.Faulted? && o.fault == f
            case Value(v) =>
              && o.Next? && Valid(o.st) && Kept(st, o.st, k) && Agree(o.st.regs, vs, env)
              && o.st.ip == 4 * (if v == 0 then exit else |Expression(c, 0, k, g).value.code| + 1)
    ensures n <= |Expression(c, 0, k, g).value.code| + 1 - |g.code|
    ensures Eval(m, c, env).Value? ==> n >= 1
  {
    hide Expression, Eval, Steps, Step, Holds, Faithful, Peak, Linked, Agree, WithImm;
    var g0 := Expression(c, 0, k, g).value;
    n := CondRuns(m, vs, c, k, hi, g, st, env);
    if Eval(m, c, env).Value? {
      var s0 := Steps(m, st, n).st;
      RunBranch(m, s0, g0, h);
      StepsCompose(m, st, n, 1);
      MovedKept(s0, Steps(m, s0, 1).st, k);
      KeptBoth(st, s0, Steps(m, s0, 1).st, k);
      n := n + 1;
    }
  }

  lemma MovedKept(st: State, s: State, k: nat)
    requires Valid(st) && s == st.(ip := s.ip, tick := s.tick)
    ensures Kept(st, s, k)
  {
  }

  /** Where the parts of a statement that starts with a test lie in memory,
      when only the test's jump is patched. */
  lemma PatchedLayout(m: Machine, vs: seq<string>, g: Gen, g0: Gen, g1: Gen, g2: Gen, h: Gen, target: nat)
    requires WellFormed(g0) && g.code <= g0.code && Emit(g0, Instr(Jz, 0, 0, 0)) == Ok(g1) && Extends(g1, g2)
    requires 4 * target < 0x1_0000 && |g0.code| < |h.code| && g2.code <= h.code[|g0.code| := g1.code[|g0.code|]]
    requires |g2.code| <= |h.code| && h.code[|g0.code|] == WithImm(Jz, 0, 4 * target)
    requires g2.pool <= h.pool && g2.names <= h.names && Linked(m, vs, h) && Holds(m, |g.code|, h)
    ensures Linked(m, vs, g0) && Holds(m, |g.code|, g0)
    ensures Linked(m, vs, g2) && Holds(m, |g1.code|, g2)
    ensures Holds(m, |g0.code|, h)
  {
    hide Fetch, WithImm;
    assert forall i :: 0 <= i < |g2.code| && i != |g0.code| ==> h.code[i] == g2.code[i];
  }

  lemma IfRuns(m: Machine, vs: seq<string>, s: Stmt, k: nat, hi: nat, g: Gen, st: State, env: Env,
               fuel: nat) returns (n: nat)
    requires s.If?
    requires Prepared(m, vs, s, k, hi, g, st, env) && Loaded(m, vs, g, Statement(s, k, g))
    ensures Exits(Steps(m, st, n), n, st, Statement(s, k, g).value, vs, k, Meaning(m, s, env, fuel, true), fuel)
    ensures Bounded(s) ==> n <= Bound(s, k, g)
    decreases fuel, s, 1
  {
    hide Statement, Expression, Eval, Steps, Holds, Faithful, Peak, Linked, Agree, WithImm, Kept;
    IfShape(s, k, g);
    var g0 := Expression(s.c, 0, k, g).value;
    var g1 := GenTest(s.c, Instr(Jz, 0, 0, 0), k, g).value;
    var g2 := Statement(s.thn, k, g1).value;
    var h := Statement(s, k, g).value;
    PatchedLayout(m, vs, g, g0, g1, g2, h, |h.code|);
    n := TestAndBranch(m, vs, s.c, k, hi, g, h, |h.code|, st, env);
    if Eval(m, s.c, env).Value? && Eval(m, s.c, env).v != 0 {
      var s1 := Steps(m, st, n).st;
      var n2 := StmtRuns(m, vs, s.thn, k, hi, g1, s1, env, fuel);
      StepsCompose(m, st, n, n2);
      if Meaning(m, s.thn, env, fuel, true).Done? {
        KeptBoth(st, s1, Steps(m, s1, n2).st, k);
      }
      n := n + n2;
    }
  }

  /** The first branch of an if/else, then the jump over the second. */
  lemma ThenRuns(m: Machine, vs: seq<string>, t: Stmt, k: nat, hi: nat, g1: Gen, h: Gen, st: State, env: Env, fuel: nat)
    returns (n: nat)
    requires Prepared(m, vs, t, k, hi, g1, st, env) && Loaded(m, vs, g1, Statement(t, k, g1)) && WellFormed(h)
    requires var g2 := Statement(t, k, g1).value;
             |g2.code| < |h.code| && Holds(m, |g2.code|, h) && h.code[|g2.code|] == WithImm(Jmp, 0, 4 * |h.code|)
    ensures Exits(Steps(m, st, n), n, st, h, vs, k, Meaning(m, t, env, fuel, true), fuel)
    ensures Bounded(t) ==> n <= Bound(t, k, g1) + 1
    decreases fuel, t, 4
  {
    hide Statement, Steps, Step, Holds, Linked, Agree, WithImm, Kept, Meaning, Bound;
    n := StmtRuns(m, vs, t, k, hi, g1, st, env, fuel);
    if Meaning(m, t, env, fuel, true).Done? {
      var s2 := Steps(m, st, n).st;
      RunBranch(m, s2, Statement(t, k, g1).value, h);
      StepsCompose(m, st, n, 1);
      MovedKept(s2, Steps(m, s2, 1).st, k);
      KeptBoth(st, s2, Steps(m, s2, 1).st, k);
      n := n + 1;
    }
  }

  lemma IfElseRuns(m: Machine, vs: seq<string>, s: Stmt, k: nat, hi: nat, g: Gen, st: State, env: Env,
                   fuel: nat) returns (n: nat)
    requires s.IfElse?
    requires Prepared(m, vs, s, k, hi, g, st, env) && Loaded(m, vs, g, Statement(s, k, g))
    ensures Exits(Steps(m, st, n), n, st, Statement(s, k, g).value, vs, k, Meaning(m, s, env, fuel, true), fuel)
    ensures Bounded(s) ==> n <= Bound(s, k, g)
    decreases fuel, s, 1
  {
    hide Statement, Expression, Eval, Steps, Holds, Faithful, Peak, Linked, Agree, WithImm, Kept, PatchHere;
    IfElseShape(s, k, g);
    var g0 := Expression(s.c, 0, k, g).value;
    var g1 := GenTest(s.c, Instr(Jz, 0, 0, 0), k, g).value;
    var g2 := Statement(s.thn, k, g1).value;
    var g3 := OpenElse(g, g1, g2).value;
    var g4 := Statement(s.els, k, g3).value;
    var h := Statement(s, k, g).value;
    TernLayout(m, vs, Stages(g0, g1, g2, g3, g4), 0, g, h);
    n := TestAndBranch(m, vs, s.c, k, hi, g, h, |g3.code|, st, env);
    if Eval(m, s.c, env).Value? {
      var s1 := Steps(m, st, n).st;
      var n2: nat;
      if Eval(m, s.c, env).v != 0 {
        n2 := ThenRuns(m, vs, s.thn, k, hi, g1, h, s1, env, fuel);
      } else {
        n2 := StmtRuns(m, vs, s.els, k, hi, g3, s1, env, fuel);
      }
      StepsCompose(m, st, n, n2);
      if Meaning(m, s, env, fuel, true).Done? {
        KeptBoth(st, s1, Steps(m, s1, n2).st, k);
      }
      n := n + n2;
    }
  }

  lemma SeqShape(s: Stmt, k: nat, g: Gen)
    requires s.Seq? && WellFormed(g) && Statement(s, k, g).Ok?
    ensures Statement(s.s1, k, g).Ok? && Statement(s, k, g) == Statement(s.s2, k, Statement(s.s1, k, g).value)
    ensures Bounded(s) ==> Bounded(s.s1) && Bounded(s.s2)
                           && Bound(s, k, g) == Bound(s.s1, k, g) + Bound(s.s2, k, Statement(s.s1, k, g).value)
  {
  }

  lemma SeqParts(m: Machine, s: Stmt, k: nat, hi: nat)
    requires s.Seq? && FaithfulStmt(m, s) && k + PeakOf(s) <= hi
    ensures FaithfulStmt(m, s.s1) && FaithfulStmt(m, s.s2) && k + PeakOf(s.s1) <= hi && k + PeakOf(s.s2) <= hi
  {
  }

  lemma SeqRuns(m: Machine, vs: seq<string>, s: Stmt, k: nat, hi: nat, g: Gen, st: State, env: Env,
                fuel: nat) returns (n: nat)
    requires s.Seq?
    requires Prepared(m, vs, s, k, hi, g, st, env) && Loaded(m, vs, g, Statement(s, k, g))
    ensures Exits(Steps(m, st, n), n, st, Statement(s, k, g).value, vs, k, Meaning(m, s, env, fuel, true), fuel)
    ensures Bounded(s) ==> n <= Bound(s, k, g)
    decreases fuel, s, 1
  {
    hide Steps, Holds, Linked, Agree, Kept, Statement, Bound, Bounded, FaithfulStmt, PeakOf;
    SeqShape(s, k, g);
    SeqParts(m, s, k, hi);
    var h := Statement(s, k, g).value;
    var g1 := Statement(s.s1, k, g).value;
    HoldsPart(m, |g.code|, h, |g.code|, g1);
    LinkedPart(m, vs, g1, h);
    n := StmtRuns(m, vs, s.s1, k, hi, g, st, env, fuel);
    if Meaning(m, s.s1, env, fuel, true).Done? {
      var s1 := Steps(m, st, n).st;
      var env1 := Meaning(m, s.s1, env, fuel, true).env;
      HoldsPart(m, |g.code|, h, |g1.code|, h);
      var n2 := StmtRuns(m, vs, s.s2, k, hi, g1, s1, env1, fuel);
      StepsCompose(m, st, n, n2);
      if Meaning(m, s.s2, env1, fuel, true).Done? {
        KeptBoth(st, s1, Steps(m, s1, n2).st, k);
      }
      n := n + n2;
    }
  }

  // ---- while ---------------------------------------------------------------

  /** Where the parts of a `while` lie: its test, its body, and the jump back. */
  lemma WhileLaid(m: Machine, vs: seq<string>, s: Stmt, k: nat, g: Gen, h: Gen)
    requires s.While? && WellFormed(g) && Statement(s, k, g) == Ok(h) && Linked(m, vs, h) && Holds(m, |g.code|, h)
    ensures GenTest(s.c, Instr(Jz, 0, 0, 0), k, g).Ok? && Expression(s.c, 0, k, g).Ok?
    ensures var g0 := Expression(s.c, 0, k, g).value;
            var g1 := GenTest(s.c, Instr(Jz, 0, 0, 0), k, g).value;
            && Emit(g0, Instr(Jz, 0, 0, 0)) == Ok(g1)
            && Statement(s.body, k, g1).Ok?
            && var g2 := Statement(s.body, k, g1).value;
            && Linked(m, vs, g0) && Holds(m, |g.code|, g0) && Linked(m, vs, g2) && Holds(m, |g1.code|, g2)
            && Holds(m, |g0.code|, h) && |g1.code| <= |g2.code| && |g2.code| + 1 == |h.code|
            && h.code[|g0.code|] == WithImm(Jz, 0, 4 * |h.code|) && h.code[|g2.code|] == WithImm(Jmp, 0, 4 * |g.code|)
  {
    hide Statement, Expression, Holds, Linked, WithImm;
    WhileShape(s, k, g);
    var g1 := GenTest(s.c, Instr(Jz, 0, 0, 0), k, g).value;
    PatchedLayout(m, vs, g, Expression(s.c, 0, k, g).value, g1, Statement(s.body, k, g1).value, h, |h.code|);
  }

  /** From the test of a `while`, through any number of rounds. */
  lemma WhileRuns(m: Machine, vs: seq<string>, s: Stmt, k: nat, hi: nat, g: Gen, st: State, env: Env,
                  fuel: nat) returns (n: nat)
    requires s.While?
    requires Prepared(m, vs, s, k, hi, g, st, env) && Loaded(m, vs, g, Statement(s, k, g))
    ensures Exits(Steps(m, st, n), n, st, Statement(s, k, g).value, vs, k, Meaning(m, s, env, fuel, true), fuel)
    decreases fuel, s, 1
  {
    hide Statement, Expression, Eval, Steps, Holds, Faithful, Peak, Linked, Agree, WithImm, Kept, GenTest;
    var h := Statement(s, k, g).value;
    WhileLaid(m, vs, s, k, g, h);
    n := TestAndBranch(m, vs, s.c, k, hi, g, h, |h.code|, st, env);
    if Eval(m, s.c, env).Value? && Eval(m, s.c, env).v != 0 && fuel > 0 {
      var s1 := Steps(m, st, n).st;
      var n2 := RoundRuns(m, vs, s, k, hi, g, h, s1, env, fuel);
      StepsCompose(m, st, n, n2);
      if Meaning(m, s, env, fuel, true).Done? {
        KeptBoth(st, s1, Steps(m, s1, n2).st, k);
      }
      n := n + n2;
    }
  }

  /** The body of a `while`, the jump back, and the rounds that follow. */
  lemma RoundRuns(m: Machine, vs: seq<string>, s: Stmt, k: nat, hi: nat, g: Gen, h: Gen, s1: State, env: Env, fuel: nat)
    returns (n: nat)
    requires s.While? && fuel > 0 && WellFormed(g) && Statement(s, k, g) == Ok(h) && Valid(s1)
        && Agree(s1.regs, vs, env)
    requires FaithfulStmt(m, s) && k + PeakOf(s) <= hi && |vs| + hi <= 15
    requires Linked(m, vs, h) && Holds(m, |g.code|, h)
    requires GenTest(s.c, Instr(Jz, 0, 0, 0), k, g).Ok?
    requires AtEnd(s1, GenTest(s.c, Instr(Jz, 0, 0, 0), k, g).value)
    ensures Exits(Steps(m, s1, n), n, s1, h, vs, k,
                  match Meaning(m, s.body, env, fuel, true)
                  case Done(env1) => Meaning(m, s, env1, fuel - 1, true)
                  case x => x, fuel)
    decreases fuel, s, 0
  {
    hide Statement, Expression, Eval, Steps, Holds, Faithful, Peak, Linked, Agree, WithImm, Kept, Meaning, PeakOf,
        FaithfulStmt, Step, GenTest;
    WhileParts(m, s, k, hi);
    WhileLaid(m, vs, s, k, g, h);
    var g1 := GenTest(s.c, Instr(Jz, 0, 0, 0), k, g).value;
    var g2 := Statement(s.body, k, g1).value;
    n := StmtRuns(m, vs, s.body, k, hi, g1, s1, env, fuel);
    if Meaning(m, s.body, env, fuel, true).Done? {
      var env1 := Meaning(m, s.body, env, fuel, true).env;
      var s2 := Steps(m, s1, n).st;
      HoldsPart(m, |g.code|, h, |g2.code|, h);
      RunBranch(m, s2, g2, h);
      var s3 := Steps(m, s2, 1).st;
      StepsCompose(m, s1, n, 1);
      MovedKept(s2, s3, k);
      KeptBoth(s1, s2, s3, k);
      var n3 := WhileRuns(m, vs, s, k, hi, g, s3, env1, fuel - 1);
      StepsCompose(m, s1, n + 1, n3);
      if Meaning(m, s, env1, fuel - 1, true).Done? {
        KeptBoth(s1, s3, Steps(m, s3, n3).st, k);
      }
      n := n + 1 + n3;
    }
  }

  lemma WhileParts(m: Machine, s: Stmt, k: nat, hi: nat)
    requires s.While? && FaithfulStmt(m, s) && k + PeakOf(s) <= hi
    ensures Faithful(m, s.c) && FaithfulStmt(m, s.body) && k + Peak(s.c) <= hi && k + PeakOf(s.body) <= hi
  {
  }

  // ---- range loops ---------------------------------------------------------

  /** The two bounds are loaded: the variable is lo, scratch register k is hi. */
  lemma RangeSetup(m: Machine, vs: seq<string>, x: string, lo: i64, upper: i64, k: nat, top: nat, g: Gen, h: Gen,
                   st: State, env: Env)
    requires AtEnd(st, g) && WellFormed(g) && |vs| + top <= 15 && k < top && Agree(st.regs, vs, env) && |x| <= MAX_NAME
    requires GenRange(x, lo, upper, k, g).Ok? && Linked(m, vs, GenRange(x, lo, upper, k, g).value)
    requires Holds(m, |g.code|, h) && |GenRange(x, lo, upper, k, g).value.code| <= |h.code|
    requires forall i :: |g.code| <= i < |g.code| + 2 ==> h.code[i] == GenRange(x, lo, upper, k, g).value.code[i]
    ensures k < 8 && Steps(m, st, 2).Next?
    ensures var s := Steps(m, st, 2).st;
            && Valid(s) && s.ip == 4 * (|g.code| + 2) && Kept(st, s, k)
            && s.regs[15 - k] == upper && Agree(s.regs, vs, env[x := lo])
  {
    hide Steps, Step, EmitConst, IndexOf, Fetch;
    var i := IndexOf(g.names, x);
    var ga := Resolve(g, x).value;
    var gb := EmitConst(ga, 1 + i, lo).value;
    var gc := EmitConst(gb, 15 - k, upper).value;
    var g1 := GenRange(x, lo, upper, k, g).value;
    assert g1.code[|g.code|] == gb.code[|g.code|] && g1.code[|gb.code|] == gc.code[|gb.code|];
    assert vs[i] == x by { assert g1.names[i] == x; }
    LinkedPart(m, vs, gb, g1);
    RunConst(m, vs, st, ga, 1 + i, lo);
    var s1 := Steps(m, st, 1).st;
    VariableSet(st, s1, vs, i, lo, k, top, env);
    LinkedPart(m, vs, gc, g1);
    RunConst(m, vs, s1, gb, 15 - k, upper);
    StepsCompose(m, st, 1, 1);
  }

  /** One test of the loop variable against the scratch register. */
  lemma RangeTest(m: Machine, h: Gen, l: nat, reg: u8, tmp: u8, exit: nat, st: State)
    requires Valid(st) && st.ip == 4 * l && l + 2 <= |h.code| && Holds(m, l, h) && reg < 20 && tmp < 20
    requires exit <= |h.code| && WellFormed(h)
    requires h.code[l] == Instr(Alu(Lt), 0, reg, tmp) && h.code[l + 1] == WithImm(Jz, 0, 4 * exit)
    ensures Steps(m, st, 2)
         == Next(st.(ip := if st.regs[reg] < st.regs[tmp] then 4 * (l + 2) else 4 * exit, tick := st.tick + 2,
                     regs := st.regs[0 := Truth(st.regs[reg] < st.regs[tmp])]))
  {
    hide Steps, Step, WithImm;
    var g := h.(code := h.code[..l]);
    var g' := h.(code := h.code[..l + 1]);
    assert g'.code == g.code + [h.code[l]];
    RunAlu(m, st, g, Lt, 0, reg, tmp);
    var s1 := Steps(m, st, 1).st;
    RunBranch(m, s1, g', h);
    StepsCompose(m, st, 1, 1);
  }

  /** The increment and the jump back to the test. */
  lemma RangeStep(m: Machine, h: Gen, l: nat, at: nat, reg: u8, st: State)
    requires Valid(st) && st.ip == 4 * at && at + 2 == |h.code| && l <= at && Holds(m, at, h) && reg < 20
        && WellFormed(h)
    requires h.code[at] == Instr(AddI, reg, reg, 1) && h.code[at + 1] == WithImm(Jmp, 0, 4 * l)
    ensures Steps(m, st, 2)
         == Next(st.(ip := 4 * l, tick := st.tick + 2, regs := st.regs[reg := Updated(true, st.regs[reg], 1)]))
  {
    hide Steps, Step, WithImm, Updated;
    var g := h.(code := h.code[..at]);
    var g' := h.(code := h.code[..at + 1]);
    assert g'.code == g.code + [h.code[at]];
    RunImmediate(m, st, g, true, reg, 1);
    RunBranch(m, Steps(m, st, 1).st, g', h);
    StepsCompose(m, st, 1, 1);
  }

  /** Where the parts of a range loop lie: its test at cell |g1| - 2, its body
      from g1 to g2, its increment and jump at the end of h. */
  ghost predicate RangeLaid(m: Machine, vs: seq<string>, s: Stmt, k: nat, g1: Gen, h: Gen, i: nat)
    requires s.For?
  {
    && WellFormed(g1) && WellFormed(h) && 2 <= |g1.code| && k < 8 && i < |vs| <= MAX_GPR_VARS && vs[i] == s.x
    && Statement(s.body, k + 1, g1).Ok?
    && var g2 := Statement(s.body, k + 1, g1).value;
    && Linked(m, vs, g2) && Holds(m, |g1.code|, g2)
    && |h.code| == |g2.code| + 2 && Holds(m, |g1.code| - 2, h)
    && h.code[|g1.code| - 2] == Instr(Alu(Lt), 0, 1 + i, 15 - k)
    && h.code[|g1.code| - 1] == WithImm(Jz, 0, 4 * |h.code|)
    && h.code[|g2.code|] == Instr(AddI, 1 + i, 1 + i, 1)
    && h.code[|g2.code| + 1] == WithImm(Jmp, 0, 4 * (|g1.code| - 2))
  }

  /** The machine stands before the loop's test with the upper bound in scratch
      register k. */
  ghost predicate AtTest(m: Machine, vs: seq<string>, s: Stmt, k: nat, hi: nat, g1: Gen, st: State, env: Env)
    requires s.For?
  {
    && Valid(st) && st.ip == 4 * (|g1.code| - 2) && k < 8 && st.regs[15 - k] == s.hi && Agree(st.regs, vs, env)
    && FaithfulStmt(m, s.body) && k + 1 + PeakOf(s.body) <= hi && |vs| + hi <= 15
  }

  lemma FewerRounds(x: i64, hi: i64, c: nat)
    requires x < hi
    ensures Updated(true, x, 1) == x + 1
    ensures Times(Iterations(x, hi), c) == c + Times(Iterations(x + 1, hi), c)
  {
    assert Iterations(x, hi) == 1 + Iterations(x + 1, hi);
  }

  /** Cells lo to hi - 1 neither jump, call, return nor halt. */
  ghost predicate Plain(m: Machine, lo: nat, hi: nat) {
    && 4 * hi <= |m.code|
    && forall i :: lo <= i < hi ==> Fetch(m.code, 4 * i).op !in {Jmp, Jz, Jnz, Call, Ret, Halt}
  }

  lemma PlainStep(m: Machine, st: State, lo: nat, hi: nat)
    requires Valid(st) && Plain(m, lo, hi) && st.ip == 4 * lo && lo < hi && Step(m, st).Next?
    ensures Step(m, st).st.ip == 4 * (lo + 1)
  {
  }

  /** Plain code takes one instruction a cell. */
  lemma {:induction false} PlainExact(m: Machine, st: State, lo: nat, hi: nat, n: nat)
    requires Valid(st) && Plain(m, lo, hi) && st.ip == 4 * lo && lo <= hi
    requires Steps(m, st, n).Next? && Steps(m, st, n).st.ip == 4 * hi && n <= hi - lo
    ensures n == hi - lo
    decreases n
  {
    hide Step;
    if n > 0 {
      PlainStep(m, st, lo, hi);
      PlainExact(m, Step(m, st).st, lo + 1, hi, n - 1);
    }
  }

  lemma RoundsRun(m: Machine, vs: seq<string>, s: Stmt, k: nat, hi: nat, g1: Gen, h: Gen, i: nat, st: State,
                  env: Env, fuel: nat)
    returns (n: nat)
    requires s.For? && RangeLaid(m, vs, s, k, g1, h, i) && AtTest(m, vs, s, k, hi, g1, st, env)
    ensures Exits(Steps(m, st, n), n, st, h, vs, k, Rounds(m, s.x, s.hi, s.body, env, fuel, true), fuel)
    ensures Bounded(s) ==>
              n <= Times(Iterations(Get(env, s.x), s.hi), Bound(s.body, k + 1, g1) + 4) + 2
    ensures Bounded(s) && Rounds(m, s.x, s.hi, s.body, env, fuel, true).Done? && Plain(m, |g1.code|, |h.code| - 2)
            && Bound(s.body, k + 1, g1) == |h.code| - 2 - |g1.code| ==>
              n == Times(Iterations(Get(env, s.x), s.hi), |h.code| + 2 - |g1.code|) + 2
    decreases fuel, s.body, 5
  {
    hide Steps, Step, Holds, Linked, WithImm, Statement, Bound, Bounded, FaithfulStmt, PeakOf, Meaning, Times, Plain;
    NoRounds(Get(env, s.x), s.hi, |h.code| + 2 - |g1.code|);
    RangeTest(m, h, |g1.code| - 2, 1 + i, 15 - k, |h.code|, st);
    var s1 := Steps(m, st, 2).st;
    assert Kept(st, s1, k) && Agree(s1.regs, vs, env);
    n := 2;
    if Get(env, s.x) < s.hi && fuel > 0 {
      var n2 := RangeRound(m, vs, s, k, hi, g1, h, i, s1, env, fuel);
      StepsCompose(m, st, 2, n2);
      if Rounds(m, s.x, s.hi, s.body, env, fuel, true).Done? {
        KeptBoth(st, s1, Steps(m, s1, n2).st, k);
      }
      n := 2 + n2;
    }
  }

  /** From the end of the body back to the loop's test. */
  lemma NextTest(m: Machine, vs: seq<string>, s: Stmt, k: nat, hi: nat, g1: Gen, h: Gen, i: nat, s2: State, env: Env)
    requires s.For? && RangeLaid(m, vs, s, k, g1, h, i) && k < hi && |vs| + hi <= 15
    requires AtEnd(s2, Statement(s.body, k + 1, g1).value) && Agree(s2.regs, vs, env)
    ensures Steps(m, s2, 2).Next?
    ensures var s3 := Steps(m, s2, 2).st;
            && Valid(s3) && s3.ip == 4 * (|g1.code| - 2) && s3.regs[15 - k] == s2.regs[15 - k]
            && Kept(s2, s3, k) && Agree(s3.regs, vs, Bump(s.x, env))
  {
    hide Steps, Step, Holds, WithImm, Statement, Updated;
    var g2 := Statement(s.body, k + 1, g1).value;
    HoldsPart(m, |g1.code| - 2, h, |g2.code|, h);
    RangeStep(m, h, |g1.code| - 2, |g2.code|, 1 + i, s2);
    VariableSet(s2, Steps(m, s2, 2).st, vs, i, Updated(true, Get(env, s.x), 1), k, hi, env);
    UpdatedIsBump(s.x, env);
  }

  /** The body, the increment, the jump back, and the rounds that follow. */
  lemma RangeRound(m: Machine, vs: seq<string>, s: Stmt, k: nat, hi: nat, g1: Gen, h: Gen, i: nat, s1: State,
                   env: Env, fuel: nat)
    returns (n: nat)
    requires s.For? && RangeLaid(m, vs, s, k, g1, h, i)
        && AtTest(m, vs, s, k, hi, g1, s1.(ip := 4 * (|g1.code| - 2)), env)
    requires AtEnd(s1, g1) && fuel > 0 && Get(env, s.x) < s.hi
    ensures Exits(Steps(m, s1, n), n, s1, h, vs, k, Rounds(m, s.x, s.hi, s.body, env, fuel, true), fuel)
    ensures Bounded(s) ==>
              n <= Times(Iterations(Get(env, s.x), s.hi), Bound(s.body, k + 1, g1) + 4)
    ensures Bounded(s) && Rounds(m, s.x, s.hi, s.body, env, fuel, true).Done? && Plain(m, |g1.code|, |h.code| - 2)
            && Bound(s.body, k + 1, g1) == |h.code| - 2 - |g1.code| ==>
              n == Times(Iterations(Get(env, s.x), s.hi), |h.code| + 2 - |g1.code|)
    decreases fuel, s.body, 4
  {
    hide Steps, Step, Holds, WithImm, Statement, Bound, FaithfulStmt, PeakOf, Meaning, Times, Updated, Writes, Plain;
    var g2 := Statement(s.body, k + 1, g1).value;
    FewerRounds(Get(env, s.x), s.hi, BodyBound(s, k, g1) + 4);
    n := StmtRuns(m, vs, s.body, k + 1, hi, g1, s1, env, fuel);
    if Meaning(m, s.body, env, fuel, true).Done? {
      var env1 := Meaning(m, s.body, env, fuel, true).env;
      var s2 := Steps(m, s1, n).st;
      if Bounded(s) && Plain(m, |g1.code|, |g2.code|) && Bound(s.body, k + 1, g1) == |g2.code| - |g1.code| {
        PlainExact(m, s1, |g1.code|, |g2.code|, n);
        FewerRounds(Get(env, s.x), s.hi, |h.code| + 2 - |g1.code|);
      }
      NextTest(m, vs, s, k, hi, g1, h, i, s2, env1);
      var s3 := Steps(m, s2, 2).st;
      StepsCompose(m, s1, n, 2);
      assert Kept(s1, s3, k) && s3.regs[15 - k] == s.hi;
      if Bounded(s) { UnwrittenKept(m, s.body, s.x, env, fuel, true); }
      var n3 := RoundsRun(m, vs, s, k, hi, g1, h, i, s3, Bump(s.x, env1), fuel - 1);
      StepsCompose(m, s1, n + 2, n3);
      if Rounds(m, s.x, s.hi, s.body, Bump(s.x, env1), fuel - 1, true).Done? {
        KeptBoth(s1, s3, Steps(m, s3, n3).st, k);
      }
      n := n + 2 + n3;
    }
  }

  lemma NoRounds(x: i64, hi: i64, c: nat)
    ensures x >= hi ==> Times(Iterations(x, hi), c) == 0
  {
  }

  lemma UpdatedIsBump(x: string, env: Env)
    ensures Bump(x, env) == env[x := Updated(true, Get(env, x), 1)]
  {
  }

  /** The bound of a loop's body, where it has one. */
  function BodyBound(s: Stmt, k: nat, g1: Gen): nat
    requires s.For? && WellFormed(g1)
  {
    if Bounded(s) then Bound(s.body, k + 1, g1) else 0
  }

  /** The cells a range loop starts with. */
  lemma RangeHead(x: string, lo: i64, hi: i64, k: nat, g: Gen)
    requires WellFormed(g) && GenRange(x, lo, hi, k, g).Ok?
    ensures k < 8 && IndexOf(g.names, x) < MAX_GPR_VARS
    ensures var g1 := GenRange(x, lo, hi, k, g).value;
            && g1.code[|g1.code| - 2] == Instr(Alu(Lt), 0, 1 + IndexOf(g.names, x), 15 - k)
            && g1.code[|g1.code| - 1] == Instr(Jz, 0, 0, 0)
            && IndexOf(g.names, x) < |g1.names| && (|x| <= MAX_NAME ==> g1.names[IndexOf(g.names, x)] == x)
  {
    hide EmitConst;
  }

  lemma ForLaid(m: Machine, vs: seq<string>, s: Stmt, k: nat, g: Gen, g1: Gen, g2: Gen, h: Gen, i: nat)
    requires s.For? && WellFormed(g) && WellFormed(g1) && WellFormed(h) && k < 8 && i < MAX_GPR_VARS
    requires |g.code| + 4 == |g1.code| && Statement(s.body, k + 1, g1) == Ok(g2)
    requires Ok(h) == CloseRange(g2, 1 + i, |g1.code| - 2)
    requires g1.code[|g1.code| - 2] == Instr(Alu(Lt), 0, 1 + i, 15 - k) && g1.code[|g1.code| - 1] == Instr(Jz, 0, 0, 0)
    requires i < |g1.names| && g1.names[i] == s.x
    requires Linked(m, vs, h) && Holds(m, |g.code|, h)
    ensures RangeLaid(m, vs, s, k, g1, h, i)
    ensures forall j :: |g.code| <= j < |g.code| + 2 ==> h.code[j] == g1.code[j]
    ensures g2.pool == h.pool && g2.names == h.names && Linked(m, vs, g2)
  {
    hide Statement, Fetch, WithImm;
    assert forall j :: 0 <= j < |g2.code| && j != |g1.code| - 1 ==> h.code[j] == g2.code[j];
    assert forall j :: 0 <= j < |g1.code| ==> g2.code[j] == g1.code[j];
  }

  lemma ForParts(m: Machine, s: Stmt, k: nat, hi: nat)
    requires s.For? && FaithfulStmt(m, s) && k + PeakOf(s) <= hi
    ensures FaithfulStmt(m, s.body) && k + 1 + PeakOf(s.body) <= hi && |s.x| <= MAX_NAME
  {
  }

  lemma ForBound(s: Stmt, k: nat, g: Gen)
    requires s.For? && WellFormed(g) && Statement(s, k, g).Ok? && Bounded(s)
    ensures GenRange(s.x, s.lo, s.hi, k, g).Ok? && Bounded(s.body)
    ensures Statement(s.body, k + 1, GenRange(s.x, s.lo, s.hi, k, g).value).Ok?
    ensures Bound(s, k, g)
         == Times(Iterations(s.lo, s.hi), Bound(s.body, k + 1, GenRange(s.x, s.lo, s.hi, k, g).value) + 4) + 4
  {
    hide GenRange, Times, Iterations;
    ForShape(s, k, g);
    assert Bound(s, k, g) == RangeBound(s, k, g);
  }

  /** Statements in a row, without control flow. */
  predicate StraightLine(s: Stmt) {
    match s
    case Seq(s1, s2) => StraightLine(s1) && StraightLine(s2)
    case If(_, _) => false
    case IfElse(_, _, _) => false
    case While(_, _) => false
    case For(_, _, _, _) => false
    case _ => true
  }

  /** Statements in a row are bounded by the number of their cells. */
  lemma {:induction false} StraightBound(s: Stmt, k: nat, g: Gen)
    requires WellFormed(g) && Statement(s, k, g).Ok? && StraightLine(s)
    ensures Bounded(s) && Bound(s, k, g) == |Statement(s, k, g).value.code| - |g.code|
  {
    hide GenLet, GenAssign, GenUpdate, GenTest, Expression;
    match s
    case Seq(s1, s2) =>
      StraightBound(s1, k, g);
      StraightBound(s2, k, Statement(s1, k, g).value);
    case _ =>
  }

  /** The body of range loop s, between its four setup cells and its two
      closing cells, is plain code. */
  ghost predicate PlainBody(m: Machine, s: Stmt, k: nat, g: Gen, h: Gen)
    requires s.For? && WellFormed(g) && Bounded(s.body)
  {
    && |g.code| + 6 <= |h.code| && GenRange(s.x, s.lo, s.hi, k, g).Ok?
    && Plain(m, |g.code| + 4, |h.code| - 2)
    && StraightLine(s.body)
  }

  /** A range loop is laid out and its bounds are loaded. */
  lemma ForStarts(m: Machine, vs: seq<string>, s: Stmt, k: nat, hi: nat, g: Gen, st: State, env: Env)
    requires s.For?
    requires Prepared(m, vs, s, k, hi, g, st, env) && Loaded(m, vs, g, Statement(s, k, g))
    ensures GenRange(s.x, s.lo, s.hi, k, g).Ok? && Steps(m, st, 2).Next?
    ensures var g1, s1 := GenRange(s.x, s.lo, s.hi, k, g).value, Steps(m, st, 2).st;
            && RangeLaid(m, vs, s, k, g1, Statement(s, k, g).value, IndexOf(g.names, s.x))
            && AtTest(m, vs, s, k, hi, g1, s1, env[s.x := s.lo]) && Kept(st, s1, k)
  {
    hide Steps, Step, Holds, WithImm, Statement, FaithfulStmt, PeakOf, GenRange, IndexOf, CloseRange, Iterations, Times;
    ForShape(s, k, g);
    ForParts(m, s, k, hi);
    var g1 := GenRange(s.x, s.lo, s.hi, k, g).value;
    var h := Statement(s, k, g).value;
    RangeHead(s.x, s.lo, s.hi, k, g);
    ForLaid(m, vs, s, k, g, g1, Statement(s.body, k + 1, g1).value, h, IndexOf(g.names, s.x));
    LinkedPart(m, vs, g1, Statement(s.body, k + 1, g1).value);
    RangeSetup(m, vs, s.x, s.lo, s.hi, k, hi, g, h, st, env);
  }

  lemma PlainBound(m: Machine, s: Stmt, k: nat, g: Gen)
    requires s.For? && WellFormed(g) && Bounded(s) && Statement(s, k, g).Ok?
    ensures PlainBody(m, s, k, g, Statement(s, k, g).value) ==>
              Bound(s.body, k + 1, GenRange(s.x, s.lo, s.hi, k, g).value)
              == |Statement(s, k, g).value.code| - 6 - |g.code|
  {
    hide Statement, Bound, GenRange, Plain, Emit, Iterations, Times;
    if StraightLine(s.body) {
      ForShape(s, k, g);
      StraightBound(s.body, k + 1, GenRange(s.x, s.lo, s.hi, k, g).value);
    }
  }

  lemma ForRuns(m: Machine, vs: seq<string>, s: Stmt, k: nat, hi: nat, g: Gen, st: State, env: Env,
                fuel: nat) returns (n: nat)
    requires s.For?
    requires Prepared(m, vs, s, k, hi, g, st, env) && Loaded(m, vs, g, Statement(s, k, g))
    ensures Exits(Steps(m, st, n), n, st, Statement(s, k, g).value, vs, k, Meaning(m, s, env, fuel, true), fuel)
    ensures Bounded(s) ==> n <= Bound(s, k, g)
    ensures Bounded(s) && Meaning(m, s, env, fuel, true).Done? && PlainBody(m, s, k, g, Statement(s, k, g).value) ==>
              n == Times(Iterations(s.lo, s.hi), |Statement(s, k, g).value.code| - 2 - |g.code|) + 4
    decreases fuel, s, 1
  {
    hide Steps, Step, Holds, WithImm, Statement, Bound, FaithfulStmt, PeakOf, Times, Plain, GenRange, IndexOf, Rounds,
        RangeLaid, AtTest, StraightLine, Writes;
    ForStarts(m, vs, s, k, hi, g, st, env);
    var i := IndexOf(g.names, s.x);
    var g1 := GenRange(s.x, s.lo, s.hi, k, g).value;
    var h := Statement(s, k, g).value;
    if Bounded(s) { PlainBound(m, s, k, g); }
    var s1 := Steps(m, st, 2).st;
    var n2 := RoundsRun(m, vs, s, k, hi, g1, h, i, s1, env[s.x := s.lo], fuel);
    StepsCompose(m, st, 2, n2);
    if Meaning(m, s, env, fuel, true).Done? {
      KeptBoth(st, s1, Steps(m, s1, n2).st, k);
    }
    if Bounded(s) { ForBound(s, k, g); }
    n := 2 + n2;
  }

  lemma LeafBound(s: Stmt, k: nat, g: Gen)
    requires WellFormed(g) && Statement(s, k, g).Ok?
    requires s.Skip? || s.Let? || s.Assign? || s.Update? || s.Check? || s.Do?
    ensures Bounded(s) && Bound(s, k, g) == |Statement(s, k, g).value.code| - |g.code|
  {
    hide Statement;
  }

  lemma SkipRuns(m: Machine, vs: seq<string>, s: Stmt, k: nat, hi: nat, g: Gen, st: State, env: Env, fuel: nat)
    requires s.Skip?
    requires Prepared(m, vs, s, k, hi, g, st, env) && Loaded(m, vs, g, Statement(s, k, g))
    ensures Exits(Steps(m, st, 0), 0, st, Statement(s, k, g).value, vs, k, Meaning(m, s, env, fuel, true), fuel)
    ensures Statement(s, k, g) == Ok(g)
  {
    hide Holds, Step;
  }

  /** The code of every statement, run from a state that agrees with the
      variables, ends behind itself in a state that agrees with the meaning,
      or faults as the meaning does, or runs on for as long as there is fuel. */
  lemma StmtRuns(m: Machine, vs: seq<string>, s: Stmt, k: nat, hi: nat, g: Gen, st: State, env: Env,
                 fuel: nat) returns (n: nat)
    requires Prepared(m, vs, s, k, hi, g, st, env) && Loaded(m, vs, g, Statement(s, k, g))
    ensures Exits(Steps(m, st, n), n, st, Statement(s, k, g).value, vs, k, Meaning(m, s, env, fuel, true), fuel)
    ensures Bounded(s) ==> n <= Bound(s, k, g)
    decreases fuel, s, 3
  {
    hide Statement, Steps, Meaning, Holds, Linked, Agree, Kept, FaithfulStmt, PeakOf, Bound, Exits;
    match s
    case Skip => SkipRuns(m, vs, s, k, hi, g, st, env, fuel); n := 0; LeafBound(s, k, g);
    case Let(_, _, _) => n := LetRuns(m, vs, s, k, hi, g, st, env, fuel); LeafBound(s, k, g);
    case Assign(_, _) => n := LetRuns(m, vs, s, k, hi, g, st, env, fuel); LeafBound(s, k, g);
    case Update(_, _, _) => n := UpdateRuns(m, vs, s, k, hi, g, st, env, fuel); LeafBound(s, k, g);
    case Check(_) => n := CheckRuns(m, vs, s, k, hi, g, st, env, fuel); LeafBound(s, k, g);
    case Do(_) => n := CheckRuns(m, vs, s, k, hi, g, st, env, fuel); LeafBound(s, k, g);
    case Seq(_, _) => n := SeqRuns(m, vs, s, k, hi, g, st, env, fuel);
    case If(_, _) => n := IfRuns(m, vs, s, k, hi, g, st, env, fuel);
    case IfElse(_, _, _) => n := IfElseRuns(m, vs, s, k, hi, g, st, env, fuel);
    case While(_, _) => n := WhileRuns(m, vs, s, k, hi, g, st, env, fuel);
    case For(_, _, _, _) => n := ForRuns(m, vs, s, k, hi, g, st, env, fuel);
  }
}
