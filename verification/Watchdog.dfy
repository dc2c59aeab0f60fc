// The compiler's static cost checks against the machine's step limit.

module Watchdog {
  import opened Words
  import opened Isa
  import opened Vm
  import opened Lang
  import opened Stmts
  import opened Codegen
  import opened StmtGen
  import opened Simulation
  import opened ExprCorrect
  import opened StmtCorrect
  import opened ProgramCorrect

  lemma {:induction false} RunReaches(m: Machine, st: State, steps: nat, n: nat)
    requires Valid(st) && Steps(m, st, n).Next? && steps + n <= MAX_VM_STEPS
    ensures Run(m, st, steps) == Run(m, Steps(m, st, n).st, steps + n)
    decreases n
  {
    hide Exec;
    if n > 0 {
      RunReaches(m, Step(m, st).st, steps + 1, n - 1);
    }
  }

  /** A program that stops after n instructions is cut off exactly if n reaches
      the limit. */
  lemma LimitIsExact(m: Machine, st: State, n: nat)
    requires Valid(st) && n > 0 && Steps(m, st, n - 1).Next? && Steps(m, st, n).Halted?
    requires Steps(m, st, n - 1).st.ip + 4 <= |m.code|
    ensures Run(m, st, 0).StepLimit? <==> n >= MAX_VM_STEPS
  {
    hide Steps, Step;
    if n <= MAX_VM_STEPS {
      RunReaches(m, st, 0, n - 1);
      LastStep(m, st, n);
    } else {
      RunningBefore(m, st, n - 1, MAX_VM_STEPS);
      RunReaches(m, st, 0, MAX_VM_STEPS);
    }
  }

  lemma LastStep(m: Machine, st: State, n: nat)
    requires Valid(st) && n > 0 && Steps(m, st, n - 1).Next?
    ensures Step(m, Steps(m, st, n - 1).st) == Steps(m, st, n)
  {
    hide Step;
    StepsCompose(m, st, n - 1, 1);
    var s := Steps(m, st, n - 1).st;
    if Step(m, s).Next? { assert Steps(m, Step(m, s).st, 0) == Step(m, s); }
  }

  /** A run that the limit does not cut off ends as its instructions do. */
  lemma {:induction false} RunEnds(m: Machine, st: State, steps: nat, n: nat)
    requires Valid(st) && !Steps(m, st, n).Next? && steps <= MAX_VM_STEPS
    ensures var v, o := Run(m, st, steps), Steps(m, st, n);
            v.StepLimit? || (o.Halted? && v == Completed(o.st)) || (o.Faulted? && v == Failed(o.fault))
    decreases n
  {
    hide Exec;
    if st.ip + 4 <= |m.code| && steps < MAX_VM_STEPS && Step(m, st).Next? {
      RunEnds(m, Step(m, st).st, steps + 1, n - 1);
    }
  }

  /** The whole machine on a compiled script: it is cut off, or it completes
      with the source values in the registers, or it fails as the source does. */
  lemma RunIsMeaning(m: Machine, s: Stmt)
    requires Compiled(m, s) && Fits(m, s) && AssignsInTime(s)
    ensures var v, x := Run(m, Initial(), 0), Meaning(m, s, map[], MAX_VM_STEPS, false);
            v.StepLimit? || (v.Completed? && x.Done? && Shows(v.st, s, x.env)) || (v.Failed? && x == Fail(v.f))
  {
    hide Steps, Step, Meaning, Compiled, Fits, Run, Shows, AssignsInTime;
    var n := ProgramPreserved(m, s, MAX_VM_STEPS);
    if Meaning(m, s, map[], MAX_VM_STEPS, false).OutOfFuel? {
      RunReaches(m, Initial(), 0, MAX_VM_STEPS);
      AtLimit(m, Steps(m, Initial(), MAX_VM_STEPS).st);
    } else {
      RunEnds(m, Initial(), 0, n);
    }
  }

  lemma AtLimit(m: Machine, st: State)
    requires Valid(st)
    ensures Run(m, st, MAX_VM_STEPS).StepLimit?
  {
  }

  /** A script without `while` and without writes to loop variables terminates
      within its static bound, whatever its data; if that leaves room for the
      HALT below the limit, the watchdog cannot trip. */
  lemma BoundedNeverTrips(m: Machine, s: Stmt)
    requires Compiled(m, s) && Fits(m, s) && Bounded(s)
    ensures !Steps(m, Initial(), Bound(s, 0, Gen([], [], [], [])) + 1).Next?
    ensures Bound(s, 0, Gen([], [], [], [])) + 1 < MAX_VM_STEPS ==> !Run(m, Initial(), 0).StepLimit?
  {
    hide Steps, Step, Meaning, Compiled, Fits, Bound, Run, Bounded, Program, Statement, Shows, Initial;
    var b := Bound(s, 0, Gen([], [], [], []));
    var n := ProgramRuns(m, s, b + 2);
    StoppedStays(m, Initial(), n, b + 1);
    if b + 1 < MAX_VM_STEPS { StoppedInTime(m, Initial(), 0, b + 1); }
  }

  lemma {:induction false} StoppedInTime(m: Machine, st: State, steps: nat, n: nat)
    requires Valid(st) && !Steps(m, st, n).Next? && steps + n < MAX_VM_STEPS
    ensures !Run(m, st, steps).StepLimit?
    decreases n
  {
    hide Exec;
    if n > 0 && Step(m, st).Next? { StoppedInTime(m, Step(m, st).st, steps + 1, n - 1); }
  }

  // ---- the synthesized WCET ------------------------------------------------

  predicate LoopFree(s: Stmt) {
    match s
    case Seq(s1, s2) => LoopFree(s1) && LoopFree(s2)
    case If(_, t) => LoopFree(t)
    case IfElse(_, t, e) => LoopFree(t) && LoopFree(e)
    case While(_, _) => false
    case For(_, _, _, _) => false
    case _ => true
  }

  /** The compiler's estimate: three nanoseconds for every emitted cell. */
  function Wcet(g: Gen): nat {
    3 * |g.code|
  }

  lemma {:induction false} LoopFreeBound(s: Stmt, k: nat, g: Gen)
    requires WellFormed(g) && Statement(s, k, g).Ok? && LoopFree(s)
    ensures Bounded(s) && Bound(s, k, g) <= |Statement(s, k, g).value.code| - |g.code|
    decreases s, 1
  {
    hide Statement, Bound;
    match s
    case Seq(s1, s2) =>
      SeqCompiles(s, k, g);
      LoopFreeBound(s1, k, g);
      LoopFreeBound(s2, k, Statement(s1, k, g).value);
      SeqShape(s, k, g);
    case If(_, _) => IfBoundFits(s, k, g);
    case IfElse(_, _, _) => IfElseBoundFits(s, k, g);
    case _ => LeafBound(s, k, g);
  }

  lemma SeqCompiles(s: Stmt, k: nat, g: Gen)
    requires s.Seq? && WellFormed(g) && Statement(s, k, g).Ok?
    ensures Statement(s.s1, k, g).Ok? && Statement(s, k, g) == Statement(s.s2, k, Statement(s.s1, k, g).value)
  {
  }

  lemma {:induction false} IfBoundFits(s: Stmt, k: nat, g: Gen)
    requires s.If? && WellFormed(g) && Statement(s, k, g).Ok? && LoopFree(s)
    ensures Bounded(s) && Bound(s, k, g) <= |Statement(s, k, g).value.code| - |g.code|
    decreases s, 0
  {
    hide Statement, GenTest;
    IfShape(s, k, g);
    LoopFreeBound(s.thn, k, GenTest(s.c, Instr(Jz, 0, 0, 0), k, g).value);
    assert Bound(s, k, g) == IfBound(s, k, g);
  }

  lemma {:induction false} IfElseBoundFits(s: Stmt, k: nat, g: Gen)
    requires s.IfElse? && WellFormed(g) && Statement(s, k, g).Ok? && LoopFree(s)
    ensures Bounded(s) && Bound(s, k, g) <= |Statement(s, k, g).value.code| - |g.code|
    decreases s, 0
  {
    hide Statement, GenTest, PatchHere, Emit;
    IfElseShape(s, k, g);
    var g1 := GenTest(s.c, Instr(Jz, 0, 0, 0), k, g).value;
    var g2 := Statement(s.thn, k, g1).value;
    LoopFreeBound(s.thn, k, g1);
    LoopFreeBound(s.els, k, OpenElse(g, g1, g2).value);
    assert Bound(s, k, g) == IfElseBound(s, k, g);
  }

  /** A script without loops stops, and the instructions it executed, at three
      nanoseconds each, never exceed the synthesized WCET. */
  lemma WcetCoversRun(m: Machine, s: Stmt) returns (n: nat)
    requires Compiled(m, s) && Fits(m, s) && LoopFree(s)
    ensures !Steps(m, Initial(), n).Next? && 3 * n <= Wcet(Program(s).value)
  {
    hide Steps, Step, Meaning, Statement, Fits, Bound;
    ProgramParts(s);
    LoopFreeBound(s, 0, Gen([], [], [], []));
    n := Bound(s, 0, Gen([], [], [], [])) + 1;
    BoundedNeverTrips(m, s);
  }

  // ---- the per-loop check --------------------------------------------------

  lemma MoreTimes(n: nat, a: nat, b: nat)
    requires a <= b
    ensures Times(n, a) <= Times(n, b)
  {
  }

  lemma LoopCost(s: Stmt, k: nat, g: Gen)
    requires s.For? && LoopFree(s.body) && !Writes(s.body, s.x) && WellFormed(g) && Statement(s, k, g).Ok?
    ensures Bounded(s) && |Statement(s, k, g).value.code| >= |g.code| + 6
    ensures var body := |Statement(s, k, g).value.code| - |g.code| - 6;
            Bound(s, k, g) <= Times(Iterations(s.lo, s.hi), body + 4) + 4 <= MAX_VM_STEPS + 4
  {
    hide Statement, GenRange, Bound, Iterations, Times, Emit;
    ForShape(s, k, g);
    var g1 := GenRange(s.x, s.lo, s.hi, k, g).value;
    var g2 := Statement(s.body, k + 1, g1).value;
    LoopFreeBound(s.body, k + 1, g1);
    ForBound(s, k, g);
    MoreTimes(Iterations(s.lo, s.hi), Bound(s.body, k + 1, g1) + 4, |g2.code| - |g1.code| + 4);
  }

  /** A range loop anywhere in a script, with a body that has no loop of its own
      and does not write the loop's variable, takes no more than body + 4
      instructions a round, and four for its setup and last test. What the
      compiler accepted bounds that by the machine's limit plus four. */
  lemma LoopWithinCheck(m: Machine, vs: seq<string>, s: Stmt, k: nat, hi: nat, g: Gen, st: State, env: Env, fuel: nat)
    returns (n: nat)
    requires s.For? && LoopFree(s.body) && !Writes(s.body, s.x)
    requires Prepared(m, vs, s, k, hi, g, st, env) && Loaded(m, vs, g, Statement(s, k, g))
    ensures var h := Statement(s, k, g).value;
            && Exits(Steps(m, st, n), n, st, h, vs, k, Meaning(m, s, env, fuel, true), fuel)
            && |h.code| >= |g.code| + 6
            && n <= Times(Iterations(s.lo, s.hi), |h.code| - |g.code| - 6 + 4) + 4 <= MAX_VM_STEPS + 4
  {
    hide Statement, Steps, Meaning, Bound, Exits, Iterations, Times, Holds, Linked, PlainBody, Agree, FaithfulStmt,
        PeakOf;
    LoopCost(s, k, g);
    n := ForRuns(m, vs, s, k, hi, g, st, env, fuel);
  }

  /** The number of cells of a range loop's body. */
  ghost function BodyCells(s: Stmt): int
    requires s.For? && Program(s).Ok?
  {
    |Program(s).value.code| - 7
  }

  /** The script is one range loop that does not write its variable, over a
      body without jumps. */
  ghost predicate PlainLoop(m: Machine, s: Stmt)
    requires Program(s).Ok?
  {
    && s.For? && Bounded(s) && BodyCells(s) >= 0
    && Statement(s, 0, Gen([], [], [], [])).Ok?
    && PlainBody(m, s, 0, Gen([], [], [], []), Statement(s, 0, Gen([], [], [], [])).value)
  }

  /** The compiler accepted the loop's rounds times (body + 4). */
  lemma AcceptedCost(m: Machine, s: Stmt)
    requires Compiled(m, s) && s.For? && BodyCells(s) >= 0
    ensures Times(Iterations(s.lo, s.hi), BodyCells(s) + 4) <= MAX_VM_STEPS
  {
    hide Statement, GenRange, CloseRange, Iterations, Times;
    ProgramParts(s);
    ForShape(s, 0, Gen([], [], [], []));
  }

  /** Such a loop takes exactly two instructions to set up, body + 4 a round,
      two for its last test and one to halt. */
  lemma LoopIsExact(m: Machine, s: Stmt, fuel: nat) returns (n: nat)
    requires Compiled(m, s) && Fits(m, s) && PlainLoop(m, s) && Meaning(m, s, map[], fuel, true).Done?
    ensures n == Times(Iterations(s.lo, s.hi), BodyCells(s) + 4) + 5
    ensures Steps(m, Initial(), n - 1).Next? && Steps(m, Initial(), n).Halted?
    ensures Steps(m, Initial(), n - 1).st.ip + 4 == |m.code|
  {
    hide Statement, Steps, Step, Holds, Linked, Meaning, FaithfulStmt, PeakOf, Bound, Iterations, Times, PlainBody;
    ProgramLaid(m, s);
    var g0 := Gen([], [], [], []);
    var g := Statement(s, 0, g0).value;
    var h := Program(s).value;
    assert Agree(Initial().regs, h.names, map[]);
    n := ForRuns(m, h.names, s, 0, PeakOf(s), g0, Initial(), map[], fuel);
    var s1 := Steps(m, Initial(), n).st;
    HoldsPart(m, 0, h, |g.code|, h);
    HaltRuns(m, s1, g, h);
    StepsCompose(m, Initial(), n, 1);
    n := n + 1;
  }

  /** The compiler accepts the loop because rounds times (body + 4) is at most
      10000; the watchdog nevertheless trips exactly if that product plus 5
      reaches 10000. */
  lemma LoopTripsIff(m: Machine, s: Stmt, fuel: nat)
    requires Compiled(m, s) && Fits(m, s) && PlainLoop(m, s) && Meaning(m, s, map[], fuel, true).Done?
    ensures Times(Iterations(s.lo, s.hi), BodyCells(s) + 4) <= MAX_VM_STEPS
    ensures Run(m, Initial(), 0).StepLimit? <==> Times(Iterations(s.lo, s.hi), BodyCells(s) + 4) + 5 >= MAX_VM_STEPS
  {
    hide Steps, Step, Meaning, Compiled, Fits, Run, Times, Iterations, PlainBody;
    AcceptedCost(m, s);
    var n := LoopIsExact(m, s, fuel);
    LimitIsExact(m, Initial(), n);
  }

  // ---- a script that is accepted and cut off ------------------------------

  /** `for x in 0..hi { }` */
  function EmptyLoop(x: string, hi: i64): Stmt {
    For(x, 0, hi, Skip)
  }

  lemma {:induction false} EmptyRounds(m: Machine, x: string, hi: i64, env: Env, fuel: nat)
    requires hi - Get(env, x) <= fuel
    ensures Rounds(m, x, hi, Skip, env, fuel, true).Done?
    decreases fuel
  {
    if Get(env, x) < hi {
      assert Get(Bump(x, env), x) == Get(env, x) + 1;
      EmptyRounds(m, x, hi, Bump(x, env), fuel - 1);
    }
  }

  lemma SmallConstFits(g: Gen, dst: u8, v: i64)
    requires WellFormed(g) && |g.code| < 100 && 0 <= v < 0x1_0000
    ensures EmitConst(g, dst, v).Ok?
  {
  }

  lemma EmptyRangeFits(x: string, lo: i64, hi: i64, k: nat, g: Gen)
    requires WellFormed(g) && |g.code| < 50 && |g.names| < 13 && k < 8
    requires 0 <= lo < 0x1_0000 && 0 <= hi < 0x1_0000
    ensures GenRange(x, lo, hi, k, g).Ok?
    ensures g.names == [] ==> |GenRange(x, lo, hi, k, g).value.names| == 1
  {
    hide EmitConst;
    var g1 := Resolve(g, x).value;
    var reg := VarReg(IndexOf(g.names, x));
    SmallConstFits(g1, reg, lo);
    var g2 := EmitConst(g1, reg, lo).value;
    SmallConstFits(g2, Temp(k), hi);
  }

  lemma CloseFits(g: Gen, reg: u8, start: nat)
    requires WellFormed(g) && |g.code| < 100 && start + 2 <= |g.code|
    ensures CloseRange(g, reg, start).Ok? && |CloseRange(g, reg, start).value.code| == |g.code| + 2
    ensures CloseRange(g, reg, start).value.names == g.names
  {
    hide WithImm;
  }

  /** The compiler accepts empty loops of up to 2500 rounds. */
  lemma EmptyLoopAccepted(x: string, hi: i64, g: Gen)
    requires WellFormed(g) && |g.code| < 50 && |g.names| < 13 && 0 <= hi <= 2500
    ensures Statement(EmptyLoop(x, hi), 0, g).Ok?
    ensures |Statement(EmptyLoop(x, hi), 0, g).value.code| == |g.code| + 6
    ensures g.names == [] ==> |Statement(EmptyLoop(x, hi), 0, g).value.names| == 1
  {
    hide GenRange, CloseRange, IndexOf;
    var s := EmptyLoop(x, hi);
    EmptyRangeFits(x, 0, hi, 0, g);
    var g1 := GenRange(x, 0, hi, 0, g).value;
    assert Statement(Skip, 1, g1) == Ok(g1);
    CloseFits(g1, VarReg(IndexOf(g.names, x)), |g.code| + 2);
    assert Statement(s, 0, g) == GenFor(s, 0, g);
  }

  lemma EmptyProgram(x: string, hi: i64)
    requires 0 <= hi <= 2500
    ensures Program(EmptyLoop(x, hi)).Ok? && |Program(EmptyLoop(x, hi)).value.code| == 7
    ensures Statement(EmptyLoop(x, hi), 0, Gen([], [], [], [])).Ok?
    ensures |Statement(EmptyLoop(x, hi), 0, Gen([], [], [], [])).value.code| == 6
    ensures |Program(EmptyLoop(x, hi)).value.names| == 1
  {
    hide Statement;
    EmptyLoopAccepted(x, hi, Gen([], [], [], []));
  }

  /** `for x in 0..2500 { }` passes the compiler's cost check and is cut off by
      the machine; one with at most 2498 rounds is not. */
  lemma AcceptedButCutOff(m: Machine, x: string, hi: i64)
    requires 0 <= hi <= 2500 && |x| <= MAX_NAME
    ensures Program(EmptyLoop(x, hi)).Ok?
    ensures Compiled(m, EmptyLoop(x, hi)) ==> (Run(m, Initial(), 0).StepLimit? <==> hi >= 2499)
  {
    hide Statement, Program, Run, Meaning, Compiled, Times, Iterations, PlainLoop;
    EmptyProgram(x, hi);
    if Compiled(m, EmptyLoop(x, hi)) {
      EmptyLoopDone(m, x, hi);
      EmptyLoopPlain(m, x, hi);
      EmptyFits(m, x, hi);
      LoopTripsIff(m, EmptyLoop(x, hi), 2500);
      EmptyCost(hi);
    }
  }

  lemma EmptyFits(m: Machine, x: string, hi: i64)
    requires Program(EmptyLoop(x, hi)).Ok? && |Program(EmptyLoop(x, hi)).value.names| == 1 && |x| <= MAX_NAME
    ensures Fits(m, EmptyLoop(x, hi))
  {
    hide Program;
    assert PeakOf(Skip) == 0 && FaithfulStmt(m, Skip);
  }

  lemma EmptyCost(hi: i64)
    requires 0 <= hi <= 2500
    ensures Times(Iterations(0, hi), 4) == 4 * hi
  {
  }

  lemma EmptyLoopDone(m: Machine, x: string, hi: i64)
    requires 0 <= hi <= 2500
    ensures Meaning(m, EmptyLoop(x, hi), map[], 2500, true).Done?
  {
    var env: Env := map[x := 0];
    EmptyRounds(m, x, hi, env, 2500);
  }

  lemma SkipBound(k: nat, g: Gen)
    requires WellFormed(g)
    ensures Bound(Skip, k, g) == 0
  {
  }

  lemma EmptyLoopPlain(m: Machine, x: string, hi: i64)
    requires 0 <= hi <= 2500 && Program(EmptyLoop(x, hi)).Ok? && |Program(EmptyLoop(x, hi)).value.code| == 7
    requires Statement(EmptyLoop(x, hi), 0, Gen([], [], [], [])).Ok? && Compiled(m, EmptyLoop(x, hi))
    requires |Statement(EmptyLoop(x, hi), 0, Gen([], [], [], [])).value.code| == 6
    ensures PlainLoop(m, EmptyLoop(x, hi))
  {
    hide Statement, GenRange, CloseRange, Program, Bound;
    var g0 := Gen([], [], [], []);
    EmptyRangeFits(x, 0, hi, 0, g0);
    SkipBound(1, GenRange(x, 0, hi, 0, g0).value);
    assert Bounded(EmptyLoop(x, hi));
    assert PlainBody(m, EmptyLoop(x, hi), 0, g0, Statement(EmptyLoop(x, hi), 0, g0).value);
  }
}
