// Whole scripts: the compiled program against the source meaning, with and
// without the machine's step watchdog.

module ProgramCorrect {
  import opened Words
  import opened Isa
  import opened Vm
  import opened Lang
  import opened Stmts
  import opened Codegen
  import opened StmtGen
  import opened Simulation
  import opened ExprCorrect
  import opened StmtCorrect
  import opened Tidy

  /** The machine m runs the program compiled from s. */
  ghost predicate Compiled(m: Machine, s: Stmt) {
    && Program(s).Ok?
    && |m.code| == 4 * |Program(s).value.code|
    && Cells(m.code) == Program(s).value.code
    && m.constPool == Program(s).value.pool
  }

  /** Registers for all variables next to those for all scratch values, no
      name longer than the table holds, and no two different texts folded as
      constants. */
  ghost predicate Fits(m: Machine, s: Stmt)
    requires Program(s).Ok?
  {
    |Program(s).value.names| + PeakOf(s) <= 15 && FaithfulStmt(m, s)
  }

  /** Variables of the program have their source values in the registers. */
  ghost predicate Shows(st: State, s: Stmt, env: Env)
    requires Program(s).Ok?
  {
    Valid(st) && Agree(st.regs, Program(s).value.names, env)
  }

  // ---- instruction boundaries ----------------------------------------------

  /** ip stands on a cell of the code or at its end. */
  ghost predicate OnCell(m: Machine, st: State) {
    st.ip % 4 == 0 && st.ip <= |m.code|
  }

  lemma StepStaysOnCells(m: Machine, s: Stmt, st: State)
    requires Compiled(m, s) && Valid(st) && OnCell(m, st)
    ensures OnCell(m, Step(m, st).st)
  {
    hide Program, Exec, TidyCell, Fetch;
    ProgramTidy(s);
    if st.ip + 4 <= |m.code| {
      var i := st.ip / 4;
      assert Fetch(m.code, st.ip) == Cells(m.code)[i] == Program(s).value.code[i];
      CellStays(m, Fetch(m.code, st.ip), st.(ip := st.ip + 4, tick := st.tick + 1), |Program(s).value.code|);
    }
  }

  lemma CellStays(m: Machine, i: Instr, st: State, len: nat)
    requires Valid(st) && OnCell(m, st) && TidyCell(i, len) && |m.code| == 4 * len
    ensures OnCell(m, Exec(m, i, st).st)
  {
    hide AluResult, MathResult, AbsWord, SetTag, ClearTag, Tagged, LocateArray, LocateStruct, LocateTable,
        DefineArray, DefineStruct;
  }

  /** However long a compiled program runs, the machine only ever decodes at
      the start of an emitted cell. */
  lemma {:induction false} AlwaysOnCells(m: Machine, s: Stmt, st: State, n: nat)
    requires Compiled(m, s) && Valid(st) && OnCell(m, st)
    ensures OnCell(m, Steps(m, st, n).st)
    decreases n
  {
    hide Step, Program, Compiled;
    if n > 0 {
      StepStaysOnCells(m, s, st);
      if Step(m, st).Next? { AlwaysOnCells(m, s, Step(m, st).st, n - 1); }
    }
  }

  // ---- the compiled script against its meaning ----------------------------

  lemma HaltRuns(m: Machine, st: State, g: Gen, h: Gen)
    requires AtEnd(st, g) && |g.code| < |h.code| && Holds(m, |g.code|, h) && h.code[|g.code|] == Instr(Halt, 0, 0, 0)
    ensures Steps(m, st, 1).Halted? && Steps(m, st, 1).st.regs == st.regs
  {
    hide Step, Steps;
    RunCell(m, st, g, h);
  }

  lemma {:induction false} RunningBefore(m: Machine, st: State, n: nat, k: nat)
    requires Valid(st) && k <= n && Steps(m, st, n).Next?
    ensures Steps(m, st, k).Next?
    decreases k
  {
    hide Step;
    if k > 0 { RunningBefore(m, Step(m, st).st, n - 1, k - 1); }
  }

  lemma {:induction false} StoppedStays(m: Machine, st: State, n: nat, k: nat)
    requires Valid(st) && n <= k && !Steps(m, st, n).Next?
    ensures Steps(m, st, k) == Steps(m, st, n)
    decreases n
  {
    hide Step;
    if n > 0 && Step(m, st).Next? { StoppedStays(m, Step(m, st).st, n - 1, k - 1); }
  }

  /** A compiled script is its statements and a HALT. */
  lemma ProgramParts(s: Stmt)
    requires Program(s).Ok?
    ensures Statement(s, 0, Gen([], [], [], [])).Ok?
    ensures Emit(Statement(s, 0, Gen([], [], [], [])).value, Instr(Halt, 0, 0, 0)) == Program(s)
  {
    hide Statement;
  }

  /** Where the code of a compiled script lies. */
  lemma ProgramLaid(m: Machine, s: Stmt)
    requires Compiled(m, s) && FaithfulStmt(m, s)
    ensures Statement(s, 0, Gen([], [], [], [])).Ok?
    ensures var g := Statement(s, 0, Gen([], [], [], [])).value;
            var h := Program(s).value;
            && Emit(g, Instr(Halt, 0, 0, 0)) == Ok(h) && WellFormed(h) && Extends(g, h)
            && Linked(m, h.names, g) && Holds(m, 0, h) && Holds(m, 0, g)
  {
    hide Statement, Fetch, FaithfulStmt;
    ProgramDistinct(m, s);
    var h := Program(s).value;
    assert forall i :: 0 <= i < |h.code| ==> Fetch(m.code, 4 * i) == Cells(m.code)[i];
  }

  /** The machine started on a compiled script halts with the source values in
      the registers, or stops with the source's fault, or is still running
      after as many instructions as there was fuel. */
  lemma ProgramRuns(m: Machine, s: Stmt, fuel: nat) returns (n: nat)
    requires Compiled(m, s) && Fits(m, s)
    ensures var o := Steps(m, Initial(), n);
            match Meaning(m, s, map[], fuel, true)
            case Done(env) => o.Halted? && Shows(o.st, s, env)
            case Fail(f) => o.Faulted? && o.fault == f
            case OutOfFuel => o.Next? && n >= fuel
    ensures Bounded(s) ==> n <= Bound(s, 0, Gen([], [], [], [])) + 1
  {
    hide Program, Statement, Steps, Step, Holds, Linked, Meaning, FaithfulStmt, PeakOf, Bound;
    ProgramLaid(m, s);
    var g0 := Gen([], [], [], []);
    var g := Statement(s, 0, g0).value;
    var h := Program(s).value;
    assert Agree(Initial().regs, h.names, map[]);
    n := StmtRuns(m, h.names, s, 0, PeakOf(s), g0, Initial(), map[], fuel);
    if Meaning(m, s, map[], fuel, true).Done? {
      var s1 := Steps(m, Initial(), n).st;
      HoldsPart(m, 0, h, |g.code|, h);
      HaltRuns(m, s1, g, h);
      StepsCompose(m, Initial(), n, 1);
      n := n + 1;
    }
  }

  /** Semantic preservation: for scripts whose assignments read their target
      in time, against the plain source meaning. */
  lemma ProgramPreserved(m: Machine, s: Stmt, fuel: nat) returns (n: nat)
    requires Compiled(m, s) && Fits(m, s) && AssignsInTime(s)
    ensures match Meaning(m, s, map[], fuel, false)
            case Done(env) => Steps(m, Initial(), n).Halted? && Shows(Steps(m, Initial(), n).st, s, env)
            case Fail(f) => Steps(m, Initial(), n).Faulted? && Steps(m, Initial(), n).fault == f
            case OutOfFuel => Steps(m, Initial(), fuel).Next?
  {
    hide Program, Steps, Meaning, Compiled, Fits, Shows;
    InPlaceIsSource(m, s, map[], fuel);
    n := ProgramRuns(m, s, fuel);
    if Meaning(m, s, map[], fuel, false).OutOfFuel? { RunningBefore(m, Initial(), n, fuel); }
  }

  /** The machine stops on a compiled script exactly if the source terminates. */
  lemma StopsIffTerminates(m: Machine, s: Stmt)
    requires Compiled(m, s) && Fits(m, s) && AssignsInTime(s)
    ensures (exists n: nat :: !Steps(m, Initial(), n).Next?)
       <==> (exists fuel: nat :: !Meaning(m, s, map[], fuel, false).OutOfFuel?)
  {
    hide Program, Steps, Meaning, Compiled, Fits, Shows;
    if n: nat :| !Steps(m, Initial(), n).Next? {
      var _ := ProgramPreserved(m, s, n);
      assert !Meaning(m, s, map[], n, false).OutOfFuel?;
    }
    if fuel: nat :| !Meaning(m, s, map[], fuel, false).OutOfFuel? {
      var n := ProgramPreserved(m, s, fuel);
      assert !Steps(m, Initial(), n).Next?;
    }
  }
}
