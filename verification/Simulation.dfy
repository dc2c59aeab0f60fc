// Running emitted cells: single cells, composition of runs, and the relation
// between machine registers and source variables.

module Simulation {
  import opened Words
  import opened Isa
  import opened Vm
  import opened Lang
  import opened Codegen

  // ---- runs ----------------------------------------------------------------

  lemma {:induction false} StepsCompose(m: Machine, st: State, a: nat, b: nat)
    requires Valid(st) && Steps(m, st, a).Next?
    ensures Steps(m, st, a + b) == Steps(m, Steps(m, st, a).st, b)
    decreases a
  {
    hide Step;
    if a > 0 {
      StepsCompose(m, Step(m, st).st, a - 1, b);
    }
  }

  lemma StepsNone(m: Machine, st: State)
    requires Valid(st)
    ensures Steps(m, st, 0) == Next(st)
  {
  }

  // ---- emitted code in memory ---------------------------------------------

  /** The machine's code holds g's cells from index lo on. */
  ghost predicate Holds(m: Machine, lo: nat, g: Gen) {
    && 4 * |g.code| <= |m.code|
    && forall i :: lo <= i < |g.code| ==> Fetch(m.code, 4 * i) == g.code[i]
  }

  /** The machine's constants and the final variable table continue g's. */
  ghost predicate Linked(m: Machine, vs: seq<string>, g: Gen) {
    && WellFormed(g)
    && g.pool <= m.constPool
    && g.names <= vs
    && |vs| <= MAX_GPR_VARS
    && (forall i, j :: 0 <= i < j < |vs| ==> vs[i] != vs[j])
  }

  /** g's cells end where the machine is about to read. */
  ghost predicate AtEnd(st: State, g: Gen) {
    Valid(st) && st.ip == 4 * |g.code|
  }

  /** Same machine state except for ip, tick, register dst and the scratch
      registers numbered lo to hi - 1. */
  ghost predicate Touches(st: State, s: State, dst: int, lo: nat, hi: nat) {
    && Valid(st) && Valid(s)
    && s.stack == st.stack && s.mem == st.mem
    && forall r :: 0 <= r < NUM_REGISTERS && r != dst && !(15 - hi < r <= 15 - lo) ==> s.regs[r] == st.regs[r]
  }

  /** Variables live in registers 1, 2, ... in table order. */
  ghost predicate Agree(regs: seq<i64>, vs: seq<string>, env: Env) {
    && |regs| == NUM_REGISTERS && |vs| <= MAX_GPR_VARS
    && forall i :: 0 <= i < |vs| ==> regs[1 + i] == Get(env, vs[i])
  }

  lemma HoldsPart(m: Machine, lo: nat, h: Gen, lo': nat, g: Gen)
    requires Holds(m, lo, h) && g.code <= h.code && lo <= lo'
    ensures Holds(m, lo', g)
  {
  }

  lemma LinkedPart(m: Machine, vs: seq<string>, g: Gen, h: Gen)
    requires Linked(m, vs, h) && WellFormed(g) && Extends(g, h)
    ensures Linked(m, vs, g)
  {
  }

  // ---- single cells --------------------------------------------------------

  /** The cell behind g is executed by one step. */
  lemma RunCell(m: Machine, st: State, g: Gen, h: Gen)
    requires AtEnd(st, g) && |g.code| < |h.code| && Holds(m, |g.code|, h)
    ensures Steps(m, st, 1) == Exec(m, h.code[|g.code|], st.(ip := 4 * |g.code| + 4, tick := st.tick + 1))
  {
    hide Exec;
    var o := Step(m, st);
    assert o == Exec(m, h.code[|g.code|], st.(ip := st.ip + 4, tick := st.tick + 1));
    if o.Next? {
      assert Steps(m, o.st, 0) == o;
    }
  }

  /** st after ticks instructions that end behind h and leave regs. */
  function After(st: State, h: Gen, ticks: nat, regs: seq<i64>): State {
    st.(ip := 4 * |h.code|, tick := st.tick + ticks, regs := regs)
  }

  lemma RunAlu(m: Machine, st: State, g: Gen, f: AluOp, rd: u8, rs1: u8, rs2: u8)
    requires AtEnd(st, g) && WellFormed(g) && rd < 20 && rs1 < 20 && rs2 < 20
    requires Emit(g, Instr(Alu(f), rd, rs1, rs2)).Ok?
    requires Holds(m, |g.code|, Emit(g, Instr(Alu(f), rd, rs1, rs2)).value)
    ensures var h := Emit(g, Instr(Alu(f), rd, rs1, rs2)).value;
            match AluResult(m, f, st.regs[rs1], st.regs[rs2])
            case Value(v) => Steps(m, st, 1) == Next(After(st, h, 1, st.regs[rd := v]))
            case Trap(e) => Steps(m, st, 1).Faulted? && Steps(m, st, 1).fault == e
  {
    hide Step, Steps, AluResult;
    RunCell(m, st, g, Emit(g, Instr(Alu(f), rd, rs1, rs2)).value);
  }

  lemma RunMoveVar(m: Machine, st: State, g: Gen, dst: u8, reg: u8)
    requires AtEnd(st, g) && WellFormed(g) && dst < 20 && reg < 20 && dst != reg
    requires MoveVar(dst, reg, g).Ok?
    requires Holds(m, |g.code|, MoveVar(dst, reg, g).value)
    ensures Steps(m, st, 1) == Next(After(st, MoveVar(dst, reg, g).value, 1, st.regs[dst := st.regs[reg]]))
  {
    hide Step, Steps;
    RunCell(m, st, g, MoveVar(dst, reg, g).value);
  }

  lemma RunConst(m: Machine, vs: seq<string>, st: State, g: Gen, dst: u8, v: i64)
    requires AtEnd(st, g) && WellFormed(g) && dst < 20
    requires EmitConst(g, dst, v).Ok?
    requires Linked(m, vs, EmitConst(g, dst, v).value) && Holds(m, |g.code|, EmitConst(g, dst, v).value)
    ensures Steps(m, st, 1) == Next(After(st, EmitConst(g, dst, v).value, 1, st.regs[dst := v]))
  {
    hide Step, Steps;
    RunCell(m, st, g, EmitConst(g, dst, v).value);
  }

  lemma RunBranch(m: Machine, st: State, g: Gen, h: Gen)
    requires AtEnd(st, g) && |g.code| < |h.code| && Holds(m, |g.code|, h)
    requires h.code[|g.code|].op in {Jmp, Jz} && h.code[|g.code|].rd < 20
    ensures var i := h.code[|g.code|];
            var taken := i.op == Jmp || st.regs[i.rd] == 0;
            Steps(m, st, 1) == Next(st.(ip := if taken then i.Imm() else 4 * |g.code| + 4, tick := st.tick + 1))
  {
    hide Step, Steps;
    RunCell(m, st, g, h);
  }

  lemma RunNative(m: Machine, st: State, g: Gen, dst: u8, id: u8, arg: u8)
    requires AtEnd(st, g) && WellFormed(g) && dst < 20 && arg < 20
    requires Emit(g, Instr(CallNat, dst, id, arg)).Ok?
    requires Holds(m, |g.code|, Emit(g, Instr(CallNat, dst, id, arg)).value)
    ensures var h := Emit(g, Instr(CallNat, dst, id, arg)).value;
            match NativeResult(m, id, arg, st.(ip := 4 * |h.code|, tick := st.tick + 1))
            case Value(v) => Steps(m, st, 1) == Next(After(st, h, 1, st.regs[dst := v]))
            case Trap(e) => Steps(m, st, 1).Faulted? && Steps(m, st, 1).fault == e
  {
    hide Step, Steps, NativeResult;
    RunCell(m, st, g, Emit(g, Instr(CallNat, dst, id, arg)).value);
  }
}
