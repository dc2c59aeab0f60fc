// One instruction of the px64 register machine as a pure function on its
// state, and whole runs as iterated steps. Wall-clock time and hardware are
// outside: an intrinsic that reads them has the result of `Machine.native`,
// any word or fault.
// The checksum intrinsic is any function, `Machine.crc`, of its seed and word.

module Vm {
  import opened Words
  import opened Isa

  datatype Fault =
    | ConstOutOfBounds | ArrayInvalidId | ArrayOutOfBounds | StructOutOfBounds
    | TableInvalidId | TableOutOfBounds | AssertionFailed | StackOverflow
    | DivByZero | UnwrapFailed | InvalidOpcode
    | IndexPanic  // an unchecked Rust index out of range

  /** What a program runs against and never changes. */
  datatype Machine = Machine(
    code: seq<u8>,
    strPool: seq<u8>,
    constPool: seq<i64>,
    args: seq<seq<u8>>,
    native: (nat, u8, seq<i64>, u8) -> Computed,
    crc: (i64, i64) -> i64)

  datatype CallStack = CallStack(retIps: seq<nat>, frames: seq<seq<i64>>, depth: nat)

  datatype Memory = Memory(
    arraySlots: seq<i64>, arrayLens: seq<nat>, arrayBases: seq<nat>,
    structSlots: seq<i64>, structCounts: seq<nat>, structBases: seq<nat>,
    tableLens: seq<nat>, tableBases: seq<nat>,
    spillSlots: seq<i64>)

  datatype State = State(ip: nat, tick: nat, regs: seq<i64>, stack: CallStack, mem: Memory)

  datatype Outcome = Next(st: State) | Halted(st: State) | Faulted(fault: Fault, st: State)

  ghost predicate ValidStack(s: CallStack) {
    && |s.retIps| == MAX_CALL_DEPTH
    && |s.frames| == MAX_CALL_DEPTH
    && (forall d :: 0 <= d < MAX_CALL_DEPTH ==> |s.frames[d]| == 16)
    && s.depth <= MAX_CALL_DEPTH
  }

  ghost predicate ValidMemory(m: Memory) {
    && |m.arraySlots| == 256 && |m.arrayLens| == 8 && |m.arrayBases| == 8
    && |m.structSlots| == 256 && |m.structCounts| == 8 && |m.structBases| == 8
    && |m.tableLens| == 8 && |m.tableBases| == 8
    && |m.spillSlots| == 32
  }

  ghost predicate Valid(st: State) {
    |st.regs| == NUM_REGISTERS && ValidStack(st.stack) && ValidMemory(st.mem)
  }

  // ---- registers -----------------------------------------------------------

  /** The register's word, or `other` when the index names no register. */
  function RegOr(st: State, r: nat, other: i64): i64
    requires |st.regs| == NUM_REGISTERS
  {
    if r < NUM_REGISTERS then st.regs[r] else other
  }

  function SetReg(st: State, r: nat, v: i64): (s: State)
    requires |st.regs| == NUM_REGISTERS
    ensures |s.regs| == NUM_REGISTERS && s == st.(regs := s.regs)
  {
    if r < NUM_REGISTERS then st.(regs := st.regs[r := v]) else st
  }

  // ---- text words ----------------------------------------------------------

  datatype Text = NoText | Text(bytes: seq<u8>)

  /** The bytes a tagged word stands for. */
  function TextOf(m: Machine, w: i64): Text {
    if Tagged(w, STR_TAG) then
      var offset := Unsigned(w) / 0x1_0000_0000 % 0x100_0000;
      var len := Unsigned(w) % 0x1_0000_0000;
      if offset + len <= |m.strPool| then Text(m.strPool[offset..offset + len]) else NoText
    else if Tagged(w, ARG_TAG) then
      var idx := Unsigned(w) % 256;
      if idx < |m.args| then Text(m.args[idx]) else NoText
    else NoText
  }

  predicate IsTextWord(w: i64) {
    Tagged(w, STR_TAG) || Tagged(w, ARG_TAG)
  }

  predicate SameText(m: Machine, x: i64, y: i64) {
    TextOf(m, x).Text? && TextOf(m, x) == TextOf(m, y)
  }

  /** `==` on words: identical, or two text words with the same bytes. */
  predicate WordsEqual(m: Machine, x: i64, y: i64) {
    x == y || (IsTextWord(x) && IsTextWord(y) && SameText(m, x, y))
  }

  // ---- ALU -----------------------------------------------------------------

  function Truth(b: bool): i64 { if b then 1 else 0 }

  datatype Computed = Value(v: i64) | Trap(f: Fault)

  function AluResult(m: Machine, f: AluOp, x: i64, y: i64): Computed {
    match f
    case Add => Value(Wrap(x + y))
    case Sub => Value(Wrap(x - y))
    case Mul => Value(Wrap(x * y))
    case Div => if y == 0 then Trap(DivByZero) else Value(Wrap(QuotTowardZero(x, y)))
    case Mod => if y == 0 then Trap(DivByZero) else Value(Wrap(RemTowardZero(x, y)))
    case And => Value(Logic(BitAnd, x, y))
    case Or => Value(Logic(BitOr, x, y))
    case Xor => Value(Logic(BitXor, x, y))
    case Shl => Value(Wrap(Unsigned(x) * Pow2(Unsigned(y) % 64)))
    case Shr => Value(Wrap(Unsigned(x) / Pow2(Unsigned(y) % 64)))
    case Eq => Value(Truth(WordsEqual(m, x, y)))
    case Ne => Value(Truth(!WordsEqual(m, x, y)))
    case Lt => Value(Truth(x < y))
    case Le => Value(Truth(x <= y))
    case Gt => Value(Truth(x > y))
    case Ge => Value(Truth(x >= y))
  }

  function ExecAlu(m: Machine, f: AluOp, i: Instr, st: State): (o: Outcome)
    requires Valid(st)
    ensures Valid(o.st)
  {
    if i.rd < NUM_REGISTERS && i.rs1 < NUM_REGISTERS && i.rs2 < NUM_REGISTERS then
      match AluResult(m, f, st.regs[i.rs1], st.regs[i.rs2])
      case Value(v) => Next(SetReg(st, i.rd, v))
      case Trap(e) => Faulted(e, st)
    else Next(st)
  }

  // ---- native calls --------------------------------------------------------

  const NATIVE_TAG_OK: u8 := 10
  const NATIVE_TAG_ERR: u8 := 11
  const NATIVE_IS_OK: u8 := 12
  const NATIVE_IS_ERR: u8 := 13
  const NATIVE_UNWRAP: u8 := 14
  const NATIVE_STREQ: u8 := 15
  const NATIVE_MATH_MIN: u8 := 21
  const NATIVE_MATH_MAX: u8 := 22
  const NATIVE_MATH_ABS: u8 := 23
  const NATIVE_MATH_CLAMP: u8 := 24
  const NATIVE_CRC32: u8 := 27

  function MinWord(x: i64, y: i64): i64 { if x <= y then x else y }

  function MaxWord(x: i64, y: i64): i64 { if x >= y then x else y }

  /** `saturating_abs` */
  function AbsWord(x: i64): i64 {
    if x >= 0 then x else if x == -TWO_63 then TWO_63 - 1 else -x
  }

  /** The intrinsics that compute from registers alone. The second and third
      arguments live in the registers just below the first. */
  function NativeResult(m: Machine, id: u8, arg: u8, st: State): Computed
    requires Valid(st)
  {
    var a := RegOr(st, arg, 0);
    if id == NATIVE_TAG_OK then Value(ClearTag(a, ERR_TAG))
    else if id == NATIVE_TAG_ERR then Value(SetTag(a, ERR_TAG))
    else if id == NATIVE_IS_OK then Value(Truth(!Tagged(a, ERR_TAG)))
    else if id == NATIVE_IS_ERR then Value(Truth(Tagged(a, ERR_TAG)))
    else if id == NATIVE_UNWRAP then (if Tagged(a, ERR_TAG) then Trap(UnwrapFailed) else Value(a))
    else if id == NATIVE_STREQ then Value(0)
    else if id == NATIVE_MATH_ABS then Value(AbsWord(a))
    else if id in {NATIVE_MATH_MIN, NATIVE_MATH_MAX, NATIVE_MATH_CLAMP, NATIVE_CRC32} then
      if arg > NUM_REGISTERS then Trap(IndexPanic)
      else MathResult(m, id, a, if arg > 0 then st.regs[arg - 1] else 0, if arg > 1 then st.regs[arg - 2] else 0)
    else m.native(st.tick, id, st.regs, arg)
  }

  function MathResult(m: Machine, id: u8, a: i64, b: i64, c: i64): Computed {
    if id == NATIVE_CRC32 then Value(m.crc(a, b))
    else if id == NATIVE_MATH_MIN then Value(MinWord(a, b))
    else if id == NATIVE_MATH_MAX then Value(MaxWord(a, b))
    else Value(MinWord(MaxWord(a, b), c))
  }

  function ExecNative(m: Machine, i: Instr, st: State): (o: Outcome)
    requires Valid(st)
    ensures Valid(o.st)
  {
    match NativeResult(m, i.rs1, i.rs2, st)
    case Value(v) => Next(SetReg(st, i.rd, v))
    case Trap(e) => Faulted(e, st)
  }

  // ---- static storage ------------------------------------------------------

  function SumTo(lens: seq<nat>, n: nat): nat
    requires n <= |lens|
  {
    if n == 0 then 0 else SumTo(lens, n - 1) + lens[n - 1]
  }

  function ZeroFill(slots: seq<i64>, base: nat, len: nat): (r: seq<i64>)
    requires base + len <= |slots|
    ensures |r| == |slots|
    ensures forall j :: 0 <= j < |r| ==> r[j] == if base <= j < base + len then 0 else slots[j]
  {
    slots[..base] + seq(len, _ => 0) + slots[base + len..]
  }

  function DefineArray(mem: Memory, id: nat, len: nat): (r: Memory)
    requires ValidMemory(mem) && len < 0x1_0000
    ensures ValidMemory(r)
  {
    if id >= 8 then mem
    else
      var base := SumTo(mem.arrayLens[id := len], id);
      mem.(arrayLens := mem.arrayLens[id := len],
           arrayBases := mem.arrayBases[id := base % 0x1_0000],
           arraySlots := if base + len <= 256 then ZeroFill(mem.arraySlots, base, len) else mem.arraySlots)
  }

  function DefineStruct(mem: Memory, id: nat, count: u8): (r: Memory)
    requires ValidMemory(mem)
    ensures ValidMemory(r)
  {
    if id >= 8 then mem
    else
      var counts := mem.structCounts[id := count];
      mem.(structCounts := counts, structBases := mem.structBases[id := SumTo(counts, id) % 0x1_0000])
  }

  datatype Located = At(index: nat) | Bad(f: Fault)

  function LocateArray(mem: Memory, id: nat, idx: i64): (l: Located)
    requires ValidMemory(mem)
    ensures l.At? ==> l.index < 256
  {
    if id >= 8 then Bad(ArrayInvalidId)
    else if idx < 0 || idx >= mem.arrayLens[id] then Bad(ArrayOutOfBounds)
    else if mem.arrayBases[id] + idx >= 256 then Bad(IndexPanic)
    else At(mem.arrayBases[id] + idx)
  }

  function LocateStruct(mem: Memory, id: nat, offset: u8): (l: Located)
    requires ValidMemory(mem)
    ensures l.At? ==> l.index < 256
  {
    if id >= 8 || offset >= mem.structCounts[id] then Bad(StructOutOfBounds)
    else if mem.structBases[id] + offset >= 256 then Bad(IndexPanic)
    else At(mem.structBases[id] + offset)
  }

  function LocateTable(m: Machine, mem: Memory, id: nat, idx: i64): (l: Located)
    requires ValidMemory(mem)
    ensures l.At? ==> l.index < |m.constPool|
  {
    if id >= 8 then Bad(TableInvalidId)
    else if idx < 0 || idx >= mem.tableLens[id] then Bad(TableOutOfBounds)
    else if mem.tableBases[id] + idx >= |m.constPool| then Bad(IndexPanic)
    else At(mem.tableBases[id] + idx)
  }

  function LoadInto(st: State, rd: u8, slots: seq<i64>, l: Located): (o: Outcome)
    requires Valid(st) && (l.At? ==> l.index < |slots|)
    ensures Valid(o.st)
  {
    match l
    case At(a) => Next(SetReg(st, rd, slots[a]))
    case Bad(f) => Faulted(f, st)
  }

  function ExecArray(i: Instr, st: State): (o: Outcome)
    requires Valid(st)
    ensures Valid(o.st)
  {
    match i.op
    case ArrLoad => LoadInto(st, i.rd, st.mem.arraySlots, LocateArray(st.mem, i.rs1, RegOr(st, i.rs2, -1)))
    case ArrStore =>
      (match LocateArray(st.mem, i.rd, RegOr(st, i.rs1, -1))
       case At(a) => Next(st.(mem := st.mem.(arraySlots := st.mem.arraySlots[a := RegOr(st, i.rs2, 0)])))
       case Bad(f) => Faulted(f, st))
    case _ => Next(st.(mem := DefineArray(st.mem, i.rd, i.Imm())))
  }

  function ExecStruct(i: Instr, st: State): (o: Outcome)
    requires Valid(st)
    ensures Valid(o.st)
  {
    match i.op
    case StructLoad => LoadInto(st, i.rd, st.mem.structSlots, LocateStruct(st.mem, i.rs1, i.rs2))
    case StructStore =>
      (match LocateStruct(st.mem, i.rd, i.rs1)
       case At(a) => Next(st.(mem := st.mem.(structSlots := st.mem.structSlots[a := RegOr(st, i.rs2, 0)])))
       case Bad(f) => Faulted(f, st))
    case _ => Next(st.(mem := DefineStruct(st.mem, i.rd, i.rs1)))
  }

  function ExecTable(m: Machine, i: Instr, st: State): (o: Outcome)
    requires Valid(st)
    ensures Valid(o.st)
  {
    if i.op == TblLoad then
      LoadInto(st, i.rd, m.constPool, LocateTable(m, st.mem, i.rs1, RegOr(st, i.rs2, -1)))
    else if i.rd >= 8 then Next(st)
    else Next(st.(mem := st.mem.(tableBases := st.mem.tableBases[i.rd := i.rs1],
                                 tableLens := st.mem.tableLens[i.rd := i.rs2])))
  }

  function ExecSpill(i: Instr, st: State): (o: Outcome)
    requires Valid(st)
    ensures Valid(o.st)
  {
    if i.op == SpillLoad then
      Next(SetReg(st, i.rd, if i.rs1 < 32 then st.mem.spillSlots[i.rs1] else 0))
    else if i.rd >= 32 then Next(st)
    else Next(st.(mem := st.mem.(spillSlots := st.mem.spillSlots[i.rd := RegOr(st, i.rs1, 0)])))
  }

  // ---- calls ---------------------------------------------------------------

  function ExecCall(i: Instr, st: State): (o: Outcome)
    requires Valid(st)
    ensures Valid(o.st)
  {
    var s := st.stack;
    if s.depth >= MAX_CALL_DEPTH then Faulted(StackOverflow, st)
    else
      Next(st.(ip := i.Imm(),
               stack := CallStack(s.retIps[s.depth := st.ip % 0x1_0000],
                                  s.frames[s.depth := st.regs[..16]],
                                  s.depth + 1)))
  }

  function ExecRet(st: State): (o: Outcome)
    requires Valid(st)
    ensures Valid(o.st)
  {
    var s := st.stack;
    if s.depth == 0 then Halted(st)
    else
      Next(st.(ip := s.retIps[s.depth - 1],
               regs := (s.frames[s.depth - 1] + st.regs[16..])[0 := st.regs[0]],
               stack := s.(depth := s.depth - 1)))
  }

  // ---- one instruction, one step, many steps ------------------------------

  function ExecMove(m: Machine, i: Instr, st: State): (o: Outcome)
    requires Valid(st)
    ensures Valid(o.st)
  {
    match i.op
    case MovImm => Next(SetReg(st, i.rd, i.Imm()))
    case MovReg => Next(if i.rs1 < NUM_REGISTERS then SetReg(st, i.rd, st.regs[i.rs1]) else st)
    case MovStr => Next(SetReg(st, i.rd, STR_TAG + i.rs1 * 0x1_0000_0000 + i.rs2))
    case Ldc =>
      if i.Imm() >= |m.constPool| then Faulted(ConstOutOfBounds, st)
      else Next(SetReg(st, i.rd, m.constPool[i.Imm()]))
    case AddI =>
      Next(if i.rs1 < NUM_REGISTERS then SetReg(st, i.rd, Wrap(st.regs[i.rs1] + i.rs2)) else st)
    case _ =>
      Next(if i.rs1 < NUM_REGISTERS then SetReg(st, i.rd, Wrap(st.regs[i.rs1] - i.rs2)) else st)
  }

  function ExecStrEq(m: Machine, i: Instr, st: State): (o: Outcome)
    requires Valid(st)
    ensures Valid(o.st)
  {
    if i.rd < NUM_REGISTERS && i.rs1 < NUM_REGISTERS && i.rs2 < NUM_REGISTERS then
      var x, y := st.regs[i.rs1], st.regs[i.rs2];
      Next(SetReg(st, i.rd, Truth(x == y || SameText(m, x, y))))
    else Next(st)
  }

  function ExecBranch(i: Instr, st: State): (o: Outcome)
    requires Valid(st)
    ensures Valid(o.st)
  {
    match i.op
    case Jz => Next(if i.rd < NUM_REGISTERS && st.regs[i.rd] == 0 then st.(ip := i.Imm()) else st)
    case Jnz => Next(if i.rd < NUM_REGISTERS && st.regs[i.rd] != 0 then st.(ip := i.Imm()) else st)
    case _ => Next(st.(ip := i.Imm()))
  }

  /** Executes `i` in a state whose ip already points past it. */
  function Exec(m: Machine, i: Instr, st: State): (o: Outcome)
    requires Valid(st)
    ensures Valid(o.st)
  {
    match i.op
    case Alu(f) => ExecAlu(m, f, i, st)
    case MovImm | MovReg | MovStr | Ldc | AddI | SubI => ExecMove(m, i, st)
    case Jmp | Jz | Jnz => ExecBranch(i, st)
    case Assert => if RegOr(st, i.rd, 0) == 0 then Faulted(AssertionFailed, st) else Next(st)
    case Call => ExecCall(i, st)
    case Ret => ExecRet(st)
    case CallNat => ExecNative(m, i, st)
    case StrEq => ExecStrEq(m, i, st)
    case ArrDef | ArrLoad | ArrStore => ExecArray(i, st)
    case StructDef | StructLoad | StructStore => ExecStruct(i, st)
    case TblDef | TblLoad => ExecTable(m, i, st)
    case SpillStore | SpillLoad => ExecSpill(i, st)
    case Nop | WithinStart | WithinEnd | Drop => Next(st)
    case Halt => Halted(st)
    case Invalid => Faulted(InvalidOpcode, st)
  }

  function Step(m: Machine, st: State): (o: Outcome)
    requires Valid(st)
    ensures Valid(o.st)
  {
    if st.ip + 4 > |m.code| then Halted(st)
    else Exec(m, Fetch(m.code, st.ip), st.(ip := st.ip + 4, tick := st.tick + 1))
  }

  /** The first n instructions from st, stopping early at a halt or a fault. */
  function Steps(m: Machine, st: State, n: nat): (o: Outcome)
    requires Valid(st)
    ensures Valid(o.st)
    decreases n
  {
    if n == 0 then Next(st)
    else
      match Step(m, st)
      case Next(s) => Steps(m, s, n - 1)
      case o => o
  }

  // ---- a whole run under the step watchdog --------------------------------

  datatype Verdict = Completed(st: State) | Failed(f: Fault) | StepLimit

  function Finish(st: State, steps: nat): Verdict {
    if steps >= MAX_VM_STEPS then StepLimit else Completed(st)
  }

  /** The run loop after `steps` instructions. The limit is tested before each
      instruction and once more after the last. */
  function Run(m: Machine, st: State, steps: nat): Verdict
    requires Valid(st) && steps <= MAX_VM_STEPS
    decreases MAX_VM_STEPS - steps
  {
    if st.ip + 4 > |m.code| then Finish(st, steps)
    else if steps >= MAX_VM_STEPS then StepLimit
    else
      match Step(m, st)
      case Next(s) => Run(m, s, steps + 1)
      case Halted(s) => Finish(s, steps + 1)
      case Faulted(f, _) => Failed(f)
  }

  function Zeros(n: nat): (z: seq<i64>)
    ensures |z| == n && forall i :: 0 <= i < n ==> z[i] == 0
  {
    seq(n, _ => 0)
  }

  function NatZeros(n: nat): (z: seq<nat>)
    ensures |z| == n && forall i :: 0 <= i < n ==> z[i] == 0
  {
    seq(n, _ => 0)
  }

  function NoFrames(): (f: seq<seq<i64>>)
    ensures |f| == MAX_CALL_DEPTH && forall d :: 0 <= d < MAX_CALL_DEPTH ==> f[d] == Zeros(16)
  {
    seq(MAX_CALL_DEPTH, _ => Zeros(16))
  }

  /** The machine as it is created. */
  function Initial(): (st: State)
    ensures Valid(st)
  {
    State(0, 0, Zeros(NUM_REGISTERS),
          CallStack(NatZeros(MAX_CALL_DEPTH), NoFrames(), 0),
          Memory(Zeros(256), NatZeros(8), NatZeros(8), Zeros(256), NatZeros(8), NatZeros(8),
                 NatZeros(8), NatZeros(8), Zeros(32)))
  }
}
