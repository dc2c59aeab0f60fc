// The virtual machine object: register file, call stack and static storage in
// fixed buffers that instructions change in place. The ghost field `st` is
// its value, and every method is proved against the instruction semantics of
// module Vm.

module Px64 {
  import opened Words
  import opened Isa
  import opened Vm

  /** How the run loop goes on after an instruction. */
  datatype Signal = Continue | Stop | Raise(fault: Fault)

  datatype Ending = Normal | Error(fault: Fault) | LimitExceeded

  /** Signal and new state are the outcome the semantics demands. */
  ghost predicate Did(o: Outcome, sig: Signal, s1: State) {
    match o
    case Next(s) => sig == Continue && s1 == s
    case Halted(s) => sig == Stop && s1 == s
    case Faulted(f, s) => sig == Raise(f) && s1 == s
  }

  class PX64VM {
    const m: Machine
    var ip: nat
    var tick: nat
    const regs: array<i64>
    const callStack: array<nat>
    const frameStack: array<seq<i64>>
    var callSp: nat
    const arraySlots: array<i64>
    const arrayLens: array<nat>
    const arrayBases: array<nat>
    const structSlots: array<i64>
    const structFieldCounts: array<nat>
    const structBases: array<nat>
    const tableLens: array<nat>
    const tableBases: array<nat>
    const spillSlots: array<i64>
    ghost var st: State

    ghost const repr: set<object>

    /** No two buffers are the same object. */
    ghost predicate Separate() {
      && regs != arraySlots && regs != structSlots && regs != spillSlots
      && arraySlots != structSlots && arraySlots != spillSlots && structSlots != spillSlots
      && callStack !in {arrayLens, arrayBases, structFieldCounts, structBases, tableLens, tableBases}
      && arrayLens !in {arrayBases, structFieldCounts, structBases, tableLens, tableBases}
      && arrayBases !in {structFieldCounts, structBases, tableLens, tableBases}
      && structFieldCounts !in {structBases, tableLens, tableBases}
      && structBases !in {tableLens, tableBases} && tableLens != tableBases
    }

    ghost predicate Valid()
      reads this, repr
    {
      && {this, regs, callStack, frameStack, arraySlots, arrayLens, arrayBases, structSlots, structFieldCounts,
          structBases, tableLens, tableBases, spillSlots} <= repr
      && Separate() && Vm.Valid(st)
      && st.ip == ip && st.tick == tick && st.regs == regs[..]
      && st.stack == CallStack(callStack[..], frameStack[..], callSp)
      && st.mem == Memory(arraySlots[..], arrayLens[..], arrayBases[..],
                          structSlots[..], structFieldCounts[..], structBases[..],
                          tableLens[..], tableBases[..], spillSlots[..])
    }

    constructor (m: Machine)
      ensures Valid() && this.m == m && st == Initial() && fresh(repr)
    {
      this.m := m;
      ip, tick, callSp := 0, 0, 0;
      var words := NewWordBuffers();
      regs, arraySlots, structSlots, spillSlots := words.0, words.1, words.2, words.3;
      var frames := NewFrames();
      frameStack := frames;
      var nats := NewCounters();
      callStack, arrayLens, arrayBases, structFieldCounts, structBases, tableLens, tableBases :=
        nats.0, nats.1, nats.2, nats.3, nats.4, nats.5, nats.6;
      st := Initial();
      repr := {this, words.0, words.1, words.2, words.3, frames, nats.0, nats.1, nats.2, nats.3, nats.4, nats.5,
          nats.6};
    }

    // ---- registers ---------------------------------------------------------

    method ReadReg(r: nat, other: i64) returns (v: i64)
      requires Valid()
      ensures v == RegOr(st, r, other)
    {
      v := if r < NUM_REGISTERS then regs[r] else other;
    }

    method WriteReg(r: nat, v: i64)
      requires Valid()
      modifies repr
      ensures Valid() && st == SetReg(old(st), r, v)
    {
      if r < NUM_REGISTERS {
        regs[r] := v;
        assert regs[..] == st.regs[r := v];
        st := st.(regs := st.regs[r := v]);
      }
    }

    method JumpTo(target: nat)
      requires Valid()
      modifies repr
      ensures Valid() && st == old(st).(ip := target)
    {
      ip := target;
      st := st.(ip := target);
    }

    method ReadConst(idx: nat) returns (sig: Signal, v: i64)
      ensures if idx < |m.constPool| then sig == Continue && v == m.constPool[idx] else sig == Raise(ConstOutOfBounds)
    {
      if idx >= |m.constPool| {
        return Raise(ConstOutOfBounds), 0;
      }
      return Continue, m.constPool[idx];
    }

    // ---- instruction families ------------------------------------------------

    method Alu(f: AluOp, i: Instr) returns (sig: Signal)
      requires Valid()
      modifies repr
      ensures Valid() && Did(ExecAlu(m, f, i, old(st)), sig, st)
    {
      hide Valid, AluResult;
      sig := Continue;
      if i.rd < NUM_REGISTERS && i.rs1 < NUM_REGISTERS && i.rs2 < NUM_REGISTERS {
        var x := ReadReg(i.rs1, 0);
        var y := ReadReg(i.rs2, 0);
        match AluResult(m, f, x, y)
        case Value(v) => WriteReg(i.rd, v);
        case Trap(e) => sig := Raise(e);
      }
    }

    method Move(i: Instr) returns (sig: Signal)
      requires Valid()
      modifies repr
      ensures Valid() && Did(ExecMove(m, i, old(st)), sig, st)
    {
      hide Valid, ExecMove, Did;
      if i.op == MovImm || i.op == MovStr || i.op == Ldc {
        sig := Load(i);
      } else {
        sig := Copy(i);
      }
    }

    method Load(i: Instr) returns (sig: Signal)
      requires Valid() && (i.op == MovImm || i.op == MovStr || i.op == Ldc)
      modifies repr
      ensures Valid() && Did(ExecMove(m, i, old(st)), sig, st)
    {
      hide Valid;
      sig := Continue;
      if i.op == MovImm {
        WriteReg(i.rd, i.Imm());
      } else if i.op == MovStr {
        WriteReg(i.rd, STR_TAG + i.rs1 * 0x1_0000_0000 + i.rs2);
      } else {
        var v: i64;
        sig, v := ReadConst(i.Imm());
        if sig == Continue { WriteReg(i.rd, v); }
      }
    }

    method Copy(i: Instr) returns (sig: Signal)
      requires Valid() && i.op != MovImm && i.op != MovStr && i.op != Ldc
      modifies repr
      ensures Valid() && Did(ExecMove(m, i, old(st)), sig, st)
    {
      CopyMeans(m, i, Snapshot());
      hide Valid, Wrap, ExecMove;
      sig := Continue;
      if i.rs1 < NUM_REGISTERS {
        var x := ReadReg(i.rs1, 0);
        var v := if i.op == MovReg then x else if i.op == AddI then Wrap(x as int + i.rs2) else Wrap(x as int - i.rs2);
        WriteReg(i.rd, v);
      }
    }

    method Branch(i: Instr) returns (sig: Signal)
      requires Valid()
      modifies repr
      ensures Valid() && Did(ExecBranch(i, old(st)), sig, st)
    {
      hide Valid;
      sig := Continue;
      var x := ReadReg(i.rd, 0);
      if i.op == Jz {
        if i.rd < NUM_REGISTERS && x == 0 { JumpTo(i.Imm()); }
      } else if i.op == Jnz {
        if i.rd < NUM_REGISTERS && x != 0 { JumpTo(i.Imm()); }
      } else {
        JumpTo(i.Imm());
      }
    }

    method Native(i: Instr) returns (sig: Signal)
      requires Valid()
      modifies repr
      ensures Valid() && Did(ExecNative(m, i, old(st)), sig, st)
    {
      hide NativeResult;
      sig := Continue;
      var c := NativeCall(i.rs1, i.rs2);
      hide Valid;
      match c
      case Value(v) => WriteReg(i.rd, v);
      case Trap(e) => sig := Raise(e);
    }

    /** An intrinsic applied to its argument register and the ones below it. */
    method NativeCall(id: u8, arg: u8) returns (c: Computed)
      requires Valid()
      ensures c == NativeResult(m, id, arg, st)
    {
      var a := ReadReg(arg, 0);
      if id == NATIVE_TAG_OK {
        c := Value(ClearTag(a, ERR_TAG));
      } else if id == NATIVE_TAG_ERR {
        c := Value(SetTag(a, ERR_TAG));
      } else if id == NATIVE_IS_OK || id == NATIVE_IS_ERR {
        c := Value(Truth(Tagged(a, ERR_TAG) == (id == NATIVE_IS_ERR)));
      } else if id == NATIVE_UNWRAP {
        c := if Tagged(a, ERR_TAG) then Trap(UnwrapFailed) else Value(a);
      } else if id == NATIVE_STREQ {
        c := Value(0);
      } else if id == NATIVE_MATH_ABS {
        c := Value(AbsWord(a));
      } else if id == NATIVE_MATH_MIN || id == NATIVE_MATH_MAX || id == NATIVE_MATH_CLAMP || id == NATIVE_CRC32 {
        if arg > NUM_REGISTERS {
          return Trap(IndexPanic);
        }
        var b := if arg > 0 then regs[arg - 1] else 0;
        var d := if arg > 1 then regs[arg - 2] else 0;
        c := MathResult(m, id, a, b, d);
      } else {
        c := m.native(tick, id, regs[..], arg);
      }
    }

    method StrEqual(i: Instr) returns (sig: Signal)
      requires Valid()
      modifies repr
      ensures Valid() && Did(ExecStrEq(m, i, old(st)), sig, st)
    {
      hide Valid, SameText;
      sig := Continue;
      if i.rd < NUM_REGISTERS && i.rs1 < NUM_REGISTERS && i.rs2 < NUM_REGISTERS {
        var x := ReadReg(i.rs1, 0);
        var y := ReadReg(i.rs2, 0);
        WriteReg(i.rd, Truth(x == y || SameText(m, x, y)));
      }
    }

    // ---- static storage --------------------------------------------------

    /** Lengths and base of array `id`, its slots cleared if they exist. */
    method DefArray(id: nat, len: nat)
      requires Valid() && len < 0x1_0000
      modifies repr
      ensures Valid() && st == old(st).(mem := DefineArray(old(st).mem, id, len))
    {
      if id >= 8 { return; }
      arrayLens[id] := len;
      assert arrayLens[..] == st.mem.arrayLens[id := len];
      var base := SumBelow(arrayLens, id);
      arrayBases[id] := base % 0x1_0000;
      assert arrayBases[..] == st.mem.arrayBases[id := base % 0x1_0000];
      if base + len <= 256 { Clear(arraySlots, base, len); }
      st := st.(mem := DefineArray(st.mem, id, len));
    }

    method DefStruct(id: nat, count: u8)
      requires Valid()
      modifies repr
      ensures Valid() && st == old(st).(mem := DefineStruct(old(st).mem, id, count))
    {
      if id >= 8 { return; }
      structFieldCounts[id] := count;
      assert structFieldCounts[..] == st.mem.structCounts[id := count];
      var base := SumBelow(structFieldCounts, id);
      structBases[id] := base % 0x1_0000;
      assert structBases[..] == st.mem.structBases[id := base % 0x1_0000];
      st := st.(mem := DefineStruct(st.mem, id, count));
    }

    method DefTable(id: nat, base: u8, len: u8)
      requires Valid() && id < 8
      modifies repr
      ensures Valid()
      ensures st == old(st).(mem := old(st).mem.(tableBases := old(st).mem.tableBases[id := base],
                                                 tableLens := old(st).mem.tableLens[id := len]))
    {
      tableBases[id] := base;
      tableLens[id] := len;
      assert tableBases[..] == st.mem.tableBases[id := base];
      assert tableLens[..] == st.mem.tableLens[id := len];
      st := st.(mem := st.mem.(tableBases := tableBases[..], tableLens := tableLens[..]));
    }

    method FindArray(id: nat, idx: i64) returns (l: Located)
      requires Valid()
      ensures l == LocateArray(st.mem, id, idx)
    {
      if id >= 8 { return Bad(ArrayInvalidId); }
      if idx < 0 || idx >= arrayLens[id] { return Bad(ArrayOutOfBounds); }
      l := if arrayBases[id] + idx >= 256 then Bad(IndexPanic) else At(arrayBases[id] + idx);
    }

    method FindStruct(id: nat, offset: u8) returns (l: Located)
      requires Valid()
      ensures l == LocateStruct(st.mem, id, offset)
    {
      if id >= 8 || offset >= structFieldCounts[id] { return Bad(StructOutOfBounds); }
      l := if structBases[id] + offset >= 256 then Bad(IndexPanic) else At(structBases[id] + offset);
    }

    method FindTable(id: nat, idx: i64) returns (l: Located)
      requires Valid()
      ensures l == LocateTable(m, st.mem, id, idx)
    {
      if id >= 8 { return Bad(TableInvalidId); }
      if idx < 0 || idx >= tableLens[id] { return Bad(TableOutOfBounds); }
      l := if tableBases[id] + idx >= |m.constPool| then Bad(IndexPanic) else At(tableBases[id] + idx);
    }

    method SetArraySlot(a: nat, v: i64)
      requires Valid() && a < 256
      modifies repr
      ensures Valid() && st == old(st).(mem := old(st).mem.(arraySlots := old(st).mem.arraySlots[a := v]))
    {
      arraySlots[a] := v;
      assert arraySlots[..] == st.mem.arraySlots[a := v];
      st := st.(mem := st.mem.(arraySlots := arraySlots[..]));
    }

    method SetStructSlot(a: nat, v: i64)
      requires Valid() && a < 256
      modifies repr
      ensures Valid() && st == old(st).(mem := old(st).mem.(structSlots := old(st).mem.structSlots[a := v]))
    {
      structSlots[a] := v;
      assert structSlots[..] == st.mem.structSlots[a := v];
      st := st.(mem := st.mem.(structSlots := structSlots[..]));
    }

    method SetSpillSlot(a: nat, v: i64)
      requires Valid() && a < 32
      modifies repr
      ensures Valid() && st == old(st).(mem := old(st).mem.(spillSlots := old(st).mem.spillSlots[a := v]))
    {
      spillSlots[a] := v;
      assert spillSlots[..] == st.mem.spillSlots[a := v];
      st := st.(mem := st.mem.(spillSlots := spillSlots[..]));
    }

    method ReadSlots(a: nat) returns (fromArray: i64, fromStruct: i64)
      requires Valid() && a < 256
      ensures fromArray == st.mem.arraySlots[a] && fromStruct == st.mem.structSlots[a]
    {
      return arraySlots[a], structSlots[a];
    }

    method ArrayLoad(i: Instr) returns (sig: Signal)
      requires Valid() && i.op == ArrLoad
      modifies repr
      ensures Valid() && Did(ExecArray(i, old(st)), sig, st)
    {
      hide Valid, LocateArray, DefineArray;
      var idx := ReadReg(i.rs2, -1);
      var l := FindArray(i.rs1, idx);
      if l.Bad? { return Raise(l.f); }
      var v, _ := ReadSlots(l.index);
      WriteReg(i.rd, v);
      sig := Continue;
    }

    method ArrayStore(i: Instr) returns (sig: Signal)
      requires Valid() && i.op == ArrStore
      modifies repr
      ensures Valid() && Did(ExecArray(i, old(st)), sig, st)
    {
      hide Valid, LocateArray, DefineArray;
      var idx := ReadReg(i.rs1, -1);
      var v := ReadReg(i.rs2, 0);
      var l := FindArray(i.rd, idx);
      if l.Bad? { return Raise(l.f); }
      SetArraySlot(l.index, v);
      sig := Continue;
    }

    method Array(i: Instr) returns (sig: Signal)
      requires Valid()
      modifies repr
      ensures Valid() && Did(ExecArray(i, old(st)), sig, st)
    {
      hide Valid, LocateArray, DefineArray;
      if i.op == ArrLoad {
        sig := ArrayLoad(i);
      } else if i.op == ArrStore {
        sig := ArrayStore(i);
      } else {
        DefArray(i.rd, i.Imm());
        sig := Continue;
      }
    }

    method StructGet(i: Instr) returns (sig: Signal)
      requires Valid() && i.op == StructLoad
      modifies repr
      ensures Valid() && Did(ExecStruct(i, old(st)), sig, st)
    {
      hide Valid, LocateStruct, DefineStruct;
      var l := FindStruct(i.rs1, i.rs2);
      if l.Bad? { return Raise(l.f); }
      var _, v := ReadSlots(l.index);
      WriteReg(i.rd, v);
      sig := Continue;
    }

    method StructSet(i: Instr) returns (sig: Signal)
      requires Valid() && i.op == StructStore
      modifies repr
      ensures Valid() && Did(ExecStruct(i, old(st)), sig, st)
    {
      hide Valid, LocateStruct, DefineStruct;
      var v := ReadReg(i.rs2, 0);
      var l := FindStruct(i.rd, i.rs1);
      if l.Bad? { return Raise(l.f); }
      SetStructSlot(l.index, v);
      sig := Continue;
    }

    method Struct(i: Instr) returns (sig: Signal)
      requires Valid()
      modifies repr
      ensures Valid() && Did(ExecStruct(i, old(st)), sig, st)
    {
      hide Valid, LocateStruct, DefineStruct;
      if i.op == StructLoad {
        sig := StructGet(i);
      } else if i.op == StructStore {
        sig := StructSet(i);
      } else {
        DefStruct(i.rd, i.rs1);
        sig := Continue;
      }
    }

    method Table(i: Instr) returns (sig: Signal)
      requires Valid()
      modifies repr
      ensures Valid() && Did(ExecTable(m, i, old(st)), sig, st)
    {
      hide Valid, LocateTable;
      sig := Continue;
      if i.op == TblLoad {
        var idx := ReadReg(i.rs2, -1);
        var l := FindTable(i.rs1, idx);
        if l.Bad? { return Raise(l.f); }
        WriteReg(i.rd, m.constPool[l.index]);
      } else if i.rd < 8 {
        DefTable(i.rd, i.rs1, i.rs2);
      }
    }

    method ReadSpill(id: nat) returns (v: i64)
      requires Valid()
      ensures v == if id < 32 then st.mem.spillSlots[id] else 0
    {
      v := if id < 32 then spillSlots[id] else 0;
    }

    method Spill(i: Instr) returns (sig: Signal)
      requires Valid()
      modifies repr
      ensures Valid() && Did(ExecSpill(i, old(st)), sig, st)
    {
      hide Valid;
      sig := Continue;
      if i.op == SpillLoad {
        var v := ReadSpill(i.rs1);
        WriteReg(i.rd, v);
      } else if i.rd < 32 {
        var v := ReadReg(i.rs1, 0);
        SetSpillSlot(i.rd, v);
      }
    }

    // ---- calls -------------------------------------------------------------

    method Call(i: Instr) returns (sig: Signal)
      requires Valid()
      modifies repr
      ensures Valid() && Did(ExecCall(i, old(st)), sig, st)
    {
      if callSp >= MAX_CALL_DEPTH {
        return Raise(StackOverflow);
      }
      PushFrame(ip % 0x1_0000);
      hide Valid;
      JumpTo(i.Imm());
      sig := Continue;
    }

    method PushFrame(returnIp: nat)
      requires Valid() && callSp < MAX_CALL_DEPTH
      modifies repr
      ensures Valid()
      ensures var s := old(st).stack;
              st == old(st).(stack := CallStack(s.retIps[s.depth := returnIp],
                  s.frames[s.depth := old(st).regs[..16]], s.depth + 1))
    {
      callStack[callSp] := returnIp;
      frameStack[callSp] := regs[..16];
      assert regs[..16] == st.regs[..16];
      assert callStack[..] == st.stack.retIps[callSp := returnIp];
      assert frameStack[..] == st.stack.frames[callSp := st.regs[..16]];
      callSp := callSp + 1;
      st := st.(stack := CallStack(callStack[..], frameStack[..], callSp));
    }

    method Ret() returns (sig: Signal)
      requires Valid()
      modifies repr
      ensures Valid() && Did(ExecRet(old(st)), sig, st)
    {
      if callSp == 0 {
        return Stop;
      }
      callSp := callSp - 1;
      var returnVal := regs[0];
      ip := callStack[callSp];
      var frame := frameStack[callSp];
      forall j | 0 <= j < 16 { regs[j] := frame[j]; }
      regs[0] := returnVal;
      assert regs[..] == (frame + st.regs[16..])[0 := returnVal];
      st := st.(ip := ip, regs := regs[..], stack := st.stack.(depth := callSp));
      sig := Continue;
    }

    // ---- the loop ----------------------------------------------------------

    method Execute(i: Instr) returns (sig: Signal)
      requires Valid()
      modifies repr
      ensures Valid() && Did(Exec(m, i, old(st)), sig, st)
    {
      hide Valid, ExecAlu, ExecMove, ExecBranch, ExecCall, ExecRet, ExecNative, ExecStrEq, ExecArray, ExecStruct,
          ExecTable, ExecSpill;
      match i.op
      case Alu(f) => sig := Alu(f, i);
      case MovImm | MovReg | MovStr | Ldc | AddI | SubI => sig := Move(i);
      case Jmp | Jz | Jnz => sig := Branch(i);
      case Assert =>
        var cond := ReadReg(i.rd, 0);
        sig := if cond == 0 then Raise(AssertionFailed) else Continue;
      case Call => sig := Call(i);
      case Ret => sig := Ret();
      case CallNat => sig := Native(i);
      case StrEq => sig := StrEqual(i);
      case ArrDef | ArrLoad | ArrStore => sig := Array(i);
      case StructDef | StructLoad | StructStore => sig := Struct(i);
      case TblDef | TblLoad => sig := Table(i);
      case SpillStore | SpillLoad => sig := Spill(i);
      case Nop | WithinStart | WithinEnd | Drop => sig := Continue;
      case Halt => sig := Stop;
      case Invalid => sig := Raise(InvalidOpcode);
    }

    method FetchAndAdvance() returns (i: Instr)
      requires Valid() && ip + 4 <= |m.code|
      modifies repr
      ensures Valid() && i == Fetch(m.code, old(st).ip)
      ensures st == old(st).(ip := old(st).ip + 4, tick := old(st).tick + 1)
    {
      i := Instr(Decode(m.code[ip]), m.code[ip + 1], m.code[ip + 2], m.code[ip + 3]);
      ip := ip + 4;
      tick := tick + 1;
      st := st.(ip := ip, tick := tick);
    }

    method CodeLeft() returns (left: bool)
      requires Valid()
      ensures Vm.Valid(st) && left == (st.ip + 4 <= |m.code|) == (ip + 4 <= |m.code|)
    {
      left := ip + 4 <= |m.code|;
    }

    /** Fetches and executes one instruction. */
    method Cycle() returns (sig: Signal)
      requires Valid() && st.ip + 4 <= |m.code|
      modifies repr
      ensures Valid() && Vm.Valid(old(st)) && Did(Vm.Step(m, old(st)), sig, st)
    {
      hide Exec, Fetch;
      assert ip == st.ip;
      var i := FetchAndAdvance();
      hide Valid;
      sig := Execute(i);
    }

    /** Runs to the end of the code, a HALT, a fault or the step limit. */
    method Run() returns (e: Ending)
      requires Valid()
      modifies repr
      ensures Valid() && Concludes(old(Verdict0()), e, st)
    {
      hide Vm.Run, Concludes;
      e := Loop(Verdict0());
    }

    method Loop(ghost verdict: Verdict) returns (e: Ending)
      requires Valid() && Leads(m, st, 0, verdict)
      modifies repr
      ensures Valid() && Concludes(verdict, e, st)
    {
      hide Valid, Vm.Valid, Step, Vm.Run, Leads, Concludes, Did;
      var steps := 0;
      var more := CodeLeft();
      while more && steps < MAX_VM_STEPS
        invariant Valid() && steps <= MAX_VM_STEPS && more == (st.ip + 4 <= |m.code|)
        invariant Leads(m, st, steps, verdict)
        decreases MAX_VM_STEPS - steps
      {
        ghost var before := st;
        var sig := Cycle();
        RunOnce(m, before, sig, st, steps, verdict);
        steps := steps + 1;
        if sig.Raise? {
          return Error(sig.fault);
        }
        if sig.Stop? {
          return Finished(steps);
        }
        more := CodeLeft();
      }
      RunEnds(m, st, steps, verdict);
      e := Finished(steps);
    }

    ghost function Snapshot(): (s: State)
      requires Valid()
      reads this, repr
      ensures s == st && Vm.Valid(s)
    {
      st
    }

    /** How the semantics says a run from here ends. */
    ghost function Verdict0(): (v: Verdict)
      requires Valid()
      reads this, repr
    {
      Vm.Run(m, st, 0)
    }
  }

  /** The instructions that copy from a register. */
  lemma CopyMeans(m: Machine, i: Instr, st: State)
    requires Vm.Valid(st) && i.op != MovImm && i.op != MovStr && i.op != Ldc
    ensures ExecMove(m, i, st)
         == Next(if i.rs1 >= NUM_REGISTERS then st
                 else
                   var x := st.regs[i.rs1];
                   SetReg(st, i.rd, if i.op == MovReg then x
                                    else if i.op == AddI then Wrap(x as int + i.rs2)
                                    else Wrap(x as int - i.rs2)))
  {
    hide Wrap;
  }

  function Finished(steps: nat): Ending {
    if steps >= MAX_VM_STEPS then LimitExceeded else Normal
  }

  /** The ending and last state of a run are those of the verdict. */
  ghost predicate Concludes(v: Verdict, e: Ending, s: State) {
    match v
    case Completed(s1) => e == Normal && s == s1
    case Failed(f) => e == Error(f)
    case StepLimit => e == LimitExceeded
  }

  /** The run that is at st after `steps` instructions will end with v. */
  ghost predicate Leads(m: Machine, st: State, steps: nat, v: Verdict) {
    Vm.Valid(st) && steps <= MAX_VM_STEPS && Vm.Run(m, st, steps) == v
  }

  lemma RunOnce(m: Machine, st: State, sig: Signal, s1: State, steps: nat, v: Verdict)
    requires Leads(m, st, steps, v) && st.ip + 4 <= |m.code| && steps < MAX_VM_STEPS
    requires Vm.Valid(st) && Did(Step(m, st), sig, s1)
    ensures match sig
            case Continue => Leads(m, s1, steps + 1, v)
            case Stop => Concludes(v, Finished(steps + 1), s1)
            case Raise(f) => Concludes(v, Error(f), s1)
  {
    hide Step;
  }

  lemma RunEnds(m: Machine, st: State, steps: nat, v: Verdict)
    requires Leads(m, st, steps, v) && (st.ip + 4 > |m.code| || steps == MAX_VM_STEPS)
    ensures Concludes(v, Finished(steps), st)
  {
  }

  method NewWordBuffers() returns (b: (array<i64>, array<i64>, array<i64>, array<i64>))
    ensures fresh({b.0, b.1, b.2, b.3})
    ensures b.0 != b.1 && b.0 != b.2 && b.0 != b.3 && b.1 != b.2 && b.1 != b.3 && b.2 != b.3
    ensures b.0[..] == Zeros(NUM_REGISTERS) && b.1[..] == Zeros(256) && b.2[..] == Zeros(256) && b.3[..] == Zeros(32)
  {
    var regs := new i64[NUM_REGISTERS](_ => 0);
    var arrays := new i64[256](_ => 0);
    var structs := new i64[256](_ => 0);
    var spills := new i64[32](_ => 0);
    b := (regs, arrays, structs, spills);
  }

  method NewNats(n: nat) returns (a: array<nat>)
    ensures fresh(a) && a[..] == NatZeros(n)
  {
    a := new nat[n](_ => 0);
  }

  method NewCounters()
    returns (b: (array<nat>, array<nat>, array<nat>, array<nat>, array<nat>, array<nat>, array<nat>))
    ensures fresh({b.0, b.1, b.2, b.3, b.4, b.5, b.6})
    ensures b.0 !in {b.1, b.2, b.3, b.4, b.5, b.6} && b.1 !in {b.2, b.3, b.4, b.5, b.6}
    ensures b.2 !in {b.3, b.4, b.5, b.6} && b.3 !in {b.4, b.5, b.6} && b.4 !in {b.5, b.6} && b.5 != b.6
    ensures b.0[..] == NatZeros(MAX_CALL_DEPTH)
    ensures b.1[..] == NatZeros(8) && b.2[..] == NatZeros(8) && b.3[..] == NatZeros(8)
    ensures b.4[..] == NatZeros(8) && b.5[..] == NatZeros(8) && b.6[..] == NatZeros(8)
  {
    var b0 := NewNats(MAX_CALL_DEPTH);
    var b1 := NewNats(8);
    var b2 := NewNats(8);
    var b3 := NewNats(8);
    var b4 := NewNats(8);
    var b5 := NewNats(8);
    var b6 := NewNats(8);
    b := (b0, b1, b2, b3, b4, b5, b6);
  }

  method NewFrames() returns (a: array<seq<i64>>)
    ensures fresh(a) && a[..] == NoFrames()
  {
    a := new seq<i64>[MAX_CALL_DEPTH](_ => Zeros(16));
  }

  method SumBelow(lens: array<nat>, n: nat) returns (sum: nat)
    requires n <= lens.Length
    ensures sum == SumTo(lens[..], n)
  {
    sum := 0;
    for i := 0 to n
      invariant sum == SumTo(lens[..], i)
    {
      sum := sum + lens[i];
    }
  }

  method Clear(slots: array<i64>, base: nat, len: nat)
    requires base + len <= slots.Length
    modifies slots
    ensures slots[..] == ZeroFill(old(slots[..]), base, len)
  {
    for i := base to base + len
      invariant forall j :: 0 <= j < slots.Length ==> slots[j] == if base <= j < i then 0 else old(slots[..])[j]
    {
      slots[i] := 0;
    }
  }
}
