// The px64 instruction set: opcodes, the four-byte cell format and the
// resource limits shared by the compiler and the virtual machine.

module Isa {
  import opened Words

  const NUM_REGISTERS: nat := 20
  const MAX_CALL_DEPTH: nat := 8
  const MAX_VM_STEPS: nat := 10_000
  const MAX_BYTECODE_SIZE: nat := 4096
  const MAX_CONST_POOL: nat := 64

  /** Operations on two registers whose result goes to a third. */
  datatype AluOp =
    | Add | Sub | Mul | Div | Mod
    | And | Or | Xor | Shl | Shr
    | Eq | Ne | Lt | Le | Gt | Ge

  datatype Op =
    | Nop | MovImm | MovReg | MovStr
    | Alu(f: AluOp)
    | Jmp | Jz | Jnz | CallNat
    | WithinStart | WithinEnd | Drop | Halt
    | Ldc | AddI | SubI
    | ArrDef | ArrLoad | ArrStore | Assert | Call | Ret
    | StructDef | StructLoad | StructStore | TblDef | TblLoad
    | StrEq | SpillStore | SpillLoad
    | Invalid

  /** The meaning of an opcode byte; every unassigned byte is Invalid. */
  function Decode(b: u8): Op {
    if b < 15 then DecodeLow(b)
    else if b < 31 then DecodeMid(b)
    else DecodeHigh(b)
  }

  function DecodeLow(b: u8): Op {
    match b
    case 0 => Nop
    case 1 => MovImm
    case 2 => MovReg
    case 3 => MovStr
    case 4 => Alu(Add)
    case 5 => Alu(Sub)
    case 6 => Alu(Mul)
    case 7 => Alu(Div)
    case 8 => Alu(Mod)
    case 9 => Alu(Eq)
    case 10 => Alu(Ne)
    case 11 => Alu(Lt)
    case 12 => Alu(Le)
    case 13 => Alu(Gt)
    case 14 => Alu(Ge)
    case _ => Invalid
  }

  function DecodeMid(b: u8): Op {
    match b
    case 15 => Jmp
    case 16 => Jz
    case 17 => Jnz
    case 18 => CallNat
    case 19 => WithinStart
    case 20 => WithinEnd
    case 21 => Drop
    case 22 => Halt
    case 23 => Ldc
    case 24 => AddI
    case 25 => SubI
    case 26 => Alu(And)
    case 27 => Alu(Or)
    case 28 => Alu(Xor)
    case 29 => Alu(Shl)
    case 30 => Alu(Shr)
    case _ => Invalid
  }

  function DecodeHigh(b: u8): Op {
    match b
    case 31 => ArrDef
    case 32 => ArrLoad
    case 33 => ArrStore
    case 34 => Assert
    case 35 => Call
    case 36 => Ret
    case 37 => StructDef
    case 38 => StructLoad
    case 39 => StructStore
    case 40 => TblDef
    case 41 => TblLoad
    case 42 => StrEq
    case 43 => SpillStore
    case 44 => SpillLoad
    case _ => Invalid
  }

  function AluCode(f: AluOp): u8 {
    match f
    case Add => 4 case Sub => 5 case Mul => 6 case Div => 7 case Mod => 8
    case Eq => 9 case Ne => 10 case Lt => 11 case Le => 12 case Gt => 13 case Ge => 14
    case And => 26 case Or => 27 case Xor => 28 case Shl => 29 case Shr => 30
  }

  /** The opcode byte the compiler emits. */
  function Encode(op: Op): (b: u8)
    requires op != Invalid
    ensures Decode(b) == op
  {
    match op
    case Alu(f) => AluCode(f)
    case Nop => 0 case MovImm => 1 case MovReg => 2 case MovStr => 3
    case Jmp => 15 case Jz => 16 case Jnz => 17 case CallNat => 18
    case WithinStart => 19 case WithinEnd => 20 case Drop => 21 case Halt => 22
    case Ldc => 23 case AddI => 24 case SubI => 25
    case ArrDef => 31 case ArrLoad => 32 case ArrStore => 33 case Assert => 34
    case Call => 35 case Ret => 36
    case StructDef => 37 case StructLoad => 38 case StructStore => 39
    case TblDef => 40 case TblLoad => 41 case StrEq => 42
    case SpillStore => 43 case SpillLoad => 44
  }

  datatype Instr = Instr(op: Op, rd: u8, rs1: u8, rs2: u8) {
    /** The big-endian 16-bit immediate in the last two bytes. */
    function Imm(): (v: nat)
      ensures v < 0x1_0000
    {
      rs1 * 256 + rs2
    }
  }

  /** A cell whose last two bytes hold a 16-bit immediate. */
  function WithImm(op: Op, rd: u8, imm: nat): (i: Instr)
    requires imm < 0x1_0000
    ensures i.Imm() == imm && i.op == op && i.rd == rd
  {
    Instr(op, rd, imm / 256, imm % 256)
  }

  /** The instruction the machine reads at byte address ip. */
  function Fetch(code: seq<u8>, ip: nat): Instr
    requires ip + 4 <= |code|
  {
    Instr(Decode(code[ip]), code[ip + 1], code[ip + 2], code[ip + 3])
  }

  /** A byte buffer read as consecutive four-byte cells. */
  function Cells(code: seq<u8>): (cs: seq<Instr>)
    ensures |cs| == |code| / 4
    ensures forall i :: 0 <= i < |cs| ==> cs[i] == Fetch(code, 4 * i)
  {
    seq(|code| / 4, i requires 0 <= i < |code| / 4 => Fetch(code, 4 * i))
  }
}
