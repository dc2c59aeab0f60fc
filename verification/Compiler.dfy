// The compiler object: fixed buffers filled in place, a bitmask of scratch
// registers, and back-patching into the byte buffer. The ghost fields hold its
// abstract value, and every method is proved against the function of module
// Codegen or StmtGen that says what is emitted.

module Compiler {
  import opened Words
  import opened Isa
  import opened Vm
  import opened Lang
  import opened Stmts
  import opened Codegen
  import StmtGen

  const MAX_VARS: nat := 48

  /** The mask with scratch registers 0 to k - 1 in use. */
  function LowMask(k: nat): bv8
    requires k <= 8
  {
    match k
    case 0 => 0x00 case 1 => 0x01 case 2 => 0x03 case 3 => 0x07 case 4 => 0x0F
    case 5 => 0x1F case 6 => 0x3F case 7 => 0x7F case _ => 0xFF
  }

  function BitMask(i: nat): bv8
    requires i < 8
  {
    match i
    case 0 => 0x01 case 1 => 0x02 case 2 => 0x04 case 3 => 0x08
    case 4 => 0x10 case 5 => 0x20 case 6 => 0x40 case _ => 0x80
  }

  /** Bit i is set in a low mask exactly below its length; setting the first
      clear bit, or clearing the last set one, gives the neighbouring mask. */
  lemma LowMaskBits(k: nat, i: nat)
    requires k <= 8 && i < 8
    ensures (LowMask(k) & BitMask(i) == 0) == (i >= k)
    ensures i == k ==> LowMask(k) | BitMask(i) == LowMask(k + 1)
    ensures i + 1 == k ==> LowMask(k) & !BitMask(i) == LowMask(i)
  {
  }

  /** The imperative outcome r, new value g1 and scratch count k1 are what the
      specification says; after an error the buffers are abandoned. */
  ghost predicate Follows(spec: Result<Gen>, r: Result<()>, g1: Gen, k1: nat, k: nat) {
    match spec
    case Ok(g) => r == Ok(()) && g1 == g && k1 == k
    case Err(x) => r == Err(x)
  }

  /** The same for the expression ladder, which also returns the constant it
      folded instead of leaving a value in the destination. */
  ghost predicate Yields(spec: Result<Gen>, c: Option<i64>, r: Result<Option<i64>>, g1: Gen, k1: nat, k: nat) {
    match spec
    case Ok(g) => r == Ok(c) && g1 == g && k1 == k
    case Err(x) => r == Err(x)
  }

  /** The same for code that ends in a jump whose byte position is returned. */
  ghost predicate LeavesJump(spec: Result<Gen>, r: Result<nat>, g1: Gen, k1: nat, k: nat) {
    match spec
    case Ok(g) => |g.code| > 0 && r == Ok(4 * (|g.code| - 1)) && g1 == g && k1 == k
    case Err(x) => r == Err(x)
  }

  lemma CellsAppended(b: seq<u8>, c: seq<u8>)
    requires |b| % 4 == 0 && |c| == 4
    ensures Cells(b + c) == Cells(b) + [Fetch(c, 0)]
  {
    hide Decode;
    assert |b + c| / 4 == |b| / 4 + 1;
    forall i | 0 <= i < |b| / 4 + 1 ensures Cells(b + c)[i] == (Cells(b) + [Fetch(c, 0)])[i] {
      if i < |b| / 4 { assert (b + c)[4 * i..4 * i + 4] == b[4 * i..4 * i + 4]; }
    }
  }

  lemma CellPatched(b: seq<u8>, at: nat, hi: u8, lo: u8)
    requires |b| % 4 == 0 && 4 * at + 4 <= |b|
    ensures Cells(b[4 * at + 2 := hi][4 * at + 3 := lo])
         == Cells(b)[at := Instr(Cells(b)[at].op, Cells(b)[at].rd, hi, lo)]
  {
    hide Decode;
  }

  /** The lowest clear bit of the mask, or 8. */
  method FirstFree(mask: bv8, ghost k: nat) returns (i: nat)
    requires k <= 8 && mask == LowMask(k)
    ensures i == k
  {
    hide LowMask, BitMask;
    i := 0;
    while i < 8
      invariant i <= k
    {
      LowMaskBits(k, i);
      if mask & BitMask(i) == 0 {
        return;
      }
      i := i + 1;
    }
  }

  method StoreCell(a: array<u8>, pos: nat, b0: u8, b1: u8, b2: u8, b3: u8)
    requires pos + 4 <= a.Length
    modifies a
    ensures a[..pos + 4] == old(a[..pos]) + [b0, b1, b2, b3]
  {
    a[pos], a[pos + 1], a[pos + 2], a[pos + 3] := b0, b1, b2, b3;
  }

  class SinglePass {
    const code: array<u8>
    var codeLen: nat
    const constPool: array<i64>
    var constPoolLen: nat
    const varNames: array<string>
    const varMut: array<bool>
    var varCount: nat
    var tempUsed: bv8
    ghost var g: Gen
    ghost var k: nat

    ghost predicate Valid()
      reads this, code, constPool, varNames, varMut
    {
      && code.Length == MAX_BYTECODE_SIZE && constPool.Length == MAX_CONST_POOL
      && varNames.Length == MAX_VARS && varMut.Length == MAX_VARS
      && codeLen % 4 == 0 && codeLen <= MAX_BYTECODE_SIZE
      && constPoolLen <= MAX_CONST_POOL && varCount <= MAX_GPR_VARS
      && g == Gen(Cells(code[..codeLen]), constPool[..constPoolLen], varNames[..varCount], varMut[..varCount])
      && WellFormed(g)
      && k <= MAX_TEMPS && tempUsed == LowMask(k)
    }

    constructor ()
      ensures Valid() && g == Gen([], [], [], []) && k == 0
      ensures fresh(code) && fresh(constPool) && fresh(varNames) && fresh(varMut)
    {
      code := new u8[MAX_BYTECODE_SIZE](_ => 0);
      codeLen := 0;
      constPool := new i64[MAX_CONST_POOL](_ => 0);
      constPoolLen := 0;
      varNames := new string[MAX_VARS](_ => "");
      varMut := new bool[MAX_VARS](_ => true);
      varCount := 0;
      tempUsed := 0;
      g := Gen([], [], [], []);
      k := 0;
    }

    // ---- scratch registers -------------------------------------------------

    /** Takes the lowest-numbered free scratch register. */
    method AllocTemp() returns (r: Result<u8>)
      requires Valid()
      modifies this`tempUsed, this`k
      ensures Valid()
      ensures if old(k) < MAX_TEMPS then r == Ok(Temp(old(k))) && k == old(k) + 1
              else r == Err(ExprTooComplex) && k == old(k)
    {
      var i := FirstFree(tempUsed, k);
      if i == 8 {
        return Err(ExprTooComplex);
      }
      LowMaskBits(k, i);
      hide LowMask, BitMask;
      tempUsed := tempUsed | BitMask(i);
      k := k + 1;
      r := Ok(15 - i);
    }

    /** Releases the most recently taken scratch register. */
    method FreeTemp(reg: u8)
      requires Valid() && k > 0 && reg == Temp(k - 1)
      modifies this`tempUsed, this`k
      ensures Valid() && k == old(k) - 1
    {
      hide LowMask, BitMask;
      if 8 <= reg <= 15 {
        LowMaskBits(k, 15 - reg);
        tempUsed := tempUsed & !BitMask(15 - reg);
      }
      k := k - 1;
    }

    // ---- emission ----------------------------------------------------------

    method EmitInst(op: Op, rd: u8, rs1: u8, rs2: u8) returns (r: Result<nat>)
      requires Valid() && op != Invalid
      modifies this`codeLen, this`g, code
      ensures Valid()
      ensures match Emit(old(g), Instr(op, rd, rs1, rs2))
              case Ok(g1) => r == Ok(4 * |old(g).code|) && g == g1
              case Err(x) => r == Err(x) && g == old(g)
    {
      hide Encode, Decode, LowMask;
      if codeLen + 4 > MAX_BYTECODE_SIZE {
        return Err(BytecodeOverflow);
      }
      var pos := codeLen;
      StoreCell(code, pos, Encode(op), rd, rs1, rs2);
      codeLen := codeLen + 4;
      CellsAppended(old(code[..codeLen]), [Encode(op), rd, rs1, rs2]);
      g := g.(code := g.code + [Instr(op, rd, rs1, rs2)]);
      r := Ok(pos);
    }

    method EmitImm16(op: Op, rd: u8, imm: nat) returns (r: Result<nat>)
      requires Valid() && op != Invalid && imm < 0x1_0000
      modifies this`codeLen, this`g, code
      ensures Valid()
      ensures match Emit(old(g), WithImm(op, rd, imm))
              case Ok(g1) => r == Ok(4 * |old(g).code|) && g == g1
              case Err(x) => r == Err(x) && g == old(g)
    {
      r := EmitInst(op, rd, imm / 256, imm % 256);
    }

    /** Stores the 16-bit field of the cell at byte position pos. */
    method PatchImm16(pos: nat, imm: nat)
      requires Valid() && pos % 4 == 0 && pos / 4 < |g.code| && imm < 0x1_0000
      modifies this`g, code
      ensures Valid() && g == Patch(old(g), pos / 4, imm)
    {
      if pos + 3 < MAX_BYTECODE_SIZE {
        code[pos + 2] := imm / 256;
        code[pos + 3] := imm % 256;
      }
      assert code[..codeLen] == old(code[..codeLen])[pos + 2 := imm / 256][pos + 3 := imm % 256];
      CellPatched(old(code[..codeLen]), pos / 4, imm / 256, imm % 256);
      g := Patch(g, pos / 4, imm);
    }

    /** Lets the forward jump at byte position pos lead to the end. */
    method PatchToEnd(pos: nat)
      requires Valid() && pos % 4 == 0 && pos / 4 < |g.code|
      modifies this`g, code
      ensures Valid() && g == PatchHere(old(g), pos / 4)
    {
      hide WithImm;
      PatchImm16(pos, codeLen);
    }

    // ---- constants ---------------------------------------------------------

    method AddConstant(val: i64) returns (r: Result<nat>)
      requires Valid()
      modifies this`constPoolLen, this`g, constPool
      ensures Valid()
      ensures match Codegen.AddConstant(old(g), val)
              case Ok(g1) => r == Ok(IndexOf(old(g).pool, val)) && g == g1 && IndexOf(old(g).pool, val) < MAX_CONST_POOL
              case Err(x) => r == Err(x) && g == old(g)
    {
      var i := 0;
      while i < constPoolLen
        invariant 0 <= i <= constPoolLen
        invariant forall j :: 0 <= j < i ==> constPool[j] != val
      {
        if constPool[i] == val {
          assert g.pool[i] == val;
          IndexOfFirst(g.pool, val, i);
          return Ok(i);
        }
        i := i + 1;
      }
      IndexOfAbsent(g.pool, val);
      if constPoolLen >= MAX_CONST_POOL {
        return Err(ConstPoolFull);
      }
      var idx := constPoolLen;
      constPool[idx] := val;
      constPoolLen := constPoolLen + 1;
      assert constPool[..constPoolLen] == g.pool + [val];
      g := g.(pool := g.pool + [val]);
      r := Ok(idx);
    }

    method EmitConst(dst: u8, val: i64) returns (r: Result<()>)
      requires Valid()
      modifies this, code, constPool
      ensures Valid() && Follows(Codegen.EmitConst(old(g), dst, val), r, g, k, old(k))
    {
      hide WithImm;
      if 0 <= val < 0x1_0000 {
        var _ :- EmitImm16(MovImm, dst, val);
      } else {
        var idx :- AddConstant(val);
        var _ :- EmitImm16(Ldc, dst, idx);
      }
      r := Ok(());
    }

    // ---- variables ---------------------------------------------------------

    /** The register of a variable, entering it if it is new. */
    method ResolveVar(x: string) returns (r: Result<u8>)
      requires Valid()
      modifies this`varCount, this`g, varNames, varMut
      ensures Valid()
      ensures match Resolve(old(g), x)
              case Ok(g1) => IndexOf(old(g).names, x) < MAX_GPR_VARS
                             && r == Ok(VarReg(IndexOf(old(g).names, x))) && g == g1
              case Err(e) => r == Err(e)
    {
      var i := 0;
      while i < varCount
        invariant 0 <= i <= varCount
        invariant forall j :: 0 <= j < i ==> varNames[j] != x
      {
        if varNames[i] == x {
          assert g.names[i] == x;
          IndexOfFirst(g.names, x, i);
          return Ok(1 + i);
        }
        i := i + 1;
      }
      IndexOfAbsent(g.names, x);
      if varCount >= MAX_GPR_VARS {
        return Err(MaxVarsExceeded);
      }
      EnterVar(x, true);
      r := Ok(varCount);
    }

    method EnterVar(x: string, mutable: bool)
      requires Valid() && varCount < MAX_GPR_VARS
      modifies this`varCount, this`g, varNames, varMut
      ensures Valid() && g == old(g).(names := old(g).names + [Stored(x)], muts := old(g).muts + [mutable])
      ensures varCount == old(varCount) + 1
    {
      varNames[varCount] := Stored(x);
      varMut[varCount] := mutable;
      varCount := varCount + 1;
      assert varNames[..varCount] == g.names + [Stored(x)];
      assert varMut[..varCount] == g.muts + [mutable];
      g := g.(names := g.names + [Stored(x)], muts := g.muts + [mutable]);
    }

    /** Enters a variable, or gives it a new mutability. */
    method DeclareVar(x: string, mutable: bool) returns (r: Result<u8>)
      requires Valid()
      modifies this`varCount, this`g, varNames, varMut
      ensures Valid()
      ensures match StmtGen.Declare(old(g), x, mutable)
              case Ok(g1) => IndexOf(old(g).names, x) < MAX_GPR_VARS
                             && r == Ok(VarReg(IndexOf(old(g).names, x))) && g == g1
              case Err(e) => r == Err(e)
    {
      var i := 0;
      while i < varCount
        invariant 0 <= i <= varCount && g == old(g)
        invariant forall j :: 0 <= j < i ==> varNames[j] != x
      {
        if varNames[i] == x {
          assert g.names[i] == x;
          IndexOfFirst(g.names, x, i);
          varMut[i] := mutable;
          assert varMut[..varCount] == g.muts[i := mutable];
          g := g.(muts := g.muts[i := mutable]);
          return Ok(1 + i);
        }
        i := i + 1;
      }
      IndexOfAbsent(g.names, x);
      if varCount >= MAX_GPR_VARS {
        return Err(MaxVarsExceeded);
      }
      EnterVar(x, mutable);
      r := Ok(varCount);
    }

    /** Refuses to change a variable that is declared immutable. */
    method CheckMutation(x: string) returns (r: Result<()>)
      requires Valid()
      ensures r == StmtGen.CheckMutation(g, x)
    {
      if "$r" <= x {
        return Ok(());
      }
      var i := 0;
      while i < varCount
        invariant 0 <= i <= varCount
        invariant forall j :: 0 <= j < i ==> varNames[j] != x
      {
        if varNames[i] == x {
          assert g.names[i] == x && g.muts[i] == varMut[i];
          IndexOfFirst(g.names, x, i);
          return if varMut[i] then Ok(()) else Err(MutabilityViolation);
        }
        i := i + 1;
      }
      IndexOfAbsent(g.names, x);
      r := Ok(());
    }

    // ---- expressions -------------------------------------------------------

    method Emit3(op: Op, rd: u8, rs1: u8, rs2: u8) returns (r: Result<()>)
      requires Valid() && op != Invalid
      modifies this, code
      ensures Valid() && Follows(Emit(old(g), Instr(op, rd, rs1, rs2)), r, g, k, old(k))
    {
      var _ :- EmitInst(op, rd, rs1, rs2);
      r := Ok(());
    }

    method EmitFolded(dst: u8, c: Option<i64>) returns (r: Result<()>)
      requires Valid()
      modifies this, code, constPool
      ensures Valid() && Follows(Codegen.EmitFolded(old(g), dst, c), r, g, k, old(k))
    {
      match c
      case Some(v) => r := EmitConst(dst, v);
      case None => r := Ok(());
    }

    /** The operator on two registers; `&&` and `||` normalise both operands. */
    method Operate(op: BinOp, dst: u8, rhs: u8) returns (r: Result<()>)
      requires Valid()
      modifies this, code, constPool
      ensures Valid() && Follows(Codegen.Operate(op, dst, rhs, old(k), old(g)), r, g, k, old(k))
    {
      hide Valid, Codegen.EmitConst, Codegen.Emit, Extends, WellFormed;
      match op
      case Arith(f) => r := Emit3(Alu(f), dst, dst, rhs);
      case _ =>
        var zero :- AllocTemp();
        var _ :- EmitConst(zero, 0);
        var _ :- Emit3(Alu(Ne), dst, dst, zero);
        var _ :- JoinTruths(op, dst, rhs, zero);
        FreeTemp(zero);
        r := Ok(());
    }

    /** dst already holds a truth value; makes one of rhs and joins the two. */
    method JoinTruths(op: BinOp, dst: u8, rhs: u8, zero: u8) returns (r: Result<()>)
      requires Valid()
      modifies this, code
      ensures Valid() && Follows(JoinedTruths(op, dst, rhs, zero, old(k), old(g)), r, g, k, old(k))
    {
      hide Valid, Codegen.Emit, Extends, WellFormed;
      var rhsBool :- AllocTemp();
      var _ :- Emit3(Alu(Ne), rhsBool, rhs, zero);
      var _ :- Emit3(Alu(if op == LogAnd then And else Or), dst, dst, rhsBool);
      FreeTemp(rhsBool);
      r := Ok(());
    }

    /** Both operands are generated: emit the constants that did not fold away
        and the operator, or fold. */
    method Combine(op: BinOp, dst: u8, rhs: u8, lc: Option<i64>, rc: Option<i64>) returns (r: Result<Option<i64>>)
      requires Valid()
      modifies this, code, constPool
      ensures Valid()
      ensures Yields(Codegen.Combine(op, dst, rhs, lc, rc, old(k), old(g)), FoldPair(op, lc, rc), r, g, k, old(k))
    {
      hide Valid, Codegen.EmitFolded, Codegen.Operate, FoldBin;
      if lc.Some? && rc.Some? {
        var c := FoldBin(op, lc.value, rc.value);
        return if c.None? then Err(DivByZeroConst) else Ok(c);
      }
      var _ :- EmitFolded(dst, lc);
      var _ :- EmitFolded(rhs, rc);
      var _ :- Operate(op, dst, rhs);
      r := Ok(None);
    }

    method MoveVar(dst: u8, reg: u8) returns (r: Result<()>)
      requires Valid()
      modifies this, code
      ensures Valid() && Follows(Codegen.MoveVar(dst, reg, old(g)), r, g, k, old(k))
    {
      if reg == dst {
        return Ok(());
      }
      r := Emit3(MovReg, dst, reg, 0);
    }

    /** The expression ladder: the constant the expression folds to, or its
        value left in dst. */
    method Ladder(e: Expr, dst: u8) returns (r: Result<Option<i64>>)
      requires Valid()
      modifies this, code, constPool, varNames, varMut
      ensures Valid() && Yields(Codegen.Ladder(e, dst, old(k), old(g)), Fold(e), r, g, k, old(k))
      decreases e, 4
    {
      LadderStep(e, dst, k, g);
      hide Valid, Codegen.MoveVar, Codegen.Unary, Codegen.Ternary, Codegen.Intrinsic, FoldBin, Codegen.Combine,
          Resolve, IndexOf;
      match e
      case Lit(n) => r := Ok(Some(n));
      case Var(x) =>
        var reg :- ResolveVar(x);
        var _ :- MoveVar(dst, reg);
        r := Ok(None);
      case Paren(i) => r := Ladder(i, dst);
      case Neg(_) => r := Unary(e, dst);
      case Not(_) => r := Unary(e, dst);
      case Bin(_, _, _) => r := Binary(e, dst);
      case Tern(_, _, _) =>
        var _ :- Ternary(e, dst);
        r := Ok(None);
      case _ =>
        var _ :- Intrinsic(e, dst);
        r := Ok(None);
    }

    method Binary(e: Expr, dst: u8) returns (r: Result<Option<i64>>)
      requires Valid() && e.Bin?
      modifies this, code, constPool, varNames, varMut
      ensures Valid() && Yields(Codegen.Ladder(e, dst, old(k), old(g)), Fold(e), r, g, k, old(k))
      decreases e, 0
    {
      BinaryStep(e, dst, k, g);
      hide Valid, FoldBin, Codegen.Combine, Codegen.Ladder, Fold, Extends, WellFormed;
      var lc :- Ladder(e.l, dst);
      var rhs :- AllocTemp();
      var rc :- Ladder(e.r, rhs);
      var c :- Combine(e.op, dst, rhs, lc, rc);
      FreeTemp(rhs);
      r := Ok(c);
    }

    method Unary(e: Expr, dst: u8) returns (r: Result<Option<i64>>)
      requires Valid() && (e.Neg? || e.Not?)
      modifies this, code, constPool, varNames, varMut
      ensures Valid() && Yields(Codegen.Unary(e, dst, old(k), old(g)), Fold(e), r, g, k, old(k))
      decreases e, 1
    {
      if e.Neg? {
        r := Negate(e, dst);
      } else {
        r := Complement(e, dst);
      }
    }

    /** `-e` as `0 - e` */
    method Negate(e: Expr, dst: u8) returns (r: Result<Option<i64>>)
      requires Valid() && e.Neg?
      modifies this, code, constPool, varNames, varMut
      ensures Valid() && Yields(Codegen.Unary(e, dst, old(k), old(g)), Fold(e), r, g, k, old(k))
      decreases e, 0
    {
      hide Valid, Codegen.Ladder, Codegen.EmitConst, Emit, Wrap, Extends, WellFormed;
      var zero :- AllocTemp();
      var _ :- EmitConst(zero, 0);
      var arg :- AllocTemp();
      var c :- Ladder(e.arg, arg);
      if c.Some? {
        r := Ok(Some(Wrap(0 - c.value as int)));
      } else {
        var _ :- Emit3(Alu(Sub), dst, zero, arg);
        r := Ok(None);
      }
      FreeTemp(arg);
      FreeTemp(zero);
    }

    /** `!e` as `e == 0` */
    method Complement(e: Expr, dst: u8) returns (r: Result<Option<i64>>)
      requires Valid() && e.Not?
      modifies this, code, constPool, varNames, varMut
      ensures Valid() && Yields(Codegen.Unary(e, dst, old(k), old(g)), Fold(e), r, g, k, old(k))
      decreases e, 0
    {
      hide Valid, Codegen.Ladder, Codegen.CompareZero, Extends, WellFormed;
      var arg :- AllocTemp();
      var c :- Ladder(e.arg, arg);
      if c.Some? {
        r := Ok(Some(if c.value == 0 then 1 else 0));
      } else {
        var _ :- CompareZero(dst, arg);
        r := Ok(None);
      }
      FreeTemp(arg);
    }

    /** Compares the most recently taken scratch register with zero. */
    method CompareZero(dst: u8, arg: u8) returns (r: Result<()>)
      requires Valid() && k > 0 && arg == Temp(k - 1)
      modifies this, code, constPool
      ensures Valid() && Follows(Codegen.CompareZero(dst, old(k) - 1, old(g)), r, g, k, old(k))
    {
      hide Valid, Codegen.EmitConst, Emit;
      var zero :- AllocTemp();
      var _ :- EmitConst(zero, 0);
      var _ :- Emit3(Alu(Eq), dst, arg, zero);
      FreeTemp(zero);
      r := Ok(());
    }

    method EmitPatchable(op: Op, rd: u8) returns (r: Result<nat>)
      requires Valid() && op != Invalid
      modifies this`codeLen, this`g, code
      ensures Valid()
      ensures match Emit(old(g), Instr(op, rd, 0, 0))
              case Ok(g1) => r == Ok(4 * |old(g).code|) && g == g1 && |g.code| == |old(g).code| + 1
              case Err(x) => r == Err(x) && g == old(g)
    {
      r := EmitInst(op, rd, 0, 0);
    }

    /** A condition in dst and the jump, still to be patched, over what follows. */
    method TernaryTest(e: Expr, dst: u8) returns (r: Result<nat>)
      requires Valid() && e.Tern?
      modifies this, code, constPool, varNames, varMut
      ensures Valid() && LeavesJump(Codegen.TernaryTest(e, dst, old(k), old(g)), r, g, k, old(k))
      decreases e, 0
    {
      hide Valid, Codegen.Expression, Extends, WellFormed;
      var _ :- Expression(e.c, dst);
      r := EmitPatchable(Jz, dst);
    }

    method TernaryThen(e: Expr, dst: u8) returns (r: Result<nat>)
      requires Valid() && e.Tern?
      modifies this, code, constPool, varNames, varMut
      ensures Valid() && LeavesJump(Codegen.TernaryThen(e, dst, old(k), old(g)), r, g, k, old(k))
      decreases e, 1
    {
      hide Valid, Codegen.Expression, Codegen.TernaryTest, PatchHere, Extends, WellFormed;
      var jz :- TernaryTest(e, dst);
      var _ :- Expression(e.a, dst);
      r := EmitPatchable(Jmp, 0);
      if r.Ok? {
        PatchToEnd(jz);
      }
    }

    method Ternary(e: Expr, dst: u8) returns (r: Result<()>)
      requires Valid() && e.Tern?
      modifies this, code, constPool, varNames, varMut
      ensures Valid() && Follows(Codegen.Ternary(e, dst, old(k), old(g)), r, g, k, old(k))
      decreases e, 2
    {
      hide Valid, Codegen.Expression, Codegen.TernaryThen, PatchHere, Extends, WellFormed;
      var jmp :- TernaryThen(e, dst);
      var _ :- Expression(e.b, dst);
      PatchToEnd(jmp);
      r := Ok(());
    }

    /** The machine is given the first of the consecutive argument registers. */
    method Intrinsic(e: Expr, dst: u8) returns (r: Result<()>)
      requires Valid() && (e.Call1? || e.Call2? || e.Clamp?)
      modifies this, code, constPool, varNames, varMut
      ensures Valid() && Follows(Codegen.Intrinsic(e, dst, old(k), old(g)), r, g, k, old(k))
      decreases e, 1
    {
      IntrinsicStep(e, dst, k, g);
      hide Valid, Codegen.Expression, Codegen.Intrinsic, MoreArguments, Extends, WellFormed;
      var first :- AllocTemp();
      var _ :- Expression(e.a0, first);
      if e.Call1? {
        var _ :- Emit3(CallNat, dst, NativeId1(e.f1), first);
      } else {
        var _ :- Rest(e, dst, first);
      }
      FreeTemp(first);
      r := Ok(());
    }

    /** The second and third argument and the call. */
    method Rest(e: Expr, dst: u8, first: u8) returns (r: Result<()>)
      requires Valid() && (e.Call2? || e.Clamp?)
      modifies this, code, constPool, varNames, varMut
      ensures Valid() && Follows(MoreArguments(e, dst, first, old(k), old(g)), r, g, k, old(k))
      decreases e, 0
    {
      hide Valid, Codegen.Expression, Emit, Extends, WellFormed;
      var second :- AllocTemp();
      var _ :- Expression(e.a1, second);
      if e.Call2? {
        var _ :- Emit3(CallNat, dst, NativeId2(e.f2), first);
      } else {
        var third :- AllocTemp();
        var _ :- Expression(e.a2, third);
        var _ :- Emit3(CallNat, dst, NATIVE_MATH_CLAMP, first);
        FreeTemp(third);
      }
      FreeTemp(second);
      r := Ok(());
    }

    method Expression(e: Expr, dst: u8) returns (r: Result<()>)
      requires Valid()
      modifies this, code, constPool, varNames, varMut
      ensures Valid() && Follows(Codegen.Expression(e, dst, old(k), old(g)), r, g, k, old(k))
      decreases e, 5
    {
      hide Valid, Codegen.Ladder, Codegen.EmitFolded, Fold;
      var c :- Ladder(e, dst);
      r := EmitFolded(dst, c);
    }

    // ---- statements --------------------------------------------------------

    /** The byte position of the next instruction. */
    method Here() returns (pos: nat)
      requires Valid()
      ensures pos == 4 * |g.code| && pos <= MAX_BYTECODE_SIZE
    {
      pos := codeLen;
    }

    method UpdateByReg(reg: u8, plus: bool, e: Expr) returns (r: Result<()>)
      requires Valid()
      modifies this, code, constPool, varNames, varMut
      ensures Valid() && Follows(StmtGen.UpdateByReg(reg, plus, e, old(k), old(g)), r, g, k, old(k))
    {
      hide Valid, Codegen.Expression, Emit, Extends, WellFormed;
      var rhs :- AllocTemp();
      var _ :- Expression(e, rhs);
      var _ :- Emit3(Alu(if plus then Add else Sub), reg, reg, rhs);
      FreeTemp(rhs);
      r := Ok(());
    }

    /** `$x += e` and `$x -= e` */
    method Update(x: string, plus: bool, e: Expr) returns (r: Result<()>)
      requires Valid()
      modifies this, code, constPool, varNames, varMut
      ensures Valid() && Follows(StmtGen.GenUpdate(x, plus, e, old(k), old(g)), r, g, k, old(k))
    {
      hide Valid, Resolve, StmtGen.CheckMutation, StmtGen.UpdateByReg, StmtGen.LeadNumber, IndexOf, Emit, Extends,
          WellFormed;
      var reg :- ResolveVar(x);
      var _ :- CheckMutation(x);
      match StmtGen.LeadNumber(e)
      case Some(n) =>
        if 0 <= n <= 255 {
          if e == Lit(n) {
            r := Emit3(if plus then AddI else SubI, reg, reg, n);
          } else {
            r := Err(MissingSemicolon);
          }
        } else {
          r := UpdateByReg(reg, plus, e);
        }
      case None => r := UpdateByReg(reg, plus, e);
    }

    method Assign(x: string, e: Expr) returns (r: Result<()>)
      requires Valid()
      modifies this, code, constPool, varNames, varMut
      ensures Valid() && Follows(StmtGen.GenAssign(x, e, old(k), old(g)), r, g, k, old(k))
    {
      hide Valid, Resolve, StmtGen.CheckMutation, IndexOf, Codegen.Expression, Extends, WellFormed;
      var reg :- ResolveVar(x);
      var _ :- CheckMutation(x);
      r := Expression(e, reg);
    }

    method Let(x: string, mutable: bool, e: Expr) returns (r: Result<()>)
      requires Valid()
      modifies this, code, constPool, varNames, varMut
      ensures Valid() && Follows(StmtGen.GenLet(x, mutable, e, old(k), old(g)), r, g, k, old(k))
    {
      hide Valid, StmtGen.Declare, IndexOf, Codegen.Expression, Extends, WellFormed;
      var reg :- DeclareVar(x, mutable);
      r := Expression(e, reg);
    }

    /** An expression in register 0 and one instruction that uses it. */
    method Test(e: Expr, op: Op) returns (r: Result<nat>)
      requires Valid() && op != Invalid
      modifies this, code, constPool, varNames, varMut
      ensures Valid() && LeavesJump(StmtGen.GenTest(e, Instr(op, 0, 0, 0), old(k), old(g)), r, g, k, old(k))
    {
      hide Valid, Codegen.Expression, Extends, WellFormed;
      var _ :- Expression(e, 0);
      r := EmitPatchable(op, 0);
    }

    method If(s: Stmt) returns (r: Result<()>)
      requires Valid() && s.If?
      modifies this, code, constPool, varNames, varMut
      ensures Valid() && Follows(StmtGen.GenIf(s, old(k), old(g)), r, g, k, old(k))
      decreases s, 0
    {
      hide Valid, StmtGen.GenTest, StmtGen.Statement, PatchHere, Extends, WellFormed;
      var jz :- Test(s.c, Jz);
      var _ :- Statement(s.thn);
      PatchToEnd(jz);
      r := Ok(());
    }

    /** The jump over the else branch; the test's jump leads behind it. */
    method OpenElse(jz: nat) returns (r: Result<nat>)
      requires Valid() && jz % 4 == 0 && jz / 4 < |g.code|
      modifies this, code
      ensures Valid() && LeavesJump(OpenedElse(jz / 4, old(g)), r, g, k, old(k))
    {
      hide Valid, PatchHere, Extends, WellFormed;
      r := EmitPatchable(Jmp, 0);
      if r.Ok? {
        PatchToEnd(jz);
      }
    }

    method Then(s: Stmt) returns (r: Result<nat>)
      requires Valid() && s.IfElse?
      modifies this, code, constPool, varNames, varMut
      ensures Valid() && LeavesJump(ThenPart(s, old(k), old(g)), r, g, k, old(k))
      decreases s, 0
    {
      hide Valid, StmtGen.GenTest, StmtGen.Statement, OpenedElse, PatchHere, Extends, WellFormed;
      var jz :- Test(s.c, Jz);
      var _ :- Statement(s.thn);
      r := OpenElse(jz);
    }

    lemma IfElseHere(s: Stmt)
      requires Valid() && s.IfElse?
      ensures WellFormed(g)
      ensures var r1 := ThenPart(s, k, g);
              StmtGen.GenIfElse(s, k, g)
              == if r1.Err? then r1 else ElsePart(s.els, |r1.value.code| - 1, k, r1.value)
    {
      hide ThenPart, ElsePart, StmtGen.GenIfElse;
      IfElseStep(s, k, g);
    }

    method IfElse(s: Stmt) returns (r: Result<()>)
      requires Valid() && s.IfElse?
      modifies this, code, constPool, varNames, varMut
      ensures Valid() && Follows(StmtGen.GenIfElse(s, old(k), old(g)), r, g, k, old(k))
      decreases s, 1
    {
      hide Valid, ThenPart, ElsePart, StmtGen.GenIfElse;
      IfElseHere(s);
      var jmp :- Then(s);
      r := Else(s.els, jmp);
    }

    /** The else branch, with the jump over it patched behind. */
    method Else(s: Stmt, jmp: nat) returns (r: Result<()>)
      requires Valid() && jmp % 4 == 0 && jmp / 4 < |g.code|
      modifies this, code, constPool, varNames, varMut
      ensures Valid() && Follows(ElsePart(s, jmp / 4, old(k), old(g)), r, g, k, old(k))
      decreases s, 3
    {
      hide Valid, StmtGen.Statement, PatchHere, Extends;
      var _ :- Statement(s);
      PatchToEnd(jmp);
      r := Ok(());
    }

    /** The jump back to the byte position start, and the exit behind it. */
    method CloseLoop(start: nat, exit: nat) returns (r: Result<()>)
      requires Valid() && start % 4 == 0 && start <= 4 * |g.code| && exit % 4 == 0 && exit / 4 < |g.code|
      modifies this, code
      ensures Valid() && Follows(StmtGen.CloseLoop(old(g), start / 4, exit / 4), r, g, k, old(k))
    {
      assert 4 * (start / 4) == start < 0x1_0000;
      hide Valid, PatchHere, Emit, WithImm, Extends, WellFormed;
      var _ :- EmitImm16(Jmp, 0, start);
      PatchToEnd(exit);
      r := Ok(());
    }

    method While(s: Stmt) returns (r: Result<()>)
      requires Valid() && s.While?
      modifies this, code, constPool, varNames, varMut
      ensures Valid() && Follows(StmtGen.GenWhile(s, old(k), old(g)), r, g, k, old(k))
      decreases s, 0
    {
      hide Valid, StmtGen.GenTest, StmtGen.Statement, StmtGen.CloseLoop, StmtGen.LeadNumber, Extends, WellFormed;
      var start := Here();
      var lead := StmtGen.LeadNumber(s.c);
      if lead.Some? && lead.value != 0 {
        return Err(UnboundedLoop);
      }
      var jz :- Test(s.c, Jz);
      var _ :- Statement(s.body);
      r := CloseLoop(start, jz);
    }

    /** The loop variable at its start value, the bound in a scratch register
        that stays taken, the comparison and the exit jump. */
    method OpenRange(x: string, lo: i64, hi: i64) returns (r: Result<(u8, u8, nat)>)
      requires Valid()
      modifies this, code, constPool, varNames, varMut
      ensures Valid()
      ensures match StmtGen.GenRange(x, lo, hi, old(k), old(g))
              case Ok(g1) =>
                && IndexOf(old(g).names, x) < MAX_GPR_VARS && old(k) < MAX_TEMPS && |g1.code| >= 2
                && r == Ok((VarReg(IndexOf(old(g).names, x)), Temp(old(k)), 4 * (|g1.code| - 2)))
                && g == g1 && k == old(k) + 1
              case Err(e) => r == Err(e)
    {
      hide Valid, Resolve, IndexOf, Codegen.EmitConst, Emit, Extends, WellFormed;
      var reg :- ResolveVar(x);
      var _ :- EmitConst(reg, lo);
      var bound :- AllocTemp();
      var _ :- EmitConst(bound, hi);
      var start :- TestRange(reg, bound);
      r := Ok((reg, bound, start));
    }

    /** The comparison at which the loop starts over, and its exit jump. */
    method TestRange(reg: u8, bound: u8) returns (r: Result<nat>)
      requires Valid()
      modifies this, code
      ensures Valid()
      ensures match TestedRange(reg, bound, old(g))
              case Ok(g1) => r == Ok(4 * |old(g).code|) && g == g1 && k == old(k)
              case Err(e) => r == Err(e)
    {
      hide Valid, Emit, Extends, WellFormed;
      var start := Here();
      var _ :- Emit3(Alu(Lt), 0, reg, bound);
      var _ :- EmitPatchable(Jz, 0);
      r := Ok(start);
    }

    method For(s: Stmt) returns (r: Result<()>)
      requires Valid() && s.For?
      modifies this, code, constPool, varNames, varMut
      ensures Valid() && Follows(StmtGen.GenFor(s, old(k), old(g)), r, g, k, old(k))
      decreases s, 0
    {
      hide Valid, StmtGen.GenRange, StmtGen.Statement, StmtGen.CloseRange, StmtGen.Iterations, IndexOf, Extends,
          WellFormed;
      var range :- OpenRange(s.x, s.lo, s.hi);
      var (reg, bound, start) := range;
      var bodyStart := Here();
      var _ :- Statement(s.body);
      var bodyEnd := Here();
      var perRound := (bodyEnd - bodyStart) / 4 + 4;
      if StmtGen.Iterations(s.lo, s.hi) * perRound > MAX_VM_STEPS {
        return Err(ForWcetExceeded);
      }
      var _ :- CloseRange(reg, start);
      FreeTemp(bound);
      r := Ok(());
    }

    method CloseRange(reg: u8, start: nat) returns (r: Result<()>)
      requires Valid() && start % 4 == 0 && start / 4 + 2 <= |g.code|
      modifies this, code
      ensures Valid() && Follows(StmtGen.CloseRange(old(g), reg, start / 4), r, g, k, old(k))
    {
      hide Valid, StmtGen.CloseLoop, Extends, WellFormed;
      var _ :- Emit3(AddI, reg, reg, 1);
      r := CloseLoop(start, start + 4);
    }

    method Statement(s: Stmt) returns (r: Result<()>)
      requires Valid()
      modifies this, code, constPool, varNames, varMut
      ensures Valid() && Follows(StmtGen.Statement(s, old(k), old(g)), r, g, k, old(k))
      decreases s, 2
    {
      StatementStep(s, k, g);
      hide Valid, StmtGen.Statement, StmtGen.GenLet, StmtGen.GenAssign, StmtGen.GenUpdate, StmtGen.GenTest,
          StmtGen.GenIf, StmtGen.GenIfElse, StmtGen.GenWhile, StmtGen.GenFor, Codegen.Expression, Extends, WellFormed;
      match s
      case Skip => r := Ok(());
      case Seq(s1, s2) =>
        var _ :- Statement(s1);
        r := Statement(s2);
      case Let(x, mutable, e) => r := Let(x, mutable, e);
      case Assign(x, e) => r := Assign(x, e);
      case Update(x, plus, e) => r := Update(x, plus, e);
      case Check(e) =>
        var _ :- Test(e, Assert);
        r := Ok(());
      case Do(e) => r := Expression(e, 0);
      case If(_, _) => r := If(s);
      case IfElse(_, _, _) => r := IfElse(s);
      case While(_, _) => r := While(s);
      case For(_, _, _, _) => r := For(s);
    }
  }

  /** A script compiled from nothing: its bytes and its constant pool. They are
      what a machine needs to run the script as `Compiled` demands. */
  method Compile(s: Stmt) returns (r: Result<(seq<u8>, seq<i64>)>)
    ensures match StmtGen.Program(s)
            case Ok(h) => r.Ok? && |r.value.0| == 4 * |h.code| && Cells(r.value.0) == h.code && r.value.1 == h.pool
            case Err(x) => r == Err(x)
  {
    hide StmtGen.Statement, Cells;
    var c := new SinglePass();
    var _ :- c.Statement(s);
    var _ :- c.Emit3(Halt, 0, 0, 0);
    r := Ok((c.code[..c.codeLen], c.constPool[..c.constPoolLen]));
  }

  function TestedRange(reg: u8, bound: u8, g: Gen): (r: Result<Gen>)
    requires WellFormed(g)
    ensures r.Ok? ==> WellFormed(r.value) && |r.value.code| == |g.code| + 2
  {
    var g1 :- Emit(g, Instr(Alu(Lt), 0, reg, bound));
    Emit(g1, Instr(Jz, 0, 0, 0))
  }

  /** A jump over the else branch, behind which the jump in cell `at` leads. */
  function OpenedElse(at: nat, g: Gen): (r: Result<Gen>)
    requires WellFormed(g) && at < |g.code|
    ensures r.Ok? ==> WellFormed(r.value) && |r.value.code| == |g.code| + 1
  {
    var g1 :- Emit(g, Instr(Jmp, 0, 0, 0));
    Ok(PatchHere(g1, at))
  }

  function ThenPart(s: Stmt, k: nat, g: Gen): (r: Result<Gen>)
    requires WellFormed(g) && s.IfElse?
    ensures r.Ok? ==> WellFormed(r.value) && |r.value.code| > 0
  {
    var g1 :- StmtGen.GenTest(s.c, Instr(Jz, 0, 0, 0), k, g);
    var g2 :- StmtGen.Statement(s.thn, k, g1);
    OpenedElse(|g1.code| - 1, g2)
  }

  function ElsePart(s: Stmt, jmp: nat, k: nat, g: Gen): (r: Result<Gen>)
    requires WellFormed(g) && jmp < |g.code|
  {
    var g1 :- StmtGen.Statement(s, k, g);
    Ok(PatchHere(g1, jmp))
  }

  lemma IfElseStep(s: Stmt, k: nat, g: Gen)
    requires WellFormed(g) && s.IfElse?
    ensures var r1 := ThenPart(s, k, g);
            StmtGen.GenIfElse(s, k, g)
            == if r1.Err? then r1 else ElsePart(s.els, |r1.value.code| - 1, k, r1.value)
  {
    hide StmtGen.GenTest, PatchHere, StmtGen.Statement;
  }

  /** One level of the statement specification. */
  lemma StatementStep(s: Stmt, k: nat, g: Gen)
    requires WellFormed(g)
    ensures match s
            case Skip => StmtGen.Statement(s, k, g) == Ok(g)
            case Seq(s1, s2) =>
              var r1 := StmtGen.Statement(s1, k, g);
              StmtGen.Statement(s, k, g) == if r1.Err? then r1 else StmtGen.Statement(s2, k, r1.value)
            case Let(x, mutable, e) => StmtGen.Statement(s, k, g) == StmtGen.GenLet(x, mutable, e, k, g)
            case Assign(x, e) => StmtGen.Statement(s, k, g) == StmtGen.GenAssign(x, e, k, g)
            case Update(x, plus, e) => StmtGen.Statement(s, k, g) == StmtGen.GenUpdate(x, plus, e, k, g)
            case Check(e) => StmtGen.Statement(s, k, g) == StmtGen.GenTest(e, Instr(Assert, 0, 0, 0), k, g)
            case Do(e) => StmtGen.Statement(s, k, g) == Codegen.Expression(e, 0, k, g)
            case If(_, _) => StmtGen.Statement(s, k, g) == StmtGen.GenIf(s, k, g)
            case IfElse(_, _, _) => StmtGen.Statement(s, k, g) == StmtGen.GenIfElse(s, k, g)
            case While(_, _) => StmtGen.Statement(s, k, g) == StmtGen.GenWhile(s, k, g)
            case For(_, _, _, _) => StmtGen.Statement(s, k, g) == StmtGen.GenFor(s, k, g)
  {
    hide StmtGen.GenLet, StmtGen.GenAssign, StmtGen.GenUpdate, StmtGen.GenTest, Codegen.Expression;
  }

  function FoldPair(op: BinOp, lc: Option<i64>, rc: Option<i64>): Option<i64> {
    if lc.Some? && rc.Some? then FoldBin(op, lc.value, rc.value) else None
  }

  function JoinedTruths(op: BinOp, dst: u8, rhs: u8, zero: u8, k: nat, g: Gen): (r: Result<Gen>)
    requires WellFormed(g)
    ensures Grown(g, r)
  {
    var _ :- NeedTemps(k + 1);
    var g1 :- Emit(g, Instr(Alu(Ne), Temp(k), rhs, zero));
    Emit(g1, Instr(Alu(if op == LogAnd then And else Or), dst, dst, Temp(k)))
  }

  /** One level of the ladder's specification. */
  lemma LadderStep(e: Expr, dst: u8, k: nat, g: Gen)
    requires WellFormed(g)
    ensures match e
            case Lit(_) => Codegen.Ladder(e, dst, k, g) == Ok(g)
            case Paren(i) => Codegen.Ladder(e, dst, k, g) == Codegen.Ladder(i, dst, k, g)
            case Neg(_) | Not(_) => Codegen.Ladder(e, dst, k, g) == Codegen.Unary(e, dst, k, g)
            case Tern(_, _, _) => Codegen.Ladder(e, dst, k, g) == Codegen.Ternary(e, dst, k, g)
            case Call1(_, _) | Call2(_, _, _) | Clamp(_, _, _) =>
              Codegen.Ladder(e, dst, k, g) == Codegen.Intrinsic(e, dst, k, g)
            case _ => true
  {
  }

  function MoreArguments(e: Expr, dst: u8, first: u8, k: nat, g: Gen): (r: Result<Gen>)
    requires WellFormed(g) && (e.Call2? || e.Clamp?)
    ensures Grown(g, r)
  {
    var _ :- NeedTemps(k + 1);
    var g1 :- Codegen.Expression(e.a1, Temp(k), k + 1, g);
    if e.Call2? then Emit(g1, Instr(CallNat, dst, NativeId2(e.f2), first))
    else
      var _ :- NeedTemps(k + 2);
      var g2 :- Codegen.Expression(e.a2, Temp(k + 1), k + 2, g1);
      Emit(g2, Instr(CallNat, dst, NATIVE_MATH_CLAMP, first))
  }

  lemma IntrinsicStep(e: Expr, dst: u8, k: nat, g: Gen)
    requires WellFormed(g) && (e.Call1? || e.Call2? || e.Clamp?)
    ensures Codegen.Intrinsic(e, dst, k, g)
         == if k >= MAX_TEMPS then Err(ExprTooComplex)
            else
              var r1 := Codegen.Expression(e.a0, Temp(k), k + 1, g);
              if r1.Err? then r1
              else if e.Call1? then Emit(r1.value, Instr(CallNat, dst, NativeId1(e.f1), Temp(k)))
              else MoreArguments(e, dst, Temp(k), k + 1, r1.value)
  {
    hide Codegen.Expression, Emit, Extends;
  }

  lemma BinaryStep(e: Expr, dst: u8, k: nat, g: Gen)
    requires WellFormed(g) && e.Bin?
    ensures Fold(e) == FoldPair(e.op, Fold(e.l), Fold(e.r))
    ensures var r1 := Codegen.Ladder(e.l, dst, k, g);
            Codegen.Ladder(e, dst, k, g)
            == if r1.Err? then r1
               else if k + 1 > MAX_TEMPS then Err(ExprTooComplex)
               else
                 var r2 := Codegen.Ladder(e.r, Temp(k), k + 1, r1.value);
                 if r2.Err? then r2
                 else Codegen.Combine(e.op, dst, Temp(k), Fold(e.l), Fold(e.r), k + 1, r2.value)
  {
  }

  lemma {:induction false} IndexOfFirst<T>(s: seq<T>, v: T, i: nat)
    requires i < |s| && s[i] == v && forall j :: 0 <= j < i ==> s[j] != v
    ensures IndexOf(s, v) == i
  {
    if i > 0 { IndexOfFirst(s[1..], v, i - 1); }
  }

  lemma {:induction false} IndexOfAbsent<T>(s: seq<T>, v: T)
    requires forall j :: 0 <= j < |s| ==> s[j] != v
    ensures IndexOf(s, v) == |s|
  {
    if s != [] { IndexOfAbsent(s[1..], v); }
  }
}
