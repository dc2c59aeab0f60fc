// What the single-pass compiler emits, as a function of the compiler state:
// the cells emitted so far, the constant pool and the variable table. `k` is
// the number of scratch registers in use; they are taken from 15 downwards.

module Codegen {
  import opened Words
  import opened Isa
  import opened Vm
  import opened Lang

  const MAX_TEMPS: nat := 8
  const MAX_GPR_VARS: nat := 13

  datatype CompileError =
    | BytecodeOverflow | ExprTooComplex | ConstPoolFull | DivByZeroConst
    | MaxVarsExceeded | MutabilityViolation | UnboundedLoop | ForWcetExceeded
    | MissingSemicolon | MaxMatchArmsExceeded | UnreachablePattern | NonExhaustiveMatch

  datatype Result<+T> = Ok(value: T) | Err(error: CompileError) {
    predicate IsFailure() { Err? }

    function PropagateFailure<U>(): Result<U>
      requires Err?
    {
      Err(error)
    }

    function Extract(): T
      requires Ok?
    {
      value
    }
  }

  datatype Gen = Gen(code: seq<Instr>, pool: seq<i64>, names: seq<string>, muts: seq<bool>)

  predicate WellFormed(g: Gen) {
    && |g.code| * 4 <= MAX_BYTECODE_SIZE
    && |g.pool| <= MAX_CONST_POOL
    && |g.names| == |g.muts| <= MAX_GPR_VARS
  }

  /** h is g with more emitted behind it. */
  predicate Extends(g: Gen, h: Gen) {
    WellFormed(h) && g.code <= h.code && g.pool <= h.pool && g.names <= h.names
  }

  predicate Grown(g: Gen, r: Result<Gen>) {
    r.Ok? ==> WellFormed(r.value) && |g.code| <= |r.value.code| && Extends(g, r.value)
  }

  // ---- primitive emission --------------------------------------------------

  function Emit(g: Gen, i: Instr): (r: Result<Gen>)
    requires WellFormed(g)
    ensures Grown(g, r)
    ensures r.Ok? ==> r.value == g.(code := g.code + [i])
  {
    if |g.code| * 4 + 4 > MAX_BYTECODE_SIZE then Err(BytecodeOverflow)
    else Ok(g.(code := g.code + [i]))
  }

  /** Overwrites the 16-bit field of an emitted cell with a byte address. */
  function Patch(g: Gen, at: nat, target: nat): (h: Gen)
    requires at < |g.code| && target < 0x1_0000
    ensures h == g.(code := g.code[at := WithImm(g.code[at].op, g.code[at].rd, target)])
  {
    g.(code := g.code[at := WithImm(g.code[at].op, g.code[at].rd, target)])
  }

  /** Makes a forward jump lead to the end of what has been emitted. */
  function PatchHere(g: Gen, at: nat): (h: Gen)
    requires WellFormed(g) && at < |g.code|
    ensures WellFormed(h) && |h.code| == |g.code| && h == Patch(g, at, 4 * |g.code|)
  {
    Patch(g, at, 4 * |g.code|)
  }

  /** The first index holding v, or the length. */
  function IndexOf<T(==)>(s: seq<T>, v: T): (i: nat)
    ensures i <= |s|
    ensures i < |s| ==> s[i] == v
    ensures forall j :: 0 <= j < i ==> s[j] != v
  {
    if s == [] || s[0] == v then 0 else 1 + IndexOf(s[1..], v)
  }

  function AddConstant(g: Gen, v: i64): (r: Result<Gen>)
    requires WellFormed(g)
    ensures Grown(g, r)
    ensures r.Ok? ==> r.value == g.(pool := r.value.pool)
                      && IndexOf(g.pool, v) < |r.value.pool| && r.value.pool[IndexOf(g.pool, v)] == v
  {
    if IndexOf(g.pool, v) < |g.pool| then Ok(g)
    else if |g.pool| >= MAX_CONST_POOL then Err(ConstPoolFull)
    else Ok(g.(pool := g.pool + [v]))
  }

  function EmitConst(g: Gen, dst: u8, v: i64): (r: Result<Gen>)
    requires WellFormed(g)
    ensures Grown(g, r)
    ensures r.Ok? ==> |r.value.code| == |g.code| + 1 && r.value.names == g.names && r.value.muts == g.muts
  {
    if 0 <= v < 0x1_0000 then Emit(g, WithImm(MovImm, dst, v))
    else
      var g1 :- AddConstant(g, v);
      Emit(g1, WithImm(Ldc, dst, IndexOf(g.pool, v)))
  }

  /** The register of the i-th variable. */
  function VarReg(i: nat): (r: u8)
    requires i < MAX_GPR_VARS
    ensures 1 <= r <= 13
  {
    1 + i
  }

  /** The table entry of a name: its first sixteen bytes. A longer name is
      entered cut off, and so is not found again. */
  function Stored(x: string): (y: string)
    ensures |y| <= MAX_NAME && (y == x <==> |x| <= MAX_NAME)
  {
    if |x| <= MAX_NAME then x else x[..MAX_NAME]
  }

  /** Looks a name up, entering it as a fresh mutable variable if it is not found. */
  function Resolve(g: Gen, x: string): (r: Result<Gen>)
    requires WellFormed(g)
    ensures Grown(g, r)
    ensures r.Ok? ==> r.value == g.(names := r.value.names, muts := r.value.muts)
                      && IndexOf(g.names, x) < |r.value.names|
                      && (|x| <= MAX_NAME ==> r.value.names[IndexOf(g.names, x)] == x)
  {
    if IndexOf(g.names, x) < |g.names| then Ok(g)
    else if |g.names| >= MAX_GPR_VARS then Err(MaxVarsExceeded)
    else Ok(g.(names := g.names + [Stored(x)], muts := g.muts + [true]))
  }

  /** Scratch register number k. */
  function Temp(k: nat): (r: u8)
    requires k < MAX_TEMPS
    ensures 8 <= r <= 15
  {
    15 - k
  }

  function NeedTemps(k: nat): Result<()> {
    if k <= MAX_TEMPS then Ok(()) else Err(ExprTooComplex)
  }

  /** Patching behind g leaves g a prefix. */
  lemma PatchExtends(g: Gen, h: Gen, at: nat)
    requires Extends(g, h) && |g.code| <= at < |h.code|
    ensures Extends(g, PatchHere(h, at))
  {
  }

  // ---- expressions ---------------------------------------------------------

  /** The tail of a binary operator whose operands are in dst and rhs. */
  function Operate(op: BinOp, dst: u8, rhs: u8, k: nat, g: Gen): (r: Result<Gen>)
    requires WellFormed(g)
    ensures Grown(g, r)
  {
    match op
    case Arith(f) => Emit(g, Instr(Alu(f), dst, dst, rhs))
    case _ =>
      var _ :- NeedTemps(k + 1);
      var zero := Temp(k);
      var g1 :- EmitConst(g, zero, 0);
      var g2 :- Emit(g1, Instr(Alu(Ne), dst, dst, zero));
      var _ :- NeedTemps(k + 2);
      var flag := Temp(k + 1);
      var g3 :- Emit(g2, Instr(Alu(Ne), flag, rhs, zero));
      Emit(g3, Instr(Alu(if op == LogAnd then And else Or), dst, dst, flag))
  }

  function EmitFolded(g: Gen, dst: u8, c: Option<i64>): (r: Result<Gen>)
    requires WellFormed(g)
    ensures Grown(g, r)
    ensures r.Ok? ==> |r.value.code| == |g.code| + (if c.Some? then 1 else 0)
                      && r.value.names == g.names && r.value.muts == g.muts
  {
    match c
    case Some(v) => EmitConst(g, dst, v)
    case None => Ok(g)
  }

  /** Both operands have been generated; emit what could not be folded. */
  function Combine(op: BinOp, dst: u8, rhs: u8, lc: Option<i64>, rc: Option<i64>, k: nat, g: Gen): (r: Result<Gen>)
    requires WellFormed(g)
    ensures Grown(g, r)
  {
    if lc.Some? && rc.Some? then
      if FoldBin(op, lc.value, rc.value).None? then Err(DivByZeroConst) else Ok(g)
    else
      var g1 :- EmitFolded(g, dst, lc);
      var g2 :- EmitFolded(g1, rhs, rc);
      Operate(op, dst, rhs, k, g2)
  }

  function NativeId1(f: Fn1): u8 {
    match f
    case FnAbs => NATIVE_MATH_ABS
    case FnOk => NATIVE_TAG_OK
    case FnErr => NATIVE_TAG_ERR
    case FnIsOk => NATIVE_IS_OK
    case FnIsErr => NATIVE_IS_ERR
    case FnUnwrap => NATIVE_UNWRAP
  }

  function NativeId2(f: Fn2): u8 {
    match f
    case FnMin => NATIVE_MATH_MIN
    case FnMax => NATIVE_MATH_MAX
    case FnCrc32 => NATIVE_CRC32
  }

  /** The ladder from the ternary down to primaries. When `Fold(e)` is a
      constant, dst is left alone and the caller emits the constant. */
  function Ladder(e: Expr, dst: u8, k: nat, g: Gen): (r: Result<Gen>)
    requires WellFormed(g)
    ensures Grown(g, r)
    decreases e, 1
  {
    match e
    case Lit(_) => Ok(g)
    case Var(x) =>
      var g1 :- Resolve(g, x);
      MoveVar(dst, VarReg(IndexOf(g.names, x)), g1)
    case Paren(i) => Ladder(i, dst, k, g)
    case Neg(_) | Not(_) => Unary(e, dst, k, g)
    case Bin(op, l, r) =>
      var g1 :- Ladder(l, dst, k, g);
      var _ :- NeedTemps(k + 1);
      var g2 :- Ladder(r, Temp(k), k + 1, g1);
      Combine(op, dst, Temp(k), Fold(l), Fold(r), k + 1, g2)
    case Tern(_, _, _) => Ternary(e, dst, k, g)
    case Call1(_, _) | Call2(_, _, _) | Clamp(_, _, _) => Intrinsic(e, dst, k, g)
  }

  function MoveVar(dst: u8, reg: u8, g: Gen): (r: Result<Gen>)
    requires WellFormed(g)
    ensures Grown(g, r)
  {
    if reg == dst then Ok(g) else Emit(g, Instr(MovReg, dst, reg, 0))
  }

  function Unary(e: Expr, dst: u8, k: nat, g: Gen): (r: Result<Gen>)
    requires WellFormed(g) && (e.Neg? || e.Not?)
    ensures Grown(g, r)
    decreases e, 0
  {
    var _ :- NeedTemps(k + 1);
    if e.Neg? then
      var g1 :- EmitConst(g, Temp(k), 0);
      var _ :- NeedTemps(k + 2);
      var g2 :- Ladder(e.arg, Temp(k + 1), k + 2, g1);
      if Fold(e.arg).Some? then Ok(g2) else Emit(g2, Instr(Alu(Sub), dst, Temp(k), Temp(k + 1)))
    else
      var g1 :- Ladder(e.arg, Temp(k), k + 1, g);
      if Fold(e.arg).Some? then Ok(g1) else CompareZero(dst, k, g1)
  }

  /** `dst = (scratch k == 0)` */
  function CompareZero(dst: u8, k: nat, g: Gen): (r: Result<Gen>)
    requires WellFormed(g) && k < MAX_TEMPS
    ensures Grown(g, r)
  {
    var _ :- NeedTemps(k + 2);
    var g1 :- EmitConst(g, Temp(k + 1), 0);
    Emit(g1, Instr(Alu(Eq), dst, Temp(k), Temp(k + 1)))
  }

  /** Condition in dst, a jump over the first branch, a jump over the second;
      both are back-patched when their targets are known. */
  function Ternary(e: Expr, dst: u8, k: nat, g: Gen): (r: Result<Gen>)
    requires WellFormed(g) && e.Tern?
    ensures Grown(g, r)
    decreases e, 0, 2
  {
    var g1 :- TernaryThen(e, dst, k, g);
    var g2 :- Expression(e.b, dst, k, g1);
    PatchExtends(g, g2, |g1.code| - 1);
    Ok(PatchHere(g2, |g1.code| - 1))
  }

  /** The ternary up to and including the jump that ends its first branch. */
  function TernaryThen(e: Expr, dst: u8, k: nat, g: Gen): (r: Result<Gen>)
    requires WellFormed(g) && e.Tern?
    ensures Grown(g, r) && (r.Ok? ==> |g.code| < |r.value.code|)
    decreases e, 0, 1
  {
    var g1 :- TernaryTest(e, dst, k, g);
    var g2 :- Expression(e.a, dst, k, g1);
    var g3 :- Emit(g2, Instr(Jmp, 0, 0, 0));
    PatchExtends(g, g3, |g1.code| - 1);
    Ok(PatchHere(g3, |g1.code| - 1))
  }

  /** The ternary up to and including the jump over its first branch. */
  function TernaryTest(e: Expr, dst: u8, k: nat, g: Gen): (r: Result<Gen>)
    requires WellFormed(g) && e.Tern?
    ensures Grown(g, r) && (r.Ok? ==> |g.code| < |r.value.code|)
    decreases e, 0, 0
  {
    var g1 :- Expression(e.c, dst, k, g);
    Emit(g1, Instr(Jz, dst, 0, 0))
  }

  /** Arguments go to consecutive scratch registers downwards from k; the
      machine is given the first. */
  function Intrinsic(e: Expr, dst: u8, k: nat, g: Gen): (r: Result<Gen>)
    requires WellFormed(g) && (e.Call1? || e.Call2? || e.Clamp?)
    ensures Grown(g, r)
    decreases e, 0
  {
    var _ :- NeedTemps(k + 1);
    var g1 :- Expression(e.a0, Temp(k), k + 1, g);
    if e.Call1? then Emit(g1, Instr(CallNat, dst, NativeId1(e.f1), Temp(k)))
    else
      var _ :- NeedTemps(k + 2);
      var g2 :- Expression(e.a1, Temp(k + 1), k + 2, g1);
      if e.Call2? then Emit(g2, Instr(CallNat, dst, NativeId2(e.f2), Temp(k)))
      else
        var _ :- NeedTemps(k + 3);
        var g3 :- Expression(e.a2, Temp(k + 2), k + 3, g2);
        Emit(g3, Instr(CallNat, dst, NATIVE_MATH_CLAMP, Temp(k)))
  }

  /** A whole expression: the ladder, then the constant if it folded. */
  function Expression(e: Expr, dst: u8, k: nat, g: Gen): (r: Result<Gen>)
    requires WellFormed(g)
    ensures Grown(g, r)
    decreases e, 2
  {
    var g1 :- Ladder(e, dst, k, g);
    EmitFolded(g1, dst, Fold(e))
  }
}
