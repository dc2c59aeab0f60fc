// What every piece of emitted code keeps: every jump leads to a cell boundary
// inside the code, names in the table are cut off at sixteen bytes, and while
// no name is longer than that they stay distinct.

module Tidy {
  import opened Words
  import opened Isa
  import opened Vm
  import opened Lang
  import opened Stmts
  import opened Codegen
  import opened StmtGen
  import opened ExprCorrect

  ghost predicate TidyCell(i: Instr, len: nat) {
    && i.op !in {Call, Ret, Invalid}
    && (i.op in {Jmp, Jz, Jnz} ==> i.Imm() % 4 == 0 && i.Imm() <= 4 * len)
  }

  ghost predicate TidyCode(g: Gen) {
    && (forall i :: 0 <= i < |g.names| ==> |g.names[i]| <= MAX_NAME)
    && (forall i :: 0 <= i < |g.code| ==> TidyCell(g.code[i], |g.code|))
  }

  ghost predicate Tidy(g: Gen) {
    WellFormed(g) && TidyCode(g)
  }

  ghost predicate TidyResult(r: Result<Gen>) {
    r.Ok? ==> Tidy(r.value)
  }

  // ---- primitives ----------------------------------------------------------

  lemma EmitTidy(g: Gen, i: Instr)
    requires Tidy(g) && TidyCell(i, |g.code|)
    ensures TidyResult(Emit(g, i))
  {
    hide TidyCell;
    var h := Emit(g, i);
    if h.Ok? {
      forall j | 0 <= j < |h.value.code| ensures TidyCell(h.value.code[j], |h.value.code|) {
        LongerTidy(h.value.code[j], |g.code|, |h.value.code|);
      }
    }
  }

  lemma LongerTidy(i: Instr, a: nat, b: nat)
    requires a <= b
    ensures TidyCell(i, a) ==> TidyCell(i, b)
  {
  }

  lemma EmitConstTidy(g: Gen, dst: u8, v: i64)
    requires Tidy(g)
    ensures TidyResult(EmitConst(g, dst, v))
  {
    hide Emit;
    if 0 <= v < 0x1_0000 {
      EmitTidy(g, WithImm(MovImm, dst, v));
    } else if AddConstant(g, v).Ok? {
      EmitTidy(AddConstant(g, v).value, WithImm(Ldc, dst, IndexOf(g.pool, v)));
    }
  }

  lemma EmitFoldedTidy(g: Gen, dst: u8, c: Option<i64>)
    requires Tidy(g)
    ensures TidyResult(EmitFolded(g, dst, c))
  {
    hide EmitConst, Tidy;
    if c.Some? { EmitConstTidy(g, dst, c.value); }
  }

  lemma PatchTidy(g: Gen, at: nat)
    requires Tidy(g) && at < |g.code|
    ensures Tidy(PatchHere(g, at))
  {
    hide WithImm;
    var h := PatchHere(g, at);
    assert h.code[at] == WithImm(g.code[at].op, g.code[at].rd, 4 * |g.code|);
    forall j | 0 <= j < |h.code| ensures TidyCell(h.code[j], |h.code|) {
      if j != at { assert h.code[j] == g.code[j]; }
    }
  }

  lemma ResolveTidy(g: Gen, x: string)
    requires Tidy(g)
    ensures TidyResult(Resolve(g, x))
  {
    hide TidyCell;
  }

  lemma DeclareTidy(g: Gen, x: string, mutable: bool)
    requires Tidy(g)
    ensures TidyResult(Declare(g, x, mutable))
  {
    hide TidyCell;
  }

  // ---- expressions ---------------------------------------------------------

  lemma OperateTidy(op: BinOp, dst: u8, rhs: u8, k: nat, g: Gen)
    requires Tidy(g)
    ensures TidyResult(Operate(op, dst, rhs, k, g))
  {
    hide TidyCode, Emit, EmitConst;
    match op
    case Arith(f) => EmitTidy(g, Instr(Alu(f), dst, dst, rhs));
    case _ =>
      if k + 1 <= MAX_TEMPS && EmitConst(g, Temp(k), 0).Ok? {
        EmitConstTidy(g, Temp(k), 0);
        var g1 := EmitConst(g, Temp(k), 0).value;
        EmitTidy(g1, Instr(Alu(Ne), dst, dst, Temp(k)));
        var r2 := Emit(g1, Instr(Alu(Ne), dst, dst, Temp(k)));
        if r2.Ok? && k + 2 <= MAX_TEMPS {
          EmitTidy(r2.value, Instr(Alu(Ne), Temp(k + 1), rhs, Temp(k)));
          var r3 := Emit(r2.value, Instr(Alu(Ne), Temp(k + 1), rhs, Temp(k)));
          if r3.Ok? {
            EmitTidy(r3.value, Instr(Alu(if op == LogAnd then And else Or), dst, dst, Temp(k + 1)));
          }
        }
      }
  }

  lemma CombineTidy(op: BinOp, dst: u8, rhs: u8, lc: Option<i64>, rc: Option<i64>, k: nat, g: Gen)
    requires Tidy(g)
    ensures TidyResult(Combine(op, dst, rhs, lc, rc, k, g))
  {
    hide TidyCode, EmitFolded, Operate;
    EmitFoldedTidy(g, dst, lc);
    if EmitFolded(g, dst, lc).Ok? {
      var g1 := EmitFolded(g, dst, lc).value;
      EmitFoldedTidy(g1, rhs, rc);
      if EmitFolded(g1, rhs, rc).Ok? {
        OperateTidy(op, dst, rhs, k, EmitFolded(g1, rhs, rc).value);
      }
    }
  }

  lemma {:induction false} LadderTidy(e: Expr, dst: u8, k: nat, g: Gen)
    requires Tidy(g)
    ensures TidyResult(Ladder(e, dst, k, g))
    decreases e, 1
  {
    hide TidyCode, Emit, Combine, EmitConst, Expression;
    match e
    case Lit(_) =>
    case Var(x) =>
      ResolveTidy(g, x);
      if Resolve(g, x).Ok? && VarReg(IndexOf(g.names, x)) != dst {
        EmitTidy(Resolve(g, x).value, Instr(MovReg, dst, VarReg(IndexOf(g.names, x)), 0));
      }
    case Paren(i) => LadderTidy(i, dst, k, g);
    case Neg(_) => UnaryTidy(e, dst, k, g);
    case Not(_) => UnaryTidy(e, dst, k, g);
    case Bin(op, l, r) =>
      LadderTidy(l, dst, k, g);
      if Ladder(l, dst, k, g).Ok? && k + 1 <= MAX_TEMPS {
        var g1 := Ladder(l, dst, k, g).value;
        LadderTidy(r, Temp(k), k + 1, g1);
        if Ladder(r, Temp(k), k + 1, g1).Ok? {
          CombineTidy(op, dst, Temp(k), Fold(l), Fold(r), k + 1, Ladder(r, Temp(k), k + 1, g1).value);
        }
      }
    case Tern(_, _, _) => TernaryTidy(e, dst, k, g);
    case _ => IntrinsicTidy(e, dst, k, g);
  }

  lemma {:induction false} UnaryTidy(e: Expr, dst: u8, k: nat, g: Gen)
    requires Tidy(g) && (e.Neg? || e.Not?)
    ensures TidyResult(Unary(e, dst, k, g))
    decreases e, 0
  {
    hide TidyCode, Emit, EmitConst, Ladder;
    if k + 1 <= MAX_TEMPS {
      if e.Neg? {
        EmitConstTidy(g, Temp(k), 0);
        if EmitConst(g, Temp(k), 0).Ok? && k + 2 <= MAX_TEMPS {
          var g1 := EmitConst(g, Temp(k), 0).value;
          LadderTidy(e.arg, Temp(k + 1), k + 2, g1);
          var r2 := Ladder(e.arg, Temp(k + 1), k + 2, g1);
          if r2.Ok? { EmitTidy(r2.value, Instr(Alu(Sub), dst, Temp(k), Temp(k + 1))); }
        }
      } else {
        LadderTidy(e.arg, Temp(k), k + 1, g);
        var r1 := Ladder(e.arg, Temp(k), k + 1, g);
        if r1.Ok? && k + 2 <= MAX_TEMPS {
          EmitConstTidy(r1.value, Temp(k + 1), 0);
          var r2 := EmitConst(r1.value, Temp(k + 1), 0);
          if r2.Ok? { EmitTidy(r2.value, Instr(Alu(Eq), dst, Temp(k), Temp(k + 1))); }
        }
      }
    }
  }

  lemma {:induction false} TernaryTidy(e: Expr, dst: u8, k: nat, g: Gen)
    requires Tidy(g) && e.Tern?
    ensures TidyResult(Ternary(e, dst, k, g))
    decreases e, 0
  {
    hide TidyCode, Emit, EmitConst, Ladder, Expression, PatchHere;
    ExpressionTidy(e.c, dst, k, g);
    if Expression(e.c, dst, k, g).Ok? {
      EmitTidy(Expression(e.c, dst, k, g).value, Instr(Jz, dst, 0, 0));
      if TernaryTest(e, dst, k, g).Ok? {
        var g1 := TernaryTest(e, dst, k, g).value;
        ExpressionTidy(e.a, dst, k, g1);
        if Expression(e.a, dst, k, g1).Ok? {
          var g2 := Expression(e.a, dst, k, g1).value;
          EmitTidy(g2, Instr(Jmp, 0, 0, 0));
          var r3 := Emit(g2, Instr(Jmp, 0, 0, 0));
          if r3.Ok? {
            PatchTidy(r3.value, |g1.code| - 1);
            var g4 := TernaryThen(e, dst, k, g).value;
            ExpressionTidy(e.b, dst, k, g4);
            if Expression(e.b, dst, k, g4).Ok? {
              PatchTidy(Expression(e.b, dst, k, g4).value, |g4.code| - 1);
            }
          }
        }
      }
    }
  }

  lemma {:induction false} ExpressionTidy(e: Expr, dst: u8, k: nat, g: Gen)
    requires Tidy(g)
    ensures TidyResult(Expression(e, dst, k, g))
    decreases e, 2
  {
    hide TidyCode, EmitFolded, Ladder;
    LadderTidy(e, dst, k, g);
    if Ladder(e, dst, k, g).Ok? { EmitFoldedTidy(Ladder(e, dst, k, g).value, dst, Fold(e)); }
  }

  lemma {:induction false} IntrinsicTidy(e: Expr, dst: u8, k: nat, g: Gen)
    requires Tidy(g) && (e.Call1? || e.Call2? || e.Clamp?)
    ensures TidyResult(Intrinsic(e, dst, k, g))
    decreases e, 0
  {
    hide TidyCode, Emit, Expression;
    if k + 1 <= MAX_TEMPS {
      ExpressionTidy(e.a0, Temp(k), k + 1, g);
      var r1 := Expression(e.a0, Temp(k), k + 1, g);
      if r1.Ok? {
        EmitTidy(r1.value, Instr(CallNat, dst, IntrinsicId(e), Temp(k)));
        if !e.Call1? && k + 2 <= MAX_TEMPS {
          ExpressionTidy(e.a1, Temp(k + 1), k + 2, r1.value);
          var r2 := Expression(e.a1, Temp(k + 1), k + 2, r1.value);
          if r2.Ok? {
            EmitTidy(r2.value, Instr(CallNat, dst, IntrinsicId(e), Temp(k)));
            if e.Clamp? && k + 3 <= MAX_TEMPS {
              ExpressionTidy(e.a2, Temp(k + 2), k + 3, r2.value);
              var r3 := Expression(e.a2, Temp(k + 2), k + 3, r2.value);
              if r3.Ok? { EmitTidy(r3.value, Instr(CallNat, dst, IntrinsicId(e), Temp(k))); }
            }
          }
        }
      }
    }
  }

  // ---- statements ----------------------------------------------------------

  lemma GenTestTidy(e: Expr, i: Instr, k: nat, g: Gen)
    requires Tidy(g) && TidyCell(i, 0)
    ensures TidyResult(GenTest(e, i, k, g))
  {
    hide TidyCode, Emit, Expression;
    ExpressionTidy(e, 0, k, g);
    if Expression(e, 0, k, g).Ok? { EmitTidy(Expression(e, 0, k, g).value, i); }
  }

  lemma CloseLoopTidy(g: Gen, start: nat, exit: nat)
    requires Tidy(g) && start <= |g.code| && exit < |g.code|
    ensures TidyResult(CloseLoop(g, start, exit))
  {
    hide TidyCode, PatchHere;
    EmitTidy(g, WithImm(Jmp, 0, 4 * start));
    var r := Emit(g, WithImm(Jmp, 0, 4 * start));
    if r.Ok? { PatchTidy(r.value, exit); }
  }

  lemma GenRangeTidy(x: string, lo: i64, hi: i64, k: nat, g: Gen)
    requires Tidy(g)
    ensures TidyResult(GenRange(x, lo, hi, k, g))
  {
    hide TidyCode, Emit, EmitConst, Resolve, IndexOf;
    ResolveTidy(g, x);
    if Resolve(g, x).Ok? {
      var g1 := Resolve(g, x).value;
      var reg := VarReg(IndexOf(g.names, x));
      EmitConstTidy(g1, reg, lo);
      if EmitConst(g1, reg, lo).Ok? && k + 1 <= MAX_TEMPS {
        var g2 := EmitConst(g1, reg, lo).value;
        EmitConstTidy(g2, Temp(k), hi);
        if EmitConst(g2, Temp(k), hi).Ok? {
          var g3 := EmitConst(g2, Temp(k), hi).value;
          EmitTidy(g3, Instr(Alu(Lt), 0, reg, Temp(k)));
          var r4 := Emit(g3, Instr(Alu(Lt), 0, reg, Temp(k)));
          if r4.Ok? { EmitTidy(r4.value, Instr(Jz, 0, 0, 0)); }
        }
      }
    }
  }

  lemma UpdateByRegTidy(reg: u8, plus: bool, e: Expr, k: nat, g: Gen)
    requires Tidy(g)
    ensures TidyResult(UpdateByReg(reg, plus, e, k, g))
  {
    hide TidyCode, Emit, Expression;
    if k + 1 <= MAX_TEMPS {
      ExpressionTidy(e, Temp(k), k + 1, g);
      var r := Expression(e, Temp(k), k + 1, g);
      if r.Ok? { EmitTidy(r.value, Instr(Alu(if plus then Add else Sub), reg, reg, Temp(k))); }
    }
  }

  lemma GenUpdateTidy(x: string, plus: bool, e: Expr, k: nat, g: Gen)
    requires Tidy(g)
    ensures TidyResult(GenUpdate(x, plus, e, k, g))
  {
    hide TidyCode, Emit, Resolve, IndexOf, UpdateByReg;
    ResolveTidy(g, x);
    if Resolve(g, x).Ok? {
      var g1 := Resolve(g, x).value;
      var reg := VarReg(IndexOf(g.names, x));
      UpdateByRegTidy(reg, plus, e, k, g1);
      if e.Lit? && 0 <= e.n <= 255 {
        EmitTidy(g1, Instr(if plus then AddI else SubI, reg, reg, e.n));
      }
    }
  }

  lemma GenStoreTidy(s: Stmt, k: nat, g: Gen)
    requires Tidy(g) && (s.Let? || s.Assign?)
    ensures TidyResult(Statement(s, k, g))
  {
    hide TidyCode, Resolve, Declare, IndexOf, Expression;
    ResolveTidy(g, s.x);
    if s.Let? { DeclareTidy(g, s.x, s.mutable); }
    var r := if s.Let? then Declare(g, s.x, s.mutable) else Resolve(g, s.x);
    if r.Ok? { ExpressionTidy(s.e, VarReg(IndexOf(g.names, s.x)), k, r.value); }
  }

  lemma {:induction false} StatementTidy(s: Stmt, k: nat, g: Gen)
    requires Tidy(g)
    ensures TidyResult(Statement(s, k, g))
    decreases s, 1
  {
    hide TidyCode, GenTest, GenUpdate, GenLet, GenAssign, Expression;
    match s
    case Skip =>
    case Seq(s1, s2) =>
      StatementTidy(s1, k, g);
      if Statement(s1, k, g).Ok? { StatementTidy(s2, k, Statement(s1, k, g).value); }
    case Let(_, _, _) => GenStoreTidy(s, k, g);
    case Assign(_, _) => GenStoreTidy(s, k, g);
    case Update(x, plus, e) => GenUpdateTidy(x, plus, e, k, g);
    case Check(e) => GenTestTidy(e, Instr(Assert, 0, 0, 0), k, g);
    case Do(e) => ExpressionTidy(e, 0, k, g);
    case If(_, _) => BranchTidy(s, k, g);
    case IfElse(_, _, _) => BranchTidy(s, k, g);
    case While(_, _) => LoopTidy(s, k, g);
    case For(_, _, _, _) => LoopTidy(s, k, g);
  }

  lemma {:induction false} BranchTidy(s: Stmt, k: nat, g: Gen)
    requires Tidy(g) && (s.If? || s.IfElse?)
    ensures TidyResult(Statement(s, k, g))
    decreases s, 0
  {
    hide TidyCode, GenTest, Statement, PatchHere;
    if Statement(s, k, g).Ok? {
      GenTestTidy(s.c, Instr(Jz, 0, 0, 0), k, g);
      if s.If? {
        IfShape(s, k, g);
        var g1 := GenTest(s.c, Instr(Jz, 0, 0, 0), k, g).value;
        StatementTidy(s.thn, k, g1);
        PatchTidy(Statement(s.thn, k, g1).value, |g1.code| - 1);
      } else {
        IfElseShape(s, k, g);
        var g1 := GenTest(s.c, Instr(Jz, 0, 0, 0), k, g).value;
        StatementTidy(s.thn, k, g1);
        var g2 := Statement(s.thn, k, g1).value;
        EmitTidy(g2, Instr(Jmp, 0, 0, 0));
        PatchTidy(Emit(g2, Instr(Jmp, 0, 0, 0)).value, |g1.code| - 1);
        var g3 := OpenElse(g, g1, g2).value;
        StatementTidy(s.els, k, g3);
        PatchTidy(Statement(s.els, k, g3).value, |g2.code|);
      }
    }
  }

  lemma {:induction false} LoopTidy(s: Stmt, k: nat, g: Gen)
    requires Tidy(g) && (s.While? || s.For?)
    ensures TidyResult(Statement(s, k, g))
    decreases s, 0
  {
    hide TidyCode, GenTest, Statement, CloseLoop, GenRange;
    if Statement(s, k, g).Ok? {
      if s.While? {
        WhileShape(s, k, g);
        GenTestTidy(s.c, Instr(Jz, 0, 0, 0), k, g);
        var g1 := GenTest(s.c, Instr(Jz, 0, 0, 0), k, g).value;
        StatementTidy(s.body, k, g1);
        CloseLoopTidy(Statement(s.body, k, g1).value, |g.code|, |g1.code| - 1);
      } else {
        ForShape(s, k, g);
        GenRangeTidy(s.x, s.lo, s.hi, k, g);
        var g1 := GenRange(s.x, s.lo, s.hi, k, g).value;
        StatementTidy(s.body, k + 1, g1);
        var g2 := Statement(s.body, k + 1, g1).value;
        var step := Instr(AddI, VarReg(IndexOf(g.names, s.x)), VarReg(IndexOf(g.names, s.x)), 1);
        EmitTidy(g2, step);
        if Emit(g2, step).Ok? { CloseLoopTidy(Emit(g2, step).value, |g1.code| - 2, |g1.code| - 1); }
      }
    }
  }

  /** Every compiled script jumps only to cell boundaries inside its code, has
      no call, and enters no name longer than the table holds. */
  lemma ProgramTidy(s: Stmt)
    requires Program(s).Ok?
    ensures Tidy(Program(s).value)
  {
    hide Statement;
    StatementTidy(s, 0, Gen([], [], [], []));
    EmitTidy(Statement(s, 0, Gen([], [], [], [])).value, Instr(Halt, 0, 0, 0));
  }

  // ---- distinct names ------------------------------------------------------

  ghost predicate Distinct(names: seq<string>) {
    forall i, j :: 0 <= i < j < |names| ==> names[i] != names[j]
  }

  ghost predicate DistinctAfter(r: Result<Gen>) {
    r.Ok? ==> Distinct(r.value.names)
  }

  lemma EnterDistinct(g: Gen, x: string, mutable: bool)
    requires WellFormed(g) && Distinct(g.names) && |x| <= MAX_NAME
    ensures DistinctAfter(Resolve(g, x)) && DistinctAfter(Declare(g, x, mutable))
  {
  }

  lemma SameNames(op: BinOp, dst: u8, rhs: u8, lc: Option<i64>, rc: Option<i64>, k: nat, g: Gen)
    requires WellFormed(g)
    ensures Combine(op, dst, rhs, lc, rc, k, g).Ok? ==> Combine(op, dst, rhs, lc, rc, k, g).value.names == g.names
  {
    hide EmitConst, FoldBin;
  }

  lemma {:induction false} LadderDistinct(m: Machine, e: Expr, dst: u8, k: nat, g: Gen)
    requires WellFormed(g) && Distinct(g.names) && Faithful(m, e)
    ensures DistinctAfter(Ladder(e, dst, k, g))
    decreases e, 1
  {
    hide Distinct, Combine, EmitConst, Expression, IndexOf, Resolve;
    match e
    case Lit(_) =>
    case Var(x) => EnterDistinct(g, x, true);
    case Paren(i) => LadderDistinct(m, i, dst, k, g);
    case Neg(_) => UnaryDistinct(m, e, dst, k, g);
    case Not(_) => UnaryDistinct(m, e, dst, k, g);
    case Bin(op, l, r) =>
      LadderDistinct(m, l, dst, k, g);
      if Ladder(l, dst, k, g).Ok? && k + 1 <= MAX_TEMPS {
        var g1 := Ladder(l, dst, k, g).value;
        LadderDistinct(m, r, Temp(k), k + 1, g1);
        if Ladder(r, Temp(k), k + 1, g1).Ok? {
          SameNames(op, dst, Temp(k), Fold(l), Fold(r), k + 1, Ladder(r, Temp(k), k + 1, g1).value);
        }
      }
    case Tern(_, _, _) => TernaryDistinct(m, e, dst, k, g);
    case _ => IntrinsicDistinct(m, e, dst, k, g);
  }

  lemma {:induction false} UnaryDistinct(m: Machine, e: Expr, dst: u8, k: nat, g: Gen)
    requires WellFormed(g) && Distinct(g.names) && Faithful(m, e) && (e.Neg? || e.Not?)
    ensures DistinctAfter(Unary(e, dst, k, g))
    decreases e, 0
  {
    hide Distinct, EmitConst, Ladder;
    if k + 1 <= MAX_TEMPS {
      if e.Not? { LadderDistinct(m, e.arg, Temp(k), k + 1, g); }
      else if EmitConst(g, Temp(k), 0).Ok? && k + 2 <= MAX_TEMPS {
        LadderDistinct(m, e.arg, Temp(k + 1), k + 2, EmitConst(g, Temp(k), 0).value);
      }
    }
  }

  lemma {:induction false} TernaryDistinct(m: Machine, e: Expr, dst: u8, k: nat, g: Gen)
    requires WellFormed(g) && Distinct(g.names) && Faithful(m, e) && e.Tern?
    ensures DistinctAfter(Ternary(e, dst, k, g))
    decreases e, 0
  {
    hide Distinct, Expression, PatchHere;
    ExpressionDistinct(m, e.c, dst, k, g);
    if TernaryTest(e, dst, k, g).Ok? {
      var g1 := TernaryTest(e, dst, k, g).value;
      ExpressionDistinct(m, e.a, dst, k, g1);
      if TernaryThen(e, dst, k, g).Ok? { ExpressionDistinct(m, e.b, dst, k, TernaryThen(e, dst, k, g).value); }
    }
  }

  lemma {:induction false} ExpressionDistinct(m: Machine, e: Expr, dst: u8, k: nat, g: Gen)
    requires WellFormed(g) && Distinct(g.names) && Faithful(m, e)
    ensures DistinctAfter(Expression(e, dst, k, g))
    decreases e, 2
  {
    hide Distinct, EmitFolded, Ladder;
    LadderDistinct(m, e, dst, k, g);
  }

  lemma {:induction false} IntrinsicDistinct(m: Machine, e: Expr, dst: u8, k: nat, g: Gen)
    requires WellFormed(g) && Distinct(g.names) && Faithful(m, e) && (e.Call1? || e.Call2? || e.Clamp?)
    ensures DistinctAfter(Intrinsic(e, dst, k, g))
    decreases e, 0
  {
    hide Distinct, Expression;
    if k + 1 <= MAX_TEMPS {
      ExpressionDistinct(m, e.a0, Temp(k), k + 1, g);
      var r1 := Expression(e.a0, Temp(k), k + 1, g);
      if r1.Ok? && !e.Call1? && k + 2 <= MAX_TEMPS {
        ExpressionDistinct(m, e.a1, Temp(k + 1), k + 2, r1.value);
        var r2 := Expression(e.a1, Temp(k + 1), k + 2, r1.value);
        if r2.Ok? && e.Clamp? && k + 3 <= MAX_TEMPS { ExpressionDistinct(m, e.a2, Temp(k + 2), k + 3, r2.value); }
      }
    }
  }

  lemma SimpleDistinct(m: Machine, s: Stmt, k: nat, g: Gen)
    requires WellFormed(g) && Distinct(g.names) && FaithfulStmt(m, s)
    requires s.Let? || s.Assign? || s.Update? || s.Check? || s.Do?
    ensures DistinctAfter(Statement(s, k, g))
  {
    hide Distinct, Resolve, Declare, IndexOf, Expression, LeadNumber;
    if s.Let? || s.Assign? || s.Update? { EnterDistinct(g, s.x, s.Let? && s.mutable); }
    var r := if s.Let? then Declare(g, s.x, s.mutable) else if s.Assign? || s.Update? then Resolve(g, s.x) else Ok(g);
    if r.Ok? {
      if s.Check? || s.Do? { ExpressionDistinct(m, s.e, 0, k, g); }
      else if !s.Update? { ExpressionDistinct(m, s.e, VarReg(IndexOf(g.names, s.x)), k, r.value); }
      else if k < MAX_TEMPS { ExpressionDistinct(m, s.e, Temp(k), k + 1, r.value); }
    }
  }

  lemma {:induction false} StatementDistinct(m: Machine, s: Stmt, k: nat, g: Gen)
    requires WellFormed(g) && Distinct(g.names) && FaithfulStmt(m, s)
    ensures DistinctAfter(Statement(s, k, g))
    decreases s, 1
  {
    hide Distinct, GenTest, GenUpdate, GenLet, GenAssign, Expression;
    match s
    case Skip =>
    case Seq(s1, s2) =>
      StatementDistinct(m, s1, k, g);
      if Statement(s1, k, g).Ok? { StatementDistinct(m, s2, k, Statement(s1, k, g).value); }
    case If(_, _) => BranchDistinct(m, s, k, g);
    case IfElse(_, _, _) => BranchDistinct(m, s, k, g);
    case While(_, _) => LoopDistinct(m, s, k, g);
    case For(_, _, _, _) => LoopDistinct(m, s, k, g);
    case _ => SimpleDistinct(m, s, k, g);
  }

  lemma {:induction false} BranchDistinct(m: Machine, s: Stmt, k: nat, g: Gen)
    requires WellFormed(g) && Distinct(g.names) && FaithfulStmt(m, s) && (s.If? || s.IfElse?)
    ensures DistinctAfter(Statement(s, k, g))
    decreases s, 0
  {
    hide Distinct, Expression, Statement, WithImm, Faithful;
    if Statement(s, k, g).Ok? {
      if s.If? { IfShape(s, k, g); } else { IfElseShape(s, k, g); }
      ExpressionDistinct(m, s.c, 0, k, g);
      var g1 := GenTest(s.c, Instr(Jz, 0, 0, 0), k, g).value;
      StatementDistinct(m, s.thn, k, g1);
      if s.IfElse? { StatementDistinct(m, s.els, k, OpenElse(g, g1, Statement(s.thn, k, g1).value).value); }
    }
  }

  lemma RangeDistinct(x: string, lo: i64, hi: i64, k: nat, g: Gen)
    requires WellFormed(g) && Distinct(g.names) && |x| <= MAX_NAME
    ensures DistinctAfter(GenRange(x, lo, hi, k, g))
  {
    hide Distinct, Resolve, EmitConst, IndexOf;
    EnterDistinct(g, x, true);
  }

  lemma {:induction false} LoopDistinct(m: Machine, s: Stmt, k: nat, g: Gen)
    requires WellFormed(g) && Distinct(g.names) && FaithfulStmt(m, s) && (s.While? || s.For?)
    ensures DistinctAfter(Statement(s, k, g))
    decreases s, 0
  {
    hide Distinct, Expression, Statement, WithImm, Faithful, Iterations, Times, GenRange, IndexOf;
    if Statement(s, k, g).Ok? {
      if s.For? {
        ForShape(s, k, g);
        RangeDistinct(s.x, s.lo, s.hi, k, g);
        StatementDistinct(m, s.body, k + 1, GenRange(s.x, s.lo, s.hi, k, g).value);
      } else {
        WhileShape(s, k, g);
        ExpressionDistinct(m, s.c, 0, k, g);
        StatementDistinct(m, s.body, k, GenTest(s.c, Instr(Jz, 0, 0, 0), k, g).value);
      }
    }
  }

  /** No two variables of a compiled script share a name, if every name fits
      the table. */
  lemma ProgramDistinct(m: Machine, s: Stmt)
    requires Program(s).Ok? && FaithfulStmt(m, s)
    ensures Distinct(Program(s).value.names)
  {
    hide Statement;
    StatementDistinct(m, s, 0, Gen([], [], [], []));
  }
}
