// What the mutability check is worth: a compiled script never assigns an
// immutable variable whose name it checks, so that the variable is constant.

module Immutables {
  import opened Words
  import opened Isa
  import opened Vm
  import opened Lang
  import opened Stmts
  import opened Codegen
  import opened StmtGen
  import opened StmtCorrect
  import opened Watchdog

  // ---- expressions only enter new variables ---------------------------------

  ghost predicate MutsGrow(g: Gen, r: Result<Gen>) {
    r.Ok? ==> g.muts <= r.value.muts
  }

  lemma CombineKeepsMuts(op: BinOp, dst: u8, rhs: u8, lc: Option<i64>, rc: Option<i64>, k: nat, g: Gen)
    requires WellFormed(g)
    ensures Combine(op, dst, rhs, lc, rc, k, g).Ok? ==> Combine(op, dst, rhs, lc, rc, k, g).value.muts == g.muts
  {
    hide EmitConst, FoldBin;
  }

  lemma {:induction false} LadderKeepsMuts(e: Expr, dst: u8, k: nat, g: Gen)
    requires WellFormed(g)
    ensures MutsGrow(g, Ladder(e, dst, k, g))
    decreases e, 1
  {
    hide Combine, EmitConst, Expression, IndexOf;
    match e
    case Lit(_) =>
    case Var(x) =>
    case Paren(i) => LadderKeepsMuts(i, dst, k, g);
    case Neg(_) => UnaryKeepsMuts(e, dst, k, g);
    case Not(_) => UnaryKeepsMuts(e, dst, k, g);
    case Bin(op, l, r) =>
      LadderKeepsMuts(l, dst, k, g);
      if Ladder(l, dst, k, g).Ok? && k + 1 <= MAX_TEMPS {
        var g1 := Ladder(l, dst, k, g).value;
        LadderKeepsMuts(r, Temp(k), k + 1, g1);
        if Ladder(r, Temp(k), k + 1, g1).Ok? {
          CombineKeepsMuts(op, dst, Temp(k), Fold(l), Fold(r), k + 1, Ladder(r, Temp(k), k + 1, g1).value);
        }
      }
    case Tern(_, _, _) => TernaryKeepsMuts(e, dst, k, g);
    case _ => IntrinsicKeepsMuts(e, dst, k, g);
  }

  lemma {:induction false} UnaryKeepsMuts(e: Expr, dst: u8, k: nat, g: Gen)
    requires WellFormed(g) && (e.Neg? || e.Not?)
    ensures MutsGrow(g, Unary(e, dst, k, g))
    decreases e, 0
  {
    hide EmitConst, Ladder;
    if k + 1 <= MAX_TEMPS {
      if e.Not? { LadderKeepsMuts(e.arg, Temp(k), k + 1, g); }
      else if EmitConst(g, Temp(k), 0).Ok? && k + 2 <= MAX_TEMPS {
        LadderKeepsMuts(e.arg, Temp(k + 1), k + 2, EmitConst(g, Temp(k), 0).value);
      }
    }
  }

  lemma {:induction false} TernaryKeepsMuts(e: Expr, dst: u8, k: nat, g: Gen)
    requires WellFormed(g) && e.Tern?
    ensures MutsGrow(g, Ternary(e, dst, k, g))
    decreases e, 0
  {
    hide Expression, PatchHere;
    ExpressionKeepsMuts(e.c, dst, k, g);
    if TernaryTest(e, dst, k, g).Ok? {
      var g1 := TernaryTest(e, dst, k, g).value;
      ExpressionKeepsMuts(e.a, dst, k, g1);
      if TernaryThen(e, dst, k, g).Ok? { ExpressionKeepsMuts(e.b, dst, k, TernaryThen(e, dst, k, g).value); }
    }
  }

  lemma {:induction false} ExpressionKeepsMuts(e: Expr, dst: u8, k: nat, g: Gen)
    requires WellFormed(g)
    ensures MutsGrow(g, Expression(e, dst, k, g))
    decreases e, 2
  {
    hide EmitFolded, Ladder;
    LadderKeepsMuts(e, dst, k, g);
  }

  lemma {:induction false} IntrinsicKeepsMuts(e: Expr, dst: u8, k: nat, g: Gen)
    requires WellFormed(g) && (e.Call1? || e.Call2? || e.Clamp?)
    ensures MutsGrow(g, Intrinsic(e, dst, k, g))
    decreases e, 0
  {
    hide Expression;
    if k + 1 <= MAX_TEMPS {
      ExpressionKeepsMuts(e.a0, Temp(k), k + 1, g);
      var r1 := Expression(e.a0, Temp(k), k + 1, g);
      if r1.Ok? && !e.Call1? && k + 2 <= MAX_TEMPS {
        ExpressionKeepsMuts(e.a1, Temp(k + 1), k + 2, r1.value);
        var r2 := Expression(e.a1, Temp(k + 1), k + 2, r1.value);
        if r2.Ok? && e.Clamp? && k + 3 <= MAX_TEMPS { ExpressionKeepsMuts(e.a2, Temp(k + 2), k + 3, r2.value); }
      }
    }
  }

  // ---- locked variables -------------------------------------------------------

  /** x is in the table, immutable, and its name is one that is checked. */
  ghost predicate Locked(g: Gen, x: string) {
    && IndexOf(g.names, x) < |g.names| == |g.muts| && !g.muts[IndexOf(g.names, x)]
    && !("$r" <= x)
  }

  /** s declares x anew or uses it as a loop variable. */
  predicate Reuses(s: Stmt, x: string) {
    match s
    case Let(y, _, _) => y == x
    case For(y, _, _, b) => y == x || Reuses(b, x)
    case Seq(s1, s2) => Reuses(s1, x) || Reuses(s2, x)
    case If(_, t) => Reuses(t, x)
    case IfElse(_, t, e) => Reuses(t, x) || Reuses(e, x)
    case While(_, b) => Reuses(b, x)
    case _ => false
  }

  /** The variable stays locked in whatever was compiled behind g. */
  ghost predicate StaysLocked(g: Gen, r: Result<Gen>, x: string) {
    Locked(g, x) && r.Ok? ==> Locked(r.value, x)
  }

  lemma {:induction false} SameIndex(a: seq<string>, b: seq<string>, x: string)
    requires a <= b && IndexOf(a, x) < |a|
    ensures IndexOf(b, x) == IndexOf(a, x)
    decreases |a|
  {
    if a[0] != x { SameIndex(a[1..], b[1..], x); }
  }

  lemma GrownStaysLocked(g: Gen, r: Result<Gen>, x: string)
    requires WellFormed(g) && Grown(g, r) && MutsGrow(g, r)
    ensures StaysLocked(g, r, x)
  {
    if Locked(g, x) && r.Ok? { SameIndex(g.names, r.value.names, x); }
  }

  lemma ExpressionStaysLocked(e: Expr, dst: u8, k: nat, g: Gen, x: string)
    requires WellFormed(g)
    ensures StaysLocked(g, Expression(e, dst, k, g), x)
  {
    ExpressionKeepsMuts(e, dst, k, g);
    GrownStaysLocked(g, Expression(e, dst, k, g), x);
  }

  lemma EnterStaysLocked(g: Gen, y: string, mutable: bool, x: string)
    requires WellFormed(g)
    ensures StaysLocked(g, Resolve(g, y), x)
    ensures x != y ==> StaysLocked(g, Declare(g, y, mutable), x)
  {
    hide IndexOf;
    if Locked(g, x) {
      if Resolve(g, y).Ok? { SameIndex(g.names, Resolve(g, y).value.names, x); }
      if Declare(g, y, mutable).Ok? { SameIndex(g.names, Declare(g, y, mutable).value.names, x); }
    }
  }

  lemma LockedRefused(g: Gen, x: string)
    requires WellFormed(g) && Locked(g, x)
    ensures Resolve(g, x) == Ok(g) && CheckMutation(g, x) == Err(MutabilityViolation)
  {
  }

  lemma SimpleStaysLocked(s: Stmt, k: nat, g: Gen, x: string)
    requires WellFormed(g) && Locked(g, x) && !Reuses(s, x) && Statement(s, k, g).Ok?
    requires s.Let? || s.Assign? || s.Update? || s.Check? || s.Do?
    ensures Locked(Statement(s, k, g).value, x) && !Writes(s, x)
  {
    if s.Update? {
      UpdateStaysLocked(s, k, g, x);
    } else if s.Check? || s.Do? {
      UseStaysLocked(s, k, g, x);
    } else {
      hide Locked, Resolve, Declare, IndexOf, Expression, CheckMutation;
      LockedRefused(g, x);
      EnterStaysLocked(g, s.x, s.Let? && s.mutable, x);
      var r := if s.Let? then Declare(g, s.x, s.mutable) else Resolve(g, s.x);
      assert r.Ok?;
      ExpressionStaysLocked(s.e, VarReg(IndexOf(g.names, s.x)), k, r.value, x);
    }
  }

  lemma UseStaysLocked(s: Stmt, k: nat, g: Gen, x: string)
    requires WellFormed(g) && Locked(g, x) && Statement(s, k, g).Ok? && (s.Check? || s.Do?)
    ensures Locked(Statement(s, k, g).value, x)
  {
    hide Locked, Expression;
    ExpressionStaysLocked(s.e, 0, k, g, x);
    LockedCode(Expression(s.e, 0, k, g).value, Statement(s, k, g).value, x);
  }

  lemma UpdateStaysLocked(s: Stmt, k: nat, g: Gen, x: string)
    requires WellFormed(g) && Locked(g, x) && Statement(s, k, g).Ok? && s.Update?
    ensures Locked(Statement(s, k, g).value, x) && s.x != x
  {
    hide Locked, Resolve, IndexOf, Expression, LeadNumber, CheckMutation;
    LockedRefused(g, x);
    EnterStaysLocked(g, s.x, false, x);
    var g1 := Resolve(g, s.x).value;
    var h := Statement(s, k, g).value;
    if k < MAX_TEMPS && Expression(s.e, Temp(k), k + 1, g1).Ok? {
      ExpressionStaysLocked(s.e, Temp(k), k + 1, g1, x);
      LockedCode(Expression(s.e, Temp(k), k + 1, g1).value, h, x);
    }
    LockedCode(g1, h, x);
  }

  /** Cells do not matter. */
  lemma LockedCode(g: Gen, h: Gen, x: string)
    ensures g.names == h.names && g.muts == h.muts ==> Locked(g, x) == Locked(h, x)
  {
  }

  // ---- statements -------------------------------------------------------------

  lemma {:induction false} StatementStaysLocked(s: Stmt, k: nat, g: Gen, x: string)
    requires WellFormed(g) && Locked(g, x) && !Reuses(s, x) && Statement(s, k, g).Ok?
    ensures Locked(Statement(s, k, g).value, x) && !Writes(s, x)
    decreases s, 1
  {
    hide Locked, GenTest, GenUpdate, GenLet, GenAssign, Expression;
    match s
    case Skip =>
    case Seq(s1, s2) =>
      StatementStaysLocked(s1, k, g, x);
      StatementStaysLocked(s2, k, Statement(s1, k, g).value, x);
    case If(_, _) => BranchStaysLocked(s, k, g, x);
    case IfElse(_, _, _) => BranchStaysLocked(s, k, g, x);
    case While(_, _) => LoopStaysLocked(s, k, g, x);
    case For(_, _, _, _) => LoopStaysLocked(s, k, g, x);
    case _ => SimpleStaysLocked(s, k, g, x);
  }

  lemma TestStaysLocked(e: Expr, i: Instr, k: nat, g: Gen, x: string)
    requires WellFormed(g) && Locked(g, x) && GenTest(e, i, k, g).Ok?
    ensures Locked(GenTest(e, i, k, g).value, x)
  {
    hide Locked, Expression;
    ExpressionStaysLocked(e, 0, k, g, x);
    LockedCode(Expression(e, 0, k, g).value, GenTest(e, i, k, g).value, x);
  }

  lemma {:induction false} BranchStaysLocked(s: Stmt, k: nat, g: Gen, x: string)
    requires WellFormed(g) && Locked(g, x) && !Reuses(s, x) && Statement(s, k, g).Ok? && (s.If? || s.IfElse?)
    ensures Locked(Statement(s, k, g).value, x) && !Writes(s, x)
    decreases s, 0
  {
    hide Locked, GenTest, Statement, WithImm;
    if s.If? { IfShape(s, k, g); } else { IfElseShape(s, k, g); }
    TestStaysLocked(s.c, Instr(Jz, 0, 0, 0), k, g, x);
    var g1 := GenTest(s.c, Instr(Jz, 0, 0, 0), k, g).value;
    StatementStaysLocked(s.thn, k, g1, x);
    var g2 := Statement(s.thn, k, g1).value;
    if s.IfElse? {
      var g3 := OpenElse(g, g1, g2).value;
      LockedCode(g2, g3, x);
      StatementStaysLocked(s.els, k, g3, x);
      LockedCode(Statement(s.els, k, g3).value, Statement(s, k, g).value, x);
    } else {
      LockedCode(g2, Statement(s, k, g).value, x);
    }
  }

  lemma RangeStaysLocked(y: string, lo: i64, hi: i64, k: nat, g: Gen, x: string)
    requires WellFormed(g) && Locked(g, x) && GenRange(y, lo, hi, k, g).Ok?
    ensures Locked(GenRange(y, lo, hi, k, g).value, x)
  {
    hide Locked, Resolve, EmitConst, IndexOf;
    EnterStaysLocked(g, y, true, x);
    LockedCode(Resolve(g, y).value, GenRange(y, lo, hi, k, g).value, x);
  }

  lemma {:induction false} LoopStaysLocked(s: Stmt, k: nat, g: Gen, x: string)
    requires WellFormed(g) && Locked(g, x) && !Reuses(s, x) && Statement(s, k, g).Ok? && (s.While? || s.For?)
    ensures Locked(Statement(s, k, g).value, x) && !Writes(s, x)
    decreases s, 0
  {
    hide Locked, GenTest, GenRange, Statement, WithImm, Iterations, Times, IndexOf;
    if s.For? {
      ForShape(s, k, g);
      RangeStaysLocked(s.x, s.lo, s.hi, k, g, x);
      var g1 := GenRange(s.x, s.lo, s.hi, k, g).value;
      StatementStaysLocked(s.body, k + 1, g1, x);
      LockedCode(Statement(s.body, k + 1, g1).value, Statement(s, k, g).value, x);
    } else {
      WhileShape(s, k, g);
      TestStaysLocked(s.c, Instr(Jz, 0, 0, 0), k, g, x);
      var g1 := GenTest(s.c, Instr(Jz, 0, 0, 0), k, g).value;
      StatementStaysLocked(s.body, k, g1, x);
      LockedCode(Statement(s.body, k, g1).value, Statement(s, k, g).value, x);
    }
  }

  // ---- whole scripts ------------------------------------------------------------

  /** A name the check covers: at most sixteen bytes, not starting with `$r`. */
  predicate Checked(x: string) { |x| <= 16 && !("$r" <= x) }

  lemma {:induction false} DeclaredIsLocked(x: string, e: Expr, k: nat, g: Gen)
    requires WellFormed(g) && Checked(x) && Statement(Let(x, false, e), k, g).Ok?
    ensures Locked(Statement(Let(x, false, e), k, g).value, x)
  {
    hide Expression;
    var h := Declare(g, x, false).value;
    DeclaredHere(g, x);
    ExpressionStaysLocked(e, VarReg(IndexOf(g.names, x)), k, h, x);
  }

  lemma DeclaredHere(g: Gen, x: string)
    requires WellFormed(g) && Checked(x) && Declare(g, x, false).Ok?
    ensures Locked(Declare(g, x, false).value, x)
  {
    var i := IndexOf(g.names, x);
    if i == |g.names| { FoundBehind(g.names, x); }
  }

  lemma {:induction false} FoundBehind(names: seq<string>, x: string)
    requires IndexOf(names, x) == |names|
    ensures IndexOf(names + [x], x) == |names|
    decreases |names|
  {
    if names != [] {
      assert (names + [x])[1..] == names[1..] + [x];
      FoundBehind(names[1..], x);
    }
  }

  /** What follows the declaration of an immutable variable with a checked name
      compiles only if it never assigns the variable, unless it declares it
      again or loops over it. The variable then keeps the value it was given,
      however long the rest runs. */
  lemma ImmutableKeepsValue(m: Machine, x: string, e: Expr, s: Stmt, k: nat, g: Gen, env: Env, fuel: nat)
    requires WellFormed(g) && Checked(x) && !Reuses(s, x)
    requires Statement(Seq(Let(x, false, e), s), k, g).Ok?
    ensures !Writes(s, x)
    ensures Meaning(m, Seq(Let(x, false, e), s), env, fuel, false).Done? ==>
              && Eval(m, e, env).Value?
              && Get(Meaning(m, Seq(Let(x, false, e), s), env, fuel, false).env, x) == Eval(m, e, env).v
  {
    hide Locked, GenLet, Eval;
    var h := Statement(Let(x, false, e), k, g).value;
    DeclaredIsLocked(x, e, k, g);
    StatementStaysLocked(s, k, h, x);
    if Meaning(m, Seq(Let(x, false, e), s), env, fuel, false).Done? {
      LetThen(m, x, e, s, env, fuel);
      UnwrittenKept(m, s, x, env[x := Eval(m, e, env).v], fuel, false);
    }
  }

  lemma LetThen(m: Machine, x: string, e: Expr, s: Stmt, env: Env, fuel: nat)
    requires Meaning(m, Seq(Let(x, false, e), s), env, fuel, false).Done?
    ensures Eval(m, e, env).Value?
    ensures Meaning(m, Seq(Let(x, false, e), s), env, fuel, false)
         == Meaning(m, s, env[x := Eval(m, e, env).v], fuel, false)
  {
    hide Eval;
    assert Meaning(m, Let(x, false, e), env, fuel, false) == Store(x, Eval(m, e, env), env);
  }

  /** An assignment whose parts compile is refused exactly if its variable is
      locked, a range loop exactly if its rounds times the cells of its body plus
      four exceed 10000 or its last two cells do not fit. */
  lemma RefusedIff(x: string, e: Expr, lo: i64, hi: i64, b: Stmt, k: nat, g: Gen)
    requires WellFormed(g)
    ensures Resolve(g, x).Ok? && Expression(e, VarReg(IndexOf(g.names, x)), k, Resolve(g, x).value).Ok? ==>
              (Statement(Assign(x, e), k, g).Err? <==> Locked(g, x))
    ensures GenRange(x, lo, hi, k, g).Ok? && Statement(b, k + 1, GenRange(x, lo, hi, k, g).value).Ok? ==>
              var g1 := GenRange(x, lo, hi, k, g).value;
              var g2 := Statement(b, k + 1, g1).value;
              var rounds: nat := if hi <= lo then 0 else (hi as int) - (lo as int);
              (Statement(For(x, lo, hi, b), k, g).Err? <==>
                rounds * (|g2.code| - |g1.code| + 4) > 10000 || 4 * |g2.code| + 8 > 4096)
  {
    hide Expression, GenRange, WithImm;
    AssignRefused(x, e, k, g);
    if GenRange(x, lo, hi, k, g).Ok? && Statement(b, k + 1, GenRange(x, lo, hi, k, g).value).Ok? {
      RangeRefused(x, lo, hi, b, k, g);
    }
  }

  lemma AssignRefused(x: string, e: Expr, k: nat, g: Gen)
    requires WellFormed(g)
    ensures Resolve(g, x).Ok? && Expression(e, VarReg(IndexOf(g.names, x)), k, Resolve(g, x).value).Ok? ==>
              (Statement(Assign(x, e), k, g).Err? <==> Locked(g, x))
  {
    hide Expression;
    if Locked(g, x) {
      LockedRefused(g, x);
    } else if Resolve(g, x).Ok? && IndexOf(g.names, x) == |g.names| {
      NewIsMutable(g, x);
    }
  }

  lemma NewIsMutable(g: Gen, x: string)
    requires WellFormed(g) && Resolve(g, x).Ok? && IndexOf(g.names, x) == |g.names|
    ensures CheckMutation(Resolve(g, x).value, x).Ok?
  {
    var names := Resolve(g, x).value.names;
    assert forall j :: 0 <= j < |g.names| ==> names[j] != x;
  }

  lemma RangeRefused(x: string, lo: i64, hi: i64, b: Stmt, k: nat, g: Gen)
    requires WellFormed(g) && GenRange(x, lo, hi, k, g).Ok?
    requires Statement(b, k + 1, GenRange(x, lo, hi, k, g).value).Ok?
    ensures var g1 := GenRange(x, lo, hi, k, g).value;
            var g2 := Statement(b, k + 1, g1).value;
            var rounds: nat := if hi <= lo then 0 else (hi as int) - (lo as int);
            (Statement(For(x, lo, hi, b), k, g).Err? <==>
              rounds * (|g2.code| - |g1.code| + 4) > 10000 || 4 * |g2.code| + 8 > 4096)
  {
    hide GenRange, WithImm, IndexOf, Times, Statement;
    var g1 := GenRange(x, lo, hi, k, g).value;
    var g2 := Statement(b, k + 1, g1).value;
    TimesIs(Iterations(lo, hi), |g2.code| - |g1.code| + 4);
    ForIs(x, lo, hi, b, k, g);
  }

  lemma TimesIs(a: nat, b: nat)
    ensures Times(a, b) == a * b
  {
  }

  lemma ForIs(x: string, lo: i64, hi: i64, b: Stmt, k: nat, g: Gen)
    requires WellFormed(g)
    ensures Statement(For(x, lo, hi, b), k, g) == GenFor(For(x, lo, hi, b), k, g)
  {
    hide GenRange, CloseRange, Times, Iterations;
  }

  /** `let x = a; x = b;` compiles exactly if the check does not cover the name. */
  function TwoValues(x: string, a: i64, b: i64): Stmt {
    Seq(Let(x, false, Lit(a)), Assign(x, Lit(b)))
  }

  /** The compiler after `let x = a;` at the start of a script. */
  lemma FirstValue(x: string, a: u8)
    ensures var r := Statement(Let(x, false, Lit(a)), 0, Gen([], [], [], []));
            r.Ok? && |r.value.code| == 1 && r.value.names == [Stored(x)] && r.value.muts == [false]
  {
    hide EmitConst;
    var g := Gen([], [], [], []);
    var h := Declare(g, x, false).value;
    assert h == Gen([], [], [Stored(x)], [false]);
    SmallConstFits(h, 1, a);
    assert Ladder(Lit(a), 1, 0, h) == Ok(h);
  }

  lemma SecondAssigned(x: string, b: u8, g: Gen)
    requires WellFormed(g) && |g.code| == 1 && g.names == [Stored(x)] && g.muts == [false]
    ensures var r := Statement(Assign(x, Lit(b)), 0, g);
            if Checked(x) then r == Err(MutabilityViolation) else r.Ok? && |r.value.code| == 2
  {
    hide EmitConst;
    var r := Resolve(g, x);
    var i := IndexOf(g.names, x);
    assert i == if |x| <= 16 then 0 else 1;
    if !Checked(x) {
      if i == 1 { assert r.value.names == [Stored(x), Stored(x)]; }
      assert CheckMutation(r.value, x).Ok?;
      SmallConstFits(r.value, VarReg(i), b);
      assert Ladder(Lit(b), VarReg(i), 0, r.value) == Ok(r.value);
    }
  }

  lemma SecondValueIff(x: string, a: u8, b: u8)
    ensures Program(TwoValues(x, a, b)).Ok? <==> !Checked(x)
    ensures Checked(x) ==> Program(TwoValues(x, a, b)) == Err(MutabilityViolation)
  {
    FirstValue(x, a);
    var g := Statement(Let(x, false, Lit(a)), 0, Gen([], [], [], [])).value;
    SecondAssigned(x, b, g);
    hide GenLet, GenAssign, Checked;
    assert Statement(TwoValues(x, a, b), 0, Gen([], [], [], [])) == Statement(Assign(x, Lit(b)), 0, g);
  }

  /** `let x = a; for x in 0..2 { }` compiles for every name: the loop variable is
      not checked. The script ends with 2 in x. */
  lemma LoopOverImmutable(m: Machine, x: string, a: u8)
    ensures Program(Seq(Let(x, false, Lit(a)), EmptyLoop(x, 2))).Ok?
    ensures var o := Meaning(m, Seq(Let(x, false, Lit(a)), EmptyLoop(x, 2)), map[], 2, false);
            o.Done? && Get(o.env, x) == 2
  {
    hide Program, Meaning;
    LoopCompiles(x, a);
    LoopMeans(m, x, a);
  }

  lemma LoopMeans(m: Machine, x: string, a: u8)
    ensures var o := Meaning(m, Seq(Let(x, false, Lit(a)), EmptyLoop(x, 2)), map[], 2, false);
            o.Done? && Get(o.env, x) == 2
  {
    hide Rounds, Get;
    TwoRounds(m, x, map[x := a]);
    assert Meaning(m, Let(x, false, Lit(a)), map[], 2, false) == Done(map[x := a]);
    assert Meaning(m, EmptyLoop(x, 2), map[x := a], 2, false) == Rounds(m, x, 2, Skip, map[x := a][x := 0], 2, false);
  }

  lemma LoopCompiles(x: string, a: u8)
    ensures Program(Seq(Let(x, false, Lit(a)), EmptyLoop(x, 2))).Ok?
  {
    FirstValue(x, a);
    var g := Statement(Let(x, false, Lit(a)), 0, Gen([], [], [], [])).value;
    EmptyLoopAccepted(x, 2, g);
    hide GenLet, GenFor;
    assert Statement(Seq(Let(x, false, Lit(a)), EmptyLoop(x, 2)), 0, Gen([], [], [], []))
        == Statement(EmptyLoop(x, 2), 0, g);
  }

  lemma TwoRounds(m: Machine, x: string, env: Env)
    ensures var o := Rounds(m, x, 2, Skip, env[x := 0], 2, false);
            o.Done? && Get(o.env, x) == 2
  {
    var e0 := env[x := 0];
    var e1, e2 := Bump(x, e0), Bump(x, Bump(x, e0));
    assert Get(e0, x) == 0 && Get(e1, x) == 1 && Get(e2, x) == 2;
    assert Rounds(m, x, 2, Skip, e2, 0, false) == Done(e2);
    assert Rounds(m, x, 2, Skip, e1, 1, false) == Rounds(m, x, 2, Skip, e2, 0, false);
    assert Rounds(m, x, 2, Skip, e0, 2, false) == Rounds(m, x, 2, Skip, e1, 1, false);
  }

  // ---- conditions that start with a number ------------------------------------

  /** The tokens of an expression's text, as far as they tell numbers from all
      others. */
  datatype Token = Number(n: i64) | Other

  function Tokens(e: Expr): (ts: seq<Token>)
    ensures |ts| > 0
  {
    match e
    case Lit(n) => [Number(n)]
    case Var(_) => [Other]
    case Paren(i) => [Other] + Tokens(i) + [Other]
    case Neg(a) => [Other] + Tokens(a)
    case Not(a) => [Other] + Tokens(a)
    case Bin(_, l, r) => Tokens(l) + [Other] + Tokens(r)
    case Tern(c, a, b) => Tokens(c) + [Other] + Tokens(a) + [Other] + Tokens(b)
    case Call1(_, a) => [Other, Other] + Tokens(a) + [Other]
    case Call2(_, a, b) => [Other, Other] + Tokens(a) + [Other] + Tokens(b) + [Other]
    case Clamp(a, b, c) => [Other, Other] + Tokens(a) + [Other] + Tokens(b) + [Other] + Tokens(c) + [Other]
  }

  lemma {:induction false} LeadIsFirst(e: Expr)
    ensures LeadNumber(e) == if Tokens(e)[0].Number? then Some(Tokens(e)[0].n) else None
  {
    match e
    case Bin(_, l, _) => LeadIsFirst(l);
    case Tern(c, _, _) => LeadIsFirst(c);
    case _ =>
  }

  /** A while loop whose parts compile and fit is refused exactly if the first
      token of its condition is a number other than zero. */
  lemma UnboundedIff(c: Expr, b: Stmt, k: nat, g: Gen)
    requires WellFormed(g) && GenTest(c, Instr(Jz, 0, 0, 0), k, g).Ok?
    requires Statement(b, k, GenTest(c, Instr(Jz, 0, 0, 0), k, g).value).Ok?
    requires 4 * |Statement(b, k, GenTest(c, Instr(Jz, 0, 0, 0), k, g).value).value.code| + 4 <= 4096
    ensures var first := Tokens(c)[0];
            && (Statement(While(c, b), k, g).Err? <==> first.Number? && first.n != 0)
            && (Statement(While(c, b), k, g).Err? ==> Statement(While(c, b), k, g) == Err(UnboundedLoop))
  {
    hide GenTest, LeadNumber, Tokens, WithImm;
    LeadIsFirst(c);
    assert Statement(While(c, b), k, g) == GenWhile(While(c, b), k, g);
  }

  /** `$x += e`: what starts with a small number must be that number, and is one
      cell that adds or subtracts it; anything else ends with a cell that works on
      a scratch register. */
  lemma UpdateCells(x: string, plus: bool, e: Expr, k: nat, g: Gen)
    requires WellFormed(g) && Statement(Update(x, plus, e), k, g).Ok?
    ensures var (first, code) := (Tokens(e)[0], Statement(Update(x, plus, e), k, g).value.code);
            if first.Number? && 0 <= first.n <= 255 then
              && |code| == |g.code| + 1 && e == Lit(first.n) && code[|g.code|].rs2 == first.n
              && code[|g.code|].op == if plus then AddI else SubI
            else
              |code| > |g.code| && code[|code| - 1].op == Alu(if plus then Add else Sub)
  {
    hide LeadNumber, Tokens, Expression, Resolve, CheckMutation;
    LeadIsFirst(e);
  }
}
