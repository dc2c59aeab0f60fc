// The code emitted for statements: structured control flow becomes forward
// jumps patched when their target is reached and backward jumps to recorded
// positions.

module StmtGen {
  import opened Words
  import opened Isa
  import opened Vm
  import opened Lang
  import opened Stmts
  import opened Codegen

  /** The number token an expression's text starts with, if it does. */
  function LeadNumber(e: Expr): Option<i64> {
    match e
    case Lit(n) => Some(n)
    case Bin(_, l, _) => LeadNumber(l)
    case Tern(c, _, _) => LeadNumber(c)
    case _ => None
  }

  /** Enters x, or re-declares it with a new mutability. */
  function Declare(g: Gen, x: string, mutable: bool): (r: Result<Gen>)
    requires WellFormed(g)
    ensures Grown(g, r)
    ensures r.Ok? ==> IndexOf(g.names, x) < |r.value.names|
                      && (|x| <= MAX_NAME ==> r.value.names[IndexOf(g.names, x)] == x)
                      && r.value.code == g.code && r.value.pool == g.pool
  {
    var i := IndexOf(g.names, x);
    if i < |g.names| then Ok(g.(muts := g.muts[i := mutable]))
    else if |g.names| >= MAX_GPR_VARS then Err(MaxVarsExceeded)
    else Ok(g.(names := g.names + [Stored(x)], muts := g.muts + [mutable]))
  }

  /** Assignment is refused to immutable variables, except that names starting
      with `$r` are never checked. */
  function CheckMutation(g: Gen, x: string): Result<()>
    requires WellFormed(g)
  {
    if "$r" <= x then Ok(())
    else if IndexOf(g.names, x) < |g.names| && !g.muts[IndexOf(g.names, x)] then Err(MutabilityViolation)
    else Ok(())
  }

  /** `$x += e`: a small literal becomes an immediate, and nothing may follow
      it; anything else goes through a scratch register. */
  function GenUpdate(x: string, plus: bool, e: Expr, k: nat, g: Gen): (r: Result<Gen>)
    requires WellFormed(g)
    ensures Grown(g, r)
  {
    var g1 :- Resolve(g, x);
    var _ :- CheckMutation(g1, x);
    var reg := VarReg(IndexOf(g.names, x));
    match LeadNumber(e)
    case Some(n) =>
      if 0 <= n <= 255 then
        if e == Lit(n) then Emit(g1, Instr(if plus then AddI else SubI, reg, reg, n))
        else Err(MissingSemicolon)
      else UpdateByReg(reg, plus, e, k, g1)
    case None => UpdateByReg(reg, plus, e, k, g1)
  }

  function UpdateByReg(reg: u8, plus: bool, e: Expr, k: nat, g: Gen): (r: Result<Gen>)
    requires WellFormed(g)
    ensures Grown(g, r)
  {
    var _ :- NeedTemps(k + 1);
    var g1 :- Expression(e, Temp(k), k + 1, g);
    Emit(g1, Instr(Alu(if plus then Add else Sub), reg, reg, Temp(k)))
  }

  function GenAssign(x: string, e: Expr, k: nat, g: Gen): (r: Result<Gen>)
    requires WellFormed(g)
    ensures Grown(g, r)
  {
    var g1 :- Resolve(g, x);
    var _ :- CheckMutation(g1, x);
    Expression(e, VarReg(IndexOf(g.names, x)), k, g1)
  }

  function GenLet(x: string, mutable: bool, e: Expr, k: nat, g: Gen): (r: Result<Gen>)
    requires WellFormed(g)
    ensures Grown(g, r)
  {
    var g1 :- Declare(g, x, mutable);
    Expression(e, VarReg(IndexOf(g.names, x)), k, g1)
  }

  /** An expression in register 0 followed by one cell that uses it. */
  function GenTest(e: Expr, i: Instr, k: nat, g: Gen): (r: Result<Gen>)
    requires WellFormed(g)
    ensures Grown(g, r) && (r.Ok? ==> |g.code| < |r.value.code|)
  {
    var g1 :- Expression(e, 0, k, g);
    Emit(g1, i)
  }

  /** Bounds in the variable and in a scratch register, then the loop's test
      and its exit jump; the loop starts two cells before the end. */
  function GenRange(x: string, lo: i64, hi: i64, k: nat, g: Gen): (r: Result<Gen>)
    requires WellFormed(g)
    ensures Grown(g, r) && (r.Ok? ==> |g.code| + 4 == |r.value.code|)
  {
    var g1 :- Resolve(g, x);
    var reg := VarReg(IndexOf(g.names, x));
    var g2 :- EmitConst(g1, reg, lo);
    var _ :- NeedTemps(k + 1);
    var g3 :- EmitConst(g2, Temp(k), hi);
    var g4 :- Emit(g3, Instr(Alu(Lt), 0, reg, Temp(k)));
    Emit(g4, Instr(Jz, 0, 0, 0))
  }

  function Times(a: nat, b: nat): nat { a * b }

  function Iterations(lo: i64, hi: i64): nat {
    if hi > lo then hi - lo else 0
  }

  /** The jump back to cell `start`, and the exit jump patched behind it. */
  function CloseLoop(g: Gen, start: nat, exit: nat): (r: Result<Gen>)
    requires WellFormed(g) && start <= |g.code| && exit < |g.code|
    ensures r.Ok? ==> WellFormed(r.value) && |r.value.code| == |g.code| + 1
  {
    var g1 :- Emit(g, WithImm(Jmp, 0, 4 * start));
    Ok(PatchHere(g1, exit))
  }

  function CloseRange(g: Gen, reg: u8, start: nat): (r: Result<Gen>)
    requires WellFormed(g) && start + 2 <= |g.code|
    ensures r.Ok? ==> WellFormed(r.value) && |r.value.code| == |g.code| + 2
  {
    var g1 :- Emit(g, Instr(AddI, reg, reg, 1));
    CloseLoop(g1, start, start + 1)
  }

  function Statement(s: Stmt, k: nat, g: Gen): (r: Result<Gen>)
    requires WellFormed(g)
    ensures Grown(g, r)
    decreases s, 1
  {
    match s
    case Skip => Ok(g)
    case Seq(s1, s2) =>
      var g1 :- Statement(s1, k, g);
      Statement(s2, k, g1)
    case Let(x, mutable, e) => GenLet(x, mutable, e, k, g)
    case Assign(x, e) => GenAssign(x, e, k, g)
    case Update(x, plus, e) => GenUpdate(x, plus, e, k, g)
    case Check(e) => GenTest(e, Instr(Assert, 0, 0, 0), k, g)
    case Do(e) => Expression(e, 0, k, g)
    case If(_, _) => GenIf(s, k, g)
    case IfElse(_, _, _) => GenIfElse(s, k, g)
    case While(_, _) => GenWhile(s, k, g)
    case For(_, _, _, _) => GenFor(s, k, g)
  }

  function GenIf(s: Stmt, k: nat, g: Gen): (r: Result<Gen>)
    requires WellFormed(g) && s.If?
    ensures Grown(g, r)
    decreases s, 0
  {
    var g1 :- GenTest(s.c, Instr(Jz, 0, 0, 0), k, g);
    var g2 :- Statement(s.thn, k, g1);
    PatchExtends(g, g2, |g1.code| - 1);
    Ok(PatchHere(g2, |g1.code| - 1))
  }

  function GenIfElse(s: Stmt, k: nat, g: Gen): (r: Result<Gen>)
    requires WellFormed(g) && s.IfElse?
    ensures Grown(g, r)
    decreases s, 0
  {
    var g1 :- GenTest(s.c, Instr(Jz, 0, 0, 0), k, g);
    var g2 :- Statement(s.thn, k, g1);
    var g3 :- OpenElse(g, g1, g2);
    var g4 :- Statement(s.els, k, g3);
    PatchExtends(g, g4, |g2.code|);
    Ok(PatchHere(g4, |g2.code|))
  }

  function GenWhile(s: Stmt, k: nat, g: Gen): (r: Result<Gen>)
    requires WellFormed(g) && s.While?
    ensures Grown(g, r)
    decreases s, 0
  {
    if LeadNumber(s.c).Some? && LeadNumber(s.c).value != 0 then Err(UnboundedLoop)
    else
      var g1 :- GenTest(s.c, Instr(Jz, 0, 0, 0), k, g);
      var g2 :- Statement(s.body, k, g1);
      LoopExtends(g, g2, |g.code|, |g1.code| - 1);
      CloseLoop(g2, |g.code|, |g1.code| - 1)
  }

  function GenFor(s: Stmt, k: nat, g: Gen): (r: Result<Gen>)
    requires WellFormed(g) && s.For?
    ensures Grown(g, r)
    decreases s, 0
  {
    var g1 :- GenRange(s.x, s.lo, s.hi, k, g);
    var g2 :- Statement(s.body, k + 1, g1);
    if Times(Iterations(s.lo, s.hi), |g2.code| - |g1.code| + 4) > MAX_VM_STEPS then Err(ForWcetExceeded)
    else
      RangeExtends(g, g2, VarReg(IndexOf(g.names, s.x)), |g1.code| - 2);
      CloseRange(g2, VarReg(IndexOf(g.names, s.x)), |g1.code| - 2)
  }

  /** The jump over the else branch, with the test's jump patched behind it. */
  function OpenElse(g: Gen, g1: Gen, g2: Gen): (r: Result<Gen>)
    requires WellFormed(g) && |g.code| < |g1.code| && Extends(g, g1) && Extends(g1, g2)
    ensures Grown(g, r) && (r.Ok? ==> |r.value.code| == |g2.code| + 1)
  {
    var g3 :- Emit(g2, Instr(Jmp, 0, 0, 0));
    PatchExtends(g, g3, |g1.code| - 1);
    Ok(PatchHere(g3, |g1.code| - 1))
  }

  lemma LoopExtends(g: Gen, h: Gen, start: nat, exit: nat)
    requires WellFormed(g) && Extends(g, h) && start <= |h.code| && |g.code| <= exit < |h.code|
    ensures Grown(g, CloseLoop(h, start, exit))
  {
    hide WithImm;
    var r := Emit(h, WithImm(Jmp, 0, 4 * start));
    if r.Ok? { PatchExtends(g, r.value, exit); }
  }

  lemma RangeExtends(g: Gen, h: Gen, reg: u8, start: nat)
    requires WellFormed(g) && Extends(g, h) && |g.code| <= start && start + 2 <= |h.code|
    ensures Grown(g, CloseRange(h, reg, start))
  {
    var r := Emit(h, Instr(AddI, reg, reg, 1));
    if r.Ok? { LoopExtends(g, r.value, start, start + 1); }
  }

  // ---- one level of each compound statement --------------------------------

  lemma IfShape(s: Stmt, k: nat, g: Gen)
    requires s.If? && WellFormed(g) && Statement(s, k, g).Ok?
    ensures GenTest(s.c, Instr(Jz, 0, 0, 0), k, g).Ok?
    ensures var g1 := GenTest(s.c, Instr(Jz, 0, 0, 0), k, g).value;
            && Statement(s.thn, k, g1).Ok?
            && Statement(s, k, g) == Ok(PatchHere(Statement(s.thn, k, g1).value, |g1.code| - 1))
  {
    hide GenTest, PatchHere;
    assert Statement(s, k, g) == GenIf(s, k, g);
  }

  lemma IfElseShape(s: Stmt, k: nat, g: Gen)
    requires s.IfElse? && WellFormed(g) && Statement(s, k, g).Ok?
    ensures GenTest(s.c, Instr(Jz, 0, 0, 0), k, g).Ok?
    ensures var g1 := GenTest(s.c, Instr(Jz, 0, 0, 0), k, g).value;
            && Statement(s.thn, k, g1).Ok?
            && var g2 := Statement(s.thn, k, g1).value;
            && OpenElse(g, g1, g2).Ok?
            && Statement(s.els, k, OpenElse(g, g1, g2).value).Ok?
            && Statement(s, k, g) == Ok(PatchHere(Statement(s.els, k, OpenElse(g, g1, g2).value).value, |g2.code|))
  {
    hide GenTest, PatchHere, OpenElse;
    assert Statement(s, k, g) == GenIfElse(s, k, g);
  }

  lemma WhileShape(s: Stmt, k: nat, g: Gen)
    requires s.While? && WellFormed(g) && Statement(s, k, g).Ok?
    ensures GenTest(s.c, Instr(Jz, 0, 0, 0), k, g).Ok?
    ensures var g1 := GenTest(s.c, Instr(Jz, 0, 0, 0), k, g).value;
            && Statement(s.body, k, g1).Ok?
            && Statement(s, k, g) == CloseLoop(Statement(s.body, k, g1).value, |g.code|, |g1.code| - 1)
  {
    hide GenTest, CloseLoop;
    assert Statement(s, k, g) == GenWhile(s, k, g);
  }

  lemma ForShape(s: Stmt, k: nat, g: Gen)
    requires s.For? && WellFormed(g) && Statement(s, k, g).Ok?
    ensures GenRange(s.x, s.lo, s.hi, k, g).Ok?
    ensures var g1 := GenRange(s.x, s.lo, s.hi, k, g).value;
            && Statement(s.body, k + 1, g1).Ok?
            && Times(Iterations(s.lo, s.hi), |Statement(s.body, k + 1, g1).value.code| - |g1.code| + 4) <= MAX_VM_STEPS
            && IndexOf(g.names, s.x) < MAX_GPR_VARS
            && Statement(s, k, g)
               == CloseRange(Statement(s.body, k + 1, g1).value, VarReg(IndexOf(g.names, s.x)), |g1.code| - 2)
  {
    hide GenRange, CloseRange, Iterations, Times;
    assert Statement(s, k, g) == GenFor(s, k, g);
  }

  /** A whole script: its statements and the final HALT. */
  function Program(s: Stmt): (r: Result<Gen>)
    ensures r.Ok? ==> WellFormed(r.value)
  {
    var g :- Statement(s, 0, Gen([], [], [], []));
    Emit(g, Instr(Halt, 0, 0, 0))
  }
}
