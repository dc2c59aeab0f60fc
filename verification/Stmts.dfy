// Statements of the integer fragment and their big-step meaning. Loops are
// counted down by `fuel`, so that a diverging program runs out of every fuel.

module Stmts {
  import opened Words
  import opened Isa
  import opened Vm
  import opened Lang

  datatype Stmt =
    | Skip
    | Seq(s1: Stmt, s2: Stmt)
    | Let(x: string, mutable: bool, e: Expr)
    | Assign(x: string, e: Expr)
    | Update(x: string, plus: bool, e: Expr)
    | Check(e: Expr)
    | Do(e: Expr)
    | If(c: Expr, thn: Stmt)
    | IfElse(c: Expr, thn: Stmt, els: Stmt)
    | While(c: Expr, body: Stmt)
    | For(x: string, lo: i64, hi: i64, body: Stmt)

  datatype Exit = Done(env: Env) | Fail(f: Fault) | OutOfFuel

  /** The value a variable receives; `inPlace` is the compiler's evaluation
      straight into its register. */
  function Assigned(m: Machine, e: Expr, x: string, env: Env, inPlace: bool): Computed {
    if inPlace then EvalInto(m, e, Some(x), env) else Eval(m, e, env)
  }

  function Store(x: string, c: Computed, env: Env): Exit {
    match c
    case Value(v) => Done(env[x := v])
    case Trap(f) => Fail(f)
  }

  function Updated(plus: bool, x: i64, v: i64): i64 {
    if plus then Wrap(x + v) else Wrap(x - v)
  }

  /** The loop variable's increment. */
  function Bump(x: string, env: Env): Env {
    env[x := Wrap(Get(env, x) + 1)]
  }

  function Meaning(m: Machine, s: Stmt, env: Env, fuel: nat, inPlace: bool): Exit
    decreases fuel, s, 0
  {
    match s
    case Skip => Done(env)
    case Seq(s1, s2) =>
      (match Meaning(m, s1, env, fuel, inPlace)
       case Done(env1) => Meaning(m, s2, env1, fuel, inPlace)
       case x => x)
    case Let(x, _, e) => Store(x, Assigned(m, e, x, env, inPlace), env)
    case Assign(x, e) => Store(x, Assigned(m, e, x, env, inPlace), env)
    case Update(x, plus, e) =>
      (match Eval(m, e, env)
       case Value(v) => Done(env[x := Updated(plus, Get(env, x), v)])
       case Trap(f) => Fail(f))
    case Check(e) =>
      (match Eval(m, e, env)
       case Value(v) => if v == 0 then Fail(AssertionFailed) else Done(env)
       case Trap(f) => Fail(f))
    case Do(e) =>
      (match Eval(m, e, env) case Value(_) => Done(env) case Trap(f) => Fail(f))
    case If(c, thn) =>
      (match Eval(m, c, env)
       case Value(v) => if v != 0 then Meaning(m, thn, env, fuel, inPlace) else Done(env)
       case Trap(f) => Fail(f))
    case IfElse(c, thn, els) =>
      (match Eval(m, c, env)
       case Value(v) => if v != 0 then Meaning(m, thn, env, fuel, inPlace) else Meaning(m, els, env, fuel, inPlace)
       case Trap(f) => Fail(f))
    case While(c, body) =>
      (match Eval(m, c, env)
       case Value(v) =>
         if v == 0 then Done(env)
         else if fuel == 0 then OutOfFuel
         else
           (match Meaning(m, body, env, fuel, inPlace)
            case Done(env1) => Meaning(m, s, env1, fuel - 1, inPlace)
            case x => x)
       case Trap(f) => Fail(f))
    case For(x, lo, hi, body) => Rounds(m, x, hi, body, env[x := lo], fuel, inPlace)
  }

  /** The rounds of a range loop, from a test of its variable on. */
  function Rounds(m: Machine, x: string, hi: i64, body: Stmt, env: Env, fuel: nat, inPlace: bool): Exit
    decreases fuel, body, 1
  {
    if Get(env, x) >= hi then Done(env)
    else if fuel == 0 then OutOfFuel
    else
      match Meaning(m, body, env, fuel, inPlace)
      case Done(env1) => Rounds(m, x, hi, body, Bump(x, env1), fuel - 1, inPlace)
      case r => r
  }

  // ---- when evaluation in place makes no difference ------------------------

  predicate AssignsInTime(s: Stmt) {
    match s
    case Let(x, _, e) => ReadsInTime(e, x)
    case Assign(x, e) => ReadsInTime(e, x)
    case Seq(s1, s2) => AssignsInTime(s1) && AssignsInTime(s2)
    case If(_, t) => AssignsInTime(t)
    case IfElse(_, t, e) => AssignsInTime(t) && AssignsInTime(e)
    case While(_, b) => AssignsInTime(b)
    case For(_, _, _, b) => AssignsInTime(b)
    case _ => true
  }

  lemma {:induction false} InPlaceIsSource(m: Machine, s: Stmt, env: Env, fuel: nat)
    requires AssignsInTime(s)
    ensures Meaning(m, s, env, fuel, true) == Meaning(m, s, env, fuel, false)
    decreases fuel, s, 0
  {
    match s
    case Let(x, _, e) => EvalIntoIsEval(m, e, x, env);
    case Assign(x, e) => EvalIntoIsEval(m, e, x, env);
    case Seq(s1, s2) =>
      InPlaceIsSource(m, s1, env, fuel);
      if Meaning(m, s1, env, fuel, false).Done? { InPlaceIsSource(m, s2, Meaning(m, s1, env, fuel, false).env, fuel); }
    case If(_, t) => InPlaceIsSource(m, t, env, fuel);
    case IfElse(_, t, e) => InPlaceIsSource(m, t, env, fuel); InPlaceIsSource(m, e, env, fuel);
    case While(_, b) =>
      InPlaceIsSource(m, b, env, fuel);
      if fuel > 0 && Meaning(m, b, env, fuel, false).Done? {
        InPlaceIsSource(m, s, Meaning(m, b, env, fuel, false).env, fuel - 1);
      }
    case For(x, lo, hi, b) => RoundsInPlace(m, x, hi, b, env[x := lo], fuel);
    case _ =>
  }

  lemma {:induction false} RoundsInPlace(m: Machine, x: string, hi: i64, b: Stmt, env: Env, fuel: nat)
    requires AssignsInTime(b)
    ensures Rounds(m, x, hi, b, env, fuel, true) == Rounds(m, x, hi, b, env, fuel, false)
    decreases fuel, b, 1
  {
    hide Meaning, Bump, AssignsInTime;
    InPlaceIsSource(m, b, env, fuel);
    if fuel > 0 && Meaning(m, b, env, fuel, false).Done? {
      var env1 := Meaning(m, b, env, fuel, false).env;
      RoundsInPlace(m, x, hi, b, Bump(x, env1), fuel - 1);
    }
  }

  // ---- folding under statements --------------------------------------------

  predicate FaithfulStmt(m: Machine, s: Stmt) {
    match s
    case Skip => true
    case Let(x, _, e) => |x| <= MAX_NAME && Faithful(m, e)
    case Assign(x, e) => |x| <= MAX_NAME && Faithful(m, e)
    case Update(x, _, e) => |x| <= MAX_NAME && Faithful(m, e)
    case Check(e) => Faithful(m, e)
    case Do(e) => Faithful(m, e)
    case Seq(s1, s2) => FaithfulStmt(m, s1) && FaithfulStmt(m, s2)
    case If(c, t) => Faithful(m, c) && FaithfulStmt(m, t)
    case IfElse(c, t, e) => Faithful(m, c) && FaithfulStmt(m, t) && FaithfulStmt(m, e)
    case While(c, b) => Faithful(m, c) && FaithfulStmt(m, b)
    case For(x, _, _, b) => |x| <= MAX_NAME && FaithfulStmt(m, b)
  }
}
