// The integer fragment of PulseLang: expressions, their meaning, the
// compiler's constant folding, and the meaning of an expression that is
// evaluated straight into a variable's own register.

module Lang {
  import opened Words
  import opened Isa
  import opened Vm

  datatype Option<+T> = None | Some(value: T)

  datatype BinOp = Arith(f: AluOp) | LogAnd | LogOr

  datatype Fn1 = FnAbs | FnOk | FnErr | FnIsOk | FnIsErr | FnUnwrap

  datatype Fn2 = FnMin | FnMax | FnCrc32

  datatype Expr =
    | Lit(n: i64)
    | Var(x: string)
    | Paren(inner: Expr)
    | Neg(arg: Expr)
    | Not(arg: Expr)
    | Bin(op: BinOp, l: Expr, r: Expr)
    | Tern(c: Expr, a: Expr, b: Expr)
    | Call1(f1: Fn1, a0: Expr)
    | Call2(f2: Fn2, a0: Expr, a1: Expr)
    | Clamp(a0: Expr, a1: Expr, a2: Expr)

  type Env = map<string, i64>

  /** Variables that were never assigned read as zero. */
  function Get(env: Env, x: string): i64 {
    if x in env then env[x] else 0
  }

  function Apply(m: Machine, op: BinOp, x: i64, y: i64): Computed {
    match op
    case Arith(f) => AluResult(m, f, x, y)
    case LogAnd => Value(Truth(x != 0 && y != 0))
    case LogOr => Value(Truth(x != 0 || y != 0))
  }

  function Apply1(f: Fn1, x: i64): Computed {
    match f
    case FnAbs => Value(AbsWord(x))
    case FnOk => Value(ClearTag(x, ERR_TAG))
    case FnErr => Value(SetTag(x, ERR_TAG))
    case FnIsOk => Value(Truth(!Tagged(x, ERR_TAG)))
    case FnIsErr => Value(Truth(Tagged(x, ERR_TAG)))
    case FnUnwrap => if Tagged(x, ERR_TAG) then Trap(UnwrapFailed) else Value(x)
  }

  function Apply2(m: Machine, f: Fn2, x: i64, y: i64): i64 {
    match f
    case FnMin => MinWord(x, y)
    case FnMax => MaxWord(x, y)
    case FnCrc32 => m.crc(x, y)
  }

  /** The source meaning: operands left to right, `&&` and `||` evaluate both
      sides, a fault in an operand is the fault of the whole. */
  function Eval(m: Machine, e: Expr, env: Env): Computed {
    match e
    case Lit(n) => Value(n)
    case Var(x) => Value(Get(env, x))
    case Paren(i) => Eval(m, i, env)
    case Neg(a) =>
      (match Eval(m, a, env) case Value(v) => Value(Wrap(0 - v)) case t => t)
    case Not(a) =>
      (match Eval(m, a, env) case Value(v) => Value(Truth(v == 0)) case t => t)
    case Bin(op, l, r) =>
      (match Eval(m, l, env)
       case Value(v) => (match Eval(m, r, env) case Value(w) => Apply(m, op, v, w) case t => t)
       case t => t)
    case Tern(c, a, b) =>
      (match Eval(m, c, env)
       case Value(v) => if v != 0 then Eval(m, a, env) else Eval(m, b, env)
       case t => t)
    case Call1(f, a) =>
      (match Eval(m, a, env) case Value(v) => Apply1(f, v) case t => t)
    case Call2(f, a, b) =>
      (match Eval(m, a, env)
       case Value(v) => (match Eval(m, b, env) case Value(w) => Value(Apply2(m, f, v, w)) case t => t)
       case t => t)
    case Clamp(a, b, c) =>
      (match Eval(m, a, env)
       case Value(v) =>
         (match Eval(m, b, env)
          case Value(w) =>
            (match Eval(m, c, env)
             case Value(u) => Value(MinWord(MaxWord(v, w), u))
             case t => t)
          case t => t)
       case t => t)
  }

  // ---- constant folding ----------------------------------------------------

  function FoldArith(f: AluOp, a: i64, b: i64): Option<i64> {
    match f
    case Add => Some(Wrap(a + b))
    case Sub => Some(Wrap(a - b))
    case Mul => Some(Wrap(a * b))
    case Div => if b == 0 then None else Some(Wrap(QuotTowardZero(a, b)))
    case Mod => if b == 0 then None else Some(Wrap(RemTowardZero(a, b)))
    case And => Some(Logic(BitAnd, a, b))
    case Or => Some(Logic(BitOr, a, b))
    case Xor => Some(Logic(BitXor, a, b))
    case Shl => Some(Wrap(Unsigned(a) * Pow2(Unsigned(b) % 64)))
    case Shr => Some(Wrap(Unsigned(a) / Pow2(Unsigned(b) % 64)))
    case Eq => Some(Truth(a == b))
    case Ne => Some(Truth(a != b))
    case Lt => Some(Truth(a < b))
    case Le => Some(Truth(a <= b))
    case Gt => Some(Truth(a > b))
    case Ge => Some(Truth(a >= b))
  }

  /** Two constants combined at compile time; None is the compile error for a
      constant zero divisor. */
  function FoldBin(op: BinOp, a: i64, b: i64): Option<i64> {
    match op
    case Arith(f) => FoldArith(f, a, b)
    case LogAnd => Some(Truth(a != 0 && b != 0))
    case LogOr => Some(Truth(a != 0 || b != 0))
  }

  /** The constant the expression ladder returns instead of leaving a value in
      the destination register. */
  function Fold(e: Expr): Option<i64> {
    match e
    case Lit(n) => Some(n)
    case Paren(i) => Fold(i)
    case Neg(a) => (match Fold(a) case Some(b) => Some(Wrap(0 - b)) case None => None)
    case Not(a) => (match Fold(a) case Some(b) => Some(Truth(b == 0)) case None => None)
    case Bin(op, l, r) =>
      (match (Fold(l), Fold(r))
       case (Some(a), Some(b)) => FoldBin(op, a, b)
       case _ => None)
    case _ => None
  }

  /** Folding decides `==` by identity where the machine compares the bytes of
      text words, so it may only meet constants on which the two agree. */
  predicate FoldAgrees(m: Machine, op: BinOp, a: i64, b: i64) {
    op == Arith(Eq) || op == Arith(Ne) ==> (a == b || !(IsTextWord(a) && IsTextWord(b) && SameText(m, a, b)))
  }

  /** How much of a variable's name, `$` included, the compiler's table holds. */
  const MAX_NAME: nat := 16

  /** Every pair of constants the compiler folds under e is such a pair, and
      every variable's name fits the compiler's table. */
  predicate Faithful(m: Machine, e: Expr) {
    match e
    case Lit(_) => true
    case Var(x) => |x| <= MAX_NAME
    case Paren(i) => Faithful(m, i)
    case Neg(a) => Faithful(m, a)
    case Not(a) => Faithful(m, a)
    case Bin(op, l, r) =>
      Faithful(m, l) && Faithful(m, r)
      && (Fold(l).Some? && Fold(r).Some? ==> FoldAgrees(m, op, Fold(l).value, Fold(r).value))
    case Tern(c, a, b) => Faithful(m, c) && Faithful(m, a) && Faithful(m, b)
    case Call1(_, a) => Faithful(m, a)
    case Call2(_, a, b) => Faithful(m, a) && Faithful(m, b)
    case Clamp(a, b, c) => Faithful(m, a) && Faithful(m, b) && Faithful(m, c)
  }

  /** Compile-time folding gives the run-time result exactly when it does not
      compare two different text constants with the same bytes. */
  lemma FoldBinAgrees(m: Machine, op: BinOp, a: i64, b: i64)
    requires FoldBin(op, a, b).Some?
    ensures Apply(m, op, a, b) == Value(FoldBin(op, a, b).value) <==> FoldAgrees(m, op, a, b)
  {
    if op.Arith? {
      match op.f
      case Eq =>
      case Ne =>
      case _ =>
    }
  }

  /** The word for one byte of the pool. */
  function ByteWord(o: nat): (w: i64)
    requires o < 0x100_0000
  {
    STR_TAG + o * 0x1_0000_0000 + 1
  }

  lemma ByteWordParts(o: nat)
    requires o < 0x100_0000
    ensures var w := ByteWord(o);
            Tagged(w, STR_TAG) && Unsigned(w) / 0x1_0000_0000 % 0x100_0000 == o && Unsigned(w) % 0x1_0000_0000 == 1
  {
  }

  lemma ByteWordText(m: Machine, o: nat)
    requires o < 0x100_0000 && o < |m.strPool|
    ensures IsTextWord(ByteWord(o)) && TextOf(m, ByteWord(o)) == Text([m.strPool[o]])
  {
    hide Tagged, Unsigned, ByteWord;
    ByteWordParts(o);
    assert m.strPool[o..o + 1] == [m.strPool[o]];
  }

  /** Two text constants with the same byte at different places: folding calls
      them different, the machine equal. */
  lemma FoldDiffers(m: Machine, o: nat, p: nat)
    requires o < p < 0x100_0000 && p < |m.strPool| && m.strPool[o] == m.strPool[p]
    ensures FoldBin(Arith(Eq), ByteWord(o), ByteWord(p)) == Some(0)
    ensures Apply(m, Arith(Eq), ByteWord(o), ByteWord(p)) == Value(1)
  {
    hide TextOf, IsTextWord;
    ByteWordText(m, o);
    ByteWordText(m, p);
  }

  /** Where folding is safe the folded constant is the source value. */
  lemma {:induction false} FoldIsEval(m: Machine, e: Expr, env: Env)
    requires Faithful(m, e) && Fold(e).Some?
    ensures Eval(m, e, env) == Value(Fold(e).value)
  {
    match e
    case Lit(_) =>
    case Paren(i) => FoldIsEval(m, i, env);
    case Neg(a) => FoldIsEval(m, a, env);
    case Not(a) => FoldIsEval(m, a, env);
    case Bin(op, l, r) =>
      FoldIsEval(m, l, env);
      FoldIsEval(m, r, env);
      FoldBinAgrees(m, op, Fold(l).value, Fold(r).value);
  }

  // ---- evaluation into a variable's own register -------------------------

  /** The environment after a partial result has been left in the target. */
  function Spoil(tgt: Option<string>, env: Env, v: i64): Env {
    match tgt
    case Some(x) => env[x := v]
    case None => env
  }

  /** The value left in the destination when it is the register of variable
      tgt: once the left operand of an operator, or the condition of a
      ternary, has been written there, later reads of tgt see that partial
      result. A left operand that folds is not written. */
  function EvalInto(m: Machine, e: Expr, tgt: Option<string>, env: Env): Computed {
    match e
    case Paren(i) => EvalInto(m, i, tgt, env)
    case Bin(op, l, r) =>
      (match EvalInto(m, l, tgt, env)
       case Value(v) =>
         var env1 := if Fold(l).Some? then env else Spoil(tgt, env, v);
         (match Eval(m, r, env1) case Value(w) => Apply(m, op, v, w) case t => t)
       case t => t)
    case Tern(c, a, b) =>
      (match EvalInto(m, c, tgt, env)
       case Value(v) => EvalInto(m, if v != 0 then a else b, tgt, Spoil(tgt, env, v))
       case t => t)
    case _ => Eval(m, e, env)
  }

  predicate Reads(e: Expr, x: string) {
    match e
    case Lit(_) => false
    case Var(y) => x == y
    case Paren(i) => Reads(i, x)
    case Neg(a) => Reads(a, x)
    case Not(a) => Reads(a, x)
    case Bin(_, l, r) => Reads(l, x) || Reads(r, x)
    case Tern(c, a, b) => Reads(c, x) || Reads(a, x) || Reads(b, x)
    case Call1(_, a) => Reads(a, x)
    case Call2(_, a, b) => Reads(a, x) || Reads(b, x)
    case Clamp(a, b, c) => Reads(a, x) || Reads(b, x) || Reads(c, x)
  }

  /** e is the variable x, possibly in parentheses. */
  predicate IsVar(e: Expr, x: string) {
    match e
    case Var(y) => x == y
    case Paren(i) => IsVar(i, x)
    case _ => false
  }

  /** No read of x happens after a partial result other than x's own value was
      left in its register. */
  predicate ReadsInTime(e: Expr, x: string) {
    match e
    case Paren(i) => ReadsInTime(i, x)
    case Bin(_, l, r) => ReadsInTime(l, x) && (Fold(l).Some? || IsVar(l, x) || !Reads(r, x))
    case Tern(c, a, b) =>
      ReadsInTime(c, x)
      && (if IsVar(c, x) then ReadsInTime(a, x) && ReadsInTime(b, x) else !Reads(a, x) && !Reads(b, x))
    case _ => true
  }

  /** Both environments give every variable the same value. */
  ghost predicate SameGets(a: Env, b: Env) {
    forall y :: Get(a, y) == Get(b, y)
  }

  lemma {:induction false} EvalSameGets(m: Machine, e: Expr, a: Env, b: Env)
    requires SameGets(a, b)
    ensures Eval(m, e, a) == Eval(m, e, b)
  {
    hide Get;
    match e
    case Lit(_) =>
    case Var(_) =>
    case Paren(i) => EvalSameGets(m, i, a, b);
    case Neg(i) => EvalSameGets(m, i, a, b);
    case Not(i) => EvalSameGets(m, i, a, b);
    case Bin(_, l, r) => EvalSameGets(m, l, a, b); EvalSameGets(m, r, a, b);
    case Tern(c, t, f) => EvalSameGets(m, c, a, b); EvalSameGets(m, t, a, b); EvalSameGets(m, f, a, b);
    case Call1(_, i) => EvalSameGets(m, i, a, b);
    case Call2(_, i, j) => EvalSameGets(m, i, a, b); EvalSameGets(m, j, a, b);
    case Clamp(i, j, k) => EvalSameGets(m, i, a, b); EvalSameGets(m, j, a, b); EvalSameGets(m, k, a, b);
  }

  /** A variable assigned to itself is not spoilt. */
  lemma {:induction false} OwnValue(m: Machine, l: Expr, x: string, env: Env)
    requires IsVar(l, x)
    ensures Eval(m, l, env) == Value(Get(env, x)) && SameGets(env[x := Get(env, x)], env)
  {
    if l.Paren? { OwnValue(m, l.inner, x, env); }
  }

  lemma {:induction false} UnreadIsIrrelevant(m: Machine, e: Expr, x: string, v: i64, env: Env)
    requires !Reads(e, x)
    ensures Eval(m, e, env[x := v]) == Eval(m, e, env)
  {
    match e
    case Lit(_) =>
    case Var(_) =>
    case Paren(i) => UnreadIsIrrelevant(m, i, x, v, env);
    case Neg(a) => UnreadIsIrrelevant(m, a, x, v, env);
    case Not(a) => UnreadIsIrrelevant(m, a, x, v, env);
    case Bin(_, l, r) => UnreadIsIrrelevant(m, l, x, v, env); UnreadIsIrrelevant(m, r, x, v, env);
    case Tern(c, a, b) =>
      UnreadIsIrrelevant(m, c, x, v, env);
      UnreadIsIrrelevant(m, a, x, v, env);
      UnreadIsIrrelevant(m, b, x, v, env);
    case Call1(_, a) => UnreadIsIrrelevant(m, a, x, v, env);
    case Call2(_, a, b) => UnreadIsIrrelevant(m, a, x, v, env); UnreadIsIrrelevant(m, b, x, v, env);
    case Clamp(a, b, c) =>
      UnreadIsIrrelevant(m, a, x, v, env);
      UnreadIsIrrelevant(m, b, x, v, env);
      UnreadIsIrrelevant(m, c, x, v, env);
  }

  lemma {:induction false} EvalIntoNothing(m: Machine, e: Expr, env: Env)
    ensures EvalInto(m, e, None, env) == Eval(m, e, env)
  {
    match e
    case Paren(i) => EvalIntoNothing(m, i, env);
    case Bin(_, l, _) => EvalIntoNothing(m, l, env);
    case Tern(c, a, b) =>
      EvalIntoNothing(m, c, env);
      EvalIntoNothing(m, a, env);
      EvalIntoNothing(m, b, env);
    case _ =>
  }

  lemma {:induction false} UnreadIntoIsEval(m: Machine, e: Expr, x: string, env: Env)
    requires !Reads(e, x)
    ensures EvalInto(m, e, Some(x), env) == Eval(m, e, env)
  {
    match e
    case Paren(i) => UnreadIntoIsEval(m, i, x, env);
    case Bin(_, l, r) =>
      UnreadIntoIsEval(m, l, x, env);
      if Eval(m, l, env).Value? {
        UnreadIsIrrelevant(m, r, x, Eval(m, l, env).v, env);
      }
    case Tern(c, a, b) =>
      UnreadIntoIsEval(m, c, x, env);
      if Eval(m, c, env).Value? {
        var v := Eval(m, c, env).v;
        var e' := if v != 0 then a else b;
        UnreadIntoIsEval(m, e', x, env[x := v]);
        UnreadIsIrrelevant(m, e', x, v, env);
      }
    case _ =>
  }

  /** Evaluation in place is evaluation, as long as reads come in time. */
  lemma {:induction false} EvalIntoIsEval(m: Machine, e: Expr, x: string, env: Env)
    requires ReadsInTime(e, x)
    ensures EvalInto(m, e, Some(x), env) == Eval(m, e, env)
  {
    match e
    case Paren(i) => EvalIntoIsEval(m, i, x, env);
    case Bin(_, l, r) =>
      EvalIntoIsEval(m, l, x, env);
      if Fold(l).None? && Eval(m, l, env).Value? {
        var v := Eval(m, l, env).v;
        if IsVar(l, x) {
          OwnValue(m, l, x, env);
          EvalSameGets(m, r, env[x := v], env);
        } else {
          UnreadIsIrrelevant(m, r, x, v, env);
        }
      }
    case Tern(c, a, b) =>
      EvalIntoIsEval(m, c, x, env);
      if Eval(m, c, env).Value? {
        var v := Eval(m, c, env).v;
        var e1 := if v != 0 then a else b;
        if IsVar(c, x) {
          OwnValue(m, c, x, env);
          EvalIntoIsEval(m, e1, x, env[x := v]);
          EvalSameGets(m, e1, env[x := v], env);
        } else {
          UnreadIntoIsEval(m, e1, x, env[x := v]);
          UnreadIsIrrelevant(m, e1, x, v, env);
        }
      }
    case _ =>
  }
}
