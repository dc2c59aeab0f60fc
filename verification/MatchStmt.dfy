// `match` over the variants of an enumeration or over Ok and Err: the checks
// that make it exhaustive and the chain of tests and jumps it becomes.

module MatchStmt {
  import opened Words
  import opened Bits
  import opened Isa
  import opened Vm
  import opened Lang
  import opened Stmts
  import opened Codegen
  import opened StmtGen
  import opened Simulation
  import opened ExprCorrect
  import opened StmtCorrect

  const MAX_ARMS: nat := 16
  const MAX_VARIANTS: nat := 16

  /** An arm for a variant, or for one kind of result word; a result arm binds
      a variable to the payload. */
  datatype Arm =
    | VariantArm(variant: nat, body: Stmt)
    | OkArm(bind: string, body: Stmt)
    | ErrArm(bind: string, body: Stmt)

  /** `wild` is the final `_` arm, if there is one. */
  datatype Match = Match(arms: seq<Arm>, wild: Option<Stmt>)

  // ---- what is emitted ---------------------------------------------------------

  /** The comparison of register r with a variant and the jump to the next arm. */
  function TestVariant(variant: nat, r: u8, k: nat, g: Gen): (t: Result<Gen>)
    requires WellFormed(g) && variant < MAX_VARIANTS
    ensures Grown(g, t) && (t.Ok? ==> |t.value.code| == |g.code| + 3 && k + 2 <= MAX_TEMPS)
  {
    var _ :- NeedTemps(k + 1);
    var g1 :- Emit(g, WithImm(MovImm, Temp(k), variant));
    var _ :- NeedTemps(k + 2);
    var g2 :- Emit(g1, Instr(Alu(Eq), Temp(k + 1), r, Temp(k)));
    Emit(g2, Instr(Jz, Temp(k + 1), 0, 0))
  }

  /** The test of register r for the other kind of result, the jump to the next
      arm, and the payload into the bound variable: an Ok word is unwrapped, an
      Err word is XORed with the tag. */
  function TestResult(arm: Arm, r: u8, k: nat, g: Gen): (t: Result<Gen>)
    requires WellFormed(g) && !arm.VariantArm?
    ensures Grown(g, t) && (t.Ok? ==> |t.value.code| == |g.code| + 4 && k + 1 <= MAX_TEMPS)
  {
    var _ :- NeedTemps(k + 1);
    var g1 :- Emit(g, Instr(CallNat, Temp(k), if arm.OkArm? then NATIVE_IS_ERR else NATIVE_IS_OK, r));
    var g2 :- Emit(g1, Instr(Jnz, Temp(k), 0, 0));
    var g3 :- Resolve(g2, arm.bind);
    var reg := VarReg(IndexOf(g2.names, arm.bind));
    if arm.OkArm? then
      var g4 :- Emit(g3, Instr(CallNat, Temp(k), NATIVE_UNWRAP, r));
      Emit(g4, Instr(MovReg, reg, Temp(k), 0))
    else
      var g4 :- EmitConst(g3, Temp(k), ERR_TAG);
      Emit(g4, Instr(Alu(Xor), reg, r, Temp(k)))
  }

  predicate Small(arm: Arm) {
    arm.VariantArm? ==> arm.variant < MAX_VARIANTS
  }

  /** What comes before an arm's body. */
  function TestArm(arm: Arm, r: u8, k: nat, g: Gen): (t: Result<Gen>)
    requires WellFormed(g) && Small(arm)
    ensures Grown(g, t) && (t.Ok? ==> |g.code| + TestLength(arm) <= |t.value.code| && k + 1 <= MAX_TEMPS)
  {
    if arm.VariantArm? then TestVariant(arm.variant, r, k, g) else TestResult(arm, r, k, g)
  }

  /** The cells of an arm's test, the jump to the next arm being the last. */
  function TestLength(arm: Arm): nat {
    if arm.VariantArm? then 3 else 2
  }

  /** One arm; its final jump is still to be patched, its test's is done. */
  function GenArm(arm: Arm, r: u8, k: nat, g: Gen): (a: Result<Gen>)
    requires WellFormed(g) && Small(arm)
    ensures Grown(g, a) && (a.Ok? ==> |a.value.code| > |g.code|)
  {
    var g1 :- TestArm(arm, r, k, g);
    var g2 :- Statement(arm.body, k, g1);
    var g3 :- Emit(g2, Instr(Jmp, 0, 0, 0));
    PatchExtends(g, g3, |g.code| + TestLength(arm) - 1);
    Ok(PatchHere(g3, |g.code| + TestLength(arm) - 1))
  }

  ghost predicate Variants(arms: seq<Arm>) {
    forall i :: 0 <= i < |arms| ==> Small(arms[i])
  }

  /** The variants handled once this arm is done. */
  function Seen(arm: Arm, handled: set<nat>): set<nat> {
    if arm.VariantArm? then handled + {arm.variant} else handled
  }

  /** All arms in order; a variant that is handled already is refused. */
  function GenArms(arms: seq<Arm>, r: u8, k: nat, g: Gen, handled: set<nat>): (a: Result<Gen>)
    requires WellFormed(g) && Variants(arms)
    ensures Grown(g, a)
    decreases |arms|
  {
    if arms == [] then Ok(g)
    else if arms[0].VariantArm? && arms[0].variant in handled then Err(UnreachablePattern)
    else
      var g1 :- GenArm(arms[0], r, k, g);
      GenArms(arms[1..], r, k, g1, Seen(arms[0], handled))
  }

  predicate CellsIn(cells: seq<nat>, lo: nat, hi: nat) {
    forall i :: 0 <= i < |cells| ==> lo <= cells[i] < hi
  }

  /** The cells of the arms' final jumps. */
  function ArmEnds(arms: seq<Arm>, r: u8, k: nat, g: Gen, handled: set<nat>): (cells: seq<nat>)
    requires WellFormed(g) && Variants(arms) && GenArms(arms, r, k, g, handled).Ok?
    decreases |arms|
  {
    if arms == [] then []
    else
      var g1 := GenArm(arms[0], r, k, g).value;
      [|g1.code| - 1] + ArmEnds(arms[1..], r, k, g1, Seen(arms[0], handled))
  }

  function GenWild(wild: Option<Stmt>, k: nat, g: Gen): (a: Result<Gen>)
    requires WellFormed(g)
    ensures Grown(g, a) && (a.Ok? && wild.Some? ==> |a.value.code| > |g.code|)
  {
    match wild
    case None => Ok(g)
    case Some(body) =>
      var g1 :- Statement(body, k, g);
      Emit(g1, Instr(Jmp, 0, 0, 0))
  }

  function WildEnds(wild: Option<Stmt>, k: nat, g: Gen): (cells: seq<nat>)
    requires WellFormed(g) && GenWild(wild, k, g).Ok?
  {
    if wild.None? then [] else [|GenWild(wild, k, g).value.code| - 1]
  }

  function PatchAll(g: Gen, cells: seq<nat>, target: nat): (h: Gen)
    requires CellsIn(cells, 0, |g.code|) && 4 * target < 0x1_0000
    ensures |h.code| == |g.code| && h.pool == g.pool && h.names == g.names && h.muts == g.muts
    decreases |cells|
  {
    if cells == [] then g else PatchAll(Patch(g, cells[0], 4 * target), cells[1..], target)
  }

  /** The variants of the arms. */
  function Handled(arms: seq<Arm>): set<nat> {
    set i | 0 <= i < |arms| && arms[i].VariantArm? :: arms[i].variant
  }

  predicate HasVariant(arms: seq<Arm>) { exists i :: 0 <= i < |arms| && arms[i].VariantArm? }

  predicate HasOk(arms: seq<Arm>) { exists i :: 0 <= i < |arms| && arms[i].OkArm? }

  predicate HasErr(arms: seq<Arm>) { exists i :: 0 <= i < |arms| && arms[i].ErrArm? }

  /** With an arm for a variant, every variant is handled; without one, both
      kinds of result are; or there is a wildcard. */
  predicate Exhaustive(x: Match, variants: nat) {
    || x.wild.Some?
    || (if HasVariant(x.arms) then forall v :: 0 <= v < variants ==> v in Handled(x.arms)
        else HasOk(x.arms) && HasErr(x.arms))
  }

  /** The cells of all final jumps lie in the emitted code, in order. */
  lemma {:induction false} ArmEndsInside(arms: seq<Arm>, r: u8, k: nat, g: Gen, handled: set<nat>)
    requires WellFormed(g) && Variants(arms) && GenArms(arms, r, k, g, handled).Ok?
    ensures CellsIn(ArmEnds(arms, r, k, g, handled), |g.code|, |GenArms(arms, r, k, g, handled).value.code|)
    decreases |arms|
  {
    hide GenArm;
    if arms != [] {
      ArmEndsInside(arms[1..], r, k, GenArm(arms[0], r, k, g).value, Seen(arms[0], handled));
    }
  }

  lemma EndsInside(x: Match, r: u8, k: nat, g: Gen, g2: Gen)
    requires WellFormed(g) && Variants(x.arms) && GenArms(x.arms, r, k, g, {}) == Ok(g2) && GenWild(x.wild, k, g2).Ok?
    ensures CellsIn(ArmEnds(x.arms, r, k, g, {}) + WildEnds(x.wild, k, g2), 0, |GenWild(x.wild, k, g2).value.code|)
  {
    hide GenArms, ArmEnds, GenWild;
    ArmEndsInside(x.arms, r, k, g, {});
  }

  /** All arms, their final jumps leading behind the last. */
  function GenAll(x: Match, r: u8, k: nat, g: Gen): (a: Result<Gen>)
    requires WellFormed(g) && Variants(x.arms)
    ensures a.Ok? ==> WellFormed(a.value)
  {
    var g2 :- GenArms(x.arms, r, k, g, {});
    var g3 :- GenWild(x.wild, k, g2);
    EndsInside(x, r, k, g, g2);
    Ok(PatchAll(g3, ArmEnds(x.arms, r, k, g, {}) + WildEnds(x.wild, k, g2), |g3.code|))
  }

  /** The whole statement: the scrutinee in a scratch register that stays taken. */
  function GenMatch(e: Expr, x: Match, variants: nat, k: nat, g: Gen): (a: Result<Gen>)
    requires WellFormed(g) && Variants(x.arms)
    ensures a.Ok? ==> WellFormed(a.value)
  {
    var _ :- NeedTemps(k + 1);
    var g1 :- Expression(e, Temp(k), k + 1, g);
    if |x.arms| + (if x.wild.Some? then 1 else 0) > MAX_ARMS then Err(MaxMatchArmsExceeded)
    else
      var h :- GenAll(x, Temp(k), k + 1, g1);
      if Exhaustive(x, variants) then Ok(h) else Err(NonExhaustiveMatch)
  }

  // ---- what it means ---------------------------------------------------------

  /** Whether an arm is for word w. */
  predicate Takes(arm: Arm, w: i64) {
    match arm
    case VariantArm(n, _) => w == n
    case OkArm(_, _) => !Tagged(w, ERR_TAG)
    case ErrArm(_, _) => Tagged(w, ERR_TAG)
  }

  /** The payload of a result is the word without its tag. */
  function Binding(arm: Arm, w: i64, env: Env): Env {
    if arm.VariantArm? then env else env[arm.bind := ClearTag(w, ERR_TAG)]
  }

  /** The first arm for w, or the number of arms. */
  function Picks(arms: seq<Arm>, w: i64): (i: nat)
    ensures i <= |arms| && (i < |arms| ==> Takes(arms[i], w))
    ensures forall j :: 0 <= j < i ==> !Takes(arms[j], w)
  {
    if arms == [] || Takes(arms[0], w) then 0 else 1 + Picks(arms[1..], w)
  }

  function ArmMeaning(m: Machine, arm: Arm, w: i64, env: Env, fuel: nat): Exit {
    Meaning(m, arm.body, Binding(arm, w, env), fuel, true)
  }

  function MatchMeaning(m: Machine, x: Match, w: i64, env: Env, fuel: nat): Exit {
    var i := Picks(x.arms, w);
    if i < |x.arms| then ArmMeaning(m, x.arms[i], w, env, fuel)
    else if x.wild.Some? then Meaning(m, x.wild.value, env, fuel, true)
    else Done(env)
  }

  /** No variant twice. */
  predicate Unlike(arms: seq<Arm>) {
    forall i, j :: 0 <= i < j < |arms| && arms[i].VariantArm? && arms[j].VariantArm? ==>
      arms[i].variant != arms[j].variant
  }

  lemma {:induction false} ArmsUnlike(arms: seq<Arm>, r: u8, k: nat, g: Gen, handled: set<nat>)
    requires WellFormed(g) && Variants(arms)
    requires GenArms(arms, r, k, g, handled).Ok?
    ensures Unlike(arms) && forall i :: 0 <= i < |arms| && arms[i].VariantArm? ==> arms[i].variant !in handled
    decreases |arms|
  {
    hide GenArm;
    if arms != [] {
      ArmsUnlike(arms[1..], r, k, GenArm(arms[0], r, k, g).value, Seen(arms[0], handled));
      var t := arms[1..];
      assert forall i :: 1 <= i < |arms| ==> arms[i] == t[i - 1];
    }
  }

  /** Some arm or the wildcard of an accepted match takes any word a scrutinee
      can have: a variant in range if there are arms for variants, any word if
      there are not. */
  lemma SomeArm(e: Expr, x: Match, variants: nat, k: nat, g: Gen, w: i64)
    requires WellFormed(g) && Variants(x.arms) && GenMatch(e, x, variants, k, g).Ok?
    requires HasVariant(x.arms) ==> 0 <= w < variants
    ensures Picks(x.arms, w) < |x.arms| || x.wild.Some?
  {
    hide Expression, GenArms, GenAll;
    if x.wild.None? {
      if HasVariant(x.arms) { assert w in Handled(x.arms); }
      var i :| 0 <= i < |x.arms| && Takes(x.arms[i], w);
    }
  }

  /** Exactly one arm of an accepted match over variants takes a value in
      range: the one arm with that variant, or the wildcard and no other. */
  lemma ExactlyOneArm(e: Expr, x: Match, variants: nat, k: nat, g: Gen, w: i64)
    requires WellFormed(g) && Variants(x.arms) && forall i :: 0 <= i < |x.arms| ==> x.arms[i].VariantArm?
    requires GenMatch(e, x, variants, k, g).Ok? && 0 <= w < variants
    ensures var i := Picks(x.arms, w);
            && (i < |x.arms| || x.wild.Some?)
            && forall j :: 0 <= j < |x.arms| ==> (Takes(x.arms[j], w) <==> j == i)
  {
    hide Expression, GenArms, GenAll;
    SomeArm(e, x, variants, k, g, w);
    GenMatchArms(e, x, variants, k, g);
    ArmsUnlike(x.arms, Temp(k), k + 1, Expression(e, Temp(k), k + 1, g).value, {});
  }

  lemma GenMatchArms(e: Expr, x: Match, variants: nat, k: nat, g: Gen)
    requires WellFormed(g) && Variants(x.arms) && GenMatch(e, x, variants, k, g).Ok?
    ensures k < MAX_TEMPS && Expression(e, Temp(k), k + 1, g).Ok?
    ensures GenArms(x.arms, Temp(k), k + 1, Expression(e, Temp(k), k + 1, g).value, {}).Ok?
  {
    hide Expression, GenArms, GenWild, PatchAll, ArmEnds;
  }

  // ---- where the cells lie ---------------------------------------------------

  ghost predicate CellAt(m: Machine, at: nat, i: Instr) {
    4 * at + 4 <= |m.code| && Fetch(m.code, 4 * at) == i
  }

  /** The machine holds an arm that starts behind g and ends by jumping to cell exit. */
  ghost predicate ArmLaid(m: Machine, vs: seq<string>, arm: Arm, r: u8, k: nat, g: Gen, exit: nat)
    requires WellFormed(g) && Small(arm) && 4 * exit < 0x1_0000
  {
    && GenArm(arm, r, k, g).Ok? && TestArm(arm, r, k, g).Ok?
    && var g1 := TestArm(arm, r, k, g).value;
    && var b := Statement(arm.body, k, g1);
    && b.Ok? && Linked(m, vs, g1) && Loaded(m, vs, g1, b) && |b.value.code| + 1 == |GenArm(arm, r, k, g).value.code|
    && TestLaid(m, arm, r, k, g, |b.value.code| + 1)
    && CellAt(m, |b.value.code|, WithImm(Jmp, 0, 4 * exit))
  }

  /** The cells before an arm's body, the jump of its test leading to cell next. */
  ghost predicate TestLaid(m: Machine, arm: Arm, r: u8, k: nat, g: Gen, next: nat)
    requires WellFormed(g) && Small(arm)
  {
    && TestArm(arm, r, k, g).Ok? && 4 * next < 0x1_0000
    && var g1 := TestArm(arm, r, k, g).value;
    && var jump := |g.code| + TestLength(arm) - 1;
    && (forall c :: |g.code| <= c < |g1.code| && c != jump ==> CellAt(m, c, g1.code[c]))
    && CellAt(m, jump, WithImm(g1.code[jump].op, g1.code[jump].rd, 4 * next))
  }

  ghost predicate ArmsLaid(m: Machine, vs: seq<string>, arms: seq<Arm>, r: u8, k: nat, g: Gen, exit: nat)
    requires WellFormed(g) && 4 * exit < 0x1_0000 && Variants(arms)
    decreases |arms|
  {
    arms != [] ==>
      ArmLaid(m, vs, arms[0], r, k, g, exit) && ArmsLaid(m, vs, arms[1..], r, k, GenArm(arms[0], r, k, g).value, exit)
  }

  // ---- running an arm ----------------------------------------------------------

  lemma RunAt(m: Machine, st: State, at: nat, i: Instr)
    requires Valid(st) && st.ip == 4 * at && CellAt(m, at, i)
    ensures Steps(m, st, 1) == Exec(m, i, st.(ip := 4 * at + 4, tick := st.tick + 1))
  {
    hide Exec, Fetch;
    var o := Step(m, st);
    if o.Next? { assert Steps(m, o.st, 0) == o; }
  }

  /** One cell that writes v to register rd. */
  ghost predicate Wrote(m: Machine, st: State, at: nat, rd: u8, v: i64)
    requires Valid(st) && rd < NUM_REGISTERS
  {
    Steps(m, st, 1) == Next(st.(ip := 4 * at + 4, tick := st.tick + 1, regs := st.regs[rd := v]))
  }

  lemma NativeAt(m: Machine, st: State, at: nat, rd: u8, id: u8, arg: u8)
    requires Valid(st) && st.ip == 4 * at && CellAt(m, at, Instr(CallNat, rd, id, arg)) && rd < 20 && arg < 20
    ensures id == NATIVE_IS_ERR ==> Wrote(m, st, at, rd, Truth(Tagged(st.regs[arg], ERR_TAG)))
    ensures id == NATIVE_IS_OK ==> Wrote(m, st, at, rd, Truth(!Tagged(st.regs[arg], ERR_TAG)))
    ensures id == NATIVE_UNWRAP && !Tagged(st.regs[arg], ERR_TAG) ==> Wrote(m, st, at, rd, st.regs[arg])
  {
    hide Steps, Step, CellAt, Tagged;
    RunAt(m, st, at, Instr(CallNat, rd, id, arg));
  }

  lemma MoveAt(m: Machine, st: State, at: nat, rd: u8, rs: u8)
    requires Valid(st) && st.ip == 4 * at && CellAt(m, at, Instr(MovReg, rd, rs, 0)) && rd < 20 && rs < 20
    ensures Wrote(m, st, at, rd, st.regs[rs])
  {
    hide Steps, Step, CellAt;
    RunAt(m, st, at, Instr(MovReg, rd, rs, 0));
  }

  lemma LoadAt(m: Machine, st: State, at: nat, rd: u8, i: nat)
    requires Valid(st) && st.ip == 4 * at && i < |m.constPool| && i < 0x1_0000 && rd < 20
    requires CellAt(m, at, WithImm(Ldc, rd, i))
    ensures Wrote(m, st, at, rd, m.constPool[i])
  {
    hide Steps, Step, CellAt;
    RunAt(m, st, at, WithImm(Ldc, rd, i));
  }

  lemma XorAt(m: Machine, st: State, at: nat, rd: u8, a: u8, b: u8)
    requires Valid(st) && st.ip == 4 * at && CellAt(m, at, Instr(Alu(Xor), rd, a, b)) && rd < 20 && a < 20 && b < 20
    ensures Wrote(m, st, at, rd, Logic(BitXor, st.regs[a], st.regs[b]))
  {
    hide Steps, Step, CellAt, Logic;
    RunAt(m, st, at, Instr(Alu(Xor), rd, a, b));
  }

  lemma JumpIfAt(m: Machine, st: State, at: nat, rd: u8, target: nat)
    requires Valid(st) && st.ip == 4 * at && rd < 20 && target < 0x1_0000 && CellAt(m, at, WithImm(Jnz, rd, target))
    ensures Steps(m, st, 1) == Next(st.(ip := if st.regs[rd] != 0 then target else 4 * at + 4, tick := st.tick + 1))
  {
    hide Steps, Step, CellAt;
    RunAt(m, st, at, WithImm(Jnz, rd, target));
  }

  lemma SmallIsPlain(m: Machine, x: i64, c: nat)
    requires c < MAX_VARIANTS
    ensures WordsEqual(m, x, c) <==> x == c
  {
    assert Unsigned(c) == c;
    assert !Tagged(c, STR_TAG) && !Tagged(c, ARG_TAG);
  }

  /** o is where the code before an arm's body leads: after it with the payload
      bound, or after the test to cell next with nothing changed. */
  ghost predicate Tested(o: Outcome, st: State, arm: Arm, vs: seq<string>, k: nat, body: nat, next: nat,
                         w: i64, env: Env) {
    && o.Next? && Kept(st, o.st, k)
    && o.st.ip == 4 * (if Takes(arm, w) then body else next)
    && Agree(o.st.regs, vs, if Takes(arm, w) then Binding(arm, w, env) else env)
  }

  lemma ImmAt(m: Machine, st: State, at: nat, rd: u8, v: nat)
    requires Valid(st) && st.ip == 4 * at && rd < 20 && v < 0x1_0000 && CellAt(m, at, WithImm(MovImm, rd, v))
    ensures Wrote(m, st, at, rd, v)
  {
    hide Steps, Step, CellAt;
    RunAt(m, st, at, WithImm(MovImm, rd, v));
  }

  lemma EqAt(m: Machine, st: State, at: nat, rd: u8, a: u8, b: u8)
    requires Valid(st) && st.ip == 4 * at && CellAt(m, at, Instr(Alu(Eq), rd, a, b)) && rd < 20 && a < 20 && b < 20
    ensures Wrote(m, st, at, rd, Truth(WordsEqual(m, st.regs[a], st.regs[b])))
  {
    hide Steps, Step, CellAt, WordsEqual;
    RunAt(m, st, at, Instr(Alu(Eq), rd, a, b));
  }

  lemma JumpUnlessAt(m: Machine, st: State, at: nat, rd: u8, target: nat)
    requires Valid(st) && st.ip == 4 * at && rd < 20 && target < 0x1_0000 && CellAt(m, at, WithImm(Jz, rd, target))
    ensures Steps(m, st, 1) == Next(st.(ip := if st.regs[rd] == 0 then target else 4 * at + 4, tick := st.tick + 1))
  {
    hide Steps, Step, CellAt;
    RunAt(m, st, at, WithImm(Jz, rd, target));
  }

  /** The state behind the three cells of a variant's test. */
  ghost function VariantTested(st: State, at: nat, variant: nat, k: nat, next: nat, w: i64): State
    requires |st.regs| == NUM_REGISTERS && k + 2 <= MAX_TEMPS && variant < MAX_VARIANTS
  {
    st.(ip := 4 * (if w == variant then at + 3 else next), tick := st.tick + 3,
        regs := st.regs[Temp(k) := variant][Temp(k + 1) := Truth(w == variant)])
  }

  lemma VariantSteps(m: Machine, st: State, at: nat, variant: nat, r: u8, k: nat, next: nat, w: i64)
    requires Valid(st) && st.ip == 4 * at && k + 2 <= MAX_TEMPS && variant < MAX_VARIANTS && 4 * next < 0x1_0000
    requires r < 16 && r > Temp(k) && st.regs[r] == w
    requires CellAt(m, at, WithImm(MovImm, Temp(k), variant))
    requires CellAt(m, at + 1, Instr(Alu(Eq), Temp(k + 1), r, Temp(k)))
    requires CellAt(m, at + 2, WithImm(Jz, Temp(k + 1), 4 * next))
    ensures Steps(m, st, 3) == Next(VariantTested(st, at, variant, k, next, w))
  {
    hide Step, Steps, WithImm, Exec, WordsEqual, CellAt;
    ImmAt(m, st, at, Temp(k), variant);
    var s1 := Steps(m, st, 1).st;
    EqAt(m, s1, at + 1, Temp(k + 1), r, Temp(k));
    SmallIsPlain(m, w, variant);
    var s2 := Steps(m, s1, 1).st;
    JumpUnlessAt(m, s2, at + 2, Temp(k + 1), 4 * next);
    StepsCompose(m, st, 1, 1);
    StepsCompose(m, st, 2, 1);
  }

  /** The three cells of a variant's test lead to the body or behind the arm. */
  lemma VariantTestRuns(m: Machine, vs: seq<string>, st: State, arm: Arm, r: u8, k: nat, hi: nat, g: Gen, next: nat,
                        w: i64, env: Env)
    requires arm.VariantArm? && Small(arm) && AtEnd(st, g) && WellFormed(g) && TestLaid(m, arm, r, k, g, next)
    requires r < 16 && r > Temp(k) && st.regs[r] == w && k + 2 <= hi && |vs| + hi <= 15 && Agree(st.regs, vs, env)
    ensures Tested(Steps(m, st, 3), st, arm, vs, k, |TestArm(arm, r, k, g).value.code|, next, w, env)
  {
    hide Steps, WithImm, CellAt, TestArm, TestLaid, Kept, Agree, Small;
    VariantCells(m, arm, r, k, g, next);
    assert arm.variant < MAX_VARIANTS && 4 * next < 0x1_0000 by { VariantFits(m, arm, r, k, g, next); }
    VariantSteps(m, st, |g.code|, arm.variant, r, k, next, w);
    ScratchKept(st, VariantTested(st, |g.code|, arm.variant, k, next, w), vs, k, hi, env);
  }

  lemma VariantFits(m: Machine, arm: Arm, r: u8, k: nat, g: Gen, next: nat)
    requires arm.VariantArm? && Small(arm) && WellFormed(g) && TestLaid(m, arm, r, k, g, next)
    ensures arm.variant < MAX_VARIANTS && 4 * next < 0x1_0000
  {
    hide TestArm;
  }

  /** Scratch registers k to hi - 1 hold no variable and nothing that is kept. */
  lemma ScratchKept(st: State, s: State, vs: seq<string>, k: nat, hi: nat, env: Env)
    requires Valid(st) && Valid(s) && s.stack == st.stack && s.mem == st.mem
    requires |vs| + hi <= 15 && k <= hi && Agree(st.regs, vs, env)
    requires forall q :: 0 <= q < NUM_REGISTERS && !(15 - hi < q <= 15 - k) ==> s.regs[q] == st.regs[q]
    ensures Kept(st, s, k) && Agree(s.regs, vs, env)
  {
    hide ValidStack, ValidMemory;
  }

  /** The same with variable i changed to v. */
  lemma BoundKept(st: State, s: State, vs: seq<string>, k: nat, hi: nat, i: nat, v: i64, env: Env)
    requires Valid(st) && Valid(s) && s.stack == st.stack && s.mem == st.mem
    requires |vs| + hi <= 15 && k <= hi && Agree(st.regs, vs, env) && i < |vs| && s.regs[1 + i] == v
    requires forall j :: 0 <= j < |vs| && j != i ==> vs[j] != vs[i]
    requires forall q :: 0 <= q < NUM_REGISTERS && !(15 - hi < q <= 15 - k) && q != 1 + i ==> s.regs[q] == st.regs[q]
    ensures Kept(st, s, k) && Agree(s.regs, vs, env[vs[i] := v])
  {
    hide ValidStack, ValidMemory;
  }

  lemma VariantCells(m: Machine, arm: Arm, r: u8, k: nat, g: Gen, next: nat)
    requires arm.VariantArm? && Small(arm) && WellFormed(g) && TestLaid(m, arm, r, k, g, next)
    ensures k + 2 <= MAX_TEMPS && |TestArm(arm, r, k, g).value.code| == |g.code| + 3
    ensures CellAt(m, |g.code|, WithImm(MovImm, Temp(k), arm.variant))
    ensures CellAt(m, |g.code| + 1, Instr(Alu(Eq), Temp(k + 1), r, Temp(k)))
    ensures CellAt(m, |g.code| + 2, WithImm(Jz, Temp(k + 1), 4 * next))
  {
    hide WithImm, CellAt;
    var g1 := TestArm(arm, r, k, g).value;
    assert g1.code[|g.code|] == WithImm(MovImm, Temp(k), arm.variant);
    assert g1.code[|g.code| + 1] == Instr(Alu(Eq), Temp(k + 1), r, Temp(k));
    assert g1.code[|g.code| + 2] == Instr(Jz, Temp(k + 1), 0, 0);
  }

  /** The test of a result arm: on to its binding, or behind the arm. */
  lemma ResultTestRuns(m: Machine, st: State, arm: Arm, r: u8, k: nat, g: Gen, next: nat, w: i64)
    requires !arm.VariantArm? && AtEnd(st, g) && WellFormed(g) && TestLaid(m, arm, r, k, g, next)
    requires r < 16 && r > Temp(k) && st.regs[r] == w
    ensures k < MAX_TEMPS
    ensures Steps(m, st, 2)
         == Next(st.(ip := 4 * (if Takes(arm, w) then |g.code| + 2 else next), tick := st.tick + 2,
                     regs := st.regs[Temp(k) := Truth(!Takes(arm, w))]))
  {
    hide Step, Steps, WithImm, CellAt, Tagged, Exec, TestArm;
    ResultCells(m, arm, r, k, g, next);
    NativeAt(m, st, |g.code|, Temp(k), if arm.OkArm? then NATIVE_IS_ERR else NATIVE_IS_OK, r);
    var s1 := Steps(m, st, 1).st;
    JumpIfAt(m, s1, |g.code| + 1, Temp(k), 4 * next);
    StepsCompose(m, st, 1, 1);
  }

  /** The cells of a result arm before its body. */
  lemma ResultCells(m: Machine, arm: Arm, r: u8, k: nat, g: Gen, next: nat)
    requires !arm.VariantArm? && WellFormed(g) && TestLaid(m, arm, r, k, g, next)
    ensures k < MAX_TEMPS && IndexOf(g.names, arm.bind) < MAX_GPR_VARS
    ensures var g1, reg := TestArm(arm, r, k, g).value, VarReg(IndexOf(g.names, arm.bind));
            && |g1.code| == |g.code| + 4
            && IndexOf(g.names, arm.bind) < |g1.names|
            && (|arm.bind| <= MAX_NAME ==> g1.names[IndexOf(g.names, arm.bind)] == arm.bind)
            && CellAt(m, |g.code|, Instr(CallNat, Temp(k), if arm.OkArm? then NATIVE_IS_ERR else NATIVE_IS_OK, r))
            && CellAt(m, |g.code| + 1, WithImm(Jnz, Temp(k), 4 * next))
            && (arm.OkArm? ==>
                  && CellAt(m, |g.code| + 2, Instr(CallNat, Temp(k), NATIVE_UNWRAP, r))
                  && CellAt(m, |g.code| + 3, Instr(MovReg, reg, Temp(k), 0)))
            && (arm.ErrArm? ==>
                  && IndexOf(g.pool, ERR_TAG) < |g1.pool| && g1.pool[IndexOf(g.pool, ERR_TAG)] == ERR_TAG
                  && IndexOf(g.pool, ERR_TAG) < 0x1_0000
                  && CellAt(m, |g.code| + 2, WithImm(Ldc, Temp(k), IndexOf(g.pool, ERR_TAG)))
                  && CellAt(m, |g.code| + 3, Instr(Alu(Xor), reg, r, Temp(k))))
  {
    hide WithImm, CellAt, IndexOf;
    var g1 := TestArm(arm, r, k, g).value;
    assert g1.code[|g.code|] == Instr(CallNat, Temp(k), if arm.OkArm? then NATIVE_IS_ERR else NATIVE_IS_OK, r);
    assert g1.code[|g.code| + 1] == Instr(Jnz, Temp(k), 0, 0);
    var third := g1.code[|g.code| + 2];
    var fourth := g1.code[|g.code| + 3];
    if arm.OkArm? {
      assert third == Instr(CallNat, Temp(k), NATIVE_UNWRAP, r);
      assert fourth == Instr(MovReg, VarReg(IndexOf(g.names, arm.bind)), Temp(k), 0);
    } else {
      assert third == WithImm(Ldc, Temp(k), IndexOf(g.pool, ERR_TAG));
      assert fourth == Instr(Alu(Xor), VarReg(IndexOf(g.names, arm.bind)), r, Temp(k));
    }
  }

  /** The binding of an Ok arm unwraps a word without the tag. */
  lemma OkBindRuns(m: Machine, st: State, arm: Arm, r: u8, k: nat, g: Gen, next: nat, w: i64)
    requires arm.OkArm? && Valid(st) && st.ip == 4 * |g.code| + 8 && WellFormed(g) && TestLaid(m, arm, r, k, g, next)
    requires r < 16 && r > Temp(k) && st.regs[r] == w && Takes(arm, w)
    ensures k < MAX_TEMPS && IndexOf(g.names, arm.bind) < MAX_GPR_VARS
    ensures Steps(m, st, 2)
         == Next(st.(ip := 4 * |g.code| + 16, tick := st.tick + 2,
                     regs := st.regs[Temp(k) := w][VarReg(IndexOf(g.names, arm.bind)) := ClearTag(w, ERR_TAG)]))
  {
    hide Step, Steps, WithImm, CellAt, Tagged, IndexOf, Exec, TestArm, TestLaid;
    ResultCells(m, arm, r, k, g, next);
    NativeAt(m, st, |g.code| + 2, Temp(k), NATIVE_UNWRAP, r);
    var s1 := Steps(m, st, 1).st;
    MoveAt(m, s1, |g.code| + 3, VarReg(IndexOf(g.names, arm.bind)), Temp(k));
    StepsCompose(m, st, 1, 1);
  }

  /** The state behind the two cells of an Err arm's binding. */
  ghost function ErrBound(st: State, g: Gen, k: nat, i: nat, w: i64): State
    requires |st.regs| == NUM_REGISTERS && k < MAX_TEMPS && i < MAX_GPR_VARS
  {
    st.(ip := 4 * |g.code| + 16, tick := st.tick + 2,
        regs := st.regs[Temp(k) := ERR_TAG][VarReg(i) := ClearTag(w, ERR_TAG)])
  }

  /** The binding of an Err arm takes the tag away. */
  lemma ErrBindRuns(m: Machine, vs: seq<string>, st: State, arm: Arm, r: u8, k: nat, g: Gen, next: nat, w: i64)
    requires arm.ErrArm? && Valid(st) && st.ip == 4 * |g.code| + 8 && WellFormed(g) && TestLaid(m, arm, r, k, g, next)
    requires r < 16 && r > Temp(k) && st.regs[r] == w && Takes(arm, w) && Linked(m, vs, TestArm(arm, r, k, g).value)
    ensures k < MAX_TEMPS && IndexOf(g.names, arm.bind) < MAX_GPR_VARS
    ensures Steps(m, st, 2) == Next(ErrBound(st, g, k, IndexOf(g.names, arm.bind), w))
  {
    hide Step, Steps, WithImm, CellAt, Tagged, IndexOf, Logic, Exec, TestArm, TestLaid;
    ResultCells(m, arm, r, k, g, next);
    XorIsClear(w);
    LoadAt(m, st, |g.code| + 2, Temp(k), IndexOf(g.pool, ERR_TAG));
    var s1 := Steps(m, st, 1).st;
    XorAt(m, s1, |g.code| + 3, VarReg(IndexOf(g.names, arm.bind)), r, Temp(k));
    StepsCompose(m, st, 1, 1);
  }

  /** XOR with the tag clears the tag of a word that has it. */
  lemma XorIsClear(w: i64)
    requires Tagged(w, ERR_TAG)
    ensures Logic(BitXor, w, ERR_TAG) == ClearTag(w, ERR_TAG)
  {
    var a := Unsigned(w) - ERR_TAG;
    Pow2Values();
    assert a / ERR_TAG == Unsigned(w) / ERR_TAG - 1;
    BitIsQuotient(a, 60);
    XorRemoves(a, 60, 64);
    hide Bitwise;
    assert Unsigned(ERR_TAG) == ERR_TAG;
  }

  /** A result arm's test and binding. */
  lemma ResultArmTested(m: Machine, vs: seq<string>, st: State, arm: Arm, r: u8, k: nat, hi: nat, g: Gen, next: nat,
                        w: i64, env: Env)
    returns (n: nat)
    requires !arm.VariantArm? && AtEnd(st, g) && WellFormed(g) && TestLaid(m, arm, r, k, g, next)
    requires Linked(m, vs, TestArm(arm, r, k, g).value) && |arm.bind| <= MAX_NAME
    requires r < 16 && r > Temp(k) && st.regs[r] == w && k + 2 <= hi && |vs| + hi <= 15 && Agree(st.regs, vs, env)
    ensures Tested(Steps(m, st, n), st, arm, vs, k, |TestArm(arm, r, k, g).value.code|, next, w, env)
    ensures !Takes(arm, w) ==> n == 2
  {
    hide Step, Steps, WithImm, CellAt, IndexOf, Tagged, ClearTag, TestArm, TestLaid, Kept, Agree, Takes;
    ResultCells(m, arm, r, k, g, next);
    ResultTestRuns(m, st, arm, r, k, g, next, w);
    var s1 := Steps(m, st, 2).st;
    n := 2;
    if Takes(arm, w) {
      if arm.OkArm? {
        OkBindRuns(m, s1, arm, r, k, g, next, w);
      } else {
        ErrBindRuns(m, vs, s1, arm, r, k, g, next, w);
      }
      StepsCompose(m, st, 2, 2);
      n := 4;
      BoundKept(st, Steps(m, st, 4).st, vs, k, hi, IndexOf(g.names, arm.bind), ClearTag(w, ERR_TAG), env);
    } else {
      ScratchKept(st, s1, vs, k, hi, env);
    }
  }

  /** The code before an arm's body. */
  lemma ArmTested(m: Machine, vs: seq<string>, st: State, arm: Arm, r: u8, k: nat, hi: nat, g: Gen, next: nat,
                  w: i64, env: Env)
    returns (n: nat)
    requires Small(arm) && AtEnd(st, g) && WellFormed(g) && TestLaid(m, arm, r, k, g, next)
    requires Linked(m, vs, TestArm(arm, r, k, g).value) && (!arm.VariantArm? ==> |arm.bind| <= MAX_NAME)
    requires r < 16 && r > Temp(k) && st.regs[r] == w && k + 2 <= hi && |vs| + hi <= 15 && Agree(st.regs, vs, env)
    ensures Tested(Steps(m, st, n), st, arm, vs, k, |TestArm(arm, r, k, g).value.code|, next, w, env)
    ensures !Takes(arm, w) ==> n == TestLength(arm)
  {
    hide Steps, Tested, TestLaid, TestArm;
    if arm.VariantArm? {
      VariantTestRuns(m, vs, st, arm, r, k, hi, g, next, w, env);
      n := 3;
    } else {
      n := ResultArmTested(m, vs, st, arm, r, k, hi, g, next, w, env);
    }
  }

  lemma EqIs(m: Machine, x: i64, y: i64)
    ensures AluResult(m, Eq, x, y) == Value(Truth(WordsEqual(m, x, y)))
  {
  }

  /** The jump that ends an arm. */
  lemma JumpRuns(m: Machine, st: State, at: nat, exit: nat)
    requires Valid(st) && st.ip == 4 * at && 4 * exit < 0x1_0000 && CellAt(m, at, WithImm(Jmp, 0, 4 * exit))
    ensures Steps(m, st, 1) == Next(st.(ip := 4 * exit, tick := st.tick + 1))
  {
    hide Step, Steps;
    RunAt(m, st, at, WithImm(Jmp, 0, 4 * exit));
  }

  /** o is where n instructions for an exit x lead: to cell exit with the new
      variables, to the same fault, or still running after the fuel. */
  ghost predicate ExitsAt(o: Outcome, n: nat, st: State, exit: nat, vs: seq<string>, k: nat, x: Exit, fuel: nat) {
    match x
    case Done(env) => o.Next? && Valid(o.st) && o.st.ip == 4 * exit && Kept(st, o.st, k) && Agree(o.st.regs, vs, env)
    case Fail(f) => o.Faulted? && o.fault == f
    case OutOfFuel => o.Next? && n >= fuel
  }

  /** A body and the jump that ends its arm. */
  lemma BodyRuns(m: Machine, vs: seq<string>, body: Stmt, k: nat, hi: nat, g: Gen, exit: nat, st: State, env: Env,
                 fuel: nat)
    returns (n: nat)
    requires Prepared(m, vs, body, k, hi, g, st, env) && Loaded(m, vs, g, Statement(body, k, g)) && 4 * exit < 0x1_0000
    requires CellAt(m, |Statement(body, k, g).value.code|, WithImm(Jmp, 0, 4 * exit))
    ensures ExitsAt(Steps(m, st, n), n, st, exit, vs, k, Meaning(m, body, env, fuel, true), fuel)
  {
    hide Statement, Steps, Step, Holds, Linked, Agree, WithImm, Kept, Meaning, CellAt, FaithfulStmt, PeakOf;
    n := StmtRuns(m, vs, body, k, hi, g, st, env, fuel);
    if Meaning(m, body, env, fuel, true).Done? {
      var s2 := Steps(m, st, n).st;
      JumpRuns(m, s2, |Statement(body, k, g).value.code|, exit);
      StepsCompose(m, st, n, 1);
      MovedKept(s2, Steps(m, s2, 1).st, k);
      KeptBoth(st, s2, Steps(m, s2, 1).st, k);
      n := n + 1;
    }
  }

  /** What an arm needs of the machine and the registers. */
  ghost predicate ArmReady(m: Machine, vs: seq<string>, body: Stmt, k: nat, hi: nat) {
    k >= 1 && FaithfulStmt(m, body) && k + 2 <= hi && k + PeakOf(body) <= hi && |vs| + hi <= 15
  }

  /** An arm for the scrutinee binds the payload, runs its body and leaves the
      match; any other is skipped in the instructions of its test. */
  lemma ArmRuns(m: Machine, vs: seq<string>, arm: Arm, k: nat, hi: nat, g: Gen, exit: nat, st: State, env: Env,
                w: i64, fuel: nat)
    returns (n: nat)
    requires AtEnd(st, g) && WellFormed(g) && Small(arm) && 4 * exit < 0x1_0000 && 1 <= k <= MAX_TEMPS
    requires ArmReady(m, vs, arm.body, k, hi) && (!arm.VariantArm? ==> |arm.bind| <= MAX_NAME)
    requires Agree(st.regs, vs, env) && st.regs[Temp(k - 1)] == w
    requires ArmLaid(m, vs, arm, Temp(k - 1), k, g, exit)
    ensures Takes(arm, w) ==> ExitsAt(Steps(m, st, n), n, st, exit, vs, k, ArmMeaning(m, arm, w, env, fuel), fuel)
    ensures !Takes(arm, w) ==>
      var o := Steps(m, st, n);
      n == TestLength(arm) && o.Next? && AtEnd(o.st, GenArm(arm, Temp(k - 1), k, g).value) && Kept(st, o.st, k)
          && Agree(o.st.regs, vs, env)
  {
    hide Statement, Steps, Step, Holds, Linked, WithImm, Meaning, CellAt, FaithfulStmt, PeakOf, Agree, Takes, Binding,
        TestArm, TestLaid, GenArm;
    var r := Temp(k - 1);
    var g1 := TestArm(arm, r, k, g).value;
    var b := Statement(arm.body, k, g1).value;
    n := ArmTested(m, vs, st, arm, r, k, hi, g, |b.code| + 1, w, env);
    var s1 := Steps(m, st, n).st;
    if Takes(arm, w) {
      var n2 := BodyRuns(m, vs, arm.body, k, hi, g1, exit, s1, Binding(arm, w, env), fuel);
      StepsCompose(m, st, n, n2);
      if ArmMeaning(m, arm, w, env, fuel).Done? { KeptBoth(st, s1, Steps(m, s1, n2).st, k); }
      n := n + n2;
    }
  }

  // ---- running the chain -----------------------------------------------------

  ghost predicate ArmsReady(m: Machine, vs: seq<string>, x: Match, k: nat, hi: nat) {
    && k >= 1 && k + 2 <= hi && |vs| + hi <= 15
    && (forall i :: 0 <= i < |x.arms| ==>
          ArmReady(m, vs, x.arms[i].body, k, hi) && (!x.arms[i].VariantArm? ==> |x.arms[i].bind| <= MAX_NAME))
    && (x.wild.Some? ==> ArmReady(m, vs, x.wild.value, k, hi))
  }

  ghost predicate WildLaid(m: Machine, vs: seq<string>, wild: Option<Stmt>, k: nat, g: Gen, exit: nat)
    requires WellFormed(g) && 4 * exit < 0x1_0000
  {
    if wild.None? then |g.code| == exit
    else
      var b := Statement(wild.value, k, g);
      b.Ok? && Loaded(m, vs, g, b) && CellAt(m, |b.value.code|, WithImm(Jmp, 0, 4 * exit))
  }

  /** The chain of arms from some arm on, with the final arm behind it. */
  lemma {:induction false} ChainRuns(m: Machine, vs: seq<string>, x: Match, k: nat, hi: nat, g: Gen, h: Gen,
                                     handled: set<nat>, exit: nat, st: State, env: Env, v: i64, fuel: nat)
    returns (n: nat)
    requires AtEnd(st, g) && WellFormed(g) && Variants(x.arms) && 4 * exit < 0x1_0000 && 1 <= k <= MAX_TEMPS
    requires ArmsReady(m, vs, x, k, hi) && Agree(st.regs, vs, env) && st.regs[Temp(k - 1)] == v
    requires ArmsLaid(m, vs, x.arms, Temp(k - 1), k, g, exit)
    requires GenArms(x.arms, Temp(k - 1), k, g, handled) == Ok(h) && WellFormed(h)
    requires WildLaid(m, vs, x.wild, k, h, exit)
    ensures ExitsAt(Steps(m, st, n), n, st, exit, vs, k, MatchMeaning(m, x, v, env, fuel), fuel)
    decreases |x.arms|
  {
    hide Statement, Steps, Step, Holds, Linked, WithImm, Meaning, CellAt, FaithfulStmt, PeakOf, Agree, GenArm,
        ArmLaid, Kept, Takes, ArmMeaning;
    if x.arms == [] {
      n := WildRuns(m, vs, x, k, hi, g, exit, st, env, fuel);
    } else {
      var arm := x.arms[0];
      n := ArmRuns(m, vs, arm, k, hi, g, exit, st, env, v, fuel);
      PicksFirst(x, v);
      if !Takes(arm, v) {
        var s1 := Steps(m, st, n).st;
        var rest := Match(x.arms[1..], x.wild);
        assert forall i :: 0 <= i < |rest.arms| ==> rest.arms[i] == x.arms[i + 1];
        KeepsTemp(st, s1, k);
        var n2 := ChainRuns(m, vs, rest, k, hi, GenArm(arm, Temp(k - 1), k, g).value, h, Seen(arm, handled), exit,
            s1, env, v, fuel);
        StepsCompose(m, st, n, n2);
        RestMeaning(m, x, v, env, fuel);
        if MatchMeaning(m, x, v, env, fuel).Done? { KeptBoth(st, s1, Steps(m, s1, n2).st, k); }
        n := n + n2;
      }
    }
  }

  lemma WildRuns(m: Machine, vs: seq<string>, x: Match, k: nat, hi: nat, g: Gen, exit: nat, st: State, env: Env,
                 fuel: nat) returns (n: nat)
    requires AtEnd(st, g) && WellFormed(g) && 4 * exit < 0x1_0000 && x.arms == []
    requires ArmsReady(m, vs, x, k, hi) && Agree(st.regs, vs, env) && WildLaid(m, vs, x.wild, k, g, exit)
    ensures forall v: i64 :: ExitsAt(Steps(m, st, n), n, st, exit, vs, k, MatchMeaning(m, x, v, env, fuel), fuel)
  {
    hide Statement, Steps, Step, Holds, Linked, WithImm, Meaning, CellAt, FaithfulStmt, PeakOf, Agree;
    if x.wild.Some? {
      n := BodyRuns(m, vs, x.wild.value, k, hi, g, exit, st, env, fuel);
    } else {
      n := 0;
      StepsNone(m, st);
    }
  }

  lemma KeepsTemp(st: State, s: State, k: nat)
    requires Kept(st, s, k) && 1 <= k <= MAX_TEMPS
    ensures s.regs[Temp(k - 1)] == st.regs[Temp(k - 1)]
  {
  }

  lemma PicksFirst(x: Match, v: i64)
    requires x.arms != []
    ensures Picks(x.arms, v) == if Takes(x.arms[0], v) then 0 else 1 + Picks(x.arms[1..], v)
  {
  }

  lemma RestMeaning(m: Machine, x: Match, v: i64, env: Env, fuel: nat)
    requires x.arms != [] && !Takes(x.arms[0], v)
    ensures MatchMeaning(m, Match(x.arms[1..], x.wild), v, env, fuel) == MatchMeaning(m, x, v, env, fuel)
  {
    hide Meaning;
    PicksFirst(x, v);
  }

  // ---- the emitted code is laid out like that -----------------------------

  lemma {:induction false} PatchedCells(g: Gen, cells: seq<nat>, target: nat)
    requires CellsIn(cells, 0, |g.code|) && 4 * target < 0x1_0000
    ensures var h := PatchAll(g, cells, target);
            forall c :: 0 <= c < |g.code| ==>
              h.code[c] == if c in cells then WithImm(g.code[c].op, g.code[c].rd, 4 * target) else g.code[c]
    decreases |cells|
  {
    hide WithImm;
    if cells != [] {
      var g1 := Patch(g, cells[0], 4 * target);
      PatchedCells(g1, cells[1..], target);
      assert cells == [cells[0]] + cells[1..];
      PatchKeepsOp(g, cells[0], 4 * target);
    }
  }

  lemma PatchKeepsOp(g: Gen, at: nat, target: nat)
    requires at < |g.code| && target < 0x1_0000
    ensures var c := Patch(g, at, target).code[at]; c.op == g.code[at].op && c.rd == g.code[at].rd
  {
  }

  /** The cells of an arm in memory, its final jump patched to cell exit. */
  ghost predicate Final(whole: Gen, g: Gen, ga: Gen, ends: seq<nat>, exit: nat)
    requires 4 * exit < 0x1_0000
  {
    && |ga.code| <= |whole.code| && ga.pool <= whole.pool && ga.names <= whole.names
    && forall c :: |g.code| <= c < |ga.code| ==>
         whole.code[c] == if c in ends then WithImm(Jmp, 0, 4 * exit) else ga.code[c]
  }

  lemma PartLoaded(m: Machine, vs: seq<string>, g: Gen, b: Gen, whole: Gen, lo: nat)
    requires Linked(m, vs, whole) && Holds(m, lo, whole) && lo <= |g.code| <= |b.code| <= |whole.code| && WellFormed(b)
    requires b.pool <= whole.pool && b.names <= whole.names
    requires forall c :: |g.code| <= c < |b.code| ==> whole.code[c] == b.code[c]
    ensures Linked(m, vs, b) && Holds(m, |g.code|, b)
  {
    hide Fetch;
  }

  lemma OneArmLaid(m: Machine, vs: seq<string>, arm: Arm, r: u8, k: nat, g: Gen, exit: nat, whole: Gen)
    requires WellFormed(g) && Small(arm) && 4 * exit < 0x1_0000 && GenArm(arm, r, k, g).Ok?
    requires Linked(m, vs, whole) && Holds(m, |g.code|, whole)
    requires Final(whole, g, GenArm(arm, r, k, g).value, [|GenArm(arm, r, k, g).value.code| - 1], exit)
    ensures ArmLaid(m, vs, arm, r, k, g, exit)
  {
    hide Statement, WithImm, CellAt, Holds, Linked, GenArm, TestArm;
    ArmShape(arm, r, k, g);
    var g1 := TestArm(arm, r, k, g).value;
    var b := Statement(arm.body, k, g1).value;
    assert forall c :: |g1.code| <= c < |b.code| ==> whole.code[c] == b.code[c];
    PartLoaded(m, vs, g1, b, whole, |g.code|);
    LinkedPart(m, vs, g1, b);
    forall c | |g.code| <= c < |g1.code| ensures CellAt(m, c, whole.code[c]) { HeldCell(m, |g.code|, whole, c); }
    HeldCell(m, |g.code|, whole, |b.code|);
  }

  /** One arm: its test, its body, and a jump that is still open. */
  lemma ArmShape(arm: Arm, r: u8, k: nat, g: Gen)
    requires WellFormed(g) && Small(arm) && GenArm(arm, r, k, g).Ok?
    ensures TestArm(arm, r, k, g).Ok?
    ensures var g1 := TestArm(arm, r, k, g).value;
            && Statement(arm.body, k, g1).Ok?
            && var b := Statement(arm.body, k, g1).value;
            var ga, jump := GenArm(arm, r, k, g).value, |g.code| + TestLength(arm) - 1;
            && Extends(g1, b) && jump < |g1.code| <= |b.code| && |ga.code| == |b.code| + 1
            && b.pool == ga.pool && b.names == ga.names
            && (forall c :: 0 <= c < |g1.code| && c != jump ==> ga.code[c] == g1.code[c])
            && (forall c :: |g1.code| <= c < |b.code| ==> ga.code[c] == b.code[c])
            && ga.code[jump] == WithImm(g1.code[jump].op, g1.code[jump].rd, 4 * |ga.code|)
            && ga.code[|b.code|] == Instr(Jmp, 0, 0, 0)
  {
    hide Statement, WithImm, TestArm;
  }

  lemma HeldCell(m: Machine, lo: nat, whole: Gen, c: nat)
    requires Holds(m, lo, whole) && lo <= c < |whole.code|
    ensures CellAt(m, c, whole.code[c])
  {
    hide Fetch;
  }

  lemma {:induction false} AllArmsLaid(m: Machine, vs: seq<string>, arms: seq<Arm>, r: u8, k: nat, g: Gen,
                                       handled: set<nat>, h: Gen, exit: nat, whole: Gen)
    requires WellFormed(g) && Variants(arms) && 4 * exit < 0x1_0000 && GenArms(arms, r, k, g, handled) == Ok(h)
    requires Linked(m, vs, whole) && Holds(m, |g.code|, whole)
    requires Final(whole, g, h, ArmEnds(arms, r, k, g, handled), exit)
    ensures ArmsLaid(m, vs, arms, r, k, g, exit)
    decreases |arms|
  {
    hide GenArm, WithImm, Holds, Linked, ArmLaid;
    if arms != [] {
      var ga := GenArm(arms[0], r, k, g).value;
      var more := ArmEnds(arms[1..], r, k, ga, Seen(arms[0], handled));
      ArmEndsInside(arms[1..], r, k, ga, Seen(arms[0], handled));
      FirstFinal(whole, g, ga, h, more, exit);
      HoldsLater(m, |g.code|, whole, |ga.code|);
      OneArmLaid(m, vs, arms[0], r, k, g, exit, whole);
      AllArmsLaid(m, vs, arms[1..], r, k, ga, Seen(arms[0], handled), h, exit, whole);
    }
  }

  lemma HoldsLater(m: Machine, lo: nat, whole: Gen, lo': nat)
    requires Holds(m, lo, whole) && lo <= lo'
    ensures Holds(m, lo', whole)
  {
  }

  /** The final code of all arms, cut into the first arm and the others. */
  lemma FirstFinal(whole: Gen, g: Gen, ga: Gen, h: Gen, more: seq<nat>, exit: nat)
    requires 4 * exit < 0x1_0000 && |g.code| < |ga.code| && Extends(ga, h) && CellsIn(more, |ga.code|, |h.code|)
    requires Final(whole, g, h, [|ga.code| - 1] + more, exit)
    ensures Final(whole, g, ga, [|ga.code| - 1], exit) && Final(whole, ga, h, more, exit)
  {
    hide WithImm;
  }

  /** The cells of the final jumps, before they are patched. */
  ghost predicate Jumps(g: Gen, cells: seq<nat>) {
    forall i :: 0 <= i < |cells| ==> cells[i] < |g.code| && g.code[cells[i]] == Instr(Jmp, 0, 0, 0)
  }

  lemma {:induction false} ArmEndsJump(arms: seq<Arm>, r: u8, k: nat, g: Gen, handled: set<nat>, h: Gen)
    requires WellFormed(g) && Variants(arms) && GenArms(arms, r, k, g, handled) == Ok(h)
    ensures Jumps(h, ArmEnds(arms, r, k, g, handled))
    decreases |arms|
  {
    hide GenArm;
    if arms != [] {
      var ga := GenArm(arms[0], r, k, g).value;
      ArmEndsJump(arms[1..], r, k, ga, Seen(arms[0], handled), h);
      ArmEndsInJump(arms[0], r, k, g);
    }
  }

  lemma ArmEndsInJump(arm: Arm, r: u8, k: nat, g: Gen)
    requires WellFormed(g) && Small(arm) && GenArm(arm, r, k, g).Ok?
    ensures var ga := GenArm(arm, r, k, g).value; ga.code[|ga.code| - 1] == Instr(Jmp, 0, 0, 0)
  {
    hide WithImm, TestArm, Statement;
  }

  /** The statement's final code, cut into the arms and the wildcard. */
  lemma AllFinal(x: Match, r: u8, k: nat, g: Gen, g2: Gen, whole: Gen)
    requires WellFormed(g) && Variants(x.arms) && GenAll(x, r, k, g) == Ok(whole)
    requires GenArms(x.arms, r, k, g, {}) == Ok(g2)
    ensures 4 * |whole.code| < 0x1_0000 && GenWild(x.wild, k, g2).Ok?
    ensures Final(whole, g, g2, ArmEnds(x.arms, r, k, g, {}), |whole.code|)
    ensures Final(whole, g2, GenWild(x.wild, k, g2).value, WildEnds(x.wild, k, g2), |whole.code|)
    ensures |GenWild(x.wild, k, g2).value.code| == |whole.code|
  {
    hide GenArms, GenWild, ArmEnds, WildEnds, WithImm, PatchAll;
    var g3 := GenWild(x.wild, k, g2).value;
    var a, w := ArmEnds(x.arms, r, k, g, {}), WildEnds(x.wild, k, g2);
    EndsInside(x, r, k, g, g2);
    ArmEndsInside(x.arms, r, k, g, {});
    ArmEndsJump(x.arms, r, k, g, {}, g2);
    WildEndsJump(x.wild, k, g2);
    PatchedCells(g3, a + w, |g3.code|);
    JumpPatched(g3, whole, a, w, |g2.code|);
  }

  lemma WildEndsJump(wild: Option<Stmt>, k: nat, g: Gen)
    requires WellFormed(g) && GenWild(wild, k, g).Ok?
    ensures Jumps(GenWild(wild, k, g).value, WildEnds(wild, k, g))
    ensures CellsIn(WildEnds(wild, k, g), |g.code|, |GenWild(wild, k, g).value.code|)
  {
    hide Statement;
  }

  /** Patching jumps in two regions patches each region's own jumps. */
  lemma JumpPatched(g3: Gen, whole: Gen, a: seq<nat>, w: seq<nat>, mid: nat)
    requires |whole.code| == |g3.code| && 4 * |whole.code| < 0x1_0000 && mid <= |g3.code|
    requires CellsIn(a, 0, mid) && CellsIn(w, mid, |g3.code|)
    requires forall i :: 0 <= i < |a| ==> g3.code[a[i]] == Instr(Jmp, 0, 0, 0)
    requires forall i :: 0 <= i < |w| ==> g3.code[w[i]] == Instr(Jmp, 0, 0, 0)
    requires forall c :: 0 <= c < |whole.code| ==>
      whole.code[c] == if c in a + w then WithImm(g3.code[c].op, g3.code[c].rd, 4 * |whole.code|) else g3.code[c]
    ensures forall c :: 0 <= c < mid ==>
      whole.code[c] == if c in a then WithImm(Jmp, 0, 4 * |whole.code|) else g3.code[c]
    ensures forall c :: mid <= c < |whole.code| ==>
      whole.code[c] == if c in w then WithImm(Jmp, 0, 4 * |whole.code|) else g3.code[c]
  {
    hide WithImm;
  }

  lemma WildIsLaid(m: Machine, vs: seq<string>, wild: Option<Stmt>, k: nat, g: Gen, whole: Gen)
    requires WellFormed(g) && GenWild(wild, k, g).Ok? && 4 * |whole.code| < 0x1_0000
    requires |GenWild(wild, k, g).value.code| == |whole.code| && Linked(m, vs, whole) && Holds(m, |g.code|, whole)
    requires Final(whole, g, GenWild(wild, k, g).value, WildEnds(wild, k, g), |whole.code|)
    ensures WildLaid(m, vs, wild, k, g, |whole.code|)
  {
    hide Statement, WithImm, Fetch;
    if wild.Some? {
      var b := Statement(wild.value, k, g).value;
      assert forall c :: |g.code| <= c < |b.code| ==> whole.code[c] == b.code[c];
      PartLoaded(m, vs, g, b, whole, |g.code|);
    }
  }

  // ---- the whole statement -----------------------------------------------------

  /** The emitted code of a match evaluates the scrutinee, runs exactly the
      body its meaning selects, and goes on behind the statement. */
  lemma MatchRuns(m: Machine, vs: seq<string>, e: Expr, x: Match, variants: nat, k: nat, hi: nat, g: Gen,
                  st: State, env: Env, fuel: nat)
    returns (n: nat)
    requires AtEnd(st, g) && WellFormed(g) && Variants(x.arms) && Faithful(m, e) && k + 1 + Peak(e) <= hi
    requires ArmsReady(m, vs, x, k + 1, hi) && Agree(st.regs, vs, env)
        && Loaded(m, vs, g, GenMatch(e, x, variants, k, g))
    ensures Eval(m, e, env).Trap? ==> Steps(m, st, n).Faulted? && Steps(m, st, n).fault == Eval(m, e, env).f
    ensures Eval(m, e, env).Value? ==>
      Exits(Steps(m, st, n), n, st, GenMatch(e, x, variants, k, g).value, vs, k,
            MatchMeaning(m, x, Eval(m, e, env).v, env, fuel), fuel)
  {
    hide Expression, EvalInto, Eval, Steps, Step, Holds, Faithful, Peak, Linked, GenAll, Meaning, MatchMeaning,
        ArmsReady, Agree;
    var whole := GenMatch(e, x, variants, k, g).value;
    var g1 := Expression(e, Temp(k), k + 1, g).value;
    PartsShape(e, x, variants, k, g);
    Parts(m, vs, x, Temp(k), k + 1, |g.code|, g1, whole);
    Room(m, vs, x, k + 1, hi);
    EvalIntoNothing(m, e, env);
    n := ExpressionRuns(m, vs, e, Temp(k), None, k + 1, hi, g, st, env);
    if Eval(m, e, env).Value? {
      var v := Eval(m, e, env).v;
      var s1 := Steps(m, st, n).st;
      TouchesKept(st, s1, Temp(k), k, hi);
      AgreeKept(st, s1, Temp(k), k, hi, vs, env);
      var n2 := ArmsAndWildRun(m, vs, x, k + 1, hi, g1, whole, s1, env, v, fuel);
      StepsCompose(m, st, n, n2);
      FewerKept(m, st, s1, Steps(m, s1, n2), vs, k, whole, MatchMeaning(m, x, v, env, fuel));
      n := n + n2;
    }
  }

  lemma Room(m: Machine, vs: seq<string>, x: Match, k: nat, hi: nat)
    requires ArmsReady(m, vs, x, k, hi)
    ensures k >= 1 && k + 2 <= hi && |vs| + hi <= 15
  {
  }

  /** Keeping the scratch registers below k + 1 is keeping those below k. */
  lemma FewerKept(m: Machine, st: State, s1: State, o: Outcome, vs: seq<string>, k: nat, whole: Gen, x: Exit)
    requires Kept(st, s1, k) && (x.Done? ==> o.Next? && Kept(s1, o.st, k + 1))
    ensures x.Done? ==> Kept(st, o.st, k)
  {
  }

  lemma PartsShape(e: Expr, x: Match, variants: nat, k: nat, g: Gen)
    requires WellFormed(g) && Variants(x.arms) && GenMatch(e, x, variants, k, g).Ok?
    ensures k < MAX_TEMPS && Expression(e, Temp(k), k + 1, g).Ok?
    ensures GenAll(x, Temp(k), k + 1, Expression(e, Temp(k), k + 1, g).value) == GenMatch(e, x, variants, k, g)
  {
    hide Expression, GenAll;
  }

  /** The two parts of the statement in memory. */
  lemma Parts(m: Machine, vs: seq<string>, x: Match, r: u8, k: nat, lo: nat, g: Gen, whole: Gen)
    requires WellFormed(g) && Variants(x.arms) && GenAll(x, r, k, g) == Ok(whole) && lo <= |g.code|
    requires Linked(m, vs, whole) && Holds(m, lo, whole)
    ensures Linked(m, vs, g) && Holds(m, lo, g) && Holds(m, |g.code|, whole)
  {
    hide GenAll, Holds, Linked, Extends, WellFormed;
    AllExtends(x, r, k, g);
    SplitLoaded(m, vs, lo, g, whole);
  }

  lemma SplitLoaded(m: Machine, vs: seq<string>, lo: nat, g: Gen, whole: Gen)
    requires Linked(m, vs, whole) && Holds(m, lo, whole) && WellFormed(g) && Extends(g, whole) && lo <= |g.code|
    ensures Linked(m, vs, g) && Holds(m, lo, g) && Holds(m, |g.code|, whole)
  {
    hide Fetch;
  }

  lemma AllExtends(x: Match, r: u8, k: nat, g: Gen)
    requires WellFormed(g) && Variants(x.arms)
    ensures Grown(g, GenAll(x, r, k, g))
  {
    hide GenArms, GenWild, ArmEnds, WildEnds, PatchAll;
    if GenAll(x, r, k, g).Ok? {
      var g2 := GenArms(x.arms, r, k, g, {}).value;
      var g3 := GenWild(x.wild, k, g2).value;
      ArmEndsInside(x.arms, r, k, g, {});
      WildEndsJump(x.wild, k, g2);
      PatchedExtends(g, g3, ArmEnds(x.arms, r, k, g, {}) + WildEnds(x.wild, k, g2));
    }
  }

  /** Patching cells behind g leaves g a prefix. */
  lemma PatchedExtends(g: Gen, h: Gen, cells: seq<nat>)
    requires WellFormed(g) && Extends(g, h) && CellsIn(cells, |g.code|, |h.code|)
    ensures Extends(g, PatchAll(h, cells, |h.code|))
  {
    hide WithImm, PatchAll;
    PatchedCells(h, cells, |h.code|);
    var p := PatchAll(h, cells, |h.code|);
    assert forall c :: 0 <= c < |g.code| ==> p.code[c] == g.code[c];
  }

  lemma ArmsAndWildRun(m: Machine, vs: seq<string>, x: Match, k: nat, hi: nat, g: Gen, whole: Gen, st: State, env: Env,
                       v: i64, fuel: nat)
    returns (n: nat)
    requires AtEnd(st, g) && WellFormed(g) && Variants(x.arms) && 1 <= k <= MAX_TEMPS
    requires ArmsReady(m, vs, x, k, hi) && Agree(st.regs, vs, env) && st.regs[Temp(k - 1)] == v
    requires GenAll(x, Temp(k - 1), k, g) == Ok(whole) && Loaded(m, vs, g, GenAll(x, Temp(k - 1), k, g))
    ensures WellFormed(whole) && Exits(Steps(m, st, n), n, st, whole, vs, k, MatchMeaning(m, x, v, env, fuel), fuel)
  {
    var r := Temp(k - 1);
    var g2 := GenArms(x.arms, r, k, g, {}).value;
    hide Holds, Linked, GenArms, GenWild, ArmEnds, WildEnds, Steps, Step, MatchMeaning, ArmsReady, Agree, Final,
        ArmsLaid, WildLaid;
    AllFinal(x, r, k, g, g2, whole);
    HoldsLater(m, |g.code|, whole, |g2.code|);
    AllArmsLaid(m, vs, x.arms, r, k, g, {}, g2, |whole.code|, whole);
    WildIsLaid(m, vs, x.wild, k, g2, whole);
    n := ChainRuns(m, vs, x, k, hi, g, g2, {}, |whole.code|, st, env, v, fuel);
  }
}
