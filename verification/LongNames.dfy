// Variable names longer than the compiler's table holds: they are entered cut
// off, so every use of one takes a fresh register.

module LongNames {
  import opened Words
  import opened Isa
  import opened Vm
  import opened Lang
  import opened Stmts
  import opened Codegen
  import opened StmtGen
  import opened Simulation
  import opened ExprCorrect
  import opened StmtCorrect
  import opened ProgramCorrect

  /** A name that was just entered is found again exactly if it fits; one that
      does not is a new variable at every use. */
  lemma FoundAgainIff(g: Gen, x: string, g1: Gen)
    requires WellFormed(g) && (forall i :: 0 <= i < |g.names| ==> |g.names[i]| <= MAX_NAME) && Resolve(g, x) == Ok(g1)
    ensures IndexOf(g1.names, x) == IndexOf(g.names, x) <==> |x| <= MAX_NAME
    ensures |x| > MAX_NAME ==> IndexOf(g.names, x) == |g.names| && g1.names == g.names + [x[..MAX_NAME]]
  {
    hide IndexOf, Extends, WellFormed, Resolve;
    ResolveEnters(g, x);
    if |x| > MAX_NAME {
      Unfound(g.names, x);
      Unfound(g.names + [x[..MAX_NAME]], x);
    } else if IndexOf(g.names, x) == |g.names| {
      IndexIs(g.names + [x], x, |g.names|);
    }
  }

  lemma ResolveEnters(g: Gen, x: string)
    requires WellFormed(g) && Resolve(g, x).Ok?
    ensures Resolve(g, x).value.names == if IndexOf(g.names, x) < |g.names| then g.names else g.names + [Stored(x)]
  {
    hide IndexOf;
  }

  lemma Unfound(names: seq<string>, x: string)
    requires |x| > MAX_NAME && forall i :: 0 <= i < |names| ==> |names[i]| <= MAX_NAME
    ensures IndexOf(names, x) == |names|
  {
    hide IndexOf;
  }

  lemma IndexIs(names: seq<string>, x: string, i: nat)
    requires i <= |names| && (i < |names| ==> names[i] == x) && forall j :: 0 <= j < i ==> names[j] != x
    ensures IndexOf(names, x) == i
  {
    hide IndexOf;
  }

  /** `let mut x = c; y = x;` */
  function Script(x: string, c: i64, y: string): Stmt {
    Seq(Let(x, true, Lit(c)), Assign(y, Var(x)))
  }

  /** The tables while the script is compiled: after its first statement, after
      y is entered, after x is looked up. */
  function Entered(x: string): Gen {
    Gen([], [], [Stored(x)], [true])
  }

  function Looked(g: Gen, x: string): Gen
    requires WellFormed(g)
  {
    if Resolve(g, x).Ok? then Resolve(g, x).value else g
  }

  /** `y = x;` */
  lemma CopyShape(g: Gen, x: string, y: string)
    requires WellFormed(g) && Statement(Assign(y, Var(x)), 0, g).Ok?
    ensures Resolve(g, y).Ok? && Resolve(Looked(g, y), x).Ok?
    ensures IndexOf(g.names, y) < MAX_GPR_VARS && IndexOf(Looked(g, y).names, x) < MAX_GPR_VARS
    ensures Statement(Assign(y, Var(x)), 0, g)
         == MoveVar(1 + IndexOf(g.names, y), 1 + IndexOf(Looked(g, y).names, x), Looked(Looked(g, y), x))
  {
    hide IndexOf, Resolve, MoveVar;
    assert Statement(Assign(y, Var(x)), 0, g) == GenAssign(y, Var(x), 0, g);
    var g1 := Resolve(g, y).value;
    var dst := VarReg(IndexOf(g.names, y));
    assert Expression(Var(x), dst, 0, g1) == Ladder(Var(x), dst, 0, g1);
  }

  lemma LetShape(x: string, c: i64)
    ensures Statement(Let(x, true, Lit(c)), 0, Gen([], [], [], [])) == EmitConst(Entered(x), 1, c)
  {
    hide EmitConst, IndexOf;
    var g0 := Gen([], [], [], []);
    assert g0.names + [Stored(x)] == [Stored(x)] && g0.muts + [true] == [true];
    assert Declare(g0, x, true) == Ok(Entered(x));
    assert Expression(Lit(c), 1, 0, Entered(x)) == EmitConst(Entered(x), 1, c);
    assert Statement(Let(x, true, Lit(c)), 0, g0) == GenLet(x, true, Lit(c), 0, g0);
  }

  lemma ScriptParts(x: string, c: i64, y: string)
    requires Program(Script(x, c, y)).Ok?
    ensures EmitConst(Entered(x), 1, c).Ok?
    ensures var copied := Statement(Assign(y, Var(x)), 0, EmitConst(Entered(x), 1, c).value);
            copied.Ok? && Emit(copied.value, Instr(Halt, 0, 0, 0)) == Program(Script(x, c, y))
  {
    hide EmitConst, GenLet, GenAssign;
    LetShape(x, c);
    var g0 := Gen([], [], [], []);
    assert Statement(Script(x, c, y), 0, g0).Ok?;
  }

  /** What the script compiles to. */
  lemma ScriptShape(x: string, c: i64, y: string)
    requires Program(Script(x, c, y)).Ok? && x != y && |y| <= MAX_NAME
    ensures EmitConst(Entered(x), 1, c).Ok?
    ensures var g1 := EmitConst(Entered(x), 1, c).value;
            var gy, iy := Looked(g1, y), IndexOf(g1.names, y);
            var gx, ix := Looked(gy, x), IndexOf(gy.names, x);
            && iy != ix && iy <= 1 && ix <= 2 && |gx.names| <= 3
            && (ix == 0 <==> |x| <= MAX_NAME)
            && gx.code == g1.code && gx.pool == g1.pool
            && gx.names[iy] == y && IndexOf(gx.names, y) == iy && Program(Script(x, c, y)).value.names == gx.names
            && MoveVar(1 + iy, 1 + ix, gx).Ok?
            && Emit(MoveVar(1 + iy, 1 + ix, gx).value, Instr(Halt, 0, 0, 0)) == Program(Script(x, c, y))
  {
    hide EmitConst, IndexOf, Resolve, MoveVar, Statement;
    ScriptParts(x, c, y);
    var g1 := EmitConst(Entered(x), 1, c).value;
    CopyShape(g1, x, y);
    NamesLookedUp(g1, x, y);
    MoveKeepsNames(1 + IndexOf(g1.names, y), 1 + IndexOf(Looked(g1, y).names, x), Looked(Looked(g1, y), x));
  }

  lemma MoveKeepsNames(dst: u8, reg: u8, g: Gen)
    requires WellFormed(g)
    ensures MoveVar(dst, reg, g).Ok? ==> MoveVar(dst, reg, g).value.names == g.names
  {
  }

  /** Where y and x are found after x has been declared. */
  lemma NamesLookedUp(g: Gen, x: string, y: string)
    requires WellFormed(g) && g.names == [Stored(x)] && x != y && |y| <= MAX_NAME
    requires Resolve(g, y).Ok? && Resolve(Looked(g, y), x).Ok?
    ensures var gy, iy := Looked(g, y), IndexOf(g.names, y);
            var gx, ix := Looked(gy, x), IndexOf(gy.names, x);
            && iy != ix && iy <= 1 && ix <= 2 && |gx.names| <= 3
            && (ix == 0 <==> |x| <= MAX_NAME)
            && gx.code == g.code && gx.pool == g.pool
            && gx.names[iy] == y && IndexOf(gx.names, y) == iy
  {
    hide IndexOf, Resolve;
    var gy := Looked(g, y);
    ResolveEnters(g, y);
    ResolveEnters(gy, x);
    if Stored(x) == y {
      IndexIs(g.names, y, 0);
      Unfound(gy.names, x);
      IndexIs(Looked(gy, x).names, y, 0);
    } else {
      IndexIs(g.names, y, 1);
      assert gy.names == [Stored(x), y];
      if |x| <= MAX_NAME { IndexIs(gy.names, x, 0); } else { Unfound(gy.names, x); }
      IndexIs(Looked(gy, x).names, y, 1);
    }
  }

  /** The script assigns c to y in the source; the compiled program leaves c
      there exactly if the name of x fits the table, and zero otherwise. */
  lemma LongNameIff(m: Machine, x: string, c: i64, y: string)
    requires Compiled(m, Script(x, c, y)) && x != y && |y| <= MAX_NAME
    ensures Meaning(m, Script(x, c, y), map[], 0, false) == Done(map[x := c, y := c])
    ensures var o := Steps(m, Initial(), 3);
            var i := IndexOf(Program(Script(x, c, y)).value.names, y);
            && o.Halted? && i < MAX_GPR_VARS
            && Valid(o.st) && o.st.regs[1 + i] == (if |x| <= MAX_NAME then c else 0)
  {
    hide Step, Steps, EmitConst, Program, Cells, MoveVar, IndexOf, Resolve;
    ScriptShape(x, c, y);
    var h := Program(Script(x, c, y)).value;
    var g1 := EmitConst(Entered(x), 1, c).value;
    var iy, ix := IndexOf(g1.names, y), IndexOf(Looked(g1, y).names, x);
    CellsHeld(m, h);
    ThreeSteps(m, x, c, iy, ix, Looked(Looked(g1, y), x), h);
  }

  lemma CellsHeld(m: Machine, h: Gen)
    requires Cells(m.code) == h.code && |m.code| == 4 * |h.code|
    ensures Holds(m, 0, h)
  {
    hide Fetch;
    assert forall i :: 0 <= i < |h.code| ==> Fetch(m.code, 4 * i) == Cells(m.code)[i];
  }

  /** A constant into register 1, a copy from b to a, and a HALT. */
  lemma ThreeSteps(m: Machine, x: string, c: i64, a: nat, b: nat, g: Gen, h: Gen)
    requires a <= 1 && b <= 2 && a != b && EmitConst(Entered(x), 1, c).Ok? && WellFormed(g)
    requires var g1 := EmitConst(Entered(x), 1, c).value;
             && g.code == g1.code && g.pool == g1.pool
             && MoveVar(1 + a, 1 + b, g).Ok?
             && Emit(MoveVar(1 + a, 1 + b, g).value, Instr(Halt, 0, 0, 0)) == Ok(h)
    requires Holds(m, 0, h) && h.pool == m.constPool
    ensures Steps(m, Initial(), 3).Halted?
    ensures Steps(m, Initial(), 3).st.regs == Initial().regs[1 := c][1 + a := if b == 0 then c else 0]
  {
    hide Step, Steps, EmitConst, Fetch;
    var g1 := EmitConst(Entered(x), 1, c).value;
    var g2 := MoveVar(1 + a, 1 + b, g).value;
    HoldsPart(m, 0, h, 0, g1);
    RunConst(m, [Stored(x)], Initial(), Entered(x), 1, c);
    var s1 := Steps(m, Initial(), 1).st;
    HoldsPart(m, 0, h, |g.code|, g2);
    RunMoveVar(m, s1, g, 1 + a, 1 + b);
    var s2 := Steps(m, s1, 1).st;
    HoldsPart(m, 0, h, |g2.code|, h);
    HaltRuns(m, s2, g2, h);
    StepsCompose(m, Initial(), 1, 1);
    StepsCompose(m, Initial(), 2, 1);
  }
}
