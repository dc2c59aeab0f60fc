// Results in one word: `@ok` and `@err` tag a payload, and a match over Ok and
// Err takes it apart again.

module ResultTags {
  import opened Words
  import opened Isa
  import opened Vm
  import opened Lang
  import opened Stmts
  import opened Codegen
  import opened StmtGen
  import opened Simulation
  import opened ExprCorrect
  import opened StmtCorrect
  import opened MatchStmt

  /** At most one arm for Ok and one for Err. */
  predicate OncePerKind(arms: seq<Arm>) {
    forall i, j :: 0 <= i < j < |arms| ==> arms[i].OkArm? != arms[j].OkArm?
  }

  /** Of an accepted match over results exactly one kind of arm takes a word,
      whatever word it is, or the wildcard does; with one arm of each kind it is
      exactly one arm. */
  lemma ExactlyOneResultArm(e: Expr, x: Match, variants: nat, k: nat, g: Gen, w: i64)
    requires WellFormed(g) && Variants(x.arms) && GenMatch(e, x, variants, k, g).Ok? && !HasVariant(x.arms)
    ensures var i := Picks(x.arms, w);
            && (i < |x.arms| || x.wild.Some?)
            && (i < |x.arms| ==>
                  && (x.arms[i].OkArm? <==> !Tagged(w, ERR_TAG))
                  && (forall j :: 0 <= j < |x.arms| ==> (Takes(x.arms[j], w) <==> x.arms[j].OkArm? == x.arms[i].OkArm?))
                  && (OncePerKind(x.arms) ==> forall j :: 0 <= j < |x.arms| ==> (Takes(x.arms[j], w) <==> j == i)))
  {
    hide Expression, GenMatch, Tagged;
    SomeArm(e, x, variants, k, g, w);
  }

  /** What a match over results needs of the machine, the registers and the
      source, before its code runs. */
  ghost predicate ResultMatch(m: Machine, vs: seq<string>, e: Expr, x: Match, variants: nat, k: nat, hi: nat,
                              g: Gen, st: State, env: Env) {
    && AtEnd(st, g) && WellFormed(g) && Variants(x.arms) && !HasVariant(x.arms)
    && Faithful(m, e) && k + 1 + Peak(e) <= hi && ArmsReady(m, vs, x, k + 1, hi)
    && Agree(st.regs, vs, env) && Loaded(m, vs, g, GenMatch(e, x, variants, k, g))
  }

  /** Arm i ran, with its variable bound to payload v, and control is behind the
      statement; or its body faulted or is still running. */
  ghost predicate RanArm(m: Machine, o: Outcome, n: nat, st: State, end: Gen, vs: seq<string>, k: nat, arm: Arm,
                         v: i64, env: Env, fuel: nat)
    requires !arm.VariantArm?
  {
    Exits(o, n, st, end, vs, k, Meaning(m, arm.body, env[arm.bind := v], fuel, true), fuel)
  }

  /** The emitted code of every accepted match over Ok and Err, for every word
      of the scrutinee: exactly one body runs, an arm's with its variable bound
      to the word without its tag, and control ends behind the statement. */
  lemma ResultMatchRuns(m: Machine, vs: seq<string>, e: Expr, x: Match, variants: nat, k: nat, hi: nat, g: Gen,
                        st: State, env: Env, fuel: nat) returns (n: nat)
    requires ResultMatch(m, vs, e, x, variants, k, hi, g, st, env)
    ensures Eval(m, e, env).Trap? ==> Steps(m, st, n).Faulted? && Steps(m, st, n).fault == Eval(m, e, env).f
    ensures Eval(m, e, env).Value? ==>
      var w, end := Eval(m, e, env).v, GenMatch(e, x, variants, k, g).value;
      var i := Picks(x.arms, w);
      && (i < |x.arms| ==>
            && (x.arms[i].OkArm? <==> !Tagged(w, ERR_TAG)) && !x.arms[i].VariantArm?
            && RanArm(m, Steps(m, st, n), n, st, end, vs, k, x.arms[i], ClearTag(w, ERR_TAG), env, fuel))
      && (i == |x.arms| ==>
            && x.wild.Some?
            && Exits(Steps(m, st, n), n, st, end, vs, k, Meaning(m, x.wild.value, env, fuel, true), fuel))
  {
    hide Expression, GenMatch, Eval, Steps, Step, Holds, Faithful, Peak, Linked, Meaning, ArmsReady, Agree, Exits,
        Tagged, ClearTag;
    n := MatchRuns(m, vs, e, x, variants, k, hi, g, st, env, fuel);
    if Eval(m, e, env).Value? { ExactlyOneResultArm(e, x, variants, k, g, Eval(m, e, env).v); }
  }

  // ---- there and back --------------------------------------------------------

  lemma WrapBack(u: int)
    requires 0 <= u < TWO_64
    ensures Unsigned(Wrap(u)) == u
  {
  }

  /** The tag is gone, and only a word that had it has changed. */
  lemma Cleared(v: i64)
    ensures !Tagged(ClearTag(v, ERR_TAG), ERR_TAG)
    ensures ClearTag(v, ERR_TAG) == v <==> !Tagged(v, ERR_TAG)
  {
    if Tagged(v, ERR_TAG) {
      var u := Unsigned(v);
      WrapBack(u - ERR_TAG);
      assert (u - ERR_TAG) / ERR_TAG == u / ERR_TAG - 1;
    }
  }

  /** The tag is there, and clearing it again leaves the other bits. */
  lemma TagSet(v: i64)
    ensures Tagged(SetTag(v, ERR_TAG), ERR_TAG)
    ensures ClearTag(SetTag(v, ERR_TAG), ERR_TAG) == ClearTag(v, ERR_TAG)
  {
    if !Tagged(v, ERR_TAG) {
      var u := Unsigned(v);
      assert u / ERR_TAG % 2 == 0 && u / ERR_TAG < 16;
      assert (u + ERR_TAG) / ERR_TAG == u / ERR_TAG + 1;
      WrapBack(u + ERR_TAG);
    }
  }

  /** `match @ok(a) { Ok(x) => ... }` runs an Ok arm with x bound to a's value
      without the tag bit, which is a's value exactly if that bit is clear. */
  lemma OkRoundTrip(m: Machine, vs: seq<string>, a: Expr, x: Match, variants: nat, k: nat, hi: nat, g: Gen,
                    st: State, env: Env, fuel: nat) returns (n: nat, i: nat)
    requires ResultMatch(m, vs, Call1(FnOk, a), x, variants, k, hi, g, st, env)
    requires HasOk(x.arms) && Eval(m, a, env).Value?
    ensures i < |x.arms| && x.arms[i].OkArm?
    ensures var v, end := Eval(m, a, env).v, GenMatch(Call1(FnOk, a), x, variants, k, g).value;
            && RanArm(m, Steps(m, st, n), n, st, end, vs, k, x.arms[i], ClearTag(v, ERR_TAG), env, fuel)
            && (ClearTag(v, ERR_TAG) == v <==> !Tagged(v, ERR_TAG))
  {
    hide Expression, GenMatch, Steps, Step, Exits, Tagged, ClearTag, RanArm, ResultMatch;
    var v := Eval(m, a, env).v;
    Cleared(v);
    Cleared(ClearTag(v, ERR_TAG));
    n := ResultMatchRuns(m, vs, Call1(FnOk, a), x, variants, k, hi, g, st, env, fuel);
    i := Picks(x.arms, ClearTag(v, ERR_TAG));
    var j :| 0 <= j < |x.arms| && x.arms[j].OkArm?;
    assert Takes(x.arms[j], ClearTag(v, ERR_TAG));
  }

  /** The same for `match @err(a) { Err(x) => ... }`. */
  lemma ErrRoundTrip(m: Machine, vs: seq<string>, a: Expr, x: Match, variants: nat, k: nat, hi: nat, g: Gen,
                     st: State, env: Env, fuel: nat) returns (n: nat, i: nat)
    requires ResultMatch(m, vs, Call1(FnErr, a), x, variants, k, hi, g, st, env)
    requires HasErr(x.arms) && Eval(m, a, env).Value?
    ensures i < |x.arms| && x.arms[i].ErrArm?
    ensures var v, end := Eval(m, a, env).v, GenMatch(Call1(FnErr, a), x, variants, k, g).value;
            && RanArm(m, Steps(m, st, n), n, st, end, vs, k, x.arms[i], ClearTag(v, ERR_TAG), env, fuel)
            && (ClearTag(v, ERR_TAG) == v <==> !Tagged(v, ERR_TAG))
  {
    hide Expression, GenMatch, Steps, Step, Exits, Tagged, ClearTag, SetTag, RanArm, ResultMatch;
    var v := Eval(m, a, env).v;
    Cleared(v);
    TagSet(v);
    n := ResultMatchRuns(m, vs, Call1(FnErr, a), x, variants, k, hi, g, st, env, fuel);
    i := Picks(x.arms, SetTag(v, ERR_TAG));
    var j :| 0 <= j < |x.arms| && x.arms[j].ErrArm?;
    assert Takes(x.arms[j], SetTag(v, ERR_TAG));
  }
}
