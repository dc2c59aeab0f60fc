// Which matches the compiler accepts: both directions of its checks.

module MatchChecks {
  import opened Words
  import opened Isa
  import opened Vm
  import opened Lang
  import opened Stmts
  import opened Codegen
  import opened StmtGen
  import opened MatchStmt

  /** Each arm compiles behind the arms before it. */
  ghost predicate ArmsCompile(arms: seq<Arm>, r: u8, k: nat, g: Gen)
    requires WellFormed(g) && Variants(arms)
    decreases |arms|
  {
    arms != [] ==> GenArm(arms[0], r, k, g).Ok? && ArmsCompile(arms[1..], r, k, GenArm(arms[0], r, k, g).value)
  }

  /** The compiler behind them. */
  ghost function BehindArms(arms: seq<Arm>, r: u8, k: nat, g: Gen): (h: Gen)
    requires WellFormed(g) && Variants(arms) && ArmsCompile(arms, r, k, g)
    ensures WellFormed(h)
    decreases |arms|
  {
    if arms == [] then g else BehindArms(arms[1..], r, k, GenArm(arms[0], r, k, g).value)
  }

  ghost predicate NoneIn(arms: seq<Arm>, handled: set<nat>) {
    forall i :: 0 <= i < |arms| && arms[i].VariantArm? ==> arms[i].variant !in handled
  }

  lemma UnlikeTail(arms: seq<Arm>, handled: set<nat>)
    requires arms != []
    ensures Unlike(arms) && NoneIn(arms, handled) <==>
              && (arms[0].VariantArm? ==> arms[0].variant !in handled)
              && Unlike(arms[1..]) && NoneIn(arms[1..], Seen(arms[0], handled))
  {
    var t := arms[1..];
    assert forall i :: 0 <= i < |t| ==> t[i] == arms[i + 1];
    if Unlike(t) && NoneIn(t, Seen(arms[0], handled)) && (arms[0].VariantArm? ==> arms[0].variant !in handled) {
      forall i | 0 <= i < |arms| && arms[i].VariantArm?
        ensures arms[i].variant !in handled && (i > 0 && arms[0].VariantArm? ==> arms[i].variant != arms[0].variant)
      {
        if i > 0 { assert arms[i] == t[i - 1]; }
      }
      forall i, j | 0 <= i < j < |arms| && arms[i].VariantArm? && arms[j].VariantArm?
        ensures arms[i].variant != arms[j].variant
      {
        if i > 0 { assert arms[i] == t[i - 1] && arms[j] == t[j - 1]; }
      }
    }
  }

  /** Arms that compile are accepted exactly if none repeats a variant. */
  lemma {:induction false} ArmsAccepted(arms: seq<Arm>, r: u8, k: nat, g: Gen, handled: set<nat>)
    requires WellFormed(g) && Variants(arms)
    ensures GenArms(arms, r, k, g, handled).Ok? <==>
              ArmsCompile(arms, r, k, g) && Unlike(arms) && NoneIn(arms, handled)
    ensures GenArms(arms, r, k, g, handled).Ok? ==>
              ArmsCompile(arms, r, k, g) && GenArms(arms, r, k, g, handled).value == BehindArms(arms, r, k, g)
    decreases |arms|
  {
    hide GenArm, Unlike, NoneIn, Seen;
    if arms == [] {
      NothingAlike(handled);
    } else {
      UnlikeTail(arms, handled);
      if GenArm(arms[0], r, k, g).Ok? {
        ArmsAccepted(arms[1..], r, k, GenArm(arms[0], r, k, g).value, Seen(arms[0], handled));
      }
    }
  }

  lemma NothingAlike(handled: set<nat>)
    ensures Unlike([]) && NoneIn([], handled)
  {
  }

  // ---- every word has an arm ----------------------------------------------------

  predicate Taken(arms: seq<Arm>, w: i64) {
    exists i :: 0 <= i < |arms| && Takes(arms[i], w)
  }

  predicate VariantTaken(arms: seq<Arm>, v: nat) {
    exists i :: 0 <= i < |arms| && arms[i].VariantArm? && arms[i].variant == v
  }

  /** Each variant in range has its arm if there are arms for variants, and any
      word is taken by some arm if there are none; or there is a wildcard. */
  ghost predicate LeavesNone(x: Match, variants: nat) {
    || x.wild.Some?
    || (if exists i :: 0 <= i < |x.arms| && x.arms[i].VariantArm?
        then forall v: nat :: v < variants ==> VariantTaken(x.arms, v)
        else forall w: i64 :: Taken(x.arms, w))
  }

  lemma ExhaustiveIff(x: Match, variants: nat)
    ensures Exhaustive(x, variants) <==> LeavesNone(x, variants)
  {
    if x.wild.None? {
      if HasVariant(x.arms) {
        forall v: nat ensures v in Handled(x.arms) <==> VariantTaken(x.arms, v) {
        }
      } else {
        ResultsTaken(x.arms);
      }
    }
  }

  lemma ResultsTaken(arms: seq<Arm>)
    requires !HasVariant(arms)
    ensures (forall w: i64 :: Taken(arms, w)) <==> HasOk(arms) && HasErr(arms)
  {
    assert !Tagged(0, ERR_TAG) && Tagged(ERR_TAG, ERR_TAG);
    hide Tagged;
    if HasOk(arms) && HasErr(arms) {
      var i :| 0 <= i < |arms| && arms[i].OkArm?;
      var j :| 0 <= j < |arms| && arms[j].ErrArm?;
      forall w: i64 ensures Taken(arms, w) {
        assert Takes(arms[i], w) || Takes(arms[j], w);
      }
    }
    if forall w: i64 :: Taken(arms, w) {
      assert Taken(arms, 0) && Taken(arms, ERR_TAG);
      var i :| 0 <= i < |arms| && Takes(arms[i], 0);
      var j :| 0 <= j < |arms| && Takes(arms[j], ERR_TAG);
      assert arms[i].OkArm? && arms[j].ErrArm?;
    }
  }

  // ---- the whole match ------------------------------------------------------------

  /** The scrutinee, the arms and the wildcard compile one behind the other. */
  ghost predicate PartsCompile(e: Expr, x: Match, k: nat, g: Gen)
    requires WellFormed(g) && Variants(x.arms)
  {
    && k < 8 && Expression(e, Temp(k), k + 1, g).Ok?
    && var g1 := Expression(e, Temp(k), k + 1, g).value;
    && ArmsCompile(x.arms, Temp(k), k + 1, g1)
    && GenWild(x.wild, k + 1, BehindArms(x.arms, Temp(k), k + 1, g1)).Ok?
  }

  /** A match whose parts compile is accepted exactly if it has at most sixteen
      arms, wildcard included, repeats no variant and leaves no word without an
      arm. */
  lemma MatchAcceptedIff(e: Expr, x: Match, variants: nat, k: nat, g: Gen)
    requires WellFormed(g) && Variants(x.arms)
    ensures GenMatch(e, x, variants, k, g).Ok? <==>
              && PartsCompile(e, x, k, g) && |x.arms| + (if x.wild.Some? then 1 else 0) <= 16
              && Unlike(x.arms) && LeavesNone(x, variants)
  {
    hide Expression, GenArms, GenWild, Unlike, Exhaustive, LeavesNone, ArmsCompile, PatchAll, ArmEnds, WildEnds;
    ExhaustiveIff(x, variants);
    if k < 8 && Expression(e, Temp(k), k + 1, g).Ok? {
      var g1 := Expression(e, Temp(k), k + 1, g).value;
      ArmsAccepted(x.arms, Temp(k), k + 1, g1, {});
      assert NoneIn(x.arms, {});
    }
  }
}
