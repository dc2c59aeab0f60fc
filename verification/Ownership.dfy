// The compiler's flow-sensitive check that hardware handles are used
// linearly, and what it buys: in every run of an accepted script no live
// resource is overwritten, no dead handle is used, and every captured
// resource is sent, released or dropped exactly once.

module Ownership {

  // ---- the checker ---------------------------------------------------------

  datatype Typestate = Unallocated | Captured | Sent | Dropped | Moved

  datatype OwnError =
    | LinearOverwrite | UseAfterMove | UseBeforeAlloc | DoubleSend | DoubleRelease
    | TypestateMismatch | UnconsumedHandle

  datatype Checked = Accept(states: seq<Typestate>) | Reject(error: OwnError)

  /** The four handle registers. */
  type Slot = s: nat | s < 4

  datatype Source = Fresh | From(slot: Slot)

  datatype Stmt =
    | Other
    | Assign(target: Slot, rhs: Source)
    | Send(slot: Slot)
    | Release(slot: Slot)
    | Seq(s1: Stmt, s2: Stmt)
    | Within(body: Stmt, drop: bool)
    | If(thn: Stmt)
    | IfElse(thn: Stmt, els: Stmt)
    | Loop(body: Stmt)

  function CheckAssign(t: Slot, rhs: Source, s: seq<Typestate>): (r: Checked)
    requires |s| == 4
    ensures r.Accept? ==> |r.states| == 4
  {
    if s[t] == Captured then Reject(LinearOverwrite)
    else
      match rhs
      case Fresh => Accept(s[t := Captured])
      case From(src) =>
        match s[src]
        case Moved => Reject(UseAfterMove)
        case Unallocated => Reject(UseBeforeAlloc)
        case Captured => Accept(s[src := Moved][t := Captured])
        case _ => Reject(UseAfterMove)
  }

  /** `@send` and `@release`, which differ in the new state and in the error
      for a handle that is already gone. */
  function CheckConsume(h: Slot, to: Typestate, again: OwnError, s: seq<Typestate>): (r: Checked)
    requires |s| == 4
    ensures r.Accept? ==> |r.states| == 4
  {
    match s[h]
    case Unallocated => Reject(UseBeforeAlloc)
    case Moved => Reject(UseAfterMove)
    case Captured => Accept(s[h := to])
    case _ => Reject(again)
  }

  function DropAll(s: seq<Typestate>): (r: seq<Typestate>)
    ensures |r| == |s|
    ensures forall i :: 0 <= i < |s| ==> r[i] == if s[i] == Captured then Dropped else s[i]
  {
    seq(|s|, i requires 0 <= i < |s| => if s[i] == Captured then Dropped else s[i])
  }

  /** Branch states that may meet. */
  predicate Merges(a: Typestate, b: Typestate) {
    a == b || (a == Sent && b == Dropped) || (a == Dropped && b == Sent)
  }

  /** States a loop body may lead from and to. */
  predicate Confined(a: Typestate, b: Typestate) {
    a == b || (a == Unallocated && b in {Sent, Dropped, Moved})
  }

  function Merge(a: seq<Typestate>, b: seq<Typestate>): (r: Checked)
    requires |a| == |b| == 4
  {
    if forall i :: 0 <= i < 4 ==> Merges(a[i], b[i]) then Accept(a) else Reject(TypestateMismatch)
  }

  function Confine(pre: seq<Typestate>, post: seq<Typestate>): (r: Checked)
    requires |pre| == |post| == 4
  {
    if forall i :: 0 <= i < 4 ==> Confined(pre[i], post[i]) then Accept(post) else Reject(TypestateMismatch)
  }

  function Check(p: Stmt, s: seq<Typestate>): (r: Checked)
    requires |s| == 4
    ensures r.Accept? ==> |r.states| == 4
  {
    match p
    case Other => Accept(s)
    case Assign(t, rhs) => CheckAssign(t, rhs, s)
    case Send(h) => CheckConsume(h, Sent, DoubleSend, s)
    case Release(h) => CheckConsume(h, Dropped, DoubleRelease, s)
    case Seq(p1, p2) =>
      var r := Check(p1, s);
      if r.Accept? then Check(p2, r.states) else r
    case Within(body, drop) =>
      var r := Check(body, s);
      if r.Accept? && drop then Accept(DropAll(r.states)) else r
    case If(thn) =>
      var r := Check(thn, s);
      if r.Accept? then Merge(r.states, s) else r
    case IfElse(thn, els) =>
      var r := Check(thn, s);
      if r.Reject? then r
      else
        var q := Check(els, s);
        if q.Reject? then q else Merge(r.states, q.states)
    case Loop(body) =>
      var r := Check(body, s);
      if r.Accept? then Confine(s, r.states) else r
  }

  const START: seq<Typestate> := [Unallocated, Unallocated, Unallocated, Unallocated]

  /** The verdict on a whole script: none of its handles may stay captured. */
  function CheckScript(p: Stmt): (r: Checked) {
    var r := Check(p, START);
    if r.Accept? && Captured in r.states then Reject(UnconsumedHandle) else r
  }

  // ---- the checker as the compiler runs it --------------------------------

  class HandleChecker {
    const states: array<Typestate>

    constructor ()
      ensures states[..] == START && fresh(states)
    {
      states := new Typestate[4](_ => Unallocated);
    }

    method Assign(t: Slot, rhs: Source) returns (e: seq<OwnError>)
      requires states.Length == 4
      modifies states
      ensures Reports(CheckAssign(t, rhs, old(states[..])), e, states[..])
    {
      if states[t] == Captured { return [LinearOverwrite]; }
      if rhs.From? {
        match states[rhs.slot]
        case Moved => return [UseAfterMove];
        case Unallocated => return [UseBeforeAlloc];
        case Captured => states[rhs.slot] := Moved;
        case _ => return [UseAfterMove];
      }
      states[t] := Captured;
      e := [];
    }

    method Consume(h: Slot, to: Typestate, again: OwnError) returns (e: seq<OwnError>)
      requires states.Length == 4
      modifies states
      ensures Reports(CheckConsume(h, to, again, old(states[..])), e, states[..])
    {
      match states[h]
      case Unallocated => e := [UseBeforeAlloc];
      case Moved => e := [UseAfterMove];
      case Captured => states[h] := to; e := [];
      case _ => e := [again];
    }

    method DropCaptured()
      requires states.Length == 4
      modifies states
      ensures states[..] == DropAll(old(states[..]))
    {
      for slot := 0 to 4
        invariant forall i :: 0 <= i < 4 ==>
          states[i] == if i < slot && old(states[i]) == Captured then Dropped else old(states[i])
      {
        if states[slot] == Captured { states[slot] := Dropped; }
      }
    }

    method Restore(saved: seq<Typestate>)
      requires states.Length == |saved| == 4
      modifies states
      ensures states[..] == saved
    {
      forall i | 0 <= i < 4 { states[i] := saved[i]; }
    }

    method Statement(p: Stmt) returns (e: seq<OwnError>)
      requires states.Length == 4
      modifies states
      ensures Reports(Check(p, old(states[..])), e, states[..])
      decreases p
    {
      match p
      case Other => e := [];
      case Assign(t, rhs) => e := Assign(t, rhs);
      case Send(h) => e := Consume(h, Sent, DoubleSend);
      case Release(h) => e := Consume(h, Dropped, DoubleRelease);
      case Seq(p1, p2) =>
        e := Statement(p1);
        if e == [] { e := Statement(p2); }
      case Within(body, drop) =>
        e := Statement(body);
        if e == [] && drop { DropCaptured(); }
      case If(thn) =>
        var pre := states[..];
        e := Statement(thn);
        if e == [] { e := MergeCheck(states[..], pre); }
      case IfElse(thn, els) =>
        var pre := states[..];
        e := Statement(thn);
        if e != [] { return; }
        var statesIf := states[..];
        Restore(pre);
        e := Statement(els);
        if e != [] { return; }
        e := MergeCheck(statesIf, states[..]);
        Restore(statesIf);
      case Loop(body) =>
        var pre := states[..];
        e := Statement(body);
        if e == [] { e := ConfinementCheck(pre, states[..]); }
    }
  }

  /** No error and the new states, or the one error. */
  ghost predicate Reports(r: Checked, e: seq<OwnError>, states: seq<Typestate>) {
    match r
    case Accept(s) => e == [] && states == s
    case Reject(x) => e == [x]
  }

  method MergeCheck(a: seq<Typestate>, b: seq<Typestate>) returns (e: seq<OwnError>)
    requires |a| == |b| == 4
    ensures e == if Merge(a, b).Accept? then [] else [TypestateMismatch]
  {
    for slot := 0 to 4
      invariant forall i :: 0 <= i < slot ==> Merges(a[i], b[i])
    {
      if !Merges(a[slot], b[slot]) { return [TypestateMismatch]; }
    }
    e := [];
  }

  method ConfinementCheck(pre: seq<Typestate>, post: seq<Typestate>) returns (e: seq<OwnError>)
    requires |pre| == |post| == 4
    ensures e == if Confine(pre, post).Accept? then [] else [TypestateMismatch]
  {
    for slot := 0 to 4
      invariant forall i :: 0 <= i < slot ==> Confined(pre[i], post[i])
    {
      if !Confined(pre[slot], post[slot]) { return [TypestateMismatch]; }
    }
    e := [];
  }

  /** The verdict on a whole script. */
  method CompileHandles(p: Stmt) returns (e: seq<OwnError>)
    ensures (e == []) == CheckScript(p).Accept?
    ensures CheckScript(p).Reject? ==> e == [CheckScript(p).error]
  {
    var c := new HandleChecker();
    e := c.Statement(p);
    if e != [] { return; }
    for i := 0 to 4
      invariant Captured !in c.states[..i]
    {
      if c.states[i] == Captured { return [UnconsumedHandle]; }
    }
  }

  // ---- runs ----------------------------------------------------------------

  datatype Held = Nothing | Holding(id: nat)

  /** What the handles hold, how many resources were captured so far, and
      which were consumed, in order. */
  datatype World = World(slots: seq<Held>, issued: nat, consumed: seq<nat>)

  datatype Violation = OverwroteLive | UsedDead

  datatype Outcome = Fine(w: World, rest: seq<nat>) | Broken(v: Violation) | Starved

  function Capture(t: Slot, w: World): World
    requires |w.slots| == 4
  {
    World(w.slots[t := Holding(w.issued)], w.issued + 1, w.consumed)
  }

  /** The resource goes from src to t. */
  function Move(src: Slot, t: Slot, w: World): World
    requires |w.slots| == 4
  {
    w.(slots := w.slots[src := Nothing][t := w.slots[src]])
  }

  function Dispose(h: Slot, w: World): World
    requires |w.slots| == 4
  {
    match w.slots[h]
    case Holding(id) => w.(slots := w.slots[h := Nothing], consumed := w.consumed + [id])
    case Nothing => w
  }

  function DisposeAll(w: World): World
    requires |w.slots| == 4
  {
    Dispose(3, Dispose(2, Dispose(1, Dispose(0, w))))
  }

  function RunAssign(t: Slot, rhs: Source, w: World, o: seq<nat>): Outcome
    requires |w.slots| == 4
  {
    if w.slots[t].Holding? then Broken(OverwroteLive)
    else if rhs.Fresh? then Fine(Capture(t, w), o)
    else if w.slots[rhs.slot].Nothing? then Broken(UsedDead)
    else Fine(Move(rhs.slot, t, w), o)
  }

  /** Branches and iteration counts are read from the oracle o, so that all
      oracles together are all runs. */
  function Run(p: Stmt, w: World, o: seq<nat>): (r: Outcome)
    requires |w.slots| == 4
    ensures r.Fine? ==> |r.w.slots| == 4
    decreases p, 0
  {
    match p
    case Other => Fine(w, o)
    case Assign(t, rhs) => RunAssign(t, rhs, w, o)
    case Send(h) => if w.slots[h].Nothing? then Broken(UsedDead) else Fine(Dispose(h, w), o)
    case Release(h) => if w.slots[h].Nothing? then Broken(UsedDead) else Fine(Dispose(h, w), o)
    case Seq(p1, p2) =>
      var r := Run(p1, w, o);
      if r.Fine? then Run(p2, r.w, r.rest) else r
    case Within(body, drop) =>
      var r := Run(body, w, o);
      if r.Fine? && drop then Fine(DisposeAll(r.w), r.rest) else r
    case If(thn) =>
      if o == [] then Starved else if o[0] != 0 then Run(thn, w, o[1..]) else Fine(w, o[1..])
    case IfElse(thn, els) =>
      if o == [] then Starved else if o[0] != 0 then Run(thn, w, o[1..]) else Run(els, w, o[1..])
    case Loop(body) =>
      if o == [] then Starved else Repeat(body, o[0], w, o[1..])
  }

  function Repeat(body: Stmt, n: nat, w: World, o: seq<nat>): (r: Outcome)
    requires |w.slots| == 4
    ensures r.Fine? ==> |r.w.slots| == 4
    decreases body, 1, n
  {
    if n == 0 then Fine(w, o)
    else
      var r := Run(body, w, o);
      if r.Fine? then Repeat(body, n - 1, r.w, r.rest) else r
  }

  const EMPTY: World := World([Nothing, Nothing, Nothing, Nothing], 0, [])

  // ---- the books: where every captured resource is -------------------------

  function Count(h: Held): nat { if h.Holding? then 1 else 0 }

  /** Every captured resource is held by exactly one handle or was consumed
      exactly once, and never both. */
  ghost predicate Balanced(w: World) {
    && |w.slots| == 4
    && w.issued == |w.consumed| + Count(w.slots[0]) + Count(w.slots[1]) + Count(w.slots[2]) + Count(w.slots[3])
    && (forall i :: 0 <= i < 4 && w.slots[i].Holding? ==> w.slots[i].id < w.issued && w.slots[i].id !in w.consumed)
    && (forall i, j :: 0 <= i < j < 4 && w.slots[i].Holding? ==> w.slots[i] != w.slots[j])
    && (forall i :: 0 <= i < |w.consumed| ==> w.consumed[i] < w.issued)
    && (forall i, j :: 0 <= i < j < |w.consumed| ==> w.consumed[i] != w.consumed[j])
  }

  /** A handle is live exactly if the checker says it is captured. */
  ghost predicate Tracks(s: seq<Typestate>, w: World) {
    |s| == |w.slots| == 4 && forall i :: 0 <= i < 4 ==> (s[i] == Captured <==> w.slots[i].Holding?)
  }

  lemma CaptureBalanced(t: Slot, w: World)
    requires Balanced(w) && w.slots[t].Nothing?
    ensures Balanced(Capture(t, w))
  {
  }

  lemma MoveBalanced(src: Slot, t: Slot, w: World)
    requires Balanced(w) && w.slots[t].Nothing? && w.slots[src].Holding?
    ensures Balanced(Move(src, t, w))
  {
  }

  lemma DisposeBalanced(h: Slot, w: World)
    requires Balanced(w)
    ensures Balanced(Dispose(h, w)) && Dispose(h, w).issued == w.issued
    ensures Dispose(h, w).slots == w.slots[h := Nothing]
  {
  }

  lemma DisposeAllBalanced(w: World)
    requires Balanced(w)
    ensures Balanced(DisposeAll(w)) && DisposeAll(w).slots == [Nothing, Nothing, Nothing, Nothing]
    ensures DisposeAll(w).issued == w.issued
  {
    assert |w.slots| == 4;
    hide Dispose, Balanced;
    DisposeBalanced(0, w);
    DisposeBalanced(1, Dispose(0, w));
    DisposeBalanced(2, Dispose(1, Dispose(0, w)));
    DisposeBalanced(3, Dispose(2, Dispose(1, Dispose(0, w))));
  }

  // ---- soundness over all runs ---------------------------------------------

  lemma ConfinedTracks(pre: seq<Typestate>, post: seq<Typestate>, w: World)
    requires |pre| == |post| == 4 && Confine(pre, post).Accept? && Tracks(post, w)
    ensures Tracks(pre, w)
  {
    forall i | 0 <= i < 4 ensures pre[i] == Captured <==> post[i] == Captured {
      assert Confined(pre[i], post[i]);
    }
  }

  lemma MergedTracks(a: seq<Typestate>, b: seq<Typestate>, w: World)
    requires |a| == |b| == 4 && Merge(a, b).Accept? && Tracks(b, w)
    ensures Tracks(a, w)
  {
    forall i | 0 <= i < 4 ensures a[i] == Captured <==> b[i] == Captured {
      assert Merges(a[i], b[i]);
    }
  }

  lemma AssignSound(t: Slot, rhs: Source, s: seq<Typestate>, w: World, o: seq<nat>)
    requires Tracks(s, w) && Balanced(w) && CheckAssign(t, rhs, s).Accept?
    ensures RunAssign(t, rhs, w, o).Fine?
    ensures Tracks(CheckAssign(t, rhs, s).states, RunAssign(t, rhs, w, o).w) && Balanced(RunAssign(t, rhs, w, o).w)
  {
    if rhs.Fresh? { CaptureBalanced(t, w); } else { MoveBalanced(rhs.slot, t, w); }
  }

  /** No run of an accepted statement breaks ownership; the checker's states
      track the handles and the books stay balanced. */
  lemma {:induction false} CheckIsSound(p: Stmt, s: seq<Typestate>, w: World, o: seq<nat>)
    requires Tracks(s, w) && Balanced(w) && Check(p, s).Accept?
    ensures var r := Run(p, w, o);
            && !r.Broken?
            && (r.Fine? ==> Tracks(Check(p, s).states, r.w) && Balanced(r.w))
    decreases p, 0
  {
    hide Balanced, CheckAssign, RunAssign, Merge, Confine;
    match p
    case Other =>
    case Assign(t, rhs) => AssignSound(t, rhs, s, w, o);
    case Send(h) => DisposeBalanced(h, w);
    case Release(h) => DisposeBalanced(h, w);
    case Seq(p1, p2) =>
      CheckIsSound(p1, s, w, o);
      var r := Run(p1, w, o);
      if r.Fine? { CheckIsSound(p2, Check(p1, s).states, r.w, r.rest); }
    case Within(body, drop) =>
      CheckIsSound(body, s, w, o);
      var r := Run(body, w, o);
      if r.Fine? && drop { DisposeAllBalanced(r.w); }
    case If(thn) =>
      MergeAccepts(Check(thn, s).states, s);
      if o != [] {
        if o[0] != 0 { CheckIsSound(thn, s, w, o[1..]); } else { MergedTracks(Check(thn, s).states, s, w); }
      }
    case IfElse(thn, els) =>
      var a, b := Check(thn, s).states, Check(els, s).states;
      MergeAccepts(a, b);
      if o != [] {
        if o[0] != 0 { CheckIsSound(thn, s, w, o[1..]); } else {
          CheckIsSound(els, s, w, o[1..]);
          var r := Run(els, w, o[1..]);
          if r.Fine? { MergedTracks(a, b, r.w); }
        }
      }
    case Loop(body) =>
      if o != [] { RepeatSound(body, o[0], s, w, o[1..]); }
      ConfineAccepts(s, Check(body, s).states);
  }

  lemma MergeAccepts(a: seq<Typestate>, b: seq<Typestate>)
    requires |a| == |b| == 4 && Merge(a, b).Accept?
    ensures Merge(a, b) == Accept(a)
  {
  }

  lemma ConfineAccepts(a: seq<Typestate>, b: seq<Typestate>)
    requires |a| == |b| == 4 && Confine(a, b).Accept?
    ensures Confine(a, b) == Accept(b)
  {
  }

  /** Any number of rounds, zero included. */
  lemma {:induction false} RepeatSound(body: Stmt, n: nat, s: seq<Typestate>, w: World, o: seq<nat>)
    requires Tracks(s, w) && Balanced(w) && Check(body, s).Accept? && Confine(s, Check(body, s).states).Accept?
    ensures var r := Repeat(body, n, w, o);
            && !r.Broken?
            && (r.Fine? ==> Tracks(Check(body, s).states, r.w) && Balanced(r.w))
    decreases body, 1, n
  {
    hide Balanced, Confine;
    if n > 0 {
      CheckIsSound(body, s, w, o);
      var r := Run(body, w, o);
      if r.Fine? {
        ConfinedTracks(s, Check(body, s).states, r.w);
        RepeatSound(body, n - 1, s, r.w, r.rest);
      }
    } else {
      SameCaptures(s, Check(body, s).states, w);
    }
  }

  lemma SameCaptures(pre: seq<Typestate>, post: seq<Typestate>, w: World)
    requires |pre| == |post| == 4 && Confine(pre, post).Accept? && Tracks(pre, w)
    ensures Tracks(post, w)
  {
    forall i | 0 <= i < 4 ensures pre[i] == Captured <==> post[i] == Captured {
      assert Confined(pre[i], post[i]);
    }
  }

  function Numbers(n: nat): (r: set<nat>)
    ensures |r| == n && forall id :: id in r <==> 0 <= id < n
  {
    if n == 0 then {} else Numbers(n - 1) + {n - 1}
  }

  function Elements(s: seq<nat>): (r: set<nat>)
    ensures forall id :: id in r <==> id in s
  {
    if s == [] then {} else Elements(s[..|s| - 1]) + {s[|s| - 1]}
  }

  lemma {:induction false} Distinct(s: seq<nat>)
    requires forall i, j :: 0 <= i < j < |s| ==> s[i] != s[j]
    ensures |Elements(s)| == |s|
  {
    if s != [] {
      Distinct(s[..|s| - 1]);
      assert s[|s| - 1] !in s[..|s| - 1];
    }
  }

  /** Different numbers below n, n of them, are all the numbers below n. */
  lemma AllBelow(s: seq<nat>, n: nat)
    requires |s| == n
    requires forall i :: 0 <= i < n ==> s[i] < n
    requires forall i, j :: 0 <= i < j < n ==> s[i] != s[j]
    ensures forall id :: 0 <= id < n ==> id in s
  {
    Distinct(s);
    forall id: nat | id < n ensures id in s {
      if id !in s {
        assert Elements(s) <= Numbers(n) - {id};
        SubsetSize(Elements(s), Numbers(n) - {id});
      }
    }
  }

  lemma {:induction false} SubsetSize(a: set<nat>, b: set<nat>)
    requires a <= b
    ensures |a| <= |b|
  {
    if x :| x in a { SubsetSize(a - {x}, b - {x}); }
  }

  /** The ownership theorem: whatever branches an accepted script takes and
      however often its loops go round, it never overwrites a live resource
      nor uses a dead handle; when it ends no handle is live, and the resources
      it captured are exactly those it sent, released or dropped, once each. */
  lemma AcceptedScriptsAreLinear(p: Stmt, o: seq<nat>)
    requires CheckScript(p).Accept?
    ensures !Run(p, EMPTY, o).Broken?
    ensures Run(p, EMPTY, o).Fine? ==>
      var w := Run(p, EMPTY, o).w;
      && (forall i :: 0 <= i < 4 ==> w.slots[i] == Nothing)
      && w.issued == |w.consumed|
      && (forall i, j :: 0 <= i < j < |w.consumed| ==> w.consumed[i] != w.consumed[j])
      && (forall id :: 0 <= id < w.issued ==> id in w.consumed)
  {
    hide Run, Check;
    CheckIsSound(p, START, EMPTY, o);
    if Run(p, EMPTY, o).Fine? {
      var w := Run(p, EMPTY, o).w;
      assert forall i :: 0 <= i < 4 ==> w.slots[i] == Nothing;
      AllBelow(w.consumed, w.issued);
    }
  }

  // ---- how exact the check is -----------------------------------------------

  /** No branches and no loops. */
  predicate Straight(p: Stmt) {
    match p
    case Seq(p1, p2) => Straight(p1) && Straight(p2)
    case Within(body, _) => Straight(body)
    case If(_) | IfElse(_, _) | Loop(_) => false
    case _ => true
  }

  lemma {:induction false} StraightExact(p: Stmt, s: seq<Typestate>, w: World, o: seq<nat>)
    requires Straight(p) && Tracks(s, w) && Balanced(w)
    ensures Check(p, s).Accept? <==> Run(p, w, o).Fine?
    ensures !Run(p, w, o).Starved?
  {
    hide Balanced;
    match p
    case Seq(p1, p2) =>
      StraightExact(p1, s, w, o);
      if Check(p1, s).Accept? {
        CheckIsSound(p1, s, w, o);
        StraightExact(p2, Check(p1, s).states, Run(p1, w, o).w, Run(p1, w, o).rest);
      }
    case Within(body, _) => StraightExact(body, s, w, o);
    case _ =>
  }

  /** A straight script is refused for an overwrite exactly if its run overwrites
      a live resource, and for a use of a handle exactly if it uses a dead one. */
  lemma {:induction false} StraightVerdict(p: Stmt, s: seq<Typestate>, w: World, o: seq<nat>)
    requires Straight(p) && Tracks(s, w) && Balanced(w)
    ensures Check(p, s) == Reject(LinearOverwrite) <==> Run(p, w, o) == Broken(OverwroteLive)
    ensures Check(p, s).Reject? && Check(p, s) != Reject(LinearOverwrite) <==> Run(p, w, o) == Broken(UsedDead)
  {
    hide Balanced;
    match p
    case Seq(p1, p2) =>
      StraightVerdict(p1, s, w, o);
      StraightExact(p1, s, w, o);
      if Check(p1, s).Accept? {
        CheckIsSound(p1, s, w, o);
        StraightVerdict(p2, Check(p1, s).states, Run(p1, w, o).w, Run(p1, w, o).rest);
      }
    case Within(body, _) => StraightVerdict(body, s, w, o); StraightExact(body, s, w, o);
    case _ =>
  }

  /** On straight-line scripts the check accepts exactly the linear ones. */
  lemma StraightScriptsExact(p: Stmt, o: seq<nat>)
    requires Straight(p)
    ensures CheckScript(p).Accept?
       <==> Run(p, EMPTY, o).Fine? && forall i :: 0 <= i < 4 ==> Run(p, EMPTY, o).w.slots[i] == Nothing
  {
    hide Run, Check, Straight;
    StraightExact(p, START, EMPTY, o);
    if Check(p, START).Accept? { CheckIsSound(p, START, EMPTY, o); }
  }

  /** How straight-line code leaves handle h that it finds in state t: what the
      last statement that names the handle does with it, and a captured handle
      is dropped where its block ends with a drop. */
  function LeftBy(p: Stmt, h: Slot, t: Typestate): Typestate {
    match p
    case Assign(target, rhs) =>
      if target == h then Captured else if rhs == From(h) then Moved else t
    case Send(x) => if x == h then Sent else t
    case Release(x) => if x == h then Dropped else t
    case Seq(p1, p2) => LeftBy(p2, h, LeftBy(p1, h, t))
    case Within(body, drop) =>
      var u := LeftBy(body, h, t);
      if drop && u == Captured then Dropped else u
    case _ => t
  }

  lemma {:induction false} StraightLeaves(p: Stmt, s: seq<Typestate>, h: Slot)
    requires Straight(p) && |s| == 4 && Check(p, s).Accept?
    ensures Check(p, s).states[h] == LeftBy(p, h, s[h])
  {
    match p
    case Seq(p1, p2) =>
      StraightLeaves(p1, s, h);
      StraightLeaves(p2, Check(p1, s).states, h);
    case Within(body, _) => StraightLeaves(body, s, h);
    case _ =>
  }

  lemma StraightStates(p: Stmt, s: seq<Typestate>)
    requires Straight(p) && |s| == 4
    ensures Check(p, s).Accept? ==> forall h: Slot :: Check(p, s).states[h] == LeftBy(p, h, s[h])
  {
    hide Check, Straight, LeftBy;
    if Check(p, s).Accept? {
      forall h: Slot ensures Check(p, s).states[h] == LeftBy(p, h, s[h]) { StraightLeaves(p, s, h); }
    }
  }

  /** Equal states, or sent on one side and released on the other. */
  predicate Alike(a: Typestate, b: Typestate) {
    a == b || ((a == Sent || a == Dropped) && (b == Sent || b == Dropped))
  }

  /** Both pieces of code leave every handle alike. */
  ghost predicate LeaveAlike(thn: Stmt, els: Stmt, s: seq<Typestate>)
    requires |s| == 4
  {
    forall h: Slot :: Alike(LeftBy(thn, h, s[h]), LeftBy(els, h, s[h]))
  }

  /** A round leaves every handle as it found it, or takes one that was never
      used and does not leave it captured. */
  ghost predicate Recloses(body: Stmt, s: seq<Typestate>)
    requires |s| == 4
  {
    forall h: Slot :: var a := LeftBy(body, h, s[h]); a == s[h] || (s[h] == Unallocated && a != Captured)
  }

  lemma MergeExact(a: seq<Typestate>, b: seq<Typestate>)
    requires |a| == |b| == 4
    ensures Merge(a, b).Accept? <==> forall h: Slot :: Alike(a[h], b[h])
    ensures Merge(a, b).Accept? ==> Merge(a, b) == Accept(a)
  {
    if Merge(a, b).Accept? {
      forall h: Slot ensures Alike(a[h], b[h]) { assert Merges(a[h], b[h]); }
    }
  }

  lemma ConfineExact(a: seq<Typestate>, b: seq<Typestate>)
    requires |a| == |b| == 4
    ensures Confine(a, b).Accept? <==> forall h: Slot :: b[h] == a[h] || (a[h] == Unallocated && b[h] != Captured)
    ensures Confine(a, b).Accept? ==> Confine(a, b) == Accept(b)
  {
    if Confine(a, b).Accept? {
      forall h: Slot ensures b[h] == a[h] || (a[h] == Unallocated && b[h] != Captured) { assert Confined(a[h], b[h]); }
    }
  }

  /** One level of the check of compound statements. */
  lemma CompoundShape(p: Stmt, q: Stmt, s: seq<Typestate>)
    requires |s| == 4
    ensures Check(If(p), s) == if Check(p, s).Accept? then Merge(Check(p, s).states, s) else Check(p, s)
    ensures Check(Loop(p), s) == if Check(p, s).Accept? then Confine(s, Check(p, s).states) else Check(p, s)
    ensures Check(IfElse(p, q), s)
         == if Check(p, s).Reject? then Check(p, s)
            else if Check(q, s).Reject? then Check(q, s) else Merge(Check(p, s).states, Check(q, s).states)
  {
    hide Merge, Confine;
  }

  /** Two straight branches are accepted exactly if both are linear and leave
      every handle alike; a send on one side may meet a release on the other. */
  lemma BranchesExact(thn: Stmt, els: Stmt, s: seq<Typestate>, w: World, o: seq<nat>)
    requires Straight(thn) && Straight(els) && Tracks(s, w) && Balanced(w)
    ensures Check(IfElse(thn, els), s).Accept?
       <==> Run(thn, w, o).Fine? && Run(els, w, o).Fine? && LeaveAlike(thn, els, s)
    ensures Check(IfElse(thn, els), s).Accept? ==> Check(IfElse(thn, els), s) == Check(thn, s)
  {
    hide Check, Run, Merge, Straight, LeftBy, Alike, Balanced;
    StraightExact(thn, s, w, o);
    StraightExact(els, s, w, o);
    CompoundShape(thn, els, s);
    StraightStates(thn, s);
    StraightStates(els, s);
    if Check(thn, s).Accept? && Check(els, s).Accept? { MergeExact(Check(thn, s).states, Check(els, s).states); }
  }

  /** A branch without an alternative is accepted exactly if it is linear and
      leaves every handle as it found it, up to send and release. */
  lemma BranchExact(thn: Stmt, s: seq<Typestate>, w: World, o: seq<nat>)
    requires Straight(thn) && Tracks(s, w) && Balanced(w)
    ensures Check(If(thn), s).Accept? <==> Run(thn, w, o).Fine? && LeaveAlike(thn, Other, s)
  {
    hide Check, Run, Merge, Straight, Alike, Balanced;
    StraightExact(thn, s, w, o);
    CompoundShape(thn, Other, s);
    StraightStates(thn, s);
    if Check(thn, s).Accept? { MergeExact(Check(thn, s).states, s); }
  }

  /** A loop over a straight body is accepted exactly if one round is linear
      and leaves every handle as it found it, or takes a handle never used
      before and does not leave it captured. */
  lemma LoopExact(body: Stmt, s: seq<Typestate>, w: World, o: seq<nat>)
    requires Straight(body) && Tracks(s, w) && Balanced(w)
    ensures Check(Loop(body), s).Accept? <==> Run(body, w, o).Fine? && Recloses(body, s)
    ensures Check(Loop(body), s).Accept? ==> Check(Loop(body), s) == Check(body, s)
  {
    hide Check, Run, Confine, Straight, LeftBy, Balanced;
    StraightExact(body, s, w, o);
    CompoundShape(body, Other, s);
    StraightStates(body, s);
    if Check(body, s).Accept? { ConfineExact(s, Check(body, s).states); }
  }

  /** No handle is left captured by a straight script. */
  ghost predicate LeavesNone(p: Stmt) {
    forall h: Slot :: LeftBy(p, h, Unallocated) != Captured
  }

  lemma AtStart(h: Slot)
    ensures START[h] == Unallocated
  {
  }

  /** A straight script ends with no handle live exactly if it leaves none
      captured, and that is what the verdict looks at. */
  lemma EndsClear(p: Stmt, o: seq<nat>)
    requires Straight(p) && Run(p, EMPTY, o).Fine?
    ensures Check(p, START).Accept?
    ensures Captured !in Check(p, START).states <==> Cleared(Run(p, EMPTY, o))
    ensures LeavesNone(p) <==> Cleared(Run(p, EMPTY, o))
  {
    hide Check, Run, Straight, LeftBy;
    StraightExact(p, START, EMPTY, o);
    CheckIsSound(p, START, EMPTY, o);
    TracksClear(Check(p, START).states, Run(p, EMPTY, o).w);
    NoneCaptured(p);
  }

  lemma TracksClear(s: seq<Typestate>, w: World)
    requires Tracks(s, w)
    ensures Captured !in s <==> forall i :: 0 <= i < 4 ==> w.slots[i] == Nothing
  {
    if Captured !in s {
      forall i | 0 <= i < 4 ensures w.slots[i] == Nothing { assert s[i] != Captured; }
    }
  }

  lemma NoneCaptured(p: Stmt)
    requires Straight(p) && Check(p, START).Accept?
    ensures Captured !in Check(p, START).states <==> LeavesNone(p)
  {
    hide Check, Straight, LeftBy;
    var c := Check(p, START).states;
    forall h: Slot ensures c[h] == LeftBy(p, h, Unallocated) {
      StraightLeaves(p, START, h);
      AtStart(h);
    }
    if LeavesNone(p) {
      forall i | 0 <= i < 4 ensures c[i] != Captured { assert LeftBy(p, i, Unallocated) != Captured; }
    } else {
      var h: Slot :| LeftBy(p, h, Unallocated) == Captured;
      assert c[h] == Captured;
    }
  }

  /** The run ended with no handle live. */
  predicate Cleared(r: Outcome) {
    r.Fine? && forall i :: 0 <= i < |r.w.slots| ==> r.w.slots[i] == Nothing
  }

  lemma RecloseAtStart(body: Stmt)
    ensures Recloses(body, START) <==> LeavesNone(body)
  {
    hide LeftBy;
    forall h: Slot ensures START[h] == Unallocated { AtStart(h); }
    if Recloses(body, START) {
      forall h: Slot ensures LeftBy(body, h, Unallocated) != Captured {
        assert LeftBy(body, h, START[h]) == LeftBy(body, h, Unallocated);
      }
    }
  }

  /** A script that is one loop is accepted exactly if a round of it, run alone,
      is linear and leaves no handle live. */
  lemma LoopScriptExact(body: Stmt, o: seq<nat>)
    requires Straight(body)
    ensures CheckScript(Loop(body)).Accept? <==> Cleared(Run(body, EMPTY, o))
  {
    hide Check, Run, Straight, LeftBy, Recloses, LeavesNone;
    LoopExact(body, START, EMPTY, o);
    RecloseAtStart(body);
    if Run(body, EMPTY, o).Fine? { EndsClear(body, o); }
  }

  lemma AlikeAtStart(thn: Stmt, els: Stmt)
    requires LeaveAlike(thn, els, START)
    ensures LeavesNone(thn) <==> LeavesNone(els)
  {
    hide LeftBy;
    forall h: Slot ensures LeftBy(thn, h, Unallocated) == Captured <==> LeftBy(els, h, Unallocated) == Captured {
      AtStart(h);
      assert Alike(LeftBy(thn, h, START[h]), LeftBy(els, h, START[h]));
    }
  }

  /** A script that is one if/else is accepted exactly if both branches, run
      alone, are linear, leave no handle live, and leave every handle alike. */
  lemma BranchScriptExact(thn: Stmt, els: Stmt, o: seq<nat>)
    requires Straight(thn) && Straight(els)
    ensures CheckScript(IfElse(thn, els)).Accept?
       <==> Cleared(Run(thn, EMPTY, o)) && Cleared(Run(els, EMPTY, o)) && LeaveAlike(thn, els, START)
  {
    hide Check, Run, Straight, LeftBy, LeavesNone, LeaveAlike;
    BranchesExact(thn, els, START, EMPTY, o);
    if Run(thn, EMPTY, o).Fine? && Run(els, EMPTY, o).Fine? {
      EndsClear(thn, o);
      EndsClear(els, o);
      if LeaveAlike(thn, els, START) { AlikeAtStart(thn, els); }
    }
  }

  /** With branches it is stricter: a resource captured and sent in one branch
      only is refused, although every run is linear. */
  lemma RefusedThoughLinear(h: Slot, o: seq<nat>)
    ensures var p := If(Seq(Assign(h, Fresh), Send(h)));
            && CheckScript(p) == Reject(TypestateMismatch)
            && !Run(p, EMPTY, o).Broken?
            && (Run(p, EMPTY, o).Fine? ==> forall i :: 0 <= i < 4 ==> Run(p, EMPTY, o).w.slots[i] == Nothing)
  {
    var thn := Seq(Assign(h, Fresh), Send(h));
    assert Check(Assign(h, Fresh), START) == Accept(START[h := Captured]);
    assert Check(thn, START) == Accept(START[h := Captured][h := Sent]);
    assert !Merges(START[h := Captured][h := Sent][h], START[h]);
    if o != [] {
      var w := Capture(h, EMPTY);
      assert Run(Assign(h, Fresh), EMPTY, o[1..]) == Fine(w, o[1..]);
      assert Run(Send(h), w, o[1..]) == Fine(Dispose(h, w), o[1..]);
      assert Run(thn, EMPTY, o[1..]) == Fine(Dispose(h, w), o[1..]);
    }
  }
}
