// CALL and RET over whole runs of arbitrary code: saved frames are never
// disturbed while their call is open, and the return that closes a call comes
// back behind it with the caller's registers.

module CallDiscipline {
  import opened Words
  import opened Isa
  import opened Vm

  /** How one instruction may move the call stack. */
  ghost predicate StackMove(st: State, after: State)
    requires Valid(st) && Valid(after)
  {
    var s, t := st.stack, after.stack;
    || t == s
    || (s.depth < MAX_CALL_DEPTH && t.depth == s.depth + 1
        && t.retIps == s.retIps[s.depth := t.retIps[s.depth]]
        && t.frames == s.frames[s.depth := t.frames[s.depth]])
    || ClosesCall(st, after)
  }

  /** The step pops the innermost frame and restores what it saved. */
  ghost predicate ClosesCall(st: State, after: State)
    requires Valid(st) && Valid(after)
  {
    var s := st.stack;
    && s.depth > 0
    && after.stack == s.(depth := s.depth - 1)
    && after.ip == s.retIps[s.depth - 1]
    && after.regs[1..16] == s.frames[s.depth - 1][1..]
    && after.regs[0] == st.regs[0]
    && after.regs[16..] == st.regs[16..]
  }

  lemma RetClosesCall(st: State)
    requires Valid(st) && st.stack.depth > 0
    ensures ExecRet(st).Next? && ClosesCall(st, ExecRet(st).st)
  {
  }

  lemma ExecMovesStack(m: Machine, i: Instr, st: State)
    requires Valid(st)
    ensures Exec(m, i, st).Next? ==> StackMove(st, Exec(m, i, st).st)
  {
    match i.op
    case Ret => if st.stack.depth > 0 { RetClosesCall(st); }
    case _ =>
  }

  lemma StepMovesStack(m: Machine, st: State)
    requires Valid(st)
    ensures Step(m, st).Next? ==> StackMove(st, Step(m, st).st)
  {
    if st.ip + 4 <= |m.code| {
      ExecMovesStack(m, Fetch(m.code, st.ip), st.(ip := st.ip + 4, tick := st.tick + 1));
    }
  }

  /** Through the next n steps the depth stays above d. */
  ghost predicate StaysAbove(m: Machine, st: State, n: nat, d: nat)
    requires Valid(st)
    decreases n
  {
    st.stack.depth > d && (n > 0 && Step(m, st).Next? ==> StaysAbove(m, Step(m, st).st, n - 1, d))
  }

  ghost predicate SameBelow(s: CallStack, t: CallStack, d: nat)
    requires ValidStack(s) && ValidStack(t) && d <= MAX_CALL_DEPTH
  {
    s.retIps[..d] == t.retIps[..d] && s.frames[..d] == t.frames[..d]
  }

  lemma {:induction false} OpenFramesStable(m: Machine, st: State, n: nat, d: nat)
    requires Valid(st) && d < MAX_CALL_DEPTH && StaysAbove(m, st, n, d)
    ensures SameBelow(st.stack, Steps(m, st, n).st.stack, d + 1)
    decreases n
  {
    if n > 0 && Step(m, st).Next? {
      StepMovesStack(m, st);
      OpenFramesStable(m, Step(m, st).st, n - 1, d);
    } else if n > 0 {
      HaltKeepsStack(m, st);
    }
  }

  lemma HaltKeepsStack(m: Machine, st: State)
    requires Valid(st) && !Step(m, st).Next?
    ensures Step(m, st).st.stack == st.stack
  {
  }

  /** A CALL enters its callee at the address in its last two code bytes, with
      every register and all storage as they were. */
  lemma CallEnters(m: Machine, st: State)
    requires Valid(st) && st.ip + 4 <= |m.code| && Fetch(m.code, st.ip).op == Call
    ensures Step(m, st).Next? <==> st.stack.depth < MAX_CALL_DEPTH
    ensures st.stack.depth == MAX_CALL_DEPTH ==> Step(m, st).Faulted? && Step(m, st).fault == StackOverflow
    ensures Step(m, st).Next? ==>
              var entered := Step(m, st).st;
              && entered.ip == 256 * (m.code[st.ip + 2] as int) + m.code[st.ip + 3] as int
              && entered.regs == st.regs && entered.mem == st.mem
  {
  }

  /** A CALL enters its callee at the address the code bytes give, with the
      caller's registers. Then any number of steps that keep the call open, then
      the step that closes it: execution resumes behind the CALL with registers
      1 to 15 as they were at the CALL, register 0 and the handle registers 16 to 19
      as the callee left them, and every outer frame untouched. */
  lemma CallReturns(m: Machine, st: State, n: nat)
    requires Valid(st) && |m.code| < 0x1_0000
    requires st.ip + 4 <= |m.code| && Fetch(m.code, st.ip).op == Call
    requires st.stack.depth < MAX_CALL_DEPTH
    requires Step(m, st).Next? && StaysAbove(m, Step(m, st).st, n, st.stack.depth)
    requires Steps(m, Step(m, st).st, n).Next?
    requires Step(m, Steps(m, Step(m, st).st, n).st).Next?
    requires Step(m, Steps(m, Step(m, st).st, n).st).st.stack.depth == st.stack.depth
    ensures var callee := Steps(m, Step(m, st).st, n).st;
            var back := Step(m, callee).st;
            && Step(m, st).st.ip == 256 * (m.code[st.ip + 2] as int) + m.code[st.ip + 3] as int
            && Step(m, st).st.regs == st.regs && Step(m, st).st.mem == st.mem
            && back.ip == st.ip + 4
            && back.regs[1..16] == st.regs[1..16]
            && back.regs[0] == callee.regs[0]
            && back.regs[16..] == callee.regs[16..]
            && SameBelow(st.stack, back.stack, st.stack.depth)
  {
    hide Step, Steps, StaysAbove;
    var d := st.stack.depth;
    var entered := Step(m, st).st;
    var callee := Steps(m, entered, n).st;
    var back := Step(m, callee).st;
    CallEnters(m, st);
    CallOpens(m, st);
    OpenFramesStable(m, entered, n, d);
    StaysAboveAtEnd(m, entered, n, d);
    StepMovesStack(m, callee);
    assert ClosesCall(callee, back);
    assert callee.stack.frames[..d + 1][d] == entered.stack.frames[..d + 1][d];
    assert callee.stack.retIps[..d + 1][d] == entered.stack.retIps[..d + 1][d];
    SameBelowShrinks(entered.stack, callee.stack, d);
  }

  /** A CALL saves the address behind it and registers 0 to 15. */
  lemma CallOpens(m: Machine, st: State)
    requires Valid(st) && |m.code| < 0x1_0000 && st.ip + 4 <= |m.code| && Fetch(m.code, st.ip).op == Call
    requires st.stack.depth < MAX_CALL_DEPTH && Step(m, st).Next?
    ensures var d, entered := st.stack.depth, Step(m, st).st;
            && entered.stack.depth == d + 1
            && entered.stack.retIps[d] == st.ip + 4 && entered.stack.frames[d] == st.regs[..16]
            && SameBelow(st.stack, entered.stack, d)
  {
  }

  lemma SameBelowShrinks(s: CallStack, t: CallStack, d: nat)
    requires ValidStack(s) && ValidStack(t) && d < MAX_CALL_DEPTH && SameBelow(s, t, d + 1)
    ensures SameBelow(s, t, d)
  {
    assert s.retIps[..d] == s.retIps[..d + 1][..d];
    assert t.retIps[..d] == t.retIps[..d + 1][..d];
    assert s.frames[..d] == s.frames[..d + 1][..d];
    assert t.frames[..d] == t.frames[..d + 1][..d];
  }

  lemma {:induction false} StaysAboveAtEnd(m: Machine, st: State, n: nat, d: nat)
    requires Valid(st) && StaysAbove(m, st, n, d) && Steps(m, st, n).Next?
    ensures Steps(m, st, n).st.stack.depth > d
    decreases n
  {
    if n > 0 {
      StaysAboveAtEnd(m, Step(m, st).st, n - 1, d);
    }
  }
}
