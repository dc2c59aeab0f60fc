// What pairs of instructions do together: a load after a store, a table load
// after its definition, and where the branches lead.

module MachineLaws {
  import opened Words
  import opened Isa
  import opened Vm
  import opened Storage

  // ---- text words --------------------------------------------------------------

  /** A word with the text tag, an offset below 2^24 and a length stands for the
      pool's bytes from there on, if the pool has them; one with the argument tag
      for the argument with the number in its low byte. */
  lemma TextWords(m: Machine, offset: nat, len: nat, k: u8)
    requires offset < 0x100_0000 && len < 0x1_0000_0000
    ensures TextOf(m, STR_TAG + offset * 0x1_0000_0000 + len)
         == if offset + len <= |m.strPool| then Text(m.strPool[offset..offset + len]) else NoText
    ensures TextOf(m, ARG_TAG + k) == if k < |m.args| then Text(m.args[k]) else NoText
  {
    hide Tagged, Unsigned;
    TextParts(offset, len);
    ArgParts(k);
  }

  lemma TextParts(offset: nat, len: nat)
    requires offset < 0x100_0000 && len < 0x1_0000_0000
    ensures var w: i64 := STR_TAG + offset * 0x1_0000_0000 + len;
            && Tagged(w, STR_TAG) && Unsigned(w) / 0x1_0000_0000 % 0x100_0000 == offset
            && Unsigned(w) % 0x1_0000_0000 == len
  {
  }

  lemma ArgParts(k: u8)
    ensures var w: i64 := ARG_TAG + k;
            !Tagged(w, STR_TAG) && Tagged(w, ARG_TAG) && Unsigned(w) % 256 == k
  {
  }

  /** MOV_STR leaves such a word; STREQ gives 1 exactly for equal words and for
      words that stand for the same bytes, and 0 otherwise. */
  lemma TextInstructions(m: Machine, st: State, rd: u8, a: u8, b: u8)
    requires Valid(st) && rd < 20
    ensures var o := Exec(m, Instr(MovStr, rd, a, b), st);
            && o.Next? && o.st == st.(regs := st.regs[rd := o.st.regs[rd]])
            && TextOf(m, o.st.regs[rd])
               == (if a as int + b as int <= |m.strPool| then Text(m.strPool[a..a as int + b as int]) else NoText)
    ensures a < 20 && b < 20 ==>
              var (o, x, y) := (Exec(m, Instr(StrEq, rd, a, b), st), st.regs[a], st.regs[b]);
              && o.Next? && o.st == st.(regs := st.regs[rd := o.st.regs[rd]]) && o.st.regs[rd] in {0, 1}
              && (o.st.regs[rd] == 1 <==> x == y || (TextOf(m, x) != NoText && TextOf(m, x) == TextOf(m, y)))
  {
    TextWords(m, a, b, 0);
    hide TextOf;
  }

  // ---- arrays ------------------------------------------------------------------

  /** After ARR_STORE of register v to element x of array i, ARR_LOAD of element y
      of array j gives that word if it is the same element, and otherwise what it
      gave before the store; both fault exactly for an index out of range. */
  lemma ArrayLoadAfterStore(m: Machine, st: State, lens: seq<nat>, i: u8, x: u8, v: u8, rd: u8, j: u8, y: u8)
    requires Valid(st) && Accepted(lens) && Agrees(st.mem, lens, |lens|) && i < |lens| && j < |lens|
    requires x < 20 && v < 20 && y < 20 && rd < 20
    ensures var (o, was) := (Exec(m, Instr(ArrStore, i, x, v), st), Exec(m, Instr(ArrLoad, rd, j, y), st));
            && (0 <= st.regs[x] < lens[i] <==> o.Next?) && (!o.Next? ==> o == Faulted(ArrayOutOfBounds, st))
            && (0 <= st.regs[y] < lens[j] <==> was.Next?) && (!was.Next? ==> was == Faulted(ArrayOutOfBounds, st))
            && (o.Next? && was.Next? ==>
                  var now := Exec(m, Instr(ArrLoad, rd, j, y), o.st);
                  && now.Next? && o.st == st.(mem := o.st.mem)
                  && now.st.regs == was.st.regs[rd := now.st.regs[rd]]
                  && now.st.regs[rd]
                     == if i == j && st.regs[x] == st.regs[y] then st.regs[v] else was.st.regs[rd])
  {
    hide Accepted, Agrees, LocateArray;
    RegionsDisjoint(st.mem, lens, i, st.regs[x], j, st.regs[y]);
    RegionsDisjoint(st.mem, lens, j, st.regs[y], i, st.regs[x]);
    if LocateArray(st.mem, i, st.regs[x]).At? {
      SamePlaces(st.mem, LocateArray(st.mem, i, st.regs[x]).index, st.regs[v], j, st.regs[y]);
    }
  }

  lemma SamePlaces(mem: Memory, a: nat, v: i64, j: nat, y: i64)
    requires ValidMemory(mem) && a < 256
    ensures ValidMemory(mem.(arraySlots := mem.arraySlots[a := v]))
    ensures LocateArray(mem.(arraySlots := mem.arraySlots[a := v]), j, y) == LocateArray(mem, j, y)
  {
  }

  // ---- structures, spill slots, tables -------------------------------------------

  /** The same for the fields of structures that were defined in order. */
  lemma FieldLoadAfterStore(m: Machine, st: State, from: Memory, counts: seq<nat>, i: u8, x: u8, v: u8,
                            rd: u8, j: u8, y: u8)
    requires Valid(st) && ValidMemory(from) && FieldCounts(counts) && i < |counts| && j < |counts|
    requires st.mem == StructsDefined(from, counts, |counts|) && v < 20 && rd < 20
    ensures var (o, was) := (Exec(m, Instr(StructStore, i, x, v), st), Exec(m, Instr(StructLoad, rd, j, y), st));
            && (o.Next? <==> x < counts[i] && SumTo(counts, i) + x < 256)
            && (o.Next? && was.Next? ==>
                  var now := Exec(m, Instr(StructLoad, rd, j, y), o.st);
                  && now.Next? && o.st == st.(mem := o.st.mem)
                  && now.st.regs == was.st.regs[rd := now.st.regs[rd]]
                  && now.st.regs[rd] == if i == j && x == y then st.regs[v] else was.st.regs[rd])
  {
    hide FieldCounts, StructsDefined, LocateStruct, Exec, SumTo;
    FieldsDisjoint(from, counts, i, x, j, y);
    CellLoadAfterStore(m, st, i, x, v, rd, j, y);
  }

  /** In any memory: the same cell or another. */
  lemma CellLoadAfterStore(m: Machine, st: State, i: u8, x: u8, v: u8, rd: u8, j: u8, y: u8)
    requires Valid(st) && v < 20 && rd < 20
    ensures var (a, b) := (LocateStruct(st.mem, i, x), LocateStruct(st.mem, j, y));
            var (o, was) := (Exec(m, Instr(StructStore, i, x, v), st), Exec(m, Instr(StructLoad, rd, j, y), st));
            && (o.Next? <==> a.At?) && (was.Next? <==> b.At?)
            && (a.At? && b.At? ==>
                  var now := Exec(m, Instr(StructLoad, rd, j, y), o.st);
                  && now.Next? && o.st == st.(mem := o.st.mem)
                  && now.st.regs == was.st.regs[rd := now.st.regs[rd]]
                  && now.st.regs[rd] == if a == b then st.regs[v] else was.st.regs[rd])
  {
    hide LocateStruct;
    if LocateStruct(st.mem, i, x).At? {
      SameFields(st.mem, LocateStruct(st.mem, i, x).index, st.regs[v], j, y);
    }
  }

  lemma SameFields(mem: Memory, a: nat, v: i64, j: nat, y: u8)
    requires ValidMemory(mem) && a < 256
    ensures ValidMemory(mem.(structSlots := mem.structSlots[a := v]))
    ensures LocateStruct(mem.(structSlots := mem.structSlots[a := v]), j, y) == LocateStruct(mem, j, y)
  {
  }

  /** A spilled register comes back from its slot, and only from that; slots from
      32 on take nothing and read as zero. */
  lemma SpillRoundTrip(m: Machine, st: State, s: u8, v: u8, rd: u8, t: u8)
    requires Valid(st) && v < 20 && rd < 20
    ensures var (o, was) := (Exec(m, Instr(SpillStore, s, v, 0), st), Exec(m, Instr(SpillLoad, rd, t, 0), st));
            && o.Next? && was.Next? && o.st == st.(mem := o.st.mem)
            && var now := Exec(m, Instr(SpillLoad, rd, t, 0), o.st);
            && now.Next? && now.st.regs == was.st.regs[rd := now.st.regs[rd]]
            && now.st.regs[rd] == (if t >= 32 then 0 else if s == t then st.regs[v] else was.st.regs[rd])
  {
  }

  /** A table that was defined loads the pool's words from its base on for every
      index below its length, and faults for every other. */
  lemma TableLoadAfterDefine(m: Machine, st: State, id: u8, base: u8, len: u8, rd: u8, y: u8)
    requires Valid(st) && id < 8 && rd < 20 && y < 20 && base as int + len as int <= |m.constPool|
    ensures var o := Exec(m, Instr(TblDef, id, base, len), st);
            && o.Next? && o.st == st.(mem := o.st.mem)
            && var now := Exec(m, Instr(TblLoad, rd, id, y), o.st);
            if 0 <= st.regs[y] < len then
              now == Next(o.st.(regs := st.regs[rd := m.constPool[base as int + st.regs[y] as int]]))
            else now == Faulted(TableOutOfBounds, o.st)
  {
  }

  // ---- branches ------------------------------------------------------------------

  /** The address in the last two bytes of the cell at ip. */
  function Target(m: Machine, ip: nat): nat
    requires ip + 4 <= |m.code|
  {
    256 * (m.code[ip + 2] as int) + m.code[ip + 3] as int
  }

  /** JMP always leads to its target, JZ and JNZ exactly if the register in their
      second byte is zero or not; otherwise execution goes on behind the cell.
      Registers, calls and storage stay as they are. */
  lemma BranchLeads(m: Machine, st: State)
    requires Valid(st) && st.ip + 4 <= |m.code| && Fetch(m.code, st.ip).op in {Jmp, Jz, Jnz}
    ensures var (o, op, r) := (Step(m, st), Fetch(m.code, st.ip).op, m.code[st.ip + 1]);
            && o.Next? && o.st.regs == st.regs && o.st.stack == st.stack && o.st.mem == st.mem
            && (op == Jmp ==> o.st.ip == Target(m, st.ip))
            && (r < 20 && op == Jz ==> o.st.ip == if st.regs[r] == 0 then Target(m, st.ip) else st.ip + 4)
            && (r < 20 && op == Jnz ==> o.st.ip == if st.regs[r] != 0 then Target(m, st.ip) else st.ip + 4)
  {
  }

  /** RET outside a call and HALT stop the run; ASSERT stops it exactly on zero. */
  lemma StopsHere(m: Machine, st: State)
    requires Valid(st) && st.ip + 4 <= |m.code| && Fetch(m.code, st.ip).op in {Ret, Halt, Assert}
    ensures var (o, op, r) := (Step(m, st), Fetch(m.code, st.ip).op, m.code[st.ip + 1]);
            && (op == Ret ==> (o.Halted? <==> st.stack.depth == 0))
            && (op == Halt ==> o.Halted?)
            && (op == Assert && r < 20 ==>
                  && (st.regs[r] == 0 <==> o.Faulted? && o.fault == AssertionFailed)
                  && (st.regs[r] != 0 <==> o.Next?))
            && (o.Halted? ==> o.st.regs == st.regs && o.st.mem == st.mem)
  {
  }
}
