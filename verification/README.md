# PulseOS kernel and PulseLang: a verified model

This project models the parts of the PulseOS repository in which programs are
compiled, run, stored and passed between cores, and proves what they promise.

- **Compiler and machine.** `Words`, `Isa` and `Vm` give the px64 register
  machine as a step function; `Px64` is the machine as the kernel has it, an
  object that changes its registers, stacks and storage in place, proved equal
  to that function. `Lang` and `Stmts` give the meaning of the integer fragment
  of PulseLang, `Codegen`, `StmtGen` and `MatchStmt` the emitted code, and
  `Compiler` the single-pass compiler as an object with fixed buffers, a bitmask
  of scratch registers and back-patching. `Simulation`, `ExprCorrect`,
  `StmtCorrect`, `Tidy`, `ProgramCorrect` and `Watchdog` prove that compiled
  scripts mean what their source means, decode only on instruction boundaries,
  and cost what the static checks say; `LateReads`, `LongNames` and
  `RegisterClash` say where the meaning is lost. `AluLaws` and `MachineLaws` say in
  numbers, bits and code bytes what the instructions do, `CallDiscipline` covers
  arbitrary code with calls, `Storage` the static arrays, structures and tables,
  `ResultTags` matches over tagged results, `Ownership` the linear check of hardware
  handles. `Immutables`, `Scratch` and `MatchChecks` say what the compiler refuses.
- **Export disk.** `Fat16` is a FAT16 volume (Microsoft FAT specification v1.03,
  sections "FAT Data Structure" and "FAT Directory Structure"), `FatCorrect`
  what histories of writes and deletes keep, `FatExact` what each operation leaves,
  `Sectors` and `DiskBytes` its layout on 512-byte sectors (section "Boot Sector and
  BPB Structure"), `ExportDisk` the kernel's loops over one sector buffer.
- **Rings and cores.** `Ring` is the lock-free ring under every interleaving of
  single loads and stores, `Pipeline` the capture, encode and network cores.
- **Compact cores.** `Gf128` and `Ghash` (section 6.3 of NIST SP 800-38D), `Crc32`
  and `CrcResidue` (section 3.2.9 of IEEE 802.3), `Paths` and `LatencyFs`, `Editor`
  and `EditorLaws`.

Where a method changes an object, a ghost field or function holds the object's
value, and the method's contract equates the new value with a function of the
old one; what the source promises is then proved about that function.

Conditions under which the compiler theorems hold, each of which a caller can
check: the variables and the scratch registers an expression or statement needs
fit side by side in 15 registers; `ReadsInTime` and `AssignsInTime`, that no
operand reads the target after a partial result other than the target's own value
was left in its register; `Faithful`, that no variable's name is longer than 16
bytes and folding does not compare two different text words with equal bytes; and
no variable has one of the fixed names that mean a register (`$rax` to `$rdi`, `$r0`
to `$r15`, `$result`, `$ret`).

Where the code departs from what its messages or comments promise, the model
follows the code, and lemmas give a failing input and say exactly when:

- Late reads of an assignment's target: `LateReads.LateReadIff` for every operator
  whose right operand is the target, `LateReads.FlatInTimeIff` for the syntactic
  test on flat expressions. On larger expressions the test is sufficient only
  (`EvalIntoIsEval`): `$x + 0 + $x` is refused and right, and an exact test would
  have to decide equations between 64-bit expressions.
- Folding of text constants: `Lang.FoldDiffers`, `Lang.FoldBinAgrees`.
- Variables and scratch registers that overlap: `RegisterClash.TwiceGivesZero`,
  `RegisterClash.RegistersClashIff`.
- Names longer than 16 bytes: `LongNames.FoundAgainIff`, `LongNames.LongNameIff`.
- Range loops that pass the cost check and are cut off all the same:
  `Watchdog.AcceptedButCutOff`, `Watchdog.LoopTripsIff`.
- Deleted files that come back: `FatCorrect.StaleExample`,
  `FatCorrect.StaleEntryReturns`, `FatCorrect.DeletedIffSole`; which writes lead there,
  `FatCorrect.WriteKeepsSole`.
- `len` on wrapped indices: `Ring.LenMissesItem`, `Ring.LenExact`.
- Immutable variables that change all the same: `Immutables.LoopOverImmutable` and
  `Immutables.SecondValueIff`; every other one is constant,
  `Immutables.ImmutableKeepsValue`.
- Linear scripts the handle check refuses: `Ownership.RefusedThoughLinear`; exactly which
  are accepted, `Ownership.StraightScriptsExact`, `Ownership.BranchesExact` and
  `Ownership.LoopExact`.

## Model

| member | source | states |
|---|---|---|
| Isa.Encode | pulselang-core/src/isa.rs:7-51 | the opcode byte of every instruction decodes to that instruction |
| Bits.WrapIsCongruent | kernel/src/lang.rs:621-656 | 64-bit wrapping gives exactly the word congruent to the result modulo 2^64 |
| Px64.PX64VM.constructor | kernel/src/lang.rs:257-279 | a new machine is the initial state: all registers, stacks and storage zero |
| Px64.PX64VM.Alu | kernel/src/lang.rs:621-689 | arithmetic, bitwise and comparison instructions change the one register the semantics names, or raise division by zero |
| Px64.PX64VM.Move | kernel/src/lang.rs:346-375 | immediates, copies, pool loads and ADDI/SUBI, with the fault for a pool index out of range |
| Px64.PX64VM.Branch | kernel/src/lang.rs:804-818 | JMP, JZ and JNZ change ip alone |
| Px64.PX64VM.Native | kernel/src/lang.rs:820-830 | an intrinsic writes its result to the destination or raises its fault |
| Px64.PX64VM.NativeCall | kernel/src/lang.rs:940-1036 | results, `min`, `max`, `clamp` and `crc32` read their further arguments from the registers just below the first |
| Px64.PX64VM.StrEqual | kernel/src/lang.rs:744-762 | STREQ compares words, then the bytes they stand for |
| Px64.PX64VM.Array | kernel/src/lang.rs:406-478 | array definition, load and store in place, with each bounds fault |
| Px64.PX64VM.Struct | kernel/src/lang.rs:480-526 | struct definition, load and store in place, with the bounds fault |
| Px64.PX64VM.Table | kernel/src/lang.rs:528-564 | constant-table definition and load, with each bounds fault |
| Px64.PX64VM.Spill | kernel/src/lang.rs:690-715 | spill slots; out-of-range slots read zero and ignore stores |
| Px64.PX64VM.Call | kernel/src/lang.rs:580-591 | CALL saves ip and registers 0-15 in the next frame, or overflows at depth 8 |
| Px64.PX64VM.Ret | kernel/src/lang.rs:593-604 | RET restores registers 1-15 and ip from the last frame and carries register 0; at depth 0 it stops the run |
| Px64.PX64VM.Execute | kernel/src/lang.rs:341-345 | one decoded instruction has exactly the effect of the instruction semantics |
| Px64.PX64VM.Cycle | kernel/src/lang.rs:333-340 | fetch, advance and execute is one step of the semantics |
| Px64.PX64VM.Run | kernel/src/lang.rs:318-345 | the in-place run loop ends exactly as the semantics of a whole run says: same state, same fault, or the step limit |
| CallDiscipline.OpenFramesStable | kernel/src/lang.rs:580-604 | in any run that stays above depth d, frames and return addresses up to d never change, and depth never exceeds 8 |
| CallDiscipline.CallReturns | kernel/src/lang.rs:580-604 | for arbitrary code: when the depth first returns to d, ip is behind the call, registers 1-15 are those at the call, registers 0 and 16-19 come from the callee |
| CallDiscipline.CallEnters | kernel/src/lang.rs:580-591 | a CALL below depth 8 enters at the address in its last two code bytes with registers and storage unchanged; at depth 8 it overflows |
| AluLaws.DivisionInRegisters | kernel/src/lang.rs:639-664 | what DIV and MOD leave are the quotient and remainder with x = y q + r, |r| < |y| and the dividend's sign on r; the smallest word by -1 wraps to itself; exactly divisor zero faults |
| AluLaws.FoldedDivision | pulselang-core/src/compiler.rs:4480-4510 | folded constants divide likewise; folding fails for exactly a division or remainder by zero |
| AluLaws.FoldsExactly | pulselang-core/src/compiler.rs:4179-4587 | exactly the expressions of literals, parentheses, signs and operators that raise no fault fold to a constant |
| AluLaws.DividesUnique | kernel/src/lang.rs:639-664 | no other pair of numbers is quotient and remainder in that sense |
| AluLaws.SumLaw | kernel/src/lang.rs:621-638 | sums, differences and products are those of the integers modulo 2^64 |
| AluLaws.LogicLaw | kernel/src/lang.rs:376-393 | AND, OR and XOR work on each of the 64 bits |
| AluLaws.ShiftLaw | kernel/src/lang.rs:394-405 | shifts move each bit by the low six bits of the count and fill with zeros, to the right logically |
| AluLaws.CompareLaw | kernel/src/lang.rs:764-803 | comparisons give 0 or 1, order signed words, and each negates its opposite |
| AluLaws.TextEquality | kernel/src/lang.rs:665-689 | two different text words are equal exactly if both stand for the same bytes |
| AluLaws.OrderLaw | kernel/src/lang.rs:1001-1036 | `min`, `max` and `clamp` pick the word the order asks for; `abs` of the smallest word is the largest |
| AluLaws.TagLaw | kernel/src/lang.rs:940-944 | the error tag is bit 60, and setting or clearing it changes that bit alone |
| MachineLaws.TextWords | kernel/src/lang.rs:283-306 | a tagged word stands for the pool bytes or the argument its fields name, or for nothing if they are out of range |
| MachineLaws.TextInstructions | kernel/src/lang.rs:742-762 | MOV_STR leaves a word that stands for its bytes; STREQ gives 1 exactly for equal words or equal bytes |
| MachineLaws.ArrayLoadAfterStore | kernel/src/lang.rs:422-478 | an array load after a store gives the stored word at the same element and the old word at every other; both fault exactly out of range |
| MachineLaws.FieldLoadAfterStore | kernel/src/lang.rs:493-526 | the same for the fields of structures |
| MachineLaws.SpillRoundTrip | kernel/src/lang.rs:691-715 | a spilled register comes back from its slot and only from that |
| MachineLaws.TableLoadAfterDefine | kernel/src/lang.rs:528-564 | a defined table loads the pool's words from its base on for exactly the indices below its length |
| MachineLaws.BranchLeads | kernel/src/lang.rs:804-819 | a branch leads to the address in its last two code bytes, taken exactly if its register is zero, or not zero |
| MachineLaws.StopsHere | kernel/src/lang.rs:566-604 | RET outside a call and HALT stop the run with registers unchanged; ASSERT stops it exactly on zero |
| Lang.FoldBinAgrees | pulselang-core/src/compiler.rs:4179-4240 | folding two constants gives the machine's result if and only if it does not compare two different text words with equal bytes |
| Lang.FoldDiffers | pulselang-core/src/compiler.rs:4179-4240 | any two words for one byte at different places of the pool are different to folding and equal to the machine |
| Lang.FoldIsEval | pulselang-core/src/compiler.rs:4179-4587 | a constant the ladder returns is the value of the expression, under every environment |
| Lang.EvalIntoIsEval | pulselang-core/src/compiler.rs:3919-3940 | evaluating straight into the target's register gives the source value as long as no operand reads the target after a partial result other than the target's own value was left there |
| LateReads.HarmlessIff | kernel/src/lang.rs:621-689 | for every operator: exactly when the partial result in place of the target's value gives the same result, faults included |
| LateReads.LateReadIff | pulselang-core/src/compiler.rs:3919-3940 | `$x := l op $x`, for every operator and every l that is no constant, is right exactly if l faults or its value is harmless to the operator |
| LateReads.FlatInTimeIff | pulselang-core/src/compiler.rs:3919-3940 | for one operator on variables and literals, and for a variable selecting one of two, the compiler's result is the source's in every environment exactly if reads come in time |
| Stmts.InPlaceIsSource | pulselang-core/src/compiler.rs:3919-3940 | the same for whole statements: in-place assignment has the source meaning if reads come in time |
| Immutables.ImmutableKeepsValue | pulselang-core/src/compiler.rs:1880-1913 | what follows `let x = e` compiles only if it never assigns x, unless it declares x again or loops over it; x then keeps the value of e |
| Immutables.SecondValueIff | pulselang-core/src/compiler.rs:1880-1913 | `let x = a; x = b;` is refused exactly for names of at most 16 bytes that do not start with `$r` |
| Immutables.LoopOverImmutable | pulselang-core/src/compiler.rs:2557-2640 | `let x = a; for x in 0..2 { }` compiles and ends with 2 in x |
| Immutables.RefusedIff | pulselang-core/src/compiler.rs:2740-2760 | an assignment whose parts compile is refused exactly for a locked variable; a range loop exactly beyond 10000 rounds times cells or without room |
| Immutables.UnboundedIff | pulselang-core/src/compiler.rs:2436-2470 | a while loop whose parts compile and fit is refused exactly if the first token of its condition is a number other than zero |
| Immutables.UpdateCells | pulselang-core/src/compiler.rs:3941-3998 | `+=` and `-=` with a small literal are one cell with that immediate and nothing else; other operands go through a scratch register |
| Scratch.ComplexIff | pulselang-core/src/compiler.rs:1646-1661 | an expression that meets no other limit compiles exactly if it needs no more than the free ones of eight scratch registers |
| Codegen.AddConstant | pulselang-core/src/compiler.rs:1669-1689 | a constant is found where it first stands in the pool or appended; earlier entries never move |
| LongNames.FoundAgainIff | pulselang-core/src/compiler.rs:2032-2054 | a variable that was just entered is found again exactly if its name has at most 16 bytes; a longer one takes a fresh register at every use |
| LongNames.LongNameIff | pulselang-core/src/compiler.rs:1814-1834 | `let mut x = c; y = x;` leaves c in y's register if the name of x fits the table, and zero if it does not |
| Compiler.SinglePass.constructor | pulselang-core/src/compiler.rs:330-400 | nothing emitted, no scratch register taken |
| Compiler.SinglePass.AllocTemp | pulselang-core/src/compiler.rs:1646-1661 | scratch registers are taken downwards from 15 without gaps; the ninth request is the error |
| Compiler.SinglePass.FreeTemp | pulselang-core/src/compiler.rs:1663-1668 | releasing the last one taken restores the mask |
| Compiler.SinglePass.EmitInst | pulselang-core/src/compiler.rs:1754-1771 | one cell is appended, or the buffer is full and nothing changes |
| Compiler.SinglePass.PatchImm16 | pulselang-core/src/compiler.rs:1777-1782 | the 16-bit field of one emitted cell changes and nothing else |
| Compiler.SinglePass.AddConstant | pulselang-core/src/compiler.rs:1669-1689 | the linear search returns the first index of the constant |
| Compiler.SinglePass.EmitConst | pulselang-core/src/compiler.rs:1636-1644 | small constants become immediates, others pool loads |
| Compiler.SinglePass.ResolveVar | pulselang-core/src/compiler.rs:1995-2057 | a name's register, entering it if it is new |
| Compiler.SinglePass.DeclareVar | pulselang-core/src/compiler.rs:1784-1860 | a declaration enters the name or changes its mutability |
| Compiler.SinglePass.CheckMutation | pulselang-core/src/compiler.rs:1880-1913 | assignment to an immutable variable is refused |
| Compiler.SinglePass.Operate | pulselang-core/src/compiler.rs:4179-4240 | an operator on two registers; `&&` and `||` normalise both operands |
| Compiler.SinglePass.Combine | pulselang-core/src/compiler.rs:4246-4290 | fold, or emit the constants still owed and the operator; a constant zero divisor is an error |
| Compiler.SinglePass.Ladder | pulselang-core/src/compiler.rs:4139-4620 | the ladder emits exactly the specified code and returns exactly the folded constant, with every scratch register given back |
| Compiler.SinglePass.Ternary | pulselang-core/src/compiler.rs:4139-4176 | both jumps of a ternary are back-patched to the specified cells |
| Compiler.SinglePass.Intrinsic | pulselang-core/src/compiler.rs:5172-5241 | arguments are left in consecutive registers downwards and the call names the first |
| Compiler.SinglePass.Expression | pulselang-core/src/compiler.rs:4033-4037 | an expression ends with its value or its constant in the destination |
| Compiler.SinglePass.Update | pulselang-core/src/compiler.rs:3941-3998 | `+=` and `-=` with a small literal are one immediate instruction |
| Compiler.SinglePass.IfElse | pulselang-core/src/compiler.rs:3016-3071 | if/else emits test, branches and two patched jumps |
| Compiler.SinglePass.While | pulselang-core/src/compiler.rs:2436-2540 | a while loop jumps back to its condition and out behind itself; a non-zero literal condition is refused |
| Compiler.SinglePass.For | pulselang-core/src/compiler.rs:2630-2765 | a range loop holds its bound in a scratch register, is refused if rounds times (body + 4) exceeds 10000, and gives the register back |
| Compiler.SinglePass.Statement | pulselang-core/src/compiler.rs:2173-2175 | every statement in place emits exactly the code of its specification or fails with the same error |
| Compiler.Compile | pulselang-core/src/compiler.rs:2060-2083 | the byte buffer decodes to the cells of the specified program; the pool is the specified one |
| Simulation.RunCell | kernel/src/lang.rs:333-340 | one step executes the cell at ip |
| ExprCorrect.LadderRuns | pulselang-core/src/compiler.rs:4179-4587 | code of the ladder plus its folded constant yields the expression's value in the destination, keeping all variables, other registers and held scratch registers, or the same fault |
| ExprCorrect.ExpressionRuns | pulselang-core/src/compiler.rs:4033-4037 | the code of a whole expression leaves its value in the destination, within as many steps as it has cells |
| ExprCorrect.BinRuns | pulselang-core/src/compiler.rs:4246-4587 | binary operators: left into the destination, right into scratch, constants materialised late |
| ExprCorrect.TernRuns | pulselang-core/src/compiler.rs:4139-4176 | the patched jumps of a ternary select exactly one branch |
| ExprCorrect.IntrinsicRuns | pulselang-core/src/compiler.rs:5172-5241 | intrinsics of one to three arguments, `crc32` included, compute the source function of their arguments |
| RegisterClash.TwiceGivesZero | pulselang-core/src/compiler.rs:1646-1661 | with thirteen variables the code of `-(-$x)` of the last one clears it and gives zero, which is right if and only if it was zero |
| RegisterClash.RegistersClashIff | pulselang-core/src/compiler.rs:1646-1661 | some variable and some scratch register are the same register if and only if there are more than 15 of both together |
| StmtCorrect.StmtRuns | pulselang-core/src/compiler.rs:2173-2175 | the code of every statement ends with the source variables, the same fault, or still running; within the static bound for bounded statements |
| StmtCorrect.WhileRuns | pulselang-core/src/compiler.rs:2436-2540 | while loops, any number of rounds |
| StmtCorrect.ForRuns | pulselang-core/src/compiler.rs:2630-2765 | range loops; with a body of straight-line cells that leaves the variable alone the step count is exact |
| StmtCorrect.IfElseRuns | pulselang-core/src/compiler.rs:3016-3071 | if/else runs exactly the branch its condition selects |
| StmtCorrect.UpdateRuns | pulselang-core/src/compiler.rs:3941-3998 | compound assignment wraps like the source |
| Tidy.ProgramTidy | pulselang-core/src/compiler.rs:1777-1782 | every jump of a compiled program has a 4-aligned target inside the code; entered names have at most 16 bytes |
| Tidy.ProgramDistinct | pulselang-core/src/compiler.rs:2032-2054 | if every name fits the table, no two variables of a compiled script share a name |
| ProgramCorrect.AlwaysOnCells | kernel/src/lang.rs:318-339 | however long a compiled program runs, the machine decodes on cell boundaries only |
| ProgramCorrect.ProgramRuns | pulselang-core/src/compiler.rs:2060-2083 | a compiled script halts with the values of its in-place meaning, stops with the same fault, or is still running after as many steps as there was fuel |
| ProgramCorrect.ProgramPreserved | pulselang-core/src/compiler.rs:2060-2083 | semantic preservation for whole scripts against the plain source meaning |
| ProgramCorrect.StopsIffTerminates | kernel/src/lang.rs:318-345 | the machine stops on a compiled script if and only if the source terminates |
| Watchdog.RunIsMeaning | kernel/src/lang.rs:318-345 | the machine with its watchdog either cuts a compiled script off, or completes with the source values in the registers, or fails with the source's fault |
| Watchdog.LimitIsExact | kernel/src/lang.rs:326-333 | a run that stops after n steps trips the step limit if and only if n reaches 10000 |
| Watchdog.WcetCoversRun | pulselang-core/src/compiler.rs:2085-2087 | for code with forward jumps only, three times the executed steps never exceed the synthesized total |
| Watchdog.BoundedNeverTrips | pulselang-core/src/compiler.rs:2630-2765 | a bounded script stops within its static bound |
| Watchdog.LoopWithinCheck | pulselang-core/src/compiler.rs:2690-2755 | an accepted loop anywhere in a script, with a loop-free body that leaves the variable alone, takes at most rounds times (body + 4) plus four steps, hence at most 10004 |
| Watchdog.LoopIsExact | pulselang-core/src/compiler.rs:2734-2765 | an accepted plain loop takes exactly rounds times (body + 4) steps plus five |
| Watchdog.LoopTripsIff | pulselang-core/src/compiler.rs:2734-2755 | an accepted plain loop is cut off by the machine if and only if that product plus five reaches 10000 |
| Watchdog.AcceptedButCutOff | pulselang-core/src/compiler.rs:2734-2755 | `for x in 0..hi { }` is accepted up to 2500 rounds but cut off from 2499 on |
| MatchStmt.ArmsUnlike | pulselang-core/src/compiler.rs:3172-3277 | no accepted match handles a variant twice |
| MatchStmt.ArmTested | pulselang-core/src/compiler.rs:3246-3371 | the cells before an arm's body lead into it with the payload bound, or behind the arm in exactly the test's cells with no variable changed |
| MatchStmt.ArmRuns | pulselang-core/src/compiler.rs:3246-3393 | the arm for the scrutinee runs its body and leaves the match; any other is skipped in three steps for a variant and two for a result |
| MatchStmt.SomeArm | pulselang-core/src/compiler.rs:3441-3478 | an accepted match leaves no word without an arm or wildcard: every variant in range, or every word where there are no arms for variants |
| MatchChecks.ArmsAccepted | pulselang-core/src/compiler.rs:3172-3277 | arms that compile are accepted exactly if none repeats a variant |
| MatchChecks.ExhaustiveIff | pulselang-core/src/compiler.rs:3441-3478 | the exhaustiveness check passes exactly if every variant in range, or every 64-bit word, has an arm, or there is a wildcard |
| MatchChecks.MatchAcceptedIff | pulselang-core/src/compiler.rs:3136-3482 | a match whose parts compile is accepted exactly if it has at most 16 arms, repeats no variant and leaves no word without an arm |
| MatchStmt.ExactlyOneArm | pulselang-core/src/compiler.rs:3441-3470 | for every accepted match and every variant in range exactly one arm applies |
| MatchStmt.ChainRuns | pulselang-core/src/compiler.rs:3254-3277 | where the arms are laid out one behind the other, the chain runs the body its meaning selects |
| MatchStmt.MatchRuns | pulselang-core/src/compiler.rs:3136-3482 | the whole statement evaluates the scrutinee, runs exactly the selected body and continues behind the statement |
| ResultTags.ExactlyOneResultArm | pulselang-core/src/compiler.rs:3462-3478 | of an accepted match over Ok and Err exactly one kind of arm, or else the wildcard, takes any 64-bit word; exactly one arm if there is one of each kind |
| ResultTags.ResultMatchRuns | pulselang-core/src/compiler.rs:3278-3393 | for every accepted match over Ok and Err and every word of the scrutinee the emitted chain runs exactly one body, with its variable bound to the word without its tag, and control ends behind the statement |
| ResultTags.OkRoundTrip | pulselang-core/src/compiler.rs:3278-3334 | a match over `@ok(v)` runs an Ok arm with its variable bound to v without the tag bit, which is v if and only if that bit is clear |
| ResultTags.ErrRoundTrip | pulselang-core/src/compiler.rs:3335-3393 | a match over `@err(e)` runs an Err arm with its variable bound to e without the tag bit, which is e if and only if that bit is clear |
| Storage.ArrayTable.Declare | pulselang-core/src/compiler.rs:417-452 | arrays are laid out behind one another; each limit is its own error |
| Storage.DeclaredIff | pulselang-core/src/compiler.rs:417-452 | a declaration is accepted exactly up to eight arrays and 256 elements in all |
| Storage.DefinitionsAgree | kernel/src/lang.rs:406-420 | after the definitions ran in id order the machine has the compiler's lengths and bases |
| Storage.DefinitionClears | kernel/src/lang.rs:406-420 | a definition clears its array and none before it |
| Storage.RegionsDisjoint | kernel/src/lang.rs:422-478 | accesses are in bounds exactly for indices below the length, and two of them meet exactly if array and index are equal |
| Storage.StoreIsolated | kernel/src/lang.rs:447-478 | a store changes its own element and no other array |
| Storage.LoadAfterStore | kernel/src/lang.rs:422-478 | a load after a store reads the stored word there and the old word elsewhere |
| Storage.TableReadsLiterals | pulselang-core/src/compiler.rs:1540-1607 | `T[i]` reads the i-th declared literal for every index in range, whatever constants follow, and faults for every other index |
| Storage.AppendTable | pulselang-core/src/compiler.rs:1690-1704 | table literals are appended one by one, or the pool's limit is the error |
| Storage.TableAcceptedIff | pulselang-core/src/compiler.rs:1690-1704 | a table is accepted exactly if its literals fit behind the pool's, and then follow them |
| Storage.StructDefinitionsAgree | kernel/src/lang.rs:480-491 | after the definitions ran in id order each structure lies behind those before it, and no field has changed |
| Storage.FieldsDisjoint | kernel/src/lang.rs:493-526 | exactly the fields below the count and within 256 cells are in bounds, each other access has its fault, and two accesses meet exactly if structure and field are equal |
| Ownership.HandleChecker.Statement | pulselang-core/src/compiler.rs:1914-1993 | the in-place checker gives exactly the specified states or the specified error |
| Ownership.HandleChecker.Assign | pulselang-core/src/compiler.rs:1914-1993 | capture and move, with the errors for overwriting and for dead sources |
| Ownership.HandleChecker.Consume | pulselang-core/src/compiler.rs:5099-5168 | `@send` and `@release`, with the error for each wrong state |
| Ownership.HandleChecker.DropCaptured | pulselang-core/src/compiler.rs:2423-2431 | `!drop` turns every captured handle into a dropped one |
| Ownership.MergeCheck | pulselang-core/src/compiler.rs:3073-3096 | branches must leave equal states, except that sent and dropped may meet |
| Ownership.ConfinementCheck | pulselang-core/src/compiler.rs:2512-2536 | the state pairs a loop body may lead from and to |
| Ownership.CompileHandles | pulselang-core/src/compiler.rs:2065-2081 | a script is accepted exactly if its states check and none stays captured |
| Ownership.CheckIsSound | pulselang-core/src/compiler.rs:2436-2540 | from any tracked state no run of an accepted statement breaks ownership, and the checker's states still track the handles |
| Ownership.AcceptedScriptsAreLinear | pulselang-core/src/compiler.rs:2065-2081 | in every run, with any branches and any iteration counts, no live resource is overwritten, no dead handle used, none is live at the end, and each captured resource was consumed exactly once |
| Ownership.StraightScriptsExact | pulselang-core/src/compiler.rs:1914-1993 | on scripts without branches and loops the check accepts exactly the linear ones |
| Ownership.StraightVerdict | pulselang-core/src/compiler.rs:5099-5168 | without branches and loops an overwrite is reported exactly if the run overwrites a live resource, and a dead handle exactly if it uses one |
| Ownership.BranchesExact | pulselang-core/src/compiler.rs:3073-3096 | an if/else with straight branches is accepted exactly if both run linearly and leave every handle alike, sent and released counting as alike |
| Ownership.BranchExact | pulselang-core/src/compiler.rs:3073-3096 | an if without else likewise, against what it found |
| Ownership.LoopExact | pulselang-core/src/compiler.rs:2512-2536 | a loop with a straight body is accepted exactly if a round runs linearly and leaves every handle as it was, or took an unused one and did not keep it |
| Ownership.LoopScriptExact | pulselang-core/src/compiler.rs:2512-2536 | a script that is one loop with a straight body is accepted exactly if the body alone runs linearly and leaves no handle live |
| Ownership.BranchScriptExact | pulselang-core/src/compiler.rs:3073-3096 | a script that is one if/else is accepted exactly if both branches alone are linear, leave no handle live, and leave every handle alike |
| Ownership.RefusedThoughLinear | pulselang-core/src/compiler.rs:3073-3096 | a script that is linear in every run and refused because its branches differ |
| Sectors.Layout | kernel/src/export_disk.rs:200-227 | the clusters computed from the boot sector lie within the sectors it claims |
| Sectors.PutFatAbs | kernel/src/export_disk.rs:523-536 | writing both copies of a table sector sets one entry of the volume and keeps the tables equal |
| Sectors.PutDataAbs | kernel/src/export_disk.rs:744-765 | writing a data sector sets that sector of that cluster and nothing else |
| Sectors.PutSlotAbs | kernel/src/export_disk.rs:800-812 | rewriting a directory sector around one entry sets that entry and nothing else |
| DiskBytes.ParsesFields | kernel/src/export_disk.rs:180-227 | a boot sector that holds the fields in their order is accepted exactly with signature, 512-byte sectors and a cluster size; the parameters are the fields and the regions tile the volume |
| DiskBytes.TableBytes | kernel/src/export_disk.rs:523-536 | entry c of the table is the little-endian number at byte 2 c of the table |
| DiskBytes.EntryBytes | kernel/src/export_disk.rs:446-470 | name, attribute, cluster and size of entry i lie at their places in the i-th 32 bytes of the directory |
| DiskBytes.ClusterBytes | kernel/src/export_disk.rs:396-425 | cluster c follows the c - 2 clusters before it, byte by byte |
| ExportDisk.Drive.FindEntry | kernel/src/export_disk.rs:446-470 | the nested scan returns the entry lookups find, leaving each sector at its first never-used entry |
| ExportDisk.Drive.FindSlot | kernel/src/export_disk.rs:793-800 | a write takes the first entry with its name or free for use |
| ExportDisk.Drive.ReadClusters | kernel/src/export_disk.rs:391-432 | chain reading returns exactly the chain's bytes up to file size and buffer, and ends on any table contents |
| ExportDisk.Drive.ReadFile | kernel/src/export_disk.rs:437-477 | reading by name refines the volume's read, with the error for a missing file |
| ExportDisk.Drive.FreeClusters | kernel/src/export_disk.rs:520-538 | both tables lose the chain; ends on any in-range table, cycles included |
| ExportDisk.Drive.DeleteFile | kernel/src/export_disk.rs:482-541 | deleting by name refines the volume's delete and keeps the tables equal |
| ExportDisk.Drive.Allocate | kernel/src/export_disk.rs:726-742 | the first free clusters in ascending order, as many as needed or all there are |
| ExportDisk.Drive.StoreClusters | kernel/src/export_disk.rs:748-768 | the bytes go to the clusters in order, padded with zeros |
| ExportDisk.Drive.LinkClusters | kernel/src/export_disk.rs:770-790 | the clusters become one chain in both tables |
| ExportDisk.Drive.WriteFile | kernel/src/export_disk.rs:711-826 | writing refines the volume's write, with each of its errors, and keeps the tables equal |
| Fat16.ReadChain | kernel/src/export_disk.rs:406-429 | never more than the bytes wanted |
| FatCorrect.SearchMissesNone | kernel/src/export_disk.rs:726-746 | the volume is reported full only if every free cluster was found |
| FatExact.WriteAnswers | kernel/src/export_disk.rs:711-826 | with n the least number of clusters, at least one, that holds the bytes: too large exactly beyond 64, no space exactly with fewer than n zero entries, full exactly without a usable entry, written otherwise |
| FatExact.WriteLeaves | kernel/src/export_disk.rs:711-826 | a successful write uses the least number of clusters, the lowest free ones in ascending order, with the bytes and zeros behind them, sets the first usable entry, and changes nothing else |
| FatExact.ReadGives | kernel/src/export_disk.rs:437-477 | a read returns the bytes along the chain of the first entry with the name, up to size and buffer; it fails exactly if no entry carries the name |
| FatExact.DeleteLeaves | kernel/src/export_disk.rs:482-541 | a delete marks the first entry with the name and zeroes its chain in the table, and nothing else changes; without such an entry nothing does |
| FatCorrect.WriteKeepsWellFormed | kernel/src/export_disk.rs:711-826 | after every write, failed ones included, live chains are acyclic, disjoint and terminated |
| FatCorrect.ReadAfterWrite | kernel/src/export_disk.rs:711-826 | a successful write and then a read of that name gives exactly the written bytes |
| FatCorrect.WriteIsolated | kernel/src/export_disk.rs:711-826 | no write changes what any other name reads; a failed write changes what no name reads |
| FatCorrect.DeleteFreesChain | kernel/src/export_disk.rs:520-538 | a delete zeroes exactly the deleted file's chain and touches no data |
| FatCorrect.DeleteKeepsWellFormed | kernel/src/export_disk.rs:482-541 | live chains stay acyclic, disjoint and terminated |
| FatCorrect.DeleteIsolated | kernel/src/export_disk.rs:482-541 | no delete changes what another name reads |
| FatCorrect.DeletedIffSole | kernel/src/export_disk.rs:482-541 | after a delete the name is gone if and only if only one live entry carried it |
| FatCorrect.StaleEntryReturns | kernel/src/export_disk.rs:793-812 | a write that takes a free slot before the name's old entry, followed by a delete, brings the old contents back |
| FatCorrect.StaleExample | kernel/src/export_disk.rs:793-812 | a well-formed volume on which that happens, for every name |
| FatCorrect.WriteKeepsSole | kernel/src/export_disk.rs:793-812 | a write leaves every name with one live entry unless, and only unless, it takes a free slot before the written name's own entry |
| FatCorrect.DeleteKeepsSole | kernel/src/export_disk.rs:482-541 | a delete leaves every name with at most one live entry |
| FatCorrect.HistoryKeepsWellFormed | kernel/src/export_disk.rs:482-826 | over any history of writes and deletes the volume stays well-formed |
| FatCorrect.StepShows | kernel/src/export_disk.rs:482-826 | one operation refines the operation on a map from names to contents, a delete if and only if its name has no second entry |
| FatCorrect.HistoryShowsMap | kernel/src/export_disk.rs:482-826 | any history in which no deleted name has a second entry reads as the same history on a map |
| Ring.ProducerKeeps | kernel/src/ring_buffer.rs:54-68 | every atomic step of push keeps the invariant, with stale tails and wrapped indices |
| Ring.ConsumerKeeps | kernel/src/ring_buffer.rs:73-87 | every atomic step of pop keeps it, with stale heads |
| Ring.FirstInFirstOut | kernel/src/ring_buffer.rs:54-87 | under every interleaving popped items are a prefix of pushed items and occupancy is 0 to 16 |
| Ring.WriteHitsFreeSlot | kernel/src/ring_buffer.rs:62-66 | the producer never writes a slot holding an unpopped item |
| Ring.RefusedIffFull | kernel/src/ring_buffer.rs:58-60 | push is refused if and only if the ring was full when the tail was loaded |
| Ring.EmptyIffNothing | kernel/src/ring_buffer.rs:77-79 | pop finds nothing if and only if the ring was empty when the head was loaded |
| Ring.LenReports | kernel/src/ring_buffer.rs:104-113 | `len` reports the items pushed before its first load and not popped before its second |
| Ring.LenMissesItem | kernel/src/ring_buffer.rs:104-113 | a run from the empty ring after which one item is in the ring and `len` is zero |
| Ring.LenExact | kernel/src/ring_buffer.rs:104-113 | on indices loaded together `len` is the occupancy if and only if the head has not wrapped below the tail |
| Ring.SpscRingBuffer.Push | kernel/src/ring_buffer.rs:54-68 | an uninterrupted push appends, or is refused at 16 items |
| Ring.SpscRingBuffer.Pop | kernel/src/ring_buffer.rs:73-87 | an uninterrupted pop removes the oldest item |
| Pipeline.ScheduleKeeps | kernel/src/smp.rs:199-265 | every interleaving of the three cores keeps the pipeline invariant |
| Pipeline.FramesArriveInOrder | kernel/src/smp.rs:199-265 | frames reaching the network are captured frames, in capture order, each at most once |
| Pipeline.IdsIncrease | kernel/src/smp.rs:199-227 | until 2^64 captures the ids arrive strictly increasing |
| Pipeline.CountersMatchRing | kernel/src/smp.rs:199-250 | captured minus consumed is the first ring's occupancy up to one frame in flight on each side |
| Gf128.FieldMulIsResidue | kernel/src/crypto.rs:196-222 | the bit-serial product is the residue of the polynomial product modulo x^128 + x^7 + x^2 + x + 1 |
| Gf128.ResidueUnique | kernel/src/crypto.rs:196-222 | residues below x^128 are unique |
| Gf128.FieldMulCommutes | kernel/src/crypto.rs:196-222 | the product is commutative for all blocks |
| Gf128.FieldMulBilinear | kernel/src/crypto.rs:196-222 | the product is linear over XOR in each argument |
| Ghash.NextIsTimesX | kernel/src/crypto.rs:208-214 | one round on the two words multiplies by x in the field |
| Ghash.GhashMultiply | kernel/src/crypto.rs:196-222 | the routine on two 64-bit words computes the field product of the two blocks, also when output and input share a buffer |
| Ghash.BlockProduct | kernel/src/crypto.rs:196-222 | for all blocks the product is that residue, commutative, and linear over XOR in each argument |
| Crc32.EightSteps | kernel/src/gpu.rs:67-86 | eight register steps are one shift by a byte and one table entry |
| Crc32.BuildTable | kernel/src/gpu.rs:67-86 | every table entry is eight bit-serial steps from its index |
| Crc32.ComputeCrc32 | kernel/src/gpu.rs:88-97 | the table-driven checksum is the bit-serial reflected CRC for every byte sequence |
| CrcResidue.ChecksumIsRemainder | kernel/src/gpu.rs:67-97 | a register is the checksum exactly if its complement is the remainder of the message times x^32, first 32 bits complemented, modulo the generator of IEEE 802.3 |
| CrcResidue.RemainderUnique | kernel/src/gpu.rs:67-97 | remainders modulo the generator are unique |
| Paths.NormalIsCanonical | kernel/src/fs.rs:120-155 | the normal form has only plain components, and normalising is idempotent |
| Paths.CanonicalIsNormal | kernel/src/fs.rs:120-155 | a canonical path is its own normal form |
| Paths.RenderInjective | kernel/src/fs.rs:120-155 | different component stacks have different canonical paths |
| Paths.DotsCancel | kernel/src/fs.rs:120-155 | a plain component goes behind the normal form of its directory; `..` behind it, `.` and doubled slashes lead back; the root is its own parent |
| Paths.RelativeIsBelow | kernel/src/fs.rs:79-119 | a relative path is normalised as one below the current directory, an absolute one without it; refused exactly if empty or longer than 63 |
| Paths.NormalizePath | kernel/src/fs.rs:79-158 | the in-place walk yields the canonical path of the component stack; it fails only for an empty or too long absolute path |
| LatencyFs.LatencyFS.Mkdir | kernel/src/fs.rs:1112-1140 | creating a directory refines the map; an existing name is left alone; full at 128 names |
| LatencyFs.LatencyFS.Create | kernel/src/fs.rs:1189-1236 | creating or overwriting refines the map, with the read-only, size and space errors |
| LatencyFs.LatencyFS.Read | kernel/src/fs.rs:1257-1263 | an exact match returns the file's contents, never a directory's |
| LatencyFs.LatencyFS.Delete | kernel/src/fs.rs:1306-1338 | deleting refines the map; refused while any name lies below |
| LatencyFs.LatencyFS.Rename | kernel/src/fs.rs:1344-1382 | renaming moves the node, never onto an existing name |
| LatencyFs.RenameMoves | kernel/src/fs.rs:1344-1382 | after a rename the new name reads what the old one read, kind and read-only flag carry over, the old name is missing, all else unchanged; each refusal has its exact condition |
| LatencyFs.CreateStores | kernel/src/fs.rs:1189-1236 | a create is read back; each refusal has its exact condition; all other names unchanged |
| LatencyFs.MkdirAdds | kernel/src/fs.rs:1112-1140 | a directory is added where no name is; all else unchanged |
| LatencyFs.DeleteRemoves | kernel/src/fs.rs:1306-1338 | a delete takes one name away, and is refused exactly below which other names lie, for missing and for read-only names |
| LatencyFs.FollowsRenames | kernel/src/fs.rs:1344-1382 | over any history that neither overwrites nor deletes it, a file is found with its contents where its renames took it |
| LatencyFs.PlacesApart | kernel/src/fs.rs:1344-1382 | two of them are never found in one place |
| LatencyFs.OthersUntouched | kernel/src/fs.rs:1112-1382 | over any history a path that no operation names keeps its node, and names never outnumber slots |
| LatencyFs.ReadAfterCreate | kernel/src/fs.rs:1189-1263 | a read after a create returns the contents, whatever happened to other paths |
| Editor.PulseEditor.Insert | kernel/src/editor.rs:135-151 | insertion shifts in place exactly to the spliced text; refused at 4095 bytes |
| Editor.PulseEditor.InsertStr | kernel/src/editor.rs:156-175 | block insertion likewise; refused beyond 4096 bytes |
| Editor.PulseEditor.DeleteCharBackspace | kernel/src/editor.rs:180-189 | removes the byte before the cursor |
| Editor.PulseEditor.DeleteCharUnderCursor | kernel/src/editor.rs:194-202 | removes the byte under the cursor |
| Editor.PulseEditor.MoveWordLeft | kernel/src/editor.rs:207-220 | back over blanks, then over the word before them |
| Editor.PulseEditor.MoveWordRight | kernel/src/editor.rs:225-238 | forth over the word, then over the blanks behind it |
| Editor.PulseEditor.MoveCursorUp | kernel/src/editor.rs:254-271 | to the same column of the line above, or its end |
| Editor.PulseEditor.MoveCursorDown | kernel/src/editor.rs:276-301 | to the same column of the line below, or its end |
| Editor.PulseEditor.KillLineForward | kernel/src/editor.rs:307-328 | cuts to the end of the line, or the newline itself |
| Editor.PulseEditor.KillLineBackward | kernel/src/editor.rs:334-346 | cuts back to the start of the line |
| Editor.BackspaceUndoesInsert | kernel/src/editor.rs:135-189 | backspace undoes an insertion if and only if the byte was inserted or the cursor is at the start |
| Editor.BlockIsCut | kernel/src/editor.rs:156-175 | cutting what a block insertion put before the cursor gives the old text back |
| Editor.UpThenDown | kernel/src/editor.rs:254-301 | up and then down returns if and only if the upper line reaches the column |
| Editor.DownThenUp | kernel/src/editor.rs:254-301 | down and then up returns if and only if the lower line reaches the column |
| Editor.PulseEditor.GetRowCol | kernel/src/editor.rs:348-362 | row and column of the cursor, tabs four wide |
| Editor.PulseEditor.AdjustScroll | kernel/src/editor.rs:81-93 | afterwards the cursor's row is in the 21-line window, which moves only if it has to |
| EditorLaws.Inserts | kernel/src/editor.rs:135-175 | a byte or a block goes between what is before and behind the cursor, within 4095 and 4096 bytes |
| EditorLaws.Deletes | kernel/src/editor.rs:180-202 | backspace takes the byte before the cursor, delete the one behind it |
| EditorLaws.Kills | kernel/src/editor.rs:307-346 | a kill takes the rest of the line, or the newline if nothing is left, or what is before the cursor in the line |
| EditorLaws.WordMoves | kernel/src/editor.rs:207-238 | word movements stop before the word before the cursor and behind the blanks behind it |
| EditorLaws.MovesUp | kernel/src/editor.rs:254-271 | up goes to the same column of the line above or to its end |
| EditorLaws.MovesDown | kernel/src/editor.rs:276-301 | down goes to the same column of the line below or to its end |
| EditorLaws.RowAndColumn | kernel/src/editor.rs:348-362 | the row counts newlines, the column the bytes of the line with three more for each tab |

## Left out

- Parsing: scripts enter as syntax trees; precedence, tokens, error positions and messages are not modelled.
- Named registers, views and combinators, pipes, fixed-point scales, string and enum values in expressions, `@pool_size`, `@import`, contracts on functions and loop invariants of PulseLang, user-defined functions in the compiler theorems.
- Compiler.SinglePass.ResolveVar: named registers, handles and function parameters are not looked up.
- Compiler.SinglePass.DeclareVar: named registers and spill slots are outside.
- Compiler.SinglePass.CheckMutation: handle names, which the compiler exempts, are no variables of the model.
- Compiler.SinglePass.Statement: integer statements only; matches are in `MatchStmt`, arrays and tables in `Storage`.
- Compiler.Compile: scripts of those statements.
- Ring.LenReports: speaks of loads between which no multiple of 2^64 is passed; `Ring.LenExact` and `Ring.LenMissesItem` say what happens at one.
- Spilled variables: from the fourteenth variable on the compiler uses spill slots; the model stops there with the error the compiler reports when those run out.
- Ternaries with blocks or without an else branch.
- Intrinsics other than abs, ok, err, is_ok, is_err, unwrap, min, max, clamp and crc32: the machine's `native` parameter supplies an arbitrary word or fault for them. In the machine crc32 is any function of its seed and word; the checksum itself is in `Crc32`.
- The wall-clock deadline of the machine, deadline blocks at run time and all timing; the step limit is modelled.
- MatchStmt.GenMatch: when an oversized match has further errors, the model reports the size first; arms over plain values are not generated. A match is a statement of its own and does not nest in the other statements or in another match.
- Ownership: in a run `!drop` disposes of every live handle when its block ends, whatever the deadline; conditions and other expressions consume no handles; ternaries, matches, functions and pipes are outside.
- `-i64::MIN` as a constant is folded with wrapping arithmetic.
- ExportDisk.Drive.ReadClusters: for a chain that leaves the volume only termination is stated, not the bytes.
- ExportDisk.Drive.DeleteFile: asks that the deleted chain stays inside the table, as a chain of a well-formed volume does.
- Free space after overwrites: old clusters are not reclaimed, so nothing is claimed about it.
- File names enter as their 8.3 form, whose first byte is neither 0x00 nor 0xE5; listing, import and automatic synchronisation of the disk.
- Sectors.Good: what the disk code takes for granted, two equal tables that cover all clusters and fewer than 65525 clusters, is an assumption on the boot sector.
- ATA port access, interrupts, PCI, network card and display registers.
- Memory ordering weaker than interleaving: loads and stores of the ring indices are atomic steps of one order, as acquire and release make them for one producer and one consumer.
- The frame counters do not wrap, and core 0's own use of the first ring is outside the pipeline.
- The AES block cipher and the GCM mode around `ghash_multiply`.
- Paths.NormalizePath: the path is already trimmed and the current directory is absolute; text is a sequence of characters, without encoding.
- LatencyFs: the fallbacks of a read to base names and 8.3 names, video-memory paths, modification times.
- Editor: files, status line, key decoding and drawing.
- Shell, formatter, disassembler, diagnostics, command line and language server.
