# ARMx64 translation pipeline: a verified model

ARMx64 translates AArch64 machine code to x86-64 at run time. A window of guest words is
lifted into a small IR, a constant-propagating optimizer rewrites it, immediate forms are
selected, x86-64 bytes are emitted, and a dispatcher runs the bytes from a cache keyed by
guest address. This project models that pipeline, each stage in the form it has in the source
(classes and loops where the source mutates, functions where it computes), and proves that the
machine code the dispatcher runs does to the guest what the Arm architecture does:

* `EndToEnd.TranslatorCorrect`: after any history of compilations (any windows, any order,
  recompilations and failures included) and runs, the guest state is the one that a reference Arm
  machine reaches on the guest's own text in as many single steps as the completed blocks have
  live instructions.
* `BlockProof.CodegenCorrect`: the emitted *bytes*, decoded by an x86-64 decoder and run with a
  byte-indexed instruction pointer from any scratch registers and flags, have exactly the
  effect of the IR block on 31 registers, SP, NZCV, padding, pc and memory.
* `Pipeline.PreservationExact`, `Pipeline.AcceptanceExact`, `LiftMeaning.LiftMeansTheSame`,
  `OptimizerProof.FoldShiftExact`, `Compare.NarrowingMove`, `Eager.BackgroundIsEager`: where the code does *not* do what it
  is for, exactly when it does.

`dafny verify dfyconfig.toml` checks everything.

## Layout

| file | contents |
|---|---|
| `Words`, `Shifts` | fixed-width numbers as bounded naturals, bitwise operators, shifts |
| `Bits` | what bitwise operators, little-endian words, loads and stores mean, bit by bit and byte by byte |
| `Ir`, `Arm`, `State` | the IR, its meaning (`AddWithCarry`, `ConditionHolds`, loads, stores), the guest-state layout |
| `X86`, `X86Props` | x86-64 encodings, decoder and interpreter; the decoder inverts the encoder |
| `Isel`, `Codegen` | immediate selection and `CodeBuffer`, whose emitters append exact encodings |
| `CodegenProof`, `BlockProof`, `Compare` | emitted code does what the IR says; comparisons and conditional branches |
| `Optimizer`, `OptimizerProof`, `Pipeline` | the constant-propagation pass, its soundness, and the passes composed |
| `Fields`, `Lift`, `LiftProof` | hand-decoded words as bit vectors, lifting, field round trips |
| `Reference`, `LiftMeaning` | what a word does architecturally; lifting agrees with it |
| `Runtime`, `Dispatch`, `Transparency`, `EndToEnd` | guest state, block cache, whole histories |
| `History`, `Smoke` | histories performed on the real objects; the smoke binary's dispatcher program end to end |
| `Acceptance`, `Windows` | exactly what the backend and the translator accept; where blocks end |
| `Accounting`, `Splitting` | budgets and counters; cutting blocks in two |
| `Background`, `Eager` | the background compiler as a state machine over its interleavings, and how it compares with eager compilation |

## How the model reads the source

* Machine integers are naturals below 2^8 .. 2^64, with every wrap, saturation, truncation and
  sign extension written out. Address arithmetic wraps as in a release build.
* The x86-64 part follows the Intel SDM, Volume 2, sections 2.1.5 and 2.2.1 (ModR/M, REX, byte
  registers) and Volume 1, section 3.4.1.1 (32-bit results are zero-extended). Shifts are the
  SDM's bit-by-bit loops with the count masked. Flags that an instruction leaves undefined are
  `None`, and reading one has no meaning.
* NZCV follows `AddWithCarry` (Arm ARM DDI 0487, chapter J1) and conditions follow section C1.2.4.
* Guest memory is a map from the mapped guest addresses to bytes. The host address is the guest
  address plus the fixed base modulo 2^64. An access that touches an unmapped byte is a fault
  without effect, and a run that meets one ends as `GuestCrash`.
* Instructions outside the hand-decoded classes come from a decoder library; it is a parameter.
  What is assumed of it is `LiftProof.DecoderSane`, and only of instructions whose opcode lifting
  translates: the register operands that lifting translates have one size and numbers up to 31, and
  shift amounts are in range. Nothing is asked of other opcodes (a widening multiply) or of operands
  that are not translated (an extended register): `LiftProof.MixedSizesSane`.
* `Reference` gives an architectural meaning to the supported subset: B, B.cond, CBZ, CBNZ, RET, NOP,
  MOVZ, MOVN, scaled LDR and STR, ADD(S), SUB(S), AND(S), ORR, EOR and the variable shifts, with the
  operand forms that lifting translates. Any other word has no meaning there, as it has none once
  lifted.
* Executable memory is the byte string; whether the host could map it is an input of
  `CompileBlock` and of the background worker.
* `Arm.WellFormed` is the single assumption on IR: register numbers exist, NZCV is requested only
  on Add, Sub and And, shift amounts are in range, and no wider register or memory word is used in a
  narrower operation. `LiftProof.LiftWellFormed` shows that everything lifted satisfies it. The
  width clause is needed: adding zero may be optimized to a move, and `Compare.NarrowingMove`
  shows when moves of wider registers are compiled wrongly.

## Where the code departs from its purpose

The model follows the code in each case.

* `fold_shift` rotates all 64 bits even for a W register (src/jit/optimizer.rs:69). The fold is right
  exactly when no one-bit is rotated out: `OptimizerProof.FoldShiftExact`, with
  `Pipeline.MisfoldExample`; for blocks, `Pipeline.PreservationExact`.
* `rewrite_operand` is applied to every opcode (src/jit/optimizer.rs:16-17). A store of a known
  constant, or a CBZ/CBNZ of one, becomes a form that `emit_block` rejects
  (src/codegen/x86_64.rs:173, 175): `Pipeline.AcceptanceExact`, `Pipeline.StoreOfConstantRejected`.
  It is rejected and never emitted as some other branch.
* Condition 15 is "never" (src/codegen/x86_64.rs:189) where the architecture has "always", and `RET`
  returns through X30 whatever register it names (src/codegen/x86_64.rs:176):
  `LiftMeaning.LiftMeansTheSame` says that within the supported subset these are the only two
  families of words on which lifting and the architecture differ.
* A move into a W register stores all 64 bits of a wider source (src/codegen/x86_64.rs:28-33, 160):
  `Compare.NarrowingMove`.
* `run` with a budget of one reports exhaustion whenever the next block is cached already, which is
  how src/main.rs:57 calls it: `Accounting.RunOfOne`.
* The doc comment at src/jit/compiler.rs:11-13 calls background and eager compilation semantically
  identical. The eager path refuses any block with an unsupported slot (src/runtime/dispatch.rs:27-29),
  the background path only one that it emits: `Eager.BackgroundIsEager` says exactly when they agree,
  `Eager.BranchThenUnsupported` shows them differ, and `Eager.BackgroundAgrees` that they never do
  for a decoder that names conditional branches by their own opcodes.
* The test at src/jit/optimizer.rs:97 expects 0 from adding 1 to a zero-extended all-ones W register;
  the code computes 2^32, which is what the architecture does: `OptimizerProof.MixedWidthFolds`.
* The jump length 18 is declared inside one function (src/codegen/x86_64.rs:148) and also used at
  line 175; it is one constant here, and `BlockProof.SetPcRetLength` shows that it is the right one.

## Model

| member | source | states |
|---|---|---|
| EndToEnd.TranslatorCorrect | src/runtime/dispatch.rs:24-62 | for any text without the two excluded families and any history of compilations (safe ones if they succeed) and runs from an empty cache, the guest is where the reference Arm machine takes it in exactly as many single steps as the completed blocks have live instructions |
| EndToEnd.StepsAreArm | src/lift/mod.rs:29 | single-stepping the lifted text and single-stepping the reference machine agree for every number of steps |
| EndToEnd.StepIsArm | src/lift/mod.rs:29 | one fetched and lifted instruction does what the reference machine does, from every state |
| History.PerformAll | src/runtime/dispatch.rs:24-62 | performing any list of compilations and runs on a dispatcher, a guest state and guest memory leaves in them exactly the cache, counter and guest of the replayed session |
| History.Perform | src/runtime/dispatch.rs:24-62 | the same for one compilation or run |
| Smoke.ProgramRuns | src/bin/smoke.rs:57-68 | with a decoder that reads its four words, the program's two compilations succeed, two blocks run, X0 is 42 and the pc is the return address 0 |
| Transparency.CompileCaches | src/runtime/dispatch.rs:34-37 | a compilation that succeeds and maps caches, under its address and with no hits, code that does the guest steps from there, and keeps every other entry and the guest; any other compilation changes nothing |
| Transparency.CompileThenRun | src/runtime/dispatch.rs:36-60 | once compiled at the guest's pc a block runs: with any budget the guest makes at least the block's steps, unless they fault |
| Transparency.HistoryTransparent | src/runtime/dispatch.rs:24-62 | after any sequence of compile and run events the guest is where single-stepping takes it in exactly the steps of the completed blocks, and every cached entry still stands for its number of guest steps from its key |
| Transparency.RunIsSteps | src/runtime/dispatch.rs:49-62 | one run over a faithful cache makes exactly the guest steps of the blocks it completes, and a crash is a fault of the guest program |
| Transparency.ApplyFaithful | src/runtime/dispatch.rs:24-62 | every event keeps the cache faithful |
| Transparency.SumLiveAtLeast | src/runtime/dispatch.rs:50-58 | blocks of at least one word make at least as many steps as there are blocks |
| Transparency.TranslationFaithful | src/runtime/dispatch.rs:24-38 | code compiled from a window whose consumed words are text does exactly as many guest steps as the block has live instructions |
| Transparency.TranslationMeans | src/runtime/dispatch.rs:24-38 | the translated bytes have the effect of the window as lifted, unoptimized, from every machine |
| Transparency.BlockIsSteps | src/lift/block.rs:13-28 | a lifted block does what single-stepping its words does, up to and including its first exit |
| Splitting.SplitBlock | src/codegen/x86_64.rs:180-182 | running an exit-free part and then the rest from where it stopped is running the whole block, and the part stops at the next address |
| Splitting.SplitTransparent | src/lift/block.rs:13-28 | lifting consecutive windows separately and running them in sequence ends where the window lifted as one does |
| Splitting.TranslationSplits | src/runtime/dispatch.rs:24-38 | if a window is safe and translated so are its two parts, and the bytes of the whole do what the bytes of the parts do one after the other, pc included |
| Splitting.PartsCompilable | src/jit/optimizer.rs:12-58 | what is safe and accepted whole is safe and accepted in parts, before and after optimization |
| Splitting.OptStepMonotone | src/jit/optimizer.rs:15-55 | with fewer constants known before an instruction, fewer are known after it, with the same values |
| Accounting.RunAccounting | src/runtime/dispatch.rs:49-62 | success only at an uncached pc after 1..max blocks; a missing block only before anything ran, with the state unchanged; exhaustion means exactly max blocks ran |
| Accounting.RunResumes | src/runtime/dispatch.rs:49-62 | resuming an exhausted run with a second budget, on the cache and counters the first left, gives the outcome, cache, hit counts, counters and guest of one run with both budgets |
| Accounting.RunOfOne | src/main.rs:57 | with a budget of one the block runs, and the result is exhaustion exactly when the next block is cached |
| Accounting.HistoryConserves | src/runtime/dispatch.rs:36-55 | over every history recorded hits plus hits forgotten by recompilation are at most the blocks executed, and equal them if and only if no entry saturates; the execution counter is that number modulo 2^64 |
| Accounting.ApplyConserves | src/runtime/dispatch.rs:36-55 | the same balance, with its exact condition, for one compile or run event |
| Dispatch.HitsBalance | src/runtime/dispatch.rs:54-55 | the hit counts of all entries grow by at most the number of blocks executed, and by exactly that number if and only if no single entry saturates |
| Dispatch.TranslationRuns | src/runtime/dispatch.rs:31-35 | translated bytes have the effect of the optimized block from every processor state |
| Dispatch.TranslationScratchFree | src/runtime/dispatch.rs:35-36 | what translated code does to the guest is independent of scratch registers and flags at entry |
| Dispatch.Dispatcher.CompileBlock | src/runtime/dispatch.rs:24-38 | the result, with each error case, and the new cache: the entry is replaced with a fresh count on success and nothing changes otherwise; validity and the hit balance are kept |
| Dispatch.Dispatcher.Run | src/runtime/dispatch.rs:49-62 | outcome, guest, hit counts and execution counter are those of the run specification on the cache as it was at entry; hits and executions stay balanced short of saturation and wrap-around |
| Dispatch.Dispatcher.RunNext | src/runtime/dispatch.rs:51-59 | one pass of the loop: missing block, exit to an uncached pc, or go on, with counters bumped before the block runs |
| Dispatch.Dispatcher.Call | src/runtime/dispatch.rs:58 | entering code with arbitrary scratch registers and flags changes the guest as the code's own flow says |
| Dispatch.Dispatcher.HasBlock | src/runtime/dispatch.rs:41 | true exactly for cached addresses |
| Dispatch.Dispatcher.HitCount | src/runtime/dispatch.rs:47 | the entry's count, 0 for uncached addresses |
| Runtime.GuestState.constructor | src/runtime/state.rs:16-17 | a fresh state is all zeros |
| Runtime.GuestState.ReadX | src/runtime/state.rs:18-19 | reads the architectural 64-bit register, 31 being zero |
| Runtime.GuestState.WriteX | src/runtime/state.rs:20-21 | writes the register, and drops writes to 31 and beyond |
| State.RegOffsetAddressesRegister | src/runtime/state.rs:28-31 | loading or storing at a register's offset in the struct is reading or writing that register and nothing else |
| State.LayoutIsC | src/runtime/state.rs:6-31 | the offsets used by emitted code are those C layout gives the struct, and the host base of guest memory is 2^46 |
| BlockProof.CodegenCorrect | src/codegen/x86_64.rs:154-184 | running an accepted block's bytes from offset 0, from any scratch state, returns with exactly the registers, NZCV, padding, pc and memory of the IR block, or faults exactly when it does |
| Acceptance.BlockAccepted | src/codegen/x86_64.rs:154-184 | a block is accepted if and only if every slot up to its first exit has an implemented opcode with the operand shapes it needs |
| Acceptance.RefusalReason | src/codegen/x86_64.rs:177-178 | opcodes without code are reported by name, everything else refused is refused for its operands |
| Acceptance.LiftedIsSupported | src/lift/mod.rs:29 | which guest words are translated: the instruction of a word is supported if and only if the word is on a list by class, opcode and operand shapes |
| Acceptance.SupportedWindowAccepted | src/runtime/dispatch.rs:27-34 | a window of supported words is accepted as lifted, and translated if and only if no reachable store source or CBZ/CBNZ register is known constant |
| Acceptance.TranslationAccepted | src/runtime/dispatch.rs:27-34 | any window is translated if and only if it has no unsupported slot and every reached slot is supported once optimized |
| Pipeline.BytesAlwaysReturn | src/codegen/x86_64.rs:154-184 | the bytes of every accepted block decode on every path, stay inside the buffer and reach ret, or a guest fault, within as many steps as there are bytes |
| BlockProof.BlockExec | src/codegen/x86_64.rs:154-184 | the same at any offset and for any suffix of a block |
| BlockProof.ConditionalExec | src/codegen/x86_64.rs:146-152 | a conditional exit goes to its target exactly when its test holds and to the fall-through address otherwise |
| BlockProof.SetPcRetLength | src/codegen/x86_64.rs:148 | the jump distance is the encoded length of "set pc, return", so the skip lands on the fall-through sequence |
| BlockProof.ReturnExec | src/codegen/x86_64.rs:176 | a return leaves with pc equal to X30 |
| BlockProof.ConditionTestRun | src/codegen/x86_64.rs:149-150 | load NZCV, shift, bt against the table: the skip condition is the negated architectural condition, "never" for 15 |
| BlockProof.CompareTestRun | src/codegen/x86_64.rs:175 | the CBZ/CBNZ test compares the register at its own width with zero |
| BlockProof.TableEntry | src/codegen/x86_64.rs:190 | bit k of a truth table is the condition on flag nibble k |
| BlockProof.NibbleIsCondition | src/codegen/x86_64.rs:189 | the backend's test of a nibble is ConditionHolds for 0..14 and false for 15 |
| Codegen.ConditionTruthTable | src/codegen/x86_64.rs:190 | the loop that or-s bits together builds the table |
| Codegen.BuildConditionTables | src/codegen/x86_64.rs:191 | all sixteen tables, in order |
| X86Props.DecodeEnc | src/codegen/x86_64.rs:46-140 | every encoding the backend uses decodes, before any following bytes, to the instruction and length it was made from |
| X86Props.ExecSeq | src/codegen/x86_64.rs:14-19 | running encoded straight-line code inside a byte string is running its instructions in order |
| X86Props.ExecJump | src/codegen/x86_64.rs:150 | a forward short jump skips exactly its displacement when its condition holds |
| CodegenProof.StraightRun | src/codegen/x86_64.rs:158-173 | the code of every falling instruction has the instruction's effect on the guest, faults included |
| CodegenProof.BinopRun | src/codegen/x86_64.rs:161-170 | Add/Sub/And/Orr/Eor write the Arm result and, if asked, the Arm flags, which the destination store in between does not disturb |
| CodegenProof.BinopCoreRun | src/codegen/x86_64.rs:163-167 | both forms leave the Arm result in rax with matching processor flags |
| CodegenProof.ImmediateCoreRun | src/codegen/x86_64.rs:165 | the imm32 form gives the generic form's result and flags for every accepted constant |
| CodegenProof.CandidateValue | src/jit/isel.rs:30-45 | the sign-extended 32-bit field of an accepted constant is the constant at the operation's width |
| CodegenProof.AluMatchesArith | src/codegen/x86_64.rs:87-91 | x86 results and CF/ZF/SF/OF correspond to AddWithCarry: Sub carry is no-borrow, And clears C and V |
| CodegenProof.MaterializeRun | src/codegen/x86_64.rs:101-115 | the word stored is exactly N, Z, C, V at bits 31..28 with the low 28 bits zero, and nothing else changes |
| CodegenProof.CaptureRun | src/codegen/x86_64.rs:102-109 | SETcc leaves N, Z, C, V in the low bytes of four registers without touching the guest |
| CodegenProof.PackNZRun | src/codegen/x86_64.rs:110-111 | N and Z are placed at bits 31 and 30 |
| CodegenProof.PackCVRun | src/codegen/x86_64.rs:112-113 | C and V are added at bits 29 and 28 |
| CodegenProof.MovRun | src/codegen/x86_64.rs:160 | a move stores the operand's value in its destination |
| CodegenProof.ShiftRun | src/codegen/x86_64.rs:171 | a variable shift stores the architectural shift by the amount modulo the width |
| CodegenProof.LoadRun | src/codegen/x86_64.rs:172 | a load writes the little-endian word at base plus offset, or faults |
| CodegenProof.StoreRun | src/codegen/x86_64.rs:173 | a store writes the register's bytes at base plus offset, or faults without effect |
| CodegenProof.HostAddressing | src/codegen/x86_64.rs:131-140 | adding the host base and the sign-extended displacement reaches guest base plus offset modulo 2^64 |
| CodegenProof.LoadOperandRun | src/codegen/x86_64.rs:35-44 | the operand's value at the operation width ends in the register, and no other register changes |
| CodegenProof.LoadRegRun | src/codegen/x86_64.rs:22-26 | loads the guest register at its width, zero for the zero register |
| CodegenProof.StoreRegRun | src/codegen/x86_64.rs:29-33 | stores a value that fits as an architectural register write |
| Bits.StoreWordExact | src/codegen/x86_64.rs:140 | a store succeeds exactly when all its bytes are mapped, writes byte i of the value at address + i, keeps every other byte and maps nothing |
| Bits.LoadWordExact | src/codegen/x86_64.rs:138 | a load succeeds exactly when all its bytes are mapped and gives the sum of byte i times 256^i |
| Bits.LoadAfterStore | src/codegen/x86_64.rs:138-140 | what was stored is loaded back, truncated to the width |
| Bits.BitwiseBits | src/jit/optimizer.rs:68 | bit k of AND, OR and XOR is the Boolean and, or and inequality of the bits k, for all numbers and all k |
| Bits.LogicBits | src/codegen/x86_64.rs:88-91 | the same for And, Orr and Eor at either width |
| Bits.LeByte | src/codegen/x86_64.rs:17-18 | byte i of an emitted constant is its value divided by 256^i, modulo 256 |
| Shifts.ShiftManyIsShift | src/codegen/x86_64.rs:118-128 | the processor's bit-by-bit shift equals the architectural shift, Asr being floor division of the signed value |
| Compare.CompareAndBranch | src/codegen/x86_64.rs:101-115 | for every condition from 0 to 14 the emitted bytes of SUBS, with any destination of the width, and B.cond go to the target exactly when the named relation holds of the operands, in both widths; apart from NZCV and pc only the destination changes, to the difference |
| Compare.ConditionAfterSub | src/codegen/x86_64.rs:189 | the flags of a subtraction decide EQ, NE, HS, LO, HI, LS, GE, LT, GT, LE and AL, and MI, PL, VS and VC as sign and signed overflow of the exact difference |
| Compare.NarrowingMove | src/codegen/x86_64.rs:28-33 | a move of a 64-bit register into a W register is compiled correctly exactly when the source's upper half is zero |
| Codegen.CodeBuffer.constructor | src/codegen/x86_64.rs:15 | a new buffer holds no code |
| Codegen.CodeBuffer.EmitBlock | src/codegen/x86_64.rs:154-184 | appends the encodings of the lowered block, or reports the lowering's error |
| Codegen.CodeBuffer.EmitStraight | src/codegen/x86_64.rs:158-173 | the same for one falling instruction, unsupported opcodes included |
| Codegen.CodeBuffer.EmitExit | src/codegen/x86_64.rs:174-176 | the same for Branch, BranchCond and Ret |
| Codegen.CodeBuffer.EmitMov | src/codegen/x86_64.rs:160 | appends operand load and destination store, or rejects the operand |
| Codegen.CodeBuffer.EmitArithmetic | src/codegen/x86_64.rs:161-170 | appends the operation, the store and, when asked, the flag word |
| Codegen.CodeBuffer.EmitBinopCore | src/codegen/x86_64.rs:163-167 | chooses the immediate form exactly for selected constants on a register |
| Codegen.CodeBuffer.EmitShift | src/codegen/x86_64.rs:171 | appends value, amount, shift and store |
| Codegen.CodeBuffer.EmitLoad | src/codegen/x86_64.rs:172 | appends address, access and store |
| Codegen.CodeBuffer.EmitStore | src/codegen/x86_64.rs:173 | appends value, address and access; a constant source is rejected |
| Codegen.CodeBuffer.EmitBranchCond | src/codegen/x86_64.rs:146-152 | appends flag test, skip and both exits; conditions above 15 are rejected |
| Codegen.CodeBuffer.EmitCompareBranch | src/codegen/x86_64.rs:175 | appends zero test, skip and both exits |
| Codegen.CodeBuffer.EmitSetPcImm | src/codegen/x86_64.rs:143 | appends the code that sets the pc field |
| Codegen.CodeBuffer.EmitNzcvFromX86Flags | src/codegen/x86_64.rs:101-115 | appends the code that assembles and stores the flag word |
| Codegen.CodeBuffer.EmitGuestAddress | src/codegen/x86_64.rs:131-135 | appends the code that adds the host base to a guest register |
| Codegen.CodeBuffer.EmitLoadOperand | src/codegen/x86_64.rs:35-44 | appends the operand load, or rejects the operand |
| Codegen.CodeBuffer.EmitLoadState | src/codegen/x86_64.rs:22-26 | appends the register load; the zero register is cleared instead |
| Codegen.CodeBuffer.EmitStoreState | src/codegen/x86_64.rs:29-33 | appends the 64-bit register store; nothing for the zero register |
| Codegen.CodeBuffer.EmitMovImm | src/codegen/x86_64.rs:47-58 | the bytes are the encoding of a move of the constant truncated to the width |
| Codegen.CodeBuffer.EmitMovLoad | src/codegen/x86_64.rs:61-64 | the bytes encode a load from the guest state |
| Codegen.CodeBuffer.EmitMovStore | src/codegen/x86_64.rs:67-70 | the bytes encode a store to the guest state |
| Codegen.CodeBuffer.EmitXor | src/codegen/x86_64.rs:73-84 | the bytes encode the exclusive or, for the register pairs that have an encoding |
| Codegen.CodeBuffer.EmitBinop | src/codegen/x86_64.rs:87-91 | the bytes encode the operation on rax and rcx |
| Codegen.CodeBuffer.EmitBinopImm | src/codegen/x86_64.rs:94-98 | the bytes encode the operation on rax and the constant's low 32 bits |
| Codegen.CodeBuffer.EmitShiftImm | src/codegen/x86_64.rs:118-123 | the bytes encode the shift; nothing for amount 0 |
| Codegen.CodeBuffer.EmitShiftReg | src/codegen/x86_64.rs:126-128 | the bytes encode the shift of rax by cl |
| Codegen.CodeBuffer.EmitMemLoad | src/codegen/x86_64.rs:138 | the bytes encode a load from rax plus the displacement |
| Codegen.CodeBuffer.EmitMemStore | src/codegen/x86_64.rs:140 | the bytes encode a store of rcx at rax plus the displacement |
| Isel.AddSubImmediateRange | src/jit/isel.rs:37 | for 64-bit Add and Sub the accepted constants are exactly those below 2^31 or at least 2^64 - 2^31 |
| Isel.ImmediateRange | src/jit/isel.rs:30-45 | exactly which constants become immediates, for every operation and width |
| Isel.InstructionSelector.SelectBlock | src/jit/isel.rs:16-20 | counts the candidates with saturation and leaves the block alone |
| Optimizer.OptimizeBlock | src/jit/optimizer.rs:12-58 | replaces the instruction list by the optimized one, and changes nothing else of the block |
| Optimizer.OptimizeInst | src/jit/optimizer.rs:16-55 | one loop pass: the rewritten instruction and the table after it |
| Optimizer.OptimizeMov | src/jit/optimizer.rs:20-27 | the table after a move |
| Optimizer.OptimizeBinop | src/jit/optimizer.rs:28-41 | fold, simplify or keep, and the table afterwards |
| Optimizer.OptimizeShift | src/jit/optimizer.rs:42-50 | fold or keep, and the table afterwards |
| Optimizer.RewriteOperand | src/jit/optimizer.rs:60-63 | a known general register becomes its truncated constant |
| Optimizer.InvalidateDest | src/jit/optimizer.rs:89 | exactly the destination's entry is forgotten |
| OptimizerProof.OptimizedSound | src/jit/optimizer.rs:12-58 | from every state the table describes, the optimized block has the same outcome: registers, flags, memory, pc or fault |
| OptimizerProof.OptStepSound | src/jit/optimizer.rs:15-55 | each rewritten instruction does the same, and every table entry is again the full 64-bit value of its register |
| OptimizerProof.FoldBinopIsArith | src/jit/optimizer.rs:68 | folding on 64 bits and truncating is the operation at the width, for all operands |
| OptimizerProof.FoldShiftExact | src/jit/optimizer.rs:69 | folding agrees with execution if and only if it is not a rotation of a W register that rotates out a one-bit |
| Pipeline.MisfoldExample | src/jit/optimizer.rs:69 | from every state, the block movz w0,#1; movz w1,#1; rorv w2,w0,w1 ends with 2^31 in W2 as lifted and with 0 once optimized |
| OptimizerProof.MisfoldDiffers | src/jit/optimizer.rs:44-47 | a wrongly folded rotation leaves a different machine, from every state |
| OptimizerProof.IdentityExec | src/jit/optimizer.rs:74-86 | each algebraic identity moves exactly the value the operation computes |
| OptimizerProof.IdentityFires | src/jit/optimizer.rs:74-86 | the identities fire exactly for neutral and absorbing constants and for a register subtracted from or exclusive-ored with itself, and become the move algebra calls for |
| OptimizerProof.UnfoldedBecomesIdentity | src/jit/optimizer.rs:37-40 | a flag-free operation that is not folded becomes what the identities make of it |
| OptimizerProof.SelfCancels | src/jit/optimizer.rs:77-82 | SUB and EOR of a register with itself become moves of zero, whether it is known or not |
| OptimizerProof.NothingKnownLeft | src/jit/optimizer.rs:16-17 | propagation is complete: no optimized instruction of any opcode still names a known register in its second or third operand |
| OptimizerProof.MovStep | src/jit/optimizer.rs:20-27 | after a move the table is true of the registers again |
| OptimizerProof.RewriteInstSound | src/jit/optimizer.rs:16-17 | replacing known registers by constants in any opcode keeps the instruction's meaning |
| OptimizerProof.MixedWidthFolds | src/jit/optimizer.rs:97 | adding 1 to an all-ones W register in a 64-bit addition folds to 2^32 |
| OptimizerProof.OptimizedWellFormed | src/jit/optimizer.rs:12-58 | optimization keeps every instruction well formed |
| Pipeline.PrepareBlock | src/jit/mod.rs:17-22 | the two passes change the instruction list only, to the optimized one |
| Pipeline.PipelineCorrect | src/jit/mod.rs:17-22 | if the prepared block is accepted, its bytes have the effect of the unoptimized block |
| Pipeline.PreservationExact | src/jit/optimizer.rs:12-58 | an accepted block and its optimized form agree after every slot from every state if and only if no reachable slot folds a wrong rotation |
| Pipeline.AcceptanceExact | src/codegen/x86_64.rs:173-175 | an accepted block stays accepted after optimization if and only if no reachable Store source or CBZ/CBNZ register is known constant at its slot |
| Pipeline.StoreOfConstantRejected | src/codegen/x86_64.rs:173 | a concrete two-instruction block that is accepted as lifted and rejected once optimized |
| Pipeline.SlotsKept | src/jit/optimizer.rs:15-57 | one output per input in place: destinations and flags are kept, exits keep opcode and target, flag writers keep their opcode, and only moves replace anything |
| Pipeline.CoversStep | src/jit/optimizer.rs:15-55 | after any instruction the table knows exactly the registers that the rule for constants says have been made constant |
| Pipeline.ClosedBlockFolds | src/jit/optimizer.rs:20-50 | in any block without a wrong rotation, whatever else it contains, every flag-free operation or shift that is reached and reads only constants or registers made constant becomes a move of exactly the value execution gives |
| Ir.Block.Push | src/ir/block.rs:27-30 | appends one instruction and keeps the byte span at four bytes per instruction, saturating |
| Ir.Block.At | src/ir/block.rs:23-24 | an empty block at an address |
| Ir.Block.ByteLen | src/ir/block.rs:32-33 | the recorded guest span, whatever the instruction list has become |
| Lift.LiftBlockAt | src/lift/block.rs:13-28 | lifts up to and including the first terminal word, one instruction per word at its own address, and returns how many words |
| Windows.ConsumedExact | src/lift/block.rs:16-34 | a block takes words up to and including the first that cannot be decoded or has one of the eight branch opcodes, and all of them if there is none |
| Windows.BranchesTerminal | src/lift/block.rs:31-34 | with a decoder whose opcodes agree with the hand-decoded classes, every B.cond, CBZ and CBNZ word ends its block |
| Windows.NonTerminalsFallThrough | src/lift/block.rs:18-27 | with such a decoder the words that do not end a block are lifted to instructions that fall through |
| Lift.LiftOneAt | src/lift/mod.rs:29 | appends exactly the instruction of the word |
| Lift.LiftConditionalBranch | src/lift/mod.rs:23 | handles exactly B.cond, CBZ and CBNZ words |
| Lift.LiftMoveWide | src/lift/mod.rs:25 | handles exactly MOVZ and MOVN words, W moves of a high halfword being unsupported |
| LiftProof.SignExtend19IsSigned | src/lift/mod.rs:21 | the shift pair computes four times the two's-complement field |
| LiftProof.BCondRoundTrip | src/lift/mod.rs:23 | encoding a B.cond and lifting it recovers condition and target at every pc |
| LiftProof.CompareBranchRoundTrip | src/lift/mod.rs:23 | encoding a CBZ or CBNZ and lifting it recovers width, register, sense and target |
| LiftProof.MoveWideRoundTrip | src/lift/mod.rs:25 | encoding a MOVZ or MOVN and lifting it recovers destination, width and the architectural constant |
| LiftProof.UnsignedMemRoundTrip | src/lift/mod.rs:15 | encoding a scaled LDR or STR and lifting it recovers direction, width, registers and byte offset |
| LiftProof.LiftWellFormed | src/lift/mod.rs:29 | everything lifted through a sane decoder is well formed |
| LiftProof.UnsupportedKeepsWord | src/lift/mod.rs:17 | an unsupported instruction carries the word it was lifted from |
| LiftProof.MixedSizesSane | src/lift/mod.rs:11-13 | decodings with operands of two sizes that lifting does not translate satisfy the assumption on the decoder |
| Fields.ClassesDisjoint | src/lift/mod.rs:15-25 | no word belongs to two hand-decoded classes |
| Fields.BCondIsEncoding | src/lift/mod.rs:23 | every word taken for a B.cond is the encoding of its own fields |
| Fields.CompareBranchIsEncoding | src/lift/mod.rs:23 | the same for CBZ and CBNZ |
| Fields.MoveWideIsEncoding | src/lift/mod.rs:25 | the same for MOVZ and MOVN |
| Fields.UnsignedMemIsEncoding | src/lift/mod.rs:15 | the same for scaled loads and stores |
| LiftMeaning.LiftMeansTheSame | src/lift/mod.rs:29 | on every machine the lifted instruction does what the word does if and only if the word is not a condition-15 branch elsewhere than to the next word and not a return through a register other than X30 |
| LiftMeaning.PlainIsArm | src/lift/mod.rs:29 | the same for one machine at a time |
| LiftMeaning.DecodedIsArm | src/lift/mod.rs:29 | arithmetic, logic, shifts, B, NOP and RET X30 as decoded do what the architecture says, flags and SP included |
| LiftMeaning.UntranslatedIsStuck | src/lift/mod.rs:29 | an opcode that is not translated lifts to an unsupported instruction and has no meaning in the reference |
| LiftMeaning.SourceIsEval | src/lift/mod.rs:13 | a lowered operand evaluates to the operand's architectural value |
| LiftMeaning.ShiftIsArm | src/lift/mod.rs:19 | LSLV, LSRV, ASRV and RORV shift by the register modulo the width |
| LiftMeaning.BCondIsArm | src/lift/mod.rs:23 | B.cond branches under ConditionHolds to pc plus the signed offset |
| LiftMeaning.CompareBranchIsArm | src/lift/mod.rs:23 | CBZ and CBNZ branch on the register at its width |
| LiftMeaning.MoveWideIsArm | src/lift/mod.rs:25 | MOVZ and MOVN write the shifted halfword or its complement at the width |
| LiftMeaning.UnsignedMemIsArm | src/lift/mod.rs:15 | LDR and STR access base or SP plus the scaled offset at the encoded width |
| LiftMeaning.NeverIsNotAlways | src/codegen/x86_64.rs:189 | a condition-15 branch elsewhere than to the next word does not do what the architecture says |
| LiftMeaning.ReturnsElsewhere | src/codegen/x86_64.rs:176 | a return through another register does not do what the architecture says |
| Background.EveryInterleaving | src/jit/compiler.rs:20-49 | in every interleaving the results are the ordered outputs of a prefix of the accepted requests, and of all of them once the worker has left with its receiver alive |
| Background.AcceptedInOrder | src/jit/compiler.rs:35-41 | while the sender is open and the worker alive the accepted requests are exactly those enqueued, in order; nothing is accepted afterwards |
| Background.OutputsInOrder | src/jit/compiler.rs:24-30 | one result per request that compiles and maps, in request order, none twice, none missing |
| Background.InvStep | src/jit/compiler.rs:24-48 | every enqueue, worker step, hang-up and drop keeps the queue and result invariant |
| Background.WorkerNeverStuck | src/jit/compiler.rs:24 | with a request queued, or none and the sender gone, the worker can act |
| Background.DropCompletes | src/jit/compiler.rs:44-49 | after the sender is dropped the worker can always leave, whatever the host maps and whether or not results are still wanted; if they are, everything queued is received first |
| Eager.BackgroundIsEager | src/runtime/dispatch.rs:27-29 | background and eager compilation of a window give the same bytes or refuse it both, if and only if it has no unsupported slot, or its part up to the first exit has one or is refused for another reason |
| Eager.BackgroundAgrees | src/jit/compiler.rs:24-27 | with a decoder whose opcodes agree with the hand-decoded branches they always agree |
| Eager.UnsupportedRefused | src/codegen/x86_64.rs:177-178 | a block with an unsupported slot before any exit is refused, optimized or not |
| Eager.LivePartDecides | src/codegen/x86_64.rs:174-176 | acceptance depends only on the part up to the first exit |
| Eager.BranchThenUnsupported | src/jit/compiler.rs:24-27 | a branch followed by an unsupported slot is compiled in the background and refused eagerly |

## Left out

- PreservationExact: agreement is stated after every slot, because a later instruction may overwrite a wrong value; agreement of final states alone is the one-directional OptimizedSound.
- OptimizedSound: one direction only, for the same reason; the exact condition is PreservationExact.
- HistoryTransparent: compilations that succeed are of blocks the backend supports as lifted and that fold no wrong rotation (those that fail are unrestricted); guest text does not change after translation.
- CompareAndBranch: operands wider than the operation are outside well-formed code; condition 15 is covered by NeverIsNotAlways.
- TranslationSplits: the first part must hold no exit, which NonTerminalsFallThrough ensures for decoders that agree on the branches.
- Perform: windows span less than the address space, as any slice of guest words does.
- LiftMeansTheSame: words outside the supported subset have no meaning on either side.
- DropCompletes: a finishing sequence is exhibited for all mapping outcomes; scheduling and fairness of threads are not modelled.
- Dispatcher.Call: a crash of native code ends the process; here it leaves the guest as it was.
- EmitXor: panics on the register pairs without an encoding; they are excluded by its precondition.
- The decoder library for instructions outside the hand-decoded classes: a parameter, see `DecoderSane`.
- ELF loading, file reading, the launcher and its output (src/elf.rs, src/main.rs): input and output.
- `mmap`, `make_exec`, `transmute` and raw pointers: the bytes themselves, with mapping success as an input.
- Panics of unoptimized builds on address overflow, and of table indexing on register numbers above 30: addresses wrap, numbers are in range.
- `CodeCache`, `Hotness`, `Block.hit_count`, selection cost, optimizer counters and `block_count`: statistics and placeholders.
- `lift_one` and `lift_block`: wrappers that compute the address passed to the modelled functions.
- Opcodes the backend never emits (Extend, Compare, Call) have no meaning in the IR semantics.
- Idempotence of the optimizer: it does not hold, since zeros made by an identity enter the table only on a second pass.
- Channels and threads of the background compiler are a state machine whose worker receives, compiles and sends in one step.
