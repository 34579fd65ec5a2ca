# CToPTXInstrumentationPass, modelled in Dafny

This project models the instrumentation pass of Lynx (in ptxJITr). The pass
takes the PTX statements the C-to-PTX translator produced from instrumentation code and
weaves them into a CUDA kernel's dataflow graph. Its input holds three kinds
of statements:

- labels that name an instrumentation target (`ENTER_KERNEL`, `EXIT_KERNEL`,
  `ENTER_BASIC_BLOCK`, `EXIT_BASIC_BLOCK`, `ON_INSTRUCTION`);
- filter labels: instruction classes, address spaces and data types;
- placeholder operands (`BASIC_BLOCK_ID`, `INSTRUCTION_COUNT`, ...), which
  stand for static attributes of the place where code is inserted.

`runOnKernel` runs in four steps:

1. It optimizes the statements: constant moves are propagated and erased,
   and a `mul`/`add` pair is fused into a `mad`.
2. It binds the translation's register names to fresh registers.
3. It partitions the statements into translation blocks.
4. It dispatches each block to one of three splicers:
   - `instrumentInstruction` inserts the prepared code before every matching
     instruction;
   - `instrumentBasicBlock` inserts it once per basic block, counting
     matching and executed instructions, with a counting idiom for guarded
     ones;
   - `instrumentKernel` inserts it at kernel entry or exit.

Every inserted statement first goes through `prepareStatementToInsert`. That
function substitutes the placeholders, resolves register names and lowers a
few pseudo-instructions.

The model has two layers:

- **Specification functions.** Pure functions over values model each
  operation: `Rewriter.Prepare`, `Optimizer.Optimize`,
  `Partitioner.PartitionOf`, `Splicer.InsertBefore`,
  `Splicer.InstrumentBasicBlock`, `Runner.RunOnKernel`, and so on.
  Lemmas state what the source promises about them.
- **Imperative classes.** `Pass.InstrumentationPass` holds the pass's own
  state: the translation's statements and register names, the `constants`
  table and `newRegisterMap`. `Graph.DataflowGraph` holds the kernel's
  blocks and register counter, and `Graph.PtxKernel` holds the kernel's
  declarations. The class methods update that state with loops, as the
  source does. Each method's postcondition equates the new state with the
  specification function of the same name.

## Representation choices

- A kernel's graph is a sequence of basic blocks. The entry block comes
  first and the exit block last.
- An instruction's operands `a`, `b`, `c`, `d` and `pg` are a five-element
  sequence indexed by the slots `A`, `B`, `C`, `D` and `PG`.
- `dfg().newRegister()` is a counter that is incremented and then returned.
- `newRegisterMap[name]` on an unknown name reads as register 0.
- The lookup tables filled by the constructor are maps built in source order,
  so a later assignment wins.
- Unsigned 32-bit arithmetic is written out where the source relies on it:
  - `dfg().size() - 2` wraps below zero (`Translation.BasicBlockCount`);
  - recorded constants keep the low 32 bits of their immediate
    (`Optimizer.ToUnsigned32`);
  - the kernel instruction count is returned as an `unsigned int`.
- Where the source inserts into or erases from a vector it is iterating, the
  model reads the loop as continuing at the same offset. Where it reads past
  the end of the vector (`statement + 1` ... `statement + 3`), that read
  counts as no match.
- The strip loop at the end of `instrumentBasicBlock` is modelled twice: as
  written (`Splicer.StripAsWritten`, which can leave an idiom behind) and
  corrected (`Splicer.Strip`). The basic-block loop and everything built on
  it use the corrected strip; see Findings and "Left out".
- The splicers take the statement preparer as a parameter (`Preparer`), so
  their properties hold whatever the preparer does. The pass passes
  `Rewriter.Prepare`.

## Model

| member | source | states |
|---|---|---|
| Vocabulary.OpcodeReassignments | lynx/transforms/implementation/CToPTXInstrumentationPass.cpp:1039-1083 | Sqrt, Sin and Cos keep their second assignment (floating point) and Tex is floating point. The two texture opcodes are texture. |
| Vocabulary.UnassignedOpcodes | lynx/transforms/implementation/CToPTXInstrumentationPass.cpp:1039-1083 | `mov` and every opcode outside the table read as the empty string, which is no instruction class. |
| Vocabulary.DataTypeTable | lynx/transforms/implementation/CToPTXInstrumentationPass.cpp:1092-1102 | The data-type class is TYPE_INT exactly for the signed and unsigned integer types, TYPE_FP exactly for the three float widths, and empty for all other types. |
| Vocabulary.AddressSpaceTable | lynx/transforms/implementation/CToPTXInstrumentationPass.cpp:1085-1090 | A name maps to a valid address space exactly when it is one of the six specifiers. No name maps to the generic space. |
| Vocabulary.VocabularyWellFormed | lynx/transforms/implementation/CToPTXInstrumentationPass.cpp:1033-1037 | The names the pass compares against are non-empty and pairwise distinct, across all vocabularies. |
| Translation.BasicBlockCount | lynx/transforms/implementation/CToPTXInstrumentationPass.cpp:346 | `size() - 2` in 32 bits: the true difference for at least two blocks, and 0xFFFFFFFE for an empty graph. |
| Matcher.ClassScanAccepts | lynx/transforms/implementation/CToPTXInstrumentationPass.cpp:162-183 | An accepting class scan accepts at some entry of the vector. |
| Matcher.AcceptingEntry | lynx/transforms/implementation/CToPTXInstrumentationPass.cpp:162-183 | Conversely, a scan that accepts at some entry accepts. |
| Matcher.ClassScanMeaning | lynx/transforms/implementation/CToPTXInstrumentationPass.cpp:162-183 | The class scan accepts if and only if it accepts at some entry. |
| Matcher.SpaceScanMeaning | lynx/transforms/implementation/CToPTXInstrumentationPass.cpp:193-201 | The address-space filter accepts if and only if some listed name maps to the instruction's single address space. |
| Matcher.TypeScanMeaning | lynx/transforms/implementation/CToPTXInstrumentationPass.cpp:212-219 | The type filter accepts if and only if some listed name is the class of the instruction's type. |
| Matcher.ConditionsMetMeaning | lynx/transforms/implementation/CToPTXInstrumentationPass.cpp:148-223 | The matcher is the AND of the three filters. Each filter holds when its vector is empty. |
| Matcher.UnfilteredAcceptsAll | lynx/transforms/implementation/CToPTXInstrumentationPass.cpp:154-208 | A specifier without filters accepts every instruction. |
| Matcher.PredicatedClass | lynx/transforms/implementation/CToPTXInstrumentationPass.cpp:165-174 | `ON_PREDICATED` alone accepts exactly the guarded instructions. |
| Matcher.PredicatedThenBranch | lynx/transforms/implementation/CToPTXInstrumentationPass.cpp:175-181 | With `ON_PREDICATED` listed before the branch class, an instruction is accepted exactly when it is guarded, so an unguarded branch is rejected. Listed the other way round, every branch is accepted. |
| Matcher.OpcodeClassOfBranch | lynx/transforms/implementation/CToPTXInstrumentationPass.cpp:1041 | `bra` belongs to `ON_BRANCH`. |
| Matcher.UnknownSpaceName | lynx/transforms/implementation/CToPTXInstrumentationPass.cpp:196 | An unknown address-space name selects exactly the instructions whose address space is the invalid one. |
| Matcher.KernelCountMeaning | lynx/transforms/implementation/CToPTXInstrumentationPass.cpp:616-641 | The kernel count is the number of accepted instructions outside the entry block, so it is at most their number. |
| Rewriter.Bind | lynx/transforms/implementation/CToPTXInstrumentationPass.cpp:104-105 | A new register is one past the counter. The name is bound to it, and that register is bound to no earlier name. |
| Rewriter.PrepareRegisters | lynx/transforms/implementation/CToPTXInstrumentationPass.cpp:34-146 | Preparing keeps the directive and the name. It allocates one register exactly for a predicate value or a new base address, and none otherwise. |
| Rewriter.CallBindsGuardOnly | lynx/transforms/implementation/CToPTXInstrumentationPass.cpp:38-43 | A call only binds its guard register. Every other operand, placeholders included, stays as given. |
| Rewriter.OperandSubstituted | lynx/transforms/implementation/CToPTXInstrumentationPass.cpp:47-71 | Each of the six placeholders becomes an immediate holding its attribute. `BASIC_BLOCK_PRED_INST_COUNT` takes the executed count but keeps its mode. Other operands keep mode and value. |
| Rewriter.PlaceholdersSubstituted | lynx/transforms/implementation/CToPTXInstrumentationPass.cpp:47-71 | On the general path, each source operand leaves with the mode and value that substitution gives it. |
| Rewriter.BranchKeepsSources | lynx/transforms/implementation/CToPTXInstrumentationPass.cpp:78-93 | A branch keeps its substituted source operands. |
| Rewriter.ResolvedKeepsSources | lynx/transforms/implementation/CToPTXInstrumentationPass.cpp:111-143 | Off the branch path, register resolution and the vote lowering keep each substituted source's mode and value. |
| Rewriter.RegistersResolved | lynx/transforms/implementation/CToPTXInstrumentationPass.cpp:111-124 | An operand that names a register (Register, Indirect, or a Pred that is not an Address) leaves bound to `newRegisterMap` of its name, with the name cleared. Every other operand keeps its register and name. |
| Rewriter.PredicateValueLowered | lynx/transforms/implementation/CToPTXInstrumentationPass.cpp:95-109 | `GET_PREDICATE_VALUE` becomes `selp d, 1, 0, g`. Here `g` is the instrumented instruction's guard and `d` is a fresh register, now bound to that name. |
| Rewriter.BranchLowered | lynx/transforms/implementation/CToPTXInstrumentationPass.cpp:78-93 | A guarded branch binds its guard register. A branch to `EXIT` jumps to the block before the exit block. Nothing is allocated. |
| Rewriter.UniformVoteLowered | lynx/transforms/implementation/CToPTXInstrumentationPass.cpp:126-143 | Over an unguarded instruction, `vote.uni` becomes the always-true `setp.eq.u64 d, 0, 0`. Over a guarded one, its first operand becomes the guard. |
| Rewriter.BaseAddressContinued | lynx/transforms/implementation/CToPTXInstrumentationPass.cpp:647-656 | A continued address computation reuses the bound base register for `d` and `a`, resolves `b`, and skips placeholder substitution. |
| Rewriter.BaseAddressStarted | lynx/transforms/implementation/CToPTXInstrumentationPass.cpp:658-688 | A new base address binds a fresh register. Over an indirect store or load it becomes `add d, base, offset`; otherwise its opcode and unsubstituted sources stay as given. |
| Runner.AllocateRegisters | lynx/transforms/implementation/CToPTXInstrumentationPass.cpp:709-712 | One register per listed name is allocated. Listed and earlier names are bound, and an unlisted earlier name keeps its register. |
| Runner.Unbound | lynx/transforms/implementation/CToPTXInstrumentationPass.cpp:709-712 | A name that is neither bound nor listed stays unbound. |
| Runner.LastBindingWins | lynx/transforms/implementation/CToPTXInstrumentationPass.cpp:709-712 | A name is bound to the register allocated for its last occurrence. |
| Runner.AllocationFresh | lynx/transforms/implementation/CToPTXInstrumentationPass.cpp:709-712 | Allocation keeps every binding below the counter and gives each listed name a register not handed out before. |
| Runner.DistinctNamesDistinctRegisters | lynx/transforms/implementation/CToPTXInstrumentationPass.cpp:709-712 | Distinct names get distinct registers. |
| Runner.AddLocals | lynx/transforms/implementation/CToPTXInstrumentationPass.cpp:725-731 | Existing locals are kept, and every declared name ends up bound. |
| Runner.AddLocalsNext | lynx/transforms/implementation/CToPTXInstrumentationPass.cpp:725-731 | One more declaration is added unless its name is taken. |
| Runner.FirstDeclarationWins | lynx/transforms/implementation/CToPTXInstrumentationPass.cpp:725-731 | `map::insert` keeps the first declaration of a new name. |
| Runner.Undeclared | lynx/transforms/implementation/CToPTXInstrumentationPass.cpp:725-731 | A name that is neither a local nor declared stays absent. |
| Runner.DispatchFromStep | lynx/transforms/implementation/CToPTXInstrumentationPass.cpp:861-891 | A throw ends the dispatch loop; otherwise the next block starts from the graph the previous one left. |
| Runner.DispatchOneShape | lynx/transforms/implementation/CToPTXInstrumentationPass.cpp:877-890 | Dispatching a block keeps the number of blocks and their labels. |
| Runner.DispatchShape | lynx/transforms/implementation/CToPTXInstrumentationPass.cpp:861-891 | The whole dispatch loop keeps the number of blocks and their labels. |
| Runner.BasicBlocksThrowOnlyChecked | lynx/transforms/implementation/CToPTXInstrumentationPass.cpp:415-448 | `instrumentBasicBlock` cannot throw when predication is not checked. |
| Runner.DispatchThrowsOnlyChecked | lynx/transforms/implementation/CToPTXInstrumentationPass.cpp:861-891 | The dispatch throws only at a basic-block target that checks predication. |
| Runner.DispatchAppend | lynx/transforms/implementation/CToPTXInstrumentationPass.cpp:861-898 | Dispatching one more block continues from the graph the others left, unless they threw. |
| Runner.RunDeclarations | lynx/transforms/implementation/CToPTXInstrumentationPass.cpp:707-731 | The run leaves the statements and constants as `optimize` made them. Parameters are appended and shared declarations are added to the locals, in order, whether or not the dispatch throws. |
| Runner.RunShape | lynx/transforms/implementation/CToPTXInstrumentationPass.cpp:698-899 | The run keeps the graph's blocks and their labels. |
| Runner.RunOutcome | lynx/transforms/implementation/CToPTXInstrumentationPass.cpp:698-899 | The run throws only at a marked basic-block target naming an executed-count placeholder, and exactly when the marked blocks throw. Otherwise the initial block is instrumented last, at kernel entry. |
| Runner.DispatchedLast | lynx/transforms/implementation/CToPTXInstrumentationPass.cpp:897-898 | The initial block, dispatched last, instruments the graph the marked blocks left. |
| Runner.DispatchedThrows | lynx/transforms/implementation/CToPTXInstrumentationPass.cpp:743-757 | A throw comes from a marked basic-block target whose statements name an executed-count placeholder. |
| Runner.AllocatedBeforeDispatch | lynx/transforms/implementation/CToPTXInstrumentationPass.cpp:707-712 | Before dispatch, every declared register name is bound to a fresh register, the last occurrence winning. |
| Optimizer.ToUnsigned32 | lynx/transforms/implementation/CToPTXInstrumentationPass.cpp:940 | A recorded constant is below 2^32 and equals the immediate when the immediate fits. |
| Optimizer.Record | lynx/transforms/implementation/CToPTXInstrumentationPass.cpp:924-943 | Recording a constant move changes only the constants and the erase schedule, and only grows them. |
| Optimizer.FoldAt | lynx/transforms/implementation/CToPTXInstrumentationPass.cpp:945-967 | Folding rewrites only statement `i` and changes no other state. |
| Optimizer.Fused | lynx/transforms/implementation/CToPTXInstrumentationPass.cpp:969-977 | Fusion rewrites only the multiply and schedules the add for erasure. |
| Optimizer.Paired | lynx/transforms/implementation/CToPTXInstrumentationPass.cpp:979-994 | The load/store pairing touches only the statement two ahead, keeps its opcode and schedules at most the multiply-add. |
| Optimizer.Step | lynx/transforms/implementation/CToPTXInstrumentationPass.cpp:920-996 | One iteration edits the statements in place; their number never changes. |
| Optimizer.Filter | lynx/transforms/implementation/CToPTXInstrumentationPass.cpp:999-1021 | The erase filter never lengthens the statements. |
| Optimizer.FilterMembers | lynx/transforms/implementation/CToPTXInstrumentationPass.cpp:1002-1019 | The filter keeps exactly the statements that equal no scheduled one. |
| Optimizer.FilterAppend | lynx/transforms/implementation/CToPTXInstrumentationPass.cpp:1002-1019 | The filter keeps the input order. |
| Optimizer.StepFrame | lynx/transforms/implementation/CToPTXInstrumentationPass.cpp:920-996 | An iteration touches only its own statement and the one two ahead. |
| Optimizer.StepAhead | lynx/transforms/implementation/CToPTXInstrumentationPass.cpp:979-994 | The statement two ahead keeps its opcode and changes only if it is a store. |
| Optimizer.StepGrows | lynx/transforms/implementation/CToPTXInstrumentationPass.cpp:920-996 | An iteration only adds to the erase schedule and to the constants table. |
| Optimizer.IterateGrows | lynx/transforms/implementation/CToPTXInstrumentationPass.cpp:920-996 | Over the whole scan, the erase schedule and the recorded names only grow. |
| Optimizer.IterateFrozen | lynx/transforms/implementation/CToPTXInstrumentationPass.cpp:920-996 | A statement the scan has passed is never changed again. |
| Optimizer.IteratePending | lynx/transforms/implementation/CToPTXInstrumentationPass.cpp:920-996 | A statement the scan has not reached keeps its opcode, and stays as given unless it is a store. |
| Optimizer.StepRecordsConstant | lynx/transforms/implementation/CToPTXInstrumentationPass.cpp:924-943 | A `mov` of an immediate into a non-function name records its low 32 bits under that name. The move itself is scheduled for erasure and left as it is. |
| Optimizer.StepKeepsConstants | lynx/transforms/implementation/CToPTXInstrumentationPass.cpp:924-943 | Any other statement leaves the constants table alone. |
| Optimizer.StepFolds | lynx/transforms/implementation/CToPTXInstrumentationPass.cpp:945-967 | A source of `mad`, `add`, `sub`, `div`, `mul`, `shr`, `shl` or `setp` that names a recorded constant becomes that immediate. Any other source is left alone. |
| Optimizer.FoldsOperand | lynx/transforms/implementation/CToPTXInstrumentationPass.cpp:954-966 | The same fact for a single operand of the folding loop. |
| Optimizer.FusedKeepsSources | lynx/transforms/implementation/CToPTXInstrumentationPass.cpp:969-994 | Fusion and pairing keep the multiply's first two sources. |
| Optimizer.StepKeeps | lynx/transforms/implementation/CToPTXInstrumentationPass.cpp:924-967 | A statement that is neither a constant move nor a multiply, and names no constant, passes an iteration unchanged. |
| Optimizer.StepFuses | lynx/transforms/implementation/CToPTXInstrumentationPass.cpp:969-977 | `mul d, a, b` followed by `add d, d, x` becomes `mad d, a, b, x`, with `x`'s mode and name. The add stays in place and is scheduled. |
| Optimizer.StepSavesBeforeLoad | lynx/transforms/implementation/CToPTXInstrumentationPass.cpp:979-987 | With a load two ahead, the multiply-add's destination is saved and only the add is scheduled. |
| Optimizer.StepPairsStore | lynx/transforms/implementation/CToPTXInstrumentationPass.cpp:988-994 | With a saved destination and a store two ahead, the store takes the saved name, saving ends, and the multiply-add is scheduled as well. |
| Optimizer.PairsStore | lynx/transforms/implementation/CToPTXInstrumentationPass.cpp:988-994 | The pairing step on its own, under the same conditions. |
| Optimizer.StepIsPaired | lynx/transforms/implementation/CToPTXInstrumentationPass.cpp:969-994 | A fusable multiply goes through recording, folding, fusion and pairing, in that order. |
| Optimizer.StepIsOptimizerStep | lynx/transforms/implementation/CToPTXInstrumentationPass.cpp:920-996 | The iteration has the frame, recording, folding, fusing and keeping properties the end-to-end lemmas rely on. |
| Optimizer.ConstantMoveRemoved | lynx/transforms/implementation/CToPTXInstrumentationPass.cpp:924-1021 | Every constant move of the input is missing from the output of `optimize`. |
| Optimizer.ScanRemovesConstantMove | lynx/transforms/implementation/CToPTXInstrumentationPass.cpp:924-1021 | For any iteration that schedules constant moves, a constant move of the input is missing from the filtered output. |
| Optimizer.ScanConstantsStep | lynx/transforms/implementation/CToPTXInstrumentationPass.cpp:924-943 | The constants table changes only at a constant move, which records its destination. |
| Optimizer.LatestConstant | lynx/transforms/implementation/CToPTXInstrumentationPass.cpp:920-943 | When the scan reaches statement `k`, a name holds the value of the last constant move into it before `k`. |
| Optimizer.ScanLatestConstant | lynx/transforms/implementation/CToPTXInstrumentationPass.cpp:920-943 | For any iteration that records constants, the table at statement `k` holds the last constant move into a name before `k`. |
| Optimizer.SameMove | lynx/transforms/implementation/CToPTXInstrumentationPass.cpp:979-994 | A statement not yet reached is a constant move exactly when it was one in the input. |
| Optimizer.RecordedStep | lynx/transforms/implementation/CToPTXInstrumentationPass.cpp:924-943 | One more statement records at most its own destination. |
| Optimizer.RecordedNames | lynx/transforms/implementation/CToPTXInstrumentationPass.cpp:920-943 | A name is in the table at statement `k` if and only if it was there before `optimize`, or a constant move before `k` writes it. |
| Optimizer.ScanRecordedNames | lynx/transforms/implementation/CToPTXInstrumentationPass.cpp:920-943 | For any iteration that records constants, a name is in the table at `k` exactly when it was there at the start or a constant move before `k` writes it. |
| Optimizer.ConstantPropagated | lynx/transforms/implementation/CToPTXInstrumentationPass.cpp:920-967 | A source of a foldable instruction naming an earlier constant move (with no later move into that name before it) leaves the scan as that immediate. |
| Optimizer.ScanPropagatesConstant | lynx/transforms/implementation/CToPTXInstrumentationPass.cpp:920-967 | For any iteration that records and folds constants, a source naming an earlier constant move (and no later move into that name) leaves the scan as its immediate. |
| Optimizer.MultiplyAddFused | lynx/transforms/implementation/CToPTXInstrumentationPass.cpp:969-977 | A fusable `mul`/`add` pair leaves the scan as the `mad`. |
| Optimizer.ScanFusesMultiplyAdd | lynx/transforms/implementation/CToPTXInstrumentationPass.cpp:969-977 | For any iteration that fuses, a fusable pair leaves the scan as a `mad` that keeps the multiply's destination and takes the add's third operand. |
| Optimizer.ScanDropsScheduled | lynx/transforms/implementation/CToPTXInstrumentationPass.cpp:999-1021 | A statement that was passed and scheduled is missing from the output. |
| Optimizer.ScanSchedulesAdd | lynx/transforms/implementation/CToPTXInstrumentationPass.cpp:969-977 | The iteration at a fusion leaves the add in place and scheduled. |
| Optimizer.ScanKeepsAdd | lynx/transforms/implementation/CToPTXInstrumentationPass.cpp:945-967 | The next iteration leaves that add alone when it names no recorded constant. |
| Optimizer.FusedAddRemoved | lynx/transforms/implementation/CToPTXInstrumentationPass.cpp:945-1021 | The fused add is missing from the output when none of its sources names a constant. |
| Optimizer.ScanRemovesFusedAdd | lynx/transforms/implementation/CToPTXInstrumentationPass.cpp:945-1021 | For any iteration that records, fuses and keeps other statements, the fused add is missing from the output when none of its sources names a constant. |
| Optimizer.FirstRunKeepsPair | lynx/transforms/implementation/CToPTXInstrumentationPass.cpp:969-977 | On `mul d, a, b; mov x, 5; add d, d, y` the `mov` between them blocks the fusion: one run records `x` and keeps the separated `mul` and `add`. |
| Optimizer.SecondRunFuses | lynx/transforms/implementation/CToPTXInstrumentationPass.cpp:999-1021 | Run again on that output, with the constants it returned, the now adjacent `mul` and `add` fuse into a single `mad`. |
| Optimizer.OptimizeNotIdempotent | lynx/transforms/implementation/CToPTXInstrumentationPass.cpp:920-1021 | `optimize` is not idempotent: a second run can change the output of the first. |
| Optimizer.OptimizeShrinks | lynx/transforms/implementation/CToPTXInstrumentationPass.cpp:999-1021 | The output is never longer than the input, and the constants table keeps every name it had. |
| Partitioner.TargetOf | lynx/transforms/implementation/CToPTXInstrumentationPass.cpp:829-841 | A marker opens an INSTRUCTION target exactly for `ON_INSTRUCTION`, a BASIC_BLOCK target exactly for the two basic-block markers, and a KERNEL target otherwise. |
| Partitioner.WithNewest | lynx/transforms/implementation/CToPTXInstrumentationPass.cpp:848-854 | The back/pop/push idiom replaces only the newest block. |
| Partitioner.PartitionOfNext | lynx/transforms/implementation/CToPTXInstrumentationPass.cpp:716-859 | The statement loop one statement further on. |
| Partitioner.Filters | lynx/transforms/implementation/CToPTXInstrumentationPass.cpp:765-824 | Collected filters are names from the given vocabulary. |
| Partitioner.WithDirective | lynx/transforms/implementation/CToPTXInstrumentationPass.cpp:719-731 | The selected statements all carry the directive. |
| Partitioner.MarkersAreNotFilters | lynx/transforms/implementation/CToPTXInstrumentationPass.cpp:765-827 | No target marker is a filter name. |
| Partitioner.AcceptKeepsSummary | lynx/transforms/implementation/CToPTXInstrumentationPass.cpp:734-858 | Marking, filtering and appending a statement keep a block's flag and filters consistent with its statements. |
| Partitioner.OpenedIsConsistent | lynx/transforms/implementation/CToPTXInstrumentationPass.cpp:826-844 | A block opened by a marker has the marker as label and id, and summarises its one statement. |
| Partitioner.StepRoutes | lynx/transforms/implementation/CToPTXInstrumentationPass.cpp:719-731 | Param and Shared statements go to the kernel and leave the blocks alone. |
| Partitioner.StepOpens | lynx/transforms/implementation/CToPTXInstrumentationPass.cpp:826-854 | A marker label opens a new block that holds the label. |
| Partitioner.StepAccepts | lynx/transforms/implementation/CToPTXInstrumentationPass.cpp:734-858 | Any other statement goes into the newest block: it marks predication, extends the filters, and is appended. |
| Partitioner.FlattenWithNewest | lynx/transforms/implementation/CToPTXInstrumentationPass.cpp:848-858 | Appending to the newest block appends to the concatenated statements. |
| Partitioner.StepKeepsConsistent | lynx/transforms/implementation/CToPTXInstrumentationPass.cpp:716-859 | Each iteration keeps the partition invariant. |
| Partitioner.OpenKeepsConsistent | lynx/transforms/implementation/CToPTXInstrumentationPass.cpp:826-844 | Opening a block at a marker keeps the partition invariant. |
| Partitioner.AcceptKeepsConsistent | lynx/transforms/implementation/CToPTXInstrumentationPass.cpp:734-858 | Adding a statement to the newest block keeps the partition invariant. |
| Partitioner.PartitionCorrect | lynx/transforms/implementation/CToPTXInstrumentationPass.cpp:714-859 | The blocks hold every non-declaration statement, in order. Parameters and shared declarations go to the kernel in order. There is one block per marker label, and each block's flag and filters agree with its statements. |
| Partitioner.DeclarationsInNoBlock | lynx/transforms/implementation/CToPTXInstrumentationPass.cpp:719-731 | No Param or Shared statement is in any block. |
| Partitioner.NoMarkersStayInitial | lynx/transforms/implementation/CToPTXInstrumentationPass.cpp:855-858 | Without marker labels, every non-declaration goes to the initial block. |
| Partitioner.Dispatched | lynx/transforms/implementation/CToPTXInstrumentationPass.cpp:861-898 | One dispatched block per marked block, plus the initial block last. |
| Partitioner.DispatchedFilters | lynx/transforms/implementation/CToPTXInstrumentationPass.cpp:861-876 | Each dispatched block has its own filters followed by the initial block's filters. Its target, label, statements, id and predication flag are its own. |
| Splicer.InsertInto | lynx/transforms/implementation/CToPTXInstrumentationPass.cpp:321 | `dfg().insert` puts the instruction at `loc` of block `b` and leaves every other block alone. |
| Splicer.InsertFrom | lynx/transforms/implementation/CToPTXInstrumentationPass.cpp:309-326 | The loop changes only block `b`, which grows by exactly the returned count. |
| Splicer.InsertStatement | lynx/transforms/implementation/CToPTXInstrumentationPass.cpp:313-323 | The same facts from one statement on. |
| Splicer.InsertFromStep | lynx/transforms/implementation/CToPTXInstrumentationPass.cpp:313-323 | A `nop` is skipped. Anything else is inserted at `loc`, and `loc` and the count advance by one. |
| Splicer.PreparedRunStep | lynx/transforms/implementation/CToPTXInstrumentationPass.cpp:313-323 | The prepared run from statement `j` is the prepared instruction followed by the rest, or the rest alone when that instruction is a `nop`. |
| Splicer.InsertFromRun | lynx/transforms/implementation/CToPTXInstrumentationPass.cpp:309-326 | `insertBefore` inserts the prepared non-`nop` instructions contiguously from `loc`, in order, and returns their number. |
| Splicer.RunSkipping | lynx/transforms/implementation/CToPTXInstrumentationPass.cpp:316-319 | The contiguous-run fact at a statement prepared to a `nop`. |
| Splicer.RunInserting | lynx/transforms/implementation/CToPTXInstrumentationPass.cpp:320-322 | The contiguous-run fact at a statement prepared to an instruction. |
| Splicer.InsertAfterFrom | lynx/transforms/implementation/CToPTXInstrumentationPass.cpp:328-336 | `insertAfter` changes only block `b` and never shrinks it. |
| Splicer.InsertAfterIsBeforeNext | lynx/transforms/implementation/CToPTXInstrumentationPass.cpp:328-336 | Because of the pre-increment, `insertAfter` at `loc` equals `insertBefore` at `loc + 1`. |
| Splicer.FirstCtaid | lynx/transforms/implementation/CToPTXInstrumentationPass.cpp:237-256 | The inner search finds the first instruction whose first source is `%ctaid.x`, or reports that there is none. |
| Splicer.CtaidTarget | lynx/transforms/implementation/CToPTXInstrumentationPass.cpp:228-257 | The chosen block is one that was searched, or the defaults (block 0, index 0, empty name). |
| Splicer.CtaidTargetIsLast | lynx/transforms/implementation/CToPTXInstrumentationPass.cpp:228-257 | The first loop settles on the last block with a `%ctaid.x` read, just past its first such read, because the `break` leaves only the inner loop. Without a read it keeps the defaults. |
| Splicer.CtaidAddInserted | lynx/transforms/implementation/CToPTXInstrumentationPass.cpp:225-306 | `insertAt` puts `add.u32 d, d, 64` right after that read, unless the read ends its block, and changes nothing else. |
| Splicer.NoCtaid | lynx/transforms/implementation/CToPTXInstrumentationPass.cpp:225-306 | Without any read, an add over the empty name goes first in the entry block if that block has instructions; otherwise nothing changes. |
| Splicer.KernelInstructionCount | lynx/transforms/implementation/CToPTXInstrumentationPass.cpp:616-641 | The count, returned as an `unsigned int`: below 2^32, and equal to the match count when that fits. |
| Splicer.LastNonEmpty | lynx/transforms/implementation/CToPTXInstrumentationPass.cpp:605-610 | The walk back finds the last block with instructions. |
| Splicer.KernelSpot | lynx/transforms/implementation/CToPTXInstrumentationPass.cpp:592-611 | The insertion point of `instrumentKernel` is a valid position in the graph. |
| Splicer.KernelInserted | lynx/transforms/implementation/CToPTXInstrumentationPass.cpp:583-614 | An empty graph is left alone. For `EXIT_KERNEL` the run goes before the last instruction of the last non-empty block; otherwise it goes at index 0 of the block after entry. Nothing else changes. |
| Splicer.Advance | lynx/transforms/implementation/CToPTXInstrumentationPass.cpp:365-379 | One instruction of the loop saves the original instruction, changes only block `b`, and keeps `loc` pointing past the woven part. |
| Splicer.InstrumentInstructionsFrom | lynx/transforms/implementation/CToPTXInstrumentationPass.cpp:365-379 | The instruction loop changes only block `b` and only the per-instruction attributes. |
| Splicer.InstrumentBlocksFrom | lynx/transforms/implementation/CToPTXInstrumentationPass.cpp:353-382 | The block loop keeps the block count and labels, and never touches empty blocks or blocks already passed. |
| Splicer.InstrumentBlocksNext | lynx/transforms/implementation/CToPTXInstrumentationPass.cpp:353-382 | At a non-empty block, the count is set to its size, the id is reset, and the block id advances after the instruction loop. |
| Splicer.Matches | lynx/transforms/implementation/CToPTXInstrumentationPass.cpp:373-377 | The number of matching instructions is at most their number. |
| Splicer.InstructionsWoven | lynx/transforms/implementation/CToPTXInstrumentationPass.cpp:365-379 | Each matching instruction gets exactly one prepared run immediately before it. The instruction id advances by the number of matches. |
| Splicer.WovenAtMatch | lynx/transforms/implementation/CToPTXInstrumentationPass.cpp:373-378 | The same fact at a matching instruction. |
| Splicer.AdvanceAtMatch | lynx/transforms/implementation/CToPTXInstrumentationPass.cpp:369-378 | At a match the run goes just before the instruction, and `loc` resumes right after it. |
| Splicer.BlockWoven | lynx/transforms/implementation/CToPTXInstrumentationPass.cpp:356-379 | A non-empty block is woven from instruction id 0 with its size as the count, and no later iteration touches it. |
| Splicer.BlockIdsCounted | lynx/transforms/implementation/CToPTXInstrumentationPass.cpp:353-382 | The block id advances once per non-empty block and never on an empty one. |
| Splicer.Locate | lynx/transforms/implementation/CToPTXInstrumentationPass.cpp:418-445 | The search ends at the last statement naming an executed-count placeholder. It finds none exactly when no statement names one, and it flags a predicated count exactly when one is named. |
| Splicer.Fresh | lynx/transforms/implementation/CToPTXInstrumentationPass.cpp:450 | `newRegister()` without a binding advances the counter only. |
| Splicer.Synthesize | lynx/transforms/implementation/CToPTXInstrumentationPass.cpp:450-537 | The warp idiom has four statements and takes three registers; the scalar idiom has two and takes one. No name is bound. |
| Splicer.CountGuarded | lynx/transforms/implementation/CToPTXInstrumentationPass.cpp:415-539 | A guarded match counts as matched, not as executed. It throws exactly when no placeholder statement exists. Statements only grow. |
| Splicer.ScanStep | lynx/transforms/implementation/CToPTXInstrumentationPass.cpp:410-544 | One instruction only grows the statements and allocates without binding. |
| Splicer.ScanBlock | lynx/transforms/implementation/CToPTXInstrumentationPass.cpp:407-545 | The same over a block's instructions. |
| Splicer.GuardedMatches | lynx/transforms/implementation/CToPTXInstrumentationPass.cpp:415-416 | The guarded matches are at most the matches. |
| Splicer.StripAsWritten | lynx/transforms/implementation/CToPTXInstrumentationPass.cpp:559-576 | The strip loop as written never lengthens the statements. |
| Splicer.Strip | lynx/transforms/implementation/CToPTXInstrumentationPass.cpp:557-577 | The intended strip never lengthens the statements. |
| Splicer.InstrumentOneBlock | lynx/transforms/implementation/CToPTXInstrumentationPass.cpp:400-579 | One block of `instrumentBasicBlock` changes only that block. |
| Splicer.InstrumentBasicBlocksFrom | lynx/transforms/implementation/CToPTXInstrumentationPass.cpp:397-580 | The block loop keeps the block count and labels, and never touches empty or passed blocks. |
| Splicer.ScanCounts | lynx/transforms/implementation/CToPTXInstrumentationPass.cpp:407-545 | Every match is counted as matched, and every match without an idiom as executed. Without predication checking the two counts agree and the statements and registers are unchanged. |
| Splicer.CountGuardedKeepsMention | lynx/transforms/implementation/CToPTXInstrumentationPass.cpp:418-537 | A successful idiom insertion keeps the placeholder statement. |
| Splicer.ScanFailure | lynx/transforms/implementation/CToPTXInstrumentationPass.cpp:415-448 | The scan throws exactly when predication is checked, no statement names an executed-count placeholder, and some match is guarded. |
| Splicer.StripErasesRun | lynx/transforms/implementation/CToPTXInstrumentationPass.cpp:559-576 | The intended strip erases a `selp`/`add` or `vote`/`popc`/`cvt`/`add` run wherever it starts. |
| Splicer.StripErasesScalar | lynx/transforms/implementation/CToPTXInstrumentationPass.cpp:562-566 | The intended strip erases a `selp`/`add` run. |
| Splicer.StripErasesWarp | lynx/transforms/implementation/CToPTXInstrumentationPass.cpp:568-574 | The intended strip erases a `vote`/`popc`/`cvt`/`add` run. |
| Splicer.StripRender | lynx/transforms/implementation/CToPTXInstrumentationPass.cpp:559-576 | On original statements interleaved with idiom runs, the intended strip gives back the original statements. |
| Splicer.InsertAfterKept | lynx/transforms/implementation/CToPTXInstrumentationPass.cpp:503-536 | Inserting a run right after an original statement adds an idiom piece there and keeps the originals. |
| Splicer.WarpIdiomRun | lynx/transforms/implementation/CToPTXInstrumentationPass.cpp:453-510 | The warp idiom is a `vote`/`popc`/`cvt`/`add` run that names no placeholder. |
| Splicer.ScalarIdiomRun | lynx/transforms/implementation/CToPTXInstrumentationPass.cpp:512-537 | The scalar idiom is a `selp`/`add` run that names no placeholder. |
| Splicer.SynthesizedRun | lynx/transforms/implementation/CToPTXInstrumentationPass.cpp:450-537 | Either idiom is a run the strip erases. |
| Splicer.StepPieces | lynx/transforms/implementation/CToPTXInstrumentationPass.cpp:410-544 | One scan step keeps the statements as the originals with idiom runs between them. |
| Splicer.GuardedPieces | lynx/transforms/implementation/CToPTXInstrumentationPass.cpp:415-539 | The idiom of a guarded match is a new idiom piece right after the original statement the search found. |
| Splicer.GuardedRun | lynx/transforms/implementation/CToPTXInstrumentationPass.cpp:415-539 | The idiom lands at position p + 1, after the placeholder statement p. |
| Splicer.RunPieces | lynx/transforms/implementation/CToPTXInstrumentationPass.cpp:503-536 | An idiom inserted after an original statement keeps the piece invariant and the originals. |
| Splicer.ScanStrips | lynx/transforms/implementation/CToPTXInstrumentationPass.cpp:407-576 | The intended strip turns the scanned statements back into the originals. |
| Splicer.StripRestores | lynx/transforms/implementation/CToPTXInstrumentationPass.cpp:407-577 | After a block, the intended strip restores the translation block's statements. |
| Splicer.AsWrittenSkipsSecond | lynx/transforms/implementation/CToPTXInstrumentationPass.cpp:559-576 | As written, the strip erases the first of two adjacent `selp`/`add` runs and steps past the second. |
| Splicer.ScalarGuardStep | lynx/transforms/implementation/CToPTXInstrumentationPass.cpp:512-537 | With the first statement as the only executed-count statement, the `selp`/`add` idiom goes right after it. |
| Splicer.GuardedScanStep | lynx/transforms/implementation/CToPTXInstrumentationPass.cpp:415-539 | Under the predication check, a guarded match goes through the idiom insertion. |
| Splicer.LocateAfterRun | lynx/transforms/implementation/CToPTXInstrumentationPass.cpp:418-445 | A run that names no placeholder, placed after the executed-count statement, leaves the search where it was. |
| Splicer.TwoScalarRuns | lynx/transforms/implementation/CToPTXInstrumentationPass.cpp:503-536 | Two guarded matches put two `selp`/`add` runs right after the placeholder statement. |
| Splicer.TwoGuardsScan | lynx/transforms/implementation/CToPTXInstrumentationPass.cpp:407-545 | A block of two guarded matches leaves the statement followed by two scalar runs. |
| Splicer.AdjacentIdiomsSurvive | lynx/transforms/implementation/CToPTXInstrumentationPass.cpp:559-576 | The as-written strip fails to restore the statements after two guarded matches; the intended strip restores them. |
| Splicer.AsWrittenKeepsSecond | lynx/transforms/implementation/CToPTXInstrumentationPass.cpp:559-576 | The as-written half of that: the second run survives. |
| Splicer.BlockInstrumented | lynx/transforms/implementation/CToPTXInstrumentationPass.cpp:400-555 | One non-empty block throws exactly when its scan does, and then leaves the blocks as they were. Otherwise the prepared run of the scanned statements is inserted at the block's end (before its last instruction) for `EXIT_BASIC_BLOCK`, else at its start; the registers are those the preparer left; the two counts are the block's matches and executed matches (matches minus guarded ones when predication is checked); and the basic-block id advances by one. |
| Splicer.BlockThrows | lynx/transforms/implementation/CToPTXInstrumentationPass.cpp:415-448 | A scan that throws leaves the block's graph unchanged and reports the throw. |
| Splicer.BlockInserted | lynx/transforms/implementation/CToPTXInstrumentationPass.cpp:540-555 | A scan that does not throw inserts the prepared run at the chosen point and advances the basic-block id. |
| Splicer.OneBlockHandsOn | lynx/transforms/implementation/CToPTXInstrumentationPass.cpp:400-579 | One block throws exactly when its scan does. Otherwise, with the intended strip, it hands on the translation block's own statements. |
| Splicer.BasicBlockFailure | lynx/transforms/implementation/CToPTXInstrumentationPass.cpp:386-581 | `instrumentBasicBlock` throws exactly when predication is checked, no statement names an executed-count placeholder, and some block has a guarded match. |
| Splicer.NonEmptyBlockFailure | lynx/transforms/implementation/CToPTXInstrumentationPass.cpp:400-580 | The same at a non-empty block. |
| Ptx.InsertSeqAt | lynx/transforms/implementation/CToPTXInstrumentationPass.cpp:503-509 | Consecutive inserts at `position + 1` leave the run contiguous, starting at `i`, with the rest shifted. |
| Ptx.InsertAt | lynx/transforms/implementation/CToPTXInstrumentationPass.cpp:321 | Inserting puts the instruction at `i` and shifts the rest by one. |
| Graph.DataflowGraph.NewRegister | lynx/transforms/implementation/CToPTXInstrumentationPass.cpp:450 | `newRegister()` returns one past every register handed out before and leaves the blocks alone. |
| Graph.DataflowGraph.Insert | lynx/transforms/implementation/CToPTXInstrumentationPass.cpp:321 | `insert` places the instruction at `loc` of block `b`. |
| Graph.PtxKernel.InsertParameter | lynx/transforms/implementation/CToPTXInstrumentationPass.cpp:721 | A parameter is appended to the kernel's parameters. |
| Graph.PtxKernel.InsertLocal | lynx/transforms/implementation/CToPTXInstrumentationPass.cpp:728-729 | A name already declared keeps its declaration; a new one is added. |
| Pass.InstrumentationPass.constructor | lynx/transforms/implementation/CToPTXInstrumentationPass.cpp:1025-1031 | The pass keeps the translation, and starts with no constants and no bound registers. |
| Pass.InstrumentationPass.BindRegister | lynx/transforms/implementation/CToPTXInstrumentationPass.cpp:104-105 | Allocating and binding a register changes `newRegisterMap` and the counter as `Rewriter.Bind` does. |
| Pass.InstrumentationPass.ComputeBaseAddress | lynx/transforms/implementation/CToPTXInstrumentationPass.cpp:643-689 | The statement and register state equal `Rewriter.ComputeBaseAddress`. |
| Pass.InstrumentationPass.PrepareStatementToInsert | lynx/transforms/implementation/CToPTXInstrumentationPass.cpp:34-146 | The statement and register state equal `Rewriter.Prepare`, and the blocks are unchanged. |
| Pass.InstrumentationPass.InsertBefore | lynx/transforms/implementation/CToPTXInstrumentationPass.cpp:309-326 | The graph, registers and returned count equal `Splicer.InsertBefore`. |
| Pass.InstrumentationPass.InsertAfter | lynx/transforms/implementation/CToPTXInstrumentationPass.cpp:328-336 | The graph and registers equal `Splicer.InsertAfter`. |
| Pass.InstrumentationPass.InsertNext | lynx/transforms/implementation/CToPTXInstrumentationPass.cpp:313-323 | One iteration of the insertion loop keeps the rest of the loop equal to the rest of the specification. |
| Pass.InstrumentationPass.InsertPrepared | lynx/transforms/implementation/CToPTXInstrumentationPass.cpp:314-322 | A prepared statement is inserted at `at` unless it became a `nop`. |
| Pass.InstrumentationPass.InsertAt | lynx/transforms/implementation/CToPTXInstrumentationPass.cpp:225-306 | The two loops of `insertAt` leave the blocks as `Splicer.InsertAtCtaid` says. |
| Pass.InstrumentationPass.InstrumentInstruction | lynx/transforms/implementation/CToPTXInstrumentationPass.cpp:338-383 | The graph and registers equal `Splicer.InstrumentInstruction`. |
| Pass.InstrumentationPass.InstrumentInstructionBlocks | lynx/transforms/implementation/CToPTXInstrumentationPass.cpp:353-382 | The block loop equals `Splicer.InstrumentBlocksFrom` from block 1. |
| Pass.InstrumentationPass.InstrumentBlockNext | lynx/transforms/implementation/CToPTXInstrumentationPass.cpp:355-381 | One iteration of the block loop keeps the rest of the loop equal to the rest of the specification. |
| Pass.InstrumentationPass.InstrumentInstructions | lynx/transforms/implementation/CToPTXInstrumentationPass.cpp:365-379 | The instruction loop equals `Splicer.InstrumentInstructionsFrom`. |
| Pass.InstrumentationPass.InstrumentOneInstruction | lynx/transforms/implementation/CToPTXInstrumentationPass.cpp:367-378 | One instruction equals `Splicer.Advance`. |
| Pass.InstrumentationPass.InstrumentKernel | lynx/transforms/implementation/CToPTXInstrumentationPass.cpp:583-614 | The graph and registers equal `Splicer.InstrumentKernel`. |
| Pass.InstrumentationPass.FindKernelSpot | lynx/transforms/implementation/CToPTXInstrumentationPass.cpp:592-611 | The walk back from the exit block finds `Splicer.KernelSpot`. |
| Pass.InstrumentationPass.LocatePlaceholder | lynx/transforms/implementation/CToPTXInstrumentationPass.cpp:418-445 | The search loop, which does not stop at a match, finds `Splicer.Locate`. |
| Pass.InstrumentationPass.CountGuardedInstruction | lynx/transforms/implementation/CToPTXInstrumentationPass.cpp:415-539 | The scan state equals `Splicer.CountGuarded`. |
| Pass.InstrumentationPass.SynthesizeIdiom | lynx/transforms/implementation/CToPTXInstrumentationPass.cpp:450-537 | The idiom and registers equal `Splicer.Synthesize`. |
| Pass.InstrumentationPass.ScanInstruction | lynx/transforms/implementation/CToPTXInstrumentationPass.cpp:410-544 | One instruction of the scan equals `Splicer.ScanStep`. |
| Pass.InstrumentationPass.ScanInstructions | lynx/transforms/implementation/CToPTXInstrumentationPass.cpp:407-545 | The scan of a block, which stops at a throw, equals `Splicer.ScanBlock`. |
| Pass.InstrumentationPass.StripIdioms | lynx/transforms/implementation/CToPTXInstrumentationPass.cpp:557-577 | The strip loop computes the intended `Splicer.Strip`. |
| Pass.InstrumentationPass.InstrumentOneBasicBlock | lynx/transforms/implementation/CToPTXInstrumentationPass.cpp:400-579 | One block equals `Splicer.InstrumentOneBlock`, whose insertion point, inserted run and counts `Splicer.BlockInstrumented` states. |
| Pass.InstrumentationPass.InstrumentBasicBlock | lynx/transforms/implementation/CToPTXInstrumentationPass.cpp:386-581 | The graph, registers and throw equal `Splicer.InstrumentBasicBlock`. |
| Pass.InstrumentationPass.Optimize | lynx/transforms/implementation/CToPTXInstrumentationPass.cpp:912-1023 | The statements and constants equal `Optimizer.Optimize`. |
| Pass.InstrumentationPass.ScanStatements | lynx/transforms/implementation/CToPTXInstrumentationPass.cpp:920-996 | The first loop leaves the statements, constants and erase schedule where the scan reaches the end. |
| Pass.InstrumentationPass.ScanNext | lynx/transforms/implementation/CToPTXInstrumentationPass.cpp:920-996 | One iteration keeps the rest of the loop equal to the rest of the scan. |
| Pass.InstrumentationPass.EraseScheduled | lynx/transforms/implementation/CToPTXInstrumentationPass.cpp:999-1021 | The second loop keeps exactly `Optimizer.Filter` of the statements. |
| Pass.InstrumentationPass.OptimizeAt | lynx/transforms/implementation/CToPTXInstrumentationPass.cpp:924-995 | One iteration equals `Optimizer.Step`. |
| Pass.InstrumentationPass.FuseAt | lynx/transforms/implementation/CToPTXInstrumentationPass.cpp:969-995 | Fusion and pairing equal `Optimizer.Paired` after `Optimizer.Fused`. |
| Pass.InstrumentationPass.PairAt | lynx/transforms/implementation/CToPTXInstrumentationPass.cpp:979-994 | The pairing equals `Optimizer.Paired`. |
| Pass.InstrumentationPass.AllocateTranslationRegisters | lynx/transforms/implementation/CToPTXInstrumentationPass.cpp:709-712 | The register loop equals `Runner.AllocateRegisters`. |
| Pass.InstrumentationPass.PartitionStatements | lynx/transforms/implementation/CToPTXInstrumentationPass.cpp:714-859 | The statement loop builds `Partitioner.PartitionOf`. It appends the parameters to the kernel and adds the shared declarations to its locals. |
| Pass.InstrumentationPass.PartitionNext | lynx/transforms/implementation/CToPTXInstrumentationPass.cpp:716-858 | One statement extends the partition and the kernel's declarations by one step. |
| Pass.InstrumentationPass.Dispatch | lynx/transforms/implementation/CToPTXInstrumentationPass.cpp:861-898 | The dispatch loop equals `Runner.DispatchFrom` over the marked blocks, followed by `instrumentKernel` of the initial block unless a throw ended the run. |
| Pass.InstrumentationPass.DispatchBlock | lynx/transforms/implementation/CToPTXInstrumentationPass.cpp:877-890 | The `switch` on the target equals `Runner.DispatchOne`. |
| Pass.InstrumentationPass.RunOnKernel | lynx/transforms/implementation/CToPTXInstrumentationPass.cpp:698-899 | The statements, constants, kernel declarations, graph and throw equal `Runner.RunOnKernel`. |

## Left out

- `YieldInstrumentor` is not part of this model: its hooks are empty and it only prints.
- Retrieving `dfg()` through the pass manager, the `report` and `std::cout` logging, and `writeLite` are left out. They are I/O and framework plumbing.
- `initialize` and `finalize` are left out because they are empty.
- The Ocelot IR and `DataflowGraph` internals are left out. Instructions are records of opcode, types, address space, vote mode, comparison and five operands, and a block label is an opaque string.
- `PTXStatement::toString` is modelled as structural equality of statements in the erase filter of `optimize`.
- The translator header that defines the label and placeholder strings is not part of this model. The names stand for themselves. The model relies only on their being non-empty and pairwise distinct (`Vocabulary.VocabularyWellFormed`).
- `Rewriter.Lookup`: on an unknown name, `newRegisterMap[name]` reads as register 0 and does not insert the entry. A later read gives 0 either way, so only the map's key set differs.
- Iterator invalidation in `instrumentInstruction` and the strip loop of `instrumentBasicBlock`, and reads past the end of the statement vector in `optimize` and the strip loop, are C++ undefined behaviour. The model reads each loop as continuing at the same offset, and a read past the end counts as no match. For the strip loop that reading is `Splicer.StripAsWritten`; the basic-block loop uses the corrected `Splicer.Strip` (see `Splicer.InstrumentOneBlock` below).
- Walking back past the entry block in `instrumentKernel` is undefined behaviour. On a graph with no instructions, or with a single block, the model inserts nothing there.
- `StaticAttributes` fields the source leaves uninitialised read as 0, and the original instruction reads as a default `nop`. `sizeof(size_t)` is taken to be 8, so the counting idioms use `u64`.
- Translation.EmptyBlock: the source leaves the initial block's target uninitialised. The model fixes it to the kernel target, the only one under which that block is dispatched.
- `insertParameter` and `locals.insert` are modelled as a parameter list and a map of declarations, not as Ocelot's `Parameter` and `Local` objects.
- Splicer.InstrumentOneBlock: hands the corrected strip (`Splicer.Strip`) on to the next block, not the as-written loop (`Splicer.StripAsWritten`). So do Splicer.InstrumentBasicBlocksFrom, Splicer.InstrumentBasicBlock, Runner.DispatchOne, Runner.DispatchFrom, Runner.RunOnKernel, Pass.InstrumentationPass.InstrumentOneBasicBlock, Pass.InstrumentationPass.InstrumentBasicBlock, Pass.InstrumentationPass.Dispatch and Pass.InstrumentationPass.RunOnKernel. As written, a block with two adjacent inserted idioms (a checked translation block over two guarded matches) leaves one `selp`/`add` run behind, and that run is inserted again into every later non-empty block. The model does not follow that leftover.
- Pass.InstrumentationPass.StripIdioms: implements the intended strip (`Splicer.Strip`), not the as-written loop. The as-written loop is `Splicer.StripAsWritten`; see Findings.
- Pass.InstrumentationPass.PrepareStatementToInsert: the method computes the prepared statement with `Rewriter.Prepare` and then allocates registers through the graph. The rewriting of the statement itself is not spelled out step by step.
- Runner.AllocateRegisters: the bound names are stated as a membership property. Together with `Runner.Unbound` this gives exactly the earlier names plus the listed names.
- Runner.AddLocals: the declared names are stated as a membership property. Together with `Runner.Undeclared` this gives exactly the earlier names plus the declared names.
- Optimizer.StepFolds: stated for the first two sources, and for the third source only when the instruction is not a multiply. A fusion also rewrites the multiply's third source.
- Optimizer.FusedAddRemoved: holds only when none of the add's sources names a constant. Otherwise the source folds the add after scheduling it, so the add no longer equals the scheduled copy and survives the filter. The model keeps that behaviour.
- Splicer.StripRestores, Splicer.ScanStrips, Splicer.BasicBlockFailure, Splicer.NonEmptyBlockFailure and Splicer.OneBlockHandsOn hold only under two assumptions on their input, stated as `Splicer.StripSafe` and `Splicer.GuardsUnnamed`:
  - the translation block holds no `selp` or `vote` statements of its own, and no destination naming a placeholder;
  - no guard of the kernel names a placeholder.
  The translator that produces the translation blocks is not part of this model, so these stay assumptions; nothing here proves that its output meets them.
- Splicer.ScanStrips: assumes `Splicer.StripSafe` of every translation statement (see above).
- Splicer.NonEmptyBlockFailure: assumes `Splicer.GuardsUnnamed` of the block's instructions (see above).
- Splicer.CtaidTarget: records the destination register by its identifier, where the source records `d.toString()`. `PTXOperand::toString` is not part of this model, so an operand whose printed form differs from its identifier is not captured.
- Splicer.CtaidAddInserted: builds the `add` from that identifier, so it carries the same simplification as `Splicer.CtaidTarget`.
- Optimizer.Optimize: is not idempotent, although the design describes a second run as changing nothing. `Optimizer.OptimizeNotIdempotent` gives an input where a second run fuses a `mul`/`add` pair the first run left apart.

## Findings

| source | as written | input that shows it | evidently intended | confidence | as-written member | corrected member |
|---|---|---|---|---|---|---|
| lynx/transforms/implementation/CToPTXInstrumentationPass.cpp:559-576 | After erasing an idiom run at `statement`, the loop's `++statement` steps past the statement that moved into its place. | A basic-block translation block with one statement naming `BASIC_BLOCK_EXEC_INST_COUNT`, checking predication, over a block with two guarded matching instructions. The scan leaves the statement followed by two `selp`/`add` runs; the loop erases the first and skips the second, so the next block sees a leftover idiom. | Every inserted idiom is erased, so each basic block starts from the translation block's own statements. | not executed; the erase also invalidates the iterator, and the model reads the loop as continuing at the same offset | Splicer.AdjacentIdiomsSurvive | Splicer.StripRestores |
