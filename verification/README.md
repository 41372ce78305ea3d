# The sequencer compiler back end, verified

This project models the back end of the SeqC compiler and proves that its translations keep the
meaning of programs. One machine ties everything together (`Machine.dfy`): 32-bit registers with
R0 reading as 0, a program counter over a list of entries, labels, and a stream of observable
commands (stores, waits, waveform commands with the register values they carry). `LD` reads an
arbitrary function of its address and of everything sent so far. INVALID, LABEL, COMMENT_NOP and
node-only entries fall through; `ADDIU` and its kin add their immediate shifted left by 12;
arithmetic is modulo 2^32.

Three relations say what "same meaning" is. `Preserves(p, q)`: for every input, every initial
register file and every moment of p's run there is a moment of q's run, at least as late, with the
same commands sent and the same halting state (so q never halts early, never shows anything else
and never stalls). `Mimics` is the step-by-step form used for the jump and label passes.
`Equivalent` is the symmetric form, needed where a rewrite makes the list shorter.

## Layout

| files | part of the compiler |
|---|---|
| `Instructions.dfy`, `Machine.dfy`, `Liveness.dfy` | opcode tables, the machine, reachability and need of registers |
| `Operands.dfy` | the opcode tables against the machine: which slot of which command matters to a step or is changed by it |
| `LiveRanges.dfy`, `Allocation.dfy` | recorded ranges, loop extension, when ranges cover every needed position; renaming and merging |
| `SplitRegisters.dfy`, `SplitConstants.dfy`, `SplitPlans.dfy` | rematerialising constant registers near their uses: one split, all of them, and when all of them are right |
| `JumpsAndLabels.dfy`, `DeadCode.dfy`, `Zeroing.dfy`, `UnusedRegisters.dfy` | the list passes |
| `Passes.dfy`, `AsmOptimize.dfy` | the pipeline, and the optimiser class that rewrites its working list in place |
| `AsmCommands.dfy`, `AsmText.dfy` | immediate synthesis, instruction builders, printing and reading |
| `SourceLanguage.dfy`, `Lowering.dfy`, `Evaluation.dfy` | the structured statements and their meaning, the emitted code as a function, and the evaluator class that emits it |
| `Execution.dfy`, `ExpressionLowering.dfy`, `Outcomes.dfy`, `StatementLowering.dfy` | the lowering proof |
| `Fragments.dfy`, `LoweredFragments.dfy`, `Compilation.dfy` | label discipline of lowered code, and whole programs |
| `NodeLinks.dfy` | parent, next, branches and loop links of the play tree |
| `Counterexamples.dfy`, `SplitCounterexamples.dfy` | inputs on which a pass, without its hypothesis, changes a program |

Code that changes things in place is a class with methods (`AsmOptimize`, `Evaluator`, `Node`);
each method is tied to a function of its inputs or of the old state, and the theorems are about
those functions.

## Where hypotheses are needed

The code is modelled as it is; where the unrestricted claim is false, the theorem carries a
condition and, where possible, an exact one.

* Allocation is right when no reachable write hits another register of the same name that is still
  needed, which is exactly when every needed register was last written where its new name was
  (`UnclobberedIff`), and which recorded ranges that cover every needed position ensure. The loop scan
  is linear, so a write in a skipped branch of a loop body hides a later read: on such a list every
  successful allocation changes the program (`UncoveredRangesBreak`). `CoveredIffBackEdgesCovered`
  gives the exact condition on backward jumps, and `ForwardOnlyCovered` and `SimpleLoopsCovered`
  discharge it. Names are given first fit, which leaves the allocator no choice (`FirstFitUnique`): it succeeds or runs out of registers, and which of
  the two depends on the list, the count and the number of registers alone (`StuckIsNotAllocatable`).
* Dead code elimination looks for callers of a label above it only. `DeadNeverReachedIff` is the exact
  condition; lowered programs always meet it (`CompiledLabels`); `JumpBackIsDropped` is a list that
  does not, and loses a command.
* Removing unused writes looks for reads further down only. The pass takes away no value that a path
  still reads (`OnlyUnneeded`) exactly when no backward jump carries one to where its register is
  needed (`OnlyUnneededIff`); on lists whose registers are written before they are read, exactly when
  none does so for a register that an earlier fold has set (`WrittenFirstIff`). Then every run is
  preserved. Loop-free lists always qualify, and so do lists written first on which no fold's register
  loses a later write (`CopiesSettled`). `UnsettledCopiesBreak` is a family of lists that do not. The
  pass treats them all alike, and whether an observer sees a difference depends on the value written
  and on nothing else: no condition on paths decides that, so preservation itself is claimed one way.
* The register count bounds what it is meant to bound exactly under conditions that can be checked on
  the list before: after removing unused writes when every register a fold moves up is at most the
  count (`CountBoundsIff`, with `FoldEscapesTheCount` as the failing input), and after splitting loads
  that stand apart when no use was split or the register counter was at most the count plus the loads
  found plus one (`SplitsApartResult`, with `SplitCountFallsShort`). An allocation that succeeds leaves
  physical registers only exactly when the registers the count misses are below the limit
  (`AllocationResults`, `MissedRegisters`).
* One split asks that the two entries before each far use are empty. All splits together are right when
  the loads stand apart in the list handed in (`SplitsApart`): each load with a use that may be far is
  the only write of its register, and no entry may be a far use of two. Two uses in one entry want the
  same room, and then one reload overwrites the other (`SharedSlotsBreak`). A register loaded twice is
  split unsafely, and whether an observer sees it depends on the two values (`LoadedTwiceIff`), so
  here too preservation is claimed one way.
* The and, or and xnor forms of a wide immediate overwrite the destination before reading the source.
  `AluiCorrectIff` is the exact condition: the immediate fits, the operation is an addition, the two
  registers differ, or the destination is R0.
* Repeat over a register counts down and tests for "greater than zero" as a signed number, so a count
  above 2^31 runs the body once (`Repetitions`); all counts from 0 to 2^31 run it exactly that often.
* Swapping a node with its child keeps the links sound exactly when the node itself has a holder.
  Inserting a node before another does exactly when the new node has no holder and no next and does
  not stand above the other (`InsertedKeepsTree`).
* SSL and SSR shift the register in their first text slot; they are kept out of the lists the
  unused-write pass is claimed for.

## Model

| member | source | states |
|---|---|---|
| Machine.PreservesTransitive | reconstructed/src/asm/asm_optimize.cpp:247-292 | passes that each keep the meaning keep it when composed |
| Machine.PreservesBackward | reconstructed/src/asm/asm_optimize.cpp:247-292 | a preserved list shows nothing foreign to the original and ends only as it ends |
| Machine.PreservesEquivalent | reconstructed/src/asm/asm_optimize.cpp:247-292 | preservation one way already gives indistinguishability both ways |
| Liveness.NextPcIsSuccessor | reconstructed/src/asm/asm_optimize.cpp:122-134 | every step goes to a successor of its entry, so reachability covers all runs |
| Liveness.WrittenOnTheWay | reconstructed/src/asm/asm_optimize_regalloc.cpp:35-57 | on every path from the entry to where a register is needed, when it is not needed at the entry, it is written, and behind the last such write it is needed all along |
| LiveRanges.CoveredIffBackEdgesCovered | reconstructed/src/asm/asm_optimize_regalloc.cpp:75-190 | recorded ranges cover every needed position if and only if every reachable backward jump lies inside the range of what is needed at its target |
| LiveRanges.ForwardOnlyCovered | reconstructed/src/asm/asm_optimize_regalloc.cpp:25-57 | lists with forward branches only, with nothing needed at entry, are always covered |
| LiveRanges.SimpleLoopsCovered | reconstructed/src/asm/asm_optimize_regalloc.cpp:120-190 | lists whose loop bodies hold no other label or branch are always covered |
| Optimizer.AsmOptimize.RecordMentions | reconstructed/src/asm/asm_optimize_regalloc.cpp:35-57 | each register's list holds exactly the entries naming it, barriers excluded, in order |
| Optimizer.AsmOptimize.BuildLabelMap | reconstructed/src/asm/asm_optimize_regalloc.cpp:59-73 | every label is mapped, to its last defining entry |
| Optimizer.AsmOptimize.FindBackwardBranches | reconstructed/src/asm/asm_optimize_regalloc.cpp:75-118 | exactly the branches whose label stands above them, in order |
| Optimizer.AsmOptimize.ScanLoopBody | reconstructed/src/asm/asm_optimize_regalloc.cpp:146-182 | true exactly when the linear scan meets a read before a write |
| LiveRanges.ScanReadsIff | reconstructed/src/asm/asm_optimize_regalloc.cpp:143-182 | the scan says yes if and only if some entry of the stretch reads the register and no entry before that one writes it |
| Operands.ReadIsSeen | reconstructed/src/asm/asm_optimize.cpp:76-94 | a register on which any step depends, in where it goes, what it sends or what it leaves in other registers, is classified as read, but for the test of BRGZ and the register a shift shifts |
| Operands.WriteIsSeen | reconstructed/src/asm/asm_optimize.cpp:97-115 | a register any step changes is classified as written |
| Operands.TypesExact | reconstructed/src/asm/assembler.cpp:210-248 | command by command, the types say exactly which slots matter to some step and which some step changes, with the slots counted in excess named |
| Operands.OrdersExact | reconstructed/src/asm/assembler.cpp:251-289 | the text of a command names exactly the registers its steps depend on or change |
| Operands.ClassesExact | reconstructed/src/asm/assembler.cpp:161-208 | cycles tell apart commands that do nothing, may go two ways, or are seen from outside; the scans step over commands that do nothing |
| Optimizer.AsmOptimize.ExtendOverLoops | reconstructed/src/asm/asm_optimize_regalloc.cpp:120-190 | the ranges are increasing, hold every mention, and reach the last branch whose body reads the register first |
| Optimizer.AsmOptimize.ComputeLiveRanges | reconstructed/src/asm/asm_optimize_regalloc.cpp:20-190 | the four steps together give ranges of that kind for every register up to the count |
| Optimizer.AsmOptimize.InitialRegisters | reconstructed/src/asm/asm_optimize_regalloc.cpp:217-241 | every register with a range starts alone under its own name and waits in the conflict set |
| Allocation.FindPosition | reconstructed/src/asm/asm_optimize_regalloc.cpp:314-361 | the append, prepend and gap tests succeed if and only if the candidate meets no sub-range, and the position keeps the sub-ranges ordered |
| Optimizer.AsmOptimize.TryMerge | reconstructed/src/asm/asm_optimize_regalloc.cpp:305-382 | one merge keeps the merge-loop invariant, renames the list accordingly, or shows the candidate blocked |
| Optimizer.AsmOptimize.FillRegister | reconstructed/src/asm/asm_optimize_regalloc.cpp:294-382 | after filling a register everything still waiting overlaps it; earlier registers are untouched |
| Allocation.MergeOne | reconstructed/src/asm/asm_optimize_regalloc.cpp:363-378 | after a merge sub-ranges stay strictly ordered and disjoint, unvisited registers hold at most their own range, the conflict set holds exactly the non-empty unvisited ones |
| Allocation.NeverCollapsed | reconstructed/src/asm/asm_optimize_regalloc.cpp:243-382 | two different registers of one instruction never get the same name |
| Optimizer.AsmOptimize.RegisterUpdate | reconstructed/src/asm/asm_optimize_regalloc.cpp:848-870 | renames the three slots of the listed entries and nothing else |
| Optimizer.AsmOptimize.AllocateRegisters | reconstructed/src/asm/asm_optimize_regalloc.cpp:192-401 | the list is a renaming keeping meeting ranges apart, given first fit; success gives every register one of 1..numPhysicalRegs-1; failure leaves a register that meets a range in every one of those |
| Allocation.FirstFitUnique | reconstructed/src/asm/asm_optimize_regalloc.cpp:234-401 | for a given limit, first fit and keeping meeting ranges apart determine which registers fit and every name given below the limit, whatever ranges of the same extent the recording leaves |
| Allocation.StuckIsNotAllocatable | reconstructed/src/asm/asm_optimize_regalloc.cpp:390-400 | a list on which first fit leaves a register stuck is never one on which it succeeds |
| Optimizer.AsmOptimize.RegisterAllocation | reconstructed/src/asm/asm_optimize_regalloc.cpp:19-406 | it succeeds if and only if first fit gives every register of the list one of 1..numPhysicalRegs-1, and fails if and only if some register meets a range in each of those; the new list preserves the old when nothing needed is hit, as with covered ranges; on success no register from numPhysicalRegs on is left if and only if every register above the count was below it; barrier entries are untouched |
| Allocation.AllocationPreserves | reconstructed/src/asm/asm_optimize_regalloc.cpp:19-401 | when no reachable write hits another register of the same name still needed behind it, every step of every run of the renamed list is at the same entry with the same commands |
| Allocation.CoveredIsUnclobbered | reconstructed/src/asm/asm_optimize_regalloc.cpp:75-190 | covered ranges see to that |
| Allocation.UnclobberedIff | reconstructed/src/asm/asm_optimize_regalloc.cpp:192-401 | that holds if and only if on every path every needed register was last written where its new name was |
| Allocation.AllocationPreservesRuns | reconstructed/src/asm/asm_optimize_regalloc.cpp:19-401 | with nothing needed at entry both lists run alike from any two initial register files |
| Allocation.AllocationResults | reconstructed/src/asm/asm_optimize_regalloc.cpp:192-401 | what a renaming that keeps ranges apart guarantees: meaning when nothing needed is hit, as covered ranges ensure, untouched barriers, and allowed names if and only if what the count misses is below the limit |
| Counterexamples.UncoveredRangesBreak | reconstructed/src/asm/asm_optimize_regalloc.cpp:146-382 | a loop for which any ranges the recording may leave, named first fit, let a register be shared although it is needed, and the output changes |
| SplitRegisters.StaysLoaded | reconstructed/src/asm/asm_optimize_regalloc.cpp:701-841 | every step keeps the constant in the split register wherever it is needed |
| SplitRegisters.SplitStep | reconstructed/src/asm/asm_optimize_regalloc.cpp:724-840 | one step of both lists, at a reload, a use, a dropped load or elsewhere, keeps them alike |
| SplitRegisters.SplitPreserves | reconstructed/src/asm/asm_optimize_regalloc.cpp:701-841 | one split preserves every run both ways, also when the original load is deleted |
| Optimizer.AsmOptimize.SplitReg | reconstructed/src/asm/asm_optimize_regalloc.cpp:701-841 | exactly the uses at least ten instructions behind the load get fresh registers in order, with their reloads in the two entries before them; the load goes when no near use is left |
| SplitConstants.StrippedInterleaved | reconstructed/src/asm/asm_optimize_regalloc.cpp:455-526 | making room before every instruction and taking it away again gives the list back, up to flags |
| SplitConstants.StrippedPreserves | reconstructed/src/asm/asm_optimize_regalloc.cpp:656-672 | taking the room away changes no observable run, branch targets included |
| SplitConstants.InterleavedPreserves | reconstructed/src/asm/asm_optimize_regalloc.cpp:455-526 | making room changes no observable run |
| SplitConstants.InterleavedSlotsFree | reconstructed/src/asm/asm_optimize_regalloc.cpp:499-520 | fresh lists have the two entries before every use empty |
| SplitConstants.SplittableLoads | reconstructed/src/asm/asm_optimize_regalloc.cpp:528-646 | what the search accepts is a constant load in one or two parts |
| SplitConstants.SplittableIff | reconstructed/src/asm/asm_optimize_regalloc.cpp:531-646 | the search accepts an entry if and only if it takes R0, is an ADDI or a dead start that a later entry completes past dead entries only, and its register has no later write but the completing one |
| SplitConstants.SplitAllPreserves | reconstructed/src/asm/asm_optimize_regalloc.cpp:528-654 | the splits one after the other preserve every run when each is safe |
| SplitConstants.SplitConstantsEquivalent | reconstructed/src/asm/asm_optimize_regalloc.cpp:454-673 | the whole of splitting leaves an indistinguishable list when each split is safe |
| SplitConstants.SplitCountIff | reconstructed/src/asm/asm_optimize_regalloc.cpp:650-672 | the new count bounds the new list, or misses nothing from a limit on, if and only if that holds of the fresh numbers still named |
| SplitPlans.SplitsApartResult | reconstructed/src/asm/asm_optimize_regalloc.cpp:454-673 | when the loads stand apart in the list handed in, splitting leaves an indistinguishable list and counts every load found and every far use once; the new count bounds the new list if and only if no use was split or the register counter was at most the old count plus the loads found plus one |
| SplitPlans.AllPlanned | reconstructed/src/asm/asm_optimize_regalloc.cpp:528-654 | every split met on the way is safe or has nothing to do, whatever the earlier ones left |
| SplitPlans.CandidateIff | reconstructed/src/asm/asm_optimize_regalloc.cpp:531-646 | what the search accepts between two splits is a load of the list before or a reload made by an earlier split |
| SplitCounterexamples.SplitCountFallsShort | reconstructed/src/asm/asm_optimize_regalloc.cpp:650-672 | a list the pass before leaves as it is and bounds, whose split list names a register above the new count |
| SplitCounterexamples.SharedSlotsBreak | reconstructed/src/asm/asm_optimize_regalloc.cpp:724-830 | one instruction using two split registers: the second reload overwrites the first and the output changes |
| SplitCounterexamples.LoadedTwiceIff | reconstructed/src/asm/asm_optimize_regalloc.cpp:528-841 | loops whose register is loaded with v before and with w inside, all split alike and never safely; the output stays the same if and only if v and w are the same word |
| Optimizer.AsmOptimize.FindSplittable | reconstructed/src/asm/asm_optimize_regalloc.cpp:531-646 | true exactly for loads of constants nothing else overwrites later |
| Optimizer.AsmOptimize.SplitConstRegisters | reconstructed/src/asm/asm_optimize_regalloc.cpp:454-673 | the new list, register counter and count are those of the split function; the list is indistinguishable when the loads stand apart, and the count bounds it exactly under the conditions above |
| Optimizer.AsmOptimize.MaxRegister | reconstructed/src/asm/asm_list.cpp:112-130 | the highest register named in the list |
| Optimizer.AsmOptimize.PrepareResources | reconstructed/src/asm/asm_optimize.cpp:222-226 | the register counter becomes the least number, from where it stood on, past every register of the list |
| Instructions.HighestRegisterNumber | reconstructed/src/asm/assembler.cpp:297-325 | bounds every register of the instruction and is named by it |
| Optimizer.AsmOptimize.IsLabelCalled | reconstructed/src/asm/asm_optimize.cpp:122-134 | true exactly when a branch above names the label |
| Optimizer.AsmOptimize.DeadCodeElimination | reconstructed/src/asm/asm_optimize.cpp:299-339 | exactly the entries behind an unconditional branch up to a called label are killed; preserved when no surviving branch jumps back into a killed stretch |
| DeadCode.KilledIff | reconstructed/src/asm/asm_optimize.cpp:299-339 | an entry is deleted if and only if it is no label and some surviving branch above is always taken, with no called label between |
| Liveness.AlwaysTakenIff | reconstructed/src/asm/asm_optimize.cpp:299-339 | the branches the pass takes for unconditional are exactly those that no register file lets fall through |
| DeadCode.DeadNeverReachedIff | reconstructed/src/asm/asm_optimize.cpp:122-339 | no path reaches a deleted stretch if and only if no reachable surviving branch jumps back into one |
| DeadCode.DeadCodePreserves | reconstructed/src/asm/asm_optimize.cpp:299-339 | then every state of every run is the same |
| Counterexamples.JumpBackIsDropped | reconstructed/src/asm/asm_optimize.cpp:122-134 | a list whose command behind a jump is reached from below and deleted, so that the result is not preserved |
| Optimizer.AsmOptimize.OneStepJumpElimination | reconstructed/src/asm/asm_optimize.cpp:345-386 | exactly the branches whose label comes next among silent entries are killed; preserved for distinct labels; defined branches stay defined |
| JumpsAndLabels.JumpsRemovedMimics | reconstructed/src/asm/asm_optimize.cpp:345-386 | from every state the list without one-step jumps catches up to the same state |
| Optimizer.AsmOptimize.RemoveUnusedLabels | reconstructed/src/asm/asm_optimize.cpp:390-416 | exactly the labels no branch names are erased; preserved; every label left is named; branches stay defined |
| JumpsAndLabels.LabelsRemovedMimics | reconstructed/src/asm/asm_optimize.cpp:390-416 | from every state the list without unused labels catches up to the same state |
| Optimizer.AsmOptimize.MergeLabels | reconstructed/src/asm/asm_optimize.cpp:422-455 | no two labels stand side by side any more; for distinct labels the list is exactly the one in which the first label of each run stays and every branch to another of the run names it; preserved, labels distinct, branches defined, labels named as before |
| JumpsAndLabels.LabelMergedMimics | reconstructed/src/asm/asm_optimize.cpp:438-452 | merging one label into the one before it catches up from every state |
| JumpsAndLabels.LabelMergedBookkeeping | reconstructed/src/asm/asm_optimize.cpp:438-452 | and keeps branches defined and labels named |
| Optimizer.AsmOptimize.MergeRegisterZeroing | reconstructed/src/asm/asm_optimize.cpp:461-505 | exactly the clear-then-add-upper pairs are folded; preserved on every non-empty list |
| Zeroing.ZerosMergedPreserves | reconstructed/src/asm/asm_optimize.cpp:461-505 | folding the pairs preserves every run |
| Zeroing.NoPairLeft | reconstructed/src/asm/asm_optimize.cpp:461-505 | afterwards no optimisable addition to the upper half stands behind a clear of its register |
| Optimizer.AsmOptimize.ScanUsage | reconstructed/src/asm/asm_optimize.cpp:587-629 | how the register is read and written from an entry on, or that the scan gives up |
| Optimizer.AsmOptimize.SimplifyAssign | reconstructed/src/asm/asm_optimize.cpp:698-743 | folds exactly when the next entry copies the register just written and nothing later names it |
| Optimizer.AsmOptimize.VisitEntry | reconstructed/src/asm/asm_optimize.cpp:549-643 | one turn of the pass, on the list and on the registers examined |
| Optimizer.AsmOptimize.RemoveUnusedRegs | reconstructed/src/asm/asm_optimize.cpp:512-648 | list and count are those of the pass function; preserved when nothing needed is taken away; the count bounds the list if and only if it bounds every register a fold moves up |
| UnusedRegisters.RemovedIs | reconstructed/src/asm/asm_optimize.cpp:512-743 | what the pass does, turn by turn on a changing list, is read off the list it is given |
| UnusedRegisters.UsageMeans | reconstructed/src/asm/asm_optimize.cpp:587-629 | the scan finds no read if and only if no later live entry names the register as operand, and reads only if and only if some later entry reads it and none writes it, branches on it or has it as second register |
| UnusedRegisters.DeletedIff | reconstructed/src/asm/asm_optimize.cpp:549-643 | a write is deleted if and only if it is the first one met of its register and no later live entry names that as operand |
| UnusedRegisters.JoinedIff | reconstructed/src/asm/asm_optimize.cpp:549-743 | a write is joined with the entry behind it if and only if it is the first one met, that entry is a plain copy of its register, the register is otherwise only read later, and nothing behind the copy names it |
| UnusedRegisters.CountAttained | reconstructed/src/asm/asm_optimize.cpp:535-545 | the count is named by an instruction met, unless there is none |
| UnusedRegisters.RemoveUnusedPreserves | reconstructed/src/asm/asm_optimize.cpp:512-743 | when no register is read behind a write of it that is taken away, on any path, every step of every run is at the same entry with the same commands and the same needed values |
| UnusedRegisters.OnlyUnneededIff | reconstructed/src/asm/asm_optimize.cpp:587-643 | that holds if and only if no backward jump carries a value taken away to where its register is needed |
| UnusedRegisters.WrittenFirstIff | reconstructed/src/asm/asm_optimize.cpp:574-643 | on lists written before read, if and only if none does so for a register an earlier fold has set |
| UnusedRegisters.SettledIsUnneeded | reconstructed/src/asm/asm_optimize.cpp:574-643 | lists written before read whose folded copies lose no later write qualify |
| UnusedRegisters.UnfoldableSettled | reconstructed/src/asm/asm_optimize.cpp:698-743 | where the fold's guard never holds, loops over zero-initialised registers included, nothing is lost to folds |
| UnusedRegisters.ForwardIsUnneeded | reconstructed/src/asm/asm_optimize.cpp:587-643 | loop-free lists qualify |
| UnusedRegisters.CountBoundsIff | reconstructed/src/asm/asm_optimize.cpp:535-545 | the returned count bounds the returned list, or misses nothing from a limit on, if and only if that holds of the registers moved up |
| UnusedRegisters.RemovalStep | reconstructed/src/asm/asm_optimize.cpp:549-743 | one step of both lists, at a deleted write, at a writer joined with its copy, at the copy or elsewhere, keeps them alike |
| Counterexamples.UnsettledCopiesBreak | reconstructed/src/asm/asm_optimize.cpp:574-643 | loops written before they are read on which the pass deletes a needed write; the output stays the same if and only if the value written is the one already there |
| Counterexamples.FoldEscapesTheCount | reconstructed/src/asm/asm_optimize.cpp:535-545 | a fold moves a register above the returned count into the list |
| Optimizer.AsmOptimize.OptimizePreWaveform | reconstructed/src/asm/asm_optimize.cpp:231-242 | dead code elimination when asked for, else the list as it is |
| Optimizer.AsmOptimize.OptimizePostWaveform | reconstructed/src/asm/asm_optimize.cpp:247-292 | it splits and tries again if and only if the list without unused writes runs out of registers, and fails if and only if the split one runs out as well; every stage is its pass applied to the one before; the result is indistinguishable from the input when the stages are safe; it names physical registers only if and only if those the count misses are below the limit |
| Passes.StagesEquivalent | reconstructed/src/asm/asm_optimize.cpp:247-292 | the pipeline as a whole keeps the meaning when each register pass gets a list it is right for |
| Passes.MissedRegisters | reconstructed/src/asm/asm_optimize.cpp:262-285 | which registers the count misses: those moved up by a fold, and after a retry the fresh ones exactly when the register counter is too far ahead |
| Passes.LabelsKept | reconstructed/src/asm/asm_optimize.cpp:251-265 | with the label passes on, labels stay distinct, branches defined, and every label left is named |
| AsmCommands.Alui | reconstructed/src/asm/asm_commands.cpp:306-388 | the three cases of immediate synthesis, and its errors |
| AsmCommands.AluiCorrect | reconstructed/src/asm/asm_commands.cpp:306-388 | wherever the code stands, when the source is read in time, it leaves dst = src op imm modulo 2^32 and changes nothing else |
| AsmCommands.AluiCorrectIff | reconstructed/src/asm/asm_commands.cpp:306-388 | the emitted code is right in every list, on every input and register file, if and only if the immediate fits, the operation is an addition, the registers differ or the destination is R0 |
| AsmCommands.Addi32Correct | reconstructed/src/asm/asm_commands.cpp:395-425 | the two-instruction form adds every 32-bit immediate |
| AsmCommands.AluiShape | reconstructed/src/asm/asm_commands.cpp:306-388 | one instruction when the immediate fits, two for an addition, three for and, or and xnor, none exempt from optimisation; an error exactly for a missing register or a wide immediate of another operation |
| AsmCommands.Addi32Shape | reconstructed/src/asm/asm_commands.cpp:395-425 | always two instructions, both exempt from optimisation |
| AsmCommands.FieldsFit | reconstructed/src/asm/asm_commands.cpp:318-360 | split fields fit 12 and 20 bits, direct ones the signed range |
| AsmCommands.WideFormOverwritesItsSource | reconstructed/src/asm/asm_commands.cpp:348-388 | with destination and source equal every wide and, or, xnor goes wrong on some register file |
| ExpressionLowering.ExprRuns | reconstructed/src/ast/seqc_ast_eval_arithmetic.cpp:927-1031 | for every tree of sums, differences, negation, inversion, logical not and conditionals the code runs to its end, the result register holds the 32-bit value, and only fresh registers change |
| ExpressionLowering.BinaryRuns | reconstructed/src/ast/seqc_ast_eval_arithmetic.cpp:988-1031 | register plus and minus register: both operands computed, the first copied, the second added or subtracted |
| ExpressionLowering.FromConstRuns | reconstructed/src/ast/seqc_ast_eval_arithmetic.cpp:1378-1423 | constant minus register, and inversion as minus one minus the value |
| ExpressionLowering.NegRuns | reconstructed/src/ast/seqc_ast_eval_simple.cpp:955-977 | negation as zero minus the value |
| ExpressionLowering.NotRuns | reconstructed/src/ast/seqc_ast_eval_simple.cpp:1204-1236 | the six-entry sequence leaves 1 for 0 and 0 for anything else |
| ExpressionLowering.ChooseRuns | reconstructed/src/ast/seqc_ast_eval_control.cpp:3031-3188 | the conditional expression computes the chosen arm |
| SourceLanguage.FirstMatch | reconstructed/src/ast/seqc_ast_eval_control.cpp:1343-1425 | the first case equal to the value modulo 2^32 |
| StatementLowering.StmtRuns | reconstructed/src/ast/seqc_ast_eval_control.cpp:671-3832 | for every nesting of all statements the emitted code ends at its end with the statement's variables and commands, or shows the commands of as many rounds as the fuel allows; older temporaries are kept |
| StatementLowering.AssignRuns | reconstructed/src/ast/seqc_ast_eval_arithmetic.cpp:589-635 | assignment of a constant or a computed value |
| StatementLowering.StepRuns | reconstructed/src/ast/seqc_ast_eval_simple.cpp:559-815 | increments and decrements of the variable; after the postfix forms the fresh register holds the value from before |
| StatementLowering.BlockRuns | reconstructed/src/ast/seqc_ast_eval_simple.cpp:1731-1829 | statement lists in order |
| StatementLowering.IfRuns | reconstructed/src/ast/seqc_ast_eval_control.cpp:722-779 | if: the body exactly when the condition is not zero |
| StatementLowering.IfElseRuns | reconstructed/src/ast/seqc_ast_eval_control.cpp:2761-2873 | if-else: the chosen arm, leaving over the end label |
| StatementLowering.LoopRuns | reconstructed/src/ast/seqc_ast_eval_control.cpp:1909-1989 | the rounds of while and for loops, with constant, missing and computed tests |
| StatementLowering.ForRuns | reconstructed/src/ast/seqc_ast_eval_control.cpp:3578-3828 | for: the start, then the loop with its increment behind the body |
| StatementLowering.DoWhileRuns | reconstructed/src/ast/seqc_ast_eval_control.cpp:2040-2303 | do-while: the body first, the test behind it |
| StatementLowering.CountDown | reconstructed/src/ast/seqc_ast_eval_control.cpp:2641-2662 | decrement and signed test go on exactly as often as the count says |
| StatementLowering.RepeatRuns | reconstructed/src/ast/seqc_ast_eval_control.cpp:2616-2662 | the shared loop, entered with v > 0, runs the body exactly Repetitions(v) times |
| StatementLowering.RepeatVarRuns | reconstructed/src/ast/seqc_ast_eval_control.cpp:2577-2679 | repeat over a register, zero counts included |
| StatementLowering.RepeatConstRuns | reconstructed/src/ast/seqc_ast_eval_control.cpp:2419-2522 | repeat over a constant: exactly n times for 0, 1, the run-time loop and the unrolled copies |
| Lowering.EmitsIff | reconstructed/src/ast/seqc_ast_eval_control.cpp:2419-2522 | whether a statement emits code depends on the statement and the unroll limit only, not on the counters |
| Lowering.RepeatConstForm | reconstructed/src/ast/seqc_ast_eval_control.cpp:2419-2522 | repeat over a constant is a run-time loop if and only if the count is at least 2 and the body emits code or the count is over the unroll limit; otherwise it is the body, or nothing |
| StatementLowering.CaseTestsRun | reconstructed/src/ast/seqc_ast_eval_control.cpp:1347-1404 | the comparisons lead to the label of the first match, or past them all |
| Lowering.SwitchAnnouncesCycles | reconstructed/src/ast/seqc_ast_eval_control.cpp:1316-1328 | the number a switch stores to address 0x1a is the cycles of the case tests emitted, each counted with a short constant, and with a default those of a NOP and a jump |
| StatementLowering.SwitchRuns | reconstructed/src/ast/seqc_ast_eval_control.cpp:1268-1600 | switch: announcement, then the body of the first match, else the default, else nothing, always leaving over the end label |
| Evaluation.Evaluator.EvaluateExpr | reconstructed/src/ast/seqc_ast_eval_arithmetic.cpp:927-1423 | the evaluator appends the expression's code and draws the registers and labels of the code function |
| Evaluation.Evaluator.Evaluate | reconstructed/src/ast/seqc_ast_eval_control.cpp:671-3832 | the evaluator appends the statement's code and leaves the counters of the code function |
| Evaluation.JumpIfZeroLeaves | reconstructed/src/ast/seqc_ast_eval_impl.inc:2332-2379 | wherever the emitted jump stands, it leads to the label when the tested value is zero and past itself otherwise, and does nothing else |
| Evaluation.Evaluator.EvaluateProgram | reconstructed/src/ast/seqc_ast_eval_control.cpp:671-3832 | the list the evaluator emits for a statement ends if and only if the statement does, ends as it does, and sends nothing else |
| Evaluation.Evaluator.EvaluateRepeatConst | reconstructed/src/ast/seqc_ast_eval_control.cpp:2419-2522 | the choice between nothing, one body, the run-time loop and copies of an empty body |
| Evaluation.Evaluator.EvaluateCases | reconstructed/src/ast/seqc_ast_eval_control.cpp:1347-1425 | comparisons and labelled bodies of all cases, with their registers and labels |
| Evaluation.Evaluator.GetRegisterNumber | reconstructed/src/runtime/resources.cpp:283-288 | hands out consecutive register numbers |
| Evaluation.Evaluator.NewLabel | reconstructed/src/runtime/resources.cpp:680-692 | hands out labels with consecutive numbers |
| Fragments.Joined | reconstructed/src/ast/seqc_ast_eval_control.cpp:722-779 | concatenation keeps labels distinct, branches landing, and loops entered at their head only |
| Fragments.ClosedLoopsNotDead | reconstructed/src/asm/asm_optimize.cpp:299-339 | on lists whose loops are entered at their head only, dead code elimination is safe |
| LoweredFragments.StmtTidy | reconstructed/src/runtime/resources.cpp:680-692 | lowered code uses each label number once, every branch lands inside its own fragment, loops are entered at their head only |
| Compilation.CompiledLabels | reconstructed/src/ast/seqc_ast_eval_control.cpp:671-3832 | whole programs have distinct labels, defined branches, and meet the condition of dead code elimination |
| Compilation.CompiledRuns | reconstructed/src/ast/seqc_ast_eval_control.cpp:671-3832 | for every fuel: the program ends with the statement's commands and variables, or is still going, at least that long, with the same commands |
| Compilation.CompiledTerminatesIff | reconstructed/src/ast/seqc_ast_eval_control.cpp:671-3832 | the program ends if and only if the statement does |
| Compilation.CompiledResult | reconstructed/src/ast/seqc_ast_eval_control.cpp:671-3832 | when both end, they end alike |
| Compilation.CompiledSendsNothingElse | reconstructed/src/ast/seqc_ast_eval_control.cpp:671-3832 | at every moment the commands sent are the first of the statement's |
| Compilation.CompiledCleaned | reconstructed/src/asm/asm_optimize.cpp:231-261 | a lowered program keeps its meaning through dead code, jump and label elimination, label merging and the folding of register clears |
| Compilation.CompiledAllocated | reconstructed/src/asm/asm_optimize.cpp:231-292 | and through the register passes to the allocated list, when these get lists they are right for |
| NodeLinks.ReplaceChildHolds | reconstructed/src/ast/node.cpp:253-287 | handing a slot over changes that child and nothing else |
| NodeLinks.Node.UpdateParent | reconstructed/src/ast/node.cpp:253-287 | next first, then the first matching branch of a branch node, then loop; the new child's parent is set |
| NodeLinks.InsertedKeepsTree | reconstructed/src/ast/node.cpp:294-300 | inserting keeps every child's parent its holder, each node held once, and no cycles, if and only if the new node is held by nobody, has no next and is not above this node |
| NodeLinks.Node.InsertBefore | reconstructed/src/ast/node.cpp:294-300 | any new node takes this node's place and holds it as next, for the same set of nodes; the tree is kept if and only if the new node is free to go there |
| NodeLinks.SwappedKeepsTree | reconstructed/src/ast/node.cpp:370-438 | swapping a with the child b it holds keeps the links sound and acyclic if and only if a has a holder |
| NodeLinks.SwappedOrder | reconstructed/src/ast/node.cpp:426-437 | a then b then rest becomes b then a then rest, whether b hung from next, branches or loop |
| NodeLinks.Node.Swap | reconstructed/src/ast/node.cpp:370-438 | refuses unless a holds b; else the swapped links, and b takes over the entry number, when positive, of the first node from a upwards that is neither a loop nor a branch |
| NodeLinks.Node.AnchorId | reconstructed/src/ast/node.cpp:392-418 | there is a k such that the k-th node above is neither loop nor branch, all nodes below it are, and the number is that node's |
| AsmText.PrintRead | reconstructed/src/asm/assembler.cpp:328-384 | printing and reading back gives the same instruction if and only if its slots are those of its order and the two number lists can be told apart |
| AsmText.PrintReadPrint | reconstructed/src/asm/asm_list.cpp:434-543 | print, read, print gives the same line whenever as many registers are set as the order takes |
| AsmText.TextShape | reconstructed/src/asm/assembler.cpp:328-384 | immediates first, then the registers in the order of the command, then the outputs, then the label |
| AsmText.ReadLine | reconstructed/src/asm/asm_list.cpp:434-543 | the three passes over the operands read what the line means, or report too few registers |

## Left out

- RemoveUnusedPreserves: that a value taken away is needed does not mean an observer notices; whether he does depends on values, as UnsettledCopiesBreak shows, so the converse is stated of paths and not of runs. Shifts are kept out of the lists.
- SplitPreserves: one split asks that the two entries before each far use are empty; SharedSlotsBreak shows what happens otherwise.
- SplitsApartResult: which uses may be far is judged by entries, not instructions, so lists whose loads do not stand apart may still be split correctly; whether an observer sees an unsafe split depends on values, as LoadedTwiceIff shows.
- StagesEquivalent: what a register pass asks is asked of the list it gets from the pass before.
- CompiledAllocated: the conditions of the register passes are not derived from the statement.
- AllocationPreserves: a register hit while needed may hold the same value by chance; that is stated of writers on paths, not of values.
- CompiledRuns: expressions have no side effects; increments and assignments are statements of their own.
- StmtRuns: the default of a switch is its last case; a default followed by another case is forgotten by the original and is not modelled.
- OptimizePostWaveform: user messages are not reported, and a failed allocation is a result, without message and line number.
- PrintRead: works on tokens; the spelling of numbers, registers and commands, comments and line numbers are not modelled.
- ReadLine: MESSAGE, ERROR_MSG and COMMENT_NOP lines, which hold text, are not modelled; a line with fewer registers than its order takes reads past the end of the register list in the original and is no instruction here.
- Waveforms, wavetable, prefetch and play configuration depend on classes that are not part of this model.
- Compile-time loops and conditions, scopes, function calls, returns and constants known when compiling are not modelled, except as operands.
- Sharing of one node through several reference-counted pointers is not modelled; nodes are objects with plain references.
- Removal of nodes, and the node exchange format, are not modelled.
- Cancellation, logging, messages, JSON, ELF and file output are not modelled.
- Cycle counts, but for the number a switch announces, and the meaning of individual device addresses are not modelled.
