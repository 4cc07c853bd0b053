# enqcc: from source trees to instructions

A model of the C compiler enqcc in Dafny, and proofs about it. The centre is the way of a
typed function through lowering to three-address code, instruction selection, stack slots
and the repair passes; `Compiler.SourceToMachine` says that the instructions at its end
do what the source does, and `WholeCalls.CallReturns` says it of a whole call. Around it
stand the passes in front: label numbering, the expression and declarator parsers, the
scope table, string literals and array initializers.

## How it is laid out

| part | modules |
|---|---|
| values, trees, meaning of the source | `CTypes`, `CAst`, `CSemantics`, `TypedTrees` |
| IR, lowering and its correctness | `Ir`, `Lowering`, `Lvalues`, `IrBuilder`, `BitArithmetic`, `Simulation`, `ExprSimulation`, `StmtSimulation`, `LabelUniqueness`, `JumpTargets`, `LoweringCorrectness`, `LoweredShapes`, `CompoundAssignment` |
| label passes and the pipeline to IR | `LoopLabels`, `GotoLabels`, `SemaLabels`, `PlainMeaning`, `Pipeline` |
| machine | `Asm`, `MachineFacts`, `MemoryMap` |
| selection | `Selection`, `SelectionMeaning`, `SelectionRuns`, `DoubleComparison`, `PointerArithmetic`, `PointerCode` |
| stack frame | `StackFrame`, `FrameRefinement`, `SlotSizes`, `FrameWorld`, `NarrowVariable`, `StackRoom` |
| repairs | `Fixups`, `FixupLists`, `FixupMeaning`, `FixupRuns` |
| calls | `CallingSequence`, `CallMeaning`, `WholeCalls`, `EmittedCalls` |
| all together | `EndToEnd`, `Compiler`, `FallingOff` |
| front end | `ExpressionTrees`, `ExpressionParser`, `ExpressionGrammar`, `ExpressionErrors`, `StandardGrammar`, `Declarators`, `DeclaratorMeaning`, `DeclaratorTexts`, `DeclaratorParser`, `Scopes`, `ScopeTraces`, `SymbolList`, `StringLiterals`, `ArrayInitializers` |
| helpers | `Wrappers`, `ModularArithmetic` |

The source language has a big-step semantics in which evaluations that conflict while
unsequenced are undefined (ISO C11 section 6.5 paragraph 2, with the sequence points of
sections 6.5.13 to 6.5.15); loops, switches and gotos run on fuel, and a run that uses it
up is unfinished, not ended. The machine has 64-bit registers with their narrower
aliases, byte-addressed memory and the outcome of the last comparison; the width of an
instruction is that of its last operand. Passes that change lists, counters or cursors in
place are classes and methods with loops, proved against functions; the theorems are
about these functions.

## What the main theorem asks for

`SourceToMachine` starts at the first instruction behind the two that set up rbp and
asks for: a function that is typed by its declarations, with constants not below INT_MIN,
which literals and characters never are (src/passes/parse/constant.c:34-90); constants
that the repaired comparisons treat as they are (`TameFlat`, see the findings); no
variable that is first seen where it is truncated (`SeenWhole`, see the findings); room
for the frame below rbp, and named objects that overlap neither each other nor the
stretch from the frame to the last stack argument. Memory that a pointer reaches is one
of the variables or a named object. That slots are disjoint, inside the frame, and as
wide as their uses is proved of the computed frame, and nothing is asked about it.

## Findings

Where the code does not do what it is meant to do, a lemma shows an input, and another
one says exactly when it does.

- A constant condition is tested by its low byte. The zero that is compared with has no
  word type of its own and counts as 8 bits wide (src/passes/codegen.c:74-78), and the
  repair of a comparison with a constant takes its width from it
  (src/passes/codegen.c:1862-1864). `if (256)`, `!256` and `if (x = 256)` go wrong:
  `FixupMeaning.ConstantTestFails`, `LoweredShapes.AssignmentIsTested`; right exactly
  when the low byte is zero only if the constant is: `FixupMeaning.ConstantTestExact`.
- A slot is as wide as the first mention of its variable
  (src/passes/codegen.c:1566-1594), which may be a truncation
  (src/passes/codegen.c:1263-1268). A function with defined behaviour then overwrites the
  saved frame pointer: `NarrowVariable`; exactly when:
  `SlotSizes.AccessesFitExactly`, `SlotSizes.SlotSizesExact`.
- The return that is added at the end of a function hands back a zero of type char
  (src/passes/ir.c:1796-1812), so that `main` falling off its end sets al only. An empty
  function, with the exact condition: `FallingOff.EmptyFunctionReturns`.
- The padding in front of a call goes by the number of all arguments, not of those on the
  stack (src/passes/codegen.c:679-680). One argument misaligns the stack:
  `CallingSequence.OneArgumentMisaligns`; exactly when: `CallingSequence.AlignedAtCall`.
- A subscript behind a postfix step is taken by the operator in front of it
  (src/passes/parse/expression.c:153-255): `StandardGrammar.PrefixTakesLateSubscript`;
  exactly when: `StandardGrammar.StandardTreesAreRead`.
- The declarator parser passes over tokens that are out of place
  (src/passes/parse/declaration.c:503-559): `int x *;` and `int x, *y;` are accepted,
  both make x a pointer, and the second declares no y: `DeclaratorTexts.OutOfOrder`; an
  accepted text is a declarator exactly when its tokens stand in order:
  `DeclaratorTexts.DeclaratorsInOrder`.
- At a backslash that ends its input, the scanner of string literals tests the size
  before it moves on. It looks at one byte behind the input, and when that is a letter
  that can be escaped its size wraps round below zero (src/passes/lex.c:442-457):
  `StringLiterals.LoneBackslash`; exactly when: `StringLiterals.LooksBehindExactly`.
- A case label that is a character constant with a byte of 0x80 or above has a negative
  value, char being signed (src/passes/parse/constant.c:38-44), and stops the numbering
  of labels at an assertion (src/passes/sema.c:177): `LoopLabels.CharacterLabelStops`;
  exactly when: `LoopLabels.CaseStopsExactly`.
- The size of 1 that one repair can ask for (src/passes/codegen.c:2052-2056), and that
  the splice rules out (src/passes/codegen.c:1710), is never asked for:
  `Fixups.ReplacementSizes`.
- `*&x = 1` and `(*&x)++` pass the check of their left side (src/passes/sema.c:40-49) and
  stop lowering at a failed assertion (src/passes/ir.c:89-169):
  `Lvalues.AddressOfVariable`; exactly when: `Lvalues.StopsExactly`,
  `Lvalues.BodyStopsExactly`. Typed trees, which the main theorem is about, have no such
  left side.

## Model

| member | source | states |
|---|---|---|
| Compiler.SourceToMachine | src/passes/ir.c:1581-1817 | main theorem: the emitted instructions of a compiled function, entered with its arguments in their registers and stack places, do what its source does with these values, for all inputs and all amounts of fuel: they end with the result in ax at the width of the return type (zero in al when the end is reached), with every variable and object as in the source, and with every byte from rbp upwards outside the named objects unchanged; or they run on at least as long |
| WholeCalls.CallReturns | src/passes/codegen.c:664-765 | a whole call: the caller's emitted code, the callee, its return, the caller's clean-up and the copy of the result come back to the return address with stack and frame pointers restored, the returned value in the caller's destination and all other memory of the caller unchanged, whenever the source of the callee ends; when it goes on, so does the callee |
| Compiler.Compile | src/passes/codegen.c:1437-1459 | the driver of all passes: of typed programs it accepts exactly those that keep the rules for jumps and labels, gives code faithful to each function, and every emitted instruction is a legal one |
| Compiler.LoweredWell | src/passes/ir.c:1757-1817 | the IR of a typed tree uses every variable and temporary at one size, with shapes that selection can use, and has tame constants if the tree has |
| Compiler.CalledReady | src/passes/codegen.c:1529-1654 | what a call sets up (arguments in place, room below rbp, named objects apart from it) gives every hypothesis about memory that the run of a function needs, for the frame that the compiler computes |
| FallingOff.EmptyFunctionReturns | src/passes/ir.c:1796-1812 | finding: run from its entry, the code of a function with an empty body that returns int hands back zero exactly when the upper bytes of eax were zero before the call; with 256 there it hands back 256 |
| FallingOff.FallingOffKeepsUpperBytes | src/passes/ir.c:1796-1812 | the return that is added at the end of any function keeps all of ax but its low byte |
| TypedTrees.BodyReturns | src/passes/ir.c:205-232 | every value that a function returns has its return type, on every run, through loops, switches and gotos |
| TypedTrees.MovedFlat | src/passes/ir.c:1581-1754 | typing depends only on the sizes of variables, not on where the frame puts them |
| LoweringCorrectness.LoweringPreservesMeaning | src/passes/ir.c:1757-1817 | for every checked body and every amount of fuel the IR machine does what the source execution does: same result, same store, unfinished when it is unfinished |
| LoweringCorrectness.HaltsOnlyAsSource | src/passes/ir.c:1757-1817 | the converse: a halting run of the lowered code halts with the result of the source execution |
| LoweringCorrectness.DivergencePreserved | src/passes/ir.c:526-618 | a function that never ends has code that never halts |
| LoweringCorrectness.StaysInside | src/passes/ir.c:1796-1812 | control never runs off the list of operations |
| ExprSimulation.ExprSim | src/passes/ir.c:1581-1754 | the code of an expression simulates its evaluation under the sequencing rules of ISO C11 section 6.5 paragraph 2, with operands that are variables themselves and not copies |
| ExprSimulation.OperandsSim | src/passes/ir.c:1262-1364 | the first operand survives the evaluation of the second because the two are unsequenced |
| ExprSimulation.FooterSim | src/passes/ir.c:1401-1464 | `&&` and `||` leave 0 or 1, whether or not the second operand is evaluated |
| ExprSimulation.FinishSim | src/passes/ir.c:1128-1259 | binary operators and pointer arithmetic compute the values of the source |
| StmtSimulation.StmtSim | src/passes/ir.c:235-272 | the code of every statement, entered at its start or at a label inside it, reaches the end, the return or the jump target that the source execution reaches |
| StmtSimulation.LoopSim | src/passes/ir.c:526-618 | loops with any of their three conditions absent, entered from above or by a jump into the body |
| StmtSimulation.SwitchSim | src/passes/ir.c:660-746 | switch with fallthrough, default anywhere, and case labels inside nested statements |
| StmtSimulation.CaseJumpsSim | src/passes/ir.c:691-729 | the chain of tests goes to the case with the value, or falls through |
| BitArithmetic.BinaryRefines | src/passes/ir.c:1262-1364 | two's complement operators on bit patterns are the integer operators of the source modulo 2^n, traps included |
| BitArithmetic.ConversionRefines | src/passes/ir.c:1056-1125 | copy, truncation and both extensions compute the conversion of the value |
| BitArithmetic.ValuesOfTypes | src/lang/types.c:87-168 | the values of each type, in decimal bounds: the integers that a pattern of the type stands for are exactly those of its range, and both ways are inverse |
| BitArithmetic.BitByBit | src/passes/ir.c:1262-1364 | `&`, `|` and `^` are taken bit by bit |
| BitArithmetic.ShiftedBits | src/passes/ir.c:1262-1364 | shifts move bits, with zeros coming in below |
| BitArithmetic.QuotientTowardsZero | src/passes/ir.c:1262-1364 | quotients are rounded towards zero and remainders have the sign of the dividend (ISO C11 section 6.5.5) |
| CSemantics.SequencePoints | src/passes/ir.c:1401-1464 | what counts as unsequenced with an assignment are the writes with no sequence point behind them: `x = x++ && 1` is defined, `x = x++` is not (ISO C11 sections 6.5.13 and 6.5.16) |
| Lvalues.StopsExactly | src/passes/ir.c:89-169 | finding: of the left sides that `is_node_lvalue` accepts (src/passes/sema.c:40-49), lowering stops at a failed assertion exactly at those that take an address only to follow it |
| Lvalues.BodyStopsExactly | src/passes/ir.c:89-169 | the same for a whole body: lowering gets through exactly when no assignment or step in it has such a left side |
| Lvalues.AddressOfVariable | src/passes/ir.c:89-169 | the input: `*&x = 1` is defined and gives x the value 1, and neither it nor `(*&x)++` is lowered |
| Lvalues.TypedFlatLowers | src/passes/sema.c:40-49 | lowering stops at no tree of the main theorem |
| IrBuilder.Intermediate.IrExpr | src/passes/ir.c:1581-1754 | the recursive builder, which bumps the two counters and appends to op lists, stops exactly when the tree has a left side that lowering cannot handle, and else produces the code that the simulation is about |
| IrBuilder.Intermediate.IrLogicalOp | src/passes/ir.c:1401-1464 | the same for short-circuit operators |
| IrBuilder.Intermediate.IrAssignment | src/passes/ir.c:749-828 | the same for assignment and compound assignment |
| IrBuilder.Intermediate.IrIncrDecr | src/passes/ir.c:831-964 | the same for increments |
| IrBuilder.Intermediate.IrIfElse | src/passes/ir.c:439-523 | the same for if |
| IrBuilder.Intermediate.IrLoop | src/passes/ir.c:526-618 | the same for loops |
| IrBuilder.Intermediate.IrSwitch | src/passes/ir.c:660-746 | the same for switch, whose tests are placed one in front of the other |
| IrBuilder.Intermediate.IrBlock | src/passes/ir.c:235-272 | the same for lists of statements |
| IrBuilder.Intermediate.IrFunc | src/passes/ir.c:1757-1817 | the same for functions, with the added return |
| LoweredShapes.FunctionShapes | src/passes/ir.c:1757-1817 | every temporary gets one size and every variable is used at its own; operands agree in width where selection needs it and destinations do not overwrite operands |
| CompoundAssignment.LeftSideOnce | src/passes/ir.c:172-186 | for every `*e op= r`, casts included, evaluating the left side once into a fresh pointer and assigning through it gives the same value and store: whatever e does, it does once (ISO C11 section 6.5.16.2) |
| CompoundAssignment.CompoundOnce | src/passes/sema.c:855-915 | the same for the tree that the semantic pass builds |
| CompoundAssignment.CompoundValue | src/passes/sema.c:855-915 | for every operator and every target, variables included: an object that held v ends with `v op b`, where b is the value of the right side, and that is the value of the expression; all else is as the right side leaves it; undefined exactly when a side or the operator is, or when one side writes what the other one uses |
| Pipeline.CompileProgram | src/passes/sema.c:567-852 | the label passes fail exactly when a case, break, continue or goto is misplaced, something is duplicated or a case constant is negative, and lowering stops exactly at a left side that it cannot handle; else each function is lowered faithfully, every jump goes to a label of its own function, and no label is defined twice in the program |
| LoopLabels.LoopLabeller.LabelFlat | src/passes/sema.c:612-713 | the walk with the container stack accepts exactly the acceptable trees and numbers them as specified, leaving the stack as it was |
| LoopLabels.LoopLabeller.CasePrepend | src/passes/sema.c:567-605 | a case is added exactly when its converted value is new; the assertion stops it exactly at a negative constant |
| LoopLabels.LoopLabeller.HasContainer | src/passes/sema.c:394-403 | the search finds the innermost container of the wanted kind |
| LoopLabels.CaseValueIsConversion | src/passes/sema.c:535-540 | the value of a case that is not negative is the constant converted to the controlling type (ISO C11 section 6.8.4.2) |
| LoopLabels.CaseStopsExactly | src/passes/sema.c:168-178 | finding: the assertion on the converted value fails exactly at negative constants, whatever the type |
| LoopLabels.CharacterLabelStops | src/passes/parse/constant.c:38-44 | the input: these are the character constants whose byte is 0x80 or above; their value is that of a signed char |
| GotoLabels.GotoLabeller.RenameFunction | src/passes/sema.c:784-852 | goto labels are renumbered consistently; rejected exactly when a label is repeated or a goto has none |
| SemaLabels.BothLabelledFlat | src/passes/sema.c:612-852 | after both passes break, continue, case and goto carry the numbers of the innermost loop or switch and of their labels, and case lists match the body |
| SemaLabels.DistinctNumbersFlat | src/passes/sema.c:612-852 | the numbers of both passes are distinct |
| LabelUniqueness.FunctionLabels | src/passes/ir.c:460-746 | a lowered function defines every label once |
| JumpTargets.FunctionJumps | src/passes/ir.c:621-657 | every jump of a lowered function has its label in the function |
| PlainMeaning.PlainRun | src/passes/sema.c:612-852 | numbering does not change what a tree means |
| SelectionMeaning.EffectSim | src/passes/codegen.c:1190-1344 | the instructions selected for an operation have its effect on the memory that holds the store, and leave all other memory alone |
| SelectionMeaning.CompareSim | src/passes/codegen.c:533-581 | comparison, zero and set instructions yield 0 or 1 by signedness |
| SelectionMeaning.DivSim | src/passes/codegen.c:458-530 | division with the sign or zero extended into dx yields quotient and remainder rounded towards zero |
| SelectionMeaning.PointerAddSim | src/passes/codegen.c:584-626 | scaled addressing and the multiply path compute the same address |
| SelectionMeaning.ConditionMeans | src/passes/codegen.c:533-581 | condition codes mean the comparison of the patterns as signed or unsigned numbers |
| SelectionRuns.SelectionKeepsRuns | src/passes/codegen.c:1347-1357 | whole runs: jumps land on the selected label, results arrive in ax at the width of their type |
| Selection.CodegenStatement | src/passes/codegen.c:1347-1357 | the loop over the operations appends their instructions in order |
| DoubleComparison.ComparisonMeans | src/passes/codegen.c:806-888 | comparison of doubles yields what the operator says of the order, false (true for `!=`) when there is none |
| DoubleComparison.ComparisonRepaired | src/passes/codegen.c:806-888 | this code reads cx, and its repaired form yields the same whatever repaired shifts have left there |
| StackFrame.ReplacePseudo | src/passes/codegen.c:1539-1638 | the in-place pass with its array of offsets and running cursor computes the specified frame, and the stack usage is its deepest slot |
| StackFrame.FrameIsSound | src/passes/codegen.c:1539-1638 | slots lie below rbp inside the reserved space, do not overlap, have the size of the first operand that mentions them, and are aligned to that size, arrays to 16 bytes |
| StackFrame.AccessesApart | src/passes/codegen.c:1539-1609 | accesses to different pseudo registers never touch |
| FrameRefinement.FrameRefinesCells | src/passes/codegen.c:1529-1654 | after any writes through the slots of the computed frame, every read through a slot yields what a map of pseudo registers with bytes of their own would, arrays and partial accesses included, and nothing outside the frame has changed |
| FrameWorld.WorldFromFrame | src/passes/codegen.c:1539-1654 | the computed frame and the named objects overlap nowhere, and all slots lie in the reserved space below rbp |
| FrameWorld.WorldHolds | src/passes/codegen.c:1539-1654 | with room below rbp, every operand of a function has a slot of its own size in the computed frame |
| FrameWorld.FrameRefinesMap | src/passes/codegen.c:1539-1609 | reads after any writes to the variables of a function equal those of the map from variables to values |
| FrameWorld.CallerUntouched | src/passes/codegen.c:1641-1654 | bytes from rbp upwards and below the reserved space are left alone |
| StackRoom.ReservationStands | src/passes/codegen.c:1641-1654 | over the run of the emitted instructions: after at most two of them rsp is below rbp by the size of the frame rounded up to 16, and it stays there until the function returns |
| StackRoom.FrameSurvivesCall | src/passes/codegen.c:1641-1654 | a call made from any later state of such a run leaves every byte of the frame outside the result as it was |
| SlotSizes.SlotSizesExact | src/passes/codegen.c:1566-1594 | every slot is as large as its variable exactly when no variable is first seen where it is truncated |
| SlotSizes.AccessesFitExactly | src/passes/codegen.c:1263-1268 | every access of a function stays inside its slot exactly when no variable that is first seen where it is truncated is used with more bytes elsewhere |
| StackFrame.FirstUseDecides | src/passes/codegen.c:1566-1594 | finding: a narrowing first mention gives a long four bytes, and a later use reaches beyond rbp |
| NarrowVariable.IsLoweredTo | src/passes/codegen.c:1263-1268 | the finding at a source tree: what `long x; goto init; use: return (int)x; init: x = 5000000000; goto use;` is lowered to |
| NarrowVariable.SourceIsDefined | src/passes/ir.c:635-657 | this function has defined behaviour and returns 705032704 |
| NarrowVariable.IsTypeChecked | src/passes/ir.c:1757-1817 | it passes the type checker |
| NarrowVariable.NotAllFit | src/passes/codegen.c:1566-1594 | its accesses do not all fit |
| NarrowVariable.SavedPointerLost | src/passes/codegen.c:1566-1594 | its assignment overwrites the frame pointer saved at rbp |
| Fixups.FixAllExpands | src/passes/codegen.c:2238-2262 | the twelve passes in table order replace each instruction by one closed expansion; later fixers undo nothing |
| Fixups.FixAllLegal | src/passes/codegen.c:1744-2262 | after all fixers no operand combination is left that x86-64 does not have, exactly when no constant below INT_MIN stands where only a register holds more than 32 bits; the fixers look for constants above INT_MAX only |
| EndToEnd.FunctionLegal | src/passes/codegen.c:2238-2262 | the emitted code of a function is legal when its operations have no constant below INT_MIN |
| Compiler.ShapedInRange | src/passes/ir.c:1757-1817 | lowered code of a typed function has no constant below INT_MIN, which is all that the fixers leave open; with `Compiler.Compile`, all emitted code is legal |
| Fixups.ReplacementSizes | src/passes/codegen.c:1710-1731 | every replacement has two or three instructions as the splice requires: the one-instruction form of the 32-bit extension is never reached |
| FixupMeaning.ExpandKeeps | src/passes/codegen.c:1744-2217 | the expansion of an instruction has its effect up to r10, r11, xmm15, for shifts cx, and the conditions that are not kept |
| FixupMeaning.ExpandSim | src/passes/codegen.c:1946-1967 | the same between a run and its repaired form, with cx followed exactly: equal until a repaired shift, equal again in its low byte or in whole once written |
| FixupMeaning.BlockSim | src/passes/codegen.c:1744-2262 | straight code and its repaired form |
| FixupRuns.FixAllKeepsRuns | src/passes/codegen.c:1744-2262 | whole runs with jumps: the repaired program does what the program does, for all code that reads cx only where no repaired shift can have overwritten it and uses only conditions that are kept |
| EndToEnd.CodeRepairable | src/passes/codegen.c:1190-1344 | selected code meets these demands: it never mentions cx or a scratch register, and no repair comes between a comparison and its jump or set |
| FixupMeaning.ConstantTestExact | src/passes/codegen.c:1849-1867 | finding: a constant tested against zero is tested by its low byte; right exactly when n % 256 == 0 holds just when the constant is zero |
| FixupMeaning.ConstantTestFails | src/passes/codegen.c:74-78 | the constant 256 is tested wrongly |
| EndToEnd.TestedConstant | src/passes/codegen.c:1309-1326 | that test is what is selected for a constant condition and for `!` |
| LoweredShapes.AssignmentIsTested | src/passes/ir.c:749-828 | it also arises from `if (x = 256)`, because an assignment hands on its operand |
| FixupLists.AsmFunction.FixupFunction | src/passes/codegen.c:2220-2235 | the walk over the linked list visits every original cell once and no spliced one, and leaves the pass applied in order |
| FixupLists.AsmFunction.Splice | src/passes/codegen.c:1664-1731 | a cell is replaced by a trampoline in place, at the head or inside, and the rest of the list is untouched |
| FixupLists.AsmFunction.FixupInstructions | src/passes/codegen.c:2238-2262 | the reservation is prepended and all fixers run |
| EndToEnd.BackEndKeepsRuns | src/passes/codegen.c:1190-2262 | selection, frame, prologue, parameter copies and repairs together keep every run of the IR, from function entry on |
| EndToEnd.Codegen | src/passes/codegen.c:1437-1459 | the passes on one list in place produce this code |
| CallMeaning.ArgumentsArrive | src/passes/codegen.c:664-765 | through the emitted, repaired code every argument arrives in the slot of its parameter, whatever the number and classes of the arguments; only stack below the caller's stack pointer is written |
| CallMeaning.StackComesBack | src/passes/codegen.c:744-765 | a callee that still has its frame returns with the caller's stack and frame pointers |
| CallMeaning.ParamsGetSlots | src/passes/codegen.c:1395-1434 | parameters get slots that are large enough, apart, and in the frame |
| EndToEnd.FetchSim | src/passes/codegen.c:1395-1434 | the copies at function entry give the parameters the values of the arguments |
| EmittedCalls.CallIsEmitted | src/passes/codegen.c:664-765 | of the instructions that a call emits exactly one is a call, of the function that is meant; entering the callee runs what stands in front of it, and coming back runs what stands behind it |
| WholeCalls.CallEnters | src/passes/emit.c:616-636 | the callee is entered above a frame that holds the return address and the old rbp |
| CallingSequence.OpCall | src/passes/codegen.c:664-765 | the caller's two loops over counters and stack arguments produce the specified code |
| CallingSequence.FunctionParams | src/passes/codegen.c:1395-1434 | the callee's loop does |
| CallingSequence.HomesAgree | src/passes/codegen.c:1395-1434 | caller and callee, who count separately, agree on every home (System V AMD64 psABI section 3.2.3) |
| CallingSequence.HomesDiffer | src/passes/codegen.c:664-765 | no two arguments share a home |
| CallingSequence.ArgumentHomes | src/passes/codegen.h:7-23 | the first six general arguments are in rdi, rsi, rdx, rcx, r8 and r9, the first eight doubles in xmm0 to xmm7, and the others on the stack in their order (System V AMD64 psABI section 3.2.3) |
| WholeCalls.DoubleFetched | src/passes/codegen.c:752-764 | a double comes back in xmm0 and is stored in its place, and nothing else changes |
| CallingSequence.AlignedAtCall | src/passes/codegen.c:679-680 | at the call the stack is aligned to 16 bytes exactly when stack arguments and all arguments are both even or both odd in number |
| CallingSequence.OneArgumentMisaligns | src/passes/codegen.c:679-680 | finding: one argument misaligns the stack |
| PointerCode.SumLessPointerOnMachine | src/passes/codegen.c:584-626 | the repaired instructions for `(p + i) - p`, by scaled address or by multiplication and by signed division, yield i exactly when the offset in bytes fits a signed 64-bit integer, for elements of any size |
| PointerCode.SumLessIndexOnMachine | src/passes/ir.c:1182-1259 | those for `(p + i) - i` always yield p |
| PointerArithmetic.SumLessPointerRuns | src/passes/ir.c:1128-1179 | the same on the IR machine |
| PointerArithmetic.SumLessIndexRuns | src/passes/ir.c:1182-1259 | the same on the IR machine |
| PointerArithmetic.SumLessPointer | src/passes/ir.c:1128-1179 | the same for values of the source language |
| PointerArithmetic.SumLessIndex | src/passes/ir.c:1182-1259 | the same for values of the source language |
| PointerArithmetic.LoweredArithmetic | src/passes/ir.c:1128-1259 | these are the operations that lowering makes |
| ExpressionGrammar.ParserReads | src/passes/parse/expression.c:396-451 | the parser returns a tree exactly for the texts that flatten to it with the right precedences, and stops where nothing goes on |
| ExpressionGrammar.OneReading | src/passes/parse/expression.c:396-451 | a text has at most one reading |
| StandardGrammar.Agrees | src/passes/parse/expression.c:291-386 | at every level of the grammar of ISO C11 section 6.5, what is read and what is derived are the same trees, up to two named exceptions |
| StandardGrammar.StandardTreesAreRead | src/passes/parse/expression.c:130-255 | a derived tree is what is read from its text exactly when its chains of postfix operators fit |
| StandardGrammar.ReadTreesAreStandard | src/passes/parse/expression.c:396-451 | what is read is derived exactly when its targets fit |
| StandardGrammar.PrefixTakesLateSubscript | src/passes/parse/expression.c:153-255 | finding: `-a[i]++[j]` is read as a subscript of the negation |
| ExpressionErrors.ErrorsJustified | src/passes/parse/expression.c:153-451 | when the parser fails, the text holds what its error names: a token that starts nothing, a literal out of range, or an opening parenthesis, bracket, question mark or argument whose expression ends in front of something else than what closes it |
| ExpressionParser.Cursor.Expr | src/passes/parse/expression.c:396-451 | the loop over a moving cursor computes the specified reading and consumes what it says |
| ExpressionParser.Cursor.Factor | src/passes/parse/expression.c:153-255 | the same for factors |
| DeclaratorMeaning.DeclaratorIsRead | src/passes/parse/declaration.c:595-744 | every declarator, with any parentheses, is read with the type and the name of ISO C11 section 6.7.6, and rejected exactly when the type has an array of void inside |
| DeclaratorMeaning.TypesRoundTrip | src/passes/parse/declaration.c:747-855 | a type printed as a named or abstract declarator is read back |
| DeclaratorMeaning.VoidElementsExactly | src/passes/parse/declaration.c:775-784 | the check for incomplete elements finds exactly the types that have an array of void inside; an array of pointers passes |
| DeclaratorTexts.DeclaratorsInOrder | src/passes/parse/declaration.c:396-592 | of the texts that the parser accepts exactly those are declarators whose tokens stand in order: stars and parentheses, the name, then closing parentheses and sizes |
| DeclaratorTexts.OutOfOrder | src/passes/parse/declaration.c:503-559 | finding: `int x *;` makes x a pointer, and `int x, *y;` makes x a pointer and declares no y |
| DeclaratorTexts.StarBehindParens | src/passes/parse/declaration.c:257-286 | a star behind any part in parentheses, with no name before it, is rejected with its own error |
| DeclaratorParser.ReadType | src/passes/parse/declaration.c:818-855 | split, scan, postfix and map over the cursor and token lists compute that reading |
| DeclaratorParser.Cursor.GroupSplit | src/passes/parse/declaration.c:396-494 | the split of a declarator into its groups |
| DeclaratorParser.DeclaratorBuilder.ByGroup | src/passes/parse/declaration.c:688-719 | the fragments collected group by group |
| SymbolList.Resolver.ResolveProgram | src/passes/parse/resolve.c:388-426 | the linked list with its delimiter flags resolves a whole file as the stack of maps does, error for error |
| SymbolList.Resolver.ResolveBlockWithDelimiter | src/passes/parse/resolve.c:303-346 | leaving a block restores the list and the flags, and only the counter has grown |
| SymbolList.Resolver.ResolveDeclaration | src/passes/parse/resolve.c:206-281 | a redeclaration is rejected exactly when the innermost scope has the name and not both are external |
| SymbolList.Resolver.Prepend | src/lang/symbol.c:141-161 | a new symbol at the head, with the next number |
| SymbolList.Resolver.GetLimited | src/lang/symbol.c:164-185 | the search that stops at the delimiter is the lookup in the innermost scope |
| SymbolList.Resolver.GetAnywhere | src/lang/symbol.c:164-191 | the unlimited search is the lookup of the visible declaration |
| SymbolList.Resolver.ResetScope | src/lang/symbol.c:206-212 | symbols are dropped and the counter is kept |
| Scopes.FileCapturesNothing | src/passes/parse/resolve.c:206-281 | over a whole file equal numbers mean equal names, new numbers ascend, and all lie below the next one: renaming captures nothing |
| ScopeTraces.FileMeaning | src/passes/parse/resolve.c:206-281 | numbers by the order of the text, with no table of scopes: a declaration shares a number only when it is external and the visible earlier declaration of its name has linkage; every other one gets a number that occurs nowhere before; every use has the entry of the innermost declaration before it; a file is accepted exactly when nothing in it offends, and else the error is that of the first offence |
| StringLiterals.LexExactly | src/passes/lex.c:390-470 | a text that spells literals is accepted, and the token is their concatenation; a character constant must have one character, and none or several are different errors |
| StringLiterals.LexedIsMeant | src/passes/lex.c:390-470 | the converse: a text that is accepted spells literals, and the token is what they mean |
| StringLiterals.RejectedExactly | src/passes/lex.c:390-470 | a text is rejected exactly when it ends, breaks the line or has an invalid escape in an open literal, and the error says which |
| StringLiterals.CharactersMean | src/passes/lex.c:277-325 | the byte behind each escape letter, by its number, and which bytes are spaces and quotes |
| StringLiterals.StringsRoundTrip | src/passes/lex.c:328-470 | strings that are escaped, quoted and separated by spaces come back as their concatenation, with the cursor on the last quote |
| StringLiterals.LooksBehindExactly | src/passes/lex.c:442-457 | finding: the scanner looks at the byte behind its input exactly when the text is whole literals and gaps, then pieces of an open literal, then one backslash at the end; it reports an invalid escape there exactly when that byte is no escape letter and else steps over the byte; in every other case the byte has no influence |
| StringLiterals.LoneBackslash | src/passes/lex.c:442-457 | the input: a quote and a backslash |
| StringLiterals.MapSpanToStrlike | src/passes/lex.c:328-370 | the decoder's assertions never fail, and it yields the decoded characters |
| StringLiterals.Lexer.LexOneStrlike | src/passes/lex.c:390-470 | the scanner over the moving view, with its size count and the byte behind its input, computes the specified token |
| ArrayInitializers.InitializerTiles | src/passes/ir.c:275-328 | the copies write offsets 0, s, 2s and so on up to the size of the object, once each, in row-major order, with missing elements zero (ISO C11 section 6.7.9) |
| ArrayInitializers.CheckExactly | src/passes/sema.c:1293-1365 | an initializer is accepted exactly when it is braced as its type, and then only padded |
| ArrayInitializers.RejectedFor | src/passes/sema.c:1293-1365 | a rejected initializer has somewhere inside the fault that the error names |
| ArrayInitializers.ZeroPad | src/passes/sema.c:1236-1287 | the loop that appends cells pads to the dimensions |
| ArrayInitializers.DeclInitMulti | src/passes/ir.c:275-328 | the walk with its running offset emits these copies |

## Left out

- Arithmetic and conversions of doubles and their selection; doubles are opaque patterns, which the repairs, the calls and the comparison of doubles handle.
- Calls inside a source body: the semantics of the source has no call, a call is treated as a whole in `WholeCalls`, with its arguments in place.
- Arrays, structures and void expressions in the lowered trees; arrays appear in the frame, in initializers and in pointer arithmetic.
- Compiler.SourceToMachine: asks that no variable is first seen where it is truncated, also where that variable is never used in whole, so that nothing is ever stored in it.
- Compiler.SourceToMachine: variables that the code never mentions are given slots below the frame, since the source semantics wants an address for every variable.
- FixupRuns.FixAllKeepsRuns: says nothing of code that reads cx in a state that depends on the path, such as across a label; the compiler produces none.
- Casts and sizeof in the expression parser, member access and the comma operator.
- Function-parameter declarators and function pointers in the declarator parser.
- Brace-elided and string initializers of arrays.
- Block-scope function declarations, and linkage beyond internal and external, in the scope table.
- The constant folder beyond plain constants, numeric literals, name mangling, and the checks of the type checker; the model starts from trees that have passed it.
- The limits on nesting depth of blocks, on parameters and on 4096 pseudo registers per function.
- StringLiterals.Scan: says nothing of what happens once the scanner has stepped over the byte behind its input, only that it does.
- Trees are rebuilt where the source rewrites a node in place; no other node refers to it, and sharing in compound assignments is a node of its own.
- Variables that are read before they are written have some value, and not an indeterminate one.
- Allocation failures, files, messages, debugging output and the text of the assembly.
