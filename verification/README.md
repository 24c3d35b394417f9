# Verified models of a hardware compiler's transformations

The repository compiles SystemVerilog designs and assertions into transition systems for model checkers, and into code for
an emulated machine. This project models, in Dafny, the parts of it whose outputs must *mean* what their inputs meant, and
proves that they do.

**The BTOR2 optimizer.** A transition system is a list of numbered operations over bit-vectors of any width, with state
records (an init and a next relation), outputs and constraint, bad, cover, fair and justice properties
(`TransitionSystem`). Operators mean what the BTOR2 format says (Niemetz, Preiner, Wolf and Biere, CAV 2018);
`Semantics.Eval` gives every operation a value in every environment, and `Refinement.IsRun` says which sequences of
environments are runs. `WellTyped` is the list of verification rules in `docs/specifications/btor2.yaml:327-339` (operand
counts and widths, one record for a state), which is more than the program's own verifier checks. Nine passes, the module
rebuild that they share and the loop around them are methods on a mutable `Module`; each is proved equal to a function on
the module's value, and these functions are proved to preserve meaning. `Refinement.Refines` is the relation that all of
them establish: every output and property condition, and the init and next relation of every surviving state, has its
original value in every environment. From it follow that every run projects, re-verification, and the exact condition under
which every run of the smaller system extends to one of the original (`Extension.StartsCompletable`, a condition on one step:
every start of the smaller system can be completed on the dropped states so that their init relations hold). Initial values
that depend on each other without a cycle, and so constant ones, always meet it.

**The monitors.** Assertion monitors are built on the same mutable module, gate by gate (`Builder`, `Gates`): the chain of
registers behind `$past`-like functions, the age registers of `|->` and `|=>` with a bounded delay, and the one-hot
registers, constraint and justice property of a Büchi automaton. Each has a specification that does not mention registers
(`History.ReadsPast`, `ImplicationSemantics`, `Automata`), over runs in which clock ticks, other steps and disabled steps
interleave in any way, and the registers are proved to track it in every run. The chain and the age registers take no run of
the design away and add none; the constraint of the automaton keeps exactly the runs that follow a path, and a run of the
design is accepted by the automaton exactly when some run of the monitored design shows it, meets the constraints and is fair.

**The two lowerings of sequences.** `SequenceSemantics.Tight` is tight satisfaction (clauses 16.7 and 16.9 and Annex F of
IEEE Std 1800-2023) on segments of an infinite word. The lowering to regular expressions of the Spot library
(`SereLowering`) and the finite expansion into formulas with endpoints (`SequenceFormula`) are both proved exact, so they
agree on every sequence that the expansion does not refuse. The counters of the modelled expressions are unbounded, while the
library keeps them in eight bits, so what is proved of an expression holds of the library's if it is `Compact`.
`EightBitCounters` says what becomes of the others when bounds are stored modulo 256 and 255 stands for no upper bound.

**Control-flow analyses.** The dominator and liveness fixpoints over basic blocks are proved to compute the properties of all
paths that they stand for (`Dominators`, `Liveness`), and, on the text of a function, of all routes along its jumps
(`FunctionAnalysis`).

**Register allocation.** `MachineEmitter.Encoder` is the one-pass allocator of the machine backend: reference counts, pinned
registers, eviction of an arbitrary unpinned value to a new spill slot, reloads from spill slots, states and inputs, results
exported where they are computed, and writes that take effect at the commit. `MachineProgram` gives the virtual-register code
and the emitted words their meanings independently of each other; `EncodeBlock` proves that the words implement the block on
every target (which is a ghost parameter, so that the words cannot depend on it), and that seven allocatable registers always
suffice. What holds between two instructions is `MachineBoundaries.Ready`.

A module follows each source file; `Bits` and `IntegerArithmetic` hold bit-vector arithmetic on natural numbers.
Three results are negative, and are stated as lemmas with the exact condition beside them. Dead-code elimination can add runs:
`ParadoxGainsRuns` has a module and a start that cannot be completed, and `RunsExtend` says that it adds none exactly when every
start can. Bounds of goto and nonconsecutive repetition reach Spot unchunked: `LargeGoto` is an input on which the stored expression
matches too much, `GotoStored` says exactly which bounds survive, and `LowerSere` ensures that counters fit exactly for
`SmallGotos`. A yield that names the read of a state exports what the state holds after the commit: `YieldRereads` is such a
block, and `YieldsAgree` is the exact condition on the text of a block for its exports to be what it computed on every target
(`FinalAgrees` is the condition for one target). The optimizer's loop is bounded by
eight rounds: `Optimize` ensures that stopping earlier leaves a module in normal form, which `NormalForm` spells out, and
`RoundsConverge` speaks of the loop without the bound.

## Model

| member | source | states |
|---|---|---|
| TransitionSystem.Module.AddOperation | compiler/btor2/lib/IR/Module.cpp:45-50 | an operation of positive width is appended and gets the next number; one of zero width is refused and changes nothing |
| TransitionSystem.Module.AddState | compiler/btor2/lib/IR/Module.cpp:67-71 | a record is added exactly for a number that names a state operation; otherwise nothing changes |
| TransitionSystem.Module.Init | compiler/btor2/lib/IR/Module.cpp:73-76 | the first record of the state gets its init relation; refused, without change, on a width mismatch or a missing record |
| TransitionSystem.Module.Next | compiler/btor2/lib/IR/Module.cpp:79-83 | the first record of the state gets its next relation; refused, without change, on a width mismatch or a missing record |
| TransitionSystem.Module.AddConstraint | compiler/btor2/lib/IR/Module.cpp:91-95 | a constraint is appended exactly when the condition is Boolean |
| TransitionSystem.Module.AddJustice | compiler/btor2/lib/IR/Module.cpp:109-122 | a justice property with all given conditions is appended exactly when there are some and all are Boolean |
| TransitionSystem.FindDistinct | compiler/btor2/lib/IR/Module.cpp:58-65 | with one record for a state, the lookup finds exactly that record |
| Verifier.Verify | compiler/btor2/lib/IR/Verifier.cpp:25-55 | accepts exactly the modules whose operations have a width and read only earlier ones, whose records name states and have a next relation, with equal widths, whose outputs exist and whose conditions exist and are Boolean |
| Verifier.TypedAndDrivenVerifies | compiler/btor2/lib/IR/Verifier.cpp:25-55 | a well-typed module in which every state record has a next relation is accepted |
| Verifier.OptimizedVerifies | compiler/btor2/lib/Transform/IR/PassPipeline.cpp:31-46 | what the optimizer makes of a well-typed module with driven states is accepted by the verifier |
| PassSupport.Resolve | compiler/btor2/lib/Transform/IR/PassSupport.cpp:26-31 | the loop ends, at the fixed point where the chain of replacements leads |
| PassSupport.MapOperands | compiler/btor2/lib/Transform/IR/PassSupport.cpp:43-49 | operands are renumbered through their replacements; fails exactly when one of them did not survive |
| PassSupport.RebuildOperations | compiler/btor2/lib/Transform/IR/PassSupport.cpp:36-52 | keeps exactly the live, unreplaced operations in order, with renumbered operands; reports a forward reference exactly when a survivor needs an operation that did not survive |
| PassSupport.CompleteMapping | compiler/btor2/lib/Transform/IR/PassSupport.cpp:53-55 | a replaced operation gets the new number of what replaces it |
| PassSupport.RebuildStates | compiler/btor2/lib/Transform/IR/PassSupport.cpp:57-64 | keeps exactly the records of live states, in order and renumbered |
| PassSupport.Rebuild | compiler/btor2/lib/Transform/IR/PassSupport.cpp:34-73 | the module becomes its rebuilt value, or is unchanged exactly when there is a forward reference |
| Rebuilding.CanonicalSound | compiler/btor2/lib/Transform/IR/PassSupport.cpp:26-31 | if every entry points to an earlier operation of equal width and value, so does the end of its chain, and the ends are fixed points |
| Rebuilding.NewNumber | compiler/btor2/lib/Transform/IR/PassSupport.cpp:36-55 | every operation with a live replacement has a new number, which names that replacement with renumbered operands and equal width |
| Rebuilding.RebuiltEval | compiler/btor2/lib/Transform/IR/PassSupport.cpp:34-73 | in every environment, an operation and its new number have the same value |
| Rebuilding.RebuiltWellTyped | compiler/btor2/lib/Transform/IR/PassSupport.cpp:34-73 | the rebuilt module is well typed |
| Rebuilding.RebuiltRecord | compiler/btor2/lib/Transform/IR/PassSupport.cpp:57-64 | a surviving state keeps exactly its init and next relations, renumbered |
| Rebuilding.RebuildRefines | compiler/btor2/lib/Transform/IR/PassSupport.cpp:34-73 | for sound replacements and a closed set of live operations, rebuilding meets no forward reference and preserves meaning |
| Replacement.ApplyReplacements | compiler/btor2/lib/Transform/IR/PassSupport.cpp:76-83 | reports a change exactly when some entry is not the identity; a sound vector never fails |
| Replacement.ReplacedRefines | compiler/btor2/lib/Transform/IR/PassSupport.cpp:76-83 | applying a sound vector keeps the module well typed and preserves meaning |
| Replacement.ReplacedShrinks | compiler/btor2/lib/Transform/IR/PassSupport.cpp:76-83 | a vector that replaces something removes at least one operation |
| AlgebraicSimplification.SimplifyAlgebra | compiler/btor2/lib/Transform/IR/AlgebraicSimplification.cpp:41-83 | the loops compute the specified replacements, and the module is rebuilt with them |
| AlgebraicSimplification.DigitTests | compiler/btor2/lib/Transform/IR/AlgebraicSimplification.cpp:27-38 | the tests on digits hold exactly of zero, all ones and one, at every width |
| AlgebraicSimplification.RuleFires | compiler/btor2/lib/Transform/IR/AlgebraicSimplification.cpp:49-70 | which operand is selected, in terms of the values of constants |
| AlgebraicSimplification.RuleSound | compiler/btor2/lib/Transform/IR/AlgebraicSimplification.cpp:49-70 | the selected operand has the value of the operation, for every operator and width |
| AlgebraicSimplification.SimplifiedRefines | compiler/btor2/lib/Transform/IR/AlgebraicSimplification.cpp:41-83 | the pass preserves meaning and typing |
| BranchSimplification.SimplifyBranches | compiler/btor2/lib/Transform/IR/BranchSimplification.cpp:26-43 | the loop computes the specified replacements, and the module is rebuilt with them |
| BranchSimplification.BranchedRefines | compiler/btor2/lib/Transform/IR/BranchSimplification.cpp:26-43 | the pass preserves meaning and typing |
| PeepholeOptimization.OptimizePeepholes | compiler/btor2/lib/Transform/IR/PeepholeOptimization.cpp:26-38 | the loop computes the specified replacements, and the module is rebuilt with them |
| PeepholeOptimization.PeepholedRefines | compiler/btor2/lib/Transform/IR/PeepholeOptimization.cpp:26-38 | removing double negations preserves meaning and typing |
| CopyPropagation.PropagateCopies | compiler/btor2/lib/Transform/IR/CopyPropagation.cpp:26-42 | the loop computes the specified replacements, and the module is rebuilt with them |
| CopyPropagation.PropagatedRefines | compiler/btor2/lib/Transform/IR/CopyPropagation.cpp:26-42 | the pass preserves meaning and typing |
| CommonSubexpressionElimination.ComputeKey | compiler/btor2/lib/Transform/IR/CommonSubexpressionElimination.cpp:36-47 | the key is the operation with resolved operands, in ascending order for commutative operators |
| CommonSubexpressionElimination.TableFindsFirst | compiler/btor2/lib/Transform/IR/CommonSubexpressionElimination.cpp:48-49 | the table always yields the first operation with the same key |
| CommonSubexpressionElimination.EliminateCommonSubexpressions | compiler/btor2/lib/Transform/IR/CommonSubexpressionElimination.cpp:29-52 | the table-driven loop replaces every operation by the first one with its key; the result has no twins (`NumberedHasNoTwins`) |
| CommonSubexpressionElimination.KeyDetermines | compiler/btor2/lib/Transform/IR/CommonSubexpressionElimination.cpp:36-49 | operations with equal keys have equal values in every environment |
| CommonSubexpressionElimination.NumberedRefines | compiler/btor2/lib/Transform/IR/CommonSubexpressionElimination.cpp:29-52 | the pass preserves meaning and typing |
| NormalForm.NumberedHasNoTwins | compiler/btor2/lib/Transform/IR/CommonSubexpressionElimination.cpp:29-57 | afterwards no two operations beside inputs and states have the same opcode, width, immediates and digits on the same operands, nor on exchanged ones for and, or, xor, add, mul, eq and neq |
| ConstantFolding.Value | compiler/btor2/lib/Transform/IR/ConstantFolding.cpp:30-34 | reads a digit string as its binary value |
| Bits.BitString | compiler/btor2/lib/Transform/IR/ConstantFolding.cpp:43-49 | writes any integer modulo the power of two of the width, at every width |
| Bits.ValueOfBitsOf | compiler/btor2/lib/Transform/IR/ConstantFolding.cpp:30-49 | reading what was written gives the value back |
| Bits.BitsOfValueOf | compiler/btor2/lib/Transform/IR/ConstantFolding.cpp:30-49 | writing what was read gives the digits back |
| Bits.ClearLowestBit | compiler/btor2/lib/Transform/IR/ConstantFolding.cpp:74-78 | clearing the lowest set bit makes the number smaller and flips its parity |
| ConstantFolding.ParityOf | compiler/btor2/lib/Transform/IR/ConstantFolding.cpp:74-78 | the loop ends with the exclusive-or of all bits |
| IntegerArithmetic.SignedComparison | compiler/btor2/lib/Transform/IR/ConstantFolding.cpp:103-106 | comparing signed readings is the bit-vector signed comparison |
| IntegerArithmetic.SaturatedShifts | compiler/btor2/lib/Transform/IR/ConstantFolding.cpp:108-112 | a shift amount cut off at the width shifts as the full amount does |
| IntegerArithmetic.ArithmeticShift | compiler/btor2/lib/Transform/IR/ConstantFolding.cpp:112-112 | flooring the signed reading is the arithmetic shift, modulo the width |
| IntegerArithmetic.SignExtension | compiler/btor2/lib/Transform/IR/ConstantFolding.cpp:82-83 | the signed reading modulo the wider width is sign extension |
| ConstantFolding.ComputeArithmetic | compiler/btor2/lib/Transform/IR/ConstantFolding.cpp:86-112 | modulo the width, the integer computed is the operator's result; nothing exactly for division by zero |
| ConstantFolding.ComputeComparison | compiler/btor2/lib/Transform/IR/ConstantFolding.cpp:97-106 | computes the bit-vector comparison, unsigned and signed |
| ConstantFolding.ComputeReduction | compiler/btor2/lib/Transform/IR/ConstantFolding.cpp:71-78 | computes the reduction of all bits |
| ConstantFolding.ComputeResized | compiler/btor2/lib/Transform/IR/ConstantFolding.cpp:79-107 | concatenation, slice and extensions, modulo the result width |
| ConstantFolding.Compute | compiler/btor2/lib/Transform/IR/ConstantFolding.cpp:68-115 | every folded opcode computes the operator's result modulo the width |
| ConstantFolding.FoldConstants | compiler/btor2/lib/Transform/IR/ConstantFolding.cpp:52-120 | the in-place loop folds exactly the foldable operations, earlier folds feeding later ones, and reports whether it folded any |
| ConstantFolding.FoldedSysRefines | compiler/btor2/lib/Transform/IR/ConstantFolding.cpp:52-120 | the pass preserves meaning and typing |
| StrengthReduction.CountUses | compiler/btor2/lib/Transform/IR/StrengthReduction.cpp:28-39 | counts every use of every operation, by operations, records, outputs and properties |
| StrengthReduction.SoleOwner | compiler/btor2/lib/Transform/IR/StrengthReduction.cpp:52-55 | an operation counted once and used by one operand is used by nothing else |
| StrengthReduction.SingleOne | compiler/btor2/lib/Transform/IR/StrengthReduction.cpp:53-57 | a constant with a single one is the power of two that the shift amount names |
| StrengthReduction.WriteBinary | compiler/btor2/lib/Transform/IR/StrengthReduction.cpp:61-63 | the loop writes the shift amount in the constant's width |
| StrengthReduction.ScalingIsShift | compiler/btor2/lib/Transform/IR/StrengthReduction.cpp:56-60 | multiplying or dividing by a power of two is shifting, modulo the width |
| StrengthReduction.RewrittenEval | compiler/btor2/lib/Transform/IR/StrengthReduction.cpp:59-65 | overwriting the constant changes the value of no other operation |
| StrengthReduction.ReduceStrength | compiler/btor2/lib/Transform/IR/StrengthReduction.cpp:26-69 | the in-place loop rewrites exactly the specified operations, with the use counts taken before it; a change lowers the number of multiplications and divisions |
| StrengthReduction.StrengthenedRefines | compiler/btor2/lib/Transform/IR/StrengthReduction.cpp:26-69 | the pass preserves meaning and typing |
| NormalForm.ReferencedOnce | compiler/btor2/lib/Transform/IR/StrengthReduction.cpp:27-40 | a use count of one is one place in the text of the whole module |
| DeadCodeElimination.Mark | compiler/btor2/lib/Transform/IR/DeadCodeElimination.cpp:29-41 | the recursion ends, marks the operation, leaves nothing marked with an unmarked need that it started from, and marks nothing that is not needed |
| DeadCodeElimination.EliminateDeadCode | compiler/btor2/lib/Transform/IR/DeadCodeElimination.cpp:27-50 | never fails, retains exactly the live part, and reports a change exactly when it dropped an operation |
| DeadCodeElimination.RetainedIsLive | compiler/btor2/lib/Transform/IR/DeadCodeElimination.cpp:42-48 | an operation is retained exactly when it is in every set that holds the observed operations and what its members need |
| DeadCodeElimination.RetainedHasTrail | compiler/btor2/lib/Transform/IR/DeadCodeElimination.cpp:29-48 | an operation is retained exactly when a trail of operands and of init and next relations leads to it from an output or a property condition |
| DeadCodeElimination.RetainedRefines | compiler/btor2/lib/Transform/IR/DeadCodeElimination.cpp:47-49 | retaining the live part preserves meaning and typing |
| DeadCodeElimination.RetainedTraces | compiler/btor2/lib/Transform/IR/DeadCodeElimination.cpp:27-50 | every run projects to a run of the reduced module with equal observations; every run of the reduced module extends to one of the original, with equal inputs, states and observations, exactly when every start of it can be completed on the dropped states |
| DeadCodeElimination.RankedTraces | compiler/btor2/lib/Transform/IR/DeadCodeElimination.cpp:27-50 | every run of the reduced module extends when initial values of dropped states are constants, or depend on each other without a cycle |
| DeadCodeElimination.ParadoxIsDead | compiler/btor2/lib/Transform/IR/DeadCodeElimination.cpp:27-50 | in a concrete well-typed module, states with a cyclic init relation are dropped |
| DeadCodeElimination.ParadoxGainsRuns | compiler/btor2/lib/Transform/IR/DeadCodeElimination.cpp:27-50 | that module has no run at all, and its reduced form has every run: no start of it can be completed |
| Extension.RunsExtend | compiler/btor2/lib/Transform/IR/DeadCodeElimination.cpp:42-49 | every run of a refined system extends to a run of the original with equal kept inputs and states exactly when every start of the refined system can be completed on the dropped states: a condition on one step |
| Extension.ExtensionObserves | compiler/btor2/lib/Transform/IR/DeadCodeElimination.cpp:42-49 | a run that extends another shows all its outputs and property conditions at every step |
| Extension.RankedRunsExtend | compiler/btor2/lib/Transform/IR/DeadCodeElimination.cpp:42-49 | ranks for the dropped states that fall along their init relations are enough for every run to extend |
| Extension.ConstantInitsRanked | compiler/btor2/lib/Transform/IR/DeadCodeElimination.cpp:42-49 | constant initial values have such ranks |
| Refinement.RefinesTransitive | compiler/btor2/lib/Transform/IR/PassPipeline.cpp:31-46 | preservation of meaning composes, with composed renamings |
| Refinement.RunsProject | compiler/btor2/lib/Transform/IR/PassPipeline.cpp:31-46 | every run is, renamed, a run of the refined system with the same observations at every step |
| PropertyPartition.HasProperties | compiler/btor2/lib/Transform/IR/PropertyPartition.cpp:35-41 | holds for safety exactly when there is a bad or cover property, and for liveness exactly when there is a fair or justice property |
| PropertyPartition.PartitionsCover | compiler/btor2/lib/Transform/IR/PropertyPartition.cpp:27-32 | safety takes constraints, bad and cover properties, liveness constraints, fair and justice properties; so only constraints are in both |
| PropertyPartition.SelectProperties | compiler/btor2/lib/Transform/IR/PropertyPartition.cpp:43-50 | returns a reduced copy and leaves its argument alone; its properties are, in order and renumbered, exactly the constraints, bad and cover properties for safety, and the constraints, fair and justice properties for liveness |
| PropertyPartition.PartTraces | compiler/btor2/lib/Transform/IR/PropertyPartition.cpp:43-50 | every run of the whole module is shown by one of the part, with equal selected properties; every run of the part extends to one of the whole exactly when every start of it can be completed on the dropped states, and then the selected properties are equal too |
| PassPipeline.CombineInstructions | compiler/btor2/lib/Transform/IR/InstructionCombining.cpp:28-34 | the three passes in order; a reported change makes the module smaller, no change leaves it as it was |
| PassPipeline.RunRound | compiler/btor2/lib/Transform/IR/PassPipeline.cpp:34-40 | one round is the composition of its six passes, and makes the measure smaller or leaves the module as it was |
| PassPipeline.RoundsStable | compiler/btor2/lib/Transform/IR/PassPipeline.cpp:33-43 | when a round changes nothing, none of the passes would, and no later round does |
| PassPipeline.RoundFixes | compiler/btor2/lib/Transform/IR/PassPipeline.cpp:33-43 | a round leaves the module as it is exactly when folding, all three combining passes, copy propagation, strength reduction and value numbering do |
| PassPipeline.FixesAreNormal | compiler/btor2/lib/Transform/IR/PassPipeline.cpp:33-43 | no pass changes a module exactly when its text is in normal form: no twins, no neutral or absorbing constant, no comparison with itself beside the constant it equals, no conditional with equal branches or a constant condition, no double negation, no full slice or empty extension, no operation on constants but a division by zero, no scaling by a power of two that is used once |
| PassPipeline.RoundsConverge | compiler/btor2/lib/Transform/IR/PassPipeline.cpp:33-43 | without the bound of eight, the rounds reach a module in normal form |
| PassPipeline.Optimize | compiler/btor2/lib/Transform/IR/PassPipeline.cpp:31-46 | computes the specified module, and reports a change exactly when there is one; the result has no twins, and a loop that stops before the eighth round stops at a module in normal form |
| PassPipeline.OptimizedBehaves | compiler/btor2/lib/Transform/IR/PassPipeline.cpp:31-46 | for every well-typed module, the optimized one is well typed and refines it |
| PassPipeline.OptimizePreservesTraces | compiler/btor2/lib/Transform/IR/PassPipeline.cpp:31-46 | every run of the module has its trace in the optimized module, with every output and property equal at every step; every run of the optimized module extends to one of the original with the same trace exactly when every start of it can be completed on the dropped states |
| PassPipeline.OptimizeGainsNoTrace | compiler/btor2/lib/Transform/IR/PassPipeline.cpp:31-46 | when initial values are constants, or depend on each other without a cycle, the module and the optimized module have the same traces |
| History.PastUnique | compiler/btor2/lib/Lowering/Formal/history.cpp:27-48 | there is exactly one value at the k-th most recent tick, or zero if there were fewer |
| History.Remember | compiler/btor2/lib/Lowering/Formal/history.cpp:36-45 | appends a register that starts at zero and takes the current value at every tick |
| History.Previous | compiler/btor2/lib/Lowering/Formal/history.cpp:27-48 | appends a chain of as many registers as the depth; depth zero is refused without change |
| History.ChainReadsPast | compiler/btor2/lib/Lowering/Formal/history.cpp:35-47 | in every run and step, the k-th register reads the value at the k-th most recent earlier tick, or zero if there were fewer, and holds between ticks |
| History.HistoryIsPassive | compiler/btor2/lib/Lowering/Formal/history.cpp:27-48 | runs of the grown system are runs of the design, and every run of the design extends to one of the grown system |
| ImplicationSemantics.PendingStep | compiler/btor2/lib/Lowering/Formal/monitor.cpp:195-206 | how waiting attempts move from age to age at ticks, stay at other steps, and end when disabled or satisfied |
| ImplicationMonitor.NextMonitorState | compiler/btor2/lib/Lowering/Formal/monitor.cpp:195-206 | wires a register to reset, to advance at a tick, and to hold otherwise |
| ImplicationMonitor.Build | compiler/btor2/lib/Lowering/Formal/monitor.cpp:208-275 | adds one register for each age of the window and the two reports, and nothing else to the states |
| ImplicationMonitor.RegisterIsPending | compiler/btor2/lib/Lowering/Formal/monitor.cpp:239-265 | in every run and step, the register of an age is set exactly when an attempt of that age is waiting |
| ImplicationMonitor.ViolationIsFailure | compiler/btor2/lib/Lowering/Formal/monitor.cpp:208-275 | a violation is reported exactly when an attempt closes its window of ticks with no consequent and no disable at any step |
| ImplicationMonitor.MatchIsSuccess | compiler/btor2/lib/Lowering/Formal/monitor.cpp:208-275 | a match is reported exactly when a live attempt sees its first consequent inside the window |
| ImplicationMonitor.MonitorIsPassive | compiler/btor2/lib/Lowering/Formal/monitor.cpp:208-275 | every run of the design is a run of the monitored design, with the same values everywhere in the design |
| Builder.GrowsRun | compiler/btor2/lib/Lowering/Formal/monitor.cpp:208-275 | conversely, every run of a grown system is a run of the design |
| BuchiMonitor.LowerGuard | compiler/btor2/lib/Lowering/Formal/LTL/buchi_monitor.cpp:49-63 | the emitted operation holds exactly when the guard holds of the letter |
| BuchiMonitor.ChoiceFits | compiler/btor2/lib/Lowering/Formal/LTL/buchi_monitor.cpp:136-138 | the choice input is wide enough to number every transition, and no wider than that takes |
| BuchiMonitor.Chooses | compiler/btor2/lib/Lowering/Formal/LTL/buchi_monitor.cpp:159-162 | the emitted comparison holds exactly when the input selects that transition |
| BuchiMonitor.Lower | compiler/btor2/lib/Lowering/Formal/LTL/buchi_monitor.cpp:81-218 | adds the registers, one constraint and one justice property, wired as specified and named after the directive; an empty automaton gives a justice property of that name that never holds |
| BuchiMonitor.AdmittedFollows | compiler/btor2/lib/Lowering/Formal/LTL/buchi_monitor.cpp:143-210 | in every run that meets the constraints, exactly one register is set at every step, and the states follow the automaton on the sampled letters, restarting when disabled |
| BuchiMonitor.PathAdmitted | compiler/btor2/lib/Lowering/Formal/LTL/buchi_monitor.cpp:136-210 | conversely, every path of the automaton over a run of the design is taken by a run that meets the constraints |
| BuchiMonitor.JusticeHolds | compiler/btor2/lib/Lowering/Formal/LTL/buchi_monitor.cpp:212-217 | the justice condition holds exactly at enabled steps in accepting states |
| BuchiMonitor.FairIsAccepting | compiler/btor2/lib/Lowering/Formal/LTL/buchi_monitor.cpp:212-217 | a run that meets the constraints is fair to the emitted justice property exactly when it is in accepting states at infinitely many enabled steps |
| BuchiMonitor.FairIffAccepted | compiler/btor2/lib/Lowering/Formal/LTL/buchi_monitor.cpp:136-217 | some path of the automaton over a run of the design is accepting exactly when some run of the monitored design shows that run, meets all constraints and is fair |
| SereLowering.RepeatRange | compiler/btor2/lib/Lowering/Formal/LTL/sequence_formula.cpp:37-63 | the chunks together match exactly the given range of repetitions, with no counter above 254 |
| SereLowering.DelayedBy | compiler/btor2/lib/Lowering/Formal/LTL/sequence_formula.cpp:65-85 | fusion and padded concatenation together match exactly a start after each delay of the range, including ranges that hold no delay |
| SereLowering.FuseItems | compiler/btor2/lib/Lowering/Formal/LTL/sequence_formula.cpp:107-114 | match items must hold at the last step |
| SereLowering.GotoMeans | compiler/btor2/lib/Lowering/Formal/LTL/sequence_formula.cpp:137-142 | the goto expression matches exactly the segments that end at an occurrence with a count in the range |
| SereLowering.EqualMeans | compiler/btor2/lib/Lowering/Formal/LTL/sequence_formula.cpp:131-136 | the nonconsecutive expression matches exactly the segments with a count in the range |
| EightBitCounters.LargeGoto | compiler/btor2/lib/Lowering/Formal/LTL/sequence_formula.cpp:131-142 | with a bound of 255, the expression as it is stored matches 256 occurrences, which do not satisfy the sequence |
| EightBitCounters.GotoStored | compiler/btor2/lib/Lowering/Formal/LTL/sequence_formula.cpp:131-142 | stored in eight bits, the expression of a goto or nonconsecutive repetition matches exactly its sequence if and only if the minimum is at most 255 and a finite maximum at most 254 |
| EightBitCounters.CompactStored | compiler/btor2/lib/Lowering/Formal/LTL/sequence_formula.cpp:37-63 | an expression whose counters fit is stored as it is |
| EightBitCounters.LowerStored | compiler/btor2/lib/Lowering/Formal/LTL/sequence_formula.cpp:104-164 | the expression as it is stored matches exactly what tightly satisfies the sequence, for every sequence whose goto and nonconsecutive bounds fit |
| SereLowering.LowerSere | compiler/btor2/lib/Lowering/Formal/LTL/sequence_formula.cpp:104-164 | the expression matches exactly the segments of every word that tightly satisfy the sequence, for every operator; its counters fit eight bits exactly when the bounds of goto and nonconsecutive repetitions do |
| SequenceFormula.ExpandDelay | compiler/btor2/lib/Lowering/Formal/LTL/sequence_formula.cpp:221-230 | the expansion has exactly the matches that pair a left match with a right one after each delay, in order |
| SequenceFormula.ExpandPairs | compiler/btor2/lib/Lowering/Formal/LTL/sequence_formula.cpp:199-207 | pairs of matches that end at the later endpoint; for an intersection only those that end together |
| SequenceFormula.ExpandRepeat | compiler/btor2/lib/Lowering/Formal/LTL/sequence_formula.cpp:241-260 | the expansion matches exactly the range of repetitions, and is refused exactly when a list on the way has 256 entries |
| SequenceFormula.ExpandThroughout | compiler/btor2/lib/Lowering/Formal/LTL/sequence_formula.cpp:268-274 | the condition is required at every step up to each endpoint |
| SequenceFormula.ExpandInside | compiler/btor2/lib/Lowering/Formal/LTL/sequence_formula.cpp:280-294 | one match for every place where the inner sequence fits the outer one |
| SequenceFormula.Expand | compiler/btor2/lib/Lowering/Formal/LTL/sequence_formula.cpp:166-301 | some pair holds on a word and ends with a segment exactly when the segment tightly satisfies the sequence; the outcome of each operator is spelled out in `ExpansionText.ExpandText` |
| ExpansionText.ExpandText | compiler/btor2/lib/Lowering/Formal/LTL/sequence_formula.cpp:166-301 | for every operator, expanded exactly when its operands are and its own condition holds: a delay over a range shorter than 256, a repetition of one or more over such a range with fewer than 256 matches, an intersection with a common end, an inner sequence with room, an atom on the left of throughout, no match items; with so many matches, and with exactly the endpoints that some word has |
| ExpansionText.EndpointsTight | compiler/btor2/lib/Lowering/Formal/LTL/sequence_formula.cpp:166-301 | a step is an endpoint exactly when some word tightly satisfies the sequence up to it |
| SequenceFormula.ShapeRefused | compiler/btor2/lib/Lowering/Formal/LTL/sequence_formula.cpp:199-294 | a repetition is refused exactly when its range has 256 matches together, an intersection when no ends are common, an inner sequence when it fits no outer one, and a conjunction only with its operands |
| SequenceFormula.LoweringsAgree | compiler/btor2/lib/Lowering/Formal/LTL/sequence_formula.cpp:104-301 | the two lowerings of one sequence match the same segments of every word, whenever the expansion is not refused |
| ControlFlow.Graph.constructor | compiler/vir/lib/Analysis/CFG.cpp:17-50 | the successors of a block are, in order, the blocks that its last instruction names, the last of each name and unknown names passed over; predecessors mirror them |
| ControlFlow.TargetsText | compiler/vir/lib/Analysis/CFG.cpp:33-48 | a block is among the targets exactly if the last instruction is a branch to its name, or a conditional branch with its name on either side, and no later block has that name |
| ControlFlow.EdgesMirror | compiler/vir/lib/Analysis/CFG.cpp:40-48 | a block is a successor exactly of its predecessors |
| Dominators.FixpointDominates | compiler/vir/lib/Analysis/DominatorTree.cpp:12-38 | at a fixpoint, what a set holds is on every path to its block |
| Dominators.DominatorTree.constructor | compiler/vir/lib/Analysis/DominatorTree.cpp:5-60 | the fixpoint ends, with a in the set of b exactly when every path from an origin to b passes a; the immediate dominator is a closest strict dominator, or there is none |
| Dominators.DominatorsChain | compiler/vir/lib/Analysis/DominatorTree.cpp:39-59 | the dominators of a reachable block form a chain |
| Dominators.ImmediateExists | compiler/vir/lib/Analysis/DominatorTree.cpp:39-59 | when nothing but the entry is without predecessors, every other reachable block has one immediate dominator, which all its strict dominators dominate |
| FunctionAnalysis.AnalyzeDominators | compiler/vir/lib/Analysis/DominatorTree.cpp:5-60 | on the text of a function: dominators are the blocks on every route along its jumps, and immediate dominators the nearest of them, which exist when the first block is the only one that nothing jumps to |
| Liveness.LiveBeforeMeans | compiler/vir/lib/Analysis/DataFlow.cpp:19-28 | the backward scan of a block yields what it reads before defining it, and what is needed later and it does not define |
| Liveness.FixpointComplete | compiler/vir/lib/Analysis/DataFlow.cpp:9-35 | at a fixpoint, a value with a path to a use is in the set |
| Liveness.DataFlow.RunLiveness | compiler/vir/lib/Analysis/DataFlow.cpp:4-36 | the fixpoint ends with the least solution: a value is live at a block exactly when some path reaches an exposed use of it past no definition |
| FunctionAnalysis.AnalyzeLiveness | compiler/vir/lib/Analysis/DataFlow.cpp:4-36 | on the text of a function: a value is live exactly where some route along its jumps reaches a use of it past no definition |
| YieldedReads.FinalAgrees | compiler/eir/lib/CodeGen/Emit/MachineEmitter.cpp:255-279 | a yield exports the computed value exactly unless it names the read of a state that was overwritten with another value |
| YieldedReads.YieldsAgree | compiler/eir/lib/CodeGen/Emit/MachineEmitter.cpp:255-279 | a block exports exactly what it computed on every target if and only if every state that a result reads is written, if at all, last with a value that was read from it |
| YieldedReads.YieldRereads | compiler/eir/lib/CodeGen/Emit/MachineEmitter.cpp:251-279 | reading a state, writing one to it and yielding what was read exports one |
| MachineProgram.AfterDefines | compiler/eir/lib/MIR/Verifier.cpp:122-180 | in a block that defines values once, before their uses, exactly the defined values exist; inputs keep their slots' values and reads those of their states |
| MachineEncoding.EvictedValid | compiler/eir/lib/CodeGen/Emit/MachineEmitter.cpp:135-145 | evicting any value loses nothing: every place still holds what it is said to hold, and the register is nobody's |
| MachineEncoding.BindValid | compiler/eir/lib/CodeGen/Emit/MachineEmitter.cpp:122-129 | binding one more name changes nothing that was bound, held or done |
| MachineOperands.ReloadReads | compiler/eir/lib/CodeGen/Emit/MachineEmitter.cpp:169-189 | the chosen reload puts the value of the operand into the register |
| MachineOperands.BuildingExhausted | compiler/eir/lib/CodeGen/Emit/MachineEmitter.cpp:280-299 | when no register can be had, no more are allocatable than operands, result and scratch registers take |
| MachineSteps.MaskSelects | compiler/eir/lib/CodeGen/Emit/MachineEmitter.cpp:284-296 | joining the operands under the inverted mask and under the mask gives the chosen operand at every width |
| MachineSteps.ComputePerformed | compiler/eir/lib/CodeGen/Emit/MachineEmitter.cpp:300-322 | the word reads registers that hold the operands, and its register then holds the result; everything needed later is still to be had |
| MachineSteps.ReadPerformed | compiler/eir/lib/CodeGen/Emit/MachineEmitter.cpp:251-254 | noting the address of a state is enough for its value to be had later, without a word |
| MachineSteps.WritePerformed | compiler/eir/lib/CodeGen/Emit/MachineEmitter.cpp:246-250 | the write is pending at the address of the state with the value of the operand, and nothing else changes |
| MachineBoundaries.NeededValueIsHeld | compiler/eir/lib/CodeGen/Emit/MachineEmitter.cpp:163-193 | between instructions, a value that a later one uses is in its register, its spill slot, or where its state or input is |
| MachineBoundaries.RegistersAreNotShared | compiler/eir/lib/CodeGen/Emit/MachineEmitter.cpp:130-162 | between instructions, no two values share a register, and a register is in use exactly when it holds a value used later |
| MachineEmitter.CountReferences | compiler/eir/lib/CodeGen/Emit/MachineEmitter.cpp:60-75 | the count of a value is the number of its uses by all instructions before the yield |
| MachineEmitter.CollectExports | compiler/eir/lib/CodeGen/Emit/MachineEmitter.cpp:60-69 | the eager exports of a value are exactly the results that name it |
| MachineEmitter.Encoder.FreeRegister | compiler/eir/lib/CodeGen/Emit/MachineEmitter.cpp:130-154 | a register nobody holds, with all values still to be had and pinned registers untouched; fails exactly when every register is pinned or held, without change |
| MachineEmitter.Encoder.Source | compiler/eir/lib/CodeGen/Emit/MachineEmitter.cpp:163-210 | the operand's value is in a pinned register, and pinned registers and memory keep their contents; fails only for a number over 32 bits or when every register is pinned or held |
| MachineEmitter.Encoder.LoadSources | compiler/eir/lib/CodeGen/Emit/MachineEmitter.cpp:233-245 | after loading all operands, each is still in its own register; fails only for a number over 32 bits or with fewer registers than operands |
| MachineEmitter.Encoder.ReleaseSources | compiler/eir/lib/CodeGen/Emit/MachineEmitter.cpp:211-225 | counts drop by the uses; a value stays where it was while uses are left and is dropped at the last one; registers of literals are free again |
| MachineEmitter.Encoder.LowerMux | compiler/eir/lib/CodeGen/Emit/MachineEmitter.cpp:280-299 | the mux is carried out with three scratch registers at most besides its operands and result |
| MachineEmitter.Encoder.ExportResult | compiler/eir/lib/CodeGen/Emit/MachineEmitter.cpp:323-335 | the export slots of all results that name the value hold it |
| MachineEmitter.Encoder.Lower | compiler/eir/lib/CodeGen/Emit/MachineEmitter.cpp:226-346 | one instruction leads from a true and sufficient state of the allocator to the next; fails only for a number over 32 bits, a slice out of range, an opcode that the target lacks, or with fewer than seven registers |
| MachineEmitter.Encoder.Yield | compiler/eir/lib/CodeGen/Emit/MachineEmitter.cpp:255-279 | from a state that is ready at the end of the block, the program is completed to one that implements the block and ends there |
| MachineEmitter.EncodeBlock | compiler/eir/lib/CodeGen/Emit/MachineEmitter.cpp:51-346 | the words end at the last one and not before, store every result in its export slot and leave in every state what was last written to it, as the block says; with seven allocatable registers or more, this succeeds exactly for blocks whose numbers have at most 32 bits, whose slices are in range and whose opcodes the target has |

## Left out

- AddOperation: numbers and widths are unbounded; the program keeps them in 32 bits.
- Init: the program's symbol sanitising is not modelled; names are carried along unchanged.
- Module.output, bad and fair properties are built by the same pattern as constraints and have no method of their own.
- Exceptions are modelled as outcomes; a read outside a vector in an ill-typed module is excluded by `WellTyped`.
- Two records for one state operation are excluded by `WellTyped`, as docs/specifications/btor2.yaml:337 demands; the program does not check it.
- Lowering of SystemVerilog expressions: the monitors take the lowered operations of tick, disable condition and atoms as given, with whatever they mean.
- Names of registers: all registers of a monitor carry its name, without the counters that the program appends.
- The choice between monitors, and the instantaneous and clock-edge paths beside them.
- Build: bounds of the window are natural numbers; the program adds one to 32-bit bounds for `|=>`.
- Lower: assignments to local variables at matches are not modelled; deterministic automata are assumed to have exclusive guards, which their translator promises.
- Translation of properties to automata by the Spot library: the automaton is given.
- LowerSere: absent operands (null pointers) are not modelled; ranges of repetitions are taken in order, since the program's 32-bit difference wraps for others.
- Expand: endpoints are natural numbers; the program adds them in 32 bits.
- The Spot library's own simplification of formulas: its operators mean what its documentation says. That it stores bounds modulo 256, with 255 for no upper bound, is an assumption of `EightBitCounters` alone.
- DominatorTree: the order in which candidates are tried is arbitrary, as it is over an unordered set.
- EncodeBlock: values are defined once (the program's verifier lets a register be redefined with the same type); operators are arbitrary functions of their operands, and the encoding of words into bits is not modelled; a target is taken to have the opcodes that move values, commit and yield; the condition of a mux is one bit wide.
- Register contents are plain numbers; the four-state encoding of values in the emulated machine is not part of the allocator's model.
- The four-state dual-rail encoding and the dataflow scheduler are not part of this model.
- Parsers, printers, the SystemVerilog front end, solver processes, witness files and the runtime: input and output.
