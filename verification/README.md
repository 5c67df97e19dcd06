# Verified model of the bounded graph, fold and array compilers

This project models the compilers, planners and state machines of the repository in Dafny 4.11 and proves what they
are for: that compiled code computes what its source means, that planners never let two live values share a place, that
runs with arbitrary failures agree with direct evaluation, and that independent checkers accept exactly what they should.

`dafny verify dfyconfig.toml` checks everything.

| files | system |
|---|---|
| `Scheduling`, `Registers`, `RegisterMachine` | the greedy topological order and the eight-register linear scan that several compilers share |
| `Descriptor`, `Encoding`, `GraphMachine`, `GraphCompiler`, `GraphValidators`, `GraphExecution` | the bounded DAG compiler, its named oracle, its word machine, both word validators and its bus transactions |
| `Garden`, `GardenCheck` | the independent check of lowering traces |
| `LoweringCheck`, `LoweringSound` | the compiler's own check of its trace, and how it differs from the independent one |
| `AffineFold`, `AffineCompiler`, `AffineExecution` | affine map/fold regions: compiler, configuration check, configuration machine and reference |
| `ObjectSlots`, `FoldPlan`, `FoldDag`, `FoldRun`, `FoldReceipt`, `FoldVerify`, `FoldChain` | DAG sessions of fold jobs: slot planning, runs, receipts; and two-bank chains |
| `FoldWire`, `FoldDecode`, `FoldRoundTrip` | the session envelope: writing, decoding with a second placement, and their agreement |
| `StageOrder`, `ArrayProgram`, `ArrayPasses`, `ArrayCells`, `ArrayEmission`, `ArrayMaterial`, `ArrayStages`, `ArrayPlan`, `ArrayRun`, `ArrayCompile` | whole-array programs: order, meaning, materialisation to passes, release, budgets, execution, reference |
| `ArrayBlocks`, `ArrayDrafts`, `ArrayFusion`, `ArrayStructure` | fusion of scalar passes into blocks |
| `CommandGraph`, `Journal`, `Assembly` | two schedulers of one command graph, the hash-chained journal, checked tile assembly |
| `Base`, `Tables` | shared vocabulary |

Words are integers kept in `0 .. 2^32 - 1` by an explicit remainder; bit fields are sums, quotients and remainders by
powers of two. Digests are function parameters, so every result holds for any digest function. Backend admission, node
execution and job outcomes are parameters too, so results hold for every admission predicate, node function and failure
pattern.

## Findings

Three promises do not hold of the code on every input it admits. Each has a witness and an exact condition.

- Loads stay inside the 324 input words. Admission (`raveil/graph_device_dag.py:198`) lets
  `(rows + 1) * input_stride + columns` reach 323, and a relative load of one row down and one column right of the last
  cell then addresses word 324. `GraphCompiler.OutputUndefinedIffOverrun` proves that some load leaves the input if and
  only if that expression is 323 and such a load is present; `GraphCompiler.AdmittedOverrun` gives an admitted
  descriptor. Named graph and compiled words fault together, so `GraphCompiler.CompilerCorrect` holds regardless.
- The trace check accepts what the compiler emits. `parse_lowering` caps a value's fan-out at the instruction count
  (`raveil/garden.py:640-642`), but an operation that names one value twice counts it twice.
  `GardenCheck.CompiledLoweringAccepted` proves that the compiled payload and trace are accepted if and only if no value
  has more operand references than there are nodes; `GardenCheck.FanOutCanExceed` gives a five-node descriptor that
  compiles and whose own trace is rejected.
- A lowering trace the compiler's check accepts explains the program (`raveil/graph_device_dag.py:366-448`). The check
  ties each register read to the word that defines its operand, but never asks whether another value was put into that
  register in between, and it stops at the shorter of nodes and words. `LoweringSound.ReusedRegisterAccepted` gives an
  admitted descriptor and an accepted trace whose words store eight times the centre word instead of twice;
  `LoweringSound.TrailingWordsAccepted` lets any words follow. `LoweringSound.ChecksCompared` proves that the independent
  check accepts if and only if this one does, there are as many words as nodes, the fan-outs fit and no live ranges
  overlap in a register, and `LoweringSound.ApartTraceIsSound` that the last condition makes the words right. The
  compiler's own traces are never affected (`LoweringCheck.CompiledTraceValid`, `GraphCompiler.CompilerCorrect`).

## Model

| member | source | states |
|---|---|---|
| Scheduling.ScheduledIds | raveil/graph_device_dag.py:162-180 | the loop that discards placed names from wait sets computes the greedy schedule, or fails where it is stuck |
| Scheduling.ScheduleIsTopological | raveil/graph_device_dag.py:162-180 | a schedule is a permutation of the names in which everything follows its dependencies |
| Scheduling.ScheduleSucceedsIffAcyclic | raveil/graph_device_dag.py:162-180 | scheduling succeeds if and only if every dependency is listed and no walk of dependencies closes |
| Scheduling.ScheduleIsLeast | raveil/graph_device_dag.py:162-180 | where the schedule first differs from any other topological order, its name is listed earlier |
| Scheduling.OrderedListingUnchanged | raveil/graph_device_dag.py:162-180 | a listing already in dependency order is returned unchanged |
| Scheduling.SinkIsLast | raveil/graph_device_dag.py:162-180 | a last-listed name nothing waits for is scheduled last |
| Registers.CountUses | raveil/graph_device_dag.py:454-457 | the counting loop gives the number of operand references of every value |
| Registers.Release | raveil/graph_device_dag.py:464-470 | releasing operands frees exactly the registers of values not referenced later |
| Registers.Assign | raveil/graph_device_dag.py:453-478 | allocation fails if and only if at some value-producing item eight earlier values are still held; otherwise every item gets the lowest free register and reads its operands' registers |
| Registers.LinearScanUnique | raveil/affine_fold.py:127-150 | lowest-free assignment is determined by the code |
| RegisterMachine.LinearScanIsSafe | raveil/affine_fold.py:127-150 | under lowest-free assignment no register is overwritten between a value's definition and any later use |
| RegisterMachine.OperandsAgree | raveil/graph_device_dag.py:453-478 | whenever no live register is overwritten, every item reads from the register file the named values of its operands |
| Descriptor.ScheduledIsProgram | raveil/graph_device_dag.py:252-261 | the schedule of an admitted graph is single-assignment code with the same nodes |
| Descriptor.StoreIsScheduledLast | raveil/graph_device_dag.py:252-261 | the final STORE is scheduled last |
| Encoding.BinaryFields | raveil/graph_device_dag.py:286-295 | opcode, destination and both sources decode to what was encoded, the rest is zero |
| Encoding.ImmediateFields | raveil/graph_device_dag.py:301-306 | opcode, destination, source and 22-bit immediate decode to what was encoded |
| Encoding.RelativeFields | raveil/graph_device_dag.py:270-283 | signed row and column offsets survive the two five-bit fields |
| Encoding.CompassFields | raveil/graph_device_dag.py:270-272 | the four-neighbour selector survives encoding |
| Encoding.StoreFields | raveil/graph_device_dag.py:297-298 | the stored register survives encoding |
| GraphMachine.WordStep | raveil/graph_device_dag.py:627-660 | executing an encoded word does to the register file what its node does to named operands |
| GraphMachine.ResultsAgree | raveil/graph_device_dag.py:532-559 | the word stored at a cell is the named result there |
| GraphMachine.WindowsAgree | raveil/graph_device_dag.py:522-530 | encoded and named loads address the same words, so they fault together |
| GraphCompiler.ValidateDescriptor | raveil/graph_device_dag.py:183-261 | accepts exactly the admitted descriptors |
| GraphCompiler.CompileDescriptor | raveil/graph_device_dag.py:451-510 | rejects exactly unadmitted descriptors and those with too many live values; otherwise returns the scheduled, allocated and encoded program with its framed payload and its registers |
| GraphCompiler.CompilerCorrect | raveil/graph_device_dag.py:451-510 | for every compiled descriptor and every input, the encoded words on eight reused registers give exactly the named graph's output, and fault exactly when it does |
| GraphCompiler.LoadInWindow | raveil/graph_device_dag.py:522-530 | an admitted load at an admitted cell leaves the input only for the (+1,+1) load at the last cell of a 323 shape |
| GraphCompiler.OutputUndefinedIffOverrun | raveil/graph_device_dag.py:183-203 | some load leaves the input if and only if the shape expression is 323 and a (+1,+1) load is present |
| GraphCompiler.AdmittedOverrun | raveil/graph_device_dag.py:198 | an admitted descriptor whose load misses the input by one word |
| GraphCompiler.GraphOracle | raveil/graph_device_dag.py:532-559 | the named interpreter's loops compute the named output, refuse malformed arguments and fault on loads outside the input |
| GraphCompiler.RunProgram | raveil/graph_device_dag.py:620-660 | the word interpreter's loops compute the word machine's output |
| GraphValidators.ValidateFallback | raveil/graph_device_dag.py:562-617 | accepts exactly framed, digested, zero-padded images whose every register is written before it is read and whose only store is last |
| GraphValidators.ValidProgramWords | raveil/graph_device_dynamic_sealed.py:357-382 | accepts exactly the headers, words and padding that its rules describe without scanning state |
| GraphValidators.ValidatorsAgree | raveil/graph_device_dynamic_sealed.py:357-382 | for program versions 1 and 2 both validators accept the same images, digest aside |
| GraphExecution.CompiledIsAccepted | raveil/graph_device_dag.py:562-617 | every compiled payload passes the fallback's check for its version |
| GraphExecution.SoftwareFallback | raveil/graph_device_dag.py:620-660 | refuses exactly the images and inputs its checks refuse, otherwise returns the word machine's output |
| GraphExecution.CompileAndCompare | raveil/graph_device_dag.py:532-660 | the oracle gives the named output of every admitted descriptor, and for every descriptor that compiles the fallback returns the same |
| GraphExecution.ExpectedTransactions | raveil/graph_device_dag.py:663-693 | for the fallback's own output on any image: per cell in row-major order the address of every load in program order, then one write; rows × columns × (loads + 1) in all, and replayed over a zeroed window they give that output, writing no word twice |
| GraphExecution.TransactionsReproduceOutput | raveil/graph_device_dag.py:663-693 | replaying the writes over a zeroed window gives the fallback's output, and no address is written twice |
| Garden.ExplainedIsLowering | raveil/garden.py:450-692 | an accepted trace is a lowering of its named nodes to the payload's words |
| Garden.AcceptedTraceIsSound | raveil/garden.py:450-692 | in any accepted trace every source register holds its named dependency's value when it is read, and the words give the named result |
| Garden.TraceAcceptedIffFanOutFits | raveil/graph_device_dag.py:318-363 | a compiler trace is accepted if and only if every fan-out fits the instruction count |
| Garden.CompiledTraceAccepted | raveil/graph_device_dag.py:318-363 | the same for every compiled descriptor, in terms of its own nodes |
| GardenCheck.ParseLowering | raveil/garden.py:451-692 | header, identities and the two checking loops accept exactly framed payloads whose words the trace explains |
| GardenCheck.CompiledLoweringAccepted | raveil/garden.py:450-692 | a compiled payload with the compiler's trace is accepted if and only if no node has more operand references than there are nodes |
| GardenCheck.FanOutCanExceed | raveil/garden.py:640-642 | an admitted descriptor that fits the registers and whose compiled payload and trace are rejected |
| LoweringCheck.ValidateLoweringTrace | raveil/graph_device_dag.py:366-448 | accepts exactly the traces whose header and every entry are those the descriptor and the words determine, up to the shorter of nodes and words |
| LoweringCheck.CompiledTraceValid | raveil/graph_device_dag.py:318-448 | the trace of every compiled descriptor is accepted |
| LoweringCheck.CompileWithTrace | raveil/graph_device_dag.py:451-510 | the whole compilation with its check of its own trace: that check never fails, so it refuses exactly unadmitted descriptors and those with too many live values |
| LoweringSound.ChecksCompared | raveil/garden.py:515-692 | the independent check accepts a trace of the scheduled nodes if and only if the compiler's check does, words and nodes are equally many, fan-outs fit and live ranges stay apart |
| LoweringSound.ApartTraceIsSound | raveil/graph_device_dag.py:366-448 | an accepted trace with as many words as nodes and live ranges apart: the words compute the descriptor's output on every input |
| LoweringSound.ReusedRegisterAccepted | raveil/graph_device_dag.py:417-448 | an accepted trace that keeps every value in one register, and whose words compute another output |
| LoweringSound.TrailingWordsAccepted | raveil/graph_device_dag.py:401-448 | any words may follow those an accepted trace explains |
| AffineFold.ViewInRange | raveil/affine_fold.py:42-53 | the single corner check keeps every address of a view inside its input |
| AffineCompiler.CompileRegion | raveil/affine_fold.py:81-160 | compiles exactly the admitted regions, to a valid configuration |
| AffineCompiler.ValidateConfig | raveil/affine_fold.py:26-78 | accepts exactly the valid configurations, described without scanning state |
| AffineCompiler.ConfigValidIffBounded | raveil/affine_fold.py:26-78 | a lowered region's configuration is valid if and only if its extents and corner addresses are bounded |
| AffineCompiler.LoweringCorrect | raveil/affine_fold.py:127-160 | over all (i, j, k) the configuration computes the region's reference table |
| AffineExecution.Reference | raveil/affine_fold.py:163-199 | the named interpreter accepts exactly admitted regions with fitting inputs and computes their table |
| AffineExecution.Evaluate | contracts/src/affine_fold.c:99-128 | the configuration executor's loops compute the configuration machine's table |
| AffineExecution.CompiledRegionCorrect | raveil/affine_fold.py:127-199 | for every compiled region and fitting inputs, executing the configuration equals the reference |
| AffineExecution.AdmittedReadsInRange | raveil/affine_fold.py:42-53 | no view of an admitted region reads outside its input at any point |
| ObjectSlots.AssignSlots | raveil/fold_dag.py:60-69 | placement fails if and only if some job has more than four references or the chunks still needed leave too few of eight slots; otherwise each job gets the lowest free slots |
| ObjectSlots.SlotsKept | raveil/fold_dag.py:60-69 | a result's slots are not given to any later job up to its last use |
| ObjectSlots.LiveResultsDisjoint | raveil/fold_dag.py:60-69 | two results that are both still needed share no slot |
| FoldPlan.CompilePlan | raveil/fold_dag.py:31-69 | plans exactly the admitted sessions that fit; every plan column is the session's |
| FoldDag.ReadChunksSeparate | raveil/fold_dag.py:72-76 | distinct producer chunks a job reads lie in distinct slots |
| FoldDag.ReadsAndWritesSeparate | raveil/fold_dag.py:58-76 | a job never writes a slot it reads, and reads plus writes never exceed four slots |
| FoldRun.RunKeeps | raveil/fold_dag.py:101-126 | over every sequence of outcomes: a producer is saved exactly if it committed, with its direct result, current until rewritten and never rewritten while needed |
| FoldRun.RunResolves | raveil/fold_dag.py:109-119 | a job is blocked exactly when a direct source did not commit, otherwise it is given the requested slices of direct evaluation |
| FoldRun.AvailableBanks | raveil/fold_dag.py:106-126 | the banks of every available producer hold its zero-padded direct result |
| FoldRun.OutputAvailable | raveil/fold_dag.py:128-132 | the designated output is available exactly when its job has run and committed |
| FoldWire.ReadRequest | contracts/src/affine_fold.c:67-84 | a request is read exactly when one that writing produces stands at the front |
| FoldWire.OpenEnvelope | contracts/src/affine_fold.c:177-221 | an envelope opens exactly when its words are those of a written one, to what was written |
| FoldDecode.HeldOnce | raveil/fold_dag.py:82-98 | the words of an envelope determine version, epoch, output and every job |
| FoldDecode.PlaceDag | contracts/src/affine_fold.c:223-234 | the scan that stops at enough free slots places every result in the lowest ones, and refuses exactly on too many references or too few slots |
| FoldDecode.SlotsUnique | contracts/src/affine_fold.c:223-234 | needs and lifetimes leave one placement |
| FoldDecode.DecodeDag | contracts/src/affine_fold.c:177-236 | accepts exactly the words of an envelope with fresh identities, links into earlier results and room for every result, and returns their links, lifetimes and placement |
| FoldDecode.DecodedReadsHeld | contracts/src/affine_fold.c:206-234 | whatever was sent: in an accepted envelope every chunk read has a slot, nothing up to its reader takes a slot of a producer, and nothing takes the output's |
| FoldRoundTrip.EncodeSession | raveil/fold_dag.py:82-98 | writes exactly plannable sessions with nonzero epoch and distinct nonzero identities |
| FoldRoundTrip.EncodeAndDecode | contracts/src/affine_fold.c:177-236 | for every plannable session the decoder accepts the envelope and its sources, offsets, lifetimes and slots are the planner's |
| FoldReceipt.Begin | raveil/fold_dag.py:103-105 | a run starts exactly on plannable sessions, planned, with nothing stored |
| FoldReceipt.State.constructor | raveil/fold_dag.py:103-105 | a fresh state has version one everywhere, zeroed banks and no producers |
| FoldReceipt.State.Resolve | raveil/fold_dag.py:111-119 | returns the job's inputs and slots, or nothing exactly when a source is unavailable |
| FoldReceipt.State.Commit | raveil/fold_dag.py:120-126 | refuses a wrong destination; a success bumps and rewrites exactly the planned slots and saves the result; a failure changes nothing |
| FoldReceipt.State.Final | raveil/fold_dag.py:128-132 | reports the designated output with its current versions, or nothing |
| FoldVerify.Verify | raveil/fold_dag.py:276-340 | accepts a receipt if and only if it is the one stepping the state machine produces |
| FoldVerify.AcceptedReceiptMeaning | raveil/fold_dag.py:276-340 | an accepted receipt's versions are those of the run it counts, and its output is available exactly when its job was counted and committed, with the direct result |
| FoldVerify.AcceptedRow | raveil/fold_dag.py:306-326 | an accepted row is approved exactly on success and then carries the job's direct result |
| FoldVerify.AcceptedHalt | raveil/fold_dag.py:327-340 | no job is counted after a broken frame or a blocked dependency, and the halt code says which of these, or the end, stopped the run |
| FoldChain.ValidateChain | raveil/fold_chain.py:30-55 | accepts exactly the chains whose jobs are admitted and read at most one earlier producer |
| FoldChain.Links | raveil/fold_chain.py:58-63 | source and mask looked up among all names are the earlier producer and the linked operands |
| FoldChain.ReadableIffLastWriter | raveil/fold_chain.py:82-101 | over every run, a producer is readable exactly while it is the last successful writer of its bank, which holds its words zero-padded |
| FoldChain.AtMostTwoReadable | raveil/fold_chain.py:82-101 | at most two producers are readable at once |
| FoldChain.NeverWritesItsSource | raveil/fold_chain.py:87-96 | a job never writes the bank it reads, and its linked inputs are a prefix of that bank |
| FoldChain.ChainResolves | raveil/fold_chain.py:87-96 | in every run of an admitted chain, a job that is not blocked is given exactly its directly evaluated inputs |
| FoldChain.ReadableIsDirect | raveil/fold_chain.py:82-101 | a readable bank holds its producer's zero-padded direct result |
| FoldChain.LatestSurvives | raveil/fold_chain.py:87-101 | a job without a link leaves the most recent result readable |
| FoldChain.State.Resolve | raveil/fold_chain.py:87-96 | returns inputs, source bank and destination bank, or nothing exactly when the source is stale or missing |
| FoldChain.State.Commit | raveil/fold_chain.py:97-101 | only a success changes anything, and then exactly the destination bank, its version, the active bank and the saved result |
| FoldChain.RunChain | raveil/fold_chain.py:163-205 | a run stops after the first broken frame or at the first blocked job, in the state of the jobs before it, with the halt code of the cause |
| StageOrder.OrderStages | raveil/array_program.py:123-129 | the stage order is the greedy schedule of the stages in name order |
| StageOrder.OrderedIffAcyclic | raveil/array_program.py:123-128 | an order exists if and only if no stages wait for each other |
| StageOrder.LeastReadyName | raveil/array_program.py:123-128 | at every point the next stage is the least name whose producers are all placed |
| StageOrder.OrderUnique | raveil/array_program.py:123-129 | a program has only one stage order |
| ArrayProgram.WrappedIsRemainder | raveil/array_program.py:272-276 | a wrapped coordinate is the one in range that differs by whole turns |
| ArrayCompile.Reference | raveil/array_program.py:241-283 | the whole-source interpreter runs exactly on structured programs and publishes their meaning |
| ArrayCells.ScalarCell | raveil/array_program.py:150-163 | a bound scalar pass applies its operation to its operands' words at every cell |
| ArrayStages.ScalarStage | raveil/array_program.py:183-205 | a stage's passes end in a plane equal to the stage's own evaluation |
| ArrayStages.FirstTerm | raveil/array_program.py:195-197 | seeding the fold with the first term agrees with seeding it with zero |
| ArrayStages.ScalarCount | raveil/array_fusion.py:228-230 | a stage becomes one pass per node and fold step, one per later step, and one per post node |
| ArrayPlan.Materialise | raveil/array_program.py:183-205 | for any choice of fused stages the result planes are the stages' own evaluations |
| ArrayPasses.NeverReadsReleased | raveil/array_program.py:206-226 | no pass reads a released plane |
| ArrayPasses.EndsWithKept | raveil/array_program.py:231-238 | the run ends holding exactly the published planes, with their meaning |
| ArrayRun.LastUses | raveil/array_program.py:206-212 | the loop gives every plane its last reader, or the end if it is published |
| ArrayRun.ChargePasses | raveil/array_program.py:213-226 | refuses exactly when the backend refuses a pass or summed sessions, summed work or the largest workspace leaves its budget, and returns those totals |
| ArrayRun.Execute | raveil/array_program.py:231-238 | running a plan with release publishes exactly the program's meaning and holds nothing else |
| ArrayCompile.CompileScalar | raveil/array_program.py:166-228 | accepts exactly structured programs whose passes are admitted and within every budget; its plan publishes their meaning |
| ArrayCompile.CompileAndCompare | raveil/array_program.py:166-283 | the reference gives the meaning of exactly the structured programs; a run happens exactly for accepted ones and publishes the same |
| ArrayBlocks.BlockMeaning | raveil/array_fusion.py:93-154 | a block makes exactly the plane of the pass it exposes |
| ArrayDrafts.DraftExact | raveil/array_fusion.py:108-148 | a segment can be drafted exactly when its passes read at most two distinct outside inputs |
| ArrayDrafts.DraftRenamed | raveil/array_fusion.py:118-142 | every outside reference of a block is renamed |
| ArrayFusion.BlockRefusal | raveil/array_fusion.py:178-190 | a segment is refused exactly when two results would stay visible or three inputs would be needed |
| ArrayFusion.ChooseBlock | raveil/array_fusion.py:171-191 | the chosen block is admitted and no longer segment in reach makes an admitted block |
| ArrayFusion.Coalesce | raveil/array_fusion.py:157-202 | refuses exactly when more than 128 passes remain; every stage result keeps its plane, and the coalesced passes partition the original ones |
| ArrayFusion.AllResultsRenamed | raveil/array_fusion.py:168-202 | no stage result is hidden in a block |
| ArrayFusion.CompileFused | raveil/array_fusion.py:205-278 | for any stage choice, block admission and backend: accepts exactly structured programs whose coalesced passes are affordable, and its plan publishes their meaning |
| ArrayFusion.FusedMatchesScalar | raveil/array_fusion.py:205-278 | each plan runs exactly when its compiler accepts the program, and both publish the program's meaning |
| ArrayStructure.PlansIgnoreWords | raveil/array_fusion.py:214-219 | two programs that differ only in literal words are accepted alike and get the same plan, for any choice of fused stages made from the structural copy |
| CommandGraph.Validate | raveil/command_graph.py:213-229 | accepts exactly programs of some nodes within the limit, unique and topologically listed, that declare no input and no output twice |
| CommandGraph.CompileNodes | raveil/command_graph.py:419-447 | nodes come out topological with every stream fed; a pipe waits for the command before it, a sequence for its whole fan-out group, a fan-out for nothing; one edge per dependency |
| CommandGraph.DirectExecute | raveil/command_graph.py:647-673 | fails exactly when a stream node has no dependency; otherwise its outcomes and streams are those of source order |
| CommandGraph.GraphExecute | raveil/command_graph.py:676-700 | the same for the ready-set loop, which always makes progress |
| CommandGraph.ExecutorsAgree | raveil/command_graph.py:647-700 | for every valid program and node function both executors return the outcomes and streams of source order, and both fail exactly when a stream has no producer |
| Journal.Load | raveil/completion_telemetry.py:350-374 | the loader accepts exactly chained journals |
| Journal.Store.Ingest | raveil/completion_telemetry.py:276-332 | a corrupt journal or a conflicting binding changes nothing; otherwise old records stay, every event is present and the loader accepts the result |
| Journal.RepeatAppendsNothing | raveil/completion_telemetry.py:292-332 | ingesting a log again never conflicts and appends nothing, whatever run it is claimed for |
| Journal.HeadCommitsHistory | raveil/completion_telemetry.py:360-374 | two accepted journals that end in the same hash are equal, unless a body of one and a different body of the other have the same digest |
| Assembly.Assemble | raveil/grid_assembly.py:3-21 | returns if and only if the identified tiles exactly partition the grid; each cell is the word of the one tile that covers it |

## Left out

- QEMU, UART and RTL processes, file descriptors, receipts on disk, command lines and JSON typing; records start well typed.
- SHA-256, CRC-32 and JSON encodings: digests are arbitrary functions; a digest is a sequence of words or a string.
- The rendering and navigation neighbours of `parse_lowering`.
- The wire frames, transcript lines and RTL evidence a receipt is checked against; a receipt here is its counts, halt code, versions, designated output and rows. Slot masks are sets of slots.
- The cost comparison that chooses between a fused and a scalar stage, and the tile planner: the choice is an arbitrary function. Pass names `p000`, node names `e0`, `n0`, `v0` and the like are constructors and numbers.
- Duplicate stage names in the source list: the model starts from the table of stages by name.
- Command parsing, tool registries, file-system effects, durations and concurrency levels of command nodes; node identities carry their position.
- Bounds on journal text fields and event fields, and the cookie digest stored in place of the cookie.
- FoldReceipt.State.constructor: takes the plan that `FoldPlan.CompilePlan` returns; `FoldReceipt.Begin` compiles and constructs.
- FoldVerify.Verify: does not check the wire frames, transcript lines, RTL evidence and file digests beside a receipt.
- FoldWire.OpenEnvelope: an envelope is a list of 32-bit words; the little-endian bytes of each word and the byte positions of the job frames are not modelled.
- Journal.Load: does not check the bounds on a record's text and event fields.
- CommandGraph.Validate: the program identity digest and the bounds on text fields are not modelled.
- GraphCompiler.RunProgram: the shape is taken as admitted, since the source takes it from a compiled program.
- GraphExecution.SoftwareFallback: the shape is taken as admitted, since the source takes it from a compiled program.
- Fixed-constant evidence checkers, statistics, power measurement and retention ranking.
