# A Dafny model of the armrx RandomX miner

armrx mines RandomX on AArch64. It compiles RandomX programs to machine code,
reorders them on the way, fills a partial dataset in the background while seeds
rotate, and overlaps the end of one hash with the start of the next. This project
models those parts and proves that the fast forms compute what the plain forms
compute.

The main results, with the module that holds each:

- **The virtual machine's words** (`WordLaws`, `VmLaws`). Products, rotations, shifts
  and exclusive or obey the laws of their bits and of exact integers. Rounding mode,
  branch immediates and conditions, load and store levels and every floating-point
  instruction obey laws that do not mention how the interpreter computes them.
- **Scheduled emission preserves meaning** (`Scheduler`, `Replay`, `Emission`,
  `Divergence`, `SwapBudget`). For every program, swap budget and start state,
  running the program in the order `scheduleProgram` emits, with backward branches
  resolved during emission, leaves the registers, scratchpad and rounding mode of the
  interpreter on the original order, provided no branch anchor compiles to nothing.
  Without that proviso it is false: a program of 256 instructions shows it, five
  that matter and 251 idle ones (`Padding`). An emitted loop replays the
  interpreter's instructions exactly when no swap passes over the instruction its
  branch returns to. While budget is left, no slot that could be filled stays unfilled.
- **Footprints are exact** (`JitFootprint`, `FloatFootprint`): the scheduler's
  footprint of an integer instruction is what its emitted words read, write and touch,
  that of a floating-point instruction what some machine can be seen to change or
  depend on.
- **Compiled programs run** (`JitOperands`, `JitInteger`, `JitMachine`, `JitSlots`,
  `JitProgram`, `JitAssembler`). The handlers' words are assembled into the code
  buffer upwards, reciprocal literals downwards, without ever meeting. A processor
  that executes those words, with test, skip, backward branch and literal loads,
  ends in the interpreter's state for the program before scheduling. The words of
  the floating-point handlers enter as a parameter with the effect asked of them.
- **The interpreter halts** (`Interpreter`, `BranchArith`): no branch is taken three
  times running, no instruction is executed more than three times.
- **The dependence-graph scheduler never reorders** (`DagScheduler`).
- **Emitted superscalar code equals the interpreter** (`Superscalar`,
  `SuperscalarEmit`, `SuperscalarCode`, `A64`, `Bits`), down to the 32-bit words: each
  word the bitwise or of its fields, schedule order, a literal pool filled in program
  order and consumed in emission order, 19-bit offsets from wrapping arithmetic. The two-way emitter equals two separate
  runs. `ReciprocalCache` carries this back to the generator's own programs.
- **The generator obeys its rules** (`PortSchedule`, `IssueLog`,
  `SuperscalarGenerator`): for every stream of random answers, no port slot is claimed
  twice, sizes stay in bounds, operand rules hold, the nested loops end, and a log of
  every issued macro-operation accounts for the program, its bytes, its ports and its
  latencies: no value is used before it is ready.
- **The lock-free fill** (`Chunks`, `FillProtocol`, `FillProgress`,
  `FillCompletion`): in every interleaving the published count names a derived prefix, never falls, and never
  covers a cancelled chunk; the completion flag means every item is derived; under
  every schedule an uncancelled fill ends with everything published.
- **Seed rotation** (`Rotation`, `RotationLock`, `GuardedHash`): a hash under the read
  guard sees bytes of one seed only, in every interleaving in which no rotation was
  skipped by a shutdown, and so equals the one-shot hash for the miner's own cache. A
  reachable run shows the skip can mix seeds, for miners that were inside a turn of
  their loop when the engine was stopped and for no others. The lock excludes, never
  stalls and lets no reader overtake a queued writer.
- **Pipelined hashing equals one-shot hashing** (`AesHash`, `Pipeline`, `Nonce`,
  `MiningWorker`), across jobs and skipped refills, also when the fill target is the
  scratchpad being hashed; workers never hash the same block. Hash and fill are folds of
  single rounds, lane by lane. Every turn with a current seed reports, and while no
  turn is skipped the reported draws are 0, 1, 2 and so on without a gap.
- **Argon2d filling** (`Argon2`): references are the ones RFC 9106 allows, at the
  distance it prescribes for a window of that many blocks, and the in-place loop
  computes a recursion that mentions no memory.
- **Reciprocals** (`Reciprocal`), **share targets** (`Target`) and **dataset items**
  (`Dataset`).

Words are bounded integers with every wrap-around written out (`Words`). AES rounds,
BLAKE2b, the floating-point unit, block compression and the derivation of an item
from a cache enter as function values, so every statement holds for all of them.
Concurrent code is a state machine whose steps are single atomic accesses or
critical sections, interleaved in any order.

Where the code and its comments differ, the model follows the code:

- The scheduler's comments call its footprints safe over-approximations. Counting an
  instruction that compiles to nothing as a writer is not safe for branch anchors
  (`Divergence.NopAnchorDiverges`).
- The dependence-graph scheduler is described as filling the slot after a multiply.
  It never changes the order (`DagScheduler.ScheduleProgramDag`).
- The read guard is described as ruling out mixed seeds. After a shutdown request a
  rotation replaces the cache and leaves the generation alone
  (`Rotation.ShutdownRotationCanMix`).

## Model

| member | source | states |
|---|---|---|
| `WordLaws.MulHalves` | src/vm.cpp:64-66 | The unsigned high half and the wrapped product make up the exact product |
| `WordLaws.SignedMulHalves` | src/vm.cpp:68-70 | The signed high half and the wrapped product make up the exact signed product |
| `WordLaws.SumLaws` | src/vm.cpp:592-608 | Wrapped addition and subtraction undo each other and wrap at most once |
| `WordLaws.SignExtendReads` | src/vm.cpp:56-58 | Sign extension keeps the signed reading and the low 32 bits |
| `WordLaws.XorBit` | src/vm.cpp:637-642 | Each bit of an exclusive or is the sum of the two bits modulo two |
| `WordLaws.XorCancel` | src/vm.cpp:637-642 | Exclusive or takes itself back |
| `WordLaws.RorBit` | src/vm.cpp:60-62 | Bit j of a word rotated right by k is bit j + k of the word, around the end |
| `WordLaws.RolBit` | src/vm.cpp:646-648 | Bit j of a word is bit j + k of the word rotated left by k, around the end |
| `WordLaws.ShlBit` | src/vm.cpp:597-599 | Bits move up by the shift, zeros come in, bits beyond 64 are lost |
| `WordLaws.SetBitBit` | src/vm.cpp:505-509 | Setting a bit changes that bit only |
| `WordLaws.ClearBitBit` | src/vm.cpp:505-509 | Clearing a bit changes that bit only |
| `VmLaws.RoundingBits` | src/vm.cpp:722-726 | CFROUND makes two neighbouring bits of its source register the rounding mode and changes nothing else |
| `VmLaws.LoadedLanes` | src/vm.cpp:662-669 | The low half of a loaded word goes to the low lane, the high half to the high lane |
| `VmLaws.AddressWraps` | src/vm.cpp:104-107 | Scratchpad addresses wrap at the level size and are aligned to eight bytes |
| `VmLaws.ModeFields` | include/armrx/instruction.hpp:53-63 | The mode byte is made up of its memory, shift and condition fields |
| `VmLaws.Levels` | src/vm.cpp:523-538 | Exactly which words loads and stores can reach for each setting of the mode byte |
| `VmLaws.AddRestores` | src/vm.cpp:658-669 | Adding restores a register from which the same operand was subtracted, for every unit in which addition undoes subtraction |
| `VmLaws.SubThenAdd` | src/vm.cpp:670-681 | Subtracting and then adding the same register or memory operand leaves the state as it was |
| `VmLaws.DivRestores` | src/vm.cpp:696-711 | Division by the masked memory operand restores a register multiplied by it |
| `VmLaws.MulRestores` | src/vm.cpp:692-695 | Multiplication restores a register divided by the operand |
| `VmLaws.SqrtRestores` | src/vm.cpp:712-715 | The square root restores a squared register |
| `VmLaws.SwapLanes` | src/vm.cpp:655-657 | Exactly the destination's lanes change places; twice changes nothing |
| `VmLaws.ScaleFlips` | src/vm.cpp:682-691 | Scaling flips the sign and the four lowest exponent bits of both lanes and no other bit |
| `VmLaws.ScaleTwice` | src/vm.cpp:682-691 | Scaling twice leaves the state as it was |
| `VmLaws.BranchImmBits` | src/vm.cpp:505-509 | Bit by bit, the branch immediate is the extended immediate with the condition bit set and the one below it cleared |
| `VmLaws.TakenBits` | src/vm.cpp:716-721 | A branch is taken exactly when the eight condition bits of the sum are zero |
| `Footprint.ExecFrame` | src/jit_compiler_a64.cpp:410-509 | An instruction changes no register, scratchpad or rounding mode outside its footprint's writes |
| `Footprint.ExecDepends` | src/jit_compiler_a64.cpp:410-509 | What an instruction writes depends only on what its footprint reads |
| `Footprint.NoHazardDisjoint` | src/jit_compiler_a64.cpp:511-518 | Without a hazard, whatever one side writes the other neither reads nor writes |
| `Footprint.HazardSymmetric` | src/jit_compiler_a64.cpp:511-518 | The hazard test does not depend on the order of its arguments |
| `Footprint.NoHazardCommutes` | src/jit_compiler_a64.cpp:511-518 | Instructions without a hazard commute from every state |
| `JitFootprint.FootprintExact` | src/jit_compiler_a64.cpp:410-509 | The registers an integer footprint reads and writes, and whether it touches memory, are exactly those of the words emitted for the instruction, temporaries aside |
| `FloatFootprint.FloatFootprintExact` | src/jit_compiler_a64.cpp:460-488 | A floating-point footprint lists a register if and only if some unit and state change it, and an address register or memory if and only if a difference there can show elsewhere |
| `BranchArith.NeverThrice` | src/vm.cpp:491-514 | Adding the branch immediate three times running cannot hit the branch condition three times, for every immediate, shift and register value |
| `Interpreter.UnrecordedKeeps` | src/vm.cpp:260-538 | An instruction not recorded as a writer of a register leaves it unchanged |
| `Interpreter.LoopBodyClean` | src/vm.cpp:491-514 | A branch's loop body holds no other branch and no writer of its register |
| `Interpreter.AtMostThreeVisits` | src/vm.cpp:592-734 | In any number of steps from any state, each instruction is executed at most three times |
| `Interpreter.HaltsWithin` | src/vm.cpp:592-734 | The machine reaches the end once the bounded remaining work is spent |
| `Interpreter.ResultByAnyRun` | src/vm.cpp:592-734 | Every run that reaches the end ends in the same state |
| `Interpreter.Note` | src/vm.cpp:260-538 | The bookkeeping marks exactly the registers the instruction is recorded as writing |
| `Interpreter.CompileProgram` | src/vm.cpp:585-590 | The one-pass compiler gives every branch the last recorded writer of its register |
| `Interpreter.ExecuteBytecode` | src/vm.cpp:592-734 | The interpreter loop ends on every program and computes the machine's result |
| `Reorder.ReorderPreserves` | src/jit_compiler_a64.cpp:637-738 | Any reordering whose inverted pairs commute gives the same outcome from every state |
| `Replay.ResultIsRunFrom` | src/vm.cpp:592-734 | The program-counter machine equals the reading branch by branch, loop by loop |
| `Replay.SameTarget` | src/jit_compiler_a64.cpp:2092-2128 | A branch whose target kept its slot finds it again in the emitted program |
| `Replay.SameRange` | src/jit_compiler_a64.cpp:925-961 | Between two cut points emitted and original code have the same effect |
| `Replay.SameLoop` | src/jit_compiler_a64.cpp:2092-2128 | An emitted loop and the original loop leave the same state, however often taken |
| `Replay.ReplayPreserves` | src/jit_compiler_a64.cpp:925-961 | Any order that keeps hazards, branches and branch targets leaves the same final state |
| `Scheduler.FindAnchor` | src/jit_compiler_a64.cpp:653-659 | The backward scan finds the last footprint writer of the branch register in the domain |
| `Scheduler.MarkAnchors` | src/jit_compiler_a64.cpp:645-664 | Exactly the anchors of all branches are marked |
| `Scheduler.ScheduleProgram` | src/jit_compiler_a64.cpp:637-738 | The greedy loop computes the plan block by block within the swap budget |
| `Scheduler.PlanSound` | src/jit_compiler_a64.cpp:637-738 | Every plan permutes its slots, swaps only pairs without a hazard, and fixes branches and anchors with everything on its own side |
| `Scheduler.PlanKeepsHazards` | src/jit_compiler_a64.cpp:637-738 | The whole order is a hazard-respecting permutation with branches and anchors in place |
| `Scheduler.TargetIsAnchor` | src/jit_compiler_a64.cpp:645-664 | If the anchor does not compile to nothing, it is the interpreter's branch target |
| `Scheduler.ScheduledRunAgrees` | src/jit_compiler_a64.cpp:637-738 | Scheduled emission ends in the interpreter's state for every program, budget and start state whose anchors are real writers |
| `SwapBudget.ScheduleIsMaximal` | src/jit_compiler_a64.cpp:666-738 | No more instructions are moved forward than the budget allows, and while some is left no slot after a long multiply that could be filled is left unfilled |
| `SwapBudget.SameMultiplies` | src/jit_compiler_a64.cpp:410-509 | The two schedulers agree on which instructions are long multiplies |
| `SwapBudget.SuperscalarIsMaximal` | src/jit_compiler_a64.cpp:894-923 | No slot of a superscalar program that could be filled is left unfilled |
| `Emission.LoopReplayedIff` | src/jit_compiler_a64.cpp:2092-2128 | In any hazard-respecting order an emitted loop replays the interpreter's instructions if and only if the branch target kept its slot |
| `Emission.ScheduledLoopReplayedIff` | src/jit_compiler_a64.cpp:637-738 | In the scheduler's own order that is so if and only if, going through the program, no swap passes over the branch target |
| `Emission.UnpassedRunAgrees` | src/jit_compiler_a64.cpp:637-738 | If it is so for every branch, scheduled emission ends in the interpreter's state |
| `Padding.PadResult` | src/vm.cpp:585-594 | Filling a program up with instructions that compile to nothing changes no result |
| `Padding.PadSchedule` | src/jit_compiler_a64.cpp:637-738 | The schedule of a padded program is the padded schedule, for every budget |
| `Divergence.PlanOfOriginal` | src/jit_compiler_a64.cpp:637-738 | On a program of 256 instructions whose branch anchor is a reciprocal multiply that compiles to nothing, the scheduler swaps the second and third |
| `Divergence.NopAnchorDiverges` | src/jit_compiler_a64.cpp:441-449 | The scheduled run of that program and the interpreter end in different states, whatever the rest of the start state |
| `DagScheduler.Dependences` | src/jit_compiler_a64.cpp:785-796 | The graph has exactly the edges from earlier to later instructions with a hazard, and counts them |
| `DagScheduler.FindFiller` | src/jit_compiler_a64.cpp:824-857 | The filler is the first instruction before the next fixed one that is ready and may overtake every waiting instruction it crosses; none is reported only if there is none |
| `DagScheduler.FirstReady` | src/jit_compiler_a64.cpp:862-874 | The fallback is the earliest ready instruction before the next fixed one |
| `DagScheduler.Release` | src/jit_compiler_a64.cpp:809-813 | Committing lowers each successor's count once per edge |
| `DagScheduler.NeverEarlierIsIdentity` | src/jit_compiler_a64.cpp:815-886 | Distinct picks that are never below their slot are the identity |
| `DagScheduler.ScheduleProgramDag` | src/jit_compiler_a64.cpp:746-887 | For every program and budget the result is the original order |
| `Bits.OrField` | src/jit_compiler_a64.cpp:1318-1370 | The or of a word with a shifted field is their sum when the word is zero in that field |
| `A64.Op3` | src/jit_compiler_a64.cpp:1318-1370 | The or of a three-register opcode and its four operand fields is the sum of them |
| `A64.Move` | src/jit_compiler_a64.cpp:1500-1533 | The same for a move of 16 bits into either half |
| `A64.AddImm` | src/jit_compiler_a64.cpp:1541-1573 | The same for an addition of 12 bits |
| `A64.LoadLiteral` | src/jit_compiler_a64.cpp:1358-1369 | The same for a literal load with its 19-bit offset |
| `A64.DecodeOp3` | src/jit_compiler_a64.cpp:1318-1370 | An emitted three-register word decodes to the instruction and operands meant |
| `A64.DecodeMove` | src/jit_compiler_a64.cpp:1526-1530 | An emitted move word decodes to its register, half and constant |
| `A64.ConstantMoved` | src/jit_compiler_a64.cpp:1500-1533 | The two moves leave the sign-extended 32-bit constant, whatever the register held |
| `Superscalar.ShiftField` | include/armrx/instruction.hpp:57-59 | The shift count of a superscalar addition is the middle field of its mode byte |
| `Superscalar.ExecuteSuperscalar` | src/superscalar.cpp:722-770 | The in-place loop computes the program's register function |
| `Superscalar.NoHazardCommutes` | src/jit_compiler_a64.cpp:575-617 | Superscalar instructions without a hazard commute |
| `Superscalar.ScheduleSuperscalar` | src/jit_compiler_a64.cpp:894-923 | The loop computes the block plan |
| `Superscalar.RunSwapped` | src/jit_compiler_a64.cpp:894-923 | A swapped block run in emission order changes nothing |
| `SuperscalarEmit.OffsetReaches` | src/jit_compiler_a64.cpp:1358-1369 | The wrapped, divided and masked difference decodes to the distance back to the literal |
| `SuperscalarEmit.EmitSimulates` | src/jit_compiler_a64.cpp:1318-1372 | The words of one instruction have the interpreter's effect on the stream's registers and touch only its destination and temporaries |
| `SuperscalarCode.EmitPool` | src/jit_compiler_a64.cpp:1278-1309 | The pool holds the reciprocals in program order behind a branch over exactly its length |
| `SuperscalarCode.PoolHolds` | src/jit_compiler_a64.cpp:1281-1287 | The literal of an instruction lies where the count of earlier reciprocal multiplications says |
| `SuperscalarCode.GenerateOneWay` | src/jit_compiler_a64.cpp:1245-1377 | The emission loop with its running cursor produces the specified code |
| `SuperscalarCode.GenerateTwoWay` | src/jit_dataset_2way.cpp:258-301 | The interleaved loop with two cursors produces the specified code; the cursors always agree |
| `SuperscalarCode.GeneratedCorrect` | src/jit_compiler_a64.cpp:1245-1377 | Executing the emitted words, one-way or two-way, leaves in every stream what the interpreter computes for it |
| `ReciprocalCache.IndexProgram` | src/argon2.cpp:355-362 | Divisors are replaced by indices of their reciprocals, appended one by one in program order; earlier entries stay |
| `ReciprocalCache.IndexPrograms` | src/argon2.cpp:351-363 | All programs of a cache share one table |
| `ReciprocalCache.IndexedRunsSame` | src/superscalar.cpp:758-764 | Running with the table equals running with reciprocals computed on the spot |
| `ReciprocalCache.EmittedMeansProgram` | src/jit_dataset_2way.cpp:128-175 | Any program the generator may produce, indexed and emitted, computes its own meaning in every stream |
| `PortSchedule.ScheduleUop` | src/superscalar.cpp:496-519 | The first cycle with an allowed free port, claimed exactly when committing |
| `PortSchedule.PickPrefers` | src/superscalar.cpp:496-519 | Of the allowed free ports the one numbered 5 is taken before 0 before 1; none only if all allowed ones are taken |
| `PortSchedule.FirstFitIsFirst` | src/superscalar.cpp:496-519 | No earlier cycle has a free allowed port |
| `PortSchedule.BothFitIsEarliest` | src/superscalar.cpp:533-546 | Two micro-operations get the earliest cycle at which both find a port |
| `PortSchedule.ScheduleMop` | src/superscalar.cpp:521-547 | The cycle found and the ports claimed, with and without commit |
| `PortSchedule.PortsFree` | src/superscalar.cpp:521-547 | Only free ports are claimed, each once, and only allowed ones |
| `PortSchedule.MopFitAfter` | src/superscalar.cpp:521-547 | The cycle found is not before the start, and takes one port for each micro-operation |
| `IssueLog.NoValueEarly` | src/superscalar.cpp:584-653 | In a timely log no register is used before the macro-operation that last produced it has ended |
| `SuperscalarGenerator.Costs` | src/superscalar.cpp:85-183 | Bytes and latency of every whole instruction |
| `SuperscalarGenerator.SixteenBytes` | src/superscalar.cpp:185-190 | Every decode buffer holds sixteen bytes |
| `SuperscalarGenerator.DrawUntil` | src/superscalar.cpp:337-425 | The first acceptable answer, all before it refused |
| `SuperscalarGenerator.FetchRules` | src/superscalar.cpp:204-214 | Which buffer follows: after a high multiply, while multiplies lag behind cycles, after a reciprocal multiply, and otherwise by the answer drawn |
| `SuperscalarGenerator.CreateForSlot` | src/superscalar.cpp:300-336 | Each slot size admits exactly its instructions, chosen by the answer; plain multiplies only in the sixteen-byte buffer of fours, high ones only in a last slot, reciprocal ones only in a slot of ten |
| `SuperscalarGenerator.Create` | src/superscalar.cpp:337-425 | A new instruction has no operands yet, its group, its group parameter or the promise that the source becomes it, a mode only for shifted additions, a rotate count of 1 to 63 or a divisor neither zero nor a power of two; which answers it takes, and where each one goes |
| `SuperscalarGenerator.SelectRegister` | src/superscalar.cpp:260-275 | Among n usable registers the one whose rank is the answer modulo n; a single one without a draw; none only if none is usable |
| `SuperscalarGenerator.SelectDestination` | src/superscalar.cpp:427-439 | The register of the drawn rank among those that meet every restriction; none is reported only if no register does |
| `SuperscalarGenerator.SelectSource` | src/superscalar.cpp:441-460 | The register of the drawn rank among those available in the cycle, none only if none is; a shifted addition with register 5 one of exactly two available takes register 5 without a draw |
| `SuperscalarGenerator.FindSource` | src/superscalar.cpp:589-604 | The first cycle of the look-ahead with a source available, or no register becomes available in it |
| `SuperscalarGenerator.FindDestination` | src/superscalar.cpp:605-620 | The first cycle of the look-ahead with a permitted destination, or even its last cycle has none; permission only grows with the cycle |
| `SuperscalarGenerator.Place` | src/superscalar.cpp:584-653 | The operation due is issued in time and on free ports; it is thrown away only for want of a register, stopped only for want of ports or after 256 throwaways, and the look-ahead does not outlast it |
| `SuperscalarGenerator.OneMop` | src/superscalar.cpp:572-653 | One turn of the inner loop begins an instruction if none is in progress and places its next operation; it stops or is retried only for the reasons the source names |
| `SuperscalarGenerator.DecodeCycle` | src/superscalar.cpp:572-653 | The inner loop ends, at most 256 throwaways in a row, keeps every rule, and fills every slot of the buffer unless the generation is over or that limit is hit |
| `SuperscalarGenerator.GenerateSuperscalar` | src/superscalar.cpp:549-689 | For every stream of answers, a finished program fits the buffer, obeys the operand rules and claimed no port slot twice; it is the finished instructions of a timely issue log, from which its bytes, ports, multiplications, total and register latencies follow; at most four operations start in a decode cycle and none before it; it ends only with the cycles, the ports or the room used up |
| `SuperscalarGenerator.AddressRegister` | src/superscalar.cpp:660-678 | The address register is the first with the longest dependency chain |
| `Dataset.GenerateDatasetItem` | src/dataset.cpp:34-64 | The loop computes the item's definition |
| `Dataset.SeedProgression` | include/armrx/dataset.hpp:27-45 | Seed registers of consecutive items go up by the multiplier, and the other seven differ from the first by the same bits for every item |
| `Dataset.SeedsDiffer` | include/armrx/dataset.hpp:27-45 | Different items start from different registers |
| `Dataset.ExecuteSuperscalarNeon` | src/superscalar.cpp:773-845 | Each lane ends as the scalar interpreter leaves it |
| `Dataset.GenerateTwoItems` | src/dataset.cpp:87-134 | The two-lane loop yields both items |
| `Dataset.InitializeDataset` | src/dataset.cpp:66-150 | An accepted call writes exactly the items of its range; every rejected call is told apart and writes nothing |
| `Dataset.FillChunk` | src/partial_dataset.cpp:350-366 | A chunk filled in sub-chunks is complete exactly when not cancelled, holds the same items, and nothing outside it changes |
| `Chunks.DivideIsLayout` | src/partial_dataset.cpp:254-259 | Every accepted size and core count gives non-empty chunks that end at the total |
| `Chunks.WorkersShare` | src/partial_dataset.cpp:254-259 | As many workers as cores or as few as keep chunks within the limit, and the smallest shares that cover the total |
| `Chunks.ChunksPartition` | src/partial_dataset.cpp:280-292 | Every item lies in exactly one chunk |
| `Chunks.CursorStep` | src/partial_dataset.cpp:401-409 | At a chunk bound the owning-chunk and span arithmetic reaches the next bound and never passes the allocation |
| `FillProtocol.StepSafe` | src/partial_dataset.cpp:299-442 | Every step of every worker keeps the invariant, and the published count never falls |
| `FillProtocol.PublishedPrefixDerived` | src/partial_dataset.cpp:386-428 | Every item below the published count holds its derived bytes |
| `FillProtocol.StoppedNotPublished` | src/partial_dataset.cpp:350-385 | Nothing of a cancelled, failed or unfinished chunk is published |
| `FillProgress.StepKeepsProgress` | src/partial_dataset.cpp:386-438 | A finished chunk beyond the cursor always has a worker bound to look at it, a lagging count one bound to raise it |
| `FillProgress.PublishedItemsStable` | src/partial_dataset.cpp:386-428 | An item published at one moment of a run holds its bytes at every later one |
| `FillProgress.RestingPublishesAll` | src/partial_dataset.cpp:429-438 | Once all workers returned, exactly the gap-free finished prefix is published; with none stopped that is everything, and completion is flagged unless cancelled |
| `FillCompletion.CompleteIsWhole` | src/partial_dataset.cpp:431-438 | Whenever completion is flagged every item holds its derived bytes, and all are published unless a worker is still bound to do it |
| `FillCompletion.CancelledNeverCompletes` | src/partial_dataset.cpp:431-438 | A fill cancelled before any worker has looked at the flags is never flagged complete |
| `FillProgress.EveryStepShrinks` | src/partial_dataset.cpp:386-428 | Every step lowers a well-founded measure, though exchanges may move the cursor back |
| `FillProgress.FillAlwaysCompletes` | src/partial_dataset.cpp:299-442 | Under every scheduler an uncancelled fill comes to rest complete, all items derived and published |
| `Rotation.MoveKeeps` | src/partial_dataset.cpp:154-297 | Every step of fill workers, rotating thread and miners keeps the system invariant |
| `Rotation.ResetExcludesHashing` | include/armrx/partial_dataset.hpp:64-72 | While a read guard is held no reset runs, the generation stands still and the published count does not fall |
| `Rotation.HashReadsOneSeed` | src/mining_engine.cpp:580-692 | Every byte a hashing miner may read was derived from the cache of the generation it checked, and from its own cache unless a rotation was skipped |
| `Rotation.NoTurnAfterStop` | src/mining_engine.cpp:202-228 | Once the engine is stopped, a miner between turns of its loop never hashes again, in every continuation |
| `Rotation.SkippedRotationMixes` | src/partial_dataset.cpp:163-168 | From any reachable state with a shutdown requested, a new seed lets a miner that is inside a turn but not under the guard hash over the old seed's items |
| `Rotation.ShutdownRotationCanMix` | src/partial_dataset.cpp:163-168 | Such a state is reachable |
| `GuardedHash.ReadsOwnCache` | src/mining_engine.cpp:676-692 | While a miner hashes and no rotation was skipped, every item it reads, published or derived, is the one its own cache gives |
| `GuardedHash.GuardedHashIsOneShot` | src/mining_engine.cpp:676-692 | A hash computed under the guard with a matching generation, its reads spread over any states of a run, is the one-shot hash for the miner's cache |
| `GuardedHash.ReportIsLive` | src/mining_engine.cpp:580-787 | The hash a worker reports is the one it computed under the guard, for the block carrying the reported nonce |
| `RotationLock.AlwaysSound` | include/armrx/partial_dataset.hpp:238-283 | In every run the counters count the threads, and whoever sleeps although it may enter has a notification on its way |
| `RotationLock.WriterIsAlone` | include/armrx/partial_dataset.hpp:238-283 | A writer never coexists with a reader or another writer |
| `RotationLock.SleepersNeverStall` | include/armrx/partial_dataset.hpp:238-283 | While anyone sleeps, some other thread can move |
| `RotationLock.QueuedWriterIsNotOvertaken` | include/armrx/partial_dataset.hpp:240-248 | While a writer is queued no thread joins the readers |
| `AesHash.FillAes` | src/aes_hash.cpp:43-88 | The buffer holds the generator's states line by line and the final state is returned |
| `AesHash.HashAes` | src/aes_hash.cpp:150-239 | The hash absorbs the lines in order and is finished twice |
| `AesHash.HashAndFillInterleaved` | src/aes_hash.cpp:372-509 | Hash of the old contents and fill of the new, also when both buffers are one |
| `AesHash.HashAndFill` | src/aes_hash.cpp:241-370 | The one-buffer loop hashes the old contents and leaves the fill |
| `AesHash.FilledUnique` | src/aes_hash.cpp:43-88 | A fill's content is determined by its seed |
| `AesHash.HashLanes` | src/aes_hash.cpp:150-239 | Each lane of the hash is the fold of its own blocks and the two finishing keys, encrypting in even and decrypting in odd lanes |
| `AesHash.FillLanes` | src/aes_hash.cpp:43-88 | Each lane of the generator is the fold of its own key, decrypting in even and encrypting in odd lanes |
| `AesHash.FilledBlocks` | src/aes_hash.cpp:43-88 | Block k of a filled buffer is k / 4 + 1 rounds of its lane away from the seed |
| `Pipeline.RunPrograms` | src/vm.cpp:992-1005 | Eight programs run in a chain, each seeded by the registers before it |
| `Pipeline.CalculateHash` | src/vm.cpp:981-1009 | The plain form computes the one-shot hash, whatever the scratchpad held |
| `Pipeline.CalculateHashPipelined` | src/vm.cpp:1011-1119 | The pipelined form computes the one-shot hash and prepares the next pad, with or without the skipped fill, interleaved or not, pads distinct or the same |
| `Nonce.UpdateNonce` | src/mining_engine.cpp:820-828 | The nonce is written little-endian at its offset, or the block is refused unchanged |
| `Nonce.ValueOfBytes` | src/mining_engine.cpp:820-828 | Reading the nonce field back gives the nonce cut to the field |
| `Nonce.DrawsNeverClash` | src/mining_engine.cpp:642-658 | Until the counter leaves the field no two draws of any workers stamp the same block |
| `MiningWorker.JobReady` | src/mining_engine.cpp:591-601 | A job change at any point leaves the worker's invariant intact |
| `MiningWorker.PrimeHash` | src/mining_engine.cpp:666-715 | The first hash of a job is the one-shot hash of its block, reported exactly when the job fits and the generation matches, and sets up the pipeline with the next draw |
| `MiningWorker.PipelinedHash` | src/mining_engine.cpp:716-787 | A pipelined hash is the one-shot hash of the block carrying the nonce held from the draw before, reported exactly when the job fits and the generation matches; the latest draw becomes the one held and the pads change roles |
| `MiningWorker.Mine` | src/mining_engine.cpp:580-787 | Over a whole run with any jobs and skipped turns, every report is correct, no draw is reported twice, each job gets one report for each of its matching turns while it fits, and with none skipped its draws are 0, 1, 2 and so on |
| `Argon2.ReferenceLegal` | src/argon2.cpp:333-345 | Every reference is in range, not the previous block, not at or after the current one in its segment, and already written in the first pass |
| `Argon2.WindowIsRecent` | src/argon2.cpp:333-345 | The blocks RFC 9106 allows are the most recent ones, the last excepted |
| `Argon2.WindowSize` | src/argon2.cpp:333-345 | The reference area is the number of blocks allowed |
| `Argon2.ReferenceDistance` | src/argon2.cpp:333-345 | The reference lies behind the current block by two and the distance the draw gives for a window of that many blocks, around the end of memory |
| `Argon2.ZeroDrawNewest` | src/argon2.cpp:333-345 | A zero draw names the block two before the current one |
| `Argon2.LargerDrawOlder` | src/argon2.cpp:333-345 | A larger draw never names a more recent block, for areas below 2^32 |
| `Argon2.FillBlock` | src/argon2.cpp:331-348 | One block is replaced by its value in the memory-free recursion |
| `Argon2.FillMemory` | src/argon2.cpp:327-351 | The nested in-place loops leave every block with the recursion's value |
| `Reciprocal.ReciprocalExact` | src/superscalar.cpp:704-720 | For every divisor neither zero nor a power of two the result is the exact quotient with the largest exponent that fits; nothing overflows and the top bit is set |
| `Target.DifficultyToTarget` | src/miner_app.cpp:45-57 | The bytes spell the wrapped long division's digits |
| `Target.TargetExactIff` | src/miner_app.cpp:45-57 | The target is floor((2^256-1)/d) if and only if no exact remainder outgrows 56 bits before the last digit, and never larger |
| `Target.SmallDifficultiesExact` | src/miner_app.cpp:45-57 | Every difficulty up to 2^56 is exact |
| `Target.LargeDifficultyInexact` | src/miner_app.cpp:45-57 | 2^57 is not |
| `Target.MeetsTarget` | include/armrx/mining_common.hpp:25-37 | The byte loop compares the two numbers |
| `Target.AcceptedIff` | include/armrx/mining_common.hpp:25-37 | Acceptance implies hash times difficulty at most 2^256-1, and is equivalent to it when the target is exact |
| `JitOperands.MovImmediateCorrect` | src/jit_compiler_a64.cpp:1445-1491 | For every immediate and literal count the register gets the sign-extended immediate, nothing else changes, and earlier literals stay |
| `JitOperands.AddImmediateCorrect` | src/jit_compiler_a64.cpp:1541-1573 | The emitted addition adds the sign-extended immediate, destination and temporary possibly the same |
| `JitOperands.SubImmediateCorrect` | src/jit_compiler_a64.cpp:1691-1719 | The emitted subtraction subtracts it, 0x80000000 included |
| `JitOperands.MemLoadCorrect` | src/jit_compiler_a64.cpp:1575-1623 | An integer memory operand is the interpreter's word, for every level, offset and register |
| `JitOperands.MemStoreCorrect` | src/jit_compiler_a64.cpp:2162-2190 | A store overwrites the interpreter's word and nothing else |
| `JitOperands.FpAddressCorrectIff` | src/jit_compiler_a64.cpp:1625-1642 | A floating-point load addresses the interpreter's word in every machine state if and only if its masked offset is not zero |
| `JitOperands.BranchImmAgrees` | src/jit_compiler_a64.cpp:2092-2101 | The 32-bit branch immediate, extended, is the interpreter's 64-bit one |
| `JitInteger.IntegerAgrees` | src/jit_compiler_a64.cpp:1656-1990 | For every integer instruction, literal count and machine state the emitted words leave the interpreter's registers and scratchpad and disturb nothing else |
| `JitInteger.RegistersAscend` | include/armrx/jit_contract.h:30-34 | The machine registers of the virtual registers are distinct and in order |
| `JitMachine.PerformRuns` | src/jit_compiler_a64.cpp:1656-1990 | Running straight-line words in place has their combined effect and ends behind them |
| `JitMachine.KnownInteger` | src/jit_compiler_a64.cpp:1656-1990 | No word of an integer instruction is taken for a branch, a test or a literal load |
| `JitSlots.RcpSlot` | src/jit_compiler_a64.cpp:1837-1877 | A reciprocal multiply multiplies by the reciprocal of its divisor, from a literal register or by a load from its slot |
| `JitSlots.LiteralRegsAscend` | src/jit_compiler_a64.cpp:1855-1861 | Reciprocals take their registers, and their slots, from the top downwards |
| `JitSlots.TestDecodes` | src/jit_compiler_a64.cpp:2103-2105 | The test word examines exactly the eight condition bits of the branch |
| `JitSlots.BranchSlot` | src/jit_compiler_a64.cpp:2092-2128 | The words of a branch add its immediate and go to the target when the interpreter takes the branch, else behind themselves |
| `JitProgram.SpotBounds` | src/jit_compiler_a64.cpp:925-961 | After k instructions the code is at most 16 k words long, at most k reciprocals and 64 short literals are out |
| `JitProgram.SlotRuns` | src/jit_compiler_a64.cpp:925-961 | One step of the interpreter is a run of one slot's words, for every instruction |
| `JitProgram.CodeRunsProgram` | src/jit_compiler_a64.cpp:925-961 | The assembled code of any program ends behind its last slot in the interpreter's final state |
| `JitAssembler.EmitRcp` | src/jit_compiler_a64.cpp:1849-1853 | A reciprocal is stored below the earlier ones, which stay, as does all code so far |
| `JitAssembler.Assemble` | src/jit_compiler_a64.cpp:925-961 | All words and literals end up in place, every branch going back to just behind its target's code |
| `JitAssembler.PrologueSuffices` | src/jit_compiler_a64_static.S:193-222 | The prologue's loads put every literal where the code expects it |
| `JitAssembler.CompiledProgramRuns` | src/jit_compiler_a64.cpp:925-961 | A program scheduled, assembled and loaded ends in the interpreter's final state on the original order, if its anchors are real writers |

## Left out

- Scheduler.ScheduledRunAgrees: the condition on anchors is sufficient, not necessary, for equal final states; a displaced instruction may happen to have no effect. Which instructions an emitted loop replays is characterised exactly by Emission.ScheduledLoopReplayedIff.
- Divergence.NopAnchorDiverges: shows one family of divergent runs, from every rest of the machine state.
- Nonce.UpdateNonce: for nonce fields wider than eight bytes the source shifts past the word width; the model writes zeros there. The sum of offset and size is taken without wrap-around.
- FillProtocol.StepSafe: a worker may notice cancellation before any item, not only between sub-chunks, and memory is sequentially consistent; a spurious failure of the weak exchange is a step that changes nothing.
- Rotation.MoveKeeps: taking the lock is one step when its condition holds; waiting and waking are the subject of RotationLock. Waiting for a fill to complete only removes runs and is not modelled. Starting the engine again after a stop is not modelled.
- SuperscalarGenerator.GenerateSuperscalar: a generation that runs out of answers is unfinished, which stands for rejection loops that never end. The log, and with it the byte counter, also holds macro-operations of instructions thrown away half-way, as the source's counters do. Instructions per cycle is not produced.
- A64.DecodeOp3: decoding covers the instructions emitted, not the whole instruction set.
- JitProgram.CodeRunsProgram: the words of floating-point instructions and of CFROUND are a parameter, at most 16 each, asked to do what the interpreter does. A floating-point load whose masked offset is zero does not (JitOperands.FpAddressCorrectIff).
- JitAssembler.PrologueSuffices: the loads of the prologue are taken as done; the main loop around the emitted body is not modelled.
- GuardedHash.GuardedHashIsOneShot: a program run is its 2048 item reads and a function between them.
- The assembly templates around the emitted bodies, page protection and cache flushing.
- IEEE-754 arithmetic, AES tables, BLAKE2b and the Argon2 permutation: function values here.
- Opcode decoding of the main program's instructions; register fields are taken already reduced modulo eight.
- The fast-mode dataset rebuild handshake in set_job, the asynchronous waits, affinity, timing and thermal code.
- Networking, configuration, metrics, user interface, benchmarks and tools.
