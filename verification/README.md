# Hyacinth, verified

Hyacinth takes a function in SSA form, gives every instruction a core, and emits one clone
of the function for each core. The clones exchange values through mailboxes that hold one
value each. This project models that compiler and proves what it is for: whatever order the
host and the cores run in, the clones together never get stuck and compute what the function
computes.

The project has five parts. `Hyac.Compile` is the driver that joins the OCaml ones: it partitions
every block and emits the function for the cores that came out, and its contract is the whole
compiler's: it says on which functions compilation breaks off, that the cores are those the
solver's answers decide, and that whatever these are, what comes out otherwise is a faithful
partitioning for them, without superfluous clones or mailboxes, unless a phi names one predecessor
twice with a value of another core.

**The transformation.** `Source` is the sequential meaning of an SSA function: phis, pure
operations, loads and stores over an abstract memory, branches and returns, for any meaning
of the operations. `Target` is the emitted program: cores, host and mailboxes, one step of
one actor at a time. `Emission`, `Passes`, `Assembly` and `Emitter` model the emitter as the
original has it, an object with builders and tables that three passes over the blocks fill
in, in the order of `BlockOrder`. `Emitter.EmitLlvm` proves that what comes out stands in the
relation `Correspondence.Implements` to the source, and is exact: `Demand` says what a placement
calls for, one clone of each instruction and one mailbox for each use of a value on another core,
and `Traffic` what that comes to in the emitted program. `Projection`, `CoreInvariant`,
`SystemInvariant` and `Progress` prove over that relation what every step keeps, and
`Partitioning` draws the conclusions: deadlock freedom, lock-step control, the same values,
memory and result, drained mailboxes, and the same outcome for every schedule.

The idea of the proof: every send and its receive are appended at one moment of emission, to
clones of one source block, the send's value being there already. So each block has one log,
every clone of the block is the log restricted to one core, and each send stands before its
receive. Of all cores that are behind the others, the one whose next instruction stands
first in the log can always run.

**The mailboxes.** `Mailbox` is the shared-memory mailbox byte by byte, with the spin loops of
both sides, under every interleaving. `ManycoreMailbox` is the version with remote stores
that arrive late. `OneSlot` says what a slot for one value is; both mailboxes are proved to be one,
step by step, and so is every mailbox of `Target`. `ByteRun` puts the two levels together: the
emitted program with all its mailboxes between cores as bytes in shared memory, every access to
one of them a step of its own. However these steps interleave, the program does what it does on
one-slot mailboxes, so it finishes with the sequential run's values, memory and result.

**The partitioner.** `Partition` has the OCaml partitioner's constraints and the object that
solves block after block; `Hyac` shows that its placements are what emission needs: a core of
the grid for every instruction and core 0 for loads and stores.

**The schedule search.** `Schedule` defines what the C++ partitioner's constraints say of a
schedule, for any table of what passing a value from core to core costs, and proves the bounds
between which the search looks. `SequentialSchedule` says when running a block in order on
core 0 is feasible. Which blocks have a schedule at all is settled by three modules:
`DependenceCycles` bounds what the ways through a block cost when no cycle costs anything,
`ScheduleExistence` turns that into a schedule on given cores, and `SchedulePins` says when the
pointers and aliasing accesses of earlier blocks leave such cores. `Search` has the binary and linear
searches and the OCaml loop over a solver that may give up. `Generator` is the object that
schedules block after block and remembers placements. `CostModel` is the grid and its distances.

**The workload.** `MergeSort` is the bitonic merge sort of the test programs.

What the proofs brought out:

- The binary search never finds an improvement of exactly one: with any bounds and any solver it
  returns nothing if the shortest schedule is at most one below the upper bound, and with a
  complete solver only then (`Search.BinarySearch`). So two independent unit operations are
  never put on two cores (`Generator.BinaryMissesTwins`).
- `src/LLVMSupport/SMTConstraintGenerator.cpp:242-244` keeps the symbolic communication cost in an
  `int`. The conversion z3++ offers for that goes by way of `bool` and gives 1, so what is
  asserted is a constant cost of one, within a core too, and the table of distances is never
  consulted. The statements about schedules hold for every table; `ConstantComms` is the one the
  source asserts, `GridComms` the one it builds. Under the constant, running a block in order
  needs work between each value and its use (`SequentialSchedule.SequentialByTable`).
- A function that returns a constant cannot be compiled: to send the value back it is stored in a
  stack slot of the function it belongs to, `src/emit_llvm.ml:123-126` looks for that function by way
  of the value's instruction block, and a constant has none (`Hyac.ReturnZeroFails`).
- The operands of phis are constrained like all others, so a block that is its own loop has no
  feasible schedule once the loop costs anything, in work or in passing values
  (`ScheduleExistence.CycleHasNoSchedule`). That and an instruction tied to two cores are the only
  obstacles: a block has a schedule exactly if its instructions can be given cores, as pointers and
  aliasing accesses demand, on which no cycle costs anything (`ScheduleExistence.ScheduleExists`).
  Under the asserted constant the choice of cores does not matter
  (`SchedulePins.ScheduleExistsAtConstantCost`); with distances, cycles must do no work and values
  passed around one must stay on a core (`SchedulePins.ScheduleExistsOnGrid`). Blocks without a
  schedule go to core 0.
- In the OCaml partitioner passing a value on costs at least one unit even within a core, so
  a chain of values takes that much more than its work (`Partition.ValueChainTakesTime`), and the
  sequential time, the first goal, is met in order on core 0 exactly if something of positive
  cost stands between each value and its use (`Partition.InOrderFits`). Two operations in a chain
  have no schedule within it on any grid (`Partition.PairNeverFits`) and go to core 0 at time 0.
- A phi that names a predecessor twice, as LLVM allows with equal operands, comes out with two
  different received values for it when the operand is on another core
  (`Assembly.EntriesAgree`). LLVM refuses such a module, and `src/emit_llvm.ml:774-776` ignores the
  refusal.
- The merge sort takes the branch for an incomplete last pair, which reads past the array,
  exactly when a non-empty array's length is not a power of two (`MergeSort.ElseBranchAvoided`).

Where code and comments differ the code is followed: the comment at
`src/pthreads/communication.c:68` has a mailbox as value and flag, the struct defined at
`src/emit_llvm.ml:77-85` has a word of padding behind them; the comment at
`src/bsg_manycore/bsg-device-communication.c:43-48` puts that padding right behind the flag, the
compiler places it at the next word boundary.

## Model

| member | source | states |
|---|---|---|
| Hyac.Compile | bin/hyac.ml:51-68 | for every well-formed function, grid and sound solver: the cores are those of placements that give each block what the solver's answers decide for it (`Partition.Decided`), the block being described to it instruction by instruction and operand by operand; compilation succeeds exactly if all blocks are reachable, no branch condition is a constant or argument and no constant is returned; the result then runs on exactly the cores that occur, all of the grid and launched, with each instruction cloned once and as many mailboxes as the placements call for; if the function has an instruction, it is a faithful partitioning exactly if no phi names a predecessor twice with a value of another core, in particular if every phi names each predecessor once |
| Hyac.ListsDescribe | src/partition.ml:152-178 | what the partitioner is told of a block are its phis, its other instructions and its return, in order, each with its opcode and, for each operand, the instruction it is, if it is one, and whether that is a pointer |
| Hyac.ReturnZeroFails | src/emit_llvm.ml:123-146 | the well-formed function that returns 0 is not compiled, on any grid and with any sound solver |
| Partitioning.DeadlockFreedom | src/emit_llvm.ml:372-488 | after any valid schedule of host and cores over one-slot mailboxes, loops included, either everything has finished or some actor can step |
| Partitioning.LockStepControl | src/emit_llvm.ml:446-488 | at any moment the blocks a core has visited are a prefix of the sequential run's block sequence |
| Partitioning.ValuesPreserved | src/emit_llvm.ml:569-594 | every value a clone has computed so far is the value the sequential run gives that instruction in that execution of its block |
| Partitioning.MailboxTraffic | src/emit_llvm.ml:183-203 | at any moment each mailbox between cores has been sent to as often as read or once more, and is full exactly in the latter case |
| Partitioning.MeaningPreserved | src/emit_llvm.ml:701-757 | a finished run has executed every clone in every execution of its block and nothing else, with the sequential memory trace and returned value; every mailbox is empty with sends and receives equal to the executions of its block, every argument mailbox and the return mailbox written once |
| Partitioning.RunsEnd | src/emit_llvm.ml:610-683 | if the sequential run ends, no schedule exceeds one fixed number of steps and exactly those of that length have finished |
| Partitioning.RunsComplete | src/emit_llvm.ml:610-683 | if the sequential run ends, every schedule can be continued until host and cores have finished |
| Partitioning.Determinacy | src/emit_llvm.ml:372-405 | any two finished runs have the same length, result, memory trace and computed values |
| Correspondence.StaticMatching | src/emit_llvm.ml:91-94 | each mailbox number has one send and one receive in the whole program, on two different cores in clones of one block, and the send was appended first |
| Correspondence.SendBeforeReceive | src/emit_llvm.ml:384-393 | in the order of appends of a block, the send of a mailbox precedes its receive |
| SystemInvariant.ReachableOk | src/emit_llvm.ml:372-488 | cores in step, mailboxes holding the value owed, memory, return and argument state agreeing with the sequential run hold in every reachable state |
| SystemInvariant.StepKeepsMailbox | src/emit_llvm.ml:183-203 | any instruction of any core keeps every mailbox's traffic within one and its content the value owed to the next receive |
| SystemInvariant.StepKeepsMemory | src/partition.ml:187-189 | with memory operations on core 0 the shared memory is always that of the sequential run up to core 0's position |
| SystemInvariant.StepKeepsReturn | src/emit_llvm.ml:574-586 | the return mailbox is written at most once and only with the value the run returns |
| SystemInvariant.HostStep | src/emit_llvm.ml:675-683 | the host's argument sends, its receive of the result and its join keep the whole invariant |
| SystemInvariant.PrologueStep | src/emit_llvm.ml:350-370 | an argument receive delivers the argument's value and leaves the mailbox as it was |
| CoreInvariant.PhiValue | src/emit_llvm.ml:407-444 | on every edge a phi's clone evaluates to the value the sequential run gives the phi on that edge |
| CoreInvariant.SameDestination | src/emit_llvm.ml:446-453 | every core's branch leads to the block the sequential run goes to |
| CoreInvariant.EvalAgrees | src/emit_llvm.ml:372-397 | a rewritten operand reads on its core the value of the source operand |
| Progress.CanStep | src/pthreads/communication.c:69-102 | in every state the invariant allows, unless all is finished, an actor that is not waiting exists |
| Progress.StepWork | src/emit_llvm.ml:610-683 | every step of any actor is one unit of a bounded amount of work |
| Emitter.EmitLlvm | src/emit_llvm.ml:701-757 | emission succeeds exactly if all blocks are reachable, every instruction has a core, no branch condition is a constant or argument and no constant is returned; the emitted program is then for exactly the cores that occur, has on each core and block the clones of the instructions placed there, in order and each once, and has as many mailboxes for each block, pair of cores and value as the operands used across cores call for, and an argument mailbox only for a core that uses the argument; if anything is placed, it is a faithful partitioning exactly if no phi names a predecessor twice with a value of another core; no other core is launched, and all are if each placed value is an instruction of the function |
| Demand.ClonedOnce | src/emit_llvm.ml:590-594 | in a program with the clones of `EmitLlvm`, each body instruction has exactly one clone: on its core, in the clone of its block, at one position, and nowhere else in the program |
| Traffic.MailboxesAreUses | src/emit_llvm.ml:372-397 | in an exact program (what `EmitLlvm` ensures) a mailbox for a value, a block and two cores exists exactly if the value is placed on the one core and used on the other in that block: by an instruction, a return, a phi of a successor or a branch |
| Traffic.ArgumentsAreUses | src/emit_llvm.ml:350-370 | a core is passed an argument exactly if some instruction, return, phi or branch uses it there |
| Traffic.OperandMailboxes | src/emit_llvm.ml:399-405 | an instruction calls for as many mailboxes as it has operands from other cores, repeated ones counted |
| Traffic.EntryMailboxes | src/emit_llvm.ml:408-436 | a phi calls for as many mailboxes as it has entries from other cores |
| Traffic.BranchMailboxes | src/emit_llvm.ml:214-230 | a conditional branch calls for one mailbox for every core but that of its condition |
| Traffic.AllMailboxes | src/emit_llvm.ml:91-94 | in all an exact program has as many mailboxes between cores as its instructions, phis, returns and branches call for |
| Demand.SumOfAll | src/emit_llvm.ml:742-747 | what the blocks call for does not depend on the order in which they are visited |
| Emitter.NonemptyPartitions | src/emit_llvm.ml:520-522 | the cores that occur in the placement, ascending, each once |
| Emitter.Emitter.constructor | src/emit_llvm.ml:497-518 | an empty clone of every block for every core, nothing mapped, no mailbox of either kind |
| Emitter.Emitter.NewCommsAddr | src/emit_llvm.ml:91-94 | a mailbox under a number that neither a mailbox between cores nor an argument mailbox has had |
| Emitter.Emitter.ReceiveThenSend | src/emit_llvm.ml:384-393 | one new mailbox, its receive at the end of the user's clone and its send at the end of the definer's clone of the same block, nothing else changed |
| Emitter.Emitter.SendThenReceive | src/emit_llvm.ml:422-430 | the same exchange whichever end is appended first |
| Emitter.Emitter.ReceiveArgFromHost | src/emit_llvm.ml:350-370 | at most one mailbox per core and argument; a new one is read first in the core's entry block and written last by the host |
| Emitter.Emitter.ReplaceOperand | src/emit_llvm.ml:372-397 | a mapped operand is rewritten to something that reads its value at that point of that core's clone, with one new mailbox exactly if it is on another core and none otherwise; an unmapped one is left as it was |
| Emitter.Emitter.FetchIncoming | src/emit_llvm.ml:408-436 | the value a phi takes from a predecessor can be read at the end of the predecessor's clone on the phi's core, with one new mailbox exactly if it is on another core |
| Emitter.Emitter.EmitInst | src/emit_llvm.ml:590-594 | the next body instruction is cloned once more, on its core and on no other, with all operands readable, memory operations in order, and one new mailbox for each operand of another core |
| Emitter.Emitter.EmitBody | src/emit_llvm.ml:721-740 | a block's body is cloned: on each core the clones of its instructions placed there, in order and once, and no more mailboxes than their operands call for |
| Emitter.Emitter.CreatePhis | src/emit_llvm.ml:587-589 | each core's clone of a block has exactly the block's phis of that core, in order and empty |
| Emitter.Emitter.CallSendReturn | src/emit_llvm.ml:175-181 | the returned value is sent to the host once, by the core of the return, with one new mailbox if it is on another core, or emission breaks off, exactly if it is a constant |
| Emitter.Emitter.EmitReturn | src/emit_llvm.ml:573-586 | a returned value has been sent to the host once and every core's clone of the block ends, or emission breaks off, exactly if a constant is returned |
| Emitter.Emitter.EmitBlock | src/emit_llvm.ml:721-745 | after the first pass a block has all its clones, phis and return, each instruction cloned once and as many new mailboxes as operands from other cores, and other blocks are untouched; the pass breaks off exactly if the block returns a constant |
| Emitter.Emitter.EmitStraightline | src/emit_llvm.ml:742-747 | the first pass emits every block, each instruction once, with the mailboxes their operands call for, and launches the core of every instruction, or breaks off, exactly if some block returns a constant |
| Emitter.Emitter.RepairPhi | src/emit_llvm.ml:437-444 | a phi gets one entry per source entry, each naming the same predecessor and readable there, through a mailbox of its own if the value is on another core; entries for one predecessor agree exactly if they need no mailbox |
| Emitter.Emitter.RepairPhis | src/emit_llvm.ml:753-754 | after the second pass all phis of all blocks are filled, with one new mailbox for each entry from another core, and the first pass's results still hold |
| Emitter.Emitter.BroadcastValue | src/emit_llvm.ml:214-230 | every core can read the branch condition at the end of its clone of the block, with one new mailbox for each core but the condition's own |
| Emitter.Emitter.RepairBranch | src/emit_llvm.ml:455-488 | every core's clone of the block ends in the source's branch with the same destinations, with mailboxes for its condition only |
| Emitter.Emitter.RepairBranches | src/emit_llvm.ml:756-757 | the third pass completes every block, with the mailboxes the conditions call for, or fails exactly when a branch condition is no instruction |
| Assembly.CompleteImplements | src/emit_llvm.ml:742-757 | what the three passes establish block by block makes the whole program a faithful partitioning exactly if repeated phi entries are local |
| Assembly.CompleteIsExact | src/emit_llvm.ml:742-757 | such a program translates the source and has each clone, phi, terminator and argument receive once, and for each block, pair of cores and value as many mailboxes as are called for |
| Assembly.EntriesAgree | src/emit_llvm.ml:407-444 | the repaired entries of a phi for one predecessor agree exactly if the repeated operand is a constant, an argument or a value of the phi's own core |
| Passes.UsesFromOrder | src/emit_llvm.ml:742-752 | in the order of the block sort, every operand of a block that is not a phi's is defined there or mapped already |
| Emission.PairKeeps | src/emit_llvm.ml:384-393 | sending a value its core already has keeps logs, clones and mailboxes consistent |
| BlockOrder.ExploreFromEntry | src/sort_basic_blocks.ml:13-20 | the search ends on every graph and lists exactly the reachable blocks, once each, the entry first and each block after all its dominators |
| BlockOrder.SortBlocksSpec | src/sort_basic_blocks.ml:22-25 | sorting succeeds exactly if every block is reachable, and then lists every block once in dominance order |
| BlockOrder.OutgoingEdges | src/sort_basic_blocks.ml:5-11 | exactly the successors of the block other than itself, all of them blocks of the graph |
| Mailbox.MailboxSafety | src/pthreads/communication.c:69-115 | under any interleaving of byte steps the k-th value loaded is the k-th value sent, and sends minus frees is 0 or 1 and agrees with the ready flag |
| Mailbox.StepKeeps | src/pthreads/communication.c:69-102 | no step of either side tears, loses or repeats a value |
| Mailbox.RefinesSlot | src/pthreads/communication.c:69-115 | each byte step is a step of the one-slot mailbox (put at the flag being set, take at its being cleared) or none |
| Target.StepsAreSlotSteps | src/emit_llvm.ml:183-203 | every step of a core or the host is, for each mailbox of the emitted program, a step of the same one-slot mailbox or none |
| Mailbox.Progress | src/pthreads/communication.c:74-99 | until all messages have been freed one side is not spinning, and each effective step is one unit of work |
| Mailbox.SoloSend | src/pthreads/communication.c:69-86 | an undisturbed send into an empty mailbox fills it with its message in size + 2 steps |
| Mailbox.Slot.VolatileCopy | src/pthreads/communication.c:23-30 | the value bytes become the source's and the flag byte is untouched |
| Mailbox.Slot.Send | src/pthreads/communication.c:80-85 | an empty slot becomes full with the given value |
| Mailbox.Slot.Receive | src/pthreads/communication.c:88-106 | what is handed out is the slot itself, holding its value |
| Mailbox.Slot.FreeComms | src/pthreads/communication.c:108-115 | the slot is empty and its value bytes are left alone |
| ByteRun.BytesRefineSlots | src/pthreads/communication.c:69-115 | however the accesses to all mailboxes between cores, byte by byte, and the other steps of the cores and the host interleave, the instructions completed form a valid schedule over one-slot mailboxes, and the state seen through the flags is the one that schedule leads to, provided the values the sequential run passes on survive being stored |
| ByteRun.BytesPreserveMeaning | src/pthreads/communication.c:69-115 | a finished run of the program on such mailboxes is the sequential run: same values, memory trace and result; every flag is clear and no core is in the middle of a send or receive |
| ByteRun.BytesDeadlockFree | src/pthreads/communication.c:69-102 | whatever has been copied or loaded so far, until all is finished some actor completes an instruction if it is given enough steps |
| ByteRun.BytesComplete | src/pthreads/communication.c:69-115 | if the sequential run ends, every interleaving can be continued until host and cores have finished |
| ByteRun.StepRefines | src/pthreads/communication.c:69-115 | every access keeps what each core has copied or loaded in agreement with the mailbox it is at, and is seen through the flags as one step of the program on one-slot mailboxes or as none |
| ByteRun.FittingValuesSurvive | src/pthreads/communication.c:23-30 | with integers stored least significant byte first, every value passed on survives being stored if it fits in the bytes of its mailbox |
| ByteRun.SendIsSenderStep | src/pthreads/communication.c:69-87 | what a core at a send does to its mailbox is the sender's step of `Mailbox`, and ends the send when that does |
| ByteRun.ReceiveIsReceiverStep | src/pthreads/communication.c:88-115 | what a core at a receive does to its mailbox is the receiver's step of `Mailbox`, the end of the load and the clearing of the flag taken together |
| ManycoreMailbox.CopyCovers | src/bsg_manycore/bsg-device-communication.c:49-50 | for every size the rounded copy covers value and flag, ends with the flag's word and stays inside the padded struct |
| ManycoreMailbox.ReadyWordInside | src/bsg_manycore/bsg-device-communication.c:59-60 | the polled word lies in the struct for all sizes exactly if the struct is word-aligned |
| ManycoreMailbox.ManycoreSafety | src/bsg_manycore/bsg-device-communication.c:41-100 | under any interleaving and delay of remote stores the k-th value loaded is the k-th sent, and the flag agrees with arrivals minus frees |
| ManycoreMailbox.FlagLandsLast | src/bsg_manycore/bsg-device-communication.c:73-76 | the flag arrives when every byte of its value has, and whatever arrives later changes neither |
| ManycoreMailbox.StaysInside | src/bsg_manycore/bsg-device-communication.c:61-76 | no run writes the last word of the struct at either end, and no store in flight aims there |
| ManycoreMailbox.RefinesSlot | src/bsg_manycore/bsg-device-communication.c:41-100 | each step, arrivals included, is a step of the same one-slot mailbox or none |
| ManycoreMailbox.Progress | src/bsg_manycore/bsg-device-communication.c:61-85 | every step but a poll is one unit of work, and such a step exists exactly until all messages have been sent and freed and all stores have arrived |
| ManycoreMailbox.SenderKeeps | src/bsg_manycore/bsg-device-communication.c:61-76 | every step of a send keeps the local image, the stores in flight and the remote struct in agreement |
| Schedule.SumTotalTime | src/LLVMSupport/SMTConstraintGenerator.cpp:347-353 | the sum of the costs of the block |
| Schedule.AreaBound | src/LLVMSupport/SMTConstraintGenerator.cpp:142-199 | in a feasible schedule the block's total cost is at most cores times latest time |
| Schedule.OneCoreBound | src/LLVMSupport/SMTConstraintGenerator.cpp:188-199 | on a one-core grid no feasible schedule ends before the sum of the costs |
| Schedule.CriticalPath | src/LLVMSupport/SMTConstraintGenerator.cpp:355-387 | the loop computes the longest path cost of the block |
| Schedule.NoneHeavier | src/LLVMSupport/SMTConstraintGenerator.cpp:355-387 | no dependence chain of the block weighs more than the critical path |
| Schedule.HeaviestChain | src/LLVMSupport/SMTConstraintGenerator.cpp:355-387 | some dependence chain weighs exactly the critical path |
| Schedule.ChainTakesTime | src/LLVMSupport/SMTConstraintGenerator.cpp:201-246 | in a feasible schedule a chain's last instruction ends no earlier than the chain's cost |
| Schedule.ValueTakesDistance | src/LLVMSupport/SMTConstraintGenerator.cpp:201-246 | with distances as costs, a value from another core is used no sooner after it is ready than the steps of a shortest walk between the two cores |
| Schedule.BoundsHold | src/LLVMSupport/SMTConstraintGenerator.cpp:33-40 | the critical path is at most the sum, and at most the latest time of every feasible schedule |
| SequentialSchedule.SequentialFeasible | src/LLVMSupport/SMTConstraintGenerator.cpp:142-246 | for any table of passing costs, running the block in order on core 0 satisfies every constraint exactly if there is room to pass on each value of the block and values, pointers and aliasing accesses from earlier blocks allow it; it ends at the sum |
| SequentialSchedule.EarlyExitIsOptimal | src/LLVMSupport/SMTConstraintGenerator.cpp:36-40 | when the bounds meet no schedule is shorter than the sum; running a self-contained block in order takes the sum and is feasible exactly if its values have room to be passed on, with distances as costs always |
| SequentialSchedule.SequentialByTable | src/LLVMSupport/SMTConstraintGenerator.cpp:228-245 | spelled out: with distances as costs a value of the block only has to come before its use, with the asserted constant something of positive cost has to stand between them |
| ScheduleExistence.ScheduleExists | src/LLVMSupport/SMTConstraintGenerator.cpp:142-246 | for any table of passing costs, a block has a feasible schedule exactly if its instructions can be given cores of the grid, as pointers and aliasing accesses demand, on which no cycle of instructions costs anything, in work or in passing values |
| ScheduleExistence.LayoutFeasible | src/LLVMSupport/SMTConstraintGenerator.cpp:142-246 | any such cores are those of a feasible schedule |
| ScheduleExistence.ScheduledCyclesAreFree | src/LLVMSupport/SMTConstraintGenerator.cpp:201-246 | on the cores of a feasible schedule no cycle of instructions costs anything |
| ScheduleExistence.CycleHasNoSchedule | src/LLVMSupport/SMTConstraintGenerator.cpp:211-245 | whatever the table, a cycle that costs anything at the cheapest passing cost rules out every schedule |
| ScheduleExistence.SelfLoopHasNoSchedule | src/LLVMSupport/SMTConstraintGenerator.cpp:211-245 | in particular a cycle with an instruction of positive cost does |
| ScheduleExistence.CounterHasNoSchedule | src/LLVMSupport/SMTConstraintGenerator.cpp:211-245 | a one-block counting loop is such a block |
| SchedulePins.CoresExist | src/LLVMSupport/SMTConstraintGenerator.cpp:170-246 | the instructions can be given the cores pointers and aliasing accesses demand exactly if none is tied, by itself or through pointers passed within the block, to two cores |
| SchedulePins.ScheduleExistsAtConstantCost | src/LLVMSupport/SMTConstraintGenerator.cpp:228-245 | with the asserted constant, a block has a schedule exactly if no instruction is tied to two cores and no cycle holds an instruction of positive cost or passes a value |
| SchedulePins.ScheduleExistsOnGrid | src/LLVMSupport/SMTConstraintGenerator.cpp:142-246 | with distances as costs, exactly if no cycle holds an instruction of positive cost and no instruction is tied to two cores, where being passed a value around a cycle ties like being passed a pointer |
| SchedulePins.ScheduleExistsOnOneCore | src/LLVMSupport/SMTConstraintGenerator.cpp:142-246 | for any table in which one core passes values to itself as cheaply as any two do, a block tied to no other core has a schedule exactly if no cycle costs anything there |
| SchedulePins.ConflictHasNoSchedule | src/LLVMSupport/SMTConstraintGenerator.cpp:170-246 | whatever the table, an instruction tied to two cores rules out every schedule |
| SchedulePins.PinnedTwiceHasNoSchedule | src/LLVMSupport/SMTConstraintGenerator.cpp:232-237 | in particular one that uses pointers placed on two different cores does |
| SchedulePins.OrderedIsFeasible | src/LLVMSupport/SMTConstraintGenerator.cpp:170-246 | whatever the table, a block whose operands precede their uses has a schedule exactly if no instruction is tied to two cores |
| Search.BinarySearch | src/LLVMSupport/SMTConstraintGenerator.cpp:76-109 | for any sound solver it asks at most max(1, ceil(log2(upper - lower))) questions and returns only a feasible schedule below the upper bound, and none if none is shorter than the bound by more than one; with a complete one it settles at most one above the shortest and returns none only then; an answer to the first question is never lost and the result is one of the answers |
| Search.CeilLog2Is | src/LLVMSupport/SMTConstraintGenerator.cpp:86-107 | the bound on questions is the logarithm to base two, rounded up |
| Search.LinearSearch | src/LLVMSupport/SMTConstraintGenerator.cpp:50-74 | goals strictly decrease, at most upper - lower + 1 of them; with a complete solver the result is the shortest schedule below the upper bound, and none exactly if there is none; whatever the solver, each goal is the latest time of the answer before it and the result is the last answer |
| Search.SearchesAgree | src/LLVMSupport/SMTConstraintGenerator.cpp:42-47 | with a complete solver the two strategies settle at most one apart, the binary never lower |
| Search.LoopFindsShortest | src/partition.ml:240-250 | the OCaml loop returns only feasible schedules within its first goal, and with a complete solver the shortest, or none exactly if there is none; whatever the solver, it returns one of the answers, and none exactly if the first question has none |
| Generator.IncrementalPartitioning | src/LLVMSupport/SMTConstraintGenerator.cpp:30-48 | a feasible schedule shorter than the sum or none; with a complete solver within 0 (linear) or 1 (binary) of the shortest, counting none as the sum, and none exactly if nothing is shorter than the sum by more than that; on one core always none; what it returns is an answer of the solver, and there is something to return if the first question is answered |
| Generator.BinaryMissesTwins | src/LLVMSupport/SMTConstraintGenerator.cpp:86-106 | two independent unit operations have a schedule of length 1 on two cores, half their sum, and the binary search returns none with every sound solver |
| Generator.AssignToCoreZero | src/LLVMSupport/SMTConstraintGenerator.cpp:291-311 | in whatever order the map is iterated, all instructions go to core 0 without overlap and fill the time up to the sum without a gap |
| Generator.SMTConstraintGenerator.ConstructSymbolicPlacements | src/LLVMSupport/SMTConstraintGenerator.cpp:412-417 | each instruction of the block has the symbolic placement of its index, and nothing else has one |
| Generator.SMTConstraintGenerator.AddConcretePlacements | src/LLVMSupport/SMTConstraintGenerator.cpp:288-322 | in whatever order, every instruction of the block is placed, and earlier placements stay as they were |
| Generator.SMTConstraintGenerator.PartitionInstructionsInBlock | src/LLVMSupport/SMTConstraintGenerator.cpp:407-428 | the block's instructions are added as the search decides: a feasible schedule the solver answered with, shorter than the sum, or core 0 without overlap; an answer whenever the first question has one; core 0 if no schedule gains enough for the strategy to find it; and with a complete solver, if one does, an answer within the strategy's 0 or 1 of the shortest; cores in range, end = start + cost, no overlap on a core; earlier placements are unchanged; the block-local state is empty again |
| Generator.SMTConstraintGenerator.PartitionInstructionsInModule | src/LLVMSupport/IRReader.cpp:40-57 | after all blocks exactly the instructions of the blocks are placed, each block without overlap on a core and as its search decides, given the placements of the blocks before it |
| Hyac.PartitionedFunction | src/partition.ml:187-201 | what the partitioner leaves for a whole function gives every instruction a core of the grid, memory operations core 0, and places nothing that is no instruction |
| Hyac.BlocksApart | src/llvm_in.ml:5-22 | the lists handed to the partitioner hold exactly the instructions of their blocks but the branches, each once and in one list |
| Partition.Partitioner.SolveDfg | src/partition.ml:283-321 | a block that takes time is placed as the solver answered, within the sequential time and meeting the constraints, exactly if the first question has an answer, and otherwise on core 0 at time 0; all other placements are those passed in; with a complete solver and a positive sequential time the schedule is the shortest, and is missed only if there is none |
| Partition.Partitioner.SolveBlocks | bin/hyac.ml:58-59 | every block is placed as `SolveDfg` says of it, the placements of the blocks before it being those it is solved against; every instruction is on a core of the grid, loads and stores on core 0, and nothing else is placed |
| Partition.Partitioner.AddPlacements | src/partition.ml:272-279 | the i-th instruction has the i-th placement and every other placement is as before |
| Partition.SolvedOnGrid | src/partition.ml:187-201 | whether a schedule was found or not, cores are in range and loads and stores on core 0 |
| Partition.InOrderFits | src/partition.ml:127-205 | running the block in order on core 0 meets the constraints exactly if something of positive cost stands between each value of the block and its use (a pointer needs only be complete) and earlier values are there in time |
| Partition.ValueChainTakesTime | src/partition.ml:127-150 | in any schedule that meets the constraints a chain of values takes its cost and one unit more for each value passed on |
| Partition.ValueTakesDistance | src/partition.ml:95-150 | in any schedule that meets the constraints a value is used no sooner than one unit after it is ready, and one more for every five steps of a shortest walk between the two cores |
| Partition.PairNeverFits | src/partition.ml:95-96 | a chain of two operations has no schedule within its sequential time on any grid |
| CostModel.GridBijection | src/LLVMSupport/CostModel.cpp:34-38 | core numbers and grid coordinates correspond one to one on every grid |
| CostModel.ColumnBijection | src/partition.ml:90-93 | so do they under the OCaml partitioner's numbering |
| CostModel.CommunicationIsMetric | src/LLVMSupport/CostModel.cpp:40-47 | the communication cost is a metric on the cores, at most rows + columns - 2 |
| CostModel.CostIsDistance | src/LLVMSupport/CostModel.cpp:40-47 | the cost is the length of a shortest walk between the two cores on the grid, from neighbour to neighbour: no walk is shorter and one inside the grid is as long |
| CostModel.ManhattanIsDistance | src/partition.ml:90-96 | the OCaml cost is one more than a fifth, rounded down, of the length of such a walk under the column-wise numbering |
| CostModel.FurthestCores | src/LLVMSupport/CostModel.cpp:40-47 | the bound is reached between the first core and the last |
| CostModel.RelayNeverCheaper | src/partition.ml:95-96 | the OCaml cost is symmetric, 1 even from a core to itself, and a relay never beats a direct send |
| MergeSort.Sort | tests/merge-sort.c:16-83 | an array of power-of-two length, or an empty one, is sorted and a permutation of what it was |
| MergeSort.MergePass | tests/merge-sort.c:24-82 | one pass turns sorted runs of one length into half as many of twice the length |
| MergeSort.LayOut | tests/merge-sort.c:32-38 | the first run is laid out as it is, the second reversed behind it |
| MergeSort.MergeBack | tests/merge-sort.c:40-53 | the stretch is replaced by taking the smaller end of the layout, the front on a tie, and nothing else changes |
| MergeSort.MergeSorts | tests/merge-sort.c:40-53 | taking ends off two sorted runs laid out so gives a sorted permutation of them |
| MergeSort.TakeEndsSorts | tests/merge-sort.c:40-53 | it sorts anything in which no element lies below both a front and a back neighbour |
| MergeSort.ElseBranchAvoided | tests/merge-sort.c:24-54 | the branch for an incomplete pair is avoided exactly for an empty array and for power-of-two lengths |

## Left out

- Hyac.Compile: one included function that the LLVM verifier accepts (unique definitions, uses dominated, phi entries naming predecessors, equal operands where one is named twice); other functions of the module, terminators other than branches and returns, allocas turned into globals, global variables and pointer arguments on the manycore are not modelled. A call to a defined function that is not included stops the original at `src/emit_llvm.ml:596-602`, an undefined operand in the partitioner at `src/partition.ml:175-178`; neither is an input here. The other way to a placement, reading it from the C++ partitioner's metadata, is left out: nothing there puts memory operations on core 0.
- Emitter.EmitLlvm: requires memory operations on core 0, which `Hyac.PartitionedFunction` proves of the OCaml partitioner.
- Emitter.Emitter.ReceiveArgFromHost: the argument receives at the head of an entry block are kept as a prologue of the core that runs once; the entry block of a function has no predecessor, so it is never entered again.
- Generator.AssignToCoreZero: says nothing of dependences, because the fallback's times follow the order of a map keyed by address, not the order of the block.
- Generator.SMTConstraintGenerator.PartitionInstructionsInBlock: takes the table of passing costs as given and total; the one that `src/LLVMSupport/SMTConstraintGenerator.cpp:324-333` fills in has only pairs (row, column), and is not consulted. The headers of z3++ are not part of this model.
- ScheduleExistence.ScheduleExists: follows what `src/LLVMSupport/SMTConstraintGenerator.cpp:222-229` intends for an operand from an earlier block, its core and time 0; the code keeps the addresses of both beyond the blocks they are local to.
- Partition.Partitioner.SolveDfg: the table of distances only; the debugging mode that states the distance to the solver as a formula, with another grid layout, is left out.
- ByteRun.BytesRefineSlots: mailboxes in sequentially consistent shared memory; the one of `ManycoreMailbox` meets the cores in the one-slot mailbox only. Argument and return mailboxes, written once, stay slots.
- Mailbox.MailboxSafety: memory is sequentially consistent; one sender and one receiver per mailbox, which `Correspondence.StaticMatching` proves of emitted programs. Argument and return mailboxes are the same code without the free and are used once.
- ManycoreMailbox.ManycoreSafety: remote stores of one core arrive in order, a remote load returns after them, and a store to local memory is seen at once.
- Mailbox.Slot.Send: starts behind the spin loop, since no one else runs in a method; the loop itself is in `Mailbox.SenderNext`.
- MergeSort.Sort: the branch for an incomplete pair is not given a body, since it reads past the array; it is proved unreachable instead.
- Repeated invocation in one process: argument and return mailboxes are never freed by the original.
- Operations are any functions of their operands, memory operations of the whole history of memory operations; integers are unbounded, and calls are pure unless they count as memory operations.
- Z3, its timeouts and its push and pop: an oracle that is sound, and complete where a statement says so.
- Thread creation and joining beyond the host waiting for all cores; host code, tile groups and address lookup of the manycore; assignment of functions to tiles.
- Values that are neither integers, doubles nor pointers, for which `src/emit_llvm.ml:137-163` passes the value itself as an address.
- LLVM mechanics: stack slots for sent values, bitcasts, metadata, linkage, data layout, debug calls, alias analysis (a relation between instructions here).
- `src/LLVMSupport/CloneAndReplaceArguments.cpp`, `src/consume_module.cpp` and the mock and test versions of the communication library: unfinished or stubs.
