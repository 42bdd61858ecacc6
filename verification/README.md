# Machines, allocator, cache and assemblers: a verified model

This project models the laboratory code of a computer-systems course and proves what the code is for.
`dafny verify dfyconfig.toml` (Dafny 4.11) verifies the whole project.

- **Y86-64 processors** (`lab6/sim`). `Isa` is the instruction set as a step function, `IsaManual` says what
  a step does for each instruction's bytes, in numbers, `IsaSim` is the interpreter that updates registers and memory in
  place. `Seq` and `SeqSim` are the one-cycle machine whose updates are applied at the start of the next step. `Pipe` and `PipeSim` are the five-stage pipeline with forwarding, stalls, bubbles,
  branch prediction and load-to-store forwarding; `PipeIdeal`, `PipeProof`, `PipeSquash`, `PipeRuns` and
  `PipeHazards` prove it against the instruction set.
- **Allocator** (`lab10/mm.c` over `memlib.c`). `MmHeap`, `MmShape` and `MmOps` give the invariant on the array of
  header words and links and what each operation does to it; `MmAlloc` is the allocator as an object with the
  methods of the C file; `MmRuns` draws the consequences for readers of the heap, `MmStore` those for any program that
  allocates, resizes, frees and writes, and `MmDriver` those for whole traces: when the driver's correctness test
  (`mdriver.c`) passes, and when it rejects a heap that is in order.
- **Assemblers and loaders** (`lab5/y64asm.c`, `lab6/sim/misc/yas.c`, `lab4/y64sim.c`, `isa.c`). `Asm` says what a
  program means; `AsmOnePass` is one pass with a relocation list, `AsmTwoPass` two passes over a shared buffer;
  `AsmImage` ties both to the memory image and to the simulator's fetch, `AsmListing` prints and loads listings.
  `AsmManual` is the table of instructions and their bytes, `LoadGrammar` the shape of lines that load.
- **Cache simulator, transposition, sampler** (`lab8/csim.c`, `lab8/trans.c`, `lab10/fcyc.c`). `Lru` and `CacheSim`,
  with `LruHistory`, which says from the trace alone when a visit hits, misses or evicts; `Transpose`; `KBest`.

Code that changes state step by step is a class or a method with loops, proved equal to a function or predicate;
what the source promises is then proved about those functions.

## Conditions, and findings

**One-cycle machine.** Both processors take the ALU function of `iaddq` from the instruction's function field
(seq-full.c:88-92); they implement it if and only if that field is 0 (`Control.IaddqFunction`). Nothing else is needed
for the one-cycle machine.

**Pipeline.** `PipeProof.PipeRun` is the condition on a run of the interpreter, which may go on for ever, halt or fault.
The last instruction given is unrestricted; every other one completes and
- has the byte at pc + 5 (the pipeline always fetches that far, `PipeHazards.FetchWindow`), and function 0 if it is `iaddq`.

For all of them
- none of an instruction's own bytes is changed by one of the three instructions before it;
- an operand that names no register (a memory access without a base register, an ALU field of 15) is not preceded by a
  result that forwarding takes for it. Register number 15 matches every pending write without a destination, and the
  operand is right if and only if the first such write carries 0 (`PipeHazards.NoBaseForwarded`, for all stage
  contents). `PipeProof.NoneValue` is that write among the three instructions before, with the bubbles of `ret` and of
  load-use stalls counted in. So `irmovq $1,%rbx; irmovq $2,%rcx; rmmovq %rcx,0x200` is inside the theorem, and
  `mrmovq 8(%rsi),%rax; irmovq $1,%rbx; rmmovq %rbx,0x100`, whose store goes to 0x100 + 8 + %rsi, is not;
- two adjacent pairs, which go wrong because `rmmovq` is never stalled, do no harm: a load or pop of the base register of
  the `rmmovq` behind it, and a pop of the register that `rmmovq` stores. `PipeHazards` shows for each pair that the
  pipeline is right if and only if the loaded value equals the old one, and the condition asks just that
  (`PipeProof.StoreHazard`).

Under the first condition a well-formed instruction ends with the interpreter's status; one that is not (a register field
of 15 where the interpreter insists on a register, missing operand bytes) is always rejected by the interpreter, while the
pipeline completes it unless its memory access fails (`PipeIdeal.StatusExact`). At a fault the interpreter has already
moved the stack pointer of a `pushq`, `call` or `popq`, and the pipeline has not, so the simulator's own `-t` comparison
fails on exactly those programs (`PipeSim.CheckSucceedsIff`). No condition on the limits is needed: a run that ends never
loses an update to them (`PipeRuns.SuppressionHarmless`), and one that is cut off shows nothing of an instruction beyond
the limit (`PipeRuns.LimitFromReset`). `PipeSquash` needs no condition at all: for any contents of the machine nothing
behind a halt or fault, and nothing on the wrong path of a branch, takes effect.
`PipeExample` shows a halting program and an endless one within the conditions.

The comment at psim.c:745-750 says that `max_instr` limits completed instructions and that the result counts them. The code
counts cycles: `gen_Stat` turns the bubble status into AOK (pipe-full.c:221-224), so a cycle with a bubble in write-back
counts like an instruction. The reported count is that of completed instructions plus that of bubbles
(`PipeRuns.CountsBubbles`); it equals the first exactly if not a single cycle is simulated, because the first one always
has a bubble (`PipeRuns.CountIsCompletedIff`); and a cycle limit not below the instruction limit has no effect
(`PipeRuns.InstructionLimitCountsCycles`). The model follows the code.

**Allocator.** A clear PUSED bit means that the chunk before is free; a set bit means nothing, so free chunks may be
neighbours. Every free chunk has PUSED set. Requests must not exhaust the arena, because `mm_sbrk` ignores failure
(mm.c:135-141). When no free chunk fits and the request rounds to 544 bytes, the code makes a free chunk of size zero past
the top and links it into list 0: the heap satisfies the invariant if and only if the request is not of that size
(`MmRuns.SmallGrowthKeepsHeapIff`), and the next such request overwrites the payload of the chunk allocated in between
(`MmRuns.SecondMinRequestOverwrites`). Line 242 may set a bit in the word past the top, and `realloc` copies `size` bytes
although the old chunk is shorter (340-343); the array in the model is long enough for both, and the copy's result is
promised only for source words that the copy itself does not overwrite. Indices are words, so every payload is
8-aligned when the arena is.

**Assemblers.** The one-pass assembler refuses duplicate labels, the two-pass one takes the first. They agree on
programs with distinct labels, symbols only in 8-byte operands, positive alignments and addresses from 0 to 2^31
(0xFFFF for the listing), with at most the 1000 labels the two-pass one has room for; `AsmImage.AssembleBothWays` and
`AsmImage.LoadBothWays` run them side by side. The two-pass one computes addresses in `int` (yas.c:357-372):
`AsmTwoPass.TwoPass.FinishLine` truncates and rejects as it does, and whole programs are taken where no alignment
overflows (`AsmTwoPass.IntAligned`). Instructions decode back when `.pos` never moves backward. `load_binfile` needs a file strictly shorter than the memory (y64sim.c:177-191).

**The driver's test.** mdriver.c:627-628 compares the bytes of a reallocated block, read through a pointer to `char`, with
`index & 0xFF`. `char` is signed where the Makefile builds the driver (gcc for x86-64), so a byte of 128 or more reads back
negative and never matches. The test therefore fails on a correct heap as soon as a trace resizes a block whose index modulo
256 is 128 or more: `a 128 1` followed by `r 128 1` is such a trace (`MmDriver.FailsOnCorrectHeap`). It passes in exactly
the other cases (`MmDriver.EvalMmValid`).

**Flags in y64sim.c.** `compute_cc` compares with `> 0` and misses the overflow of MIN+MIN and of 0-MIN, and only those
(`Y64Flags.OverflowExactIff`).

**Cache.** E is at least 1: with E = 0 the eviction loop finds no line (csim.c:169-179). Counters are 32 bits wide and
shown modulo 2^32.

**Transposition.** The branch for 32 columns reads eight rows at a time and needs a multiple of eight rows.

## How to read it

Functions named after C functions have the same branches in the same order. In the pipeline `c` is the current half of all
pipe registers, `p` the values computed for the next cycle; a primed variable is a `_next` register. In the allocator
`h` is the array as a sequence, `starts` the set of chunk addresses, `lists` the circular lists from oldest to newest,
`high` the word after the logical top. Timers, command lines, files, the display and logging are parameters or absent.

## Model

| member | source | states |
|---|---|---|
| Words.WordRoundTrip | lab6/sim/misc/isa.c:310-343 | the eight little-endian bytes stored for a word decode to that word, negative words included |
| Words.BytesRoundTrip | lab6/sim/misc/isa.c:310-343 | eight bytes are the encoding of the word they decode to, so words and 8-byte groups correspond one to one |
| Words.ByteOfWord | lab6/sim/misc/isa.c:310-343 | byte i of an encoding is the i-th base-256 digit of the value, least significant first, for any number of bytes |
| Words.BitwiseExact | lab6/sim/misc/isa.c:463-480 | bit i of the AND of two words is set if and only if it is set in both, of the XOR if and only if in exactly one, by division of the patterns |
| Memory.GetAfterSet | lab6/sim/misc/isa.c:310-343 | a stored word reads back; a store fails at exactly the addresses where a load does |
| Memory.GetOtherAfterSet | lab6/sim/misc/isa.c:310-343 | a store changes no word that does not overlap it |
| Memory.RegReadWrite | lab6/sim/misc/isa.c:405-424 | the 128-byte register file behaves as a map: a write to a real register is read back there and nowhere else, a write to register 15 is lost |
| Memory.GetWordVal | lab6/sim/misc/isa.c:310-323 | the byte loop returns the little-endian word, and fails exactly outside the memory |
| Memory.SetWordVal | lab6/sim/misc/isa.c:333-343 | the in-place byte loop, with its arithmetic shifts, leaves the memory with the word stored and nothing else changed |
| Memory.GetByteVal | lab6/sim/misc/isa.c:302-308 | the byte at an address, or failure exactly outside the memory |
| Memory.GetRegVal | lab6/sim/misc/isa.c:405-412 | the register's word; 0 for register 15 |
| Memory.SetRegVal | lab6/sim/misc/isa.c:414-424 | the register file with that register replaced; unchanged for register 15 |
| Isa.OverflowExact | lab6/sim/misc/isa.c:482-506 | for all 64-bit operands the overflow flag of an addition or subtraction is set exactly when the exact result does not fit; the zero flag after a subtraction is equality |
| Isa.ConditionsCompare | lab6/sim/misc/isa.c:590-623 | after a subtraction le, l, e, ne, ge and g are the mathematical signed comparisons of the second operand with the first, for all operands |
| Isa.HaltKeepsState | lab6/sim/misc/isa.c:627-943 | the step that reports HLT changes neither pc nor registers, memory or flags |
| IsaManual.ResetState | lab6/sim/misc/isa.h:167-167 | after a reset pc and every register are 0 and of the flags only zero is set |
| IsaManual.HaltNop | lab6/sim/misc/isa.c:677-682 | byte 0x00 halts, byte 0x10 moves pc by one, and nothing else changes |
| IsaManual.Move | lab6/sim/misc/isa.c:683-708 | bytes 0x20 to 0x26: always, or under the numbered condition on the flags, the register in the high nibble goes to the one in the low nibble; register 15 is an invalid instruction |
| IsaManual.MoveConstant | lab6/sim/misc/isa.c:709-732 | byte 0x30: the little-endian constant goes to the register in the low nibble |
| IsaManual.StoreReg | lab6/sim/misc/isa.c:733-764 | byte 0x40: the register goes to displacement plus base, or to the displacement alone without a base; address error exactly outside the memory |
| IsaManual.LoadReg | lab6/sim/misc/isa.c:765-791 | byte 0x50: the word there goes to the register |
| IsaManual.AluComputes | lab6/sim/misc/isa.c:463-506 | result and flags of every operation on all operands: sum, difference, AND and XOR bit by bit; zero and sign flags describe the result; overflow exactly when the exact result does not fit, never after AND and XOR |
| IsaManual.Operate | lab6/sim/misc/isa.c:792-805 | bytes 0x60 to 0x63: add, subtract, and, xor of the register in the high nibble into the one in the low nibble, with those flags |
| IsaManual.XorSelf | lab6/sim/misc/isa.c:792-805 | a register XORed with itself becomes 0 and of the flags only zero is set |
| IsaManual.Jump | lab6/sim/misc/isa.c:806-823 | bytes 0x70 to 0x76: to the destination, always or under the numbered condition, else to the next instruction nine bytes on |
| IsaManual.Call | lab6/sim/misc/isa.c:824-846 | byte 0x80: register 4 down by 8, return address stored there, pc to the destination; on an address error register 4 has moved |
| IsaManual.Return | lab6/sim/misc/isa.c:847-859 | byte 0x90: pc from the word at register 4, which goes up by 8 |
| IsaManual.Push | lab6/sim/misc/isa.c:860-883 | byte 0xA0: the old value of the register is stored 8 below register 4 |
| IsaManual.Pop | lab6/sim/misc/isa.c:884-908 | byte 0xB0: the word at register 4 goes to the register, after register 4 has gone up by 8 |
| IsaManual.AddConstant | lab6/sim/misc/isa.c:909-937 | byte 0xC0: the constant is added to the register in the low nibble, with the flags of an addition |
| IsaManual.NoInstruction | lab6/sim/misc/isa.c:938-943 | codes 13 to 15 are invalid instructions, a pc outside the memory an address error, and nothing changes |
| Y64Flags.OverflowExactIff | lab4/y64sim.c:281-291 | the older simulator's flag is right for a pair of operands if and only if they are not MIN+MIN or 0-MIN |
| Y64Flags.FlagsAgreeIff | lab4/y64sim.c:281-291 | both simulators compute the same overflow flag in exactly the same cases |
| IsaSim.IsaState.StepState | lab6/sim/misc/isa.c:627-943 | the interpreter that updates registers and memory in place does one step of the instruction set as a function: same new state and status, error exits and their partial updates included |
| IsaSim.IsaState.Fetch | lab6/sim/misc/isa.c:627-675 | the instruction bytes read one by one are the fetched record; failure exactly when the first byte is missing |
| IsaSim.IsaState.RegisterOp | lab6/sim/misc/isa.c:683-805 | moves, conditional moves, ALU operations and iaddq in place equal the step function |
| IsaSim.IsaState.MemoryOp | lab6/sim/misc/isa.c:733-791 | rmmovq and mrmovq in place equal the step function, address errors included |
| IsaSim.IsaState.StackOp | lab6/sim/misc/isa.c:824-908 | call, ret, pushq and popq in place equal the step function, with the order of their %rsp updates and their failures |
| Isa.RunForEnds | lab6/sim/pipe/psim.c:234-268 | stepping under a limit that covers a run up to its halt or fault ends with that instruction's status and state |
| IsaSim.IsaState.RunState | lab6/sim/pipe/psim.c:234-268 | the step loop with its limit, for every program, equals the bounded run of the step function: same final state and status |
| Control.IaddqFunction | lab6/sim/seq/seq-full.c:88-92 | the processors' ALU function makes iaddq an addition for all operands if and only if the instruction's function field is 0 |
| Seq.FetchAgrees | lab6/sim/seq/ssim.c:660-720 | the fetch stage delivers the fields the interpreter reads, and an address error exactly when the interpreter finds no first byte |
| Seq.ComputeMatchesIsa | lab6/sim/seq/seq-full.c:9-133 | one instruction from any state: whenever the interpreter completes it, the processor reports AOK and its pending results, applied, are the interpreter's new pc, registers, memory and flags (pushq %rsp and popq %rsp included); on halt both stop with nothing changed |
| Seq.StatusExact | lab6/sim/seq/seq-full.c:120-133 | the status of every instruction from any state: an address error where the interpreter finds no first byte or the memory access fails, else what the code says; on a well-formed instruction exactly the interpreter's, which rejects every other one |
| Seq.StepSimulates | lab6/sim/seq/ssim.c:660-784 | one call of the step function from any machine state moves the state it stands for by one interpreter step |
| Seq.SeqSimulatesIsa | lab6/sim/seq/ssim.c:615-784 | for every run of the interpreter, from any machine state: n completed instructions give n steps with status AOK, and the pending state then stands for the interpreter's n-th state |
| Seq.SeqHaltsWithIsa | lab6/sim/seq/ssim.c:795-810 | a program whose run halts after n instructions halts the processor on the next step, with the interpreter's final pc, registers, memory and flags |
| SeqSim.SeqMachine.UpdateState | lab6/sim/seq/ssim.c:615-656 | the pending register, memory, flag and pc writes applied to the arrays in place, E before M |
| SeqSim.SeqMachine.SimStep | lab6/sim/seq/ssim.c:660-784 | the step over global signals and arrays equals the step function on its abstract state, status included |
| SeqSim.SeqMachine.SimRun | lab6/sim/seq/ssim.c:795-810 | the run loop, for every program and limit, equals the run function: same machine, number of steps and status |
| Seq.SimRunMatchesIsa | lab6/sim/seq/ssim.c:795-810 | on a program that halts, the run stops with AOK after exactly the limit if that is less than the run, and otherwise with HLT after the run's length in the interpreter's final state |
| Seq.StepOfRun | lab6/sim/seq/ssim.c:660-784 | a step from a machine that stands for state i of a run reports AOK before the last state and HLT there, and stands for state i + 1 next |
| SeqSim.SeqMachine.constructor | lab6/sim/seq/ssim.c:555-612 | the reset machine over the image: pc 0, registers 0, nothing pending |
| PipeIdeal.FetchIsSeqFetch | lab6/sim/pipe/psim.c:1387-1437 | when the byte at pc + 5 exists, the pipeline fetches the same fields as the one-cycle machine, without an address error |
| PipeIdeal.IdealIsSeq | lab6/sim/pipe/pipe-full.c:9-297 | an instruction taken through decode, execute, memory and write-back alone changes the state exactly as the one-cycle machine does |
| PipeIdeal.IdealMatchesIsa | lab6/sim/pipe/pipe-full.c:9-297 | an instruction that completes, alone in the pipeline, does one interpreter step and reports AOK in every stage, accesses without a base register included |
| PipeIdeal.StatusExact | lab6/sim/pipe/pipe-full.c:38-42 | a well-formed instruction ends with exactly the interpreter's status, completed, halted or faulting; an ill-formed one is always rejected by the interpreter, and by the pipeline exactly if its memory access fails |
| PipeProof.NeverPipeError | lab6/sim/pipe/psim.c:1580-1601 | for any contents of the pipe registers no stall and bubble request conflict: no register ever gets the error operation |
| PipeProof.ForwardExact | lab6/sim/pipe/pipe-full.c:102-122 | for any stage contents and any real source register the forwarding network returns what the register file would hold after the writes of write-back, memory and execute are made in program order |
| PipeProof.RedirectsKept | lab6/sim/pipe/pipe-full.c:250-273 | the stages between a return or a jump not taken and the fetch stay empty until it redirects the fetch |
| PipeProof.MispredictStep | lab6/sim/pipe/pipe-full.c:250-273 | after the cycle of a mispredicted jump the two stages behind it are empty and the next fetch is from the fall-through address |
| PipeProof.StallStep | lab6/sim/pipe/pipe-full.c:232-248 | a load-use stall keeps the waiting instruction and puts a bubble ahead of it |
| PipeProof.FlowStep | lab6/sim/pipe/psim.c:1279-1307 | in a cycle without stall or misprediction the front end passes its instructions of the run on and fetches the next one |
| PipeProof.DecodeAdvance | lab6/sim/pipe/psim.c:1452-1481 | forwarded operands are those the interpreter would read after all earlier instructions |
| PipeProof.RepairedStoreData | lab6/sim/pipe/pipe-full.c:162-167 | store data of an rmmovq behind an mrmovq into the same register is the loaded value when it leaves execute |
| PipeProof.InvMStep | lab6/sim/pipe/psim.c:687-743 | one cycle keeps the invariant for the memory stage and everything younger |
| PipeProof.NoneForward | lab6/sim/pipe/pipe-full.c:102-122 | under the invariant, an instruction that names no register gets 0 from the forwarding network when the run's condition on its three predecessors holds, bubbles included |
| PipeProof.InvStep | lab6/sim/pipe/psim.c:687-743 | one cycle keeps the invariant of the whole machine: each stage holds a bubble, the right instruction of the interpreter's run or a wrong-path one; the run's index moves past the instruction written back; for runs that halt, fault or go on |
| PipeSquash.NothingAfterFault | lab6/sim/pipe/pipe-full.c:280-297 | for any contents of the machine: from the cycle in which the memory stage meets a halt or fault on, for ever, write-back holds that instruction, the flags and (unless a store came already marked bad) the memory are as they were, and registers change by the write-backs of the instruction before it and its own only |
| PipeSquash.NothingOnWrongPath | lab6/sim/pipe/pipe-full.c:250-273 | for any contents of the machine: behind a mispredicted branch that no fault overtakes, decode and execute become bubbles, the flags stay and the next fetch is at the address after the branch |
| PipeRuns.ProgressStep | lab6/sim/pipe/psim.c:755-773 | every cycle before the end of the run lowers the bound on the cycles still to come |
| PipeRuns.SuppressionHarmless | lab6/sim/pipe/psim.c:597-648 | a cycle whose memory or flag update is suppressed near the limit differs in nothing else, and in nothing at all when it brings the last instruction of the run to write-back |
| PipeRuns.UpdatesByRank | lab6/sim/pipe/psim.c:597-648 | which updates a cycle makes near the limit: the store of the instruction in the memory stage, and the flags of the one in execute, if and only if it is among the first so many, counted from the oldest unfinished one |
| PipeRuns.LimitFromReset | lab6/sim/pipe/psim.c:597-773 | whenever a simulation stops, registers, memory and flags are of states no later than after the first max_instr instructions, whatever is in flight |
| PipeRuns.RunFollows | lab6/sim/pipe/psim.c:755-773 | from any machine state that follows a run: the loop stops with AOK, or at the run's last instruction with its status and the interpreter's state, after completing exactly the rest of the run; and at the latter whenever both limits cover the bound on the cycles to come |
| PipeRuns.PipelineMatchesIsa | lab6/sim/pipe/psim.c:687-773 | main theorem: for every program whose run stays within the side conditions, halting, faulting or endless, and any limits, the simulation reports AOK or stops at the halting or faulting instruction with its status and exactly the registers, memory and flags the interpreter has there, having completed exactly the instructions of the run; and five cycles per instruction are always enough |
| PipeRuns.HaltWritesNothing | lab6/sim/pipe/pipe-full.c:86-100 | the write-back of a halt leaves the registers as they are, so the settled state after a halt is the interpreter's |
| PipeRuns.EndsIff | lab6/sim/pipe/pipe-full.c:196-199 | a run's last instruction, if well-formed, stops the pipeline exactly when the interpreter halts or faults on it, with the same status |
| PipeRuns.EveryCycleFollowsRun | lab6/sim/pipe/psim.c:687-743 | in every cycle, for ever, of every program within the side conditions, halting, faulting or endless: register file, memory and flags are those of states of the interpreter's run at most two instructions apart, and after the end those the last instruction left, with its own write-back; nothing on a wrong path or behind a halt or fault ever changes them |
| PipeRuns.CountsBubbles | lab6/sim/pipe/psim.c:745-773 | the comment promises a count of completed instructions; for any machine and limits the reported count is that of the cycles with an instruction in write-back plus that of the cycles with a bubble |
| PipeRuns.CountsToLimit | lab6/sim/pipe/psim.c:755-773 | the count never passes either limit, and reaches the smaller one exactly when the status is AOK |
| PipeRuns.CountIsCompletedIff | lab6/sim/pipe/psim.c:745-773 | from reset the reported count is that of completed instructions if and only if a limit is zero or less, so that no cycle is simulated |
| PipeRuns.InstructionLimitCountsCycles | lab6/sim/pipe/psim.c:755-773 | raising a cycle limit that is not below the instruction limit changes no simulation at all |
| PipeHazards.LoadThenStoreBase | lab6/sim/pipe/pipe-full.c:232-248 | a load into the base register of the next rmmovq does not stall, and the address is right if and only if the load leaves the register as it was |
| PipeHazards.PopThenStore | lab6/sim/pipe/pipe-full.c:162-167 | storing a register just popped stores the old value; it is right if and only if the popped value equals it |
| PipeHazards.LoadThenStoreData | lab6/sim/pipe/pipe-full.c:162-167 | storing a register just loaded by mrmovq stores the loaded value without a stall |
| PipeHazards.NoBaseForwarded | lab6/sim/pipe/pipe-full.c:102-122 | for all stage contents and every instruction with an operand that names no register, base register or ALU operand: the operand is 0, and an access goes to the address it names, if and only if the first pending write without a destination, in the order of the forwarding network, carries 0 |
| PipeHazards.FetchWindow | lab6/sim/pipe/psim.c:1387-1437 | the pipeline reports an address error if and only if the byte at pc or the one at pc + 5 is missing; the interpreter only needs the first |
| PipeSim.PipeMachine.UpdateState | lab6/sim/pipe/psim.c:597-648 | register, memory and flag updates in place are the update function, with the two enable bits |
| PipeSim.PipeMachine.DoIfStage | lab6/sim/pipe/psim.c:1387-1437 | the fetch stage leaves the fetched fields, status and predicted pc |
| PipeSim.PipeMachine.DoMemStage | lab6/sim/pipe/psim.c:1537-1570 | the memory stage leaves the loaded value, the address error and the pending store |
| PipeSim.PipeMachine.DoExStage | lab6/sim/pipe/psim.c:1491-1529 | the execute stage leaves ALU result, condition, repaired store data and pending flags |
| PipeSim.PipeMachine.DoIdWbStages | lab6/sim/pipe/psim.c:1452-1481 | decode and write-back leave the forwarded operands and the pending register writes |
| PipeSim.PipeMachine.SimStepPipe | lab6/sim/pipe/psim.c:687-743 | one cycle over the global registers and arrays, stages in their order, equals the cycle function; the result is the status in write-back |
| PipeSim.PipeMachine.SimRunPipe | lab6/sim/pipe/psim.c:755-773 | the run loop equals the run function: same final machine, status and count |
| PipeSim.DiffMem | lab6/sim/misc/isa.c:163-181 | the word-by-word comparison reports a difference if and only if the two memories differ in some byte |
| PipeSim.RunAndCheck | lab6/sim/pipe/psim.c:181-268 | the simulator's -t check, for every image and limit, reports a match if and only if the pipeline's final registers, memory and flags equal the interpreter's |
| PipeSim.CheckSucceedsIff | lab6/sim/pipe/psim.c:181-268 | for every program within the side conditions whose run ends within a fifth of the limit, by a halt or the fault of a well-formed instruction: pipeline and interpreter report the same status, and the check succeeds if and only if the end is not a failing pushq, call or popq |
| PipeSim.CheckSucceeds | lab6/sim/pipe/psim.c:181-268 | the check succeeds, with status HLT, for every program within the side conditions that halts within a fifth of the limit |
| PipeSim.PipeMachine.constructor | lab6/sim/pipe/psim.c:563-593 | the reset pipeline over the image: bubbles in every register |
| MmHeap.UnlinkLists | lab10/mm.c:284-293 | unlinking a node of a circular list removes it from its list, keeps the order of the others, and touches no word but links |
| MmHeap.InsertLists | lab10/mm.c:306-311 | inserting behind a header puts the chunk at the young end of the list its size names and touches no word but links |
| MmShape.TakeWhole | lab10/mm.c:236-245 | marking a whole free chunk used and setting PUSED behind it keeps the tiling |
| MmShape.Split | lab10/mm.c:247-254 | writing the tags of a used front part and a free rest keeps the tiling, with exactly one new chunk |
| MmShape.Append | lab10/mm.c:203-228 | appending a used chunk, with or without a free one behind it, keeps the tiling up to the new top |
| MmShape.GrowLast | lab10/mm.c:328-332 | lengthening the last used chunk keeps the tiling |
| MmShape.Merge | lab10/mm.c:277-304 | replacing neighbours by one free chunk keeps the tiling; clearing PUSED behind it is right because the chunk before is now free |
| MmShape.Shrink | lab10/mm.c:298-302 | dropping the last chunk, and a free one before it, keeps the tiling below the new top |
| MmShape.PayloadIsPrivate | lab10/mm.c:71-81 | a payload word of a used chunk is no header, no footer of a free chunk, no link and in no other chunk |
| MmAlloc.Disjoint | lab10/mm.c:176-346 | two used chunks lie in the heap and do not overlap |
| MmOps.TakeExactKeeps | lab10/mm.c:234-245 | taking a whole chunk keeps the heap invariant, adds exactly that chunk to the used ones and changes no word of another payload |
| MmOps.SplitKeeps | lab10/mm.c:246-265 | splitting keeps the heap invariant, adds exactly the front chunk to the used ones and changes no word of another payload |
| MmOps.AppendTwoKeeps | lab10/mm.c:203-220 | growing by a used and a free chunk keeps the heap invariant and every other payload |
| MmOps.AppendOneKeeps | lab10/mm.c:224-231 | growing by one used chunk keeps the heap invariant and every other payload |
| MmOps.MergeKeeps | lab10/mm.c:273-314 | freeing with either, both or no free neighbour keeps the heap invariant, removes exactly the freed chunk from the used ones and changes no other payload |
| MmOps.ShrinkKeeps | lab10/mm.c:298-302 | giving the last chunk back keeps the heap invariant and every other payload |
| MmOps.GrowLastKeeps | lab10/mm.c:328-332 | growing in place keeps the heap invariant and every payload |
| MmAlloc.NothingFits | lab10/mm.c:179-192 | if every list from the request's class on has only smaller chunks then no free chunk at all is large enough |
| MmAlloc.FirstFitIsBest | lab10/mm.c:123-192 | a first fit found in one of the classes 1 to 16 is a smallest sufficient free chunk of the whole heap |
| MmAlloc.ListClasses | lab10/mm.c:116-128 | list 0 is empty, list c of 1 to 16 holds exactly the free chunks of 32 * c bytes, list 17 exactly those of 544 bytes and more |
| MmAlloc.AlignFacts | lab10/mm.c:176-178 | a request rounds to the least multiple of 32 that holds it and a header |
| MmAlloc.SplitCommutes | lab10/mm.c:247-256 | writing the tags of a split before unlinking, as the code does, leaves the same words as after |
| MmAlloc.Allocator.MemSbrk | lab10/memlib.c:55-65 | the break moves up by the increment and the old one is returned, or nothing changes and the result is -1 |
| MmAlloc.Allocator.MmSbrk | lab10/mm.c:135-141 | the logical top moves by the size, up or down; the break becomes the larger of itself and the top, so it is the top's high-water mark |
| MmAlloc.Allocator.MmInit | lab10/mm.c:100-112 | 18 empty circular lists and an empty heap: the invariant holds with no chunk used |
| MmAlloc.Allocator.SearchList | lab10/mm.c:182-185 | the inner loop finds the oldest entry of a list that is large enough, or the header if there is none, and ends |
| MmAlloc.Allocator.Search | lab10/mm.c:179-190 | the search ends past the last list if and only if no free chunk fits; otherwise it stops at the oldest sufficient chunk of the first list that has one |
| MmAlloc.Allocator.TakeExact | lab10/mm.c:236-245 | the branch that hands out a whole chunk keeps the invariant; the list loses exactly that entry |
| MmAlloc.Allocator.TakeSplit | lab10/mm.c:246-265 | the branch that splits keeps the invariant; the rest is one free chunk of the remaining words, the youngest entry of its list |
| MmAlloc.Allocator.GrowSmall | lab10/mm.c:193-221 | for requests below 544 the top rises by 24 words for a request of 32 bytes, with a free chunk of 20 words left, and by 68 for any other, with the rest of the 68 words free; the invariant is kept |
| MmAlloc.Allocator.GrowLarge | lab10/mm.c:223-232 | the branch that grows for a large request keeps the invariant; top moves by the chunk's size |
| MmAlloc.Allocator.Malloc | lab10/mm.c:176-267 | every call keeps the heap invariant; the chunk returned was not in use, lies in the heap and holds the request rounded up to 32; no other payload changes; with a fit the oldest chunk of the first sufficient list is taken, whole if at most 32 bytes would be left and else cut with the rest free; without one the heap grows by 24 words for a request of 32 bytes, 68 for 64 to 512, the request itself above 544, with the rest free; the lists stay in order of age |
| MmAlloc.Allocator.UnlinkBefore | lab10/mm.c:280-287 | the chunk before joins exactly when PUSED is clear, and leaves its list |
| MmAlloc.Allocator.CloseGap | lab10/mm.c:303-311 | the merged chunk gets header and footer of its full size and goes to the young end of its list |
| MmAlloc.Allocator.FreeTop | lab10/mm.c:298-302 | the top comes down to the beginning of the released chunks and the invariant holds below it |
| MmAlloc.Allocator.Free | lab10/mm.c:273-314 | every call keeps the heap invariant, removes exactly the freed chunk from the used ones and changes no other payload; the chunk joins the one before if and only if its PUSED bit is clear and the one behind if and only if that is free; the result is one free chunk of those words, or a lower top if the chunk was last; a used chunk behind loses PUSED; the lists stay in order of age |
| MmAlloc.MergedWord | lab10/mm.c:340-343 | copying the last, partial word replaces exactly its low bytes |
| MmAlloc.Allocator.MemCopy | lab10/mm.c:340-343 | the copy changes only words of the destination range, copies every whole source word it does not itself overwrite, and merges the bytes of the last one |
| MmAlloc.Allocator.Realloc | lab10/mm.c:322-346 | on all three paths the heap invariant holds, the result holds the new size, every payload word of the old chunk is at the same place in the new one, no other payload changes; it returns the same chunk untouched when it fits, grows it in place at the top, and moves otherwise |
| MmAlloc.Allocator.Move | lab10/mm.c:334-346 | allocate, copy, free: the whole old payload arrives even though the copy reads past the old chunk and the new chunk may follow it directly |
| MmAlloc.Allocator.MmCheck | lab10/mm.c:147-168 | on every heap that satisfies the invariant the checker's list walks end, its chunk walk ends exactly at the top, and it never aborts |
| MmRuns.WalkMeetsAll | lab10/mm.c:154-167 | the walk from the first chunk meets every chunk exactly once, in address order |
| MmRuns.UsedPlusFree | lab10/mm.c:123-141 | the sizes of used and free chunks add up to the logical heap size |
| MmRuns.SmallGrowthKeepsHeapIff | lab10/mm.c:193-221 | growing for a small request leaves a heap that satisfies the invariant, for some set of chunks and lists, if and only if the request does not round to 544 bytes |
| MmRuns.SecondMinRequestOverwrites | lab10/mm.c:193-221 | what goes wrong: after a request of 544 bytes, a larger one and another of 544 bytes, the first payload word of the larger chunk holds a list address; the one list that all three search stays empty, so all three grow |
| MmAlloc.Allocator.constructor | lab10/memlib.c:24-33 | an arena with an empty break |
| MmStore.DoNew | lab10/mm.c:176-265 | an allocation, exactly when there is a fit or room to grow, gives a new block and leaves every word the program has put into its other blocks |
| MmStore.DoResize | lab10/mm.c:322-346 | a reallocation keeps the words of the block that still fit, at the same offsets, and every word of the other blocks |
| MmStore.DoPut | lab10/mm.c:71-81 | a word written anywhere in a block's payload changes that word of that block only and keeps the heap invariant |
| MmStore.RunActions | lab10/mm.c:176-346 | whole runs: for every sequence of allocations, reallocations, frees and writes by the program, up to the first request with neither a fit nor room to grow safely, each block still allocated holds exactly the words last put into it, as if it had a memory of its own; no such request comes if none rounds to 544 bytes and the arena covers them all |
| MmDriver.AddRange | lab10/mdriver.c:352-399 | the range check accepts a payload if and only if it is aligned, inside the heap and neither of its ends lies in a listed range |
| MmDriver.RemoveRange | lab10/mdriver.c:405-420 | the first range with that start, and only it, leaves the list |
| MmDriver.RangesApart | lab10/mm.c:176-346 | byte ranges of two live payloads never meet |
| MmDriver.FilledShorter | lab10/mdriver.c:629-635 | a payload filled with a byte is filled with it over any shorter length |
| MmDriver.PutByteAt | lab10/mdriver.c:597-597 | replacing one byte of a word leaves the others |
| MmDriver.Fill | lab10/mdriver.c:597-597 | filling gives every byte of the payload the value and changes no word outside it |
| MmDriver.CheckFill | lab10/mdriver.c:624-635 | the comparison loop through a pointer to signed char succeeds if and only if the bytes hold the fill and, unless there are none, the fill is below 128 |
| MmDriver.DoAlloc | lab10/mdriver.c:576-602 | an allocation, whenever there is a fit or room to grow, passes the range check and leaves every live block in place, disjoint from the others and holding its fill |
| MmDriver.DoRealloc | lab10/mdriver.c:605-641 | on all three paths of realloc the new range passes and the old data is there, but the driver accepts it if and only if the block's index modulo 256 is below 128 |
| MmDriver.DoRelease | lab10/mdriver.c:643-648 | a release takes exactly that block off the list and leaves the others in place and filled |
| MmDriver.EvalMmValid | lab10/mdriver.c:549-657 | whole runs: on a well-formed trace of allocations, reallocations and releases that fits into the arena and has no request of 544 rounded bytes the driver's correctness test passes if and only if no block whose index modulo 256 is 128 or more is resized; the heap is in order either way |
| MmDriver.EvalServed | lab10/mdriver.c:549-657 | the same for every well-formed trace and arena, up to the first operation with neither a fit nor room to grow safely; the live blocks are then in place and filled |
| MmDriver.FailsOnCorrectHeap | lab10/mdriver.c:624-635 | the test rejects the trace that allocates one byte as block 128 and resizes it to one byte, although the heap is in order |
| Lru.TouchKeeps | lab8/csim.c:139-181 | a visit keeps at most E distinct tags with the visited one first; the list grows by one exactly on a miss without eviction |
| Lru.TouchIsTake | lab8/csim.c:139-181 | a set of E lines always holds the first E entries of one unbounded recency list |
| Lru.SameBlock | lab8/csim.c:120-122 | two addresses have the same set index and tag if and only if they are in the same block |
| Lru.RunBalance | lab8/csim.c:120-209 | after every trace: hits + misses = visits, misses - evictions = valid lines, and no set holds more than E or equal tags |
| Lru.MoreLinesNeverWorse | lab8/csim.c:120-209 | inclusion: for equal s and b and E1 <= E2, after every trace (so after every prefix) each tag resident with E1 lines is resident with E2 lines, and the larger cache has no more misses or evictions and no fewer hits |
| CacheSim.HitLine | lab8/csim.c:151-157 | a new visit time on the hit line moves its tag to the front of the recency order |
| CacheSim.FillLine | lab8/csim.c:159-167 | filling a free line puts the tag in front; a free line exists only while the recency list is shorter than E |
| CacheSim.EvictLine | lab8/csim.c:169-180 | overwriting a valid line with the least visit time drops the last tag of the recency order |
| CacheSim.ValidLinesDiffer | lab8/csim.c:139-181 | valid lines of a set have different tags and different visit times, none above the number of visits |
| CacheSim.SetSlot.VisitTag | lab8/csim.c:139-181 | the four loops over the lines return hit, miss or eviction as the recency list says and leave lines that stand for the updated list |
| CacheSim.CacheModel.VisitBlock | lab8/csim.c:120-137 | a visit updates exactly the addressed set and the 32-bit counters as the recency model does |
| LruHistory.SetsInTurn | lab8/csim.c:120-122 | consecutive blocks go to consecutive sets from 0 on, every byte of a block to the same set, and addresses 2^(s+b) apart share one |
| LruHistory.HexParts | lab8/csim.c:120-122 | with s = b = 4 the last hexadecimal digit is the offset, the one before the set, the rest the tag |
| LruHistory.RunVisits | lab8/csim.c:183-209 | a trace visits the addresses of its lines in order: once for a load or store, twice for a modify, not at all for any other line |
| LruHistory.ModifyIsLoadStore | lab8/csim.c:198-201 | from any cache a modify does what a load and a store of its address do, and its second visit is a hit; other lines change nothing |
| LruHistory.VisitsOfTrace | lab8/csim.c:183-209 | hits plus misses are the loads plus the stores plus twice the modifies, counted from the trace |
| LruHistory.RecencyPlace | lab8/csim.c:139-181 | in the recency list an entry stands behind exactly those visited since its last visit |
| LruHistory.SetHoldsRecent | lab8/csim.c:120-181 | after any sequence of visits a set of E lines holds exactly the E blocks of that set visited last |
| LruHistory.VisitOutcome | lab8/csim.c:120-181 | least recently used, from the history alone: a visit hits if and only if its block was visited before and fewer than E other blocks of its set since; a miss evicts if and only if E blocks of the set have been visited at all |
| CacheSim.CacheModel.Simulate | lab8/csim.c:183-209 | for every trace the arrays and counters end as the recency model does after exactly the visits of the trace; hits plus misses grow by the loads, the stores and twice the modifies; the counters show the counts modulo 2^32 |
| CacheSim.SetSlot.constructor | lab8/csim.c:109-118 | E invalid lines: an empty recency list |
| CacheSim.CacheModel.constructor | lab8/csim.c:93-107 | 2^s sets that share no lines, all empty, counters 0 |
| Transpose.IsTranspose | lab8/trans.c:269-280 | true if and only if the second matrix is the transpose of the first |
| Transpose.Trans | lab8/trans.c:238-247 | the simple form leaves the transpose, for all sizes |
| Transpose.TransGeneral | lab8/trans.c:214-224 | the blocked loops leave the transpose for all sizes, multiples of eight or not |
| Transpose.RowGroupsFit | lab8/trans.c:27-50 | the branch for 32 columns reads only existing rows if and only if their number is a multiple of eight |
| Transpose.Trans32 | lab8/trans.c:27-50 | the branch for 32 columns leaves the transpose when the rows are a multiple of eight |
| Transpose.Exchange | lab8/trans.c:181-199 | one column of the second phase: parked entries move to their quarter and the lower half takes their place, with everything placed before kept |
| Transpose.PutBlock | lab8/trans.c:162-209 | three phases through the output itself leave an 8x8 block transposed at its target, whatever was there, and change nothing else |
| Transpose.Fetch | lab8/trans.c:127-136 | the diagonal block comes back from its parking place, which keeps it |
| Transpose.OtherBlocks | lab8/trans.c:138-210 | the wrapping loop ends and fills all other columns of the eight rows, the parking place included |
| Transpose.Trans64 | lab8/trans.c:51-211 | the 64x64 branch leaves the transpose for every input and every initial output |
| Transpose.TransposeSubmit | lab8/trans.c:24-226 | the submitted function leaves the transpose in all three branches |
| KBest.InOrderSorts | lab10/fcyc.c:67-87 | inserting the samples one by one sorts them and keeps every one |
| KBest.KeptAreSmallest | lab10/fcyc.c:67-87 | the first min(n, k) of them are sorted, and together with the rest are all samples, with no kept one above a dropped one |
| KBest.InsertBelow | lab10/fcyc.c:73-76 | replacing the worst kept sample and sifting equals inserting into all samples and keeping k |
| KBest.InsertAbove | lab10/fcyc.c:73-76 | a sample not below the worst kept one changes nothing |
| KBest.Sampler.SiftDown | lab10/fcyc.c:81-87 | the swapping loop leaves the array prefix with the value inserted at its place |
| KBest.Sampler.AddSample | lab10/fcyc.c:67-88 | after every sample the array holds exactly the min(n, k) smallest of all samples seen, sorted |
| KBest.ConvergedMeansSteady | lab10/fcyc.c:93-98 | the test on the first and the k-th sorted sample holds if and only if at least k samples exceed the least by no more than epsilon times it |
| KBest.Sampler.HasConverged | lab10/fcyc.c:93-98 | true if and only if at least k of all samples so far exceed the least of them by no more than epsilon times it |
| KBest.Fcyc | lab10/fcyc.c:129-168 | the loop takes at least one and at most max(1, maxsamples) samples, stops at the first count at which at least k samples are within epsilon times the least of the least, and returns the least time seen |
| KBest.Sampler.constructor | lab10/fcyc.c:50-62 | a sampler that has seen nothing |
| Asm.AlignUp | lab5/y64asm.c:740-744 | the reference alignment: the least multiple not below the address |
| AsmOnePass.InstructionBytes | lab5/y64asm.c:721-736 | code, register byte in either order and 8-byte operand stored at their offsets are the encoding of the instruction |
| AsmOnePass.RelocatedBytes | lab5/y64asm.c:819-821 | patching the last eight bytes turns the encoding with one operand value into the encoding with another |
| AsmOnePass.FindIsLabel | lab5/y64asm.c:176-211 | searching the newest-first list finds exactly the line that defines the name |
| AsmOnePass.OnePass.AddSymbol | lab5/y64asm.c:196-211 | a new name is entered with the current address; a duplicate is refused and nothing changes |
| AsmOnePass.OnePass.ParseInstruction | lab5/y64asm.c:635-736 | register, memory, immediate and order flags give the encoding with 0 for a label, and an error exactly when the arguments do not fit the instruction |
| AsmOnePass.OnePass.ParseLine | lab5/y64asm.c:589-751 | one line: error if and only if its label is a duplicate or its statement malformed; otherwise its bytes, symbol, relocation and the new address counter |
| AsmOnePass.OnePass.Assemble | lab5/y64asm.c:763-798 | succeeds if and only if every line is well formed and no label is defined twice, and then symbols, relocations and bytes are those of the whole program |
| AsmOnePass.OnePass.Relocate | lab5/y64asm.c:807-828 | succeeds if and only if every name used is defined, and then every line has its final bytes, forward and backward references alike |
| AsmTwoPass.BufferIsEncoding | lab6/sim/misc/yas.c:397-439 | arguments written into the shared buffer one after the other, by nibbles and byte loops, are the encoding, whatever the buffer held |
| AsmTwoPass.AlignsAgree | lab6/sim/misc/yas.c:364-379 | the rounding formula of the two-pass assembler gives the least multiple not below the address for nonnegative addresses |
| AsmTwoPass.FindInTable | lab6/sim/misc/yas.c:505-522 | the table finds a label exactly if there is one, and the right one when labels are distinct |
| AsmTwoPass.TwoPass.GetReg | lab6/sim/misc/yas.c:205-223 | only the addressed nibble of the buffer changes |
| AsmTwoPass.TwoPass.PutBytes | lab6/sim/misc/yas.c:239-242 | the shift loop writes the low bytes of the value, least significant first, also for negative values |
| AsmTwoPass.TwoPass.GetNum | lab6/sim/misc/yas.c:227-243 | number or label value in the buffer; the error flag is raised exactly for a missing label |
| AsmTwoPass.TwoPass.GetMem | lab6/sim/misc/yas.c:255-291 | base register in the low nibble and displacement behind it |
| AsmTwoPass.TwoPass.FinishLine | lab6/sim/misc/yas.c:305-443 | a line in pass one only enters its label and moves the address; in pass two it prints its address and encoding; .pos and .align operands are truncated to int, and an alignment not positive as int is an error and prints nothing |
| AsmTwoPass.TwoPass.Run | lab6/sim/misc/yas.c:602-623 | with at most 1000 labels and alignments that do not overflow int, both passes succeed if and only if every name used is defined; each printed entry then has the line's address and length, and with distinct labels its bytes |
| AsmImage.OnePassEqualsTwoPasses | lab5/y64asm.c:807-828 | one pass plus relocation gives, for every line with bytes, the address and bytes the two passes print |
| AsmImage.BinFile | lab5/y64asm.c:839-851 | the seek-and-write loop leaves each line's bytes at its address, gaps filled with zeros, later lines over earlier ones |
| AsmImage.Y64Asm | lab5/y64asm.c:763-851 | parse, relocate, write: succeeds if and only if lines fit, labels are distinct and names defined, and then the file is the program's image |
| AsmImage.LinesApart | lab5/y64asm.c:624-744 | if .pos never moves backward no line overlaps an earlier one |
| AsmImage.FileHolds | lab5/y64asm.c:839-851 | then every line's bytes stand in the file at its address, whatever was written later |
| AsmImage.FetchEncoded | lab4/y64sim.c:342-392 | fetching at an encoded instruction returns its code, function, both registers (in the swapped order for mrmovq), operand and next pc |
| AsmImage.AssembledDecodesBack | lab4/y64sim.c:342-392 | assemble, write, load, fetch: at the address of every instruction line the simulator decodes exactly that instruction with its resolved operand |
| AsmImage.Yas | lab6/sim/misc/yas.c:602-623 | two passes and the listing, with at most 1000 labels and alignments that do not overflow int: succeeds if and only if all names are defined; with distinct labels it prints the text of every entry |
| AsmImage.ListingIsFile | lab6/sim/misc/yas.c:133-190 | the listing's entries written to a zeroed memory in order give the padded file |
| AsmImage.BothLoadTheSame | lab6/sim/misc/isa.c:194-300 | both tool chains load the same memory: the printed listing through load_mem, the binary file through load_binfile |
| AsmImage.AssembleBothWays | lab5/y64asm.c:763-828 | both assemblers run on one program: the one-pass one succeeds if and only if the two-pass one does and labels are distinct, and then every line has the same address and bytes |
| AsmImage.LoadBothWays | lab6/sim/misc/isa.c:194-300 | one program through y64asm and load_binfile and through yas and load_mem: success exactly when labels are distinct, names defined and the file shorter than the memory, and then both memories are the program's image |
| AsmManual.KnownBytes | lab5/y64asm.c:45-72 | the first bytes of instructions are exactly 0x00, 0x10, 0x20-0x26, 0x30, 0x40, 0x50, 0x60-0x63, 0x70-0x76, 0x80, 0x90, 0xA0 and 0xB0 |
| AsmManual.EncodingExact | lab5/y64asm.c:635-736 | for every first byte and any arguments: whether the instruction is written that way, and its bytes in numbers, register nibbles and little-endian operand |
| AsmManual.DataExact | lab5/y64asm.c:73-76 | data takes one, two, four or eight bytes, symbols only eight, and is the low bytes of its value |
| AsmManual.AddressesExact | lab5/y64asm.c:624-744 | the first line stands at 0, each other behind the bytes before it, at the address of a .pos, or at the least multiple behind an .align |
| AsmManual.LabelExact | lab5/y64asm.c:589-612 | a label stands for the address of its line before any alignment on it |
| AsmManual.AssembleOne | lab5/y64asm.c:763-851 | a program of one instruction assembles if and only if it is in the table, and the file is its bytes |
| AsmManual.FetchBadIff | lab4/y64sim.c:357-362 | the simulator reports a bad instruction if and only if the first byte is none of those |
| AsmManual.AssembledRuns | lab6/sim/misc/isa.c:627-675 | with an assembled program in memory and pc at an instruction line, the table's bytes of that instruction stand at pc, so that the interpreter does what is stated for them |
| AsmListing.HexStuff | lab6/sim/misc/yas.c:122-131 | exactly the addressed columns hold the low digits of the value, most significant first |
| AsmListing.PrintCode | lab6/sim/misc/yas.c:133-190 | the template with address and code filled in is the line's text, in the 3-digit and the 4-digit format |
| AsmListing.TextColumns | lab6/sim/misc/yas.c:133-190 | a listing line column by column: 0x, the three or four lower-case digits of the address, colon, two digits for each byte from column 7 on, blanks, bar, source line |
| AsmListing.DigitCharacters | lab6/sim/misc/yas.c:122-131 | digits are written as 0-9 and a-f and read as 0-9, a-f and A-F, with the same values; nothing else is a digit |
| AsmListing.ReadDigits | lab6/sim/misc/isa.c:226-231 | reading the printed address digits returns the address |
| AsmListing.ReadHexBytes | lab6/sim/misc/isa.c:254-275 | reading the printed byte pairs stores exactly those bytes, or fails exactly when one is outside the memory |
| AsmListing.LoadPrintedLine | lab6/sim/misc/isa.c:211-298 | loading one printed line stores its bytes at its address and nothing else; a line without address changes nothing |
| AsmListing.LoadUndoesPrint | lab6/sim/misc/isa.c:194-300 | loading a whole printed listing stores exactly its bytes at their addresses and counts them, whatever the source text behind the bar |
| AsmListing.LoadOne | lab6/sim/misc/isa.c:211-298 | the character loops of one line equal the line function for every text, well formed or not, with addresses below 2^63 |
| AsmListing.LoadMem | lab6/sim/misc/isa.c:194-300 | the whole loop over any file with addresses below 2^63 equals the line function applied in order; the result is the number of bytes stored, or 0 on an error |
| LoadGrammar.SpaceCharacters | lab6/sim/misc/isa.c:211-214 | the blanks are the six characters of isspace |
| LoadGrammar.LineStores | lab6/sim/misc/isa.c:211-275 | a line of blanks, 0x or 0X, digits, blanks, colon, blanks and pairs of digits stores exactly the bytes of the pairs at the number, or is an error if one is outside the memory, whoever wrote it |
| LoadGrammar.LineIgnored | lab6/sim/misc/isa.c:211-219 | a line whose first word does not begin with 0x or 0X changes nothing |
| LoadGrammar.LineWithoutColon | lab6/sim/misc/isa.c:220-245 | an address that no colon follows is an error |

## Left out

- GUI code, logging, command lines, opening files and printing of scores.
- Error exits of the one-cycle machine: it differs from the interpreter in partial updates after a faulting push, pop, call or ret, so agreement is claimed there for instructions that complete and for halt.
- SEQ+ mode (`plusmode`) and `prev_*` signals of ssim.c.
- Statistics counters of the pipeline (`instructions`, `cycles`, `starting_up`), which nothing else reads.
- Tokenising of assembly text and the generated lexers and parsers; programs start as parsed lines.
- Verilog output of `print_code`, and listing addresses above 0xFFFF, which make yas exit.
- AsmImage.Yas: does not say which bytes are printed when two labels are equal (yas silently uses the first); the one-pass assembler refuses such programs; and it has the bounds of AsmTwoPass.TwoPass.Run on labels and alignments.
- AsmImage.Y64Asm: does not model addresses below 0 or from 2^31 on, `.align 0` (division by zero), negative alignments and symbols in operands shorter than eight bytes (a write before the buffer).
- AsmTwoPass.TwoPass.Run: is stated for programs of at most 1000 labels, beyond which yas writes past its symbol table, and whose alignments, and the sums address + alignment - 1, are below 2^31; beyond that yas truncates the operand to `int` (a multiple of 2^32 is rejected as zero, which FinishLine models) and the sum overflows, which C leaves undefined.
- AsmListing.LoadMem: does not model lines longer than the 4096-byte buffer; says nothing about the memory after an error, where some lines may have been stored; and addresses as under AsmListing.LoadOne.
- AsmListing.LoadOne: does not model addresses of 2^63 and more, sixteen digits with the top bit set or longer: as `word_t` they are negative or overflow, pass the bound check and index outside the memory, while the model reports an error.
- Memory.GetWordVal: does not model the eight addresses from 2^63 - 8 on, where `pos + 8` overflows and the bound check passes; the model reports a failure.
- Memory.SetWordVal: does not model the same eight addresses.
- MmAlloc.Allocator.Malloc: does not model heap exhaustion, where `mm_sbrk` moves the top although the break stays, nor sizes near 2^64, which would not fit the arena anyway.
- MmAlloc.Allocator.MemCopy: the result for source words inside the destination is not promised, because `memcpy` on overlapping ranges promises nothing.
- MmDriver.EvalMmValid: its bound on the arena is sufficient, not exact, and it excludes every request of 544 rounded bytes; MmDriver.EvalServed has neither condition and goes as far as the allocator may be asked.
- MmStore.RunActions: stops before a request that breaks the heap or exhausts the arena (after it nothing is promised), and speaks of whole words; the driver's test covers the bytes of a last, partial word.
- The driver's utilisation and speed measurements and its messages.
- Header words are unbounded integers: sizes stay below the arena size, so no addition of flags ever carries.
- CacheSim.CacheModel.VisitBlock: does not model shift counts of 64 and more (s + b = 64) or set counts of 2^31 and more; visit times are unbounded, and proved not to exceed the number of visits.
- Transpose.Trans32: does not model the reads outside the input when the rows are not a multiple of eight.
- KBest.Fcyc: times are reals given as a function of the run's number; rounding, the timers and clearing of the hardware cache are left out.
- Execution half of nexti in y64sim.c, which repeats the interpreter of isa.c apart from its flags.
- The shell, proxy, multiplication and socket laboratories, grading scripts and trace generators.
