# Verification of the kronos-riscv core

This project models the hard parts of kronos-riscv in Dafny and proves what they are for. The
models are written per source file; registers that the RTL updates on a clock edge are fields of
classes, combinational logic is functions, and every clocked method is tied to a specification
function about which the theorems are stated.

**The five-stage pipeline against the single-cycle core.** `Machine.dfy` and `Golden.dfy` are the
single-cycle core of stage 0, `Pipeline.dfy` is the stage-2 core as a step over its registers, and
`System.dfy` puts it between an instruction memory and a data memory that grant and answer whenever
they like, with an observer on retirements and one on the data bus. `Refinement.dfy` gives each
stage its place in the golden run, `Correctness.dfy` lifts this to whole runs, `Progress.dfy` bounds
the waiting when the memories answer at once and `Liveness.dfy` settles memories of any latency. The
decoder, ALU, comparator, byte lanes and multiplier are parameters there; `Rv32.dfy` and
`MulDiv32.dfy` supply the repository's own and prove that they meet the contract. `KronosTop.dfy` is
the same machine as clocked objects. `Search.dfy` finds the first moment at which something holds.

The pipeline does *not* retire the golden run of every legal program. `kronos_hazard` ranks the
JALR-forward stall above the redirect, so a taken branch or a jump is discarded when the word behind
it is a JALR on the register that the instruction ahead of it writes. `Exactness.dfy` reads this
condition off the golden run alone, `Exact.dfy` proves that it is exact (under every memory timing
if and only if the golden run never meets it), and `Stage2.dfy` gives a four-instruction legal
program that fails. The comment above the stall in the RTL calls it a one-cycle delay; the theorem
follows the code.

Nor does every instruction retire under every latency. The multiplier's valid pulse lasts one cycle,
and a pipeline that is frozen in that cycle starts the operation again. `Liveness.dfy` proves, for
any program, M instructions included, that on a schedule on which the instruction memory answers
whenever the multiplier shows its result every instruction retires if and only if the memories
answer all that is needed. Without that proviso a hazard-free program retires for ever under all
memories that answer if and only if its golden run has no M instruction: with one, an instruction
memory that is silent for single cycles only keeps it in EX for good.

**Arithmetic.** `Division.dfy` is one restoring-division step at any width with the meaning of the M
instructions (sections 7.1 and 7.2 of the RISC-V Unprivileged ISA, 20191213); `MulDiv32.dfy` and
`MulDiv64.dfy` are the two units, state machine and all. `Alu64.dfy` is the structural ALU;
`DigitRecurrence.dfy` the references for division and square root of significands.

**Frontend.** `FetchBuffer.dfy` is the ring buffer, `Frontend.dfy` the buffer and predecode together
as a streaming parser, `BranchPredictor.dfy` the predictor against the history of its updates.

**Data side.** `ByteLanes.dfy` says which accesses the OBI load/store lanes turn into flat
little-endian ones; `AxiLsu.dfy` is the AXI4 load/store unit with a memory of arbitrary timing, and
`AxiBurst.dfy` the wrapping-burst addresses of that memory.

Where code and documentation differ the models follow the code: section 4.4 of docs/architecture.md
invalidates a target-buffer entry when a not-taken branch finds its counter saturated at 00, the RTL
(rtl/common/kronos_bpred.sv:141) only in the step from 01 to 00; see
`BranchPredictor.SaturatedEntryStays` and, for the rule the code keeps,
`BranchPredictor.NotTakenForgetsIffAt01`.

## Model

| member | source | states |
|---|---|---|
| Refinement.WriteBackMatches | rtl/stage2/kronos_top.sv:456-468 | once the write-back write has happened, now or in an earlier frozen cycle, the register file is the golden one |
| Refinement.ReadIdMatches | rtl/stage2/kronos_top.sv:446-453 | what ID reads through the write-back bypass is the golden register after the instruction in WB |
| Refinement.AccessMatches | rtl/stage2/kronos_top.sv:250-270 | the request MEM puts on the bus has the golden effect on memory and returns the golden word |
| Refinement.ExecuteMatches | rtl/stage2/kronos_top.sv:341-390 | result, redirect target and fall-through of EX are those of the golden instruction, including the multi-cycle M operations |
| Refinement.AdvanceMemory | rtl/stage2/kronos_top.sv:412-444 | by the time MEM moves on its access has happened exactly once, however long the freeze |
| Refinement.AdvanceWb | rtl/stage2/kronos_top.sv:412-444 | WB receives the golden result, for a load the data of that one access, answered now or held since |
| Refinement.FrozenStep | rtl/stage2/kronos_top.sv:160-167 | a frozen cycle keeps every stage at its place in the golden run while the memories and the multiplier move |
| Refinement.RegSource | rtl/stage1/kronos_forward.sv:45-68 | the golden value of a register after EX and MEM comes from EX if it writes it, else MEM, else the older state |
| Refinement.OperandMatches | rtl/stage1/kronos_forward.sv:45-68 | the forward select stored with the consumer delivers the golden register by all four routes |
| Refinement.StallFront | rtl/stage1/kronos_hazard.sv:108-113 | a load-use or JALR stall empties EX and leaves ID and IF on the golden path |
| Refinement.RedirectFront | rtl/stage1/kronos_hazard.sv:114-120 | a redirect empties ID and EX and restarts the fetch at the golden successor |
| Refinement.FlowEx | rtl/stage2/kronos_top.sv:305-339 | with nothing in the way ID enters EX as the golden instruction with golden operands |
| Refinement.StepHolds | rtl/stage2/kronos_top.sv:165-468 | every clock edge that loses no redirect keeps the invariant that ties all stages to golden states |
| Refinement.LostStep | rtl/stage1/kronos_hazard.sv:108-120 | an edge that loses a redirect breaks that invariant |
| Correctness.RetireStep | rtl/stage2/kronos_top.sv:430-444 | each retirement extends the observed trace by the golden retirement |
| Correctness.BusPosStep | rtl/stage2/kronos_top.sv:250-270 | an instruction counts as performed when its access is accepted, and at most once |
| Correctness.BusStep | rtl/stage2/kronos_top.sv:412-428 | each bus transaction extends the observed accesses by the golden one; no access is repeated or missed |
| Correctness.StepRefines | rtl/stage2/kronos_top.sv:165-468 | one cycle of the whole system keeps the refinement |
| Correctness.RunRefines | rtl/stage2/kronos_top.sv:165-468 | under every schedule that loses no redirect, retirements and accesses are always prefixes of the golden run's and memory is the golden memory |
| Correctness.MemoryAt | rtl/stage2/kronos_top.sv:412-444 | memory runs at most two instructions ahead of the last retirement |
| Correctness.OperandsGolden | rtl/stage2/kronos_top.sv:325-339 | in every reachable state a valid instruction in EX is the golden one and its forwarded operands are the golden registers |
| Correctness.StagesOnPath | rtl/stage2/kronos_top.sv:305-319 | no wrong-path instruction is ever valid in EX, MEM or WB |
| Exactness.LostMatches | rtl/stage1/kronos_hazard.sv:80-83 | in terms of golden states, which cycle discards a redirect |
| Exactness.LostIffHazard | rtl/stage1/kronos_hazard.sv:91-129 | a redirect is lost in a cycle if and only if the golden instruction leaving EX is a hazard of the golden run |
| Exactness.StepSpaced | rtl/stage1/kronos_hazard.sv:66-129 | bubbles in EX and MEM stand exactly where the golden run says, whatever the memories do |
| Exact.HazardFreeRun | rtl/stage2/kronos_top.sv:165-468 | a program whose golden run has no hazard is executed correctly under every schedule |
| Exact.HazardDiverges | rtl/stage1/kronos_hazard.sv:108-120 | a program with a hazard has a schedule under which the pipeline retires something the golden run does not |
| Exact.RetiresGoldenIffHazardFree | rtl/stage2/kronos_top.sv:165-468 | the pipeline retires the golden run under all schedules if and only if the golden run is free of the hazard |
| Stage2.Stage2Exact | rtl/stage2/kronos_top.sv:165-468 | the same for the repository's RV32IM decoder, ALU and multiplier, with no assumption left on them |
| Stage2.HazardProgramFails | rtl/stage1/kronos_hazard.sv:108-120 | a legal four-instruction program and a schedule on which the pipeline retires the wrong instruction |
| Progress.ReadyStep | rtl/stage1/kronos_hazard.sv:91-129 | with ready memories every cycle retires an instruction or lowers an explicit measure |
| Progress.Retires | rtl/stage2/kronos_top.sv:165-468 | from any point of any run, ready memories make any number of instructions retire |
| Progress.HeldAtMostTwice | rtl/stage1/kronos_hazard.sv:66-113 | the load-use and JALR stalls hold ID for at most two cycles, not counting frozen ones |
| Liveness.IdleStarts | rtl/stage2/kronos_top.sv:208-222 | a resting multiplier starts exactly when an M instruction is in EX and no data access holds it back |
| Liveness.AnswerStep | rtl/stage2/kronos_top.sv:151-167 | the grant or answer the core needs, or a cycle of the multiplier at work, makes it retire or lowers an explicit measure |
| Liveness.SilentStep | rtl/stage2/kronos_top.sv:151-167 | without what it needs the core stays frozen and goes on needing the same |
| Liveness.ForeverIffResponsive | rtl/stage2/kronos_top.sv:151-167 | any program, on a schedule that leaves no multiplier result unheard: every instruction retires in the end if and only if everything needed comes in the end, at any latency |
| Liveness.GoldenForever | rtl/stage2/kronos_top.sv:165-468 | on such a schedule a hazard-free program retires a prefix of the golden run at all times, and all of it if and only if the memories answer |
| Liveness.MulFreeHeard | rtl/stage2/kronos_top.sv:208-222 | without M instructions every schedule is such a one |
| Liveness.StarvedStays | rtl/stage2/kronos_top.sv:208-222 | an instruction memory silent only while the multiplier shows its result keeps an M instruction in EX for ever |
| Liveness.SilentOnce | rtl/stage2/kronos_muldiv.sv:278-282 | such a memory is never silent for two cycles in a row |
| Liveness.AnswersSufficeIffMulFree | rtl/stage2/kronos_top.sv:160-167 | memories that answer make every instruction of a hazard-free program retire if and only if none is an M instruction |
| Stage2.Stage2Live | rtl/stage2/kronos_top.sv:160-167 | the same for the repository's RV32IM blocks |
| KronosTop.Core2.Clock | rtl/stage2/kronos_top.sv:277-444 | one clock edge of all registers in place is the step the theorems are about |
| KronosTop.Bench.Simulate | rtl/stage2/kronos_top.sv:154-158 | any number of in-place cycles with both memories is the run the theorems are about |
| KronosTop.Execute | rtl/stage2/kronos_top.sv:165-468 | from reset, the clocked objects yield the run of the given schedule, and of a hazard-free program its retirements, accesses and memory are the golden run's |
| Rv32.DecodeSound | rtl/stage2/kronos_decode.sv:39-205 | every word decodes to fields that keep what the pipeline relies on |
| Rv32.BlocksSound | rtl/stage2/kronos_decode.sv:39-205 | decoder, ALU and multiply/divide unit together meet the contract of the pipeline theorem |
| Division.BorrowIsBorrow | rtl/common/kronos_muldiv.sv:210-215 | the top bit of the trial subtraction is exactly the borrow |
| Division.StepDivides | rtl/common/kronos_muldiv.sv:357-367 | one loop step keeps: dividend bits consumed so far are quotient times divisor plus a smaller remainder |
| Division.FullyDivided | rtl/common/kronos_muldiv.sv:369-375 | at the end the loop holds the quotient and the remainder |
| Division.SignedQuotient | rtl/common/kronos_muldiv.sv:199-202 | sign-correcting the quotient of the magnitudes gives the quotient rounded toward zero |
| Division.SignedRemainder | rtl/common/kronos_muldiv.sv:227-229 | sign-correcting the remainder of the magnitudes gives the remainder with the dividend's sign |
| MulDiv32.HalfSelectMatches | rtl/stage2/kronos_muldiv.sv:126-133 | both halves of the 66-bit product are the ISA results of all four multiplications |
| MulDiv32.ResultMatches | rtl/stage2/kronos_muldiv.sv:156-163 | sign correction of the final step yields the ISA quotient or remainder |
| MulDiv32.StartRuns | rtl/stage2/kronos_muldiv.sv:189-232 | a request to an idle unit starts the operation, special cases included |
| MulDiv32.StepRuns | rtl/stage2/kronos_muldiv.sv:169-289 | while running, any inputs leave the operation and its result alone and bring the end closer |
| MulDiv32.Unit.Clock | rtl/stage2/kronos_muldiv.sv:169-289 | the clocked unit's registers follow the step the pipeline theorem uses |
| MulDiv32.Unit.Perform | rtl/stage2/kronos_muldiv.sv:169-289 | from request to valid pulse: the ISA result of every operation, in at most 33 cycles, under any other inputs |
| MulDiv64.HighLow | rtl/common/kronos_muldiv.sv:331-334 | the signed high part and the low word put the 65-bit operand together again |
| MulDiv64.SplitProduct | rtl/common/kronos_muldiv.sv:331-346 | the two partial products fit 98 bits and add up to the full signed product |
| MulDiv64.MulMatches | rtl/common/kronos_muldiv.sv:155-186 | MUL, MULH, MULHSU, MULHU and MULW give the ISA results |
| MulDiv64.SpecialMatches | rtl/common/kronos_muldiv.sv:284-302 | division by zero and signed overflow give the ISA results, word forms included |
| MulDiv64.DivMatches | rtl/common/kronos_muldiv.sv:220-230 | sign correction and word shaping of quotient and remainder give the ISA results |
| MulDiv64.MulDivUnit.StartDivide | rtl/common/kronos_muldiv.sv:281-317 | operand capture establishes the loop invariant, with left alignment for word operations |
| MulDiv64.MulDivUnit.DivideStep | rtl/common/kronos_muldiv.sv:357-376 | each step keeps the invariant and the last one leaves the ISA result |
| MulDiv64.MulDivUnit.Clock | rtl/common/kronos_muldiv.sv:244-388 | every edge keeps the registers an intermediate state of the operation requested, and ends closer to its result |
| MulDiv64.Perform | rtl/common/kronos_muldiv.sv:244-388 | a whole operation delivers the ISA result within 33 cycles for word forms and 65 otherwise |
| Alu64.ShiftLeftByReverse | rtl/common/kronos_alu.sv:101-111 | reverse, shift right, reverse is a left shift, for every width and amount |
| Alu64.ComparatorIs | rtl/common/kronos_alu.sv:79-99 | signed and unsigned less-than and equality from one subtractor |
| Alu64.AluIsPlain | rtl/common/kronos_alu.sv:79-144 | the structural ALU computes every operation's plain arithmetic or bit-by-bit meaning |
| Alu64.WordFormIsAlu32 | rtl/common/kronos_alu.sv:59-77 | each word form is the sign-extended stage-0 operation on the low words |
| DigitRecurrence.SrtDivide | tb/stage5/ref/srt_divide.py:18-41 | the quotient is the exact floor and sticky tells exactly whether anything is left, for every n |
| DigitRecurrence.SrtSqrt | tb/stage5/ref/srt_sqrt.py:21-53 | the root is the exact floor with its top bit set and sticky tells exactly whether it is inexact, for every n |
| DigitRecurrence.NextRootBit | tb/stage5/ref/srt_sqrt.py:36-48 | one digit keeps prefix = q² + r with 0 ≤ r ≤ 2q |
| DigitRecurrence.QuotientNeverTies | tb/stage5/ref/srt_divide.py:9-14 | the quotient is never halfway between two 53-bit significands, so digits and sticky round to the strictly nearest |
| DigitRecurrence.RootNeverTies | tb/stage5/ref/srt_sqrt.py:11-17 | the same for the root |
| FetchBuffer.Fifo.Push | rtl/common/kronos_fetch_buffer.sv:99-107 | an accepted word joins the end of the queue, at any depth |
| FetchBuffer.Fifo.Pop | rtl/common/kronos_fetch_buffer.sv:108-114 | a pop removes the oldest word |
| FetchBuffer.Fifo.Clock | rtl/common/kronos_fetch_buffer.sv:73-123 | an edge is a bounded queue's: flush empties, full refuses, empty ignores, push and pop together |
| Frontend.Predecode.Clock | rtl/common/kronos_predecode.sv:209-244 | the registers after any edge, from classifier, back-pressure, fault and flush |
| Frontend.FaultStraddles | rtl/common/kronos_predecode.sv:134-142 | a fault is raised exactly when the instruction at the cursor is 32 bits wide and straddles a page |
| Frontend.OutputParses | rtl/common/kronos_predecode.sv:124-176 | the instruction on the outputs is the one the halfword parse has at the cursor |
| Frontend.NextTracks | rtl/common/kronos_predecode.sv:190-244 | cursor = 2 * words popped + lower consumed - half put aside, moved by exactly the instruction taken |
| Frontend.TakeMoves | rtl/common/kronos_predecode.sv:184-202 | with decode ready and no fault every word shown makes the stream advance |
| Frontend.EmittedParses | rtl/common/kronos_predecode.sv:120-244 | decode has always taken a prefix of the recursive parse, and all of it once the buffer is empty |
| Frontend.Stream.Clock | rtl/common/kronos_predecode.sv:120-244 | under any interleaving of enqueue, back-pressure and flush nothing is lost, duplicated or reordered; after a flush only new words count, from the given half |
| Frontend.Stream.Drain | rtl/common/kronos_predecode.sv:120-244 | with decode ready the emitted instructions become the whole parse of the words enqueued or, with translation, the parse up to the first instruction that straddles a page |
| BranchPredictor.HitExact | rtl/common/kronos_bpred.sv:95-98 | the buffer hits with a target if and only if the history has that branch and nothing later displaced it |
| BranchPredictor.RemembersLonger | rtl/common/kronos_bpred.sv:133-147 | one update brings a target, displaces it or leaves it alone |
| BranchPredictor.NotTakenForgetsIffAt01 | rtl/common/kronos_bpred.sv:138-147 | a not-taken branch forgets its target if and only if its counter was at 01 |
| BranchPredictor.SaturatedEntryStays | rtl/common/kronos_bpred.sv:138-147 | a history in which a not-taken branch at counter 00 keeps its entry |
| BranchPredictor.Predictor.Predict | rtl/common/kronos_bpred.sv:87-98 | taken exactly when the folded counter is at least 2 and the history has a target, which is the one predicted |
| BranchPredictor.Predictor.Apply | rtl/common/kronos_bpred.sv:120-149 | an in-place table update is the history with one more branch |
| BranchPredictor.Predictor.Clock | rtl/common/kronos_bpred.sv:99-150 | the tables lag the updates by exactly the one in the update register |
| ByteLanes.StoreExact | rtl/stage1/kronos_lsu.sv:76-96 | byte enables and replication are a flat store for all data and memory if and only if the address is naturally aligned |
| ByteLanes.LoadExact | rtl/stage1/kronos_lsu.sv:68-109 | shift and extension are a flat load for all memory if and only if the access stays in its aligned word |
| AxiLsu.StrobedFlat | rtl/stage3/kronos_lsu.sv:65-83 | the 64-bit strobes and data store exactly the addressed bytes, at the address brought down to natural alignment |
| AxiLsu.LoadFlat | rtl/stage3/kronos_lsu.sv:85-101 | lane selection and extension return the flat little-endian value |
| AxiLsu.LoadWordDown | rtl/stage3/kronos_lsu.sv:85-101 | a misaligned word load returns the flat word at the address brought down |
| AxiLsu.LoadHalfAtEnd | rtl/stage3/kronos_lsu.sv:85-101 | a half-word load from the last byte of a word returns that byte alone, extended |
| AxiLsu.Lsu.Clock | rtl/stage3/kronos_lsu.sv:106-170 | the clocked unit follows the step the protocol theorems use |
| AxiLsu.Slave.Write | sim/sim_main.cpp:588-603 | the byte-strobed commit of a beat in place |
| AxiLsu.Slave.Clock | sim/sim_main.cpp:503-632 | the memory's state after any combination of handshakes; address and data of a write may come in either order |
| AxiLsu.StepServes | rtl/stage3/kronos_lsu.sv:106-202 | whatever the memory's timing, every cycle keeps unit and memory in the same single transaction |
| AxiLsu.StepHolds | rtl/stage3/kronos_lsu.sv:106-202 | and the memory holds the start contents plus the write that took effect |
| AxiLsu.Completed | rtl/stage3/kronos_lsu.sv:65-208 | a finished load made one AR and one R handshake, a finished store one AW, one W in any order and then one B; result and memory are a flat byte memory's |
| AxiLsu.ValidStays | rtl/stage3/kronos_lsu.sv:175-202 | a VALID once raised stays with its payload until READY (section A3.2.1 of the AMBA AXI specification) |
| AxiLsu.NeverTwice | sim/sim_main.cpp:503-509 | the memory never sees a second address while one is pending, and its answers are always accepted |
| AxiLsu.StepOwes | rtl/stage3/kronos_lsu.sv:133-168 | each answer brings the access closer to its end; a silent memory changes nothing |
| AxiLsu.FinishesIffAnswered | rtl/stage3/kronos_lsu.sv:106-168 | an access ends if and only if the memory answers in the end on each channel it waits for, at any latency |
| AxiLsu.SimulatorResponds | sim/sim_main.cpp:346-402 | the simulator's memory answers, for every data latency |
| AxiLsu.StoredValue | rtl/stage3/kronos_lsu.sv:65-101 | the bytes of an aligned access hold what was stored there |
| AxiLsu.DataPort.Clock | rtl/stage3/kronos_lsu.sv:106-202 | one edge of unit and memory in place keeps the invariant |
| AxiLsu.DataPort.Perform | rtl/stage3/kronos_lsu.sv:65-208 | with any timing that answers in the end, an access terminates as one flat access with exactly its handshakes |
| AxiLsu.WriteRead | sim/sim_main.cpp:503-632 | a store and a load through the simulator's memory, at every latency: the word comes back, it is what the memory holds there, and no other byte has changed |
| AxiBurst.WrapIsRotation | sim/sim_main.cpp:402-414 | a wrapping burst's beats are the line rotated to the start |
| AxiBurst.WrapCoversLine | sim/sim_main.cpp:374-386 | for a power-of-two beat count every doubleword of the aligned line is visited exactly once, the critical one first (section A3.4.1 of the AMBA AXI specification) |

## Left out

- CSR instructions, traps, MRET and interrupts in the pipeline: the golden run is taken to contain none; the CSR file's outputs are parameters that no supported instruction observes.
- Illegal encodings on the golden path: the theorem is about legal programs. Wrong-path words may be anything.
- Stores to instruction memory: the program is a fixed function of the address.
- The upper 32 bits of the register file and of the pipeline's data fields, which stages 0 and 2 only ever fill by sign or zero extension; and the ex_mem_q fields pc_d and redirect, which nothing reads.
- Bus errors (data_err_i), which neither core looks at.
- The stage-1 top level as a machine of its own: its hazard, forward and load/store units are the ones modelled, inside stage 2.
- Word forms of MULH, MULHSU and MULHU, which the ISA does not have.
- The compressed-instruction expander: a parameter of the stream parser.
- AxiLsu.Slave.Clock: bursts of several write beats and the device addresses are not modelled; the unit sends single beats, and a device is no part of a flat memory.
- Device addresses of the simulator's memory (console, timer, scratch and halt), its instruction port and its printing; the memory's own choice of latencies is replaced by arbitrary ones, and its bit mask for a power-of-two line by the remainder it equals.
- Pulling the multiply/divide registers apart inside `KronosTop.Core2`: there they are one field; `MulDiv32.Unit` has them one by one.
- Caches, TLB, page-table walker, PMP, the floating-point units and the top levels of stages 3 to 7.
- The tag's truncation to its declared width in the branch predictor is not needed: index and tag are exact at any table size.
