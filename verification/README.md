# Mig1 and Mig2: the pipelines are the sequential machine

This project models the RISC-V cores Mig1 and Mig2 (RV32I, M, Zicsr, Zicntr, machine mode) as clocked
machines and proves that what they retire is what a machine without pipeline executes, one instruction
after the other. It also proves the arithmetic they rest on for every width, the exact clock of every
retirement of Mig1, progress of Mig2 on slow memories, and two small side cores.

## How it is built

- `Isa.dfy` is the sequential machine: byte-wise little-endian memory, traps, CSRs, division as section 7.2
  of the RISC-V Unprivileged ISA defines it. It knows no pipeline, strobe or decode control.
- `Parts.dfy`, `Csr.dfy`, `MulDiv.dfy`, `Divider.dfy`: the parts both cores share, each with lemmas that
  say what it gives in the terms of the machine.
- `Mig2.dfy` is one clock of Mig2: registers, combinational signals, registers after the clock.
  `Mig2System.dfy` adds the memory channels, the invariant, and the machine a state stands for:
  registers with the pending write of MEM/WB done, CSRs and memory as they are, and the next pc (EX, else
  the slot in ID, else the fetch address; the address after the EBREAK while halted).
- `Mig2FetchProofs`, `Mig2Commit`, `Mig2Refinement`, `Mig2Flow`, `Mig2Step`: one clock keeps the invariant
  and is one step of the machine exactly when an instruction leaves EX. `Mig2Runs`, `Ras`, `Mig2Returns`,
  `Mig2Progress`, `Mig2Theorems`: runs of any length. `Mig2Bubbles`: the cause of every bubble,
  and where fetch goes; `Mig2Divisions`: the clocks of divisions.
- `Mig1.dfy`, `Mig1System.dfy`, `Mig1Step.dfy`: Mig1. Its refinement comes from a simulation: a Mig1 has the
  EX and MEM/WB of a Mig2 whose memories never wait. `Mig1Timing`, `Mig1Runs`, `Mig1Trace`: its timing, and
  what its retire port shows in every clock; `Mig1Bubbles`: the cause of every bubble.
- `FetchSame`: the two fetch units on an ideal memory. `Outside`, `BothCores`: what a run takes from outside,
  and that nothing else decides what a core shows. `Retired`: the stream of both retire ports, checked entry
  by entry in bytes and numbers.
- `Registers.dfy`, `Mig2Rtl.dfy`, `Mig1Rtl.dfy`: the clocked blocks as objects updated in place, connected
  as in the cores; their `Clock` methods are proved against the step functions, and `Machine` carries
  the sequential machine as ghost state. `StackRtl.dfy`: the stack of return addresses, in place in an array.
- `Adders`, `KoggeStone`, `Shifter`, `Mig1Alu`, `ByteMemory`: arithmetic and memory; `Mig1Values` puts the ALU
  into the pipeline of Mig1. `ToggleSync`, `CoreMarkPort`: the side cores.

What surrounds the cores enters as follows. The two memory channels of Mig2 answer in order, one or more
clocks after they took a request, and may refuse and wait at any time; a read sees memory as of when it
was taken (the memory model of `test/sim/tb_sim_latency_ram.sv`). The branch target buffer and, except
where said, the return-address stack may answer anything (the buffer predicts taken only on a hit). The
memories of Mig1 answer one clock later and hold their output. Code is not overwritten by stores. The
debug port, and the cycle counter a CSR instruction reads, are inputs of a step. The ALU of Mig2, the
multiplier and the bit-manipulation block are arbitrary functions, the same for core and machine. A word
is an integer below 2^32, an address of an instruction a word address below 2^30; sums wrap.

## Model

| member | source | states |
|---|---|---|
| Parts.BranchExact | rtl/design/mig2/mig2_branch.sv:36-57 | taken, target and misaligned of the branch unit are the machine's jump, its target address, and whether that is no instruction address; with the trap value Control makes of it |
| Parts.StrobesExact | rtl/design/mig2/mig2_lsu.sv:75-81 | the strobes of an aligned access are exactly its bytes in the word |
| Parts.MisalignedExact | rtl/design/mig2/mig2_lsu.sv:65-72 | the offset test says misaligned exactly when the address is no multiple of the size |
| Parts.OffsetOfSum | rtl/design/mig2/mig2_core.sv:236-240 | the load/store unit's own two-bit sum is the low bits of the address |
| Parts.LoadDataExact | rtl/design/mig2/mig2_load_data.sv:29-42 | shift and extension of the word read give what a load byte by byte gives |
| Parts.StoreExact | rtl/design/mig2/mig2_lsu.sv:83-94 | replicated data through the strobes change memory as a store byte by byte |
| Parts.ReplicatedInPlace | rtl/design/mig2/mig2_lsu.sv:96-100 | on the bytes of the mask the store data of the retire entry are the register's bytes in place |
| Parts.FieldsExact | rtl/design/mig2/mig2_decode.sv:139-160 | the decoded fields are those of the instruction, and rd is written exactly by the kinds that write it |
| Parts.ReadsExact | rtl/design/mig2/mig2_decode.sv:161-216 | rs1 and rs2 count as read exactly when the instruction reads the register, immediate forms of CSR instructions excluded |
| Parts.JumpsExact | rtl/design/mig2/mig2_decode.sv:169-183 | branch, jump, target and hint controls per kind: a return or a call is a jump |
| ByteMemory.WordsAreBytes | rtl/design/mig1/mig1_lsu.sv:57-92 | for every sequence of loads and stores, misaligned ones too, which send nothing, the word memory with strobes returns what a byte memory returns and stays equal to it on every byte |
| ByteMemory.NothingStored | rtl/design/mig1/mig1_lsu.sv:57-92 | the two memories in which nothing was stored are equal |
| ByteMemory.StoreSame | rtl/design/mig1/mig1_lsu.sv:75-86 | one store through replicated data and strobes keeps word and byte memory equal everywhere |
| ByteMemory.LoadSame | rtl/design/mig1/mig1_load_data.sv:29-42 | one load through shift and extension returns the bytes of the byte memory |
| ByteMemory.OthersStay | rtl/design/mig1/mig1_lsu.sv:66-72 | bytes outside a store keep their value |
| Csr.IllegalExact | rtl/design/mig2/mig2_csr.sv:82-112 | an illegal CSR instruction is one to no CSR, or one that writes a read-only one |
| Csr.ReadExact | rtl/design/mig2/mig2_csr.sv:90-111 | the value read is that of the named CSR |
| Csr.DoneExact | rtl/design/mig2/mig2_csr.sv:114-190 | an instruction that completes leaves the CSRs of the machine: set, clear or write, MRET, the count of retired instructions |
| Csr.SetsAndClears | rtl/design/mig2/mig2_csr.sv:78-121 | CSRRS sets and CSRRC clears exactly the bits of its source, register or immediate, and keeps the others; CSRRW takes the source |
| Csr.Counts | rtl/design/mig2/mig2_csr.sv:135-146 | the counters count modulo 2^64, with the carry between their halves |
| Csr.CycleExact | rtl/design/mig2/mig2_csr.sv:135-146 | mcycle counts every clock, but for a completed write of its low half at 0xB00 or its high half at 0xB80 |
| Csr.ResetReads | rtl/design/mig2/mig2_csr.sv:114-190 | what every CSR reads out of reset |
| Csr.TrapExact | rtl/design/mig2/mig2_csr.sv:155-186 | a trap sets mepc, mcause, mtval and saves the interrupt enable, and changes no other CSR |
| Divider.StepsDivide | rtl/lib/block/divider/behave/divider.sv:70-93 | for every width the remaining steps of a running division end with quotient and remainder of dividend and divisor |
| Divider.EarlyStartSame | rtl/lib/block/divider/behave/divider.sv:53-69 | starting at the top set bit of the dividend gives the same quotient and remainder as all steps, for every divisor that is not 0 |
| Divider.EarlyClocks | rtl/lib/block/divider/behave/divider.sv:53-95 | an early division by a divisor other than 0 is busy for exactly n + 1 clocks when the dividend without its sign is from 2^n up to 2^(n + 1) |
| Divider.OtherClocks | rtl/lib/block/divider/behave/divider.sv:53-95 | 32 clocks without early start or for a divisor of 0, one clock for an early division of 0 |
| Divider.Truncates | rtl/design/mig2/mig2_muldiv.sv:8-12 | the reference division: quotient and remainder make up the dividend, the remainder is smaller than the divisor and has the dividend's sign |
| Divider.ResultExact | rtl/design/mig2/mig2_muldiv.sv:79-83 | the result of a finished division is that of the M extension for all operands, with divisor 0 and overflow |
| MulDiv.HeldKeeps | rtl/design/mig2/mig2_muldiv.sv:14-16 | while EX keeps a divide, the unit works on its operands or holds its result |
| MulDiv.MovedKeeps | rtl/design/mig2/mig2_muldiv.sv:65-69 | when EX moves on, the unit is free for whatever comes next |
| MulDiv.MulDivExact | rtl/design/mig2/mig2_muldiv.sv:50-83 | a result that EX takes is the machine's product, quotient or remainder |
| Mig2FetchProofs.FetchKeepsInv | rtl/design/mig2/mig2_fetch.sv:99-140 | through any stalls, redirects, halts and late answers: a request in flight and not dropped is that of the slot that waits, a dropped one meets no valid slot and no kept word, a kept word is the instruction of the slot |
| Mig2FetchProofs.TakenEntersIfId | rtl/design/mig2/mig2_fetch.sv:146-147 | the request memory takes enters IF/ID at the same edge |
| Mig2FetchProofs.IdInsnExact | rtl/design/mig2/mig2_fetch.sv:139-142 | whenever ID has an instruction, it is the one at its address |
| Mig2FetchProofs.StallHolds | rtl/design/mig2/mig2_fetch.sv:148-150 | a stalled instruction stays in ID with its address and word |
| Mig2Commit.TrapOfEx | rtl/design/mig2/mig2_control.sv:149-176 | EX traps exactly when the machine does, with the same cause and value |
| Mig2Commit.BranchOfEx | rtl/design/mig2/mig2_core.sv:223-225 | the branch unit in EX says what the machine does with its registers |
| Mig2Commit.ValueOfEx | rtl/design/mig2/mig2_core.sv:257-268 | the value EX has for rd is the machine's, for every kind but loads |
| Mig2Commit.LoadOfEx | rtl/design/mig2/mig2_core.sv:227-242 | a load that completes has its read taken, and the word in flight gives the machine's value |
| Mig2Commit.StoreOfEx | rtl/design/mig2/mig2_lsu.sv:83-100 | a store that completes leaves the machine's memory |
| Mig2Commit.NextOfEx | rtl/design/mig2/mig2_control.sv:316-319 | the next pc of the retire entry is the machine's; without a jump and but for MRET it is 4 bytes on, modulo 2^32 |
| Mig2Refinement.RegsDone | rtl/design/mig2/mig2_core.sv:320-325 | after an instruction completes, the register file with the write of MEM/WB holds the machine's registers |
| Mig2Refinement.RegsIdle | rtl/design/mig2/mig2_regs.sv:42-45 | without a commit the machine's registers stay, but for a write of the debugger while halted |
| Mig2Refinement.EntryExact | rtl/design/mig2/mig2_core.sv:270-289 | the entry that leaves EX is the machine's: address, next address, operands, result, masks, data and trap |
| Mig2Refinement.MemExact | rtl/design/mig2/mig2_core.sv:227-235 | memory changes exactly as in the machine: nothing a trapping or waiting instruction offers is written |
| Mig2Refinement.CsrsDone | rtl/design/mig2/mig2_core.sv:244-247 | an instruction that completes leaves the machine's CSRs |
| Mig2Flow.LeavesBelieved | rtl/design/mig2/mig2_control.sv:221-274 | an instruction that leaves ID knows where fetch goes on, whatever the branch target buffer said and however ID repaired it |
| Mig2Bubbles.BufferTrusted | rtl/design/mig2/mig2_control.sv:237-274 | of an instruction that leaves ID with a hit, a branch the buffer lets go on and a branch or JAL for which fetch asks for the target are trusted, direction included: ID does not redirect; every other hit is corrected by ID's own decision, with its reason |
| Mig2Bubbles.TurnsTo | rtl/design/mig2/mig2_control.sv:255-274 | where ID sends fetch: to pc + imm, for a return to the top of the stack, else 4 bytes on |
| Mig2Bubbles.SendsTo | rtl/design/mig2/mig2_control.sv:195-202 | where EX sends fetch: to mtvec for a trap, to mepc for MRET, else to the jump's target or 4 bytes on |
| Mig2Bubbles.FetchGoes | rtl/design/mig2/mig2_fetch.sv:68-142 | when nothing sends fetch elsewhere, a request memory takes moves it to the target the buffer says or 4 bytes on, and IF/ID holds the address and what the buffer said; without a request it stays |
| Mig2Flow.StallNoFlush | rtl/design/mig2/mig2_control.sv:330-335 | EX never redirects or halts while it stalls, so an instruction that stalls stays |
| Mig2Flow.ControlLegal | rtl/design/mig2/mig2_control.sv:334-335 | fetch is never told to redirect and to stall in the same clock |
| Mig2Flow.BehindMoves | rtl/design/mig2/mig2_control.sv:347-349 | an instruction that leaves ID is in EX next, and the slot behind it is where EX believes it to be |
| Mig2Flow.BehindFlushed | rtl/design/mig2/mig2_control.sv:201-202 | after a redirect from EX nothing stays in ID and EX, and fetch asks for the target |
| Mig2Step.OperandExact | rtl/design/mig2/mig2_forward.sv:29-32 | forwarding and interlock are exact: the operands an instruction takes into EX are the machine's registers after all older instructions, late load data, divide results and x0 included |
| Mig2Step.BelievedRight | rtl/design/mig2/mig2_control.sv:193-200 | when EX's one comparison finds nothing wrong, the slot behind EX is the next instruction |
| Mig2Step.PcDone | rtl/design/mig2/mig2_control.sv:301-319 | after an instruction that completes, the next address is the machine's, and the core halts when the machine does; without a jump and but for MRET it is 4 bytes on |
| Mig2Step.PcIdle | rtl/design/mig2/mig2_control.sv:178-192 | without a commit the next address stays, through stalls, bubbles, halting and resume |
| Mig2Step.StepKeepsInv | rtl/design/mig2/mig2_control.sv:104-355 | every clock with legal answers keeps the invariant of the whole core |
| Mig2Step.ResetInv | rtl/design/mig2/mig2_control.sv:180-187 | the state after reset satisfies the invariant and stands for the machine at the reset address |
| Mig2Step.ClockRefines | rtl/design/mig2/mig2_core.sv:227-339 | every clock is one step of the machine exactly when an instruction leaves EX, a step of the debugger while halted, and else none; what enters MEM/WB is the machine's entry |
| Mig2Runs.RetireStep | rtl/design/mig2/mig2_core.sv:332-339 | what MEM/WB holds retires once, unchanged but for the data of its load, when its word is there |
| Mig2Runs.LeftStep | rtl/design/mig2/mig2_control.sv:214-219 | an instruction that leaves ID is in EX until it executes, once |
| Mig2Runs.AccessStep | rtl/design/mig2/mig2_core.sv:227-235 | memory takes a request exactly in the clock its instruction executes, and it is that instruction's access |
| Mig2Runs.StartStep | rtl/design/mig2/mig2_muldiv.sv:50-69 | a divide starts the divider once and frees it when it executes, even behind a load that waits |
| Mig2Runs.FetchStep | rtl/design/mig2/mig2_fetch.sv:105-131 | each request memory takes leaves ID once, is dropped once, or is in ID |
| Mig2Runs.RunAgrees | rtl/design/mig2/mig2_control.sv:108-315 | for every program, run, memory timing and prediction: retired entries and the one in MEM/WB are those of the machine; what left ID, what memory took, the divisions started, requests and bubbles are accounted for exactly; clocks are retired instructions plus bubbles (for their reasons see RunBubbles) |
| Mig2Bubbles.LeavesIs | rtl/design/mig2/mig2_control.sv:103-106 | an instruction leaves EX exactly when no read is out without its answer, memory takes its access if it has one, and its division if it is one is done |
| Mig2Bubbles.FlushIs | rtl/design/mig2/mig2_control.sv:143-212 | EX sends fetch elsewhere exactly for a trap, MRET, a jump or branch that fetch did not follow right, and a resume, with the reason of each |
| Mig2Bubbles.ClockBubbles | rtl/design/mig2/mig2_core.sv:291-339 | one clock: the bubbles shown and held after it are those held before it and those its causes make, said in the terms of the machine and of the channels |
| Mig2Bubbles.RunBubbles | rtl/design/mig2/mig2_core.sv:291-339 | for every run, by reason: bubbles shown and still held are those at its begin and those its causes made, for all fourteen reasons |
| Mig2Bubbles.DataBubbles | rtl/design/mig2/mig2_core.sv:291-339 | out of reset, the data bubbles are the clocks in which a read was out without its answer or memory did not take a request; the division bubbles are those in which a division held EX |
| Mig2Divisions.RunDivides | rtl/design/mig2/mig2_muldiv.sv:50-69 | the clocks of a run with an unfinished divide in EX are one for each divide it executed, and as many as its dividend without sign has bits, or 32 for a divisor of 0 |
| Retired.MachineRight | rtl/design/mig2/mig2_core.sv:270-289 | every entry is right by its own bytes and numbers: where it goes, what it accesses, its result; links and the next instruction are pc + 4 modulo 2^32 |
| Retired.TrapsRight | rtl/design/mig2/mig2_control.sv:149-176 | an instruction traps exactly for the causes listed; mepc, mcause, mtval and the interrupt enables are then as the RISC-V Privileged ISA says, and everything else stays |
| Retired.MretRight | rtl/design/mig2/mig2_csr.sv:155-168 | MRET goes to mepc and gives the interrupt enable back |
| Retired.Mig2Retires | rtl/design/mig2/mig2_core.sv:270-289 | whatever Mig2 retires is a stream of right entries, each beginning where the one before it went |
| Retired.Mig1Retires | rtl/design/mig1/mig1_core.sv:204-222 | the same for Mig1 |
| Retired.ResumesNext | rtl/design/mig2/mig2_control.sv:309 | a resume goes on at the byte address of the EBREAK that halted, plus 4 |
| Retired.PushesNext | rtl/design/mig2/mig2_control.sv:257 | a call pushes its byte address plus 4 |
| Ras.NestedKeeps | rtl/lib/block/stack/behave/stack.sv:40-60 | the address pushed before a nested stretch stays below the calls still open, in a stack of any depth and fill |
| Ras.ReturnsToCall | rtl/lib/block/return_address_stack/struct/return_address_stack.sv:1-34 | after a call and a nested stretch no deeper than the stack, the top is the address of that call |
| Ras.NestedCall | rtl/design/mig2/README.md:59-78 | a call, a nested stretch and its return make a nested stretch one deeper; so the theorem is about every program that returns from what it calls |
| Ras.NestedJoins | rtl/design/mig2/README.md:59-78 | one nested stretch behind another is nested |
| StackRtl.Circle.Clock | rtl/lib/block/stack/behave/stack.sv:33-60 | the circle of entries, updated in place through top and count, does what the stack of bounded depth does: push, pop, replace, the oldest entry overwritten when it is full, or the push ignored without OVERWRITE |
| StackRtl.Circle.DataOut | rtl/lib/block/stack/behave/stack.sv:62 | data_out is the newest entry while the stack is not empty |
| StackRtl.Pushed | rtl/lib/block/stack/behave/stack.sv:33-60 | the entry above the top is the next one, and on a full circle the oldest: all others keep their order |
| Mig2Returns.CommandExact | rtl/design/mig2/mig2_control.sv:249-257 | the command to the stack is that of the instruction that leaves ID, by the hints of section 2.5 of the RISC-V Unprivileged ISA |
| Mig2Returns.HintsOfRegisters | rtl/design/mig2/mig2_decode.sv:169-183 | calls and returns by register numbers: x1 and x5 are links, a return does not link to the register it jumps through |
| Mig2Returns.StackExact | rtl/design/mig2/mig2_control.sv:249-257 | pushes and pops of a run are those of the instructions that left ID, in order: the stack needs no repair |
| Mig2Returns.ReturnPredicted | rtl/design/mig2/README.md:59-78 | after a call and a nested stretch of executed instructions no deeper than the stack, a return to the address after the call is predicted right |
| Mig2Returns.OfferHeld | rtl/design/mig2/mig2_core.sv:361-364 | a data request memory does not take is offered again unchanged |
| Mig2Returns.OneRead | rtl/design/mig2/mig2_core.sv:365-366 | at most one read is out, and an answer is for the load in MEM/WB, which retires with it |
| Mig2Progress.DivisionMoves | rtl/design/mig2/mig2_muldiv.sv:3-10 | each clock a division spends in EX without its result brings it exactly one clock nearer: a start, one step for each bit of the dividend without sign, 32 for a divisor of 0, the result |
| Mig2Progress.RetireNearer | rtl/design/mig2/mig2_control.sv:301-315 | a clock that retires nothing lowers the number of clocks until the next retirement |
| Mig2Progress.AlwaysRetires | rtl/design/mig2/mig2_fetch.sv:71-113 | a Mig2 that is not halted retires an instruction in every Bound(r, l) + 1 clocks, when memory takes requests within r and answers within l clocks |
| Mig2Progress.RetiresForever | rtl/design/mig2/mig2_fetch.sv:71-113 | from every reachable state that is not halted there are legal runs that retire any number of instructions |
| Mig2Theorems.ShowsSteps | rtl/design/mig2/mig2_control.sv:108-315 | out of reset, without debugger and time reads, the core shows exactly the entries of the first n steps of the machine |
| Mig2Theorems.NothingShows | rtl/design/mig2/mig2_control.sv:108-315 | of two runs of the same program with any memories, predictors and debuggers, the one that took the beginning of what the other took from outside (the time a CSR instruction reads, a debugger at EBREAK, a debug write or resume) shows the beginning of what the other shows; if both took the same, they show the same and end in the same state |
| Mig2Theorems.UntimedShows | rtl/design/mig2/mig2_control.sv:108-315 | of two runs without debugger of code that never reads the cycle counter, one shows the beginning of what the other shows, whatever their timing |
| Outside.HeardDecides | rtl/design/mig2/mig2_csr.sv:90-111 | the machine and its entries depend on the events of a run only through the time its CSR instructions read, the debugger at its EBREAKs, and debug writes and resumes |
| Mig2Theorems.PreciseTrap | rtl/design/mig2/mig2_control.sv:143-176 | a faulting instruction writes no register and no memory, only the trap CSRs; nothing younger stays, and the handler comes next |
| Mig2Theorems.HaltedRead | rtl/design/mig2/mig2_regs.sv:42-56 | while halted the debug port reads the machine's registers |
| Mig2Theorems.DroppedWhy | rtl/design/mig2/mig2_fetch.sv:120-131 | a request is dropped only by a redirect of EX or ID, or by a halt |
| Mig2Theorems.CheckedByAddCmp | rtl/design/mig2/mig2_control.sv:228-235 | the check without carries on word addresses is the comparison of fetch's address with ID's target |
| Mig2Theorems.CountsClocks | rtl/design/mig2/mig2_csr.sv:135-146 | mcycle counts the clocks of every run of code that does not write it, modulo 2^64 |
| Mig2Theorems.CountsFromReset | rtl/design/mig2/mig2_core.sv:327-331 | out of reset mcycle is the number of clocks and the retire order the number of retired instructions, both modulo 2^64 |
| Mig1Step.LsuSame | rtl/design/mig1/mig1_lsu.sv:39-92 | the load/store units of Mig1 and Mig2 agree although they take the byte offset from different sums |
| Mig1Step.ExSame | rtl/design/mig1/mig1_control.sv:107-160 | EX of a Mig1 traps, stalls, completes and redirects as EX of a Mig2 whose memories never wait |
| Mig1Step.IdExSame | rtl/design/mig1/mig1_core.sv:152-161 | what moves to EX is the same in both, but for a return, which Mig1 does not follow |
| Mig1Step.StepKeepsInv | rtl/design/mig1/mig1_control.sv:83-220 | every clock keeps the invariant; behind an instruction in EX the slot in ID is empty exactly when ID sent fetch away for it |
| Mig1Step.ClockRefines | rtl/design/mig1/mig1_core.sv:193-266 | every clock of Mig1 is one step of the machine exactly when an instruction leaves EX, a step of the debugger while halted, else none; the entry is the machine's |
| Mig1Step.ResetInv | rtl/design/mig1/mig1_control.sv:141-148 | the state after reset satisfies the invariant and stands for the machine at the reset address |
| Mig1Runs.RunAgrees | rtl/design/mig1/mig1_core.sv:193-266 | for every program and run, with traps, MRET, halt, debug writes and resume: retired entries and the one in MEM/WB are those of the machine, and clocks are retired instructions plus bubbles with a reason |
| Mig1Bubbles.RunBubbles | rtl/design/mig1/mig1_core.sv:226-266 | for every run of Mig1, with traps, halts and resumes, by reason: bubbles shown and still held are those at its begin and those its causes made |
| Mig1Timing.IdleDistance | rtl/design/mig1/mig1_muldiv.sv:45-61 | while nothing leaves EX the next instruction comes exactly one clock nearer |
| Mig1Timing.CommitDistance | rtl/design/mig1/mig1_control.sv:153-215 | when an instruction leaves EX, the next one follows after exactly the clocks its cost says |
| Mig1Timing.RedirectionExact | rtl/design/mig1/mig1_control.sv:155-185 | JAL and a right taken guess cost 1, a wrong guess, JALR, trap and MRET 2, by the executed instruction alone |
| Mig1Runs.RetiresOnTime | rtl/design/mig1/README.md:113-127 | the k-th retirement out of reset comes in clock 3 + k + the costs up to it, with no interaction of costs, in every run without halt |
| Mig1Trace.FlushBehind | rtl/design/mig1/mig1_control.sv:162-172 | the two bubbles of a redirect from EX have the reason of the executed instruction, but for the first behind a branch ID followed |
| Mig1Trace.CommitComing | rtl/design/mig1/mig1_core.sv:226-231 | behind an instruction that leaves EX come exactly the bubbles of its kind, and then those of a division that follows |
| Mig1Trace.PortExact | rtl/design/mig1/README.md:207-249 | out of reset the retire port shows, clock by clock, three bubbles of the fill and then the executed instructions with exactly the bubbles of their kinds and reasons between them |
| FetchSame.FetchesSame | rtl/design/mig2/mig2_fetch.sv:71-142 | on a memory always ready with latency 1 and without a hit in the buffer, both fetch units show ID the same in every clock: valid, address, reason of a bubble, instruction |
| FetchSame.ClockMatches | rtl/design/mig1/mig1_fetch.sv:33-53 | one clock of both fetch units keeps them equal, for every legal control |
| FetchSame.ResetAlike | rtl/design/mig2/mig2_fetch.sv:71-113 | the two fetch units out of reset agree but for the address of the empty slot, which reset does not set |
| FetchSame.FetchesFromReset | rtl/design/mig2/mig2_fetch.sv:71-142 | out of reset both show ID the same in every clock, and agree in every register they share from the first clock without a stall on |
| BothCores.CoresShowSame | rtl/design/mig2/README.md:3-15 | Mig1 and Mig2 out of reset with the same program (without bit manipulation, which Mig1 has not), registers and memory: the one that took the beginning of what the other took from outside shows the beginning of what the other shows; if both took the same, the same, and they end in the same state |
| Adders.FullAdderAdds | old2020/docs/index.html:5460-5475 | the full adder of AND-OR-invert gates adds three bits |
| Adders.RippleAdds | old2020/docs/index.html:5533-5560 | for every width in1 + in2 + ci is the sum plus the carry at its weight |
| Adders.AddCmpExact | old2020/docs/index.html:444-562 | for every width the reduction of sum and shifted carries of a, b and not c says whether a + b is c modulo the width |
| Shifter.BarrelExact | old2020/docs/index.html:651-690 | the staged, bit-reversing shifter shifts or rotates by the whole amount in both directions, for every width and amount |
| Shifter.RightDivides | rtl/design/mig1/mig1_alu.sv:63-66 | a shift right by n divides by 2^n rounding down: unsigned with zeros, signed with copies of the sign |
| Shifter.LeftMultiplies | rtl/design/mig1/mig1_alu.sv:63-66 | a shift left by n multiplies by 2^n modulo the width |
| Mig1Alu.Alu1Adds | old2020/docs/index.html:311-363 | the arithmetic commands of Alu1 are the listed sums, for every width |
| Mig1Alu.Alu1Logic | old2020/docs/index.html:365-374 | the logic commands work bit by bit |
| Mig1Alu.Alu1Compares | rtl/design/mig1/mig1_alu.sv:68-70 | the carry of the subtraction is the unsigned order |
| Mig1Alu.Alu1Carries | rtl/lib/block/alu1/struct/alu1.sv:31-42 | the carry of every arithmetic command |
| Mig1Alu.AluAdds | rtl/design/mig1/mig1_alu.sv:48-61 | ADD, SUB and the sums of addresses, for every width |
| Mig1Alu.AluCompares | rtl/design/mig1/mig1_alu.sv:68-80 | SLT and SLTU from one subtraction are the signed and the unsigned order |
| Mig1Alu.AluShifts | rtl/design/mig1/mig1_alu.sv:63-78 | SLL, SRL and SRA multiply and divide by the power of two of the low bits of b |
| Mig1Alu.AluLogic | rtl/design/mig1/mig1_alu.sv:52-60 | XOR, OR and AND work bit by bit |
| Mig1Values.AluExact | rtl/design/mig1/mig1_alu.sv:37-82 | on 32 bits Mig1Alu computes what section 2.4 of the RISC-V Unprivileged ISA says of every instruction of OP and OP-IMM |
| Mig1Values.AddressesExact | rtl/design/mig1/mig1_alu.sv:47-50 | the sum of LUI, AUIPC and the addresses is the machine's wrapping sum |
| Mig1Values.OpLeavesResult | rtl/design/mig1/mig1_core.sv:170-203 | in the pipeline of Mig1 with this ALU, the clock in which an OP or OP-IMM instruction leaves EX leaves its result in rd, the next address and one more retired instruction in the machine, and nothing else |
| KoggeStone.SpanAt | rtl/lib/part/kogge_stone_adder.sv:36-59 | after l levels bit i generates and propagates for its span of 2^l bits, or for all bits down to bit 0 |
| KoggeStone.AdderIsChain | rtl/lib/part/kogge_stone_adder.sv:20-69 | for every width, a power of two or not, the parallel-prefix adder has the sum and the carry of the chain of full adders |
| KoggeStone.AdderAdds | rtl/lib/part/kogge_stone_adder.sv:1-14 | for every width in1 + in2 + ci is its sum plus its carry at its weight |
| KoggeStone.Alu1Same | rtl/lib/block/alu1/struct/alu1.sv:31-54 | Alu1 on this adder, with undecoded command bits, gives for every command what Alu1 on the chain gives, with the same carry of a sum and no carry of a logic command |
| ToggleSync.RequestExact | old2020/docs/index.html:2374-2410 | for every order of the clock edges, a request is raised exactly one destination edge after an odd number of pulses was sampled |
| ToggleSync.DeliversOnce | old2020/docs/index.html:2374-2410 | with a destination edge between any two pulses, each comes out as exactly one pulse of one clock, one edge after it was sampled |
| ToggleSync.NoneLost | old2020/docs/index.html:2374-2410 | no pulse is ever doubled, and none is lost if and only if at most one arrived at each destination edge |
| ToggleSync.ResetClears | old2020/docs/index.html:2374-2410 | an edge of each clock in reset, in either order, clears all flip-flops |
| ToggleSync.ResetAlone | old2020/docs/index.html:2384-2410 | after a reset of the destination alone two edges later a request comes exactly when the toggle was set |
| ToggleSync.SourceReset | old2020/docs/index.html:2374-2382 | a reset of the source alone is a change like a pulse when the toggle was set |
| ToggleSync.Jtag2MemiSync.SrcEdge | old2020/docs/index.html:2374-2382 | a source edge toggles the flip-flop for a request and changes nothing else |
| ToggleSync.Jtag2MemiSync.DstEdge | old2020/docs/index.html:2384-2410 | a destination edge moves the toggle down the three flip-flops and shows their difference |
| CoreMarkPort.DecimalReads | sw/riscv/coremark/core_portme.c:79-91 | a printed number reads back as itself, without leading zeros |
| CoreMarkPort.PutUint | sw/riscv/coremark/core_portme.c:79-91 | appends exactly the decimal digits of n at s and changes nothing else |
| CoreMarkPort.PutStr | sw/riscv/coremark/core_portme.c:93-98 | appends exactly the characters before the zero and changes nothing else |
| CoreMarkPort.PrintResult | sw/riscv/coremark/core_portme.c:100-123 | the whole result line, in a buffer of 96 characters it never overruns; a reader of the line gets back the iterations, the cycles, and the quotient and digits of the 32-bit division |
| CoreMarkPort.ResultReads | sw/riscv/coremark/core_portme.c:107-121 | between its fixed words the line says n iterations, then ticks cycles, then the score with three digits behind the point |
| CoreMarkPort.FractionExact | sw/riscv/coremark/core_portme.c:116-120 | the long division in 32 bits prints the exact digits if and only if ten times each remainder fits |
| CoreMarkPort.ScoreRight | sw/riscv/coremark/core_portme.c:100-120 | for all iterations and cycles, quotient and digits are those of n * 10^6 / ticks if and only if n is at most 4294 and no tenfold remainder of the long division of the true product overflows |
| CoreMarkPort.LineRight | sw/riscv/coremark/core_portme.c:100-123 | the printed line is the true line under exactly that condition |
| CoreMarkPort.ReadingRight | sw/riscv/coremark/core_portme.c:100-123 | the score a reader gets is n * 10^6 / ticks rounded down to three digits under exactly that condition |
| CoreMarkPort.LongRunWrong | sw/riscv/coremark/core_portme.c:116-120 | 1000 iterations in 4 * 10^9 cycles print a wrong line: 0 as the first digit after the point, where the true one is 2 |
| CoreMarkPort.ScoreExact | sw/riscv/coremark/core_portme.c:100-123 | up to 4294 iterations and 429496730 cycles the line is right, and its three digits are the true quotient rounded down |
| CoreMarkPort.ScaledExact | sw/riscv/coremark/core_portme.c:100-106 | n * 10^6 fits 32 bits exactly up to 4294 iterations |
| Registers.PipeReg.Clock | rtl/design/mig2/mig2_pipe_reg.sv:26-34 | flush, stall or load of a pipeline register, and which reason its bubble has |
| Registers.RegFile.Clock | rtl/design/mig2/mig2_regs.sv:42-51 | one write a clock, by the pipeline or by the debugger while halted, never to x0 |
| Registers.CsrFile.Clock | rtl/design/mig2/mig2_csr.sv:114-190 | the nine CSR registers after a clock are those of the step function |
| Registers.MulDivUnit.Clock | rtl/design/mig2/mig2_muldiv.sv:50-69 | div_ready and the divider after a clock |
| Registers.HaltUnit.Clock | rtl/design/mig2/mig2_control.sv:178-190 | running, mem_halting and halt_pc after a clock |
| Mig2Rtl.FetchUnit.Clock | rtl/design/mig2/mig2_fetch.sv:68-142 | the registers of Mig2Fetch, updated in place, are those of the step function |
| Mig2Rtl.Pipe.Clock | rtl/design/mig2/mig2_pipe.sv:14-26 | ID/EX and EX/MEM after a clock |
| Mig2Rtl.MigCore.Clock | rtl/design/mig2/mig2_core.sv:123-339 | the connected parts, clocked together, are the step function; the retire port shows the entry of MEM/WB, and a bubble of the data memory while its load waits |
| Mig2Rtl.Machine.Clock | rtl/design/mig2/mig2_core.sv:123-339 | the machine kept beside the core executes an instruction exactly when one leaves EX, and always is what the core stands for |
| Mig1Rtl.FetchUnit.Clock | rtl/design/mig1/mig1_fetch.sv:33-53 | the program counter and IF/ID of Mig1Fetch after a clock |
| Mig1Rtl.MigCore.Clock | rtl/design/mig1/mig1_core.sv:123-266 | the connected parts of Mig1, clocked together, are the step function |
| Mig1Rtl.Machine.Clock | rtl/design/mig1/mig1_core.sv:123-266 | the machine kept beside Mig1 executes an instruction exactly when one leaves EX |

## Where code and documentation differ

- The timing table of Mig1 (`rtl/design/mig1/README.md:113-127`) lists a branch guessed taken at 1 and one
  guessed wrong at 2. A backward branch whose target is no instruction address is not followed by ID; when
  it is not taken it costs nothing. `Mig1Timing.Redirection` follows the code.
- The comment of `print_result` gives 4000 iterations as the limit of its product; it fits up to 4294. It gives
  no limit for the cycles, but the line is right exactly when ten times every remainder also fits 32 bits
  (`CoreMarkPort.LineRight`): with 4 * 10^9 cycles it is not.

## Left out

- The caches, their arbiter, the RAMs and the flow-through buffers behind the two channels: only the channel contract is used.
- The Zbb block, Alu2, Int32Mul and the BTB's table: arbitrary functions or oracles here, not modelled; Mig3 is not modelled at all.
- The outputs `btb_update` and `btb_inval` of Mig2Control: they only feed the table of the BTB, which may answer anything.
- The bit patterns of the encodings: an instruction is its kind, its fields and the immediate of its format.
- Values of mcycle and time: the counter is a register of the model, but what a step reads of it is an input of the machine.
- Self-modifying code, and a reset in the middle of a run.
- The order of assignments inside a clock: the objects compute every new value from the values before the clock, as registers do.
- Mig2Theorems.ShowsSteps: asks for code that does not read the cycle counter, whose value does depend on timing, and for no debugger; Mig2Runs.RunAgrees and Mig2Theorems.NothingShows have neither limit.
- Mig1Runs.RetiresOnTime: (and Mig1Trace.PortExact) for runs without halt, as the timing table is meant; a halted clock retires nothing.
- The JTAG TAP, gate cells, transistor models, testbenches, scripts and the other sources of the repository.
