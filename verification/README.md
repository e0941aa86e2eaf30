# RISC-V RV32IMAFC hart model: verification

This project models the behaviour of a C++ RISC-V hart (RV32I with M, A, F, C, Zicsr, Zifencei, Zba, Zbb, Zbs
and Zicond, and optional S and U modes) and proves properties of it in Dafny 4.11.

The centre is a state machine. `Hart.State` holds the integer and FP registers, the CSR file, the pc, the LR/SC
reservation and the bytes of a `SimpleMemory`. One step samples interrupts, fetches (or is given) an instruction,
executes it, enters a trap if it raised an exception, and finishes by moving the pc and the counters. The decoders
and the meaning of each instruction are functions, one module per source header (`Rv32i`, `Rv32c`, `Rv32a`, `Rv32m`,
`Rv32f`, `Rv32fc`, `Zicsr`, `Zbb`, and `Zba`, `Zbs`, `Zicond`, `Zifencei` in `Bitmanip.dfy`). The objects of the
source (`RegFile`, `FRegFile`, `SimpleMemory`, `CSRFile`, `ReservationSet`, `CPU`, `System`) are classes whose methods
work in place and are proved equal to those functions, so that the theorems about the state machine are theorems
about the objects.

Theorems, by file:

* `Invariant.dfy`, `Reachable.dfy`: what every reachable state satisfies, over runs of steps, injected instructions,
  interrupt-line changes and resets.
* `Precise.dfy`: traps are precise. `Interrupts.dfy`: which interrupt is taken, and that none follows a trap directly.
  `Privileges.dfy`, `Returns.dfy`, `Nesting.dfy`: movement of privilege, the return instructions, nested frames.
* `LrSc.dfy`: store-conditional over whole runs. `Counters.dfy`: conservation of mcycle and minstret.
* `Supervisor.dfy`: the supervisor CSRs are exact windows.
* `Delegation.dfy`, `TrapReturns.dfy`: trap targets, interrupt codes, mstatus stacks and input lines by bit number.
* `BaseMeaning.dfy`, `MulDivMeaning.dfy`, `AtomicMeaning.dfy`, `BitmanipMeaning.dfy`, `FloatMeaning.dfy`, `CsrMeaning.dfy`: every
  instruction from its literal encoding to its effect, on numbers, bits and bytes; `MemoryMeaning.dfy` and `FetchMeaning.dfy` for
  little-endian memory and fetches, `StepMeaning.dfy` for the same as steps. These state their facts with literal codes, addresses
  and masks, independently of the names the executable model uses. `BitNumbers.dfy` is the theory of numbered bits under them.
* `Dispatch.dfy`, `Encoding.dfy`, `IllegalOpgen.dfy`: decoder disjointness, order independence, and the generator of
  illegal encodings.
* `RvcExpansion.dfy`: compressed instructions mean the same as their expansions.
* `Loading.dfy`: loaded programs fetch back, so fetching and injecting coincide.
* `Rv32m.dfy`, `Zbb.dfy`: multiplication and division laws; fast bit counts against naive ones.
* `Integers.dfy`: addition, comparisons, shifts, loads and minima on the integers the words denote.
* `Cpu.dfy`: the `CPU` and `System` objects.

`Ok(cfg, h)` is the reachable-state invariant; theorems about single steps assume it and `ReachableOk` supplies it.
Assumptions, stated as preconditions where they are needed: S mode comes with U mode (`PrivilegeImplementedIff` shows
that this is exactly what the privilege invariant needs, since SRET enters U mode without asking whether it exists);
the configuration is fixed between resets; the reset vector is aligned; memory does not extend past the 32-bit address
space (`Loading.Holds`). Outside actors are the two step functions, the interrupt lines and reset (`Reachable.Event`).

Words are 32-bit vectors (`Bits.Word`) with wrap-around arithmetic; `Bits.Value` is the number a word denotes.
References to the RISC-V manuals are to the Unprivileged ISA 20191213 (chapter 7 for M, section 8.2 for LR/SC,
chapter 16 for C) and the Privileged Architecture v1.12 (sections 3.1.6.1, 3.1.9, 4.1.1 and 4.1.3).

## Model

| member | source | states |
|---|---|---|
| `Precise.PreciseTraps` | riscv_cpu.hpp:414-760 | For every state of the invariant, configuration and instruction, fetched or injected: a step that reports a trap leaves integer and FP registers, memory and every CSR but mstatus, the target mode's epc/cause/tval and mcycle unchanged, drops the reservation, stores the faulting pc exactly, pushes only the three stack fields of mstatus, and continues at the direct base of the target's tvec; the target is the one the delegation function gives, and Delegation.ExceptionsDelegated says which mode that is |
| `Precise.ExecutePrecise` | riscv_cpu.hpp:451-664 | Whatever word is executed, if it raises an exception the state handed to trap entry is the state before the instruction, the fcsr write-back of the F arm included |
| `Precise.IPrecise` | riscv_rv32i.hpp:367-668 | A base instruction that traps, or that the CPU still has to admit (MRET, SRET, SFENCE.VMA, WFI), has written no register and no memory |
| `Precise.CPrecise` | riscv_rv32c.hpp:350-506 | A compressed instruction that traps has written no register and no memory |
| `Precise.APrecise` | riscv_rv32a.hpp:215-414 | An LR, SC or AMO that traps has changed no register, no memory and not the reservation |
| `Precise.FPrecise` | riscv_rv32f.hpp:543-595 | An F instruction that traps has changed no register of either file, no memory and not its fcsr view |
| `Precise.FCPrecise` | riscv_rv32fc.hpp:183-261 | A compressed FP load or store that traps has changed no FP register and no memory |
| `Precise.RunCsrPrecise` | riscv_zicsr.hpp:683-799 | A CSR instruction that is refused has changed nothing |
| `Precise.FcsrRoundTrip` | riscv_cpu.hpp:549-554 | Writing back an unchanged fcsr view restores the CSR file exactly, because the stored fcsr fits its eight bits |
| `Precise.EnterTrapEffect` | riscv_cpu.hpp:727-760 | Trap entry to M or S changes exactly four cells and the privilege: the saved pc is the faulting pc (the epc mask never alters it), cause and value are the ones given, and in mstatus only the target's interrupt-enable stack moves |
| `Precise.FetchFaultPrecise` | riscv_cpu.hpp:233-263 | A fetch fault is precise and reports the faulting half, at pc or pc + 2 |
| `Reachable.ReachableOk` | riscv_cpu.hpp:170-198 | Every state reached from reset by steps, injected instructions, line changes and further resets satisfies the invariant: implemented privilege, mstatus equal to its own legalization, tvec modes 0 or 1, epc and pc IALIGN-aligned, mie/mip/mideleg within the six interrupt bits, medeleg within its mask, fcsr below 256, and exactly the CSRs of the configuration present |
| `Reachable.PrivilegeImplementedIff` | riscv_cpu.hpp:835-849 | The privilege is an implemented mode in every reachable state if and only if S mode implies U mode in the configuration |
| `Reachable.SretEscapes` | riscv_cpu.hpp:846 | With S but without U, one SRET from reset enters U mode although it is not implemented |
| `Reachable.StepOk` | riscv_cpu.hpp:229-286 | Both kinds of step keep the invariant |
| `Reachable.ExecuteOk` | riscv_cpu.hpp:414-664 | Executing any word keeps the CSR invariant and leaves an aligned continuation address |
| `Reachable.ResetOk` | riscv_cpu.hpp:170-198 | Reset establishes the invariant from any prior reservation and memory |
| `Reachable.LineOk` | riscv_cpu.hpp:204-222 | Raising or lowering an interrupt line keeps the invariant |
| `Reachable.IAligned` | riscv_rv32i.hpp:395-448 | Every jump or branch that does not trap continues at an IALIGN-aligned address |
| `Reachable.CAligned` | riscv_rv32c.hpp:350-478 | Every compressed jump or branch continues at an even address |
| `Reachable.RunUpToIsRun` | riscv_cpu.hpp:301-310 | run() performs a run of exactly as many steps as it returns, and returns fewer than asked only when told to stop at traps |
| `Invariant.WriteOk` | riscv_zicsr.hpp:436-560 | Any architectural write to an existing, writable CSR keeps every cell legal and the set of CSRs unchanged |
| `Invariant.LegalizeLegal` | riscv_zicsr.hpp:436-560 | The value a write stores, and the cell it stores it in, are legal for the configuration, aliases included |
| `Invariant.LegalizeIdempotent` | riscv_zicsr.hpp:211-232 | Legalizing an mstatus value twice is legalizing it once |
| `Invariant.SstatusWriteLegal` | riscv_zicsr.hpp:503-509 | A write through sstatus leaves an mstatus that equals its own legalization |
| `Invariant.EnterMTrapOk` | riscv_cpu.hpp:727-743 | Trap entry to M, with its raw sets, keeps the CSR invariant |
| `Invariant.EnterSTrapOk` | riscv_cpu.hpp:745-760 | Trap entry to S keeps the CSR invariant |
| `Invariant.MretOk` | riscv_cpu.hpp:813-832 | MRET keeps the CSR invariant: the restored privilege is implemented and the new MPP legal |
| `Invariant.SretOk` | riscv_cpu.hpp:835-849 | SRET keeps the CSR invariant when both S and U are implemented |
| `Invariant.BumpsOk` | riscv_cpu.hpp:861-877 | The counter updates keep the CSR invariant |
| `Zicsr.InitialCellsAt` | riscv_zicsr.hpp:234-290 | Reset creates exactly the CSRs of the configuration, all zero but misa and mstatus |
| `Interrupts.ScanIsCorrect` | riscv_cpu.hpp:764-807 | The two-pass scan takes an interrupt exactly when some pending, mie-enabled cause is globally enabled for its target, and takes the least one under M targets first, then MEI, MSI, MTI, SEI, SSI, STI |
| `Interrupts.FirstIsUnique` | riscv_cpu.hpp:770-778 | At most one interrupt is first in that order, so the choice is fully determined |
| `Interrupts.DeliveryEffect` | riscv_cpu.hpp:786-803 | Delivery is a trap with the interrupt cause and value zero and nothing else changed, and continues at the direct base or at base + 4 x code when the target's tvec is vectored; Delegation.InterruptsDelivered gives the codes and the target as numbers |
| `Interrupts.NoBackToBack` | riscv_cpu.hpp:388-408 | After a step that takes any trap, with the lines unchanged, the next step never delivers an interrupt |
| `Interrupts.AfterSTrap` | riscv_cpu.hpp:712-722 | After a trap to S, only an interrupt for M that was deliverable before the trap can still be deliverable |
| `Privileges.PrivilegeMovesOneWay` | riscv_cpu.hpp:615-849 | In every step from an invariant state privilege rises only into a trap, falls only on a retired MRET or SRET, no trap lowers it and no return raises it |
| `Returns.RunMret` | riscv_cpu.hpp:615-624 | MRET is legal exactly in M mode; when legal it applies the MRET update, goes to mepc and changes nothing else |
| `Returns.RunSret` | riscv_cpu.hpp:625-637 | SRET is legal exactly when S exists, the mode is not U, and TSR does not block S; when legal it goes to sepc |
| `Returns.ReturnDispatch` | riscv_cpu.hpp:605-608 | The return words reach the base executor under every configuration |
| `Nesting.MFrameRestores` | riscv_cpu.hpp:727-832 | A trap to M, a handler that leaves its saved fields alone, and the MRET restore privilege, MIE and pc exactly, and leave SIE, SPIE, SPP, sepc, scause and stval untouched |
| `Nesting.SFrameRestores` | riscv_cpu.hpp:745-849 | A trap to S, a handler that any number of well-formed M frames may interrupt, and the SRET restore privilege, SIE and pc exactly |
| `Nesting.MFramesExist` | riscv_cpu.hpp:615-760 | Where system calls go to M, a call and an immediate MRET are such a frame, from every state of the invariant with nothing pending |
| `Nesting.SFramesExist` | riscv_cpu.hpp:625-760 | Where they go to S, a call and an immediate SRET are such a frame, unless TSR forbids SRET |
| `Nesting.MretStep` | riscv_cpu.hpp:813-832 | A retired MRET step takes privilege, MIE and pc from the M stack and leaves the supervisor trap state alone |
| `Nesting.SretStep` | riscv_cpu.hpp:835-849 | A retired SRET step takes privilege, SIE and pc from the S stack |
| `Nesting.TrappedStep` | riscv_cpu.hpp:673-807 | Any step that traps does exactly what trap entry prescribes, toward the mode it ends in; a step that ends in S did not start in M |
| `Nesting.RetiredStep` | riscv_cpu.hpp:879-887 | A step that neither traps nor takes an interrupt leaves the executed state with only pc and the two counters advanced |
| `Counters.CounterConservation` | riscv_cpu.hpp:861-887 | Over any run whose retired instructions write no counter CSR, the 64-bit mcycle pair advances by the number of steps and minstret by the number of steps that neither trapped nor took an interrupt, modulo 2^64 |
| `Counters.RunReturnsCycles` | riscv_cpu.hpp:301-310 | mcycle advances by exactly the count run() returns |
| `Counters.BumpCounts` | riscv_cpu.hpp:861-877 | One update adds one to the number held by a counter pair, carrying between the halves and wrapping at 2^64 |
| `Counters.ExecuteKeeps` | riscv_cpu.hpp:414-664 | No instruction but a writing CSR instruction on a machine counter changes a counter |
| `Counters.StepCounts` | riscv_cpu.hpp:388-408 | Every step adds one to mcycle, and one to minstret exactly when it retires |
| `LrSc.StoreConditional` | riscv_rv32a.hpp:237-275 | After any run from reset, an aligned in-bounds SC.W writes rs2 and returns 0 if and only if the latest LR.W not yet cancelled by an SC.W, trap, interrupt or reset was to the same word, and otherwise returns 1 and writes nothing |
| `LrSc.ReservationIsLatest` | riscv_rv32a.hpp:105-125 | The reservation of a run records exactly the latest uncancelled LR.W |
| `LrSc.NoReservationAfterSc` | riscv_rv32a.hpp:261-275 | After any step at an SC.W, successful, failed, faulting or pre-empted by an interrupt, no reservation remains |
| `LrSc.StepMarks` | riscv_cpu.hpp:724-760 | Every step changes the reservation only as its trap, LR.W or SC.W prescribes |
| `LrSc.AtomicDispatch` | riscv_cpu.hpp:532-542 | An AMO-opcode word of funct3 2 reaches the A executor when A is enabled and traps when it is not |
| `Dispatch.OrderIrrelevant` | riscv_cpu.hpp:476-608 | Any order that consults all nine extensions before the base ISA executes every word to the same effect as the order of the source |
| `Dispatch.ClassifiersDisjoint` | riscv_opcode_classify.hpp:42-117 | No word is recognized by two of the twelve classifier predicates |
| `Dispatch.RecognizedByOwner` | riscv_opcode_classify.hpp:42-117 | Every recognized word is recognized by the module that owns its part of the encoding space |
| `Dispatch.ClaimsDisjoint` | riscv_cpu.hpp:476-602 | No word is claimed by two extension checks of the dispatch |
| `Dispatch.OpLegality` | riscv_illegal_opgen.hpp:187-202 | Some module accepts an OP word if and only if the encoding table allows its funct3, with rs2 = 0 for ZEXT.H |
| `Dispatch.BaseDispatch` | riscv_cpu.hpp:605-611 | A word the base ISA decodes reaches the base executor under every configuration |
| `Supervisor.SupervisorWindows` | riscv_zicsr.hpp:683-799 | A CSR instruction executed below M mode changes mstatus only in the legal part of the sstatus write mask, mie only in mideleg bits, mip only in SSIP when delegated, and no other machine CSR |
| `Supervisor.ReadsBack` | riscv_zicsr.hpp:403-418 | A read after a write through sstatus, sie or sip returns the written value in the accepted bits and the old view elsewhere |
| `Supervisor.InstructionReadsBack` | riscv_zicsr.hpp:748-796 | The same for every CSR instruction on a view that retires, with the value the instruction computes; CsrMeaning.CsrStep says bit by bit what that is |
| `Supervisor.WriteKeepsMachine` | riscv_zicsr.hpp:436-560 | A write to any CSR below machine level leaves the machine CSRs as they were outside the supervisor windows |
| `IllegalOpgen.GeneratorSound` | riscv_illegal_opgen.hpp:84-534 | For every draw of each of the 38 classes, stepping the word on an all-extensions hart, in any state of the invariant with nothing deliverable, takes an illegal-instruction exception, precisely, with the word or parcel as trap value; injected or fetched |
| `IllegalOpgen.BaseRejected` | riscv_illegal_opgen.hpp:84-389 | No decoder accepts a drawn word of the base, OP, SYSTEM or AMO classes |
| `IllegalOpgen.FloatDrawRejected` | riscv_illegal_opgen.hpp:263-357 | No decoder accepts a drawn word of the twelve floating-point classes |
| `IllegalOpgen.ParcelRejected` | riscv_illegal_opgen.hpp:395-453 | No decoder accepts a drawn 16-bit encoding |
| `IllegalOpgen.CsrDrawTraps` | riscv_illegal_opgen.hpp:246-260 | A CSR instruction on a drawn address traps because the set of CSRs is invariant |
| `IllegalOpgen.RejectedTraps` | riscv_cpu.hpp:451-664 | A word that no decoder accepts raises an illegal-instruction exception under every configuration |
| `Encoding.RFields` | riscv_illegal_opgen.hpp:68-72 | The decoders read back exactly the fields that enc_r encoded |
| `Encoding.EncIFields` | riscv_illegal_opgen.hpp:73-77 | enc_i places its immediate where enc_r places funct7 and rs2 |
| `Delegation.ExceptionsDelegated` | riscv_cpu.hpp:673-760 | A step, fetched or injected, that reports exception k ends in S if and only if S is enabled, the hart was below M, k < 32 and bit k of CSR 0x302 is set, and otherwise in M; k is 0 to 9 or 11; epc, cause and tval of that mode (0x141 to 0x143 or 0x341 to 0x343), the mstatus stack by bit number and the pc (base of 0x105 or 0x305) are as the architecture prescribes and no other CSR but mcycle, register or byte changes |
| `Delegation.InterruptsDelivered` | riscv_cpu.hpp:764-807 | A step delivers an interrupt if and only if for some code k of 11, 3, 7, 9, 1, 5 bit k of mip and mie is set and the interrupt is enabled for its target, S exactly when S exists and bit k of CSR 0x303 is set; it delivers the first such code, M targets before S targets, reports 0x80000000 + k, stores it in the cause register of the target, and continues at the base or, when tvec mod 4 is 1, at base + 4k |
| `Delegation.ExecuteCause` | riscv_common.hpp:237-250 | Whatever word is executed, an exception has one of the codes 0 to 9 and 11 |
| `Delegation.DeliverableIsReady` | riscv_cpu.hpp:712-722 | An interrupt is deliverable exactly when its numbered bit is set in mip and mie and it is enabled for its target |
| `TrapReturns.MretReturns` | riscv_cpu.hpp:813-832 | A retired MRET step: MIE takes MPIE, MPIE is 1, MPP is U if U exists and M otherwise, MPRV survives only a return to M, the mode is the old MPP and the pc mepc, and nothing else but the counters changes |
| `TrapReturns.SretReturns` | riscv_cpu.hpp:835-849 | A retired SRET step: SIE takes SPIE, SPIE is 1, SPP and MPRV are 0, the mode is the old SPP and the pc sepc, and nothing else but the counters changes |
| `TrapReturns.ReturnsAdmitted` | riscv_cpu.hpp:615-637 | MRET retires exactly in M mode, SRET exactly where S exists, above U and, in S mode, with bit 22 of mstatus clear; otherwise both are illegal instructions without effect |
| `TrapReturns.LineSets` | riscv_cpu.hpp:204-222 | A raised line makes its mip bit (MSI 3, MTI 7, MEI 11, SSI 1, STI 5, SEI 9) read 1, a lowered one 0, and changes nothing else |
| `StepMeaning.StepPerforms` | riscv_cpu.hpp:229-286 | With no interrupt ready, a step given a word, and one that fetches it, reports that word, traps exactly when executing it raises an exception, and otherwise leaves its effect with only the counters moved |
| `StepMeaning.FaultPerforms` | riscv_cpu.hpp:233-263 | A step whose fetch fails raises exception 1 with the failing address as value |
| `StepMeaning.BranchPerforms` | riscv_rv32i.hpp:419-449 | A step of a branch word ends at pc + offset if and only if the comparison of numbers its funct3 names holds, and traps with cause 0 on a misaligned target |
| `StepMeaning.AmoPerforms` | riscv_rv32a.hpp:277-413 | A step of an AMO word that retires leaves the old word in rd, the combined word in memory and every other byte unchanged |
| `FetchMeaning.FetchIs` | riscv_cpu.hpp:233-263 | A fetch yields the little-endian number of the halfword at pc, with the next halfword above it when the first ends in binary 11, or the address of the halfword outside memory |
| `BaseMeaning.AluStep` | riscv_rv32i.hpp:538-567 | Each OP word, assembled from its literal funct3 and funct7, retires with rd as the sum, difference, comparison, shift or bitwise combination of rs1 and rs2, on numbers and bits |
| `BaseMeaning.AluImmStep` | riscv_rv32i.hpp:509-526 | The same for each OP-IMM word and its sign-extended immediate |
| `BaseMeaning.ShiftImmStep` | riscv_rv32i.hpp:527-536 | The same for the shifts by an immediate |
| `BaseMeaning.BranchStep` | riscv_rv32i.hpp:419-449 | Each branch word goes to pc + offset if and only if its comparison of numbers holds |
| `BaseMeaning.JumpStep` | riscv_rv32i.hpp:395-405 | JAL links the next word and goes to pc + offset, or traps with no effect on a misaligned target |
| `BaseMeaning.JumpRegisterStep` | riscv_rv32i.hpp:406-416 | JALR goes to rs1 + immediate with bit 0 cleared, both read before rd is written |
| `BaseMeaning.LoadStep` | riscv_rv32i.hpp:451-493 | Each load word reads 1, 2 or 4 bytes at rs1 + immediate as a little-endian number, sign- or zero-extended into rd; a misaligned address raises 4 under the strict policy, one outside memory 5, with the address as value |
| `BaseMeaning.StoreStep` | riscv_rv32i.hpp:495-507 | Each store word leaves the low 1, 2 or 4 bytes of rs2 at rs1 + immediate and no other byte changed, or raises 6 or 7 |
| `BaseMeaning.UpperStep` | riscv_rv32i.hpp:385-391 | LUI and AUIPC put the upper immediate, and pc plus it, into rd |
| `BaseMeaning.EnvironmentStep` | riscv_rv32i.hpp:570-590 | ECALL raises 8, 9 or 11 by mode, EBREAK raises 3 at its own address, FENCE does nothing |
| `BaseMeaning.WaitStep` | riscv_cpu.hpp:638-659 | WFI is refused in U mode and, with bit 21 of mstatus, in S mode; SFENCE.VMA likewise with bit 20 |
| `BaseMeaning.BranchDecodes` | riscv_rv32i.hpp:234-245 | A branch word assembled for a mnemonic decodes to it, its registers and its sign-extended offset |
| `BaseMeaning.LoadDecodes` | riscv_rv32i.hpp:246-255 | A load word decodes to the mnemonic, registers and immediate it was assembled from |
| `BaseMeaning.StoreDecodes` | riscv_rv32i.hpp:256-263 | A store word decodes to the mnemonic, registers and immediate it was assembled from |
| `BaseMeaning.AluDecodes` | riscv_rv32i.hpp:293-315 | An OP word decodes to the mnemonic and registers it was assembled from |
| `BaseMeaning.RegisterFile` | riscv_common.hpp:207-215 | A written register reads back, the others keep their values, and x0 reads as zero whatever is written |
| `MemoryMeaning.LoadIs` | riscv_common.hpp:312-331 | A load on memory: alignment, bounds and the little-endian number |
| `MemoryMeaning.StoreIs` | riscv_common.hpp:333-352 | A store on memory: alignment, bounds, the number left and the bytes untouched |
| `MulDivMeaning.MulDivStep` | riscv_rv32m.hpp:86-218 | Each M word retires with the exact product part, quotient rounded toward zero or remainder in rd; a quotient by zero is 0xFFFFFFFF, a remainder by zero the dividend, and the overflowing quotient -2^31 with remainder 0 |
| `AtomicMeaning.AmoStep` | riscv_rv32a.hpp:159-413 | Each AMO word, from its literal funct5, leaves the old word in rd and in memory rs2, their sum modulo 2^32, their bitwise XOR, AND or OR, or the smaller or larger number, with no other byte changed; a misaligned address raises 6 and one outside memory 7 |
| `AtomicMeaning.LrStep` | riscv_rv32a.hpp:230-259 | LR.W loads the word and reserves it, or raises 4 or 5 |
| `AtomicMeaning.ScStep` | riscv_rv32a.hpp:230-275 | SC.W writes rs2 and yields 0 exactly when its word is reserved, yields 1 otherwise, and drops the reservation |
| `BitmanipMeaning.ShaddStep` | riscv_zba.hpp:96-170 | SH1ADD, SH2ADD and SH3ADD add rs2 to 2, 4 or 8 times rs1, modulo 2^32 |
| `BitmanipMeaning.SingleStep` | riscv_zbs.hpp:99-215 | The Zbs words set, clear, invert or extract the bit numbered by rs2 or the immediate modulo 32, and leave the others |
| `BitmanipMeaning.ConditionalStep` | riscv_zicond.hpp:96-170 | CZERO.EQZ yields zero when rs2 is zero, CZERO.NEZ when it is not, and rs1 otherwise |
| `BitmanipMeaning.ZbbStep` | riscv_zbb.hpp:160-351 | Each Zbb word retires with its result: logic bit by bit, counts by the numbers of the bits, minima and maxima and extensions as numbers, ROL moving bit k to (k + n) mod 32 and ROR back, ORC.B and REV8 byte by byte |
| `BitNumbers.RotationMoves` | riscv_zbb.hpp:317-334 | Rotating left by s moves bit k to bit (k + s) mod 32, rotating right moves it back |
| `FloatMeaning.FloatStep` | riscv_rv32f.hpp:360-595 | Each F operation, from its literal funct7, funct3 and rs2, raises an illegal-instruction exception exactly when its rounding mode, with 7 deferring to frm, exceeds 4; otherwise its result goes to rd of the right file and its flags accumulate in fcsr |
| `FloatMeaning.FloatComputes` | riscv_rv32f.hpp:837-905 | Moves copy the bits, sign injection takes bit 31 from rs2, its negation or the XOR and the rest from rs1 |
| `FloatMeaning.FlwStep` | riscv_rv32f.hpp:577-586 | FLW loads the little-endian word into an FP register, with the faults of LW |
| `FloatMeaning.FswStep` | riscv_rv32f.hpp:588-595 | FSW stores the bits of an FP register, with the faults of SW |
| `CsrMeaning.CsrStep` | riscv_zicsr.hpp:646-799 | Each CSR word retires if and only if the CSR exists in the configuration, bits 9 and 8 of its address allow the mode, a write is below 0xC00, a counter is opened by mcounteren and scounteren, and TVM does not close satp; rd then holds the old value and each accepted bit the source bit, or the old bit set or cleared by it; otherwise it is an illegal instruction without effect |
| `CsrMeaning.Rereads` | riscv_zicsr.hpp:436-560 | After a write every CSR but mstatus and the trap vectors reads back the written value in its accepted bits, given as literal masks by address, and the old value elsewhere |
| `CsrMeaning.MstatusWritten` | riscv_zicsr.hpp:453-461 | A write to mstatus stores exactly the implemented fields, M in place of an unimplemented MPP, FS and SD by whether there is F, and zeros elsewhere |
| `CsrMeaning.TvecWritten` | riscv_zicsr.hpp:462-469 | A write to a trap vector stores it, in direct mode when the mode field is 2 or 3 |
| `CsrMeaning.ValueRead` | riscv_zicsr.hpp:403-428 | A read yields the fcsr views, the counter shadows, the supervisor windows or the cell itself, by literal address |
| `CsrMeaning.ResetLeaves` | riscv_zicsr.hpp:234-290 | After reset the hart is in M mode, misa has the bits of the configured letters, mstatus is 0x1800 or 0x80007800, mtvec is the configured one and every other CSR is zero |
| `CsrMeaning.WriteKeepsRest` | riscv_zicsr.hpp:436-560 | A write through fflags, frm, sstatus, sie or sip changes no bit of the underlying CSR outside the view |
| `Integers.PlusAdds` | riscv_rv32i.hpp:538-540 | The 32-bit addition is the addition of numbers modulo 2^32, by its carry chain |
| `Integers.SubValue` | riscv_rv32i.hpp:541-543 | The subtraction is the subtraction of numbers modulo 2^32 |
| `BaseMeaning.FenceIStep` | riscv_zifencei.hpp:142-160 | FENCE.I has no effect |
| `BitNumbers.NthDigit` | riscv_cpu.hpp:708 | A numbered bit of a word is the binary digit of that number of its value |
| `RvcExpansion.CompressedRefines` | riscv_rv32c.hpp:69-478 | On every state of the CSR invariant, executing a legal parcel gives the same registers, memory, CSRs, trap cause and trap value as executing its 32-bit expansion from chapter 16 of the RISC-V Unprivileged ISA 20191213, with fall-through and return address pc + 2; the compressed FP loads and stores included |
| `RvcExpansion.BaseRefines` | riscv_rv32c.hpp:350-478 | The same for the integer parcels with no condition on the state at all |
| `RvcExpansion.ExpansionAgrees` | riscv_rv32c.hpp:69-338 | The parcel decoder and the 32-bit decoder find the same operation, registers and immediate, the latter assembled bit by bit from the instruction tables; reserved parcels are exactly those without an expansion |
| `RvcExpansion.ExpansionIffLegal` | riscv_rv32c.hpp:69-338 | On a hart with F and C, a parcel has an expansion if and only if some decoder recognizes it |
| `RvcExpansion.MatchingExecutes` | riscv_rv32i.hpp:367-615 | Matching decoded instructions have the same effect for all registers, memories, addresses and misaligned-access policies |
| `RvcExpansion.CjIs` | riscv_rv32c.hpp:317-328 | The scrambled C.J/C.JAL offset is the one the J format yields for the same jump |
| `RvcExpansion.CbIs` | riscv_rv32c.hpp:330-338 | The scrambled C.BEQZ/C.BNEZ offset is the one the B format yields for the same branch |
| `Loading.FetchedEqualsInjected` | riscv_cpu.hpp:229-286 | With an in-bounds program loaded, a step that fetches its k-th instruction and a step given that instruction are equal, in state and in every reported field (a word whose low bits are not 11 is fetched as its parcel) |
| `Loading.LoadedWords` | riscv_cpu.hpp:919-924 | After load_program every word of the program is in memory, little-endian, and no byte outside the program has changed |
| `Loading.FetchesProgram` | riscv_cpu.hpp:237-264 | A fetch at the k-th word of a loaded program yields it |
| `Loading.PlusTwoValue` | riscv_cpu.hpp:253 | pc + 2 is two bytes further whenever it does not wrap |
| `Rv32m.DivRemRecompose` | riscv_rv32m.hpp:168-206 | DIV x rs2 + REM and DIVU x rs2 + REMU equal rs1 modulo 2^32 for all operands, division by zero and overflow included |
| `Rv32m.RemainderBounds` | riscv_rv32m.hpp:168-206 | A nonzero divisor bounds the remainder, and REM takes the sign of the dividend |
| `Rv32m.ExactProducts` | riscv_rv32m.hpp:145-166 | MULH, MULHSU and MULHU with MUL give the exact 64-bit product |
| `Rv32m.ResultValue` | riscv_rv32m.hpp:128-218 | The number left in rd is the one computed from the numbers in rs1 and rs2 |
| `Rv32m.ExecuteOn` | riscv_rv32m.hpp:128-218 | The executor writes that result to rd and nothing else, and refuses an illegal type |
| `Zbb.Clz32` | riscv_zbb.hpp:356-365 | The halving search counts leading zeros as a bit-by-bit count does |
| `Zbb.Ctz32` | riscv_zbb.hpp:368-377 | The halving search counts trailing zeros as a bit-by-bit count does |
| `Zbb.Popcount32` | riscv_zbb.hpp:380-387 | The SWAR sum equals the number of one bits counted one by one |
| `Zbb.SwarCounts` | riscv_zbb.hpp:380-387 | Each SWAR stage adds neighbouring fields without overflow, up to the total |
| `Zbb.RotationsInverse` | riscv_zbb.hpp:317-334 | ROL and ROR by the same amount undo each other, whichever comes first |
| `Zbb.Rev8Involution` | riscv_zbb.hpp:400-405 | REV8 reverses the four bytes and is its own inverse |
| `Zbb.OrcBIdempotent` | riscv_zbb.hpp:390-397 | ORC.B turns each byte into 0 or 0xFF by whether it was zero, so repeating it changes nothing |
| `Zbb.OrCombineBytes` | riscv_zbb.hpp:390-397 | The byte-by-byte combination yields that word |
| `Zbb.ExecuteOn` | riscv_zbb.hpp:248-351 | The executor, calling the counting methods, writes to rd what the naive counts prescribe |
| `Integers.AluMeaning` | riscv_rv32i.hpp:509-568 | On two's complement and unsigned numbers: SLT(I) and SLTU(I) compare, SLL(I) multiplies by a power of two modulo 2^32, SRL(I) divides, and SRA(I) divides rounding down |
| `Integers.BranchMeaning` | riscv_rv32i.hpp:419-449 | A branch is taken exactly when its signed or unsigned comparison of numbers holds |
| `Integers.LoadMeaning` | riscv_rv32i.hpp:451-492 | LB and LH yield the two's complement number of the byte or halfword, LBU and LHU the unsigned one |
| `Integers.MinMaxMeaning` | riscv_zbb.hpp:285-303 | MIN, MAX, MINU and MAXU, and the AMOs of the same names, yield the smaller or larger number |
| `Integers.Comparisons` | riscv_rv32i.hpp:429-449 | The signed and unsigned word comparisons are the comparisons of the numbers the words denote |
| `Integers.ShiftRightArithDivides` | riscv_rv32i.hpp:533-561 | The arithmetic right shift is division by a power of two rounding down |
| `Encoding.IImmediate` | riscv_rv32i.hpp:209-211 | The I-immediate decoder returns the sign-extended immediate that was encoded |
| `Encoding.SImmediate` | riscv_rv32i.hpp:213-216 | The S-immediate decoder returns the sign-extended immediate that was encoded |
| `Encoding.BranchImmediate` | riscv_rv32i.hpp:218-224 | The B-immediate decoder returns the sign-extended even offset that was encoded |
| `Encoding.JumpImmediate` | riscv_rv32i.hpp:226-232 | The J-immediate decoder returns the sign-extended even offset that was encoded |
| `Common.RegFile.constructor` | riscv_common.hpp:201-202 | All registers start at zero |
| `Common.SimpleMemory.constructor` | riscv_common.hpp:94-95 | A zeroed memory of the given size and base |
| `Rv32f.FRegFile.constructor` | riscv_rv32f.hpp:70-71 | All FP registers start at zero |
| `Rv32f.FRegFile.ReadBits` | riscv_rv32f.hpp:75-77 | Reads the raw bits of an FP register |
| `Rv32f.FRegFile.Reset` | riscv_cpu.hpp:173 | All FP registers become zero |
| `Zicsr.CSRFile.constructor` | riscv_zicsr.hpp:183-297 | A fresh CSR file has the storage of the default flags, in M mode |
| `Zicsr.CSRFile.Set` | riscv_zicsr.hpp:565 | The raw write changes one cell and bypasses legalization |
| `Zicsr.CSRFile.SetPrivilege` | riscv_zicsr.hpp:321 | Changes the privilege and nothing else |
| `Zicsr.CSRFile.SetModes` | riscv_zicsr.hpp:309-312 | Changes the S and U flags and nothing else |
| `Zicsr.CSRFile.SetMepcMask` | riscv_zicsr.hpp:316 | Changes the epc write mask and nothing else |
| `Rv32a.ReservationSet.constructor` | riscv_rv32a.hpp:105-107 | There is no reservation at first |
| `Cpu.CPU.constructor` | riscv_cpu.hpp:162-164 | A new CPU is in the reset state of its configuration, whatever memory it is used with |
| `Cpu.System.constructor` | riscv_cpu.hpp:899-901 | A new system is a reset CPU with a zeroed memory |
| `Cpu.CPU.ExecuteM` | riscv_cpu.hpp:520-530 | The M arm |
| `Cpu.CPU.ExecuteA` | riscv_cpu.hpp:532-542 | The A arm |
| `Cpu.CPU.ExecuteZba` | riscv_cpu.hpp:564-573 | The Zba arm: read two registers, shift one, add, write rd |
| `Cpu.CPU.ExecuteZbb` | riscv_cpu.hpp:574-583 | The Zbb arm |
| `Cpu.CPU.ExecuteZbs` | riscv_cpu.hpp:584-593 | The Zbs arm, with the bit position from rs2 or the instruction |
| `Cpu.CPU.ExecuteZicond` | riscv_cpu.hpp:594-603 | The Zicond arm |
| `Cpu.CPU.RunInstruction` | riscv_cpu.hpp:414-431 | Executes a fetched or injected word by its length and finishes the step |
| `Cpu.CPU.FetchFaults` | riscv_cpu.hpp:240-245 | A failed fetch traps and finishes the step |
| `Common.RegFile.Read` | riscv_common.hpp:207-210 | Register 0 reads as zero |
| `Common.RegFile.Write` | riscv_common.hpp:212-215 | A write changes one register, and none when it addresses register 0 |
| `Common.RegFile.Reset` | riscv_common.hpp:217-219 | All registers become zero |
| `Common.SimpleMemory.CheckAddr` | riscv_common.hpp:84-90 | The bounds check, in unbounded arithmetic |
| `Common.SimpleMemory.ReadByte` | riscv_common.hpp:133-136 | Reads a byte, or fails out of bounds |
| `Common.SimpleMemory.ReadHalf` | riscv_common.hpp:143-148 | Reads a little-endian halfword, or fails |
| `Common.SimpleMemory.ReadWord` | riscv_common.hpp:157-164 | Reads a little-endian word, or fails |
| `Common.SimpleMemory.WriteByte` | riscv_common.hpp:138-141 | Writes a byte, or fails and changes nothing |
| `Common.SimpleMemory.WriteHalf` | riscv_common.hpp:150-155 | Writes a little-endian halfword, or fails and changes nothing |
| `Common.SimpleMemory.WriteWord` | riscv_common.hpp:166-173 | Writes a little-endian word, or fails and changes nothing |
| `Common.SimpleMemory.Clear` | riscv_common.hpp:188-190 | All bytes become zero |
| `Common.LoadFrom` | riscv_common.hpp:312-331 | Alignment check, then the bus read; misalignment and bus failure give the two load causes |
| `Common.StoreTo` | riscv_common.hpp:333-352 | Alignment check, then the bus write; a failed store leaves memory unchanged |
| `Rv32f.FRegFile.WriteBits` | riscv_rv32f.hpp:80-82 | A write changes one FP register |
| `Zicsr.CSRFile.InitStorage` | riscv_zicsr.hpp:234-290 | Storage becomes the reset contents of the configuration |
| `Zicsr.CSRFile.Write` | riscv_zicsr.hpp:436-560 | The architectural write: at most one cell changes, to the legalized value |
| `Zicsr.CSRFile.SetFExtension` | riscv_zicsr.hpp:299-305 | Switching F rewrites only the stored mstatus |
| `Zicsr.CSRFile.Reset` | riscv_zicsr.hpp:571-574 | Reset contents and M mode |
| `Zicsr.ExecuteOn` | riscv_zicsr.hpp:683-799 | The CSR executor leaves registers and CSR file as its specification says, failures first; CsrMeaning.CsrStep says what the set and clear forms write |
| `Rv32i.ExecuteOn` | riscv_rv32i.hpp:367-668 | The base executor leaves registers, memory and result as its specification says, links and traps in the order of the source |
| `Rv32c.ExecuteOn` | riscv_rv32c.hpp:350-506 | The compressed executor, with the jump target of C.JALR read before the link write |
| `Rv32a.ExecuteOn` | riscv_rv32a.hpp:215-414 | LR, SC and the nine AMOs on registers, memory and reservation as their specification says, with the clear skipped when the store faults; AtomicMeaning.AmoStep says what each AMO stores |
| `Rv32a.ReservationSet.Reserve` | riscv_rv32a.hpp:110-113 | Reserves the word containing the address |
| `Rv32a.ReservationSet.Clear` | riscv_rv32a.hpp:115-117 | Drops the reservation and keeps its address |
| `Rv32f.ExecuteOn` | riscv_rv32f.hpp:543-595 | Rounding-mode check, FP load and store, and the write of the result and flags that the FP unit yields |
| `Rv32fc.ExecuteOn` | riscv_rv32fc.hpp:183-261 | The four compressed FP loads and stores |
| `Cpu.CPU.Reset` | riscv_cpu.hpp:170-198 | Reset in the order of the source yields the reset state for any memory |
| `Cpu.CPU.EnterMTrap` | riscv_cpu.hpp:727-743 | Trap entry to M on the CSR file and reservation |
| `Cpu.CPU.EnterSTrap` | riscv_cpu.hpp:745-760 | Trap entry to S on the CSR file and reservation |
| `Cpu.StackForM` | riscv_cpu.hpp:729-737 | The field-by-field update of mstatus on trap entry to M yields the pushed word |
| `Cpu.StackForS` | riscv_cpu.hpp:747-754 | The same for S |
| `Cpu.UnstackM` | riscv_cpu.hpp:814-823 | The field-by-field update of mstatus on MRET yields the popped word |
| `Cpu.UnstackS` | riscv_cpu.hpp:836-843 | The same for SRET |
| `Cpu.CPU.TakeException` | riscv_cpu.hpp:673-688 | Trap entry and redirection for a synchronous exception, to the mode the delegation function gives (Delegation.ExceptionsDelegated) |
| `Cpu.CPU.TakePendingInterrupt` | riscv_cpu.hpp:764-807 | The two nested loops take the interrupt the specification chooses, or leave everything alone (Delegation.InterruptsDelivered gives its code and target) |
| `Cpu.CPU.DoMret` | riscv_cpu.hpp:813-832 | MRET on the CSR file, continuing at mepc |
| `Cpu.CPU.DoSret` | riscv_cpu.hpp:835-849 | SRET on the CSR file, continuing at sepc |
| `Cpu.CPU.SetLine` | riscv_cpu.hpp:851-855 | An input line sets or clears its mip bit and nothing else |
| `Cpu.CPU.BumpCounter` | riscv_cpu.hpp:861-877 | The 64-bit increment across two 32-bit cells |
| `Cpu.CPU.Execute32bit` | riscv_cpu.hpp:483-664 | Dispatch to the module that claims the word, with trap entry on failure |
| `Cpu.CPU.ExecuteI` | riscv_cpu.hpp:605-664 | The base arm runs the decoded instruction, with xRET, SFENCE.VMA and WFI admitted or refused by mode and mstatus (BaseMeaning says what each encoding does) |
| `Cpu.CPU.ExecuteF` | riscv_cpu.hpp:544-561 | The F arm with fcsr read before and written back after, valid or not |
| `Cpu.CPU.ExecuteCsr` | riscv_cpu.hpp:499-518 | The CSR arm with the TVM block on satp |
| `Cpu.CPU.ExecuteParcel` | riscv_cpu.hpp:451-474 | Compressed dispatch |
| `Cpu.CPU.BeginStep` | riscv_cpu.hpp:388-408 | Interrupts are sampled first; a delivery completes the step and counts only a cycle |
| `Cpu.CPU.FinishStep` | riscv_cpu.hpp:879-887 | The pc moves, mcycle counts, and minstret counts unless the step trapped |
| `Cpu.CPU.Step` | riscv_cpu.hpp:229-268 | The object performs exactly the fetched step of the state machine and returns its report |
| `Cpu.CPU.StepOpcode` | riscv_cpu.hpp:277-286 | The object performs exactly the injected step |
| `Cpu.CPU.Run` | riscv_cpu.hpp:301-310 | The loop leaves the state and returns the count of the bounded run |
| `Cpu.System.LoadProgram` | riscv_cpu.hpp:919-924 | The loop leaves the memory with all words loaded, or fails when one falls outside |
| `Cpu.System.Reset` | riscv_cpu.hpp:926-930 | CPU reset and zeroed memory |

## Left out

- Rounded FP arithmetic, comparison, conversion and classification: the FP unit is an arbitrary function parameter (`Rv32f.FpUnit`), so F instructions take part in every theorem without a model of the host FPU. Sign injection, moves, loads, stores, rounding-mode checks and flag accumulation are modelled.
- Rv32f.ExecuteOn: does not say what the arithmetic operations compute, because that is the parameter.
- Mnemonics, `disasm`, `trap_info` strings and `csr_name`: text output.
- CSR read and write callbacks, the FENCE.I callback, and custom `Bus` implementations: foreign code. Memory is `SimpleMemory`; its move operations, its external-buffer constructor and the byte-array form of `load_program` are not modelled.
- The random source, class masks and retry loops of the illegal-encoding generator, and all generators of valid opcodes: draws are arbitrary values subject to the conditions the loops enforce (`IllegalOpgen.Valid`).
- Changing the configuration between resets, and calls of the raw `set` from outside.
- Address translation, PMP and the effect of MPRV: not implemented by the source; satp is stored only.
- Common.SimpleMemory.CheckAddr: the null-buffer check of a moved-from memory is not modelled.
- Loading.FetchedEqualsInjected: says nothing about a program that does not fit, because the source throws in the middle of the loop; `Cpu.System.LoadProgram` then returns false.
- Nesting.SFrameRestores: one level of each mode, as the hart has one save slot per mode; a handler that saves its slot to memory and nests further is not modelled.
- Register fields and counters of result records that no other code reads (`loaded_value`, `memory_read` and the like).
