/** Traps in the terms of the privileged architecture: which mode takes them, and what they leave in which register. */
module Delegation {
  import opened Bits
  import opened BitNumbers
  import opened Common
  import opened Zicsr
  import opened Hart
  import opened Integers
  import opened Invariant
  import opened Precise
  import opened Interrupts
  import A = Rv32a
  import C = Rv32c
  import F = Rv32f
  import FC = Rv32fc
  import I = Rv32i
  import M = Rv32m
  import Zbb

  // ------------------------------------------------------------------
  // Exception codes
  // ------------------------------------------------------------------

  predicate IsExceptionCause(c: Word) {
    c == W(0) || c == W(1) || c == W(2) || c == W(3) || c == W(4) || c == W(5) || c == W(6) || c == W(7) ||
    c == W(8) || c == W(9) || c == W(11)
  }
  predicate Raises(t: Option<Trap>) { t.Some? ==> IsExceptionCause(t.value.cause) }

  lemma NamedCauses()
    ensures IsExceptionCause(INSTR_ADDR_MISALIGNED) && IsExceptionCause(ILLEGAL_INSTRUCTION) && IsExceptionCause(BREAKPOINT)
    ensures IsExceptionCause(ECALL_FROM_U) && IsExceptionCause(ECALL_FROM_S) && IsExceptionCause(ECALL_FROM_M)
  {}

  lemma LoadCause(m: Mem, addr: Word, size: Size, allow: bool)
    ensures Load(m, addr, size, allow).LoadFault? ==> IsExceptionCause(Load(m, addr, size, allow).cause)
  {
    hide Misaligned, ReadSized;
  }
  lemma StoreCause(m: Mem, addr: Word, size: Size, v: Word, allow: bool)
    ensures Store(m, addr, size, v, allow).StoreFault? ==> IsExceptionCause(Store(m, addr, size, v, allow).cause)
  {
    hide Misaligned, WriteSized;
  }

  lemma LoadArmCause(cfg: I.Config, d: I.Decoded, x: Regs, m: Mem, pc: Word)
    ensures var o := I.ExecuteLoad(cfg, d, x, m, pc); o.r.trap ==> IsExceptionCause(o.r.cause)
  {
    hide IsExceptionCause, GetReg, SetReg, Load, I.AccessSize, I.ExtendLoaded, Add;
    LoadCause(m, Add(GetReg(x, d.rs1), d.imm), I.AccessSize(d.op), cfg.allowMisaligned);
  }
  lemma StoreArmCause(cfg: I.Config, d: I.Decoded, x: Regs, m: Mem, pc: Word)
    ensures var o := I.ExecuteStore(cfg, d, x, m, pc); o.r.trap ==> IsExceptionCause(o.r.cause)
  {
    hide IsExceptionCause, GetReg, SetReg, Store, I.AccessSize, Add;
    StoreCause(m, Add(GetReg(x, d.rs1), d.imm), I.AccessSize(d.op), GetReg(x, d.rs2), cfg.allowMisaligned);
  }
  lemma JumpArmCause(cfg: I.Config, d: I.Decoded, x: Regs, m: Mem, pc: Word, target: Word)
    ensures var o := I.ExecuteJump(cfg, d, x, m, pc); o.r.trap ==> IsExceptionCause(o.r.cause)
    ensures var r := I.Goto(cfg, I.Fresh(pc), target); r.trap ==> IsExceptionCause(r.cause)
  {
    NamedCauses();
    hide IsExceptionCause, GetReg, SetReg, Add, And, Bit, INSTR_ADDR_MISALIGNED;
  }
  lemma SystemArmCause(cfg: I.Config, d: I.Decoded, pc: Word)
    ensures var r := I.ExecuteSystem(cfg, d, pc); r.trap ==> IsExceptionCause(r.cause)
  {
    NamedCauses();
    hide IsExceptionCause, Add, ILLEGAL_INSTRUCTION, BREAKPOINT, ECALL_FROM_U, ECALL_FROM_S, ECALL_FROM_M;
  }
  lemma ICause(cfg: I.Config, d: I.Decoded, x: Regs, m: Mem, pc: Word)
    ensures var o := I.Execute(cfg, d, x, m, pc); o.r.trap ==> IsExceptionCause(o.r.cause)
  {
    hide IsExceptionCause, GetReg, SetReg, I.Alu, I.BranchTaken, I.Goto, I.ExecuteLoad, I.ExecuteStore, I.ExecuteJump;
    hide I.ExecuteSystem;
    hide Add, I.IsBranch, I.IsLoad, I.IsStore, I.IsAluImm, I.IsAluReg;
    LoadArmCause(cfg, d, x, m, pc);
    StoreArmCause(cfg, d, x, m, pc);
    JumpArmCause(cfg, d, x, m, pc, Add(pc, d.imm));
    SystemArmCause(cfg, d, pc);
  }
  lemma CCause(allow: bool, d: C.Decoded, x: Regs, m: Mem, pc: Word)
    ensures var o := C.Execute(allow, d, x, m, pc); o.r.trap ==> IsExceptionCause(o.r.cause)
  {
    var addr := Add(GetReg(x, d.rs1), d.imm);
    LoadCause(m, addr, S4, allow);
    StoreCause(m, addr, S4, GetReg(x, d.rs2), allow);
    hide GetReg, SetReg, Load, Store, C.Alu, Add, And;
  }
  lemma ACause(d: A.Decoded, x: Regs, m: Mem, resv: A.Reservation)
    ensures var o := A.Execute(d, x, m, resv); !o.r.valid ==> IsExceptionCause(o.r.cause)
  {
    hide GetReg, SetReg, Read32, Write32, A.AmoValue, Bit, A.WordOf;
  }
  lemma FCause(fp: F.FpUnit, allow: bool, d: F.Decoded, x: Regs, f: Regs, m: Mem, fcsr: Word)
    ensures var o := F.Execute(fp, allow, d, x, f, m, fcsr); !o.r.valid ==> IsExceptionCause(o.r.cause)
  {
    var addr := Add(GetReg(x, d.rs1), d.imm);
    LoadCause(m, addr, S4, allow);
    StoreCause(m, addr, S4, F.GetF(f, d.rs2), allow);
    hide GetReg, SetReg, F.GetF, F.SetF, Load, Store, F.Compute, F.Accumulate, F.EffectiveRm, F.UsesRm, Add;
  }
  lemma FCCause(allow: bool, d: FC.Decoded, x: Regs, f: Regs, m: Mem)
    ensures var o := FC.Execute(allow, d, x, f, m); !o.r.valid ==> IsExceptionCause(o.r.cause)
  {
    var addr := Add(GetReg(x, d.rs1), d.uimm);
    LoadCause(m, addr, S4, allow);
    StoreCause(m, addr, S4, F.GetF(f, d.rs2), allow);
    hide GetReg, F.GetF, F.SetF, Load, Store, Add;
  }

  lemma RunICause(cfg: Config, h: State, i: Word)
    ensures Raises(RunI(cfg, h, i).trap)
  {
    ICause(IConfig(cfg, h.csrs), I.Decode(i, cfg.s), h.x, h.mem, h.pc);
    hide I.Execute, I.Decode, Mret, Sret, Blocked;
  }
  lemma RunACause(h: State, i: Word)
    ensures Raises(RunA(h, i).trap)
  {
    ACause(A.Decode(i), h.x, h.mem, h.resv);
    hide A.Execute, A.Decode;
  }
  lemma RunFCause(cfg: Config, fp: F.FpUnit, h: State, i: Word)
    ensures Raises(RunF(cfg, fp, h, i).trap)
  {
    FCause(fp, cfg.allowMisaligned, F.Decode(i), h.x, h.f, h.mem, F.FcsrView(GetCell(h.csrs, FCSR)));
    hide F.Execute, F.Decode, F.FcsrView, SetCell, GetCell;
  }
  lemma SmallCause(cfg: Config, h: State, i: Word)
    ensures Raises(RunCsr(cfg, h, i).trap) && Raises(RunM(h, i).trap) && Raises(RunZbb(h, i).trap)
    ensures RunZba(h, i).trap.None? && RunZbs(h, i).trap.None? && RunZicond(h, i).trap.None?
  {
    hide Decode, Execute, SatpBlocked, M.Decode, M.Execute, Zbb.Decode, Zbb.Execute, SetReg;
  }
  lemma CompressedCause(cfg: Config, h: State, p: Word)
    ensures Raises(ExecuteCompressed(cfg, h, p).trap)
  {
    CCause(cfg.allowMisaligned, C.Decode(p), h.x, h.mem, h.pc);
    FCCause(cfg.allowMisaligned, FC.Decode(p), h.x, h.f, h.mem);
    hide C.Execute, C.Decode, FC.Execute, FC.Decode, FC.IsCompressedFloat;
  }
  lemma Execute32Cause(cfg: Config, fp: F.FpUnit, h: State, i: Word)
    ensures Raises(Execute32(cfg, fp, h, i).trap)
  {
    SmallCause(cfg, h, i);
    RunACause(h, i);
    RunFCause(cfg, fp, h, i);
    RunICause(cfg, h, i);
    hide RunCsr, RunM, RunA, RunF, RunZba, RunZbb, RunZbs, RunZicond, RunI, IsExceptionCause;
    hide IsCsrInstruction;
  }

  /** Whatever is executed, the cause of an exception is one of the codes 0 to 9 and 11. */
  lemma ExecuteCause(cfg: Config, fp: F.FpUnit, h: State, i: Word)
    ensures Raises(ExecuteFetched(cfg, fp, h, i).trap)
  {
    Execute32Cause(cfg, fp, h, i);
    CompressedCause(cfg, h, Parcel(i));
    hide Execute32, ExecuteCompressed, Is32Bit, Parcel;
  }

  lemma SmallCode(c: Word)
    requires IsExceptionCause(c)
    ensures c.b < 32 && c.b & 0x7FFF_FFFF == c.b
  {}

  // ------------------------------------------------------------------
  // Delegation registers and pending bits, by bit number
  // ------------------------------------------------------------------

  lemma UpReads(w: Word, s: bv32)
    requires s < 32
    ensures ValueOf(s) < 32 && Bit(w, Up(1, s)) == NthBit(w.b, ValueOf(s))
  {
    hide *;
    UpOne(s);
    FiveBits(s);
    BitReads(w, Up(1, s), ValueOf(s));
  }

  /** Exception k is handled in S mode when S exists, the hart is below M and bit k of medeleg is set. */
  predicate ExceptionToS(cfg: Config, c: Csrs, k: nat) {
    cfg.s && c.priv != MACHINE && k < 32 && NthBit(GetCell(c, 0x302).b, k)
  }

  lemma ExceptionTargets(cfg: Config, c: Csrs, cause: Word)
    requires IsExceptionCause(cause)
    ensures DelegateTarget(cfg, c, cause, false) == if ExceptionToS(cfg, c, Value(cause)) then SUPERVISOR else MACHINE
  {
    SmallCode(cause);
    assert MEDELEG == 0x302;
    hide IsExceptionCause, NthBit, GetCell, Bit, Up, ValueOf;
    UpReads(GetCell(c, 0x302), cause.b);
  }

  /** The codes of the six interrupts, most urgent first: MEI, MSI, MTI, SEI, SSI, STI. */
  function Code(j: nat): nat {
    if j == 0 then 11 else if j == 1 then 3 else if j == 2 then 7 else if j == 3 then 9 else if j == 4 then 1 else 5
  }

  predicate InterruptToS(cfg: Config, c: Csrs, k: nat) { cfg.s && NthBit(GetCell(c, 0x303).b, k) }

  // Bit k of mip and of mie.
  predicate Waiting(c: Csrs, k: nat) { NthBit(GetCell(c, 0x344).b, k) && NthBit(GetCell(c, 0x304).b, k) }

  // Below its target an interrupt is always taken; at the target MIE or SIE decides; above it never.
  predicate Unmasked(cfg: Config, c: Csrs, k: nat) {
    if InterruptToS(cfg, c, k) then c.priv == USER || (c.priv == SUPERVISOR && NthBit(GetCell(c, 0x300).b, 1))
    else c.priv != MACHINE || NthBit(GetCell(c, 0x300).b, 3)
  }

  predicate Ready(cfg: Config, c: Csrs, k: nat) { Waiting(c, k) && Unmasked(cfg, c, k) }

  /** Code(j) is ready, and every other ready code comes later: those for S after those for M, then by position. */
  ghost predicate IsNext(cfg: Config, c: Csrs, j: nat) {
    j < 6 && Ready(cfg, c, Code(j)) &&
    forall i :: 0 <= i < 6 && i != j && Ready(cfg, c, Code(i)) ==>
      if InterruptToS(cfg, c, Code(i)) == InterruptToS(cfg, c, Code(j)) then j < i else InterruptToS(cfg, c, Code(i))
  }

  lemma PositionMask(i: Interrupt)
    ensures Code(Position(i)) < 32 && i.Mask() == Mask(Code(Position(i)))
  {
    LowMasks();
    hide Mask;
  }
  lemma CauseBits(i: Interrupt) ensures i.Cause().b & 0x7FFF_FFFF == i.Number() && i.Number() < 32 && HasTop(i.Cause().b) {}
  lemma SmallNumbers()
    ensures ValueOf(11) == 11 && ValueOf(3) == 3 && ValueOf(7) == 7 && ValueOf(9) == 9 && ValueOf(1) == 1 && ValueOf(5) == 5
  {
    assert Half(11) == 5 && Half(9) == 4 && Half(7) == 3 && Half(5) == 2 && Half(4) == 2 && Half(3) == 1 && Half(2) == 1 && Half(1) == 0;
    assert LowBit(11) == LowBit(9) == LowBit(7) == LowBit(5) == LowBit(3) == LowBit(1) == 1 && LowBit(4) == LowBit(2) == 0;
    hide *;
    ZeroValue();
    ValueStep(1); ValueStep(2); ValueStep(3); ValueStep(4); ValueStep(5); ValueStep(7); ValueStep(9); ValueStep(11);
  }
  lemma NumberIsCode(i: Interrupt)
    ensures ValueOf(i.Number()) == Code(Position(i))
  {
    SmallNumbers();
    hide ValueOf;
  }
  /** The cause an interrupt reports is its code with bit 31 set. */
  lemma CauseValue(i: Interrupt)
    ensures Value(i.Cause()) == 0x8000_0000 + Code(Position(i))
  {
    assert Low31(i.Cause().b) == i.Number() by { CauseBits(i); }
    hide *;
    assert Value(i.Cause()) == ValueOf(i.Cause().b) by { ValueIs(i.Cause()); }
    CauseBits(i);
    NumberIsCode(i);
    SplitValue(i.Cause().b);
  }
  lemma ValueIs(w: Word) ensures Value(w) == ValueOf(w.b) {}

  lemma InterruptTargets(cfg: Config, c: Csrs, i: Interrupt)
    ensures Target(cfg, c, i) == if InterruptToS(cfg, c, Code(Position(i))) then SUPERVISOR else MACHINE
  {
    CauseBits(i);
    NumberIsCode(i);
    assert MIDELEG == 0x303;
    hide NthBit, GetCell, Bit, Up, ValueOf, Code, Position, Interrupt.Cause, Interrupt.Number;
    UpReads(GetCell(c, 0x303), i.Number());
  }

  lemma DeliverableIsReady(cfg: Config, c: Csrs, i: Interrupt)
    ensures Deliverable(cfg, c, i) == Ready(cfg, c, Code(Position(i)))
  {
    var k := Code(Position(i));
    var pending := And(GetCell(c, 0x344), GetCell(c, 0x304));
    PositionMask(i);
    LowMasks();
    InterruptTargets(cfg, c, i);
    assert MIP == 0x344 && MIE == 0x304 && MSTATUS == 0x300 && MSTATUS_MIE == 0x8 && MSTATUS_SIE == 0x2;
    hide NthBit, GetCell, Bit, And, Mask, Target, InterruptToS, Code, Position, Interrupt.Mask, MSTATUS_MIE, MSTATUS_SIE;
    BitReads(pending, i.Mask(), k);
    AndWord(GetCell(c, 0x344), GetCell(c, 0x304));
    BothBit(GetCell(c, 0x344).b, GetCell(c, 0x304).b, k);
    BitReads(GetCell(c, 0x300), 0x8, 3);
    BitReads(GetCell(c, 0x300), 0x2, 1);
  }

  // ------------------------------------------------------------------
  // What a trap leaves
  // ------------------------------------------------------------------

  /** MIE moves to MPIE and is cleared, MPP records p, and no other bit changes. */
  predicate StackedM(ms: bv32, p: Privilege, ms': bv32) {
    !NthBit(ms', 3) && NthBit(ms', 7) == NthBit(ms, 3) && NthBit(ms', 11) == (p != USER) && NthBit(ms', 12) == (p == MACHINE) &&
    ms' & 0xFFFF_E777 == ms & 0xFFFF_E777
  }

  /** SIE moves to SPIE and is cleared, SPP records p, and no other bit changes. */
  predicate StackedS(ms: bv32, p: Privilege, ms': bv32) {
    !NthBit(ms', 1) && NthBit(ms', 5) == NthBit(ms, 1) && NthBit(ms', 8) == (p == SUPERVISOR) &&
    ms' & 0xFFFF_FEDD == ms & 0xFFFF_FEDD
  }

  lemma KeptM(a: bv32, b: bv32) requires (a ^ b) & !(MSTATUS_MIE | MSTATUS_MPIE | MSTATUS_MPP) == 0 ensures a & 0xFFFF_E777 == b & 0xFFFF_E777 {}
  lemma KeptS(a: bv32, b: bv32) requires (a ^ b) & !(MSTATUS_SIE | MSTATUS_SPIE | MSTATUS_SPP) == 0 ensures a & 0xFFFF_FEDD == b & 0xFFFF_FEDD {}
  lemma MppBits(b: bv32, v: bv32)
    requires (b >> 11) & 3 == v
    ensures Meets(b, 0x800) == Meets(v, 1) && Meets(b, 0x1000) == Meets(v, 2)
  {}
  lemma RankMeets(p: Privilege)
    requires !p.RESERVED?
    ensures Meets(RankBits(p), 1) == (p != USER) && Meets(RankBits(p), 2) == (p == MACHINE)
  {}

  lemma StacksM(ms: Word, p: Privilege, ms': Word)
    requires PushedM(ms, p, ms')
    ensures ms'.b & 0xFFFF_E777 == ms.b & 0xFFFF_E777
    ensures !Bit(ms', 0x8) && Bit(ms', 0x80) == Bit(ms, 0x8) && (ms'.b >> 11) & 3 == RankBits(p)
  {
    KeptM(ms'.b, ms.b);
    hide Bit;
  }
  lemma MppStacked(b: bv32, p: Privilege)
    requires (b >> 11) & 3 == RankBits(p) && !p.RESERVED?
    ensures NthBit(b, 11) == (p != USER) && NthBit(b, 12) == (p == MACHINE)
  {
    MppBits(b, RankBits(p));
    hide *;
    RankMeets(p);
    LowMasks();
    HighMasks();
    MaskReads(b, 11);
    MaskReads(b, 12);
  }

  lemma PushedIsStackedM(ms: Word, p: Privilege, ms': Word)
    requires PushedM(ms, p, ms') && !p.RESERVED?
    ensures StackedM(ms.b, p, ms'.b)
  {
    hide NthBit, Mask, Bit, PushedM, RankBits;
    StacksM(ms, p, ms');
    MppStacked(ms'.b, p);
    LowMasks();
    BitReads(ms', 0x8, 3);
    BitReads(ms', 0x80, 7);
    BitReads(ms, 0x8, 3);
  }
  lemma PushedIsStackedS(ms: Word, p: Privilege, ms': Word)
    requires PushedS(ms, p, ms')
    ensures StackedS(ms.b, p, ms'.b)
  {
    KeptS(ms'.b, ms.b);
    LowMasks();
    assert MSTATUS_SIE == 0x2 && MSTATUS_SPIE == 0x20 && MSTATUS_SPP == 0x100;
    hide NthBit, Mask, Bit, Meets;
    BitReads(ms', 0x2, 1);
    BitReads(ms', 0x20, 5);
    BitReads(ms', 0x100, 8);
    BitReads(ms, 0x2, 1);
  }

  /** Registers, FP registers and memory stay, the reservation goes, and no CSR outside the list changes. */
  ghost predicate LeavesAlone(h: State, cells: set<Addr>, h': State) {
    h'.x == h.x && h'.f == h.f && h'.mem == h.mem && !h'.resv.valid &&
    forall a :: a !in cells ==> GetCell(h'.csrs, a) == GetCell(h.csrs, a)
  }

  // The handler's address: the base of the vector register plus an offset, modulo 2^32.
  predicate Vectors(tvec: Word, offset: nat, pc: Word) { Value(pc) == ModWords(Value(tvec) / 4 * 4 + offset) }

  /** The hart has trapped to M: mepc, mcause and mtval record the trap, mstatus its context, and mtvec gives the handler. */
  ghost predicate HandledInM(h: State, cause: nat, tval: Word, offset: nat, h': State) {
    h'.csrs.priv == MACHINE && GetCell(h'.csrs, 0x341) == h.pc &&
    Value(GetCell(h'.csrs, 0x342)) == cause && GetCell(h'.csrs, 0x343) == tval &&
    StackedM(GetCell(h.csrs, 0x300).b, h.csrs.priv, GetCell(h'.csrs, 0x300).b) &&
    Vectors(GetCell(h.csrs, 0x305), offset, h'.pc) && LeavesAlone(h, {0x300, 0x341, 0x342, 0x343, 0xB00, 0xB80}, h')
  }

  /** The hart has trapped to S: likewise with sepc, scause, stval and stvec. */
  ghost predicate HandledInS(h: State, cause: nat, tval: Word, offset: nat, h': State) {
    h'.csrs.priv == SUPERVISOR && GetCell(h'.csrs, 0x141) == h.pc &&
    Value(GetCell(h'.csrs, 0x142)) == cause && GetCell(h'.csrs, 0x143) == tval &&
    StackedS(GetCell(h.csrs, 0x300).b, h.csrs.priv, GetCell(h'.csrs, 0x300).b) &&
    Vectors(GetCell(h.csrs, 0x105), offset, h'.pc) && LeavesAlone(h, {0x300, 0x141, 0x142, 0x143, 0xB00, 0xB80}, h')
  }

  lemma TrapInM(cfg: Config, h: State, cause: Word, tval: Word, offset: nat, h': State)
    requires Ok(cfg, h) && TrapStep(MACHINE, h, cause, tval, h') && Vectors(GetCell(h.csrs, 0x305), offset, h'.pc)
    ensures HandledInM(h, Value(cause), tval, offset, h')
  {
    PrivilegeIsImplemented(cfg, h.csrs);
    assert MSTATUS == 0x300 && EpcOf(MACHINE) == 0x341 && CauseOf(MACHINE) == 0x342 && TvalOf(MACHINE) == 0x343;
    assert MCYCLE == 0xB00 && MCYCLEH == 0xB80;
    hide CsrsOk, Aligned, PushedM, StackedM, GetCell, ValueOf, Vectors, EpcOf, CauseOf, TvalOf;
    PushedIsStackedM(GetCell(h.csrs, 0x300), h.csrs.priv, GetCell(h'.csrs, 0x300));
  }
  lemma TrapInS(h: State, cause: Word, tval: Word, offset: nat, h': State)
    requires TrapStep(SUPERVISOR, h, cause, tval, h') && Vectors(GetCell(h.csrs, 0x105), offset, h'.pc)
    ensures HandledInS(h, Value(cause), tval, offset, h')
  {
    assert MSTATUS == 0x300 && EpcOf(SUPERVISOR) == 0x141 && CauseOf(SUPERVISOR) == 0x142 && TvalOf(SUPERVISOR) == 0x143;
    assert MCYCLE == 0xB00 && MCYCLEH == 0xB80;
    hide PushedS, StackedS, GetCell, ValueOf, Vectors, EpcOf, CauseOf, TvalOf;
    PushedIsStackedS(GetCell(h.csrs, 0x300), h.csrs.priv, GetCell(h'.csrs, 0x300));
  }

  // ------------------------------------------------------------------
  // Vector addresses
  // ------------------------------------------------------------------

  lemma BaseHalves(b: bv32) ensures Half(Half(b & !3)) == Half(Half(b)) && LowBit(b & !3) == 0 && LowBit(Half(b & !3)) == 0 {}
  lemma ModeBits(b: bv32) ensures b & 3 == 1 <==> LowBit(b) == 1 && LowBit(Half(b)) == 0 {}
  lemma BaseIs(tvec: Word) ensures Base(tvec).b == tvec.b & !3 {}

  lemma FourParts(b: bv32)
    ensures ValueOf(b) == 4 * ValueOf(Half(Half(b))) + 2 * LowBit(Half(b)) + LowBit(b)
    ensures ValueOf(b) / 4 == ValueOf(Half(Half(b)))
  {
    hide *;
    ValueStep(b);
    ValueStep(Half(b));
    LowIsBit(b);
    LowIsBit(Half(b));
  }
  lemma BaseValue(tvec: Word)
    ensures Value(Base(tvec)) == Value(tvec) / 4 * 4 && (tvec.b & 3 == 1 <==> Value(tvec) % 4 == 1)
  {
    BaseIs(tvec);
    ValueIs(tvec);
    ValueIs(Base(tvec));
    hide *;
    BaseHalves(tvec.b);
    ModeBits(tvec.b);
    LowIsBit(tvec.b);
    LowIsBit(Half(tvec.b));
    FourParts(tvec.b);
    FourParts(tvec.b & !3);
  }
  lemma FourTimes(n: bv32)
    requires n < 32
    ensures 4 * n == Double(Double(n))
  {}
  lemma FourTimesValue(n: bv32)
    requires n < 32
    ensures ValueOf(4 * n) == 4 * ValueOf(n)
  {
    FourTimes(n);
    assert WORDS == 0x1_0000_0000;
    hide *;
    FiveBits(n);
    DoubleValue(n);
    DoubleValue(Double(n));
  }

  lemma DirectVector(tvec: Word)
    ensures Vectors(tvec, 0, Base(tvec))
  {
    hide ValueOf, Base;
    BaseValue(tvec);
    ValueBound(tvec);
  }
  lemma InterruptVector(tvec: Word, i: Interrupt)
    ensures Vectors(tvec, if Value(tvec) % 4 == 1 then 4 * Code(Position(i)) else 0, Vectored(tvec, i.Number()))
  {
    CauseBits(i);
    NumberIsCode(i);
    hide ValueOf, Base, Code, Position, Interrupt.Number, Interrupt.Cause, Add, ModWords;
    DirectVector(tvec);
    BaseValue(tvec);
    FourTimesValue(i.Number());
    AddValue(Base(tvec), W(4 * i.Number()));
  }

  // ------------------------------------------------------------------
  // Exceptions
  // ------------------------------------------------------------------

  /** The exception a step reports is handled by the mode the delegation register selects, at the base of its vector. */
  ghost predicate ExceptionHandled(cfg: Config, h: State, s: Stepped) {
    var k := Value(s.r.cause);
    s.r.nextPc == s.h.pc && (k <= 9 || k == 11) &&
    if ExceptionToS(cfg, h.csrs, k) then HandledInS(h, k, s.r.tval, 0, s.h) else HandledInM(h, k, s.r.tval, 0, s.h)
  }

  lemma CodeRange(c: Word)
    requires IsExceptionCause(c)
    ensures Value(c) <= 9 || Value(c) == 11
  {
    SmallNumbers();
    assert Half(8) == 4 && Half(6) == 3 && Half(4) == 2 && Half(2) == 1 && LowBit(8) == 0 && LowBit(6) == 0 && LowBit(4) == 0 && LowBit(2) == 0;
    ValueIs(c);
    ZeroValue();
    hide ValueOf, Half, LowBit;
    ValueStep(2); ValueStep(4); ValueStep(6); ValueStep(8);
  }

  lemma PreciseHandled(cfg: Config, h: State, s: Stepped)
    requires Ok(cfg, h) && PreciseException(cfg, h, s) && IsExceptionCause(s.r.cause)
    ensures ExceptionHandled(cfg, h, s)
  {
    var target := DelegateTarget(cfg, h.csrs, s.r.cause, false);
    ExceptionTargets(cfg, h.csrs, s.r.cause);
    CodeRange(s.r.cause);
    assert Tvec(target) == if target == SUPERVISOR then 0x105 else 0x305;
    hide Ok, IsExceptionCause, TrapStep, DelegateTarget, ExceptionToS, GetCell, HandledInM, HandledInS, Vectors, Base;
    hide Tvec, ValueOf;
    DirectVector(GetCell(h.csrs, Tvec(target)));
    if target == SUPERVISOR {
      TrapInS(h, s.r.cause, s.r.tval, 0, s.h);
    } else {
      TrapInM(cfg, h, s.r.cause, s.r.tval, 0, s.h);
    }
  }

  lemma FinishCause(cfg: Config, e: Exec, r: StepResult)
    requires Raises(e.trap) && !r.trap
    ensures Finish(cfg, e, r).r.trap ==> IsExceptionCause(Finish(cfg, e, r).r.cause)
  {
    hide IsExceptionCause, TakeException, BumpCycle, BumpInstret;
  }
  lemma StepCause(cfg: Config, fp: F.FpUnit, h: State, i: Word)
    ensures var s := StepInstruction(cfg, fp, h, i); s.r.trap ==> IsExceptionCause(s.r.cause)
  {
    hide IsExceptionCause, ExecuteFetched, Finish, Is32Bit, Raises;
    ExecuteCause(cfg, fp, h, i);
    FinishCause(cfg, ExecuteFetched(cfg, fp, h, i), ExecutingResult(h, i));
  }
  lemma FaultCause(cfg: Config, h: State, addr: Word)
    ensures var s := Finish(cfg, FetchTrap(h, addr), StartResult(h.pc)); s.r.trap ==> IsExceptionCause(s.r.cause)
  {
    hide Finish;
    FinishCause(cfg, FetchTrap(h, addr), StartResult(h.pc));
  }

  /**
   * A step that reports exception k ends in S mode if S exists, the hart was below M and bit k of CSR 0x302 is set,
   * and otherwise in M mode.
   */
  lemma ExceptionsDelegated(cfg: Config, fp: F.FpUnit, h: State, opcode: Word)
    requires Ok(cfg, h)
    ensures StepFetched(cfg, fp, h).r.trap ==> ExceptionHandled(cfg, h, StepFetched(cfg, fp, h))
    ensures StepInjected(cfg, fp, h, opcode).r.trap ==> ExceptionHandled(cfg, h, StepInjected(cfg, fp, h, opcode))
  {
    PreciseTraps(cfg, fp, h, opcode);
    InterruptMeansChosen(cfg, fp, h, opcode);
    hide Choose, Fetch, Ok, IsExceptionCause, PreciseException, ExceptionHandled, StepInstruction, Finish, FetchTrap;
    var s, t := StepFetched(cfg, fp, h), StepInjected(cfg, fp, h, opcode);
    if Choose(cfg, h.csrs).None? {
      StepCause(cfg, fp, h, opcode);
      if t.r.trap { PreciseHandled(cfg, h, t); }
      match Fetch(h.mem, h.pc) {
        case Instruction(i) => StepCause(cfg, fp, h, i);
        case FetchFault(addr) => FaultCause(cfg, h, addr);
      }
      if s.r.trap { PreciseHandled(cfg, h, s); }
    }
  }

  // ------------------------------------------------------------------
  // Interrupts
  // ------------------------------------------------------------------

  /** Interrupt k has been delivered: to S or M as mideleg says, with its code as the cause and its place in a vectored table. */
  ghost predicate Delivered(cfg: Config, h: State, k: nat, s: Stepped) {
    s.r.interrupt && !s.r.trap && Value(s.r.cause) == 0x8000_0000 + k && s.r.nextPc == s.h.pc &&
    if InterruptToS(cfg, h.csrs, k) then
      HandledInS(h, 0x8000_0000 + k, W(0), if Value(GetCell(h.csrs, 0x105)) % 4 == 1 then 4 * k else 0, s.h)
    else
      HandledInM(h, 0x8000_0000 + k, W(0), if Value(GetCell(h.csrs, 0x305)) % 4 == 1 then 4 * k else 0, s.h)
  }

  lemma DeliveryVectored(cfg: Config, h: State, i: Interrupt)
    requires Ok(cfg, h)
    ensures var s := Deliver(cfg, h, i);
      var target := Target(cfg, h.csrs, i);
      TrapStep(target, h, i.Cause(), W(0), s.h) && s.r.interrupt && !s.r.trap && s.r.cause == i.Cause() && s.r.nextPc == s.h.pc &&
      s.h.pc == Vectored(GetCell(h.csrs, Tvec(target)), i.Number())
  {
    hide TrapStep, TakeInterrupt, Target, GetCell, Base, Add, Tvec, BumpCycle, Ok, Interrupt.Cause, Interrupt.Number;
    DeliveryEffect(cfg, h, i);
  }

  lemma TvecIs(target: Privilege) ensures Tvec(target) == if target == SUPERVISOR then 0x105 else 0x305 {}
  lemma DeliveryIsDelivered(cfg: Config, h: State, i: Interrupt)
    requires Ok(cfg, h)
    ensures Delivered(cfg, h, Code(Position(i)), Deliver(cfg, h, i))
  {
    hide Ok, TrapStep, Deliver, Target, InterruptToS, GetCell, HandledInM, HandledInS, Vectors, Vectored, Tvec, ValueOf;
    hide Code, Position, Interrupt.Cause, Interrupt.Number;
    var target := Target(cfg, h.csrs, i);
    var s := Deliver(cfg, h, i);
    InterruptTargets(cfg, h.csrs, i);
    DeliveryVectored(cfg, h, i);
    CauseValue(i);
    TvecIs(target);
    InterruptVector(GetCell(h.csrs, Tvec(target)), i);
    var offset := if Value(GetCell(h.csrs, Tvec(target))) % 4 == 1 then 4 * Code(Position(i)) else 0;
    if target == SUPERVISOR {
      TrapInS(h, i.Cause(), W(0), offset, s.h);
    } else {
      TrapInM(cfg, h, i.Cause(), W(0), offset, s.h);
    }
  }

  lemma PositionBelow(i: Interrupt) ensures Position(i) < 6 {}
  function Placed(j: nat): Interrupt {
    if j == 0 then MEI else if j == 1 then MSI else if j == 2 then MTI else if j == 3 then SEI else if j == 4 then SSI else STI
  }
  lemma AtPosition(j: nat)
    requires j < 6
    ensures Position(Placed(j)) == j
  {}

  lemma FirstIsNext(cfg: Config, c: Csrs, i: Interrupt)
    requires IsFirst(cfg, c, i)
    ensures IsNext(cfg, c, Position(i))
  {
    hide Deliverable, Ready, Target, InterruptToS, Code, Placed, Position;
    PositionBelow(i);
    DeliverableIsReady(cfg, c, i);
    InterruptTargets(cfg, c, i);
    forall j | 0 <= j < 6 && j != Position(i) && Ready(cfg, c, Code(j))
      ensures if InterruptToS(cfg, c, Code(j)) == InterruptToS(cfg, c, Code(Position(i))) then Position(i) < j else InterruptToS(cfg, c, Code(j))
    {
      var other := Placed(j);
      AtPosition(j);
      DeliverableIsReady(cfg, c, other);
      InterruptTargets(cfg, c, other);
      assert Precedes(cfg, c, i, other);
    }
  }

  lemma NextIsUnique(cfg: Config, c: Csrs, i: nat, j: nat)
    requires IsNext(cfg, c, i) && IsNext(cfg, c, j)
    ensures i == j
  {
    hide Ready, InterruptToS, Code;
  }

  /**
   * An interrupt is delivered exactly when some code is ready, and then it is the next one: M targets first, and within a
   * target in the order 11, 3, 7, 9, 1, 5.
   */
  ghost predicate DeliversNext(cfg: Config, h: State, s: Stepped) {
    (s.r.interrupt <==> exists j :: 0 <= j < 6 && Ready(cfg, h.csrs, Code(j))) &&
    (s.r.interrupt ==> exists j :: IsNext(cfg, h.csrs, j)) &&
    (forall j :: IsNext(cfg, h.csrs, j) ==> Delivered(cfg, h, Code(j), s))
  }

  lemma ChosenDelivered(cfg: Config, h: State, i: Interrupt)
    requires Ok(cfg, h) && IsFirst(cfg, h.csrs, i)
    ensures DeliversNext(cfg, h, Deliver(cfg, h, i))
  {
    hide Deliver, Deliverable, IsFirst, IsNext, Ready, Ok, Code, Position, HandledInM, HandledInS, InterruptToS;
    DeliveryIsDelivered(cfg, h, i);
    ChosenIsNext(cfg, h.csrs, i);
    forall j | IsNext(cfg, h.csrs, j) ensures j == Position(i) { NextIsUnique(cfg, h.csrs, j, Position(i)); }
  }
  lemma NothingDelivered(cfg: Config, h: State, s: Stepped)
    requires !s.r.interrupt && forall j: Interrupt :: !Deliverable(cfg, h.csrs, j)
    ensures DeliversNext(cfg, h, s)
  {
    hide Deliverable, IsNext, Ready, Code, Position, Delivered, Placed;
    forall j | 0 <= j < 6 ensures !Ready(cfg, h.csrs, Code(j)) {
      AtPosition(j);
      DeliverableIsReady(cfg, h.csrs, Placed(j));
    }
    forall j ensures !IsNext(cfg, h.csrs, j) { NextIsReady(cfg, h.csrs, j); }
  }

  lemma InterruptsDelivered(cfg: Config, fp: F.FpUnit, h: State, opcode: Word)
    requires Ok(cfg, h)
    ensures DeliversNext(cfg, h, StepFetched(cfg, fp, h)) && DeliversNext(cfg, h, StepInjected(cfg, fp, h, opcode))
  {
    hide StepFetched, StepInjected, Choose, Deliver, Deliverable, IsFirst, DeliversNext, Ok;
    ScanIsCorrect(cfg, h.csrs);
    InterruptMeansChosen(cfg, fp, h, opcode);
    match Choose(cfg, h.csrs)
    case Some(i) => ChosenDelivered(cfg, h, i);
    case None =>
      NothingDelivered(cfg, h, StepFetched(cfg, fp, h));
      NothingDelivered(cfg, h, StepInjected(cfg, fp, h, opcode));
  }
  lemma NextIsReady(cfg: Config, c: Csrs, j: nat)
    ensures IsNext(cfg, c, j) ==> j < 6 && Ready(cfg, c, Code(j))
  {
    hide Ready, Code;
  }
  lemma ChosenIsNext(cfg: Config, c: Csrs, i: Interrupt)
    requires IsFirst(cfg, c, i)
    ensures IsNext(cfg, c, Position(i)) && Position(i) < 6 && Ready(cfg, c, Code(Position(i)))
  {
    FirstIsNext(cfg, c, i);
    hide IsFirst, Ready, Position, Code;
  }
}
