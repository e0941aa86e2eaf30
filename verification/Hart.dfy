/** The hart as a step machine: what one CPU step does to the architectural state. */
module Hart {
  import opened Bits
  import opened Common
  import opened Zicsr
  import A = Rv32a
  import C = Rv32c
  import F = Rv32f
  import FC = Rv32fc
  import I = Rv32i
  import M = Rv32m
  import Zba
  import Zbb
  import Zbs
  import Zicond
  import Zifencei

  /** CPUConfig. */
  datatype Config = Config(
    m: bool, a: bool, f: bool, c: bool, zicsr: bool, zifencei: bool,
    zba: bool, zbb: bool, zbs: bool, zicond: bool,
    s: bool, u: bool,
    allowMisaligned: bool,
    resetVector: Word, mtvecReset: Word)

  /** The architectural state together with the memory behind the bus. */
  datatype State = State(x: Regs, f: Regs, csrs: Csrs, pc: Word, resv: A.Reservation, mem: Mem)

  // ------------------------------------------------------------------
  // Reset
  // ------------------------------------------------------------------

  function EpcMask(cfg: Config): Word { if cfg.c then W(0xFFFF_FFFE) else W(0xFFFF_FFFC) }

  function MisaValue(cfg: Config): Word {
    W(Either(Either(Either(0x4000_0000, 0x100), Either(if cfg.a then 0x1 else 0, if cfg.c then 0x4 else 0)),
             Either(Either(if cfg.f then 0x20 else 0, if cfg.m then 0x1000 else 0),
                    Either(if cfg.s then 0x4_0000 else 0, if cfg.u then 0x10_0000 else 0))))
  }

  function ResetCsrs(cfg: Config): Csrs {
    var c := Csrs(InitialCells(cfg.f, cfg.s, cfg.u), MACHINE, cfg.f, cfg.s, cfg.u, EpcMask(cfg));
    SetCell(WriteCsr(c, MTVEC, cfg.mtvecReset), MISA, MisaValue(cfg))
  }

  // clear() drops the reservation but keeps its address.
  function Reset(cfg: Config, resv: A.Reservation, mem: Mem): State {
    State(ZeroRegs(), ZeroRegs(), ResetCsrs(cfg), cfg.resetVector, A.Cleared(resv), mem)
  }

  // ------------------------------------------------------------------
  // Trap entry and return
  // ------------------------------------------------------------------

  function RankBits(p: Privilege): bv32 {
    match p case USER => 0 case SUPERVISOR => 1 case RESERVED => 2 case MACHINE => 3
  }

  function MTrapStatus(ms: Word, p: Privilege): Word {
    W((ms.b & !(MSTATUS_MIE | MSTATUS_MPIE | MSTATUS_MPP))
      | (if Bit(ms, MSTATUS_MIE) then MSTATUS_MPIE else 0)
      | (RankBits(p) << 11))
  }

  function STrapStatus(ms: Word, p: Privilege): Word {
    W((ms.b & !(MSTATUS_SIE | MSTATUS_SPIE | MSTATUS_SPP))
      | (if Bit(ms, MSTATUS_SIE) then MSTATUS_SPIE else 0)
      | (if p == SUPERVISOR then MSTATUS_SPP else 0))
  }

  function EnterMTrap(c: Csrs, cause: Word, tval: Word, pc: Word): Csrs {
    var c := SetCell(c, MSTATUS, MTrapStatus(GetCell(c, MSTATUS), c.priv)).(priv := MACHINE);
    SetCell(SetCell(WriteCsr(c, MEPC, pc), MCAUSE, cause), MTVAL, tval)
  }

  function EnterSTrap(c: Csrs, cause: Word, tval: Word, pc: Word): Csrs {
    var c := SetCell(c, MSTATUS, STrapStatus(GetCell(c, MSTATUS), c.priv)).(priv := SUPERVISOR);
    SetCell(SetCell(WriteCsr(c, SEPC, pc), SCAUSE, cause), STVAL, tval)
  }

  function DelegateTarget(cfg: Config, c: Csrs, cause: Word, isInterrupt: bool): Privilege {
    if !cfg.s || (!isInterrupt && c.priv == MACHINE) then MACHINE
    else
      var bit := cause.b & 0x7FFF_FFFF;
      if bit >= 32 then MACHINE
      else if Bit(GetCell(c, if isInterrupt then MIDELEG else MEDELEG), Up(1, bit)) then SUPERVISOR
      else MACHINE
  }

  function Base(tvec: Word): Word { W(tvec.b & !3) }

  /** The state after entering the handler for a trap, with the pc still to be set. */
  datatype Entry = Entry(csrs: Csrs, handler: Word)

  function EnterTrap(target: Privilege, c: Csrs, cause: Word, tval: Word, pc: Word): Csrs {
    if target == SUPERVISOR then EnterSTrap(c, cause, tval, pc) else EnterMTrap(c, cause, tval, pc)
  }

  function Tvec(target: Privilege): Addr { if target == SUPERVISOR then STVEC else MTVEC }

  // Synchronous exceptions go to BASE even in vectored mode.
  function TakeException(cfg: Config, c: Csrs, t: Trap, pc: Word): Entry {
    var target := DelegateTarget(cfg, c, t.cause, false);
    var c' := EnterTrap(target, c, t.cause, t.tval, pc);
    Entry(c', Base(GetCell(c', Tvec(target))))
  }

  // MIE from MPIE, MPIE set, MPP cleared.
  function RestoredMie(ms: bv32): bv32 {
    (ms & !(MSTATUS_MIE | MSTATUS_MPP)) | (if ms & MSTATUS_MPIE != 0 then MSTATUS_MIE else 0) | MSTATUS_MPIE
  }
  // MPP becomes the least-privileged mode implemented.
  function LeastMpp(v: bv32, u: bool): bv32 { if u then v else v | MSTATUS_MPP }

  function MretStatus(u: bool, ms: Word): Word {
    var v := LeastMpp(RestoredMie(ms.b), u);
    W(if (ms.b >> 11) & 3 != 3 then v & !MSTATUS_MPRV else v)
  }

  function MppPrivilege(ms: Word): Privilege {
    var mpp := (ms.b >> 11) & 3;
    if mpp == 0 then USER else if mpp == 1 then SUPERVISOR else MACHINE
  }

  function Mret(c: Csrs): Csrs {
    var ms := GetCell(c, MSTATUS);
    SetCell(c, MSTATUS, MretStatus(c.u, ms)).(priv := MppPrivilege(ms))
  }

  function SretStatus(ms: Word): Word {
    W((ms.b & !(MSTATUS_SIE | MSTATUS_SPP | MSTATUS_MPRV)) | (if Bit(ms, MSTATUS_SPIE) then MSTATUS_SIE else 0) | MSTATUS_SPIE)
  }

  function Sret(c: Csrs): Csrs {
    var ms := GetCell(c, MSTATUS);
    SetCell(c, MSTATUS, SretStatus(ms)).(priv := if Bit(ms, MSTATUS_SPP) then SUPERVISOR else USER)
  }

  // ------------------------------------------------------------------
  // Interrupts
  // ------------------------------------------------------------------

  datatype Interrupt = MEI | MSI | MTI | SEI | SSI | STI {
    function Number(): bv32 {
      match this case MEI => 11 case MSI => 3 case MTI => 7 case SEI => 9 case SSI => 1 case STI => 5
    }
    function Mask(): bv32 {
      match this
      case MEI => MI_MEI case MSI => MI_MSI case MTI => MI_MTI
      case SEI => MI_SEI case SSI => MI_SSI case STI => MI_STI
    }
    function Cause(): Word { W(0x8000_0000 | Number()) }
  }

  const PRIORITY: seq<Interrupt> := [MEI, MSI, MTI, SEI, SSI, STI]

  predicate GloballyEnabled(c: Csrs, target: Privilege) {
    c.priv.Rank() < target.Rank() ||
    (c.priv == target &&
     ((target == MACHINE && Bit(GetCell(c, MSTATUS), MSTATUS_MIE)) ||
      (target == SUPERVISOR && Bit(GetCell(c, MSTATUS), MSTATUS_SIE))))
  }

  function Target(cfg: Config, c: Csrs, i: Interrupt): Privilege { DelegateTarget(cfg, c, i.Cause(), true) }

  predicate Pending(c: Csrs, i: Interrupt) { Bit(And(GetCell(c, MIP), GetCell(c, MIE)), i.Mask()) }

  /** Pending, enabled in mie, and globally enabled for its target. */
  predicate Deliverable(cfg: Config, c: Csrs, i: Interrupt) {
    Pending(c, i) && GloballyEnabled(c, Target(cfg, c, i))
  }

  // First deliverable interrupt in PRIORITY[k..] whose target is M (toM) or below M.
  function FirstFrom(cfg: Config, c: Csrs, toM: bool, k: nat): Option<Interrupt>
    requires k <= |PRIORITY|
    decreases |PRIORITY| - k
  {
    if k == |PRIORITY| then None
    else if Deliverable(cfg, c, PRIORITY[k]) && (Target(cfg, c, PRIORITY[k]) == MACHINE) == toM then Some(PRIORITY[k])
    else FirstFrom(cfg, c, toM, k + 1)
  }

  /** The interrupt a step takes: machine targets first, then the standard order. */
  function Choose(cfg: Config, c: Csrs): Option<Interrupt> {
    match FirstFrom(cfg, c, true, 0)
    case Some(i) => Some(i)
    case None => FirstFrom(cfg, c, false, 0)
  }

  function Vectored(tvec: Word, number: bv32): Word {
    if tvec.b & 3 == 1 then Add(Base(tvec), W(4 * number)) else Base(tvec)
  }

  function TakeInterrupt(cfg: Config, c: Csrs, i: Interrupt, pc: Word): Entry {
    var target := Target(cfg, c, i);
    var c' := EnterTrap(target, c, i.Cause(), W(0), pc);
    Entry(c', Vectored(GetCell(c', Tvec(target)), i.Number()))
  }

  // ------------------------------------------------------------------
  // Counters
  // ------------------------------------------------------------------

  function Counter(c: Csrs, lo: Addr, hi: Addr): bv64 {
    ((GetCell(c, hi).b as bv64) << 32) | (GetCell(c, lo).b as bv64)
  }

  function Low32(v: bv64): Word { W((v & 0xFFFF_FFFF) as bv32) }
  function High32(v: bv64): Word { W((v >> 32) as bv32) }

  function Bump(c: Csrs, lo: Addr, hi: Addr): Csrs {
    var v := Counter(c, lo, hi) + 1;
    SetCell(SetCell(c, lo, Low32(v)), hi, High32(v))
  }

  function BumpCycle(c: Csrs): Csrs { Bump(c, MCYCLE, MCYCLEH) }
  function BumpInstret(c: Csrs): Csrs { Bump(c, MINSTRET, MINSTRETH) }

  // ------------------------------------------------------------------
  // Instruction execution, up to but not including trap entry
  // ------------------------------------------------------------------

  /** What execution leaves: the state before trap entry, where to continue, and the exception raised if any. */
  datatype Exec = Exec(h: State, nextPc: Word, taken: bool, trap: Option<Trap>)

  function Illegal(h: State, i: Word): Exec {
    Exec(h, Add(h.pc, W(4)), false, Some(Trap(ILLEGAL_INSTRUCTION, i)))
  }

  predicate SatpBlocked(cfg: Config, c: Csrs, csr: Addr) {
    csr == SATP && cfg.s && c.priv == SUPERVISOR && Bit(GetCell(c, MSTATUS), MSTATUS_TVM)
  }

  function RunCsr(cfg: Config, h: State, i: Word): Exec {
    var d := Decode(i);
    if SatpBlocked(cfg, h.csrs, d.csr) then Illegal(h, i)
    else
      var o := Execute(d, h.x, h.csrs);
      if o.valid then Exec(h.(x := o.x, csrs := o.c), Add(h.pc, W(4)), false, None) else Illegal(h.(x := o.x, csrs := o.c), d.raw)
  }

  function RunM(h: State, i: Word): Exec {
    var o := M.Execute(M.Decode(i), h.x);
    if o.valid then Exec(h.(x := o.x), Add(h.pc, W(4)), false, None) else Illegal(h.(x := o.x), i)
  }

  function RunA(h: State, i: Word): Exec {
    var o := A.Execute(A.Decode(i), h.x, h.mem, h.resv);
    Exec(h.(x := o.x, mem := o.m, resv := o.resv), Add(h.pc, W(4)), false,
         if o.r.valid then None else Some(Trap(o.r.cause, o.r.tval)))
  }

  // fcsr is read from and written back to its cell around the executor, valid or not.
  function RunF(cfg: Config, fp: F.FpUnit, h: State, i: Word): Exec {
    var o := F.Execute(fp, cfg.allowMisaligned, F.Decode(i), h.x, h.f, h.mem, F.FcsrView(GetCell(h.csrs, FCSR)));
    Exec(h.(x := o.x, f := o.f, mem := o.m, csrs := SetCell(h.csrs, FCSR, F.FcsrView(o.fcsr))), Add(h.pc, W(4)), false,
         if o.r.valid then None else Some(Trap(o.r.cause, o.r.tval)))
  }

  function RunWrite(h: State, rd: Word, v: Word): Exec {
    Exec(h.(x := SetReg(h.x, rd, v)), Add(h.pc, W(4)), false, None)
  }

  function RunZba(h: State, i: Word): Exec {
    var d := Zba.Decode(i);
    RunWrite(h, d.rd, Zba.Compute(d.op, GetReg(h.x, d.rs1), GetReg(h.x, d.rs2)))
  }

  function RunZbb(h: State, i: Word): Exec {
    var o := Zbb.Execute(Zbb.Decode(i), h.x);
    if o.valid then Exec(h.(x := o.x), Add(h.pc, W(4)), false, None) else Illegal(h.(x := o.x), i)
  }

  function RunZbs(h: State, i: Word): Exec {
    var d := Zbs.Decode(i);
    var n := if Zbs.Immediate(d.op) then d.rs2 else GetReg(h.x, d.rs2);
    RunWrite(h, d.rd, Zbs.Compute(d.op, GetReg(h.x, d.rs1), n))
  }

  function RunZicond(h: State, i: Word): Exec {
    var d := Zicond.Decode(i);
    RunWrite(h, d.rd, Zicond.Compute(d.op, GetReg(h.x, d.rs1), GetReg(h.x, d.rs2)))
  }

  predicate Blocked(c: Csrs, mask: bv32) {
    c.priv == USER || (c.priv == SUPERVISOR && Bit(GetCell(c, MSTATUS), mask))
  }

  function IConfig(cfg: Config, c: Csrs): I.Config { I.Config(cfg.c, cfg.allowMisaligned, c.priv) }

  function RunI(cfg: Config, h: State, i: Word): Exec {
    var o := I.Execute(IConfig(cfg, h.csrs), I.Decode(i, cfg.s), h.x, h.mem, h.pc);
    var h' := h.(x := o.x, mem := o.m);
    if o.r.mret then
      if h.csrs.priv != MACHINE then Illegal(h', i)
      else Exec(h'.(csrs := Mret(h.csrs)), GetCell(h.csrs, MEPC), true, None)
    else if o.r.sret then
      if !cfg.s || Blocked(h.csrs, MSTATUS_TSR) then Illegal(h', i)
      else Exec(h'.(csrs := Sret(h.csrs)), GetCell(h.csrs, SEPC), true, None)
    else if o.r.sfenceVma then
      if Blocked(h.csrs, MSTATUS_TVM) then Illegal(h', i) else Exec(h', o.r.nextPc, false, None)
    else if o.r.wfi then
      if Blocked(h.csrs, MSTATUS_TW) then Illegal(h', i) else Exec(h', o.r.nextPc, false, None)
    else Exec(h', o.r.nextPc, o.r.taken, if o.r.trap then Some(Trap(o.r.cause, o.r.tval)) else None)
  }

  // The tail of the 32-bit dispatch: bit manipulation, then the base ISA.
  function ExecuteTail(cfg: Config, h: State, i: Word): Exec {
    if cfg.zba && !Zba.DecodeType(i).ILLEGAL? then RunZba(h, i)
    else if cfg.zbb && !Zbb.DecodeType(i).ILLEGAL? then RunZbb(h, i)
    else if cfg.zbs && !Zbs.DecodeType(i).ILLEGAL? then RunZbs(h, i)
    else if cfg.zicond && !Zicond.DecodeType(i).ILLEGAL? then RunZicond(h, i)
    else RunI(cfg, h, i)
  }

  /** 32-bit dispatch, in the order of the source. */
  function Execute32(cfg: Config, fp: F.FpUnit, h: State, i: Word): Exec {
    if cfg.zifencei && Zifencei.IsFenceI(i) then Exec(h, Add(h.pc, W(4)), false, None)
    else if cfg.zicsr && IsCsrInstruction(i) then RunCsr(cfg, h, i)
    else if cfg.m && M.IsMInstruction(i) then RunM(h, i)
    else if cfg.a && A.IsAtomicInstruction(i) then RunA(h, i)
    else if cfg.f && F.IsFInstruction(i) then RunF(cfg, fp, h, i)
    else ExecuteTail(cfg, h, i)
  }

  function RunFC(cfg: Config, h: State, p: Word): Exec {
    var o := FC.Execute(cfg.allowMisaligned, FC.Decode(p), h.x, h.f, h.mem);
    Exec(h.(f := o.f, mem := o.m), Add(h.pc, W(2)), false, if o.r.valid then None else Some(Trap(o.r.cause, o.r.tval)))
  }

  function RunC(cfg: Config, h: State, p: Word): Exec {
    var o := C.Execute(cfg.allowMisaligned, C.Decode(p), h.x, h.mem, h.pc);
    Exec(h.(x := o.x, mem := o.m), o.r.nextPc, o.r.taken, if o.r.trap then Some(Trap(o.r.cause, o.r.tval)) else None)
  }

  /** Compressed dispatch; p is a zero-extended parcel. */
  function ExecuteCompressed(cfg: Config, h: State, p: Word): Exec {
    if cfg.f && FC.IsCompressedFloat(p) then RunFC(cfg, h, p) else RunC(cfg, h, p)
  }

  predicate Is32Bit(i: Word) { i.b & 3 == 3 }
  function Parcel(i: Word): Word { W(i.b & 0xFFFF) }

  function ExecuteFetched(cfg: Config, fp: F.FpUnit, h: State, i: Word): Exec {
    if Is32Bit(i) then Execute32(cfg, fp, h, i)
    else if cfg.c then ExecuteCompressed(cfg, h, Parcel(i))
    else Exec(h, h.pc, false, Some(Trap(ILLEGAL_INSTRUCTION, Parcel(i))))
  }

  // ------------------------------------------------------------------
  // One step
  // ------------------------------------------------------------------

  /** CPUExecResult without the text fields. */
  datatype StepResult = StepResult(
    pc: Word, nextPc: Word, instruction: Word, size: nat, taken: bool,
    trap: bool, interrupt: bool, cause: Word, tval: Word)

  datatype Stepped = Stepped(h: State, r: StepResult)

  // Trap entry for a raised exception, then pc and counter update.
  function Finish(cfg: Config, e: Exec, r: StepResult): Stepped {
    match e.trap
    case None =>
      var r' := r.(nextPc := e.nextPc, taken := e.taken);
      Stepped(e.h.(pc := r'.nextPc, csrs := BumpInstret(BumpCycle(e.h.csrs))), r')
    case Some(t) =>
      var entry := TakeException(cfg, e.h.csrs, t, e.h.pc);
      var r' := r.(nextPc := entry.handler, taken := e.taken, trap := true, cause := t.cause, tval := t.tval);
      Stepped(e.h.(pc := entry.handler, csrs := BumpCycle(entry.csrs), resv := A.Cleared(e.h.resv)), r')
  }

  function StartResult(pc: Word): StepResult {
    StepResult(pc, pc, W(0), 4, false, false, false, W(0), W(0))
  }

  function Deliver(cfg: Config, h: State, i: Interrupt): Stepped {
    var entry := TakeInterrupt(cfg, h.csrs, i, h.pc);
    Stepped(h.(pc := entry.handler, csrs := BumpCycle(entry.csrs), resv := A.Cleared(h.resv)),
            StartResult(h.pc).(nextPc := entry.handler, interrupt := true, cause := i.Cause(), size := 0))
  }

  // Size and instruction word as reported by a step that executes i.
  function ExecutingResult(h: State, i: Word): StepResult {
    StartResult(h.pc).(instruction := i, size := if Is32Bit(i) then 4 else 2)
  }

  function StepInstruction(cfg: Config, fp: F.FpUnit, h: State, i: Word): Stepped {
    Finish(cfg, ExecuteFetched(cfg, fp, h, i), ExecutingResult(h, i))
  }

  datatype Fetched = Instruction(i: Word) | FetchFault(addr: Word)

  function JoinParcels(lo: Word, hi: Word): Word { W(Either(lo.b, Up(hi.b, 16))) }

  function Fetch(m: Mem, pc: Word): Fetched {
    match Read16(m, pc)
    case None => FetchFault(pc)
    case Some(lo) =>
      if !Is32Bit(lo) then Instruction(lo)
      else match Read16(m, Add(pc, W(2)))
        case None => FetchFault(Add(pc, W(2)))
        case Some(hi) => Instruction(JoinParcels(lo, hi))
  }

  function FetchTrap(h: State, addr: Word): Exec {
    Exec(h, h.pc, false, Some(Trap(INSTR_ACCESS_FAULT, addr)))
  }

  /** step(bus) */
  function StepFetched(cfg: Config, fp: F.FpUnit, h: State): Stepped {
    match Choose(cfg, h.csrs)
    case Some(i) => Deliver(cfg, h, i)
    case None =>
      match Fetch(h.mem, h.pc)
      case FetchFault(addr) => Finish(cfg, FetchTrap(h, addr), StartResult(h.pc))
      case Instruction(i) => StepInstruction(cfg, fp, h, i)
  }

  /** step(bus, opcode) */
  function StepInjected(cfg: Config, fp: F.FpUnit, h: State, opcode: Word): Stepped {
    match Choose(cfg, h.csrs)
    case Some(i) => Deliver(cfg, h, i)
    case None => StepInstruction(cfg, fp, h, opcode)
  }

  // ------------------------------------------------------------------
  // Interrupt input lines
  // ------------------------------------------------------------------

  /** mip with the bit of i set or cleared. */
  function WithLine(mip: Word, i: Interrupt, level: bool): Word {
    W(if level then mip.b | i.Mask() else mip.b & !i.Mask())
  }

  function SetLine(h: State, i: Interrupt, level: bool): State {
    h.(csrs := SetCell(h.csrs, MIP, WithLine(GetCell(h.csrs, MIP), i, level)))
  }
}
