/** Traps are precise: an instruction that raises an exception has no other effect. */
module Precise {
  import opened Bits
  import opened Common
  import opened Zicsr
  import opened Hart
  import opened Invariant
  import A = Rv32a
  import C = Rv32c
  import F = Rv32f
  import FC = Rv32fc
  import I = Rv32i
  import M = Rv32m
  import Zbb

  // ------------------------------------------------------------------
  // Per executor
  // ------------------------------------------------------------------

  lemma IPrecise(cfg: I.Config, d: I.Decoded, x: Regs, m: Mem, pc: Word)
    ensures var o := I.Execute(cfg, d, x, m, pc);
      o.r.trap || o.r.mret || o.r.sret || o.r.sfenceVma || o.r.wfi ==> o.x == x && o.m == m
  {
    hide GetReg, SetReg, Load, Store, I.Alu, I.BranchTaken, I.ExtendLoaded, Add, And, Bit;
  }

  lemma CPrecise(allow: bool, d: C.Decoded, x: Regs, m: Mem, pc: Word)
    ensures var o := C.Execute(allow, d, x, m, pc); o.r.trap ==> o.x == x && o.m == m
  {
    hide GetReg, SetReg, Load, Store, C.Alu, Add, And;
  }

  lemma APrecise(d: A.Decoded, x: Regs, m: Mem, resv: A.Reservation)
    ensures var o := A.Execute(d, x, m, resv); !o.r.valid ==> o.x == x && o.m == m && o.resv == resv
  {
    hide GetReg, SetReg, Read32, Write32, A.AmoValue, Bit, A.WordOf;
  }

  lemma FPrecise(fp: F.FpUnit, allow: bool, d: F.Decoded, x: Regs, f: Regs, m: Mem, fcsr: Word)
    ensures var o := F.Execute(fp, allow, d, x, f, m, fcsr);
      !o.r.valid ==> o.x == x && o.f == f && o.m == m && o.fcsr == fcsr
  {
    hide GetReg, SetReg, F.GetF, F.SetF, Load, Store, F.Compute, F.Accumulate, F.EffectiveRm, F.UsesRm, Add;
  }

  lemma FCPrecise(allow: bool, d: FC.Decoded, x: Regs, f: Regs, m: Mem)
    ensures var o := FC.Execute(allow, d, x, f, m); !o.r.valid ==> o.f == f && o.m == m
  {
    hide GetReg, F.GetF, F.SetF, Load, Store, Add;
  }

  // ------------------------------------------------------------------
  // Per dispatch arm
  // ------------------------------------------------------------------

  /** The write-back of an unchanged fcsr view leaves the CSR file as it was. */
  lemma FcsrRoundTrip(cfg: Config, c: Csrs)
    requires CsrsOk(cfg, c)
    ensures SetCell(c, FCSR, F.FcsrView(F.FcsrView(GetCell(c, FCSR)))) == c
  {
    MachineCells(cfg);
    CellLegal(cfg, c, FCSR);
    ViewIsCell(GetCell(c, FCSR));
    hide HasCell, LegalCell, F.FcsrView;
    assert c.cells[FCSR := GetCell(c, FCSR)] == c.cells;
  }
  lemma ViewIsCell(v: Word)
    requires Within(v, 0xFF)
    ensures F.FcsrView(F.FcsrView(v)) == v
  {}

  lemma RunFPrecise(cfg: Config, fp: F.FpUnit, h: State, i: Word)
    requires CsrsOk(cfg, h.csrs)
    ensures RunF(cfg, fp, h, i).trap.Some? ==> RunF(cfg, fp, h, i).h == h
  {
    FcsrRoundTrip(cfg, h.csrs);
    FPrecise(fp, cfg.allowMisaligned, F.Decode(i), h.x, h.f, h.mem, F.FcsrView(GetCell(h.csrs, FCSR)));
    hide F.Execute, F.Decode, F.FcsrView, SetCell, GetCell, CsrsOk;
  }

  lemma RunIPrecise(cfg: Config, h: State, i: Word)
    ensures RunI(cfg, h, i).trap.Some? ==> RunI(cfg, h, i).h == h
  {
    IPrecise(IConfig(cfg, h.csrs), I.Decode(i, cfg.s), h.x, h.mem, h.pc);
    hide I.Execute, I.Decode, Mret, Sret, Blocked;
  }

  lemma RunCsrPrecise(cfg: Config, h: State, i: Word)
    ensures RunCsr(cfg, h, i).trap.Some? ==> RunCsr(cfg, h, i).h == h
  {
    hide Decode, Permitted, SatpBlocked, WriteCsr, ReadCsr, SetReg;
  }

  lemma SmallPrecise(cfg: Config, h: State, i: Word)
    ensures RunM(h, i).trap.Some? ==> RunM(h, i).h == h
    ensures RunZbb(h, i).trap.Some? ==> RunZbb(h, i).h == h
    ensures RunZba(h, i).trap.None? && RunZbs(h, i).trap.None? && RunZicond(h, i).trap.None?
  {
    hide M.Decode, M.Result, Zbb.Decode, Zbb.Compute, SetReg;
  }
  lemma RunAPrecise(h: State, i: Word)
    ensures RunA(h, i).trap.Some? ==> RunA(h, i).h == h
  {
    APrecise(A.Decode(i), h.x, h.mem, h.resv);
    hide A.Execute, A.Decode;
  }

  lemma CompressedPrecise(cfg: Config, h: State, p: Word)
    ensures ExecuteCompressed(cfg, h, p).trap.Some? ==> ExecuteCompressed(cfg, h, p).h == h
  {
    CPrecise(cfg.allowMisaligned, C.Decode(p), h.x, h.mem, h.pc);
    FCPrecise(cfg.allowMisaligned, FC.Decode(p), h.x, h.f, h.mem);
    hide C.Execute, C.Decode, FC.Execute, FC.Decode, FC.IsCompressedFloat;
  }

  lemma Execute32Precise(cfg: Config, fp: F.FpUnit, h: State, i: Word)
    requires CsrsOk(cfg, h.csrs)
    ensures Execute32(cfg, fp, h, i).trap.Some? ==> Execute32(cfg, fp, h, i).h == h
  {
    RunCsrPrecise(cfg, h, i);
    SmallPrecise(cfg, h, i);
    RunAPrecise(h, i);
    RunFPrecise(cfg, fp, h, i);
    RunIPrecise(cfg, h, i);
    hide RunCsr, RunM, RunA, RunF, RunZba, RunZbb, RunZbs, RunZicond, RunI;
    hide IsCsrInstruction, CsrsOk;
  }

  /** Whatever is fetched or injected: if it raises an exception, the state before trap entry is the state before the step. */
  lemma ExecutePrecise(cfg: Config, fp: F.FpUnit, h: State, i: Word)
    requires CsrsOk(cfg, h.csrs)
    ensures ExecuteFetched(cfg, fp, h, i).trap.Some? ==> ExecuteFetched(cfg, fp, h, i).h == h
  {
    Execute32Precise(cfg, fp, h, i);
    CompressedPrecise(cfg, h, Parcel(i));
    hide Execute32, ExecuteCompressed, CsrsOk, Is32Bit, Parcel;
  }

  // ------------------------------------------------------------------
  // The whole effect of trap entry
  // ------------------------------------------------------------------

  function EpcOf(target: Privilege): Addr { if target == SUPERVISOR then SEPC else MEPC }
  function CauseOf(target: Privilege): Addr { if target == SUPERVISOR then SCAUSE else MCAUSE }
  function TvalOf(target: Privilege): Addr { if target == SUPERVISOR then STVAL else MTVAL }

  /** mstatus after a trap to M: the stack of MIE and privilege is pushed, all other fields stay. */
  predicate PushedM(ms: Word, p: Privilege, ms': Word) {
    !Bit(ms', MSTATUS_MIE) && Bit(ms', MSTATUS_MPIE) == Bit(ms, MSTATUS_MIE) && (ms'.b >> 11) & 3 == RankBits(p) &&
    (ms'.b ^ ms.b) & !(MSTATUS_MIE | MSTATUS_MPIE | MSTATUS_MPP) == 0
  }

  /** mstatus after a trap to S, likewise. */
  predicate PushedS(ms: Word, p: Privilege, ms': Word) {
    !Bit(ms', MSTATUS_SIE) && Bit(ms', MSTATUS_SPIE) == Bit(ms, MSTATUS_SIE) && Bit(ms', MSTATUS_SPP) == (p == SUPERVISOR) &&
    (ms'.b ^ ms.b) & !(MSTATUS_SIE | MSTATUS_SPIE | MSTATUS_SPP) == 0
  }

  predicate Pushed(target: Privilege, ms: Word, p: Privilege, ms': Word) {
    if target == SUPERVISOR then PushedS(ms, p, ms') else PushedM(ms, p, ms')
  }

  lemma MTrapPushes(ms: Word, p: Privilege) ensures PushedM(ms, p, MTrapStatus(ms, p)) {}
  lemma STrapPushes(ms: Word, p: Privilege) ensures PushedS(ms, p, STrapStatus(ms, p)) {}

  /** Every cell of the CSR file after trap entry. */
  ghost predicate TrapEntered(target: Privilege, c: Csrs, cause: Word, tval: Word, pc: Word, c': Csrs) {
    c'.priv == target &&
    Pushed(target, GetCell(c, MSTATUS), c.priv, GetCell(c', MSTATUS)) &&
    GetCell(c', EpcOf(target)) == pc && GetCell(c', CauseOf(target)) == cause && GetCell(c', TvalOf(target)) == tval &&
    (forall a :: a != MSTATUS && a != EpcOf(target) && a != CauseOf(target) && a != TvalOf(target) ==>
       GetCell(c', a) == GetCell(c, a)) &&
    (forall a :: a in c'.cells <==> a in c.cells)
  }

  /** c' is c with cell k set to v. */
  ghost predicate Updated(c: Csrs, k: Addr, v: Word, c': Csrs) {
    GetCell(c', k) == v && (forall a :: a != k ==> GetCell(c', a) == GetCell(c, a)) &&
    (forall a :: a in c'.cells <==> a in c.cells) && c'.priv == c.priv && c'.epcMask == c.epcMask
  }

  lemma SetUpdates(c: Csrs, k: Addr, v: Word)
    requires k in c.cells
    ensures Updated(c, k, v, SetCell(c, k, v))
  {}

  lemma EpcWrite(cfg: Config, c: Csrs, a: Addr, pc: Word)
    requires c.epcMask == EpcMask(cfg) && Aligned(cfg, pc) && (a == MEPC || a == SEPC)
    ensures WriteCsr(c, a, pc) == SetCell(c, a, pc)
  {
    hide And, SetCell, LegalizeTvec, LegalizeMstatus;
  }

  lemma FourUpdates(target: Privilege, c: Csrs, ms: Word, c1: Csrs, pc: Word, c3: Csrs, cause: Word, c4: Csrs, tval: Word, c5: Csrs)
    requires Updated(c, MSTATUS, ms, c1) && Pushed(target, GetCell(c, MSTATUS), c.priv, ms)
    requires Updated(c1.(priv := target), EpcOf(target), pc, c3)
    requires Updated(c3, CauseOf(target), cause, c4)
    requires Updated(c4, TvalOf(target), tval, c5)
    ensures TrapEntered(target, c, cause, tval, pc, c5)
  {
    hide Pushed;
    forall a ensures GetCell(c1.(priv := target), a) == GetCell(c1, a) {}
    hide GetCell;
    assert EpcOf(target) != CauseOf(target) && EpcOf(target) != TvalOf(target) && CauseOf(target) != TvalOf(target);
    assert MSTATUS != EpcOf(target) && MSTATUS != CauseOf(target) && MSTATUS != TvalOf(target);
    hide EpcOf, CauseOf, TvalOf;
  }

  lemma TrapCellsExist(cfg: Config, c: Csrs, target: Privilege)
    requires CsrsOk(cfg, c) && (target == SUPERVISOR ==> cfg.s)
    ensures MSTATUS in c.cells && EpcOf(target) in c.cells && CauseOf(target) in c.cells && TvalOf(target) in c.cells
    ensures c.epcMask == EpcMask(cfg)
  {
    MachineCells(cfg);
    if cfg.s { SupervisorCells(cfg); }
    hide HasCell, LegalCell;
  }

  lemma EnterMTrapEffect(cfg: Config, c: Csrs, cause: Word, tval: Word, pc: Word)
    requires CsrsOk(cfg, c) && Aligned(cfg, pc)
    ensures TrapEntered(MACHINE, c, cause, tval, pc, EnterMTrap(c, cause, tval, pc))
  {
    TrapCellsExist(cfg, c, MACHINE);
    hide CsrsOk, Aligned, WriteCsr, SetCell, MTrapStatus, PushedM, TrapEntered;
    var ms := MTrapStatus(GetCell(c, MSTATUS), c.priv);
    var c1 := SetCell(c, MSTATUS, ms);
    MTrapPushes(GetCell(c, MSTATUS), c.priv);
    SetUpdates(c, MSTATUS, ms);
    EpcWrite(cfg, c1.(priv := MACHINE), MEPC, pc);
    var c3 := SetCell(c1.(priv := MACHINE), MEPC, pc);
    SetUpdates(c1.(priv := MACHINE), MEPC, pc);
    var c4 := SetCell(c3, MCAUSE, cause);
    SetUpdates(c3, MCAUSE, cause);
    SetUpdates(c4, MTVAL, tval);
    FourUpdates(MACHINE, c, ms, c1, pc, c3, cause, c4, tval, SetCell(c4, MTVAL, tval));
  }

  lemma EnterSTrapEffect(cfg: Config, c: Csrs, cause: Word, tval: Word, pc: Word)
    requires CsrsOk(cfg, c) && Aligned(cfg, pc) && cfg.s
    ensures TrapEntered(SUPERVISOR, c, cause, tval, pc, EnterSTrap(c, cause, tval, pc))
  {
    TrapCellsExist(cfg, c, SUPERVISOR);
    hide CsrsOk, Aligned, WriteCsr, SetCell, STrapStatus, PushedS, TrapEntered;
    var ms := STrapStatus(GetCell(c, MSTATUS), c.priv);
    var c1 := SetCell(c, MSTATUS, ms);
    STrapPushes(GetCell(c, MSTATUS), c.priv);
    SetUpdates(c, MSTATUS, ms);
    EpcWrite(cfg, c1.(priv := SUPERVISOR), SEPC, pc);
    var c3 := SetCell(c1.(priv := SUPERVISOR), SEPC, pc);
    SetUpdates(c1.(priv := SUPERVISOR), SEPC, pc);
    var c4 := SetCell(c3, SCAUSE, cause);
    SetUpdates(c3, SCAUSE, cause);
    SetUpdates(c4, STVAL, tval);
    FourUpdates(SUPERVISOR, c, ms, c1, pc, c3, cause, c4, tval, SetCell(c4, STVAL, tval));
  }

  lemma EnterTrapEffect(cfg: Config, target: Privilege, c: Csrs, cause: Word, tval: Word, pc: Word)
    requires CsrsOk(cfg, c) && Aligned(cfg, pc)
    requires target == MACHINE || (target == SUPERVISOR && cfg.s)
    ensures TrapEntered(target, c, cause, tval, pc, EnterTrap(target, c, cause, tval, pc))
  {
    hide CsrsOk, Aligned, TrapEntered, EnterMTrap, EnterSTrap;
    if target == SUPERVISOR {
      EnterSTrapEffect(cfg, c, cause, tval, pc);
    } else {
      EnterMTrapEffect(cfg, c, cause, tval, pc);
    }
  }

  // ------------------------------------------------------------------
  // Steps that trap
  // ------------------------------------------------------------------

  /** Everything a step that takes a trap to target does; cause, tval and the entered pc are those of the handler entry. */
  ghost predicate TrapStep(target: Privilege, h: State, cause: Word, tval: Word, h': State) {
    h'.x == h.x && h'.f == h.f && h'.mem == h.mem && !h'.resv.valid &&
    h'.csrs.priv == target &&
    Pushed(target, GetCell(h.csrs, MSTATUS), h.csrs.priv, GetCell(h'.csrs, MSTATUS)) &&
    GetCell(h'.csrs, EpcOf(target)) == h.pc && GetCell(h'.csrs, CauseOf(target)) == cause && GetCell(h'.csrs, TvalOf(target)) == tval &&
    (forall a :: a != MSTATUS && a != EpcOf(target) && a != CauseOf(target) && a != TvalOf(target) && a != MCYCLE && a != MCYCLEH ==>
       GetCell(h'.csrs, a) == GetCell(h.csrs, a)) &&
    (forall a :: a in h'.csrs.cells <==> a in h.csrs.cells)
  }

  /** c' is c but for the cells lo and hi. */
  ghost predicate SameBut(c: Csrs, lo: Addr, hi: Addr, c': Csrs) {
    c'.priv == c.priv && (forall a :: a != lo && a != hi ==> GetCell(c', a) == GetCell(c, a)) &&
    (forall a :: a in c'.cells <==> a in c.cells)
  }

  lemma TwoUpdates(c: Csrs, lo: Addr, v: Word, c1: Csrs, hi: Addr, w: Word, c2: Csrs)
    requires Updated(c, lo, v, c1) && Updated(c1, hi, w, c2)
    ensures SameBut(c, lo, hi, c2)
  {
    hide GetCell;
  }

  lemma BumpFrame(c: Csrs, lo: Addr, hi: Addr)
    requires lo in c.cells && hi in c.cells
    ensures SameBut(c, lo, hi, Bump(c, lo, hi))
  {
    hide Counter, Low32, High32, GetCell, SameBut;
    var v := Counter(c, lo, hi) + 1;
    var c1 := SetCell(c, lo, Low32(v));
    SetUpdates(c, lo, Low32(v));
    assert hi in c1.cells;
    hide SetCell, Updated;
    SetUpdates(c1, hi, High32(v));
    TwoUpdates(c, lo, Low32(v), c1, hi, High32(v), SetCell(c1, hi, High32(v)));
  }

  lemma CycleFrame(cfg: Config, c: Csrs)
    requires CsrsOk(cfg, c)
    ensures SameBut(c, MCYCLE, MCYCLEH, BumpCycle(c))
  {
    CounterCells(cfg);
    assert MCYCLE in c.cells && MCYCLEH in c.cells;
    hide CsrsOk, HasCell, SameBut, Bump;
    BumpFrame(c, MCYCLE, MCYCLEH);
  }

  lemma NotCounters(target: Privilege)
    ensures MSTATUS != MCYCLE && MSTATUS != MCYCLEH
    ensures EpcOf(target) != MCYCLE && EpcOf(target) != MCYCLEH
    ensures CauseOf(target) != MCYCLE && CauseOf(target) != MCYCLEH
    ensures TvalOf(target) != MCYCLE && TvalOf(target) != MCYCLEH
  {}

  lemma TrapThenCycle(target: Privilege, h: State, cause: Word, tval: Word, handler: Word, c1: Csrs, c2: Csrs, resv: A.Reservation)
    requires TrapEntered(target, h.csrs, cause, tval, h.pc, c1) && SameBut(c1, MCYCLE, MCYCLEH, c2)
    ensures TrapStep(target, h, cause, tval, h.(pc := handler, csrs := c2, resv := A.Cleared(resv)))
  {
    NotCounters(target);
    hide GetCell, Pushed, EpcOf, CauseOf, TvalOf;
  }

  lemma FinishTraps(cfg: Config, h: State, e: Exec, r: StepResult)
    requires Ok(cfg, h) && e.h == h && e.trap.Some?
    ensures var s := Finish(cfg, e, r);
      s.r.trap && s.h.pc == s.r.nextPc && s.r.cause == e.trap.value.cause && s.r.tval == e.trap.value.tval &&
      var target := DelegateTarget(cfg, h.csrs, s.r.cause, false);
      TrapStep(target, h, s.r.cause, s.r.tval, s.h) && s.h.pc == Base(GetCell(h.csrs, Tvec(target)))
  {
    var t := e.trap.value;
    var target := DelegateTarget(cfg, h.csrs, t.cause, false);
    DelegationNeedsS(cfg, h.csrs, t.cause, false);
    assert Tvec(target) != MSTATUS && Tvec(target) != EpcOf(target) && Tvec(target) != CauseOf(target) && Tvec(target) != TvalOf(target);
    hide CsrsOk, Aligned, TrapStep, DelegateTarget, EnterTrap, GetCell, BumpCycle, Base, EpcOf, CauseOf, TvalOf, Tvec, Pushed;
    EnterTrapEffect(cfg, target, h.csrs, t.cause, t.tval, h.pc);
    EnterTrapOk(cfg, target, h.csrs, t.cause, t.tval, h.pc);
    var c' := EnterTrap(target, h.csrs, t.cause, t.tval, h.pc);
    assert GetCell(c', Tvec(target)) == GetCell(h.csrs, Tvec(target));
    CycleFrame(cfg, c');
    TrapThenCycle(target, h, t.cause, t.tval, Base(GetCell(h.csrs, Tvec(target))), c', BumpCycle(c'), h.resv);
  }

  /** What a step reports when it takes an exception is exactly what it did, and it did nothing else. */
  ghost predicate PreciseException(cfg: Config, h: State, s: Stepped) {
    var target := DelegateTarget(cfg, h.csrs, s.r.cause, false);
    TrapStep(target, h, s.r.cause, s.r.tval, s.h) &&
    s.h.pc == s.r.nextPc == Base(GetCell(h.csrs, Tvec(target)))
  }

  lemma InstructionPrecise(cfg: Config, fp: F.FpUnit, h: State, i: Word)
    requires Ok(cfg, h)
    ensures var s := StepInstruction(cfg, fp, h, i); s.r.trap ==> PreciseException(cfg, h, s)
  {
    hide ExecuteFetched, CsrsOk, Aligned, TrapStep, TakeException, GetCell, DelegateTarget, Base, Tvec, BumpCycle, BumpInstret;
    ExecutePrecise(cfg, fp, h, i);
    var e := ExecuteFetched(cfg, fp, h, i);
    if e.trap.Some? {
      FinishTraps(cfg, h, e, ExecutingResult(h, i));
    }
  }
  /** Every synchronous exception is precise, whether the instruction was fetched or injected. */
  lemma PreciseTraps(cfg: Config, fp: F.FpUnit, h: State, opcode: Word)
    requires Ok(cfg, h)
    ensures StepFetched(cfg, fp, h).r.trap ==> PreciseException(cfg, h, StepFetched(cfg, fp, h))
    ensures StepInjected(cfg, fp, h, opcode).r.trap ==> PreciseException(cfg, h, StepInjected(cfg, fp, h, opcode))
  {
    hide StepInstruction, PreciseException, Fetch, Choose, Ok, TakeInterrupt, BumpCycle;
    match Choose(cfg, h.csrs)
    case Some(_) =>
    case None =>
      InstructionPrecise(cfg, fp, h, opcode);
      match Fetch(h.mem, h.pc)
      case Instruction(i) => InstructionPrecise(cfg, fp, h, i);
      case FetchFault(addr) => FetchFaultPrecise(cfg, h, addr);
  }

  lemma FetchFaultPrecise(cfg: Config, h: State, addr: Word)
    requires Ok(cfg, h)
    ensures PreciseException(cfg, h, Finish(cfg, FetchTrap(h, addr), StartResult(h.pc)))
  {
    hide Ok, Finish, TrapStep, DelegateTarget, Base, GetCell, Tvec;
    FinishTraps(cfg, h, FetchTrap(h, addr), StartResult(h.pc));
  }
}
