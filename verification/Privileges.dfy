/** How the privilege level moves: up only into a trap handler, down only by a return instruction. */
module Privileges {
  import opened Bits
  import opened Common
  import opened Zicsr
  import opened Hart
  import opened Invariant
  import opened Precise
  import opened Interrupts
  import opened Returns
  import A = Rv32a
  import C = Rv32c
  import F = Rv32f
  import FC = Rv32fc
  import I = Rv32i
  import M = Rv32m
  import Zbb

  // ------------------------------------------------------------------
  // Instructions
  // ------------------------------------------------------------------

  lemma ReturnsDecode(i: Word, s: bool)
    ensures I.Decode(i, s).op.MRET? ==> i == I.MRET_WORD
    ensures I.Decode(i, s).op.SRET? ==> i == I.SRET_WORD
  {
    hide Opcode, Funct3, Funct7, I.DecodeImm;
  }

  lemma FlagsMeanReturns(cfg: I.Config, d: I.Decoded, x: Regs, m: Mem, pc: Word)
    ensures I.Execute(cfg, d, x, m, pc).r.mret ==> d.op.MRET?
    ensures I.Execute(cfg, d, x, m, pc).r.sret ==> d.op.SRET?
  {
    hide GetReg, SetReg, Load, Store, I.Alu, I.BranchTaken, I.ExtendLoaded, Add, And, Bit;
  }

  /** Privilege after an instruction that raised no exception. */
  predicate InstructionMoves(h: State, i: Word, e: Exec) {
    if IsReturn(i) then e.h.csrs.priv.Rank() <= h.csrs.priv.Rank() else e.h.csrs.priv == h.csrs.priv
  }

  lemma RunIMoves(cfg: Config, h: State, i: Word)
    ensures RunI(cfg, h, i).trap.None? ==> InstructionMoves(h, i, RunI(cfg, h, i))
  {
    ReturnsDecode(i, cfg.s);
    FlagsMeanReturns(IConfig(cfg, h.csrs), I.Decode(i, cfg.s), h.x, h.mem, h.pc);
    hide I.Execute, I.Decode, MretStatus, SretStatus, Bit, SetCell, GetCell;
  }

  lemma CsrKeepsPrivilege(cfg: Config, h: State, i: Word)
    ensures RunCsr(cfg, h, i).h.csrs.priv == h.csrs.priv
  {
    hide Decode, Permitted, SatpBlocked, ReadCsr, Legalize, SetReg, Source, NewValue;
  }

  lemma Execute32Moves(cfg: Config, fp: F.FpUnit, h: State, i: Word)
    ensures Execute32(cfg, fp, h, i).trap.None? ==> InstructionMoves(h, i, Execute32(cfg, fp, h, i))
  {
    RunIMoves(cfg, h, i);
    CsrKeepsPrivilege(cfg, h, i);
    hide RunCsr, RunI, IsCsrInstruction;
    hide M.Execute, A.Execute, F.Execute, Zbb.Execute, SetReg, M.Decode, A.Decode, F.Decode, Zbb.Decode, GetCell;
  }

  lemma CompressedMoves(cfg: Config, h: State, p: Word)
    ensures ExecuteCompressed(cfg, h, p).h.csrs == h.csrs
  {
    hide C.Execute, C.Decode, FC.Execute, FC.Decode, FC.IsCompressedFloat;
  }

  lemma ExecuteMoves(cfg: Config, fp: F.FpUnit, h: State, i: Word)
    ensures ExecuteFetched(cfg, fp, h, i).trap.None? ==> InstructionMoves(h, i, ExecuteFetched(cfg, fp, h, i))
  {
    hide Execute32, ExecuteCompressed, Is32Bit, Parcel;
    Execute32Moves(cfg, fp, h, i);
    CompressedMoves(cfg, h, Parcel(i));
  }

  // ------------------------------------------------------------------
  // Traps
  // ------------------------------------------------------------------

  lemma ExceptionRaises(cfg: Config, c: Csrs, cause: Word)
    requires CsrsOk(cfg, c)
    ensures DelegateTarget(cfg, c, cause, false).Rank() >= c.priv.Rank()
  {
    DelegationNeedsS(cfg, c, cause, false);
    PrivilegeIsImplemented(cfg, c);
    hide CsrsOk, GetCell, Bit;
  }

  lemma InterruptRaises(cfg: Config, c: Csrs, i: Interrupt)
    requires Deliverable(cfg, c, i)
    ensures Target(cfg, c, i).Rank() >= c.priv.Rank()
  {
    hide GetCell, Bit, DelegateTarget, Pending;
  }

  // ------------------------------------------------------------------
  // Steps
  // ------------------------------------------------------------------

  /** The movement of privilege in one step from p to p'. */
  predicate MovesOneWay(r: StepResult, p: Privilege, p': Privilege) {
    var trapped := r.trap || r.interrupt;
    (p'.Rank() > p.Rank() ==> trapped) &&
    (p'.Rank() < p.Rank() ==> !trapped && IsReturn(r.instruction)) &&
    (trapped ==> p'.Rank() >= p.Rank()) &&
    (!trapped && IsReturn(r.instruction) ==> p'.Rank() <= p.Rank())
  }

  lemma RetiredMoves(cfg: Config, fp: F.FpUnit, h: State, i: Word)
    requires Ok(cfg, h) && !StepInstruction(cfg, fp, h, i).r.trap
    ensures MovesOneWay(StepInstruction(cfg, fp, h, i).r, h.csrs.priv, StepInstruction(cfg, fp, h, i).h.csrs.priv)
  {
    hide Ok, ExecuteFetched, TakeException, Counter, Low32, High32, SetCell;
    ExecuteMoves(cfg, fp, h, i);
    BumpsKeepPrivilege(ExecuteFetched(cfg, fp, h, i).h.csrs);
    hide BumpCycle, BumpInstret;
  }
  lemma BumpsKeepPrivilege(c: Csrs)
    ensures BumpInstret(BumpCycle(c)).priv == c.priv
  {
    hide Counter, Low32, High32;
  }

  lemma TrapMoves(cfg: Config, h: State, s: Stepped)
    requires Ok(cfg, h) && s.r.trap && PreciseException(cfg, h, s)
    ensures MovesOneWay(s.r, h.csrs.priv, s.h.csrs.priv)
  {
    ExceptionRaises(cfg, h.csrs, s.r.cause);
    hide Ok, DelegateTarget, GetCell, Pushed;
  }

  lemma DeliveryMoves(cfg: Config, h: State, i: Interrupt)
    requires Ok(cfg, h) && Deliverable(cfg, h.csrs, i)
    ensures MovesOneWay(Deliver(cfg, h, i).r, h.csrs.priv, Deliver(cfg, h, i).h.csrs.priv)
  {
    DeliveryEffect(cfg, h, i);
    InterruptRaises(cfg, h.csrs, i);
    hide Ok, DelegateTarget, GetCell, Pushed, Deliver;
  }

  /** Privilege rises only into a trap and falls only by a retired MRET or SRET; traps never lower it, returns never raise it. */
  lemma PrivilegeMovesOneWay(cfg: Config, fp: F.FpUnit, h: State, opcode: Word)
    requires Ok(cfg, h)
    ensures MovesOneWay(StepFetched(cfg, fp, h).r, h.csrs.priv, StepFetched(cfg, fp, h).h.csrs.priv)
    ensures MovesOneWay(StepInjected(cfg, fp, h, opcode).r, h.csrs.priv, StepInjected(cfg, fp, h, opcode).h.csrs.priv)
  {
    PreciseTraps(cfg, fp, h, opcode);
    ScanIsCorrect(cfg, h.csrs);
    hide StepInstruction, Choose, PreciseException, Deliver, Deliverable, Ok, MovesOneWay, Fetch;
    var s, t := StepFetched(cfg, fp, h), StepInjected(cfg, fp, h, opcode);
    if s.r.trap { TrapMoves(cfg, h, s); }
    if t.r.trap { TrapMoves(cfg, h, t); }
    match Choose(cfg, h.csrs)
    case Some(i) => DeliveryMoves(cfg, h, i);
    case None =>
      if !t.r.trap { RetiredMoves(cfg, fp, h, opcode); }
      match Fetch(h.mem, h.pc)
      case Instruction(i) => if !s.r.trap { RetiredMoves(cfg, fp, h, i); }
      case FetchFault(addr) =>
  }
}
