/** Load-reserved and store-conditional over whole runs. */
module LrSc {
  import opened Bits
  import opened Common
  import opened Zicsr
  import opened Hart
  import opened Interrupts
  import opened Reachable
  import A = Rv32a
  import C = Rv32c
  import F = Rv32f
  import FC = Rv32fc
  import I = Rv32i
  import M = Rv32m
  import Zba
  import Zbb
  import Zbs
  import Zicond
  import Zifencei

  function Address(x: Regs, i: Word): Word { GetReg(x, Rs1(i)) }

  // ------------------------------------------------------------------
  // The reservation after one instruction
  // ------------------------------------------------------------------

  /** Where an instruction that retires leaves the reservation. */
  function ResvAfter(h: State, i: Word): A.Reservation {
    match A.DecodeType(i)
    case LR_W => A.Reservation(true, A.WordOf(Address(h.x, i)))
    case SC_W => A.Cleared(h.resv)
    case _ => h.resv
  }

  lemma AtomicOpcode(i: Word)
    ensures A.IsAtomicInstruction(i) ==>
      Opcode(i) == 0x2F && Is32Bit(i) && !Zifencei.IsFenceI(i) && !IsCsrInstruction(i) && !M.IsMInstruction(i) && !F.IsFInstruction(i)
  {
    hide Funct3, Funct7;
  }

  lemma AtomicElsewhere(i: Word, s: bool)
    requires A.IsAtomicInstruction(i)
    ensures Zba.DecodeType(i).ILLEGAL? && Zbb.DecodeType(i).ILLEGAL? && Zbs.DecodeType(i).ILLEGAL? && Zicond.DecodeType(i).ILLEGAL?
    ensures I.DecodeType(i, s).ILLEGAL?
  {
    hide Opcode, Funct3, Funct7, Funct12;
  }

  lemma DecodedIsAtomic(i: Word)
    ensures !A.DecodeType(i).ILLEGAL? ==> A.IsAtomicInstruction(i)
  {
    hide Opcode, Funct3, A.Funct5;
  }

  lemma IllegalBaseTraps(cfg: Config, h: State, i: Word)
    requires I.DecodeType(i, cfg.s).ILLEGAL?
    ensures RunI(cfg, h, i).trap.Some?
  {
    hide I.DecodeType, I.DecodeImm, Blocked;
  }

  /** An LR, SC or AMO word reaches the A executor, or traps when A is off. */
  lemma AtomicDispatch(cfg: Config, fp: F.FpUnit, h: State, i: Word)
    requires A.IsAtomicInstruction(i)
    ensures cfg.a ==> ExecuteFetched(cfg, fp, h, i) == RunA(h, i)
    ensures !cfg.a ==> ExecuteFetched(cfg, fp, h, i).trap.Some?
  {
    AtomicOpcode(i);
    AtomicElsewhere(i, cfg.s);
    IllegalBaseTraps(cfg, h, i);
    hide RunCsr, RunM, RunA, RunF, RunZba, RunZbb, RunZbs, RunZicond, RunI, ExecuteCompressed, Is32Bit;
    hide A.IsAtomicInstruction, IsCsrInstruction, M.IsMInstruction, F.IsFInstruction, Zifencei.IsFenceI;
    hide I.DecodeType, Zba.DecodeType, Zbb.DecodeType, Zbs.DecodeType, Zicond.DecodeType;
  }

  lemma AExecuteResv(d: A.Decoded, x: Regs, m: Mem, resv: A.Reservation)
    ensures var o := A.Execute(d, x, m, resv);
      o.r.valid ==> o.resv == match d.op
        case LR_W => A.Reservation(true, A.WordOf(GetReg(x, d.rs1)))
        case SC_W => A.Cleared(resv)
        case _ => resv
  {
    hide GetReg, SetReg, Read32, Write32, A.AmoValue, Bit, A.WordOf;
  }

  lemma RunAResv(h: State, i: Word)
    ensures RunA(h, i).trap.None? ==> RunA(h, i).h.resv == ResvAfter(h, i)
  {
    AExecuteResv(A.Decode(i), h.x, h.mem, h.resv);
    hide A.Execute, A.DecodeType, A.WordOf, GetReg;
  }

  lemma NotAtomicKeeps(cfg: Config, fp: F.FpUnit, h: State, i: Word)
    requires !A.IsAtomicInstruction(i)
    ensures ExecuteFetched(cfg, fp, h, i).h.resv == h.resv
  {
    CompressedKeepsResv(cfg, h, Parcel(i));
    OthersKeepResv(cfg, fp, h, i);
    hide RunCsr, RunM, RunA, RunF, RunZba, RunZbb, RunZbs, RunZicond, RunI, ExecuteCompressed, Is32Bit;
    hide A.IsAtomicInstruction, IsCsrInstruction, M.IsMInstruction, F.IsFInstruction, Zifencei.IsFenceI;
    hide Zba.DecodeType, Zbb.DecodeType, Zbs.DecodeType, Zicond.DecodeType, Parcel;
  }
  lemma CompressedKeepsResv(cfg: Config, h: State, p: Word)
    ensures ExecuteCompressed(cfg, h, p).h.resv == h.resv
  {
    hide C.Execute, C.Decode, FC.Execute, FC.Decode, FC.IsCompressedFloat;
  }
  lemma OthersKeepResv(cfg: Config, fp: F.FpUnit, h: State, i: Word)
    ensures RunCsr(cfg, h, i).h.resv == h.resv && RunM(h, i).h.resv == h.resv && RunF(cfg, fp, h, i).h.resv == h.resv
    ensures RunZba(h, i).h.resv == h.resv && RunZbb(h, i).h.resv == h.resv && RunZbs(h, i).h.resv == h.resv
    ensures RunZicond(h, i).h.resv == h.resv && RunI(cfg, h, i).h.resv == h.resv
  {
    hide Decode, Execute, SatpBlocked, M.Execute, M.Decode, F.Execute, F.Decode, Zbb.Execute, Zbb.Decode, SetReg, SetCell;
    hide I.Execute, I.Decode, Blocked, Mret, Sret, GetReg, GetCell, Zba.Compute, Zbs.Compute, Zicond.Compute;
  }

  lemma ExecuteResv(cfg: Config, fp: F.FpUnit, h: State, i: Word)
    ensures var e := ExecuteFetched(cfg, fp, h, i); e.trap.None? ==> e.h.resv == ResvAfter(h, i)
  {
    hide ExecuteFetched, A.IsAtomicInstruction, A.DecodeType, RunA, Address, A.WordOf;
    if A.IsAtomicInstruction(i) {
      AtomicDispatch(cfg, fp, h, i);
      RunAResv(h, i);
    } else {
      NotAtomicKeeps(cfg, fp, h, i);
      DecodedIsAtomic(i);
    }
  }

  // ------------------------------------------------------------------
  // The reservation after one event
  // ------------------------------------------------------------------

  /** What an event means for later store-conditionals. */
  datatype Mark = Neutral | Cancel | Reserve(word: Word)

  /** A trap, an interrupt or any SC.W cancels; a successful LR.W reserves its word. */
  function StepMark(h: State, r: StepResult): Mark {
    if r.trap || r.interrupt then Cancel
    else match A.DecodeType(r.instruction)
      case LR_W => Reserve(A.WordOf(Address(h.x, r.instruction)))
      case SC_W => Cancel
      case _ => Neutral
  }

  function MarkOf(cfg: Config, fp: F.FpUnit, h: State, e: Event): Mark {
    hide Take;
    if e.Restart? then Cancel
    else if e.Line? then Neutral
    else StepMark(h, Take(cfg, fp, h, e).r)
  }

  /** resv' is what a mark makes of resv. */
  predicate Marked(k: Mark, resv: A.Reservation, resv': A.Reservation) {
    match k
    case Neutral => resv' == resv
    case Cancel => !resv'.valid
    case Reserve(w) => resv' == A.Reservation(true, w)
  }

  lemma InstructionMarks(cfg: Config, fp: F.FpUnit, h: State, i: Word)
    ensures var s := StepInstruction(cfg, fp, h, i); Marked(StepMark(h, s.r), h.resv, s.h.resv) && s.r.instruction == i
  {
    ExecuteResv(cfg, fp, h, i);
    hide ExecuteFetched, TakeException, BumpCycle, BumpInstret, A.DecodeType, Address, A.WordOf, Is32Bit;
  }

  lemma TrapMarks(cfg: Config, h: State, e: Exec, r: StepResult)
    requires e.trap.Some?
    ensures var s := Finish(cfg, e, r); Marked(StepMark(h, s.r), h.resv, s.h.resv)
  {
    hide TakeException, BumpCycle, BumpInstret, A.DecodeType, Address, A.WordOf;
  }

  lemma DeliveryMarks(cfg: Config, h: State, i: Interrupt)
    ensures var s := Deliver(cfg, h, i); Marked(StepMark(h, s.r), h.resv, s.h.resv)
  {
    hide TakeInterrupt, BumpCycle, A.DecodeType, Address, A.WordOf;
  }

  lemma StepMarks(cfg: Config, fp: F.FpUnit, h: State, e: Event)
    requires IsStep(e)
    ensures var s := Take(cfg, fp, h, e); Marked(StepMark(h, s.r), h.resv, s.h.resv)
  {
    hide Choose, Fetch, Deliver, StepInstruction, Finish, Marked, StepMark;
    match Choose(cfg, h.csrs)
    case Some(i) => DeliveryMarks(cfg, h, i);
    case None =>
      if e.Inject? {
        InstructionMarks(cfg, fp, h, e.opcode);
      } else {
        match Fetch(h.mem, h.pc)
        case Instruction(i) => InstructionMarks(cfg, fp, h, i);
        case FetchFault(addr) => TrapMarks(cfg, h, FetchTrap(h, addr), StartResult(h.pc));
      }
  }

  lemma EventMarks(cfg: Config, fp: F.FpUnit, h: State, e: Event)
    ensures Marked(MarkOf(cfg, fp, h, e), h.resv, Apply(cfg, fp, h, e).resv)
  {
    hide StepFetched, StepInjected, StepMark, ResetCsrs;
    if IsStep(e) { StepMarks(cfg, fp, h, e); }
  }

  // ------------------------------------------------------------------
  // Runs
  // ------------------------------------------------------------------

  /** The word of the latest LR.W in the run unless something cancelled it since; h is the state the run starts in. */
  function Latest(cfg: Config, fp: F.FpUnit, h: State, es: seq<Event>): Option<Word> {
    hide Run, MarkOf;
    if es == [] then None
    else
      var before := es[..|es| - 1];
      match MarkOf(cfg, fp, Run(cfg, fp, h, before), es[|es| - 1])
      case Neutral => Latest(cfg, fp, h, before)
      case Cancel => None
      case Reserve(w) => Some(w)
  }

  /** The reservation of a run that starts without one records exactly the latest uncancelled LR.W. */
  lemma {:induction false} ReservationIsLatest(cfg: Config, fp: F.FpUnit, h: State, es: seq<Event>)
    requires !h.resv.valid
    ensures var resv := Run(cfg, fp, h, es).resv;
      Latest(cfg, fp, h, es) == if resv.valid then Some(resv.addr) else None
  {
    hide Apply, MarkOf;
    if es != [] {
      var before := es[..|es| - 1];
      ReservationIsLatest(cfg, fp, h, before);
      EventMarks(cfg, fp, Run(cfg, fp, h, before), es[|es| - 1]);
    }
  }

  // ------------------------------------------------------------------
  // Store-conditional
  // ------------------------------------------------------------------

  /** The whole effect of an SC.W that raises no exception; success writes rs2 and returns 0, failure returns 1. */
  predicate ScOutcome(h: State, i: Word, success: bool, h': State) {
    var addr := Address(h.x, i);
    h'.x == SetReg(h.x, Rd(i), W(if success then 0 else 1)) && h'.f == h.f && !h'.resv.valid &&
    (if success then Write32(h.mem, addr, GetReg(h.x, Rs2(i))) == Some(h'.mem) else h'.mem == h.mem)
  }

  lemma AExecuteSc(d: A.Decoded, x: Regs, m: Mem, resv: A.Reservation)
    requires d.op.SC_W? && !Bit(GetReg(x, d.rs1), 3) && InBounds(m, GetReg(x, d.rs1), 4)
    ensures var o := A.Execute(d, x, m, resv);
      var addr := GetReg(x, d.rs1);
      var success := A.Check(resv, addr);
      o.r.valid && !o.resv.valid && o.x == SetReg(x, d.rd, W(if success then 0 else 1)) &&
      (if success then Write32(m, addr, GetReg(x, d.rs2)) == Some(o.m) else o.m == m)
  {
    assert Write32(m, GetReg(x, d.rs1), GetReg(x, d.rs2)).Some?;
    hide GetReg, SetReg, Read32, Write32, A.AmoValue, Bit, A.WordOf, InBounds;
  }

  lemma ScInstruction(cfg: Config, fp: F.FpUnit, h: State, i: Word)
    requires cfg.a && A.DecodeType(i).SC_W?
    requires !Bit(Address(h.x, i), 3) && InBounds(h.mem, Address(h.x, i), 4)
    ensures var s := StepInstruction(cfg, fp, h, i);
      !s.r.trap && !s.r.interrupt && ScOutcome(h, i, A.Check(h.resv, Address(h.x, i)), s.h)
  {
    DecodedIsAtomic(i);
    AtomicDispatch(cfg, fp, h, i);
    AExecuteSc(A.Decode(i), h.x, h.mem, h.resv);
    hide ExecuteFetched, A.Execute, A.DecodeType, A.IsAtomicInstruction, BumpCycle, BumpInstret, GetReg, SetReg;
    hide Write32, Bit, InBounds, A.WordOf, TakeException;
  }

  /** The instruction a step would execute if it delivered no interrupt. */
  function Attempted(cfg: Config, h: State, e: Event): Fetched
    requires IsStep(e)
  {
    hide Fetch;
    if e.Inject? then Instruction(e.opcode) else Fetch(h.mem, h.pc)
  }

  lemma TakeAttempts(cfg: Config, fp: F.FpUnit, h: State, e: Event)
    requires IsStep(e) && Choose(cfg, h.csrs).None? && Attempted(cfg, h, e).Instruction?
    ensures Take(cfg, fp, h, e) == StepInstruction(cfg, fp, h, Attempted(cfg, h, e).i)
  {
    hide Choose, Fetch, StepInstruction, Finish;
  }

  /**
   * After any run from reset, an aligned and in-bounds SC.W succeeds exactly when the latest LR.W not yet
   * cancelled by an SC.W, trap, interrupt or reset was to the same word.
   */
  lemma StoreConditional(cfg: Config, fp: F.FpUnit, resv: A.Reservation, mem: Mem, es: seq<Event>, e: Event)
    requires cfg.a && IsStep(e)
    requires var h := Run(cfg, fp, Reset(cfg, resv, mem), es);
      Choose(cfg, h.csrs).None? && Attempted(cfg, h, e).Instruction? &&
      var i := Attempted(cfg, h, e).i;
      A.DecodeType(i).SC_W? && !Bit(Address(h.x, i), 3) && InBounds(h.mem, Address(h.x, i), 4)
    ensures var h0 := Reset(cfg, resv, mem);
      var h := Run(cfg, fp, h0, es);
      var i := Attempted(cfg, h, e).i;
      var s := Take(cfg, fp, h, e);
      !s.r.trap && !s.r.interrupt &&
      ScOutcome(h, i, Latest(cfg, fp, h0, es) == Some(A.WordOf(Address(h.x, i))), s.h)
  {
    var h0 := Reset(cfg, resv, mem);
    hide Run, Latest, Take, ScOutcome, Choose, A.DecodeType, Bit, InBounds, Address, A.WordOf, Attempted, ResetCsrs;
    hide StepInstruction;
    var h := Run(cfg, fp, h0, es);
    var i := Attempted(cfg, h, e).i;
    ReservationIsLatest(cfg, fp, h0, es);
    TakeAttempts(cfg, fp, h, e);
    ScInstruction(cfg, fp, h, i);
  }

  /** No reservation outlives a step at an SC.W, whether it succeeds, fails, faults or is pre-empted by an interrupt. */
  lemma NoReservationAfterSc(cfg: Config, fp: F.FpUnit, h: State, e: Event)
    requires IsStep(e) && Attempted(cfg, h, e).Instruction? && A.DecodeType(Attempted(cfg, h, e).i).SC_W?
    ensures !Take(cfg, fp, h, e).h.resv.valid
  {
    hide Choose, Deliver, StepInstruction, Attempted, A.DecodeType, Address, A.WordOf, Fetch;
    match Choose(cfg, h.csrs)
    case Some(i) =>
      DeliveryMarks(cfg, h, i);
      DeliveryReports(cfg, h, i);
    case None =>
      TakeAttempts(cfg, fp, h, e);
      InstructionMarks(cfg, fp, h, Attempted(cfg, h, e).i);
  }
}
