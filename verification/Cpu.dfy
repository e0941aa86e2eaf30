/** The CPU object and the system around it, proved against the step machine. */
module Cpu {
  import opened Bits
  import opened Common
  import opened Zicsr
  import opened Hart
  import A = Rv32a
  import C = Rv32c
  import F = Rv32f
  import FC = Rv32fc
  import I = Rv32i
  import M = Rv32m
  import Zba
  import Zbb
  import Zbs
  import Zicond
  import Zifencei
  import opened Reachable
  import opened Loading

  // ------------------------------------------------------------------
  // The step in the two halves in which the source performs it
  // ------------------------------------------------------------------

  /** After execution: trap CSRs and result record updated, pc and counters not yet. */
  function Executed(cfg: Config, e: Exec, r: StepResult): Stepped {
    match e.trap
    case None => Stepped(e.h, r.(nextPc := e.nextPc, taken := e.taken))
    case Some(t) =>
      var entry := Hart.TakeException(cfg, e.h.csrs, t, e.h.pc);
      Stepped(e.h.(csrs := entry.csrs, resv := A.Cleared(e.h.resv)),
              r.(nextPc := entry.handler, taken := e.taken, trap := true, cause := t.cause, tval := t.tval))
  }

  /** finish_step: the pc moves, mcycle counts, and minstret counts unless the step trapped. */
  function Finished(s: Stepped): Stepped {
    var c := BumpCycle(s.h.csrs);
    s.(h := s.h.(pc := s.r.nextPc, csrs := if s.r.trap then c else BumpInstret(c)))
  }

  lemma FinishSplits(cfg: Config, e: Exec, r: StepResult)
    requires !r.trap
    ensures Finish(cfg, e, r) == Finished(Executed(cfg, e, r))
  {
    hide Hart.TakeException, BumpCycle, BumpInstret;
  }

  // ------------------------------------------------------------------
  // The mstatus word in trap entry and return, one field at a time
  // ------------------------------------------------------------------

  method StackForM(old_: Word, p: Privilege) returns (mstatus: Word)
    ensures mstatus == MTrapStatus(old_, p)
  {
    hide RankBits;
    var v := old_.b;
    var oldMie := v & MSTATUS_MIE != 0;
    v := v & !(MSTATUS_MIE | MSTATUS_MPIE | MSTATUS_MPP);
    if oldMie { v := v | MSTATUS_MPIE; }
    v := v | (RankBits(p) << 11);
    mstatus := W(v);
  }

  method StackForS(old_: Word, p: Privilege) returns (mstatus: Word)
    ensures mstatus == STrapStatus(old_, p)
  {
    var v := old_.b;
    var oldSie := v & MSTATUS_SIE != 0;
    v := v & !(MSTATUS_SIE | MSTATUS_SPIE | MSTATUS_SPP);
    if oldSie { v := v | MSTATUS_SPIE; }
    if p == SUPERVISOR { v := v | MSTATUS_SPP; }
    mstatus := W(v);
  }

  method UnstackM(old_: Word, uMode: bool) returns (mstatus: Word)
    ensures mstatus == MretStatus(uMode, old_)
  {
    hide RestoredMie, LeastMpp;
    var v := UnstackMie(old_.b);
    v := LeastMpp(v, uMode);
    if (old_.b >> 11) & 3 != 3 { v := v & !MSTATUS_MPRV; }
    mstatus := W(v);
  }

  method UnstackMie(old_: bv32) returns (v: bv32)
    ensures v == RestoredMie(old_)
  {
    v := old_ & !MSTATUS_MIE;
    if old_ & MSTATUS_MPIE != 0 { v := v | MSTATUS_MIE; }
    v := v | MSTATUS_MPIE;
    v := v & !MSTATUS_MPP;
  }

  method UnstackS(old_: Word) returns (mstatus: Word)
    ensures mstatus == SretStatus(old_)
  {
    var v := old_.b;
    var spie := v & MSTATUS_SPIE != 0;
    v := v & !MSTATUS_SIE;
    if spie { v := v | MSTATUS_SIE; }
    v := v | MSTATUS_SPIE;
    v := v & !MSTATUS_SPP;
    v := v & !MSTATUS_MPRV;
    mstatus := W(v);
  }

  class CPU {
    const regs: RegFile
    const fregs: F.FRegFile
    const csrs: CSRFile
    const reservation: A.ReservationSet
    var pc: Word
    var config: Config
    const fp: F.FpUnit

    ghost predicate Valid() {
      regs.Valid() && fregs.Valid() && regs.x != fregs.bits
    }

    ghost function Footprint(): set<object> { {this, regs.x, fregs.bits, csrs, reservation} }

    ghost function With(m: Mem): State
      requires Valid()
      reads Footprint()
    {
      State(regs.Contents(), fregs.Contents(), csrs.State(), pc, reservation.State(), m)
    }

    constructor (cfg: Config, fp: F.FpUnit)
      ensures Valid() && config == cfg && this.fp == fp && fresh(Footprint())
      ensures forall m: Mem :: With(m) == Hart.Reset(cfg, A.Reservation(false, W(0)), m)
    {
      regs := new RegFile();
      fregs := new F.FRegFile();
      csrs := new CSRFile();
      reservation := new A.ReservationSet();
      pc, config := W(0), cfg;
      this.fp := fp;
      new;
      Reset();
    }

    method Reset()
      requires Valid()
      modifies Footprint()
      ensures config == old(config)
      ensures forall m: Mem :: With(m) == Hart.Reset(config, old(reservation.State()), m)
    {
      hide InitialCells, LegalMask, Hardwired, LegalizeTvec, MisaValue, EpcMask, WriteCsr, FloatStatus;
      pc := config.resetVector;
      regs.Reset();
      fregs.Reset();
      reservation.Clear();
      csrs.SetModes(config.s, config.u);
      csrs.SetFExtension(config.f);
      csrs.SetMepcMask(EpcMask(config));
      csrs.Reset();
      csrs.Write(MTVEC, config.mtvecReset);
      csrs.Set(MISA, MisaValue(config));
    }

    // ----------------------------------------------------------------
    // Traps
    // ----------------------------------------------------------------

    method EnterMTrap(cause: Word, tval: Word, trapPc: Word)
      modifies csrs, reservation
      ensures csrs.State() == Hart.EnterMTrap(old(csrs.State()), cause, tval, trapPc)
      ensures reservation.State() == A.Cleared(old(reservation.State()))
    {
      hide MTrapStatus, WriteCsr;
      reservation.Clear();
      var mstatus := StackForM(csrs.Get(MSTATUS), csrs.currentPrivilege);
      csrs.Set(MSTATUS, mstatus);
      csrs.SetPrivilege(MACHINE);
      csrs.Write(MEPC, trapPc);
      csrs.Set(MCAUSE, cause);
      csrs.Set(MTVAL, tval);
    }

    method EnterSTrap(cause: Word, tval: Word, trapPc: Word)
      modifies csrs, reservation
      ensures csrs.State() == Hart.EnterSTrap(old(csrs.State()), cause, tval, trapPc)
      ensures reservation.State() == A.Cleared(old(reservation.State()))
    {
      hide STrapStatus, WriteCsr;
      reservation.Clear();
      var mstatus := StackForS(csrs.Get(MSTATUS), csrs.currentPrivilege);
      csrs.Set(MSTATUS, mstatus);
      csrs.SetPrivilege(SUPERVISOR);
      csrs.Write(SEPC, trapPc);
      csrs.Set(SCAUSE, cause);
      csrs.Set(STVAL, tval);
    }

    method EnterTrapFor(target: Privilege, cause: Word, tval: Word) returns (tvec: Word)
      modifies csrs, reservation
      ensures csrs.State() == EnterTrap(target, old(csrs.State()), cause, tval, pc)
      ensures reservation.State() == A.Cleared(old(reservation.State()))
      ensures tvec == GetCell(csrs.State(), Tvec(target))
    {
      hide Hart.EnterMTrap, Hart.EnterSTrap, GetCell;
      if target == SUPERVISOR {
        EnterSTrap(cause, tval, pc);
        tvec := csrs.Get(STVEC);
      } else {
        EnterMTrap(cause, tval, pc);
        tvec := csrs.Get(MTVEC);
      }
    }

    // Records the exception in the result and redirects next_pc to the direct handler.
    method TakeException(result: StepResult, cause: Word, tval: Word) returns (r: StepResult)
      modifies csrs, reservation
      ensures var entry := Hart.TakeException(config, old(csrs.State()), Trap(cause, tval), pc);
        csrs.State() == entry.csrs &&
        r == result.(trap := true, cause := cause, tval := tval, nextPc := entry.handler)
      ensures reservation.State() == A.Cleared(old(reservation.State()))
    {
      hide EnterTrap, DelegateTarget, Base, GetCell;
      var target := DelegateTarget(config, csrs.State(), cause, false);
      var tvec := EnterTrapFor(target, cause, tval);
      r := result.(trap := true, cause := cause, tval := tval, nextPc := Base(tvec));
    }

    // ----------------------------------------------------------------
    // Interrupts
    // ----------------------------------------------------------------

    // Two passes over the priority list: interrupts for M mode first.
    method TakePendingInterrupt(result: StepResult) returns (taken: bool, r: StepResult)
      modifies csrs, reservation
      ensures match Choose(config, old(csrs.State()))
        case None => !taken && r == result && csrs.State() == old(csrs.State()) && reservation.State() == old(reservation.State())
        case Some(i) =>
          var entry := TakeInterrupt(config, old(csrs.State()), i, pc);
          taken && csrs.State() == entry.csrs && reservation.State() == A.Cleared(old(reservation.State())) &&
          r == result.(nextPc := entry.handler, interrupt := true, cause := i.Cause(), tval := W(0), size := 0)
    {
      ghost var c := csrs.State();
      var pending := And(csrs.Get(MIP), csrs.Get(MIE));
      if pending == W(0) {
        NothingPending(config, c);
        return false, result;
      }
      hide And, Bit, DelegateTarget, GloballyEnabled, EnterTrap, GetCell, Vectored, A.Cleared;
      for pass := 0 to 2
        invariant csrs.State() == c && reservation.State() == old(reservation.State())
        invariant pass >= 1 ==> FirstFrom(config, c, true, 0) == None
        invariant pass == 2 ==> FirstFrom(config, c, false, 0) == None
      {
        for k := 0 to |PRIORITY|
          invariant csrs.State() == c && reservation.State() == old(reservation.State())
          invariant FirstFrom(config, c, pass == 0, 0) == FirstFrom(config, c, pass == 0, k)
        {
          var i := PRIORITY[k];
          if Bit(pending, i.Mask()) {
            var target := DelegateTarget(config, csrs.State(), i.Cause(), true);
            if (pass == 0) == (target == MACHINE) && GloballyEnabled(csrs.State(), target) {
              assert Choose(config, c) == Some(i);
              var tvec := EnterTrapFor(target, i.Cause(), W(0));
              r := result.(nextPc := Vectored(tvec, i.Number()), interrupt := true, cause := i.Cause(), tval := W(0), size := 0);
              return true, r;
            }
          }
        }
      }
      return false, result;
    }

    // set_external_interrupt and its five siblings.
    method SetLine(i: Interrupt, level: bool)
      modifies csrs
      ensures csrs.State() == SetCell(old(csrs.State()), MIP, WithLine(GetCell(old(csrs.State()), MIP), i, level))
    {
      hide WithLine;
      var mip := csrs.Get(MIP);
      csrs.Set(MIP, WithLine(mip, i, level));
    }

    // MRET and SRET.
    method DoMret(result: StepResult) returns (r: StepResult)
      modifies csrs
      ensures csrs.State() == Mret(old(csrs.State()))
      ensures r == result.(nextPc := GetCell(old(csrs.State()), MEPC), taken := true)
    {
      hide MretStatus, MppPrivilege;
      var old_ := csrs.Get(MSTATUS);
      var mstatus := UnstackM(old_, csrs.uModeEnabled);
      csrs.Set(MSTATUS, mstatus);
      csrs.SetPrivilege(MppPrivilege(old_));
      r := result.(nextPc := csrs.Get(MEPC), taken := true);
    }

    method DoSret(result: StepResult) returns (r: StepResult)
      modifies csrs
      ensures csrs.State() == Sret(old(csrs.State()))
      ensures r == result.(nextPc := GetCell(old(csrs.State()), SEPC), taken := true)
    {
      hide SretStatus, Bit;
      var old_ := csrs.Get(MSTATUS);
      var mstatus := UnstackS(old_);
      csrs.Set(MSTATUS, mstatus);
      csrs.SetPrivilege(if Bit(old_, MSTATUS_SPP) then SUPERVISOR else USER);
      r := result.(nextPc := csrs.Get(SEPC), taken := true);
    }

    method BumpCounter(lo: Addr, hi: Addr)
      modifies csrs
      ensures csrs.State() == Bump(old(csrs.State()), lo, hi)
    {
      hide Counter, Low32, High32;
      var v := Counter(csrs.State(), lo, hi) + 1;
      csrs.Set(lo, Low32(v));
      csrs.Set(hi, High32(v));
    }

    // ----------------------------------------------------------------
    // Execution of one instruction, trap entry included
    // ----------------------------------------------------------------

    /** The step so far is the execution of e, recorded over result. */
    ghost predicate Has(e: Exec, result: StepResult, bus: SimpleMemory, r: StepResult)
      requires Valid()
      reads Footprint(), bus.mem
    {
      Stepped(With(bus.Contents()), r) == Executed(config, e, result)
    }

    method ExecuteCsr(i: Word, bus: SimpleMemory, result: StepResult) returns (r: StepResult)
      requires Valid() && !result.trap && !result.taken
      modifies regs.x, csrs, reservation
      ensures Has(RunCsr(config, old(With(bus.Contents())), i), result, bus, r)
    {
      hide Execute, Decode, SatpBlocked, Hart.TakeException, Add;
      r := result.(nextPc := Add(pc, W(4)));
      var d := Decode(i);
      if SatpBlocked(config, csrs.State(), d.csr) {
        r := TakeException(r, ILLEGAL_INSTRUCTION, i);
        return;
      }
      var valid := ExecuteOn(d, regs, csrs);
      if !valid {
        r := TakeException(r, ILLEGAL_INSTRUCTION, d.raw);
      }
    }

    method ExecuteM(i: Word, bus: SimpleMemory, result: StepResult) returns (r: StepResult)
      requires Valid() && !result.trap && !result.taken
      modifies regs.x, csrs, reservation
      ensures Has(RunM(old(With(bus.Contents())), i), result, bus, r)
    {
      hide M.Execute, M.Decode, Hart.TakeException, Add;
      r := result.(nextPc := Add(pc, W(4)));
      var valid := M.ExecuteOn(M.Decode(i), regs);
      if !valid {
        r := TakeException(r, ILLEGAL_INSTRUCTION, i);
      }
    }

    method ExecuteA(i: Word, bus: SimpleMemory, result: StepResult) returns (r: StepResult)
      requires Valid() && !result.trap && !result.taken
      modifies regs.x, csrs, reservation, bus.mem
      ensures Has(RunA(old(With(bus.Contents())), i), result, bus, r)
    {
      hide A.Execute, A.Decode, Hart.TakeException, Add;
      r := result.(nextPc := Add(pc, W(4)));
      var exec := A.ExecuteOn(A.Decode(i), regs, bus, reservation);
      if !exec.valid {
        r := TakeException(r, exec.cause, exec.tval);
      }
    }

    // The executor works on a view of fcsr that is written back whether or not the instruction is valid.
    method ExecuteF(i: Word, bus: SimpleMemory, result: StepResult) returns (r: StepResult)
      requires Valid() && !result.trap && !result.taken
      modifies regs.x, fregs.bits, csrs, reservation, bus.mem
      ensures Has(RunF(config, fp, old(With(bus.Contents())), i), result, bus, r)
    {
      hide F.Execute, F.Decode, F.FcsrView, Hart.TakeException, Add, GetCell, SetCell;
      r := result.(nextPc := Add(pc, W(4)));
      var view := F.FcsrView(csrs.Get(FCSR));
      var exec, fcsr := F.ExecuteOn(fp, config.allowMisaligned, F.Decode(i), regs, fregs, bus, view);
      csrs.Set(FCSR, F.FcsrView(fcsr));
      if !exec.valid {
        r := TakeException(r, exec.cause, exec.tval);
      }
    }

    method ExecuteZba(i: Word, bus: SimpleMemory, result: StepResult) returns (r: StepResult)
      requires Valid() && !result.trap && !result.taken
      modifies regs.x
      ensures Has(RunZba(old(With(bus.Contents())), i), result, bus, r)
    {
      hide Zba.Compute, Zba.Decode, Add, GetReg, SetReg;
      r := result.(nextPc := Add(pc, W(4)));
      var d := Zba.Decode(i);
      var a := regs.Read(d.rs1);
      var b := regs.Read(d.rs2);
      regs.Write(d.rd, Zba.Compute(d.op, a, b));
    }

    method ExecuteZbb(i: Word, bus: SimpleMemory, result: StepResult) returns (r: StepResult)
      requires Valid() && !result.trap && !result.taken
      modifies regs.x, csrs, reservation
      ensures Has(RunZbb(old(With(bus.Contents())), i), result, bus, r)
    {
      hide Zbb.Execute, Zbb.Decode, Hart.TakeException, Add;
      r := result.(nextPc := Add(pc, W(4)));
      var valid := Zbb.ExecuteOn(Zbb.Decode(i), regs);
      if !valid {
        r := TakeException(r, ILLEGAL_INSTRUCTION, i);
      }
    }

    method ExecuteZbs(i: Word, bus: SimpleMemory, result: StepResult) returns (r: StepResult)
      requires Valid() && !result.trap && !result.taken
      modifies regs.x
      ensures Has(RunZbs(old(With(bus.Contents())), i), result, bus, r)
    {
      hide Zbs.Compute, Zbs.Decode, Zbs.Immediate, Add, GetReg, SetReg;
      r := result.(nextPc := Add(pc, W(4)));
      var d := Zbs.Decode(i);
      var a := regs.Read(d.rs1);
      var n := d.rs2;
      if !Zbs.Immediate(d.op) { n := regs.Read(d.rs2); }
      regs.Write(d.rd, Zbs.Compute(d.op, a, n));
    }

    method ExecuteZicond(i: Word, bus: SimpleMemory, result: StepResult) returns (r: StepResult)
      requires Valid() && !result.trap && !result.taken
      modifies regs.x
      ensures Has(RunZicond(old(With(bus.Contents())), i), result, bus, r)
    {
      hide Zicond.Compute, Zicond.Decode, Add, GetReg, SetReg;
      r := result.(nextPc := Add(pc, W(4)));
      var d := Zicond.Decode(i);
      var a := regs.Read(d.rs1);
      var b := regs.Read(d.rs2);
      regs.Write(d.rd, Zicond.Compute(d.op, a, b));
    }

    method ExecuteI(i: Word, bus: SimpleMemory, result: StepResult) returns (r: StepResult)
      requires Valid() && !result.trap && !result.taken
      modifies regs.x, csrs, reservation, bus.mem
      ensures Has(RunI(config, old(With(bus.Contents())), i), result, bus, r)
    {
      hide I.Execute, I.Decode, Hart.TakeException, Add, Mret, Sret, Blocked, GetCell;
      FlagsAreAlone(IConfig(config, csrs.State()), I.Decode(i, config.s), regs.Contents(), bus.Contents(), pc);
      var exec := I.ExecuteOn(IConfig(config, csrs.State()), I.Decode(i, config.s), regs, bus, pc);
      r := result.(nextPc := exec.nextPc, taken := exec.taken);
      var priv := csrs.currentPrivilege;
      if exec.mret {
        if priv != MACHINE {
          r := TakeException(r, ILLEGAL_INSTRUCTION, i);
        } else {
          r := DoMret(r);
        }
      } else if exec.sret {
        if !config.s || Blocked(csrs.State(), MSTATUS_TSR) {
          r := TakeException(r, ILLEGAL_INSTRUCTION, i);
        } else {
          r := DoSret(r);
        }
      } else if exec.sfenceVma {
        if Blocked(csrs.State(), MSTATUS_TVM) {
          r := TakeException(r, ILLEGAL_INSTRUCTION, i);
        }
      } else if exec.wfi {
        if Blocked(csrs.State(), MSTATUS_TW) {
          r := TakeException(r, ILLEGAL_INSTRUCTION, i);
        }
      } else if exec.trap {
        r := TakeException(r, exec.cause, exec.tval);
      }
    }

    // Dispatch to the extension that claims the word, and to the base ISA if none does.
    method Execute32bit(i: Word, bus: SimpleMemory, result: StepResult) returns (r: StepResult)
      requires Valid() && !result.trap && !result.taken
      modifies regs.x, fregs.bits, csrs, reservation, bus.mem
      ensures Has(Execute32(config, fp, old(With(bus.Contents())), i), result, bus, r)
    {
      hide RunCsr, RunM, RunA, RunF, ExecuteTail, Add, IsCsrInstruction, M.IsMInstruction;
      hide A.IsAtomicInstruction, F.IsFInstruction, Zifencei.IsFenceI, Has, With, Valid;
      if config.zifencei && Zifencei.IsFenceI(i) {
        r := ExecuteFence(bus, result);
      } else if config.zicsr && IsCsrInstruction(i) {
        r := ExecuteCsr(i, bus, result);
      } else if config.m && M.IsMInstruction(i) {
        r := ExecuteM(i, bus, result);
      } else if config.a && A.IsAtomicInstruction(i) {
        r := ExecuteA(i, bus, result);
      } else if config.f && F.IsFInstruction(i) {
        r := ExecuteF(i, bus, result);
      } else {
        r := ExecuteBitOrBase(i, bus, result);
      }
    }

    method ExecuteBitOrBase(i: Word, bus: SimpleMemory, result: StepResult) returns (r: StepResult)
      requires Valid() && !result.trap && !result.taken
      modifies regs.x, csrs, reservation, bus.mem
      ensures Has(ExecuteTail(config, old(With(bus.Contents())), i), result, bus, r)
    {
      hide RunZba, RunZbb, RunZbs, RunZicond, RunI, Zba.DecodeType, Zbb.DecodeType, Zbs.DecodeType, Zicond.DecodeType;
      hide Has, With, Valid;
      if config.zba && !Zba.DecodeType(i).ILLEGAL? {
        r := ExecuteZba(i, bus, result);
      } else if config.zbb && !Zbb.DecodeType(i).ILLEGAL? {
        r := ExecuteZbb(i, bus, result);
      } else if config.zbs && !Zbs.DecodeType(i).ILLEGAL? {
        r := ExecuteZbs(i, bus, result);
      } else if config.zicond && !Zicond.DecodeType(i).ILLEGAL? {
        r := ExecuteZicond(i, bus, result);
      } else {
        r := ExecuteI(i, bus, result);
      }
    }

    method ExecuteFence(bus: SimpleMemory, result: StepResult) returns (r: StepResult)
      requires Valid() && !result.trap && !result.taken
      ensures var h := old(With(bus.Contents())); Has(Exec(h, Add(h.pc, W(4)), false, None), result, bus, r)
    {
      hide Add;
      r := result.(nextPc := Add(pc, W(4)));
    }

    method ExecuteParcel(p: Word, bus: SimpleMemory, result: StepResult) returns (r: StepResult)
      requires Valid() && !result.trap && !result.taken
      modifies regs.x, fregs.bits, csrs, reservation, bus.mem
      ensures Has(ExecuteCompressed(config, old(With(bus.Contents())), p), result, bus, r)
    {
      hide C.Execute, C.Decode, FC.Execute, FC.Decode, FC.IsCompressedFloat, Hart.TakeException, Add;
      if config.f && FC.IsCompressedFloat(p) {
        var exec := FC.ExecuteOn(config.allowMisaligned, FC.Decode(p), regs, fregs, bus);
        r := result.(nextPc := Add(pc, W(2)));
        if !exec.valid {
          r := TakeException(r, exec.cause, exec.tval);
        }
      } else {
        var exec := C.ExecuteOn(config.allowMisaligned, C.Decode(p), regs, bus, pc);
        r := result.(nextPc := exec.nextPc, taken := exec.taken);
        if exec.trap {
          r := TakeException(r, exec.cause, exec.tval);
        }
      }
    }

    method FinishStep(bus: SimpleMemory, r: StepResult)
      requires Valid()
      modifies this`pc, csrs
      ensures Stepped(With(bus.Contents()), r) == Finished(Stepped(old(With(bus.Contents())), r))
    {
      hide Bump;
      pc := r.nextPc;
      BumpCounter(MCYCLE, MCYCLEH);
      if !r.trap {
        BumpCounter(MINSTRET, MINSTRETH);
      }
    }

    method RunInstruction(i: Word, bus: SimpleMemory) returns (r: StepResult)
      requires Valid()
      modifies Footprint(), bus.mem
      ensures config == old(config)
      ensures Stepped(With(bus.Contents()), r) == StepInstruction(config, fp, old(With(bus.Contents())), i)
    {
      hide Execute32, ExecuteCompressed, Finished, Executed, Finish, Is32Bit, Parcel, Hart.TakeException;
      ghost var h := With(bus.Contents());
      r := StartResult(pc).(instruction := i);
      if Is32Bit(i) {
        r := Execute32bit(i, bus, r);
      } else {
        r := r.(size := 2);
        if config.c {
          r := ExecuteParcel(Parcel(i), bus, r);
        } else {
          r := RejectParcel(Parcel(i), bus, r);
        }
      }
      FinishSplits(config, ExecuteFetched(config, fp, h, i), ExecutingResult(h, i));
      FinishStep(bus, r);
    }

    // With C disabled every 16-bit encoding is illegal.
    method RejectParcel(p: Word, bus: SimpleMemory, result: StepResult) returns (r: StepResult)
      requires Valid() && !result.trap && !result.taken
      modifies csrs, reservation
      ensures Has(Exec(old(With(bus.Contents())), pc, false, Some(Trap(ILLEGAL_INSTRUCTION, p))), result, bus, r)
    {
      hide Hart.TakeException;
      r := TakeException(result, ILLEGAL_INSTRUCTION, p);
    }

    // Samples interrupts; true when the step is complete because one was taken.
    method BeginStep(bus: SimpleMemory) returns (done: bool, r: StepResult)
      requires Valid()
      modifies this`pc, csrs, reservation
      ensures match Choose(config, old(csrs.State()))
        case None => !done && r == StartResult(pc) && With(bus.Contents()) == old(With(bus.Contents()))
        case Some(i) => done && Stepped(With(bus.Contents()), r) == Deliver(config, old(With(bus.Contents())), i)
    {
      hide Choose, TakeInterrupt, Bump;
      done, r := TakePendingInterrupt(StartResult(pc));
      if done {
        pc := r.nextPc;
        BumpCounter(MCYCLE, MCYCLEH);
      }
    }

    /** step(bus) */
    method Step(bus: SimpleMemory) returns (r: StepResult)
      requires Valid()
      modifies Footprint(), bus.mem
      ensures config == old(config)
      ensures Stepped(With(bus.Contents()), r) == StepFetched(config, fp, old(With(bus.Contents())))
    {
      hide Choose, Deliver, StepInstruction, Finish, Read16, Is32Bit, JoinParcels, Add;
      ghost var h := With(bus.Contents());
      var done;
      done, r := BeginStep(bus);
      if done { return; }
      var lo := bus.ReadHalf(pc);
      if lo.None? {
        r := FetchFaults(pc, bus);
        return;
      }
      var i := lo.value;
      if Is32Bit(i) {
        var hi := bus.ReadHalf(Add(pc, W(2)));
        if hi.None? {
          r := FetchFaults(Add(pc, W(2)), bus);
          return;
        }
        i := JoinParcels(i, hi.value);
      }
      r := RunInstruction(i, bus);
    }

    method FetchFaults(addr: Word, bus: SimpleMemory) returns (r: StepResult)
      requires Valid()
      modifies Footprint()
      ensures config == old(config)
      ensures var h := old(With(bus.Contents()));
        Stepped(With(bus.Contents()), r) == Finish(config, FetchTrap(h, addr), StartResult(h.pc))
    {
      hide Hart.TakeException, Finished, Finish;
      ghost var h := With(bus.Contents());
      r := StartResult(pc);
      FinishSplits(config, FetchTrap(h, addr), r);
      r := TakeException(r, INSTR_ACCESS_FAULT, addr);
      FinishStep(bus, r);
    }

    /** step(bus, opcode) */
    method StepOpcode(bus: SimpleMemory, opcode: Word) returns (r: StepResult)
      requires Valid()
      modifies Footprint(), bus.mem
      ensures config == old(config)
      ensures Stepped(With(bus.Contents()), r) == StepInjected(config, fp, old(With(bus.Contents())), opcode)
    {
      hide Choose, Deliver, StepInstruction;
      var done;
      done, r := BeginStep(bus);
      if done { return; }
      r := RunInstruction(opcode, bus);
    }

    /** run(bus, max, stopOnTrap) */
    method Run(bus: SimpleMemory, max: nat, stopOnTrap: bool) returns (count: nat)
      requires Valid()
      modifies Footprint(), bus.mem
      ensures config == old(config)
      ensures Ran(With(bus.Contents()), count) == RunUpTo(config, fp, old(With(bus.Contents())), max, stopOnTrap)
    {
      hide StepFetched;
      ghost var h := With(bus.Contents());
      count := 0;
      while count < max
        invariant count <= max && Valid() && config == old(config)
        invariant var rest := RunUpTo(config, fp, With(bus.Contents()), max - count, stopOnTrap);
          Ran(rest.h, count + rest.count) == RunUpTo(config, fp, h, max, stopOnTrap)
      {
        var r := Step(bus);
        count := count + 1;
        if stopOnTrap && (r.trap || r.interrupt) { break; }
      }
    }
  }

  // ------------------------------------------------------------------
  // CPU and memory together
  // ------------------------------------------------------------------

  class System {
    const cpu: CPU
    const memory: SimpleMemory

    ghost predicate Valid() { cpu.Valid() }

    ghost function State(): Hart.State
      requires Valid()
      reads cpu.Footprint(), memory.mem
    {
      cpu.With(memory.Contents())
    }

    constructor (size: nat, cfg: Config, fp: F.FpUnit)
      ensures Valid() && fresh(cpu.Footprint()) && fresh(memory.mem)
      ensures cpu.config == cfg && cpu.fp == fp
      ensures State() == Hart.Reset(cfg, A.Reservation(false, W(0)), Mem(seq(size, _ => Byte(0)), W(0)))
    {
      hide ResetCsrs;
      cpu := new CPU(cfg, fp);
      memory := new SimpleMemory(size, W(0));
    }

    method Reset()
      requires Valid()
      modifies cpu.Footprint(), memory.mem
      ensures State() == Hart.Reset(old(cpu.config), old(cpu.reservation.State()), Mem(seq(memory.mem.Length, _ => Byte(0)), memory.base))
    {
      hide ResetCsrs;
      cpu.Reset();
      memory.Clear();
    }

    // Writes the words in order; false when one falls outside the memory, as the BusFault of the source.
    method LoadProgram(addr: Word, program: seq<Word>) returns (ok: bool)
      modifies memory.mem
      ensures ok == LoadWords(old(memory.Contents()), addr, program).Some?
      ensures ok ==> memory.Contents() == LoadWords(old(memory.Contents()), addr, program).value
    {
      hide Write32, WordAddress;
      ghost var m := memory.Contents();
      for i := 0 to |program|
        invariant LoadWords(m, addr, program[..i]) == Some(memory.Contents())
      {
        assert program[..i + 1][..i] == program[..i];
        ok := memory.WriteWord(WordAddress(addr, i), program[i]);
        if !ok {
          LoadFails(m, addr, program, i + 1);
          return false;
        }
      }
      assert program[..|program|] == program;
      return true;
    }
  }

  lemma {:induction false} LoadFails(m: Mem, addr: Word, program: seq<Word>, n: nat)
    requires n <= |program| && LoadWords(m, addr, program[..n]) == None
    ensures LoadWords(m, addr, program) == None
  {
    hide Write32, WordAddress;
    if n < |program| {
      var k := |program| - 1;
      assert program[..k][..n] == program[..n];
      LoadFails(m, addr, program[..k], n);
    } else {
      assert program[..n] == program;
    }
  }

  lemma FlagsAreAlone(cfg: I.Config, d: I.Decoded, x: Regs, m: Mem, pc: Word)
    ensures var r := I.Execute(cfg, d, x, m, pc).r; r.mret || r.sret || r.sfenceVma || r.wfi ==> !r.taken && !r.trap
  {
    hide GetReg, SetReg, Load, Store, I.Alu, I.BranchTaken, I.ExtendLoaded, Add, And, Bit;
  }

  lemma NothingPending(cfg: Config, c: Csrs)
    requires And(GetCell(c, MIP), GetCell(c, MIE)) == W(0)
    ensures Choose(cfg, c).None?
  {
    forall i: Interrupt ensures !Pending(c, i) {}
    hide FirstFrom, Pending;
    forall toM ensures FirstFrom(cfg, c, toM, 0) == None {
      NoneFrom(cfg, c, toM, 0);
    }
  }
}
