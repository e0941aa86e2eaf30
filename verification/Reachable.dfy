/** Runs of the hart, and the invariant over all of them. */
module Reachable {
  import opened Bits
  import opened Common
  import opened Zicsr
  import opened Hart
  import opened Invariant
  import opened Returns
  import A = Rv32a
  import C = Rv32c
  import F = Rv32f
  import FC = Rv32fc
  import I = Rv32i
  import M = Rv32m
  import Zbb

  // ------------------------------------------------------------------
  // Execution keeps the invariant
  // ------------------------------------------------------------------

  ghost predicate ExecOk(cfg: Config, h: State, e: Exec) {
    CsrsOk(cfg, e.h.csrs) && e.h.pc == h.pc && (e.trap.None? ==> Aligned(cfg, e.nextPc))
  }

  lemma GotoAligned(cfg: I.Config, full: Config, r: I.Result, target: Word)
    requires Even(target) && cfg.cExt == full.c
    ensures I.Goto(cfg, r, target).trap || Aligned(full, I.Goto(cfg, r, target).nextPc)
  {
    hide Even, Bit, Aligned;
    if cfg.cExt || !Bit(target, 2) {
      EvenIsAligned(full, target);
    }
  }

  lemma IExecuteAligned(full: Config, cfg: I.Config, d: I.Decoded, x: Regs, m: Mem, pc: Word)
    requires Aligned(full, pc) && cfg.cExt == full.c
    requires d.op.JAL? || I.IsBranch(d.op) ==> Even(d.imm)
    ensures var o := I.Execute(cfg, d, x, m, pc); o.r.trap || Aligned(full, o.r.nextPc)
  {
    var target := And(Add(GetReg(x, d.rs1), d.imm), W(0xFFFF_FFFE));
    hide Even, Aligned, Add, And, GetReg, SetReg, Load, Store, I.Alu, I.BranchTaken, I.ExtendLoaded, I.Goto;
    PlusFourAligned(full, pc);
    EvenMasked(Add(GetReg(x, d.rs1), d.imm));
    GotoAligned(cfg, full, I.Fresh(pc), target);
    if Even(d.imm) {
      EvenSum(full, pc, d.imm);
      GotoAligned(cfg, full, I.Fresh(pc), Add(pc, d.imm));
    }
  }

  lemma IDecodeEven(i: Word, s: bool)
    ensures var d := I.Decode(i, s); d.op.JAL? || I.IsBranch(d.op) ==> Even(d.imm)
  {
    hide Even, I.ImmJ, I.ImmB, I.DecodeType;
    EvenImmJ(i);
    EvenImmB(i);
  }

  lemma IAligned(full: Config, c: Csrs, i: Word, x: Regs, m: Mem, pc: Word)
    requires Aligned(full, pc)
    ensures var o := I.Execute(IConfig(full, c), I.Decode(i, full.s), x, m, pc);
      o.r.trap || Aligned(full, o.r.nextPc)
  {
    hide Even, Aligned, I.Decode, I.Execute, I.IsBranch;
    IDecodeEven(i, full.s);
    IExecuteAligned(full, IConfig(full, c), I.Decode(i, full.s), x, m, pc);
  }

  predicate CHasTarget(op: C.InstrType) { op.C_JAL? || op.C_J? || op.C_BEQZ? || op.C_BNEZ? }

  lemma CExecuteAligned(cfg: Config, d: C.Decoded, x: Regs, m: Mem, pc: Word)
    requires Aligned(cfg, pc) && cfg.c && (CHasTarget(d.op) ==> Even(d.imm))
    ensures var o := C.Execute(cfg.allowMisaligned, d, x, m, pc); o.r.trap || Aligned(cfg, o.r.nextPc)
  {
    hide Even, Aligned, Add, And, GetReg, SetReg, Load, Store, C.Alu;
    PlusTwoAligned(cfg, pc);
    EvenMasked(GetReg(x, d.rs1));
    EvenIsAligned(cfg, And(GetReg(x, d.rs1), W(0xFFFF_FFFE)));
    if Even(d.imm) {
      EvenSum(cfg, pc, d.imm);
      EvenIsAligned(cfg, Add(pc, d.imm));
    }
  }

  lemma CDecodeEven(p: Word)
    ensures CHasTarget(C.Decode(p).op) ==> Even(C.Decode(p).imm)
  {
    hide Even, C.ImmCj, C.ImmCb, C.DecodeType;
    EvenImmCj(p);
    EvenImmCb(p);
  }

  lemma CAligned(cfg: Config, p: Word, x: Regs, m: Mem, pc: Word)
    requires Aligned(cfg, pc) && cfg.c
    ensures var o := C.Execute(cfg.allowMisaligned, C.Decode(p), x, m, pc);
      o.r.trap || Aligned(cfg, o.r.nextPc)
  {
    hide Even, Aligned, C.Decode, C.Execute, CHasTarget;
    CDecodeEven(p);
    CExecuteAligned(cfg, C.Decode(p), x, m, pc);
  }

  lemma EpcAligned(cfg: Config, c: Csrs, a: Addr)
    requires CsrsOk(cfg, c) && (a == MEPC || (a == SEPC && cfg.s))
    ensures Aligned(cfg, GetCell(c, a))
  {
    MachineCells(cfg);
    if cfg.s { SupervisorCells(cfg); }
    CellLegal(cfg, c, a);
    hide HasCell, CsrsOk, Aligned;
  }

  lemma RunIOk(cfg: Config, h: State, i: Word)
    requires Ok(cfg, h) && (cfg.s ==> cfg.u)
    ensures ExecOk(cfg, h, RunI(cfg, h, i))
  {
    IAligned(cfg, h.csrs, i, h.x, h.mem, h.pc);
    MretOk(cfg, h.csrs);
    EpcAligned(cfg, h.csrs, MEPC);
    if cfg.s {
      SretOk(cfg, h.csrs);
      EpcAligned(cfg, h.csrs, SEPC);
    }
    RetsDoNotTrap(cfg, h, i);
    hide CsrsOk, Aligned, I.Execute, I.Decode, Mret, Sret, Blocked, GetCell;
  }

  lemma RetsDoNotTrap(cfg: Config, h: State, i: Word)
    ensures var r := I.Execute(IConfig(cfg, h.csrs), I.Decode(i, cfg.s), h.x, h.mem, h.pc).r;
      r.mret || r.sret || r.sfenceVma || r.wfi ==> !r.trap
  {
    hide I.Decode, GetReg, SetReg, Load, Store, I.Alu, I.BranchTaken, I.ExtendLoaded, Add, And, Bit;
  }

  lemma RunCsrOk(cfg: Config, h: State, i: Word)
    requires Ok(cfg, h)
    ensures ExecOk(cfg, h, RunCsr(cfg, h, i))
  {
    var d := Decode(i);
    PlusFourAligned(cfg, h.pc);
    hide CsrsOk, Aligned, Decode, ReadCsr, WriteCsr, SatpBlocked, Exists, Writable, CanRead, Source, NewValue;
    if Permitted(d, h.csrs) && WillWrite(d) {
      assert Exists(h.csrs, d.csr) && Writable(d.csr);
      var value := if WillRead(d) then ReadCsr(h.csrs, d.csr) else W(0);
      WriteOk(cfg, h.csrs, d.csr, NewValue(d.op, value, Source(d, h.x)));
    }
  }

  lemma FcsrStored(cfg: Config, c: Csrs, v: Word)
    requires CsrsOk(cfg, c)
    ensures CsrsOk(cfg, SetCell(c, FCSR, F.FcsrView(v)))
  {
    MachineCells(cfg);
    MaskWithin(v, 0xFF);
    hide CsrsOk, HasCell, Within;
    SetOk(cfg, c, FCSR, F.FcsrView(v));
  }

  lemma RunFOk(cfg: Config, fp: F.FpUnit, h: State, i: Word)
    requires Ok(cfg, h)
    ensures ExecOk(cfg, h, RunF(cfg, fp, h, i))
  {
    hide CsrsOk, Aligned, F.Execute, F.Decode, F.FcsrView, SetCell, GetCell;
    PlusFourAligned(cfg, h.pc);
    FcsrStored(cfg, h.csrs, F.Execute(fp, cfg.allowMisaligned, F.Decode(i), h.x, h.f, h.mem, F.FcsrView(GetCell(h.csrs, FCSR))).fcsr);
  }

  lemma SmallOk(cfg: Config, h: State, i: Word)
    requires Ok(cfg, h)
    ensures ExecOk(cfg, h, RunM(h, i)) && ExecOk(cfg, h, RunA(h, i)) && ExecOk(cfg, h, RunZbb(h, i))
    ensures ExecOk(cfg, h, RunZba(h, i)) && ExecOk(cfg, h, RunZbs(h, i)) && ExecOk(cfg, h, RunZicond(h, i))
  {
    PlusFourAligned(cfg, h.pc);
    hide CsrsOk, Aligned, M.Execute, M.Decode, A.Execute, A.Decode, Zbb.Execute, Zbb.Decode, SetReg;
  }

  lemma CompressedOk(cfg: Config, h: State, p: Word)
    requires Ok(cfg, h) && cfg.c
    ensures ExecOk(cfg, h, ExecuteCompressed(cfg, h, p))
  {
    PlusTwoAligned(cfg, h.pc);
    CAligned(cfg, p, h.x, h.mem, h.pc);
    hide CsrsOk, Aligned, C.Execute, C.Decode, FC.Execute, FC.Decode, FC.IsCompressedFloat;
  }

  lemma Execute32Ok(cfg: Config, fp: F.FpUnit, h: State, i: Word)
    requires Ok(cfg, h) && (cfg.s ==> cfg.u)
    ensures ExecOk(cfg, h, Execute32(cfg, fp, h, i))
  {
    PlusFourAligned(cfg, h.pc);
    assert ExecOk(cfg, h, Exec(h, Add(h.pc, W(4)), false, None));
    hide CsrsOk, ExecOk, Aligned, IsCsrInstruction;
    hide RunCsr, RunM, RunA, RunF, RunZba, RunZbb, RunZbs, RunZicond, RunI;
    RunCsrOk(cfg, h, i);
    SmallOk(cfg, h, i);
    RunFOk(cfg, fp, h, i);
    RunIOk(cfg, h, i);
  }

  lemma ExecuteOk(cfg: Config, fp: F.FpUnit, h: State, i: Word)
    requires Ok(cfg, h) && (cfg.s ==> cfg.u)
    ensures ExecOk(cfg, h, ExecuteFetched(cfg, fp, h, i))
  {
    assert ExecOk(cfg, h, Exec(h, h.pc, false, Some(Trap(ILLEGAL_INSTRUCTION, Parcel(i)))));
    hide CsrsOk, ExecOk, Aligned, Execute32, ExecuteCompressed, Is32Bit, Parcel;
    Execute32Ok(cfg, fp, h, i);
    if cfg.c { CompressedOk(cfg, h, Parcel(i)); }
  }

  // ------------------------------------------------------------------
  // Steps keep the invariant
  // ------------------------------------------------------------------

  lemma FinishOk(cfg: Config, h: State, e: Exec, r: StepResult)
    requires ExecOk(cfg, h, e)
    ensures Ok(cfg, Finish(cfg, e, r).h)
  {
    hide CsrsOk, Aligned, EnterTrap, BumpCycle, BumpInstret, DelegateTarget, Base, GetCell;
    match e.trap
    case None =>
      BumpsOk(cfg, e.h.csrs);
    case Some(t) =>
      var target := DelegateTarget(cfg, e.h.csrs, t.cause, false);
      DelegationNeedsS(cfg, e.h.csrs, t.cause, false);
      EnterTrapOk(cfg, target, e.h.csrs, t.cause, t.tval, e.h.pc);
      var c' := EnterTrap(target, e.h.csrs, t.cause, t.tval, e.h.pc);
      BumpsOk(cfg, c');
      BaseAligned(cfg, GetCell(c', Tvec(target)));
  }

  lemma VectoredAligned(cfg: Config, tvec: Word, i: Interrupt)
    ensures Aligned(cfg, Vectored(tvec, i.Number()))
  {
    assert i.Number() < 16;
    hide Aligned, Base, Add;
    BaseAligned(cfg, tvec);
    VectorAligned(cfg, tvec, i.Number());
  }

  lemma DeliverOk(cfg: Config, h: State, i: Interrupt)
    requires Ok(cfg, h)
    ensures Ok(cfg, Deliver(cfg, h, i).h)
  {
    var target := Target(cfg, h.csrs, i);
    var c' := EnterTrap(target, h.csrs, i.Cause(), W(0), h.pc);
    DelegationNeedsS(cfg, h.csrs, i.Cause(), true);
    hide CsrsOk, Aligned, EnterTrap, BumpCycle, BumpInstret, DelegateTarget, GetCell, Vectored;
    EnterTrapOk(cfg, target, h.csrs, i.Cause(), W(0), h.pc);
    BumpsOk(cfg, c');
    VectoredAligned(cfg, GetCell(c', Tvec(target)), i);
  }

  lemma InstructionOk(cfg: Config, fp: F.FpUnit, h: State, i: Word)
    requires Ok(cfg, h) && (cfg.s ==> cfg.u)
    ensures Ok(cfg, StepInstruction(cfg, fp, h, i).h)
  {
    hide Ok, Finish, ExecuteFetched, ExecOk;
    ExecuteOk(cfg, fp, h, i);
    FinishOk(cfg, h, ExecuteFetched(cfg, fp, h, i), ExecutingResult(h, i));
  }

  lemma StepOk(cfg: Config, fp: F.FpUnit, h: State, opcode: Word)
    requires Ok(cfg, h) && (cfg.s ==> cfg.u)
    ensures Ok(cfg, StepFetched(cfg, fp, h).h) && Ok(cfg, StepInjected(cfg, fp, h, opcode).h)
  {
    forall addr ensures ExecOk(cfg, h, FetchTrap(h, addr)) {}
    hide Ok, Deliver, StepInstruction, Finish, Fetch, Choose, ExecOk, FetchTrap;
    match Choose(cfg, h.csrs)
    case Some(i) => DeliverOk(cfg, h, i);
    case None =>
      InstructionOk(cfg, fp, h, opcode);
      match Fetch(h.mem, h.pc)
      case Instruction(i) => InstructionOk(cfg, fp, h, i);
      case FetchFault(addr) => FinishOk(cfg, h, FetchTrap(h, addr), StartResult(h.pc));
  }

  // ------------------------------------------------------------------
  // Runs
  // ------------------------------------------------------------------

  /** What can happen to a hart: a step, an injected instruction, a change of an interrupt line, a reset. */
  datatype Event = Step | Inject(opcode: Word) | Line(i: Interrupt, level: bool) | Restart

  function Apply(cfg: Config, fp: F.FpUnit, h: State, e: Event): State {
    match e
    case Step => StepFetched(cfg, fp, h).h
    case Inject(opcode) => StepInjected(cfg, fp, h, opcode).h
    case Line(i, level) => SetLine(h, i, level)
    case Restart => Reset(cfg, h.resv, h.mem)
  }

  function Run(cfg: Config, fp: F.FpUnit, h: State, es: seq<Event>): State {
    hide Apply;
    if es == [] then h else Apply(cfg, fp, Run(cfg, fp, h, es[..|es| - 1]), es[|es| - 1])
  }

  /** A step of either kind, with the event that caused it. */
  predicate IsStep(e: Event) { e.Step? || e.Inject? }
  function Take(cfg: Config, fp: F.FpUnit, h: State, e: Event): Stepped
    requires IsStep(e)
  {
    hide StepFetched, StepInjected;
    if e.Step? then StepFetched(cfg, fp, h) else StepInjected(cfg, fp, h, e.opcode)
  }

  /** The state after run(), and the number of steps it returns. */
  datatype Ran = Ran(h: State, count: nat)

  /** run(): at most max steps, ending early with a step that traps or takes an interrupt if stopOnTrap. */
  function RunUpTo(cfg: Config, fp: F.FpUnit, h: State, max: nat, stopOnTrap: bool): Ran
    decreases max
  {
    hide StepFetched;
    if max == 0 then Ran(h, 0)
    else
      var s := StepFetched(cfg, fp, h);
      if stopOnTrap && (s.r.trap || s.r.interrupt) then Ran(s.h, 1)
      else
        var rest := RunUpTo(cfg, fp, s.h, max - 1, stopOnTrap);
        Ran(rest.h, rest.count + 1)
  }

  function StepEvents(n: nat): (es: seq<Event>)
    ensures |es| == n && forall k :: 0 <= k < n ==> es[k] == Step
  {
    if n == 0 then [] else [Step] + StepEvents(n - 1)
  }

  lemma {:induction false} RunFirst(cfg: Config, fp: F.FpUnit, h: State, e: Event, es: seq<Event>)
    ensures Run(cfg, fp, h, [e] + es) == Run(cfg, fp, Apply(cfg, fp, h, e), es)
  {
    hide Apply;
    var all := [e] + es;
    if es == [] {
      assert all[..|all| - 1] == [];
    } else {
      RunFirst(cfg, fp, h, e, es[..|es| - 1]);
      assert all[..|all| - 1] == [e] + es[..|es| - 1];
    }
  }

  /** run() is a run of as many steps as it returns, and returns fewer than asked only when told to stop at traps. */
  lemma {:induction false} RunUpToIsRun(cfg: Config, fp: F.FpUnit, h: State, max: nat, stopOnTrap: bool)
    ensures var ran := RunUpTo(cfg, fp, h, max, stopOnTrap);
      ran.h == Run(cfg, fp, h, StepEvents(ran.count)) && ran.count <= max && (ran.count < max ==> stopOnTrap)
    decreases max
  {
    hide StepFetched, Apply;
    if max > 0 {
      var s := StepFetched(cfg, fp, h);
      AppliedStep(cfg, fp, h);
      if stopOnTrap && (s.r.trap || s.r.interrupt) {
        assert StepEvents(1) == [Step] + [];
        RunFirst(cfg, fp, h, Step, []);
      } else {
        RunUpToIsRun(cfg, fp, s.h, max - 1, stopOnTrap);
        RunFirst(cfg, fp, h, Step, StepEvents(RunUpTo(cfg, fp, s.h, max - 1, stopOnTrap).count));
      }
    }
  }
  lemma AppliedStep(cfg: Config, fp: F.FpUnit, h: State)
    ensures Apply(cfg, fp, h, Step) == StepFetched(cfg, fp, h).h
  {
    hide StepFetched;
  }

  lemma ZeroLegal(cfg: Config, a: Addr)
    requires a != MSTATUS
    ensures LegalCell(cfg, a, W(0))
  {
    hide LegalMstatus;
  }

  lemma ResetValueLegal(cfg: Config, a: Addr)
    ensures LegalCell(cfg, a, ResetValue(cfg.f, a))
  {
    assert IsFree(MISA);
    hide LegalCell, LegalMstatus, Hardwired, IsFree;
    if a == MSTATUS {
      ResetStatusLegal(cfg);
      StatusLegal(cfg, W(Hardwired(cfg.f) | MSTATUS_MPP));
    } else if a == MISA {
      FreeLegal(cfg, MISA, MISA_RV32I);
    } else {
      ZeroLegal(cfg, a);
    }
  }
  lemma ResetStatusLegal(cfg: Config)
    ensures LegalMstatus(cfg, W(Hardwired(cfg.f) | MSTATUS_MPP))
  {}

  lemma InitialOk(cfg: Config)
    ensures CsrsOk(cfg, Csrs(InitialCells(cfg.f, cfg.s, cfg.u), MACHINE, cfg.f, cfg.s, cfg.u, EpcMask(cfg)))
  {
    hide InitialCells, HasCell, LegalCell, ResetValue, EpcMask;
    forall a
      ensures a in InitialCells(cfg.f, cfg.s, cfg.u) <==> HasCell(cfg.s, cfg.u, a)
      ensures a in InitialCells(cfg.f, cfg.s, cfg.u) ==> LegalCell(cfg, a, InitialCells(cfg.f, cfg.s, cfg.u)[a])
    {
      InitialCellsAt(cfg.f, cfg.s, cfg.u, a);
      ResetValueLegal(cfg, a);
    }
  }

  lemma ResetOk(cfg: Config, resv: A.Reservation, mem: Mem)
    requires Aligned(cfg, cfg.resetVector)
    ensures Ok(cfg, Reset(cfg, resv, mem))
  {
    var c := Csrs(InitialCells(cfg.f, cfg.s, cfg.u), MACHINE, cfg.f, cfg.s, cfg.u, EpcMask(cfg));
    InitialOk(cfg);
    MachineCells(cfg);
    FreeLegal(cfg, MISA, MisaValue(cfg));
    TvecExists(cfg, c);
    hide CsrsOk, HasCell, LegalCell, WriteCsr, SetCell, InitialCells, Aligned, Exists, Writable, MisaValue;
    WriteOk(cfg, c, MTVEC, cfg.mtvecReset);
    SetOk(cfg, WriteCsr(c, MTVEC, cfg.mtvecReset), MISA, MisaValue(cfg));
  }
  lemma TvecExists(cfg: Config, c: Csrs)
    requires CsrsOk(cfg, c)
    ensures Exists(c, MTVEC) && Writable(MTVEC)
  {
    MachineCells(cfg);
    hide HasCell, LegalCell;
  }

  lemma LineWithin(mip: Word, i: Interrupt, level: bool)
    requires Within(mip, MI_MASK)
    ensures Within(WithLine(mip, i, level), MI_MASK)
  {}

  lemma MipLegal(cfg: Config, v: Word)
    ensures LegalCell(cfg, MIP, v) <==> Within(v, MI_MASK)
  {
    hide LegalMstatus, Aligned, Within;
  }

  lemma LineOk(cfg: Config, h: State, i: Interrupt, level: bool)
    requires Ok(cfg, h)
    ensures Ok(cfg, SetLine(h, i, level))
  {
    hide CsrsOk, HasCell, LegalCell, Aligned, SetCell, GetCell, Within, WithLine;
    var mip := GetCell(h.csrs, MIP);
    var v := WithLine(mip, i, level);
    MachineCells(cfg);
    CellLegal(cfg, h.csrs, MIP);
    MipLegal(cfg, mip);
    LineWithin(mip, i, level);
    MipLegal(cfg, v);
    SetOk(cfg, h.csrs, MIP, v);
  }

  lemma ApplyOk(cfg: Config, fp: F.FpUnit, h: State, e: Event)
    requires Ok(cfg, h) && (cfg.s ==> cfg.u) && Aligned(cfg, cfg.resetVector)
    ensures Ok(cfg, Apply(cfg, fp, h, e))
  {
    hide Ok, StepFetched, StepInjected, SetLine, Reset, Aligned;
    match e
    case Step => StepOk(cfg, fp, h, W(0));
    case Inject(opcode) => StepOk(cfg, fp, h, opcode);
    case Line(i, level) => LineOk(cfg, h, i, level);
    case Restart => ResetOk(cfg, h.resv, h.mem);
  }

  lemma {:induction false} RunOk(cfg: Config, fp: F.FpUnit, h: State, es: seq<Event>)
    requires Ok(cfg, h) && (cfg.s ==> cfg.u) && Aligned(cfg, cfg.resetVector)
    ensures Ok(cfg, Run(cfg, fp, h, es))
  {
    hide Ok, Apply, Aligned;
    if es != [] {
      RunOk(cfg, fp, h, es[..|es| - 1]);
      ApplyOk(cfg, fp, Run(cfg, fp, h, es[..|es| - 1]), es[|es| - 1]);
    }
  }

  /** Every state reached from reset by steps, injections, line changes and resets satisfies the invariant. */
  lemma ReachableOk(cfg: Config, fp: F.FpUnit, resv: A.Reservation, mem: Mem, es: seq<Event>)
    requires (cfg.s ==> cfg.u) && Aligned(cfg, cfg.resetVector)
    ensures Ok(cfg, Run(cfg, fp, Reset(cfg, resv, mem), es))
  {
    hide Ok, Aligned, Reset, Run;
    ResetOk(cfg, resv, mem);
    RunOk(cfg, fp, Reset(cfg, resv, mem), es);
  }

  // ------------------------------------------------------------------
  // When the privilege is always an implemented mode
  // ------------------------------------------------------------------

  lemma NothingDeliverable(cfg: Config, c: Csrs)
    requires GetCell(c, MIP) == W(0)
    ensures Choose(cfg, c).None?
  {
    forall i: Interrupt ensures !Pending(c, i) {}
    forall toM ensures FirstFrom(cfg, c, toM, 0) == None {
      NoneFrom(cfg, c, toM, 0);
    }
    hide FirstFrom, Pending;
  }
  lemma {:induction false} NoneFrom(cfg: Config, c: Csrs, toM: bool, k: nat)
    requires k <= |PRIORITY| && forall i: Interrupt :: !Pending(c, i)
    ensures FirstFrom(cfg, c, toM, k) == None
    decreases |PRIORITY| - k
  {
    hide Pending;
    if k < |PRIORITY| {
      NoneFrom(cfg, c, toM, k + 1);
    }
  }

  /** With S but without U, one SRET from reset enters an unimplemented mode. */
  lemma SretEscapes(cfg: Config, fp: F.FpUnit, resv: A.Reservation, mem: Mem)
    requires cfg.s && !cfg.u
    ensures !Implemented(cfg, StepInjected(cfg, fp, Reset(cfg, resv, mem), I.SRET_WORD).h.csrs.priv)
  {
    var h := Reset(cfg, resv, mem);
    ResetCells(cfg, resv, mem);
    NothingDeliverable(cfg, h.csrs);
    hide Choose, ExecuteFetched, RunI, Blocked;
    ReturnDispatch(cfg, fp, h, I.SRET_WORD);
    MachineUnblocked(h.csrs, MSTATUS_TSR);
    RunSret(cfg, h);
    ResetSpp(cfg, GetCell(h.csrs, MSTATUS));
  }
  lemma MachineUnblocked(c: Csrs, mask: bv32)
    requires c.priv == MACHINE
    ensures !Blocked(c, mask)
  {
    hide Bit, GetCell;
  }
  lemma ResetSpp(cfg: Config, ms: Word)
    requires ms == W(Hardwired(cfg.f) | MSTATUS_MPP)
    ensures !Bit(ms, MSTATUS_SPP)
  {}

  lemma ResetCells(cfg: Config, resv: A.Reservation, mem: Mem)
    ensures var c := Reset(cfg, resv, mem).csrs;
      c.priv == MACHINE && GetCell(c, MIP) == W(0) && GetCell(c, MSTATUS) == W(Hardwired(cfg.f) | MSTATUS_MPP)
  {
    InitialCellsAt(cfg.f, cfg.s, cfg.u, MIP);
    InitialCellsAt(cfg.f, cfg.s, cfg.u, MSTATUS);
    assert HasCell(cfg.s, cfg.u, MIP) && HasCell(cfg.s, cfg.u, MSTATUS);
    hide InitialCells, HasCell, Hardwired, LegalizeTvec, MisaValue, EpcMask;
  }

  /** The privilege is an implemented mode in every reachable state exactly when S mode comes with U mode. */
  lemma PrivilegeImplementedIff(cfg: Config, fp: F.FpUnit, resv: A.Reservation, mem: Mem)
    requires Aligned(cfg, cfg.resetVector)
    ensures (cfg.s ==> cfg.u) <==>
            forall es :: Implemented(cfg, Run(cfg, fp, Reset(cfg, resv, mem), es).csrs.priv)
  {
    hide Run, Reset, Implemented, Aligned, LegalCell, HasCell;
    var h := Reset(cfg, resv, mem);
    if cfg.s ==> cfg.u {
      forall es ensures Implemented(cfg, Run(cfg, fp, h, es).csrs.priv) {
        ReachableOk(cfg, fp, resv, mem, es);
      }
    } else {
      SretEscapes(cfg, fp, resv, mem);
      OneInjection(cfg, fp, h, I.SRET_WORD);
      assert !Implemented(cfg, Run(cfg, fp, h, [Inject(I.SRET_WORD)]).csrs.priv);
    }
  }
  lemma OneInjection(cfg: Config, fp: F.FpUnit, h: State, opcode: Word)
    ensures Run(cfg, fp, h, [Inject(opcode)]) == StepInjected(cfg, fp, h, opcode).h
  {
    hide StepInjected, StepFetched;
    assert Run(cfg, fp, h, []) == h;
  }
}
