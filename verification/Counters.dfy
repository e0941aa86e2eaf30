/** The 64-bit counters over whole runs. */
module Counters {
  import opened Bits
  import opened Common
  import opened Zicsr
  import opened Hart
  import opened Invariant
  import opened Precise
  import opened Interrupts
  import opened Reachable
  import A = Rv32a
  import C = Rv32c
  import F = Rv32f
  import FC = Rv32fc
  import I = Rv32i
  import M = Rv32m
  import Zbb

  // ------------------------------------------------------------------
  // Counting in halves
  // ------------------------------------------------------------------

  const WRAP: int := 0x1_0000_0000_0000_0000

  /** The number held by a pair of counter CSRs. */
  function Count(c: Csrs, lo: Addr, hi: Addr): nat {
    Value(GetCell(c, hi)) * 0x1_0000_0000 + Value(GetCell(c, lo))
  }

  function Pair(hi: bv32, lo: bv32): bv64 { ((hi as bv64) << 32) | (lo as bv64) }

  lemma LowHalf(hi: bv32, lo: bv32) ensures Low32(Pair(hi, lo) + 1).b == Next(lo) {}
  lemma HighHalfKept(hi: bv32, lo: bv32) requires Next(lo) != 0 ensures High32(Pair(hi, lo) + 1).b == hi {}
  lemma HighHalfCarries(hi: bv32, lo: bv32) requires Next(lo) == 0 ensures High32(Pair(hi, lo) + 1).b == Next(hi) {}

  lemma Zero(b: bv32) requires b == 0 ensures ValueOf(b) == 0 {}

  lemma HalvesAdd(hi: bv32, lo: bv32)
    ensures ValueOf(High32(Pair(hi, lo) + 1).b) * 0x1_0000_0000 + ValueOf(Low32(Pair(hi, lo) + 1).b)
         == (ValueOf(hi) * 0x1_0000_0000 + ValueOf(lo) + 1) % WRAP
  {
    assert WRAP == 0x1_0000_0000_0000_0000;
    hide *;
    LowHalf(hi, lo);
    ValueBoundOf(hi);
    ValueBoundOf(lo);
    if Next(lo) != 0 {
      HighHalfKept(hi, lo);
      ValueOfNext(lo);
      ValueBoundOf(Next(lo));
    } else {
      HighHalfCarries(hi, lo);
      WrapValue(lo);
      Zero(Next(lo));
      if Next(hi) != 0 {
        ValueOfNext(hi);
        ValueBoundOf(Next(hi));
      } else {
        WrapValue(hi);
        Zero(Next(hi));
      }
    }
  }

  lemma BumpWrites(c: Csrs, lo: Addr, hi: Addr)
    requires lo != hi && lo in c.cells && hi in c.cells
    ensures var v := Pair(GetCell(c, hi).b, GetCell(c, lo).b) + 1;
      GetCell(Bump(c, lo, hi), lo) == Low32(v) && GetCell(Bump(c, lo, hi), hi) == High32(v)
  {
    var v := Pair(GetCell(c, hi).b, GetCell(c, lo).b) + 1;
    hide GetCell, SetCell, Low32, High32, Updated;
    var c1 := SetCell(c, lo, Low32(v));
    SetUpdates(c, lo, Low32(v));
    StillThere(c, lo, Low32(v), hi);
    SetUpdates(c1, hi, High32(v));
    hide Pair;
    Lookups(c, lo, Low32(v), c1, hi, High32(v), SetCell(c1, hi, High32(v)));
  }
  lemma StillThere(c: Csrs, k: Addr, v: Word, a: Addr) requires a in c.cells ensures a in SetCell(c, k, v).cells {}
  lemma Lookups(c: Csrs, lo: Addr, v: Word, c1: Csrs, hi: Addr, w: Word, c2: Csrs)
    requires lo != hi && Updated(c, lo, v, c1) && Updated(c1, hi, w, c2)
    ensures GetCell(c2, lo) == v && GetCell(c2, hi) == w
  {
    hide GetCell;
  }

  /** One increment of the pair adds one modulo 2^64, carrying between the halves. */
  lemma BumpCounts(c: Csrs, lo: Addr, hi: Addr)
    requires lo != hi && lo in c.cells && hi in c.cells
    ensures Count(Bump(c, lo, hi), lo, hi) == (Count(c, lo, hi) + 1) % WRAP
  {
    hide Pair, Low32, High32, ValueOf, Bump, GetCell;
    BumpWrites(c, lo, hi);
    HalvesAdd(GetCell(c, hi).b, GetCell(c, lo).b);
  }

  // ------------------------------------------------------------------
  // Which steps write a counter
  // ------------------------------------------------------------------

  /** A CSR instruction that would write one of the machine counters. */
  predicate WritesCounter(cfg: Config, i: Word) {
    cfg.zicsr && IsCsrInstruction(i) && IsCounterCell(CsrField(i)) && WillWrite(Decode(i))
  }

  /** The counters of c' are those of c. */
  predicate SameCounters(c: Csrs, c': Csrs) {
    GetCell(c', MCYCLE) == GetCell(c, MCYCLE) && GetCell(c', MCYCLEH) == GetCell(c, MCYCLEH) &&
    GetCell(c', MINSTRET) == GetCell(c, MINSTRET) && GetCell(c', MINSTRETH) == GetCell(c, MINSTRETH)
  }

  lemma SetKeepsCounters(c: Csrs, k: Addr, v: Word)
    requires !IsCounterCell(k)
    ensures SameCounters(c, SetCell(c, k, v))
  {}

  lemma EffectNotCounter(c: Csrs, a: Addr, v: Word)
    requires !IsCounterCell(a)
    ensures Legalize(c, a, v).Cell? ==> !IsCounterCell(Legalize(c, a, v).a)
  {
    hide GetCell, Merge, LegalizeMstatus, WriteSstatus, LegalizeTvec, LegalizeSatp, WriteSie, And, MipWritable;
  }

  lemma CsrWriteKeepsCounters(c: Csrs, a: Addr, v: Word)
    requires !IsCounterCell(a)
    ensures SameCounters(c, WriteCsr(c, a, v))
  {
    EffectNotCounter(c, a, v);
    hide Legalize, SetCell, IsCounterCell, GetCell;
    if Legalize(c, a, v).Cell? {
      SetKeepsCounters(c, Legalize(c, a, v).a, Legalize(c, a, v).v);
    }
  }

  lemma RunCsrKeeps(cfg: Config, h: State, i: Word)
    requires cfg.zicsr && IsCsrInstruction(i) && !WritesCounter(cfg, i)
    ensures SameCounters(h.csrs, RunCsr(cfg, h, i).h.csrs)
  {
    var d := Decode(i);
    assert d.csr == CsrField(i);
    hide Decode, Permitted, SatpBlocked, ReadCsr, WriteCsr, IsCounterCell, CsrField, WillWrite, GetCell, SetReg, IsCsrInstruction;
    hide SameCounters, NewValue, Source, WillRead, Add;
    SameAsSelf(h.csrs);
    if !IsCounterCell(d.csr) {
      var value := if WillRead(d) then ReadCsr(h.csrs, d.csr) else W(0);
      CsrWriteKeepsCounters(h.csrs, d.csr, NewValue(d.op, value, Source(d, h.x)));
    }
  }

  lemma StatusSetsKeep(c: Csrs)
    ensures SameCounters(c, Mret(c)) && SameCounters(c, Sret(c))
  {
    hide MretStatus, SretStatus, Bit, MppPrivilege;
  }

  lemma RunFKeeps(cfg: Config, fp: F.FpUnit, h: State, i: Word)
    ensures SameCounters(h.csrs, RunF(cfg, fp, h, i).h.csrs)
  {
    hide F.Execute, F.Decode, F.FcsrView, SetCell, SameCounters;
    SetKeepsCounters(h.csrs, FCSR, F.FcsrView(F.Execute(fp, cfg.allowMisaligned, F.Decode(i), h.x, h.f, h.mem, F.FcsrView(GetCell(h.csrs, FCSR))).fcsr));
  }

  lemma RunIKeeps(cfg: Config, h: State, i: Word)
    ensures SameCounters(h.csrs, RunI(cfg, h, i).h.csrs)
  {
    StatusSetsKeep(h.csrs);
    hide I.Execute, I.Decode, Mret, Sret, Blocked, GetCell;
  }

  lemma OthersKeep(cfg: Config, h: State, i: Word)
    ensures RunM(h, i).h.csrs == RunA(h, i).h.csrs == RunZbb(h, i).h.csrs == h.csrs
    ensures RunZba(h, i).h.csrs == RunZbs(h, i).h.csrs == RunZicond(h, i).h.csrs == h.csrs
    ensures ExecuteCompressed(cfg, h, i).h.csrs == h.csrs
  {
    hide M.Execute, M.Decode, A.Execute, A.Decode, Zbb.Execute, Zbb.Decode, SetReg;
    hide C.Execute, C.Decode, FC.Execute, FC.Decode, FC.IsCompressedFloat;
  }

  lemma SameAsSelf(c: Csrs) ensures SameCounters(c, c) {}

  lemma Execute32Keeps(cfg: Config, fp: F.FpUnit, h: State, i: Word)
    requires !WritesCounter(cfg, i)
    ensures SameCounters(h.csrs, Execute32(cfg, fp, h, i).h.csrs)
  {
    hide SameCounters, WritesCounter, IsCsrInstruction;
    hide RunCsr, RunM, RunA, RunF, RunZba, RunZbb, RunZbs, RunZicond, RunI;
    SameAsSelf(h.csrs);
    OthersKeep(cfg, h, i);
    RunFKeeps(cfg, fp, h, i);
    RunIKeeps(cfg, h, i);
    if cfg.zicsr && IsCsrInstruction(i) { RunCsrKeeps(cfg, h, i); }
  }

  lemma ExecuteKeeps(cfg: Config, fp: F.FpUnit, h: State, i: Word)
    requires !WritesCounter(cfg, i)
    ensures SameCounters(h.csrs, ExecuteFetched(cfg, fp, h, i).h.csrs)
  {
    hide SameCounters, WritesCounter, Execute32, ExecuteCompressed, Is32Bit, Parcel;
    SameAsSelf(h.csrs);
    OthersKeep(cfg, h, Parcel(i));
    Execute32Keeps(cfg, fp, h, i);
  }

  // ------------------------------------------------------------------
  // Steps and runs
  // ------------------------------------------------------------------

  function Cycles(h: State): nat { Count(h.csrs, MCYCLE, MCYCLEH) }
  function Instret(h: State): nat { Count(h.csrs, MINSTRET, MINSTRETH) }

  predicate Retires(r: StepResult) { !r.trap && !r.interrupt }

  /** The step counts itself: once in mcycle, and in minstret exactly when it retires. */
  predicate Counts(h: State, s: Stepped) {
    Cycles(s.h) == (Cycles(h) + 1) % WRAP &&
    Instret(s.h) == if Retires(s.r) then (Instret(h) + 1) % WRAP else Instret(h)
  }

  lemma SameCounts(c: Csrs, c': Csrs)
    requires SameCounters(c, c')
    ensures Count(c', MCYCLE, MCYCLEH) == Count(c, MCYCLE, MCYCLEH) && Count(c', MINSTRET, MINSTRETH) == Count(c, MINSTRET, MINSTRETH)
  {
    hide GetCell;
  }

  lemma OtherCounts(c: Csrs, c': Csrs, lo: Addr, hi: Addr, l: Addr, u: Addr)
    requires SameBut(c, lo, hi, c') && l != lo && l != hi && u != lo && u != hi
    ensures Count(c', l, u) == Count(c, l, u)
  {
    hide GetCell;
  }

  lemma BumpCycleCounts(cfg: Config, c: Csrs)
    requires CsrsOk(cfg, c)
    ensures Count(BumpCycle(c), MCYCLE, MCYCLEH) == (Count(c, MCYCLE, MCYCLEH) + 1) % WRAP
    ensures Count(BumpCycle(c), MINSTRET, MINSTRETH) == Count(c, MINSTRET, MINSTRETH)
  {
    CounterCells(cfg);
    assert MCYCLE in c.cells && MCYCLEH in c.cells;
    hide CsrsOk, HasCell, Count, Bump, SameBut;
    BumpCounts(c, MCYCLE, MCYCLEH);
    CycleFrame(cfg, c);
    OtherCounts(c, BumpCycle(c), MCYCLE, MCYCLEH, MINSTRET, MINSTRETH);
  }

  lemma BumpInstretCounts(cfg: Config, c: Csrs)
    requires CsrsOk(cfg, c)
    ensures Count(BumpInstret(c), MINSTRET, MINSTRETH) == (Count(c, MINSTRET, MINSTRETH) + 1) % WRAP
    ensures Count(BumpInstret(c), MCYCLE, MCYCLEH) == Count(c, MCYCLE, MCYCLEH)
  {
    CounterCells(cfg);
    assert MINSTRET in c.cells && MINSTRETH in c.cells;
    hide CsrsOk, HasCell, Count, Bump, SameBut;
    BumpCounts(c, MINSTRET, MINSTRETH);
    BumpFrame(c, MINSTRET, MINSTRETH);
    OtherCounts(c, BumpInstret(c), MINSTRET, MINSTRETH, MCYCLE, MCYCLEH);
  }

  lemma RetiredCounts(cfg: Config, fp: F.FpUnit, h: State, i: Word)
    requires Ok(cfg, h) && (cfg.s ==> cfg.u)
    requires !WritesCounter(cfg, i) && ExecuteFetched(cfg, fp, h, i).trap.None?
    ensures Counts(h, StepInstruction(cfg, fp, h, i))
  {
    hide CsrsOk, Aligned, ExecuteFetched, Count, BumpCycle, BumpInstret, WritesCounter, SameCounters, TakeException;
    var e := ExecuteFetched(cfg, fp, h, i);
    ExecuteKeeps(cfg, fp, h, i);
    ExecuteOk(cfg, fp, h, i);
    SameCounts(h.csrs, e.h.csrs);
    BumpCycleCounts(cfg, e.h.csrs);
    BumpsOk(cfg, e.h.csrs);
    BumpInstretCounts(cfg, BumpCycle(e.h.csrs));
  }

  lemma TrapCounts(cfg: Config, target: Privilege, h: State, cause: Word, tval: Word, handler: Word)
    requires Ok(cfg, h) && (target == MACHINE || (target == SUPERVISOR && cfg.s))
    ensures var c := BumpCycle(EnterTrap(target, h.csrs, cause, tval, h.pc));
      Count(c, MCYCLE, MCYCLEH) == (Cycles(h) + 1) % WRAP && Count(c, MINSTRET, MINSTRETH) == Instret(h)
  {
    var c' := EnterTrap(target, h.csrs, cause, tval, h.pc);
    hide CsrsOk, Aligned, EnterTrap, BumpCycle, Count, TrapEntered;
    EnterTrapEffect(cfg, target, h.csrs, cause, tval, h.pc);
    EnterTrapOk(cfg, target, h.csrs, cause, tval, h.pc);
    TrapKeepsCounters(target, h.csrs, cause, tval, h.pc, c');
    SameCounts(h.csrs, c');
    BumpCycleCounts(cfg, c');
  }
  lemma TrapKeepsCounters(target: Privilege, c: Csrs, cause: Word, tval: Word, pc: Word, c': Csrs)
    requires TrapEntered(target, c, cause, tval, pc, c')
    ensures SameCounters(c, c')
  {
    hide GetCell, Pushed;
  }

  lemma TrappedCounts(cfg: Config, h: State, e: Exec, r: StepResult)
    requires Ok(cfg, h) && e.h == h && e.trap.Some?
    ensures Counts(h, Finish(cfg, e, r))
  {
    hide Ok, EnterTrap, BumpCycle, Count, DelegateTarget, GetCell, Base;
    var t := e.trap.value;
    DelegationNeedsS(cfg, h.csrs, t.cause, false);
    TrapCounts(cfg, DelegateTarget(cfg, h.csrs, t.cause, false), h, t.cause, t.tval, W(0));
  }

  lemma DeliveryCounts(cfg: Config, h: State, i: Interrupt)
    requires Ok(cfg, h)
    ensures Counts(h, Deliver(cfg, h, i))
  {
    hide Ok, EnterTrap, BumpCycle, Count, DelegateTarget, GetCell, Vectored;
    DelegationNeedsS(cfg, h.csrs, i.Cause(), true);
    TrapCounts(cfg, Target(cfg, h.csrs, i), h, i.Cause(), W(0), W(0));
  }

  lemma InstructionCounts(cfg: Config, fp: F.FpUnit, h: State, i: Word)
    requires Ok(cfg, h) && (cfg.s ==> cfg.u)
    requires Retires(StepInstruction(cfg, fp, h, i).r) ==> !WritesCounter(cfg, i)
    ensures Counts(h, StepInstruction(cfg, fp, h, i))
  {
    hide CsrsOk, Aligned, ExecuteFetched, Counts, WritesCounter, TakeException, BumpCycle, BumpInstret;
    ExecutePrecise(cfg, fp, h, i);
    var e := ExecuteFetched(cfg, fp, h, i);
    if e.trap.Some? {
      TrappedCounts(cfg, h, e, ExecutingResult(h, i));
    } else {
      RetiredCounts(cfg, fp, h, i);
    }
  }

  lemma StepCounts(cfg: Config, fp: F.FpUnit, h: State, e: Event)
    requires Ok(cfg, h) && (cfg.s ==> cfg.u) && IsStep(e)
    requires Retires(Take(cfg, fp, h, e).r) ==> !WritesCounter(cfg, Take(cfg, fp, h, e).r.instruction)
    ensures Counts(h, Take(cfg, fp, h, e))
  {
    hide Ok, Choose, Fetch, Deliver, Counts, WritesCounter, ExecuteFetched, TakeException, BumpCycle, BumpInstret;
    match Choose(cfg, h.csrs)
    case Some(i) => DeliveryCounts(cfg, h, i);
    case None =>
      if e.Inject? {
        InstructionCounts(cfg, fp, h, e.opcode);
      } else {
        match Fetch(h.mem, h.pc)
        case Instruction(i) => InstructionCounts(cfg, fp, h, i);
        case FetchFault(addr) => TrappedCounts(cfg, h, FetchTrap(h, addr), StartResult(h.pc));
      }
  }

  /** e is not a reset, and if it retires an instruction, that one writes no counter. */
  predicate LeavesCounters(cfg: Config, fp: F.FpUnit, h: State, e: Event) {
    hide Take, WritesCounter;
    !e.Restart? && (IsStep(e) ==> (Retires(Take(cfg, fp, h, e).r) ==> !WritesCounter(cfg, Take(cfg, fp, h, e).r.instruction)))
  }

  /** Every event of the run leaves the counters to the hardware. */
  predicate Quiet(cfg: Config, fp: F.FpUnit, h: State, es: seq<Event>) {
    hide LeavesCounters, Run;
    es == [] || (Quiet(cfg, fp, h, es[..|es| - 1]) && LeavesCounters(cfg, fp, Run(cfg, fp, h, es[..|es| - 1]), es[|es| - 1]))
  }

  /** Steps in a run, as counted by run(). */
  function Steps(es: seq<Event>): nat {
    if es == [] then 0 else Steps(es[..|es| - 1]) + (if IsStep(es[|es| - 1]) then 1 else 0)
  }

  /** Steps in a run that neither trapped nor took an interrupt. */
  function Retired(cfg: Config, fp: F.FpUnit, h: State, es: seq<Event>): nat {
    hide Run, Take;
    if es == [] then 0
    else
      var e := es[|es| - 1];
      Retired(cfg, fp, h, es[..|es| - 1]) +
      (if IsStep(e) && Retires(Take(cfg, fp, Run(cfg, fp, h, es[..|es| - 1]), e).r) then 1 else 0)
  }

  lemma EventCounts(cfg: Config, fp: F.FpUnit, h: State, e: Event)
    requires Ok(cfg, h) && (cfg.s ==> cfg.u) && LeavesCounters(cfg, fp, h, e)
    ensures Cycles(Apply(cfg, fp, h, e)) == (Cycles(h) + if IsStep(e) then 1 else 0) % WRAP
    ensures Instret(Apply(cfg, fp, h, e)) == (Instret(h) + if IsStep(e) && Retires(Take(cfg, fp, h, e).r) then 1 else 0) % WRAP
  {
    hide Ok, StepFetched, StepInjected, WritesCounter, Count, SetCell;
    CountBound(h.csrs, MCYCLE, MCYCLEH);
    CountBound(h.csrs, MINSTRET, MINSTRETH);
    if IsStep(e) {
      StepCounts(cfg, fp, h, e);
    } else {
      LineKeepsCounters(h, e.i, e.level);
      SameCounts(h.csrs, SetLine(h, e.i, e.level).csrs);
    }
  }
  lemma LineKeepsCounters(h: State, i: Interrupt, level: bool)
    ensures SameCounters(h.csrs, SetLine(h, i, level).csrs)
  {
    MipIsNoCounter();
    hide SameCounters, SetCell, GetCell, IsCounterCell, WithLine;
    SetKeepsCounters(h.csrs, MIP, WithLine(GetCell(h.csrs, MIP), i, level));
  }
  lemma MipIsNoCounter() ensures !IsCounterCell(MIP) {}
  lemma CountBound(c: Csrs, lo: Addr, hi: Addr)
    ensures Count(c, lo, hi) < WRAP
  {
    ValueBound(GetCell(c, lo));
    ValueBound(GetCell(c, hi));
    hide GetCell, Value;
  }

  /** The events of a run one at a time, the last one split off. */
  lemma LastEvent(cfg: Config, fp: F.FpUnit, h: State, es: seq<Event>)
    requires es != []
    ensures var before, e := es[..|es| - 1], es[|es| - 1];
      var h' := Run(cfg, fp, h, before);
      Run(cfg, fp, h, es) == Apply(cfg, fp, h', e) &&
      Steps(es) == Steps(before) + (if IsStep(e) then 1 else 0) &&
      Retired(cfg, fp, h, es) == Retired(cfg, fp, h, before) + (if IsStep(e) && Retires(Take(cfg, fp, h', e).r) then 1 else 0) &&
      (Quiet(cfg, fp, h, es) ==> Quiet(cfg, fp, h, before) && LeavesCounters(cfg, fp, h', e))
  {
    hide Apply, Take, LeavesCounters;
  }

  lemma AddWrapped(a: nat, b: nat, c: nat)
    ensures ((a + b) % WRAP + c) % WRAP == (a + (b + c)) % WRAP
  {}

  /** mcycle advances by the number of steps and minstret by the number of retired ones, modulo 2^64. */
  lemma {:induction false} CounterConservation(cfg: Config, fp: F.FpUnit, h: State, es: seq<Event>)
    requires Ok(cfg, h) && (cfg.s ==> cfg.u) && Aligned(cfg, cfg.resetVector)
    requires Quiet(cfg, fp, h, es)
    ensures Cycles(Run(cfg, fp, h, es)) == (Cycles(h) + Steps(es)) % WRAP
    ensures Instret(Run(cfg, fp, h, es)) == (Instret(h) + Retired(cfg, fp, h, es)) % WRAP
  {
    hide Ok, Apply, Take, LeavesCounters, Count, Aligned;
    if es == [] {
      CountBound(h.csrs, MCYCLE, MCYCLEH);
      CountBound(h.csrs, MINSTRET, MINSTRETH);
    } else {
      hide Run, Steps, Retired, Quiet, Cycles, Instret, Retires, IsStep;
      var before, e := es[..|es| - 1], es[|es| - 1];
      var h' := Run(cfg, fp, h, before);
      LastEvent(cfg, fp, h, es);
      CounterConservation(cfg, fp, h, before);
      RunOk(cfg, fp, h, before);
      EventCounts(cfg, fp, h', e);
      AddWrapped(Cycles(h), Steps(before), if IsStep(e) then 1 else 0);
      AddWrapped(Instret(h), Retired(cfg, fp, h, before), if IsStep(e) && Retires(Take(cfg, fp, h', e).r) then 1 else 0);
    }
  }

  // ------------------------------------------------------------------
  // What run() returns
  // ------------------------------------------------------------------

  lemma {:induction false} StepsOnly(n: nat)
    ensures Steps(StepEvents(n)) == n
  {
    if n > 0 {
      StepsOnly(n - 1);
      assert StepEvents(n)[..|StepEvents(n)| - 1] == StepEvents(n - 1);
    }
  }

  /** mcycle advances by exactly the count that run() returns, however it ends. */
  lemma RunReturnsCycles(cfg: Config, fp: F.FpUnit, h: State, max: nat, stopOnTrap: bool)
    requires Ok(cfg, h) && (cfg.s ==> cfg.u) && Aligned(cfg, cfg.resetVector)
    requires Quiet(cfg, fp, h, StepEvents(RunUpTo(cfg, fp, h, max, stopOnTrap).count))
    ensures var ran := RunUpTo(cfg, fp, h, max, stopOnTrap);
      Cycles(ran.h) == (Cycles(h) + ran.count) % WRAP &&
      Instret(ran.h) == (Instret(h) + Retired(cfg, fp, h, StepEvents(ran.count))) % WRAP
  {
    hide Ok, Aligned, Quiet, Run, Cycles, Instret, Retired, Steps, RunUpTo, StepEvents;
    var ran := RunUpTo(cfg, fp, h, max, stopOnTrap);
    RunUpToIsRun(cfg, fp, h, max, stopOnTrap);
    StepsOnly(ran.count);
    CounterConservation(cfg, fp, h, StepEvents(ran.count));
  }
}
