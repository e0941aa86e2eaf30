/** Which interrupt a step delivers, what delivery does, and why two deliveries never follow each other directly. */
module Interrupts {
  import opened Bits
  import opened Common
  import opened Zicsr
  import opened Hart
  import opened Invariant
  import opened Precise
  import opened Reachable
  import F = Rv32f

  // ------------------------------------------------------------------
  // Choice
  // ------------------------------------------------------------------

  /** Place in the standard order MEI, MSI, MTI, SEI, SSI, STI. */
  function Position(i: Interrupt): nat {
    match i case MEI => 0 case MSI => 1 case MTI => 2 case SEI => 3 case SSI => 4 case STI => 5
  }

  predicate ToMachine(cfg: Config, c: Csrs, i: Interrupt) { Target(cfg, c, i) == MACHINE }

  /** Interrupts for M mode come before all others; within a target the standard order decides. */
  predicate Precedes(cfg: Config, c: Csrs, i: Interrupt, j: Interrupt) {
    if ToMachine(cfg, c, i) == ToMachine(cfg, c, j) then Position(i) <= Position(j) else ToMachine(cfg, c, i)
  }

  /** i is deliverable and no deliverable interrupt comes before it. */
  ghost predicate IsFirst(cfg: Config, c: Csrs, i: Interrupt) {
    Deliverable(cfg, c, i) && forall j: Interrupt :: Deliverable(cfg, c, j) ==> Precedes(cfg, c, i, j)
  }

  lemma PriorityPosition(i: Interrupt)
    ensures PRIORITY[Position(i)] == i
  {}
  lemma PositionOf(k: nat)
    requires k < |PRIORITY|
    ensures Position(PRIORITY[k]) == k
  {}

  lemma {:induction false} FirstFromFinds(cfg: Config, c: Csrs, toM: bool, k: nat)
    requires k <= |PRIORITY|
    ensures match FirstFrom(cfg, c, toM, k)
      case Some(i) =>
        Deliverable(cfg, c, i) && ToMachine(cfg, c, i) == toM && Position(i) >= k &&
        forall j: Interrupt :: Deliverable(cfg, c, j) && ToMachine(cfg, c, j) == toM && Position(j) >= k ==> Position(i) <= Position(j)
      case None =>
        forall j: Interrupt :: Deliverable(cfg, c, j) && ToMachine(cfg, c, j) == toM ==> Position(j) < k
    decreases |PRIORITY| - k
  {
    hide Deliverable, Target;
    if k < |PRIORITY| {
      PositionOf(k);
      FirstFromFinds(cfg, c, toM, k + 1);
      forall j: Interrupt | Position(j) == k ensures j == PRIORITY[k] { PriorityPosition(j); }
      hide PRIORITY;
    } else {
      forall j: Interrupt ensures Position(j) < |PRIORITY| {}
    }
  }

  /** The two-pass scan takes the first deliverable interrupt, and one whenever there is one. */
  lemma ScanIsCorrect(cfg: Config, c: Csrs)
    ensures match Choose(cfg, c)
      case Some(i) => IsFirst(cfg, c, i)
      case None => forall j: Interrupt :: !Deliverable(cfg, c, j)
  {
    FirstFromFinds(cfg, c, true, 0);
    FirstFromFinds(cfg, c, false, 0);
    hide FirstFrom, Deliverable, ToMachine;
  }

  /** There is at most one first interrupt, so the scan's choice is determined by its specification. */
  lemma FirstIsUnique(cfg: Config, c: Csrs, i: Interrupt, j: Interrupt)
    requires IsFirst(cfg, c, i) && IsFirst(cfg, c, j)
    ensures i == j
  {
    PriorityPosition(i);
    PriorityPosition(j);
    hide Deliverable, ToMachine, PRIORITY;
  }

  // ------------------------------------------------------------------
  // Delivery
  // ------------------------------------------------------------------

  lemma TvecKept(target: Privilege)
    ensures Tvec(target) != MSTATUS && Tvec(target) != EpcOf(target) && Tvec(target) != CauseOf(target) && Tvec(target) != TvalOf(target)
  {}

  /** Delivery is a trap with the interrupt's cause and no value, to the direct or vectored handler address. */
  lemma DeliveryEffect(cfg: Config, h: State, i: Interrupt)
    requires Ok(cfg, h)
    ensures var s := Deliver(cfg, h, i);
      var target := Target(cfg, h.csrs, i);
      var tvec := GetCell(h.csrs, Tvec(target));
      TrapStep(target, h, i.Cause(), W(0), s.h) && s.r.interrupt && !s.r.trap && s.r.cause == i.Cause() &&
      s.h.pc == (if tvec.b & 3 == 1 then Add(Base(tvec), W(4 * i.Number())) else Base(tvec))
  {
    var target := Target(cfg, h.csrs, i);
    DelegationNeedsS(cfg, h.csrs, i.Cause(), true);
    TvecKept(target);
    hide CsrsOk, Aligned, TrapStep, DelegateTarget, EnterTrap, GetCell, BumpCycle, Base, Add, EpcOf, CauseOf, TvalOf;
    hide Tvec, Pushed;
    EnterTrapEffect(cfg, target, h.csrs, i.Cause(), W(0), h.pc);
    EnterTrapOk(cfg, target, h.csrs, i.Cause(), W(0), h.pc);
    var c' := EnterTrap(target, h.csrs, i.Cause(), W(0), h.pc);
    assert GetCell(c', Tvec(target)) == GetCell(h.csrs, Tvec(target));
    CycleFrame(cfg, c');
    TrapThenCycle(target, h, i.Cause(), W(0), Vectored(GetCell(c', Tvec(target)), i.Number()), c', BumpCycle(c'), h.resv);
  }

  lemma DeliveryReports(cfg: Config, h: State, i: Interrupt)
    ensures var r := Deliver(cfg, h, i).r; r.interrupt && !r.trap && r.cause == i.Cause() && r.tval == W(0)
  {
    hide TakeInterrupt, BumpCycle;
  }

  // ------------------------------------------------------------------
  // No back-to-back delivery
  // ------------------------------------------------------------------

  /** A trap leaves pending and delegation bits alone, so only privilege and the enables decide what is deliverable. */
  lemma TrapKeepsPending(cfg: Config, target: Privilege, h: State, cause: Word, tval: Word, h': State, j: Interrupt)
    requires TrapStep(target, h, cause, tval, h')
    ensures Pending(h'.csrs, j) == Pending(h.csrs, j)
    ensures Target(cfg, h'.csrs, j) == Target(cfg, h.csrs, j)
  {
    var c, c' := h.csrs, h'.csrs;
    assert MIP != EpcOf(target) && MIP != CauseOf(target) && MIP != TvalOf(target);
    assert MIE != EpcOf(target) && MIE != CauseOf(target) && MIE != TvalOf(target);
    assert MIDELEG != EpcOf(target) && MIDELEG != CauseOf(target) && MIDELEG != TvalOf(target);
    hide GetCell, EpcOf, CauseOf, TvalOf, Pushed, And, Bit;
    assert GetCell(c', MIP) == GetCell(c, MIP) && GetCell(c', MIE) == GetCell(c, MIE) && GetCell(c', MIDELEG) == GetCell(c, MIDELEG);
  }

  lemma AfterMTrap(cfg: Config, h: State, cause: Word, tval: Word, h': State, j: Interrupt)
    requires TrapStep(MACHINE, h, cause, tval, h')
    ensures !Deliverable(cfg, h'.csrs, j)
  {
    hide GetCell, Bit, Pending, DelegateTarget;
  }

  lemma AfterSTrap(cfg: Config, h: State, cause: Word, tval: Word, h': State, j: Interrupt)
    requires TrapStep(SUPERVISOR, h, cause, tval, h') && h.csrs.priv != MACHINE
    requires Deliverable(cfg, h'.csrs, j)
    ensures Deliverable(cfg, h.csrs, j) && Target(cfg, h.csrs, j) == MACHINE
  {
    TrapKeepsPending(cfg, SUPERVISOR, h, cause, tval, h', j);
    DelegationNeedsS(cfg, h.csrs, j.Cause(), true);
    hide GetCell, Bit, Pending, DelegateTarget;
  }

  lemma NothingAfterException(cfg: Config, h: State, s: Stepped)
    requires PreciseException(cfg, h, s) && Choose(cfg, h.csrs).None?
    ensures Choose(cfg, s.h.csrs).None?
  {
    var target := DelegateTarget(cfg, h.csrs, s.r.cause, false);
    DelegationNeedsS(cfg, h.csrs, s.r.cause, false);
    ScanIsCorrect(cfg, h.csrs);
    ScanIsCorrect(cfg, s.h.csrs);
    assert target == SUPERVISOR ==> h.csrs.priv != MACHINE;
    hide Choose, Deliverable, TrapStep, DelegateTarget, GetCell;
    if Choose(cfg, s.h.csrs).Some? {
      var j := Choose(cfg, s.h.csrs).value;
      if target == SUPERVISOR {
        AfterSTrap(cfg, h, s.r.cause, s.r.tval, s.h, j);
      } else {
        AfterMTrap(cfg, h, s.r.cause, s.r.tval, s.h, j);
      }
    }
  }

  lemma DeliveredBelowMachine(cfg: Config, c: Csrs, i: Interrupt)
    requires Deliverable(cfg, c, i) && Target(cfg, c, i) == SUPERVISOR
    ensures c.priv != MACHINE
  {
    hide Pending, DelegateTarget, Bit, GetCell;
  }

  lemma NothingAfterInterrupt(cfg: Config, h: State, i: Interrupt)
    requires Ok(cfg, h) && Choose(cfg, h.csrs) == Some(i)
    ensures Choose(cfg, Deliver(cfg, h, i).h.csrs).None?
  {
    hide Choose, Deliverable, TrapStep, DelegateTarget, GetCell, Deliver, Ok;
    var target := Target(cfg, h.csrs, i);
    var s := Deliver(cfg, h, i);
    DelegationNeedsS(cfg, h.csrs, i.Cause(), true);
    DeliveryEffect(cfg, h, i);
    ScanIsCorrect(cfg, h.csrs);
    ScanIsCorrect(cfg, s.h.csrs);
    if Choose(cfg, s.h.csrs).Some? {
      var j := Choose(cfg, s.h.csrs).value;
      if target == SUPERVISOR {
        DeliveredBelowMachine(cfg, h.csrs, i);
        AfterSTrap(cfg, h, i.Cause(), W(0), s.h, j);
      } else {
        AfterMTrap(cfg, h, i.Cause(), W(0), s.h, j);
      }
    }
  }

  /** After a step that takes any trap, the next step delivers no interrupt: the handler's first instruction is attempted. */
  lemma NoBackToBack(cfg: Config, fp: F.FpUnit, h: State, opcode: Word)
    requires Ok(cfg, h)
    ensures var s := StepFetched(cfg, fp, h);
      s.r.trap || s.r.interrupt ==> Choose(cfg, s.h.csrs).None? && !StepFetched(cfg, fp, s.h).r.interrupt
    ensures var s := StepInjected(cfg, fp, h, opcode);
      s.r.trap || s.r.interrupt ==> Choose(cfg, s.h.csrs).None? && !StepInjected(cfg, fp, s.h, opcode).r.interrupt
  {
    PreciseTraps(cfg, fp, h, opcode);
    InterruptMeansChosen(cfg, fp, h, opcode);
    var s, t := StepFetched(cfg, fp, h), StepInjected(cfg, fp, h, opcode);
    InterruptMeansChosen(cfg, fp, s.h, opcode);
    InterruptMeansChosen(cfg, fp, t.h, opcode);
    hide StepFetched, StepInjected, Choose, PreciseException, Deliver, Ok;
    match Choose(cfg, h.csrs)
    case Some(i) => NothingAfterInterrupt(cfg, h, i);
    case None =>
      if s.r.trap { NothingAfterException(cfg, h, s); }
      if t.r.trap { NothingAfterException(cfg, h, t); }
  }

  lemma InterruptMeansChosen(cfg: Config, fp: F.FpUnit, h: State, opcode: Word)
    ensures StepFetched(cfg, fp, h).r.interrupt == Choose(cfg, h.csrs).Some? == StepInjected(cfg, fp, h, opcode).r.interrupt
    ensures Choose(cfg, h.csrs).Some? ==>
      StepFetched(cfg, fp, h) == Deliver(cfg, h, Choose(cfg, h.csrs).value) == StepInjected(cfg, fp, h, opcode)
    ensures Choose(cfg, h.csrs).Some? ==> !StepFetched(cfg, fp, h).r.trap
  {
    hide Choose, Fetch, ExecuteFetched, TakeException, TakeInterrupt, BumpCycle, BumpInstret;
  }
}
