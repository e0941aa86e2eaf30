/** From executed words to steps: what a step reports and leaves is what the executed instruction prescribes. */
module StepMeaning {
  import opened Bits
  import opened BitNumbers
  import opened Common
  import opened Zicsr
  import opened Hart
  import opened Integers
  import opened Invariant
  import opened Precise
  import opened Interrupts
  import opened Reachable
  import opened Encoding
  import opened MemoryMeaning
  import opened BaseMeaning
  import opened AtomicMeaning
  import opened Delegation
  import opened TrapReturns
  import A = Rv32a
  import F = Rv32f
  import I = Rv32i

  ghost predicate NothingReady(cfg: Config, c: Csrs) {
    hide Ready, Code;
    forall j :: 0 <= j < 6 ==> !Ready(cfg, c, Code(j))
  }

  /** The state of a step that retires: the executed one at its next pc, with only the counters moved. */
  ghost predicate Leaves(e: Exec, h': State) {
    h'.x == e.h.x && h'.f == e.h.f && h'.mem == e.h.mem && h'.resv == e.h.resv && h'.pc == e.nextPc && h'.csrs.priv == e.h.csrs.priv &&
    forall a :: a !in {0xB00, 0xB02, 0xB80, 0xB82} ==> GetCell(h'.csrs, a) == GetCell(e.h.csrs, a)
  }

  /** The step executes w: it reports w, traps exactly when executing w raises an exception, and otherwise leaves its effect. */
  ghost predicate Performs(cfg: Config, fp: F.FpUnit, h: State, w: Word, s: Stepped) {
    hide ExecuteFetched, Leaves;
    var e := ExecuteFetched(cfg, fp, h, w);
    s.r.instruction == w && !s.r.interrupt && s.r.trap == e.trap.Some? && s.r.nextPc == s.h.pc &&
    if e.trap.Some? then s.r.cause == e.trap.value.cause && s.r.tval == e.trap.value.tval else Leaves(e, s.h) && s.r.taken == e.taken
  }

  lemma FinishPerforms(cfg: Config, e: Exec, r: StepResult)
    requires !r.trap && !r.interrupt
    ensures var s := Finish(cfg, e, r);
      s.r.instruction == r.instruction && !s.r.interrupt && s.r.trap == e.trap.Some? && s.r.nextPc == s.h.pc &&
      if e.trap.Some? then s.r.cause == e.trap.value.cause && s.r.tval == e.trap.value.tval else Leaves(e, s.h) && s.r.taken == e.taken
  {
    hide CsrsOk, TakeException, BumpCycle, BumpInstret, GetCell;
    BumpsMove(e.h.csrs);
  }
  lemma InstructionPerforms(cfg: Config, fp: F.FpUnit, h: State, w: Word)
    ensures Performs(cfg, fp, h, w, StepInstruction(cfg, fp, h, w))
  {
    hide ExecuteFetched, Leaves, CsrsOk, Aligned, Finish, Is32Bit;
    FinishPerforms(cfg, ExecuteFetched(cfg, fp, h, w), ExecutingResult(h, w));
  }

  /** With no interrupt ready, a step given w executes w, and so does a step that fetches w. */
  lemma StepPerforms(cfg: Config, fp: F.FpUnit, h: State, w: Word)
    requires NothingReady(cfg, h.csrs)
    ensures Performs(cfg, fp, h, w, StepInjected(cfg, fp, h, w))
    ensures Fetch(h.mem, h.pc) == Instruction(w) ==> Performs(cfg, fp, h, w, StepFetched(cfg, fp, h))
  {
    hide Choose, Fetch, Deliver, StepInstruction, Ok, Performs, Deliverable, IsFirst;
    InstructionPerforms(cfg, fp, h, w);
    ScanIsCorrect(cfg, h.csrs);
    if Choose(cfg, h.csrs).Some? {
      FirstIsReady(cfg, h.csrs, Choose(cfg, h.csrs).value);
    }
  }
  lemma FirstIsReady(cfg: Config, c: Csrs, i: Interrupt)
    requires IsFirst(cfg, c, i)
    ensures !NothingReady(cfg, c)
  {
    ChosenIsNext(cfg, c, i);
    hide IsFirst, IsNext, Ready, Code, Position;
  }

  /** With no interrupt ready, a step whose fetch fails raises an instruction access fault at the address that failed. */
  lemma FaultPerforms(cfg: Config, fp: F.FpUnit, h: State, addr: Word)
    requires NothingReady(cfg, h.csrs) && Fetch(h.mem, h.pc) == FetchFault(addr)
    ensures var r := StepFetched(cfg, fp, h).r; r.trap && !r.interrupt && r.cause == W(1) && r.tval == addr
  {
    hide Choose, Fetch, Deliver, Deliverable, IsFirst, NothingReady, TakeException, BumpCycle;
    ScanIsCorrect(cfg, h.csrs);
    if Choose(cfg, h.csrs).Some? {
      FirstIsReady(cfg, h.csrs, Choose(cfg, h.csrs).value);
    }
  }

  /** A branch, as a step: it moves the pc and nothing else but the counters, or traps on a misaligned target. */
  ghost predicate Branches(cfg: Config, h: State, taken: bool, target: Word, s: Stepped) {
    hide NthBit;
    if taken && !cfg.c && NthBit(target.b, 1) then s.r.trap && s.r.cause == W(0) && s.r.tval == target
    else !s.r.trap && Leaves(Exec(h, if taken then target else Add(h.pc, W(4)), taken, None), s.h)
  }
  lemma BranchPerforms(cfg: Config, fp: F.FpUnit, h: State, op: I.InstrType, rs1: bv5, rs2: bv5, offset: bv13, s: Stepped)
    requires I.IsBranch(op) && Performs(cfg, fp, h, BranchWord(offset, rs2, rs1, Funct3Of(op)), s)
    ensures Branches(cfg, h, Compares(op, GetReg(h.x, Reg(rs1)), GetReg(h.x, Reg(rs2))), Add(h.pc, Sext13(offset)), s)
  {
    hide ExecuteFetched, BranchWord, Funct3Of, Compares, GetReg, Reg, Add, Sext13, NthBit, Leaves;
    BranchStep(cfg, fp, h, op, rs1, rs2, offset);
  }

  /** An AMO that retires, as a step. */
  ghost predicate AmoRetired(h: State, op: A.InstrType, rd: bv5, addr: Word, src: Word, h': State) {
    hide Little, Wrote, AmoResult, Fits;
    Fits(h.mem, addr, 4) && Value(addr) % 4 == 0 && h'.f == h.f && h'.resv == h.resv && h'.pc == Add(h.pc, W(4)) &&
    exists old_, v :: Value(old_) == Little(At(h.mem, addr, 4)) && AmoResult(op, old_, src, v) && Wrote(h.mem, addr, 4, v, h'.mem) &&
                      h'.x == SetReg(h.x, Reg(rd), old_)
  }
  lemma AmoPerforms(cfg: Config, fp: F.FpUnit, h: State, op: A.InstrType, aqrl: bv2, rd: bv5, rs1: bv5, rs2: bv5, s: Stepped)
    requires cfg.a && IsAmo(op) && Performs(cfg, fp, h, AtomicWord(op, aqrl, rd, rs1, rs2), s) && !s.r.trap
    ensures AmoRetired(h, op, rd, GetReg(h.x, Reg(rs1)), GetReg(h.x, Reg(rs2)), s.h)
  {
    hide ExecuteFetched, AtomicWord, GetReg, SetReg, Reg, Add, Little, Wrote, AmoResult, Fits, ValueOf;
    AmoStep(cfg, fp, h, op, aqrl, rd, rs1, rs2);
  }
}
