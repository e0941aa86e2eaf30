/** Trap and return nest: a return instruction restores what the matching trap saved. */
module Nesting {
  import opened Bits
  import opened Common
  import opened Zicsr
  import opened Hart
  import opened Invariant
  import opened Precise
  import opened Interrupts
  import opened Reachable
  import opened Privileges
  import opened Returns
  import opened Dispatch
  import F = Rv32f
  import I = Rv32i

  // ------------------------------------------------------------------
  // What a frame saves
  // ------------------------------------------------------------------

  /** Where a trap to M saves the interrupted context. */
  datatype MSaved = MSaved(mpie: bool, mpp: bv32, mepc: Word)

  /** Where a trap to S saves it. */
  datatype SSaved = SSaved(spie: bool, spp: bool, sepc: Word)

  /** The supervisor trap state that a trap handled in M mode must not disturb. */
  datatype SState = SState(sie: bool, saved: SSaved, scause: Word, stval: Word)

  function Mpp(ms: Word): bv32 { (ms.b >> 11) & 3 }

  function MSavedOf(c: Csrs): MSaved {
    var ms := GetCell(c, MSTATUS);
    MSaved(Bit(ms, MSTATUS_MPIE), Mpp(ms), GetCell(c, MEPC))
  }
  function SSavedOf(c: Csrs): SSaved {
    var ms := GetCell(c, MSTATUS);
    SSaved(Bit(ms, MSTATUS_SPIE), Bit(ms, MSTATUS_SPP), GetCell(c, SEPC))
  }
  function SStateOf(c: Csrs): SState {
    SState(Bit(GetCell(c, MSTATUS), MSTATUS_SIE), SSavedOf(c), GetCell(c, SCAUSE), GetCell(c, STVAL))
  }

  function MieOf(c: Csrs): bool { Bit(GetCell(c, MSTATUS), MSTATUS_MIE) }
  function SieOf(c: Csrs): bool { Bit(GetCell(c, MSTATUS), MSTATUS_SIE) }

  // ------------------------------------------------------------------
  // Entering
  // ------------------------------------------------------------------

  predicate Trapped(r: StepResult) { r.trap || r.interrupt }

  /** A step that traps does exactly what TrapStep says, towards the mode it ends in. */
  lemma TrappedStep(cfg: Config, fp: F.FpUnit, h: State, e: Event)
    requires Ok(cfg, h) && IsStep(e) && Trapped(Take(cfg, fp, h, e).r)
    ensures var s := Take(cfg, fp, h, e); TrapStep(s.h.csrs.priv, h, s.r.cause, s.r.tval, s.h)
    ensures Take(cfg, fp, h, e).h.csrs.priv == SUPERVISOR ==> h.csrs.priv != MACHINE
  {
    var opcode := if e.Inject? then e.opcode else W(0);
    PreciseTraps(cfg, fp, h, opcode);
    InterruptMeansChosen(cfg, fp, h, opcode);
    hide StepFetched, StepInjected, Choose, TrapStep, Deliver, Ok, GetCell, DelegateTarget, Deliverable;
    var s := Take(cfg, fp, h, e);
    if s.r.trap {
      ExceptionTarget(cfg, h, s);
    } else {
      var i := Choose(cfg, h.csrs).value;
      ScanIsCorrect(cfg, h.csrs);
      InterruptTarget(cfg, h, i);
    }
  }
  lemma ExceptionTarget(cfg: Config, h: State, s: Stepped)
    requires PreciseException(cfg, h, s)
    ensures TrapStep(s.h.csrs.priv, h, s.r.cause, s.r.tval, s.h) && (s.h.csrs.priv == SUPERVISOR ==> h.csrs.priv != MACHINE)
  {
    hide GetCell, Pushed, Bit, Base, Tvec, EpcOf, CauseOf, TvalOf;
  }
  lemma InterruptTarget(cfg: Config, h: State, i: Interrupt)
    requires Ok(cfg, h) && Deliverable(cfg, h.csrs, i)
    ensures var s := Deliver(cfg, h, i);
      TrapStep(s.h.csrs.priv, h, s.r.cause, s.r.tval, s.h) && (s.h.csrs.priv == SUPERVISOR ==> h.csrs.priv != MACHINE)
  {
    DeliveryEffect(cfg, h, i);
    DeliveryReports(cfg, h, i);
    if Target(cfg, h.csrs, i) == SUPERVISOR { DeliveredBelowMachine(cfg, h.csrs, i); }
    hide GetCell, Pushed, Bit, Base, Tvec, EpcOf, CauseOf, TvalOf, Deliver, Deliverable, Ok, DelegateTarget;
  }
  lemma PushedMSaves(ms: Word, p: Privilege, ms': Word)
    requires PushedM(ms, p, ms')
    ensures Bit(ms', MSTATUS_MPIE) == Bit(ms, MSTATUS_MIE) && Mpp(ms') == RankBits(p)
  {}
  lemma PushedMKeepsS(ms: Word, p: Privilege, ms': Word)
    requires PushedM(ms, p, ms')
    ensures Bit(ms', MSTATUS_SIE) == Bit(ms, MSTATUS_SIE)
    ensures Bit(ms', MSTATUS_SPIE) == Bit(ms, MSTATUS_SPIE)
    ensures Bit(ms', MSTATUS_SPP) == Bit(ms, MSTATUS_SPP)
  {}

  lemma MEntry(h: State, cause: Word, tval: Word, h': State)
    requires TrapStep(MACHINE, h, cause, tval, h')
    ensures MSavedOf(h'.csrs) == MSaved(MieOf(h.csrs), RankBits(h.csrs.priv), h.pc)
    ensures SStateOf(h'.csrs) == SStateOf(h.csrs)
  {
    hide GetCell, PushedM, Bit, Mpp, RankBits;
    PushedMSaves(GetCell(h.csrs, MSTATUS), h.csrs.priv, GetCell(h'.csrs, MSTATUS));
    PushedMKeepsS(GetCell(h.csrs, MSTATUS), h.csrs.priv, GetCell(h'.csrs, MSTATUS));
  }

  lemma SEntry(h: State, cause: Word, tval: Word, h': State)
    requires TrapStep(SUPERVISOR, h, cause, tval, h')
    ensures SSavedOf(h'.csrs) == SSaved(SieOf(h.csrs), h.csrs.priv == SUPERVISOR, h.pc)
  {
    hide GetCell, Bit;
  }

  // ------------------------------------------------------------------
  // Returning
  // ------------------------------------------------------------------

  predicate Retired(r: StepResult, i: Word) { !Trapped(r) && r.instruction == i }

  /** The trap registers and privilege of c' are those of c. */
  predicate SameTrapState(c: Csrs, c': Csrs) {
    c'.priv == c.priv && GetCell(c', MSTATUS) == GetCell(c, MSTATUS) &&
    GetCell(c', MEPC) == GetCell(c, MEPC) && GetCell(c', SEPC) == GetCell(c, SEPC) &&
    GetCell(c', SCAUSE) == GetCell(c, SCAUSE) && GetCell(c', STVAL) == GetCell(c, STVAL)
  }

  lemma BumpsKeepTrapState(cfg: Config, c: Csrs)
    requires CsrsOk(cfg, c)
    ensures SameTrapState(c, BumpInstret(BumpCycle(c)))
  {
    hide CsrsOk, GetCell, Bump;
    CycleFrame(cfg, c);
    BumpsOk(cfg, c);
    InstretFrame(cfg, BumpCycle(c));
  }
  lemma InstretFrame(cfg: Config, c: Csrs)
    requires CsrsOk(cfg, c)
    ensures SameBut(c, MINSTRET, MINSTRETH, BumpInstret(c))
  {
    CounterCells(cfg);
    assert MINSTRET in c.cells && MINSTRETH in c.cells;
    hide CsrsOk, HasCell, SameBut, Bump;
    BumpFrame(c, MINSTRET, MINSTRETH);
  }

  /** A retired instruction leaves the state of its execution, with the counters advanced. */
  lemma RetiredStep(cfg: Config, fp: F.FpUnit, h: State, e: Event)
    requires IsStep(e) && !Trapped(Take(cfg, fp, h, e).r)
    ensures var s := Take(cfg, fp, h, e);
      var x := ExecuteFetched(cfg, fp, h, s.r.instruction);
      x.trap.None? && s.h == x.h.(pc := x.nextPc, csrs := BumpInstret(BumpCycle(x.h.csrs)))
  {
    hide Choose, Fetch, ExecuteFetched, Deliver, Finish, BumpCycle, BumpInstret;
    match Choose(cfg, h.csrs)
    case Some(i) => DeliveryReports(cfg, h, i);
    case None =>
      if e.Inject? {
        InstructionRetires(cfg, fp, h, e.opcode);
      } else {
        match Fetch(h.mem, h.pc)
        case Instruction(i) => InstructionRetires(cfg, fp, h, i);
        case FetchFault(addr) => FaultTraps(cfg, h, addr);
      }
  }
  lemma InstructionRetires(cfg: Config, fp: F.FpUnit, h: State, i: Word)
    requires !StepInstruction(cfg, fp, h, i).r.trap
    ensures var s := StepInstruction(cfg, fp, h, i);
      var x := ExecuteFetched(cfg, fp, h, i);
      s.r.instruction == i && x.trap.None? && s.h == x.h.(pc := x.nextPc, csrs := BumpInstret(BumpCycle(x.h.csrs)))
  {
    hide ExecuteFetched, TakeException, BumpCycle, BumpInstret, Is32Bit;
  }
  lemma FaultTraps(cfg: Config, h: State, addr: Word)
    ensures Finish(cfg, FetchTrap(h, addr), StartResult(h.pc)).r.trap
  {
    hide TakeException, BumpCycle;
  }

  lemma MretRestores(u: bool, ms: Word)
    ensures Bit(MretStatus(u, ms), MSTATUS_MIE) == Bit(ms, MSTATUS_MPIE)
    ensures Bit(MretStatus(u, ms), MSTATUS_SIE) == Bit(ms, MSTATUS_SIE)
    ensures Bit(MretStatus(u, ms), MSTATUS_SPIE) == Bit(ms, MSTATUS_SPIE)
    ensures Bit(MretStatus(u, ms), MSTATUS_SPP) == Bit(ms, MSTATUS_SPP)
  {}
  lemma SretRestores(ms: Word)
    ensures Bit(SretStatus(ms), MSTATUS_SIE) == Bit(ms, MSTATUS_SPIE)
  {}
  lemma MppMeans(ms: Word, p: Privilege)
    requires Mpp(ms) == RankBits(p) && !p.RESERVED?
    ensures MppPrivilege(ms) == p
  {}

  lemma MretCells(c: Csrs)
    ensures var ms := GetCell(c, MSTATUS);
      GetCell(Mret(c), MSTATUS) == MretStatus(c.u, ms) && Mret(c).priv == MppPrivilege(ms) &&
      GetCell(Mret(c), SEPC) == GetCell(c, SEPC) && GetCell(Mret(c), SCAUSE) == GetCell(c, SCAUSE) && GetCell(Mret(c), STVAL) == GetCell(c, STVAL)
  {
    hide MretStatus, MppPrivilege;
  }
  lemma SretCells(c: Csrs)
    ensures var ms := GetCell(c, MSTATUS);
      GetCell(Sret(c), MSTATUS) == SretStatus(ms) && Sret(c).priv == if Bit(ms, MSTATUS_SPP) then SUPERVISOR else USER
  {
    hide SretStatus, Bit;
  }

  /** MRET takes privilege, MIE and pc from where the trap put them and leaves the supervisor state alone. */
  lemma MretStep(cfg: Config, fp: F.FpUnit, h: State, e: Event, p: Privilege)
    requires Ok(cfg, h) && IsStep(e) && Retired(Take(cfg, fp, h, e).r, I.MRET_WORD)
    requires MSavedOf(h.csrs).mpp == RankBits(p) && !p.RESERVED?
    ensures var h' := Take(cfg, fp, h, e).h;
      h'.csrs.priv == p && MieOf(h'.csrs) == MSavedOf(h.csrs).mpie && h'.pc == MSavedOf(h.csrs).mepc &&
      SStateOf(h'.csrs) == SStateOf(h.csrs)
  {
    hide Take, ExecuteFetched, RunI, CsrsOk, Aligned, Mret, BumpCycle, BumpInstret, GetCell, Bit, Mpp, RankBits;
    hide MretStatus, MppPrivilege;
    RetiredStep(cfg, fp, h, e);
    ReturnDispatch(cfg, fp, h, I.MRET_WORD);
    RunMret(cfg, h);
    var c := Mret(h.csrs);
    MretOk(cfg, h.csrs);
    BumpsKeepTrapState(cfg, c);
    MretCells(h.csrs);
    MretRestores(h.csrs.u, GetCell(h.csrs, MSTATUS));
    MppMeans(GetCell(h.csrs, MSTATUS), p);
  }

  /** SRET takes privilege, SIE and pc from where the trap put them. */
  lemma SretStep(cfg: Config, fp: F.FpUnit, h: State, e: Event)
    requires Ok(cfg, h) && (cfg.s ==> cfg.u) && IsStep(e) && Retired(Take(cfg, fp, h, e).r, I.SRET_WORD)
    ensures var h' := Take(cfg, fp, h, e).h;
      h'.csrs.priv == (if SSavedOf(h.csrs).spp then SUPERVISOR else USER) &&
      SieOf(h'.csrs) == SSavedOf(h.csrs).spie && h'.pc == SSavedOf(h.csrs).sepc
  {
    hide Take, ExecuteFetched, RunI, CsrsOk, Aligned, Sret, BumpCycle, BumpInstret, GetCell, Bit, SretStatus;
    RetiredStep(cfg, fp, h, e);
    ReturnDispatch(cfg, fp, h, I.SRET_WORD);
    RunSret(cfg, h);
    SretOk(cfg, h.csrs);
    BumpsKeepTrapState(cfg, Sret(h.csrs));
    SretCells(h.csrs);
    SretRestores(GetCell(h.csrs, MSTATUS));
  }

  // ------------------------------------------------------------------
  // Frames
  // ------------------------------------------------------------------

  /** An event inside a handler: an interrupt line changes, or an instruction other than a return retires. */
  predicate IsPlain(cfg: Config, fp: F.FpUnit, h: State, e: Event) {
    hide Take;
    !e.Restart? && (IsStep(e) ==> !Trapped(Take(cfg, fp, h, e).r) && !IsReturn(Take(cfg, fp, h, e).r.instruction))
  }

  /** A trap to M, its handler and the MRET. */
  datatype MFrame = MFrame(enter: Event, body: seq<Event>, leave: Event)

  function RunMFrame(cfg: Config, fp: F.FpUnit, h: State, f: MFrame): State {
    hide Apply, Run;
    Apply(cfg, fp, Run(cfg, fp, Apply(cfg, fp, h, f.enter), f.body), f.leave)
  }

  /** Every event of an M handler is plain and leaves what the frame saved, and the supervisor trap state, as it was. */
  predicate MBody(cfg: Config, fp: F.FpUnit, h: State, es: seq<Event>) {
    hide IsPlain, Run, MSavedOf, SStateOf;
    es == [] ||
    (MBody(cfg, fp, h, es[..|es| - 1]) &&
     IsPlain(cfg, fp, Run(cfg, fp, h, es[..|es| - 1]), es[|es| - 1]) &&
     MSavedOf(Run(cfg, fp, h, es).csrs) == MSavedOf(Run(cfg, fp, h, es[..|es| - 1]).csrs) &&
     SStateOf(Run(cfg, fp, h, es).csrs) == SStateOf(Run(cfg, fp, h, es[..|es| - 1]).csrs))
  }

  predicate Enters(cfg: Config, fp: F.FpUnit, h: State, e: Event, p: Privilege) {
    hide Take;
    IsStep(e) && Trapped(Take(cfg, fp, h, e).r) && Take(cfg, fp, h, e).h.csrs.priv == p
  }
  predicate Leaves(cfg: Config, fp: F.FpUnit, h: State, e: Event, i: Word) {
    hide Take;
    IsStep(e) && Retired(Take(cfg, fp, h, e).r, i)
  }

  predicate WellFormedM(cfg: Config, fp: F.FpUnit, h: State, f: MFrame) {
    hide Apply, Run, MBody, Enters, Leaves;
    var h1 := Apply(cfg, fp, h, f.enter);
    Enters(cfg, fp, h, f.enter, MACHINE) && MBody(cfg, fp, h1, f.body) &&
    Leaves(cfg, fp, Run(cfg, fp, h1, f.body), f.leave, I.MRET_WORD)
  }

  lemma {:induction false} MBodyKeeps(cfg: Config, fp: F.FpUnit, h: State, es: seq<Event>)
    requires MBody(cfg, fp, h, es)
    ensures MSavedOf(Run(cfg, fp, h, es).csrs) == MSavedOf(h.csrs) && SStateOf(Run(cfg, fp, h, es).csrs) == SStateOf(h.csrs)
  {
    hide IsPlain, MSavedOf, SStateOf, Apply;
    if es != [] {
      MBodyKeeps(cfg, fp, h, es[..|es| - 1]);
    }
  }

  lemma ApplyTakes(cfg: Config, fp: F.FpUnit, h: State, e: Event)
    requires IsStep(e)
    ensures Apply(cfg, fp, h, e) == Take(cfg, fp, h, e).h
  {
    hide StepFetched, StepInjected;
  }

  lemma ImplementedNotReserved(cfg: Config, c: Csrs)
    requires CsrsOk(cfg, c)
    ensures !c.priv.RESERVED?
  {
    hide LegalCell, HasCell;
  }

  /** The MRET of a frame restores privilege, MIE and pc exactly, and the supervisor trap state is untouched. */
  lemma MFrameRestores(cfg: Config, fp: F.FpUnit, h: State, f: MFrame)
    requires Ok(cfg, h) && (cfg.s ==> cfg.u) && Aligned(cfg, cfg.resetVector) && WellFormedM(cfg, fp, h, f)
    ensures var h' := RunMFrame(cfg, fp, h, f);
      h'.csrs.priv == h.csrs.priv && MieOf(h'.csrs) == MieOf(h.csrs) && h'.pc == h.pc &&
      SStateOf(h'.csrs) == SStateOf(h.csrs) && Ok(cfg, h')
  {
    hide Apply, Run, MBody, Take, CsrsOk, Aligned, MSavedOf, SStateOf, MieOf, TrapStep, RankBits;
    var h1 := Apply(cfg, fp, h, f.enter);
    var h2 := Run(cfg, fp, h1, f.body);
    var s := Take(cfg, fp, h, f.enter);
    ApplyTakes(cfg, fp, h, f.enter);
    TrappedStep(cfg, fp, h, f.enter);
    MEntry(h, s.r.cause, s.r.tval, h1);
    ApplyOk(cfg, fp, h, f.enter);
    MBodyKeeps(cfg, fp, h1, f.body);
    RunOk(cfg, fp, h1, f.body);
    ImplementedNotReserved(cfg, h.csrs);
    ApplyTakes(cfg, fp, h2, f.leave);
    MretStep(cfg, fp, h2, f.leave, h.csrs.priv);
    ApplyOk(cfg, fp, h2, f.leave);
  }

  /** What a supervisor handler does: plain events, and M frames that interrupt it. */
  datatype Item = Plain(e: Event) | Nested(f: MFrame)
  datatype SFrame = SFrame(enter: Event, body: seq<Item>, leave: Event)

  function RunItem(cfg: Config, fp: F.FpUnit, h: State, i: Item): State {
    hide Apply, RunMFrame;
    match i case Plain(e) => Apply(cfg, fp, h, e) case Nested(f) => RunMFrame(cfg, fp, h, f)
  }

  function RunItems(cfg: Config, fp: F.FpUnit, h: State, items: seq<Item>): State {
    hide RunItem;
    if items == [] then h else RunItem(cfg, fp, RunItems(cfg, fp, h, items[..|items| - 1]), items[|items| - 1])
  }

  /** An item of a supervisor handler: a plain event that leaves what the frame saved, or a well-formed M frame. */
  predicate SItem(cfg: Config, fp: F.FpUnit, h: State, i: Item) {
    hide IsPlain, Apply, WellFormedM, SSavedOf;
    match i
    case Plain(e) => IsPlain(cfg, fp, h, e) && SSavedOf(Apply(cfg, fp, h, e).csrs) == SSavedOf(h.csrs)
    case Nested(f) => WellFormedM(cfg, fp, h, f)
  }

  predicate SBody(cfg: Config, fp: F.FpUnit, h: State, items: seq<Item>) {
    hide SItem, RunItems;
    items == [] || (SBody(cfg, fp, h, items[..|items| - 1]) && SItem(cfg, fp, RunItems(cfg, fp, h, items[..|items| - 1]), items[|items| - 1]))
  }

  predicate WellFormedS(cfg: Config, fp: F.FpUnit, h: State, f: SFrame) {
    hide Apply, RunItems, SBody, Enters, Leaves;
    var h1 := Apply(cfg, fp, h, f.enter);
    Enters(cfg, fp, h, f.enter, SUPERVISOR) && SBody(cfg, fp, h1, f.body) &&
    Leaves(cfg, fp, RunItems(cfg, fp, h1, f.body), f.leave, I.SRET_WORD)
  }

  function RunSFrame(cfg: Config, fp: F.FpUnit, h: State, f: SFrame): State {
    hide Apply, RunItems;
    Apply(cfg, fp, RunItems(cfg, fp, Apply(cfg, fp, h, f.enter), f.body), f.leave)
  }

  lemma SItemKeeps(cfg: Config, fp: F.FpUnit, h: State, i: Item)
    requires Ok(cfg, h) && (cfg.s ==> cfg.u) && Aligned(cfg, cfg.resetVector) && SItem(cfg, fp, h, i)
    ensures Ok(cfg, RunItem(cfg, fp, h, i)) && SSavedOf(RunItem(cfg, fp, h, i).csrs) == SSavedOf(h.csrs)
  {
    hide IsPlain, Apply, WellFormedM, SSavedOf, CsrsOk, Aligned, RunMFrame, MieOf;
    match i
    case Plain(e) => ApplyOk(cfg, fp, h, e);
    case Nested(f) => MFrameRestores(cfg, fp, h, f);
  }

  lemma {:induction false} SBodyKeeps(cfg: Config, fp: F.FpUnit, h: State, items: seq<Item>)
    requires Ok(cfg, h) && (cfg.s ==> cfg.u) && Aligned(cfg, cfg.resetVector) && SBody(cfg, fp, h, items)
    ensures Ok(cfg, RunItems(cfg, fp, h, items)) && SSavedOf(RunItems(cfg, fp, h, items).csrs) == SSavedOf(h.csrs)
  {
    hide SItem, RunItem, Ok, SSavedOf, Aligned;
    if items != [] {
      SBodyKeeps(cfg, fp, h, items[..|items| - 1]);
      SItemKeeps(cfg, fp, RunItems(cfg, fp, h, items[..|items| - 1]), items[|items| - 1]);
    }
  }

  lemma BelowMachine(cfg: Config, c: Csrs)
    requires CsrsOk(cfg, c) && c.priv != MACHINE
    ensures c.priv == if c.priv == SUPERVISOR then SUPERVISOR else USER
  {
    hide LegalCell, HasCell;
  }

  /** The SRET of a frame restores privilege, SIE and pc exactly, although M frames may have interrupted the handler. */
  lemma SFrameRestores(cfg: Config, fp: F.FpUnit, h: State, f: SFrame)
    requires Ok(cfg, h) && (cfg.s ==> cfg.u) && Aligned(cfg, cfg.resetVector) && WellFormedS(cfg, fp, h, f)
    ensures var h' := RunSFrame(cfg, fp, h, f);
      h'.csrs.priv == h.csrs.priv && SieOf(h'.csrs) == SieOf(h.csrs) && h'.pc == h.pc && Ok(cfg, h')
  {
    hide Apply, RunItems, SBody, Take, CsrsOk, Aligned, SSavedOf, SieOf, TrapStep;
    var h1 := Apply(cfg, fp, h, f.enter);
    var h2 := RunItems(cfg, fp, h1, f.body);
    var s := Take(cfg, fp, h, f.enter);
    ApplyTakes(cfg, fp, h, f.enter);
    TrappedStep(cfg, fp, h, f.enter);
    SEntry(h, s.r.cause, s.r.tval, h1);
    ApplyOk(cfg, fp, h, f.enter);
    SBodyKeeps(cfg, fp, h1, f.body);
    BelowMachine(cfg, h.csrs);
    ApplyTakes(cfg, fp, h2, f.leave);
    SretStep(cfg, fp, h2, f.leave);
    ApplyOk(cfg, fp, h2, f.leave);
  }

  // ------------------------------------------------------------------
  // Frames exist: a system call and the return from it
  // ------------------------------------------------------------------

  const ECALL_WORD := W(0x0000_0073)

  lemma EcallDecodes(s: bool)
    ensures I.Decode(ECALL_WORD, s).op.ECALL? && !I.DecodeType(ECALL_WORD, s).ILLEGAL?
  {
    assert Opcode(ECALL_WORD) == 0x73 && Funct3(ECALL_WORD) == 0;
    hide Opcode, Funct3;
  }

  lemma EcallTraps(cfg: Config, fp: F.FpUnit, h: State)
    ensures ExecuteFetched(cfg, fp, h, ECALL_WORD).trap == Some(Trap(I.EcallCause(h.csrs.priv), W(0)))
  {
    hide ExecuteFetched, I.DecodeType, I.Decode, Blocked, Add, I.EcallCause;
    EcallDecodes(cfg.s);
    BaseDispatch(cfg, fp, h, ECALL_WORD);
    RunEcall(cfg, h);
  }
  lemma RunEcall(cfg: Config, h: State)
    requires I.Decode(ECALL_WORD, cfg.s).op.ECALL?
    ensures RunI(cfg, h, ECALL_WORD).trap == Some(Trap(I.EcallCause(h.csrs.priv), W(0)))
  {
    hide I.Decode, Blocked, Add, I.EcallCause, GetReg;
    var d := I.Decode(ECALL_WORD, cfg.s);
    var c := IConfig(cfg, h.csrs);
    EcallOutcome(c, d, h.x, h.mem, h.pc);
    hide I.Execute;
  }
  lemma EcallOutcome(cfg: I.Config, d: I.Decoded, x: Regs, m: Mem, pc: Word)
    requires d.op.ECALL?
    ensures I.Execute(cfg, d, x, m, pc) == I.Outcome(I.TrapResult(I.Fresh(pc), I.EcallCause(cfg.priv), W(0)), x, m)
  {}

  /** With no interrupt pending, an injected instruction is executed. */
  lemma InjectExecutes(cfg: Config, fp: F.FpUnit, h: State, i: Word)
    requires GetCell(h.csrs, MIP) == W(0)
    ensures Take(cfg, fp, h, Inject(i)) == StepInstruction(cfg, fp, h, i)
  {
    NothingDeliverable(cfg, h.csrs);
    hide Choose, Deliver, StepInstruction, GetCell;
  }

  lemma InstructionTraps(cfg: Config, fp: F.FpUnit, h: State, i: Word)
    ensures var s := StepInstruction(cfg, fp, h, i);
      s.r.instruction == i && !s.r.interrupt && (s.r.trap <==> ExecuteFetched(cfg, fp, h, i).trap.Some?)
    ensures StepInstruction(cfg, fp, h, i).r.trap ==>
      StepInstruction(cfg, fp, h, i).r.cause == ExecuteFetched(cfg, fp, h, i).trap.value.cause
  {
    hide ExecuteFetched, TakeException, BumpCycle, BumpInstret, Is32Bit;
  }

  lemma TrapStepKeepsMip(target: Privilege, h: State, cause: Word, tval: Word, h': State)
    requires TrapStep(target, h, cause, tval, h')
    ensures GetCell(h'.csrs, MIP) == GetCell(h.csrs, MIP)
  {
    assert MIP != EpcOf(target) && MIP != CauseOf(target) && MIP != TvalOf(target);
    hide GetCell, Pushed, EpcOf, CauseOf, TvalOf;
  }

  /** The mode that handles a system call from the current one. */
  function EcallTarget(cfg: Config, c: Csrs): Privilege { DelegateTarget(cfg, c, I.EcallCause(c.priv), false) }

  /** A system call in any state with nothing pending enters the mode the delegation registers select. */
  lemma EcallEnters(cfg: Config, fp: F.FpUnit, h: State)
    requires Ok(cfg, h) && GetCell(h.csrs, MIP) == W(0)
    ensures Enters(cfg, fp, h, Inject(ECALL_WORD), EcallTarget(cfg, h.csrs))
    ensures GetCell(Apply(cfg, fp, h, Inject(ECALL_WORD)).csrs, MIP) == W(0)
  {
    hide Take, Ok, GetCell, TrapStep, ExecuteFetched, DelegateTarget, I.EcallCause, StepInstruction, Apply;
    var e := Inject(ECALL_WORD);
    InjectExecutes(cfg, fp, h, ECALL_WORD);
    EcallTraps(cfg, fp, h);
    InstructionTraps(cfg, fp, h, ECALL_WORD);
    TrappedStep(cfg, fp, h, e);
    ApplyTakes(cfg, fp, h, e);
    var s := Take(cfg, fp, h, e);
    TrapStepKeepsMip(s.h.csrs.priv, h, s.r.cause, s.r.tval, s.h);
    InstructionTarget(cfg, fp, h, ECALL_WORD);
  }
  lemma InstructionTarget(cfg: Config, fp: F.FpUnit, h: State, i: Word)
    requires Ok(cfg, h) && StepInstruction(cfg, fp, h, i).r.trap
    ensures var s := StepInstruction(cfg, fp, h, i); s.h.csrs.priv == DelegateTarget(cfg, h.csrs, s.r.cause, false)
  {
    InstructionPrecise(cfg, fp, h, i);
    hide StepInstruction, Ok, GetCell, Pushed, DelegateTarget;
  }

  /** Where system calls go to M, the call and an immediate MRET form a frame. */
  lemma MFramesExist(cfg: Config, fp: F.FpUnit, h: State)
    requires Ok(cfg, h) && GetCell(h.csrs, MIP) == W(0) && EcallTarget(cfg, h.csrs) == MACHINE
    ensures WellFormedM(cfg, fp, h, MFrame(Inject(ECALL_WORD), [], Inject(I.MRET_WORD)))
  {
    hide Take, Ok, GetCell, ExecuteFetched, DelegateTarget, I.EcallCause, StepInstruction, Apply, RunI, EcallTarget;
    var h1 := Apply(cfg, fp, h, Inject(ECALL_WORD));
    EcallEnters(cfg, fp, h);
    ApplyTakes(cfg, fp, h, Inject(ECALL_WORD));
    InjectExecutes(cfg, fp, h1, I.MRET_WORD);
    InstructionTraps(cfg, fp, h1, I.MRET_WORD);
    ReturnDispatch(cfg, fp, h1, I.MRET_WORD);
    RunMret(cfg, h1);
  }

  /** Where they go to S, the call and an immediate SRET form a frame, unless TSR forbids SRET. */
  lemma SFramesExist(cfg: Config, fp: F.FpUnit, h: State)
    requires Ok(cfg, h) && GetCell(h.csrs, MIP) == W(0) && EcallTarget(cfg, h.csrs) == SUPERVISOR
    requires !Blocked(Apply(cfg, fp, h, Inject(ECALL_WORD)).csrs, MSTATUS_TSR)
    ensures WellFormedS(cfg, fp, h, SFrame(Inject(ECALL_WORD), [], Inject(I.SRET_WORD)))
  {
    DelegationNeedsS(cfg, h.csrs, I.EcallCause(h.csrs.priv), false);
    hide Take, Ok, GetCell, ExecuteFetched, DelegateTarget, I.EcallCause, StepInstruction, Apply, RunI, Blocked;
    var h1 := Apply(cfg, fp, h, Inject(ECALL_WORD));
    EcallEnters(cfg, fp, h);
    ApplyTakes(cfg, fp, h, Inject(ECALL_WORD));
    InjectExecutes(cfg, fp, h1, I.SRET_WORD);
    InstructionTraps(cfg, fp, h1, I.SRET_WORD);
    ReturnDispatch(cfg, fp, h1, I.SRET_WORD);
    RunSret(cfg, h1);
  }
}
