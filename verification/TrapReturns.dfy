/** The return instructions and the interrupt lines, bit by bit. */
module TrapReturns {
  import opened Bits
  import opened BitNumbers
  import opened Common
  import opened Zicsr
  import opened Hart
  import opened Integers
  import opened Invariant
  import opened Precise
  import opened Interrupts
  import opened Reachable
  import opened Returns
  import opened Nesting
  import opened Delegation
  import opened BaseMeaning
  import F = Rv32f
  import I = Rv32i

  // ------------------------------------------------------------------
  // MRET and SRET
  // ------------------------------------------------------------------

  /** mstatus after MRET: MIE from MPIE, MPIE set, MPP the least mode (U if there is one), MPRV kept only on a return to M. */
  predicate UnstackedM(u: bool, ms: bv32, ms': bv32) {
    NthBit(ms', 3) == NthBit(ms, 7) && NthBit(ms', 7) && NthBit(ms', 11) == !u && NthBit(ms', 12) == !u &&
    NthBit(ms', 17) == (NthBit(ms, 17) && NthBit(ms, 11) && NthBit(ms, 12)) && ms' & 0xFFFD_E777 == ms & 0xFFFD_E777
  }

  /** mstatus after SRET: SIE from SPIE, SPIE set, SPP U, MPRV clear. */
  predicate UnstackedS(ms: bv32, ms': bv32) {
    NthBit(ms', 1) == NthBit(ms, 5) && NthBit(ms', 5) && !NthBit(ms', 8) && !NthBit(ms', 17) && ms' & 0xFFFD_FEDD == ms & 0xFFFD_FEDD
  }

  function ModeM(ms: bv32): Privilege {
    if NthBit(ms, 12) then MACHINE else if NthBit(ms, 11) then SUPERVISOR else USER
  }

  lemma MretMie(u: bool, ms: Word)
    ensures Bit(MretStatus(u, ms), 0x8) == Bit(ms, 0x80) && Bit(MretStatus(u, ms), 0x80)
  {}
  lemma MretMpp(u: bool, ms: Word)
    ensures Bit(MretStatus(u, ms), 0x800) == !u && Bit(MretStatus(u, ms), 0x1000) == !u
  {}
  lemma MretMprv(u: bool, ms: Word)
    ensures Bit(MretStatus(u, ms), 0x2_0000) == (Bit(ms, 0x2_0000) && Bit(ms, 0x800) && Bit(ms, 0x1000))
  {}
  function Rest17(b: bv32): bv32 { b & 0xFFFD_E777 }
  function NoMprv(b: bv32): bv32 { b & !MSTATUS_MPRV }
  lemma RestoredKeeps(b: bv32) ensures Rest17(RestoredMie(b)) == Rest17(b) {}
  lemma LeastKeeps(b: bv32, u: bool) ensures Rest17(LeastMpp(b, u)) == Rest17(b) {}
  lemma MprvKeeps(b: bv32) ensures Rest17(NoMprv(b)) == Rest17(b) {}
  lemma MretIs(u: bool, ms: Word)
    ensures var v := LeastMpp(RestoredMie(ms.b), u); MretStatus(u, ms).b == v || MretStatus(u, ms).b == NoMprv(v)
  {
    hide LeastMpp, RestoredMie;
  }
  lemma MretKeeps(u: bool, ms: Word)
    ensures Rest17(MretStatus(u, ms).b) == Rest17(ms.b)
  {
    hide LeastMpp, RestoredMie, NoMprv, MretStatus, Rest17;
    var v := LeastMpp(RestoredMie(ms.b), u);
    RestoredKeeps(ms.b);
    LeastKeeps(RestoredMie(ms.b), u);
    MprvKeeps(v);
    MretIs(u, ms);
  }
  lemma MppMode(ms: Word)
    requires !(Bit(ms, 0x1000) && !Bit(ms, 0x800))
    ensures MppPrivilege(ms) == if Bit(ms, 0x1000) then MACHINE else if Bit(ms, 0x800) then SUPERVISOR else USER
  {}
  lemma NoReservedMpp(cfg: Config, ms: Word) requires LegalMstatus(cfg, ms) ensures !(Bit(ms, 0x1000) && !Bit(ms, 0x800)) {}

  lemma SretBits(ms: Word)
    ensures Bit(SretStatus(ms), 0x2) == Bit(ms, 0x20) && Bit(SretStatus(ms), 0x20)
    ensures !Bit(SretStatus(ms), 0x100) && !Bit(SretStatus(ms), 0x2_0000)
  {}
  lemma SretKeeps(ms: Word) ensures SretStatus(ms).b & 0xFFFD_FEDD == ms.b & 0xFFFD_FEDD {}

  lemma StatusBits(w: Word)
    ensures Bit(w, 0x2) == NthBit(w.b, 1) && Bit(w, 0x8) == NthBit(w.b, 3) && Bit(w, 0x20) == NthBit(w.b, 5)
    ensures Bit(w, 0x80) == NthBit(w.b, 7) && Bit(w, 0x100) == NthBit(w.b, 8) && Bit(w, 0x800) == NthBit(w.b, 11)
    ensures Bit(w, 0x1000) == NthBit(w.b, 12) && Bit(w, 0x2_0000) == NthBit(w.b, 17)
  {
    hide *;
    LowMasks();
    HighMasks();
    BitReads(w, 0x2, 1);
    BitReads(w, 0x8, 3);
    BitReads(w, 0x20, 5);
    BitReads(w, 0x80, 7);
    BitReads(w, 0x100, 8);
    BitReads(w, 0x800, 11);
    BitReads(w, 0x1000, 12);
    BitReads(w, 0x2_0000, 17);
  }

  lemma MretUnstacks(u: bool, ms: Word)
    ensures UnstackedM(u, ms.b, MretStatus(u, ms).b)
  {
    hide NthBit, Bit, MretStatus;
    MretMie(u, ms);
    MretMpp(u, ms);
    MretMprv(u, ms);
    MretKeeps(u, ms);
    StatusBits(ms);
    StatusBits(MretStatus(u, ms));
  }
  lemma SretUnstacks(ms: Word)
    ensures UnstackedS(ms.b, SretStatus(ms).b)
  {
    hide NthBit, Bit, SretStatus;
    SretBits(ms);
    SretKeeps(ms);
    StatusBits(ms);
    StatusBits(SretStatus(ms));
  }
  lemma MretMode(cfg: Config, ms: Word)
    requires LegalMstatus(cfg, ms)
    ensures MppPrivilege(ms) == ModeM(ms.b)
  {
    hide LegalMstatus, NthBit, Bit, MppPrivilege;
    NoReservedMpp(cfg, ms);
    MppMode(ms);
    StatusBits(ms);
  }

  /** Nothing but mstatus, the privilege and the pc changes, apart from the counters. */
  ghost predicate OnlyStatus(h: State, h': State) {
    h'.x == h.x && h'.f == h.f && h'.mem == h.mem && h'.resv == h.resv &&
    forall a :: a !in {0x300, 0xB00, 0xB02, 0xB80, 0xB82} ==> GetCell(h'.csrs, a) == GetCell(h.csrs, a)
  }
  ghost predicate ReturnedM(cfg: Config, h: State, h': State) {
    h'.csrs.priv == ModeM(GetCell(h.csrs, 0x300).b) && h'.pc == GetCell(h.csrs, 0x341) &&
    UnstackedM(cfg.u, GetCell(h.csrs, 0x300).b, GetCell(h'.csrs, 0x300).b) && OnlyStatus(h, h')
  }
  ghost predicate ReturnedS(h: State, h': State) {
    h'.csrs.priv == (if NthBit(GetCell(h.csrs, 0x300).b, 8) then SUPERVISOR else USER) && h'.pc == GetCell(h.csrs, 0x141) &&
    UnstackedS(GetCell(h.csrs, 0x300).b, GetCell(h'.csrs, 0x300).b) && OnlyStatus(h, h')
  }

  /** c' is c with a new mstatus and privilege, and the counters moved. */
  ghost predicate StatusMoved(c: Csrs, ms: Word, p: Privilege, c': Csrs) {
    GetCell(c', 0x300) == ms && c'.priv == p &&
    forall a :: a !in {0x300, 0xB00, 0xB02, 0xB80, 0xB82} ==> GetCell(c', a) == GetCell(c, a)
  }

  lemma BumpKeeps(c: Csrs, lo: Addr, hi: Addr, a: Addr)
    requires a != lo && a != hi
    ensures GetCell(Bump(c, lo, hi), a) == GetCell(c, a) && Bump(c, lo, hi).priv == c.priv
  {
    hide Counter, Low32, High32;
  }
  lemma BumpsMove(c: Csrs)
    ensures var c' := BumpInstret(BumpCycle(c));
      c'.priv == c.priv && forall a :: a !in {0xB00, 0xB02, 0xB80, 0xB82} ==> GetCell(c', a) == GetCell(c, a)
  {
    assert MCYCLE == 0xB00 && MCYCLEH == 0xB80 && MINSTRET == 0xB02 && MINSTRETH == 0xB82;
    hide GetCell, Bump, MCYCLE, MCYCLEH, MINSTRET, MINSTRETH;
    BumpKeeps(c, 0xB00, 0xB80, 0);
    BumpKeeps(BumpCycle(c), 0xB02, 0xB82, 0);
    forall a | a !in {0xB00, 0xB02, 0xB80, 0xB82} ensures GetCell(BumpInstret(BumpCycle(c)), a) == GetCell(c, a) {
      BumpKeeps(c, 0xB00, 0xB80, a);
      BumpKeeps(BumpCycle(c), 0xB02, 0xB82, a);
    }
  }

  lemma StatusThenBumps(c: Csrs, ms: Word, p: Privilege)
    ensures StatusMoved(c, ms, p, BumpInstret(BumpCycle(SetCell(c, MSTATUS, ms).(priv := p))))
  {
    assert MSTATUS == 0x300;
    hide SetCell, GetCell, BumpCycle, BumpInstret, MSTATUS;
    SetStatus(c, ms, p);
    BumpsMove(SetCell(c, 0x300, ms).(priv := p));
  }
  lemma SetStatus(c: Csrs, ms: Word, p: Privilege)
    ensures var c' := SetCell(c, 0x300, ms).(priv := p);
      GetCell(c', 0x300) == ms && c'.priv == p && forall a :: a != 0x300 ==> GetCell(c', a) == GetCell(c, a)
  {}

  lemma ReturnWords() ensures I.MRET_WORD == W(0x3020_0073) && I.SRET_WORD == W(0x1020_0073) {}

  lemma RefusedMret(cfg: Config, h: State)
    ensures var e := RunI(cfg, h, I.MRET_WORD); e.trap.Some? ==> Raised(h, W(2), I.MRET_WORD, e)
  {
    hide I.Decode, I.Execute, I.ExecuteSystem, Mret, Sret, GetCell, Add, Blocked, I.MRET_WORD;
    ReturnDecodes(cfg.s);
    SystemOutcome(IConfig(cfg, h.csrs), I.Decode(I.MRET_WORD, cfg.s), h.x, h.mem, h.pc);
    ReturnFlags(IConfig(cfg, h.csrs), I.Decode(I.MRET_WORD, cfg.s), h.pc);
  }
  lemma RefusedSret(cfg: Config, h: State)
    ensures var e := RunI(cfg, h, I.SRET_WORD); e.trap.Some? ==> Raised(h, W(2), I.SRET_WORD, e)
  {
    hide I.Decode, I.Execute, I.ExecuteSystem, Mret, Sret, GetCell, Add, Blocked, I.SRET_WORD;
    ReturnDecodes(cfg.s);
    DecodeKeepsWord(cfg.s);
    SystemOutcome(IConfig(cfg, h.csrs), I.Decode(I.SRET_WORD, cfg.s), h.x, h.mem, h.pc);
    ReturnFlags(IConfig(cfg, h.csrs), I.Decode(I.SRET_WORD, cfg.s), h.pc);
  }
  /** What the base executor reports for a return word. */
  lemma ReturnFlags(cfg: I.Config, d: I.Decoded, pc: Word)
    requires d.op.MRET? || d.op.SRET? || d.op.ILLEGAL?
    ensures var r := I.ExecuteSystem(cfg, d, pc);
      r.mret == d.op.MRET? && r.sret == d.op.SRET? && !r.sfenceVma && !r.wfi &&
      (d.op.ILLEGAL? ==> r.trap && r.cause == W(2) && r.tval == d.raw)
  {
    hide Add;
  }
  lemma DecodeKeepsWord(s: bool)
    ensures I.Decode(I.MRET_WORD, s).raw == I.MRET_WORD && I.Decode(I.SRET_WORD, s).raw == I.SRET_WORD
  {
    hide I.DecodeType, I.DecodeImm, I.MRET_WORD, I.SRET_WORD;
  }

  /** MRET is allowed in M mode only; SRET where S exists, above U and, in S mode, with TSR, bit 22 of mstatus, clear. */
  lemma ReturnsAdmitted(cfg: Config, fp: F.FpUnit, h: State)
    ensures var e := ExecuteFetched(cfg, fp, h, W(0x3020_0073));
      (e.trap.None? <==> h.csrs.priv == MACHINE) && (e.trap.Some? ==> Raised(h, W(2), W(0x3020_0073), e))
    ensures var e := ExecuteFetched(cfg, fp, h, W(0x1020_0073));
      (e.trap.None? <==> cfg.s && !Refused(h, 22)) && (e.trap.Some? ==> Raised(h, W(2), W(0x1020_0073), e))
  {
    assert MSTATUS == 0x300;
    hide ExecuteFetched, RunI, GetCell, NthBit, Bit, Mret, Sret, I.MRET_WORD, I.SRET_WORD, Raised;
    ReturnWords();
    ReturnDispatch(cfg, fp, h, I.MRET_WORD);
    ReturnDispatch(cfg, fp, h, I.SRET_WORD);
    RunMret(cfg, h);
    RunSret(cfg, h);
    RefusedMret(cfg, h);
    RefusedSret(cfg, h);
    SystemMasks(GetCell(h.csrs, 0x300));
  }

  /** A retired MRET restores exactly what the manual prescribes, bit by bit, and changes nothing else. */
  lemma MretReturns(cfg: Config, fp: F.FpUnit, h: State, e: Event)
    requires Ok(cfg, h) && IsStep(e) && Retired(Take(cfg, fp, h, e).r, W(0x3020_0073))
    ensures ReturnedM(cfg, h, Take(cfg, fp, h, e).h)
  {
    assert MSTATUS == 0x300 && MEPC == 0x341;
    hide Take, ExecuteFetched, RunI, CsrsOk, Aligned, BumpCycle, BumpInstret, GetCell, SetCell, MretStatus;
    hide MppPrivilege, UnstackedM, ModeM, I.MRET_WORD;
    ReturnWords();
    RetiredStep(cfg, fp, h, e);
    ReturnDispatch(cfg, fp, h, I.MRET_WORD);
    RunMret(cfg, h);
    var ms := GetCell(h.csrs, 0x300);
    FlagU(cfg, h.csrs);
    StatusIsLegal(cfg, h.csrs);
    StatusThenBumps(h.csrs, MretStatus(h.csrs.u, ms), MppPrivilege(ms));
    MretUnstacks(h.csrs.u, ms);
    MretMode(cfg, ms);
  }
  lemma FlagU(cfg: Config, c: Csrs) requires CsrsOk(cfg, c) ensures c.u == cfg.u { hide LegalCell, HasCell, Implemented; }

  /** A retired SRET likewise. */
  lemma SretReturns(cfg: Config, fp: F.FpUnit, h: State, e: Event)
    requires Ok(cfg, h) && IsStep(e) && Retired(Take(cfg, fp, h, e).r, W(0x1020_0073))
    ensures ReturnedS(h, Take(cfg, fp, h, e).h)
  {
    assert MSTATUS == 0x300 && SEPC == 0x141 && MSTATUS_SPP == 0x100;
    hide Take, ExecuteFetched, RunI, CsrsOk, Aligned, BumpCycle, BumpInstret, GetCell, SetCell, SretStatus, UnstackedS;
    hide Bit, NthBit, I.SRET_WORD, MSTATUS_SPP;
    ReturnWords();
    RetiredStep(cfg, fp, h, e);
    ReturnDispatch(cfg, fp, h, I.SRET_WORD);
    RunSret(cfg, h);
    var ms := GetCell(h.csrs, 0x300);
    StatusThenBumps(h.csrs, SretStatus(ms), if Bit(ms, 0x100) then SUPERVISOR else USER);
    SretUnstacks(ms);
    StatusBits(ms);
  }

  // ------------------------------------------------------------------
  // Interrupt lines
  // ------------------------------------------------------------------

  /** The mip bit of each line. */
  function LineBit(i: Interrupt): nat {
    match i case MSI => 3 case MTI => 7 case MEI => 11 case SSI => 1 case STI => 5 case SEI => 9
  }

  lemma LineMask(i: Interrupt)
    ensures i.Mask() == Mask(LineBit(i)) && LineBit(i) < 32
  {
    LowMasks();
    hide Mask;
  }
  lemma LineIs(mip: Word, i: Interrupt, level: bool)
    ensures WithLine(mip, i, level).b == if level then Either(mip.b, i.Mask()) else Both(mip.b, Comp(i.Mask()))
  {
    hide Interrupt.Mask;
  }

  /** A raised line sets its numbered mip bit, a lowered one clears it, and nothing else changes. */
  lemma LineSets(h: State, i: Interrupt, level: bool, k: nat)
    requires k < 32
    ensures var h' := SetLine(h, i, level);
      h' == h.(csrs := h.csrs.(cells := h.csrs.cells[0x344 := GetCell(h'.csrs, 0x344)])) &&
      NthBit(GetCell(h'.csrs, 0x344).b, k) == if k == LineBit(i) then level else NthBit(GetCell(h.csrs, 0x344).b, k)
  {
    var mip := GetCell(h.csrs, MIP);
    assert MIP == 0x344;
    hide WithLine, Interrupt.Mask, NthBit, Mask, Either, Both, Comp, LineBit;
    LineIs(mip, i, level);
    LineMask(i);
    MaskBits(LineBit(i), k);
    EitherBit(mip.b, i.Mask(), k);
    BothBit(mip.b, Comp(i.Mask()), k);
    CompBit(i.Mask(), k);
  }
}
