/** What every reachable state satisfies. */
module Invariant {
  import opened Bits
  import opened Common
  import opened Zicsr
  import opened Hart
  import A = Rv32a
  import C = Rv32c
  import F = Rv32f
  import FC = Rv32fc
  import I = Rv32i

  predicate Implemented(cfg: Config, p: Privilege) {
    p == MACHINE || (p == SUPERVISOR && cfg.s) || (p == USER && cfg.u)
  }

  predicate Within(v: Word, mask: bv32) { v.b & !mask == 0 }

  predicate LegalMstatus(cfg: Config, v: Word) { LegalizeMstatus(cfg.f, cfg.s, cfg.u, v) == v }

  /** Aligned to IALIGN: a multiple of 2 with C, of 4 without. */
  predicate Aligned(cfg: Config, pc: Word) { And(pc, EpcMask(cfg)) == pc }

  predicate LegalCell(cfg: Config, a: Addr, v: Word) {
    (a == MSTATUS ==> LegalMstatus(cfg, v)) &&
    (a == MTVEC || a == STVEC ==> v.b & 3 <= 1) &&
    (a == MEPC || a == SEPC ==> Aligned(cfg, v)) &&
    (a == MIE || a == MIP || a == MIDELEG ==> Within(v, MI_MASK)) &&
    (a == MEDELEG ==> Within(v, MEDELEG_MASK)) &&
    (a == FCSR ==> Within(v, 0xFF))
  }

  ghost predicate CsrsOk(cfg: Config, c: Csrs) {
    c.f == cfg.f && c.s == cfg.s && c.u == cfg.u && c.epcMask == EpcMask(cfg) &&
    Implemented(cfg, c.priv) &&
    (forall a :: a in c.cells <==> HasCell(cfg.s, cfg.u, a)) &&
    (forall a :: a in c.cells ==> LegalCell(cfg, a, c.cells[a]))
  }

  ghost predicate Ok(cfg: Config, h: State) { CsrsOk(cfg, h.csrs) && Aligned(cfg, h.pc) }

  // ------------------------------------------------------------------
  // Legality of the values each writer stores
  // ------------------------------------------------------------------

  lemma LegalizeIdempotent(f: bool, s: bool, u: bool, v: Word)
    ensures LegalizeMstatus(f, s, u, LegalizeMstatus(f, s, u, v)) == LegalizeMstatus(f, s, u, v)
  {}

  lemma SstatusWriteLegal(cfg: Config, ms: Word, v: Word)
    requires LegalMstatus(cfg, ms)
    ensures LegalMstatus(cfg, WriteSstatus(cfg.f, cfg.s, cfg.u, ms, v))
  {}

  lemma MTrapLegal(cfg: Config, ms: Word, p: Privilege)
    requires LegalMstatus(cfg, ms) && Implemented(cfg, p)
    ensures LegalMstatus(cfg, MTrapStatus(ms, p))
  {}

  lemma STrapLegal(cfg: Config, ms: Word, p: Privilege)
    requires LegalMstatus(cfg, ms) && cfg.s
    ensures LegalMstatus(cfg, STrapStatus(ms, p))
  {}

  lemma MretLegal(cfg: Config, ms: Word)
    requires LegalMstatus(cfg, ms)
    ensures LegalMstatus(cfg, MretStatus(cfg.u, ms))
  {}

  lemma MretPrivilege(cfg: Config, ms: Word)
    requires LegalMstatus(cfg, ms)
    ensures Implemented(cfg, MppPrivilege(ms))
  {}

  lemma SretLegal(cfg: Config, ms: Word)
    requires LegalMstatus(cfg, ms) && cfg.s
    ensures LegalMstatus(cfg, SretStatus(ms))
  {}

  // ------------------------------------------------------------------
  // CSR file updates keep the invariant
  // ------------------------------------------------------------------

  lemma SetOk(cfg: Config, c: Csrs, a: Addr, v: Word)
    requires CsrsOk(cfg, c) && HasCell(cfg.s, cfg.u, a) && LegalCell(cfg, a, v)
    ensures CsrsOk(cfg, SetCell(c, a, v))
  {
    hide LegalCell, HasCell;
  }

  lemma PrivilegeOk(cfg: Config, c: Csrs, p: Privilege)
    requires CsrsOk(cfg, c) && Implemented(cfg, p)
    ensures CsrsOk(cfg, c.(priv := p))
  {
    hide LegalCell, HasCell;
  }

  /** A cell holds a legal value, and a missing cell reads as zero, which is legal for all but mstatus. */
  lemma CellLegal(cfg: Config, c: Csrs, a: Addr)
    requires CsrsOk(cfg, c) && HasCell(cfg.s, cfg.u, a)
    ensures LegalCell(cfg, a, GetCell(c, a))
  {
    hide LegalCell, HasCell;
  }

  lemma MergeWithin(old_: Word, v: Word, sel: bv32, mask: bv32)
    requires Within(old_, mask) && sel & !mask == 0
    ensures Within(Merge(old_, v, sel), mask)
  {}
  lemma MaskWithin(v: Word, mask: bv32) ensures Within(Masked(v, mask), mask) {}
  lemma FrmWithin(fcsr: Word, v: Word) requires Within(fcsr, 0xFF) ensures Within(Merge(fcsr, FrmPlaced(v), 0xE0), 0xFF) {}
  lemma SieWithin(mie: Word, deleg: Word, v: Word)
    requires Within(mie, MI_MASK)
    ensures Within(WriteSie(mie, deleg, v), MI_MASK)
  {}
  lemma TvecLegal(v: Word) ensures LegalizeTvec(v).b & 3 <= 1 {}
  lemma AndTwice(v: Word, m: Word) ensures And(And(v, m), m) == And(v, m) {}
  lemma MaskAligned(cfg: Config, v: Word)
    ensures Aligned(cfg, And(v, EpcMask(cfg)))
  {
    AndTwice(v, EpcMask(cfg));
    hide And, EpcMask;
  }
  lemma MipSelects(s: bool) ensures MipWritable(s) & !MI_MASK == 0 {}
  lemma SsipSelects(deleg: bv32) ensures (MI_SSI & deleg) & !MI_MASK == 0 {}

  /** The effect of a write is a legal value in a cell of the configuration, if any. */
  predicate LegalEffect(cfg: Config, w: CellWrite) {
    w.Cell? ==> HasCell(cfg.s, cfg.u, w.a) && LegalCell(cfg, w.a, w.v)
  }

  lemma FloatEffects(cfg: Config, c: Csrs, v: Word)
    requires CsrsOk(cfg, c)
    ensures LegalEffect(cfg, Legalize(c, FFLAGS, v)) && LegalEffect(cfg, Legalize(c, FRM, v)) && LegalEffect(cfg, Legalize(c, FCSR, v))
  {
    AlwaysThere(cfg);
    CellLegal(cfg, c, FCSR);
    MergeWithin(GetCell(c, FCSR), v, 0x1F, 0xFF);
    FrmWithin(GetCell(c, FCSR), v);
    MaskWithin(v, 0xFF);
    hide CsrsOk, Within, Merge, HasCell;
  }

  lemma MstatusEffect(cfg: Config, c: Csrs, v: Word)
    requires CsrsOk(cfg, c)
    ensures LegalEffect(cfg, Legalize(c, MSTATUS, v))
  {
    AlwaysThere(cfg);
    LegalizeIdempotent(cfg.f, cfg.s, cfg.u, v);
    hide LegalizeMstatus, WriteSstatus, HasCell;
  }

  lemma SstatusEffect(cfg: Config, c: Csrs, v: Word)
    requires CsrsOk(cfg, c)
    ensures LegalEffect(cfg, Legalize(c, SSTATUS, v))
  {
    AlwaysThere(cfg);
    CellLegal(cfg, c, MSTATUS);
    SstatusWriteLegal(cfg, GetCell(c, MSTATUS), v);
    hide LegalizeMstatus, WriteSstatus, HasCell;
  }

  lemma MieEffects(cfg: Config, c: Csrs, v: Word)
    requires CsrsOk(cfg, c)
    ensures LegalEffect(cfg, Legalize(c, MIE, v)) && LegalEffect(cfg, Legalize(c, SIE, v))
  {
    AlwaysThere(cfg);
    CellLegal(cfg, c, MIE);
    MaskWithin(v, MI_MASK);
    SieWithin(GetCell(c, MIE), GetCell(c, MIDELEG), v);
    hide Within, WriteSie, HasCell;
  }

  lemma MipEffects(cfg: Config, c: Csrs, v: Word)
    requires CsrsOk(cfg, c)
    ensures LegalEffect(cfg, Legalize(c, MIP, v)) && LegalEffect(cfg, Legalize(c, SIP, v))
  {
    AlwaysThere(cfg);
    CellLegal(cfg, c, MIP);
    MipSelects(cfg.s);
    SsipSelects(GetCell(c, MIDELEG).b);
    MergeWithin(GetCell(c, MIP), v, MipWritable(cfg.s), MI_MASK);
    MergeWithin(GetCell(c, MIP), v, MI_SSI & GetCell(c, MIDELEG).b, MI_MASK);
    hide Within, Merge, MipWritable, HasCell;
  }

  lemma DelegationEffects(cfg: Config, c: Csrs, v: Word)
    requires HasCell(cfg.s, cfg.u, MIDELEG)
    ensures LegalEffect(cfg, Legalize(c, MIDELEG, v)) && LegalEffect(cfg, Legalize(c, MEDELEG, v))
  {
    assert HasCell(cfg.s, cfg.u, MEDELEG);
    MaskWithin(v, MI_MASK);
    MaskWithin(v, MEDELEG_MASK);
    hide Within, HasCell;
  }

  lemma VectorEffects(cfg: Config, c: Csrs, a: Addr, v: Word)
    requires CsrsOk(cfg, c) && HasCell(cfg.s, cfg.u, a)
    requires a == MTVEC || a == STVEC || a == MEPC || a == SEPC
    ensures LegalEffect(cfg, Legalize(c, a, v))
  {
    TvecLegal(v);
    MaskAligned(cfg, v);
    hide Aligned, And, LegalizeTvec, HasCell;
  }

  predicate IsLegalized(a: Addr) {
    a == FFLAGS || a == FRM || a == FCSR || a == MSTATUS || a == SSTATUS || a == MIE || a == MIP || a == SIE || a == SIP ||
    a == MIDELEG || a == MEDELEG || a == MTVEC || a == STVEC || a == MEPC || a == SEPC
  }

  lemma PlainEffects(cfg: Config, c: Csrs, a: Addr, v: Word)
    requires HasCell(cfg.s, cfg.u, a) && !IsLegalized(a)
    ensures LegalEffect(cfg, Legalize(c, a, v))
  {
    hide HasCell, LegalizeSatp;
  }

  lemma LegalizeLegal(cfg: Config, c: Csrs, a: Addr, v: Word)
    requires CsrsOk(cfg, c) && Exists(c, a) && Writable(a)
    ensures LegalEffect(cfg, Legalize(c, a, v))
  {
    FloatEffects(cfg, c, v);
    MstatusEffect(cfg, c, v);
    SstatusEffect(cfg, c, v);
    MieEffects(cfg, c, v);
    MipEffects(cfg, c, v);
    NotWritable(a);
    assert a == FFLAGS || a == FRM || HasCell(cfg.s, cfg.u, a);
    hide Legalize, LegalEffect, CsrsOk, HasCell;
    if a == MIDELEG || a == MEDELEG {
      SameDelegation(cfg);
      DelegationEffects(cfg, c, v);
    } else if a == MTVEC || a == STVEC || a == MEPC || a == SEPC {
      VectorEffects(cfg, c, a, v);
    } else if !IsLegalized(a) {
      PlainEffects(cfg, c, a, v);
    }
  }

  lemma SameDelegation(cfg: Config)
    ensures HasCell(cfg.s, cfg.u, MIDELEG) == HasCell(cfg.s, cfg.u, MEDELEG)
  {}
  lemma AlwaysThere(cfg: Config)
    ensures HasCell(cfg.s, cfg.u, FCSR) && HasCell(cfg.s, cfg.u, MSTATUS) && HasCell(cfg.s, cfg.u, MIE)
         && HasCell(cfg.s, cfg.u, MIP)
  {}
  lemma NotWritable(a: Addr)
    requires Writable(a)
    ensures !IsCounter(a)
  {}

  lemma WriteOk(cfg: Config, c: Csrs, a: Addr, v: Word)
    requires CsrsOk(cfg, c) && Exists(c, a) && Writable(a)
    ensures CsrsOk(cfg, WriteCsr(c, a, v))
  {
    LegalizeLegal(cfg, c, a, v);
    var w := Legalize(c, a, v);
    hide Legalize, CsrsOk, HasCell, LegalCell, Exists;
    if w.Cell? {
      SetOk(cfg, c, w.a, w.v);
    }
  }

  // ------------------------------------------------------------------
  // Trap entry and return keep the invariant
  // ------------------------------------------------------------------

  /** Cells that may hold any word. */
  predicate IsFree(a: Addr) {
    a == MCAUSE || a == MTVAL || a == SCAUSE || a == STVAL || a == MISA ||
    a == MCYCLE || a == MCYCLEH || a == MINSTRET || a == MINSTRETH
  }

  lemma FreeLegal(cfg: Config, a: Addr, v: Word)
    requires IsFree(a)
    ensures LegalCell(cfg, a, v)
  {}

  lemma MachineCells(cfg: Config)
    ensures HasCell(cfg.s, cfg.u, MSTATUS) && HasCell(cfg.s, cfg.u, MEPC) && HasCell(cfg.s, cfg.u, MCAUSE)
         && HasCell(cfg.s, cfg.u, MTVAL) && HasCell(cfg.s, cfg.u, MTVEC) && HasCell(cfg.s, cfg.u, FCSR)
         && HasCell(cfg.s, cfg.u, MIP) && HasCell(cfg.s, cfg.u, MISA)
  {}
  lemma CounterCells(cfg: Config)
    ensures HasCell(cfg.s, cfg.u, MCYCLE) && HasCell(cfg.s, cfg.u, MCYCLEH)
         && HasCell(cfg.s, cfg.u, MINSTRET) && HasCell(cfg.s, cfg.u, MINSTRETH)
  {}
  lemma SupervisorCells(cfg: Config)
    requires cfg.s
    ensures HasCell(cfg.s, cfg.u, SEPC) && HasCell(cfg.s, cfg.u, SCAUSE) && HasCell(cfg.s, cfg.u, STVAL) && HasCell(cfg.s, cfg.u, STVEC)
  {}

  lemma FcsrWithin(cfg: Config, c: Csrs)
    requires CsrsOk(cfg, c)
    ensures Within(GetCell(c, 0x003), 0xFF)
  {
    MachineCells(cfg);
    CellLegal(cfg, c, FCSR);
    hide CsrsOk, GetCell, Within, LegalMstatus, Aligned, HasCell;
  }

  lemma StatusLegal(cfg: Config, v: Word)
    requires LegalMstatus(cfg, v)
    ensures LegalCell(cfg, MSTATUS, v)
  {
    hide LegalMstatus;
  }

  lemma StatusIsLegal(cfg: Config, c: Csrs)
    requires CsrsOk(cfg, c)
    ensures LegalMstatus(cfg, GetCell(c, MSTATUS))
  {
    MachineCells(cfg);
    CellLegal(cfg, c, MSTATUS);
    hide LegalMstatus, HasCell, CsrsOk;
  }

  lemma PrivilegeIsImplemented(cfg: Config, c: Csrs)
    requires CsrsOk(cfg, c)
    ensures Implemented(cfg, c.priv)
  {}

  // A write to an epc register, for which existence and writability hold.
  lemma EpcWriteOk(cfg: Config, c: Csrs, a: Addr, pc: Word)
    requires CsrsOk(cfg, c) && (a == MEPC || (a == SEPC && cfg.s))
    ensures CsrsOk(cfg, WriteCsr(c, a, pc))
  {
    EpcAccess(cfg, c, a);
    hide HasCell, CsrsOk, WriteCsr, Exists, Writable;
    WriteOk(cfg, c, a, pc);
  }
  lemma EpcAccess(cfg: Config, c: Csrs, a: Addr)
    requires CsrsOk(cfg, c) && (a == MEPC || (a == SEPC && cfg.s))
    ensures Exists(c, a) && Writable(a)
  {
    hide LegalCell, LegalMstatus;
    MachineCells(cfg);
    if cfg.s { SupervisorCells(cfg); }
    hide HasCell;
  }

  lemma EnterMTrapOk(cfg: Config, c: Csrs, cause: Word, tval: Word, pc: Word)
    requires CsrsOk(cfg, c)
    ensures CsrsOk(cfg, EnterMTrap(c, cause, tval, pc))
  {
    var ms := MTrapStatus(GetCell(c, MSTATUS), c.priv);
    var c1 := SetCell(c, MSTATUS, ms);
    var c2 := c1.(priv := MACHINE);
    var c3 := WriteCsr(c2, MEPC, pc);
    assert Implemented(cfg, MACHINE);
    assert EnterMTrap(c, cause, tval, pc) == SetCell(SetCell(c3, MCAUSE, cause), MTVAL, tval);
    FreeLegal(cfg, MCAUSE, cause);
    FreeLegal(cfg, MTVAL, tval);
    hide *;
    MachineCells(cfg);
    StatusIsLegal(cfg, c);
    PrivilegeIsImplemented(cfg, c);
    MTrapLegal(cfg, GetCell(c, MSTATUS), c.priv);
    StatusLegal(cfg, ms);
    SetOk(cfg, c, MSTATUS, ms);
    PrivilegeOk(cfg, c1, MACHINE);
    EpcWriteOk(cfg, c2, MEPC, pc);
    SetOk(cfg, c3, MCAUSE, cause);
    SetOk(cfg, SetCell(c3, MCAUSE, cause), MTVAL, tval);
  }

  lemma EnterSTrapOk(cfg: Config, c: Csrs, cause: Word, tval: Word, pc: Word)
    requires CsrsOk(cfg, c) && cfg.s
    ensures CsrsOk(cfg, EnterSTrap(c, cause, tval, pc))
  {
    var ms := STrapStatus(GetCell(c, MSTATUS), c.priv);
    var c1 := SetCell(c, MSTATUS, ms);
    var c2 := c1.(priv := SUPERVISOR);
    var c3 := WriteCsr(c2, SEPC, pc);
    assert Implemented(cfg, SUPERVISOR);
    assert EnterSTrap(c, cause, tval, pc) == SetCell(SetCell(c3, SCAUSE, cause), STVAL, tval);
    FreeLegal(cfg, SCAUSE, cause);
    FreeLegal(cfg, STVAL, tval);
    hide *;
    MachineCells(cfg);
    SupervisorCells(cfg);
    StatusIsLegal(cfg, c);
    STrapLegal(cfg, GetCell(c, MSTATUS), c.priv);
    StatusLegal(cfg, ms);
    SetOk(cfg, c, MSTATUS, ms);
    PrivilegeOk(cfg, c1, SUPERVISOR);
    EpcWriteOk(cfg, c2, SEPC, pc);
    SetOk(cfg, c3, SCAUSE, cause);
    SetOk(cfg, SetCell(c3, SCAUSE, cause), STVAL, tval);
  }

  lemma DelegationNeedsS(cfg: Config, c: Csrs, cause: Word, isInterrupt: bool)
    ensures DelegateTarget(cfg, c, cause, isInterrupt) == MACHINE ||
            (DelegateTarget(cfg, c, cause, isInterrupt) == SUPERVISOR && cfg.s)
  {}

  lemma EnterTrapOk(cfg: Config, target: Privilege, c: Csrs, cause: Word, tval: Word, pc: Word)
    requires CsrsOk(cfg, c) && (target == SUPERVISOR ==> cfg.s)
    ensures CsrsOk(cfg, EnterTrap(target, c, cause, tval, pc))
  {
    hide CsrsOk, EnterMTrap, EnterSTrap;
    if target == SUPERVISOR {
      EnterSTrapOk(cfg, c, cause, tval, pc);
    } else {
      EnterMTrapOk(cfg, c, cause, tval, pc);
    }
  }

  lemma MretOk(cfg: Config, c: Csrs)
    requires CsrsOk(cfg, c)
    ensures CsrsOk(cfg, Mret(c))
  {
    var ms := GetCell(c, MSTATUS);
    assert c.u == cfg.u;
    assert Mret(c) == SetCell(c, MSTATUS, MretStatus(cfg.u, ms)).(priv := MppPrivilege(ms));
    hide *;
    MachineCells(cfg);
    StatusIsLegal(cfg, c);
    MretLegal(cfg, ms);
    MretPrivilege(cfg, ms);
    StatusLegal(cfg, MretStatus(cfg.u, ms));
    SetOk(cfg, c, MSTATUS, MretStatus(cfg.u, ms));
    PrivilegeOk(cfg, SetCell(c, MSTATUS, MretStatus(cfg.u, ms)), MppPrivilege(ms));
  }

  lemma SretOk(cfg: Config, c: Csrs)
    requires CsrsOk(cfg, c) && cfg.s && cfg.u
    ensures CsrsOk(cfg, Sret(c))
  {
    var ms := GetCell(c, MSTATUS);
    var p := if Bit(ms, MSTATUS_SPP) then SUPERVISOR else USER;
    assert Implemented(cfg, p);
    assert Sret(c) == SetCell(c, MSTATUS, SretStatus(ms)).(priv := p);
    hide *;
    MachineCells(cfg);
    StatusIsLegal(cfg, c);
    SretLegal(cfg, ms);
    StatusLegal(cfg, SretStatus(ms));
    SetOk(cfg, c, MSTATUS, SretStatus(ms));
    PrivilegeOk(cfg, SetCell(c, MSTATUS, SretStatus(ms)), p);
  }

  lemma BumpOk(cfg: Config, c: Csrs, lo: Addr, hi: Addr)
    requires CsrsOk(cfg, c) && IsFree(lo) && IsFree(hi) && HasCell(cfg.s, cfg.u, lo) && HasCell(cfg.s, cfg.u, hi)
    ensures CsrsOk(cfg, Bump(c, lo, hi))
  {
    var v := Counter(c, lo, hi) + 1;
    hide CsrsOk, HasCell, IsFree, Counter, Low32, High32;
    FreeLegal(cfg, lo, Low32(v));
    FreeLegal(cfg, hi, High32(v));
    SetOk(cfg, c, lo, Low32(v));
    SetOk(cfg, SetCell(c, lo, Low32(v)), hi, High32(v));
  }

  lemma BumpsOk(cfg: Config, c: Csrs)
    requires CsrsOk(cfg, c)
    ensures CsrsOk(cfg, BumpCycle(c)) && CsrsOk(cfg, BumpInstret(BumpCycle(c)))
  {
    CounterCells(cfg);
    assert IsFree(MCYCLE) && IsFree(MCYCLEH) && IsFree(MINSTRET) && IsFree(MINSTRETH);
    hide CsrsOk, HasCell, IsFree, Bump;
    BumpOk(cfg, c, MCYCLE, MCYCLEH);
    BumpOk(cfg, BumpCycle(c), MINSTRET, MINSTRETH);
  }

  // ------------------------------------------------------------------
  // Addresses stay aligned
  // ------------------------------------------------------------------

  lemma BaseAligned(cfg: Config, tvec: Word)
    ensures Aligned(cfg, Base(tvec))
  {
    hide And, Base;
    BaseIsEven(tvec);
    BaseIsWord(tvec);
  }
  lemma BaseIsEven(tvec: Word) ensures And(Base(tvec), W(0xFFFF_FFFE)) == Base(tvec) {}
  lemma BaseIsWord(tvec: Word) ensures And(Base(tvec), W(0xFFFF_FFFC)) == Base(tvec) {}
  lemma VectorAligned(cfg: Config, tvec: Word, n: bv32)
    requires n < 16
    ensures Aligned(cfg, Add(Base(tvec), W(4 * n)))
  {}
  lemma PlusFourAligned(cfg: Config, pc: Word) requires Aligned(cfg, pc) ensures Aligned(cfg, Add(pc, W(4))) {}
  lemma PlusTwoAligned(cfg: Config, pc: Word) requires Aligned(cfg, pc) && cfg.c ensures Aligned(cfg, Add(pc, W(2))) {}

  predicate Even(v: Word) { v.b & 1 == 0 }

  lemma EvenSum(cfg: Config, pc: Word, imm: Word) requires Aligned(cfg, pc) && Even(imm) ensures Even(Add(pc, imm)) {}
  lemma EvenMasked(v: Word) ensures Even(And(v, W(0xFFFF_FFFE))) {}
  lemma EvenImmB(i: Word) ensures Even(I.ImmB(i)) {}
  lemma EvenImmJ(i: Word) ensures Even(I.ImmJ(i)) {}
  lemma EvenImmCj(c: Word) ensures Even(C.ImmCj(c)) {}
  lemma EvenImmCb(c: Word) ensures Even(C.ImmCb(c)) {}
  lemma EvenIsAligned(cfg: Config, v: Word)
    requires Even(v) && (cfg.c || !Bit(v, 2))
    ensures Aligned(cfg, v)
  {}
}
