/** The supervisor CSRs are windows: below M mode nothing of the machine state outside them can be written. */
module Supervisor {
  import opened Bits
  import opened Common
  import opened Zicsr
  import opened Hart
  import opened Invariant
  import opened Dispatch
  import F = Rv32f
  import Zifencei

  /** The bits of a supervisor view that a write through it can change. */
  function AcceptedBits(c: Csrs, a: Addr): bv32 {
    if a == SSTATUS then SSTATUS_WRITE_MASK & LegalMask(c.s, c.u)
    else if a == SIE then GetCell(c, MIDELEG).b
    else MI_SSI & GetCell(c, MIDELEG).b
  }

  /** v' agrees with v outside mask. */
  predicate SameOutside(v: Word, v': Word, mask: bv32) { (v.b ^ v'.b) & !mask == 0 }

  predicate IsWindowed(a: Addr) { a == MSTATUS || a == MIE || a == MIP }
  predicate IsMachineCsr(a: Addr) { MinPrivilege(a) == 3 }

  /** The machine CSRs of c' are those of c, but for the bits open to the supervisor views. */
  ghost predicate MachineKept(c: Csrs, c': Csrs) {
    SameOutside(GetCell(c, MSTATUS), GetCell(c', MSTATUS), AcceptedBits(c, SSTATUS)) &&
    SameOutside(GetCell(c, MIE), GetCell(c', MIE), AcceptedBits(c, SIE)) &&
    SameOutside(GetCell(c, MIP), GetCell(c', MIP), AcceptedBits(c, SIP)) &&
    (forall a :: IsMachineCsr(a) && !IsWindowed(a) ==> GetCell(c', a) == GetCell(c, a)) &&
    c'.priv == c.priv
  }

  // ------------------------------------------------------------------
  // One write
  // ------------------------------------------------------------------

  lemma SstatusWindow(cfg: Config, ms: Word, v: Word)
    requires LegalMstatus(cfg, ms)
    ensures SameOutside(ms, WriteSstatus(cfg.f, cfg.s, cfg.u, ms, v), SSTATUS_WRITE_MASK & LegalMask(cfg.s, cfg.u))
  {}
  lemma SieWindow(mie: Word, deleg: Word, v: Word)
    ensures SameOutside(mie, WriteSie(mie, deleg, v), deleg.b)
  {}
  lemma MergeWindow(old_: Word, v: Word, mask: bv32)
    ensures SameOutside(old_, Merge(old_, v, mask), mask)
  {}
  lemma SameIsSame(v: Word, mask: bv32) ensures SameOutside(v, v, mask) {}

  lemma KeptSelf(c: Csrs)
    ensures MachineKept(c, c)
  {
    SameIsSame(GetCell(c, MSTATUS), AcceptedBits(c, SSTATUS));
    SameIsSame(GetCell(c, MIE), AcceptedBits(c, SIE));
    SameIsSame(GetCell(c, MIP), AcceptedBits(c, SIP));
    hide GetCell, SameOutside, AcceptedBits;
  }

  lemma SetCells(c: Csrs, k: Addr, v: Word)
    ensures GetCell(SetCell(c, k, v), k) == v && SetCell(c, k, v).priv == c.priv
    ensures forall a :: a != k ==> GetCell(SetCell(c, k, v), a) == GetCell(c, a)
  {}

  lemma KeptOne(c: Csrs, k: Addr, v: Word, mask: bv32)
    requires IsMachineCsr(k) ==> IsWindowed(k)
    requires k == MSTATUS ==> SameOutside(GetCell(c, k), v, AcceptedBits(c, SSTATUS))
    requires k == MIE ==> SameOutside(GetCell(c, k), v, AcceptedBits(c, SIE))
    requires k == MIP ==> SameOutside(GetCell(c, k), v, AcceptedBits(c, SIP))
    ensures MachineKept(c, SetCell(c, k, v))
  {
    hide SameOutside, AcceptedBits, GetCell, SetCell, IsMachineCsr;
    SetCells(c, k, v);
    SameIsSame(GetCell(c, MSTATUS), AcceptedBits(c, SSTATUS));
    SameIsSame(GetCell(c, MIE), AcceptedBits(c, SIE));
    SameIsSame(GetCell(c, MIP), AcceptedBits(c, SIP));
  }

  lemma UserEffect(c: Csrs, a: Addr, v: Word)
    requires MinPrivilege(a) <= 1 && a != SSTATUS && a != SIE && a != SIP
    ensures Legalize(c, a, v).Cell? ==> !IsMachineCsr(Legalize(c, a, v).a)
  {
    assert !IsMachineCsr(FCSR);
    hide GetCell, Merge, LegalizeMstatus, WriteSstatus, LegalizeTvec, LegalizeSatp, WriteSie, And, MipWritable;
  }

  lemma WindowEffect(cfg: Config, c: Csrs, a: Addr, v: Word)
    requires CsrsOk(cfg, c) && (a == SSTATUS || a == SIE || a == SIP)
    ensures var w := Legalize(c, a, v);
      w.Cell? ==>
        w.a == (if a == SSTATUS then MSTATUS else if a == SIE then MIE else MIP) &&
        SameOutside(GetCell(c, w.a), w.v, AcceptedBits(c, a))
  {
    StatusIsLegal(cfg, c);
    SstatusWindow(cfg, GetCell(c, MSTATUS), v);
    SieWindow(GetCell(c, MIE), GetCell(c, MIDELEG), v);
    MergeWindow(GetCell(c, MIP), v, MI_SSI & GetCell(c, MIDELEG).b);
    FlagsOf(cfg, c);
    hide GetCell, Merge, LegalizeMstatus, WriteSstatus, WriteSie, SameOutside, LegalMask, CsrsOk, LegalMstatus;
  }
  lemma FlagsOf(cfg: Config, c: Csrs)
    requires CsrsOk(cfg, c)
    ensures c.f == cfg.f && c.s == cfg.s && c.u == cfg.u
  {
    hide LegalCell, HasCell, Implemented;
  }

  lemma WindowAddresses()
    ensures IsMachineCsr(MSTATUS) && IsMachineCsr(MIE) && IsMachineCsr(MIP)
    ensures IsWindowed(MSTATUS) && IsWindowed(MIE) && IsWindowed(MIP)
  {}

  lemma WriteKeepsMachine(cfg: Config, c: Csrs, a: Addr, v: Word)
    requires CsrsOk(cfg, c) && MinPrivilege(a) <= 1
    ensures MachineKept(c, WriteCsr(c, a, v))
  {
    var w := Legalize(c, a, v);
    WindowAddresses();
    hide CsrsOk, Legalize, MachineKept, SameOutside, AcceptedBits, IsMachineCsr, MinPrivilege, SetCell, GetCell;
    KeptSelf(c);
    if w.Cell? {
      if a == SSTATUS || a == SIE || a == SIP {
        WindowEffect(cfg, c, a, v);
      } else {
        UserEffect(c, a, v);
      }
      KeptOne(c, w.a, w.v, 0);
    }
  }

  // ------------------------------------------------------------------
  // CSR instructions below M mode
  // ------------------------------------------------------------------

  lemma LowPrivilege(cfg: Config, c: Csrs, a: Addr)
    requires CsrsOk(cfg, c) && c.priv != MACHINE && CanRead(c, a)
    ensures MinPrivilege(a) <= 1
  {
    PrivilegeIsImplemented(cfg, c);
    hide CsrsOk, CounterReadable, IsCounter, MinPrivilege;
  }

  lemma RunCsrKeepsMachine(cfg: Config, h: State, i: Word)
    requires CsrsOk(cfg, h.csrs) && h.csrs.priv != MACHINE
    ensures MachineKept(h.csrs, RunCsr(cfg, h, i).h.csrs)
  {
    var d := Decode(i);
    hide CsrsOk, MachineKept, Decode, SatpBlocked, ReadCsr, WriteCsr, GetCell, SetReg, Exists, CanWrite, CanRead;
    hide WillRead, WillWrite;
    hide NewValue, Source;
    KeptSelf(h.csrs);
    if Permitted(d, h.csrs) {
      LowPrivilege(cfg, h.csrs, d.csr);
      var value := if WillRead(d) then ReadCsr(h.csrs, d.csr) else W(0);
      WriteKeepsMachine(cfg, h.csrs, d.csr, NewValue(d.op, value, Source(d, h.x)));
    }
  }

  lemma CsrDispatch(cfg: Config, fp: F.FpUnit, h: State, i: Word)
    requires IsCsrInstruction(i)
    ensures cfg.zicsr ==> ExecuteFetched(cfg, fp, h, i) == RunCsr(cfg, h, i)
  {
    CsrIsLong(i);
    hide IsCsrInstruction, Execute32, RunCsr, ExecuteCompressed, Is32Bit;
    if cfg.zicsr { CsrClaims(cfg, fp, h, i); }
  }
  lemma CsrIsLong(i: Word) requires IsCsrInstruction(i) ensures Is32Bit(i) {}
  lemma CsrClaims(cfg: Config, fp: F.FpUnit, h: State, i: Word)
    requires cfg.zicsr && IsCsrInstruction(i)
    ensures Execute32(cfg, fp, h, i) == RunCsr(cfg, h, i)
  {
    NotFence(i);
    hide IsCsrInstruction, RunCsr, RunM, RunA, RunF, RunZba, RunZbb, RunZbs, RunZicond, RunI, Zifencei.IsFenceI, Add;
  }
  lemma NotFence(i: Word) requires IsCsrInstruction(i) ensures !Zifencei.IsFenceI(i) { hide Funct3; }

  /** A CSR instruction executed below M mode changes no machine state outside the supervisor windows. */
  lemma SupervisorWindows(cfg: Config, fp: F.FpUnit, h: State, i: Word)
    requires cfg.zicsr && IsCsrInstruction(i) && CsrsOk(cfg, h.csrs) && h.csrs.priv != MACHINE
    ensures MachineKept(h.csrs, ExecuteFetched(cfg, fp, h, i).h.csrs)
  {
    hide ExecuteFetched, RunCsr, CsrsOk, MachineKept, IsCsrInstruction;
    CsrDispatch(cfg, fp, h, i);
    RunCsrKeepsMachine(cfg, h, i);
  }

  // ------------------------------------------------------------------
  // Rereading
  // ------------------------------------------------------------------

  lemma SstatusReread(cfg: Config, ms: Word, v: Word)
    requires LegalMstatus(cfg, ms)
    ensures Masked(WriteSstatus(cfg.f, cfg.s, cfg.u, ms, v), SSTATUS_READ_MASK)
         == Merge(Masked(ms, SSTATUS_READ_MASK), v, SSTATUS_WRITE_MASK & LegalMask(cfg.s, cfg.u))
  {}
  lemma SieReread(mie: Word, deleg: Word, v: Word)
    requires Within(deleg, MI_MASK)
    ensures And(WriteSie(mie, deleg, v), deleg) == Merge(And(mie, deleg), v, deleg.b)
  {}
  lemma SipReread(mip: Word, deleg: Word, v: Word)
    ensures And(Merge(mip, v, MI_SSI & deleg.b), deleg) == Merge(And(mip, deleg), v, MI_SSI & deleg.b)
  {}

  lemma DelegationWithin(cfg: Config, c: Csrs)
    requires CsrsOk(cfg, c)
    ensures Within(GetCell(c, MIDELEG), MI_MASK)
  {
    hide HasCell, LegalMstatus, Aligned;
  }

  lemma ViewReads(c: Csrs)
    ensures ReadCsr(c, SSTATUS) == Masked(GetCell(c, MSTATUS), SSTATUS_READ_MASK)
    ensures ReadCsr(c, SIE) == And(GetCell(c, MIE), GetCell(c, MIDELEG))
    ensures ReadCsr(c, SIP) == And(GetCell(c, MIP), GetCell(c, MIDELEG))
  {
    hide GetCell, And;
  }
  lemma ViewWrites(c: Csrs, v: Word)
    requires c.s
    ensures WriteCsr(c, SSTATUS, v) == SetCell(c, MSTATUS, WriteSstatus(c.f, c.s, c.u, GetCell(c, MSTATUS), v))
    ensures WriteCsr(c, SIE, v) == SetCell(c, MIE, WriteSie(GetCell(c, MIE), GetCell(c, MIDELEG), v))
    ensures WriteCsr(c, SIP, v) == SetCell(c, MIP, Merge(GetCell(c, MIP), v, AcceptedBits(c, SIP)))
  {
    hide GetCell, SetCell, WriteSstatus, WriteSie, Merge;
  }

  lemma SstatusReadsBack(cfg: Config, c: Csrs, v: Word)
    requires CsrsOk(cfg, c) && cfg.s
    ensures ReadCsr(WriteCsr(c, SSTATUS, v), SSTATUS) == Merge(ReadCsr(c, SSTATUS), v, AcceptedBits(c, SSTATUS))
  {
    FlagsOf(cfg, c);
    StatusIsLegal(cfg, c);
    SstatusReread(cfg, GetCell(c, MSTATUS), v);
    hide CsrsOk, GetCell, SetCell, Merge, WriteSstatus, LegalMask, LegalMstatus, ReadCsr, WriteCsr;
    ViewReads(c);
    ViewWrites(c, v);
    ViewReads(WriteCsr(c, SSTATUS, v));
    SetCells(c, MSTATUS, WriteSstatus(c.f, c.s, c.u, GetCell(c, MSTATUS), v));
  }

  lemma SieReadsBack(cfg: Config, c: Csrs, v: Word)
    requires CsrsOk(cfg, c) && cfg.s
    ensures ReadCsr(WriteCsr(c, SIE, v), SIE) == Merge(ReadCsr(c, SIE), v, AcceptedBits(c, SIE))
  {
    FlagsOf(cfg, c);
    DelegationWithin(cfg, c);
    SieReread(GetCell(c, MIE), GetCell(c, MIDELEG), v);
    hide CsrsOk, GetCell, SetCell, Merge, WriteSie, And, Within, ReadCsr, WriteCsr, LegalMask;
    ViewReads(c);
    ViewWrites(c, v);
    ViewReads(WriteCsr(c, SIE, v));
    SetCells(c, MIE, WriteSie(GetCell(c, MIE), GetCell(c, MIDELEG), v));
  }

  lemma SipReadsBack(cfg: Config, c: Csrs, v: Word)
    requires CsrsOk(cfg, c) && cfg.s
    ensures ReadCsr(WriteCsr(c, SIP, v), SIP) == Merge(ReadCsr(c, SIP), v, AcceptedBits(c, SIP))
  {
    FlagsOf(cfg, c);
    SipReread(GetCell(c, MIP), GetCell(c, MIDELEG), v);
    hide CsrsOk, GetCell, SetCell, Merge, And, ReadCsr, WriteCsr, LegalMask;
    ViewReads(c);
    ViewWrites(c, v);
    ViewReads(WriteCsr(c, SIP, v));
    SetCells(c, MIP, Merge(GetCell(c, MIP), v, AcceptedBits(c, SIP)));
  }

  /** A read after a write through a view returns the written value in the accepted bits and the old view elsewhere. */
  lemma ReadsBack(cfg: Config, c: Csrs, a: Addr, v: Word)
    requires CsrsOk(cfg, c) && cfg.s && (a == SSTATUS || a == SIE || a == SIP)
    ensures ReadCsr(WriteCsr(c, a, v), a) == Merge(ReadCsr(c, a), v, AcceptedBits(c, a))
  {
    hide CsrsOk, ReadCsr, WriteCsr, Merge, AcceptedBits;
    SstatusReadsBack(cfg, c, v);
    SieReadsBack(cfg, c, v);
    SipReadsBack(cfg, c, v);
  }

  /** Likewise for a CSR instruction that retires. */
  lemma InstructionReadsBack(cfg: Config, fp: F.FpUnit, h: State, i: Word)
    requires cfg.zicsr && IsCsrInstruction(i) && CsrsOk(cfg, h.csrs)
    requires var a := CsrField(i); a == SSTATUS || a == SIE || a == SIP
    requires WillWrite(Decode(i)) && ExecuteFetched(cfg, fp, h, i).trap.None?
    ensures var d := Decode(i);
      var a := CsrField(i);
      var old_ := if WillRead(d) then ReadCsr(h.csrs, a) else W(0);
      ReadCsr(ExecuteFetched(cfg, fp, h, i).h.csrs, a)
      == Merge(ReadCsr(h.csrs, a), NewValue(d.op, old_, Source(d, h.x)), AcceptedBits(h.csrs, a))
  {
    var d := Decode(i);
    var a := CsrField(i);
    assert d.csr == a;
    hide ExecuteFetched, CsrsOk, Decode, CsrField, IsCsrInstruction, ReadCsr, WriteCsr, Merge, AcceptedBits, NewValue, Source;
    hide WillRead, WillWrite, SatpBlocked, CanRead, CanWrite, SetReg;
    CsrDispatch(cfg, fp, h, i);
    if Permitted(d, h.csrs) {
      ViewExists(cfg, h.csrs, a);
      var old_ := if WillRead(d) then ReadCsr(h.csrs, a) else W(0);
      ReadsBack(cfg, h.csrs, a, NewValue(d.op, old_, Source(d, h.x)));
    }
  }
  lemma ViewExists(cfg: Config, c: Csrs, a: Addr)
    requires CsrsOk(cfg, c) && Exists(c, a) && (a == SSTATUS || a == SIE || a == SIP)
    ensures cfg.s
  {
    hide LegalCell, LegalMstatus;
  }
}
