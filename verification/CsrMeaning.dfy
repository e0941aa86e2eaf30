/** The CSR instructions from their literal encodings: when they are allowed, what they read, and each bit they write. */
module CsrMeaning {
  import opened Bits
  import opened BitNumbers
  import opened Common
  import opened Zicsr
  import opened Hart
  import opened Integers
  import opened Invariant
  import opened Supervisor
  import opened Encoding
  import opened BaseMeaning
  import F = Rv32f

  // ------------------------------------------------------------------
  // Access, by address
  // ------------------------------------------------------------------

  predicate IsShadow(a: nat) { a == 0xC00 || a == 0xC01 || a == 0xC02 || a == 0xC80 || a == 0xC81 || a == 0xC82 }

  /** The CSRs of a configuration. */
  predicate CsrExists(cfg: Config, a: nat) {
    (cfg.f && (a == 0x001 || a == 0x002 || a == 0x003)) || IsShadow(a) ||
    a == 0x300 || a == 0x301 || a == 0x304 || a == 0x305 || a == 0x306 || a == 0x310 || a == 0x30A || a == 0x31A ||
    a == 0x340 || a == 0x341 || a == 0x342 || a == 0x343 || a == 0x344 ||
    a == 0xB00 || a == 0xB02 || a == 0xB80 || a == 0xB82 || a == 0xF11 || a == 0xF12 || a == 0xF13 || a == 0xF14 || a == 0xF15 ||
    ((cfg.s || cfg.u) && (a == 0x302 || a == 0x303)) ||
    (cfg.s && (a == 0x100 || a == 0x104 || a == 0x105 || a == 0x106 || a == 0x140 || a == 0x141 || a == 0x142 || a == 0x143 ||
               a == 0x144 || a == 0x180))
  }

  /** Below M a counter is open when its bit of mcounteren is set, and in U mode under S also its bit of scounteren. */
  predicate CounterOpen(cfg: Config, c: Csrs, a: nat) {
    c.priv == MACHINE ||
    (NthBit(GetCell(c, 0x306).b, a % 32) && (c.priv == SUPERVISOR || !cfg.s || NthBit(GetCell(c, 0x106).b, a % 32)))
  }

  /**
   * Bits 9 and 8 of the address give the least privilege; addresses from 0xC00 are read-only; in S mode TVM, bit 20 of
   * mstatus, closes satp.
   */
  predicate CsrAllowed(cfg: Config, c: Csrs, a: nat, writes: bool) {
    CsrExists(cfg, a) && c.priv.Rank() >= a / 0x100 % 4 && (writes ==> a < 0xC00) && (IsShadow(a) ==> CounterOpen(cfg, c, a)) &&
    !(a == 0x180 && c.priv == SUPERVISOR && NthBit(GetCell(c, 0x300).b, 20))
  }

  lemma ExistsIs(cfg: Config, c: Csrs, a: nat)
    requires CsrsOk(cfg, c)
    ensures Exists(c, a) == CsrExists(cfg, a)
  {
    FlagsOf(cfg, c);
    assert (a in c.cells) == HasCell(cfg.s, cfg.u, a) by { hide LegalCell, HasCell; }
    hide CsrsOk;
  }
  lemma CounterIs(cfg: Config, c: Csrs, a: nat)
    requires IsShadow(a) && c.s == cfg.s
    ensures CounterReadable(c, a) == CounterOpen(cfg, c, a)
  {
    LowMasks();
    hide Bit, GetCell, NthBit, Mask;
    var k := a % 32;
    assert k == 0 || k == 1 || k == 2;
    assert MCOUNTEREN == 0x306 && SCOUNTEREN == 0x106;
    BitMeets(GetCell(c, 0x306), Mask(k));
    BitMeets(GetCell(c, 0x106), Mask(k));
    MaskReads(GetCell(c, 0x306).b, k);
    MaskReads(GetCell(c, 0x106).b, k);
  }

  lemma AllowedIs(cfg: Config, c: Csrs, d: Decoded)
    requires CsrsOk(cfg, c) && !d.op.ILLEGAL? && d.csr < 0x1000
    ensures Permitted(d, c) && !SatpBlocked(cfg, c, d.csr) <==> CsrAllowed(cfg, c, d.csr, WillWrite(d))
  {
    FlagsOf(cfg, c);
    assert MSTATUS == 0x300 && SATP == 0x180;
    hide CsrsOk, GetCell, NthBit, Bit, Exists, CsrExists, CounterReadable, CounterOpen, WillWrite;
    ExistsIs(cfg, c, d.csr);
    if IsShadow(d.csr) { CounterIs(cfg, c, d.csr); }
    SystemMasks(GetCell(c, 0x300));
    if d.csr == 0x180 && CsrExists(cfg, 0x180) { SatpIsSupervisor(cfg); }
  }
  lemma SatpIsSupervisor(cfg: Config) requires CsrExists(cfg, 0x180) ensures cfg.s {}

  // ------------------------------------------------------------------
  // Reading
  // ------------------------------------------------------------------

  function RoundingField(fcsr: Word): Word { W((fcsr.b >> 5) & 7) }
  lemma RoundingIs(fcsr: Word) ensures FrmField(fcsr) == RoundingField(fcsr) {}

  /** What a read yields: the float views of fcsr, the counter shadows, the supervisor windows, and the cell itself otherwise. */
  function CsrValue(c: Csrs, a: nat): Word {
    if a == 0x001 then Masked(GetCell(c, 0x003), 0x1F)
    else if a == 0x002 then RoundingField(GetCell(c, 0x003))
    else if a == 0xC00 || a == 0xC01 then GetCell(c, 0xB00)
    else if a == 0xC80 || a == 0xC81 then GetCell(c, 0xB80)
    else if a == 0xC02 then GetCell(c, 0xB02)
    else if a == 0xC82 then GetCell(c, 0xB82)
    else if a == 0x100 then Masked(GetCell(c, 0x300), 0x800C_6122)
    else if a == 0x104 then And(GetCell(c, 0x304), GetCell(c, 0x303))
    else if a == 0x144 then And(GetCell(c, 0x344), GetCell(c, 0x303))
    else GetCell(c, a)
  }
  lemma ValueRead(c: Csrs, a: nat)
    ensures ReadCsr(c, a) == CsrValue(c, a)
  {
    assert SSTATUS_READ_MASK == 0x800C_6122;
    hide GetCell, And, Masked, FrmField, RoundingField, SSTATUS_READ_MASK;
    RoundingIs(GetCell(c, 0x003));
  }

  // ------------------------------------------------------------------
  // Writing
  // ------------------------------------------------------------------

  /** The cell behind a CSR. */
  function CellOf(a: nat): nat {
    if a == 0x001 || a == 0x002 then 0x003 else if a == 0x100 then 0x300 else if a == 0x104 then 0x304 else if a == 0x144 then 0x344 else a
  }

  /** The bits of a CSR that take the written value, for all CSRs but mstatus and the trap vectors. */
  function AcceptedMask(cfg: Config, c: Csrs, a: nat): bv32 {
    if a == 0x001 then 0x1F
    else if a == 0x002 then 0x7
    else if a == 0x003 then 0xFF
    else if a == 0x301 || a == 0x310 || a == 0x30A || a == 0x31A then 0
    else if a == 0x302 then 0xF7FF
    else if a == 0x303 || a == 0x304 then 0xAAA
    else if a == 0x344 then (if cfg.s then 0x22A else 0x8)
    else if a == 0x341 || a == 0x141 then (if cfg.c then 0xFFFF_FFFE else 0xFFFF_FFFC)
    else if a == 0x100 then (if cfg.u then 0xC_0122 else 0x122)
    else if a == 0x104 then GetCell(c, 0x303).b
    else if a == 0x144 then GetCell(c, 0x303).b & 0x2
    else 0xFFFF_FFFF
  }

  predicate IsLegalizedByValue(a: nat) { a == 0x300 || a == 0x305 || a == 0x105 }

  lemma MergeAll(o: Word, v: Word) ensures Merge(o, v, 0xFFFF_FFFF) == v {}
  lemma MergeNone(o: Word, v: Word) ensures Merge(o, v, 0) == o {}
  lemma MergeMasked(o: Word, v: Word, mask: bv32) requires Within(o, mask) ensures Merge(o, v, mask) == Masked(v, mask) {}
  lemma MergeAligned(o: Word, v: Word, m: Word) requires And(o, m) == o ensures Merge(o, v, m.b) == And(v, m) {}
  lemma FlagsReread(o: Word, v: Word) ensures Masked(Merge(o, v, 0x1F), 0x1F) == Merge(Masked(o, 0x1F), v, 0x1F) {}
  lemma RoundingReread(o: Word, v: Word)
    ensures RoundingField(Merge(o, FrmPlaced(v), 0xE0)) == Merge(RoundingField(o), v, 7)
  {}
  lemma SatpKept(v: Word) ensures LegalizeSatp(v) == v {}

  lemma CellIsLegal(cfg: Config, c: Csrs, a: nat)
    requires CsrsOk(cfg, c) && HasCell(cfg.s, cfg.u, a)
    ensures LegalCell(cfg, a, GetCell(c, a))
  {
    hide LegalCell, HasCell;
    CellLegal(cfg, c, a);
  }
  lemma WrittenCell(c: Csrs, k: nat, v: Word)
    ensures GetCell(SetCell(c, k, v), k) == v
  {}

  predicate IsFloatCsr(a: nat) { a == 0x001 || a == 0x002 || a == 0x003 }
  lemma FloatWrites(c: Csrs, v: Word)
    ensures WriteCsr(c, 0x001, v) == SetCell(c, 0x003, Merge(GetCell(c, 0x003), v, 0x1F))
    ensures WriteCsr(c, 0x002, v) == SetCell(c, 0x003, Merge(GetCell(c, 0x003), FrmPlaced(v), 0xE0))
    ensures WriteCsr(c, 0x003, v) == SetCell(c, 0x003, Masked(v, 0xFF))
  {
    hide GetCell, SetCell, Merge, Masked, FrmPlaced;
  }
  lemma FloatRereads(cfg: Config, c: Csrs, a: nat, v: Word)
    requires CsrsOk(cfg, c) && IsFloatCsr(a)
    ensures CsrValue(WriteCsr(c, a, v), a) == Merge(CsrValue(c, a), v, AcceptedMask(cfg, c, a))
  {
    hide CsrsOk, GetCell, SetCell, Merge, Masked, Within, WriteCsr, FrmPlaced, RoundingField;
    FcsrWithin(cfg, c);
    FloatWrites(c, v);
    FlagsReread(GetCell(c, 0x003), v);
    RoundingReread(GetCell(c, 0x003), v);
    MergeMasked(GetCell(c, 0x003), v, 0xFF);
    WrittenCell(c, 0x003, Merge(GetCell(c, 0x003), v, 0x1F));
    WrittenCell(c, 0x003, Merge(GetCell(c, 0x003), FrmPlaced(v), 0xE0));
    WrittenCell(c, 0x003, Masked(v, 0xFF));
  }

  predicate IsView(a: nat) { a == 0x100 || a == 0x104 || a == 0x144 }
  lemma SupervisorMask() ensures SSTATUS_WRITE_MASK & LegalMask(true, true) == 0xC_0122 && SSTATUS_WRITE_MASK & LegalMask(true, false) == 0x122 {}
  lemma AcceptedIs(cfg: Config, c: Csrs, a: nat)
    requires CsrsOk(cfg, c) && cfg.s && IsView(a)
    ensures AcceptedBits(c, a) == AcceptedMask(cfg, c, a)
  {
    FlagsOf(cfg, c);
    SupervisorMask();
    SsipMask(GetCell(c, 0x303).b);
    hide CsrsOk, GetCell, LegalMask, SSTATUS_WRITE_MASK;
  }
  lemma SsipMask(b: bv32) ensures MI_SSI & b == b & 0x2 {}
  lemma ViewRereads(cfg: Config, c: Csrs, a: nat, v: Word)
    requires CsrsOk(cfg, c) && cfg.s && IsView(a)
    ensures CsrValue(WriteCsr(c, a, v), a) == Merge(CsrValue(c, a), v, AcceptedMask(cfg, c, a))
  {
    hide CsrsOk, CsrValue, WriteCsr, ReadCsr, Merge, AcceptedBits, AcceptedMask;
    ReadsBack(cfg, c, a, v);
    AcceptedIs(cfg, c, a);
    ValueRead(c, a);
    ValueRead(WriteCsr(c, a, v), a);
  }

  /** The cells whose writes are masked, and those that ignore them. */
  predicate IsMaskedCsr(a: nat) {
    a == 0x302 || a == 0x303 || a == 0x304 || a == 0x344 || a == 0x341 || a == 0x141
  }
  predicate IsFixedCsr(a: nat) { a == 0x301 || a == 0x310 || a == 0x30A || a == 0x31A }
  lemma MaskedLegal(cfg: Config, c: Csrs, a: nat)
    requires CsrsOk(cfg, c) && HasCell(cfg.s, cfg.u, a) && IsMaskedCsr(a) && a != 0x344
    ensures if a == 0x341 || a == 0x141 then And(GetCell(c, a), EpcMask(cfg)) == GetCell(c, a) else Within(GetCell(c, a), AcceptedMask(cfg, c, a))
  {
    CellIsLegal(cfg, c, a);
    hide CsrsOk, GetCell, Within, And, EpcMask, LegalMstatus, HasCell;
  }
  lemma MipMasks() ensures MipWritable(true) == 0x22A && MipWritable(false) == 0x8 {}
  lemma EpcMaskIs(cfg: Config) ensures EpcMask(cfg).b == if cfg.c then 0xFFFF_FFFE else 0xFFFF_FFFC {}
  lemma EpcMaskOf(cfg: Config, c: Csrs) requires CsrsOk(cfg, c) ensures c.epcMask == EpcMask(cfg) { hide LegalCell, HasCell, Implemented; }
  lemma DelegationWrites(c: Csrs, v: Word)
    ensures WriteCsr(c, 0x302, v) == SetCell(c, 0x302, Masked(v, 0xF7FF))
    ensures WriteCsr(c, 0x303, v) == SetCell(c, 0x303, Masked(v, 0xAAA))
    ensures WriteCsr(c, 0x304, v) == SetCell(c, 0x304, Masked(v, 0xAAA))
  {
    hide GetCell, SetCell, Masked;
  }
  lemma EpcWrites(c: Csrs, v: Word)
    ensures WriteCsr(c, 0x341, v) == SetCell(c, 0x341, And(v, c.epcMask)) && WriteCsr(c, 0x141, v) == SetCell(c, 0x141, And(v, c.epcMask))
    ensures WriteCsr(c, 0x344, v) == SetCell(c, 0x344, Merge(GetCell(c, 0x344), v, MipWritable(c.s)))
  {
    hide GetCell, SetCell, And, Merge, MipWritable;
  }
  lemma DelegationRereads(cfg: Config, c: Csrs, a: nat, v: Word)
    requires CsrsOk(cfg, c) && HasCell(cfg.s, cfg.u, a) && (a == 0x302 || a == 0x303 || a == 0x304)
    ensures CsrValue(WriteCsr(c, a, v), a) == Merge(CsrValue(c, a), v, AcceptedMask(cfg, c, a))
  {
    hide CsrsOk, GetCell, SetCell, Merge, Masked, Within, WriteCsr, HasCell;
    DelegationWrites(c, v);
    MaskedLegal(cfg, c, a);
    MergeMasked(GetCell(c, a), v, AcceptedMask(cfg, c, a));
    WrittenCell(c, a, Masked(v, AcceptedMask(cfg, c, a)));
  }
  lemma EpcRereads(cfg: Config, c: Csrs, a: nat, v: Word)
    requires CsrsOk(cfg, c) && HasCell(cfg.s, cfg.u, a) && (a == 0x341 || a == 0x141)
    ensures CsrValue(WriteCsr(c, a, v), a) == Merge(CsrValue(c, a), v, AcceptedMask(cfg, c, a))
  {
    hide CsrsOk, GetCell, SetCell, And, Merge, WriteCsr, HasCell, EpcMask;
    EpcMaskOf(cfg, c);
    EpcMaskIs(cfg);
    EpcWrites(c, v);
    MaskedLegal(cfg, c, a);
    MergeAligned(GetCell(c, a), v, EpcMask(cfg));
    WrittenCell(c, a, And(v, EpcMask(cfg)));
  }
  lemma MipRereads(cfg: Config, c: Csrs, v: Word)
    requires CsrsOk(cfg, c)
    ensures CsrValue(WriteCsr(c, 0x344, v), 0x344) == Merge(CsrValue(c, 0x344), v, AcceptedMask(cfg, c, 0x344))
  {
    FlagsOf(cfg, c);
    hide CsrsOk, GetCell, SetCell, Merge, WriteCsr, MipWritable;
    MipMasks();
    EpcWrites(c, v);
    WrittenCell(c, 0x344, Merge(GetCell(c, 0x344), v, MipWritable(c.s)));
  }

  predicate IsPlain(a: nat) { !IsFloatCsr(a) && !IsView(a) && !IsMaskedCsr(a) && !IsFixedCsr(a) && !IsLegalizedByValue(a) && !IsShadow(a) }
  lemma PlainWrites(c: Csrs, a: nat, v: Word)
    ensures IsPlain(a) ==> WriteCsr(c, a, v) == SetCell(c, a, v)
    ensures IsFixedCsr(a) ==> WriteCsr(c, a, v) == c
  {
    SatpKept(v);
    hide GetCell, SetCell, LegalizeSatp;
  }
  lemma PlainRereads(cfg: Config, c: Csrs, a: nat, v: Word)
    requires IsPlain(a) || IsFixedCsr(a)
    ensures CsrValue(WriteCsr(c, a, v), a) == Merge(CsrValue(c, a), v, AcceptedMask(cfg, c, a))
  {
    hide GetCell, SetCell, Merge, WriteCsr;
    PlainWrites(c, a, v);
    MergeAll(GetCell(c, a), v);
    MergeNone(GetCell(c, a), v);
    WrittenCell(c, a, v);
  }

  /** A CSR read after a write holds the written value in its accepted bits and the old value elsewhere. */
  lemma Rereads(cfg: Config, c: Csrs, a: nat, v: Word)
    requires CsrsOk(cfg, c) && CsrExists(cfg, a) && a < 0xC00 && !IsLegalizedByValue(a)
    ensures CsrValue(WriteCsr(c, a, v), a) == Merge(CsrValue(c, a), v, AcceptedMask(cfg, c, a))
  {
    WhereCells(cfg, a);
    hide CsrsOk, CsrExists, CsrValue, WriteCsr, Merge, AcceptedMask, HasCell;
    if IsFloatCsr(a) {
      FloatRereads(cfg, c, a, v);
    } else if IsView(a) {
      ViewRereads(cfg, c, a, v);
    } else if a == 0x344 {
      MipRereads(cfg, c, v);
    } else if a == 0x341 || a == 0x141 {
      EpcRereads(cfg, c, a, v);
    } else if IsMaskedCsr(a) {
      DelegationRereads(cfg, c, a, v);
    } else {
      PlainRereads(cfg, c, a, v);
    }
  }
  lemma WhereCells(cfg: Config, a: nat)
    requires CsrExists(cfg, a) && a < 0xC00
    ensures IsView(a) ==> cfg.s
    ensures IsMaskedCsr(a) || IsLegalizedByValue(a) ==> HasCell(cfg.s, cfg.u, a)
    ensures !IsShadow(a)
  {}

  // ------------------------------------------------------------------
  // mstatus and the trap vectors
  // ------------------------------------------------------------------

  /** The fields of mstatus that a configuration has, without MPP. */
  predicate IsField(cfg: Config, k: nat) {
    k == 3 || k == 7 || (cfg.s && (k == 1 || k == 5 || k == 8 || k == 20 || k == 22)) || (cfg.u && (k == 17 || k == 19)) ||
    (cfg.s && cfg.u && (k == 18 || k == 21))
  }
  /**
   * mstatus after v is written: implemented fields take v's bits, an unimplemented MPP becomes M, FS and SD tell whether F is
   * there, and every other bit is zero.
   */
  ghost predicate StatusWritten(cfg: Config, v: bv32, ms: bv32) {
    hide NthBit;
    var implemented := if NthBit(v, 12) then NthBit(v, 11) else if NthBit(v, 11) then cfg.s else cfg.u;
    (forall k: nat :: k < 32 && k != 11 && k != 12 && k != 13 && k != 14 && k != 31 ==> NthBit(ms, k) == (IsField(cfg, k) && NthBit(v, k))) &&
    NthBit(ms, 11) == (!implemented || NthBit(v, 11)) && NthBit(ms, 12) == (!implemented || NthBit(v, 12)) &&
    NthBit(ms, 13) == cfg.f && NthBit(ms, 14) == cfg.f && NthBit(ms, 31) == cfg.f
  }
  /** A trap vector after v is written: v, but direct mode in place of a reserved one. */
  ghost predicate VectorWritten(v: bv32, tvec: bv32) {
    hide NthBit;
    forall k: nat :: k < 32 ==> NthBit(tvec, k) == (NthBit(v, k) && (k < 2 ==> !NthBit(v, 1)))
  }

  lemma TvecBits(v: Word)
    ensures LegalizeTvec(v).b == if Meets(v.b, 2) then Both(v.b, 0xFFFF_FFFC) else v.b
  {
    TvecMode(v.b);
    TvecCleared(v.b);
    hide Meets, Both;
  }
  lemma TvecMode(b: bv32) ensures b & 3 > 1 <==> Meets(b, 2) {}
  lemma TvecCleared(b: bv32) ensures b & !3 == Both(b, 0xFFFF_FFFC) {}
  lemma ClearTwoBits(k: nat)
    requires k < 32
    ensures NthBit(0xFFFF_FFFC, k) == (k >= 2)
  {
    TwoOnes();
    hide *;
    LowMasks();
    EitherBit(Mask(0), Mask(1), k);
    MaskBits(0, k);
    MaskBits(1, k);
    CompBit(Either(Mask(0), Mask(1)), k);
  }
  lemma TwoOnes() ensures Comp(Either(1, 2)) == 0xFFFF_FFFC {}
  lemma TvecWritten(v: Word)
    ensures VectorWritten(v.b, LegalizeTvec(v).b)
  {
    hide *;
    TvecBits(v);
    LowMasks();
    MaskReads(v.b, 1);
    forall k: nat | k < 32 ensures NthBit(LegalizeTvec(v).b, k) == (NthBit(v.b, k) && (k < 2 ==> !NthBit(v.b, 1))) {
      BothBit(v.b, 0xFFFF_FFFC, k);
      ClearTwoBits(k);
    }
    VectorIs(v.b, LegalizeTvec(v).b);
  }
  lemma VectorIs(v: bv32, t: bv32)
    requires forall k: nat :: k < 32 ==> NthBit(t, k) == (NthBit(v, k) && (k < 2 ==> !NthBit(v, 1)))
    ensures VectorWritten(v, t)
  {
    hide NthBit;
  }

  // The bits of mstatus that do not follow the written bit of the same number.
  function Special(): bv32 { Either(Either(Either(0x800, 0x1000), Either(0x2000, 0x4000)), TOP) }
  function MachineFields(): bv32 { Either(0x8, 0x80) }
  function SupervisorFields(): bv32 { Either(Either(Either(0x2, 0x20), 0x100), Either(0x10_0000, 0x40_0000)) }
  function UserFields(): bv32 { Either(0x2_0000, 0x8_0000) }
  function BothFields(): bv32 { Either(0x4_0000, 0x20_0000) }
  function FieldMask(s: bool, u: bool): bv32 {
    Either(Either(MachineFields(), if s then SupervisorFields() else 0), Either(if u then UserFields() else 0, if s && u then BothFields() else 0))
  }

  lemma SpecialBits(k: nat)
    requires k < 32
    ensures NthBit(Special(), k) == (k == 11 || k == 12 || k == 13 || k == 14 || k == 31)
  {
    assert Special() == Either(Either(Either(0x800, 0x1000), Either(0x2000, 0x4000)), TOP);
    hide *;
    LowMasks();
    HighMasks();
    MaskBits(11, k);
    MaskBits(12, k);
    MaskBits(13, k);
    MaskBits(14, k);
    TopIsMask();
    OnlyBit(TOP, 31, k);
    EitherBit(0x800, 0x1000, k);
    EitherBit(0x2000, 0x4000, k);
    EitherBit(Either(0x800, 0x1000), Either(0x2000, 0x4000), k);
    EitherBit(Either(Either(0x800, 0x1000), Either(0x2000, 0x4000)), TOP, k);
  }
  lemma MachineBits(k: nat)
    requires k < 32
    ensures NthBit(MachineFields(), k) == (k == 3 || k == 7)
    ensures NthBit(UserFields(), k) == (k == 17 || k == 19)
    ensures NthBit(BothFields(), k) == (k == 18 || k == 21)
  {
    assert MachineFields() == Either(0x8, 0x80) && UserFields() == Either(0x2_0000, 0x8_0000) && BothFields() == Either(0x4_0000, 0x20_0000);
    hide *;
    LowMasks();
    HighMasks();
    MaskBits(3, k);
    MaskBits(7, k);
    MaskBits(17, k);
    MaskBits(18, k);
    MaskBits(19, k);
    MaskBits(21, k);
    EitherBit(0x8, 0x80, k);
    EitherBit(0x2_0000, 0x8_0000, k);
    EitherBit(0x4_0000, 0x20_0000, k);
  }
  lemma SupervisorFieldBits(k: nat)
    requires k < 32
    ensures NthBit(SupervisorFields(), k) == (k == 1 || k == 5 || k == 8 || k == 20 || k == 22)
  {
    assert SupervisorFields() == Either(Either(Either(0x2, 0x20), 0x100), Either(0x10_0000, 0x40_0000));
    hide *;
    LowMasks();
    HighMasks();
    MaskBits(1, k);
    MaskBits(5, k);
    MaskBits(8, k);
    MaskBits(20, k);
    MaskBits(22, k);
    EitherBit(0x2, 0x20, k);
    EitherBit(Either(0x2, 0x20), 0x100, k);
    EitherBit(0x10_0000, 0x40_0000, k);
    EitherBit(Either(Either(0x2, 0x20), 0x100), Either(0x10_0000, 0x40_0000), k);
  }
  lemma FieldMaskIs(s: bool, u: bool)
    ensures FieldMask(s, u) == Either(Either(MachineFields(), if s then SupervisorFields() else 0),
                                      Either(if u then UserFields() else 0, if s && u then BothFields() else 0))
  {
    hide Either, MachineFields, SupervisorFields, UserFields, BothFields;
  }
  lemma FieldBits(cfg: Config, k: nat)
    requires k < 32
    ensures NthBit(FieldMask(cfg.s, cfg.u), k) == IsField(cfg, k)
  {
    assert IsField(cfg, k) == (k == 3 || k == 7 || (cfg.s && (k == 1 || k == 5 || k == 8 || k == 20 || k == 22)) || (cfg.u && (k == 17 || k == 19)) ||
      (cfg.s && cfg.u && (k == 18 || k == 21)));
    hide *;
    var ss := if cfg.s then SupervisorFields() else 0;
    var uu := if cfg.u then UserFields() else 0;
    var su := if cfg.s && cfg.u then BothFields() else 0;
    FieldMaskIs(cfg.s, cfg.u);
    ZeroBits(k);
    MachineBits(k);
    SupervisorFieldBits(k);
    EitherBit(MachineFields(), ss, k);
    EitherBit(uu, su, k);
    EitherBit(Either(MachineFields(), ss), Either(uu, su), k);
  }

  lemma PlainFields(f: bool, s: bool, u: bool, v: Word)
    ensures Both(LegalizeMstatus(f, s, u, v).b, Comp(Special())) == Both(v.b, FieldMask(s, u))
  {}
  lemma MppWritten(f: bool, s: bool, u: bool, v: Word)
    ensures var implemented := if Meets(v.b, 0x1000) then Meets(v.b, 0x800) else if Meets(v.b, 0x800) then s else u;
      Meets(LegalizeMstatus(f, s, u, v).b, 0x800) == (!implemented || Meets(v.b, 0x800)) &&
      Meets(LegalizeMstatus(f, s, u, v).b, 0x1000) == (!implemented || Meets(v.b, 0x1000))
  {}
  lemma FloatFields(f: bool, s: bool, u: bool, v: Word)
    ensures Meets(LegalizeMstatus(f, s, u, v).b, 0x2000) == f && Meets(LegalizeMstatus(f, s, u, v).b, 0x4000) == f && HasTop(LegalizeMstatus(f, s, u, v).b) == f
  {}

  lemma StatusBits(cfg: Config, v: bv32, ms: bv32)
    requires Both(ms, Comp(Special())) == Both(v, FieldMask(cfg.s, cfg.u))
    ensures forall k: nat :: k < 32 && k != 11 && k != 12 && k != 13 && k != 14 && k != 31 ==> NthBit(ms, k) == (IsField(cfg, k) && NthBit(v, k))
  {
    hide *;
    forall k: nat | k < 32 && k != 11 && k != 12 && k != 13 && k != 14 && k != 31
      ensures NthBit(ms, k) == (IsField(cfg, k) && NthBit(v, k))
    {
      BothBit(ms, Comp(Special()), k);
      CompBit(Special(), k);
      SpecialBits(k);
      BothBit(v, FieldMask(cfg.s, cfg.u), k);
      FieldBits(cfg, k);
    }
  }
  lemma MstatusWritten(cfg: Config, v: Word)
    ensures StatusWritten(cfg, v.b, LegalizeMstatus(cfg.f, cfg.s, cfg.u, v).b)
  {
    hide NthBit, LegalizeMstatus, Meets, IsField, Special, FieldMask, Comp, Both, HasTop, Mask;
    var ms := LegalizeMstatus(cfg.f, cfg.s, cfg.u, v);
    PlainFields(cfg.f, cfg.s, cfg.u, v);
    MppWritten(cfg.f, cfg.s, cfg.u, v);
    FloatFields(cfg.f, cfg.s, cfg.u, v);
    StatusBits(cfg, v.b, ms.b);
    LowMasks();
    HighMasks();
    MaskReads(v.b, 11);
    MaskReads(v.b, 12);
    MaskReads(ms.b, 11);
    MaskReads(ms.b, 12);
    MaskReads(ms.b, 13);
    MaskReads(ms.b, 14);
    TopBit(ms.b);
  }

  // ------------------------------------------------------------------
  // The instructions
  // ------------------------------------------------------------------

  function CsrFunct3(op: InstrType): bv3 {
    match op case CSRRW => 1 case CSRRS => 2 case CSRRC => 3 case CSRRWI => 5 case CSRRSI => 6 case CSRRCI => 7 case ILLEGAL => 0
  }
  function CsrWord(op: InstrType, rd: bv5, rs1: bv5, csr: bv12): Word { ImmediateWord(csr, rs1, CsrFunct3(op), rd, 0x73) }

  predicate TakesRegister(op: InstrType) { op.CSRRW? || op.CSRRS? || op.CSRRC? }
  predicate Replaces(op: InstrType) { op.CSRRW? || op.CSRRWI? }

  /** The bit an instruction writes over an old bit: the source bit, or the old one set or cleared by it. */
  function Chosen(op: InstrType, old_: bool, src: bool): bool {
    match op case CSRRW | CSRRWI => src case CSRRS | CSRRSI => old_ || src case _ => old_ && !src
  }

  lemma Funct12Is(imm: bv12, rs1: bv5, f3: bv3, rd: bv5, op: bv7) ensures Funct12(ImmediateWord(imm, rs1, f3, rd, op)) == imm {}
  lemma CsrDecodes(op: InstrType, rd: bv5, rs1: bv5, csr: bv12)
    requires !op.ILLEGAL?
    ensures var w := CsrWord(op, rd, rs1, csr);
      IsCsrInstruction(w) && Decode(w) == Decoded(op, Reg(rd), Reg(rs1), csr as nat, w)
  {
    hide ImmediateWord, Opcode, Funct3, Funct12, Rd, Rs1, Reg;
    ImmediateFields(csr, rs1, CsrFunct3(op), rd, 0x73);
    Funct12Is(csr, rs1, CsrFunct3(op), rd, 0x73);
  }

  lemma NewBit(op: InstrType, old_: Word, src: Word, k: nat)
    requires k < 32 && !op.ILLEGAL?
    ensures NthBit(NewValue(op, old_, src).b, k) == Chosen(op, NthBit(old_.b, k), NthBit(src.b, k))
  {
    NewValueIs(op, old_, src);
    assert forall o, s :: Chosen(op, o, s) == match op case CSRRW | CSRRWI => s case CSRRS | CSRRSI => o || s case _ => o && !s;
    hide *;
    BitwiseResult(old_, src, k);
    BitwiseResult(old_, Not(src), k);
    NotIs(src);
    CompBit(src.b, k);
  }
  lemma NewValueIs(op: InstrType, old_: Word, src: Word)
    ensures NewValue(op, old_, src) == match op case CSRRS | CSRRSI => Or(old_, src) case CSRRC | CSRRCI => And(old_, Not(src)) case _ => src
  {
    hide Or, And, Not;
  }
  lemma MergeBit(o: Word, v: Word, mask: bv32, k: nat)
    requires k < 32
    ensures NthBit(Merge(o, v, mask).b, k) == if NthBit(mask, k) then NthBit(v.b, k) else NthBit(o.b, k)
  {
    MergeIs(o, v, mask);
    hide *;
    EitherBit(Both(o.b, Comp(mask)), Both(v.b, mask), k);
    BothBit(o.b, Comp(mask), k);
    BothBit(v.b, mask, k);
    CompBit(mask, k);
  }
  lemma MergeIs(o: Word, v: Word, mask: bv32)
    ensures Merge(o, v, mask).b == Either(Both(o.b, Comp(mask)), Both(v.b, mask))
  {
    hide Either, Both, Comp;
  }

  /** The bits of the word the instruction combines from the old value and the source. */
  ghost predicate Combined(op: InstrType, old_: Word, src: Word, v: Word) {
    hide NthBit;
    forall k: nat :: k < 32 ==> NthBit(v.b, k) == Chosen(op, NthBit(old_.b, k), NthBit(src.b, k))
  }

  /** The bits of the cell behind a view that a write through the view may change. */
  function Window(cfg: Config, c: Csrs, a: nat): bv32 { if a == 0x002 then 0xE0 else AcceptedMask(cfg, c, a) }

  /** A write through a view leaves the rest of its cell alone. */
  ghost predicate KeepsRest(cfg: Config, c: Csrs, a: nat, c': Csrs) {
    hide NthBit, AcceptedMask;
    CellOf(a) != a ==>
      forall k: nat :: k < 32 && !NthBit(Window(cfg, c, a), k) ==> NthBit(GetCell(c', CellOf(a)).b, k) == NthBit(GetCell(c, CellOf(a)).b, k)
  }
  lemma SameOutsideIs(v: Word, v': Word, mask: bv32)
    requires SameOutside(v, v', mask)
    ensures Both(Difference(v.b, v'.b), Comp(mask)) == 0
  {}
  lemma SameOutsideBit(v: Word, v': Word, mask: bv32, k: nat)
    requires SameOutside(v, v', mask) && k < 32 && !NthBit(mask, k)
    ensures NthBit(v'.b, k) == NthBit(v.b, k)
  {
    hide *;
    SameOutsideIs(v, v', mask);
    BothBit(Difference(v.b, v'.b), Comp(mask), k);
    DifferenceBit(v.b, v'.b, k);
    CompBit(mask, k);
    ZeroBits(k);
  }
  lemma CellEffect(c: Csrs, a: nat, v: Word)
    ensures var w := Legalize(c, a, v); WriteCsr(c, a, v) == if w.Cell? then SetCell(c, w.a, w.v) else c
  {
    hide Legalize, SetCell;
  }
  lemma AllOutside(v: Word, v': Word, mask: bv32)
    requires SameOutside(v, v', mask)
    ensures forall k: nat :: k < 32 && !NthBit(mask, k) ==> NthBit(v'.b, k) == NthBit(v.b, k)
  {
    hide *;
    forall k: nat | k < 32 && !NthBit(mask, k) ensures NthBit(v'.b, k) == NthBit(v.b, k) {
      SameOutsideBit(v, v', mask, k);
    }
  }
  lemma WindowIs(cfg: Config, c: Csrs, a: nat)
    requires CsrsOk(cfg, c) && cfg.s && IsView(a)
    ensures Window(cfg, c, a) == AcceptedBits(c, a)
  {
    hide CsrsOk, AcceptedBits, AcceptedMask;
    AcceptedIs(cfg, c, a);
  }
  lemma ViewKeepsRest(cfg: Config, c: Csrs, a: nat, v: Word)
    requires CsrsOk(cfg, c) && cfg.s && IsView(a)
    ensures KeepsRest(cfg, c, a, WriteCsr(c, a, v))
  {
    hide CsrsOk, GetCell, SetCell, Legalize, WriteCsr, AcceptedBits, SameOutside, NthBit, CellOf, Window, IsView;
    var w := Legalize(c, a, v);
    ViewAddress(a);
    WindowEffect(cfg, c, a, v);
    LegalizesCell(c, a, v);
    CellEffect(c, a, v);
    WindowIs(cfg, c, a);
    if w.Cell? {
      WrittenCell(c, w.a, w.v);
      AllOutside(GetCell(c, w.a), w.v, AcceptedBits(c, a));
    }
  }
  lemma ViewAddress(a: nat) requires IsView(a) ensures a == 0x100 || a == 0x104 || a == 0x144 {}
  lemma FloatKeepsRest(cfg: Config, c: Csrs, a: nat, v: Word)
    requires a == 0x001 || a == 0x002
    ensures KeepsRest(cfg, c, a, WriteCsr(c, a, v))
  {
    hide GetCell, SetCell, WriteCsr, Merge, FrmPlaced, NthBit;
    var mask := if a == 0x001 then 0x1F else 0xE0;
    var u := if a == 0x001 then v else FrmPlaced(v);
    var o := GetCell(c, 0x003);
    FloatWrites(c, v);
    WrittenCell(c, 0x003, Merge(o, u, mask));
    forall k: nat | k < 32 && !NthBit(mask, k) ensures NthBit(Merge(o, u, mask).b, k) == NthBit(o.b, k) {
      MergeBit(o, u, mask, k);
    }
  }
  lemma WriteKeepsRest(cfg: Config, c: Csrs, a: nat, v: Word)
    requires CsrsOk(cfg, c) && CsrExists(cfg, a) && a < 0xC00
    ensures KeepsRest(cfg, c, a, WriteCsr(c, a, v))
  {
    WhereCells(cfg, a);
    assert CellOf(a) != a ==> a == 0x001 || a == 0x002 || IsView(a);
    if CellOf(a) != a {
      hide CsrsOk, CsrExists, KeepsRest, WriteCsr;
      if IsView(a) { ViewKeepsRest(cfg, c, a, v); } else { FloatKeepsRest(cfg, c, a, v); }
    }
  }

  /**
   * c' is c after the instruction: the accepted bits read back as the combined value and the others as before, mstatus and the
   * trap vectors hold the legal value nearest to it, and no other cell changes.
   */
  ghost predicate CsrWritten(cfg: Config, c: Csrs, a: nat, op: InstrType, src: Word, c': Csrs) {
    hide NthBit, CsrValue, AcceptedMask, KeepsRest;
    (if IsLegalizedByValue(a) then
       exists v :: Combined(op, GetCell(c, a), src, v) &&
                   if a == 0x300 then StatusWritten(cfg, v.b, GetCell(c', a).b) else VectorWritten(v.b, GetCell(c', a).b)
     else
       forall k: nat :: k < 32 ==>
         NthBit(CsrValue(c', a).b, k) ==
         if NthBit(AcceptedMask(cfg, c, a), k) then Chosen(op, NthBit(CsrValue(c, a).b, k), NthBit(src.b, k)) else NthBit(CsrValue(c, a).b, k)) &&
    KeepsRest(cfg, c, a, c') && c'.priv == c.priv && forall b :: b != CellOf(a) ==> GetCell(c', b) == GetCell(c, b)
  }

  lemma CombinedIs(op: InstrType, old_: Word, src: Word)
    requires !op.ILLEGAL?
    ensures Combined(op, old_, src, NewValue(op, old_, src))
  {
    hide NthBit, NewValue, Chosen;
    forall k: nat | k < 32 ensures NthBit(NewValue(op, old_, src).b, k) == Chosen(op, NthBit(old_.b, k), NthBit(src.b, k)) {
      NewBit(op, old_, src, k);
    }
  }

  lemma OnlyCell(c: Csrs, a: nat, v: Word)
    ensures var c' := WriteCsr(c, a, v); c'.priv == c.priv && forall b :: b != CellOf(a) ==> GetCell(c', b) == GetCell(c, b)
  {
    LegalizesCell(c, a, v);
    hide Legalize, CellOf;
  }
  lemma LegalizesCell(c: Csrs, a: nat, v: Word)
    ensures Legalize(c, a, v).Cell? ==> Legalize(c, a, v).a == CellOf(a)
  {
    hide GetCell, Merge, LegalizeMstatus, WriteSstatus, LegalizeTvec, LegalizeSatp, WriteSie, And, MipWritable, Masked, FrmPlaced;
  }
  lemma LegalizedWrites(c: Csrs, v: Word)
    ensures WriteCsr(c, 0x300, v) == SetCell(c, 0x300, LegalizeMstatus(c.f, c.s, c.u, v))
    ensures WriteCsr(c, 0x305, v) == SetCell(c, 0x305, LegalizeTvec(v)) && WriteCsr(c, 0x105, v) == SetCell(c, 0x105, LegalizeTvec(v))
  {
    hide SetCell, LegalizeMstatus, LegalizeTvec;
  }

  lemma WritesLegalized(cfg: Config, c: Csrs, a: nat, op: InstrType, src: Word)
    requires CsrsOk(cfg, c) && CsrExists(cfg, a) && IsLegalizedByValue(a) && !op.ILLEGAL?
    ensures CsrWritten(cfg, c, a, op, src, WriteCsr(c, a, NewValue(op, GetCell(c, a), src)))
  {
    FlagsOf(cfg, c);
    hide CsrsOk, GetCell, SetCell, WriteCsr, NewValue, Combined, StatusWritten, VectorWritten, LegalizeMstatus;
    hide LegalizeTvec, CellOf, CsrExists, KeepsRest;
    var v := NewValue(op, GetCell(c, a), src);
    CombinedIs(op, GetCell(c, a), src);
    OnlyCell(c, a, v);
    WriteKeepsRest(cfg, c, a, v);
    LegalizedWrites(c, v);
    MstatusWritten(cfg, v);
    TvecWritten(v);
    WrittenCell(c, a, LegalizeMstatus(c.f, c.s, c.u, v));
    WrittenCell(c, a, LegalizeTvec(v));
  }
  lemma WritesMasked(cfg: Config, c: Csrs, a: nat, op: InstrType, src: Word)
    requires CsrsOk(cfg, c) && CsrExists(cfg, a) && a < 0xC00 && !IsLegalizedByValue(a) && !op.ILLEGAL?
    ensures CsrWritten(cfg, c, a, op, src, WriteCsr(c, a, NewValue(op, CsrValue(c, a), src)))
  {
    hide CsrsOk, CsrExists, GetCell, WriteCsr, NewValue, CsrValue, AcceptedMask, Merge, Chosen, NthBit, CellOf, KeepsRest;
    var o := CsrValue(c, a);
    var v := NewValue(op, o, src);
    OnlyCell(c, a, v);
    WriteKeepsRest(cfg, c, a, v);
    Rereads(cfg, c, a, v);
    forall k: nat | k < 32
      ensures NthBit(Merge(o, v, AcceptedMask(cfg, c, a)).b, k) ==
        if NthBit(AcceptedMask(cfg, c, a), k) then Chosen(op, NthBit(o.b, k), NthBit(src.b, k)) else NthBit(o.b, k)
    {
      MergeBit(o, v, AcceptedMask(cfg, c, a), k);
      NewBit(op, o, src, k);
    }
  }
  lemma Writes(cfg: Config, c: Csrs, a: nat, op: InstrType, old_: Word, src: Word)
    requires CsrsOk(cfg, c) && CsrExists(cfg, a) && a < 0xC00 && !op.ILLEGAL?
    requires Replaces(op) || old_ == CsrValue(c, a)
    ensures CsrWritten(cfg, c, a, op, src, WriteCsr(c, a, NewValue(op, old_, src)))
  {
    if Replaces(op) { assert NewValue(op, old_, src) == NewValue(op, CsrValue(c, a), src); }
    if IsLegalizedByValue(a) { assert CsrValue(c, a) == GetCell(c, a); }
    hide CsrsOk, CsrExists, GetCell, WriteCsr, NewValue, CsrValue, CsrWritten;
    if IsLegalizedByValue(a) {
      WritesLegalized(cfg, c, a, op, src);
    } else {
      WritesMasked(cfg, c, a, op, src);
    }
  }

  /** The instruction retires: rd receives the old value, and the CSR is written unless a set or clear names no bits. */
  ghost predicate CsrDone(cfg: Config, h: State, op: InstrType, a: nat, src: Word, writes: bool, rd: bv5, e: Exec) {
    hide CsrWritten, CsrValue;
    Puts(h.(csrs := e.h.csrs), rd, CsrValue(h.csrs, a), e) &&
    if writes then CsrWritten(cfg, h.csrs, a, op, src, e.h.csrs) else e.h.csrs == h.csrs
  }

  lemma NoRegister(x: Regs, v: Word)
    ensures SetReg(x, Reg(0), v) == x
  {
    assert Reg(0) == W(0);
    assert Index(W(0)) == 0;
  }
  lemma RegIsZero(r: bv5) ensures (Reg(r) == W(0)) == (r == 0) {}

  lemma CsrRuns(cfg: Config, h: State, w: Word, d: Decoded, rd: bv5)
    requires CsrsOk(cfg, h.csrs) && Decode(w) == d && !d.op.ILLEGAL? && d.csr < 0x1000 && d.rd == Reg(rd) && d.raw == w
    ensures var e := RunCsr(cfg, h, w);
      if CsrAllowed(cfg, h.csrs, d.csr, WillWrite(d)) then CsrDone(cfg, h, d.op, d.csr, Source(d, h.x), WillWrite(d), rd, e)
      else Raised(h, W(2), w, e)
  {
    hide CsrsOk, Decode, CsrAllowed, Permitted, SatpBlocked, ReadCsr, WriteCsr, CsrValue, CsrWritten, SetReg, Source;
    hide NewValue, Add, Reg, WillWrite;
    AllowedIs(cfg, h.csrs, d);
    if CsrAllowed(cfg, h.csrs, d.csr, WillWrite(d)) {
      ValueRead(h.csrs, d.csr);
      AllowedMeans(cfg, h.csrs, d.csr, WillWrite(d));
      var value := if WillRead(d) then ReadCsr(h.csrs, d.csr) else W(0);
      ReadsUnless(d, rd);
      if !WillRead(d) {
        NoRegister(h.x, CsrValue(h.csrs, d.csr));
        NoRegister(h.x, W(0));
      }
      if WillWrite(d) {
        Writes(cfg, h.csrs, d.csr, d.op, value, Source(d, h.x));
      }
    }
  }
  lemma AllowedMeans(cfg: Config, c: Csrs, a: nat, writes: bool)
    requires CsrAllowed(cfg, c, a, writes)
    ensures CsrExists(cfg, a) && (writes ==> a < 0xC00)
  {
    hide CsrExists, CounterOpen, IsShadow, NthBit;
  }
  lemma ReadsUnless(d: Decoded, rd: bv5)
    requires d.rd == Reg(rd)
    ensures !WillRead(d) ==> rd == 0 && Replaces(d.op)
  {
    RegIsZero(rd);
    hide Reg;
  }

  /**
   * A CSR instruction retires exactly when the access is allowed, reads the old value into rd and writes each accepted bit as
   * its funct3 says; otherwise it raises an illegal-instruction exception and has no other effect.
   */
  lemma CsrStep(cfg: Config, fp: F.FpUnit, h: State, op: InstrType, rd: bv5, rs1: bv5, csr: bv12)
    requires cfg.zicsr && CsrsOk(cfg, h.csrs) && !op.ILLEGAL?
    ensures var a := csr as nat;
      var e := ExecuteFetched(cfg, fp, h, CsrWord(op, rd, rs1, csr));
      var src := if TakesRegister(op) then GetReg(h.x, Reg(rs1)) else Reg(rs1);
      var writes := Replaces(op) || rs1 != 0;
      if CsrAllowed(cfg, h.csrs, a, writes) then CsrDone(cfg, h, op, a, src, writes, rd, e) else Raised(h, W(2), CsrWord(op, rd, rs1, csr), e)
  {
    hide CsrWord, Decode, ExecuteFetched, RunCsr, CsrsOk, CsrAllowed, CsrDone, GetReg, Reg, Raised, IsCsrInstruction;
    var w := CsrWord(op, rd, rs1, csr);
    CsrDecodes(op, rd, rs1, csr);
    CsrDispatch(cfg, fp, h, w);
    RegIsZero(rs1);
    CsrRuns(cfg, h, w, Decode(w), rd);
  }

  // ------------------------------------------------------------------
  // Reset
  // ------------------------------------------------------------------

  /** Bits of misa: MXL 1, I, and the letters of the configured extensions. */
  predicate MisaBit(cfg: Config, k: nat) {
    k == 30 || k == 8 || (k == 0 && cfg.a) || (k == 2 && cfg.c) || (k == 5 && cfg.f) || (k == 12 && cfg.m) ||
    (k == 18 && cfg.s) || (k == 20 && cfg.u)
  }
  lemma TopHalves() ensures Half(TOP) == 0x4000_0000 {}
  lemma Bit30(k: nat)
    ensures NthBit(0x4000_0000, k) == (k == 30)
  {
    hide *;
    TopHalves();
    TopIsMask();
    OnlyBit(TOP, 31, k + 1);
    NthStep(TOP, k + 1);
  }
  function Letter(on: bool, n: nat): bv32 { if on then Mask(n) else 0 }
  function Letters(x: bool, i: nat, y: bool, j: nat): bv32 { Either(Letter(x, i), Letter(y, j)) }
  lemma LetterBit(on: bool, n: nat, k: nat)
    requires n < 32
    ensures NthBit(Letter(on, n), k) == (on && k == n)
  {
    hide NthBit, Mask;
    MaskBits(n, k);
    ZeroBits(k);
  }
  lemma LetterBits(x: bool, i: nat, y: bool, j: nat, k: nat)
    requires i < 32 && j < 32
    ensures NthBit(Letters(x, i, y, j), k) == ((x && k == i) || (y && k == j))
  {
    hide NthBit, Letter, Either;
    LetterBit(x, i, k);
    LetterBit(y, j, k);
    EitherBit(Letter(x, i), Letter(y, j), k);
  }
  lemma MisaParts(cfg: Config)
    ensures MisaValue(cfg).b == Either(Either(Either(0x4000_0000, 0x100), Letters(cfg.a, 0, cfg.c, 2)),
                                       Either(Letters(cfg.f, 5, cfg.m, 12), Letters(cfg.s, 18, cfg.u, 20)))
  {
    hide Either, Mask;
    LowMasks();
    HighMasks();
  }
  lemma BaseLetters(k: nat)
    ensures NthBit(Either(0x4000_0000, 0x100), k) == (k == 30 || k == 8)
  {
    hide *;
    LowMasks();
    Bit30(k);
    MaskBits(8, k);
    EitherBit(0x4000_0000, 0x100, k);
  }
  lemma MisaIs(cfg: Config, k: nat)
    ensures NthBit(MisaValue(cfg).b, k) == MisaBit(cfg, k)
  {
    hide NthBit, Either, Letters, MisaValue;
    var p := Either(0x4000_0000, 0x100);
    var q := Letters(cfg.a, 0, cfg.c, 2);
    var r := Letters(cfg.f, 5, cfg.m, 12);
    var t := Letters(cfg.s, 18, cfg.u, 20);
    MisaParts(cfg);
    BaseLetters(k);
    LetterBits(cfg.a, 0, cfg.c, 2, k);
    LetterBits(cfg.f, 5, cfg.m, 12, k);
    LetterBits(cfg.s, 18, cfg.u, 20, k);
    EitherBit(p, q, k);
    EitherBit(r, t, k);
    EitherBit(Either(p, q), Either(r, t), k);
  }

  lemma ResetCells(cfg: Config, a: nat)
    ensures GetCell(ResetCsrs(cfg), a) ==
      if a == 0x301 then MisaValue(cfg) else if a == 0x305 then LegalizeTvec(cfg.mtvecReset)
      else if a == 0x300 then W(if cfg.f then 0x8000_7800 else 0x1800) else W(0)
  {
    assert HasCell(cfg.s, cfg.u, 0x300);
    ResetStatus(cfg);
    hide InitialCells, HasCell, MisaValue, LegalizeTvec, Hardwired;
    InitialCellsAt(cfg.f, cfg.s, cfg.u, a);
  }
  lemma ResetStatus(cfg: Config) ensures W(Hardwired(cfg.f) | MSTATUS_MPP) == W(if cfg.f then 0x8000_7800 else 0x1800) {}

  /** After reset the hart is in M mode with MPP = M, FS dirty when there is F, its misa and mtvec, and every other CSR zero. */
  lemma ResetLeaves(cfg: Config, a: nat, k: nat)
    ensures ResetCsrs(cfg).priv == MACHINE && NthBit(GetCell(ResetCsrs(cfg), 0x301).b, k) == MisaBit(cfg, k)
    ensures VectorWritten(cfg.mtvecReset.b, GetCell(ResetCsrs(cfg), 0x305).b)
    ensures GetCell(ResetCsrs(cfg), 0x300) == W(if cfg.f then 0x8000_7800 else 0x1800)
    ensures a != 0x300 && a != 0x301 && a != 0x305 ==> GetCell(ResetCsrs(cfg), a) == W(0)
  {
    ResetMode(cfg);
    hide *;
    ResetCells(cfg, a);
    ResetCells(cfg, 0x300);
    ResetCells(cfg, 0x301);
    ResetCells(cfg, 0x305);
    MisaIs(cfg, k);
    TvecWritten(cfg.mtvecReset);
  }
  lemma ResetMode(cfg: Config) ensures ResetCsrs(cfg).priv == MACHINE { hide InitialCells, MisaValue, LegalizeTvec; }
}
