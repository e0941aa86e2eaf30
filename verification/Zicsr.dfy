/** The CSR file and the CSR instructions. */
module Zicsr {
  import opened Bits
  import opened Common

  /** A CSR address. */
  type Addr = nat

  // User floating-point CSRs and counter shadows
  const FFLAGS: Addr := 0x001
  const FRM: Addr := 0x002
  const FCSR: Addr := 0x003
  const CYCLE: Addr := 0xC00
  const TIME: Addr := 0xC01
  const INSTRET: Addr := 0xC02
  const CYCLEH: Addr := 0xC80
  const TIMEH: Addr := 0xC81
  const INSTRETH: Addr := 0xC82

  // Supervisor CSRs
  const SSTATUS: Addr := 0x100
  const SIE: Addr := 0x104
  const STVEC: Addr := 0x105
  const SCOUNTEREN: Addr := 0x106
  const SSCRATCH: Addr := 0x140
  const SEPC: Addr := 0x141
  const SCAUSE: Addr := 0x142
  const STVAL: Addr := 0x143
  const SIP: Addr := 0x144
  const SATP: Addr := 0x180

  // Machine CSRs
  const MVENDORID: Addr := 0xF11
  const MARCHID: Addr := 0xF12
  const MIMPID: Addr := 0xF13
  const MHARTID: Addr := 0xF14
  const MCONFIGPTR: Addr := 0xF15
  const MSTATUS: Addr := 0x300
  const MISA: Addr := 0x301
  const MEDELEG: Addr := 0x302
  const MIDELEG: Addr := 0x303
  const MIE: Addr := 0x304
  const MTVEC: Addr := 0x305
  const MCOUNTEREN: Addr := 0x306
  const MSTATUSH: Addr := 0x310
  const MENVCFG: Addr := 0x30A
  const MENVCFGH: Addr := 0x31A
  const MSCRATCH: Addr := 0x340
  const MEPC: Addr := 0x341
  const MCAUSE: Addr := 0x342
  const MTVAL: Addr := 0x343
  const MIP: Addr := 0x344
  const MCYCLE: Addr := 0xB00
  const MINSTRET: Addr := 0xB02
  const MCYCLEH: Addr := 0xB80
  const MINSTRETH: Addr := 0xB82

  // mstatus fields
  const MSTATUS_SIE: bv32 := 0x2
  const MSTATUS_MIE: bv32 := 0x8
  const MSTATUS_SPIE: bv32 := 0x20
  const MSTATUS_MPIE: bv32 := 0x80
  const MSTATUS_SPP: bv32 := 0x100
  const MSTATUS_MPP: bv32 := 0x1800
  const MSTATUS_FS: bv32 := 0x6000
  const MSTATUS_MPRV: bv32 := 0x2_0000
  const MSTATUS_SUM: bv32 := 0x4_0000
  const MSTATUS_MXR: bv32 := 0x8_0000
  const MSTATUS_TVM: bv32 := 0x10_0000
  const MSTATUS_TW: bv32 := 0x20_0000
  const MSTATUS_TSR: bv32 := 0x40_0000
  const MSTATUS_SD: bv32 := 0x8000_0000

  const SSTATUS_WRITE_MASK: bv32 :=
    MSTATUS_SIE | MSTATUS_SPIE | MSTATUS_SPP | MSTATUS_MXR | MSTATUS_SUM
  const SSTATUS_READ_MASK: bv32 := SSTATUS_WRITE_MASK | MSTATUS_FS | MSTATUS_SD

  // mie / mip bits
  const MI_SSI: bv32 := 0x2
  const MI_MSI: bv32 := 0x8
  const MI_STI: bv32 := 0x20
  const MI_MTI: bv32 := 0x80
  const MI_SEI: bv32 := 0x200
  const MI_MEI: bv32 := 0x800
  const MI_MASK: bv32 := 0xAAA
  const MEDELEG_MASK: bv32 := 0xF7FF

  // ------------------------------------------------------------------
  // State
  // ------------------------------------------------------------------

  /** The state of a CSRFile: storage, current privilege and the configuration flags. */
  datatype Csrs = Csrs(
    cells: map<Addr, Word>,
    priv: Privilege,
    f: bool,
    s: bool,
    u: bool,
    epcMask: Word)

  function GetCell(c: Csrs, a: Addr): Word {
    if a in c.cells then c.cells[a] else W(0)
  }

  function SetCell(c: Csrs, a: Addr, v: Word): Csrs {
    c.(cells := c.cells[a := v])
  }

  function Hardwired(f: bool): bv32 { if f then MSTATUS_FS | MSTATUS_SD else 0 }

  function LegalMask(s: bool, u: bool): bv32 {
    MSTATUS_MIE | MSTATUS_MPIE | MSTATUS_MPP |
    (if s then MSTATUS_SIE | MSTATUS_SPIE | MSTATUS_SPP | MSTATUS_TVM | MSTATUS_TSR else 0) |
    (if u then MSTATUS_MPRV | MSTATUS_MXR else 0) |
    (if s && u then MSTATUS_SUM | MSTATUS_TW else 0)
  }

  function LegalizeMpp(s: bool, u: bool, mpp: bv32): bv32 {
    if mpp == 2 || (!u && mpp == 0) || (!s && mpp == 1) then 3 else mpp
  }

  /** What a write of v to mstatus stores. */
  function LegalizeMstatus(f: bool, s: bool, u: bool, v: Word): Word {
    var w := v.b & LegalMask(s, u);
    var mpp := LegalizeMpp(s, u, (w >> 11) & 3);
    W((w & !MSTATUS_MPP) | (mpp << 11) | Hardwired(f))
  }

  function LegalizeTvec(v: Word): Word {
    if v.b & 3 > 1 then W(v.b & !3) else v
  }

  // Switching F rewrites the hardwired fields of the stored mstatus.
  function FloatStatus(f: bool, s: bool, u: bool, ms: Word): Word {
    W((ms.b & LegalMask(s, u)) | Hardwired(f))
  }

  function WithFExtension(c: Csrs, f: bool): Csrs {
    SetCell(c, MSTATUS, FloatStatus(f, c.s, c.u, GetCell(c, MSTATUS))).(f := f)
  }

  function MipWritable(s: bool): bv32 {
    if s then MI_MSI | MI_SSI | MI_STI | MI_SEI else MI_MSI
  }

  /** Replaces the bits of old selected by mask with those of v. */
  function Merge(old_: Word, v: Word, mask: bv32): Word {
    W(Either(Both(old_.b, Comp(mask)), Both(v.b, mask)))
  }

  function Masked(v: Word, mask: bv32): Word { W(v.b & mask) }

  // frm is bits 7 to 5 of fcsr.
  function FrmField(fcsr: Word): Word { W((fcsr.b >> 5) & 0x7) }
  function FrmPlaced(v: Word): Word { W((v.b & 7) << 5) }

  function WriteSstatus(f: bool, s: bool, u: bool, mstatus: Word, v: Word): Word {
    W((Merge(mstatus, v, SSTATUS_WRITE_MASK).b & !MSTATUS_SD & LegalMask(s, u)) | Hardwired(f))
  }

  /** The mode bit cannot exceed 1, so both modes (Bare and Sv32) are kept. */
  function LegalizeSatp(v: Word): Word {
    W((v.b & 0x7FFF_FFFF) | ((v.b >> 31) << 31))
  }

  // ------------------------------------------------------------------
  // Architectural read and write
  // ------------------------------------------------------------------

  function ReadCsr(c: Csrs, a: Addr): Word {
    if a == FFLAGS then Masked(GetCell(c, FCSR), 0x1F)
    else if a == FRM then FrmField(GetCell(c, FCSR))
    else if a == CYCLE || a == TIME then GetCell(c, MCYCLE)
    else if a == CYCLEH || a == TIMEH then GetCell(c, MCYCLEH)
    else if a == INSTRET then GetCell(c, MINSTRET)
    else if a == INSTRETH then GetCell(c, MINSTRETH)
    else if a == SSTATUS then Masked(GetCell(c, MSTATUS), SSTATUS_READ_MASK)
    else if a == SIE then And(GetCell(c, MIE), GetCell(c, MIDELEG))
    else if a == SIP then And(GetCell(c, MIP), GetCell(c, MIDELEG))
    else GetCell(c, a)
  }

  /** The storage cell a write changes and its new contents; Ignored when a write has no effect. */
  datatype CellWrite = Ignored | Cell(a: Addr, v: Word)

  function Legalize(c: Csrs, a: Addr, v: Word): CellWrite {
    if a == FFLAGS then Cell(FCSR, Merge(GetCell(c, FCSR), v, 0x1F))
    else if a == FRM then Cell(FCSR, Merge(GetCell(c, FCSR), FrmPlaced(v), 0xE0))
    else if a == FCSR then Cell(FCSR, Masked(v, 0xFF))
    else if a == MSTATUS then Cell(MSTATUS, LegalizeMstatus(c.f, c.s, c.u, v))
    else if a == MTVEC || a == STVEC then Cell(a, LegalizeTvec(v))
    else if a == MEPC || a == SEPC then Cell(a, And(v, c.epcMask))
    else if a == MISA || a == MSTATUSH || a == MENVCFG || a == MENVCFGH then Ignored
    else if a == MIE || a == MIDELEG then Cell(a, Masked(v, MI_MASK))
    else if a == MIP then Cell(MIP, Merge(GetCell(c, MIP), v, MipWritable(c.s)))
    else if a == MEDELEG then Cell(MEDELEG, Masked(v, MEDELEG_MASK))
    else if a == SSTATUS then Cell(MSTATUS, WriteSstatus(c.f, c.s, c.u, GetCell(c, MSTATUS), v))
    else if a == SIE then
      if c.s then Cell(MIE, WriteSie(GetCell(c, MIE), GetCell(c, MIDELEG), v)) else Ignored
    else if a == SIP then
      if c.s then Cell(MIP, Merge(GetCell(c, MIP), v, MI_SSI & GetCell(c, MIDELEG).b)) else Ignored
    else if a == SATP then Cell(SATP, LegalizeSatp(v))
    else Cell(a, v)
  }

  function WriteSie(mie: Word, deleg: Word, v: Word): Word {
    W((mie.b & !deleg.b) | (v.b & deleg.b & MI_MASK))
  }

  function WriteCsr(c: Csrs, a: Addr, v: Word): Csrs {
    match Legalize(c, a, v)
    case Ignored => c
    case Cell(k, w) => SetCell(c, k, w)
  }

  // ------------------------------------------------------------------
  // Existence and permissions
  // ------------------------------------------------------------------

  predicate IsCounter(a: Addr) {
    a == CYCLE || a == CYCLEH || a == TIME || a == TIMEH || a == INSTRET || a == INSTRETH
  }

  predicate Exists(c: Csrs, a: Addr) {
    if a == FFLAGS || a == FRM || a == FCSR then c.f
    else IsCounter(a) || a in c.cells
  }

  function MinPrivilege(a: Addr): nat { a / 0x100 % 4 }
  predicate Writable(a: Addr) { a / 0x400 % 4 != 3 }

  predicate CounterReadable(c: Csrs, a: Addr) {
    var bit := 1 << (a % 0x20);
    c.priv == MACHINE ||
    (Bit(GetCell(c, MCOUNTEREN), bit) &&
     (c.priv == SUPERVISOR || !c.s || Bit(GetCell(c, SCOUNTEREN), bit)))
  }

  predicate CanRead(c: Csrs, a: Addr) {
    c.priv.Rank() >= MinPrivilege(a) && (IsCounter(a) ==> CounterReadable(c, a))
  }

  predicate CanWrite(c: Csrs, a: Addr) {
    Writable(a) && c.priv.Rank() >= MinPrivilege(a)
  }

  // ------------------------------------------------------------------
  // Reset contents
  // ------------------------------------------------------------------

  predicate IsInfoCell(a: Addr) {
    a == FCSR || a == MISA || a == MVENDORID || a == MARCHID || a == MIMPID || a == MHARTID ||
    a == MCONFIGPTR || a == MSTATUSH || a == MENVCFG || a == MENVCFGH
  }
  predicate IsTrapCell(a: Addr) {
    a == MSTATUS || a == MTVEC || a == MIE || a == MEPC || a == MCAUSE || a == MTVAL || a == MSCRATCH || a == MIP
  }
  predicate IsDelegationCell(a: Addr) { a == MEDELEG || a == MIDELEG }
  predicate IsSupervisorCell(a: Addr) {
    a == SSTATUS || a == SIE || a == STVEC || a == SCOUNTEREN || a == SSCRATCH || a == SEPC ||
    a == SCAUSE || a == STVAL || a == SIP || a == SATP
  }
  predicate IsCounterCell(a: Addr) {
    a == MCYCLE || a == MCYCLEH || a == MINSTRET || a == MINSTRETH
  }

  /** The storage cells of a configuration. */
  predicate HasCell(s: bool, u: bool, a: Addr) {
    IsInfoCell(a) || IsTrapCell(a) || a == MCOUNTEREN || IsCounterCell(a) ||
    ((s || u) && IsDelegationCell(a)) || (s && IsSupervisorCell(a))
  }

  const MISA_RV32I := W(0x4000_0100)

  function ResetValue(f: bool, a: Addr): Word {
    if a == MISA then MISA_RV32I
    else if a == MSTATUS then W(Hardwired(f) | MSTATUS_MPP)
    else W(0)
  }

  type Cells = map<Addr, Word>

  function WithInfo(m: Cells): Cells {
    m[FCSR := W(0)][MISA := MISA_RV32I][MVENDORID := W(0)][MARCHID := W(0)][MIMPID := W(0)]
     [MHARTID := W(0)][MCONFIGPTR := W(0)][MSTATUSH := W(0)][MENVCFG := W(0)][MENVCFGH := W(0)]
  }
  function WithTraps(m: Cells, f: bool): Cells {
    m[MSTATUS := W(Hardwired(f) | MSTATUS_MPP)][MTVEC := W(0)][MIE := W(0)][MEPC := W(0)][MCAUSE := W(0)]
     [MTVAL := W(0)][MSCRATCH := W(0)][MIP := W(0)]
  }
  function WithDelegation(m: Cells): Cells {
    m[MEDELEG := W(0)][MIDELEG := W(0)]
  }
  function WithSupervisor(m: Cells): Cells {
    m[SSTATUS := W(0)][SIE := W(0)][STVEC := W(0)][SCOUNTEREN := W(0)][SSCRATCH := W(0)]
     [SEPC := W(0)][SCAUSE := W(0)][STVAL := W(0)][SIP := W(0)][SATP := W(0)]
  }
  function WithCounters(m: Cells): Cells {
    m[MCYCLE := W(0)][MCYCLEH := W(0)][MINSTRET := W(0)][MINSTRETH := W(0)]
  }

  /** The storage after reset. */
  function InitialCells(f: bool, s: bool, u: bool): Cells {
    var m := WithTraps(WithInfo(map[]), f);
    var m := if s || u then WithDelegation(m) else m;
    var m := m[MCOUNTEREN := W(0)];
    var m := if s then WithSupervisor(m) else m;
    WithCounters(m)
  }

  lemma WithInfoAt(m: Cells, a: Addr)
    ensures a in WithInfo(m) <==> a in m || IsInfoCell(a)
    ensures a in WithInfo(m) ==> WithInfo(m)[a] == if a == MISA then MISA_RV32I else if IsInfoCell(a) then W(0) else m[a]
  {}
  lemma WithTrapsAt(m: Cells, f: bool, a: Addr)
    ensures a in WithTraps(m, f) <==> a in m || IsTrapCell(a)
    ensures a in WithTraps(m, f) ==>
              WithTraps(m, f)[a] == if a == MSTATUS then W(Hardwired(f) | MSTATUS_MPP) else if IsTrapCell(a) then W(0) else m[a]
  { hide Hardwired; }
  lemma WithSupervisorAt(m: Cells, a: Addr)
    ensures a in WithSupervisor(m) <==> a in m || IsSupervisorCell(a)
    ensures a in WithSupervisor(m) ==> WithSupervisor(m)[a] == if IsSupervisorCell(a) then W(0) else m[a]
  {}

  lemma WithDelegationAt(m: Cells, a: Addr)
    ensures a in WithDelegation(m) <==> a in m || IsDelegationCell(a)
    ensures a in WithDelegation(m) ==> WithDelegation(m)[a] == if IsDelegationCell(a) then W(0) else m[a]
  {}
  lemma WithCountersAt(m: Cells, a: Addr)
    ensures a in WithCounters(m) <==> a in m || IsCounterCell(a)
    ensures a in WithCounters(m) ==> WithCounters(m)[a] == if IsCounterCell(a) then W(0) else m[a]
  {}
  lemma NonzeroCells()
    ensures IsInfoCell(MISA) && !IsTrapCell(MISA) && !IsDelegationCell(MISA) && !IsSupervisorCell(MISA)
    ensures IsTrapCell(MSTATUS) && !IsDelegationCell(MSTATUS) && !IsSupervisorCell(MSTATUS)
    ensures !IsCounterCell(MISA) && !IsCounterCell(MSTATUS)
  {}

  /** Reset creates exactly the cells of the configuration, zero but for misa and mstatus. */
  lemma InitialCellsAt(f: bool, s: bool, u: bool, a: Addr)
    ensures a in InitialCells(f, s, u) <==> HasCell(s, u, a)
    ensures a in InitialCells(f, s, u) ==> InitialCells(f, s, u)[a] == ResetValue(f, a)
  {
    NonzeroCells();
    hide WithInfo, WithTraps, WithSupervisor, WithCounters, WithDelegation, Hardwired;
    hide IsInfoCell, IsTrapCell, IsSupervisorCell, IsDelegationCell, IsCounterCell;
    var m1 := WithInfo(map[]);
    var m2 := WithTraps(m1, f);
    var m3 := if s || u then WithDelegation(m2) else m2;
    var m4 := m3[MCOUNTEREN := W(0)];
    var m5 := if s then WithSupervisor(m4) else m4;
    WithInfoAt(map[], a);
    WithTrapsAt(m1, f, a);
    WithDelegationAt(m2, a);
    WithSupervisorAt(m4, a);
    WithCountersAt(m5, a);
  }

  // ------------------------------------------------------------------
  // The CSR file object
  // ------------------------------------------------------------------

  class CSRFile {
    var csrs: map<Addr, Word>
    var currentPrivilege: Privilege
    var fExtension: bool
    var sModeEnabled: bool
    var uModeEnabled: bool
    var mepcMask: Word

    function State(): Csrs
      reads this
    {
      Csrs(csrs, currentPrivilege, fExtension, sModeEnabled, uModeEnabled, mepcMask)
    }

    constructor ()
      ensures csrs == InitialCells(true, false, false)
      ensures State() == Csrs(csrs, MACHINE, true, false, false, W(0xFFFF_FFFE))
    {
      fExtension, sModeEnabled, uModeEnabled := true, false, false;
      currentPrivilege, mepcMask := MACHINE, W(0xFFFF_FFFE);
      csrs := map[];
      new;
      InitStorage();
    }

    method InitStorage()
      modifies this
      ensures State() == old(State()).(cells := InitialCells(fExtension, sModeEnabled, uModeEnabled))
    {
      csrs := map[];
      csrs := csrs[FCSR := W(0)];
      csrs := csrs[MISA := MISA_RV32I][MVENDORID := W(0)][MARCHID := W(0)][MIMPID := W(0)][MHARTID := W(0)];
      csrs := csrs[MCONFIGPTR := W(0)][MSTATUSH := W(0)][MENVCFG := W(0)][MENVCFGH := W(0)];
      csrs := csrs[MSTATUS := W(Hardwired(fExtension) | MSTATUS_MPP)];
      csrs := csrs[MTVEC := W(0)][MIE := W(0)][MEPC := W(0)][MCAUSE := W(0)][MTVAL := W(0)];
      csrs := csrs[MSCRATCH := W(0)][MIP := W(0)];
      if sModeEnabled || uModeEnabled {
        csrs := csrs[MEDELEG := W(0)][MIDELEG := W(0)];
      }
      csrs := csrs[MCOUNTEREN := W(0)];
      if sModeEnabled {
        csrs := csrs[SSTATUS := W(0)][SIE := W(0)][STVEC := W(0)][SCOUNTEREN := W(0)][SSCRATCH := W(0)];
        csrs := csrs[SEPC := W(0)][SCAUSE := W(0)][STVAL := W(0)][SIP := W(0)][SATP := W(0)];
      }
      csrs := csrs[MCYCLE := W(0)][MCYCLEH := W(0)][MINSTRET := W(0)][MINSTRETH := W(0)];
    }

    // Raw access that bypasses legalization.
    function Get(a: Addr): Word
      reads this
    {
      GetCell(State(), a)
    }

    method Set(a: Addr, v: Word)
      modifies this
      ensures State() == SetCell(old(State()), a, v)
    {
      csrs := csrs[a := v];
    }

    method SetPrivilege(p: Privilege)
      modifies this
      ensures State() == old(State()).(priv := p)
    {
      currentPrivilege := p;
    }

    method SetModes(s: bool, u: bool)
      modifies this
      ensures State() == old(State()).(s := s, u := u)
    {
      sModeEnabled, uModeEnabled := s, u;
    }

    method SetFExtension(enabled: bool)
      modifies this
      ensures State() == WithFExtension(old(State()), enabled)
    {
      hide FloatStatus;
      fExtension := enabled;
      csrs := csrs[MSTATUS := FloatStatus(enabled, sModeEnabled, uModeEnabled, Get(MSTATUS))];
    }

    method SetMepcMask(mask: Word)
      modifies this
      ensures State() == old(State()).(epcMask := mask)
    {
      mepcMask := mask;
    }

    method Reset()
      modifies this
      ensures State() == old(State()).(cells := InitialCells(fExtension, sModeEnabled, uModeEnabled), priv := MACHINE)
    {
      InitStorage();
      currentPrivilege := MACHINE;
    }

    // Architectural write with WARL legalization and aliasing.
    method Write(a: Addr, value: Word)
      modifies this
      ensures State() == WriteCsr(old(State()), a, value)
    {
      var effect := Legalize(State(), a, value);
      if effect.Cell? {
        csrs := csrs[effect.a := effect.v];
      }
    }
  }

  // ------------------------------------------------------------------
  // CSR instructions
  // ------------------------------------------------------------------

  datatype InstrType = CSRRW | CSRRS | CSRRC | CSRRWI | CSRRSI | CSRRCI | ILLEGAL

  datatype Decoded = Decoded(op: InstrType, rd: Word, rs1: Word, csr: Addr, raw: Word)

  const SYSTEM: bv7 := 0x73

  function DecodeType(opcode: bv7, funct3: bv3): InstrType {
    if opcode != SYSTEM then ILLEGAL
    else if funct3 == 1 then CSRRW
    else if funct3 == 2 then CSRRS
    else if funct3 == 3 then CSRRC
    else if funct3 == 5 then CSRRWI
    else if funct3 == 6 then CSRRSI
    else if funct3 == 7 then CSRRCI
    else ILLEGAL
  }

  function CsrField(i: Word): Addr { Funct12(i) as nat }

  function Decode(i: Word): Decoded {
    Decoded(DecodeType(Opcode(i), Funct3(i)), Rd(i), Rs1(i), CsrField(i), i)
  }

  predicate IsCsrInstruction(i: Word) {
    Opcode(i) == SYSTEM && Funct3(i) >= 1 && Funct3(i) != 4
  }

  /** What a CSR instruction leaves behind; every failure is an illegal-instruction exception on the raw word. */
  datatype Outcome = Outcome(valid: bool, x: Regs, c: Csrs)

  // CSRRW(I) with rd = x0 must not read; the set/clear forms with rs1/uimm = 0 must not write.
  predicate WillWrite(d: Decoded) { d.op.CSRRW? || d.op.CSRRWI? || d.rs1 != W(0) }
  predicate WillRead(d: Decoded) { !(d.op.CSRRW? || d.op.CSRRWI?) || d.rd != W(0) }

  predicate Permitted(d: Decoded, c: Csrs) {
    !d.op.ILLEGAL? && Exists(c, d.csr) && CanRead(c, d.csr) && (WillWrite(d) ==> CanWrite(c, d.csr))
  }

  function Source(d: Decoded, x: Regs): Word {
    if d.op.CSRRW? || d.op.CSRRS? || d.op.CSRRC? then GetReg(x, d.rs1) else d.rs1
  }

  function NewValue(op: InstrType, old_: Word, src: Word): Word {
    match op
    case CSRRS | CSRRSI => Or(old_, src)
    case CSRRC | CSRRCI => And(old_, Not(src))
    case _ => src
  }

  function Execute(d: Decoded, x: Regs, c: Csrs): Outcome {
    if !Permitted(d, c) then Outcome(false, x, c)
    else
      var value := if WillRead(d) then ReadCsr(c, d.csr) else W(0);
      var c' := if WillWrite(d) then WriteCsr(c, d.csr, NewValue(d.op, value, Source(d, x))) else c;
      Outcome(true, SetReg(x, d.rd, value), c')
  }

  method ExecuteOn(d: Decoded, regs: RegFile, csrs: CSRFile) returns (valid: bool)
    requires regs.Valid()
    modifies regs.x, csrs
    ensures Outcome(valid, regs.Contents(), csrs.State()) == Execute(d, old(regs.Contents()), old(csrs.State()))
  {
    hide ReadCsr, Legalize, CanRead, CanWrite, Exists, And, Or, Not, GetReg, SetReg;
    if d.op.ILLEGAL? || !Exists(csrs.State(), d.csr) || !CanRead(csrs.State(), d.csr) {
      return false;
    }
    var willWrite := WillWrite(d);
    if willWrite && !CanWrite(csrs.State(), d.csr) {
      return false;
    }
    var value := W(0);
    if WillRead(d) {
      value := ReadCsr(csrs.State(), d.csr);
    }
    var src := d.rs1;
    if d.op.CSRRW? || d.op.CSRRS? || d.op.CSRRC? {
      src := regs.Read(d.rs1);
    }
    if willWrite {
      csrs.Write(d.csr, NewValue(d.op, value, src));
    }
    regs.Write(d.rd, value);
    valid := true;
  }
}
