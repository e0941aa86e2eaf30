/** The generator of illegal encodings: every word it can draw raises an illegal-instruction exception. */
module IllegalOpgen {
  import opened Bits
  import opened Common
  import opened Zicsr
  import opened Hart
  import opened Invariant
  import opened Precise
  import opened Dispatch
  import A = Rv32a
  import C = Rv32c
  import F = Rv32f
  import FC = Rv32fc
  import I = Rv32i
  import M = Rv32m
  import Zba
  import Zbb
  import Zbs
  import Zicond
  import Zifencei
  import opened Supervisor
  import opened Encoding

  // ------------------------------------------------------------------
  // Draws
  // ------------------------------------------------------------------

  /** One draw of a 32-bit class outside floating point; the fields are the values taken from the random source. */
  datatype BaseDraw =
    | AllOnes
    | ReservedMajor(bits: bv32, k: bv5)
    | BadLoad(imm: bv12, rs1: bv5, f3: bv3, rd: bv5)
    | BadStore(imm: bv12, rs2: bv5, rs1: bv5, f3: bv3)
    | BadBranch(f7: bv7, rs2: bv5, rs1: bv5, f3: bv3, rd: bv5)
    | BadJalr(imm: bv12, rs1: bv5, f3: bv3, rd: bv5)
    | BadSlliSlot(f7: bv7, low: bv5, rs1: bv5, rd: bv5)
    | BadSrliSlot(f7: bv7, low: bv5, rs1: bv5, rd: bv5)
    | BadOp(f7: bv7, rs2: bv5, rs1: bv5, f3: bv3, rd: bv5)
    | BadMiscMem(imm: bv12, rs1: bv5, f3: bv3, rd: bv5)
    | BadSystem0(f7: bv7, rs2: bv5, rs1: bv5, rd: bv5)
    | BadSystem4(imm: bv12, rs1: bv5, rd: bv5)
    | BadAmoFunct3(f7: bv7, rs2: bv5, rs1: bv5, f3: bv3, rd: bv5)
    | BadAmoFunct5(f5: bv5, aqrl: bv2, rs2: bv5, rs1: bv5, rd: bv5)
    | BadLr(aqrl: bv2, rs2: bv5, rs1: bv5, rd: bv5)

  predicate IsReservedMajor(k: bv5) {
    k == 0x02 || k == 0x06 || k == 0x07 || k == 0x0A || k == 0x0E || k == 0x0F || k == 0x15 || k == 0x16 || k == 0x17 ||
    k == 0x1A || k == 0x1D || k == 0x1E || k == 0x1F
  }
  // The three alternatives of the class: shamt[5] set, an unassigned funct7, a reserved unary operation.
  predicate IsBadSlliSlot(f7: bv7, low: bv5) {
    f7 == 0x01 ||
    f7 == 0x02 || f7 == 0x03 || f7 == 0x04 || f7 == 0x05 || f7 == 0x06 || f7 == 0x07 || f7 == 0x08 || f7 == 0x20 || f7 == 0x7F ||
    (f7 == 0x30 && low != 0 && low != 1 && low != 2 && low != 4 && low != 5)
  }
  predicate IsBadSrliSlot(f7: bv7, low: bv5) {
    f7 == 0x01 ||
    f7 == 0x02 || f7 == 0x03 || f7 == 0x08 || f7 == 0x21 || f7 == 0x31 || f7 == 0x7F ||
    (f7 == 0x14 && low != 7) || (f7 == 0x34 && low != 24)
  }
  // PACK, or a funct7/funct3 pair outside the table.
  predicate IsBadOp(f7: bv7, rs2: bv5, f3: bv3) {
    (f7 == 0x04 && f3 == 4 && rs2 != 0) || !OpAllowed(f7, f3)
  }
  predicate IsAssignedSystem(raw: Word) {
    raw == W(0x0000_0073) || raw == W(0x0010_0073) || raw == W(0x3020_0073) || raw == W(0x1050_0073) ||
    raw == W(0x1020_0073) || raw.b & 0xFE00_7FFF == 0x1200_0073
  }
  predicate IsAmoFunct5(f5: bv5) {
    f5 == 0x02 || f5 == 0x03 || f5 == 0x01 || f5 == 0x00 || f5 == 0x04 || f5 == 0x0C || f5 == 0x08 || f5 == 0x10 ||
    f5 == 0x14 || f5 == 0x18 || f5 == 0x1C
  }

  /** The drawn values are ones the class can pick. */
  predicate ValidBase(d: BaseDraw) {
    match d
    case AllOnes => true
    case ReservedMajor(_, k) => IsReservedMajor(k)
    case BadLoad(_, _, f3, _) => f3 == 3 || f3 == 6 || f3 == 7
    case BadStore(_, _, _, f3) => f3 >= 3
    case BadBranch(_, _, _, f3, _) => f3 == 2 || f3 == 3
    case BadJalr(_, _, f3, _) => f3 >= 1
    case BadSlliSlot(f7, low, _, _) => IsBadSlliSlot(f7, low)
    case BadSrliSlot(f7, low, _, _) => IsBadSrliSlot(f7, low)
    case BadOp(f7, rs2, _, f3, _) => IsBadOp(f7, rs2, f3)
    case BadMiscMem(_, _, f3, _) => f3 >= 2
    case BadSystem0(f7, rs2, rs1, rd) => !IsAssignedSystem(R(f7, rs2, rs1, 0, rd, 0x73))
    case BadSystem4(_, _, _) => true
    case BadAmoFunct3(_, _, _, f3, _) => f3 != 2
    case BadAmoFunct5(f5, _, _, _, _) => !IsAmoFunct5(f5)
    case BadLr(_, rs2, _, _) => rs2 != 0
  }

  function MajorWord(bits: bv32, k: bv5): Word { W((bits & !0x7F) | ((k as bv32) << 2) | 3) }

  function SlotWord(f7: bv7, low: bv5, rs1: bv5, f3: bv3, rd: bv5): Word {
    EncI(((f7 as bv32) << 5) | (low as bv32), rs1 as bv32, f3 as bv32, rd as bv32, 0x13)
  }

  function BaseWord(d: BaseDraw): Word {
    match d
    case AllOnes => W(0xFFFF_FFFF)
    case ReservedMajor(bits, k) => MajorWord(bits, k)
    case BadLoad(imm, rs1, f3, rd) => ImmediateWord(imm, rs1, f3, rd, 0x03)
    case BadStore(imm, rs2, rs1, f3) => StoreWord(imm, rs2, rs1, f3, 0x23)
    case BadBranch(f7, rs2, rs1, f3, rd) => R(f7, rs2, rs1, f3, rd, 0x63)
    case BadJalr(imm, rs1, f3, rd) => ImmediateWord(imm, rs1, f3, rd, 0x67)
    case BadSlliSlot(f7, low, rs1, rd) => SlotWord(f7, low, rs1, 1, rd)
    case BadSrliSlot(f7, low, rs1, rd) => SlotWord(f7, low, rs1, 5, rd)
    case BadOp(f7, rs2, rs1, f3, rd) => R(f7, rs2, rs1, f3, rd, 0x33)
    case BadMiscMem(imm, rs1, f3, rd) => ImmediateWord(imm, rs1, f3, rd, 0x0F)
    case BadSystem0(f7, rs2, rs1, rd) => R(f7, rs2, rs1, 0, rd, 0x73)
    case BadSystem4(imm, rs1, rd) => ImmediateWord(imm, rs1, 4, rd, 0x73)
    case BadAmoFunct3(f7, rs2, rs1, f3, rd) => R(f7, rs2, rs1, f3, rd, 0x2F)
    case BadAmoFunct5(f5, aqrl, rs2, rs1, rd) => R(AmoFunct7(f5, aqrl), rs2, rs1, 2, rd, 0x2F)
    case BadLr(aqrl, rs2, rs1, rd) => R(AmoFunct7(2, aqrl), rs2, rs1, 2, rd, 0x2F)
  }

  /** One draw of a floating-point class. */
  datatype FloatDraw =
    | BadFunct7(f7: bv7, rs2: bv5, rs1: bv5, rm: bv3, rd: bv5)
    | BadRm(f7: bv7, rs2: bv5, rs1: bv5, rm: bv3, rd: bv5)
    | BadFsqrt(rs2: bv5, rs1: bv5, rm: bv3, rd: bv5)
    | BadFcvt(f7: bv7, rs2: bv5, rs1: bv5, rm: bv3, rd: bv5)
    | BadFmvFclass(rs2: bv5, rs1: bv5, f3: bv3, rd: bv5)
    | BadFcmp(rs2: bv5, rs1: bv5, f3: bv3, rd: bv5)
    | BadFminmax(rs2: bv5, rs1: bv5, f3: bv3, rd: bv5)
    | BadFsgnj(rs2: bv5, rs1: bv5, f3: bv3, rd: bv5)
    | BadFmvWx(rs2: bv5, rs1: bv5, f3: bv3, rd: bv5)
    | BadLoadFp(imm: bv12, rs1: bv5, f3: bv3, rd: bv5)
    | BadStoreFp(imm: bv12, rs2: bv5, rs1: bv5, f3: bv3)
    | BadMaddFmt(rs3: bv5, fmt: bv2, rs2: bv5, rs1: bv5, rm: bv3, rd: bv5, op: bv7)

  predicate ValidFloat(d: FloatDraw) {
    match d
    case BadFunct7(f7, _, _, rm, _) =>
      (f7 == 0x01 || f7 == 0x09 || f7 == 0x0D || f7 == 0x2D || f7 == 0x11 || f7 == 0x7F) && rm != 5 && rm != 6
    case BadRm(f7, _, _, rm, _) => (f7 == 0x00 || f7 == 0x08 || f7 == 0x2C || f7 == 0x60 || f7 == 0x68) && (rm == 5 || rm == 6)
    case BadFsqrt(rs2, _, rm, _) => rs2 != 0 && rm != 5 && rm != 6
    case BadFcvt(f7, rs2, _, rm, _) => (f7 == 0x60 || f7 == 0x68) && rs2 >= 2 && rm != 5 && rm != 6
    case BadFmvFclass(rs2, _, f3, _) => f3 >= 2 || rs2 != 0
    case BadFcmp(_, _, f3, _) => f3 >= 3
    case BadFminmax(_, _, f3, _) => f3 >= 2
    case BadFsgnj(_, _, f3, _) => f3 >= 3
    case BadFmvWx(rs2, _, f3, _) => f3 >= 1 || rs2 != 0
    case BadLoadFp(_, _, f3, _) => f3 != 2
    case BadStoreFp(_, _, _, f3) => f3 != 2
    case BadMaddFmt(_, fmt, _, _, rm, _, op) =>
      fmt != 0 && rm != 5 && rm != 6 && (op == 0x43 || op == 0x47 || op == 0x4B || op == 0x4F)
  }

  function MaddWord(rs3: bv5, fmt: bv2, rs2: bv5, rs1: bv5, rm: bv3, rd: bv5, op: bv7): Word {
    W(((rs3 as bv32) << 27) | ((fmt as bv32) << 25) | ((rs2 as bv32) << 20) | ((rs1 as bv32) << 15) | ((rm as bv32) << 12) |
      ((rd as bv32) << 7) | (op as bv32))
  }

  function FloatWord(d: FloatDraw): Word {
    match d
    case BadFunct7(f7, rs2, rs1, rm, rd) => R(f7, rs2, rs1, rm, rd, 0x53)
    case BadRm(f7, rs2, rs1, rm, rd) => R(f7, rs2, rs1, rm, rd, 0x53)
    case BadFsqrt(rs2, rs1, rm, rd) => R(0x2C, rs2, rs1, rm, rd, 0x53)
    case BadFcvt(f7, rs2, rs1, rm, rd) => R(f7, rs2, rs1, rm, rd, 0x53)
    case BadFmvFclass(rs2, rs1, f3, rd) => R(0x70, rs2, rs1, f3, rd, 0x53)
    case BadFcmp(rs2, rs1, f3, rd) => R(0x50, rs2, rs1, f3, rd, 0x53)
    case BadFminmax(rs2, rs1, f3, rd) => R(0x14, rs2, rs1, f3, rd, 0x53)
    case BadFsgnj(rs2, rs1, f3, rd) => R(0x10, rs2, rs1, f3, rd, 0x53)
    case BadFmvWx(rs2, rs1, f3, rd) => R(0x78, rs2, rs1, f3, rd, 0x53)
    case BadLoadFp(imm, rs1, f3, rd) => ImmediateWord(imm, rs1, f3, rd, 0x07)
    case BadStoreFp(imm, rs2, rs1, f3) => StoreWord(imm, rs2, rs1, f3, 0x27)
    case BadMaddFmt(rs3, fmt, rs2, rs1, rm, rd, op) => MaddWord(rs3, fmt, rs2, rs1, rm, rd, op)
  }

  /** One draw of a class of 16-bit encodings. */
  datatype ParcelDraw =
    | AllZeros
    | Quad0Funct3(f3: bv3, bits: bv32)
    | Addi4spnZero(rd: bv5)
    | LwspZero(bits: bv32, low: bv5)
    | JrZero
    | ShiftRightShamt5(which: bv1, rd: bv5, low: bv5)
    | ShiftLeftShamt5(rd: bv5, low: bv5)
    | AluFunct1(rd: bv5, funct2: bv2, rs2: bv5)
    | LuiZero(rd: bv5)
    | Addi16spZero
    | Quad2Funct3(f3: bv3, bits: bv32)

  predicate ValidParcel(d: ParcelDraw) {
    match d
    case Quad0Funct3(f3, _) => f3 == 1 || f3 == 4 || f3 == 5
    case LuiZero(rd) => rd != 0 && rd != 2
    case Quad2Funct3(f3, _) => f3 == 1 || f3 == 5
    case _ => true
  }

  function ParcelWord(d: ParcelDraw): Word {
    match d
    case AllZeros => W(0)
    case Quad0Funct3(f3, bits) => W(((f3 as bv32) << 13) | (bits & 0x1FFC) | 0)
    case Addi4spnZero(rd) => W(((rd as bv32) & 0x7) << 2)
    case LwspZero(bits, low) => W((2 << 13) | ((bits & 1) << 12) | (((low as bv32) & 0x1F) << 2) | 2)
    case JrZero => W((4 << 13) | 2)
    case ShiftRightShamt5(which, rd, low) =>
      W((4 << 13) | (1 << 12) | ((which as bv32) << 10) | (((rd as bv32) & 0x7) << 7) | (((low as bv32) & 0x1F) << 2) | 1)
    case ShiftLeftShamt5(rd, low) => W((1 << 12) | (((rd as bv32) & 0x1F) << 7) | (((low as bv32) & 0x1F) << 2) | 2)
    case AluFunct1(rd, funct2, rs2) =>
      W((4 << 13) | (1 << 12) | (3 << 10) | (((rd as bv32) & 0x7) << 7) | ((funct2 as bv32) << 5) | (((rs2 as bv32) & 0x7) << 2) | 1)
    case LuiZero(rd) => W((3 << 13) | ((rd as bv32) << 7) | 1)
    case Addi16spZero => W(0x6101)
    case Quad2Funct3(f3, bits) => W(((f3 as bv32) << 13) | (bits & 0x1FFC) | 2)
  }

  /** A CSR instruction on an address that no configuration implements. */
  datatype CsrDraw = BadCsrAddr(addr: bv12, rs1: bv5, f3: bv3, rd: bv5)

  predicate ValidCsr(d: CsrDraw) {
    (d.addr == 0xC03 || d.addr == 0xB03 || d.addr == 0x320 || d.addr == 0x7A0 || d.addr == 0x7B0 || d.addr == 0x600) &&
    d.f3 != 0 && d.f3 != 4
  }
  function CsrWord(d: CsrDraw): Word { ImmediateWord(d.addr, d.rs1, d.f3, d.rd, 0x73) }

  datatype Draw = Base(b: BaseDraw) | Float(f: FloatDraw) | Csr(c: CsrDraw) | Compressed(p: ParcelDraw)

  predicate Valid(d: Draw) {
    match d case Base(b) => ValidBase(b) case Float(f) => ValidFloat(f) case Csr(c) => ValidCsr(c) case Compressed(p) => ValidParcel(p)
  }

  /** The word a draw yields. */
  function Generate(d: Draw): Word {
    match d case Base(b) => BaseWord(b) case Float(f) => FloatWord(f) case Csr(c) => CsrWord(c) case Compressed(p) => ParcelWord(p)
  }

  // ------------------------------------------------------------------
  // No decoder accepts a drawn word
  // ------------------------------------------------------------------

  /** The only module that could decode the word does not. */
  predicate Rejected(s: bool, i: Word) { !Recognizes(Owner(i), s, i) }

  lemma OpcodeRejected(s: bool, i: Word)
    requires Is32Bit(i)
    requires var op := Opcode(i);
      var f3 := Funct3(i);
      (op == 0x03 && (f3 == 3 || f3 == 6 || f3 == 7)) || (op == 0x23 && f3 >= 3) || (op == 0x63 && (f3 == 2 || f3 == 3)) ||
      (op == 0x67 && f3 != 0) || (op == 0x0F && f3 >= 2) || (op == 0x73 && f3 == 4) ||
      (op == 0x73 && f3 == 0 && !IsAssignedSystem(i))
    ensures Rejected(s, i)
  {
    hide Opcode, Funct3, Funct7, Is32Bit;
  }

  lemma MajorRejected(s: bool, i: Word)
    requires Is32Bit(i) && IsReservedMajor((Opcode(i) >> 2) as bv5)
    ensures Rejected(s, i)
  {
    hide Opcode, Funct3, Funct7, Is32Bit;
  }

  lemma Operations12(i: Word)
    ensures Funct12(i) == 0x287 ==> Funct7(i) == 0x14 && Rs2(i) == W(7)
    ensures Funct12(i) == 0x698 ==> Funct7(i) == 0x34 && Rs2(i) == W(24)
  {}

  lemma OpImmRejected(s: bool, i: Word, f7: bv7, low: bv5, f3: bv3)
    requires Fields(i, f7, low, f3, 0x13)
    requires (f3 == 1 && IsBadSlliSlot(f7, low)) || (f3 == 5 && IsBadSrliSlot(f7, low))
    ensures Rejected(s, i)
  {
    Operations12(i);
    hide Opcode, Funct3, Funct7, Funct12, Rs2, Is32Bit;
  }

  lemma OpRejected(s: bool, i: Word, f7: bv7, rs2: bv5, f3: bv3)
    requires Fields(i, f7, rs2, f3, 0x33) && IsBadOp(f7, rs2, f3)
    ensures Rejected(s, i)
  {
    OpLegality(s, i);
    hide Opcode, Funct3, Funct7, Rs2, Is32Bit, Recognizes, Owner, OpLegalFunct3Mask;
  }

  lemma AtomicRejected(s: bool, i: Word, f7: bv7, rs2: bv5, f3: bv3)
    requires Fields(i, f7, rs2, f3, 0x2F) && A.Funct5(i) == (f7 >> 2) as bv5
    requires f3 != 2 || !IsAmoFunct5((f7 >> 2) as bv5) || ((f7 >> 2) as bv5 == 2 && rs2 != 0)
    ensures Rejected(s, i)
  {
    hide Opcode, Funct3, Funct7, Rs2, Is32Bit, A.Funct5;
  }

  lemma FloatRejected(s: bool, i: Word)
    requires Is32Bit(i) && F.IsFInstruction(i) && F.DecodeType(i).ILLEGAL?
    ensures Rejected(s, i)
  {
    hide Opcode, Funct3, Funct7, F.DecodeType, Is32Bit;
  }

  lemma MajorWordFields(bits: bv32, k: bv5)
    ensures Is32Bit(MajorWord(bits, k)) && (Opcode(MajorWord(bits, k)) >> 2) as bv5 == k
  {}
  lemma OnesAreMajor() ensures W(0xFFFF_FFFF) == MajorWord(0xFFFF_FFFF, 0x1F) && IsReservedMajor(0x1F) {}

  lemma ImmediateRejected(s: bool, imm: bv12, rs1: bv5, f3: bv3, rd: bv5, op: bv7)
    requires (op == 0x03 && (f3 == 3 || f3 == 6 || f3 == 7)) || (op == 0x67 && f3 != 0) || (op == 0x0F && f3 >= 2) || (op == 0x73 && f3 == 4)
    ensures Rejected(s, ImmediateWord(imm, rs1, f3, rd, op))
  {
    EncIFields(imm, rs1, f3, rd, op);
    hide R, EncI, High7, Low5, Opcode, Funct3, Funct7, Rs2, Is32Bit, Rejected, IsAssignedSystem;
    RFields(High7(imm), Low5(imm), rs1, f3, rd, op);
    OpcodeRejected(s, R(High7(imm), Low5(imm), rs1, f3, rd, op));
  }

  lemma StoreRejected(s: bool, imm: bv12, rs2: bv5, rs1: bv5, f3: bv3)
    requires f3 >= 3
    ensures Rejected(s, StoreWord(imm, rs2, rs1, f3, 0x23))
  {
    StoreFields(imm, rs2, rs1, f3, 0x23);
    hide R, StoreWord, High7, Low5, Opcode, Funct3, Funct7, Rs2, Is32Bit, Rejected, IsAssignedSystem;
    RFields(High7(imm), rs2, rs1, f3, Low5(imm), 0x23);
    OpcodeRejected(s, R(High7(imm), rs2, rs1, f3, Low5(imm), 0x23));
  }

  lemma RegisterRejected(s: bool, f7: bv7, rs2: bv5, rs1: bv5, f3: bv3, rd: bv5, op: bv7)
    requires (op == 0x63 && (f3 == 2 || f3 == 3)) || (op == 0x73 && f3 == 0 && !IsAssignedSystem(R(f7, rs2, rs1, f3, rd, op)))
    ensures Rejected(s, R(f7, rs2, rs1, f3, rd, op))
  {
    hide R, Opcode, Funct3, Funct7, Rs2, Is32Bit, Rejected, IsAssignedSystem;
    RFields(f7, rs2, rs1, f3, rd, op);
    OpcodeRejected(s, R(f7, rs2, rs1, f3, rd, op));
  }

  lemma SlotRejected(s: bool, f7: bv7, low: bv5, rs1: bv5, f3: bv3, rd: bv5)
    requires (f3 == 1 && IsBadSlliSlot(f7, low)) || (f3 == 5 && IsBadSrliSlot(f7, low))
    ensures Rejected(s, SlotWord(f7, low, rs1, f3, rd))
  {
    SlotFields(f7, low, rs1, f3, rd, 0x13);
    hide R, EncI, Fields, Rejected, IsBadSlliSlot, IsBadSrliSlot;
    RFields(f7, low, rs1, f3, rd, 0x13);
    OpImmRejected(s, R(f7, low, rs1, f3, rd, 0x13), f7, low, f3);
  }

  lemma AmoRejected(s: bool, f7: bv7, rs2: bv5, rs1: bv5, f3: bv3, rd: bv5)
    requires f3 != 2 || !IsAmoFunct5((f7 >> 2) as bv5) || ((f7 >> 2) as bv5 == 2 && rs2 != 0)
    ensures Rejected(s, R(f7, rs2, rs1, f3, rd, 0x2F))
  {
    hide R, Fields, Rejected, IsAmoFunct5, A.Funct5;
    RFields(f7, rs2, rs1, f3, rd, 0x2F);
    RFunct5(f7, rs2, rs1, f3, rd, 0x2F);
    AtomicRejected(s, R(f7, rs2, rs1, f3, rd, 0x2F), f7, rs2, f3);
  }

  lemma BaseRejected(s: bool, d: BaseDraw)
    requires ValidBase(d)
    ensures Rejected(s, BaseWord(d))
  {
    hide Rejected, R, MajorWord, StoreWord, ImmediateWord, SlotWord, AmoFunct7, IsReservedMajor, IsBadSlliSlot, IsBadSrliSlot;
    hide IsBadOp, IsAssignedSystem, IsAmoFunct5, Fields, Opcode, Is32Bit;
    match d
    case AllOnes => OnesAreMajor(); MajorWordFields(0xFFFF_FFFF, 0x1F); MajorRejected(s, BaseWord(d));
    case ReservedMajor(bits, k) => MajorWordFields(bits, k); MajorRejected(s, BaseWord(d));
    case BadLoad(imm, rs1, f3, rd) => ImmediateRejected(s, imm, rs1, f3, rd, 0x03);
    case BadStore(imm, rs2, rs1, f3) => StoreRejected(s, imm, rs2, rs1, f3);
    case BadBranch(f7, rs2, rs1, f3, rd) => RegisterRejected(s, f7, rs2, rs1, f3, rd, 0x63);
    case BadJalr(imm, rs1, f3, rd) => ImmediateRejected(s, imm, rs1, f3, rd, 0x67);
    case BadSlliSlot(f7, low, rs1, rd) => SlotRejected(s, f7, low, rs1, 1, rd);
    case BadSrliSlot(f7, low, rs1, rd) => SlotRejected(s, f7, low, rs1, 5, rd);
    case BadOp(f7, rs2, rs1, f3, rd) =>
      RFields(f7, rs2, rs1, f3, rd, 0x33);
      OpRejected(s, BaseWord(d), f7, rs2, f3);
    case BadMiscMem(imm, rs1, f3, rd) => ImmediateRejected(s, imm, rs1, f3, rd, 0x0F);
    case BadSystem0(f7, rs2, rs1, rd) => RegisterRejected(s, f7, rs2, rs1, 0, rd, 0x73);
    case BadSystem4(imm, rs1, rd) => ImmediateRejected(s, imm, rs1, 4, rd, 0x73);
    case BadAmoFunct3(f7, rs2, rs1, f3, rd) => AmoRejected(s, f7, rs2, rs1, f3, rd);
    case BadAmoFunct5(f5, aqrl, rs2, rs1, rd) =>
      AmoSplits(f5, aqrl);
      AmoRejected(s, AmoFunct7(f5, aqrl), rs2, rs1, 2, rd);
    case BadLr(aqrl, rs2, rs1, rd) =>
      AmoSplits(2, aqrl);
      AmoRejected(s, AmoFunct7(2, aqrl), rs2, rs1, 2, rd);
  }

  lemma OpFpRejected(s: bool, f7: bv7, rs2: bv5, rs1: bv5, f3: bv3, rd: bv5)
    requires var t := F.OpFpType(f7, f3, W(rs2 as bv32)); t.ILLEGAL? || (F.UsesRm(t) && (f3 == 5 || f3 == 6))
    ensures Rejected(s, R(f7, rs2, rs1, f3, rd, 0x53))
  {
    hide R, Opcode, Funct3, Funct7, Rs2, Is32Bit, Rejected, F.OpFpType, F.UsesRm;
    var i := R(f7, rs2, rs1, f3, rd, 0x53);
    RFields(f7, rs2, rs1, f3, rd, 0x53);
    assert F.FormatType(i) == F.OpFpType(f7, f3, W(rs2 as bv32));
    FloatRejected(s, i);
  }

  lemma OpFpIllegal(d: FloatDraw, f7: bv7, rs2: bv5, f3: bv3)
    requires ValidFloat(d)
    requires match d
      case BadFunct7(a, b, _, c, _) => f7 == a && rs2 == b && f3 == c
      case BadRm(a, b, _, c, _) => f7 == a && rs2 == b && f3 == c
      case BadFsqrt(b, _, c, _) => f7 == 0x2C && rs2 == b && f3 == c
      case BadFcvt(a, b, _, c, _) => f7 == a && rs2 == b && f3 == c
      case BadFmvFclass(b, _, c, _) => f7 == 0x70 && rs2 == b && f3 == c
      case BadFcmp(b, _, c, _) => f7 == 0x50 && rs2 == b && f3 == c
      case BadFminmax(b, _, c, _) => f7 == 0x14 && rs2 == b && f3 == c
      case BadFsgnj(b, _, c, _) => f7 == 0x10 && rs2 == b && f3 == c
      case BadFmvWx(b, _, c, _) => f7 == 0x78 && rs2 == b && f3 == c
      case _ => false
    ensures var t := F.OpFpType(f7, f3, W(rs2 as bv32)); t.ILLEGAL? || (F.UsesRm(t) && (f3 == 5 || f3 == 6))
  {}

  lemma FloatMemoryRejected(s: bool, i: Word)
    requires Is32Bit(i) && (Opcode(i) == 0x07 || Opcode(i) == 0x27) && Funct3(i) != 2
    ensures Rejected(s, i)
  {
    hide Opcode, Funct3, Funct7, Is32Bit, Rejected, F.UsesRm;
    FloatRejected(s, i);
  }

  lemma LoadFpRejected(s: bool, imm: bv12, rs1: bv5, f3: bv3, rd: bv5)
    requires f3 != 2
    ensures Rejected(s, ImmediateWord(imm, rs1, f3, rd, 0x07))
  {
    EncIFields(imm, rs1, f3, rd, 0x07);
    hide R, EncI, High7, Low5, Opcode, Funct3, Funct7, Rs2, Is32Bit, Rejected;
    RFields(High7(imm), Low5(imm), rs1, f3, rd, 0x07);
    FloatMemoryRejected(s, ImmediateWord(imm, rs1, f3, rd, 0x07));
  }

  lemma StoreFpRejected(s: bool, imm: bv12, rs2: bv5, rs1: bv5, f3: bv3)
    requires f3 != 2
    ensures Rejected(s, StoreWord(imm, rs2, rs1, f3, 0x27))
  {
    StoreFields(imm, rs2, rs1, f3, 0x27);
    hide R, StoreWord, High7, Low5, Opcode, Funct3, Funct7, Rs2, Is32Bit, Rejected;
    RFields(High7(imm), rs2, rs1, f3, Low5(imm), 0x27);
    FloatMemoryRejected(s, R(High7(imm), rs2, rs1, f3, Low5(imm), 0x27));
  }

  lemma MaddFields(rs3: bv5, fmt: bv2, rs2: bv5, rs1: bv5, rm: bv3, rd: bv5, op: bv7)
    ensures MaddWord(rs3, fmt, rs2, rs1, rm, rd, op) == R(AmoFunct7(rs3, fmt), rs2, rs1, rm, rd, op)
  {}
  lemma FmtSplits(rs3: bv5, fmt: bv2) ensures (AmoFunct7(rs3, fmt) & 3) as bv2 == fmt {}

  lemma MaddRejected(s: bool, rs3: bv5, fmt: bv2, rs2: bv5, rs1: bv5, rm: bv3, rd: bv5, op: bv7)
    requires fmt != 0 && (op == 0x43 || op == 0x47 || op == 0x4B || op == 0x4F)
    ensures Rejected(s, MaddWord(rs3, fmt, rs2, rs1, rm, rd, op))
  {
    var f7 := AmoFunct7(rs3, fmt);
    var i := R(f7, rs2, rs1, rm, rd, op);
    hide R, MaddWord, AmoFunct7, Opcode, Funct3, Funct7, Rs2, Is32Bit, Rejected, F.Fmt, F.OpFpType, F.UsesRm;
    MaddFields(rs3, fmt, rs2, rs1, rm, rd, op);
    FmtSplits(rs3, fmt);
    RFields(f7, rs2, rs1, rm, rd, op);
    RFmt(f7, rs2, rs1, rm, rd, op);
    FloatRejected(s, i);
  }

  lemma FloatDrawRejected(s: bool, d: FloatDraw)
    requires ValidFloat(d)
    ensures Rejected(s, FloatWord(d))
  {
    hide Rejected, R, StoreWord, ImmediateWord, MaddWord, F.OpFpType, F.UsesRm;
    match d
    case BadFunct7(f7, rs2, rs1, rm, rd) => OpFpIllegal(d, f7, rs2, rm); OpFpRejected(s, f7, rs2, rs1, rm, rd);
    case BadRm(f7, rs2, rs1, rm, rd) => OpFpIllegal(d, f7, rs2, rm); OpFpRejected(s, f7, rs2, rs1, rm, rd);
    case BadFsqrt(rs2, rs1, rm, rd) => OpFpIllegal(d, 0x2C, rs2, rm); OpFpRejected(s, 0x2C, rs2, rs1, rm, rd);
    case BadFcvt(f7, rs2, rs1, rm, rd) => OpFpIllegal(d, f7, rs2, rm); OpFpRejected(s, f7, rs2, rs1, rm, rd);
    case BadFmvFclass(rs2, rs1, f3, rd) => OpFpIllegal(d, 0x70, rs2, f3); OpFpRejected(s, 0x70, rs2, rs1, f3, rd);
    case BadFcmp(rs2, rs1, f3, rd) => OpFpIllegal(d, 0x50, rs2, f3); OpFpRejected(s, 0x50, rs2, rs1, f3, rd);
    case BadFminmax(rs2, rs1, f3, rd) => OpFpIllegal(d, 0x14, rs2, f3); OpFpRejected(s, 0x14, rs2, rs1, f3, rd);
    case BadFsgnj(rs2, rs1, f3, rd) => OpFpIllegal(d, 0x10, rs2, f3); OpFpRejected(s, 0x10, rs2, rs1, f3, rd);
    case BadFmvWx(rs2, rs1, f3, rd) => OpFpIllegal(d, 0x78, rs2, f3); OpFpRejected(s, 0x78, rs2, rs1, f3, rd);
    case BadLoadFp(imm, rs1, f3, rd) => LoadFpRejected(s, imm, rs1, f3, rd);
    case BadStoreFp(imm, rs2, rs1, f3) => StoreFpRejected(s, imm, rs2, rs1, f3);
    case BadMaddFmt(rs3, fmt, rs2, rs1, rm, rd, op) => MaddRejected(s, rs3, fmt, rs2, rs1, rm, rd, op);
  }

  lemma ParcelIllegal(d: ParcelDraw)
    requires ValidParcel(d)
    ensures var i := ParcelWord(d); !Is32Bit(i) && Parcel(i) == i && C.DecodeType(i).ILLEGAL? && !FC.IsCompressedFloat(i)
  {
  }

  lemma ParcelRejected(s: bool, d: ParcelDraw)
    requires ValidParcel(d)
    ensures Rejected(s, ParcelWord(d)) && !Is32Bit(ParcelWord(d)) && Parcel(ParcelWord(d)) == ParcelWord(d)
  {
    ParcelIllegal(d);
    var i := ParcelWord(d);
    hide ParcelWord, Is32Bit, Parcel, C.DecodeType, C.Quadrant, C.CFunct3, Opcode, Funct3, Funct7;
  }

  // ------------------------------------------------------------------
  // A rejected word raises an illegal-instruction exception
  // ------------------------------------------------------------------

  function IllegalTrap(i: Word): Option<Trap> {
    hide Parcel;
    Some(Trap(ILLEGAL_INSTRUCTION, if Is32Bit(i) then i else Parcel(i)))
  }

  lemma RunIIllegal(cfg: Config, h: State, i: Word)
    requires I.DecodeType(i, cfg.s).ILLEGAL?
    ensures RunI(cfg, h, i).trap == Some(Trap(ILLEGAL_INSTRUCTION, i))
  {
    var d := I.Decode(i, cfg.s);
    assert d.op.ILLEGAL? && d.raw == i;
    hide I.Decode, I.DecodeType, Blocked, GetReg, Add;
  }
  lemma RunAIllegal(h: State, i: Word)
    requires A.DecodeType(i).ILLEGAL?
    ensures RunA(h, i).trap == Some(Trap(ILLEGAL_INSTRUCTION, i))
  {
    hide A.DecodeType, GetReg, Add;
  }
  lemma RunFIllegal(cfg: Config, fp: F.FpUnit, h: State, i: Word)
    requires F.DecodeType(i).ILLEGAL?
    ensures RunF(cfg, fp, h, i).trap == Some(Trap(ILLEGAL_INSTRUCTION, i))
  {
    hide F.DecodeType, GetReg, Add, F.FcsrView, GetCell, SetCell, F.EffectiveRm;
  }
  lemma RunCIllegal(cfg: Config, h: State, p: Word)
    requires C.DecodeType(p).ILLEGAL?
    ensures RunC(cfg, h, p).trap == Some(Trap(ILLEGAL_INSTRUCTION, p))
  {
    var d := C.Decode(p);
    assert d.op.ILLEGAL? && d.raw == p;
    hide C.Decode, C.DecodeType, GetReg, Add;
  }

  /** Nothing but the A and F opcodes, which trap on what they do not decode, claims an unrecognized word. */
  lemma UnrecognizedClaims(cfg: Config, i: Word, e: Extension)
    requires Is32Bit(i) && Claims(cfg, e, i) && forall m :: !Recognizes(m, cfg.s, i)
    ensures e.Atomic? || e.Float?
  {
    assert !Recognizes(ModuleOf(e), cfg.s, i);
    ClaimDecodes(i);
    hide Is32Bit, IsCsrInstruction, M.IsMInstruction, A.IsAtomicInstruction, F.IsFInstruction, Zifencei.IsFenceI;
    hide Zba.DecodeType, Zbb.DecodeType, Zbs.DecodeType, Zicond.DecodeType, M.DecodeType, Decode;
  }
  lemma ClaimDecodes(i: Word)
    ensures IsCsrInstruction(i) ==> !Decode(i).op.ILLEGAL?
    ensures M.IsMInstruction(i) ==> !M.DecodeType(i).ILLEGAL?
  {
    hide Opcode, Funct3, Funct7, Rd, Rs1, CsrField;
  }

  lemma RejectedUnrecognized(s: bool, i: Word)
    requires Rejected(s, i)
    ensures forall m :: !Recognizes(m, s, i)
  {
    hide Recognizes, Owner;
    if m :| Recognizes(m, s, i) { RecognizedByOwner(m, s, i); }
  }

  lemma LongRejectedTraps(cfg: Config, fp: F.FpUnit, h: State, i: Word)
    requires Is32Bit(i) && Rejected(cfg.s, i)
    ensures Execute32(cfg, fp, h, i).trap == Some(Trap(ILLEGAL_INSTRUCTION, i))
  {
    RejectedUnrecognized(cfg.s, i);
    assert !Recognizes(RV32I, cfg.s, i) && !Recognizes(RV32A, cfg.s, i) && !Recognizes(RV32F, cfg.s, i);
    LongRecognizes(cfg.s, i);
    hide Rejected, Recognizes, Is32Bit, Claims, Execute32, RunExtension, RunI, RunA, RunF, A.DecodeType, F.DecodeType;
    hide I.DecodeType;
    if e: Extension :| Claims(cfg, e, i) {
      forall e' | Claims(cfg, e', i) ensures e' == e { ClaimsDisjoint(cfg, e, e', i); }
      UnrecognizedClaims(cfg, i, e);
      SourceDispatch(cfg, fp, h, i, Some(e));
      RunAIllegal(h, i);
      RunFIllegal(cfg, fp, h, i);
      MemoryExtensions(cfg, fp, h, i);
    } else {
      SourceDispatch(cfg, fp, h, i, None);
      RunIIllegal(cfg, h, i);
    }
  }
  lemma LongRecognizes(s: bool, i: Word)
    requires Is32Bit(i)
    ensures Recognizes(RV32I, s, i) == !I.DecodeType(i, s).ILLEGAL?
    ensures Recognizes(RV32A, s, i) == !A.DecodeType(i).ILLEGAL?
    ensures Recognizes(RV32F, s, i) == !F.DecodeType(i).ILLEGAL?
  {
    hide I.DecodeType, A.DecodeType, F.DecodeType, Is32Bit;
  }
  lemma MemoryExtensions(cfg: Config, fp: F.FpUnit, h: State, i: Word)
    ensures RunExtension(cfg, fp, h, Atomic, i) == RunA(h, i) && RunExtension(cfg, fp, h, Extension.Float, i) == RunF(cfg, fp, h, i)
  {
    hide RunA, RunF;
  }

  lemma ShortRejectedTraps(cfg: Config, h: State, i: Word)
    requires !Is32Bit(i) && Rejected(cfg.s, i)
    ensures ExecuteCompressed(cfg, h, Parcel(i)).trap == Some(Trap(ILLEGAL_INSTRUCTION, Parcel(i)))
  {
    RejectedUnrecognized(cfg.s, i);
    assert !Recognizes(RV32C, cfg.s, i) && !Recognizes(RV32FC, cfg.s, i);
    var p := Parcel(i);
    assert C.DecodeType(p).ILLEGAL? && FC.DecodeType(p).ILLEGAL?;
    hide Rejected, Recognizes, Is32Bit, Parcel, RunC, RunFC, C.DecodeType, C.Quadrant, C.CFunct3;
    RunCIllegal(cfg, h, p);
  }

  lemma RejectedTraps(cfg: Config, fp: F.FpUnit, h: State, i: Word)
    requires Rejected(cfg.s, i)
    ensures ExecuteFetched(cfg, fp, h, i).trap == IllegalTrap(i)
  {
    hide Rejected, Execute32, ExecuteCompressed, Is32Bit, Parcel;
    if Is32Bit(i) {
      LongRejectedTraps(cfg, fp, h, i);
    } else {
      ShortRejectedTraps(cfg, h, i);
    }
  }

  // ------------------------------------------------------------------
  // CSR addresses that do not exist
  // ------------------------------------------------------------------

  lemma RFunct12(imm: bv12, rs1: bv5, f3: bv3, rd: bv5, op: bv7)
    ensures Funct12(ImmediateWord(imm, rs1, f3, rd, op)) == imm
  {}

  predicate IsMissingCsr(a: Addr) { a == 0xC03 || a == 0xB03 || a == 0x320 || a == 0x7A0 || a == 0x7B0 || a == 0x600 }

  lemma DrawnAddress(i: Word, addr: bv12)
    requires Funct12(i) == addr && (addr == 0xC03 || addr == 0xB03 || addr == 0x320 || addr == 0x7A0 || addr == 0x7B0 || addr == 0x600)
    ensures IsMissingCsr(CsrField(i))
  {
    hide Funct12;
  }

  lemma MissingInAll(cfg: Config, c: Csrs, a: Addr)
    requires CsrsOk(cfg, c) && IsMissingCsr(a)
    ensures !Exists(c, a) && a != SATP
  {
    assert !HasCell(cfg.s, cfg.u, a);
    hide LegalCell, HasCell;
  }

  lemma SystemWord(i: Word, f7: bv7, rs2: bv5, f3: bv3)
    requires Fields(i, f7, rs2, f3, 0x73) && f3 != 0 && f3 != 4
    ensures IsCsrInstruction(i) && Is32Bit(i)
  {
    hide Opcode, Funct3, Funct7, Rs2, Is32Bit;
  }

  lemma CsrWordFields(d: CsrDraw)
    requires ValidCsr(d)
    ensures var i := CsrWord(d); IsCsrInstruction(i) && IsMissingCsr(CsrField(i)) && Is32Bit(i)
  {
    hide R, EncI, High7, Low5, Fields, IsCsrInstruction, Funct12, Is32Bit, CsrField, IsMissingCsr;
    var i := CsrWord(d);
    EncIFields(d.addr, d.rs1, d.f3, d.rd, 0x73);
    RFields(High7(d.addr), Low5(d.addr), d.rs1, d.f3, d.rd, 0x73);
    SystemWord(i, High7(d.addr), Low5(d.addr), d.f3);
    RFunct12(d.addr, d.rs1, d.f3, d.rd, 0x73);
    DrawnAddress(i, d.addr);
  }

  lemma MissingCsrTraps(cfg: Config, h: State, i: Word)
    requires CsrsOk(cfg, h.csrs) && IsMissingCsr(CsrField(i))
    ensures RunCsr(cfg, h, i).trap == Some(Trap(ILLEGAL_INSTRUCTION, i))
  {
    var d := Decode(i);
    assert d.csr == CsrField(i) && d.raw == i;
    hide Decode, CsrField, CsrsOk, IsMissingCsr, Exists, Add, CanRead, CanWrite, WillWrite, ReadCsr, WriteCsr, SetReg;
    MissingInAll(cfg, h.csrs, d.csr);
  }

  lemma CsrDrawTraps(cfg: Config, fp: F.FpUnit, h: State, d: CsrDraw)
    requires CsrsOk(cfg, h.csrs) && ValidCsr(d) && cfg.zicsr
    ensures ExecuteFetched(cfg, fp, h, CsrWord(d)).trap == IllegalTrap(CsrWord(d))
  {
    hide CsrsOk, CsrWord, ExecuteFetched, IsCsrInstruction, IsMissingCsr, CsrField, Is32Bit, RunCsr, Parcel, ValidCsr;
    var i := CsrWord(d);
    CsrWordFields(d);
    CsrDispatch(cfg, fp, h, i);
    MissingCsrTraps(cfg, h, i);
  }

  // ------------------------------------------------------------------
  // Soundness of the generator
  // ------------------------------------------------------------------

  /** Every extension is enabled, as on the hart the generator is meant for. */
  predicate AllEnabled(cfg: Config) {
    cfg.m && cfg.a && cfg.f && cfg.c && cfg.zicsr && cfg.zifencei && cfg.zba && cfg.zbb && cfg.zbs && cfg.zicond
  }

  lemma DrawTraps(cfg: Config, fp: F.FpUnit, h: State, d: Draw)
    requires CsrsOk(cfg, h.csrs) && Valid(d) && cfg.zicsr
    ensures ExecuteFetched(cfg, fp, h, Generate(d)).trap == IllegalTrap(Generate(d))
  {
    hide CsrsOk, ValidBase, ValidFloat, ValidCsr, ValidParcel, BaseWord, FloatWord, CsrWord, ParcelWord, IllegalTrap;
    hide Rejected, ExecuteFetched;
    match d
    case Base(b) => BaseRejected(cfg.s, b); RejectedTraps(cfg, fp, h, BaseWord(b));
    case Float(f) => FloatDrawRejected(cfg.s, f); RejectedTraps(cfg, fp, h, FloatWord(f));
    case Csr(c) => CsrDrawTraps(cfg, fp, h, c);
    case Compressed(p) => ParcelRejected(cfg.s, p); RejectedTraps(cfg, fp, h, ParcelWord(p));
  }

  /** The step took an illegal-instruction exception on i and left i in the trap value of the mode entered. */
  ghost predicate TrapsOn(cfg: Config, h: State, i: Word, s: Stepped) {
    s.r.trap && s.r.cause == ILLEGAL_INSTRUCTION && s.r.tval == (if Is32Bit(i) then i else Parcel(i)) && PreciseException(cfg, h, s)
  }

  lemma InstructionTraps(cfg: Config, fp: F.FpUnit, h: State, i: Word)
    requires Ok(cfg, h) && ExecuteFetched(cfg, fp, h, i).trap == IllegalTrap(i)
    ensures TrapsOn(cfg, h, i, StepInstruction(cfg, fp, h, i))
  {
    InstructionPrecise(cfg, fp, h, i);
    hide ExecuteFetched, Ok, PreciseException, Is32Bit, Parcel, TakeException, BumpCycle, BumpInstret;
  }

  /**
   * Whatever values are drawn, stepping the generated word in a state that satisfies the invariant and has no
   * interrupt to deliver takes an illegal-instruction exception with the word (or parcel) as trap value.
   */
  lemma GeneratorSound(cfg: Config, fp: F.FpUnit, h: State, d: Draw)
    requires AllEnabled(cfg) && Ok(cfg, h) && Choose(cfg, h.csrs).None? && Valid(d)
    ensures TrapsOn(cfg, h, Generate(d), StepInjected(cfg, fp, h, Generate(d)))
    ensures Fetch(h.mem, h.pc) == Instruction(Generate(d)) ==> TrapsOn(cfg, h, Generate(d), StepFetched(cfg, fp, h))
  {
    DrawTraps(cfg, fp, h, d);
    hide CsrsOk, Aligned, Valid, Generate, ExecuteFetched, IllegalTrap, TrapsOn, StepInstruction, Choose, Fetch, Finish;
    InstructionTraps(cfg, fp, h, Generate(d));
  }
}
