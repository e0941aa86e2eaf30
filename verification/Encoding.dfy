/** Encoders of the 32-bit instruction formats and the fields the decoders find in their results. */
module Encoding {
  import opened Bits
  import opened Common
  import opened Hart
  import A = Rv32a
  import F = Rv32f
  import I = Rv32i

  function EncR(f7: bv32, rs2: bv32, rs1: bv32, f3: bv32, rd: bv32, op: bv32): Word {
    W(((f7 & 0x7F) << 25) | ((rs2 & 0x1F) << 20) | ((rs1 & 0x1F) << 15) | ((f3 & 0x7) << 12) | ((rd & 0x1F) << 7) | (op & 0x7F))
  }

  function EncI(imm: bv32, rs1: bv32, f3: bv32, rd: bv32, op: bv32): Word {
    W(((imm & 0xFFF) << 20) | ((rs1 & 0x1F) << 15) | ((f3 & 0x7) << 12) | ((rd & 0x1F) << 7) | (op & 0x7F))
  }

  /** EncR on fields of their exact width, as the generators use it. */
  function R(f7: bv7, rs2: bv5, rs1: bv5, f3: bv3, rd: bv5, op: bv7): Word {
    EncR(f7 as bv32, rs2 as bv32, rs1 as bv32, f3 as bv32, rd as bv32, op as bv32)
  }

  lemma ROpcode(f7: bv7, rs2: bv5, rs1: bv5, f3: bv3, rd: bv5, op: bv7) ensures Opcode(R(f7, rs2, rs1, f3, rd, op)) == op {}
  lemma RFunct3(f7: bv7, rs2: bv5, rs1: bv5, f3: bv3, rd: bv5, op: bv7) ensures Funct3(R(f7, rs2, rs1, f3, rd, op)) == f3 {}
  lemma RFunct7(f7: bv7, rs2: bv5, rs1: bv5, f3: bv3, rd: bv5, op: bv7) ensures Funct7(R(f7, rs2, rs1, f3, rd, op)) == f7 {}
  lemma RRs2(f7: bv7, rs2: bv5, rs1: bv5, f3: bv3, rd: bv5, op: bv7) ensures Rs2(R(f7, rs2, rs1, f3, rd, op)) == W(rs2 as bv32) {}
  lemma RFmt(f7: bv7, rs2: bv5, rs1: bv5, f3: bv3, rd: bv5, op: bv7) ensures F.Fmt(R(f7, rs2, rs1, f3, rd, op)) == (f7 & 3) as bv2 {}
  lemma RFunct5(f7: bv7, rs2: bv5, rs1: bv5, f3: bv3, rd: bv5, op: bv7) ensures A.Funct5(R(f7, rs2, rs1, f3, rd, op)) == (f7 >> 2) as bv5 {}
  lemma LongOpcode(i: Word) requires Opcode(i) & 3 == 3 ensures Is32Bit(i) {}

  /** i has these decoded fields. */
  predicate Fields(i: Word, f7: bv7, rs2: bv5, f3: bv3, op: bv7) {
    Opcode(i) == op && Funct3(i) == f3 && Funct7(i) == f7 && Rs2(i) == W(rs2 as bv32) && Is32Bit(i)
  }

  lemma RFields(f7: bv7, rs2: bv5, rs1: bv5, f3: bv3, rd: bv5, op: bv7)
    requires op & 3 == 3
    ensures Fields(R(f7, rs2, rs1, f3, rd, op), f7, rs2, f3, op)
  {
    hide R, Opcode, Funct3, Funct7, Rs2, Is32Bit;
    ROpcode(f7, rs2, rs1, f3, rd, op);
    RFunct3(f7, rs2, rs1, f3, rd, op);
    RFunct7(f7, rs2, rs1, f3, rd, op);
    RRs2(f7, rs2, rs1, f3, rd, op);
    LongOpcode(R(f7, rs2, rs1, f3, rd, op));
  }

  function High7(imm: bv12): bv7 { (imm >> 5) as bv7 }
  function Low5(imm: bv12): bv5 { (imm & 0x1F) as bv5 }

  lemma EncIFields(imm: bv12, rs1: bv5, f3: bv3, rd: bv5, op: bv7)
    ensures EncI(imm as bv32, rs1 as bv32, f3 as bv32, rd as bv32, op as bv32) == R(High7(imm), Low5(imm), rs1, f3, rd, op)
  {}
  lemma SlotFields(f7: bv7, low: bv5, rs1: bv5, f3: bv3, rd: bv5, op: bv7)
    ensures EncI(((f7 as bv32) << 5) | (low as bv32), rs1 as bv32, f3 as bv32, rd as bv32, op as bv32) == R(f7, low, rs1, f3, rd, op)
  {}

  function ImmediateWord(imm: bv12, rs1: bv5, f3: bv3, rd: bv5, op: bv7): Word {
    EncI(imm as bv32, rs1 as bv32, f3 as bv32, rd as bv32, op as bv32)
  }
  // STORE and STORE_FP place the immediate by hand.
  function StoreWord(imm: bv12, rs2: bv5, rs1: bv5, f3: bv3, op: bv32): Word {
    W((((imm as bv32) & 0xFE0) << 20) | ((rs2 as bv32) << 20) | ((rs1 as bv32) << 15) | ((f3 as bv32) << 12) |
      (((imm as bv32) & 0x1F) << 7) | op)
  }
  lemma StoreFields(imm: bv12, rs2: bv5, rs1: bv5, f3: bv3, op: bv7)
    ensures StoreWord(imm, rs2, rs1, f3, op as bv32) == R(High7(imm), rs2, rs1, f3, Low5(imm), op)
  {}

  // ------------------------------------------------------------------
  // The other fields, and the immediates of each format
  // ------------------------------------------------------------------

  function Reg(r: bv5): Word { W(r as bv32) }
  function Sext12(imm: bv12): Word { W(if imm & 0x800 != 0 then (imm as bv32) | 0xFFFF_F000 else imm as bv32) }

  lemma RRd(f7: bv7, rs2: bv5, rs1: bv5, f3: bv3, rd: bv5, op: bv7) ensures Rd(R(f7, rs2, rs1, f3, rd, op)) == Reg(rd) {}
  lemma RRs1(f7: bv7, rs2: bv5, rs1: bv5, f3: bv3, rd: bv5, op: bv7) ensures Rs1(R(f7, rs2, rs1, f3, rd, op)) == Reg(rs1) {}
  lemma IImmediate(imm: bv12, rs1: bv5, f3: bv3, rd: bv5, op: bv7)
    ensures I.ImmI(ImmediateWord(imm, rs1, f3, rd, op)) == Sext12(imm)
  {}
  lemma SImmediate(imm: bv12, rs2: bv5, rs1: bv5, f3: bv3, op: bv7)
    ensures I.ImmS(StoreWord(imm, rs2, rs1, f3, op as bv32)) == Sext12(imm)
  {}

  /** The U format: the upper 20 bits of the immediate. */
  function UpperWord(imm: bv20, rd: bv5, op: bv7): Word { W(((imm as bv32) << 12) | ((rd as bv32) << 7) | (op as bv32)) }

  /** The B format; bit 0 of the offset is not encoded. */
  function BranchWord(offset: bv13, rs2: bv5, rs1: bv5, f3: bv3): Word {
    var o := offset as bv32;
    W((((o >> 12) & 1) << 31) | (((o >> 5) & 0x3F) << 25) | ((rs2 as bv32) << 20) | ((rs1 as bv32) << 15) | ((f3 as bv32) << 12) |
      (((o >> 1) & 0xF) << 8) | (((o >> 11) & 1) << 7) | 0x63)
  }

  /** The J format; bit 0 of the offset is not encoded. */
  function JumpWord(offset: bv21, rd: bv5): Word {
    var o := offset as bv32;
    W((((o >> 20) & 1) << 31) | (((o >> 1) & 0x3FF) << 21) | (((o >> 11) & 1) << 20) | (((o >> 12) & 0xFF) << 12) |
      ((rd as bv32) << 7) | 0x6F)
  }

  /** The base decoder reads back the offset of a branch, sign-extended and even. */
  lemma BranchImmediate(offset: bv13, rs2: bv5, rs1: bv5, f3: bv3)
    ensures I.ImmB(BranchWord(offset, rs2, rs1, f3))
         == W(if offset & 0x1000 != 0 then (offset as bv32 & 0x1FFE) | 0xFFFF_E000 else offset as bv32 & 0x1FFE)
  {}

  lemma JumpForward(offset: bv21, rd: bv5)
    requires offset & 0x10_0000 == 0
    ensures I.ImmJ(JumpWord(offset, rd)).b == offset as bv32 & 0x1F_FFFE
  {}
  lemma JumpBackward(offset: bv21, rd: bv5)
    requires offset & 0x10_0000 != 0
    ensures I.ImmJ(JumpWord(offset, rd)).b == (offset as bv32 & 0x1F_FFFE) | 0xFFE0_0000
  {}
  /** Likewise the offset of a jump. */
  lemma JumpImmediate(offset: bv21, rd: bv5)
    ensures I.ImmJ(JumpWord(offset, rd)).b
         == if offset & 0x10_0000 != 0 then (offset as bv32 & 0x1F_FFFE) | 0xFFE0_0000 else offset as bv32 & 0x1F_FFFE
  {
    hide I.ImmJ, JumpWord;
    if offset & 0x10_0000 != 0 { JumpBackward(offset, rd); } else { JumpForward(offset, rd); }
  }

  // ------------------------------------------------------------------
  // All the fields of each format
  // ------------------------------------------------------------------

  lemma ImmediateFields(imm: bv12, rs1: bv5, f3: bv3, rd: bv5, op: bv7)
    ensures var w := ImmediateWord(imm, rs1, f3, rd, op);
      Opcode(w) == op && Funct3(w) == f3 && Rd(w) == Reg(rd) && Rs1(w) == Reg(rs1)
  {
    hide R, EncI, Opcode, Funct3, Rd, Rs1, High7, Low5;
    EncIFields(imm, rs1, f3, rd, op);
    ROpcode(High7(imm), Low5(imm), rs1, f3, rd, op);
    RFunct3(High7(imm), Low5(imm), rs1, f3, rd, op);
    RRd(High7(imm), Low5(imm), rs1, f3, rd, op);
    RRs1(High7(imm), Low5(imm), rs1, f3, rd, op);
  }

  lemma RegisterFields(f7: bv7, rs2: bv5, rs1: bv5, f3: bv3, rd: bv5, op: bv7)
    ensures var w := R(f7, rs2, rs1, f3, rd, op);
      Opcode(w) == op && Funct3(w) == f3 && Funct7(w) == f7 && Rd(w) == Reg(rd) && Rs1(w) == Reg(rs1) && Rs2(w) == Reg(rs2)
  {
    hide R, Opcode, Funct3, Funct7, Rd, Rs1, Rs2;
    ROpcode(f7, rs2, rs1, f3, rd, op);
    RFunct3(f7, rs2, rs1, f3, rd, op);
    RFunct7(f7, rs2, rs1, f3, rd, op);
    RRd(f7, rs2, rs1, f3, rd, op);
    RRs1(f7, rs2, rs1, f3, rd, op);
    RRs2(f7, rs2, rs1, f3, rd, op);
  }

  lemma StoreWordFields(imm: bv12, rs2: bv5, rs1: bv5, f3: bv3, op: bv7)
    ensures var w := StoreWord(imm, rs2, rs1, f3, op as bv32);
      Opcode(w) == op && Funct3(w) == f3 && Rs1(w) == Reg(rs1) && Rs2(w) == Reg(rs2)
  {
    hide R, StoreWord, Opcode, Funct3, Funct7, Rd, Rs1, Rs2, Reg, High7, Low5;
    StoreFields(imm, rs2, rs1, f3, op);
    RegisterFields(High7(imm), rs2, rs1, f3, Low5(imm), op);
  }
  lemma UpperOpcode(imm: bv20, rd: bv5, op: bv7) ensures Opcode(UpperWord(imm, rd, op)) == op {}
  lemma UpperRd(imm: bv20, rd: bv5, op: bv7) ensures Rd(UpperWord(imm, rd, op)) == Reg(rd) {}
  lemma JumpFields(offset: bv21, rd: bv5)
    ensures Opcode(JumpWord(offset, rd)) == 0x6F && Rd(JumpWord(offset, rd)) == Reg(rd)
  {}
  lemma BranchFields(offset: bv13, rs2: bv5, rs1: bv5, f3: bv3)
    ensures var w := BranchWord(offset, rs2, rs1, f3);
      Opcode(w) == 0x63 && Funct3(w) == f3 && Rs1(w) == Reg(rs1) && Rs2(w) == Reg(rs2)
  {}

  /** The AMO format splits funct7 into funct5 and the ordering bits. */
  function AmoFunct7(f5: bv5, aqrl: bv2): bv7 { ((f5 as bv7) << 2) | (aqrl as bv7) }
  lemma AmoSplits(f5: bv5, aqrl: bv2) ensures (AmoFunct7(f5, aqrl) >> 2) as bv5 == f5 {}
  function AmoWord(f5: bv5, aqrl: bv2, rs2: bv5, rs1: bv5, rd: bv5): Word { R(AmoFunct7(f5, aqrl), rs2, rs1, 2, rd, 0x2F) }
}
