/** Compressed instructions mean the same as the 32-bit instructions they stand for. */
module RvcExpansion {
  import opened Bits
  import opened Common
  import opened Zicsr
  import opened Hart
  import opened Invariant
  import opened Dispatch
  import opened Encoding
  import C = Rv32c
  import F = Rv32f
  import FC = Rv32fc
  import I = Rv32i
  import opened Precise

  // ------------------------------------------------------------------
  // Expansion, from the instruction tables of the RVC chapter, one immediate bit at a time
  // ------------------------------------------------------------------

  function RdField(c: Word): bv5 { ((c.b >> 7) & 0x1F) as bv5 }
  function Rs2Field(c: Word): bv5 { ((c.b >> 2) & 0x1F) as bv5 }
  function RdShort(c: Word): bv5 { (0x8 | ((c.b >> 7) & 7)) as bv5 }
  function Rs2Short(c: Word): bv5 { (0x8 | ((c.b >> 2) & 7)) as bv5 }

  // nzuimm[5:4|9:6|2|3]
  function CiwImm(c: Word): bv12 {
    ((((c.b >> 12) & 1) << 5) | (((c.b >> 11) & 1) << 4) | (((c.b >> 10) & 1) << 9) | (((c.b >> 9) & 1) << 8) |
     (((c.b >> 8) & 1) << 7) | (((c.b >> 7) & 1) << 6) | (((c.b >> 6) & 1) << 2) | (((c.b >> 5) & 1) << 3)) as bv12
  }
  // uimm[5:3] and uimm[2|6]
  function ClImm(c: Word): bv12 {
    ((((c.b >> 12) & 1) << 5) | (((c.b >> 11) & 1) << 4) | (((c.b >> 10) & 1) << 3) | (((c.b >> 6) & 1) << 2) |
     (((c.b >> 5) & 1) << 6)) as bv12
  }
  // imm[5] and imm[4:0], sign-extended
  function CiImm(c: Word): bv12 {
    (if (c.b >> 12) & 1 == 1 then 0xFE0 else 0) | (((c.b >> 2) & 0x1F) as bv12)
  }
  // nzimm[9] and nzimm[4|6|8:7|5], sign-extended
  function Ci16Imm(c: Word): bv12 {
    (if (c.b >> 12) & 1 == 1 then 0xE00 else 0) |
    (((((c.b >> 6) & 1) << 4) | (((c.b >> 5) & 1) << 6) | (((c.b >> 4) & 1) << 8) | (((c.b >> 3) & 1) << 7) |
      (((c.b >> 2) & 1) << 5)) as bv12)
  }
  // nzimm[17] and nzimm[16:12], sign-extended; the result is bits 31 to 12
  function CLuiImm(c: Word): bv20 {
    (if (c.b >> 12) & 1 == 1 then 0xFFFE0 else 0) | (((c.b >> 2) & 0x1F) as bv20)
  }
  // uimm[5] and uimm[4:2|7:6]
  function CLwspImm(c: Word): bv12 {
    ((((c.b >> 12) & 1) << 5) | (((c.b >> 6) & 1) << 4) | (((c.b >> 5) & 1) << 3) | (((c.b >> 4) & 1) << 2) |
     (((c.b >> 3) & 1) << 7) | (((c.b >> 2) & 1) << 6)) as bv12
  }
  // uimm[5:2|7:6]
  function CSwspImm(c: Word): bv12 {
    ((((c.b >> 12) & 1) << 5) | (((c.b >> 11) & 1) << 4) | (((c.b >> 10) & 1) << 3) | (((c.b >> 9) & 1) << 2) |
     (((c.b >> 8) & 1) << 7) | (((c.b >> 7) & 1) << 6)) as bv12
  }
  // imm[11|4|9:8|10|6|7|3:1|5], sign-extended
  function CjOffset(c: Word): bv21 {
    (if (c.b >> 12) & 1 == 1 then 0x1FF800 else 0) |
    (((((c.b >> 11) & 1) << 4) | (((c.b >> 10) & 1) << 9) | (((c.b >> 9) & 1) << 8) | (((c.b >> 8) & 1) << 10) |
      (((c.b >> 7) & 1) << 6) | (((c.b >> 6) & 1) << 7) | (((c.b >> 5) & 1) << 3) | (((c.b >> 4) & 1) << 2) |
      (((c.b >> 3) & 1) << 1) | (((c.b >> 2) & 1) << 5)) as bv21)
  }
  // imm[8|4:3] and imm[7:6|2:1|5], sign-extended
  function CbOffset(c: Word): bv13 {
    (if (c.b >> 12) & 1 == 1 then 0x1F00 else 0) |
    (((((c.b >> 11) & 1) << 4) | (((c.b >> 10) & 1) << 3) | (((c.b >> 6) & 1) << 7) | (((c.b >> 5) & 1) << 6) |
      (((c.b >> 4) & 1) << 2) | (((c.b >> 3) & 1) << 1) | (((c.b >> 2) & 1) << 5)) as bv13)
  }

  predicate High(c: Word) { (c.b >> 12) & 1 == 1 }

  const EBREAK_WORD := W(0x0010_0073)

  function Expand0(c: Word): Option<Word> {
    var f3 := C.CFunct3(c);
    if f3 == 0 then (if CiwImm(c) != 0 then Some(ImmediateWord(CiwImm(c), 2, 0, Rs2Short(c), 0x13)) else None)
    else if f3 == 2 then Some(ImmediateWord(ClImm(c), RdShort(c), 2, Rs2Short(c), 0x03))
    else if f3 == 6 then Some(StoreWord(ClImm(c), Rs2Short(c), RdShort(c), 2, 0x23))
    else None
  }

  function ExpandAlu(c: Word): Option<Word> {
    var rd := RdShort(c);
    var sel := (c.b >> 10) & 3;
    var op := (c.b >> 5) & 3;
    if sel == 2 then Some(ImmediateWord(CiImm(c), rd, 7, rd, 0x13))
    else if High(c) then None
    else if sel == 0 then Some(R(0x00, Rs2Field(c), rd, 5, rd, 0x13))
    else if sel == 1 then Some(R(0x20, Rs2Field(c), rd, 5, rd, 0x13))
    else if op == 0 then Some(R(0x20, Rs2Short(c), rd, 0, rd, 0x33))
    else if op == 1 then Some(R(0x00, Rs2Short(c), rd, 4, rd, 0x33))
    else if op == 2 then Some(R(0x00, Rs2Short(c), rd, 6, rd, 0x33))
    else Some(R(0x00, Rs2Short(c), rd, 7, rd, 0x33))
  }

  function Expand1(c: Word): Option<Word> {
    var f3 := C.CFunct3(c);
    var rd := RdField(c);
    if f3 == 0 then Some(ImmediateWord(CiImm(c), rd, 0, rd, 0x13))
    else if f3 == 1 then Some(JumpWord(CjOffset(c), 1))
    else if f3 == 2 then Some(ImmediateWord(CiImm(c), 0, 0, rd, 0x13))
    else if f3 == 3 && rd == 2 then (if Ci16Imm(c) != 0 then Some(ImmediateWord(Ci16Imm(c), 2, 0, 2, 0x13)) else None)
    else if f3 == 3 then (if CLuiImm(c) != 0 then Some(UpperWord(CLuiImm(c), rd, 0x37)) else None)
    else if f3 == 4 then ExpandAlu(c)
    else if f3 == 5 then Some(JumpWord(CjOffset(c), 0))
    else Some(BranchWord(CbOffset(c), 0, RdShort(c), if f3 == 6 then 0 else 1))
  }

  function ExpandJumpMove(c: Word): Option<Word> {
    var rd := RdField(c);
    var rs2 := Rs2Field(c);
    if rs2 == 0 then
      if rd == 0 then (if High(c) then Some(EBREAK_WORD) else None)
      else Some(ImmediateWord(0, rd, 0, if High(c) then 1 else 0, 0x67))
    else Some(R(0x00, rs2, if High(c) then rd else 0, 0, rd, 0x33))
  }

  function Expand2(c: Word): Option<Word> {
    var f3 := C.CFunct3(c);
    var rd := RdField(c);
    if f3 == 0 then (if High(c) then None else Some(R(0x00, Rs2Field(c), rd, 1, rd, 0x13)))
    else if f3 == 2 then (if rd != 0 then Some(ImmediateWord(CLwspImm(c), 2, 2, rd, 0x03)) else None)
    else if f3 == 4 then ExpandJumpMove(c)
    else if f3 == 6 then Some(StoreWord(CSwspImm(c), Rs2Field(c), 2, 2, 0x23))
    else None
  }

  /** The 32-bit instruction an RV32C parcel stands for, or None for a reserved one. */
  function Expand(c: Word): Option<Word> {
    var q := C.Quadrant(c);
    if q == 0 then Expand0(c) else if q == 1 then Expand1(c) else if q == 2 then Expand2(c) else None
  }

  // ------------------------------------------------------------------
  // The decoders agree on every field
  // ------------------------------------------------------------------

  lemma CRdIs(c: Word) ensures C.CRd(c) == Reg(RdField(c)) {}
  lemma CRs2Is(c: Word) ensures C.CRs2(c) == Reg(Rs2Field(c)) {}
  lemma CRdShortIs(c: Word) ensures C.CRdShort(c) == Reg(RdShort(c)) {}
  lemma CRs2ShortIs(c: Word) ensures C.CRs2Short(c) == Reg(Rs2Short(c)) {}
  lemma CiwIs(c: Word) ensures C.ImmAddi4spn(c) == Sext12(CiwImm(c)) {}
  lemma ClIs(c: Word) ensures C.ImmWord(c) == Sext12(ClImm(c)) {}
  lemma CiIs(c: Word) ensures C.ImmSix(c) == Sext12(CiImm(c)) {}
  lemma Ci16Is(c: Word) ensures C.ImmAddi16sp(c) == Sext12(Ci16Imm(c)) {}
  lemma CLwspIs(c: Word) ensures C.ImmLwsp(c) == Sext12(CLwspImm(c)) {}
  lemma CSwspIs(c: Word) ensures C.ImmSwsp(c) == Sext12(CSwspImm(c)) {}
  lemma CLuiIs(c: Word, rd: bv5) ensures C.ImmLui(c) == I.ImmU(UpperWord(CLuiImm(c), rd, 0x37)) {}
  lemma CjIs(c: Word, rd: bv5) ensures C.ImmCj(c) == I.ImmJ(JumpWord(CjOffset(c), rd)) {}
  lemma CbIs(c: Word, rs1: bv5, f3: bv3) ensures C.ImmCb(c) == I.ImmB(BranchWord(CbOffset(c), 0, rs1, f3)) {}
  lemma CiwZero(c: Word) ensures C.ImmAddi4spn(c) == W(0) <==> CiwImm(c) == 0 {}
  lemma Ci16Zero(c: Word) ensures C.NzAddi16sp(c) == 0 <==> Ci16Imm(c) == 0 {}
  lemma CLuiZero(c: Word) ensures C.NzLui(c) == 0 <==> CLuiImm(c) == 0 {}
  lemma HighIs(c: Word) ensures C.Bit12(c) == High(c) {}
  lemma RegZero(r: bv5) ensures Reg(r) == W(0) <==> r == 0 {}
  lemma RegTwo(r: bv5) ensures Reg(r) == W(2) <==> r == 2 {}

  lemma ImmediateDecodes(imm: bv12, rs1: bv5, f3: bv3, rd: bv5, op: bv7, s: bool)
    requires (op == 0x13 && (f3 == 0 || f3 == 7)) || (op == 0x03 && f3 == 2) || (op == 0x67 && f3 == 0)
    ensures var d := I.Decode(ImmediateWord(imm, rs1, f3, rd, op), s);
      d.op == (if op == 0x13 then if f3 == 0 then I.ADDI else I.ANDI else if op == 0x03 then I.LW else I.JALR) &&
      d.rd == Reg(rd) && d.rs1 == Reg(rs1) && d.imm == Sext12(imm)
  {
    hide ImmediateWord, Opcode, Funct3, Funct7, Rd, Rs1, Rs2, I.ImmI, Reg, Sext12, I.SystemType, I.OpType;
    ImmediateFields(imm, rs1, f3, rd, op);
    IImmediate(imm, rs1, f3, rd, op);
  }

  lemma ShiftDecodes(f7: bv7, shamt: bv5, rs1: bv5, f3: bv3, rd: bv5, s: bool)
    requires (f3 == 1 && f7 == 0) || (f3 == 5 && (f7 == 0 || f7 == 0x20))
    ensures var d := I.Decode(R(f7, shamt, rs1, f3, rd, 0x13), s);
      d.op == (if f3 == 1 then I.SLLI else if f7 == 0 then I.SRLI else I.SRAI) &&
      d.rd == Reg(rd) && d.rs1 == Reg(rs1) && d.imm == Reg(shamt)
  {
    hide R, Opcode, Funct3, Funct7, Rd, Rs1, Rs2, Reg, I.SystemType, I.OpType;
    RegisterFields(f7, shamt, rs1, f3, rd, 0x13);
  }

  lemma RegisterDecodes(f7: bv7, rs2: bv5, rs1: bv5, f3: bv3, rd: bv5, s: bool)
    requires (f7 == 0x20 && f3 == 0) || (f7 == 0 && (f3 == 0 || f3 == 4 || f3 == 6 || f3 == 7))
    ensures var d := I.Decode(R(f7, rs2, rs1, f3, rd, 0x33), s);
      d.op == (if f7 == 0x20 then I.SUB else if f3 == 0 then I.ADD else if f3 == 4 then I.XOR else if f3 == 6 then I.OR else I.AND) &&
      d.rd == Reg(rd) && d.rs1 == Reg(rs1) && d.rs2 == Reg(rs2)
  {
    hide R, Opcode, Funct3, Funct7, Rd, Rs1, Rs2, Reg, I.SystemType, I.OpImmType;
    RegisterFields(f7, rs2, rs1, f3, rd, 0x33);
  }

  lemma StoreDecodes(imm: bv12, rs2: bv5, rs1: bv5, s: bool)
    ensures var d := I.Decode(StoreWord(imm, rs2, rs1, 2, 0x23), s);
      d.op.SW? && d.rs1 == Reg(rs1) && d.rs2 == Reg(rs2) && d.imm == Sext12(imm)
  {
    hide R, StoreWord, Opcode, Funct3, Funct7, Rd, Rs1, Rs2, Reg, Sext12, I.ImmS, I.SystemType, I.OpType, I.OpImmType;
    hide High7, Low5;
    StoreFields(imm, rs2, rs1, 2, 0x23);
    RegisterFields(High7(imm), rs2, rs1, 2, Low5(imm), 0x23);
    SImmediate(imm, rs2, rs1, 2, 0x23);
  }

  lemma UpperDecodes(imm: bv20, rd: bv5, s: bool)
    ensures var w := UpperWord(imm, rd, 0x37);
      var d := I.Decode(w, s);
      d.op.LUI? && d.rd == Reg(rd) && d.imm == I.ImmU(w)
  {
    UpperOpcode(imm, rd, 0x37);
    UpperRd(imm, rd, 0x37);
    hide UpperWord, Opcode, Funct3, Funct7, Rd, Rs1, Rs2, Reg, I.ImmU;
  }

  lemma JumpDecodes(offset: bv21, rd: bv5, s: bool)
    ensures var d := I.Decode(JumpWord(offset, rd), s);
      d.op.JAL? && d.rd == Reg(rd) && d.imm == I.ImmJ(JumpWord(offset, rd))
  {
    JumpFields(offset, rd);
    hide JumpWord, Opcode, Funct3, Funct7, Rd, Rs1, Rs2, Reg, I.ImmJ;
  }

  lemma BranchDecodes(offset: bv13, rs1: bv5, f3: bv3, s: bool)
    requires f3 == 0 || f3 == 1
    ensures var w := BranchWord(offset, 0, rs1, f3);
      var d := I.Decode(w, s);
      d.op == (if f3 == 0 then I.BEQ else I.BNE) && d.rs1 == Reg(rs1) && d.rs2 == W(0) && d.imm == I.ImmB(w)
  {
    BranchFields(offset, 0, rs1, f3);
    RegZero(0);
    hide BranchWord, Opcode, Funct3, Funct7, Rd, Rs1, Rs2, Reg, I.ImmB;
  }

  lemma EbreakDecodes(s: bool)
    ensures I.Decode(EBREAK_WORD, s).op.EBREAK?
  {
    assert Opcode(EBREAK_WORD) == 0x73 && Funct3(EBREAK_WORD) == 0;
    hide Opcode, Funct3, Funct7;
  }

  /** The decoded 32-bit instruction performs the decoded compressed one: same operation on the same operands. */
  predicate Matches(c: C.Decoded, i: I.Decoded) {
    match c.op
    case C_ADDI4SPN | C_ADDI | C_ADDI16SP => i.op.ADDI? && i.rd == c.rd && i.rs1 == c.rs1 && i.imm == c.imm
    case C_NOP => i.op.ADDI? && i.rd == W(0)
    case C_LI => i.op.ADDI? && i.rd == c.rd && i.rs1 == W(0) && i.imm == c.imm
    case C_LUI => i.op.LUI? && i.rd == c.rd && i.imm == c.imm
    case C_SRLI => i.op.SRLI? && i.rd == c.rd && i.rs1 == c.rs1 && i.imm == c.imm
    case C_SRAI => i.op.SRAI? && i.rd == c.rd && i.rs1 == c.rs1 && i.imm == c.imm
    case C_SLLI => i.op.SLLI? && i.rd == c.rd && i.rs1 == c.rs1 && i.imm == c.imm
    case C_ANDI => i.op.ANDI? && i.rd == c.rd && i.rs1 == c.rs1 && i.imm == c.imm
    case C_SUB => i.op.SUB? && i.rd == c.rd && i.rs1 == c.rs1 && i.rs2 == c.rs2
    case C_XOR => i.op.XOR? && i.rd == c.rd && i.rs1 == c.rs1 && i.rs2 == c.rs2
    case C_OR => i.op.OR? && i.rd == c.rd && i.rs1 == c.rs1 && i.rs2 == c.rs2
    case C_AND => i.op.AND? && i.rd == c.rd && i.rs1 == c.rs1 && i.rs2 == c.rs2
    case C_MV => i.op.ADD? && i.rd == c.rd && i.rs1 == W(0) && i.rs2 == c.rs2
    case C_ADD => i.op.ADD? && i.rd == c.rd && i.rs1 == c.rs1 && i.rs2 == c.rs2
    case C_LW | C_LWSP => i.op.LW? && i.rd == c.rd && i.rs1 == c.rs1 && i.imm == c.imm
    case C_SW | C_SWSP => i.op.SW? && i.rs1 == c.rs1 && i.rs2 == c.rs2 && i.imm == c.imm
    case C_JAL => i.op.JAL? && i.rd == W(1) && i.imm == c.imm
    case C_J => i.op.JAL? && i.rd == W(0) && i.imm == c.imm
    case C_BEQZ => i.op.BEQ? && i.rs1 == c.rs1 && i.rs2 == W(0) && i.imm == c.imm
    case C_BNEZ => i.op.BNE? && i.rs1 == c.rs1 && i.rs2 == W(0) && i.imm == c.imm
    case C_JR => i.op.JALR? && i.rd == W(0) && i.rs1 == c.rs1 && i.imm == W(0)
    case C_JALR => i.op.JALR? && i.rd == W(1) && i.rs1 == c.rs1 && i.imm == W(0)
    case C_EBREAK => i.op.EBREAK?
    case ILLEGAL => false
  }

  /** A reserved parcel has no expansion; any other decodes to the operation of its expansion. */
  predicate Agrees(c: Word, d: C.Decoded, w: Option<Word>, s: bool) {
    hide Matches, I.Decode;
    if w.None? then d.op.ILLEGAL? else Matches(d, I.Decode(w.value, s))
  }

  lemma RegisterFieldsAgree(c: Word)
    ensures C.CRd(c) == Reg(RdField(c)) && C.CRs2(c) == Reg(Rs2Field(c))
    ensures C.CRdShort(c) == Reg(RdShort(c)) && C.CRs2Short(c) == Reg(Rs2Short(c))
    ensures C.Bit12(c) == High(c) && Reg(0) == W(0) && Reg(1) == W(1) && Reg(2) == W(2)
    ensures Reg(RdField(c)) == W(0) <==> RdField(c) == 0
    ensures Reg(RdField(c)) == W(2) <==> RdField(c) == 2
    ensures Reg(Rs2Field(c)) == W(0) <==> Rs2Field(c) == 0
  {
    CRdIs(c);
    CRs2Is(c);
    CRdShortIs(c);
    CRs2ShortIs(c);
    HighIs(c);
    RegZero(RdField(c));
    RegTwo(RdField(c));
    RegZero(Rs2Field(c));
    assert Reg(0) == W(0) && Reg(1) == W(1) && Reg(2) == W(2);
    hide C.CRd, C.CRs2, C.CRdShort, C.CRs2Short, RdField, Rs2Field, RdShort, Rs2Short, Reg, C.Bit12, High;
  }

  lemma Agree0(c: Word, s: bool)
    requires C.Quadrant(c) == 0
    ensures Agrees(c, C.Decode(c), Expand0(c), s)
  {
    hide C.CRd, C.CRs2, C.CRdShort, C.CRs2Short, RdField, Rs2Field, RdShort, Rs2Short, Reg, C.Bit12, High, C.Quadrant, C.CFunct3;
    hide C.ImmAddi4spn, C.ImmWord, CiwImm, ClImm, ImmediateWord, StoreWord, Sext12, I.Decode;
    RegisterFieldsAgree(c);
    CiwIs(c);
    CiwZero(c);
    ClIs(c);
    ImmediateDecodes(CiwImm(c), 2, 0, Rs2Short(c), 0x13, s);
    ImmediateDecodes(ClImm(c), RdShort(c), 2, Rs2Short(c), 0x03, s);
    StoreDecodes(ClImm(c), Rs2Short(c), RdShort(c), s);
  }

  predicate IsAluGroup(c: Word) { C.Quadrant(c) == 1 && C.CFunct3(c) == 4 }
  predicate IsRegisterAlu(c: Word) { (c.b >> 10) & 3 == 3 }

  lemma AgreeAluImmediate(c: Word, s: bool)
    requires IsAluGroup(c) && !IsRegisterAlu(c)
    ensures Agrees(c, C.Decode(c), ExpandAlu(c), s)
  {
    hide C.CRd, C.CRs2, C.CRdShort, C.CRs2Short, RdField, Rs2Field, RdShort, Rs2Short, Reg, C.Bit12, High, C.Quadrant, C.CFunct3;
    hide C.ImmSix, CiImm, ImmediateWord, R, Sext12, I.Decode;
    RegisterFieldsAgree(c);
    CiIs(c);
    var rd := RdShort(c);
    ImmediateDecodes(CiImm(c), rd, 7, rd, 0x13, s);
    ShiftDecodes(0x00, Rs2Field(c), rd, 5, rd, s);
    ShiftDecodes(0x20, Rs2Field(c), rd, 5, rd, s);
  }

  lemma AgreeAluRegister(c: Word, s: bool)
    requires IsAluGroup(c) && IsRegisterAlu(c)
    ensures Agrees(c, C.Decode(c), ExpandAlu(c), s)
  {
    hide C.CRd, C.CRs2, C.CRdShort, C.CRs2Short, RdField, Rs2Field, RdShort, Rs2Short, Reg, C.Bit12, High, C.Quadrant, C.CFunct3;
    hide C.ImmSix, CiImm, ImmediateWord, R, Sext12, I.Decode;
    RegisterFieldsAgree(c);
    var rd := RdShort(c);
    RegisterDecodes(0x20, Rs2Short(c), rd, 0, rd, s);
    RegisterDecodes(0x00, Rs2Short(c), rd, 4, rd, s);
    RegisterDecodes(0x00, Rs2Short(c), rd, 6, rd, s);
    RegisterDecodes(0x00, Rs2Short(c), rd, 7, rd, s);
  }

  lemma Agree1Low(c: Word, s: bool)
    requires C.Quadrant(c) == 1 && C.CFunct3(c) < 4
    ensures Agrees(c, C.Decode(c), Expand1(c), s)
  {
    hide C.CRd, C.CRs2, C.CRdShort, C.CRs2Short, RdField, Rs2Field, RdShort, Rs2Short, Reg, C.Bit12, High, C.Quadrant, C.CFunct3;
    hide C.ImmSix, CiImm, ImmediateWord, Sext12, I.Decode, C.NzAddi16sp, C.NzLui, C.ImmAddi16sp, C.ImmLui, C.ImmCj, C.ImmCb;
    hide Ci16Imm, CLuiImm, CjOffset, CbOffset, UpperWord, JumpWord, BranchWord, I.ImmU, I.ImmJ, I.ImmB, ExpandAlu, C.DecodeC1Alu;
    RegisterFieldsAgree(c);
    CiIs(c);
    Ci16Is(c);
    Ci16Zero(c);
    CLuiIs(c, RdField(c));
    CLuiZero(c);
    CjIs(c, 1);
    ImmediateDecodes(CiImm(c), RdField(c), 0, RdField(c), 0x13, s);
    ImmediateDecodes(CiImm(c), 0, 0, RdField(c), 0x13, s);
    ImmediateDecodes(Ci16Imm(c), 2, 0, 2, 0x13, s);
    UpperDecodes(CLuiImm(c), RdField(c), s);
    JumpDecodes(CjOffset(c), 1, s);
  }

  lemma AgreeJump(c: Word, s: bool)
    requires C.Quadrant(c) == 1 && C.CFunct3(c) == 5
    ensures Agrees(c, C.Decode(c), Expand1(c), s)
  {
    hide C.CRd, C.CRs2, C.CRdShort, C.CRs2Short, RdField, Rs2Field, RdShort, Rs2Short, Reg, C.Bit12, High, C.Quadrant, C.CFunct3;
    hide C.ImmCj, C.ImmCb, CjOffset, CbOffset, JumpWord, BranchWord, I.ImmJ, I.ImmB, ExpandAlu, C.DecodeC1Alu, I.Decode;
    RegisterFieldsAgree(c);
    CjIs(c, 0);
    JumpDecodes(CjOffset(c), 0, s);
  }

  lemma AgreeBranch(c: Word, s: bool)
    requires C.Quadrant(c) == 1 && C.CFunct3(c) >= 6
    ensures Agrees(c, C.Decode(c), Expand1(c), s)
  {
    hide C.CRd, C.CRs2, C.CRdShort, C.CRs2Short, RdField, Rs2Field, RdShort, Rs2Short, Reg, C.Bit12, High, C.Quadrant, C.CFunct3;
    hide C.ImmCj, C.ImmCb, CjOffset, CbOffset, JumpWord, BranchWord, I.ImmJ, I.ImmB, ExpandAlu, C.DecodeC1Alu, I.Decode;
    RegisterFieldsAgree(c);
    CbIs(c, RdShort(c), 0);
    CbIs(c, RdShort(c), 1);
    BranchDecodes(CbOffset(c), RdShort(c), 0, s);
    BranchDecodes(CbOffset(c), RdShort(c), 1, s);
  }

  lemma AluGroup(c: Word)
    requires IsAluGroup(c)
    ensures Expand1(c) == ExpandAlu(c)
  {
    hide C.CFunct3, C.Quadrant, ExpandAlu;
  }

  lemma Agree1(c: Word, s: bool)
    requires C.Quadrant(c) == 1
    ensures Agrees(c, C.Decode(c), Expand1(c), s)
  {
    hide C.CFunct3, C.Quadrant, C.Decode, Expand1, ExpandAlu, Agrees, IsRegisterAlu;
    if C.CFunct3(c) == 4 {
      AluGroup(c);
      if IsRegisterAlu(c) { AgreeAluRegister(c, s); } else { AgreeAluImmediate(c, s); }
    } else if C.CFunct3(c) < 4 {
      Agree1Low(c, s);
    } else if C.CFunct3(c) == 5 {
      AgreeJump(c, s);
    } else {
      AgreeBranch(c, s);
    }
  }

  lemma AgreeJumpMove(c: Word, s: bool)
    requires C.Quadrant(c) == 2 && C.CFunct3(c) == 4
    ensures Agrees(c, C.Decode(c), ExpandJumpMove(c), s)
  {
    hide C.CRd, C.CRs2, C.CRdShort, C.CRs2Short, RdField, Rs2Field, RdShort, Rs2Short, Reg, C.Bit12, High, C.Quadrant, C.CFunct3;
    hide ImmediateWord, R, Sext12, I.Decode;
    RegisterFieldsAgree(c);
    ZeroImmediate();
    EbreakDecodes(s);
    ImmediateDecodes(0, RdField(c), 0, 0, 0x67, s);
    ImmediateDecodes(0, RdField(c), 0, 1, 0x67, s);
    RegisterDecodes(0x00, Rs2Field(c), 0, 0, RdField(c), s);
    RegisterDecodes(0x00, Rs2Field(c), RdField(c), 0, RdField(c), s);
  }

  lemma Agree2Memory(c: Word, s: bool)
    requires C.Quadrant(c) == 2 && C.CFunct3(c) != 4
    ensures Agrees(c, C.Decode(c), Expand2(c), s)
  {
    hide C.CRd, C.CRs2, C.CRdShort, C.CRs2Short, RdField, Rs2Field, RdShort, Rs2Short, Reg, C.Bit12, High, C.Quadrant, C.CFunct3;
    hide ImmediateWord, StoreWord, R, Sext12, I.Decode, C.ImmLwsp, C.ImmSwsp, CLwspImm, CSwspImm, ExpandJumpMove;
    RegisterFieldsAgree(c);
    CLwspIs(c);
    CSwspIs(c);
    ShiftDecodes(0x00, Rs2Field(c), RdField(c), 1, RdField(c), s);
    ImmediateDecodes(CLwspImm(c), 2, 2, RdField(c), 0x03, s);
    StoreDecodes(CSwspImm(c), Rs2Field(c), 2, s);
  }

  lemma Agree2(c: Word, s: bool)
    requires C.Quadrant(c) == 2
    ensures Agrees(c, C.Decode(c), Expand2(c), s)
  {
    if C.CFunct3(c) == 4 {
      assert Expand2(c) == ExpandJumpMove(c) by { hide C.CFunct3, C.Quadrant, ExpandJumpMove; }
      AgreeJumpMove(c, s);
    } else {
      Agree2Memory(c, s);
    }
  }
  lemma ZeroImmediate() ensures Sext12(0) == W(0) {}

  lemma ExpansionAgrees(c: Word, s: bool)
    ensures Agrees(c, C.Decode(c), Expand(c), s)
  {
    hide Agrees, Expand0, Expand1, Expand2, C.Decode, C.Quadrant;
    if C.Quadrant(c) == 0 {
      Agree0(c, s);
    } else if C.Quadrant(c) == 1 {
      Agree1(c, s);
    } else if C.Quadrant(c) == 2 {
      Agree2(c, s);
    } else {
      NotAParcel(c, s);
    }
  }
  lemma NotAParcel(c: Word, s: bool)
    requires C.Quadrant(c) == 3
    ensures Agrees(c, C.Decode(c), None, s)
  {
    hide C.Quadrant;
  }

  /** The expansion exists exactly for the parcels the decoder accepts. */
  lemma ExpansionExists(c: Word)
    ensures Expand(c).Some? <==> !C.DecodeType(c).ILLEGAL?
  {
    ExpansionAgrees(c, true);
    hide Expand, C.DecodeType, I.Decode;
  }

  // ------------------------------------------------------------------
  // Execution
  // ------------------------------------------------------------------

  /** Whether the instruction writes its return address to rd. */
  predicate Links(i: I.Decoded) { i.op.JAL? || i.op.JALR? }

  /**
   * The compressed outcome is the outcome of the 32-bit instruction, but for an instruction length of 2: the
   * next pc of an instruction that falls through, and the return address of a jump.
   */
  predicate SameEffect(c: C.Outcome, i: I.Outcome, d: I.Decoded, x: Regs, pc: Word) {
    c.r.trap == i.r.trap && (c.r.trap ==> c.r.cause == i.r.cause && c.r.tval == i.r.tval) && c.m == i.m &&
    c.r.taken == i.r.taken && (!c.r.trap ==> c.r.nextPc == if c.r.taken then i.r.nextPc else Add(pc, W(2))) &&
    c.x == (if Links(d) && !c.r.trap then SetReg(x, d.rd, Add(pc, W(2))) else i.x) &&
    !i.r.mret && !i.r.sret && !i.r.sfenceVma && !i.r.wfi
  }

  lemma AddZero(a: Word) ensures Add(a, W(0)) == a && Add(W(0), a) == a {}
  lemma ReadZero(x: Regs) ensures GetReg(x, W(0)) == W(0) {}
  lemma WriteZero(x: Regs, v: Word) ensures SetReg(x, W(0), v) == x {}

  /** The operands of the 32-bit ALU operation that matches c. */
  function Left(c: C.Decoded, x: Regs): Word {
    if c.op.C_LI? || c.op.C_MV? then W(0) else GetReg(x, c.rs1)
  }

  lemma MatchingAlu(c: C.Decoded, d: I.Decoded, x: Regs)
    requires C.IsAlu(c.op) && !c.op.C_NOP? && !c.op.C_LUI? && Matches(c, d)
    ensures d.rd == c.rd && GetReg(x, d.rs1) == Left(c, x)
    ensures I.IsAluImm(d.op) ==> I.Alu(d.op, Left(c, x), d.imm) == C.Alu(c, GetReg(x, c.rs1), GetReg(x, c.rs2))
    ensures I.IsAluReg(d.op) ==> I.Alu(d.op, Left(c, x), GetReg(x, d.rs2)) == C.Alu(c, GetReg(x, c.rs1), GetReg(x, c.rs2))
    ensures I.IsAluImm(d.op) || I.IsAluReg(d.op)
  {
    hide GetReg, SetReg, Load, Store, Add, Sub, And, Or, Xor, ShiftLeft, ShiftRight, ShiftRightArith, SignedLess, Less;
    ReadZero(x);
    AddZero(c.imm);
    AddZero(GetReg(x, c.rs2));
  }

  lemma CAluOutcome(allow: bool, c: C.Decoded, x: Regs, m: Mem, pc: Word)
    requires C.IsAlu(c.op) && !c.op.C_NOP?
    ensures C.Execute(allow, c, x, m, pc)
         == C.Outcome(C.Fresh(pc), SetReg(x, c.rd, C.Alu(c, GetReg(x, c.rs1), GetReg(x, c.rs2))), m)
  {
    hide GetReg, SetReg, Load, Store, Add, And, C.Alu;
  }
  lemma IAluOutcome(cfg: I.Config, d: I.Decoded, x: Regs, m: Mem, pc: Word)
    requires I.IsAluImm(d.op) || I.IsAluReg(d.op)
    ensures var b := if I.IsAluImm(d.op) then d.imm else GetReg(x, d.rs2);
      I.Execute(cfg, d, x, m, pc) == I.Outcome(I.Fresh(pc), SetReg(x, d.rd, I.Alu(d.op, GetReg(x, d.rs1), b)), m)
  {
    hide GetReg, SetReg, Load, Store, Add, And, I.Alu;
  }

  lemma AluExecutes(cfg: I.Config, c: C.Decoded, d: I.Decoded, x: Regs, m: Mem, pc: Word)
    requires C.IsAlu(c.op) && !c.op.C_NOP? && !c.op.C_LUI? && Matches(c, d)
    ensures SameEffect(C.Execute(cfg.allowMisaligned, c, x, m, pc), I.Execute(cfg, d, x, m, pc), d, x, pc)
  {
    hide GetReg, SetReg, Add, Matches, I.Alu, C.Alu, Left, C.Execute, I.Execute, C.IsAlu;
    MatchingAlu(c, d, x);
    CAluOutcome(cfg.allowMisaligned, c, x, m, pc);
    IAluOutcome(cfg, d, x, m, pc);
  }

  lemma WritesNothing(cfg: I.Config, d: I.Decoded, x: Regs, m: Mem, pc: Word)
    requires d.op.ADDI? && d.rd == W(0)
    ensures I.Execute(cfg, d, x, m, pc) == I.Outcome(I.Fresh(pc), x, m)
  {
    hide GetReg, SetReg, Load, Store, Add, I.Alu;
    WriteZero(x, I.Alu(d.op, GetReg(x, d.rs1), d.imm));
  }

  lemma LuiExecutes(cfg: I.Config, c: C.Decoded, d: I.Decoded, x: Regs, m: Mem, pc: Word)
    requires c.op.C_LUI? && Matches(c, d)
    ensures SameEffect(C.Execute(cfg.allowMisaligned, c, x, m, pc), I.Execute(cfg, d, x, m, pc), d, x, pc)
  {
    CAluOutcome(cfg.allowMisaligned, c, x, m, pc);
    hide GetReg, SetReg, Add, C.Execute;
    assert C.Alu(c, GetReg(x, c.rs1), GetReg(x, c.rs2)) == c.imm;
    hide C.Alu;
  }

  lemma NopOrBreakExecutes(cfg: I.Config, c: C.Decoded, d: I.Decoded, x: Regs, m: Mem, pc: Word)
    requires (c.op.C_NOP? || c.op.C_EBREAK?) && Matches(c, d)
    ensures SameEffect(C.Execute(cfg.allowMisaligned, c, x, m, pc), I.Execute(cfg, d, x, m, pc), d, x, pc)
  {
    hide GetReg, SetReg, Load, Store, Add, And, I.Alu, C.Alu;
    if c.op.C_NOP? { WritesNothing(cfg, d, x, m, pc); }
  }

  lemma LoadExecutes(cfg: I.Config, c: C.Decoded, d: I.Decoded, x: Regs, m: Mem, pc: Word)
    requires (c.op.C_LW? || c.op.C_LWSP?) && Matches(c, d)
    ensures SameEffect(C.Execute(cfg.allowMisaligned, c, x, m, pc), I.Execute(cfg, d, x, m, pc), d, x, pc)
  {
    hide GetReg, SetReg, Load, Store, Add;
    assert C.Execute(cfg.allowMisaligned, c, x, m, pc) == C.ExecuteLoad(cfg.allowMisaligned, c, x, m, pc);
    assert I.Execute(cfg, d, x, m, pc) == I.ExecuteLoad(cfg, d, x, m, pc);
    hide C.Execute, I.Execute;
  }

  lemma StoreExecutes(cfg: I.Config, c: C.Decoded, d: I.Decoded, x: Regs, m: Mem, pc: Word)
    requires (c.op.C_SW? || c.op.C_SWSP?) && Matches(c, d)
    ensures SameEffect(C.Execute(cfg.allowMisaligned, c, x, m, pc), I.Execute(cfg, d, x, m, pc), d, x, pc)
  {
    hide GetReg, SetReg, Load, Store, Add;
    assert C.Execute(cfg.allowMisaligned, c, x, m, pc) == C.ExecuteStore(cfg.allowMisaligned, c, x, m, pc);
    assert I.Execute(cfg, d, x, m, pc) == I.ExecuteStore(cfg, d, x, m, pc);
    hide C.Execute, I.Execute;
  }

  lemma CBranchOutcome(allow: bool, c: C.Decoded, x: Regs, m: Mem, pc: Word)
    requires c.op.C_BEQZ? || c.op.C_BNEZ?
    ensures var taken := (GetReg(x, c.rs1) == W(0)) == c.op.C_BEQZ?;
      C.Execute(allow, c, x, m, pc) == C.Outcome(if taken then C.Goto(pc, Add(pc, c.imm)) else C.Fresh(pc), x, m)
  {
    hide GetReg, SetReg, Load, Store, Add, And, C.Alu;
  }
  lemma IBranchOutcome(cfg: I.Config, d: I.Decoded, x: Regs, m: Mem, pc: Word)
    requires cfg.cExt && (d.op.BEQ? || d.op.BNE?) && d.rs2 == W(0)
    ensures var taken := (GetReg(x, d.rs1) == W(0)) == d.op.BEQ?;
      I.Execute(cfg, d, x, m, pc) == I.Outcome(if taken then I.Fresh(pc).(nextPc := Add(pc, d.imm), taken := true) else I.Fresh(pc), x, m)
  {
    hide GetReg, SetReg, Load, Store, Add, I.Alu, Bit;
    ReadZero(x);
  }

  lemma BranchExecutes(cfg: I.Config, c: C.Decoded, d: I.Decoded, x: Regs, m: Mem, pc: Word)
    requires cfg.cExt && (c.op.C_BEQZ? || c.op.C_BNEZ?) && Matches(c, d)
    ensures SameEffect(C.Execute(cfg.allowMisaligned, c, x, m, pc), I.Execute(cfg, d, x, m, pc), d, x, pc)
  {
    hide GetReg, SetReg, Add, C.Execute, I.Execute;
    CBranchOutcome(cfg.allowMisaligned, c, x, m, pc);
    IBranchOutcome(cfg, d, x, m, pc);
  }

  lemma JumpExecutes(cfg: I.Config, c: C.Decoded, d: I.Decoded, x: Regs, m: Mem, pc: Word)
    requires cfg.cExt && (c.op.C_J? || c.op.C_JAL? || c.op.C_JR? || c.op.C_JALR?) && Matches(c, d)
    ensures SameEffect(C.Execute(cfg.allowMisaligned, c, x, m, pc), I.Execute(cfg, d, x, m, pc), d, x, pc)
  {
    hide GetReg, SetReg, Load, Store, Add, I.Alu, C.Alu, Bit, And;
    WriteZero(x, Add(pc, W(2)));
    AddZero(GetReg(x, c.rs1));
  }

  /** Whatever the registers, memory, pc and misaligned-access policy, matching instructions have the same effect. */
  lemma MatchingExecutes(cfg: I.Config, c: C.Decoded, d: I.Decoded, x: Regs, m: Mem, pc: Word)
    requires cfg.cExt && Matches(c, d)
    ensures SameEffect(C.Execute(cfg.allowMisaligned, c, x, m, pc), I.Execute(cfg, d, x, m, pc), d, x, pc)
  {
    hide C.Execute, I.Execute, SameEffect;
    match c.op
    case C_NOP | C_EBREAK => NopOrBreakExecutes(cfg, c, d, x, m, pc);
    case C_LUI => LuiExecutes(cfg, c, d, x, m, pc);
    case C_LW | C_LWSP => LoadExecutes(cfg, c, d, x, m, pc);
    case C_SW | C_SWSP => StoreExecutes(cfg, c, d, x, m, pc);
    case C_BEQZ | C_BNEZ => BranchExecutes(cfg, c, d, x, m, pc);
    case C_J | C_JAL | C_JR | C_JALR => JumpExecutes(cfg, c, d, x, m, pc);
    case ILLEGAL => assert false;
    case _ => AluExecutes(cfg, c, d, x, m, pc);
  }

  // ------------------------------------------------------------------
  // The four compressed floating-point loads and stores
  // ------------------------------------------------------------------

  /** The expansion of the Zcf parcels, which FC.IsCompressedFloat selects. */
  function ExpandFloat(c: Word): Word {
    if C.Quadrant(c) == 0 then
      if C.CFunct3(c) == 3 then ImmediateWord(ClImm(c), RdShort(c), 2, Rs2Short(c), 0x07)
      else StoreWord(ClImm(c), Rs2Short(c), RdShort(c), 2, 0x27)
    else
      if C.CFunct3(c) == 3 then ImmediateWord(CLwspImm(c), 2, 2, RdField(c), 0x07)
      else StoreWord(CSwspImm(c), Rs2Field(c), 2, 2, 0x27)
  }

  lemma FloatLoadImmediate(imm: bv12, rs1: bv5, rd: bv5)
    requires imm < 0x800
    ensures F.ImmLoad(ImmediateWord(imm, rs1, 2, rd, 0x07)) == Sext12(imm)
  {}
  lemma FloatStoreImmediate(imm: bv12, rs2: bv5, rs1: bv5)
    requires imm < 0x800
    ensures F.ImmStore(StoreWord(imm, rs2, rs1, 2, 0x27)) == Sext12(imm)
  {}
  lemma SmallOffsets(c: Word) ensures ClImm(c) < 0x800 && CLwspImm(c) < 0x800 && CSwspImm(c) < 0x800 {}

  lemma FloatLoadDecodes(imm: bv12, rs1: bv5, rd: bv5)
    requires imm < 0x800
    ensures var w := ImmediateWord(imm, rs1, 2, rd, 0x07);
      var d := F.Decode(w);
      d.op.FLW? && d.rd == Reg(rd) && d.rs1 == Reg(rs1) && d.imm == Sext12(imm) && F.IsFInstruction(w)
  {
    hide ImmediateWord, Opcode, Funct3, Funct7, Rd, Rs1, Rs2, F.Rs3, F.ImmLoad, Reg, Sext12, F.OpFpType;
    ImmediateFields(imm, rs1, 2, rd, 0x07);
    FloatLoadImmediate(imm, rs1, rd);
  }
  lemma FloatStoreDecodes(imm: bv12, rs2: bv5, rs1: bv5)
    requires imm < 0x800
    ensures var w := StoreWord(imm, rs2, rs1, 2, 0x27);
      var d := F.Decode(w);
      d.op.FSW? && d.rs1 == Reg(rs1) && d.rs2 == Reg(rs2) && d.imm == Sext12(imm) && F.IsFInstruction(w)
  {
    hide R, StoreWord, Opcode, Funct3, Funct7, Rd, Rs1, Rs2, F.Rs3, F.ImmLoad, F.ImmStore, Reg, Sext12, F.OpFpType, High7, Low5;
    StoreFields(imm, rs2, rs1, 2, 0x27);
    RegisterFields(High7(imm), rs2, rs1, 2, Low5(imm), 0x27);
    FloatStoreImmediate(imm, rs2, rs1);
  }

  predicate FloatMatches(c: FC.Decoded, d: F.Decoded) {
    match c.op
    case C_FLW | C_FLWSP => d.op.FLW? && d.rd == c.rd && d.rs1 == c.rs1 && d.imm == c.uimm
    case C_FSW | C_FSWSP => d.op.FSW? && d.rs1 == c.rs1 && d.rs2 == c.rs2 && d.imm == c.uimm
    case ILLEGAL => false
  }

  lemma FloatExpansionMatches(c: Word)
    requires FC.IsCompressedFloat(c)
    ensures FloatMatches(FC.Decode(c), F.Decode(ExpandFloat(c))) && F.IsFInstruction(ExpandFloat(c))
  {
    hide C.CRd, C.CRs2, C.CRdShort, C.CRs2Short, RdField, Rs2Field, RdShort, Rs2Short, Reg, C.Bit12, High, C.Quadrant, C.CFunct3;
    hide ImmediateWord, StoreWord, Sext12, F.Decode, F.IsFInstruction, C.ImmWord, C.ImmLwsp, C.ImmSwsp, ClImm, CLwspImm, CSwspImm;
    RegisterFieldsAgree(c);
    ClIs(c);
    CLwspIs(c);
    CSwspIs(c);
    SmallOffsets(c);
    FloatLoadDecodes(ClImm(c), RdShort(c), Rs2Short(c));
    FloatStoreDecodes(ClImm(c), Rs2Short(c), RdShort(c));
    FloatLoadDecodes(CLwspImm(c), 2, RdField(c));
    FloatStoreDecodes(CSwspImm(c), Rs2Field(c), 2);
  }

  lemma FloatMatchingExecutes(fp: F.FpUnit, allow: bool, c: FC.Decoded, d: F.Decoded, x: Regs, f: Regs, m: Mem, fcsr: Word)
    requires FloatMatches(c, d)
    ensures var o := F.Execute(fp, allow, d, x, f, m, fcsr);
      FC.Execute(allow, c, x, f, m) == FC.Outcome(o.r, o.f, o.m) && o.x == x && o.fcsr == fcsr
  {
    hide GetReg, SetReg, F.GetF, F.SetF, Load, Store, Add, F.Compute, F.Accumulate, F.EffectiveRm;
  }

  // ------------------------------------------------------------------
  // On the hart
  // ------------------------------------------------------------------

  /** What a parcel stands for on a hart with C, and with F if cfg.f. */
  function Expansion(cfg: Config, c: Word): Option<Word> {
    hide Expand, ExpandFloat, FC.IsCompressedFloat;
    if cfg.f && FC.IsCompressedFloat(c) then Some(ExpandFloat(c)) else Expand(c)
  }

  /** The register that receives the return address when w is executed. */
  function LinkRegister(cfg: Config, w: Word): Option<Word> {
    hide I.Decode;
    var d := I.Decode(w, cfg.s);
    if Links(d) then Some(d.rd) else None
  }

  /** e, from a two-byte instruction, is w, from the four-byte one, but for the fall-through pc and the return address. */
  predicate SameButLength(h: State, e: Exec, w: Exec, link: Option<Word>) {
    e.trap == w.trap && e.taken == w.taken &&
    (e.trap.None? ==> e.nextPc == if e.taken then w.nextPc else Add(h.pc, W(2))) &&
    e.h == if link.Some? && e.trap.None? then w.h.(x := SetReg(h.x, link.value, Add(h.pc, W(2)))) else w.h
  }

  lemma ParcelDispatch(cfg: Config, fp: F.FpUnit, h: State, c: Word)
    requires cfg.c && !Is32Bit(c) && Parcel(c) == c
    ensures ExecuteFetched(cfg, fp, h, c) == if cfg.f && FC.IsCompressedFloat(c) then RunFC(cfg, h, c) else RunC(cfg, h, c)
  {
    hide Is32Bit, Parcel, FC.IsCompressedFloat, RunFC, RunC, Execute32;
  }

  lemma SameEffectRuns(cfg: Config, h: State, c: Word, w: Word)
    requires var d := I.Decode(w, cfg.s);
      SameEffect(C.Execute(cfg.allowMisaligned, C.Decode(c), h.x, h.mem, h.pc),
                 I.Execute(IConfig(cfg, h.csrs), d, h.x, h.mem, h.pc), d, h.x, h.pc)
    ensures SameButLength(h, RunC(cfg, h, c), RunI(cfg, h, w), LinkRegister(cfg, w))
  {
    hide C.Execute, I.Execute, I.Decode, C.Decode, SetReg, Add, Blocked, Mret, Sret, GetCell, Links;
  }

  lemma BaseRefines(cfg: Config, fp: F.FpUnit, h: State, c: Word)
    requires cfg.c && Expand(c).Some?
    ensures var w := Expand(c).value;
      SameButLength(h, RunC(cfg, h, c), ExecuteFetched(cfg, fp, h, w), LinkRegister(cfg, w))
  {
    var w := Expand(c).value;
    ExpansionAgrees(c, cfg.s);
    var d := I.Decode(w, cfg.s);
    MatchesIsLegal(C.Decode(c), d);
    hide Expand, Matches, C.Decode, I.Decode, I.DecodeType, C.Execute, I.Execute, SameEffect, SameButLength, RunC, RunI;
    hide ExecuteFetched, LinkRegister;
    assert d.op == I.DecodeType(w, cfg.s) by { DecodedType(w, cfg.s); }
    BaseDispatch(cfg, fp, h, w);
    MatchingExecutes(IConfig(cfg, h.csrs), C.Decode(c), d, h.x, h.mem, h.pc);
    SameEffectRuns(cfg, h, c, w);
  }
  lemma MatchesIsLegal(c: C.Decoded, d: I.Decoded) requires Matches(c, d) ensures !d.op.ILLEGAL? {}
  lemma DecodedType(w: Word, s: bool) ensures I.Decode(w, s).op == I.DecodeType(w, s) { hide I.DecodeType, I.DecodeImm; }

  lemma FloatDispatch(cfg: Config, fp: F.FpUnit, h: State, w: Word)
    requires cfg.f && F.IsFInstruction(w)
    ensures ExecuteFetched(cfg, fp, h, w) == RunF(cfg, fp, h, w)
  {
    FloatIsLong(w);
    hide Is32Bit, Claims, Execute32, RunF, OwnerOf, Opcode, Funct3, Funct7, F.IsFInstruction;
    assert Claims(cfg, Extension.Float, w) by { FloatClaims(cfg, w); }
    forall e: Extension ensures Claims(cfg, e, w) <==> e.Float? {
      if Claims(cfg, e, w) { ClaimsDisjoint(cfg, e, Extension.Float, w); }
    }
    SourceDispatch(cfg, fp, h, w, Some(Extension.Float));
    RunsFloat(cfg, fp, h, w);
  }
  lemma FloatIsLong(w: Word)
    requires F.IsFInstruction(w)
    ensures Is32Bit(w)
  {
    LowBits(w);
    hide Opcode, Is32Bit;
  }
  lemma FloatClaims(cfg: Config, w: Word)
    requires cfg.f && F.IsFInstruction(w)
    ensures Claims(cfg, Extension.Float, w)
  {
    hide F.IsFInstruction;
  }
  lemma RunsFloat(cfg: Config, fp: F.FpUnit, h: State, w: Word)
    ensures RunExtension(cfg, fp, h, Extension.Float, w) == RunF(cfg, fp, h, w)
  {
    hide RunF;
  }

  lemma FloatRefines(cfg: Config, fp: F.FpUnit, h: State, c: Word)
    requires cfg.f && FC.IsCompressedFloat(c) && CsrsOk(cfg, h.csrs)
    ensures SameButLength(h, RunFC(cfg, h, c), ExecuteFetched(cfg, fp, h, ExpandFloat(c)), None)
  {
    var w := ExpandFloat(c);
    hide FC.IsCompressedFloat, CsrsOk, FC.Decode, F.Decode, ExpandFloat, F.Execute, FC.Execute, ExecuteFetched;
    hide F.FcsrView, SetCell, GetCell;
    hide FloatMatches, F.IsFInstruction, Add;
    FloatExpansionMatches(c);
    FloatDispatch(cfg, fp, h, w);
    FcsrRoundTrip(cfg, h.csrs);
    FloatMatchingExecutes(fp, cfg.allowMisaligned, FC.Decode(c), F.Decode(w), h.x, h.f, h.mem, F.FcsrView(GetCell(h.csrs, FCSR)));
  }

  lemma FloatDoesNotLink(cfg: Config, w: Word)
    requires F.IsFInstruction(w)
    ensures LinkRegister(cfg, w).None?
  {
    hide Opcode, Funct3, Funct7, I.DecodeImm;
  }

  /**
   * On every state, executing a legal parcel leaves the same state, trap cause and trap value as executing its
   * 32-bit expansion; only the fall-through pc and the return address reflect the shorter instruction.
   */
  lemma CompressedRefines(cfg: Config, fp: F.FpUnit, h: State, c: Word)
    requires cfg.c && !Is32Bit(c) && Parcel(c) == c && Expansion(cfg, c).Some? && CsrsOk(cfg, h.csrs)
    ensures var w := Expansion(cfg, c).value;
      SameButLength(h, ExecuteFetched(cfg, fp, h, c), ExecuteFetched(cfg, fp, h, w), LinkRegister(cfg, w))
  {
    ParcelDispatch(cfg, fp, h, c);
    hide Is32Bit, Parcel, Expand, ExpandFloat, FC.IsCompressedFloat, SameButLength, ExecuteFetched, CsrsOk;
    hide LinkRegister, RunFC, RunC, F.IsFInstruction;
    if cfg.f && FC.IsCompressedFloat(c) {
      FloatRefines(cfg, fp, h, c);
      FloatExpansionIsFloat(c);
      FloatDoesNotLink(cfg, ExpandFloat(c));
    } else {
      BaseRefines(cfg, fp, h, c);
    }
  }
  lemma FloatExpansionIsFloat(c: Word)
    requires FC.IsCompressedFloat(c)
    ensures F.IsFInstruction(ExpandFloat(c))
  {
    hide FC.IsCompressedFloat, F.IsFInstruction, ExpandFloat, FloatMatches, FC.Decode, F.Decode;
    FloatExpansionMatches(c);
  }

  /** A parcel has an expansion exactly when it does not raise an illegal-instruction exception for being reserved. */
  lemma ExpansionIffLegal(cfg: Config, c: Word)
    requires cfg.f && cfg.c && !Is32Bit(c) && Parcel(c) == c
    ensures Expansion(cfg, c).Some? <==> exists m :: Recognizes(m, cfg.s, c)
  {
    ExpansionExists(c);
    ParcelRecognized(cfg.s, c);
    hide Is32Bit, Parcel, Expand, ExpandFloat, FC.IsCompressedFloat, Recognizes, C.DecodeType;
    if m :| Recognizes(m, cfg.s, c) { SizeOf(m, cfg.s, c); }
  }
  lemma ParcelRecognized(s: bool, c: Word)
    requires !Is32Bit(c) && Parcel(c) == c
    ensures Recognizes(RV32C, s, c) == !C.DecodeType(c).ILLEGAL? && Recognizes(RV32FC, s, c) == FC.IsCompressedFloat(c)
  {
    hide C.DecodeType, C.Quadrant, C.CFunct3, Is32Bit, Parcel;
  }
}
