/** The base instructions from their literal encodings to what they do: decode after encode, and each effect in numbers and bits. */
module BaseMeaning {
  import opened Bits
  import opened BitNumbers
  import opened Common
  import opened Zicsr
  import opened Hart
  import opened Integers
  import opened Dispatch
  import opened Encoding
  import opened Fields
  import opened MemoryMeaning
  import F = Rv32f
  import I = Rv32i

  // ------------------------------------------------------------------
  // Assembling
  // ------------------------------------------------------------------

  /** The funct3 of each mnemonic that has one. */
  function Funct3Of(op: I.InstrType): bv3 {
    match op
    case ADD | SUB | ADDI | LB | SB | BEQ | JALR | FENCE => 0
    case SLL | SLLI | LH | SH | BNE => 1
    case SLT | SLTI | LW | SW => 2
    case SLTU | SLTIU => 3
    case XOR | XORI | LBU | BLT => 4
    case SRL | SRA | SRLI | SRAI | LHU | BGE => 5
    case OR | ORI | BLTU => 6
    case AND | ANDI | BGEU => 7
    case _ => 0
  }
  function Funct7Of(op: I.InstrType): bv7 { if op.SUB? || op.SRA? || op.SRAI? then 0x20 else 0x00 }

  predicate IsShiftImm(op: I.InstrType) { op.SLLI? || op.SRLI? || op.SRAI? }

  function AluWord(op: I.InstrType, rd: bv5, rs1: bv5, rs2: bv5): Word { R(Funct7Of(op), rs2, rs1, Funct3Of(op), rd, 0x33) }
  function AluImmWord(op: I.InstrType, rd: bv5, rs1: bv5, imm: bv12): Word { ImmediateWord(imm, rs1, Funct3Of(op), rd, 0x13) }
  function ShiftImmWord(op: I.InstrType, rd: bv5, rs1: bv5, shamt: bv5): Word { R(Funct7Of(op), shamt, rs1, Funct3Of(op), rd, 0x13) }
  function LoadWord(op: I.InstrType, rd: bv5, rs1: bv5, imm: bv12): Word { ImmediateWord(imm, rs1, Funct3Of(op), rd, 0x03) }

  // ------------------------------------------------------------------
  // Decode after encode
  // ------------------------------------------------------------------

  lemma BranchTypeOf(op: I.InstrType) requires I.IsBranch(op) ensures I.BranchType(Funct3Of(op)) == op {}
  lemma LoadTypeOf(op: I.InstrType) requires I.IsLoad(op) ensures I.LoadType(Funct3Of(op)) == op {}
  lemma StoreTypeOf(op: I.InstrType) requires I.IsStore(op) ensures I.StoreType(Funct3Of(op)) == op {}
  lemma OpTypeOf(op: I.InstrType) requires I.IsAluReg(op) ensures I.OpType(Funct3Of(op), Funct7Of(op)) == op {}
  lemma OpImmTypeOf(op: I.InstrType, f7: bv7)
    requires I.IsAluImm(op) && (IsShiftImm(op) ==> f7 == Funct7Of(op))
    ensures I.OpImmType(Funct3Of(op), f7) == op
  {}

  lemma AluDecodes(op: I.InstrType, rd: bv5, rs1: bv5, rs2: bv5, s: bool)
    requires I.IsAluReg(op)
    ensures var d := I.Decode(AluWord(op, rd, rs1, rs2), s);
      d.op == op && d.rd == Reg(rd) && d.rs1 == Reg(rs1) && d.rs2 == Reg(rs2)
  {
    hide R, Opcode, Funct3, Funct7, Rd, Rs1, Rs2, Reg, I.SystemType, I.OpImmType, I.OpType, Funct3Of, Funct7Of;
    OpTypeOf(op);
    RegisterFields(Funct7Of(op), rs2, rs1, Funct3Of(op), rd, 0x33);
  }
  lemma AluImmDecodes(op: I.InstrType, rd: bv5, rs1: bv5, imm: bv12, s: bool)
    requires I.IsAluImm(op) && !IsShiftImm(op)
    ensures var d := I.Decode(AluImmWord(op, rd, rs1, imm), s);
      d.op == op && d.rd == Reg(rd) && d.rs1 == Reg(rs1) && d.imm == Sext12(imm)
  {
    hide ImmediateWord, Opcode, Funct3, Funct7, Rd, Rs1, Rs2, I.ImmI, Reg, Sext12, I.SystemType, I.OpType, I.OpImmType, Funct3Of;
    OpImmTypeOf(op, Funct7(AluImmWord(op, rd, rs1, imm)));
    ImmediateFields(imm, rs1, Funct3Of(op), rd, 0x13);
    IImmediate(imm, rs1, Funct3Of(op), rd, 0x13);
  }
  lemma ShiftImmDecodes(op: I.InstrType, rd: bv5, rs1: bv5, shamt: bv5, s: bool)
    requires IsShiftImm(op)
    ensures var d := I.Decode(ShiftImmWord(op, rd, rs1, shamt), s);
      d.op == op && d.rd == Reg(rd) && d.rs1 == Reg(rs1) && d.imm == Reg(shamt)
  {
    hide R, Opcode, Funct3, Funct7, Rd, Rs1, Rs2, Reg, I.SystemType, I.OpType, I.OpImmType, Funct3Of, Funct7Of;
    OpImmTypeOf(op, Funct7Of(op));
    RegisterFields(Funct7Of(op), shamt, rs1, Funct3Of(op), rd, 0x13);
  }
  lemma LoadDecodes(op: I.InstrType, rd: bv5, rs1: bv5, imm: bv12, s: bool)
    requires I.IsLoad(op)
    ensures var d := I.Decode(LoadWord(op, rd, rs1, imm), s);
      d.op == op && d.rd == Reg(rd) && d.rs1 == Reg(rs1) && d.imm == Sext12(imm)
  {
    hide ImmediateWord, Opcode, Funct3, Funct7, Rd, Rs1, Rs2, I.ImmI, Reg, Sext12, I.SystemType, I.OpType, I.OpImmType;
    hide I.LoadType, Funct3Of;
    LoadTypeOf(op);
    ImmediateFields(imm, rs1, Funct3Of(op), rd, 0x03);
    IImmediate(imm, rs1, Funct3Of(op), rd, 0x03);
  }
  lemma StoreDecodes(op: I.InstrType, rs1: bv5, rs2: bv5, imm: bv12, s: bool)
    requires I.IsStore(op)
    ensures var d := I.Decode(StoreWord(imm, rs2, rs1, Funct3Of(op), 0x23), s);
      d.op == op && d.rs1 == Reg(rs1) && d.rs2 == Reg(rs2) && d.imm == Sext12(imm)
  {
    hide StoreWord, Opcode, Funct3, Funct7, Rd, Rs1, Rs2, Reg, Sext12, I.ImmS, I.SystemType, I.OpType, I.OpImmType;
    hide I.StoreType, Funct3Of;
    StoreTypeOf(op);
    StoreWordFields(imm, rs2, rs1, Funct3Of(op), 0x23);
    SImmediate(imm, rs2, rs1, Funct3Of(op), 0x23);
  }
  /** The sign-extended, even offset of a branch. */
  function Sext13(offset: bv13): Word {
    W(if offset & 0x1000 != 0 then (offset as bv32 & 0x1FFE) | 0xFFFF_E000 else offset as bv32 & 0x1FFE)
  }
  /** The sign-extended, even offset of a jump. */
  function Sext21(offset: bv21): Word {
    W(if offset & 0x10_0000 != 0 then (offset as bv32 & 0x1F_FFFE) | 0xFFE0_0000 else offset as bv32 & 0x1F_FFFE)
  }
  lemma BranchDecodes(op: I.InstrType, rs1: bv5, rs2: bv5, offset: bv13, s: bool)
    requires I.IsBranch(op)
    ensures var d := I.Decode(BranchWord(offset, rs2, rs1, Funct3Of(op)), s);
      d.op == op && d.rs1 == Reg(rs1) && d.rs2 == Reg(rs2) && d.imm == Sext13(offset)
  {
    hide BranchWord, Opcode, Funct3, Funct7, Rd, Rs1, Rs2, Reg, I.ImmB, Sext13, I.SystemType, I.OpType, I.OpImmType;
    hide I.BranchType, Funct3Of;
    BranchTypeOf(op);
    BranchFields(offset, rs2, rs1, Funct3Of(op));
    BranchOffset(offset, rs2, rs1, Funct3Of(op));
  }
  lemma BranchOffset(offset: bv13, rs2: bv5, rs1: bv5, f3: bv3)
    ensures I.ImmB(BranchWord(offset, rs2, rs1, f3)) == Sext13(offset)
  {
    hide I.ImmB, BranchWord;
    BranchImmediate(offset, rs2, rs1, f3);
  }
  lemma JumpOffset(offset: bv21, rd: bv5)
    ensures I.ImmJ(JumpWord(offset, rd)) == Sext21(offset)
  {
    hide I.ImmJ, JumpWord;
    JumpImmediate(offset, rd);
  }
  lemma JumpDecodes(rd: bv5, offset: bv21, s: bool)
    ensures var d := I.Decode(JumpWord(offset, rd), s); d.op.JAL? && d.rd == Reg(rd) && d.imm == Sext21(offset)
  {
    JumpFields(offset, rd);
    JumpOffset(offset, rd);
    hide JumpWord, Opcode, Funct3, Funct7, Rd, Rs1, Rs2, Reg, I.ImmJ, Sext21;
  }
  lemma JumpRegisterDecodes(rd: bv5, rs1: bv5, imm: bv12, s: bool)
    ensures var d := I.Decode(ImmediateWord(imm, rs1, 0, rd, 0x67), s);
      d.op.JALR? && d.rd == Reg(rd) && d.rs1 == Reg(rs1) && d.imm == Sext12(imm)
  {
    hide ImmediateWord, Opcode, Funct3, Funct7, Rd, Rs1, Rs2, I.ImmI, Reg, Sext12;
    ImmediateFields(imm, rs1, 0, rd, 0x67);
    IImmediate(imm, rs1, 0, rd, 0x67);
  }
  function Upper(imm: bv20): Word { W((imm as bv32) << 12) }
  lemma LuiImmediate(imm: bv20, rd: bv5) ensures I.ImmU(UpperWord(imm, rd, 0x37)) == Upper(imm) {}
  lemma AuipcImmediate(imm: bv20, rd: bv5) ensures I.ImmU(UpperWord(imm, rd, 0x17)) == Upper(imm) {}
  lemma UpperDecodes(rd: bv5, imm: bv20, s: bool)
    ensures var d := I.Decode(UpperWord(imm, rd, 0x37), s); d.op.LUI? && d.rd == Reg(rd) && d.imm == Upper(imm)
    ensures var d := I.Decode(UpperWord(imm, rd, 0x17), s); d.op.AUIPC? && d.rd == Reg(rd) && d.imm == Upper(imm)
  {
    hide UpperWord, Opcode, Funct3, Funct7, Rd, Rs1, Rs2, Reg, I.ImmU, Upper;
    UpperOpcode(imm, rd, 0x37);
    UpperRd(imm, rd, 0x37);
    LuiImmediate(imm, rd);
    UpperOpcode(imm, rd, 0x17);
    UpperRd(imm, rd, 0x17);
    AuipcImmediate(imm, rd);
  }
  lemma FenceDecodes(rd: bv5, rs1: bv5, imm: bv12, s: bool)
    ensures I.Decode(ImmediateWord(imm, rs1, 0, rd, 0x0F), s).op.FENCE?
  {
    hide ImmediateWord, Opcode, Funct3, Funct7, Rd, Rs1, Rs2, I.ImmI, Reg;
    ImmediateFields(imm, rs1, 0, rd, 0x0F);
  }
  lemma SystemWords()
    ensures Opcode(W(0x73)) == 0x73 && Funct3(W(0x73)) == 0
    ensures Opcode(W(0x0010_0073)) == 0x73 && Funct3(W(0x0010_0073)) == 0
    ensures Opcode(W(0x1050_0073)) == 0x73 && Funct3(W(0x1050_0073)) == 0
  {}
  lemma SystemDecodes(s: bool)
    ensures I.Decode(W(0x73), s).op.ECALL? && I.Decode(W(0x0010_0073), s).op.EBREAK? && I.Decode(W(0x1050_0073), s).op.WFI?
  {
    SystemWords();
    hide Opcode, Funct3, Funct7, Rd, Rs1, Rs2;
  }
  function SfenceWord(rs2: bv5, rs1: bv5): Word { R(0x09, rs2, rs1, 0, 0, 0x73) }
  lemma SfenceFixed(rs2: bv5, rs1: bv5) ensures SfenceWord(rs2, rs1).b & 0xFE00_7FFF == 0x1200_0073 {}
  lemma SfenceIsNew(rs2: bv5, rs1: bv5)
    ensures SfenceWord(rs2, rs1) != W(0x73) && SfenceWord(rs2, rs1) != W(0x0010_0073) && SfenceWord(rs2, rs1) != W(0x1050_0073)
    ensures SfenceWord(rs2, rs1) != W(0x3020_0073) && SfenceWord(rs2, rs1) != W(0x1020_0073)
  {}
  lemma SfenceDecodes(rs2: bv5, rs1: bv5)
    ensures I.Decode(SfenceWord(rs2, rs1), true).op.SFENCE_VMA?
  {
    SfenceIsNew(rs2, rs1);
    SfenceFixed(rs2, rs1);
    RegisterFields(0x09, rs2, rs1, 0, 0, 0x73);
    hide R, Opcode, Funct3, Funct7, Rd, Rs1, Rs2, Reg;
  }

  // ------------------------------------------------------------------
  // Outcomes
  // ------------------------------------------------------------------

  /** The instruction retires to the next word: rd receives v and nothing else changes. */
  predicate Puts(h: State, rd: bv5, v: Word, e: Exec) {
    e == Exec(h.(x := SetReg(h.x, Reg(rd), v)), Add(h.pc, W(4)), false, None)
  }
  /** The instruction raises an exception and has no other effect. */
  predicate Raised(h: State, cause: Word, tval: Word, e: Exec) { e.h == h && e.trap == Some(Trap(cause, tval)) }

  /** The base executor's outcome of a decoded word is the outcome of executing the word. */
  lemma RunsBase(cfg: Config, fp: F.FpUnit, h: State, w: Word, d: I.Decoded, o: I.Outcome)
    requires I.Decode(w, cfg.s) == d && !d.op.ILLEGAL?
    requires o == I.Execute(IConfig(cfg, h.csrs), d, h.x, h.mem, h.pc) && !o.r.mret && !o.r.sret && !o.r.sfenceVma && !o.r.wfi
    ensures ExecuteFetched(cfg, fp, h, w)
         == Exec(h.(x := o.x, mem := o.m), o.r.nextPc, o.r.taken, if o.r.trap then Some(Trap(o.r.cause, o.r.tval)) else None)
  {
    hide I.Execute, I.DecodeType, I.DecodeImm, ExecuteFetched, IConfig;
    BaseDispatch(cfg, fp, h, w);
  }

  // ------------------------------------------------------------------
  // OP and OP-IMM
  // ------------------------------------------------------------------

  /** v is what the operation yields for a and b, in numbers and bits. */
  ghost predicate AluResult(op: I.InstrType, a: Word, b: Word, v: Word) {
    var places := Pow2(Value(b) % 32);
    match op
    case ADD | ADDI => Value(v) == (Value(a) + Value(b)) % 0x1_0000_0000
    case SUB => Value(v) == (Value(a) - Value(b)) % 0x1_0000_0000
    case SLT | SLTI => v == W(if Signed(a) < Signed(b) then 1 else 0)
    case SLTU | SLTIU => v == W(if Value(a) < Value(b) then 1 else 0)
    case SLL | SLLI => Value(v) == Value(a) * places % 0x1_0000_0000
    case SRL | SRLI => places > 0 && Value(v) == Value(a) / places
    case SRA | SRAI => places > 0 && Signed(v) == Signed(a) / places
    case XOR | XORI => forall k: nat :: k < 32 ==> NthBit(v.b, k) == (NthBit(a.b, k) != NthBit(b.b, k))
    case OR | ORI => forall k: nat :: k < 32 ==> NthBit(v.b, k) == (NthBit(a.b, k) || NthBit(b.b, k))
    case AND | ANDI => forall k: nat :: k < 32 ==> NthBit(v.b, k) == (NthBit(a.b, k) && NthBit(b.b, k))
    case _ => false
  }

  function LowFive(b: bv32): bv32 { b & 0x1F }
  lemma LowFiveSplits(b: bv32)
    ensures b == Either(LowFive(b), Up(Down(b, 5), 5)) && Disjoint(LowFive(b), Up(Down(b, 5), 5))
  {}
  lemma LowFiveValue(b: bv32)
    ensures ValueOf(LowFive(b)) == ValueOf(b) % 32
  {
    hide *;
    LowFiveSplits(b);
    SmallPlaces();
    LowField(b, LowFive(b), 5);
  }
  lemma IndexIsMod(w: Word)
    ensures Index(w) == Value(w) % 32 && Places(w) == Pow2(Value(w) % 32)
  {
    assert Index(w) == ValueOf(LowFive(w.b));
    assert Value(w) == ValueOf(w.b);
    assert Places(w) == Pow2(Index(w));
    hide *;
    LowFiveValue(w.b);
  }

  lemma ModIs(x: int) ensures ModWords(x) == x % 0x1_0000_0000 && WORDS == 0x1_0000_0000 {}

  lemma AluComputes(op: I.InstrType, a: Word, b: Word)
    requires I.IsAluReg(op) || I.IsAluImm(op)
    ensures AluResult(op, a, b, I.Alu(op, a, b))
  {
    hide Value, Signed, Less, SignedLess, ShiftLeft, ShiftRight, ShiftRightArith, Places, Add, Sub, Xor, Or, And;
    hide NthBit, Pow2, ModWords;
    AluMeaning(op, a, b);
    IndexIsMod(b);
    AddValue(a, b);
    SubValue(a, b);
    ModIs(Value(a) + Value(b));
    ModIs(Value(a) - Value(b));
    forall k: nat | k < 32
      ensures NthBit(Xor(a, b).b, k) == (NthBit(a.b, k) != NthBit(b.b, k))
      ensures NthBit(Or(a, b).b, k) == (NthBit(a.b, k) || NthBit(b.b, k))
      ensures NthBit(And(a, b).b, k) == (NthBit(a.b, k) && NthBit(b.b, k))
    {
      BitwiseResult(a, b, k);
    }
  }

  lemma AluOutcome(cfg: I.Config, d: I.Decoded, x: Regs, m: Mem, pc: Word)
    requires I.IsAluReg(d.op) || I.IsAluImm(d.op)
    ensures I.Execute(cfg, d, x, m, pc)
         == I.Outcome(I.Fresh(pc), SetReg(x, d.rd, I.Alu(d.op, GetReg(x, d.rs1), if I.IsAluReg(d.op) then GetReg(x, d.rs2) else d.imm)), m)
  {
    hide I.Alu, GetReg, SetReg, Add, I.Fresh;
  }
  lemma AluRuns(cfg: Config, fp: F.FpUnit, h: State, w: Word, rd: bv5)
    requires var d := I.Decode(w, cfg.s); d.rd == Reg(rd) && (I.IsAluReg(d.op) || I.IsAluImm(d.op))
    ensures var d := I.Decode(w, cfg.s);
      Puts(h, rd, I.Alu(d.op, GetReg(h.x, d.rs1), if I.IsAluReg(d.op) then GetReg(h.x, d.rs2) else d.imm), ExecuteFetched(cfg, fp, h, w))
  {
    hide I.Decode, I.Execute, I.Alu, GetReg, SetReg, Add, ExecuteFetched, Reg, IConfig, I.IsAluReg, I.IsAluImm;
    var d := I.Decode(w, cfg.s);
    AluOutcome(IConfig(cfg, h.csrs), d, h.x, h.mem, h.pc);
    AluLegal(d.op);
    RunsBase(cfg, fp, h, w, d, I.Execute(IConfig(cfg, h.csrs), d, h.x, h.mem, h.pc));
  }
  lemma AluLegal(op: I.InstrType) ensures I.IsAluReg(op) || I.IsAluImm(op) ==> !op.ILLEGAL? {}

  /** Register-register operations. */
  lemma AluStep(cfg: Config, fp: F.FpUnit, h: State, op: I.InstrType, rd: bv5, rs1: bv5, rs2: bv5)
    requires I.IsAluReg(op)
    ensures exists v :: AluResult(op, GetReg(h.x, Reg(rs1)), GetReg(h.x, Reg(rs2)), v) &&
                        Puts(h, rd, v, ExecuteFetched(cfg, fp, h, AluWord(op, rd, rs1, rs2)))
  {
    hide AluWord, I.Decode, I.Alu, GetReg, Puts, ExecuteFetched, Reg, AluResult;
    AluDecodes(op, rd, rs1, rs2, cfg.s);
    AluRuns(cfg, fp, h, AluWord(op, rd, rs1, rs2), rd);
    AluComputes(op, GetReg(h.x, Reg(rs1)), GetReg(h.x, Reg(rs2)));
  }
  /** Register-immediate operations. */
  lemma AluImmStep(cfg: Config, fp: F.FpUnit, h: State, op: I.InstrType, rd: bv5, rs1: bv5, imm: bv12)
    requires I.IsAluImm(op) && !IsShiftImm(op)
    ensures exists v :: AluResult(op, GetReg(h.x, Reg(rs1)), Sext12(imm), v) &&
                        Puts(h, rd, v, ExecuteFetched(cfg, fp, h, AluImmWord(op, rd, rs1, imm)))
  {
    hide AluImmWord, I.Decode, I.Alu, GetReg, Puts, ExecuteFetched, Reg, AluResult, Sext12;
    AluImmDecodes(op, rd, rs1, imm, cfg.s);
    AluRuns(cfg, fp, h, AluImmWord(op, rd, rs1, imm), rd);
    AluComputes(op, GetReg(h.x, Reg(rs1)), Sext12(imm));
  }
  /** Shifts by an immediate. */
  lemma ShiftImmStep(cfg: Config, fp: F.FpUnit, h: State, op: I.InstrType, rd: bv5, rs1: bv5, shamt: bv5)
    requires IsShiftImm(op)
    ensures exists v :: AluResult(op, GetReg(h.x, Reg(rs1)), Reg(shamt), v) &&
                        Puts(h, rd, v, ExecuteFetched(cfg, fp, h, ShiftImmWord(op, rd, rs1, shamt)))
  {
    hide ShiftImmWord, I.Decode, I.Alu, GetReg, Puts, ExecuteFetched, Reg, AluResult;
    ShiftImmDecodes(op, rd, rs1, shamt, cfg.s);
    AluRuns(cfg, fp, h, ShiftImmWord(op, rd, rs1, shamt), rd);
    AluComputes(op, GetReg(h.x, Reg(rs1)), Reg(shamt));
  }

  // ------------------------------------------------------------------
  // Control transfer
  // ------------------------------------------------------------------

  /** The comparison a branch makes, in numbers. */
  predicate Compares(op: I.InstrType, a: Word, b: Word) {
    match op
    case BEQ => Value(a) == Value(b)
    case BNE => Value(a) != Value(b)
    case BLT => Signed(a) < Signed(b)
    case BGE => Signed(a) >= Signed(b)
    case BLTU => Value(a) < Value(b)
    case _ => Value(a) >= Value(b)
  }

  lemma TargetBit(target: Word)
    ensures Bit(target, 2) == NthBit(target.b, 1)
  {
    hide *;
    LowMasks();
    BitMeets(target, 2);
    MaskReads(target.b, 1);
  }

  lemma GotoOutcome(cfg: I.Config, pc: Word, target: Word)
    ensures I.Goto(cfg, I.Fresh(pc), target) ==
      if !cfg.cExt && NthBit(target.b, 1) then I.Fresh(pc).(trap := true, cause := W(0), tval := target)
      else I.Fresh(pc).(nextPc := target, taken := true)
  {
    hide NthBit, Bit, Add;
    TargetBit(target);
  }
  lemma BranchOutcome(cfg: I.Config, d: I.Decoded, x: Regs, m: Mem, pc: Word)
    requires I.IsBranch(d.op)
    ensures !d.op.ILLEGAL?
    ensures I.Execute(cfg, d, x, m, pc)
         == I.Outcome(if I.BranchTaken(d.op, GetReg(x, d.rs1), GetReg(x, d.rs2)) then I.Goto(cfg, I.Fresh(pc), Add(pc, d.imm)) else I.Fresh(pc), x, m)
  {
    hide GetReg, SetReg, Add, I.Fresh, I.BranchTaken, I.Goto;
  }

  /**
   * A branch goes to pc + offset exactly when its comparison holds, and to the next word otherwise; without compressed
   * instructions a taken branch to a target with bit 1 set raises an instruction-address-misaligned exception.
   */
  lemma BranchStep(cfg: Config, fp: F.FpUnit, h: State, op: I.InstrType, rs1: bv5, rs2: bv5, offset: bv13)
    requires I.IsBranch(op)
    ensures var e := ExecuteFetched(cfg, fp, h, BranchWord(offset, rs2, rs1, Funct3Of(op)));
      var target := Add(h.pc, Sext13(offset));
      if !Compares(op, GetReg(h.x, Reg(rs1)), GetReg(h.x, Reg(rs2))) then e == Exec(h, Add(h.pc, W(4)), false, None)
      else if !cfg.c && NthBit(target.b, 1) then Raised(h, W(0), target, e)
      else e == Exec(h, target, true, None)
  {
    hide BranchWord, I.Decode, GetReg, ExecuteFetched, Reg, Sext13, Funct3Of, Value, Signed, I.BranchTaken, NthBit, Bit;
    hide Add, I.Execute, I.Goto;
    var w := BranchWord(offset, rs2, rs1, Funct3Of(op));
    var d := I.Decode(w, cfg.s);
    BranchDecodes(op, rs1, rs2, offset, cfg.s);
    BranchOutcome(IConfig(cfg, h.csrs), d, h.x, h.mem, h.pc);
    GotoOutcome(IConfig(cfg, h.csrs), h.pc, Add(h.pc, Sext13(offset)));
    RunsBase(cfg, fp, h, w, d, I.Execute(IConfig(cfg, h.csrs), d, h.x, h.mem, h.pc));
    BranchMeaning(op, GetReg(h.x, Reg(rs1)), GetReg(h.x, Reg(rs2)));
  }

  /** A jump links the next word and goes to the target, unless the target is misaligned. */
  predicate Jumps(cfg: Config, h: State, rd: bv5, target: Word, e: Exec) {
    if !cfg.c && NthBit(target.b, 1) then Raised(h, W(0), target, e)
    else e == Exec(h.(x := SetReg(h.x, Reg(rd), Add(h.pc, W(4)))), target, true, None)
  }

  lemma JumpRuns(cfg: Config, fp: F.FpUnit, h: State, w: Word, rd: bv5, target: Word)
    requires var d := I.Decode(w, cfg.s);
      d.rd == Reg(rd) && (d.op.JAL? || d.op.JALR?) &&
      target == if d.op.JAL? then Add(h.pc, d.imm) else And(Add(GetReg(h.x, d.rs1), d.imm), W(0xFFFF_FFFE))
    ensures Jumps(cfg, h, rd, target, ExecuteFetched(cfg, fp, h, w))
  {
    var d := I.Decode(w, cfg.s);
    hide I.Decode, GetReg, SetReg, Add, And, ExecuteFetched, Reg, NthBit, Bit;
    RunsBase(cfg, fp, h, w, d, I.Execute(IConfig(cfg, h.csrs), d, h.x, h.mem, h.pc));
    TargetBit(target);
  }

  /** JAL jumps to pc + offset. */
  lemma JumpStep(cfg: Config, fp: F.FpUnit, h: State, rd: bv5, offset: bv21)
    ensures Jumps(cfg, h, rd, Add(h.pc, Sext21(offset)), ExecuteFetched(cfg, fp, h, JumpWord(offset, rd)))
  {
    hide JumpWord, I.Decode, ExecuteFetched, Reg, Sext21, Add, And, Jumps, GetReg;
    JumpDecodes(rd, offset, cfg.s);
    JumpRuns(cfg, fp, h, JumpWord(offset, rd), rd, Add(h.pc, Sext21(offset)));
  }
  /** JALR jumps to rs1 + imm with bit 0 cleared; the target is computed before rd is written. */
  lemma JumpRegisterStep(cfg: Config, fp: F.FpUnit, h: State, rd: bv5, rs1: bv5, imm: bv12)
    ensures var target := W(Add(GetReg(h.x, Reg(rs1)), Sext12(imm)).b & 0xFFFF_FFFE);
      Jumps(cfg, h, rd, target, ExecuteFetched(cfg, fp, h, ImmediateWord(imm, rs1, 0, rd, 0x67)))
  {
    assert And(Add(GetReg(h.x, Reg(rs1)), Sext12(imm)), W(0xFFFF_FFFE)) == W(Add(GetReg(h.x, Reg(rs1)), Sext12(imm)).b & 0xFFFF_FFFE) by {
      hide Add, GetReg, Sext12, Reg;
    }
    hide ImmediateWord, I.Decode, ExecuteFetched, Reg, Sext12, Add, And, Jumps, GetReg;
    JumpRegisterDecodes(rd, rs1, imm, cfg.s);
    JumpRuns(cfg, fp, h, ImmediateWord(imm, rs1, 0, rd, 0x67), rd, And(Add(GetReg(h.x, Reg(rs1)), Sext12(imm)), W(0xFFFF_FFFE)));
  }

  // ------------------------------------------------------------------
  // Loads and stores
  // ------------------------------------------------------------------

  /** Bytes moved by each access. */
  function Width(op: I.InstrType): (n: nat)
    ensures n > 0
  {
    match op case LB | LBU | SB => 1 case LH | LHU | SH => 2 case _ => 4
  }
  lemma WidthIs(op: I.InstrType) ensures Bytes(I.AccessSize(op)) == Width(op) {}

  /** v is what a load leaves in rd when its bytes hold the number n. */
  predicate LoadedValue(op: I.InstrType, n: nat, v: Word) {
    match op
    case LB => Signed(v) == n - (if n >= 0x80 then 0x100 else 0)
    case LH => Signed(v) == n - (if n >= 0x8000 then 0x1_0000 else 0)
    case _ => Value(v) == n
  }

  lemma FieldTop(w: Word)
    ensures Value(w) < 0x100 ==> Bit(w, 0x80) == (Value(w) >= 0x80)
    ensures Value(w) < 0x1_0000 ==> Bit(w, 0x8000) == (Value(w) >= 0x8000)
  {
    assert Value(w) == ValueOf(w.b) by { hide ValueOf; }
    assert Pow2(7) == 0x80;
    assert Pow2(11) == 0x800;
    assert Pow2(15) == 0x8000;
    hide *;
    LowMasks();
    HighMasks();
    DoubleOnes();
    MaskStep(13);
    MaskStep(14);
    MaskStep(15);
    BitMeets(w, 0x80);
    MaskReads(w.b, 7);
    NthDigit(w.b, 7);
    BitMeets(w, 0x8000);
    MaskReads(w.b, 15);
    NthDigit(w.b, 15);
    TopOfField(ValueOf(w.b), 0x80);
    TopOfField(ValueOf(w.b), 0x8000);
  }
  lemma TopOfField(x: nat, p: nat)
    requires p == 0x80 || p == 0x8000
    ensures x < 2 * p ==> (x / p % 2 == 1 <==> x >= p)
  {}
  lemma NarrowFields(w: Word)
    ensures Value(w) < 0x100 ==> ValueOf(Byte8(w)) == Value(w)
    ensures Value(w) < 0x1_0000 ==> ValueOf(Half16(w)) == Value(w)
  {
    assert Byte8(w) == Byte8Of(w.b) && Half16(w) == Half16Of(w.b) by { hide Byte8Of, Half16Of; }
    assert Value(w) == ValueOf(w.b) by { hide ValueOf; }
    hide *;
    ByteField(w.b);
    HalfField(w.b);
  }
  lemma ExtendMeans(op: I.InstrType, w: Word)
    requires I.IsLoad(op) && Value(w) < Power256(Width(op))
    ensures LoadedValue(op, Value(w), I.ExtendLoaded(op, w))
  {
    hide ValueOf, Signed, Bit, Byte8, Half16;
    LoadMeaning(w);
    FieldTop(w);
    NarrowFields(w);
    if op.LW? { assert I.ExtendLoaded(op, w) == w; }
    hide I.ExtendLoaded;
  }

  lemma LittleBound(bytes: seq<Byte>)
    ensures |bytes| == 1 ==> Little(bytes) < 0x100
    ensures |bytes| == 2 ==> Little(bytes) < 0x1_0000
  {
    hide *;
    if |bytes| == 1 {
      LittleOne(bytes);
      ByteBound(bytes[0]);
    } else if |bytes| == 2 {
      assert bytes == [bytes[0], bytes[1]];
      Little2(bytes[0], bytes[1]);
      ByteBound(bytes[0]);
      ByteBound(bytes[1]);
    }
  }

  lemma LoadRuns(cfg: Config, fp: F.FpUnit, h: State, w: Word, rd: bv5, addr: Word)
    requires var d := I.Decode(w, cfg.s); I.IsLoad(d.op) && d.rd == Reg(rd) && addr == Add(GetReg(h.x, d.rs1), d.imm)
    ensures var d := I.Decode(w, cfg.s);
      var e := ExecuteFetched(cfg, fp, h, w);
      match Load(h.mem, addr, I.AccessSize(d.op), cfg.allowMisaligned)
      case Loaded(v) => Puts(h, rd, I.ExtendLoaded(d.op, v), e)
      case LoadFault(cause) => Raised(h, cause, addr, e)
  {
    hide I.Decode, SetReg, GetReg, Add, ExecuteFetched, I.ExtendLoaded, I.AccessSize, Load, Reg;
    var d := I.Decode(w, cfg.s);
    RunsBase(cfg, fp, h, w, d, I.Execute(IConfig(cfg, h.csrs), d, h.x, h.mem, h.pc));
  }

  /**
   * A load reads Width bytes at rs1 + imm: a misaligned address raises 4 unless misaligned accesses are allowed, one outside
   * memory raises 5, both with the address as value; otherwise rd receives the extended little-endian number.
   */
  ghost predicate LoadsFrom(cfg: Config, h: State, op: I.InstrType, rd: bv5, addr: Word, e: Exec) {
    hide ValueOf, Little, LoadedValue;
    var n := Width(op);
    if !cfg.allowMisaligned && Value(addr) % n != 0 then Raised(h, W(4), addr, e)
    else if !Fits(h.mem, addr, n) then Raised(h, W(5), addr, e)
    else exists v :: LoadedValue(op, Little(At(h.mem, addr, n)), v) && Puts(h, rd, v, e)
  }
  lemma LoadStep(cfg: Config, fp: F.FpUnit, h: State, op: I.InstrType, rd: bv5, rs1: bv5, imm: bv12)
    requires I.IsLoad(op)
    ensures LoadsFrom(cfg, h, op, rd, Add(GetReg(h.x, Reg(rs1)), Sext12(imm)), ExecuteFetched(cfg, fp, h, LoadWord(op, rd, rs1, imm)))
  {
    hide LoadWord, I.Decode, ExecuteFetched, Reg, Sext12, Add, GetReg, Puts, Load, I.ExtendLoaded, I.AccessSize;
    hide ValueOf, Little, LoadedValue, Fits, Bytes, Width, I.IsLoad;
    var addr := Add(GetReg(h.x, Reg(rs1)), Sext12(imm));
    LoadDecodes(op, rd, rs1, imm, cfg.s);
    LoadRuns(cfg, fp, h, LoadWord(op, rd, rs1, imm), rd, addr);
    LoadIs(h.mem, addr, I.AccessSize(op), cfg.allowMisaligned);
    WidthIs(op);
    var r := Load(h.mem, addr, I.AccessSize(op), cfg.allowMisaligned);
    if r.Loaded? {
      LoadWidth(op, h.mem, addr, r.value);
      ExtendMeans(op, r.value);
    }
  }
  lemma LoadWidth(op: I.InstrType, m: Mem, addr: Word, v: Word)
    requires Fits(m, addr, Width(op)) && Value(v) == Little(At(m, addr, Width(op)))
    ensures Value(v) < Power256(Width(op))
  {
    LittleBound(At(m, addr, Width(op)));
    ValueBound(v);
    hide Little, ValueOf;
  }

  lemma StoreRuns(cfg: Config, fp: F.FpUnit, h: State, w: Word, addr: Word)
    requires var d := I.Decode(w, cfg.s); I.IsStore(d.op) && addr == Add(GetReg(h.x, d.rs1), d.imm)
    ensures var d := I.Decode(w, cfg.s);
      var e := ExecuteFetched(cfg, fp, h, w);
      match Store(h.mem, addr, I.AccessSize(d.op), GetReg(h.x, d.rs2), cfg.allowMisaligned)
      case Stored(m) => e == Exec(h.(mem := m), Add(h.pc, W(4)), false, None)
      case StoreFault(cause) => Raised(h, cause, addr, e)
  {
    hide I.Decode, SetReg, GetReg, Add, ExecuteFetched, I.AccessSize, Store, Reg;
    var d := I.Decode(w, cfg.s);
    RunsBase(cfg, fp, h, w, d, I.Execute(IConfig(cfg, h.csrs), d, h.x, h.mem, h.pc));
  }

  /** A store writes the low Width bytes of rs2 at rs1 + imm and no other byte, or raises 6 or 7 with the address as value. */
  ghost predicate StoresTo(cfg: Config, h: State, op: I.InstrType, addr: Word, v: Word, e: Exec) {
    hide ValueOf, Wrote;
    var n := Width(op);
    if !cfg.allowMisaligned && Value(addr) % n != 0 then Raised(h, W(6), addr, e)
    else if !Fits(h.mem, addr, n) then Raised(h, W(7), addr, e)
    else e == Exec(h.(mem := e.h.mem), Add(h.pc, W(4)), false, None) && Wrote(h.mem, addr, n, v, e.h.mem)
  }
  lemma StoreStep(cfg: Config, fp: F.FpUnit, h: State, op: I.InstrType, rs1: bv5, rs2: bv5, imm: bv12)
    requires I.IsStore(op)
    ensures StoresTo(cfg, h, op, Add(GetReg(h.x, Reg(rs1)), Sext12(imm)), GetReg(h.x, Reg(rs2)),
                     ExecuteFetched(cfg, fp, h, StoreWord(imm, rs2, rs1, Funct3Of(op), 0x23)))
  {
    hide StoreWord, Funct3Of, I.Decode, ExecuteFetched, Reg, Sext12, Add, GetReg, Store, I.AccessSize, ValueOf, Fits;
    hide Bytes, Width, I.IsStore, Wrote;
    var addr := Add(GetReg(h.x, Reg(rs1)), Sext12(imm));
    StoreDecodes(op, rs1, rs2, imm, cfg.s);
    StoreRuns(cfg, fp, h, StoreWord(imm, rs2, rs1, Funct3Of(op), 0x23), addr);
    StoreIs(h.mem, addr, I.AccessSize(op), GetReg(h.x, Reg(rs2)), cfg.allowMisaligned);
    WidthIs(op);
  }

  // ------------------------------------------------------------------
  // Upper immediates and system instructions
  // ------------------------------------------------------------------

  lemma UpperRuns(cfg: Config, fp: F.FpUnit, h: State, w: Word, rd: bv5)
    requires var d := I.Decode(w, cfg.s); d.rd == Reg(rd) && (d.op.LUI? || d.op.AUIPC?)
    ensures var d := I.Decode(w, cfg.s);
      Puts(h, rd, if d.op.LUI? then d.imm else Add(h.pc, d.imm), ExecuteFetched(cfg, fp, h, w))
  {
    var d := I.Decode(w, cfg.s);
    hide I.Decode, SetReg, GetReg, Add, ExecuteFetched, Reg;
    RunsBase(cfg, fp, h, w, d, I.Execute(IConfig(cfg, h.csrs), d, h.x, h.mem, h.pc));
  }
  /** LUI puts the immediate in the upper 20 bits of rd; AUIPC adds it to the pc. */
  lemma UpperStep(cfg: Config, fp: F.FpUnit, h: State, rd: bv5, imm: bv20)
    ensures Puts(h, rd, W((imm as bv32) << 12), ExecuteFetched(cfg, fp, h, UpperWord(imm, rd, 0x37)))
    ensures Puts(h, rd, Add(h.pc, W((imm as bv32) << 12)), ExecuteFetched(cfg, fp, h, UpperWord(imm, rd, 0x17)))
  {
    assert Upper(imm) == W((imm as bv32) << 12);
    hide UpperWord, I.Decode, ExecuteFetched, Reg, Upper, Add, Puts;
    UpperDecodes(rd, imm, cfg.s);
    UpperRuns(cfg, fp, h, UpperWord(imm, rd, 0x37), rd);
    UpperRuns(cfg, fp, h, UpperWord(imm, rd, 0x17), rd);
  }

  lemma SystemRuns(cfg: Config, fp: F.FpUnit, h: State, w: Word)
    requires var d := I.Decode(w, cfg.s); d.op.ECALL? || d.op.EBREAK? || d.op.FENCE?
    ensures var d := I.Decode(w, cfg.s);
      var e := ExecuteFetched(cfg, fp, h, w);
      match d.op
      case ECALL => Raised(h, I.EcallCause(h.csrs.priv), W(0), e)
      case EBREAK => Raised(h, BREAKPOINT, h.pc, e)
      case _ => e == Exec(h, Add(h.pc, W(4)), false, None)
  {
    var d := I.Decode(w, cfg.s);
    hide I.Decode, SetReg, GetReg, Add, ExecuteFetched, I.EcallCause;
    RunsBase(cfg, fp, h, w, d, I.Execute(IConfig(cfg, h.csrs), d, h.x, h.mem, h.pc));
  }

  /** ECALL raises 8 from U, 9 from S and 11 from M; EBREAK raises 3 at its own address; FENCE does nothing. */
  lemma EnvironmentStep(cfg: Config, fp: F.FpUnit, h: State, rd: bv5, rs1: bv5, imm: bv12)
    requires !h.csrs.priv.RESERVED?
    ensures Raised(h, W(if h.csrs.priv == USER then 8 else if h.csrs.priv == SUPERVISOR then 9 else 11), W(0), ExecuteFetched(cfg, fp, h, W(0x0000_0073)))
    ensures Raised(h, W(3), h.pc, ExecuteFetched(cfg, fp, h, W(0x0010_0073)))
    ensures ExecuteFetched(cfg, fp, h, ImmediateWord(imm, rs1, 0, rd, 0x0F)) == Exec(h, Add(h.pc, W(4)), false, None)
  {
    hide ImmediateWord, I.Decode, ExecuteFetched, Add;
    SystemDecodes(cfg.s);
    FenceDecodes(rd, rs1, imm, cfg.s);
    SystemRuns(cfg, fp, h, W(0x73));
    SystemRuns(cfg, fp, h, W(0x0010_0073));
    SystemRuns(cfg, fp, h, ImmediateWord(imm, rs1, 0, rd, 0x0F));
  }

  lemma SystemMasks(ms: Word)
    ensures Bit(ms, MSTATUS_TVM) == NthBit(ms.b, 20) && Bit(ms, MSTATUS_TW) == NthBit(ms.b, 21) && Bit(ms, MSTATUS_TSR) == NthBit(ms.b, 22)
  {
    assert MSTATUS_TVM == 0x10_0000 && MSTATUS_TW == 0x20_0000 && MSTATUS_TSR == 0x40_0000;
    hide *;
    HighMasks();
    BitMeets(ms, 0x10_0000);
    BitMeets(ms, 0x20_0000);
    BitMeets(ms, 0x40_0000);
    MaskReads(ms.b, 20);
    MaskReads(ms.b, 21);
    MaskReads(ms.b, 22);
  }

  lemma AdmittedRuns(cfg: Config, fp: F.FpUnit, h: State, w: Word)
    requires var d := I.Decode(w, cfg.s); d.op.WFI? || d.op.SFENCE_VMA?
    ensures ExecuteFetched(cfg, fp, h, w)
         == if Blocked(h.csrs, if I.Decode(w, cfg.s).op.WFI? then MSTATUS_TW else MSTATUS_TVM) then Illegal(h, w)
            else Exec(h, Add(h.pc, W(4)), false, None)
  {
    hide I.DecodeType, I.DecodeImm, SetReg, GetReg, Add, ExecuteFetched, Blocked;
    BaseDispatch(cfg, fp, h, w);
  }

  /** Below M an instruction controlled by a mstatus bit is refused in U mode, and in S mode when the bit is set. */
  predicate Refused(h: State, bit: nat) {
    h.csrs.priv == USER || (h.csrs.priv == SUPERVISOR && NthBit(GetCell(h.csrs, 0x300).b, bit))
  }
  /** WFI is refused by TW, bit 21 of mstatus, SFENCE.VMA by TVM, bit 20; where they are allowed they do nothing. */
  lemma WaitStep(cfg: Config, fp: F.FpUnit, h: State, rs1: bv5, rs2: bv5)
    ensures var e := ExecuteFetched(cfg, fp, h, W(0x1050_0073));
      if Refused(h, 21) then Raised(h, W(2), W(0x1050_0073), e) else e == Exec(h, Add(h.pc, W(4)), false, None)
    ensures cfg.s ==>
      var e := ExecuteFetched(cfg, fp, h, SfenceWord(rs2, rs1));
      if Refused(h, 20) then Raised(h, W(2), SfenceWord(rs2, rs1), e) else e == Exec(h, Add(h.pc, W(4)), false, None)
  {
    assert MSTATUS == 0x300;
    hide I.Decode, ExecuteFetched, Add, SfenceWord, NthBit, Bit, GetCell;
    SystemDecodes(cfg.s);
    SfenceDecodes(rs2, rs1);
    AdmittedRuns(cfg, fp, h, W(0x1050_0073));
    if cfg.s { AdmittedRuns(cfg, fp, h, SfenceWord(rs2, rs1)); }
    SystemMasks(GetCell(h.csrs, 0x300));
  }

  /** FENCE.I has no effect. */
  lemma FenceIStep(cfg: Config, fp: F.FpUnit, h: State, rd: bv5, rs1: bv5, imm: bv12)
    requires cfg.zifencei
    ensures var w := ImmediateWord(imm, rs1, 1, rd, 0x0F);
      ExecuteFetched(cfg, fp, h, w) == Exec(h, Add(h.pc, W(4)), false, None)
  {
    hide ImmediateWord, ExecuteFetched, Add, Opcode, Funct3, Is32Bit, Reg;
    var w := ImmediateWord(imm, rs1, 1, rd, 0x0F);
    ImmediateFields(imm, rs1, 1, rd, 0x0F);
    LongOpcode(w);
    ExtensionRuns(cfg, fp, h, FenceI, w);
  }

  // ------------------------------------------------------------------
  // Registers
  // ------------------------------------------------------------------

  lemma RegLow(r: bv5) ensures LowFive(Reg(r).b) == Reg(r).b {}
  lemma RegEqual(r: bv5, q: bv5) ensures (Reg(r).b == Reg(q).b) == (r == q) {}
  lemma IndexOf(r: bv5)
    ensures Index(Reg(r)) == ValueOf(Reg(r).b)
  {
    assert Index(Reg(r)) == ValueOf(LowFive(Reg(r).b));
    hide *;
    RegLow(r);
  }
  lemma RegZeroIs() ensures Reg(0).b == 0 {}
  lemma SameRegister(r: bv5, q: bv5)
    ensures (Index(Reg(r)) == Index(Reg(q))) == (r == q) && (Index(Reg(r)) == 0) == (r == 0)
  {
    hide *;
    IndexOf(r);
    IndexOf(q);
    RegEqual(r, q);
    RegEqual(r, 0);
    RegZeroIs();
    ZeroValue();
    if ValueOf(Reg(r).b) == ValueOf(Reg(q).b) { ValueDetermines(Reg(r).b, Reg(q).b); }
    if ValueOf(Reg(r).b) == 0 { ValueDetermines(Reg(r).b, 0); }
  }

  /** A written register reads back, every other keeps its value, and register 0 always reads as zero. */
  lemma RegisterFile(x: Regs, r: bv5, q: bv5, v: Word)
    ensures GetReg(SetReg(x, Reg(r), v), Reg(q)) == (if r == q && r != 0 then v else GetReg(x, Reg(q))) && GetReg(x, Reg(0)) == W(0)
  {
    hide Index, Reg;
    SameRegister(r, q);
    SameRegister(0, q);
    SameRegister(q, r);
  }
}
