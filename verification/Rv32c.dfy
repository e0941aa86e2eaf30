/** RV32C compressed instructions: decoder, executor and the executor's specification. */
module Rv32c {
  import opened Bits
  import opened Common

  datatype InstrType =
    | C_ADDI4SPN | C_LW | C_SW
    | C_NOP | C_ADDI | C_JAL | C_LI | C_ADDI16SP | C_LUI
    | C_SRLI | C_SRAI | C_ANDI | C_SUB | C_XOR | C_OR | C_AND
    | C_J | C_BEQZ | C_BNEZ
    | C_SLLI | C_LWSP | C_JR | C_MV | C_EBREAK | C_JALR | C_ADD | C_SWSP
    | ILLEGAL

  datatype Decoded = Decoded(op: InstrType, rd: Word, rs1: Word, rs2: Word, imm: Word, raw: Word)

  // ------------------------------------------------------------------
  // Parcel fields. A parcel is a word whose upper half is zero.
  // ------------------------------------------------------------------

  function Quadrant(c: Word): bv2 { (c.b & 3) as bv2 }
  function CFunct3(c: Word): bv3 { ((c.b >> 13) & 7) as bv3 }
  predicate Bit12(c: Word) { Bit(c, 0x1000) }
  function CRd(c: Word): Word { W((c.b >> 7) & 0x1F) }
  function CRs2(c: Word): Word { W((c.b >> 2) & 0x1F) }
  // Three-bit register fields name x8 to x15.
  function CRdShort(c: Word): Word { W(8 + ((c.b >> 7) & 7)) }
  function CRs2Short(c: Word): Word { W(8 + ((c.b >> 2) & 7)) }

  function ImmAddi4spn(c: Word): Word {
    W((((c.b >> 5) & 1) << 3) | (((c.b >> 6) & 1) << 2) | (((c.b >> 7) & 0xF) << 6) | (((c.b >> 11) & 3) << 4))
  }
  function ImmWord(c: Word): Word {
    W((((c.b >> 5) & 1) << 6) | (((c.b >> 6) & 1) << 2) | (((c.b >> 10) & 7) << 3))
  }
  function ImmSix(c: Word): Word {
    var v := ((c.b >> 2) & 0x1F) | (((c.b >> 12) & 1) << 5);
    W(if v & 0x20 != 0 then v | 0xFFFF_FFC0 else v)
  }
  function NzAddi16sp(c: Word): bv32 {
    (((c.b >> 2) & 1) << 5) | (((c.b >> 3) & 3) << 7) | (((c.b >> 5) & 1) << 6) | (((c.b >> 6) & 1) << 4) |
    (((c.b >> 12) & 1) << 9)
  }
  function ImmAddi16sp(c: Word): Word {
    var v := NzAddi16sp(c);
    W(if v & 0x200 != 0 then v | 0xFFFF_FC00 else v)
  }
  function NzLui(c: Word): bv32 { ((c.b >> 2) & 0x1F) | (((c.b >> 12) & 1) << 5) }
  function ImmLui(c: Word): Word {
    var v := NzLui(c) << 12;
    W(if c.b & 0x1000 != 0 then v | 0xFFFC_0000 else v)
  }
  function ImmLwsp(c: Word): Word {
    W((((c.b >> 2) & 3) << 6) | (((c.b >> 4) & 7) << 2) | (((c.b >> 12) & 1) << 5))
  }
  function ImmSwsp(c: Word): Word {
    W((((c.b >> 7) & 3) << 6) | (((c.b >> 9) & 0xF) << 2))
  }
  function ImmCj(c: Word): Word {
    var v := (((c.b >> 2) & 1) << 5) | (((c.b >> 3) & 7) << 1) | (((c.b >> 6) & 1) << 7) | (((c.b >> 7) & 1) << 6) |
             (((c.b >> 8) & 1) << 10) | (((c.b >> 9) & 3) << 8) | (((c.b >> 11) & 1) << 4) | (((c.b >> 12) & 1) << 11);
    W(if v & 0x800 != 0 then v | 0xFFFF_F000 else v)
  }
  function ImmCb(c: Word): Word {
    var v := (((c.b >> 2) & 1) << 5) | (((c.b >> 3) & 3) << 1) | (((c.b >> 5) & 3) << 6) | (((c.b >> 10) & 3) << 3) |
             (((c.b >> 12) & 1) << 8);
    W(if v & 0x100 != 0 then v | 0xFFFF_FE00 else v)
  }

  // ------------------------------------------------------------------
  // Decoder
  // ------------------------------------------------------------------

  function DecodeC0(c: Word): InstrType {
    var f3 := CFunct3(c);
    if f3 == 0 then (if ImmAddi4spn(c) != W(0) then C_ADDI4SPN else ILLEGAL)
    else if f3 == 2 then C_LW
    else if f3 == 6 then C_SW
    else ILLEGAL
  }

  // The group funct3 = 100 of quadrant 1; shamt[5] = 1 and funct1 = 1 are reserved on RV32.
  function DecodeC1Alu(c: Word): InstrType {
    var f2 := (c.b >> 10) & 3;
    var f2b := (c.b >> 5) & 3;
    if f2 == 2 then C_ANDI
    else if Bit12(c) then ILLEGAL
    else if f2 == 0 then C_SRLI
    else if f2 == 1 then C_SRAI
    else if f2b == 0 then C_SUB else if f2b == 1 then C_XOR else if f2b == 2 then C_OR else C_AND
  }

  function DecodeC1(c: Word): InstrType {
    var f3 := CFunct3(c);
    if f3 == 0 then (if CRd(c) == W(0) then C_NOP else C_ADDI)
    else if f3 == 1 then C_JAL
    else if f3 == 2 then C_LI
    else if f3 == 3 then
      if CRd(c) == W(2) then (if NzAddi16sp(c) != 0 then C_ADDI16SP else ILLEGAL)
      else (if NzLui(c) != 0 then C_LUI else ILLEGAL)
    else if f3 == 4 then DecodeC1Alu(c)
    else if f3 == 5 then C_J
    else if f3 == 6 then C_BEQZ
    else C_BNEZ
  }

  function DecodeC2(c: Word): InstrType {
    var f3 := CFunct3(c);
    var rd := CRd(c);
    var rs2 := CRs2(c);
    if f3 == 0 then (if Bit12(c) then ILLEGAL else C_SLLI)
    else if f3 == 2 then (if rd != W(0) then C_LWSP else ILLEGAL)
    else if f3 == 4 then
      if !Bit12(c) then
        if rs2 == W(0) then (if rd != W(0) then C_JR else ILLEGAL) else C_MV
      else
        if rs2 == W(0) then (if rd == W(0) then C_EBREAK else C_JALR) else C_ADD
    else if f3 == 6 then C_SWSP
    else ILLEGAL
  }

  function DecodeType(c: Word): InstrType {
    var q := Quadrant(c);
    if q == 0 then DecodeC0(c) else if q == 1 then DecodeC1(c) else if q == 2 then DecodeC2(c) else ILLEGAL
  }

  function DecodeRd(c: Word, op: InstrType): Word {
    match op
    case C_ADDI4SPN | C_LW => CRs2Short(c)
    case C_SRLI | C_SRAI | C_ANDI | C_SUB | C_XOR | C_OR | C_AND => CRdShort(c)
    case C_NOP | C_ADDI | C_LI | C_ADDI16SP | C_LUI | C_SLLI | C_LWSP | C_MV | C_ADD => CRd(c)
    case C_JAL | C_JALR => W(1)
    case _ => W(0)
  }

  function DecodeRs1(c: Word, op: InstrType): Word {
    match op
    case C_ADDI4SPN | C_ADDI16SP | C_LWSP | C_SWSP => W(2)
    case C_LW | C_SW | C_SRLI | C_SRAI | C_ANDI | C_SUB | C_XOR | C_OR | C_AND | C_BEQZ | C_BNEZ => CRdShort(c)
    case C_NOP | C_ADDI | C_SLLI | C_JR | C_JALR | C_ADD => CRd(c)
    case _ => W(0)
  }

  function DecodeRs2(c: Word, op: InstrType): Word {
    match op
    case C_SW | C_SUB | C_XOR | C_OR | C_AND => CRs2Short(c)
    case C_MV | C_ADD | C_SWSP => CRs2(c)
    case _ => W(0)
  }

  function DecodeImm(c: Word, op: InstrType): Word {
    match op
    case C_ADDI4SPN => ImmAddi4spn(c)
    case C_LW | C_SW => ImmWord(c)
    case C_NOP | C_ADDI | C_LI | C_ANDI => ImmSix(c)
    case C_ADDI16SP => ImmAddi16sp(c)
    case C_LUI => ImmLui(c)
    case C_SRLI | C_SRAI | C_SLLI => CRs2(c)
    case C_JAL | C_J => ImmCj(c)
    case C_BEQZ | C_BNEZ => ImmCb(c)
    case C_LWSP => ImmLwsp(c)
    case C_SWSP => ImmSwsp(c)
    case _ => W(0)
  }

  function Decode(c: Word): Decoded {
    var op := DecodeType(c);
    Decoded(op, DecodeRd(c, op), DecodeRs1(c, op), DecodeRs2(c, op), DecodeImm(c, op), c)
  }

  // ------------------------------------------------------------------
  // What each instruction does
  // ------------------------------------------------------------------

  datatype Result = Result(nextPc: Word, taken: bool, trap: bool, cause: Word, tval: Word)

  datatype Outcome = Outcome(r: Result, x: Regs, m: Mem)

  function Fresh(pc: Word): Result { Result(Add(pc, W(2)), false, false, W(0), W(0)) }

  function Goto(pc: Word, target: Word): Result { Fresh(pc).(nextPc := target, taken := true) }

  function TrapResult(pc: Word, cause: Word, tval: Word): Result {
    Fresh(pc).(trap := true, cause := cause, tval := tval)
  }

  predicate IsAlu(op: InstrType) {
    op.C_ADDI4SPN? || op.C_NOP? || op.C_ADDI? || op.C_LI? || op.C_ADDI16SP? || op.C_LUI? || op.C_SRLI? ||
    op.C_SRAI? || op.C_ANDI? || op.C_SUB? || op.C_XOR? || op.C_OR? || op.C_AND? || op.C_SLLI? || op.C_MV? || op.C_ADD?
  }

  function Alu(d: Decoded, a: Word, b: Word): Word {
    match d.op
    case C_ADDI4SPN | C_ADDI | C_ADDI16SP => Add(a, d.imm)
    case C_LI | C_LUI => d.imm
    case C_SRLI => ShiftRight(a, d.imm)
    case C_SRAI => ShiftRightArith(a, d.imm)
    case C_SLLI => ShiftLeft(a, d.imm)
    case C_ANDI => And(a, d.imm)
    case C_SUB => Sub(a, b)
    case C_XOR => Xor(a, b)
    case C_OR => Or(a, b)
    case C_AND => And(a, b)
    case C_ADD => Add(a, b)
    case _ => b
  }

  function ExecuteLoad(allowMisaligned: bool, d: Decoded, x: Regs, m: Mem, pc: Word): Outcome {
    var addr := Add(GetReg(x, d.rs1), d.imm);
    match Load(m, addr, S4, allowMisaligned)
    case Loaded(v) => Outcome(Fresh(pc), SetReg(x, d.rd, v), m)
    case LoadFault(cause) => Outcome(TrapResult(pc, cause, addr), x, m)
  }

  function ExecuteStore(allowMisaligned: bool, d: Decoded, x: Regs, m: Mem, pc: Word): Outcome {
    var addr := Add(GetReg(x, d.rs1), d.imm);
    match Store(m, addr, S4, GetReg(x, d.rs2), allowMisaligned)
    case Stored(m') => Outcome(Fresh(pc), x, m')
    case StoreFault(cause) => Outcome(TrapResult(pc, cause, addr), x, m)
  }

  function Execute(allowMisaligned: bool, d: Decoded, x: Regs, m: Mem, pc: Word): Outcome {
    var a := GetReg(x, d.rs1);
    var b := GetReg(x, d.rs2);
    if d.op.C_NOP? then Outcome(Fresh(pc), x, m)
    else if IsAlu(d.op) then Outcome(Fresh(pc), SetReg(x, d.rd, Alu(d, a, b)), m)
    else if d.op.C_LW? || d.op.C_LWSP? then ExecuteLoad(allowMisaligned, d, x, m, pc)
    else if d.op.C_SW? || d.op.C_SWSP? then ExecuteStore(allowMisaligned, d, x, m, pc)
    else match d.op
      case C_JAL => Outcome(Goto(pc, Add(pc, d.imm)), SetReg(x, W(1), Add(pc, W(2))), m)
      case C_J => Outcome(Goto(pc, Add(pc, d.imm)), x, m)
      case C_BEQZ => Outcome(if a == W(0) then Goto(pc, Add(pc, d.imm)) else Fresh(pc), x, m)
      case C_BNEZ => Outcome(if a != W(0) then Goto(pc, Add(pc, d.imm)) else Fresh(pc), x, m)
      case C_JR => Outcome(Goto(pc, And(a, W(0xFFFF_FFFE))), x, m)
      case C_JALR => Outcome(Goto(pc, And(a, W(0xFFFF_FFFE))), SetReg(x, W(1), Add(pc, W(2))), m)
      case C_EBREAK => Outcome(TrapResult(pc, BREAKPOINT, pc), x, m)
      case _ => Outcome(TrapResult(pc, ILLEGAL_INSTRUCTION, d.raw), x, m)
  }

  // ------------------------------------------------------------------
  // The executor
  // ------------------------------------------------------------------

  method ExecuteOn(allowMisaligned: bool, d: Decoded, regs: RegFile, bus: SimpleMemory, pc: Word) returns (r: Result)
    requires regs.Valid()
    modifies regs.x, bus.mem
    ensures Outcome(r, regs.Contents(), bus.Contents())
         == Execute(allowMisaligned, d, old(regs.Contents()), old(bus.Contents()), pc)
  {
    hide GetReg, SetReg, Load, Store, Alu, Add, And;
    r := Fresh(pc);
    var a := regs.Read(d.rs1);
    var b := regs.Read(d.rs2);
    if d.op.C_NOP? {
    } else if IsAlu(d.op) {
      regs.Write(d.rd, Alu(d, a, b));
    } else if d.op.C_LW? || d.op.C_LWSP? {
      var addr := Add(a, d.imm);
      var loaded := LoadFrom(bus, addr, S4, allowMisaligned);
      match loaded {
        case Loaded(v) => regs.Write(d.rd, v);
        case LoadFault(cause) => r := TrapResult(pc, cause, addr);
      }
    } else if d.op.C_SW? || d.op.C_SWSP? {
      var addr := Add(a, d.imm);
      var fault := StoreTo(bus, addr, S4, b, allowMisaligned);
      if fault.Some? {
        r := TrapResult(pc, fault.value, addr);
      }
    } else {
      match d.op {
        case C_JAL =>
          regs.Write(W(1), Add(pc, W(2)));
          r := Goto(pc, Add(pc, d.imm));
        case C_J =>
          r := Goto(pc, Add(pc, d.imm));
        case C_BEQZ =>
          if a == W(0) { r := Goto(pc, Add(pc, d.imm)); }
        case C_BNEZ =>
          if a != W(0) { r := Goto(pc, Add(pc, d.imm)); }
        case C_JR =>
          r := Goto(pc, And(a, W(0xFFFF_FFFE)));
        case C_JALR =>
          // The target uses rs1 as read before the link write.
          regs.Write(W(1), Add(pc, W(2)));
          r := Goto(pc, And(a, W(0xFFFF_FFFE)));
        case C_EBREAK =>
          r := TrapResult(pc, BREAKPOINT, pc);
        case _ =>
          r := TrapResult(pc, ILLEGAL_INSTRUCTION, d.raw);
      }
    }
  }
}
