/** RV32I base instructions: decoder, executor and the executor's specification. */
module Rv32i {
  import opened Bits
  import opened Common

  datatype InstrType =
    | ADD | SUB | SLL | SLT | SLTU | XOR | SRL | SRA | OR | AND
    | ADDI | SLTI | SLTIU | XORI | ORI | ANDI | SLLI | SRLI | SRAI
    | LB | LH | LW | LBU | LHU
    | SB | SH | SW
    | BEQ | BNE | BLT | BGE | BLTU | BGEU
    | LUI | AUIPC
    | JAL | JALR
    | ECALL | EBREAK | MRET | SRET | WFI | SFENCE_VMA
    | FENCE
    | ILLEGAL

  datatype Decoded = Decoded(op: InstrType, rd: Word, rs1: Word, rs2: Word, imm: Word, raw: Word)

  const LUI_OP: bv7 := 0x37
  const AUIPC_OP: bv7 := 0x17
  const JAL_OP: bv7 := 0x6F
  const JALR_OP: bv7 := 0x67
  const BRANCH: bv7 := 0x63
  const LOAD: bv7 := 0x03
  const STORE: bv7 := 0x23
  const OP_IMM: bv7 := 0x13
  const OP: bv7 := 0x33
  const MISC: bv7 := 0x0F
  const SYSTEM: bv7 := 0x73

  const MRET_WORD := W(0x3020_0073)
  const SRET_WORD := W(0x1020_0073)

  // ------------------------------------------------------------------
  // Decoder
  // ------------------------------------------------------------------

  function BranchType(f3: bv3): InstrType {
    if f3 == 0 then BEQ else if f3 == 1 then BNE else if f3 == 4 then BLT
    else if f3 == 5 then BGE else if f3 == 6 then BLTU else if f3 == 7 then BGEU else ILLEGAL
  }

  function LoadType(f3: bv3): InstrType {
    if f3 == 0 then LB else if f3 == 1 then LH else if f3 == 2 then LW
    else if f3 == 4 then LBU else if f3 == 5 then LHU else ILLEGAL
  }

  function StoreType(f3: bv3): InstrType {
    if f3 == 0 then SB else if f3 == 1 then SH else if f3 == 2 then SW else ILLEGAL
  }

  // The shifts accept a single funct7 value; shamt >= 32 and all other values are reserved.
  function OpImmType(f3: bv3, f7: bv7): InstrType {
    if f3 == 0 then ADDI else if f3 == 2 then SLTI else if f3 == 3 then SLTIU
    else if f3 == 4 then XORI else if f3 == 6 then ORI else if f3 == 7 then ANDI
    else if f3 == 1 then (if f7 == 0 then SLLI else ILLEGAL)
    else if f7 == 0 then SRLI else if f7 == 0x20 then SRAI else ILLEGAL
  }

  function OpType(f3: bv3, f7: bv7): InstrType {
    if f7 == 0 then
      if f3 == 0 then ADD else if f3 == 1 then SLL else if f3 == 2 then SLT else if f3 == 3 then SLTU
      else if f3 == 4 then XOR else if f3 == 5 then SRL else if f3 == 6 then OR else AND
    else if f7 == 0x20 then
      if f3 == 0 then SUB else if f3 == 5 then SRA else ILLEGAL
    else ILLEGAL
  }

  function SystemType(f3: bv3, raw: Word, sMode: bool): InstrType {
    if f3 != 0 then ILLEGAL
    else if raw == W(0x0000_0073) then ECALL
    else if raw == W(0x0010_0073) then EBREAK
    else if raw == MRET_WORD then MRET
    else if raw == W(0x1050_0073) then WFI
    else if sMode && raw == SRET_WORD then SRET
    else if sMode && raw.b & 0xFE00_7FFF == 0x1200_0073 then SFENCE_VMA
    else ILLEGAL
  }

  function DecodeType(i: Word, sMode: bool): InstrType {
    var op := Opcode(i);
    var f3 := Funct3(i);
    if op == LUI_OP then LUI
    else if op == AUIPC_OP then AUIPC
    else if op == JAL_OP then JAL
    else if op == JALR_OP then (if f3 == 0 then JALR else ILLEGAL)
    else if op == BRANCH then BranchType(f3)
    else if op == LOAD then LoadType(f3)
    else if op == STORE then StoreType(f3)
    else if op == OP_IMM then OpImmType(f3, Funct7(i))
    else if op == OP then OpType(f3, Funct7(i))
    else if op == MISC then (if f3 == 0 then FENCE else ILLEGAL)
    else if op == SYSTEM then SystemType(f3, i, sMode)
    else ILLEGAL
  }

  function ImmU(i: Word): Word { W(i.b & 0xFFFF_F000) }

  // The upper twelve bits, shifted down arithmetically.
  function ImmI(i: Word): Word {
    var v := i.b >> 20;
    W(if v & 0x800 != 0 then v | 0xFFFF_F000 else v)
  }

  function ImmS(i: Word): Word {
    var v := ((i.b >> 25) << 5) | ((i.b >> 7) & 0x1F);
    W(if v & 0x800 != 0 then v | 0xFFFF_F000 else v)
  }

  function ImmB(i: Word): Word {
    var v := ((i.b >> 31) << 12) | (((i.b >> 7) & 1) << 11) | (((i.b >> 25) & 0x3F) << 5) | (((i.b >> 8) & 0xF) << 1);
    W(if v & 0x1000 != 0 then v | 0xFFFF_E000 else v)
  }

  function ImmJ(i: Word): Word {
    var v := ((i.b >> 31) << 20) | (((i.b >> 12) & 0xFF) << 12) | (((i.b >> 20) & 1) << 11) | (((i.b >> 21) & 0x3FF) << 1);
    W(if v & 0x10_0000 != 0 then v | 0xFFE0_0000 else v)
  }

  function DecodeImm(i: Word, op: InstrType): Word {
    match op
    case LUI | AUIPC => ImmU(i)
    case JAL => ImmJ(i)
    case BEQ | BNE | BLT | BGE | BLTU | BGEU => ImmB(i)
    case SB | SH | SW => ImmS(i)
    case SLLI | SRLI | SRAI => Rs2(i)
    case JALR | LB | LH | LW | LBU | LHU | ADDI | SLTI | SLTIU | XORI | ORI | ANDI => ImmI(i)
    case _ => W(0)
  }

  function Decode(i: Word, sMode: bool): Decoded {
    var op := DecodeType(i, sMode);
    Decoded(op, Rd(i), Rs1(i), Rs2(i), DecodeImm(i, op), i)
  }

  // ------------------------------------------------------------------
  // What each instruction does
  // ------------------------------------------------------------------

  datatype Result = Result(
    nextPc: Word, taken: bool,
    trap: bool, cause: Word, tval: Word,
    mret: bool, sret: bool, sfenceVma: bool, wfi: bool)

  /** The executor's configuration: IALIGN, the misaligned-access policy and the current privilege. */
  datatype Config = Config(cExt: bool, allowMisaligned: bool, priv: Privilege)

  datatype Outcome = Outcome(r: Result, x: Regs, m: Mem)

  function Fresh(pc: Word): Result {
    Result(Add(pc, W(4)), false, false, W(0), W(0), false, false, false, false)
  }

  function TrapResult(r: Result, cause: Word, tval: Word): Result {
    r.(trap := true, cause := cause, tval := tval)
  }

  // IALIGN is 16 with C (bit 0 is clear by construction) and 32 without.
  predicate TargetMisaligned(cfg: Config, target: Word) { !cfg.cExt && Bit(target, 2) }

  function Goto(cfg: Config, r: Result, target: Word): Result {
    if TargetMisaligned(cfg, target) then TrapResult(r, INSTR_ADDR_MISALIGNED, target)
    else r.(nextPc := target, taken := true)
  }

  function ExtendLoaded(op: InstrType, v: Word): Word {
    match op
    case LB => SignExtend(W(Byte8Of(v.b)), W(0x80))
    case LH => SignExtend(W(Half16Of(v.b)), W(0x8000))
    case LBU => W(Byte8Of(v.b))
    case LHU => W(Half16Of(v.b))
    case _ => v
  }

  function AccessSize(op: InstrType): Size {
    match op
    case LB | LBU | SB => S1
    case LH | LHU | SH => S2
    case _ => S4
  }

  predicate BranchTaken(op: InstrType, a: Word, b: Word) {
    match op
    case BEQ => a == b
    case BNE => a != b
    case BLT => SignedLess(a, b)
    case BGE => !SignedLess(a, b)
    case BLTU => Less(a, b)
    case _ => !Less(a, b)
  }

  function Alu(op: InstrType, a: Word, b: Word): Word {
    match op
    case ADD | ADDI => Add(a, b)
    case SUB => Sub(a, b)
    case SLL | SLLI => ShiftLeft(a, b)
    case SLT | SLTI => FromBool(SignedLess(a, b))
    case SLTU | SLTIU => FromBool(Less(a, b))
    case XOR | XORI => Xor(a, b)
    case SRL | SRLI => ShiftRight(a, b)
    case SRA | SRAI => ShiftRightArith(a, b)
    case OR | ORI => Or(a, b)
    case AND | ANDI => And(a, b)
    case _ => W(0)
  }

  function EcallCause(p: Privilege): Word {
    if p == USER then ECALL_FROM_U else if p == SUPERVISOR then ECALL_FROM_S else ECALL_FROM_M
  }

  predicate IsBranch(op: InstrType) { op.BEQ? || op.BNE? || op.BLT? || op.BGE? || op.BLTU? || op.BGEU? }
  predicate IsLoad(op: InstrType) { op.LB? || op.LH? || op.LW? || op.LBU? || op.LHU? }
  predicate IsStore(op: InstrType) { op.SB? || op.SH? || op.SW? }
  predicate IsAluImm(op: InstrType) {
    op.ADDI? || op.SLTI? || op.SLTIU? || op.XORI? || op.ORI? || op.ANDI? || op.SLLI? || op.SRLI? || op.SRAI?
  }
  predicate IsAluReg(op: InstrType) {
    op.ADD? || op.SUB? || op.SLL? || op.SLT? || op.SLTU? || op.XOR? || op.SRL? || op.SRA? || op.OR? || op.AND?
  }

  function ExecuteJump(cfg: Config, d: Decoded, x: Regs, m: Mem, pc: Word): Outcome {
    var target := if d.op.JAL? then Add(pc, d.imm) else And(Add(GetReg(x, d.rs1), d.imm), W(0xFFFF_FFFE));
    var r := Goto(cfg, Fresh(pc), target);
    Outcome(r, if r.trap then x else SetReg(x, d.rd, Add(pc, W(4))), m)
  }

  function ExecuteLoad(cfg: Config, d: Decoded, x: Regs, m: Mem, pc: Word): Outcome {
    var addr := Add(GetReg(x, d.rs1), d.imm);
    match Load(m, addr, AccessSize(d.op), cfg.allowMisaligned)
    case Loaded(v) => Outcome(Fresh(pc), SetReg(x, d.rd, ExtendLoaded(d.op, v)), m)
    case LoadFault(cause) => Outcome(TrapResult(Fresh(pc), cause, addr), x, m)
  }

  function ExecuteStore(cfg: Config, d: Decoded, x: Regs, m: Mem, pc: Word): Outcome {
    var addr := Add(GetReg(x, d.rs1), d.imm);
    match Store(m, addr, AccessSize(d.op), GetReg(x, d.rs2), cfg.allowMisaligned)
    case Stored(m') => Outcome(Fresh(pc), x, m')
    case StoreFault(cause) => Outcome(TrapResult(Fresh(pc), cause, addr), x, m)
  }

  function ExecuteSystem(cfg: Config, d: Decoded, pc: Word): Result {
    var r := Fresh(pc);
    match d.op
    case ECALL => TrapResult(r, EcallCause(cfg.priv), W(0))
    case EBREAK => TrapResult(r, BREAKPOINT, pc)
    case MRET => r.(mret := true)
    case SRET => r.(sret := true)
    case SFENCE_VMA => r.(sfenceVma := true)
    case WFI => r.(wfi := true)
    case FENCE => r
    case _ => TrapResult(r, ILLEGAL_INSTRUCTION, d.raw)
  }

  function Execute(cfg: Config, d: Decoded, x: Regs, m: Mem, pc: Word): Outcome {
    var a := GetReg(x, d.rs1);
    var b := GetReg(x, d.rs2);
    if d.op.LUI? then Outcome(Fresh(pc), SetReg(x, d.rd, d.imm), m)
    else if d.op.AUIPC? then Outcome(Fresh(pc), SetReg(x, d.rd, Add(pc, d.imm)), m)
    else if d.op.JAL? || d.op.JALR? then ExecuteJump(cfg, d, x, m, pc)
    else if IsBranch(d.op) then
      Outcome(if BranchTaken(d.op, a, b) then Goto(cfg, Fresh(pc), Add(pc, d.imm)) else Fresh(pc), x, m)
    else if IsLoad(d.op) then ExecuteLoad(cfg, d, x, m, pc)
    else if IsStore(d.op) then ExecuteStore(cfg, d, x, m, pc)
    else if IsAluImm(d.op) then Outcome(Fresh(pc), SetReg(x, d.rd, Alu(d.op, a, d.imm)), m)
    else if IsAluReg(d.op) then Outcome(Fresh(pc), SetReg(x, d.rd, Alu(d.op, a, b)), m)
    else Outcome(ExecuteSystem(cfg, d, pc), x, m)
  }

  // ------------------------------------------------------------------
  // The executor
  // ------------------------------------------------------------------

  method ExecuteOn(cfg: Config, d: Decoded, regs: RegFile, bus: SimpleMemory, pc: Word) returns (r: Result)
    requires regs.Valid()
    modifies regs.x, bus.mem
    ensures Outcome(r, regs.Contents(), bus.Contents())
         == Execute(cfg, d, old(regs.Contents()), old(bus.Contents()), pc)
  {
    hide GetReg, SetReg, Load, Store, Alu, BranchTaken, ExtendLoaded, Add, And, Bit;
    r := Fresh(pc);
    var rs1Val := regs.Read(d.rs1);
    var rs2Val := regs.Read(d.rs2);
    if d.op.LUI? {
      regs.Write(d.rd, d.imm);
    } else if d.op.AUIPC? {
      regs.Write(d.rd, Add(pc, d.imm));
    } else if d.op.JAL? || d.op.JALR? {
      // The target is checked before the link register is written.
      var target := if d.op.JAL? then Add(pc, d.imm) else And(Add(rs1Val, d.imm), W(0xFFFF_FFFE));
      if TargetMisaligned(cfg, target) {
        r := TrapResult(r, INSTR_ADDR_MISALIGNED, target);
      } else {
        regs.Write(d.rd, Add(pc, W(4)));
        r := r.(nextPc := target, taken := true);
      }
    } else if IsBranch(d.op) {
      if BranchTaken(d.op, rs1Val, rs2Val) {
        r := Goto(cfg, r, Add(pc, d.imm));
      }
    } else if IsLoad(d.op) {
      var addr := Add(rs1Val, d.imm);
      var loaded := LoadFrom(bus, addr, AccessSize(d.op), cfg.allowMisaligned);
      match loaded {
        case Loaded(v) => regs.Write(d.rd, ExtendLoaded(d.op, v));
        case LoadFault(cause) => r := TrapResult(r, cause, addr);
      }
    } else if IsStore(d.op) {
      var addr := Add(rs1Val, d.imm);
      var fault := StoreTo(bus, addr, AccessSize(d.op), rs2Val, cfg.allowMisaligned);
      if fault.Some? {
        r := TrapResult(r, fault.value, addr);
      }
    } else if IsAluImm(d.op) {
      regs.Write(d.rd, Alu(d.op, rs1Val, d.imm));
    } else if IsAluReg(d.op) {
      regs.Write(d.rd, Alu(d.op, rs1Val, rs2Val));
    } else {
      r := ExecuteSystem(cfg, d, pc);
    }
  }
}
