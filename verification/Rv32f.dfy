/**
 * RV32F: decoder, loads and stores, moves and sign injection, rounding-mode checks and flag
 * accumulation. Rounded arithmetic, comparisons and conversions are done by a floating-point
 * unit that is a parameter of the model.
 */
module Rv32f {
  import opened Bits
  import opened Common

  datatype InstrType =
    | FLW | FSW
    | FADD_S | FSUB_S | FMUL_S | FDIV_S | FSQRT_S | FMIN_S | FMAX_S
    | FMADD_S | FMSUB_S | FNMADD_S | FNMSUB_S
    | FCVT_W_S | FCVT_WU_S | FCVT_S_W | FCVT_S_WU
    | FMV_X_W | FMV_W_X
    | FEQ_S | FLT_S | FLE_S
    | FSGNJ_S | FSGNJN_S | FSGNJX_S
    | FCLASS_S
    | ILLEGAL

  datatype Decoded = Decoded(op: InstrType, rd: Word, rs1: Word, rs2: Word, rs3: Word, rm: bv3, imm: Word, raw: Word)

  const LOAD_FP: bv7 := 0x07
  const STORE_FP: bv7 := 0x27
  const MADD: bv7 := 0x43
  const MSUB: bv7 := 0x47
  const NMSUB: bv7 := 0x4B
  const NMADD: bv7 := 0x4F
  const OP_FP: bv7 := 0x53

  // ------------------------------------------------------------------
  // Decoder
  // ------------------------------------------------------------------

  function Rs3(i: Word): Word { W((i.b >> 27) & 0x1F) }
  function Fmt(i: Word): bv2 { ((i.b >> 25) & 3) as bv2 }

  function OpFpType(f7: bv7, f3: bv3, rs2: Word): InstrType {
    if f7 == 0x00 then FADD_S
    else if f7 == 0x04 then FSUB_S
    else if f7 == 0x08 then FMUL_S
    else if f7 == 0x0C then FDIV_S
    else if f7 == 0x2C then (if rs2 == W(0) then FSQRT_S else ILLEGAL)
    else if f7 == 0x10 then (if f3 == 0 then FSGNJ_S else if f3 == 1 then FSGNJN_S else if f3 == 2 then FSGNJX_S else ILLEGAL)
    else if f7 == 0x14 then (if f3 == 0 then FMIN_S else if f3 == 1 then FMAX_S else ILLEGAL)
    else if f7 == 0x60 then (if rs2 == W(0) then FCVT_W_S else if rs2 == W(1) then FCVT_WU_S else ILLEGAL)
    else if f7 == 0x70 then
      if rs2 != W(0) then ILLEGAL else if f3 == 0 then FMV_X_W else if f3 == 1 then FCLASS_S else ILLEGAL
    else if f7 == 0x50 then (if f3 == 2 then FEQ_S else if f3 == 1 then FLT_S else if f3 == 0 then FLE_S else ILLEGAL)
    else if f7 == 0x68 then (if rs2 == W(0) then FCVT_S_W else if rs2 == W(1) then FCVT_S_WU else ILLEGAL)
    else if f7 == 0x78 then (if f3 == 0 && rs2 == W(0) then FMV_W_X else ILLEGAL)
    else ILLEGAL
  }

  predicate UsesRm(op: InstrType) {
    op.FADD_S? || op.FSUB_S? || op.FMUL_S? || op.FDIV_S? || op.FSQRT_S? ||
    op.FMADD_S? || op.FMSUB_S? || op.FNMADD_S? || op.FNMSUB_S? ||
    op.FCVT_W_S? || op.FCVT_WU_S? || op.FCVT_S_W? || op.FCVT_S_WU?
  }

  function FormatType(i: Word): InstrType {
    var op := Opcode(i);
    if op == LOAD_FP then (if Funct3(i) == 2 then FLW else ILLEGAL)
    else if op == STORE_FP then (if Funct3(i) == 2 then FSW else ILLEGAL)
    else if op == MADD then (if Fmt(i) == 0 then FMADD_S else ILLEGAL)
    else if op == MSUB then (if Fmt(i) == 0 then FMSUB_S else ILLEGAL)
    else if op == NMSUB then (if Fmt(i) == 0 then FNMSUB_S else ILLEGAL)
    else if op == NMADD then (if Fmt(i) == 0 then FNMADD_S else ILLEGAL)
    else if op == OP_FP then OpFpType(Funct7(i), Funct3(i), Rs2(i))
    else ILLEGAL
  }

  // Rounding modes 5 and 6 are statically reserved; DYN (7) is checked against frm at execution.
  function DecodeType(i: Word): InstrType {
    var op := FormatType(i);
    if UsesRm(op) && (Funct3(i) == 5 || Funct3(i) == 6) then ILLEGAL else op
  }

  function ImmLoad(i: Word): Word { SignExtend(W(i.b >> 20), W(0x800)) }
  function ImmStore(i: Word): Word { SignExtend(W(((i.b >> 25) << 5) | ((i.b >> 7) & 0x1F)), W(0x800)) }

  function Decode(i: Word): Decoded {
    var op := DecodeType(i);
    var imm := if op.FLW? then ImmLoad(i) else if op.FSW? then ImmStore(i) else W(0);
    Decoded(op, Rd(i), Rs1(i), Rs2(i), Rs3(i), Funct3(i), imm, i)
  }

  predicate IsFInstruction(i: Word) {
    var op := Opcode(i);
    op == LOAD_FP || op == STORE_FP || op == MADD || op == MSUB || op == NMSUB || op == NMADD || op == OP_FP
  }

  // ------------------------------------------------------------------
  // State
  // ------------------------------------------------------------------

  function GetF(f: Regs, i: Word): Word { f[Index(i)] }
  function SetF(f: Regs, i: Word, v: Word): Regs { f[Index(i) := v] }

  class FRegFile {
    const bits: array<Word>

    ghost predicate Valid() { bits.Length == 32 }

    ghost function Contents(): Regs
      requires Valid()
      reads bits
    { bits[..] }

    constructor ()
      ensures Valid() && fresh(bits) && Contents() == ZeroRegs()
    {
      bits := new Word[32](_ => W(0));
    }

    method ReadBits(idx: Word) returns (v: Word)
      requires Valid()
      ensures v == GetF(Contents(), idx)
    {
      v := bits[Index(idx)];
    }

    method WriteBits(idx: Word, val: Word)
      requires Valid()
      modifies bits
      ensures Contents() == SetF(old(Contents()), idx, val)
    {
      bits[Index(idx)] := val;
    }

    method Reset()
      requires Valid()
      modifies bits
      ensures Contents() == ZeroRegs()
    {
      for i := 0 to 32
        invariant forall k :: 0 <= k < i ==> bits[k] == W(0)
      {
        bits[i] := W(0);
      }
    }
  }

  /** A result and the exception flags it raises. */
  datatype FpResult = FpResult(value: Word, flags: bv5)

  /** The floating-point unit: operation, three operands (register bits) and the rounding mode in effect. */
  type FpUnit = (InstrType, Word, Word, Word, bv3) -> FpResult

  // ------------------------------------------------------------------
  // What each instruction does
  // ------------------------------------------------------------------

  function Frm(fcsr: Word): bv3 { ((fcsr.b >> 5) & 7) as bv3 }
  function EffectiveRm(rm: bv3, fcsr: Word): bv3 { if rm == 7 then Frm(fcsr) else rm }

  predicate WritesInt(op: InstrType) {
    op.FCVT_W_S? || op.FCVT_WU_S? || op.FMV_X_W? || op.FEQ_S? || op.FLT_S? || op.FLE_S? || op.FCLASS_S?
  }
  predicate ReadsInt(op: InstrType) { op.FCVT_S_W? || op.FCVT_S_WU? || op.FMV_W_X? }

  // The magnitude of one word with the sign of another.
  function Inject(a: bv32, sign: bv32): bv32 { (a & 0x7FFF_FFFF) | (sign & 0x8000_0000) }

  function Compute(fp: FpUnit, op: InstrType, a: Word, b: Word, c: Word, rm: bv3): FpResult {
    match op
    case FMV_X_W | FMV_W_X => FpResult(a, 0)
    case FSGNJ_S => FpResult(W(Inject(a.b, b.b)), 0)
    case FSGNJN_S => FpResult(W(Inject(a.b, Comp(b.b))), 0)
    case FSGNJX_S => FpResult(W(Inject(a.b, Difference(a.b, b.b))), 0)
    case _ => fp(op, a, b, c, rm)
  }

  /** The fcsr view is built from the low eight bits of the cell and written back to them. */
  function FcsrView(cell: Word): Word { W(cell.b & 0xFF) }
  function Accumulate(fcsr: Word, flags: bv5): Word { W(fcsr.b | (flags as bv32)) }

  datatype Result = Result(valid: bool, cause: Word, tval: Word)

  const DONE := Result(true, W(0), W(0))

  datatype Outcome = Outcome(r: Result, x: Regs, f: Regs, m: Mem, fcsr: Word)

  function Execute(fp: FpUnit, allowMisaligned: bool, d: Decoded, x: Regs, f: Regs, m: Mem, fcsr: Word): Outcome {
    var rm := EffectiveRm(d.rm, fcsr);
    if d.op.ILLEGAL? || (UsesRm(d.op) && rm > 4) then
      Outcome(Result(false, ILLEGAL_INSTRUCTION, d.raw), x, f, m, fcsr)
    else if d.op.FLW? then
      var addr := Add(GetReg(x, d.rs1), d.imm);
      match Load(m, addr, S4, allowMisaligned)
      case Loaded(v) => Outcome(DONE, x, SetF(f, d.rd, v), m, fcsr)
      case LoadFault(cause) => Outcome(Result(false, cause, addr), x, f, m, fcsr)
    else if d.op.FSW? then
      var addr := Add(GetReg(x, d.rs1), d.imm);
      match Store(m, addr, S4, GetF(f, d.rs2), allowMisaligned)
      case Stored(m') => Outcome(DONE, x, f, m', fcsr)
      case StoreFault(cause) => Outcome(Result(false, cause, addr), x, f, m, fcsr)
    else
      var a := if ReadsInt(d.op) then GetReg(x, d.rs1) else GetF(f, d.rs1);
      var v := Compute(fp, d.op, a, GetF(f, d.rs2), GetF(f, d.rs3), rm);
      Outcome(DONE,
              if WritesInt(d.op) then SetReg(x, d.rd, v.value) else x,
              if WritesInt(d.op) then f else SetF(f, d.rd, v.value),
              m,
              Accumulate(fcsr, v.flags))
  }

  // ------------------------------------------------------------------
  // The executor
  // ------------------------------------------------------------------

  method ExecuteOn(fp: FpUnit, allowMisaligned: bool, d: Decoded, regs: RegFile, fregs: FRegFile, bus: SimpleMemory,
                   fcsr: Word)
    returns (r: Result, fcsr': Word)
    requires regs.Valid() && fregs.Valid() && regs.x != fregs.bits
    modifies regs.x, fregs.bits, bus.mem
    ensures Outcome(r, regs.Contents(), fregs.Contents(), bus.Contents(), fcsr')
         == Execute(fp, allowMisaligned, d, old(regs.Contents()), old(fregs.Contents()), old(bus.Contents()), fcsr)
  {
    hide GetReg, SetReg, GetF, SetF, Load, Store, Add, Compute, Accumulate, EffectiveRm, UsesRm;
    r, fcsr' := DONE, fcsr;
    var rm := EffectiveRm(d.rm, fcsr);
    if d.op.ILLEGAL? || (UsesRm(d.op) && rm > 4) {
      return Result(false, ILLEGAL_INSTRUCTION, d.raw), fcsr;
    }
    var base := regs.Read(d.rs1);
    if d.op.FLW? {
      var addr := Add(base, d.imm);
      var loaded := LoadFrom(bus, addr, S4, allowMisaligned);
      match loaded {
        case Loaded(v) => fregs.WriteBits(d.rd, v);
        case LoadFault(cause) => r := Result(false, cause, addr);
      }
    } else if d.op.FSW? {
      var addr := Add(base, d.imm);
      var val := fregs.ReadBits(d.rs2);
      var fault := StoreTo(bus, addr, S4, val, allowMisaligned);
      if fault.Some? {
        r := Result(false, fault.value, addr);
      }
    } else {
      var a := fregs.ReadBits(d.rs1);
      var b := fregs.ReadBits(d.rs2);
      var c := fregs.ReadBits(d.rs3);
      var v := Compute(fp, d.op, if ReadsInt(d.op) then base else a, b, c, rm);
      if WritesInt(d.op) {
        regs.Write(d.rd, v.value);
      } else {
        fregs.WriteBits(d.rd, v.value);
      }
      fcsr' := Accumulate(fcsr, v.flags);
    }
  }
}
