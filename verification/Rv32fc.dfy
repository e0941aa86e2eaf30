/** Zcf: the four compressed floating-point loads and stores. */
module Rv32fc {
  import opened Bits
  import opened Common
  import C = Rv32c
  import F = Rv32f

  datatype InstrType = C_FLW | C_FSW | C_FLWSP | C_FSWSP | ILLEGAL

  datatype Decoded = Decoded(op: InstrType, rd: Word, rs1: Word, rs2: Word, uimm: Word, raw: Word)

  function DecodeType(c: Word): InstrType {
    var q := C.Quadrant(c);
    var f3 := C.CFunct3(c);
    if q == 0 then (if f3 == 3 then C_FLW else if f3 == 7 then C_FSW else ILLEGAL)
    else if q == 2 then (if f3 == 3 then C_FLWSP else if f3 == 7 then C_FSWSP else ILLEGAL)
    else ILLEGAL
  }

  predicate IsCompressedFloat(c: Word) {
    var q := C.Quadrant(c);
    var f3 := C.CFunct3(c);
    (q == 0 || q == 2) && (f3 == 3 || f3 == 7)
  }

  function Decode(c: Word): Decoded {
    match DecodeType(c)
    case C_FLW => Decoded(C_FLW, C.CRs2Short(c), C.CRdShort(c), W(0), C.ImmWord(c), c)
    case C_FSW => Decoded(C_FSW, W(0), C.CRdShort(c), C.CRs2Short(c), C.ImmWord(c), c)
    case C_FLWSP => Decoded(C_FLWSP, C.CRd(c), W(2), W(0), C.ImmLwsp(c), c)
    case C_FSWSP => Decoded(C_FSWSP, W(0), W(2), C.CRs2(c), C.ImmSwsp(c), c)
    case ILLEGAL => Decoded(ILLEGAL, W(0), W(0), W(0), W(0), c)
  }

  datatype Outcome = Outcome(r: F.Result, f: Regs, m: Mem)

  function Execute(allowMisaligned: bool, d: Decoded, x: Regs, f: Regs, m: Mem): Outcome {
    var addr := Add(GetReg(x, d.rs1), d.uimm);
    if d.op.ILLEGAL? then Outcome(F.Result(false, ILLEGAL_INSTRUCTION, d.raw), f, m)
    else if d.op.C_FLW? || d.op.C_FLWSP? then
      match Load(m, addr, S4, allowMisaligned)
      case Loaded(v) => Outcome(F.DONE, F.SetF(f, d.rd, v), m)
      case LoadFault(cause) => Outcome(F.Result(false, cause, addr), f, m)
    else
      match Store(m, addr, S4, F.GetF(f, d.rs2), allowMisaligned)
      case Stored(m') => Outcome(F.DONE, f, m')
      case StoreFault(cause) => Outcome(F.Result(false, cause, addr), f, m)
  }

  method ExecuteOn(allowMisaligned: bool, d: Decoded, regs: RegFile, fregs: F.FRegFile, bus: SimpleMemory)
    returns (r: F.Result)
    requires regs.Valid() && fregs.Valid()
    modifies fregs.bits, bus.mem
    ensures Outcome(r, fregs.Contents(), bus.Contents())
         == Execute(allowMisaligned, d, old(regs.Contents()), old(fregs.Contents()), old(bus.Contents()))
  {
    hide GetReg, F.GetF, F.SetF, Load, Store, Add;
    r := F.DONE;
    if d.op.ILLEGAL? {
      return F.Result(false, ILLEGAL_INSTRUCTION, d.raw);
    }
    var base := regs.Read(d.rs1);
    var addr := Add(base, d.uimm);
    if d.op.C_FLW? || d.op.C_FLWSP? {
      var loaded := LoadFrom(bus, addr, S4, allowMisaligned);
      match loaded {
        case Loaded(v) => fregs.WriteBits(d.rd, v);
        case LoadFault(cause) => r := F.Result(false, cause, addr);
      }
    } else {
      var val := fregs.ReadBits(d.rs2);
      var fault := StoreTo(bus, addr, S4, val, allowMisaligned);
      if fault.Some? {
        r := F.Result(false, fault.value, addr);
      }
    }
  }
}
