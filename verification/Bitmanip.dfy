/** Zba: shift-and-add. */
module Zba {
  import opened Bits
  import opened Common

  datatype InstrType = SH1ADD | SH2ADD | SH3ADD | ILLEGAL
  datatype Decoded = Decoded(op: InstrType, rd: Word, rs1: Word, rs2: Word)

  function DecodeType(i: Word): InstrType {
    if Opcode(i) != 0x33 || Funct7(i) != 0x10 then ILLEGAL
    else if Funct3(i) == 2 then SH1ADD
    else if Funct3(i) == 4 then SH2ADD
    else if Funct3(i) == 6 then SH3ADD
    else ILLEGAL
  }

  function Decode(i: Word): Decoded { Decoded(DecodeType(i), Rd(i), Rs1(i), Rs2(i)) }

  function Compute(op: InstrType, a: Word, b: Word): Word {
    Add(W(Up(a.b, if op.SH1ADD? then 1 else if op.SH2ADD? then 2 else 3)), b)
  }
}

/** Zbs: single-bit operations. */
module Zbs {
  import opened Bits
  import opened Common

  datatype InstrType = BSET | BCLR | BINV | BEXT | BSETI | BCLRI | BINVI | BEXTI | ILLEGAL
  datatype Decoded = Decoded(op: InstrType, rd: Word, rs1: Word, rs2: Word)

  function DecodeType(i: Word): InstrType {
    var op := Opcode(i);
    var f3 := Funct3(i);
    var f7 := Funct7(i);
    if op == 0x33 then
      if f3 == 1 then (if f7 == 0x14 then BSET else if f7 == 0x24 then BCLR else if f7 == 0x34 then BINV else ILLEGAL)
      else if f3 == 5 && f7 == 0x24 then BEXT else ILLEGAL
    else if op == 0x13 then
      if f3 == 1 then (if f7 == 0x14 then BSETI else if f7 == 0x24 then BCLRI else if f7 == 0x34 then BINVI else ILLEGAL)
      else if f3 == 5 && f7 == 0x24 then BEXTI else ILLEGAL
    else ILLEGAL
  }

  function Decode(i: Word): Decoded { Decoded(DecodeType(i), Rd(i), Rs1(i), Rs2(i)) }

  predicate Immediate(op: InstrType) { op.BSETI? || op.BCLRI? || op.BINVI? || op.BEXTI? }

  /** n is the bit position, from rs2 or the immediate. */
  function Compute(op: InstrType, a: Word, n: Word): Word {
    var mask := ShiftLeft(W(1), n);
    match op
    case BSET | BSETI => Or(a, mask)
    case BCLR | BCLRI => And(a, Not(mask))
    case BINV | BINVI => Xor(a, mask)
    case _ => And(ShiftRight(a, n), W(1))
  }
}

/** Zicond: conditional zero. */
module Zicond {
  import opened Bits
  import opened Common

  datatype InstrType = CZERO_EQZ | CZERO_NEZ | ILLEGAL
  datatype Decoded = Decoded(op: InstrType, rd: Word, rs1: Word, rs2: Word)

  function DecodeType(i: Word): InstrType {
    if Opcode(i) != 0x33 || Funct7(i) != 0x07 then ILLEGAL
    else if Funct3(i) == 5 then CZERO_EQZ
    else if Funct3(i) == 7 then CZERO_NEZ
    else ILLEGAL
  }

  function Decode(i: Word): Decoded { Decoded(DecodeType(i), Rd(i), Rs1(i), Rs2(i)) }

  function Compute(op: InstrType, a: Word, b: Word): Word {
    if op.CZERO_EQZ? == (b == W(0)) then W(0) else a
  }
}

/** Zifencei: FENCE.I, which has no effect in a model without caches. */
module Zifencei {
  import opened Bits

  predicate IsFenceI(i: Word) { Opcode(i) == 0x0F && Funct3(i) == 1 }
}
