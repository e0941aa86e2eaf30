/** RV32A: the load reservation, LR/SC and the atomic memory operations. */
module Rv32a {
  import opened Bits
  import opened Common

  datatype InstrType =
    | LR_W | SC_W
    | AMOSWAP_W | AMOADD_W | AMOXOR_W | AMOAND_W | AMOOR_W
    | AMOMIN_W | AMOMAX_W | AMOMINU_W | AMOMAXU_W
    | ILLEGAL

  datatype Decoded = Decoded(op: InstrType, rd: Word, rs1: Word, rs2: Word, raw: Word)

  // ------------------------------------------------------------------
  // The reservation
  // ------------------------------------------------------------------

  datatype Reservation = Reservation(valid: bool, addr: Word)

  function WordOf(addr: Word): Word { And(addr, W(0xFFFF_FFFC)) }

  predicate Check(r: Reservation, addr: Word) { r.valid && WordOf(addr) == r.addr }

  function Cleared(r: Reservation): Reservation { r.(valid := false) }

  class ReservationSet {
    var valid: bool
    var reservedAddr: Word

    function State(): Reservation
      reads this
    {
      Reservation(valid, reservedAddr)
    }

    constructor ()
      ensures State() == Reservation(false, W(0))
    {
      valid, reservedAddr := false, W(0);
    }

    method Reserve(addr: Word)
      modifies this
      ensures State() == Reservation(true, WordOf(addr))
    {
      valid, reservedAddr := true, WordOf(addr);
    }

    method Clear()
      modifies this
      ensures State() == Cleared(old(State()))
    {
      valid := false;
    }
  }

  // ------------------------------------------------------------------
  // Decoder
  // ------------------------------------------------------------------

  const AMO: bv7 := 0x2F

  function Funct5(i: Word): bv5 { (i.b >> 27) as bv5 }

  function Funct5Type(f5: bv5): InstrType {
    if f5 == 0x02 then LR_W else if f5 == 0x03 then SC_W
    else if f5 == 0x01 then AMOSWAP_W else if f5 == 0x00 then AMOADD_W
    else if f5 == 0x04 then AMOXOR_W else if f5 == 0x0C then AMOAND_W else if f5 == 0x08 then AMOOR_W
    else if f5 == 0x10 then AMOMIN_W else if f5 == 0x14 then AMOMAX_W
    else if f5 == 0x18 then AMOMINU_W else if f5 == 0x1C then AMOMAXU_W
    else ILLEGAL
  }

  function DecodeType(i: Word): InstrType {
    if Opcode(i) != AMO || Funct3(i) != 2 then ILLEGAL
    else
      var op := Funct5Type(Funct5(i));
      if op == LR_W && Rs2(i) != W(0) then ILLEGAL else op
  }

  function Decode(i: Word): Decoded { Decoded(DecodeType(i), Rd(i), Rs1(i), Rs2(i), i) }

  predicate IsAtomicInstruction(i: Word) { Opcode(i) == AMO && Funct3(i) == 2 }

  // ------------------------------------------------------------------
  // What each instruction does
  // ------------------------------------------------------------------

  datatype Result = Result(valid: bool, cause: Word, tval: Word)

  const DONE := Result(true, W(0), W(0))

  datatype Outcome = Outcome(r: Result, x: Regs, m: Mem, resv: Reservation)

  function AmoValue(op: InstrType, loaded: Word, operand: Word): Word {
    match op
    case AMOADD_W => Add(loaded, operand)
    case AMOXOR_W => Xor(loaded, operand)
    case AMOAND_W => And(loaded, operand)
    case AMOOR_W => Or(loaded, operand)
    case AMOMIN_W => if SignedLess(loaded, operand) then loaded else operand
    case AMOMAX_W => if SignedLess(operand, loaded) then loaded else operand
    case AMOMINU_W => if Less(loaded, operand) then loaded else operand
    case AMOMAXU_W => if Less(operand, loaded) then loaded else operand
    case _ => operand
  }

  function Execute(d: Decoded, x: Regs, m: Mem, resv: Reservation): Outcome {
    var addr := GetReg(x, d.rs1);
    var fault := if d.op.LR_W? then LOAD_ACCESS_FAULT else STORE_ACCESS_FAULT;
    var failed := Outcome(Result(false, fault, addr), x, m, resv);
    if d.op.ILLEGAL? then Outcome(Result(false, ILLEGAL_INSTRUCTION, d.raw), x, m, resv)
    else if Bit(addr, 3) then
      Outcome(Result(false, if d.op.LR_W? then LOAD_ADDR_MISALIGNED else STORE_ADDR_MISALIGNED, addr), x, m, resv)
    else if d.op.LR_W? then
      match Read32(m, addr)
      case None => failed
      case Some(v) => Outcome(DONE, SetReg(x, d.rd, v), m, Reservation(true, WordOf(addr)))
    else if d.op.SC_W? then
      if !Check(resv, addr) then Outcome(DONE, SetReg(x, d.rd, W(1)), m, Cleared(resv))
      else match Write32(m, addr, GetReg(x, d.rs2))
        case None => failed
        case Some(m') => Outcome(DONE, SetReg(x, d.rd, W(0)), m', Cleared(resv))
    else
      match Read32(m, addr)
      case None => failed
      case Some(v) =>
        match Write32(m, addr, AmoValue(d.op, v, GetReg(x, d.rs2)))
        case None => failed
        case Some(m') => Outcome(DONE, SetReg(x, d.rd, v), m', resv)
  }

  // ------------------------------------------------------------------
  // The executor
  // ------------------------------------------------------------------

  method ExecuteOn(d: Decoded, regs: RegFile, bus: SimpleMemory, reservation: ReservationSet) returns (r: Result)
    requires regs.Valid()
    modifies regs.x, bus.mem, reservation
    ensures Outcome(r, regs.Contents(), bus.Contents(), reservation.State())
         == Execute(d, old(regs.Contents()), old(bus.Contents()), old(reservation.State()))
  {
    hide GetReg, SetReg, Read32, Write32, AmoValue, Bit, WordOf;
    if d.op.ILLEGAL? {
      return Result(false, ILLEGAL_INSTRUCTION, d.raw);
    }
    var addr := regs.Read(d.rs1);
    if Bit(addr, 3) {
      return Result(false, if d.op.LR_W? then LOAD_ADDR_MISALIGNED else STORE_ADDR_MISALIGNED, addr);
    }
    var rs2Val := regs.Read(d.rs2);
    r := DONE;
    var faulted := false;
    if d.op.LR_W? {
      var value := bus.ReadWord(addr);
      faulted := value.None?;
      if value.Some? {
        regs.Write(d.rd, value.value);
        reservation.Reserve(addr);
      }
    } else if d.op.SC_W? {
      if Check(reservation.State(), addr) {
        var ok := bus.WriteWord(addr, rs2Val);
        faulted := !ok;
        if ok { regs.Write(d.rd, W(0)); }
      } else {
        regs.Write(d.rd, W(1));
      }
      // A thrown BusFault skips the clear.
      if !faulted { reservation.Clear(); }
    } else {
      var oldVal := bus.ReadWord(addr);
      faulted := oldVal.None?;
      if oldVal.Some? {
        var ok := bus.WriteWord(addr, AmoValue(d.op, oldVal.value, rs2Val));
        faulted := !ok;
        if ok { regs.Write(d.rd, oldVal.value); }
      }
    }
    if faulted {
      r := Result(false, if d.op.LR_W? then LOAD_ACCESS_FAULT else STORE_ACCESS_FAULT, addr);
    }
  }
}
