/** The A extension from its literal encodings to memory, registers and the reservation. */
module AtomicMeaning {
  import opened Bits
  import opened BitNumbers
  import opened Common
  import opened Hart
  import opened Integers
  import opened Dispatch
  import opened Encoding
  import opened MemoryMeaning
  import opened BaseMeaning
  import A = Rv32a
  import F = Rv32f

  function Funct5Of(op: A.InstrType): bv5 {
    match op
    case AMOADD_W => 0x00 case AMOSWAP_W => 0x01 case LR_W => 0x02 case SC_W => 0x03 case AMOXOR_W => 0x04
    case AMOOR_W => 0x08 case AMOAND_W => 0x0C case AMOMIN_W => 0x10 case AMOMAX_W => 0x14
    case AMOMINU_W => 0x18 case AMOMAXU_W => 0x1C case ILLEGAL => 0x1F
  }
  predicate IsAmo(op: A.InstrType) { !op.LR_W? && !op.SC_W? && !op.ILLEGAL? }

  /** v is what an AMO stores when memory holds old_ and rs2 holds src. */
  ghost predicate AmoResult(op: A.InstrType, old_: Word, src: Word, v: Word) {
    hide Value, Signed, NthBit;
    match op
    case AMOSWAP_W => v == src
    case AMOADD_W => Value(v) == (Value(old_) + Value(src)) % 0x1_0000_0000
    case AMOXOR_W => forall k: nat :: k < 32 ==> NthBit(v.b, k) == (NthBit(old_.b, k) != NthBit(src.b, k))
    case AMOAND_W => forall k: nat :: k < 32 ==> NthBit(v.b, k) == (NthBit(old_.b, k) && NthBit(src.b, k))
    case AMOOR_W => forall k: nat :: k < 32 ==> NthBit(v.b, k) == (NthBit(old_.b, k) || NthBit(src.b, k))
    case AMOMIN_W => Signed(v) == Min(Signed(old_), Signed(src))
    case AMOMAX_W => Signed(v) == Max(Signed(old_), Signed(src))
    case AMOMINU_W => Value(v) == Min(Value(old_), Value(src))
    case AMOMAXU_W => Value(v) == Max(Value(old_), Value(src))
    case _ => false
  }

  lemma AmoComputes(op: A.InstrType, old_: Word, src: Word)
    requires IsAmo(op)
    ensures AmoResult(op, old_, src, A.AmoValue(op, old_, src))
  {
    hide Value, Signed, Less, SignedLess, Add, Xor, Or, And, NthBit, ModWords, Min, Max;
    MinMaxMeaning(old_, src);
    AddValue(old_, src);
    ModIs(Value(old_) + Value(src));
    forall k: nat | k < 32
      ensures NthBit(Xor(old_, src).b, k) == (NthBit(old_.b, k) != NthBit(src.b, k))
      ensures NthBit(Or(old_, src).b, k) == (NthBit(old_.b, k) || NthBit(src.b, k))
      ensures NthBit(And(old_, src).b, k) == (NthBit(old_.b, k) && NthBit(src.b, k))
    {
      BitwiseResult(old_, src, k);
    }
  }

  // ------------------------------------------------------------------
  // Decode after encode
  // ------------------------------------------------------------------

  function AtomicWord(op: A.InstrType, aqrl: bv2, rd: bv5, rs1: bv5, rs2: bv5): Word { AmoWord(Funct5Of(op), aqrl, rs2, rs1, rd) }

  lemma AmoFields(f5: bv5, aqrl: bv2, rs2: bv5, rs1: bv5, rd: bv5)
    ensures var w := AmoWord(f5, aqrl, rs2, rs1, rd);
      Opcode(w) == 0x2F && Funct3(w) == 2 && Rd(w) == Reg(rd) && Rs1(w) == Reg(rs1) && Rs2(w) == Reg(rs2) && A.Funct5(w) == f5 && Is32Bit(w)
  {
    hide R, Opcode, Funct3, Funct7, Rd, Rs1, Rs2, Reg, Is32Bit, A.Funct5, AmoFunct7;
    RegisterFields(AmoFunct7(f5, aqrl), rs2, rs1, 2, rd, 0x2F);
    RFunct5(AmoFunct7(f5, aqrl), rs2, rs1, 2, rd, 0x2F);
    AmoSplits(f5, aqrl);
    LongOpcode(AmoWord(f5, aqrl, rs2, rs1, rd));
  }
  lemma Funct5Decodes(op: A.InstrType) requires !op.ILLEGAL? ensures A.Funct5Type(Funct5Of(op)) == op {}
  lemma RegIsZero() ensures Reg(0) == W(0) {}

  lemma AtomicDecodes(op: A.InstrType, aqrl: bv2, rd: bv5, rs1: bv5, rs2: bv5)
    requires !op.ILLEGAL? && (op.LR_W? ==> rs2 == 0)
    ensures var w := AtomicWord(op, aqrl, rd, rs1, rs2);
      var d := A.Decode(w);
      A.IsAtomicInstruction(w) && Is32Bit(w) && d.op == op && d.rd == Reg(rd) && d.rs1 == Reg(rs1) && d.rs2 == Reg(rs2)
  {
    hide AmoWord, Opcode, Funct3, Rd, Rs1, Rs2, Reg, Is32Bit, A.Funct5, A.Funct5Type, Funct5Of;
    AmoFields(Funct5Of(op), aqrl, rs2, rs1, rd);
    Funct5Decodes(op);
    RegIsZero();
  }

  lemma AtomicRuns(cfg: Config, fp: F.FpUnit, h: State, op: A.InstrType, aqrl: bv2, rd: bv5, rs1: bv5, rs2: bv5, d: A.Decoded)
    requires cfg.a && !op.ILLEGAL? && (op.LR_W? ==> rs2 == 0) && d == A.Decode(AtomicWord(op, aqrl, rd, rs1, rs2))
    ensures ExecuteFetched(cfg, fp, h, AtomicWord(op, aqrl, rd, rs1, rs2)) ==
      var o := A.Execute(d, h.x, h.mem, h.resv);
      Exec(h.(x := o.x, mem := o.m, resv := o.resv), Add(h.pc, W(4)), false, if o.r.valid then None else Some(Trap(o.r.cause, o.r.tval)))
  {
    hide AtomicWord, A.Decode, A.IsAtomicInstruction, Is32Bit, ExecuteFetched, Reg, A.Execute, Add;
    AtomicDecodes(op, aqrl, rd, rs1, rs2);
    ExtensionRuns(cfg, fp, h, Atomic, AtomicWord(op, aqrl, rd, rs1, rs2));
  }

  // ------------------------------------------------------------------
  // Effects
  // ------------------------------------------------------------------

  lemma WordAligned(addr: Word) ensures Bit(addr, 3) == (Value(addr) % 4 != 0)
  {
    hide Bit, ValueOf;
    MisalignedIs(addr, S4);
  }
  lemma ReadWordIs(m: Mem, addr: Word)
    ensures Read32(m, addr).Some? == Fits(m, addr, 4)
    ensures Fits(m, addr, 4) ==> Value(Read32(m, addr).value) == Little(At(m, addr, 4))
  {
    ReadIs(m, addr, S4);
    hide ValueOf, Little, Read32;
  }
  lemma WriteWordIs(m: Mem, addr: Word, v: Word)
    ensures Write32(m, addr, v).Some? == Fits(m, addr, 4)
    ensures Fits(m, addr, 4) ==> Wrote(m, addr, 4, v, Write32(m, addr, v).value)
  {
    WriteIs(m, addr, S4, v);
    hide ValueOf, Wrote, Write32;
  }

  /**
   * An AMO at addr: rd receives the old word, memory the combination of it with src, and no other byte changes; a misaligned
   * address raises 6 whatever the policy, one outside memory raises 7.
   */
  ghost predicate Modifies(h: State, op: A.InstrType, rd: bv5, addr: Word, src: Word, e: Exec) {
    hide ValueOf, Little, Wrote, AmoResult;
    if Value(addr) % 4 != 0 then Raised(h, W(6), addr, e)
    else if !Fits(h.mem, addr, 4) then Raised(h, W(7), addr, e)
    else exists old_, v :: Value(old_) == Little(At(h.mem, addr, 4)) && AmoResult(op, old_, src, v) &&
                           Wrote(h.mem, addr, 4, v, e.h.mem) && Puts(h.(mem := e.h.mem), rd, old_, e)
  }

  lemma AmoOutcome(d: A.Decoded, x: Regs, m: Mem, resv: A.Reservation)
    requires IsAmo(d.op)
    ensures var o := A.Execute(d, x, m, resv);
      var addr := GetReg(x, d.rs1);
      if Bit(addr, 3) then o == A.Outcome(A.Result(false, W(6), addr), x, m, resv)
      else if Read32(m, addr).None? then o == A.Outcome(A.Result(false, W(7), addr), x, m, resv)
      else
        var v := Read32(m, addr).value;
        match Write32(m, addr, A.AmoValue(d.op, v, GetReg(x, d.rs2)))
        case None => o == A.Outcome(A.Result(false, W(7), addr), x, m, resv)
        case Some(m') => o == A.Outcome(A.DONE, SetReg(x, d.rd, v), m', resv)
  {
    hide GetReg, SetReg, Read32, Write32, A.AmoValue, Bit, A.WordOf;
  }

  lemma AmoStep(cfg: Config, fp: F.FpUnit, h: State, op: A.InstrType, aqrl: bv2, rd: bv5, rs1: bv5, rs2: bv5)
    requires cfg.a && IsAmo(op)
    ensures Modifies(h, op, rd, GetReg(h.x, Reg(rs1)), GetReg(h.x, Reg(rs2)), ExecuteFetched(cfg, fp, h, AtomicWord(op, aqrl, rd, rs1, rs2)))
  {
    hide AtomicWord, A.Decode, ExecuteFetched, Reg, A.Execute, Add, GetReg, SetReg, Read32, Write32, A.AmoValue, Bit;
    hide ValueOf, Fits, Little, Wrote, AmoResult, A.DONE;
    var d := A.Decode(AtomicWord(op, aqrl, rd, rs1, rs2));
    var addr := GetReg(h.x, Reg(rs1));
    var src := GetReg(h.x, Reg(rs2));
    DoneIs();
    AtomicDecodes(op, aqrl, rd, rs1, rs2);
    AtomicRuns(cfg, fp, h, op, aqrl, rd, rs1, rs2, d);
    AmoOutcome(d, h.x, h.mem, h.resv);
    WordAligned(addr);
    ReadWordIs(h.mem, addr);
    if Fits(h.mem, addr, 4) {
      var old_ := Read32(h.mem, addr).value;
      AmoComputes(op, old_, src);
      WriteWordIs(h.mem, addr, A.AmoValue(op, old_, src));
    }
  }
  lemma DoneIs() ensures A.DONE == A.Result(true, W(0), W(0)) {}

  /** The address of the word that contains addr. */
  function WordStart(addr: Word): Word { W(addr.b & 0xFFFF_FFFC) }
  lemma WordOfIs(addr: Word) ensures A.WordOf(addr) == WordStart(addr) {}

  lemma LrOutcome(d: A.Decoded, x: Regs, m: Mem, resv: A.Reservation)
    requires d.op.LR_W?
    ensures var o := A.Execute(d, x, m, resv);
      var addr := GetReg(x, d.rs1);
      if Bit(addr, 3) then o == A.Outcome(A.Result(false, W(4), addr), x, m, resv)
      else match Read32(m, addr)
        case None => o == A.Outcome(A.Result(false, W(5), addr), x, m, resv)
        case Some(v) => o == A.Outcome(A.DONE, SetReg(x, d.rd, v), m, A.Reservation(true, A.WordOf(addr)))
  {
    hide GetReg, SetReg, Read32, Write32, A.AmoValue, Bit, A.WordOf;
  }

  /** LR.W loads a word and reserves it; a misaligned address raises 4, one outside memory 5. */
  ghost predicate Reserves(h: State, rd: bv5, addr: Word, e: Exec) {
    hide ValueOf, Little;
    if Value(addr) % 4 != 0 then Raised(h, W(4), addr, e)
    else if !Fits(h.mem, addr, 4) then Raised(h, W(5), addr, e)
    else exists v :: Value(v) == Little(At(h.mem, addr, 4)) && Puts(h.(resv := A.Reservation(true, WordStart(addr))), rd, v, e)
  }
  lemma LrStep(cfg: Config, fp: F.FpUnit, h: State, aqrl: bv2, rd: bv5, rs1: bv5)
    requires cfg.a
    ensures Reserves(h, rd, GetReg(h.x, Reg(rs1)), ExecuteFetched(cfg, fp, h, AtomicWord(A.LR_W, aqrl, rd, rs1, 0)))
  {
    hide AtomicWord, A.Decode, ExecuteFetched, Reg, A.Execute, Add, GetReg, SetReg, Read32, Bit, ValueOf, Fits, Little;
    hide A.DONE, A.WordOf, WordStart;
    var d := A.Decode(AtomicWord(A.LR_W, aqrl, rd, rs1, 0));
    var addr := GetReg(h.x, Reg(rs1));
    DoneIs();
    AtomicDecodes(A.LR_W, aqrl, rd, rs1, 0);
    AtomicRuns(cfg, fp, h, A.LR_W, aqrl, rd, rs1, 0, d);
    LrOutcome(d, h.x, h.mem, h.resv);
    WordAligned(addr);
    WordOfIs(addr);
    ReadWordIs(h.mem, addr);
  }

  lemma ScOutcome(d: A.Decoded, x: Regs, m: Mem, resv: A.Reservation)
    requires d.op.SC_W?
    ensures var o := A.Execute(d, x, m, resv);
      var addr := GetReg(x, d.rs1);
      if Bit(addr, 3) then o == A.Outcome(A.Result(false, W(6), addr), x, m, resv)
      else if !(resv.valid && A.WordOf(addr) == resv.addr) then o == A.Outcome(A.DONE, SetReg(x, d.rd, W(1)), m, resv.(valid := false))
      else match Write32(m, addr, GetReg(x, d.rs2))
        case None => o == A.Outcome(A.Result(false, W(7), addr), x, m, resv)
        case Some(m') => o == A.Outcome(A.DONE, SetReg(x, d.rd, W(0)), m', resv.(valid := false))
  {
    hide GetReg, SetReg, Read32, Write32, A.AmoValue, Bit, A.WordOf;
  }

  /** SC.W writes rs2 and yields 0 when its word is reserved, and otherwise yields 1; either way the reservation goes. */
  ghost predicate Conditional(h: State, rd: bv5, addr: Word, v: Word, e: Exec) {
    hide ValueOf, Wrote;
    if Value(addr) % 4 != 0 then Raised(h, W(6), addr, e)
    else if !(h.resv.valid && h.resv.addr == WordStart(addr)) then Puts(h.(resv := h.resv.(valid := false)), rd, W(1), e)
    else if !Fits(h.mem, addr, 4) then Raised(h, W(7), addr, e)
    else Wrote(h.mem, addr, 4, v, e.h.mem) && Puts(h.(resv := h.resv.(valid := false), mem := e.h.mem), rd, W(0), e)
  }
  lemma ScStep(cfg: Config, fp: F.FpUnit, h: State, aqrl: bv2, rd: bv5, rs1: bv5, rs2: bv5)
    requires cfg.a
    ensures Conditional(h, rd, GetReg(h.x, Reg(rs1)), GetReg(h.x, Reg(rs2)), ExecuteFetched(cfg, fp, h, AtomicWord(A.SC_W, aqrl, rd, rs1, rs2)))
  {
    hide AtomicWord, A.Decode, ExecuteFetched, Reg, A.Execute, Add, GetReg, SetReg, Write32, Bit, ValueOf, Fits, Wrote;
    hide A.DONE, A.WordOf, WordStart;
    var d := A.Decode(AtomicWord(A.SC_W, aqrl, rd, rs1, rs2));
    var addr := GetReg(h.x, Reg(rs1));
    DoneIs();
    AtomicDecodes(A.SC_W, aqrl, rd, rs1, rs2);
    AtomicRuns(cfg, fp, h, A.SC_W, aqrl, rd, rs1, rs2, d);
    ScOutcome(d, h.x, h.mem, h.resv);
    WordAligned(addr);
    WordOfIs(addr);
    WriteWordIs(h.mem, addr, GetReg(h.x, Reg(rs2)));
  }
}
