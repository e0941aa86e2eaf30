/** Zba, Zbb, Zbs and Zicond from their literal encodings to the numbers and bits they leave in rd. */
module BitmanipMeaning {
  import opened Bits
  import opened BitNumbers
  import opened Common
  import opened Fields
  import opened Hart
  import opened Integers
  import opened Dispatch
  import opened Encoding
  import opened BaseMeaning
  import F = Rv32f
  import I = Rv32i
  import Zba
  import Zbb
  import Zbs
  import Zicond

  lemma Long(f7: bv7, rs2: bv5, rs1: bv5, f3: bv3, rd: bv5, op: bv7)
    requires op == 0x33 || op == 0x13
    ensures Is32Bit(R(f7, rs2, rs1, f3, rd, op))
  {
    hide R, Opcode, Is32Bit;
    ROpcode(f7, rs2, rs1, f3, rd, op);
    LongOpcode(R(f7, rs2, rs1, f3, rd, op));
  }

  // ------------------------------------------------------------------
  // Zba
  // ------------------------------------------------------------------

  function ShaddFunct3(op: Zba.InstrType): bv3 { if op.SH1ADD? then 2 else if op.SH2ADD? then 4 else 6 }
  function ShaddWord(op: Zba.InstrType, rd: bv5, rs1: bv5, rs2: bv5): Word { R(0x10, rs2, rs1, ShaddFunct3(op), rd, 0x33) }
  function Scale(op: Zba.InstrType): nat { if op.SH1ADD? then 2 else if op.SH2ADD? then 4 else 8 }

  lemma ShaddDecodes(op: Zba.InstrType, rd: bv5, rs1: bv5, rs2: bv5)
    requires !op.ILLEGAL?
    ensures var w := ShaddWord(op, rd, rs1, rs2);
      var d := Zba.Decode(w);
      Is32Bit(w) && d.op == op && d.rd == Reg(rd) && d.rs1 == Reg(rs1) && d.rs2 == Reg(rs2)
  {
    hide R, Opcode, Funct3, Funct7, Rd, Rs1, Rs2, Reg, Is32Bit;
    RegisterFields(0x10, rs2, rs1, ShaddFunct3(op), rd, 0x33);
    Long(0x10, rs2, rs1, ShaddFunct3(op), rd, 0x33);
  }
  lemma SmallPowers() ensures Pow2(ValueOf(1)) == 2 && Pow2(ValueOf(2)) == 4 && Pow2(ValueOf(3)) == 8
  {
    assert Half(3) == 1 && Half(2) == 1 && Half(1) == 0 && LowBit(3) == 1 && LowBit(2) == 0 && LowBit(1) == 1;
    assert Pow2(1) == 2 && Pow2(2) == 4 && Pow2(3) == 8;
    hide *;
    ZeroValue();
    ValueStep(1); ValueStep(2); ValueStep(3);
  }
  function Shift(op: Zba.InstrType): bv32 { if op.SH1ADD? then 1 else if op.SH2ADD? then 2 else 3 }
  lemma ShaddIs(op: Zba.InstrType, a: Word, b: Word) ensures Shift(op) < 32 && Zba.Compute(op, a, b) == Add(W(Up(a.b, Shift(op))), b)
  {
    hide Add, Up;
  }
  lemma ScaleIs(op: Zba.InstrType) requires !op.ILLEGAL? ensures Pow2(ValueOf(Shift(op))) == Scale(op) { SmallPowers(); hide ValueOf, Pow2; }
  lemma ValuesAre(b: bv32) ensures Value(W(b)) == ValueOf(b) { hide ValueOf; }
  lemma ShaddComputes(op: Zba.InstrType, a: Word, b: Word)
    requires !op.ILLEGAL?
    ensures Value(Zba.Compute(op, a, b)) == (Value(a) * Scale(op) + Value(b)) % 0x1_0000_0000
  {
    hide *;
    ModIs(0);
    ValuesAre(a.b);
    assert W(a.b) == a;
    ShaddIs(op, a, b);
    ScaleIs(op);
    var s := Up(a.b, Shift(op));
    UpValue(a.b, Shift(op));
    AddValue(W(s), b);
    ValuesAre(s);
    ModIs(Value(W(s)) + Value(b));
    ModAdds(Value(a) * Scale(op), Value(b));
  }
  lemma ModAdds(x: int, y: int) ensures (x % 0x1_0000_0000 + y) % 0x1_0000_0000 == (x + y) % 0x1_0000_0000 {}

  /** SH1ADD, SH2ADD and SH3ADD add rs2 to 2, 4 or 8 times rs1. */
  lemma ShaddStep(cfg: Config, fp: F.FpUnit, h: State, op: Zba.InstrType, rd: bv5, rs1: bv5, rs2: bv5)
    requires cfg.zba && !op.ILLEGAL?
    ensures exists v :: Value(v) == (Value(GetReg(h.x, Reg(rs1))) * Scale(op) + Value(GetReg(h.x, Reg(rs2)))) % 0x1_0000_0000 &&
                        Puts(h, rd, v, ExecuteFetched(cfg, fp, h, ShaddWord(op, rd, rs1, rs2)))
  {
    hide ShaddWord, Zba.Decode, Zba.DecodeType, Is32Bit, ExecuteFetched, Reg, GetReg, SetReg, Add, Zba.Compute, ValueOf, Scale;
    var w := ShaddWord(op, rd, rs1, rs2);
    ShaddDecodes(op, rd, rs1, rs2);
    ZbaType(w);
    ExtensionRuns(cfg, fp, h, AddressGen, w);
    ShaddComputes(op, GetReg(h.x, Reg(rs1)), GetReg(h.x, Reg(rs2)));
    assert Puts(h, rd, Zba.Compute(op, GetReg(h.x, Reg(rs1)), GetReg(h.x, Reg(rs2))), ExecuteFetched(cfg, fp, h, w));
  }
  lemma ZbaType(w: Word) ensures Zba.Decode(w).op == Zba.DecodeType(w) { hide Zba.DecodeType; }

  // ------------------------------------------------------------------
  // Zbs
  // ------------------------------------------------------------------

  function SingleFunct7(op: Zbs.InstrType): bv7 {
    match op case BSET | BSETI => 0x14 case BCLR | BCLRI | BEXT | BEXTI => 0x24 case _ => 0x34
  }
  function SingleFunct3(op: Zbs.InstrType): bv3 { if op.BEXT? || op.BEXTI? then 5 else 1 }
  /** The immediate forms hold the bit number in the rs2 field. */
  function SingleWord(op: Zbs.InstrType, rd: bv5, rs1: bv5, rs2: bv5): Word {
    R(SingleFunct7(op), rs2, rs1, SingleFunct3(op), rd, if op.BSETI? || op.BCLRI? || op.BINVI? || op.BEXTI? then 0x13 else 0x33)
  }

  /** v is a with bit n set, cleared or inverted, or the bit itself. */
  ghost predicate SingleResult(op: Zbs.InstrType, a: Word, n: nat, v: Word) {
    hide NthBit;
    match op
    case BSET | BSETI => forall k: nat :: k < 32 ==> NthBit(v.b, k) == (k == n || NthBit(a.b, k))
    case BCLR | BCLRI => forall k: nat :: k < 32 ==> NthBit(v.b, k) == (k != n && NthBit(a.b, k))
    case BINV | BINVI => forall k: nat :: k < 32 ==> NthBit(v.b, k) == ((k == n) != NthBit(a.b, k))
    case BEXT | BEXTI => v == W(if NthBit(a.b, n) then 1 else 0)
    case ILLEGAL => false
  }

  lemma SingleDecodes(op: Zbs.InstrType, rd: bv5, rs1: bv5, rs2: bv5)
    requires !op.ILLEGAL?
    ensures var w := SingleWord(op, rd, rs1, rs2);
      var d := Zbs.Decode(w);
      Is32Bit(w) && d.op == op && d.rd == Reg(rd) && d.rs1 == Reg(rs1) && d.rs2 == Reg(rs2)
  {
    hide R, Opcode, Funct3, Funct7, Rd, Rs1, Rs2, Reg, Is32Bit;
    var opcode: bv7 := if op.BSETI? || op.BCLRI? || op.BINVI? || op.BEXTI? then 0x13 else 0x33;
    RegisterFields(SingleFunct7(op), rs2, rs1, SingleFunct3(op), rd, opcode);
    Long(SingleFunct7(op), rs2, rs1, SingleFunct3(op), rd, opcode);
  }

  lemma AmountValue(n: Word)
    ensures ValueOf(Amount(n)) == Value(n) % 32 && Amount(n) < 32
  {
    assert Index(n) == ValueOf(Amount(n));
    hide *;
    AmountRange(n);
    IndexIsMod(n);
  }
  lemma AmountRange(n: Word) ensures Amount(n) < 32 { hide Amount; }
  lemma ShiftedOne(n: Word)
    ensures ShiftLeft(W(1), n).b == Mask(Value(n) % 32)
  {
    AmountRange(n);
    assert ShiftLeft(W(1), n).b == Up(1, Amount(n)) by { hide Up, Amount; }
    hide *;
    AmountRange(n);
    AmountValue(n);
    UpOne(Amount(n));
  }
  lemma LowestBit(b: bv32) ensures And(W(b), W(1)) == W(if LowBit(b) == 1 then 1 else 0) {}

  lemma BitOperations(a: Word, m: Word, n: nat, k: nat)
    requires n < 32 && k < 32 && m.b == Mask(n)
    ensures NthBit(Or(a, m).b, k) == (k == n || NthBit(a.b, k))
    ensures NthBit(And(a, Not(m)).b, k) == (k != n && NthBit(a.b, k))
    ensures NthBit(Xor(a, m).b, k) == ((k == n) != NthBit(a.b, k))
  {
    hide *;
    BitwiseResult(a, m, k);
    BitwiseResult(a, Not(m), k);
    NotIs(m);
    CompBit(m.b, k);
    MaskBits(n, k);
  }
  lemma ExtractIs(a: Word, n: Word)
    ensures And(ShiftRight(a, n), W(1)) == W(if NthBit(a.b, Value(n) % 32) then 1 else 0)
  {
    AmountRange(n);
    assert ShiftRight(a, n) == W(Down(a.b, Amount(n))) by { hide Down, Amount; }
    hide *;
    AmountRange(n);
    AmountValue(n);
    LowestBit(Down(a.b, Amount(n)));
    NthLow(Down(a.b, Amount(n)));
    DownBit(a.b, Amount(n), 0);
  }
  lemma SingleComputes(op: Zbs.InstrType, a: Word, n: Word)
    requires !op.ILLEGAL?
    ensures SingleResult(op, a, Value(n) % 32, Zbs.Compute(op, a, n))
  {
    hide ShiftLeft, ShiftRight, Or, And, Xor, Not, NthBit, Mask, ValueOf;
    var m := ShiftLeft(W(1), n);
    ShiftedOne(n);
    ExtractIs(a, n);
    forall k: nat | k < 32
      ensures NthBit(Or(a, m).b, k) == (k == Value(n) % 32 || NthBit(a.b, k))
      ensures NthBit(And(a, Not(m)).b, k) == (k != Value(n) % 32 && NthBit(a.b, k))
      ensures NthBit(Xor(a, m).b, k) == ((k == Value(n) % 32) != NthBit(a.b, k))
    {
      BitOperations(a, m, Value(n) % 32, k);
    }
  }

  lemma ZbsType(w: Word) ensures Zbs.Decode(w).op == Zbs.DecodeType(w) { hide Zbs.DecodeType; }

  /** The bit number is rs2, or the immediate, modulo 32. */
  lemma SingleStep(cfg: Config, fp: F.FpUnit, h: State, op: Zbs.InstrType, rd: bv5, rs1: bv5, rs2: bv5)
    requires cfg.zbs && !op.ILLEGAL?
    ensures var n := if op.BSETI? || op.BCLRI? || op.BINVI? || op.BEXTI? then Reg(rs2) else GetReg(h.x, Reg(rs2));
      exists v :: SingleResult(op, GetReg(h.x, Reg(rs1)), Value(n) % 32, v) && Puts(h, rd, v, ExecuteFetched(cfg, fp, h, SingleWord(op, rd, rs1, rs2)))
  {
    hide SingleWord, Zbs.Decode, Zbs.DecodeType, Is32Bit, ExecuteFetched, Reg, GetReg, SetReg, Add, Zbs.Compute;
    hide ValueOf, SingleResult;
    var w := SingleWord(op, rd, rs1, rs2);
    var n := if op.BSETI? || op.BCLRI? || op.BINVI? || op.BEXTI? then Reg(rs2) else GetReg(h.x, Reg(rs2));
    SingleDecodes(op, rd, rs1, rs2);
    ZbsType(w);
    ExtensionRuns(cfg, fp, h, SingleBit, w);
    SingleComputes(op, GetReg(h.x, Reg(rs1)), n);
    assert Puts(h, rd, Zbs.Compute(op, GetReg(h.x, Reg(rs1)), n), ExecuteFetched(cfg, fp, h, w));
  }

  // ------------------------------------------------------------------
  // Zicond
  // ------------------------------------------------------------------

  lemma ZeroWord(w: Word) ensures (w == W(0)) == (Value(w) == 0)
  {
    ZeroValue();
    hide ValueOf;
    if Value(w) == 0 { ValueDetermines(w.b, 0); }
  }
  lemma ConditionalDecodes(rd: bv5, rs1: bv5, rs2: bv5)
    ensures var d := Zicond.Decode(R(0x07, rs2, rs1, 5, rd, 0x33));
      d.op.CZERO_EQZ? && d.rd == Reg(rd) && d.rs1 == Reg(rs1) && d.rs2 == Reg(rs2) && Is32Bit(R(0x07, rs2, rs1, 5, rd, 0x33))
    ensures var d := Zicond.Decode(R(0x07, rs2, rs1, 7, rd, 0x33));
      d.op.CZERO_NEZ? && d.rd == Reg(rd) && d.rs1 == Reg(rs1) && d.rs2 == Reg(rs2) && Is32Bit(R(0x07, rs2, rs1, 7, rd, 0x33))
  {
    hide R, Opcode, Funct3, Funct7, Rd, Rs1, Rs2, Reg, Is32Bit;
    RegisterFields(0x07, rs2, rs1, 5, rd, 0x33);
    RegisterFields(0x07, rs2, rs1, 7, rd, 0x33);
    Long(0x07, rs2, rs1, 5, rd, 0x33);
    Long(0x07, rs2, rs1, 7, rd, 0x33);
  }
  lemma ZicondType(w: Word) ensures Zicond.Decode(w).op == Zicond.DecodeType(w) { hide Zicond.DecodeType; }
  lemma ZicondRuns(cfg: Config, fp: F.FpUnit, h: State, w: Word, d: Zicond.Decoded, rd: bv5)
    requires cfg.zicond && Is32Bit(w) && d == Zicond.Decode(w) && !d.op.ILLEGAL? && d.rd == Reg(rd)
    ensures Puts(h, rd, Zicond.Compute(d.op, GetReg(h.x, d.rs1), GetReg(h.x, d.rs2)), ExecuteFetched(cfg, fp, h, w))
  {
    hide Zicond.Decode, Zicond.DecodeType, Is32Bit, ExecuteFetched, Reg, GetReg, SetReg, Add, Zicond.Compute;
    ZicondType(w);
    ExtensionRuns(cfg, fp, h, Conditional, w);
  }
  /** CZERO.EQZ yields zero when rs2 is zero and rs1 otherwise; CZERO.NEZ the other way round. */
  lemma ConditionalStep(cfg: Config, fp: F.FpUnit, h: State, rd: bv5, rs1: bv5, rs2: bv5)
    requires cfg.zicond
    ensures var a, zero := GetReg(h.x, Reg(rs1)), Value(GetReg(h.x, Reg(rs2))) == 0;
      Puts(h, rd, if zero then W(0) else a, ExecuteFetched(cfg, fp, h, R(0x07, rs2, rs1, 5, rd, 0x33))) &&
      Puts(h, rd, if zero then a else W(0), ExecuteFetched(cfg, fp, h, R(0x07, rs2, rs1, 7, rd, 0x33)))
  {
    hide R, Zicond.Decode, Is32Bit, ExecuteFetched, Reg, GetReg, ValueOf, Puts;
    ConditionalDecodes(rd, rs1, rs2);
    ZeroWord(GetReg(h.x, Reg(rs2)));
    ZicondRuns(cfg, fp, h, R(0x07, rs2, rs1, 5, rd, 0x33), Zicond.Decode(R(0x07, rs2, rs1, 5, rd, 0x33)), rd);
    ZicondRuns(cfg, fp, h, R(0x07, rs2, rs1, 7, rd, 0x33), Zicond.Decode(R(0x07, rs2, rs1, 7, rd, 0x33)), rd);
  }

  // ------------------------------------------------------------------
  // Zbb: counting bits by number
  // ------------------------------------------------------------------

  lemma {:induction false} LeadingByNumber(b: bv32, n: nat)
    requires n <= 32
    ensures var z := Zbb.LeadingZeros(b, n);
      z <= n && (forall k: nat :: 32 - z <= k < 32 ==> !NthBit(b, k)) && (z < n ==> NthBit(b, 31 - z))
    decreases n
  {
    LeadStep(b, n);
    hide *;
    var z := Zbb.LeadingZeros(b, n);
    if n > 0 {
      TopBit(b);
      if !HasTop(b) {
        LeadingByNumber(Double(b), n - 1);
        forall k: nat | 32 - z <= k < 32 ensures !NthBit(b, k) {
          if k < 31 {
            DoubleBit(b, k + 1);
            assert !NthBit(Double(b), k + 1);
          }
        }
        if z < n { DoubleBit(b, 32 - z); }
      }
    }
  }
  lemma LeadStep(b: bv32, n: nat)
    ensures Zbb.LeadingZeros(b, n) == if n == 0 || HasTop(b) then 0 else 1 + Zbb.LeadingZeros(Double(b), n - 1)
  {}
  lemma {:induction false} TrailingByNumber(b: bv32, n: nat)
    ensures var z := Zbb.TrailingZeros(b, n);
      z <= n && (forall k: nat :: k < z ==> !NthBit(b, k)) && (z < n ==> NthBit(b, z))
    decreases n
  {
    TrailStep(b, n);
    hide *;
    var z := Zbb.TrailingZeros(b, n);
    if n > 0 {
      NthLow(b);
      if LowBit(b) != 1 {
        TrailingByNumber(Half(b), n - 1);
        forall k: nat | k < z ensures !NthBit(b, k) {
          if k > 0 { NthStep(b, k); }
        }
        if z < n { NthStep(b, z); }
      }
    }
  }
  lemma TrailStep(b: bv32, n: nat)
    ensures Zbb.TrailingZeros(b, n) == if n == 0 || LowBit(b) == 1 then 0 else 1 + Zbb.TrailingZeros(Half(b), n - 1)
  {}

  /** How many of the bits from k to k + n - 1 are set. */
  function SetBits(b: bv32, k: nat, n: nat): nat
    decreases n
  {
    hide NthBit;
    if n == 0 then 0 else (if NthBit(b, k) then 1 else 0) + SetBits(b, k + 1, n - 1)
  }
  function Halves(b: bv32, k: nat): bv32 { if k == 0 then b else Half(Halves(b, k - 1)) }
  lemma HalvesStep(b: bv32, k: nat) ensures Halves(b, 0) == b && Halves(b, k + 1) == Half(Halves(b, k)) { hide Half; }
  lemma {:induction false} HalvesBit(b: bv32, k: nat, j: nat)
    ensures NthBit(Halves(b, k), j) == NthBit(b, k + j)
    decreases k
  {
    hide *;
    if k == 0 {
      HalvesStep(b, 0);
    } else {
      HalvesStep(b, k - 1);
      NthStep(Halves(b, k - 1), j + 1);
      HalvesBit(b, k - 1, j + 1);
    }
  }
  lemma {:induction false} OnesByNumber(b: bv32, k: nat, n: nat)
    ensures Zbb.Ones(Halves(b, k), n) == SetBits(b, k, n)
    decreases n
  {
    hide *;
    OnesStep(Halves(b, k), n);
    SetBitsStep(b, k, n);
    if n > 0 {
      HalvesBit(b, k, 0);
      NthLow(Halves(b, k));
      LowIsBit(Halves(b, k));
      HalvesStep(b, k);
      OnesByNumber(b, k + 1, n - 1);
    }
  }
  lemma SetBitsStep(b: bv32, k: nat, n: nat)
    ensures SetBits(b, k, n) == if n == 0 then 0 else (if NthBit(b, k) then 1 else 0) + SetBits(b, k + 1, n - 1)
  {
    hide NthBit;
  }
  lemma LowBitValue(b: bv32) ensures ValueOf(b & 1) == LowBit(b)
  {
    assert ValueOf(1) == 1 && ValueOf(0) == 0;
    assert b & 1 == 0 || b & 1 == 1;
    hide ValueOf;
  }
  lemma OnesStep(b: bv32, n: nat)
    ensures Zbb.Ones(b, n) == if n == 0 then 0 else LowBit(b) + Zbb.Ones(Half(b), n - 1)
  {
    LowBitValue(b);
    hide ValueOf, LowBit;
  }

  // ------------------------------------------------------------------
  // Zbb: results
  // ------------------------------------------------------------------

  /** The bit n places above bit k, going round. */
  function Turned(k: nat, n: nat): nat { (k + n) % 32 }

  /** v is what the operation yields for a and b; for ROL and the like b is the amount. */
  ghost predicate ZbbResult(op: Zbb.InstrType, a: Word, b: Word, v: Word) {
    hide NthBit, ValueOf, Signed, SetBits, Turned, Lane0, Lane1, Lane2, Lane3;
    match op
    case ANDN => forall k: nat :: k < 32 ==> NthBit(v.b, k) == (NthBit(a.b, k) && !NthBit(b.b, k))
    case ORN => forall k: nat :: k < 32 ==> NthBit(v.b, k) == (NthBit(a.b, k) || !NthBit(b.b, k))
    case XNOR => forall k: nat :: k < 32 ==> NthBit(v.b, k) == (NthBit(a.b, k) == NthBit(b.b, k))
    case CLZ =>
      Value(v) <= 32 && (forall k: nat :: 32 - Value(v) <= k < 32 ==> !NthBit(a.b, k)) && (Value(v) < 32 ==> NthBit(a.b, 31 - Value(v)))
    case CTZ =>
      Value(v) <= 32 && (forall k: nat :: k < Value(v) ==> !NthBit(a.b, k)) && (Value(v) < 32 ==> NthBit(a.b, Value(v)))
    case CPOP => Value(v) == SetBits(a.b, 0, 32)
    case MIN => Signed(v) == Min(Signed(a), Signed(b))
    case MAX => Signed(v) == Max(Signed(a), Signed(b))
    case MINU => Value(v) == Min(Value(a), Value(b))
    case MAXU => Value(v) == Max(Value(a), Value(b))
    case SEXT_B => Signed(v) == Value(a) % 0x100 - if Value(a) % 0x100 >= 0x80 then 0x100 else 0
    case SEXT_H => Signed(v) == Value(a) % 0x1_0000 - if Value(a) % 0x1_0000 >= 0x8000 then 0x1_0000 else 0
    case ZEXT_H => Value(v) == Value(a) % 0x1_0000
    case ROL => forall k: nat :: k < 32 ==> NthBit(v.b, Turned(k, Value(b))) == NthBit(a.b, k)
    case ROR | RORI => forall k: nat :: k < 32 ==> NthBit(v.b, k) == NthBit(a.b, Turned(k, Value(b)))
    case ORC_B =>
      Lane0(v) == Byte(if Lane0(a).v == 0 then 0 else 0xFF) && Lane1(v) == Byte(if Lane1(a).v == 0 then 0 else 0xFF) &&
      Lane2(v) == Byte(if Lane2(a).v == 0 then 0 else 0xFF) && Lane3(v) == Byte(if Lane3(a).v == 0 then 0 else 0xFF)
    case REV8 => Lane0(v) == Lane3(a) && Lane1(v) == Lane2(a) && Lane2(v) == Lane1(a) && Lane3(v) == Lane0(a)
    case ILLEGAL => false
  }

  lemma NegatedBits(a: Word, b: Word, k: nat)
    requires k < 32
    ensures NthBit(And(a, Not(b)).b, k) == (NthBit(a.b, k) && !NthBit(b.b, k))
    ensures NthBit(Or(a, Not(b)).b, k) == (NthBit(a.b, k) || !NthBit(b.b, k))
    ensures NthBit(Not(Xor(a, b)).b, k) == (NthBit(a.b, k) == NthBit(b.b, k))
  {
    hide *;
    NotIs(b);
    NotIs(Xor(a, b));
    BitwiseResult(a, Not(b), k);
    BitwiseResult(a, b, k);
    CompBit(b.b, k);
    CompBit(Xor(a, b).b, k);
  }
  lemma LogicComputes(op: Zbb.InstrType, a: Word, b: Word)
    requires op.ANDN? || op.ORN? || op.XNOR?
    ensures ZbbResult(op, a, b, Zbb.Compute(op, a, b))
  {
    hide And, Or, Xor, Not, NthBit;
    forall k: nat | k < 32
      ensures NthBit(And(a, Not(b)).b, k) == (NthBit(a.b, k) && !NthBit(b.b, k))
      ensures NthBit(Or(a, Not(b)).b, k) == (NthBit(a.b, k) || !NthBit(b.b, k))
      ensures NthBit(Not(Xor(a, b)).b, k) == (NthBit(a.b, k) == NthBit(b.b, k))
    {
      NegatedBits(a, b, k);
    }
  }
  lemma CountsComputes(op: Zbb.InstrType, a: Word, b: Word)
    requires op.CLZ? || op.CTZ? || op.CPOP?
    ensures ZbbResult(op, a, b, Zbb.Compute(op, a, b))
  {
    hide NthBit, ValueOf, FromNat, Zbb.LeadingZeros, Zbb.TrailingZeros, Zbb.Ones, SetBits, Halves;
    LeadingByNumber(a.b, 32);
    TrailingByNumber(a.b, 32);
    HalvesStep(a.b, 0);
    OnesByNumber(a.b, 0, 32);
    SetBitsBound(a.b, 0, 32);
    FromNatValue(Zbb.LeadingZeros(a.b, 32));
    FromNatValue(Zbb.TrailingZeros(a.b, 32));
    FromNatValue(Zbb.Ones(a.b, 32));
  }
  lemma {:induction false} SetBitsBound(b: bv32, k: nat, n: nat)
    ensures SetBits(b, k, n) <= n
    decreases n
  {
    hide NthBit;
    if n > 0 { SetBitsBound(b, k + 1, n - 1); }
  }

  lemma ByteAnd(a: Word) ensures And(a, W(0xFF)) == W(Byte8Of(a.b)) {}
  lemma HalfAnd(a: Word) ensures And(a, W(0xFFFF)) == W(Half16Of(a.b)) {}
  lemma ExtendsComputes(op: Zbb.InstrType, a: Word, b: Word)
    requires op.SEXT_B? || op.SEXT_H? || op.ZEXT_H?
    ensures ZbbResult(op, a, b, Zbb.Compute(op, a, b))
  {
    var v, w := W(Byte8Of(a.b)), W(Half16Of(a.b));
    hide And, SignExtend, ValueOf, Signed, Byte8Of, Half16Of, Bit;
    ByteAnd(a);
    HalfAnd(a);
    ByteField(a.b);
    HalfField(a.b);
    ExtensionsAre(a);
    FieldTop(v);
    FieldTop(w);
    FieldSign(a);
  }
  lemma FieldSign(a: Word)
    ensures Bit(a, 0x80) == Bit(W(Byte8Of(a.b)), 0x80) && Bit(a, 0x8000) == Bit(W(Half16Of(a.b)), 0x8000)
  {}
  lemma ExtensionsAre(a: Word)
    ensures Signed(SignExtend(And(a, W(0xFF)), W(0x80))) == ValueOf(Byte8Of(a.b)) - (if Bit(a, 0x80) then 0x100 else 0)
    ensures Signed(SignExtend(And(a, W(0xFFFF)), W(0x8000))) == ValueOf(Half16Of(a.b)) - (if Bit(a, 0x8000) then 0x1_0000 else 0)
  {
    LoadsExtend(a);
    hide And, SignExtend, ValueOf, Signed, Byte8Of, Half16Of, Bit;
    ByteAnd(a);
    HalfAnd(a);
    LoadMeaning(a);
  }
  lemma LoadsExtend(a: Word)
    ensures I.ExtendLoaded(I.LB, a) == SignExtend(W(Byte8Of(a.b)), W(0x80)) && I.ExtendLoaded(I.LH, a) == SignExtend(W(Half16Of(a.b)), W(0x8000))
    ensures Byte8(a) == Byte8Of(a.b) && Half16(a) == Half16Of(a.b)
  {
    hide SignExtend, Byte8Of, Half16Of;
  }

  lemma RotateWords(a: Word, b: Word)
    ensures Amount(b) < 32
    ensures Zbb.RotateLeft(a, b).b == Zbb.Rol(a.b, Amount(b)) && Zbb.RotateRight(a, b).b == Zbb.Ror(a.b, Amount(b))
  {
    AmountRange(b);
    hide Zbb.Rol, Zbb.Ror, Amount;
  }
  lemma TurnedIs(k: nat, n: nat) ensures Turned(k, n) == (k + n % 32) % 32 {}
  lemma RotatesCompute(op: Zbb.InstrType, a: Word, b: Word)
    requires op.ROL? || op.ROR? || op.RORI?
    ensures ZbbResult(op, a, b, Zbb.Compute(op, a, b))
  {
    hide NthBit, ValueOf, Zbb.RotateLeft, Zbb.RotateRight, Zbb.Rol, Zbb.Ror, Amount, Turned;
    RotateWords(a, b);
    AmountValue(b);
    forall k: nat | k < 32
      ensures NthBit(Zbb.Rol(a.b, Amount(b)), Turned(k, Value(b))) == NthBit(a.b, k)
      ensures NthBit(Zbb.Ror(a.b, Amount(b)), k) == NthBit(a.b, Turned(k, Value(b)))
    {
      RotationMoves(a.b, Amount(b), k);
      TurnedIs(k, Value(b));
    }
  }
  lemma BytesCompute(op: Zbb.InstrType, a: Word, b: Word)
    requires op.ORC_B? || op.REV8?
    ensures ZbbResult(op, a, b, Zbb.Compute(op, a, b))
  {
    hide Zbb.OrcB, Zbb.Rev8, Lane0, Lane1, Lane2, Lane3;
    Zbb.OrcBIdempotent(a);
    Zbb.Rev8Involution(a);
  }
  lemma ZbbComputes(op: Zbb.InstrType, a: Word, b: Word)
    requires !op.ILLEGAL?
    ensures ZbbResult(op, a, b, Zbb.Compute(op, a, b))
  {
    match op
    case ANDN | ORN | XNOR =>
      hide ZbbResult, Zbb.Compute;
      LogicComputes(op, a, b);
    case CLZ | CTZ | CPOP =>
      hide ZbbResult, Zbb.Compute;
      CountsComputes(op, a, b);
    case SEXT_B | SEXT_H | ZEXT_H =>
      hide ZbbResult, Zbb.Compute;
      ExtendsComputes(op, a, b);
    case ROL | ROR | RORI =>
      hide ZbbResult, Zbb.Compute;
      RotatesCompute(op, a, b);
    case ORC_B | REV8 =>
      hide ZbbResult, Zbb.Compute;
      BytesCompute(op, a, b);
    case MIN | MAX | MINU | MAXU =>
      hide ValueOf, Signed, Less, SignedLess, Min, Max;
      MinMaxMeaning(a, b);
  }

  // ------------------------------------------------------------------
  // Zbb: from the word
  // ------------------------------------------------------------------

  function ZbbFunct7(op: Zbb.InstrType): bv7 {
    match op
    case ANDN | ORN | XNOR => 0x20
    case MIN | MINU | MAX | MAXU => 0x05
    case ZEXT_H => 0x04
    case ORC_B => 0x14
    case REV8 => 0x34
    case _ => 0x30
  }
  function ZbbFunct3(op: Zbb.InstrType): bv3 {
    match op
    case ANDN | MAXU => 7 case ORN | MAX => 6 case XNOR | MIN | ZEXT_H => 4 case MINU | ROR | RORI | ORC_B | REV8 => 5 case _ => 1
  }
  predicate IsUnaryImm(op: Zbb.InstrType) {
    op.CLZ? || op.CTZ? || op.CPOP? || op.SEXT_B? || op.SEXT_H? || op.ORC_B? || op.REV8?
  }
  /** The rs2 field: fixed for the unary operations, an amount for RORI and a register for the others. */
  function ZbbRs2(op: Zbb.InstrType, rs2: bv5): bv5 {
    match op
    case CLZ | ZEXT_H => 0 case CTZ => 1 case CPOP => 2 case SEXT_B => 4 case SEXT_H => 5 case ORC_B => 0x07 case REV8 => 0x18
    case _ => rs2
  }
  function ZbbOpcode(op: Zbb.InstrType): bv7 { if IsUnaryImm(op) || op.RORI? then 0x13 else 0x33 }
  function ZbbWord(op: Zbb.InstrType, rd: bv5, rs1: bv5, rs2: bv5): Word {
    R(ZbbFunct7(op), ZbbRs2(op, rs2), rs1, ZbbFunct3(op), rd, ZbbOpcode(op))
  }

  lemma RFunct12(f7: bv7, rs2: bv5, rs1: bv5, f3: bv3, rd: bv5, op: bv7)
    ensures Funct12(R(f7, rs2, rs1, f3, rd, op)) == ((f7 as bv12) << 5) | (rs2 as bv12)
  {}
  lemma ZbbFields(op: Zbb.InstrType, rd: bv5, rs1: bv5, rs2: bv5)
    ensures var w := ZbbWord(op, rd, rs1, rs2);
      Opcode(w) == ZbbOpcode(op) && Funct3(w) == ZbbFunct3(op) && Funct7(w) == ZbbFunct7(op) && Rs2(w) == Reg(ZbbRs2(op, rs2)) &&
      Rd(w) == Reg(rd) && Rs1(w) == Reg(rs1) && Is32Bit(w) && Funct12(w) == ((ZbbFunct7(op) as bv12) << 5) | (ZbbRs2(op, rs2) as bv12)
  {
    OpcodeIsOp(op);
    hide R, Opcode, Funct3, Funct7, Funct12, Rd, Rs1, Rs2, Reg, Is32Bit, ZbbFunct7, ZbbFunct3, ZbbRs2, ZbbOpcode;
    RegisterFields(ZbbFunct7(op), ZbbRs2(op, rs2), rs1, ZbbFunct3(op), rd, ZbbOpcode(op));
    RFunct12(ZbbFunct7(op), ZbbRs2(op, rs2), rs1, ZbbFunct3(op), rd, ZbbOpcode(op));
    Long(ZbbFunct7(op), ZbbRs2(op, rs2), rs1, ZbbFunct3(op), rd, ZbbOpcode(op));
  }
  lemma OpcodeIsOp(op: Zbb.InstrType) ensures ZbbOpcode(op) == 0x33 || ZbbOpcode(op) == 0x13 {}
  lemma RegIsWord()
    ensures Reg(0) == W(0) && Reg(1) == W(1) && Reg(2) == W(2) && Reg(4) == W(4) && Reg(5) == W(5)
  {}

  lemma ZbbDecodesR(op: Zbb.InstrType, rd: bv5, rs1: bv5, rs2: bv5)
    requires !op.ILLEGAL? && !IsUnaryImm(op) && !op.RORI?
    ensures Zbb.DecodeType(ZbbWord(op, rd, rs1, rs2)) == op
  {
    hide ZbbWord, Opcode, Funct3, Funct7, Funct12, Rd, Rs1, Rs2, Reg, Is32Bit;
    ZbbFields(op, rd, rs1, rs2);
    RegIsWord();
  }
  lemma ZbbDecodesI(op: Zbb.InstrType, rd: bv5, rs1: bv5, rs2: bv5)
    requires !op.ILLEGAL? && (IsUnaryImm(op) || op.RORI?)
    ensures Zbb.DecodeType(ZbbWord(op, rd, rs1, rs2)) == op
  {
    hide ZbbWord, Opcode, Funct3, Funct7, Funct12, Rd, Rs1, Rs2, Reg, Is32Bit;
    ZbbFields(op, rd, rs1, rs2);
    RegIsWord();
  }
  lemma ZbbDecodes(op: Zbb.InstrType, rd: bv5, rs1: bv5, rs2: bv5)
    requires !op.ILLEGAL?
    ensures var w := ZbbWord(op, rd, rs1, rs2);
      var d := Zbb.Decode(w);
      Is32Bit(w) && d.op == op && d.rd == Reg(rd) && d.rs1 == Reg(rs1) && d.rs2 == Reg(ZbbRs2(op, rs2))
  {
    hide ZbbWord, Zbb.DecodeType, Opcode, Funct3, Funct7, Funct12, Rd, Rs1, Rs2, Reg, Is32Bit, ZbbRs2, IsUnaryImm;
    ZbbFields(op, rd, rs1, rs2);
    if IsUnaryImm(op) || op.RORI? { ZbbDecodesI(op, rd, rs1, rs2); } else { ZbbDecodesR(op, rd, rs1, rs2); }
  }

  lemma ZbbType(w: Word) ensures Zbb.Decode(w).op == Zbb.DecodeType(w) { hide Zbb.DecodeType; }

  /** Each Zbb instruction retires with its result in rd and no other effect. */
  lemma ZbbStep(cfg: Config, fp: F.FpUnit, h: State, op: Zbb.InstrType, rd: bv5, rs1: bv5, rs2: bv5)
    requires cfg.zbb && !op.ILLEGAL?
    ensures var b := if op.RORI? then Reg(rs2) else GetReg(h.x, Reg(ZbbRs2(op, rs2)));
      exists v :: ZbbResult(op, GetReg(h.x, Reg(rs1)), b, v) && Puts(h, rd, v, ExecuteFetched(cfg, fp, h, ZbbWord(op, rd, rs1, rs2)))
  {
    hide ZbbWord, Zbb.Decode, Zbb.DecodeType, Is32Bit, ExecuteFetched, Reg, GetReg, SetReg, Add, Zbb.Compute, ZbbResult;
    var w := ZbbWord(op, rd, rs1, rs2);
    var b := if op.RORI? then Reg(rs2) else GetReg(h.x, Reg(ZbbRs2(op, rs2)));
    ZbbDecodes(op, rd, rs1, rs2);
    ZbbType(w);
    ExtensionRuns(cfg, fp, h, BitManip, w);
    ZbbComputes(op, GetReg(h.x, Reg(rs1)), b);
    assert Puts(h, rd, Zbb.Compute(op, GetReg(h.x, Reg(rs1)), b), ExecuteFetched(cfg, fp, h, w));
  }
}
