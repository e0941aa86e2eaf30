/** The M extension from its literal encodings to the numbers it leaves in rd. */
module MulDivMeaning {
  import opened Bits
  import opened BitNumbers
  import opened Common
  import opened Hart
  import opened Integers
  import opened Dispatch
  import opened Encoding
  import opened BaseMeaning
  import F = Rv32f
  import M = Rv32m

  function MulDivFunct3(op: M.InstrType): bv3 {
    match op
    case MUL => 0 case MULH => 1 case MULHSU => 2 case MULHU => 3 case DIV => 4 case DIVU => 5 case REM => 6 case _ => 7
  }
  function MulDivWord(op: M.InstrType, rd: bv5, rs1: bv5, rs2: bv5): Word { R(0x01, rs2, rs1, MulDivFunct3(op), rd, 0x33) }

  /** Division rounding toward zero. */
  function Toward0(x: int, y: int): int
    requires y != 0
  {
    if (x >= 0) == (y > 0) then Abs(x) / Abs(y) else -(Abs(x) / Abs(y))
  }
  function Abs(x: int): (r: nat) ensures r == 0 <==> x == 0 { if x < 0 then -x else x }

  /** v is what the operation yields for a and b, division by zero and overflow included. */
  predicate MulDivResult(op: M.InstrType, a: Word, b: Word, v: Word) {
    hide Value, Signed;
    match op
    case MUL => Value(v) == Value(a) * Value(b) % 0x1_0000_0000
    case MULH => Signed(v) == Signed(a) * Signed(b) / 0x1_0000_0000
    case MULHSU => Signed(v) == Signed(a) * Value(b) / 0x1_0000_0000
    case MULHU => Value(v) == Value(a) * Value(b) / 0x1_0000_0000
    case DIV =>
      if Signed(b) == 0 then Value(v) == 0xFFFF_FFFF
      else if Signed(a) == -0x8000_0000 && Signed(b) == -1 then Signed(v) == -0x8000_0000
      else Signed(v) == Toward0(Signed(a), Signed(b))
    case DIVU => Value(v) == if Value(b) == 0 then 0xFFFF_FFFF else Value(a) / Value(b)
    case REM =>
      if Signed(b) == 0 then v == a
      else if Signed(a) == -0x8000_0000 && Signed(b) == -1 then Value(v) == 0
      else Signed(v) == if Signed(a) >= 0 then Signed(a) % Abs(Signed(b)) else -(-Signed(a) % Abs(Signed(b)))
    case REMU => if Value(b) == 0 then v == a else Value(v) == Value(a) % Value(b)
    case ILLEGAL => false
  }

  // ------------------------------------------------------------------
  // Signed numbers
  // ------------------------------------------------------------------

  lemma TopMeansLarge(b: bv32)
    ensures HasTop(b) == (ValueOf(b) >= 0x8000_0000)
  {
    assert WORDS == 0x1_0000_0000;
    if HasTop(b) {
      HasTopRaw(b);
      TopBitValue(b);
    } else {
      CompTop(b);
      HasTopRaw(Comp(b));
      hide *;
      NotValue(b);
      TopLarge(Comp(b));
    }
  }
  lemma HasTopRaw(b: bv32) requires HasTop(b) ensures b & 0x8000_0000 != 0 {}
  lemma TopLarge(b: bv32) requires HasTop(b) ensures ValueOf(b) >= 0x8000_0000
  {
    HasTopRaw(b);
    TopBitValue(b);
  }
  lemma SignedIsInt32(w: Word)
    ensures M.OfWord(w) == Value(w) && M.AsInt32(M.OfWord(w)) == Signed(w) && (Signed(w) == 0 <==> Value(w) == 0)
    ensures -0x8000_0000 <= Signed(w) < 0x8000_0000
    ensures Signed(w) == -0x8000_0000 <==> Value(w) == 0x8000_0000
  {
    assert WORDS == 0x1_0000_0000;
    hide ValueOf, HasTop;
    TopMeansLarge(w.b);
    ValueBound(w);
  }
  lemma SameValue(a: Word, b: Word)
    requires Value(a) == Value(b)
    ensures a == b
  {
    hide ValueOf;
    ValueDetermines(a.b, b.b);
  }

  lemma HighIs(p: int, r: M.U32)
    requires -0x4000_0000_0000_0000 <= p < 0x1_0000_0000_0000_0000 && r == M.High(p)
    ensures p < 0x8000_0000_0000_0000 ==> M.AsInt32(r) == p / 0x1_0000_0000
    ensures p >= 0 ==> r == p / 0x1_0000_0000
  {
    M.Halves(p);
  }

  lemma MulComputes(op: M.InstrType, a: M.U32, b: M.U32)
    ensures M.Compute(M.MUL, a, b) == a * b % 0x1_0000_0000
    ensures M.AsInt32(M.Compute(M.MULH, a, b)) == M.AsInt32(a) * M.AsInt32(b) / 0x1_0000_0000
    ensures M.AsInt32(M.Compute(M.MULHSU, a, b)) == M.AsInt32(a) * b / 0x1_0000_0000
    ensures M.Compute(M.MULHU, a, b) == a * b / 0x1_0000_0000
  {
    M.ProductBounds(a, b);
    M.Halves(M.AsInt32(a) * M.AsInt32(b));
    M.Halves(M.AsInt32(a) * b);
    M.Halves(a * b);
    M.Wrap64(M.AsInt32(a), b);
    hide M.AsInt32, M.High, M.AsInt64;
  }

  lemma TruncIs(x: int, y: int)
    requires y != 0
    ensures M.TruncDiv(x, y) == Toward0(x, y)
    ensures M.TruncMod(x, y) == if x >= 0 then x % Abs(y) else -(-x % Abs(y))
  {
    assert M.Magnitude(x) == Abs(x) && M.Magnitude(y) == Abs(y);
    hide M.Magnitude, Abs;
  }
  lemma QuotientRange(x: int, y: int)
    requires y != 0 && -0x8000_0000 <= x < 0x8000_0000 && -0x8000_0000 <= y < 0x8000_0000 && !(x == -0x8000_0000 && y == -1)
    ensures -0x8000_0000 <= M.TruncDiv(x, y) < 0x8000_0000
    ensures -0x8000_0000 <= M.TruncMod(x, y) < 0x8000_0000
  {
    M.TruncLaws(x, y);
    if M.TruncDiv(x, y) == 0x8000_0000 {
      TopQuotient(x, y, M.TruncMod(x, y));
    }
    hide M.TruncDiv, M.TruncMod;
  }
  lemma TopQuotient(x: int, y: int, r: int)
    requires 0x8000_0000 * y + r == x && -0x8000_0000 <= x < 0x8000_0000 && -M.Magnitude(y) < r < M.Magnitude(y)
    requires r == 0 || (r < 0) == (x < 0)
    ensures y == 0 || (x == -0x8000_0000 && y == -1)
  {}

  lemma DivComputes(a: M.U32, b: M.U32)
    requires b != 0
    ensures M.Compute(M.DIVU, a, b) == a / b && M.Compute(M.REMU, a, b) == a % b
    ensures if M.AsInt32(a) == -0x8000_0000 && M.AsInt32(b) == -1 then
        M.Compute(M.DIV, a, b) == 0x8000_0000 && M.Compute(M.REM, a, b) == 0
      else
        M.AsInt32(b) != 0 && M.AsInt32(M.Compute(M.DIV, a, b)) == Toward0(M.AsInt32(a), M.AsInt32(b)) &&
        M.AsInt32(M.Compute(M.REM, a, b)) == (if M.AsInt32(a) >= 0 then M.AsInt32(a) % Abs(M.AsInt32(b)) else -(-M.AsInt32(a) % Abs(M.AsInt32(b))))
  {
    var x, y := M.AsInt32(a), M.AsInt32(b);
    assert x == -0x8000_0000 <==> a == 0x8000_0000;
    assert y != 0 && -0x8000_0000 <= x < 0x8000_0000 && -0x8000_0000 <= y < 0x8000_0000;
    TruncIs(x, y);
    if !(x == -0x8000_0000 && y == -1) {
      QuotientRange(x, y);
      M.CastSmall(M.TruncDiv(x, y));
      M.CastSmall(M.TruncMod(x, y));
    }
    hide M.AsInt32, M.AsUint32, M.TruncDiv, M.TruncMod, Toward0, Abs;
  }

  lemma MulDivComputes(op: M.InstrType, a: Word, b: Word)
    requires !op.ILLEGAL?
    ensures MulDivResult(op, a, b, FromNat(M.Compute(op, M.OfWord(a), M.OfWord(b))))
  {
    var x, y := M.OfWord(a), M.OfWord(b);
    var r := M.Compute(op, x, y);
    var v := FromNat(r);
    MulComputes(op, x, y);
    if y != 0 { DivComputes(x, y); }
    if y == 0 {
      assert M.Compute(M.DIV, x, 0) == 0xFFFF_FFFF && M.Compute(M.DIVU, x, 0) == 0xFFFF_FFFF;
      assert M.Compute(M.REM, x, 0) == x && M.Compute(M.REMU, x, 0) == x;
    }
    SignedIsInt32(a);
    SignedIsInt32(b);
    SignedIsInt32(v);
    hide Value, Signed, M.AsInt32, M.Compute, Toward0, Abs, FromNat, M.OfWord;
    FromNatValue(r);
    if r == x { SameValue(v, a); }
  }

  // ------------------------------------------------------------------
  // From the word
  // ------------------------------------------------------------------

  lemma MulDivDecodes(op: M.InstrType, rd: bv5, rs1: bv5, rs2: bv5)
    requires !op.ILLEGAL?
    ensures var w := MulDivWord(op, rd, rs1, rs2);
      var d := M.Decode(w);
      M.IsMInstruction(w) && Is32Bit(w) && d.op == op && d.rd == Reg(rd) && d.rs1 == Reg(rs1) && d.rs2 == Reg(rs2)
  {
    hide R, Opcode, Funct3, Funct7, Rd, Rs1, Rs2, Reg, Is32Bit;
    RegisterFields(0x01, rs2, rs1, MulDivFunct3(op), rd, 0x33);
    LongOpcode(MulDivWord(op, rd, rs1, rs2));
  }

  /** Each M instruction retires with its result in rd and no other effect. */
  lemma MulDivStep(cfg: Config, fp: F.FpUnit, h: State, op: M.InstrType, rd: bv5, rs1: bv5, rs2: bv5)
    requires cfg.m && !op.ILLEGAL?
    ensures exists v :: MulDivResult(op, GetReg(h.x, Reg(rs1)), GetReg(h.x, Reg(rs2)), v) &&
                        Puts(h, rd, v, ExecuteFetched(cfg, fp, h, MulDivWord(op, rd, rs1, rs2)))
  {
    hide MulDivWord, M.Decode, M.IsMInstruction, Is32Bit, GetReg, SetReg, ExecuteFetched, Reg, MulDivResult, M.OfWord;
    hide FromNat, M.Compute, Add;
    var w := MulDivWord(op, rd, rs1, rs2);
    MulDivDecodes(op, rd, rs1, rs2);
    ExtensionRuns(cfg, fp, h, MulDiv, w);
    var a, b := GetReg(h.x, Reg(rs1)), GetReg(h.x, Reg(rs2));
    MulDivComputes(op, a, b);
    assert Puts(h, rd, FromNat(M.Compute(op, M.OfWord(a), M.OfWord(b))), ExecuteFetched(cfg, fp, h, w));
  }
}
