/** RV32M: multiplication and division on 32-bit operands. */
module Rv32m {
  import opened Bits
  import opened Common

  datatype InstrType = MUL | MULH | MULHSU | MULHU | DIV | DIVU | REM | REMU | ILLEGAL

  datatype Decoded = Decoded(op: InstrType, rd: Word, rs1: Word, rs2: Word, raw: Word)

  function Funct3Type(f3: bv3): InstrType {
    if f3 == 0 then MUL else if f3 == 1 then MULH else if f3 == 2 then MULHSU else if f3 == 3 then MULHU
    else if f3 == 4 then DIV else if f3 == 5 then DIVU else if f3 == 6 then REM else REMU
  }

  predicate IsMInstruction(i: Word) { Opcode(i) == 0x33 && Funct7(i) == 1 }

  function DecodeType(i: Word): InstrType {
    if IsMInstruction(i) then Funct3Type(Funct3(i)) else ILLEGAL
  }

  function Decode(i: Word): Decoded { Decoded(DecodeType(i), Rd(i), Rs1(i), Rs2(i), i) }

  // ------------------------------------------------------------------
  // Integer semantics of the C++ casts and operators
  // ------------------------------------------------------------------

  const M32: int := 0x1_0000_0000
  const M64: int := 0x1_0000_0000_0000_0000

  /** A uint32_t value. */
  type U32 = n: int | 0 <= n < M32

  function AsInt32(u: U32): int { if u < 0x8000_0000 then u else u - M32 }
  function AsUint32(i: int): U32 { i % M32 }
  function AsInt64(u: int): int { if u % M64 < 0x8000_0000_0000_0000 then u % M64 else u % M64 - M64 }

  /** Division truncating toward zero and the remainder that goes with it. */
  function TruncDiv(a: int, b: int): int
    requires b != 0
  {
    if (a >= 0) == (b > 0) then Magnitude(a) / Magnitude(b) else -(Magnitude(a) / Magnitude(b))
  }
  function TruncMod(a: int, b: int): int
    requires b != 0
  {
    if a >= 0 then a % Magnitude(b) else -((-a) % Magnitude(b))
  }
  function Magnitude(a: int): int { if a < 0 then -a else a }

  /** The upper half of a 64-bit product. */
  function High(product: int): U32 { AsUint32(product / M32) }

  function Compute(op: InstrType, a: U32, b: U32): U32 {
    match op
    case MUL => AsUint32(a * b)
    case MULH => High(AsInt32(a) * AsInt32(b))
    // The signed operand is converted to uint64_t, and the wrapped product back to int64_t.
    case MULHSU => High(AsInt64((AsInt32(a) % M64) * b))
    case MULHU => High(a * b)
    case DIV =>
      if b == 0 then M32 - 1
      else if a == 0x8000_0000 && AsInt32(b) == -1 then 0x8000_0000
      else AsUint32(TruncDiv(AsInt32(a), AsInt32(b)))
    case DIVU => if b == 0 then M32 - 1 else a / b
    case REM =>
      if b == 0 then a
      else if a == 0x8000_0000 && AsInt32(b) == -1 then 0
      else AsUint32(TruncMod(AsInt32(a), AsInt32(b)))
    case REMU => if b == 0 then a else a % b
    case ILLEGAL => 0
  }

  // ------------------------------------------------------------------
  // The executor
  // ------------------------------------------------------------------

  function OfWord(w: Word): U32 {
    ValueBound(w);
    Value(w)
  }

  function Result(d: Decoded, x: Regs): Word {
    FromNat(Compute(d.op, OfWord(GetReg(x, d.rs1)), OfWord(GetReg(x, d.rs2))))
  }

  datatype Outcome = Outcome(valid: bool, x: Regs)

  function Execute(d: Decoded, x: Regs): Outcome {
    if d.op.ILLEGAL? then Outcome(false, x) else Outcome(true, SetReg(x, d.rd, Result(d, x)))
  }

  method ExecuteOn(d: Decoded, regs: RegFile) returns (valid: bool)
    requires regs.Valid()
    modifies regs.x
    ensures Outcome(valid, regs.Contents()) == Execute(d, old(regs.Contents()))
  {
    if d.op.ILLEGAL? {
      return false;
    }
    var rs1Val := regs.Read(d.rs1);
    var rs2Val := regs.Read(d.rs2);
    regs.Write(d.rd, FromNat(Compute(d.op, OfWord(rs1Val), OfWord(rs2Val))));
    valid := true;
  }

  // ------------------------------------------------------------------
  // Laws, for all operands
  // ------------------------------------------------------------------

  /** The number in the destination register is the one computed from the numbers in the source registers. */
  lemma ResultValue(d: Decoded, x: Regs)
    ensures OfWord(Result(d, x)) == Compute(d.op, OfWord(GetReg(x, d.rs1)), OfWord(GetReg(x, d.rs2)))
  {
    hide ValueOf, PatternOf, GetReg, Compute;
    FromNatValue(Compute(d.op, OfWord(GetReg(x, d.rs1)), OfWord(GetReg(x, d.rs2))));
  }

  lemma DivMod(a: nat, b: nat)
    requires b > 0
    ensures a == a / b * b + a % b
    ensures a % b < b
    ensures a / b <= a
  {
    QuotientBound(a / b, b, a);
  }
  lemma QuotientBound(q: nat, b: nat, a: nat)
    requires b > 0 && q * b <= a
    ensures q <= a
  {
    Grows(q, b);
  }
  lemma Grows(q: nat, b: nat) requires b > 0 ensures q <= q * b {}

  lemma ShiftMod(x: int, k: int)
    ensures (x + M32 * k) % M32 == x % M32
  {}

  lemma TruncCases(a: int, b: int)
    requires b != 0
    ensures var d, r := Magnitude(a) / Magnitude(b), Magnitude(a) % Magnitude(b);
      TruncDiv(a, b) == (if (a >= 0) == (b > 0) then d else -d) && TruncMod(a, b) == (if a >= 0 then r else -r)
  {}

  lemma Negations(d: int, q: int)
    ensures (-d) * q == -(d * q) && (-d) * (-q) == d * q && d * (-q) == -(d * q)
  {}

  /** Truncating division: the remainder completes the product, is smaller than the divisor and has the dividend's sign. */
  lemma TruncLaws(a: int, b: int)
    requires b != 0
    ensures TruncDiv(a, b) * b + TruncMod(a, b) == a
    ensures -Magnitude(b) < TruncMod(a, b) < Magnitude(b)
    ensures TruncMod(a, b) == 0 || (TruncMod(a, b) < 0) == (a < 0)
    ensures -Magnitude(a) <= TruncDiv(a, b) <= Magnitude(a)
  {
    var p, q := Magnitude(a), Magnitude(b);
    DivMod(p, q);
    TruncCases(a, b);
    TruncAlgebra(a, b, p / q, p % q, TruncDiv(a, b), TruncMod(a, b));
  }
  lemma TruncAlgebra(a: int, b: int, d: int, r: int, t: int, m: int)
    requires b != 0
    requires Magnitude(a) == d * Magnitude(b) + r && 0 <= r < Magnitude(b) && 0 <= d <= Magnitude(a)
    requires t == (if (a >= 0) == (b > 0) then d else -d) && m == (if a >= 0 then r else -r)
    ensures t * b + m == a
    ensures -Magnitude(b) < m < Magnitude(b)
    ensures m == 0 || (m < 0) == (a < 0)
    ensures -Magnitude(a) <= t <= Magnitude(a)
  {
    Negations(d, b);
  }

  /** Casting factors and summands to uint32_t does not change a result modulo 2^32. */
  lemma CastProduct(q: int, b: U32, r: int)
    ensures (AsUint32(q) * b + AsUint32(r)) % M32 == (q * AsInt32(b) + r) % M32
  {
    var k, l := q / M32, r / M32;
    var j := if b < 0x8000_0000 then 0 else 1;
    var x := AsUint32(q) * b + AsUint32(r);
    var y := q * AsInt32(b) + r;
    assert AsUint32(q) == q - M32 * k && AsUint32(r) == r - M32 * l && AsInt32(b) == b - M32 * j;
    var u := b;
    assert (q - M32 * k) * u == q * u - M32 * (k * u);
    assert q * (u - M32 * j) == q * u - M32 * (q * j);
    assert x == y + M32 * (q * j - k * u - l);
    ShiftMod(y, q * j - k * u - l);
  }

  /** Quotient and remainder recompose the dividend modulo 2^32, division by zero and overflow included. */
  lemma DivRemRecompose(a: U32, b: U32)
    ensures (Compute(DIV, a, b) * b + Compute(REM, a, b)) % M32 == a
    ensures (Compute(DIVU, a, b) * b + Compute(REMU, a, b)) % M32 == a
  {
    SignedRecompose(a, b);
    if b != 0 {
      DivMod(a, b);
    }
  }
  lemma SignedRecompose(a: U32, b: U32)
    ensures (Compute(DIV, a, b) * b + Compute(REM, a, b)) % M32 == a
  {
    if b == 0 {
    } else if a == 0x8000_0000 && AsInt32(b) == -1 {
      assert 0x8000_0000 * 0xFFFF_FFFF == 0x8000_0000 + M32 * 0x7FFF_FFFF;
    } else {
      OrdinaryRecompose(a, b);
    }
  }
  lemma OrdinaryRecompose(a: U32, b: U32)
    requires b != 0 && !(a == 0x8000_0000 && AsInt32(b) == -1)
    ensures (Compute(DIV, a, b) * b + Compute(REM, a, b)) % M32 == a
  {
    var q, r := TruncDiv(AsInt32(a), AsInt32(b)), TruncMod(AsInt32(a), AsInt32(b));
    TruncLaws(AsInt32(a), AsInt32(b));
    hide TruncDiv, TruncMod, Magnitude;
    CastProduct(q, b, r);
  }

  lemma CastSmall(i: int)
    requires -0x8000_0000 <= i < 0x8000_0000
    ensures AsInt32(AsUint32(i)) == i
  {}

  /** A nonzero divisor bounds the remainder, and REM takes the sign of the dividend. */
  lemma RemainderBounds(a: U32, b: U32)
    requires b != 0
    ensures Compute(REMU, a, b) < b
    ensures Magnitude(AsInt32(Compute(REM, a, b))) < Magnitude(AsInt32(b))
    ensures Compute(REM, a, b) == 0 || (AsInt32(Compute(REM, a, b)) < 0) == (AsInt32(a) < 0)
  {
    if !(a == 0x8000_0000 && AsInt32(b) == -1) {
      TruncLaws(AsInt32(a), AsInt32(b));
      CastSmall(TruncMod(AsInt32(a), AsInt32(b)));
    }
  }

  lemma Halves(p: int)
    requires -0x8000_0000_0000_0000 <= p < M64
    ensures p == p / M32 * M32 + AsUint32(p)
    ensures p < 0x8000_0000_0000_0000 ==> AsInt32(High(p)) == p / M32
    ensures p >= 0 ==> High(p) == p / M32
  {}

  lemma ProductBounds(a: U32, b: U32)
    ensures -0x4000_0000_0000_0000 <= AsInt32(a) * AsInt32(b) <= 0x4000_0000_0000_0000
    ensures -0x8000_0000_0000_0000 <= AsInt32(a) * b < 0x8000_0000_0000_0000
    ensures 0 <= a * b < M64
  {
    var x, y := AsInt32(a), AsInt32(b);
    assert -0x8000_0000 <= x < 0x8000_0000 && -0x8000_0000 <= y < 0x8000_0000;
    hide AsInt32;
    Between(x, -0x8000_0000, 0x8000_0000, y, 0x8000_0000);
    Between(x, -0x8000_0000, 0x8000_0000, b, M32);
    SignedTimesUnsigned(x, b);
    UnsignedProduct(a, b);
  }
  lemma Between(x: int, lo: int, hi: int, y: int, bound: int)
    requires lo <= x <= hi && -lo == hi && -bound <= y <= bound && hi >= 0
    ensures -(hi * bound) <= x * y <= hi * bound
  {
    Negations(x, y);
    MulBoth(Magnitude(x), hi, Magnitude(y), bound);
    MulSigns(x, y);
  }
  lemma MulSigns(x: int, y: int)
    ensures Magnitude(x) * Magnitude(y) == x * y || Magnitude(x) * Magnitude(y) == -(x * y)
    ensures Magnitude(x) * Magnitude(y) >= 0
  {
    Negations(x, y);
    NonNegative(Magnitude(x), Magnitude(y));
  }
  lemma MulBoth(x: int, h: int, y: int, k: int)
    requires 0 <= x <= h && 0 <= y <= k
    ensures x * y <= h * k
  {
    MulAtMost(x, y, h);
    MulAtMost(y, h, k);
  }
  lemma SignedTimesUnsigned(x: int, y: U32)
    requires -0x8000_0000 <= x < 0x8000_0000
    ensures x * y < 0x8000_0000_0000_0000
  {
    if x >= 0 {
      assert x * y <= 0x7FFF_FFFF * y;
    } else {
      assert x * y <= 0;
    }
  }
  lemma UnsignedProduct(x: U32, y: U32)
    ensures 0 <= x * y < M64
  {
    NonNegative(x, y);
    MulAtMost(x, y, 0xFFFF_FFFF);
  }
  lemma NonNegative(x: nat, y: nat) ensures 0 <= x * y {}
  lemma MulAtMost(x: int, y: int, bound: int)
    requires 0 <= x <= bound && 0 <= y
    ensures x * y <= bound * y
  {}

  lemma CastFactors(a: U32, b: U32)
    ensures AsUint32(AsInt32(a) * AsInt32(b)) == AsUint32(a * b)
    ensures AsUint32(AsInt32(a) * b) == AsUint32(a * b)
  {
    var i := if a < 0x8000_0000 then 0 else 1;
    var j := if b < 0x8000_0000 then 0 else 1;
    var u, v: int := a, b;
    assert (u - M32 * i) * v == u * v + M32 * (-(i * v));
    ShiftMod(u * v, -(i * v));
    assert (u - M32 * i) * (v - M32 * j) == u * v + M32 * (-(i * v) - j * u + M32 * i * j);
    ShiftMod(u * v, -(i * v) - j * u + M32 * i * j);
  }

  /** The upper and lower multiplications together give the exact 64-bit product. */
  lemma ExactProducts(a: U32, b: U32)
    ensures AsInt32(Compute(MULH, a, b)) * M32 + Compute(MUL, a, b) == AsInt32(a) * AsInt32(b)
    ensures AsInt32(Compute(MULHSU, a, b)) * M32 + Compute(MUL, a, b) == AsInt32(a) * b
    ensures Compute(MULHU, a, b) * M32 + Compute(MUL, a, b) == a * b
  {
    ProductBounds(a, b);
    CastFactors(a, b);
    Halves(AsInt32(a) * AsInt32(b));
    Halves(AsInt32(a) * b);
    Halves(a * b);
    Wrap64(AsInt32(a), b);
  }

  /** The detour of MULHSU through uint64_t is harmless. */
  lemma Wrap64(x: int, y: U32)
    requires -0x8000_0000_0000_0000 <= x * y < 0x8000_0000_0000_0000
    ensures AsInt64(x % M64 * y) == x * y
  {
    var k := x / M64;
    MulShift(x, M64 * k, y);
    MulAssoc(M64, k, y);
    ShiftMod64(x * y, -(k * y));
  }
  lemma MulShift(x: int, d: int, y: int) ensures (x - d) * y == x * y - d * y {}
  lemma MulAssoc(m: int, k: int, y: int) ensures m * k * y == m * (k * y) {}
  lemma ShiftMod64(x: int, k: int) ensures (x + M64 * k) % M64 == x % M64 {}
}
