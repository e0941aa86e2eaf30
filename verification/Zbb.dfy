/** Zbb: logic with negate, bit counts, min/max, extension, rotation and byte operations. */
module Zbb {
  import opened Bits
  import opened Common

  datatype InstrType =
    | ANDN | ORN | XNOR
    | CLZ | CTZ | CPOP
    | MAX | MAXU | MIN | MINU
    | SEXT_B | SEXT_H | ZEXT_H
    | ROL | ROR | RORI
    | ORC_B | REV8
    | ILLEGAL

  datatype Decoded = Decoded(op: InstrType, rd: Word, rs1: Word, rs2: Word)

  // ------------------------------------------------------------------
  // Decoder
  // ------------------------------------------------------------------

  function RType(f3: bv3, f7: bv7, rs2: Word): InstrType {
    if f7 == 0x20 then
      if f3 == 7 then ANDN else if f3 == 6 then ORN else if f3 == 4 then XNOR else ILLEGAL
    else if f7 == 0x05 then
      if f3 == 4 then MIN else if f3 == 5 then MINU else if f3 == 6 then MAX else if f3 == 7 then MAXU else ILLEGAL
    else if f7 == 0x30 then
      if f3 == 1 then ROL else if f3 == 5 then ROR else ILLEGAL
    else if f7 == 0x04 && f3 == 4 && rs2 == W(0) then ZEXT_H
    else ILLEGAL
  }

  function IType(f3: bv3, f7: bv7, f12: bv12, rs2: Word): InstrType {
    if f3 == 1 && f7 == 0x30 then
      if rs2 == W(0) then CLZ else if rs2 == W(1) then CTZ else if rs2 == W(2) then CPOP
      else if rs2 == W(4) then SEXT_B else if rs2 == W(5) then SEXT_H else ILLEGAL
    else if f3 == 5 && f7 == 0x30 then RORI
    else if f3 == 5 && f12 == 0x287 then ORC_B
    else if f3 == 5 && f12 == 0x698 then REV8
    else ILLEGAL
  }

  function DecodeType(i: Word): InstrType {
    if Opcode(i) == 0x33 then RType(Funct3(i), Funct7(i), Rs2(i))
    else if Opcode(i) == 0x13 then IType(Funct3(i), Funct7(i), Funct12(i), Rs2(i))
    else ILLEGAL
  }

  function Decode(i: Word): Decoded { Decoded(DecodeType(i), Rd(i), Rs1(i), Rs2(i)) }

  // ------------------------------------------------------------------
  // Leading and trailing zeros: naive count and the halving scan
  // ------------------------------------------------------------------

  /** Zeros above the highest set bit, looking at the top n bits one by one. */
  function LeadingZeros(b: bv32, n: nat): nat
    decreases n
  {
    if n == 0 || b & 0x8000_0000 != 0 then 0 else 1 + LeadingZeros(b << 1, n - 1)
  }

  /** Zeros below the lowest set bit, looking at the low n bits one by one. */
  function TrailingZeros(b: bv32, n: nat): nat
    decreases n
  {
    if n == 0 || b & 1 != 0 then 0 else 1 + TrailingZeros(b >> 1, n - 1)
  }

  predicate Clear(b: bv32, mask: bv32) { b & mask == 0 }
  function Up(b: bv32, k: bv6): bv32 requires k <= 32 { b << k }
  function Down(b: bv32, k: bv6): bv32 requires k <= 32 { b >> k }

  lemma Lead2(b: bv32, n: nat)
    requires Clear(b, 0xC000_0000) && n >= 2
    ensures LeadingZeros(b, n) == 2 + LeadingZeros(Up(b, 2), n - 2)
  {
    assert (b << 1) << 1 == b << 2;
  }

  lemma Lead4(b: bv32, n: nat)
    requires Clear(b, 0xF000_0000) && n >= 4
    ensures LeadingZeros(b, n) == 4 + LeadingZeros(Up(b, 4), n - 4)
  {
    hide LeadingZeros;
    Lead2(b, n);
    Lead2(Up(b, 2), n - 2);
    assert (b << 2) << 2 == b << 4;
  }

  lemma Lead8(b: bv32, n: nat)
    requires Clear(b, 0xFF00_0000) && n >= 8
    ensures LeadingZeros(b, n) == 8 + LeadingZeros(Up(b, 8), n - 8)
  {
    hide LeadingZeros;
    Lead4(b, n);
    Lead4(Up(b, 4), n - 4);
    assert (b << 4) << 4 == b << 8;
  }

  lemma Lead16(b: bv32, n: nat)
    requires Clear(b, 0xFFFF_0000) && n >= 16
    ensures LeadingZeros(b, n) == 16 + LeadingZeros(Up(b, 16), n - 16)
  {
    hide LeadingZeros;
    Lead8(b, n);
    Lead8(Up(b, 8), n - 8);
    assert (b << 8) << 8 == b << 16;
  }

  lemma LeadKept16(b: bv32) requires Clear(b, 0xFFFF_0000) && b != 0 ensures !Clear(Up(b, 16), 0xFFFF_0000) {}
  lemma LeadKept8(b: bv32) requires Clear(b, 0xFF00_0000) && !Clear(b, 0xFFFF_0000) ensures !Clear(Up(b, 8), 0xFF00_0000) {}
  lemma LeadKept4(b: bv32) requires Clear(b, 0xF000_0000) && !Clear(b, 0xFF00_0000) ensures !Clear(Up(b, 4), 0xF000_0000) {}
  lemma LeadKept2(b: bv32) requires Clear(b, 0xC000_0000) && !Clear(b, 0xF000_0000) ensures !Clear(Up(b, 2), 0xC000_0000) {}

  lemma LeadLast(b: bv32, n: nat)
    requires !Clear(b, 0xC000_0000) && n >= 2
    ensures LeadingZeros(b, n) == if Clear(b, 0x8000_0000) then 1 else 0
  {
    if b & 0x8000_0000 == 0 {
      assert (b << 1) & 0x8000_0000 != 0;
    }
  }

  method Clz32(w: Word) returns (n: nat)
    ensures n == LeadingZeros(w.b, 32)
  {
    hide LeadingZeros, Clear, Up;
    var x := w.b;
    if x == 0 {
      NoBits(32);
      return 32;
    }
    n := 0;
    if Clear(x, 0xFFFF_0000) { Lead16(x, 32 - n); LeadKept16(x); n, x := n + 16, Up(x, 16); }
    if Clear(x, 0xFF00_0000) { Lead8(x, 32 - n); LeadKept8(x); n, x := n + 8, Up(x, 8); }
    if Clear(x, 0xF000_0000) { Lead4(x, 32 - n); LeadKept4(x); n, x := n + 4, Up(x, 4); }
    if Clear(x, 0xC000_0000) { Lead2(x, 32 - n); LeadKept2(x); n, x := n + 2, Up(x, 2); }
    LeadLast(x, 32 - n);
    if Clear(x, 0x8000_0000) { n := n + 1; }
  }

  lemma Trail2(b: bv32, n: nat)
    requires Clear(b, 0x0000_0003) && n >= 2
    ensures TrailingZeros(b, n) == 2 + TrailingZeros(Down(b, 2), n - 2)
  {
    assert (b >> 1) >> 1 == b >> 2;
  }

  lemma Trail4(b: bv32, n: nat)
    requires Clear(b, 0x0000_000F) && n >= 4
    ensures TrailingZeros(b, n) == 4 + TrailingZeros(Down(b, 4), n - 4)
  {
    hide TrailingZeros;
    Trail2(b, n);
    Trail2(Down(b, 2), n - 2);
    assert (b >> 2) >> 2 == b >> 4;
  }

  lemma Trail8(b: bv32, n: nat)
    requires Clear(b, 0x0000_00FF) && n >= 8
    ensures TrailingZeros(b, n) == 8 + TrailingZeros(Down(b, 8), n - 8)
  {
    hide TrailingZeros;
    Trail4(b, n);
    Trail4(Down(b, 4), n - 4);
    assert (b >> 4) >> 4 == b >> 8;
  }

  lemma Trail16(b: bv32, n: nat)
    requires Clear(b, 0x0000_FFFF) && n >= 16
    ensures TrailingZeros(b, n) == 16 + TrailingZeros(Down(b, 16), n - 16)
  {
    hide TrailingZeros;
    Trail8(b, n);
    Trail8(Down(b, 8), n - 8);
    assert (b >> 8) >> 8 == b >> 16;
  }

  lemma TrailKept16(b: bv32) requires Clear(b, 0x0000_FFFF) && b != 0 ensures !Clear(Down(b, 16), 0x0000_FFFF) {}
  lemma TrailKept8(b: bv32) requires Clear(b, 0x0000_00FF) && !Clear(b, 0x0000_FFFF) ensures !Clear(Down(b, 8), 0x0000_00FF) {}
  lemma TrailKept4(b: bv32) requires Clear(b, 0x0000_000F) && !Clear(b, 0x0000_00FF) ensures !Clear(Down(b, 4), 0x0000_000F) {}
  lemma TrailKept2(b: bv32) requires Clear(b, 0x0000_0003) && !Clear(b, 0x0000_000F) ensures !Clear(Down(b, 2), 0x0000_0003) {}

  lemma TrailLast(b: bv32, n: nat)
    requires !Clear(b, 0x0000_0003) && n >= 2
    ensures TrailingZeros(b, n) == if Clear(b, 0x0000_0001) then 1 else 0
  {
    if b & 0x0000_0001 == 0 {
      assert (b >> 1) & 0x0000_0001 != 0;
    }
  }

  method Ctz32(w: Word) returns (n: nat)
    ensures n == TrailingZeros(w.b, 32)
  {
    hide TrailingZeros, Clear, Down;
    var x := w.b;
    if x == 0 {
      NoBits(32);
      return 32;
    }
    n := 0;
    if Clear(x, 0x0000_FFFF) { Trail16(x, 32 - n); TrailKept16(x); n, x := n + 16, Down(x, 16); }
    if Clear(x, 0x0000_00FF) { Trail8(x, 32 - n); TrailKept8(x); n, x := n + 8, Down(x, 8); }
    if Clear(x, 0x0000_000F) { Trail4(x, 32 - n); TrailKept4(x); n, x := n + 4, Down(x, 4); }
    if Clear(x, 0x0000_0003) { Trail2(x, 32 - n); TrailKept2(x); n, x := n + 2, Down(x, 2); }
    TrailLast(x, 32 - n);
    if Clear(x, 0x0000_0001) { n := n + 1; }
  }

  lemma {:induction false} NoBits(n: nat)
    ensures LeadingZeros(0, n) == n && TrailingZeros(0, n) == n
  {
    if n > 0 {
      NoBits(n - 1);
    }
  }

  // ------------------------------------------------------------------
  // Population count: naive count and the SWAR sum of fields
  // ------------------------------------------------------------------

  /** Set bits among the low n bits, looked at one by one. */
  function Ones(b: bv32, n: nat): nat {
    if n == 0 then 0 else ValueOf(b & 1) + Ones(b >> 1, n - 1)
  }

  // Sums of the low n fields of 2, 4 and 8 bits.
  function Sum2(b: bv32, n: nat): nat { if n == 0 then 0 else ValueOf(b & 0x3) + Sum2(b >> 2, n - 1) }
  function Sum4(b: bv32, n: nat): nat { if n == 0 then 0 else ValueOf(b & 0xF) + Sum4(b >> 4, n - 1) }
  function Sum8(b: bv32, n: nat): nat { if n == 0 then 0 else ValueOf(b & 0xFF) + Sum8(b >> 8, n - 1) }

  // The SWAR steps.
  function Pairs(b: bv32): bv32 { b - ((b >> 1) & 0x5555_5555) }
  function Nibbles(b: bv32): bv32 { (b & 0x3333_3333) + ((b >> 2) & 0x3333_3333) }
  function Bytes(b: bv32): bv32 { (b + (b >> 4)) & 0x0F0F_0F0F }
  function Fold8(b: bv32): bv32 { b + (b >> 8) }
  function Fold16(b: bv32): bv32 { (b + (b >> 16)) & 0x3F }

  function AddedPairs(b: bv32): bv32 { (b & 0x5555_5555) + ((b >> 1) & 0x5555_5555) }
  lemma PairsAdd(b: bv32) ensures Pairs(b) == AddedPairs(b) {}
  lemma AddedPairsShift(b: bv32) ensures AddedPairs(b) >> 2 == AddedPairs(b >> 2) {}
  lemma AddedPairsLow(b: bv32) ensures AddedPairs(b) & 3 == Plus(b & 1, (b >> 1) & 1) {}
  lemma NibblesShift(b: bv32) ensures Nibbles(b) >> 4 == Nibbles(b >> 4) {}
  lemma NibblesLow(b: bv32) ensures Nibbles(b) & 0xF == Plus(b & 3, (b >> 2) & 3) {}
  lemma NibblesSmall(b: bv32) ensures Nibbles(b) & 0x8888_8888 == 0 {}
  lemma BytesShift(b: bv32) requires b & 0x8888_8888 == 0 ensures Bytes(b) >> 8 == Bytes(b >> 8) {}
  lemma BytesLow(b: bv32) requires b & 0x8888_8888 == 0 ensures Bytes(b) & 0xFF == Plus(b & 0xF, (b >> 4) & 0xF) {}
  lemma BytesSmall(b: bv32) ensures Bytes(b) & 0xF0F0_F0F0 == 0 {}
  lemma Masked(b: bv32) ensures b & 1 <= 0xFF && b & 3 <= 0xFF && b & 0xF <= 0xFF {}
  lemma SmallKept(b: bv32) requires b & 0x8888_8888 == 0 ensures (b >> 8) & 0x8888_8888 == 0 {}

  lemma OnesTwice(b: bv32, n: nat)
    ensures Ones(b, n + 2) == ValueOf(b & 1) + ValueOf((b >> 1) & 1) + Ones(b >> 2, n)
  {
    hide ValueOf;
    assert (b >> 1) >> 1 == b >> 2;
    assert Ones(b >> 1, n + 1) == ValueOf((b >> 1) & 1) + Ones((b >> 1) >> 1, n);
  }
  lemma Sum2Twice(b: bv32, n: nat)
    ensures Sum2(b, n + 2) == ValueOf(b & 3) + ValueOf((b >> 2) & 3) + Sum2(b >> 4, n)
  {
    hide ValueOf;
    assert (b >> 2) >> 2 == b >> 4;
    assert Sum2(b >> 2, n + 1) == ValueOf((b >> 2) & 3) + Sum2((b >> 2) >> 2, n);
  }
  lemma Sum4Twice(b: bv32, n: nat)
    ensures Sum4(b, n + 2) == ValueOf(b & 0xF) + ValueOf((b >> 4) & 0xF) + Sum4(b >> 8, n)
  {
    hide ValueOf;
    assert (b >> 4) >> 4 == b >> 8;
    assert Sum4(b >> 4, n + 1) == ValueOf((b >> 4) & 0xF) + Sum4((b >> 4) >> 4, n);
  }
  lemma Sum2Step(b: bv32, n: nat) ensures Sum2(b, n + 1) == ValueOf(b & 3) + Sum2(b >> 2, n) { hide ValueOf; }
  lemma Sum4Step(b: bv32, n: nat) ensures Sum4(b, n + 1) == ValueOf(b & 0xF) + Sum4(b >> 4, n) { hide ValueOf; }
  lemma Sum8Step(b: bv32, n: nat) ensures Sum8(b, n + 1) == ValueOf(b & 0xFF) + Sum8(b >> 8, n) { hide ValueOf; }
  lemma EmptySums(b: bv32, c: bv32)
    ensures Ones(b, 0) == Sum2(c, 0) == 0 && Sum2(b, 0) == Sum4(c, 0) == 0 && Sum4(b, 0) == Sum8(c, 0) == 0
  {}

  lemma {:induction false} CountPairs(b: bv32, n: nat)
    ensures Sum2(AddedPairs(b), n) == Ones(b, 2 * n)
  {
    hide *;
    EmptySums(b, AddedPairs(b));
    if n > 0 {
      OnesTwice(b, 2 * n - 2);
      Sum2Step(AddedPairs(b), n - 1);
      AddedPairsShift(b);
      AddedPairsLow(b);
      Masked(b);
      Masked(b >> 1);
      PlusValue(b & 1, (b >> 1) & 1);
      CountPairs(b >> 2, n - 1);
    }
  }

  lemma {:induction false} CountNibbles(b: bv32, n: nat)
    ensures Sum4(Nibbles(b), n) == Sum2(b, 2 * n)
  {
    hide *;
    EmptySums(b, Nibbles(b));
    if n > 0 {
      Sum2Twice(b, 2 * n - 2);
      Sum4Step(Nibbles(b), n - 1);
      NibblesShift(b);
      NibblesLow(b);
      Masked(b);
      Masked(b >> 2);
      PlusValue(b & 3, (b >> 2) & 3);
      CountNibbles(b >> 4, n - 1);
    }
  }

  lemma {:induction false} CountBytes(b: bv32, n: nat)
    requires b & 0x8888_8888 == 0
    ensures Sum8(Bytes(b), n) == Sum4(b, 2 * n)
  {
    hide *;
    EmptySums(b, Bytes(b));
    if n > 0 {
      Sum4Twice(b, 2 * n - 2);
      Sum8Step(Bytes(b), n - 1);
      BytesShift(b);
      BytesLow(b);
      Masked(b);
      Masked(b >> 4);
      SmallKept(b);
      PlusValue(b & 0xF, (b >> 4) & 0xF);
      CountBytes(b >> 8, n - 1);
    }
  }

  function Byte0(b: bv32): bv32 { b & 0xFF }
  function Shift8(b: bv32): bv32 { b >> 8 }

  // The last two SWAR steps fold four byte counts into two, then into one.
  function Shift16(b: bv32): bv32 { b >> 16 }

  lemma Fold8Low(b: bv32) requires b & 0xF0F0_F0F0 == 0 ensures Byte0(Fold8(b)) == Plus(Byte0(b), Byte0(Shift8(b))) {}
  lemma Fold8High(b: bv32)
    requires b & 0xF0F0_F0F0 == 0
    ensures Byte0(Shift16(Fold8(b))) == Plus(Byte0(Shift8(Shift8(b))), Byte0(Shift8(Shift8(Shift8(b)))))
  {}
  lemma Fold16Sum(b: bv32)
    requires Byte0(b) <= 0x1E && Byte0(Shift16(b)) <= 0x1E
    ensures Fold16(b) == Plus(Byte0(b), Byte0(Shift16(b)))
  {}
  lemma LanesSmall(b: bv32)
    requires b & 0xF0F0_F0F0 == 0
    ensures Byte0(b) <= 0xF
    ensures Byte0(Shift8(b)) <= 0xF
    ensures Byte0(Shift8(Shift8(b))) <= 0xF
    ensures Byte0(Shift8(Shift8(Shift8(b)))) <= 0xF
  {}

  /** The last SWAR step adds up four byte counts. */
  lemma CountTotal(b: bv32)
    requires b & 0xF0F0_F0F0 == 0
    ensures ValueOf(Fold16(Fold8(b))) == Sum8(b, 4)
  {
    hide *;
    var b1 := Shift8(b);
    var b2 := Shift8(b1);
    var b3 := Shift8(b2);
    SumFour(b);
    LanesSmall(b);
    Fold8Low(b);
    Fold8High(b);
    SumSmall(Byte0(b), Byte0(b1));
    SumSmall(Byte0(b2), Byte0(b3));
    Fold16Sum(Fold8(b));
    PlusValue(Byte0(b), Byte0(b1));
    PlusValue(Byte0(b2), Byte0(b3));
    PlusValue(Byte0(Fold8(b)), Byte0(Shift16(Fold8(b))));
  }

  lemma Sum8Next(b: bv32, n: nat) ensures Sum8(b, n + 1) == ValueOf(Byte0(b)) + Sum8(Shift8(b), n) { Sum8Step(b, n); }

  lemma SumFour(b: bv32)
    ensures Sum8(b, 4) == ValueOf(Byte0(b)) + ValueOf(Byte0(Shift8(b))) + ValueOf(Byte0(Shift8(Shift8(b))))
                          + ValueOf(Byte0(Shift8(Shift8(Shift8(b)))))
  {
    hide *;
    var b1 := Shift8(b);
    var b2 := Shift8(b1);
    var b3 := Shift8(b2);
    Sum8Next(b, 3);
    Sum8Next(b1, 2);
    Sum8Next(b2, 1);
    Sum8Next(b3, 0);
    EmptySums(b, Shift8(b3));
  }

  lemma SumSmall(p: bv32, q: bv32) requires p <= 0xF && q <= 0xF ensures Plus(p, q) <= 0x1E {}

  lemma SwarCounts(b: bv32)
    ensures ValueOf(Fold16(Fold8(Bytes(Nibbles(Pairs(b)))))) == Ones(b, 32)
  {
    hide *;
    PairsAdd(b);
    CountPairs(b, 16);
    CountNibbles(Pairs(b), 8);
    NibblesSmall(Pairs(b));
    CountBytes(Nibbles(Pairs(b)), 4);
    BytesSmall(Nibbles(Pairs(b)));
    CountTotal(Bytes(Nibbles(Pairs(b))));
  }

  method Popcount32(w: Word) returns (n: Word)
    ensures Value(n) == Ones(w.b, 32)
    ensures n == FromNat(Ones(w.b, 32))
  {
    hide Ones, ValueOf, Pairs, Nibbles, Bytes, Fold8, Fold16;
    SwarCounts(w.b);
    var x := w.b;
    x := Pairs(x);
    x := Nibbles(x);
    x := Bytes(x);
    x := Fold8(x);
    n := W(Fold16(x));
    ValuePattern(n.b);
  }

  // ------------------------------------------------------------------
  // Rotation and byte operations
  // ------------------------------------------------------------------

  function Rol(b: bv32, s: bv32): bv32
    requires s < 32
  {
    if s == 0 then b else RestBelow(s); Either(Bits.Up(b, s), Bits.Down(b, Rest(s)))
  }
  function Ror(b: bv32, s: bv32): bv32
    requires s < 32
  {
    if s == 0 then b else RestBelow(s); Either(Bits.Down(b, s), Bits.Up(b, Rest(s)))
  }
  function RotateLeft(a: Word, n: Word): Word { W(Rol(a.b, Amount(n))) }
  function RotateRight(a: Word, n: Word): Word { W(Ror(a.b, Amount(n))) }

  function Lane(b: bv32, mask: bv32): bv32 { if b & mask != 0 then mask else 0 }

  function OrcB(a: Word): Word {
    W(Lane(a.b, 0xFF) | Lane(a.b, 0xFF00) | Lane(a.b, 0xFF_0000) | Lane(a.b, 0xFF00_0000))
  }

  function Rev8(a: Word): Word {
    W(((a.b & 0xFF00_0000) >> 24) | ((a.b & 0x00FF_0000) >> 8) | ((a.b & 0x0000_FF00) << 8) | ((a.b & 0x0000_00FF) << 24))
  }

  lemma RorRolLow(b: bv32, s: bv32) requires s < 16 ensures Ror(Rol(b, s), s) == b {}
  lemma RorRolHigh(b: bv32, s: bv32) requires 16 <= s < 32 ensures Ror(Rol(b, s), s) == b {}
  lemma RolRorLow(b: bv32, s: bv32) requires s < 16 ensures Rol(Ror(b, s), s) == b {}
  lemma RolRorHigh(b: bv32, s: bv32) requires 16 <= s < 32 ensures Rol(Ror(b, s), s) == b {}

  /** ROL and ROR by the same amount undo each other, whichever comes first. */
  lemma RotationsInverse(a: Word, n: Word)
    ensures RotateRight(RotateLeft(a, n), n) == a
    ensures RotateLeft(RotateRight(a, n), n) == a
  {
    hide Rol, Ror, Amount;
    if Amount(n) < 16 {
      RorRolLow(a.b, Amount(n));
      RolRorLow(a.b, Amount(n));
    } else {
      RorRolHigh(a.b, Amount(n));
      RolRorHigh(a.b, Amount(n));
    }
  }

  lemma Rev8Low(a: Word) ensures Lane0(Rev8(a)) == Lane3(a) && Lane1(Rev8(a)) == Lane2(a) {}
  lemma Rev8High(a: Word) ensures Lane2(Rev8(a)) == Lane1(a) && Lane3(Rev8(a)) == Lane0(a) {}
  lemma LanesDetermine(a: Word, b: Word)
    requires Lane0(a) == Lane0(b) && Lane1(a) == Lane1(b) && Lane2(a) == Lane2(b) && Lane3(a) == Lane3(b)
    ensures a == b
  {}

  /** REV8 reverses the order of the four bytes, and so is its own inverse. */
  lemma Rev8Involution(a: Word)
    ensures Lane0(Rev8(a)) == Lane3(a) && Lane1(Rev8(a)) == Lane2(a) && Lane2(Rev8(a)) == Lane1(a) && Lane3(Rev8(a)) == Lane0(a)
    ensures Rev8(Rev8(a)) == a
  {
    hide Rev8, Lane0, Lane1, Lane2, Lane3;
    Rev8Low(a);
    Rev8High(a);
    Rev8Low(Rev8(a));
    Rev8High(Rev8(a));
    LanesDetermine(Rev8(Rev8(a)), a);
  }

  function Saturated(b: Byte): Byte { if b.v == 0 then Byte(0) else Byte(0xFF) }

  lemma OrcBLow(a: Word) ensures Lane0(OrcB(a)) == Saturated(Lane0(a)) && Lane1(OrcB(a)) == Saturated(Lane1(a)) {}
  lemma OrcBHigh(a: Word) ensures Lane2(OrcB(a)) == Saturated(Lane2(a)) && Lane3(OrcB(a)) == Saturated(Lane3(a)) {}

  /** ORC.B sets every nonzero byte to all ones, so doing it twice changes nothing more. */
  lemma OrcBIdempotent(a: Word)
    ensures Lane0(OrcB(a)) == Saturated(Lane0(a)) && Lane1(OrcB(a)) == Saturated(Lane1(a))
    ensures Lane2(OrcB(a)) == Saturated(Lane2(a)) && Lane3(OrcB(a)) == Saturated(Lane3(a))
    ensures OrcB(OrcB(a)) == OrcB(a)
  {
    hide OrcB, Lane0, Lane1, Lane2, Lane3;
    OrcBLow(a);
    OrcBHigh(a);
    OrcBLow(OrcB(a));
    OrcBHigh(OrcB(a));
    LanesDetermine(OrcB(OrcB(a)), OrcB(a));
  }

  method OrCombineBytes(x: Word) returns (r: Word)
    ensures r == OrcB(x)
  {
    hide Lane;
    var v := Lane(x.b, 0xFF);
    v := v | Lane(x.b, 0xFF00);
    v := v | Lane(x.b, 0xFF_0000);
    v := v | Lane(x.b, 0xFF00_0000);
    r := W(v);
  }

  // ------------------------------------------------------------------
  // The executor
  // ------------------------------------------------------------------

  function Compute(op: InstrType, a: Word, b: Word): Word {
    match op
    case ANDN => And(a, Not(b))
    case ORN => Or(a, Not(b))
    case XNOR => Not(Xor(a, b))
    case CLZ => FromNat(LeadingZeros(a.b, 32))
    case CTZ => FromNat(TrailingZeros(a.b, 32))
    case CPOP => FromNat(Ones(a.b, 32))
    case MIN => if SignedLess(b, a) then b else a
    case MAX => if SignedLess(a, b) then b else a
    case MINU => if Less(b, a) then b else a
    case MAXU => if Less(a, b) then b else a
    case SEXT_B => SignExtend(And(a, W(0xFF)), W(0x80))
    case SEXT_H => SignExtend(And(a, W(0xFFFF)), W(0x8000))
    case ZEXT_H => And(a, W(0xFFFF))
    case ROL => RotateLeft(a, b)
    case ROR | RORI => RotateRight(a, b)
    case ORC_B => OrcB(a)
    case REV8 => Rev8(a)
    case ILLEGAL => W(0)
  }

  /** The second operand: RORI takes its amount from the instruction. */
  function Operand(d: Decoded, x: Regs): Word { if d.op.RORI? then d.rs2 else GetReg(x, d.rs2) }

  datatype Outcome = Outcome(valid: bool, x: Regs)

  function Execute(d: Decoded, x: Regs): Outcome {
    if d.op.ILLEGAL? then Outcome(false, x)
    else Outcome(true, SetReg(x, d.rd, Compute(d.op, GetReg(x, d.rs1), Operand(d, x))))
  }

  method ExecuteOn(d: Decoded, regs: RegFile) returns (valid: bool)
    requires regs.Valid()
    modifies regs.x
    ensures Outcome(valid, regs.Contents()) == Execute(d, old(regs.Contents()))
  {
    hide GetReg, SetReg;
    hide LeadingZeros, TrailingZeros, Ones, FromNat, And, Or, Xor, Not, SignExtend, RotateLeft, RotateRight, OrcB, Rev8;
    if d.op.ILLEGAL? {
      return false;
    }
    var a := regs.Read(d.rs1);
    var b := regs.Read(d.rs2);
    if d.op.RORI? { b := d.rs2; }
    var result;
    if d.op.CLZ? {
      var n := Clz32(a);
      result := FromNat(n);
    } else if d.op.CTZ? {
      var n := Ctz32(a);
      result := FromNat(n);
    } else if d.op.CPOP? {
      result := Popcount32(a);
    } else if d.op.ORC_B? {
      result := OrCombineBytes(a);
    } else {
      result := Compute(d.op, a, b);
    }
    regs.Write(d.rd, result);
    valid := true;
  }
}
