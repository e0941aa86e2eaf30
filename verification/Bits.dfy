/** 32-bit machine words, their arithmetic and their unsigned value. */
module Bits {

  /** A uint32_t. The wrapper keeps a word an indivisible value unless an operation looks at its bits. */
  datatype Word = W(b: bv32)

  // Arithmetic wraps modulo 2^32, as in the C++ unsigned types.
  function Add(a: Word, c: Word): Word { W(Plus(a.b, c.b)) }
  function Plus(p: bv32, q: bv32): bv32 { p + q }
  // Subtraction adds the two's complement.
  function Sub(a: Word, c: Word): Word { Add(a, W(Next(!c.b))) }

  function And(a: Word, c: Word): Word { W(Both(a.b, c.b)) }
  function Or(a: Word, c: Word): Word { W(Either(a.b, c.b)) }
  function Xor(a: Word, c: Word): Word { W(Difference(a.b, c.b)) }
  function Both(a: bv32, b: bv32): bv32 { a & b }
  function Either(a: bv32, b: bv32): bv32 { a | b }
  function Difference(a: bv32, b: bv32): bv32 { a ^ b }
  function Not(a: Word): Word { W(Comp(a.b)) }

  /** The low five bits of a word as a shift amount. */
  function Amount(n: Word): (s: bv32) ensures s < 32 { n.b & 0x1F }
  function Down(b: bv32, s: bv32): bv32
    requires s < 32
  {
    b >> s
  }
  function Comp(b: bv32): bv32 { !b }
  predicate HasTop(b: bv32) { b & 0x8000_0000 != 0 }

  function Up(b: bv32, s: bv32): bv32
    requires s < 32
  {
    b << s
  }

  /** The rest of a rotation by s. */
  function Rest(s: bv32): bv32 { 32 - s }
  lemma RestBelow(s: bv32) requires 0 < s < 32 ensures Rest(s) < 32 {}

  function ShiftLeft(a: Word, n: Word): Word { W(Up(a.b, Amount(n))) }
  function ShiftRight(a: Word, n: Word): Word { W(Down(a.b, Amount(n))) }

  /** Right shift of a two's complement word: the vacated bits are copies of the sign. */
  function ShiftRightArith(a: Word, n: Word): Word {
    W(if HasTop(a.b) then Comp(Down(Comp(a.b), Amount(n))) else Down(a.b, Amount(n)))
  }

  predicate Below(a: bv32, b: bv32) { a < b }
  function Flip(b: bv32): bv32 { b ^ 0x8000_0000 }

  predicate Less(a: Word, c: Word) { Below(a.b, c.b) }

  /** Comparison as two's complement numbers. */
  predicate SignedLess(a: Word, c: Word) { Below(Flip(a.b), Flip(c.b)) }

  function Byte8Of(b: bv32): bv32 { b & 0xFF }
  function Half16Of(b: bv32): bv32 { b & 0xFFFF }

  /** Sign extension; sign is the word with only the sign bit set. */
  function SignExtend(a: Word, sign: Word): Word { W(Extend(a.b, sign.b)) }
  function Extend(b: bv32, sign: bv32): bv32 { (b ^ sign) - sign }

  predicate Meets(b: bv32, mask: bv32) { b & mask != 0 }
  predicate Bit(a: Word, mask: bv32) { Meets(a.b, mask) }

  function FromBool(b: bool): Word { if b then W(1) else W(0) }

  // ------------------------------------------------------------------
  // Fields of a 32-bit instruction
  // ------------------------------------------------------------------

  function Opcode(i: Word): bv7 { (i.b & 0x7F) as bv7 }
  function Funct3(i: Word): bv3 { ((i.b >> 12) & 0x7) as bv3 }
  function Funct7(i: Word): bv7 { (i.b >> 25) as bv7 }
  function Funct12(i: Word): bv12 { (i.b >> 20) as bv12 }
  function Rd(i: Word): Word { W((i.b >> 7) & 0x1F) }
  function Rs1(i: Word): Word { W((i.b >> 15) & 0x1F) }
  function Rs2(i: Word): Word { W((i.b >> 20) & 0x1F) }

  // ------------------------------------------------------------------
  // Unsigned value
  // ------------------------------------------------------------------

  function LowBit(b: bv32): nat { if b & 1 == 1 then 1 else 0 }
  function Half(b: bv32): bv32 { b >> 1 }
  function Next(b: bv32): bv32 { b + 1 }

  /** The number a bit pattern denotes. */
  function ValueOf(b: bv32): nat
    decreases b
  {
    if b == 0 then 0 else 2 * ValueOf(b >> 1) + LowBit(b)
  }

  function Value(w: Word): nat { ValueOf(w.b) }

  /** The bit pattern of a number, truncated to 32 bits. */
  function PatternOf(n: nat): bv32 {
    if n == 0 then 0 else Append(PatternOf(n / 2), if n % 2 == 1 then 1 else 0)
  }

  function Append(b: bv32, low: bv32): bv32 { (b << 1) | low }

  function FromNat(n: nat): Word { W(PatternOf(n)) }

  lemma ValueStep(b: bv32)
    ensures ValueOf(b) == 2 * ValueOf(Half(b)) + LowBit(b)
  {}

  lemma EvenNextHalf(b: bv32) requires LowBit(b) == 0 ensures Half(Next(b)) == Half(b) {}
  lemma EvenNextLow(b: bv32) requires LowBit(b) == 0 ensures LowBit(Next(b)) == 1 {}
  lemma OddNextHalf(b: bv32) requires LowBit(b) == 1 && Next(b) != 0 ensures Half(Next(b)) == Next(Half(b)) {}
  lemma OddNextLow(b: bv32) requires LowBit(b) == 1 ensures LowBit(Next(b)) == 0 {}
  lemma HalfNextNonzero(b: bv32) ensures Next(Half(b)) != 0 {}
  lemma HalfDecreases(b: bv32) requires LowBit(b) == 1 ensures Half(b) < b {}

  /** Adding one to a pattern adds one to its value unless it wraps. */
  lemma {:induction false} ValueOfNext(b: bv32)
    requires Next(b) != 0
    ensures ValueOf(Next(b)) == ValueOf(b) + 1
    decreases b
  {
    hide *;
    ValueStep(b);
    ValueStep(Next(b));
    LowIsBit(b);
    if LowBit(b) == 0 {
      EvenNextHalf(b);
      EvenNextLow(b);
    } else {
      OddNextHalf(b);
      OddNextLow(b);
      HalfNextNonzero(b);
      HalfDecreases(b);
      ValueOfNext(Half(b));
    }
  }

  lemma LowIsBit(b: bv32) ensures LowBit(b) == 0 || LowBit(b) == 1 {}

  function Pow2(n: nat): nat { if n == 0 then 1 else 2 * Pow2(n - 1) }

  /** All bits of b at or above n are clear. */
  predicate FitsIn(b: bv32, n: nat) { if n == 0 then b == 0 else FitsIn(Half(b), n - 1) }

  lemma {:induction false} ValueOfBound(b: bv32, n: nat)
    requires FitsIn(b, n)
    ensures ValueOf(b) < Pow2(n)
  {
    if n > 0 {
      ValueOfBound(Half(b), n - 1);
      ValueStep(b);
    }
  }

  function Nibble(b: bv32): bv32 { Half(Half(Half(Half(b)))) }

  lemma FitsNibble(b: bv32, n: nat)
    requires FitsIn(Nibble(b), n)
    ensures FitsIn(b, n + 4)
  {
    var b1 := Half(b);
    var b2 := Half(b1);
    var b3 := Half(b2);
    hide Half;
    assert FitsIn(b3, n + 1);
    assert FitsIn(b2, n + 2);
    assert FitsIn(b1, n + 3);
  }

  lemma EightNibbles(b: bv32)
    ensures Nibble(Nibble(Nibble(Nibble(Nibble(Nibble(Nibble(Nibble(b)))))))) == 0
  {}

  lemma AllFit(b: bv32)
    ensures FitsIn(b, 32)
  {
    var b1 := Nibble(b);
    var b2 := Nibble(b1);
    var b3 := Nibble(b2);
    var b4 := Nibble(b3);
    var b5 := Nibble(b4);
    var b6 := Nibble(b5);
    var b7 := Nibble(b6);
    EightNibbles(b);
    hide Nibble;
    FitsNibble(b7, 0);
    FitsNibble(b6, 4);
    FitsNibble(b5, 8);
    FitsNibble(b4, 12);
    FitsNibble(b3, 16);
    FitsNibble(b2, 20);
    FitsNibble(b1, 24);
    FitsNibble(b, 28);
  }

  lemma Pow2Is32()
    ensures Pow2(32) == 0x1_0000_0000
  {
    assert Pow2(8) == 256;
    assert Pow2(16) == 65536;
    assert Pow2(24) == 0x100_0000;
  }

  lemma ValueBound(w: Word)
    ensures Value(w) < 0x1_0000_0000
  {
    AllFit(w.b);
    ValueOfBound(w.b, 32);
    Pow2Is32();
  }

  /** A 5-bit register or shift index as a number. */
  function Index(i: Word): (n: nat)
    ensures n < 32
  {
    FiveBits(i.b & 0x1F);
    ValueOf(i.b & 0x1F)
  }

  lemma FiveBits(b: bv32)
    requires b < 32
    ensures ValueOf(b) < 32
  {
    FiveBitsFit(b);
    ValueOfBound(b, 5);
    assert Pow2(5) == 32;
  }

  lemma FiveBitsFit(b: bv32)
    requires b < 32
    ensures FitsIn(b, 5)
  {
    assert Half(Nibble(b)) == 0;
    var b1 := Half(b);
    var b2 := Half(b1);
    var b3 := Half(b2);
    var b4 := Half(b3);
    hide Half;
    assert FitsIn(b4, 1);
    assert FitsIn(b3, 2);
    assert FitsIn(b2, 3);
    assert FitsIn(b1, 4);
  }

  lemma NibbleAtMost(b: bv32)
    ensures ValueOf(b) >= 16 * ValueOf(Nibble(b))
  {
    var b1 := Half(b);
    var b2 := Half(b1);
    var b3 := Half(b2);
    ValueStep(b);
    ValueStep(b1);
    ValueStep(b2);
    ValueStep(b3);
  }

  lemma TopNibble(b: bv32)
    requires b & 0x8000_0000 != 0
    ensures Half(Half(Half(Nibble(Nibble(Nibble(Nibble(Nibble(Nibble(Nibble(b)))))))))) == 1
  {}

  lemma TopBitValue(b: bv32)
    requires b & 0x8000_0000 != 0
    ensures ValueOf(b) >= 0x8000_0000
  {
    TopNibble(b);
    var b1 := Nibble(b);
    var b2 := Nibble(b1);
    var b3 := Nibble(b2);
    var b4 := Nibble(b3);
    var b5 := Nibble(b4);
    var b6 := Nibble(b5);
    var b7 := Nibble(b6);
    assert ValueOf(1) == 1;
    hide Nibble, ValueOf, Half;
    NibbleAtMost(b);
    NibbleAtMost(b1);
    NibbleAtMost(b2);
    NibbleAtMost(b3);
    NibbleAtMost(b4);
    NibbleAtMost(b5);
    NibbleAtMost(b6);
    ValueStep(b7);
    ValueStep(Half(b7));
    ValueStep(Half(Half(b7)));
  }

  lemma AppendHalf(b: bv32, low: bv32)
    requires b & 0x8000_0000 == 0 && low <= 1
    ensures Half(Append(b, low)) == b
  {}

  lemma AppendLow(b: bv32, low: bv32)
    requires low <= 1
    ensures LowBit(Append(b, low)) == if low == 1 then 1 else 0
  {}

  /** Numbers below 2^32 and patterns correspond one to one. */
  lemma {:induction false} PatternValue(n: nat)
    requires n < 0x1_0000_0000
    ensures ValueOf(PatternOf(n)) == n
  {
    if n > 0 {
      var rest := PatternOf(n / 2);
      var low := if n % 2 == 1 then 1 else 0;
      PatternValue(n / 2);
      if rest & 0x8000_0000 != 0 {
        TopBitValue(rest);
      }
      hide PatternOf, ValueOf, Append, Half, LowBit;
      PatternStep(n);
      AppendHalf(rest, low);
      AppendLow(rest, low);
      ValueStep(PatternOf(n));
    }
  }

  lemma FromNatValue(n: nat)
    requires n < 0x1_0000_0000
    ensures Value(FromNat(n)) == n
  {
    PatternValue(n);
  }

  lemma HalfAppend(b: bv32)
    ensures Append(Half(b), if LowBit(b) == 1 then 1 else 0) == b
  {}
  lemma HalfSmaller(b: bv32) requires b != 0 ensures Half(b) < b {}
  lemma PatternStep(n: nat)
    ensures PatternOf(n) == Append(PatternOf(n / 2), if n % 2 == 1 then 1 else 0)
  {
    AppendZero();
    hide Append;
  }
  lemma AppendZero() ensures Append(0, 0) == 0 {}

  lemma {:induction false} ValuePattern(b: bv32)
    ensures PatternOf(ValueOf(b)) == b
    decreases b
  {
    hide *;
    if b == 0 {
      ZeroValue();
    } else {
      HalfSmaller(b);
      ValuePattern(Half(b));
      ValueStep(b);
      LowIsBit(b);
      PatternStep(ValueOf(b));
      HalfAppend(b);
      assert ValueOf(b) / 2 == ValueOf(Half(b));
    }
  }

  lemma ZeroValue() ensures ValueOf(0) == 0 && PatternOf(0) == 0 {}

  function Prev(q: bv32): bv32 { q - 1 }
  lemma PrevNext(q: bv32) ensures Next(Prev(q)) == q {}

  /** The pattern that wraps to zero denotes the largest value. */
  lemma WrapValue(b: bv32)
    requires Next(b) == 0
    ensures ValueOf(b) == 0xFFFF_FFFF
  {
    hide *;
    ValueBoundOf(b);
    if ValueOf(b) < 0xFFFF_FFFF {
      var v := ValueOf(b) + 1;
      var q := PatternOf(v);
      PatternValue(v);
      ZeroValue();
      PrevNext(q);
      ValueOfNext(Prev(q));
      ValuePattern(b);
      ValuePattern(Prev(q));
    }
  }
  lemma ValueBoundOf(b: bv32) ensures ValueOf(b) < 0x1_0000_0000 { ValueBound(W(b)); }

  // ------------------------------------------------------------------
  // Sums of small fields
  // ------------------------------------------------------------------

  lemma PlusZero(p: bv32) ensures Plus(p, 0) == p {}
  lemma PlusPrev(p: bv32, q: bv32)
    requires p <= 0xFF && q <= 0xFF && q != 0
    ensures Plus(p, q) == Next(Plus(p, Prev(q)))
  {}
  lemma PlusNonzero(p: bv32, q: bv32) requires p <= 0xFF && q <= 0xFF && q != 0 ensures Plus(p, q) != 0 {}
  lemma PrevLess(q: bv32) requires q != 0 && q <= 0xFF ensures Prev(q) < q && Prev(q) <= 0xFF {}

  /** Small fields add without wrapping. */
  lemma {:induction false} PlusValue(p: bv32, q: bv32)
    requires p <= 0xFF && q <= 0xFF
    ensures ValueOf(Plus(p, q)) == ValueOf(p) + ValueOf(q)
    decreases q
  {
    hide *;
    if q == 0 {
      PlusZero(p);
      ZeroValue();
    } else {
      PlusPrev(p, q);
      PlusNonzero(p, q);
      PrevNext(q);
      PrevLess(q);
      PlusValue(p, Prev(q));
      ValueOfNext(Plus(p, Prev(q)));
      ValueOfNext(Prev(q));
    }
  }
}
