/** Bits by number: a reference for masks, shifts, rotations and the bitwise operations. */
module BitNumbers {
  import opened Bits
  import opened Integers
  import Zbb

  /** Bit k of b, counted from the low end; there are none from 32 up. */
  predicate NthBit(b: bv32, k: nat) { if k == 0 then LowBit(b) == 1 else NthBit(Half(b), k - 1) }

  lemma NthStep(b: bv32, k: nat) requires k > 0 ensures NthBit(b, k) == NthBit(Half(b), k - 1) { hide Half, LowBit; }
  lemma NthLow(b: bv32) ensures NthBit(b, 0) == (LowBit(b) == 1) { hide Half, LowBit; }

  /** Bit k is the k-th binary digit of the value. */
  lemma {:induction false} NthDigit(b: bv32, k: nat)
    ensures Pow2(k) > 0 && (NthBit(b, k) <==> ValueOf(b) / Pow2(k) % 2 == 1)
    decreases k
  {
    hide *;
    ValueStep(b);
    LowIsBit(b);
    Pow2Unfolds(k);
    if k == 0 {
      NthLow(b);
    } else {
      NthStep(b, k);
      NthDigit(Half(b), k - 1);
      HalfValue(b);
      HalvesDivide(ValueOf(b), Pow2(k - 1));
    }
  }
  lemma HalvesDivide(x: nat, d: nat) requires d > 0 ensures x / 2 / d == x / (2 * d)
  {
    var q, r := x / 2 / d, x / 2 % d;
    assert x == 2 * d * q + (2 * r + x % 2);
    DivUnique(x, 2 * d, q, 2 * r + x % 2);
  }

  lemma {:induction false} NoHighBits(b: bv32, n: nat, k: nat)
    requires FitsIn(b, n) && k >= n
    ensures !NthBit(b, k)
    decreases k
  {
    hide Half;
    if n == 0 {
      ZeroBits(k);
    } else {
      NoHighBits(Half(b), n - 1, k - 1);
    }
  }
  lemma HalfOfZero() ensures Half(0) == 0 && LowBit(0) == 0 {}
  lemma {:induction false} ZeroBits(k: nat)
    ensures !NthBit(0, k)
    decreases k
  {
    HalfOfZero();
    hide Half, LowBit;
    if k > 0 { ZeroBits(k - 1); }
  }
  lemma OutOfRange(b: bv32, k: nat)
    requires k >= 32
    ensures !NthBit(b, k)
  {
    hide *;
    AllFit(b);
    NoHighBits(b, 32, k);
  }

  /** A word is determined by its 32 bits. */
  lemma {:induction false} SameBits(a: bv32, b: bv32, n: nat)
    requires FitsIn(a, n) && FitsIn(b, n)
    requires forall k: nat :: k < n ==> NthBit(a, k) == NthBit(b, k)
    ensures ValueOf(a) == ValueOf(b)
    decreases n
  {
    hide Half, LowBit, ValueOf;
    if n == 0 {
    } else {
      ValueStep(a);
      ValueStep(b);
      LowIsBit(a);
      LowIsBit(b);
      NthLow(a);
      NthLow(b);
      assert NthBit(a, 0) == NthBit(b, 0);
      forall k: nat | k < n - 1 ensures NthBit(Half(a), k) == NthBit(Half(b), k) {
        NthStep(a, k + 1);
        NthStep(b, k + 1);
        assert NthBit(a, k + 1) == NthBit(b, k + 1);
      }
      SameBits(Half(a), Half(b), n - 1);
    }
  }
  lemma BitsDetermine(a: bv32, b: bv32)
    requires forall k: nat :: k < 32 ==> NthBit(a, k) == NthBit(b, k)
    ensures a == b
  {
    hide *;
    AllFit(a);
    AllFit(b);
    SameBits(a, b, 32);
    ValueDetermines(a, b);
  }

  // ------------------------------------------------------------------
  // Bitwise operations
  // ------------------------------------------------------------------

  lemma BothHalf(a: bv32, b: bv32) ensures Half(Both(a, b)) == Both(Half(a), Half(b)) {}
  lemma BothLow(a: bv32, b: bv32) ensures LowBit(Both(a, b)) == 1 <==> LowBit(a) == 1 && LowBit(b) == 1 {}
  lemma EitherLows(a: bv32, b: bv32) ensures LowBit(Either(a, b)) == 1 <==> LowBit(a) == 1 || LowBit(b) == 1 {}
  lemma DifferenceLows(a: bv32, b: bv32) ensures LowBit(Difference(a, b)) == 1 <==> (LowBit(a) == 1) != (LowBit(b) == 1) {}

  lemma {:induction false} BothBit(a: bv32, b: bv32, k: nat)
    ensures NthBit(Both(a, b), k) <==> NthBit(a, k) && NthBit(b, k)
    decreases k
  {
    hide Half, LowBit, Both;
    BothLow(a, b);
    BothHalf(a, b);
    if k > 0 { BothBit(Half(a), Half(b), k - 1); }
  }
  lemma {:induction false} EitherBit(a: bv32, b: bv32, k: nat)
    ensures NthBit(Either(a, b), k) <==> NthBit(a, k) || NthBit(b, k)
    decreases k
  {
    hide Half, LowBit, Either;
    EitherLows(a, b);
    EitherHalf(a, b);
    if k > 0 { EitherBit(Half(a), Half(b), k - 1); }
  }
  lemma {:induction false} DifferenceBit(a: bv32, b: bv32, k: nat)
    ensures NthBit(Difference(a, b), k) <==> NthBit(a, k) != NthBit(b, k)
    decreases k
  {
    hide Half, LowBit, Difference;
    DifferenceLows(a, b);
    DifferenceHalf(a, b);
    if k > 0 { DifferenceBit(Half(a), Half(b), k - 1); }
  }

  // ------------------------------------------------------------------
  // Single-bit masks
  // ------------------------------------------------------------------

  /** The word whose only set bit is bit k, for k below 32. */
  function Mask(k: nat): bv32 { if k == 0 then 1 else Double(Mask(k - 1)) }

  lemma MeetsHalf(b: bv32, m: bv32) requires LowBit(m) == 0 ensures Meets(b, m) <==> Meets(Half(b), Half(m)) {}
  lemma MeetsOne(b: bv32) ensures Meets(b, 1) <==> LowBit(b) == 1 {}

  /** After k halvings m is 1, with clear bits before. */
  predicate IsMask(m: bv32, k: nat) { if k == 0 then m == 1 else LowBit(m) == 0 && IsMask(Half(m), k - 1) }

  lemma {:induction false} MeetsMask(b: bv32, m: bv32, k: nat)
    requires IsMask(m, k)
    ensures Meets(b, m) <==> NthBit(b, k)
    decreases k
  {
    hide Half, LowBit, Meets;
    if k == 0 {
      MeetsOne(b);
    } else {
      MeetsHalf(b, m);
      MeetsMask(Half(b), Half(m), k - 1);
    }
  }
  lemma HalfOfOne() ensures Half(1) == 0 && LowBit(1) == 1 {}
  lemma {:induction false} OnlyBit(m: bv32, k: nat, j: nat)
    requires IsMask(m, k)
    ensures NthBit(m, j) <==> j == k
    decreases k
  {
    HalfOfOne();
    hide Half, LowBit;
    if k == 0 {
      if j > 0 { ZeroBits(j - 1); }
    } else if j > 0 {
      OnlyBit(Half(m), k - 1, j - 1);
    }
  }

  lemma MaskNibble(m: bv32, k: nat)
    requires IsMask(Nibble(m), k) && m & 0xF == 0
    ensures IsMask(m, k + 4)
  {
    LowNibbleClear(m);
    var m1, m2, m3 := Half(m), Half(Half(m)), Half(Half(Half(m)));
    assert Nibble(m) == Half(m3);
    hide Half, LowBit, Nibble;
    assert IsMask(m3, k + 1);
    assert IsMask(m2, k + 2);
    assert IsMask(m1, k + 3);
  }
  lemma EightIsMask() ensures IsMask(8, 3) {}
  lemma TopNibblesOf()
    ensures Nibble(0x8000_0000) == 0x800_0000 && Nibble(0x800_0000) == 0x80_0000 && Nibble(0x80_0000) == 0x8_0000
    ensures Nibble(0x8_0000) == 0x8000 && Nibble(0x8000) == 0x800 && Nibble(0x800) == 0x80 && Nibble(0x80) == 8
  {}
  lemma TopIsMask()
    ensures IsMask(TOP, 31)
  {
    EightIsMask();
    TopNibblesOf();
    hide Nibble, IsMask;
    MaskNibble(0x80, 3);
    MaskNibble(0x800, 7);
    MaskNibble(0x8000, 11);
    MaskNibble(0x8_0000, 15);
    MaskNibble(0x80_0000, 19);
    MaskNibble(0x800_0000, 23);
    MaskNibble(0x8000_0000, 27);
  }
  /** Bit 31 is the sign. */
  lemma TopBit(b: bv32)
    ensures HasTop(b) == NthBit(b, 31)
  {
    TopIsMask();
    MeetsMask(b, TOP, 31);
    assert Meets(b, TOP) == HasTop(b);
    hide *;
  }

  lemma {:induction false} MasksAre(k: nat)
    requires k < 32
    ensures IsMask(Mask(k), k)
    decreases k
  {
    hide Half, LowBit, Double, HasTop;
    if k > 0 {
      var m := Mask(k - 1);
      MasksAre(k - 1);
      DoubleSplits(m);
      OnlyBit(m, k - 1, 31);
      TopBit(m);
      LowWithoutTop(m);
    }
  }
  lemma LowWithoutTop(b: bv32) requires !HasTop(b) ensures Low31(b) == b {}

  /** Testing a word against the mask of bit k reads bit k. */
  lemma MaskReads(b: bv32, k: nat)
    requires k < 32
    ensures Meets(b, Mask(k)) <==> NthBit(b, k)
  {
    hide *;
    MasksAre(k);
    MeetsMask(b, Mask(k), k);
  }
  lemma MaskBits(k: nat, j: nat)
    requires k < 32
    ensures NthBit(Mask(k), j) <==> j == k
  {
    hide *;
    MasksAre(k);
    OnlyBit(Mask(k), k, j);
  }

  lemma DoubleOnes()
    ensures Double(0x1) == 0x2 && Double(0x2) == 0x4 && Double(0x4) == 0x8 && Double(0x8) == 0x10
    ensures Double(0x10) == 0x20 && Double(0x20) == 0x40 && Double(0x40) == 0x80 && Double(0x80) == 0x100
    ensures Double(0x100) == 0x200 && Double(0x200) == 0x400 && Double(0x400) == 0x800 && Double(0x800) == 0x1000
    ensures Double(0x1000) == 0x2000 && Double(0x2000) == 0x4000 && Double(0x4000) == 0x8000 && Double(0x8000) == 0x1_0000
    ensures Double(0x1_0000) == 0x2_0000 && Double(0x2_0000) == 0x4_0000 && Double(0x4_0000) == 0x8_0000
    ensures Double(0x8_0000) == 0x10_0000 && Double(0x10_0000) == 0x20_0000 && Double(0x20_0000) == 0x40_0000
  {}
  lemma MaskStep(k: nat) requires k > 0 ensures Mask(k) == Double(Mask(k - 1)) {}
  lemma LowMasks()
    ensures Mask(0) == 0x1 && Mask(1) == 0x2 && Mask(2) == 0x4 && Mask(3) == 0x8 && Mask(4) == 0x10 && Mask(5) == 0x20
    ensures Mask(6) == 0x40 && Mask(7) == 0x80 && Mask(8) == 0x100 && Mask(9) == 0x200 && Mask(10) == 0x400 && Mask(11) == 0x800
  {
    DoubleOnes();
    assert Mask(0) == 1;
    hide *;
    MaskStep(1); MaskStep(2); MaskStep(3); MaskStep(4); MaskStep(5); MaskStep(6);
    MaskStep(7); MaskStep(8); MaskStep(9); MaskStep(10); MaskStep(11);
  }
  lemma HighMasks()
    ensures Mask(12) == 0x1000 && Mask(13) == 0x2000 && Mask(14) == 0x4000 && Mask(17) == 0x2_0000 && Mask(18) == 0x4_0000 && Mask(19) == 0x8_0000
    ensures Mask(20) == 0x10_0000 && Mask(21) == 0x20_0000 && Mask(22) == 0x40_0000
  {
    DoubleOnes();
    LowMasks();
    hide *;
    MaskStep(12); MaskStep(13); MaskStep(14); MaskStep(15); MaskStep(16); MaskStep(17);
    MaskStep(18); MaskStep(19); MaskStep(20); MaskStep(21); MaskStep(22);
  }

  /** Shifting 1 up makes the mask of that bit. */
  lemma {:induction false} UpOne(s: bv32)
    requires s < 32
    ensures Up(1, s) == Mask(ValueOf(s))
    decreases s
  {
    hide *;
    if s == 0 {
      UpZero(1);
      ZeroValue();
      MaskZero();
    } else {
      ZeroOrPositive(s);
      PrevIs(s);
      UpFrom(1, s, Prev(s));
      UpOne(Prev(s));
      ValueOfNext(Prev(s));
      MaskStep(ValueOf(s));
    }
  }
  lemma MaskZero() ensures Mask(0) == 1 {}

  lemma OnesKeep(m: bv32) ensures Meets(0xFFFF_FFFF, m) <==> m != 0 {}
  lemma CompIsDifference(b: bv32) ensures Comp(b) == Difference(b, 0xFFFF_FFFF) {}
  lemma OnesBits(k: nat)
    requires k < 32
    ensures NthBit(0xFFFF_FFFF, k)
  {
    hide *;
    MaskReads(0xFFFF_FFFF, k);
    OnesKeep(Mask(k));
    MaskBits(k, k);
    ZeroBits(k);
  }
  lemma CompBit(b: bv32, k: nat)
    requires k < 32
    ensures NthBit(Comp(b), k) == !NthBit(b, k)
  {
    hide *;
    CompIsDifference(b);
    DifferenceBit(b, 0xFFFF_FFFF, k);
    OnesBits(k);
  }

  /** Testing a word with a mask that has only bit k reads bit k. */
  lemma BitReads(w: Word, m: bv32, k: nat)
    requires k < 32 && m == Mask(k)
    ensures Bit(w, m) == NthBit(w.b, k)
  {
    hide *;
    BitMeets(w, m);
    MaskReads(w.b, k);
  }
  lemma BitMeets(w: Word, m: bv32) ensures Bit(w, m) == Meets(w.b, m) { hide Meets; }

  lemma NotIs(m: Word) ensures Not(m).b == Comp(m.b) { hide Comp; }
  lemma XorWord(a: Word, b: Word) ensures Xor(a, b).b == Difference(a.b, b.b) { hide Difference; }
  lemma OrWord(a: Word, b: Word) ensures Or(a, b).b == Either(a.b, b.b) { hide Either; }
  lemma AndWord(a: Word, b: Word) ensures And(a, b).b == Both(a.b, b.b) { hide Both; }

  /** The word operations, bit by bit. */
  lemma BitwiseResult(a: Word, b: Word, k: nat)
    ensures NthBit(Xor(a, b).b, k) == (NthBit(a.b, k) != NthBit(b.b, k))
    ensures NthBit(Or(a, b).b, k) == (NthBit(a.b, k) || NthBit(b.b, k))
    ensures NthBit(And(a, b).b, k) == (NthBit(a.b, k) && NthBit(b.b, k))
  {
    hide *;
    XorWord(a, b);
    OrWord(a, b);
    AndWord(a, b);
    DifferenceBit(a.b, b.b, k);
    EitherBit(a.b, b.b, k);
    BothBit(a.b, b.b, k);
  }

  // ------------------------------------------------------------------
  // Shifts and rotations
  // ------------------------------------------------------------------

  lemma {:induction false} DownBit(b: bv32, s: bv32, k: nat)
    requires s < 32
    ensures NthBit(Down(b, s), k) == NthBit(b, k + ValueOf(s))
    decreases s
  {
    hide *;
    if s == 0 {
      DownZero(b);
      ZeroValue();
    } else {
      ZeroOrPositive(s);
      PrevIs(s);
      DownFrom(b, s, Prev(s));
      ValueOfNext(Prev(s));
      NthStep(Down(b, Prev(s)), k + 1);
      DownBit(b, Prev(s), k + 1);
    }
  }

  lemma MeetsDouble(b: bv32, m: bv32) requires !HasTop(m) ensures Meets(Double(b), Double(m)) <==> Meets(b, m) {}
  lemma DoubleBit(b: bv32, k: nat)
    requires k < 32
    ensures NthBit(Double(b), k) <==> k > 0 && NthBit(b, k - 1)
  {
    hide *;
    DoubleSplits(b);
    NthLow(Double(b));
    if k > 0 {
      MaskReads(Double(b), k);
      MaskReads(b, k - 1);
      MaskStep(k);
      MaskBits(k - 1, 31);
      TopBit(Mask(k - 1));
      MeetsDouble(b, Mask(k - 1));
    }
  }
  lemma {:induction false} UpBit(b: bv32, s: bv32, k: nat)
    requires s < 32 && k < 32
    ensures NthBit(Up(b, s), k) <==> k >= ValueOf(s) && NthBit(b, k - ValueOf(s))
    decreases s
  {
    hide *;
    if s == 0 {
      UpZero(b);
      ZeroValue();
    } else {
      ZeroOrPositive(s);
      PrevIs(s);
      UpFrom(b, s, Prev(s));
      ValueOfNext(Prev(s));
      DoubleBit(Up(b, Prev(s)), k);
      if k > 0 { UpBit(b, Prev(s), k - 1); }
    }
  }

  lemma RestRange(s: bv32) requires 0 < s < 32 ensures 0 < Rest(s) < 32 && Plus(Rest(s), s) == 32 && Rest(s) <= 0xFF && s <= 0xFF {}
  lemma ThirtyTwo() ensures ValueOf(32) == 32
  {
    assert ValueOf(1) == 1;
    assert Half(32) == 16 && Half(16) == 8 && Half(8) == 4 && Half(4) == 2 && Half(2) == 1;
    assert LowBit(32) == 0 && LowBit(16) == 0 && LowBit(8) == 0 && LowBit(4) == 0 && LowBit(2) == 0;
    hide *;
    ValueStep(32); ValueStep(16); ValueStep(8); ValueStep(4); ValueStep(2);
  }
  lemma RestValue(s: bv32)
    requires 0 < s < 32
    ensures ValueOf(Rest(s)) == 32 - ValueOf(s) && 0 < ValueOf(s) < 32
  {
    RestRange(s);
    assert s != 0;
    hide *;
    PlusValue(Rest(s), s);
    ThirtyTwo();
    FiveBits(s);
    FiveBits(Rest(s));
  }
  lemma RolIs(b: bv32, s: bv32)
    requires 0 < s < 32
    ensures Rest(s) < 32 && Zbb.Rol(b, s) == Either(Up(b, s), Down(b, Rest(s)))
  {
    RestBelow(s);
    hide Either, Up, Down, Rest;
  }
  lemma RorIs(b: bv32, s: bv32)
    requires 0 < s < 32
    ensures Rest(s) < 32 && Zbb.Ror(b, s) == Either(Down(b, s), Up(b, Rest(s)))
  {
    RestBelow(s);
    hide Either, Up, Down, Rest;
  }
  lemma RotateZero(b: bv32) ensures Zbb.Rol(b, 0) == b && Zbb.Ror(b, 0) == b {}

  function Rotated(k: nat, v: nat): nat { if k + v < 32 then k + v else k + v - 32 }

  lemma RolLow(b: bv32, s: bv32, k: nat, v: nat)
    requires 0 < s < 32 && k + v < 32 && v == ValueOf(s)
    ensures NthBit(Zbb.Rol(b, s), k + v) == NthBit(b, k)
  {
    RolIs(b, s);
    RestValue(s);
    hide *;
    EitherBit(Up(b, s), Down(b, Rest(s)), k + v);
    UpBit(b, s, k + v);
    DownBit(b, Rest(s), k + v);
    OutOfRange(b, k + v + ValueOf(Rest(s)));
  }
  lemma RolHigh(b: bv32, s: bv32, k: nat, v: nat)
    requires 0 < s < 32 && k < 32 && k + v >= 32 && v == ValueOf(s)
    ensures NthBit(Zbb.Rol(b, s), k + v - 32) == NthBit(b, k)
  {
    RolIs(b, s);
    RestValue(s);
    hide *;
    EitherBit(Up(b, s), Down(b, Rest(s)), k + v - 32);
    UpBit(b, s, k + v - 32);
    DownBit(b, Rest(s), k + v - 32);
  }
  lemma RolMoves(b: bv32, s: bv32, k: nat, v: nat)
    requires 0 < s < 32 && k < 32 && v == ValueOf(s)
    ensures v < 32 && NthBit(Zbb.Rol(b, s), Rotated(k, v)) == NthBit(b, k)
  {
    hide *;
    RestValue(s);
    RotatedIs(k, v);
    if k + v < 32 { RolLow(b, s, k, v); } else { RolHigh(b, s, k, v); }
  }
  lemma RotatedIs(k: nat, v: nat) ensures Rotated(k, v) == if k + v < 32 then k + v else k + v - 32 {}

  lemma RorMoves(b: bv32, s: bv32, k: nat, v: nat)
    requires 0 < s < 32 && k < 32 && v == ValueOf(s)
    ensures v < 32 && NthBit(Zbb.Ror(b, s), k) == NthBit(b, Rotated(k, v))
  {
    RorIs(b, s);
    RestValue(s);
    hide *;
    RotatedIs(k, v);
    EitherBit(Down(b, s), Up(b, Rest(s)), k);
    DownBit(b, s, k);
    UpBit(b, Rest(s), k);
    if k + v >= 32 { OutOfRange(b, k + v); }
  }

  lemma RotatedMod(k: nat, v: nat) requires k < 32 && v < 32 ensures Rotated(k, v) == (k + v) % 32 {}

  /** Rotating left by s moves bit k to bit k + s, modulo 32; rotating right moves it back. */
  lemma RotationMoves(b: bv32, s: bv32, k: nat)
    requires s < 32 && k < 32
    ensures NthBit(Zbb.Rol(b, s), (k + ValueOf(s)) % 32) == NthBit(b, k)
    ensures NthBit(Zbb.Ror(b, s), k) == NthBit(b, (k + ValueOf(s)) % 32)
  {
    hide *;
    if s == 0 {
      RotateZero(b);
      ZeroValue();
      Within32(k);
    } else {
      ZeroOrPositive(s);
      RolMoves(b, s, k, ValueOf(s));
      RorMoves(b, s, k, ValueOf(s));
      RotatedMod(k, ValueOf(s));
    }
  }
  lemma Within32(k: nat) requires k < 32 ensures k % 32 == k {}
}
