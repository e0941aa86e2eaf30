/** What comparisons and shifts compute, in integers: a reference for the executors that use them. */
module Integers {
  import opened Bits
  import opened Common
  import A = Rv32a
  import I = Rv32i
  import Zbb

  const WORDS: int := 0x1_0000_0000

  /** The two's complement number a word denotes. */
  function Signed(w: Word): int { if HasTop(w.b) then Value(w) - WORDS else Value(w) }

  // ------------------------------------------------------------------
  // Unsigned order
  // ------------------------------------------------------------------

  lemma HalfOrder(a: bv32, b: bv32) requires Below(Half(a), Half(b)) ensures Below(a, b) {}
  lemma LowOrder(a: bv32, b: bv32) requires Half(a) == Half(b) ensures Below(a, b) <==> a & 1 < b & 1 {}
  lemma LowMeans(a: bv32, b: bv32) ensures a & 1 < b & 1 <==> LowBit(a) < LowBit(b) {}
  lemma OrderOfLows(a: bv32, b: bv32)
    requires Half(a) == Half(b)
    ensures Below(a, b) <==> LowBit(a) < LowBit(b)
  {
    hide Below, Half, LowBit;
    LowOrder(a, b);
    LowMeans(a, b);
  }
  lemma NotBoth(a: bv32, b: bv32) requires Below(a, b) ensures !Below(b, a) {}

  lemma ValueDetermines(a: bv32, b: bv32)
    requires ValueOf(a) == ValueOf(b)
    ensures a == b
  {
    hide *;
    ValuePattern(a);
    ValuePattern(b);
  }

  /** The unsigned order of words is the order of their values. */
  lemma {:induction false} OrderIsValue(a: bv32, b: bv32)
    ensures Below(a, b) <==> ValueOf(a) < ValueOf(b)
    decreases ValueOf(a) + ValueOf(b)
  {
    hide *;
    ValueStep(a);
    ValueStep(b);
    LowIsBit(a);
    LowIsBit(b);
    if ValueOf(Half(a)) == ValueOf(Half(b)) {
      ValueDetermines(Half(a), Half(b));
      OrderOfLows(a, b);
    } else {
      OrderIsValue(Half(a), Half(b));
      OrderIsValue(Half(b), Half(a));
      if Below(Half(a), Half(b)) {
        HalfOrder(a, b);
      } else {
        HalfOrder(b, a);
        NotBoth(b, a);
      }
    }
  }

  // ------------------------------------------------------------------
  // Disjoint bits add
  // ------------------------------------------------------------------

  predicate Disjoint(a: bv32, b: bv32) { a & b == 0 }

  lemma EitherHalf(a: bv32, b: bv32) ensures Half(Either(a, b)) == Either(Half(a), Half(b)) {}
  lemma EitherLow(a: bv32, b: bv32) requires Disjoint(a, b) ensures LowBit(Either(a, b)) == LowBit(a) + LowBit(b) {}
  lemma DisjointHalf(a: bv32, b: bv32) requires Disjoint(a, b) ensures Disjoint(Half(a), Half(b)) {}
  lemma EitherZero(a: bv32) ensures Either(a, 0) == a && Either(0, a) == a {}

  lemma {:induction false} EitherValue(a: bv32, b: bv32)
    requires Disjoint(a, b)
    ensures ValueOf(Either(a, b)) == ValueOf(a) + ValueOf(b)
    decreases a
  {
    hide *;
    if a == 0 {
      ZeroValue();
      EitherZero(b);
    } else {
      HalfSmaller(a);
      EitherHalf(a, b);
      EitherLow(a, b);
      DisjointHalf(a, b);
      EitherValue(Half(a), Half(b));
      ValueStep(a);
      ValueStep(b);
      ValueStep(Either(a, b));
    }
  }

  // ------------------------------------------------------------------
  // Complement and sign
  // ------------------------------------------------------------------

  const TOP: bv32 := 0x8000_0000

  function Low31(b: bv32): bv32 { b & 0x7FFF_FFFF }

  lemma CompPartitions(b: bv32) ensures Disjoint(b, Comp(b)) && Next(Either(b, Comp(b))) == 0 {}

  /** The complement of a word has the complementary value. */
  lemma NotValue(b: bv32)
    ensures ValueOf(Comp(b)) == WORDS - 1 - ValueOf(b)
  {
    assert WORDS == 0x1_0000_0000;
    hide *;
    CompPartitions(b);
    EitherValue(b, Comp(b));
    WrapValue(Either(b, Comp(b)));
  }

  lemma TopPartitions() ensures Comp(TOP) == 0x7FFF_FFFF && Next(0x7FFF_FFFF) == TOP && Next(0x7FFF_FFFF) != 0 {}
  lemma TopValue()
    ensures ValueOf(TOP) == 0x8000_0000
  {
    assert WORDS == 0x1_0000_0000;
    TopPartitions();
    hide *;
    NotValue(TOP);
    ValueOfNext(0x7FFF_FFFF);
  }

  lemma WithTop(b: bv32) requires HasTop(b) ensures Either(b & 0x7FFF_FFFF, TOP) == b {}
  lemma WithoutTop(b: bv32) requires !HasTop(b) ensures b & 0x7FFF_FFFF == b {}
  lemma SplitTop(b: bv32)
    ensures b == if HasTop(b) then Either(Low31(b), TOP) else Low31(b)
  {
    hide Either, HasTop;
    if HasTop(b) { WithTop(b); } else { WithoutTop(b); }
  }
  lemma TopDisjoint(b: bv32) ensures Disjoint(Low31(b), TOP) {}
  lemma FlipSplits(b: bv32) ensures HasTop(Flip(b)) == !HasTop(b) && Low31(Flip(b)) == Low31(b) {}

  lemma SplitValue(b: bv32)
    ensures ValueOf(b) == ValueOf(Low31(b)) + if HasTop(b) then 0x8000_0000 else 0
  {
    hide *;
    SplitTop(b);
    TopDisjoint(b);
    EitherValue(Low31(b), TOP);
    TopValue();
  }

  lemma SignedIs(w: Word)
    ensures Signed(w) == if HasTop(w.b) then ValueOf(w.b) - 0x1_0000_0000 else ValueOf(w.b)
  {
    hide ValueOf, HasTop;
  }

  /** Flipping the top bit turns two's complement into an offset of 2^31. */
  lemma FlipValue(w: Word)
    ensures ValueOf(Flip(w.b)) == Signed(w) + 0x8000_0000
  {
    hide *;
    SignedIs(w);
    SplitValue(w.b);
    SplitValue(Flip(w.b));
    FlipSplits(w.b);
  }

  /** The two comparisons of words are the comparisons of the numbers they denote. */
  lemma Comparisons(a: Word, c: Word)
    ensures Less(a, c) <==> Value(a) < Value(c)
    ensures SignedLess(a, c) <==> Signed(a) < Signed(c)
  {
    hide ValueOf, Signed, Below, Flip;
    OrderIsValue(a.b, c.b);
    OrderIsValue(Flip(a.b), Flip(c.b));
    FlipValue(a);
    FlipValue(c);
  }

  // ------------------------------------------------------------------
  // Addition and subtraction
  // ------------------------------------------------------------------

  /** a + b + c modulo 2^32, with c carried in below bit 0. */
  function Sum(a: bv32, b: bv32, c: bv1): bv32 {
    (((((a as bv33) << 1) | (c as bv33)) + (((b as bv33) << 1) | (c as bv33))) >> 1) as bv32
  }

  /** The carry out of bit 0. */
  function Carry(a: bv32, b: bv32, c: bv1): bv1 { ((a & b & 1) as bv1) | (c & ((a | b) & 1) as bv1) }
  function Generate(a: bv32, b: bv32): bv1 { (a & b & 1) as bv1 }
  function Number(c: bv1): nat { if c == 1 then 1 else 0 }

  lemma SumStep(a: bv32, b: bv32, c: bv1) ensures Half(Sum(a, b, c)) == Low31(Sum(Half(a), Half(b), Carry(a, b, c))) {}
  lemma PlusStep(a: bv32, b: bv32) ensures Half(Plus(a, b)) == Low31(Sum(Half(a), Half(b), Generate(a, b))) {}
  lemma SumParity(a: bv32, b: bv32, c: bv1)
    ensures LowBit(Sum(a, b, c)) + 2 * Number(Carry(a, b, c)) == LowBit(a) + LowBit(b) + Number(c)
  {}
  lemma PlusParity(a: bv32, b: bv32)
    ensures LowBit(Plus(a, b)) + 2 * Number(Generate(a, b)) == LowBit(a) + LowBit(b)
  {}

  /** The value of the low n bits. */
  function LowValue(b: bv32, n: nat): nat { if n == 0 then 0 else LowBit(b) + 2 * LowValue(Half(b), n - 1) }

  lemma LowValueZero(b: bv32) ensures LowValue(b, 0) == 0 && Pow2(0) == 1 {}
  lemma LowValueStep(b: bv32, n: nat)
    requires n > 0
    ensures LowValue(b, n) == LowBit(b) + 2 * LowValue(Half(b), n - 1)
  {
    hide LowBit, Half;
  }

  lemma {:induction false} AllBits(b: bv32, n: nat)
    requires FitsIn(b, n)
    ensures LowValue(b, n) == ValueOf(b)
    decreases n
  {
    if n > 0 {
      AllBits(Half(b), n - 1);
      ValueStep(b);
      hide Half, LowBit;
    }
  }
  lemma AllOfWord(b: bv32)
    ensures LowValue(b, 32) == ValueOf(b)
  {
    hide *;
    AllFit(b);
    AllBits(b, 32);
  }

  /** The low n bits of d are clear. */
  predicate Clear(d: bv32, n: nat) { n == 0 || (LowBit(d) == 0 && Clear(Half(d), n - 1)) }

  lemma DifferenceHalf(a: bv32, b: bv32) ensures Half(Difference(a, b)) == Difference(Half(a), Half(b)) {}
  lemma DifferenceLow(a: bv32, b: bv32) requires LowBit(Difference(a, b)) == 0 ensures LowBit(a) == LowBit(b) {}

  lemma {:induction false} SameLow(a: bv32, b: bv32, n: nat)
    requires Clear(Difference(a, b), n)
    ensures LowValue(a, n) == LowValue(b, n)
    decreases n
  {
    hide Half, LowBit, Difference;
    if n > 0 {
      DifferenceHalf(a, b);
      DifferenceLow(a, b);
      SameLow(Half(a), Half(b), n - 1);
    }
  }

  lemma {:induction false} ClearFewer(d: bv32, n: nat, m: nat)
    requires Clear(d, n) && m <= n
    ensures Clear(d, m)
    decreases m
  {
    hide Half, LowBit;
    if m > 0 { ClearFewer(Half(d), n - 1, m - 1); }
  }

  lemma LowNibbleClear(d: bv32)
    requires d & 0xF == 0
    ensures LowBit(d) == 0 && LowBit(Half(d)) == 0 && LowBit(Half(Half(d))) == 0 && LowBit(Half(Half(Half(d)))) == 0
  {}
  lemma ClearStep(d: bv32, n: nat) requires LowBit(d) == 0 && Clear(Half(d), n) ensures Clear(d, n + 1) {}
  lemma ClearNibble(d: bv32, n: nat)
    requires Clear(Nibble(d), n) && d & 0xF == 0
    ensures Clear(d, n + 4)
  {
    LowNibbleClear(d);
    var d1, d2, d3 := Half(d), Half(Half(d)), Half(Half(Half(d)));
    assert Nibble(d) == Half(d3);
    hide *;
    ClearStep(d3, n);
    ClearStep(d2, n + 1);
    ClearStep(d1, n + 2);
    ClearStep(d, n + 3);
  }

  function OnlyTop(b: bv32): bv32 { b & 0x8000_0000 }
  lemma TopDrops(b: bv32) ensures Difference(Low31(b), b) == OnlyTop(b) {}
  lemma TopNibbles(b: bv32)
    ensures var d := OnlyTop(b);
      d & 0xF == 0 && Nibble(d) & 0xF == 0 && Nibble(Nibble(d)) & 0xF == 0 && Nibble(Nibble(Nibble(d))) & 0xF == 0
  {}
  lemma TopHighNibbles(d: bv32)
    requires d & 0x7FFF == 0 && d <= 0x8000
    ensures d & 0xF == 0 && Nibble(d) & 0xF == 0 && Nibble(Nibble(d)) & 0xF == 0
    ensures var t := Nibble(Nibble(Nibble(d))); t & 0x7 == 0
  {}
  lemma TopHalfway(b: bv32)
    ensures var d := Nibble(Nibble(Nibble(Nibble(OnlyTop(b))))); d & 0x7FFF == 0 && d <= 0x8000
  {}
  lemma LowThreeClear(t: bv32)
    requires t & 0x7 == 0
    ensures LowBit(t) == 0 && LowBit(Half(t)) == 0 && LowBit(Half(Half(t))) == 0
  {}
  lemma LastThree(t: bv32)
    requires t & 0x7 == 0
    ensures Clear(t, 3)
  {
    LowThreeClear(t);
    assert Clear(Half(Half(Half(t))), 0);
    hide *;
    ClearStep(Half(Half(t)), 0);
    ClearStep(Half(t), 1);
    ClearStep(t, 2);
  }

  lemma TopClear(b: bv32)
    ensures Clear(OnlyTop(b), 31)
  {
    hide *;
    var d0 := OnlyTop(b);
    var d1 := Nibble(d0);
    var d2 := Nibble(d1);
    var d3 := Nibble(d2);
    var d4 := Nibble(d3);
    var d5 := Nibble(d4);
    var d6 := Nibble(d5);
    var d7 := Nibble(d6);
    TopNibbles(b);
    TopHalfway(b);
    TopHighNibbles(d4);
    LastThree(d7);
    ClearNibble(d6, 3);
    ClearNibble(d5, 7);
    ClearNibble(d4, 11);
    ClearNibble(d3, 15);
    ClearNibble(d2, 19);
    ClearNibble(d1, 23);
    ClearNibble(d0, 27);
  }

  /** Clearing bit 31 does not change the value of the bits below. */
  lemma LowOfLow31(b: bv32, n: nat)
    requires n <= 31
    ensures LowValue(Low31(b), n) == LowValue(b, n)
  {
    hide *;
    TopDrops(b);
    TopClear(b);
    ClearFewer(OnlyTop(b), 31, n);
    SameLow(Low31(b), b, n);
  }

  lemma Pow2Step(n: nat) requires n > 0 ensures Pow2(n) == 2 * Pow2(n - 1) && Pow2(n - 1) > 0 { Pow2Positive(n - 1); }

  lemma OddDoubleMod(x: int, low: int, m: int)
    requires m > 0 && 0 <= low <= 1
    ensures low + 2 * (x % m) == (low + 2 * x) % (2 * m)
  {
    var q := x / m;
    assert low + 2 * x == (low + 2 * (x % m)) + 2 * m * q;
    ModUnique(low + 2 * x, 2 * m, q, low + 2 * (x % m));
  }
  lemma ModUnique(x: int, m: int, q: int, r: int)
    requires m > 0 && 0 <= r < m && x == r + m * q
    ensures x % m == r
  {
    DivUnique(x, m, q, r);
  }

  /** The carry chain adds, bit by bit. */
  lemma {:induction false} SumLow(a: bv32, b: bv32, c: bv1, n: nat)
    requires n <= 32
    ensures Pow2(n) > 0
    ensures LowValue(Sum(a, b, c), n) == (LowValue(a, n) + LowValue(b, n) + Number(c)) % Pow2(n)
    decreases n
  {
    hide *;
    if n == 0 {
      LowValueZero(Sum(a, b, c));
      LowValueZero(a);
      LowValueZero(b);
    } else {
      var k := Carry(a, b, c);
      LowValueStep(Sum(a, b, c), n);
      LowValueStep(a, n);
      LowValueStep(b, n);
      SumStep(a, b, c);
      SumParity(a, b, c);
      LowIsBit(Sum(a, b, c));
      LowOfLow31(Sum(Half(a), Half(b), k), n - 1);
      SumLow(Half(a), Half(b), k, n - 1);
      Pow2Step(n);
      OddDoubleMod(LowValue(Half(a), n - 1) + LowValue(Half(b), n - 1) + Number(k), LowBit(Sum(a, b, c)), Pow2(n - 1));
    }
  }

  function ModWords(n: int): int { n % WORDS }
  lemma ModPow2(x: int) ensures Pow2(32) > 0 && ModWords(x) == x % Pow2(32) { Pow2Is32(); }

  /** 32-bit addition is addition modulo 2^32. */
  lemma PlusAdds(a: bv32, b: bv32)
    ensures ValueOf(Plus(a, b)) == ModWords(ValueOf(a) + ValueOf(b))
  {
    hide *;
    var k := Generate(a, b);
    AllOfWord(a);
    AllOfWord(b);
    AllOfWord(Plus(a, b));
    LowValueStep(a, 32);
    LowValueStep(b, 32);
    LowValueStep(Plus(a, b), 32);
    PlusStep(a, b);
    PlusParity(a, b);
    LowIsBit(Plus(a, b));
    LowOfLow31(Sum(Half(a), Half(b), k), 31);
    SumLow(Half(a), Half(b), k, 31);
    Pow2Step(32);
    OddDoubleMod(LowValue(Half(a), 31) + LowValue(Half(b), 31) + Number(k), LowBit(Plus(a, b)), Pow2(31));
    ModPow2(ValueOf(a) + ValueOf(b));
  }

  lemma AddIsPlus(a: Word, c: Word) ensures Add(a, c).b == Plus(a.b, c.b) { hide Plus; }
  lemma AddValue(a: Word, c: Word)
    ensures Value(Add(a, c)) == ModWords(Value(a) + Value(c))
  {
    AddIsPlus(a, c);
    hide ValueOf, Add, Plus, ModWords;
    PlusAdds(a.b, c.b);
  }

  lemma NextValue(b: bv32)
    ensures ValueOf(Next(b)) == ModWords(ValueOf(b) + 1)
  {
    assert WORDS == 0x1_0000_0000;
    hide ValueOf, Next;
    if Next(b) == 0 {
      WrapValue(b);
      ZeroValue();
    } else {
      ValueOfNext(b);
      ValueBoundOf(Next(b));
    }
  }

  lemma SubIsAdd(a: Word, c: Word) ensures Sub(a, c) == Add(a, W(Next(Comp(c.b)))) {}
  lemma SubValue(a: Word, c: Word)
    ensures Value(Sub(a, c)) == ModWords(Value(a) - Value(c))
  {
    SubIsAdd(a, c);
    hide ValueOf, Add, Sub, Next, Comp, ModWords, WORDS;
    AddValue(a, W(Next(Comp(c.b))));
    NextValue(Comp(c.b));
    NotValue(c.b);
    var v: int := Value(c);
    ModOfMod(Value(a), -v);
  }
  lemma ModOfMod(x: int, y: int)
    ensures ModWords(x + ModWords(WORDS + y)) == ModWords(x + y)
  {}

  // ------------------------------------------------------------------
  // Shifts
  // ------------------------------------------------------------------

  lemma DownFrom(a: bv32, s: bv32, t: bv32) requires 0 < s < 32 && t == s - 1 ensures Down(a, s) == Half(Down(a, t)) {}
  lemma DownZero(a: bv32) ensures Down(a, 0) == a {}
  lemma PrevIs(s: bv32) requires 0 < s < 32 ensures Prev(s) == s - 1 && Prev(s) < s && Prev(s) < 32 && Next(Prev(s)) == s && s != 0 {}
  lemma HalfValue(b: bv32) ensures ValueOf(Half(b)) == ValueOf(b) / 2
  {
    hide *;
    ValueStep(b);
    LowIsBit(b);
  }

  lemma {:induction false} DownValue(a: bv32, s: bv32)
    requires s < 32
    ensures Pow2(ValueOf(s)) > 0 && ValueOf(Down(a, s)) == ValueOf(a) / Pow2(ValueOf(s))
    decreases s
  {
    hide *;
    if s == 0 {
      DownZero(a);
      ZeroValue();
      Pow2Unfolds(0);
    } else {
      ZeroOrPositive(s);
      PrevIs(s);
      DownFrom(a, s, Prev(s));
      DownValue(a, Prev(s));
      HalfValue(Down(a, Prev(s)));
      ValueOfNext(Prev(s));
      Pow2Unfolds(ValueOf(s));
      DivDiv(ValueOf(a), Pow2(ValueOf(Prev(s))));
    }
  }
  lemma ZeroOrPositive(s: bv32) requires s != 0 ensures 0 < s {}
  lemma Pow2Unfolds(n: nat) ensures Pow2(n) == if n == 0 then 1 else 2 * Pow2(n - 1) {}
  lemma DivDiv(x: nat, d: nat)
    requires d > 0
    ensures x / d / 2 == x / (2 * d)
  {
    var q := x / d;
    var r := x % d;
    assert x == 2 * d * (q / 2) + (d * (q % 2) + r);
    DivUnique(x, 2 * d, q / 2, d * (q % 2) + r);
  }
  lemma DivUnique(x: int, m: int, q: int, r: int)
    requires m > 0 && 0 <= r < m && x == m * q + r
    ensures x / m == q
  {
    if x / m > q { MulMonotone(m, q + 1, x / m); } else if x / m < q { MulMonotone(m, x / m + 1, q); }
  }
  lemma MulMonotone(m: int, a: int, b: int) requires m > 0 && a <= b ensures m * a <= m * b {}

  lemma {:induction false} Pow2Positive(n: nat) ensures Pow2(n) > 0 { if n > 0 { Pow2Positive(n - 1); } }

  /** The factor by which a shift amount scales. */
  function Places(n: Word): (p: nat)
    ensures p > 0
  {
    Pow2Positive(Index(n));
    Pow2(Index(n))
  }

  /** The logical right shift divides the unsigned number. */
  lemma ShiftRightDivides(a: Word, n: Word)
    ensures Value(ShiftRight(a, n)) == Value(a) / Places(n)
  {
    assert Index(n) == ValueOf(Amount(n));
    hide ValueOf, Down, Index, Pow2, Amount;
    DownValue(a.b, Amount(n));
  }

  lemma DownClearsTop(a: bv32, s: bv32)
    requires s < 32 && !HasTop(a)
    ensures !HasTop(Down(a, s))
  {}
  lemma CompTop(a: bv32) ensures HasTop(Comp(a)) == !HasTop(a) {}
  lemma FloorNegative(v: int, d: int)
    requires v >= 0 && d > 0
    ensures -(v / d) - 1 == (-v - 1) / d
  {
    DivUnique(-v - 1, d, -(v / d) - 1, d - 1 - v % d);
  }

  /** The arithmetic right shift divides the signed number, rounding down. */
  lemma ShiftRightArithDivides(a: Word, n: Word)
    ensures Signed(ShiftRightArith(a, n)) == Signed(a) / Places(n)
  {
    assert WORDS == 0x1_0000_0000;
    assert Index(n) == ValueOf(Amount(n));
    var s := Amount(n);
    hide ValueOf, Down, Index, Pow2, HasTop, Comp, Amount;
    var r := ShiftRightArith(a, n);
    DownValue(a.b, s);
    DownValue(Comp(a.b), s);
    CompTop(a.b);
    if HasTop(a.b) {
      DownClearsTop(Comp(a.b), s);
      CompTop(Down(Comp(a.b), s));
      NotValue(a.b);
      NotValue(Down(Comp(a.b), s));
      FloorNegative(ValueOf(Comp(a.b)), Places(n));
    } else {
      DownClearsTop(a.b, s);
    }
  }

  function Double(b: bv32): bv32 { b << 1 }
  lemma UpFrom(a: bv32, s: bv32, t: bv32) requires 0 < s < 32 && t == s - 1 ensures Up(a, s) == Double(Up(a, t)) {}
  lemma UpZero(a: bv32) ensures Up(a, 0) == a {}
  lemma DoubleSplits(b: bv32) ensures Half(Double(b)) == Low31(b) && LowBit(Double(b)) == 0 {}

  lemma DoubleValue(b: bv32)
    ensures ValueOf(Double(b)) == 2 * ValueOf(b) % WORDS
  {
    hide *;
    ValueStep(Double(b));
    DoubleSplits(b);
    SplitValue(b);
    ValueBoundOf(Double(b));
    DropsTop(ValueOf(Low31(b)), ValueOf(b), HasTop(b));
  }
  lemma DropsTop(x: nat, y: nat, top: bool)
    requires y == x + (if top then 0x8000_0000 else 0) && 2 * x < 0x1_0000_0000
    ensures 2 * y % WORDS == 2 * x
  {}

  lemma DoubleMod(x: int)
    ensures 2 * (x % WORDS) % WORDS == 2 * x % WORDS
  {}

  lemma {:induction false} UpValue(a: bv32, s: bv32)
    requires s < 32
    ensures ValueOf(Up(a, s)) == ValueOf(a) * Pow2(ValueOf(s)) % WORDS
    decreases s
  {
    assert WORDS == 0x1_0000_0000;
    hide *;
    if s == 0 {
      UpZero(a);
      ZeroValue();
      Pow2Unfolds(0);
      ValueBoundOf(a);
    } else {
      ZeroOrPositive(s);
      PrevIs(s);
      UpFrom(a, s, Prev(s));
      UpValue(a, Prev(s));
      DoubleValue(Up(a, Prev(s)));
      ValueOfNext(Prev(s));
      Pow2Unfolds(ValueOf(s));
      DoubleMod(ValueOf(a) * Pow2(ValueOf(Prev(s))));
      Regroup(ValueOf(a), Pow2(ValueOf(Prev(s))));
    }
  }
  lemma Regroup(x: int, p: int) ensures 2 * (x * p) == x * (2 * p) {}

  /** The left shift multiplies, modulo 2^32. */
  lemma ShiftLeftMultiplies(a: Word, n: Word)
    ensures Value(ShiftLeft(a, n)) == Value(a) * Places(n) % WORDS
  {
    assert Index(n) == ValueOf(Amount(n));
    hide ValueOf, Up, Index, Pow2, Amount;
    UpValue(a.b, Amount(n));
  }

  // ------------------------------------------------------------------
  // Sign extension
  // ------------------------------------------------------------------

  function Byte8(v: Word): bv32 { Byte8Of(v.b) }
  function Half16(v: Word): bv32 { Half16Of(v.b) }

  lemma ExtendByte(b: bv32)
    requires b <= 0xFF
    ensures Extend(b, 0x80) == if b & 0x80 != 0 then Either(b, Comp(0xFF)) else b
  {}
  lemma ByteTop(v: Word)
    ensures Disjoint(Byte8(v), Comp(0xFF)) && HasTop(Either(Byte8(v), Comp(0xFF))) && !HasTop(Byte8(v))
  {}
  lemma ExtendHalfSet(b: bv32) requires b & 0x8000 != 0 && b <= 0xFFFF ensures Extend(b, 0x8000) == b | 0xFFFF_0000 {}
  lemma ExtendHalfClear(b: bv32) requires b & 0x8000 == 0 && b <= 0xFFFF ensures Extend(b, 0x8000) == b {}
  lemma HalfFills(b: bv32) ensures b | 0xFFFF_0000 == Either(b, Comp(0xFFFF)) {}
  lemma ExtendHalf(b: bv32)
    requires b <= 0xFFFF
    ensures Extend(b, 0x8000) == if b & 0x8000 != 0 then Either(b, Comp(0xFFFF)) else b
  {
    hide Either, Comp, Extend;
    HalfFills(b);
    if b & 0x8000 != 0 { ExtendHalfSet(b); } else { ExtendHalfClear(b); }
  }
  lemma FieldSigns(v: Word)
    ensures Byte8(v) <= 0xFF && (Byte8(v) & 0x80 != 0 <==> Bit(v, 0x80))
    ensures Half16(v) <= 0xFFFF && (Half16(v) & 0x8000 != 0 <==> Bit(v, 0x8000))
  {}
  lemma HalfTop(v: Word)
    ensures Disjoint(Half16(v), Comp(0xFFFF)) && HasTop(Either(Half16(v), Comp(0xFFFF))) && !HasTop(Half16(v))
  {}

  lemma OnesNibble(b: bv32)
    requires b & 0xF == 0xF
    ensures ValueOf(b) == 16 * ValueOf(Nibble(b)) + 15
  {
    var b1, b2, b3 := Half(b), Half(Half(b)), Half(Half(Half(b)));
    assert LowBit(b) == 1 && LowBit(b1) == 1 && LowBit(b2) == 1 && LowBit(b3) == 1;
    hide ValueOf, LowBit, Half;
    ValueStep(b);
    ValueStep(b1);
    ValueStep(b2);
    ValueStep(b3);
  }
  lemma MaskNibbles() ensures Nibble(0xFFFF) == 0xFFF && Nibble(0xFFF) == 0xFF && Nibble(0xFF) == 0xF && Nibble(0xF) == 0 {}
  lemma MaskValues()
    ensures ValueOf(0xFF) == 0xFF && ValueOf(0xFFFF) == 0xFFFF
  {
    hide *;
    MaskNibbles();
    ZeroValue();
    OnesNibble(0xF);
    OnesNibble(0xFF);
    OnesNibble(0xFFF);
    OnesNibble(0xFFFF);
  }

  /** A word whose bits outside a mask repeat a sign denotes the field minus the field's range, or the field itself. */
  lemma ExtendedValue(w: Word, field: bv32, mask: bv32, negative: bool)
    requires w.b == (if negative then Either(field, Comp(mask)) else field)
    requires Disjoint(field, Comp(mask)) && HasTop(Either(field, Comp(mask))) && !HasTop(field)
    ensures Signed(w) == ValueOf(field) - if negative then ValueOf(mask) + 1 else 0
  {
    assert WORDS == 0x1_0000_0000;
    hide *;
    SignedIs(w);
    NotValue(mask);
    EitherValue(field, Comp(mask));
  }

  // ------------------------------------------------------------------
  // The executors
  // ------------------------------------------------------------------

  function Min(x: int, y: int): int { if x < y then x else y }
  function Max(x: int, y: int): int { if x < y then y else x }

  /** The comparisons and shifts of the base ISA, on numbers. */
  lemma AluMeaning(op: I.InstrType, a: Word, b: Word)
    ensures var r := I.Alu(op, a, b);
      match op
      case SLT | SLTI => r == W(if Signed(a) < Signed(b) then 1 else 0)
      case SLTU | SLTIU => r == W(if Value(a) < Value(b) then 1 else 0)
      case SLL | SLLI => Value(r) == Value(a) * Places(b) % WORDS
      case SRL | SRLI => Value(r) == Value(a) / Places(b)
      case SRA | SRAI => Signed(r) == Signed(a) / Places(b)
      case _ => true
  {
    hide Value, Signed, Less, SignedLess, ShiftLeft, ShiftRight, ShiftRightArith, Places, Add, Sub, Xor, Or, And;
    Comparisons(a, b);
    ShiftLeftMultiplies(a, b);
    ShiftRightDivides(a, b);
    ShiftRightArithDivides(a, b);
  }

  /** A branch is taken exactly when its comparison of numbers holds. */
  lemma BranchMeaning(op: I.InstrType, a: Word, b: Word)
    requires I.IsBranch(op)
    ensures I.BranchTaken(op, a, b) <==>
      match op
      case BEQ => Value(a) == Value(b)
      case BNE => Value(a) != Value(b)
      case BLT => Signed(a) < Signed(b)
      case BGE => Signed(a) >= Signed(b)
      case BLTU => Value(a) < Value(b)
      case _ => Value(a) >= Value(b)
  {
    hide ValueOf, Signed, Less, SignedLess;
    Comparisons(a, b);
    if Value(a) == Value(b) { ValueDetermines(a.b, b.b); }
  }

  /** LB and LH yield the two's complement number held by the byte or halfword, LBU and LHU the unsigned one. */
  lemma LoadMeaning(v: Word)
    ensures Signed(I.ExtendLoaded(I.LB, v)) == ValueOf(Byte8(v)) - (if Bit(v, 0x80) then 0x100 else 0)
    ensures Signed(I.ExtendLoaded(I.LH, v)) == ValueOf(Half16(v)) - (if Bit(v, 0x8000) then 0x1_0000 else 0)
    ensures Value(I.ExtendLoaded(I.LBU, v)) == ValueOf(Byte8(v)) && Value(I.ExtendLoaded(I.LHU, v)) == ValueOf(Half16(v))
  {
    LoadedFields(v);
    hide ValueOf, Signed, Extend, Byte8, Half16, Bit, HasTop, Disjoint, Either, Comp, I.ExtendLoaded;
    MaskValues();
    FieldSigns(v);
    ExtendByte(Byte8(v));
    ByteTop(v);
    ExtendedValue(I.ExtendLoaded(I.LB, v), Byte8(v), 0xFF, Bit(v, 0x80));
    ExtendHalf(Half16(v));
    HalfTop(v);
    ExtendedValue(I.ExtendLoaded(I.LH, v), Half16(v), 0xFFFF, Bit(v, 0x8000));
  }
  lemma LoadedFields(v: Word)
    ensures I.ExtendLoaded(I.LB, v).b == Extend(Byte8(v), 0x80) && I.ExtendLoaded(I.LH, v).b == Extend(Half16(v), 0x8000)
    ensures I.ExtendLoaded(I.LBU, v).b == Byte8(v) && I.ExtendLoaded(I.LHU, v).b == Half16(v)
  {
    hide Extend, Byte8Of, Half16Of;
  }

  /** The minima and maxima of Zbb and of the AMOs, on numbers. */
  lemma MinMaxMeaning(a: Word, b: Word)
    ensures Signed(Zbb.Compute(Zbb.MIN, a, b)) == Signed(A.AmoValue(A.AMOMIN_W, a, b)) == Min(Signed(a), Signed(b))
    ensures Signed(Zbb.Compute(Zbb.MAX, a, b)) == Signed(A.AmoValue(A.AMOMAX_W, a, b)) == Max(Signed(a), Signed(b))
    ensures Value(Zbb.Compute(Zbb.MINU, a, b)) == Value(A.AmoValue(A.AMOMINU_W, a, b)) == Min(Value(a), Value(b))
    ensures Value(Zbb.Compute(Zbb.MAXU, a, b)) == Value(A.AmoValue(A.AMOMAXU_W, a, b)) == Max(Value(a), Value(b))
  {
    hide ValueOf, Signed, Less, SignedLess;
    Comparisons(a, b);
    Comparisons(b, a);
  }
}
