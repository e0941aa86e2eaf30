/** What a fetch yields, as a little-endian number. */
module FetchMeaning {
  import opened Bits
  import opened Common
  import opened Fields
  import opened Hart
  import opened Integers
  import opened MemoryMeaning

  lemma LongBits(w: Word) ensures Is32Bit(w) <==> LowBit(w.b) == 1 && LowBit(Half(w.b)) == 1 {}
  lemma NumberIs(w: Word) ensures Value(w) == ValueOf(w.b) { hide ValueOf; }
  lemma LongIs(w: Word)
    ensures Is32Bit(w) == (Value(w) % 4 == 3)
  {
    hide *;
    LongBits(w);
    NumberIs(w);
    ValueStep(w.b);
    ValueStep(Half(w.b));
    LowIsBit(w.b);
    LowIsBit(Half(w.b));
  }
  lemma JoinIs(lo: Word, hi: Word) ensures JoinParcels(lo, hi).b == Either(lo.b, Up(hi.b, 16)) { hide Either, Up; }
  lemma NarrowDisjoint(lo: bv32, hi: bv32) requires Half16Of(lo) == lo ensures Disjoint(lo, Up(hi, 16)) {}
  lemma NarrowIs(w: Word)
    requires Value(w) < 0x1_0000
    ensures Half16Of(w.b) == w.b
  {
    hide *;
    NumberIs(w);
    HalfField(w.b);
    ValueDetermines(Half16Of(w.b), w.b);
  }
  lemma UpHalf(b: bv32)
    requires ValueOf(b) < 0x1_0000
    ensures ValueOf(Up(b, 16)) == 0x1_0000 * ValueOf(b)
  {
    assert WORDS == 0x1_0000_0000;
    hide *;
    SmallPlaces();
    UpValue(b, 16);
    Unscaled(ValueOf(b), Pow2(ValueOf(16)));
  }
  lemma Unscaled(x: nat, p: nat)
    requires x < 0x1_0000 && p == 0x1_0000
    ensures x * p % 0x1_0000_0000 == 0x1_0000 * x
  {}
  lemma JoinedValue(lo: Word, hi: Word)
    requires Value(lo) < 0x1_0000 && Value(hi) < 0x1_0000
    ensures Value(JoinParcels(lo, hi)) == Value(lo) + 0x1_0000 * Value(hi)
  {
    hide *;
    NumberIs(lo);
    NumberIs(hi);
    NumberIs(JoinParcels(lo, hi));
    JoinIs(lo, hi);
    NarrowIs(lo);
    NarrowDisjoint(lo.b, hi.b);
    EitherValue(lo.b, Up(hi.b, 16));
    UpHalf(hi.b);
  }
  lemma TwoBytes(bytes: seq<Byte>)
    requires |bytes| == 2
    ensures Little(bytes) < 0x1_0000
  {
    hide *;
    assert bytes == [bytes[0], bytes[1]];
    Little2(bytes[0], bytes[1]);
    ByteBound(bytes[0]);
    ByteBound(bytes[1]);
  }
  lemma ReadHalfIs(m: Mem, addr: Word)
    ensures Read16(m, addr).Some? == Fits(m, addr, 2)
    ensures Fits(m, addr, 2) ==> Value(Read16(m, addr).value) == Little(At(m, addr, 2)) && Little(At(m, addr, 2)) < 0x1_0000
  {
    ReadIs(m, addr, S2);
    if Fits(m, addr, 2) { TwoBytes(At(m, addr, 2)); }
    hide ValueOf, Little, Read16;
  }

  /**
   * A fetch reads the halfword at pc, and the next one if the first ends in binary 11; it yields their number, or the address of
   * the halfword that lies outside memory.
   */
  ghost predicate FetchOutcome(m: Mem, pc: Word, f: Fetched) {
    hide ValueOf, Little;
    var next := Add(pc, W(2));
    if !Fits(m, pc, 2) then f == FetchFault(pc)
    else if Little(At(m, pc, 2)) % 4 != 3 then f.Instruction? && Value(f.i) == Little(At(m, pc, 2))
    else if !Fits(m, next, 2) then f == FetchFault(next)
    else f.Instruction? && Value(f.i) == Little(At(m, pc, 2)) + 0x1_0000 * Little(At(m, next, 2))
  }
  lemma FetchIs(m: Mem, pc: Word)
    ensures FetchOutcome(m, pc, Fetch(m, pc))
  {
    hide ValueOf, Little, Read16, Is32Bit, JoinParcels, Fits, Add;
    var next := Add(pc, W(2));
    ReadHalfIs(m, pc);
    ReadHalfIs(m, next);
    if Fits(m, pc, 2) {
      LongIs(Read16(m, pc).value);
      if Fits(m, next, 2) { JoinedValue(Read16(m, pc).value, Read16(m, next).value); }
    }
  }
}
