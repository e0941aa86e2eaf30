/** Fields of a word as numbers. */
module Fields {
  import opened Bits
  import opened Integers

  lemma SmallPlaces()
    ensures Pow2(ValueOf(5)) == 32 && Pow2(ValueOf(8)) == 256 && Pow2(ValueOf(16)) == 0x1_0000 && Pow2(ValueOf(24)) == 0x100_0000
  {
    assert Half(24) == 12 && Half(12) == 6 && Half(6) == 3 && Half(3) == 1 && Half(16) == 8 && Half(8) == 4 && Half(4) == 2 && Half(2) == 1;
    assert Half(5) == 2 && Half(1) == 0 && LowBit(5) == LowBit(3) == LowBit(1) == 1;
    assert LowBit(24) == LowBit(12) == LowBit(6) == LowBit(16) == LowBit(8) == LowBit(4) == LowBit(2) == 0;
    assert Pow2(5) == 32;
    assert Pow2(8) == 256;
    assert Pow2(12) == 0x1000;
    assert Pow2(16) == 0x1_0000;
    assert Pow2(20) == 0x10_0000;
    assert Pow2(24) == 0x100_0000;
    hide *;
    ZeroValue();
    ValueStep(1); ValueStep(2); ValueStep(3); ValueStep(4); ValueStep(5); ValueStep(6);
    ValueStep(8); ValueStep(12); ValueStep(16); ValueStep(24);
  }

  /** The bits below position s denote the remainder by 2^s. */
  lemma LowField(b: bv32, low: bv32, s: bv32)
    requires s < 32 && b == Either(low, Up(Down(b, s), s)) && Disjoint(low, Up(Down(b, s), s))
    ensures Pow2(ValueOf(s)) > 0 && ValueOf(low) == ValueOf(b) % Pow2(ValueOf(s))
  {
    assert WORDS == 0x1_0000_0000;
    hide *;
    var p := Pow2(ValueOf(s));
    DownValue(b, s);
    UpValue(Down(b, s), s);
    EitherValue(low, Up(Down(b, s), s));
    ValueBoundOf(b);
    Quotient(ValueOf(b), p);
  }
  lemma Quotient(x: nat, p: nat)
    requires p > 0 && x < 0x1_0000_0000
    ensures x / p * p % 0x1_0000_0000 == x / p * p && x % p == x - x / p * p
  {
    assert x == x / p * p + x % p;
    assert x / p * p >= 0;
  }

  lemma ByteSplits(b: bv32)
    ensures b == Either(Byte8Of(b), Up(Down(b, 8), 8)) && Disjoint(Byte8Of(b), Up(Down(b, 8), 8))
  {}
  lemma HalfSplits(b: bv32)
    ensures b == Either(Half16Of(b), Up(Down(b, 16), 16)) && Disjoint(Half16Of(b), Up(Down(b, 16), 16))
  {}
  lemma ByteField(b: bv32)
    ensures ValueOf(Byte8Of(b)) == ValueOf(b) % 256
  {
    hide *;
    ByteSplits(b);
    SmallPlaces();
    LowField(b, Byte8Of(b), 8);
  }
  lemma HalfField(b: bv32)
    ensures ValueOf(Half16Of(b)) == ValueOf(b) % 0x1_0000
  {
    hide *;
    HalfSplits(b);
    SmallPlaces();
    LowField(b, Half16Of(b), 16);
  }
}

/** Memory accesses as little-endian numbers. */
module MemoryMeaning {
  import opened Bits
  import opened BitNumbers
  import opened Common
  import opened Fields
  import opened Integers
  import I = Rv32i

  function ByteValue(b: Byte): nat { ValueOf(Wide(b)) }

  /** The number a sequence of bytes holds, least significant byte first. */
  function Little(bytes: seq<Byte>): nat {
    if bytes == [] then 0 else ByteValue(bytes[0]) + 256 * Little(bytes[1..])
  }

  lemma WideIsByte(b: Byte) ensures Byte8Of(Wide(b)) == Wide(b) {}
  lemma ByteBound(b: Byte)
    ensures ByteValue(b) < 256
  {
    assert ByteValue(b) == ValueOf(Wide(b));
    hide *;
    WideIsByte(b);
    ByteField(Wide(b));
  }

  lemma UpDisjoint(a: Byte, b: Byte) ensures Disjoint(Wide(a), Up(Wide(b), 8)) {}
  lemma ThirdDisjoint(a: Byte, b: Byte, c: Byte) ensures Disjoint(Either(Wide(a), Up(Wide(b), 8)), Up(Wide(c), 16)) {}
  lemma FourthDisjoint(a: Byte, b: Byte, c: Byte, d: Byte)
    ensures Disjoint(Either(Either(Wide(a), Up(Wide(b), 8)), Up(Wide(c), 16)), Up(Wide(d), 24))
  {}
  lemma UpByte(b: Byte, s: bv32, p: nat)
    requires s < 32 && Pow2(ValueOf(s)) == p && p <= 0x100_0000
    ensures ValueOf(Up(Wide(b), s)) == p * ByteValue(b)
  {
    assert WORDS == 0x1_0000_0000;
    assert ByteValue(b) == ValueOf(Wide(b)) by { hide ValueOf; }
    hide *;
    ByteBound(b);
    UpValue(Wide(b), s);
    SmallProduct(ByteValue(b), p);
  }
  lemma SmallProduct(x: nat, p: nat)
    requires x < 256 && p <= 0x100_0000
    ensures x * p % 0x1_0000_0000 == p * x
  {
    Commutes(x, p);
    MulMonotone(0x100_0000, x, 255);
    Bounded(p, x);
    Unwrapped(p * x);
  }
  lemma Commutes(x: nat, p: nat) ensures x * p == p * x {}
  lemma Bounded(p: nat, x: nat) requires p <= 0x100_0000 ensures 0 <= p * x <= 0x100_0000 * x {}
  lemma Unwrapped(n: nat) requires n < 0x1_0000_0000 ensures n % 0x1_0000_0000 == n {}
  lemma UpByteValue(b: Byte)
    ensures ValueOf(Up(Wide(b), 8)) == 256 * ByteValue(b)
    ensures ValueOf(Up(Wide(b), 16)) == 0x1_0000 * ByteValue(b)
    ensures ValueOf(Up(Wide(b), 24)) == 0x100_0000 * ByteValue(b)
  {
    hide *;
    SmallPlaces();
    UpByte(b, 8, 0x100);
    UpByte(b, 16, 0x1_0000);
    UpByte(b, 24, 0x100_0000);
  }

  lemma JoinsOne(b0: Byte) ensures Value(Join1(b0)) == ByteValue(b0) { hide ValueOf, Wide; }
  lemma LittleOne(bytes: seq<Byte>)
    requires |bytes| == 1
    ensures Little(bytes) == ByteValue(bytes[0])
  {
    hide ByteValue;
    var rest := bytes[1..];
    assert rest == [];
    assert Little(rest) == 0;
  }
  lemma Join1Value(b0: Byte)
    ensures Value(Join1(b0)) == Little([b0])
  {
    hide *;
    JoinsOne(b0);
    assert Value(Join1(b0)) == ByteValue(b0);
    LittleOne([b0]);
    assert [b0][0] == b0;
    assert Little([b0]) == ByteValue(b0);
  }
  lemma Little2(b0: Byte, b1: Byte)
    ensures Little([b0, b1]) == ByteValue(b0) + 256 * ByteValue(b1)
  {
    hide *;
    LittleStep([b0, b1]);
    assert [b0, b1][1..] == [b1];
    LittleOne([b1]);
  }
  lemma Little4(b0: Byte, b1: Byte, b2: Byte, b3: Byte)
    ensures Little([b0, b1, b2, b3]) == ByteValue(b0) + 256 * ByteValue(b1) + 0x1_0000 * ByteValue(b2) + 0x100_0000 * ByteValue(b3)
  {
    assert [b0, b1, b2, b3][1..] == [b1, b2, b3];
    assert [b1, b2, b3][1..] == [b2, b3];
    hide ByteValue;
    Little2(b2, b3);
    hide Little;
    LittleStep([b0, b1, b2, b3]);
    LittleStep([b1, b2, b3]);
  }
  lemma LittleStep(bytes: seq<Byte>)
    requires bytes != []
    ensures Little(bytes) == ByteValue(bytes[0]) + 256 * Little(bytes[1..])
  {
    hide ByteValue;
  }
  lemma Join2Value(b0: Byte, b1: Byte)
    ensures Value(Join2(b0, b1)) == Little([b0, b1])
  {
    assert Value(Join2(b0, b1)) == ValueOf(Either(Wide(b0), Up(Wide(b1), 8))) by { hide ValueOf, Either, Up; }
    assert ByteValue(b0) == ValueOf(Wide(b0)) by { hide ValueOf; }
    hide *;
    Little2(b0, b1);
    UpByteValue(b1);
    UpDisjoint(b0, b1);
    EitherValue(Wide(b0), Up(Wide(b1), 8));
  }
  lemma Join4Is(b0: Byte, b1: Byte, b2: Byte, b3: Byte)
    ensures Value(Join4(b0, b1, b2, b3)) == ValueOf(Either(Either(Either(Wide(b0), Up(Wide(b1), 8)), Up(Wide(b2), 16)), Up(Wide(b3), 24)))
  {
    hide ValueOf, Either, Up, Wide;
  }
  lemma Join4Value(b0: Byte, b1: Byte, b2: Byte, b3: Byte)
    ensures Value(Join4(b0, b1, b2, b3)) == Little([b0, b1, b2, b3])
  {
    assert ByteValue(b0) == ValueOf(Wide(b0)) by { hide ValueOf; }
    hide *;
    Join4Is(b0, b1, b2, b3);
    Little4(b0, b1, b2, b3);
    UpByteValue(b1);
    UpByteValue(b2);
    UpByteValue(b3);
    UpDisjoint(b0, b1);
    ThirdDisjoint(b0, b1, b2);
    FourthDisjoint(b0, b1, b2, b3);
    var low := Either(Wide(b0), Up(Wide(b1), 8));
    EitherValue(Wide(b0), Up(Wide(b1), 8));
    EitherValue(low, Up(Wide(b2), 16));
    EitherValue(Either(low, Up(Wide(b2), 16)), Up(Wide(b3), 24));
  }

  lemma Lanes1(w: Word) ensures Join1(Lane0(w)) == W(Byte8Of(w.b)) {}
  lemma Lanes2(w: Word) ensures Join2(Lane0(w), Lane1(w)) == W(Half16Of(w.b)) {}
  lemma Lanes4(w: Word) ensures Join4(Lane0(w), Lane1(w), Lane2(w), Lane3(w)) == w {}

  // ------------------------------------------------------------------
  // Accesses
  // ------------------------------------------------------------------

  function Bytes(size: Size): nat { match size case S1 => 1 case S2 => 2 case S4 => 4 }

  /** The n bytes from addr lie in memory. */
  predicate Fits(m: Mem, addr: Word, n: nat) {
    Value(m.base) <= Value(addr) && Value(addr) + n <= Value(m.base) + |m.bytes|
  }
  /** The bytes of memory from addr. */
  function At(m: Mem, addr: Word, n: nat): seq<Byte>
    requires Fits(m, addr, n)
  {
    hide ValueOf;
    m.bytes[Value(addr) - Value(m.base)..Value(addr) - Value(m.base) + n]
  }

  lemma ReadIs(m: Mem, addr: Word, size: Size)
    ensures ReadSized(m, addr, size).Some? == Fits(m, addr, Bytes(size))
    ensures Fits(m, addr, Bytes(size)) ==> Value(ReadSized(m, addr, size).value) == Little(At(m, addr, Bytes(size)))
  {
    hide ValueOf, Join1, Join2, Join4, Little;
    if Fits(m, addr, Bytes(size)) {
      var o := Value(addr) - Value(m.base);
      assert Offset(addr, m.base) == o;
      match size {
        case S1 =>
          assert At(m, addr, 1) == [m.bytes[o]];
          Join1Value(m.bytes[o]);
        case S2 =>
          assert At(m, addr, 2) == [m.bytes[o], m.bytes[o + 1]];
          Join2Value(m.bytes[o], m.bytes[o + 1]);
        case S4 =>
          assert At(m, addr, 4) == [m.bytes[o], m.bytes[o + 1], m.bytes[o + 2], m.bytes[o + 3]];
          Join4Value(m.bytes[o], m.bytes[o + 1], m.bytes[o + 2], m.bytes[o + 3]);
      }
    }
  }

  /** m' is m with the low n bytes of v at addr, and no other byte changed. */
  ghost predicate Wrote(m: Mem, addr: Word, n: nat, v: Word, m': Mem)
    requires Fits(m, addr, n)
  {
    hide ValueOf;
    var o := Value(addr) - Value(m.base);
    m'.base == m.base && |m'.bytes| == |m.bytes| &&
    Little(At(m', addr, n)) == Value(v) % Power256(n) &&
    forall i :: 0 <= i < |m.bytes| && !(o <= i < o + n) ==> m'.bytes[i] == m.bytes[i]
  }
  function Power256(n: nat): (p: nat) ensures p > 0 { if n == 1 then 0x100 else if n == 2 then 0x1_0000 else 0x1_0000_0000 }

  lemma LanesValue(v: Word)
    ensures Little([Lane0(v)]) == Value(v) % 0x100
    ensures Little([Lane0(v), Lane1(v)]) == Value(v) % 0x1_0000
    ensures Little([Lane0(v), Lane1(v), Lane2(v), Lane3(v)]) == Value(v)
  {
    assert forall b :: Value(W(b)) == ValueOf(b) by { hide ValueOf; }
    assert Value(v) == ValueOf(v.b) by { hide ValueOf; }
    hide *;
    Join1Value(Lane0(v));
    Join2Value(Lane0(v), Lane1(v));
    Join4Value(Lane0(v), Lane1(v), Lane2(v), Lane3(v));
    Lanes1(v);
    Lanes2(v);
    Lanes4(v);
    ByteField(v.b);
    HalfField(v.b);
  }

  lemma Write8Is(m: Mem, addr: Word, v: Word)
    requires Fits(m, addr, 1)
    ensures Write8(m, addr, v).Some? && Wrote(m, addr, 1, v, Write8(m, addr, v).value)
  {
    hide ValueOf, Lane0, Little;
    LanesValue(v);
    assert At(Write8(m, addr, v).value, addr, 1) == [Lane0(v)];
  }
  lemma Write16Is(m: Mem, addr: Word, v: Word)
    requires Fits(m, addr, 2)
    ensures Write16(m, addr, v).Some? && Wrote(m, addr, 2, v, Write16(m, addr, v).value)
  {
    hide ValueOf, Lane0, Lane1, Little;
    LanesValue(v);
    assert At(Write16(m, addr, v).value, addr, 2) == [Lane0(v), Lane1(v)];
  }
  lemma Write32Is(m: Mem, addr: Word, v: Word)
    requires Fits(m, addr, 4)
    ensures Write32(m, addr, v).Some? && Wrote(m, addr, 4, v, Write32(m, addr, v).value)
  {
    hide ValueOf, Lane0, Lane1, Lane2, Lane3, Little;
    LanesValue(v);
    ValueBound(v);
    assert At(Write32(m, addr, v).value, addr, 4) == [Lane0(v), Lane1(v), Lane2(v), Lane3(v)];
  }
  lemma WriteIs(m: Mem, addr: Word, size: Size, v: Word)
    ensures WriteSized(m, addr, size, v).Some? == Fits(m, addr, Bytes(size))
    ensures Fits(m, addr, Bytes(size)) ==> Wrote(m, addr, Bytes(size), v, WriteSized(m, addr, size, v).value)
  {
    if Fits(m, addr, Bytes(size)) {
      hide *;
      assert Bytes(size) == (match size case S1 => 1 case S2 => 2 case S4 => 4) by { BytesIs(size); }
      WriteSizedIs(m, addr, size, v);
      match size {
        case S1 => Write8Is(m, addr, v);
        case S2 => Write16Is(m, addr, v);
        case S4 => Write32Is(m, addr, v);
      }
    } else {
      hide ValueOf, Lane0, Lane1, Lane2, Lane3;
    }
  }
  lemma BytesIs(size: Size) ensures Bytes(size) == match size case S1 => 1 case S2 => 2 case S4 => 4 {}
  lemma WriteSizedIs(m: Mem, addr: Word, size: Size, v: Word)
    ensures WriteSized(m, addr, size, v) == match size case S1 => Write8(m, addr, v) case S2 => Write16(m, addr, v) case S4 => Write32(m, addr, v)
  {
    hide Write8, Write16, Write32;
  }

  lemma EvenBit(b: bv32) ensures Meets(b, 1) <==> LowBit(b) == 1 {}
  lemma WordBits(b: bv32) ensures Meets(b, 3) <==> LowBit(b) == 1 || LowBit(Half(b)) == 1 {}
  lemma MisalignedIs(addr: Word, size: Size)
    ensures Misaligned(addr, size) == (Value(addr) % Bytes(size) != 0)
  {
    EvenBit(addr.b);
    WordBits(addr.b);
    hide ValueOf, Meets, LowBit, Half;
    ValueStep(addr.b);
    ValueStep(Half(addr.b));
    LowIsBit(addr.b);
    LowIsBit(Half(addr.b));
  }

  /** A load faults on a misaligned address unless misaligned accesses are allowed, then on one out of bounds. */
  ghost predicate LoadOutcome(m: Mem, addr: Word, n: nat, allow: bool, r: LoadResult)
    requires n > 0
  {
    hide ValueOf, Little;
    if !allow && Value(addr) % n != 0 then r == LoadFault(W(4))
    else if !Fits(m, addr, n) then r == LoadFault(W(5))
    else r.Loaded? && Value(r.value) == Little(At(m, addr, n))
  }
  lemma LoadIs(m: Mem, addr: Word, size: Size, allow: bool)
    ensures LoadOutcome(m, addr, Bytes(size), allow, Load(m, addr, size, allow))
  {
    hide ValueOf, Little, ReadSized, Misaligned, Fits;
    MisalignedIs(addr, size);
    ReadIs(m, addr, size);
  }
  ghost predicate StoreOutcome(m: Mem, addr: Word, n: nat, v: Word, allow: bool, r: StoreResult)
    requires n > 0
  {
    hide ValueOf;
    if !allow && Value(addr) % n != 0 then r == StoreFault(W(6))
    else if !Fits(m, addr, n) then r == StoreFault(W(7))
    else r.Stored? && Wrote(m, addr, n, v, r.mem)
  }
  lemma StoreIs(m: Mem, addr: Word, size: Size, v: Word, allow: bool)
    ensures StoreOutcome(m, addr, Bytes(size), v, allow, Store(m, addr, size, v, allow))
  {
    hide ValueOf, WriteSized, Misaligned, Fits, Wrote;
    MisalignedIs(addr, size);
    WriteIs(m, addr, size, v);
  }
}
