/** Programs in memory: a loaded word is fetched back as it was, so fetching and injecting it are the same step. */
module Loading {
  import opened Bits
  import opened Common
  import opened Hart
  import F = Rv32f

  // ------------------------------------------------------------------
  // Addresses as numbers
  // ------------------------------------------------------------------

  function PlusTwo(a: bv32): bv32 { a + 2 }

  lemma PlusTwoHalf(a: bv32) requires PlusTwo(a) >= 2 ensures Half(PlusTwo(a)) == Next(Half(a)) && Next(Half(a)) != 0 {}
  lemma PlusTwoLow(a: bv32) ensures LowBit(PlusTwo(a)) == LowBit(a) {}
  lemma PlusTwoWraps(a: bv32) requires PlusTwo(a) < 2 ensures Next(a) == 0 || (Next(a) == 0xFFFF_FFFF && Next(Next(a)) == 0) {}

  lemma PlusTwoValue(a: bv32)
    requires ValueOf(a) + 2 < 0x1_0000_0000
    ensures ValueOf(PlusTwo(a)) == ValueOf(a) + 2
  {
    hide *;
    if PlusTwo(a) < 2 {
      PlusTwoWraps(a);
      if Next(a) == 0 {
        WrapValue(a);
      } else {
        ValueOfNext(a);
        WrapValue(Next(a));
      }
    }
    PlusTwoHalf(a);
    PlusTwoLow(a);
    ValueStep(a);
    ValueStep(PlusTwo(a));
    ValueOfNext(Half(a));
  }

  /** The number n as an address, truncated to 32 bits. */
  function AddressOf(n: nat): Word { FromNat(n % 0x1_0000_0000) }

  lemma AddressValue(n: nat)
    requires n < 0x1_0000_0000
    ensures Value(AddressOf(n)) == n
  {
    hide ValueOf, PatternOf;
    PatternValue(n);
  }

  lemma AddressPlusTwo(n: nat)
    requires n + 2 < 0x1_0000_0000
    ensures Value(Add(AddressOf(n), W(2))) == n + 2
  {
    AddressValue(n);
    assert Add(AddressOf(n), W(2)).b == PlusTwo(AddressOf(n).b);
    hide ValueOf, PatternOf, PlusTwo, Add, AddressOf;
    PlusTwoValue(AddressOf(n).b);
  }

  /** The bytes [addr, addr + n) lie in a memory that does not extend past the address space. */
  predicate Holds(m: Mem, addr: Word, n: nat) {
    Value(m.base) <= Value(addr) && Value(addr) + n <= Value(m.base) + |m.bytes| <= 0x1_0000_0000
  }

  function Start(m: Mem, addr: Word): int { Value(addr) - Value(m.base) }

  lemma HeldInBounds(m: Mem, addr: Word, a: Word, at: nat, size: nat, n: nat)
    requires Holds(m, addr, n) && at + size <= n && Value(a) == Value(addr) + at
    ensures InBounds(m, a, size) && Offset(a, m.base) == Start(m, addr) + at
  {
    hide Value;
  }

  // ------------------------------------------------------------------
  // Loading
  // ------------------------------------------------------------------

  // addr + i * 4 is computed in 64 bits and truncated by the call.
  function WordAddress(addr: Word, k: nat): Word { AddressOf(Value(addr) + 4 * k) }

  /** Memory after load_program has written the words in order, or None if a write leaves the memory. */
  function LoadWords(m: Mem, addr: Word, program: seq<Word>): Option<Mem> {
    hide Write32, WordAddress;
    if program == [] then Some(m)
    else
      var k := |program| - 1;
      match LoadWords(m, addr, program[..k])
      case None => None
      case Some(m') => Write32(m', WordAddress(addr, k), program[k])
  }

  /** The four bytes from offset o are those of w. */
  predicate HoldsWord(bytes: seq<Byte>, o: int, w: Word) {
    0 <= o && o + 4 <= |bytes| && bytes[o] == Lane0(w) && bytes[o + 1] == Lane1(w) && bytes[o + 2] == Lane2(w) && bytes[o + 3] == Lane3(w)
  }

  lemma WriteHolds(m: Mem, a: Word, w: Word, o: nat)
    requires InBounds(m, a, 4) && Offset(a, m.base) == o
    ensures Write32(m, a, w).Some?
    ensures var m' := Write32(m, a, w).value;
      m'.base == m.base && |m'.bytes| == |m.bytes| && HoldsWord(m'.bytes, o, w) &&
      forall i :: 0 <= i < |m.bytes| && !(o <= i < o + 4) ==> m'.bytes[i] == m.bytes[i]
  {
    hide Offset, Less, Lane0, Lane1, Lane2, Lane3;
  }

  /** Every word of the program is in memory, and no byte outside the program has changed. */
  lemma {:induction false} LoadedWords(m: Mem, addr: Word, program: seq<Word>)
    requires Holds(m, addr, 4 * |program|)
    ensures LoadWords(m, addr, program).Some?
    ensures var m' := LoadWords(m, addr, program).value;
      m'.base == m.base && |m'.bytes| == |m.bytes| &&
      (forall k :: 0 <= k < |program| ==> HoldsWord(m'.bytes, Start(m, addr) + 4 * k, program[k])) &&
      (forall i :: 0 <= i < |m.bytes| && !(Start(m, addr) <= i < Start(m, addr) + 4 * |program|) ==> m'.bytes[i] == m.bytes[i])
  {
    hide Value, Write32, InBounds, Offset, AddressOf, Lane0, Lane1, Lane2, Lane3;
    if program != [] {
      var k := |program| - 1;
      LoadedWords(m, addr, program[..k]);
      var m1 := LoadWords(m, addr, program[..k]).value;
      AddressValue(Value(addr) + 4 * k);
      HeldInBounds(m1, addr, WordAddress(addr, k), 4 * k, 4, 4 * |program|);
      WriteHolds(m1, WordAddress(addr, k), program[k], Start(m, addr) + 4 * k);
      var m' := Write32(m1, WordAddress(addr, k), program[k]).value;
      forall j | 0 <= j < |program| ensures HoldsWord(m'.bytes, Start(m, addr) + 4 * j, program[j]) {
        if j < k {
          assert program[..k][j] == program[j];
          assert HoldsWord(m1.bytes, Start(m, addr) + 4 * j, program[j]);
        }
      }
    }
  }

  // ------------------------------------------------------------------
  // Fetching
  // ------------------------------------------------------------------

  function LowHalf(w: Word): Word { Join2(Lane0(w), Lane1(w)) }
  function HighHalf(w: Word): Word { Join2(Lane2(w), Lane3(w)) }

  lemma LowHalfIs(w: Word) ensures LowHalf(w) == Parcel(w) && Is32Bit(LowHalf(w)) == Is32Bit(w) {}
  lemma HalvesJoin(w: Word) ensures JoinParcels(LowHalf(w), HighHalf(w)) == w {}
  /** The word a fetch at this address yields when w is stored there. */
  function FetchedWord(w: Word): Word {
    hide Parcel;
    if Is32Bit(w) then w else Parcel(w)
  }

  lemma FetchesHeld(m: Mem, addr: Word, at: nat, w: Word, n: nat)
    requires Holds(m, addr, n) && at + 4 <= n && HoldsWord(m.bytes, Start(m, addr) + at, w)
    ensures Fetch(m, AddressOf(Value(addr) + at)) == Instruction(FetchedWord(w))
  {
    hide Value, AddressOf, Offset, Less, Is32Bit, Parcel, JoinParcels, Join2, Lane0, Lane1, Lane2, Lane3, Add, Start;
    var pc := AddressOf(Value(addr) + at);
    AddressValue(Value(addr) + at);
    AddressPlusTwo(Value(addr) + at);
    HeldInBounds(m, addr, pc, at, 2, n);
    HeldInBounds(m, addr, Add(pc, W(2)), at + 2, 2, n);
    LowHalfIs(w);
    HalvesJoin(w);
  }

  /** After load_program, a fetch at the k-th word yields it. */
  lemma FetchesProgram(m: Mem, addr: Word, program: seq<Word>, k: nat)
    requires Holds(m, addr, 4 * |program|) && k < |program|
    ensures LoadWords(m, addr, program).Some?
    ensures Fetch(LoadWords(m, addr, program).value, WordAddress(addr, k)) == Instruction(FetchedWord(program[k]))
  {
    hide Value, AddressOf, LoadWords, Fetch, FetchedWord, HoldsWord;
    LoadedWords(m, addr, program);
    FetchesHeld(LoadWords(m, addr, program).value, addr, 4 * k, program[k], 4 * |program|);
  }

  /**
   * With an in-bounds program in memory, a step that fetches its k-th instruction and a step given that
   * instruction are the same, in the resulting state and in everything they report.
   */
  lemma FetchedEqualsInjected(cfg: Config, fp: F.FpUnit, h: State, addr: Word, program: seq<Word>, k: nat)
    requires Holds(h.mem, addr, 4 * |program|) && k < |program| && h.pc == WordAddress(addr, k)
    ensures LoadWords(h.mem, addr, program).Some?
    ensures var h' := h.(mem := LoadWords(h.mem, addr, program).value);
      StepFetched(cfg, fp, h') == StepInjected(cfg, fp, h', FetchedWord(program[k]))
  {
    hide Holds, WordAddress, LoadWords, Fetch, FetchedWord, Choose, Deliver, StepInstruction, Finish;
    FetchesProgram(h.mem, addr, program, k);
  }
}
