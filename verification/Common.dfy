/** Shared state and helpers: memory, the integer register file, privilege levels and trap causes. */
module Common {
  import opened Bits

  datatype Option<+T> = None | Some(value: T)

  // ------------------------------------------------------------------
  // Privilege levels and trap causes
  // ------------------------------------------------------------------

  datatype Privilege = USER | SUPERVISOR | RESERVED | MACHINE {
    function Rank(): nat {
      match this case USER => 0 case SUPERVISOR => 1 case RESERVED => 2 case MACHINE => 3
    }
  }

  const INSTR_ADDR_MISALIGNED := W(0)
  const INSTR_ACCESS_FAULT := W(1)
  const ILLEGAL_INSTRUCTION := W(2)
  const BREAKPOINT := W(3)
  const LOAD_ADDR_MISALIGNED := W(4)
  const LOAD_ACCESS_FAULT := W(5)
  const STORE_ADDR_MISALIGNED := W(6)
  const STORE_ACCESS_FAULT := W(7)
  const ECALL_FROM_U := W(8)
  const ECALL_FROM_S := W(9)
  const ECALL_FROM_M := W(11)

  datatype Trap = Trap(cause: Word, tval: Word)

  // ------------------------------------------------------------------
  // Integer registers
  // ------------------------------------------------------------------

  /** The contents of 32 registers. Register 0 of the integer file reads as zero and ignores writes. */
  type Regs = x: seq<Word> | |x| == 32 witness seq(32, _ => W(0))

  function ZeroRegs(): (x: Regs)
    ensures forall k :: 0 <= k < 32 ==> x[k] == W(0)
  {
    var four := [W(0), W(0), W(0), W(0)];
    var sixteen := four + four + four + four;
    sixteen + sixteen
  }

  function GetReg(x: Regs, i: Word): Word {
    if Index(i) == 0 then W(0) else x[Index(i)]
  }

  function SetReg(x: Regs, i: Word, v: Word): Regs {
    if Index(i) == 0 then x else x[Index(i) := v]
  }

  class RegFile {
    const x: array<Word>

    ghost predicate Valid() { x.Length == 32 }

    ghost function Contents(): Regs
      requires Valid()
      reads x
    { x[..] }

    constructor ()
      ensures Valid() && fresh(x) && Contents() == ZeroRegs()
    {
      x := new Word[32](_ => W(0));
    }

    method Read(idx: Word) returns (v: Word)
      requires Valid()
      ensures v == GetReg(Contents(), idx)
    {
      v := if Index(idx) == 0 then W(0) else x[Index(idx)];
    }

    method Write(idx: Word, val: Word)
      requires Valid()
      modifies x
      ensures Contents() == SetReg(old(Contents()), idx, val)
    {
      if Index(idx) != 0 {
        x[Index(idx)] := val;
      }
    }

    method Reset()
      requires Valid()
      modifies x
      ensures Contents() == ZeroRegs()
    {
      for i := 0 to 32
        invariant forall k :: 0 <= k < i ==> x[k] == W(0)
      {
        x[i] := W(0);
      }
    }
  }

  // ------------------------------------------------------------------
  // Memory
  // ------------------------------------------------------------------

  datatype Byte = Byte(v: bv8)

  /** The contents of a SimpleMemory: bytes[i] lives at address base + i. */
  datatype Mem = Mem(bytes: seq<Byte>, base: Word)

  function Offset(addr: Word, base: Word): int { Value(addr) - Value(base) }

  // Negation of the bounds check, done in 64 bits, that makes every access throw BusFault.
  predicate InBounds(m: Mem, addr: Word, size: nat) {
    0 <= Offset(addr, m.base) && Offset(addr, m.base) + size <= |m.bytes|
  }

  // Little-endian composition and decomposition.
  function Wide(b: Byte): bv32 { b.v as bv32 }
  function Join1(b0: Byte): Word { W(Wide(b0)) }
  function Join2(b0: Byte, b1: Byte): Word { W(Either(Wide(b0), Up(Wide(b1), 8))) }
  function Join4(b0: Byte, b1: Byte, b2: Byte, b3: Byte): Word {
    W(Either(Either(Either(Wide(b0), Up(Wide(b1), 8)), Up(Wide(b2), 16)), Up(Wide(b3), 24)))
  }
  function Lane0(w: Word): Byte { Byte((w.b & 0xFF) as bv8) }
  function Lane1(w: Word): Byte { Byte(((w.b >> 8) & 0xFF) as bv8) }
  function Lane2(w: Word): Byte { Byte(((w.b >> 16) & 0xFF) as bv8) }
  function Lane3(w: Word): Byte { Byte(((w.b >> 24) & 0xFF) as bv8) }

  function Read8(m: Mem, addr: Word): Option<Word> {
    if !InBounds(m, addr, 1) then None
    else Some(Join1(m.bytes[Offset(addr, m.base)]))
  }

  function Read16(m: Mem, addr: Word): Option<Word> {
    if !InBounds(m, addr, 2) then None
    else
      var o := Offset(addr, m.base);
      Some(Join2(m.bytes[o], m.bytes[o + 1]))
  }

  function Read32(m: Mem, addr: Word): Option<Word> {
    if !InBounds(m, addr, 4) then None
    else
      var o := Offset(addr, m.base);
      Some(Join4(m.bytes[o], m.bytes[o + 1], m.bytes[o + 2], m.bytes[o + 3]))
  }

  function Write8(m: Mem, addr: Word, v: Word): Option<Mem> {
    if !InBounds(m, addr, 1) then None
    else Some(m.(bytes := m.bytes[Offset(addr, m.base) := Lane0(v)]))
  }

  function Write16(m: Mem, addr: Word, v: Word): Option<Mem> {
    if !InBounds(m, addr, 2) then None
    else
      var o := Offset(addr, m.base);
      Some(m.(bytes := m.bytes[o := Lane0(v)][o + 1 := Lane1(v)]))
  }

  function Write32(m: Mem, addr: Word, v: Word): Option<Mem> {
    if !InBounds(m, addr, 4) then None
    else
      var o := Offset(addr, m.base);
      Some(m.(bytes := m.bytes[o := Lane0(v)][o + 1 := Lane1(v)][o + 2 := Lane2(v)][o + 3 := Lane3(v)]))
  }

  class SimpleMemory {
    const mem: array<Byte>
    const base: Word

    ghost function Contents(): Mem
      reads mem
    { Mem(mem[..], base) }

    constructor (size: nat, base: Word)
      ensures fresh(mem) && mem.Length == size && this.base == base
      ensures Contents() == Mem(seq(size, _ => Byte(0)), base)
    {
      mem := new Byte[size](_ => Byte(0));
      this.base := base;
    }

    method Clear()
      modifies mem
      ensures Contents() == Mem(seq(mem.Length, _ => Byte(0)), base)
    {
      for i := 0 to mem.Length
        invariant forall k :: 0 <= k < i ==> mem[k] == Byte(0)
      {
        mem[i] := Byte(0);
      }
    }

    method CheckAddr(addr: Word, size: nat) returns (ok: bool)
      ensures ok == InBounds(Contents(), addr, size)
    {
      ok := Value(base) <= Value(addr) && Offset(addr, base) + size <= mem.Length;
    }

    // A read or write returns None where the source throws BusFault.
    method ReadByte(addr: Word) returns (v: Option<Word>)
      ensures v == Read8(Contents(), addr)
    {
      var ok := CheckAddr(addr, 1);
      v := if ok then Some(Join1(mem[Offset(addr, base)])) else None;
    }

    method ReadHalf(addr: Word) returns (v: Option<Word>)
      ensures v == Read16(Contents(), addr)
    {
      var ok := CheckAddr(addr, 2);
      if !ok { return None; }
      var o := Offset(addr, base);
      v := Some(Join2(mem[o], mem[o + 1]));
    }

    method ReadWord(addr: Word) returns (v: Option<Word>)
      ensures v == Read32(Contents(), addr)
    {
      var ok := CheckAddr(addr, 4);
      if !ok { return None; }
      var o := Offset(addr, base);
      v := Some(Join4(mem[o], mem[o + 1], mem[o + 2], mem[o + 3]));
    }

    method WriteByte(addr: Word, data: Word) returns (ok: bool)
      modifies mem
      ensures ok == Write8(old(Contents()), addr, data).Some?
      ensures Contents() == if ok then Write8(old(Contents()), addr, data).value else old(Contents())
    {
      ok := CheckAddr(addr, 1);
      if ok {
        mem[Offset(addr, base)] := Lane0(data);
      }
    }

    method WriteHalf(addr: Word, data: Word) returns (ok: bool)
      modifies mem
      ensures ok == Write16(old(Contents()), addr, data).Some?
      ensures Contents() == if ok then Write16(old(Contents()), addr, data).value else old(Contents())
    {
      ok := CheckAddr(addr, 2);
      if ok {
        var o := Offset(addr, base);
        mem[o] := Lane0(data);
        mem[o + 1] := Lane1(data);
      }
    }

    method WriteWord(addr: Word, data: Word) returns (ok: bool)
      modifies mem
      ensures ok == Write32(old(Contents()), addr, data).Some?
      ensures Contents() == if ok then Write32(old(Contents()), addr, data).value else old(Contents())
    {
      ok := CheckAddr(addr, 4);
      if ok {
        var o := Offset(addr, base);
        mem[o] := Lane0(data);
        mem[o + 1] := Lane1(data);
        mem[o + 2] := Lane2(data);
        mem[o + 3] := Lane3(data);
      }
    }
  }

  // ------------------------------------------------------------------
  // Shared load/store path: alignment check, then the bus access
  // ------------------------------------------------------------------

  datatype Size = S1 | S2 | S4

  predicate Misaligned(addr: Word, size: Size) {
    match size
    case S1 => false
    case S2 => Bit(addr, 1)
    case S4 => Bit(addr, 3)
  }

  datatype LoadResult = Loaded(value: Word) | LoadFault(cause: Word)
  datatype StoreResult = Stored(mem: Mem) | StoreFault(cause: Word)

  function ReadSized(m: Mem, addr: Word, size: Size): Option<Word> {
    match size case S1 => Read8(m, addr) case S2 => Read16(m, addr) case S4 => Read32(m, addr)
  }

  function WriteSized(m: Mem, addr: Word, size: Size, v: Word): Option<Mem> {
    match size case S1 => Write8(m, addr, v) case S2 => Write16(m, addr, v) case S4 => Write32(m, addr, v)
  }

  /** The faulting address is the trap value of every failed access. */
  function Load(m: Mem, addr: Word, size: Size, allowMisaligned: bool): LoadResult {
    if !allowMisaligned && Misaligned(addr, size) then LoadFault(LOAD_ADDR_MISALIGNED)
    else match ReadSized(m, addr, size)
      case Some(v) => Loaded(v)
      case None => LoadFault(LOAD_ACCESS_FAULT)
  }

  function Store(m: Mem, addr: Word, size: Size, v: Word, allowMisaligned: bool): StoreResult {
    if !allowMisaligned && Misaligned(addr, size) then StoreFault(STORE_ADDR_MISALIGNED)
    else match WriteSized(m, addr, size, v)
      case Some(m') => Stored(m')
      case None => StoreFault(STORE_ACCESS_FAULT)
  }

  method LoadFrom(bus: SimpleMemory, addr: Word, size: Size, allowMisaligned: bool) returns (r: LoadResult)
    ensures r == Load(bus.Contents(), addr, size, allowMisaligned)
  {
    if !allowMisaligned && Misaligned(addr, size) {
      return LoadFault(LOAD_ADDR_MISALIGNED);
    }
    var v;
    match size {
      case S1 => v := bus.ReadByte(addr);
      case S2 => v := bus.ReadHalf(addr);
      case S4 => v := bus.ReadWord(addr);
    }
    r := if v.Some? then Loaded(v.value) else LoadFault(LOAD_ACCESS_FAULT);
  }

  method StoreTo(bus: SimpleMemory, addr: Word, size: Size, v: Word, allowMisaligned: bool)
    returns (fault: Option<Word>)
    modifies bus.mem
    ensures match Store(old(bus.Contents()), addr, size, v, allowMisaligned)
      case Stored(m) => fault == None && bus.Contents() == m
      case StoreFault(c) => fault == Some(c) && bus.Contents() == old(bus.Contents())
  {
    if !allowMisaligned && Misaligned(addr, size) {
      return Some(STORE_ADDR_MISALIGNED);
    }
    var ok;
    match size {
      case S1 => ok := bus.WriteByte(addr, v);
      case S2 => ok := bus.WriteHalf(addr, v);
      case S4 => ok := bus.WriteWord(addr, v);
    }
    fault := if ok then None else Some(STORE_ACCESS_FAULT);
  }
}
