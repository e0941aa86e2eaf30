/** Who executes a word: the decoders do not overlap, so the order of the dispatch checks does not matter. */
module Dispatch {
  import opened Bits
  import opened Common
  import opened Zicsr
  import opened Hart
  import A = Rv32a
  import C = Rv32c
  import F = Rv32f
  import FC = Rv32fc
  import I = Rv32i
  import M = Rv32m
  import Zba
  import Zbb
  import Zbs
  import Zicond
  import Zifencei

  datatype Module = RV32I | RV32M | RV32A | RV32F | RV32C | RV32FC | ZICSR | ZIFENCEI | ZBA | ZBB | ZBS | ZICOND

  // ------------------------------------------------------------------
  // A map of the encoding space
  // ------------------------------------------------------------------

  function OwnerOfOp(f3: bv3, f7: bv7): Module {
    if f7 == 0x01 then RV32M
    else if f7 == 0x10 then ZBA
    else if f7 == 0x07 then ZICOND
    else if f7 == 0x04 || f7 == 0x05 || f7 == 0x30 || (f7 == 0x20 && (f3 == 4 || f3 == 6 || f3 == 7)) then ZBB
    else if f7 == 0x14 || f7 == 0x24 || f7 == 0x34 then ZBS
    else RV32I
  }

  function OwnerOfOpImm(f3: bv3, f7: bv7): Module {
    if f3 == 1 then
      if f7 == 0x30 then ZBB else if f7 == 0x14 || f7 == 0x24 || f7 == 0x34 then ZBS else RV32I
    else if f3 == 5 then
      if f7 == 0x30 || f7 == 0x14 || f7 == 0x34 then ZBB else if f7 == 0x24 then ZBS else RV32I
    else RV32I
  }

  /** The one module that may decode a 32-bit word with these fields. */
  function OwnerOf(op: bv7, f3: bv3, f7: bv7): Module {
    if op == 0x33 then OwnerOfOp(f3, f7)
    else if op == 0x13 then OwnerOfOpImm(f3, f7)
    else if op == 0x73 then (if f3 == 0 || f3 == 4 then RV32I else ZICSR)
    else if op == 0x0F then (if f3 == 1 then ZIFENCEI else RV32I)
    else if op == 0x2F then RV32A
    else if op == 0x07 || op == 0x27 || op == 0x43 || op == 0x47 || op == 0x4B || op == 0x4F || op == 0x53 then RV32F
    else RV32I
  }

  function OwnerOfParcel(q: bv2, f3: bv3): Module {
    if (q == 0 || q == 2) && (f3 == 3 || f3 == 7) then RV32FC else RV32C
  }

  function Owner(i: Word): Module {
    if Is32Bit(i) then OwnerOf(Opcode(i), Funct3(i), Funct7(i))
    else OwnerOfParcel(C.Quadrant(Parcel(i)), C.CFunct3(Parcel(i)))
  }

  // ------------------------------------------------------------------
  // The classifier predicates
  // ------------------------------------------------------------------

  /** opcode_is_rv32i and its eleven siblings; s enables SRET and SFENCE.VMA in the base decoder. */
  predicate Recognizes(m: Module, s: bool, i: Word) {
    if m.RV32C? then !Is32Bit(i) && !C.DecodeType(Parcel(i)).ILLEGAL?
    else if m.RV32FC? then !Is32Bit(i) && !FC.DecodeType(Parcel(i)).ILLEGAL?
    else if !Is32Bit(i) then false
    else match m
      case RV32I => !I.DecodeType(i, s).ILLEGAL?
      case RV32M => !M.DecodeType(i).ILLEGAL?
      case RV32A => !A.DecodeType(i).ILLEGAL?
      case RV32F => !F.DecodeType(i).ILLEGAL?
      case ZICSR => !Decode(i).op.ILLEGAL?
      case ZIFENCEI => Zifencei.IsFenceI(i)
      case ZBA => !Zba.DecodeType(i).ILLEGAL?
      case ZBB => !Zbb.DecodeType(i).ILLEGAL?
      case ZBS => !Zbs.DecodeType(i).ILLEGAL?
      case _ => !Zicond.DecodeType(i).ILLEGAL?
  }

  lemma BaseOwner(s: bool, i: Word)
    requires Recognizes(RV32I, s, i)
    ensures OwnerOf(Opcode(i), Funct3(i), Funct7(i)) == RV32I
  {
    hide Opcode, Funct3, Funct7, Is32Bit;
  }
  lemma FloatOwner(s: bool, i: Word)
    requires Recognizes(RV32F, s, i)
    ensures OwnerOf(Opcode(i), Funct3(i), Funct7(i)) == RV32F
  {
    hide Opcode, Funct3, Funct7, Is32Bit, F.OpFpType, F.Fmt;
  }
  lemma ByteOperations(i: Word)
    ensures Funct12(i) == 0x287 ==> Funct7(i) == 0x14
    ensures Funct12(i) == 0x698 ==> Funct7(i) == 0x34
  {}
  lemma BitmanipOwner(m: Module, s: bool, i: Word)
    requires m.ZBA? || m.ZBB? || m.ZBS? || m.ZICOND?
    requires Recognizes(m, s, i)
    ensures OwnerOf(Opcode(i), Funct3(i), Funct7(i)) == m
  {
    ByteOperations(i);
    hide Opcode, Funct3, Funct7, Funct12, Is32Bit, Rs2;
  }
  lemma OtherOwner(m: Module, s: bool, i: Word)
    requires m.RV32M? || m.RV32A? || m.ZICSR? || m.ZIFENCEI?
    requires Recognizes(m, s, i)
    ensures OwnerOf(Opcode(i), Funct3(i), Funct7(i)) == m
  {
    hide Opcode, Funct3, Funct7, Funct12, Is32Bit, Rs2, A.Funct5;
  }
  lemma ParcelOwner(m: Module, s: bool, i: Word)
    requires m.RV32C? || m.RV32FC?
    requires Recognizes(m, s, i)
    ensures OwnerOfParcel(C.Quadrant(Parcel(i)), C.CFunct3(Parcel(i))) == m
  {
    hide C.Quadrant, C.CFunct3, Is32Bit, Parcel, C.CRd, C.CRs2, C.Bit12, C.ImmAddi4spn, C.DecodeC1;
  }

  lemma RecognizedByOwner(m: Module, s: bool, i: Word)
    requires Recognizes(m, s, i)
    ensures Owner(i) == m
  {
    assert (m.RV32C? || m.RV32FC?) == !Is32Bit(i) by { SizeOf(m, s, i); }
    hide Recognizes, OwnerOf, OwnerOfParcel, Is32Bit, Opcode, Funct3, Funct7, C.Quadrant, C.CFunct3, Parcel;
    match m
    case RV32I => BaseOwner(s, i);
    case RV32F => FloatOwner(s, i);
    case ZBA | ZBB | ZBS | ZICOND => BitmanipOwner(m, s, i);
    case RV32M | RV32A | ZICSR | ZIFENCEI => OtherOwner(m, s, i);
    case RV32C | RV32FC => ParcelOwner(m, s, i);
  }
  lemma SizeOf(m: Module, s: bool, i: Word)
    requires Recognizes(m, s, i)
    ensures (m.RV32C? || m.RV32FC?) == !Is32Bit(i)
  {
    hide I.DecodeType, M.DecodeType, A.DecodeType, F.DecodeType, Decode, Zba.DecodeType, Zbb.DecodeType, Zbs.DecodeType;
    hide Zicond.DecodeType, C.DecodeType, FC.DecodeType, Is32Bit, Parcel;
  }

  /** No word is recognized by two of the twelve classifier predicates. */
  lemma ClassifiersDisjoint(m: Module, n: Module, s: bool, i: Word)
    requires Recognizes(m, s, i) && Recognizes(n, s, i)
    ensures m == n
  {
    hide Recognizes, Owner;
    RecognizedByOwner(m, s, i);
    RecognizedByOwner(n, s, i);
  }

  // ------------------------------------------------------------------
  // The order of the checks in execute_32bit
  // ------------------------------------------------------------------

  /** The extensions consulted before the base ISA. */
  datatype Extension = FenceI | Csr | MulDiv | Atomic | Float | AddressGen | BitManip | SingleBit | Conditional

  predicate Claims(cfg: Config, e: Extension, i: Word) {
    match e
    case FenceI => cfg.zifencei && Zifencei.IsFenceI(i)
    case Csr => cfg.zicsr && IsCsrInstruction(i)
    case MulDiv => cfg.m && M.IsMInstruction(i)
    case Atomic => cfg.a && A.IsAtomicInstruction(i)
    case Float => cfg.f && F.IsFInstruction(i)
    case AddressGen => cfg.zba && !Zba.DecodeType(i).ILLEGAL?
    case BitManip => cfg.zbb && !Zbb.DecodeType(i).ILLEGAL?
    case SingleBit => cfg.zbs && !Zbs.DecodeType(i).ILLEGAL?
    case Conditional => cfg.zicond && !Zicond.DecodeType(i).ILLEGAL?
  }

  function RunExtension(cfg: Config, fp: F.FpUnit, h: State, e: Extension, i: Word): Exec {
    match e
    case FenceI => Exec(h, Add(h.pc, W(4)), false, None)
    case Csr => RunCsr(cfg, h, i)
    case MulDiv => RunM(h, i)
    case Atomic => RunA(h, i)
    case Float => RunF(cfg, fp, h, i)
    case AddressGen => RunZba(h, i)
    case BitManip => RunZbb(h, i)
    case SingleBit => RunZbs(h, i)
    case Conditional => RunZicond(h, i)
  }

  /** Dispatch with the checks in a given order and the base ISA last. */
  function ExecuteInOrder(order: seq<Extension>, cfg: Config, fp: F.FpUnit, h: State, i: Word): Exec {
    hide Claims, RunExtension, RunI;
    if order == [] then RunI(cfg, h, i)
    else if Claims(cfg, order[0], i) then RunExtension(cfg, fp, h, order[0], i)
    else ExecuteInOrder(order[1..], cfg, fp, h, i)
  }

  function ModuleOf(e: Extension): Module {
    match e
    case FenceI => ZIFENCEI case Csr => ZICSR case MulDiv => RV32M case Atomic => RV32A case Float => RV32F
    case AddressGen => ZBA case BitManip => ZBB case SingleBit => ZBS case Conditional => ZICOND
  }

  lemma ClaimedByOwner(cfg: Config, e: Extension, i: Word)
    requires Claims(cfg, e, i)
    ensures OwnerOf(Opcode(i), Funct3(i), Funct7(i)) == ModuleOf(e)
  {
    ByteOperations(i);
    hide Opcode, Funct3, Funct7, Funct12, Rs2, A.Funct5;
  }

  lemma ClaimsDisjoint(cfg: Config, e: Extension, e': Extension, i: Word)
    requires Claims(cfg, e, i) && Claims(cfg, e', i)
    ensures e == e'
  {
    hide Claims, OwnerOf, Opcode, Funct3, Funct7;
    ClaimedByOwner(cfg, e, i);
    ClaimedByOwner(cfg, e', i);
  }

  lemma {:induction false} Claimed(order: seq<Extension>, cfg: Config, fp: F.FpUnit, h: State, e: Extension, i: Word)
    requires e in order && Claims(cfg, e, i)
    ensures ExecuteInOrder(order, cfg, fp, h, i) == RunExtension(cfg, fp, h, e, i)
  {
    hide Claims, RunExtension, RunI;
    if Claims(cfg, order[0], i) {
      ClaimsDisjoint(cfg, e, order[0], i);
    } else {
      Claimed(order[1..], cfg, fp, h, e, i);
    }
  }

  lemma {:induction false} Unclaimed(order: seq<Extension>, cfg: Config, fp: F.FpUnit, h: State, i: Word)
    requires forall e: Extension :: !Claims(cfg, e, i)
    ensures ExecuteInOrder(order, cfg, fp, h, i) == RunI(cfg, h, i)
  {
    hide Claims, RunExtension, RunI;
    if order != [] {
      Unclaimed(order[1..], cfg, fp, h, i);
    }
  }

  /** c is the only extension that claims the word, if any does. */
  predicate OnlyClaim(cfg: Config, c: Option<Extension>, i: Word) {
    Claims(cfg, FenceI, i) == (c == Some(FenceI)) && Claims(cfg, Csr, i) == (c == Some(Csr)) &&
    Claims(cfg, MulDiv, i) == (c == Some(MulDiv)) && Claims(cfg, Atomic, i) == (c == Some(Atomic)) &&
    Claims(cfg, Float, i) == (c == Some(Float)) && Claims(cfg, AddressGen, i) == (c == Some(AddressGen)) &&
    Claims(cfg, BitManip, i) == (c == Some(BitManip)) && Claims(cfg, SingleBit, i) == (c == Some(SingleBit)) &&
    Claims(cfg, Conditional, i) == (c == Some(Conditional))
  }

  lemma SourceDispatch(cfg: Config, fp: F.FpUnit, h: State, i: Word, c: Option<Extension>)
    requires OnlyClaim(cfg, c, i)
    ensures Execute32(cfg, fp, h, i) == if c.Some? then RunExtension(cfg, fp, h, c.value, i) else RunI(cfg, h, i)
  {
    hide RunCsr, RunM, RunA, RunF, RunZba, RunZbb, RunZbs, RunZicond, RunI;
    hide IsCsrInstruction, M.IsMInstruction, A.IsAtomicInstruction, F.IsFInstruction, Zifencei.IsFenceI;
    hide Zba.DecodeType, Zbb.DecodeType, Zbs.DecodeType, Zicond.DecodeType, Add;
  }

  /** Any order that consults all nine extensions before the base ISA dispatches every word to the same effect. */
  lemma OrderIrrelevant(order: seq<Extension>, cfg: Config, fp: F.FpUnit, h: State, i: Word)
    requires forall e: Extension :: e in order
    ensures ExecuteInOrder(order, cfg, fp, h, i) == Execute32(cfg, fp, h, i)
  {
    hide Claims, RunExtension, RunI, Execute32, ExecuteInOrder;
    if e: Extension :| Claims(cfg, e, i) {
      forall e' | Claims(cfg, e', i) ensures e' == e { ClaimsDisjoint(cfg, e, e', i); }
      Claimed(order, cfg, fp, h, e, i);
      SourceDispatch(cfg, fp, h, i, Some(e));
    } else {
      Unclaimed(order, cfg, fp, h, i);
      SourceDispatch(cfg, fp, h, i, None);
    }
  }

  /** A long word that an extension claims is executed by that extension. */
  lemma ExtensionRuns(cfg: Config, fp: F.FpUnit, h: State, e: Extension, i: Word)
    requires Claims(cfg, e, i) && Is32Bit(i)
    ensures ExecuteFetched(cfg, fp, h, i) == RunExtension(cfg, fp, h, e, i)
  {
    hide Claims, RunExtension, RunI, Execute32, Is32Bit;
    forall e' | Claims(cfg, e', i) ensures e' == e { ClaimsDisjoint(cfg, e, e', i); }
    SourceDispatch(cfg, fp, h, i, Some(e));
  }

  lemma BaseIsLong(s: bool, w: Word)
    requires !I.DecodeType(w, s).ILLEGAL?
    ensures Is32Bit(w)
  {
    LowBits(w);
    hide Opcode, Funct3, Funct7, Is32Bit;
  }
  lemma LowBits(w: Word) ensures Opcode(w) & 3 == 3 ==> Is32Bit(w) {}

  /** A word the base ISA decodes reaches the base executor under every configuration. */
  lemma BaseDispatch(cfg: Config, fp: F.FpUnit, h: State, w: Word)
    requires !I.DecodeType(w, cfg.s).ILLEGAL?
    ensures ExecuteFetched(cfg, fp, h, w) == RunI(cfg, h, w)
  {
    BaseIsLong(cfg.s, w);
    assert Recognizes(RV32I, cfg.s, w) by { hide I.DecodeType, Is32Bit; }
    BaseOwner(cfg.s, w);
    hide Recognizes, I.DecodeType, Claims, Execute32, RunI, OwnerOf, Opcode, Funct3, Funct7, Is32Bit, RunExtension;
    forall e: Extension ensures !Claims(cfg, e, w) {
      if Claims(cfg, e, w) { ClaimedByOwner(cfg, e, w); }
    }
    SourceDispatch(cfg, fp, h, w, None);
  }

  // ------------------------------------------------------------------
  // The OP opcode against the encoding table
  // ------------------------------------------------------------------

  /** op_legal_funct3_mask: the legal funct3 values per funct7 in the OP opcode. */
  function OpLegalFunct3Mask(f7: bv7): bv8 {
    if f7 == 0x00 then 0xFF
    else if f7 == 0x20 then 0xF1
    else if f7 == 0x01 then 0xFF
    else if f7 == 0x10 then 0x54
    else if f7 == 0x05 then 0xF0
    else if f7 == 0x30 then 0x22
    else if f7 == 0x14 then 0x02
    else if f7 == 0x24 then 0x22
    else if f7 == 0x34 then 0x02
    else if f7 == 0x07 then 0xA0
    else if f7 == 0x04 then 0x10
    else 0x00
  }

  predicate OpAllowed(f7: bv7, f3: bv3) { (OpLegalFunct3Mask(f7) >> f3) & 1 == 1 }

  predicate OpAccepted(f7: bv7, f3: bv3, rs2: Word) {
    !I.OpType(f3, f7).ILLEGAL? || f7 == 1 || !Zbb.RType(f3, f7, rs2).ILLEGAL? ||
    (f7 == 0x10 && (f3 == 2 || f3 == 4 || f3 == 6)) || (f7 == 0x07 && (f3 == 5 || f3 == 7)) ||
    (f3 == 1 && (f7 == 0x14 || f7 == 0x24 || f7 == 0x34)) || (f3 == 5 && f7 == 0x24)
  }

  lemma OpTable(f7: bv7, f3: bv3, rs2: Word)
    ensures OpAccepted(f7, f3, rs2) <==> OpAllowed(f7, f3) && (f7 == 0x04 ==> rs2 == W(0))
  {}

  lemma OwnerAccepts(s: bool, i: Word)
    requires Opcode(i) == 0x33
    ensures Is32Bit(i)
    ensures Recognizes(OwnerOfOp(Funct3(i), Funct7(i)), s, i) <==> OpAccepted(Funct7(i), Funct3(i), Rs2(i))
  {
    OpIsLong(i);
    hide Opcode, Funct3, Funct7, Funct12, Is32Bit, Rs2;
  }
  lemma OpIsLong(i: Word) requires Opcode(i) == 0x33 ensures Is32Bit(i) {}

  /** Some module accepts an OP word exactly when the table allows its funct3, with rs2 = 0 for ZEXT.H. */
  lemma OpLegality(s: bool, i: Word)
    requires Opcode(i) == 0x33
    ensures (exists m :: Recognizes(m, s, i)) <==>
            OpAllowed(Funct7(i), Funct3(i)) && (Funct7(i) == 0x04 ==> Rs2(i) == W(0))
  {
    OwnerAccepts(s, i);
    OpTable(Funct7(i), Funct3(i), Rs2(i));
    assert Owner(i) == OwnerOfOp(Funct3(i), Funct7(i));
    hide Recognizes, Owner, Opcode, Funct3, Funct7, Rs2, OpAccepted, OpAllowed, OwnerOfOp;
    if m :| Recognizes(m, s, i) {
      RecognizedByOwner(m, s, i);
    }
  }
}
