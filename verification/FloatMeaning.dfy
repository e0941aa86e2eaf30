/** The F extension from its literal encodings: operands, rounding mode, destination and flags of each instruction. */
module FloatMeaning {
  import opened Bits
  import opened BitNumbers
  import opened Common
  import opened Zicsr
  import opened Hart
  import opened Integers
  import opened Invariant
  import opened Precise
  import opened Dispatch
  import opened Encoding
  import opened MemoryMeaning
  import opened BaseMeaning
  import F = Rv32f

  // ------------------------------------------------------------------
  // Assembling
  // ------------------------------------------------------------------

  predicate IsFused(op: F.InstrType) { op.FMADD_S? || op.FMSUB_S? || op.FNMADD_S? || op.FNMSUB_S? }
  predicate IsMemory(op: F.InstrType) { op.FLW? || op.FSW? }
  predicate IsRounded(op: F.InstrType) {
    IsFused(op) || op.FADD_S? || op.FSUB_S? || op.FMUL_S? || op.FDIV_S? || op.FSQRT_S? ||
    op.FCVT_W_S? || op.FCVT_WU_S? || op.FCVT_S_W? || op.FCVT_S_WU?
  }

  function FloatFunct7(op: F.InstrType): bv7 {
    match op
    case FADD_S => 0x00 case FSUB_S => 0x04 case FMUL_S => 0x08 case FDIV_S => 0x0C case FSQRT_S => 0x2C
    case FSGNJ_S | FSGNJN_S | FSGNJX_S => 0x10
    case FMIN_S | FMAX_S => 0x14
    case FEQ_S | FLT_S | FLE_S => 0x50
    case FCVT_W_S | FCVT_WU_S => 0x60
    case FCVT_S_W | FCVT_S_WU => 0x68
    case FMV_X_W | FCLASS_S => 0x70
    case _ => 0x78
  }
  /** The funct3 field: the rounding mode of the rounded operations, fixed for the others. */
  function FloatFunct3(op: F.InstrType, rm: bv3): bv3 {
    match op
    case FSGNJ_S | FMIN_S | FLE_S | FMV_X_W | FMV_W_X => 0
    case FSGNJN_S | FMAX_S | FLT_S | FCLASS_S => 1
    case FSGNJX_S | FEQ_S => 2
    case _ => rm
  }
  function FloatRs2(op: F.InstrType, rs2: bv5): bv5 {
    match op
    case FSQRT_S | FCVT_W_S | FCVT_S_W | FMV_X_W | FCLASS_S | FMV_W_X => 0
    case FCVT_WU_S | FCVT_S_WU => 1
    case _ => rs2
  }
  function FusedOpcode(op: F.InstrType): bv7 {
    if op.FMADD_S? then 0x43 else if op.FMSUB_S? then 0x47 else if op.FNMSUB_S? then 0x4B else 0x4F
  }
  function FloatWord(op: F.InstrType, rd: bv5, rs1: bv5, rs2: bv5, rs3: bv5, rm: bv3): Word {
    if IsFused(op) then R(AmoFunct7(rs3, 0), rs2, rs1, rm, rd, FusedOpcode(op))
    else R(FloatFunct7(op), FloatRs2(op, rs2), rs1, FloatFunct3(op, rm), rd, 0x53)
  }

  // ------------------------------------------------------------------
  // Decode after encode
  // ------------------------------------------------------------------

  lemma RRs3(f7: bv7, rs2: bv5, rs1: bv5, f3: bv3, rd: bv5, op: bv7) ensures F.Rs3(R(f7, rs2, rs1, f3, rd, op)) == Reg((f7 >> 2) as bv5) {}
  lemma FusedFields(rs3: bv5) ensures (AmoFunct7(rs3, 0) & 3) as bv2 == 0 && (AmoFunct7(rs3, 0) >> 2) as bv5 == rs3 {}
  lemma SameUse(op: F.InstrType) ensures F.UsesRm(op) == IsRounded(op) {}

  lemma FusedDecodes(op: F.InstrType, rd: bv5, rs1: bv5, rs2: bv5, rs3: bv5, rm: bv3)
    requires IsFused(op)
    ensures var w := FloatWord(op, rd, rs1, rs2, rs3, rm);
      F.IsFInstruction(w) && Is32Bit(w) && F.FormatType(w) == op && Funct3(w) == rm && F.Rs3(w) == Reg(rs3) &&
      Rd(w) == Reg(rd) && Rs1(w) == Reg(rs1) && Rs2(w) == Reg(rs2)
  {
    hide R, AmoFunct7, Opcode, Funct3, Funct7, Rd, Rs1, Rs2, F.Rs3, F.Fmt, Reg, Is32Bit, F.OpFpType;
    var f7 := AmoFunct7(rs3, 0);
    FusedFields(rs3);
    RegisterFields(f7, rs2, rs1, rm, rd, FusedOpcode(op));
    RFmt(f7, rs2, rs1, rm, rd, FusedOpcode(op));
    RRs3(f7, rs2, rs1, rm, rd, FusedOpcode(op));
    LongOpcode(FloatWord(op, rd, rs1, rs2, rs3, rm));
  }
  lemma OpFpTypeOf(op: F.InstrType, rs2: bv5, rm: bv3)
    requires !op.ILLEGAL? && !IsFused(op) && !IsMemory(op)
    ensures F.OpFpType(FloatFunct7(op), FloatFunct3(op, rm), Reg(FloatRs2(op, rs2))) == op
  {
    assert Reg(0) == W(0) && Reg(1) == W(1);
    hide Reg;
  }
  lemma OpFpDecodes(op: F.InstrType, rd: bv5, rs1: bv5, rs2: bv5, rs3: bv5, rm: bv3)
    requires !op.ILLEGAL? && !IsFused(op) && !IsMemory(op)
    ensures var w := FloatWord(op, rd, rs1, rs2, rs3, rm);
      F.IsFInstruction(w) && Is32Bit(w) && F.FormatType(w) == op && Funct3(w) == FloatFunct3(op, rm) &&
      Rd(w) == Reg(rd) && Rs1(w) == Reg(rs1) && Rs2(w) == Reg(FloatRs2(op, rs2))
  {
    hide R, Opcode, Funct3, Funct7, Rd, Rs1, Rs2, F.Fmt, Reg, Is32Bit, F.OpFpType, FloatFunct7, FloatFunct3, FloatRs2;
    OpFpTypeOf(op, rs2, rm);
    RegisterFields(FloatFunct7(op), FloatRs2(op, rs2), rs1, FloatFunct3(op, rm), rd, 0x53);
    LongOpcode(FloatWord(op, rd, rs1, rs2, rs3, rm));
  }

  /** An assembled instruction decodes to its mnemonic and fields, unless its rounding mode is one of the reserved 5 and 6. */
  lemma FloatDecodes(op: F.InstrType, rd: bv5, rs1: bv5, rs2: bv5, rs3: bv5, rm: bv3)
    requires !op.ILLEGAL? && !IsMemory(op)
    ensures var w := FloatWord(op, rd, rs1, rs2, rs3, rm);
      var d := F.Decode(w);
      F.IsFInstruction(w) && Is32Bit(w) && d.raw == w && (IsRounded(op) ==> d.rm == rm) &&
      d.op == (if IsRounded(op) && (rm == 5 || rm == 6) then F.ILLEGAL else op) &&
      d.rd == Reg(rd) && d.rs1 == Reg(rs1) && d.rs2 == Reg(FloatRs2(op, rs2)) && (IsFused(op) ==> d.rs3 == Reg(rs3))
  {
    hide FloatWord, Opcode, Funct3, Funct7, Rd, Rs1, Rs2, F.Rs3, Reg, Is32Bit, F.FormatType, F.IsFInstruction, F.UsesRm;
    hide FloatRs2, FloatFunct3;
    SameUse(op);
    RoundedFunct3(op, rs2, rm);
    if IsFused(op) { FusedDecodes(op, rd, rs1, rs2, rs3, rm); } else { OpFpDecodes(op, rd, rs1, rs2, rs3, rm); }
  }
  lemma RoundedFunct3(op: F.InstrType, rs2: bv5, rm: bv3)
    ensures IsRounded(op) ==> FloatFunct3(op, rm) == rm
    ensures IsFused(op) ==> FloatRs2(op, rs2) == rs2 && IsRounded(op)
  {}

  // ------------------------------------------------------------------
  // Operands, rounding and results
  // ------------------------------------------------------------------

  /** frm, bits 7 to 5 of fcsr. */
  function FrmOf(c: Csrs): bv3 { ((GetCell(c, 0x003).b >> 5) & 7) as bv3 }
  /** The rounding mode in effect: 7 defers to frm. */
  function RoundingMode(c: Csrs, rm: bv3): bv3 { if rm == 7 then FrmOf(c) else rm }
  lemma FrmKept(w: Word) ensures F.Frm(F.FcsrView(w)) == ((w.b >> 5) & 7) as bv3 {}
  lemma RoundingIs(c: Csrs, rm: bv3)
    ensures F.EffectiveRm(rm, F.FcsrView(GetCell(c, 0x003))) == RoundingMode(c, rm)
  {
    hide GetCell, F.FcsrView, F.Frm;
    FrmKept(GetCell(c, 0x003));
  }

  predicate FromInteger(op: F.InstrType) { op.FCVT_S_W? || op.FCVT_S_WU? || op.FMV_W_X? }
  predicate ToInteger(op: F.InstrType) {
    op.FCVT_W_S? || op.FCVT_WU_S? || op.FMV_X_W? || op.FCLASS_S? || op.FEQ_S? || op.FLT_S? || op.FLE_S?
  }

  /** Moves copy the bits, sign injection takes bit 31 from the sign of b, and the rest is left to the floating-point unit. */
  ghost predicate FloatResult(fp: F.FpUnit, op: F.InstrType, a: Word, b: Word, c: Word, rm: bv3, r: F.FpResult) {
    hide NthBit;
    match op
    case FMV_X_W | FMV_W_X => r == F.FpResult(a, 0)
    case FSGNJ_S => r.flags == 0 && forall k: nat :: k < 32 ==> NthBit(r.value.b, k) == if k == 31 then NthBit(b.b, 31) else NthBit(a.b, k)
    case FSGNJN_S => r.flags == 0 && forall k: nat :: k < 32 ==> NthBit(r.value.b, k) == if k == 31 then !NthBit(b.b, 31) else NthBit(a.b, k)
    case FSGNJX_S =>
      r.flags == 0 && forall k: nat :: k < 32 ==> NthBit(r.value.b, k) == if k == 31 then NthBit(a.b, 31) != NthBit(b.b, 31) else NthBit(a.b, k)
    case _ => r == fp(op, a, b, c, rm)
  }

  lemma InjectIs(a: bv32, sign: bv32) ensures F.Inject(a, sign) == Either(Low31(a), OnlyTop(sign)) {}
  lemma TopParts(b: bv32) ensures OnlyTop(b) == Both(b, TOP) && Low31(b) == Both(b, Comp(TOP)) {}
  lemma InjectedBits(a: bv32, sign: bv32, k: nat)
    requires k < 32
    ensures NthBit(F.Inject(a, sign), k) == if k == 31 then NthBit(sign, 31) else NthBit(a, k)
  {
    hide *;
    InjectIs(a, sign);
    TopParts(a);
    TopParts(sign);
    TopIsMask();
    OnlyBit(TOP, 31, k);
    EitherBit(Low31(a), OnlyTop(sign), k);
    BothBit(sign, TOP, k);
    BothBit(a, Comp(TOP), k);
    CompBit(TOP, k);
  }
  /** The sign an injection gives. */
  function SignSource(op: F.InstrType, a: bv32, b: bv32): bv32 {
    if op.FSGNJ_S? then b else if op.FSGNJN_S? then Comp(b) else Difference(a, b)
  }
  lemma InjectionIs(fp: F.FpUnit, op: F.InstrType, a: Word, b: Word, c: Word, rm: bv3)
    requires op.FSGNJ_S? || op.FSGNJN_S? || op.FSGNJX_S?
    ensures F.Compute(fp, op, a, b, c, rm) == F.FpResult(W(F.Inject(a.b, SignSource(op, a.b, b.b))), 0)
  {
    hide F.Inject, Comp, Difference;
  }
  lemma SignIs(op: F.InstrType, a: bv32, b: bv32)
    requires op.FSGNJ_S? || op.FSGNJN_S? || op.FSGNJX_S?
    ensures NthBit(SignSource(op, a, b), 31) ==
      if op.FSGNJ_S? then NthBit(b, 31) else if op.FSGNJN_S? then !NthBit(b, 31) else NthBit(a, 31) != NthBit(b, 31)
  {
    hide NthBit, Comp, Difference;
    DifferenceBit(a, b, 31);
    CompBit(b, 31);
  }
  lemma InjectionComputes(fp: F.FpUnit, op: F.InstrType, a: Word, b: Word, c: Word, rm: bv3)
    requires op.FSGNJ_S? || op.FSGNJN_S? || op.FSGNJX_S?
    ensures FloatResult(fp, op, a, b, c, rm, F.Compute(fp, op, a, b, c, rm))
  {
    hide NthBit, F.Compute, F.Inject, SignSource;
    var sign := SignSource(op, a.b, b.b);
    InjectionIs(fp, op, a, b, c, rm);
    SignIs(op, a.b, b.b);
    forall k: nat | k < 32 ensures NthBit(F.Inject(a.b, sign), k) == if k == 31 then NthBit(sign, 31) else NthBit(a.b, k) {
      InjectedBits(a.b, sign, k);
    }
  }
  lemma FloatComputes(fp: F.FpUnit, op: F.InstrType, a: Word, b: Word, c: Word, rm: bv3)
    ensures FloatResult(fp, op, a, b, c, rm, F.Compute(fp, op, a, b, c, rm))
  {
    if op.FSGNJ_S? || op.FSGNJN_S? || op.FSGNJX_S? {
      hide *;
      InjectionComputes(fp, op, a, b, c, rm);
    } else {
      hide F.Compute;
      PassedOn(fp, op, a, b, c, rm);
    }
  }
  lemma PassedOn(fp: F.FpUnit, op: F.InstrType, a: Word, b: Word, c: Word, rm: bv3)
    requires !(op.FSGNJ_S? || op.FSGNJN_S? || op.FSGNJX_S?)
    ensures F.Compute(fp, op, a, b, c, rm) == if op.FMV_X_W? || op.FMV_W_X? then F.FpResult(a, 0) else fp(op, a, b, c, rm)
  {}

  /** fcsr accumulates the flags and no other CSR changes. */
  ghost predicate Accrues(c: Csrs, flags: bv5, c': Csrs) {
    hide NthBit;
    (forall k: nat :: k < 32 ==> NthBit(GetCell(c', 0x003).b, k) == (NthBit(GetCell(c, 0x003).b, k) || NthBit(flags as bv32, k))) &&
    c'.priv == c.priv && forall a :: a != 0x003 ==> GetCell(c', a) == GetCell(c, a)
  }
  lemma FlagsStay(fcsr: Word, flags: bv5)
    requires Within(fcsr, 0xFF)
    ensures F.FcsrView(F.Accumulate(F.FcsrView(fcsr), flags)).b == Either(fcsr.b, flags as bv32)
  {}
  lemma FlagsAccrue(cfg: Config, c: Csrs, flags: bv5)
    requires CsrsOk(cfg, c)
    ensures Accrues(c, flags, SetCell(c, 0x003, F.FcsrView(F.Accumulate(F.FcsrView(GetCell(c, 0x003)), flags))))
  {
    FcsrWithin(cfg, c);
    hide CsrsOk, GetCell, SetCell, NthBit, Either, F.FcsrView, F.Accumulate, Within;
    var v := F.FcsrView(F.Accumulate(F.FcsrView(GetCell(c, 0x003)), flags));
    FlagsStay(GetCell(c, 0x003), flags);
    StoredCell(c, 0x003, v);
    forall k: nat | k < 32 ensures NthBit(v.b, k) == (NthBit(GetCell(c, 0x003).b, k) || NthBit(flags as bv32, k)) {
      EitherBit(GetCell(c, 0x003).b, flags as bv32, k);
    }
  }
  lemma StoredCell(c: Csrs, a: nat, v: Word)
    ensures GetCell(SetCell(c, a, v), a) == v && SetCell(c, a, v).priv == c.priv
    ensures forall b :: b != a ==> GetCell(SetCell(c, a, v), b) == GetCell(c, b)
  {}

  // ------------------------------------------------------------------
  // From the word
  // ------------------------------------------------------------------

  /** A rounded operation needs a rounding mode of at most 4, in the instruction or in frm. */
  predicate BadRounding(c: Csrs, op: F.InstrType, rm: bv3) { IsRounded(op) && RoundingMode(c, rm) > 4 }

  lemma ComputeOutcome(fp: F.FpUnit, allow: bool, d: F.Decoded, x: Regs, f: Regs, m: Mem, fcsr: Word)
    requires !d.op.FLW? && !d.op.FSW?
    ensures var o := F.Execute(fp, allow, d, x, f, m, fcsr);
      var rm := F.EffectiveRm(d.rm, fcsr);
      if d.op.ILLEGAL? || (F.UsesRm(d.op) && rm > 4) then o == F.Outcome(F.Result(false, W(2), d.raw), x, f, m, fcsr)
      else
        var v := F.Compute(fp, d.op, if F.ReadsInt(d.op) then GetReg(x, d.rs1) else F.GetF(f, d.rs1), F.GetF(f, d.rs2), F.GetF(f, d.rs3), rm);
        o.r.valid && o.m == m && o.fcsr == F.Accumulate(fcsr, v.flags) &&
        o.x == (if F.WritesInt(d.op) then SetReg(x, d.rd, v.value) else x) && o.f == (if F.WritesInt(d.op) then f else F.SetF(f, d.rd, v.value))
  {
    hide GetReg, SetReg, F.GetF, F.SetF, Load, Store, F.Compute, F.Accumulate, F.EffectiveRm, F.UsesRm, F.ReadsInt;
    hide F.WritesInt, Add;
  }

  /** The instruction retires with r in rd, of the integer file for the operations that yield integers. */
  ghost predicate FloatDone(h: State, op: F.InstrType, rd: bv5, r: F.FpResult, e: Exec) {
    hide Accrues;
    e == Exec(h.(x := if ToInteger(op) then SetReg(h.x, Reg(rd), r.value) else h.x,
                 f := if ToInteger(op) then h.f else F.SetF(h.f, Reg(rd), r.value),
                 csrs := e.h.csrs), Add(h.pc, W(4)), false, None) &&
    Accrues(h.csrs, r.flags, e.h.csrs)
  }
  lemma SameKinds(op: F.InstrType) ensures F.ReadsInt(op) == FromInteger(op) && F.WritesInt(op) == ToInteger(op) {}

  lemma FloatRuns(cfg: Config, fp: F.FpUnit, h: State, w: Word)
    requires cfg.f && F.IsFInstruction(w) && Is32Bit(w)
    ensures ExecuteFetched(cfg, fp, h, w) == RunF(cfg, fp, h, w)
  {
    hide ExecuteFetched, RunF, F.IsFInstruction, Is32Bit;
    ExtensionRuns(cfg, fp, h, Float, w);
  }

  function View(h: State): Word { F.FcsrView(GetCell(h.csrs, 0x003)) }
  lemma RunFIs(cfg: Config, fp: F.FpUnit, h: State, w: Word, d: F.Decoded)
    requires CsrsOk(cfg, h.csrs) && d == F.Decode(w)
    ensures var o := F.Execute(fp, cfg.allowMisaligned, d, h.x, h.f, h.mem, View(h));
      RunF(cfg, fp, h, w) == Exec(h.(x := o.x, f := o.f, mem := o.m, csrs := SetCell(h.csrs, 0x003, F.FcsrView(o.fcsr))), Add(h.pc, W(4)), false,
                                  if o.r.valid then None else Some(Trap(o.r.cause, o.r.tval)))
    ensures SetCell(h.csrs, 0x003, F.FcsrView(View(h))) == h.csrs
  {
    assert FCSR == 0x003;
    hide CsrsOk, F.Decode, F.Execute, F.FcsrView, SetCell, GetCell, Add;
    FcsrRoundTrip(cfg, h.csrs);
  }
  lemma FloatExecutes(cfg: Config, fp: F.FpUnit, h: State, w: Word, d: F.Decoded, op: F.InstrType, rd: bv5)
    requires CsrsOk(cfg, h.csrs) && d == F.Decode(w) && d.raw == w && !IsMemory(op) && !op.ILLEGAL?
    requires d.op == (if IsRounded(op) && (d.rm == 5 || d.rm == 6) then F.ILLEGAL else op) && d.rd == Reg(rd)
    ensures var e := RunF(cfg, fp, h, w);
      var rm := RoundingMode(h.csrs, d.rm);
      var a := if FromInteger(op) then GetReg(h.x, d.rs1) else F.GetF(h.f, d.rs1);
      if BadRounding(h.csrs, op, d.rm) then Raised(h, W(2), w, e)
      else exists r :: FloatResult(fp, op, a, F.GetF(h.f, d.rs2), F.GetF(h.f, d.rs3), rm, r) && FloatDone(h, op, rd, r, e)
  {
    hide CsrsOk, RunF, F.Decode, F.Execute, F.Compute, F.FcsrView, F.Accumulate, F.EffectiveRm, F.UsesRm, F.GetF;
    hide F.SetF, GetReg, SetReg, GetCell, SetCell;
    hide IsRounded, FromInteger, ToInteger, RoundingMode, Accrues, FloatResult, Add, Reg, F.ReadsInt, F.WritesInt, View;
    var rm := RoundingMode(h.csrs, d.rm);
    var a := if FromInteger(op) then GetReg(h.x, d.rs1) else F.GetF(h.f, d.rs1);
    var r := F.Compute(fp, op, a, F.GetF(h.f, d.rs2), F.GetF(h.f, d.rs3), rm);
    MemoryIs(op);
    ViewIs(h);
    RunFIs(cfg, fp, h, w, d);
    ComputeOutcome(fp, cfg.allowMisaligned, d, h.x, h.f, h.mem, View(h));
    RoundingIs(h.csrs, d.rm);
    SameUse(op);
    SameKinds(op);
    if d.rm == 5 || d.rm == 6 { ReservedRounding(h.csrs, d.rm); }
    FloatComputes(fp, op, a, F.GetF(h.f, d.rs2), F.GetF(h.f, d.rs3), rm);
    FlagsAccrue(cfg, h.csrs, r.flags);
    if !BadRounding(h.csrs, op, d.rm) {
      assert FloatDone(h, op, rd, r, RunF(cfg, fp, h, w));
    }
  }
  lemma ViewIs(h: State) ensures View(h) == F.FcsrView(GetCell(h.csrs, 0x003)) {}
  lemma MemoryIs(op: F.InstrType) ensures IsMemory(op) == (op.FLW? || op.FSW?) {}
  lemma ReservedRounding(c: Csrs, rm: bv3) requires rm == 5 || rm == 6 ensures RoundingMode(c, rm) > 4 { hide FrmOf; }

  /**
   * An F operation raises an illegal-instruction exception exactly when its rounding mode is reserved; otherwise it retires with
   * its result in rd and its flags in fcsr.
   */
  lemma FloatStep(cfg: Config, fp: F.FpUnit, h: State, op: F.InstrType, rd: bv5, rs1: bv5, rs2: bv5, rs3: bv5, rm: bv3)
    requires cfg.f && CsrsOk(cfg, h.csrs) && !op.ILLEGAL? && !IsMemory(op)
    ensures var w := FloatWord(op, rd, rs1, rs2, rs3, rm);
      var e := ExecuteFetched(cfg, fp, h, w);
      var a := if FromInteger(op) then GetReg(h.x, Reg(rs1)) else F.GetF(h.f, Reg(rs1));
      if BadRounding(h.csrs, op, rm) then Raised(h, W(2), w, e)
      else exists r, c, m :: (IsFused(op) ==> c == F.GetF(h.f, Reg(rs3))) && (IsRounded(op) ==> m == RoundingMode(h.csrs, rm)) &&
                             FloatResult(fp, op, a, F.GetF(h.f, Reg(FloatRs2(op, rs2))), c, m, r) && FloatDone(h, op, rd, r, e)
  {
    hide CsrsOk, FloatWord, F.Decode, ExecuteFetched, RunF, F.GetF, GetReg, Reg, IsRounded, IsFused, IsMemory;
    hide FromInteger, RoundingMode, FloatResult, FloatDone, Raised, FloatRs2, F.IsFInstruction, Is32Bit;
    var w := FloatWord(op, rd, rs1, rs2, rs3, rm);
    var d := F.Decode(w);
    FloatDecodes(op, rd, rs1, rs2, rs3, rm);
    FloatRuns(cfg, fp, h, w);
    FusedIsRounded(op);
    if !IsRounded(op) { StaticDecodes(op, rd, rs1, rs2, rs3, rm); }
    FloatExecutes(cfg, fp, h, w, d, op, rd);
    assert BadRounding(h.csrs, op, rm) == BadRounding(h.csrs, op, d.rm);
  }
  lemma FusedIsRounded(op: F.InstrType) ensures IsFused(op) ==> IsRounded(op) {}
  lemma StaticDecodes(op: F.InstrType, rd: bv5, rs1: bv5, rs2: bv5, rs3: bv5, rm: bv3)
    requires !op.ILLEGAL? && !IsMemory(op) && !IsRounded(op)
    ensures F.Decode(FloatWord(op, rd, rs1, rs2, rs3, rm)).op == op
  {
    FloatDecodes(op, rd, rs1, rs2, rs3, rm);
    hide FloatWord, F.Decode;
  }

  // ------------------------------------------------------------------
  // Loads and stores
  // ------------------------------------------------------------------

  lemma FloatLoadImmediate(imm: bv12, rs1: bv5, rd: bv5) ensures F.ImmLoad(ImmediateWord(imm, rs1, 2, rd, 0x07)) == Sext12(imm) {}
  lemma FloatStoreImmediate(imm: bv12, rs2: bv5, rs1: bv5) ensures F.ImmStore(StoreWord(imm, rs2, rs1, 2, 0x27)) == Sext12(imm) {}
  lemma FlwDecodes(rd: bv5, rs1: bv5, imm: bv12)
    ensures var w := ImmediateWord(imm, rs1, 2, rd, 0x07);
      var d := F.Decode(w);
      F.IsFInstruction(w) && Is32Bit(w) && d.op.FLW? && d.rd == Reg(rd) && d.rs1 == Reg(rs1) && d.imm == Sext12(imm)
  {
    hide ImmediateWord, Opcode, Funct3, Funct7, Rd, Rs1, Rs2, F.ImmLoad, F.Rs3, F.Fmt, Reg, Sext12, Is32Bit, F.OpFpType;
    ImmediateFields(imm, rs1, 2, rd, 0x07);
    FloatLoadImmediate(imm, rs1, rd);
    LongOpcode(ImmediateWord(imm, rs1, 2, rd, 0x07));
  }
  lemma FswDecodes(rs1: bv5, rs2: bv5, imm: bv12)
    ensures var w := StoreWord(imm, rs2, rs1, 2, 0x27);
      var d := F.Decode(w);
      F.IsFInstruction(w) && Is32Bit(w) && d.op.FSW? && d.rs1 == Reg(rs1) && d.rs2 == Reg(rs2) && d.imm == Sext12(imm)
  {
    hide StoreWord, Opcode, Funct3, Funct7, Rd, Rs1, Rs2, F.ImmStore, F.Rs3, F.Fmt, Reg, Sext12, Is32Bit, F.OpFpType;
    StoreWordFields(imm, rs2, rs1, 2, 0x27);
    FloatStoreImmediate(imm, rs2, rs1);
    LongOpcode(StoreWord(imm, rs2, rs1, 2, 0x27));
  }

  lemma FlwOutcome(fp: F.FpUnit, allow: bool, d: F.Decoded, x: Regs, f: Regs, m: Mem, fcsr: Word)
    requires d.op.FLW?
    ensures var o := F.Execute(fp, allow, d, x, f, m, fcsr);
      var addr := Add(GetReg(x, d.rs1), d.imm);
      match Load(m, addr, S4, allow)
      case Loaded(v) => o == F.Outcome(F.DONE, x, F.SetF(f, d.rd, v), m, fcsr)
      case LoadFault(cause) => o == F.Outcome(F.Result(false, cause, addr), x, f, m, fcsr)
  {
    hide GetReg, F.SetF, Load, Add, F.EffectiveRm;
  }
  lemma FswOutcome(fp: F.FpUnit, allow: bool, d: F.Decoded, x: Regs, f: Regs, m: Mem, fcsr: Word)
    requires d.op.FSW?
    ensures var o := F.Execute(fp, allow, d, x, f, m, fcsr);
      var addr := Add(GetReg(x, d.rs1), d.imm);
      match Store(m, addr, S4, F.GetF(f, d.rs2), allow)
      case Stored(m') => o == F.Outcome(F.DONE, x, f, m', fcsr)
      case StoreFault(cause) => o == F.Outcome(F.Result(false, cause, addr), x, f, m, fcsr)
  {
    hide GetReg, F.GetF, Store, Add, F.EffectiveRm;
  }

  lemma MemoryRuns(cfg: Config, fp: F.FpUnit, h: State, w: Word, d: F.Decoded)
    requires CsrsOk(cfg, h.csrs) && d == F.Decode(w) && IsMemory(d.op)
    ensures var e := RunF(cfg, fp, h, w);
      var addr := Add(GetReg(h.x, d.rs1), d.imm);
      if d.op.FLW? then
        match Load(h.mem, addr, S4, cfg.allowMisaligned)
        case Loaded(v) => e == Exec(h.(f := F.SetF(h.f, d.rd, v)), Add(h.pc, W(4)), false, None)
        case LoadFault(cause) => Raised(h, cause, addr, e)
      else
        match Store(h.mem, addr, S4, F.GetF(h.f, d.rs2), cfg.allowMisaligned)
        case Stored(m) => e == Exec(h.(mem := m), Add(h.pc, W(4)), false, None)
        case StoreFault(cause) => Raised(h, cause, addr, e)
  {
    var view := F.FcsrView(GetCell(h.csrs, FCSR));
    hide CsrsOk, F.Decode, F.Execute, F.FcsrView, F.SetF, F.GetF, GetReg, Add, Load, Store, SetCell, GetCell, F.DONE, FCSR;
    FloatDoneIs();
    FcsrRoundTrip(cfg, h.csrs);
    if d.op.FLW? {
      FlwOutcome(fp, cfg.allowMisaligned, d, h.x, h.f, h.mem, view);
    } else {
      FswOutcome(fp, cfg.allowMisaligned, d, h.x, h.f, h.mem, view);
    }
  }
  lemma FloatDoneIs() ensures F.DONE == F.Result(true, W(0), W(0)) {}

  /** FLW loads a word into an FP register; faults are those of LW. */
  ghost predicate FloatLoads(cfg: Config, h: State, rd: bv5, addr: Word, e: Exec) {
    hide ValueOf, Little;
    if !cfg.allowMisaligned && Value(addr) % 4 != 0 then Raised(h, W(4), addr, e)
    else if !Fits(h.mem, addr, 4) then Raised(h, W(5), addr, e)
    else exists v :: Value(v) == Little(At(h.mem, addr, 4)) && e == Exec(h.(f := F.SetF(h.f, Reg(rd), v)), Add(h.pc, W(4)), false, None)
  }
  lemma FlwStep(cfg: Config, fp: F.FpUnit, h: State, rd: bv5, rs1: bv5, imm: bv12)
    requires cfg.f && CsrsOk(cfg, h.csrs)
    ensures FloatLoads(cfg, h, rd, Add(GetReg(h.x, Reg(rs1)), Sext12(imm)), ExecuteFetched(cfg, fp, h, ImmediateWord(imm, rs1, 2, rd, 0x07)))
  {
    assert Bytes(S4) == 4;
    hide CsrsOk, ImmediateWord, F.Decode, F.IsFInstruction, Is32Bit, ExecuteFetched, RunF, F.SetF, GetReg, Reg, Add;
    hide Sext12, Load, ValueOf, Little, Fits, Bytes;
    var w := ImmediateWord(imm, rs1, 2, rd, 0x07);
    FlwDecodes(rd, rs1, imm);
    FloatRuns(cfg, fp, h, w);
    MemoryRuns(cfg, fp, h, w, F.Decode(w));
    LoadIs(h.mem, Add(GetReg(h.x, Reg(rs1)), Sext12(imm)), S4, cfg.allowMisaligned);
  }
  /** FSW stores an FP register; faults are those of SW. */
  ghost predicate FloatStores(cfg: Config, h: State, addr: Word, v: Word, e: Exec) {
    hide ValueOf, Wrote;
    if !cfg.allowMisaligned && Value(addr) % 4 != 0 then Raised(h, W(6), addr, e)
    else if !Fits(h.mem, addr, 4) then Raised(h, W(7), addr, e)
    else e == Exec(h.(mem := e.h.mem), Add(h.pc, W(4)), false, None) && Wrote(h.mem, addr, 4, v, e.h.mem)
  }
  lemma FswStep(cfg: Config, fp: F.FpUnit, h: State, rs1: bv5, rs2: bv5, imm: bv12)
    requires cfg.f && CsrsOk(cfg, h.csrs)
    ensures FloatStores(cfg, h, Add(GetReg(h.x, Reg(rs1)), Sext12(imm)), F.GetF(h.f, Reg(rs2)),
                        ExecuteFetched(cfg, fp, h, StoreWord(imm, rs2, rs1, 2, 0x27)))
  {
    assert Bytes(S4) == 4;
    hide CsrsOk, StoreWord, F.Decode, F.IsFInstruction, Is32Bit, ExecuteFetched, RunF, F.GetF, GetReg, Reg, Add, Sext12;
    hide Store, ValueOf, Wrote, Fits, Bytes;
    var w := StoreWord(imm, rs2, rs1, 2, 0x27);
    FswDecodes(rs1, rs2, imm);
    FloatRuns(cfg, fp, h, w);
    MemoryRuns(cfg, fp, h, w, F.Decode(w));
    StoreIs(h.mem, Add(GetReg(h.x, Reg(rs1)), Sext12(imm)), S4, F.GetF(h.f, Reg(rs2)), cfg.allowMisaligned);
  }
}
