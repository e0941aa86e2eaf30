/** What the return instructions do when they are executed. */
module Returns {
  import opened Bits
  import opened Common
  import opened Zicsr
  import opened Hart
  import F = Rv32f
  import I = Rv32i

  predicate IsReturn(i: Word) { i == I.MRET_WORD || i == I.SRET_WORD }

  lemma ReturnDispatch(cfg: Config, fp: F.FpUnit, h: State, i: Word)
    requires IsReturn(i)
    ensures ExecuteFetched(cfg, fp, h, i) == RunI(cfg, h, i)
  {
    SystemFields(i);
    hide RunI, Opcode, Funct3, Is32Bit;
  }
  lemma SystemFields(i: Word)
    requires IsReturn(i)
    ensures Is32Bit(i) && Opcode(i) == 0x73 && Funct3(i) == 0
  {}

  lemma ReturnDecodes(s: bool)
    ensures I.Decode(I.MRET_WORD, s).op.MRET?
    ensures I.Decode(I.SRET_WORD, s).op == if s then I.SRET else I.ILLEGAL
  {
    SystemFields(I.MRET_WORD);
    SystemFields(I.SRET_WORD);
    assert I.MRET_WORD == W(0x3020_0073) && I.SRET_WORD == W(0x1020_0073);
    hide Opcode, Funct3;
  }

  lemma SystemOutcome(cfg: I.Config, d: I.Decoded, x: Regs, m: Mem, pc: Word)
    requires d.op.MRET? || d.op.SRET? || d.op.ILLEGAL?
    ensures I.Execute(cfg, d, x, m, pc) == I.Outcome(I.ExecuteSystem(cfg, d, pc), x, m)
  {}

  /** MRET is legal exactly in M mode. */
  lemma RunMret(cfg: Config, h: State)
    ensures var e := RunI(cfg, h, I.MRET_WORD);
      (e.trap.None? <==> h.csrs.priv == MACHINE) &&
      (e.trap.None? ==> e.h == h.(csrs := Mret(h.csrs)) && e.nextPc == GetCell(h.csrs, MEPC))
  {
    ReturnDecodes(cfg.s);
    SystemOutcome(IConfig(cfg, h.csrs), I.Decode(I.MRET_WORD, cfg.s), h.x, h.mem, h.pc);
    hide I.Decode, I.Execute, Mret, GetCell, Add;
  }

  /** SRET is legal exactly when S exists and the mode and TSR allow it. */
  lemma RunSret(cfg: Config, h: State)
    ensures var e := RunI(cfg, h, I.SRET_WORD);
      (e.trap.None? <==> cfg.s && !Blocked(h.csrs, MSTATUS_TSR)) &&
      (e.trap.None? ==> e.h == h.(csrs := Sret(h.csrs)) && e.nextPc == GetCell(h.csrs, SEPC))
  {
    ReturnDecodes(cfg.s);
    SystemOutcome(IConfig(cfg, h.csrs), I.Decode(I.SRET_WORD, cfg.s), h.x, h.mem, h.pc);
    hide I.Decode, I.Execute, Sret, GetCell, Add, Blocked;
  }
}
