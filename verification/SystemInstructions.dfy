/** Computing, environment, privileged and CSR instructions of RV32: what their step leaves. */
module SystemInstructions {
  import opened Wrappers
  import opened Paging
  import opened Hart
  import opened HartProofs
  import opened Core32
  import opened StepProofs
  import opened ReservedSteps
  import opened TrapRules
  import opened InstructionEffects
  import CsrRules
  import LegalSteps
  import Bits

  /* ---- computing and environment ---- */

  /** Everything of the integer unit that computes a register. */
  predicate Computes(k: Kind) { UnitOf(k) == Integer && k != Illegal && k != FenceOp && k != FenceI && k != Ecall &&
      k != Ebreak }

  /** rd gets the instruction set's function of the immediate, rs1 and rs2, in this order. */
  predicate Computed(isa: Isa, g: Hart, t': State, d: Instruction)
    requires |g.x| == 32
  {
    var next := Low32(g.pc + d.length);
    (Computes(d.kind) ==> Advances(g, t', d.rd, isa.alu(d.kind, d.imm, g.x[d.rs1], g.x[d.rs2]), next)) &&
    (d.kind == FenceOp || d.kind == FenceI ==> Advances(g, t', 0, 0, next)) &&
    (d.kind == Ecall ==> Traps(g, t', 8 + PrivilegeCode(g.privilege), 0)) &&
      (d.kind == Ebreak ==> Traps(g, t', 3, g.pc))
  }

  lemma IntegerRuns(isa: Isa, b: Bus, mmu: Mmu, g: Hart, time: nat, d: Instruction)
    requires MmuReady(mmu) && |g.x| == 32 && UnitOf(d.kind) == Integer
    ensures RunUnit(isa, b, mmu, g, time, d).0 == RunInteger(isa, g, d, g.x[d.rs1], g.x[d.rs2])
  {
    hide RunControlFlow; hide RunAtomic; hide RunMemory; hide RunCsr; hide RunPrivileged; hide RunInteger; hide UnitOf;
  }

  lemma IntegerUnit(isa: Isa, g: Hart, d: Instruction)
    requires |g.x| == 32 && g.x[0] == 0 && !g.waiting
    ensures var o, next := RunInteger(isa, g, d, g.x[d.rs1], g.x[d.rs2]), Low32(g.pc + d.length);
            (Computes(d.kind) ==> Answers(g, o, d.rd, isa.alu(d.kind, d.imm, g.x[d.rs1], g.x[d.rs2]), next)) &&
            (d.kind == FenceOp || d.kind == FenceI ==> Answers(g, o, 0, 0, next)) &&
            (d.kind == Ecall ==> o == Trap(8 + PrivilegeCode(g.privilege), 0, NoFault)) &&
            (d.kind == Ebreak ==> o == Trap(3, g.pc, NoFault))
  {
    hide Answers; hide Simple; hide Low32; hide Wrap;
    WrapIs(g.pc + d.length);
    SimpleAnswers(g, Next(g.pc, d), d.rd, isa.alu(d.kind, d.imm, g.x[d.rs1], g.x[d.rs2]));
  }

  lemma IntegerEffect(isa: Isa, t: State, input: Input)
    requires Good(t) && Executed(isa, t, input).Some?
    ensures var g := Found(t, input);
        |g.x| == 32 && Computed(isa, g, Left(isa, t, input), Executed(isa, t, input).value)
  {
    hide FetchDecode; hide Left; hide Executed; hide Committed; hide ItemsLegal; hide CachesShaped; hide Legal;
    hide RunUnit;
    hide Lined; hide RunInteger; hide Advances; hide UnitOf; hide Traps; hide Low32;
    Concludes(isa, t, input);
    var g, d := Found(t, input), Executed(isa, t, input).value;
    var (f, b1, c1) := FetchDecode(isa, t.b, g, t.c);
    EnvironmentUnit(d.kind);
    if UnitOf(d.kind) == Integer {
      IntegerRuns(isa, b1, MmuOf(c1), g, input.time, d);
      IntegerAnswered(isa, g, Left(isa, t, input), d);
    }
  }

  lemma IntegerAnswered(isa: Isa, g: Hart, t': State, d: Instruction)
    requires |g.x| == 32 && g.x[0] == 0 && !g.waiting
    requires var o := RunInteger(isa, g, d, g.x[d.rs1], g.x[d.rs2]);
             (o.Retire? ==> Committed(g, o.c) == Some(t'.h)) && (o.Trap? ==> Traps(g, t', o.cause, o.value))
    ensures Computed(isa, g, t', d)
  {
    hide Committed; hide RunInteger; hide Advances; hide Answers; hide UnitOf; hide Traps; hide Low32; hide Jumps;
    hide AnswersJump;
    IntegerUnit(isa, g, d);
    var o := RunInteger(isa, g, d, g.x[d.rs1], g.x[d.rs2]);
    Answered(g, t', o, d.rd, isa.alu(d.kind, d.imm, g.x[d.rs1], g.x[d.rs2]), Low32(g.pc + d.length));
    Answered(g, t', o, 0, 0, Low32(g.pc + d.length));
  }

  lemma EnvironmentUnit(k: Kind)
    ensures k == FenceOp || k == FenceI || k == Ecall || k == Ebreak ==> UnitOf(k) == Integer
    ensures k == Wfi || k == SfenceVma || k == MretOp || k == SretOp ==> UnitOf(k) == Privileged
  {}

  /* ---- privileged ---- */

  /** Each is an illegal instruction below the privilege that it needs, or in supervisor mode when its guard bit is
      set. SFENCE.VMA goes on; WFI goes on and waits. */
  predicate WentOn(g: Hart, t': State, d: Instruction)
    requires |g.x| == 32
  {
    var next := Low32(g.pc + d.length);
    (d.kind == SfenceVma ==>
       if g.privilege == Machine || (g.privilege == Supervisor && !g.status.tvm) then Advances(g, t', 0, 0, next)
       else Traps(g, t', 2, d.raw)) &&
    (d.kind == Wfi ==>
       if g.privilege == Machine || (g.privilege == Supervisor && !g.status.tw) then
         Advances(g.(waiting := true), t', 0, 0, next)
       else Traps(g, t', 2, d.raw))
  }

  /** A return goes to its epc in the stacked mode; TrapRules and LegalSteps say what becomes of mstatus. */
  predicate Returned(g: Hart, t': State, d: Instruction)
    requires |g.x| == 32
  {
    (d.kind == MretOp ==>
       if g.privilege == Machine then t'.h.pc == g.mepc && t'.h.privilege == g.status.mpp && t'.h.x == g.x
       else Traps(g, t', 2, d.raw)) &&
    (d.kind == SretOp ==>
       if g.privilege == Machine || (g.privilege == Supervisor && !g.status.tsr) then
         t'.h.pc == g.sepc && t'.h.privilege == (if g.status.spp then Supervisor else User) && t'.h.x == g.x
       else Traps(g, t', 2, d.raw))
  }

  lemma PrivilegedRuns(isa: Isa, b: Bus, mmu: Mmu, g: Hart, time: nat, d: Instruction)
    requires MmuReady(mmu) && UnitOf(d.kind) == Privileged
    ensures RunUnit(isa, b, mmu, g, time, d).0 == RunPrivileged(g, d)
  {
    hide RunControlFlow; hide RunAtomic; hide RunMemory; hide RunCsr; hide RunPrivileged; hide RunInteger; hide UnitOf;
    hide Reg;
  }

  lemma ReturnFields(g: Hart, d: Instruction)
    requires LegalStatus(Rv32, g.status)
    ensures d.kind == MretOp && g.privilege == Machine ==>
            var o := RunPrivileged(g, d);
            o.Retire? && o.c.next == g.mepc && o.c.privilege == Some(g.status.mpp) && o.c.reg.None?
    ensures d.kind == SretOp && (g.privilege == Machine || (g.privilege == Supervisor && !g.status.tsr)) ==>
            var o := RunPrivileged(g, d);
            o.Retire? && o.c.next == g.sepc && o.c.privilege == Some(if g.status.spp then Supervisor else User) &&
            o.c.reg.None?
    ensures d.kind == MretOp && g.privilege != Machine ==> RunPrivileged(g, d) == Trap(2, d.raw, NoFault)
    ensures d.kind == SretOp && !(g.privilege == Machine || (g.privilege == Supervisor && !g.status.tsr)) ==>
        RunPrivileged(g, d) == Trap(2, d.raw, NoFault)
  {
    hide StatusWord; hide Next; hide LegalStatus;
    LegalSanitized(Rv32, g.status);
  }

  lemma WaitFields(g: Hart, d: Instruction)
    requires |g.x| == 32 && g.x[0] == 0 && !g.waiting
    ensures var o, next := RunPrivileged(g, d), Low32(g.pc + d.length);
            (d.kind == SfenceVma ==>
               if g.privilege == Machine || (g.privilege == Supervisor && !g.status.tvm) then Answers(g, o, 0, 0, next)
               else o == Trap(2, d.raw, NoFault)) &&
            (d.kind == Wfi ==>
               if g.privilege == Machine || (g.privilege == Supervisor && !g.status.tw) then
                 o == Retire(Commit(g.pc, next, None, None, None, true))
               else o == Trap(2, d.raw, NoFault))
  {
    hide StatusWord; hide Answers; hide Simple; hide Low32; hide Wrap;
    WrapIs(g.pc + d.length);
    SimpleAnswers(g, Next(g.pc, d), 0, 0);
  }

  lemma Waits(g: Hart, t': State, next: nat)
    requires |g.x| == 32 && g.x[0] == 0 && !g.waiting
    requires Committed(g, Commit(g.pc, next, None, None, None, true)) == Some(t'.h)
    ensures Advances(g.(waiting := true), t', 0, 0, next)
  {
    hide Committed;
    PlainCommitted(g, next, None, true);
  }

  lemma GoesOn(g: Hart, t': State, d: Instruction)
    requires |g.x| == 32 && g.x[0] == 0 && !g.waiting
    requires var o := RunPrivileged(g, d);
             (o.Retire? ==> Committed(g, o.c) == Some(t'.h)) && (o.Trap? ==> Traps(g, t', o.cause, o.value))
    ensures WentOn(g, t', d)
  {
    hide Committed; hide RunPrivileged; hide Traps; hide Low32; hide Answers; hide AnswersJump; hide Advances;
    hide Jumps;
    WaitFields(g, d);
    var o, next := RunPrivileged(g, d), Low32(g.pc + d.length);
    Answered(g, t', o, 0, 0, next);
    if o == Retire(Commit(g.pc, next, None, None, None, true)) { Waits(g, t', next); }
  }

  lemma Returns(g: Hart, t': State, d: Instruction)
    requires |g.x| == 32 && g.x[0] == 0 && LegalStatus(Rv32, g.status)
    requires var o := RunPrivileged(g, d);
             (o.Retire? ==> Committed(g, o.c) == Some(t'.h)) && (o.Trap? ==> Traps(g, t', o.cause, o.value))
    ensures Returned(g, t', d)
  {
    hide Committed; hide RunPrivileged; hide Traps; hide LegalStatus;
    ReturnFields(g, d);
    var o := RunPrivileged(g, d);
    if o.Retire? && o.c.reg.None? { ReturnRegisters(g, o.c); }
  }

  lemma PrivilegedEffect(isa: Isa, t: State, input: Input)
    requires Good(t) && Executed(isa, t, input).Some?
    ensures var g, t', d := Found(t, input), Left(isa, t, input), Executed(isa, t, input).value;
            |g.x| == 32 && WentOn(g, t', d) && Returned(g, t', d)
  {
    hide FetchDecode; hide Left; hide Executed; hide Committed; hide ItemsLegal; hide CachesShaped; hide RunUnit;
    hide Lined; hide RunPrivileged; hide UnitOf; hide Traps; hide Low32; hide LegalStatus; hide LegalSatp;
    hide Advances;
    Concludes(isa, t, input);
    var g, d := Found(t, input), Executed(isa, t, input).value;
    FoundLegal(t, input);
    var (f, b1, c1) := FetchDecode(isa, t.b, g, t.c);
    EnvironmentUnit(d.kind);
    if UnitOf(d.kind) == Privileged {
      PrivilegedRuns(isa, b1, MmuOf(c1), g, input.time, d);
      GoesOn(g, Left(isa, t, input), d);
      Returns(g, Left(isa, t, input), d);
    }
  }

  lemma FoundLegal(t: State, input: Input)
    requires Legal(Rv32, t.h)
    ensures LegalStatus(Rv32, Found(t, input).status) && !Found(t, input).waiting
  {}

  lemma ReturnRegisters(g: Hart, c: Commit)
    requires Committed(g, c).Some? && |g.x| == 32 && g.x[0] == 0 && c.reg.None?
    ensures var h := Committed(g, c).value;
            h.x == g.x && h.pc == c.next && (c.privilege.Some? ==> h.privilege == c.privilege.value)
  {
    hide Committed;
    LegalSteps.CommitEffect(g, c);
    assert Zeroed(g.x) == g.x;
  }

  /* ---- CSR instructions ---- */

  predicate IsCsr(k: Kind) { k == Csrrw || k == Csrrs || k == Csrrc || k == Csrrwi || k == Csrrsi || k == Csrrci }

  predicate Swaps(k: Kind) { k == Csrrw || k == Csrrwi }

  predicate SetsBits(k: Kind) { k == Csrrs || k == Csrrsi }

  /** The operand: rs1 or the immediate. */
  function Source(g: Hart, d: Instruction): nat
    requires |g.x| == 32
  {
    if d.kind == Csrrwi || d.kind == Csrrsi || d.kind == Csrrci then d.imm else g.x[d.rs1]
  }

  /** A swap reads unless rd is x0; setting and clearing write unless rs1 is x0 or the immediate 0. */
  predicate Reads(d: Instruction) { !Swaps(d.kind) || d.rd != 0 }

  predicate WritesCsr(d: Instruction) {
    Swaps(d.kind) || (if d.kind == Csrrsi || d.kind == Csrrci then d.imm != 0 else d.rs1 != 0)
  }

  /** The value written: the operand, or what is there with the operand's bits set or cleared. */
  ghost predicate IsModified(g: Hart, d: Instruction, was: nat, now: nat)
    requires |g.x| == 32
  {
    var base := ReadForWrite(Rv32, g, d.csr, was);
    if Swaps(d.kind) then now == Source(g, d)
    else forall k: nat :: k < 32 ==>
      (CsrRules.On(now, k) <==>
         if SetsBits(d.kind) then CsrRules.On(base, k) || CsrRules.On(Source(g, d), k)
         else CsrRules.On(base, k) && !CsrRules.On(Source(g, d), k))
  }

  /** The write or the read that it makes is refused. */
  predicate Refused(g: Hart, d: Instruction) {
    (WritesCsr(d) && ValidateWrite(Rv32, g, d.csr, g.privilege) != CsrReady) ||
    (Reads(d) && ValidateRead(Rv32, g, d.csr, g.privilege) != CsrReady)
  }

  /** What it reads; a swap that does not read sees 0. */
  function Read(g: Hart, time: nat, d: Instruction): nat { if Reads(d) then ReadCsr(Rv32, g, time, d.csr) else 0 }

  /** The CSR is written with such a value after everything else. */
  ghost predicate Writes(g: Hart, d: Instruction, was: nat, before: Hart, h: Hart)
    requires |g.x| == 32
  {
    exists now :: IsModified(g, d, was, now) && h == WriteCsr(Rv32, before, d.csr, now)
  }

  /** What a CSR instruction leaves: an illegal instruction if it is refused; else rd holds what was read and the CSR
      is written, if it is. */
  ghost predicate CsrDone(g: Hart, time: nat, h: Hart, d: Instruction)
    requires |g.x| == 32
  {
    if Refused(g, d) then h == TakeTrap(Rv32, g, 2, g.pc, d.raw)
    else
      var was := Read(g, time, d);
      var before := Stepped(g, d.rd, was, Low32(g.pc + d.length));
      if WritesCsr(d) then Writes(g, d, was, before, h) else h == before
  }

  lemma CsrRuns(isa: Isa, b: Bus, mmu: Mmu, g: Hart, time: nat, d: Instruction)
    requires MmuReady(mmu) && |g.x| == 32 && IsCsr(d.kind)
    ensures RunUnit(isa, b, mmu, g, time, d).0 == RunCsr(g, time, d, g.x[d.rs1])
  {
    hide RunControlFlow; hide RunAtomic; hide RunMemory; hide RunCsr; hide RunPrivileged; hide RunInteger;
  }

  lemma ModifiedIs(g: Hart, d: Instruction, was: nat)
    requires |g.x| == 32 && IsCsr(d.kind)
    ensures var base := if Swaps(d.kind) then was else ReadForWrite(Rv32, g, d.csr, was);
            IsModified(g, d, was, Modified(d.kind, base, Source(g, d)))
  {
    hide ReadForWrite; hide CsrRules.On; hide Bits.Or; hide Bits.AndNot;
    var base, source := ReadForWrite(Rv32, g, d.csr, was), Source(g, d);
    forall k: nat | k < 32
      ensures CsrRules.On(Bits.Or(base, source, 32), k) <==> CsrRules.On(base, k) || CsrRules.On(source, k)
      ensures CsrRules.On(Bits.AndNot(base, source, 32), k) <==> CsrRules.On(base, k) && !CsrRules.On(source, k) {
      CsrRules.OrIs(base, source, 32, k);
      CsrRules.AndNotIs(base, source, 32, k);
    }
  }

  /** A commit that writes a register and then a CSR. */
  lemma CsrCommitted(g: Hart, next: nat, rd: nat, was: nat, a: nat, now: nat)
    requires |g.x| == 32 && g.x[0] == 0 && !g.waiting && rd < 32 && ValidateWrite(Rv32, g, a, g.privilege) == CsrReady
    ensures var c := Commit(g.pc, next, if rd != 0 then Some((rd, was)) else None, Some((a, now)), None, false);
            Committed(g, c) == Some(WriteCsr(Rv32, Stepped(g, rd, was, next), a, now))
  {
    hide WriteCsr; hide ValidateWrite;
    assert Zeroed(g.x) == g.x;
    if rd != 0 { assert Zeroed(g.x[rd := was]) == g.x[rd := was]; }
  }

  function Now(g: Hart, time: nat, d: Instruction): nat
    requires |g.x| == 32
  {
    var was := Read(g, time, d);
    Modified(d.kind, if Swaps(d.kind) then was else ReadForWrite(Rv32, g, d.csr, was), Source(g, d))
  }

  lemma CsrAnswers(g: Hart, time: nat, d: Instruction)
    requires |g.x| == 32 && IsCsr(d.kind)
    ensures var o := RunCsr(g, time, d, g.x[d.rs1]);
            if Refused(g, d) then o == Trap(2, d.raw, NoFault)
            else o == Retire(Commit(g.pc, Next(g.pc, d), if d.rd != 0 then Some((d.rd, Read(g, time, d))) else None,
                                    if WritesCsr(d) then Some((d.csr, Now(g, time, d))) else None, None, false))
  {
    hide ValidateWrite; hide ValidateRead; hide ReadCsr; hide ReadForWrite; hide Modified; hide Next;
  }

  lemma NowIs(g: Hart, time: nat, d: Instruction)
    requires |g.x| == 32 && IsCsr(d.kind)
    ensures IsModified(g, d, Read(g, time, d), Now(g, time, d))
  {
    hide IsModified; hide Modified;
    ModifiedIs(g, d, Read(g, time, d));
  }

  lemma ReadCommitted(g: Hart, next: nat, rd: nat, was: nat)
    requires |g.x| == 32 && g.x[0] == 0 && !g.waiting && rd < 32
    ensures Committed(g, Commit(g.pc, next, if rd != 0 then Some((rd, was)) else None, None, None, false)) ==
        Some(Stepped(g, rd, was, next))
  {
    hide Committed;
    PlainCommitted(g, next, if rd != 0 then Some((rd, was)) else None, false);
  }

  lemma CsrUnit(g: Hart, time: nat, d: Instruction, h: Hart)
    requires |g.x| == 32 && g.x[0] == 0 && !g.waiting && IsCsr(d.kind)
    requires var o := RunCsr(g, time, d, g.x[d.rs1]);
             (o.Retire? ==> Committed(g, o.c) == Some(h)) &&
               (o.Trap? ==> h == TakeTrap(Rv32, g, o.cause, g.pc, o.value))
    ensures CsrDone(g, time, h, d)
  {
    hide WriteCsr; hide ValidateWrite; hide ValidateRead; hide ReadCsr; hide ReadForWrite; hide Modified;
    hide Committed;
    hide TakeTrap; hide Low32; hide Wrap; hide IsModified; hide RunCsr; hide Stepped;
    hide Now; hide Read;
    WrapIs(g.pc + d.length);
    CsrAnswers(g, time, d);
    var was := Read(g, time, d);
    assert IsModified(g, d, was, Now(g, time, d)) by { NowIs(g, time, d); }
    if !Refused(g, d) {
      if WritesCsr(d) {
        CsrCommitted(g, Next(g.pc, d), d.rd, was, d.csr, Now(g, time, d));
        assert Writes(g, d, was, Stepped(g, d.rd, was, Next(g.pc, d)), h);
      }
      else { ReadCommitted(g, Next(g.pc, d), d.rd, was); }
    }
  }

  lemma CsrEffect(isa: Isa, t: State, input: Input)
    requires Good(t) && Executed(isa, t, input).Some? && IsCsr(Executed(isa, t, input).value.kind)
    ensures var g := Found(t, input);
            |g.x| == 32 && CsrDone(g, input.time, Left(isa, t, input).h, Executed(isa, t, input).value)
  {
    hide FetchDecode; hide Left; hide Executed; hide Committed; hide ItemsLegal; hide CachesShaped; hide RunUnit;
    hide Lined; hide RunCsr; hide TakeTrap; hide CsrDone; hide LegalStatus; hide LegalSatp;
    Concludes(isa, t, input);
    var g, d := Found(t, input), Executed(isa, t, input).value;
    var (f, b1, c1) := FetchDecode(isa, t.b, g, t.c);
    CsrRuns(isa, b1, MmuOf(c1), g, input.time, d);
    CsrUnit(g, input.time, d, Left(isa, t, input).h);
  }
}
