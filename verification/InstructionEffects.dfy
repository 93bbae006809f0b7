/** What one RV32 step leaves, instruction by instruction, in terms of the registers and the pc before it. */
module InstructionEffects {
  import opened Wrappers
  import opened Address
  import opened Paging
  import opened Hart
  import opened HartProofs
  import opened Core32
  import opened StepProofs
  import opened MemoryEffects
  import opened ReservedSteps
  import opened TrapRules
  import CsrRules
  import LegalSteps
  import Icache
  import Tlb
  import Bits

  /** The hart that an instruction finds: lines sampled, awake. */
  function Found(t: State, input: Input): Hart { Lined(t.h, input.lines).(waiting := false) }

  /** Addresses are 32 bits wide. */
  function Low32(v: nat): nat { v % 0x1_0000_0000 }

  /** rd holds v, the next pc is this one, one more has retired, all else is the same. */
  function Stepped(g: Hart, rd: nat, v: nat, next: nat): Hart
    requires |g.x| == 32 && rd < 32
  {
    g.(x := if rd == 0 then g.x else g.x[rd := v], pc := next, retired := (g.retired + 1) % 0x1_0000_0000_0000_0000)
  }

  /** The instruction retires with that. */
  predicate Advances(g: Hart, t': State, rd: nat, v: nat, next: nat)
    requires |g.x| == 32 && rd < 32
  {
    t'.h == Stepped(g, rd, v, next)
  }

  /** It traps with this cause and value. */
  predicate Traps(g: Hart, t': State, cause: nat, value: nat) { t'.h == TakeTrap(Rv32, g, cause, g.pc, value) }

  /** The outcome of the unit, and what the step makes of it. */
  lemma Concludes(isa: Isa, t: State, input: Input)
    requires Good(t) && Executed(isa, t, input).Some?
    ensures var g := Found(t, input);
            var (f, b1, c1) := FetchDecode(isa, t.b, g, t.c);
            |g.x| == 32 && g.x[0] == 0 && g.pc == t.h.pc && MmuReady(MmuOf(c1)) &&
            f == Got(Item(f.item.raw, Executed(isa, t, input).value)) &&
            var (o, b2, _) := RunUnit(isa, b1, MmuOf(c1), g, input.time, f.item.decoded);
            var t' := Left(isa, t, input);
            t'.b == b2 && !o.NotMine? &&
            (o.Retire? ==> Committed(g, o.c) == Some(t'.h)) && (o.Trap? ==> Traps(g, t', o.cause, o.value))
  {
    hide FetchDecode; hide RunUnit; hide ItemsLegal; hide CachesShaped; hide Committed; hide Step; hide Trapped;
    hide Legal;
    hide SelectFrom; hide WakeRequested; hide TakeTrap; hide Lined;
    StepShows(isa, t, input);
    BeginsExactly(t.h, input.lines);
    var g := Begin(t.h, input.lines).h;
    FoundIs(t, input);
    var (f, b1, c1) := FetchDecode(isa, t.b, g, t.c);
    FetchLegal(isa, t.b, g, t.c);
    StepRuns(isa, t.h, t.b, t.c, input);
    UnitCommits(isa, b1, MmuOf(c1), g, input.time, f.item.decoded);
    var o := RunUnit(isa, b1, MmuOf(c1), g, input.time, f.item.decoded).0;
    Concluded(g, f.item, o);
  }

  lemma FoundIs(t: State, input: Input)
    requires Legal(Rv32, t.h)
    ensures var g := Found(t, input); |g.x| == 32 && g.x[0] == 0 && g.pc == t.h.pc
  {}

  lemma Concluded(g: Hart, item: Item, o: Outcome)
    requires !o.NotMine? && Commits(g, o)
    ensures var h := Conclude(g, item, o).1;
            (o.Retire? ==> Committed(g, o.c) == Some(h)) && (o.Trap? ==> h == TakeTrap(Rv32, g, o.cause, g.pc, o.value))
  {
    hide Committed; hide TakeTrap;
  }

  /** A plain commit, which writes at most a register. */
  lemma PlainCommitted(g: Hart, next: nat, reg: Option<(nat, nat)>, w: bool)
    requires |g.x| == 32 && g.x[0] == 0 && !g.waiting && (reg.Some? ==> reg.value.0 < 32)
    ensures var c := Commit(g.pc, next, reg, None, None, w);
            Committed(g, c) ==
              Some(Stepped(g, if reg.Some? then reg.value.0 else 0, if reg.Some? then reg.value.1 else 0,
                next).(waiting := w))
  {
    assert Zeroed(g.x) == g.x;
    if reg.Some? && reg.value.0 != 0 { assert Zeroed(g.x[reg.value.0 := reg.value.1]) ==
        g.x[reg.value.0 := reg.value.1]; }
  }

  /* ---- jumps and branches ---- */

  /** A jump to an even target links and goes there; an odd one traps on it and links nothing. */
  predicate Jumps(g: Hart, t': State, rd: nat, link: nat, target: nat)
    requires |g.x| == 32 && rd < 32
  {
    if target % 2 == 0 then Advances(g, t', rd, link, target) else Traps(g, t', 0, target)
  }

  predicate IsBranch(k: Kind) { k == Beq || k == Bne || k == Blt || k == Bge || k == Bltu || k == Bgeu }

  /** What jumps, branches and AUIPC leave. */
  predicate Flows(isa: Isa, g: Hart, t': State, d: Instruction)
    requires |g.x| == 32
  {
    var next, there := Low32(g.pc + d.length), Low32(g.pc + d.imm);
    var indirect := Low32(g.x[d.rs1] + d.imm);
    (d.kind == Auipc ==> Advances(g, t', d.rd, there, next)) &&
    (d.kind == Jal ==> Jumps(g, t', d.rd, next, there)) &&
    (d.kind == Jalr ==> Jumps(g, t', d.rd, next, indirect - indirect % 2)) &&
    (IsBranch(d.kind) ==>
       if isa.taken(d.kind, g.x[d.rs1], g.x[d.rs2]) then Jumps(g, t', 0, 0, there) else Advances(g, t', 0, 0, next))
  }

  /** AUIPC, JAL, JALR and the branches, whose conditions the instruction set gives. */
  lemma ControlFlowEffect(isa: Isa, t: State, input: Input)
    requires Good(t) && Executed(isa, t, input).Some?
    ensures var g := Found(t, input); |g.x| == 32 && Flows(isa, g, Left(isa, t, input), Executed(isa, t, input).value)
  {
    hide FetchDecode; hide Left; hide Executed; hide Committed; hide Traps; hide ItemsLegal; hide CachesShaped;
    hide Legal; hide RunUnit; hide Lined; hide RunControlFlow; hide Advances; hide Jumps; hide Answers;
    hide AnswersJump;
    Concludes(isa, t, input);
    var g, d := Found(t, input), Executed(isa, t, input).value;
    var (f, b1, c1) := FetchDecode(isa, t.b, g, t.c);
    if d.kind == Auipc || d.kind == Jal || d.kind == Jalr || IsBranch(d.kind) {
      ControlRuns(isa, b1, MmuOf(c1), g, input.time, d);
      ControlUnit(isa, g, d);
      var o := RunControlFlow(isa, g, d, g.x[d.rs1], g.x[d.rs2]);
      forall rd: nat, v: nat, n: nat | rd < 32
          ensures Answers(g, o, rd, v, n) ==> Advances(g, Left(isa, t, input), rd, v, n)
        ensures AnswersJump(g, o, rd, v, n) ==> Jumps(g, Left(isa, t, input), rd, v, n) {
        Answered(g, Left(isa, t, input), o, rd, v, n);
      }
    }
  }

  /** What the unit answers is a plain commit or a trap. */
  predicate Answers(g: Hart, o: Outcome, rd: nat, v: nat, next: nat) {
    o.Retire? && rd < 32 && |g.x| == 32 &&
    Committed(g, o.c) == Some(Stepped(g, rd, v, next))
  }

  predicate AnswersJump(g: Hart, o: Outcome, rd: nat, link: nat, target: nat) {
    if target % 2 == 0 then Answers(g, o, rd, link, target) else o.Trap? && o.cause == 0 && o.value == target
  }

  lemma SimpleAnswers(g: Hart, next: nat, rd: nat, v: nat)
    requires |g.x| == 32 && g.x[0] == 0 && !g.waiting && rd < 32
    ensures Answers(g, Simple(g.pc, next, Some((rd, v))), rd, v, next) &&
        Answers(g, Simple(g.pc, next, None), 0, 0, next)
  {
    hide Committed;
    PlainCommitted(g, next, Some((rd, v)), false);
    PlainCommitted(g, next, None, false);
  }

  lemma RegIs(g: Hart, i: nat)
    requires |g.x| == 32 && i < 32
    ensures Reg(g, i) == g.x[i]
  {}

  lemma ControlRuns(isa: Isa, b: Bus, mmu: Mmu, g: Hart, time: nat, d: Instruction)
    requires MmuReady(mmu) && |g.x| == 32
    requires d.kind == Auipc || d.kind == Jal || d.kind == Jalr || IsBranch(d.kind)
    ensures RunUnit(isa, b, mmu, g, time, d).0 == RunControlFlow(isa, g, d, g.x[d.rs1], g.x[d.rs2])
  {
    hide RunControlFlow; hide RunAtomic; hide RunMemory; hide RunCsr; hide RunPrivileged; hide RunInteger;
  }

  lemma Answered(g: Hart, t': State, o: Outcome, rd: nat, v: nat, next: nat)
    requires |g.x| == 32 && rd < 32 && (o.Retire? ==> Committed(g, o.c) == Some(t'.h))
    requires o.Trap? ==> Traps(g, t', o.cause, o.value)
    ensures Answers(g, o, rd, v, next) ==> Advances(g, t', rd, v, next)
    ensures AnswersJump(g, o, rd, v, next) ==> Jumps(g, t', rd, v, next)
  {
    hide Committed; hide TakeTrap;
  }

  /** What the control-flow unit answers. */
  predicate FlowAnswers(isa: Isa, g: Hart, o: Outcome, d: Instruction)
    requires |g.x| == 32
  {
    var next, there := Low32(g.pc + d.length), Low32(g.pc + d.imm);
    var indirect := Low32(g.x[d.rs1] + d.imm);
    (d.kind == Auipc ==> Answers(g, o, d.rd, there, next)) &&
    (d.kind == Jal ==> AnswersJump(g, o, d.rd, next, there)) &&
    (d.kind == Jalr ==> AnswersJump(g, o, d.rd, next, indirect - indirect % 2)) &&
    (IsBranch(d.kind) ==>
       if isa.taken(d.kind, g.x[d.rs1], g.x[d.rs2]) then AnswersJump(g, o, 0, 0, there) else Answers(g, o, 0, 0, next))
  }

  lemma JumpAnswers(g: Hart, target: nat, rd: nat, link: nat)
    requires |g.x| == 32 && g.x[0] == 0 && !g.waiting && rd < 32
    ensures AnswersJump(g, Jump(g, target, Some((rd, link))), rd, link, target)
    ensures AnswersJump(g, Jump(g, target, None), 0, 0, target)
  {
    hide Answers; hide Simple;
    SimpleAnswers(g, target, rd, link);
  }

  lemma WrapIs(v: nat)
    ensures Wrap(Rv32, v) == Low32(v)
  {}

  lemma ControlUnit(isa: Isa, g: Hart, d: Instruction)
    requires |g.x| == 32 && g.x[0] == 0 && !g.waiting
    ensures FlowAnswers(isa, g, RunControlFlow(isa, g, d, g.x[d.rs1], g.x[d.rs2]), d)
  {
    hide Answers; hide Simple; hide Jump; hide AnswersJump; hide Wrap; hide Low32;
    WrapIs(g.pc + d.length);
    WrapIs(g.pc + d.imm);
    WrapIs(g.x[d.rs1] + d.imm);
    var next, there := Next(g.pc, d), Wrap(Rv32, g.pc + d.imm);
    var indirect := Wrap(Rv32, g.x[d.rs1] + d.imm);
    SimpleAnswers(g, next, d.rd, there);
    JumpAnswers(g, there, d.rd, next);
    JumpAnswers(g, Even(indirect), d.rd, next);
  }

  /* ---- what the step reports ---- */

  /** The bus fault that a trap reports goes with its cause: misaligned for 4 and 6, unmapped for 5 and 7. */
  predicate FaultOfCause(cause: nat, fault: Fault) {
    fault == if cause == 4 || cause == 6 then Misaligned else if cause == 5 || cause == 7 then Unmapped else NoFault
  }

  lemma UnitFaults(isa: Isa, b: Bus, mmu: Mmu, g: Hart, time: nat, d: Instruction)
    requires MmuReady(mmu)
    ensures var o := RunUnit(isa, b, mmu, g, time, d).0; o.Trap? ==> FaultOfCause(o.cause, o.fault)
  {
    hide MmuTranslate; hide ReadCsr; hide ReadForWrite; hide ValidateRead; hide ValidateWrite; hide Modified;
    hide UnitOf;
    hide Wrap; hide StatusWord; hide Even; hide Part; hide PutPart; hide Reg; hide RunInteger; hide RunPrivileged;
    hide RunControlFlow; hide RunCsr; hide RunAtomic; hide RunMemory;
    var x, y := Reg(g, d.rs1), Reg(g, d.rs2);
    PlainFaults(isa, g, d, x, y);
    SystemFaults(g, time, d, x);
    AtomicFaults(isa, b, mmu, g, d, x, y);
    MemoryFaults(isa, b, mmu, g, d, x, y);
  }

  lemma PlainFaults(isa: Isa, g: Hart, d: Instruction, x: nat, y: nat)
    ensures var o := RunInteger(isa, g, d, x, y); o.Trap? ==> FaultOfCause(o.cause, o.fault)
    ensures var o := RunControlFlow(isa, g, d, x, y); o.Trap? ==> FaultOfCause(o.cause, o.fault)
  {
    hide Wrap; hide Even; hide FaultOfCause;
    TrapFaults();
  }

  lemma SystemFaults(g: Hart, time: nat, d: Instruction, x: nat)
    ensures var o := RunPrivileged(g, d); o.Trap? ==> FaultOfCause(o.cause, o.fault)
    ensures var o := RunCsr(g, time, d, x); o.Trap? ==> FaultOfCause(o.cause, o.fault)
  {
    hide ReadCsr; hide ReadForWrite; hide ValidateRead; hide ValidateWrite; hide Modified; hide Wrap; hide StatusWord;
    hide FaultOfCause; hide PlanCsr;
    TrapFaults();
  }

  lemma AtomicFaults(isa: Isa, b: Bus, mmu: Mmu, g: Hart, d: Instruction, x: nat, y: nat)
    requires MmuReady(mmu)
    ensures var o := RunAtomic(isa, b, mmu, g, d, x, y).0; o.Trap? ==> FaultOfCause(o.cause, o.fault)
  {
    hide MmuTranslate; hide IsAmo; hide AtomicAccess; hide FaultOfCause;
    TrapFaults();
    var (to, b', _) := MmuTranslate(b, mmu, g, x, if d.kind == LrW then Load else Store);
    if to.Ready? { AccessFaults(isa, b', g, d, to.address, x, y); }
  }

  lemma TrapFaults()
    ensures FaultOfCause(4, Misaligned) && FaultOfCause(6, Misaligned) && FaultOfCause(5, Unmapped) &&
            FaultOfCause(7, Unmapped) && FaultOfCause(13, NoFault) && FaultOfCause(15, NoFault) &&
            FaultOfCause(0, NoFault) && FaultOfCause(2, NoFault) && FaultOfCause(3, NoFault) &&
            FaultOfCause(8, NoFault) && FaultOfCause(9, NoFault) && FaultOfCause(11, NoFault)
  {}

  lemma AccessFaults(isa: Isa, b: Bus, g: Hart, d: Instruction, p: Phys, va: nat, v: nat)
    ensures var o := AtomicAccess(isa, b, g, d, p, va, v).0; o.Trap? ==> FaultOfCause(o.cause, o.fault)
  {
    hide Part; hide PutPart; hide Wrap;
  }

  lemma MemoryFaults(isa: Isa, b: Bus, mmu: Mmu, g: Hart, d: Instruction, x: nat, y: nat)
    requires MmuReady(mmu)
    ensures var o := RunMemory(isa, b, mmu, g, d, x, y).0; o.Trap? ==> FaultOfCause(o.cause, o.fault)
  {
    hide MmuTranslate; hide Wrap; hide Part; hide PutPart; hide FaultOfCause;
    TrapFaults();
  }

  /** The step of an instruction reports its pc, its bits, the cycle after it, whether it retired, waits or trapped, the
      fault of its trap, and with a commit its bits and length. */
  lemma StepReports(isa: Isa, t: State, input: Input)
    requires Good(t) && Executed(isa, t, input).Some?
    ensures var g, r, t', d := Found(t, input), Result(isa, t, input), Left(isa, t, input),
        Executed(isa, t, input).value;
            var raw := FetchDecode(isa, t.b, g, t.c).0.item.raw;
            FetchDecode(isa, t.b, g, t.c).0 == Got(Item(raw, d)) && r.pc == t.h.pc && r.raw == raw &&
            (if r.commit.Some? then
               r.status == (if t'.h.waiting then WaitingForInterrupt else Retired) && r.value == 0 &&
                 r.fault == NoFault &&
               r.commit.value.raw == raw && r.commit.value.length == d.length && r.cycle == t'.h.cycle
             else
               r.status == TrapTaken && r.cycle == t.h.cycle &&
               exists cause :: FaultOfCause(cause, r.fault) && Traps(g, t', cause, r.value))
  {
    hide FetchDecode; hide RunUnit; hide ItemsLegal; hide CachesShaped; hide Step; hide Legal; hide Committed;
    hide SelectFrom; hide WakeRequested; hide TakeTrap; hide Lined; hide FaultOfCause;
    BeginsExactly(t.h, input.lines);
    FoundIs(t, input);
    SameCycle(t, input);
    var g := Found(t, input);
    var (f, b1, c1) := FetchDecode(isa, t.b, g, t.c);
    Concludes(isa, t, input);
    StepRuns(isa, t.h, t.b, t.c, input);
    UnitFaults(isa, b1, MmuOf(c1), g, input.time, f.item.decoded);
    var o := RunUnit(isa, b1, MmuOf(c1), g, input.time, f.item.decoded).0;
    if o.Retire? { LegalSteps.CommitEffect(g, o.c); }
    Reported(g, f.item, o);
  }

  lemma SameCycle(t: State, input: Input)
    ensures Found(t, input).cycle == t.h.cycle
  {}

  lemma Reported(g: Hart, item: Item, o: Outcome)
    requires !o.NotMine? && (o.Retire? ==> Committed(g, o.c).Some? && o.c.pc == g.pc)
    ensures var (r, h') := Conclude(g, item, o);
            r.pc == g.pc && r.raw == item.raw && (r.commit.Some? <==> o.Retire?) &&
            if o.Retire? then
              r.status == (if h'.waiting then WaitingForInterrupt else Retired) && r.value == 0 && r.fault == NoFault &&
              r.commit.value.raw == item.raw && r.commit.value.length == item.decoded.length && r.cycle == h'.cycle
            else r.status == TrapTaken && r.cycle == g.cycle && r.value == o.value && r.fault == o.fault
  {
    hide Committed; hide TakeTrap;
  }
}
