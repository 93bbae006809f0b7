/** Returns commit in one piece, and legal states stay legal over every RV32 run. */
module LegalSteps {
  import opened Wrappers
  import opened Address
  import opened Paging
  import opened Hart
  import opened HartProofs
  import opened Core32
  import opened StepProofs
  import Icache
  import Tlb
  import Bits

  /* ---- RV32 defers what RV64 does at once ---- */

  /** The fields that both cores have, after a return retired. */
  function Returned(h: Hart, to: Hart): Hart {
    to.(status := to.status.(fs := Off), x := Zeroed(h.x), retired := (h.retired + 1) % 0x1_0000_0000_0000_0000,
      waiting := false)
  }

  lemma MstatusWrite(h: Hart, s: Status)
    ensures WriteCsr(Rv32, h, MSTATUS, StatusWord(Rv32, s)) == h.(status := Sanitize(Rv32, s))
  {
    hide StatusWord; hide StatusOf; hide WriteSupervisorSetup; hide WriteSupervisorHandling;
    hide WriteMachineHandling; hide WriteCounter; hide WriteFloating;
    hide Bits.SetOf;
    StatusRoundTrip(Rv32, s);
  }

  lemma SstatusWrite(h: Hart, s: Status)
    ensures WriteCsr(Rv32, h, SSTATUS, StatusWord(Rv32, s)) ==
        h.(status := Sanitize(Rv32, WithSupervisorView(h.status, s)))
  {
    hide StatusWord; hide StatusOf; hide WriteMachineSetup; hide WriteSupervisorHandling; hide WriteMachineHandling;
    hide WriteCounter; hide WriteFloating;
    hide Bits.SetOf;
    StatusRoundTrip(Rv32, s);
  }

  lemma StatusWritable(h: Hart)
    ensures h.privilege == Machine ==> ValidateWrite(Rv32, h, MSTATUS, h.privilege) == CsrReady
    ensures h.privilege != User ==> ValidateWrite(Rv32, h, SSTATUS, h.privilege) == CsrReady
  {}

  /** The hart once a return to p at next has retired, before its CSR write. */
  function Landed(h: Hart, next: nat, p: Privilege): (r: Hart)
    ensures r.status == h.status
  {
    h.(x := Zeroed(h.x), privilege := p, pc := next, retired := (h.retired + 1) % 0x1_0000_0000_0000_0000,
      waiting := false)
  }

  lemma CommitReturn(h: Hart, next: nat, p: Privilege, a: nat, word: nat, s: Status)
    requires ValidateWrite(Rv32, h, a, h.privilege) == CsrReady
    requires WriteCsr(Rv32, Landed(h, next, p), a, word) == Landed(h, next, p).(status := s)
    ensures Committed(h, Commit(h.pc, next, None, Some((a, word)), Some(p), false))
            == Some(Landed(h, next, p).(status := if p == Machine then s else s.(mprv := false)))
  {
    hide WriteCsr; hide ValidateWrite; hide Zeroed;
  }

  lemma ReturnOutcomes(h: Hart, d: Instruction)
    ensures var s := Sanitize(Rv32, h.status);
            d.kind == MretOp && MretAllowed(h) ==>
              RunPrivileged(h, d)
              == Retire(Commit(h.pc, h.mepc, None, Some((MSTATUS, StatusWord(Rv32, MretStatus(s)))), Some(s.mpp),
                false))
    ensures var s := Sanitize(Rv32, h.status);
            d.kind == SretOp && SretAllowed(h) ==>
              RunPrivileged(h, d)
              == Retire(Commit(h.pc, h.sepc, None, Some((SSTATUS, StatusWord(Rv32, SretStatus(s)))),
                               Some(if s.spp then Supervisor else User), false))
  {
    hide StatusWord; hide Next;
  }

  lemma MretStatuses(s: Status)
    ensures var t := Sanitize(Rv32, MretStatus(Sanitize(Rv32, s)));
            MretStatus(s).(fs := Off) == if s.mpp == Machine then t else t.(mprv := false)
  {
    if s.mpp == Machine {} else {}
  }

  lemma SretStatuses(s: Status)
    ensures SretStatus(s).(fs := Off) ==
        Sanitize(Rv32, WithSupervisorView(s, SretStatus(Sanitize(Rv32, s)))).(mprv := false)
  {}

  lemma Direct64(h: Hart)
    ensures Returned(h, Mret(Rv64, h)) == Landed(h, h.mepc, h.status.mpp).(status := MretStatus(h.status).(fs := Off))
    ensures Returned(h, Sret(Rv64, h))
            == Landed(h, h.sepc, if h.status.spp then Supervisor else User).(status := SretStatus(h.status).(fs := Off))
  {
    hide MretStatus; hide SretStatus; hide Zeroed;
  }

  /** RV32 computes mstatus as a word, commits it through the CSR file and then clears MPRV; the
      result is the state that RV64's direct update reaches. */
  lemma DeferredMret(h: Hart, d: Instruction)
    requires d.kind == MretOp && MretAllowed(h)
    ensures RunPrivileged(h, d).Retire? && Committed(h, RunPrivileged(h, d).c) == Some(Returned(h, Mret(Rv64, h)))
  {
    hide StatusWord; hide WriteCsr; hide ValidateWrite; hide Zeroed; hide Committed; hide RunPrivileged;
    hide MretStatus; hide Landed; hide Returned; hide Mret;
    Direct64(h);
    StatusWritable(h);
    ReturnOutcomes(h, d);
    MretStatuses(h.status);
    var s := MretStatus(Sanitize(Rv32, h.status));
    MstatusWrite(Landed(h, h.mepc, h.status.mpp), s);
    CommitReturn(h, h.mepc, h.status.mpp, MSTATUS, StatusWord(Rv32, s), Sanitize(Rv32, s));
  }

  /** SRET goes through sstatus, which does not show MPRV: the commit alone clears it. */
  lemma DeferredSret(h: Hart, d: Instruction)
    requires d.kind == SretOp && SretAllowed(h)
    ensures RunPrivileged(h, d).Retire? && Committed(h, RunPrivileged(h, d).c) == Some(Returned(h, Sret(Rv64, h)))
  {
    hide StatusWord; hide WriteCsr; hide ValidateWrite; hide Zeroed; hide Committed; hide RunPrivileged;
    hide SretStatus; hide WithSupervisorView; hide Landed; hide Returned; hide Sret;
    Direct64(h);
    StatusWritable(h);
    ReturnOutcomes(h, d);
    SretStatuses(h.status);
    var s, p := SretStatus(Sanitize(Rv32, h.status)), if h.status.spp then Supervisor else User;
    SstatusWrite(Landed(h, h.sepc, p), s);
    CommitReturn(h, h.sepc, p, SSTATUS, StatusWord(Rv32, s), Sanitize(Rv32, WithSupervisorView(h.status, s)));
  }

  /* ---- legal states ---- */

  /** A retiring outcome continues at an even pc. */
  predicate NextEven(o: Outcome) { o.Retire? ==> IsEven(o.c.next) }

  lemma NextIsEven(pc: nat, d: Instruction)
    requires IsEven(pc)
    ensures IsEven(Next(pc, d))
  {
    var n := pc + d.length;
    assert n % 2 == 0;
  }

  lemma IntegerEven(isa: Isa, h: Hart, d: Instruction, a: nat, b: nat, time: nat)
    requires IsEven(h.pc)
    ensures NextEven(RunInteger(isa, h, d, a, b)) && NextEven(RunCsr(h, time, d, a))
  {
    hide Next; hide IsEven; hide ValidateWrite; hide ValidateRead; hide ReadCsr; hide ReadForWrite; hide Modified;
    NextIsEven(h.pc, d);
  }

  lemma JumpEven(h: Hart, target: nat, reg: Option<(nat, nat)>)
    ensures NextEven(Jump(h, target, reg))
  {}

  lemma ControlEven(isa: Isa, h: Hart, d: Instruction, a: nat, b: nat)
    requires IsEven(h.pc)
    ensures NextEven(RunControlFlow(isa, h, d, a, b))
  {
    hide Next; hide IsEven; hide Wrap; hide Even; hide Jump;
    NextIsEven(h.pc, d);
    var next, target := Next(h.pc, d), Wrap(Rv32, h.pc + d.imm);
    JumpEven(h, target, Some((d.rd, next)));
    JumpEven(h, target, None);
    JumpEven(h, Even(Wrap(Rv32, a + d.imm)), Some((d.rd, next)));
  }

  lemma PrivilegedEven(h: Hart, d: Instruction)
    requires IsEven(h.pc) && IsEven(h.mepc) && IsEven(h.sepc)
    ensures NextEven(RunPrivileged(h, d))
  {
    hide Next; hide IsEven; hide StatusWord;
    NextIsEven(h.pc, d);
  }

  lemma MemoryEven(isa: Isa, b: Bus, mmu: Mmu, h: Hart, d: Instruction, a: nat, v: nat)
    requires IsEven(h.pc) && MmuReady(mmu)
    ensures NextEven(RunMemory(isa, b, mmu, h, d, a, v).0)
  {
    hide Next; hide IsEven; hide MmuTranslate; hide BusRead; hide BusWrite; hide Wrap;
    NextIsEven(h.pc, d);
  }

  lemma AtomicEven(isa: Isa, b: Bus, mmu: Mmu, h: Hart, d: Instruction, va: nat, v: nat)
    requires IsEven(h.pc) && MmuReady(mmu)
    ensures NextEven(RunAtomic(isa, b, mmu, h, d, va, v).0)
  {
    hide IsEven; hide MmuTranslate; hide AtomicAccess;
    var (t, b', _) := MmuTranslate(b, mmu, h, va, if d.kind == LrW then Load else Store);
    if t.Ready? { AtomicAccessEven(isa, b', h, d, t.address, va, v); }
  }

  lemma AtomicAccessEven(isa: Isa, b: Bus, h: Hart, d: Instruction, p: Phys, va: nat, v: nat)
    requires IsEven(h.pc)
    ensures NextEven(AtomicAccess(isa, b, h, d, p, va, v).0)
  {
    hide Next; hide IsEven; hide BusRead; hide BusWrite;
    NextIsEven(h.pc, d);
  }

  lemma UnitEven(isa: Isa, b: Bus, mmu: Mmu, h: Hart, time: nat, d: Instruction)
    requires MmuReady(mmu) && IsEven(h.pc) && IsEven(h.mepc) && IsEven(h.sepc)
    ensures NextEven(RunUnit(isa, b, mmu, h, time, d).0)
  {
    hide NextEven; hide RunInteger; hide RunPrivileged; hide RunControlFlow; hide RunAtomic; hide RunCsr;
    hide RunMemory; hide IsEven;
    var x, y := Reg(h, d.rs1), Reg(h, d.rs2);
    IntegerEven(isa, h, d, x, y, time);
    ControlEven(isa, h, d, x, y);
    PrivilegedEven(h, d);
    MemoryEven(isa, b, mmu, h, d, x, y);
    AtomicEven(isa, b, mmu, h, d, x, y);
  }

  lemma CommitLegal(h: Hart, c: Commit)
    requires Legal(Rv32, h) && IsEven(c.next) && Committed(h, c).Some?
    ensures Legal(Rv32, Committed(h, c).value)
  {
    hide WriteCsr; hide ValidateWrite; hide IsEven; hide LegalSatp; hide LegalTvec; hide Only;
    var x := if c.reg.Some? && c.reg.value.0 != 0 then h.x[c.reg.value.0 := c.reg.value.1] else h.x;
    var h1 := h.(x := Zeroed(x), privilege := if c.privilege.Some? then c.privilege.value else h.privilege,
                 pc := c.next, retired := (h.retired + 1) % 0x1_0000_0000_0000_0000, waiting := c.wait);
    if c.csr.Some? { WriteLegal(Rv32, h1, c.csr.value.0, c.csr.value.1); }
  }

  lemma BeginLegal(xlen: Xlen, h: Hart, lines: set<nat>)
    requires Legal(xlen, h)
    ensures Legal(xlen, Begin(h, lines).h)
  {
    hide IsEven; hide LegalSatp; hide LegalTvec; hide LegalStatus; hide SelectFrom; hide WakeRequested;
  }

  lemma ConcludeLegal(h: Hart, item: Item, o: Outcome)
    requires Legal(Rv32, h) && NextEven(o)
    ensures Legal(Rv32, Conclude(h, item, o).1)
  {
    hide Legal; hide Committed; hide IsEven; hide TakeTrap; hide TakeInterrupt;
    match o
    case Trap(cause, value, _) => TrapLegal(Rv32, h, cause, h.pc, value, Selection(0, false));
    case Retire(c) => if Committed(h, c).Some? { CommitLegal(h, c); }
    case NotMine =>
  }

  /** Every step, in either mode, keeps x0 zero, the program counters even and every WARL field legal. */
  lemma StepLegal(isa: Isa, h: Hart, b: Bus, c: Option<Caches>, input: Input)
    requires ItemsLegal(c) && CachesReady(c) && Legal(Rv32, h)
    ensures Legal(Rv32, Step(isa, h, b, c, input).1)
  {
    hide FetchDecode; hide RunAll; hide RunUnit; hide Conclude; hide ItemsLegal; hide CachesShaped; hide Maintain;
    hide Legal; hide NextEven;
    hide TakeTrap; hide TakeInterrupt; hide WithMmu; hide Begin;
    var begun := Begin(h, input.lines);
    BeginLegal(Rv32, h, input.lines);
    match begun
    case Idle(_) =>
    case Interrupted(h1, i) => TrapLegal(Rv32, h1, 0, 0, 0, i);
    case Runs(h1) =>
      var (f, b1, c1) := FetchDecode(isa, b, h1, c);
      match f
      case FetchTrap(cause, value, _, _) => TrapLegal(Rv32, h1, cause, h1.pc, value, Selection(0, false));
      case Got(item) =>
        StepRuns(isa, h, b, c, input);
        FetchLegal(isa, b, h1, c);
        ReadyMmu(c1);
        LegalEven(h1);
        UnitEven(isa, b1, MmuOf(c1), h1, input.time, item.decoded);
        ConcludeLegal(h1, item, RunUnit(isa, b1, MmuOf(c1), h1, input.time, item.decoded).0);
  }

  lemma LegalEven(h: Hart)
    requires Legal(Rv32, h)
    ensures IsEven(h.pc) && IsEven(h.mepc) && IsEven(h.sepc) && |h.x| == 32
  {}

  lemma ElapseLegal(h: Hart, e: Event)
    requires Legal(Rv32, h)
    ensures Legal(Rv32, Elapse(h, e))
  {}

  /** Over every run, disciplined or not and in either mode, all states are legal and every step
      has a defined outcome. */
  lemma {:induction false} RunLegal(isa: Isa, h: Hart, b: Bus, c: Option<Caches>, events: seq<Event>)
    requires ItemsLegal(c) && CachesReady(c) && Legal(Rv32, h)
    ensures forall s :: s in Run(isa, h, b, c, events) ==> Legal(Rv32, s.h) && s.result.status != CoreNotImplemented
    decreases |events|
  {
    hide Step; hide ItemsLegal; hide Legal; hide Dma; hide Elapse; hide CachesShaped;
    if events != [] {
      var h0, b0 := Elapse(h, events[0]), Dma(b, events[0]);
      ElapseLegal(h, events[0]);
      LegalEven(h0);
      StepLegal(isa, h0, b0, c, events[0].input);
      StepTotal(isa, h0, b0, c, events[0].input);
      var (_, h', b', c') := Step(isa, h0, b0, c, events[0].input);
      RunLegal(isa, h', b', c', events[1..]);
    }
  }

  /* ---- the reported commit is the change ---- */

  lemma WriteKeepsRegisters(h: Hart, a: nat, value: nat)
    ensures var h' := WriteCsr(Rv32, h, a, value);
            h'.x == h.x && h'.f == h.f && h'.fcsr == h.fcsr && h'.pc == h.pc && h'.privilege == h.privilege &&
            (a != 0xB02 && a != 0xB82 ==> h'.retired == h.retired)
  {
    hide Bits.SetOf; hide StatusOf; hide SatpOf; hide TvecOf; hide Even; hide Masked; hide SatpModeKnown; hide High;
    hide Low;
    hide WithSupervisorView; hide Sanitize; hide WriteFloating;
  }

  /** The registers after a commit. */
  function Written(x: seq<nat>, reg: Option<(nat, nat)>): seq<nat>
    requires reg.Some? ==> reg.value.0 < |x|
  {
    if reg.Some? && reg.value.0 != 0 then x[reg.value.0 := reg.value.1] else x
  }

  lemma CommitEffect(h: Hart, c: Commit)
    requires Committed(h, c).Some?
    ensures var h' := Committed(h, c).value;
            c.pc == h.pc && (c.reg.Some? ==> c.reg.value.0 < |h.x|) && h'.x == Zeroed(Written(h.x, c.reg)) &&
            h'.f == h.f && h'.fcsr == h.fcsr && h'.pc == c.next &&
            h'.privilege == (if c.privilege.Some? then c.privilege.value else h.privilege) &&
            (c.csr.None? || c.csr.value.0 == MSTATUS || c.csr.value.0 == SSTATUS ==>
              h'.retired == (h.retired + 1) % 0x1_0000_0000_0000_0000)
  {
    hide WriteCsr; hide ValidateWrite; hide Zeroed;
    if c.csr.Some? {
      var h1 := h.(x := Zeroed(Written(h.x, c.reg)),
          privilege := if c.privilege.Some? then c.privilege.value else h.privilege,
                   pc := c.next, retired := (h.retired + 1) % 0x1_0000_0000_0000_0000, waiting := c.wait);
      WriteKeepsRegisters(h1, c.csr.value.0, c.csr.value.1);
    }
  }

  /** Only CSR instructions and returns write a CSR, and only returns change the privilege. */
  predicate Quiet(k: Kind, o: Outcome) {
    o.Retire? && UnitOf(k) != Csr ==>
      (o.c.csr.None? || o.c.csr.value.0 == MSTATUS || o.c.csr.value.0 == SSTATUS) &&
      (k != MretOp && k != SretOp ==> o.c.csr.None? && o.c.privilege.None?)
  }

  lemma UnitQuiet(isa: Isa, b: Bus, mmu: Mmu, h: Hart, time: nat, d: Instruction)
    requires MmuReady(mmu)
    ensures Quiet(d.kind, RunUnit(isa, b, mmu, h, time, d).0)
    ensures RunUnit(isa, b, mmu, h, time, d).0.Retire? && d.kind != MretOp && d.kind != SretOp ==>
        RunUnit(isa, b, mmu, h, time, d).0.c.privilege.None?
  {
    hide RunInteger; hide RunPrivileged; hide RunControlFlow; hide RunAtomic; hide RunCsr; hide RunMemory; hide UnitOf;
    var x, y := Reg(h, d.rs1), Reg(h, d.rs2);
    IntegerQuiet(isa, h, d, x, y, time);
    ControlQuiet(isa, h, d, x, y);
    PrivilegedQuiet(h, d);
    AtomicPlain(isa, b, mmu, h, d, x, y);
    MemoryPlain(isa, b, mmu, h, d, x, y);
  }

  lemma IntegerQuiet(isa: Isa, h: Hart, d: Instruction, a: nat, b: nat, time: nat)
    ensures var o := RunInteger(isa, h, d, a, b); o.Retire? ==> o.c.csr.None? && o.c.privilege.None?
    ensures var o := RunCsr(h, time, d, a); o.Retire? ==> o.c.privilege.None?
  {
    hide Next; hide UnitOf; hide ValidateWrite; hide ValidateRead; hide ReadCsr; hide ReadForWrite; hide Modified;
  }

  lemma ControlQuiet(isa: Isa, h: Hart, d: Instruction, a: nat, b: nat)
    ensures var o := RunControlFlow(isa, h, d, a, b); o.Retire? ==> o.c.csr.None? && o.c.privilege.None?
  {
    hide Next; hide Wrap; hide Even;
  }

  lemma PrivilegedQuiet(h: Hart, d: Instruction)
    ensures var o := RunPrivileged(h, d);
            o.Retire? ==> (o.c.csr.None? || o.c.csr.value.0 == MSTATUS || o.c.csr.value.0 == SSTATUS) &&
                          (d.kind != MretOp && d.kind != SretOp ==> o.c.csr.None? && o.c.privilege.None?)
  {
    hide Next; hide StatusWord;
  }

  /** The trace that a retiring step reports is the change it made: its register, and no other, its
      next pc, one more instruction retired unless a CSR instruction wrote the counter, and the
      privilege unless a return changed it. */
  lemma RetireIsTraced(isa: Isa, h: Hart, b: Bus, c: Option<Caches>, input: Input)
    requires ItemsLegal(c) && CachesReady(c) && |h.x| == 32 && Step(isa, h, b, c, input).0.commit.Some?
    ensures Begin(h, input.lines).Runs? && FetchDecode(isa, b, Begin(h, input.lines).h, c).0.Got?
    ensures var (r, h', _, _) := Step(isa, h, b, c, input);
            var t, k := r.commit.value, FetchDecode(isa, b, Begin(h, input.lines).h, c).0.item.decoded.kind;
            t.pc == h.pc && t.privilege == h.privilege && t.next == h'.pc && h'.f == h.f && h'.fcsr == h.fcsr &&
            (t.reg.Some? ==> 0 < t.reg.value.0 < 32) && h'.x == Written(Zeroed(h.x), t.reg) &&
            (UnitOf(k) != Csr ==> h'.retired == (h.retired + 1) % 0x1_0000_0000_0000_0000) &&
            (k != MretOp && k != SretOp ==> h'.privilege == h.privilege)
  {
    hide FetchDecode; hide RunAll; hide RunUnit; hide ItemsLegal; hide CachesShaped; hide Maintain; hide TakeTrap;
    hide TakeInterrupt;
    hide Committed; hide SelectFrom; hide WakeRequested; hide WithMmu; hide UnitOf;
    var h1 := Begin(h, input.lines).h;
    FetchLegal(isa, b, h1, c);
    var (f, b1, c1) := FetchDecode(isa, b, h1, c);
    StepRuns(isa, h, b, c, input);
    ReadyMmu(c1);
    UnitQuiet(isa, b1, MmuOf(c1), h1, input.time, f.item.decoded);
    var o := RunUnit(isa, b1, MmuOf(c1), h1, input.time, f.item.decoded).0;
    CommitEffect(h1, o.c);
    ZeroedTwice(h.x, o.c.reg);
  }

  lemma ZeroedTwice(x: seq<nat>, reg: Option<(nat, nat)>)
    requires |x| == 32 && (reg.Some? ==> reg.value.0 < 32)
    ensures Zeroed(Written(Zeroed(x), reg)) == Written(Zeroed(x), reg)
  {}

  /** Core::reset. */
  function Reset(pc: nat, id: nat, privilege: Privilege, argument: nat): Hart {
    Hart(seq(32, i => if i == 10 then id else if i == 11 then argument else 0), seq(32, _ => 0), 0, pc, id, privilege,
         Status(false, false, false, false, false, User, Off, false, false, false, false, false, false),
         {}, {}, {}, {}, {}, {}, 0, 0, 0, 0, 0, {}, 0, 0, 0, 0, 0, Satp(false, 0, Frame(0, 0, 0)), 0, 0, false)
  }

  /** Reset is legal exactly when it starts at an even pc; it hands over the hart's number in a0 and the boot argument
      in a1, with every other register 0, nothing delegated, enabled or pending, and translation off. */
  lemma ResetLegal(pc: nat, id: nat, privilege: Privilege, argument: nat)
    ensures var h := Reset(pc, id, privilege, argument);
            h.pc == pc && h.privilege == privilege && h.x[10] == id && h.x[11] == argument &&
            (forall i :: 0 <= i < 32 && i != 10 && i != 11 ==> h.x[i] == 0) && h.medeleg + h.mideleg + h.mie == {} &&
            !h.status.mie && !h.status.sie && Pending(h) == {} && !h.satp.paged && !h.waiting
    ensures Legal(Rv32, Reset(pc, id, privilege, argument)) <==> IsEven(pc)
    ensures Legal(Rv64, Reset(pc, id, privilege, argument)) <==> IsEven(pc)
    ensures ItemsLegal(Some(EmptyCaches())) && ItemsLegal(None)
  {}
}
