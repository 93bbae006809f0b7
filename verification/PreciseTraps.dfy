/** Synchronous traps are precise, returns commit in one piece, and legal states stay legal. */
module PreciseTraps {
  import opened Wrappers
  import opened Address
  import opened Paging
  import opened Hart
  import opened HartProofs
  import opened Core32
  import opened StepProofs
  import Tlb
  import Icache

  /* ---- memory that differs in A and D bits only ---- */

  /** b is a with possibly more of bits 6 and 7 set. */
  predicate MoreAD(a: nat, b: nat) {
    a % 0x40 == b % 0x40 && a / 0x100 == b / 0x100 && (Bit(a, 0x40) ==> Bit(b, 0x40)) && (Bit(a, 0x80) ==> Bit(b, 0x80))
  }

  predicate OnlyAD(m: Ram, m': Ram) {
    m'.Keys == m.Keys && forall p :: p in m ==> MoreAD(m[p], m'[p])
  }

  lemma MoreADTransitive(a: nat, b: nat, c: nat)
    requires MoreAD(a, b) && MoreAD(b, c)
    ensures MoreAD(a, c)
  {}

  lemma OnlyADTransitive(m: Ram, m': Ram, m'': Ram)
    requires OnlyAD(m, m') && OnlyAD(m', m'')
    ensures OnlyAD(m, m'')
  {
    hide MoreAD;
    forall p | p in m ensures MoreAD(m[p], m''[p]) { MoreADTransitive(m[p], m'[p], m''[p]); }
  }

  lemma WithA(w: nat)
    ensures MoreAD(w, WithBit(w, 0x40))
  {
    if !Bit(w, 0x40) {
      SetA(w);
      FromD(w, w + 0x40);
    }
  }

  lemma WithD(w: nat)
    ensures MoreAD(w, WithBit(w, 0x80))
  {
    if !Bit(w, 0x80) {
      SetD(w);
      LowerD(w, w + 0x80);
    }
  }

  lemma TouchedAD(w: nat, access: Access)
    ensures MoreAD(w, Touched(w, access)) && MoreAD(w, w)
  {
    hide WithBit; hide Bit;
    WithA(w);
    WithD(WithBit(w, 0x40));
  }

  lemma TouchOnlyAD(m: Ram, at: Phys, access: Access)
    ensures OnlyAD(m, m) && OnlyAD(m, Touch(m, at, access))
  {
    hide MoreAD; hide Touched;
    forall p | p in m ensures MoreAD(m[p], m[p]) && MoreAD(m[p], Touch(m, at, access)[p]) {
      TouchedAD(m[p], access);
    }
  }

  lemma WalkOnlyAD(m: Ram, ctx: Context, va: Vaddr, access: Access)
    ensures OnlyAD(m, m) && OnlyAD(m, Walk(m, ctx, va, access).1)
  {
    hide Lookup; hide OnlyAD; hide Touch; hide Map; hide Permitted;
    TouchOnlyAD(m, Phys(ctx.satp.root, 0), access);
    var f := Lookup(m, ctx.mode, ctx.satp.root, va);
    if f.Leaf? { TouchOnlyAD(m, f.at, access); }
  }

  lemma TranslateOnlyAD(b: Bus, mmu: Mmu, h: Hart, va: nat, access: Access)
    requires MmuReady(mmu)
    ensures OnlyAD(b.ram, MmuTranslate(b, mmu, h, va, access).1.ram)
  {
    hide Walk; hide Lookup; hide OnlyAD; hide Virtual; hide Tlb.Probe; hide Tlb.Insert; hide Map; hide Tlb.Filled;
    hide Tlb.Shaped;
    var ctx := ContextOf(Rv32, h, access);
    WalkOnlyAD(b.ram, ctx, Virtual(ctx.mode, va), access);
  }

  lemma HalfOnlyAD(b: Bus, mmu: Mmu, h: Hart, va: nat)
    requires MmuReady(mmu)
    ensures OnlyAD(b.ram, FetchHalf(b, mmu, h, va).1.ram)
  {
    hide MmuTranslate; hide BusRead; hide OnlyAD;
    TranslateOnlyAD(b, mmu, h, va, Fetch);
  }

  lemma SameOnlyAD(m: Ram)
    ensures OnlyAD(m, m)
  {}

  lemma FetchOnlyAD(isa: Isa, b: Bus, h: Hart, c: Option<Caches>)
    requires ItemsLegal(c) && CachesReady(c)
    ensures OnlyAD(b.ram, FetchDecode(isa, b, h, c).1.ram)
  {
    hide FetchHalf; hide Finish; hide OnlyAD; hide CachesShaped; hide Icache.Lookup; hide AtPageEnd;
    SameOnlyAD(b.ram);
    ReadyMmu(c);
    HalfOnlyAD(b, MmuOf(c), h, h.pc);
    var (_, b1, mmu1) := FetchHalf(b, MmuOf(c), h, h.pc);
    var next := Wrap(Rv32, h.pc + 2);
    HalfOnlyAD(b1, mmu1, h, next);
    OnlyADTransitive(b.ram, b1.ram, FetchHalf(b1, mmu1, h, next).1.ram);
  }

  /** A load, store or atomic that traps has written nothing but A and D bits. */
  lemma UnitTrapOnlyAD(isa: Isa, b: Bus, mmu: Mmu, h: Hart, time: nat, d: Instruction)
    requires MmuReady(mmu) && RunUnit(isa, b, mmu, h, time, d).0.Trap?
    ensures OnlyAD(b.ram, RunUnit(isa, b, mmu, h, time, d).1.ram)
  {
    hide RunAtomic; hide RunMemory; hide OnlyAD; hide RunInteger; hide RunPrivileged; hide RunControlFlow; hide RunCsr;
    SameOnlyAD(b.ram);
    if UnitOf(d.kind) == Atomic {
      AtomicTrapOnlyAD(isa, b, mmu, h, d, Reg(h, d.rs1), Reg(h, d.rs2));
    } else if UnitOf(d.kind) == Memory {
      MemoryTrapOnlyAD(isa, b, mmu, h, d, Reg(h, d.rs1), Reg(h, d.rs2));
    }
  }

  lemma AtomicTrapOnlyAD(isa: Isa, b: Bus, mmu: Mmu, h: Hart, d: Instruction, va: nat, v: nat)
    requires MmuReady(mmu) && RunAtomic(isa, b, mmu, h, d, va, v).0.Trap?
    ensures OnlyAD(b.ram, RunAtomic(isa, b, mmu, h, d, va, v).1.ram)
  {
    hide MmuTranslate; hide OnlyAD; hide AtomicAccess;
    SameOnlyAD(b.ram);
    var access := if d.kind == LrW then Load else Store;
    TranslateOnlyAD(b, mmu, h, va, access);
    var (t, b', _) := MmuTranslate(b, mmu, h, va, access);
    if t.Ready? { AtomicTrapWritesNothing(isa, b', h, d, t.address, va, v); }
  }

  lemma MemoryTrapOnlyAD(isa: Isa, b: Bus, mmu: Mmu, h: Hart, d: Instruction, a: nat, v: nat)
    requires MmuReady(mmu) && RunMemory(isa, b, mmu, h, d, a, v).0.Trap?
    ensures OnlyAD(b.ram, RunMemory(isa, b, mmu, h, d, a, v).1.ram)
  {
    hide MmuTranslate; hide OnlyAD; hide BusRead; hide BusWrite;
    SameOnlyAD(b.ram);
    TranslateOnlyAD(b, mmu, h, Wrap(Rv32, a + d.imm), if IsLoad(d.kind) then Load else Store);
  }

  lemma AtomicTrapWritesNothing(isa: Isa, b: Bus, h: Hart, d: Instruction, p: Phys, va: nat, v: nat)
    ensures AtomicAccess(isa, b, h, d, p, va, v).0.Trap? ==> AtomicAccess(isa, b, h, d, p, va, v).1.ram == b.ram
  {
    hide PutPart; hide Part;
  }

  /** The trap went to supervisor mode, which it does exactly when its cause is delegated and the
      hart was not in machine mode; machine mode's own registers are then untouched. */
  predicate RoutedByDelegation(h: Hart, h': Hart) {
    if h'.privilege == Supervisor then
      h.privilege != Machine && h'.scause < 32 && h'.scause in h.medeleg &&
      h'.mepc == h.mepc && h'.mcause == h.mcause && h'.mtval == h.mtval
    else
      h'.privilege == Machine && (h.privilege == Machine || h'.mcause >= 32 || h'.mcause !in h.medeleg) &&
      h'.sepc == h.sepc && h'.scause == h.scause && h'.stval == h.stval
  }

  /** What the step leaves of a hart whose instruction trapped with this value. */
  predicate PreciselyTrapped(h: Hart, h': Hart, value: nat) {
    h'.x == Zeroed(h.x) && h'.f == h.f && h'.fcsr == h.fcsr && h'.retired == h.retired && h'.cycle == h.cycle &&
    h'.satp == h.satp && RoutedByDelegation(h, h') &&
    (if h'.privilege == Supervisor then h'.sepc == Even(h.pc) && h'.stval == value
     else h'.mepc == Even(h.pc) && h'.mtval == value)
  }

  lemma TakenPrecisely(h: Hart, lines: set<nat>, cause: nat, value: nat)
    requires Begin(h, lines).Runs?
    ensures PreciselyTrapped(h, TakeTrap(Rv32, Begin(h, lines).h, cause, Begin(h, lines).h.pc, value), value)
  {
    hide Sanitize; hide Even; hide Vector; hide SelectFrom; hide WakeRequested;
  }

  /** A step that ends in a synchronous trap, in either mode, leaves every register, the retired
      count and satp alone, saves the even pc of the instruction and the reported value for the mode
      that delegation names, and changes RAM at most in A and D bits. */
  lemma TrapsArePrecise(isa: Isa, h: Hart, b: Bus, c: Option<Caches>, input: Input)
    requires ItemsLegal(c) && CachesReady(c) && Begin(h, input.lines).Runs? &&
        Step(isa, h, b, c, input).0.status == TrapTaken
    ensures var (r, h', b', _) := Step(isa, h, b, c, input); PreciselyTrapped(h, h', r.value) && OnlyAD(b.ram, b'.ram)
  {
    hide FetchDecode; hide RunAll; hide RunUnit; hide ItemsLegal; hide CachesShaped; hide Maintain; hide TakeTrap;
    hide PreciselyTrapped;
    hide Committed; hide SelectFrom; hide WakeRequested; hide OnlyAD; hide WithMmu; hide Zeroed;
    var h1 := Begin(h, input.lines).h;
    FetchOnlyAD(isa, b, h1, c);
    FetchLegal(isa, b, h1, c);
    var (f, b1, c1) := FetchDecode(isa, b, h1, c);
    match f
    case FetchTrap(cause, value, _, _) => TakenPrecisely(h, input.lines, cause, value);
    case Got(item) =>
      StepRuns(isa, h, b, c, input);
      ReadyMmu(c1);
      var (o, b2, _) := RunUnit(isa, b1, MmuOf(c1), h1, input.time, item.decoded);
      if o.Trap? {
        TakenPrecisely(h, input.lines, o.cause, o.value);
        UnitTrapOnlyAD(isa, b1, MmuOf(c1), h1, input.time, item.decoded);
        OnlyADTransitive(b.ram, b1.ram, b2.ram);
      }
  }
}
