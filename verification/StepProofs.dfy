/** What every RV32 step keeps, in both modes and for every decoder: it always has a defined
    outcome, its traps are precise, and legal states stay legal. */
module StepProofs {
  import opened Wrappers
  import opened Address
  import opened Paging
  import opened Hart
  import opened HartProofs
  import opened Core32
  import CoreProofs
  import Tlb
  import Icache

  /* ---- cached instructions are legal ones ---- */

  predicate ItemLegal(i: Option<Item>) { i.Some? ==> i.value.decoded.kind != Illegal }

  /** No cached instruction is the illegal kind, whatever else the caches hold. */
  ghost predicate ItemsLegal(c: Option<Caches>) {
    CachesReady(c) && (c.Some? ==> forall i :: 0 <= i < LINES ==> ItemLegal(c.value.lines.lines[i].item))
  }

  const LINES: nat := 4096

  lemma LegalReady(c: Option<Caches>)
    requires ItemsLegal(c)
    ensures CachesReady(c)
  {}

  lemma ReadyMmu(c: Option<Caches>)
    requires ItemsLegal(c)
    ensures CachesReady(c) && MmuReady(MmuOf(c))
  {}

  lemma KeepLegal(c: Option<Caches>, h: Hart, item: Item)
    requires ItemsLegal(c) && item.decoded.kind != Illegal
    ensures ItemsLegal(Keep(c, h, item))
  {
    hide Icache.LineOf; hide Icache.AsidSlot; hide Icache.PageSlot; hide Icache.AsidPageSlot;
  }

  lemma DecodeKeepsItems(isa: Isa, c: Option<Caches>, raw: nat, length: nat)
    requires ItemsLegal(c)
    ensures ItemsLegal(DecodeThrough(isa, c, raw, length).1)
  {
    hide Decode; hide DecodeSlot;
  }

  lemma FinishLegal(isa: Isa, c: Option<Caches>, h: Hart, raw: nat, length: nat)
    requires ItemsLegal(c)
    ensures var (f, c') := Finish(isa, c, h, raw, length); ItemsLegal(c') && (f.Got? ==> f.item.decoded.kind != Illegal)
  {
    hide DecodeThrough; hide Keep; hide ItemsLegal; hide CachesShaped;
    LegalReady(c);
    var (d, c') := DecodeThrough(isa, c, raw, length);
    DecodeKeepsItems(isa, c, raw, length);
    if d.kind != Illegal { KeepLegal(c', h, Item(raw, d)); }
  }

  lemma WithMmuLegal(c: Option<Caches>, mmu: Mmu)
    requires ItemsLegal(c) && MmuReady(mmu)
    ensures ItemsLegal(WithMmu(c, mmu))
  {}

  lemma FetchLegal(isa: Isa, b: Bus, h: Hart, c: Option<Caches>)
    requires ItemsLegal(c)
    ensures var (f, _, c') := FetchDecode(isa, b, h, c); ItemsLegal(c') && (f.Got? ==> f.item.decoded.kind != Illegal)
  {
    hide FetchMiss; hide Icache.LineOf; hide AtPageEnd;
    if h.pc % 2 == 0 { MissLegal(isa, b, h, c); }
  }

  lemma MissLegal(isa: Isa, b: Bus, h: Hart, c: Option<Caches>)
    requires ItemsLegal(c)
    ensures var (f, _, c') := FetchMiss(isa, b, h, c); ItemsLegal(c') && (f.Got? ==> f.item.decoded.kind != Illegal)
  {
    hide FetchHalf; hide Finish; hide ItemsLegal; hide CachesShaped; hide WithMmu;
    ReadyMmu(c);
    var (first, b1, mmu1) := FetchHalf(b, MmuOf(c), h, h.pc);
    var c1 := WithMmu(c, mmu1);
    WithMmuLegal(c, mmu1);
    if first.Half? {
      if first.value % 4 != 3 {
        FinishLegal(isa, c1, h, first.value, 2);
      } else {
        var (second, b2, mmu2) := FetchHalf(b1, mmu1, h, Wrap(Rv32, h.pc + 2));
        WithMmuLegal(c1, mmu2);
        if second.Half? { FinishLegal(isa, WithMmu(c1, mmu2), h, first.value + second.value * 0x1_0000, 4); }
      }
    }
  }

  lemma MaintainLegal(c: Option<Caches>, h: Hart, d: Instruction)
    requires ItemsLegal(c)
    ensures ItemsLegal(Maintain(c, h, d))
  {
    hide Icache.AsidSlot; hide Icache.PageSlot; hide Icache.AsidPageSlot; hide Tlb.Fence;
  }

  /* ---- every commit goes through ---- */

  /** The outcome belongs to this pc, and if it retires it commits. */
  predicate Commits(h: Hart, o: Outcome) { o.Retire? ==> Committed(h, o.c).Some? }

  lemma IntegerCommits(isa: Isa, h: Hart, d: Instruction, a: nat, b: nat)
    requires |h.x| == 32
    ensures Commits(h, RunInteger(isa, h, d, a, b))
    ensures Commits(h, RunControlFlow(isa, h, d, a, b))
  {
    hide WriteCsr; hide ValidateWrite; hide Zeroed; hide Wrap;
  }

  lemma PrivilegedCommits(h: Hart, d: Instruction)
    requires |h.x| == 32
    ensures Commits(h, RunPrivileged(h, d))
  {
    hide WriteCsr; hide Zeroed; hide Wrap; hide StatusWord;
  }

  /** A CSR instruction that retires has passed the very check that the commit repeats. */
  lemma CsrCommits(h: Hart, time: nat, d: Instruction, a: nat)
    requires |h.x| == 32
    ensures Commits(h, RunCsr(h, time, d, a))
  {
    hide WriteCsr; hide Zeroed; hide Wrap; hide ValidateWrite; hide ValidateRead; hide ReadCsr; hide ReadForWrite;
    hide Modified;
  }

  lemma SimpleCommits(h: Hart, next: nat, reg: Option<(nat, nat)>)
    requires |h.x| == 32 && (reg.Some? ==> reg.value.0 < 32)
    ensures Commits(h, Simple(h.pc, next, reg))
  {
    hide WriteCsr; hide Zeroed;
  }

  predicate Plain(h: Hart, o: Outcome) {
    o.Retire? ==> o == Simple(h.pc, o.c.next, o.c.reg) && (o.c.reg.Some? ==> o.c.reg.value.0 < 32)
  }

  lemma AtomicPlain(isa: Isa, b: Bus, mmu: Mmu, h: Hart, d: Instruction, x: nat, y: nat)
    requires MmuReady(mmu)
    ensures Plain(h, RunAtomic(isa, b, mmu, h, d, x, y).0)
  {
    hide Wrap; hide MmuTranslate; hide AtomicAccess; hide Plain;
    var (t, b', _) := MmuTranslate(b, mmu, h, x, if d.kind == LrW then Load else Store);
    TrapPlain(h);
    if t.Ready? { AtomicAccessPlain(isa, b', h, d, t.address, x, y); }
  }

  lemma TrapPlain(h: Hart)
    ensures forall o: Outcome {:trigger Plain(h, o)} :: !o.Retire? ==> Plain(h, o)
  {}

  lemma AtomicAccessPlain(isa: Isa, b: Bus, h: Hart, d: Instruction, p: Phys, x: nat, y: nat)
    ensures Plain(h, AtomicAccess(isa, b, h, d, p, x, y).0)
  {
    hide Wrap; hide BusRead; hide BusWrite;
  }

  lemma MemoryPlain(isa: Isa, b: Bus, mmu: Mmu, h: Hart, d: Instruction, x: nat, y: nat)
    requires MmuReady(mmu)
    ensures Plain(h, RunMemory(isa, b, mmu, h, d, x, y).0)
  {
    hide Wrap; hide MmuTranslate; hide BusRead; hide BusWrite;
  }

  lemma PlainCommits(h: Hart, o: Outcome)
    requires |h.x| == 32 && Plain(h, o)
    ensures Commits(h, o)
  {
    hide Committed;
    if o.Retire? { SimpleCommits(h, o.c.next, o.c.reg); }
  }

  lemma UnitCommits(isa: Isa, b: Bus, mmu: Mmu, h: Hart, time: nat, d: Instruction)
    requires |h.x| == 32 && MmuReady(mmu) && d.kind != Illegal
    ensures RunUnit(isa, b, mmu, h, time, d).0 != NotMine && Commits(h, RunUnit(isa, b, mmu, h, time, d).0)
  {
    hide Commits; hide RunInteger; hide RunPrivileged; hide RunControlFlow; hide RunAtomic; hide RunCsr;
    hide RunMemory; hide RunAll; hide Plain;
    CoreProofs.DispatchAgrees(isa, b, mmu, h, time, d);
    IntegerCommits(isa, h, d, Reg(h, d.rs1), Reg(h, d.rs2));
    PrivilegedCommits(h, d);
    CsrCommits(h, time, d, Reg(h, d.rs1));
    AtomicPlain(isa, b, mmu, h, d, Reg(h, d.rs1), Reg(h, d.rs2));
    MemoryPlain(isa, b, mmu, h, d, Reg(h, d.rs1), Reg(h, d.rs2));
    if UnitOf(d.kind) == Atomic || UnitOf(d.kind) == Memory { PlainCommits(h, RunUnit(isa, b, mmu, h, time, d).0); }
  }

  lemma ConcludeTotal(h: Hart, item: Item, o: Outcome)
    requires o != NotMine && Commits(h, o)
    ensures Conclude(h, item, o).0.status != CoreNotImplemented
  {
    hide Committed; hide TakeTrap;
  }

  /** No step of either mode ends in CoreNotImplemented, for any decoder, bus and caches that
      hold no illegal instruction; and the caches never come to hold one. */
  lemma StepTotal(isa: Isa, h: Hart, b: Bus, c: Option<Caches>, input: Input)
    requires ItemsLegal(c) && |h.x| == 32
    ensures var (r, _, _, c') := Step(isa, h, b, c, input); r.status != CoreNotImplemented && ItemsLegal(c')
  {
    hide FetchDecode; hide RunAll; hide RunUnit; hide Conclude; hide ItemsLegal; hide CachesShaped; hide Maintain;
    hide Commits;
    hide SelectFrom; hide WakeRequested; hide TakeTrap; hide TakeInterrupt; hide WithMmu;
    LegalReady(c);
    var begun := Begin(h, input.lines);
    if begun.Runs? {
      var h1 := begun.h;
      FetchLegal(isa, b, h1, c);
      var (f, b1, c1) := FetchDecode(isa, b, h1, c);
      if f.Got? {
        var d := f.item.decoded;
        var mmu0 := MmuOf(c1);
        ReadyMmu(c1);
        if c.None? { CoreProofs.DispatchAgrees(isa, b1, Direct, h1, input.time, d); }
        UnitCommits(isa, b1, mmu0, h1, input.time, d);
        var (o, b2, mmu) := RunUnit(isa, b1, mmu0, h1, input.time, d);
        ConcludeTotal(h1, f.item, o);
        WithMmuLegal(c1, mmu);
        MaintainLegal(WithMmu(c1, mmu), h1, d);
      }
    }
  }

  /** A step that runs an instruction runs the unit that its kind names, in both modes. */
  lemma StepRuns(isa: Isa, h: Hart, b: Bus, c: Option<Caches>, input: Input)
    requires ItemsLegal(c) && CachesReady(c) && Begin(h, input.lines).Runs? &&
        FetchDecode(isa, b, Begin(h, input.lines).h, c).0.Got?
    ensures var h1 := Begin(h, input.lines).h;
            var (f, b1, c1) := FetchDecode(isa, b, h1, c);
            var (o, b2, _) := RunUnit(isa, b1, MmuOf(c1), h1, input.time, f.item.decoded);
            var (r, h', b', _) := Step(isa, h, b, c, input);
            f.item.decoded.kind != Illegal && (r, h') == Conclude(h1, f.item, o) && b' == b2
  {
    hide FetchDecode; hide RunAll; hide RunUnit; hide Conclude; hide ItemsLegal; hide CachesShaped; hide Maintain;
    hide WithMmu;
    var h1 := Begin(h, input.lines).h;
    FetchLegal(isa, b, h1, c);
    var (f, b1, c1) := FetchDecode(isa, b, h1, c);
    ReadyMmu(c1);
    CoreProofs.DispatchAgrees(isa, b1, MmuOf(c1), h1, input.time, f.item.decoded);
  }
}
