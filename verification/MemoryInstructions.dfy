/** Loads, stores, atomics and instruction fetches of RV32: where they go, what they leave, and how they fault. */
module MemoryInstructions {
  import opened Wrappers
  import opened Address
  import opened Paging
  import opened Hart
  import opened HartProofs
  import opened Core32
  import opened StepProofs
  import opened PreciseTraps
  import opened MemoryEffects
  import opened ReservedSteps
  import opened TrapRules
  import opened InstructionEffects
  import Icache
  import Tlb

  /** How many bytes a load or a store moves. */
  function Moves(k: Kind): nat {
    if k == Lw || k == Sw then 4 else if k == Lh || k == Lhu || k == Sh then 2 else 1
  }

  predicate Loads(k: Kind) { k == Lb || k == Lbu || k == Lh || k == Lhu || k == Lw }

  predicate Stores(k: Kind) { k == Sb || k == Sh || k == Sw }

  /** The bus and the translation unit that the instruction finds after its fetch. */
  function Fetched(isa: Isa, t: State, input: Input): (Bus, Mmu)
    requires CachesReady(t.c)
  {
    var (_, b, c) := FetchDecode(isa, t.b, Found(t, input), t.c);
    (b, MmuOf(c))
  }

  /** A load answers what the instruction set makes of the bytes at the translated address. Misaligned addresses come
      first, then faults of translation, then those of the bus: causes 4, 13 and 5 with the address as value. */
  predicate Loaded(isa: Isa, b: Bus, mmu: Mmu, g: Hart, d: Instruction, t': State)
    requires |g.x| == 32 && MmuReady(mmu)
  {
    var va, k, next := Low32(g.x[d.rs1] + d.imm), Moves(d.kind), Low32(g.pc + d.length);
    if va % k != 0 then Traps(g, t', 4, va) && t'.b == b
    else
      var (to, b', _) := MmuTranslate(b, mmu, g, va, Load);
      t'.b == b' &&
      match to
      case PageFault => Traps(g, t', 13, va)
      case AccessFault => Traps(g, t', 5, va)
      case Ready(p) =>
        match BusRead(b', p, k)
        case None => Traps(g, t', 5, va)
        case Some(v) => Advances(g, t', d.rd, isa.extend(d.kind, v), next)
  }

  /** How many values so many bytes have. */
  function Range(k: nat): (r: nat)
    ensures r > 0
  {
    if k == 4 then 0x1_0000_0000 else if k == 2 then 0x1_0000 else 0x100
  }

  /** A store writes the low bytes of rs2 there and no other; its causes are 6, 15 and 7. */
  ghost predicate StoredAt(b: Bus, mmu: Mmu, g: Hart, d: Instruction, t': State)
    requires |g.x| == 32 && MmuReady(mmu)
  {
    var va, k, next := Low32(g.x[d.rs1] + d.imm), Moves(d.kind), Low32(g.pc + d.length);
    if va % k != 0 then Traps(g, t', 6, va) && t'.b == b
    else
      var (to, b', _) := MmuTranslate(b, mmu, g, va, Store);
      match to
      case PageFault => Traps(g, t', 15, va) && t'.b == b'
      case AccessFault => Traps(g, t', 7, va) && t'.b == b'
      case Ready(p) =>
        if Cell(p) !in b'.ram then Traps(g, t', 7, va) && t'.b == b'
        else
          Advances(g, t', 0, 0, next) && BusRead(t'.b, p, k) == Some(g.x[d.rs2] % Range(k)) &&
          forall q :: !Within(q, p, k) ==> ByteAt(t'.b, q) == ByteAt(b', q)
  }

  lemma MemoryRuns(isa: Isa, b: Bus, mmu: Mmu, g: Hart, time: nat, d: Instruction)
    requires MmuReady(mmu) && |g.x| == 32 && (Loads(d.kind) || Stores(d.kind))
    ensures RunUnit(isa, b, mmu, g, time, d) == RunMemory(isa, b, mmu, g, d, g.x[d.rs1], g.x[d.rs2])
    ensures IsLoad(d.kind) == Loads(d.kind) && IsStore(d.kind) == Stores(d.kind) && AccessWidth(d.kind) == Moves(d.kind)
  {
    hide RunControlFlow; hide RunAtomic; hide RunMemory; hide RunCsr; hide RunPrivileged; hide RunInteger;
  }

  /** The hart after an answer or a trap, and the bus. */
  predicate Ends(g: Hart, o: Outcome, b: Bus, t': State) {
    t'.b == b && (o.Retire? ==> Committed(g, o.c) == Some(t'.h)) && (o.Trap? ==> Traps(g, t', o.cause, o.value))
  }

  lemma LoadUnit(isa: Isa, b: Bus, mmu: Mmu, g: Hart, d: Instruction, t': State)
    requires MmuReady(mmu) && |g.x| == 32 && g.x[0] == 0 && !g.waiting && Loads(d.kind) && IsLoad(d.kind) &&
        AccessWidth(d.kind) == Moves(d.kind)
    requires var (o, b', _) := RunMemory(isa, b, mmu, g, d, g.x[d.rs1], g.x[d.rs2]); Ends(g, o, b', t')
    ensures Loaded(isa, b, mmu, g, d, t')
  {
    hide MmuTranslate; hide Committed; hide Traps; hide Low32; hide Wrap; hide BusRead; hide Moves; hide AccessWidth;
    hide IsLoad; hide Stepped;
    WrapIs(g.x[d.rs1] + d.imm);
    WrapIs(g.pc + d.length);
    var va := Low32(g.x[d.rs1] + d.imm);
    var (to, b', _) := MmuTranslate(b, mmu, g, va, Load);
    if to.Ready? && BusRead(b', to.address, Moves(d.kind)).Some? {
      SimpleAnswers(g, Next(g.pc, d), d.rd, isa.extend(d.kind, BusRead(b', to.address, Moves(d.kind)).value));
    }
  }

  lemma LoadEffect(isa: Isa, t: State, input: Input)
    requires Good(t) && Executed(isa, t, input).Some? && Loads(Executed(isa, t, input).value.kind)
    ensures var g, (b, mmu) := Found(t, input), Fetched(isa, t, input);
            |g.x| == 32 && MmuReady(mmu) && Loaded(isa, b, mmu, g, Executed(isa, t, input).value, Left(isa, t, input))
  {
    hide FetchDecode; hide Left; hide Executed; hide Committed; hide ItemsLegal; hide CachesShaped; hide RunUnit;
    hide Lined; hide RunMemory; hide Traps; hide Loaded; hide LegalStatus; hide LegalSatp; hide Loads;
    Concludes(isa, t, input);
    var g, d := Found(t, input), Executed(isa, t, input).value;
    var (b, mmu) := Fetched(isa, t, input);
    MemoryRuns(isa, b, mmu, g, input.time, d);
    LoadUnit(isa, b, mmu, g, d, Left(isa, t, input));
  }

  lemma StoreUnit(isa: Isa, b: Bus, mmu: Mmu, g: Hart, d: Instruction, t': State)
    requires MmuReady(mmu) && |g.x| == 32 && g.x[0] == 0 && !g.waiting && Stores(d.kind) && !IsLoad(d.kind) &&
        IsStore(d.kind) && AccessWidth(d.kind) == Moves(d.kind)
    requires var (o, b', _) := RunMemory(isa, b, mmu, g, d, g.x[d.rs1], g.x[d.rs2]); Ends(g, o, b', t')
    ensures StoredAt(b, mmu, g, d, t')
  {
    hide MmuTranslate; hide Committed; hide Traps; hide Low32; hide Wrap; hide Moves; hide AccessWidth;
    hide IsLoad; hide IsStore; hide Stepped; hide PutPart; hide Part;
    WrapIs(g.x[d.rs1] + d.imm);
    WrapIs(g.pc + d.length);
    var va, k := Low32(g.x[d.rs1] + d.imm), Moves(d.kind);
    Widths(d.kind);
    var (to, b', _) := MmuTranslate(b, mmu, g, va, Store);
    if va % k == 0 && to.Ready? && Cell(to.address) in b'.ram {
      SimpleAnswers(g, Next(g.pc, d), 0, 0);
      OffsetKept(b, mmu, g, va, Store);
      AlignedOffset(va, k);
      LoadAfterStore(b', to.address, k, g.x[d.rs2]);
      forall q | !Within(q, to.address, k) ensures ByteAt(t'.b, q) == ByteAt(b', q) {
        WriteIsBytes(b', to.address, k, g.x[d.rs2], q);
      }
    }
  }

  lemma Widths(k: Kind)
    ensures IsWidth(Moves(k))
  {}

  lemma StoreEffect(isa: Isa, t: State, input: Input)
    requires Good(t) && Executed(isa, t, input).Some? && Stores(Executed(isa, t, input).value.kind)
    ensures var g, (b, mmu) := Found(t, input), Fetched(isa, t, input);
            |g.x| == 32 && MmuReady(mmu) && StoredAt(b, mmu, g, Executed(isa, t, input).value, Left(isa, t, input))
  {
    hide FetchDecode; hide Left; hide Executed; hide Committed; hide ItemsLegal; hide CachesShaped; hide RunUnit;
    hide Lined; hide RunMemory; hide Traps; hide StoredAt; hide LegalStatus; hide LegalSatp; hide Stores; hide Loads;
    Concludes(isa, t, input);
    var g, d := Found(t, input), Executed(isa, t, input).value;
    var (b, mmu) := Fetched(isa, t, input);
    LoadsNot(d.kind);
    MemoryRuns(isa, b, mmu, g, input.time, d);
    StoreUnit(isa, b, mmu, g, d, Left(isa, t, input));
  }

  lemma LoadsNot(k: Kind)
    ensures Stores(k) ==> !Loads(k)
  {}

  /* ---- LR and AMOs ---- */

  /** LR.W faults as a load, SC.W and the AMOs as stores. An LR that gets to RAM answers the word; an AMO answers it
      and leaves what the instruction set makes of it and rs2 in its place. SC.W is the matter of ReservedRuns. */
  ghost predicate Exchanged(isa: Isa, b: Bus, mmu: Mmu, g: Hart, d: Instruction, t': State)
    requires |g.x| == 32 && MmuReady(mmu)
  {
    var va, next, load := g.x[d.rs1], Low32(g.pc + d.length), d.kind == LrW;
    if va % 4 != 0 then Traps(g, t', if load then 4 else 6, va) && t'.b == b
    else
      var (to, b', _) := MmuTranslate(b, mmu, g, va, if load then Load else Store);
      match to
      case PageFault => Traps(g, t', if load then 13 else 15, va) && t'.b == b'
      case AccessFault => Traps(g, t', if load then 5 else 7, va) && t'.b == b'
      case Ready(p) =>
        match BusRead(b', p, 4)
        case None => Traps(g, t', if load then 5 else 7, va) && t'.b.ram == b'.ram
        case Some(was) =>
          d.kind != ScW ==>
            Advances(g, t', d.rd, was, next) &&
            if load then t'.b.ram == b'.ram
            else
              BusRead(t'.b, p, 4) == Some(isa.amo(d.kind, was, g.x[d.rs2]) % 0x1_0000_0000) &&
              forall q :: !Within(q, p, 4) ==> ByteAt(t'.b, q) == ByteAt(b', q)
  }

  lemma AccessAnswers(isa: Isa, b: Bus, g: Hart, d: Instruction, p: Phys, t': State)
    requires |g.x| == 32 && g.x[0] == 0 && !g.waiting && IsAtomic(d.kind) && Natural(p, 4)
    requires var (o, b') := AtomicAccess(isa, b, g, d, p, g.x[d.rs1], g.x[d.rs2]); Ends(g, o, b', t')
    ensures match BusRead(b, p, 4)
            case None => Traps(g, t', if d.kind == LrW then 5 else 7, g.x[d.rs1]) && t'.b.ram == b.ram
            case Some(was) =>
              d.kind != ScW ==>
                Advances(g, t', d.rd, was, Low32(g.pc + d.length)) &&
                if d.kind == LrW then t'.b.ram == b.ram
                else
                  BusRead(t'.b, p, 4) == Some(isa.amo(d.kind, was, g.x[d.rs2]) % 0x1_0000_0000) &&
                  forall q :: !Within(q, p, 4) ==> ByteAt(t'.b, q) == ByteAt(b, q)
  {
    hide Committed; hide Traps; hide Low32; hide Wrap; hide Stepped; hide PutPart; hide Part; hide IsAmo;
    WrapIs(g.pc + d.length);
    IsAmoKind(d.kind);
    if Cell(p) in b.ram {
      var was := BusRead(b, p, 4).value;
      SimpleAnswers(g, Next(g.pc, d), d.rd, was);
      if IsAmo(d.kind) {
        AmoExchanges(isa, b, g, d, p, g.x[d.rs1], g.x[d.rs2], p);
        forall q | !Within(q, p, 4) ensures ByteAt(t'.b, q) == ByteAt(b, q) {
          AmoExchanges(isa, b, g, d, p, g.x[d.rs1], g.x[d.rs2], q);
        }
      }
    }
  }

  lemma AtomicUnitAnswers(isa: Isa, b: Bus, mmu: Mmu, g: Hart, d: Instruction, t': State)
    requires MmuReady(mmu) && |g.x| == 32 && g.x[0] == 0 && !g.waiting && IsAtomic(d.kind)
    requires var (o, b', _) := RunAtomic(isa, b, mmu, g, d, g.x[d.rs1], g.x[d.rs2]); Ends(g, o, b', t')
    ensures Exchanged(isa, b, mmu, g, d, t')
  {
    hide MmuTranslate; hide Committed; hide Traps; hide Low32; hide AtomicAccess; hide IsAmo; hide Advances;
    hide BusRead;
    hide ByteAt; hide Within;
    var va := g.x[d.rs1];
    var access := if d.kind == LrW then Load else Store;
    var (to, b', _) := MmuTranslate(b, mmu, g, va, access);
    if va % 4 == 0 && to.Ready? {
      OffsetKept(b, mmu, g, va, access);
      AlignedOffset(va, 4);
      AccessAnswers(isa, b', g, d, to.address, t');
    }
  }

  lemma AtomicRuns(isa: Isa, b: Bus, mmu: Mmu, g: Hart, time: nat, d: Instruction)
    requires MmuReady(mmu) && |g.x| == 32 && IsAtomic(d.kind)
    ensures RunUnit(isa, b, mmu, g, time, d) == RunAtomic(isa, b, mmu, g, d, g.x[d.rs1], g.x[d.rs2])
  {
    hide RunControlFlow; hide RunAtomic; hide RunMemory; hide RunCsr; hide RunPrivileged; hide RunInteger; hide UnitOf;
    AtomicUnit(d.kind);
  }

  lemma AtomicEffect(isa: Isa, t: State, input: Input)
    requires Good(t) && Executed(isa, t, input).Some? && IsAtomic(Executed(isa, t, input).value.kind)
    ensures var g, (b, mmu) := Found(t, input), Fetched(isa, t, input);
            |g.x| == 32 && MmuReady(mmu) &&
              Exchanged(isa, b, mmu, g, Executed(isa, t, input).value, Left(isa, t, input))
  {
    hide FetchDecode; hide Left; hide Executed; hide Committed; hide ItemsLegal; hide CachesShaped; hide RunUnit;
    hide Lined; hide RunAtomic; hide Traps; hide Exchanged; hide LegalStatus; hide LegalSatp; hide IsAtomic;
    Concludes(isa, t, input);
    var g, d := Found(t, input), Executed(isa, t, input).value;
    var (b, mmu) := Fetched(isa, t, input);
    AtomicRuns(isa, b, mmu, g, input.time, d);
    AtomicUnitAnswers(isa, b, mmu, g, d, Left(isa, t, input));
  }

  /* ---- fetch, without caches ---- */

  /** The instruction that these bits are, or an illegal instruction with the bits as value. */
  predicate Decodes(g: Hart, t': State, d: Instruction, raw: nat, executed: Option<Instruction>) {
    if d.kind == Illegal then Traps(g, t', 2, raw) && executed == None else executed == Some(d)
  }

  /** A halfword is fetched at va, or the step traps: 12 for a page fault, 1 for an access fault, with va as value. */
  predicate FetchedOr(b: Bus, g: Hart, va: nat, t': State) {
    var (to, b1, _) := MmuTranslate(b, Direct, g, va, Fetch);
    match to
    case PageFault => Traps(g, t', 12, va)
    case AccessFault => Traps(g, t', 1, va)
    case Ready(p) => BusRead(b1, p, 2).None? ==> Traps(g, t', 1, va)
  }

  function HalfAt(b: Bus, g: Hart, va: nat): (Option<nat>, Bus) {
    var (to, b1, _) := MmuTranslate(b, Direct, g, va, Fetch);
    (if to.Ready? then BusRead(b1, to.address, 2) else None, b1)
  }

  /** An odd pc traps; a halfword whose two low bits are not both set is an instruction, and else the first half of
      one, low bits first, whose second half is fetched at the next halfword with faults of its own. */
  lemma FetchEffect(isa: Isa, t: State, input: Input)
    requires Good(t) && t.c == None && Begin(t.h, input.lines).Runs?
    ensures var g, t', executed := Found(t, input), Left(isa, t, input), Executed(isa, t, input);
            if g.pc % 2 != 0 then Traps(g, t', 0, g.pc)
            else
              FetchedOr(t.b, g, g.pc, t') &&
              var (low, b1) := HalfAt(t.b, g, g.pc);
              if low.None? then executed == None
              else if low.value % 4 != 3 then Decodes(g, t', isa.decode16(low.value), low.value, executed)
              else
                FetchedOr(b1, g, Low32(g.pc + 2), t') &&
                var (high, _) := HalfAt(b1, g, Low32(g.pc + 2));
                if high.None? then executed == None
                else
                  var raw := low.value + 0x1_0000 * high.value;
                  Decodes(g, t', isa.decode32(raw), raw, executed)
  {
    hide MmuTranslate; hide BusRead; hide ItemsLegal; hide Legal; hide TakeTrap; hide SelectFrom; hide WakeRequested;
    hide RunAll; hide Conclude; hide Low32; hide Wrap; hide Lined;
    BeginsExactly(t.h, input.lines);
    WrapIs(Found(t, input).pc + 2);
  }
}
