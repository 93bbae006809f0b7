/** Fast mode is Reference mode, for every run that fences its edits before using them. */
module CoreProofs {
  import opened Wrappers
  import opened Address
  import opened Paging
  import opened Hart
  import opened Core32
  import Tlb
  import TlbProofs
  import Icache
  import opened Live

  /* ---- the unit that a kind names is the only one that accepts it ---- */

  lemma IntegerExcludes(isa: Isa, h: Hart, d: Instruction, x: nat, y: nat)
    requires d.kind != Illegal
    ensures RunInteger(isa, h, d, x, y) != NotMine <==> UnitOf(d.kind) == Integer
  {
    hide Next;
  }

  lemma PrivilegedExcludes(h: Hart, d: Instruction)
    ensures RunPrivileged(h, d) != NotMine <==> UnitOf(d.kind) == Privileged
  {
    hide StatusWord; hide Next;
  }

  lemma ControlFlowExcludes(isa: Isa, h: Hart, d: Instruction, x: nat, y: nat)
    ensures RunControlFlow(isa, h, d, x, y) != NotMine <==> UnitOf(d.kind) == ControlFlow
  {
    hide Next; hide Wrap; hide Even;
  }

  lemma CsrExcludes(h: Hart, time: nat, d: Instruction, x: nat)
    ensures RunCsr(h, time, d, x) != NotMine <==> UnitOf(d.kind) == Csr
  {
    hide ValidateWrite; hide ValidateRead; hide ReadCsr; hide ReadForWrite; hide Next; hide Modified;
  }

  lemma AtomicKinds(k: Kind)
    ensures UnitOf(k) == Atomic <==> k == LrW || k == ScW || IsAmo(k)
  {}

  lemma AtomicExcludes(isa: Isa, b: Bus, mmu: Mmu, h: Hart, d: Instruction, x: nat, y: nat)
    requires MmuReady(mmu)
    ensures RunAtomic(isa, b, mmu, h, d, x, y).0 != NotMine <==> UnitOf(d.kind) == Atomic
    ensures UnitOf(d.kind) != Atomic ==> RunAtomic(isa, b, mmu, h, d, x, y) == (NotMine, b, mmu)
  {
    hide MmuTranslate; hide UnitOf; hide IsAmo; hide AtomicAccess;
    AtomicKinds(d.kind);
    var (t, b', _) := MmuTranslate(b, mmu, h, x, if d.kind == LrW then Load else Store);
    if t.Ready? { AtomicAnswers(isa, b', h, d, t.address, x, y); }
  }

  lemma AtomicAnswers(isa: Isa, b: Bus, h: Hart, d: Instruction, p: Phys, va: nat, v: nat)
    ensures AtomicAccess(isa, b, h, d, p, va, v).0 != NotMine
  {
    hide BusRead; hide BusWrite; hide Next;
  }

  lemma MemoryKinds(k: Kind)
    ensures UnitOf(k) == Memory <==> IsLoad(k) || IsStore(k)
    ensures !(IsLoad(k) && IsStore(k))
  {}

  lemma MemoryExcludes(isa: Isa, b: Bus, mmu: Mmu, h: Hart, d: Instruction, x: nat, y: nat)
    requires MmuReady(mmu)
    ensures RunMemory(isa, b, mmu, h, d, x, y).0 != NotMine <==> UnitOf(d.kind) == Memory
  {
    hide MmuTranslate; hide BusRead; hide BusWrite; hide UnitOf; hide IsLoad; hide IsStore; hide AccessWidth;
    hide Next; hide Wrap;
    MemoryKinds(d.kind);
  }

  /** Trying every unit in turn is running the one unit that the kind names. */
  lemma DispatchAgrees(isa: Isa, b: Bus, mmu: Mmu, h: Hart, time: nat, d: Instruction)
    requires MmuReady(mmu) && d.kind != Illegal
    ensures RunAll(isa, b, mmu, h, time, d) == RunUnit(isa, b, mmu, h, time, d)
    ensures RunUnit(isa, b, mmu, h, time, d).0 != NotMine
  {
    hide RunInteger; hide RunPrivileged; hide RunControlFlow; hide RunAtomic; hide RunCsr; hide RunMemory; hide UnitOf;
    var x, y := Reg(h, d.rs1), Reg(h, d.rs2);
    IntegerExcludes(isa, h, d, x, y);
    PrivilegedExcludes(h, d);
    ControlFlowExcludes(isa, h, d, x, y);
    CsrExcludes(h, time, d, x);
    AtomicExcludes(isa, b, mmu, h, d, x, y);
    MemoryExcludes(isa, b, mmu, h, d, x, y);
  }

  /* ---- the record is well formed ---- */

  predicate PlaceInv(p: Place, key: Icache.Key) {
    var ctx, v := Context(Sv32, key.satp, key.privilege, false, false), Virtual(Sv32, p.va);
    if Bare(ctx) then p.leaf.None? && p.at == Physical(Sv32, p.va)
    else p.leaf.Some? && var e := p.leaf.value;
      Tlb.Usable(e, ctx, e.level, v, Fetch) && p.at == Map(e.level, e.base.frame, v)
  }

  /** The instruction is what its halfwords decode to. */
  predicate CodeInv(isa: Isa, c: Code, key: Icache.Key) {
    var raw := c.item.raw;
    key.va % 2 == 0 && c.first.va == key.va && PlaceInv(c.first, key) && c.item.decoded.kind != Illegal &&
    match c.second
    case None => raw < 0x1_0000 && raw % 4 != 3 && c.item.decoded == isa.decode16(raw)
    case Some(p) => raw % 0x1_0000 % 4 == 3 && c.item.decoded == isa.decode32(raw) &&
                    p.va == Wrap(Rv32, key.va + 2) && PlaceInv(p, key)
  }

  function Items(code: map<Icache.Key, Code>): map<Icache.Key, Item> { map k | k in code :: code[k].item }

  ghost predicate LiveInv(isa: Isa, live: Live) {
    forall k :: k in live.code ==> CodeInv(isa, live.code[k], k)
  }

  ghost predicate DecodesHeld(isa: Isa, lines: seq<DecodeLine>) {
    forall i :: 0 <= i < |lines| && lines[i].valid ==> lines[i].decoded == Decode(isa, lines[i].raw, lines[i].length)
  }

  /** The caches hold nothing but what may still be cached. */
  ghost predicate Held(isa: Isa, c: Caches, live: Live) {
    CachesShaped(c) && TlbProofs.Covered(c.tlb, live.leaves) && Icache.Sound(c.lines, Sv32, Items(live.code)) &&
    DecodesHeld(isa, c.decodes) && LiveInv(isa, live)
  }

  /* ---- one halfword ---- */

  lemma HalfAgrees(b: Bus, t: Tlb.Cache, live: Live, h: Hart, va: nat)
    requires TlbProofs.Covered(t, live.leaves) && MayUse(live, h, b.ram, va, Fetch)
    ensures var (half, b1, mmu) := FetchHalf(b, Cached(t), h, va);
            mmu.Cached? && (half, b1, Direct) == FetchHalf(b, Direct, h, va) &&
            TlbProofs.Covered(mmu.t, Leaves(live, h, b.ram, va, Fetch).leaves)
  {
    hide Tlb.CachedTranslate; hide Translate; hide TlbProofs.LiveAfter; hide TlbProofs.MayTranslate; hide ContextOf;
    hide TlbProofs.Covered;
    hide BusRead;
    TlbProofs.CoveredTranslates(t, live.leaves, b.ram, ContextOf(Rv32, h, Fetch), va, Fetch);
  }

  /** While its place is fresh a halfword is fetched again without touching memory. */
  lemma PlaceFetches(p: Place, key: Icache.Key, b: Bus, h: Hart, half: nat)
    requires PlaceInv(p, key) && PlaceFresh(p, key, b, half) && h.satp == key.satp && h.privilege == key.privilege
    ensures FetchHalf(b, Direct, h, p.va) == (Half(half, p.at), b, Direct)
  {
    hide FindLeaf; hide BusRead; hide Virtual; hide Physical; hide Map; hide Tlb.Fresh; hide Page; hide Fields;
    var ctx, v := FetchContext(h), Virtual(Sv32, p.va);
    if !Bare(ctx) {
      Tlb.HitIsWalk(p.leaf.value, b.ram, ctx, v, Fetch);
    }
  }

  lemma CodeFetches(isa: Isa, c: Code, b: Bus, h: Hart)
    requires CodeInv(isa, c, KeyOf(h)) && CodeFresh(c, KeyOf(h), b)
    ensures FetchMiss(isa, b, h, None) == (Got(c.item), b, None)
  {
    hide FetchHalf; hide PlaceInv; hide PlaceFresh;
    PlaceFetches(c.first, KeyOf(h), b, h, c.item.raw % 0x1_0000);
    if c.second.Some? { PlaceFetches(c.second.value, KeyOf(h), b, h, c.item.raw / 0x1_0000); }
  }

  /** A place recorded when a halfword was fetched is well formed. */
  lemma PlaceRecorded(b: Bus, h: Hart, va: nat)
    requires FetchHalf(b, Direct, h, va).0.Half?
    ensures PlaceInv(PlaceOf(h, b.ram, va), KeyOf(h))
  {
    hide FindLeaf; hide BusRead; hide Virtual; hide Physical; hide Map; hide Page; hide Fields; hide Touch;
    hide PageBase;
  }

  /* ---- fetch and decode ---- */

  lemma DecodeAgrees(isa: Isa, c: Caches, raw: nat, length: nat)
    requires CachesShaped(c) && DecodesHeld(isa, c.decodes)
    ensures var (d, c') := DecodeThrough(isa, Some(c), raw, length);
            d == Decode(isa, raw, length) && c'.Some? && c'.value == c.(decodes := c'.value.decodes) &&
            DecodesHeld(isa, c'.value.decodes)
  {
    hide DecodeSlot; hide Decode;
  }

  /** Keeping an instruction in the cache is recording it. */
  lemma KeepHeld(isa: Isa, c: Caches, live: Live, h: Hart, item: Item, first: Place, second: Option<Place>)
    requires Held(isa, c, live) && CodeInv(isa, Code(item, first, second), KeyOf(h))
    ensures var c' := Keep(Some(c), h, item); c'.Some? && Held(isa, c'.value, Kept(live, h, Got(item), first, second))
  {
    hide CodeInv; hide DecodesHeld; hide Tlb.Shaped; hide Icache.Sound; hide TlbProofs.Covered; hide AtPageEnd;
    hide KeyOf; hide Icache.Insert;
    hide Items; hide Icache.Shaped;
    Icache.InsertSound(c.lines, Sv32, Items(live.code), KeyOf(h), item);
    ItemsRecorded(live.code, KeyOf(h), Code(item, first, second));
  }

  lemma ItemsRecorded(code: map<Icache.Key, Code>, key: Icache.Key, c: Code)
    ensures Items(code[key := c]) == Items(code)[key := c.item]
  {}

  lemma DecodeHeld(isa: Isa, c: Caches, live: Live, raw: nat, length: nat)
    requires Held(isa, c, live)
    ensures var (d, c') := DecodeThrough(isa, Some(c), raw, length);
            d == Decode(isa, raw, length) && c'.Some? && Held(isa, c'.value, live)
  {
    hide Decode; hide CodeInv; hide DecodesHeld; hide DecodeThrough; hide Icache.Sound; hide TlbProofs.Covered;
    DecodeAgrees(isa, c, raw, length);
  }

  lemma FinishAgrees(isa: Isa, c: Caches, live: Live, h: Hart, raw: nat, length: nat, first: Place,
      second: Option<Place>)
    requires Held(isa, c, live)
    requires Decode(isa, raw, length).kind != Illegal ==>
        CodeInv(isa, Code(Item(raw, Decode(isa, raw, length)), first, second), KeyOf(h))
    ensures var (f, c') := Finish(isa, Some(c), h, raw, length);
            c'.Some? && (f, None) == Finish(isa, None, h, raw, length) &&
              Held(isa, c'.value, Kept(live, h, f, first, second))
  {
    hide Decode; hide CodeInv; hide DecodeThrough; hide Keep; hide Held; hide CachesShaped;
    HeldShaped(isa, c, live);
    DecodeHeld(isa, c, live, raw, length);
    DecodeDirect(isa, raw, length);
    var d := Decode(isa, raw, length);
    NothingToKeep(h, Item(raw, d));
    if d.kind != Illegal {
      KeepHeld(isa, DecodeThrough(isa, Some(c), raw, length).1.value, live, h, Item(raw, d), first, second);
    }
  }

  lemma NothingToKeep(h: Hart, item: Item)
    ensures Keep(None, h, item) == None
  {}

  lemma DecodeDirect(isa: Isa, raw: nat, length: nat)
    ensures DecodeThrough(isa, None, raw, length) == (Decode(isa, raw, length), None)
  {}

  lemma HalfBounded(b: Bus, mmu: Mmu, h: Hart, va: nat)
    requires MmuReady(mmu) && FetchHalf(b, mmu, h, va).0.Half?
    ensures FetchHalf(b, mmu, h, va).0.value < 0x1_0000
  {
    hide MmuTranslate;
  }

  lemma JoinedHalves(first: nat, second: nat)
    requires first < 0x1_0000
    ensures var raw := first + second * 0x1_0000; raw % 0x1_0000 == first && raw / 0x1_0000 == second
  {}

  lemma HeldLeaves(isa: Isa, c: Caches, live: Live, mmu: Mmu, h: Hart, m: Ram, va: nat, access: Access)
    requires Held(isa, c, live) && mmu.Cached? && TlbProofs.Covered(mmu.t, Leaves(live, h, m, va, access).leaves)
    ensures Held(isa, c.(tlb := mmu.t), Leaves(live, h, m, va, access))
  {
    hide TlbProofs.LiveAfter; hide CodeInv; hide DecodesHeld; hide Icache.Sound;
  }

  lemma MissAgrees(isa: Isa, b: Bus, h: Hart, c: Caches, live: Live)
    requires Held(isa, c, live) && MayFetch(live, b, h) && h.pc % 2 == 0
    ensures var (f, b', c') := FetchMiss(isa, b, h, Some(c));
            c'.Some? && (f, b', None) == FetchMiss(isa, b, h, None) && Held(isa, c'.value, AfterFetch(isa, live, b, h))
  {
    hide FetchHalf; hide MayUse; hide Leaves; hide Finish; hide CodeInv; hide PlaceOf; hide CodeFresh;
    hide DecodesHeld; hide Icache.Sound; hide LiveInv; hide TlbProofs.Covered;
    HalfAgrees(b, c.tlb, live, h, h.pc);
    var (first, b1, mmu1) := FetchHalf(b, Cached(c.tlb), h, h.pc);
    var live1 := Leaves(live, h, b.ram, h.pc, Fetch);
    HeldLeaves(isa, c, live, mmu1, h, b.ram, h.pc, Fetch);
    var c1 := c.(tlb := mmu1.t);
    if first.Half? {
      HalfBounded(b, Direct, h, h.pc);
      var place := PlaceOf(h, b.ram, h.pc);
      if first.value % 4 != 3 {
        CompressedRecorded(isa, b, h);
        FinishAgrees(isa, c1, live1, h, first.value, 2, place, None);
      } else {
        var next := Wrap(Rv32, h.pc + 2);
        HalfAgrees(b1, c1.tlb, live1, h, next);
        var (second, b2, mmu2) := FetchHalf(b1, mmu1, h, next);
        HeldLeaves(isa, c1, live1, mmu2, h, b1.ram, next, Fetch);
        if second.Half? {
          StandardRecorded(isa, b, h);
          FinishAgrees(isa, c1.(tlb := mmu2.t), Leaves(live1, h, b1.ram, next, Fetch), h,
            first.value + second.value * 0x1_0000, 4,
                       place, Some(PlaceOf(h, b1.ram, next)));
        }
      }
    }
  }

  lemma CompressedRecorded(isa: Isa, b: Bus, h: Hart)
    requires h.pc % 2 == 0 && FetchHalf(b, Direct, h, h.pc).0.Half? && FetchHalf(b, Direct, h, h.pc).0.value % 4 != 3
    ensures var raw := FetchHalf(b, Direct, h, h.pc).0.value;
            Decode(isa, raw, 2).kind != Illegal ==>
              CodeInv(isa, Code(Item(raw, Decode(isa, raw, 2)), PlaceOf(h, b.ram, h.pc), None), KeyOf(h))
  {
    hide FetchHalf; hide PlaceInv;
    HalfBounded(b, Direct, h, h.pc);
    PlaceRecorded(b, h, h.pc);
  }

  lemma StandardRecorded(isa: Isa, b: Bus, h: Hart)
    requires var (first, b1, _) := FetchHalf(b, Direct, h, h.pc);
             h.pc % 2 == 0 && first.Half? && first.value % 4 == 3 &&
               FetchHalf(b1, Direct, h, Wrap(Rv32, h.pc + 2)).0.Half?
    ensures var (first, b1, _) := FetchHalf(b, Direct, h, h.pc);
            var next := Wrap(Rv32, h.pc + 2);
            var raw := first.value + FetchHalf(b1, Direct, h, next).0.value * 0x1_0000;
            Decode(isa, raw, 4).kind != Illegal ==>
              CodeInv(isa, Code(Item(raw, Decode(isa, raw, 4)), PlaceOf(h, b.ram, h.pc),
                Some(PlaceOf(h, b1.ram, next))), KeyOf(h))
  {
    hide FetchHalf; hide PlaceInv;
    var (first, b1, _) := FetchHalf(b, Direct, h, h.pc);
    var next := Wrap(Rv32, h.pc + 2);
    HalfBounded(b, Direct, h, h.pc);
    JoinedHalves(first.value, FetchHalf(b1, Direct, h, next).0.value);
    PlaceRecorded(b, h, h.pc);
    PlaceRecorded(b1, h, next);
  }

  /** A hit on the instruction cache is what a fetch from memory would give, which changes nothing. */
  lemma HitAgrees(isa: Isa, b: Bus, h: Hart, c: Caches, live: Live)
    requires Held(isa, c, live) && MayFetch(live, b, h) && h.pc % 2 == 0 && !AtPageEnd(h.pc)
    requires Icache.Lookup(c.lines, Sv32, KeyOf(h)).Some?
    ensures FetchMiss(isa, b, h, None) == (Got(Icache.Lookup(c.lines, Sv32, KeyOf(h)).value), b, None)
    ensures Held(isa, c, AfterFetch(isa, live, b, h))
  {
    hide FetchMiss; hide CodeFresh; hide CodeInv; hide DecodesHeld; hide Icache.Sound; hide AtPageEnd; hide PlaceOf;
    hide Icache.Lookup; hide Icache.Shaped; hide TlbProofs.LiveAfter; hide MayUse; hide TlbProofs.Covered;
    Icache.HitIsContents(c.lines, Sv32, Items(live.code), KeyOf(h));
    var code := live.code[KeyOf(h)];
    CodeFetches(isa, code, b, h);
    RefetchKeepsHeld(isa, b, h, c, live);
  }

  lemma HeldMoreLeaves(isa: Isa, c: Caches, live: Live, live': Live)
    requires Held(isa, c, live) && live.leaves <= live'.leaves && live'.code == live.code
    ensures Held(isa, c, live')
  {
    hide CodeInv; hide DecodesHeld; hide Icache.Sound; hide CachesShaped;
  }

  /** Recording the same instruction again, at fresh places, keeps what is held. */
  lemma HeldAgain(isa: Isa, c: Caches, live: Live, key: Icache.Key, code: Code)
    requires Held(isa, c, live) && key in live.code && code.item == live.code[key].item && CodeInv(isa, code, key)
    ensures Held(isa, c, live.(code := live.code[key := code]))
  {
    hide CodeInv; hide DecodesHeld; hide Icache.Sound; hide CachesShaped; hide TlbProofs.Covered; hide Items;
    ItemsRecorded(live.code, key, code);
    SameItems(live.code, key);
  }

  lemma SameItems(code: map<Icache.Key, Code>, key: Icache.Key)
    requires key in code
    ensures Items(code)[key := code[key].item] == Items(code)
  {}

  lemma RefetchKeepsHeld(isa: Isa, b: Bus, h: Hart, c: Caches, live: Live)
    requires Held(isa, c, live) && h.pc % 2 == 0 && !AtPageEnd(h.pc) && KeyOf(h) in live.code
    requires FetchMiss(isa, b, h, None) == (Got(live.code[KeyOf(h)].item), b, None)
    ensures Held(isa, c, AfterFetch(isa, live, b, h))
  {
    hide FetchHalf; hide CodeInv; hide Held; hide AtPageEnd; hide PlaceOf; hide Leaves; hide KeyOf; hide Decode;
    var (first, b1, _) := FetchHalf(b, Direct, h, h.pc);
    var item, place := live.code[KeyOf(h)].item, PlaceOf(h, b.ram, h.pc);
    var live1 := Leaves(live, h, b.ram, h.pc, Fetch);
    MoreLeaves(live, h, b.ram, h.pc, Fetch);
    HeldMoreLeaves(isa, c, live, live1);
    if first.value % 4 != 3 {
      CompressedRecorded(isa, b, h);
      DecodedFinish(isa, h, first.value, 2);
      HeldAgain(isa, c, live1, KeyOf(h), Code(item, place, None));
    } else {
      var next := Wrap(Rv32, h.pc + 2);
      var live2 := Leaves(live1, h, b1.ram, next, Fetch);
      MoreLeaves(live1, h, b1.ram, next, Fetch);
      HeldMoreLeaves(isa, c, live1, live2);
      StandardRecorded(isa, b, h);
      DecodedFinish(isa, h, first.value + FetchHalf(b1, Direct, h, next).0.value * 0x1_0000, 4);
      HeldAgain(isa, c, live2, KeyOf(h), Code(item, place, Some(PlaceOf(h, b1.ram, next))));
    }
  }

  lemma DecodedFinish(isa: Isa, h: Hart, raw: nat, length: nat)
    ensures var d, f := Decode(isa, raw, length), Finish(isa, None, h, raw, length).0;
            f == if d.kind == Illegal then FetchTrap(2, raw, raw, NoFault) else Got(Item(raw, d))
  {
    hide Decode; hide Keep;
  }

  lemma MoreLeaves(live: Live, h: Hart, m: Ram, va: nat, access: Access)
    ensures live.leaves <= Leaves(live, h, m, va, access).leaves && Leaves(live, h, m, va, access).code == live.code
  {
    hide Walk; hide Lookup; hide Virtual; hide ContextOf;
  }

  lemma HeldShaped(isa: Isa, c: Caches, live: Live)
    requires Held(isa, c, live)
    ensures CachesShaped(c)
  {}

  lemma FetchAgrees(isa: Isa, b: Bus, h: Hart, c: Caches, live: Live)
    requires Held(isa, c, live) && MayFetch(live, b, h)
    ensures var (f, b', c') := FetchDecode(isa, b, h, Some(c));
            c'.Some? && (f, b', None) == FetchDecode(isa, b, h, None) &&
              Held(isa, c'.value, AfterFetch(isa, live, b, h))
  {
    hide FetchMiss; hide Held; hide MayFetch; hide Icache.Lookup; hide AtPageEnd;
    HeldShaped(isa, c, live);
    if h.pc % 2 == 0 {
      if !AtPageEnd(h.pc) && Icache.Lookup(c.lines, Sv32, KeyOf(h)).Some? {
        HitAgrees(isa, b, h, c, live);
      } else {
        MissAgrees(isa, b, h, c, live);
      }
    }
  }

  /* ---- loads, stores and atomics ---- */

  lemma TranslateAgrees(b: Bus, t: Tlb.Cache, live: Live, h: Hart, va: nat, access: Access)
    requires TlbProofs.Covered(t, live.leaves) && MayUse(live, h, b.ram, va, access)
    ensures var (r, b', mmu) := MmuTranslate(b, Cached(t), h, va, access);
            mmu.Cached? && (r, b', Direct) == MmuTranslate(b, Direct, h, va, access) &&
            TlbProofs.Covered(mmu.t, Leaves(live, h, b.ram, va, access).leaves)
  {
    hide Tlb.CachedTranslate; hide Translate; hide TlbProofs.LiveAfter; hide TlbProofs.MayTranslate; hide ContextOf;
    hide TlbProofs.Covered;
    TlbProofs.CoveredTranslates(t, live.leaves, b.ram, ContextOf(Rv32, h, access), va, access);
  }

  lemma AtomicAgrees(isa: Isa, b: Bus, t: Tlb.Cache, live: Live, h: Hart, d: Instruction)
    requires TlbProofs.Covered(t, live.leaves) && MayAccess(live, b, h, d) && UnitOf(d.kind) == Atomic
    ensures var (o, b', mmu) := RunAtomic(isa, b, Cached(t), h, d, Reg(h, d.rs1), Reg(h, d.rs2));
            mmu.Cached? && (o, b', Direct) == RunAtomic(isa, b, Direct, h, d, Reg(h, d.rs1), Reg(h, d.rs2)) &&
            TlbProofs.Covered(mmu.t, AfterData(live, b, h, d).leaves)
  {
    hide MmuTranslate; hide Leaves; hide MayUse; hide AtomicAccess; hide TlbProofs.Covered; hide UnitOf; hide IsAmo;
    hide Reg;
    AtomicKinds(d.kind);
    if Reg(h, d.rs1) % 4 == 0 {
      TranslateAgrees(b, t, live, h, Reg(h, d.rs1), if d.kind == LrW then Load else Store);
    }
  }

  lemma MemoryAgrees(isa: Isa, b: Bus, t: Tlb.Cache, live: Live, h: Hart, d: Instruction)
    requires TlbProofs.Covered(t, live.leaves) && MayAccess(live, b, h, d) && UnitOf(d.kind) == Memory
    ensures var (o, b', mmu) := RunMemory(isa, b, Cached(t), h, d, Reg(h, d.rs1), Reg(h, d.rs2));
            mmu.Cached? && (o, b', Direct) == RunMemory(isa, b, Direct, h, d, Reg(h, d.rs1), Reg(h, d.rs2)) &&
            TlbProofs.Covered(mmu.t, AfterData(live, b, h, d).leaves)
  {
    hide MmuTranslate; hide Leaves; hide MayUse; hide MemoryAccess; hide TlbProofs.Covered; hide UnitOf;
    hide AccessWidth; hide Reg; hide Wrap;
    hide IsLoad; hide IsStore;
    MemoryKinds(d.kind);
    var va := Wrap(Rv32, Reg(h, d.rs1) + d.imm);
    if va % AccessWidth(d.kind) == 0 {
      TranslateAgrees(b, t, live, h, va, if IsLoad(d.kind) then Load else Store);
    }
  }

  lemma UnitAgrees(isa: Isa, b: Bus, t: Tlb.Cache, live: Live, h: Hart, time: nat, d: Instruction)
    requires TlbProofs.Covered(t, live.leaves) && MayAccess(live, b, h, d)
    ensures var (o, b', mmu) := RunUnit(isa, b, Cached(t), h, time, d);
            mmu.Cached? && (o, b', Direct) == RunUnit(isa, b, Direct, h, time, d) &&
            TlbProofs.Covered(mmu.t, AfterData(live, b, h, d).leaves)
  {
    hide RunInteger; hide RunPrivileged; hide RunControlFlow; hide RunAtomic; hide RunCsr; hide RunMemory;
    hide MayAccess; hide TlbProofs.Covered;
    match UnitOf(d.kind)
    case Atomic => AtomicAgrees(isa, b, t, live, h, d);
    case Memory => MemoryAgrees(isa, b, t, live, h, d);
    case _ =>
  }

  /* ---- fences ---- */

  lemma MaintainAgrees(isa: Isa, c: Caches, live: Live, h: Hart, d: Instruction)
    requires Held(isa, c, live)
    ensures var c' := Maintain(Some(c), h, d); c'.Some? && Held(isa, c'.value, AfterFence(live, h, d))
  {
    hide CodeInv; hide DecodesHeld; hide Icache.Sound; hide Icache.Fence; hide Tlb.Fence; hide TlbProofs.Covered;
    hide TlbProofs.LiveFenced;
    hide Icache.Clear; hide Icache.Fenced; hide FenceAddress; hide FenceAsid;
    var address, asid := FenceAddress(h, d), FenceAsid(h, d);
    if d.kind == SfenceVma {
      TlbProofs.CoveredFences(c.tlb, live.leaves, Sv32, address, asid);
      Icache.FenceSound(c.lines, Sv32, Items(live.code), address, asid);
      assert Items(AfterFence(live, h, d).code) == Icache.Unfenced(Items(live.code), address, asid);
      FenceShaped(c, address, asid);
    } else if d.kind == FenceI {
      Icache.ClearSound(c.lines, Sv32, Items(live.code));
      assert Items(AfterFence(live, h, d).code) == map[];
      BlankHeld(isa);
    }
  }

  lemma FenceShaped(c: Caches, address: Option<nat>, asid: Option<nat>)
    requires CachesShaped(c)
    ensures CachesShaped(c.(tlb := Tlb.Fence(c.tlb, Sv32, address, asid),
        lines := Icache.Fence(c.lines, Sv32, address, asid)))
  {}

  lemma BlankHeld(isa: Isa)
    ensures DecodesHeld(isa, seq(1024, _ => BlankDecode))
  {}

  /* ---- one step, and every run ---- */

  lemma StepAgrees(isa: Isa, h: Hart, b: Bus, c: Caches, live: Live, input: Input)
    requires Held(isa, c, live) && MayStep(isa, live, h, b, input)
    ensures var (r, h', b', c') := Step(isa, h, b, Some(c), input);
            c'.Some? && (r, h', b', None) == Step(isa, h, b, None, input) &&
            Held(isa, c'.value, AfterStep(isa, live, h, b, input))
  {
    hide FetchDecode; hide Held; hide MayFetch; hide RunUnit; hide RunAll; hide MayAccess; hide AfterFetch;
    hide AfterData;
    hide AfterFence; hide Maintain; hide Begin; hide Conclude; hide Trapped; hide TakeInterrupt; hide CachesShaped;
    HeldShaped(isa, c, live);
    var begun := Begin(h, input.lines);
    if begun.Runs? {
      var h1 := begun.h;
      FetchAgrees(isa, b, h1, c, live);
      var (f, b1, c1) := FetchDecode(isa, b, h1, Some(c));
      if f.Got? {
        var d := f.item.decoded;
        var live1 := AfterFetch(isa, live, b, h1);
        FetchedLegal(isa, b, h1);
        DispatchAgrees(isa, b1, Direct, h1, input.time, d);
        HeldCovers(isa, c1.value, live1);
        UnitAgrees(isa, b1, c1.value.tlb, live1, h1, input.time, d);
        var mmu := RunUnit(isa, b1, Cached(c1.value.tlb), h1, input.time, d).2;
        HeldData(isa, c1.value, live1, b1, h1, d, mmu.t);
        MaintainAgrees(isa, c1.value.(tlb := mmu.t), AfterData(live1, b1, h1, d), h1, d);
        NothingToMaintain(h1, d);
      }
    }
  }

  lemma NothingToMaintain(h: Hart, d: Instruction)
    ensures Maintain(None, h, d) == None
  {}

  /** What a fetch from memory delivers is never the illegal kind. */
  lemma FetchedLegal(isa: Isa, b: Bus, h: Hart)
    ensures var f := FetchDecode(isa, b, h, None).0; f.Got? ==> f.item.decoded.kind != Illegal
  {
    hide FetchHalf; hide Decode;
  }

  lemma HeldCovers(isa: Isa, c: Caches, live: Live)
    requires Held(isa, c, live)
    ensures TlbProofs.Covered(c.tlb, live.leaves)
  {}

  lemma HeldData(isa: Isa, c: Caches, live: Live, b: Bus, h: Hart, d: Instruction, t: Tlb.Cache)
    requires Held(isa, c, live) && TlbProofs.Covered(t, AfterData(live, b, h, d).leaves)
    ensures Held(isa, c.(tlb := t), AfterData(live, b, h, d))
  {
    hide CodeInv; hide DecodesHeld; hide Icache.Sound; hide TlbProofs.LiveAfter; hide DataAccess;
  }

  /* ---- every run ---- */

  /** Fast mode refines Reference mode: the same step results, hart states, RAM, reservations
      and write epochs after every step of every disciplined run. */
  lemma {:induction false} RunAgrees(isa: Isa, h: Hart, b: Bus, c: Caches, live: Live, events: seq<Event>)
    requires Held(isa, c, live) && Disciplined(isa, live, h, b, events)
    ensures CachesShaped(c) && Run(isa, h, b, Some(c), events) == Run(isa, h, b, None, events)
    decreases |events|
  {
    hide Step; hide Held; hide MayStep; hide AfterStep; hide Dma; hide Elapse; hide CachesShaped;
    HeldShaped(isa, c, live);
    if events != [] {
      var h0, b0, input := Elapse(h, events[0]), Dma(b, events[0]), events[0].input;
      StepAgrees(isa, h0, b0, c, live, input);
      var (_, h', b', c') := Step(isa, h0, b0, Some(c), input);
      RunAgrees(isa, h', b', c'.value, AfterStep(isa, live, h0, b0, input), events[1..]);
    }
  }

  /** From reset, whatever the program does, as long as it fences its edits before using them. */
  lemma ResetRunAgrees(isa: Isa, h: Hart, b: Bus, events: seq<Event>)
    requires Disciplined(isa, Nothing, h, b, events)
    ensures CachesShaped(EmptyCaches()) && Run(isa, h, b, Some(EmptyCaches()), events) == Run(isa, h, b, None, events)
  {
    hide Held; hide Disciplined; hide EmptyCaches; hide Run;
    EmptyHeld(isa);
    RunAgrees(isa, h, b, EmptyCaches(), Nothing, events);
  }

  lemma EmptyHeld(isa: Isa)
    ensures Held(isa, EmptyCaches(), Nothing)
  {
    var lines := EmptyCaches().lines;
    Icache.RunSound<Item>(Sv32, []);
    assert Items(map[]) == map[];
    assert Icache.Run<Item>(Sv32, []) == Icache.Empty<Item>(Sv32) && Icache.Replay<Item>([]) == map[];
    hide Icache.Empty; hide Icache.Sound; hide Icache.Run;
  }
}
