/** What fences leave behind, in terms of the registers that SFENCE.VMA names: of the TLB, of the instruction
    cache, and of the record of what may still be cached. */
module FenceEffects {
  import opened Wrappers
  import opened Address
  import opened Paging
  import opened Hart
  import Core32
  import Core64
  import Fast64
  import Live
  import Live64
  import Bits
  import Tlb
  import Icache
  import TlbProofs

  /* ---- the scope of the operands ---- */

  /** rs1 names the address and rs2 the ASID, of which the hardware has the given number; x0 stands for all. */
  predicate LeafCovered(e: Tlb.Entry, mode: Mode, x: seq<nat>, rs1: nat, rs2: nat, asids: nat)
    requires |x| == 32 && rs1 < 32 && rs2 < 32 && asids > 0
  {
    (rs1 != 0 ==> e.page == Page(e.level, Virtual(mode, x[rs1]))) &&
    (rs2 != 0 ==> !e.global && e.asid == x[rs2] % asids)
  }

  predicate CodeCovered(k: Icache.Key, x: seq<nat>, rs1: nat, rs2: nat, asids: nat)
    requires |x| == 32 && rs1 < 32 && rs2 < 32 && asids > 0
  {
    (rs1 != 0 ==> k.va / 0x1000 == x[rs1] / 0x1000) && (rs2 != 0 ==> k.satp.asid == x[rs2] % asids)
  }

  /** A leaf that answers for va is covered exactly when va and the named address share its page. */
  lemma LeafCoveredIs(e: Tlb.Entry, mode: Mode, va: nat, x: seq<nat>, rs1: nat, rs2: nat, asids: nat)
    requires |x| == 32 && rs1 < 32 && rs2 < 32 && asids > 0
    requires e.level <= TopLevel(mode) && e.page == Page(e.level, Virtual(mode, va))
    ensures LeafCovered(e, mode, x, rs1, rs2, asids) <==>
            (rs1 != 0 ==> va / PageSize(mode, e.level) == x[rs1] / PageSize(mode, e.level)) &&
            (rs2 != 0 ==> !e.global && e.asid == x[rs2] % asids)
  {
    hide Virtual;
    match mode
    case Sv32 => SamePageSv32(va, x[rs1]);
    case Sv39 => SamePageSv39(va, x[rs1]);
  }

  /** The entries that the fence leaves valid are those that it does not cover, as they were. */
  ghost predicate LeavesEnded(t: Tlb.Cache, t': Tlb.Cache, mode: Mode, x: seq<nat>, rs1: nat, rs2: nat, asids: nat)
    requires |x| == 32 && rs1 < 32 && rs2 < 32 && asids > 0
  {
    Tlb.Shaped(t) && Tlb.Shaped(t') && t'.ways == t.ways &&
    forall i :: 0 <= i < 64 ==>
      (t'.entries[i].valid <==> t.entries[i].valid && !LeafCovered(t.entries[i], mode, x, rs1, rs2, asids)) &&
      (t'.entries[i].valid ==> t'.entries[i] == t.entries[i])
  }

  /** No instruction that the fence covers is found, and none that was not found before. */
  ghost predicate CodeEnded<T(!new)>(c: Icache.Cache<T>, c': Icache.Cache<T>, mode: Mode, x: seq<nat>, rs1: nat,
      rs2: nat, asids: nat)
    requires |x| == 32 && rs1 < 32 && rs2 < 32 && asids > 0
  {
    Icache.Shaped(c, mode) && Icache.Shaped(c', mode) &&
    forall k :: (CodeCovered(k, x, rs1, rs2, asids) ==> Icache.Lookup(c', mode, k).None?) &&
                (Icache.Lookup(c', mode, k).Some? ==> Icache.Lookup(c', mode, k) == Icache.Lookup(c, mode, k))
  }

  /** Some record of insertions explains the cache. */
  ghost predicate Explained<T(!new)>(c: Icache.Cache<T>, mode: Mode) {
    exists s: Icache.Contents<T> :: Icache.Sound(c, mode, s)
  }

  function Named(x: seq<nat>, r: nat, modulus: nat): (v: Option<nat>)
    requires |x| == 32 && r < 32
  {
    if r == 0 then None else Some(if modulus == 0 then x[r] else x[r] % modulus)
  }

  lemma FenceLeaves(t: Tlb.Cache, mode: Mode, x: seq<nat>, rs1: nat, rs2: nat, asids: nat)
    requires Tlb.Shaped(t) && |x| == 32 && rs1 < 32 && rs2 < 32 && asids > 0
    ensures LeavesEnded(t, Tlb.Fence(t, mode, Named(x, rs1, 0), Named(x, rs2, asids)), mode, x, rs1, rs2, asids)
  {
    hide Virtual; hide Page;
  }

  lemma FenceCode<T(!new)>(c: Icache.Cache<T>, mode: Mode, x: seq<nat>, rs1: nat, rs2: nat, asids: nat)
    requires Explained(c, mode) && |x| == 32 && rs1 < 32 && rs2 < 32 && asids > 0
    ensures Icache.Shaped(c, mode)
    ensures CodeEnded(c, Icache.Fence(c, mode, Named(x, rs1, 0), Named(x, rs2, asids)), mode, x, rs1, rs2, asids)
  {
    hide Icache.Sound; hide Icache.Lookup; hide Icache.Fence; hide Icache.SharesEpoch; hide Icache.Shaped;
    var s :| Icache.Sound(c, mode, s);
    SoundShaped(c, mode, s);
    var address, asid := Named(x, rs1, 0), Named(x, rs2, asids);
    forall k ensures CodeCovered(k, x, rs1, rs2, asids) ==>
        Icache.Lookup(Icache.Fence(c, mode, address, asid), mode, k).None?
      ensures Icache.Lookup(Icache.Fence(c, mode, address, asid), mode, k).Some? ==>
                Icache.Lookup(Icache.Fence(c, mode, address, asid), mode, k) == Icache.Lookup(c, mode, k) {
      Icache.FenceExact(c, mode, s, k, address, asid);
    }
  }

  lemma SoundShaped<T>(c: Icache.Cache<T>, mode: Mode, s: Icache.Contents<T>)
    requires Icache.Sound(c, mode, s)
    ensures Icache.Shaped(c, mode)
  {}

  /** After the fence a translation in its scope is the walk's, whatever the tables now say; with an ASID,
      unless a global leaf is left, which such a fence spares. */
  lemma EndedTranslates(t: Tlb.Cache, t': Tlb.Cache, m: Ram, ctx: Context, va: nat, access: Access, x: seq<nat>,
      rs1: nat, rs2: nat, asids: nat)
    requires |x| == 32 && rs1 < 32 && rs2 < 32 && asids > 0 && LeavesEnded(t, t', ctx.mode, x, rs1, rs2, asids)
    requires rs1 != 0 ==> va / 0x1000 == x[rs1] / 0x1000
    requires rs2 != 0 ==> ctx.satp.asid == x[rs2] % asids && forall e :: e in t.entries && e.valid ==> !e.global
    ensures var (r, m', _) := Tlb.CachedTranslate(t', m, ctx, va, access); (r, m') == Translate(m, ctx, va, access)
  {
    hide FindLeaf; hide Virtual; hide Tlb.FindWay; hide Tlb.SetOf; hide Tlb.Insert; hide Walk; hide PrivilegeAllows;
    var v := Virtual(ctx.mode, va);
    if !Bare(ctx) && Canonical(ctx.mode, v) {
      var hit := Tlb.Probe(t', ctx, v, access, 0);
      if hit.Some? {
        var e := t'.entries[hit.value];
        assert e == t.entries[hit.value] && e in t.entries;
        if rs1 != 0 { SamePages(ctx.mode, e.level, va, x[rs1]); }
        assert false;
      }
    }
  }

  /** Addresses of one 4 KiB page share every larger page too. */
  lemma SamePages(mode: Mode, level: nat, a: nat, b: nat)
    requires level <= TopLevel(mode) && a / 0x1000 == b / 0x1000
    ensures Page(level, Virtual(mode, a)) == Page(level, Virtual(mode, b))
  {
    NestedDivisions(a); NestedDivisions(b);
    match mode
    case Sv32 => SamePageSv32(a, b);
    case Sv39 => SamePageSv39(a, b);
  }

  /* ---- explained caches stay explained ---- */

  lemma InsertExplained<T(!new)>(c: Icache.Cache<T>, mode: Mode, k: Icache.Key, item: T)
    requires Explained(c, mode)
    ensures Icache.Shaped(c, mode) && Explained(Icache.Insert(c, mode, k, item), mode)
  {
    hide Icache.Sound; hide Icache.Insert; hide Icache.Shaped; hide Icache.Lookup;
    var s :| Icache.Sound(c, mode, s);
    SoundShaped(c, mode, s);
    Icache.InsertSound(c, mode, s, k, item);
  }

  lemma FenceExplained<T(!new)>(c: Icache.Cache<T>, mode: Mode, address: Option<nat>, asid: Option<nat>)
    requires Explained(c, mode)
    ensures Icache.Shaped(c, mode) && Explained(Icache.Fence(c, mode, address, asid), mode) &&
        Explained(Icache.Clear(c, mode), mode)
  {
    hide Icache.Sound; hide Icache.Fence; hide Icache.Clear; hide Icache.Shaped;
    var s :| Icache.Sound(c, mode, s);
    SoundShaped(c, mode, s);
    Icache.FenceSound(c, mode, s, address, asid);
    Icache.ClearSound(c, mode, s);
  }

  lemma EmptyExplained<T(!new)>(mode: Mode)
    ensures Explained(Icache.Empty<T>(mode), mode)
  {
    hide Icache.Sound; hide Icache.Empty;
    Icache.RunSound<T>(mode, []);
    assert Icache.Run<T>(mode, []) == Icache.Empty<T>(mode);
  }

  /** A clear leaves nothing to be found. */
  lemma ClearEnds<T(!new)>(c: Icache.Cache<T>, mode: Mode, k: Icache.Key)
    requires Explained(c, mode)
    ensures Icache.Shaped(c, mode) && Icache.Lookup(Icache.Clear(c, mode), mode, k).None?
  {
    hide Icache.Sound; hide Icache.Clear; hide Icache.Shaped; hide Icache.Lookup;
    var s :| Icache.Sound(c, mode, s);
    SoundShaped(c, mode, s);
    Icache.ClearSound(c, mode, s);
    if Icache.Lookup(Icache.Clear(c, mode), mode,
        k).Some? { Icache.HitIsContents(Icache.Clear(c, mode), mode, map[], k); }
  }

  /* ---- Rv32 ---- */

  lemma Operands32(h: Hart, d: Core32.Instruction)
    requires |h.x| == 32
    ensures Core32.FenceAddress(h, d) == Named(h.x, d.rs1, 0) && Core32.FenceAsid(h, d) == Named(h.x, d.rs2, 0x200)
  {}

  lemma FetchExplained32(isa: Core32.Isa, b: Core32.Bus, h: Hart, c: Core32.Caches)
    requires Core32.CachesShaped(c) && Explained(c.lines, Sv32)
    ensures var c' := Core32.FetchDecode(isa, b, h, Some(c)).2; c'.Some? && Explained(c'.value.lines, Sv32)
  {
    hide Explained; hide Core32.FetchHalf; hide Core32.DecodeThrough; hide Icache.Shaped; hide Tlb.Shaped;
    hide Icache.Lookup;
    hide Icache.Insert; hide Core32.KeyOf;
    forall k: Core32.Caches, raw: nat, length: nat | Core32.CachesShaped(k)
      ensures Core32.DecodeThrough(isa, Some(k), raw, length).1.Some? &&
        Core32.DecodeThrough(isa, Some(k), raw, length).1.value.lines == k.lines { DecodeLines32(isa, k, raw, length); }
    forall k: Icache.Cache<Core32.Item>, item: Core32.Item | Explained(k, Sv32)
        ensures Icache.Shaped(k, Sv32) && Explained(Icache.Insert(k, Sv32, Core32.KeyOf(h), item), Sv32) {
      InsertExplained(k, Sv32, Core32.KeyOf(h), item);
    }
  }

  lemma DecodeLines32(isa: Core32.Isa, c: Core32.Caches, raw: nat, length: nat)
    requires Core32.CachesShaped(c)
    ensures var c' := Core32.DecodeThrough(isa, Some(c), raw, length).1; c'.Some? && c'.value.lines == c.lines
  {
    hide Core32.DecodeSlot;
  }

  /** A retired SFENCE.VMA of RV32, with its operands read from the registers before it, out of the caches that
      its own fetch left: exactly the leaves it does not cover survive, and no instruction it covers is found. */
  lemma SfenceVma32(isa: Core32.Isa, h: Hart, b: Core32.Bus, c: Core32.Caches, input: Core32.Input)
    requires |h.x| == 32 && Core32.CachesShaped(c) && Explained(c.lines, Sv32) && Core32.Begin(h, input.lines).Runs?
    requires var (f, _, _) := Core32.FetchDecode(isa, b, Core32.Begin(h, input.lines).h, Some(c));
             f.Got? && f.item.decoded.kind == Core32.SfenceVma
    requires Core32.Step(isa, h, b, Some(c), input).0.commit.Some?
    ensures var (f, _, c1) := Core32.FetchDecode(isa, b, Core32.Begin(h, input.lines).h, Some(c));
            var c' := Core32.Step(isa, h, b, Some(c), input).3;
            c1.Some? && c'.Some? &&
            LeavesEnded(c1.value.tlb, c'.value.tlb, Sv32, h.x, f.item.decoded.rs1, f.item.decoded.rs2, 0x200) &&
            CodeEnded(c1.value.lines, c'.value.lines, Sv32, h.x, f.item.decoded.rs1, f.item.decoded.rs2, 0x200)
  {
    hide Core32.FetchDecode; hide Core32.RunUnit; hide Core32.Conclude; hide Explained; hide Tlb.Fence;
    hide Icache.Fence;
    hide Core32.FenceAddress; hide Core32.FenceAsid; hide SelectFrom; hide LeavesEnded; hide CodeEnded;
    var h1 := Core32.Begin(h, input.lines).h;
    var (f, b1, c1) := Core32.FetchDecode(isa, b, h1, Some(c));
    var d := f.item.decoded;
    FetchExplained32(isa, b, h1, c);
    PrivilegedQuiet32(isa, b1, Core32.MmuOf(c1), h1, input.time, d);
    Operands32(h1, d);
    FenceLeaves(c1.value.tlb, Sv32, h.x, d.rs1, d.rs2, 0x200);
    FenceCode(c1.value.lines, Sv32, h.x, d.rs1, d.rs2, 0x200);
    assert Named(h1.x, d.rs1, 0) == Named(h.x, d.rs1, 0) && Named(h1.x, d.rs2, 0x200) == Named(h.x, d.rs2, 0x200);
  }

  lemma PrivilegedQuiet32(isa: Core32.Isa, b: Core32.Bus, mmu: Core32.Mmu, h: Hart, time: nat, d: Core32.Instruction)
    requires Core32.MmuReady(mmu) && (d.kind == Core32.SfenceVma || d.kind == Core32.FenceI)
    ensures Core32.RunUnit(isa, b, mmu, h, time, d).1 == b && Core32.RunUnit(isa, b, mmu, h, time, d).2 == mmu
  {
    hide Core32.RunPrivileged; hide Core32.RunInteger; hide Core32.RunControlFlow; hide Core32.RunAtomic;
    hide Core32.RunCsr; hide Core32.RunMemory; hide Core32.Reg;
  }

  /** A retired FENCE.I of RV32 leaves the TLB alone and no instruction to be found. */
  lemma FenceI32(isa: Core32.Isa, h: Hart, b: Core32.Bus, c: Core32.Caches, input: Core32.Input, k: Icache.Key)
    requires Core32.CachesShaped(c) && Explained(c.lines, Sv32) && Core32.Begin(h, input.lines).Runs?
    requires var (f, _, _) := Core32.FetchDecode(isa, b, Core32.Begin(h, input.lines).h, Some(c));
             f.Got? && f.item.decoded.kind == Core32.FenceI
    requires Core32.Step(isa, h, b, Some(c), input).0.commit.Some?
    ensures var (_, _, c1) := Core32.FetchDecode(isa, b, Core32.Begin(h, input.lines).h, Some(c));
            var c' := Core32.Step(isa, h, b, Some(c), input).3;
            c1.Some? && c'.Some? && c'.value.tlb == c1.value.tlb && Icache.Lookup(c'.value.lines, Sv32, k).None? &&
            forall l :: l in c'.value.decodes ==> !l.valid
  {
    hide Core32.FetchDecode; hide Core32.RunUnit; hide Core32.Conclude; hide Explained; hide Tlb.Fence;
    hide Icache.Fence;
    hide Icache.Clear; hide SelectFrom; hide Icache.Lookup;
    var h1 := Core32.Begin(h, input.lines).h;
    var (f, b1, c1) := Core32.FetchDecode(isa, b, h1, Some(c));
    FetchExplained32(isa, b, h1, c);
    PrivilegedQuiet32(isa, b1, Core32.MmuOf(c1), h1, input.time, f.item.decoded);
    ClearEnds(c1.value.lines, Sv32, k);
  }

  /** Every step keeps the instruction cache explained, so the two laws above hold along every run. */
  lemma StepExplained32(isa: Core32.Isa, h: Hart, b: Core32.Bus, c: Core32.Caches, input: Core32.Input)
    requires Core32.CachesShaped(c) && Explained(c.lines, Sv32)
    ensures var c' := Core32.Step(isa, h, b, Some(c), input).3; c'.Some? && Explained(c'.value.lines, Sv32)
  {
    hide Core32.FetchDecode; hide Core32.RunUnit; hide Core32.Conclude; hide Explained; hide Tlb.Fence;
    hide Icache.Fence;
    hide Icache.Clear; hide Core32.FenceAddress; hide Core32.FenceAsid; hide Core32.Trapped;
    var begun := Core32.Begin(h, input.lines);
    if begun.Runs? {
      FetchExplained32(isa, b, begun.h, c);
      var (f, _, c1) := Core32.FetchDecode(isa, b, begun.h, Some(c));
      if f.Got? {
        var d := f.item.decoded;
        FenceExplained(c1.value.lines, Sv32, Core32.FenceAddress(begun.h, d), Core32.FenceAsid(begun.h, d));
      }
    }
  }

  /** The record of what may be cached loses exactly the same, at an SFENCE.VMA and at a FENCE.I. */
  lemma RecordEnded32(live: Live.Live, h: Hart, d: Core32.Instruction)
    requires |h.x| == 32
    ensures d.kind == Core32.SfenceVma ==>
            (forall e :: e in Live.AfterFence(live, h, d).leaves
                         <==> e in live.leaves && !LeafCovered(e, Sv32, h.x, d.rs1, d.rs2, 0x200)) &&
            (forall k :: k in Live.AfterFence(live, h, d).code
                         <==> k in live.code && !CodeCovered(k, h.x, d.rs1, d.rs2, 0x200))
    ensures d.kind == Core32.FenceI ==> Live.AfterFence(live, h, d) == live.(code := map[])
    ensures forall k :: k in Live.AfterFence(live, h, d).code ==>
        k in live.code && Live.AfterFence(live, h, d).code[k] == live.code[k]
  {
    hide Page; hide Virtual;
    Operands32(h, d);
  }

  /** Whatever an instruction was fetched from lies in the 4 KiB page that its key names: the fence of that page
      is enough for it. */
  ghost predicate OnePage32(live: Live.Live) {
    forall k :: k in live.code ==>
      live.code[k].first.va == k.va &&
      (live.code[k].second.Some? ==> live.code[k].second.value.va / 0x1000 == k.va % 0x1_0000_0000 / 0x1000)
  }

  /** Every step keeps that. */
  lemma StepOnePage32(isa: Core32.Isa, live: Live.Live, h: Hart, b: Core32.Bus, input: Core32.Input)
    requires OnePage32(live)
    ensures OnePage32(Live.AfterStep(isa, live, h, b, input))
  {
    hide OnePage32; hide Core32.FetchDecode; hide Core32.Step; hide Live.AfterFetch; hide Live.AfterData;
    hide Live.AfterFence;
    hide Core32.Begin;
    var begun := Core32.Begin(h, input.lines);
    if begun.Runs? {
      var (f, b1, _) := Core32.FetchDecode(isa, b, begun.h, None);
      var live1 := Live.AfterFetch(isa, live, b, begun.h);
      FetchOnePage32(isa, live, b, begun.h);
      if f.Got? {
        LaterOnePage32(live1, b1, begun.h, f.item.decoded);
      }
    }
  }

  lemma LaterOnePage32(live: Live.Live, b: Core32.Bus, h: Hart, d: Core32.Instruction)
    requires OnePage32(live)
    ensures var data := Live.AfterData(live, b, h, d);
            OnePage32(data) && OnePage32(Live.AfterFence(data, h, d))
  {
    hide Core32.FenceAddress; hide Core32.FenceAsid; hide Icache.Fenced; hide ContextOf; hide Live.DataAccess;
    hide TlbProofs.LiveAfter; hide TlbProofs.LiveFenced;
  }

  lemma KeptOnePage32(live: Live.Live, h: Hart, f: Core32.Fetched, first: Live.Place, second: Option<Live.Place>)
    requires OnePage32(live) && first.va == h.pc
    requires second.Some? && !Core32.AtPageEnd(h.pc) ==> second.value.va / 0x1000 == h.pc % 0x1_0000_0000 / 0x1000
    ensures OnePage32(Live.Kept(live, h, f, first, second))
  {
    hide Core32.AtPageEnd;
  }

  lemma LeavesOnePage32(live: Live.Live, h: Hart, m: Ram, va: nat, access: Access)
    ensures Live.Leaves(live, h, m, va, access).code == live.code
    ensures OnePage32(live) ==> OnePage32(Live.Leaves(live, h, m, va, access))
    ensures Live.PlaceOf(h, m, va).va == va
  {
    hide TlbProofs.LiveAfter; hide ContextOf; hide Lookup; hide Tlb.Filled; hide Virtual; hide Map;
  }

  lemma FetchOnePage32(isa: Core32.Isa, live: Live.Live, b: Core32.Bus, h: Hart)
    requires OnePage32(live)
    ensures OnePage32(Live.AfterFetch(isa, live, b, h))
  {
    hide Core32.FetchHalf; hide Core32.FetchMiss; hide Live.Leaves; hide Live.PlaceOf; hide Live.Kept; hide OnePage32;
    hide Wrap;
    NextHalf32(h.pc);
    var live1 := Live.Leaves(live, h, b.ram, h.pc, Fetch);
    var (half, b1, _) := Core32.FetchHalf(b, Core32.Direct, h, h.pc);
    var f, next, p := Core32.FetchMiss(isa, b, h, None).0, Wrap(Rv32, h.pc + 2), Live.PlaceOf(h, b.ram, h.pc);
    LeavesOnePage32(live, h, b.ram, h.pc, Fetch);
    LeavesOnePage32(live1, h, b1.ram, next, Fetch);
    if h.pc % 2 == 0 {
      KeptOnePage32(live1, h, f, p, None);
      KeptOnePage32(Live.Leaves(live1, h, b1.ram, next, Fetch), h, f, p, Some(Live.PlaceOf(h, b1.ram, next)));
    }
  }

  lemma NextHalf32(pc: nat)
    ensures pc % 2 == 0 && pc % 0x1000 != 0xFFE ==> Wrap(Rv32, pc + 2) / 0x1000 == pc % 0x1_0000_0000 / 0x1000
  {
    var q, r := pc / 0x1_0000_0000, pc % 0x1_0000_0000;
    Bits.ModIs(pc, 0x1000, 0x10_0000 * q + r / 0x1000, r % 0x1000);
    if pc % 2 == 0 && pc % 0x1000 != 0xFFE { Bits.ModIs(pc + 2, 0x1_0000_0000, q, r + 2); }
  }

  /* ---- Rv64 ---- */

  lemma Operands64(h: Hart, d: Fast64.Instruction)
    requires |h.x| == 32
    ensures Fast64.FenceAddress(h, d) == Named(h.x, d.rs1, 0) && Fast64.FenceAsid(h, d) == Named(h.x, d.rs2, 0x1_0000)
  {}

  lemma FetchExplained64(isa: Fast64.Isa, b: Fast64.Bus, h: Hart, c: Fast64.Caches)
    requires Fast64.CachesShaped(c) && Explained(c.lines, Sv39)
    ensures var c' := Fast64.FetchDecode(isa, b, h, Some(c)).2; c'.Some? && Explained(c'.value.lines, Sv39)
  {
    hide Explained; hide Fast64.FetchHalf; hide Fast64.DecodeThrough; hide Icache.Shaped; hide Tlb.Shaped;
    hide Icache.Lookup;
    hide Icache.Insert; hide Fast64.KeyOf;
    forall k: Fast64.Caches, raw: nat, length: nat | Fast64.CachesShaped(k)
      ensures Fast64.DecodeThrough(isa, Some(k), raw, length).1.Some? &&
        Fast64.DecodeThrough(isa, Some(k), raw, length).1.value.lines == k.lines { DecodeLines64(isa, k, raw, length); }
    forall k: Icache.Cache<Fast64.Item>, item: Fast64.Item | Explained(k, Sv39)
        ensures Icache.Shaped(k, Sv39) && Explained(Icache.Insert(k, Sv39, Fast64.KeyOf(h), item), Sv39) {
      InsertExplained(k, Sv39, Fast64.KeyOf(h), item);
    }
  }

  lemma DecodeLines64(isa: Fast64.Isa, c: Fast64.Caches, raw: nat, length: nat)
    requires Fast64.CachesShaped(c)
    ensures var c' := Fast64.DecodeThrough(isa, Some(c), raw, length).1; c'.Some? && c'.value.lines == c.lines
  {
    hide Fast64.DecodeSlot;
  }

  /** The step executes this fence: what the fetch left of the caches, with the TLB after the data access. */
  ghost predicate Executes64(isa: Fast64.Isa, h: Hart, b: Fast64.Bus, c: Fast64.Caches, input: Fast64.Input,
      item: Fast64.Item, c1: Fast64.Caches)
    requires Fast64.CachesShaped(c)
  {
    var begun := Core64.Begin(h, input.lines);
    begun.Runs? &&
    var (f, b1, k) := Fast64.FetchDecode(isa, b, begun.h, Some(c));
    f == Fast64.Got(item) && item.decoded.valid &&
    var (_, _, mmu) := Fast64.Ask(isa, b1, Fast64.MmuOf(k), begun.h, item);
    mmu.Cached? && c1 == k.value.(tlb := mmu.t)
  }

  lemma ExecutesShaped64(isa: Fast64.Isa, h: Hart, b: Fast64.Bus, c: Fast64.Caches, input: Fast64.Input,
      item: Fast64.Item, c1: Fast64.Caches)
    requires Fast64.CachesShaped(c) && Explained(c.lines, Sv39) && Executes64(isa, h, b, c, input, item, c1)
    ensures Fast64.CachesShaped(c1) && Explained(c1.lines, Sv39)
  {
    hide Fast64.FetchDecode; hide Fast64.Ask; hide Explained; hide Core64.Begin;
    FetchExplained64(isa, b, Core64.Begin(h, input.lines).h, c);
  }

  /** SFENCE.VMA of RV64, when its privilege permits it, and nothing when it does not: exactly the leaves that its
      registers do not cover survive, and no instruction they cover is found. */
  lemma SfenceVma64(isa: Fast64.Isa, h: Hart, b: Fast64.Bus, c: Fast64.Caches, input: Fast64.Input, item: Fast64.Item,
      c1: Fast64.Caches)
    requires Fast64.Fits(h) && Fast64.CachesShaped(c) && Explained(c.lines, Sv39)
    requires Executes64(isa, h, b, c, input, item, c1) && item.decoded.fence == Fast64.SfenceVma
    ensures var c', d := Fast64.Step(isa, h, b, Some(c), input).3, item.decoded;
            c'.Some? &&
            if h.privilege == Machine || (h.privilege == Supervisor && !h.status.tvm) then
              LeavesEnded(c1.tlb, c'.value.tlb, Sv39, h.x, d.rs1, d.rs2, 0x1_0000) &&
              CodeEnded(c1.lines, c'.value.lines, Sv39, h.x, d.rs1, d.rs2, 0x1_0000)
            else c' == Some(c1)
  {
    hide Fast64.FetchDecode; hide Fast64.Ask; hide Fast64.Conclude; hide Explained; hide Tlb.Fence; hide Icache.Fence;
    hide Fast64.FenceAddress; hide Fast64.FenceAsid; hide SelectFrom; hide LeavesEnded; hide CodeEnded;
    ExecutesShaped64(isa, h, b, c, input, item, c1);
    var h1, d := Core64.Begin(h, input.lines).h, item.decoded;
    Operands64(h1, d);
    FenceLeaves(c1.tlb, Sv39, h.x, d.rs1, d.rs2, 0x1_0000);
    FenceCode(c1.lines, Sv39, h.x, d.rs1, d.rs2, 0x1_0000);
    assert Named(h1.x, d.rs1, 0) == Named(h.x, d.rs1, 0) && Named(h1.x, d.rs2, 0x1_0000) == Named(h.x, d.rs2, 0x1_0000);
  }

  /** FENCE.I of RV64 leaves the TLB alone and no instruction to be found. */
  lemma FenceI64(isa: Fast64.Isa, h: Hart, b: Fast64.Bus, c: Fast64.Caches, input: Fast64.Input, item: Fast64.Item,
      c1: Fast64.Caches, k: Icache.Key)
    requires Fast64.Fits(h) && Fast64.CachesShaped(c) && Explained(c.lines, Sv39)
    requires Executes64(isa, h, b, c, input, item, c1) && item.decoded.fence == Fast64.FenceI
    ensures var c' := Fast64.Step(isa, h, b, Some(c), input).3;
            c'.Some? && c'.value.tlb == c1.tlb && Icache.Lookup(c'.value.lines, Sv39, k).None? &&
            forall l :: l in c'.value.decodes ==> !l.valid
  {
    hide Fast64.FetchDecode; hide Fast64.Ask; hide Fast64.Conclude; hide Explained; hide Tlb.Fence; hide Icache.Fence;
    hide Icache.Clear; hide SelectFrom; hide Icache.Lookup;
    ExecutesShaped64(isa, h, b, c, input, item, c1);
    ClearEnds(c1.lines, Sv39, k);
  }

  /** Every step keeps the instruction cache explained. */
  lemma StepExplained64(isa: Fast64.Isa, h: Hart, b: Fast64.Bus, c: Fast64.Caches, input: Fast64.Input)
    requires Fast64.Fits(h) && Fast64.CachesShaped(c) && Explained(c.lines, Sv39)
    ensures var c' := Fast64.Step(isa, h, b, Some(c), input).3; c'.Some? && Explained(c'.value.lines, Sv39)
  {
    hide Fast64.FetchDecode; hide Fast64.Ask; hide Fast64.Conclude; hide Explained; hide Tlb.Fence; hide Icache.Fence;
    hide Icache.Clear; hide Fast64.FenceAddress; hide Fast64.FenceAsid; hide SelectFrom; hide TakeTrap;
    hide TakeInterrupt;
    var begun := Core64.Begin(h, input.lines);
    if begun.Runs? {
      FetchExplained64(isa, b, begun.h, c);
      var (f, _, c1) := Fast64.FetchDecode(isa, b, begun.h, Some(c));
      if f.Got? {
        var d := f.item.decoded;
        FenceExplained(c1.value.lines, Sv39, Fast64.FenceAddress(begun.h, d), Fast64.FenceAsid(begun.h, d));
      }
    }
  }

  /** The record of what may be cached loses exactly the same. */
  lemma RecordEnded64(live: Live64.Live, h: Hart, d: Fast64.Instruction)
    requires |h.x| == 32
    ensures d.fence == Fast64.SfenceVma && (h.privilege == Machine || (h.privilege == Supervisor && !h.status.tvm)) ==>
            (forall e :: e in Live64.AfterFence(live, h, d).leaves
                         <==> e in live.leaves && !LeafCovered(e, Sv39, h.x, d.rs1, d.rs2, 0x1_0000)) &&
            (forall k :: k in Live64.AfterFence(live, h, d).code
                         <==> k in live.code && !CodeCovered(k, h.x, d.rs1, d.rs2, 0x1_0000))
    ensures d.fence == Fast64.FenceI ==> Live64.AfterFence(live, h, d) == live.(code := map[])
    ensures forall k :: k in Live64.AfterFence(live, h, d).code ==>
        k in live.code && Live64.AfterFence(live, h, d).code[k] == live.code[k]
  {
    hide Page; hide Virtual;
    Operands64(h, d);
  }

  /** Whatever an instruction was fetched from lies in the 4 KiB page that its key names: the fence of that page
      is enough for it. */
  ghost predicate OnePage64(live: Live64.Live) {
    forall k :: k in live.code ==>
      live.code[k].first.va == k.va &&
      (live.code[k].second.Some? ==> live.code[k].second.value.va / 0x1000 == k.va % 0x1_0000_0000_0000_0000 / 0x1000)
  }

  /** Every step keeps that. */
  lemma StepOnePage64(isa: Fast64.Isa, live: Live64.Live, h: Hart, b: Fast64.Bus, input: Fast64.Input)
    requires OnePage64(live) && Fast64.Fits(h)
    ensures OnePage64(Live64.AfterStep(isa, live, h, b, input))
  {
    hide OnePage64; hide Fast64.FetchDecode; hide Fast64.Step; hide Live64.AfterFetch; hide Live64.AfterData;
    hide Live64.AfterFence;
    hide Core64.Begin;
    var begun := Core64.Begin(h, input.lines);
    if begun.Runs? {
      var (f, b1, _) := Fast64.FetchDecode(isa, b, begun.h, None);
      var live1 := Live64.AfterFetch(isa, live, b, begun.h);
      FetchOnePage64(isa, live, b, begun.h);
      if f.Got? {
        LaterOnePage64(isa, live1, b1, begun.h, f.item);
      }
    }
  }

  lemma LaterOnePage64(isa: Fast64.Isa, live: Live64.Live, b: Fast64.Bus, h: Hart, item: Fast64.Item)
    requires OnePage64(live)
    ensures var data := Live64.AfterData(isa, live, b, h, item);
            OnePage64(data) && OnePage64(Live64.AfterFence(data, h, item.decoded))
  {
    hide Fast64.FenceAddress; hide Fast64.FenceAsid; hide Icache.Fenced; hide ContextOf;
    hide TlbProofs.LiveAfter; hide TlbProofs.LiveFenced;
  }

  lemma KeptOnePage64(isa: Fast64.Isa, live: Live64.Live, h: Hart, item: Fast64.Item, first: Live64.Place,
      second: Option<Live64.Place>)
    requires OnePage64(live) && first.va == h.pc
    requires second.Some? && !Fast64.AtPageEnd(h.pc) ==>
        second.value.va / 0x1000 == h.pc % 0x1_0000_0000_0000_0000 / 0x1000
    ensures OnePage64(Live64.Kept(isa, live, h, item, first, second))
  {
    hide Fast64.AtPageEnd;
  }

  lemma LeavesOnePage64(live: Live64.Live, h: Hart, m: Ram, va: nat, access: Access)
    ensures OnePage64(live) ==> OnePage64(Live64.Leaves(live, h, m, va, access))
    ensures Live64.PlaceOf(h, m, va).va == va
  {
    hide TlbProofs.LiveAfter; hide ContextOf; hide Lookup; hide Tlb.Filled; hide Virtual; hide Map;
  }

  lemma FetchOnePage64(isa: Fast64.Isa, live: Live64.Live, b: Fast64.Bus, h: Hart)
    requires OnePage64(live)
    ensures OnePage64(Live64.AfterFetch(isa, live, b, h))
  {
    hide Fast64.FetchHalf; hide Live64.Leaves; hide Live64.PlaceOf; hide Live64.Kept; hide OnePage64; hide Wrap;
    NextHalf64(h.pc);
    var live1 := Live64.Leaves(live, h, b.ram, h.pc, Fetch);
    var (half, b1, _) := Fast64.FetchHalf(isa, b, Fast64.Direct, h, h.pc);
    var next, p := Wrap(Rv64, h.pc + 2), Live64.PlaceOf(h, b.ram, h.pc);
    LeavesOnePage64(live, h, b.ram, h.pc, Fetch);
    LeavesOnePage64(live1, h, b1.ram, next, Fetch);
    if h.pc % 2 == 0 {
      forall item ensures OnePage64(Live64.Kept(isa, live1, h, item, p, None)) {
        KeptOnePage64(isa, live1, h, item, p, None);
      }
      var live2, q := Live64.Leaves(live1, h, b1.ram, next, Fetch), Live64.PlaceOf(h, b1.ram, next);
      forall item ensures OnePage64(Live64.Kept(isa, live2, h, item, p, Some(q))) {
        KeptOnePage64(isa, live2, h, item, p, Some(q));
      }
    }
  }

  lemma NextHalf64(pc: nat)
    ensures pc % 2 == 0 && pc % 0x1000 != 0xFFE ==> Wrap(Rv64, pc + 2) / 0x1000 == pc % 0x1_0000_0000_0000_0000 / 0x1000
  {
    var q, r := pc / 0x1_0000_0000_0000_0000, pc % 0x1_0000_0000_0000_0000;
    Bits.ModIs(pc, 0x1000, 0x10_0000_0000_0000 * q + r / 0x1000, r % 0x1000);
    if pc % 2 == 0 && pc % 0x1000 != 0xFFE { Bits.ModIs(pc + 2, 0x1_0000_0000_0000_0000, q, r + 2); }
  }

}
