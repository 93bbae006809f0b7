/** While the record agrees with memory a step is allowed, and a full fence empties the record. */
module LiveProofs {
  import opened Wrappers
  import opened Address
  import opened Paging
  import opened Hart
  import opened Core32
  import opened Live
  import Tlb
  import TlbProofs
  import Icache

  ghost predicate LeavesCoherent(leaves: set<Tlb.Entry>, m: Ram, spaces: set<TlbProofs.Space>) {
    TlbProofs.GlobalsShared(m, Sv32, spaces) && forall e :: e in leaves ==> TlbProofs.EntryCoherent(e, m, Sv32, spaces)
  }

  predicate InUse(s: Satp, spaces: set<TlbProofs.Space>) { s.paged ==> TlbProofs.Space(s.asid, s.root) in spaces }

  lemma CoherentMayTranslate(leaves: set<Tlb.Entry>, m: Ram, ctx: Context, va: nat, access: Access,
      spaces: set<TlbProofs.Space>)
    requires LeavesCoherent(leaves, m, spaces) && InUse(ctx.satp, spaces) && ctx.mode == Sv32
    ensures TlbProofs.MayTranslate(leaves, m, ctx, va, access)
  {
    hide FindLeaf; hide Virtual; hide Tlb.Fresh; hide TlbProofs.GlobalsShared; hide Tlb.Tagged;
    hide TlbProofs.EntryCoherent;
    var v := Virtual(Sv32, va);
    if !Bare(ctx) {
      forall e | e in leaves && Tlb.Tagged(e, ctx, e.level, v) ensures Tlb.Fresh(e, m, Sv32, ctx.satp.root, v) {
        TlbProofs.TaggedIsFresh(e, m, ctx, v, spaces);
      }
    }
  }

  /** A translation keeps the record coherent, the leaf it adds included. */
  lemma TranslateKeeps(leaves: set<Tlb.Entry>, m: Ram, ctx: Context, va: nat, access: Access,
      spaces: set<TlbProofs.Space>)
    requires LeavesCoherent(leaves, m, spaces) && InUse(ctx.satp, spaces) && ctx.mode == Sv32
    ensures LeavesCoherent(TlbProofs.LiveAfter(leaves, m, ctx, va, access), Translate(m, ctx, va, access).1, spaces)
  {
    hide FindLeaf; hide Virtual; hide Tlb.Fresh; hide TlbProofs.GlobalsShared; hide Fields; hide Touched;
    hide Tlb.Filled; hide Page;
    var v := Virtual(Sv32, va);
    if !Bare(ctx) && Walk(m, ctx, v, access).0.Ready? {
      var f := Lookup(m, Sv32, ctx.satp.root, v);
      TlbProofs.WalkLeaf(m, ctx, v);
      TlbProofs.TouchKeepsShared(m, Sv32, f.at, access, spaces);
      forall e | e in leaves ensures TlbProofs.EntryCoherent(e, Touch(m, f.at, access), Sv32, spaces) {
        TlbProofs.TouchKeepsEntry(e, m, Sv32, f.at, access, spaces);
      }
      FilledCoherent(m, ctx, v, access, spaces);
    }
  }

  lemma FilledCoherent(m: Ram, ctx: Context, v: Vaddr, access: Access, spaces: set<TlbProofs.Space>)
    requires Walk(m, ctx, v, access).0.Ready? && TlbProofs.Space(ctx.satp.asid, ctx.satp.root) in spaces &&
        ctx.mode == Sv32
    ensures TlbProofs.EntryCoherent(Tlb.Filled(ctx, v, Lookup(m, Sv32, ctx.satp.root, v), access),
                                    Walk(m, ctx, v, access).1, Sv32, spaces)
  {
    hide FindLeaf; hide Fields;
    var f := Lookup(m, Sv32, ctx.satp.root, v);
    var e := Tlb.Filled(ctx, v, f, access);
    Tlb.FilledIsFresh(m, ctx, v, access);
    TlbProofs.PageOfPage(f.level, v);
    SamePageLookup(Walk(m, ctx, v, access).1, Sv32, ctx.satp.root, v, e.page);
  }

  lemma HalfKeeps(live: Live, b: Bus, h: Hart, va: nat, spaces: set<TlbProofs.Space>)
    requires LeavesCoherent(live.leaves, b.ram, spaces) && InUse(h.satp, spaces)
    ensures MayUse(live, h, b.ram, va, Fetch)
    ensures LeavesCoherent(Leaves(live, h, b.ram, va, Fetch).leaves, FetchHalf(b, Direct, h, va).1.ram, spaces)
  {
    hide LeavesCoherent; hide TlbProofs.MayTranslate; hide TlbProofs.LiveAfter; hide Translate; hide BusRead;
    CoherentMayTranslate(live.leaves, b.ram, ContextOf(Rv32, h, Fetch), va, Fetch, spaces);
    TranslateKeeps(live.leaves, b.ram, ContextOf(Rv32, h, Fetch), va, Fetch, spaces);
  }

  lemma FetchKeeps(isa: Isa, live: Live, b: Bus, h: Hart, spaces: set<TlbProofs.Space>)
    requires LeavesCoherent(live.leaves, b.ram, spaces) && InUse(h.satp, spaces)
    requires KeyOf(h) in live.code ==> CodeFresh(live.code[KeyOf(h)], KeyOf(h), b)
    ensures MayFetch(live, b, h)
    ensures LeavesCoherent(AfterFetch(isa, live, b, h).leaves, FetchDecode(isa, b, h, None).1.ram, spaces)
  {
    hide LeavesCoherent; hide FetchHalf; hide MayUse; hide CodeFresh; hide Finish; hide Leaves; hide PlaceOf;
    if h.pc % 2 == 0 {
      HalfKeeps(live, b, h, h.pc, spaces);
      var (_, b1, _) := FetchHalf(b, Direct, h, h.pc);
      HalfKeeps(Leaves(live, h, b.ram, h.pc, Fetch), b1, h, Wrap(Rv32, h.pc + 2), spaces);
      SameCode(live, h, b.ram, h.pc);
    }
  }

  lemma SameCode(live: Live, h: Hart, m: Ram, va: nat)
    ensures Leaves(live, h, m, va, Fetch).code == live.code
  {}

  /** While every recorded leaf agrees with the tables, and the instruction about to run with
      memory, the next step is allowed whatever it does. */
  lemma CoherentMayStep(isa: Isa, live: Live, h: Hart, b: Bus, input: Input, spaces: set<TlbProofs.Space>)
    requires LeavesCoherent(live.leaves, b.ram, spaces) && InUse(h.satp, spaces)
    requires forall k :: k in live.code ==> CodeFresh(live.code[k], k, b)
    ensures MayStep(isa, live, h, b, input)
  {
    hide LeavesCoherent; hide FetchDecode; hide AfterFetch; hide MayFetch; hide CodeFresh;
    hide TlbProofs.MayTranslate; hide SelectFrom;
    var begun := Begin(h, input.lines);
    if begun.Runs? {
      FetchKeeps(isa, live, b, begun.h, spaces);
      var (f, b1, _) := FetchDecode(isa, b, begun.h, None);
      if f.Got? && DataAccess(begun.h, f.item.decoded).Some? {
        var (va, access) := DataAccess(begun.h, f.item.decoded).value;
        CoherentMayTranslate(AfterFetch(isa, live, b, begun.h).leaves, b1.ram, ContextOf(Rv32, begun.h, access), va,
          access, spaces);
      }
    }
  }

  /** With nothing recorded any step is allowed, on any memory. */
  lemma NothingMayStep(isa: Isa, h: Hart, b: Bus, input: Input)
    ensures MayStep(isa, Nothing, h, b, input)
  {
    hide FindLeaf;
    CoherentMayStep(isa, Nothing, h, b, input, {TlbProofs.Space(h.satp.asid, h.satp.root)});
  }

  /** SFENCE.VMA with no operands leaves nothing recorded; FENCE.I leaves no code recorded. */
  lemma FullFenceEmpties(live: Live, h: Hart, d: Instruction)
    requires d.kind == SfenceVma && d.rs1 == 0 && d.rs2 == 0
    ensures AfterFence(live, h, d) == Nothing
  {
    assert AfterFence(live, h, d).code.Keys == {};
  }

  /** A fence of one 4 KiB page of a 4 MiB leaf ends the cached leaf, but it covers only the
      instructions of that 4 KiB page, not those under the leaf's other pages. */
  lemma SuperpageFence(e: Tlb.Entry, key: Icache.Key, address: nat)
    requires e.level == 1 && e.page == Page(1, Virtual(Sv32, key.va)) && e.page == Page(1, Virtual(Sv32, address))
    ensures Tlb.Fenced(e, Sv32, Some(address), None)
    ensures Icache.Fenced(key, Some(address), None) <==> key.va / 0x1000 == address / 0x1000
  {
    SamePageSv32(key.va, address);
  }

  /** So an instruction kept at 0x401000 outlives a fence at 0x400000, in the same superpage. */
  lemma SuperpageFenceLeavesCode(c: Icache.Cache<Item>, contents: Icache.Contents<Item>, satp: Satp,
      privilege: Privilege)
    requires Icache.Sound(c, Sv32, contents)
    ensures Page(1, Virtual(Sv32, 0x40_1000)) == Page(1, Virtual(Sv32, 0x40_0000))
    ensures var key := Icache.Key(0x40_1000, satp, privilege);
            Icache.Lookup(Icache.Fence(c, Sv32, Some(0x40_0000), None), Sv32, key) == Icache.Lookup(c, Sv32, key)
  {
    hide Icache.LineOf; hide Icache.Lookup; hide Icache.Fence; hide Icache.Sound;
    Icache.FenceExact(c, Sv32, contents, Icache.Key(0x40_1000, satp, privilege), Some(0x40_0000), None);
    SlotsDiffer();
  }

  lemma RoundTrip(w: bv64)
    ensures (w as nat) as bv64 == w
  {}

  lemma SmallWord(n: nat)
    requires n < 0x1_0000_0000_0000_0000
    ensures Icache.Word(n) == n as bv64
  {}

  lemma WordIs(w: bv64, n: nat)
    requires n == w as nat && n < 0x1_0000_0000_0000_0000
    ensures Icache.Word(n) == w
  {
    hide Icache.Word;
    SmallWord(n);
    RoundTrip(w);
  }

  /** The slot of a page number in Sv32. */
  function SlotOf(n: bv64): nat { ((n ^ (n >> 12)) % 1024) as nat }

  lemma SlotIs(page: nat)
    ensures Icache.PageSlot(Sv32, page) == SlotOf(Icache.Word(page))
  {
    hide Icache.Word;
  }

  lemma TwoSlots()
    ensures SlotOf(0x400) == 0 && SlotOf(0x401) == 1
  {}

  lemma SlotsDiffer()
    ensures Icache.PageSlot(Sv32, 0x401) != Icache.PageSlot(Sv32, 0x400)
  {
    hide Icache.Word; hide Icache.PageSlot; hide SlotOf;
    WordIs(0x400, 0x400);
    WordIs(0x401, 0x401);
    SlotIs(0x400);
    SlotIs(0x401);
    TwoSlots();
  }
}
