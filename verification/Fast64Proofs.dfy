/** RV64's Fast mode is its Reference mode, for every run that fences its edits before using them. */
module Fast64Proofs {
  import opened Wrappers
  import opened Address
  import opened Paging
  import opened Hart
  import opened Fast64
  import opened Live64
  import Core64
  import CoreProofs
  import Tlb
  import TlbProofs
  import Icache

  /* ---- the record is well formed ---- */

  ghost predicate PlaceInv(isa: Isa, p: Place, key: Icache.Key) {
    isa.cacheable(p.at) &&
    var ctx, v := Context(Sv39, key.satp, key.privilege, false, false), Virtual(Sv39, p.va);
    if Bare(ctx) then p.leaf.None? && p.at == Physical(Sv39, p.va)
    else
      p.leaf.Some? && Canonical(Sv39, v) &&
      var e := p.leaf.value; Tlb.Usable(e, ctx, e.level, v, Fetch) && p.at == Map(e.level, e.base.frame, v)
  }

  /** The instruction is valid, what its halfwords decode to, and all of it is cacheable. */
  ghost predicate CodeInv(isa: Isa, c: Code, key: Icache.Key) {
    var raw := c.item.raw;
    key.va % 2 == 0 && c.first.va == key.va && PlaceInv(isa, c.first, key) && c.item.decoded.valid &&
    match c.second
    case None => raw < 0x1_0000 && raw % 4 != 3 && c.item.decoded == isa.decode(raw, 2)
    case Some(p) => raw % 0x1_0000 % 4 == 3 && raw / 0x1_0000 < 0x1_0000 && c.item.decoded == isa.decode(raw, 4) &&
                    p.va == Wrap(Rv64, key.va + 2) && PlaceInv(isa, p, key)
  }

  function Items(code: map<Icache.Key, Code>): map<Icache.Key, Item> { map k | k in code :: code[k].item }

  ghost predicate LiveInv(isa: Isa, live: Live) { forall k :: k in live.code ==> CodeInv(isa, live.code[k], k) }

  ghost predicate DecodesHeld(isa: Isa, lines: seq<DecodeLine>) {
    forall i :: 0 <= i < |lines| && lines[i].valid ==> lines[i].decoded == isa.decode(lines[i].raw, lines[i].length)
  }

  /** The caches hold nothing but what may still be cached. */
  ghost predicate Held(isa: Isa, c: Caches, live: Live) {
    CachesShaped(c) && TlbProofs.Covered(c.tlb, live.leaves) && Icache.Sound(c.lines, Sv39, Items(live.code)) &&
    DecodesHeld(isa, c.decodes) && LiveInv(isa, live)
  }

  /* ---- one translation, one halfword ---- */

  lemma TranslateAgrees(b: Bus, t: Tlb.Cache, live: Live, h: Hart, va: nat, access: Access)
    requires TlbProofs.Covered(t, live.leaves) && MayUse(live, h, b.ram, va, access)
    ensures var (r, b', mmu) := MmuTranslate(b, Cached(t), h, va, access);
            mmu.Cached? && (r, b', Direct) == MmuTranslate(b, Direct, h, va, access) &&
            TlbProofs.Covered(mmu.t, Leaves(live, h, b.ram, va, access).leaves)
  {
    hide Tlb.CachedTranslate; hide Translate; hide TlbProofs.LiveAfter; hide TlbProofs.MayTranslate; hide ContextOf;
    hide TlbProofs.Covered;
    TlbProofs.CoveredTranslates(t, live.leaves, b.ram, ContextOf(Rv64, h, access), va, access);
  }

  lemma HalfAgrees(isa: Isa, b: Bus, t: Tlb.Cache, live: Live, h: Hart, va: nat)
    requires TlbProofs.Covered(t, live.leaves) && MayUse(live, h, b.ram, va, Fetch)
    ensures var (half, b1, mmu) := FetchHalf(isa, b, Cached(t), h, va);
            mmu.Cached? && (half, b1, Direct) == FetchHalf(isa, b, Direct, h, va) &&
            TlbProofs.Covered(mmu.t, Leaves(live, h, b.ram, va, Fetch).leaves)
  {
    hide MmuTranslate; hide Leaves; hide MayUse; hide TlbProofs.Covered;
    TranslateAgrees(b, t, live, h, va, Fetch);
  }

  /** While its place is fresh and cacheable a halfword is fetched again without touching the bus. */
  lemma PlaceFetches(isa: Isa, p: Place, key: Icache.Key, b: Bus, h: Hart, half: nat)
    requires Quiet(isa) && PlaceInv(isa, p, key) && PlaceFresh(isa, p, key, b, half) && h.satp == key.satp &&
        h.privilege == key.privilege
    ensures FetchHalf(isa, b, Direct, h, p.va) == (Half(half, p.at), b, Direct)
  {
    hide FindLeaf; hide Virtual; hide Physical; hide Map; hide Tlb.Fresh; hide Page; hide Fields;
    var ctx, v := FetchContext(h), Virtual(Sv39, p.va);
    if !Bare(ctx) { Tlb.HitIsWalk(p.leaf.value, b.ram, ctx, v, Fetch); }
  }

  lemma CodeFetches(isa: Isa, c: Code, b: Bus, h: Hart)
    requires Quiet(isa) && CodeInv(isa, c, KeyOf(h)) && CodeFresh(isa, c, KeyOf(h), b)
    ensures FetchMiss(isa, b, h, None) == (Got(c.item), b, None)
  {
    hide FetchHalf; hide PlaceInv; hide PlaceFresh; hide Quiet;
    PlaceFetches(isa, c.first, KeyOf(h), b, h, c.item.raw % 0x1_0000);
    if c.second.Some? { PlaceFetches(isa, c.second.value, KeyOf(h), b, h, c.item.raw / 0x1_0000); }
  }

  /** A place recorded when a halfword was fetched is where it was read, and well formed if cacheable. */
  lemma PlaceRecorded(isa: Isa, b: Bus, h: Hart, va: nat)
    requires FetchHalf(isa, b, Direct, h, va).0.Half?
    ensures FetchHalf(isa, b, Direct, h, va).0.address == PlaceOf(h, b.ram, va).at
    ensures isa.cacheable(PlaceOf(h, b.ram, va).at) ==> PlaceInv(isa, PlaceOf(h, b.ram, va), KeyOf(h))
  {
    hide FindLeaf; hide Virtual; hide Physical; hide Page; hide Fields; hide Touch;
  }

  /* ---- fetch and decode ---- */

  lemma DecodeHeld(isa: Isa, c: Caches, live: Live, raw: nat, length: nat)
    requires Held(isa, c, live)
    ensures var (d, c') := DecodeThrough(isa, Some(c), raw, length);
            d == isa.decode(raw, length) && c'.Some? && Held(isa, c'.value, live)
  {
    hide DecodeSlot; hide CodeInv; hide Icache.Sound; hide TlbProofs.Covered; hide Tlb.Shaped; hide Icache.Shaped;
  }

  lemma ItemsRecorded(code: map<Icache.Key, Code>, key: Icache.Key, c: Code)
    ensures Items(code[key := c]) == Items(code)[key := c.item]
  {}

  predicate Cacheable(isa: Isa, first: Place, second: Option<Place>) {
    isa.cacheable(first.at) && (second.Some? ==> isa.cacheable(second.value.at))
  }

  /** Keeping an instruction in the cache is recording it. */
  lemma KeepHeld(isa: Isa, c: Caches, live: Live, h: Hart, item: Item, first: Place, second: Option<Place>)
    requires Held(isa, c, live)
    requires Cacheable(isa, first, second) && item.decoded.valid ==> CodeInv(isa, Code(item, first, second), KeyOf(h))
    ensures var c' := Keep(Some(c), h, item, Cacheable(isa, first, second));
            c'.Some? && Held(isa, c'.value, Kept(isa, live, h, item, first, second))
  {
    hide CodeInv; hide DecodesHeld; hide Tlb.Shaped; hide Icache.Sound; hide TlbProofs.Covered; hide AtPageEnd;
    hide KeyOf;
    hide Icache.Insert; hide Items; hide Icache.Shaped;
    Icache.InsertSound(c.lines, Sv39, Items(live.code), KeyOf(h), item);
    ItemsRecorded(live.code, KeyOf(h), Code(item, first, second));
  }

  lemma HeldShaped(isa: Isa, c: Caches, live: Live)
    requires Held(isa, c, live)
    ensures CachesShaped(c) && TlbProofs.Covered(c.tlb, live.leaves)
  {}

  lemma FinishAgrees(isa: Isa, c: Caches, live: Live, h: Hart, raw: nat, length: nat, first: Place,
      second: Option<Place>)
    requires Held(isa, c, live)
    requires Cacheable(isa, first, second) && isa.decode(raw, length).valid ==>
               CodeInv(isa, Code(Item(raw, isa.decode(raw, length)), first, second), KeyOf(h))
    ensures var (f, c') := Finish(isa, Some(c), h, raw, length, Cacheable(isa, first, second));
            c'.Some? && (f, None) == Finish(isa, None, h, raw, length, Cacheable(isa, first, second)) &&
            Held(isa, c'.value, Kept(isa, live, h, Item(raw, isa.decode(raw, length)), first, second))
  {
    hide CodeInv; hide DecodeThrough; hide Keep; hide Held; hide CachesShaped; hide Kept; hide Cacheable;
    HeldShaped(isa, c, live);
    DecodeHeld(isa, c, live, raw, length);
    var d := isa.decode(raw, length);
    DecodeDirect(isa, raw, length);
    KeepDirect(h, Item(raw, d), Cacheable(isa, first, second));
    var c1 := DecodeThrough(isa, Some(c), raw, length).1.value;
    HeldShaped(isa, c1, live);
    KeepHeld(isa, c1, live, h, Item(raw, d), first, second);
  }

  lemma DecodeDirect(isa: Isa, raw: nat, length: nat)
    ensures DecodeThrough(isa, None, raw, length) == (isa.decode(raw, length), None)
  {}

  lemma KeepDirect(h: Hart, item: Item, cacheable: bool)
    ensures Keep(None, h, item, cacheable) == None
  {}

  lemma HeldLeaves(isa: Isa, c: Caches, live: Live, mmu: Mmu, h: Hart, m: Ram, va: nat, access: Access)
    requires Held(isa, c, live) && mmu.Cached? && TlbProofs.Covered(mmu.t, Leaves(live, h, m, va, access).leaves)
    ensures Held(isa, c.(tlb := mmu.t), Leaves(live, h, m, va, access))
  {
    hide TlbProofs.LiveAfter; hide CodeInv; hide DecodesHeld; hide Icache.Sound;
  }

  lemma CompressedRecorded(isa: Isa, b: Bus, h: Hart)
    requires h.pc % 2 == 0 && FetchHalf(isa, b, Direct, h, h.pc).0.Half? &&
        FetchHalf(isa, b, Direct, h, h.pc).0.value % 4 != 3
    ensures var (first, _, _) := FetchHalf(isa, b, Direct, h, h.pc);
            var p, d := PlaceOf(h, b.ram, h.pc), isa.decode(first.value, 2);
            isa.cacheable(first.address) == Cacheable(isa, p, None) &&
            (Cacheable(isa, p, None) && d.valid ==> CodeInv(isa, Code(Item(first.value, d), p, None), KeyOf(h)))
  {
    hide FetchHalf; hide PlaceInv; hide PlaceOf;
    PlaceRecorded(isa, b, h, h.pc);
    PlaceVa(h, b.ram, h.pc);
  }

  lemma PlaceVa(h: Hart, m: Ram, va: nat)
    ensures PlaceOf(h, m, va).va == va
  {
    hide Virtual; hide Lookup; hide Tlb.Filled; hide Physical;
  }

  lemma StandardRecorded(isa: Isa, b: Bus, h: Hart)
    requires var (first, b1, _) := FetchHalf(isa, b, Direct, h, h.pc);
             h.pc % 2 == 0 && first.Half? && first.value % 4 == 3 &&
               FetchHalf(isa, b1, Direct, h, Wrap(Rv64, h.pc + 2)).0.Half?
    ensures var (first, b1, _) := FetchHalf(isa, b, Direct, h, h.pc);
            var next := Wrap(Rv64, h.pc + 2);
            var second := FetchHalf(isa, b1, Direct, h, next).0;
            var raw, p, q := first.value + second.value * 0x1_0000, PlaceOf(h, b.ram, h.pc),
                Some(PlaceOf(h, b1.ram, next));
            (isa.cacheable(first.address) && isa.cacheable(second.address)) == Cacheable(isa, p, q) &&
            (Cacheable(isa, p, q) && isa.decode(raw, 4).valid ==>
              CodeInv(isa, Code(Item(raw, isa.decode(raw, 4)), p, q), KeyOf(h)))
  {
    hide FetchHalf; hide PlaceInv; hide PlaceOf; hide Wrap;
    var (first, b1, _) := FetchHalf(isa, b, Direct, h, h.pc);
    var next := Wrap(Rv64, h.pc + 2);
    CoreProofs.JoinedHalves(first.value, FetchHalf(isa, b1, Direct, h, next).0.value);
    PlaceRecorded(isa, b, h, h.pc);
    PlaceRecorded(isa, b1, h, next);
    PlaceVa(h, b.ram, h.pc);
    PlaceVa(h, b1.ram, next);
  }

  lemma MissAgrees(isa: Isa, b: Bus, h: Hart, c: Caches, live: Live)
    requires Held(isa, c, live) && MayFetch(isa, live, b, h) && h.pc % 2 == 0
    ensures CachesShaped(c)
    ensures var (f, b', c') := FetchMiss(isa, b, h, Some(c));
            c'.Some? && (f, b', None) == FetchMiss(isa, b, h, None) && Held(isa, c'.value, AfterFetch(isa, live, b, h))
  {
    hide FetchHalf; hide MayUse; hide Leaves; hide Finish; hide CodeInv; hide PlaceOf; hide CodeFresh; hide DecodesHeld;
    hide Icache.Sound; hide LiveInv; hide TlbProofs.Covered; hide Kept; hide Cacheable; hide Wrap;
    HeldShaped(isa, c, live);
    HalfAgrees(isa, b, c.tlb, live, h, h.pc);
    var (first, b1, mmu1) := FetchHalf(isa, b, Cached(c.tlb), h, h.pc);
    var live1 := Leaves(live, h, b.ram, h.pc, Fetch);
    HeldLeaves(isa, c, live, mmu1, h, b.ram, h.pc, Fetch);
    var c1 := c.(tlb := mmu1.t);
    if first.Half? {
      var p := PlaceOf(h, b.ram, h.pc);
      if first.value % 4 != 3 {
        CompressedRecorded(isa, b, h);
        FinishAgrees(isa, c1, live1, h, first.value, 2, p, None);
      } else {
        var next := Wrap(Rv64, h.pc + 2);
        HalfAgrees(isa, b1, c1.tlb, live1, h, next);
        var (second, b2, mmu2) := FetchHalf(isa, b1, mmu1, h, next);
        HeldLeaves(isa, c1, live1, mmu2, h, b1.ram, next, Fetch);
        if second.Half? {
          StandardRecorded(isa, b, h);
          FinishAgrees(isa, c1.(tlb := mmu2.t), Leaves(live1, h, b1.ram, next, Fetch), h,
            first.value + second.value * 0x1_0000, 4,
                       p, Some(PlaceOf(h, b1.ram, next)));
        }
      }
    }
  }

  lemma HeldMoreLeaves(isa: Isa, c: Caches, live: Live, live': Live)
    requires Held(isa, c, live) && live.leaves <= live'.leaves && live'.code == live.code
    ensures Held(isa, c, live')
  {
    hide CodeInv; hide DecodesHeld; hide Icache.Sound; hide CachesShaped;
  }

  /** Recording the same instruction again, at other places, keeps what is held. */
  lemma HeldAgain(isa: Isa, c: Caches, live: Live, key: Icache.Key, code: Code)
    requires Held(isa, c, live) && key in live.code && code.item == live.code[key].item && CodeInv(isa, code, key)
    ensures Held(isa, c, live.(code := live.code[key := code]))
  {
    hide CodeInv; hide DecodesHeld; hide Icache.Sound; hide CachesShaped; hide TlbProofs.Covered; hide Items;
    ItemsRecorded(live.code, key, code);
    SameItems(live.code, key);
  }

  lemma SameItems(code: map<Icache.Key, Code>, key: Icache.Key)
    requires key in code
    ensures Items(code)[key := code[key].item] == Items(code)
  {}

  lemma MoreLeaves(live: Live, h: Hart, m: Ram, va: nat, access: Access)
    ensures live.leaves <= Leaves(live, h, m, va, access).leaves && Leaves(live, h, m, va, access).code == live.code
  {
    hide Walk; hide Lookup; hide Virtual; hide ContextOf;
  }

  lemma KeptAgain(isa: Isa, c: Caches, live: Live, h: Hart, item: Item, first: Place, second: Option<Place>)
    requires Held(isa, c, live) && KeyOf(h) in live.code && live.code[KeyOf(h)].item == item
    requires Cacheable(isa, first, second) && item.decoded.valid ==> CodeInv(isa, Code(item, first, second), KeyOf(h))
    ensures Held(isa, c, Kept(isa, live, h, item, first, second))
  {
    hide CodeInv; hide Held; hide KeyOf; hide AtPageEnd;
    if Cacheable(isa, first, second) &&
        item.decoded.valid { HeldAgain(isa, c, live, KeyOf(h), Code(item, first, second)); }
  }

  /** What FetchMiss gives without caches, by its halves. */
  lemma DirectMiss(isa: Isa, b: Bus, h: Hart, item: Item)
    requires FetchMiss(isa, b, h, None) == (Got(item), b, None)
    ensures var (first, b1, _) := FetchHalf(isa, b, Direct, h, h.pc);
            first.Half? &&
            if first.value % 4 != 3 then item == Item(first.value, isa.decode(first.value, 2))
            else
              var second := FetchHalf(isa, b1, Direct, h, Wrap(Rv64, h.pc + 2)).0;
              second.Half? && var raw := first.value + second.value * 0x1_0000; item == Item(raw, isa.decode(raw, 4))
  {
    hide FetchHalf; hide Wrap; hide Keep;
  }

  lemma RefetchKeepsHeld(isa: Isa, b: Bus, h: Hart, c: Caches, live: Live)
    requires Held(isa, c, live) && h.pc % 2 == 0 && KeyOf(h) in live.code
    requires FetchMiss(isa, b, h, None) == (Got(live.code[KeyOf(h)].item), b, None)
    ensures Held(isa, c, AfterFetch(isa, live, b, h))
  {
    hide FetchHalf; hide CodeInv; hide Held; hide PlaceOf; hide Leaves; hide KeyOf; hide FetchMiss; hide Kept;
    hide Cacheable; hide Wrap;
    var item := live.code[KeyOf(h)].item;
    DirectMiss(isa, b, h, item);
    var (first, b1, _) := FetchHalf(isa, b, Direct, h, h.pc);
    var live1, p := Leaves(live, h, b.ram, h.pc, Fetch), PlaceOf(h, b.ram, h.pc);
    MoreLeaves(live, h, b.ram, h.pc, Fetch);
    HeldMoreLeaves(isa, c, live, live1);
    if first.value % 4 != 3 {
      CompressedRecorded(isa, b, h);
      KeptAgain(isa, c, live1, h, item, p, None);
    } else {
      var next := Wrap(Rv64, h.pc + 2);
      var live2 := Leaves(live1, h, b1.ram, next, Fetch);
      MoreLeaves(live1, h, b1.ram, next, Fetch);
      HeldMoreLeaves(isa, c, live1, live2);
      StandardRecorded(isa, b, h);
      KeptAgain(isa, c, live2, h, item, p, Some(PlaceOf(h, b1.ram, next)));
    }
  }

  /** A hit on the instruction cache is what a fetch from memory would give, which changes nothing. */
  lemma HitAgrees(isa: Isa, b: Bus, h: Hart, c: Caches, live: Live)
    requires Quiet(isa) && Held(isa, c, live) && MayFetch(isa, live, b, h) && h.pc % 2 == 0 && !AtPageEnd(h.pc)
    requires CachesShaped(c) && Icache.Lookup(c.lines, Sv39, KeyOf(h)).Some?
    ensures FetchMiss(isa, b, h, None) == (Got(Icache.Lookup(c.lines, Sv39, KeyOf(h)).value), b, None)
    ensures Held(isa, c, AfterFetch(isa, live, b, h))
  {
    hide FetchMiss; hide CodeFresh; hide CodeInv; hide DecodesHeld; hide Icache.Sound; hide AtPageEnd; hide PlaceOf;
    hide Icache.Lookup; hide Icache.Shaped; hide MayUse; hide TlbProofs.Covered; hide AfterFetch; hide FetchHalf;
    hide Quiet;
    Icache.HitIsContents(c.lines, Sv39, Items(live.code), KeyOf(h));
    CodeFetches(isa, live.code[KeyOf(h)], b, h);
    RefetchKeepsHeld(isa, b, h, c, live);
  }

  /** Fetching with every cache gives the uncached result and bus. */
  lemma FetchAgrees(isa: Isa, b: Bus, h: Hart, c: Caches, live: Live)
    requires Quiet(isa) && Held(isa, c, live) && MayFetch(isa, live, b, h)
    ensures CachesShaped(c)
    ensures var (f, b', c') := FetchDecode(isa, b, h, Some(c));
            c'.Some? && (f, b', None) == FetchDecode(isa, b, h, None) &&
              Held(isa, c'.value, AfterFetch(isa, live, b, h))
  {
    hide FetchMiss; hide Held; hide MayFetch; hide Icache.Lookup; hide AtPageEnd; hide Quiet; hide FetchHalf;
    HeldShaped(isa, c, live);
    if h.pc % 2 == 0 {
      if !AtPageEnd(h.pc) && Icache.Lookup(c.lines, Sv39, KeyOf(h)).Some? {
        HitAgrees(isa, b, h, c, live);
      } else {
        MissAgrees(isa, b, h, c, live);
      }
    }
  }

  /* ---- the data access, fences, one step ---- */

  lemma AskAgrees(isa: Isa, b: Bus, t: Tlb.Cache, live: Live, h: Hart, item: Item)
    requires TlbProofs.Covered(t, live.leaves) && MayAccess(isa, live, b, h, item)
    ensures var (asked, b', mmu) := Ask(isa, b, Cached(t), h, item);
            mmu.Cached? && (asked, b', Direct) == Ask(isa, b, Direct, h, item) &&
            TlbProofs.Covered(mmu.t, AfterData(isa, live, b, h, item).leaves)
  {
    hide MmuTranslate; hide Leaves; hide MayUse; hide TlbProofs.Covered;
    CoveredShaped(t, live.leaves);
    match isa.access(h, item.raw, item.decoded)
    case None =>
    case Some((va, access)) => TranslateAgrees(b, t, live, h, va, access);
  }

  lemma CoveredShaped(t: Tlb.Cache, live: set<Tlb.Entry>)
    requires TlbProofs.Covered(t, live)
    ensures Tlb.Shaped(t)
  {}

  lemma MaintainAgrees(isa: Isa, c: Caches, live: Live, h: Hart, d: Instruction)
    requires Held(isa, c, live)
    ensures var c' := Maintain(Some(c), h, d); c'.Some? && Held(isa, c'.value, AfterFence(live, h, d))
  {
    hide CodeInv; hide DecodesHeld; hide Icache.Sound; hide Icache.Fence; hide Tlb.Fence; hide TlbProofs.Covered;
    hide TlbProofs.LiveFenced; hide Icache.Clear; hide Icache.Fenced; hide FenceAddress; hide FenceAsid;
    hide SfenceAllowed;
    var address, asid := FenceAddress(h, d), FenceAsid(h, d);
    if d.fence == SfenceVma && SfenceAllowed(h) {
      TlbProofs.CoveredFences(c.tlb, live.leaves, Sv39, address, asid);
      Icache.FenceSound(c.lines, Sv39, Items(live.code), address, asid);
      assert Items(AfterFence(live, h, d).code) == Icache.Unfenced(Items(live.code), address, asid);
      FenceShaped(c, address, asid);
    } else if d.fence == FenceI {
      Icache.ClearSound(c.lines, Sv39, Items(live.code));
      assert Items(AfterFence(live, h, d).code) == map[];
      BlankHeld(isa);
    }
  }

  lemma FenceShaped(c: Caches, address: Option<nat>, asid: Option<nat>)
    requires CachesShaped(c)
    ensures CachesShaped(c.(tlb := Tlb.Fence(c.tlb, Sv39, address, asid),
        lines := Icache.Fence(c.lines, Sv39, address, asid)))
  {}

  lemma BlankHeld(isa: Isa)
    ensures DecodesHeld(isa, seq(1024, _ => BlankDecode))
  {}

  lemma HeldData(isa: Isa, c: Caches, live: Live, b: Bus, h: Hart, item: Item, t: Tlb.Cache)
    requires Held(isa, c, live) && TlbProofs.Covered(t, AfterData(isa, live, b, h, item).leaves)
    ensures Held(isa, c.(tlb := t), AfterData(isa, live, b, h, item))
  {
    hide CodeInv; hide DecodesHeld; hide Icache.Sound; hide TlbProofs.LiveAfter;
  }

  lemma NothingToMaintain(h: Hart, d: Instruction)
    ensures Maintain(None, h, d) == None
  {}

  lemma StepAgrees(isa: Isa, h: Hart, b: Bus, c: Caches, live: Live, input: Input)
    requires Quiet(isa) && Fits(h) && Held(isa, c, live) && MayStep(isa, live, h, b, input)
    ensures CachesShaped(c)
    ensures var (r, h', b', c') := Step(isa, h, b, Some(c), input);
            c'.Some? && (r, h', b', None) == Step(isa, h, b, None, input) &&
              Held(isa, c'.value, AfterStep(isa, live, h, b, input))
  {
    hide FetchDecode; hide Held; hide MayFetch; hide Ask; hide MayAccess; hide AfterFetch; hide AfterData;
    hide AfterFence; hide Maintain;
    hide SelectFrom; hide WakeRequested; hide Conclude; hide TakeTrap; hide TakeInterrupt; hide CachesShaped;
    hide Quiet;
    HeldShaped(isa, c, live);
    var begun := Core64.Begin(h, input.lines);
    if begun.Runs? {
      var h1 := begun.h;
      FetchAgrees(isa, b, h1, c, live);
      var (f, b1, c1) := FetchDecode(isa, b, h1, Some(c));
      if f.Got? && f.item.decoded.valid {
        var live1 := AfterFetch(isa, live, b, h1);
        HeldShaped(isa, c1.value, live1);
        AskAgrees(isa, b1, c1.value.tlb, live1, h1, f.item);
        CoveredShaped(c1.value.tlb, live1.leaves);
        var mmu := Ask(isa, b1, Cached(c1.value.tlb), h1, f.item).2;
        HeldData(isa, c1.value, live1, b1, h1, f.item, mmu.t);
        HeldShaped(isa, c1.value.(tlb := mmu.t), AfterData(isa, live1, b1, h1, f.item));
        MaintainAgrees(isa, c1.value.(tlb := mmu.t), AfterData(isa, live1, b1, h1, f.item), h1, f.item.decoded);
        NothingToMaintain(h1, f.item.decoded);
      }
    }
  }

  /* ---- every run ---- */

  /** Fast mode refines Reference mode: the same endings, hart states and buses after every step of every
      disciplined run, whatever the instructions and the devices do. */
  lemma {:induction false} RunAgrees(isa: Isa, h: Hart, b: Bus, c: Caches, live: Live, events: seq<Event>)
    requires Quiet(isa) && Fits(h) && Held(isa, c, live) && Disciplined(isa, live, h, b, events)
    ensures CachesShaped(c) && Run(isa, h, b, Some(c), events) == Run(isa, h, b, None, events)
    decreases |events|
  {
    hide Step; hide Held; hide MayStep; hide AfterStep; hide Dma; hide CachesShaped; hide Fits; hide Quiet;
    HeldShaped(isa, c, live);
    if events != [] {
      var b0, input := Dma(b, events[0]), events[0].input;
      StepAgrees(isa, h, b0, c, live, input);
      StepFits(isa, h, b0, Some(c), input);
      var (_, h', b', c') := Step(isa, h, b0, Some(c), input);
      RunAgrees(isa, h', b', c'.value, AfterStep(isa, live, h, b0, input), events[1..]);
    }
  }

  /** From reset, whatever the program does, as long as it fences its edits before using them. */
  lemma ResetRunAgrees(isa: Isa, h: Hart, b: Bus, events: seq<Event>)
    requires Quiet(isa) && Fits(h) && Disciplined(isa, Nothing, h, b, events)
    ensures CachesShaped(EmptyCaches()) && Run(isa, h, b, Some(EmptyCaches()), events) == Run(isa, h, b, None, events)
  {
    hide Held; hide Disciplined; hide EmptyCaches; hide Run; hide Quiet; hide Fits;
    EmptyHeld(isa);
    RunAgrees(isa, h, b, EmptyCaches(), Nothing, events);
  }

  lemma EmptyHeld(isa: Isa)
    ensures Held(isa, EmptyCaches(), Nothing)
  {
    Icache.RunSound<Item>(Sv39, []);
    assert Items(map[]) == map[];
    assert Icache.Run<Item>(Sv39, []) == Icache.Empty<Item>(Sv39) && Icache.Replay<Item>([]) == map[];
    hide Icache.Empty; hide Icache.Sound; hide Icache.Run;
  }
}
