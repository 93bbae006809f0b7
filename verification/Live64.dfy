/** What may still be cached after an RV64 Reference run so far, and the discipline that follows: edits of
    page tables and code are fenced before they are used. No cache appears in these definitions. */
module Live64 {
  import opened Wrappers
  import opened Address
  import opened Paging
  import opened Hart
  import opened Fast64
  import Core64
  import Tlb
  import TlbProofs
  import Icache

  /** One translated halfword of an instruction: its address, the leaf used unless bare, where it was read. */
  datatype Place = Place(va: nat, leaf: Option<Tlb.Entry>, at: Phys)

  datatype Code = Code(item: Item, first: Place, second: Option<Place>)

  datatype Live = Live(leaves: set<Tlb.Entry>, code: map<Icache.Key, Code>)

  const Nothing: Live := Live({}, map[])

  function FetchContext(h: Hart): Context { ContextOf(Rv64, h, Fetch) }

  function PlaceOf(h: Hart, m: Ram, va: nat): Place {
    var ctx, v := FetchContext(h), Virtual(Sv39, va);
    var f := Lookup(m, Sv39, h.satp.root, v);
    if Bare(ctx) || !f.Leaf? then Place(va, None, Physical(Sv39, va))
    else
      var e := Tlb.Filled(ctx, v, f, Fetch);
      Place(va, Some(e), Map(e.level, e.base.frame, v))
  }

  function Leaves(live: Live, h: Hart, m: Ram, va: nat, access: Access): Live {
    live.(leaves := TlbProofs.LiveAfter(live.leaves, m, ContextOf(Rv64, h, access), va, access))
  }

  /** Only valid instructions whose halves are all cacheable are recorded. */
  function Kept(isa: Isa, live: Live, h: Hart, item: Item, first: Place, second: Option<Place>): Live {
    if AtPageEnd(h.pc) || !item.decoded.valid || !isa.cacheable(first.at) ||
        (second.Some? && !isa.cacheable(second.value.at)) then live
    else live.(code := live.code[KeyOf(h) := Code(item, first, second)])
  }

  function AfterFetch(isa: Isa, live: Live, b: Bus, h: Hart): Live {
    if h.pc % 2 != 0 then live
    else
      var live1 := Leaves(live, h, b.ram, h.pc, Fetch);
      var (first, b1, _) := FetchHalf(isa, b, Direct, h, h.pc);
      if first.HalfFault? then live1
      else if first.value % 4 != 3 then
        Kept(isa, live1, h, Item(first.value, isa.decode(first.value, 2)), PlaceOf(h, b.ram, h.pc), None)
      else
        var next := Wrap(Rv64, h.pc + 2);
        var live2 := Leaves(live1, h, b1.ram, next, Fetch);
        var (second, _, _) := FetchHalf(isa, b1, Direct, h, next);
        if second.HalfFault? then live2
        else
          var raw := first.value + second.value * 0x1_0000;
          Kept(isa, live2, h, Item(raw, isa.decode(raw, 4)), PlaceOf(h, b.ram, h.pc), Some(PlaceOf(h, b1.ram, next)))
  }

  function AfterData(isa: Isa, live: Live, b: Bus, h: Hart, item: Item): Live {
    match isa.access(h, item.raw, item.decoded)
    case None => live
    case Some((va, access)) => Leaves(live, h, b.ram, va, access)
  }

  function AfterFence(live: Live, h: Hart, d: Instruction): Live {
    if d.fence == SfenceVma && SfenceAllowed(h) then
      Live(TlbProofs.LiveFenced(live.leaves, Sv39, FenceAddress(h, d), FenceAsid(h, d)),
           map k | k in live.code && !Icache.Fenced(k, FenceAddress(h, d), FenceAsid(h, d)) :: live.code[k])
    else if d.fence == FenceI then live.(code := map[])
    else live
  }

  function AfterStep(isa: Isa, live: Live, h: Hart, b: Bus, input: Input): Live {
    var begun := Core64.Begin(h, input.lines);
    if !begun.Runs? then live
    else
      var (f, b1, _) := FetchDecode(isa, b, begun.h, None);
      var live1 := AfterFetch(isa, live, b, begun.h);
      if !f.Got? || !f.item.decoded.valid then live1
      else AfterFence(AfterData(isa, live1, b1, begun.h, f.item), begun.h, f.item.decoded)
  }

  /* ---- the discipline ---- */

  ghost predicate PlaceFresh(isa: Isa, p: Place, key: Icache.Key, b: Bus, half: nat) {
    (p.leaf.Some? ==> Tlb.Fresh(p.leaf.value, b.ram, Sv39, key.satp.root, Virtual(Sv39, p.va))) &&
    isa.read(b, p.at).0.Some? && isa.read(b, p.at).0.value % 0x1_0000 == half
  }

  ghost predicate CodeFresh(isa: Isa, c: Code, key: Icache.Key, b: Bus) {
    PlaceFresh(isa, c.first, key, b, c.item.raw % 0x1_0000) &&
    (c.second.Some? ==> PlaceFresh(isa, c.second.value, key, b, c.item.raw / 0x1_0000))
  }

  ghost predicate MayUse(live: Live, h: Hart, m: Ram, va: nat, access: Access) {
    TlbProofs.MayTranslate(live.leaves, m, ContextOf(Rv64, h, access), va, access)
  }

  ghost predicate MayFetch(isa: Isa, live: Live, b: Bus, h: Hart) {
    h.pc % 2 == 0 ==>
      MayUse(live, h, b.ram, h.pc, Fetch) &&
      (!AtPageEnd(h.pc) && KeyOf(h) in live.code ==> CodeFresh(isa, live.code[KeyOf(h)], KeyOf(h), b)) &&
      var (half, b1, _) := FetchHalf(isa, b, Direct, h, h.pc);
      half.Half? && half.value % 4 == 3 ==>
        MayUse(Leaves(live, h, b.ram, h.pc, Fetch), h, b1.ram, Wrap(Rv64, h.pc + 2), Fetch)
  }

  ghost predicate MayAccess(isa: Isa, live: Live, b: Bus, h: Hart, item: Item) {
    match isa.access(h, item.raw, item.decoded)
    case None => true
    case Some((va, access)) => MayUse(live, h, b.ram, va, access)
  }

  ghost predicate MayStep(isa: Isa, live: Live, h: Hart, b: Bus, input: Input) {
    var begun := Core64.Begin(h, input.lines);
    begun.Runs? ==>
      MayFetch(isa, live, b, begun.h) &&
      var (f, b1, _) := FetchDecode(isa, b, begun.h, None);
      f.Got? && f.item.decoded.valid ==> MayAccess(isa, AfterFetch(isa, live, b, begun.h), b1, begun.h, f.item)
  }

  ghost predicate Disciplined(isa: Isa, live: Live, h: Hart, b: Bus, events: seq<Event>)
    requires Fits(h)
    decreases |events|
  {
    events != [] ==>
      var b0 := Dma(b, events[0]);
      StepFits(isa, h, b0, None, events[0].input);
      var (_, h', b', _) := Step(isa, h, b0, None, events[0].input);
      MayStep(isa, live, h, b0, events[0].input) &&
      Disciplined(isa, AfterStep(isa, live, h, b0, events[0].input), h', b', events[1..])
  }
}
