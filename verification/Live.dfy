/** What may still be cached after a Reference run so far, and so what software must fence
    before it relies on an edit of page tables or code. No cache appears in these definitions. */
module Live {
  import opened Wrappers
  import opened Address
  import opened Paging
  import opened Hart
  import opened Core32
  import Tlb
  import TlbProofs
  import Icache

  /** One translated halfword of an instruction: its address, the leaf used unless bare, where it was read. */
  datatype Place = Place(va: nat, leaf: Option<Tlb.Entry>, at: Phys)

  datatype Code = Code(item: Item, first: Place, second: Option<Place>)

  /** The leaves reached and the instructions fetched that no fence has covered since. */
  datatype Live = Live(leaves: set<Tlb.Entry>, code: map<Icache.Key, Code>)

  const Nothing: Live := Live({}, map[])

  function FetchContext(h: Hart): Context { ContextOf(Rv32, h, Fetch) }

  function PlaceOf(h: Hart, m: Ram, va: nat): Place {
    var ctx, v := FetchContext(h), Virtual(Sv32, va);
    var f := Lookup(m, Sv32, h.satp.root, v);
    if Bare(ctx) || !f.Leaf? then Place(va, None, Physical(Sv32, va))
    else
      var e := Tlb.Filled(ctx, v, f, Fetch);
      Place(va, Some(e), Map(e.level, e.base.frame, v))
  }

  /* ---- one step of the record ---- */

  function Leaves(live: Live, h: Hart, m: Ram, va: nat, access: Access): Live {
    live.(leaves := TlbProofs.LiveAfter(live.leaves, m, ContextOf(Rv32, h, access), va, access))
  }

  function Kept(live: Live, h: Hart, f: Fetched, first: Place, second: Option<Place>): Live {
    if f.Got? && !AtPageEnd(h.pc) then live.(code := live.code[KeyOf(h) := Code(f.item, first, second)]) else live
  }

  function AfterFetch(isa: Isa, live: Live, b: Bus, h: Hart): Live {
    if h.pc % 2 != 0 then live
    else
      var f := FetchMiss(isa, b, h, None).0;
      var live1 := Leaves(live, h, b.ram, h.pc, Fetch);
      var (half, b1, _) := FetchHalf(b, Direct, h, h.pc);
      if half.HalfFault? then live1
      else if half.value % 4 != 3 then Kept(live1, h, f, PlaceOf(h, b.ram, h.pc), None)
      else
        var next := Wrap(Rv32, h.pc + 2);
        Kept(Leaves(live1, h, b1.ram, next, Fetch), h, f, PlaceOf(h, b.ram, h.pc), Some(PlaceOf(h, b1.ram, next)))
  }

  /** The data address of a load, store or atomic that passes its alignment check. */
  function DataAccess(h: Hart, d: Instruction): Option<(nat, Access)> {
    var rs1 := Reg(h, d.rs1);
    match UnitOf(d.kind)
    case Atomic => if rs1 % 4 == 0 then Some((rs1, if d.kind == LrW then Load else Store)) else None
    case Memory =>
      var va := Wrap(Rv32, rs1 + d.imm);
      if va % AccessWidth(d.kind) == 0 then
        Some((va, if IsLoad(d.kind) then Load else Store))
      else None
    case _ => None
  }

  function AfterData(live: Live, b: Bus, h: Hart, d: Instruction): Live {
    match DataAccess(h, d)
    case None => live
    case Some((va, access)) => Leaves(live, h, b.ram, va, access)
  }

  function AfterFence(live: Live, h: Hart, d: Instruction): Live {
    if d.kind == SfenceVma then
      Live(TlbProofs.LiveFenced(live.leaves, Sv32, FenceAddress(h, d), FenceAsid(h, d)),
           map k | k in live.code && !Icache.Fenced(k, FenceAddress(h, d), FenceAsid(h, d)) :: live.code[k])
    else if d.kind == FenceI then live.(code := map[])
    else live
  }

  function AfterStep(isa: Isa, live: Live, h: Hart, b: Bus, input: Input): Live {
    var begun := Begin(h, input.lines);
    if !begun.Runs? then live
    else
      var (f, b1, _) := FetchDecode(isa, b, begun.h, None);
      var live1 := AfterFetch(isa, live, b, begun.h);
      if !f.Got? then live1
      else
        var live2 := AfterData(live1, b1, begun.h, f.item.decoded);
        if Step(isa, h, b, None, input).0.commit.Some? then AfterFence(live2, begun.h, f.item.decoded) else live2
  }

  /* ---- the discipline: edits are fenced before they are used ---- */

  /** The tables and the bytes still say what they said when this halfword was fetched. */
  predicate PlaceFresh(p: Place, key: Icache.Key, b: Bus, half: nat) {
    (p.leaf.Some? ==> Tlb.Fresh(p.leaf.value, b.ram, Sv32, key.satp.root, Virtual(Sv32, p.va))) &&
    BusRead(b, p.at, 2) == Some(half)
  }

  predicate CodeFresh(c: Code, key: Icache.Key, b: Bus) {
    PlaceFresh(c.first, key, b, c.item.raw % 0x1_0000) &&
    (c.second.Some? ==> PlaceFresh(c.second.value, key, b, c.item.raw / 0x1_0000))
  }

  /** Using an address: every leaf that a cache could use for the access is the one the tables hold. */
  ghost predicate MayUse(live: Live, h: Hart, m: Ram, va: nat, access: Access) {
    TlbProofs.MayTranslate(live.leaves, m, ContextOf(Rv32, h, access), va, access)
  }

  ghost predicate MayFetch(live: Live, b: Bus, h: Hart) {
    h.pc % 2 == 0 ==>
      MayUse(live, h, b.ram, h.pc, Fetch) &&
      (!AtPageEnd(h.pc) && KeyOf(h) in live.code ==> CodeFresh(live.code[KeyOf(h)], KeyOf(h), b)) &&
      var (half, b1, _) := FetchHalf(b, Direct, h, h.pc);
      half.Half? && half.value % 4 == 3 ==>
        MayUse(Leaves(live, h, b.ram, h.pc, Fetch), h, b1.ram, Wrap(Rv32, h.pc + 2), Fetch)
  }

  ghost predicate MayAccess(live: Live, b: Bus, h: Hart, d: Instruction) {
    match DataAccess(h, d)
    case None => true
    case Some((va, access)) => MayUse(live, h, b.ram, va, access)
  }

  ghost predicate MayStep(isa: Isa, live: Live, h: Hart, b: Bus, input: Input) {
    var begun := Begin(h, input.lines);
    begun.Runs? ==>
      MayFetch(live, b, begun.h) &&
      var (f, b1, _) := FetchDecode(isa, b, begun.h, None);
      f.Got? ==> MayAccess(AfterFetch(isa, live, b, begun.h), b1, begun.h, f.item.decoded)
  }

  /** Every step of the run keeps the discipline. Only Reference steps are mentioned. */
  ghost predicate Disciplined(isa: Isa, live: Live, h: Hart, b: Bus, events: seq<Event>)
    decreases |events|
  {
    events != [] ==>
      var h0, b0 := Elapse(h, events[0]), Dma(b, events[0]);
      var (_, h', b', _) := Step(isa, h0, b0, None, events[0].input);
      MayStep(isa, live, h0, b0, events[0].input) &&
      Disciplined(isa, AfterStep(isa, live, h0, b0, events[0].input), h', b', events[1..])
  }
}
