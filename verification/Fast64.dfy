/** The RV64 core from fetch to commit, in Reference mode (no caches) or Fast mode (with them). */
module Fast64 {
  import opened Wrappers
  import opened Address
  import opened Paging
  import opened Hart
  import Core64
  import Tlb
  import Icache

  datatype FenceKind = NoFence | FenceI | SfenceVma

  /** What the step itself looks at of a decoded instruction; code stands for the rest. */
  datatype Decoded = Decoded(valid: bool, rd: nat, rs1: nat, rs2: nat, length: nat, fence: FenceKind, code: nat)

  type Instruction = d: Decoded | d.rd < 32 && d.rs1 < 32 && d.rs2 < 32 witness Decoded(false, 0, 0, 0, 4, NoFence, 0)

  /** RAM as the page walker sees it, the count of bus writes, and the state of everything else. */
  datatype Bus = Bus(ram: Ram, epoch: nat, devices: seq<nat>)

  /** The instruction set and the bus it runs on. An instruction makes at most one translated access;
      fetching from a place that is not cacheable may change the bus. The results hold for all of them. */
  datatype Isa = Isa(
    decode: (nat, nat) -> Instruction,                             // bits and length
    read: (Bus, Phys) -> (Option<nat>, Bus),                       // a fetched halfword
    cacheable: Phys -> bool,
    access: (Hart, nat, Instruction) -> Option<(nat, Access)>,     // the data access, once aligned and legal
    plain: (Hart, nat, Instruction) -> Core64.Asked,               // what it asks for without one
    failed: (Hart, nat, Instruction, bool) -> Core64.Asked,        // its trap when translation fails
    perform: (Bus, Hart, nat, Instruction, Phys) -> (Core64.Asked, Bus))

  /** Reading a cacheable place changes nothing: it is RAM. */
  ghost predicate Quiet(isa: Isa) { forall b, p :: isa.cacheable(p) ==> isa.read(b, p).1 == b }

  /* ---- translation ---- */

  datatype Mmu = Direct | Cached(t: Tlb.Cache)

  predicate MmuReady(mmu: Mmu) { mmu.Cached? ==> Tlb.Shaped(mmu.t) }

  function Walked(b: Bus, m: Ram): Bus { if m == b.ram then b else b.(ram := m, epoch := b.epoch + 1) }

  function MmuTranslate(b: Bus, mmu: Mmu, h: Hart, va: nat, access: Access): (r: (Translation, Bus, Mmu))
    requires MmuReady(mmu)
    ensures MmuReady(r.2) && r.2.Cached? == mmu.Cached?
  {
    var ctx := ContextOf(Rv64, h, access);
    match mmu
    case Direct => var (t, m) := Translate(b.ram, ctx, va, access); (t, Walked(b, m), mmu)
    case Cached(c) => var (t, m, c') := Tlb.CachedTranslate(c, b.ram, ctx, va, access); (t, Walked(b, m), Cached(c'))
  }

  /* ---- fetch and decode ---- */

  datatype Item = Item(raw: nat, decoded: Instruction)

  datatype DecodeLine = DecodeLine(valid: bool, length: nat, raw: nat, decoded: Instruction)

  datatype Caches = Caches(tlb: Tlb.Cache, lines: Icache.Cache<Item>, decodes: seq<DecodeLine>)

  predicate CachesShaped(c: Caches) { Tlb.Shaped(c.tlb) && Icache.Shaped(c.lines, Sv39) && |c.decodes| == 1024 }

  predicate CachesReady(c: Option<Caches>) { c.Some? ==> CachesShaped(c.value) }

  function MmuOf(c: Option<Caches>): Mmu { match c case None => Direct case Some(k) => Cached(k.tlb) }

  function WithMmu(c: Option<Caches>, mmu: Mmu): Option<Caches> {
    match c case None => None case Some(k) => if mmu.Cached? then Some(k.(tlb := mmu.t)) else c
  }

  function DecodeSlot(raw: nat, length: nat): (r: nat)
    ensures r < 1024
  {
    var n := (raw % 0x1_0000_0000) as bv32;
    ((n ^ (n >> 11) ^ (((length % 8) as bv32) << 29)) % 1024) as nat
  }

  /** decode: through the decode cache in Fast mode. */
  function DecodeThrough(isa: Isa, c: Option<Caches>, raw: nat, length: nat): (r: (Instruction, Option<Caches>))
    requires CachesReady(c)
    ensures CachesReady(r.1) && r.1.Some? == c.Some?
  {
    match c
    case None => (isa.decode(raw, length), None)
    case Some(k) =>
      var i := DecodeSlot(raw, length);
      var l := k.decodes[i];
      if l.valid && l.length == length && l.raw == raw then (l.decoded, c)
      else
        var d := isa.decode(raw, length);
        (d, Some(k.(decodes := k.decodes[i := DecodeLine(true, length, raw, d)])))
  }

  datatype Half = Half(value: nat, address: Phys) | HalfFault(cause: nat)

  function FetchHalf(isa: Isa, b: Bus, mmu: Mmu, h: Hart, va: nat): (r: (Half, Bus, Mmu))
    requires MmuReady(mmu)
    ensures MmuReady(r.2) && r.2.Cached? == mmu.Cached? && (r.0.Half? ==> r.0.value < 0x1_0000)
  {
    var (t, b1, mmu') := MmuTranslate(b, mmu, h, va, Fetch);
    match t
    case PageFault => (HalfFault(12), b1, mmu')
    case AccessFault => (HalfFault(1), b1, mmu')
    case Ready(p) =>
      var (v, b2) := isa.read(b1, p);
      match v
      case None => (HalfFault(1), b2, mmu')
      case Some(n) => (Half(n % 0x1_0000, p), b2, mmu')
  }

  datatype Fetched = Got(item: Item) | FetchTrap(cause: nat, value: nat, raw: nat)

  function KeyOf(h: Hart): Icache.Key { Icache.Key(h.pc, h.satp, h.privilege) }

  /** A page's last halfword is never looked up or inserted. */
  predicate AtPageEnd(pc: nat) { pc % 0x1000 == 0xFFE }

  /** The instruction is kept if it is valid and every half of it is cacheable. */
  function Keep(c: Option<Caches>, h: Hart, item: Item, cacheable: bool): (r: Option<Caches>)
    requires CachesReady(c)
    ensures CachesReady(r) && r.Some? == c.Some?
  {
    match c
    case None => None
    case Some(k) =>
      if AtPageEnd(h.pc) || !cacheable || !item.decoded.valid then c
      else Some(k.(lines := Icache.Insert(k.lines, Sv39, KeyOf(h), item)))
  }

  function Finish(isa: Isa, c: Option<Caches>, h: Hart, raw: nat, length: nat,
      cacheable: bool): (r: (Fetched, Option<Caches>))
    requires CachesReady(c)
    ensures CachesReady(r.1) && r.1.Some? == c.Some?
  {
    var (d, c') := DecodeThrough(isa, c, raw, length);
    (Got(Item(raw, d)), Keep(c', h, Item(raw, d), cacheable))
  }

  function FetchMiss(isa: Isa, b: Bus, h: Hart, c: Option<Caches>): (r: (Fetched, Bus, Option<Caches>))
    requires CachesReady(c)
    ensures CachesReady(r.2) && r.2.Some? == c.Some?
  {
    var (first, b1, mmu1) := FetchHalf(isa, b, MmuOf(c), h, h.pc);
    var c1 := WithMmu(c, mmu1);
    if first.HalfFault? then (FetchTrap(first.cause, h.pc, 0), b1, c1)
    else if first.value % 4 != 3 then
      var (f, c2) := Finish(isa, c1, h, first.value, 2, isa.cacheable(first.address));
      (f, b1, c2)
    else
      var next := Wrap(Rv64, h.pc + 2);
      var (second, b2, mmu2) := FetchHalf(isa, b1, mmu1, h, next);
      var c2 := WithMmu(c1, mmu2);
      if second.HalfFault? then (FetchTrap(second.cause, next, first.value), b2, c2)
      else
        var (f, c3) := Finish(isa, c2, h, first.value + second.value * 0x1_0000, 4,
                              isa.cacheable(first.address) && isa.cacheable(second.address));
        (f, b2, c3)
  }

  function FetchDecode(isa: Isa, b: Bus, h: Hart, c: Option<Caches>): (r: (Fetched, Bus, Option<Caches>))
    requires CachesReady(c)
    ensures CachesReady(r.2) && r.2.Some? == c.Some?
  {
    if h.pc % 2 != 0 then (FetchTrap(0, h.pc, 0), b, c)
    else if c.Some? && !AtPageEnd(h.pc) && Icache.Lookup(c.value.lines, Sv39, KeyOf(h)).Some? then
      (Got(Icache.Lookup(c.value.lines, Sv39, KeyOf(h)).value), b, c)
    else FetchMiss(isa, b, h, c)
  }

  /* ---- the step ---- */

  /** What the instruction asks for, after its data access if it makes one. */
  function Ask(isa: Isa, b: Bus, mmu: Mmu, h: Hart, item: Item): (r: (Core64.Asked, Bus, Mmu))
    requires MmuReady(mmu)
    ensures MmuReady(r.2) && r.2.Cached? == mmu.Cached?
  {
    var raw, d := item.raw, item.decoded;
    match isa.access(h, raw, d)
    case None => (isa.plain(h, raw, d), b, mmu)
    case Some((va, access)) =>
      var (t, b1, mmu') := MmuTranslate(b, mmu, h, va, access);
      match t
      case PageFault => (isa.failed(h, raw, d, true), b1, mmu')
      case AccessFault => (isa.failed(h, raw, d, false), b1, mmu')
      case Ready(p) => var (asked, b2) := isa.perform(b1, h, raw, d, p); (asked, b2, mmu')
  }

  function Reg(h: Hart, i: nat): nat { if i < |h.x| then h.x[i] else 0 }

  function FenceAddress(h: Hart, d: Instruction): Option<nat> { if d.rs1 == 0 then None else Some(Reg(h, d.rs1)) }

  function FenceAsid(h: Hart, d: Instruction): Option<nat> {
    if d.rs2 == 0 then None else Some(Reg(h, d.rs2) % 0x1_0000)
  }

  const BlankDecode: DecodeLine := DecodeLine(false, 0, 0, Decoded(false, 0, 0, 0, 4, NoFence, 0))

  /** FENCE.I and a permitted SFENCE.VMA maintain the caches as they execute. */
  function Maintain(c: Option<Caches>, h: Hart, d: Instruction): (r: Option<Caches>)
    requires CachesReady(c)
    ensures CachesReady(r)
  {
    match c
    case None => None
    case Some(k) =>
      if d.fence == SfenceVma && SfenceAllowed(h) then
        Some(k.(tlb := Tlb.Fence(k.tlb, Sv39, FenceAddress(h, d), FenceAsid(h, d)),
                lines := Icache.Fence(k.lines, Sv39, FenceAddress(h, d), FenceAsid(h, d))))
      else if d.fence == FenceI then
        Some(k.(decodes := seq(1024, _ => BlankDecode), lines := Icache.Clear(k.lines, Sv39)))
      else c
  }

  datatype Input = Input(lines: set<nat>, time: nat)

  predicate Fits(h: Hart) { |h.x| == 32 && |h.f| == 32 }

  datatype StepResult = StepResult(ending: Core64.Ending, pc: nat, raw: nat)

  function Conclude(h: Hart, time: nat, item: Item, asked: Core64.Asked): (StepResult, Hart)
    requires Fits(h)
  {
    var (ending, h') := Core64.Complete(h, time, Core64.Instruction(item.raw, item.decoded.rd, asked));
    (StepResult(ending, h.pc, item.raw), h')
  }

  /** Core::step. c is None in Reference mode and the caches in Fast mode. */
  function Step(isa: Isa, h: Hart, b: Bus, c: Option<Caches>,
      input: Input): (r: (StepResult, Hart, Bus, Option<Caches>))
    requires Fits(h) && CachesReady(c)
    ensures CachesReady(r.3)
  {
    match Core64.Begin(h, input.lines)
    case Idle(h1) => (StepResult(Core64.Waits, h1.pc, 0), h1, b, c)
    case Interrupted(h1, i) => (StepResult(Core64.Interrupted, h1.pc, 0), TakeInterrupt(Rv64, h1, i), b, c)
    case Runs(h1) =>
      var (f, b1, c1) := FetchDecode(isa, b, h1, c);
      match f
      case FetchTrap(cause, value, raw) =>
          (StepResult(Core64.Trapped, h1.pc, raw), TakeTrap(Rv64, h1, cause, h1.pc, value), b1, c1)
      case Got(item) =>
        if !item.decoded.valid then
          (StepResult(Core64.Trapped, h1.pc, item.raw), TakeTrap(Rv64, h1, 2, h1.pc, item.raw), b1, c1)
        else
          var (asked, b2, mmu) := Ask(isa, b1, MmuOf(c1), h1, item);
          var (r, h2) := Conclude(h1, input.time, item, asked);
          (r, h2, b2, Maintain(WithMmu(c1, mmu), h1, item.decoded))
  }

  /* ---- runs ---- */

  /** What happens before a step: RAM is written through the bus, devices change, lines are sampled. */
  datatype Event = Event(dma: map<Phys, nat>, devices: seq<nat>, input: Input)

  function Dma(b: Bus, e: Event): Bus {
    Bus(map p | p in b.ram :: if p in e.dma then e.dma[p] else b.ram[p], b.epoch + |e.dma|, e.devices)
  }

  datatype Seen = Seen(result: StepResult, h: Hart, b: Bus)

  lemma StepFits(isa: Isa, h: Hart, b: Bus, c: Option<Caches>, input: Input)
    requires Fits(h) && CachesReady(c)
    ensures Fits(Step(isa, h, b, c, input).1)
  {
    hide FetchDecode; hide Ask; hide SelectFrom; hide WakeRequested; hide Maintain; hide Core64.Execute; hide TakeTrap;
    hide TakeInterrupt; hide Core64.Retire; hide WithMmu; hide Tlb.Shaped; hide Icache.Shaped;
    match Core64.Begin(h, input.lines)
    case Idle(_) =>
    case Interrupted(h1, i) => TrapFits(h1, 0, 0, i);
    case Runs(h1) =>
      var f := FetchDecode(isa, b, h1, c).0;
      match f
      case FetchTrap(cause, value, _) => TrapFits(h1, cause, value, Selection(0, false));
      case Got(item) =>
        TrapFits(h1, 2, item.raw, Selection(0, false));
        if item.decoded.valid {
          var (_, b1, c1) := FetchDecode(isa, b, h1, c);
          ConcludeFits(h1, input.time, item, Ask(isa, b1, MmuOf(c1), h1, item).0);
        }
  }

  lemma TrapFits(h: Hart, cause: nat, value: nat, i: Selection)
    requires Fits(h)
    ensures Fits(TakeTrap(Rv64, h, cause, h.pc, value)) && Fits(TakeInterrupt(Rv64, h, i))
  {
    hide Sanitize; hide Vector; hide CauseWord;
  }

  lemma ConcludeFits(h: Hart, time: nat, item: Item, asked: Core64.Asked)
    requires Fits(h)
    ensures Fits(Conclude(h, time, item, asked).1)
  {
    hide TakeTrap; hide Core64.Execute; hide Core64.Retire;
    var i := Core64.Instruction(item.raw, item.decoded.rd, asked);
    var o := Core64.Execute(h, time, i);
    TrapFits(h, 0, h.pc, Selection(0, false));
    match o
    case Trap(cause, value) => TrapFits(h, cause, value, Selection(0, false));
    case Done(next, _, _, _, _, _, _) =>
      TrapFits(h, 0, next, Selection(0, false));
      Core64.ExecuteFloat(h, time, i);
      RetireFits(h, i.rd, o);
  }

  lemma RetireFits(h: Hart, rd: nat, o: Core64.Outcome)
    requires Fits(h) && rd < 32 && o.Done? && (o.back.Some? ==> Fits(o.back.value))
    ensures Fits(Core64.Retire(h, rd, o))
  {
    hide WriteCsr; hide FpDirty;
    forall g: Hart, a: nat, v: nat | Fits(g) ensures Fits(WriteCsr(Rv64, g, a, v)) { WriteFits(g, a, v); }
    forall g: Hart | Fits(g) ensures Fits(FpDirty(Rv64, g)) { WriteFits(g, 0, 0); }
  }

  lemma WriteFits(h: Hart, a: nat, v: nat)
    requires Fits(h)
    ensures Fits(WriteCsr(Rv64, h, a, v)) && Fits(FpDirty(Rv64, h))
  {
    hide StatusOf; hide SatpOf; hide TvecOf; hide Even; hide Masked; hide SatpModeKnown; hide High; hide Low;
    hide WithSupervisorView;
    hide Sanitize;
  }

  function Run(isa: Isa, h: Hart, b: Bus, c: Option<Caches>, events: seq<Event>): seq<Seen>
    requires Fits(h) && CachesReady(c)
    decreases |events|
  {
    if events == [] then []
    else
      StepFits(isa, h, Dma(b, events[0]), c, events[0].input);
      var (r, h', b', c') := Step(isa, h, Dma(b, events[0]), c, events[0].input);
      [Seen(r, h', b')] + Run(isa, h', b', c', events[1..])
  }

  function EmptyCaches(): Caches { Caches(Tlb.Empty(), Icache.Empty(Sv39), seq(1024, _ => BlankDecode)) }
}
