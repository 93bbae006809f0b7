/** The RV32 core and its caches as objects that the step updates in place. */
module Machine32 {
  import opened Wrappers
  import opened Address
  import opened Paging
  import opened Hart
  import opened Core32
  import CoreProofs
  import Tlb
  import Icache

  /** InstructionCache: direct mapped, invalidated by a generation and three kinds of epochs. */
  class InstructionCache {
    var lines: seq<Icache.Line<Item>>
    var asidEpochs: seq<nat>
    var pageEpochs: seq<nat>
    var asidPageEpochs: seq<nat>
    var generation: nat

    ghost function View(): Icache.Cache<Item> reads this {
      Icache.Cache(lines, asidEpochs, pageEpochs, asidPageEpochs, generation)
    }

    ghost predicate Valid() reads this { Icache.Shaped(View(), Sv32) }

    constructor ()
      ensures Valid() && View() == Icache.Empty(Sv32)
    {
      var blank := Icache.Line(0, Icache.Key(0, Satp(false, 0, Frame(0, 0, 0)), Machine), 0, 0, 0, None);
      lines := seq(4096, _ => blank);
      asidEpochs, pageEpochs, asidPageEpochs, generation := seq(512, _ => 0), seq(4096, _ => 0), seq(4096, _ => 0), 1;
    }

    method Lookup(key: Icache.Key) returns (r: Option<Item>)
      requires Valid()
      ensures r == Icache.Lookup(View(), Sv32, key)
    {
      hide Icache.LineOf; hide Icache.AsidSlot; hide Icache.PageSlot; hide Icache.AsidPageSlot;
      var page := key.va / 0x1000;
      var line := lines[Icache.LineOf(Sv32, key)];
      if line.generation == generation && line.key == key &&
         line.asidEpoch == asidEpochs[Icache.AsidSlot(Sv32, key.satp.asid)] &&
         line.pageEpoch == pageEpochs[Icache.PageSlot(Sv32, page)] &&
         line.asidPageEpoch == asidPageEpochs[Icache.AsidPageSlot(Sv32, page, key.satp.asid)] {
        return line.item;
      }
      return None;
    }

    method Insert(key: Icache.Key, item: Item)
      requires Valid()
      modifies this`lines
      ensures Valid() && View() == Icache.Insert(old(View()), Sv32, key, item)
    {
      hide Icache.LineOf; hide Icache.AsidSlot; hide Icache.PageSlot; hide Icache.AsidPageSlot;
      var page := key.va / 0x1000;
      lines := lines[Icache.LineOf(Sv32, key) :=
        Icache.Line(generation, key, asidEpochs[Icache.AsidSlot(Sv32, key.satp.asid)],
          pageEpochs[Icache.PageSlot(Sv32, page)],
                    asidPageEpochs[Icache.AsidPageSlot(Sv32, page, key.satp.asid)], Some(item))];
    }

    /** The 64-bit generation wraps to zero only after everything has been blanked. */
    method Clear()
      requires Valid()
      modifies this
      ensures Valid() && View() == Icache.Clear(old(View()), Sv32)
    {
      generation := generation + 1;
      if generation >= 0x1_0000_0000_0000_0000 {
        var blank := Icache.Line(0, Icache.Key(0, Satp(false, 0, Frame(0, 0, 0)), Machine), 0, 0, 0, None);
        lines := seq(4096, _ => blank);
        asidEpochs, pageEpochs, asidPageEpochs, generation := seq(512, _ => 0), seq(4096, _ => 0), seq(4096, _ => 0), 1;
      }
    }

    method SfenceVma(address: Option<nat>, asid: Option<nat>)
      requires Valid()
      modifies this
      ensures Valid() && View() == Icache.Fence(old(View()), Sv32, address, asid)
    {
      hide Icache.Clear; hide Icache.AsidSlot; hide Icache.PageSlot; hide Icache.AsidPageSlot;
      if address.None? && asid.None? {
        Clear();
        return;
      }
      if address.Some? && asid.Some? {
        var i := Icache.AsidPageSlot(Sv32, address.value / 0x1000, asid.value);
        asidPageEpochs := asidPageEpochs[i := asidPageEpochs[i] + 1];
      } else if address.Some? {
        var i := Icache.PageSlot(Sv32, address.value / 0x1000);
        pageEpochs := pageEpochs[i := pageEpochs[i] + 1];
      } else {
        var i := Icache.AsidSlot(Sv32, asid.value);
        asidEpochs := asidEpochs[i := asidEpochs[i] + 1];
      }
    }
  }

  /** The bus that the core writes through. */
  class CpuBus {
    var b: Bus

    constructor (b: Bus)
      ensures this.b == b
    {
      this.b := b;
    }
  }

  class Core {
    const isa: Isa
    const bus: CpuBus
    const lines: InstructionCache
    var state: Hart
    var fast: bool
    var tlb: Tlb.Cache
    var decodes: seq<DecodeLine>

    ghost predicate Valid() reads this, lines { Tlb.Shaped(tlb) && lines.Valid() && |decodes| == 1024 }

    /** The caches as the mode lets the core use them. */
    ghost function View(): Option<Caches> reads this, lines {
      if fast then Some(Caches(tlb, lines.View(), decodes)) else None
    }

    constructor (isa: Isa, bus: CpuBus, state: Hart)
      ensures Valid() && fresh(lines) && this.isa == isa && this.bus == bus && this.state == state && !fast
    {
      this.isa, this.bus, this.state, fast := isa, bus, state, false;
      lines := new InstructionCache();
      tlb := Tlb.Cache(seq(64, _ => Tlb.NoEntry), seq(16, _ => 0));
      decodes := seq(1024, _ => BlankDecode);
    }

    /** set_execution_mode: a change of mode starts with empty caches. */
    method SetExecutionMode(toFast: bool)
      requires Valid()
      modifies this, lines
      ensures Valid() && fast == toFast && state == old(state)
      ensures toFast == old(fast) ==> View() == old(View())
      ensures toFast && !old(fast) ==> View() == Some(EmptyCaches().(lines := Icache.Clear(old(lines.View()), Sv32)))
    {
      hide Icache.Clear;
      if fast == toFast { return; }
      fast := toFast;
      tlb := Tlb.Cache(seq(64, _ => Tlb.NoEntry), seq(16, _ => 0));
      decodes := seq(1024, _ => BlankDecode);
      lines.Clear();
    }

    method TranslateThrough(va: nat, access: Access) returns (t: Translation)
      requires Valid()
      modifies this`tlb, bus
      ensures Valid() && (t, bus.b, MmuOf(View())) == MmuTranslate(old(bus.b), MmuOf(old(View())), state, va, access)
      ensures !fast ==> tlb == old(tlb)
    {
      hide Tlb.CachedTranslate; hide Translate; hide ContextOf;
      var ctx := ContextOf(Rv32, state, access);
      var m;
      if fast {
        var r := Tlb.CachedTranslate(tlb, bus.b.ram, ctx, va, access);
        t, m, tlb := r.0, r.1, r.2;
      } else {
        var r := Translate(bus.b.ram, ctx, va, access);
        t, m := r.0, r.1;
      }
      bus.b := Walked(bus.b, m);
    }

    /** fetch_halfword. */
    method FetchHalfword(va: nat) returns (half: Half)
      requires Valid()
      modifies this`tlb, bus
      ensures Valid() && (half, bus.b, MmuOf(View())) == FetchHalf(old(bus.b), MmuOf(old(View())), state, va)
      ensures !fast ==> tlb == old(tlb)
    {
      hide MmuTranslate; hide BusRead;
      var t := TranslateThrough(va, Fetch);
      match t
      case PageFault => return HalfFault(12, NoFault);
      case AccessFault => return HalfFault(1, Unmapped);
      case Ready(p) =>
        var v := BusRead(bus.b, p, 2);
        if v.None? { return HalfFault(1, Unmapped); }
        return Half(v.value, p);
    }

    /** DecodeCache::decode, or the decoder itself in Reference mode. */
    method DecodeRaw(raw: nat, length: nat) returns (d: Instruction)
      requires Valid()
      modifies this`decodes
      ensures Valid() && (d, View()) == DecodeThrough(isa, old(View()), raw, length)
      ensures !fast ==> decodes == old(decodes)
    {
      hide DecodeSlot; hide Decode;
      if !fast { return Decode(isa, raw, length); }
      var i := DecodeSlot(raw, length);
      var line := decodes[i];
      if line.valid && line.raw == raw && line.length == length { return line.decoded; }
      d := Decode(isa, raw, length);
      decodes := decodes[i := DecodeLine(true, length, raw, d)];
    }

    /** The tail of fetch_decode: decode, and cache what is legal. */
    method FinishFetch(raw: nat, length: nat) returns (f: Fetched)
      requires Valid()
      modifies this`decodes, lines
      ensures Valid() && (f, View()) == Finish(isa, old(View()), state, raw, length)
    {
      hide DecodeThrough; hide Icache.Insert; hide AtPageEnd;
      var d := DecodeRaw(raw, length);
      if d.kind == Illegal { return FetchTrap(2, raw, raw, NoFault); }
      if fast && !AtPageEnd(state.pc) { lines.Insert(KeyOf(state), Item(raw, d)); }
      return Got(Item(raw, d));
    }

    method FetchFromMemory() returns (f: Fetched)
      requires Valid()
      modifies this`tlb, this`decodes, lines, bus
      ensures Valid() && (f, bus.b, View()) == FetchMiss(isa, old(bus.b), state, old(View()))
    {
      hide FetchHalf; hide Finish;
      var first := FetchHalfword(state.pc);
      if first.HalfFault? { return FetchTrap(first.cause, state.pc, 0, first.fault); }
      if first.value % 4 != 3 {
        f := FinishFetch(first.value, 2);
        return;
      }
      var next := Wrap(Rv32, state.pc + 2);
      var second := FetchHalfword(next);
      if second.HalfFault? { return FetchTrap(second.cause, next, first.value, second.fault); }
      f := FinishFetch(first.value + second.value * 0x1_0000, 4);
    }

    /** fetch_decode. */
    method FetchAndDecode() returns (f: Fetched)
      requires Valid()
      modifies this`tlb, this`decodes, lines, bus
      ensures Valid() && (f, bus.b, View()) == FetchDecode(isa, old(bus.b), state, old(View()))
    {
      hide FetchMiss; hide Icache.Lookup; hide AtPageEnd;
      if state.pc % 2 != 0 { return FetchTrap(0, state.pc, 0, Misaligned); }
      if fast && !AtPageEnd(state.pc) {
        var cached := lines.Lookup(KeyOf(state));
        if cached.Some? { return Got(cached.value); }
      }
      f := FetchFromMemory();
    }

    /** The chain of execution units: all of them in turn in Reference mode, only the one that the
        kind names in Fast mode. */
    method Execute(time: nat, d: Instruction) returns (o: Outcome)
      requires Valid()
      modifies this`tlb, bus
      ensures Valid() && (o, bus.b, MmuOf(View()))
                         == if old(View()).None? then RunAll(isa, old(bus.b), Direct, state, time, d)
                            else RunUnit(isa, old(bus.b), MmuOf(old(View())), state, time, d)
      ensures View() == WithMmu(old(View()), MmuOf(View()))
    {
      hide RunInteger; hide RunPrivileged; hide RunControlFlow; hide RunAtomic; hide RunCsr; hide RunMemory;
      hide UnitOf;
      var rs1, rs2, unit := Reg(state, d.rs1), Reg(state, d.rs2), UnitOf(d.kind);
      if unit == Memory { CoreProofs.MemoryExcludes(isa, bus.b, MmuNow(), state, d, rs1, rs2); }
      var reference := !fast;
      o := NotMine;
      if reference || unit == Integer { o := RunInteger(isa, state, d, rs1, rs2); }
      if o.NotMine? && (reference || unit == Privileged) { o := RunPrivileged(state, d); }
      if o.NotMine? && (reference || unit == ControlFlow) { o := RunControlFlow(isa, state, d, rs1, rs2); }
      if o.NotMine? && (reference || unit == Atomic) {
        var r := RunAtomic(isa, bus.b, MmuNow(), state, d, rs1, rs2);
        o, bus.b := r.0, r.1;
        Keep(r.2);
      }
      if o.NotMine? && (reference || unit == Csr) { o := RunCsr(state, time, d, rs1); }
      if o.NotMine? && (reference || unit == Memory) {
        var r := RunMemory(isa, bus.b, MmuNow(), state, d, rs1, rs2);
        o, bus.b := if r.0.NotMine? then Trap(2, d.raw, NoFault) else r.0, r.1;
        Keep(r.2);
      }
    }

    function MmuNow(): (r: Mmu)
      requires Valid()
      reads this, lines
      ensures r == MmuOf(View()) && MmuReady(r)
    {
      if fast then Cached(tlb) else Direct
    }

    method Keep(mmu: Mmu)
      requires Valid() && MmuReady(mmu)
      modifies this`tlb
      ensures Valid() && tlb == if mmu.Cached? then mmu.t else old(tlb)
    {
      if mmu.Cached? { tlb := mmu.t; }
    }

    /** The fences that follow a commit; before is the state that the instruction ran in. */
    method MaintainCaches(before: Hart, d: Instruction)
      requires Valid()
      modifies this`tlb, this`decodes, lines
      ensures Valid() && View() == Maintain(old(View()), before, d)
    {
      hide Tlb.Fence; hide Icache.Fence; hide Icache.Clear; hide FenceAddress; hide FenceAsid;
      if d.kind == SfenceVma {
        var address, asid := FenceAddress(before, d), FenceAsid(before, d);
        tlb := Tlb.Fence(tlb, Sv32, address, asid);
        lines.SfenceVma(address, asid);
      }
      if d.kind == FenceI {
        decodes := seq(1024, _ => BlankDecode);
        lines.Clear();
      }
    }

    /** Core::step. */
    method DoStep(input: Input) returns (r: StepResult)
      requires Valid()
      modifies this, lines, bus
      ensures Valid() && fast == old(fast)
      ensures (r, state, bus.b, View()) == Step(isa, old(state), old(bus.b), old(View()), input)
    {
      hide SelectFrom; hide WakeRequested; hide TakeTrap; hide TakeInterrupt; hide FetchDecode; hide RunAll;
      hide RunUnit; hide Committed; hide Maintain;
      state := Sampled(state.(x := Zeroed(state.x)), input.lines);
      if state.waiting {
        if !WakeRequested(state) { return StepResult(WaitingForInterrupt, state.pc, 0, 0, NoFault, state.cycle, None); }
        state := state.(waiting := false);
      }
      assert state == state.(waiting := false);
      var interrupt := SelectFrom(state, PriorityOrder);
      if interrupt.Some? {
        r := StepResult(TrapTaken, state.pc, 0, 0, NoFault, state.cycle, None);
        state := TakeInterrupt(Rv32, state, interrupt.value);
        return;
      }
      var fetched := FetchAndDecode();
      if fetched.FetchTrap? {
        r := StepResult(TrapTaken, state.pc, fetched.raw, fetched.value, fetched.fault, state.cycle, None);
        state := TakeTrap(Rv32, state, fetched.cause, state.pc, fetched.value);
        return;
      }
      var item := fetched.item;
      var o := Execute(input.time, item.decoded);
      if o.Trap? {
        r := StepResult(TrapTaken, state.pc, item.raw, o.value, o.fault, state.cycle, None);
        state := TakeTrap(Rv32, state, o.cause, state.pc, o.value);
        return;
      }
      var committed := if o.NotMine? then None else Committed(state, o.c);
      if committed.None? { return StepResult(CoreNotImplemented, state.pc, item.raw, item.raw, NoFault, state.cycle,
          None); }
      var before := state;
      state := committed.value;
      MaintainCaches(before, item.decoded);
      return StepResult(if state.waiting then WaitingForInterrupt else Retired, before.pc, item.raw, 0, NoFault,
        state.cycle,
                        Some(Trace(before.privilege, o.c.pc, item.raw, state.pc, item.decoded.length,
                                   if o.c.reg.Some? && o.c.reg.value.0 != 0 then o.c.reg else None)));
    }

    method AdvanceCycles(cycles: nat)
      modifies this`state
      ensures state == old(state).(cycle := (old(state).cycle + cycles) % 0x1_0000_0000_0000_0000)
    {
      state := state.(cycle := (state.cycle + cycles) % 0x1_0000_0000_0000_0000);
    }
  }
}
