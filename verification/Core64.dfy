/** The RV64 core around its instructions: what a step does with whatever the fetched
    instruction asks for, and what every step keeps. */
module Core64 {
  import opened Wrappers
  import opened Address
  import opened Paging
  import opened Hart
  import opened HartProofs
  import Core32
  import LegalSteps
  import Bits

  datatype CsrUse = Swap | SetBits | ClearBits

  /** What fetching, decoding and computing an instruction asks for. A step may be asked for
      anything: the results below hold for every decoder, every ALU and every memory. */
  datatype Asked =
    | Fault(cause: nat, value: nat)                                       // fetch, translation, bus, ECALL, EBREAK
    | Compute(next: nat, reg: Option<nat>)                                // integer, branch, load, store, atomic, fence
    | Float(next: nat, reg: Option<nat>, freg: Option<nat>, flags: nat)   // any floating-point instruction
    | Csr(next: nat, use: CsrUse, csr: nat, source: nat, writes: bool)
    | MretAsked | SretAsked
    | WfiAsked(next: nat)
    | SfenceAsked(next: nat)

  /** An instruction: its encoding, its destination and what it asks for. */
  datatype Instruction = Instruction(raw: nat, rd: nat, asked: Asked)

  predicate Encodable(i: Instruction) { i.rd < 32 }

  /** What is left to commit once nothing can trap but an odd next pc. */
  datatype Outcome =
    | Trap(cause: nat, value: nat)
    | Done(next: nat, reg: Option<nat>, freg: Option<nat>, flags: nat, csr: Option<(nat, nat)>, back: Option<Hart>,
      wait: bool)

  function Simple(next: nat, reg: Option<nat>): Outcome { Done(next, reg, None, 0, None, None, false) }

  function ExecuteCsr(h: Hart, time: nat, i: Instruction): Outcome
    requires i.asked.Csr?
  {
    var a := i.asked;
    var looks := a.use != Swap || i.rd != 0;
    if a.writes && ValidateWrite(Rv64, h, a.csr, h.privilege) != CsrReady then Trap(2, i.raw)
    else if looks && ValidateRead(Rv64, h, a.csr, h.privilege) != CsrReady then Trap(2, i.raw)
    else
      var was := if looks then ReadCsr(Rv64, h, time, a.csr) else 0;
      var now := match a.use
        case Swap => a.source
        case SetBits => Bits.Or(ReadForWrite(Rv64, h, a.csr, was), a.source, 64)
        case ClearBits => Bits.AndNot(ReadForWrite(Rv64, h, a.csr, was), a.source, 64);
      Done(a.next, Some(was), None, 0, if a.writes then Some((a.csr, now)) else None, None, false)
  }

  function Execute(h: Hart, time: nat, i: Instruction): Outcome {
    var illegal := Trap(2, i.raw);
    match i.asked
    case Fault(cause, value) => Trap(cause, value)
    case Compute(next, reg) => Simple(next, reg)
    case Float(next, reg, freg, flags) =>
      if h.status.fs == Off then illegal else Done(next, reg, freg, flags, None, None, false)
    case Csr(_, _, _, _, _) => ExecuteCsr(h, time, i)
    case MretAsked => if MretAllowed(h) then Simple(h.mepc, None).(back := Some(Mret(Rv64, h))) else illegal
    case SretAsked => if SretAllowed(h) then Simple(h.sepc, None).(back := Some(Sret(Rv64, h))) else illegal
    case WfiAsked(next) => if WfiAllowed(h) then Simple(next, None).(wait := true) else illegal
    case SfenceAsked(next) => if SfenceAllowed(h) then Simple(next, None) else illegal
  }

  function PutRegister(h: Hart, rd: nat, v: Option<nat>): Hart
    requires rd < |h.x|
  {
    if v.Some? && rd != 0 then h.(x := h.x[rd := v.value]) else h
  }

  function PutFloat(h: Hart, rd: nat, v: Option<nat>): Hart
    requires rd < |h.f|
  {
    if v.Some? then FpDirty(Rv64, h.(f := h.f[rd := v.value])) else h
  }

  function RaiseFlags(h: Hart, flags: nat): Hart {
    if flags != 0 then FpDirty(Rv64, h.(fcsr := Bits.Or(h.fcsr, flags, 8))) else h
  }

  function Advance(h: Hart, next: nat, wait: bool): Hart {
    h.(x := Zeroed(h.x), pc := next, retired := (h.retired + 1) % 0x1_0000_0000_0000_0000, waiting := wait)
  }

  /** Registers first, then the floating-point state, which becomes dirty, then pc, then the CSR. */
  function Retire(h: Hart, rd: nat, o: Outcome): Hart
    requires o.Done? && rd < |h.x| && rd < |h.f| &&
        (o.back.Some? ==> |o.back.value.x| == |h.x| && |o.back.value.f| == |h.f|)
  {
    var h0 := if o.back.Some? then o.back.value else h;
    var h3 := RaiseFlags(PutFloat(PutRegister(h0, rd, o.reg), rd, o.freg), o.flags);
    var h4 := Advance(h3, o.next, o.wait);
    if o.csr.Some? then WriteCsr(Rv64, h4, o.csr.value.0, o.csr.value.1) else h4
  }

  datatype Ending = Waits | Interrupted | Trapped | Retired

  /** Core::step from the point where the instruction is known. */
  function Complete(h: Hart, time: nat, i: Instruction): (Ending, Hart)
    requires |h.x| == 32 && |h.f| == 32 && Encodable(i)
  {
    if h.pc % 2 != 0 then (Trapped, TakeTrap(Rv64, h, 0, h.pc, h.pc))
    else
      match Execute(h, time, i)
      case Trap(cause, value) => (Trapped, TakeTrap(Rv64, h, cause, h.pc, value))
      case Done(next, reg, freg, flags, csr, back, wait) =>
        if next % 2 != 0 then (Trapped, TakeTrap(Rv64, h, 0, h.pc, next))
        else (Retired, Retire(h, i.rd, Done(next, reg, freg, flags, csr, back, wait)))
  }

  function Begin(h: Hart, lines: set<nat>): Core32.Begun {
    Core32.Begin(h.(cycle := (h.cycle + 1) % 0x1_0000_0000_0000_0000), lines)
  }

  /** One step: interrupts come first, then whatever instruction was fetched. */
  datatype Event = Event(lines: set<nat>, time: nat, instruction: Instruction)

  predicate Fits(h: Hart, e: Event) { |h.x| == 32 && |h.f| == 32 && Encodable(e.instruction) }

  function Step(h: Hart, e: Event): (Ending, Hart)
    requires Fits(h, e)
  {
    match Begin(h, e.lines)
    case Idle(h1) => (Waits, h1)
    case Interrupted(h1, i) => (Interrupted, TakeInterrupt(Rv64, h1, i))
    case Runs(h1) => Complete(h1, e.time, e.instruction)
  }

  /* ---- legal states ---- */

  lemma DirtyLegal(h: Hart, f: seq<nat>, fcsr: nat)
    requires Legal(Rv64, h) && |f| == 32
    ensures Legal(Rv64, FpDirty(Rv64, h.(f := f, fcsr := fcsr)))
  {
    hide LegalSatp; hide IsEven; hide LegalTvec; hide Only;
  }

  lemma PutLegal(h: Hart, rd: nat, v: Option<nat>)
    requires Legal(Rv64, h) && rd < 32
    ensures Legal(Rv64, PutRegister(h, rd, v)) && Legal(Rv64, PutFloat(h, rd, v))
  {
    hide LegalSatp; hide IsEven; hide LegalTvec; hide Only; hide LegalStatus; hide FpDirty;
    DirtyLegal(h, if v.Some? then h.f[rd := v.value] else h.f, h.fcsr);
  }

  lemma FlagsLegal(h: Hart, flags: nat)
    requires Legal(Rv64, h)
    ensures Legal(Rv64, RaiseFlags(h, flags))
  {
    hide LegalSatp; hide IsEven; hide LegalTvec; hide Only; hide LegalStatus; hide FpDirty; hide Bits.Or;
    DirtyLegal(h, h.f, Bits.Or(h.fcsr, flags, 8));
  }

  lemma AdvanceLegal(h: Hart, next: nat, wait: bool)
    requires Legal(Rv64, h) && IsEven(next)
    ensures Legal(Rv64, Advance(h, next, wait))
  {
    hide LegalSatp; hide IsEven; hide LegalTvec; hide Only; hide LegalStatus;
  }

  lemma RetireLegal(h: Hart, rd: nat, o: Outcome)
    requires Legal(Rv64, h) && o.Done? && rd < 32 && (o.back.Some? ==> Legal(Rv64, o.back.value)) && IsEven(o.next)
    ensures |h.x| == 32 && |h.f| == 32 && (o.back.Some? ==> |o.back.value.x| == 32 && |o.back.value.f| == 32)
    ensures Legal(Rv64, Retire(h, rd, o))
  {
    hide Legal; hide WriteCsr; hide PutRegister; hide PutFloat; hide RaiseFlags; hide Advance; hide IsEven;
    var h0 := if o.back.Some? then o.back.value else h;
    LegalShape(h);
    LegalShape(h0);
    var h1 := PutRegister(h0, rd, o.reg);
    PutLegal(h0, rd, o.reg);
    LegalShape(h1);
    var h2 := PutFloat(h1, rd, o.freg);
    PutLegal(h1, rd, o.freg);
    FlagsLegal(h2, o.flags);
    var h4 := Advance(RaiseFlags(h2, o.flags), o.next, o.wait);
    AdvanceLegal(RaiseFlags(h2, o.flags), o.next, o.wait);
    if o.csr.Some? { WriteLegal(Rv64, h4, o.csr.value.0, o.csr.value.1); }
  }

  /** Returns come back to legal states of the same shape; nothing else comes back at all. */
  lemma ExecuteLegal(h: Hart, time: nat, i: Instruction)
    requires Legal(Rv64, h)
    ensures var o := Execute(h, time, i); o.Done? && o.back.Some? ==> Legal(Rv64, o.back.value)
  {
    hide Legal; hide Mret; hide Sret; hide ExecuteCsr;
    ReturnLegal(Rv64, h);
    CsrStays(h, time, i);
  }

  lemma CsrStays(h: Hart, time: nat, i: Instruction)
    ensures i.asked.Csr? && ExecuteCsr(h, time, i).Done? ==> ExecuteCsr(h, time, i).back.None?
  {
    hide ValidateWrite; hide ValidateRead; hide ReadCsr; hide ReadForWrite;
  }

  /** Every step keeps x0 zero, the program counters even and every WARL field legal. */
  lemma StepLegal(h: Hart, e: Event)
    requires Legal(Rv64, h) && Encodable(e.instruction)
    ensures |h.x| == 32 && |h.f| == 32 && Legal(Rv64, Step(h, e).1)
  {
    hide Legal; hide TakeTrap; hide TakeInterrupt; hide Execute; hide Retire; hide Core32.Begin; hide Complete;
    LegalShape(h);
    BeginLegal(h, e.lines);
    var begun := Begin(h, e.lines);
    LegalShape(begun.h);
    match begun
    case Idle(_) =>
    case Interrupted(h1, i) => TrapLegal(Rv64, h1, 0, 0, 0, i);
    case Runs(h1) => CompleteLegal(h1, e.time, e.instruction);
  }

  lemma BeginLegal(h: Hart, lines: set<nat>)
    requires Legal(Rv64, h)
    ensures Legal(Rv64, Begin(h, lines).h)
  {
    hide LegalSatp; hide IsEven; hide LegalTvec; hide Only; hide LegalStatus; hide Core32.Begin;
    LegalSteps.BeginLegal(Rv64, h.(cycle := (h.cycle + 1) % 0x1_0000_0000_0000_0000), lines);
  }

  lemma CompleteLegal(h: Hart, time: nat, i: Instruction)
    requires Legal(Rv64, h) && Encodable(i)
    ensures |h.x| == 32 && |h.f| == 32 && Legal(Rv64, Complete(h, time, i).1)
  {
    hide Legal; hide TakeTrap; hide TakeInterrupt; hide Execute; hide Retire; hide IsEven;
    LegalShape(h);
    ExecuteLegal(h, time, i);
    var o := Execute(h, time, i);
    var any := Selection(0, false);
    TrapLegal(Rv64, h, 0, h.pc, h.pc, any);
    match o
    case Trap(cause, value) => TrapLegal(Rv64, h, cause, h.pc, value, any);
    case Done(next, _, _, _, _, _, _) =>
      TrapLegal(Rv64, h, 0, h.pc, next, any);
      if next % 2 == 0 {
        EvenNext(next);
        RetireLegal(h, i.rd, o);
      }
  }

  lemma EvenNext(next: nat)
    requires next % 2 == 0
    ensures IsEven(next)
  {}

  lemma LegalShape(h: Hart)
    requires Legal(Rv64, h)
    ensures |h.x| == 32 && |h.f| == 32
  {}

  /* ---- the floating-point state ---- */

  predicate SameFloat(h: Hart, h': Hart) { h'.f == h.f && h'.fcsr == h.fcsr }

  lemma TrapSameFloat(h: Hart, cause: nat, pc: nat, value: nat, i: Selection)
    ensures SameFloat(h, TakeTrap(Rv64, h, cause, pc, value)) && SameFloat(h, TakeInterrupt(Rv64, h, i))
    ensures TakeTrap(Rv64, h, cause, pc, value).retired == h.retired
  {
    hide Vector; hide CauseWord; hide Sanitize; hide Even;
  }

  lemma CsrKeepsFloat(h: Hart, a: nat, value: nat)
    ensures IsFloating(Rv64, a) ==> WriteCsr(Rv64, h, a, value).status.fs == Dirty
    ensures !IsFloating(Rv64, a) ==> SameFloat(h, WriteCsr(Rv64, h, a, value))
  {
    hide Bits.SetOf; hide StatusOf; hide SatpOf; hide TvecOf; hide Even; hide Masked; hide SatpModeKnown; hide High;
    hide Low;
    hide WithSupervisorView; hide IsWritable; hide WriteFloating;
    FloatingIs(h, a, value);
  }

  lemma PutRegisterSameFloat(h: Hart, rd: nat, v: Option<nat>)
    requires rd < |h.x|
    ensures SameFloat(h, PutRegister(h, rd, v)) && PutRegister(h, rd, v).status == h.status
  {}

  lemma AdvanceSameFloat(h: Hart, next: nat, wait: bool)
    ensures SameFloat(h, Advance(h, next, wait)) && Advance(h, next, wait).status == h.status
  {}

  /** Only an instruction that FS lets run and that is about floating point touches the state. */
  predicate TouchesFloat(o: Outcome) {
    o.Done? && (o.freg.Some? || o.flags != 0 || (o.csr.Some? && IsFloating(Rv64, o.csr.value.0)))
  }

  lemma RetireFloat(h: Hart, rd: nat, o: Outcome)
    requires o.Done? && rd < |h.x| && rd < |h.f| &&
        (o.back.Some? ==> |o.back.value.x| == |h.x| && |o.back.value.f| == |h.f|)
    requires o.back.Some? ==> SameFloat(h, o.back.value)
    requires o.csr.Some? ==> o.freg.None? && o.flags == 0
    ensures if TouchesFloat(o) then Retire(h, rd, o).status.fs == Dirty else SameFloat(h, Retire(h, rd, o))
  {
    hide WriteCsr; hide IsFloating; hide Bits.Or; hide PutRegister; hide Advance;
    var h0 := if o.back.Some? then o.back.value else h;
    PutRegisterSameFloat(h0, rd, o.reg);
    var h3 := RaiseFlags(PutFloat(PutRegister(h0, rd, o.reg), rd, o.freg), o.flags);
    AdvanceSameFloat(h3, o.next, o.wait);
    if o.csr.Some? { CsrKeepsFloat(Advance(h3, o.next, o.wait), o.csr.value.0, o.csr.value.1); }
  }

  lemma ExecuteFloat(h: Hart, time: nat, i: Instruction)
    ensures var o := Execute(h, time, i);
            (o.Done? && o.back.Some? ==>
              SameFloat(h, o.back.value) && |o.back.value.x| == |h.x| && |o.back.value.f| == |h.f|) &&
            (o.Done? && o.csr.Some? ==> o.freg.None? && o.flags == 0) && (TouchesFloat(o) ==> h.status.fs != Off)
  {
    hide ValidateRead; hide ReadCsr; hide ReadForWrite; hide Sanitize; hide MretStatus; hide SretStatus;
    hide IsFloating; hide Bits.Or; hide Bits.AndNot;
    hide IsWritable; hide IsCounter; hide IsIdentity; hide PrivilegeCovers; hide SatpTrapped;
  }

  /** A step that changes the floating-point state ends with FS Dirty, so with SD set; and it
      cannot happen while FS is Off, whatever the instruction asks for. */
  lemma FloatChangesAreDirty(h: Hart, e: Event)
    requires Fits(h, e) && !SameFloat(h, Step(h, e).1)
    ensures Step(h, e).1.status.fs == Dirty && StatusBit(Rv64, Step(h, e).1.status, 63)
    ensures h.status.fs != Off && Step(h, e).0 == Retired
  {
    hide TakeTrap; hide TakeInterrupt; hide Execute; hide Retire; hide SelectFrom; hide WakeRequested;
    match Begin(h, e.lines)
    case Idle(_) =>
    case Interrupted(h1, i) => TrapSameFloat(h1, 0, 0, 0, i);
    case Runs(h1) =>
      var any := Selection(0, false);
      TrapSameFloat(h1, 0, h1.pc, h1.pc, any);
      ExecuteFloat(h1, e.time, e.instruction);
      var o := Execute(h1, e.time, e.instruction);
      match o
      case Trap(cause, value) => TrapSameFloat(h1, cause, h1.pc, value, any);
      case Done(next, _, _, _, _, _, _) =>
        TrapSameFloat(h1, 0, h1.pc, next, any);
        RetireFloat(h1, e.instruction.rd, o);
  }

  /* ---- runs ---- */

  function Run(h: Hart, events: seq<Event>): seq<Hart>
    requires Legal(Rv64, h) && forall e :: e in events ==> Encodable(e.instruction)
    decreases |events|
  {
    if events == [] then []
    else
      StepLegal(h, events[0]);
      var h' := Step(h, events[0]).1;
      [h'] + Run(h', events[1..])
  }

  /** Every state of every run from a legal one is legal: x0 zero, even program counters, legal tvec,
      satp, delegation, enables and counters. */
  lemma {:induction false} RunLegal(h: Hart, events: seq<Event>)
    requires Legal(Rv64, h) && forall e :: e in events ==> Encodable(e.instruction)
    ensures |Run(h, events)| == |events| && forall s :: s in Run(h, events) ==> Legal(Rv64, s)
    decreases |events|
  {
    hide Step; hide Legal; hide Encodable;
    LegalShape(h);
    if events != [] {
      StepLegal(h, events[0]);
      LegalShape(Step(h, events[0]).1);
      RunLegal(Step(h, events[0]).1, events[1..]);
    }
  }
}
