/** What one RV64 step leaves of what its instruction asks for. */
module InstructionEffects64 {
  import opened Wrappers
  import opened Paging
  import opened Hart
  import opened HartProofs
  import opened Core64
  import Fast64
  import CsrRules
  import TrapRules
  import Bits

  /** rd holds the result if there is one, the next pc is this one, one more has retired, all else is the same. */
  function Stepped(h: Hart, rd: nat, v: Option<nat>, next: nat): Hart
    requires |h.x| == 32 && rd < 32
  {
    h.(x := if v.Some? && rd != 0 then h.x[rd := v.value] else h.x, pc := next, waiting := false,
       retired := (h.retired + 1) % 0x1_0000_0000_0000_0000)
  }

  predicate Traps(h: Hart, r: (Ending, Hart), cause: nat, value: nat) {
    r == (Trapped, TakeTrap(Rv64, h, cause, h.pc, value))
  }

  /** An odd next pc traps on it; else the instruction retires with this state. */
  predicate GoesTo(h: Hart, r: (Ending, Hart), next: nat, h': Hart) {
    if next % 2 != 0 then Traps(h, r, 0, next) else r == (Retired, h')
  }

  lemma Shape(h: Hart)
    requires Legal(Rv64, h)
    ensures |h.x| == 32 && |h.f| == 32 && h.x[0] == 0 && h.pc % 2 == 0 && h.mepc % 2 == 0 && h.sepc % 2 == 0
  {
    hide LegalStatus; hide LegalSatp; hide LegalTvec; hide Only;
  }

  lemma StillZero(h: Hart, rd: nat, v: Option<nat>)
    requires |h.x| == 32 && h.x[0] == 0 && rd < 32
    ensures Zeroed(h.x) == h.x && (v.Some? && rd != 0 ==> Zeroed(h.x[rd := v.value]) == h.x[rd := v.value])
  {}

  /** Faults trap as they are; integer results go to rd; WFI and SFENCE.VMA are illegal in user mode, and in supervisor
      mode when TW or TVM is set. */
  lemma PlainEffect(h: Hart, time: nat, i: Instruction)
    requires Legal(Rv64, h) && Encodable(i)
    ensures |h.x| == 32 && |h.f| == 32 &&
            var r := Complete(h, time, i);
            match i.asked
            case Fault(cause, value) => Traps(h, r, cause, value)
            case Compute(next, reg) => GoesTo(h, r, next, Stepped(h, i.rd, reg, next))
            case WfiAsked(next) =>
              if h.privilege == Machine || (h.privilege == Supervisor && !h.status.tw) then
                GoesTo(h, r, next, Stepped(h, 0, None, next).(waiting := true))
              else Traps(h, r, 2, i.raw)
            case SfenceAsked(next) =>
              if h.privilege == Machine || (h.privilege == Supervisor && !h.status.tvm) then
                GoesTo(h, r, next, Stepped(h, 0, None, next))
              else Traps(h, r, 2, i.raw)
            case _ => true
  {
    hide TakeTrap; hide ExecuteCsr; hide Mret; hide Sret; hide Legal; hide Zeroed; hide RaiseFlags; hide WriteCsr;
    Shape(h);
    StillZero(h, i.rd, if i.asked.Compute? then i.asked.reg else None);
    NoFlags(h, i.rd, if i.asked.Compute? then i.asked.reg else None);
    NoFlags(h, 0, None);
  }

  lemma NoFlags(h: Hart, rd: nat, v: Option<nat>)
    requires |h.x| == 32 && |h.f| == 32 && rd < 32
    ensures RaiseFlags(PutRegister(h, rd, v), 0) == PutRegister(h, rd, v)
  {}

  /** A return is illegal below its privilege, SRET in supervisor mode when TSR is set; else it is the return that
      TrapRules describes, and one more has retired. */
  lemma ReturnEffect(h: Hart, time: nat, i: Instruction)
    requires Legal(Rv64, h) && Encodable(i)
    ensures |h.x| == 32 && |h.f| == 32 &&
            var r := Complete(h, time, i);
            (i.asked.MretAsked? ==>
               if h.privilege == Machine then
                 r == (Retired, Mret(Rv64, h).(retired := (h.retired + 1) % 0x1_0000_0000_0000_0000, waiting := false))
               else Traps(h, r, 2, i.raw)) &&
            (i.asked.SretAsked? ==>
               if h.privilege == Machine || (h.privilege == Supervisor && !h.status.tsr) then
                 r == (Retired, Sret(Rv64, h).(retired := (h.retired + 1) % 0x1_0000_0000_0000_0000, waiting := false))
               else Traps(h, r, 2, i.raw))
  {
    hide TakeTrap; hide ExecuteCsr; hide Legal; hide Zeroed; hide RaiseFlags; hide WriteCsr; hide Sanitize;
    Shape(h);
    StillZero(h, 0, None);
    NoFlags(Mret(Rv64, h), i.rd, None);
    NoFlags(Sret(Rv64, h), i.rd, None);
  }

  /** A floating-point instruction is illegal while FS is Off. It puts its results, adds its exception flags to fcsr,
      and makes FS Dirty when it wrote either a floating register or a flag. */
  lemma FloatEffect(h: Hart, time: nat, i: Instruction)
    requires Legal(Rv64, h) && Encodable(i) && i.asked.Float?
    ensures |h.x| == 32 && |h.f| == 32 &&
            var r, a := Complete(h, time, i), i.asked;
            if h.status.fs == Off then Traps(h, r, 2, i.raw)
            else if a.next % 2 != 0 then Traps(h, r, 0, a.next)
            else
              var dirty := a.freg.Some? || a.flags != 0;
              r.0 == Retired &&
              r.1 == Stepped(h, i.rd, a.reg, a.next).(f := if a.freg.Some? then h.f[i.rd := a.freg.value] else h.f,
                fcsr := r.1.fcsr, status := if dirty then h.status.(fs := Dirty) else h.status) &&
              (a.flags == 0 ==> r.1.fcsr == h.fcsr) &&
              forall k: nat :: k < 8 && a.flags != 0 ==>
                (CsrRules.On(r.1.fcsr, k) <==> CsrRules.On(h.fcsr, k) || CsrRules.On(a.flags, k))
  {
    hide TakeTrap; hide ExecuteCsr; hide Legal; hide Zeroed; hide WriteCsr; hide Bits.Or; hide CsrRules.On;
    Shape(h);
    StillZero(h, i.rd, i.asked.reg);
    forall k: nat | k < 8
      ensures CsrRules.On(Bits.Or(h.fcsr, i.asked.flags, 8), k) <==>
          CsrRules.On(h.fcsr, k) || CsrRules.On(i.asked.flags, k) {
      CsrRules.OrIs(h.fcsr, i.asked.flags, 8, k);
    }
  }

  /** A swap reads unless rd is x0. */
  predicate Reads(i: Instruction)
    requires i.asked.Csr?
  {
    i.asked.use != Swap || i.rd != 0
  }

  /** The value written: the operand, or what is there with the operand's bits set or cleared. */
  ghost predicate IsModified(h: Hart, i: Instruction, was: nat, now: nat)
    requires i.asked.Csr?
  {
    var a, base := i.asked, ReadForWrite(Rv64, h, i.asked.csr, was);
    if a.use == Swap then now == a.source
    else forall k: nat :: k < 64 ==>
      (CsrRules.On(now, k) <==>
         if a.use == SetBits then CsrRules.On(base, k) || CsrRules.On(a.source, k)
         else CsrRules.On(base, k) && !CsrRules.On(a.source, k))
  }

  ghost predicate Writes(h: Hart, i: Instruction, was: nat, before: Hart, h': Hart)
    requires i.asked.Csr?
  {
    exists now :: IsModified(h, i, was, now) && h' == WriteCsr(Rv64, before, i.asked.csr, now)
  }

  lemma ModifiedIs(h: Hart, i: Instruction, was: nat)
    requires i.asked.Csr?
    ensures var a, base := i.asked, ReadForWrite(Rv64, h, i.asked.csr, was);
            IsModified(h, i, was, match a.use case Swap => a.source case SetBits => Bits.Or(base, a.source, 64)
                                  case ClearBits => Bits.AndNot(base, a.source, 64))
  {
    hide ReadForWrite; hide CsrRules.On; hide Bits.Or; hide Bits.AndNot;
    var base, source := ReadForWrite(Rv64, h, i.asked.csr, was), i.asked.source;
    forall k: nat | k < 64
      ensures CsrRules.On(Bits.Or(base, source, 64), k) <==> CsrRules.On(base, k) || CsrRules.On(source, k)
      ensures CsrRules.On(Bits.AndNot(base, source, 64), k) <==> CsrRules.On(base, k) && !CsrRules.On(source, k) {
      CsrRules.OrIs(base, source, 64, k);
      CsrRules.AndNotIs(base, source, 64, k);
    }
  }

  /** A CSR instruction is illegal if the write or the read that it makes is refused; else rd holds what was read and
      the CSR is written, if it is, after everything else. */
  lemma CsrEffect(h: Hart, time: nat, i: Instruction)
    requires Legal(Rv64, h) && Encodable(i) && i.asked.Csr? && i.asked.next % 2 == 0
    ensures |h.x| == 32 && |h.f| == 32 &&
            var r, a := Complete(h, time, i), i.asked;
            if (a.writes && ValidateWrite(Rv64, h, a.csr, h.privilege) != CsrReady) ||
               (Reads(i) && ValidateRead(Rv64, h, a.csr, h.privilege) != CsrReady) then Traps(h, r, 2, i.raw)
            else
              var was := if Reads(i) then ReadCsr(Rv64, h, time, a.csr) else 0;
              var before := Stepped(h, i.rd, Some(was), a.next);
              r.0 == Retired && if a.writes then Writes(h, i, was, before, r.1) else r.1 == before
  {
    hide TakeTrap; hide Legal; hide Zeroed; hide WriteCsr; hide ReadCsr; hide ReadForWrite; hide ValidateRead;
    hide ValidateWrite; hide IsModified; hide RaiseFlags; hide Bits.Or; hide Bits.AndNot;
    Shape(h);
    var was := if Reads(i) then ReadCsr(Rv64, h, time, i.asked.csr) else 0;
    StillZero(h, i.rd, Some(was));
    NoFlags(h, i.rd, Some(was));
    ModifiedIs(h, i, was);
  }

  /* ---- fetch and data access, without caches ---- */

  /** A halfword fetched at va: its 16 bits and where it was read, or a page or access fault. */
  predicate IsHalf(isa: Fast64.Isa, b: Fast64.Bus, h: Hart, va: nat, half: Fast64.Half, b': Fast64.Bus) {
    var (to, b1, _) := Fast64.MmuTranslate(b, Fast64.Direct, h, va, Fetch);
    match to
    case PageFault => half == Fast64.HalfFault(12) && b' == b1
    case AccessFault => half == Fast64.HalfFault(1) && b' == b1
    case Ready(p) =>
      var (v, b2) := isa.read(b1, p);
      b' == b2 && half == if v.Some? then Fast64.Half(v.value % 0x1_0000, p) else Fast64.HalfFault(1)
  }

  /** Two low bits set in the first halfword mean a second one, at the next halfword, above it. Faults report the
      address of their half, and the second one the bits of the first. */
  lemma FetchEffect(isa: Fast64.Isa, b: Fast64.Bus, h: Hart)
    ensures var (f, b', _) := Fast64.FetchDecode(isa, b, h, None);
            if h.pc % 2 != 0 then f == Fast64.FetchTrap(0, h.pc, 0) && b' == b
            else
              exists low, b1 :: IsHalf(isa, b, h, h.pc, low, b1) &&
                if low.HalfFault? then f == Fast64.FetchTrap(low.cause, h.pc, 0) && b' == b1
                else if low.value % 4 != 3 then
                  f == Fast64.Got(Fast64.Item(low.value, isa.decode(low.value, 2))) && b' == b1
                else SecondHalf(isa, b1, h, low.value, f, b')
  {
    hide Fast64.MmuTranslate; hide Wrap; hide Fast64.FetchHalf; hide IsHalf;
    var (low, b1, _) := Fast64.FetchHalf(isa, b, Fast64.Direct, h, h.pc);
    HalfIs(isa, b, h, h.pc);
    var next := (h.pc + 2) % 0x1_0000_0000_0000_0000;
    assert Wrap(Rv64, h.pc + 2) == next by { WrapIs(h.pc + 2); }
    var (high, b2, _) := Fast64.FetchHalf(isa, b1, Fast64.Direct, h, next);
    HalfIs(isa, b1, h, next);
    assert IsHalf(isa, b, h, h.pc, low, b1) && IsHalf(isa, b1, h, next, high, b2);
  }

  lemma HalfIs(isa: Fast64.Isa, b: Fast64.Bus, h: Hart, va: nat)
    ensures var (half, b', mmu) := Fast64.FetchHalf(isa, b, Fast64.Direct, h, va);
            IsHalf(isa, b, h, va, half, b') && mmu == Fast64.Direct
  {
    hide Translate;
    var (to, b1, mm) := Fast64.MmuTranslate(b, Fast64.Direct, h, va, Fetch);
    var (_, b', _) := Fast64.FetchHalf(isa, b, Fast64.Direct, h, va);
    assert mm == Fast64.Direct && (!to.Ready? ==> b' == b1) && (to.Ready? ==> b' == isa.read(b1, to.address).1);
  }

  lemma WrapIs(v: nat)
    ensures Wrap(Rv64, v) == v % 0x1_0000_0000_0000_0000
  {}

  ghost predicate SecondHalf(isa: Fast64.Isa, b: Fast64.Bus, h: Hart, low: nat, f: Fast64.Fetched, b': Fast64.Bus) {
    var next := (h.pc + 2) % 0x1_0000_0000_0000_0000;
    exists high :: IsHalf(isa, b, h, next, high, b') &&
      if high.HalfFault? then f == Fast64.FetchTrap(high.cause, next, low)
      else
        var raw := low + 0x1_0000 * high.value;
        f == Fast64.Got(Fast64.Item(raw, isa.decode(raw, 4)))
  }

  /** An instruction that accesses memory asks for what it does at the translated address, or for its page or access
      fault; one that does not leaves the bus alone. */
  lemma AskEffect(isa: Fast64.Isa, b: Fast64.Bus, h: Hart, item: Fast64.Item)
    ensures var (asked, b', _) := Fast64.Ask(isa, b, Fast64.Direct, h, item);
            match isa.access(h, item.raw, item.decoded)
            case None => asked == isa.plain(h, item.raw, item.decoded) && b' == b
            case Some(a) =>
              var (to, b1, _) := Fast64.MmuTranslate(b, Fast64.Direct, h, a.0, a.1);
              if to.Ready? then (asked, b') == isa.perform(b1, h, item.raw, item.decoded, to.address)
              else asked == isa.failed(h, item.raw, item.decoded, to.PageFault?) && b' == b1
  {
    hide Fast64.MmuTranslate;
  }

  /** A step without caches begins as TrapRules says, traps what was not fetched, traps invalid bits with cause 2 and
      the bits as value, and else completes what was asked for. */
  lemma StepEffect(isa: Fast64.Isa, h: Hart, b: Fast64.Bus, input: Fast64.Input)
    requires Fast64.Fits(h) && Begin(h, input.lines).Runs?
    ensures var g := Begin(h, input.lines).h;
            var (f, b1, _) := Fast64.FetchDecode(isa, b, g, None);
            var (r, h', b', _) := Fast64.Step(isa, h, b, None, input);
            r.pc == g.pc && |g.x| == 32 && |g.f| == 32 &&
            match f
            case FetchTrap(cause, value, raw) =>
              Traps(g, (r.ending, h'), cause, value) && r.raw == raw && b' == b1
            case Got(item) =>
              r.raw == item.raw &&
              if !item.decoded.valid then Traps(g, (r.ending, h'), 2, item.raw) && b' == b1
              else
                var (asked, b2, _) := Fast64.Ask(isa, b1, Fast64.Direct, g, item);
                (r.ending, h') == Complete(g, input.time, Instruction(item.raw, item.decoded.rd, asked)) && b' == b2
  {
    hide Fast64.FetchDecode; hide Fast64.Ask; hide Complete; hide TakeTrap; hide SelectFrom; hide WakeRequested;
  }
}
