/** The mstatus word of both cores along whole runs: it stays settled and is the word of the fields. */
module StatusRuns {
  import opened Wrappers
  import opened Paging
  import opened Hart
  import opened HartProofs
  import opened StatusWords
  import Bits
  import Core32
  import Core64
  import LegalSteps
  import Tlb
  import Icache

  /* ---- RV64: the word that a step leaves ---- */

  /** What execute_mret and execute_sret write at once. */
  function ReturnWord64(i: Core64.Instruction, w: Bits.Word): (r: Bits.Word)
    requires |w| == 64
    ensures |r| == |w|
  {
    match i.asked
    case MretAsked => SanitizeWord(Rv64, MretNext(Rv64, w))
    case SretAsked => SanitizeWord(Rv64, SretNext(Rv64, w))
    case _ => w
  }

  /** The return, then FS for a register, FS for flags, and the CSR write last. */
  function RetireWord64(i: Core64.Instruction, o: Core64.Outcome, w: Bits.Word): (r: Bits.Word)
    requires |w| == 64 && o.Done?
    ensures |r| == |w|
  {
    var w0 := ReturnWord64(i, w);
    var w1 := if o.freg.Some? then DirtyWord(w0) else w0;
    var w2 := if o.flags != 0 then DirtyWord(w1) else w1;
    if o.csr.Some? then WriteWord(Rv64, w2, o.csr.value.0, o.csr.value.1) else w2
  }

  function CompleteWord64(h: Hart, time: nat, i: Core64.Instruction, w: Bits.Word): (r: Bits.Word)
    requires |w| == 64
    ensures |r| == |w|
  {
    if h.pc % 2 != 0 then TrapWord(Rv64, h, 0, w)
    else
      var o := Core64.Execute(h, time, i);
      match o
      case Trap(cause, _) => TrapWord(Rv64, h, cause, w)
      case Done(next, _, _, _, _, _, _) =>
        if next % 2 != 0 then TrapWord(Rv64, h, 0, w) else RetireWord64(i, o, w)
  }

  function StepWord64(h: Hart, e: Core64.Event, w: Bits.Word): (r: Bits.Word)
    requires |w| == 64
    ensures |r| == |w|
  {
    match Core64.Begin(h, e.lines)
    case Idle(_) => w
    case Interrupted(h1, i) => InterruptWord(Rv64, h1, i, w)
    case Runs(h1) => CompleteWord64(h1, e.time, e.instruction, w)
  }

  /** The word after each step of a run. */
  function RunWords64(h: Hart, events: seq<Core64.Event>, w: Bits.Word): (r: seq<Bits.Word>)
    requires |w| == 64 && Legal(Rv64, h) && forall e :: e in events ==> Core64.Encodable(e.instruction)
    ensures |r| == |events|
    decreases |events|
  {
    if events == [] then []
    else
      Core64.StepLegal(h, events[0]);
      [StepWord64(h, events[0], w)] + RunWords64(Core64.Step(h, events[0]).1, events[1..], StepWord64(h, events[0], w))
  }

  /* ---- the word is the word of the fields ---- */

  lemma ReturnAgrees(h: Hart, time: nat, i: Core64.Instruction)
    ensures var o := Core64.Execute(h, time, i);
            o.Done? ==>
              StatusBits(Rv64, (if o.back.Some? then o.back.value else h).status)
              == ReturnWord64(i, StatusBits(Rv64, h.status))
  {
    hide StatusBits; hide SanitizeWord; hide MretNext; hide SretNext; hide Mret; hide Sret; hide Core64.ExecuteCsr;
    ReturnFields(Rv64, h);
    Core64.CsrStays(h, time, i);
  }

  lemma FloatAgrees(h: Hart, rd: nat, v: Option<nat>)
    requires rd < |h.f|
    ensures StatusBits(Rv64, Core64.PutFloat(h, rd, v).status) ==
              if v.Some? then DirtyWord(StatusBits(Rv64, h.status)) else StatusBits(Rv64, h.status)
  {
    hide StatusBits; hide DirtyWord; hide Sanitize;
    DirtyFields(h.status);
  }

  lemma RetireAgrees(h: Hart, time: nat, i: Core64.Instruction)
    requires |h.x| == 32 && |h.f| == 32 && Core64.Encodable(i)
    requires var o := Core64.Execute(h, time, i);
        o.Done? && (o.back.Some? ==> |o.back.value.x| == 32 && |o.back.value.f| == 32)
    ensures var o := Core64.Execute(h, time, i);
            StatusBits(Rv64, Core64.Retire(h, i.rd, o).status) == RetireWord64(i, o, StatusBits(Rv64, h.status))
  {
    hide StatusBits; hide DirtyWord; hide Core64.Execute; hide ReturnWord64; hide WriteWord; hide WriteCsr;
    hide Core64.PutFloat;
    hide Core64.RaiseFlags; hide Core64.PutRegister; hide Core64.Advance;
    var o := Core64.Execute(h, time, i);
    ReturnAgrees(h, time, i);
    var h0 := if o.back.Some? then o.back.value else h;
    Core64.PutRegisterSameFloat(h0, i.rd, o.reg);
    var h1 := Core64.PutRegister(h0, i.rd, o.reg);
    FloatAgrees(h1, i.rd, o.freg);
    var h2 := Core64.PutFloat(h1, i.rd, o.freg);
    FlagsAgree(h2, o.flags);
    var h3 := Core64.RaiseFlags(h2, o.flags);
    Core64.AdvanceSameFloat(h3, o.next, o.wait);
    if o.csr.Some? { WriteFields(Rv64, Core64.Advance(h3, o.next, o.wait), o.csr.value.0, o.csr.value.1); }
  }

  lemma FlagsAgree(h: Hart, flags: nat)
    ensures StatusBits(Rv64, Core64.RaiseFlags(h, flags).status) ==
              if flags != 0 then DirtyWord(StatusBits(Rv64, h.status)) else StatusBits(Rv64, h.status)
  {
    hide StatusBits; hide DirtyWord; hide Sanitize; hide Bits.Or;
    DirtyFields(h.status);
  }

  lemma CompleteAgrees(h: Hart, time: nat, i: Core64.Instruction)
    requires Legal(Rv64, h) && Core64.Encodable(i)
    ensures |h.x| == 32 && |h.f| == 32
    ensures StatusBits(Rv64, Core64.Complete(h, time, i).1.status) ==
        CompleteWord64(h, time, i, StatusBits(Rv64, h.status))
  {
    hide StatusBits; hide Legal; hide TakeTrap; hide TakeInterrupt; hide TrapWord; hide Core64.Execute;
    hide Core64.Retire; hide RetireWord64;
    Core64.LegalShape(h);
    Core64.ExecuteLegal(h, time, i);
    var o, any := Core64.Execute(h, time, i), Selection(0, false);
    TrapFields(Rv64, h, 0, h.pc, h.pc, any);
    match o
    case Trap(cause, value) => TrapFields(Rv64, h, cause, h.pc, value, any);
    case Done(next, _, _, _, _, back, _) =>
      TrapFields(Rv64, h, 0, h.pc, next, any);
      if back.Some? { Core64.LegalShape(back.value); }
      RetireAgrees(h, time, i);
  }

  lemma StepAgrees64(h: Hart, e: Core64.Event)
    requires Legal(Rv64, h) && Core64.Encodable(e.instruction)
    ensures |h.x| == 32 && |h.f| == 32
    ensures StatusBits(Rv64, Core64.Step(h, e).1.status) == StepWord64(h, e, StatusBits(Rv64, h.status))
  {
    hide StatusBits; hide Legal; hide TakeTrap; hide TakeInterrupt; hide InterruptWord; hide Core64.Complete;
    hide CompleteWord64;
    Core64.LegalShape(h);
    Core64.BeginLegal(h, e.lines);
    var begun := Core64.Begin(h, e.lines);
    BeginStatus(h.(cycle := (h.cycle + 1) % 0x1_0000_0000_0000_0000), e.lines);
    match begun
    case Idle(_) =>
    case Interrupted(h1, i) => TrapFields(Rv64, h1, 0, 0, 0, i);
    case Runs(h1) => CompleteAgrees(h1, e.time, e.instruction);
  }

  lemma BeginStatus(h: Hart, lines: set<nat>)
    ensures Core32.Begin(h, lines).h.status == h.status
  {
    hide SelectFrom; hide WakeRequested;
  }

  lemma DirtySettles(w: Bits.Word)
    requires Settled(Rv64, w)
    ensures |w| == 64 && Settled(Rv64, DirtyWord(w))
  {
    hide SanitizeWord;
    SanitizeSettles(Rv64, Raise(Drop(w, {13, 14}), {13, 14}));
  }

  lemma ReturnSettles64(i: Core64.Instruction, w: Bits.Word)
    requires Settled(Rv64, w)
    ensures |w| == 64 && Settled(Rv64, ReturnWord64(i, w))
  {
    hide SanitizeWord; hide MretNext; hide SretNext; hide Settled;
    SettledWidth(Rv64, w);
    SanitizeSettles(Rv64, MretNext(Rv64, w));
    SanitizeSettles(Rv64, SretNext(Rv64, w));
  }

  lemma RetireSettles64(i: Core64.Instruction, o: Core64.Outcome, w: Bits.Word)
    requires Settled(Rv64, w) && o.Done?
    ensures |w| == 64 && Settled(Rv64, RetireWord64(i, o, w))
  {
    hide Settled; hide ReturnWord64; hide DirtyWord; hide WriteWord;
    ReturnSettles64(i, w);
    var w0 := ReturnWord64(i, w);
    DirtySettles(w0);
    var w1 := if o.freg.Some? then DirtyWord(w0) else w0;
    DirtySettles(w1);
    var w2 := if o.flags != 0 then DirtyWord(w1) else w1;
    if o.csr.Some? { WriteSettles(Rv64, w2, o.csr.value.0, o.csr.value.1); }
  }

  lemma CompleteSettles64(h: Hart, time: nat, i: Core64.Instruction, w: Bits.Word)
    requires Settled(Rv64, w)
    ensures |w| == 64 && Settled(Rv64, CompleteWord64(h, time, i, w))
  {
    hide Settled; hide TrapWord; hide InterruptWord; hide Core64.Execute; hide RetireWord64;
    var o := Core64.Execute(h, time, i);
    SettledWidth(Rv64, w);
    TrapsSettle(Rv64, w, h, 0, Selection(0, false));
    if o.Trap? { TrapsSettle(Rv64, w, h, o.cause, Selection(0, false)); }
    if o.Done? { RetireSettles64(i, o, w); }
  }

  /** A step settles whatever settled word it starts from. */
  lemma StepSettles64(h: Hart, e: Core64.Event, w: Bits.Word)
    requires Settled(Rv64, w)
    ensures |w| == 64 && Settled(Rv64, StepWord64(h, e, w))
  {
    hide Settled; hide InterruptWord; hide TrapWord; hide Core64.Begin; hide CompleteWord64;
    SettledWidth(Rv64, w);
    match Core64.Begin(h, e.lines)
    case Idle(_) =>
    case Interrupted(h1, i) => TrapsSettle(Rv64, w, h1, 0, i);
    case Runs(h1) => CompleteSettles64(h1, e.time, e.instruction, w);
  }

  lemma SettledWidth(xlen: Xlen, w: Bits.Word)
    requires Settled(xlen, w)
    ensures |w| == Width(xlen)
  {}

  /** Over every run of RV64 from a legal state, the word updated by its masks stays settled (MPP
      never reserved, SD exactly when FS is Dirty), and if it starts as the word of the fields it is
      the word of the fields after every step. */
  lemma {:induction false} RunSettled64(h: Hart, events: seq<Core64.Event>, w: Bits.Word)
    requires Legal(Rv64, h) && (forall e :: e in events ==> Core64.Encodable(e.instruction)) && Settled(Rv64, w)
    ensures |w| == 64 && |RunWords64(h, events, w)| == |Core64.Run(h, events)|
    ensures forall i :: 0 <= i < |events| ==> Settled(Rv64, RunWords64(h, events, w)[i])
    ensures w == StatusBits(Rv64, h.status) ==>
              forall i :: 0 <= i < |events| ==>
                  RunWords64(h, events, w)[i] == StatusBits(Rv64, Core64.Run(h, events)[i].status)
    decreases |events|
  {
    hide Legal; hide StatusBits; hide Core64.Step; hide StepWord64; hide Core64.Encodable; hide Settled;
    Core64.LegalShape(h);
    SettledWidth(Rv64, w);
    if events != [] {
      Core64.StepLegal(h, events[0]);
      StepAgrees64(h, events[0]);
      StepSettles64(h, events[0], w);
      var h' := Core64.Step(h, events[0]).1;
      Core64.LegalShape(h');
      RunSettled64(h', events[1..], StepWord64(h, events[0], w));
    }
  }

  /* ---- RV32: returns are written as CSRs, and the commit clears MPRV ---- */

  /** MRET and SRET hand the commit the word of their masks, as a CSR write. */
  lemma ReturnValue(h: Hart, d: Core32.Instruction)
    ensures d.kind == Core32.MretOp && MretAllowed(h) ==>
              Core32.RunPrivileged(h, d).Retire? &&
              Core32.RunPrivileged(h, d).c.csr ==
                Some((MSTATUS, Bits.Value(MretNext(Rv32, StatusBits(Rv32, h.status)))))
    ensures d.kind == Core32.SretOp && SretAllowed(h) ==>
              Core32.RunPrivileged(h, d).Retire? &&
              Core32.RunPrivileged(h, d).c.csr ==
                Some((SSTATUS, Bits.Value(SretNext(Rv32, StatusBits(Rv32, h.status)))))
  {
    hide StatusBits; hide MretNext; hide SretNext; hide MretStatus; hide SretStatus; hide Core32.Next; hide Sanitize;
    MretFields(Rv32, h.status);
    SretFields(Rv32, h.status);
    LegalSteps.ReturnOutcomes(h, d);
  }

  function CommitWord(c: Core32.Commit, w: Bits.Word): (r: Bits.Word)
    requires |w| == 32
    ensures |r| == |w|
  {
    var written := if c.csr.Some? then WriteWord(Rv32, w, c.csr.value.0, c.csr.value.1) else w;
    if c.privilege.Some? && c.privilege.value != Machine then Drop(written, {17}) else written
  }

  function ConcludeWord(h: Hart, o: Core32.Outcome, w: Bits.Word): (r: Bits.Word)
    requires |w| == 32
    ensures |r| == |w|
  {
    match o
    case Trap(cause, _, _) => TrapWord(Rv32, h, cause, w)
    case Retire(c) => if Core32.Committed(h, c).Some? then CommitWord(c, w) else w
    case NotMine => w
  }

  function StepWord32(isa: Core32.Isa, h: Hart, b: Core32.Bus, c: Option<Core32.Caches>, input: Core32.Input,
      w: Bits.Word): (r: Bits.Word)
    requires |w| == 32 && Core32.CachesReady(c)
    ensures |r| == |w|
  {
    match Core32.Begin(h, input.lines)
    case Idle(_) => w
    case Interrupted(h1, i) => InterruptWord(Rv32, h1, i, w)
    case Runs(h1) =>
      var (f, b1, c1) := Core32.FetchDecode(isa, b, h1, c);
      match f
      case FetchTrap(cause, _, _, _) => TrapWord(Rv32, h1, cause, w)
      case Got(item) =>
        var o := if c.None? then Core32.RunAll(isa, b1, Core32.Direct, h1, input.time, item.decoded).0
                 else Core32.RunUnit(isa, b1, Core32.MmuOf(c1), h1, input.time, item.decoded).0;
        ConcludeWord(h1, o, w)
  }

  function RunWords32(isa: Core32.Isa, h: Hart, b: Core32.Bus, c: Option<Core32.Caches>, events: seq<Core32.Event>,
      w: Bits.Word): (r: seq<Bits.Word>)
    requires |w| == 32 && Core32.CachesReady(c)
    ensures |r| == |events|
    decreases |events|
  {
    if events == [] then []
    else
      var h0, b0 := Core32.Elapse(h, events[0]), Core32.Dma(b, events[0]);
      var (_, h', b', c') := Core32.Step(isa, h0, b0, c, events[0].input);
      var w' := StepWord32(isa, h0, b0, c, events[0].input, w);
      [w'] + RunWords32(isa, h', b', c', events[1..], w')
  }

  lemma ClearedBit(xlen: Xlen, s: Status)
    ensures StatusBits(xlen, s.(mprv := false)) == Drop(StatusBits(xlen, s), {17})
  {
    hide StatusBit;
    forall i: nat ensures StatusBit(xlen, s.(mprv := false), i) == (StatusBit(xlen, s, i) && i != 17) {
      FieldBits(xlen, s.(mprv := false));
      if i != 17 { SameBit(xlen, s, s.(mprv := false), i); }
    }
  }

  lemma CommitAgrees(h: Hart, c: Core32.Commit)
    requires Core32.Committed(h, c).Some?
    ensures StatusBits(Rv32, Core32.Committed(h, c).value.status) == CommitWord(c, StatusBits(Rv32, h.status))
  {
    hide StatusBits; hide WriteWord; hide WriteCsr; hide ValidateWrite; hide Drop; hide Zeroed;
    var x := if c.reg.Some? && c.reg.value.0 != 0 then h.x[c.reg.value.0 := c.reg.value.1] else h.x;
    var h1 := h.(x := Zeroed(x), privilege := if c.privilege.Some? then c.privilege.value else h.privilege,
                 pc := c.next, retired := (h.retired + 1) % 0x1_0000_0000_0000_0000, waiting := c.wait);
    if c.csr.Some? { WriteFields(Rv32, h1, c.csr.value.0, c.csr.value.1); }
    var h2 := if c.csr.Some? then WriteCsr(Rv32, h1, c.csr.value.0, c.csr.value.1) else h1;
    ClearedBit(Rv32, h2.status);
  }

  lemma ConcludeAgrees(h: Hart, item: Core32.Item, o: Core32.Outcome)
    ensures StatusBits(Rv32, Core32.Conclude(h, item, o).1.status) == ConcludeWord(h, o, StatusBits(Rv32, h.status))
  {
    hide StatusBits; hide TrapWord; hide CommitWord; hide Core32.Committed; hide TakeTrap; hide TakeInterrupt;
    match o
    case Trap(cause, value, _) => TrapFields(Rv32, h, cause, h.pc, value, Selection(0, false));
    case Retire(c) => if Core32.Committed(h, c).Some? { CommitAgrees(h, c); }
    case NotMine =>
  }

  lemma StepAgrees32(isa: Core32.Isa, h: Hart, b: Core32.Bus, c: Option<Core32.Caches>, input: Core32.Input)
    requires Core32.CachesReady(c)
    ensures StatusBits(Rv32, Core32.Step(isa, h, b, c, input).1.status) ==
              StepWord32(isa, h, b, c, input, StatusBits(Rv32, h.status))
  {
    hide StatusBits; hide TrapWord; hide InterruptWord; hide ConcludeWord; hide Core32.Conclude; hide TakeTrap;
    hide TakeInterrupt;
    hide Core32.FetchDecode; hide Core32.RunAll; hide Core32.RunUnit; hide Core32.Begin; hide Core32.Maintain;
    hide Core32.WithMmu; hide Tlb.Shaped; hide Icache.Shaped;
    BeginStatus(h, input.lines);
    match Core32.Begin(h, input.lines)
    case Idle(_) =>
    case Interrupted(h1, i) => TrapFields(Rv32, h1, 0, 0, 0, i);
    case Runs(h1) =>
      var (f, b1, c1) := Core32.FetchDecode(isa, b, h1, c);
      match f
      case FetchTrap(cause, value, _, _) => TrapFields(Rv32, h1, cause, h1.pc, value, Selection(0, false));
      case Got(item) =>
        var o := if c.None? then Core32.RunAll(isa, b1, Core32.Direct, h1, input.time, item.decoded).0
                 else Core32.RunUnit(isa, b1, Core32.MmuOf(c1), h1, input.time, item.decoded).0;
        ConcludeAgrees(h1, item, o);
  }

  lemma CommitSettles(c: Core32.Commit, w: Bits.Word)
    requires Settled(Rv32, w)
    ensures |w| == 32 && Settled(Rv32, CommitWord(c, w))
  {
    hide Settled; hide WriteWord; hide Drop;
    SettledWidth(Rv32, w);
    if c.csr.Some? { WriteSettles(Rv32, w, c.csr.value.0, c.csr.value.1); }
    ClearSettles(Rv32, if c.csr.Some? then WriteWord(Rv32, w, c.csr.value.0, c.csr.value.1) else w);
  }

  lemma WriteSettles(xlen: Xlen, w: Bits.Word, a: nat, value: nat)
    requires Settled(xlen, w)
    ensures |w| == Width(xlen) && Settled(xlen, WriteWord(xlen, w, a, value))
  {
    hide SanitizeWord; hide DirtyWord; hide SstatusWritten; hide Bits.Of; hide IsFloating;
    var v := Bits.Of(value, Width(xlen));
    SanitizeSettles(xlen, v);
    SanitizeSettles(xlen, Join(Drop(w, ViewBits(xlen)), Keep(v, ViewBits(xlen))));
    ViewWriteIs(xlen, w, v);
    OnlyRv64Floats(xlen, a);
    if xlen == Rv64 { DirtySettles(w); }
  }

  lemma ViewWriteIs(xlen: Xlen, w: Bits.Word, v: Bits.Word)
    requires |w| == Width(xlen) == |v|
    ensures SstatusWritten(xlen, w, v) == SanitizeWord(xlen, Join(Drop(w, ViewBits(xlen)), Keep(v, ViewBits(xlen))))
  {}

  lemma OnlyRv64Floats(xlen: Xlen, a: nat)
    ensures IsFloating(xlen, a) ==> xlen == Rv64
  {}

  lemma ConcludeSettles(h: Hart, o: Core32.Outcome, w: Bits.Word)
    requires Settled(Rv32, w)
    ensures |w| == 32 && Settled(Rv32, ConcludeWord(h, o, w))
  {
    hide Settled; hide TrapWord; hide InterruptWord; hide CommitWord; hide Core32.Committed;
    SettledWidth(Rv32, w);
    match o
    case Trap(cause, _, _) => TrapsSettle(Rv32, w, h, cause, Selection(0, false));
    case Retire(c) => CommitSettles(c, w);
    case NotMine =>
  }

  /** No sanitizing follows the clearing of MPRV by RV32's commit, and none is needed. */
  lemma StepSettles32(isa: Core32.Isa, h: Hart, b: Core32.Bus, c: Option<Core32.Caches>, input: Core32.Input,
      w: Bits.Word)
    requires Core32.CachesReady(c) && Settled(Rv32, w)
    ensures |w| == 32 && Settled(Rv32, StepWord32(isa, h, b, c, input, w))
  {
    hide Settled; hide TrapWord; hide InterruptWord; hide ConcludeWord;
    hide Core32.FetchDecode; hide Core32.RunAll; hide Core32.RunUnit; hide Core32.Begin; hide Tlb.Shaped;
    hide Icache.Shaped;
    SettledWidth(Rv32, w);
    match Core32.Begin(h, input.lines)
    case Idle(_) =>
    case Interrupted(h1, i) => TrapsSettle(Rv32, w, h1, 0, i);
    case Runs(h1) =>
      var (f, b1, c1) := Core32.FetchDecode(isa, b, h1, c);
      match f
      case FetchTrap(cause, _, _, _) => TrapsSettle(Rv32, w, h1, cause, Selection(0, false));
      case Got(item) =>
        var o := if c.None? then Core32.RunAll(isa, b1, Core32.Direct, h1, input.time, item.decoded).0
                 else Core32.RunUnit(isa, b1, Core32.MmuOf(c1), h1, input.time, item.decoded).0;
        ConcludeSettles(h1, o, w);
  }

  /** The same for RV32, in either mode and disciplined or not. */
  lemma {:induction false} RunSettled32(isa: Core32.Isa, h: Hart, b: Core32.Bus, c: Option<Core32.Caches>,
      events: seq<Core32.Event>, w: Bits.Word)
    requires Core32.CachesReady(c) && Settled(Rv32, w)
    ensures |w| == 32 && |RunWords32(isa, h, b, c, events, w)| == |Core32.Run(isa, h, b, c, events)|
    ensures forall i :: 0 <= i < |events| ==> Settled(Rv32, RunWords32(isa, h, b, c, events, w)[i])
    ensures w == StatusBits(Rv32, h.status) ==>
              forall i :: 0 <= i < |events| ==>
                RunWords32(isa, h, b, c, events, w)[i] == StatusBits(Rv32, Core32.Run(isa, h, b, c, events)[i].h.status)
    decreases |events|
  {
    hide StatusBits; hide Core32.Step; hide StepWord32; hide Settled; hide Core32.Dma; hide Core32.CachesShaped;
    SettledWidth(Rv32, w);
    if events != [] {
      var h0, b0 := Core32.Elapse(h, events[0]), Core32.Dma(b, events[0]);
      StepAgrees32(isa, h0, b0, c, events[0].input);
      StepSettles32(isa, h0, b0, c, events[0].input, w);
      var (_, h', b', c') := Core32.Step(isa, h0, b0, c, events[0].input);
      RunSettled32(isa, h', b', c', events[1..], StepWord32(isa, h0, b0, c, events[0].input, w));
    }
  }

  /** Reset leaves sanitize_mstatus of zero, the word of cleared fields. */
  lemma ResetSettled(xlen: Xlen)
    ensures var s := Status(false, false, false, false, false, User, Off, false, false, false, false, false, false);
            SanitizeWord(xlen, Bits.Of(0, Width(xlen))) == StatusBits(xlen, s) && Settled(xlen, StatusBits(xlen, s))
  {
    hide SanitizeWord; hide StatusBits; hide Bits.Of;
    SanitizeValue(xlen, 0);
    ZeroFields(xlen);
    SanitizeSettles(xlen, Bits.Of(0, Width(xlen)));
  }

  lemma ZeroFields(xlen: Xlen)
    ensures Sanitize(xlen, StatusOf(xlen, 0)) ==
              Status(false, false, false, false, false, User, Off, false, false, false, false, false, false)
  {
    hide Bits.Of;
    forall i: nat | i < Width(xlen) ensures !Bits.Of(0, Width(xlen))[i] { Bits.OfZero(Width(xlen), i); }
  }
}
