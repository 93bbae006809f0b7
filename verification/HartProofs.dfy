/** What the privileged actions keep and undo. */
module HartProofs {
  import opened Wrappers
  import opened Address
  import opened Paging
  import opened Hart
  import Bits

  /* ---- mstatus: fields and word agree ---- */

  lemma MppSplits(p: Privilege)
    ensures MppOf(p != User, p == Machine) == p
  {}

  lemma FsSplits(fs: Fs)
    ensures FsOf(fs == Initial || fs == Dirty, fs == Clean || fs == Dirty) == fs
  {}

  lemma BitAt(xlen: Xlen, s: Status, i: nat)
    requires i < Width(xlen)
    ensures Bits.Of(StatusWord(xlen, s), Width(xlen))[i] == StatusBit(xlen, s, i)
  {
    hide Bits.Value; hide Bits.Of; hide StatusBit;
    Bits.OfValue(StatusBits(xlen, s));
  }

  /** Reading back a written mstatus word gives the fields it was made from. */
  lemma StatusRoundTrip(xlen: Xlen, s: Status)
    ensures StatusOf(xlen, StatusWord(xlen, s)) == s
  {
    hide Bits.Of; hide StatusWord; hide MppOf; hide FsOf;
    BitAt(xlen, s, 1); BitAt(xlen, s, 3); BitAt(xlen, s, 5); BitAt(xlen, s, 7); BitAt(xlen, s, 8);
    BitAt(xlen, s, 11); BitAt(xlen, s, 12); BitAt(xlen, s, 13); BitAt(xlen, s, 14);
    BitAt(xlen, s, 17); BitAt(xlen, s, 18); BitAt(xlen, s, 19); BitAt(xlen, s, 20); BitAt(xlen, s, 21);
    BitAt(xlen, s, 22);
    MppSplits(s.mpp);
    FsSplits(s.fs);
  }

  /** sanitize_mstatus on bits: mask, fix UXL and SXL, clear a reserved MPP, derive SD. */
  function SanitizedBit(xlen: Xlen, b: Bits.Word, i: nat): bool
    requires |b| == Width(xlen) && i < |b|
  {
    if i == 11 || i == 12 then b[i] && !(b[12] && !b[11])
    else if i == 1 || i == 3 || i == 5 || i == 7 || i == 8 || (17 <= i <= 22) then b[i]
    else xlen == Rv64 && (i == 33 || i == 35 || ((i == 13 || i == 14) && b[i]) || (i == 63 && b[13] && b[14]))
  }

  lemma MppBits(low: bool, high: bool)
    ensures (MppOf(low, high) != User) == (low && !(high && !low)) &&
        (MppOf(low, high) == Machine) == (high && !(high && !low))
  {}

  lemma FsBits(low: bool, high: bool)
    ensures var fs := FsOf(low, high);
            (fs == Initial || fs == Dirty) == low && (fs == Clean || fs == Dirty) == high &&
              (fs == Dirty) == (low && high)
  {}

  /** Writing a word to mstatus keeps exactly what the masks of both cores keep. */
  lemma SanitizeIsMask(xlen: Xlen, value: nat, i: nat)
    requires i < Width(xlen)
    ensures StatusBit(xlen, Sanitize(xlen, StatusOf(xlen, value)), i) ==
        SanitizedBit(xlen, Bits.Of(value, Width(xlen)), i)
  {
    hide Bits.Of; hide MppOf; hide FsOf;
    var b := Bits.Of(value, Width(xlen));
    MppBits(b[11], b[12]);
    FsBits(b[13], b[14]);
    if i == 11 || i == 12 {
    } else if i == 13 || i == 14 || i == 63 {
    } else {
    }
  }

  /* ---- legal states ---- */

  /** RV32 implements no FS. What holds of the mstatus word is in StatusWords and StatusRuns. */
  predicate LegalStatus(xlen: Xlen, s: Status) { Sanitize(xlen, s) == s }

  /** What trap entry and return write never involves FS, the one field they could spoil. */
  lemma StatusStaysLegal(xlen: Xlen, s: Status, s': Status)
    requires LegalStatus(xlen, s) && s'.fs == s.fs
    ensures LegalStatus(xlen, s')
  {}

  predicate LegalSatp(xlen: Xlen, s: Satp) {
    if !s.paged then s.asid == 0 && s.root == Frame(0, 0, 0)
    else match xlen
      case Rv32 => s.asid < 0x200 && s.root.h2 == 0 && s.root.h1 < 0x1000 && s.root.h0 < 0x400
      case Rv64 => s.asid < 0x1_0000 && s.root.h2 < 0x400_0000 && s.root.h1 < 0x200 && s.root.h0 < 0x200
  }

  predicate IsEven(v: nat) { v % 2 == 0 }

  predicate LegalTvec(v: nat) { v % 4 <= 1 }

  predicate Only(s: set<nat>, allowed: set<nat>) { s <= allowed }

  /** x0 is zero, program counters are even, and every WARL field holds a legal value. */
  predicate Legal(xlen: Xlen, h: Hart) {
    |h.x| == 32 && h.x[0] == 0 && |h.f| == 32 &&
    IsEven(h.pc) && IsEven(h.mepc) && IsEven(h.sepc) &&
    LegalStatus(xlen, h.status) && LegalSatp(xlen, h.satp) && LegalTvec(h.mtvec) && LegalTvec(h.stvec) &&
    Only(h.medeleg, ExceptionDelegation) && Only(h.mideleg, SupervisorInterrupts) && Only(h.mie, Interrupts) &&
    Only(h.mipSoftware, SupervisorInterrupts) && Only(h.mipLines, Interrupts) &&
    Only(h.mcounteren, {0, 1, 2}) && Only(h.scounteren, {0, 1, 2})
  }

  lemma EvenIs(v: nat)
    ensures IsEven(Even(v)) && (IsEven(v) ==> Even(v) == v)
  {}

  lemma WrapEven(v: nat)
    requires v % 4 == 0
    ensures (v % 0x1_0000_0000) % 2 == 0 && (v % 0x1_0000_0000_0000_0000) % 2 == 0 && v % 2 == 0
  {
    var q, a, b := v / 4, v / 0x1_0000_0000, v / 0x1_0000_0000_0000_0000;
    assert v % 0x1_0000_0000 == 2 * (2 * q - 0x8000_0000 * a);
    assert v % 0x1_0000_0000_0000_0000 == 2 * (2 * q - 0x8000_0000_0000_0000 * b);
  }

  lemma VectorEven(xlen: Xlen, tvec: nat, interrupt: bool, cause: nat)
    ensures IsEven(Vector(xlen, tvec, interrupt, cause))
  {
    var base := tvec - tvec % 4;
    WrapEven(base);
    WrapEven(base + 4 * cause);
  }

  lemma MachineTrapLegal(xlen: Xlen, h: Hart, cause: nat, pc: nat, value: nat, interrupt: bool)
    requires Legal(xlen, h)
    ensures Legal(xlen, MachineTrap(xlen, h, cause, pc, value, interrupt))
  {
    hide Vector; hide CauseWord; hide Even; hide IsEven; hide LegalTvec; hide LegalSatp;
    EvenIs(pc);
    hide Sanitize; hide Only;
    VectorEven(xlen, h.mtvec, interrupt, cause);
    StatusStaysLegal(xlen, h.status, h.status.(mie := false, mpie := h.status.mie, mpp := h.privilege));
  }

  lemma SupervisorTrapLegal(xlen: Xlen, h: Hart, cause: nat, pc: nat, value: nat, interrupt: bool)
    requires Legal(xlen, h)
    ensures Legal(xlen, SupervisorTrap(xlen, h, cause, pc, value, interrupt))
  {
    hide Vector; hide CauseWord; hide Even; hide IsEven; hide LegalTvec; hide LegalSatp;
    EvenIs(pc);
    hide Sanitize; hide Only;
    VectorEven(xlen, h.stvec, interrupt, cause);
    StatusStaysLegal(xlen, h.status, h.status.(sie := false, spie := h.status.sie, spp := h.privilege == Supervisor));
  }

  /** A synchronous trap, delegated or not, and an interrupt keep the state legal. */
  lemma TrapLegal(xlen: Xlen, h: Hart, cause: nat, pc: nat, value: nat, i: Selection)
    requires Legal(xlen, h)
    ensures Legal(xlen, TakeTrap(xlen, h, cause, pc, value)) && Legal(xlen, TakeInterrupt(xlen, h, i))
  {
    hide MachineTrap; hide SupervisorTrap; hide Legal;
    MachineTrapLegal(xlen, h, cause, pc, value, false);
    SupervisorTrapLegal(xlen, h, cause, pc, value, false);
    MachineTrapLegal(xlen, h, i.cause, h.pc, 0, true);
    SupervisorTrapLegal(xlen, h, i.cause, h.pc, 0, true);
  }

  lemma ReturnLegal(xlen: Xlen, h: Hart)
    requires Legal(xlen, h)
    ensures Legal(xlen, Mret(xlen, h)) && Legal(xlen, Sret(xlen, h))
  {
    hide LegalSatp; hide IsEven; hide LegalTvec; hide Only; hide Sanitize;
    StatusStaysLegal(xlen, h.status, MretStatus(h.status));
    StatusStaysLegal(xlen, h.status, SretStatus(h.status));
  }

  lemma SatpOfLegal(xlen: Xlen, value: nat)
    ensures LegalSatp(xlen, SatpOf(xlen, value))
  {}

  lemma TvecOfLegal(value: nat)
    ensures LegalTvec(TvecOf(value))
  {}

  lemma SanitizedLegal(xlen: Xlen, s: Status)
    ensures LegalStatus(xlen, Sanitize(xlen, s))
  {}

  lemma MaskedWithin(was: set<nat>, bits: set<nat>, mask: set<nat>, allowed: set<nat>)
    requires Only(was, allowed)
    ensures Only(bits * allowed, allowed)
    ensures Only(mask, allowed) ==> Only(Masked(was, bits, mask), allowed)
  {}

  lemma DelegatedWithin(d: set<nat>)
    ensures Only(d * SupervisorInterrupts, Interrupts) && Only(d * {1}, SupervisorInterrupts)
  {}

  lemma FloatingLegal(h: Hart, a: nat, value: nat)
    requires Legal(Rv64, h)
    ensures Legal(Rv64, WriteFloating(h, a, value)) && WriteFloating(h, a, value).status.fs == Dirty
  {
    hide LegalSatp; hide IsEven; hide LegalTvec; hide Only;
    hide WriteFloating;
    FloatingIs(h, a, value);
  }

  lemma FloatingIs(h: Hart, a: nat, value: nat)
    ensures WriteFloating(h, a, value) == h.(fcsr := WriteFloating(h, a, value).fcsr, status := h.status.(fs := Dirty))
  {}

  lemma SetupLegal(xlen: Xlen, h: Hart, a: nat, value: nat)
    requires Legal(xlen, h)
    ensures Legal(xlen, WriteSupervisorSetup(xlen, h, a, value))
    ensures Legal(xlen, WriteMachineSetup(xlen, h, a, value))
  {
    hide StatusOf; hide TvecOf; hide IsEven; hide LegalTvec; hide LegalSatp; hide Only;
    hide Sanitize; hide LegalStatus; hide WithSupervisorView; hide Masked; hide Bits.SetOf;
    var bits := Bits.SetOf(value, Width(xlen));
    SanitizedLegal(xlen, WithSupervisorView(h.status, StatusOf(xlen, value)));
    SanitizedLegal(xlen, StatusOf(xlen, value));
    DelegatedWithin(h.mideleg);
    MaskedWithin(h.mie, bits, h.mideleg * SupervisorInterrupts, Interrupts);
    MaskedWithin(h.scounteren, bits, {}, {0, 1, 2});
    MaskedWithin(h.medeleg, bits, {}, ExceptionDelegation);
    MaskedWithin(h.mideleg, bits, {}, SupervisorInterrupts);
    TvecOfLegal(value);
  }

  lemma SupervisorHandlingLegal(xlen: Xlen, h: Hart, a: nat, value: nat)
    requires Legal(xlen, h)
    ensures Legal(xlen, WriteSupervisorHandling(xlen, h, a, value))
  {
    hide SatpOf; hide Even; hide IsEven; hide LegalTvec; hide LegalSatp; hide Only;
    hide LegalStatus; hide SatpModeKnown; hide Masked; hide Bits.SetOf;
    DelegatedWithin(h.mideleg);
    MaskedWithin(h.mipSoftware, Bits.SetOf(value, Width(xlen)), h.mideleg * {1}, SupervisorInterrupts);
    SatpOfLegal(xlen, value);
    EvenIs(value);
  }

  lemma MachineHandlingLegal(xlen: Xlen, h: Hart, a: nat, value: nat)
    requires Legal(xlen, h)
    ensures Legal(xlen, WriteMachineHandling(xlen, h, a, value))
  {
    hide Even; hide IsEven; hide LegalTvec; hide LegalSatp; hide Only; hide LegalStatus; hide Bits.SetOf;
    MaskedWithin(h.mipSoftware, Bits.SetOf(value, Width(xlen)), {}, SupervisorInterrupts);
    EvenIs(value);
  }

  /** Every CSR write, whatever the value, leaves a legal state. */
  lemma WriteLegal(xlen: Xlen, h: Hart, a: nat, value: nat)
    requires Legal(xlen, h)
    ensures Legal(xlen, WriteCsr(xlen, h, a, value))
  {
    hide WriteFloating; hide WriteSupervisorSetup; hide WriteMachineSetup; hide WriteSupervisorHandling;
    hide WriteMachineHandling; hide Only; hide IsEven; hide LegalTvec; hide LegalSatp; hide LegalStatus;
    hide IsWritable;
    if IsFloating(xlen, a) { FloatingLegal(h, a, value); }
    SetupLegal(xlen, h, a, value);
    SupervisorHandlingLegal(xlen, h, a, value);
    MachineHandlingLegal(xlen, h, a, value);
  }

  /** Satp and privilege are key enough for fetched instructions: harts that differ in MPRV, MPP, SUM,
      MXR or anything else translate fetches alike, with the same A updates. */
  lemma FetchIgnoresStatus(xlen: Xlen, m: Ram, h: Hart, h': Hart, va: nat)
    requires h'.satp == h.satp && h'.privilege == h.privilege
    ensures Translate(m, ContextOf(xlen, h, Fetch), va, Fetch) == Translate(m, ContextOf(xlen, h', Fetch), va, Fetch)
  {
    Paging.FetchIgnoresStatus(m, ContextOf(xlen, h, Fetch), ContextOf(xlen, h', Fetch), va);
  }

  /* ---- trap entry and return undo each other ---- */

  /** What a trap handler must find restored: pc, privilege and the interrupt enables. */
  predicate Restored(h: Hart, h': Hart) {
    h'.pc == h.pc && h'.privilege == h.privilege && h'.status.mie == h.status.mie && h'.status.sie == h.status.sie
  }

  /** A trap or interrupt into machine mode, then MRET. */
  lemma MachineRoundTrip(xlen: Xlen, h: Hart, cause: nat, value: nat, interrupt: bool)
    requires LegalStatus(xlen, h.status) && IsEven(h.pc)
    ensures var t := MachineTrap(xlen, h, cause, h.pc, value, interrupt);
            MretAllowed(t) && !t.status.mie && Restored(h, Mret(xlen, t))
  {
    hide Vector; hide CauseWord; hide Even; hide IsEven; hide Sanitize;
    EvenIs(h.pc);
    var s := h.status.(mie := false, mpie := h.status.mie, mpp := h.privilege);
    StatusStaysLegal(xlen, h.status, s);
    StatusStaysLegal(xlen, h.status, MretStatus(s));
  }

  /** A delegated trap from U or S, then SRET, which TSR alone can forbid. */
  lemma SupervisorRoundTrip(xlen: Xlen, h: Hart, cause: nat, value: nat, interrupt: bool)
    requires LegalStatus(xlen, h.status) && IsEven(h.pc) && h.privilege != Machine
    ensures var t := SupervisorTrap(xlen, h, cause, h.pc, value, interrupt);
            (SretAllowed(t) <==> !h.status.tsr) && !t.status.sie && Restored(h, Sret(xlen, t))
  {
    hide Vector; hide CauseWord; hide Even; hide IsEven; hide Sanitize;
    EvenIs(h.pc);
    var s := h.status.(sie := false, spie := h.status.sie, spp := h.privilege == Supervisor);
    StatusStaysLegal(xlen, h.status, s);
    StatusStaysLegal(xlen, h.status, SretStatus(s));
  }

  /** A supervisor trap whose handler is itself trapped into machine mode: MRET resumes the
      handler and SRET the interrupted program. */
  lemma NestedRoundTrip(xlen: Xlen, h: Hart, c: nat, v: nat, i: bool, c': nat, v': nat, i': bool)
    requires Legal(xlen, h) && h.privilege != Machine
    ensures var t := SupervisorTrap(xlen, h, c, h.pc, v, i);
            var back := Mret(xlen, MachineTrap(xlen, t, c', t.pc, v', i'));
            Restored(t, back) && (SretAllowed(back) <==> !h.status.tsr) && Restored(h, Sret(xlen, back))
  {
    hide MachineTrap; hide SupervisorTrap; hide Mret; hide Sret;
    var t := SupervisorTrap(xlen, h, c, h.pc, v, i);
    SupervisorTrapLegal(xlen, h, c, h.pc, v, i);
    MachineRoundTrip(xlen, t, c', v', i');
    SupervisorRoundTrip(xlen, h, c, v, i);
    HandlerUntouched(xlen, t, c', v', i');
  }

  /** A machine trap and its MRET leave what SRET will use. */
  lemma HandlerUntouched(xlen: Xlen, t: Hart, c: nat, v: nat, i: bool)
    requires LegalStatus(xlen, t.status) && IsEven(t.pc)
    ensures var back := Mret(xlen, MachineTrap(xlen, t, c, t.pc, v, i));
            back.privilege == t.privilege && back.status.tsr == t.status.tsr &&
            Sret(xlen, back).pc == Sret(xlen, t).pc && Sret(xlen, back).privilege == Sret(xlen, t).privilege &&
            Sret(xlen, back).status.sie == Sret(xlen, t).status.sie &&
              Sret(xlen, back).status.mie == Sret(xlen, t).status.mie
  {
    hide Vector; hide CauseWord; hide Even; hide IsEven; hide Sanitize;
    var s := t.status.(mie := false, mpie := t.status.mie, mpp := t.privilege);
    StatusStaysLegal(xlen, t.status, s);
    StatusStaysLegal(xlen, t.status, MretStatus(s));
    StatusStaysLegal(xlen, t.status, SretStatus(MretStatus(s)));
    StatusStaysLegal(xlen, t.status, SretStatus(t.status));
  }

  /* ---- interrupt selection ---- */

  lemma {:induction false} SelectsFirst(h: Hart, order: seq<nat>)
    ensures match SelectFrom(h, order)
            case None => forall k :: 0 <= k < |order| ==> !Takes(h, order[k])
            case Some(s) => s.supervisor == (s.cause in h.mideleg) &&
                            exists k ::
                              0 <= k < |order| && order[k] == s.cause && Takes(h, order[k]) && forall j ::
                                0 <= j < k ==> !Takes(h, order[j])
  {
    if order != [] {
      SelectsFirst(h, order[1..]);
      var rest := order[1..];
      if Takes(h, order[0]) {
        assert order[0] == SelectFrom(h, order).value.cause;
      } else if SelectFrom(h, rest).Some? {
        var k :| 0 <= k < |rest| && rest[k] == SelectFrom(h, rest).value.cause && Takes(h, rest[k]) && forall j ::
            0 <= j < k ==> !Takes(h, rest[j]);
        assert order[k + 1] == rest[k];
        forall j | 0 <= j < k + 1 ensures !Takes(h, order[j]) {
          if j > 0 { assert order[j] == rest[j - 1]; }
        }
      } else {
        forall k | 0 <= k < |order| ensures !Takes(h, order[k]) {
          if k > 0 { assert order[k] == rest[k - 1]; }
        }
      }
    }
  }

  /** No interrupt is selected exactly when no target takes one: nothing that could be taken
      is lost to the fixed order. */
  lemma NoneSelected(h: Hart)
    ensures SelectFrom(h, PriorityOrder) == None <==> forall c :: !Takes(h, c)
  {
    SelectsFirst(h, PriorityOrder);
    if SelectFrom(h, PriorityOrder) == None {
      forall c ensures !Takes(h, c) {
        if c in Interrupts {
          assert PriorityOrder[0] == 11 && PriorityOrder[1] == 3 && PriorityOrder[2] == 7;
          assert PriorityOrder[3] == 9 && PriorityOrder[4] == 1 && PriorityOrder[5] == 5;
        }
      }
    }
  }
}
