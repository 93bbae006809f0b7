/** The CSR file by addresses and numbers: who may access which CSR, what a write is read back as, which other CSRs
    it shows in, and what CSRRS and CSRRC make of the bits. */
module CsrRules {
  import opened Wrappers
  import opened Address
  import opened Paging
  import opened Hart
  import opened HartProofs
  import CsrProofs
  import Bits

  /** Bit k of a number. */
  predicate On(v: nat, k: nat) { v / Bits.PowerOf2(k) % 2 == 1 }

  lemma SetOfIs(v: nat, width: nat, k: nat)
    ensures k in Bits.SetOf(v, width) <==> k < width && On(v, k)
  {
    hide Bits.Of;
    if k < width { Bits.OfIs(v, width, k); }
  }

  lemma OfSetIs(s: set<nat>, width: nat, k: nat)
    requires k < width
    ensures On(Bits.OfSet(s, width), k) <==> k in s
  {
    hide Bits.Of; hide Bits.Value;
    var b := seq(width, i => i in s);
    Bits.OfValue(b);
    Bits.OfIs(Bits.Value(b), width, k);
  }

  /* ---- who may access what ---- */

  /** Bits 9 and 8 of an address are the privilege that it asks for, and 11 and 10 both set make it read-only. A
      privileged write of what is not read-only succeeds wherever the read does, but for the two CSRs that more
      guards: satp, which TVM takes from supervisor mode, and the floating ones, which FS can turn off. */
  lemma AccessByAddress(xlen: Xlen, h: Hart, a: nat, p: Privilege)
    ensures PrivilegeCode(p) < a / 0x100 % 4 ==>
              ValidateWrite(xlen, h, a, p) == Violation && ValidateRead(xlen, h, a, p) == Violation
    ensures ValidateWrite(xlen, h, a, p) == CsrReady ==> PrivilegeCode(p) >= a / 0x100 % 4 && a / 0x400 != 3
    ensures ValidateWrite(xlen, h, a, p) == ReadOnly ==> PrivilegeCode(p) >= a / 0x100 % 4 && a / 0x400 == 3
    ensures a / 0x400 != 3 ==> ValidateWrite(xlen, h, a, p) == ValidateRead(xlen, h, a, p)
    ensures a == 0x180 ==> (ValidateWrite(xlen, h, a, p) == CsrReady <==>
              p == Machine || (p == Supervisor && !h.status.tvm))
    ensures a in {0x001, 0x002, 0x003} ==>
        (ValidateWrite(xlen, h, a, p) == CsrReady <==> xlen == Rv64 && h.status.fs != Off)
  {}

  /** The CSRs that exist: supervisor and machine setup and handling, the counters and the identity; on RV32 also the
      high halves, on RV64 also the floating-point ones. */
  predicate Exists(xlen: Xlen, a: nat) {
    a == 0x100 || 0x104 <= a <= 0x106 || 0x140 <= a <= 0x144 || a == 0x180 || 0x300 <= a <= 0x306 ||
      0x340 <= a <= 0x344 ||
    a == 0xB00 || a == 0xB02 || 0xC00 <= a <= 0xC02 || 0xF11 <= a <= 0xF14 ||
    (xlen == Rv32 && (a == 0x310 || a == 0x312 || a == 0xB80 || a == 0xB82 || 0xC80 <= a <= 0xC82)) ||
    (xlen == Rv64 && 0x001 <= a <= 0x003)
  }

  /** Machine mode reads and, unless it is read-only, writes exactly these, the floating ones while FS is not Off. */
  lemma MachineAccess(xlen: Xlen, h: Hart, a: nat)
    requires a < 0x1000 && (h.status.fs != Off || xlen == Rv32 || a > 3)
    ensures ValidateRead(xlen, h, a, Machine) == if Exists(xlen, a) then CsrReady else NotFound
    ensures ValidateWrite(xlen, h, a, Machine) ==
        if !Exists(xlen, a) then NotFound else if a / 0x400 == 3 then ReadOnly else CsrReady
  {}

  /** A counter is read in machine mode, below it where mcounteren allows, in user mode where scounteren does too. */
  lemma CountersByEnables(xlen: Xlen, h: Hart, k: nat, p: Privilege)
    requires k < 3
    ensures var may := p == Machine || (k in h.mcounteren && (p == User ==> k in h.scounteren));
            (ValidateRead(xlen, h, 0xC00 + k, p) == CsrReady <==> may) &&
            (ValidateRead(xlen, h, 0xC80 + k, p) == CsrReady <==> xlen == Rv32 && may)
  {}

  /** The identity registers read as 0, but for the hart's number; misa names the word size and, by the letters of the
      alphabet, the extensions: A, C, I, M, S, U and for RV64 also D and F. */
  lemma Constants(xlen: Xlen, h: Hart, time: nat)
    ensures ReadCsr(xlen, h, time, 0x301) ==
        Letters() + if xlen == Rv32 then 0x4000_0000 else 0x8000_0000_0000_0000 + Bits.PowerOf2(3) + Bits.PowerOf2(5)
    ensures ReadCsr(xlen, h, time, 0xF11) == 0 && ReadCsr(xlen, h, time, 0xF12) == 0 &&
        ReadCsr(xlen, h, time, 0xF13) == 0
    ensures ReadCsr(xlen, h, time, 0xF14) == h.id
  {
    hide StatusWord; hide SstatusWord; hide Bits.OfSet;
    Powers();
  }

  /** A 0, C 2, I 8, M 12, S 18, U 20. */
  function Letters(): nat {
    Bits.PowerOf2(0) + Bits.PowerOf2(2) + Bits.PowerOf2(8) + Bits.PowerOf2(12) + Bits.PowerOf2(18) + Bits.PowerOf2(20)
  }

  lemma Powers()
    ensures Bits.PowerOf2(3) == 8 && Bits.PowerOf2(5) == 32 && Letters() == 0x14_1105
  {
    Bits.PowersAdd(4, 4); Bits.PowersAdd(8, 4); Bits.PowersAdd(8, 8); Bits.PowersAdd(16, 2); Bits.PowersAdd(16, 4);
    assert Bits.PowerOf2(4) == 16;
  }

  /** The counters are the halves of 64-bit counts; RV64 reads them whole. */
  lemma CountersRead(xlen: Xlen, h: Hart, time: nat)
    requires h.cycle < 0x1_0000_0000_0000_0000 && h.retired < 0x1_0000_0000_0000_0000 && time < 0x1_0000_0000_0000_0000
    ensures xlen == Rv32 ==>
            ReadCsr(xlen, h, time, 0xC00) + 0x1_0000_0000 * ReadCsr(xlen, h, time, 0xC80) == h.cycle &&
            ReadCsr(xlen, h, time, 0xC01) + 0x1_0000_0000 * ReadCsr(xlen, h, time, 0xC81) == time &&
            ReadCsr(xlen, h, time, 0xC02) + 0x1_0000_0000 * ReadCsr(xlen, h, time, 0xC82) == h.retired
    ensures xlen == Rv64 ==>
            ReadCsr(xlen, h, time, 0xC00) == h.cycle && ReadCsr(xlen, h, time, 0xC01) == time &&
            ReadCsr(xlen, h, time, 0xC02) == h.retired
    ensures forall k | k in {0xB00, 0xB02, 0xB80, 0xB82} ::
        ReadCsr(xlen, h, time, k) == ReadCsr(xlen, h, time, k + 0x100)
  {
    hide StatusWord; hide SstatusWord; hide Bits.OfSet;
  }

  /* ---- a write read back ---- */

  /** Scratch, cause and value registers hold what is written; epc drops bit 0. */
  lemma HandlingReadsBack(xlen: Xlen, h: Hart, time: nat, a: nat, v: nat)
    requires a in {0x340, 0x341, 0x342, 0x343, 0x140, 0x141, 0x142, 0x143}
    ensures ReadCsr(xlen, WriteCsr(xlen, h, a, v), time, a) == if a % 0x10 == 1 then v - v % 2 else v
  {
    hide StatusWord; hide SstatusWord; hide Bits.OfSet; hide Bits.SetOf; hide WriteSupervisorSetup;
    hide WriteMachineSetup;
    hide WriteCounter; hide SatpOf; hide SatpWord; hide WriteFloating;
  }

  /** The bits of a CSR that acts bit by bit which a write can set. */
  predicate Settable(a: nat, k: nat) {
    match a
    case 0x302 => k <= 9 || k == 12 || k == 13 || k == 15
    case 0x303 => k == 1 || k == 5 || k == 9
    case 0x304 => k == 1 || k == 3 || k == 5 || k == 7 || k == 9 || k == 11
    case _ => k < 3       // mcounteren and scounteren
  }

  lemma BitsReadBack(xlen: Xlen, h: Hart, time: nat, a: nat, v: nat, k: nat)
    requires a in {0x302, 0x303, 0x304, 0x306, 0x106} && k < Width(xlen)
    ensures On(ReadCsr(xlen, WriteCsr(xlen, h, a, v), time, a), k) <==> Settable(a, k) && On(v, k)
  {
    hide StatusWord; hide SstatusWord; hide Bits.OfSet; hide Bits.SetOf; hide StatusOf; hide Sanitize; hide On;
    var w, s := Width(xlen), Bits.SetOf(v, Width(xlen));
    SetOfIs(v, w, k);
    OfSetIs(s * ExceptionDelegation, w, k);
    OfSetIs(s * SupervisorInterrupts, w, k);
    OfSetIs(s * Interrupts * Interrupts, w, k);
    OfSetIs(s * {0, 1, 2}, w, k);
  }

  /** sie writes the delegated bits of mie and no other. */
  lemma SieReadsBack(xlen: Xlen, h: Hart, time: nat, v: nat, k: nat)
    requires k < Width(xlen) && Only(h.mie, Interrupts)
    ensures var g := WriteCsr(xlen, h, 0x104, v);
            var mine := (k == 1 || k == 5 || k == 9) && k in h.mideleg;
            (On(ReadCsr(xlen, g, time, 0x104), k) <==> mine && On(v, k)) &&
            (On(ReadCsr(xlen, g, time, 0x304), k) <==> if mine then On(v, k) else On(ReadCsr(xlen, h, time, 0x304), k))
  {
    hide StatusWord; hide SstatusWord; hide Bits.OfSet; hide Bits.SetOf; hide StatusOf; hide Sanitize; hide On;
    var w := Width(xlen);
    var g := WriteCsr(xlen, h, 0x104, v);
    SetOfIs(v, w, k);
    OfSetIs(g.mie * g.mideleg * SupervisorInterrupts, w, k);
    OfSetIs(g.mie * Interrupts, w, k);
    OfSetIs(h.mie * Interrupts, w, k);
  }

  /** mip shows the lines and the software bits, of which a write sets those of supervisor level; sip shows the
      delegated ones, and writes the software interrupt alone. */
  lemma PendingReadsBack(xlen: Xlen, h: Hart, time: nat, v: nat, k: nat)
    requires k < Width(xlen)
    ensures var g := WriteCsr(xlen, h, 0x344, v);
            On(ReadCsr(xlen, g, time, 0x344), k) <==>
              k in {1, 3, 5, 7, 9, 11} && (k in h.mipLines || ((k == 1 || k == 5 || k == 9) && On(v, k)))
    ensures var g := WriteCsr(xlen, h, 0x144, v);
            On(ReadCsr(xlen, g, time, 0x144), k) <==>
              k in {1, 5, 9} && k in h.mideleg &&
              (k in h.mipLines || if k == 1 then On(v, k) else k in h.mipSoftware)
  {
    hide StatusWord; hide SstatusWord; hide Bits.OfSet; hide Bits.SetOf; hide StatusOf; hide Sanitize; hide On;
    hide ReadCsr; hide WriteCsr;
    var w := Width(xlen);
    SetOfIs(v, w, k);
    CsrProofs.MipWrite(xlen, h, v);
    var g, g' := WriteCsr(xlen, h, 0x344, v), WriteCsr(xlen, h, 0x144, v);
    PendingReads(xlen, g, time);
    PendingReads(xlen, g', time);
    OfSetIs(Pending(g), w, k);
    OfSetIs(Pending(g') * g'.mideleg * SupervisorInterrupts, w, k);
  }

  lemma PendingReads(xlen: Xlen, h: Hart, time: nat)
    ensures ReadCsr(xlen, h, time, 0x344) == Bits.OfSet(Pending(h), Width(xlen))
    ensures ReadCsr(xlen, h, time, 0x144) == Bits.OfSet(Pending(h) * h.mideleg * SupervisorInterrupts, Width(xlen))
  {
    hide StatusWord; hide SstatusWord; hide Bits.OfSet;
  }

  /** RV32 writes a counter by halves and leaves the other half alone; RV64 writes it whole. */
  lemma CountersReadBack(xlen: Xlen, h: Hart, v: nat)
    requires v < Modulus(xlen) && h.cycle < 0x1_0000_0000_0000_0000 && h.retired < 0x1_0000_0000_0000_0000
    ensures xlen == Rv64 ==>
            WriteCsr(xlen, h, 0xB00, v) == h.(cycle := v) && WriteCsr(xlen, h, 0xB02, v) == h.(retired := v)
    ensures xlen == Rv32 ==>
            WriteCsr(xlen, h, 0xB00, v) == h.(cycle := h.cycle / 0x1_0000_0000 * 0x1_0000_0000 + v) &&
            WriteCsr(xlen, h, 0xB80, v) == h.(cycle := h.cycle % 0x1_0000_0000 + v * 0x1_0000_0000) &&
            WriteCsr(xlen, h, 0xB02, v) == h.(retired := h.retired / 0x1_0000_0000 * 0x1_0000_0000 + v) &&
            WriteCsr(xlen, h, 0xB82, v) == h.(retired := h.retired % 0x1_0000_0000 + v * 0x1_0000_0000)
  {
    hide WriteFloating; hide WriteSupervisorSetup; hide WriteSupervisorHandling; hide WriteMachineSetup;
    hide WriteMachineHandling;
  }

  /** fflags is bits 0 to 4 of fcsr and frm bits 5 to 7; writing either leaves the other alone and makes FS dirty. */
  lemma FloatingReadsBack(h: Hart, time: nat, v: nat)
    requires h.fcsr < 0x100
    ensures var g := WriteCsr(Rv64, h, 0x001, v);
            ReadCsr(Rv64, g, time, 0x001) == v % 32 && ReadCsr(Rv64, g, time, 0x002) == ReadCsr(Rv64, h, time, 0x002) &&
            g.status.fs == Dirty
    ensures var g := WriteCsr(Rv64, h, 0x002, v);
            ReadCsr(Rv64, g, time, 0x002) == v % 8 && ReadCsr(Rv64, g, time, 0x001) == ReadCsr(Rv64, h, time, 0x001) &&
            g.status.fs == Dirty
    ensures var g := WriteCsr(Rv64, h, 0x003, v);
            ReadCsr(Rv64, g, time, 0x003) == v % 0x100 && g.status.fs == Dirty &&
            ReadCsr(Rv64, g, time, 0x003) == ReadCsr(Rv64, g, time, 0x001) + 32 * ReadCsr(Rv64, g, time, 0x002)
  {
    hide StatusWord; hide SstatusWord; hide Bits.OfSet;
    var g := WriteCsr(Rv64, h, 0x003, v);
    assert g.fcsr == v % 0x100;
  }

  /** satp: RV32's mode bit keeps the word whole or clears it; RV64 keeps it in mode 8, clears it in mode 0 and ignores
      any other. */
  lemma SatpReadsBack(xlen: Xlen, h: Hart, time: nat, v: nat)
    requires v < Modulus(xlen)
    ensures var r := ReadCsr(xlen, WriteCsr(xlen, h, 0x180, v), time, 0x180);
            if xlen == Rv32 then r == if v >= 0x8000_0000 then v else 0
            else if v / 0x1000_0000_0000_0000 == 8 then r == v
            else if v / 0x1000_0000_0000_0000 == 0 then r == 0
            else r == ReadCsr(xlen, h, time, 0x180)
  {
    hide StatusWord; hide SstatusWord; hide Bits.OfSet; hide Bits.SetOf; hide WriteSupervisorSetup;
    hide WriteMachineSetup;
    hide WriteCounter; hide WriteFloating; hide SatpWord; hide SatpOf;
    if xlen == Rv32 { SatpWord32(v); } else { SatpWord64(v); }
  }

  lemma SatpWord32(v: nat)
    requires v < 0x1_0000_0000
    ensures SatpWord(Sv32, SatpOf(Rv32, v)) == if v >= 0x8000_0000 then v else 0
  {
    var p := v % 0x40_0000;
    assert v == v / 0x8000_0000 * 0x8000_0000 + v / 0x40_0000 % 0x200 * 0x40_0000 + p;
  }

  lemma SatpWord64(v: nat)
    requires v < 0x1_0000_0000_0000_0000
    ensures SatpWord(Sv39, SatpOf(Rv64, v)) == if v / 0x1000_0000_0000_0000 == 8 then v else 0
  {
    var p, q := v % 0x1000_0000_0000, v / 0x1000_0000_0000;
    hide FrameOf;
    Frame64(p);
    assert v / 0x1000_0000_0000_0000 == q / 0x1_0000;
  }

  lemma Frame64(p: nat)
    requires p < 0x1000_0000_0000
    ensures var f := FrameOf(Sv39, p); f.h2 * 0x4_0000 + f.h1 * 0x200 + f.h0 == p
  {
    var q := p / 0x200;
    assert p / 0x4_0000 == q / 0x200;
  }

  /* ---- which other CSRs a write shows in ---- */

  /** Two addresses of one register, or of registers that one write changes together. */
  predicate Together(a: nat, b: nat) {
    a == b || (ShowsStatus(a) && ShowsStatus(b)) || (IsFcsr(a) && IsFcsr(b)) || (ShowsEnables(a) && ShowsEnables(b)) ||
    (ShowsPending(a) && ShowsPending(b)) || (ShowsCycle(a) && ShowsCycle(b)) || (ShowsRetired(a) && ShowsRetired(b))
  }

  /** A floating-point write makes FS dirty. */
  predicate ShowsStatus(a: nat) { a == 0x100 || a == 0x300 || IsFcsr(a) }

  predicate IsFcsr(a: nat) { a == 0x001 || a == 0x002 || a == 0x003 }

  /** sie and sip show what mideleg delegates. */
  predicate ShowsEnables(a: nat) { a == 0x104 || a == 0x304 || a == 0x303 }

  predicate ShowsPending(a: nat) { a == 0x144 || a == 0x344 || a == 0x303 }

  predicate ShowsCycle(a: nat) { a == 0xB00 || a == 0xB80 || a == 0xC00 || a == 0xC80 }

  predicate ShowsRetired(a: nat) { a == 0xB02 || a == 0xB82 || a == 0xC02 || a == 0xC82 }

  lemma FloatingElsewhere(xlen: Xlen, h: Hart, time: nat, a: nat, v: nat, b: nat)
    requires !Together(a, b) && IsFcsr(a)
    ensures ReadCsr(xlen, WriteFloating(h, a, v), time, b) == ReadCsr(xlen, h, time, b)
  {
    hide StatusWord; hide SstatusWord; hide Bits.OfSet; hide Bits.SetOf; hide StatusOf; hide Sanitize; hide SatpOf;
    hide SatpWord; hide Masked; hide WithSupervisorView; hide TvecOf; hide Even; hide Low; hide High; hide CounterValue;
    hide SatpModeKnown;
  }

  lemma SetupElsewhere(xlen: Xlen, h: Hart, time: nat, a: nat, v: nat, b: nat)
    requires !Together(a, b)
    ensures ReadCsr(xlen, WriteSupervisorSetup(xlen, h, a, v), time, b) == ReadCsr(xlen, h, time, b)
  {
    hide StatusWord; hide SstatusWord; hide Bits.OfSet; hide Bits.SetOf; hide StatusOf; hide Sanitize; hide SatpOf;
    hide SatpWord; hide Masked; hide WithSupervisorView; hide TvecOf; hide Even; hide Low; hide High; hide CounterValue;
    hide SatpModeKnown;
  }

  lemma HandlingElsewhere(xlen: Xlen, h: Hart, time: nat, a: nat, v: nat, b: nat)
    requires !Together(a, b)
    ensures ReadCsr(xlen, WriteSupervisorHandling(xlen, h, a, v), time, b) == ReadCsr(xlen, h, time, b)
  {
    hide StatusWord; hide SstatusWord; hide Bits.OfSet; hide Bits.SetOf; hide StatusOf; hide Sanitize; hide SatpOf;
    hide SatpWord; hide Masked; hide WithSupervisorView; hide TvecOf; hide Even; hide Low; hide High; hide CounterValue;
    hide SatpModeKnown;
  }

  lemma MachineSetupElsewhere(xlen: Xlen, h: Hart, time: nat, a: nat, v: nat, b: nat)
    requires !Together(a, b)
    ensures ReadCsr(xlen, WriteMachineSetup(xlen, h, a, v), time, b) == ReadCsr(xlen, h, time, b)
  {
    hide StatusWord; hide SstatusWord; hide Bits.OfSet; hide Bits.SetOf; hide StatusOf; hide Sanitize; hide SatpOf;
    hide SatpWord; hide Masked; hide WithSupervisorView; hide TvecOf; hide Even; hide Low; hide High; hide CounterValue;
    hide SatpModeKnown;
  }

  lemma MachineHandlingElsewhere(xlen: Xlen, h: Hart, time: nat, a: nat, v: nat, b: nat)
    requires !Together(a, b)
    ensures ReadCsr(xlen, WriteMachineHandling(xlen, h, a, v), time, b) == ReadCsr(xlen, h, time, b)
  {
    hide StatusWord; hide SstatusWord; hide Bits.OfSet; hide Bits.SetOf; hide StatusOf; hide Sanitize; hide SatpOf;
    hide SatpWord; hide Masked; hide WithSupervisorView; hide TvecOf; hide Even; hide Low; hide High; hide CounterValue;
    hide SatpModeKnown;
  }

  lemma CounterElsewhere(xlen: Xlen, h: Hart, time: nat, a: nat, v: nat, b: nat)
    requires !Together(a, b)
    ensures ReadCsr(xlen, WriteCounter(xlen, h, a, v), time, b) == ReadCsr(xlen, h, time, b)
  {
    hide StatusWord; hide SstatusWord; hide Bits.OfSet; hide Bits.SetOf; hide StatusOf; hide Sanitize; hide SatpOf;
    hide SatpWord; hide Masked; hide WithSupervisorView; hide TvecOf; hide Even; hide Low; hide High; hide CounterValue;
    hide SatpModeKnown;
  }

  /** A write shows in no CSR that is not of its register or group. */
  lemma WriteElsewhere(xlen: Xlen, h: Hart, time: nat, a: nat, v: nat, b: nat)
    requires !Together(a, b)
    ensures ReadCsr(xlen, WriteCsr(xlen, h, a, v), time, b) == ReadCsr(xlen, h, time, b)
  {
    hide ReadCsr; hide WriteFloating; hide WriteSupervisorSetup; hide WriteSupervisorHandling; hide WriteMachineSetup;
    hide WriteMachineHandling; hide WriteCounter; hide Together;
    if IsFloating(xlen, a) { FloatingElsewhere(xlen, h, time, a, v, b); }
    else if a < 0x140 { SetupElsewhere(xlen, h, time, a, v, b); }
    else if a < 0x300 { HandlingElsewhere(xlen, h, time, a, v, b); }
    else if a < 0x340 { MachineSetupElsewhere(xlen, h, time, a, v, b); }
    else if a < 0xB00 { MachineHandlingElsewhere(xlen, h, time, a, v, b); }
    else { CounterElsewhere(xlen, h, time, a, v, b); }
  }

  /* ---- the bits of CSRRS and CSRRC ---- */

  lemma OrIs(a: nat, b: nat, width: nat, k: nat)
    requires k < width
    ensures On(Bits.Or(a, b, width), k) <==> On(a, k) || On(b, k)
  {
    hide Bits.Of; hide Bits.Value;
    var x, y := Bits.Of(a, width), Bits.Of(b, width);
    var w := seq(width, i requires 0 <= i < width => x[i] || y[i]);
    Bits.OfValue(w);
    Bits.OfIs(Bits.Value(w), width, k);
    Bits.OfIs(a, width, k);
    Bits.OfIs(b, width, k);
  }

  lemma AndNotIs(a: nat, b: nat, width: nat, k: nat)
    requires k < width
    ensures On(Bits.AndNot(a, b, width), k) <==> On(a, k) && !On(b, k)
  {
    hide Bits.Of; hide Bits.Value;
    var x, y := Bits.Of(a, width), Bits.Of(b, width);
    var w := seq(width, i requires 0 <= i < width => x[i] && !y[i]);
    Bits.OfValue(w);
    Bits.OfIs(Bits.Value(w), width, k);
    Bits.OfIs(a, width, k);
    Bits.OfIs(b, width, k);
  }
}
