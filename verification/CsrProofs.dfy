/** Reading a CSR and writing the value back changes nothing, pending interrupt lines included. */
module CsrProofs {
  import opened Wrappers
  import opened Address
  import opened Paging
  import opened Hart
  import opened HartProofs
  import Bits

  lemma SetOfSet(s: set<nat>, width: nat)
    requires forall i :: i in s ==> i < width
    ensures Bits.SetOf(Bits.OfSet(s, width), width) == s
  {
    Bits.OfValue(seq(width, i => i in s));
  }

  lemma SetOfOr(a: nat, b: nat, width: nat)
    ensures Bits.SetOf(Bits.Or(a, b, width), width) == Bits.SetOf(a, width) + Bits.SetOf(b, width)
  {
    hide Bits.Of; hide Bits.Value;
    var x, y := Bits.Of(a, width), Bits.Of(b, width);
    Bits.OfValue(seq(width, i requires 0 <= i < width => x[i] || y[i]));
  }

  lemma SetOfAndNot(a: nat, b: nat, width: nat)
    ensures Bits.SetOf(Bits.AndNot(a, b, width), width) == Bits.SetOf(a, width) - Bits.SetOf(b, width)
  {
    hide Bits.Of; hide Bits.Value;
    var x, y := Bits.Of(a, width), Bits.Of(b, width);
    Bits.OfValue(seq(width, i requires 0 <= i < width => x[i] && !y[i]));
  }

  lemma SmallSet(s: set<nat>, xlen: Xlen)
    requires s <= {0, 1, 2, 3, 4, 5, 6, 7, 8, 9, 11, 12, 13, 15}
    ensures Bits.SetOf(Bits.OfSet(s, Width(xlen)), Width(xlen)) == s
  {
    SetOfSet(s, Width(xlen));
  }

  /* ---- fields and words ---- */

  lemma Frame32(h1: nat, h0: nat)
    requires h1 < 0x1000 && h0 < 0x400
    ensures h1 * 0x400 + h0 < 0x40_0000 && FrameOf(Sv32, h1 * 0x400 + h0) == Frame(0, h1, h0)
  {
    Bits.ModIs(h1 * 0x400 + h0, 0x400, h1, h0);
  }

  lemma Frame39(h2: nat, h1: nat, h0: nat)
    requires h2 < 0x400_0000 && h1 < 0x200 && h0 < 0x200
    ensures var p := h2 * 0x4_0000 + h1 * 0x200 + h0;
            p < 0x1000_0000_0000 && FrameOf(Sv39, p) == Frame(h2, h1, h0)
  {
    var p := h2 * 0x4_0000 + h1 * 0x200 + h0;
    Bits.ModIs(p, 0x4_0000, h2, h1 * 0x200 + h0);
    Bits.ModIs(p, 0x200, h2 * 0x200 + h1, h0);
    Bits.ModIs(h2 * 0x200 + h1, 0x200, h2, h1);
  }

  lemma Fields32(asid: nat, p: nat)
    requires asid < 0x200 && p < 0x40_0000
    ensures var v := 0x8000_0000 + asid * 0x40_0000 + p;
            v / 0x8000_0000 % 2 == 1 && v / 0x40_0000 % 0x200 == asid && v % 0x40_0000 == p
  {
    var v := 0x8000_0000 + asid * 0x40_0000 + p;
    Bits.ModIs(v, 0x8000_0000, 1, asid * 0x40_0000 + p);
    Bits.ModIs(v, 0x40_0000, 0x200 + asid, p);
    Bits.ModIs(0x200 + asid, 0x200, 1, asid);
  }

  lemma Fields64(asid: nat, p: nat)
    requires asid < 0x1_0000 && p < 0x1000_0000_0000
    ensures var v := 0x8000_0000_0000_0000 + asid * 0x1000_0000_0000 + p;
            v / 0x1000_0000_0000_0000 % 16 == 8 && v / 0x1000_0000_0000 % 0x1_0000 == asid && v % 0x1000_0000_0000 == p
  {
    var v := 0x8000_0000_0000_0000 + asid * 0x1000_0000_0000 + p;
    Bits.ModIs(v, 0x1000_0000_0000_0000, 8, asid * 0x1000_0000_0000 + p);
    Bits.ModIs(v, 0x1000_0000_0000, 0x8_0000 + asid, p);
    Bits.ModIs(0x8_0000 + asid, 0x1_0000, 8, asid);
  }

  lemma SatpRoundTrip(xlen: Xlen, s: Satp)
    requires LegalSatp(xlen, s)
    ensures SatpModeKnown(xlen, SatpWord(ModeOf(xlen), s)) && SatpOf(xlen, SatpWord(ModeOf(xlen), s)) == s
  {
    hide FrameOf;
    if !s.paged {
      NoFrame();
    } else {
      match xlen
      case Rv32 =>
        Frame32(s.root.h1, s.root.h0);
        Fields32(s.asid, s.root.h1 * 0x400 + s.root.h0);
      case Rv64 =>
        Frame39(s.root.h2, s.root.h1, s.root.h0);
        Fields64(s.asid, s.root.h2 * 0x4_0000 + s.root.h1 * 0x200 + s.root.h0);
    }
  }

  lemma NoFrame()
    ensures FrameOf(Sv32, 0) == Frame(0, 0, 0) == FrameOf(Sv39, 0)
  {}

  lemma TvecStays(v: nat)
    requires LegalTvec(v)
    ensures TvecOf(v) == v
  {}

  lemma ViewBit(xlen: Xlen, s: Status, i: nat)
    requires i < Width(xlen) && i != 35
    ensures Bits.Of(SstatusWord(xlen, s), Width(xlen))[i] == StatusBit(xlen, SupervisorView(xlen, s), i)
  {
    hide Bits.Of; hide Bits.Value; hide StatusBit; hide SupervisorView;
    Bits.OfValue(seq(Width(xlen), i requires 0 <= i => i != 35 && StatusBit(xlen, SupervisorView(xlen, s), i)));
  }

  /** Writing back what sstatus shows leaves every field of mstatus alone. */
  lemma SstatusRoundTrip(xlen: Xlen, s: Status)
    ensures WithSupervisorView(s, StatusOf(xlen, SstatusWord(xlen, s))) == s
  {
    hide Bits.Of; hide SstatusWord; hide MppOf; hide FsOf;
    ViewBit(xlen, s, 1); ViewBit(xlen, s, 5); ViewBit(xlen, s, 8); ViewBit(xlen, s, 13); ViewBit(xlen, s, 14);
    ViewBit(xlen, s, 18); ViewBit(xlen, s, 19);
    FsSplits(s.fs);
  }

  lemma Halves(v: nat)
    requires v < 0x1_0000_0000_0000_0000
    ensures Low(v) + High(v) * 0x1_0000_0000 == v && v - Low(v) + Low(v) == v
  {}

  /* ---- write back ---- */

  /** What reading for modification and writing the result back makes of the hart. */
  function WrittenBack(xlen: Xlen, h: Hart, time: nat, a: nat): Hart {
    WriteCsr(xlen, h, a, ReadForWrite(xlen, h, a, ReadCsr(xlen, h, time, a)))
  }

  lemma SetupBack(xlen: Xlen, h: Hart, time: nat, a: nat)
    requires Legal(xlen, h) && a in {0x100, 0x105, 0x300, 0x305}
    ensures WrittenBack(xlen, h, time, a) == h
  {
    hide StatusOf; hide TvecOf; hide StatusWord; hide SstatusWord; hide WithSupervisorView; hide Bits.SetOf;
    hide Bits.OfSet; hide SatpWord;
    hide WriteFloating; hide WriteSupervisorHandling; hide WriteMachineHandling; hide WriteCounter; hide LegalTvec;
    StatusRoundTrip(xlen, h.status);
    SstatusRoundTrip(xlen, h.status);
    TvecStays(h.stvec);
    TvecStays(h.mtvec);
  }

  lemma SetsBack(xlen: Xlen, h: Hart, time: nat, a: nat)
    requires Legal(xlen, h) && a in {0x104, 0x106, 0x302, 0x303, 0x304, 0x306}
    ensures WrittenBack(xlen, h, time, a) == h
  {
    hide StatusOf; hide TvecOf; hide StatusWord; hide SstatusWord; hide Bits.SetOf; hide Bits.OfSet; hide SatpWord;
    hide WriteFloating; hide WriteSupervisorHandling; hide WriteMachineHandling; hide WriteCounter; hide LegalTvec;
    hide LegalStatus; hide LegalSatp; hide IsEven;
    SmallSet(h.mie * h.mideleg * SupervisorInterrupts, xlen);
    SmallSet(h.scounteren, xlen);
    SmallSet(h.medeleg, xlen);
    SmallSet(h.mideleg, xlen);
    SmallSet(h.mie * Interrupts, xlen);
    SmallSet(h.mcounteren, xlen);
    SetFacts(h);
  }

  lemma SetFacts(h: Hart)
    requires Only(h.mie, Interrupts) && Only(h.mideleg, SupervisorInterrupts)
    ensures Masked(h.mie, h.mie * h.mideleg * SupervisorInterrupts, h.mideleg * SupervisorInterrupts) == h.mie
    ensures (h.mie * Interrupts) * Interrupts == h.mie
  {}

  lemma HandlingBack(xlen: Xlen, h: Hart, time: nat, a: nat)
    requires Legal(xlen, h) && a in {0x140, 0x141, 0x142, 0x143, 0x180, 0x340, 0x341, 0x342, 0x343}
    ensures WrittenBack(xlen, h, time, a) == h
  {
    hide StatusWord; hide SstatusWord; hide Bits.SetOf; hide Bits.OfSet; hide SatpWord; hide SatpOf; hide Even;
    hide IsEven; hide SatpModeKnown;
    hide WriteFloating; hide WriteSupervisorSetup; hide WriteMachineSetup; hide WriteCounter; hide LegalTvec;
    hide LegalStatus; hide LegalSatp;
    EvenIs(h.sepc);
    EvenIs(h.mepc);
    SatpRoundTrip(xlen, h.satp);
  }

  lemma CountersBack(xlen: Xlen, h: Hart, time: nat, a: nat)
    requires h.cycle < 0x1_0000_0000_0000_0000 && h.retired < 0x1_0000_0000_0000_0000 &&
        a in {0xB00, 0xB02, 0xB80, 0xB82}
    ensures WrittenBack(xlen, h, time, a) == h
  {
    hide StatusWord; hide SstatusWord; hide Bits.SetOf; hide Bits.OfSet; hide SatpWord; hide Low; hide High;
    hide WriteFloating; hide WriteSupervisorSetup; hide WriteMachineSetup; hide WriteSupervisorHandling;
    hide WriteMachineHandling;
    Halves(h.cycle);
    Halves(h.retired);
  }

  /* ---- pending interrupts: lines never leak into the software bits ---- */

  /** mip: what is written keeps exactly the software bits, whatever the lines show. */
  lemma PendingBase(xlen: Xlen, h: Hart, time: nat)
    requires Only(h.mipSoftware, SupervisorInterrupts)
    ensures var w := Width(xlen);
            Bits.SetOf(ReadForWrite(xlen, h, 0x344, ReadCsr(xlen, h, time, 0x344)), w) * SupervisorInterrupts ==
              h.mipSoftware
    ensures var w := Width(xlen);
            Bits.SetOf(ReadForWrite(xlen, h, 0x144, ReadCsr(xlen, h, time, 0x144)), w) * {1} == h.mipSoftware * {1}
  {
    hide StatusWord; hide SstatusWord; hide Bits.SetOf; hide Bits.OfSet; hide SatpWord;
    SmallSet(Pending(h), xlen);
    SmallSet(Masked(Pending(h), h.mipSoftware, SupervisorInterrupts), xlen);
    SmallSet(Pending(h) * h.mideleg * SupervisorInterrupts, xlen);
    SmallSet(Masked(Pending(h) * h.mideleg * SupervisorInterrupts, h.mipSoftware, {1}), xlen);
  }

  lemma MipWrite(xlen: Xlen, h: Hart, value: nat)
    ensures WriteCsr(xlen, h, 0x344, value) == h.(mipSoftware := Bits.SetOf(value, Width(xlen)) * SupervisorInterrupts)
    ensures WriteCsr(xlen, h, 0x144, value) ==
        h.(mipSoftware := Masked(h.mipSoftware, Bits.SetOf(value, Width(xlen)), h.mideleg * {1}))
  {
    hide Bits.SetOf;
  }

  lemma PendingBack(xlen: Xlen, h: Hart, time: nat, a: nat)
    requires Legal(xlen, h) && (a == 0x344 || a == 0x144)
    ensures WrittenBack(xlen, h, time, a) == h
  {
    hide WriteCsr; hide ReadCsr; hide ReadForWrite; hide Bits.SetOf; hide LegalTvec; hide LegalStatus;
    hide LegalSatp; hide IsEven;
    PendingBase(xlen, h, time);
    var value := ReadForWrite(xlen, h, a, ReadCsr(xlen, h, time, a));
    MipWrite(xlen, h, value);
    if a == 0x144 { DelegatedStays(h.mipSoftware, Bits.SetOf(value, Width(xlen)), h.mideleg); }
  }

  lemma DelegatedStays(was: set<nat>, value: set<nat>, mideleg: set<nat>)
    requires value * {1} == was * {1}
    ensures Masked(was, value, mideleg * {1}) == was
  {
    forall i ensures i in Masked(was, value, mideleg * {1}) <==> i in was {
      if i == 1 { assert i in value * {1} <==> i in was * {1}; }
    }
  }

  /** For every writable CSR, a read-modify-write that modifies nothing leaves the hart as it was. */
  lemma WriteBackIsIdentity(xlen: Xlen, h: Hart, time: nat, a: nat)
    requires Legal(xlen, h) && h.cycle < 0x1_0000_0000_0000_0000 && h.retired < 0x1_0000_0000_0000_0000
    requires IsWritable(xlen, a)
    ensures WrittenBack(xlen, h, time, a) == h
  {
    hide WrittenBack; hide Legal;
    if a in {0x100, 0x105, 0x300, 0x305} { SetupBack(xlen, h, time, a); }
    else if a in {0x104, 0x106, 0x302, 0x303, 0x304, 0x306} { SetsBack(xlen, h, time, a); }
    else if a in {0x140, 0x141, 0x142, 0x143, 0x180, 0x340, 0x341, 0x342, 0x343} { HandlingBack(xlen, h, time, a); }
    else if a in {0x344, 0x144} { PendingBack(xlen, h, time, a); }
    else if a in {0xB00, 0xB02, 0xB80, 0xB82} { CountersBack(xlen, h, time, a); }
    else { IgnoredBack(xlen, h, time, a); }
  }

  lemma IgnoredBack(xlen: Xlen, h: Hart, time: nat, a: nat)
    requires a in {0x301, 0x310, 0x312}
    ensures WrittenBack(xlen, h, time, a) == h
  {
    hide ReadCsr; hide ReadForWrite;
  }

  /** CSRRS and CSRRC on mip set and clear exactly the writable software bits they name, whatever
      the interrupt lines show at the time. */
  lemma MipModifiesSoftwareOnly(xlen: Xlen, h: Hart, time: nat, mask: nat)
    requires Legal(xlen, h)
    ensures var w := Width(xlen);
            var base := ReadForWrite(xlen, h, 0x344, ReadCsr(xlen, h, time, 0x344));
            WriteCsr(xlen, h, 0x344, Bits.Or(base, mask, w)) ==
              h.(mipSoftware := h.mipSoftware + Bits.SetOf(mask, w) * SupervisorInterrupts) &&
            WriteCsr(xlen, h, 0x344, Bits.AndNot(base, mask, w)) ==
              h.(mipSoftware := h.mipSoftware - Bits.SetOf(mask, w))
  {
    hide WriteCsr; hide ReadCsr; hide ReadForWrite; hide Bits.SetOf; hide Bits.Or; hide Bits.AndNot; hide LegalTvec;
    hide LegalStatus; hide LegalSatp; hide IsEven;
    var w := Width(xlen);
    var base := ReadForWrite(xlen, h, 0x344, ReadCsr(xlen, h, time, 0x344));
    PendingBase(xlen, h, time);
    SetOfOr(base, mask, w);
    SetOfAndNot(base, mask, w);
    MipWrite(xlen, h, Bits.Or(base, mask, w));
    MipWrite(xlen, h, Bits.AndNot(base, mask, w));
    Distributes(Bits.SetOf(base, w), Bits.SetOf(mask, w), h.mipSoftware);
  }

  lemma Distributes(base: set<nat>, mask: set<nat>, software: set<nat>)
    requires base * SupervisorInterrupts == software
    ensures (base + mask) * SupervisorInterrupts == software + mask * SupervisorInterrupts
    ensures (base - mask) * SupervisorInterrupts == software - mask
  {
    forall i ensures i in (base - mask) * SupervisorInterrupts <==> i in software - mask {
      assert i in base * SupervisorInterrupts <==> i in software;
    }
    forall i ensures i in (base + mask) * SupervisorInterrupts <==> i in software + mask * SupervisorInterrupts {
      assert i in base * SupervisorInterrupts <==> i in software;
    }
  }
}
