/** The block device by bytes and registers: how descriptors and request headers lie in guest memory, which chains
    complete with which status, and how a driver sets up the queue and sees it served. */
module RequestRules {
  import opened Wrappers
  import opened Endian
  import opened Virtqueue
  import opened BlockRequest
  import opened BlockDevice
  import opened UsedRing
  import opened ReturnedChains
  import Bits

  /** The n bytes from a on lie in memory. */
  predicate Lies(m: Memory, a: nat, n: nat) { m.base <= a && a + n <= m.base + |m.bytes| }

  function BytesAt(m: Memory, a: nat, n: nat): (r: seq<byte>)
    requires Lies(m, a, n)
    ensures |r| == n
  {
    m.bytes[a - m.base..a - m.base + n]
  }

  lemma LoadIs(m: Memory, a: nat, w: Width)
    ensures Load(m, a, w).Some? <==> Lies(m, a, Count(w))
    ensures Lies(m, a, Count(w)) ==> Bytes(Load(m, a, w).value, Count(w)) == BytesAt(m, a, Count(w))
  {
    hide Bytes; hide Endian.Value;
    if Lies(m, a, Count(w)) { BytesOfValue(BytesAt(m, a, Count(w))); }
  }

  /** A descriptor is 16 bytes: address, length, flags and next, least significant byte first. */
  lemma DescriptorBytes(m: Memory, t: Table, i: nat)
    requires t.address + i * 16 + 16 <= U64
    ensures var a := t.address + i * 16;
            (DescriptorAt(m, t, i).Some? <==> Lies(m, a, 16)) &&
            (Lies(m, a, 16) ==>
               var d := DescriptorAt(m, t, i).value;
               BytesAt(m, a, 16) == Bytes(d.address, 8) + Bytes(d.length, 4) + Bytes(d.flags, 2) + Bytes(d.next, 2))
  {
    hide Load; hide Bytes;
    var a := t.address + i * 16;
    UsedRing.Small(a); UsedRing.Small(a + 8); UsedRing.Small(a + 12); UsedRing.Small(a + 14);
    LoadIs(m, a, DoubleWord); LoadIs(m, a + 8, Word); LoadIs(m, a + 12, HalfWord); LoadIs(m, a + 14, HalfWord);
    if Lies(m, a, 16) {
      assert BytesAt(m, a, 16) == BytesAt(m, a, 8) + BytesAt(m, a + 8, 4) + BytesAt(m, a + 12, 2) + BytesAt(m, a + 14,
          2);
    }
  }

  /** A request's header is 16 bytes: its type in four, four that are not looked at, its sector in eight. */
  lemma HeaderBytes(m: Memory, chain: seq<Descriptor>)
    requires chain != [] && chain[0].address + 16 <= U64
    ensures var a := chain[0].address;
            (Header(m, chain).Some? <==> Lies(m, a, 16)) &&
            (Lies(m, a, 16) ==>
               var (kind, sector) := Header(m, chain).value;
               BytesAt(m, a, 4) == Bytes(kind, 4) && BytesAt(m, a + 8, 8) == Bytes(sector, 8))
  {
    hide Load; hide Bytes;
    var a := chain[0].address;
    UsedRing.Small(a + 8);
    LoadIs(m, a, Word); LoadIs(m, a + 8, DoubleWord);
  }

  /* ---- which status ---- */

  lemma {:induction false} GatherAll(m: Memory, at: seq<nat>)
    ensures Gather(m, at).Some? <==> forall a :: a in at ==> Holds(m, a)
  {
    if at != [] {
      GatherAll(m, at[1..]);
      assert forall a :: a in at <==> a == at[0] || a in at[1..];
    }
  }

  lemma {:induction false} ScatterAll(m: Memory, at: seq<nat>, data: seq<byte>)
    requires |data| == |at|
    ensures Scatter(m, at, data).1 == |at| <==> forall a :: a in at ==> Holds(m, a)
    decreases |at|
  {
    if at != [] {
      assert forall a :: a in at <==> a == at[0] || a in at[1..];
      if Holds(m, at[0]) {
        var m1 := WithByte(m, at[0], data[0]);
        ScatterAll(m1, at[1..], data[1..]);
        assert forall a: nat :: Holds(m1, a) <==> Holds(m, a);
      } else {
        assert at[0] in at;
      }
    }
  }

  /** The data buffers of a request can be moved: each may be written by the device exactly for a read, all of their
      bytes lie in memory, and together they fit the disk from the sector on. */
  predicate Movable(m: Memory, size: nat, chain: seq<Descriptor>, kind: nat, sector: nat)
    requires |chain| >= 2
  {
    (forall k :: 1 <= k < |chain| - 1 ==> (IsWrite(chain[k]) <==> kind == 0)) &&
    (forall a :: a in DataPlaces(chain) ==> Holds(m, a)) &&
    (|chain| > 2 ==> sector * 512 + |DataPlaces(chain)| <= size)
  }

  /** A header of 16 bytes, at least one more descriptor, and a last one that the device may write. */
  predicate Shaped(m: Memory, chain: seq<Descriptor>) {
    |chain| >= 2 && chain[0].length >= 16 && chain[|chain| - 1].length >= 1 && IsWrite(chain[|chain| - 1]) &&
    Header(m, chain).Some?
  }

  lemma SuitsIs(m: Memory, chain: seq<Descriptor>, kind: nat, sector: nat, size: nat)
    requires |chain| >= 2 && kind <= 1
    ensures Movable(m, size, chain, kind, sector) <==>
            Suits(Data(chain), kind == 1, size, sector * 512) && forall a :: a in DataPlaces(chain) ==> Holds(m, a)
  {
    hide AllPlaces; hide Holds;
    var ds := Data(chain);
    if forall k :: 1 <= k < |chain| - 1 ==> (IsWrite(chain[k]) <==> kind == 0) {
      forall k | 0 <= k < |ds| ensures IsWrite(ds[k]) != (kind == 1) { assert ds[k] == chain[k + 1]; }
    }
    if forall k :: 0 <= k < |ds| ==> IsWrite(ds[k]) != (kind == 1) {
      forall k | 1 <= k < |chain| - 1 ensures IsWrite(chain[k]) <==> kind == 0 { assert ds[k - 1] == chain[k]; }
    }
  }

  /** A request completes exactly when its chain was accepted, is well formed and its status byte can be written. The
      status is then 2 for a type other than read and write, 0 when its buffers can be moved, and else 1. */
  lemma StatusIs(m: Memory, disk: seq<byte>, t: Table, head: nat)
    ensures var (chain, ending) := Chain(m, t, head);
            var r := Process(m, disk, t, head);
            (r.completed <==> !ending.Broken? && Shaped(m, chain) && Holds(m, chain[|chain| - 1].address)) &&
            (r.completed ==>
               var (kind, sector) := Header(m, chain).value;
               r.status == Some(if kind > 1 then 2
                                else if sector < 0x80_0000_0000_0000 &&
                                    Movable(m, |disk|, chain, kind, sector) then 0 else 1))
  {
    hide Chain; hide Header; hide Store; hide Transfer; hide Movable; hide Holds; hide AllPlaces;
    var (chain, ending) := Chain(m, t, head);
    if !ending.Broken? && WellShaped(chain) && Header(m, chain).Some? {
      var (kind, sector) := Header(m, chain).value;
      BodyStatus(m, disk, chain, kind, sector);
      var p := Body(m, disk, chain, kind, sector);
      StatusStores(p.m, chain[|chain| - 1].address, p.status);
      SameHolds(m, p.m, chain[|chain| - 1].address);
    }
  }

  lemma StatusStores(m: Memory, a: nat, v: nat)
    ensures Store(m, a, Byte, v).Some? <==> Holds(m, a)
  {}

  lemma SameHolds(m: Memory, m': Memory, a: nat)
    ensures SameShape(m, m') ==> Holds(m', a) == Holds(m, a)
  {}

  lemma BodyStatus(m: Memory, disk: seq<byte>, chain: seq<Descriptor>, kind: nat, sector: nat)
    requires |chain| >= 2
    ensures var p := Body(m, disk, chain, kind, sector);
            SameShape(m, p.m) &&
            p.status == if kind > 1 then 2
                        else if sector < 0x80_0000_0000_0000 && Movable(m, |disk|, chain, kind, sector) then 0 else 1
  {
    hide Transfer; hide Movable; hide Holds; hide AllPlaces; hide Suits; hide Gather; hide Scatter;
    var p0 := Progress(m, disk, 0, if sector > (U64 - 1) / SECTOR then 0 else sector * SECTOR,
        FirstStatus(kind, sector));
    TransferShape(p0, kind == 1, Data(chain));
    StuckTransfer(p0, kind == 1, Data(chain));
    if kind <= 1 {
      SuitsIs(m, chain, kind, sector, |disk|);
      if p0.status == OK {
        MovedStatus(p0, kind == 1, Data(chain));
        NoneMissing(m, chain);
      }
    }
  }

  lemma NoneMissing(m: Memory, chain: seq<Descriptor>)
    requires |chain| >= 2
    ensures Data(chain) == [] ==> DataPlaces(chain) == []
  {}

  /** Data moves with status OK or IO_ERROR: OK exactly when the buffers suit and are all backed. */
  lemma MovedStatus(p: Progress, write: bool, ds: seq<Descriptor>)
    requires p.status == OK
    ensures var r := Transfer(p, write, ds);
            (r.status == 0 <==> Suits(ds, write, |p.disk|, p.offset) && forall a ::
              a in AllPlaces(ds) ==> Holds(p.m, a)) &&
            (r.status == 0 || r.status == 1)
  {
    hide Transfer; hide Suits; hide Gather; hide Scatter; hide Holds; hide AllPlaces;
    TwoStatuses(p, write, ds);
    if write {
      WritesWhole(p, ds);
      GatherAll(p.m, AllPlaces(ds));
    } else {
      ReadsWhole(p, ds);
      if Suits(ds, false, |p.disk|, p.offset) {
        if ds == [] { NoPlaces(); }
        else {
          SuitsFit(ds, false, |p.disk|, p.offset);
          ScatterAll(p.m, AllPlaces(ds), p.disk[p.offset..p.offset + |AllPlaces(ds)|]);
        }
      }
    }
  }

  lemma {:induction false} TwoStatuses(p: Progress, write: bool, ds: seq<Descriptor>)
    requires p.status == 0 || p.status == 1
    ensures var r := Transfer(p, write, ds); r.status == 0 || r.status == 1
    decreases |ds|
  {
    hide WriteChunks; hide ReadChunks;
    if ds != [] && p.status == OK { TwoStatuses(TransferOne(p, write, ds[0]), write, ds[1..]); }
  }

  /* ---- the driver's side ---- */

  /** Page size, queue, size, alignment, page: written in the order of the registers, to their offsets. */
  function SetUp(s: Block, pageSize: nat, num: nat, align: nat, pfn: nat): Block {
    var s1 := Write(s, 0x28, Word, pageSize);
    var s2 := Write(s1, 0x30, Word, 0);
    var s3 := Write(s2, 0x38, Word, num);
    var s4 := Write(s3, 0x3C, Word, align);
    Write(s4, 0x40, Word, pfn)
  }

  predicate IsSetUp(s: Block, q: Block, pageSize: nat, num: nat, align: nat, pfn: nat) {
    BlockDevice.InRange(q.regs) && Configured(q.regs) && q.ring == Located(q.regs, q.ring) &&
    q.ring.table.size == num && q.ring.table.address == pfn * pageSize &&
    q.ring.available == q.ring.table.address + 16 * num &&
    q.ring.available + 4 + 2 * num <= q.ring.used < q.ring.available + 4 + 2 * num + align &&
    align > 0 && q.ring.used % align == 0 &&
    q == s.(regs := q.regs, ring := q.ring) && KeepsPositions(q.ring, s.ring)
  }

  /** The queue then is where a driver of the legacy layout expects it: descriptors at the page, the available ring
      after them, and the used ring at the next multiple of the alignment. A notification makes the next tick serve
      it, and an acknowledgement takes the interrupt back. */
  lemma DriverSetsUp(s: Block, pageSize: nat, num: nat, align: nat, pfn: nat)
    requires BlockDevice.InRange(s.regs) && 0 < pageSize < 0x1_0000_0000 && 0 < pfn < 0x1_0000_0000
    requires Bits.IsPower(num) && num <= 128 && Bits.IsPower(align) && align < 0x1_0000_0000
    ensures var q := SetUp(s, pageSize, num, align, pfn);
            IsSetUp(s, q, pageSize, num, align, pfn) &&
            Write(q, 0x50, Word, 0) == q.(notified := true) && Write(q, 0x64, Word, 1) == q.(interrupt := false)
  {
    hide Located; hide IsPowerOfTwo; hide Bits.IsPower; hide AlignUp;
    Positive(num);
    Positive(align);
    PowerOfTwoIs(num);
    PowerOfTwoIs(align);
    var q := SetUp(s, pageSize, num, align, pfn);
    var g := Registers(pageSize, 0, num, align, pfn);
    var s1 := Write(s, 0x28, Word, pageSize);
    var s2 := Write(s1, 0x30, Word, 0);
    var s3 := Write(s2, 0x38, Word, num);
    var s4 := Write(s3, 0x3C, Word, align);
    assert q.regs == g && q.ring == Located(g, s4.ring);
    LocatedPositions(s1.regs, s.ring); LocatedPositions(s2.regs, s1.ring); LocatedPositions(s3.regs, s2.ring);
    LocatedPositions(s4.regs, s3.ring); LocatedPositions(g, s4.ring);
    LocatedAgain(g, s4.ring);
    LocatedIsLaidOut(g, s4.ring);
    UsedIs(g, s4.ring);
  }

  /** Writing 0 to the status register forgets all but the page size and the disk; a write that is not a word to a
      register below the configuration space changes nothing. */
  lemma ResetEffect(s: Block, offset: nat, width: Width, value: nat)
    ensures Write(s, 0x70, Word, 0) == Initial(s.disk).(regs := Registers(s.regs.pageSize, 0, 0, 0x1000, 0))
    ensures offset >= 0x100 || width != Word || offset % 4 != 0 ==> Write(s, offset, width, value) == s
  {}

  lemma Positive(v: nat)
    requires Bits.IsPower(v)
    ensures v > 0
  {}

  lemma UsedIs(g: Registers, r: Ring)
    requires BlockDevice.InRange(g) && Configured(g)
    ensures var l := Located(g, r); l.used < l.available + 4 + 2 * g.num + g.align
  {
    hide IsPowerOfTwo; hide AlignUp; hide Configured;
    LocatedIsLaidOut(g, r);
    UsedAligned(g, r);
    AlignUpIs(Located(g, r).available + (4 + g.num * 2), g.align) by { AlignedPower(g); }
  }

  lemma AlignedPower(g: Registers)
    requires Configured(g)
    ensures IsPowerOfTwo(g.align)
  {}

  lemma UsedAligned(g: Registers, r: Ring)
    requires BlockDevice.InRange(g) && Configured(g)
    ensures var l := Located(g, r);
            g.align > 0 && l.used == AlignUp(l.available + (4 + g.num * 2), g.align) &&
            l.available + (4 + g.num * 2) + g.align < U64
  {
    hide IsPowerOfTwo; hide AlignUp;
    LocatedIsLaidOut(g, r);
    NonZeroAlign(g);
    ProductBound(g.pfn, g.pageSize, 0xFFFF_FFFF, 0xFFFF_FFFF);
    UsedRing.Small(Located(g, r).available + (4 + g.num * 2));
  }

  /** A tick of a notified, configured device whose rings lie in RAM: the used ring holds the chains that the driver had
      published, in order and with their lengths, the interrupt is raised when there was one, and the notification is
      gone. A device that was not notified does nothing. */
  lemma TickServes(s: Block, m: Memory)
    requires BlockDevice.Inv(s) && Configured(s.regs) && m.base <= s.ring.available &&
        RingsEnd(s.ring) <= m.base + |m.bytes|
    requires s.ring.table.size > 0 && Load(m, s.ring.available + 2, HalfWord).Some?
    requires ServeOff(m, s.disk, s.ring, Load(m, s.ring.available + 2, HalfWord).value, 0)
    ensures var published := Load(m, s.ring.available + 2, HalfWord).value;
            var turns, (s', m') := ServeTurns(m, s.disk, s.ring, published, 0), Tick(s, m);
            if !s.notified then (s', m') == (s, m)
            else
              Filled(m, s.ring, turns, m') && (forall j :: 0 <= j < |turns| ==> Processed(turns[j], s.ring.table)) &&
              |turns| == Min(s.ring.table.size, Behind(published, s.ring.lastAvailable)) &&
              !s'.notified && s'.interrupt == (s.interrupt || turns != []) && s'.regs == s.regs
  {
    hide Serve; hide ServeTurns; hide ServeOff; hide Filled; hide Processed; hide Configured; hide Located; hide Load;
    ConfiguredInRam(m, s.regs, s.ring);
    SameRingsRefl(m, s.ring);
    IndexStays(m, m, s.ring);
    IndexIs(m, s.ring);
    ServeReturns(m, s.disk, s.ring, Load(m, s.ring.available + 2, HalfWord).value);
  }

  lemma IndexIs(m: Memory, r: Ring)
    requires InRam(m, r)
    ensures AvailableIndex(m, r) == Load(m, r.available + 2, HalfWord)
  {
    UsedRing.Small(r.available + 2);
  }
}
