/** The block device around its queue: register writes, the layout that they give the rings, and ticks. */
module BlockDevice {
  import opened Wrappers
  import opened Endian
  import opened Virtqueue
  import opened BlockRequest
  import Bits

  const MAX_QUEUE: nat := 128

  /** The driver's registers: 32 bits wide, the queue size 16. */
  datatype Registers = Registers(pageSize: nat, select: nat, num: nat, align: nat, pfn: nat)

  predicate InRange(g: Registers) {
    g.pageSize < 0x1_0000_0000 && g.select < 0x1_0000_0000 && g.num < 0x1_0000 && g.align < 0x1_0000_0000 &&
      g.pfn < 0x1_0000_0000
  }

  predicate IsPowerOfTwo(v: nat) { v != 0 && Bits.And(v, v - 1, 64) == 0 }

  predicate Configured(g: Registers) {
    g.select == 0 && g.pageSize != 0 && g.pfn != 0 && g.num != 0 && g.num <= MAX_QUEUE && IsPowerOfTwo(g.num) &&
      IsPowerOfTwo(g.align)
  }

  function AlignUp(v: nat, alignment: nat): nat
    requires alignment > 0
  {
    Bits.AndNot((v + alignment - 1) % U64, alignment - 1, 64)
  }

  /** update_queue_addresses: descriptors, then the available ring, then the used ring, aligned up. */
  function Located(g: Registers, r: Ring): Ring {
    if !Configured(g) then r.(table := Table(0, g.num), available := 0, used := 0)
    else
      var table := g.pfn * g.pageSize % U64;
      var available := (table + g.num * 16) % U64;
      r.(table := Table(table, g.num), available := available,
        used := AlignUp((available + (4 + g.num * 2)) % U64, g.align))
  }

  /** The device; interrupt is bit 0 of its status, the only one that is ever set. */
  datatype Block = Block(regs: Registers, ring: Ring, notified: bool, interrupt: bool, disk: seq<byte>)

  const NoRing: Ring := Ring(Table(0, 0), 0, 0, 0, 0)

  function Initial(disk: seq<byte>): Block { Block(Registers(0, 0, 0, 4096, 0), NoRing, false, false, disk) }

  /** A status write of 0 keeps the page size, the positions start afresh. */
  function Reset(s: Block): Block { Initial(s.disk).(regs := Registers(s.regs.pageSize, 0, 0, 4096, 0)) }

  function WithRegisters(s: Block, g: Registers): Block { s.(regs := g, ring := Located(g, s.ring)) }

  /** A register write; what is not a word write to a register below the configuration space is refused. */
  function Write(s: Block, offset: nat, width: Width, value: nat): Block {
    var word, g := value % 0x1_0000_0000, s.regs;
    if offset >= 0x100 || width != Word || offset % 4 != 0 then s
    else match offset
      case 0x28 => WithRegisters(s, g.(pageSize := word))
      case 0x30 => WithRegisters(s, g.(select := word))
      case 0x38 => WithRegisters(s, g.(num := word % 0x1_0000))
      case 0x3C => WithRegisters(s, g.(align := word))
      case 0x40 => WithRegisters(s, g.(pfn := word))
      case 0x50 => if word == 0 && Configured(g) then s.(notified := true) else s
      case 0x64 => if word % 2 == 1 then s.(interrupt := false) else s
      case 0x70 => if word == 0 then Reset(s) else s
      case _ => s
  }

  /** process_queue of the device: nothing unless configured and the available index can be read. */
  function ProcessQueue(s: Block, m: Memory): (Block, Memory) {
    if !Configured(s.regs) || s.ring.table.size == 0 || AvailableIndex(m, s.ring).None? then (s, m)
    else
      var served := Serve(m, s.disk, s.ring, AvailableIndex(m, s.ring).value, 0);
      (s.(ring := served.ring, interrupt := s.interrupt || served.count > 0, disk := served.disk), served.m)
  }

  function Tick(s: Block, m: Memory): (Block, Memory) {
    if !s.notified then (s, m) else ProcessQueue(s.(notified := false), m)
  }

  /* ---- the layout ---- */

  lemma PowerOfTwoIs(v: nat)
    requires v < U64
    ensures IsPowerOfTwo(v) <==> Bits.IsPower(v)
  {
    hide Bits.And;
    Bits.PowersOf2();
    if v > 0 { Bits.PowerByMask(v, 64); }
  }

  /** align_up: the least multiple of the alignment that is not below. */
  lemma AlignUpIs(v: nat, alignment: nat)
    requires v + alignment < U64 && IsPowerOfTwo(alignment)
    ensures v <= AlignUp(v, alignment) < v + alignment && AlignUp(v, alignment) % alignment == 0
  {
    hide Bits.And; hide Bits.AndNot; hide IsPowerOfTwo; hide Bits.IsPower; hide Bits.PowerOf2;
    NonZeroPower(alignment);
    PowerOfTwoIs(alignment);
    Bits.PowersOf2();
    var w := v + alignment - 1;
    Small(w);
    Bits.RoundDown(w, alignment, 64);
    Rounded(v, alignment);
  }

  lemma NonZeroPower(v: nat)
    requires IsPowerOfTwo(v)
    ensures v > 0
  {}

  lemma Small(v: nat)
    requires v < U64
    ensures v % U64 == v
  {}

  lemma Rounded(v: nat, a: nat)
    requires a > 0
    ensures var w := v + a - 1; v <= w - w % a < v + a && (w - w % a) % a == 0
  {
    var w := v + a - 1;
    var q := w / a;
    assert w == a * q + w % a;
    Bits.ModIs(a * q, a, q, 0);
  }

  /** The parts of a configured queue follow each other, do not wrap, and the used ring is aligned. */
  predicate LaidOut(g: Registers, r: Ring) {
    r.table == Table(g.pfn * g.pageSize, g.num) && 0 < g.num <= MAX_QUEUE &&
      r.available == r.table.address + 16 * g.num &&
    r.available + 4 + 2 * g.num <= r.used && r.used + 12 + 8 * g.num < U64 && g.align > 0 && r.used % g.align == 0
  }

  lemma ProductBound(a: nat, b: nat, m: nat, n: nat)
    requires a <= m && b <= n
    ensures a * b <= m * n
  {
    assert a * b <= a * n;
    assert a * n <= m * n;
  }

  lemma LocatedIsLaidOut(g: Registers, r: Ring)
    requires InRange(g) && Configured(g)
    ensures LaidOut(g, Located(g, r))
  {
    hide IsPowerOfTwo; hide AlignUp;
    ProductBound(g.pfn, g.pageSize, 0xFFFF_FFFF, 0xFFFF_FFFF);
    NonZeroAlign(g);
    var table := g.pfn * g.pageSize;
    Small(table);
    Small(table + 16 * g.num);
    Small(table + 16 * g.num + (4 + g.num * 2));
    AlignUpIs(table + 16 * g.num + (4 + g.num * 2), g.align);
  }

  lemma NonZeroAlign(g: Registers)
    requires Configured(g)
    ensures g.align > 0
  {}

  /** Between a readable available ring and a writable used element the used index is writable: RAM has
      no holes. */
  lemma LaidOutNeverAhead(m: Memory, g: Registers, r: Ring, available: nat, processed: nat)
    requires LaidOut(g, r)
    ensures !RunsAhead(m, r, available, processed)
  {
    hide Load; hide AvailableHead;
    HeadBacked(m, r);
    SlotBound(r.lastAvailable, g.num, 2);
    SlotBound(r.usedIndex, g.num, 8);
    Small(r.available + 4 + r.lastAvailable % g.num * 2);
    Small(r.used + 2);
    Small(r.used + 4 + r.usedIndex % g.num * 8);
    Small(UsedElement(r) + 4);
  }

  lemma SlotBound(i: nat, n: nat, size: nat)
    requires n > 0
    ensures i % n * size + size <= n * size
  {
    ProductBound(i % n + 1, size, n, size);
    assert (i % n + 1) * size == i % n * size + size;
  }

  lemma HeadBacked(m: Memory, r: Ring)
    requires r.table.size > 0
    ensures AvailableHead(m, r).Some? ==>
        Backed(m, (r.available + 4 + r.lastAvailable % r.table.size * 2) % U64, HalfWord)
  {}

  /** For every memory, disk and queue: a configured device's used index keeps step with the chains taken. */
  lemma ConfiguredKeepsStep(m: Memory, disk: seq<byte>, g: Registers, r: Ring, available: nat)
    requires InRange(g) && Configured(g) && r == Located(g, r)
    ensures r.table.size > 0 && Ahead(Serve(m, disk, r, available, 0).ring) == Ahead(r)
    ensures Serve(m, disk, r, available, 0).ring == Located(g, Serve(m, disk, r, available, 0).ring)
  {
    hide Serve; hide RunsAhead; hide Configured; hide Ahead; hide AlignUp;
    LocatedIsLaidOut(g, r);
    LaidOutNeverAhead(m, g, r, available, 0);
    ServeKeepsStep(m, disk, r, available, 0);
    ServeKeepsPlace(m, disk, r, available, 0);
  }

  lemma {:induction false} ServeKeepsPlace(m: Memory, disk: seq<byte>, r: Ring, available: nat, processed: nat)
    requires r.table.size > 0 && processed <= r.table.size
    ensures var r' := Serve(m, disk, r, available, processed).ring;
            r'.table == r.table && r'.available == r.available && r'.used == r.used
    ensures r.lastAvailable < 0x1_0000 && r.usedIndex < 0x1_0000 ==>
              var r' := Serve(m, disk, r, available, processed).ring;
                  r'.lastAvailable < 0x1_0000 && r'.usedIndex < 0x1_0000
    decreases r.table.size - processed
  {
    hide Process; hide Publish; hide AvailableHead;
    if r.lastAvailable != available && processed < r.table.size && AvailableHead(m, r).Some? {
      var head := AvailableHead(m, r).value;
      var q := Process(m, disk, r.table, head);
      var (m', published) := Publish(q.m, r, head, q.bytes);
      if published == Returned {
        ServeKeepsPlace(m', q.disk, r.(usedIndex := Next16(r.usedIndex), lastAvailable := Next16(r.lastAvailable)),
          available, processed + 1);
      }
    }
  }

  /* ---- runs ---- */

  datatype Op =
    | WriteOp(offset: nat, width: Width, value: nat)
    | TickOp(m: Memory)     // the guest's memory as the driver left it

  function Apply(s: Block, op: Op): Block {
    match op
    case WriteOp(offset, width, value) => Write(s, offset, width, value)
    case TickOp(m) => Tick(s, m).0
  }

  /** The rings lie where the registers put them, and both positions are level. */
  predicate Inv(s: Block) {
    InRange(s.regs) && s.ring == Located(s.regs, s.ring) && s.ring.usedIndex == s.ring.lastAvailable < 0x1_0000
  }

  function Run(s: Block, ops: seq<Op>): seq<Block>
    decreases |ops|
  {
    if ops == [] then [] else [Apply(s, ops[0])] + Run(Apply(s, ops[0]), ops[1..])
  }

  lemma LocatedAgain(g: Registers, r: Ring)
    ensures Located(g, Located(g, r)) == Located(g, r)
  {
    hide Configured; hide AlignUp;
  }

  lemma WriteKeeps(s: Block, offset: nat, width: Width, value: nat)
    requires Inv(s)
    ensures Inv(Write(s, offset, width, value)) && Write(s, offset, width, value).disk == s.disk
  {
    hide Configured; hide Located;
    var word, g := value % 0x1_0000_0000, s.regs;
    forall h: Registers ensures KeepsPositions(Located(h, s.ring), s.ring) &&
        Located(h, Located(h, s.ring)) == Located(h, s.ring) {
      LocatedAgain(h, s.ring);
      LocatedPositions(h, s.ring);
    }
    ResetLocated(s);
  }

  predicate KeepsPositions(r: Ring, r': Ring) { r.lastAvailable == r'.lastAvailable && r.usedIndex == r'.usedIndex }

  lemma LocatedPositions(g: Registers, r: Ring)
    ensures KeepsPositions(Located(g, r), r)
  {
    hide Configured; hide AlignUp;
  }

  lemma ResetLocated(s: Block)
    ensures Located(Reset(s).regs, Reset(s).ring) == Reset(s).ring
  {}

  lemma LevelAhead(r: Ring)
    requires r.usedIndex < 0x1_0000 && r.lastAvailable < 0x1_0000
    ensures Ahead(r) == 0 <==> r.usedIndex == r.lastAvailable
  {}

  lemma TickKeeps(s: Block, m: Memory)
    requires Inv(s)
    ensures Inv(Tick(s, m).0) && |Tick(s, m).0.disk| == |s.disk|
  {
    hide Configured; hide Located; hide Serve; hide Ahead; hide AvailableIndex;
    if s.notified && Configured(s.regs) && s.ring.table.size > 0 && AvailableIndex(m, s.ring).Some? {
      var available := AvailableIndex(m, s.ring).value;
      ConfiguredKeepsStep(m, s.disk, s.regs, s.ring, available);
      ServeKeepsPlace(m, s.disk, s.ring, available, 0);
      ServeKeepsStep(m, s.disk, s.ring, available, 0);
      LevelAhead(s.ring);
      LevelAhead(Serve(m, s.disk, s.ring, available, 0).ring);
    }
  }

  /** Over every run of register writes and ticks, on any memory at each tick: both
      positions of the queue are level after every operation, the rings lie where the registers put
      them, and the disk keeps its size. */
  lemma {:induction false} RunLevel(s: Block, ops: seq<Op>)
    requires Inv(s)
    ensures forall t :: t in Run(s, ops) ==> Inv(t) && |t.disk| == |s.disk|
    decreases |ops|
  {
    hide Inv; hide Write; hide Tick;
    if ops != [] {
      match ops[0] {
        case WriteOp(offset, width, value) => WriteKeeps(s, offset, width, value);
        case TickOp(m) => TickKeeps(s, m);
      }
      RunLevel(Apply(s, ops[0]), ops[1..]);
    }
  }

  lemma PowerOnLevel(disk: seq<byte>, ops: seq<Op>)
    ensures forall t :: t in Run(Initial(disk), ops) ==> Inv(t) && |t.disk| == |disk|
  {
    hide Run;
    assert Inv(Initial(disk));
    RunLevel(Initial(disk), ops);
  }

  /* ---- a request that the network device would refuse ---- */

  /** Page 1 of 4 KiB pages, two descriptors. */
  const LoopingRegisters: Registers := Registers(0x1000, 0, 2, 0x1000, 1)

  /** Two descriptors, header and status; the second still has NEXT, to the first. */
  function LoopingQueue(): Memory { Memory(0x1000, seq(64, i requires 0 <= i => LoopingByte(i))) }

  function LoopingByte(i: nat): byte {
    if i == 0 then 0x20 else if i == 1 || i == 17 || i == 8 then 0x10 else if i == 12 || i == 14 || i == 24 then 1
    else if i == 16 then 0x30 else if i == 28 then 3 else 0
  }

  function TwoAt(a: nat): nat {
    var low: nat, high: nat := LoopingByte(a), LoopingByte(a + 1);
    low + 256 * high
  }

  lemma {:induction false} ZeroBytes(s: seq<byte>)
    requires forall i :: 0 <= i < |s| ==> s[i] == 0
    ensures Value(s) == 0
  {
    if s != [] { ZeroBytes(s[1..]); }
  }

  lemma TwoBytes(s: seq<byte>)
    requires |s| >= 2 && forall i :: 2 <= i < |s| ==> s[i] == 0
    ensures var low: nat, high: nat := s[0], s[1]; Value(s) == low + 256 * high
  {
    ZeroBytes(s[2..]);
    assert s[1..][1..] == s[2..];
  }

  lemma LoopingLoads(a: nat, w: Width)
    requires a + Count(w) <= 64 && w != Byte && forall i: nat :: a + 2 <= i < a + Count(w) ==> LoopingByte(i) == 0
    ensures Load(LoopingQueue(), 0x1000 + a, w) == Some(TwoAt(a))
  {
    TwoBytes(LoopingQueue().bytes[a..a + Count(w)]);
  }

  lemma LoopingDescriptors()
    ensures DescriptorAt(LoopingQueue(), Table(0x1000, 2), 0) == Some(Descriptor(0x1020, 16, 1, 1))
    ensures DescriptorAt(LoopingQueue(), Table(0x1000, 2), 1) == Some(Descriptor(0x1030, 1, 3, 0))
  {
    hide Load; hide LoopingQueue;
    LoopingLoads(0, DoubleWord); LoopingLoads(8, Word); LoopingLoads(12, HalfWord); LoopingLoads(14, HalfWord);
    LoopingLoads(16, DoubleWord); LoopingLoads(24, Word); LoopingLoads(28, HalfWord); LoopingLoads(30, HalfWord);
  }

  lemma LoopingConfigured()
    ensures Configured(LoopingRegisters) && Located(LoopingRegisters, NoRing).table == Table(0x1000, 2)
  {
    hide IsPowerOfTwo; hide AlignUp;
    PowerOfTwoIs(2);
    PowerOfTwoIs(0x1000);
    assert Bits.IsPower(2) && Bits.IsPower(0x1000);
  }

  /** A configured queue whose descriptors never end is served: the request completes with status OK,
      though following NEXT reached only the loop bound. */
  lemma LoopingChainIsServed()
    ensures Configured(LoopingRegisters)
    ensures var m, t := LoopingQueue(), Located(LoopingRegisters, NoRing).table;
            Chain(m, t, 0).1 == Exhausted && Process(m, [], t, 0).completed && Process(m, [], t, 0).status == Some(OK)
  {
    hide Load; hide DescriptorAt; hide LoopingQueue; hide Store; hide Located; hide Configured;
    var m, t := LoopingQueue(), Table(0x1000, 2);
    var d0, d1 := Descriptor(0x1020, 16, 1, 1), Descriptor(0x1030, 1, 3, 0);
    LoopingConfigured();
    LoopingDescriptors();
    assert Collect(m, t, 0, {0} + {1}, 2) == ([], Exhausted);
    assert [d1] + [] == [d1];
    assert Collect(m, t, 1, {0}, 1) == ([d1], Exhausted);
    assert {} + {0} == {0};
    assert [d0] + [d1] == [d0, d1];
    assert Chain(m, t, 0) == ([d0, d1], Exhausted);
    assert Data([d0, d1]) == [];
    LoopingLoads(32, Word);
    LoopingLoads(40, DoubleWord);
    StatusStores();
  }

  lemma StatusStores()
    ensures Store(LoopingQueue(), 0x1030, Byte, OK).Some?
  {}
}
