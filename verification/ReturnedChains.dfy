/** The queue loops of both devices, turn by turn: which chains they return, with what byte counts, and what they
    did with the chain of each turn. */
module ReturnedChains {
  import opened Wrappers
  import opened Endian
  import opened Virtqueue
  import opened BlockRequest
  import opened NetState
  import opened UsedRing
  import opened BlockDevice
  import Bits

  /** The address is outside both rings. */
  predicate OffRings(a: nat, r: Ring) { a < r.available || a >= RingsEnd(r) }

  /* ---- the block device ---- */

  /** The data buffers and the status byte of a request keep off the rings. */
  predicate RequestOff(chain: seq<Descriptor>, r: Ring) {
    |chain| >= 2 ==>
      (forall a :: a in DataPlaces(chain) ==> OffRings(a, r)) && OffRings(chain[|chain| - 1].address, r)
  }

  /** Every request that the loop serves keeps off the rings. */
  predicate ServeOff(m: Memory, disk: seq<byte>, r: Ring, available: nat, processed: nat)
    requires r.table.size > 0 && processed <= r.table.size
    decreases r.table.size - processed
  {
    r.lastAvailable != available && processed < r.table.size && AvailableHead(m, r).Some? ==>
      var head := AvailableHead(m, r).value;
      var q := Process(m, disk, r.table, head);
      RequestOff(Chain(m, r.table, head).0, r) &&
      ServeOff(Publish(q.m, r, head, q.bytes).0, q.disk, Advanced(r), available, processed + 1)
  }

  /** The turns of the loop. */
  function ServeTurns(m: Memory, disk: seq<byte>, r: Ring, available: nat, processed: nat): seq<Turn>
    requires r.table.size > 0 && processed <= r.table.size
    decreases r.table.size - processed
  {
    if r.lastAvailable == available || processed == r.table.size || AvailableHead(m, r).None? then []
    else
      var head := AvailableHead(m, r).value;
      var q := Process(m, disk, r.table, head);
      var (m', published) := Publish(q.m, r, head, q.bytes);
      if published != Returned then []
      else [Turn(head, q.bytes, m, q.m, m')] + ServeTurns(m', q.disk, Advanced(r), available, processed + 1)
  }

  /** A request writes nothing but its data buffers and its status byte. */
  lemma ProcessWrites(m: Memory, disk: seq<byte>, t: Table, head: nat, a: nat)
    requires Holds(m, a)
    requires var chain := Chain(m, t, head).0;
             |chain| >= 2 ==> a !in DataPlaces(chain) && a != chain[|chain| - 1].address
    ensures var m' := Process(m, disk, t, head).m; Holds(m', a) && ByteAt(m', a) == ByteAt(m, a)
  {
    hide Chain; hide Header; hide TransferOne; hide Transfer; hide Store; hide Holds; hide ByteAt; hide AllPlaces;
    var (chain, ending) := Chain(m, t, head);
    if !ending.Broken? && WellShaped(chain) && Header(m, chain).Some? {
      var (kind, sector) := Header(m, chain).value;
      TransferWrites(Progress(m, disk, 0, if sector > (U64 - 1) / SECTOR then 0 else sector * SECTOR,
        FirstStatus(kind, sector)), kind == 1, Data(chain), a);
      var p := Body(m, disk, chain, kind, sector);
      var at := chain[|chain| - 1].address;
      ByteStored(p.m, at, p.status, a);
    }
  }

  lemma ByteStored(m: Memory, at: nat, v: nat, a: nat)
    requires Holds(m, a) && a != at
    ensures Store(m, at, Byte, v).Some? ==>
        Holds(Store(m, at, Byte, v).value, a) && ByteAt(Store(m, at, Byte, v).value, a) == ByteAt(m, a)
  {
    if Store(m, at, Byte, v).Some? { StoreBytes(m, at, Byte, v, a); }
  }

  lemma {:induction false} TransferWrites(p: Progress, write: bool, ds: seq<Descriptor>, a: nat)
    requires Holds(p.m, a) && a !in AllPlaces(ds)
    ensures var m' := Transfer(p, write, ds).m; Holds(m', a) && ByteAt(m', a) == ByteAt(p.m, a)
    decreases |ds|
  {
    hide WriteChunks; hide ReadChunks; hide Holds; hide ByteAt; hide Places;
    if ds != [] && p.status == OK {
      var d := ds[0];
      if InBounds(|p.disk|, p.offset, d.length) && !write {
        ReadChunksIsScatter(p.m, p.disk, p.offset, d.address, d.length, 0);
        ScatterElsewhere(p.m, Places(d.address, d.length), p.disk[p.offset..p.offset + d.length], a);
      }
      TransferWrites(TransferOne(p, write, d), write, ds[1..], a);
    }
  }

  lemma RequestSpares(m: Memory, disk: seq<byte>, r: Ring, head: nat)
    requires RequestOff(Chain(m, r.table, head).0, r)
    ensures SameRings(m, Process(m, disk, r.table, head).m, r)
  {
    hide Process; hide Chain; hide AllPlaces; hide Holds; hide ByteAt; hide SameShape; hide RingsEnd;
    ProcessShape(m, disk, r.table, head);
    forall a: nat | Holds(m, a) && r.available <= a < RingsEnd(r)
      ensures var m' := Process(m, disk, r.table, head).m; Holds(m', a) && ByteAt(m', a) == ByteAt(m, a) {
      ProcessWrites(m, disk, r.table, head, a);
    }
  }

  /** The turn's chain was processed for some content of the disk. */
  ghost predicate Processed(t: Turn, table: Table) {
    exists disk, disk': seq<byte>, completed, status ::
      Process(t.before, disk, table, t.head) == Result(t.filled, disk', completed, t.bytes, status)
  }

  lemma {:induction false} ServeIsTurns(m: Memory, disk: seq<byte>, r: Ring, available: nat, processed: nat)
    requires InRam(m, r) && processed <= r.table.size && ServeOff(m, disk, r, available, processed)
    requires r.lastAvailable < 0x1_0000 && available < 0x1_0000
    ensures var turns, s := ServeTurns(m, disk, r, available, processed), Serve(m, disk, r, available, processed);
            Turns(m, r, turns) && Ended(m, turns) == s.m && s.count == processed + |turns| &&
            processed + |turns| == Min(r.table.size, processed + Behind(available, r.lastAvailable)) &&
            forall j :: 0 <= j < |turns| ==> Processed(turns[j], r.table)
    decreases r.table.size - processed
  {
    hide Behind; hide Process; hide Publish; hide InRam; hide SameRings; hide RequestOff; hide Chain;
    hide AvailableHead;
    hide SameShape;
    InRamSize(m, r);
    Distance(r.lastAvailable, available);
    InRamReturns(m, r, 0, 0);
    if r.lastAvailable != available && processed < r.table.size {
      var head := AvailableHead(m, r).value;
      var q := Process(m, disk, r.table, head);
      RequestSpares(m, disk, r, head);
      ProcessShape(m, disk, r.table, head);
      InRamStays(m, q.m, r);
      InRamReturns(q.m, r, head, q.bytes);
      PublishOutcome(q.m, r, head, q.bytes);
      var m' := Publish(q.m, r, head, q.bytes).0;
      InRamStays(q.m, m', r);
      ServeIsTurns(m', q.disk, Advanced(r), available, processed + 1);
      var turns := ServeTurns(m, disk, r, available, processed);
      assert turns[1..] == ServeTurns(m', q.disk, Advanced(r), available, processed + 1);
      assert Process(m, disk, r.table, head) == Result(q.m, q.disk, q.completed, q.bytes, q.status);
      forall j | 0 <= j < |turns| ensures Processed(turns[j], r.table) {
        if j > 0 { assert turns[j] == turns[1..][j - 1]; }
      }
    }
  }

  /** How many chains were published and not yet taken: both positions are 16 bits wide. */
  function Behind(available: int, last: int): nat { (available - last) % 0x1_0000 }

  lemma Distance(last: nat, available: nat)
    requires last < 0x1_0000 && available < 0x1_0000
    ensures Behind(available, last) == 0 <==> last == available
    ensures last != available ==> Behind(available, Next16(last)) == Behind(available, last) - 1
  {}

  /** process_queue: when the rings lie in RAM and the requests keep off them, the device serves every chain that the
      driver had published, up to the size of the queue, and the used ring then holds their heads in the order of the
      available ring, each with the byte count of its request. */
  lemma ServeReturns(m: Memory, disk: seq<byte>, r: Ring, available: nat)
    requires InRam(m, r) && ServeOff(m, disk, r, available, 0) && r.lastAvailable < 0x1_0000 && available < 0x1_0000
    ensures var turns, s := ServeTurns(m, disk, r, available, 0), Serve(m, disk, r, available, 0);
            Filled(m, r, turns, s.m) && s.count == |turns| &&
            |turns| == Min(r.table.size, Behind(available, r.lastAvailable)) &&
            forall j :: 0 <= j < |turns| ==> Processed(turns[j], r.table)
  {
    hide Serve; hide ServeTurns; hide ServeOff; hide Turns; hide Filled; hide Processed;
    ServeIsTurns(m, disk, r, available, 0);
    TurnsFill(m, r, ServeTurns(m, disk, r, available, 0));
  }

  lemma SmallPowers(n: nat)
    requires Bits.IsPower(n) && n <= 128
    ensures 0x1_0000 % n == 0
  {
    PowerCases(n);
  }

  lemma PowerCases(n: nat)
    requires Bits.IsPower(n) && n <= 128
    ensures n == 1 || n == 2 || n == 4 || n == 8 || n == 16 || n == 32 || n == 64 || n == 128
  {
    if n > 1 { PowerCases(n / 2); }
  }

  /** That is so of every configured block device whose rings RAM holds. */
  lemma ConfiguredInRam(m: Memory, g: Registers, r: Ring)
    requires BlockDevice.InRange(g) && Configured(g) && r == Located(g, r)
    requires m.base <= r.available && RingsEnd(r) <= m.base + |m.bytes|
    ensures InRam(m, r)
  {
    hide IsPowerOfTwo; hide AlignUp; hide Bits.IsPower;
    LocatedIsLaidOut(g, r);
    PowerOfTwoIs(g.num);
    SmallPowers(g.num);
  }

  /* ---- the network device: receive ---- */

  /** The buffers of a chain keep off the rings. */
  predicate BuffersOff(chain: seq<Descriptor>, r: Ring) { forall a :: a in AllPlaces(chain) ==> OffRings(a, r) }

  /** What one turn does with its frame: delivers it and reports header and frame, or writes nothing and reports 0,
      unless a byte of the buffers faults on the way. */
  predicate Delivers(t: Turn, table: Table, f: Frame) {
    var (chain, ending) := Chain(t.before, table, t.head);
    if ending != Complete then t.filled == t.before && t.bytes == 0
    else
      var (m', delivered, _) := Receive(t.before, chain, f);
      t.filled == m' && t.bytes == if delivered then 10 + |f| else 0
  }

  /** Turn j delivered frame j, and the rest is still pending. */
  predicate InOrder(pending: seq<NetState.Frame>, left: seq<NetState.Frame>, turns: seq<Turn>, table: Table) {
    |turns| <= |pending| && left == pending[|turns|..] &&
    forall j :: 0 <= j < |turns| ==> Delivers(turns[j], table, pending[j])
  }

  predicate ReceiveOff(n: Net, m: Memory, processed: nat)
    requires n.rx.ring.table.size > 0 && processed <= n.rx.ring.table.size
    decreases n.rx.ring.table.size - processed
  {
    var r := n.rx.ring;
    n.pending != [] && processed < r.table.size && AvailableHead(m, r).Some? ==>
      var head := AvailableHead(m, r).value;
      var (n1, m1, bytes) := Deliver(n, m, head);
      BuffersOff(Chain(m, r.table, head).0, r) &&
      ReceiveOff(Raised(WithRx(n1, Advanced(r))), Publish(m1, r, head, bytes).0, processed + 1)
  }

  function ReceiveTurns(n: Net, m: Memory, processed: nat): seq<Turn>
    requires n.rx.ring.table.size > 0 && processed <= n.rx.ring.table.size
    decreases n.rx.ring.table.size - processed
  {
    var r := n.rx.ring;
    if n.pending == [] || processed == r.table.size || AvailableIndex(m, r).None? ||
       AvailableIndex(m, r).value == r.lastAvailable || AvailableHead(m, r).None? then []
    else
      var head := AvailableHead(m, r).value;
      var (n1, m1, bytes) := Deliver(n, m, head);
      var (m2, published) := Publish(m1, r, head, bytes);
      if published != Returned then []
      else [Turn(head, bytes, m, m1, m2)] + ReceiveTurns(Raised(WithRx(n1, Advanced(r))), m2, processed + 1)
  }

  lemma DeliverSpares(n: Net, m: Memory, head: nat)
    requires n.pending != [] && BuffersOff(Chain(m, n.rx.ring.table, head).0, n.rx.ring)
    ensures var (n1, m1, bytes) := Deliver(n, m, head);
            SameRings(m, m1, n.rx.ring) && n1.rx == n.rx && n1.pending == n.pending[1..] &&
              n1.interrupt == n.interrupt &&
            forall after :: Delivers(Turn(head, bytes, m, m1, after), n.rx.ring.table, n.pending[0])
  {
    hide Chain; hide Scatter; hide AllPlaces; hide Holds; hide ByteAt; hide RingsEnd;
    var r, f := n.rx.ring, n.pending[0];
    var (chain, ending) := Chain(m, r.table, head);
    var at, required := AllPlaces(chain), HEADER + |f|;
    var (_, m1, _) := Deliver(n, m, head);
    if ending == Complete && AllWrite(chain, true) && |at| >= required && required < 0x1_0000_0000 {
      forall a: nat | Holds(m, a) && r.available <= a < RingsEnd(r)
          ensures Holds(m1, a) && ByteAt(m1, a) == ByteAt(m, a) {
        assert a !in at;
        ScatterElsewhere(m, at[..required], Packet(f), a);
      }
    }
  }

  /** The available index lies in the rings and does not move while the loop runs. */
  lemma IndexStays(m: Memory, m': Memory, r: Ring)
    requires InRam(m, r) && SameRings(m, m', r)
    ensures InRam(m', r) && AvailableIndex(m, r).Some? && AvailableIndex(m', r) == AvailableIndex(m, r)
    ensures AvailableIndex(m, r).value < 0x1_0000
  {
    hide Loaded;
    SameLoad(m, m', r, r.available + 2, HalfWord);
    UsedRing.Small(r.available + 2);
    HalfBound(m, r.available + 2);
  }

  lemma PublishedIndex(m: Memory, r: Ring, head: nat, bytes: nat)
    requires InRam(m, r)
    ensures var m' := Publish(m, r, head, bytes).0;
            InRam(m', Advanced(r)) && AvailableIndex(m', Advanced(r)) == AvailableIndex(m, r)
  {
    hide Load; hide Publish; hide UsedSlot; hide SameBut; hide Next16;
    InRamReturns(m, r, head, bytes);
    PublishEffect(m, r, head, bytes);
    var m' := Publish(m, r, head, bytes).0;
    ButShape(m, m', UsedSlot(r, 0), r.used + 2);
    SlotFits(r, 0);
    UsedRing.Small(r.available + 2);
    SameButLoad(m, m', UsedSlot(r, 0), r.used + 2, r.available + 2, HalfWord);
  }

  lemma SameRingsRefl(m: Memory, r: Ring)
    ensures SameRings(m, m, r)
  {}

  /** How many turns a receive loop takes. */
  function Least(a: nat, b: nat, c: nat): nat { Min(a, Min(b, c)) }

  lemma {:induction false} ReceiveIsTurns(n: Net, m: Memory, processed: nat)
    requires InRam(m, n.rx.ring) && processed <= n.rx.ring.table.size && ReceiveOff(n, m, processed)
    requires n.rx.ring.lastAvailable < 0x1_0000
    ensures AvailableIndex(m, n.rx.ring).Some?
    ensures var turns, (n', m') := ReceiveTurns(n, m, processed), ProcessReceive(n, m, processed);
            var r := n.rx.ring;
            Turns(m, r, turns) && Ended(m, turns) == m' && n'.interrupt == (n.interrupt || turns != []) &&
            |turns| == Least(|n.pending|, r.table.size - processed,
                             Behind(AvailableIndex(m, r).value, r.lastAvailable)) &&
            InOrder(n.pending, n'.pending, turns, r.table)
    decreases n.rx.ring.table.size - processed
  {
    hide Behind; hide Deliver; hide Publish; hide InRam; hide SameRings; hide BuffersOff; hide Chain;
    hide AvailableHead; hide Turns;
    hide AvailableIndex; hide Delivers; hide Next16; hide InOrder;
    var r := n.rx.ring;
    InRamSize(m, r);
    SameRingsRefl(m, r);
    IndexStays(m, m, r);
    var available := AvailableIndex(m, r).value;
    Distance(r.lastAvailable, available);
    InRamReturns(m, r, 0, 0);
    if n.pending == [] || processed == r.table.size || available == r.lastAvailable {
      NoTurns(m, r);
      NoneInOrder(n.pending, r.table);
    } else {
      var head := AvailableHead(m, r).value;
      var (n1, m1, bytes) := Deliver(n, m, head);
      DeliverSpares(n, m, head);
      IndexStays(m, m1, r);
      InRamReturns(m1, r, head, bytes);
      PublishedIndex(m1, r, head, bytes);
      var m2 := Publish(m1, r, head, bytes).0;
      var next := Raised(WithRx(n1, Advanced(r)));
      BoundNext(r.lastAvailable);
      ReceiveIsTurns(next, m2, processed + 1);
      var turns := ReceiveTurns(n, m, processed);
      var rest := ReceiveTurns(next, m2, processed + 1);
      assert turns[1..] == rest && turns == [Turn(head, bytes, m, m1, m2)] + rest;
      FirstAndRest(m, r, turns);
      InOrderNext(n.pending, ProcessReceive(n, m, processed).0.pending, turns, r.table);
    }
  }

  lemma InOrderNext(pending: seq<NetState.Frame>, left: seq<NetState.Frame>, turns: seq<Turn>, table: Table)
    requires turns != [] && pending != [] && Delivers(turns[0], table, pending[0])
    requires InOrder(pending[1..], left, turns[1..], table)
    ensures InOrder(pending, left, turns, table)
  {
    hide Delivers;
    forall j | 0 <= j < |turns| ensures Delivers(turns[j], table, pending[j]) {
      if j > 0 { assert turns[j] == turns[1..][j - 1] && pending[j] == pending[1..][j - 1]; }
    }
  }

  lemma NoneInOrder(pending: seq<NetState.Frame>, table: Table)
    ensures InOrder(pending, pending, [], table)
  {}

  lemma BoundNext(i: nat)
    ensures Next16(i) < 0x1_0000
  {}

  lemma NoTurns(m: Memory, r: Ring)
    requires r.table.size > 0
    ensures Turns(m, r, [])
  {}

  lemma FirstAndRest(m: Memory, r: Ring, turns: seq<Turn>)
    requires turns != [] && r.table.size > 0
    requires var t := turns[0];
             t.before == m && AvailableHead(m, r) == Some(t.head) && SameRings(m, t.filled, r) &&
             Publish(t.filled, r, t.head, t.bytes) == (t.after, Returned) && Turns(t.after, Advanced(r), turns[1..])
    ensures Turns(m, r, turns) && Ended(m, turns) == Ended(turns[0].after, turns[1..])
  {
    hide SameRings; hide Publish; hide AvailableHead;
  }

  /** process_receive_queue: pending frames go out in the order they came in, one to each published chain in the order
      of the available ring, as many as there are of both; the used ring then holds the chains' heads in that order,
      each with the length of header and frame, or 0 for a frame that its chain could not take. */
  lemma ReceiveReturns(n: Net, m: Memory)
    requires InRam(m, n.rx.ring) && ReceiveOff(n, m, 0) && n.rx.ring.lastAvailable < 0x1_0000
    ensures AvailableIndex(m, n.rx.ring).Some?
    ensures var turns, (n', m'), r := ReceiveTurns(n, m, 0), ProcessReceive(n, m, 0), n.rx.ring;
            Filled(m, r, turns, m') && n'.interrupt == (n.interrupt || turns != []) &&
            |turns| == Least(|n.pending|, r.table.size, Behind(AvailableIndex(m, r).value, r.lastAvailable)) &&
            InOrder(n.pending, n'.pending, turns, r.table)
  {
    hide ProcessReceive; hide ReceiveTurns; hide ReceiveOff; hide Turns; hide Filled; hide Delivers;
    hide AvailableIndex;
    ReceiveIsTurns(n, m, 0);
    TurnsFill(m, n.rx.ring, ReceiveTurns(n, m, 0));
  }

  /* ---- the network device: transmit ---- */

  function TransmitTurns(n: Net, m: Memory, processed: nat): seq<Turn>
    requires n.tx.ring.table.size > 0 && processed <= n.tx.ring.table.size
    decreases n.tx.ring.table.size - processed
  {
    var r := n.tx.ring;
    if processed == r.table.size || AvailableIndex(m, r).None? || AvailableIndex(m, r).value == r.lastAvailable ||
       AvailableHead(m, r).None? then []
    else
      var head := AvailableHead(m, r).value;
      var (n1, _) := Send(n, m, head);
      var (m1, published) := Publish(m, r, head, 0);
      if published != Returned then []
      else [Turn(head, 0, m, m, m1)] + TransmitTurns(Raised(WithTx(n1, Advanced(r))), m1, processed + 1)
  }

  /** The frames in the chains of these turns, in their order; chains without a whole frame are skipped. */
  function FramesOf(turns: seq<Turn>, table: Table, backend: bool): seq<NetState.Frame> {
    if turns == [] then []
    else
      var (chain, ending) := Chain(turns[0].before, table, turns[0].head);
      var frame := if ending == Complete then Transmit(turns[0].before, chain, backend).0 else None;
      (if frame.Some? then [frame.value] else []) + FramesOf(turns[1..], table, backend)
  }

  lemma SendIs(n: Net, m: Memory, head: nat, turns: seq<Turn>)
    requires turns != [] && turns[0].before == m && turns[0].head == head
    ensures var (n1, sent) := Send(n, m, head);
            n1.tx == n.tx && n1.backend == n.backend && n1.interrupt == n.interrupt &&
            FramesOf(turns, n.tx.ring.table, n.backend.Some?) ==
              sent + FramesOf(turns[1..], n.tx.ring.table, n.backend.Some?)
  {
    hide Chain; hide Transmit;
  }

  lemma {:induction false} TransmitIsTurns(n: Net, m: Memory, processed: nat)
    requires InRam(m, n.tx.ring) && processed <= n.tx.ring.table.size && n.tx.ring.lastAvailable < 0x1_0000
    ensures AvailableIndex(m, n.tx.ring).Some?
    ensures var turns, (n', m', sent) := TransmitTurns(n, m, processed), ProcessTransmit(n, m, processed);
            var r := n.tx.ring;
            Turns(m, r, turns) && Ended(m, turns) == m' && sent == FramesOf(turns, r.table, n.backend.Some?) &&
            (forall t :: t in turns ==> t.bytes == 0 && t.filled == t.before) &&
            n'.interrupt == (n.interrupt || turns != []) &&
            |turns| == Min(r.table.size - processed, Behind(AvailableIndex(m, r).value, r.lastAvailable))
    decreases n.tx.ring.table.size - processed
  {
    hide Behind; hide Send; hide Publish; hide InRam; hide SameRings; hide Chain; hide AvailableHead; hide Turns;
    hide FramesOf;
    hide AvailableIndex; hide Next16;
    var r := n.tx.ring;
    InRamSize(m, r);
    SameRingsRefl(m, r);
    IndexStays(m, m, r);
    var available := AvailableIndex(m, r).value;
    Distance(r.lastAvailable, available);
    InRamReturns(m, r, 0, 0);
    if processed == r.table.size || available == r.lastAvailable {
      NoTurns(m, r);
      NoFrames(r.table, n.backend.Some?);
    } else {
      var head := AvailableHead(m, r).value;
      var (n1, sent) := Send(n, m, head);
      InRamReturns(m, r, head, 0);
      PublishedIndex(m, r, head, 0);
      var m1 := Publish(m, r, head, 0).0;
      BoundNext(r.lastAvailable);
      var turns := TransmitTurns(n, m, processed);
      SendIs(n, m, head, turns);
      var next := Raised(WithTx(n1, Advanced(r)));
      TransmitIsTurns(next, m1, processed + 1);
      assert turns[1..] == TransmitTurns(next, m1, processed + 1);
      FirstAndRest(m, r, turns);
    }
  }

  lemma NoFrames(table: Table, backend: bool)
    ensures FramesOf([], table, backend) == []
  {}

  /** process_transmit_queue: every published chain, up to the size of the queue, is returned with length 0 in the order
      of the available ring, and the frames handed over are those of the chains in that order. */
  lemma TransmitReturns(n: Net, m: Memory)
    requires InRam(m, n.tx.ring) && n.tx.ring.lastAvailable < 0x1_0000
    ensures AvailableIndex(m, n.tx.ring).Some?
    ensures var turns, (n', m', sent) := TransmitTurns(n, m, 0), ProcessTransmit(n, m, 0);
            var r := n.tx.ring;
            Filled(m, r, turns, m') && sent == FramesOf(turns, r.table, n.backend.Some?) &&
            (forall t :: t in turns ==> t.bytes == 0 && t.filled == t.before) &&
            n'.interrupt == (n.interrupt || turns != []) &&
            |turns| == Min(r.table.size, Behind(AvailableIndex(m, r).value, r.lastAvailable))
  {
    hide ProcessTransmit; hide TransmitTurns; hide Turns; hide Filled; hide AvailableIndex; hide FramesOf;
    TransmitIsTurns(n, m, 0);
    TurnsFill(m, n.tx.ring, TransmitTurns(n, m, 0));
  }

  /* ---- the statistics of a loop ---- */

  /** Turns that delivered their frame, and the bytes of those frames. */
  function Delivered(turns: seq<Turn>): nat {
    if turns == [] then 0 else (if turns[0].bytes != 0 then 1 else 0) + Delivered(turns[1..])
  }

  function DeliveredBytes(turns: seq<Turn>): int {
    if turns == [] then 0 else (if turns[0].bytes != 0 then turns[0].bytes - 10 else 0) + DeliveredBytes(turns[1..])
  }

  function Total(frames: seq<NetState.Frame>): nat { if frames == [] then 0 else |frames[0]| + Total(frames[1..]) }

  /** What a receive loop adds: frames delivered and their bytes, frames dropped, chains taken, interrupts raised, and
      a starvation when frames are left that no chain was there for. */
  predicate ReceiveAdds(s: Stats, t: Stats, turns: seq<Turn>, starved: bool) {
    t.received == s.received + Delivered(turns) && t.receivedBytes == s.receivedBytes + DeliveredBytes(turns) &&
    t.droppedReceive == s.droppedReceive + |turns| - Delivered(turns) && t.chains == s.chains + |turns| &&
    t.interrupts == s.interrupts + |turns| && t.starvations == s.starvations + (if starved then 1 else 0) &&
    t.transmitted == s.transmitted && t.transmittedBytes == s.transmittedBytes && t.droppedTransmit == s.droppedTransmit
  }

  lemma DeliverAdds(n: Net, m: Memory, head: nat)
    requires n.pending != []
    ensures var (n1, m1, bytes), s := Deliver(n, m, head), n.stats;
            var t := n1.stats;
            t.received == s.received + (if bytes != 0 then 1 else 0) &&
            t.receivedBytes == s.receivedBytes + (if bytes != 0 then bytes - 10 else 0) &&
            t.droppedReceive == s.droppedReceive + (if bytes != 0 then 0 else 1) && t.chains == s.chains + 1 &&
            t.interrupts == s.interrupts && t.starvations == s.starvations && t.transmitted == s.transmitted &&
            t.transmittedBytes == s.transmittedBytes && t.droppedTransmit == s.droppedTransmit
  {
    hide Chain; hide Receive;
  }

  lemma {:induction false} ReceiveCounts(n: Net, m: Memory, processed: nat)
    requires InRam(m, n.rx.ring) && processed <= n.rx.ring.table.size && ReceiveOff(n, m, processed)
    requires n.rx.ring.lastAvailable < 0x1_0000
    ensures var turns, (n', _) := ReceiveTurns(n, m, processed), ProcessReceive(n, m, processed);
            ReceiveAdds(n.stats, n'.stats, turns, n'.pending != [] && processed + |turns| < n.rx.ring.table.size)
    decreases n.rx.ring.table.size - processed
  {
    hide Deliver; hide Publish; hide InRam; hide SameRings; hide BuffersOff; hide Chain; hide AvailableHead;
    hide AvailableIndex; hide Next16;
    var r := n.rx.ring;
    InRamSize(m, r);
    SameRingsRefl(m, r);
    IndexStays(m, m, r);
    InRamReturns(m, r, 0, 0);
    if n.pending != [] && processed < r.table.size && AvailableIndex(m, r).value != r.lastAvailable {
      var head := AvailableHead(m, r).value;
      var (n1, m1, bytes) := Deliver(n, m, head);
      DeliverSpares(n, m, head);
      DeliverAdds(n, m, head);
      IndexStays(m, m1, r);
      InRamReturns(m1, r, head, bytes);
      PublishedIndex(m1, r, head, bytes);
      BoundNext(r.lastAvailable);
      var next, m2 := Raised(WithRx(n1, Advanced(r))), Publish(m1, r, head, bytes).0;
      ReceiveCounts(next, m2, processed + 1);
      assert ReceiveTurns(n, m, processed)[1..] == ReceiveTurns(next, m2, processed + 1);
    }
  }

  /** What a transmit loop adds: frames handed over and their bytes, chains without one, chains taken, interrupts. */
  predicate TransmitAdds(s: Stats, t: Stats, turns: nat, sent: seq<NetState.Frame>) {
    t.transmitted == s.transmitted + |sent| && t.transmittedBytes == s.transmittedBytes + Total(sent) &&
    t.droppedTransmit == s.droppedTransmit + turns - |sent| && t.chains == s.chains + turns &&
    t.interrupts == s.interrupts + turns && t.received == s.received && t.receivedBytes == s.receivedBytes &&
    t.droppedReceive == s.droppedReceive && t.starvations == s.starvations
  }

  lemma SendAdds(n: Net, m: Memory, head: nat)
    ensures var (n1, sent) := Send(n, m, head);
            |sent| <= 1 && n1.tx == n.tx &&
            TransmitAdds(n.stats, Raised(n1).stats, 1, sent)
  {
    hide Chain; hide Transmit;
    var (_, sent) := Send(n, m, head);
    if sent != [] { assert sent[1..] == [] && Total(sent) == |sent[0]|; }
  }

  lemma {:induction false} TransmitCounts(n: Net, m: Memory, processed: nat)
    requires InRam(m, n.tx.ring) && processed <= n.tx.ring.table.size && n.tx.ring.lastAvailable < 0x1_0000
    ensures var (n', _, sent) := ProcessTransmit(n, m, processed);
            TransmitAdds(n.stats, n'.stats, |TransmitTurns(n, m, processed)|, sent)
    decreases n.tx.ring.table.size - processed
  {
    hide Send; hide Publish; hide InRam; hide SameRings; hide Chain; hide AvailableHead; hide AvailableIndex;
    hide Next16;
    var r := n.tx.ring;
    InRamSize(m, r);
    SameRingsRefl(m, r);
    IndexStays(m, m, r);
    InRamReturns(m, r, 0, 0);
    if processed < r.table.size && AvailableIndex(m, r).value != r.lastAvailable {
      var head := AvailableHead(m, r).value;
      var (n1, sent) := Send(n, m, head);
      SendAdds(n, m, head);
      InRamReturns(m, r, head, 0);
      PublishedIndex(m, r, head, 0);
      BoundNext(r.lastAvailable);
      var next, m1 := Raised(WithTx(n1, Advanced(r))), Publish(m, r, head, 0).0;
      TransmitCounts(next, m1, processed + 1);
      TotalAppend(sent, ProcessTransmit(next, m1, processed + 1).2);
    }
  }

  lemma TotalAppend(a: seq<NetState.Frame>, b: seq<NetState.Frame>)
    requires |a| <= 1
    ensures Total(a + b) == Total(a) + Total(b)
  {
    if a == [] { assert a + b == b; } else { assert (a + b)[1..] == b && a[1..] == []; }
  }
}
