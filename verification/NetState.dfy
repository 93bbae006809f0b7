/** The network device: frames in, frames out, and where every frame went. */
module NetState {
  import opened Wrappers
  import opened Endian
  import opened Virtqueue

  type Frame = seq<byte>

  const MAX_FRAME: nat := 65550
  const MAX_PENDING: nat := 256
  const HEADER: nat := 10

  /** A configured queue has a size; notified is its notification_pending. */
  datatype Queue = Queue(ring: Ring, configured: bool, notified: bool)

  datatype Stats = Stats(received: nat, receivedBytes: nat, droppedReceive: nat, transmitted: nat,
      transmittedBytes: nat,
                         droppedTransmit: nat, chains: nat, pending: nat, peak: nat, starvations: nat, failures: nat,
                           interrupts: nat)

  /** The backend's polling interval, the cycles since it was polled, and whether a poll is due. */
  datatype Backend = Backend(interval: nat, cycles: nat, due: bool)

  datatype Net = Net(rx: Queue, tx: Queue, pending: seq<Frame>, stats: Stats, interrupt: bool, backend: Option<Backend>)

  predicate Sized(q: Queue) { q.configured ==> q.ring.table.size > 0 }

  predicate Shaped(n: Net) { Sized(n.rx) && Sized(n.tx) }

  predicate Acceptable(f: Frame) { 0 < |f| <= MAX_FRAME }

  function Max(a: nat, b: nat): nat { if a >= b then a else b }

  /* ---- frames coming in ---- */

  function Queued(n: Net, f: Frame): Net {
    var pending := n.pending + [f];
    n.(pending := pending, stats := n.stats.(pending := |pending|, peak := Max(n.stats.peak, |pending|)))
  }

  function Dropped(n: Net): Net { n.(stats := n.stats.(droppedReceive := n.stats.droppedReceive + 1)) }

  /** inject_received_frame. */
  function Inject(n: Net, f: Frame): Net {
    if !Acceptable(f) || |n.pending| >= MAX_PENDING then Dropped(n) else Queued(n, f)
  }

  /** The backend loop: frames are pulled while there is room. The device and the number of frames pulled. */
  function Pull(n: Net, supply: seq<Frame>): (Net, nat)
    decreases |supply|
  {
    if |n.pending| >= MAX_PENDING || supply == [] then (n, 0)
    else
      var (n', k) := Pull(if Acceptable(supply[0]) then Queued(n, supply[0]) else Dropped(n), supply[1..]);
      (n', k + 1)
  }

  /** collect_backend_frames: a backend is polled when due or when its interval has passed. */
  function CollectFrames(n: Net, cycles: nat, supply: seq<Frame>): (Net, nat) {
    match n.backend
    case None => (n, 0)
    case Some(b) =>
      var elapsed := if b.cycles + cycles < U64 then b.cycles + cycles else U64 - 1;
      if !b.due && elapsed < b.interval then (n.(backend := Some(b.(cycles := elapsed, due := false))), 0)
      else Pull(n.(backend := Some(b.(cycles := 0, due := false))), supply)
  }

  /* ---- chains ---- */

  predicate AllWrite(ds: seq<Descriptor>, write: bool) { forall k :: 0 <= k < |ds| ==> IsWrite(ds[k]) == write }

  /** The bytes a received frame puts into the guest: an empty header, then the frame. */
  function Packet(f: Frame): seq<byte> { seq(HEADER, _ => 0) + f }

  /** receive_chain: the memory, whether the frame was delivered, whether a byte faulted. */
  function Receive(m: Memory, chain: seq<Descriptor>, f: Frame): (Memory, bool, bool) {
    var at, required := AllPlaces(chain), HEADER + |f|;
    if !AllWrite(chain, true) || |at| < required || required >= 0x1_0000_0000 then (m, false, false)
    else
      var (m', k) := Scatter(m, at[..required], Packet(f));
      (m', k == required, k != required)
  }

  /** transmit_chain: the frame to send, and whether a byte faulted. */
  function Transmit(m: Memory, chain: seq<Descriptor>, backend: bool): (Option<Frame>, bool) {
    var at := AllPlaces(chain);
    if !AllWrite(chain, false) || |at| > MAX_FRAME + HEADER || |at| <= HEADER then (None, false)
    else
      match Gather(m, at)
      case None => (None, true)
      case Some(data) => (if backend then Some(data[HEADER..]) else None, false)
  }

  function Failed(n: Net): Net { n.(stats := n.stats.(failures := n.stats.failures + 1)) }

  /** complete_chain: the used index moves only when all three writes succeed. */
  function CompleteOnRing(m: Memory, r: Ring, head: nat, bytes: nat): (Memory, Ring, bool)
    requires r.table.size > 0
  {
    var (m', published) := Publish(m, r, head, bytes);
    (m', if published == Returned then r.(usedIndex := Next16(r.usedIndex)) else r, published == Returned)
  }

  /** The queue loops take the chain only after it was completed. */
  function Taken(r: Ring): Ring { r.(lastAvailable := Next16(r.lastAvailable)) }

  function WithRx(n: Net, r: Ring): Net { n.(rx := n.rx.(ring := r)) }

  function WithTx(n: Net, r: Ring): Net { n.(tx := n.tx.(ring := r)) }

  function Raised(n: Net): Net { n.(interrupt := true, stats := n.stats.(interrupts := n.stats.interrupts + 1)) }

  /** The chain at the head of the queue; unreadable descriptors count as a failure. */
  function TakeChain(n: Net, m: Memory, t: Table, head: nat): (Net, seq<Descriptor>, Ending) {
    var (chain, ending) := Chain(m, t, head);
    var n' := n.(stats := n.stats.(chains := n.stats.chains + 1));
    (if ending == Broken(true) then Failed(n') else n', chain, ending)
  }

  /** One received frame: delivered or dropped, and no longer pending in either case. */
  function Deliver(n: Net, m: Memory, head: nat): (Net, Memory, nat)
    requires n.pending != []
  {
    var f := n.pending[0];
    var (n1, chain, ending) := TakeChain(n, m, n.rx.ring.table, head);
    var (m', ok, fault) := if ending == Complete then Receive(m, chain, f) else (m, false, false);
    var n2 := if fault then Failed(n1) else n1;
    var n3 := if ok then n2.(stats :=
        n2.stats.(received := n2.stats.received + 1, receivedBytes := n2.stats.receivedBytes + |f|)) else Dropped(n2);
    (n3.(pending := n.pending[1..], stats := n3.stats.(pending := |n.pending| - 1)), m', if ok then HEADER + |f| else 0)
  }

  /** process_receive_queue from its processed-th chain on. */
  function ProcessReceive(n: Net, m: Memory, processed: nat): (Net, Memory)
    requires n.rx.ring.table.size > 0 && processed <= n.rx.ring.table.size
    decreases n.rx.ring.table.size - processed
  {
    var r := n.rx.ring;
    if n.pending == [] || processed == r.table.size then (n, m)
    else if AvailableIndex(m, r).None? then (Failed(n), m)
    else if AvailableIndex(m, r).value ==
        r.lastAvailable then (n.(stats := n.stats.(starvations := n.stats.starvations + 1)), m)
    else if AvailableHead(m, r).None? then (Failed(n), m)
    else
      var head := AvailableHead(m, r).value;
      var (n1, m1, bytes) := Deliver(n, m, head);
      var (m2, r1, completed) := CompleteOnRing(m1, r, head, bytes);
      if !completed then (Failed(WithRx(n1, r1)), m2)
      else ProcessReceive(Raised(WithRx(n1, Taken(r1))), m2, processed + 1)
  }

  /** One chain to transmit. The frames handed to the backend come last. */
  function Send(n: Net, m: Memory, head: nat): (Net, seq<Frame>) {
    var (n1, chain, ending) := TakeChain(n, m, n.tx.ring.table, head);
    var (frame, fault) := if ending == Complete then Transmit(m, chain, n.backend.Some?) else (None, false);
    var n2 := if fault then Failed(n1) else n1;
    match frame
    case None => (n2.(stats := n2.stats.(droppedTransmit := n2.stats.droppedTransmit + 1)), [])
    case Some(f) => (n2.(stats := n2.stats.(transmitted := n2.stats.transmitted + 1,
        transmittedBytes := n2.stats.transmittedBytes + |f|)), [f])
  }

  /** process_transmit_queue from its processed-th chain on. */
  function ProcessTransmit(n: Net, m: Memory, processed: nat): (Net, Memory, seq<Frame>)
    requires n.tx.ring.table.size > 0 && processed <= n.tx.ring.table.size
    decreases n.tx.ring.table.size - processed
  {
    var r := n.tx.ring;
    if processed == r.table.size then (n, m, [])
    else if AvailableIndex(m, r).None? then (Failed(n), m, [])
    else if AvailableIndex(m, r).value == r.lastAvailable then (n, m, [])
    else if AvailableHead(m, r).None? then (Failed(n), m, [])
    else
      var head := AvailableHead(m, r).value;
      var (n1, sent) := Send(n, m, head);
      var (m1, r1, completed) := CompleteOnRing(m, r, head, 0);
      if !completed then (Failed(WithTx(n1, r1)), m1, sent)
      else
        var (n2, m2, more) := ProcessTransmit(Raised(WithTx(n1, Taken(r1))), m1, processed + 1);
        (n2, m2, sent + more)
  }

  function Polled(n: Net): Net {
    n.(backend := match n.backend case None => None case Some(b) => Some(b.(due := true)))
  }

  /** tick: the device, the memory, the frames sent, and the number of frames pulled from the backend. */
  function Tick(n: Net, m: Memory, cycles: nat, supply: seq<Frame>): (Net, Memory, seq<Frame>, nat)
    requires Shaped(n)
  {
    var (n1, pulled) := CollectFrames(n, cycles, supply);
    var (n2, m2, sent) := TickTransmit(n1, m);
    var (n3, m3) := TickReceive(n2, m2);
    (n3, m3, sent, pulled)
  }

  function TickTransmit(n: Net, m: Memory): (Net, Memory, seq<Frame>) {
    if !n.tx.notified then (n, m, [])
    else
      var n0 := n.(tx := n.tx.(notified := false));
      if !n0.tx.configured || n0.tx.ring.table.size == 0 then (Polled(n0), m, [])
      else
        var (n1, m1, sent) := ProcessTransmit(n0, m, 0);
        (Polled(n1), m1, sent)
  }

  function TickReceive(n: Net, m: Memory): (Net, Memory) {
    var n0 := n.(rx := n.rx.(notified := false));
    if n0.pending == [] || !n0.rx.configured || n0.rx.ring.table.size == 0 then (n0, m) else ProcessReceive(n0, m, 0)
  }

  /* ---- the driver's side ---- */

  const BlankQueue: Queue := Queue(Ring(Table(0, 0), 0, 0, 0, 0), false, false)

  const NoStats: Stats := Stats(0, 0, 0, 0, 0, 0, 0, 0, 0, 0, 0, 0)

  function Initial(): Net { Net(BlankQueue, BlankQueue, [], NoStats, false, None) }

  /** A status write of 0. Statistics outlive it, except the number of pending frames. */
  function Reset(n: Net): Net {
    Net(BlankQueue, BlankQueue, [], n.stats.(pending := 0), false,
        match n.backend case None => None case Some(b) => Some(b.(cycles := 0, due := true)))
  }

  /** Register writes may move a queue's parts and change its size; they leave the two positions alone. */
  function Placed(q: Queue, table: Table, available: nat, used: nat, configured: bool): Queue {
    q.(ring := q.ring.(table := table, available := available, used := used), configured := configured &&
      table.size > 0)
  }

  datatype Op =
    | InjectOp(frame: Frame)
    | TickOp(m: Memory, cycles: nat, supply: seq<Frame>)     // the guest's memory as the driver left it
    | PlaceOp(transmit: bool, table: Table, available: nat, used: nat, configured: bool)
    | NotifyOp(transmit: bool)
    | AcknowledgeOp
    | BackendOp(interval: Option<nat>)
    | ResetOp

  function Apply(n: Net, op: Op): Net
    requires Shaped(n)
  {
    match op
    case InjectOp(f) => Inject(n, f)
    case TickOp(m, cycles, supply) => Tick(n, m, cycles, supply).0
    case PlaceOp(transmit, t, a, u, c) =>
        if transmit then n.(tx := Placed(n.tx, t, a, u, c)) else n.(rx := Placed(n.rx, t, a, u, c))
    case NotifyOp(transmit) =>
      if transmit then n.(tx := n.tx.(notified := n.tx.notified || n.tx.configured))
      else n.(rx := n.rx.(notified := n.rx.notified || n.rx.configured))
    case AcknowledgeOp => n.(interrupt := false)
    case BackendOp(interval) => n.(backend := match interval case None =>
        None case Some(i) => Some(Backend(Max(1, i), 0, true)))
    case ResetOp => Reset(n)
  }

  /** Frames the operation offered to the device: injected, or pulled from the backend. */
  function Offered(n: Net, op: Op): nat
    requires Shaped(n)
  {
    match op
    case InjectOp(_) => 1
    case TickOp(m, cycles, supply) => Tick(n, m, cycles, supply).3
    case _ => 0
  }

  function Flushed(n: Net, op: Op): nat { if op == ResetOp then |n.pending| else 0 }

  /* ---- what every operation keeps ---- */

  /** The statistic and the bound of the pending queue, and both queues level. */
  predicate Inv(n: Net) {
    Shaped(n) && n.stats.pending == |n.pending| <= MAX_PENDING &&
    Level(n.rx.ring) && Level(n.tx.ring)
  }

  predicate Level(r: Ring) { r.lastAvailable == r.usedIndex }

  /** Between its completion and its taking a chain is one ahead; a failure moves neither position. */
  lemma CompleteThenTake(m: Memory, r: Ring, head: nat, bytes: nat)
    requires r.table.size > 0 && Level(r)
    ensures var (_, r1, completed) := CompleteOnRing(m, r, head, bytes);
            r1.table == r.table &&
            if completed then r1.usedIndex == Next16(r1.lastAvailable) && !Level(r1) && Level(Taken(r1)) else r1 == r
  {
    hide Publish;
    Mod16(r.usedIndex);
  }

  lemma Mod16(i: nat)
    ensures Next16(i) != i
  {}

  /** Where the frames offered so far have gone, those still here included. */
  function Accounted(n: Net): nat { n.stats.received + n.stats.droppedReceive + |n.pending| }

  lemma {:induction false} PullKeeps(n: Net, supply: seq<Frame>)
    requires Inv(n)
    ensures var (n', k) := Pull(n, supply);
            Inv(n') && Accounted(n') == Accounted(n) + k && k <= |supply| && n'.rx == n.rx && n'.tx == n.tx
    decreases |supply|
  {
    if |n.pending| < MAX_PENDING && supply != [] {
      PullKeeps(if Acceptable(supply[0]) then Queued(n, supply[0]) else Dropped(n), supply[1..]);
    }
  }

  lemma DeliverKeeps(n: Net, m: Memory, head: nat)
    requires Inv(n) && n.pending != []
    ensures var (n', _, _) := Deliver(n, m, head);
        Inv(n') && Accounted(n') == Accounted(n) && n'.rx == n.rx && n'.tx == n.tx
  {
    hide Chain; hide Receive;
  }

  lemma {:induction false} ReceiveKeeps(n: Net, m: Memory, processed: nat)
    requires Inv(n) && n.rx.ring.table.size > 0 && processed <= n.rx.ring.table.size
    ensures var (n', _) := ProcessReceive(n, m, processed); Inv(n') && Accounted(n') == Accounted(n)
    decreases n.rx.ring.table.size - processed
  {
    hide AvailableIndex; hide AvailableHead; hide Deliver; hide CompleteOnRing; hide Next16;
    var r := n.rx.ring;
    if n.pending != [] && processed < r.table.size && AvailableIndex(m, r).Some? && AvailableHead(m, r).Some? {
      var head := AvailableHead(m, r).value;
      var (n1, m1, bytes) := Deliver(n, m, head);
      DeliverKeeps(n, m, head);
      var (m2, r1, completed) := CompleteOnRing(m1, r, head, bytes);
      CompleteThenTake(m1, r, head, bytes);
      if completed { ReceiveKeeps(Raised(WithRx(n1, Taken(r1))), m2, processed + 1); }
    }
  }

  lemma SendKeeps(n: Net, m: Memory, head: nat)
    requires Inv(n)
    ensures var (n', _) := Send(n, m, head); Inv(n') && Accounted(n') == Accounted(n) && n'.rx == n.rx && n'.tx == n.tx
  {
    hide Chain; hide Transmit;
  }

  lemma {:induction false} TransmitKeeps(n: Net, m: Memory, processed: nat)
    requires Inv(n) && n.tx.ring.table.size > 0 && processed <= n.tx.ring.table.size
    ensures var (n', _, _) := ProcessTransmit(n, m, processed); Inv(n') && Accounted(n') == Accounted(n)
    decreases n.tx.ring.table.size - processed
  {
    hide AvailableIndex; hide AvailableHead; hide Send; hide CompleteOnRing; hide Next16;
    var r := n.tx.ring;
    if processed < r.table.size && AvailableIndex(m, r).Some? && AvailableHead(m, r).Some? {
      var head := AvailableHead(m, r).value;
      var (n1, _) := Send(n, m, head);
      SendKeeps(n, m, head);
      var (m1, r1, completed) := CompleteOnRing(m, r, head, 0);
      CompleteThenTake(m, r, head, 0);
      if completed { TransmitKeeps(Raised(WithTx(n1, Taken(r1))), m1, processed + 1); }
    }
  }

  lemma TickKeeps(n: Net, m: Memory, cycles: nat, supply: seq<Frame>)
    requires Inv(n)
    ensures var (n', _, _, pulled) := Tick(n, m, cycles, supply); Inv(n') && Accounted(n') == Accounted(n) + pulled
  {
    hide Pull; hide ProcessTransmit; hide ProcessReceive;
    match n.backend {
      case None =>
      case Some(b) => PullKeeps(n.(backend := Some(b.(cycles := 0, due := false))), supply);
    }
    var (n1, _) := CollectFrames(n, cycles, supply);
    TickTransmitKeeps(n1, m);
    var (n2, m2, _) := TickTransmit(n1, m);
    TickReceiveKeeps(n2, m2);
  }

  lemma TickTransmitKeeps(n: Net, m: Memory)
    requires Inv(n)
    ensures Inv(TickTransmit(n, m).0) && Accounted(TickTransmit(n, m).0) == Accounted(n)
  {
    hide ProcessTransmit;
    var n0 := n.(tx := n.tx.(notified := false));
    if n0.tx.ring.table.size > 0 { TransmitKeeps(n0, m, 0); }
  }

  lemma TickReceiveKeeps(n: Net, m: Memory)
    requires Inv(n)
    ensures Inv(TickReceive(n, m).0) && Accounted(TickReceive(n, m).0) == Accounted(n)
  {
    hide ProcessReceive;
    var n0 := n.(rx := n.rx.(notified := false));
    if n0.rx.ring.table.size > 0 { ReceiveKeeps(n0, m, 0); }
  }

  /** Every operation keeps the invariant and accounts for the frames it takes and flushes. */
  lemma ApplyKeeps(n: Net, op: Op)
    requires Inv(n)
    ensures Inv(Apply(n, op)) && Accounted(Apply(n, op)) + Flushed(n, op) == Accounted(n) + Offered(n, op)
  {
    hide Tick;
    match op
    case TickOp(m, cycles, supply) => TickKeeps(n, m, cycles, supply);
    case _ =>
  }

  /* ---- every run ---- */

  /** The device after a run, with the frames offered and flushed on the way. */
  datatype Tally = Tally(n: Net, offered: nat, flushed: nat)

  function Run(n: Net, ops: seq<Op>): Tally
    requires Inv(n)
    decreases |ops|
  {
    if ops == [] then Tally(n, 0, 0)
    else
      ApplyKeeps(n, ops[0]);
      var t := Run(Apply(n, ops[0]), ops[1..]);
      t.(offered := t.offered + Offered(n, ops[0]), flushed := t.flushed + Flushed(n, ops[0]))
  }

  /** Over every run of injections, ticks on any guest memory, register writes and resets: frames
      offered are those received, dropped, still pending or flushed by a reset; at most 256 are
      pending, as the statistic says; and both queues stay level even after DMA failures. */
  lemma {:induction false} RunConserves(n: Net, ops: seq<Op>)
    requires Inv(n)
    ensures var t := Run(n, ops); Inv(t.n) && Accounted(t.n) + t.flushed == Accounted(n) + t.offered
    decreases |ops|
  {
    hide Apply; hide Inv; hide Accounted; hide Offered; hide Flushed;
    if ops != [] {
      InvShaped(n);
      ApplyKeeps(n, ops[0]);
      RunConserves(Apply(n, ops[0]), ops[1..]);
    }
  }

  lemma InvShaped(n: Net)
    requires Inv(n)
    ensures Shaped(n)
  {}

  lemma InitialConserves(ops: seq<Op>)
    ensures Inv(Initial())
    ensures var t := Run(Initial(), ops);
            t.offered == t.n.stats.received + t.n.stats.droppedReceive + |t.n.pending| + t.flushed
  {
    RunConserves(Initial(), ops);
  }

  /* ---- what the guest and the backend see ---- */

  lemma {:induction false} TakeDistinct(at: seq<nat>, k: nat)
    requires Distinct(at) && k <= |at|
    ensures Distinct(at[..k])
  {}

  /** A delivered frame is in the guest's buffers behind an empty header, and nothing else changed. */
  lemma DeliveredFrame(m: Memory, chain: seq<Descriptor>, f: Frame)
    requires Distinct(AllPlaces(chain)) && Receive(m, chain, f).1
    ensures |AllPlaces(chain)| >= |Packet(f)| &&
        Gather(Receive(m, chain, f).0, AllPlaces(chain)[..|Packet(f)|]) == Some(Packet(f))
    ensures forall a :: Holds(m, a) && a !in AllPlaces(chain)[..|Packet(f)|] ==>
              Holds(Receive(m, chain, f).0, a) && ByteAt(Receive(m, chain, f).0, a) == ByteAt(m, a)
  {
    hide AllPlaces; hide Gather; hide Scatter;
    var at := AllPlaces(chain)[..|Packet(f)|];
    TakeDistinct(AllPlaces(chain), |Packet(f)|);
    GatherScattered(m, at, Packet(f));
    forall a: nat | Holds(m, a) && a !in at
        ensures Holds(Receive(m, chain, f).0, a) && ByteAt(Receive(m, chain, f).0, a) == ByteAt(m, a) {
      ScatterElsewhere(m, at, Packet(f), a);
    }
  }

  /** A frame delivered into buffers and sent back from exactly those buffers arrives unchanged:
      a loop through the device is the identity. */
  lemma Loopback(m: Memory, chain: seq<Descriptor>, f: Frame, back: seq<Descriptor>)
    requires Distinct(AllPlaces(chain)) && Receive(m, chain, f).1 && Acceptable(f)
    requires AllWrite(back, false) && AllPlaces(back) == AllPlaces(chain)[..|Packet(f)|]
    ensures Transmit(Receive(m, chain, f).0, back, true) == (Some(f), false)
  {
    hide AllPlaces; hide Gather; hide Receive; hide AllWrite;
    DeliveredFrame(m, chain, f);
    assert Packet(f)[HEADER..] == f;
  }
}
