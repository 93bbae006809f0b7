/** The network device in place: the frame queue and the two virtqueues. */
module VirtioNet {
  import opened Wrappers
  import opened Endian
  import opened Virtqueue
  import opened NetState

  lemma {:induction false} PlacesAppend(a: seq<Descriptor>, b: seq<Descriptor>)
    ensures AllPlaces(a + b) == AllPlaces(a) + AllPlaces(b)
  {
    if a == [] {
      assert a + b == b;
    } else {
      assert (a + b)[1..] == a[1..] + b;
      PlacesAppend(a[1..], b);
    }
  }

  /** Byte i of buffer k in the list of all addresses. */
  lemma PlaceAt(chain: seq<Descriptor>, k: nat, i: nat)
    requires k < |chain| && i < chain[k].length
    ensures var s := |AllPlaces(chain[..k])| + i;
        s < |AllPlaces(chain)| && AllPlaces(chain)[s] == (chain[k].address + i) % U64
  {
    assert chain == chain[..k] + chain[k..];
    PlacesAppend(chain[..k], chain[k..]);
    assert chain[k..][0] == chain[k];
  }

  lemma PlacesNext(chain: seq<Descriptor>, k: nat)
    requires k < |chain|
    ensures |AllPlaces(chain[..k + 1])| == |AllPlaces(chain[..k])| + chain[k].length
    ensures |AllPlaces(chain[..0])| == 0 && AllPlaces(chain[..|chain|]) == AllPlaces(chain)
  {
    assert chain[..k + 1] == chain[..k] + [chain[k]] && chain[..|chain|] == chain;
    PlacesAppend(chain[..k], [chain[k]]);
    assert AllPlaces([chain[k]]) == Places(chain[k].address, chain[k].length) + AllPlaces([]);
  }

  class Device {
    const dma: GuestMemory
    var rx: Queue
    var tx: Queue
    var pending: seq<Frame>
    var stats: Stats
    var interrupt: bool
    var backend: Option<Backend>

    ghost function View(): Net reads this { Net(rx, tx, pending, stats, interrupt, backend) }

    constructor (dma: GuestMemory)
      ensures View() == Initial() && this.dma == dma
    {
      this.dma := dma;
      rx, tx, pending, stats, interrupt, backend := BlankQueue, BlankQueue, [], NoStats, false, None;
    }

    method InjectReceivedFrame(f: Frame) returns (accepted: bool)
      modifies this`pending, this`stats
      ensures View() == Inject(old(View()), f)
      ensures accepted == (Acceptable(f) && |old(pending)| < MAX_PENDING)
    {
      if |f| == 0 || |f| > MAX_FRAME || |pending| >= MAX_PENDING {
        stats := stats.(droppedReceive := stats.droppedReceive + 1);
        return false;
      }
      pending := pending + [f];
      stats := stats.(pending := |pending|, peak := Max(stats.peak, |pending|));
      return true;
    }

    /** collect_backend_frames; supply is what the backend has to give now. */
    method CollectBackendFrames(cycles: nat, supply: seq<Frame>) returns (pulled: nat)
      modifies this`pending, this`stats, this`backend
      ensures (View(), pulled) == CollectFrames(old(View()), cycles, supply)
    {
      hide Pull;
      if backend.None? { return 0; }
      var b := backend.value;
      var elapsed := if b.cycles + cycles < U64 then b.cycles + cycles else U64 - 1;
      if !b.due && elapsed < b.interval {
        backend := Some(b.(cycles := elapsed, due := false));
        return 0;
      }
      backend := Some(b.(cycles := 0, due := false));
      pulled := PullFrames(supply);
    }

    /** Pull frames while there is room. */
    method PullFrames(supply: seq<Frame>) returns (pulled: nat)
      modifies this`pending, this`stats
      ensures (View(), pulled) == Pull(old(View()), supply)
    {
      hide Pull;
      ghost var all := Pull(View(), supply);
      assert supply[0..] == supply;
      pulled := 0;
      while |pending| < MAX_PENDING && pulled < |supply|
        invariant pulled <= |supply| && all == From(pulled, Pull(View(), supply[pulled..]))
      {
        PullNext(View(), supply, pulled);
        PullOne(supply[pulled]);
        pulled := pulled + 1;
      }
      PullDone(View(), supply[pulled..]);
    }

    method PullOne(f: Frame)
      modifies this`pending, this`stats
      ensures View() == if Acceptable(f) then Queued(old(View()), f) else Dropped(old(View()))
    {
      if |f| == 0 || |f| > MAX_FRAME {
        stats := stats.(droppedReceive := stats.droppedReceive + 1);
      } else {
        pending := pending + [f];
        stats := stats.(pending := |pending|, peak := Max(stats.peak, |pending|));
      }
    }

    function From(k: nat, r: (Net, nat)): (Net, nat) { (r.0, k + r.1) }

    lemma PullNext(n: Net, supply: seq<Frame>, k: nat)
      requires k < |supply| && |n.pending| < MAX_PENDING
      ensures From(k, Pull(n, supply[k..]))
              == From(k + 1, Pull(if Acceptable(supply[k]) then Queued(n, supply[k]) else Dropped(n), supply[k + 1..]))
    {
      hide Queued; hide Dropped; hide Acceptable;
      assert supply[k..][0] == supply[k] && supply[k..][1..] == supply[k + 1..];
    }

    lemma PullDone(n: Net, supply: seq<Frame>)
      requires |n.pending| >= MAX_PENDING || supply == []
      ensures Pull(n, supply) == (n, 0)
    {}

    /** receive_chain: copy an empty header and the frame into the buffers. */
    method ReceiveChain(chain: seq<Descriptor>, f: Frame) returns (ok: bool, fault: bool)
      modifies dma
      ensures (dma.m, ok, fault) == Receive(old(dma.m), chain, f)
    {
      hide Store; hide Scatter; hide AllPlaces;
      var capacity := 0;
      if chain != [] { PlacesNext(chain, 0); } else { NoPlaces(chain); }
      for k := 0 to |chain|
        invariant capacity == |AllPlaces(chain[..k])| && AllWrite(chain[..k], true) && dma.m == old(dma.m)
      {
        PlacesNext(chain, k);
        if !IsWrite(chain[k]) { return false, false; }
        capacity := capacity + chain[k].length;
      }
      assert chain[..|chain|] == chain;
      var required := HEADER + |f|;
      if capacity < required || required >= 0x1_0000_0000 { return false, false; }
      ghost var at, data := AllPlaces(chain)[..required], Packet(f);
      assert at[0..] == at && data[0..] == data;
      var source := 0;
      for k := 0 to |chain|
        invariant source <= required && (source < required ==> source == |AllPlaces(chain[..k])|)
        invariant Scatter(old(dma.m), at, data) == Later(source, Scatter(dma.m, at[source..], data[source..]))
      {
        PlacesNext(chain, k);
        var i := 0;
        while i < chain[k].length && source < required
          invariant i <= chain[k].length && source <= required
          invariant source < required ==> source == |AllPlaces(chain[..k])| + i
          invariant Scatter(old(dma.m), at, data) == Later(source, Scatter(dma.m, at[source..], data[source..]))
          decreases chain[k].length - i
        {
          PlaceAt(chain, k, i);
          ScatterNext(dma.m, at, data, source);
          var b: byte := if source < HEADER then 0 else f[source - HEADER];
          var written := dma.DmaWrite((chain[k].address + i) % U64, Byte, b);
          if !written { return false, true; }
          i, source := i + 1, source + 1;
        }
      }
      assert chain[..|chain|] == chain;
      ScatterEnd(dma.m, at[required..], data[required..]);
      return true, false;
    }

    function Later(k: nat, r: (Memory, nat)): (Memory, nat) { (r.0, r.1 + k) }

    lemma NoPlaces(chain: seq<Descriptor>)
      requires chain == []
      ensures AllPlaces(chain) == [] && AllPlaces(chain[..0]) == []
    {}

    lemma ScatterEnd(m: Memory, at: seq<nat>, data: seq<byte>)
      requires at == [] && data == []
      ensures Scatter(m, at, data) == (m, 0)
    {}

    /** transmit_chain: None when the chain is dropped. */
    method TransmitChain(chain: seq<Descriptor>) returns (frame: Option<Frame>, fault: bool)
      ensures (frame, fault) == Transmit(dma.m, chain, backend.Some?)
    {
      hide Load; hide Gather; hide AllPlaces;
      var total := 0;
      if chain != [] { PlacesNext(chain, 0); } else { NoPlaces(chain); }
      for k := 0 to |chain|
        invariant total == |AllPlaces(chain[..k])| <= MAX_FRAME + HEADER && AllWrite(chain[..k], false)
      {
        PlacesNext(chain, k);
        if IsWrite(chain[k]) || chain[k].length > MAX_FRAME + HEADER - total {
          LongerThan(chain, k);
          return None, false;
        }
        total := total + chain[k].length;
      }
      assert chain[..|chain|] == chain;
      if total <= HEADER { return None, false; }
      ghost var at := AllPlaces(chain);
      var packet: seq<byte> := [];
      GatherNothing(dma.m, at);
      for k := 0 to |chain|
        invariant |packet| == |AllPlaces(chain[..k])| <= |at| && Gather(dma.m, at[..|packet|]) == Some(packet)
      {
        PlacesNext(chain, k);
        for i := 0 to chain[k].length
          invariant |packet| == |AllPlaces(chain[..k])| + i <= |at| && Gather(dma.m, at[..|packet|]) == Some(packet)
        {
          PlaceAt(chain, k, i);
          GatherNext(dma.m, at, |packet|, packet);
          var b := dma.DmaRead((chain[k].address + i) % U64, Byte);
          if b.None? { return None, true; }
          packet := packet + [b.value];
        }
      }
      assert chain[..|chain|] == chain && at[..|packet|] == at;
      if backend.None? { return None, false; }
      return Some(packet[HEADER..]), false;
    }

    lemma LongerThan(chain: seq<Descriptor>, k: nat)
      requires k < |chain|
      ensures |AllPlaces(chain)| >= |AllPlaces(chain[..k])| + chain[k].length
    {
      assert chain == chain[..k] + chain[k..];
      PlacesAppend(chain[..k], chain[k..]);
    }

    lemma GatherNothing(m: Memory, at: seq<nat>)
      ensures Gather(m, at[..0]) == Some([])
    {}

    /** complete_chain: used_index moves only when all three writes succeed. */
    method CompleteChain(transmit: bool, head: nat, bytesWritten: nat) returns (ok: bool)
      requires (if transmit then tx else rx).ring.table.size > 0
      modifies dma, this`stats, this`rx, this`tx
      ensures var (m, r, completed) :=
          CompleteOnRing(old(dma.m), old((if transmit then tx else rx).ring), head, bytesWritten);
              dma.m == m && ok == completed &&
              (if transmit then tx == old(tx).(ring := r) && rx == old(rx)
               else rx == old(rx).(ring := r) && tx == old(tx))
      ensures stats == if ok then old(stats) else old(stats).(failures := old(stats).failures + 1)
    {
      hide Store; hide Next16;
      var r := if transmit then tx.ring else rx.ring;
      var element := (r.used + 4 + r.usedIndex % r.table.size * 8) % U64;
      ok := dma.DmaWrite(element, Word, head);
      if ok { ok := dma.DmaWrite((element + 4) % U64, Word, bytesWritten); }
      var nextUsed := Next16(r.usedIndex);
      if ok { ok := dma.DmaWrite((r.used + 2) % U64, HalfWord, nextUsed); }
      if !ok {
        stats := stats.(failures := stats.failures + 1);
      } else if transmit {
        tx := tx.(ring := r.(usedIndex := nextUsed));
      } else {
        rx := rx.(ring := r.(usedIndex := nextUsed));
      }
    }

    lemma ReceiveStep(n: Net, m: Memory, processed: nat)
      requires n.rx.ring.table.size > processed && n.pending != []
      ensures var r := n.rx.ring;
              var available := AvailableIndex(m, r);
              ProcessReceive(n, m, processed)
              == if available.None? then (Failed(n), m)
                 else if available.value ==
                     r.lastAvailable then (n.(stats := n.stats.(starvations := n.stats.starvations + 1)), m)
                 else if AvailableHead(m, r).None? then (Failed(n), m)
                 else ReceiveRest(n, m, processed, AvailableHead(m, r).value)
    {
      hide AvailableIndex; hide AvailableHead; hide Deliver; hide Publish; hide Failed;
    }

    ghost function ReceiveRest(n: Net, m: Memory, processed: nat, head: nat): (Net, Memory)
      requires n.rx.ring.table.size > processed && n.pending != []
    {
      var (n1, m1, bytes) := Deliver(n, m, head);
      var (m2, r1, completed) := CompleteOnRing(m1, n.rx.ring, head, bytes);
      if !completed then (Failed(WithRx(n1, r1)), m2)
      else ProcessReceive(Raised(WithRx(n1, Taken(r1))), m2, processed + 1)
    }

    lemma ReceiveDone(n: Net, m: Memory, processed: nat)
      requires n.rx.ring.table.size > 0 && processed <= n.rx.ring.table.size &&
          (n.pending == [] || processed == n.rx.ring.table.size)
      ensures ProcessReceive(n, m, processed) == (n, m)
    {}

    /** process_receive_queue. */
    method ProcessReceiveQueue()
      requires rx.ring.table.size > 0
      modifies this, dma
      ensures (View(), dma.m) == ProcessReceive(old(View()), old(dma.m), 0)
    {
      hide Load; hide Deliver; hide Publish; hide ProcessReceive;
      ghost var all := ProcessReceive(View(), dma.m, 0);
      var processed := 0;
      while pending != [] && processed < rx.ring.table.size
        invariant processed <= rx.ring.table.size && rx.ring.table == old(rx.ring.table)
        invariant all == ProcessReceive(View(), dma.m, processed)
        decreases rx.ring.table.size - processed
      {
        var r := rx.ring;
        ReceiveStep(View(), dma.m, processed);
        var available := dma.DmaRead((r.available + 2) % U64, HalfWord);
        if available.None? {
          stats := stats.(failures := stats.failures + 1);
          return;
        }
        if available.value == r.lastAvailable {
          stats := stats.(starvations := stats.starvations + 1);
          return;
        }
        var head := dma.DmaRead((r.available + 4 + r.lastAvailable % r.table.size * 2) % U64, HalfWord);
        if head.None? {
          stats := stats.(failures := stats.failures + 1);
          return;
        }
        var completed := ReceiveOne(head.value);
        if !completed { return; }
        processed := processed + 1;
      }
      ReceiveDone(View(), dma.m, processed);
    }

    /** One turn of the receive loop once its head is known. */
    method ReceiveOne(head: nat) returns (completed: bool)
      requires pending != [] && rx.ring.table.size > 0
      modifies this, dma
      ensures var (n1, m1, bytes) := Deliver(old(View()), old(dma.m), head);
              var (m2, r1, ok) := CompleteOnRing(m1, old(rx.ring), head, bytes);
              completed == ok && dma.m == m2 &&
                View() == if completed then Raised(WithRx(n1, Taken(r1))) else Failed(WithRx(n1, r1))
      ensures rx.ring.table == old(rx.ring.table)
    {
      hide Deliver; hide Publish; hide Next16;
      var bytesWritten := DeliverFrame(head);
      completed := CompleteChain(false, head, bytesWritten);
      if !completed { return; }
      rx := rx.(ring := Taken(rx.ring));
      interrupt := true;
      stats := stats.(interrupts := stats.interrupts + 1);
    }

    /** The part of the receive loop that handles the front frame. */
    method DeliverFrame(head: nat) returns (bytesWritten: nat)
      requires pending != []
      modifies this`pending, this`stats, dma
      ensures (View(), dma.m, bytesWritten) == Deliver(old(View()), old(dma.m), head)
    {
      hide Chain; hide Receive;
      stats := stats.(chains := stats.chains + 1);
      var chain, ending := dma.LoadChain(rx.ring.table, head);
      if ending == Broken(true) { stats := stats.(failures := stats.failures + 1); }
      var received, fault := false, false;
      if ending == Complete { received, fault := ReceiveChain(chain, pending[0]); }
      if fault { stats := stats.(failures := stats.failures + 1); }
      if received {
        bytesWritten := HEADER + |pending[0]|;
        stats := stats.(received := stats.received + 1, receivedBytes := stats.receivedBytes + |pending[0]|);
      } else {
        bytesWritten := 0;
        stats := stats.(droppedReceive := stats.droppedReceive + 1);
      }
      pending := pending[1..];
      stats := stats.(pending := |pending|);
    }

    /** The part of the transmit loop that handles one chain; sent is what the backend was given. */
    method SendFrame(head: nat) returns (sent: seq<Frame>)
      modifies this`stats
      ensures (View(), sent) == Send(old(View()), dma.m, head)
    {
      hide Chain; hide Transmit;
      stats := stats.(chains := stats.chains + 1);
      var chain, ending := dma.LoadChain(tx.ring.table, head);
      if ending == Broken(true) { stats := stats.(failures := stats.failures + 1); }
      var frame, fault := None, false;
      if ending == Complete { frame, fault := TransmitChain(chain); }
      if fault { stats := stats.(failures := stats.failures + 1); }
      if frame.None? {
        stats := stats.(droppedTransmit := stats.droppedTransmit + 1);
        return [];
      }
      stats := stats.(transmitted := stats.transmitted + 1, transmittedBytes := stats.transmittedBytes + |frame.value|);
      return [frame.value];
    }

    lemma TransmitStep(n: Net, m: Memory, processed: nat)
      requires n.tx.ring.table.size > processed
      ensures var r := n.tx.ring;
              var available := AvailableIndex(m, r);
              ProcessTransmit(n, m, processed)
              == if available.None? then (Failed(n), m, [])
                 else if available.value == r.lastAvailable then (n, m, [])
                 else if AvailableHead(m, r).None? then (Failed(n), m, [])
                 else TransmitRest(n, m, processed, AvailableHead(m, r).value)
    {
      hide AvailableIndex; hide AvailableHead; hide Send; hide Publish; hide Failed;
    }

    ghost function TransmitRest(n: Net, m: Memory, processed: nat, head: nat): (Net, Memory, seq<Frame>)
      requires n.tx.ring.table.size > processed
    {
      var (n1, sent) := Send(n, m, head);
      var (m1, r1, completed) := CompleteOnRing(m, n.tx.ring, head, 0);
      if !completed then (Failed(WithTx(n1, r1)), m1, sent)
      else Sent(sent, ProcessTransmit(Raised(WithTx(n1, Taken(r1))), m1, processed + 1))
    }

    lemma TransmitDone(n: Net, m: Memory)
      requires n.tx.ring.table.size > 0
      ensures ProcessTransmit(n, m, n.tx.ring.table.size) == (n, m, [])
    {}

    lemma SentTwice(a: seq<Frame>, b: seq<Frame>, r: (Net, Memory, seq<Frame>))
      ensures Sent(a, Sent(b, r)) == Sent(a + b, r) && Sent([], r) == r
      ensures r.2 == [] ==> Sent(a, r) == (r.0, r.1, a)
      ensures r.2 == b ==> Sent(a, r) == (r.0, r.1, a + b)
    {
      assert a + (b + r.2) == (a + b) + r.2 && [] + r.2 == r.2;
      if r.2 == [] { assert a + [] == a; }
    }

    /** process_transmit_queue; sent lists the frames the backend was given. */
    method ProcessTransmitQueue() returns (sent: seq<Frame>)
      requires tx.ring.table.size > 0
      modifies this, dma
      ensures (View(), dma.m, sent) == ProcessTransmit(old(View()), old(dma.m), 0)
    {
      hide Load; hide Send; hide Publish; hide ProcessTransmit; hide Sent;
      ghost var all := ProcessTransmit(View(), dma.m, 0);
      var processed := 0;
      sent := [];
      SentTwice([], [], all);
      while processed < tx.ring.table.size
        invariant processed <= tx.ring.table.size && tx.ring.table == old(tx.ring.table)
        invariant all == Sent(sent, ProcessTransmit(View(), dma.m, processed))
        decreases tx.ring.table.size - processed
      {
        var r := tx.ring;
        TransmitStep(View(), dma.m, processed);
        SentTwice(sent, [], ProcessTransmit(View(), dma.m, processed));
        var available := dma.DmaRead((r.available + 2) % U64, HalfWord);
        if available.None? {
          stats := stats.(failures := stats.failures + 1);
          return;
        }
        if available.value == r.lastAvailable { return; }
        var head := dma.DmaRead((r.available + 4 + r.lastAvailable % r.table.size * 2) % U64, HalfWord);
        if head.None? {
          stats := stats.(failures := stats.failures + 1);
          return;
        }
        SentTwice(sent, Send(View(), dma.m, head.value).1, ProcessTransmit(View(), dma.m, processed));
        var frames, completed := TransmitOne(head.value);
        SentTwice(sent, frames, ProcessTransmit(View(), dma.m, processed + 1));
        sent := sent + frames;
        if !completed { return; }
        processed := processed + 1;
      }
      TransmitDone(View(), dma.m);
      SentTwice(sent, [], ProcessTransmit(View(), dma.m, processed));
    }

    /** One turn of the transmit loop once its head is known. */
    method TransmitOne(head: nat) returns (sent: seq<Frame>, completed: bool)
      requires tx.ring.table.size > 0
      modifies this, dma
      ensures var (n1, frames) := Send(old(View()), old(dma.m), head);
              var (m1, r1, ok) := CompleteOnRing(old(dma.m), old(tx.ring), head, 0);
              sent == frames && completed == ok && dma.m == m1 &&
              View() == if completed then Raised(WithTx(n1, Taken(r1))) else Failed(WithTx(n1, r1))
      ensures tx.ring.table == old(tx.ring.table)
    {
      hide Send; hide Publish; hide Next16;
      SendKeepsTable(View(), dma.m, head);
      sent := SendFrame(head);
      completed := CompleteChain(true, head, 0);
      if !completed { return; }
      tx := tx.(ring := Taken(tx.ring));
      interrupt := true;
      stats := stats.(interrupts := stats.interrupts + 1);
    }

    function Sent(sent: seq<Frame>, r: (Net, Memory, seq<Frame>)): (Net, Memory, seq<Frame>) { (r.0, r.1, sent + r.2) }

    lemma SendKeepsTable(n: Net, m: Memory, head: nat)
      ensures Send(n, m, head).0.tx == n.tx
    {
      hide Chain; hide Transmit;
    }

    /** tick. */
    method DoTick(cycles: nat, supply: seq<Frame>) returns (sent: seq<Frame>, pulled: nat)
      requires Shaped(View())
      modifies this, dma
      ensures (View(), dma.m, sent, pulled) == Tick(old(View()), old(dma.m), cycles, supply)
    {
      hide Pull; hide ProcessTransmit; hide ProcessReceive;
      pulled := CollectBackendFrames(cycles, supply);
      sent := [];
      if tx.notified {
        tx := tx.(notified := false);
        if tx.configured && tx.ring.table.size > 0 { sent := ProcessTransmitQueue(); }
        if backend.Some? { backend := Some(backend.value.(due := true)); }
      }
      rx := rx.(notified := false);
      if pending != [] && rx.configured && rx.ring.table.size > 0 { ProcessReceiveQueue(); }
    }
  }
}
