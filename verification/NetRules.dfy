/** The network device from outside: which chains take and give a frame, when the backend is polled and what is then
    queued, and that frames are delivered in the order in which they were accepted. */
module NetRules {
  import opened Wrappers
  import opened Endian
  import opened Virtqueue
  import opened NetState
  import RequestRules

  /** A frame is between 1 and 65550 bytes long. */
  predicate Fits(f: NetState.Frame) { 1 <= |f| <= 65550 }

  /* ---- chains ---- */

  /** A chain takes a frame exactly when the device may write all its buffers and the first bytes of them, ten more than
      the frame has, lie in memory. Otherwise it is not written, unless a byte faults on the way. */
  lemma ReceivesExactly(m: Memory, chain: seq<Descriptor>, f: NetState.Frame)
    requires Fits(f)
    ensures var (m', ok, fault), at := Receive(m, chain, f), AllPlaces(chain);
            var suits := (forall d :: d in chain ==> IsWrite(d)) && |at| >= 10 + |f|;
            (ok <==> suits && forall a :: a in at[..10 + |f|] ==> Holds(m, a)) && (fault <==> suits && !ok) &&
            (!suits ==> m' == m)
  {
    hide AllPlaces; hide Scatter; hide Holds;
    var at := AllPlaces(chain);
    AllWriteIs(chain, true);
    if |at| >= 10 + |f| { RequestRules.ScatterAll(m, at[..10 + |f|], Packet(f)); }
  }

  lemma AllWriteIs(chain: seq<Descriptor>, write: bool)
    ensures AllWrite(chain, write) <==> forall d :: d in chain ==> IsWrite(d) == write
  {
    if AllWrite(chain, write) {
      forall d | d in chain ensures IsWrite(d) == write { var k :| 0 <= k < |chain| && chain[k] == d; }
    }
  }

  /** A chain gives a frame, the bytes behind the ten of its header, exactly when the device may write none of its
      buffers, they hold between 11 and 65560 bytes, and all lie in memory. */
  lemma TransmitsExactly(m: Memory, chain: seq<Descriptor>)
    ensures var (frame, fault), at := Transmit(m, chain, true), AllPlaces(chain);
            var suits := (forall d :: d in chain ==> !IsWrite(d)) && 11 <= |at| <= 65560;
            (frame.Some? <==> suits && forall a :: a in at ==> Holds(m, a)) && (fault <==> suits && frame.None?) &&
            (frame.Some? ==> Gather(m, at).Some? && frame.value == Gather(m, at).value[10..])
    ensures Transmit(m, chain, false).0 == None
  {
    hide AllPlaces; hide Gather; hide Holds;
    AllWriteIs(chain, false);
    RequestRules.GatherAll(m, AllPlaces(chain));
  }

  /* ---- frames coming in ---- */

  /** The frames of an offer that can be queued at all. */
  function Good(fs: seq<NetState.Frame>): seq<NetState.Frame> {
    if fs == [] then [] else (if Fits(fs[0]) then [fs[0]] else []) + Good(fs[1..])
  }

  /** Polling takes frames in order until 256 are pending or none is left, queues those that fit and drops the rest. */
  lemma {:induction false} PullsInOrder(n: Net, supply: seq<NetState.Frame>)
    requires |n.pending| <= 256
    ensures var (n', k) := Pull(n, supply);
            k <= |supply| && n'.pending == n.pending + Good(supply[..k]) && |n'.pending| <= 256 &&
            (k == |supply| || |n'.pending| == 256) &&
            n'.stats.droppedReceive == n.stats.droppedReceive + k - |Good(supply[..k])|
    decreases |supply|
  {
    hide Good;
    if |n.pending| < 256 && supply != [] {
      var n1 := if Acceptable(supply[0]) then Queued(n, supply[0]) else Dropped(n);
      PullsInOrder(n1, supply[1..]);
      GoodStep(n.pending, supply, Pull(n, supply).1);
    } else {
      NoneGood(n.pending, supply);
    }
  }

  lemma GoodStep(pending: seq<NetState.Frame>, supply: seq<NetState.Frame>, k: nat)
    requires 1 <= k <= |supply|
    ensures var first := if Fits(supply[0]) then [supply[0]] else [];
            Good(supply[..k]) == first + Good(supply[1..][..k - 1]) &&
            pending + Good(supply[..k]) == (pending + first) + Good(supply[1..][..k - 1])
  {
    assert supply[..k][1..] == supply[1..][..k - 1] && supply[..k][0] == supply[0];
  }

  lemma NoneGood(pending: seq<NetState.Frame>, supply: seq<NetState.Frame>)
    ensures Good(supply[..0]) == [] && pending + [] == pending
  {}

  /** The backend is polled when it was asked for or its interval has passed since the last time, then waits anew. */
  lemma PollsWhenDue(n: Net, cycles: nat, supply: seq<NetState.Frame>)
    requires n.backend.Some? && n.backend.value.interval < U64
    ensures var b := n.backend.value;
            var polled := n.(backend := Some(b.(cycles := 0, due := false)));
            if b.due || b.cycles + cycles >= b.interval then CollectFrames(n, cycles, supply) == Pull(polled, supply)
            else CollectFrames(n, cycles, supply) == (n.(backend := Some(b.(cycles := b.cycles + cycles))), 0)
  {
    hide Pull;
  }

  /* ---- order ---- */

  /** left is what remains of a queue after taking frames from its front. */
  ghost predicate TakenFrom(queue: seq<NetState.Frame>, left: seq<NetState.Frame>) {
    exists k :: 0 <= k <= |queue| && left == queue[k..]
  }

  lemma {:induction false} ReceiveTakes(n: Net, m: Memory, processed: nat)
    requires n.rx.ring.table.size > 0 && processed <= n.rx.ring.table.size
    ensures TakenFrom(n.pending, ProcessReceive(n, m, processed).0.pending)
    decreases n.rx.ring.table.size - processed
  {
    hide AvailableIndex; hide AvailableHead; hide Publish; hide Next16; hide Chain; hide Receive;
    var r := n.rx.ring;
    assert n.pending[0..] == n.pending;
    if n.pending != [] && processed < r.table.size && AvailableIndex(m, r).Some? && AvailableHead(m, r).Some? {
      var head := AvailableHead(m, r).value;
      var (n1, m1, bytes) := Deliver(n, m, head);
      var (m2, r1, completed) := CompleteOnRing(m1, r, head, bytes);
      assert n1.pending == n.pending[1..];
      if completed && AvailableIndex(m, r).value != r.lastAvailable {
        var next := Raised(WithRx(n1, Taken(r1)));
        ReceiveTakes(next, m2, processed + 1);
        var left := ProcessReceive(next, m2, processed + 1).0.pending;
        var k :| 0 <= k <= |n.pending[1..]| && left == n.pending[1..][k..];
        assert left == n.pending[k + 1..];
      }
    }
  }

  lemma {:induction false} TransmitPending(n: Net, m: Memory, processed: nat)
    requires n.tx.ring.table.size > 0 && processed <= n.tx.ring.table.size
    ensures ProcessTransmit(n, m, processed).0.pending == n.pending
    decreases n.tx.ring.table.size - processed
  {
    hide AvailableIndex; hide AvailableHead; hide Publish; hide Next16; hide Chain; hide Transmit;
    var r := n.tx.ring;
    if processed < r.table.size && AvailableIndex(m, r).Some? && AvailableHead(m, r).Some? {
      var head := AvailableHead(m, r).value;
      var (n1, _) := Send(n, m, head);
      var (m1, r1, completed) := CompleteOnRing(m, r, head, 0);
      if completed { TransmitPending(Raised(WithTx(n1, Taken(r1))), m1, processed + 1); }
    }
  }

  /** The frames that an operation accepts: an injected frame that fits while fewer than 256 are pending, or those that
      a tick pulls and that fit. */
  function Accepts(n: Net, op: Op): seq<NetState.Frame>
    requires NetState.Shaped(n)
  {
    match op
    case InjectOp(f) => if Fits(f) && |n.pending| < 256 then [f] else []
    case TickOp(m, cycles, supply) => Good(supply[..Least(Offered(n, op), |supply|)])
    case _ => []
  }

  function Least(a: nat, b: nat): nat { if a <= b then a else b }

  /** Every operation but a reset queues what it accepts at the back and takes frames from the front alone. */
  lemma KeepsOrder(n: Net, op: Op)
    requires NetState.Inv(n)
    ensures if op == ResetOp then Apply(n, op).pending == []
            else TakenFrom(n.pending + Accepts(n, op), Apply(n, op).pending)
  {
    hide Pull; hide ProcessTransmit; hide ProcessReceive; hide Good;
    var queue := n.pending + Accepts(n, op);
    assert queue[0..] == queue && n.pending + [] == n.pending;
    match op
    case TickOp(m, cycles, supply) =>
      TickKeepsOrder(n, m, cycles, supply);
    case _ =>
  }

  lemma TickKeepsOrder(n: Net, m: Memory, cycles: nat, supply: seq<NetState.Frame>)
    requires NetState.Inv(n)
    ensures TakenFrom(n.pending + Accepts(n, TickOp(m, cycles, supply)), Tick(n, m, cycles, supply).0.pending)
  {
    hide Pull; hide ProcessTransmit; hide ProcessReceive;
    match n.backend {
      case None =>
      case Some(b) => PullsInOrder(n.(backend := Some(b.(cycles := 0, due := false))), supply);
    }
    var (n1, k) := CollectFrames(n, cycles, supply);
    assert supply[..0] == [] && n.pending + [] == n.pending;
    assert n1.pending == n.pending + Good(supply[..Least(k, |supply|)]);
    CollectKeeps(n, cycles, supply);
    var n0 := n1.(tx := n1.tx.(notified := false));
    if n0.tx.ring.table.size > 0 { TransmitPending(n0, m, 0); }
    var (n2, m2, _) := TickTransmit(n1, m);
    TickTransmitKeeps(n1, m);
    assert n2.pending == n1.pending;
    var n3 := n2.(rx := n2.rx.(notified := false));
    if n3.rx.ring.table.size > 0 { ReceiveTakes(n3, m2, 0); }
    assert n3.pending[0..] == n3.pending;
  }

  lemma CollectKeeps(n: Net, cycles: nat, supply: seq<NetState.Frame>)
    requires NetState.Inv(n)
    ensures NetState.Inv(CollectFrames(n, cycles, supply).0)
  {
    hide Pull;
    match n.backend
    case None =>
    case Some(b) => PullKeeps(n.(backend := Some(b.(cycles := 0, due := false))), supply);
  }

  /** The frames accepted since the last reset of a run, those pending before it first. */
  function Queue(n: Net, ops: seq<Op>, queue: seq<NetState.Frame>): seq<NetState.Frame>
    requires NetState.Inv(n)
    decreases |ops|
  {
    if ops == [] then queue
    else
      ApplyKeeps(n, ops[0]);
      Queue(Apply(n, ops[0]), ops[1..], if ops[0] == ResetOp then [] else queue + Accepts(n, ops[0]))
  }

  /** Over every run, frames are taken in the order in which they were accepted: what is pending is what remains of
      that queue after taking from its front. With ReturnedChains.ReceiveReturns,
        what is taken is delivered in order. */
  lemma {:induction false} RunKeepsOrder(n: Net, ops: seq<Op>, queue: seq<NetState.Frame>)
    requires NetState.Inv(n) && TakenFrom(queue, n.pending)
    ensures TakenFrom(Queue(n, ops, queue), NetState.Run(n, ops).n.pending)
    decreases |ops|
  {
    hide Apply; hide Accepts; hide NetState.Inv; hide Offered; hide Flushed; hide TakenFrom;
    InvShaped(n);
    if ops != [] {
      var op := ops[0];
      ApplyKeeps(n, op);
      KeepsOrder(n, op);
      var later := if op == ResetOp then [] else queue + Accepts(n, op);
      if op == ResetOp { TakenNone(); }
      else { TakenTwice(queue, n.pending, Accepts(n, op), Apply(n, op).pending); }
      RunKeepsOrder(Apply(n, op), ops[1..], later);
    }
  }

  lemma TakenNone()
    ensures TakenFrom([], [])
  {
    var none: seq<NetState.Frame> := [];
    assert none[0..] == none;
  }

  lemma SuffixSum(a: seq<NetState.Frame>, b: seq<NetState.Frame>, k: nat)
    requires k <= |a|
    ensures (a + b)[k..] == a[k..] + b
  {}

  lemma SuffixTwice(a: seq<NetState.Frame>, k: nat, j: nat)
    requires k + j <= |a|
    ensures a[k..][j..] == a[k + j..]
  {}

  lemma TakenTwice(queue: seq<NetState.Frame>, pending: seq<NetState.Frame>, more: seq<NetState.Frame>,
      left: seq<NetState.Frame>)
    requires TakenFrom(queue, pending) && TakenFrom(pending + more, left)
    ensures TakenFrom(queue + more, left)
  {
    var k :| 0 <= k <= |queue| && pending == queue[k..];
    var j :| 0 <= j <= |pending + more| && left == (pending + more)[j..];
    SuffixSum(queue, more, k);
    SuffixTwice(queue + more, k, j);
  }
}
