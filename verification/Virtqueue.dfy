/** Guest memory as a device sees it, and the descriptor chains of a split virtqueue. */
module Virtqueue {
  import opened Wrappers
  import opened Endian
  import SystemBus

  /* ---- guest memory over DMA ---- */

  /** RAM at a base address; everything else faults. */
  datatype Memory = Memory(base: nat, bytes: seq<byte>)

  predicate Backed(m: Memory, a: nat, w: Width) { SystemBus.Contains(SystemBus.Range(m.base, |m.bytes|), a, w) }

  function Load(m: Memory, a: nat, w: Width): Option<nat> {
    if Backed(m, a, w) then Some(Loaded(m.bytes, a - m.base, w)) else None
  }

  function Store(m: Memory, a: nat, w: Width, v: nat): Option<Memory> {
    if Backed(m, a, w) then Some(m.(bytes := Stored(m.bytes, a - m.base, w, v))) else None
  }

  predicate Holds(m: Memory, a: nat) { m.base <= a < m.base + |m.bytes| }

  function ByteAt(m: Memory, a: nat): byte
    requires Holds(m, a)
  {
    m.bytes[a - m.base]
  }

  function WithByte(m: Memory, a: nat, b: byte): (r: Memory)
    requires Holds(m, a)
  {
    m.(bytes := m.bytes[a - m.base := b])
  }

  /** Byte accesses of the bus are byte accesses of the memory. */
  lemma ByteAccess(m: Memory, a: nat, b: byte)
    ensures Load(m, a, Byte) == if Holds(m, a) then Some(ByteAt(m, a)) else None
    ensures Store(m, a, Byte, b) == if Holds(m, a) then Some(WithByte(m, a, b)) else None
  {
    if Holds(m, a) {
      var i := a - m.base;
      assert m.bytes[i..i + 1] == [m.bytes[i]];
      assert Value([m.bytes[i]]) == m.bytes[i];
      assert Bytes(b, 1) == [b];
      assert Stored(m.bytes, i, Byte, b) == m.bytes[i := b];
      assert m.(bytes := Stored(m.bytes, i, Byte, b)) == WithByte(m, a, b);
    }
  }

  /* ---- buffers as lists of byte addresses ---- */

  const U64: nat := 0x1_0000_0000_0000_0000

  /** The addresses of n bytes from a on; address arithmetic wraps. */
  function Places(a: nat, n: nat): (r: seq<nat>)
    ensures |r| == n
  {
    seq(n, i requires 0 <= i => (a + i) % U64)
  }

  /** Read the bytes at these addresses; None when one of them faults. */
  function Gather(m: Memory, at: seq<nat>): (r: Option<seq<byte>>)
    ensures r.Some? ==> |r.value| == |at|
  {
    if at == [] then Some([])
    else if !Holds(m, at[0]) then None
    else
      match Gather(m, at[1..])
      case None => None
      case Some(rest) => Some([ByteAt(m, at[0])] + rest)
  }

  /** Write data to these addresses in order until one faults: the memory and how many were written. */
  function Scatter(m: Memory, at: seq<nat>, data: seq<byte>): (r: (Memory, nat))
    requires |data| == |at|
    ensures r.0.base == m.base && |r.0.bytes| == |m.bytes| && r.1 <= |at|
    decreases |at|
  {
    if at == [] || !Holds(m, at[0]) then (m, 0)
    else
      var (m', n) := Scatter(WithByte(m, at[0], data[0]), at[1..], data[1..]);
      (m', n + 1)
  }

  predicate Distinct(at: seq<nat>) { forall i, j :: 0 <= i < j < |at| ==> at[i] != at[j] }

  lemma {:induction false} GatherAppend(m: Memory, a: seq<nat>, b: seq<nat>)
    ensures Gather(m, a + b) == if Gather(m, a).Some? && Gather(m, b).Some?
                                then Some(Gather(m, a).value + Gather(m, b).value) else None
  {
    if a == [] {
      assert a + b == b;
      if Gather(m, b).Some? { assert [] + Gather(m, b).value == Gather(m, b).value; }
    } else {
      assert (a + b)[1..] == a[1..] + b;
      GatherAppend(m, a[1..], b);
      if Holds(m, a[0]) && Gather(m, a[1..]).Some? && Gather(m, b).Some? {
        var x, y := Gather(m, a[1..]).value, Gather(m, b).value;
        assert [ByteAt(m, a[0])] + (x + y) == ([ByteAt(m, a[0])] + x) + y;
      }
    }
  }

  lemma {:induction false} ScatterAppend(m: Memory, a: seq<nat>, b: seq<nat>, x: seq<byte>, y: seq<byte>)
    requires |x| == |a| && |y| == |b|
    ensures Scatter(m, a + b, x + y) ==
            (var (m1, n) := Scatter(m, a, x);
             if n < |a| then (m1, n) else (var (m2, k) := Scatter(m1, b, y); (m2, n + k)))
    decreases |a|
  {
    if a == [] {
      assert a + b == b && x + y == y;
    } else if Holds(m, a[0]) {
      assert (a + b)[1..] == a[1..] + b && (x + y)[1..] == x[1..] + y;
      ScatterAppend(WithByte(m, a[0], x[0]), a[1..], b, x[1..], y);
    }
  }

  /** Bytes whose address is not written keep their value. */
  lemma {:induction false} ScatterElsewhere(m: Memory, at: seq<nat>, data: seq<byte>, a: nat)
    requires |data| == |at| && Holds(m, a) && a !in at
    ensures Holds(Scatter(m, at, data).0, a) && ByteAt(Scatter(m, at, data).0, a) == ByteAt(m, a)
    decreases |at|
  {
    if at != [] && Holds(m, at[0]) {
      ScatterElsewhere(WithByte(m, at[0], data[0]), at[1..], data[1..], a);
    }
  }

  lemma {:induction false} GatherElsewhere(m: Memory, at: seq<nat>, data: seq<byte>, from: seq<nat>)
    requires |data| == |at| && forall a :: a in from ==> a !in at
    ensures Gather(Scatter(m, at, data).0, from) == Gather(m, from)
  {
    if from != [] {
      GatherElsewhere(m, at, data, from[1..]);
      assert from[0] in from;
      if Holds(m, from[0]) { ScatterElsewhere(m, at, data, from[0]); }
    }
  }

  /** Distinct addresses written completely read back what was written. */
  lemma {:induction false} GatherScattered(m: Memory, at: seq<nat>, data: seq<byte>)
    requires |data| == |at| && Distinct(at) && Scatter(m, at, data).1 == |at|
    ensures Gather(Scatter(m, at, data).0, at) == Some(data)
    decreases |at|
  {
    if at != [] {
      var m1 := WithByte(m, at[0], data[0]);
      GatherScattered(m1, at[1..], data[1..]);
      forall i | 0 <= i < |at[1..]| ensures at[1..][i] != at[0] { assert at[1..][i] == at[i + 1]; }
      ScatterElsewhere(m1, at[1..], data[1..], at[0]);
      assert [data[0]] + data[1..] == data;
    }
  }

  /** One byte of a gather loop. */
  lemma GatherNext(m: Memory, at: seq<nat>, i: nat, data: seq<byte>)
    requires i < |at| && Gather(m, at[..i]) == Some(data)
    ensures match Load(m, at[i], Byte)
            case None => Gather(m, at) == None
            case Some(b) => b < 256 && Gather(m, at[..i + 1]) == Some(data + [b])
  {
    ByteAccess(m, at[i], 0);
    GatherAppend(m, at[..i], at[i..]);
    GatherAppend(m, at[..i], [at[i]]);
    assert at == at[..i] + at[i..] && at[..i + 1] == at[..i] + [at[i]];
    assert at[i..][0] == at[i] && [at[i]][1..] == [] && Gather(m, []) == Some([]);
    if Holds(m, at[i]) {
      assert [ByteAt(m, at[i])] + [] == [ByteAt(m, at[i])];
      assert Gather(m, [at[i]]) == Some([ByteAt(m, at[i])]);
    }
  }

  /** One byte of a scatter loop. */
  lemma ScatterNext(m: Memory, at: seq<nat>, data: seq<byte>, i: nat)
    requires i < |at| == |data|
    ensures match Store(m, at[i], Byte, data[i])
            case None => Scatter(m, at[i..], data[i..]) == (m, 0)
            case Some(m1) => Scatter(m, at[i..], data[i..]) ==
                             (var (m2, k) := Scatter(m1, at[i + 1..], data[i + 1..]); (m2, k + 1))
  {
    ByteAccess(m, at[i], data[i]);
    assert at[i..][1..] == at[i + 1..] && data[i..][1..] == data[i + 1..];
  }

  /* ---- descriptors ---- */

  datatype Descriptor = Descriptor(address: nat, length: nat, flags: nat, next: nat)

  predicate HasNext(d: Descriptor) { d.flags % 2 == 1 }

  predicate IsWrite(d: Descriptor) { d.flags / 2 % 2 == 1 }

  /** The byte addresses of all the buffers, in order. */
  function AllPlaces(ds: seq<Descriptor>): seq<nat> {
    if ds == [] then [] else Places(ds[0].address, ds[0].length) + AllPlaces(ds[1..])
  }

  /** Where a queue's descriptors are and how many there are. */
  datatype Table = Table(address: nat, size: nat)

  function DescriptorAt(m: Memory, t: Table, i: nat): Option<Descriptor> {
    var a := (t.address + i * 16) % U64;
    var address, length := Load(m, a, DoubleWord), Load(m, (a + 8) % U64, Word);
    var flags, next := Load(m, (a + 12) % U64, HalfWord), Load(m, (a + 14) % U64, HalfWord);
    if address.None? || length.None? || flags.None? || next.None? then None
    else Some(Descriptor(address.value, length.value, flags.value, next.value))
  }

  /** How following a chain ended: at a descriptor without NEXT, at an index that is out of range,
      repeated or unreadable, or at the loop bound. */
  datatype Ending = Complete | Broken(unreadable: bool) | Exhausted

  /** Follow NEXT from current, count descriptors having been taken already. */
  function Collect(m: Memory, t: Table, current: nat, visited: set<nat>, count: nat): (seq<Descriptor>, Ending)
    decreases t.size - count
  {
    if count >= t.size then ([], Exhausted)
    else if current >= t.size || current in visited then ([], Broken(false))
    else
      match DescriptorAt(m, t, current)
      case None => ([], Broken(true))
      case Some(d) =>
        if !HasNext(d) then ([d], Complete)
        else
          var (rest, ending) := Collect(m, t, d.next, visited + {current}, count + 1);
          ([d] + rest, ending)
  }

  function Chain(m: Memory, t: Table, head: nat): (seq<Descriptor>, Ending) { Collect(m, t, head, {}, 0) }

  /* ---- what a chain is, independently of the loop ---- */

  /** The indices of the path, in range and without repetition, each naming the next by its descriptor. */
  predicate IsPath(m: Memory, t: Table, path: seq<nat>, chain: seq<Descriptor>) {
    |path| == |chain| && path != [] && Distinct(path) &&
    (forall k :: 0 <= k < |path| ==> path[k] < t.size && DescriptorAt(m, t, path[k]) == Some(chain[k])) &&
    (forall k :: 0 <= k < |path| - 1 ==> HasNext(chain[k]) && path[k + 1] == chain[k].next)
  }

  predicate Ends(chain: seq<Descriptor>)
    requires chain != []
  {
    !HasNext(chain[|chain| - 1])
  }

  predicate Apart(path: seq<nat>, visited: set<nat>) { forall k :: 0 <= k < |path| ==> path[k] !in visited }

  /** The indices that Collect visits. */
  function Visits(m: Memory, t: Table, current: nat, visited: set<nat>, count: nat): seq<nat>
    decreases t.size - count
  {
    if count >= t.size || current >= t.size || current in visited then []
    else
      match DescriptorAt(m, t, current)
      case None => []
      case Some(d) => [current] + if HasNext(d) then Visits(m, t, d.next, visited + {current}, count + 1) else []
  }

  /** What Collect accepts is a path: complete, or cut exactly at the loop bound. */
  lemma {:induction false} CollectSound(m: Memory, t: Table, current: nat, visited: set<nat>, count: nat)
    requires count < t.size && !Collect(m, t, current, visited, count).1.Broken?
    ensures var (chain, ending) := Collect(m, t, current, visited, count);
            var path := Visits(m, t, current, visited, count);
            IsPath(m, t, path, chain) && path[0] == current && Apart(path, visited) &&
            (ending == Complete <==> Ends(chain)) && (ending == Exhausted ==> |path| == t.size - count)
    decreases t.size - count
  {
    hide DescriptorAt; hide HasNext;
    var d := DescriptorAt(m, t, current).value;
    if HasNext(d) && count + 1 < t.size {
      CollectSound(m, t, d.next, visited + {current}, count + 1);
      var path, chain := Visits(m, t, d.next, visited + {current}, count + 1),
          Collect(m, t, d.next, visited + {current}, count + 1).0;
      forall k | 0 <= k < |path| ensures path[k] != current &&
          path[k] !in visited { assert path[k] !in visited + {current}; }
    }
  }

  lemma TailIsPath(m: Memory, t: Table, path: seq<nat>, chain: seq<Descriptor>)
    requires IsPath(m, t, path, chain) && |path| > 1
    ensures IsPath(m, t, path[1..], chain[1..])
  {
    hide DescriptorAt; hide HasNext;
    var p, c := path[1..], chain[1..];
    forall k | 0 <= k < |p| ensures p[k] < t.size && DescriptorAt(m, t, p[k]) == Some(c[k]) {
      assert path[k + 1] < t.size && DescriptorAt(m, t, path[k + 1]) == Some(chain[k + 1]);
    }
    forall i, j | 0 <= i < j < |p| ensures p[i] != p[j] { assert path[i + 1] != path[j + 1]; }
    forall k | 0 <= k < |p| - 1 ensures HasNext(c[k]) &&
        p[k + 1] == c[k].next { assert HasNext(chain[k + 1]) && path[k + 2] == chain[k + 1].next; }
  }

  /** Every path that ends, or that fills the loop bound, is what Collect takes. */
  lemma {:induction false} CollectComplete(m: Memory, t: Table, visited: set<nat>, count: nat, path: seq<nat>,
      chain: seq<Descriptor>)
    requires IsPath(m, t, path, chain) && Apart(path, visited) && count + |path| <= t.size
    requires Ends(chain) || count + |path| == t.size
    ensures Collect(m, t, path[0], visited, count) == (chain, if Ends(chain) then Complete else Exhausted)
    decreases |path|
  {
    hide DescriptorAt; hide HasNext;
    if |path| > 1 {
      TailIsPath(m, t, path, chain);
      CollectComplete(m, t, visited + {path[0]}, count + 1, path[1..], chain[1..]);
      assert chain[1..][|chain| - 2] == chain[|chain| - 1];
    } else if HasNext(chain[0]) {
      assert Collect(m, t, chain[0].next, visited + {path[0]}, count + 1) == ([], Exhausted);
    }
    assert chain == [chain[0]] + chain[1..] && (|path| == 1 ==> chain == [chain[0]]);
  }

  /* ---- the loop bound cuts no path short ---- */

  lemma {:induction false} Pigeonhole(path: seq<nat>, n: nat)
    requires Distinct(path) && forall k :: 0 <= k < |path| ==> path[k] < n
    ensures |path| <= n
  {
    Counted(path);
    Subset(set k | 0 <= k < |path| :: path[k], UpTo(n));
  }

  function UpTo(n: nat): (r: set<nat>)
    ensures |r| == n && forall k: nat :: k in r <==> k < n
  {
    if n == 0 then {} else UpTo(n - 1) + {n - 1}
  }

  lemma {:induction false} Counted(path: seq<nat>)
    requires Distinct(path)
    ensures |set k | 0 <= k < |path| :: path[k]| == |path|
  {
    if path != [] {
      var n := |path| - 1;
      Counted(path[..n]);
      var before := set k | 0 <= k < n :: path[..n][k];
      assert (set k | 0 <= k < |path| :: path[k]) == before + {path[n]};
      assert path[n] !in before;
    }
  }

  lemma {:induction false} Subset(a: set<nat>, b: set<nat>)
    requires a <= b
    ensures |a| <= |b|
    decreases |a|
  {
    if a != {} {
      var x :| x in a;
      Subset(a - {x}, b - {x});
    }
  }

  /** A whole chain from this head: the path that reaches a descriptor without NEXT. */
  ghost predicate WholeChain(m: Memory, t: Table, head: nat, path: seq<nat>, chain: seq<Descriptor>) {
    IsPath(m, t, path, chain) && path[0] == head && Ends(chain)
  }

  /** Following succeeds exactly when NEXT leads from the head, in range, readable and without
      repetition, to a descriptor without NEXT; the result is then that whole path. */
  lemma ChainIsExact(m: Memory, t: Table, head: nat)
    ensures Chain(m, t, head).1 == Complete <==> exists path, chain :: WholeChain(m, t, head, path, chain)
    ensures forall path, chain :: WholeChain(m, t, head, path, chain) ==>
        Chain(m, t, head).0 == chain && |path| <= t.size
  {
    if Chain(m, t, head).1 == Complete {
      CollectSound(m, t, head, {}, 0);
      assert WholeChain(m, t, head, Visits(m, t, head, {}, 0), Chain(m, t, head).0);
    }
    forall path, chain | WholeChain(m, t, head, path, chain)
        ensures Chain(m, t, head) == (chain, Complete) && |path| <= t.size {
      Pigeonhole(path, t.size);
      CollectComplete(m, t, {}, 0, path, chain);
    }
  }

  /** The bound is reached exactly by a path through every descriptor whose last still has NEXT. */
  lemma ExhaustedIsExact(m: Memory, t: Table, head: nat)
    requires t.size > 0
    ensures Chain(m, t, head).1 == Exhausted
            <==> exists path, chain :: IsPath(m, t, path, chain) && path[0] == head && |path| == t.size && !Ends(chain)
  {
    if Chain(m, t, head).1 == Exhausted {
      CollectSound(m, t, head, {}, 0);
      var path, chain := Visits(m, t, head, {}, 0), Chain(m, t, head).0;
      assert IsPath(m, t, path, chain) && path[0] == head && |path| == t.size && !Ends(chain);
    }
    forall path, chain | IsPath(m, t, path, chain) && path[0] == head && |path| == t.size && !Ends(chain)
      ensures Chain(m, t, head).1 == Exhausted
    {
      CollectComplete(m, t, {}, 0, path, chain);
    }
  }

  /* ---- the rings ---- */

  /** A configured queue: where its parts are, and the device's two 16-bit positions. */
  datatype Ring = Ring(table: Table, available: nat, used: nat, lastAvailable: nat, usedIndex: nat)

  function Next16(i: nat): (r: nat)
    ensures r < 0x1_0000
  {
    (i + 1) % 0x1_0000
  }

  function AvailableIndex(m: Memory, r: Ring): Option<nat> { Load(m, (r.available + 2) % U64, HalfWord) }

  function AvailableHead(m: Memory, r: Ring): Option<nat>
    requires r.table.size > 0
  {
    Load(m, (r.available + 4 + r.lastAvailable % r.table.size * 2) % U64, HalfWord)
  }

  /** How far returning a chain through the used ring got. */
  datatype Published = ElementFailed | IndexFailed | Returned

  /** Write the used element, then the used index. */
  function Publish(m: Memory, r: Ring, head: nat, bytes: nat): (Memory, Published)
    requires r.table.size > 0
  {
    var element := (r.used + 4 + r.usedIndex % r.table.size * 8) % U64;
    match Store(m, element, Word, head)
    case None => (m, ElementFailed)
    case Some(m1) =>
      match Store(m1, (element + 4) % U64, Word, bytes)
      case None => (m1, ElementFailed)
      case Some(m2) =>
        match Store(m2, (r.used + 2) % U64, HalfWord, Next16(r.usedIndex))
        case None => (m2, IndexFailed)
        case Some(m3) => (m3, Returned)
  }

  /* ---- DMA and the chain loop, in place ---- */

  function Prefixed(chain: seq<Descriptor>,
      c: (seq<Descriptor>, Ending)): (seq<Descriptor>, Ending) { (chain + c.0, c.1) }

  /** One turn of the loop moves a descriptor from what is left to what was taken. */
  lemma CollectStep(m: Memory, t: Table, current: nat, visited: set<nat>, count: nat, chain: seq<Descriptor>)
    requires count < t.size && current < t.size && current !in visited && DescriptorAt(m, t, current).Some?
    ensures var d := DescriptorAt(m, t, current).value;
            Prefixed(chain, Collect(m, t, current, visited, count))
            == if HasNext(d) then Prefixed(chain + [d], Collect(m, t, d.next, visited + {current}, count + 1))
              else (chain + [d], Complete)
  {
    hide DescriptorAt; hide HasNext;
    var d := DescriptorAt(m, t, current).value;
    var rest := Collect(m, t, d.next, visited + {current}, count + 1).0;
    assert (chain + [d]) + rest == chain + ([d] + rest);
  }

  /** Guest memory, as the bus changes it. */
  class GuestMemory {
    var m: Memory

    constructor (m: Memory)
      ensures this.m == m
    {
      this.m := m;
    }

    method DmaRead(a: nat, w: Width) returns (r: Option<nat>)
      ensures r == Load(m, a, w)
    {
      return Load(m, a, w);
    }

    method DmaWrite(a: nat, w: Width, v: nat) returns (ok: bool)
      modifies this
      ensures ok == Store(old(m), a, w, v).Some? && m == if ok then Store(old(m), a, w, v).value else old(m)
    {
      var stored := Store(m, a, w, v);
      if stored.Some? { m := stored.value; }
      return stored.Some?;
    }

    method LoadDescriptor(t: Table, i: nat) returns (d: Option<Descriptor>)
      ensures d == if i < t.size then DescriptorAt(m, t, i) else None
    {
      hide Load;
      if i >= t.size { return None; }
      var a := (t.address + i * 16) % U64;
      var address := DmaRead(a, DoubleWord);
      var length := DmaRead((a + 8) % U64, Word);
      var flags := DmaRead((a + 12) % U64, HalfWord);
      var next := DmaRead((a + 14) % U64, HalfWord);
      if address.None? || length.None? || flags.None? || next.None? { return None; }
      return Some(Descriptor(address.value, length.value, flags.value, next.value));
    }

    /** load_chain of the network device and the chain loop of the block device. */
    method LoadChain(t: Table, head: nat) returns (chain: seq<Descriptor>, ending: Ending)
      ensures (chain, ending) == Chain(m, t, head)
    {
      hide DescriptorAt; hide HasNext;
      chain := [];
      assert Prefixed([], Chain(m, t, head)).0 == Chain(m, t, head).0;
      var visited := new bool[t.size](_ => false);
      ghost var marked: set<nat> := {};
      var current: nat := head;
      for count := 0 to t.size
        invariant fresh(visited) && (forall k: nat :: k in marked <==> k < t.size && visited[k])
        invariant Chain(m, t, head) == Prefixed(chain, Collect(m, t, current, marked, count))
      {
        assert chain + [] == chain;
        if current >= t.size || visited[current] { return chain, Broken(false); }
        visited[current] := true;
        var d := LoadDescriptor(t, current);
        if d.None? { return chain, Broken(true); }
        CollectStep(m, t, current, marked, count, chain);
        chain := chain + [d.value];
        marked := marked + {current};
        if !HasNext(d.value) { return chain, Complete; }
        current := d.value.next;
      }
      assert chain + [] == chain;
      return chain, Exhausted;
    }
  }
}
