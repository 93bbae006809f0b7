/** One VirtIO block request: what it moves between the disk and the guest's buffers. */
module BlockRequest {
  import opened Wrappers
  import opened Endian
  import opened Virtqueue

  const CHUNK: nat := 4096
  const SECTOR: nat := 512

  /** Completion status bytes. */
  const OK: nat := 0
  const IO_ERROR: nat := 1
  const UNSUPPORTED: nat := 2

  predicate InBounds(size: nat, offset: nat, n: nat) { n <= size && offset <= size - n }

  function Put(disk: seq<byte>, offset: nat, data: seq<byte>): (r: seq<byte>)
    requires InBounds(|disk|, offset, |data|)
    ensures |r| == |disk|
  {
    disk[..offset] + data + disk[offset + |data|..]
  }

  function Min(a: nat, b: nat): nat { if a <= b then a else b }

  /* ---- one data buffer, in chunks ---- */

  /** Guest to disk, from byte done of the buffer on: the disk, and whether every chunk went through. */
  function WriteChunks(m: Memory, disk: seq<byte>, offset: nat, address: nat, length: nat,
      done: nat): (r: (seq<byte>, bool))
    requires done <= length && InBounds(|disk|, offset, length)
    ensures |r.0| == |disk|
    decreases length - done
  {
    if done == length then (disk, true)
    else
      var n := Min(length - done, CHUNK);
      match Gather(m, Places(address + done, n))
      case None => (disk, false)
      case Some(data) => WriteChunks(m, Put(disk, offset + done, data), offset, address, length, done + n)
  }

  /** Disk to guest: the memory, how many bytes were written, and whether every chunk went through. */
  function ReadChunks(m: Memory, disk: seq<byte>, offset: nat, address: nat, length: nat,
      done: nat): (Memory, nat, bool)
    requires done <= length && InBounds(|disk|, offset, length)
    decreases length - done
  {
    if done == length then (m, 0, true)
    else
      var n := Min(length - done, CHUNK);
      var (m1, k) := Scatter(m, Places(address + done, n), disk[offset + done..offset + done + n]);
      if k < n then (m1, k, false)
      else
        var (m2, rest, ok) := ReadChunks(m1, disk, offset, address, length, done + n);
        (m2, k + rest, ok)
  }

  lemma PlacesSplit(a: nat, n: nat, k: nat)
    requires k <= n
    ensures Places(a, n) == Places(a, k) + Places(a + k, n - k)
  {}

  lemma PutSplit(disk: seq<byte>, offset: nat, x: seq<byte>, y: seq<byte>)
    requires InBounds(|disk|, offset, |x| + |y|)
    ensures Put(Put(disk, offset, x), offset + |x|, y) == Put(disk, offset, x + y)
  {}

  /** The disks agree outside a range. */
  predicate SameOutside(a: seq<byte>, b: seq<byte>, low: nat, high: nat) {
    |a| == |b| && forall i :: 0 <= i < |a| && !(low <= i < high) ==> a[i] == b[i]
  }

  lemma PutOutside(disk: seq<byte>, offset: nat, data: seq<byte>)
    requires InBounds(|disk|, offset, |data|)
    ensures SameOutside(disk, Put(disk, offset, data), offset, offset + |data|)
    ensures Put(disk, offset, data)[offset..offset + |data|] == data
    ensures data == [] ==> Put(disk, offset, data) == disk
  {}

  lemma OutsideTwice(a: seq<byte>, b: seq<byte>, c: seq<byte>, low: nat, middle: nat, high: nat)
    requires low <= middle <= high && SameOutside(a, b, low, middle) && SameOutside(b, c, middle, high)
    ensures SameOutside(a, c, low, high)
  {}

  /** Chunking is invisible: a buffer is written whole, or a fault leaves bytes outside it alone. */
  lemma {:induction false} WriteChunksIsPut(m: Memory, disk: seq<byte>, offset: nat, address: nat, length: nat,
      done: nat)
    requires done <= length && InBounds(|disk|, offset, length)
    ensures var (disk', ok) := WriteChunks(m, disk, offset, address, length, done);
            var data := Gather(m, Places(address + done, length - done));
            (ok <==> data.Some?) && (ok ==> disk' == Put(disk, offset + done, data.value)) &&
            SameOutside(disk, disk', offset + done, offset + length)
    decreases length - done
  {
    hide Put; hide SameOutside; hide Gather; hide Places;
    if done == length {
      EmptyGather(m, address + done);
      PutOutside(disk, offset + done, []);
    } else {
      var n := Min(length - done, CHUNK);
      PlacesSplit(address + done, length - done, n);
      GatherAppend(m, Places(address + done, n), Places(address + done + n, length - done - n));
      var first := Gather(m, Places(address + done, n));
      if first.Some? {
        var disk1 := Put(disk, offset + done, first.value);
        WriteChunksIsPut(m, disk1, offset, address, length, done + n);
        var rest := Gather(m, Places(address + done + n, length - done - n));
        if rest.Some? { PutSplit(disk, offset + done, first.value, rest.value); }
        PutOutside(disk, offset + done, first.value);
        OutsideTwice(disk, disk1, WriteChunks(m, disk1, offset, address, length, done + n).0, offset + done,
          offset + done + n, offset + length);
      } else {
        Unchanged(disk, offset + done, offset + length);
      }
    }
  }

  lemma Unchanged(disk: seq<byte>, low: nat, high: nat)
    ensures SameOutside(disk, disk, low, high)
  {}

  lemma EmptyGather(m: Memory, a: nat)
    ensures Places(a, 0) == [] && Gather(m, []) == Some([])
  {}

  /** Reading by chunks is one scatter of the disk slice, faults included. */
  lemma {:induction false} ReadChunksIsScatter(m: Memory, disk: seq<byte>, offset: nat, address: nat, length: nat,
      done: nat)
    requires done <= length && InBounds(|disk|, offset, length)
    ensures var (m', k) := Scatter(m, Places(address + done, length - done), disk[offset + done..offset + length]);
            ReadChunks(m, disk, offset, address, length, done) == (m', k, k == length - done)
    decreases length - done
  {
    hide Scatter; hide Places;
    if done == length {
      ScatterNone(m, address + done, disk[offset + done..offset + length]);
    } else {
      var n := Min(length - done, CHUNK);
      var a, b := Places(address + done, n), Places(address + done + n, length - done - n);
      var x, y := disk[offset + done..offset + done + n], disk[offset + done + n..offset + length];
      PlacesSplit(address + done, length - done, n);
      SliceSplit(disk, offset + done, offset + done + n, offset + length);
      ScatterAppend(m, a, b, x, y);
      ReadChunksIsScatter(Scatter(m, a, x).0, disk, offset, address, length, done + n);
    }
  }

  lemma SliceSplit(disk: seq<byte>, low: nat, middle: nat, high: nat)
    requires low <= middle <= high <= |disk|
    ensures disk[low..high] == disk[low..middle] + disk[middle..high]
  {}

  lemma ScatterNone(m: Memory, a: nat, data: seq<byte>)
    requires data == []
    ensures Places(a, 0) == [] && Scatter(m, Places(a, 0), data) == (m, 0)
  {}

  /* ---- the data descriptors of a request ---- */

  datatype Progress = Progress(m: Memory, disk: seq<byte>, written: nat, offset: nat, status: nat)

  function TransferOne(p: Progress, write: bool, d: Descriptor): (r: Progress)
    ensures |r.disk| == |p.disk|
  {
    if !InBounds(|p.disk|, p.offset, d.length) then p.(status := IO_ERROR)
    else if IsWrite(d) == write then p.(status := IO_ERROR)
    else if write then
      var (disk, ok) := WriteChunks(p.m, p.disk, p.offset, d.address, d.length, 0);
      p.(disk := disk, offset := p.offset + d.length, status := if ok then OK else IO_ERROR)
    else
      var (m, k, ok) := ReadChunks(p.m, p.disk, p.offset, d.address, d.length, 0);
      p.(m := m, written := p.written + k, offset := p.offset + d.length, status := if ok then OK else IO_ERROR)
  }

  function Transfer(p: Progress, write: bool, ds: seq<Descriptor>): (r: Progress)
    ensures |r.disk| == |p.disk|
    decreases |ds|
  {
    if ds == [] || p.status != OK then p else Transfer(TransferOne(p, write, ds[0]), write, ds[1..])
  }

  /** The direction of every buffer suits the request and the buffers fit the disk from the offset. */
  predicate Suits(ds: seq<Descriptor>, write: bool, size: nat, offset: nat) {
    (forall k :: 0 <= k < |ds| ==> IsWrite(ds[k]) != write) && (ds != [] ==> InBounds(size, offset, |AllPlaces(ds)|))
  }

  lemma SuitsSplit(ds: seq<Descriptor>, write: bool, size: nat, offset: nat)
    requires ds != []
    ensures Suits(ds, write, size, offset) <==>
            InBounds(size, offset, ds[0].length) && IsWrite(ds[0]) != write &&
              Suits(ds[1..], write, size, offset + ds[0].length)
  {
    var rest := ds[1..];
    assert |AllPlaces(ds)| == ds[0].length + |AllPlaces(rest)|;
    if Suits(rest, write, size, offset + ds[0].length) && IsWrite(ds[0]) != write {
      forall k | 0 <= k < |ds| ensures IsWrite(ds[k]) != write { if k > 0 { assert ds[k] == rest[k - 1]; } }
    }
    if Suits(ds, write, size, offset) {
      forall k | 0 <= k < |rest| ensures IsWrite(rest[k]) != write { assert rest[k] == ds[k + 1]; }
    }
  }

  /** What a write of these buffers comes to. */
  predicate WrittenWhole(p: Progress, ds: seq<Descriptor>, r: Progress) {
    var data := Gather(p.m, AllPlaces(ds));
    r.m == p.m && r.written == p.written && (r.status == OK <==> Suits(ds, true, |p.disk|, p.offset) && data.Some?) &&
    (r.status == OK ==> r.disk == if InBounds(|p.disk|, p.offset, |data.value|) then Put(p.disk, p.offset, data.value)
      else p.disk)
  }

  lemma WriteOne(p: Progress, d: Descriptor)
    requires p.status == OK
    ensures var q := TransferOne(p, true, d);
            var data := Gather(p.m, Places(d.address, d.length));
            q.m == p.m && q.written == p.written &&
            (q.status == OK <==> InBounds(|p.disk|, p.offset, d.length) && !IsWrite(d) && data.Some?) &&
            (q.status == OK ==> q.disk == Put(p.disk, p.offset, data.value) && q.offset == p.offset + d.length)
  {
    hide WriteChunks; hide Put; hide Gather; hide SameOutside;
    if InBounds(|p.disk|, p.offset, d.length) { WriteChunksIsPut(p.m, p.disk, p.offset, d.address, d.length, 0); }
  }

  /** A write request succeeds exactly when its buffers suit and can be read; the disk then holds their
      concatenation at the offset, and memory is untouched in every case. */
  lemma {:induction false} WritesWhole(p: Progress, ds: seq<Descriptor>)
    requires p.status == OK
    ensures WrittenWhole(p, ds, Transfer(p, true, ds))
    decreases |ds|
  {
    hide TransferOne; hide Suits; hide Gather; hide Put;
    if ds == [] {
      NoneSuits(true, |p.disk|, p.offset);
      EmptyGather(p.m, 0);
      if InBounds(|p.disk|, p.offset, 0) { PutOutside(p.disk, p.offset, []); }
    } else {
      var d, rest := ds[0], ds[1..];
      SuitsSplit(ds, true, |p.disk|, p.offset);
      WriteOne(p, d);
      GatherAppend(p.m, Places(d.address, d.length), AllPlaces(rest));
      var q := TransferOne(p, true, d);
      if q.status == OK {
        WritesWhole(q, rest);
        var x, y := Gather(p.m, Places(d.address, d.length)).value, Gather(p.m, AllPlaces(rest));
        if Transfer(q, true, rest).status == OK {
          SuitsBounds(rest, true, |p.disk|, q.offset);
          PutSplit(p.disk, p.offset, x, y.value);
        }
      }
    }
  }

  lemma NoneSuits(write: bool, size: nat, offset: nat)
    ensures Suits([], write, size, offset)
  {}

  lemma SuitsBounds(ds: seq<Descriptor>, write: bool, size: nat, offset: nat)
    requires Suits(ds, write, size, offset) && (ds == [] ==> offset <= size)
    ensures InBounds(size, offset, |AllPlaces(ds)|)
  {}

  /** What a read into these buffers comes to. */
  predicate ReadWhole(p: Progress, ds: seq<Descriptor>, r: Progress) {
    r.disk == p.disk &&
    if !Suits(ds, false, |p.disk|, p.offset) then r.status != OK
    else if ds == [] then r == p
    else
      var (m, k) := Scatter(p.m, AllPlaces(ds), p.disk[p.offset..p.offset + |AllPlaces(ds)|]);
      (r.status == OK <==> k == |AllPlaces(ds)|) && r.m == m && r.written == p.written + k
  }

  lemma ReadOne(p: Progress, d: Descriptor)
    requires p.status == OK && InBounds(|p.disk|, p.offset, d.length) && IsWrite(d)
    ensures var (m, k) := Scatter(p.m, Places(d.address, d.length), p.disk[p.offset..p.offset + d.length]);
            TransferOne(p, false, d) ==
              Progress(m, p.disk, p.written + k, p.offset + d.length, if k == d.length then OK else IO_ERROR)
  {
    hide ReadChunks; hide Scatter;
    ReadChunksIsScatter(p.m, p.disk, p.offset, d.address, d.length, 0);
  }

  /** A read request never changes the disk; it succeeds exactly when its buffers suit and are all
      backed, and then they have been written, in order, with the slice of the disk at the offset. */
  lemma {:induction false} ReadsWhole(p: Progress, ds: seq<Descriptor>)
    requires p.status == OK
    ensures ReadWhole(p, ds, Transfer(p, false, ds))
    decreases |ds|
  {
    hide Suits; hide Scatter; hide ReadChunks; hide WriteChunks;
    if ds == [] {
      NoneSuits(false, |p.disk|, p.offset);
    } else {
      var d, rest := ds[0], ds[1..];
      SuitsSplit(ds, false, |p.disk|, p.offset);
      if InBounds(|p.disk|, p.offset, d.length) && IsWrite(d) {
        hide TransferOne;
        ReadOne(p, d);
        var q := TransferOne(p, false, d);
        if q.status == OK { ReadsWhole(q, rest); }
        if Suits(ds, false, |p.disk|, p.offset) {
          SuitsBounds(ds, false, |p.disk|, p.offset);
          var n := p.offset + |AllPlaces(ds)|;
          assert p.disk[p.offset..n] == p.disk[p.offset..p.offset + d.length] + p.disk[p.offset + d.length..n];
          ScatterAppend(p.m, Places(d.address, d.length), AllPlaces(rest), p.disk[p.offset..p.offset + d.length],
            p.disk[p.offset + d.length..n]);
          if rest == [] { ScatterNothing(q.m); }
        }
      }
    }
  }

  lemma ScatterNothing(m: Memory)
    ensures Scatter(m, [], []) == (m, 0)
  {}

  /* ---- a whole request ---- */

  datatype Result = Result(m: Memory, disk: seq<byte>, completed: bool, bytes: nat, status: Option<nat>)

  function Rejected(m: Memory, disk: seq<byte>): Result { Result(m, disk, false, 0, None) }

  /** Header first, data between, one status byte last. */
  predicate WellShaped(chain: seq<Descriptor>) {
    |chain| >= 2 && chain[0].length >= 16 && chain[|chain| - 1].length >= 1 && IsWrite(chain[|chain| - 1])
  }

  function Data(chain: seq<Descriptor>): seq<Descriptor>
    requires |chain| >= 2
  {
    chain[1..|chain| - 1]
  }

  /** The request type and the sector, from the header. */
  function Header(m: Memory, chain: seq<Descriptor>): Option<(nat, nat)>
    requires chain != []
  {
    var kind, sector := Load(m, chain[0].address, Word), Load(m, (chain[0].address + 8) % U64, DoubleWord);
    if kind.None? || sector.None? then None else Some((kind.value, sector.value))
  }

  /** The status before any data moves: unknown types first, then sectors whose offset overflows. */
  function FirstStatus(kind: nat, sector: nat): nat {
    if kind > 1 then UNSUPPORTED else if sector > (U64 - 1) / SECTOR then IO_ERROR else OK
  }

  function Body(m: Memory, disk: seq<byte>, chain: seq<Descriptor>, kind: nat, sector: nat): Progress
    requires |chain| >= 2
  {
    Transfer(Progress(m, disk, 0, if sector > (U64 - 1) / SECTOR then 0 else sector * SECTOR,
      FirstStatus(kind, sector)), kind == 1, Data(chain))
  }

  function Finished(p: Progress, at: nat): Result {
    match Store(p.m, at, Byte, p.status)
    case None => Result(p.m, p.disk, false, p.written % 0x1_0000_0000, None)
    case Some(m) => Result(m, p.disk, true, (p.written + 1) % 0x1_0000_0000, Some(p.status))
  }

  /** process_request. Unlike the network device it also takes a chain through every descriptor whose
      last one still has NEXT. */
  function Process(m: Memory, disk: seq<byte>, t: Table, head: nat): Result {
    var (chain, ending) := Chain(m, t, head);
    if ending.Broken? || !WellShaped(chain) || Header(m, chain).None? then Rejected(m, disk)
    else
      var (kind, sector) := Header(m, chain).value;
      Finished(Body(m, disk, chain, kind, sector), chain[|chain| - 1].address)
  }

  /** A chain is taken exactly when it is a whole chain or runs through all the descriptors of the
      queue and still has NEXT: the exact condition under which the loop bound stands in for an end. */
  lemma AcceptedChains(m: Memory, t: Table, head: nat)
    requires t.size > 0
    ensures !Chain(m, t, head).1.Broken?
            <==> exists path, chain :: IsPath(m, t, path, chain) && path[0] == head && (Ends(chain) || |path| == t.size)
  {
    ChainIsExact(m, t, head);
    ExhaustedIsExact(m, t, head);
    if !Chain(m, t, head).1.Broken? {
      CollectSound(m, t, head, {}, 0);
      var path, chain := Visits(m, t, head, {}, 0), Chain(m, t, head).0;
      assert IsPath(m, t, path, chain) && path[0] == head && (Ends(chain) || |path| == t.size);
    }
    forall path, chain | IsPath(m, t, path, chain) && path[0] == head && (Ends(chain) || |path| == t.size)
      ensures !Chain(m, t, head).1.Broken?
    {
      Pigeonhole(path, t.size);
      CollectComplete(m, t, {}, 0, path, chain);
    }
  }

  /** The request that was decoded from guest memory. */
  predicate Requests(m: Memory, t: Table, head: nat, chain: seq<Descriptor>, kind: nat, sector: nat) {
    Chain(m, t, head).0 == chain && !Chain(m, t, head).1.Broken? && WellShaped(chain) &&
      Header(m, chain) == Some((kind, sector))
  }

  function DataPlaces(chain: seq<Descriptor>): seq<nat>
    requires |chain| >= 2
  {
    AllPlaces(Data(chain))
  }

  /** A completed write with status OK leaves the old disk with the concatenated buffers placed at
      sector * 512, and in memory only the status byte changes. */
  lemma WriteRequest(m: Memory, disk: seq<byte>, t: Table, head: nat, chain: seq<Descriptor>, sector: nat)
    requires Requests(m, t, head, chain, 1, sector) && Process(m, disk, t, head).status == Some(OK)
    ensures var r := Process(m, disk, t, head);
            var data := Gather(m, DataPlaces(chain));
            data.Some? && (Data(chain) != [] ==> InBounds(|disk|, sector * SECTOR, |data.value|)) &&
            (InBounds(|disk|, sector * SECTOR, |data.value|) ==> r.disk == Put(disk, sector * SECTOR, data.value)) &&
            (Data(chain) == [] ==> r.disk == disk) && r.bytes == 1 &&
            Store(m, chain[|chain| - 1].address, Byte, OK) == Some(r.m)
  {
    hide Chain; hide Header; hide Gather; hide Put; hide TransferOne; hide Suits; hide Store;
    var p := Progress(m, disk, 0, sector * SECTOR, FirstStatus(1, sector));
    StuckTransfer(Progress(m, disk, 0, 0, FirstStatus(1, sector)), true, Data(chain));
    if p.status == OK {
      WritesWhole(p, Data(chain));
      if Data(chain) == [] {
        EmptyGather(m, 0);
        PutNothing(disk, sector * SECTOR);
      } else {
        SuitsFit(Data(chain), true, |disk|, sector * SECTOR);
      }
    }
  }

  lemma PutNothing(disk: seq<byte>, offset: nat)
    ensures InBounds(|disk|, offset, 0) ==> Put(disk, offset, []) == disk
  {}

  lemma SuitsFit(ds: seq<Descriptor>, write: bool, size: nat, offset: nat)
    requires Suits(ds, write, size, offset) && ds != []
    ensures InBounds(size, offset, |AllPlaces(ds)|)
  {}

  lemma StuckTransfer(p: Progress, write: bool, ds: seq<Descriptor>)
    ensures p.status != OK ==> Transfer(p, write, ds) == p
  {}

  /** A completed read with status OK leaves the disk alone; buffers that do not overlap each other or
      the status byte then hold the slice of the disk at sector * 512. */
  lemma ReadRequest(m: Memory, disk: seq<byte>, t: Table, head: nat, chain: seq<Descriptor>, sector: nat)
    requires Requests(m, t, head, chain, 0, sector) && Process(m, disk, t, head).status == Some(OK)
    ensures var r := Process(m, disk, t, head);
            var at := DataPlaces(chain);
            r.disk == disk && r.bytes == (|at| + 1) % 0x1_0000_0000 &&
            (Distinct(at) && chain[|chain| - 1].address !in at && at != [] ==>
               InBounds(|disk|, sector * SECTOR, |at|) &&
               Gather(r.m, at) == Some(disk[sector * SECTOR..sector * SECTOR + |at|]))
  {
    hide Chain; hide Header; hide Gather; hide Scatter; hide TransferOne; hide Suits; hide Store; hide Distinct;
    hide AllPlaces;
    var ds, status := Data(chain), chain[|chain| - 1].address;
    var p := Progress(m, disk, 0, sector * SECTOR, FirstStatus(0, sector));
    StuckTransfer(Progress(m, disk, 0, 0, FirstStatus(0, sector)), false, ds);
    if p.status == OK {
      ReadsWhole(p, ds);
      var r := Transfer(p, false, ds);
      if ds == [] {
        NoPlaces();
      } else {
        SuitsFit(ds, false, |disk|, sector * SECTOR);
        var at := AllPlaces(ds);
        if Distinct(at) && status !in at {
          GatherScattered(m, at, disk[sector * SECTOR..sector * SECTOR + |at|]);
          StatusElsewhere(r.m, status, at);
        }
      }
    }
  }

  lemma NoPlaces()
    ensures AllPlaces([]) == []
  {}

  lemma {:induction false} StatusElsewhere(m: Memory, a: nat, from: seq<nat>)
    requires a !in from && Store(m, a, Byte, OK).Some?
    ensures Gather(Store(m, a, Byte, OK).value, from) == Gather(m, from)
  {
    ByteAccess(m, a, OK);
    if from != [] {
      StatusElsewhere(m, a, from[1..]);
      assert from[0] in from;
    }
  }

  /** Writing and then reading the same sectors returns the same bytes, for any two ways of cutting
      them into buffers, any chains, and whatever the guest did to its memory in between. */
  lemma WriteThenRead(m: Memory, disk: seq<byte>, t: Table, head: nat, chain: seq<Descriptor>,
                      m': Memory, t': Table, head': nat, chain': seq<Descriptor>, sector: nat)
    requires Requests(m, t, head, chain, 1, sector) && Process(m, disk, t, head).status == Some(OK)
    requires Requests(m', t', head', chain', 0, sector) &&
        Process(m', Process(m, disk, t, head).disk, t', head').status == Some(OK)
    requires |DataPlaces(chain')| == |DataPlaces(chain)| > 0 && Distinct(DataPlaces(chain')) &&
        chain'[|chain'| - 1].address !in DataPlaces(chain')
    ensures Gather(Process(m', Process(m, disk, t, head).disk, t', head').m, DataPlaces(chain')) ==
        Gather(m, DataPlaces(chain))
  {
    hide Process; hide Chain; hide Header; hide Gather; hide Distinct; hide AllPlaces; hide Put;
    WriteRequest(m, disk, t, head, chain, sector);
    ReadRequest(m', Process(m, disk, t, head).disk, t', head', chain', sector);
    NoPlaces();
    PutOutside(disk, sector * SECTOR, Gather(m, DataPlaces(chain)).value);
  }

  /* ---- the queue ---- */

  /** What serving the queue leaves, and how many requests it returned. */
  datatype Served = Served(m: Memory, disk: seq<byte>, ring: Ring, count: nat)

  /** process_queue: requests in ring order, up to the index the driver had published. */
  function Serve(m: Memory, disk: seq<byte>, r: Ring, available: nat, processed: nat): Served
    requires r.table.size > 0 && processed <= r.table.size
    decreases r.table.size - processed
  {
    if r.lastAvailable == available || processed == r.table.size ||
        AvailableHead(m, r).None? then Served(m, disk, r, processed)
    else
      var head := AvailableHead(m, r).value;
      var q := Process(m, disk, r.table, head);
      var (m', published) := Publish(q.m, r, head, q.bytes);
      match published
      case ElementFailed => Served(m', q.disk, r, processed)
      case IndexFailed => Served(m', q.disk, r.(usedIndex := Next16(r.usedIndex)), processed)
      case Returned =>
        Serve(m', q.disk, r.(usedIndex := Next16(r.usedIndex), lastAvailable := Next16(r.lastAvailable)), available,
          processed + 1)
  }

  /** How far the used index runs ahead of the chains taken. */
  function Ahead(r: Ring): nat { (r.usedIndex - r.lastAvailable) % 0x1_0000 }

  lemma Mod16(x: int, k: int)
    ensures (x - k * 0x1_0000) % 0x1_0000 == x % 0x1_0000
    ensures (x + 1) % 0x1_0000 == (x % 0x1_0000 + 1) % 0x1_0000 != x % 0x1_0000
  {}

  lemma NextDiffers(u: nat, l: nat)
    ensures (Next16(u) - Next16(l)) % 0x1_0000 == (u - l) % 0x1_0000
    ensures (Next16(u) - l) % 0x1_0000 == (u + 1 - l) % 0x1_0000
  {
    var a, b := (u + 1) / 0x1_0000, (l + 1) / 0x1_0000;
    assert Next16(u) == u + 1 - a * 0x1_0000 && Next16(l) == l + 1 - b * 0x1_0000;
    Mod16(u - l, a - b);
    Mod16(u + 1 - l, a);
  }

  lemma BothNext(r: Ring)
    ensures Ahead(r.(usedIndex := Next16(r.usedIndex), lastAvailable := Next16(r.lastAvailable))) == Ahead(r)
    ensures Ahead(r.(usedIndex := Next16(r.usedIndex))) == (Ahead(r) + 1) % 0x1_0000 != Ahead(r)
  {
    hide Next16;
    NextDiffers(r.usedIndex, r.lastAvailable);
    Mod16(r.usedIndex - r.lastAvailable, 0);
    assert r.usedIndex + 1 - r.lastAvailable == (r.usedIndex - r.lastAvailable) + 1;
  }

  /** Nothing that a device writes moves memory: what is backed stays backed. */
  predicate SameShape(m: Memory, m': Memory) { m'.base == m.base && |m'.bytes| == |m.bytes| }

  lemma ShapeBacked(m: Memory, m': Memory, a: nat, w: Width)
    requires SameShape(m, m')
    ensures Backed(m', a, w) == Backed(m, a, w)
  {}

  lemma StoreShape(m: Memory, a: nat, w: Width, v: nat)
    ensures Store(m, a, w, v).Some? <==> Backed(m, a, w)
    ensures Store(m, a, w, v).Some? ==> SameShape(m, Store(m, a, w, v).value)
  {}

  lemma {:induction false} ReadChunksShape(m: Memory, disk: seq<byte>, offset: nat, address: nat, length: nat,
      done: nat)
    requires done <= length && InBounds(|disk|, offset, length)
    ensures SameShape(m, ReadChunks(m, disk, offset, address, length, done).0)
  {
    hide Scatter; hide Places;
    ReadChunksIsScatter(m, disk, offset, address, length, done);
  }

  lemma {:induction false} TransferShape(p: Progress, write: bool, ds: seq<Descriptor>)
    ensures SameShape(p.m, Transfer(p, write, ds).m)
    decreases |ds|
  {
    hide WriteChunks; hide ReadChunks;
    if ds != [] && p.status == OK {
      if InBounds(|p.disk|, p.offset,
          ds[0].length) { ReadChunksShape(p.m, p.disk, p.offset, ds[0].address, ds[0].length, 0); }
      TransferShape(TransferOne(p, write, ds[0]), write, ds[1..]);
    }
  }

  lemma ProcessShape(m: Memory, disk: seq<byte>, t: Table, head: nat)
    ensures SameShape(m, Process(m, disk, t, head).m)
  {
    hide Chain; hide Header; hide Store; hide Transfer;
    var (chain, ending) := Chain(m, t, head);
    if !ending.Broken? && WellShaped(chain) && Header(m, chain).Some? {
      var (kind, sector) := Header(m, chain).value;
      var p := Body(m, disk, chain, kind, sector);
      TransferShape(Progress(m, disk, 0, if sector > (U64 - 1) / SECTOR then 0 else sector * SECTOR,
        FirstStatus(kind, sector)), kind == 1, Data(chain));
      StoreShape(p.m, chain[|chain| - 1].address, Byte, p.status);
    }
  }

  /** Where the next used element goes. */
  function UsedElement(r: Ring): nat
    requires r.table.size > 0
  {
    (r.used + 4 + r.usedIndex % r.table.size * 8) % U64
  }

  predicate ElementBacked(m: Memory, r: Ring)
    requires r.table.size > 0
  {
    Backed(m, UsedElement(r), Word) && Backed(m, (UsedElement(r) + 4) % U64, Word)
  }

  predicate IndexBacked(m: Memory, r: Ring) { Backed(m, (r.used + 2) % U64, HalfWord) }

  lemma PublishOutcome(m: Memory, r: Ring, head: nat, bytes: nat)
    requires r.table.size > 0
    ensures var (m', published) := Publish(m, r, head, bytes);
            SameShape(m, m') &&
            published == if !ElementBacked(m, r) then ElementFailed else if !IndexBacked(m, r) then IndexFailed
              else Returned
  {
    hide Store; hide Backed;
    var e := UsedElement(r);
    StoreShape(m, e, Word, head);
    if Backed(m, e, Word) {
      var m1 := Store(m, e, Word, head).value;
      StoreShape(m1, (e + 4) % U64, Word, bytes);
      ShapeBacked(m, m1, (e + 4) % U64, Word);
      if Backed(m1, (e + 4) % U64, Word) {
        var m2 := Store(m1, (e + 4) % U64, Word, bytes).value;
        StoreShape(m2, (r.used + 2) % U64, HalfWord, Next16(r.usedIndex));
        ShapeBacked(m, m2, (r.used + 2) % U64, HalfWord);
      }
    }
  }

  /** Serving the queue will reach a used index that it cannot write: there is a request to serve, its
      used element is backed and the index is not. */
  predicate RunsAhead(m: Memory, r: Ring, available: nat, processed: nat)
    requires r.table.size > 0
  {
    r.lastAvailable != available && processed < r.table.size && AvailableHead(m, r).Some? && ElementBacked(m, r) &&
      !IndexBacked(m, r)
  }

  /** Wherever the rings are, the used index keeps step with the chains taken exactly unless the first
      used index to be written is not backed. */
  lemma {:induction false} ServeKeepsStep(m: Memory, disk: seq<byte>, r: Ring, available: nat, processed: nat)
    requires r.table.size > 0 && processed <= r.table.size
    ensures var s := Serve(m, disk, r, available, processed);
            s.ring.table == r.table && |s.disk| == |disk| &&
            (Ahead(s.ring) == Ahead(r) <==> !RunsAhead(m, r, available, processed)) &&
            (RunsAhead(m, r, available, processed) ==> Ahead(s.ring) == (Ahead(r) + 1) % 0x1_0000)
    decreases r.table.size - processed
  {
    hide Process; hide Publish; hide AvailableHead; hide Ahead; hide Next16; hide ElementBacked; hide IndexBacked;
    hide SameShape;
    if r.lastAvailable != available && processed < r.table.size && AvailableHead(m, r).Some? {
      var head := AvailableHead(m, r).value;
      var q := Process(m, disk, r.table, head);
      var (m', published) := Publish(q.m, r, head, q.bytes);
      BothNext(r);
      DiskSize(m, disk, r.table, head);
      ProcessShape(m, disk, r.table, head);
      PublishOutcome(q.m, r, head, q.bytes);
      SameBacking(m, q.m, r);
      if published == Returned {
        var r' := r.(usedIndex := Next16(r.usedIndex), lastAvailable := Next16(r.lastAvailable));
        SameBacking(q.m, m', r);
        SameIndex(m', r, r');
        ServeKeepsStep(m', q.disk, r', available, processed + 1);
      }
    }
  }

  lemma SameBacking(m: Memory, m': Memory, r: Ring)
    requires r.table.size > 0 && SameShape(m, m')
    ensures ElementBacked(m', r) == ElementBacked(m, r) && IndexBacked(m', r) == IndexBacked(m, r)
  {}

  lemma SameIndex(m: Memory, r: Ring, r': Ring)
    requires r'.used == r.used
    ensures IndexBacked(m, r') == IndexBacked(m, r)
  {}

  lemma DiskSize(m: Memory, disk: seq<byte>, t: Table, head: nat)
    ensures |Process(m, disk, t, head).disk| == |disk|
  {
    hide Chain; hide Header; hide Store; hide TransferOne;
  }
}
