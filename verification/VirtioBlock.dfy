/** The block device in place: its storage, the chunked copy loops and the queue. */
module VirtioBlock {
  import opened Wrappers
  import opened Endian
  import opened Virtqueue
  import opened BlockRequest
  import opened BlockDevice

  /** MemoryBlockStorage. */
  class MemoryStorage {
    const bytes: array<byte>

    constructor (size: nat)
      ensures bytes.Length == size && fresh(bytes)
    {
      bytes := new byte[size](_ => 0);
    }

    method Read(offset: nat, destination: array<byte>, n: nat) returns (ok: bool)
      requires n <= destination.Length && destination != bytes
      modifies destination
      ensures ok == InBounds(bytes.Length, offset, n)
      ensures ok ==> destination[..n] == bytes[offset..offset + n]
      ensures !ok ==> destination[..] == old(destination[..])
    {
      if n > bytes.Length || offset > bytes.Length - n { return false; }
      for i := 0 to n
        invariant destination[..i] == bytes[offset..offset + i]
      {
        destination[i] := bytes[offset + i];
      }
      return true;
    }

    method Write(offset: nat, source: array<byte>, n: nat) returns (ok: bool)
      requires n <= source.Length && source != bytes
      modifies bytes
      ensures ok == InBounds(bytes.Length, offset, n)
      ensures bytes[..] == if ok then Put(old(bytes[..]), offset, source[..n]) else old(bytes[..])
    {
      if n > bytes.Length || offset > bytes.Length - n { return false; }
      for i := 0 to n
        invariant bytes[offset..offset + i] == source[..i]
        invariant bytes[..offset] == old(bytes[..offset]) && bytes[offset + i..] == old(bytes[offset + i..])
      {
        bytes[offset + i] := source[i];
      }
      assert bytes[..] == bytes[..offset] + bytes[offset..offset + n] + bytes[offset + n..];
      return true;
    }
  }

  class Device {
    const storage: MemoryStorage
    const dma: GuestMemory
    const buffer: array<byte>      // the transfer buffer
    var ring: Ring
    var interrupt: bool
    var guestPageSize: nat
    var queueSelect: nat
    var queueNum: nat
    var queueAlign: nat
    var queuePfn: nat
    var notificationPending: bool

    ghost predicate Valid() {
      buffer.Length == CHUNK && buffer != storage.bytes
    }

    ghost function View(): Block
      reads this, storage.bytes
    {
      Block(Registers(guestPageSize, queueSelect, queueNum, queueAlign, queuePfn), ring, notificationPending,
        interrupt, storage.bytes[..])
    }

    constructor (storage: MemoryStorage, dma: GuestMemory)
      ensures Valid() && this.storage == storage && this.dma == dma && fresh(buffer) &&
          View() == Initial(storage.bytes[..])
    {
      this.storage, this.dma, ring, interrupt := storage, dma, NoRing, false;
      guestPageSize, queueSelect, queueNum, queueAlign, queuePfn, notificationPending := 0, 0, 0, 4096, 0, false;
      buffer := new byte[CHUNK](_ => 0);
    }

    method QueueConfigured() returns (r: bool)
      ensures r == Configured(View().regs)
    {
      hide IsPowerOfTwo;
      return queueSelect == 0 && guestPageSize != 0 && queuePfn != 0 && queueNum != 0 && queueNum <= MAX_QUEUE &&
             IsPowerOfTwo(queueNum) && IsPowerOfTwo(queueAlign);
    }

    /** update_queue_addresses. */
    method UpdateQueueAddresses()
      modifies this`ring
      ensures ring == Located(View().regs, old(ring))
    {
      hide IsPowerOfTwo; hide AlignUp;
      var configured := QueueConfigured();
      if !configured {
        ring := ring.(table := Table(0, queueNum), available := 0, used := 0);
        return;
      }
      var table := queuePfn * guestPageSize % U64;
      var available := (table + queueNum * 16) % U64;
      var availableSize := 4 + queueNum * 2;
      NonZeroAlign(View().regs);
      ring := ring.(table := Table(table, queueNum), available := available,
        used := AlignUp((available + availableSize) % U64, queueAlign));
    }

    method ResetDevice()
      modifies this
      ensures View() == Initial(storage.bytes[..])
    {
      guestPageSize, queueSelect, queueNum, queueAlign, queuePfn := 0, 0, 0, 4096, 0;
      interrupt, notificationPending := false, false;
      ring := NoRing;
    }

    /** write. */
    method WriteRegister(offset: nat, width: Width, value: nat)
      modifies this
      ensures View() == Write(old(View()), offset, width, value)
    {
      hide Configured; hide Located;
      if offset >= 0x100 || width != Word || offset % 4 != 0 { return; }
      var word := value % 0x1_0000_0000;
      match offset {
        case 0x28 => guestPageSize := word; UpdateQueueAddresses();
        case 0x30 => queueSelect := word; UpdateQueueAddresses();
        case 0x38 => queueNum := word % 0x1_0000; UpdateQueueAddresses();
        case 0x3C => queueAlign := word; UpdateQueueAddresses();
        case 0x40 => queuePfn := word; UpdateQueueAddresses();
        case 0x50 =>
          var configured := QueueConfigured();
          if word == 0 && configured { notificationPending := true; }
        case 0x64 => if word % 2 == 1 { interrupt := false; }
        case 0x70 =>
          if word == 0 {
            var pageSize := guestPageSize;
            ResetDevice();
            guestPageSize := pageSize;
          }
        case _ =>
      }
    }

    /** The inner loop of a write: guest bytes into the transfer buffer. */
    method FillBuffer(address: nat, n: nat) returns (ok: bool)
      requires Valid() && n <= CHUNK
      modifies buffer
      ensures ok == Gather(dma.m, Places(address, n)).Some?
      ensures ok ==> Gather(dma.m, Places(address, n)) == Some(buffer[..n])
    {
      hide Gather; hide Load;
      ghost var at := Places(address, n);
      GatherNone(dma.m, at);
      for i := 0 to n
        invariant Gather(dma.m, at[..i]) == Some(buffer[..i])
      {
        GatherNext(dma.m, at, i, buffer[..i]);
        var b := dma.DmaRead((address + i) % U64, Byte);
        if b.None? { return false; }
        buffer[i] := b.value;
        assert buffer[..i + 1] == buffer[..i] + [b.value];
      }
      assert at[..n] == at;
      return true;
    }

    lemma GatherNone(m: Memory, at: seq<nat>)
      ensures Gather(m, at[..0]) == Some([])
    {}

    /** The inner loop of a read: the transfer buffer into guest memory, until a byte faults. */
    method DrainBuffer(address: nat, n: nat) returns (k: nat)
      requires Valid() && n <= CHUNK
      modifies dma
      ensures (dma.m, k) == Scatter(old(dma.m), Places(address, n), buffer[..n])
    {
      hide Scatter; hide Store;
      ghost var at, data := Places(address, n), buffer[..n];
      assert at[0..] == at && data[0..] == data;
      for i := 0 to n
        invariant Scatter(old(dma.m), at, data) == After(i, Scatter(dma.m, at[i..], data[i..]))
      {
        ScatterNext(dma.m, at, data, i);
        var ok := dma.DmaWrite((address + i) % U64, Byte, buffer[i]);
        if !ok { return i; }
      }
      ScatterDone(dma.m, at[n..], data[n..]);
      return n;
    }

    function After(i: nat, r: (Memory, nat)): (Memory, nat) { (r.0, r.1 + i) }

    lemma ScatterDone(m: Memory, at: seq<nat>, data: seq<byte>)
      requires at == [] && data == []
      ensures Scatter(m, at, data) == (m, 0)
    {}

    /** The chunk loop of one buffer of a write request. */
    method WriteBuffer(offset: nat, address: nat, length: nat) returns (ok: bool)
      requires Valid() && InBounds(storage.bytes.Length, offset, length)
      modifies buffer, storage.bytes
      ensures (storage.bytes[..], ok) == WriteChunks(dma.m, old(storage.bytes[..]), offset, address, length, 0)
    {
      hide Gather; hide Places; hide Put;
      var transferred: nat := 0;
      while transferred < length
        invariant transferred <= length
        invariant WriteChunks(dma.m, old(storage.bytes[..]), offset, address, length, 0)
                  == WriteChunks(dma.m, storage.bytes[..], offset, address, length, transferred)
      {
        var n := Min(length - transferred, CHUNK);
        var filled := FillBuffer(address + transferred, n);
        if !filled { return false; }
        var written := storage.Write(offset + transferred, buffer, n);
        transferred := transferred + n;
      }
      return true;
    }

    /** The chunk loop of one buffer of a read request. */
    method ReadBuffer(offset: nat, address: nat, length: nat) returns (k: nat, ok: bool)
      requires Valid() && InBounds(storage.bytes.Length, offset, length)
      modifies buffer, dma
      ensures (dma.m, k, ok) == ReadChunks(old(dma.m), storage.bytes[..], offset, address, length, 0)
    {
      hide Scatter; hide Places; hide ReadChunks;
      var transferred: nat := 0;
      k := 0;
      ghost var disk := storage.bytes[..];
      while transferred < length
        invariant transferred <= length && storage.bytes[..] == disk
        invariant ReadChunks(old(dma.m), disk, offset, address, length, 0)
                  == More(k, ReadChunks(dma.m, disk, offset, address, length, transferred))
      {
        var n := Min(length - transferred, CHUNK);
        ReadStep(dma.m, disk, offset, address, length, transferred, k);
        var loaded := storage.Read(offset + transferred, buffer, n);
        assert buffer[..n] == disk[offset + transferred..offset + transferred + n];
        var drained := DrainBuffer(address + transferred, n);
        k := k + drained;
        if drained < n { return k, false; }
        transferred := transferred + n;
      }
      ReadNothing(dma.m, disk, offset, address, length);
      return k, true;
    }

    lemma ReadNothing(m: Memory, disk: seq<byte>, offset: nat, address: nat, length: nat)
      requires InBounds(|disk|, offset, length)
      ensures ReadChunks(m, disk, offset, address, length, length) == (m, 0, true)
    {}

    lemma ReadStep(m: Memory, disk: seq<byte>, offset: nat, address: nat, length: nat, done: nat, k: nat)
      requires done < length && InBounds(|disk|, offset, length)
      ensures var n := Min(length - done, CHUNK);
              var (m1, j) := Scatter(m, Places(address + done, n), disk[offset + done..offset + done + n]);
              More(k, ReadChunks(m, disk, offset, address, length, done))
              == if j < n then (m1, k + j, false)
                else More(k + j, ReadChunks(m1, disk, offset, address, length, done + n))
    {
      hide Scatter; hide Places;
    }

    function More(k: nat, r: (Memory, nat, bool)): (Memory, nat, bool) { (r.0, r.1 + k, r.2) }

    /** The body of the loop over data descriptors: the status, the bytes written to the guest. */
    method TransferBuffer(d: Descriptor, write: bool, diskOffset: nat) returns (completion: nat, k: nat)
      requires Valid()
      modifies buffer, storage.bytes, dma
      ensures var p := TransferOne(Progress(old(dma.m), old(storage.bytes[..]), 0, diskOffset, OK), write, d);
              dma.m == p.m && storage.bytes[..] == p.disk && completion == p.status && k == p.written &&
              (completion == OK ==> p.offset == diskOffset + d.length)
    {
      hide WriteChunks; hide ReadChunks;
      var size := storage.bytes.Length;
      k := 0;
      if d.length > size || diskOffset > size - d.length { return IO_ERROR, 0; }
      if IsWrite(d) == write { return IO_ERROR, 0; }
      var ok;
      if write {
        ok := WriteBuffer(diskOffset, d.address, d.length);
      } else {
        k, ok := ReadBuffer(diskOffset, d.address, d.length);
      }
      return if ok then OK else IO_ERROR, k;
    }

    lemma TransferShifts(p: Progress, write: bool, d: Descriptor, k: nat)
      ensures TransferOne(p.(written := p.written + k), write, d)
              == (var q := TransferOne(p, write, d); q.(written := q.written + k))
    {
      hide WriteChunks; hide ReadChunks;
    }

    /** process_request. */
    method ProcessRequest(t: Table, head: nat) returns (completed: bool, bytesWritten: nat, ghost status: Option<nat>)
      requires Valid()
      modifies buffer, storage.bytes, dma
      ensures Result(dma.m, storage.bytes[..], completed, bytesWritten, status) ==
          Process(old(dma.m), old(storage.bytes[..]), t, head)
    {
      hide Chain; hide Load; hide Store; hide Body;
      ghost var m0, disk0 := dma.m, storage.bytes[..];
      bytesWritten, status := 0, None;
      var chain, ending := dma.LoadChain(t, head);
      if ending.Broken? || |chain| < 2 { return false, 0, None; }
      var header, statusDescriptor := chain[0], chain[|chain| - 1];
      if header.length < 16 || statusDescriptor.length < 1 || !IsWrite(statusDescriptor) { return false, 0, None; }
      var kind := dma.DmaRead(header.address, Word);
      var sector := dma.DmaRead((header.address + 8) % U64, DoubleWord);
      if kind.None? || sector.None? { return false, 0, None; }
      var completion;
      completion, bytesWritten := MoveData(chain, kind.value, sector.value);
      completed := dma.DmaWrite(statusDescriptor.address, Byte, completion);
      if completed { status, bytesWritten := Some(completion), bytesWritten + 1; }
      bytesWritten := bytesWritten % 0x1_0000_0000;
    }

    /** The loop over the data descriptors. */
    method MoveData(chain: seq<Descriptor>, kind: nat, sector: nat) returns (completion: nat, bytesWritten: nat)
      requires Valid() && |chain| >= 2
      modifies buffer, storage.bytes, dma
      ensures var p := Body(old(dma.m), old(storage.bytes[..]), chain, kind, sector);
              dma.m == p.m && storage.bytes[..] == p.disk && completion == p.status && bytesWritten == p.written
    {
      hide TransferOne;
      ghost var body := Body(dma.m, storage.bytes[..], chain, kind, sector);
      completion, bytesWritten := OK, 0;
      var diskOffset: nat := 0;
      if sector > (U64 - 1) / SECTOR { completion := IO_ERROR; } else { diskOffset := sector * SECTOR; }
      if kind != 0 && kind != 1 { completion := UNSUPPORTED; }
      ghost var offset := diskOffset;
      var index: nat := 1;
      var write := kind == 1;
      assert chain[1..|chain| - 1] == Data(chain);
      while index + 1 < |chain| && completion == OK
        invariant 1 <= index < |chain|
        invariant completion == OK ==> offset == diskOffset
        invariant body == Transfer(Progress(dma.m, storage.bytes[..], bytesWritten, offset, completion), write,
            chain[index..|chain| - 1])
      {
        var d := chain[index];
        ghost var rest := chain[index..|chain| - 1];
        assert rest[0] == d && rest[1..] == chain[index + 1..|chain| - 1];
        ghost var p := Progress(dma.m, storage.bytes[..], 0, diskOffset, OK);
        TransferShifts(p, write, d, bytesWritten);
        var k;
        completion, k := TransferBuffer(d, write, diskOffset);
        offset := TransferOne(p, write, d).offset;
        bytesWritten := bytesWritten + k;
        diskOffset := diskOffset + d.length;
        index := index + 1;
      }
    }

    /** Return one chain through the used ring. */
    method CompleteChain(head: nat, bytesWritten: nat) returns (ok: bool, ghost published: Published)
      requires ring.table.size > 0
      modifies this`ring, dma, this`interrupt
      ensures ok == (published == Returned)
      ensures (dma.m, published) == Publish(old(dma.m), old(ring), head, bytesWritten)
      ensures var r := old(ring);
              ring == match published
                case ElementFailed => r
                case IndexFailed => r.(usedIndex := Next16(r.usedIndex))
                case Returned => r.(usedIndex := Next16(r.usedIndex), lastAvailable := Next16(r.lastAvailable))
      ensures interrupt == (old(interrupt) || published == Returned)
    {
      hide Store; hide Next16;
      var element := (ring.used + 4 + ring.usedIndex % ring.table.size * 8) % U64;
      ok := dma.DmaWrite(element, Word, head);
      if !ok { return false, ElementFailed; }
      ok := dma.DmaWrite((element + 4) % U64, Word, bytesWritten);
      if !ok { return false, ElementFailed; }
      var next := Next16(ring.usedIndex);
      ok := dma.DmaWrite((ring.used + 2) % U64, HalfWord, next);
      ring := ring.(usedIndex := next);
      if !ok { return false, IndexFailed; }
      ring := ring.(lastAvailable := Next16(ring.lastAvailable));
      interrupt := true;
      return true, Returned;
    }

    /** process_queue. None is an available index that cannot be read. */
    method ProcessQueue() returns (ghost served: Option<Served>)
      requires Valid() && ring.table.size > 0
      modifies this`ring, this`interrupt, buffer, storage.bytes, dma
      ensures served.Some? <==> AvailableIndex(old(dma.m), old(ring)).Some?
      ensures served.None? ==> ring == old(ring) && dma.m == old(dma.m) && storage.bytes[..] == old(storage.bytes[..])
      ensures served.Some? ==>
        served.value == Serve(old(dma.m), old(storage.bytes[..]), old(ring),
          AvailableIndex(old(dma.m), old(ring)).value, 0) &&
        served.value == Served(dma.m, storage.bytes[..], ring, served.value.count)
      ensures interrupt == (old(interrupt) || (served.Some? && served.value.count > 0))
    {
      hide Process; hide Load; hide Publish; hide Next16;
      var available := dma.DmaRead((ring.available + 2) % U64, HalfWord);
      if available.None? { return None; }
      var processed: nat := 0;
      ghost var all := Serve(dma.m, storage.bytes[..], ring, available.value, 0);
      while ring.lastAvailable != available.value && processed < ring.table.size
        invariant processed <= ring.table.size && ring.table == old(ring.table)
        invariant all == Serve(dma.m, storage.bytes[..], ring, available.value, processed)
        invariant interrupt == (old(interrupt) || processed > 0)
        decreases ring.table.size - processed
      {
        var head := dma.DmaRead((ring.available + 4 + ring.lastAvailable % ring.table.size * 2) % U64, HalfWord);
        if head.None? { return Some(Served(dma.m, storage.bytes[..], ring, processed)); }
        var completed, bytesWritten, ok;
        ghost var status, published;
        completed, bytesWritten, status := ProcessRequest(ring.table, head.value);
        ok, published := CompleteChain(head.value, bytesWritten);
        if !ok { return Some(Served(dma.m, storage.bytes[..], ring, processed)); }
        processed := processed + 1;
      }
      return Some(Served(dma.m, storage.bytes[..], ring, processed));
    }

    /** tick. */
    method DoTick()
      requires Valid()
      modifies this`ring, this`interrupt, this`notificationPending, buffer, storage.bytes, dma
      ensures (View(), dma.m) == Tick(old(View()), old(dma.m))
    {
      hide Configured; hide Serve; hide AvailableIndex;
      if !notificationPending { return; }
      notificationPending := false;
      var configured := QueueConfigured();
      if configured && ring.table.size > 0 { ghost var served := ProcessQueue(); }
    }
  }
}
