/** What the driver finds in the used ring: for each chain that was returned its head and its byte count, in the
    order of the available ring. One law of rings, for the queues of both devices. */
module UsedRing {
  import opened Wrappers
  import opened Endian
  import opened Virtqueue
  import opened BlockRequest
  import Bits

  /* ---- stores and loads of guest memory ---- */

  predicate Apart(a: nat, n: nat, b: nat, k: nat) { a + n <= b || b + k <= a }

  /** A store is read back truncated to its width, and is not seen elsewhere. */
  lemma StoreLoads(m: Memory, a: nat, w: Width, v: nat, b: nat, w': Width)
    requires Store(m, a, w, v).Some?
    ensures var m' := Store(m, a, w, v).value;
            Load(m', a, w) == Some(v % Pow256(Count(w))) &&
            (Apart(a, Count(w), b, Count(w')) ==> Load(m', b, w') == Load(m, b, w'))
  {
    hide Loaded; hide Stored; hide Pow256;
    Endian.LoadStored(m.bytes, a - m.base, w, v);
    if Apart(a, Count(w), b, Count(w')) && Backed(m, b, w') {
      Endian.LoadElsewhere(m.bytes, a - m.base, w, v, b - m.base, w');
    }
  }

  lemma StoreBytes(m: Memory, a: nat, w: Width, v: nat, b: nat)
    requires Store(m, a, w, v).Some? && Holds(m, b) && !(a <= b < a + Count(w))
    ensures var m' := Store(m, a, w, v).value; SameShape(m, m') && Holds(m', b) && ByteAt(m', b) == ByteAt(m, b)
  {}

  lemma Widths()
    ensures Pow256(2) == 0x1_0000 && Pow256(4) == 0x1_0000_0000
  {
    assert Pow256(1) == 256 && Pow256(3) == 256 * Pow256(2);
  }

  /* ---- one chain returned ---- */

  /** The used element of the chain that is returned j chains from now, and where its head was found. */
  function UsedSlot(r: Ring, j: nat): nat
    requires r.table.size > 0
  {
    r.used + 4 + (r.usedIndex + j) % r.table.size * 8
  }

  function HeadSlot(r: Ring, j: nat): nat
    requires r.table.size > 0
  {
    r.available + 4 + (r.lastAvailable + j) % r.table.size * 2
  }

  /** The end of the used ring. */
  function RingsEnd(r: Ring): nat { r.used + 4 + r.table.size * 8 }

  lemma SlotFits(r: Ring, j: nat)
    requires r.table.size > 0
    ensures r.used + 4 <= UsedSlot(r, j) && UsedSlot(r, j) + 8 <= RingsEnd(r)
    ensures r.available + 4 <= HeadSlot(r, j) && HeadSlot(r, j) + 2 <= r.available + 4 + r.table.size * 2
  {
    var n, i, k := r.table.size, (r.usedIndex + j) % r.table.size, (r.lastAvailable + j) % r.table.size;
    assert i + 1 <= n && k + 1 <= n;
    assert (i + 1) * 8 <= n * 8 && (k + 1) * 2 <= n * 2;
  }

  /** The used element at this place is written, and the used index after it. */
  predicate ElementIs(m: Memory, slot: nat, head: nat, bytes: nat) {
    Load(m, slot, Word) == Some(head % 0x1_0000_0000) && Load(m, slot + 4, Word) == Some(bytes % 0x1_0000_0000)
  }

  ghost predicate SameBut(m: Memory, m': Memory, slot: nat, index: nat) {
    SameShape(m, m') &&
    forall a: nat :: Holds(m, a) && !(slot <= a < slot + 8) && !(index <= a < index + 2) ==>
      Holds(m', a) && ByteAt(m', a) == ByteAt(m, a)
  }

  /** Returning a chain writes its head, then its byte count, into the next used element, then the next used index,
      and no other byte. */
  lemma PublishEffect(m: Memory, r: Ring, head: nat, bytes: nat)
    requires r.table.size > 0 && RingsEnd(r) <= U64 && Publish(m, r, head, bytes).1 == Returned
    ensures var m' := Publish(m, r, head, bytes).0;
            ElementIs(m', UsedSlot(r, 0), head, bytes) &&
            Load(m', r.used + 2, HalfWord) == Some((r.usedIndex + 1) % 0x1_0000) &&
            SameBut(m, m', UsedSlot(r, 0), r.used + 2)
  {
    hide Store; hide Load; hide UsedSlot; hide Publish; hide SameBut; hide ElementIs; hide RingsEnd;
    SlotFits(r, 0);
    PublishStores(m, r, head, bytes);
    ThreeStores(m, UsedSlot(r, 0), r.used + 2, head, bytes, r.usedIndex);
  }

  /** The addresses of a ring that does not wrap. */
  lemma Addresses(r: Ring)
    requires r.table.size > 0 && RingsEnd(r) <= U64
    ensures UsedElement(r) == UsedSlot(r, 0) && (UsedSlot(r, 0) + 4) % U64 == UsedSlot(r, 0) + 4 &&
        (r.used + 2) % U64 == r.used + 2
  {
    hide UsedSlot;
    SlotFits(r, 0);
    SlotIs(r);
    Small(UsedSlot(r, 0));
    Small(UsedSlot(r, 0) + 4);
    Small(r.used + 2);
  }

  lemma Small(v: nat)
    requires v < U64
    ensures v % U64 == v
  {}

  lemma PublishStores(m: Memory, r: Ring, head: nat, bytes: nat)
    requires r.table.size > 0 && RingsEnd(r) <= U64 && Publish(m, r, head, bytes).1 == Returned
    ensures Store(m, UsedSlot(r, 0), Word, head).Some? &&
            var m1 := Store(m, UsedSlot(r, 0), Word, head).value;
            Store(m1, UsedSlot(r, 0) + 4, Word, bytes).Some? &&
            var m2 := Store(m1, UsedSlot(r, 0) + 4, Word, bytes).value;
            Store(m2, r.used + 2, HalfWord, Next16(r.usedIndex)) == Some(Publish(m, r, head, bytes).0)
  {
    hide Store; hide UsedSlot; hide RingsEnd;
    Addresses(r);
  }

  lemma SlotIs(r: Ring)
    requires r.table.size > 0
    ensures UsedSlot(r, 0) == r.used + 4 + r.usedIndex % r.table.size * 8
  {}

  lemma ThreeStores(m: Memory, slot: nat, index: nat, head: nat, bytes: nat, i: nat)
    requires index + 2 <= slot && Store(m, slot, Word, head).Some?
    requires var m1 := Store(m, slot, Word, head).value;
             Store(m1, slot + 4, Word, bytes).Some? &&
             var m2 := Store(m1, slot + 4, Word, bytes).value;
             Store(m2, index, HalfWord, Next16(i)).Some?
    ensures var m1 := Store(m, slot, Word, head).value;
            var m2 := Store(m1, slot + 4, Word, bytes).value;
            var m' := Store(m2, index, HalfWord, Next16(i)).value;
            ElementIs(m', slot, head, bytes) && Load(m', index, HalfWord) == Some((i + 1) % 0x1_0000) &&
            SameBut(m, m', slot, index)
  {
    hide Store; hide Load; hide Pow256; hide Holds; hide ByteAt; hide SameShape;
    Widths();
    var m1 := Store(m, slot, Word, head).value;
    var m2 := Store(m1, slot + 4, Word, bytes).value;
    var m3 := Store(m2, index, HalfWord, Next16(i)).value;
    StoreLoads(m, slot, Word, head, slot, Word);
    StoreLoads(m1, slot + 4, Word, bytes, slot, Word);
    StoreLoads(m2, index, HalfWord, Next16(i), slot, Word);
    StoreLoads(m2, index, HalfWord, Next16(i), slot + 4, Word);
    StoreShape(m, slot, Word, head);
    StoreShape(m1, slot + 4, Word, bytes);
    StoreShape(m2, index, HalfWord, Next16(i));
    ShapesChain(m, m1, m2);
    ShapesChain(m, m2, m3);
    forall a: nat | Holds(m, a) && !(slot <= a < slot + 8) && !(index <= a < index + 2)
      ensures Holds(m3, a) && ByteAt(m3, a) == ByteAt(m, a) {
      StoreBytes(m, slot, Word, head, a);
      StoreBytes(m1, slot + 4, Word, bytes, a);
      StoreBytes(m2, index, HalfWord, Next16(i), a);
    }
  }

  lemma ShapesChain(m: Memory, m1: Memory, m2: Memory)
    requires SameShape(m, m1) && SameShape(m1, m2)
    ensures SameShape(m, m2)
  {}

  /* ---- rings that lie in RAM ---- */

  /** Both rings are backed and apart, and the queue size divides the range of their 16-bit positions, as a
      power of two does. */
  predicate InRam(m: Memory, r: Ring) {
    0 < r.table.size && 0x1_0000 % r.table.size == 0 && r.available + 4 + r.table.size * 2 <= r.used &&
    RingsEnd(r) <= U64 && m.base <= r.available && RingsEnd(r) <= m.base + |m.bytes|
  }

  /** The memories agree on the rings, and on what is backed. */
  ghost predicate SameRings(m: Memory, m': Memory, r: Ring) {
    SameShape(m, m') &&
    forall a: nat :: Holds(m, a) && r.available <= a < RingsEnd(r) ==> Holds(m', a) && ByteAt(m', a) == ByteAt(m, a)
  }

  /** Memories that agree on the bytes of an access load the same. */
  lemma AgreeLoad(m: Memory, m': Memory, a: nat, w: Width)
    requires SameShape(m, m')
    requires forall b: nat :: Holds(m, b) && a <= b < a + Count(w) ==> Holds(m', b) && ByteAt(m', b) == ByteAt(m, b)
    ensures Load(m', a, w) == Load(m, a, w)
  {
    hide Endian.Value;
    if Backed(m, a, w) {
      var i := a - m.base;
      forall k | i <= k < i + Count(w) ensures m'.bytes[k] == m.bytes[k] {
        assert Holds(m, m.base + k) && ByteAt(m', m.base + k) == ByteAt(m, m.base + k);
      }
      assert m'.bytes[i..i + Count(w)] == m.bytes[i..i + Count(w)];
    }
  }

  lemma SameLoad(m: Memory, m': Memory, r: Ring, a: nat, w: Width)
    requires SameRings(m, m', r) && r.available <= a && a + Count(w) <= RingsEnd(r)
    ensures Load(m', a, w) == Load(m, a, w)
  {
    hide Load;
    AgreeLoad(m, m', a, w);
  }

  lemma SameButLoad(m: Memory, m': Memory, slot: nat, index: nat, a: nat, w: Width)
    requires SameBut(m, m', slot, index) && Apart(slot, 8, a, Count(w)) && Apart(index, 2, a, Count(w))
    ensures Load(m', a, w) == Load(m, a, w)
  {
    hide Load;
    AgreeLoad(m, m', a, w);
  }

  lemma InRamReturns(m: Memory, r: Ring, head: nat, bytes: nat)
    requires InRam(m, r)
    ensures Publish(m, r, head, bytes).1 == Returned
    ensures AvailableHead(m, r) == Load(m, HeadSlot(r, 0), HalfWord) && AvailableHead(m, r).Some?
  {
    hide Loaded; hide Publish; hide UsedSlot; hide HeadSlot; hide UsedElement;
    SlotFits(r, 0);
    Addresses(r);
    HeadIs(r);
    PublishOutcome(m, r, head, bytes);
  }

  lemma HeadIs(r: Ring)
    requires r.table.size > 0 && r.available + 4 + r.table.size * 2 <= U64
    ensures (r.available + 4 + r.lastAvailable % r.table.size * 2) % U64 == HeadSlot(r, 0)
  {
    hide HeadSlot;
    SlotFits(r, 0);
    assert HeadSlot(r, 0) == r.available + 4 + r.lastAvailable % r.table.size * 2 by { HeadSlotIs(r); }
    Small(HeadSlot(r, 0));
  }

  lemma HeadSlotIs(r: Ring)
    requires r.table.size > 0
    ensures HeadSlot(r, 0) == r.available + 4 + r.lastAvailable % r.table.size * 2
  {}

  /* ---- turns of a queue loop ---- */

  /** One turn: the chain's head, the byte count, and memory at its start, before its return and after it. */
  datatype Turn = Turn(head: nat, bytes: nat, before: Memory, filled: Memory, after: Memory)

  function Advanced(r: Ring): Ring { r.(usedIndex := Next16(r.usedIndex), lastAvailable := Next16(r.lastAvailable)) }

  /** A queue loop from m: each turn takes the head at the next available position, leaves the rings alone while it
      works on its chain, and returns it. */
  ghost predicate Turns(m: Memory, r: Ring, turns: seq<Turn>)
    requires r.table.size > 0
    decreases |turns|
  {
    turns != [] ==>
      var t := turns[0];
      t.before == m && AvailableHead(m, r) == Some(t.head) && SameRings(m, t.filled, r) &&
      Publish(t.filled, r, t.head, t.bytes) == (t.after, Returned) && Turns(t.after, Advanced(r), turns[1..])
  }

  function Ended(m: Memory, turns: seq<Turn>): Memory { if turns == [] then m else turns[|turns| - 1].after }

  lemma NextSlot(r: Ring, j: nat)
    requires r.table.size > 0 && 0x1_0000 % r.table.size == 0
    ensures UsedSlot(Advanced(r), j) == UsedSlot(r, j + 1) && HeadSlot(Advanced(r), j) == HeadSlot(r, j + 1)
  {
    Wraps(r.usedIndex, j, r.table.size);
    Wraps(r.lastAvailable, j, r.table.size);
  }

  /** A position that wraps at 2^16 keeps its place in a ring whose size divides that. */
  lemma Wraps(i: nat, j: nat, n: nat)
    requires n > 0 && 0x1_0000 % n == 0
    ensures (Next16(i) + j) % n == (i + (j + 1)) % n
  {
    var q, k := (i + 1) / 0x1_0000, 0x1_0000 / n;
    var x := Next16(i) + j;
    assert 0x1_0000 == n * k;
    assert i + (j + 1) == x + 0x1_0000 * q;
    assert 0x1_0000 * q == n * (k * q) by { assert n * k * q == n * (k * q); }
    var c := x / n;
    assert i + (j + 1) == n * (c + k * q) + x % n by { assert n * (c + k * q) == n * c + n * (k * q); }
    Bits.ModIs(i + (j + 1), n, c + k * q, x % n);
  }

  /** Within one round of the ring the slots are different. */
  lemma SlotsDiffer(i: nat, j: nat, n: nat)
    requires 0 < j < n
    ensures i % n != (i + j) % n
  {
    var a, k := i / n, i % n;
    assert i + j == n * a + (k + j);
    if k + j < n { Bits.ModIs(i + j, n, a, k + j); }
    else { Bits.ModIs(i + j, n, a + 1, k + j - n); }
  }

  /* ---- the used ring after a loop ---- */

  /** What the loop leaves of the rings: the heads it took, in the order of the available ring, with their byte
      counts in the used ring, the used index moved by as many, and every other used element as it was. */
  ghost predicate Filled(m: Memory, r: Ring, turns: seq<Turn>, m': Memory)
    requires r.table.size > 0
  {
    (forall j: nat :: j < |turns| ==> ElementIs(m', UsedSlot(r, j), turns[j].head, turns[j].bytes)) &&
    (forall j: nat :: j < |turns| ==>
       turns[j].head < 0x1_0000 && Load(m, HeadSlot(r, j), HalfWord) == Some(turns[j].head)) &&
    (turns != [] ==> Load(m', r.used + 2, HalfWord) == Some((r.usedIndex + |turns|) % 0x1_0000)) &&
    (forall j: nat :: |turns| <= j < r.table.size ==> SameElement(m, m', UsedSlot(r, j)))
  }

  predicate SameElement(m: Memory, m': Memory, slot: nat) {
    Load(m', slot, Word) == Load(m, slot, Word) && Load(m', slot + 4, Word) == Load(m, slot + 4, Word)
  }

  lemma InRamStays(m: Memory, m': Memory, r: Ring)
    requires InRam(m, r) && SameShape(m, m')
    ensures InRam(m', Advanced(r)) && InRam(m', r)
  {}

  /** The slots of a ring do not meet, nor the heads' and the used index. */
  lemma SlotsApart(r: Ring, i: nat, j: nat)
    requires r.table.size > 0 && r.available + 4 + r.table.size * 2 <= r.used && i < j < i + r.table.size
    ensures Apart(UsedSlot(r, i), 8, UsedSlot(r, j), 8)
  {
    SlotsDiffer(r.usedIndex + i, j - i, r.table.size);
    assert r.usedIndex + i + (j - i) == r.usedIndex + j;
  }

  /** One turn, seen at another used element or at a head. */
  lemma TurnKeeps(m: Memory, r: Ring, t: Turn, j: nat)
    requires InRam(m, r) && SameRings(m, t.filled, r) && Publish(t.filled, r, t.head, t.bytes) == (t.after, Returned)
    ensures SameShape(m, t.after) && Load(t.after, HeadSlot(r, j), HalfWord) == Load(m, HeadSlot(r, j), HalfWord)
    ensures 0 < j < r.table.size ==> SameElement(m, t.after, UsedSlot(r, j))
    ensures ElementIs(t.after, UsedSlot(r, 0), t.head, t.bytes) &&
        Load(t.after, r.used + 2, HalfWord) == Some((r.usedIndex + 1) % 0x1_0000)
  {
    hide Load; hide Publish; hide UsedSlot; hide HeadSlot; hide SameRings; hide SameBut;
    RingsShape(m, t.filled, r);
    PublishEffect(t.filled, r, t.head, t.bytes);
    ButShape(t.filled, t.after, UsedSlot(r, 0), r.used + 2);
    SlotFits(r, j);
    SlotFits(r, 0);
    var slot := UsedSlot(r, j);
    SameLoad(m, t.filled, r, HeadSlot(r, j), HalfWord);
    SameButLoad(t.filled, t.after, UsedSlot(r, 0), r.used + 2, HeadSlot(r, j), HalfWord);
    if 0 < j < r.table.size {
      SlotsApart(r, 0, j);
      SameLoad(m, t.filled, r, slot, Word);
      SameLoad(m, t.filled, r, slot + 4, Word);
      SameButLoad(t.filled, t.after, UsedSlot(r, 0), r.used + 2, slot, Word);
      SameButLoad(t.filled, t.after, UsedSlot(r, 0), r.used + 2, slot + 4, Word);
    }
  }

  lemma RingsShape(m: Memory, m': Memory, r: Ring)
    requires SameRings(m, m', r)
    ensures SameShape(m, m')
  {}

  lemma ButShape(m: Memory, m': Memory, slot: nat, index: nat)
    requires SameBut(m, m', slot, index)
    ensures SameShape(m, m')
  {}

  /** Over a whole loop, of at most one round. */
  lemma {:induction false} TurnsFill(m: Memory, r: Ring, turns: seq<Turn>)
    requires InRam(m, r) && |turns| <= r.table.size && Turns(m, r, turns)
    ensures Filled(m, r, turns, Ended(m, turns)) && SameShape(m, Ended(m, turns))
    decreases |turns|
  {
    hide Load; hide Publish; hide UsedSlot; hide HeadSlot; hide SameRings; hide AvailableHead; hide ElementIs;
    hide SameElement; hide Next16; hide InRam; hide SameShape;
    InRamSize(m, r);
    if turns == [] {
      NothingTurned(m, r);
    } else {
      var t, rest, n := turns[0], turns[1..], r.table.size;
      TurnKeeps(m, r, t, 0);
      InRamStays(m, t.after, r);
      TurnsFill(t.after, Advanced(r), rest);
      assert Ended(t.after, rest) == Ended(m, turns);
      FilledNext(m, r, turns);
    }
  }

  lemma InRamSize(m: Memory, r: Ring)
    requires InRam(m, r)
    ensures r.table.size > 0 && 0x1_0000 % r.table.size == 0
  {}

  lemma NothingTurned(m: Memory, r: Ring)
    requires r.table.size > 0
    ensures Filled(m, r, [], m) && SameShape(m, m)
  {}

  lemma FilledNext(m: Memory, r: Ring, turns: seq<Turn>)
    requires InRam(m, r) && turns != [] && |turns| <= r.table.size && Turns(m, r, turns)
    requires var t, m' := turns[0], Ended(m, turns);
             Filled(t.after, Advanced(r), turns[1..], m') && SameShape(t.after, m')
    ensures Filled(m, r, turns, Ended(m, turns)) && SameShape(m, Ended(m, turns))
  {
    hide Load; hide Publish; hide UsedSlot; hide HeadSlot; hide SameRings; hide ElementIs; hide Turns;
    hide AvailableHead; hide Next16; hide InRam; hide SameShape;
    var t, rest, n, m' := turns[0], turns[1..], r.table.size, Ended(m, turns);
    InRamSize(m, r);
    FirstTurn(m, r, turns);
    InRamReturns(m, r, 0, 0);
    TurnKeeps(m, r, t, 0);
    ShapesChain(m, t.after, m');
    forall j: nat | j < n
      ensures j < |turns| ==> ElementIs(m', UsedSlot(r, j), turns[j].head, turns[j].bytes)
      ensures j < |turns| ==> Load(m, HeadSlot(r, j), HalfWord) == Some(turns[j].head) && turns[j].head < 0x1_0000
      ensures |turns| <= j ==> SameElement(m, m', UsedSlot(r, j)) {
      TurnKeeps(m, r, t, j);
      if j == 0 {
        HalfBound(m, HeadSlot(r, 0));
        NextSlot(r, n - 1);
        FullRound(r);
        KeptElement(t.after, m', UsedSlot(r, 0), t.head, t.bytes);
      } else {
        NextSlot(r, j - 1);
        if j < |turns| { assert rest[j - 1] == turns[j]; }
      }
    }
    Wraps(r.usedIndex, |rest|, 0x1_0000);
  }

  lemma HalfBound(m: Memory, a: nat)
    ensures Load(m, a, HalfWord).Some? ==> Load(m, a, HalfWord).value < 0x1_0000
  {
    if Backed(m, a, HalfWord) {
      BytesOfValue(m.bytes[a - m.base..a - m.base + 2]);
      Widths();
    }
  }

  lemma FirstTurn(m: Memory, r: Ring, turns: seq<Turn>)
    requires turns != [] && r.table.size > 0 && Turns(m, r, turns)
    ensures var t := turns[0];
            AvailableHead(m, r) == Some(t.head) && SameRings(m, t.filled, r) &&
            Publish(t.filled, r, t.head, t.bytes) == (t.after, Returned)
  {
    hide SameRings; hide Publish; hide AvailableHead;
  }

  lemma FullRound(r: Ring)
    requires r.table.size > 0
    ensures UsedSlot(r, r.table.size) == UsedSlot(r, 0)
  {
    var n, i := r.table.size, r.usedIndex;
    assert i + n == n * (i / n + 1) + i % n;
    Bits.ModIs(i + n, n, i / n + 1, i % n);
  }

  lemma KeptElement(m: Memory, m': Memory, slot: nat, head: nat, bytes: nat)
    requires ElementIs(m, slot, head, bytes) && SameElement(m, m', slot)
    ensures ElementIs(m', slot, head, bytes)
  {}
}
