/** What a store leaves for later loads: the word RAM of the RV32 bus is a byte memory. */
module MemoryEffects {
  import opened Wrappers
  import opened Address
  import opened Paging
  import opened Hart
  import opened Core32
  import opened StepProofs
  import opened PreciseTraps
  import opened HartProofs
  import opened LegalSteps
  import Icache
  import Tlb
  import Bits
  import Endian

  /** The byte at an address, if it is backed. */
  function ByteAt(b: Bus, p: Phys): Option<nat> { BusRead(b, p, 1) }

  function After(p: Phys, i: nat): Phys { p.(offset := p.offset + i) }

  predicate IsWidth(k: nat) { k == 1 || k == 2 || k == 4 }

  /** A naturally aligned access of k bytes. */
  predicate Natural(p: Phys, k: nat) { IsWidth(k) && p.offset % k == 0 }

  predicate Within(q: Phys, p: Phys, k: nat) { q.frame == p.frame && p.offset <= q.offset < p.offset + k }

  /* ---- bytes of a number ---- */

  /** Byte i of a number, least significant first. */
  function Nth(v: nat, i: nat): nat {
    if i == 0 then v % 256 else Nth(v / 256, i - 1)
  }

  lemma {:induction false} NthOfBytes(v: nat, n: nat, i: nat)
    requires i < n
    ensures Endian.Bytes(v, n)[i] == Nth(v, i)
  {
    if i > 0 { NthOfBytes(v / 256, n - 1, i - 1); }
  }

  lemma DivideTwice(v: nat, a: nat, b: nat)
    requires a > 0 && b > 0
    ensures a * b > 0 && v / (a * b) == v / a / b
  {
    var q, r, s := v / a / b, v / a % b, v % a;
    assert v / a == b * q + r;
    assert v == a * (b * q + r) + s;
    assert a * (b * q + r) == (a * b) * q + a * r;
    Bits.Scaled(a, r, b);
    Bits.ModIs(v, a * b, q, a * r + s);
  }

  lemma {:induction false} NthAbove(v: nat, a: nat, p: nat, q: nat, i: nat)
    requires p > 0 && p == Endian.Pow256(a) && q == v / p
    ensures Nth(q, i) == Nth(v, a + i)
  {
    if a > 0 {
      var m := Endian.Pow256(a - 1);
      DivideTwice(v, 256, m);
      NthAbove(v / 256, a - 1, m, v / 256 / m, i);
    }
  }

  lemma SplitMod(v: nat, w: nat, m: nat)
    requires m > 0 && v % (256 * m) == w % (256 * m)
    ensures v % 256 == w % 256 && v / 256 % m == w / 256 % m
  {
    Endian.DivMod(v, m);
    Endian.DivMod(w, m);
  }

  lemma {:induction false} NthBelow(v: nat, w: nat, a: nat, p: nat, i: nat)
    requires i < a && p > 0 && p == Endian.Pow256(a) && v % p == w % p
    ensures Nth(v, i) == Nth(w, i)
  {
    var m := Endian.Pow256(a - 1);
    SplitMod(v, w, m);
    if i > 0 { NthBelow(v / 256, w / 256, a - 1, m, i - 1); }
  }

  lemma Powers()
    ensures Endian.Pow256(0) == 1 && Endian.Pow256(1) == 0x100 && Endian.Pow256(2) == 0x1_0000
    ensures Endian.Pow256(3) == 0x100_0000 && Endian.Pow256(4) == 0x1_0000_0000
    ensures forall n: nat :: n <= 4 ==> Bytes(n) == Endian.Pow256(n)
  {
    assert Endian.Pow256(1) == 256 * Endian.Pow256(0);
    assert Endian.Pow256(2) == 256 * Endian.Pow256(1);
    assert Endian.Pow256(3) == 256 * Endian.Pow256(2);
    assert Endian.Pow256(4) == 256 * Endian.Pow256(3);
  }

  /* ---- parts of a word ---- */

  /** The digits of r + t a + h a k. */
  lemma Digits(a: nat, k: nat, r: nat, t: nat, h: nat, x: nat)
    requires a > 0 && k > 0 && r < a && t < k && x == r + t * a + h * (a * k)
    ensures x % a == r && x / a % k == t && x / a / k == h
  {
    var y := k * h + t;
    assert a * y + r == x by {
      assert a * y == a * (k * h) + a * t;
      assert a * (k * h) == h * (a * k);
    }
    Bits.ModIs(x, a, y, r);
    Bits.ModIs(y, k, h, t);
  }

  /** What PutPart replaces, by division. */
  lemma Replaced(w: nat, a: nat, k: nat, v: nat)
    requires a > 0 && k > 0
    ensures a * k > 0
    ensures var x := w % a + v % k * a + w / (a * k) * (a * k);
            x % a == w % a && x / a % k == v % k && x / a / k == w / a / k
  {
    DivideTwice(w, a, k);
    Digits(a, k, w % a, v % k, w / (a * k), w % a + v % k * a + w / (a * k) * (a * k));
  }

  lemma PartByte(w: nat, at: nat)
    requires at < 4
    ensures Part(w, at, 1) == Nth(w, at)
  {
    Powers();
    NthAbove(w, at, Bytes(at), w / Bytes(at), 0);
  }

  /** A written part replaces exactly its own bytes. */
  lemma PutBytes(w: nat, at: nat, k: nat, v: nat, j: nat)
    requires at + k <= 4 && j < 4
    ensures Nth(PutPart(w, at, k, v), j) == if at <= j < at + k then Nth(v, j - at) else Nth(w, j)
  {
    Powers();
    var x := PutPart(w, at, k, v);
    Replaced(w, Bytes(at), Bytes(k), v);
    if j < at {
      NthBelow(x, w, at, Bytes(at), j);
    } else {
      NthAbove(x, at, Bytes(at), x / Bytes(at), j - at);
      var y := x / Bytes(at);
      if j < at + k {
        NthBelow(y, v, k, Bytes(k), j - at);
      } else {
        NthAbove(y, k, Bytes(k), y / Bytes(k), j - at - k);
        NthAbove(w / Bytes(at), k, Bytes(k), w / Bytes(at) / Bytes(k), j - at - k);
        NthAbove(w, at, Bytes(at), w / Bytes(at), j - at);
      }
    }
  }

  /** A word of four bytes stays one. */
  lemma PutFits(w: nat, at: nat, k: nat, v: nat)
    requires at + k <= 4 && w < 0x1_0000_0000
    ensures PutPart(w, at, k, v) < 0x1_0000_0000
  {
    Powers();
    var x, a, m := PutPart(w, at, k, v), Bytes(at), Bytes(k);
    Replaced(w, a, m, v);
    PowersAdd(at, k);
    DivideTwice(x, a, m);
    DivideTwice(w, a, m);
    SameQuotient(w, x, a * m, 0x1_0000_0000);
  }

  lemma PowersAdd(at: nat, k: nat)
    requires at + k <= 4
    ensures 0 < Bytes(at) * Bytes(k) && 0x1_0000_0000 % (Bytes(at) * Bytes(k)) == 0
  {}

  /** Below a multiple of m is decided by the quotient by m. */
  lemma SameQuotient(w: nat, x: nat, m: nat, top: nat)
    requires m > 0 && top % m == 0 && w / m == x / m && w < top
    ensures x < top
  {
    var q, t := w / m, top / m;
    assert top == m * t && w == m * q + w % m;
    if q >= t {
      if q > t { Bits.Scaled(m, t, q); }
      assert false;
    }
    Bits.Scaled(m, q, t);
    assert x == m * q + x % m;
  }

  /* ---- the bus as a byte memory ---- */

  function ByteOf(word: nat, i: nat): (r: Endian.byte) { Part(word, i, 1) }

  /** Bytes of a word from one on, lowest first. */
  function BytesFrom(word: nat, at: nat, k: nat): (r: seq<Endian.byte>)
    ensures |r| == k
    decreases k
  {
    if k == 0 then [] else [ByteOf(word, at)] + BytesFrom(word, at + 1, k - 1)
  }

  /** The bytes that an access covers, lowest address first. */
  function Covered(b: Bus, p: Phys, k: nat): (r: seq<Endian.byte>)
    requires Cell(p) in b.ram
    ensures |r| == k
  {
    BytesFrom(b.ram[Cell(p)], p.offset % 4, k)
  }

  lemma {:induction false} BytesFromAt(word: nat, at: nat, k: nat, i: nat)
    requires i < k
    ensures BytesFrom(word, at, k)[i] == ByteOf(word, at + i)
    decreases k
  {
    if i > 0 { BytesFromAt(word, at + 1, k - 1, i - 1); }
  }

  /** A part is the little-endian value of its bytes. */
  lemma PartIsBytes(w: nat, at: nat, k: nat)
    requires at + k <= 4
    ensures Part(w, at, k) == Endian.Value(BytesFrom(w, at, k))
  {
    hide Part;
    var v := w / Bytes(at);
    forall i: nat | i < k ensures BytesFrom(w, at, k)[i] == Endian.Bytes(v, k)[i] {
      BytesFromAt(w, at, k, i);
      PartByte(w, at + i);
      PowerOf(at);
      NthAbove(w, at, Bytes(at), v, i);
      NthOfBytes(v, k, i);
    }
    assert BytesFrom(w, at, k) == Endian.Bytes(v, k);
    Endian.BytesTruncate(v, k);
    PowerOf(k);
    PartIs(w, at, k);
  }

  lemma PartIs(w: nat, at: nat, k: nat)
    ensures Part(w, at, k) == w / Bytes(at) % Bytes(k)
  {}

  lemma PowerOf(n: nat)
    requires n <= 4
    ensures Bytes(n) == Endian.Pow256(n)
  {
    Powers();
  }

  lemma Room(offset: nat, k: nat)
    requires IsWidth(k) && offset % k == 0
    ensures offset % 4 + k <= 4
  {}

  lemma SameCell(p: Phys, k: nat, i: nat)
    requires Natural(p, k) && i < k
    ensures Cell(After(p, i)) == Cell(p) && After(p, i).offset % 4 == p.offset % 4 + i && p.offset % 4 + k <= 4
  {
    var q, r := p.offset / 4, p.offset % 4;
    Room(p.offset, k);
    Bits.ModIs(p.offset + i, 4, q, r + i);
  }

  /** A read gives the little-endian value of the bytes it covers. */
  lemma ReadIsBytes(b: Bus, p: Phys, k: nat)
    requires Natural(p, k)
    ensures BusRead(b, p, k).Some? <==> Cell(p) in b.ram
    ensures Cell(p) in b.ram ==>
              BusRead(b, p, k) == Some(Endian.Value(Covered(b, p, k))) &&
              forall i: nat :: i < k ==> ByteAt(b, After(p, i)) == Some(Covered(b, p, k)[i])
  {
    hide Part;
    if Cell(p) in b.ram {
      var w, at := b.ram[Cell(p)], p.offset % 4;
      SameCell(p, k, 0);
      PartIsBytes(w, at, k);
      forall i: nat | i < k ensures ByteAt(b, After(p, i)) == Some(Covered(b, p, k)[i]) {
        SameCell(p, k, i);
        BytesFromAt(w, at, k, i);
        ByteIs(w, at + i);
      }
    }
  }

  lemma ByteIs(w: nat, i: nat)
    ensures Part(w, i, 1) == ByteOf(w, i)
  {}

  /** A write changes exactly the bytes it covers, and moves the write epoch by one. */
  lemma WriteIsBytes(b: Bus, p: Phys, k: nat, v: nat, q: Phys)
    requires Natural(p, k)
    ensures BusWrite(b, p, k, v).Some? <==> Cell(p) in b.ram
    ensures Cell(p) in b.ram ==>
              var b' := BusWrite(b, p, k, v).value;
              b'.ram.Keys == b.ram.Keys && b'.reservations == b.reservations && b'.epoch == b.epoch + 1 &&
              ByteAt(b', q) == if Within(q, p, k) then Some(Nth(v, q.offset - p.offset)) else ByteAt(b, q)
  {
    if Cell(p) in b.ram {
      SameCell(p, k, 0);
      var w, at, j := b.ram[Cell(p)], p.offset % 4, q.offset % 4;
      if Cell(q) == Cell(p) {
        assert q.offset - p.offset == j - at;
        PutBytes(w, at, k, v, j);
        PartByte(PutPart(w, at, k, v), j);
        PartByte(w, j);
      } else if Within(q, p, k) {
        SameCell(p, k, q.offset - p.offset);
      }
    }
  }

  /** A load of what was just stored gives its low bytes. */
  lemma LoadAfterStore(b: Bus, p: Phys, k: nat, v: nat)
    requires Natural(p, k) && Cell(p) in b.ram
    ensures BusRead(BusWrite(b, p, k, v).value, p, k) == Some(v % Bytes(k))
  {
    SameCell(p, k, 0);
    Replaced(b.ram[Cell(p)], Bytes(p.offset % 4), Bytes(k), v);
  }

  /** A load that shares no byte with a store does not see it. */
  lemma LoadElsewhere(b: Bus, p: Phys, k: nat, v: nat, q: Phys, n: nat)
    requires Natural(p, k) && Natural(q, n) && Cell(p) in b.ram
    requires forall i: nat :: i < n ==> !Within(After(q, i), p, k)
    ensures BusRead(BusWrite(b, p, k, v).value, q, n) == BusRead(b, q, n)
  {
    var b' := BusWrite(b, p, k, v).value;
    WriteIsBytes(b, p, k, v, q);
    ReadIsBytes(b, q, n);
    ReadIsBytes(b', q, n);
    if Cell(q) in b.ram {
      forall i: nat | i < n ensures Covered(b', q, n)[i] == Covered(b, q, n)[i] {
        WriteIsBytes(b, p, k, v, After(q, i));
      }
      assert Covered(b', q, n) == Covered(b, q, n);
    }
  }

  /* ---- the instructions ---- */

  /** The load that undoes a store's width. */
  predicate Pairs(store: Kind, load: Kind) {
    match store
    case Sb => load == Lb || load == Lbu
    case Sh => load == Lh || load == Lhu
    case Sw => load == Lw
    case _ => false
  }

  lemma MapOffset(mode: Mode, level: nat, f: Frame, va: nat)
    ensures Map(level, f, Virtual(mode, va)).offset == va % 0x1000 && Physical(mode, va).offset == va % 0x1000
  {}

  lemma WalkOffset(m: Ram, ctx: Context, va: nat, access: Access)
    ensures var t := Walk(m, ctx, Virtual(ctx.mode, va), access).0; t.Ready? ==> t.address.offset == va % 0x1000
  {
    hide Lookup; hide Permitted; hide Touch; hide Map; hide Virtual; hide Physical;
    var f := Lookup(m, ctx.mode, ctx.satp.root, Virtual(ctx.mode, va));
    if f.Leaf? { MapOffset(ctx.mode, f.level, f.pte.frame, va); }
  }

  lemma CachedOffset(c: Tlb.Cache, m: Ram, ctx: Context, va: nat, access: Access)
    requires Tlb.Shaped(c)
    ensures var t := Tlb.CachedTranslate(c, m, ctx, va, access).0; t.Ready? ==> t.address.offset == va % 0x1000
  {
    hide Walk; hide Lookup; hide Map; hide Virtual; hide Physical; hide Tlb.Probe; hide Tlb.Insert; hide Tlb.Filled;
    hide Canonical;
    WalkOffset(m, ctx, va, access);
    MapOffset(ctx.mode, 0, Frame(0, 0, 0), va);
    var hit := Tlb.Probe(c, ctx, Virtual(ctx.mode, va), access, 0);
    if hit.Some? { MapOffset(ctx.mode, c.entries[hit.value].level, c.entries[hit.value].base.frame, va); }
  }

  /** A translation keeps the offset in the page. */
  lemma OffsetKept(b: Bus, mmu: Mmu, h: Hart, va: nat, access: Access)
    requires MmuReady(mmu)
    ensures var t := MmuTranslate(b, mmu, h, va, access).0;
            t.Ready? ==> t.address.offset == va % 0x1000
  {
    hide Walk; hide Tlb.CachedTranslate; hide Virtual; hide Physical; hide Tlb.Shaped; hide ContextOf;
    hide Canonical; hide Walked;
    var ctx := ContextOf(Rv32, h, access);
    if mmu.Cached? {
      CachedOffset(mmu.t, b.ram, ctx, va, access);
    } else {
      WalkOffset(b.ram, ctx, va, access);
      MapOffset(ctx.mode, 0, Frame(0, 0, 0), va);
    }
  }

  /** A store that retires is one bus write after its translation. */
  lemma StoreWrites(isa: Isa, b: Bus, mmu: Mmu, h: Hart, store: Instruction, a: nat, v: nat, p: Phys)
    requires MmuReady(mmu) && store.kind in {Sb, Sh, Sw}
    requires RunMemory(isa, b, mmu, h, store, a, v).0.Retire?
    requires MmuTranslate(b, mmu, h, Wrap(Rv32, a + store.imm), Store).0 == Ready(p)
    ensures var k := AccessWidth(store.kind);
            var b2 := MmuTranslate(b, mmu, h, Wrap(Rv32, a + store.imm), Store).1;
            Natural(p, k) && Cell(p) in b2.ram &&
              RunMemory(isa, b, mmu, h, store, a, v).1 == BusWrite(b2, p, k, v).value
  {
    hide MmuTranslate; hide Part; hide PutPart; hide Wrap;
    OffsetKept(b, mmu, h, Wrap(Rv32, a + store.imm), Store);
    AlignedOffset(Wrap(Rv32, a + store.imm), AccessWidth(store.kind));
  }

  /** A load whose translation is ready reads the bus. */
  lemma LoadReads(isa: Isa, b: Bus, mmu: Mmu, h: Hart, load: Instruction, a: nat, p: Phys, raw: nat)
    requires MmuReady(mmu) && load.kind in {Lb, Lh, Lw, Lbu, Lhu} &&
        Wrap(Rv32, a + load.imm) % AccessWidth(load.kind) == 0
    requires MmuTranslate(b, mmu, h, Wrap(Rv32, a + load.imm), Load).0 == Ready(p)
    requires BusRead(MmuTranslate(b, mmu, h, Wrap(Rv32, a + load.imm), Load).1, p, AccessWidth(load.kind)) == Some(raw)
    ensures RunMemory(isa, b, mmu, h, load, a, 0).0 == Ok(h, load, isa.extend(load.kind, raw))
  {
    hide MmuTranslate; hide Part; hide PutPart; hide Wrap;
  }

  /** A store that retires is seen by a load of its address: the extension of the stored low
      part, whenever the load's own translation gives that address and leaves that word alone. */
  lemma StoreThenLoad(isa: Isa, b: Bus, mmu: Mmu, h: Hart, store: Instruction, a: nat, v: nat,
                      load: Instruction, a': nat, p: Phys, b1: Bus, mmu1: Mmu)
    requires MmuReady(mmu) && Pairs(store.kind, load.kind) && Wrap(Rv32, a + store.imm) == Wrap(Rv32, a' + load.imm)
    requires RunMemory(isa, b, mmu, h, store, a, v) == (RunMemory(isa, b, mmu, h, store, a, v).0, b1, mmu1)
    requires RunMemory(isa, b, mmu, h, store, a, v).0.Retire?
    requires MmuTranslate(b, mmu, h, Wrap(Rv32, a + store.imm), Store).0 == Ready(p)
    requires MmuTranslate(b1, mmu1, h, Wrap(Rv32, a + store.imm), Load).0 == Ready(p)
    requires var b' := MmuTranslate(b1, mmu1, h, Wrap(Rv32, a + store.imm), Load).1;
             Cell(p) in b'.ram && Cell(p) in b1.ram && b'.ram[Cell(p)] == b1.ram[Cell(p)]
    ensures RunMemory(isa, b1, mmu1, h, load, a', 0).0 ==
              Ok(h, load, isa.extend(load.kind, v % Bytes(AccessWidth(store.kind))))
  {
    hide MmuTranslate; hide Part; hide PutPart; hide RunMemory; hide Wrap;
    StoreWrites(isa, b, mmu, h, store, a, v, p);
    StoreAligned(isa, b, mmu, h, store, a, v);
    LoadAfterStore(MmuTranslate(b, mmu, h, Wrap(Rv32, a + store.imm), Store).1, p, AccessWidth(store.kind), v);
    LoadReads(isa, b1, mmu1, h, load, a', p, v % Bytes(AccessWidth(store.kind)));
  }

  lemma StoreAligned(isa: Isa, b: Bus, mmu: Mmu, h: Hart, store: Instruction, a: nat, v: nat)
    requires MmuReady(mmu) && store.kind in {Sb, Sh, Sw} && RunMemory(isa, b, mmu, h, store, a, v).0.Retire?
    ensures Wrap(Rv32, a + store.imm) % AccessWidth(store.kind) == 0
  {
    hide MmuTranslate; hide Part; hide PutPart; hide Wrap;
  }

  lemma AlignedOffset(va: nat, k: nat)
    requires IsWidth(k) && va % k == 0
    ensures va % 0x1000 % k == 0
  {}

  /** An AMO answers the old word, leaves the combined one, and touches no other byte. */
  lemma AmoExchanges(isa: Isa, b: Bus, h: Hart, d: Instruction, p: Phys, va: nat, v: nat, q: Phys)
    requires IsAmo(d.kind) && Natural(p, 4) && Cell(p) in b.ram
    ensures var (o, b') := AtomicAccess(isa, b, h, d, p, va, v);
            var was := BusRead(b, p, 4).value;
            o == Ok(h, d, was) && BusRead(b', p, 4) == Some(isa.amo(d.kind, was, v) % 0x1_0000_0000) &&
            (!Within(q, p, 4) ==> ByteAt(b', q) == ByteAt(b, q)) &&
            b'.epoch == b.epoch + 1 && b'.reservations == b.reservations
  {
    hide Part; hide PutPart;
    var now := isa.amo(d.kind, BusRead(b, p, 4).value, v);
    LoadAfterStore(b, p, 4, now);
    WriteIsBytes(b, p, 4, now, q);
  }

  /* ---- words of four bytes stay so ---- */

  predicate WordsFit(m: Ram) { forall p :: p in m ==> m[p] < 0x1_0000_0000 }

  lemma WriteKeepsWords(b: Bus, p: Phys, k: nat, v: nat)
    requires Natural(p, k) && Cell(p) in b.ram && WordsFit(b.ram)
    ensures WordsFit(BusWrite(b, p, k, v).value.ram)
  {
    hide PutPart;
    SameCell(p, k, 0);
    PutFits(b.ram[Cell(p)], p.offset % 4, k, v);
  }

  lemma ADFits(a: nat, b: nat)
    requires MoreAD(a, b) && a < 0x1_0000_0000
    ensures b < 0x1_0000_0000
  {
    assert b == 0x100 * (a / 0x100) + b % 0x100;
  }

  /** The walk's A and D updates keep them too. */
  lemma ADKeepsWords(m: Ram, m': Ram)
    requires OnlyAD(m, m') && WordsFit(m)
    ensures WordsFit(m')
  {
    hide MoreAD;
    forall p | p in m' ensures m'[p] < 0x1_0000_0000 { ADFits(m[p], m'[p]); }
  }

  /* ---- what a step can do to memory ---- */

  /** All words but the one at cell differ in A and D only, and words of four bytes stay so. */
  predicate OneWord(m: Ram, m': Ram, cell: Phys) {
    m'.Keys == m.Keys && (forall p :: p in m && p != cell ==> MoreAD(m[p], m'[p])) && (WordsFit(m) ==> WordsFit(m'))
  }

  /** The write count moves forward, and moves whenever memory changes. */
  predicate Counted(b: Bus, b': Bus) {
    b.epoch <= b'.epoch && (b'.epoch == b.epoch ==> b'.ram == b.ram)
  }

  /** The kinds that can write more than A and D bits. */
  predicate Writer(k: Kind) { k == Sb || k == Sh || k == Sw || k == ScW || IsAmo(k) }

  ghost predicate Bounded(m: Ram, m': Ram, writer: bool) {
    if writer then exists cell :: OneWord(m, m', cell) else OnlyAD(m, m')
  }

  lemma CountedSame(b: Bus)
    ensures Counted(b, b)
  {}

  lemma CountedChained(b: Bus, b': Bus, b'': Bus)
    requires Counted(b, b') && Counted(b', b'')
    ensures Counted(b, b'')
  {}

  lemma ADIsOne(m: Ram, m': Ram, writer: bool)
    requires OnlyAD(m, m')
    ensures Bounded(m, m', writer)
  {
    hide MoreAD;
    if WordsFit(m) { ADKeepsWords(m, m'); }
    assert OneWord(m, m', Phys(Frame(0, 0, 0), 0));
  }

  lemma Chained(m: Ram, m': Ram, m'': Ram, writer: bool)
    requires OnlyAD(m, m') && Bounded(m', m'', writer)
    ensures Bounded(m, m'', writer)
  {
    hide MoreAD; hide WordsFit;
    if writer {
      var cell :| OneWord(m', m'', cell);
      if WordsFit(m) { ADKeepsWords(m, m'); }
      forall p | p in m && p != cell ensures MoreAD(m[p], m''[p]) { MoreADTransitive(m[p], m'[p], m''[p]); }
      assert OneWord(m, m'', cell);
    } else {
      OnlyADTransitive(m, m', m'');
    }
  }

  lemma WriteBounded(b: Bus, p: Phys, k: nat, v: nat)
    requires Natural(p, k) && Cell(p) in b.ram
    ensures Bounded(b.ram, BusWrite(b, p, k, v).value.ram, true)
  {
    hide MoreAD; hide WordsFit; hide PutPart;
    var m' := BusWrite(b, p, k, v).value.ram;
    SameOnlyAD(b.ram);
    if WordsFit(b.ram) { WriteKeepsWords(b, p, k, v); }
    assert OneWord(b.ram, m', Cell(p));
  }

  lemma TranslateCounted(b: Bus, mmu: Mmu, h: Hart, va: nat, access: Access)
    requires MmuReady(mmu)
    ensures Counted(b, MmuTranslate(b, mmu, h, va, access).1)
  {
    hide Translate; hide Tlb.CachedTranslate; hide Tlb.Shaped;
  }

  lemma FetchCounted(isa: Isa, b: Bus, h: Hart, c: Option<Caches>)
    requires ItemsLegal(c) && CachesReady(c)
    ensures Counted(b, FetchDecode(isa, b, h, c).1)
  {
    hide MmuTranslate; hide Finish; hide CachesShaped; hide Icache.Lookup; hide AtPageEnd; hide BusRead;
    ReadyMmu(c);
    TranslateCounted(b, MmuOf(c), h, h.pc, Fetch);
    var (_, b1, mmu1) := FetchHalf(b, MmuOf(c), h, h.pc);
    TranslateCounted(b1, mmu1, h, Wrap(Rv32, h.pc + 2), Fetch);
  }

  lemma AtomicWrites(isa: Isa, b: Bus, mmu: Mmu, h: Hart, d: Instruction, va: nat, v: nat)
    requires MmuReady(mmu)
    ensures var b' := RunAtomic(isa, b, mmu, h, d, va, v).1;
            Bounded(b.ram, b'.ram, Writer(d.kind)) && Counted(b, b')
  {
    hide MmuTranslate; hide OnlyAD; hide AtomicAccess; hide Bounded; hide AccessTrap; hide MisalignedTrap;
    hide IsAmo; hide Writer;
    hide Counted;
    CountedSame(b);
    SameOnlyAD(b.ram);
    ADIsOne(b.ram, b.ram, Writer(d.kind));
    var access := if d.kind == LrW then Load else Store;
    TranslateOnlyAD(b, mmu, h, va, access);
    TranslateCounted(b, mmu, h, va, access);
    OffsetKept(b, mmu, h, va, access);
    var (t, b', _) := MmuTranslate(b, mmu, h, va, access);
    ADIsOne(b.ram, b'.ram, Writer(d.kind));
    if t.Ready? && va % 4 == 0 {
      AlignedOffset(va, 4);
      AccessWrites(isa, b', h, d, t.address, va, v);
      var b'' := AtomicAccess(isa, b', h, d, t.address, va, v).1;
      CountedChained(b, b', b'');
      if d.kind == LrW || d.kind == ScW || IsAmo(d.kind) { Chained(b.ram, b'.ram, b''.ram, Writer(d.kind)); }
    }
  }

  lemma AccessWrites(isa: Isa, b: Bus, h: Hart, d: Instruction, p: Phys, va: nat, v: nat)
    requires Natural(p, 4)
    ensures var b' := AtomicAccess(isa, b, h, d, p, va, v).1;
            (d.kind == LrW || d.kind == ScW || IsAmo(d.kind) ==> Bounded(b.ram, b'.ram, Writer(d.kind))) &&
              Counted(b, b')
  {
    hide Bounded; hide PutPart; hide Part; hide OnlyAD;
    SameOnlyAD(b.ram);
    ADIsOne(b.ram, b.ram, Writer(d.kind));
    if Cell(p) in b.ram {
      WriteBounded(b, p, 4, v);
      WriteBounded(b, p, 4, isa.amo(d.kind, BusRead(b, p, 4).value, v));
    }
  }

  lemma MemoryWrites(isa: Isa, b: Bus, mmu: Mmu, h: Hart, d: Instruction, a: nat, v: nat)
    requires MmuReady(mmu)
    ensures var b' := RunMemory(isa, b, mmu, h, d, a, v).1;
            Bounded(b.ram, b'.ram, Writer(d.kind)) && Counted(b, b')
  {
    hide MmuTranslate; hide OnlyAD; hide Bounded; hide AccessTrap; hide MisalignedTrap; hide Wrap; hide PutPart;
    hide Part;
    hide IsAmo; hide Next; hide Ok;
    SameOnlyAD(b.ram);
    ADIsOne(b.ram, b.ram, Writer(d.kind));
    var va, k := Wrap(Rv32, a + d.imm), AccessWidth(d.kind);
    var access := if IsLoad(d.kind) then Load else Store;
    TranslateOnlyAD(b, mmu, h, va, access);
    TranslateCounted(b, mmu, h, va, access);
    OffsetKept(b, mmu, h, va, access);
    var (t, b', _) := MmuTranslate(b, mmu, h, va, access);
    ADIsOne(b.ram, b'.ram, Writer(d.kind));
    if t.Ready? && va % k == 0 && Cell(t.address) in b'.ram && access == Store {
      AlignedOffset(va, k);
      WriteBounded(b', t.address, k, v);
      Chained(b.ram, b'.ram, BusWrite(b', t.address, k, v).value.ram, true);
    }
  }

  lemma UnitWrites(isa: Isa, b: Bus, mmu: Mmu, h: Hart, time: nat, d: Instruction)
    requires MmuReady(mmu)
    ensures var b' := RunUnit(isa, b, mmu, h, time, d).1; Bounded(b.ram, b'.ram, Writer(d.kind)) && Counted(b, b')
  {
    hide RunAtomic; hide RunMemory; hide OnlyAD; hide Bounded; hide RunInteger; hide RunPrivileged;
    hide RunControlFlow; hide RunCsr;
    hide UnitOf; hide Writer; hide Counted;
    SameOnlyAD(b.ram);
    CountedSame(b);
    ADIsOne(b.ram, b.ram, Writer(d.kind));
    if UnitOf(d.kind) == Atomic {
      AtomicWrites(isa, b, mmu, h, d, Reg(h, d.rs1), Reg(h, d.rs2));
    } else if UnitOf(d.kind) == Memory {
      MemoryWrites(isa, b, mmu, h, d, Reg(h, d.rs1), Reg(h, d.rs2));
    }
  }

  /** In either mode a step changes A and D bits and at most one word more, only a store, an SC or
      an AMO changes that word, and the write count tells whether memory changed at all. */
  lemma StepWrites(isa: Isa, h: Hart, b: Bus, c: Option<Caches>, input: Input)
    requires ItemsLegal(c) && CachesReady(c)
    ensures var (_, _, b', _) := Step(isa, h, b, c, input);
            Counted(b, b') &&
            if Begin(h, input.lines).Runs? && FetchDecode(isa, b, Begin(h, input.lines).h, c).0.Got? then
              Bounded(b.ram, b'.ram, Writer(FetchDecode(isa, b, Begin(h, input.lines).h, c).0.item.decoded.kind))
            else OnlyAD(b.ram, b'.ram)
  {
    hide FetchDecode; hide RunAll; hide RunUnit; hide Conclude; hide ItemsLegal; hide CachesShaped; hide Maintain;
    hide TakeTrap;
    hide TakeInterrupt; hide SelectFrom; hide WakeRequested; hide OnlyAD; hide Bounded; hide WithMmu; hide Zeroed;
    hide Begin;
    SameOnlyAD(b.ram);
    var begun := Begin(h, input.lines);
    if begun.Runs? {
      var h1 := begun.h;
      FetchOnlyAD(isa, b, h1, c);
      FetchCounted(isa, b, h1, c);
      FetchLegal(isa, b, h1, c);
      var (f, b1, c1) := FetchDecode(isa, b, h1, c);
      if f.Got? {
        StepRuns(isa, h, b, c, input);
        ReadyMmu(c1);
        UnitWrites(isa, b1, MmuOf(c1), h1, input.time, f.item.decoded);
        Chained(b.ram, b1.ram, RunUnit(isa, b1, MmuOf(c1), h1, input.time, f.item.decoded).1.ram,
          Writer(f.item.decoded.kind));
      }
    }
  }

  lemma BoundedFits(m: Ram, m': Ram, writer: bool)
    requires Bounded(m, m', writer) && WordsFit(m)
    ensures WordsFit(m')
  {
    hide MoreAD; hide WordsFit;
    if !writer { ADKeepsWords(m, m'); }
  }

  lemma StepFits(isa: Isa, h: Hart, b: Bus, c: Option<Caches>, input: Input)
    requires ItemsLegal(c) && CachesReady(c) && WordsFit(b.ram)
    ensures WordsFit(Step(isa, h, b, c, input).2.ram)
  {
    hide FetchDecode; hide Step; hide ItemsLegal; hide CachesShaped; hide OnlyAD; hide Bounded; hide Begin;
    hide WordsFit;
    StepWrites(isa, h, b, c, input);
    var b' := Step(isa, h, b, c, input).2;
    var begun := Begin(h, input.lines);
    if begun.Runs? && FetchDecode(isa, b, begun.h, c).0.Got? {
      BoundedFits(b.ram, b'.ram, Writer(FetchDecode(isa, b, begun.h, c).0.item.decoded.kind));
    } else {
      ADKeepsWords(b.ram, b'.ram);
    }
  }

  lemma DmaCounted(b: Bus, e: Event)
    ensures Counted(b, Dma(b, e))
    ensures WordsFit(b.ram) && WordsFit(e.dma) ==> WordsFit(Dma(b, e).ram)
  {
    if |e.dma| == 0 {
      assert e.dma.Keys == {};
      assert Dma(b, e).ram == b.ram;
    }
  }

  /** The state that the first event and its step leave. */
  lemma OneEvent(isa: Isa, h: Hart, b: Bus, c: Option<Caches>, e: Event)
    requires ItemsLegal(c) && CachesReady(c) && Legal(Rv32, h)
    ensures var (_, h', b', c') := Step(isa, Elapse(h, e), Dma(b, e), c, e.input);
            ItemsLegal(c') && Legal(Rv32, h') && Counted(b, b') &&
              (WordsFit(b.ram) && WordsFit(e.dma) ==> WordsFit(b'.ram))
  {
    hide Step; hide ItemsLegal; hide Dma; hide Elapse; hide CachesShaped; hide WordsFit; hide Bounded; hide OnlyAD;
    hide Legal;
    hide Counted; hide FetchDecode; hide Begin; hide Writer;
    var h0, b0 := Elapse(h, e), Dma(b, e);
    DmaCounted(b, e);
    ElapseLegal(h, e);
    LegalEven(h0);
    StepWrites(isa, h0, b0, c, e.input);
    if WordsFit(b0.ram) { StepFits(isa, h0, b0, c, e.input); }
    StepTotal(isa, h0, b0, c, e.input);
    StepLegal(isa, h0, b0, c, e.input);
    CountedChained(b, b0, Step(isa, h0, b0, c, e.input).2);
  }

  ghost predicate CountedFrom(b: Bus, run: seq<Seen>) { forall s :: s in run ==> Counted(b, s.b) }

  ghost predicate CountedAlong(run: seq<Seen>) { forall i: nat, j: nat ::
      i <= j < |run| ==> Counted(run[i].b, run[j].b) }

  lemma CountedCons(b: Bus, s: Seen, rest: seq<Seen>)
    requires Counted(b, s.b) && CountedFrom(s.b, rest) && CountedAlong(rest)
    ensures CountedFrom(b, [s] + rest) && CountedAlong([s] + rest)
  {
    hide Counted;
    var run := [s] + rest;
    CountedSame(s.b);
    forall t | t in run ensures Counted(b, t.b) {
      if t in rest { CountedChained(b, s.b, t.b); }
    }
    forall i: nat, j: nat | i <= j < |run| ensures Counted(run[i].b, run[j].b) {
      if i > 0 { assert Counted(rest[i - 1].b, rest[j - 1].b); }
      else if j > 0 { assert rest[j - 1] in rest; }
    }
  }

  /** Over every run, disciplined or not and in either mode, the write count of the bus witnesses
      memory: it never goes back, and while it stands still RAM does. */
  lemma {:induction false} RunCounts(isa: Isa, h: Hart, b: Bus, c: Option<Caches>, events: seq<Event>)
    requires ItemsLegal(c) && CachesReady(c) && Legal(Rv32, h)
    ensures var run := Run(isa, h, b, c, events); CountedFrom(b, run) && CountedAlong(run)
    decreases |events|
  {
    hide Step; hide ItemsLegal; hide Dma; hide Elapse; hide CachesShaped; hide WordsFit; hide Legal; hide Counted;
    hide CountedFrom; hide CountedAlong;
    if events == [] {
      NoneCounted(b);
    } else {
      var e := events[0];
      OneEvent(isa, h, b, c, e);
      var (r, h', b', c') := Step(isa, Elapse(h, e), Dma(b, e), c, e.input);
      RunCounts(isa, h', b', c', events[1..]);
      CountedCons(b, Seen(r, h', b'), Run(isa, h', b', c', events[1..]));
    }
  }

  lemma NoneCounted(b: Bus)
    ensures CountedFrom(b, []) && CountedAlong([])
  {}

  /** Over every run, words of four bytes stay so. */
  lemma {:induction false} RunFits(isa: Isa, h: Hart, b: Bus, c: Option<Caches>, events: seq<Event>)
    requires ItemsLegal(c) && CachesReady(c) && Legal(Rv32, h)
    requires WordsFit(b.ram) && forall e :: e in events ==> WordsFit(e.dma)
    ensures forall s :: s in Run(isa, h, b, c, events) ==> WordsFit(s.b.ram)
    decreases |events|
  {
    hide Step; hide ItemsLegal; hide Dma; hide Elapse; hide CachesShaped; hide WordsFit; hide Legal; hide Counted;
    if events != [] {
      var e := events[0];
      OneEvent(isa, h, b, c, e);
      var (_, h', b', c') := Step(isa, Elapse(h, e), Dma(b, e), c, e.input);
      RunFits(isa, h', b', c', events[1..]);
    }
  }
}
