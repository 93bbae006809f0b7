/** The discipline costs nothing while tables and code are left alone: a run whose writes miss the
    words of its page tables and of the instructions it keeps is disciplined without any fence. */
module LiveRuns {
  import opened Wrappers
  import opened Address
  import opened Paging
  import opened Hart
  import opened Core32
  import opened Live
  import opened LiveProofs
  import opened StepProofs
  import CoreProofs
  import MemoryEffects
  import Tlb
  import TlbProofs
  import Icache

  /* ---- the words of the page tables ---- */

  predicate Continues(p: Pte, level: nat) { !Malformed(p) && !IsLeaf(p) && !p.u && !p.a && !p.d && level > 0 }

  /** A walk of va from this table reads the word at this address. */
  predicate WalkReads(m: Ram, table: Frame, level: nat, va: Vaddr, at: Phys)
    decreases level
  {
    var first := PteAddress(Sv32, table, PageNumber(level, va));
    at == first ||
    (first in m && Continues(Fields(Sv32, m[first]), level) &&
      WalkReads(m, Fields(Sv32, m[first]).frame, level - 1, va, at))
  }

  ghost predicate TableWord(m: Ram, spaces: set<TlbProofs.Space>, at: Phys) {
    exists s, va :: s in spaces && WalkReads(m, s.root, TopLevel(Sv32), va, at)
  }

  /** The two memories have the same word, or none, at this address. */
  predicate SameAt(m: Ram, m': Ram, at: Phys) { (at in m <==> at in m') && (at in m ==> m'[at] == m[at]) }

  lemma {:induction false} SameWalk(m: Ram, m': Ram, table: Frame, level: nat, va: Vaddr, global: bool)
    requires forall at :: WalkReads(m, table, level, va, at) ==> SameAt(m, m', at)
    ensures FindLeaf(m', Sv32, table, level, va, global) == FindLeaf(m, Sv32, table, level, va, global)
    ensures forall at :: WalkReads(m', table, level, va, at) == WalkReads(m, table, level, va, at)
    decreases level
  {
    hide Fields;
    var first := PteAddress(Sv32, table, PageNumber(level, va));
    assert WalkReads(m, table, level, va, first);
    if first in m && Continues(Fields(Sv32, m[first]), level) {
      var p := Fields(Sv32, m[first]);
      forall at | WalkReads(m, p.frame, level - 1, va, at)
          ensures SameAt(m, m', at) { assert WalkReads(m, table, level, va, at); }
      SameWalk(m, m', p.frame, level - 1, va, global || p.g);
    }
  }

  ghost predicate SameTables(m: Ram, m': Ram, spaces: set<TlbProofs.Space>) {
    forall at :: TableWord(m, spaces, at) ==> SameAt(m, m', at)
  }

  lemma SameLookup(m: Ram, m': Ram, spaces: set<TlbProofs.Space>, s: TlbProofs.Space, va: Vaddr)
    requires SameTables(m, m', spaces) && s in spaces
    ensures Lookup(m', Sv32, s.root, va) == Lookup(m, Sv32, s.root, va)
    ensures forall at :: WalkReads(m', s.root, TopLevel(Sv32), va, at) == WalkReads(m, s.root, TopLevel(Sv32), va, at)
  {
    hide WalkReads; hide FindLeaf;
    forall at | WalkReads(m, s.root, TopLevel(Sv32), va, at)
        ensures SameAt(m, m', at) { assert TableWord(m, spaces, at); }
    SameWalk(m, m', s.root, TopLevel(Sv32), va, false);
  }

  lemma SameTableWords(m: Ram, m': Ram, spaces: set<TlbProofs.Space>, at: Phys)
    requires SameTables(m, m', spaces)
    ensures TableWord(m', spaces, at) == TableWord(m, spaces, at)
  {
    hide WalkReads; hide FindLeaf;
    forall s, va | s in spaces ensures WalkReads(m', s.root, TopLevel(Sv32), va, at) ==
        WalkReads(m, s.root, TopLevel(Sv32), va, at) {
      SameLookup(m, m', spaces, s, va);
    }
  }

  /* ---- A and D updates move no table word ---- */

  lemma {:induction false} TouchKeepsReads(m: Ram, at: Phys, access: Access, table: Frame, level: nat, va: Vaddr,
      x: Phys)
    requires LeafWord(m, Sv32, at)
    ensures WalkReads(Touch(m, at, access), table, level, va, x) == WalkReads(m, table, level, va, x)
    decreases level
  {
    hide Fields; hide Touched;
    var first := PteAddress(Sv32, table, PageNumber(level, va));
    TouchedFields(Sv32, m[at], access);
    if first in m && first != at && level > 0 {
      TouchKeepsReads(m, at, access, Fields(Sv32, m[first]).frame, level - 1, va, x);
    }
  }

  lemma TouchKeepsTableWord(m: Ram, at: Phys, access: Access, spaces: set<TlbProofs.Space>, x: Phys)
    requires LeafWord(m, Sv32, at)
    ensures TableWord(Touch(m, at, access), spaces, x) == TableWord(m, spaces, x)
  {
    hide WalkReads; hide Touch; hide LeafWord;
    forall s, va | s in spaces
      ensures WalkReads(Touch(m, at, access), s.root, TopLevel(Sv32), va, x) ==
          WalkReads(m, s.root, TopLevel(Sv32), va, x)
    {
      TouchKeepsReads(m, at, access, s.root, TopLevel(Sv32), va, x);
    }
  }

  lemma {:induction false} LeafIsRead(m: Ram, table: Frame, level: nat, va: Vaddr, global: bool)
    requires FindLeaf(m, Sv32, table, level, va, global).Leaf?
    ensures WalkReads(m, table, level, va, FindLeaf(m, Sv32, table, level, va, global).at)
    decreases level
  {
    hide Fields;
    var p := Fields(Sv32, m[PteAddress(Sv32, table, PageNumber(level, va))]);
    if !IsLeaf(p) { LeafIsRead(m, p.frame, level - 1, va, global || p.g); }
  }

  /** A translation in a space in use changes no word but table words, and keeps which words those are. */
  lemma TranslateSpares(m: Ram, ctx: Context, va: nat, access: Access, spaces: set<TlbProofs.Space>, x: Phys)
    requires InUse(ctx.satp, spaces) && ctx.mode == Sv32
    ensures var m' := Translate(m, ctx, va, access).1;
            TableWord(m', spaces, x) == TableWord(m, spaces, x) && (!TableWord(m, spaces, x) ==> SameAt(m, m', x))
  {
    hide WalkReads; hide FindLeaf; hide Virtual; hide Fields; hide Touched;
    var v := Virtual(Sv32, va);
    if !Bare(ctx) && Walk(m, ctx, v, access).0.Ready? {
      var f := Lookup(m, Sv32, ctx.satp.root, v);
      TlbProofs.WalkLeaf(m, ctx, v);
      LeafIsRead(m, ctx.satp.root, TopLevel(Sv32), v, false);
      var s := TlbProofs.Space(ctx.satp.asid, ctx.satp.root);
      assert WalkReads(m, s.root, TopLevel(Sv32), v, f.at);
      assert TableWord(m, spaces, f.at);
      TouchKeepsTableWord(m, f.at, access, spaces, x);
    }
  }

  /* ---- recorded instructions ---- */

  /** A recorded halfword is fresh, lies outside the tables, and was translated in a space in use. */
  ghost predicate PlaceOk(p: Place, key: Icache.Key, b: Bus, half: nat, spaces: set<TlbProofs.Space>) {
    PlaceFresh(p, key, b, half) && !TableWord(b.ram, spaces, Cell(p.at)) &&
    (p.leaf.Some? ==> TlbProofs.Space(key.satp.asid, key.satp.root) in spaces)
  }

  ghost predicate CodeOk(c: Code, key: Icache.Key, b: Bus, spaces: set<TlbProofs.Space>) {
    PlaceOk(c.first, key, b, c.item.raw % 0x1_0000, spaces) &&
    (c.second.Some? ==> PlaceOk(c.second.value, key, b, c.item.raw / 0x1_0000, spaces))
  }

  /** The record agrees with memory. */
  ghost predicate RecordOk(live: Live, b: Bus, spaces: set<TlbProofs.Space>) {
    LeavesCoherent(live.leaves, b.ram, spaces) && forall k :: k in live.code ==> CodeOk(live.code[k], k, b, spaces)
  }

  predicate PlaceCell(p: Place, at: Phys) { Cell(p.at) == at }

  /** A word that holds part of a recorded instruction. */
  ghost predicate CodeCell(code: map<Icache.Key, Code>, at: Phys) {
    exists k :: k in code && (PlaceCell(code[k].first, at) ||
      (code[k].second.Some? && PlaceCell(code[k].second.value, at)))
  }

  /* ---- what keeps the record in agreement ---- */

  lemma SparedPlace(p: Place, key: Icache.Key, b: Bus, b': Bus, half: nat, spaces: set<TlbProofs.Space>)
    requires PlaceOk(p, key, b, half, spaces) && SameTables(b.ram, b'.ram, spaces) && SameAt(b.ram, b'.ram, Cell(p.at))
    ensures PlaceOk(p, key, b', half, spaces)
  {
    hide FindLeaf; hide Part; hide TableWord; hide SameTables; hide Virtual;
    SameTableWords(b.ram, b'.ram, spaces, Cell(p.at));
    if p.leaf.Some? {
      SameLookup(b.ram, b'.ram, spaces, TlbProofs.Space(key.satp.asid, key.satp.root), Virtual(Sv32, p.va));
    }
  }

  lemma SparedLeaves(leaves: set<Tlb.Entry>, m: Ram, m': Ram, spaces: set<TlbProofs.Space>)
    requires LeavesCoherent(leaves, m, spaces) && SameTables(m, m', spaces)
    ensures LeavesCoherent(leaves, m', spaces)
  {
    hide FindLeaf; hide TableWord; hide SameTables;
    forall s, va | s in spaces ensures Lookup(m', Sv32, s.root, va) ==
        Lookup(m, Sv32, s.root, va) { SameLookup(m, m', spaces, s, va); }
    forall e | e in leaves ensures TlbProofs.EntryCoherent(e, m', Sv32, spaces) {
      if e.valid { SameLookup(m, m', spaces, TlbProofs.Space(e.asid, e.root), e.page); }
    }
  }

  /** Memory whose table words and code words are untouched still agrees. */
  lemma SparedRecord(live: Live, b: Bus, b': Bus, spaces: set<TlbProofs.Space>)
    requires RecordOk(live, b, spaces) && SameTables(b.ram, b'.ram, spaces)
    requires forall at :: CodeCell(live.code, at) ==> SameAt(b.ram, b'.ram, at)
    ensures RecordOk(live, b', spaces)
  {
    hide LeavesCoherent; hide SameTables; hide PlaceOk; hide SameAt;
    SparedLeaves(live.leaves, b.ram, b'.ram, spaces);
    forall k | k in live.code ensures CodeOk(live.code[k], k, b', spaces) {
      var c := live.code[k];
      assert PlaceCell(c.first, Cell(c.first.at)) && CodeCell(live.code, Cell(c.first.at));
      SparedPlace(c.first, k, b, b', c.item.raw % 0x1_0000, spaces);
      if c.second.Some? {
        assert PlaceCell(c.second.value, Cell(c.second.value.at)) && CodeCell(live.code, Cell(c.second.value.at));
        SparedPlace(c.second.value, k, b, b', c.item.raw / 0x1_0000, spaces);
      }
    }
  }

  lemma TranslatedPlace(p: Place, key: Icache.Key, b: Bus, ctx: Context, va: nat, access: Access, half: nat,
      spaces: set<TlbProofs.Space>)
    requires PlaceOk(p, key, b, half, spaces) && InUse(ctx.satp, spaces) && ctx.mode == Sv32
    ensures PlaceOk(p, key, Walked(b, Translate(b.ram, ctx, va, access).1), half, spaces)
  {
    hide FindLeaf; hide Part; hide TableWord; hide Virtual; hide Fields; hide Touched;
    TranslateSpares(b.ram, ctx, va, access, spaces, Cell(p.at));
    if !Bare(ctx) && Walk(b.ram, ctx, Virtual(Sv32, va), access).0.Ready? && p.leaf.Some? {
      var f := Lookup(b.ram, Sv32, ctx.satp.root, Virtual(Sv32, va));
      TlbProofs.WalkLeaf(b.ram, ctx, Virtual(Sv32, va));
      TouchKeepsLookup(b.ram, Sv32, f.at, access, key.satp.root, Virtual(Sv32, p.va));
    }
  }

  lemma TranslatedRecord(live: Live, b: Bus, h: Hart, va: nat, access: Access, spaces: set<TlbProofs.Space>)
    requires RecordOk(live, b, spaces) && InUse(h.satp, spaces)
    ensures RecordOk(Leaves(live, h, b.ram, va, access), MmuTranslate(b, Direct, h, va, access).1, spaces)
  {
    hide LeavesCoherent; hide PlaceOk; hide Translate; hide TlbProofs.LiveAfter; hide Walked;
    var ctx := ContextOf(Rv32, h, access);
    TranslateKeeps(live.leaves, b.ram, ctx, va, access, spaces);
    WalkedRam(b, Translate(b.ram, ctx, va, access).1);
    forall k | k in live.code ensures CodeOk(live.code[k], k, MmuTranslate(b, Direct, h, va, access).1, spaces) {
      var c := live.code[k];
      TranslatedPlace(c.first, k, b, ctx, va, access, c.item.raw % 0x1_0000, spaces);
      if c.second.Some? { TranslatedPlace(c.second.value, k, b, ctx, va, access, c.item.raw / 0x1_0000, spaces); }
    }
  }

  lemma WalkedRam(b: Bus, m: Ram)
    ensures Walked(b, m).ram == m
  {}

  /* ---- one step ---- */

  ghost predicate CodeOutsideTables(code: map<Icache.Key, Code>, m: Ram, spaces: set<TlbProofs.Space>) {
    forall at :: CodeCell(code, at) ==> !TableWord(m, spaces, at)
  }

  lemma FilledPlace(ctx: Context, v: Vaddr, f: Find)
    requires f.Leaf?
    ensures var e := Tlb.Filled(ctx, v, f, Fetch); Map(e.level, e.base.frame, v) == Map(f.level, f.pte.frame, v)
  {}

  /** A halfword that was just fetched is fresh in the memory that its translation left. */
  lemma FetchedPlace(b: Bus, h: Hart, va: nat, spaces: set<TlbProofs.Space>)
    requires InUse(h.satp, spaces) && FetchHalf(b, Direct, h, va).0.Half?
    requires !TableWord(b.ram, spaces, Cell(PlaceOf(h, b.ram, va).at))
    ensures var (half, b1, _) := FetchHalf(b, Direct, h, va);
        PlaceOk(PlaceOf(h, b.ram, va), KeyOf(h), b1, half.value, spaces)
  {
    hide FindLeaf; hide Part; hide TableWord; hide Virtual; hide Touch; hide Map; hide Tlb.Fresh; hide Tlb.Filled;
    hide Physical;
    hide Permitted; hide Cell;
    var ctx, v := FetchContext(h), Virtual(Sv32, va);
    TranslateSpares(b.ram, ctx, va, Fetch, spaces, Cell(PlaceOf(h, b.ram, va).at));
    WalkedRam(b, Translate(b.ram, ctx, va, Fetch).1);
    if !Bare(ctx) {
      Tlb.FilledIsFresh(b.ram, ctx, v, Fetch);
      FilledPlace(ctx, v, Lookup(b.ram, Sv32, h.satp.root, v));
    }
  }

  lemma HalfRecord(live: Live, b: Bus, h: Hart, va: nat, spaces: set<TlbProofs.Space>)
    requires RecordOk(live, b, spaces) && InUse(h.satp, spaces)
    ensures RecordOk(Leaves(live, h, b.ram, va, Fetch), FetchHalf(b, Direct, h, va).1, spaces)
  {
    hide RecordOk; hide Leaves; hide MmuTranslate; hide BusRead;
    TranslatedRecord(live, b, h, va, Fetch, spaces);
  }

  lemma HalfPlace(p: Place, key: Icache.Key, b: Bus, h: Hart, va: nat, half: nat, spaces: set<TlbProofs.Space>, x: Phys)
    requires InUse(h.satp, spaces)
    ensures PlaceOk(p, key, b, half, spaces) ==> PlaceOk(p, key, FetchHalf(b, Direct, h, va).1, half, spaces)
    ensures TableWord(FetchHalf(b, Direct, h, va).1.ram, spaces, x) == TableWord(b.ram, spaces, x)
  {
    hide PlaceOk; hide Translate; hide BusRead; hide TableWord; hide Walked;
    var ctx := FetchContext(h);
    TranslateSpares(b.ram, ctx, va, Fetch, spaces, x);
    WalkedRam(b, Translate(b.ram, ctx, va, Fetch).1);
    if PlaceOk(p, key, b, half, spaces) { TranslatedPlace(p, key, b, ctx, va, Fetch, half, spaces); }
  }

  /** The record after a kept instruction agrees if the instruction does. */
  lemma KeptRecord(live: Live, b: Bus, h: Hart, f: Fetched, first: Place, second: Option<Place>,
      spaces: set<TlbProofs.Space>)
    requires RecordOk(live, b, spaces)
    requires f.Got? && !AtPageEnd(h.pc) ==> CodeOk(Code(f.item, first, second), KeyOf(h), b, spaces)
    ensures RecordOk(Kept(live, h, f, first, second), b, spaces)
  {
    hide LeavesCoherent; hide CodeOk; hide AtPageEnd; hide KeyOf;
  }

  lemma KeptCells(live: Live, h: Hart, f: Fetched, first: Place, second: Option<Place>)
    requires f.Got? && !AtPageEnd(h.pc)
    ensures var code := Kept(live, h, f, first, second).code;
            CodeCell(code, Cell(first.at)) && (second.Some? ==> CodeCell(code, Cell(second.value.at)))
  {
    hide AtPageEnd; hide KeyOf; hide Cell;
    var code := Kept(live, h, f, first, second).code;
    assert PlaceCell(code[KeyOf(h)].first, Cell(first.at));
    if second.Some? { assert PlaceCell(code[KeyOf(h)].second.value, Cell(second.value.at)); }
  }

  lemma FinishRaw(isa: Isa, h: Hart, raw: nat, length: nat)
    ensures var f := Finish(isa, None, h, raw, length).0; f.Got? ==> f.item.raw == raw
  {
    hide Keep; hide Decode;
  }

  lemma CompressedRecord(isa: Isa, live: Live, b: Bus, h: Hart, spaces: set<TlbProofs.Space>)
    requires RecordOk(live, b, spaces) && InUse(h.satp, spaces)
    requires FetchHalf(b, Direct, h, h.pc).0.Half? && FetchHalf(b, Direct, h, h.pc).0.value < 0x1_0000
    ensures var (first, b1, _) := FetchHalf(b, Direct, h, h.pc);
            var live' := Kept(Leaves(live, h, b.ram, h.pc, Fetch), h, Finish(isa, None, h, first.value, 2).0,
                PlaceOf(h, b.ram, h.pc), None);
            CodeOutsideTables(live'.code, b.ram, spaces) ==> RecordOk(live', b1, spaces)
  {
    hide RecordOk; hide PlaceOk; hide FetchHalf; hide PlaceOf; hide Finish; hide AtPageEnd; hide CodeCell;
    hide TableWord; hide Leaves; hide Kept;
    var (first, b1, _) := FetchHalf(b, Direct, h, h.pc);
    var f, live1, p := Finish(isa, None, h, first.value, 2).0, Leaves(live, h, b.ram, h.pc, Fetch),
        PlaceOf(h, b.ram, h.pc);
    HalfRecord(live, b, h, h.pc, spaces);
    FinishRaw(isa, h, first.value, 2);
    if CodeOutsideTables(Kept(live1, h, f, p, None).code, b.ram, spaces) {
      if f.Got? && !AtPageEnd(h.pc) {
        KeptCells(live1, h, f, p, None);
        FetchedPlace(b, h, h.pc, spaces);
      }
      KeptRecord(live1, b1, h, f, p, None, spaces);
    }
  }

  lemma StandardRecord(isa: Isa, live: Live, b: Bus, h: Hart, spaces: set<TlbProofs.Space>)
    requires RecordOk(live, b, spaces) && InUse(h.satp, spaces)
    requires var (first, b1, _) := FetchHalf(b, Direct, h, h.pc);
             first.Half? && first.value < 0x1_0000 && FetchHalf(b1, Direct, h, Wrap(Rv32, h.pc + 2)).0.Half?
    ensures var (first, b1, _) := FetchHalf(b, Direct, h, h.pc);
            var next := Wrap(Rv32, h.pc + 2);
            var (second, b2, _) := FetchHalf(b1, Direct, h, next);
            var f := Finish(isa, None, h, first.value + second.value * 0x1_0000, 4).0;
            var live2 := Leaves(Leaves(live, h, b.ram, h.pc, Fetch), h, b1.ram, next, Fetch);
            var live' := Kept(live2, h, f, PlaceOf(h, b.ram, h.pc), Some(PlaceOf(h, b1.ram, next)));
            CodeOutsideTables(live'.code, b.ram, spaces) ==> RecordOk(live', b2, spaces)
  {
    hide RecordOk; hide PlaceOk; hide FetchHalf; hide PlaceOf; hide Finish; hide AtPageEnd; hide CodeCell;
    hide TableWord; hide Leaves; hide Kept;
    hide Wrap;
    var (first, b1, _) := FetchHalf(b, Direct, h, h.pc);
    var next := Wrap(Rv32, h.pc + 2);
    var (second, b2, _) := FetchHalf(b1, Direct, h, next);
    var raw := first.value + second.value * 0x1_0000;
    var f, live1 := Finish(isa, None, h, raw, 4).0, Leaves(live, h, b.ram, h.pc, Fetch);
    var live2 := Leaves(live1, h, b1.ram, next, Fetch);
    var p, q := PlaceOf(h, b.ram, h.pc), PlaceOf(h, b1.ram, next);
    HalfRecord(live, b, h, h.pc, spaces);
    HalfRecord(live1, b1, h, next, spaces);
    FinishRaw(isa, h, raw, 4);
    CoreProofs.JoinedHalves(first.value, second.value);
    if CodeOutsideTables(Kept(live2, h, f, p, Some(q)).code, b.ram, spaces) {
      if f.Got? && !AtPageEnd(h.pc) {
        KeptCells(live2, h, f, p, Some(q));
        FetchedPlace(b, h, h.pc, spaces);
        HalfPlace(p, KeyOf(h), b, h, h.pc, first.value, spaces, Cell(q.at));
        FetchedPlace(b1, h, next, spaces);
        HalfPlace(p, KeyOf(h), b1, h, next, first.value, spaces, Cell(q.at));
      }
      KeptRecord(live2, b2, h, f, p, Some(q), spaces);
    }
  }

  lemma FetchRecord(isa: Isa, live: Live, b: Bus, h: Hart, spaces: set<TlbProofs.Space>)
    requires RecordOk(live, b, spaces) && InUse(h.satp, spaces)
    requires CodeOutsideTables(AfterFetch(isa, live, b, h).code, b.ram, spaces)
    ensures RecordOk(AfterFetch(isa, live, b, h), FetchDecode(isa, b, h, None).1, spaces)
  {
    hide RecordOk; hide FetchHalf; hide PlaceOf; hide Finish; hide CodeOutsideTables; hide Leaves; hide Kept; hide Wrap;
    if h.pc % 2 == 0 {
      HalfRecord(live, b, h, h.pc, spaces);
      var (first, b1, _) := FetchHalf(b, Direct, h, h.pc);
      if first.Half? {
        CoreProofs.HalfBounded(b, Direct, h, h.pc);
        if first.value % 4 != 3 {
          CompressedRecord(isa, live, b, h, spaces);
        } else {
          var live1, next := Leaves(live, h, b.ram, h.pc, Fetch), Wrap(Rv32, h.pc + 2);
          HalfRecord(live1, b1, h, next, spaces);
          if FetchHalf(b1, Direct, h, next).0.Half? {
            StandardRecord(isa, live, b, h, spaces);
          } else {
            FaultKeepsNothing(Leaves(live1, h, b1.ram, next, Fetch), h, FetchMiss(isa, b, h, None).0,
              PlaceOf(h, b.ram, h.pc), Some(PlaceOf(h, b1.ram, next)));
          }
        }
      }
    }
  }

  lemma FaultKeepsNothing(live: Live, h: Hart, f: Fetched, first: Place, second: Option<Place>)
    requires !f.Got?
    ensures Kept(live, h, f, first, second) == live
  {}

  /** The word that a store, an SC or an AMO is about to write, on the bus as the fetch left it. */
  function StoreCell(b: Bus, h: Hart, d: Instruction): Option<Phys> {
    match DataAccess(h, d)
    case None => None
    case Some((va, access)) =>
      match MmuTranslate(b, Direct, h, va, access).0
      case Ready(p) => if MemoryEffects.Writer(d.kind) then Some(Cell(p)) else None
      case _ => None
  }

  /** The bus as the translation of a data access leaves it. */
  function Translated(b: Bus, h: Hart, d: Instruction): Bus {
    match DataAccess(h, d)
    case None => b
    case Some((va, access)) => MmuTranslate(b, Direct, h, va, access).1
  }

  lemma AtomicRam(isa: Isa, b: Bus, h: Hart, d: Instruction, p: Phys, va: nat, v: nat, x: Phys)
    requires MemoryEffects.Writer(d.kind) ==> x != Cell(p)
    requires d.kind == LrW || d.kind == ScW || IsAmo(d.kind)
    ensures SameAt(b.ram, AtomicAccess(isa, b, h, d, p, va, v).1.ram, x)
  {
    hide PutPart; hide Part; hide Cell;
  }

  lemma MemoryRam(isa: Isa, b: Bus, h: Hart, d: Instruction, p: Phys, va: nat, v: nat, x: Phys)
    requires MemoryEffects.Writer(d.kind) ==> x != Cell(p)
    requires IsLoad(d.kind) || IsStore(d.kind)
    ensures SameAt(b.ram, MemoryAccess(isa, b, h, d, p, va, v, IsLoad(d.kind)).1.ram, x)
  {
    hide PutPart; hide Part; hide Cell; hide IsAmo;
  }

  /** Besides its translation a unit changes no word but the one it stores to. */
  lemma UnitRam(isa: Isa, b: Bus, h: Hart, time: nat, d: Instruction, x: Phys)
    requires StoreCell(b, h, d) != Some(x)
    ensures SameAt(Translated(b, h, d).ram, RunUnit(isa, b, Direct, h, time, d).1.ram, x)
  {
    hide MmuTranslate; hide RunInteger; hide RunPrivileged; hide RunControlFlow; hide RunCsr; hide Reg; hide Wrap;
    hide Cell;
    hide UnitOf; hide IsAmo; hide IsLoad; hide IsStore; hide AtomicAccess; hide MemoryAccess;
    hide MemoryEffects.Writer; hide AccessWidth;
    CoreProofs.AtomicKinds(d.kind);
    CoreProofs.MemoryKinds(d.kind);
    var da := DataAccess(h, d);
    if da.Some? {
      var (va, access) := da.value;
      var (t, b1, _) := MmuTranslate(b, Direct, h, va, access);
      if t.Ready? {
        if UnitOf(d.kind) == Atomic { AtomicRam(isa, b1, h, d, t.address, va, Reg(h, d.rs2), x); }
        if UnitOf(d.kind) == Memory { MemoryRam(isa, b1, h, d, t.address, va, Reg(h, d.rs2), x); }
      }
    }
  }

  /** The store of the instruction misses the tables and the recorded instructions. */
  ghost predicate StoreSpares(live: Live, b: Bus, h: Hart, d: Instruction, spaces: set<TlbProofs.Space>) {
    var cell := StoreCell(b, h, d);
    cell.Some? ==> !TableWord(b.ram, spaces, cell.value) && !CodeCell(live.code, cell.value)
  }

  lemma DataRecord(isa: Isa, live: Live, b: Bus, h: Hart, time: nat, d: Instruction, spaces: set<TlbProofs.Space>)
    requires RecordOk(live, b, spaces) && InUse(h.satp, spaces) && StoreSpares(live, b, h, d, spaces)
    ensures RecordOk(AfterData(live, b, h, d), RunUnit(isa, b, Direct, h, time, d).1, spaces)
  {
    hide RecordOk; hide StoreCell; hide MmuTranslate; hide RunUnit; hide TableWord; hide CodeCell; hide SameAt;
    hide Leaves; hide DataAccess;
    var m1, b' := Translated(b, h, d), RunUnit(isa, b, Direct, h, time, d).1;
    var live' := AfterData(live, b, h, d);
    TranslatedIs(live, b, h, d, spaces);
    forall x ensures StoreCell(b, h, d) != Some(x) ==> SameAt(m1.ram, b'.ram, x) {
      if StoreCell(b, h, d) != Some(x) { UnitRam(isa, b, h, time, d, x); }
    }
    forall x ensures TableWord(m1.ram, spaces, x) ==
        TableWord(b.ram, spaces, x) { TranslatedWords(b, h, d, spaces, x); }
    SparedRecord(live', m1, b', spaces);
  }

  lemma TranslatedIs(live: Live, b: Bus, h: Hart, d: Instruction, spaces: set<TlbProofs.Space>)
    requires RecordOk(live, b, spaces) && InUse(h.satp, spaces)
    ensures RecordOk(AfterData(live, b, h, d), Translated(b, h, d), spaces) &&
        AfterData(live, b, h, d).code == live.code
  {
    hide RecordOk; hide MmuTranslate; hide TlbProofs.LiveAfter; hide DataAccess;
    match DataAccess(h, d)
    case None =>
    case Some((va, access)) => TranslatedRecord(live, b, h, va, access, spaces);
  }

  lemma TranslatedWords(b: Bus, h: Hart, d: Instruction, spaces: set<TlbProofs.Space>, x: Phys)
    requires InUse(h.satp, spaces)
    ensures TableWord(Translated(b, h, d).ram, spaces, x) == TableWord(b.ram, spaces, x)
  {
    hide TableWord; hide Translate; hide Walked; hide DataAccess;
    match DataAccess(h, d)
    case None =>
    case Some((va, access)) =>
      TranslateSpares(b.ram, ContextOf(Rv32, h, access), va, access, spaces, x);
      WalkedRam(b, Translate(b.ram, ContextOf(Rv32, h, access), va, access).1);
  }

  lemma FencedRecord(live: Live, b: Bus, h: Hart, d: Instruction, spaces: set<TlbProofs.Space>)
    requires RecordOk(live, b, spaces)
    ensures RecordOk(AfterFence(live, h, d), b, spaces)
  {
    hide CodeOk; hide TlbProofs.EntryCoherent; hide TlbProofs.GlobalsShared; hide Tlb.Fenced; hide Icache.Fenced;
  }

  /** What a step may do to memory: anything but store to a table word or to an instruction that is
      kept, and but run instructions that lie in table words. */
  ghost predicate StepSpares(isa: Isa, live: Live, h: Hart, b: Bus, input: Input, spaces: set<TlbProofs.Space>) {
    var begun := Begin(h, input.lines);
    begun.Runs? ==>
      var (f, b1, _) := FetchDecode(isa, b, begun.h, None);
      var live1 := AfterFetch(isa, live, b, begun.h);
      CodeOutsideTables(live1.code, b.ram, spaces) &&
        (f.Got? ==> StoreSpares(live1, b1, begun.h, f.item.decoded, spaces))
  }

  lemma BeginSatp(h: Hart, lines: set<nat>)
    ensures Begin(h, lines).h.satp == h.satp
  {
    hide SelectFrom; hide WakeRequested;
  }

  lemma StepRecord(isa: Isa, live: Live, h: Hart, b: Bus, input: Input, spaces: set<TlbProofs.Space>)
    requires RecordOk(live, b, spaces) && InUse(h.satp, spaces) && StepSpares(isa, live, h, b, input, spaces)
    ensures RecordOk(AfterStep(isa, live, h, b, input), Step(isa, h, b, None, input).2, spaces)
  {
    hide RecordOk; hide FetchDecode; hide AfterFetch; hide CodeOutsideTables; hide StoreSpares; hide Begin;
    hide RunAll; hide RunUnit;
    hide Conclude; hide AfterData; hide AfterFence; hide TakeInterrupt; hide Trapped;
    var begun := Begin(h, input.lines);
    BeginSatp(h, input.lines);
    if begun.Runs? {
      var h1 := begun.h;
      FetchRecord(isa, live, b, h1, spaces);
      var (f, b1, _) := FetchDecode(isa, b, h1, None);
      var live1 := AfterFetch(isa, live, b, h1);
      if f.Got? {
        StepRuns(isa, h, b, None, input);
        FetchLegal(isa, b, h1, None);
        DataRecord(isa, live1, b1, h1, input.time, f.item.decoded, spaces);
        FencedRecord(AfterData(live1, b1, h1, f.item.decoded), Step(isa, h, b, None, input).2, h1, f.item.decoded,
          spaces);
      }
    }
  }

  /* ---- runs ---- */

  ghost predicate DmaSpares(live: Live, b: Bus, e: Event, spaces: set<TlbProofs.Space>) {
    forall at :: at in e.dma && at in b.ram ==> !TableWord(b.ram, spaces, at) && !CodeCell(live.code, at)
  }

  lemma DmaRecord(live: Live, b: Bus, e: Event, spaces: set<TlbProofs.Space>)
    requires RecordOk(live, b, spaces) && DmaSpares(live, b, e, spaces)
    ensures RecordOk(live, Dma(b, e), spaces)
  {
    hide RecordOk; hide TableWord; hide CodeCell;
    SparedRecord(live, b, Dma(b, e), spaces);
  }

  lemma RecordMayStep(isa: Isa, live: Live, h: Hart, b: Bus, input: Input, spaces: set<TlbProofs.Space>)
    requires RecordOk(live, b, spaces) && InUse(h.satp, spaces)
    ensures MayStep(isa, live, h, b, input)
  {
    hide LeavesCoherent; hide MayStep; hide PlaceFresh; hide TableWord;
    CoherentMayStep(isa, live, h, b, input, spaces);
  }

  /** Over the run no DMA and no store reaches a table word or a kept instruction, nothing runs from
      table words, and satp stays among the spaces. No fence is asked for. */
  ghost predicate EditFree(isa: Isa, live: Live, h: Hart, b: Bus, events: seq<Event>, spaces: set<TlbProofs.Space>)
    decreases |events|
  {
    InUse(h.satp, spaces) &&
    (events != [] ==>
      var h0, b0 := Elapse(h, events[0]), Dma(b, events[0]);
      var (_, h', b', _) := Step(isa, h0, b0, None, events[0].input);
      DmaSpares(live, b, events[0], spaces) && StepSpares(isa, live, h0, b0, events[0].input, spaces) &&
      EditFree(isa, AfterStep(isa, live, h0, b0, events[0].input), h', b', events[1..], spaces))
  }

  /** Such a run is disciplined, however long and paged or not. */
  lemma {:induction false} EditFreeDisciplined(isa: Isa, live: Live, h: Hart, b: Bus, events: seq<Event>,
      spaces: set<TlbProofs.Space>)
    requires RecordOk(live, b, spaces) && EditFree(isa, live, h, b, events, spaces)
    ensures Disciplined(isa, live, h, b, events)
    decreases |events|
  {
    hide RecordOk; hide Step; hide AfterStep; hide Dma; hide MayStep; hide DmaSpares; hide StepSpares;
    if events != [] {
      var e := events[0];
      var h0, b0 := Elapse(h, e), Dma(b, e);
      DmaRecord(live, b, e, spaces);
      RecordMayStep(isa, live, h0, b0, e.input, spaces);
      StepRecord(isa, live, h0, b0, e.input, spaces);
      var (_, h', b', _) := Step(isa, h0, b0, None, e.input);
      EditFreeDisciplined(isa, AfterStep(isa, live, h0, b0, e.input), h', b', events[1..], spaces);
    }
  }

  /** So from empty caches Fast mode is Reference mode over every run that leaves its tables and its
      code alone, if global mappings are shared, with no fence at all. */
  lemma EditFreeAgrees(isa: Isa, h: Hart, b: Bus, events: seq<Event>, spaces: set<TlbProofs.Space>)
    requires TlbProofs.GlobalsShared(b.ram, Sv32, spaces) && EditFree(isa, Nothing, h, b, events, spaces)
    ensures Run(isa, h, b, Some(EmptyCaches()), events) == Run(isa, h, b, None, events)
  {
    hide Run; hide EmptyCaches; hide TlbProofs.GlobalsShared; hide EditFree; hide Disciplined;
    EditFreeDisciplined(isa, Nothing, h, b, events, spaces);
    CoreProofs.ResetRunAgrees(isa, h, b, events);
  }
}
