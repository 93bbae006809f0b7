/** The translation cache of both cores: 16 sets of 4 ways with round-robin replacement. */
module Tlb {
  import opened Wrappers
  import opened Address
  import opened Paging

  /** A cached leaf. level stands for page_shift, page for virtual_page, base for physical_page. */
  datatype Entry = Entry(valid: bool, global: bool, level: nat, asid: nat, root: Frame,
                         page: Vaddr, base: Phys, pte: Pte)

  /** What a cleared slot holds. */
  const NoEntry: Entry :=
    Entry(false, false, 0, 0, Frame(0, 0, 0), Vaddr(0, 0, 0, 0, 0), Phys(Frame(0, 0, 0), 0),
          Pte(false, false, false, false, false, false, false, false, false, Frame(0, 0, 0)))

  /** Entry i sits in set i / 4, way i % 4; ways holds each set's next victim. */
  datatype Cache = Cache(entries: seq<Entry>, ways: seq<nat>)

  predicate Shaped(t: Cache) { |t.entries| == 64 && |t.ways| == 16 }

  /** The cache as constructed and as cleared. */
  function Empty(): (r: Cache)
    ensures Shaped(r)
  {
    Cache(seq(64, _ => NoEntry), seq(16, _ => 0))
  }

  /** The set of a page: its number folded by exclusive or, modulo 16. */
  function SetOf(mode: Mode, level: nat, page: Vaddr): (r: nat)
    ensures r < 16
  {
    var number := (AddressOf(mode, page) / PageSize(mode, level)) % 0x1_0000_0000_0000_0000;
    Fold(number as bv64)
  }

  function Fold(n: bv64): (r: nat)
    ensures r < 16
  {
    ((n ^ (n >> 6) ^ (n >> 12)) % 16) as nat
  }

  /** The entry answers for va in this context. */
  predicate Tagged(e: Entry, ctx: Context, level: nat, va: Vaddr) {
    e.valid && e.level == level && e.page == Page(level, va) &&
    (e.global || (e.asid == ctx.satp.asid && e.root == ctx.satp.root))
  }

  /** The entry answers and already allows the access without an A or D update. */
  predicate Usable(e: Entry, ctx: Context, level: nat, va: Vaddr, access: Access) {
    Tagged(e, ctx, level, va) && PrivilegeAllows(e.pte, ctx, access) && e.pte.a && (access == Store ==> e.pte.d)
  }

  /** The first usable way of a set from the given way on. */
  function FindWay(t: Cache, ctx: Context, level: nat, va: Vaddr, access: Access, row: nat, way: nat): (r: Option<nat>)
    requires Shaped(t) && row < 16 && way <= 4
    ensures r.Some? ==> r.value < 64 && Usable(t.entries[r.value], ctx, level, va, access)
    ensures r.None? ==> forall i :: row * 4 + way <= i < row * 4 + 4 ==> !Usable(t.entries[i], ctx, level, va, access)
    decreases 4 - way
  {
    if way == 4 then None
    else if Usable(t.entries[row * 4 + way], ctx, level, va, access) then Some(row * 4 + way)
    else FindWay(t, ctx, level, va, access, row, way + 1)
  }

  /** Probe the page sizes from the smallest up. */
  function Probe(t: Cache, ctx: Context, va: Vaddr, access: Access, level: nat): (r: Option<nat>)
    requires Shaped(t) && level <= TopLevel(ctx.mode) + 1
    ensures r.Some? ==> r.value < 64 && t.entries[r.value].level <= TopLevel(ctx.mode)
                        && Usable(t.entries[r.value], ctx, t.entries[r.value].level, va, access)
    decreases TopLevel(ctx.mode) + 1 - level
  {
    if level == TopLevel(ctx.mode) + 1 then None
    else
      var found := FindWay(t, ctx, level, va, access, SetOf(ctx.mode, level, Page(level, va)), 0);
      if found.Some? then found else Probe(t, ctx, va, access, level + 1)
  }

  /** The slot may be overwritten by an insertion of e without a replacement. */
  predicate Reusable(was: Entry, e: Entry) {
    !was.valid || (was.level == e.level && was.page == e.page && was.global == e.global &&
                    (e.global || (was.asid == e.asid && was.root == e.root)))
  }

  function FindSlot(t: Cache, e: Entry, row: nat, way: nat): (r: Option<nat>)
    requires Shaped(t) && row < 16 && way <= 4
    ensures r.Some? ==> row * 4 <= r.value < row * 4 + 4 && Reusable(t.entries[r.value], e)
    decreases 4 - way
  {
    if way == 4 then None
    else if Reusable(t.entries[row * 4 + way], e) then Some(row * 4 + way)
    else FindSlot(t, e, row, way + 1)
  }

  function Insert(t: Cache, mode: Mode, e: Entry): (r: Cache)
    requires Shaped(t)
    ensures Shaped(r)
  {
    var row := SetOf(mode, e.level, e.page);
    match FindSlot(t, e, row, 0)
    case Some(i) => t.(entries := t.entries[i := e])
    case None =>
      var victim := t.ways[row] % 4;
      Cache(t.entries[row * 4 + victim := e], t.ways[row := (victim + 1) % 4])
  }

  /** The entry that a walk which ended in this leaf leaves in the cache. */
  function Filled(ctx: Context, va: Vaddr, f: Find, access: Access): Entry
    requires f.Leaf?
  {
    var pte := TouchedPte(f.pte, access);
    Entry(true, f.global, f.level, ctx.satp.asid, ctx.satp.root, Page(f.level, va),
          PageBase(f.level, Map(f.level, pte.frame, va)), pte)
  }

  /** Sv32Tlb::translate and Sv39Tlb::translate: result, memory, cache. */
  function CachedTranslate(t: Cache, m: Ram, ctx: Context, va: nat, access: Access): (r: (Translation, Ram, Cache))
    requires Shaped(t)
    ensures Shaped(r.2)
  {
    if Bare(ctx) then (Ready(Physical(ctx.mode, va)), m, t)
    else
      var v := Virtual(ctx.mode, va);
      if !Canonical(ctx.mode, v) then (PageFault, m, t)
      else
        match Probe(t, ctx, v, access, 0)
        case Some(i) =>
          var e := t.entries[i];
          (Ready(Map(e.level, e.base.frame, v)), m, t)
        case None =>
          var (result, m') := Walk(m, ctx, v, access);
          if result.Ready? then (result, m',
              Insert(t, ctx.mode, Filled(ctx, v, Lookup(m, ctx.mode, ctx.satp.root, v), access)))
          else (result, m', t)
  }

  /** An entry that a fence with this optional address and optional ASID must remove. */
  predicate Fenced(e: Entry, mode: Mode, address: Option<nat>, asid: Option<nat>) {
    (asid.Some? ==> !e.global && e.asid == asid.value) &&
    (address.Some? ==> Page(e.level, Virtual(mode, address.value)) == e.page)
  }

  function FenceEntry(e: Entry, mode: Mode, address: Option<nat>, asid: Option<nat>): Entry {
    if e.valid && Fenced(e, mode, address, asid) then e.(valid := false) else e
  }

  function Fence(t: Cache, mode: Mode, address: Option<nat>, asid: Option<nat>): (r: Cache)
    requires Shaped(t)
    ensures Shaped(r)
  {
    t.(entries := seq(64, i requires 0 <= i < 64 => FenceEntry(t.entries[i], mode, address, asid)))
  }

  /* ---- one hit ---- */

  /** The tables still lead from this root to the leaf the entry was filled from,
      with at least the A and D bits it was filled with. */
  predicate Fresh(e: Entry, m: Ram, mode: Mode, root: Frame, va: Vaddr) {
    var f := Lookup(m, mode, root, va);
    f.Leaf? && f.level == e.level && f.global == e.global && Grown(e.pte, f.pte) &&
    Aligned(e.level, e.pte.frame) && e.base == Phys(e.pte.frame, 0)
  }

  /** A fresh usable entry answers exactly as the walk does, which writes nothing. */
  lemma HitIsWalk(e: Entry, m: Ram, ctx: Context, va: Vaddr, access: Access)
    requires Usable(e, ctx, e.level, va, access) && Fresh(e, m, ctx.mode, ctx.satp.root, va)
    ensures Walk(m, ctx, va, access) == (Ready(Map(e.level, e.base.frame, va)), m)
  {
    hide Fields;
    LeafFound(m, ctx.mode, ctx.satp.root, TopLevel(ctx.mode), va, false);
    var f := Lookup(m, ctx.mode, ctx.satp.root, va);
    UntouchedWord(ctx.mode, m[f.at], access);
  }

  lemma FilledIsFresh(m: Ram, ctx: Context, va: Vaddr, access: Access)
    requires Walk(m, ctx, va, access).0.Ready?
    ensures var (_, m') := Walk(m, ctx, va, access);
            Fresh(Filled(ctx, va, Lookup(m, ctx.mode, ctx.satp.root, va), access), m', ctx.mode, ctx.satp.root, va)
  {
    hide Fields;
    LeafFound(m, ctx.mode, ctx.satp.root, TopLevel(ctx.mode), va, false);
    var f := Lookup(m, ctx.mode, ctx.satp.root, va);
    TouchKeepsLookup(m, ctx.mode, f.at, access, ctx.satp.root, va);
  }
}
