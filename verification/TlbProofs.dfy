/** The cache gives what the reference walk gives, as long as fences follow table edits. */
module TlbProofs {
  import opened Wrappers
  import opened Address
  import opened Paging
  import opened Tlb

  /* ---- coherence of every valid entry with the page tables ---- */

  /** An address space in use: what satp selects. */
  datatype Space = Space(asid: nat, root: Frame)

  /** Roots in use share the leaf words of their global mappings. */
  ghost predicate GlobalsShared(m: Ram, mode: Mode, spaces: set<Space>) {
    forall s, s', va :: s in spaces && s' in spaces ==>
      var f := Lookup(m, mode, s.root, va);
      f.Leaf? && f.global ==> Lookup(m, mode, s'.root, va) == f
  }

  /** The tables of the entry's own root lead from its page to the leaf it was filled from. */
  ghost predicate EntryCoherent(e: Entry, m: Ram, mode: Mode, spaces: set<Space>) {
    e.valid ==> Space(e.asid, e.root) in spaces && e.page == Page(e.level, e.page) && Fresh(e, m, mode, e.root, e.page)
  }

  ghost predicate Coherent(t: Cache, m: Ram, mode: Mode, spaces: set<Space>) {
    Shaped(t) && forall i :: 0 <= i < 64 ==> EntryCoherent(t.entries[i], m, mode, spaces)
  }

  lemma PageOfPage(level: nat, va: Vaddr)
    ensures Page(level, Page(level, va)) == Page(level, va)
  {}

  lemma TaggedIsFresh(e: Entry, m: Ram, ctx: Context, va: Vaddr, spaces: set<Space>)
    requires EntryCoherent(e, m, ctx.mode, spaces) && GlobalsShared(m, ctx.mode, spaces)
    requires Space(ctx.satp.asid, ctx.satp.root) in spaces && Tagged(e, ctx, e.level, va)
    ensures Fresh(e, m, ctx.mode, ctx.satp.root, va)
  {
    hide FindLeaf;
    PageOfPage(e.level, va);
    SamePageLookup(m, ctx.mode, e.root, e.page, va);
    var s, s' := Space(e.asid, e.root), Space(ctx.satp.asid, ctx.satp.root);
    assert s.root == e.root && s'.root == ctx.satp.root;
  }

  /** A and D updates keep every entry coherent. */
  lemma TouchKeepsEntry(e: Entry, m: Ram, mode: Mode, at: Phys, access: Access, spaces: set<Space>)
    requires EntryCoherent(e, m, mode, spaces) && LeafWord(m, mode, at)
    ensures EntryCoherent(e, Touch(m, at, access), mode, spaces)
  {
    hide FindLeaf;
    TouchKeepsLookup(m, mode, at, access, e.root, e.page);
  }

  lemma TouchKeepsShared(m: Ram, mode: Mode, at: Phys, access: Access, spaces: set<Space>)
    requires GlobalsShared(m, mode, spaces) && LeafWord(m, mode, at)
    ensures GlobalsShared(Touch(m, at, access), mode, spaces)
  {
    hide FindLeaf;
    var m' := Touch(m, at, access);
    forall s, s', va | s in spaces && s' in spaces
      ensures var f := Lookup(m', mode, s.root, va);
              f.Leaf? && f.global ==> Lookup(m', mode, s'.root, va) == f
    {
      TouchKeepsLookup(m, mode, at, access, s.root, va);
      TouchKeepsLookup(m, mode, at, access, s'.root, va);
    }
  }

  /** The cache in front of the walk is invisible: same result and same memory for every
      address, access and privilege state, and the cache stays coherent. */
  lemma CacheRefinesWalk(t: Cache, m: Ram, ctx: Context, va: nat, access: Access, spaces: set<Space>)
    requires Coherent(t, m, ctx.mode, spaces) && GlobalsShared(m, ctx.mode, spaces)
    requires Space(ctx.satp.asid, ctx.satp.root) in spaces
    ensures var (result, m', t') := CachedTranslate(t, m, ctx, va, access);
            (result, m') == Translate(m, ctx, va, access) &&
            Coherent(t', m', ctx.mode, spaces) && GlobalsShared(m', ctx.mode, spaces)
  {
    hide FindLeaf;
    hide Fields;
    var v := Virtual(ctx.mode, va);
    if !Bare(ctx) && Canonical(ctx.mode, v) {
      var hit := Probe(t, ctx, v, access, 0);
      if hit.Some? {
        var e := t.entries[hit.value];
        TaggedIsFresh(e, m, ctx, v, spaces);
        HitIsWalk(e, m, ctx, v, access);
      } else if Walk(m, ctx, v, access).0.Ready? {
        FillKeepsCoherent(t, m, ctx, v, access, spaces);
      }
    }
  }

  lemma FillKeepsCoherent(t: Cache, m: Ram, ctx: Context, v: Vaddr, access: Access, spaces: set<Space>)
    requires Coherent(t, m, ctx.mode, spaces) && GlobalsShared(m, ctx.mode, spaces)
    requires Space(ctx.satp.asid, ctx.satp.root) in spaces && Walk(m, ctx, v, access).0.Ready?
    ensures var m' := Walk(m, ctx, v, access).1;
            var e := Filled(ctx, v, Lookup(m, ctx.mode, ctx.satp.root, v), access);
            Coherent(Insert(t, ctx.mode, e), m', ctx.mode, spaces) && GlobalsShared(m', ctx.mode, spaces)
  {
    hide FindLeaf;
    hide Fields;
    var f := Lookup(m, ctx.mode, ctx.satp.root, v);
    var m' := Walk(m, ctx, v, access).1;
    var e := Filled(ctx, v, f, access);
    WalkLeaf(m, ctx, v);
    FilledIsFresh(m, ctx, v, access);
    PageOfPage(f.level, v);
    SamePageLookup(m', ctx.mode, ctx.satp.root, v, e.page);
    TouchKeepsShared(m, ctx.mode, f.at, access, spaces);
    forall i | 0 <= i < 64 ensures EntryCoherent(t.entries[i], m', ctx.mode, spaces) {
      TouchKeepsEntry(t.entries[i], m, ctx.mode, f.at, access, spaces);
    }
  }

  lemma WalkLeaf(m: Ram, ctx: Context, v: Vaddr)
    requires Lookup(m, ctx.mode, ctx.satp.root, v).Leaf?
    ensures var f := Lookup(m, ctx.mode, ctx.satp.root, v);
            LeafWord(m, ctx.mode, f.at) && f.level <= TopLevel(ctx.mode) && f.pte == Fields(ctx.mode, m[f.at])
  {
    LeafFound(m, ctx.mode, ctx.satp.root, TopLevel(ctx.mode), v, false);
  }

  /* ---- SFENCE.VMA ---- */

  /** The mapping of va in a space is one that the fence is about. */
  ghost predicate InScope(f: Find, s: Space, mode: Mode, va: Vaddr, address: Option<nat>, asid: Option<nat>)
    requires f.Leaf?
  {
    (asid.Some? ==> !f.global && s.asid == asid.value) &&
    (address.Some? ==> Page(f.level, Virtual(mode, address.value)) == Page(f.level, va))
  }

  /** The edit from m to m' leaves every mapping outside the scope alone, A and D growth aside. */
  ghost predicate ChangesOnlyInScope(m: Ram, m': Ram, mode: Mode, spaces: set<Space>, address: Option<nat>,
      asid: Option<nat>) {
    forall s, va :: s in spaces ==>
      var f := Lookup(m, mode, s.root, va);
      f.Leaf? && !InScope(f, s, mode, va, address, asid) ==>
        var f' := Lookup(m', mode, s.root, va);
        f'.Leaf? && f'.level == f.level && f'.global == f.global && Grown(f.pte, f'.pte)
  }

  lemma FenceEntryRestores(e: Entry, m: Ram, m': Ram, mode: Mode, spaces: set<Space>, address: Option<nat>,
      asid: Option<nat>)
    requires EntryCoherent(e, m, mode, spaces) && ChangesOnlyInScope(m, m', mode, spaces, address, asid)
    ensures EntryCoherent(FenceEntry(e, mode, address, asid), m', mode, spaces)
  {
    hide FindLeaf;
    hide Virtual;
    var s := Space(e.asid, e.root);
    if e.valid && !Fenced(e, mode, address, asid) {
      assert s in spaces && s.root == e.root;
      assert !InScope(Lookup(m, mode, s.root, e.page), s, mode, e.page, address, asid);
    }
  }

  /** For each of the four scopes: after the fence the surviving entries agree with the edited
      tables, and exactly the valid entries outside the scope survive, unchanged. */
  lemma FenceRestores(t: Cache, m: Ram, m': Ram, mode: Mode, spaces: set<Space>, address: Option<nat>,
      asid: Option<nat>)
    requires Coherent(t, m, mode, spaces) && ChangesOnlyInScope(m, m', mode, spaces, address, asid)
    ensures Coherent(Fence(t, mode, address, asid), m', mode, spaces)
    ensures forall i :: 0 <= i < 64 ==>
      var e, e' := t.entries[i], Fence(t, mode, address, asid).entries[i];
      (e'.valid <==> e.valid && !Fenced(e, mode, address, asid)) && (e'.valid ==> e' == e)
  {
    forall i | 0 <= i < 64 ensures EntryCoherent(FenceEntry(t.entries[i], mode, address, asid), m', mode, spaces) {
      FenceEntryRestores(t.entries[i], m, m', mode, spaces, address, asid);
    }
  }

  /* ---- after a fill the same access hits ---- */

  lemma WayFound(t: Cache, ctx: Context, level: nat, va: Vaddr, access: Access, row: nat, way: nat, i: nat)
    requires Shaped(t) && row < 16 && way <= 4 && row * 4 + way <= i < row * 4 + 4
    requires Usable(t.entries[i], ctx, level, va, access)
    ensures FindWay(t, ctx, level, va, access, row, way).Some?
  {}

  lemma {:induction false} ProbeFound(t: Cache, ctx: Context, va: Vaddr, access: Access, level: nat, l: nat)
    requires Shaped(t) && level <= l <= TopLevel(ctx.mode)
    requires FindWay(t, ctx, l, va, access, SetOf(ctx.mode, l, Page(l, va)), 0).Some?
    ensures Probe(t, ctx, va, access, level).Some?
    decreases l - level
  {
    hide SetOf;
    hide FindWay;
    if level < l && FindWay(t, ctx, level, va, access, SetOf(ctx.mode, level, Page(level, va)), 0).None? {
      ProbeFound(t, ctx, va, access, level + 1, l);
    }
  }

  /** An inserted entry is in its set. */
  lemma InsertedAt(t: Cache, mode: Mode, e: Entry) returns (slot: nat)
    requires Shaped(t)
    ensures var row := SetOf(mode, e.level, e.page);
            row * 4 <= slot < row * 4 + 4 && slot < 64 && Insert(t, mode, e).entries[slot] == e
  {
    hide SetOf;
    var row := SetOf(mode, e.level, e.page);
    match FindSlot(t, e, row, 0)
    case Some(i) => slot := i;
    case None => slot := row * 4 + t.ways[row] % 4;
  }

  /** Translating again after a translation that succeeded finds the cache ready:
      it changes neither the cache nor memory. */
  lemma SecondTranslationHits(t: Cache, m: Ram, ctx: Context, va: nat, access: Access)
    requires Shaped(t) && CachedTranslate(t, m, ctx, va, access).0.Ready? && !Bare(ctx)
    ensures var (_, m', t') := CachedTranslate(t, m, ctx, va, access);
            Probe(t', ctx, Virtual(ctx.mode, va), access, 0).Some? &&
            var (_, m'', t'') := CachedTranslate(t', m', ctx, va, access); m'' == m' && t'' == t'
  {
    hide FindLeaf;
    hide Fields;
    hide SetOf;
    hide Virtual;
    hide FindWay;
    var v := Virtual(ctx.mode, va);
    if Probe(t, ctx, v, access, 0).None? {
      var f := Lookup(m, ctx.mode, ctx.satp.root, v);
      WalkLeaf(m, ctx, v);
      var e := Filled(ctx, v, f, access);
      var row := SetOf(ctx.mode, e.level, e.page);
      var t' := Insert(t, ctx.mode, e);
      var slot := InsertedAt(t, ctx.mode, e);
      WayFound(t', ctx, e.level, v, access, row, 0, slot);
      ProbeFound(t', ctx, v, access, 0, e.level);
    }
  }

  /* ---- replacement ---- */

  /** The slot that an insertion takes: the first of its set that it may reuse, or else the set's victim. */
  predicate Takes(t: Cache, mode: Mode, e: Entry, slot: nat)
    requires Shaped(t)
  {
    var row := SetOf(mode, e.level, e.page);
    row * 4 <= slot < row * 4 + 4 &&
    if exists i :: row * 4 <= i < row * 4 + 4 && Reusable(t.entries[i], e) then
      Reusable(t.entries[slot], e) && forall i :: row * 4 <= i < slot ==> !Reusable(t.entries[i], e)
    else slot == row * 4 + t.ways[row] % 4
  }

  lemma {:induction false} SlotIsFirst(t: Cache, e: Entry, row: nat, way: nat)
    requires Shaped(t) && row < 16 && way <= 4
    ensures match FindSlot(t, e, row, way)
            case None => forall i :: row * 4 + way <= i < row * 4 + 4 ==> !Reusable(t.entries[i], e)
            case Some(s) => Reusable(t.entries[s], e) && forall i ::
                row * 4 + way <= i < s ==> !Reusable(t.entries[i], e)
    decreases 4 - way
  {
    hide Reusable;
    if way < 4 { SlotIsFirst(t, e, row, way + 1); }
  }

  /** An insertion changes one entry; a reused slot leaves the replacement order alone, and a victim is followed by
      the next way of its set, so that four victims in a row are the four ways. */
  lemma InsertReplaces(t: Cache, mode: Mode, e: Entry)
    requires Shaped(t)
    ensures exists slot: nat ::
              slot < 64 && Takes(t, mode, e, slot) && Insert(t, mode, e).entries == t.entries[slot := e]
    ensures var row := SetOf(mode, e.level, e.page);
            Insert(t, mode, e).ways ==
              if exists i :: row * 4 <= i < row * 4 + 4 && Reusable(t.entries[i], e) then t.ways
              else t.ways[row := (t.ways[row] % 4 + 1) % 4]
  {
    hide SetOf; hide Reusable;
    var row := SetOf(mode, e.level, e.page);
    SlotIsFirst(t, e, row, 0);
    match FindSlot(t, e, row, 0)
    case Some(s) => assert Takes(t, mode, e, s);
    case None => assert Takes(t, mode, e, row * 4 + t.ways[row] % 4) && row * 4 + t.ways[row] % 4 < 64;
  }

  /* ---- coherence without shared leaf words ---- */

  /** The tables of this root map va as the entry says, whatever their A and D bits. */
  predicate SameMapping(e: Entry, m: Ram, mode: Mode, root: Frame, va: Vaddr) {
    var f := Lookup(m, mode, root, va);
    f.Leaf? && f.level == e.level && e.pte.(a := f.pte.a, d := f.pte.d) == f.pte &&
    Aligned(e.level, e.pte.frame) && e.base == Phys(e.pte.frame, 0)
  }

  /** When roots only agree on a global mapping but keep separate leaf words, a hit still gives
      the walk's address; it leaves the walk's memory exactly when the leaf word that this
      root reaches already has the A and D bits the access needs. */
  lemma UnsharedHit(e: Entry, m: Ram, ctx: Context, va: Vaddr, access: Access)
    requires Usable(e, ctx, e.level, va, access) && SameMapping(e, m, ctx.mode, ctx.satp.root, va)
    ensures Walk(m, ctx, va, access).0 == Ready(Map(e.level, e.base.frame, va))
    ensures Walk(m, ctx, va, access).1 == m
            <==> (var f := Lookup(m, ctx.mode, ctx.satp.root, va); f.pte.a && (access == Store ==> f.pte.d))
  {
    hide Fields;
    WalkLeaf(m, ctx, va);
    var f := Lookup(m, ctx.mode, ctx.satp.root, va);
    if f.pte.a && (access == Store ==> f.pte.d) {
      UntouchedWord(ctx.mode, m[f.at], access);
    } else {
      TouchedFields(ctx.mode, m[f.at], access);
      assert Touched(m[f.at], access) != m[f.at];
      assert Walk(m, ctx, va, access).1[f.at] != m[f.at];
    }
  }

  /** Two roots that map the first 4 MiB alike and globally, each by its own leaf word; only the first
      root's has A set. */
  const TwoRoots: Ram := map[Phys(Frame(0, 0, 1), 0) := 0x6F, Phys(Frame(0, 0, 2), 0) := 0x2F]

  function RootContext(i: nat): Context { Context(Sv32, Satp(true, i, Frame(0, 0, i)), Supervisor, false, false) }

  function ZeroPage(a: bool): Pte { Pte(true, true, true, true, false, true, a, false, false, Frame(0, 0, 0)) }

  lemma RootsLookup(i: nat)
    requires i == 1 || i == 2
    ensures Lookup(TwoRoots, Sv32, Frame(0, 0, i), Virtual(Sv32, 0)) ==
        Leaf(Phys(Frame(0, 0, i), 0), ZeroPage(i == 1), 1, true)
  {
    assert Fields(Sv32, 0x6F) == ZeroPage(true) && Fields(Sv32, 0x2F) == ZeroPage(false);
  }

  /** The leaf that an access through the first root leaves in a cache. */
  function ZeroEntry(): Entry {
    Entry(true, true, 1, 1, Frame(0, 0, 1), Page(1, Virtual(Sv32, 0)), Phys(Frame(0, 0, 0), 0), ZeroPage(true))
  }

  lemma FirstWalk()
    ensures var c1, v := RootContext(1), Virtual(Sv32, 0);
            Walk(TwoRoots, c1, v, Load).0.Ready? && Walk(TwoRoots, c1, v, Load).1 == TwoRoots &&
            Filled(c1, v, Lookup(TwoRoots, Sv32, Frame(0, 0, 1), v), Load) == ZeroEntry()
  {
    hide FindLeaf;
    RootsLookup(1);
    assert Touched(0x6F, Load) == 0x6F;
  }

  lemma FirstFills()
    ensures CachedTranslate(Empty(), TwoRoots, RootContext(1), 0, Load).1 == TwoRoots
    ensures CachedTranslate(Empty(), TwoRoots, RootContext(1), 0, Load).2 == Insert(Empty(), Sv32, ZeroEntry())
  {
    hide FindLeaf; hide SetOf; hide FindWay; hide Virtual; hide Insert; hide ZeroEntry; hide Walk; hide Filled;
    FirstWalk();
    assert Probe(Empty(), RootContext(1), Virtual(Sv32, 0), Load, 0).None?;
  }

  lemma SecondHits()
    ensures var t1 := Insert(Empty(), Sv32, ZeroEntry());
            var i := Probe(t1, RootContext(2), Virtual(Sv32, 0), Load, 0);
            i.Some? && t1.entries[i.value] == ZeroEntry()
  {
    hide SetOf; hide FindWay; hide Virtual;
    var e, v := ZeroEntry(), Virtual(Sv32, 0);
    var row := SetOf(Sv32, 1, e.page);
    var t1 := Insert(Empty(), Sv32, e);
    var slot := InsertedAt(Empty(), Sv32, e);
    WayFound(t1, RootContext(2), 1, v, Load, row, 0, slot);
    ProbeFound(t1, RootContext(2), v, Load, 0, 1);
  }

  /** So the cache is not invisible without shared leaf words: after an access through the first root
      fills it, the same access through the second hits and skips the A update that the walk makes. */
  lemma UnsharedMisses()
    ensures var (_, m1, t1) := CachedTranslate(Empty(), TwoRoots, RootContext(1), 0, Load);
            m1 == TwoRoots && CachedTranslate(t1, m1, RootContext(2), 0, Load).1 == m1 &&
            Translate(m1, RootContext(2), 0, Load).1 != m1 &&
            CachedTranslate(t1, m1, RootContext(2), 0, Load).0 == Translate(m1, RootContext(2), 0, Load).0
  {
    hide FindLeaf; hide SetOf; hide FindWay; hide Fields; hide Virtual; hide Probe; hide TwoRoots; hide Insert;
    hide Walk;
    RootsLookup(2);
    FirstFills();
    SecondHits();
    UnsharedHit(ZeroEntry(), TwoRoots, RootContext(2), Virtual(Sv32, 0), Load);
  }

  /* ---- the translations that may still be cached ---- */

  // live holds every leaf that some translation reached since the last fence for it: what an
  // unbounded cache would hold, and so what software must fence before it edits.

  ghost predicate Covered(t: Cache, live: set<Entry>) {
    Shaped(t) && forall i :: 0 <= i < 64 && t.entries[i].valid ==> t.entries[i] in live
  }

  /** Every live leaf that a cache could use for this access to va agrees with the tables. Leaves
      that lack a permission, an A or a D that the access needs may be out of date. */
  ghost predicate LiveFresh(live: set<Entry>, m: Ram, ctx: Context, va: Vaddr, access: Access) {
    forall e :: e in live && Usable(e, ctx, e.level, va, access) ==> Fresh(e, m, ctx.mode, ctx.satp.root, va)
  }

  /** The discipline at one use of an address. */
  ghost predicate MayTranslate(live: set<Entry>, m: Ram, ctx: Context, va: nat, access: Access) {
    Bare(ctx) || !Canonical(ctx.mode, Virtual(ctx.mode, va)) || LiveFresh(live, m, ctx, Virtual(ctx.mode, va), access)
  }

  function LiveAfter(live: set<Entry>, m: Ram, ctx: Context, va: nat, access: Access): set<Entry> {
    var v := Virtual(ctx.mode, va);
    if Bare(ctx) || !Canonical(ctx.mode, v) || !Walk(m, ctx, v, access).0.Ready? then live
    else live + {Filled(ctx, v, Lookup(m, ctx.mode, ctx.satp.root, v), access)}
  }

  function LiveFenced(live: set<Entry>, mode: Mode, address: Option<nat>, asid: Option<nat>): set<Entry> {
    set e | e in live && !Fenced(e, mode, address, asid)
  }

  lemma CoveredTranslates(t: Cache, live: set<Entry>, m: Ram, ctx: Context, va: nat, access: Access)
    requires Covered(t, live) && MayTranslate(live, m, ctx, va, access)
    ensures var (result, m', t') := CachedTranslate(t, m, ctx, va, access);
            (result, m') == Translate(m, ctx, va, access) && Covered(t', LiveAfter(live, m, ctx, va, access))
  {
    hide FindLeaf;
    hide Fields;
    hide SetOf;
    var v := Virtual(ctx.mode, va);
    if !Bare(ctx) && Canonical(ctx.mode, v) {
      var hit := Probe(t, ctx, v, access, 0);
      if hit.Some? {
        HitIsWalk(t.entries[hit.value], m, ctx, v, access);
      }
    }
  }

  lemma CoveredFences(t: Cache, live: set<Entry>, mode: Mode, address: Option<nat>, asid: Option<nat>)
    requires Covered(t, live)
    ensures Covered(Fence(t, mode, address, asid), LiveFenced(live, mode, address, asid))
  {}
}
