/** When an access is allowed, where it goes and what it writes, on the bits of the page-table words and on
    addresses as numbers. */
module AccessRules {
  import opened Address
  import opened Paging
  import opened Hart
  import Bits

  /** A flag of a word: V 0x01, R 0x02, W 0x04, X 0x08, U 0x10, G 0x20, A 0x40, D 0x80. */
  predicate On(w: nat, flag: nat)
    requires flag > 0
  {
    w / flag % 2 == 1
  }

  /** Valid, not write-only, and for Sv39 without reserved bits. */
  predicate WellFormed(mode: Mode, w: nat) {
    On(w, 0x01) && (On(w, 0x04) ==> On(w, 0x02)) && (mode == Sv39 ==> w / 0x40_0000_0000_0000 % 0x400 == 0)
  }

  predicate LeafFlags(w: nat) { On(w, 0x02) || On(w, 0x08) }

  /** A reference to the next table has no U, A or D. */
  predicate TableFlags(w: nat) { !LeafFlags(w) && !On(w, 0x10) && !On(w, 0x40) && !On(w, 0x80) }

  /** The 22- or 44-bit page number of a word. */
  function Ppn(mode: Mode, w: nat): nat { w / 0x400 % (if mode == Sv39 then 0x1000_0000_0000 else 0x40_0000) }

  /** The index of va into a table of this level, and the bytes of its entries before that one. */
  function Within(mode: Mode, level: nat, va: nat): nat {
    if mode == Sv39 then va / PageSize(mode, level) % 0x200 * 8 else va / PageSize(mode, level) % 0x400 * 4
  }

  /** From the word at this place and level the tables lead va to a leaf. */
  predicate Leads(m: Ram, mode: Mode, at: Phys, level: nat, va: nat, leaf: Phys, size: nat)
    decreases level
  {
    at in m && WellFormed(mode, m[at]) &&
    if LeafFlags(m[at]) then leaf == at && size == level
    else TableFlags(m[at]) && level > 0 &&
         Leads(m, mode, Physical(mode, Ppn(mode, m[at]) * 0x1000 + Within(mode, level - 1, va)), level - 1, va, leaf,
           size)
  }

  /** They lead to a word that is not backed. */
  predicate LeadsNowhere(m: Ram, mode: Mode, at: Phys, level: nat, va: nat)
    decreases level
  {
    at !in m ||
    (WellFormed(mode, m[at]) && TableFlags(m[at]) && level > 0 &&
     LeadsNowhere(m, mode, Physical(mode, Ppn(mode, m[at]) * 0x1000 + Within(mode, level - 1, va)), level - 1, va))
  }

  /** Fetches need X, loads R or, with MXR, X, stores W; U-mode needs U; S-mode with U needs SUM and no fetch. */
  predicate Grants(w: nat, p: Privilege, sum: bool, mxr: bool, access: Access) {
    (access == Fetch ==> On(w, 0x08)) && (access == Load ==> On(w, 0x02) || (mxr && On(w, 0x08))) &&
    (access == Store ==> On(w, 0x04)) &&
    (p == User ==> On(w, 0x10)) && (p == Supervisor && On(w, 0x10) ==> sum && access != Fetch)
  }

  /** The page number is a multiple of the size of the page in 4 KiB frames. */
  predicate OnItsSize(mode: Mode, w: nat, level: nat) { Ppn(mode, w) * 0x1000 % PageSize(mode, level) == 0 }

  /** Sv39 addresses have bits 63 to 38 all equal. */
  predicate SignExtended(mode: Mode, va: nat) {
    mode == Sv39 ==> va / 0x40_0000_0000 == 0 || va / 0x40_0000_0000 == 0x3FF_FFFF
  }

  /** A set, and D for a store. */
  function Accessed(w: nat, access: Access): nat {
    w + (if On(w, 0x40) then 0 else 0x40) + (if access == Store && !On(w, 0x80) then 0x80 else 0)
  }

  function RootEntry(mode: Mode, satp: Satp, va: nat): Phys { Phys(satp.root, Within(mode, TopLevel(mode), va)) }

  /** The tables lead to a leaf that is aligned to its size and grants the access. */
  predicate Allows(m: Ram, mode: Mode, satp: Satp, p: Privilege, sum: bool, mxr: bool, va: nat, access: Access,
      leaf: Phys, size: nat) {
    SignExtended(mode, va) && Leads(m, mode, RootEntry(mode, satp, va), TopLevel(mode), va, leaf, size) && leaf in m &&
    OnItsSize(mode, m[leaf], size) && Grants(m[leaf], p, sum, mxr, access)
  }

  /** The tables lead to what is not backed: an access fault. */
  predicate Faults(m: Ram, mode: Mode, satp: Satp, va: nat) {
    SignExtended(mode, va) && LeadsNowhere(m, mode, RootEntry(mode, satp, va), TopLevel(mode), va)
  }

  /* ---- the walk in these terms ---- */

  lemma IndexIs(mode: Mode, level: nat, va: nat, table: Frame)
    requires level <= TopLevel(mode)
    ensures PteAddress(mode, table, PageNumber(level, Virtual(mode, va))) == Phys(table, Within(mode, level, va))
    ensures Within(mode, level, va) < 0x1000
  {}

  lemma EntryIs(mode: Mode, ppn: nat, i: nat)
    requires i < 0x1000
    ensures Physical(mode, ppn * 0x1000 + i) == Phys(FrameOf(mode, ppn), i)
  {
    hide FrameOf;
  }

  lemma FlagsAre(mode: Mode, w: nat)
    ensures var p := Fields(mode, w);
            (Malformed(p) <==> !WellFormed(mode, w)) && (IsLeaf(p) <==> LeafFlags(w)) &&
              p.frame == FrameOf(mode, Ppn(mode, w)) &&
            (!IsLeaf(p) ==> (p.u || p.a || p.d <==> !TableFlags(w)))
  {
    hide FrameOf;
  }

  lemma {:induction false} FindIs(m: Ram, mode: Mode, table: Frame, level: nat, va: nat, global: bool, leaf: Phys,
      size: nat)
    requires level <= TopLevel(mode)
    ensures var f, at := FindLeaf(m, mode, table, level, Virtual(mode, va), global),
        Phys(table, Within(mode, level, va));
            (Leads(m, mode, at, level, va, leaf, size) <==> f.Leaf? && f.at == leaf && f.level == size) &&
            (LeadsNowhere(m, mode, at, level, va) <==> f.Unreadable?)
    decreases level
  {
    hide Fields; hide WellFormed; hide LeafFlags; hide TableFlags; hide Malformed; hide IsLeaf; hide Virtual;
    hide Within;
    hide FrameOf; hide Ppn; hide Physical;
    IndexIs(mode, level, va, table);
    var at := Phys(table, Within(mode, level, va));
    if at in m {
      FlagsAre(mode, m[at]);
      var p := Fields(mode, m[at]);
      TableIsNoLeaf(m[at]);
      if !Malformed(p) && !IsLeaf(p) && TableFlags(m[at]) && level > 0 {
        IndexIs(mode, level - 1, va, p.frame);
        EntryIs(mode, Ppn(mode, m[at]), Within(mode, level - 1, va));
        FindIs(m, mode, p.frame, level - 1, va, global || p.g, leaf, size);
      }
    }
  }

  lemma TableIsNoLeaf(w: nat)
    ensures TableFlags(w) ==> !LeafFlags(w)
  {}

  lemma GrantsIs(mode: Mode, w: nat, ctx: Context, access: Access)
    ensures PrivilegeAllows(Fields(mode, w), ctx, access) <==> Grants(w, ctx.privilege, ctx.sum, ctx.mxr, access)
  {
    hide FrameOf;
  }

  lemma Frames(ppn: nat, k: nat)
    requires k > 0
    ensures ppn * 0x1000 % (k * 0x1000) == ppn % k * 0x1000
  {
    var q, r := ppn / k, ppn % k;
    assert ppn * 0x1000 == (k * q + r) * 0x1000 == k * 0x1000 * q + r * 0x1000;
    Bits.ModIs(ppn * 0x1000, k * 0x1000, q, r * 0x1000);
  }

  lemma AlignedIs(mode: Mode, ppn: nat, level: nat)
    requires level <= TopLevel(mode)
    ensures Aligned(level, FrameOf(mode, ppn)) <==> ppn * 0x1000 % PageSize(mode, level) == 0
  {
    if level == 0 { Frames(ppn, 1); }
    else if mode == Sv32 { Frames(ppn, 0x400); }
    else if level == 1 { Frames(ppn, 0x200); }
    else {
      var q := ppn / 0x200;
      Frames(ppn, 0x4_0000);
      Bits.ModIs(ppn, 0x4_0000, q / 0x200, q % 0x200 * 0x200 + ppn % 0x200);
    }
  }

  lemma CanonicalIs(mode: Mode, va: nat)
    ensures Canonical(mode, Virtual(mode, va)) <==> SignExtended(mode, va)
  {
    if mode == Sv39 {
      NestedDivisions(va);
      TopBits(va / 0x4000_0000);
      Quotient38(va);
    }
  }

  lemma Quotient38(va: nat)
    ensures va / 0x40_0000_0000 == va / 0x4000_0000 / 0x100
  {}

  lemma TopBits(q: nat)
    ensures q / 0x100 == 2 * (q / 0x200) + (if q % 0x200 >= 0x100 then 1 else 0)
  {}

  lemma AccessedIs(w: nat, access: Access)
    ensures Touched(w, access) == Accessed(w, access)
  {
    if !Bit(w, 0x40) { SetA(w); FromD(w, w + 0x40); }
  }

  lemma PlaceIs(mode: Mode, ppn: nat, level: nat, va: nat)
    requires level <= TopLevel(mode) && Aligned(level, FrameOf(mode, ppn))
    ensures Value(mode, Map(level, FrameOf(mode, ppn), Virtual(mode, va))) == ppn * 0x1000 + va % PageSize(mode, level)
  {
    hide FrameOf; hide Virtual; hide Map; hide PageSize; hide Value; hide Aligned;
    EntryIs(mode, ppn, 0);
    ValueOfPhysical(mode, ppn * 0x1000);
    MapAddsOffset(mode, level, FrameOf(mode, ppn), va);
  }

  /* ---- translation ---- */

  /** A translation succeeds exactly when the tables lead to a leaf that allows it; then the address is the leaf's
      page plus the offset in it, and of memory only A, and D for a store, is set in that leaf. Otherwise memory
      stays as it is, and the fault is an access fault exactly when the tables lead to what is not backed. */
  lemma TranslateExactly(m: Ram, ctx: Context, va: nat, access: Access)
    ensures var (r, m') := Translate(m, ctx, va, access);
            if ctx.privilege == Machine || !ctx.satp.paged then r == Ready(Physical(ctx.mode, va)) && m' == m
            else
              (r.Ready? <==> exists leaf, size ::
                 Allows(m, ctx.mode, ctx.satp, ctx.privilege, ctx.sum, ctx.mxr, va, access, leaf, size)) &&
              (forall leaf, size :: Allows(m, ctx.mode, ctx.satp, ctx.privilege, ctx.sum, ctx.mxr, va, access, leaf,
                size) ==>
                 Value(ctx.mode, r.address) == Ppn(ctx.mode, m[leaf]) * 0x1000 + va % PageSize(ctx.mode, size) &&
                 m' == m[leaf := Accessed(m[leaf], access)]) &&
              (!r.Ready? ==> m' == m) &&
              (r.AccessFault? <==> Faults(m, ctx.mode, ctx.satp, va))
  {
    hide FindLeaf; hide Leads; hide LeadsNowhere; hide Grants; hide PrivilegeAllows; hide OnItsSize; hide Aligned;
    hide Canonical; hide SignExtended; hide Fields; hide Within; hide Map; hide Value; hide PageSize; hide Touched;
    hide Accessed; hide Ppn; hide Virtual;
    var mode, v := ctx.mode, Virtual(ctx.mode, va);
    CanonicalIs(mode, va);
    var f := Lookup(m, mode, ctx.satp.root, v);
    forall leaf, size
      ensures Leads(m, mode, RootEntry(mode, ctx.satp, va), TopLevel(mode), va, leaf, size)
              <==> f.Leaf? && f.at == leaf && f.level == size
 {
      FindIs(m, mode, ctx.satp.root, TopLevel(mode), va, false, leaf, size);
    }
    FindIs(m, mode, ctx.satp.root, TopLevel(mode), va, false, RootEntry(mode, ctx.satp, va), 0);
    if f.Leaf? {
      FoundLeaf(m, ctx, va, access);
      assert Allows(m, mode, ctx.satp, ctx.privilege, ctx.sum, ctx.mxr, va, access, f.at, f.level) <==>
          SignExtended(mode, va) && Permitted(f.pte, f.level, ctx, access);
    }
  }

  lemma FoundLeaf(m: Ram, ctx: Context, va: nat, access: Access)
    requires Lookup(m, ctx.mode, ctx.satp.root, Virtual(ctx.mode, va)).Leaf?
    ensures var f := Lookup(m, ctx.mode, ctx.satp.root, Virtual(ctx.mode, va));
            f.at in m && f.level <= TopLevel(ctx.mode) &&
            (Permitted(f.pte, f.level, ctx, access) <==>
               OnItsSize(ctx.mode, m[f.at], f.level) && Grants(m[f.at], ctx.privilege, ctx.sum, ctx.mxr, access)) &&
            Touch(m, f.at, access) == m[f.at := Accessed(m[f.at], access)] &&
            (Aligned(f.level, f.pte.frame) ==>
               Value(ctx.mode, Map(f.level, f.pte.frame, Virtual(ctx.mode, va)))
               == Ppn(ctx.mode, m[f.at]) * 0x1000 + va % PageSize(ctx.mode, f.level))
  {
    hide FindLeaf; hide Grants; hide PrivilegeAllows; hide Aligned; hide Fields; hide Map; hide Value; hide PageSize;
    hide Touched; hide Accessed; hide Ppn; hide Virtual; hide FrameOf;
    LeafFound(m, ctx.mode, ctx.satp.root, TopLevel(ctx.mode), Virtual(ctx.mode, va), false);
    var f := Lookup(m, ctx.mode, ctx.satp.root, Virtual(ctx.mode, va));
    FlagsAre(ctx.mode, m[f.at]);
    GrantsIs(ctx.mode, m[f.at], ctx, access);
    AlignedIs(ctx.mode, Ppn(ctx.mode, m[f.at]), f.level);
    AccessedIs(m[f.at], access);
    if Aligned(f.level, f.pte.frame) { PlaceIs(ctx.mode, Ppn(ctx.mode, m[f.at]), f.level, va); }
  }

  /** In a hart a fetch goes by its privilege; loads and stores by MPP while MPRV is set; SUM and MXR are mstatus's. */
  lemma HartTranslates(xlen: Xlen, h: Hart, m: Ram, va: nat, access: Access)
    ensures var (r, m') := Translate(m, ContextOf(xlen, h, access), va, access);
            var mode := if xlen == Rv32 then Sv32 else Sv39;
            var p := if access != Fetch && h.status.mprv then h.status.mpp else h.privilege;
            if p == Machine || !h.satp.paged then r == Ready(Physical(mode, va)) && m' == m
            else
              (r.Ready? <==> exists leaf, size ::
                Allows(m, mode, h.satp, p, h.status.sum, h.status.mxr, va, access, leaf, size)) &&
              (forall leaf, size :: Allows(m, mode, h.satp, p, h.status.sum, h.status.mxr, va, access, leaf, size) ==>
                 Value(mode, r.address) == Ppn(mode, m[leaf]) * 0x1000 + va % PageSize(mode, size) &&
                 m' == m[leaf := Accessed(m[leaf], access)]) &&
              (!r.Ready? ==> m' == m) &&
              (r.AccessFault? <==> Faults(m, mode, h.satp, va))
  {
    hide Translate; hide Allows; hide Faults; hide Accessed; hide Value; hide Ppn; hide PageSize; hide SignExtended;
    TranslateExactly(m, ContextOf(xlen, h, access), va, access);
  }
}
