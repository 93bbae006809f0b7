/** Page tables, the reference walk and what it depends on. One definition serves both
    cores: Sv32 (two levels, 4-byte entries) and Sv39 (three levels, 8-byte entries). */
module Paging {
  import opened Address
  import Bits

  /** RAM as the page walker sees it: naturally aligned words, by physical address.
      An address with no word is not backed and faults on the bus. */
  type Ram = map<Phys, nat>

  datatype Privilege = User | Supervisor | Machine
  datatype Access = Fetch | Load | Store

  /** A sanitized satp: whether it selects paging, the address space, the root table. */
  datatype Satp = Satp(paged: bool, asid: nat, root: Frame)

  /* ---- satp and privilege as the program encodes them ---- */

  function SatpWord(mode: Mode, s: Satp): nat {
    if !s.paged then 0
    else match mode
      case Sv32 => 0x8000_0000 + s.asid * 0x40_0000 + s.root.h1 * 0x400 + s.root.h0
      case Sv39 =>
        0x8000_0000_0000_0000 + s.asid * 0x1000_0000_0000 + s.root.h2 * 0x4_0000 + s.root.h1 * 0x200 + s.root.h0
  }

  function PrivilegeCode(p: Privilege): nat {
    match p case User => 0 case Supervisor => 1 case Machine => 3
  }

  /** What a translation depends on besides memory and the address. */
  datatype Context = Context(
    mode: Mode,
    satp: Satp,
    privilege: Privilege,
    sum: bool,          // mstatus.SUM
    mxr: bool)          // mstatus.MXR

  datatype Translation = Ready(address: Phys) | PageFault | AccessFault

  /** The fields of a page-table entry. */
  datatype Pte = Pte(v: bool, r: bool, w: bool, x: bool, u: bool, g: bool, a: bool, d: bool,
                     reserved: bool, frame: Frame)

  predicate Bit(word: nat, weight: nat)
    requires weight > 0
  {
    word / weight % 2 == 1
  }

  function Fields(mode: Mode, word: nat): Pte {
    Pte(Bit(word, 0x01), Bit(word, 0x02), Bit(word, 0x04), Bit(word, 0x08),
        Bit(word, 0x10), Bit(word, 0x20), Bit(word, 0x40), Bit(word, 0x80),
        mode == Sv39 && word / 0x40_0000_0000_0000 % 0x400 != 0,
        FrameOf(mode, if mode == Sv39 then word / 0x400 % 0x1000_0000_0000 else word / 0x400 % 0x40_0000))
  }

  predicate Malformed(p: Pte) { !p.v || (!p.r && p.w) || p.reserved }

  predicate IsLeaf(p: Pte) { p.r || p.x }

  predicate PrivilegeAllows(p: Pte, ctx: Context, access: Access) {
    (ctx.privilege == User ==> p.u) &&
    (ctx.privilege == Supervisor && p.u ==> access != Fetch && ctx.sum) &&
    match access
      case Fetch => p.x
      case Load => p.r || (ctx.mxr && p.x)
      case Store => p.w
  }

  /** Sv39 addresses sign-extend bit 38, the top bit of p2; every Sv32 address is canonical. */
  predicate Canonical(mode: Mode, va: Vaddr) {
    mode == Sv39 ==> va.high == (if va.p2 >= 0x100 then 0x1FF_FFFF else 0)
  }

  /** The address of an entry of a table, by page number. */
  function PteAddress(mode: Mode, table: Frame, number: nat): Phys {
    Phys(table, if mode == Sv32 then number * 4 else number * 8)
  }

  /** Where a walk ends: a leaf entry, a page fault, or an unreadable table. */
  datatype Find = Leaf(at: Phys, pte: Pte, level: nat, global: bool) | Invalid | Unreadable

  function FindLeaf(m: Ram, mode: Mode, table: Frame, level: nat, va: Vaddr, global: bool): Find
    decreases level
  {
    var at := PteAddress(mode, table, PageNumber(level, va));
    if at !in m then Unreadable
    else
      var p := Fields(mode, m[at]);
      if Malformed(p) then Invalid
      else if IsLeaf(p) then Leaf(at, p, level, global || p.g)
      else if p.u || p.a || p.d || level == 0 then Invalid
      else FindLeaf(m, mode, p.frame, level - 1, va, global || p.g)
  }

  function Lookup(m: Ram, mode: Mode, root: Frame, va: Vaddr): Find {
    FindLeaf(m, mode, root, TopLevel(mode), va, false)
  }

  predicate Permitted(p: Pte, level: nat, ctx: Context, access: Access) {
    Aligned(level, p.frame) && PrivilegeAllows(p, ctx, access)
  }

  /** The word with a bit set. */
  function WithBit(word: nat, weight: nat): nat
    requires weight > 0
  {
    if Bit(word, weight) then word else word + weight
  }

  /** The entry with the accessed bit, and for a store the dirty bit, set. */
  function Touched(word: nat, access: Access): nat {
    if access == Store then WithBit(WithBit(word, 0x40), 0x80) else WithBit(word, 0x40)
  }

  function Touch(m: Ram, at: Phys, access: Access): Ram {
    if at in m && Touched(m[at], access) != m[at] then m[at := Touched(m[at], access)] else m
  }

  /** The reference walk: its result and the memory it leaves. */
  function Walk(m: Ram, ctx: Context, va: Vaddr, access: Access): (Translation, Ram) {
    match Lookup(m, ctx.mode, ctx.satp.root, va)
    case Unreadable => (AccessFault, m)
    case Invalid => (PageFault, m)
    case Leaf(at, p, level, _) =>
      if !Permitted(p, level, ctx, access) then (PageFault, m)
      else (Ready(Map(level, p.frame, va)), Touch(m, at, access))
  }

  predicate Bare(ctx: Context) { ctx.privilege == Machine || !ctx.satp.paged }

  /** translate_address of both cores. */
  function Translate(m: Ram, ctx: Context, va: nat, access: Access): (Translation, Ram) {
    if Bare(ctx) then (Ready(Physical(ctx.mode, va)), m)
    else if !Canonical(ctx.mode, Virtual(ctx.mode, va)) then (PageFault, m)
    else Walk(m, ctx, Virtual(ctx.mode, va), access)
  }

  /* ---- what setting A and D leaves alone ---- */

  function TouchedPte(p: Pte, access: Access): Pte {
    p.(a := true, d := p.d || access == Store)
  }

  /** now is was with possibly more of A and D set. */
  predicate Grown(was: Pte, now: Pte) {
    was.(a := now.a, d := now.d) == now && (was.a ==> now.a) && (was.d ==> now.d)
  }

  /** A word by its parts around the bit of this weight. */
  lemma SetA(w: nat)
    requires !Bit(w, 0x40)
    ensures var x := w + 0x40;
            Bit(x, 0x40) && x / 0x80 == w / 0x80 && x % 0x40 == w % 0x40
  {
    var q := w / 0x80;
    assert w == q * 0x80 + w % 0x80;
  }

  lemma SetD(w: nat)
    requires !Bit(w, 0x80)
    ensures var x := w + 0x80;
            Bit(x, 0x80) && x / 0x100 == w / 0x100 && x % 0x80 == w % 0x80
  {
    var q := w / 0x100;
    assert w == q * 0x100 + w % 0x100;
  }

  /** The low bits of a word depend on it modulo their weight's double. */
  lemma LowBits(w: nat, x: nat)
    requires w % 0x40 == x % 0x40
    ensures Bit(w, 0x01) == Bit(x, 0x01) && Bit(w, 0x02) == Bit(x, 0x02) && Bit(w, 0x04) == Bit(x, 0x04)
    ensures Bit(w, 0x08) == Bit(x, 0x08) && Bit(w, 0x10) == Bit(x, 0x10) && Bit(w, 0x20) == Bit(x, 0x20)
  {
    LowBit(w); LowBit(x);
  }

  lemma LowBit(w: nat)
    ensures var r := w % 0x40;
            Bit(w, 0x01) == Bit(r, 0x01) && Bit(w, 0x02) == Bit(r, 0x02) && Bit(w, 0x04) == Bit(r, 0x04) &&
            Bit(w, 0x08) == Bit(r, 0x08) && Bit(w, 0x10) == Bit(r, 0x10) && Bit(w, 0x20) == Bit(r, 0x20)
  {
    hide Bit;
    var q, r := w / 0x40, w % 0x40;
    assert w == 0x40 * q + r;
    LowBit1(w); LowBit2(w); LowBit4(w); LowBit8(q, r); LowBit10(q, r); LowBit20(q, r);
  }

  lemma LowBit1(w: nat)
    ensures Bit(w, 0x01) == Bit(w % 0x40, 0x01)
  {}

  lemma LowBit2(w: nat)
    ensures Bit(w, 0x02) == Bit(w % 0x40, 0x02)
  {}

  lemma LowBit4(w: nat)
    ensures Bit(w, 0x04) == Bit(w % 0x40, 0x04)
  {}

  /** An even part added to a number leaves its parity alone. */
  lemma Parity(x: nat, t: nat)
    ensures (2 * x + t) % 2 == t % 2
  {}

  lemma Quotient8(q: nat, r: nat)
    ensures (0x40 * q + r) / 0x08 == 8 * q + r / 0x08
  {}

  lemma Quotient10(q: nat, r: nat)
    ensures (0x40 * q + r) / 0x10 == 4 * q + r / 0x10
  {}

  lemma Quotient20(q: nat, r: nat)
    ensures (0x40 * q + r) / 0x20 == 2 * q + r / 0x20
  {}

  lemma LowBit8(q: nat, r: nat)
    ensures Bit(0x40 * q + r, 0x08) == Bit(r, 0x08)
  {
    Quotient8(q, r);
    Parity(4 * q, r / 0x08);
  }

  lemma LowBit10(q: nat, r: nat)
    ensures Bit(0x40 * q + r, 0x10) == Bit(r, 0x10)
  {
    Quotient10(q, r);
    Parity(2 * q, r / 0x10);
  }

  lemma LowBit20(q: nat, r: nat)
    ensures Bit(0x40 * q + r, 0x20) == Bit(r, 0x20)
  {
    Quotient20(q, r);
    Parity(q, r / 0x20);
  }

  /** The fields above the flag bits depend on the word above them. */
  lemma HighParts(w: nat, x: nat)
    requires w / 0x100 == x / 0x100
    ensures w / 0x400 == x / 0x400 && w / 0x40_0000_0000_0000 == x / 0x40_0000_0000_0000
  {
    HighPart(w); HighPart(x);
  }

  lemma HighPart(w: nat)
    ensures w / 0x400 == w / 0x100 / 4 && w / 0x40_0000_0000_0000 == w / 0x100 / 0x4000_0000_0000
  {}

  lemma FieldsWithA(mode: Mode, w: nat)
    ensures Fields(mode, WithBit(w, 0x40)) == Fields(mode, w).(a := true)
  {
    hide FrameOf;
    if !Bit(w, 0x40) {
      SetA(w);
      FromD(w, w + 0x40);
      LowBits(w, w + 0x40);
      HighParts(w, w + 0x40);
    }
  }

  lemma FromD(w: nat, x: nat)
    requires w / 0x80 == x / 0x80
    ensures Bit(w, 0x80) == Bit(x, 0x80) && w / 0x100 == x / 0x100
  {
    assert w / 0x100 == w / 0x80 / 2 && x / 0x100 == x / 0x80 / 2;
  }

  lemma FieldsWithD(mode: Mode, w: nat)
    ensures Fields(mode, WithBit(w, 0x80)) == Fields(mode, w).(d := true)
  {
    hide FrameOf;
    if !Bit(w, 0x80) {
      SetD(w);
      LowerD(w, w + 0x80);
      LowBits(w, w + 0x80);
      HighParts(w, w + 0x80);
    }
  }

  lemma LowerD(w: nat, x: nat)
    requires w % 0x80 == x % 0x80
    ensures w % 0x40 == x % 0x40 && Bit(w, 0x40) == Bit(x, 0x40)
  {
    LowD(w); LowD(x);
  }

  lemma LowD(w: nat)
    ensures w % 0x40 == w % 0x80 % 0x40 && w / 0x40 % 2 == w % 0x80 / 0x40
  {}

  /** Touching an entry sets A, and D for a store, and nothing else. */
  lemma TouchedFields(mode: Mode, w: nat, access: Access)
    ensures Fields(mode, Touched(w, access)) == TouchedPte(Fields(mode, w), access)
  {
    hide Fields; hide WithBit;
    if access == Store { FieldsWithD(mode, WithBit(w, 0x40)); }
    FieldsWithA(mode, w);
  }

  lemma UntouchedWord(mode: Mode, w: nat, access: Access)
    requires Fields(mode, w).a && (access == Store ==> Fields(mode, w).d)
    ensures Touched(w, access) == w
  {}

  predicate LeafWord(m: Ram, mode: Mode, at: Phys) {
    at in m && IsLeaf(Fields(mode, m[at])) && !Malformed(Fields(mode, m[at]))
  }

  lemma {:induction false} LeafFound(m: Ram, mode: Mode, table: Frame, level: nat, va: Vaddr, global: bool)
    requires FindLeaf(m, mode, table, level, va, global).Leaf?
    ensures var f := FindLeaf(m, mode, table, level, va, global);
            f.level <= level && LeafWord(m, mode, f.at) && f.pte == Fields(mode, m[f.at])
    decreases level
  {
    var p := Fields(mode, m[PteAddress(mode, table, PageNumber(level, va))]);
    if !IsLeaf(p) { LeafFound(m, mode, p.frame, level - 1, va, global || p.g); }
  }

  /** The outcome of a lookup after the entry at the given address was touched. */
  function Retouched(f: Find, at: Phys, access: Access): Find {
    if f.Leaf? && f.at == at then f.(pte := TouchedPte(f.pte, access)) else f
  }

  /** Setting A or D in a leaf changes no walk, except for the A and D it ends with. */
  lemma {:induction false} TouchKeepsFinds(m: Ram, mode: Mode, at: Phys, access: Access,
                                           table: Frame, level: nat, va: Vaddr, global: bool)
    requires LeafWord(m, mode, at)
    ensures FindLeaf(Touch(m, at, access), mode, table, level, va, global)
            == Retouched(FindLeaf(m, mode, table, level, va, global), at, access)
    decreases level
  {
    hide Fields;
    hide Touched;
    var here := PteAddress(mode, table, PageNumber(level, va));
    if here in m {
      var p := Fields(mode, m[here]);
      if here == at { TouchedFields(mode, m[at], access); }
      else if !Malformed(p) && !IsLeaf(p) && level > 0 {
        TouchKeepsFinds(m, mode, at, access, p.frame, level - 1, va, global || p.g);
      }
    }
  }

  lemma TouchKeepsLookup(m: Ram, mode: Mode, at: Phys, access: Access, root: Frame, va: Vaddr)
    requires LeafWord(m, mode, at)
    ensures Lookup(Touch(m, at, access), mode, root, va) == Retouched(Lookup(m, mode, root, va), at, access)
  {
    TouchKeepsFinds(m, mode, at, access, root, TopLevel(mode), va, false);
  }

  lemma SamePageNumber(l: nat, level: nat, va: Vaddr, va': Vaddr)
    requires l <= level <= 2 && Page(l, va) == Page(l, va')
    ensures PageNumber(level, va) == PageNumber(level, va')
  {}

  /** A walk looks at nothing below the page of the leaf it ends in. */
  lemma {:induction false} SamePageFinds(m: Ram, mode: Mode, table: Frame, level: nat, va: Vaddr, va': Vaddr,
      global: bool)
    requires level <= 2
    requires FindLeaf(m, mode, table, level, va, global).Leaf?
    requires var l := FindLeaf(m, mode, table, level, va, global).level; Page(l, va) == Page(l, va')
    ensures FindLeaf(m, mode, table, level, va', global) == FindLeaf(m, mode, table, level, va, global)
    decreases level
  {
    hide Fields;
    LeafFound(m, mode, table, level, va, global);
    SamePageNumber(FindLeaf(m, mode, table, level, va, global).level, level, va, va');
    var p := Fields(mode, m[PteAddress(mode, table, PageNumber(level, va))]);
    if !IsLeaf(p) { SamePageFinds(m, mode, p.frame, level - 1, va, va', global || p.g); }
  }

  lemma SamePageLookup(m: Ram, mode: Mode, root: Frame, va: Vaddr, va': Vaddr)
    requires Lookup(m, mode, root, va).Leaf?
    requires var l := Lookup(m, mode, root, va).level; Page(l, va) == Page(l, va')
    ensures Lookup(m, mode, root, va') == Lookup(m, mode, root, va)
  {
    SamePageFinds(m, mode, root, TopLevel(mode), va, va', false);
  }

  /** A fetch translation depends on the address, satp and the privilege, and on nothing else. */
  lemma FetchIgnoresStatus(m: Ram, ctx: Context, ctx': Context, va: nat)
    requires ctx.mode == ctx'.mode && ctx.satp == ctx'.satp && ctx.privilege == ctx'.privilege
    ensures Translate(m, ctx, va, Fetch) == Translate(m, ctx', va, Fetch)
  {
    hide FindLeaf;
  }
}
