/** Addresses by their fields. Both paging modes cut an address into page numbers and a
    12-bit offset; the lemmas at the end tie the field form to shifts and masks. */
module Address {
  datatype Mode = Sv32 | Sv39

  /** A virtual address: page numbers p2 p1 p0 (p2 unused by Sv32), what lies above, the offset. */
  datatype Vaddr = Vaddr(high: nat, p2: nat, p1: nat, p0: nat, offset: nat)

  /** A 4 KiB frame number, cut at the same places as the virtual page numbers. */
  datatype Frame = Frame(h2: nat, h1: nat, h0: nat)

  datatype Phys = Phys(frame: Frame, offset: nat)

  function Virtual(mode: Mode, va: nat): Vaddr {
    match mode
    case Sv32 => Vaddr(va / 0x1_0000_0000, 0, va / 0x40_0000 % 0x400, va / 0x1000 % 0x400, va % 0x1000)
    case Sv39 => Vaddr(va / 0x80_0000_0000, va / 0x4000_0000 % 0x200, va / 0x20_0000 % 0x200, va / 0x1000 % 0x200,
        va % 0x1000)
  }

  function FrameOf(mode: Mode, ppn: nat): Frame {
    match mode
    case Sv32 => Frame(0, ppn / 0x400, ppn % 0x400)
    case Sv39 => Frame(ppn / 0x4_0000, ppn / 0x200 % 0x200, ppn % 0x200)
  }

  function Physical(mode: Mode, address: nat): Phys {
    Phys(FrameOf(mode, address / 0x1000), address % 0x1000)
  }

  /** Level 0 is a 4 KiB page; level 1 a 4 MiB (Sv32) or 2 MiB (Sv39) page; level 2 a 1 GiB page. */
  function TopLevel(mode: Mode): nat {
    match mode case Sv32 => 1 case Sv39 => 2
  }

  /** The page of a level that va lies in, named by its base address. */
  function Page(level: nat, va: Vaddr): Vaddr {
    if level == 0 then va.(offset := 0)
    else if level == 1 then va.(p0 := 0, offset := 0)
    else va.(p1 := 0, p0 := 0, offset := 0)
  }

  function PageNumber(level: nat, va: Vaddr): nat {
    if level == 0 then va.p0 else if level == 1 then va.p1 else va.p2
  }

  /** A superpage frame has no bits below its own page number. */
  predicate Aligned(level: nat, f: Frame) {
    (level >= 1 ==> f.h0 == 0) && (level >= 2 ==> f.h1 == 0)
  }

  /** The address a leaf maps va to: the frame's upper fields, va's lower ones. */
  function Map(level: nat, f: Frame, va: Vaddr): Phys {
    Phys(if level == 0 then f else if level == 1 then f.(h0 := va.p0) else f.(h1 := va.p1, h0 := va.p0), va.offset)
  }

  /** The page base of a physical address: address & ~mask. */
  function PageBase(level: nat, p: Phys): Phys {
    Phys(if level == 0 then p.frame else if level == 1 then p.frame.(h0 := 0) else p.frame.(h1 := 0, h0 := 0), 0)
  }

  /** The number an address record stands for. */
  function AddressOf(mode: Mode, va: Vaddr): nat {
    match mode
    case Sv32 => va.high * 0x1_0000_0000 + va.p1 * 0x40_0000 + va.p0 * 0x1000 + va.offset
    case Sv39 => va.high * 0x80_0000_0000 + va.p2 * 0x4000_0000 + va.p1 * 0x20_0000 + va.p0 * 0x1000 + va.offset
  }

  /* ---- the field form is the arithmetic form ---- */

  /** 2 to the page shift of a level. */
  function PageSize(mode: Mode, level: nat): (r: nat)
    ensures r > 0
  {
    if level == 0 then 0x1000
    else match mode
      case Sv32 => 0x40_0000
      case Sv39 => if level == 1 then 0x20_0000 else 0x4000_0000
  }

  lemma NestedDivisions(x: nat)
    ensures x / 0x20_0000 == x / 0x1000 / 0x200 && x / 0x40_0000 == x / 0x1000 / 0x400
    ensures x / 0x4000_0000 == x / 0x20_0000 / 0x200 && x / 0x1_0000_0000 == x / 0x40_0000 / 0x400
    ensures x / 0x80_0000_0000 == x / 0x4000_0000 / 0x200
  {}

  /** Two addresses share a page exactly when they agree above its shift. */
  lemma SamePageSv39(a: nat, b: nat)
    ensures Page(0, Virtual(Sv39, a)) == Page(0, Virtual(Sv39, b)) <==> a / 0x1000 == b / 0x1000
    ensures Page(1, Virtual(Sv39, a)) == Page(1, Virtual(Sv39, b)) <==> a / 0x20_0000 == b / 0x20_0000
    ensures Page(2, Virtual(Sv39, a)) == Page(2, Virtual(Sv39, b)) <==> a / 0x4000_0000 == b / 0x4000_0000
  {
    NestedDivisions(a);
    NestedDivisions(b);
  }

  lemma SamePageSv32(a: nat, b: nat)
    ensures Page(0, Virtual(Sv32, a)) == Page(0, Virtual(Sv32, b)) <==> a / 0x1000 == b / 0x1000
    ensures Page(1, Virtual(Sv32, a)) == Page(1, Virtual(Sv32, b)) <==> a / 0x40_0000 == b / 0x40_0000
  {
    NestedDivisions(a);
    NestedDivisions(b);
  }

  function Value(mode: Mode, p: Phys): nat {
    match mode
    case Sv32 => p.frame.h1 * 0x40_0000 + p.frame.h0 * 0x1000 + p.offset
    case Sv39 => p.frame.h2 * 0x4000_0000 + p.frame.h1 * 0x20_0000 + p.frame.h0 * 0x1000 + p.offset
  }

  lemma ValueOfPhysical(mode: Mode, x: nat)
    ensures Value(mode, Physical(mode, x)) == x
  {}

  lemma LowFields39(x: nat)
    ensures x % 0x20_0000 == x / 0x1000 % 0x200 * 0x1000 + x % 0x1000
    ensures x % 0x4000_0000 == x / 0x20_0000 % 0x200 * 0x20_0000 + x % 0x20_0000
  {
    var a, b := x / 0x1000, x / 0x20_0000;
    NestedDivisions(x);
    assert x == a * 0x1000 + x % 0x1000 && a == b * 0x200 + a % 0x200;
    assert b == b / 0x200 * 0x200 + b % 0x200;
  }

  lemma LowFields32(x: nat)
    ensures x % 0x40_0000 == x / 0x1000 % 0x400 * 0x1000 + x % 0x1000
  {
    var a := x / 0x1000;
    assert x == a * 0x1000 + x % 0x1000 && a == a / 0x400 * 0x400 + a % 0x400;
  }

  /** Clearing the lower fields is masking the lower bits. */
  lemma BaseIsMask(x: nat)
    ensures Value(Sv39, PageBase(0, Physical(Sv39, x))) == x - x % 0x1000
    ensures Value(Sv39, PageBase(1, Physical(Sv39, x))) == x - x % 0x20_0000
    ensures Value(Sv39, PageBase(2, Physical(Sv39, x))) == x - x % 0x4000_0000
  {
    LowFields39(x);
    ValueOfPhysical(Sv39, x);
  }

  /** A leaf maps an address to its frame plus the address within the page, whatever the page size. */
  lemma MapAddsOffset(mode: Mode, level: nat, f: Frame, x: nat)
    requires Aligned(level, f) && level <= TopLevel(mode)
    ensures Value(mode, Map(level, f, Virtual(mode, x))) == Value(mode, Phys(f, 0)) + x % PageSize(mode, level)
  {
    LowFields39(x);
    LowFields32(x);
  }
}
