/** The page walker and the translation cache as the cores run them, in place. */
module Mmu {
  import opened Wrappers
  import opened Address
  import opened Paging
  import opened Tlb

  /** The RAM behind the bus. */
  class RamBus {
    var words: Ram

    constructor (words: Ram)
      ensures this.words == words
    {
      this.words := words;
    }

    /** walk_address: descend from the root until a leaf, updating A and D in it.
        On success leaf is the entry that was used, as it was before the update. */
    method WalkAddress(ctx: Context, va: Vaddr, access: Access) returns (result: Translation, leaf: Find)
      modifies this
      ensures (result, words) == Walk(old(words), ctx, va, access)
      ensures leaf == Lookup(old(words), ctx.mode, ctx.satp.root, va)
    {
      hide Fields;
      hide Touched;
      hide PageNumber;
      hide Map;
      var table := ctx.satp.root;
      var global := false;
      var level: nat := TopLevel(ctx.mode);
      while true
        invariant words == old(words) && level <= TopLevel(ctx.mode)
        invariant FindLeaf(words, ctx.mode, table, level, va, global) == Lookup(words, ctx.mode, ctx.satp.root, va)
        decreases level
      {
        var at := PteAddress(ctx.mode, table, PageNumber(level, va));
        if at !in words { return AccessFault, Unreadable; }
        var p := Fields(ctx.mode, words[at]);
        if Malformed(p) { return PageFault, Invalid; }
        if !IsLeaf(p) {
          if p.u || p.a || p.d || level == 0 { return PageFault, Invalid; }
          global := global || p.g;
          table := p.frame;
          level := level - 1;
        } else {
          leaf := Leaf(at, p, level, global || p.g);
          if !Aligned(level, p.frame) || !PrivilegeAllows(p, ctx, access) { return PageFault, leaf; }
          var updated := Touched(words[at], access);
          if updated != words[at] { words := words[at := updated]; }
          return Ready(Map(level, p.frame, va)), leaf;
        }
      }
    }
  }

  class TranslationCache {
    const mode: Mode
    const entries: array<Entry>
    const ways: array<nat>

    ghost predicate Valid() reads this { entries.Length == 64 && ways.Length == 16 }

    ghost function View(): Cache
      reads this, entries, ways
    {
      Cache(entries[..], ways[..])
    }

    constructor (mode: Mode)
      ensures Valid() && this.mode == mode && fresh(entries) && fresh(ways) && View() == Empty()
    {
      this.mode := mode;
      entries := new Entry[64](_ => NoEntry);
      ways := new nat[16](_ => 0);
      new;
      assert entries[..] == Empty().entries && ways[..] == Empty().ways;
    }

    method Clear()
      requires Valid()
      modifies entries, ways
      ensures View() == Empty()
    {
      forall i | 0 <= i < 64 { entries[i] := NoEntry; }
      forall i | 0 <= i < 16 { ways[i] := 0; }
      assert entries[..] == Empty().entries && ways[..] == Empty().ways;
    }

    method FindEntry(ctx: Context, va: Vaddr, access: Access) returns (r: Option<nat>)
      requires Valid() && ctx.mode == mode
      ensures r == Probe(View(), ctx, va, access, 0)
    {
      hide SetOf;
      hide Usable;
      hide Page;
      var level := 0;
      while level <= TopLevel(mode)
        invariant level <= TopLevel(mode) + 1
        invariant Probe(View(), ctx, va, access, 0) == Probe(View(), ctx, va, access, level)
      {
        var row := SetOf(mode, level, Page(level, va));
        for way := 0 to 4
          invariant FindWay(View(), ctx, level, va, access, row, 0) == FindWay(View(), ctx, level, va, access, row, way)
        {
          if Usable(entries[row * 4 + way], ctx, level, va, access) { return Some(row * 4 + way); }
        }
        level := level + 1;
      }
      return None;
    }

    method InsertEntry(e: Entry)
      requires Valid()
      modifies entries, ways
      ensures View() == Insert(old(View()), mode, e)
    {
      hide SetOf;
      hide Reusable;
      var row := SetOf(mode, e.level, e.page);
      var index := row * 4;
      var found := false;
      for way := 0 to 4
        invariant !found && FindSlot(View(), e, row, 0) == FindSlot(View(), e, row, way)
        invariant View() == old(View())
      {
        if Reusable(entries[row * 4 + way], e) {
          index := row * 4 + way;
          found := true;
          break;
        }
      }
      if !found {
        var victim := ways[row] % 4;
        index := row * 4 + victim;
        ways[row] := (victim + 1) % 4;
      }
      entries[index] := e;
    }

    method TranslateAddress(bus: RamBus, ctx: Context, va: nat, access: Access) returns (result: Translation)
      requires Valid() && ctx.mode == mode
      modifies entries, ways, bus
      ensures (result, bus.words, View()) == CachedTranslate(old(View()), old(bus.words), ctx, va, access)
    {
      hide SetOf;
      hide Virtual;
      hide FindLeaf;
      if Bare(ctx) { return Ready(Physical(mode, va)); }
      var v := Virtual(mode, va);
      if !Canonical(mode, v) { return PageFault; }
      var hit := FindEntry(ctx, v, access);
      if hit.Some? {
        var e := entries[hit.value];
        return Ready(Map(e.level, e.base.frame, v));
      }
      var leaf;
      result, leaf := bus.WalkAddress(ctx, v, access);
      if result.Ready? { InsertEntry(Filled(ctx, v, leaf, access)); }
    }

    method SfenceVma(address: Option<nat>, asid: Option<nat>)
      requires Valid()
      modifies entries
      ensures View() == Fence(old(View()), mode, address, asid)
    {
      hide Virtual;
      for i := 0 to 64
        invariant forall j :: 0 <= j < i ==> entries[j] == FenceEntry(old(entries[j]), mode, address, asid)
        invariant forall j :: i <= j < 64 ==> entries[j] == old(entries[j])
      {
        var e := entries[i];
        if e.valid {
          if asid.Some? && (e.global || e.asid != asid.value) {
          } else if address.Some? && Page(e.level, Virtual(mode, address.value)) != e.page {
          } else {
            entries[i] := e.(valid := false);
          }
        }
      }
    }
  }
}
