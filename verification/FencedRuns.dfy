/** Runs that do edit their tables and code: an edit opens the scope of the SFENCE.VMA or FENCE.I that is
    to follow, the run keeps out of that scope until the fence commits, and is disciplined throughout. */
module FencedRuns {
  import opened Wrappers
  import opened Address
  import opened Paging
  import opened Hart
  import opened Core32
  import opened Live
  import opened LiveProofs
  import opened LiveRuns
  import opened StepProofs
  import CoreProofs
  import Tlb
  import TlbProofs
  import Icache

  /** The fence that is owed: none, SFENCE.VMA with its optional address and optional ASID, or FENCE.I. */
  datatype Scope = Nowhere | Owed(address: Option<nat>, asid: Option<nat>) | OwedCode

  predicate LeafInScope(o: Scope, e: Tlb.Entry) { o.Owed? && Tlb.Fenced(e, Sv32, o.address, o.asid) }

  predicate CodeInScope(o: Scope, k: Icache.Key) { o.OwedCode? || (o.Owed? && Icache.Fenced(k, o.address, o.asid)) }

  /** What the record holds outside the scope. */
  function Outside(live: Live, o: Scope): Live {
    Live(set e | e in live.leaves && !LeafInScope(o, e), map k | k in live.code && !CodeInScope(o, k) :: live.code[k])
  }

  predicate Within(small: Live, big: Live) {
    small.leaves <= big.leaves && forall k :: k in small.code ==> k in big.code && big.code[k] == small.code[k]
  }

  /** Less recorded is less that must agree. */
  lemma RecordDown(live: Live, big: Live, b: Bus, spaces: set<TlbProofs.Space>)
    requires RecordOk(big, b, spaces) && Within(live, big)
    ensures RecordOk(live, b, spaces)
  {
    hide CodeOk; hide TlbProofs.EntryCoherent; hide TlbProofs.GlobalsShared;
  }

  /* ---- edits ---- */

  /** A kept halfword that the edit leaves alone: its word, and its mapping unless bare. */
  ghost predicate PlaceSpared(p: Place, key: Icache.Key, m: Ram, m': Ram, spaces: set<TlbProofs.Space>, o: Scope)
    requires o.Owed?
  {
    SameAt(m, m', Cell(p.at)) && !TableWord(m', spaces, Cell(p.at)) &&
    (p.leaf.Some? ==>
       var f := Lookup(m, Sv32, key.satp.root, Virtual(Sv32, p.va));
       f.Leaf? ==> !TlbProofs.InScope(f, TlbProofs.Space(key.satp.asid, key.satp.root), Sv32, Virtual(Sv32, p.va),
         o.address, o.asid))
  }

  /** The edit from m to m' stays in the scope: mappings outside it, and kept instructions outside its
      4 KiB page and ASID, are left alone. An edit of code leaves the tables alone; with no scope nothing
      recorded is touched. */
  ghost predicate EditWithin(live: Live, m: Ram, m': Ram, spaces: set<TlbProofs.Space>, o: Scope) {
    match o
    case Nowhere => SameTables(m, m', spaces) && forall at :: CodeCell(live.code, at) ==> SameAt(m, m', at)
    case OwedCode => SameTables(m, m', spaces)
    case Owed(address, asid) =>
      TlbProofs.GlobalsShared(m', Sv32, spaces) && TlbProofs.ChangesOnlyInScope(m, m', Sv32, spaces, address, asid) &&
      forall k :: k in live.code && !CodeInScope(o, k) ==>
        PlaceSpared(live.code[k].first, k, m, m', spaces, o) &&
        (live.code[k].second.Some? ==> PlaceSpared(live.code[k].second.value, k, m, m', spaces, o))
  }

  lemma SparedByEdit(p: Place, key: Icache.Key, b: Bus, b': Bus, half: nat, spaces: set<TlbProofs.Space>, o: Scope)
    requires o.Owed? && PlaceOk(p, key, b, half, spaces) && PlaceSpared(p, key, b.ram, b'.ram, spaces, o)
    requires TlbProofs.ChangesOnlyInScope(b.ram, b'.ram, Sv32, spaces, o.address, o.asid)
    ensures PlaceOk(p, key, b', half, spaces)
  {
    hide FindLeaf; hide Part; hide TableWord; hide Virtual; hide TlbProofs.InScope;
    if p.leaf.Some? {
      var s := TlbProofs.Space(key.satp.asid, key.satp.root);
      assert s in spaces && s.root == key.satp.root;
    }
  }

  lemma OutsideSame(live: Live)
    ensures Outside(live, Nowhere) == live
  {
    assert Outside(live, Nowhere).leaves == live.leaves;
    assert Outside(live, Nowhere).code == live.code;
  }

  lemma OutsideWithin(live: Live, o: Scope)
    ensures Within(Outside(live, o), live)
  {}

  /** An edit within a scope leaves in agreement what the record holds outside it. */
  lemma EditRecord(live: Live, b: Bus, b': Bus, spaces: set<TlbProofs.Space>, o: Scope, o': Scope)
    requires RecordOk(Outside(live, o), b, spaces) && (o' == o || o == Nowhere) &&
        EditWithin(live, b.ram, b'.ram, spaces, o')
    ensures RecordOk(Outside(live, o'), b', spaces)
  {
    OutsideSame(live);
    if o' == Nowhere {
      hide RecordOk; hide SameTables; hide CodeCell; hide SameAt;
      SparedRecord(live, b, b', spaces);
    } else if o' == OwedCode {
      hide LeavesCoherent; hide SameTables;
      assert Outside(live, o').leaves == Outside(live, o).leaves;
      SparedLeaves(Outside(live, o).leaves, b.ram, b'.ram, spaces);
    } else {
      hide PlaceOk; hide PlaceSpared; hide TlbProofs.EntryCoherent; hide TlbProofs.GlobalsShared;
      hide TlbProofs.ChangesOnlyInScope;
      hide Tlb.Fenced; hide Icache.Fenced; hide FindLeaf;
      var kept := Outside(live, o');
      forall e | e in kept.leaves ensures TlbProofs.EntryCoherent(e, b'.ram, Sv32, spaces) {
        assert e in Outside(live, o).leaves;
        TlbProofs.FenceEntryRestores(e, b.ram, b'.ram, Sv32, spaces, o'.address, o'.asid);
      }
      forall k | k in kept.code ensures CodeOk(kept.code[k], k, b', spaces) {
        var c := live.code[k];
        assert k in Outside(live, o).code && Outside(live, o).code[k] == c;
        SparedByEdit(c.first, k, b, b', c.item.raw % 0x1_0000, spaces, o');
        if c.second.Some? { SparedByEdit(c.second.value, k, b, b', c.item.raw / 0x1_0000, spaces, o'); }
      }
    }
  }

  /** What a fence settles. */
  function Settled(h: Hart, d: Instruction): Scope
    requires IsFence(d.kind)
  {
    if d.kind == FenceI then OwedCode else Owed(FenceAddress(h, d), FenceAsid(h, d))
  }

  predicate IsFence(k: Kind) { k == SfenceVma || k == FenceI }

  /** The fence that was owed ends exactly what the record holds in its scope. */
  lemma FenceEnds(live: Live, h: Hart, d: Instruction)
    requires IsFence(d.kind)
    ensures AfterFence(live, h, d) == Outside(live, Settled(h, d))
  {
    hide Tlb.Fenced; hide Icache.Fenced; hide FenceAddress; hide FenceAsid;
    var o := Settled(h, d);
    assert AfterFence(live, h, d).leaves == Outside(live, o).leaves;
    assert AfterFence(live, h, d).code == Outside(live, o).code;
  }

  /* ---- the record of a step, outside a scope ---- */

  lemma KeptWithin(live: Live, small: Live, o: Scope, h: Hart, f: Fetched, first: Place, second: Option<Place>)
    requires Within(Outside(live, o), small)
    ensures Within(Outside(Kept(live, h, f, first, second), o), Kept(small, h, f, first, second))
  {
    hide LeafInScope; hide CodeInScope; hide AtPageEnd; hide KeyOf;
  }

  lemma FetchWithin(isa: Isa, live: Live, o: Scope, b: Bus, h: Hart)
    ensures Within(Outside(AfterFetch(isa, live, b, h), o), AfterFetch(isa, Outside(live, o), b, h))
    ensures AfterFetch(isa, live, b, h).leaves <= live.leaves + AfterFetch(isa, Outside(live, o), b, h).leaves
  {
    hide FetchHalf; hide PlaceOf; hide Kept; hide Leaves; hide FetchMiss; hide Outside; hide Wrap;
    var l := Outside(live, o);
    var live1, l1 := Leaves(live, h, b.ram, h.pc, Fetch), Leaves(l, h, b.ram, h.pc, Fetch);
    var (half, b1, _) := FetchHalf(b, Direct, h, h.pc);
    var next, f, p := Wrap(Rv32, h.pc + 2), FetchMiss(isa, b, h, None).0, PlaceOf(h, b.ram, h.pc);
    var live2, l2 := Leaves(live1, h, b1.ram, next, Fetch), Leaves(l1, h, b1.ram, next, Fetch);
    var q := PlaceOf(h, b1.ram, next);
    StepWithin(live, l, o, h, b.ram, h.pc, Fetch);
    StepWithin(live1, l1, o, h, b1.ram, next, Fetch);
    KeptWithin(live1, l1, o, h, f, p, None);
    KeptWithin(live2, l2, o, h, f, p, Some(q));
    KeptLeaves(live1, h, f, p, None);
    KeptLeaves(l1, h, f, p, None);
    KeptLeaves(live2, h, f, p, Some(q));
    KeptLeaves(l2, h, f, p, Some(q));
  }

  lemma KeptLeaves(live: Live, h: Hart, f: Fetched, first: Place, second: Option<Place>)
    ensures Kept(live, h, f, first, second).leaves == live.leaves
  {}

  /** A translation adds to a part of the record what it adds to the whole. */
  lemma StepWithin(live: Live, small: Live, o: Scope, h: Hart, m: Ram, va: nat, access: Access)
    requires Within(Outside(live, o), small)
    ensures Within(Outside(Leaves(live, h, m, va, access), o), Leaves(small, h, m, va, access))
    ensures Leaves(live, h, m, va, access).leaves <= live.leaves + Leaves(small, h, m, va, access).leaves
    ensures small.leaves <= Leaves(small, h, m, va, access).leaves
  {
    hide Walk; hide Lookup; hide Virtual; hide ContextOf; hide LeafInScope; hide CodeInScope; hide Tlb.Filled;
  }

  /* ---- the discipline, outside a scope ---- */

  /** No recorded leaf that could serve the access is in the scope. */
  ghost predicate Avoids(live: Live, h: Hart, va: nat, access: Access, o: Scope) {
    forall e :: e in live.leaves && Tlb.Usable(e, ContextOf(Rv32, h, access), e.level, Virtual(Sv32, va), access) ==>
        !LeafInScope(o, e)
  }

  /** The step uses nothing recorded that is in the scope. */
  ghost predicate StepAvoids(isa: Isa, live: Live, h: Hart, b: Bus, input: Input, o: Scope) {
    var begun := Begin(h, input.lines);
    begun.Runs? ==>
      var h1 := begun.h;
      var (f, b1, _) := FetchDecode(isa, b, h1, None);
      Avoids(live, h1, h1.pc, Fetch, o) && Avoids(live, h1, Wrap(Rv32, h1.pc + 2), Fetch, o) &&
      (KeyOf(h1) in live.code ==> !CodeInScope(o, KeyOf(h1))) &&
      (f.Got? && DataAccess(h1, f.item.decoded).Some? ==>
         var (va, access) := DataAccess(h1, f.item.decoded).value; Avoids(live, h1, va, access, o))
  }

  /** What may be used by the part outside the scope may be used by a record that adds to it only what
      the access avoids. */
  lemma UseAgrees(live: Live, was: Live, small: Live, h: Hart, m: Ram, va: nat, access: Access, o: Scope)
    requires MayUse(small, h, m, va, access) && Avoids(was, h, va, access, o)
    requires Outside(was, o).leaves <= small.leaves && live.leaves <= was.leaves + small.leaves
    ensures MayUse(live, h, m, va, access)
  {
    hide FindLeaf; hide Virtual; hide Tlb.Fresh; hide Tlb.Usable; hide EffectivePrivilege; hide LeafInScope;
    forall e | e in live.leaves && Tlb.Usable(e, ContextOf(Rv32, h, access), e.level, Virtual(Sv32, va), access)
        ensures e in small.leaves {
      if e in was.leaves { assert !LeafInScope(o, e) && e in Outside(was, o).leaves; }
    }
  }

  lemma CodeOutside(live: Live, k: Icache.Key, o: Scope)
    requires k in live.code ==> !CodeInScope(o, k)
    ensures k in Outside(live, o).code <==> k in live.code
    ensures k in live.code ==> Outside(live, o).code[k] == live.code[k]
  {
    hide LeafInScope; hide CodeInScope;
  }

  lemma OutsideReflexive(live: Live, o: Scope)
    ensures Within(Outside(live, o), Outside(live, o)) && Outside(live, o).leaves <= live.leaves
  {
    hide LeafInScope; hide CodeInScope;
  }

  lemma FetchAvoids(isa: Isa, live: Live, b: Bus, h: Hart, o: Scope)
    requires MayFetch(Outside(live, o), b, h) && Avoids(live, h, h.pc, Fetch, o) &&
        Avoids(live, h, Wrap(Rv32, h.pc + 2), Fetch, o)
    requires KeyOf(h) in live.code ==> !CodeInScope(o, KeyOf(h))
    ensures MayFetch(live, b, h)
  {
    hide FetchHalf; hide MayUse; hide CodeFresh; hide Leaves; hide Avoids; hide Wrap; hide KeyOf; hide AtPageEnd;
    hide CodeInScope; hide Outside;
    var small := Outside(live, o);
    CodeOutside(live, KeyOf(h), o);
    OutsideReflexive(live, o);
    if h.pc % 2 == 0 {
      UseAgrees(live, live, small, h, b.ram, h.pc, Fetch, o);
      var (half, b1, _) := FetchHalf(b, Direct, h, h.pc);
      StepWithin(live, small, o, h, b.ram, h.pc, Fetch);
      if half.Half? && half.value % 4 == 3 {
        UseAgrees(Leaves(live, h, b.ram, h.pc, Fetch), live, Leaves(small, h, b.ram, h.pc, Fetch), h, b1.ram,
          Wrap(Rv32, h.pc + 2), Fetch, o);
      }
    }
  }

  lemma AvoidingMayStep(isa: Isa, live: Live, h: Hart, b: Bus, input: Input, spaces: set<TlbProofs.Space>, o: Scope)
    requires RecordOk(Outside(live, o), b, spaces) && InUse(h.satp, spaces) && StepAvoids(isa, live, h, b, input, o)
    ensures MayStep(isa, live, h, b, input)
  {
    hide RecordOk; hide FetchDecode; hide AfterFetch; hide MayFetch; hide Avoids; hide Begin; hide DataAccess;
    hide MayUse; hide Wrap;
    hide Outside; hide CodeInScope;
    RecordMayStep(isa, Outside(live, o), h, b, input, spaces);
    var begun := Begin(h, input.lines);
    if begun.Runs? {
      var h1 := begun.h;
      FetchAvoids(isa, live, b, h1, o);
      var (f, b1, _) := FetchDecode(isa, b, h1, None);
      if f.Got? && DataAccess(h1, f.item.decoded).Some? {
        var (va, access) := DataAccess(h1, f.item.decoded).value;
        FetchWithin(isa, live, o, b, h1);
        FetchGrows(isa, Outside(live, o), b, h1);
        UseAgrees(AfterFetch(isa, live, b, h1), live, AfterFetch(isa, Outside(live, o), b, h1), h1, b1.ram, va,
          access, o);
      }
    }
  }

  lemma FetchGrows(isa: Isa, live: Live, b: Bus, h: Hart)
    ensures live.leaves <= AfterFetch(isa, live, b, h).leaves
  {
    hide FetchHalf; hide PlaceOf; hide FetchMiss; hide Wrap; hide TlbProofs.LiveAfter;
    var (_, b1, _) := FetchHalf(b, Direct, h, h.pc);
    CoreProofs.MoreLeaves(live, h, b.ram, h.pc, Fetch);
    CoreProofs.MoreLeaves(Leaves(live, h, b.ram, h.pc, Fetch), h, b1.ram, Wrap(Rv32, h.pc + 2), Fetch);
  }

  /* ---- steps that edit and steps that fence ---- */

  /** The step stays within the scopes: nothing kept outside the first one runs from table words, and its
      store is an edit within the second; or it commits the fence that was owed, and nothing is owed. */
  ghost predicate StepWithinScopes(isa: Isa, live: Live, h: Hart, b: Bus, input: Input, spaces: set<TlbProofs.Space>,
      o: Scope, o': Scope) {
    var begun := Begin(h, input.lines);
    if !begun.Runs? then o' == o
    else
      var (f, b1, _) := FetchDecode(isa, b, begun.h, None);
      var live1 := AfterFetch(isa, live, b, begun.h);
      CodeOutsideTables(AfterFetch(isa, Outside(live, o), b, begun.h).code, b.ram, spaces) &&
      if !f.Got? then o' == o
      else
        var d := f.item.decoded;
        var (r, _, b', _) := Step(isa, h, b, None, input);
        if IsFence(d.kind) && r.commit.Some? then
          o' == Nowhere && (o == Nowhere || o == Settled(begun.h, d))
        else
          (o' == o || o == Nowhere) &&
          EditWithin(AfterData(live1, b1, begun.h, d), Translated(b1, begun.h, d).ram, b'.ram, spaces, o')
  }

  lemma DataWithin(live: Live, small: Live, o: Scope, b: Bus, h: Hart, d: Instruction)
    requires Within(Outside(live, o), small)
    ensures Within(Outside(AfterData(live, b, h, d), o), AfterData(small, b, h, d))
  {
    hide Outside; hide Within; hide DataAccess; hide Leaves;
    match DataAccess(h, d)
    case None =>
    case Some((va, access)) => StepWithin(live, small, o, h, b.ram, va, access);
  }

  lemma ScopedStep(isa: Isa, live: Live, h: Hart, b: Bus, input: Input, spaces: set<TlbProofs.Space>, o: Scope,
      o': Scope)
    requires RecordOk(Outside(live, o), b, spaces) && InUse(h.satp, spaces) &&
        StepWithinScopes(isa, live, h, b, input, spaces, o, o')
    ensures RecordOk(Outside(AfterStep(isa, live, h, b, input), o'), Step(isa, h, b, None, input).2, spaces)
  {
    hide RecordOk; hide FetchDecode; hide AfterFetch; hide CodeOutsideTables; hide EditWithin; hide Begin;
    hide RunAll; hide RunUnit;
    hide Conclude; hide AfterData; hide AfterFence; hide TakeInterrupt; hide Trapped; hide Outside; hide Translated;
    hide FenceAddress;
    hide FenceAsid;
    var begun, small := Begin(h, input.lines), Outside(live, o);
    BeginSatp(h, input.lines);
    if begun.Runs? {
      var h1 := begun.h;
      FetchRecord(isa, small, b, h1, spaces);
      FetchWithin(isa, live, o, b, h1);
      var (f, b1, _) := FetchDecode(isa, b, h1, None);
      var live1, small1 := AfterFetch(isa, live, b, h1), AfterFetch(isa, small, b, h1);
      if f.Got? {
        ScopedData(isa, live1, small1, h, b1, input, spaces, o, o', f.item.decoded, h1, b);
      } else {
        RecordDown(Outside(live1, o), small1, b1, spaces);
      }
    }
  }

  /** The part of the step from the translated data access on. */
  lemma ScopedData(isa: Isa, live1: Live, small1: Live, h: Hart, b1: Bus, input: Input, spaces: set<TlbProofs.Space>,
      o: Scope, o': Scope, d: Instruction, h1: Hart, b: Bus)
    requires Begin(h, input.lines).Runs? && Begin(h, input.lines).h == h1 && InUse(h1.satp, spaces)
    requires var (f, b', _) := FetchDecode(isa, b, h1, None); f.Got? && f.item.decoded == d && b' == b1
    requires RecordOk(small1, b1, spaces) && Within(Outside(live1, o), small1)
    requires var (r, _, b', _) := Step(isa, h, b, None, input);
             if IsFence(d.kind) && r.commit.Some? then
               o' == Nowhere && (o == Nowhere || o == Settled(h1, d))
             else
               (o' == o || o == Nowhere) &&
               EditWithin(AfterData(live1, b1, h1, d), Translated(b1, h1, d).ram, b'.ram, spaces, o')
    ensures var live2 := AfterData(live1, b1, h1, d);
            var (r, _, b', _) := Step(isa, h, b, None, input);
            RecordOk(Outside(if r.commit.Some? then AfterFence(live2, h1, d) else live2, o'), b', spaces)
  {
    hide RecordOk; hide FetchDecode; hide EditWithin; hide Begin; hide Step; hide RunUnit; hide AfterData;
    hide Outside; hide Translated;
    hide FenceAddress; hide FenceAsid; hide Within; hide AfterFence;
    var live2 := AfterData(live1, b1, h1, d);
    var (r, _, b', _) := Step(isa, h, b, None, input);
    var m1 := Translated(b1, h1, d);
    TranslatedIs(small1, b1, h1, d, spaces);
    DataWithin(live1, small1, o, b1, h1, d);
    RecordDown(Outside(live2, o), AfterData(small1, b1, h1, d), m1, spaces);
    if IsFence(d.kind) && r.commit.Some? {
      StepRuns(isa, h, b, None, input);
      FenceChangesNothing(isa, b1, h1, input.time, d);
      FencedOutside(live2, h1, d, b', spaces, o);
    } else {
      EditRecord(live2, m1, b', spaces, o, o');
      if r.commit.Some? {
        FenceWithin(live2, h1, d, o');
        RecordDown(Outside(AfterFence(live2, h1, d), o'), Outside(live2, o'), b', spaces);
      }
    }
  }

  lemma FenceChangesNothing(isa: Isa, b: Bus, h: Hart, time: nat, d: Instruction)
    requires IsFence(d.kind)
    ensures RunUnit(isa, b, Direct, h, time, d).1 == b && Translated(b, h, d) == b
  {
    hide RunPrivileged; hide RunInteger; hide RunControlFlow; hide RunAtomic; hide RunCsr; hide RunMemory; hide UnitOf;
    hide MmuTranslate; hide Reg; hide Wrap; hide AccessWidth;
    FenceUnit(d.kind);
  }

  lemma FenceUnit(k: Kind)
    requires IsFence(k)
    ensures UnitOf(k) == Privileged || UnitOf(k) == Integer
  {}

  lemma FencedOutside(live: Live, h: Hart, d: Instruction, b: Bus, spaces: set<TlbProofs.Space>, o: Scope)
    requires IsFence(d.kind) && RecordOk(Outside(live, o), b, spaces) && (o == Nowhere || o == Settled(h, d))
    ensures RecordOk(Outside(AfterFence(live, h, d), Nowhere), b, spaces)
  {
    hide RecordOk; hide FenceAddress; hide FenceAsid; hide Outside; hide AfterFence;
    FenceEnds(live, h, d);
    OutsideSame(AfterFence(live, h, d));
    if o == Nowhere {
      OutsideSame(live);
      FencedRecord(live, b, h, d, spaces);
    }
  }

  lemma FenceWithin(live: Live, h: Hart, d: Instruction, o: Scope)
    ensures Within(Outside(AfterFence(live, h, d), o), Outside(live, o))
  {
    hide LeafInScope; hide CodeInScope; hide Tlb.Fenced; hide Icache.Fenced; hide FenceAddress; hide FenceAsid;
  }

  /* ---- runs ---- */

  /** A plan gives, for each event, the scope that is owed once its DMA and once its step is done. The
      run keeps to it: edits by DMA or by stores stay in the scope that they open, steps keep out of it, and
      only its fence closes it. */
  ghost predicate FencedRun(isa: Isa, live: Live, h: Hart, b: Bus, events: seq<Event>, spaces: set<TlbProofs.Space>,
      o: Scope, plan: seq<(Scope, Scope)>)
    decreases |events|
  {
    InUse(h.satp, spaces) && |plan| == |events| &&
    (events != [] ==>
      var h0, b0 := Elapse(h, events[0]), Dma(b, events[0]);
      var (_, h', b', _) := Step(isa, h0, b0, None, events[0].input);
      var (o1, o2) := plan[0];
      (o1 == o || o == Nowhere) && EditWithin(live, b.ram, b0.ram, spaces, o1) &&
      StepAvoids(isa, live, h0, b0, events[0].input, o1) &&
        StepWithinScopes(isa, live, h0, b0, events[0].input, spaces, o1, o2) &&
      FencedRun(isa, AfterStep(isa, live, h0, b0, events[0].input), h', b', events[1..], spaces, o2, plan[1..]))
  }

  /** Such a run is disciplined: an edit followed by the SFENCE.VMA or FENCE.I of its scope is all that is
      asked, with the 4 KiB rule for kept instructions. */
  lemma {:induction false} FencedRunDisciplined(isa: Isa, live: Live, h: Hart, b: Bus, events: seq<Event>,
      spaces: set<TlbProofs.Space>, o: Scope, plan: seq<(Scope, Scope)>)
    requires RecordOk(Outside(live, o), b, spaces) && FencedRun(isa, live, h, b, events, spaces, o, plan)
    ensures Disciplined(isa, live, h, b, events)
    decreases |events|
  {
    hide RecordOk; hide Step; hide AfterStep; hide Dma; hide MayStep; hide EditWithin; hide StepAvoids;
    hide StepWithinScopes; hide Outside;
    if events != [] {
      var e := events[0];
      var h0, b0 := Elapse(h, e), Dma(b, e);
      EditRecord(live, b, b0, spaces, o, plan[0].0);
      AvoidingMayStep(isa, live, h0, b0, e.input, spaces, plan[0].0);
      ScopedStep(isa, live, h0, b0, e.input, spaces, plan[0].0, plan[0].1);
      var (_, h', b', _) := Step(isa, h0, b0, None, e.input);
      FencedRunDisciplined(isa, AfterStep(isa, live, h0, b0, e.input), h', b', events[1..], spaces, plan[0].1,
        plan[1..]);
    }
  }

  /** So from empty caches Fast mode is Reference mode over every run that fences its edits. */
  lemma FencedRunAgrees(isa: Isa, h: Hart, b: Bus, events: seq<Event>, spaces: set<TlbProofs.Space>,
      plan: seq<(Scope, Scope)>)
    requires TlbProofs.GlobalsShared(b.ram, Sv32, spaces) &&
        FencedRun(isa, Nothing, h, b, events, spaces, Nowhere, plan)
    ensures Run(isa, h, b, Some(EmptyCaches()), events) == Run(isa, h, b, None, events)
  {
    hide Run; hide EmptyCaches; hide TlbProofs.GlobalsShared; hide FencedRun; hide Disciplined;
    OutsideSame(Nothing);
    FencedRunDisciplined(isa, Nothing, h, b, events, spaces, Nowhere, plan);
    CoreProofs.ResetRunAgrees(isa, h, b, events);
  }
}
