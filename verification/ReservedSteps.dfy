/** LR.W and SC.W in one step of the RV32 core: what a step does to the reservation, what a store-conditional
    leaves, and what a step counts as a write. */
module ReservedSteps {
  import opened Wrappers
  import opened Address
  import opened Paging
  import opened Hart
  import opened HartProofs
  import opened Core32
  import opened StepProofs
  import opened PreciseTraps
  import opened MemoryEffects
  import LegalSteps
  import Tlb
  import Icache
  import CoreProofs

  datatype State = State(h: Hart, b: Bus, c: Option<Caches>)

  ghost predicate Good(t: State) { ItemsLegal(t.c) && CachesReady(t.c) && Legal(Rv32, t.h) }

  /** The state in which the step of an event runs, and the one that it leaves. */
  function Entered(s: State, e: Event): State { State(Elapse(s.h, e), Dma(s.b, e), s.c) }

  function Left(isa: Isa, t: State, input: Input): (r: State)
    requires CachesReady(t.c)
    ensures CachesReady(r.c)
  {
    var (_, h, b, c) := Step(isa, t.h, t.b, t.c, input);
    State(h, b, c)
  }

  function Result(isa: Isa, t: State, input: Input): StepResult
    requires CachesReady(t.c)
  {
    Step(isa, t.h, t.b, t.c, input).0
  }

  /** The state after n events, and the one in which step n runs. */
  function At(isa: Isa, s: State, events: seq<Event>, n: nat): (r: State)
    requires CachesReady(s.c) && n <= |events|
    ensures CachesReady(r.c)
  {
    if n == 0 then s else Left(isa, Entered(At(isa, s, events, n - 1), events[n - 1]), events[n - 1].input)
  }

  function Before(isa: Isa, s: State, events: seq<Event>, n: nat): (r: State)
    requires CachesReady(s.c) && n < |events|
    ensures CachesReady(r.c)
  {
    Entered(At(isa, s, events, n), events[n])
  }

  /** These are the states that a run shows. */
  lemma {:induction false} RunShows(isa: Isa, s: State, events: seq<Event>, n: nat)
    requires CachesReady(s.c) && n < |events|
    ensures |Run(isa, s.h, s.b, s.c, events)| == |events|
    ensures var seen, t := Run(isa, s.h, s.b, s.c, events)[n], At(isa, s, events, n + 1);
            seen.h == t.h && seen.b == t.b && seen.result == Result(isa, Before(isa, s, events, n), events[n].input)
    decreases |events|
  {
    hide Step; hide Elapse; hide Dma; hide CachesReady;
    var s1 := At(isa, s, events, 1);
    assert At(isa, s, events, 0) == s;
    if n == 0 {
      if |events| > 1 { RunShows(isa, s1, events[1..], 0); }
    } else {
      RunShows(isa, s1, events[1..], n - 1);
      Shifted(isa, s, events, n);
      Shifted(isa, s, events, n + 1);
    }
  }

  lemma {:induction false} Shifted(isa: Isa, s: State, events: seq<Event>, n: nat)
    requires CachesReady(s.c) && 1 <= n <= |events|
    ensures At(isa, s, events, n) == At(isa, At(isa, s, events, 1), events[1..], n - 1)
  {
    hide Left; hide Entered;
    if n > 1 { Shifted(isa, s, events, n - 1); }
  }

  /* ---- what a step does to the reservation ---- */

  /** The instruction that a step executes. */
  function Executed(isa: Isa, t: State, input: Input): Option<Instruction>
    requires CachesReady(t.c)
  {
    match Begin(t.h, input.lines)
    case Runs(h) =>
      var f := FetchDecode(isa, t.b, h, t.c).0;
      if f.Got? then Some(f.item.decoded) else None
    case _ => None
  }

  /** An LR, SC or AMO whose address is aligned and translates: the instruction, the hart, the place and the bus
      after the translation. */
  datatype Attempt = Attempt(item: Item, h: Hart, at: Phys, b: Bus)

  function Reached(isa: Isa, t: State, input: Input): Option<Attempt>
    requires CachesReady(t.c)
  {
    match Begin(t.h, input.lines)
    case Runs(h) =>
      var (f, b1, c1) := FetchDecode(isa, t.b, h, t.c);
      if !f.Got? || !(f.item.decoded.kind == LrW || f.item.decoded.kind == ScW || IsAmo(f.item.decoded.kind)) then None
      else
        var d := f.item.decoded;
        var va := Reg(h, d.rs1);
        if va % 4 != 0 then None
        else
          var (to, b2, _) := MmuTranslate(b1, MmuOf(c1), h, va, if d.kind == LrW then Load else Store);
          if to.Ready? then Some(Attempt(f.item, h, to.address, b2)) else None
    case _ => None
  }

  function Accessed(isa: Isa, a: Attempt): (Outcome, Bus) {
    var d := a.item.decoded;
    AtomicAccess(isa, a.b, a.h, d, a.at, Reg(a.h, d.rs1), Reg(a.h, d.rs2))
  }

  predicate Backed(a: Attempt) { Cell(a.at) in a.b.ram }

  /** A load-reserved that retires, and a store-conditional that uses up the reservation. */
  predicate Reserves(a: Option<Attempt>) { a.Some? && a.value.item.decoded.kind == LrW && Backed(a.value) }

  predicate Consumes(a: Option<Attempt>) { a.Some? && a.value.item.decoded.kind == ScW }

  predicate IsAtomic(k: Kind) { k == LrW || k == ScW || IsAmo(k) }

  lemma AtomicUnit(k: Kind)
    ensures IsAtomic(k) <==> UnitOf(k) == Atomic
  {}

  lemma UnitReaches(isa: Isa, b: Bus, mmu: Mmu, h: Hart, time: nat, d: Instruction)
    requires MmuReady(mmu) && IsAtomic(d.kind)
    ensures var va := Reg(h, d.rs1);
            var (o, b', _) := RunUnit(isa, b, mmu, h, time, d);
            if va % 4 != 0 then b' == b && !o.Retire?
            else
              var (to, b2, _) := MmuTranslate(b, mmu, h, va, if d.kind == LrW then Load else Store);
              if to.Ready? then (o, b') == AtomicAccess(isa, b2, h, d, to.address, va, Reg(h, d.rs2))
              else b' == b2 && !o.Retire?
  {
    hide MmuTranslate; hide AtomicAccess; hide IsAmo; hide Reg; hide UnitOf;
    AtomicUnit(d.kind);
    IsAmoKind(d.kind);
  }

  lemma IsAmoKind(k: Kind)
    ensures IsAmo(k) ==> k != LrW && k != ScW
  {}

  /** A step that reaches an LR, SC or AMO concludes with its access, and any other leaves the reservations alone. */
  lemma ReachedRuns(isa: Isa, t: State, input: Input)
    requires Good(t)
    ensures var a, t' := Reached(isa, t, input), Left(isa, t, input);
            if a.None? then t'.b.reservations == t.b.reservations
            else
              Executed(isa, t, input) == Some(a.value.item.decoded) && a.value.b.reservations == t.b.reservations &&
              var (o, b') := Accessed(isa, a.value);
              t'.b == b' && (Result(isa, t, input), t'.h) == Conclude(a.value.h, a.value.item, o)
  {
    hide FetchDecode; hide RunAll; hide RunUnit; hide Conclude; hide ItemsLegal; hide CachesShaped; hide Maintain;
    hide MmuTranslate; hide AtomicAccess; hide TakeInterrupt; hide TakeTrap; hide WithMmu; hide SelectFrom; hide Legal;
    hide WakeRequested; hide IsAmo; hide Reg;
    var begun := Begin(t.h, input.lines);
    if begun.Runs? {
      var h := begun.h;
      var (f, b1, c1) := FetchDecode(isa, t.b, h, t.c);
      FetchLegal(isa, t.b, h, t.c);
      ReadyMmu(c1);
      FetchReservations(isa, t.b, h, t.c);
      if f.Got? {
        var d := f.item.decoded;
        StepRuns(isa, t.h, t.b, t.c, input);
        AtomicUnit(d.kind);
        if IsAtomic(d.kind) {
          UnitReaches(isa, b1, MmuOf(c1), h, input.time, d);
          TranslateReservations(b1, MmuOf(c1), h, Reg(h, d.rs1), if d.kind == LrW then Load else Store);
        } else {
          OtherReservations(isa, b1, MmuOf(c1), h, input.time, d);
        }
      }
    }
  }

  lemma TranslateReservations(b: Bus, mmu: Mmu, h: Hart, va: nat, access: Access)
    requires MmuReady(mmu)
    ensures MmuTranslate(b, mmu, h, va, access).1.reservations == b.reservations
  {
    hide Translate; hide Tlb.CachedTranslate;
  }

  lemma FetchReservations(isa: Isa, b: Bus, h: Hart, c: Option<Caches>)
    requires CachesReady(c)
    ensures FetchDecode(isa, b, h, c).1.reservations == b.reservations
  {
    hide MmuTranslate; hide Finish; hide CachesShaped; hide Icache.Lookup; hide AtPageEnd; hide BusRead;
    var mmu := MmuOf(c);
    assert MmuReady(mmu) by { if c.Some? { CachedReady(c.value); } }
    TranslateReservations(b, mmu, h, h.pc, Fetch);
    var (_, b1, mmu1) := FetchHalf(b, mmu, h, h.pc);
    TranslateReservations(b1, mmu1, h, Wrap(Rv32, h.pc + 2), Fetch);
  }

  lemma CachedReady(c: Caches)
    requires CachesShaped(c)
    ensures Tlb.Shaped(c.tlb)
  {}

  lemma OtherReservations(isa: Isa, b: Bus, mmu: Mmu, h: Hart, time: nat, d: Instruction)
    requires MmuReady(mmu) && UnitOf(d.kind) != Atomic
    ensures RunUnit(isa, b, mmu, h, time, d).1.reservations == b.reservations
  {
    hide MmuTranslate; hide RunInteger; hide RunPrivileged; hide RunControlFlow; hide RunCsr; hide UnitOf; hide PutPart;
    hide Part; hide Wrap; hide AccessTrap; hide MisalignedTrap;
    var va := Wrap(Rv32, Reg(h, d.rs1) + d.imm);
    TranslateReservations(b, mmu, h, va, Load);
    TranslateReservations(b, mmu, h, va, Store);
  }

  lemma IdStays(isa: Isa, t: State, input: Input)
    requires CachesReady(t.c)
    ensures Left(isa, t, input).h.id == t.h.id
  {
    hide FetchDecode; hide RunAll; hide RunUnit; hide CachesShaped; hide Maintain; hide WithMmu; hide SelectFrom;
    hide WakeRequested; hide Committed; hide Sanitize; hide Vector; hide CauseWord;
    var begun := Begin(t.h, input.lines);
    if begun.Runs? {
      forall c: Commit | Committed(begun.h, c).Some? ensures Committed(begun.h, c).value.id == begun.h.id {
        CommitId(begun.h, c);
      }
    }
  }

  lemma CommitId(h: Hart, c: Commit)
    requires Committed(h, c).Some?
    ensures Committed(h, c).value.id == h.id
  {
    hide ValidateWrite; hide Sanitize; hide StatusOf; hide SatpOf; hide TvecOf; hide Even; hide Masked; hide High;
    hide Low;
    hide WithSupervisorView; hide SatpModeKnown;
  }

  lemma AccessReserves(isa: Isa, a: Attempt)
    requires IsAtomic(a.item.decoded.kind)
    ensures var b' := Accessed(isa, a).1;
            b'.reservations ==
              (if Reserves(Some(a)) then a.b.reservations[a.h.id := Reservation(a.at, a.b.epoch)]
               else if Consumes(Some(a)) then a.b.reservations - {a.h.id} else a.b.reservations) &&
            (Reserves(Some(a)) ==> b'.ram == a.b.ram && b'.epoch == a.b.epoch)
  {
    hide PutPart; hide Part; hide Ok; hide AccessTrap; hide IsAmo;
    IsAmoKind(a.item.decoded.kind);
  }

  lemma ReachedAtomic(isa: Isa, t: State, input: Input)
    requires CachesReady(t.c) && Reached(isa, t, input).Some?
    ensures IsAtomic(Reached(isa, t, input).value.item.decoded.kind) && Reached(isa, t, input).value.h.id == t.h.id
  {
    hide FetchDecode; hide CachesShaped; hide MmuTranslate; hide SelectFrom; hide WakeRequested; hide IsAmo;
  }

  /** A step makes a reservation for the place of its LR, uses one up at its SC, and else leaves them alone. */
  lemma ReservationStep(isa: Isa, t: State, input: Input)
    requires Good(t)
    ensures var a, t' := Reached(isa, t, input), Left(isa, t, input);
            t'.b.reservations ==
              if Reserves(a) then t.b.reservations[t.h.id := Reservation(a.value.at, a.value.b.epoch)]
              else if Consumes(a) then t.b.reservations - {t.h.id} else t.b.reservations
    ensures Reserves(Reached(isa, t, input)) ==>
            Reached(isa, t, input).Some? && Left(isa, t, input).b.ram == Reached(isa, t, input).value.b.ram &&
            Left(isa, t, input).b.epoch == Reached(isa, t, input).value.b.epoch
  {
    hide Step; hide ItemsLegal; hide CachesShaped; hide Legal; hide Reached; hide Conclude; hide Accessed;
    hide Reserves;
    hide Consumes;
    ReachedRuns(isa, t, input);
    var a := Reached(isa, t, input);
    if a.Some? {
      ReachedAtomic(isa, t, input);
      AccessReserves(isa, a.value);
    } else {
      NoneReserves();
    }
  }

  lemma NoneReserves()
    ensures !Reserves(None) && !Consumes(None)
  {}

  /* ---- what a store-conditional leaves ---- */

  /** It succeeded: rd is 0, the word is rs2's and every other byte is as it was. */
  ghost predicate Stored(isa: Isa, t: State, input: Input)
    requires Good(t) && Consumes(Reached(isa, t, input))
  {
    var a, t' := Reached(isa, t, input).value, Left(isa, t, input);
    var d := a.item.decoded;
    Result(isa, t, input).commit.Some? && (d.rd != 0 && |t'.h.x| == 32 ==> t'.h.x[d.rd] == 0) &&
    BusRead(t'.b, a.at, 4) == Some(Reg(a.h, d.rs2) % 0x1_0000_0000) &&
    forall q :: !Within(q, a.at, 4) ==> ByteAt(t'.b, q) == ByteAt(a.b, q)
  }

  /** It did not: rd is 1 and RAM is as the translation left it. */
  ghost predicate Refused(isa: Isa, t: State, input: Input)
    requires Good(t) && Consumes(Reached(isa, t, input))
  {
    var a, t' := Reached(isa, t, input).value, Left(isa, t, input);
    Result(isa, t, input).commit.Some? && t'.b.ram == a.b.ram &&
    (a.item.decoded.rd != 0 && |t'.h.x| == 32 ==> t'.h.x[a.item.decoded.rd] == 1)
  }

  predicate Matches(t: State, a: Attempt) {
    t.h.id in t.b.reservations && t.b.reservations[t.h.id] == Reservation(a.at, a.b.epoch)
  }

  lemma ConditionalStep(isa: Isa, t: State, input: Input)
    requires Good(t) && Consumes(Reached(isa, t, input)) && Backed(Reached(isa, t, input).value)
    ensures if Matches(t, Reached(isa, t, input).value) then Stored(isa, t, input) else Refused(isa, t, input)
    ensures |Left(isa, t, input).h.x| == 32
  {
    hide FetchDecode; hide Step; hide ItemsLegal; hide CachesShaped; hide MmuTranslate; hide Legal; hide Reg;
    hide Committed;
    hide PutPart; hide Part; hide SelectFrom; hide WakeRequested; hide Trapped;
    ReachedRuns(isa, t, input);
    var a := Reached(isa, t, input).value;
    var d := a.item.decoded;
    var v := Reg(a.h, d.rs2);
    ReachedShape(isa, t, input);
    LoadAfterStore(a.b, a.at, 4, v);
    forall q | !Within(q, a.at, 4) ensures ByteAt(BusWrite(a.b, a.at, 4, v).value, q) == ByteAt(a.b, q) {
      WriteIsBytes(a.b, a.at, 4, v, q);
    }
    var o := Accessed(isa, a).0;
    PlainCommits(a.h, o);
    LegalSteps.CommitEffect(a.h, o.c);
  }

  /** The hart of an attempt is the step's, and the place is aligned. */
  lemma ReachedShape(isa: Isa, t: State, input: Input)
    requires Good(t) && Reached(isa, t, input).Some?
    ensures var a := Reached(isa, t, input).value; |a.h.x| == 32 && a.h.id == t.h.id && Natural(a.at, 4)
  {
    hide FetchDecode; hide ItemsLegal; hide CachesShaped; hide MmuTranslate; hide SelectFrom; hide WakeRequested;
    var h := Begin(t.h, input.lines).h;
    var (f, b1, c1) := FetchDecode(isa, t.b, h, t.c);
    FetchLegal(isa, t.b, h, t.c);
    ReadyMmu(c1);
    var d := f.item.decoded;
    var va := Reg(h, d.rs1);
    OffsetKept(b1, MmuOf(c1), h, va, if d.kind == LrW then Load else Store);
    AlignedOffset(va, 4);
  }

  /** It retires exactly when it gets to an access of backed RAM. */
  lemma RetiresIs(isa: Isa, t: State, input: Input)
    requires Good(t) && Executed(isa, t, input).Some? && Executed(isa, t, input).value.kind == ScW
    ensures Result(isa, t, input).commit.Some? <==>
            Consumes(Reached(isa, t, input)) && Backed(Reached(isa, t, input).value)
  {
    hide FetchDecode; hide RunUnit; hide ItemsLegal; hide CachesShaped; hide MmuTranslate; hide Legal; hide Reg;
    hide Result;
    hide PutPart; hide Part; hide SelectFrom; hide WakeRequested; hide IsAmo;
    StepShows(isa, t, input);
    var h := Begin(t.h, input.lines).h;
    var (f, b1, c1) := FetchDecode(isa, t.b, h, t.c);
    UnitReaches(isa, b1, MmuOf(c1), h, input.time, f.item.decoded);
  }

  /* ---- what counts as a write ---- */

  /** A store or an AMO that retires. */
  predicate Writes(isa: Isa, t: State, input: Input)
    requires CachesReady(t.c)
  {
    Executed(isa, t, input).Some? && Result(isa, t, input).commit.Some? &&
    (IsStore(Executed(isa, t, input).value.kind) || IsAmo(Executed(isa, t, input).value.kind))
  }

  lemma MoreADBack(a: nat, b: nat)
    requires MoreAD(a, b) && MoreAD(b, a)
    ensures a == b
  {
    Flags(a); Flags(b);
  }

  lemma Flags(w: nat)
    ensures w == 0x100 * (w / 0x100) + w / 0x80 % 2 * 0x80 + w / 0x40 % 2 * 0x40 + w % 0x40
  {
    var q := w / 0x40;
    assert w / 0x80 == q / 2 && w / 0x100 == q / 4;
    assert q == 4 * (q / 4) + q / 2 % 2 * 2 + q % 2;
  }

  /** Memory that only gains A and D bits on a way that ends where it began stays the same on it. */
  lemma OnlyADBack(m: Ram, m': Ram)
    requires OnlyAD(m, m') && OnlyAD(m', m)
    ensures m' == m
  {
    hide MoreAD;
    forall p | p in m ensures m'[p] == m[p] { MoreADBack(m[p], m'[p]); }
  }

  /** The bus moved on by A and D updates alone: its count stands still exactly while RAM does. */
  predicate Updated(b: Bus, b': Bus) {
    OnlyAD(b.ram, b'.ram) && b.epoch <= b'.epoch && (b'.epoch == b.epoch <==> b'.ram == b.ram)
  }

  lemma UpdatedChained(b: Bus, b': Bus, b'': Bus)
    requires Updated(b, b') && Updated(b', b'')
    ensures Updated(b, b'')
  {
    hide OnlyAD;
    OnlyADTransitive(b.ram, b'.ram, b''.ram);
    if b''.ram == b.ram { OnlyADBack(b.ram, b'.ram); }
  }

  lemma TranslateUpdates(b: Bus, mmu: Mmu, h: Hart, va: nat, access: Access)
    requires MmuReady(mmu)
    ensures Updated(b, MmuTranslate(b, mmu, h, va, access).1)
  {
    hide Translate; hide Tlb.CachedTranslate; hide OnlyAD;
    TranslateOnlyAD(b, mmu, h, va, access);
  }

  lemma FetchUpdates(isa: Isa, b: Bus, h: Hart, c: Option<Caches>)
    requires CachesReady(c)
    ensures Updated(b, FetchDecode(isa, b, h, c).1)
  {
    hide MmuTranslate; hide Finish; hide CachesShaped; hide Icache.Lookup; hide AtPageEnd; hide BusRead; hide OnlyAD;
    var mmu := MmuOf(c);
    assert MmuReady(mmu) by { if c.Some? { CachedReady(c.value); } }
    SameOnlyAD(b.ram);
    TranslateUpdates(b, mmu, h, h.pc, Fetch);
    var (_, b1, mmu1) := FetchHalf(b, mmu, h, h.pc);
    var next := Wrap(Rv32, h.pc + 2);
    TranslateUpdates(b1, mmu1, h, next, Fetch);
    UpdatedChained(b, b1, FetchHalf(b1, mmu1, h, next).1);
  }

  predicate WritesMemory(d: Instruction, o: Outcome) { o.Retire? && (IsStore(d.kind) || IsAmo(d.kind)) }

  /** A unit updates A and D bits, or counts a write for a store, an AMO or an SC. */
  lemma UnitUpdates(isa: Isa, b: Bus, mmu: Mmu, h: Hart, time: nat, d: Instruction)
    requires MmuReady(mmu) && d.kind != ScW
    ensures var (o, b', _) := RunUnit(isa, b, mmu, h, time, d);
            if WritesMemory(d, o) then b'.epoch > b.epoch else Updated(b, b')
  {
    hide MmuTranslate; hide RunInteger; hide RunPrivileged; hide RunControlFlow; hide RunCsr; hide UnitOf; hide OnlyAD;
    hide AtomicAccess; hide Wrap; hide RunMemory; hide Updated; hide IsAmo;
    AtomicUnit(d.kind);
    SameUpdated(b);
    OtherKinds(isa, h, d, time);
    if UnitOf(d.kind) == Unit.Atomic {
      UnitReaches(isa, b, mmu, h, time, d);
      TranslateUpdates(b, mmu, h, Reg(h, d.rs1), if d.kind == LrW then Load else Store);
      var (to, b2, _) := MmuTranslate(b, mmu, h, Reg(h, d.rs1), if d.kind == LrW then Load else Store);
      IsAmoKind(d.kind);
      AtomicIsNoStore(d.kind);
      if to.Ready? && Reg(h, d.rs1) % 4 == 0 {
        AccessUpdates(isa, b2, h, d, to.address, Reg(h, d.rs1), Reg(h, d.rs2));
        UpdatedMonotone(b, b2);
        if d.kind == LrW || AtomicAccess(isa, b2, h, d, to.address, Reg(h, d.rs1), Reg(h, d.rs2)).0.Trap? {
          UpdatedChained(b, b2, AtomicAccess(isa, b2, h, d, to.address, Reg(h, d.rs1), Reg(h, d.rs2)).1);
        }
      }
    } else if UnitOf(d.kind) == Unit.Memory {
      MemoryUpdates(isa, b, mmu, h, d, Reg(h, d.rs1), Reg(h, d.rs2));
    }
  }

  lemma SameUpdated(b: Bus)
    ensures Updated(b, b)
  {
    SameOnlyAD(b.ram);
  }

  lemma UpdatedMonotone(b: Bus, b': Bus)
    requires Updated(b, b')
    ensures b.epoch <= b'.epoch
  {}

  lemma AtomicIsNoStore(k: Kind)
    ensures IsAtomic(k) ==> !IsStore(k)
  {}

  lemma OtherKinds(isa: Isa, h: Hart, d: Instruction, time: nat)
    ensures UnitOf(d.kind) != Unit.Atomic && UnitOf(d.kind) != Unit.Memory ==> !IsStore(d.kind) && !IsAmo(d.kind)
    ensures UnitOf(d.kind) == Unit.Memory ==> !IsAmo(d.kind) && (IsLoad(d.kind) || IsStore(d.kind))
  {}

  lemma AccessUpdates(isa: Isa, b: Bus, h: Hart, d: Instruction, p: Phys, va: nat, v: nat)
    requires IsAtomic(d.kind) && d.kind != ScW
    ensures var (o, b') := AtomicAccess(isa, b, h, d, p, va, v);
            if WritesMemory(d, o) then b'.epoch > b.epoch else Updated(b, b') && (d.kind == LrW || o.Trap?)
  {
    hide PutPart; hide Part; hide OnlyAD;
    SameOnlyAD(b.ram);
  }

  lemma MemoryUpdates(isa: Isa, b: Bus, mmu: Mmu, h: Hart, d: Instruction, a: nat, v: nat)
    requires MmuReady(mmu) && (IsLoad(d.kind) || IsStore(d.kind)) && !IsAmo(d.kind)
    ensures var (o, b', _) := RunMemory(isa, b, mmu, h, d, a, v);
            if WritesMemory(d, o) then b'.epoch > b.epoch else Updated(b, b')
  {
    hide MmuTranslate; hide OnlyAD; hide Wrap; hide PutPart; hide Part; hide Next; hide Updated; hide IsAmo;
    var va := Wrap(Rv32, a + d.imm);
    var access := if IsLoad(d.kind) then Load else Store;
    SameUpdated(b);
    TranslateUpdates(b, mmu, h, va, access);
    UpdatedMonotone(b, MmuTranslate(b, mmu, h, va, access).1);
  }

  /** What the step of a fetched instruction shows of its unit's outcome. */
  lemma StepShows(isa: Isa, t: State, input: Input)
    requires Good(t) && Executed(isa, t, input).Some?
    ensures var h := Begin(t.h, input.lines).h;
            var (f, b1, c1) := FetchDecode(isa, t.b, h, t.c);
            MmuReady(MmuOf(c1)) && f.Got? &&
            var (o, b2, _) := RunUnit(isa, b1, MmuOf(c1), h, input.time, f.item.decoded);
            Left(isa, t, input).b == b2 && (Result(isa, t, input).commit.Some? <==> o.Retire?)
  {
    hide FetchDecode; hide RunUnit; hide ItemsLegal; hide CachesShaped; hide SelectFrom; hide WakeRequested;
    hide Committed;
    hide Step; hide Trapped; hide Legal;
    var h := Begin(t.h, input.lines).h;
    var (f, b1, c1) := FetchDecode(isa, t.b, h, t.c);
    FetchLegal(isa, t.b, h, t.c);
    ReadyMmu(c1);
    StepRuns(isa, t.h, t.b, t.c, input);
    HartLegal(t.h, input.lines);
    UnitCommits(isa, b1, MmuOf(c1), h, input.time, f.item.decoded);
    var o := RunUnit(isa, b1, MmuOf(c1), h, input.time, f.item.decoded).0;
    if o.Trap? { TrapReports(h, f.item.raw, o.cause, o.value, o.fault); }
  }

  lemma HartLegal(h: Hart, lines: set<nat>)
    requires Legal(Rv32, h) && Begin(h, lines).Runs?
    ensures |Begin(h, lines).h.x| == 32
  {}

  lemma TrapReports(h: Hart, raw: nat, cause: nat, value: nat, fault: Fault)
    ensures Trapped(h, raw, cause, value, fault).0.commit.None?
  {
    hide TakeTrap;
  }

  /** A step that fetches nothing to execute makes A and D updates alone. */
  lemma NoneUpdates(isa: Isa, t: State, input: Input)
    requires Good(t) && Executed(isa, t, input).None?
    ensures Updated(t.b, Left(isa, t, input).b)
  {
    hide FetchDecode; hide RunUnit; hide RunAll; hide ItemsLegal; hide CachesShaped; hide SelectFrom;
    hide WakeRequested;
    hide TakeTrap; hide TakeInterrupt; hide Conclude; hide Maintain; hide WithMmu; hide Updated;
    SameUpdated(t.b);
    var begun := Begin(t.h, input.lines);
    if begun.Runs? { FetchUpdates(isa, t.b, begun.h, t.c); }
  }

  /** Outside store-conditionals the count of a step stands still exactly while it neither writes nor changes RAM. */
  lemma StepUpdates(isa: Isa, t: State, input: Input)
    requires Good(t) && !Consumes(Reached(isa, t, input))
    ensures var t' := Left(isa, t, input);
            t.b.epoch <= t'.b.epoch && (t'.b.epoch == t.b.epoch <==> t'.b.ram == t.b.ram && !Writes(isa, t, input))
  {
    hide FetchDecode; hide RunUnit; hide ItemsLegal; hide CachesShaped; hide MmuTranslate; hide Left; hide Result;
    hide SelectFrom; hide Legal; hide WakeRequested; hide IsAmo; hide Reg; hide OnlyAD; hide IsStore;
    if Executed(isa, t, input).None? {
      NoneUpdates(isa, t, input);
    } else {
      var h := Begin(t.h, input.lines).h;
      var (f, b1, c1) := FetchDecode(isa, t.b, h, t.c);
      StepShows(isa, t, input);
      FetchUpdates(isa, t.b, h, t.c);
      var d := f.item.decoded;
      var (o, b2, _) := RunUnit(isa, b1, MmuOf(c1), h, input.time, d);
      AnyUpdates(isa, b1, MmuOf(c1), h, input.time, d);
      if !WritesMemory(d, o) { UpdatedChained(t.b, b1, b2); }
    }
  }

  /** A store-conditional that does not get to its access is no exception. */
  lemma AnyUpdates(isa: Isa, b: Bus, mmu: Mmu, h: Hart, time: nat, d: Instruction)
    requires MmuReady(mmu)
    requires d.kind == ScW && Reg(h, d.rs1) % 4 == 0 ==> !MmuTranslate(b, mmu, h, Reg(h, d.rs1), Store).0.Ready?
    ensures var (o, b', _) := RunUnit(isa, b, mmu, h, time, d);
            b.epoch <= b'.epoch && if WritesMemory(d, o) then b'.epoch > b.epoch else Updated(b, b')
  {
    hide RunUnit; hide MmuTranslate; hide Updated; hide IsAmo; hide IsStore;
    if d.kind == ScW {
      UnitReaches(isa, b, mmu, h, time, d);
      TranslateUpdates(b, mmu, h, Reg(h, d.rs1), Store);
      ScWrites(d.kind);
      SameUpdated(b);
    } else {
      UnitUpdates(isa, b, mmu, h, time, d);
    }
    var (o, b', _) := RunUnit(isa, b, mmu, h, time, d);
    if !WritesMemory(d, o) { UpdatedMonotone(b, b'); }
  }

  lemma ScWrites(k: Kind)
    requires k == ScW
    ensures !IsStore(k) && !IsAmo(k)
  {}

  /** The same up to the access of an attempt. */
  lemma ReachedUpdates(isa: Isa, t: State, input: Input)
    requires Good(t) && Reached(isa, t, input).Some?
    ensures Updated(t.b, Reached(isa, t, input).value.b)
  {
    hide FetchDecode; hide ItemsLegal; hide CachesShaped; hide MmuTranslate; hide SelectFrom; hide WakeRequested;
    hide Updated;
    var h := Begin(t.h, input.lines).h;
    var (f, b1, c1) := FetchDecode(isa, t.b, h, t.c);
    FetchLegal(isa, t.b, h, t.c);
    ReadyMmu(c1);
    FetchUpdates(isa, t.b, h, t.c);
    var d := f.item.decoded;
    TranslateUpdates(b1, MmuOf(c1), h, Reg(h, d.rs1), if d.kind == LrW then Load else Store);
    UpdatedChained(t.b, b1, Reached(isa, t, input).value.b);
  }
}
