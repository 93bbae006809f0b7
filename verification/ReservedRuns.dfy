/** LR.W and SC.W over runs of the RV32 core: when a store-conditional succeeds, and that RAM is then what it was
    at the load-reserved. No epoch appears in the conditions. */
module ReservedRuns {
  import opened Wrappers
  import opened Paging
  import opened Hart
  import opened HartProofs
  import opened Core32
  import opened StepProofs
  import opened ReservedSteps
  import LegalSteps

  /** The LR, SC or AMO that step n gets to access for. */
  function Attempted(isa: Isa, s: State, events: seq<Event>, n: nat): Option<Attempt>
    requires CachesReady(s.c) && n < |events|
  {
    Reached(isa, Before(isa, s, events, n), events[n].input)
  }

  lemma StepGood(isa: Isa, s: State, e: Event)
    requires Good(s)
    ensures Good(Entered(s, e)) && Good(Left(isa, Entered(s, e), e.input)) &&
        Left(isa, Entered(s, e), e.input).h.id == s.h.id
  {
    hide Step; hide ItemsLegal; hide Legal; hide CachesShaped; hide Dma;
    var t := Entered(s, e);
    LegalSteps.ElapseLegal(s.h, e);
    LegalSteps.LegalEven(t.h);
    LegalSteps.StepLegal(isa, t.h, t.b, t.c, e.input);
    StepTotal(isa, t.h, t.b, t.c, e.input);
    IdStays(isa, t, e.input);
  }

  lemma {:induction false} RunGood(isa: Isa, s: State, events: seq<Event>, n: nat)
    requires Good(s) && n <= |events|
    ensures Good(At(isa, s, events, n)) && At(isa, s, events, n).h.id == s.h.id
    ensures n < |events| ==> Good(Before(isa, s, events, n)) && Before(isa, s, events, n).h.id == s.h.id
  {
    hide ItemsLegal; hide Legal; hide CachesShaped; hide Left;
    if n > 0 {
      RunGood(isa, s, events, n - 1);
      StepGood(isa, At(isa, s, events, n - 1), events[n - 1]);
    }
    if n < |events| { StepGood(isa, At(isa, s, events, n), events[n]); }
  }

  /* ---- the reservation in force ---- */

  /** Step i reserved, and until step n no LR of the hart replaced that reservation and no SC used it up. */
  ghost predicate Stands(isa: Isa, s: State, events: seq<Event>, i: nat, n: nat)
    requires CachesReady(s.c) && n <= |events|
  {
    i < n && Reserves(Attempted(isa, s, events, i)) &&
    forall j: nat :: i < j < n ==> !Reserves(Attempted(isa, s, events, j)) && !Consumes(Attempted(isa, s, events, j))
  }

  predicate Recorded(isa: Isa, s: State, events: seq<Event>, i: nat, n: nat)
    requires CachesReady(s.c) && i < n <= |events|
  {
    var r := At(isa, s, events, n).b.reservations;
    s.h.id in r && Attempted(isa, s, events, i).Some? &&
    r[s.h.id] == Reservation(Attempted(isa, s, events, i).value.at, At(isa, s, events, i + 1).b.epoch)
  }

  lemma OneStep(isa: Isa, s: State, events: seq<Event>, n: nat)
    requires Good(s) && n < |events|
    ensures var a, r, r' := Attempted(isa, s, events, n), At(isa, s, events, n).b.reservations,
              At(isa, s, events, n + 1).b.reservations;
            if Reserves(a) then Recorded(isa, s, events, n, n + 1)
            else if Consumes(a) then s.h.id !in r' else r' == r
  {
    hide Left; hide Reached; hide ItemsLegal; hide Legal; hide CachesShaped; hide Dma;
    RunGood(isa, s, events, n);
    var t := Before(isa, s, events, n);
    ReservationStep(isa, t, events[n].input);
    assert t.b.reservations == At(isa, s, events, n).b.reservations by { DmaKeeps(At(isa, s, events, n).b, events[n]); }
  }

  lemma DmaKeeps(b: Bus, e: Event)
    ensures Dma(b, e).reservations == b.reservations && b.epoch <= Dma(b, e).epoch
    ensures Dma(b, e).epoch == b.epoch <==> e.dma == map[]
    ensures e.dma == map[] ==> Dma(b, e).ram == b.ram
  {
    if |e.dma| == 0 { assert e.dma.Keys == {}; }
    if e.dma == map[] { assert Dma(b, e).ram == b.ram; }
  }

  lemma {:induction false} ReservationIsLatest(isa: Isa, s: State, events: seq<Event>, n: nat)
    requires Good(s) && s.b.reservations == map[] && n <= |events|
    ensures s.h.id in At(isa, s, events, n).b.reservations ==> exists i: nat :: Stands(isa, s, events, i, n)
    ensures forall i: nat :: Stands(isa, s, events, i, n) ==> Recorded(isa, s, events, i, n)
  {
    hide Left; hide Reached; hide ItemsLegal; hide Legal; hide CachesShaped; hide Reserves; hide Consumes;
    if n > 0 {
      ReservationIsLatest(isa, s, events, n - 1);
      OneStep(isa, s, events, n - 1);
      if Reserves(Attempted(isa, s, events, n - 1)) {
        assert Stands(isa, s, events, n - 1, n);
      } else if s.h.id in At(isa, s, events, n).b.reservations {
        var i: nat :| Stands(isa, s, events, i, n - 1);
        assert Stands(isa, s, events, i, n);
      }
      forall i: nat | Stands(isa, s, events, i, n) ensures Recorded(isa, s, events, i, n) {
        if i < n - 1 { assert Stands(isa, s, events, i, n - 1); }
      }
    }
  }

  /* ---- steps that write nothing ---- */

  /** Event and step write nothing: no DMA, no retiring store or AMO, no change of RAM by the page walk. */
  predicate Quiet(isa: Isa, s: State, events: seq<Event>, j: nat)
    requires CachesReady(s.c) && j < |events|
  {
    events[j].dma == map[] && !Writes(isa, Before(isa, s, events, j), events[j].input) &&
    At(isa, s, events, j + 1).b.ram == At(isa, s, events, j).b.ram
  }

  lemma QuietIsEpoch(isa: Isa, s: State, events: seq<Event>, j: nat)
    requires Good(s) && j < |events| && !Consumes(Attempted(isa, s, events, j))
    ensures At(isa, s, events, j).b.epoch <= At(isa, s, events, j + 1).b.epoch
    ensures At(isa, s, events, j).b.epoch == At(isa, s, events, j + 1).b.epoch <==> Quiet(isa, s, events, j)
  {
    hide Left; hide Reached; hide ItemsLegal; hide Legal; hide CachesShaped; hide Dma; hide Writes;
    RunGood(isa, s, events, j);
    DmaKeeps(At(isa, s, events, j).b, events[j]);
    StepUpdates(isa, Before(isa, s, events, j), events[j].input);
  }

  lemma {:induction false} QuietBetween(isa: Isa, s: State, events: seq<Event>, i: nat, n: nat)
    requires Good(s) && i <= n <= |events| && forall j: nat :: i <= j < n ==> !Consumes(Attempted(isa, s, events, j))
    ensures At(isa, s, events, i).b.epoch <= At(isa, s, events, n).b.epoch
    ensures At(isa, s, events, i).b.epoch == At(isa, s, events, n).b.epoch
            <==> forall j: nat :: i <= j < n ==> Quiet(isa, s, events, j)
    ensures At(isa, s, events, i).b.epoch == At(isa, s, events, n).b.epoch ==>
            At(isa, s, events, i).b.ram == At(isa, s, events, n).b.ram
    decreases n
  {
    hide At; hide Reached; hide ItemsLegal; hide Legal; hide CachesShaped; hide Writes; hide Consumes;
    if i < n {
      QuietBetween(isa, s, events, i, n - 1);
      QuietIsEpoch(isa, s, events, n - 1);
    }
  }

  /* ---- store-conditionals ---- */

  /** The SC of step n is undisturbed since the LR of step i: of the same place, still standing, and nothing was
      written since, by the SC's own fetch and translation included. */
  ghost predicate Undisturbed(isa: Isa, s: State, events: seq<Event>, i: nat, n: nat)
    requires CachesReady(s.c) && n < |events| && Attempted(isa, s, events, n).Some?
  {
    var a := Attempted(isa, s, events, n).value;
    Stands(isa, s, events, i, n) && Attempted(isa, s, events, i).value.at == a.at &&
    (forall j: nat :: i < j < n ==> Quiet(isa, s, events, j)) && events[n].dma == map[] &&
    a.b.ram == At(isa, s, events, n).b.ram
  }

  lemma MatchesIs(isa: Isa, s: State, events: seq<Event>, i: nat, n: nat)
    requires Good(s) && n < |events| && Attempted(isa, s, events, n).Some? && Stands(isa, s, events, i, n) &&
        Recorded(isa, s, events, i, n)
    ensures Matches(Before(isa, s, events, n), Attempted(isa, s, events, n).value) <==>
        Undisturbed(isa, s, events, i, n)
    ensures Undisturbed(isa, s, events, i, n) ==>
        Attempted(isa, s, events, n).value.b.ram == At(isa, s, events, i + 1).b.ram
  {
    hide At; hide Reached; hide ItemsLegal; hide Legal; hide CachesShaped; hide Writes; hide Dma; hide Quiet;
    RunGood(isa, s, events, n);
    var t, a := Before(isa, s, events, n), Attempted(isa, s, events, n).value;
    DmaKeeps(At(isa, s, events, n).b, events[n]);
    ReachedUpdates(isa, t, events[n].input);
    UpdatedMonotone(t.b, a.b);
    QuietBetween(isa, s, events, i + 1, n);
    assert t.b.reservations == At(isa, s, events, n).b.reservations;
  }

  /** Over every run from a state without reservations, disciplined or not and in either mode: an SC.W that
      retires has succeeded exactly when some LR.W stands undisturbed before it, RAM being then as that left it,
      and was refused otherwise. */
  lemma ConditionalIsAtomic(isa: Isa, s: State, events: seq<Event>, n: nat)
    requires Good(s) && s.b.reservations == map[] && n < |events|
    requires var t := Before(isa, s, events, n);
             Executed(isa, t, events[n].input).Some? && Executed(isa, t, events[n].input).value.kind == ScW &&
             Result(isa, t, events[n].input).commit.Some?
    ensures Good(Before(isa, s, events, n)) && Consumes(Attempted(isa, s, events, n))
    ensures if exists i: nat :: Undisturbed(isa, s, events, i, n)
            then Stored(isa, Before(isa, s, events, n), events[n].input)
            else Refused(isa, Before(isa, s, events, n), events[n].input)
    ensures forall i: nat :: Undisturbed(isa, s, events, i, n) ==>
        Attempted(isa, s, events, n).value.b.ram == At(isa, s, events, i + 1).b.ram
  {
    hide At; hide Reached; hide ItemsLegal; hide Legal; hide CachesShaped; hide Stored; hide Refused; hide Dma;
    hide Quiet;
    RunGood(isa, s, events, n);
    var t := Before(isa, s, events, n);
    RetiresIs(isa, t, events[n].input);
    var a := Attempted(isa, s, events, n).value;
    ConditionalStep(isa, t, events[n].input);
    ReservationIsLatest(isa, s, events, n);
    DmaKeeps(At(isa, s, events, n).b, events[n]);
    if Matches(t, a) {
      var i: nat :| Stands(isa, s, events, i, n);
      MatchesIs(isa, s, events, i, n);
    }
    forall i: nat | Undisturbed(isa, s, events, i, n)
      ensures Matches(t, a) && a.b.ram == At(isa, s, events, i + 1).b.ram {
      MatchesIs(isa, s, events, i, n);
    }
  }
}
