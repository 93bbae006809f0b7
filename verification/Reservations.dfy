/** LR/SC by a global write epoch: a store-conditional succeeds exactly when nothing happened
    since the hart's latest reservation that could matter. */
module Reservations {
  import opened Wrappers
  import opened Endian
  import opened SystemBus

  datatype Reservation = Reservation(address: nat, width: Width, epoch: nat)

  /** RAM on the bus, LR reservations by hart, and the count of successful writes. */
  datatype State = State(ram: seq<byte>, base: nat, reservations: map<nat, Reservation>, epoch: nat)

  /** One bus transaction of any hart or device. */
  datatype Op =
    | Read(address: nat, width: Width)
    | Write(address: nat, width: Width, value: nat)           // stores, page-table updates and DMA
    | DeviceWrite(ok: bool)                                   // a write routed elsewhere
    | Amo(address: nat, width: Width, replacement: nat)       // whatever the operation computes
    | LoadReserved(hart: nat, address: nat, width: Width)
    | StoreConditional(hart: nat, address: nat, width: Width, value: nat)
    | ClearReservations

  datatype Outcome = Unmapped | Misaligned | Done(value: nat) | Conditional(succeeded: bool)

  predicate Aligned(address: nat, w: Width) { address % Count(w) == 0 }

  predicate Backed(s: State, address: nat, w: Width) { Contains(Range(s.base, |s.ram|), address, w) }

  function WriteRam(s: State, address: nat, w: Width, value: nat): State
    requires Backed(s, address, w)
  {
    s.(ram := Stored(s.ram, address - s.base, w, value), epoch := s.epoch + 1)
  }

  function Matches(s: State, hart: nat, address: nat, w: Width): bool {
    hart in s.reservations && s.reservations[hart] == Reservation(address, w, s.epoch)
  }

  function Conditionally(s: State, hart: nat, address: nat, w: Width, value: nat): (State, Outcome) {
    if !Aligned(address, w) then (s, Misaligned)
    else
      var s' := s.(reservations := s.reservations - {hart});
      if !Backed(s, address, w) then (s', Unmapped)
      else if !Matches(s, hart, address, w) then (s', Conditional(false))
      else (WriteRam(s', address, w, value), Conditional(true))
  }

  function Apply(s: State, op: Op): (State, Outcome) {
    match op
    case Read(a, w) => (s, if Backed(s, a, w) then Done(Loaded(s.ram, a - s.base, w)) else Unmapped)
    case Write(a, w, v) => if Backed(s, a, w) then (WriteRam(s, a, w, v), Done(0)) else (s, Unmapped)
    case DeviceWrite(ok) => if ok then (s.(epoch := s.epoch + 1), Done(0)) else (s, Unmapped)
    case Amo(a, w, v) =>
      if !Aligned(a, w) then (s, Misaligned)
      else if !Backed(s, a, w) then (s, Unmapped)
      else (WriteRam(s, a, w, v), Done(Loaded(s.ram, a - s.base, w)))
    case LoadReserved(hart, a, w) =>
      if !Aligned(a, w) then (s, Misaligned)
      else if !Backed(s, a, w) then (s, Unmapped)
      else (s.(reservations := s.reservations[hart := Reservation(a, w, s.epoch)]), Done(Loaded(s.ram, a - s.base, w)))
    case StoreConditional(hart, a, w, v) => Conditionally(s, hart, a, w, v)
    case ClearReservations => (s.(reservations := map[]), Done(0))
  }

  /* ---- histories ---- */

  function At(s: State, ops: seq<Op>, n: nat): State
    requires n <= |ops|
  {
    if n == 0 then s else Apply(At(s, ops, n - 1), ops[n - 1]).0
  }

  function OutcomeAt(s: State, ops: seq<Op>, n: nat): Outcome
    requires n < |ops|
  {
    Apply(At(s, ops, n), ops[n]).1
  }

  /** Operation i is a load-reserved by this hart that succeeded. */
  predicate Reserves(s: State, ops: seq<Op>, i: nat, hart: nat)
    requires i < |ops|
  {
    ops[i].LoadReserved? && ops[i].hart == hart && OutcomeAt(s, ops, i).Done?
  }

  /** Operation j replaces or consumes this hart's reservation. */
  predicate Replaces(s: State, ops: seq<Op>, j: nat, hart: nat)
    requires j < |ops|
  {
    Reserves(s, ops, j, hart) || ops[j].ClearReservations? ||
    (ops[j].StoreConditional? && ops[j].hart == hart && Aligned(ops[j].address, ops[j].width))
  }

  /** Operation j wrote something somewhere on the bus. */
  predicate Writes(s: State, ops: seq<Op>, j: nat)
    requires j < |ops|
  {
    (ops[j].Write? && OutcomeAt(s, ops, j).Done?) || (ops[j].Amo? && OutcomeAt(s, ops, j).Done?) ||
    (ops[j].DeviceWrite? && ops[j].ok) || (ops[j].StoreConditional? && OutcomeAt(s, ops, j) == Conditional(true))
  }

  /** Operation i reserved for this hart and its reservation still stands before operation n. */
  ghost predicate Stands(s: State, ops: seq<Op>, i: nat, n: nat, hart: nat)
    requires n <= |ops|
  {
    i < n && Reserves(s, ops, i, hart) && forall j: nat :: i < j < n ==> !Replaces(s, ops, j, hart)
  }

  /** The reservation in force is that of the latest reserving operation, with its address, width and epoch. */
  lemma {:induction false} ReservationIsLatest(s: State, ops: seq<Op>, n: nat, hart: nat)
    requires s.reservations == map[] && n <= |ops|
    ensures hart in At(s, ops, n).reservations ==> exists i: nat :: Stands(s, ops, i, n, hart)
    ensures forall i: nat :: Stands(s, ops, i, n, hart) ==> Recorded(s, ops, i, n, hart)
  {
    hide Apply; hide Replaces; hide Reserves;
    if n > 0 {
      ReservationIsLatest(s, ops, n - 1, hart);
      ReplacedBy(s, ops, n - 1, hart);
      if Reserves(s, ops, n - 1, hart) {
        assert Stands(s, ops, n - 1, n, hart);
      } else if hart in At(s, ops, n).reservations {
        var i: nat :| Stands(s, ops, i, n - 1, hart);
        assert Stands(s, ops, i, n, hart);
      }
      forall i: nat | Stands(s, ops, i, n, hart) ensures Recorded(s, ops, i, n, hart) {
        if i < n - 1 { assert Stands(s, ops, i, n - 1, hart) && !Replaces(s, ops, n - 1, hart); }
      }
    }
  }

  /** The reservation in force before n is the one that operation i made. */
  predicate Recorded(s: State, ops: seq<Op>, i: nat, n: nat, hart: nat)
    requires i < n <= |ops|
  {
    ops[i].LoadReserved? && hart in At(s, ops, n).reservations &&
    At(s, ops, n).reservations[hart] == Reservation(ops[i].address, ops[i].width, At(s, ops, i).epoch)
  }

  lemma ReplacedBy(s: State, ops: seq<Op>, n: nat, hart: nat)
    requires n < |ops|
    ensures if Reserves(s, ops, n, hart) then Recorded(s, ops, n, n + 1, hart)
            else if Replaces(s, ops, n, hart) then hart !in At(s, ops, n + 1).reservations
            else (hart in At(s, ops, n + 1).reservations <==> hart in At(s, ops, n).reservations) &&
                 (hart in At(s, ops, n).reservations ==>
                   At(s, ops, n + 1).reservations[hart] == At(s, ops, n).reservations[hart])
    ensures Reserves(s, ops, n, hart) ==> Replaces(s, ops, n, hart)
  {
    hide Apply; hide Aligned;
    OneStep(At(s, ops, n), ops[n], hart);
  }

  /** What one operation does to a hart's reservation. */
  lemma OneStep(s: State, op: Op, hart: nat)
    ensures var (s', o) := Apply(s, op);
            if op.LoadReserved? && op.hart == hart && o.Done? then
              hart in s'.reservations && s'.reservations[hart] == Reservation(op.address, op.width, s.epoch)
            else if op.ClearReservations? ||
                (op.StoreConditional? && op.hart == hart && Aligned(op.address, op.width)) then
              hart !in s'.reservations
            else (hart in s'.reservations <==> hart in s.reservations) &&
                 (hart in s.reservations ==> s'.reservations[hart] == s.reservations[hart])
  {
    hide Aligned; hide Stored; hide Loaded;
  }

  /** The epoch counts the writes: it stands still exactly while nothing is written, and then RAM is
      byte for byte the same. */
  lemma {:induction false} EpochCounts(s: State, ops: seq<Op>, i: nat, n: nat)
    requires i <= n <= |ops|
    ensures At(s, ops, i).epoch <= At(s, ops, n).epoch
    ensures At(s, ops, i).epoch == At(s, ops, n).epoch <==> forall j: nat :: i <= j < n ==> !Writes(s, ops, j)
    ensures At(s, ops, i).epoch == At(s, ops, n).epoch ==> At(s, ops, i).ram == At(s, ops, n).ram
    decreases n
  {
    hide Apply; hide Writes;
    if i < n {
      EpochCounts(s, ops, i, n - 1);
      WriteCounts(s, ops, n - 1);
    }
  }

  lemma WriteCounts(s: State, ops: seq<Op>, n: nat)
    requires n < |ops|
    ensures At(s, ops, n + 1).epoch == if Writes(s, ops, n) then At(s, ops, n).epoch + 1 else At(s, ops, n).epoch
    ensures !Writes(s, ops, n) ==> At(s, ops, n + 1).ram == At(s, ops, n).ram
  {
    hide Apply;
    StepCounts(At(s, ops, n), ops[n]);
  }

  lemma StepCounts(s: State, op: Op)
    ensures var (s', o) := Apply(s, op);
            var writes := (op.Write? && o.Done?) || (op.Amo? && o.Done?) || (op.DeviceWrite? && op.ok) ||
                          (op.StoreConditional? && o == Conditional(true));
            s'.epoch == (if writes then s.epoch + 1 else s.epoch) && (!writes ==> s'.ram == s.ram) &&
            s'.base == s.base && |s'.ram| == |s.ram|
  {
    hide Stored; hide Loaded; hide Contains; hide Aligned;
  }

  lemma {:induction false} SameMap(s: State, ops: seq<Op>, n: nat)
    requires n <= |ops|
    ensures At(s, ops, n).base == s.base && |At(s, ops, n).ram| == |s.ram|
  {
    if n > 0 {
      SameMap(s, ops, n - 1);
      StepCounts(At(s, ops, n - 1), ops[n - 1]);
    }
  }

  /** The store-conditional n may succeed: this hart reserved the same address and width at i, nothing
      replaced that reservation, and nobody wrote since. */
  ghost predicate Undisturbed(s: State, ops: seq<Op>, i: nat, n: nat)
    requires n < |ops| && ops[n].StoreConditional?
  {
    Stands(s, ops, i, n, ops[n].hart) && ops[i].address == ops[n].address && ops[i].width == ops[n].width &&
    forall j: nat :: i < j < n ==> !Writes(s, ops, j)
  }

  /** Over any interleaving of harts and devices a store-conditional succeeds exactly when it is
      undisturbed, and then RAM is byte for byte what it was at the load-reserved. */
  lemma ConditionalIsAtomic(s: State, ops: seq<Op>, n: nat)
    requires s.reservations == map[] && n < |ops| && ops[n].StoreConditional?
    ensures OutcomeAt(s, ops, n) == Conditional(true) <==> exists i: nat :: Undisturbed(s, ops, i, n)
    ensures forall i: nat :: Undisturbed(s, ops, i, n) ==> At(s, ops, n).ram == At(s, ops, i).ram
  {
    hide Stored; hide Loaded; hide Contains; hide Aligned;
    var hart := ops[n].hart;
    ReservationIsLatest(s, ops, n, hart);
    if OutcomeAt(s, ops, n) == Conditional(true) {
      var i: nat :| Stands(s, ops, i, n, hart);
      EpochFromReserve(s, ops, i, n, hart);
      assert Undisturbed(s, ops, i, n);
    }
    forall i: nat | Undisturbed(s, ops, i, n)
      ensures At(s, ops, n).ram == At(s, ops, i).ram && OutcomeAt(s, ops, n) == Conditional(true)
    {
      EpochFromReserve(s, ops, i, n, hart);
      SameMap(s, ops, i);
      SameMap(s, ops, n);
    }
  }

  /** The load-reserved itself writes nothing, so the epochs at i and after it agree. */
  lemma EpochFromReserve(s: State, ops: seq<Op>, i: nat, n: nat, hart: nat)
    requires n <= |ops| && Stands(s, ops, i, n, hart)
    ensures At(s, ops, i).epoch == At(s, ops, n).epoch <==> forall j: nat :: i < j < n ==> !Writes(s, ops, j)
    ensures At(s, ops, i).epoch == At(s, ops, n).epoch ==> At(s, ops, i).ram == At(s, ops, n).ram
  {
    EpochCounts(s, ops, i, n);
    assert !Writes(s, ops, i);
  }

  /** What an operation writes: the value of a write, of a store-conditional that succeeds, or of an AMO. */
  predicate WritesAt(s: State, op: Op, a: nat, w: Width, value: nat) {
    (op == Write(a, w, value) && Apply(s, op).1.Done?) || (op == Amo(a, w, value) && Apply(s, op).1.Done?) ||
    (op.StoreConditional? && op == StoreConditional(op.hart, a, w, value) && Apply(s, op).1 == Conditional(true))
  }

  /** It is read back truncated to the width, and nothing else is changed. */
  lemma WrittenIsRead(s: State, op: Op, a: nat, w: Width, value: nat, b: nat, v: Width)
    requires WritesAt(s, op, a, w, value)
    ensures var s' := Apply(s, op).0;
            Apply(s', Read(a, w)).1 == Done(value % Pow256(Count(w))) &&
            (b + Count(v) <= a || a + Count(w) <= b ==> Apply(s', Read(b, v)).1 == Apply(s, Read(b, v)).1)
  {
    hide Stored; hide Loaded; hide Pow256; hide Aligned; hide Backed; hide WriteRam;
    RamWritten(s, a, w, value, b, v);
    var t := s.(reservations := if op.StoreConditional? then s.reservations - {op.hart} else s.reservations);
    assert Backed(t, a, w) && Apply(s, op).0 == WriteRam(t, a, w, value) by { SameRange(s, t, a, w); }
    SameWrite(s, t, a, w, value);
    var u, s' := WriteRam(s, a, w, value), Apply(s, op).0;
    SameRange(u, s', a, w);
    SameRange(u, s', b, v);
  }

  lemma SameRange(s: State, t: State, a: nat, w: Width)
    requires t.base == s.base && |t.ram| == |s.ram|
    ensures Backed(t, a, w) == Backed(s, a, w)
  {}

  lemma SameWrite(s: State, t: State, a: nat, w: Width, value: nat)
    requires t == s.(reservations := t.reservations) && Backed(s, a, w)
    ensures Backed(t, a, w) && WriteRam(t, a, w, value) == WriteRam(s, a, w, value).(reservations := t.reservations)
  {}

  lemma RamWritten(s: State, a: nat, w: Width, value: nat, b: nat, v: Width)
    requires Backed(s, a, w)
    ensures var t := WriteRam(s, a, w, value);
            t.base == s.base && |t.ram| == |s.ram| && Backed(t, a, w) && Backed(t, b, v) == Backed(s, b, v) &&
            Loaded(t.ram, a - t.base, w) == value % Pow256(Count(w)) &&
            (Backed(s, b, v) && (b + Count(v) <= a || a + Count(w) <= b) ==>
               Loaded(t.ram, b - t.base, v) == Loaded(s.ram, b - s.base, v))
  {
    hide Stored; hide Loaded; hide Pow256;
    LoadStored(s.ram, a - s.base, w, value);
    if Backed(s, b, v) && (b + Count(v) <= a || a + Count(w) <= b) {
      LoadElsewhere(s.ram, a - s.base, w, value, b - s.base, v);
    }
  }

  /** Atomic operations refuse an address that is not a multiple of their width first, then one that is not backed, of
      which a store-conditional still uses up its reservation; other accesses need no alignment. */
  lemma RefusedAccesses(s: State, hart: nat, a: nat, w: Width, value: nat)
    ensures var n := match w case Byte => 1 case HalfWord => 2 case Word => 4 case DoubleWord => 8;
            var backed := s.base <= a && a + n <= s.base + |s.ram|;
            var lr, sc := Apply(s, LoadReserved(hart, a, w)), Apply(s, StoreConditional(hart, a, w, value));
            var amo, write := Apply(s, Amo(a, w, value)), Apply(s, Write(a, w, value));
            (a % n != 0 ==> lr == (s, Misaligned) && sc == (s, Misaligned) && amo == (s, Misaligned)) &&
            (a % n == 0 && !backed ==>
               lr == (s, Unmapped) && amo == (s, Unmapped) &&
                 sc == (s.(reservations := s.reservations - {hart}), Unmapped)) &&
            (a % n == 0 && backed ==> lr.1.Done? && amo.1.Done? && sc.1.Conditional?) &&
            (if backed then write.1.Done? else write == (s, Unmapped))
  {
    hide Stored; hide Loaded;
  }

  /** A load-reserved and an AMO answer what a read of their place would have answered. */
  lemma AnswersAsRead(s: State, hart: nat, a: nat, w: Width, value: nat)
    requires Aligned(a, w)
    ensures Apply(s, LoadReserved(hart, a, w)).1 == Apply(s, Read(a, w)).1 == Apply(s, Amo(a, w, value)).1
  {
    hide Loaded; hide Stored; hide Aligned; hide Backed;
  }

  /* ---- the transactions, in place ---- */

  class ReservingBus {
    const ram: Ram
    const base: nat
    var reservations: map<nat, Reservation>
    var epoch: nat

    ghost function View(): State reads this, ram.data {
      State(ram.data[..], base, reservations, epoch)
    }

    constructor (base: nat, size: nat)
      ensures View() == State(ram.data[..], base, map[], 0) && |View().ram| == size && fresh(ram.data)
    {
      this.base := base;
      ram := new Ram(size);
      reservations, epoch := map[], 0;
    }

    method BusWrite(address: nat, w: Width, value: nat) returns (r: Outcome)
      modifies this`epoch, ram.data
      ensures (View(), r) == Apply(old(View()), Write(address, w, value))
    {
      hide Stored;
      if !Contains(Range(base, ram.data.Length), address, w) { return Unmapped; }
      var ok := ram.Write(address - base, w, value);
      epoch := epoch + 1;
      return Done(0);
    }

    method BusLoadReserved(hart: nat, address: nat, w: Width) returns (r: Outcome)
      modifies this`reservations
      ensures (View(), r) == Apply(old(View()), LoadReserved(hart, address, w))
    {
      hide Loaded;
      if address % Count(w) != 0 { return Misaligned; }
      if !Contains(Range(base, ram.data.Length), address, w) { return Unmapped; }
      var value := ram.Read(address - base, w);
      reservations := reservations[hart := Reservation(address, w, epoch)];
      return Done(value.value);
    }

    method BusStoreConditional(hart: nat, address: nat, w: Width, value: nat) returns (r: Outcome)
      modifies this, ram.data
      ensures (View(), r) == Apply(old(View()), StoreConditional(hart, address, w, value))
    {
      hide Stored;
      if address % Count(w) != 0 { return Misaligned; }
      var matches := hart in reservations && reservations[hart] == Reservation(address, w, epoch);
      reservations := reservations - {hart};
      if !Contains(Range(base, ram.data.Length), address, w) { return Unmapped; }
      if !matches { return Conditional(false); }
      var fault := BusWrite(address, w, value);
      return Conditional(true);
    }
  }
}
