/** Routing on the bus: sorted disjoint devices, found by binary search behind a last-device shortcut. */
module SystemBus {
  import opened Wrappers
  import opened Endian

  const MAX: nat := 0xFFFF_FFFF_FFFF_FFFF

  datatype Range = Range(base: nat, size: nat)

  function End(r: Range): nat { r.base + r.size }

  /** AddressRange::contains, in the order that cannot overflow. */
  predicate Contains(r: Range, address: nat, w: Width) {
    r.size != 0 && Count(w) <= r.size && address >= r.base && address - r.base <= r.size - Count(w)
  }

  predicate Overlaps(a: Range, b: Range) {
    a.size != 0 && b.size != 0 && a.base < End(b) && b.base < End(a)
  }

  /** A device on the bus, by identity; cacheable says that instructions in it may be cached. */
  datatype Device = Device(id: nat, range: Range, cacheable: bool, ticks: bool)

  /** A range is valid when it is not empty and its end does not overflow. */
  predicate ValidRange(r: Range) { r.size != 0 && r.base <= MAX && r.size <= MAX - r.base }

  predicate Lies(r: Range, x: nat) { r.base <= x < r.base + r.size }

  /** A range contains an access exactly when it contains each of its bytes. */
  lemma ContainsIs(r: Range, address: nat, w: Width)
    ensures Contains(r, address, w) <==> forall x: nat :: address <= x < address + Count(w) ==> Lies(r, x)
  {
    if forall x: nat :: address <= x < address + Count(w) ==> Lies(r, x) {
      assert Lies(r, address) && Lies(r, address + Count(w) - 1);
    }
  }

  /** Ranges overlap exactly when they share an address. */
  lemma OverlapsIs(a: Range, b: Range)
    ensures Overlaps(a, b) <==> exists x: nat :: Lies(a, x) && Lies(b, x)
  {
    if Overlaps(a, b) {
      var x := if a.base <= b.base then b.base else a.base;
      assert Lies(a, x) && Lies(b, x);
    }
  }

  predicate Sorted(ds: seq<Device>) { forall i, j :: 0 <= i < j < |ds| ==> ds[i].range.base < ds[j].range.base }

  predicate Disjoint(ds: seq<Device>) {
    forall i, j :: 0 <= i < j < |ds| ==> !Overlaps(ds[i].range, ds[j].range)
  }

  /** What every successful sequence of additions gives. */
  predicate Mapped(ds: seq<Device>) {
    (forall d :: d in ds ==> ValidRange(d.range)) && Sorted(ds) && Disjoint(ds)
  }

  predicate Clashes(ds: seq<Device>, r: Range) { exists d :: d in ds && Overlaps(r, d.range) }

  /** The device goes before the first one with a higher base. */
  function Inserted(ds: seq<Device>, d: Device): (r: seq<Device>)
    ensures multiset(r) == multiset(ds) + multiset{d} && |r| == |ds| + 1
  {
    if ds == [] || d.range.base < ds[0].range.base then [d] + ds
    else
      assert ds == [ds[0]] + ds[1..];
      [ds[0]] + Inserted(ds[1..], d)
  }

  function Added(ds: seq<Device>, d: Device): Option<seq<Device>> {
    if !ValidRange(d.range) || Clashes(ds, d.range) then None else Some(Inserted(ds, d))
  }

  lemma {:induction false} InsertedMembers(ds: seq<Device>, d: Device)
    ensures forall x :: x in Inserted(ds, d) <==> x in ds || x == d
  {
    if ds != [] && d.range.base >= ds[0].range.base {
      InsertedMembers(ds[1..], d);
      assert ds == [ds[0]] + ds[1..];
    }
  }

  /** For sorted valid ranges, disjoint means: each ends no later than the next begins. */
  lemma DisjointIsOrdered(a: Range, b: Range)
    requires ValidRange(a) && ValidRange(b) && a.base <= b.base
    ensures !Overlaps(a, b) <==> End(a) <= b.base
    ensures Overlaps(a, b) <==> Overlaps(b, a)
  {}

  lemma ConsMapped(d: Device, ds: seq<Device>)
    requires ValidRange(d.range) && Mapped(ds)
    requires forall x :: x in ds ==> d.range.base < x.range.base && !Overlaps(d.range, x.range)
    ensures Mapped([d] + ds)
  {
    hide Overlaps;
    var all := [d] + ds;
    forall i, j | 0 <= i < j < |all|
        ensures all[i].range.base < all[j].range.base && !Overlaps(all[i].range, all[j].range) {
      assert all[j] == ds[j - 1] && ds[j - 1] in ds;
      if i > 0 { assert all[i] == ds[i - 1]; }
    }
  }

  lemma TailMapped(ds: seq<Device>)
    requires Mapped(ds) && ds != []
    ensures Mapped(ds[1..]) && ValidRange(ds[0].range)
    ensures forall x :: x in ds[1..] ==> ds[0].range.base < x.range.base && !Overlaps(ds[0].range, x.range)
  {
    hide Overlaps;
    var rest := ds[1..];
    forall x | x in rest ensures ds[0].range.base < x.range.base && !Overlaps(ds[0].range, x.range) && x in ds {
      var i :| 0 <= i < |rest| && rest[i] == x;
      assert ds[i + 1] == x;
    }
  }

  lemma {:induction false} InsertedMapped(ds: seq<Device>, d: Device)
    requires Mapped(ds) && ValidRange(d.range) && !Clashes(ds, d.range)
    ensures Mapped(Inserted(ds, d))
  {
    hide Mapped;
    if ds == [] {
      assert Inserted(ds, d) == [d] + ds;
      ConsMapped(d, ds);
    } else {
      TailMapped(ds);
      assert ds == [ds[0]] + ds[1..];
      if d.range.base < ds[0].range.base {
        ConsMapped(d, ds);
      } else {
        assert !Overlaps(d.range, ds[0].range) && d.range.base != ds[0].range.base;
        DisjointIsOrdered(ds[0].range, d.range);
        assert forall x :: x in ds[1..] ==> x in ds;
        InsertedMapped(ds[1..], d);
        InsertedMembers(ds[1..], d);
        ConsMapped(ds[0], Inserted(ds[1..], d));
      }
    }
  }

  lemma SameHead(a: seq<Device>, b: seq<Device>)
    requires Sorted(a) && Sorted(b) && a != [] && b != [] && a[0] in b && b[0] in a
    ensures a[0] == b[0]
  {}

  lemma SameTails(a: seq<Device>, b: seq<Device>)
    requires a != [] && b != [] && multiset(a) == multiset(b) && a[0] == b[0]
    ensures multiset(a[1..]) == multiset(b[1..])
  {
    assert a == [a[0]] + a[1..] && b == [b[0]] + b[1..];
    assert multiset(a[1..]) == multiset(a) - multiset{a[0]} && multiset(b[1..]) == multiset(b) - multiset{b[0]};
  }

  lemma SameMembers(a: seq<Device>, b: seq<Device>)
    requires multiset(a) == multiset(b)
    ensures |a| == |b| && forall x :: x in a <==> x in b
  {
    assert |multiset(a)| == |a| && |multiset(b)| == |b|;
    forall x ensures x in a <==> x in b { assert x in a <==> x in multiset(a); }
  }

  /** Any sorted arrangement of the same devices is this one, whatever sorts them. */
  lemma {:induction false} SortIsUnique(a: seq<Device>, b: seq<Device>)
    requires Sorted(a) && Sorted(b) && multiset(a) == multiset(b)
    ensures a == b
  {
    SameMembers(a, b);
    if a != [] {
      SameHead(a, b);
      SameTails(a, b);
      SortIsUnique(a[1..], b[1..]);
      assert a == [a[0]] + a[1..] && b == [b[0]] + b[1..];
    }
  }

  /** The map after any sequence of additions, refused ones skipped. */
  function AddedAll(ds: seq<Device>): seq<Device> {
    if ds == [] then []
    else
      var before := AddedAll(ds[..|ds| - 1]);
      match Added(before, ds[|ds| - 1])
      case None => before
      case Some(after) => after
  }

  lemma {:induction false} AddedAllMapped(ds: seq<Device>)
    ensures Mapped(AddedAll(ds))
  {
    if ds != [] {
      AddedAllMapped(ds[..|ds| - 1]);
      var before, d := AddedAll(ds[..|ds| - 1]), ds[|ds| - 1];
      if ValidRange(d.range) && !Clashes(before, d.range) { InsertedMapped(before, d); }
    }
  }

  /* ---- finding a device ---- */

  /** No address is in two devices. */
  lemma ContainsUnique(ds: seq<Device>, i: nat, j: nat, address: nat, w: Width, w': Width)
    requires Mapped(ds) && i < |ds| && j < |ds|
    requires Contains(ds[i].range, address, w) && Contains(ds[j].range, address, w')
    ensures i == j
  {
    assert ds[i] in ds && ds[j] in ds;
    if i < j { DisjointIsOrdered(ds[i].range, ds[j].range); }
    if j < i { DisjointIsOrdered(ds[j].range, ds[i].range); }
  }

  /** The device that holds the whole access, if any. */
  ghost predicate Routes(ds: seq<Device>, address: nat, w: Width, r: Option<Device>) {
    match r
    case Some(d) => d in ds && Contains(d.range, address, w) && forall x ::
        x in ds && Contains(x.range, address, w) ==> x == d
    case None => forall x :: x in ds ==> !Contains(x.range, address, w)
  }

  /** k devices begin at or below the address. */
  predicate Partition(ds: seq<Device>, address: nat, k: nat) {
    k <= |ds| && (forall i :: 0 <= i < k ==> ds[i].range.base <= address) &&
      (forall i :: k <= i < |ds| ==> address < ds[i].range.base)
  }

  /** Only the last device that begins at or below the address can hold the access. */
  lemma CandidateRoutes(ds: seq<Device>, address: nat, w: Width, k: nat)
    requires Mapped(ds) && Partition(ds, address, k)
    ensures Routes(ds, address, w, if k > 0 && Contains(ds[k - 1].range, address, w) then Some(ds[k - 1]) else None)
  {
    forall x | x in ds && Contains(x.range, address, w) ensures k > 0 && x == ds[k - 1] {
      var i :| 0 <= i < |ds| && ds[i] == x;
    }
  }

  class Bus {
    var devices: seq<Device>
    var tickDevices: seq<Device>
    var last: Option<Device>

    ghost predicate Valid() reads this {
      Mapped(devices) && (last.Some? ==> last.value in devices) && forall d ::
        d in tickDevices ==> d in devices && d.ticks
    }

    constructor ()
      ensures Valid() && devices == []
    {
      devices, tickDevices, last := [], [], None;
    }

    /** add_device: false stands for the exceptions, which change nothing. */
    method AddDevice(d: Device) returns (ok: bool)
      requires Valid()
      modifies this
      ensures Valid() && ok == Added(old(devices), d).Some?
      ensures if ok then devices == Inserted(old(devices), d) && last == None &&
                         tickDevices == old(tickDevices) + (if d.ticks then [d] else [])
              else devices == old(devices) && last == old(last) && tickDevices == old(tickDevices)
    {
      if d.range.size == 0 || d.range.base > MAX || d.range.size > MAX - d.range.base { return false; }
      for i := 0 to |devices|
        invariant forall j :: 0 <= j < i ==> !Overlaps(d.range, devices[j].range)
      {
        if Overlaps(d.range, devices[i].range) {
          assert devices[i] in devices;
          return false;
        }
      }
      assert !Clashes(devices, d.range);
      InsertedMapped(devices, d);
      InsertedMembers(devices, d);
      devices := Inserted(devices, d);
      if d.ticks { tickDevices := tickDevices + [d]; }
      last := None;
      return true;
    }

    /** std::upper_bound over the bases. */
    method UpperBound(address: nat) returns (k: nat)
      requires Valid()
      ensures Partition(devices, address, k)
    {
      var low, high := 0, |devices|;
      while low < high
        invariant 0 <= low <= high <= |devices|
        invariant forall i :: 0 <= i < low ==> devices[i].range.base <= address
        invariant forall i :: high <= i < |devices| ==> address < devices[i].range.base
      {
        var middle := (low + high) / 2;
        if address < devices[middle].range.base { high := middle; } else { low := middle + 1; }
      }
      return low;
    }

    /** find_device: the unique device that holds the whole access or none, whatever was looked up before. */
    method FindDevice(address: nat, w: Width) returns (r: Option<Device>)
      requires Valid()
      modifies this`last
      ensures Valid() && Routes(devices, address, w, r)
      ensures last == if r.Some? then r else old(last)
    {
      if last.Some? && Contains(last.value.range, address, w) {
        var i :| 0 <= i < |devices| && devices[i] == last.value;
        forall x | x in devices && Contains(x.range, address, w) ensures x == last.value {
          var j :| 0 <= j < |devices| && devices[j] == x;
          ContainsUnique(devices, i, j, address, w, w);
        }
        return last;
      }
      var k := UpperBound(address);
      CandidateRoutes(devices, address, w, k);
      if k == 0 || !Contains(devices[k - 1].range, address, w) { return None; }
      last := Some(devices[k - 1]);
      return last;
    }

    /** instruction_cacheable agrees with the device that find_device routes a byte to. */
    method InstructionCacheable(address: nat) returns (r: bool)
      requires Valid()
      ensures exists d :: Routes(devices, address, Byte, d) && r == (d.Some? && d.value.cacheable)
    {
      if last.Some? && Contains(last.value.range, address, Byte) {
        var i :| 0 <= i < |devices| && devices[i] == last.value;
        forall x | x in devices && Contains(x.range, address, Byte) ensures x == last.value {
          var j :| 0 <= j < |devices| && devices[j] == x;
          ContainsUnique(devices, i, j, address, Byte, Byte);
        }
        assert Routes(devices, address, Byte, last);
        return last.value.cacheable;
      }
      var k := UpperBound(address);
      CandidateRoutes(devices, address, Byte, k);
      if k == 0 || !Contains(devices[k - 1].range, address, Byte) {
        assert Routes(devices, address, Byte, None);
        return false;
      }
      assert Routes(devices, address, Byte, Some(devices[k - 1]));
      return devices[k - 1].cacheable;
    }
  }
}
