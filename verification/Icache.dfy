/** The instruction cache of both cores: direct mapped, keyed by virtual pc, satp and privilege,
    and invalidated by epochs. T is what a line caches. */
module Icache {
  import opened Wrappers
  import opened Address
  import opened Paging

  datatype Key = Key(va: nat, satp: Satp, privilege: Privilege)

  /** A line is current when its generation and its three epochs are. */
  datatype Line<T> = Line(generation: nat, key: Key, asidEpoch: nat, pageEpoch: nat, asidPageEpoch: nat,
      item: Option<T>)

  datatype Cache<T> = Cache(lines: seq<Line<T>>, asidEpochs: seq<nat>, pageEpochs: seq<nat>, asidPageEpochs: seq<nat>,
                            generation: nat)

  function LineCount(mode: Mode): nat { if mode == Sv32 then 4096 else 16384 }

  function AsidSlots(mode: Mode): nat { if mode == Sv32 then 512 else 4096 }

  const PageSlots: nat := 4096

  predicate Shaped<T>(c: Cache<T>, mode: Mode) {
    |c.lines| == LineCount(mode) && |c.asidEpochs| == AsidSlots(mode) &&
    |c.pageEpochs| == PageSlots && |c.asidPageEpochs| == PageSlots
  }

  function Word(n: nat): bv64 { (n % 0x1_0000_0000_0000_0000) as bv64 }

  function LineOf(mode: Mode, key: Key): (r: nat)
    ensures r < LineCount(mode)
  {
    var va, satp, p := Word(key.va), Word(SatpWord(mode, key.satp)), Word(PrivilegeCode(key.privilege));
    match mode
    case Sv32 => (((va >> 1) ^ (va >> 13) ^ satp ^ (satp >> 11) ^ p) % 4096) as nat
    case Sv39 => (((va >> 1) ^ (va >> 13) ^ satp ^ (satp >> 17) ^ (satp >> 37) ^ p) % 16384) as nat
  }

  function AsidSlot(mode: Mode, asid: nat): (r: nat)
    ensures r < AsidSlots(mode)
  {
    match mode
    case Sv32 => asid % 512
    case Sv39 => ((Word(asid) ^ (Word(asid) >> 12)) % 4096) as nat
  }

  /** page is va >> 12. */
  function PageSlot(mode: Mode, page: nat): (r: nat)
    ensures r < PageSlots
  {
    var n := Word(page);
    match mode
    case Sv32 => ((n ^ (n >> 12)) % 1024) as nat
    case Sv39 => ((n ^ (n >> 12) ^ (n >> 24)) % 4096) as nat
  }

  function AsidPageSlot(mode: Mode, page: nat, asid: nat): (r: nat)
    ensures r < PageSlots
  {
    var n, a := Word(page), Word(asid * 0x9E37);
    match mode
    case Sv32 => ((n ^ (n >> 12) ^ a) % 1024) as nat
    case Sv39 => ((n ^ (n >> 12) ^ a) % 4096) as nat
  }

  /** The line that an insertion of item under key would make now. */
  function Stamp<T>(c: Cache<T>, mode: Mode, key: Key, item: Option<T>): Line<T>
    requires Shaped(c, mode)
  {
    Line(c.generation, key, c.asidEpochs[AsidSlot(mode, key.satp.asid)], c.pageEpochs[PageSlot(mode, key.va / 0x1000)],
         c.asidPageEpochs[AsidPageSlot(mode, key.va / 0x1000, key.satp.asid)], item)
  }

  predicate Current<T(==)>(c: Cache<T>, mode: Mode, l: Line<T>)
    requires Shaped(c, mode)
  {
    l == Stamp(c, mode, l.key, l.item)
  }

  function Lookup<T(==)>(c: Cache<T>, mode: Mode, key: Key): Option<T>
    requires Shaped(c, mode)
  {
    var l := c.lines[LineOf(mode, key)];
    if l.key == key && Current(c, mode, l) then l.item else None
  }

  function Insert<T>(c: Cache<T>, mode: Mode, key: Key, item: T): (r: Cache<T>)
    requires Shaped(c, mode)
    ensures Shaped(r, mode)
  {
    c.(lines := c.lines[LineOf(mode, key) := Stamp(c, mode, key, Some(item))])
  }

  /** A cache with no line of its generation, as constructed and as left by a generation wrap. */
  function Empty<T>(mode: Mode): (r: Cache<T>)
    ensures Shaped(r, mode)
  {
    var blank := Line(0, Key(0, Satp(false, 0, Frame(0, 0, 0)), Machine), 0, 0, 0, None);
    Cache(seq(LineCount(mode), _ => blank), seq(AsidSlots(mode), _ => 0), seq(PageSlots, _ => 0),
      seq(PageSlots, _ => 0), 1)
  }

  /** The 64-bit generation is the one counter whose wrap is handled: it starts afresh. */
  function Clear<T>(c: Cache<T>, mode: Mode): (r: Cache<T>)
    requires Shaped(c, mode)
    ensures Shaped(r, mode)
  {
    if c.generation + 1 >= 0x1_0000_0000_0000_0000 then Empty(mode) else c.(generation := c.generation + 1)
  }

  function Bump(s: seq<nat>, i: nat): seq<nat>
    requires i < |s|
  {
    s[i := s[i] + 1]
  }

  function Fence<T>(c: Cache<T>, mode: Mode, address: Option<nat>, asid: Option<nat>): (r: Cache<T>)
    requires Shaped(c, mode)
    ensures Shaped(r, mode)
  {
    match (address, asid)
    case (None, None) => Clear(c, mode)
    case (Some(va), Some(a)) => c.(asidPageEpochs := Bump(c.asidPageEpochs, AsidPageSlot(mode, va / 0x1000, a)))
    case (Some(va), None) => c.(pageEpochs := Bump(c.pageEpochs, PageSlot(mode, va / 0x1000)))
    case (None, Some(a)) => c.(asidEpochs := Bump(c.asidEpochs, AsidSlot(mode, a)))
  }

  /* ---- what the lines mean ---- */

  /** The fence is about this key: its 4 KiB page and its ASID. */
  predicate Fenced(key: Key, address: Option<nat>, asid: Option<nat>) {
    (address.Some? ==> key.va / 0x1000 == address.value / 0x1000) && (asid.Some? ==> key.satp.asid == asid.value)
  }

  /** What was inserted and not cleared or fenced since, latest insertion last. */
  type Contents<T> = map<Key, T>

  function Unfenced<T>(s: Contents<T>, address: Option<nat>, asid: Option<nat>): Contents<T> {
    map k | k in s && !Fenced(k, address, asid) :: s[k]
  }

  predicate NotAhead<T>(c: Cache<T>, mode: Mode, l: Line<T>)
    requires Shaped(c, mode)
  {
    var now := Stamp(c, mode, l.key, l.item);
    l.generation <= now.generation && l.asidEpoch <= now.asidEpoch && l.pageEpoch <= now.pageEpoch &&
    l.asidPageEpoch <= now.asidPageEpoch
  }

  ghost predicate Sound<T>(c: Cache<T>, mode: Mode, s: Contents<T>) {
    Shaped(c, mode) && forall i :: 0 <= i < LineCount(mode) ==> LineSound(c, mode, s, i)
  }

  predicate LineSound<T(==)>(c: Cache<T>, mode: Mode, s: Contents<T>, i: nat)
    requires Shaped(c, mode) && i < LineCount(mode)
  {
    var l := c.lines[i];
    NotAhead(c, mode, l) &&
    (Current(c, mode, l) && l.item.Some? ==> LineOf(mode, l.key) == i && l.key in s && s[l.key] == l.item.value)
  }

  lemma HitIsContents<T>(c: Cache<T>, mode: Mode, s: Contents<T>, key: Key)
    requires Sound(c, mode, s) && Lookup(c, mode, key).Some?
    ensures key in s && s[key] == Lookup(c, mode, key).value
  {
    hide LineOf;
    assert LineSound(c, mode, s, LineOf(mode, key));
  }

  lemma InsertSound<T>(c: Cache<T>, mode: Mode, s: Contents<T>, key: Key, item: T)
    requires Sound(c, mode, s)
    ensures Sound(Insert(c, mode, key, item), mode, s[key := item])
    ensures Lookup(Insert(c, mode, key, item), mode, key) == Some(item)
  {
    hide LineOf;
    hide AsidSlot;
    hide PageSlot;
    hide AsidPageSlot;
    var c' := Insert(c, mode, key, item);
    forall i {:trigger c'.lines[i]} | 0 <= i < LineCount(mode) ensures LineSound(c', mode, s[key := item], i) {
      assert LineSound(c, mode, s, i);
    }
  }

  lemma ClearSound<T>(c: Cache<T>, mode: Mode, s: Contents<T>)
    requires Sound(c, mode, s)
    ensures Sound(Clear(c, mode), mode, map[])
  {
    hide LineOf;
    hide AsidSlot;
    hide PageSlot;
    hide AsidPageSlot;
    var c' := Clear(c, mode);
    forall i | 0 <= i < LineCount(mode) ensures LineSound(c', mode, map[], i) {
      assert LineSound(c, mode, s, i);
    }
  }

  lemma FenceSound<T>(c: Cache<T>, mode: Mode, s: Contents<T>, address: Option<nat>, asid: Option<nat>)
    requires Sound(c, mode, s)
    ensures Sound(Fence(c, mode, address, asid), mode, Unfenced(s, address, asid))
  {
    hide LineOf;
    hide AsidSlot;
    hide PageSlot;
    hide AsidPageSlot;
    var c' := Fence(c, mode, address, asid);
    forall i | 0 <= i < LineCount(mode) ensures LineSound(c', mode, Unfenced(s, address, asid), i) {
      assert LineSound(c, mode, s, i);
    }
  }

  /** The key shares the epoch that a fence of this scope moves; a fence of everything is a clear. */
  predicate SharesEpoch(mode: Mode, key: Key, address: Option<nat>, asid: Option<nat>) {
    match (address, asid)
    case (None, None) => true
    case (Some(va), Some(a)) => AsidPageSlot(mode, key.va / 0x1000, key.satp.asid) == AsidPageSlot(mode, va / 0x1000, a)
    case (Some(va), None) => PageSlot(mode, key.va / 0x1000) == PageSlot(mode, va / 0x1000)
    case (None, Some(a)) => AsidSlot(mode, key.satp.asid) == AsidSlot(mode, a)
  }

  /** For each of the four scopes a fence ends a lookup exactly when its key shares the epoch slot. */
  lemma FenceExact<T>(c: Cache<T>, mode: Mode, s: Contents<T>, key: Key, address: Option<nat>, asid: Option<nat>)
    requires Sound(c, mode, s)
    ensures Lookup(Fence(c, mode, address, asid), mode, key)
            == if SharesEpoch(mode, key, address, asid) then None else Lookup(c, mode, key)
    ensures Fenced(key, address, asid) ==> SharesEpoch(mode, key, address, asid)
  {
    hide LineOf; hide AsidSlot; hide PageSlot; hide AsidPageSlot;
    assert LineSound(c, mode, s, LineOf(mode, key));
  }

  /* ---- whole histories ---- */

  datatype Op<T> = Put(key: Key, item: T) | Wipe | Sfence(address: Option<nat>, asid: Option<nat>)

  function Apply<T>(c: Cache<T>, mode: Mode, op: Op<T>): (r: Cache<T>)
    requires Shaped(c, mode)
    ensures Shaped(r, mode)
  {
    match op
    case Put(key, item) => Insert(c, mode, key, item)
    case Wipe => Clear(c, mode)
    case Sfence(address, asid) => Fence(c, mode, address, asid)
  }

  function Run<T>(mode: Mode, ops: seq<Op<T>>): (r: Cache<T>)
    ensures Shaped(r, mode)
  {
    if ops == [] then Empty(mode) else Apply(Run(mode, ops[..|ops| - 1]), mode, ops[|ops| - 1])
  }

  function Replay<T>(ops: seq<Op<T>>): Contents<T> {
    if ops == [] then map[]
    else
      var s := Replay(ops[..|ops| - 1]);
      match ops[|ops| - 1]
      case Put(key, item) => s[key := item]
      case Wipe => map[]
      case Sfence(address, asid) => Unfenced(s, address, asid)
  }

  /** The operation ends whatever was cached under the key. */
  predicate Ends<T>(op: Op<T>, key: Key) {
    match op
    case Put(k, _) => k == key
    case Wipe => true
    case Sfence(address, asid) => Fenced(key, address, asid)
  }

  /** item was put under key and nothing after that ended it. */
  ghost predicate Latest<T>(ops: seq<Op<T>>, key: Key, item: T) {
    exists i :: 0 <= i < |ops| && ops[i] == Put(key, item) && forall j :: i < j < |ops| ==> !Ends(ops[j], key)
  }

  lemma {:induction false} RunSound<T>(mode: Mode, ops: seq<Op<T>>)
    ensures Sound(Run(mode, ops), mode, Replay(ops))
  {
    if ops == [] {
      hide LineOf;
      hide AsidSlot;
      hide PageSlot;
      hide AsidPageSlot;
      forall i {:trigger Empty<T>(mode).lines[i]} | 0 <= i < LineCount(mode)
          ensures LineSound(Empty<T>(mode), mode, map[], i) {}
    } else {
      var c, s := Run(mode, ops[..|ops| - 1]), Replay(ops[..|ops| - 1]);
      RunSound(mode, ops[..|ops| - 1]);
      match ops[|ops| - 1]
      case Put(key, item) => InsertSound(c, mode, s, key, item);
      case Wipe => ClearSound(c, mode, s);
      case Sfence(address, asid) => FenceSound(c, mode, s, address, asid);
    }
  }

  lemma {:induction false} ReplayIsLatest<T>(ops: seq<Op<T>>, key: Key)
    requires key in Replay(ops)
    ensures Latest(ops, key, Replay(ops)[key])
  {
    var n := |ops| - 1;
    var before := ops[..n];
    if ops[n].Put? && ops[n].key == key {
      assert ops[n] == Put(key, Replay(ops)[key]);
    } else {
      ReplayIsLatest(before, key);
      var i :| 0 <= i < n && before[i] == Put(key, Replay(before)[key]) && forall j ::
          i < j < n ==> !Ends(before[j], key);
      assert ops[i] == before[i];
      forall j | i < j < |ops| ensures !Ends(ops[j], key) {
        if j < n { assert ops[j] == before[j]; }
      }
    }
  }

  /** After any history a hit returns exactly what was put last under the key, with no later
      clear and no later fence covering its 4 KiB page and ASID. */
  lemma HistorySound<T>(mode: Mode, ops: seq<Op<T>>, key: Key)
    requires Lookup(Run(mode, ops), mode, key).Some?
    ensures Latest(ops, key, Lookup(Run(mode, ops), mode, key).value)
  {
    RunSound(mode, ops);
    HitIsContents(Run(mode, ops), mode, Replay(ops), key);
    ReplayIsLatest(ops, key);
  }
}
