/** Which property the device-tree patch finds, said without the walk: over the list of tokens. */
module DeviceTreeSpec {
  import opened Wrappers
  import opened Endian
  import opened DeviceTree

  /** A token: a node begins or ends, a property whose value is at a position, or nothing. */
  datatype Item = Begin(name: seq<byte>) | End | Prop(name: seq<byte>, value: nat, size: nat) | Nop

  /** The token at a position, and where the next one is; a property may end the block unpadded. */
  function ItemAt(st: seq<byte>, names: seq<byte>, cursor: nat): (r: Option<(Item, nat)>)
    ensures r.Some? ==> cursor < r.value.1 && (r.value.0.Prop? ==> r.value.0.value + r.value.0.size <= |st|)
  {
    if cursor + 4 > |st| then None
    else
      match Read32(st, cursor)
      case 1 =>
        var end := Terminator(st, cursor + 4);
        if end.None? || Align(end.value + 1) > |st| then None
            else Some((Begin(st[cursor + 4..end.value]), Align(end.value + 1)))
      case 2 => Some((End, cursor + 4))
      case 3 =>
        if cursor + 12 > |st| then None
        else
          var size, name := Read32(st, cursor + 4), Read32(st, cursor + 8);
          if cursor + 12 + size > |st| || Terminator(names, name).None? then None
          else Some((Prop(names[name..Terminator(names, name).value], cursor + 12, size), Align(cursor + 12 + size)))
      case 4 => Some((Nop, cursor + 4))
      case _ => None
  }

  /** The tokens up to the end token or the first malformed one. */
  function Items(st: seq<byte>, names: seq<byte>, cursor: nat): seq<Item>
    decreases |st| - cursor
  {
    match ItemAt(st, names, cursor)
    case None => []
    case Some((item, next)) => [item] + if next <= |st| then Items(st, names, next) else []
  }

  predicate OpensMemory(item: Item) { item.Begin? && IsMemory(item.name) }

  predicate IsReg(item: Item) { item.Prop? && item.name == REG }

  /** The nesting depth before token k. */
  function Depth(items: seq<Item>, k: nat): int
    requires k <= |items|
  {
    if k == 0 then 0
    else Depth(items, k - 1) + (if items[k - 1].Begin? then 1 else if items[k - 1] == End then -1 else 0)
  }

  /** A memory node directly below the root began before token k. */
  predicate Opened(items: seq<Item>, k: nat)
    requires k <= |items|
  {
    exists j :: 0 <= j < k && OpensMemory(items[j]) && Depth(items, j) == 1
  }

  /** Token k cannot be passed: an end without a node, or the end or a reg of the open memory node. */
  predicate Stops(items: seq<Item>, k: nat)
    requires k < |items|
  {
    (items[k] == End && (Depth(items, k) <= 0 || (Opened(items, k) && Depth(items, k) == 2))) ||
    (IsReg(items[k]) && Opened(items, k) && Depth(items, k) == 2)
  }

  /** Token i is the reg of the first memory node below the root: the node is open, and nothing
      before it stopped the walk. */
  predicate Target(items: seq<Item>, i: nat) {
    i < |items| && IsReg(items[i]) && Opened(items, i) && Depth(items, i) == 2 && forall k ::
      0 <= k < i ==> !Stops(items, k)
  }

  /** The patch position that a target gives when its layout is the expected one. */
  predicate Gives(st: seq<byte>, base: nat, item: Item, p: nat) {
    item.Prop? && item.size == 16 && item.value + 16 <= |st| && Read64(st, item.value) == base && p == item.value + 8
  }

  /* ---- the walk over positions is a walk over tokens ---- */

  lemma TokenIsItem(st: seq<byte>, names: seq<byte>, base: nat, cursor: nat, depth: nat, found: bool)
    ensures match ItemAt(st, names, cursor)
            case None => (var s := Token(st, names, base, cursor, depth, found); s.Done? && s.result.Fails?)
            case Some((item, next)) =>
                Token(st, names, base, cursor, depth, found) == ItemStep(st, base, item, next, depth, found)
  {
    hide Read32; hide Terminator; hide IsMemory;
  }

  /** What the walk does at a token, from the token alone. */
  function ItemStep(st: seq<byte>, base: nat, item: Item, next: nat, depth: nat, found: bool): Step
    requires item.Prop? ==> item.value + item.size <= |st|
  {
    match item
    case Begin(_) => Next(next, depth + 1, found || (depth == 1 && OpensMemory(item)))
    case End =>
      if depth == 0 then Done(Fails(InvalidBlob)) else if found &&
          depth == 2 then Done(Fails(MemoryRegNotFound)) else Next(next, depth - 1, found)
    case Prop(_, value, size) =>
      if found && depth == 2 && IsReg(item) then
        if size != 16 || Read64(st, value) != base then Done(Fails(UnexpectedMemoryLayout)) else Done(At(value + 8))
      else if next > |st| then Done(Fails(InvalidBlob))
      else Next(next, depth, found)
    case Nop => Next(next, depth, found)
  }

  /** A target from token n on that gives this position. */
  ghost predicate HasTarget(st: seq<byte>, base: nat, all: seq<Item>, n: nat, p: nat) {
    exists i: nat :: n <= i && Target(all, i) && Gives(st, base, all[i], p)
  }

  lemma NoneLeft(st: seq<byte>, base: nat, all: seq<Item>, n: nat, p: nat)
    requires n >= |all|
    ensures !HasTarget(st, base, all, n, p)
  {}

  /** The first token that stops the walk is the only one that can be the target. */
  lemma AtStop(st: seq<byte>, base: nat, all: seq<Item>, n: nat, p: nat)
    requires n < |all| && Stops(all, n) && forall k :: 0 <= k < n ==> !Stops(all, k)
    ensures HasTarget(st, base, all, n, p) <==> IsReg(all[n]) && Gives(st, base, all[n], p)
  {
    hide Gives; hide IsReg; hide Opened; hide Depth;
    if IsReg(all[n]) && Gives(st, base, all[n], p) {
      RegIsNoEnd(all[n]);
      assert Target(all, n);
    }
  }

  lemma RegIsNoEnd(item: Item)
    ensures IsReg(item) ==> item != End
  {}

  lemma Passed(st: seq<byte>, base: nat, all: seq<Item>, n: nat, p: nat)
    requires n < |all| && !Stops(all, n)
    ensures HasTarget(st, base, all, n, p) <==> HasTarget(st, base, all, n + 1, p)
  {
    hide Gives; hide IsReg; hide Opened; hide Depth;
    assert !Target(all, n);
  }

  /** What a step does at token n, by whether it stops the walk. */
  lemma StepAt(st: seq<byte>, base: nat, all: seq<Item>, n: nat, next: nat, p: nat)
    requires n < |all| && Depth(all, n) >= 0 && (all[n].Prop? ==> all[n].value + all[n].size <= |st|)
    ensures var s := ItemStep(st, base, all[n], next, Depth(all, n), Opened(all, n));
            if Stops(all, n) then s.Done? && (s.result == At(p) <==> IsReg(all[n]) && Gives(st, base, all[n], p))
            else if s.Done? then s.result.Fails? && next > |st|
            else Depth(all, n + 1) >= 0 && s == Next(next, Depth(all, n + 1), Opened(all, n + 1))
  {
    hide Opened; hide Read64; hide OpensMemory;
    OpenedNext(all, n);
    EndOpensNothing(all[n]);
  }

  lemma EndOpensNothing(item: Item)
    ensures OpensMemory(item) ==> item.Begin?
  {}

  /** all lists every token; the first n of them were passed. */
  lemma {:induction false} WalkFromIsTarget(st: seq<byte>, names: seq<byte>, base: nat, cursor: nat, all: seq<Item>,
      n: nat, p: nat)
    requires n <= |all| && all[n..] == Items(st, names, cursor)
    requires Depth(all, n) >= 0 && forall k :: 0 <= k < n ==> !Stops(all, k)
    ensures Walk(st, names, base, cursor, Depth(all, n), Opened(all, n)) == At(p) <==> HasTarget(st, base, all, n, p)
    decreases |st| - cursor
  {
    hide ItemAt; hide Token; hide ItemStep; hide IsReg; hide Stops; hide HasTarget; hide Opened; hide Depth; hide Gives;
    TokenIsItem(st, names, base, cursor, Depth(all, n), Opened(all, n));
    match ItemAt(st, names, cursor)
    case None => NoneLeft(st, base, all, n, p);
    case Some((item, next)) =>
      assert all[n..][0] == item && all[n] == item;
      assert all[n + 1..] == all[n..][1..];
      StepAt(st, base, all, n, next, p);
      if Stops(all, n) {
        AtStop(st, base, all, n, p);
      } else {
        Passed(st, base, all, n, p);
        if next <= |st| { WalkFromIsTarget(st, names, base, next, all, n + 1, p); }
            else { NoneLeft(st, base, all, n + 1, p); }
      }
  }

  lemma OpenedNext(items: seq<Item>, n: nat)
    requires n < |items|
    ensures Opened(items, n + 1) <==> Opened(items, n) || (OpensMemory(items[n]) && Depth(items, n) == 1)
  {}

  /** The walk finds a place exactly when it is the size of the reg of the first memory node directly
      below the root, with the expected 64-bit base and size layout. */
  lemma WalkFindsTarget(st: seq<byte>, names: seq<byte>, base: nat, p: nat)
    ensures Walk(st, names, base, 0, 0, false) == At(p)
            <==> exists i: nat :: Target(Items(st, names, 0), i) && Gives(st, base, Items(st, names, 0)[i], p)
  {
    hide Items; hide Walk; hide Gives;
    var all := Items(st, names, 0);
    assert all[0..] == all && !Opened(all, 0) && Depth(all, 0) == 0;
    WalkFromIsTarget(st, names, base, 0, all, 0, p);
    assert HasTarget(st, base, all, 0, p) <==> exists i: nat :: Target(all, i) && Gives(st, base, all[i], p);
  }

  /** There is at most one target. */
  lemma TargetIsUnique(items: seq<Item>, i: nat, j: nat)
    requires Target(items, i) && Target(items, j)
    ensures i == j
  {
    assert Stops(items, i) && Stops(items, j);
  }
}
