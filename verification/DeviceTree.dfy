/** Patching the size of the memory node in a flattened device tree, in place. */
module DeviceTree {
  import opened Wrappers
  import opened Endian

  const MAGIC: nat := 0xD00D_FEED
  const HEADER: nat := 40

  datatype Error = InvalidBlob | MemoryNodeNotFound | MemoryRegNotFound | UnexpectedMemoryLayout

  /* ---- big-endian words ---- */

  function Join(a: nat, b: nat, c: nat, d: nat): nat { a * 0x100_0000 + b * 0x1_0000 + c * 0x100 + d }

  function Read32(b: seq<byte>, i: nat): (r: nat)
    requires i + 4 <= |b|
    ensures r < 0x1_0000_0000
  {
    Join(b[i], b[i + 1], b[i + 2], b[i + 3])
  }

  function Read64(b: seq<byte>, i: nat): nat
    requires i + 8 <= |b|
  {
    Read32(b, i) * 0x1_0000_0000 + Read32(b, i + 4)
  }

  /** The eight low bytes of v, most significant first: byte i is v >> (7 - i) * 8. */
  function BigEndian(v: nat): (r: seq<byte>)
    ensures |r| == 8
  {
    [v / 0x100_0000_0000_0000 % 256, v / 0x1_0000_0000_0000 % 256, v / 0x100_0000_0000 % 256, v / 0x1_0000_0000 % 256,
     v / 0x100_0000 % 256, v / 0x1_0000 % 256, v / 0x100 % 256, v % 256]
  }

  function Written(b: seq<byte>, i: nat, v: nat): (r: seq<byte>)
    requires i + 8 <= |b|
    ensures |r| == |b|
  {
    b[..i] + BigEndian(v) + b[i + 8..]
  }

  lemma Low16(v: nat)
    ensures v % 0x1_0000 == v / 0x100 % 256 * 0x100 + v % 256
  {}

  lemma Low24(v: nat)
    ensures v % 0x100_0000 == v / 0x1_0000 % 256 * 0x1_0000 + v % 0x1_0000
  {}

  lemma Low32(v: nat)
    ensures v % 0x1_0000_0000 == v / 0x100_0000 % 256 * 0x100_0000 + v % 0x100_0000
  {}

  lemma JoinIsWord(v: nat)
    ensures Join(v / 0x100_0000 % 256, v / 0x1_0000 % 256, v / 0x100 % 256, v % 256) == v % 0x1_0000_0000
  {
    Low16(v);
    Low24(v);
    Low32(v);
  }

  lemma NestedShifts(v: nat)
    ensures var h := v / 0x1_0000_0000;
            v / 0x100_0000_0000_0000 == h / 0x100_0000 && v / 0x1_0000_0000_0000 == h / 0x1_0000 &&
              v / 0x100_0000_0000 == h / 0x100
  {}

  /** The word just written reads back as the size, modulo its width. */
  lemma WrittenReads(b: seq<byte>, i: nat, v: nat)
    requires i + 8 <= |b|
    ensures Read64(Written(b, i, v), i) == v % 0x1_0000_0000_0000_0000
  {
    hide Join;
    var w, e := Written(b, i, v), BigEndian(v);
    assert w[i..i + 8] == e;
    assert w[i] == e[0] && w[i + 1] == e[1] && w[i + 2] == e[2] && w[i + 3] == e[3];
    assert w[i + 4] == e[4] && w[i + 5] == e[5] && w[i + 6] == e[6] && w[i + 7] == e[7];
    NestedShifts(v);
    JoinIsWord(v);
    JoinIsWord(v / 0x1_0000_0000);
    HighLow(v);
  }

  lemma HighLow(v: nat)
    ensures v % 0x1_0000_0000_0000_0000 == (v / 0x1_0000_0000) % 0x1_0000_0000 * 0x1_0000_0000 + v % 0x1_0000_0000
  {}

  /* ---- strings ---- */

  /** The first zero byte from i on. */
  function Terminator(b: seq<byte>, i: nat): (r: Option<nat>)
    ensures r.Some? ==> i <= r.value < |b| && b[r.value] == 0 && forall k :: i <= k < r.value ==> b[k] != 0
    decreases |b| - i
  {
    if i >= |b| then None else if b[i] == 0 then Some(i) else Terminator(b, i + 1)
  }

  const REG: seq<byte> := [114, 101, 103]
  const MEMORY: seq<byte> := [109, 101, 109, 111, 114, 121]

  /** "memory", or "memory@" and an address. */
  predicate IsMemory(name: seq<byte>) { name == MEMORY || (|name| >= 7 && name[..7] == MEMORY + [64]) }

  function Align(v: nat): nat { (v + 3) / 4 * 4 }

  /* ---- the walk over the structure block ---- */

  /** Where the size is to be written, or why it cannot be. */
  datatype Found = At(position: nat) | Fails(error: Error)

  /** One token: the walk is over, or goes on behind it. */
  datatype Step = Done(result: Found) | Next(cursor: nat, depth: nat, found: bool)

  /** The positions in a token never lie beyond where the next one starts, or the place found. */
  function Token(st: seq<byte>, names: seq<byte>, base: nat, cursor: nat, depth: nat, found: bool): (r: Step)
    ensures r.Next? ==> cursor + 4 <= r.cursor <= |st|
    ensures r.Done? && r.result.At? ==> cursor + 20 == r.result.position && r.result.position + 8 <= |st|
  {
    if cursor + 4 > |st| then Done(Fails(InvalidBlob))
    else
      var token := Read32(st, cursor);
      if token == 1 then BeginNode(st, cursor, depth, found)
      else if token == 2 then
        if depth == 0 then Done(Fails(InvalidBlob))
        else if found && depth == 2 then Done(Fails(MemoryRegNotFound))
        else Next(cursor + 4, depth - 1, found)
      else if token == 3 then Property(st, names, base, cursor, depth, found)
      else if token == 4 then Next(cursor + 4, depth, found)
      else if token == 9 then Done(Fails(if found then MemoryRegNotFound else MemoryNodeNotFound))
      else Done(Fails(InvalidBlob))
  }

  /** A node begins; the first one named memory at depth 2 is the one to patch. */
  function BeginNode(st: seq<byte>, cursor: nat, depth: nat, found: bool): (r: Step)
    ensures r.Next? ==> cursor + 4 <= r.cursor <= |st|
    ensures r.Done? ==> r.result.Fails?
  {
    match Terminator(st, cursor + 4)
    case None => Done(Fails(InvalidBlob))
    case Some(end) =>
      var next := Align(end + 1);
      if next > |st| then Done(Fails(InvalidBlob))
      else Next(next, depth + 1, found || (depth + 1 == 2 && IsMemory(st[cursor + 4..end])))
  }

  function Property(st: seq<byte>, names: seq<byte>, base: nat, cursor: nat, depth: nat, found: bool): (r: Step)
    ensures r.Next? ==> cursor + 12 <= r.cursor <= |st|
    ensures r.Done? && r.result.At? ==> cursor + 20 == r.result.position && r.result.position + 8 <= |st|
  {
    if cursor + 12 > |st| then Done(Fails(InvalidBlob))
    else
      var size, name := Read32(st, cursor + 4), Read32(st, cursor + 8);
      var value := cursor + 12;
      if value + size > |st| || Terminator(names, name).None? then Done(Fails(InvalidBlob))
      else if found && depth == 2 && names[name..Terminator(names, name).value] == REG then
        if size != 16 || Read64(st, value) != base then Done(Fails(UnexpectedMemoryLayout)) else Done(At(value + 8))
      else if Align(value + size) > |st| then Done(Fails(InvalidBlob))
      else Next(Align(value + size), depth, found)
  }

  function Walk(st: seq<byte>, names: seq<byte>, base: nat, cursor: nat, depth: nat, found: bool): (r: Found)
    ensures r.At? ==> cursor + 20 <= r.position && r.position + 8 <= |st|
    decreases |st| - cursor
  {
    match Token(st, names, base, cursor, depth, found)
    case Done(r) => r
    case Next(c, d, f) => Walk(st, names, base, c, d, f)
  }

  /* ---- the blob ---- */

  datatype Layout = Layout(structure: nat, structureSize: nat, strings: nat, stringsSize: nat)

  function Blocks(b: seq<byte>): (r: Option<Layout>)
    ensures r.Some? ==>
      HEADER <= |b| && r.value.structure + r.value.structureSize <= |b| && r.value.strings + r.value.stringsSize <= |b|
  {
    if |b| < HEADER || Read32(b, 0) != MAGIC then None
    else
      var total := Read32(b, 4);
      var l := Layout(Read32(b, 8), Read32(b, 36), Read32(b, 12), Read32(b, 32));
      if total > |b| || total < HEADER || l.structure + l.structureSize > total ||
          l.strings + l.stringsSize > total then None
      else Some(l)
  }

  function Structure(b: seq<byte>, l: Layout): seq<byte>
    requires l.structure + l.structureSize <= |b|
  {
    b[l.structure..l.structure + l.structureSize]
  }

  function Strings(b: seq<byte>, l: Layout): seq<byte>
    requires l.strings + l.stringsSize <= |b|
  {
    b[l.strings..l.strings + l.stringsSize]
  }

  function Find(b: seq<byte>, base: nat): (r: Found)
    ensures r.At? ==> r.position + 8 <= |b|
  {
    match Blocks(b)
    case None => Fails(InvalidBlob)
    case Some(l) =>
      match Walk(Structure(b, l), Strings(b, l), base, 0, 0, false)
      case At(p) => At(l.structure + p)
      case Fails(e) => Fails(e)
  }

  /** patch_device_tree_memory: the blob afterwards, and the error. */
  function Patch(b: seq<byte>, base: nat, size: nat): (seq<byte>, Option<Error>) {
    match Find(b, base)
    case Fails(e) => (b, Some(e))
    case At(p) => (Written(b, p, size), None)
  }

  /** Success changes the eight bytes of the size and nothing else; an error changes nothing. */
  lemma OnlyTheSizeChanges(b: seq<byte>, base: nat, size: nat)
    ensures var (b', e) := Patch(b, base, size);
            |b'| == |b| && (e.Some? ==> b' == b) &&
            (e.None? ==> var p := Find(b, base).position;
                         p + 8 <= |b| && Read64(b', p) == size % 0x1_0000_0000_0000_0000 &&
                         forall i :: 0 <= i < |b| && !(p <= i < p + 8) ==> b'[i] == b[i])
  {
    hide Find; hide Read64; hide Written;
    if Find(b, base).At? {
      WrittenReads(b, Find(b, base).position, size);
      WrittenKeeps(b, Find(b, base).position, size);
    }
  }

  lemma WrittenKeeps(b: seq<byte>, p: nat, v: nat)
    requires p + 8 <= |b|
    ensures forall i :: 0 <= i < |b| && !(p <= i < p + 8) ==> Written(b, p, v)[i] == b[i]
  {
    hide BigEndian;
  }

  /* ---- patching twice ---- */

  /** The blocks and the header do not overlap the structure block. */
  predicate Separate(l: Layout) {
    l.structure >= HEADER &&
    (l.strings + l.stringsSize <= l.structure || l.structure + l.structureSize <= l.strings)
  }

  lemma {:induction false} TerminatorReads(b: seq<byte>, c: seq<byte>, i: nat, limit: nat)
    requires |b| == |c| && limit <= |b| && b[..limit] == c[..limit]
    requires Terminator(b, i).Some? && Terminator(b, i).value < limit
    ensures Terminator(c, i) == Terminator(b, i)
    decreases |b| - i
  {
    assert b[..limit][i] == c[..limit][i];
    if b[i] != 0 { TerminatorReads(b, c, i + 1, limit); }
  }

  lemma Read32Reads(b: seq<byte>, c: seq<byte>, i: nat, limit: nat)
    requires |b| == |c| && i + 4 <= limit <= |b| && b[..limit] == c[..limit]
    ensures Read32(b, i) == Read32(c, i)
  {
    forall k | i <= k < i + 4 ensures b[k] == c[k] { assert b[..limit][k] == c[..limit][k]; }
  }

  /** How far one token's step may read. */
  function Reach(s: Step): nat {
    match s case Next(c, _, _) => c case Done(At(p)) => p case Done(Fails(_)) => 0
  }

  lemma BeginReads(st: seq<byte>, st': seq<byte>, cursor: nat, depth: nat, found: bool)
    requires |st| == |st'| && BeginNode(st, cursor, depth, found).Next?
    requires var p := BeginNode(st, cursor, depth, found).cursor; st[..p] == st'[..p]
    ensures BeginNode(st', cursor, depth, found) == BeginNode(st, cursor, depth, found)
  {
    hide Terminator; hide IsMemory;
    var end, p := Terminator(st, cursor + 4).value, BeginNode(st, cursor, depth, found).cursor;
    TerminatorReads(st, st', cursor + 4, p);
    assert st[cursor + 4..end] == st[..p][cursor + 4..end] && st'[cursor + 4..end] == st'[..p][cursor + 4..end];
  }

  lemma PropertyReads(st: seq<byte>, st': seq<byte>, names: seq<byte>, base: nat, cursor: nat, depth: nat, found: bool)
    requires |st| == |st'|
    requires var s := Property(st, names, base, cursor, depth, found);
        (s.Next? || s.result.At?) && st[..Reach(s)] == st'[..Reach(s)]
    ensures Property(st', names, base, cursor, depth, found) == Property(st, names, base, cursor, depth, found)
  {
    hide Terminator; hide Read32;
    var p := Reach(Property(st, names, base, cursor, depth, found));
    Read32Reads(st, st', cursor + 4, p);
    Read32Reads(st, st', cursor + 8, p);
    if p >= cursor + 20 {
      Read32Reads(st, st', cursor + 12, p);
      Read32Reads(st, st', cursor + 16, p);
    }
  }

  lemma TokenReads(st: seq<byte>, st': seq<byte>, names: seq<byte>, base: nat, cursor: nat, depth: nat, found: bool)
    requires |st| == |st'|
    requires var s := Token(st, names, base, cursor, depth, found);
        (s.Next? || s.result.At?) && st[..Reach(s)] == st'[..Reach(s)]
    ensures Token(st', names, base, cursor, depth, found) == Token(st, names, base, cursor, depth, found)
  {
    hide BeginNode; hide Property; hide Read32;
    Read32Reads(st, st', cursor, Reach(Token(st, names, base, cursor, depth, found)));
    var token := Read32(st, cursor);
    if token == 1 { BeginReads(st, st', cursor, depth, found); }
    if token == 3 { PropertyReads(st, st', names, base, cursor, depth, found); }
  }

  /** The walk reads nothing at or beyond the place it finds. */
  lemma {:induction false} WalkReads(st: seq<byte>, st': seq<byte>, names: seq<byte>, base: nat, cursor: nat,
      depth: nat, found: bool)
    requires |st| == |st'| && Walk(st, names, base, cursor, depth, found).At?
    requires var p := Walk(st, names, base, cursor, depth, found).position; st[..p] == st'[..p]
    ensures Walk(st', names, base, cursor, depth, found) == Walk(st, names, base, cursor, depth, found)
    decreases |st| - cursor
  {
    hide Token;
    var p, s := Walk(st, names, base, cursor, depth, found).position, Token(st, names, base, cursor, depth, found);
    PrefixOfPrefix(st, st', Reach(s), p);
    TokenReads(st, st', names, base, cursor, depth, found);
    if s.Next? { WalkReads(st, st', names, base, s.cursor, s.depth, s.found); }
  }

  lemma PrefixOfPrefix(b: seq<byte>, c: seq<byte>, n: nat, p: nat)
    requires n <= p <= |b| == |c| && b[..p] == c[..p]
    ensures b[..n] == c[..n]
  {
    assert b[..n] == b[..p][..n] && c[..n] == c[..p][..n];
  }

  lemma HeaderReads(b: seq<byte>, c: seq<byte>)
    requires |b| == |c| >= HEADER && b[..HEADER] == c[..HEADER]
    ensures Blocks(c) == Blocks(b)
  {
    hide Read32;
    Read32Reads(b, c, 0, HEADER); Read32Reads(b, c, 4, HEADER); Read32Reads(b, c, 8, HEADER);
    Read32Reads(b, c, 12, HEADER); Read32Reads(b, c, 32, HEADER); Read32Reads(b, c, 36, HEADER);
  }

  lemma PartsKept(b: seq<byte>, p: nat, size: nat, l: Layout, q: nat)
    requires Separate(l) && l.structure + l.structureSize <= |b| && l.strings + l.stringsSize <= |b|
    requires p == l.structure + q && q + 8 <= l.structureSize
    ensures var c := Written(b, p, size);
            Structure(c, l)[..q] == Structure(b, l)[..q] && Strings(c, l) == Strings(b, l) && c[..HEADER] == b[..HEADER]
  {
    hide BigEndian;
    var c := Written(b, p, size);
    forall i | 0 <= i < |b| && !(p <= i < p + 8) ensures c[i] == b[i] {}
  }

  /** After a patch the same place is found again, with separate blocks. */
  lemma PatchedFinds(b: seq<byte>, base: nat, size: nat)
    requires Find(b, base).At? && Separate(Blocks(b).value)
    ensures Find(Patch(b, base, size).0, base) == Find(b, base)
  {
    hide Walk; hide Blocks; hide BigEndian;
    var l, p := Blocks(b).value, Find(b, base).position;
    var c := Written(b, p, size);
    var st, names := Structure(b, l), Strings(b, l);
    var q := Walk(st, names, base, 0, 0, false).position;
    PartsKept(b, p, size, l, q);
    HeaderReads(b, c);
    WalkReads(st, Structure(c, l), names, base, 0, 0, false);
  }

  /** Patching with s1 and then s2 is patching with s2. */
  lemma PatchTwice(b: seq<byte>, base: nat, s1: nat, s2: nat)
    requires Blocks(b).Some? ==> Separate(Blocks(b).value)
    ensures Patch(Patch(b, base, s1).0, base, s2) == Patch(b, base, s2)
  {
    hide Find; hide Written; hide Blocks; hide Separate;
    if Find(b, base).At? {
      FoundHasBlocks(b, base);
      PatchedFinds(b, base, s1);
      WrittenTwice(b, Find(b, base).position, s1, s2);
    }
  }

  lemma WrittenTwice(b: seq<byte>, p: nat, s1: nat, s2: nat)
    requires p + 8 <= |b|
    ensures Written(Written(b, p, s1), p, s2) == Written(b, p, s2)
  {
    hide BigEndian;
  }

  lemma FoundHasBlocks(b: seq<byte>, base: nat)
    requires Find(b, base).At?
    ensures Blocks(b).Some?
  {}
}
