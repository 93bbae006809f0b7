/** The format that the device-tree patch reads: big-endian words, the ten words of the header, the names that it
    looks for by their letters, and the whole patch as a statement about the blob. */
module DeviceTreeRules {
  import opened Wrappers
  import opened Endian
  import opened DeviceTree
  import opened DeviceTreeSpec

  function Reversed(s: seq<byte>): (r: seq<byte>)
    ensures |r| == |s|
  {
    seq(|s|, i requires 0 <= i < |s| => s[|s| - 1 - i])
  }

  /** A word is the value of its four bytes read from the last to the first. */
  lemma WordIsBigEndian(b: seq<byte>, i: nat)
    requires i + 4 <= |b|
    ensures Read32(b, i) == Value(Reversed(b[i..i + 4]))
  {
    hide Value;
    FourBytes(Reversed(b[i..i + 4]));
  }

  lemma FourBytes(s: seq<byte>)
    requires |s| == 4
    ensures Value(s) == Join(s[3], s[2], s[1], s[0])
  {
    var t := s[1..];
    var u := t[1..];
    var w := u[1..];
    assert w[1..] == [] && Value(w[1..]) == 0;
    assert w[0] == s[3] && u[0] == s[2] && t[0] == s[1];
    assert Value(w) == s[3] && Value(u) == s[2] + 256 * Value(w) && Value(t) == s[1] + 256 * Value(u);
  }

  /** The size is written as its eight bytes from the most to the least significant. */
  lemma SizeIsBigEndian(v: nat, i: nat)
    requires i < 8
    ensures BigEndian(v)[i] == Reversed(Bytes(v, 8))[i] == v / Pow256(7 - i) % 256
  {
    ByteIs(v, 8, 7 - i);
    Powers256();
  }

  lemma Powers256()
    ensures Pow256(0) == 1 && Pow256(1) == 0x100 && Pow256(2) == 0x1_0000 && Pow256(3) == 0x100_0000
    ensures Pow256(4) == 0x1_0000_0000 && Pow256(5) == 0x100_0000_0000 && Pow256(6) == 0x1_0000_0000_0000
    ensures Pow256(7) == 0x100_0000_0000_0000
  {}

  /** Letters by their codes. */
  function Letters(s: string): (r: seq<byte>)
    requires forall i :: 0 <= i < |s| ==> s[i] as nat < 256
    ensures |r| == |s|
  {
    seq(|s|, i requires 0 <= i < |s| => s[i] as nat)
  }

  /** The names that matter are "reg", "memory" and what begins with "memory@". */
  lemma NamesAre(name: seq<byte>)
    ensures REG == Letters("reg")
    ensures IsMemory(name) <==> name == Letters("memory") || (|name| >= 7 && name[..7] == Letters("memory@"))
  {
    assert MEMORY == Letters("memory");
    assert MEMORY + [64] == Letters("memory@");
  }

  /** Tokens begin at the next multiple of four. */
  lemma AlignIs(v: nat)
    ensures v <= Align(v) < v + 4 && Align(v) % 4 == 0
  {}

  /** The words of the header: magic, total size, offsets of structure, strings and reservations, versions and boot
      processor, sizes of strings and structure. */
  function HeaderWord(b: seq<byte>, k: nat): nat
    requires 4 * k + 4 <= |b|
  {
    Value(Reversed(b[4 * k..4 * k + 4]))
  }

  /** The blocks are taken from the header exactly when its magic is right and everything fits. */
  lemma HeaderGives(b: seq<byte>)
    ensures if |b| < 40 then Blocks(b) == None
            else
              var word := (k: nat) requires 4 * k + 4 <= |b| => HeaderWord(b, k);
              Blocks(b) ==
                if word(0) == 0xD00DFEED && 40 <= word(1) <= |b| && word(2) + word(9) <= word(1) &&
                    word(3) + word(8) <= word(1)
                then Some(Layout(word(2), word(9), word(3), word(8))) else None
  {
    hide Read32; hide Value;
    if |b| >= 40 {
      WordIsBigEndian(b, 0); WordIsBigEndian(b, 4); WordIsBigEndian(b, 8); WordIsBigEndian(b, 12);
      WordIsBigEndian(b, 32); WordIsBigEndian(b, 36);
    }
  }

  /** The tokens of the structure block. */
  function TokensOf(b: seq<byte>, l: Layout): seq<Item>
    requires l.structure + l.structureSize <= |b| && l.strings + l.stringsSize <= |b|
  {
    Items(b[l.structure..l.structure + l.structureSize], b[l.strings..l.strings + l.stringsSize], 0)
  }

  /** Some token is the target, and gives this position in the structure block. */
  ghost predicate Targets(b: seq<byte>, l: Layout, base: nat, p: nat)
    requires l.structure + l.structureSize <= |b| && l.strings + l.stringsSize <= |b|
  {
    HasTarget(b[l.structure..l.structure + l.structureSize], base, TokensOf(b, l), 0, p)
  }

  /** The patch succeeds exactly when the header gives blocks whose tokens have a target with the expected base and two
      64-bit cells; then the second cell, and nothing else, is the new size. */
  lemma PatchesTarget(b: seq<byte>, base: nat, size: nat)
    ensures var (b', e) := Patch(b, base, size);
            if Blocks(b).None? then e == Some(InvalidBlob) && b' == b
            else
              var l := Blocks(b).value;
              (e.None? <==> exists p: nat :: Targets(b, l, base, p)) && (e.Some? ==> b' == b) &&
              forall p: nat :: Targets(b, l, base, p) ==>
                l.structure + p + 8 <= |b| && b' == b[..l.structure + p] + BigEndian(size) + b[l.structure + p + 8..]
  {
    hide Walk; hide Items; hide Blocks; hide Targets; hide BigEndian;
    if Blocks(b).Some? {
      var l := Blocks(b).value;
      var w := Walk(Structure(b, l), Strings(b, l), base, 0, 0, false);
      forall p: nat ensures Targets(b, l, base, p) <==> w == At(p) { TargetsIs(b, l, base, p); }
      if w.At? { assert Targets(b, l, base, w.position) && Find(b, base) == At(l.structure + w.position); }
    }
  }

  lemma TargetsIs(b: seq<byte>, l: Layout, base: nat, p: nat)
    requires l.structure + l.structureSize <= |b| && l.strings + l.stringsSize <= |b|
    ensures Targets(b, l, base, p) <==> Walk(Structure(b, l), Strings(b, l), base, 0, 0, false) == At(p)
  {
    hide Walk; hide Items; hide Gives; hide Stops; hide Opened; hide Depth;
    SpecTarget(Structure(b, l), Strings(b, l), base, p);
  }

  lemma SpecTarget(st: seq<byte>, names: seq<byte>, base: nat, p: nat)
    ensures HasTarget(st, base, Items(st, names, 0), 0, p) <==> Walk(st, names, base, 0, 0, false) == At(p)
  {
    hide Walk; hide Items; hide Gives; hide Stops; hide Opened; hide Depth;
    WalkFindsTarget(st, names, base, p);
    var items := Items(st, names, 0);
    assert HasTarget(st, base, items, 0, p) <==> exists i: nat :: Target(items, i) && Gives(st, base, items[i], p);
  }
}
