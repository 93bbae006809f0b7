/** The device-tree patcher in place: its cursor and depth loop over the blob's bytes. */
module DeviceTreePatch {
  import opened Wrappers
  import opened Endian
  import opened DeviceTree

  /** read_c_string: where the string ends. */
  method ReadCString(b: seq<byte>, offset: nat) returns (end: Option<nat>)
    ensures end == Terminator(b, offset)
  {
    if offset >= |b| { return None; }
    var at := offset;
    while at < |b| && b[at] != 0
      invariant offset <= at <= |b| && Terminator(b, at) == Terminator(b, offset)
    {
      at := at + 1;
    }
    return if at == |b| then None else Some(at);
  }

  method WriteBe64(blob: array<byte>, offset: nat, value: nat)
    requires offset + 8 <= blob.Length
    modifies blob
    ensures blob[..] == Written(old(blob[..]), offset, value)
  {
    hide BigEndian;
    var bytes := BigEndian(value);
    for i := 0 to 8
      invariant blob[offset..offset + i] == bytes[..i]
      invariant blob[..offset] == old(blob[..offset]) && blob[offset + i..] == old(blob[offset + i..])
    {
      blob[offset + i] := bytes[i];
    }
    assert bytes[..8] == bytes && blob[..] == blob[..offset] + blob[offset..offset + 8] + blob[offset + 8..];
  }

  /** The token loop; None is success, with the place in at. */
  method Search(st: seq<byte>, names: seq<byte>, base: nat) returns (error: Option<Error>, at: nat)
    ensures Walk(st, names, base, 0, 0, false) == match error case None => At(at) case Some(e) => Fails(e)
  {
    hide Read32; hide Terminator; hide IsMemory; hide Read64; hide Walk; hide Align;
    at := 0;
    var cursor: nat, depth: nat := 0, 0;
    var memoryDepth: Option<nat> := None;
    while cursor + 4 <= |st|
      invariant memoryDepth == None || memoryDepth == Some(2)
      invariant Walk(st, names, base, 0, 0, false) == Walk(st, names, base, cursor, depth, memoryDepth.Some?)
      decreases |st| - cursor
    {
      WalkStep(st, names, base, cursor, depth, memoryDepth.Some?);
      var token := Read32(st, cursor);
      if token == 1 {
        var end := ReadCString(st, cursor + 4);
        if end.None? { return Some(InvalidBlob), 0; }
        AlignsUp(end.value + 1);
        var next := Align(end.value + 1);
        if next > |st| { return Some(InvalidBlob), 0; }
        depth := depth + 1;
        if memoryDepth.None? && depth == 2 && IsMemory(st[cursor + 4..end.value]) { memoryDepth := Some(depth); }
        cursor := next;
      } else if token == 2 {
        if depth == 0 { return Some(InvalidBlob), 0; }
        if memoryDepth == Some(depth) { return Some(MemoryRegNotFound), 0; }
        cursor, depth := cursor + 4, depth - 1;
      } else if token == 3 {
        if cursor + 12 > |st| { return Some(InvalidBlob), 0; }
        var size, name := Read32(st, cursor + 4), Read32(st, cursor + 8);
        var value := cursor + 12;
        if value + size > |st| || name >= |names| {
          if name >= |names| { NoNameThere(names, name); }
          return Some(InvalidBlob), 0;
        }
        var end := ReadCString(names, name);
        if end.None? { return Some(InvalidBlob), 0; }
        if memoryDepth == Some(depth) && names[name..end.value] == REG {
          if size != 16 || Read64(st, value) != base { return Some(UnexpectedMemoryLayout), 0; }
          return None, value + 8;
        }
        AlignsUp(value + size);
        if Align(value + size) > |st| { return Some(InvalidBlob), 0; }
        cursor := Align(value + size);
      } else if token == 4 {
        cursor := cursor + 4;
      } else if token == 9 {
        return Some(if memoryDepth.Some? then MemoryRegNotFound else MemoryNodeNotFound), 0;
      } else {
        return Some(InvalidBlob), 0;
      }
    }
    WalkStep(st, names, base, cursor, depth, memoryDepth.Some?);
    return Some(InvalidBlob), 0;
  }

  lemma WalkStep(st: seq<byte>, names: seq<byte>, base: nat, cursor: nat, depth: nat, found: bool)
    ensures Walk(st, names, base, cursor, depth, found) == match Token(st, names, base, cursor, depth, found)
              case Done(r) => r
              case Next(c, d, f) => Walk(st, names, base, c, d, f)
  {}

  lemma AlignsUp(v: nat)
    ensures v <= Align(v)
  {}

  lemma NoNameThere(names: seq<byte>, name: nat)
    requires name >= |names|
    ensures Terminator(names, name) == None
  {}

  /** patch_device_tree_memory. */
  method PatchMemory(blob: array<byte>, base: nat, size: nat) returns (error: Option<Error>)
    modifies blob
    ensures (blob[..], error) == Patch(old(blob[..]), base, size)
  {
    hide Walk; hide Written; hide Blocks; hide Read32;
    var b := blob[..];
    var blocks := Blocks(b);
    if blocks.None? { return Some(InvalidBlob); }
    var l := blocks.value;
    var at;
    error, at := Search(Structure(b, l), Strings(b, l), base);
    if error.None? { WriteBe64(blob, l.structure + at, size); }
  }
}
