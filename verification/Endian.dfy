/** Little-endian bytes of a word, and RAM that reads and writes them in place. */
module Endian {
  import opened Wrappers
  import Bits

  type byte = x: nat | x < 256

  datatype Width = Byte | HalfWord | Word | DoubleWord

  function Count(w: Width): (r: nat)
    ensures 1 <= r <= 8
  {
    match w case Byte => 1 case HalfWord => 2 case Word => 4 case DoubleWord => 8
  }

  function Pow256(n: nat): (r: nat)
    ensures r > 0
  {
    if n == 0 then 1 else 256 * Pow256(n - 1)
  }

  function Value(s: seq<byte>): nat {
    if s == [] then 0 else s[0] + 256 * Value(s[1..])
  }

  function Bytes(v: nat, n: nat): (r: seq<byte>)
    ensures |r| == n
    decreases n
  {
    if n == 0 then [] else [v % 256] + Bytes(v / 256, n - 1)
  }

  lemma {:induction false} BytesOfValue(s: seq<byte>)
    ensures Bytes(Value(s), |s|) == s && Value(s) < Pow256(|s|)
  {
    if s != [] {
      BytesOfValue(s[1..]);
      assert Value(s) / 256 == Value(s[1..]) && Value(s) % 256 == s[0];
    }
  }

  lemma {:induction false} ValueOfBytes(v: nat, n: nat)
    requires v < Pow256(n)
    ensures Value(Bytes(v, n)) == v
    decreases n
  {
    if n > 0 {
      ValueOfBytes(v / 256, n - 1);
      assert Bytes(v, n)[1..] == Bytes(v / 256, n - 1);
    }
  }

  /** Bytes depend on the value modulo their range only: a wider value is truncated. */
  lemma {:induction false} BytesTruncate(v: nat, n: nat)
    ensures Value(Bytes(v, n)) == v % Pow256(n)
    decreases n
  {
    if n > 0 {
      BytesTruncate(v / 256, n - 1);
      assert Bytes(v, n)[1..] == Bytes(v / 256, n - 1);
      DivMod(v, Pow256(n - 1));
    }
  }

  /** Byte i is the quotient by the i-th power of 256, modulo 256: least significant first. */
  lemma {:induction false} ByteIs(v: nat, n: nat, i: nat)
    requires i < n
    ensures Bytes(v, n)[i] == v / Pow256(i) % 256
    decreases n
  {
    if i > 0 {
      ByteIs(v / 256, n - 1, i - 1);
      DivDiv(v, Pow256(i - 1));
    }
  }

  lemma DivMod(v: nat, m: nat)
    requires m > 0
    ensures v % (256 * m) == v % 256 + 256 * ((v / 256) % m)
  {
    var q, r := (v / 256) / m, (v / 256) % m;
    assert v / 256 == m * q + r;
    var low := v % 256 + 256 * r;
    assert v == (256 * m) * q + low;
    Bits.ModIs(v, 256 * m, q, low);
  }

  lemma {:induction false} ValueAppend(s: seq<byte>, b: byte)
    ensures Value(s + [b]) == Value(s) + b * Pow256(|s|)
  {
    if s == [] {
      assert s + [b] == [b];
    } else {
      ValueAppend(s[1..], b);
      assert (s + [b])[1..] == s[1..] + [b];
    }
  }

  lemma {:induction false} BytesAppend(v: nat, n: nat)
    ensures Bytes(v, n + 1) == Bytes(v, n) + [v / Pow256(n) % 256]
    decreases n
  {
    if n > 0 {
      BytesAppend(v / 256, n - 1);
      DivDiv(v, Pow256(n - 1));
    }
  }

  lemma DivDiv(v: nat, m: nat)
    requires m > 0
    ensures v / (256 * m) == v / 256 / m
  {
    var q, r := (v / 256) / m, (v / 256) % m;
    assert v / 256 == m * q + r;
    var low := v % 256 + 256 * r;
    assert v == (256 * m) * q + low;
    Bits.ModIs(v, 256 * m, q, low);
  }

  /* ---- RAM ---- */

  predicate InRange(size: nat, offset: nat, w: Width) { Count(w) <= size && offset <= size - Count(w) }

  function Stored(data: seq<byte>, offset: nat, w: Width, v: nat): (r: seq<byte>)
    requires InRange(|data|, offset, w)
    ensures |r| == |data|
  {
    data[..offset] + Bytes(v, Count(w)) + data[offset + Count(w)..]
  }

  function Loaded(data: seq<byte>, offset: nat, w: Width): nat
    requires InRange(|data|, offset, w)
  {
    Value(data[offset..offset + Count(w)])
  }

  /** A read at the place of a write gives the value back, truncated to the width. */
  lemma LoadStored(data: seq<byte>, offset: nat, w: Width, v: nat)
    requires InRange(|data|, offset, w)
    ensures Loaded(Stored(data, offset, w, v), offset, w) == v % Pow256(Count(w))
  {
    BytesTruncate(v, Count(w));
    assert Stored(data, offset, w, v)[offset..offset + Count(w)] == Bytes(v, Count(w));
  }

  /** A read elsewhere does not see the write. */
  lemma LoadElsewhere(data: seq<byte>, offset: nat, w: Width, v: nat, offset': nat, w': Width)
    requires InRange(|data|, offset, w) && InRange(|data|, offset', w')
    requires offset' + Count(w') <= offset || offset + Count(w) <= offset'
    ensures Loaded(Stored(data, offset, w, v), offset', w') == Loaded(data, offset', w')
  {
    assert Stored(data, offset, w, v)[offset'..offset' + Count(w')] == data[offset'..offset' + Count(w')];
  }

  /** The data after the first n bytes of a write. */
  function Partial(data: seq<byte>, offset: nat, v: nat, n: nat): (r: seq<byte>)
    requires offset + n <= |data|
    ensures |r| == |data|
  {
    data[..offset] + Bytes(v, n) + data[offset + n..]
  }

  lemma StoreStep(data: seq<byte>, offset: nat, v: nat, n: nat)
    requires offset + n < |data|
    ensures Partial(data, offset, v, n + 1) == Partial(data, offset, v, n)[offset + n := v / Pow256(n) % 256]
  {
    BytesAppend(v, n);
  }

  lemma NothingStored(data: seq<byte>, offset: nat, v: nat)
    requires offset <= |data|
    ensures Partial(data, offset, v, 0) == data
  {}

  lemma WholeIsStored(data: seq<byte>, offset: nat, w: Width, v: nat)
    requires InRange(|data|, offset, w)
    ensures Partial(data, offset, v, Count(w)) == Stored(data, offset, w, v)
  {}

  class Ram {
    const data: array<byte>

    constructor (size: nat)
      ensures data.Length == size && fresh(data)
    {
      data := new byte[size](_ => 0);
    }

    /** read_little_endian: None is out of range. */
    method Read(offset: nat, w: Width) returns (value: Option<nat>)
      ensures value == if InRange(data.Length, offset, w) then Some(Loaded(data[..], offset, w)) else None
    {
      var count := Count(w);
      if count > data.Length || offset > data.Length - count { return None; }
      var v: nat, weight: nat := 0, 1;
      for index := 0 to count
        invariant weight == Pow256(index) && v == Value(data[offset..offset + index])
      {
        ValueAppend(data[offset..offset + index], data[offset + index]);
        assert data[offset..offset + index] + [data[offset + index]] == data[offset..offset + index + 1];
        v := v + data[offset + index] * weight;
        weight := 256 * weight;
      }
      assert data[..][offset..offset + count] == data[offset..offset + count];
      return Some(v);
    }

    /** write_little_endian: false is out of range, and then nothing changes. */
    method Write(offset: nat, w: Width, value: nat) returns (ok: bool)
      modifies data
      ensures ok == InRange(data.Length, offset, w)
      ensures data[..] == if ok then Stored(old(data[..]), offset, w, value) else old(data[..])
    {
      var count := Count(w);
      if count > data.Length || offset > data.Length - count { return false; }
      hide Partial; hide Bytes; hide Stored;
      NothingStored(data[..], offset, value);
      var weight: nat := 1;
      for index := 0 to count
        invariant weight == Pow256(index)
        invariant data[..] == Partial(old(data[..]), offset, value, index)
      {
        StoreStep(old(data[..]), offset, value, index);
        data[offset + index] := value / weight % 256;
        weight := 256 * weight;
      }
      WholeIsStored(old(data[..]), offset, w, value);
      return true;
    }
  }
}
