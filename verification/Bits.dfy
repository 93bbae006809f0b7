/** Machine words as sequences of bits, least significant first. */
module Bits {
  type Word = seq<bool>

  function Value(b: Word): nat {
    if b == [] then 0 else (if b[0] then 1 else 0) + 2 * Value(b[1..])
  }

  function Of(value: nat, width: nat): (b: Word)
    ensures |b| == width
    decreases width
  {
    if width == 0 then [] else [value % 2 == 1] + Of(value / 2, width - 1)
  }

  lemma {:induction false} OfValue(b: Word)
    ensures Of(Value(b), |b|) == b
  {
    if b != [] {
      OfValue(b[1..]);
      assert Value(b) / 2 == Value(b[1..]);
    }
  }

  lemma OfStep(value: nat, width: nat)
    requires width > 0
    ensures Of(value, width) == [value % 2 == 1] + Of(value / 2, width - 1)
  {}

  lemma {:induction false} OfZero(width: nat, i: nat)
    requires i < width
    ensures !Of(0, width)[i]
    decreases width
  {
    if i > 0 { OfZero(width - 1, i - 1); }
  }

  lemma {:induction false} Scaled(d: nat, a: nat, b: nat)
    requires a < b
    ensures d * a + d <= d * b
  {
    if a + 1 < b { Scaled(d, a, b - 1); }
    assert d * b == d * (b - 1) + d;
  }

  /** Division with remainder is unique. */
  lemma ModIs(v: nat, d: nat, q: nat, r: nat)
    requires v == d * q + r && r < d
    ensures v % d == r && v / d == q
  {
    if q < v / d { Scaled(d, q, v / d); }
    if v / d < q { Scaled(d, v / d, q); }
  }

  /** Bit i of a word is its quotient by the i-th power of two, modulo two. */
  lemma {:induction false} OfIs(value: nat, width: nat, i: nat)
    requires i < width
    ensures Of(value, width)[i] <==> value / PowerOf2(i) % 2 == 1
    decreases width
  {
    if i > 0 {
      OfIs(value / 2, width - 1, i - 1);
      Quotients(value, PowerOf2(i - 1));
    }
  }

  lemma Quotients(v: nat, m: nat)
    requires m > 0
    ensures v / (2 * m) == v / 2 / m
  {
    var q, r := v / 2 / m, v / 2 % m;
    assert v / 2 == m * q + r;
    assert v == (2 * m) * q + (v % 2 + 2 * r);
    ModIs(v, 2 * m, q, v % 2 + 2 * r);
  }

  function Or(a: nat, b: nat, width: nat): nat {
    var x, y := Of(a, width), Of(b, width);
    Value(seq(width, i requires 0 <= i < width => x[i] || y[i]))
  }

  function And(a: nat, b: nat, width: nat): nat {
    var x, y := Of(a, width), Of(b, width);
    Value(seq(width, i requires 0 <= i < width => x[i] && y[i]))
  }

  function AndNot(a: nat, b: nat, width: nat): nat {
    var x, y := Of(a, width), Of(b, width);
    Value(seq(width, i requires 0 <= i < width => x[i] && !y[i]))
  }

  /** The positions of the set bits. */
  function SetOf(value: nat, width: nat): set<nat> {
    var b := Of(value, width);
    set i | 0 <= i < width && b[i]
  }

  function OfSet(s: set<nat>, width: nat): nat {
    Value(seq(width, i => i in s))
  }

  /* ---- powers of two as the program tests and masks them ---- */

  function PowerOf2(n: nat): (r: nat)
    ensures r > 0
  {
    if n == 0 then 1 else 2 * PowerOf2(n - 1)
  }

  lemma PowersOf2()
    ensures PowerOf2(16) == 0x1_0000 && PowerOf2(32) == 0x1_0000_0000 && PowerOf2(64) == 0x1_0000_0000_0000_0000
  {
    assert PowerOf2(4) == 16 && PowerOf2(8) == 256;
    PowersAdd(8, 8);
    PowersAdd(16, 16);
    PowersAdd(32, 32);
  }

  lemma {:induction false} PowersAdd(a: nat, b: nat)
    ensures PowerOf2(a + b) == PowerOf2(a) * PowerOf2(b)
  {
    if a > 0 { PowersAdd(a - 1, b); }
  }

  lemma AndStep(a: nat, b: nat, width: nat)
    requires width > 0
    ensures And(a, b, width) == (if a % 2 == 1 && b % 2 == 1 then 1 else 0) + 2 * And(a / 2, b / 2, width - 1)
  {
    var x, y := Of(a, width), Of(b, width);
    var w := seq(width, i requires 0 <= i < width => x[i] && y[i]);
    var u, v := Of(a / 2, width - 1), Of(b / 2, width - 1);
    assert w[1..] == seq(width - 1, i requires 0 <= i < width - 1 => u[i] && v[i]);
  }

  lemma AndNotStep(a: nat, b: nat, width: nat)
    requires width > 0
    ensures AndNot(a, b, width) == (if a % 2 == 1 && b % 2 == 0 then 1 else 0) + 2 * AndNot(a / 2, b / 2, width - 1)
  {
    var x, y := Of(a, width), Of(b, width);
    var w := seq(width, i requires 0 <= i < width => x[i] && !y[i]);
    var u, v := Of(a / 2, width - 1), Of(b / 2, width - 1);
    assert w[1..] == seq(width - 1, i requires 0 <= i < width - 1 => u[i] && !v[i]);
  }

  predicate IsPower(a: nat)
    decreases a
  {
    a == 1 || (a > 1 && a % 2 == 0 && IsPower(a / 2))
  }

  lemma {:induction false} AndSelf(a: nat, width: nat)
    requires a < PowerOf2(width)
    ensures And(a, a, width) == a
    decreases width
  {
    if width > 0 {
      AndStep(a, a, width);
      AndSelf(a / 2, width - 1);
    }
  }

  /** v & (v - 1) is zero exactly for a power of two. */
  lemma {:induction false} PowerByMask(a: nat, width: nat)
    requires 0 < a < PowerOf2(width)
    ensures And(a, a - 1, width) == 0 <==> IsPower(a)
    decreases width
  {
    AndStep(a, a - 1, width);
    if a % 2 == 1 {
      assert (a - 1) / 2 == a / 2;
      AndSelf(a / 2, width - 1);
    } else {
      assert (a - 1) / 2 == a / 2 - 1;
      PowerByMask(a / 2, width - 1);
    }
  }

  lemma {:induction false} AndNotZero(v: nat, width: nat)
    requires v < PowerOf2(width)
    ensures AndNot(v, 0, width) == v
    decreases width
  {
    if width > 0 {
      AndNotStep(v, 0, width);
      AndNotZero(v / 2, width - 1);
    }
  }

  lemma DoubleMod(v: nat, h: nat)
    requires h > 0
    ensures v % (2 * h) == 2 * (v / 2 % h) + v % 2
  {
    var q, r := v / 2 / h, v / 2 % h;
    assert v / 2 == h * q + r;
    assert (2 * h) * q == 2 * (h * q);
    ModIs(v, 2 * h, q, 2 * r + v % 2);
  }

  lemma RoundStep(v: nat, h: nat, width: nat)
    requires width > 0 && h > 0
    ensures AndNot(v, 2 * h - 1, width) == 2 * AndNot(v / 2, h - 1, width - 1)
  {
    hide AndNot;
    AndNotStep(v, 2 * h - 1, width);
    assert (2 * h - 1) / 2 == h - 1 && (2 * h - 1) % 2 == 1;
  }

  lemma RoundDoubled(v: nat, h: nat, width: nat)
    requires width > 0 && h > 0 && AndNot(v / 2, h - 1, width - 1) == v / 2 - v / 2 % h
    ensures AndNot(v, 2 * h - 1, width) == v - v % (2 * h)
  {
    hide AndNot;
    RoundStep(v, h, width);
    DoubleMod(v, h);
    var r := v / 2 % h;
    assert v == 2 * (v / 2) + v % 2;
  }

  lemma RoundZero(a: nat)
    requires a > 0
    ensures AndNot(0, a - 1, 0) == 0 && 0 % a == 0
  {}

  lemma PowerHalves(a: nat)
    requires IsPower(a) && a != 1
    ensures a / 2 > 0 && a == 2 * (a / 2) && IsPower(a / 2)
  {}

  /** Clearing the bits below a power of two rounds down to a multiple of it. */
  lemma {:induction false} RoundDown(v: nat, a: nat, width: nat)
    requires v < PowerOf2(width) && IsPower(a)
    ensures a > 0 && AndNot(v, a - 1, width) == v - v % a
    decreases width
  {
    hide AndNot; hide IsPower;
    if a == 1 {
      AndNotZero(v, width);
    } else {
      PowerHalves(a);
      if width == 0 {
        RoundZero(a);
      } else {
        RoundDown(v / 2, a / 2, width - 1);
        RoundDoubled(v, a / 2, width);
      }
    }
  }
}
