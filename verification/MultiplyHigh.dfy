/** The high half of a 64-bit product from 32-bit limbs, as RV64's MULH, MULHU and MULHSU need it. */
module MultiplyHigh {
  import Bits

  const B: nat := 0x1_0000_0000
  const U: nat := 0x1_0000_0000_0000_0000

  type Word = x: nat | x < 0x1_0000_0000_0000_0000

  /* ---- 64-bit machine arithmetic, which wraps ---- */

  function Add(x: Word, y: Word): Word { (x + y) % U }

  function Mul(x: Word, y: Word): Word { (x * y) % U }

  function Sub(x: Word, y: Word): Word { (x - y) % U }

  function Carry(low: Word, cross1: Word, cross2: Word): Word {
    Add(Add(low / B, cross1 % B), cross2 % B) / B
  }

  function Unsigned(lhs: Word, rhs: Word): Word {
    var ll, lh, rl, rh := lhs % B, lhs / B, rhs % B, rhs / B;
    var low, cross1, cross2, high := Mul(ll, rl), Mul(ll, rh), Mul(lh, rl), Mul(lh, rh);
    Add(Add(Add(high, cross1 / B), cross2 / B), Carry(low, cross1, cross2))
  }

  function Signed(lhs: Word, rhs: Word): Word {
    var r0 := Unsigned(lhs, rhs);
    var r1 := if lhs / 0x8000_0000_0000_0000 != 0 then Sub(r0, rhs) else r0;
    if rhs / 0x8000_0000_0000_0000 != 0 then Sub(r1, lhs) else r1
  }

  function SignedUnsigned(lhs: Word, rhs: Word): Word {
    var r0 := Unsigned(lhs, rhs);
    if lhs / 0x8000_0000_0000_0000 != 0 then Sub(r0, rhs) else r0
  }

  /* ---- the limbs never overflow ---- */

  lemma ProductBound(x: nat, y: nat, m: nat)
    requires x <= m && y <= m
    ensures x * y <= m * m
  {
    assert x * y <= x * m;
    assert x * m <= m * m;
  }

  /** Each of the four limb products fits a word exactly, with room for two more limbs. */
  lemma LimbsFit(x: nat, y: nat)
    requires x < B && y < B
    ensures x * y <= (B - 1) * (B - 1) && Mul(x, y) == x * y
  {
    hide Mul;
    ProductBound(x, y, B - 1);
    MulSmall(x, y);
  }

  lemma MulSmall(x: Word, y: Word)
    requires x * y < U
    ensures Mul(x, y) == x * y
  {
    SmallMod(x * y);
  }

  lemma SmallMod(v: nat)
    requires v < U
    ensures v % U == v
  {}

  lemma AddSmall(x: Word, y: Word)
    requires x + y < U
    ensures Add(x, y) == x + y
  {}

  lemma CarryFits(low: Word, cross1: Word, cross2: Word)
    ensures var s := low / B + cross1 % B + cross2 % B; s < U && Carry(low, cross1, cross2) == s / B
  {
    hide Add;
    AddSmall(low / B, cross1 % B);
    AddSmall(low / B + cross1 % B, cross2 % B);
  }

  /** The product by limbs: what is above 2^64 and what remains below. */
  lemma ByLimbs(a: nat, b: nat, ll: nat, lh: nat, rl: nat, rh: nat)
    requires a == lh * B + ll && b == rh * B + rl
    ensures a * b == lh * rh * U + (ll * rh + lh * rl) * B + ll * rl
  {
    assert a * b == (lh * B + ll) * (rh * B + rl);
    assert (lh * B) * (rh * B) == lh * rh * U;
    assert (lh * B) * rl == lh * rl * B;
    assert ll * (rh * B) == ll * rh * B;
    assert (lh * B + ll) * (rh * B + rl) == (lh * B) * (rh * B) + (lh * B) * rl + ll * (rh * B) + ll * rl;
  }

  /** Regrouping four partial products by their own halves. */
  lemma Regroup(high: nat, c1: nat, c2: nat, low: nat)
    ensures var s := low / B + c1 % B + c2 % B;
            high * U + (c1 + c2) * B + low == (high + c1 / B + c2 / B + s / B) * U + (s % B) * B + low % B &&
            (s % B) * B + low % B < U
  {
    assert c1 == c1 / B * B + c1 % B && c2 == c2 / B * B + c2 % B && low == low / B * B + low % B;
    var s := low / B + c1 % B + c2 % B;
    assert s == s / B * B + s % B;
  }

  lemma TopBelow(q: nat, rest: nat, a: nat, b: nat)
    requires a < U && b < U && a * b == q * U + rest
    ensures q < U
  {
    ProductBound(a, b, U - 1);
  }

  /** The limb computation is the exact high half: no intermediate sum or product wraps. */
  lemma UnsignedIsExact(a: Word, b: Word)
    ensures Unsigned(a, b) == a * b / U
  {
    var ll, lh, rl, rh := a % B, a / B, b % B, b / B;
    LimbsFit(ll, rl); LimbsFit(ll, rh); LimbsFit(lh, rl); LimbsFit(lh, rh);
    var low, c1, c2, high: Word := Mul(ll, rl), Mul(ll, rh), Mul(lh, rl), Mul(lh, rh);
    ByLimbs(a, b, ll, lh, rl, rh);
    Regroup(high, c1, c2, low);
    CarryFits(low, c1, c2);
    Assemble(a, b, high, c1, c2, low);
  }

  lemma Assemble(a: Word, b: Word, high: Word, c1: Word, c2: Word, low: Word)
    requires a * b == high * U + (c1 + c2) * B + low
    ensures Add(Add(Add(high, c1 / B), c2 / B), Carry(low, c1, c2)) == a * b / U
  {
    hide Carry; hide Add;
    CarryFits(low, c1, c2);
    Regroup(high, c1, c2, low);
    var s := low / B + c1 % B + c2 % B;
    var q := high + c1 / B + c2 / B + s / B;
    TopBelow(q, (s % B) * B + low % B, a, b);
    Bits.ModIs(a * b, U, q, (s % B) * B + low % B);
    SumFits(high, c1 / B, c2 / B, Carry(low, c1, c2));
  }

  lemma SumFits(a: nat, b: nat, c: nat, d: nat)
    requires a + b + c + d < U
    ensures Add(Add(Add(a, b), c), d) == a + b + c + d
  {
    hide Add;
    AddSmall(a, b);
    AddSmall(a + b, c);
    AddSmall(a + b + c, d);
  }

  /** With the wrapping low half it is the whole product. */
  lemma HalvesRecombine(a: Word, b: Word)
    ensures Unsigned(a, b) * U + Mul(a, b) == a * b
  {
    hide Unsigned;
    UnsignedIsExact(a, b);
  }

  /* ---- the signed corrections ---- */

  /** The two's complement value of a word. */
  function Value(x: Word): int { if x / 0x8000_0000_0000_0000 != 0 then x - U else x }

  /** Taking a multiple of 2^64 from a product takes that multiple from its high half. */
  lemma HighOfDifference(p: int, k: int)
    ensures (p - k * U) / U == p / U - k
  {
    var q, r := p / U, p % U;
    assert p - k * U == (q - k) * U + r;
  }

  lemma SubWraps(x: int, y: Word)
    ensures Sub(x % U, y) == (x - y) % U
  {
    var k := x / U;
    assert x % U - y == (x - y) - k * U;
    ModShift(x - y, k);
  }

  lemma ModShift(x: int, k: int)
    ensures (x - k * U) % U == x % U
  {
    HighOfDifference(x, k);
    assert (x - k * U) % U == (x - k * U) - U * ((x - k * U) / U);
  }

  lemma SignedUnsignedIsExact(a: Word, b: Word)
    ensures SignedUnsigned(a, b) == (Value(a) * b / U) % U
  {
    hide Unsigned;
    UnsignedIsExact(a, b);
    var h := a * b / U;
    HighBelow(a, b);
    if a / 0x8000_0000_0000_0000 != 0 {
      assert Value(a) * b == a * b - b * U;
      HighOfDifference(a * b, b);
    }
  }

  lemma HighBelow(a: Word, b: Word)
    ensures a * b / U < U && (a * b / U) % U == a * b / U
  {
    TopBelow(a * b / U, a * b % U, a, b);
  }

  /** MULH: the high half of the true signed product, floor(a*b / 2^64) modulo 2^64. */
  lemma SignedIsExact(a: Word, b: Word)
    ensures Signed(a, b) == (Value(a) * Value(b) / U) % U
  {
    hide Unsigned;
    SignedUnsignedIsExact(a, b);
    var p := Value(a) * b;
    if b / 0x8000_0000_0000_0000 != 0 {
      assert Value(a) * Value(b) == p - Value(a) * U;
      HighOfDifference(p, Value(a));
      SubWraps(p / U, a);
      if a / 0x8000_0000_0000_0000 != 0 {
        assert p / U - Value(a) == (p / U - a) - (-1) * U;
        ModShift(p / U - a, -1);
      }
    }
  }
}
