// Fixed-width integers as the generated Go code uses them: bytes, uint64, int32 and the
// 64-bit int, with shifts, bitwise or and two's complement written out over int.
module GoInts {

  const TWO_31: int := 0x8000_0000
  const TWO_32: int := 0x1_0000_0000
  const TWO_63: int := 0x8000_0000_0000_0000
  const TWO_64: int := 0x1_0000_0000_0000_0000

  type byte = x: int | 0 <= x < 256
  type bytes = seq<byte>
  type uint64 = x: int | 0 <= x < TWO_64
  type int32 = x: int | -TWO_31 <= x < TWO_31
  type int64 = x: int | -TWO_63 <= x < TWO_63

  function Pow2(n: nat): (r: nat)
    ensures r > 0
  {
    if n == 0 then 1 else 2 * Pow2(n - 1)
  }

  // Bitwise or of two non-negative integers, bit by bit.
  function BitOr(a: nat, b: nat): (r: nat)
  {
    if a == 0 then b
    else if b == 0 then a
    else (if a % 2 == 1 || b % 2 == 1 then 1 else 0) + 2 * BitOr(a / 2, b / 2)
  }

  // x << s in a w-bit register: bits pushed past the top are lost.
  function Shl(w: nat, x: nat, s: nat): nat {
    (x * Pow2(s)) % Pow2(w)
  }

  // The signed value of a 32-bit or 64-bit pattern, and the pattern of a signed value.
  function AsInt32(p: nat): int32 {
    var q := p % TWO_32;
    if q < TWO_31 then q else q - TWO_32
  }

  function AsInt64(p: nat): int64 {
    var q := p % TWO_64;
    if q < TWO_63 then q else q - TWO_64
  }

  function Pattern32(x: int32): (p: nat)
    ensures p < TWO_32 && AsInt32(p) == x
  {
    if x < 0 then x + TWO_32 else x
  }

  function Pattern64(x: int64): (p: nat)
    ensures p < TWO_64 && AsInt64(p) == x
  {
    if x < 0 then x + TWO_64 else x
  }

  lemma PatternInverse(p: nat)
    ensures p < TWO_32 ==> Pattern32(AsInt32(p)) == p
    ensures p < TWO_64 ==> Pattern64(AsInt64(p)) == p
  {
  }

  // uint64(x) for an int32 x: sign extension.
  function SignExtend(x: int32): uint64 {
    if x < 0 then x + TWO_64 else x
  }

  // A uint64 result, which wraps at 64 bits.
  function Wrap64(x: nat): uint64 {
    x % TWO_64
  }

  // Go int addition, which wraps at 64 bits.
  function WrapAdd(x: int64, y: int64): int64 {
    AsInt64((x + y) % TWO_64)
  }

  lemma AsInt64Value(p: uint64)
    ensures AsInt64(p) == if p < TWO_63 then p else p - TWO_64
  {
  }

  // Two non-negative ints add up, or wrap to a negative.
  lemma WrapAddValue(x: int64, y: int64)
    requires 0 <= x && 0 <= y
    ensures WrapAdd(x, y) == if x + y < TWO_63 then x + y else x + y - TWO_64
  {
  }

  lemma {:induction false} Pow2Sum(a: nat, b: nat)
    ensures Pow2(a + b) == Pow2(a) * Pow2(b)
  {
    if a > 0 {
      Pow2Sum(a - 1, b);
      assert Pow2(a + b) == 2 * (Pow2(a - 1) * Pow2(b));
    }
  }

  lemma Pow2Constants()
    ensures Pow2(7) == 128 && Pow2(32) == TWO_32 && Pow2(63) == TWO_63 && Pow2(64) == TWO_64
  {
    assert Pow2(8) == 256;
    Pow2Sum(8, 8);
    Pow2Sum(16, 16);
    Pow2Sum(32, 32);
    assert Pow2(64) == 2 * Pow2(63);
  }

  // Or-ing in a value that starts above the top bit of a is addition.
  lemma {:induction false} OrDisjoint(a: nat, d: nat, s: nat)
    requires a < Pow2(s)
    ensures BitOr(a, d * Pow2(s)) == a + d * Pow2(s)
  {
    if s == 0 || a == 0 || d * Pow2(s) == 0 {
    } else {
      var b := d * Pow2(s - 1);
      assert d * Pow2(s) == 2 * b;
      OrDisjoint(a / 2, d, s - 1);
      assert BitOr(a / 2, b) == a / 2 + b;
    }
  }

  lemma ModUnique(x: int, q: int, r: int, m: int)
    requires 0 <= r < m && x == q * m + r
    ensures x % m == r && x / m == q
  {
    var k := x / m - q;
    assert k * m == r - x % m;
    MulAtLeast(k, m);
  }

  lemma MulAtLeast(k: int, m: nat)
    ensures k >= 1 ==> k * m >= m
    ensures k <= -1 ==> k * m + m <= 0
  {
    if k >= 1 {
      assert (k - 1) * m >= 0;
    } else if k <= -1 {
      assert (-k - 1) * m >= 0;
    }
  }

  lemma ModSmall(x: nat, m: nat)
    requires x < m
    ensures x % m == x
  {
    ModUnique(x, 0, x, m);
  }

  // Adding a multiple of p below t*p to something below p stays below t*p.
  lemma BelowProduct(v: nat, d: nat, p: nat, t: nat)
    requires v < p && d < t
    ensures v + d * p < t * p
  {
    assert (t - d - 1) * p >= 0;
    assert t * p == (t - d - 1) * p + d * p + p;
  }

  lemma ModScaled(v: nat, c: nat, t: nat, p: nat)
    requires t > 0 && v < p
    ensures (v + c * p) % (t * p) == v + (c % t) * p
  {
    var q, d := c / t, c % t;
    BelowProduct(v, d, p, t);
    assert c * p == q * (t * p) + d * p by {
      assert c == q * t + d;
      assert (q * t + d) * p == (q * t) * p + d * p;
      assert (q * t) * p == q * (t * p);
    }
    ModUnique(v + c * p, q, v + d * p, t * p);
  }

  lemma ModAddMultiple(v: nat, k: nat, m: nat)
    requires m > 0
    ensures (v + k * m) % m == v % m
  {
    var q := v / m;
    assert v + k * m == (q + k) * m + v % m;
    ModUnique(v + k * m, q + k, v % m, m);
  }

  // One turn of every varint loop: or-ing the next seven bits into a w-bit accumulator
  // keeps it equal to the running sum modulo 2^w.
  lemma OrShiftStep(w: nat, v: nat, c: nat, s: nat)
    requires v < Pow2(s)
    ensures BitOr(v % Pow2(w), Shl(w, c, s)) == (v + c * Pow2(s)) % Pow2(w)
  {
    if s <= w {
      var t, p := Pow2(w - s), Pow2(s);
      Pow2Sum(w - s, s);
      assert Pow2(w) == t * p;
      ModScaled(0, c, t, p);
      ModScaled(v, c, t, p);
      ModScaled(v, 0, t, p);
      OrDisjoint(v, c % t, s);
    } else {
      var t, m := Pow2(s - w), Pow2(w);
      Pow2Sum(s - w, w);
      assert c * Pow2(s) == (c * t) * m;
      ModAddMultiple(0, c * t, m);
      ModAddMultiple(v, c * t, m);
    }
  }
}
