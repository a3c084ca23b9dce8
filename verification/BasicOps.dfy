// The saturating operators on 16- and 32-bit words that the codec is built on.
module BasicOps {
  type Word16 = x: int | -0x8000 <= x <= 0x7FFF
  type Word32 = x: int | -0x8000_0000 <= x <= 0x7FFF_FFFF

  const MAX_16: Word16 := 0x7FFF
  const MIN_16: Word16 := -0x8000
  const MAX_32: Word32 := 0x7FFF_FFFF
  const MIN_32: Word32 := -0x8000_0000

  function Clamp(x: int, lo: int, hi: int): int {
    if x > hi then hi else if x < lo then lo else x
  }

  function Pow2(n: nat): (p: nat)
    ensures p >= 1
  {
    if n == 0 then 1 else 2 * Pow2(n - 1)
  }

  // What is left of a number in a machine word.
  function Wrap32(x: int): Word32 {
    (x + 0x8000_0000) % 0x1_0000_0000 - 0x8000_0000
  }

  function ExtractL(x: Word32): Word16 {
    (x + 0x8000) % 0x1_0000 - 0x8000
  }

  function ExtractH(x: Word32): Word16 {
    x / 0x1_0000
  }

  function Sature(x: Word32): (r: Word16)
    ensures r == Clamp(x, MIN_16, MAX_16)
  {
    if x > 0x7FFF then MAX_16 else if x < -0x8000 then MIN_16 else ExtractL(x)
  }

  function Add(a: Word16, b: Word16): (r: Word16)
    ensures r == Clamp(a + b, MIN_16, MAX_16)
  {
    Sature(a + b)
  }

  function Sub(a: Word16, b: Word16): (r: Word16)
    ensures r == Clamp(a - b, MIN_16, MAX_16)
  {
    Sature(a - b)
  }

  lemma SubZero(a: Word16, b: Word16)
    ensures Sub(a, b) == 0 <==> a == b
  {
  }

  function Negate(a: Word16): (r: Word16)
    ensures r as int == Clamp(-(a as int), MIN_16, MAX_16)
  {
    if a == MIN_16 then MAX_16 else -a
  }

  // The left shift of a word.
  function Shl(a: Word16, n: nat): Word16 {
    var x := a * Pow2(n);
    if MIN_16 <= x <= MAX_16 then x else if a > 0 then MAX_16 else MIN_16
  }

  lemma ShlMeaning(a: Word16, n: nat)
    ensures Shl(a, n) == Clamp(a * Pow2(n), MIN_16, MAX_16)
  {
    assert a > 0 ==> a * Pow2(n) > 0;
    assert a < 0 ==> a * Pow2(n) < 0;
  }

  // The arithmetic right shift, which complements a negative word before and after.
  function Shr(a: Word16, n: nat): Word16
  {
    if n >= 15 then (if a < 0 then -1 else 0)
    else
      ShiftedComplement(a, Pow2(n));
      if a < 0 then -1 - (-1 - a) / Pow2(n) else a / Pow2(n)
  }

  lemma ShrMeaning(a: Word16, n: nat)
    ensures Shr(a, n) == if n < 15 then a / Pow2(n) else if a < 0 then -1 else 0
  {
    if n < 15 { ShiftedComplement(a, Pow2(n)); }
  }

  lemma ShiftedComplement(a: Word16, p: nat)
    requires p >= 1
    ensures MIN_16 <= a / p <= MAX_16 && MIN_16 <= -1 - (-1 - a) / p <= MAX_16
    ensures -1 - (-1 - a) / p == a / p
  {
    Complemented(a, p);
  }

  // Complementing before and after rounds down, and no quotient is greater than what is divided.
  lemma Complemented(a: int, p: nat)
    requires p >= 1
    ensures -1 - (-1 - a) / p == a / p && if a >= 0 then 0 <= a / p <= a else a <= a / p <= -1
  {
    var q, r := a / p, a % p;
    assert -1 - a == (-1 - q) * p + (p - 1 - r);
    QuotientIs(-1 - a, p, -1 - q, p - 1 - r);
    assert a >= 0 ==> 0 <= q <= a by { if a >= 0 { Bound(q, p, a); } }
    assert a < 0 ==> 0 <= -1 - q <= -1 - a by { if a < 0 { Bound(-1 - q, p, -1 - a); } }
  }

  // The shifts as they are called: a negative count shifts the other way.  The count -32768 has no negative, and the two would
  // call each other for ever.
  function ShlBy(a: Word16, n: Word16): Word16
    requires n > MIN_16
  {
    if n < 0 then Shr(a, -n) else Shl(a, n)
  }

  function ShrBy(a: Word16, n: Word16): Word16
    requires n > MIN_16
  {
    if n < 0 then Shl(a, -n) else Shr(a, n)
  }

  // The left shift multiplies by a power of two and clamps, or divides by one and rounds down; the right shift is its mirror.
  lemma ShiftMeaning(a: Word16, n: Word16)
    requires n > MIN_16
    ensures ShlBy(a, n) == ShrBy(a, -n) == if n >= 0 then Clamp(a * Pow2(n), MIN_16, MAX_16) else a / Pow2(-n)
  {
    hide Pow2, Shl, Shr;
    if n >= 0 {
      ShlMeaning(a, n);
      if n == 0 { NoShift(a); }
    } else {
      ShrMeaning(a, -n);
      if -n >= 15 {
        Grown(15, -n);
        ShiftedOut(a, Pow2(-n), 0x8000);
      }
    }
  }

  lemma NoShift(a: Word16)
    ensures Shl(a, 0) == Shr(a, 0) == a
  {
  }

  lemma {:induction false} Grown(k: nat, n: nat)
    requires k <= n
    ensures Pow2(k) <= Pow2(n) && Pow2(15) == 0x8000 && Pow2(31) == 0x8000_0000
    decreases n
  {
    if k < n { Grown(k, n - 1); }
    assert Pow2(10) == 0x400;
    assert Pow2(20) == 0x10_0000;
    assert Pow2(30) == 0x4000_0000;
  }

  // Nothing but the sign is left.
  lemma ShiftedOut(a: int, p: int, m: int)
    requires 0 < m <= p && -m <= a < m
    ensures a / p == if a < 0 then -1 else 0
  {
    if a < 0 { QuotientIs(a, p, -1, a + p); } else { QuotientIs(a, p, 0, a); }
  }

  lemma QuotientIs(x: int, p: nat, q: int, r: int)
    requires p >= 1 && x == q * p + r && 0 <= r < p
    ensures x / p == q && x % p == r
  {
    var q', r' := x / p, x % p;
    assert (q' - q) * p == r - r';
    assert q' - q >= 1 ==> (q' - q) * p >= p;
    assert q - q' >= 1 ==> (q - q') * p >= p;
  }

  lemma Bound(q: int, p: int, x: int)
    requires p >= 1 && x >= 0 && q == x / p
    ensures 0 <= q <= x
  {
    assert x == q * p + x % p;
    assert q < 0 ==> q * p <= -p;
    assert q > x ==> q * p >= (x + 1) * p >= x + 1;
  }

  // The fractional product, rounded down.  Only the product of -1 and -1 saturates.
  function Mult(a: Word16, b: Word16): (r: Word16)
    ensures r == if a == MIN_16 && b == MIN_16 then MAX_16 else a * b / 0x8000
  {
    Product(a, b);
    Sature(a * b / 0x8000)
  }

  lemma Product(a: Word16, b: Word16)
    ensures -0x4000_0000 <= a * b <= 0x4000_0000
    ensures !(a == MIN_16 && b == MIN_16) ==> a * b / 0x8000 <= 0x7FFF
  {
    ProductBound(a, 0x8000, b, 0x8000);
    if a > MIN_16 { ProductBound(a, 0x7FFF, b, 0x8000); }
    if b > MIN_16 { ProductBound(a, 0x8000, b, 0x7FFF); }
    assert a == MIN_16 ==> a * b == -0x8000 * b;
  }

  lemma ProductBound(a: int, m: int, b: int, n: int)
    requires -m <= a <= m && -n <= b <= n
    ensures -(m * n) <= a * b <= m * n
  {
    assert (m - a) * (n - b) >= 0 && (m + a) * (n + b) >= 0;
    assert (m - a) * (n + b) >= 0 && (m + a) * (n - b) >= 0;
  }

  predicate Negative(x: Word32) {
    x < 0
  }

  // The 32-bit sum wraps; overflow shows in the signs.
  function LAdd(a: Word32, b: Word32): (r: Word32)
    ensures r == Clamp(a + b, MIN_32, MAX_32)
  {
    var s := Wrap32(a + b);
    if Negative(a) == Negative(b) && Negative(s) != Negative(a)
    then (if a < 0 then MIN_32 else MAX_32)
    else s
  }

  function LSub(a: Word32, b: Word32): (r: Word32)
    ensures r == Clamp(a - b, MIN_32, MAX_32)
  {
    var s := Wrap32(a - b);
    if Negative(a) != Negative(b) && Negative(s) != Negative(a)
    then (if a < 0 then MIN_32 else MAX_32)
    else s
  }

  function LMult0(a: Word16, b: Word16): (r: Word32)
    ensures r == a * b
  {
    Product(a, b);
    a * b
  }

  function LMac0(acc: Word32, a: Word16, b: Word16): Word32 {
    LAdd(acc, LMult0(a, b))
  }

  // The right shift of a double word, for a count that is not negative.
  function LShr(x: Word32, n: nat): (r: Word32)
    ensures r == x / Pow2(n)
  {
    Complemented(x, Pow2(n));
    if n >= 31 then
      Grown(31, n);
      ShiftedOut(x, Pow2(n), 0x8000_0000);
      if x < 0 then -1 else 0
    else if x < 0 then -1 - (-1 - x) / Pow2(n) else x / Pow2(n)
  }

  // The right shift by 16 of the filter bank.
  function LShr16(a: Word32): (r: Word32)
    ensures r == a / 0x1_0000
  {
    assert Pow2(10) == 0x400;
    LShr(a, 16)
  }

  // Shift left one place at a time and stop at the first overflow; a count that is not positive shifts to the right.
  method LShl(x: Word32, n: Word16) returns (r: Word32)
    requires n > MIN_16
    ensures r == if n >= 0 then Clamp(x * Pow2(n), MIN_32, MAX_32) else x / Pow2(-n)
  {
    if n <= 0 { return LShr(x, -n); }
    r := 0;
    var v, k := x, n;
    while k > 0
      invariant 0 <= k <= n && v == x * Pow2(n - k) && (k < n ==> r == v)
    {
      Shifted(x, n - k, n);
      if v > 0x3FFF_FFFF {
        r := MAX_32;
        break;
      } else if v < -0x4000_0000 {
        r := MIN_32;
        break;
      }
      v := v * 2;
      r := v;
      k := k - 1;
    }
  }

  // Once a power overflows, so do all the greater ones.
  lemma {:induction false} Shifted(x: int, k: nat, n: nat)
    requires k < n
    ensures Pow2(k + 1) == 2 * Pow2(k) && x * Pow2(k + 1) == 2 * (x * Pow2(k))
    ensures x * Pow2(k) > 0x3FFF_FFFF ==> x * Pow2(n) > MAX_32
    ensures x * Pow2(k) < -0x4000_0000 ==> x * Pow2(n) < MIN_32
    decreases n
  {
    assert x * Pow2(k + 1) == 2 * (x * Pow2(k));
    if n > k + 1 {
      Shifted(x, k, n - 1);
      assert x * Pow2(n) == 2 * (x * Pow2(n - 1));
    }
  }
}
