// Companding by A-law and mu-law.
module G711 {
  import opened BasicOps

  // The ends of the segments, 0xFF to 0x7FFF.
  const SEG_END: seq<int> := [255, 511, 1023, 2047, 4095, 8191, 16383, 32767]

  // The first segment whose end is not below the value, from segment i on; 8 when there is none.
  function Segment(val: int, i: nat): (s: nat)
    requires i <= 8
    ensures i <= s <= 8 && (forall j | i <= j < s :: val > SEG_END[j]) && (s < 8 ==> val <= SEG_END[s])
    decreases 8 - i
  {
    if i == 8 || val <= SEG_END[i] then i else Segment(val, i + 1)
  }

  method Search(val: int, table: seq<int>) returns (i: nat)
    ensures i <= |table| && (forall j | 0 <= j < i :: val > table[j]) && (i < |table| ==> val <= table[i])
  {
    i := 0;
    while i < |table|
      invariant i <= |table| && forall j | 0 <= j < i :: val > table[j]
    {
      if val <= table[i] { return; }
      i := i + 1;
    }
  }

  const SIGN_BIT: bv8 := 0x80
  const QUANT_MASK: bv8 := 0x0F
  const SEG_MASK: bv8 := 0x70

  // Sign, segment and quantization bits of a code word.
  function Join(seg: nat, q: nat): bv8
    requires seg < 8 && q < 16
  {
    ((seg as bv8) << 4) | (q as bv8)
  }

  function Quant(x: bv8): (q: nat)
    ensures q < 16
  {
    QuantRange(x);
    (x & QUANT_MASK) as int
  }

  function Seg(x: bv8): (s: nat)
    ensures s < 8
  {
    SegRange(x);
    ((x & SEG_MASK) >> 4) as int
  }

  lemma QuantRange(x: bv8)
    ensures (x & QUANT_MASK) as int < 16
  {
    assert x & QUANT_MASK < 16;
  }

  lemma SegRange(x: bv8)
    ensures ((x & SEG_MASK) >> 4) as int < 8
  {
    assert (x & SEG_MASK) >> 4 < 8;
  }

  lemma Fields(seg: nat, q: nat, sign: bv8)
    requires seg < 8 && q < 16 && (sign == 0 || sign == SIGN_BIT)
    ensures Quant(Join(seg, q) | sign) == q && Seg(Join(seg, q) | sign) == seg && (Join(seg, q) | sign) & SIGN_BIT == sign
  {
    var s, t := seg as bv8, q as bv8;
    assert s < 8 && t < 16;
    assert ((s << 4) | t | sign) & QUANT_MASK == t;
    assert (((s << 4) | t | sign) & SEG_MASK) >> 4 == s;
    assert ((s << 4) | t | sign) & SIGN_BIT == sign;
  }

  function LinearToALaw(pcm: int): bv8
  {
    var mask: bv8 := if pcm >= 0 then 0xD5 else 0x55;
    var m := if pcm >= 0 then pcm else -pcm - 8;
    var seg := Segment(m, 0);
    if seg >= 8 then 0x7F ^ mask
    else Join(seg, ALawQuant(seg, m)) ^ mask
  }

  function ALawQuant(seg: nat, m: int): (q: nat)
    ensures q < 16
  {
    if seg < 2 then m / 16 % 16 else m / Pow2(seg + 3) % 16
  }

  function ALawToLinear(a: bv8): int
  {
    var x := a ^ 0x55;
    var t := ALawLevel(Seg(x), Quant(x));
    if x & SIGN_BIT != 0 then t else -t
  }

  function ALawLevel(seg: nat, q: nat): int
  {
    if seg == 0 then q * 16 + 8 else if seg == 1 then q * 16 + 0x108 else (q * 16 + 0x108) * Pow2(seg - 1)
  }

  const BIAS := 0x84

  function LinearToULaw(pcm: int): bv8
  {
    var mask: bv8 := if pcm < 0 then 0x7F else 0xFF;
    var m := if pcm < 0 then BIAS - pcm else pcm + BIAS;
    var seg := Segment(m, 0);
    if seg >= 8 then 0x7F ^ mask
    else Join(seg, m / Pow2(seg + 3) % 16) ^ mask
  }

  function ULawToLinear(u: bv8): int
  {
    var x := !u;
    var t := ULawLevel(Seg(x), Quant(x));
    if x & SIGN_BIT != 0 then -t else t
  }

  function ULawLevel(seg: nat, q: nat): int
  {
    (q * 8 + BIAS) * Pow2(seg) - BIAS
  }

  // The masks of the two directions leave nothing but the sign.
  lemma ALawMasks(c: bv8)
    ensures (c ^ 0xD5) ^ 0x55 == c ^ SIGN_BIT && (c ^ 0x55) ^ 0x55 == c
  {
  }

  lemma ULawMasks(c: bv8)
    ensures !(c ^ 0x7F) == c ^ SIGN_BIT && !(c ^ 0xFF) == c
  {
  }

  lemma SignOfCode(seg: nat, q: nat)
    requires seg < 8 && q < 16
    ensures Join(seg, q) ^ SIGN_BIT == Join(seg, q) | SIGN_BIT && Join(seg, q) | 0 == Join(seg, q)
  {
    var s, t := seg as bv8, q as bv8;
    assert s < 8 && t < 16;
    assert ((s << 4) | t) ^ 0x80 == ((s << 4) | t) | 0x80;
  }

  // A code word is decoded to the level of its segment and quantization bits, with its sign.
  lemma ALawDecodes(seg: nat, q: nat)
    requires seg < 8 && q < 16
    ensures ALawToLinear(Join(seg, q) ^ 0xD5) == ALawLevel(seg, q) && ALawToLinear(Join(seg, q) ^ 0x55) == -ALawLevel(seg, q)
  {
    hide Join, Seg, Quant, ALawLevel;
    ALawMasks(Join(seg, q));
    SignOfCode(seg, q);
    Fields(seg, q, 0);
    Fields(seg, q, SIGN_BIT);
  }

  lemma ULawDecodes(seg: nat, q: nat)
    requires seg < 8 && q < 16
    ensures ULawToLinear(Join(seg, q) ^ 0xFF) == ULawLevel(seg, q) && ULawToLinear(Join(seg, q) ^ 0x7F) == -ULawLevel(seg, q)
  {
    hide Join, Seg, Quant, ULawLevel;
    ULawMasks(Join(seg, q));
    SignOfCode(seg, q);
    Fields(seg, q, 0);
    Fields(seg, q, SIGN_BIT);
  }

  // The level that a biased magnitude is decoded to.
  function ULawMagnitude(m: int): int
    requires m >= BIAS
  {
    var seg := Segment(m, 0);
    if seg >= 8 then ULawLevel(7, 15) else ULawLevel(seg, m / Pow2(seg + 3) % 16)
  }

  lemma ULawRound(x: int)
    ensures ULawToLinear(LinearToULaw(x)) == if x < 0 then -ULawMagnitude(BIAS - x) else ULawMagnitude(x + BIAS)
  {
    hide Join, ULawToLinear, ULawLevel;
    var m := if x < 0 then BIAS - x else x + BIAS;
    var seg := Segment(m, 0);
    LastCode();
    if seg >= 8 { ULawDecodes(7, 15); } else { ULawDecodes(seg, m / Pow2(seg + 3) % 16); }
  }

  lemma LastCode()
    ensures Join(7, 15) == 0x7F
  {
  }

  // In segment s the step is 2^(s+3), and the level is the middle of the step the magnitude is in.
  lemma ULawCell(m: int, s: nat)
    requires s < 8 && 128 <= m <= SEG_END[s] && (s > 0 ==> m > SEG_END[s - 1])
    ensures var step := Pow2(s + 3); var k := m / step;
            16 <= k < 32 && ULawLevel(s, k % 16) == k * step + step / 2 - BIAS && step % 8 == 0 && 16 * step == Pow2(s + 7) && 32 * step == Pow2(s + 8)
  {
    hide Pow2;
    Ends(s);
    var p := Pow2(s);
    InSegment(m, 8 * p);
    var k := m / (8 * p);
    assert ((k - 16) * 8 + BIAS) * p == (8 * k) * p + 4 * p && (8 * k) * p == k * (8 * p);
  }

  // A segment ends below 2^(s+8), and all but the first start where the one before ends.
  lemma Ends(s: nat)
    requires s < 8
    ensures var p := Pow2(s); p >= 1 && Pow2(s + 3) == 8 * p && Pow2(s + 7) == 128 * p && Pow2(s + 8) == 256 * p && SEG_END[s] == 256 * p - 1
    ensures var p := Pow2(s); s > 0 ==> p == 2 * Pow2(s - 1) && SEG_END[s - 1] == 128 * p - 1
    ensures s == 0 ==> Pow2(s) == 1
  {
    hide Pow2;
    Powers();
  }

  lemma InSegment(m: int, step: int)
    requires step > 0 && 16 * step <= m < 32 * step
    ensures 16 <= m / step < 32 && m / step % 16 == m / step - 16
  {
    var k := m / step;
    Parts(m, step);
    if k < 16 { Grows(k + 1, 15 - k, step); }
    if k >= 32 { Grows(32, k - 32, step); }
  }

  lemma Powers()
    ensures Pow2(0) == 1 && Pow2(1) == 2 && Pow2(2) == 4 && Pow2(3) == 8 && Pow2(4) == 16 && Pow2(5) == 32 && Pow2(6) == 64
    ensures Pow2(7) == 128 && Pow2(8) == 256 && Pow2(9) == 512 && Pow2(10) == 1024 && Pow2(11) == 2048 && Pow2(12) == 4096
    ensures Pow2(13) == 8192 && Pow2(14) == 16384 && Pow2(15) == 32768
  {
  }

  // The error of mu-law: at most 1/32 of the biased magnitude.
  lemma ULawError(x: int)
    requires -32635 <= x <= 32635
    ensures var e := ULawToLinear(LinearToULaw(x)) - x;
            32 * (if e < 0 then -e else e) <= (if x < 0 then -x else x) + 132
  {
    hide ULawToLinear, LinearToULaw, ULawLevel;
    ULawRound(x);
    var m := if x < 0 then BIAS - x else x + BIAS;
    var s := Segment(m, 0);
    assert SEG_END[7] == 32767;
    ULawCell(m, s);
    Middle(m, Pow2(s + 3));
  }

  // No number is further from the middle of its step than half the step.
  lemma Middle(m: int, step: int)
    requires step > 0 && step % 2 == 0
    ensures var d := m / step * step + step / 2 - m; -(step / 2) < d <= step / 2
    ensures m / step >= 16 ==> 16 * step <= m
  {
    assert m == m / step * step + m % step;
    assert m / step >= 16 ==> m / step * step >= 16 * step;
  }

  lemma SegmentOrder(m: int, m': int)
    requires m <= m'
    ensures Segment(m, 0) <= Segment(m', 0)
  {
  }

  // The levels of a segment lie between its own bounds.
  lemma LevelBounds(m: int, s: nat)
    requires s < 8 && m >= BIAS && Segment(m, 0) == s
    ensures Pow2(s + 7) - BIAS <= ULawMagnitude(m) <= Pow2(s + 8) - Pow2(s + 2) - BIAS
  {
    hide ULawLevel, Pow2;
    ULawCell(m, s);
    Powers();
    Between(m / Pow2(s + 3), Pow2(s + 3));
    assert 2 * Pow2(s + 2) == Pow2(s + 3);
  }

  lemma Between(k: int, step: int)
    requires 16 <= k < 32 && step > 0
    ensures 16 * step <= k * step <= 31 * step
  {
  }

  // A greater magnitude never gets a smaller level.
  lemma MagnitudeOrder(m: int, m': int)
    requires BIAS <= m <= m'
    ensures ULawMagnitude(m) <= ULawMagnitude(m')
  {
    hide ULawLevel, Pow2;
    Powers();
    TopLevel();
    SegmentOrder(m, m');
    var s, s' := Segment(m, 0), Segment(m', 0);
    if s < 8 { LevelBounds(m, s); }
    if s == s' < 8 {
      ULawCell(m, s);
      ULawCell(m', s);
      StepOrder(m, m', Pow2(s + 3));
    } else if s' < 8 {
      LevelBounds(m', s');
      NextPower(s, s');
    } else if s < 8 {
      NextPower(s, 8);
    }
  }

  lemma NextPower(s: nat, s': nat)
    requires s < s' <= 8
    ensures Pow2(s + 8) <= Pow2(s' + 7) && Pow2(s + 8) - Pow2(s + 2) <= 32256
  {
    hide Pow2;
    Powers();
  }

  // Mu-law there and back never turns two numbers round.
  lemma ULawMonotone(x: int, y: int)
    requires x <= y
    ensures ULawToLinear(LinearToULaw(x)) <= ULawToLinear(LinearToULaw(y))
  {
    hide ULawToLinear, LinearToULaw, ULawMagnitude;
    ULawRound(x);
    ULawRound(y);
    NotNegative();
    if x >= 0 {
      MagnitudeOrder(x + BIAS, y + BIAS);
    } else if y < 0 {
      MagnitudeOrder(BIAS - y, BIAS - x);
    } else {
      MagnitudeOrder(BIAS, BIAS - x);
      MagnitudeOrder(BIAS, y + BIAS);
    }
  }

  lemma NotNegative()
    ensures ULawMagnitude(BIAS) == 0
  {
    Powers();
  }

  lemma TopLevel()
    ensures ULawLevel(7, 15) == 32124
  {
    Powers();
  }

  lemma Parts(m: int, step: int)
    requires step > 0
    ensures m / step * step <= m < m / step * step + step
  {
  }

  lemma Grows(b: int, d: int, step: int)
    requires step > 0 && d >= 0
    ensures (b + d) * step >= b * step && (d >= 1 ==> (b + d) * step >= b * step + step)
  {
    assert (b + d) * step == b * step + d * step;
  }

  lemma StepOrder(m: int, m': int, step: int)
    requires m <= m' && step > 0
    ensures m / step * step <= m' / step * step
  {
    var a, b := m / step, m' / step;
    Parts(m, step);
    Parts(m', step);
    if a > b { Grows(b, a - b, step); } else { Grows(a, b - a, step); }
  }

  // The level that a magnitude is decoded to by A-law, and its step.
  function ALawMagnitude(m: int): int
  {
    var seg := Segment(m, 0);
    if seg >= 8 then ALawLevel(7, 15) else ALawLevel(seg, ALawQuant(seg, m))
  }

  function ALawStep(m: int): int
    requires m <= 32767
  {
    assert SEG_END[7] == 32767;
    var seg := Segment(m, 0);
    if seg < 2 then 16 else Pow2(seg + 3)
  }

  lemma ALawRound(x: int)
    ensures ALawToLinear(LinearToALaw(x)) == if x < 0 then -ALawMagnitude(-x - 8) else ALawMagnitude(x)
  {
    hide Join, ALawToLinear, ALawLevel, ALawQuant;
    var m := if x < 0 then -x - 8 else x;
    var seg := Segment(m, 0);
    LastCode();
    if seg >= 8 { ALawDecodes(7, 15); } else { ALawDecodes(seg, ALawQuant(seg, m)); }
  }

  lemma ALawCell(m: int)
    requires 0 <= m <= 32767
    ensures var step := ALawStep(m);
            step >= 16 && step % 2 == 0 && ALawMagnitude(m) == m / step * step + step / 2
  {
    hide ALawLevel, ALawQuant, Pow2;
    var s := Segment(m, 0);
    assert SEG_END[7] == 32767;
    ALawCellIn(m, s);
  }

  lemma ALawCellIn(m: int, s: nat)
    requires s < 8 && 0 <= m <= SEG_END[s] && (s > 0 ==> m > SEG_END[s - 1])
    ensures var step := if s < 2 then 16 else Pow2(s + 3);
            step >= 16 && step % 2 == 0 && ALawLevel(s, ALawQuant(s, m)) == m / step * step + step / 2
  {
    hide Pow2, ALawLevel, ALawQuant;
    Ends(s);
    if s >= 2 {
      Ends(s - 1);
      InSegment(m, 16 * Pow2(s - 1));
      ALawHigh(m, s, Pow2(s - 1));
    } else {
      ALawLow(m, s);
    }
  }

  lemma ALawLow(m: int, s: nat)
    requires s < 2 && 0 <= m && (if s == 0 then m < 256 else 256 <= m < 512)
    ensures ALawLevel(s, ALawQuant(s, m)) == m / 16 * 16 + 8
  {
    hide Pow2;
  }

  lemma ALawHigh(m: int, s: nat, p: int)
    requires s >= 2 && p == Pow2(s - 1) && Pow2(s + 3) == 16 * p > 0 && var k := m / (16 * p); k % 16 == k - 16
    ensures ALawLevel(s, ALawQuant(s, m)) == m / (16 * p) * (16 * p) + 8 * p
  {
    hide Pow2;
    MiddleOf(m / (16 * p), p);
  }

  lemma MiddleOf(k: int, p: int)
    ensures ((k - 16) * 16 + 0x108) * p == k * (16 * p) + 8 * p
  {
    assert ((k - 16) * 16 + 0x108) * p == (16 * k) * p + 8 * p;
  }

  // The error of A-law: half a step for a positive number.
  lemma ALawErrorPositive(x: int)
    requires 0 <= x <= 32767
    ensures var e := ALawToLinear(LinearToALaw(x)) - x; 2 * (if e < 0 then -e else e) <= ALawStep(x)
  {
    hide ALawToLinear, LinearToALaw, ALawMagnitude, ALawStep;
    ALawRound(x);
    ALawCell(x);
    Middle(x, ALawStep(x));
  }

  // For a negative one it is up to 7 more, exactly when the number is not among the first seven, which come out as -248.
  lemma ALawErrorNegative(x: int)
    requires -32768 <= x < 0
    ensures var e := ALawToLinear(LinearToALaw(x)) - x;
            2 * ((if e < 0 then -e else e) - 7) <= ALawStep(-x - 8) <==> x <= -8
    ensures -7 <= x ==> ALawToLinear(LinearToALaw(x)) == -248
  {
    hide ALawToLinear, LinearToALaw, ALawStep, ALawMagnitude;
    ALawRound(x);
    if x <= -8 {
      ALawCell(-x - 8);
      Middle(-x - 8, ALawStep(-x - 8));
    } else {
      BelowZero(-x - 8);
    }
  }

  lemma BelowZero(m: int)
    requires -8 < m < 0
    ensures ALawMagnitude(m) == 248 && ALawStep(m) == 16
  {
  }

  // --- Every code is kept by decoding and coding again ---

  lemma Whole(x: bv8)
    ensures (Join(Seg(x), Quant(x)) | (x & SIGN_BIT)) == x
  {
    var s, t := (x & SEG_MASK) >> 4, x & QUANT_MASK;
    assert s < 8 && t < 16;
    assert Seg(x) as bv8 == s && Quant(x) as bv8 == t;
    assert ((s << 4) | t) | (x & 0x80) == x;
  }

  lemma {:induction false} SegmentIs(m: int, s: nat, i: nat)
    requires i <= s < 8 && m <= SEG_END[s] && (s > 0 ==> m > SEG_END[s - 1])
    ensures Segment(m, i) == s
    decreases s - i
  {
    if i < s {
      SegmentsGrow(i, s - 1);
      SegmentIs(m, s, i + 1);
    }
  }

  lemma SegmentsGrow(i: nat, j: nat)
    requires i <= j < 8
    ensures SEG_END[i] <= SEG_END[j]
  {
  }

  // The level of a segment and a quantization value is in that segment, and has that value.
  lemma ULawLevelCode(seg: nat, q: nat)
    requires seg < 8 && q < 16
    ensures var m := ULawLevel(seg, q) + BIAS; m >= BIAS && Segment(m, 0) == seg && m / Pow2(seg + 3) % 16 == q
  {
    hide Pow2;
    Ends(seg);
    ULawPlace(q, Pow2(seg));
    SegmentIs(ULawLevel(seg, q) + BIAS, seg, 0);
  }

  lemma ULawPlace(q: nat, p: nat)
    requires q < 16 && p >= 1
    ensures var m := (q * 8 + BIAS) * p; 132 * p <= m <= 252 * p && m / (8 * p) == q + 16
  {
    Grows(132, q * 8, p);
    Grows(q * 8 + 132, 120 - q * 8, p);
    assert (q * 8 + 132) * p == (q + 16) * (8 * p) + 4 * p by { Spread(q, p); }
    QuotientIs((q * 8 + 132) * p, 8 * p, q + 16, 4 * p);
  }

  lemma Spread(q: int, p: int)
    ensures (q * 8 + 132) * p == (q + 16) * (8 * p) + 4 * p
  {
    assert (q + 16) * (8 * p) == (8 * q + 128) * p;
  }

  lemma ULawCodes(seg: nat, q: nat)
    requires seg < 8 && q < 16
    ensures var t := ULawLevel(seg, q);
            t >= 0 && LinearToULaw(t) == Join(seg, q) ^ 0xFF && (t > 0 ==> LinearToULaw(-t) == Join(seg, q) ^ 0x7F)
    ensures ULawLevel(seg, q) == 0 <==> seg == 0 && q == 0
  {
    hide Join, Pow2, ULawLevel;
    ULawLevelCode(seg, q);
    FirstLevel(seg, q);
  }

  lemma FirstLevel(seg: nat, q: nat)
    requires seg < 8 && q < 16
    ensures ULawLevel(seg, q) >= 0 && (ULawLevel(seg, q) == 0 <==> seg == 0 && q == 0)
  {
    hide Pow2;
    Powers();
    var p := Pow2(seg);
    Grows(132, q * 8, p);
    if seg > 0 { assert p >= 2; }
  }

  // The one exception is the second code for zero.
  lemma ULawSurvives(u: bv8)
    ensures LinearToULaw(ULawToLinear(u)) == if u == 0x7F then 0xFF else u
  {
    hide Join, Seg, Quant, ULawLevel, LinearToULaw;
    var x := !u;
    Whole(x);
    ULawCodes(Seg(x), Quant(x));
    Fields(Seg(x), Quant(x), 0);
    SignOfCode(Seg(x), Quant(x));
    Unmasked(Join(Seg(x), Quant(x)), x & SIGN_BIT, u);
    NothingJoined();
  }

  lemma NothingJoined()
    ensures Join(0, 0) == 0 && Seg(0) == 0 && Quant(0) == 0
  {
  }

  lemma Unmasked(j: bv8, sign: bv8, u: bv8)
    requires j | sign == !u && sign == !u & SIGN_BIT && j & SIGN_BIT == 0
    ensures if sign != 0 then j ^ 0x7F == u && (j == 0 <==> u == 0x7F) else j ^ 0xFF == u && u != 0x7F && (j == 0 ==> u == 0xFF)
  {
  }

  // The same for A-law, without an exception.
  lemma ALawPlace(q: nat, p: nat, d: int)
    requires q < 16 && p >= 1 && (d == 0 || d == 8)
    ensures var m := (q * 16 + 0x108) * p - d; 264 * p - d <= m <= 504 * p && m / (16 * p) == q + 16
  {
    Grows(264, q * 16, p);
    Grows(q * 16 + 264, 240 - q * 16, p);
    assert (q * 16 + 264) * p == (q + 16) * (16 * p) + 8 * p by { assert (q + 16) * (16 * p) == (16 * q + 256) * p; }
    QuotientIs((q * 16 + 264) * p - d, 16 * p, q + 16, 8 * p - d);
  }

  lemma ALawLevelCode(seg: nat, q: nat, d: int)
    requires seg < 8 && q < 16 && (d == 0 || d == 8)
    ensures var m := ALawLevel(seg, q) - d; m >= 0 && Segment(m, 0) == seg && ALawQuant(seg, m) == q
  {
    hide Pow2, ALawLevel, ALawQuant;
    Ends(seg);
    if seg < 2 {
      LowPlace(seg, q, d);
    } else {
      Ends(seg - 1);
      ALawPlace(q, Pow2(seg - 1), d);
      HighPlace(seg, q, d, Pow2(seg - 1));
    }
    SegmentIs(ALawLevel(seg, q) - d, seg, 0);
  }

  lemma LowPlace(seg: nat, q: nat, d: int)
    requires seg < 2 && q < 16 && (d == 0 || d == 8)
    ensures var m := ALawLevel(seg, q) - d; 256 * seg <= m <= 256 * seg + 255 && ALawQuant(seg, m) == q
  {
    hide Pow2;
  }

  lemma HighPlace(seg: nat, q: nat, d: int, p: int)
    requires 2 <= seg < 8 && q < 16 && p == Pow2(seg - 1) && Pow2(seg + 3) == 16 * p > 0
    requires var m := (q * 16 + 0x108) * p - d; m / (16 * p) == q + 16
    ensures var m := ALawLevel(seg, q) - d; m == (q * 16 + 0x108) * p - d && ALawQuant(seg, m) == q
  {
    hide Pow2;
  }

  lemma ALawCodes(seg: nat, q: nat)
    requires seg < 8 && q < 16
    ensures var t := ALawLevel(seg, q); t > 0 && LinearToALaw(t) == Join(seg, q) ^ 0xD5 && LinearToALaw(-t) == Join(seg, q) ^ 0x55
  {
    hide Join, ALawLevel, ALawQuant;
    ALawLevelCode(seg, q, 0);
    ALawLevelCode(seg, q, 8);
  }

  lemma ALawSurvives(a: bv8)
    ensures LinearToALaw(ALawToLinear(a)) == a
  {
    hide Join, Seg, Quant, ALawLevel, LinearToALaw;
    var x := a ^ 0x55;
    Whole(x);
    ALawCodes(Seg(x), Quant(x));
    Fields(Seg(x), Quant(x), 0);
    SignOfCode(Seg(x), Quant(x));
    UnmaskedALaw(Join(Seg(x), Quant(x)), x & SIGN_BIT, a);
  }

  lemma UnmaskedALaw(j: bv8, sign: bv8, a: bv8)
    requires j | sign == a ^ 0x55 && sign == (a ^ 0x55) & SIGN_BIT && j & SIGN_BIT == 0
    ensures if sign != 0 then j ^ 0xD5 == a else j ^ 0x55 == a
  {
  }
}
