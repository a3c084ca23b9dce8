// What the tables and the arithmetic of the adaptive coders amount to, in whole numbers.
module Scales {
  import opened BasicOps
  import opened Adpcm
  import opened Lockstep
  import opened ScaleTable

  // --- Quantisers: an output level is the decision level in the middle of the cells it stands for ---

  lemma Middles4(r: nat)
    requires 1 <= r <= 7
    ensures OQ4[r] == Q6[4 * r]
  {
  }

  lemma Middles5(r: nat)
    requires 1 <= r <= 15
    ensures OQ5[r] == Q6[2 * r - 1]
  {
  }

  // For a single cell it is the middle of its bounds, to the next whole number; the last cell has no upper bound.
  lemma Middles6(k: nat)
    requires 1 <= k < 30
    ensures Middle(Q6[k - 1], OQ6[k], Q6[k])
  {
    hide Middle;
    if k < 15 { MiddlesLow(k); } else { MiddlesHigh(k); }
  }

  predicate Middle(q0: int, q: int, q1: int) {
    -1 <= 2 * q - (q0 + q1) <= 1
  }

  lemma MiddlesLow(k: nat)
    requires 1 <= k < 15
    ensures Middle(Q6[k - 1], OQ6[k], Q6[k])
  {
  }

  lemma MiddlesHigh(k: nat)
    requires 15 <= k < 30
    ensures Middle(Q6[k - 1], OQ6[k], Q6[k])
  {
  }

  // The one decision level of the high band lies in the middle between its two output levels.
  lemma Middle2()
    ensures 2 * HIGH_DECISION == OQ2[1] + OQ2[2]
  {
  }

  // --- Scale factors ---

  function Entry(i: nat): int
    requires i < 353
  {
    Ila()[i]
  }

  lemma EntryL(n: Word16)
    requires 0 <= n <= NBL_MAX
    ensures Scalel(n) == 4 * (Entry(n / 64 + 64) + 1)
  {
    hide Ila, Shl, Shr, Add;
    IndexOf(n);
    Quadrupled(Entry(n / 64 + 64));
  }

  lemma EntryH(n: Word16)
    requires 0 <= n <= NBH_MAX
    ensures Scaleh(n) == 4 * (Entry(n / 64) + 1)
  {
    hide Ila, Shl, Shr, Add;
    IndexOf(n);
    Quadrupled(Entry(n / 64));
  }

  lemma IndexOf(n: Word16)
    requires 0 <= n <= NBH_MAX
    ensures Shr(n, 6) % 512 == n / 64 && n / 64 < 353
  {
    ShrMeaning(n, 6);
    Powers();
  }

  lemma Quadrupled(x: Word16)
    requires 1 <= x <= 4095
    ensures Shl(Add(x, 1), 2) == 4 * (x + 1)
  {
    hide Shl;
    Powers();
    ShlMeaning(x + 1, 2);
  }

  lemma Powers()
    ensures Pow2(2) == 4 && Pow2(6) == 64 && Pow2(7) == 128
  {
  }

  // When the logarithm goes up by 2048 the scale factor doubles, or becomes the next multiple of four.
  lemma ScaleDoubles(n: Word16)
    requires 0 <= n
    ensures n + 2048 <= NBL_MAX ==> Scalel(n + 2048) == 2 * Scalel(n) || Scalel(n + 2048) == 2 * Scalel(n) + 4
    ensures n + 2048 <= NBH_MAX ==> Scaleh(n + 2048) == 2 * Scaleh(n) || Scaleh(n + 2048) == 2 * Scaleh(n) + 4
  {
    hide Ila, Scalel, Scaleh;
    if n + 2048 <= NBL_MAX {
      EntryL(n);
      EntryL(n + 2048);
      TableDoubles(n / 64 + 64);
    }
    if n + 2048 <= NBH_MAX {
      EntryH(n);
      EntryH(n + 2048);
      TableDoubles(n / 64);
    }
  }

  // The logarithm leaks by a 128th and is moved by what the code stands for; the sign of a difference makes no difference, and a
  // greater one moves it no less.
  lemma LowScaleMoves(mil: nat, negative: bool, nb: Word16)
    requires 1 <= mil <= 30
    ensures Logscl(CodeOf(mil, negative), nb) == Clamp(nb * 32512 / 0x8000 + WL[(mil + 1) / 4], 0, NBL_MAX)
    ensures mil > 1 ==> WL[mil / 4] <= WL[(mil + 1) / 4]
  {
    hide Mult, Shr;
    CodeTable4(mil, negative);
    ShrMeaning(CodeOf(mil, negative), 2);
    Powers();
  }

  lemma Louder(k: nat, mil: nat, negative: bool, negative': bool, nb: Word16)
    requires 1 <= k <= mil <= 30
    ensures Logscl(CodeOf(k, negative), nb) <= Logscl(CodeOf(mil, negative'), nb)
  {
    hide Logscl;
    LowScaleMoves(k, negative, nb);
    LowScaleMoves(mil, negative', nb);
    WeightsGrow((k + 1) / 4, (mil + 1) / 4);
  }

  lemma WeightsGrow(i: nat, j: nat)
    requires i <= j < 8
    ensures WL[i] <= WL[j]
  {
  }

  // In the high band the logarithm falls after a small difference and rises after a large one.
  lemma HighScaleMoves(eh: Word16, deth: Word16, nb: Word16)
    ensures var small := Magnitude(eh) < Mult(Shl(HIGH_DECISION, 3), deth);
            Logsch(HighCode(eh, deth), nb) == Clamp(nb * 32512 / 0x8000 + (if small then WH[1] else WH[2]), 0, NBH_MAX)
    ensures WH[1] < 0 < WH[2]
  {
    hide Mult, Shl, Magnitude;
    ShrMeaning(eh, 15);
  }

  // --- The predictor ---

  lemma SignsAgree(x: Word16, y: Word16)
    ensures SameSign(x, y) <==> (x < 0 <==> y < 0)
  {
  }

  // A zero coefficient leaks by a 256th and moves by 128 towards the sign of the correlation, and not at all without a difference.
  lemma ZeroCoefficientMoves(d0: Word16, di: Word16, bi: Word16)
    requires bi <= 32513
    ensures ZeroCoefficient(d0, di, bi) == bi * 32640 / 0x8000 + (if d0 == 0 then 0 else if d0 < 0 <==> di < 0 then 128 else -128)
  {
    hide ZeroCoefficient, SameSign;
    SignsAgree(d0, di);
    ZeroCoefficientFits(d0, di, bi);
  }

  // The first pole coefficient leaks by a 256th and moves by 192 towards the sign of the correlation, within the stability triangle.
  lemma Pole1Moves(a1: Word16, a2: Word16, p: seq<Word16>)
    requires |p| == 3 && -12288 <= a2 <= 12288 && -27648 <= a1 <= 27648
    ensures Pole1(a1, a2, p) == Clamp(a1 * 32640 / 0x8000 + (if p[0] < 0 <==> p[1] < 0 then 192 else -192), -(15360 - a2), 15360 - a2)
  {
    hide SameSign, Mult;
    SignsAgree(p[0], p[1]);
  }

  // The second leaks by a 128th, moves by 128 towards the sign of its correlation, and by a 32nd of the first one, or as much as a
  // word holds of it, against the sign of the first one's.
  lemma Pole2Moves(a1: Word16, a2: Word16, p: seq<Word16>)
    requires |p| == 3 && -12288 <= a2 <= 12288
    ensures var f := Clamp(4 * a1, MIN_16, MAX_16);
            var w := if p[0] < 0 <==> p[1] < 0 then Clamp(-f, MIN_16, MAX_16) else f;
            Pole2(a1, a2, p) == Clamp(a2 * 32512 / 0x8000 + (if p[0] < 0 <==> p[2] < 0 then 128 else -128) + w / 128, -12288, 12288)
  {
    hide SameSign, Mult, Shl, Shr;
    SignsAgree(p[0], p[1]);
    SignsAgree(p[0], p[2]);
    Powers();
    ShlMeaning(a1, 2);
    var f := Clamp(4 * a1, MIN_16, MAX_16);
    var w := if p[0] < 0 <==> p[1] < 0 then Clamp(-f, MIN_16, MAX_16) else f;
    ShrMeaning(w, 7);
  }

  // One product of a filter, doubled and rounded down.
  function Tap(x: int, c: int): int {
    2 * x * c / 0x8000
  }

  // As long as nothing leaves the range of a word, the pole section is the sum of two such products, and the zero section of six.
  lemma PolesSum(r: seq<Word16>, a1: Word16, a2: Word16)
    requires |r| == 3 && -16384 <= r[1] <= 16383 && -16384 <= r[2] <= 16383
    requires a1 != MIN_16 && a2 != MIN_16 && MIN_16 <= Tap(r[1], a1) + Tap(r[2], a2) <= MAX_16
    ensures Poles(r, a1, a2) == Tap(r[1], a1) + Tap(r[2], a2)
  {
    TapIs(r[1], a1);
    TapIs(r[2], a2);
  }

  lemma TapIs(x: Word16, c: Word16)
    requires -16384 <= x <= 16383 && c != MIN_16
    ensures Mult(Add(x, x), c) == Mult(c, Add(x, x)) == Tap(x, c)
  {
    assert c * (2 * x) == 2 * x * c;
  }

  function Taps(d: seq<Word16>, b: seq<Word16>, k: nat): int
    requires |d| == 7 && |b| == 6 && 1 <= k <= 7
    decreases 7 - k
  {
    if k == 7 then 0 else Tap(d[k], b[k - 1]) + Taps(d, b, k + 1)
  }

  lemma {:induction false} ZerosSum(d: seq<Word16>, b: seq<Word16>, k: nat)
    requires |d| == 7 && |b| == 6 && 1 <= k <= 7
    requires forall j | k <= j <= 6 :: -16384 <= d[j] <= 16383 && b[j - 1] != MIN_16 && MIN_16 <= Taps(d, b, j) <= MAX_16
    ensures Zeros(d, b, k) == Taps(d, b, k)
    decreases 7 - k
  {
    hide Mult, Tap;
    if k < 7 {
      ZerosSum(d, b, k + 1);
      TapIs(d[k], b[k - 1]);
    }
  }

  // What a difference does to a band: every delay line takes in its new value, and the next prediction is the sum of its two parts,
  // by the new coefficients.
  lemma AdaptMoves(x: Band, dq: Word16, nb: Word16, det: Word16)
    ensures var y, part, whole := Adapt(x, dq, nb, det), Add(dq, x.sz), Add(x.s, dq);
            && y.d[0] == y.d[1] == dq && (forall i | 2 <= i < 7 :: y.d[i] == x.d[i - 1])
            && y.p[0] == y.p[1] == part && y.p[2] == x.p[1] && y.r[0] == y.r[1] == whole && y.r[2] == x.r[1]
            && y.a2 == Pole2(x.a1, x.a2, [part, x.p[1], x.p[2]]) && y.a1 == Pole1(x.a1, y.a2, [part, x.p[1], x.p[2]])
            && (forall i | 0 <= i < 6 :: y.b[i] == ZeroCoefficient(dq, x.d[i + 1], x.b[i]))
            && y.sz == Zeros(y.d, y.b, 1) && y.sp == Poles(y.r, y.a1, y.a2) && y.s == Add(y.sp, y.sz)
  {
    hide Pole1, Pole2, Zeros, Poles, ZeroCoefficient, Add;
    assert x.p[0 := Add(dq, x.sz)] == [Add(dq, x.sz), x.p[1], x.p[2]];
  }
}
