// The tables and the arithmetic of the two ADPCM coders: quantisers, inverse quantisers, scale factors and the
// update of the adaptive predictor.
module Adpcm {
  import opened BasicOps

  type LowIndex = x: int | 0 <= x < 64
  type HighIndex = x: int | 0 <= x < 4
  type Octet = x: int | 0 <= x < 256
  type Scale = x: int | 1 <= x <= 4095 witness 1
  type Index4 = x: int | 0 <= x < 8
  type Index5 = x: int | 1 <= x < 16 witness 1
  type Index6 = x: int | 1 <= x < 31 witness 1

  // Codes of a negative and of a positive difference, by level.
  const MISIL_NEGATIVE: seq<LowIndex> :=
    [0, 63, 62, 31, 30, 29, 28, 27] +
    [26, 25, 24, 23, 22, 21, 20, 19] +
    [18, 17, 16, 15, 14, 13, 12, 11] +
    [10, 9, 8, 7, 6, 5, 4, 0]
  const MISIL_POSITIVE: seq<LowIndex> :=
    [0, 61, 60, 59, 58, 57, 56, 55] +
    [54, 53, 52, 51, 50, 49, 48, 47] +
    [46, 45, 44, 43, 42, 41, 40, 39] +
    [38, 37, 36, 35, 34, 33, 32, 0]
  const Q6: seq<Word16> :=
    [0, 35, 72, 110, 150, 190, 233, 276] +
    [323, 370, 422, 473, 530, 587, 650, 714] +
    [786, 858, 940, 1023, 1121, 1219, 1339, 1458] +
    [1612, 1765, 1980, 2195, 2557, 2919, 3200]
  const RIL4: seq<Index4> := [0, 7, 6, 5, 4, 3, 2, 1, 7, 6, 5, 4, 3, 2, 1, 0]
  const RISIL: seq<Word16> := [0, -1, -1, -1, -1, -1, -1, -1, 0, 0, 0, 0, 0, 0, 0, 0]
  const OQ4: seq<Word16> := [0, 150, 323, 530, 786, 1121, 1612, 2557]
  const RIL5: seq<Index5> :=
    [1, 1, 15, 14, 13, 12, 11, 10] +
    [9, 8, 7, 6, 5, 4, 3, 2] +
    [15, 14, 13, 12, 11, 10, 9, 8] +
    [7, 6, 5, 4, 3, 2, 1, 1]
  const RISI5: seq<Word16> :=
    [-1, -1, -1, -1, -1, -1, -1, -1] +
    [-1, -1, -1, -1, -1, -1, -1, -1] +
    [0, 0, 0, 0, 0, 0, 0, 0] +
    [0, 0, 0, 0, 0, 0, 0, -1]
  const OQ5: seq<Word16> := [0, 35, 110, 190, 276, 370, 473, 587, 714, 858, 1023, 1219, 1458, 1765, 2195, 2919]
  const RIL6_FIRST: seq<Index6> :=
    [1, 1, 1, 1, 30, 29, 28, 27] +
    [26, 25, 24, 23, 22, 21, 20, 19] +
    [18, 17, 16, 15, 14, 13, 12, 11] +
    [10, 9, 8, 7, 6, 5, 4, 3]
  const RIL6_LAST: seq<Index6> :=
    [30, 29, 28, 27, 26, 25, 24, 23] +
    [22, 21, 20, 19, 18, 17, 16, 15] +
    [14, 13, 12, 11, 10, 9, 8, 7] +
    [6, 5, 4, 3, 2, 1, 2, 1]
  const RIL6 := RIL6_FIRST + RIL6_LAST
  const RISI6: seq<Word16> :=
    [-1, -1, -1, -1, -1, -1, -1, -1] +
    [-1, -1, -1, -1, -1, -1, -1, -1] +
    [-1, -1, -1, -1, -1, -1, -1, -1] +
    [-1, -1, -1, -1, -1, -1, -1, -1] +
    [0, 0, 0, 0, 0, 0, 0, 0] +
    [0, 0, 0, 0, 0, 0, 0, 0] +
    [0, 0, 0, 0, 0, 0, 0, 0] +
    [0, 0, 0, 0, 0, 0, -1, -1]
  const OQ6: seq<Word16> :=
    [0, 17, 54, 91, 130, 170, 211, 254] +
    [300, 347, 396, 447, 501, 558, 618, 682] +
    [750, 822, 899, 982, 1072, 1170, 1279, 1399] +
    [1535, 1689, 1873, 2088, 2376, 2738, 3101]
  const WL: seq<Word16> := [-60, -30, 58, 172, 334, 538, 1198, 3042]
  const WH: seq<Word16> := [0, -214, 798]
  const IH2: seq<Word16> := [2, 1, 2, 1]
  const SIH: seq<Word16> := [-1, -1, 0, 0]
  const OQ2: seq<Word16> := [0, 202, 926]
  const ILA_0: seq<Scale> :=
    [1, 1, 1, 1, 1, 1, 1, 1] +
    [1, 1, 1, 1, 1, 1, 1, 1] +
    [1, 1, 1, 2, 2, 2, 2, 2] +
    [2, 2, 2, 2, 2, 2, 2, 2] +
    [3, 3, 3, 3, 3, 3, 3, 3] +
    [3, 3, 3, 4, 4, 4, 4, 4] +
    [4, 4, 4, 5, 5, 5, 5, 5] +
    [5, 5, 6, 6, 6, 6, 6, 6]
  const ILA_1: seq<Scale> :=
    [7, 7, 7, 7, 7, 7, 8, 8] +
    [8, 8, 8, 9, 9, 9, 9, 10] +
    [10, 10, 10, 11, 11, 11, 11, 12] +
    [12, 12, 13, 13, 13, 13, 14, 14] +
    [15, 15, 15, 16, 16, 16, 17, 17] +
    [18, 18, 18, 19, 19, 20, 20, 21] +
    [21, 22, 22, 23, 23, 24, 24, 25] +
    [25, 26, 27, 27, 28, 28, 29, 30]
  const ILA_2: seq<Scale> :=
    [31, 31, 32, 33, 33, 34, 35, 36] +
    [37, 37, 38, 39, 40, 41, 42, 43] +
    [44, 45, 46, 47, 48, 49, 50, 51] +
    [52, 54, 55, 56, 57, 58, 60, 61] +
    [63, 64, 65, 67, 68, 70, 71, 73] +
    [75, 76, 78, 80, 82, 83, 85, 87] +
    [89, 91, 93, 95, 97, 99, 102, 104] +
    [106, 109, 111, 113, 116, 118, 121, 124]
  const ILA_3: seq<Scale> :=
    [127, 129, 132, 135, 138, 141, 144, 147] +
    [151, 154, 157, 161, 165, 168, 172, 176] +
    [180, 184, 188, 192, 196, 200, 205, 209] +
    [214, 219, 223, 228, 233, 238, 244, 249] +
    [255, 260, 266, 272, 278, 284, 290, 296] +
    [303, 310, 316, 323, 331, 338, 345, 353] +
    [361, 369, 377, 385, 393, 402, 411, 420] +
    [429, 439, 448, 458, 468, 478, 489, 500]
  const ILA_4: seq<Scale> :=
    [511, 522, 533, 545, 557, 569, 582, 594] +
    [607, 621, 634, 648, 663, 677, 692, 707] +
    [723, 739, 755, 771, 788, 806, 823, 841] +
    [860, 879, 898, 918, 938, 958, 979, 1001] +
    [1023, 1045, 1068, 1092, 1115, 1140, 1165, 1190] +
    [1216, 1243, 1270, 1298, 1327, 1356, 1386, 1416] +
    [1447, 1479, 1511, 1544, 1578, 1613, 1648, 1684] +
    [1721, 1759, 1797, 1837, 1877, 1918, 1960, 2003]
  const ILA_5: seq<Scale> :=
    [2047, 2092, 2138, 2185, 2232, 2281, 2331, 2382] +
    [2434, 2488, 2542, 2598, 2655, 2713, 2773, 2833] +
    [2895, 2959, 3024, 3090, 3157, 3227, 3297, 3370] +
    [3443, 3519, 3596, 3675, 3755, 3837, 3921, 4007] +
    [4095]

  // The table of linear scale factors.
  function Ila(): (t: seq<Scale>)
    ensures |t| == 353
  {
    ILA_0 + ILA_1 + ILA_2 + ILA_3 + ILA_4 + ILA_5
  }

  const MISIH: seq<seq<HighIndex>> := [[0, 1, 0], [0, 3, 2]]

  // What remains of a difference when its sign is taken away.
  function Magnitude(v: Word16): (r: Word16)
    ensures r >= 0 && r == if v < 0 then -1 - v else v
  {
    if Shr(v, 15) == 0 then v else Sub(MAX_16, v + 0x8000)
  }

  // The k-th decision level of the low band.
  function Decision(k: nat, detl: Word16): Word16
    requires k < |Q6|
  {
    Mult(Shl(Q6[k], 3), detl)
  }

  // The level a magnitude falls in, looked for from level k on.
  function Level(wd: Word16, detl: Word16, k: nat): (mil: nat)
    requires k <= 30
    ensures k <= mil <= 30
    ensures forall j | k <= j < mil :: Decision(j, detl) <= wd
    ensures mil < 30 ==> wd < Decision(mil, detl)
    decreases 30 - k
  {
    if wd < Decision(k, detl) || k == 30 then k else Level(wd, detl, k + 1)
  }

  // The code of a difference; level 0 does not occur, and its entry would be 0.
  function LowCode(el: Word16, detl: Word16): LowIndex
  {
    var mil := Level(Magnitude(el), detl, 0);
    if el < 0 then MISIL_NEGATIVE[mil] else MISIL_POSITIVE[mil]
  }

  method Quantl(el: Word16, detl: Word16) returns (il: LowIndex)
    ensures il == LowCode(el, detl)
  {
    hide Decision;
    var sil := Shr(el, 15);
    var wd := Sub(MAX_16, if el < 0 then el + 0x8000 else el);
    if sil == 0 { wd := el; }
    assert wd == Magnitude(el);
    var mil := 0;
    var val := Decision(mil, detl);
    while Sub(val, wd) <= 0
      invariant 0 <= mil <= 30 && val == Decision(mil, detl)
      invariant Level(wd, detl, 0) == Level(wd, detl, mil)
      decreases 30 - mil
    {
      if mil == 30 { break; }
      mil := mil + 1;
      val := Decision(mil, detl);
    }
    il := if sil + 1 == 0 then MISIL_NEGATIVE[mil] else MISIL_POSITIVE[mil];
  }

  // The decision level of the high band.
  const HIGH_DECISION: Word16 := 564

  function HighCode(eh: Word16, deth: Word16): HighIndex
  {
    var mih := if Sub(Magnitude(eh), Mult(Shl(HIGH_DECISION, 3), deth)) >= 0 then 2 else 1;
    MISIH[Shr(eh, 15) + 1][mih]
  }

  // The difference a low-band code stands for, with 4 bits.
  function InvQal(il: LowIndex, detl: Word16): Word16
  {
    var ril := Shr(il, 2);
    var wd1 := Shl(OQ4[RIL4[ril]], 3);
    Mult(detl, if RISIL[ril] == 0 then wd1 else Negate(wd1))
  }

  // The same with 5 and with 6 bits.
  function InvQ5(ilr: LowIndex, detl: Word16): Word16
  {
    var ril := Shr(ilr, 1);
    var wd1 := Shl(OQ5[RIL5[ril]], 3);
    Mult(detl, if RISI5[ril] == 0 then Add(0, wd1) else Sub(0, wd1))
  }

  function InvQ6(ilr: LowIndex, detl: Word16): Word16
  {
    var wd1 := Shl(OQ6[RIL6[ilr]], 3);
    Mult(detl, if RISI6[ilr] == 0 then Add(0, wd1) else Sub(0, wd1))
  }

  // Any mode but 0, 1 and 2 is taken for 3.
  function InvQbl(ilr: LowIndex, detl: Word16, mode: Word16): Word16
  {
    if mode == 0 || mode == 1 then InvQ6(ilr, detl) else if mode == 2 then InvQ5(ilr, detl) else InvQal(ilr, detl)
  }

  function InvQah(ih: HighIndex, deth: Word16): Word16
  {
    var wd1 := Shl(OQ2[IH2[ih]], 3);
    Mult(if SIH[ih] == 0 then wd1 else Negate(wd1), deth)
  }

  const NBL_MAX: Word16 := 18432
  const NBH_MAX: Word16 := 22528

  // The logarithmic scale factor leaks and is moved by the code, and is kept in its range.
  function Logscl(il: LowIndex, nbl: Word16): (r: Word16)
    ensures 0 <= r <= NBL_MAX
  {
    var nbpl := Add(Mult(nbl, 32512), WL[RIL4[Shr(il, 2)]]);
    if nbpl < 0 then 0 else if nbpl > NBL_MAX then NBL_MAX else nbpl
  }

  function Logsch(ih: HighIndex, nbh: Word16): (r: Word16)
    ensures 0 <= r <= NBH_MAX
  {
    var nbph := Add(Mult(nbh, 32512), WH[IH2[ih]]);
    if nbph < 0 then 0 else if nbph > NBH_MAX then NBH_MAX else nbph
  }

  // From the logarithmic to the linear scale.  Within the range of the scale factors the table is long enough.
  function Scalel(nbpl: Word16): (r: Word16)
    requires 0 <= nbpl <= NBL_MAX
    ensures 8 <= r <= 16384
  {
    hide Ila;
    var wd1 := Shr(nbpl, 6) % 512;
    Shl(Add(Ila()[Add(wd1, 64)], 1), 2)
  }

  function Scaleh(nbph: Word16): (r: Word16)
    requires 0 <= nbph <= NBH_MAX
    ensures 8 <= r <= 16384
  {
    hide Ila;
    Shl(Add(Ila()[Shr(nbph, 6) % 512], 1), 2)
  }

  function Limit(rl: Word16): (r: Word16)
    ensures r == Clamp(rl, -16384, 16383)
  {
    if Sub(rl, 16383) > 0 then 16383 else if Sub(rl, -16384) < 0 then -16384 else rl
  }

  lemma FirstEntries()
    ensures Ila()[0] == 1 && Ila()[64] == 7
  {
    assert ILA_0[0] == 1;
    assert ILA_1[0] == 7;
  }

  lemma FirstScale()
    ensures Scalel(0) == 32 && Scaleh(0) == 8
  {
    hide Ila;
    FirstEntries();
  }

  // Every code of the low band, by the level and the sign of the difference.
  function CodeOf(mil: nat, negative: bool): (c: LowIndex)
    requires 1 <= mil <= 30
    ensures c >= 4
  {
    if !negative then 62 - mil else if mil <= 2 then 64 - mil else 34 - mil
  }

  lemma CodeValue(mil: nat)
    requires 1 <= mil <= 30
    ensures MISIL_NEGATIVE[mil] == CodeOf(mil, true) && MISIL_POSITIVE[mil] == CodeOf(mil, false)
  {
  }

  lemma Indices6(c: nat)
    requires 4 <= c < 64
    ensures RIL6[c] == if c < 32 then 34 - c else if c < 62 then 62 - c else 64 - c
  {
    if c < 32 { IndicesFirst(c); } else { IndicesLast(c - 32); }
  }

  lemma IndicesFirst(c: nat)
    requires 4 <= c < 32
    ensures RIL6_FIRST[c] == 34 - c
  {
  }

  lemma IndicesLast(c: nat)
    requires c < 32
    ensures RIL6_LAST[c] == if c < 30 then 30 - c else 32 - c
  {
  }

  lemma Signs6(c: nat)
    requires c < 64
    ensures RISI6[c] == if 32 <= c < 62 then 0 else -1
  {
  }

  lemma Indices5(c: nat)
    requires 2 <= c < 32
    ensures RIL5[c] == if c < 16 then 17 - c else if c < 31 then 31 - c else 1
  {
  }

  lemma Signs5(c: nat)
    requires c < 32
    ensures RISI5[c] == if 16 <= c < 31 then 0 else -1
  {
  }

  // Dropping bits of a code merges neighbouring levels, and at 4 bits the sign of the lowest two is lost.
  lemma CodeTable(mil: nat, negative: bool)
    requires 1 <= mil <= 30
    ensures RIL6[CodeOf(mil, negative)] == mil && RISI6[CodeOf(mil, negative)] == if negative then -1 else 0
  {
    Indices6(CodeOf(mil, negative));
    Signs6(CodeOf(mil, negative));
  }

  lemma CodeTable5(mil: nat, negative: bool)
    requires 1 <= mil <= 30
    ensures 2 <= CodeOf(mil, negative) / 2 < 32
    ensures RIL5[CodeOf(mil, negative) / 2] == (mil + 1) / 2 && RISI5[CodeOf(mil, negative) / 2] == if negative then -1 else 0
  {
    Indices5(CodeOf(mil, negative) / 2);
    Signs5(CodeOf(mil, negative) / 2);
  }

  lemma CodeTable4(mil: nat, negative: bool)
    requires 1 <= mil <= 30
    ensures 1 <= CodeOf(mil, negative) / 4 < 16
    ensures RIL4[CodeOf(mil, negative) / 4] == (mil + 1) / 4
    ensures mil >= 3 ==> RISIL[CodeOf(mil, negative) / 4] == if negative then -1 else 0
  {
  }

  // Each output level lies in the cell, or the union of cells, whose code it decodes.
  lemma LevelOrder(mil: nat)
    requires 1 <= mil <= 30
    ensures 0 <= Q6[mil - 1] < OQ6[mil] <= Q6[mil] <= 3200
  {
    if mil <= 15 { LowerLevels(mil); } else { UpperLevels(mil); }
  }

  lemma LowerLevels(mil: nat)
    requires 1 <= mil <= 15
    ensures 0 <= Q6[mil - 1] < OQ6[mil] <= Q6[mil] <= 3200
  {
  }

  lemma UpperLevels(mil: nat)
    requires 16 <= mil <= 30
    ensures 0 <= Q6[mil - 1] < OQ6[mil] <= Q6[mil] <= 3200
  {
  }

  lemma LevelOrder5(r: nat)
    requires 1 <= r <= 15
    ensures 0 <= Q6[2 * r - 2] < OQ5[r] <= Q6[2 * r] <= 3200
  {
  }

  lemma LevelOrder4(r: nat)
    requires 1 <= r <= 7
    ensures 0 <= Q6[4 * r - 2] < OQ4[r] <= Q6[4 * r + 2] <= 3200
  {
  }

  // Scaling a level by det keeps its place among the decision levels, for either sign.
  lemma ScaledBetween(q0: Word16, q: Word16, q1: Word16, det: Word16)
    requires 0 <= q0 < q <= q1 <= 3200 && det > 0
    ensures 0 <= Mult(det, Shl(q, 3)) && Mult(det, Negate(Shl(q, 3))) < 0
    ensures Mult(Shl(q0, 3), det) <= Magnitude(Mult(det, Shl(q, 3))) <= Mult(Shl(q1, 3), det)
    ensures Mult(Shl(q0, 3), det) <= Magnitude(Mult(det, Negate(Shl(q, 3)))) <= Mult(Shl(q1, 3), det)
  {
    hide Mult, Shl, Magnitude, Negate;
    Scaled(q, det);
    Scaled(q0, det);
    Scaled(q1, det);
    Products(q0, q, q1, det);
    Quotients(8 * q0 * det, 8 * q * det, 8 * q1 * det);
  }

  lemma Products(q0: int, q: int, q1: int, det: int)
    requires 0 <= q0 < q <= q1 && det > 0
    ensures 0 <= 8 * q0 * det < 8 * q * det <= 8 * q1 * det
  {
  }

  lemma Quotients(x0: int, x: int, x1: int)
    requires 0 <= x0 < x <= x1
    ensures x0 / 0x8000 <= x / 0x8000 <= x1 / 0x8000 && x0 / 0x8000 >= 0
    ensures -x / 0x8000 < 0 && x0 / 0x8000 <= -1 - -x / 0x8000 <= x1 / 0x8000
  {
  }

  lemma Scaled(q: Word16, det: Word16)
    requires 0 <= q <= 3200 && det > 0
    ensures Mult(det, Shl(q, 3)) == Mult(Shl(q, 3), det) == 8 * q * det / 0x8000
    ensures Mult(det, Negate(Shl(q, 3))) == -(8 * q * det) / 0x8000
  {
    hide Mult;
    assert Shl(q, 3) == 8 * q && Negate(Shl(q, 3)) == -(8 * q);
  }

  // The adaptive predictor of one band: pole coefficients, the zero coefficients of taps 1 to 6, the past differences,
  // partial and full reconstructions, the scale factor in both forms, and the prediction with its two parts.
  datatype Predictor = Predictor(a1: Word16, a2: Word16, b: seq<Word16>, d: seq<Word16>, p: seq<Word16>, r: seq<Word16>,
                                 det: Word16, nb: Word16, s: Word16, sp: Word16, sz: Word16)

  const ZEROS_3: seq<Word16> := [0, 0, 0]
  const ZEROS_6: seq<Word16> := [0, 0, 0, 0, 0, 0]
  const ZEROS_7: seq<Word16> := [0, 0, 0, 0, 0, 0, 0]

  type Band = x: Predictor | |x.p| == |x.r| == 3 && |x.b| == 6 && |x.d| == 7
    witness Predictor(0, 0, ZEROS_6, ZEROS_7, ZEROS_3, ZEROS_3, 0, 0, 0, 0, 0)

  const LOW_RESET: Band := Predictor(0, 0, ZEROS_6, ZEROS_7, ZEROS_3, ZEROS_3, 32, 0, 0, 0, 0)
  const HIGH_RESET: Band := Predictor(0, 0, ZEROS_6, ZEROS_7, ZEROS_3, ZEROS_3, 8, 0, 0, 0, 0)

  // A new value in front moves the rest of a delay line on, and stays in front.
  function Delayed(line: seq<Word16>): (r: seq<Word16>)
    requires |line| > 0
    ensures |r| == |line|
  {
    [line[0]] + line[..|line| - 1]
  }

  function SameSign(x: Word16, y: Word16): bool {
    Shr(x, 15) == Shr(y, 15)
  }

  // The sign algorithm for a zero coefficient.
  function ZeroCoefficient(d0: Word16, di: Word16, bi: Word16): Word16 {
    var wd1 := if d0 == 0 then 0 else 128;
    Add(if SameSign(d0, di) then Add(0, wd1) else Sub(0, wd1), Mult(bi, 32640))
  }

  function ZeroCoefficients(d: seq<Word16>, b: seq<Word16>): (r: seq<Word16>)
    requires |d| == 7 && |b| == 6
    ensures |r| == 6
  {
    seq(6, i requires 0 <= i < 6 => ZeroCoefficient(d[0], d[i + 1], b[i]))
  }

  // The second pole coefficient.
  function Pole2(a1: Word16, a2: Word16, p: seq<Word16>): (r: Word16)
    requires |p| == 3
    ensures -12288 <= r <= 12288
  {
    var wd1 := Shl(a1, 2);
    var wd2 := Shr(if SameSign(p[0], p[1]) then Sub(0, wd1) else Add(0, wd1), 7);
    var apl2 := Add(Add(wd2, if SameSign(p[0], p[2]) then 128 else -128), Mult(a2, 32512));
    var top := if Sub(apl2, 12288) > 0 then 12288 else apl2;
    if Sub(top, -12288) < 0 then -12288 else top
  }

  // The first, held in the triangle where the predictor is stable.
  function Pole1(a1: Word16, a2: Word16, p: seq<Word16>): (r: Word16)
    requires |p| == 3
    ensures -12288 <= a2 <= 12288 ==> -(15360 - a2) <= r <= 15360 - a2
  {
    var apl1 := Add(if SameSign(p[0], p[1]) then 192 else -192, Mult(a1, 32640));
    var wd3 := Sub(15360, a2);
    if Sub(apl1, wd3) > 0 then wd3 else if Add(apl1, wd3) < 0 then Negate(wd3) else apl1
  }

  // The zero section, summed from tap 6 down to tap k.
  function Zeros(d: seq<Word16>, b: seq<Word16>, k: nat): Word16
    requires |d| == 7 && |b| == 6 && 1 <= k <= 7
    decreases 7 - k
  {
    if k == 7 then 0 else Add(Zeros(d, b, k + 1), Mult(Add(d[k], d[k]), b[k - 1]))
  }

  function Poles(r: seq<Word16>, a1: Word16, a2: Word16): Word16
    requires |r| == 3
  {
    Add(Mult(a1, Add(r[1], r[1])), Mult(a2, Add(r[2], r[2])))
  }

  // What a quantised difference dq does to a band, once the new scale factor is known.
  function Adapt(x: Band, dq: Word16, nb: Word16, det: Word16): (y: Band)
    ensures y.nb == nb && y.det == det
  {
    hide Add, ZeroCoefficients, Pole1, Pole2, Zeros, Poles;
    var d, p, r := x.d[0 := dq], x.p[0 := Add(dq, x.sz)], x.r[0 := Add(x.s, dq)];
    var b := ZeroCoefficients(d, x.b);
    var a2 := Pole2(x.a1, x.a2, p);
    var a1 := Pole1(x.a1, a2, p);
    var d', r' := Delayed(d), Delayed(r);
    var sz, sp := Zeros(d', b, 1), Poles(r', a1, a2);
    Predictor(a1, a2, b, d', Delayed(p), r', det, nb, Add(sp, sz), sp, sz)
  }

  function LowStep(x: Band, il: LowIndex): Band
  {
    var nb := Logscl(il, x.nb);
    Adapt(x, InvQal(il, x.det), nb, Scalel(nb))
  }

  function HighStep(x: Band, ih: HighIndex): Band
  {
    var nb := Logsch(ih, x.nb);
    Adapt(x, InvQah(ih, x.det), nb, Scaleh(nb))
  }
}
