// The two quadrature mirror filters that split a signal into its sub-bands and put it together again.
module Qmf {
  import opened BasicOps
  import opened Adpcm

  const COEF_QMF: seq<Word16> :=
    [6, -22, -22, 106, 24, -312, 64, 724] +
    [-420, -1610, 1902, 7752, 7752, 1902, -1610, -420] +
    [724, 64, -312, 24, 106, -22, -22, 6]

  function Product(line: seq<Word16>, i: nat): int
    requires |line| == 24 && i < 24
  {
    var c: int := COEF_QMF[i];
    c * line[i]
  }

  // The exact sum of the first k products of the even (0) or the odd (1) taps.
  function Conv(line: seq<Word16>, parity: nat, k: nat): int
    requires |line| == 24 && parity < 2 && k <= 12
  {
    if k == 0 then 0
    else Conv(line, parity, k - 1) + Product(line, 2 * (k - 1) + parity)
  }

  function Abs(x: int): nat {
    if x < 0 then -x else x
  }

  function Weight(parity: nat, k: nat): nat
    requires parity < 2 && k <= 12
  {
    if k == 0 then 0 else Weight(parity, k - 1) + Abs(COEF_QMF[2 * (k - 1) + parity])
  }

  lemma {:induction false} ConvBound(line: seq<Word16>, parity: nat, k: nat)
    requires |line| == 24 && parity < 2 && k <= 12
    ensures -0x8000 * Weight(parity, k) <= Conv(line, parity, k) <= 0x8000 * Weight(parity, k)
  {
    if k > 0 {
      var i := 2 * (k - 1) + parity;
      ConvBound(line, parity, k - 1);
      ProductBound(COEF_QMF[i], Abs(COEF_QMF[i]), line[i], 0x8000);
    }
  }

  lemma {:induction false} WeightBound(parity: nat, k: nat)
    requires parity < 2 && k <= 12
    ensures Weight(parity, k) <= Weight(parity, 12)
    decreases 12 - k
  {
    if k < 12 { WeightBound(parity, k + 1); }
  }

  lemma Weights()
    ensures Weight(0, 12) == Weight(1, 12) == 12964
  {
    assert Weight(0, 4) == 116 && Weight(1, 4) == 1164;
    assert Weight(0, 8) == 11800 && Weight(1, 8) == 12848;
  }

  // No partial sum comes near the range of 32 bits.
  lemma NoOverflow(line: seq<Word16>, parity: nat, k: nat)
    requires |line| == 24 && parity < 2 && k <= 12
    ensures -0x8000 * 12964 <= Conv(line, parity, k) <= 0x8000 * 12964
  {
    hide Conv, Weight;
    ConvBound(line, parity, k);
    WeightBound(parity, k);
    Weights();
  }

  // So every step of the accumulation is exact.
  lemma ExactStep(line: seq<Word16>, parity: nat, k: nat, acc: Word32)
    requires |line| == 24 && parity < 2 && k < 12 && acc == Conv(line, parity, k)
    ensures LMac0(acc, COEF_QMF[2 * k + parity], line[2 * k + parity]) == Conv(line, parity, k + 1)
  {
    hide LAdd, LMult0;
    NoOverflow(line, parity, k + 1);
  }

  lemma FirstStep(line: seq<Word16>, parity: nat)
    requires |line| == 24 && parity < 2
    ensures LMult0(COEF_QMF[parity], line[parity]) == Conv(line, parity, 1)
  {
  }

  method Accumulate(delayx: array<Word16>) returns (accuma: Word32, accumb: Word32)
    requires delayx.Length == 24
    ensures accuma == Conv(delayx[..], 0, 12) && accumb == Conv(delayx[..], 1, 12)
    ensures -0x8000 * 12964 <= accuma <= 0x8000 * 12964 && -0x8000 * 12964 <= accumb <= 0x8000 * 12964
  {
    hide Conv, LMac0, LMult0, Product;
    ghost var line := delayx[..];
    FirstStep(line, 0);
    FirstStep(line, 1);
    accuma := LMult0(COEF_QMF[0], delayx[0]);
    accumb := LMult0(COEF_QMF[1], delayx[1]);
    for i := 1 to 12
      invariant accuma == Conv(line, 0, i) && accumb == Conv(line, 1, i)
    {
      ExactStep(line, 0, i, accuma);
      ExactStep(line, 1, i, accumb);
      accuma := LMac0(accuma, COEF_QMF[2 * i], delayx[2 * i]);
      accumb := LMac0(accumb, COEF_QMF[2 * i + 1], delayx[2 * i + 1]);
    }
    NoOverflow(line, 0, 12);
    NoOverflow(line, 1, 12);
  }

  // Every cell of a delay line but the first two moves on by two.
  method ShiftLine(delayx: array<Word16>)
    requires delayx.Length == 24
    modifies delayx
    ensures forall j | 0 <= j < 24 :: delayx[j] == old(delayx[if j < 2 then j else j - 2])
  {
    for i := 0 to 22
      invariant forall j | 0 <= j < 24 :: delayx[j] == old(delayx[if j < 24 - i then j else j - 2])
    {
      delayx[23 - i] := delayx[21 - i];
    }
  }

  // The halves of a delay line after two new samples, before it moves on.
  function Line(old_line: seq<Word16>, x0: Word16, x1: Word16): (line: seq<Word16>)
    requires |old_line| == 24
    ensures |line| == 24
  {
    [x0, x1] + old_line[2..]
  }

  // The low band: the exact convolution, rounded down once and limited.
  function LowBand(line: seq<Word16>): Word16
    requires |line| == 24
  {
    Clamp((Conv(line, 0, 12) + Conv(line, 1, 12)) / 0x8000, -16384, 16383)
  }

  function HighBand(line: seq<Word16>): Word16
    requires |line| == 24
  {
    Clamp((Conv(line, 0, 12) - Conv(line, 1, 12)) / 0x8000, -16384, 16383)
  }

  // The delay line when two samples have come in and the rest has moved on.
  ghost predicate Moved(line: seq<Word16>, line': seq<Word16>)
  {
    |line| == |line'| == 24 && forall j | 0 <= j < 24 :: line'[j] == line[if j < 2 then j else j - 2]
  }

  // Neither sums nor doubling nor narrowing of the two accumulators saturate.
  lemma Narrow(x: Word32)
    requires -0x8000 * 25928 <= x <= 0x8000 * 25928
    ensures LAdd(x, x) == 2 * x && Limit(ExtractL(LShr16(LAdd(x, x)))) == Clamp(x / 0x8000, -16384, 16383)
  {
    hide LAdd, LShr16, Limit;
  }

  // Split the signal: nothing saturates before the final limit.
  method QmfTx(xin0: Word16, xin1: Word16, delayx: array<Word16>) returns (xl: Word16, xh: Word16)
    requires delayx.Length == 24
    modifies delayx
    ensures var line := Line(old(delayx[..]), xin0, xin1);
            xl == LowBand(line) && xh == HighBand(line) && Moved(line, delayx[..])
  {
    hide Conv, LAdd, LSub, LShr16, ExtractL, Limit;
    delayx[1] := xin1;
    delayx[0] := xin0;
    ghost var line := delayx[..];
    assert line == Line(old(delayx[..]), xin0, xin1);
    var accuma, accumb := Accumulate(delayx);
    ShiftLine(delayx);
    var compLow := LAdd(accuma, accumb);
    compLow := LAdd(compLow, compLow);
    var compHigh := LSub(accuma, accumb);
    compHigh := LAdd(compHigh, compHigh);
    Narrow(accuma + accumb);
    Narrow(accuma - accumb);
    xl := Limit(ExtractL(LShr16(compLow)));
    xh := Limit(ExtractL(LShr16(compHigh)));
  }

  // The two samples the synthesis filter makes of a delay line.
  function Synthesis(line: seq<Word16>, parity: nat): Word16
    requires |line| == 24 && parity < 2
  {
    Clamp(16 * Conv(line, parity, 12), MIN_32, MAX_32) / 0x1_0000
  }

  method QmfRx(rl: Word16, rh: Word16, delayx: array<Word16>) returns (xout1: Word16, xout2: Word16)
    requires delayx.Length == 24
    modifies delayx
    ensures var line := Line(old(delayx[..]), Sub(rl, rh), Add(rl, rh));
            xout1 == Synthesis(line, 0) && xout2 == Synthesis(line, 1) && Moved(line, delayx[..])
  {
    hide Conv;
    delayx[1] := Add(rl, rh);
    delayx[0] := Sub(rl, rh);
    ghost var line := delayx[..];
    assert line == Line(old(delayx[..]), Sub(rl, rh), Add(rl, rh));
    var accuma, accumb := Accumulate(delayx);
    ShiftLine(delayx);
    var compLow := LShl(accuma, 4);
    var compHigh := LShl(accumb, 4);
    xout1 := ExtractH(compLow);
    xout2 := ExtractH(compHigh);
  }
}
