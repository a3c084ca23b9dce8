// What mixing two samples means: the blend a + b - ab / 65535, as numbers and through the codes.
module MixMeaning {
  import opened StreamMixer
  import G711

  // The headroom that is left, in parts of 65535, is the product of what both samples leave, up to the rounding of one division.
  lemma BlendLeaves(a: int, b: int)
    ensures -65535 < 65535 * (65535 - Blend(a, b)) - (65535 - a) * (65535 - b) < 65535
  {
    Truncated(a * b, 65535);
    assert (65535 - a) * (65535 - b) == 65535 * 65535 - 65535 * a - 65535 * b + a * b;
  }

  lemma Truncated(x: int, m: int)
    requires m > 0
    ensures -m < m * Quotient(x, m) - x < m && (x >= 0 ==> m * Quotient(x, m) <= x)
    ensures x <= 0 ==> m * Quotient(x, m) >= x
  {
    if x >= 0 {
      assert x == m * (x / m) + x % m;
    } else {
      assert -x == m * (-x / m) + -x % m;
      assert m * Quotient(x, m) == -(m * (-x / m));
    }
  }

  // Two samples of 16 bits without a sign never blend to less than either of them, nor to more than fits.
  lemma BlendBetween(a: int, b: int)
    requires 0 <= a <= 65535 && 0 <= b <= 65535
    ensures a <= Blend(a, b) <= 65535 && b <= Blend(a, b)
  {
    hide Blend;
    BlendLeaves(a, b);
    Headroom(a, b);
    var r := 65535 - Blend(a, b);
    assert 65535 * r > -65535;
  }

  lemma Headroom(a: int, b: int)
    requires 0 <= a <= 65535 && 0 <= b <= 65535
    ensures 0 <= (65535 - a) * (65535 - b) && a <= Blend(a, b) && b <= Blend(a, b)
  {
    hide Quotient;
    NotNegative(65535 - a, 65535 - b);
    NotNegative(a, b);
    Dominated(a, b);
    Dominated(b, a);
    AtMost(a * b, a, b, Quotient(a * b, 65535)) by { Truncated(a * b, 65535); }
  }

  lemma AtMost(x: int, a: int, b: int, q: int)
    requires x <= 65535 * a && x <= 65535 * b && 65535 * q <= x
    ensures q <= a && q <= b
  {
  }

  lemma NotNegative(a: int, b: int)
    requires a >= 0 && b >= 0
    ensures a * b >= 0
  {
  }

  lemma Dominated(a: int, b: int)
    requires 0 <= a <= 65535 && 0 <= b
    ensures a * b <= 65535 * b && b * a == a * b
  {
    assert (65535 - a) * b >= 0;
  }

  // Samples of opposite sign are added, and a little is given back.
  lemma BlendOpposite(a: int, b: int)
    requires -32768 <= a <= 0 <= b <= 32768
    ensures a + b <= Blend(a, b) <= a + b + 16384
  {
    Truncated(a * b, 65535);
    Dominated(-a, b);
    assert a * b == -(-a * b);
    assert -a * b <= 32768 * 32768 by { assert (32768 + a) * b >= 0; }
    assert a * b <= 0 by { assert -a * b >= 0; }
  }

  lemma BlendSilence(a: int)
    ensures Blend(a, 0) == a
  {
  }

  // --- Through the codes ---

  // Mu-law silence changes nothing, but for the second code of zero.
  lemma SilenceMixed(y: bv8)
    ensures MixSample(MuLaw, 0xFF, y) == MixSample(MuLaw, y, 0xFF) == if y == 0x7F then 0xFF else y
  {
    hide G711.LinearToULaw, Blend;
    MixCommutes(MuLaw, 0xFF, y);
    assert G711.ULawToLinear(0xFF) == 0 by { Silence(); }
    BlendSilence(G711.ULawToLinear(y));
    G711.ULawSurvives(y);
  }

  lemma Silence()
    ensures G711.ULawToLinear(0xFF) == 0
  {
    assert G711.Seg(0) == 0 && G711.Quant(0) == 0;
  }

  function Abs(x: int): nat {
    if x < 0 then -x else x
  }

  // Decoded, a mu-law mix is the blend of the decoded samples to within a 32nd of its biased magnitude, and beyond the range of
  // the code the loudest it has.
  lemma MuLawMix(x: bv8, y: bv8)
    ensures var b, m := Blend(G711.ULawToLinear(x), G711.ULawToLinear(y)), G711.ULawToLinear(MixSample(MuLaw, x, y));
            if Abs(b) <= 32635 then 32 * Abs(m - b) <= Abs(b) + 132 else m == if b < 0 then -32124 else 32124
  {
    hide Blend, G711.ULawToLinear, G711.LinearToULaw, G711.ULawMagnitude;
    var b := Blend(G711.ULawToLinear(x), G711.ULawToLinear(y));
    if Abs(b) <= 32635 {
      G711.ULawError(b);
    } else {
      G711.ULawRound(b);
      Loudest(if b < 0 then G711.BIAS - b else b + G711.BIAS);
    }
  }

  lemma Loudest(m: int)
    requires m > 32767
    ensures G711.ULawMagnitude(m) == 32124
  {
    G711.TopLevel();
    assert G711.SEG_END[7] == 32767;
    TopSegment(m, 0);
  }

  lemma {:induction false} TopSegment(m: int, i: nat)
    requires m > 32767 && i <= 8
    ensures G711.Segment(m, i) == 8
    decreases 8 - i
  {
    if i < 8 {
      G711.SegmentsGrow(i, 7);
      TopSegment(m, i + 1);
    }
  }

  // An A-law mix is within half a step of the blend, and 7 more below zero.
  lemma ALawMix(x: bv8, y: bv8)
    ensures var b, m := Blend(G711.ALawToLinear(x), G711.ALawToLinear(y)), G711.ALawToLinear(MixSample(ALaw, x, y));
            && (0 <= b <= 32767 ==> 2 * Abs(m - b) <= G711.ALawStep(b))
            && (-32768 <= b <= -8 ==> 2 * (Abs(m - b) - 7) <= G711.ALawStep(-b - 8))
  {
    hide Blend, G711.ALawToLinear, G711.LinearToALaw, G711.ALawStep;
    var b := Blend(G711.ALawToLinear(x), G711.ALawToLinear(y));
    if 0 <= b <= 32767 { G711.ALawErrorPositive(b); }
    if -32768 <= b <= -8 { G711.ALawErrorNegative(b); }
  }
}
