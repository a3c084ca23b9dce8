// Properties of whole runs of the two coders.
module Lockstep {
  import opened BasicOps
  import opened Adpcm

  // The part of the codec state that adapts.
  datatype Coder = Coder(low: Band, high: Band)

  const RESET := Coder(LOW_RESET, HIGH_RESET)

  // Pole coefficients inside the stability triangle, zero coefficients where they cannot overflow.
  ghost predicate Stable(x: Band) {
    && -12288 <= x.a2 <= 12288 && -(15360 - x.a2) <= x.a1 <= 15360 - x.a2
    && forall i | 0 <= i < 6 :: x.b[i] <= 32513
  }

  ghost predicate Good(c: Coder) {
    && Stable(c.low) && 0 <= c.low.nb <= NBL_MAX && c.low.det == Scalel(c.low.nb)
    && Stable(c.high) && 0 <= c.high.nb <= NBH_MAX && c.high.det == Scaleh(c.high.nb)
  }

  lemma ResetIsGood()
    ensures Good(RESET)
  {
    hide Scalel, Scaleh;
    FirstScale();
  }

  // Adapting a zero coefficient never saturates.
  lemma ZeroCoefficientFits(d0: Word16, di: Word16, bi: Word16)
    requires bi <= 32513
    ensures ZeroCoefficient(d0, di, bi) <= 32513
    ensures ZeroCoefficient(d0, di, bi) == bi * 32640 / 0x8000 + (if d0 == 0 then 0 else if SameSign(d0, di) then 128 else -128)
  {
    hide Shr, SameSign, Mult, Add, Sub;
    Leak(bi);
  }

  lemma Leak(bi: Word16)
    ensures Mult(bi, 32640) == bi * 32640 / 0x8000 >= -32640
    ensures bi <= 32513 ==> bi * 32640 / 0x8000 <= 32385
  {
    hide Mult;
  }

  lemma AdaptKeepsStable(x: Band, dq: Word16, nb: Word16, det: Word16)
    requires Stable(x)
    ensures Stable(Adapt(x, dq, nb, det))
  {
    hide Pole1, Pole2, Zeros, Poles, ZeroCoefficient;
    var d := x.d[0 := dq];
    forall i | 0 <= i < 6
      ensures ZeroCoefficients(d, x.b)[i] <= 32513
    {
      ZeroCoefficientFits(d[0], d[i + 1], x.b[i]);
    }
  }

  lemma ShiftedHigh(ih: HighIndex)
    ensures Shl(ih, 6) == 64 * ih
  {
  }

  // The codes of the high and the low band in one octet.
  function Pack(ih: HighIndex, il: LowIndex): (o: Octet)
    ensures o / 64 == ih && o % 64 == il
  {
    hide Add, Shl;
    ShiftedHigh(ih);
    Add(Shl(ih, 6), il) % 256
  }

  function Code(c: Coder, xl: Word16, xh: Word16): (o: Octet)
    ensures o % 64 >= 4
  {
    hide HighCode, LowCode;
    LowCodeRange(Sub(xl, c.low.s), c.low.det);
    Pack(HighCode(Sub(xh, c.high.s), c.high.det), LowCode(Sub(xl, c.low.s), c.low.det))
  }

  // The codes 0 to 3 are never sent.
  lemma LowCodeRange(el: Word16, detl: Word16)
    ensures LowCode(el, detl) >= 4
  {
    var mil := LevelOfCode(el, detl);
  }

  lemma LowestDecision(detl: Word16)
    ensures Decision(0, detl) == 0
  {
  }

  // The state of a coder after the codes of one octet.
  function Step(c: Coder, il: LowIndex, ih: HighIndex): Coder
  {
    Coder(LowStep(c.low, il), HighStep(c.high, ih))
  }

  lemma StepKeepsGood(c: Coder, il: LowIndex, ih: HighIndex)
    requires Good(c)
    ensures Good(Step(c, il, ih))
  {
    hide Adapt, Scalel, Scaleh, Logscl, Logsch, InvQal, InvQah, Stable;
    AdaptKeepsStable(c.low, InvQal(il, c.low.det), Logscl(il, c.low.nb), Scalel(Logscl(il, c.low.nb)));
    AdaptKeepsStable(c.high, InvQah(ih, c.high.det), Logsch(ih, c.high.nb), Scaleh(Logsch(ih, c.high.nb)));
  }

  // The two low bits of a low-band code make no difference to the state.
  lemma LowBitsIgnored(x: Band, il: LowIndex, il': LowIndex)
    requires il / 4 == il' / 4
    ensures LowStep(x, il) == LowStep(x, il')
  {
    hide Adapt, Scalel;
    assert Shr(il, 2) == Shr(il', 2);
  }

  // A difference el and its reconstruction dl lie in the same union of cells from level lo to level hi.
  ghost predicate SameCell(el: Word16, dl: Word16, detl: Word16, lo: nat, hi: nat)
    requires lo < hi <= 30
  {
    && (el < 0 <==> dl < 0)
    && Decision(lo, detl) <= Magnitude(el) && (hi < 30 ==> Magnitude(el) < Decision(hi, detl))
    && Decision(lo, detl) <= Magnitude(dl) <= Decision(hi, detl)
  }

  lemma LevelOfCode(el: Word16, detl: Word16) returns (mil: nat)
    ensures 1 <= mil <= 30 && LowCode(el, detl) == CodeOf(mil, el < 0)
    ensures Decision(mil - 1, detl) <= Magnitude(el) && (mil < 30 ==> Magnitude(el) < Decision(mil, detl))
  {
    hide Decision;
    LowestDecision(detl);
    mil := Level(Magnitude(el), detl, 0);
    CodeValue(mil);
  }

  // The value of a code is its output level, scaled, with its sign.
  lemma Decoded6(mil: nat, negative: bool, detl: Word16)
    requires 1 <= mil <= 30
    ensures 0 <= OQ6[mil] <= 3200
    ensures InvQ6(CodeOf(mil, negative), detl) == Mult(detl, if negative then Negate(Shl(OQ6[mil], 3)) else Shl(OQ6[mil], 3))
  {
    hide Mult, Shl;
    CodeTable(mil, negative);
    LevelOrder(mil);
  }

  lemma Decoded5(mil: nat, r: nat, negative: bool, detl: Word16)
    requires 1 <= mil <= 30 && r == (mil + 1) / 2 && 1 <= r <= 15 && detl > 0
    ensures var v := InvQ5(CodeOf(mil, negative), detl);
            (v < 0 <==> negative) && Decision(2 * r - 2, detl) <= Magnitude(v) <= Decision(2 * r, detl)
  {
    hide Mult, Shl, Magnitude;
    CodeTable5(mil, negative);
    LevelOrder5(r);
    ScaledBetween(Q6[2 * r - 2], OQ5[r], Q6[2 * r], detl);
  }

  lemma DecisionOrder(k: nat, detl: Word16)
    requires k < 30 && detl > 0
    ensures Decision(k, detl) <= Decision(k + 1, detl)
  {
    hide Mult, Shl, Magnitude, Negate;
    LevelOrder(k + 1);
    ScaledBetween(Q6[k], OQ6[k + 1], Q6[k + 1], detl);
  }

  lemma {:induction false} DecisionsOrder(j: nat, k: nat, detl: Word16)
    requires j <= k <= 30 && detl > 0
    ensures Decision(j, detl) <= Decision(k, detl)
    decreases k
  {
    hide Decision;
    if j < k {
      DecisionsOrder(j, k - 1, detl);
      DecisionOrder(k - 1, detl);
    }
  }

  // With all six bits, the reconstruction is in the cell of the difference.
  lemma SixBits(el: Word16, detl: Word16) returns (mil: nat)
    requires detl > 0
    ensures 1 <= mil <= 30 && LowCode(el, detl) == CodeOf(mil, el < 0)
    ensures SameCell(el, InvQ6(LowCode(el, detl), detl), detl, mil - 1, mil)
  {
    hide Mult, Shl, Negate, Magnitude, LowCode, InvQ6;
    mil := LevelOfCode(el, detl);
    Decoded6(mil, el < 0, detl);
    LevelOrder(mil);
    ScaledBetween(Q6[mil - 1], OQ6[mil], Q6[mil], detl);
  }

  // With five, it is in the union of two cells.
  lemma FiveBits(el: Word16, detl: Word16) returns (r: nat)
    requires detl > 0
    ensures 1 <= r <= 15
    ensures SameCell(el, InvQ5(LowCode(el, detl), detl), detl, 2 * r - 2, 2 * r)
  {
    hide Decision, Magnitude, LowCode, InvQ5;
    var mil := LevelOfCode(el, detl);
    r := (mil + 1) / 2;
    Decoded5(mil, r, el < 0, detl);
    DecisionsOrder(2 * r - 2, mil - 1, detl);
    DecisionsOrder(mil, 2 * r, detl);
  }

  lemma Decoded4(mil: nat, negative: bool, detl: Word16)
    requires 1 <= mil <= 30 && detl > 0
    ensures var r, v := (mil + 1) / 4, InvQal(CodeOf(mil, negative), detl);
            if r == 0 then v == 0
            else (v < 0 <==> negative) && Decision(4 * r - 2, detl) <= Magnitude(v) <= Decision(4 * r + 2, detl)
  {
    hide Mult, Shl, Magnitude;
    var r := (mil + 1) / 4;
    CodeTable4(mil, negative);
    if r > 0 {
      LevelOrder4(r);
      ScaledBetween(Q6[4 * r - 2], OQ4[r], Q6[4 * r + 2], detl);
    } else {
      NothingShifted();
      Nothing(detl);
    }
  }

  lemma NothingShifted()
    ensures OQ4[0] == 0 && Shl(0, 3) == 0 && Negate(0) == 0
  {
  }

  lemma Nothing(detl: Word16)
    ensures Mult(detl, 0) == 0
  {
  }

  // With four, the predictor's own difference is in the union of four cells, or zero between the lowest four.
  lemma FourBits(el: Word16, detl: Word16) returns (r: nat)
    requires detl > 0
    ensures r <= 7
    ensures if r == 0 then InvQal(LowCode(el, detl), detl) == 0 && Magnitude(el) < Decision(2, detl)
            else SameCell(el, InvQal(LowCode(el, detl), detl), detl, 4 * r - 2, 4 * r + 2)
  {
    hide Decision, Magnitude, LowCode, InvQal;
    var mil := LevelOfCode(el, detl);
    r := (mil + 1) / 4;
    Decoded4(mil, el < 0, detl);
    if r > 0 { DecisionsOrder(4 * r - 2, mil - 1, detl); }
    DecisionsOrder(mil, 4 * r + 2, detl);
  }

  // A difference of the high band and what it is decoded to have the same sign, and are on the same side of the decision level.
  ghost predicate SameHalf(eh: Word16, dh: Word16, deth: Word16) {
    var level := Mult(Shl(HIGH_DECISION, 3), deth);
    && (eh < 0 <==> dh < 0)
    && if Magnitude(eh) < level then Magnitude(dh) <= level else Magnitude(dh) >= level
  }

  // The two bits of the high band, which always arrive.
  lemma TwoBits(eh: Word16, deth: Word16)
    requires deth > 0
    ensures SameHalf(eh, InvQah(HighCode(eh, deth), deth), deth)
  {
    hide Mult, Shl, Magnitude, Negate, HighCode, InvQah;
    HighDecoded(eh, deth);
    if Magnitude(eh) < Mult(Shl(HIGH_DECISION, 3), deth) {
      ScaledBetween(0, 202, HIGH_DECISION, deth);
    } else {
      ScaledBetween(HIGH_DECISION, 926, 926, deth);
    }
  }

  lemma HighDecoded(eh: Word16, deth: Word16)
    ensures var q := if Magnitude(eh) < Mult(Shl(HIGH_DECISION, 3), deth) then 202 else 926;
            InvQah(HighCode(eh, deth), deth) == Mult(deth, if eh < 0 then Negate(Shl(q, 3)) else Shl(q, 3))
  {
    hide Mult, Shl, Magnitude, Negate;
    ShrMeaning(eh, 15);
    var q := if Magnitude(eh) < Mult(Shl(HIGH_DECISION, 3), deth) then 202 else 926;
    MultCommutes(Shl(q, 3), deth);
    MultCommutes(Negate(Shl(q, 3)), deth);
  }

  lemma MultCommutes(a: Word16, b: Word16)
    ensures Mult(a, b) == Mult(b, a)
  {
    assert a * b == b * a;
  }

  // The states a run of octets leads through, the first one included.
  ghost predicate Trace(os: seq<Octet>, states: seq<Coder>) {
    |states| == |os| + 1 && forall k | 0 <= k < |os| :: states[k + 1] == Step(states[k], os[k] % 64, os[k] / 64)
  }

  // The octets are the codes of the pairs of sub-band samples, each in the state the octets before it have led to.
  ghost predicate Sends(xs: seq<(Word16, Word16)>, os: seq<Octet>, states: seq<Coder>) {
    && |os| == |xs| && Trace(os, states)
    && forall k | 0 <= k < |os| :: os[k] == Code(states[k], xs[k].0, xs[k].1)
  }

  // The two band samples one octet is decoded to.
  function Output(c: Coder, o: Octet, mode: Word16): (Word16, Word16)
  {
    (Limit(Add(c.low.s, InvQbl(o % 64, c.low.det, mode))), Limit(Add(c.high.s, InvQah(o / 64, c.high.det))))
  }

  // Only the two low bits of an octet may differ.
  ghost predicate SameHighBits(sent: seq<Octet>, received: seq<Octet>) {
    |sent| == |received| && forall i | 0 <= i < |sent| :: sent[i] / 4 == received[i] / 4
  }

  lemma HighBits(o: Octet, o': Octet)
    requires o / 4 == o' / 4
    ensures o / 64 == o' / 64 && o % 64 / 4 == o' % 64 / 4
  {
  }

  // Lockstep: a decoder that starts in the state of the encoder is in its state again after every sample, whatever
  // happens to the two low bits of each octet on the way.
  lemma {:induction false} InLockstep(sent: seq<Octet>, states: seq<Coder>, received: seq<Octet>, states': seq<Coder>, n: nat)
    requires Trace(sent, states) && Trace(received, states') && SameHighBits(sent, received)
    requires states[0] == states'[0] && n <= |sent|
    ensures states[n] == states'[n]
  {
    hide LowStep, HighStep;
    if n > 0 {
      InLockstep(sent, states, received, states', n - 1);
      HighBits(sent[n - 1], received[n - 1]);
      LowBitsIgnored(states[n - 1].low, sent[n - 1] % 64, received[n - 1] % 64);
    }
  }

  // A good state stays good, whatever octets come.
  lemma {:induction false} AlwaysGood(os: seq<Octet>, states: seq<Coder>, n: nat)
    requires Trace(os, states) && Good(states[0]) && n <= |os|
    ensures Good(states[n])
  {
    hide Good, Step;
    if n > 0 {
      AlwaysGood(os, states, n - 1);
      StepKeepsGood(states[n - 1], os[n - 1] % 64, os[n - 1] / 64);
    }
  }

  // The difference that is decoded from the k-th octet lies in the cell of the difference that was coded.
  lemma Faithful(xs: seq<(Word16, Word16)>, sent: seq<Octet>, states: seq<Coder>,
                 received: seq<Octet>, states': seq<Coder>, k: nat)
    returns (el: Word16, det: Word16, mil: nat)
    requires Sends(xs, sent, states) && Good(states[0])
    requires Trace(received, states') && states'[0] == states[0] && SameHighBits(sent, received) && k < |sent|
    ensures el == Sub(xs[k].0, states[k].low.s) && det == states'[k].low.det > 0 && 1 <= mil <= 30
    ensures received[k] == sent[k] ==> SameCell(el, InvQ6(received[k] % 64, det), det, mil - 1, mil)
  {
    hide Code, Step, InvQ6, LowCode, SameCell, Good;
    InLockstep(sent, states, received, states', k);
    AlwaysGood(sent, states, k);
    PositiveScale(states[k]);
    el := Sub(xs[k].0, states[k].low.s);
    det := states[k].low.det;
    mil := SixBits(el, det);
    CodeInOctet(states[k], xs[k].0, xs[k].1);
  }

  // When only the five high bits of the low-band code have arrived, in the union of two cells.
  lemma FaithfulInFive(xs: seq<(Word16, Word16)>, sent: seq<Octet>, states: seq<Coder>,
                       received: seq<Octet>, states': seq<Coder>, k: nat)
    returns (el: Word16, det: Word16, r: nat)
    requires Sends(xs, sent, states) && Good(states[0])
    requires Trace(received, states') && states'[0] == states[0] && SameHighBits(sent, received) && k < |sent|
    ensures el == Sub(xs[k].0, states[k].low.s) && det == states'[k].low.det > 0 && 1 <= r <= 15
    ensures received[k] / 2 == sent[k] / 2 ==> SameCell(el, InvQ5(received[k] % 64, det), det, 2 * r - 2, 2 * r)
  {
    hide Code, Step, InvQ5, LowCode, SameCell, Good;
    InLockstep(sent, states, received, states', k);
    AlwaysGood(sent, states, k);
    PositiveScale(states[k]);
    el := Sub(xs[k].0, states[k].low.s);
    det := states[k].low.det;
    r := FiveBits(el, det);
    CodeInOctet(states[k], xs[k].0, xs[k].1);
    if received[k] / 2 == sent[k] / 2 { LastBitIgnored(received[k], sent[k], det); }
  }

  lemma HalfBits(o: Octet)
    ensures o % 64 / 2 == o / 2 % 32
  {
  }

  lemma LastBitIgnored(o: Octet, o': Octet, detl: Word16)
    requires o / 2 == o' / 2
    ensures InvQ5(o % 64, detl) == InvQ5(o' % 64, detl)
  {
    hide Mult, Shl;
    HalfBits(o);
    HalfBits(o');
    ShrMeaning(o % 64, 1);
    ShrMeaning(o' % 64, 1);
    hide Shr;
  }

  // With the four high bits, which always arrive, in the union of four cells, or it is zero for the four lowest.
  lemma FaithfulInFour(xs: seq<(Word16, Word16)>, sent: seq<Octet>, states: seq<Coder>,
                       received: seq<Octet>, states': seq<Coder>, k: nat)
    returns (el: Word16, det: Word16, r: nat)
    requires Sends(xs, sent, states) && Good(states[0])
    requires Trace(received, states') && states'[0] == states[0] && SameHighBits(sent, received) && k < |sent|
    ensures el == Sub(xs[k].0, states[k].low.s) && det == states'[k].low.det > 0 && r <= 7
    ensures if r == 0 then InvQal(received[k] % 64, det) == 0 && Magnitude(el) < Decision(2, det)
            else SameCell(el, InvQal(received[k] % 64, det), det, 4 * r - 2, 4 * r + 2)
  {
    hide Code, Step, InvQal, LowCode, SameCell, Good, Decision, Magnitude;
    InLockstep(sent, states, received, states', k);
    AlwaysGood(sent, states, k);
    PositiveScale(states[k]);
    el := Sub(xs[k].0, states[k].low.s);
    det := states[k].low.det;
    r := FourBits(el, det);
    CodeInOctet(states[k], xs[k].0, xs[k].1);
    LastBitsIgnored(received[k], sent[k], det);
  }

  lemma LastBitsIgnored(o: Octet, o': Octet, detl: Word16)
    requires o / 4 == o' / 4
    ensures InvQal(o % 64, detl) == InvQal(o' % 64, detl)
  {
    HighBits(o, o');
    hide Mult, Shl, Negate;
    ShrMeaning(o % 64, 2);
    ShrMeaning(o' % 64, 2);
    hide Shr;
  }

  // The same for the high band, whose two bits nothing happens to.
  lemma FaithfulHigh(xs: seq<(Word16, Word16)>, sent: seq<Octet>, states: seq<Coder>,
                     received: seq<Octet>, states': seq<Coder>, k: nat)
    returns (eh: Word16, det: Word16)
    requires Sends(xs, sent, states) && Good(states[0])
    requires Trace(received, states') && states'[0] == states[0] && SameHighBits(sent, received) && k < |sent|
    ensures eh == Sub(xs[k].1, states[k].high.s) && det == states'[k].high.det > 0
    ensures SameHalf(eh, InvQah(received[k] / 64, det), det)
  {
    hide Code, Step, InvQah, HighCode, SameHalf, Good;
    InLockstep(sent, states, received, states', k);
    AlwaysGood(sent, states, k);
    PositiveScale(states[k]);
    eh := Sub(xs[k].1, states[k].high.s);
    det := states[k].high.det;
    TwoBits(eh, det);
    CodeInOctet(states[k], xs[k].0, xs[k].1);
    HighBits(sent[k], received[k]);
  }

  lemma PositiveScale(c: Coder)
    requires Good(c)
    ensures c.low.det > 0 && c.high.det > 0
  {
    hide Scalel, Scaleh, Stable;
  }

  lemma CodeInOctet(c: Coder, xl: Word16, xh: Word16)
    ensures Code(c, xl, xh) % 64 == LowCode(Sub(xl, c.low.s), c.low.det)
    ensures Code(c, xl, xh) / 64 == HighCode(Sub(xh, c.high.s), c.high.det)
  {
    hide HighCode, LowCode, Pack;
    LowCodeRange(Sub(xl, c.low.s), c.low.det);
  }
}
