// The state of one sub-band coder and the routines that update its arrays in place.
module SubBands {
  import opened BasicOps
  import opened Adpcm

  // Adapt the zero coefficients and move the differences on, from tap 6 down.
  method UpZero(dlt: array<Word16>, bl: array<Word16>)
    requires dlt.Length == bl.Length == 7 && dlt != bl
    modifies dlt, bl
    ensures bl[1..] == ZeroCoefficients(old(dlt[..]), old(bl[1..]))
    ensures dlt[..] == Delayed(old(dlt[..]))
  {
    hide Add, Sub, Shr, Mult;
    var wd1: Word16 := 128;
    if dlt[0] == 0 { wd1 := 0; }
    var sg0 := Shr(dlt[0], 15);
    var i := 6;
    while i > 0
      invariant 0 <= i <= 6
      invariant forall j | 0 <= j <= i :: bl[j] == old(bl[j]) && dlt[j] == old(dlt[j])
      invariant forall j | i < j < 7 :: bl[j] == ZeroCoefficient(old(dlt[0]), old(dlt[j]), old(bl[j])) && dlt[j] == old(dlt[j - 1])
    {
      var sgi := Shr(dlt[i], 15);
      var wd2 := Sub(0, wd1);
      if sg0 == sgi { wd2 := Add(0, wd1); }
      var wd3 := Mult(bl[i], 32640);
      bl[i] := Add(wd2, wd3);
      dlt[i] := dlt[i - 1];
      i := i - 1;
    }
  }

  method UpPol2(al: array<Word16>, plt: array<Word16>)
    requires al.Length == plt.Length == 3 && al != plt
    modifies al
    ensures al[2] == Pole2(old(al[1]), old(al[2]), plt[..]) && al[1] == old(al[1])
  {
    hide Add, Sub, Mult, Shr, Shl, Clamp;
    var sg0, sg1, sg2 := Shr(plt[0], 15), Shr(plt[1], 15), Shr(plt[2], 15);
    SubZero(sg0, sg1);
    SubZero(sg0, sg2);
    var wd1 := Shl(al[1], 2);
    var wd2 := Add(0, wd1);
    if Sub(sg0, sg1) == 0 { wd2 := Sub(0, wd1); }
    wd2 := Shr(wd2, 7);
    var wd3: Word16 := -128;
    if Sub(sg0, sg2) == 0 { wd3 := 128; }
    var wd4 := Add(wd2, wd3);
    var wd5 := Mult(al[2], 32512);
    var apl2 := Add(wd4, wd5);
    if Sub(apl2, 12288) > 0 { apl2 := 12288; }
    if Sub(apl2, -12288) < 0 { apl2 := -12288; }
    al[2] := apl2;
  }

  method UpPol1(al: array<Word16>, plt: array<Word16>)
    requires al.Length == plt.Length == 3 && al != plt
    modifies al, plt
    ensures al[1] == Pole1(old(al[1]), al[2], old(plt[..])) && al[2] == old(al[2])
    ensures plt[..] == Delayed(old(plt[..]))
  {
    hide Add, Mult, Shr, Negate;
    var sg0, sg1 := Shr(plt[0], 15), Shr(plt[1], 15);
    var wd1: Word16 := -192;
    if Sub(sg0, sg1) == 0 { wd1 := 192; }
    var wd2 := Mult(al[1], 32640);
    var apl1 := Add(wd1, wd2);
    var wd3 := Sub(15360, al[2]);
    if Sub(apl1, wd3) > 0 {
      apl1 := wd3;
    } else if Add(apl1, wd3) < 0 {
      apl1 := Negate(wd3);
    }
    plt[2] := plt[1];
    plt[1] := plt[0];
    al[1] := apl1;
  }

  method FiltEz(dlt: array<Word16>, bl: array<Word16>) returns (szl: Word16)
    requires dlt.Length == bl.Length == 7
    ensures szl == Zeros(dlt[..], bl[1..], 1)
  {
    hide Add, Mult;
    szl := 0;
    var i := 6;
    while i > 0
      invariant 0 <= i <= 6 && szl == Zeros(dlt[..], bl[1..], i + 1)
    {
      var wd := Add(dlt[i], dlt[i]);
      wd := Mult(wd, bl[i]);
      szl := Add(szl, wd);
      i := i - 1;
    }
  }

  method FiltEp(rlt: array<Word16>, al: array<Word16>) returns (spl: Word16)
    requires rlt.Length == al.Length == 3 && rlt != al
    modifies rlt
    ensures rlt[..] == Delayed(old(rlt[..])) && spl == Poles(rlt[..], al[1], al[2])
  {
    rlt[2] := rlt[1];
    rlt[1] := rlt[0];
    var wd1 := Add(rlt[1], rlt[1]);
    wd1 := Mult(al[1], wd1);
    var wd2 := Add(rlt[2], rlt[2]);
    wd2 := Mult(al[2], wd2);
    spl := Add(wd1, wd2);
  }

  class SubBand {
    const a: array<Word16>
    const b: array<Word16>
    const d: array<Word16>
    const p: array<Word16>
    const r: array<Word16>
    var det: Word16
    var nb: Word16
    var s: Word16
    var sp: Word16
    var sz: Word16

    ghost function Arrays(): set<array<Word16>> {
      {a, b, d, p, r}
    }

    ghost predicate Valid() {
      && a.Length == p.Length == r.Length == 3 && b.Length == d.Length == 7
      && a != p && a != r && p != r && b != d
    }

    ghost function View(): Band
      requires Valid()
      reads this, Arrays()
    {
      Predictor(a[1], a[2], b[1..], d[..], p[..], r[..], det, nb, s, sp, sz)
    }

    constructor ()
      ensures Valid() && fresh(Arrays())
    {
      a, p, r := new Word16[3], new Word16[3], new Word16[3];
      b, d := new Word16[7], new Word16[7];
      det, nb, s, sp, sz := *, *, *, *, *;
    }

    method Reset(det: Word16)
      requires Valid()
      modifies this, Arrays()
      ensures View() == Predictor(0, 0, ZEROS_6, ZEROS_7, ZEROS_3, ZEROS_3, det, 0, 0, 0, 0)
    {
      this.det := det;
      s, sp, sz, nb := 0, 0, 0, 0;
      a[1], a[2] := 0, 0;
      forall i | 1 <= i < 7 { b[i] := 0; }
      forall i | 0 <= i < 7 { d[i] := 0; }
      p[0], p[1], p[2] := 0, 0, 0;
      r[0], r[1], r[2] := 0, 0, 0;
    }

    // The rest of a step, once the quantised difference and the scale factor are in place.
    method Predict()
      requires Valid()
      modifies this, Arrays()
      ensures View() == Adapt(old(View()), old(d[0]), old(nb), old(det))
    {
      hide Add, ZeroCoefficients, Pole1, Pole2, Zeros, Poles, Delayed;
      p[0] := Add(d[0], sz);
      r[0] := Add(s, d[0]);
      assert d[..] == old(d[..]) == old(View()).d[0 := old(d[0])];
      assert p[..] == old(View()).p[0 := Add(old(d[0]), old(sz))];
      assert r[..] == old(View()).r[0 := Add(old(s), old(d[0]))];
      UpZero(d, b);
      UpPol2(a, p);
      UpPol1(a, p);
      sz := FiltEz(d, b);
      sp := FiltEp(r, a);
      s := Add(sp, sz);
    }

    // Quantise one sample of the low band and follow the decoder.
    method LsbCod(xl: Word16) returns (il: LowIndex)
      requires Valid()
      modifies this, Arrays()
      ensures il == LowCode(Sub(xl, old(s)), old(det)) && View() == LowStep(old(View()), il)
    {
      hide Adapt, LowCode, InvQal, Logscl, Scalel, Sub;
      var el := Sub(xl, s);
      il := Quantl(el, det);
      d[0] := InvQal(il, det);
      var nbpl := Logscl(il, nb);
      nb := nbpl;
      det := Scalel(nbpl);
      label Quantised:
      Predict();
      OnlyFirst(old(View()), old@Quantised(View()));
    }

    method HsbCod(xh: Word16) returns (ih: HighIndex)
      requires Valid()
      modifies this, Arrays()
      ensures ih == HighCode(Sub(xh, old(s)), old(det)) && View() == HighStep(old(View()), ih)
    {
      hide Adapt, HighCode, InvQah, Logsch, Scaleh, Sub;
      var eh := Sub(xh, s);
      ih := HighCode(eh, det);
      d[0] := InvQah(ih, det);
      var nbph := Logsch(ih, nb);
      nb := nbph;
      det := Scaleh(nbph);
      label Quantised:
      Predict();
      OnlyFirst(old(View()), old@Quantised(View()));
    }

    // Decode one sample of the low band.  The mode decides the sample, but not the state.
    method LsbDec(ilr: LowIndex, mode: Word16) returns (yl: Word16)
      requires Valid()
      modifies this, Arrays()
      ensures yl == Limit(Add(old(s), InvQbl(ilr, old(det), mode))) && View() == LowStep(old(View()), ilr)
    {
      hide Adapt, InvQbl, InvQal, Logscl, Scalel, Add, Limit;
      var dl := InvQbl(ilr, det, mode);
      var rl := Add(s, dl);
      yl := Limit(rl);
      d[0] := InvQal(ilr, det);
      var nbpl := Logscl(ilr, nb);
      nb := nbpl;
      det := Scalel(nbpl);
      label Quantised:
      Predict();
      OnlyFirst(old(View()), old@Quantised(View()));
    }

    method HsbDec(ih: HighIndex) returns (yh: Word16)
      requires Valid()
      modifies this, Arrays()
      ensures yh == Limit(Add(old(s), InvQah(ih, old(det)))) && View() == HighStep(old(View()), ih)
    {
      hide Adapt, InvQah, Logsch, Scaleh, Add, Limit;
      ghost var dq := InvQah(ih, det);
      d[0] := InvQah(ih, det);
      var nbph := Logsch(ih, nb);
      nb := nbph;
      det := Scaleh(nbph);
      label Quantised:
      Predict();
      OnlyFirst(old(View()), old@Quantised(View()));
      NewestReconstruction(old(View()), dq, nb, det);
      assert View().r[0] == r[0];
      yh := Limit(r[0]);
    }
  }

  // Adapting overwrites the newest difference and the scale factor, so it does not matter that they are set before.
  lemma OnlyFirst(x: Band, y: Band)
    requires y == x.(d := x.d[0 := y.d[0]], nb := y.nb, det := y.det)
    ensures Adapt(y, y.d[0], y.nb, y.det) == Adapt(x, y.d[0], y.nb, y.det)
  {
    hide Add, ZeroCoefficients, Pole1, Pole2, Zeros, Poles, Delayed;
    assert y.d[0 := y.d[0]] == x.d[0 := y.d[0]];
  }

  // The newest reconstruction stays in front of its delay line.
  lemma NewestReconstruction(x: Band, dq: Word16, nb: Word16, det: Word16)
    ensures Adapt(x, dq, nb, det).r[0] == Add(x.s, dq)
  {
    hide Add, ZeroCoefficients, Pole1, Pole2, Zeros, Poles;
  }
}
