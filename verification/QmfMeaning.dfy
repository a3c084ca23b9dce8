// What the two filter banks do to a signal between them: they give it back, 22 samples later.
module QmfMeaning {
  import opened BasicOps
  import opened Qmf

  // A signal backwards in time: x(n) is the sample n steps before the newest.
  type Past = int -> int

  // The sums of the even and of the odd taps, from sample n on.
  function Even(x: Past, n: int): int {
    6 * x(n) - 22 * x(n + 2) + 24 * x(n + 4) + 64 * x(n + 6) - 420 * x(n + 8) + 1902 * x(n + 10) + 7752 * x(n + 12) - 1610 *
    x(n + 14) + 724 * x(n + 16) - 312 * x(n + 18) + 106 * x(n + 20) - 22 * x(n + 22)
  }

  function Odd(x: Past, n: int): int {
    -22 * x(n + 1) + 106 * x(n + 3) - 312 * x(n + 5) + 724 * x(n + 7) - 1610 * x(n + 9) + 7752 * x(n + 11) + 1902 * x(n + 13)
    - 420 * x(n + 15) + 64 * x(n + 17) + 24 * x(n + 19) - 22 * x(n + 21) + 6 * x(n + 23)
  }

  // Both ways through the two filters have this response.
  function Response(x: Past, n: int): int {
    -132 * x(n + 1) + 1120 * x(n + 3) - 4732 * x(n + 5) + 12344 * x(n + 7) - 17052 * x(n + 9) - 7024 * x(n + 11) + 10672 *
    x(n + 13) - 1728 * x(n + 15) - 564 * x(n + 17) - 9300 * x(n + 19) + 11808 * x(n + 21) + 67118040 * x(n + 23) + 11808 *
    x(n + 25) - 9300 * x(n + 27) - 564 * x(n + 29) - 1728 * x(n + 31) + 10672 * x(n + 33) - 7024 * x(n + 35) - 17052 * x(n +
    37) + 12344 * x(n + 39) - 4732 * x(n + 41) + 1120 * x(n + 43) - 132 * x(n + 45)
  }

  // The twelve newest values of a band.
  function EvenTaps(b: Past): int {
    6 * b(0) - 22 * b(1) + 24 * b(2) + 64 * b(3) - 420 * b(4) + 1902 * b(5) + 7752 * b(6) - 1610 * b(7) + 724 * b(8) - 312 *
    b(9) + 106 * b(10) - 22 * b(11)
  }

  function OddTaps(b: Past): int {
    -22 * b(0) + 106 * b(1) - 312 * b(2) + 724 * b(3) - 1610 * b(4) + 7752 * b(5) + 1902 * b(6) - 420 * b(7) + 64 * b(8) + 24
    * b(9) - 22 * b(10) + 6 * b(11)
  }

  // The even taps of the second filter meet what the odd taps of the first have given, and the other way round: no image of the
  // other half of the spectrum is left, and both have the same response.
  lemma EvenOfOdd(x: Past, n: int, b: Past)
    requires forall t | 0 <= t < 12 :: b(t) == Odd(x, n + 2 * t)
    ensures EvenTaps(b) == Response(x, n)
  {
  }

  lemma OddOfEven(x: Past, n: int, a: Past)
    requires forall t | 0 <= t < 12 :: a(t) == Even(x, n + 2 * t)
    ensures OddTaps(a) == Response(x, n - 1)
  {
  }

  // The response is a delay of 23: all the rest of it is less than a 400th.
  lemma NearlyDelay(x: Past, n: int, top: int)
    requires top >= 0 && forall i | n < i < n + 46 :: -top <= x(i) <= top
    ensures -162128 * top <= Response(x, n) - 0x400_0000 * x(n + 23) <= 162128 * top
  {
  }

  // --- The sums as they are accumulated ---

  function PastOf(w: seq<Word16>): Past {
    i => if 0 <= i < |w| then w[i] else 0
  }

  lemma OneTap(line: seq<Word16>, parity: nat, k: nat)
    requires |line| == 24 && parity < 2 && k < 12
    ensures Conv(line, parity, k + 1) == Conv(line, parity, k) + COEF_QMF[2 * k + parity] * PastOf(line)(2 * k + parity)
  {
  }

  lemma EvenLow(line: seq<Word16>)
    requires |line| == 24
    ensures var x := PastOf(line); Conv(line, 0, 6) == 6 * x(0) - 22 * x(2) + 24 * x(4) + 64 * x(6) - 420 * x(8) + 1902 * x(10)
  {
    hide Conv, PastOf;
    NoTaps(line, 0);
    OneTap(line, 0, 0);
    OneTap(line, 0, 1);
    OneTap(line, 0, 2);
    OneTap(line, 0, 3);
    OneTap(line, 0, 4);
    OneTap(line, 0, 5);
  }

  lemma EvenHigh(line: seq<Word16>)
    requires |line| == 24
    ensures var x := PastOf(line);
            Conv(line, 0, 12) == Conv(line, 0, 6) + 7752 * x(12) - 1610 * x(14) + 724 * x(16) - 312 * x(18) + 106 * x(20) - 22 * x(22)
  {
    hide Conv, PastOf;
    OneTap(line, 0, 6);
    OneTap(line, 0, 7);
    OneTap(line, 0, 8);
    OneTap(line, 0, 9);
    OneTap(line, 0, 10);
    OneTap(line, 0, 11);
  }

  lemma OddLow(line: seq<Word16>)
    requires |line| == 24
    ensures var x := PastOf(line); Conv(line, 1, 6) == -22 * x(1) + 106 * x(3) - 312 * x(5) + 724 * x(7) - 1610 * x(9) + 7752 * x(11)
  {
    hide Conv, PastOf;
    NoTaps(line, 1);
    OneTap(line, 1, 0);
    OneTap(line, 1, 1);
    OneTap(line, 1, 2);
    OneTap(line, 1, 3);
    OneTap(line, 1, 4);
    OneTap(line, 1, 5);
  }

  lemma OddHigh(line: seq<Word16>)
    requires |line| == 24
    ensures var x := PastOf(line);
            Conv(line, 1, 12) == Conv(line, 1, 6) + 1902 * x(13) - 420 * x(15) + 64 * x(17) + 24 * x(19) - 22 * x(21) + 6 * x(23)
  {
    hide Conv, PastOf;
    OneTap(line, 1, 6);
    OneTap(line, 1, 7);
    OneTap(line, 1, 8);
    OneTap(line, 1, 9);
    OneTap(line, 1, 10);
    OneTap(line, 1, 11);
  }

  lemma ConvSums(line: seq<Word16>)
    requires |line| == 24
    ensures Conv(line, 0, 12) == Even(PastOf(line), 0) && Conv(line, 1, 12) == Odd(PastOf(line), 0)
  {
    hide Conv, PastOf;
    EvenLow(line);
    EvenHigh(line);
    OddLow(line);
    OddHigh(line);
  }

  lemma NoTaps(line: seq<Word16>, parity: nat)
    requires |line| == 24 && parity < 2
    ensures Conv(line, parity, 0) == 0
  {
  }

  // --- With all the rounding ---

  // What the first filter saw when it made the band values t steps before the newest.
  function Seen(w: seq<Word16>, t: nat): (line: seq<Word16>)
    requires |w| == 46 && t < 12
    ensures |line| == 24
  {
    w[2 * t..2 * t + 24]
  }

  lemma SeenSums(w: seq<Word16>, t: nat)
    requires |w| == 46 && t < 12
    ensures Conv(Seen(w, t), 0, 12) == Even(PastOf(w), 2 * t) && Conv(Seen(w, t), 1, 12) == Odd(PastOf(w), 2 * t)
  {
    hide Conv;
    ConvSums(Seen(w, t));
  }

  lemma SumsBounded(x: Past, n: int, top: int)
    requires top >= 0 && forall i | n <= i < n + 24 :: -top <= x(i) <= top
    ensures -12964 * top <= Even(x, n) <= 12964 * top && -12964 * top <= Odd(x, n) <= 12964 * top
  {
  }

  // Nothing is limited, and the difference and the sum of both bands are twice the sums of the taps, rounded.
  lemma BandValues(w: seq<Word16>, t: nat, top: int)
    requires |w| == 46 && t < 12 && 0 <= top <= 20000 && forall i | 0 <= i < 46 :: -top <= w[i] <= top
    ensures var lo, hi, a, b := LowBand(Seen(w, t)), HighBand(Seen(w, t)), Even(PastOf(w), 2 * t), Odd(PastOf(w), 2 * t);
            -0x8000 < 0x8000 * Sub(lo, hi) - 2 * b < 0x8000 && -0x1_0000 < 0x8000 * Add(lo, hi) - 2 * a <= 0
  {
    hide Conv, Even, Odd;
    SeenSums(w, t);
    SumsBounded(PastOf(w), 2 * t, top);
    Rounded(Even(PastOf(w), 2 * t), Odd(PastOf(w), 2 * t));
  }

  lemma Rounded(a: int, b: int)
    requires -12964 * 20000 <= a <= 12964 * 20000 && -12964 * 20000 <= b <= 12964 * 20000
    ensures var lo, hi := Clamp((a + b) / 0x8000, -16384, 16383), Clamp((a - b) / 0x8000, -16384, 16383);
            -0x8000 < 0x8000 * Sub(lo, hi) - 2 * b < 0x8000 && -0x1_0000 < 0x8000 * Add(lo, hi) - 2 * a <= 0
  {
  }

  // The delay line of the second filter when it has been fed with these band values.
  ghost predicate Fed(w: seq<Word16>, s: seq<Word16>) {
    && |w| == 46 && |s| == 24
    && forall t | 0 <= t < 12 ::
         s[2 * t] == Sub(LowBand(Seen(w, t)), HighBand(Seen(w, t))) && s[2 * t + 1] == Add(LowBand(Seen(w, t)), HighBand(Seen(w, t)))
  }

  lemma EvenRounded(s: Past, b: Past)
    requires forall t | 0 <= t < 12 :: -0x8000 < 0x8000 * s(t) - 2 * b(t) < 0x8000
    ensures -12964 * 0x8000 <= 0x8000 * EvenTaps(s) - 2 * EvenTaps(b) <= 12964 * 0x8000
  {
  }

  lemma OddRounded(s: Past, a: Past)
    requires forall t | 0 <= t < 12 :: -0x1_0000 < 0x8000 * s(t) - 2 * a(t) <= 0
    ensures -12964 * 0x1_0000 <= 0x8000 * OddTaps(s) - 2 * OddTaps(a) <= 12964 * 0x1_0000
  {
  }

  // From the sums to the samples that come out.
  lemma OutBounded(c: int, r: int, v: int, top: int)
    requires 0 <= top <= 20000 && -top <= v <= top
    requires -162128 * top <= r - 0x400_0000 * v <= 162128 * top
    requires -12964 * 0x1_0000 <= 0x8000 * c - 2 * r <= 12964 * 0x1_0000
    ensures var y := Clamp(16 * c, MIN_32, MAX_32) / 0x1_0000; -(top + 3200) <= 400 * (y - v) <= top + 3200
  {
  }

  lemma TapsOf(s: seq<Word16>, d: Past, e: Past)
    requires |s| == 24 && forall t | 0 <= t < 12 :: d(t) == s[2 * t] && e(t) == s[2 * t + 1]
    ensures Even(PastOf(s), 0) == EvenTaps(d) && Odd(PastOf(s), 0) == OddTaps(e)
  {
  }

  lemma FedValues(w: seq<Word16>, s: seq<Word16>, t: nat, top: int)
    requires |w| == 46 && |s| == 24 && Fed(w, s) && t < 12 && 0 <= top <= 20000 && forall i | 0 <= i < 46 :: -top <= w[i] <= top
    ensures -0x8000 < 0x8000 * s[2 * t] - 2 * Odd(PastOf(w), 2 * t) < 0x8000
    ensures -0x1_0000 < 0x8000 * s[2 * t + 1] - 2 * Even(PastOf(w), 2 * t) <= 0
  {
    hide Even, Odd, Sub, Add, LowBand, HighBand, Seen;
    BandValues(w, t, top);
  }

  // What comes out of the second filter, with all the rounding in both, differs from the signal of 22 samples ago by no more than
  // a 400th of the loudest sample and 8.
  lemma EvenOut(w: seq<Word16>, s: seq<Word16>, top: int)
    requires |w| == 46 && |s| == 24 && Fed(w, s) && 0 <= top <= 20000 && forall i | 0 <= i < 46 :: -top <= w[i] <= top
    ensures -(top + 3200) <= 400 * (Synthesis(s, 0) - w[23]) <= top + 3200
  {
    hide Conv, Even, Odd, Response, EvenTaps, OddTaps, Fed;
    var x, d, e, b: Past := PastOf(w), t => PastOf(s)(2 * t), t => PastOf(s)(2 * t + 1), t => Odd(PastOf(w), 2 * t);
    forall t | 0 <= t < 12 ensures -0x8000 < 0x8000 * d(t) - 2 * b(t) < 0x8000 { FedValues(w, s, t, top); }
    EvenRounded(d, b);
    EvenOfOdd(x, 0, b);
    NearlyDelay(x, 0, top);
    ConvSums(s);
    TapsOf(s, d, e);
    OutBounded(Conv(s, 0, 12), Response(x, 0), w[23], top);
  }

  lemma OddOut(w: seq<Word16>, s: seq<Word16>, top: int)
    requires |w| == 46 && |s| == 24 && Fed(w, s) && 0 <= top <= 20000 && forall i | 0 <= i < 46 :: -top <= w[i] <= top
    ensures -(top + 3200) <= 400 * (Synthesis(s, 1) - w[22]) <= top + 3200
  {
    hide Conv, Even, Odd, Response, EvenTaps, OddTaps, Fed;
    var x, d, e, a: Past := PastOf(w), t => PastOf(s)(2 * t), t => PastOf(s)(2 * t + 1), t => Even(PastOf(w), 2 * t);
    forall t | 0 <= t < 12 ensures -0x1_0000 < 0x8000 * e(t) - 2 * a(t) <= 0 { FedValues(w, s, t, top); }
    OddRounded(e, a);
    OddOfEven(x, 0, a);
    NearlyDelay(x, -1, top);
    ConvSums(s);
    TapsOf(s, d, e);
    OutBounded(Conv(s, 1, 12), Response(x, -1), w[22], top);
  }
}
