// The codec on arrays of samples and octets.
module G722 {
  import opened BasicOps
  import opened Adpcm
  import opened SubBands
  import opened Qmf
  import QmfMeaning
  import opened Lockstep

  type Char = x: int | -128 <= x < 128

  // A char as an octet, and the bits the decoder takes from it.
  function OctetOf(c: Char): Octet {
    if c >= 0 then c else c + 256
  }

  function LowBits(c: Char): (il: LowIndex)
    ensures il == OctetOf(c) % 64
  {
    var x: int := c;
    x % 64
  }

  function HighBitsOf(c: Char): (ih: HighIndex)
    ensures ih == OctetOf(c) / 64
  {
    var x: int := c;
    x / 64 % 4
  }

  // Sample m of a signal whose past, for negative m, is what a delay line holds.
  function Signal(line: seq<Word16>, xs: seq<Word16>, m: int): Word16
    requires |line| == 24 && -22 <= m < |xs|
  {
    if m >= 0 then xs[m] else line[1 - m]
  }

  // The delay line when the k-th pair of samples has come in: the 24 newest samples, newest first.
  function LineAt(line: seq<Word16>, xs: seq<Word16>, k: nat): (r: seq<Word16>)
    requires |line| == 24 && 2 * k + 1 < |xs|
    ensures |r| == 24
  {
    seq(24, i requires 0 <= i < 24 => Signal(line, xs, 2 * k + 1 - i))
  }

  // The sub-band samples of a signal.
  function Bands(line: seq<Word16>, xs: seq<Word16>, n: nat): (r: seq<(Word16, Word16)>)
    requires |line| == 24 && 2 * n <= |xs|
    ensures |r| == n
  {
    seq(n, k requires 0 <= k < n => (LowBand(LineAt(line, xs, k)), HighBand(LineAt(line, xs, k))))
  }

  // Where the delay line is between two pairs.
  ghost predicate At(line: seq<Word16>, xs: seq<Word16>, k: nat, now: seq<Word16>) {
    |line| == |now| == 24 && 2 * k <= |xs| && forall i | 2 <= i < 24 :: now[i] == Signal(line, xs, 2 * k + 1 - i)
  }

  lemma NextLine(line: seq<Word16>, xs: seq<Word16>, k: nat, now: seq<Word16>, later: seq<Word16>)
    requires At(line, xs, k, now) && 2 * k + 1 < |xs|
    requires Moved(Line(now, xs[2 * k + 1], xs[2 * k]), later)
    ensures Line(now, xs[2 * k + 1], xs[2 * k]) == LineAt(line, xs, k)
    ensures At(line, xs, k + 1, later)
  {
    var l := Line(now, xs[2 * k + 1], xs[2 * k]);
    forall i | 0 <= i < 24
      ensures l[i] == LineAt(line, xs, k)[i]
    {
      assert LineAt(line, xs, k)[i] == Signal(line, xs, 2 * k + 1 - i);
      if i >= 2 { assert l[i] == now[i] == Signal(line, xs, 2 * k + 1 - i); }
    }
    forall i | 2 <= i < 24
      ensures later[i] == Signal(line, xs, 2 * (k + 1) + 1 - i)
    {
      assert later[i] == l[i - 2];
    }
  }

  lemma NextSent(line: seq<Word16>, xs: seq<Word16>, k: nat, sent: seq<Octet>, states: seq<Coder>, o: Octet, c: Coder)
    requires |line| == 24 && 2 * k + 1 < |xs| && Sends(Bands(line, xs, k), sent, states)
    requires o == Code(states[k], LowBand(LineAt(line, xs, k)), HighBand(LineAt(line, xs, k)))
    requires c == Step(states[k], o % 64, o / 64)
    ensures Sends(Bands(line, xs, k + 1), sent + [o], states + [c])
  {
    hide Code, LowBand, HighBand, LineAt, Step;
    assert forall j | 0 <= j < k :: Bands(line, xs, k + 1)[j] == Bands(line, xs, k)[j];
  }

  class Codec {
    const low: SubBand
    const high: SubBand
    const tx: array<Word16>
    const rx: array<Word16>

    ghost function Arrays(): set<array<Word16>> {
      low.Arrays() + high.Arrays() + {tx, rx}
    }

    ghost predicate Valid() {
      && low.Valid() && high.Valid() && low != high && low.Arrays() !! high.Arrays()
      && tx.Length == rx.Length == 24 && tx != rx
    }

    ghost function View(): Coder
      requires Valid()
      reads low, high, Arrays()
    {
      Coder(low.View(), high.View())
    }

    constructor ()
      ensures Valid() && fresh(low) && fresh(high) && fresh(Arrays())
    {
      low := new SubBand();
      high := new SubBand();
      tx := new Word16[24];
      rx := new Word16[24];
    }

    method ResetEncoder()
      requires Valid()
      modifies low, high, Arrays()
      ensures View() == RESET && forall i | 0 <= i < 24 :: tx[i] == 0
    {
      for j := 0 to 24
        invariant forall i | 0 <= i < j :: tx[i] == 0
      {
        tx[j] := 0;
      }
      low.Reset(32);
      high.Reset(8);
    }

    method ResetDecoder()
      requires Valid()
      modifies low, high, Arrays()
      ensures View() == RESET && forall i | 0 <= i < 24 :: rx[i] == 0
    {
      for j := 0 to 24
        invariant forall i | 0 <= i < j :: rx[i] == 0
      {
        rx[j] := 0;
      }
      low.Reset(32);
      high.Reset(8);
    }

    ghost predicate Foreign(x: array<Word16>) {
      x !in Arrays()
    }

    method EncodeOne(xin1: Word16, xin0: Word16) returns (o: Octet)
      requires Valid()
      modifies low, high, low.Arrays(), high.Arrays(), tx
      ensures var line := Line(old(tx[..]), xin0, xin1);
              o == Code(old(View()), LowBand(line), HighBand(line)) && Moved(line, tx[..])
      ensures View() == Step(old(View()), o % 64, o / 64)
    {
      hide LowStep, HighStep, LowBand, HighBand, LowCode, HighCode, Sub;
      var xl, xh := QmfTx(xin0, xin1, tx);
      var il := low.LsbCod(xl);
      var ih := high.HsbCod(xh);
      o := Pack(ih, il);
    }

    // Code pairs of samples.  Each octet is the code, in the state the octets before it lead to, of the band samples that
    // the exact filters give.
    method Encode(incode: array<Word16>, code: array<Word16>, count: nat)
      returns (n: nat, ghost sent: seq<Octet>, ghost states: seq<Coder>)
      requires Valid() && Foreign(incode) && Foreign(code) && incode != code
      requires count <= incode.Length && count / 2 <= code.Length
      modifies low, high, Arrays(), code
      ensures n == count / 2 && |sent| == n && code[..n] == sent && code[n..] == old(code[n..])
      ensures Sends(Bands(old(tx[..]), incode[..], n), sent, states) && states[0] == old(View()) && states[n] == View()
      ensures At(old(tx[..]), incode[..], n, tx[..]) && rx[..] == old(rx[..])
    {
      hide Sends, Bands, At, Trace, Step, Code;
      ghost var line, xs := tx[..], incode[..];
      n := count / 2;
      sent, states := [], [View()];
      StartOfRun(line, xs, View());
      for i := 0 to n
        invariant |sent| == i && code[..i] == sent && code[n..] == old(code[n..]) && incode[..] == xs
        invariant |states| == i + 1 && states[0] == old(View()) && states[i] == View()
        invariant Sends(Bands(line, xs, i), sent, states) && At(line, xs, i, tx[..]) && rx[..] == old(rx[..])
      {
        label Before:
        var o := EncodeOne(incode[2 * i], incode[2 * i + 1]);
        NextLine(line, xs, i, old@Before(tx[..]), tx[..]);
        NextSent(line, xs, i, sent, states, o, View());
        code[i] := o;
        sent, states := sent + [o], states + [View()];
        assert code[..i + 1] == code[..i] + [o];
      }
    }

    // Decode octets.  The state follows the codes alone; the mode, which only selects how many of the low bits are used,
    // decides what is heard.
    method Decode(code: array<Char>, outcode: array<Word16>, mode: Word16, count: nat)
      returns (n: Word16, ghost os: seq<Octet>, ghost states: seq<Coder>, ghost ys: seq<(Word16, Word16)>)
      requires Valid() && Foreign(outcode) && count <= code.Length && 2 * count <= outcode.Length && count <= MAX_16
      modifies low, high, Arrays(), outcode
      ensures n == Clamp(2 * count, MIN_16, MAX_16)
      ensures Decoded(code[..count], mode, os, states, ys) && states[0] == old(View()) && states[count] == View()
      ensures Played(old(rx[..]), Sums(ys), count, outcode[..2 * count]) && outcode[2 * count..] == old(outcode[2 * count..])
      ensures At(old(rx[..]), Sums(ys), count, rx[..]) && tx[..] == old(tx[..])
    {
      hide At, Decoded, Step, Output, Sums, Played, OctetOf, Shl;
      ghost var line := rx[..];
      os, states, ys := [], [View()], [];
      StartOfPlay(line, View(), mode);
      for i := 0 to count
        invariant Decoded(code[..i], mode, os, states, ys) && states[0] == old(View()) && states[i] == View()
        invariant Played(line, Sums(ys), i, outcode[..2 * i]) && outcode[2 * count..] == old(outcode[2 * count..])
        invariant At(line, Sums(ys), i, rx[..]) && tx[..] == old(tx[..])
      {
        label Before:
        ghost var y;
        var xout1, xout2;
        xout1, xout2, y := DecodeOne(code[i], mode);
        NextPlayed(line, ys, y, i, old@Before(rx[..]), rx[..], outcode[..2 * i], xout1, xout2);
        NextDecoded(code[..i], code[i], mode, os, states, ys, View(), y);
        outcode[2 * i] := xout1;
        outcode[2 * i + 1] := xout2;
        os, states, ys := os + [OctetOf(code[i])], states + [View()], ys + [y];
        assert code[..i + 1] == code[..i] + [code[i]];
        assert outcode[..2 * (i + 1)] == old@Before(outcode[..2 * i]) + [xout1, xout2];
      }
      n := Shl(count, 1);
      ShlMeaning(count, 1);
    }

    method DecodeOne(c: Char, mode: Word16) returns (xout1: Word16, xout2: Word16, ghost y: (Word16, Word16))
      requires Valid()
      modifies low, high, low.Arrays(), high.Arrays(), rx
      ensures y == Output(old(View()), OctetOf(c), mode)
      ensures var line := Line(old(rx[..]), Sub(y.0, y.1), Add(y.0, y.1));
              xout1 == Synthesis(line, 0) && xout2 == Synthesis(line, 1) && Moved(line, rx[..])
      ensures View() == Step(old(View()), OctetOf(c) % 64, OctetOf(c) / 64)
    {
      hide OctetOf, LowBits, HighBitsOf, LowStep, HighStep, Synthesis, Add, Sub, Limit, InvQah, InvQbl;
      var il, ih := LowBits(c), HighBitsOf(c);
      var rl := low.LsbDec(il, mode);
      var rh := high.HsbDec(ih);
      xout1, xout2 := QmfRx(rl, rh, rx);
      y := (rl, rh);
    }
  }

  // Octets that have come through with no more than their two low bits changed.
  ghost predicate ComeThrough(sent: seq<Octet>, code: seq<Char>) {
    |code| == |sent| && forall k | 0 <= k < |sent| :: OctetOf(code[k]) / 4 == sent[k] / 4
  }

  // End to end: from the reset state on, encoder and decoder are in the same state before and after every octet, which is a
  // good one, and what is decoded is what that state makes of the octet that has come.
  lemma EndToEnd(xs: seq<(Word16, Word16)>, sent: seq<Octet>, states: seq<Coder>,
                 code: seq<Char>, mode: Word16, os: seq<Octet>, states': seq<Coder>, ys: seq<(Word16, Word16)>)
    requires Sends(xs, sent, states) && Decoded(code, mode, os, states', ys) && ComeThrough(sent, code)
    requires states[0] == states'[0] == RESET
    ensures states == states' && forall k | 0 <= k < |states| :: Good(states[k])
    ensures forall k | 0 <= k < |ys| :: ys[k] == Output(states[k], OctetOf(code[k]), mode)
  {
    hide Step, Code, Output, OctetOf, Good;
    ResetIsGood();
    forall k | 0 <= k < |states| ensures states[k] == states'[k] && Good(states[k]) {
      InLockstep(sent, states, os, states', k);
      AlwaysGood(sent, states, k);
    }
  }

  // What a line may do to an octet, as the char the decoder takes.
  function Disturbed(o: Octet, low: nat): (c: Char)
    ensures OctetOf(c) / 4 == o / 4
  {
    var x := o / 4 * 4 + low % 4;
    if x < 128 then x else x - 256
  }

  // A new encoder codes a signal.
  method SendAll(incode: array<Word16>) returns (code: array<Word16>, ghost sent: seq<Octet>, ghost states: seq<Coder>)
    ensures fresh(code) && code[..] == sent && |sent| == incode.Length / 2
    ensures Sends(Bands(ZEROS_24, incode[..], incode.Length / 2), sent, states) && states[0] == RESET
  {
    hide Bands, Sends, At, Step;
    var encoder := new Codec();
    encoder.ResetEncoder();
    assert encoder.tx[..] == ZEROS_24;
    code := new Word16[incode.Length / 2];
    var n;
    n, sent, states := encoder.Encode(incode, code, incode.Length);
    assert code[..] == code[..n];
  }

  // A new decoder decodes what has come.
  method HearAll(code: array<Char>, mode: Word16)
    returns (outcode: array<Word16>, ghost os: seq<Octet>, ghost states: seq<Coder>, ghost ys: seq<(Word16, Word16)>)
    requires code.Length <= MAX_16
    ensures Decoded(code[..], mode, os, states, ys) && states[0] == RESET
    ensures outcode.Length == 2 * code.Length && Played(ZEROS_24, Sums(ys), code.Length, outcode[..])
  {
    hide Decoded, Played, Sums, At, Step;
    var decoder := new Codec();
    decoder.ResetDecoder();
    assert decoder.rx[..] == ZEROS_24;
    outcode := new Word16[2 * code.Length];
    var m;
    m, os, states, ys := decoder.Decode(code, outcode, mode, code.Length);
    assert code[..code.Length] == code[..] && outcode[..2 * code.Length] == outcode[..];
  }

  const ZEROS_24: seq<Word16> := seq(24, _ => 0)

  // What a line that spoils no more than the two low bits may make of the octets.
  method Disturb(code: array<Word16>, noise: seq<nat>, ghost sent: seq<Octet>) returns (received: array<Char>)
    requires code[..] == sent && |noise| == code.Length
    ensures fresh(received) && ComeThrough(sent, received[..])
  {
    hide OctetOf, Disturbed;
    received := new Char[code.Length];
    for k := 0 to code.Length
      invariant forall j | 0 <= j < k :: OctetOf(received[j]) / 4 == sent[j] / 4
    {
      assert code[k] == code[..][k] == sent[k];
      received[k] := Disturbed(code[k], noise[k]);
    }
  }

  // The two codecs of a transmission, one at each end, with anything happening to the two low bits of each octet in between:
  // they go through the same states.
  method Transmit(incode: array<Word16>, noise: seq<nat>, mode: Word16)
    returns (outcode: array<Word16>, ghost sent: seq<Octet>, ghost states: seq<Coder>, ghost states': seq<Coder>, ghost ys: seq<(Word16, Word16)>)
    requires incode.Length / 2 <= MAX_16 && |noise| == incode.Length / 2
    ensures Sends(Bands(ZEROS_24, incode[..], incode.Length / 2), sent, states) && states[0] == RESET
    ensures states' == states && |ys| == incode.Length / 2
    ensures exists code :: ComeThrough(sent, code) && Decoded(code, mode, seq(|code|, k requires 0 <= k < |code| => OctetOf(code[k])), states', ys)
    ensures outcode.Length == 2 * |ys| && Played(ZEROS_24, Sums(ys), |ys|, outcode[..])
  {
    hide Bands, Sends, Decoded, Played, Sums, Step;
    var code, received;
    ghost var os;
    code, sent, states := SendAll(incode);
    received := Disturb(code, noise, sent);
    outcode, os, states', ys := HearAll(received, mode);
    EndToEnd(Bands(ZEROS_24, incode[..], incode.Length / 2), sent, states, received[..], mode, os, states', ys);
    TheseOctets(received[..], mode, os, states', ys);
  }

  lemma TheseOctets(code: seq<Char>, mode: Word16, os: seq<Octet>, states: seq<Coder>, ys: seq<(Word16, Word16)>)
    requires Decoded(code, mode, os, states, ys)
    ensures os == seq(|code|, k requires 0 <= k < |code| => OctetOf(code[k]))
  {
    hide OctetOf, Trace, Output;
  }

  // The signal the synthesis filter works on: sums and differences of the band samples in turn.
  function Sums(ys: seq<(Word16, Word16)>): (r: seq<Word16>)
    ensures |r| == 2 * |ys|
  {
    seq(2 * |ys|, m requires 0 <= m < 2 * |ys| => if m % 2 == 0 then Add(ys[m / 2].0, ys[m / 2].1) else Sub(ys[m / 2].0, ys[m / 2].1))
  }

  // The last 46 samples before the end of the k-th pair, newest first.
  function Window(line: seq<Word16>, xs: seq<Word16>, k: nat): (w: seq<Word16>)
    requires |line| == 24 && 11 <= k && 2 * k + 1 < |xs|
    ensures |w| == 46 && forall i | 0 <= i < 46 :: w[i] == Signal(line, xs, 2 * k + 1 - i)
  {
    seq(46, i requires 0 <= i < 46 => Signal(line, xs, 2 * k + 1 - i))
  }

  lemma SeenAt(line: seq<Word16>, xs: seq<Word16>, k: nat, t: nat)
    requires |line| == 24 && 11 <= k && 2 * k + 1 < |xs| && t < 12
    ensures QmfMeaning.Seen(Window(line, xs, k), t) == LineAt(line, xs, k - t)
  {
    forall i | 0 <= i < 24
      ensures QmfMeaning.Seen(Window(line, xs, k), t)[i] == LineAt(line, xs, k - t)[i]
    {
    }
  }

  // A signal that is split into its bands and played again, with nothing in between, comes out as it went in, 22 samples later, but
  // for a 400th of its loudest sample and 8.
  lemma NearlyGivenBack(line: seq<Word16>, xs: seq<Word16>, n: nat, line': seq<Word16>, k: nat, top: int)
    requires |line| == |line'| == 24 && 2 * n <= |xs| && 11 <= k < n && 0 <= top <= 20000
    requires (forall i | 0 <= i < 24 :: -top <= line[i] <= top) && forall i | 0 <= i < |xs| :: -top <= xs[i] <= top
    ensures var l := LineAt(line', Sums(Bands(line, xs, n)), k);
            && -(top + 3200) <= 400 * (Synthesis(l, 0) - xs[2 * k - 22]) <= top + 3200
            && -(top + 3200) <= 400 * (Synthesis(l, 1) - xs[2 * k - 21]) <= top + 3200
  {
    hide Synthesis, LowBand, HighBand, Add, Sub;
    var w, s := Window(line, xs, k), Sums(Bands(line, xs, n));
    var l := LineAt(line', s, k);
    forall t | 0 <= t < 12
      ensures l[2 * t] == Sub(LowBand(QmfMeaning.Seen(w, t)), HighBand(QmfMeaning.Seen(w, t)))
      ensures l[2 * t + 1] == Add(LowBand(QmfMeaning.Seen(w, t)), HighBand(QmfMeaning.Seen(w, t)))
    {
      SeenAt(line, xs, k, t);
      FedBy(line, xs, n, line', k, t);
    }
    assert w[23] == Signal(line, xs, 2 * k + 1 - 23) && w[22] == Signal(line, xs, 2 * k + 1 - 22);
    QmfMeaning.EvenOut(w, l, top);
    QmfMeaning.OddOut(w, l, top);
  }

  lemma FedBy(line: seq<Word16>, xs: seq<Word16>, n: nat, line': seq<Word16>, k: nat, t: nat)
    requires |line| == |line'| == 24 && 2 * n <= |xs| && 11 <= k < n && t < 12
    ensures var l, seen := LineAt(line', Sums(Bands(line, xs, n)), k), LineAt(line, xs, k - t);
            l[2 * t] == Sub(LowBand(seen), HighBand(seen)) && l[2 * t + 1] == Add(LowBand(seen), HighBand(seen))
  {
    hide LowBand, HighBand, Add, Sub;
    var ys := Bands(line, xs, n);
    var s := Sums(ys);
    var j := k - t;
    assert s[2 * j + 1] == Sub(ys[j].0, ys[j].1) && s[2 * j] == Add(ys[j].0, ys[j].1);
    var l := LineAt(line', s, k);
    assert l[2 * t] == Signal(line', s, 2 * k + 1 - 2 * t) == s[2 * j + 1];
    assert l[2 * t + 1] == Signal(line', s, 2 * k + 1 - (2 * t + 1)) == s[2 * j];
  }

  // What has been put out for the first n pairs.
  ghost predicate Played(line: seq<Word16>, xs: seq<Word16>, n: nat, out: seq<Word16>)
  {
    && |line| == 24 && 2 * n <= |xs| && |out| == 2 * n
    && forall k | 0 <= k < n ::
         out[2 * k] == Synthesis(LineAt(line, xs, k), 0) && out[2 * k + 1] == Synthesis(LineAt(line, xs, k), 1)
  }

  // The octets of some chars, the states they lead through and the band samples they are decoded to.
  ghost predicate Decoded(code: seq<Char>, mode: Word16, os: seq<Octet>, states: seq<Coder>, ys: seq<(Word16, Word16)>)
    ensures Decoded(code, mode, os, states, ys) ==> |os| == |ys| == |code| && |states| == |code| + 1
  {
    && |os| == |ys| == |code| && Trace(os, states)
    && forall k | 0 <= k < |code| :: os[k] == OctetOf(code[k]) && ys[k] == Output(states[k], os[k], mode)
  }

  lemma StartOfPlay(line: seq<Word16>, c: Coder, mode: Word16)
    requires |line| == 24
    ensures Decoded([], mode, [], [c], []) && At(line, Sums([]), 0, line) && Played(line, Sums([]), 0, [])
  {
  }

  lemma NextDecoded(code: seq<Char>, c: Char, mode: Word16, os: seq<Octet>, states: seq<Coder>, ys: seq<(Word16, Word16)>,
                    e: Coder, y: (Word16, Word16))
    requires Decoded(code, mode, os, states, ys)
    requires e == Step(states[|os|], OctetOf(c) % 64, OctetOf(c) / 64) && y == Output(states[|os|], OctetOf(c), mode)
    ensures Decoded(code + [c], mode, os + [OctetOf(c)], states + [e], ys + [y])
  {
    hide Step, Output, OctetOf;
  }

  lemma LongerSignal(line: seq<Word16>, xs: seq<Word16>, xs': seq<Word16>, k: nat)
    requires |line| == 24 && 2 * k + 1 < |xs| && xs <= xs'
    ensures LineAt(line, xs, k) == LineAt(line, xs', k)
  {
    forall i | 0 <= i < 24
      ensures LineAt(line, xs, k)[i] == LineAt(line, xs', k)[i]
    {
      var m := 2 * k + 1 - i;
      assert m >= 0 ==> xs[m] == xs'[m];
      assert LineAt(line, xs, k)[i] == Signal(line, xs, m) && LineAt(line, xs', k)[i] == Signal(line, xs', m);
    }
  }

  lemma NextPlayed(line: seq<Word16>, ys: seq<(Word16, Word16)>, y: (Word16, Word16), k: nat, now: seq<Word16>, later: seq<Word16>,
                   out: seq<Word16>, xout1: Word16, xout2: Word16)
    requires |ys| == k && At(line, Sums(ys), k, now) && Played(line, Sums(ys), k, out)
    requires Moved(Line(now, Sub(y.0, y.1), Add(y.0, y.1)), later)
    requires xout1 == Synthesis(Line(now, Sub(y.0, y.1), Add(y.0, y.1)), 0)
    requires xout2 == Synthesis(Line(now, Sub(y.0, y.1), Add(y.0, y.1)), 1)
    ensures Played(line, Sums(ys + [y]), k + 1, out + [xout1, xout2]) && At(line, Sums(ys + [y]), k + 1, later)
  {
    hide Synthesis, LineAt, Add, Sub;
    var xs, xs' := Sums(ys), Sums(ys + [y]);
    assert xs'[2 * k] == Add(y.0, y.1) && xs'[2 * k + 1] == Sub(y.0, y.1);
    assert xs == xs'[..2 * k];
    assert At(line, xs', k, now);
    NextLine(line, xs', k, now, later);
    forall j | 0 <= j < k
      ensures LineAt(line, xs, j) == LineAt(line, xs', j)
    {
      LongerSignal(line, xs, xs', j);
    }
  }

  lemma StartOfRun(line: seq<Word16>, xs: seq<Word16>, c: Coder)
    requires |line| == 24
    ensures Sends(Bands(line, xs, 0), [], [c]) && At(line, xs, 0, line)
  {
  }
}
