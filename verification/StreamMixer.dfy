// Mixing companded streams of bytes.
module StreamMixer {
  import opened CircularBuffer
  import G711

  const BUFFER_SIZE: nat := 800  // 100 ms of 8 samples

  datatype Format = ALaw | MuLaw | Other

  // Division that rounds towards zero.
  function Quotient(a: int, b: int): int
    requires b > 0
  {
    if a >= 0 then a / b else -(-a / b)
  }

  function Blend(a: int, b: int): int {
    a + b - Quotient(a * b, 65535)
  }

  // Two samples mixed; in an unknown format the second stays.
  function MixSample(f: Format, x: byte, y: byte): byte {
    match f
    case ALaw => G711.LinearToALaw(Blend(G711.ALawToLinear(x), G711.ALawToLinear(y)))
    case MuLaw => G711.LinearToULaw(Blend(G711.ULawToLinear(x), G711.ULawToLinear(y)))
    case Other => y
  }

  // Which of two samples was there first makes no difference.
  lemma MixCommutes(f: Format, x: byte, y: byte)
    requires f != Other
    ensures MixSample(f, x, y) == MixSample(f, y, x)
  {
    BlendCommutes(G711.ALawToLinear(x), G711.ALawToLinear(y));
    BlendCommutes(G711.ULawToLinear(x), G711.ULawToLinear(y));
    hide Blend, G711.ALawToLinear, G711.ULawToLinear, G711.LinearToALaw, G711.LinearToULaw;
  }

  lemma BlendCommutes(a: int, b: int)
    ensures Blend(a, b) == Blend(b, a)
  {
    assert a * b == b * a;
  }

  function Mixed(f: Format, x: seq<byte>, y: seq<byte>): (r: seq<byte>)
    requires |x| == |y|
    ensures |r| == |x|
  {
    seq(|x|, i requires 0 <= i < |x| => MixSample(f, x[i], y[i]))
  }

  // Mix the current buffer into the mixed one.
  method MixPcmBuffers(f: Format, current: array<byte>, mixed: array<byte>, n: nat)
    requires current != mixed && n <= current.Length && n <= mixed.Length
    modifies mixed
    ensures mixed[..n] == Mixed(f, current[..n], old(mixed[..n])) && mixed[n..] == old(mixed[n..])
  {
    hide MixSample;
    ghost var m := mixed[..];
    for i := 0 to n
      invariant forall j | 0 <= j < mixed.Length :: mixed[j] == if j < i then MixSample(f, current[j], m[j]) else m[j]
    {
      mixed[i] := MixSample(f, current[i], mixed[i]);
    }
  }

  class MixerInput {
    const id: nat
    const buffer: CircularBuffer
    var processed: bool

    constructor (id: nat, size: nat)
      ensures fresh(buffer) && fresh(buffer.data) && buffer.Valid() && buffer.size == size && buffer.Contents() == [] && !processed && this.id == id
    {
      this.id := id;
      buffer := new CircularBuffer(size);
      processed := false;
    }
  }

  // Mixing the first k of some pieces one after the other into the one at b.
  function MixAll(f: Format, fronts: seq<seq<byte>>, b: nat, k: nat): (r: seq<byte>)
    requires b < |fronts| && k <= |fronts| && forall i | 0 <= i < |fronts| :: |fronts[i]| == |fronts[b]|
    ensures |r| == |fronts[b]|
  {
    if k == 0 then fronts[b]
    else (var r := MixAll(f, fronts, b, k - 1); if k - 1 == b then r else Mixed(f, fronts[k - 1], r))
  }

  class StreamMixer {
    const format: Format
    var inputs: seq<MixerInput>
    const mixed: array<byte>
    const current: array<byte>

    ghost function Buffers(): set<CircularBuffer>
      reads `inputs
    {
      set x | x in inputs :: x.buffer
    }

    ghost function Arrays(): set<array<byte>>
      reads `inputs, Buffers()
    {
      set x | x in inputs :: x.buffer.data
    }

    ghost predicate Valid()
      reads `inputs, Buffers()
      ensures Valid() ==> forall i | 0 <= i < |inputs| :: inputs[i].buffer.Valid()
    {
      && (forall i | 0 <= i < |inputs| :: inputs[i] in inputs)
      && mixed != current
      && (forall x | x in inputs :: Fits(x))
      && forall i, j | 0 <= i < j < |inputs| :: Apart(inputs[i], inputs[j])
    }

    ghost predicate Fits(x: MixerInput)
      reads x.buffer
    {
      x.buffer.Valid() && x.buffer.size <= mixed.Length && x.buffer.size <= current.Length && x.buffer.data != mixed && x.buffer.data != current
    }

    static ghost predicate Apart(x: MixerInput, y: MixerInput)
      reads x.buffer, y.buffer
    {
      x != y && x.buffer != y.buffer && x.buffer.data != y.buffer.data
    }

    constructor (f: Format, size: nat)
      ensures Valid() && inputs == [] && format == f && fresh(mixed) && fresh(current) && mixed.Length == current.Length == size
    {
      format := f;
      inputs := [];
      mixed := new byte[size];
      current := new byte[size];
    }

    method CreateInput(id: nat) returns (x: MixerInput)
      requires Valid() && mixed.Length >= BUFFER_SIZE && current.Length >= BUFFER_SIZE
      modifies `inputs
      ensures Valid() && fresh(x) && fresh(x.buffer) && inputs == old(inputs) + [x] && x.buffer.Valid() && x.buffer.Contents() == []
    {
      x := new MixerInput(id, BUFFER_SIZE);
      inputs := inputs + [x];
    }

    method IsAllStreamsProcessed() returns (all: bool)
      requires Valid()
      ensures Valid() && Held() == old(Held()) && (all <==> AllProcessed())
    {
      hide HeldBy, View, After;
      for i := 0 to |inputs|
        invariant forall j | 0 <= j < i :: inputs[j].processed
      {
        if !inputs[i].processed {
          assert inputs[i] in inputs;
          return false;
        }
      }
      return true;
    }

    method SetAllStreamsProcessed(p: bool)
      requires Valid()
      modifies inputs`processed
      ensures Valid() && Held() == old(Held()) && forall x | x in inputs :: x.processed == p
    {
      hide View, After, HeldBy;
      for i := 0 to |inputs|
        invariant forall j | 0 <= j < i :: inputs[j].processed == p
      {
        inputs[i].processed := p;
      }
    }

    // The first of the inputs with the least data.
    method FindMin() returns (n: nat, b: nat)
      requires Valid() && inputs != []
      ensures Valid() && Held() == old(Held()) && Least(Held(), n, b)
    {
      hide HeldBy, View, After;
      n, b := inputs[0].buffer.count, 0;
      for i := 0 to |inputs|
        invariant b < |inputs| && n == inputs[b].buffer.count && (b < i || i == b == 0)
        invariant forall j | 0 <= j < i :: n <= inputs[j].buffer.count
        invariant forall j | 0 <= j < b :: n < inputs[j].buffer.count
      {
        if n > inputs[i].buffer.count {
          n, b := inputs[i].buffer.count, i;
        }
      }
    }

    // Take n bytes from the front of one input.
    method Take(i: nat, put: array<byte>, n: nat)
      requires Valid() && i < |inputs| && 0 < n <= inputs[i].buffer.count && (put == mixed || put == current)
      modifies inputs[i].buffer`count, inputs[i].buffer`getPtr, put
      ensures Valid() && n <= mixed.Length && n <= current.Length
      ensures n <= |old(Held())[i]| && Held() == old(Held())[i := old(Held())[i][n..]] && put[..n] == old(Held())[i][..n]
    {
      hide HeldBy, View, After;
      assert Fits(inputs[i]);
      assert forall j | 0 <= j < |inputs| && j != i :: Apart(inputs[i], inputs[j]) || Apart(inputs[j], inputs[i]);
      var r := inputs[i].buffer.GetData(put, n, false);
    }

    // Mix the first n bytes of all inputs into those of input b.
    method MixStreams(n: nat, b: nat)
      requires Valid() && 0 < n && Least(Held(), n, b)
      modifies mixed, current, Buffers()`count, Buffers()`getPtr
      ensures Valid() && n <= mixed.Length && Polled(format, old(Held()), n, b, mixed[..n], Held())
    {
      hide Valid, HeldBy, View, After, Mixed, Held, Mixing, MixAll, Fronts, Polled;
      ghost var held := Held();
      Take(b, mixed, n);
      MixingStarts(format, held, n, b, mixed[..n], Held());
      for i := 0 to |inputs|
        invariant Valid() && n <= mixed.Length && n <= current.Length
        invariant Mixing(format, held, n, b, i, mixed[..n], Held())
      {
        ghost var out, rest := mixed[..n], Held();
        MixingKeeps(format, held, n, b, i, out, rest);
        if i != b { MixIn(i, n); }
        MixingGoesOn(format, held, n, b, i, out, rest, mixed[..n], Held());
      }
      MixingEnds(format, held, n, b, mixed[..n], Held());
    }

    // Mix the first bytes of one input in.  None holds less than n, so nothing is filled up with silence.
    method MixIn(i: nat, n: nat)
      requires Valid() && i < |inputs| && 0 < n <= |Held()[i]| && n <= mixed.Length && n <= current.Length
      modifies mixed, current, inputs[i].buffer`count, inputs[i].buffer`getPtr
      ensures Valid() && n <= |old(Held())[i]| && Held() == old(Held())[i := old(Held())[i][n..]]
      ensures mixed[..n] == Mixed(format, old(Held())[i][..n], old(mixed[..n]))
    {
      hide HeldBy, View, After, Mixed;
      Take(i, current, n);
      MixPcmBuffers(format, current, mixed, n);
    }

    // When every input has been flushed since the last time, the same number of bytes, the least that any holds, is taken
    // from the front of each, and as many are put out.
    method Poll() returns (out: seq<byte>, ghost n: nat, ghost b: nat)
      requires Valid()
      modifies mixed, current, inputs`processed, Buffers()`count, Buffers()`getPtr
      ensures Valid() && |out| == n
      ensures !old(AllProcessed()) ==> n == 0 && Held() == old(Held()) && forall x | x in inputs :: x.processed == old(x.processed)
      ensures old(AllProcessed()) ==> forall x | x in inputs :: !x.processed
      ensures old(AllProcessed()) ==> if inputs == [] then n == 0 else Polled(format, old(Held()), n, b, out, Held())
    {
      hide HeldBy, View, After, MixAll, Held, Valid;
      out, n, b := [], 0, 0;
      var all := IsAllStreamsProcessed();
      if !all { return; }
      if inputs != [] { out, n, b := MixLeast(); }
      SetAllStreamsProcessed(false);
    }

    method MixLeast() returns (out: seq<byte>, ghost n: nat, ghost b: nat)
      requires Valid() && inputs != []
      modifies mixed, current, Buffers()`count, Buffers()`getPtr
      ensures Valid() && |out| == n && Polled(format, old(Held()), n, b, out, Held())
    {
      hide HeldBy, View, After, MixAll, Held, Valid;
      var least, base := FindMin();
      n, b := least, base;
      if least > 0 {
        MixStreams(least, base);
        out := mixed[..least];
      } else {
        NothingMixed(format, Fronts(Held(), 0), b, |inputs|);
        assert forall i | 0 <= i < |inputs| :: Held()[i][0..] == Held()[i];
        out := [];
      }
    }

    ghost predicate AllProcessed()
      reads `inputs, inputs`processed
    {
      forall x | x in inputs :: x.processed
    }

    // What the inputs hold.
    ghost function Held(): (h: seq<seq<byte>>)
      requires Valid()
      reads `inputs, Buffers(), Arrays()
      ensures |h| == |inputs| && forall i | 0 <= i < |h| :: inputs[i].buffer.Valid() && h[i] == inputs[i].buffer.Contents()
    {
      HeldBy(inputs, |inputs|)
    }
  }

  ghost function HeldBy(xs: seq<MixerInput>, n: nat): (h: seq<seq<byte>>)
    requires n <= |xs| && forall i | 0 <= i < |xs| :: xs[i].buffer.Valid()
    reads (set i | 0 <= i < |xs| :: xs[i].buffer), set i | 0 <= i < |xs| :: xs[i].buffer.data
    ensures |h| == n && forall i | 0 <= i < n :: h[i] == xs[i].buffer.Contents()
  {
    if n == 0 then [] else HeldBy(xs, n - 1) + [xs[n - 1].buffer.Contents()]
  }

  lemma {:induction false} NothingMixed(f: Format, fronts: seq<seq<byte>>, b: nat, k: nat)
    requires b < |fronts| && k <= |fronts| && forall i | 0 <= i < |fronts| :: fronts[i] == []
    ensures MixAll(f, fronts, b, k) == []
  {
  }

  // n is the least length, and b the first to have it.
  ghost predicate Least(held: seq<seq<byte>>, n: nat, b: nat) {
    b < |held| && n == |held[b]| && (forall i | 0 <= i < |held| :: n <= |held[i]|) && forall i | 0 <= i < b :: n < |held[i]|
  }

  // n bytes, the least that anyone held, have been taken from each and mixed.
  ghost predicate Polled(f: Format, held: seq<seq<byte>>, n: nat, b: nat, out: seq<byte>, rest: seq<seq<byte>>) {
    Least(held, n, b) && Rest(held, n, rest) && out == MixAll(f, Fronts(held, n), b, |held|)
  }

  // After n bytes have been taken from b and from the first i, and mixed.
  ghost predicate Mixing(f: Format, held: seq<seq<byte>>, n: nat, b: nat, i: nat, out: seq<byte>, rest: seq<seq<byte>>) {
    && Least(held, n, b) && |rest| == |held| && i <= |held|
    && (forall j | 0 <= j < |held| :: rest[j] == if j < i || j == b then held[j][n..] else held[j])
    && out == MixAll(f, Fronts(held, n), b, i)
  }

  lemma MixingStarts(f: Format, held: seq<seq<byte>>, n: nat, b: nat, out: seq<byte>, rest: seq<seq<byte>>)
    requires Least(held, n, b) && rest == held[b := held[b][n..]] && out == held[b][..n]
    ensures Mixing(f, held, n, b, 0, out, rest)
  {
  }

  // The next input is still as it was.
  lemma MixingKeeps(f: Format, held: seq<seq<byte>>, n: nat, b: nat, i: nat, out: seq<byte>, rest: seq<seq<byte>>)
    requires Mixing(f, held, n, b, i, out, rest) && i < |held|
    ensures |rest| == |held| && |out| == n && (i != b ==> rest[i] == held[i]) && n <= |held[i]|
  {
  }

  lemma MixingGoesOn(f: Format, held: seq<seq<byte>>, n: nat, b: nat, i: nat, out: seq<byte>, rest: seq<seq<byte>>,
                     out': seq<byte>, rest': seq<seq<byte>>)
    requires Mixing(f, held, n, b, i, out, rest) && i < |held| == |rest| && |out| == n <= |held[i]|
    requires if i == b then out' == out && rest' == rest else rest' == rest[i := held[i][n..]] && out' == Mixed(f, held[i][..n], out)
    ensures Mixing(f, held, n, b, i + 1, out', rest')
  {
    hide Mixed;
  }

  lemma MixingEnds(f: Format, held: seq<seq<byte>>, n: nat, b: nat, out: seq<byte>, rest: seq<seq<byte>>)
    requires Mixing(f, held, n, b, |held|, out, rest)
    ensures Polled(f, held, n, b, out, rest)
  {
  }

  // After n bytes have been taken from each.
  ghost predicate Rest(held: seq<seq<byte>>, n: nat, rest: seq<seq<byte>>) {
    |rest| == |held| && forall i | 0 <= i < |held| :: n <= |held[i]| && rest[i] == held[i][n..]
  }

  // The first n bytes of each.
  ghost function Fronts(held: seq<seq<byte>>, n: nat): (r: seq<seq<byte>>)
    requires forall i | 0 <= i < |held| :: n <= |held[i]|
    ensures |r| == |held| && forall i | 0 <= i < |r| :: r[i] == held[i][..n]
  {
    seq(|held|, i requires 0 <= i < |held| => held[i][..n])
  }
}
