// The audio of one terminal: the mixed local and remote streams come in, and the PBX's, the phone's and the merged audio go out.
module TerminalAudio {
  import opened CircularBuffer
  import opened StreamMixer

  // Gain and gain control: what becomes of the sample at some place of a buffer.
  type Gain = (seq<byte>, nat) -> byte

  function Adjusted(g: Gain, s: seq<byte>): (r: seq<byte>)
    ensures |r| == |s|
  {
    seq(|s|, i requires 0 <= i < |s| => g(s, i))
  }

  // What the two inputs and the three outputs hold.
  datatype Streams = Streams(local: seq<byte>, remote: seq<byte>, pbx: seq<byte>, phone: seq<byte>, merged: seq<byte>)

  // Byte i of the merged audio is the mix of byte i of the PBX's and of the phone's.
  ghost predicate Aligned(f: Format, s: Streams) {
    InStep(f, s.pbx, s.phone, s.merged)
  }

  ghost predicate InStep(f: Format, pbx: seq<byte>, phone: seq<byte>, merged: seq<byte>) {
    && |pbx| == |phone| == |merged|
    && forall i | 0 <= i < |merged| :: IsMix(f, pbx[i], phone[i], merged[i])
  }

  // Where the two are mixed at all, it makes no difference which of them was there first.
  ghost predicate IsMix(f: Format, x: byte, y: byte, m: byte) {
    if f == Other then m == x || m == y else m == MixSample(f, x, y)
  }

  // The merged audio of n bytes of either side.
  function Merged(f: Format, localFirst: bool, pbx: seq<byte>, phone: seq<byte>): (r: seq<byte>)
    requires |pbx| == |phone|
    ensures |r| == |pbx|
  {
    if localFirst then Mixed(f, pbx, phone) else Mixed(f, phone, pbx)
  }

  lemma MergedIsTheMix(f: Format, localFirst: bool, pbx: seq<byte>, phone: seq<byte>)
    requires |pbx| == |phone|
    ensures InStep(f, pbx, phone, Merged(f, localFirst, pbx, phone))
  {
    forall i | 0 <= i < |pbx|
      ensures IsMix(f, pbx[i], phone[i], Merged(f, localFirst, pbx, phone)[i])
    {
      hide G711.ALawToLinear, G711.ULawToLinear, G711.LinearToALaw, G711.LinearToULaw, Blend;
      if f != Other { MixCommutes(f, pbx[i], phone[i]); }
    }
  }

  // One poll: of both inputs the same front goes out, as much as both have.
  function Next(f: Format, s: Streams, gl: Gain, gr: Gain, recording: bool, size: nat): Streams {
    var n := Min(|s.local|, |s.remote|);
    var left := s.(local := s.local[n..], remote := s.remote[n..]);
    if n == 0 || !recording then left
    else Added(f, left, |s.local| < |s.remote|, Adjusted(gr, s.remote[..n]), Adjusted(gl, s.local[..n]), size)
  }

  function Added(f: Format, s: Streams, localFirst: bool, pbx: seq<byte>, phone: seq<byte>, size: nat): Streams
    requires |pbx| == |phone|
  {
    s.(pbx := Last(s.pbx + pbx, size), phone := Last(s.phone + phone, size),
       merged := Last(s.merged + Merged(f, localFirst, pbx, phone), size))
  }

  datatype Channel = Pbx | Phone | Merging

  function Of(s: Streams, c: Channel): seq<byte> {
    match c case Pbx => s.pbx case Phone => s.phone case Merging => s.merged
  }

  // As many bytes as asked for and there leave the front of one output.
  function Dropped(s: Streams, c: Channel, max: nat): Streams {
    var rest := Of(s, c)[Min(max, |Of(s, c)|)..];
    match c case Pbx => s.(pbx := rest) case Phone => s.(phone := rest) case Merging => s.(merged := rest)
  }

  // One call for data.
  function Fetched(s: Streams, max: nat): Streams {
    Dropped(Dropped(Dropped(s, Pbx, max), Phone, max), Merging, max)
  }

  lemma AddedKeepsAligned(f: Format, s: Streams, localFirst: bool, pbx: seq<byte>, phone: seq<byte>, size: nat)
    requires Aligned(f, s) && |pbx| == |phone|
    ensures Aligned(f, Added(f, s, localFirst, pbx, phone, size))
  {
    hide IsMix, Merged, InStep, Last;
    var m := Merged(f, localFirst, pbx, phone);
    MergedIsTheMix(f, localFirst, pbx, phone);
    InStepAll(f, s.pbx, s.phone, s.merged, pbx, phone, m);
    InStepLast(f, s.pbx + pbx, s.phone + phone, s.merged + m, size);
  }

  lemma InStepAll(f: Format, pbx: seq<byte>, phone: seq<byte>, merged: seq<byte>, p: seq<byte>, q: seq<byte>, m: seq<byte>)
    requires InStep(f, pbx, phone, merged) && InStep(f, p, q, m)
    ensures InStep(f, pbx + p, phone + q, merged + m)
  {
    hide IsMix;
  }

  lemma InStepLast(f: Format, pbx: seq<byte>, phone: seq<byte>, merged: seq<byte>, n: nat)
    requires InStep(f, pbx, phone, merged)
    ensures InStep(f, Last(pbx, n), Last(phone, n), Last(merged, n))
  {
    hide IsMix;
  }

  // Whatever the gains are, and however much the outputs have had to give up, a poll keeps the audio aligned.
  lemma NextKeepsAligned(f: Format, s: Streams, gl: Gain, gr: Gain, recording: bool, size: nat)
    requires Aligned(f, s)
    ensures Aligned(f, Next(f, s, gl, gr, recording, size))
  {
    hide IsMix, Added;
    var n := Min(|s.local|, |s.remote|);
    var left := s.(local := s.local[n..], remote := s.remote[n..]);
    if n > 0 && recording {
      AddedKeepsAligned(f, left, |s.local| < |s.remote|, Adjusted(gr, s.remote[..n]), Adjusted(gl, s.local[..n]), size);
    }
  }

  // All three give as many bytes, those of the same moments.
  lemma FetchedKeepsAligned(f: Format, s: Streams, max: nat)
    requires Aligned(f, s)
    ensures Aligned(f, Fetched(s, max))
    ensures var n := Min(max, |s.merged|); Aligned(f, s.(pbx := s.pbx[..n], phone := s.phone[..n], merged := s.merged[..n]))
  {
    hide IsMix;
  }

  method ApplyGain(buffer: array<byte>, n: nat, g: Gain)
    requires n <= buffer.Length
    modifies buffer
    ensures buffer[..n] == Adjusted(g, old(buffer[..n])) && buffer[n..] == old(buffer[n..])
  {
    ghost var b := buffer[..];
    var s := buffer[..n];
    for i := 0 to n
      invariant forall j | 0 <= j < buffer.Length :: buffer[j] == if j < i then g(s, j) else b[j]
    {
      buffer[i] := g(s, i);
    }
  }

  // An input with a ring of twice the usual length.
  method NewInput(id: nat) returns (x: MixerInput)
    ensures fresh(x) && fresh(x.buffer) && fresh(x.buffer.data) && x.buffer.Valid()
    ensures x.id == id && !x.processed && x.buffer.size == 2 * BUFFER_SIZE && x.buffer.Contents() == []
  {
    x := new MixerInput(id, BUFFER_SIZE);
    x.buffer.SetBufferLength(x.buffer.size * 2);
  }

  method NewOutputs() returns (p: CircularBuffer, q: CircularBuffer, m: CircularBuffer)
    ensures fresh(p) && fresh(p.data) && p.Valid() && p.size == IRD_DEFAULTSIZE && p.Contents() == []
    ensures fresh(q) && fresh(q.data) && q.Valid() && q.size == IRD_DEFAULTSIZE && q.Contents() == []
    ensures fresh(m) && fresh(m.data) && m.Valid() && m.size == IRD_DEFAULTSIZE && m.Contents() == []
    ensures p !in {q, m} && q != m && p.data !in {q.data, m.data} && q.data != m.data
  {
    hide View, After;
    p := new CircularBuffer(IRD_DEFAULTSIZE);
    q := new CircularBuffer(IRD_DEFAULTSIZE);
    m := new CircularBuffer(IRD_DEFAULTSIZE);
  }

  class TerminalAudio {
    const format: Format
    const local: MixerInput
    const remote: MixerInput
    const mixed: array<byte>
    const current: array<byte>
    const pbx: CircularBuffer
    const phone: CircularBuffer
    const merged: CircularBuffer
    var recording: bool

    ghost predicate Valid()
      reads local.buffer, remote.buffer, pbx, phone, merged
      ensures Valid() ==> Apart()
    {
      && local.buffer.Valid() && remote.buffer.Valid() && pbx.Valid() && phone.Valid() && merged.Valid()
      && pbx.size == phone.size == merged.size
      && Fits(local.buffer) && Fits(remote.buffer) && Apart()
    }

    ghost predicate Fits(b: CircularBuffer)
      reads b
    {
      b.size <= mixed.Length && b.size <= current.Length
    }

    ghost predicate Apart()
      reads local.buffer`data, remote.buffer`data, pbx`data, phone`data, merged`data
    {
      && local != remote && mixed != current
      && local.buffer !in {remote.buffer, pbx, phone, merged} && remote.buffer !in {pbx, phone, merged}
      && pbx !in {phone, merged} && phone != merged
      && mixed !in {local.buffer.data, remote.buffer.data, pbx.data, phone.data, merged.data}
      && current !in {local.buffer.data, remote.buffer.data, pbx.data, phone.data, merged.data}
      && local.buffer.data !in {remote.buffer.data, pbx.data, phone.data, merged.data}
      && remote.buffer.data !in {pbx.data, phone.data, merged.data}
      && pbx.data !in {phone.data, merged.data} && phone.data != merged.data
    }

    // Everything that the five rings hold.
    ghost function Held(): Streams
      requires Valid()
      reads local.buffer, remote.buffer, pbx, phone, merged
      reads local.buffer.data, remote.buffer.data, pbx.data, phone.data, merged.data
    {
      Streams(local.buffer.Contents(), remote.buffer.Contents(), pbx.Contents(), phone.Contents(), merged.Contents())
    }

    // What every public operation keeps.
    ghost predicate Sound()
      reads local.buffer, remote.buffer, pbx, phone, merged
      reads local.buffer.data, remote.buffer.data, pbx.data, phone.data, merged.data
    {
      Valid() && Aligned(format, Held())
    }

    constructor (f: Format)
      ensures Valid() && format == f && !recording && Held() == Streams([], [], [], [], []) && Sound()
    {
      hide View, After, IsMix;
      format := f;
      recording := false;
      var l := NewInput(0);
      var r := NewInput(1);
      local, remote := l, r;
      mixed := new byte[r.buffer.size];
      current := new byte[r.buffer.size];
      var p, q, m := NewOutputs();
      pbx, phone, merged := p, q, m;
    }

    // Take the same front from both inputs, that of the first into the mixed buffer.
    method TakeBoth(localFirst: bool, n: nat)
      requires Valid() && n > 0 && n <= local.buffer.count && n <= remote.buffer.count
      modifies mixed, current, local.buffer`count, local.buffer`getPtr, remote.buffer`count, remote.buffer`getPtr
      ensures Valid() && n <= mixed.Length && n <= current.Length && n <= |old(Held()).local| && n <= |old(Held()).remote|
      ensures Held() == old(Held()).(local := old(Held()).local[n..], remote := old(Held()).remote[n..])
      ensures mixed[..n] == if localFirst then old(Held()).local[..n] else old(Held()).remote[..n]
      ensures current[..n] == if localFirst then old(Held()).remote[..n] else old(Held()).local[..n]
    {
      hide View, After;
      var r;
      if localFirst {
        r := local.buffer.GetData(mixed, n, false);
        r := remote.buffer.GetData(current, n, false);
      } else {
        r := remote.buffer.GetData(mixed, n, false);
        r := local.buffer.GetData(current, n, false);
      }
    }

    // Put both sides into their outputs.
    method AddBoth(pbxData: seq<byte>, phoneData: seq<byte>)
      requires Valid()
      modifies pbx`count, pbx`getPtr, pbx`putPtr, pbx.data, phone`count, phone`getPtr, phone`putPtr, phone.data
      ensures Valid()
      ensures Held() == old(Held()).(pbx := Last(old(Held()).pbx + pbxData, pbx.size), phone := Last(old(Held()).phone + phoneData, pbx.size))
    {
      hide View, After, Last;
      phone.AddData(phoneData);
      pbx.AddData(pbxData);
    }

    method AddMerged(data: seq<byte>)
      requires Valid()
      modifies merged`count, merged`getPtr, merged`putPtr, merged.data
      ensures Valid() && Held() == old(Held()).(merged := Last(old(Held()).merged + data, pbx.size))
    {
      hide View, After, Last;
      merged.AddData(data);
    }

    method Amplify(n: nat, gm: Gain, gc: Gain)
      requires Valid() && n <= mixed.Length && n <= current.Length
      modifies mixed, current
      ensures Valid() && Held() == old(Held())
      ensures mixed[..n] == Adjusted(gm, old(mixed[..n])) && current[..n] == Adjusted(gc, old(current[..n]))
    {
      hide View, After, Adjusted;
      ApplyGain(mixed, n, gm);
      ApplyGain(current, n, gc);
    }

    method Mix(n: nat)
      requires Valid() && n <= mixed.Length && n <= current.Length
      modifies mixed
      ensures Valid() && Held() == old(Held()) && mixed[..n] == Mixed(format, current[..n], old(mixed[..n]))
    {
      hide View, After, Mixed;
      MixPcmBuffers(format, current, mixed, n);
    }

    // With remoteMixing the mixed buffer holds the remote data, and else the local.
    method MixAndNotify(remoteMixing: bool, n: nat, gl: Gain, gr: Gain)
      requires Valid() && n <= mixed.Length && n <= current.Length
      modifies mixed, current
      modifies pbx`count, pbx`getPtr, pbx`putPtr, pbx.data, phone`count, phone`getPtr, phone`putPtr, phone.data
      modifies merged`count, merged`getPtr, merged`putPtr, merged.data
      ensures Valid()
      ensures var (l, r) := if remoteMixing then (old(current[..n]), old(mixed[..n])) else (old(mixed[..n]), old(current[..n]));
              Held() == Added(format, old(Held()), !remoteMixing, Adjusted(gr, r), Adjusted(gl, l), pbx.size)
    {
      hide View, After, Last, Valid, Held, Adjusted, Mixed;
      Amplify(n, if remoteMixing then gr else gl, if remoteMixing then gl else gr);
      if remoteMixing { AddBoth(mixed[..n], current[..n]); } else { AddBoth(current[..n], mixed[..n]); }
      Mix(n);
      AddMerged(mixed[..n]);
    }

    // Take from both inputs as much as both have; with the recording off it is lost.
    method PoolMin(gl: Gain, gr: Gain)
      requires Valid()
      modifies mixed, current, local.buffer`count, local.buffer`getPtr, remote.buffer`count, remote.buffer`getPtr
      modifies pbx`count, pbx`getPtr, pbx`putPtr, pbx.data, phone`count, phone`getPtr, phone`putPtr, phone.data
      modifies merged`count, merged`getPtr, merged`putPtr, merged.data
      ensures Valid() && Held() == Next(format, old(Held()), gl, gr, recording, pbx.size)
    {
      hide View, After, Last, Adjusted, Mixed, Added, Valid;
      var localFirst := local.buffer.count < remote.buffer.count;
      var n := if localFirst then local.buffer.count else remote.buffer.count;
      if n > 0 {
        TakeBoth(localFirst, n);
        if recording { MixAndNotify(!localFirst, n, gl, gr); }
      }
    }

    // When both inputs have been flushed since the last time, poll.
    method Poll(gl: Gain, gr: Gain)
      requires Sound()
      modifies mixed, current, local.buffer`count, local.buffer`getPtr, remote.buffer`count, remote.buffer`getPtr
      modifies pbx`count, pbx`getPtr, pbx`putPtr, pbx.data, phone`count, phone`getPtr, phone`putPtr, phone.data
      modifies merged`count, merged`getPtr, merged`putPtr, merged.data, local`processed, remote`processed
      ensures Sound()
      ensures if old(local.processed && remote.processed)
              then !local.processed && !remote.processed && Held() == Next(format, old(Held()), gl, gr, recording, pbx.size)
              else local.processed == old(local.processed) && remote.processed == old(remote.processed) && Held() == old(Held())
    {
      hide View, After, Last, Next, Valid, Held, Aligned;
      if !local.processed || !remote.processed { return; }
      NextKeepsAligned(format, Held(), gl, gr, recording, pbx.size);
      PoolMin(gl, gr);
      local.processed := false;
      remote.processed := false;
    }

    // One side's mixer puts data into its input.
    method Receive(remoteSide: bool, data: seq<byte>)
      requires Sound()
      modifies if remoteSide then remote.buffer else local.buffer
      modifies if remoteSide then remote.buffer.data else local.buffer.data
      ensures Sound()
      ensures Held() == if remoteSide then old(Held()).(remote := Last(old(Held()).remote + data, remote.buffer.size))
                        else old(Held()).(local := Last(old(Held()).local + data, local.buffer.size))
    {
      hide View, After, Last, IsMix;
      if remoteSide { remote.buffer.AddData(data); } else { local.buffer.AddData(data); }
    }

    // And then flushes it.
    method Flush(remoteSide: bool, gl: Gain, gr: Gain)
      requires Sound()
      modifies mixed, current, local.buffer`count, local.buffer`getPtr, remote.buffer`count, remote.buffer`getPtr
      modifies pbx`count, pbx`getPtr, pbx`putPtr, pbx.data, phone`count, phone`getPtr, phone`putPtr, phone.data
      modifies merged`count, merged`getPtr, merged`putPtr, merged.data, local`processed, remote`processed
      ensures Sound()
      ensures var polled := if remoteSide then old(local.processed) else old(remote.processed);
              Held() == if polled then Next(format, old(Held()), gl, gr, recording, pbx.size) else old(Held())
    {
      hide View, After, Last, Next, Valid, Held, Aligned;
      assert local != remote;
      if remoteSide { remote.processed := true; } else { local.processed := true; }
      Poll(gl, gr);
    }

    // One of the outputs.
    function Ring(c: Channel): CircularBuffer {
      match c case Pbx => pbx case Phone => phone case Merging => merged
    }

    // Hand out the next bytes of one of the outputs.
    method Fetch(c: Channel, max: nat, put: array?<byte>) returns (n: nat)
      requires Valid() && Receives(max, put)
      modifies Ring(c)`count, Ring(c)`getPtr, if put == null then {} else {put}
      ensures Valid() && Held() == Dropped(old(Held()), c, max)
      ensures var s := Of(old(Held()), c);
              var k := Min(max, |s|);
              && n == (if max == 0 then |s| else if put == null then 0 else k)
              && (put != null ==> k <= put.Length && put[..k] == s[..k])
    {
      hide View, After;
      n := Ring(c).GetData(put, max, false);
    }

    // Hand out the next bytes of all three outputs, with the recording on.
    method GetAudioData(max: nat, toPbx: array?<byte>, toPhone: array?<byte>, toMerged: array?<byte>) returns (n: nat)
      requires Sound() && Receives(max, toPbx) && Receives(max, toPhone) && Receives(max, toMerged)
      requires (toPbx == null || toPbx !in {toPhone, toMerged}) && (toPhone == null || toPhone != toMerged)
      modifies pbx`count, pbx`getPtr, phone`count, phone`getPtr, merged`count, merged`getPtr
      modifies if toPbx == null then {} else {toPbx}
      modifies if toPhone == null then {} else {toPhone}
      modifies if toMerged == null then {} else {toMerged}
      ensures Sound() && Held() == if recording then Fetched(old(Held()), max) else old(Held())
      ensures var k := Min(max, |old(Held()).merged|);
              && n == (if !recording then 0 else if max == 0 then |old(Held()).merged| else if toMerged == null then 0 else k)
              && (recording && toPbx != null ==> k <= toPbx.Length && toPbx[..k] == old(Held()).pbx[..k])
              && (recording && toPhone != null ==> k <= toPhone.Length && toPhone[..k] == old(Held()).phone[..k])
              && (recording && toMerged != null ==> k <= toMerged.Length && toMerged[..k] == old(Held()).merged[..k])
    {
      hide View, After, IsMix, Valid, Held;
      if !recording { return 0; }
      n := Fetch(Pbx, max, toPbx);
      n := Fetch(Phone, max, toPhone);
      n := Fetch(Merging, max, toMerged);
    }

    // A destination with enough room that is none of the terminal's own arrays.
    ghost predicate Receives(max: nat, put: array?<byte>)
      reads local.buffer`data, remote.buffer`data, pbx`data, phone`data, merged`data
    {
      put != null ==>
        && max <= put.Length && put != mixed && put != current
        && put !in {local.buffer.data, remote.buffer.data, pbx.data, phone.data, merged.data}
    }

    method SetRecording(on: bool)
      requires Sound()
      modifies `recording
      ensures Sound() && recording == on && Held() == old(Held())
    {
      recording := on;
    }
  }
}
