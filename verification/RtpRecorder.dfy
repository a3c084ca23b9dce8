// The recorder's sessions, and the index that finds them by the destination of a packet.
module RtpRecorder {
  import opened Basics

  type Word16 = x: int | 0 <= x < 0x1_0000
  type Word32 = x: int | 0 <= x < 0x1_0000_0000

  // Both in network order.
  datatype Address = Address(ip: Word32, port: Word16)

  // To and from network order.
  function Swapped(x: Word16): Word16 {
    x % 256 * 256 + x / 256
  }

  // The port above, where the RTCP packets go.
  function NextPort(port: Word16): Word16 {
    Swapped((Swapped(port) + 1) % 0x1_0000)
  }

  lemma SwappedTwice(x: Word16)
    ensures Swapped(Swapped(x)) == x
  {
    assert (x % 256 * 256 + x / 256) % 256 == x / 256 && (x % 256 * 256 + x / 256) / 256 == x % 256;
  }

  lemma NextPortDiffers(port: Word16)
    ensures NextPort(port) != port
  {
    var next: Word16 := (Swapped(port) + 1) % 0x1_0000;
    SwappedTwice(port);
    SwappedTwice(next);
    hide Swapped;
    assert next != Swapped(port);
  }

  // The number of a port: of the two bytes that lie in memory, the first, which a little-endian machine loads as the low one, is
  // the more significant.
  function PortNumber(port: Word16): (n: nat)
    ensures n < 0x1_0000
  {
    256 * (port % 256) + port / 256
  }

  lemma PortNumberIsUnique(p: Word16, q: Word16)
    requires PortNumber(p) == PortNumber(q)
    ensures p == q
  {
    Bytes(p % 256, p / 256, q % 256, q / 256);
  }

  lemma Bytes(a: nat, b: nat, c: nat, d: nat)
    requires 256 * a + b == 256 * c + d && b < 256 && d < 256
    ensures a == c && b == d
  {
  }

  // The port above has the next number, and above the last one comes the first.
  lemma NextPortIsNext(port: Word16)
    ensures PortNumber(NextPort(port)) == (PortNumber(port) + 1) % 0x1_0000
  {
    var next: Word16 := (Swapped(port) + 1) % 0x1_0000;
    SwappedNumber(port);
    SwappedTwice(next);
    SwappedNumber(Swapped(next));
    hide Swapped, PortNumber;
  }

  lemma SwappedNumber(x: Word16)
    ensures Swapped(x) == PortNumber(x)
  {
  }

  function Key(a: Address): nat {
    a.ip * 0x1_0000 + a.port
  }

  lemma KeyIsUnique(a: Address, b: Address)
    requires Key(a) == Key(b)
    ensures a == b
  {
  }

  function Rtcp(a: Address): Address {
    a.(port := NextPort(a.port))
  }

  // Whether packets to b are for a session with destination a: they go to its port, or to the port with the next number.
  predicate Serves(a: Address, b: Address) {
    b.ip == a.ip && (PortNumber(b.port) == PortNumber(a.port) || PortNumber(b.port) == (PortNumber(a.port) + 1) % 0x1_0000)
  }

  lemma ServesTwo(a: Address, b: Address)
    ensures Serves(a, b) <==> b == a || b == Rtcp(a)
  {
    hide PortNumber, NextPort;
    NextPortIsNext(a.port);
    if Serves(a, b) {
      if PortNumber(b.port) == PortNumber(a.port) {
        PortNumberIsUnique(b.port, a.port);
      } else {
        PortNumberIsUnique(b.port, NextPort(a.port));
      }
    }
  }

  // --- The index: the sessions under each key, in the order in which they came ---

  type Index = map<nat, seq<nat>>

  function Range(index: Index, k: nat): seq<nat> {
    if k in index then index[k] else []
  }

  function Insert(index: Index, k: nat, id: nat): (r: Index)
    ensures forall j: nat :: Range(r, j) == if j == k then Range(index, k) + [id] else Range(index, j)
  {
    index[k := Range(index, k) + [id]]
  }

  function Erase(index: Index, k: nat, id: nat): (r: Index)
    ensures forall j: nat :: Range(r, j) == if j == k then RemoveFirst(Range(index, k), id) else Range(index, j)
  {
    if k !in index || id !in index[k] then index
    else
      var r := RemoveFirst(index[k], id);
      if r == [] then index - {k} else index[k := r]
  }

  // Exactly the live sessions stand in the index, once under each of their two keys.
  ghost predicate Agrees(index: Index, live: map<nat, Address>) {
    && (forall k: nat :: Distinct(Range(index, k)))
    && (forall b: Address, id: nat :: id in Range(index, Key(b)) <==> id in live && Serves(live[id], b))
  }

  lemma CreatedAgrees(index: Index, live: map<nat, Address>, id: nat, a: Address)
    requires Agrees(index, live) && id !in live
    ensures Agrees(Insert(Insert(index, Key(a), id), Key(Rtcp(a)), id), live[id := a])
  {
    hide Insert, Key, NextPort, Distinct, Range, Serves;
    var one := Insert(index, Key(a), id);
    var both := Insert(one, Key(Rtcp(a)), id);
    TwoKeys(a);
    forall k: nat ensures Distinct(Range(both, k)) {
      if k == Key(a) { Appended(index, live, id, a); }
      if k == Key(Rtcp(a)) { Appended(index, live, id, Rtcp(a)); }
    }
    forall b: Address, x: nat ensures x in Range(both, Key(b)) <==> x in live[id := a] && Serves(live[id := a][x], b) {
      ServesTwo(a, b);
      if Key(b) == Key(a) { KeyIsUnique(a, b); }
      if Key(b) == Key(Rtcp(a)) { KeyIsUnique(Rtcp(a), b); }
    }
  }

  lemma TwoKeys(a: Address)
    ensures Key(a) != Key(Rtcp(a))
  {
    NextPortDiffers(a.port);
    if Key(a) == Key(Rtcp(a)) { KeyIsUnique(a, Rtcp(a)); }
  }

  lemma Appended(index: Index, live: map<nat, Address>, id: nat, b: Address)
    requires Agrees(index, live) && id !in live
    ensures Distinct(Range(index, Key(b)) + [id])
  {
    hide Key, Range;
    assert id !in Range(index, Key(b));
  }

  lemma DeletedAgrees(index: Index, live: map<nat, Address>, id: nat)
    requires Agrees(index, live) && id in live
    ensures Agrees(Erase(Erase(index, Key(live[id]), id), Key(Rtcp(live[id])), id), live - {id})
  {
    hide Erase, Key, NextPort, Distinct, Range, Serves;
    var a := live[id];
    var one := Erase(index, Key(a), id);
    var none := Erase(one, Key(Rtcp(a)), id);
    TwoKeys(a);
    Removed(Range(index, Key(a)), id);
    Removed(Range(index, Key(Rtcp(a))), id);
    forall b: Address, x: nat ensures x in Range(none, Key(b)) <==> x in live - {id} && Serves((live - {id})[x], b) {
      ServesTwo(a, b);
      if Key(b) == Key(a) { KeyIsUnique(a, b); }
      if Key(b) == Key(Rtcp(a)) { KeyIsUnique(Rtcp(a), b); }
    }
  }

  class Session {
    const dst: Address
    var recording: bool
    var received: seq<int>

    constructor (dst: Address)
      ensures this.dst == dst && !recording && received == []
    {
      this.dst := dst;
      recording := false;
      received := [];
    }

    // A packet goes on to the library only while the session is being recorded.
    method OnUDPPacket(packet: int)
      modifies `received
      ensures received == if recording then old(received) + [packet] else old(received)
    {
      if recording { received := received + [packet]; }
    }
  }

  class Recorder {
    var sessions: map<nat, Session>
    var index: Index

    ghost function Live(): map<nat, Address>
      reads `sessions
    {
      map id | id in sessions :: sessions[id].dst
    }

    ghost predicate Valid()
      reads `sessions, `index
    {
      Agrees(index, Live()) && forall id, other | id in sessions && other in sessions && id != other :: sessions[id] != sessions[other]
    }

    constructor ()
      ensures Valid() && sessions == map[]
    {
      sessions, index := map[], map[];
    }

    method CreateSession(id: nat, dst: Address)
      requires Valid()
      modifies `sessions, `index
      ensures Valid()
      ensures id in old(sessions) ==> sessions == old(sessions)
      ensures id !in old(sessions) ==>
                && id in sessions && fresh(sessions[id]) && sessions[id].dst == dst && !sessions[id].recording
                && sessions == old(sessions)[id := sessions[id]]
    {
      hide Agrees, Insert;
      if id !in sessions {
        var s := new Session(dst);
        CreatedAgrees(index, Live(), id, dst);
        ghost var live := Live();
        sessions := sessions[id := s];
        index := Insert(index, Key(dst), id);
        index := Insert(index, Key(Rtcp(dst)), id);
        assert Live() == live[id := dst];
      }
    }

    // Take the first entry of a session from under a key.
    method DeleteIpFromMap(a: Address, id: nat)
      modifies `index
      ensures index == Erase(old(index), Key(a), id)
    {
      hide RemoveFirst;
      var k := Key(a);
      if k !in index { return; }
      var r := index[k];
      var i := FindFirst(r, id);
      if i < |r| {
        var rest := r[..i] + r[i + 1..];
        index := if rest == [] then index - {k} else index[k := rest];
      }
    }

    static method FindFirst(r: seq<nat>, id: nat) returns (i: nat)
      ensures i <= |r| && (i < |r| <==> id in r) && (i < |r| ==> RemoveFirst(r, id) == r[..i] + r[i + 1..])
    {
      for j := 0 to |r|
        invariant forall k | 0 <= k < j :: r[k] != id
      {
        if r[j] == id {
          RemovedAt(r, id, j);
          return j;
        }
      }
      return |r|;
    }

    method DeleteSession(id: nat)
      requires Valid()
      modifies `sessions, `index
      ensures Valid() && sessions == old(sessions) - {id}
    {
      hide Agrees, Erase;
      if id in sessions {
        var dst := sessions[id].dst;
        DeletedAgrees(index, Live(), id);
        ghost var live := Live();
        sessions := sessions - {id};
        DeleteIpFromMap(dst, id);
        DeleteIpFromMap(Rtcp(dst), id);
        assert Live() == live - {id};
      }
    }

    method StartRecord(id: nat)
      requires Valid()
      modifies if id in sessions then {sessions[id]} else {}
      ensures Valid() && (id in sessions ==> sessions[id].recording && sessions[id].received == old(sessions[id].received))
    {
      if id in sessions { sessions[id].recording := true; }
    }

    method StopRecord(id: nat)
      requires Valid()
      modifies if id in sessions then {sessions[id]} else {}
      ensures Valid() && (id in sessions ==> !sessions[id].recording && sessions[id].received == old(sessions[id].received))
    {
      if id in sessions { sessions[id].recording := false; }
    }

    // New parameters mean a new session; whether it is being recorded stays.
    method OnSessionModify(id: nat, dst: Address)
      requires Valid()
      modifies `sessions, `index
      ensures Valid() && (id !in old(sessions) ==> sessions == old(sessions))
      ensures id in old(sessions) ==>
                && id in sessions && sessions[id].dst == dst && sessions[id].recording == old(sessions[id].recording)
                && sessions == old(sessions)[id := sessions[id]]
    {
      hide Agrees;
      if id in sessions {
        var recording := sessions[id].recording;
        DeleteSession(id);
        CreateSession(id, dst);
        if recording { sessions[id].recording := true; }
      }
    }

    method OnStopSession(id: nat)
      requires Valid()
      modifies `sessions, `index, if id in sessions then {sessions[id]} else {}
      ensures Valid() && sessions == old(sessions) - {id}
    {
      hide Agrees;
      StopRecord(id);
      DeleteSession(id);
    }

    // Every live session with this destination gets the packet, once, and no other does.
    method OnUDPPacket(to: Address, packet: int)
      requires Valid()
      modifies sessions.Values`received
      ensures Valid()
      ensures forall id | id in sessions ::
                sessions[id].received == old(sessions[id].received) +
                                         if Serves(sessions[id].dst, to) && sessions[id].recording then [packet] else []
    {
      hide Agrees, Serves;
      var range := Range(index, Key(to));
      UnderKey(index, Live(), to);
      for i := 0 to |range|
        invariant forall id | id in sessions ::
                    sessions[id].received == old(sessions[id].received) +
                                             if id in range[..i] && sessions[id].recording then [packet] else []
      {
        assert range[..i + 1] == range[..i] + [range[i]];
        if range[i] in sessions { sessions[range[i]].OnUDPPacket(packet); }
      }
      assert range[..|range|] == range;
    }
  }

  lemma UnderKey(index: Index, live: map<nat, Address>, to: Address)
    requires Agrees(index, live)
    ensures Distinct(Range(index, Key(to)))
    ensures forall id :: id in Range(index, Key(to)) <==> id in live && Serves(live[id], to)
  {
    hide Serves, Distinct, Range, Key;
  }

  // What looking at all sessions, in any order, for those that a packet is for gives.
  function Scan(all: seq<nat>, live: map<nat, Address>, to: Address): seq<nat>
    requires forall id | id in all :: id in live
  {
    if all == [] then []
    else (if Serves(live[all[0]], to) then [all[0]] else []) + Scan(all[1..], live, to)
  }

  lemma {:induction false} Scanned(all: seq<nat>, live: map<nat, Address>, to: Address)
    requires Distinct(all) && forall id | id in all :: id in live
    ensures forall id: nat :: multiset(Scan(all, live, to))[id] == if id in all && Serves(live[id], to) then 1 else 0
  {
    hide Serves;
    if all != [] {
      Scanned(all[1..], live, to);
      assert all == [all[0]] + all[1..] && all[0] !in all[1..];
    }
  }

  lemma {:induction false} Once(s: seq<nat>, x: nat)
    requires Distinct(s)
    ensures multiset(s)[x] == if x in s then 1 else 0
  {
    if s != [] {
      Once(s[1..], x);
      assert s == [s[0]] + s[1..] && s[0] !in s[1..];
    }
  }

  // One look into the index finds each session that a scan of all of them finds, as often, and no other.
  lemma DispatchIsScan(index: Index, live: map<nat, Address>, to: Address, all: seq<nat>)
    requires Agrees(index, live) && Distinct(all) && forall id :: id in all <==> id in live
    ensures multiset(Range(index, Key(to))) == multiset(Scan(all, live, to))
  {
    hide Serves, Distinct, Range, Key;
    Scanned(all, live, to);
    var range := Range(index, Key(to));
    var found: multiset<nat>, looked: multiset<nat> := multiset(Scan(all, live, to)), multiset(range);
    forall id: nat ensures looked[id] == found[id] {
      Once(range, id);
      assert id in range <==> id in live && Serves(live[id], to);
    }
  }
}
