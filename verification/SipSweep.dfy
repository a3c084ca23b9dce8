// What a sweep of the registrations deletes, and what it does not.
module SipSweep {
  import opened Basics
  import opened Chains
  import opened HashTable
  import opened SipRecords
  import opened SipTables

  // A registration that nobody refers to and that is over or has expired.
  predicate Due(x: Registration, now: int) {
    x.colSession == 0 && (IsOver(x) || (x.status == ST_REGISTER && Past(x, now)))
  }

  predicate IsOver(x: Registration) {
    x.status == ST_END_USER_REGISTER || x.status == ST_ERROR_REGISTER
  }

  predicate Past(x: Registration, now: int) {
    x.expires + x.lastMessage + MAX_TIME_REGISTRY < now
  }

  ghost predicate InUse(f: Files, r: nat) {
    r < |f.regs| && f.regs[r].name.Some?
  }

  ghost function Hash(f: Files, r: nat): int
    requires InUse(f, r)
  {
    SDBM(f.regs[r].name.value)
  }

  // The chain in which a registration is filed.
  ghost function ChainOf(f: Files, r: nat): seq<nat>
    requires InUse(f, r)
  {
    Of(f.chains, Hash(f, r))
  }

  lemma Member(f: Files, r: nat, h: int)
    requires f.Sound()
    ensures r in Of(f.chains, h) <==> InUse(f, r) && Hash(f, r) == h
    ensures Distinct(Of(f.chains, h))
  {
    hide Of, SDBM, Distinct;
    assert r in f.Hashed() <==> InUse(f, r);
  }

  // A registration is in its chain, which has a head.
  lemma Heads(f: Files, r: nat)
    requires f.Sound() && InUse(f, r)
    ensures var c := ChainOf(f, r); r in c && c != [] && InUse(f, c[0]) && Hash(f, c[0]) == Hash(f, r)
  {
    hide Of, SDBM, Chained;
    Member(f, r, Hash(f, r));
    Member(f, ChainOf(f, r)[0], Hash(f, r));
  }

  // A deletion takes the head of the chain if and only if nobody refers to it, so it takes the registration that is meant if and
  // only if that is the head and nobody refers to it.
  lemma VictimIsHead(f: Files, r: nat)
    requires f.Sound() && InUse(f, r)
    ensures ChainOf(f, r) != []
    ensures var head := ChainOf(f, r)[0];
            && head < |f.regs| && f.Victim(r) == (if f.regs[head].colSession > 0 then None else Some(head))
            && (f.Victim(r) == Some(r) <==> head == r && f.regs[r].colSession <= 0)
  {
    hide Of, SDBM;
    Heads(f, r);
  }

  // Deleting keeps the chains right; the next in the chain becomes its head.
  lemma {:induction false} DeletedSound(f: Files, r: nat)
    requires f.Sound() && r < |f.regs|
    ensures f.Deleted(r).Sound()
    ensures f.Victim(r).Some? ==> forall h: int ::
              Of(f.Deleted(r).chains, h) == if h == Hash(f, r) then Of(f.chains, h)[1..] else Of(f.chains, h)
  {
    hide Of, SDBM, Chained, Drop;
    var v := f.Victim(r);
    if v.Some? {
      var h := Hash(f, r);
      Heads(f, r);
      Dropped(f.chains, f.Hashed(), h, v.value) by { Member(f, v.value, h); HashedOf(f, v.value); }
      LostKey(f, v.value);
      DropHead(f.chains, h, v.value);
    }
  }

  lemma HashedOf(f: Files, r: nat)
    requires InUse(f, r)
    ensures r in f.Hashed() && f.Hashed()[r] == Hash(f, r)
  {
  }

  lemma LostKey(f: Files, v: nat)
    requires v < |f.regs|
    ensures Files(f.regs[v := NO_REGISTRATION], f.chains).Hashed() == f.Hashed() - {v}
  {
    hide SDBM;
  }

  lemma DropHead(c: Chains, h: int, v: nat)
    requires Of(c, h) != [] && Of(c, h)[0] == v
    ensures forall j: int :: Of(Drop(c, h, v), j) == if j == h then Of(c, h)[1..] else Of(c, j)
  {
  }

  // Marking a registration changes neither names nor chains.
  ghost function Marked(f: Files, r: nat): Files
    requires r < |f.regs|
  {
    Files(f.regs[r := f.regs[r].(status := ST_END_EXPIRY_REGISTER)], f.chains)
  }

  lemma MarkedSound(f: Files, r: nat)
    requires f.Sound() && r < |f.regs|
    ensures Marked(f, r).Sound() && (InUse(f, r) ==> InUse(Marked(f, r), r) && ChainOf(Marked(f, r), r) == ChainOf(f, r))
  {
    hide SDBM, Of, Chained;
    assert Marked(f, r).Hashed() == f.Hashed();
  }

  // A visit to one that is not due changes nothing, and a visit to one that is due may delete twice.
  lemma VisitCases(f: Files, r: nat, now: int)
    requires r < |f.regs|
    ensures !InUse(f, r) || !Due(f.regs[r], now) ==> f.Visited(r, now) == f
    ensures InUse(f, r) && Due(f.regs[r], now) ==>
              f.Visited(r, now) == (if f.regs[r].status == ST_REGISTER then Marked(f, r).Deleted(r) else f.Deleted(r).Expired(r, now))
  {
    hide Files.Deleted;
  }

  // What a visit does to a registration that is due: it is deleted if and only if it is the head of its chain, or comes second
  // behind one that nobody refers to and is visited for both reasons, being over and past its time.
  lemma {:induction false} VisitExact(f: Files, r: nat, now: int)
    requires f.Sound() && InUse(f, r) && Due(f.regs[r], now)
    ensures !InUse(f.Visited(r, now), r) <==> Goes(f, r, now)
  {
    hide Of, SDBM, Chained, Files.Victim, Files.Sound, Files.Visited;
    VisitCases(f, r, now);
    VictimIsHead(f, r);
    var c := ChainOf(f, r);
    if f.regs[r].status == ST_REGISTER {
      MarkedSound(f, r);
      VictimIsHead(Marked(f, r), r);
    } else {
      DeletedSound(f, r);
      var g := f.Deleted(r);
      if c[0] != r {
        assert g.regs[r] == f.regs[r] && ChainOf(g, r) == if f.Victim(r).Some? then c[1..] else c;
        MarkedSound(g, r);
        VictimIsHead(Marked(g, r), r);
      }
    }
  }

  // Whether a visit to a registration that is due deletes it.
  ghost predicate Goes(f: Files, r: nat, now: int)
    requires InUse(f, r)
  {
    var c := ChainOf(f, r);
    && c != [] && c[0] < |f.regs|
    && (c[0] == r || (|c| > 1 && c[1] == r && f.regs[c[0]].colSession <= 0 && IsOver(f.regs[r]) && Past(f.regs[r], now)))
  }

  // One chain is the rest of another.
  predicate Ends(s: seq<nat>, t: seq<nat>) {
    |s| <= |t| && s == t[|t| - |s|..]
  }

  // What a sweep may do at all: nothing is renamed and no count changes, only registrations that nobody refers to are gone, and
  // each chain has lost nothing but its front.
  ghost predicate Shed(f: Files, g: Files) {
    && g.Sound() && |g.regs| == |f.regs|
    && (forall q: nat | InUse(g, q) :: InUse(f, q) && g.regs[q].name == f.regs[q].name && g.regs[q].colSession == f.regs[q].colSession)
    && (forall q: nat | InUse(f, q) && !InUse(g, q) :: f.regs[q].colSession <= 0)
    && forall h: int :: Ends(Of(g.chains, h), Of(f.chains, h))
  }

  lemma {:induction false} ShedNothing(f: Files)
    requires f.Sound()
    ensures Shed(f, f)
  {
    hide Of, Chained;
  }

  lemma {:induction false} ShedMore(f: Files, g: Files, k: Files)
    requires Shed(f, g) && Shed(g, k)
    ensures Shed(f, k)
  {
    hide Of, Files.Sound;
    forall h: int ensures Ends(Of(k.chains, h), Of(f.chains, h)) {
      assert Ends(Of(k.chains, h), Of(g.chains, h)) && Ends(Of(g.chains, h), Of(f.chains, h));
    }
  }

  lemma {:induction false} ShedDeleted(f: Files, r: nat)
    requires f.Sound() && r < |f.regs|
    ensures Shed(f, f.Deleted(r))
  {
    hide Of, SDBM, Chained, Drop, Files.Sound;
    DeletedSound(f, r);
    if f.Victim(r).None? { ShedNothing(f); }
  }

  lemma {:induction false} ShedMarked(f: Files, r: nat)
    requires f.Sound() && r < |f.regs|
    ensures Shed(f, Marked(f, r))
  {
    hide Of, SDBM, Chained, Files.Sound;
    MarkedSound(f, r);
  }

  lemma {:induction false} ShedExpired(f: Files, r: nat, now: int)
    requires f.Sound() && r < |f.regs|
    ensures Shed(f, f.Expired(r, now))
  {
    hide Files.Deleted, Files.Sound, Shed, Chained;
    ShedNothing(f);
    ShedMarked(f, r);
    MarkedSound(f, r);
    ShedDeleted(Marked(f, r), r);
    ShedMore(f, Marked(f, r), Marked(f, r).Deleted(r));
  }

  lemma {:induction false} ShedVisited(f: Files, r: nat, now: int)
    requires f.Sound() && r < |f.regs|
    ensures Shed(f, f.Visited(r, now))
  {
    hide Files.Deleted, Files.Expired, Files.Sound, Shed, Chained;
    ShedNothing(f);
    ShedDeleted(f, r);
    DeletedSound(f, r);
    ShedExpired(f, r, now);
    ShedExpired(f.Deleted(r), r, now);
    ShedMore(f, f.Deleted(r), f.Deleted(r).Expired(r, now));
  }

  // The same for all the visits of a sweep from one record to another.
  lemma {:induction false} ShedSwept(f: Files, i: nat, j: nat, now: int)
    requires f.SweptTo(i, now).Sound() && i <= j
    ensures Shed(f.SweptTo(i, now), f.SweptTo(j, now))
    decreases j - i
  {
    hide Files.Visited, Files.Sound, Shed;
    if i == j {
      ShedNothing(f.SweptTo(i, now));
    } else {
      ShedSwept(f, i, j - 1, now);
      var g := f.SweptTo(j - 1, now);
      SoundAfter(f.SweptTo(i, now), g);
      if j <= |f.regs| {
        ShedVisited(g, j - 1, now);
        ShedMore(f.SweptTo(i, now), g, f.SweptTo(j, now));
      }
    }
  }

  lemma {:induction false} SweptSound(f: Files, i: nat, now: int)
    requires f.Sound()
    ensures f.SweptTo(i, now).Sound() && Shed(f, f.SweptTo(i, now))
  {
    hide Shed, Files.Sound;
    ShedSwept(f, 0, i, now);
    SoundAfter(f, f.SweptTo(i, now));
  }

  lemma SoundAfter(f: Files, g: Files)
    requires Shed(f, g)
    ensures g.Sound() && |g.regs| == |f.regs|
  {
  }

  // A record that has not been visited yet is as it was, or gone.
  lemma {:induction false} Unvisited(f: Files, i: nat, q: nat, now: int)
    requires f.Sound() && i <= q < |f.regs| && InUse(f.SweptTo(i, now), q)
    ensures InUse(f, q) && f.SweptTo(i, now).regs[q] == f.regs[q]
    decreases i
  {
    hide Files.Visited, Files.Sound, Shed, Due, IsOver, Past;
    if i > 0 {
      SweptSound(f, i - 1, now);
      var g := f.SweptTo(i - 1, now);
      VisitOthers(g, i - 1, q, now);
      Unvisited(f, i - 1, q, now);
    }
  }

  // A visit changes another record only by deleting it, and another chain not at all.
  lemma VisitOthers(f: Files, r: nat, q: nat, now: int)
    requires f.Sound() && r < |f.regs| && r != q
    ensures InUse(f.Visited(r, now), q) ==> InUse(f, q) && f.Visited(r, now).regs[q] == f.regs[q]
  {
    hide Of, SDBM, Drop, Files.Sound, Due, IsOver, Past;
  }

  lemma VisitOtherChains(f: Files, r: nat, h: int, now: int)
    requires f.Sound() && r < |f.regs| && !(InUse(f, r) && Hash(f, r) == h && Due(f.regs[r], now))
    ensures Of(f.Visited(r, now).chains, h) == Of(f.chains, h)
  {
    hide Of, SDBM, Chained, Drop, Files.Sound, Files.Victim, Due, Files.Visited;
    VisitCases(f, r, now);
    if InUse(f, r) && Due(f.regs[r], now) {
      MarkedSound(f, r);
      DeletedSound(f, r);
      DeletedSound(Marked(f, r), r);
      var g := f.Deleted(r);
      if InUse(g, r) {
        ShedDeleted(f, r);
      }
      MarkedSound(g, r);
      DeletedSound(Marked(g, r), r);
    }
  }

  // A chain loses something only to the visit of a registration in it that is due.
  lemma {:induction false} ChainKept(f: Files, h: int, i: nat, j: nat, now: int)
    requires f.Sound() && i <= j <= |f.regs|
    requires forall q: nat | i <= q < j && InUse(f, q) && Hash(f, q) == h :: !Due(f.regs[q], now)
    ensures Of(f.SweptTo(j, now).chains, h) == Of(f.SweptTo(i, now).chains, h)
    decreases j - i
  {
    hide Of, SDBM, Files.Sound, Files.Visited, Due, Shed;
    if i < j {
      ChainKept(f, h, i, j - 1, now);
      var g := f.SweptTo(j - 1, now);
      SweptSound(f, j - 1, now);
      if InUse(g, j - 1) { Unvisited(f, j - 1, j - 1, now); }
      VisitOtherChains(g, j - 1, h, now);
    }
  }

  lemma NextVisit(f: Files, r: nat, now: int)
    requires r < |f.regs|
    ensures f.SweptTo(r + 1, now) == f.SweptTo(r, now).Visited(r, now)
  {
    hide Files.Visited;
  }

  // What is gone stays gone.
  lemma {:induction false} StaysGone(f: Files, r: nat, i: nat, n: nat, now: int)
    requires f.Sound() && i <= n && !InUse(f.SweptTo(i, now), r)
    ensures !InUse(f.SweptTo(n, now), r)
  {
    hide Files.SweptTo, Files.Sound, Of;
    SweptSound(f, i, now);
    ShedSwept(f, i, n, now);
  }

  // A registration that is due and heads its chain does not survive a sweep.
  lemma {:induction false} HeadGoes(f: Files, r: nat, n: nat, now: int)
    requires f.Sound() && InUse(f, r) && Due(f.regs[r], now) && ChainOf(f, r) != [] && ChainOf(f, r)[0] == r && r < n
    ensures !InUse(f.SweptTo(n, now), r)
  {
    hide Of, SDBM, Files.Sound, Files.Visited, Files.SweptTo, Due, IsOver, Past, Shed;
    var g := f.SweptTo(r, now);
    SweptSound(f, r, now);
    NextVisit(f, r, now);
    if InUse(g, r) {
      Unvisited(f, r, r, now);
      StillHead(f, g, r);
      assert ChainOf(g, r)[0] < |g.regs|;
      VisitExact(g, r, now);
    } else {
      StaysGone(f, r, r, r + 1, now);
    }
    StaysGone(f, r, r + 1, n, now);
  }

  lemma {:induction false} StillHead(f: Files, g: Files, r: nat)
    requires f.Sound() && Shed(f, g) && InUse(g, r) && ChainOf(f, r) != [] && ChainOf(f, r)[0] == r
    ensures ChainOf(g, r) != [] && ChainOf(g, r)[0] == r
  {
    hide Of, SDBM, Files.Sound;
    Member(f, r, Hash(f, r));
    Member(g, r, Hash(g, r));
    var c, d := ChainOf(f, r), ChainOf(g, r);
    assert Ends(Of(g.chains, Hash(f, r)), Of(f.chains, Hash(f, r)));
    var k :| 0 <= k < |d| && d[k] == r;
    assert c[|c| - |d| + k] == r;
  }

  // A registration behind one that somebody refers to survives any sweep.
  lemma {:induction false} BehindOneInUse(f: Files, r: nat, k: nat, i: nat, n: nat, now: int)
    requires f.Sound() && InUse(f, r) && k < i < |ChainOf(f, r)| && ChainOf(f, r)[i] == r
    requires ChainOf(f, r)[k] < |f.regs| && f.regs[ChainOf(f, r)[k]].colSession > 0
    ensures InUse(f.SweptTo(n, now), r)
  {
    hide Of, SDBM, Files.Sound, Files.SweptTo;
    var c, g, h := ChainOf(f, r), f.SweptTo(n, now), Hash(f, r);
    SweptSound(f, n, now);
    Member(f, c[k], h);
    Member(g, c[k], h);
    Member(g, r, h);
    var d := Of(g.chains, h);
    assert Ends(d, c);
    var m :| 0 <= m < |d| && d[m] == c[k];
    assert c[|c| - |d| + m] == c[k];
    assert d[m + i - k] == r;
  }

  // The only registration of its chain that is due goes in a sweep if and only if it is the head, or comes second behind one
  // that nobody refers to and is both over and past its time.
  lemma {:induction false} OnlyDueExact(f: Files, r: nat, n: nat, now: int)
    requires f.Sound() && InUse(f, r) && Due(f.regs[r], now) && r < n <= |f.regs|
    requires forall q: nat | q != r && q < |f.regs| && q in ChainOf(f, r) :: !Due(f.regs[q], now)
    ensures !InUse(f.SweptTo(n, now), r) <==> Goes(f, r, now)
  {
    hide Of, SDBM, Files.Sound, Files.Visited, Files.SweptTo, Due, Goes, Shed, Distinct;
    var g, h := f.SweptTo(r, now), Hash(f, r);
    forall q: nat | q != r && InUse(f, q) && Hash(f, q) == h ensures !Due(f.regs[q], now) { Member(f, q, h); }
    SweptSound(f, r, now);
    SweptSound(f, r + 1, now);
    SweptSound(f, n, now);
    ChainKept(f, h, 0, r, now);
    ChainKept(f, h, r + 1, n, now);
    SweptNot(f, now);
    Member(f, r, h);
    Member(g, r, h);
    Unvisited(f, r, r, now);
    SameGoes(f, g, r, now);
    VisitExact(g, r, now);
    NextVisit(f, r, now);
    StillIn(f, f.SweptTo(r + 1, now), r);
    StillIn(f, f.SweptTo(n, now), r);
  }

  lemma SweptNot(f: Files, now: int)
    ensures f.SweptTo(0, now) == f
  {
  }

  lemma StillIn(f: Files, g: Files, r: nat)
    requires f.Sound() && Shed(f, g) && InUse(f, r)
    ensures InUse(g, r) <==> r in Of(g.chains, Hash(f, r))
  {
    hide Of, SDBM, Files.Sound;
    Member(g, r, Hash(f, r));
  }

  lemma SameGoes(f: Files, g: Files, r: nat, now: int)
    requires f.Sound() && Shed(f, g) && InUse(f, r) && InUse(g, r) && f.regs[r] == g.regs[r] && ChainOf(g, r) == ChainOf(f, r)
    ensures Goes(g, r, now) <==> Goes(f, r, now)
  {
    hide Of, SDBM, Files.Sound, IsOver, Past;
    Heads(g, r);
  }

  // --- How far a sweep gets into a chain ---

  // Whether nobody refers to the k-th registration of a chain.
  ghost predicate Idle(f: Files, c: seq<nat>, k: nat) {
    k < |c| && c[k] < |f.regs| && f.regs[c[k]].colSession <= 0
  }

  // How many are gone from the front of a chain after a visit to r, when k are gone before it: one more if nobody refers to the
  // new head, and another one if r, which is still there, is visited for both reasons.
  ghost function Next(f: Files, c: seq<nat>, k: nat, r: nat, now: int): (n: nat)
    requires k <= |c|
    ensures k <= n <= |c|
  {
    if !InUse(f, r) || !Due(f.regs[r], now) || r !in c[k..] || !Idle(f, c, k) then k
    else if c[k] != r && IsOver(f.regs[r]) && Past(f.regs[r], now) && Idle(f, c, k + 1) then k + 2
    else k + 1
  }

  // How many are gone from the front of the chain of a hash after a sweep has visited the first i records, by what the chain and
  // the records are like before the sweep.
  ghost function Gone(f: Files, h: int, i: nat, now: int): (n: nat)
    ensures n <= |Of(f.chains, h)|
  {
    if i == 0 then 0 else Next(f, Of(f.chains, h), Gone(f, h, i - 1, now), i - 1, now)
  }

  // One visit to a registration that is due and still in its chain.
  lemma {:induction false} VisitChain(f: Files, r: nat, now: int)
    requires f.Sound() && InUse(f, r) && Due(f.regs[r], now)
    ensures var c := ChainOf(f, r); Of(f.Visited(r, now).chains, Hash(f, r)) == c[Next(f, c, 0, r, now)..]
  {
    hide Of, SDBM, Chained, Files.Victim, Files.Sound, Files.Visited;
    VisitCases(f, r, now);
    VictimIsHead(f, r);
    Heads(f, r);
    var c := ChainOf(f, r);
    assert c[0..] == c;
    if f.regs[r].status == ST_REGISTER {
      MarkedSound(f, r);
      VictimIsHead(Marked(f, r), r);
      DeletedSound(Marked(f, r), r);
    } else {
      DeletedSound(f, r);
      var g := f.Deleted(r);
      if c[0] == r {
        assert !InUse(g, r);
        Unnamed(g, r, now);
      } else {
        assert g.regs[r] == f.regs[r] && ChainOf(g, r) == if f.Victim(r).Some? then c[1..] else c;
        MarkedSound(g, r);
        Heads(Marked(g, r), r);
        VictimIsHead(Marked(g, r), r);
        DeletedSound(Marked(g, r), r);
      }
    }
  }

  lemma Unnamed(f: Files, r: nat, now: int)
    requires r < |f.regs| && !InUse(f, r)
    ensures f.Expired(r, now).chains == f.chains
  {
  }

  // The same visit seen from the chain as it was before the sweep.
  lemma NextFrom(f: Files, g: Files, r: nat, k: nat, now: int)
    requires Shed(f, g) && f.Sound() && InUse(f, r) && InUse(g, r) && g.regs[r] == f.regs[r] && Due(f.regs[r], now)
    requires k <= |ChainOf(f, r)| && ChainOf(g, r) == ChainOf(f, r)[k..]
    ensures Next(f, ChainOf(f, r), k, r, now) == k + Next(g, ChainOf(g, r), 0, r, now)
  {
    hide Of, SDBM, Chained, Files.Sound, Due, IsOver, Past;
    var c, d, h := ChainOf(f, r), ChainOf(g, r), Hash(f, r);
    Member(g, r, h);
    SoundAfter(f, g);
    assert d[0..] == d;
    SameIdle(f, g, h, k, 0);
    SameIdle(f, g, h, k, 1);
  }

  lemma SameIdle(f: Files, g: Files, h: int, k: nat, j: nat)
    requires f.Sound() && Shed(f, g) && k <= |Of(f.chains, h)| && Of(g.chains, h) == Of(f.chains, h)[k..]
    ensures Idle(g, Of(g.chains, h), j) <==> Idle(f, Of(f.chains, h), k + j)
  {
    hide Of, SDBM, Chained, Files.Sound;
    var d := Of(g.chains, h);
    if j < |d| {
      SoundAfter(f, g);
      Member(g, d[j], h);
    }
  }

  // A sweep takes that many from the front of a chain, and no others.
  lemma {:induction false} GoneExact(f: Files, h: int, i: nat, now: int)
    requires f.Sound() && i <= |f.regs|
    ensures Of(f.SweptTo(i, now).chains, h) == Of(f.chains, h)[Gone(f, h, i, now)..]
  {
    hide Of, SDBM, Files.Sound, Files.Visited, Due, Shed, Next;
    if i > 0 {
      var r, g := i - 1, f.SweptTo(i - 1, now);
      GoneExact(f, h, r, now);
      SweptSound(f, r, now);
      SoundAfter(f, g);
      var k := Gone(f, h, r, now);
      if InUse(g, r) { Unvisited(f, r, r, now); }
      if InUse(g, r) && Hash(g, r) == h && Due(g.regs[r], now) {
        NextFrom(f, g, r, k, now);
        VisitChain(g, r, now);
        Tail(Of(f.chains, h), k, Next(g, ChainOf(g, r), 0, r, now));
      } else {
        VisitOtherChains(g, r, h, now);
        NotNext(f, g, h, k, r, now);
      }
    }
  }

  lemma Tail(c: seq<nat>, k: nat, n: nat)
    requires k + n <= |c|
    ensures c[k..][n..] == c[k + n..]
  {
  }

  // A visit to a registration of another chain, or to one that is not due or not there any more, is no step.
  lemma NotNext(f: Files, g: Files, h: int, k: nat, r: nat, now: int)
    requires f.Sound() && Shed(f, g) && k <= |Of(f.chains, h)| && Of(g.chains, h) == Of(f.chains, h)[k..]
    requires InUse(g, r) ==> InUse(f, r) && g.regs[r] == f.regs[r]
    requires !(InUse(g, r) && Hash(g, r) == h && Due(g.regs[r], now))
    ensures Next(f, Of(f.chains, h), k, r, now) == k
  {
    hide Of, SDBM, Chained, Files.Sound, Due, Idle;
    SoundAfter(f, g);
    Member(g, r, h);
  }

  // A registration is gone after a sweep if and only if it is among the first of its chain, as many as the sweep takes from it.
  lemma {:induction false} SweepExact(f: Files, r: nat, n: nat, now: int)
    requires f.Sound() && InUse(f, r) && n <= |f.regs|
    ensures !InUse(f.SweptTo(n, now), r) <==> r in ChainOf(f, r)[..Gone(f, Hash(f, r), n, now)]
  {
    hide Of, SDBM, Files.Sound, Files.SweptTo, Shed, Gone;
    var c, h, k := ChainOf(f, r), Hash(f, r), Gone(f, Hash(f, r), n, now);
    SweptSound(f, n, now);
    GoneExact(f, h, n, now);
    StillIn(f, f.SweptTo(n, now), r);
    Member(f, r, h);
    EitherPart(c, k, r);
  }

  lemma EitherPart(c: seq<nat>, k: nat, r: nat)
    requires Distinct(c) && k <= |c| && r in c
    ensures r in c[..k] <==> r !in c[k..]
  {
    assert c == c[..k] + c[k..];
  }

  // Without a registration that is due a chain keeps all it has.
  lemma {:induction false} NoneDue(f: Files, r: nat, n: nat, now: int)
    requires f.Sound() && InUse(f, r) && n <= |f.regs|
    requires forall q: nat | q < |f.regs| && q in ChainOf(f, r) :: !Due(f.regs[q], now)
    ensures InUse(f.SweptTo(n, now), r)
  {
    hide Of, SDBM, Files.Sound, Files.Visited, Files.SweptTo, Due, Shed, Distinct;
    var h := Hash(f, r);
    forall q: nat | InUse(f, q) && Hash(f, q) == h ensures !Due(f.regs[q], now) { Member(f, q, h); }
    ChainKept(f, h, 0, n, now);
    SweptNot(f, now);
    SweptSound(f, n, now);
    Member(f, r, h);
    StillIn(f, f.SweptTo(n, now), r);
  }

  // Two registrations with one hash: the first is not due, the second is over but not past its time.
  ghost function Pair(now: int): Files {
    Files([Registration(Some(D98), ST_RECEIVE_NOTIFY, 0, now, false, 0), Registration(Some(D98WI8), ST_END_USER_REGISTER, 0, now, false, 0)]
          + seq(CFG_SIP_REG_TABLE_SIZE - 2, _ => NO_REGISTRATION), map[829889699 := [0, 1]])
  }

  lemma PairSound(now: int)
    ensures |Pair(now).regs| == CFG_SIP_REG_TABLE_SIZE && Pair(now).Sound()
    ensures InUse(Pair(now), 0) && InUse(Pair(now), 1) && Hash(Pair(now), 0) == Hash(Pair(now), 1) == 829889699
    ensures forall q: nat | InUse(Pair(now), q) :: q < 2
  {
    hide SDBM;
    SameHash();
    var f := Pair(now);
    assert forall q: nat | 2 <= q < |f.regs| :: f.regs[q] == NO_REGISTRATION;
    assert f.regs[0].name == Some(D98) && f.regs[1].name == Some(D98WI8);
  }

  lemma PairChains(now: int)
    requires InUse(Pair(now), 0) && InUse(Pair(now), 1) && Hash(Pair(now), 0) == Hash(Pair(now), 1) == 829889699
    ensures ChainOf(Pair(now), 0) == ChainOf(Pair(now), 1) == [0, 1]
  {
    hide SDBM;
  }

  // The sweep deletes the one that is not due, and the one that is due survives it.
  lemma WrongOneGoes(now: int)
    ensures var f, g := Pair(now), Pair(now).SweptTo(CFG_SIP_REG_TABLE_SIZE, now);
            f.Sound() && InUse(f, 0) && !Due(f.regs[0], now) && !InUse(g, 0) && InUse(f, 1) && Due(f.regs[1], now) && InUse(g, 1)
  {
    hide SDBM, Files.SweptTo, Files.Visited, Files.Sound, Files.Victim, Chained, Drop, Of;
    var f := Pair(now);
    PairSound(now);
    PairChains(now);
    OnlyDueExact(f, 1, CFG_SIP_REG_TABLE_SIZE, now);
    SweptNot(f, now);
    NextVisit(f, 0, now);
    VisitCases(f, 0, now);
    NextVisit(f, 1, now);
    VisitCases(f, 1, now);
    VictimIsHead(f, 1);
    DeletedSound(f, 1);
    StaysGone(f, 0, 2, CFG_SIP_REG_TABLE_SIZE, now) by { assert !InUse(f.Deleted(1), 0); }
  }
}
