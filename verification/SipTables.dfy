// The tables of registrations and calls: pools, reference counts, the state of each call and what its listeners hear.
// A message or a sweep is one step.
module SipTables {
  import opened Basics
  import opened Chains
  import opened HashTable
  import opened SipRecords

  // A pool of n records: the free ones are stacked, the others hang in the table.
  ghost predicate Pool(n: nat, free: seq<nat>, countFree: int, table: set<nat>)
    ensures Pool(n, free, countFree, table) ==> countFree == |free| && forall r | r in table :: r < n
  {
    && Distinct(free) && countFree == |free| && |free| + |table| == n
    && (forall r | r in table :: r < n) && (forall r | r in free :: r < n && r !in table)
    && forall r: nat | r < n :: r in table || r in free
  }

  lemma Take(n: nat, free: seq<nat>, table: set<nat>)
    requires Pool(n, free, |free|, table) && free != []
    ensures free[0] < n && free[0] !in table && Pool(n, free[1..], |free| - 1, table + {free[0]})
  {
    var f := free[1..];
    assert forall i | 0 <= i < |f| :: f[i] == free[i + 1];
    assert free[0] in free && forall r | r in f :: r in free && r != free[0];
    forall r: nat | r < n
      ensures r in table + {free[0]} || r in f
    {
      if r in free && r != free[0] {
        var i :| 0 <= i < |free| && free[i] == r;
        assert f[i - 1] == r;
      }
    }
  }

  lemma Give(n: nat, free: seq<nat>, table: set<nat>, r: nat)
    requires Pool(n, free, |free|, table) && r in table
    ensures Pool(n, [r] + free, |free| + 1, table - {r})
  {
    var f := [r] + free;
    assert forall i | 0 < i < |f| :: f[i] == free[i - 1];
    forall q: nat | q < n
      ensures q in table - {r} || q in f
    {
      assert f[0] == r;
      if q in free {
        var i :| 0 <= i < |free| && free[i] == q;
        assert f[i + 1] == q;
      }
    }
  }

  // "necsipuser", the name a telephone registers with before it has its own.
  const FIRST_USER: Key := [110, 101, 99, 115, 105, 112, 117, 115, 101, 114]

  class SipTables {
    var regs: seq<Registration>
    var regFree: seq<nat>
    var regCountFree: int
    var regTable: set<nat>           // the records in the hash table of registrations
    var regChains: Chains            // and in which order they stand in its chains
    var sessions: seq<Session>
    var sessFree: seq<nat>
    var sessCountFree: int
    var sessTable: set<nat>          // the records in the hash table of calls
    var sessChains: Chains           // and in which order
    var traces: seq<seq<Event>>      // what has been heard of the call each record stands for
    var ended: seq<Over>             // the calls whose records have been given back

    ghost predicate Registrations()
      reads `regs, `regFree, `regCountFree, `regTable, `regChains
    {
      && |regs| == CFG_SIP_REG_TABLE_SIZE && Pool(|regs|, regFree, regCountFree, regTable)
      && (forall r | 0 <= r < |regs| :: (r in regTable <==> regs[r].name.Some?) && (r !in regTable ==> regs[r].colSession == 0))
      && Names(regs, regTable) && Chained(regChains, Hashes(regs, regTable))
    }

    // The hashes under which the registrations in a table are filed, and the calls.
    static ghost function Hashes(regs: seq<Registration>, table: set<nat>): map<nat, int> {
      map r | r in table && r < |regs| && regs[r].name.Some? :: SDBM(regs[r].name.value)
    }

    static ghost function CallHashes(sessions: seq<Session>, table: set<nat>): map<nat, int> {
      map s | s in table && s < |sessions| :: SDBM(sessions[s].callId)
    }

    static lemma SameHashes(regs: seq<Registration>, table: set<nat>, r: nat, x: Registration)
      requires r < |regs| && x.name == regs[r].name
      ensures Hashes(regs[r := x], table) == Hashes(regs, table)
    {
    }

    static lemma SameCallHashes(sessions: seq<Session>, table: set<nat>, s: nat, y: Session)
      requires s < |sessions| && y.callId == sessions[s].callId
      ensures CallHashes(sessions[s := y], table) == CallHashes(sessions, table)
    {
    }

    // No two registrations have the same name.
    static ghost predicate Names(regs: seq<Registration>, table: set<nat>) {
      forall q, r | q in table && r in table && q < |regs| && r < |regs| && q != r :: regs[q].name != regs[r].name
    }

    ghost predicate Sessions()
      reads `sessions, `sessFree, `sessCountFree, `sessTable, `sessChains, `traces
      ensures Sessions() ==> |sessions| == |traces| == CFG_SIP_SESSIONS_TABLE_SIZE && forall s | s in sessTable :: s < |sessions|
    {
      && |sessions| == |traces| == CFG_SIP_SESSIONS_TABLE_SIZE && Pool(|sessions|, sessFree, sessCountFree, sessTable)
      && (forall s | 0 <= s < |sessions| && s !in sessTable :: sessions[s] == NO_SESSION && traces[s] == [])
      && CallIds(sessions, sessTable) && Chained(sessChains, CallHashes(sessions, sessTable))
    }

    static ghost predicate CallIds(sessions: seq<Session>, table: set<nat>) {
      forall s, t | s in table && t in table && s < |sessions| && t < |sessions| && s != t :: sessions[s].callId != sessions[t].callId
    }

    static predicate InUse(status: SessionStatus) {
      status == ST_INVITE_START || status == ST_INVITE_BELL || status == ST_INVITE_STOP
    }

    // Calls refer to registrations in the table, and each registration counts its references, and one more while it is
    // held by the step that is under way.
    ghost predicate Counted(held: Option<nat>)
      reads `regs, `regTable, `sessions, `sessTable
    {
      CountedIn(regs, regTable, sessions, sessTable, held)
    }

    static ghost predicate CountedIn(regs: seq<Registration>, regTable: set<nat>, sessions: seq<Session>, sessTable: set<nat>, held: Option<nat>)
      ensures CountedIn(regs, regTable, sessions, sessTable, held) ==>
                && Bound(held, regTable)
                && forall s | s in sessTable && s < |sessions| :: Bound(sessions[s].registry0, regTable) && Bound(sessions[s].registry1, regTable)
    {
      && (forall s | s in sessTable && s < |sessions| :: Bound(sessions[s].registry0, regTable) && Bound(sessions[s].registry1, regTable))
      && Bound(held, regTable)
      && forall r | r in regTable && r < |regs| ::
           regs[r].colSession == References(r, sessions, sessTable) + Bit(held == Some(r))
    }

    static predicate Bound(registry: Option<nat>, regTable: set<nat>) {
      registry.Some? ==> registry.value in regTable
    }

    // The counts stay right when a call enters or leaves the table, and when it changes nothing about its registrations or
    // takes over the one that is held.
    static lemma EnterCounted(regs: seq<Registration>, regTable: set<nat>, sessions: seq<Session>, sessTable: set<nat>, s: nat, x: Session)
      requires CountedIn(regs, regTable, sessions, sessTable, None) && s !in sessTable && s < |sessions| && x.registry0 == x.registry1 == None
      ensures CountedIn(regs, regTable, sessions[s := x], sessTable + {s}, None)
    {
      hide References;
      forall r | r in regTable { Enter(r, sessions, sessTable, s, x); }
    }

    static lemma LeaveCounted(regs: seq<Registration>, regTable: set<nat>, sessions: seq<Session>, sessTable: set<nat>, s: nat, x: Session)
      requires CountedIn(regs, regTable, sessions, sessTable, None) && s in sessTable && s < |sessions|
      requires sessions[s].registry0 == sessions[s].registry1 == None
      ensures CountedIn(regs, regTable, sessions[s := x], sessTable - {s}, None)
    {
      hide References;
      forall r | r in regTable { Leave(r, sessions, sessTable, s, x); }
    }

    static lemma KeepCounted(regs: seq<Registration>, regTable: set<nat>, sessions: seq<Session>, sessTable: set<nat>, s: nat, y: Session,
                             held: Option<nat>)
      requires CountedIn(regs, regTable, sessions, sessTable, held) && s in sessTable && s < |sessions|
      requires y.registry0 == sessions[s].registry0 && y.registry1 == sessions[s].registry1
      ensures CountedIn(regs, regTable, sessions[s := y], sessTable, held)
    {
      hide References;
      forall r | r in regTable { Rebind(r, sessions, sessTable, s, y); }
    }

    static lemma ReferCounted(regs: seq<Registration>, regTable: set<nat>, sessions: seq<Session>, sessTable: set<nat>, s: nat, y: Session,
                              r: nat, held: Option<nat>, held': Option<nat>)
      requires CountedIn(regs, regTable, sessions, sessTable, held) && s in sessTable && s < |sessions|
      requires Bound(y.registry0, regTable) && Bound(y.registry1, regTable) && Bound(held', regTable)
      requires forall q: nat :: Uses(y, q) + Bit(held' == Some(q)) == Uses(sessions[s], q) + Bit(held == Some(q))
      ensures CountedIn(regs, regTable, sessions[s := y], sessTable, held')
    {
      hide References, Uses;
      forall q | q in regTable { Rebind(q, sessions, sessTable, s, y); }
    }

    static ghost predicate Silent(x: Session, t: seq<Event>) {
      t == [] && !x.sendStart && !x.sendStop && x.side0.heard.port == 0 && x.side1.heard.port == 0
    }

    static ghost predicate Telling(x: Session, t: seq<Event>) {
      x.sendStart && Story(t, x.sendStop, x.side0.heard.port != 0, x.side1.heard.port != 0)
    }

    static ghost predicate Pending(x: Session) {
      && (x.Recv().task == x.Recv().heard || x.Recv().task.port != 0)
      && (if x.recv1 then x.side0 else x.side1).task == (if x.recv1 then x.side0 else x.side1).heard
    }

    static ghost predicate Settled(x: Session) {
      x.side0.task == x.side0.heard && x.side1.task == x.side1.heard
    }

    // One call and what has been heard of it: only the call that a step has in hand is counted and may have something left
    // to tell, and only one that has just been made has told nothing.
    static ghost predicate Call(x: Session, t: seq<Event>, held: bool, newest: bool) {
      && InUse(x.status) && x.colSession == Bit(held)
      && (if newest then Silent(x, t) else Telling(x, t))
      && (if held then Pending(x) else Settled(x))
    }

    ghost predicate Calls(held: Option<nat>, newest: Option<nat>)
      reads `sessions, `sessTable, `traces
    {
      CallsIn(sessions, traces, sessTable, held, newest)
    }

    static ghost predicate CallsIn(sessions: seq<Session>, traces: seq<seq<Event>>, table: set<nat>, held: Option<nat>, newest: Option<nat>) {
      forall s | s in table && s < |sessions| && s < |traces| ::
        Call(sessions[s], traces[s], held == Some(s), newest == Some(s))
    }

    // Every call whose record has been given back has told its whole story, unless it was closed from outside.
    ghost predicate Finished()
      reads `ended
    {
      forall e | e in ended :: Complete(e)
    }

    static ghost predicate Complete(e: Over) {
      (e.closed || e.told) && exists sound0, sound1 :: Story(e.trace, e.told, sound0, sound1)
    }

    ghost predicate Valid()
      reads this
      ensures Valid() ==> |sessions| == |traces| == CFG_SIP_SESSIONS_TABLE_SIZE && forall s | s in sessTable :: s < |sessions|
    {
      Registrations() && Sessions() && Counted(None) && Calls(None, None) && Finished()
    }

    constructor ()
      ensures Valid() && regTable == sessTable == {} && ended == []
    {
      regs := seq(CFG_SIP_REG_TABLE_SIZE, _ => NO_REGISTRATION);
      regFree := seq(CFG_SIP_REG_TABLE_SIZE, i => i);
      regCountFree, regTable := CFG_SIP_REG_TABLE_SIZE, {};
      sessions := seq(CFG_SIP_SESSIONS_TABLE_SIZE, _ => NO_SESSION);
      sessFree := seq(CFG_SIP_SESSIONS_TABLE_SIZE, i => i);
      sessCountFree, sessTable := CFG_SIP_SESSIONS_TABLE_SIZE, {};
      traces := seq(CFG_SIP_SESSIONS_TABLE_SIZE, _ => []);
      regChains, sessChains, ended := map[], map[], [];
      new;
      forall r: nat | r < CFG_SIP_REG_TABLE_SIZE ensures r in regFree { assert regFree[r] == r; }
      forall r: nat | r < CFG_SIP_SESSIONS_TABLE_SIZE ensures r in sessFree { assert sessFree[r] == r; }
    }

    // A registration found by its whole name is held.
    method SearchRegistry(name: Key, m: Sip) returns (found: Option<nat>, status: Status)
      requires Registrations() && Counted(None)
      modifies `regs
      ensures Registrations() && Counted(found) && status == if found.Some? then Left(m) else Ok
      ensures found.Some? ==>
                && found.value in regTable && regs[found.value].name == Some(name)
                && regs == old(regs)[found.value := Refreshed(old(regs)[found.value], m).(colSession := old(regs)[found.value].colSession + 1)]
      ensures found.None? ==> regs == old(regs) && forall r | r in regTable :: regs[r].name != Some(name)
      ensures forall q | q in regTable && q < |old(regs)| && old(regs)[q].name == Some(name) :: found == Some(q)
    {
      hide Pool, Chained, Hashes;
      if r: nat :| r in regTable && regs[r].name == Some(name) {
        var x := Refreshed(regs[r], m);
        SameHashes(regs, regTable, r, x.(colSession := x.colSession + 1));
        regs := regs[r := x.(colSession := x.colSession + 1)];
        found, status := Some(r), Left(m);
      } else {
        found, status := None, Ok;
      }
    }

    // What is left in the status when the message has brought a registration up to date.
    static function Left(m: Sip): Status {
      if m.command == Register || (m.command == Message2xx && m.start == Register) then m.refreshed else Ok
    }

    // What a message does to the registration it is about.
    static function Refreshed(x: Registration, m: Sip): (y: Registration)
      ensures y.name == x.name && y.colSession == x.colSession
    {
      if m.command != Register && m.start != Register then x
      else if m.command == Register then x.(lastMessage := m.now, status := ST_RECEIVE_REGISTER_EXPIRES)
      else if m.command == Message2xx then Detailed(x.(lastMessage := m.now), m)
      else x.(lastMessage := m.now)
    }

    static function Detailed(x: Registration, m: Sip): (y: Registration)
      ensures y.name == x.name && y.colSession == x.colSession
    {
      x.(expires := m.expires, status := if m.expires != 0 then ST_REGISTER else ST_END_USER_REGISTER, hasCallId := x.hasCallId || m.detailsFit)
    }

    static function NewRegistration(name: Key, m: Sip): (x: Registration)
      ensures x.name == Some(name) && x.colSession == 0
    {
      var x := Registration(Some(name), ST_ERROR_REGISTER, 0, m.now, false, 0);
      if m.start == Register then Detailed(x, m) else x.(status := ST_RECEIVE_NOTIFY)
    }

    // A new registration, or nothing when the pool is empty or its texts do not fit.
    method InsertRegistry(name: Key, m: Sip) returns (made: Option<nat>, status: Status)
      requires Registrations() && Counted(None) && forall r | r in regTable :: regs[r].name != Some(name)
      modifies `regs, `regFree, `regCountFree, `regTable, `regChains
      ensures Registrations() && Counted(made) && (made.Some? <==> status.Ok?)
      ensures made.Some? <==> old(regFree) != [] && m.namesFit && (m.start == Register ==> m.detailsFit)
      ensures made.None? ==> regs == old(regs) && regTable == old(regTable) && regChains == old(regChains)
      ensures made.Some? ==>
                && made.value !in old(regTable) && regTable == old(regTable) + {made.value} && regChains == File(old(regChains), SDBM(name), made.value)
                && regs == old(regs)[made.value := NewRegistration(name, m).(colSession := 1)]
    {
      if regFree == [] { return None, ER_SMALL_BUFFER; }
      if !m.namesFit { return None, ER_SIP_PARSE_URL; }
      var x := Registration(Some(name), ST_ERROR_REGISTER, 0, m.now, false, 0);
      if m.start == Register {
        if !m.detailsFit { return None, ER_SIP_PARSE_URL; }
        x := Detailed(x, m);
      } else {
        x := x.(status := ST_RECEIVE_NOTIFY);
      }
      var r := Adopt(x.(colSession := 1));
      return Some(r), Ok;
    }

    // The first free record of the pool becomes a registration that is held.
    method Adopt(x: Registration) returns (r: nat)
      requires Registrations() && Counted(None) && regFree != [] && x.name.Some? && x.colSession == 1
      requires forall q | q in regTable :: regs[q].name != x.name
      modifies `regs, `regFree, `regCountFree, `regTable, `regChains
      ensures Registrations() && Counted(Some(r)) && r !in old(regTable) && regTable == old(regTable) + {r}
      ensures regs == old(regs)[r := x] && regChains == File(old(regChains), SDBM(x.name.value), r)
    {
      hide Pool, CountedIn, Names, Chained, Hashes, File;
      r := regFree[0];
      Take(|regs|, regFree, regTable);
      AdoptCounted(regs, regTable, sessions, sessTable, r, x);
      NewName(regs, regTable, r, x);
      var h := SDBM(x.name.value);
      NewHash(regs, regTable, r, x);
      Filed(regChains, Hashes(regs, regTable), h, r);
      regs, regFree, regCountFree, regTable, regChains := regs[r := x], regFree[1..], regCountFree - 1, regTable + {r}, File(regChains, h, r);
    }

    static lemma NewHash(regs: seq<Registration>, table: set<nat>, r: nat, x: Registration)
      requires r < |regs| && r !in table && x.name.Some?
      ensures r !in Hashes(regs, table) && Hashes(regs[r := x], table + {r}) == Hashes(regs, table)[r := SDBM(x.name.value)]
    {
      hide SDBM;
    }

    static lemma NewName(regs: seq<Registration>, table: set<nat>, r: nat, x: Registration)
      requires Names(regs, table) && r < |regs| && r !in table
      requires forall q | q in table && q < |regs| :: regs[q].name != x.name
      ensures Names(regs[r := x], table + {r})
    {
    }

    // Nothing refers to a registration that has just come from the pool.
    static lemma AdoptCounted(regs: seq<Registration>, regTable: set<nat>, sessions: seq<Session>, sessTable: set<nat>, r: nat, x: Registration)
      requires CountedIn(regs, regTable, sessions, sessTable, None) && r !in regTable && r < |regs| && x.colSession == 1
      ensures CountedIn(regs[r := x], regTable + {r}, sessions, sessTable, Some(r))
    {
      assert Side0(r, sessions, sessTable) == {} && Side1(r, sessions, sessTable) == {};
      assert References(r, sessions, sessTable) == 0;
      hide References;
    }

    // Let go of a registration that is held.
    method FreeRegistry(r: nat)
      requires Registrations() && Counted(Some(r))
      modifies `regs
      ensures Registrations() && Counted(None) && r < |old(regs)|
      ensures regs == old(regs)[r := old(regs)[r].(colSession := old(regs)[r].colSession - 1)]
    {
      hide Pool, Chained, Hashes;
      if regs[r].colSession <= 0 { return; }
      SameHashes(regs, regTable, r, regs[r].(colSession := regs[r].colSession - 1));
      regs := regs[r := regs[r].(colSession := regs[r].colSession - 1)];
    }

    // What a message does to the call it belongs to: whose turn it is and what the sound is, and then the state.
    static function Heard(x: Session, m: Sip): Session
    {
      var y := x.(recv1 := x.side0.mac != m.srcMac);
      var p := y.Recv();
      if m.hasMedia then y.WithRecv(p.(heard := p.task, task := if m.media.Some? then m.media.value else p.task)) else y
    }

    static function Advanced(x: Session, m: Sip): Session
    {
      var y := x.(lastMessage := m.now);
      var z := match m.command
        case Invite => y.(status := ST_INVITE_START)
        case Ack =>
          if y.status != ST_INVITE_START then y
          else if y.command != Message2xx then y.(status := ST_INVITE_STOP)
          else y.(status := ST_INVITE_BELL, beginCall := m.now)
        case Bye => y.(status := ST_INVITE_STOP)
        case Cancel => y.(status := ST_INVITE_STOP)
        case _ => y;
      z.(command := m.command, colSession := x.colSession + 1)
    }

    // The parts of a call that searching for it leaves alone.
    static ghost predicate SameCall(x: Session, y: Session) {
      y.callId == x.callId && y.registry0 == x.registry0 && y.registry1 == x.registry1
    }

    static lemma Taken(x: Session, t: seq<Event>, m: Sip)
      requires Call(x, t, false, false) && m.Parsed()
      ensures Call(Advanced(Heard(x, m), m), t, true, false) && SameCall(x, Advanced(Heard(x, m), m))
    {
      hide Story;
      TakenHeard(x, m);
      var y := Heard(x, m);
      hide Heard;
    }

    static lemma TakenHeard(x: Session, m: Sip)
      requires m.Parsed() && Settled(x)
      ensures var y := Heard(x, m);
              Pending(y) && y == x.(recv1 := y.recv1, side0 := y.side0, side1 := y.side1)
              && y.side0.heard == x.side0.heard && y.side1.heard == x.side1.heard
    {
    }

    // A record in the table is changed and the listeners are told of it; which call it is and its registrations stay.
    method Change(s: nat, y: Session, t: seq<Event>, ghost held: Option<nat>, ghost newest: Option<nat>,
                  ghost held': Option<nat>, ghost newest': Option<nat>)
      requires Sessions() && Counted(None) && Calls(held, newest) && s in sessTable && SameCall(sessions[s], y)
      requires forall r | r != s :: (held == Some(r) <==> held' == Some(r)) && (newest == Some(r) <==> newest' == Some(r))
      requires Call(y, t, held' == Some(s), newest' == Some(s))
      modifies `sessions, `traces
      ensures Sessions() && Counted(None) && Calls(held', newest')
      ensures sessions == old(sessions)[s := y] && traces == old(traces)[s := t]
    {
      hide Pool, CountedIn, Call, CallIds, Chained, CallHashes;
      KeepCounted(regs, regTable, sessions, sessTable, s, y, None);
      SameCallId(sessions, sessTable, s, y);
      SameCallHashes(sessions, sessTable, s, y);
      sessions, traces := sessions[s := y], traces[s := t];
    }

    static lemma SameCallId(sessions: seq<Session>, table: set<nat>, s: nat, y: Session)
      requires CallIds(sessions, table) && s < |sessions| && y.callId == sessions[s].callId
      ensures CallIds(sessions[s := y], table)
    {
    }

    static lemma ChainOfCalls(chains: Chains, sessions: seq<Session>, table: set<nat>, s: nat, h: int)
      requires Chained(chains, CallHashes(sessions, table))
      ensures s in Of(chains, h) <==> s in table && s < |sessions| && SDBM(sessions[s].callId) == h
    {
      hide Of, SDBM;
      var hashes := CallHashes(sessions, table);
      assert s in hashes <==> s in table && s < |sessions|;
    }

    static lemma ChainOfRegistrations(chains: Chains, regs: seq<Registration>, table: set<nat>, r: nat, h: int)
      requires Chained(chains, Hashes(regs, table))
      ensures r in Of(chains, h) <==> r in table && r < |regs| && regs[r].name.Some? && SDBM(regs[r].name.value) == h
    {
      hide Of, SDBM;
      var hashes := Hashes(regs, table);
      assert r in hashes <==> r in table && r < |regs| && regs[r].name.Some?;
    }

    // The first call of a chain that the search callback takes for the wanted one.
    static function FirstFound(chain: seq<nat>, sessions: seq<Session>, wanted: Key): (r: Option<nat>)
      ensures r.Some? ==> r.value in chain && r.value < |sessions| && Matches(sessions[r.value].callId, wanted)
      ensures r.None? ==> forall s | s in chain && s < |sessions| :: !Matches(sessions[s].callId, wanted)
    {
      if chain == [] then None
      else if chain[0] < |sessions| && Matches(sessions[chain[0]].callId, wanted) then Some(chain[0])
      else FirstFound(chain[1..], sessions, wanted)
    }

    // The walk along a chain of calls.
    method Walk(chain: seq<nat>, wanted: Key) returns (found: Option<nat>)
      ensures found == FirstFound(chain, sessions, wanted)
    {
      hide Matches;
      var i := 0;
      assert chain[0..] == chain;
      while i < |chain|
        invariant i <= |chain| && FirstFound(chain, sessions, wanted) == FirstFound(chain[i..], sessions, wanted)
      {
        if chain[i] < |sessions| && Matches(sessions[chain[i]].callId, wanted) { return Some(chain[i]); }
        assert chain[i..][1..] == chain[i + 1..];
        i := i + 1;
      }
      return None;
    }

    // The call that is found is held.
    method SearchSession(m: Sip) returns (found: Option<nat>)
      requires Sessions() && Counted(None) && Calls(None, None) && m.Parsed()
      modifies `sessions, `traces
      ensures Sessions() && Counted(None) && Calls(found, None) && traces == old(traces)
      ensures found == FirstFound(Of(sessChains, SDBM(m.callId)), old(sessions), m.callId)
      ensures found.Some? ==>
                && found.value in sessTable && found.value < |old(sessions)|
                && sessions == old(sessions)[found.value := Advanced(Heard(old(sessions)[found.value], m), m)]
      ensures found.None? ==>
                sessions == old(sessions) && forall s | s in sessTable :: sessions[s].callId != m.callId
    {
      hide Pool, CountedIn, Call, CallIds, Heard, Advanced, FirstFound, SDBM, Of, Chained, CallHashes;
      var chain := Of(sessChains, SDBM(m.callId));
      found := Walk(chain, m.callId);
      if found.Some? {
        var s := found.value;
        ChainOfCalls(sessChains, sessions, sessTable, s, SDBM(m.callId));
        Taken(sessions[s], traces[s], m);
        Change(s, Advanced(Heard(sessions[s], m), m), traces[s], None, None, Some(s), None);
      } else {
        forall s | s in sessTable ensures sessions[s].callId != m.callId {
          ChainOfCalls(sessChains, sessions, sessTable, s, SDBM(m.callId));
        }
      }
    }

    // The call that an INVITE begins.
    static function NewCall(m: Sip): Session {
      Session(m.callId, ST_INVITE_START, Message1xx, Param(m.srcMac, if m.hasMedia && m.media.Some? then m.media.value else NO_TASK, NO_TASK),
              Param(m.dstMac, NO_TASK, NO_TASK), false, false, false, None, None, 1, m.now, 0)
    }

    method InsertSession(m: Sip) returns (made: Option<nat>, status: Status)
      requires Sessions() && Counted(None) && Calls(None, None) && m.Parsed() && forall s | s in sessTable :: sessions[s].callId != m.callId
      modifies `sessions, `sessFree, `sessCountFree, `sessTable, `sessChains
      ensures Sessions() && Counted(None) && Calls(made, made) && (made.Some? <==> status.Ok?)
      ensures made.Some? <==> old(sessFree) != [] && m.namesFit
      ensures made.None? ==> sessions == old(sessions) && sessTable == old(sessTable)
      ensures made.Some? ==>
                made.value !in old(sessTable) && sessTable == old(sessTable) + {made.value} && sessions == old(sessions)[made.value := NewCall(m)]
    {
      hide Pool, CountedIn, Call, CallIds;
      if sessFree == [] { return None, ER_SMALL_BUFFER; }
      if !m.namesFit { return None, ER_SIP_PARSE_URL; }
      Begun(m);
      var s := Begin(NewCall(m));
      return Some(s), Ok;
    }

    // The first free record of the pool becomes a call that is held.
    method Begin(x: Session) returns (s: nat)
      requires Sessions() && Counted(None) && Calls(None, None) && sessFree != [] && Call(x, [], true, true)
      requires x.registry0 == x.registry1 == None && forall q | q in sessTable :: sessions[q].callId != x.callId
      modifies `sessions, `sessFree, `sessCountFree, `sessTable, `sessChains
      ensures Sessions() && Counted(None) && Calls(Some(s), Some(s))
      ensures s !in old(sessTable) && sessTable == old(sessTable) + {s} && sessions == old(sessions)[s := x]
    {
      hide Pool, CountedIn, CallsIn, Call, CallIds, Chained, CallHashes, File, SDBM;
      s := sessFree[0];
      Take(|sessions|, sessFree, sessTable);
      NewCallIn(sessions, traces, sessTable, s, x);
      NewCallId(sessions, sessTable, s, x);
      EnterCounted(regs, regTable, sessions, sessTable, s, x);
      NewCallHash(sessions, sessTable, s, x);
      Filed(sessChains, CallHashes(sessions, sessTable), SDBM(x.callId), s);
      sessChains := File(sessChains, SDBM(x.callId), s);
      sessions, sessFree, sessCountFree, sessTable := sessions[s := x], sessFree[1..], sessCountFree - 1, sessTable + {s};
    }

    static lemma NewCallIn(sessions: seq<Session>, traces: seq<seq<Event>>, table: set<nat>, s: nat, x: Session)
      requires CallsIn(sessions, traces, table, None, None) && s !in table && s < |sessions| == |traces| && traces[s] == [] && Call(x, [], true, true)
      ensures CallsIn(sessions[s := x], traces, table + {s}, Some(s), Some(s))
    {
      hide Call;
    }

    static lemma NewCallHash(sessions: seq<Session>, table: set<nat>, s: nat, x: Session)
      requires s < |sessions| && s !in table
      ensures s !in CallHashes(sessions, table) && CallHashes(sessions[s := x], table + {s}) == CallHashes(sessions, table)[s := SDBM(x.callId)]
    {
      hide SDBM;
    }

    static lemma Begun(m: Sip)
      requires m.Parsed()
      ensures Call(NewCall(m), [], true, true)
    {
    }

    static lemma NewCallId(sessions: seq<Session>, table: set<nat>, s: nat, x: Session)
      requires CallIds(sessions, table) && s < |sessions| && s !in table
      requires forall q | q in table && q < |sessions| :: sessions[q].callId != x.callId
      ensures CallIds(sessions[s := x], table + {s})
    {
    }

    // A call takes over the reference to a registration that is held.
    method Refer(s: nat, first: bool, r: nat, ghost held: Option<nat>, ghost newest: Option<nat>)
      requires Sessions() && Counted(Some(r)) && s in sessTable && Calls(held, newest)
      requires (if first then sessions[s].registry0 else sessions[s].registry1) == None
      modifies `sessions
      ensures Sessions() && Counted(None) && Calls(held, newest)
      ensures sessions == old(sessions)[s := if first then old(sessions)[s].(registry0 := Some(r)) else old(sessions)[s].(registry1 := Some(r))]
    {
      hide Pool, CountedIn, Story, CallIds, Chained, CallHashes;
      var y := if first then sessions[s].(registry0 := Some(r)) else sessions[s].(registry1 := Some(r));
      ReferCounted(regs, regTable, sessions, sessTable, s, y, r, Some(r), None);
      SameCallId(sessions, sessTable, s, y);
      SameCallHashes(sessions, sessTable, s, y);
      sessions := sessions[s := y];
    }

    // The same call but for its registrations.
    static ghost predicate Rebound(x: Session, y: Session) {
      y == x.(registry0 := y.registry0, registry1 := y.registry1)
    }

    // A link to the registration of a name, if there is one.
    static ghost predicate LinksIn(regs: seq<Registration>, table: set<nat>, registry: Option<nat>, name: Option<Key>) {
      match registry
      case Some(r) => r in table && r < |regs| && name.Some? && regs[r].name == name
      case None => name.Some? ==> forall r | r in table && r < |regs| :: regs[r].name != name
    }

    // A registration that a message has found n times and that is referred to as often now.
    static function Held(x: Registration, n: nat, m: Sip): Registration {
      (if n > 0 then Refreshed(x, m) else x).(colSession := x.colSession + n)
    }

    // The registrations after a call has come to refer to them.
    static ghost predicate Referred(was: seq<Registration>, regs: seq<Registration>, x: Session, m: Sip) {
      |regs| == |was| && forall q: nat | q < |was| :: regs[q] == Held(was[q], Uses(x, q), m)
    }

    // An INVITE binds a call that refers to nobody to the registrations of both parties; nothing else is bound.
    static ghost predicate Binding(was: seq<Registration>, table: set<nat>, regs: seq<Registration>, m: Sip, b: Session, x: Session) {
      if m.command == Invite && b.registry0 == None && b.registry1 == None
      then LinksIn(was, table, x.registry0, m.from) && LinksIn(was, table, x.registry1, m.to) && Referred(was, regs, x, m)
      else regs == was && x.registry0 == b.registry0 && x.registry1 == b.registry1
    }

    static ghost function Found(was: seq<Registration>, r: Option<nat>, m: Sip): seq<Registration> {
      if r.Some? && r.value < |was| then was[r.value := Refreshed(was[r.value], m).(colSession := was[r.value].colSession + 1)] else was
    }

    static lemma FoundTwice(was: seq<Registration>, table: set<nat>, x: Session, m: Sip)
      requires LinksIn(was, table, x.registry0, m.from) && LinksIn(was, table, x.registry1, m.to)
      ensures Referred(was, Found(Found(was, x.registry0, m), x.registry1, m), x, m)
    {
    }

    static lemma NoLink(was: seq<Registration>, table: set<nat>, m: Sip)
      ensures Found(was, None, m) == was && LinksIn(was, table, None, None)
    {
    }

    // Finding a registration changes no name.
    static lemma FoundLinks(was: seq<Registration>, table: set<nat>, r: Option<nat>, link: Option<nat>, m: Sip)
      requires LinksIn(Found(was, r, m), table, link, m.to)
      ensures LinksIn(was, table, link, m.to)
    {
      hide Refreshed;
      var mid := Found(was, r, m);
      assert |mid| == |was| && forall q: nat | q < |was| :: mid[q].name == was[q].name;
    }

    // An INVITE looks up the registrations of both parties, unless one is known already.
    method BindRegistries(s: nat, m: Sip, ghost newest: Option<nat>)
      requires Registrations() && Sessions() && Counted(None) && Calls(Some(s), newest) && s in sessTable && m.command == Invite
      modifies `regs, `sessions
      ensures Registrations() && Sessions() && Counted(None) && Calls(Some(s), newest)
      ensures Rebound(old(sessions)[s], sessions[s]) && sessions == old(sessions)[s := sessions[s]]
      ensures Binding(old(regs), regTable, regs, m, old(sessions)[s], sessions[s])
    {
      hide Registrations, Sessions, Counted, Calls, Referred, Found, LinksIn;
      if sessions[s].registry0 == None && sessions[s].registry1 == None {
        if m.from.Some? { BindRegistry(s, true, m.from.value, m, newest); }
        else { NoLink(regs, regTable, m); }
        ghost var names := regs;
        if m.to.Some? { BindRegistry(s, false, m.to.value, m, newest); }
        else { NoLink(regs, regTable, m); }
        ghost var x := sessions[s];
        assert regs == Found(Found(old(regs), x.registry0, m), x.registry1, m);
        FoundLinks(old(regs), regTable, x.registry0, x.registry1, m);
        FoundTwice(old(regs), regTable, x, m);
      }
    }

    method BindRegistry(s: nat, first: bool, name: Key, m: Sip, ghost newest: Option<nat>)
      requires Registrations() && Sessions() && Counted(None) && Calls(Some(s), newest) && s in sessTable
      requires (if first then sessions[s].registry0 else sessions[s].registry1) == None
      modifies `regs, `sessions
      ensures Registrations() && Sessions() && Counted(None) && Calls(Some(s), newest)
      ensures var x, y := old(sessions)[s], sessions[s];
              sessions == old(sessions)[s := if first then x.(registry0 := y.registry0) else x.(registry1 := y.registry1)]
      ensures var r := if first then sessions[s].registry0 else sessions[s].registry1;
              LinksIn(old(regs), regTable, r, Some(name)) && regs == Found(old(regs), r, m)
    {
      hide Pool, CountedIn, Call, CallIds, Names, Chained, Refreshed;
      var r, status := SearchRegistry(name, m);
      if r.Some? {
        Refer(s, first, r.value, Some(s), newest);
      } else {
        assert sessions[s := sessions[s]] == sessions;
      }
    }

    // The start of a call is told once.
    method Announce(s: nat, ghost newest: Option<nat>)
      requires Sessions() && Counted(None) && Calls(Some(s), newest) && s in sessTable && (newest == None || newest == Some(s))
      modifies `sessions, `traces
      ensures Sessions() && Counted(None) && Calls(Some(s), None)
      ensures sessions == old(sessions)[s := old(sessions)[s].(sendStart := true)]
      ensures traces == old(traces)[s := old(traces)[s] + StartEvents(old(sessions)[s])]
    {
      hide Pool, CountedIn, CallIds, Story;
      if !sessions[s].sendStart {
        StoryStarts();
        assert traces[s] + [CallStart] == [CallStart];
        Change(s, sessions[s].(sendStart := true), traces[s] + [CallStart], Some(s), newest, Some(s), None);
      } else {
        assert traces[s] + [] == traces[s];
      }
    }

    static function StartEvents(x: Session): seq<Event> {
      if x.sendStart then [] else [CallStart]
    }

    // The listeners are told of a side that has begun to send sound, or sends it from elsewhere now.
    static function SideEvents(x: Session): seq<Event> {
      var p := x.Recv();
      if p.task == p.heard then [] else if p.heard.port == 0 then [NewSession(Bit(x.recv1))] else [UpdateSession(Bit(x.recv1))]
    }

    static function AllHeard(x: Session): Session {
      x.WithRecv(x.Recv().(heard := x.Recv().task))
    }

    method TellSide(s: nat)
      requires Sessions() && Counted(None) && Calls(Some(s), None) && s in sessTable
      modifies `sessions, `traces
      ensures Sessions() && Counted(None) && Calls(Some(s), None) && Settled(sessions[s])
      ensures sessions == old(sessions)[s := AllHeard(old(sessions)[s])]
      ensures traces == old(traces)[s := old(traces)[s] + SideEvents(old(sessions)[s])]
    {
      hide Pool, CountedIn, CallIds, Story;
      var x := sessions[s];
      var p, side := x.Recv(), Bit(x.recv1);
      if p.task != p.heard {
        StoryOfSide(traces[s], x.sendStop, x.side0.heard.port != 0, x.side1.heard.port != 0, side);
        Change(s, x.WithRecv(p.(heard := p.task)), traces[s] + [if p.heard.port == 0 then NewSession(side) else UpdateSession(side)],
               Some(s), None, Some(s), None);
      } else {
        assert traces[s] + [] == traces[s];
      }
    }

    // The end of a call is told once, and the call is let go of.
    static function EndEvents(x: Session): seq<Event> {
      if !x.sendStop && x.status == ST_INVITE_STOP then [EndSession(0), EndSession(1), CallEnd] else []
    }

    static function Released(x: Session): Session {
      x.(sendStop := x.sendStop || x.status == ST_INVITE_STOP, colSession := x.colSession - 1)
    }

    method FreeSession(s: nat)
      requires Sessions() && Counted(None) && Calls(Some(s), None) && s in sessTable && Settled(sessions[s])
      modifies `sessions, `traces
      ensures Sessions() && Counted(None) && Calls(None, None)
      ensures sessions == old(sessions)[s := Released(old(sessions)[s])]
      ensures traces == old(traces)[s := old(traces)[s] + EndEvents(old(sessions)[s])]
    {
      hide Pool, CountedIn, CallIds, Chained, CallHashes, Call;
      var x, t := sessions[s], traces[s];
      LetGo(x, t);
      if !x.sendStop && x.status == ST_INVITE_STOP {
        x := x.(sendStop := true);
        t := t + [EndSession(0), EndSession(1), CallEnd];
      } else {
        assert t + [] == t;
      }
      Change(s, x.(colSession := x.colSession - 1), t, Some(s), None, None, None);
    }

    static lemma LetGo(x: Session, t: seq<Event>)
      requires Call(x, t, true, false) && Settled(x)
      ensures Call(Released(x), t + EndEvents(x), false, false)
    {
      hide Story;
      if !x.sendStop && x.status == ST_INVITE_STOP {
        StoryEnds(t, x.side0.heard.port != 0, x.side1.heard.port != 0);
      } else {
        assert t + [] == t;
      }
    }

    // The user whose registration a message is about, if it is about any.
    static function Subject(m: Sip): Option<Key> {
      var registering := m.command == Register || m.start == Register;
      if registering && (m.from == None || FIRST_USER <= m.from.value) then None
      else if IsSipCommand(m.command) then (if m.command == Register then m.from else None)
      else if m.command != Message2xx then None
      else if m.start == Register then m.from
      else if m.start != Notify then None
      else if m.srcIsPbx then m.from
      else if m.dstIsPbx then m.to
      else None
    }

    // What the message looks like to a new registration: one that asks to register is taken for a notification.
    static function Replaced(m: Sip): Sip {
      if m.command == Register then m.(command := Notify, start := Notify) else m
    }

    // A registration under a name, found or made.
    method ObtainRegistry(name: Key, m: Sip) returns (r: Option<nat>, status: Status)
      requires Registrations() && Counted(None)
      modifies `regs, `regFree, `regCountFree, `regTable, `regChains
      ensures Registrations() && Counted(r) && (r.None? ==> !status.Ok?)
      ensures r.None? ==> regs == old(regs) && regTable == old(regTable) && regChains == old(regChains)
      ensures r.Some? && r.value in old(regTable) ==>
                && status == Left(m) && regTable == old(regTable) && regChains == old(regChains) && old(regs)[r.value].name == Some(name)
                && regs == old(regs)[r.value := Refreshed(old(regs)[r.value], m).(colSession := old(regs)[r.value].colSession + 1)]
      ensures r.Some? && r.value !in old(regTable) ==>
                && status.Ok? && regTable == old(regTable) + {r.value}
                && regs == old(regs)[r.value := NewRegistration(name, Replaced(m)).(colSession := 1)]
      ensures (forall q | q in old(regTable) :: q < |old(regs)| && old(regs)[q].name != Some(name)) ==>
                (r.Some? <==> old(regFree) != [] && m.namesFit && (Replaced(m).start == Register ==> m.detailsFit))
      ensures forall q | q in old(regTable) && q < |old(regs)| && old(regs)[q].name == Some(name) :: r == Some(q)
    {
      hide Pool, CountedIn, Names, Refreshed, NewRegistration, Chained, Hashes;
      r, status := SearchRegistry(name, m);
      if r == None { r, status := InsertRegistry(name, Replaced(m)); }
    }

    // The registration a message is about, which is then held.  The method of the message may be replaced on the way.
    method CheckRegistry(m: Sip) returns (r: Option<nat>, status: Status)
      requires Registrations() && Counted(None)
      modifies `regs, `regFree, `regCountFree, `regTable, `regChains
      ensures Registrations() && Counted(r)
      ensures r.None? ==> regs == old(regs) && regTable == old(regTable) && regChains == old(regChains)
      ensures Subject(m).None? ==> r.None? && (status.Ok? || m.command == Register || m.start == Register)
      ensures Subject(m).Some? && r.None? ==> !status.Ok?
      ensures r.Some? && r.value in old(regTable) ==>
                && status == Left(m) && regChains == old(regChains) && regTable == old(regTable) && old(regs)[r.value].name == Subject(m)
                && regs == old(regs)[r.value := Refreshed(old(regs)[r.value], m).(colSession := old(regs)[r.value].colSession + 1)]
      ensures r.Some? && r.value !in old(regTable) ==>
                && Subject(m).Some? && status.Ok? && regTable == old(regTable) + {r.value}
                && regs == old(regs)[r.value := NewRegistration(Subject(m).value, Replaced(m)).(colSession := 1)]
      ensures (forall q | q in old(regTable) :: q < |old(regs)| && old(regs)[q].name != Subject(m)) && Subject(m).Some? ==>
                (r.Some? <==> old(regFree) != [] && m.namesFit && (Replaced(m).start == Register ==> m.detailsFit))
      ensures forall q | q in old(regTable) && q < |old(regs)| && Subject(m).Some? && old(regs)[q].name == Subject(m) :: r == Some(q)
    {
      hide Registrations, Counted, Refreshed, NewRegistration, Replaced;
      if (m.command == Register || m.start == Register) && m.from == None { return None, ER_SIP_PARSE_URL; }
      if (m.command == Register || m.start == Register) && FIRST_USER <= m.from.value { return None, OK_REGISTRY_NOT_FOUND; }
      var name: Option<Key> := None;
      if IsSipCommand(m.command) {
        if m.command != Register { return None, Ok; }
        name := m.from;
      } else {
        if m.command != Message2xx { return None, Ok; }
        match m.start {
          case Notify =>
            if m.srcIsPbx {
              if m.from == None { return None, Ok; }
              name := m.from;
            } else {
              if !m.dstIsPbx || m.to == None { return None, Ok; }
              name := m.to;
            }
          case Register => name := m.from;
          case _ => return None, Ok;
        }
      }
      r, status := ObtainRegistry(name.value, m);
    }

    // The state of a call when a message has got hold of it: an old call has gone on, or a new one has begun.
    static ghost function Base(table: set<nat>, sessions: seq<Session>, s: nat, m: Sip): Session
      requires s < |sessions|
    {
      if s in table then Advanced(Heard(sessions[s], m), m) else NewCall(m)
    }

    // The call that the search takes for the one a message belongs to.
    static ghost function Target(chains: Chains, sessions: seq<Session>, m: Sip): Option<nat> {
      FirstFound(Of(chains, SDBM(m.callId)), sessions, m.callId)
    }

    // The call a message belongs to: the one that is found, or a new one for an INVITE for which none is.
    static ghost predicate Belongs(chains: Chains, table: set<nat>, sessions: seq<Session>, s: nat, m: Sip) {
      Target(chains, sessions, m) == if s in table then Some(s) else None
    }

    // Messages that go to a call.
    static predicate Concerns(m: Sip) {
      if IsSipCommand(m.command) then m.command in {Invite, Bye, Ack, Method.Refer} else m.start in {Invite, Bye, Ack, Cancel, Method.Refer}
    }

    // A message reaches a call if it is one of those that do, and there is one or it can begin one.
    static ghost predicate Reaches(chains: Chains, sessions: seq<Session>, room: bool, m: Sip) {
      Concerns(m) && (Target(chains, sessions, m).Some? || (m.command == Invite && room && m.namesFit))
    }

    // An INVITE finds its call or makes one, and the call is announced.
    method InviteSession(m: Sip) returns (s: Option<nat>, status: Status)
      requires Valid() && m.Parsed() && m.command == Invite
      modifies `regs, `sessions, `sessFree, `sessCountFree, `sessTable, `sessChains, `traces
      ensures Registrations() && Sessions() && Counted(None) && Calls(s, None)
      ensures s.None? ==> sessTable == old(sessTable) && sessions == old(sessions) && traces == old(traces) && regs == old(regs)
      ensures s.Some? <==> old(Target(sessChains, sessions, m)).Some? || (old(sessFree) != [] && m.namesFit)
      ensures s.Some? ==>
                && s.value < |old(sessions)| && Belongs(old(sessChains), old(sessTable), old(sessions), s.value, m)
                && InHand(old(regs), old(sessTable), old(sessions), old(traces), s.value, m)
    {
      hide Registrations, Sessions, Counted, Calls, Heard, Advanced, NewCall, Binding, Of, SDBM, FirstFound;
      status := Ok;
      s := SearchSession(m);
      ghost var newest: Option<nat> := None;
      if s == None {
        s, status := InsertSession(m);
        newest := s;
      }
      if s == None { return; }
      assert sessTable == old(sessTable) + {s.value} && sessions == old(sessions)[s.value := Base(old(sessTable), old(sessions), s.value, m)];
      Welcome(s.value, m, newest);
    }

    method Welcome(s: nat, m: Sip, ghost newest: Option<nat>)
      requires Registrations() && Sessions() && Counted(None) && Calls(Some(s), newest) && s in sessTable && (newest == None || newest == Some(s))
      requires m.command == Invite
      modifies `regs, `sessions, `traces
      ensures Registrations() && Sessions() && Counted(None) && Calls(Some(s), None)
      ensures Rebound(old(sessions)[s].(sendStart := true), sessions[s]) && sessions == old(sessions)[s := sessions[s]]
      ensures traces == old(traces)[s := old(traces)[s] + StartEvents(old(sessions)[s])]
      ensures Binding(old(regs), regTable, regs, m, old(sessions)[s], sessions[s])
    {
      hide Registrations, Sessions, Counted, Calls, LinksIn, Held;
      BindRegistries(s, m, newest);
      ghost var x := sessions[s];
      Announce(s, newest);
      SameBinding(old(regs), regTable, regs, m, old(sessions)[s], old(sessions)[s], x, sessions[s]);
    }

    // Only the registrations of a call count for its binding.
    static lemma SameBinding(was: seq<Registration>, table: set<nat>, regs: seq<Registration>, m: Sip, b: Session, b': Session, x: Session, x': Session)
      requires Binding(was, table, regs, m, b, x) && b'.registry0 == b.registry0 && b'.registry1 == b.registry1
      requires x'.registry0 == x.registry0 && x'.registry1 == x.registry1
      ensures Binding(was, table, regs, m, b', x')
    {
      hide LinksIn, Held;
    }

    // A step has got hold of call s, which has been announced and whose registrations are bound.
    ghost predicate InHand(regsWere: seq<Registration>, table: set<nat>, was: seq<Session>, told: seq<seq<Event>>, s: nat, m: Sip)
      requires s < |was|
      reads `regs, `regTable, `sessTable, `sessions, `traces
    {
      var b := Base(table, was, s, m);
      && s < |told| && sessTable == table + {s} && |sessions| == |was| && sessions == was[s := sessions[s]]
      && Rebound(b.(sendStart := true), sessions[s]) && traces == told[s := told[s] + StartEvents(b)]
      && Binding(regsWere, regTable, regs, m, b, sessions[s])
    }

    // The call a message is about, which is then held; an INVITE makes one when there is none.
    method CheckActiveSession(m: Sip) returns (s: Option<nat>, status: Status)
      requires Valid() && m.Parsed()
      modifies `regs, `sessions, `sessFree, `sessCountFree, `sessTable, `sessChains, `traces
      ensures Registrations() && Sessions() && Counted(None) && Calls(s, None)
      ensures s.None? ==> sessTable == old(sessTable) && sessions == old(sessions) && traces == old(traces) && regs == old(regs)
      ensures s.Some? <==> old(Reaches(sessChains, sessions, sessFree != [], m))
      ensures s.Some? ==>
                && s.value < |old(sessions)| && Belongs(old(sessChains), old(sessTable), old(sessions), s.value, m)
                && InHand(old(regs), old(sessTable), old(sessions), old(traces), s.value, m)
    {
      hide Registrations, Sessions, Counted, Calls, InHand, Target;
      status := Ok;
      if IsSipCommand(m.command) {
        match m.command
        case Invite => s, status := InviteSession(m);
        case Bye | Ack | Refer => s := FindSession(m);
        case _ => s := None;
      } else {
        match m.start
        case Invite | Bye | Ack | Cancel | Refer => s := FindSession(m);
        case _ => s := None;
      }
    }

    // A message that only goes to a call that is there.
    method FindSession(m: Sip) returns (s: Option<nat>)
      requires Valid() && m.Parsed() && m.command != Invite
      modifies `sessions, `traces
      ensures Registrations() && Sessions() && Counted(None) && Calls(s, None)
      ensures s.None? ==> sessions == old(sessions) && traces == old(traces)
      ensures s == old(Target(sessChains, sessions, m))
      ensures s.Some? ==>
                && s.value < |old(sessions)| && Belongs(old(sessChains), old(sessTable), old(sessions), s.value, m)
                && InHand(old(regs), old(sessTable), old(sessions), old(traces), s.value, m)
    {
      hide Pool, CountedIn, Names, CallIds, Story, Chained, Of, SDBM, FirstFound, Hashes, CallHashes;
      s := SearchSession(m);
      if s.Some? {
        assert sessTable + {s.value} == sessTable && traces[s.value] + [] == traces[s.value];
      }
    }

    // What one message makes of the state of its call, and what is told of it.
    static ghost function Final(b: Session): Session {
      Released(AllHeard(b.(sendStart := true)))
    }

    static ghost function AllEvents(b: Session): seq<Event> {
      StartEvents(b) + SideEvents(b) + EndEvents(b)
    }

    // The end of a step that has a call in hand.
    method Conclude(s: nat)
      requires Sessions() && Counted(None) && Calls(Some(s), None) && s in sessTable && sessions[s].sendStart
      modifies `sessions, `traces
      ensures Sessions() && Counted(None) && Calls(None, None)
      ensures sessions == old(sessions)[s := Final(old(sessions)[s])]
      ensures traces == old(traces)[s := old(traces)[s] + (SideEvents(old(sessions)[s]) + EndEvents(old(sessions)[s]))]
    {
      hide Sessions, Counted, Calls, SideEvents;
      TellSide(s);
      assert EndEvents(sessions[s]) == EndEvents(old(sessions)[s]);
      FreeSession(s);
      assert traces[s] == old(traces)[s] + (SideEvents(old(sessions)[s]) + EndEvents(old(sessions)[s]));
    }

    // Which registrations a call has, and whether its start has been told, makes no difference to the rest.
    static lemma SameEvents(b: Session, x: Session)
      requires Rebound(b.(sendStart := true), x)
      ensures SideEvents(x) == SideEvents(b) && EndEvents(x) == EndEvents(b) && Rebound(Final(b), Final(x)) && x.sendStart
      ensures Final(x).registry0 == x.registry0 && Final(x).registry1 == x.registry1
    {
    }

    static lemma HeardKeeps(x: Session, m: Sip)
      ensures var z := Heard(x, m);
              && z.callId == x.callId && z.status == x.status && z.command == x.command && z.beginCall == x.beginCall
              && z.sendStart == x.sendStart && z.sendStop == x.sendStop
    {
    }

    static lemma AdvancedTurns(x: Session, z: Session, m: Sip)
      requires InUse(x.status) && Concerns(m)
      requires z.callId == x.callId && z.status == x.status && z.command == x.command && z.beginCall == x.beginCall
      ensures Turned(x, Advanced(z, m), m)
    {
    }

    static lemma FinalKeeps(b: Session, y: Session)
      requires Rebound(Final(b), y)
      ensures y.callId == b.callId && y.status == b.status && y.command == b.command && y.beginCall == b.beginCall && y.lastMessage == b.lastMessage
    {
    }

    static lemma TurnedBy(x: Session, y: Session, m: Sip)
      requires InUse(x.status) && Concerns(m) && Rebound(Final(Advanced(Heard(x, m), m)), y)
      ensures Turned(x, y, m)
    {
      hide Heard, Advanced, Final, Rebound, Concerns, Stops, GoesOn, Connects;
      HeardKeeps(x, m);
      AdvancedTurns(x, Heard(x, m), m);
      FinalKeeps(Advanced(Heard(x, m), m), y);
    }

    static lemma HeardSounds(x: Session, m: Sip)
      ensures var z, i := Heard(x, m), Sender(x, m);
              && Bit(z.recv1) == i && SideOf(z, 1 - i) == SideOf(x, 1 - i) && SideOf(z, i).mac == SideOf(x, i).mac
              && SideOf(z, i).task == (if m.hasMedia && m.media.Some? then m.media.value else SideOf(x, i).task)
    {
    }

    static lemma AdvancedKeeps(z: Session, m: Sip)
      ensures var b := Advanced(z, m); b.side0 == z.side0 && b.side1 == z.side1 && b.recv1 == z.recv1
    {
    }

    static lemma FinalSounds(b: Session, y: Session)
      requires Rebound(Final(b), y)
      ensures var i := Bit(b.recv1); SideOf(y, i) == Param(SideOf(b, i).mac, SideOf(b, i).task, SideOf(b, i).task) && SideOf(y, 1 - i) == SideOf(b, 1 - i)
    {
    }

    static lemma SoundsOf(x: Session, y: Session, m: Sip)
      requires Rebound(Final(Advanced(Heard(x, m), m)), y)
      ensures Sounds(x, y, m)
    {
      hide Heard, Advanced, Final, Rebound, Sender;
      HeardSounds(x, m);
      AdvancedKeeps(Heard(x, m), m);
      FinalSounds(Advanced(Heard(x, m), m), y);
    }

    // The events of one message, in order.
    static lemma EventsAre(x: Session, m: Sip)
      requires InUse(x.status) && Concerns(m) && Settled(x) && x.sendStart
      ensures var i, b := Sender(x, m), Advanced(Heard(x, m), m);
              && StartEvents(b) == []
              && SideEvents(b) == (if !SoundMoves(x, m) then [] else if SideOf(x, i).task.port == 0 then [NewSession(i)] else [UpdateSession(i)])
              && EndEvents(b) == if Stops(x, m) && !x.sendStop then [EndSession(0), EndSession(1), CallEnd] else []
    {
    }

    static lemma ToldBy(x: Session, t: seq<Event>, u: seq<Event>, m: Sip)
      requires Call(x, t, false, false) && Concerns(m) && u == t + AllEvents(Advanced(Heard(x, m), m))
      ensures Told(x, t, u, m)
    {
      hide Heard, Advanced, StartEvents, SideEvents, EndEvents, Stops, SoundMoves, Sender, SideOf, Concerns, Story, Told, Grown;
      EventsAre(x, m);
      var b, i, first := Advanced(Heard(x, m), m), Sender(x, m), SideOf(x, Sender(x, m)).task.port == 0;
      var v := t + SideEvents(b);
      assert u == v + EndEvents(b);
      SideCounts(t, SideEvents(b), v, i, SoundMoves(x, m), first);
      EndCounts(v, EndEvents(b), u, i, Stops(x, m) && !x.sendStop);
      GrownTwice(t, v, u, i, Bit(SoundMoves(x, m) && first), Bit(SoundMoves(x, m) && !first), Bit(Stops(x, m) && !x.sendStop));
      EndCount(x, t);
      ToldIf(x, t, u, m);
    }

    // By how many events of each kind a trace has grown; i is the side whose sound may have moved.
    static ghost predicate Grown(t: seq<Event>, u: seq<Event>, i: nat, news: nat, updates: nat, ends: nat) {
      var a, b := multiset(t), multiset(u);
      && i < 2 && t <= u && b[CallStart] == a[CallStart] && b[CallEnd] == a[CallEnd] + ends
      && b[NewSession(i)] == a[NewSession(i)] + news && b[UpdateSession(i)] == a[UpdateSession(i)] + updates
      && b[NewSession(1 - i)] == a[NewSession(1 - i)] && b[UpdateSession(1 - i)] == a[UpdateSession(1 - i)]
    }

    static lemma GrownTwice(t: seq<Event>, v: seq<Event>, u: seq<Event>, i: nat, news: nat, updates: nat, ends: nat)
      requires Grown(t, v, i, news, updates, 0) && Grown(v, u, i, 0, 0, ends)
      ensures Grown(t, u, i, news, updates, ends)
    {
    }

    static lemma SideCounts(t: seq<Event>, e: seq<Event>, u: seq<Event>, i: nat, moves: bool, first: bool)
      requires i < 2 && u == t + e && e == if !moves then [] else if first then [NewSession(i)] else [UpdateSession(i)]
      ensures Grown(t, u, i, Bit(moves && first), Bit(moves && !first), 0)
    {
      if !moves { assert t + e == t; }
    }

    static lemma EndCounts(t: seq<Event>, e: seq<Event>, u: seq<Event>, i: nat, ends: bool)
      requires i < 2 && u == t + e && e == if ends then [EndSession(0), EndSession(1), CallEnd] else []
      ensures Grown(t, u, i, 0, 0, Bit(ends))
    {
      if ends { assert t + e == ((t + [EndSession(0)]) + [EndSession(1)]) + [CallEnd]; } else { assert t + e == t; }
    }

    static lemma ToldIf(x: Session, t: seq<Event>, u: seq<Event>, m: Sip)
      requires multiset(t)[CallEnd] == Bit(x.sendStop)
      requires var first := SideOf(x, Sender(x, m)).task.port == 0;
               Grown(t, u, Sender(x, m), Bit(SoundMoves(x, m) && first), Bit(SoundMoves(x, m) && !first), Bit(Stops(x, m) && !x.sendStop))
      ensures Told(x, t, u, m)
    {
      hide Stops, SoundMoves, Sender, SideOf;
      assert CallEnd in multiset(t) <==> CallEnd in t;
      assert CallEnd in multiset(u) <==> CallEnd in u;
    }

    static lemma OpenedBy(y: Session, u: seq<Event>, m: Sip)
      requires m.Parsed() && Rebound(Final(NewCall(m)), y) && u == [] + AllEvents(NewCall(m))
      ensures Opened(y, u, m)
    {
    }

    // What a message has made of the call it went to.
    static ghost predicate Served(table: set<nat>, was: seq<Session>, told: seq<seq<Event>>, s: nat, y: Session, u: seq<Event>, m: Sip)
      requires s < |was| && s < |told|
    {
      if s in table then Turned(was[s], y, m) && Sounds(was[s], y, m) && Told(was[s], told[s], u, m) else Opened(y, u, m)
    }

    static lemma ServedBy(table: set<nat>, was: seq<Session>, told: seq<seq<Event>>, s: nat, y: Session, u: seq<Event>, m: Sip)
      requires s < |was| && s < |told| && m.Parsed() && Concerns(m) && CallsIn(was, told, table, None, None) && (s !in table ==> told[s] == [])
      requires var b := Base(table, was, s, m); Rebound(Final(b), y) && u == told[s] + AllEvents(b)
      ensures Served(table, was, told, s, y, u, m)
    {
      hide Heard, Advanced, NewCall, Final, AllEvents, Story, Concerns, Turned, Sounds, Told, Opened;
      if s in table {
        assert Call(was[s], told[s], false, false);
        TurnedBy(was[s], y, m);
        SoundsOf(was[s], y, m);
        ToldBy(was[s], told[s], u, m);
      } else {
        OpenedBy(y, u, m);
      }
    }

    // What a message has done once its registration has been let go of.
    static ghost predicate Registered(was: seq<Registration>, table: set<nat>, regs: seq<Registration>, regTable: set<nat>, m: Sip, r: Option<nat>) {
      match r
      case None =>
        regs == was && regTable == table && forall q | q in table && q < |was| && Subject(m).Some? :: was[q].name != Subject(m)
      case Some(q) =>
        && q < |was| && Subject(m).Some? && regTable == table + {q}
        && regs == was[q := if q in table then Refreshed(was[q], m) else NewRegistration(Subject(m).value, Replaced(m))]
        && (q in table ==> was[q].name == Subject(m))
        && (q !in table ==> forall p | p in table && p < |was| :: was[p].name != Subject(m))
    }

    method ServeRegistry(m: Sip) returns (mine: bool, status: Status, ghost r: Option<nat>)
      requires Registrations() && Counted(None)
      modifies `regs, `regFree, `regCountFree, `regTable, `regChains
      ensures Registrations() && Counted(None) && (mine <==> r.Some?)
      ensures Subject(m).Some? ==> if r.None? then !status.Ok? else status == if r.value in old(regTable) then Left(m) else Ok
      ensures Subject(m).None? ==> !mine && (status.Ok? || m.command == Register || m.start == Register)
      ensures Registered(old(regs), old(regTable), regs, regTable, m, r)
    {
      hide Pool, CountedIn, Names, Subject, Replaced, Refreshed, NewRegistration, Chained, Hashes;
      var found;
      found, status := CheckRegistry(m);
      r, mine := found, found.Some?;
      if mine {
        ghost var was := regs;
        FreeRegistry(found.value);
        assert regs == was[found.value := was[found.value].(colSession := was[found.value].colSession - 1)];
      }
    }

    // One message.  It changes no call, or the one it belongs to, and no registration, or the one it is about, or those that
    // it binds its call to.
    method Worker(m: Sip) returns (status: Status, ghost touched: Option<nat>, ghost user: Option<nat>)
      requires Valid() && m.Parsed()
      modifies this
      ensures Valid() && ended == old(ended)
      ensures !m.urlsOk ==> unchanged(this) && !status.Ok?
      ensures m.urlsOk && Subject(m).Some? ==>
                && touched.None? && Registered(old(regs), old(regTable), regs, regTable, m, user)
                && if user.None? then !status.Ok? else status == if user.value in old(regTable) then Left(m) else Ok
      ensures m.urlsOk && Subject(m).None? ==> regTable == old(regTable) && (touched.None? ==> regs == old(regs))
      ensures m.urlsOk && Subject(m).None? && m.command != Register && m.start != Register ==>
                (touched.Some? <==> old(Reaches(sessChains, sessions, sessFree != [], m)))
      ensures touched.None? ==> sessTable == old(sessTable) && sessions == old(sessions) && traces == old(traces)
      ensures touched.Some? ==>
                touched.value < |old(sessions)| && Belongs(old(sessChains), old(sessTable), old(sessions), touched.value, m)
      ensures touched.Some? ==>
                var s, b := touched.value, Base(old(sessTable), old(sessions), touched.value, m);
                && s < |old(traces)| && sessTable == old(sessTable) + {s} && |sessions| == |old(sessions)| && sessions == old(sessions)[s := sessions[s]]
                && Rebound(Final(b), sessions[s]) && traces == old(traces)[s := old(traces)[s] + AllEvents(b)]
                && Binding(old(regs), old(regTable), regs, m, b, sessions[s])
      ensures touched.Some? ==>
                var s := touched.value; Served(old(sessTable), old(sessions), old(traces), s, sessions[s], traces[s], m)
    {
      hide Valid, Heard, Advanced, NewCall, Belongs, Final, AllEvents, Registered, Subject, Reaches, Left, Binding, Served;
      touched, user := None, None;
      if !m.urlsOk { return ER_SIP_PARSE_URL, None, None; }
      var mine;
      mine, status, user := AnyRegistry(m);
      if mine || status != Ok { return; }
      status, touched := ServeSession(m);
    }

    method AnyRegistry(m: Sip) returns (mine: bool, status: Status, ghost r: Option<nat>)
      requires Valid()
      modifies `regs, `regFree, `regCountFree, `regTable, `regChains
      ensures Valid() && (mine <==> r.Some?)
      ensures Subject(m).Some? ==> if r.None? then !status.Ok? else status == if r.value in old(regTable) then Left(m) else Ok
      ensures Subject(m).None? ==> !mine && regs == old(regs) && regTable == old(regTable) && (status.Ok? || m.command == Register || m.start == Register)
      ensures Registered(old(regs), old(regTable), regs, regTable, m, r)
    {
      hide Registrations, Sessions, Counted, Calls, Finished, Registered, Subject, Left;
      mine, status, r := ServeRegistry(m);
      Unregistered(old(regs), old(regTable), regs, regTable, m, r);
    }

    // A message that is about no registration is taken to the call it belongs to.
    method ServeSession(m: Sip) returns (status: Status, ghost touched: Option<nat>)
      requires Valid() && m.Parsed()
      modifies `regs, `sessions, `sessFree, `sessCountFree, `sessTable, `sessChains, `traces
      ensures Valid() && (touched.Some? <==> old(Reaches(sessChains, sessions, sessFree != [], m)))
      ensures touched.None? ==> sessTable == old(sessTable) && sessions == old(sessions) && traces == old(traces) && regs == old(regs)
      ensures touched.Some? ==>
                touched.value < |old(sessions)| && Belongs(old(sessChains), old(sessTable), old(sessions), touched.value, m)
      ensures touched.Some? ==>
                var s, b := touched.value, Base(old(sessTable), old(sessions), touched.value, m);
                && s < |old(traces)| && sessTable == old(sessTable) + {s} && |sessions| == |old(sessions)| && sessions == old(sessions)[s := sessions[s]]
                && Rebound(Final(b), sessions[s]) && traces == old(traces)[s := old(traces)[s] + AllEvents(b)]
                && Binding(old(regs), regTable, regs, m, b, sessions[s])
      ensures touched.Some? ==>
                var s := touched.value; Served(old(sessTable), old(sessions), old(traces), s, sessions[s], traces[s], m)
    {
      hide Registrations, Sessions, Counted, Calls, Finished, Heard, Advanced, NewCall, Belongs, Final, StartEvents, SideEvents, EndEvents, Reaches, Binding, CallsIn, Served, Concerns;
      CallsNow();
      touched := None;
      var s;
      s, status := CheckActiveSession(m);
      if s == None { return; }
      touched := s;
      ghost var b, x := Base(old(sessTable), old(sessions), s.value, m), sessions[s.value];
      SameEvents(b, x);
      Conclude(s.value);
      SameBinding(old(regs), regTable, regs, m, b, b, x, sessions[s.value]);
      assert traces[s.value] == old(traces)[s.value] + AllEvents(b);
      ReachesConcerns(old(sessChains), old(sessions), old(sessFree != []), m);
      ServedBy(old(sessTable), old(sessions), old(traces), s.value, sessions[s.value], traces[s.value], m);
    }

    lemma CallsNow()
      requires Valid()
      ensures CallsIn(sessions, traces, sessTable, None, None) && forall s | 0 <= s < |traces| && s !in sessTable :: traces[s] == []
    {
    }

    static lemma ReachesConcerns(chains: Chains, sessions: seq<Session>, room: bool, m: Sip)
      requires Reaches(chains, sessions, room, m)
      ensures Concerns(m)
    {
    }

    static lemma Unregistered(was: seq<Registration>, table: set<nat>, regs: seq<Registration>, regTable: set<nat>, m: Sip, r: Option<nat>)
      requires Registered(was, table, regs, regTable, m, r)
      ensures r.None? ==> regs == was && regTable == table
    {
      hide Subject, Refreshed, NewRegistration;
    }

    // Nobody refers to a registration whose count is zero.
    static lemma Unreferenced(regs: seq<Registration>, regTable: set<nat>, sessions: seq<Session>, sessTable: set<nat>, v: nat)
      requires CountedIn(regs, regTable, sessions, sessTable, None) && v in regTable && v < |regs| && regs[v].colSession <= 0
      ensures CountedIn(regs[v := NO_REGISTRATION], regTable - {v}, sessions, sessTable, None)
    {
      assert Side0(v, sessions, sessTable) == {} && Side1(v, sessions, sessTable) == {};
      forall s | s in sessTable && s < |sessions|
        ensures sessions[s].registry0 != Some(v) && sessions[s].registry1 != Some(v)
      {
        assert s !in Side0(v, sessions, sessTable) && s !in Side1(v, sessions, sessTable);
      }
      hide References;
    }

    // The record of a registration goes back to the pool.
    method RecycleRegistry(v: nat)
      requires Registrations() && Counted(None) && v in regTable && regs[v].colSession <= 0
      modifies `regs, `regFree, `regCountFree, `regTable, `regChains
      ensures Registrations() && Counted(None) && regTable == old(regTable) - {v} && regs == old(regs)[v := NO_REGISTRATION]
      ensures old(regs)[v].name.Some? && regChains == Drop(old(regChains), SDBM(old(regs)[v].name.value), v)
    {
      hide Pool, CountedIn, Names, Chained, Drop, Hashes, SDBM;
      Give(|regs|, regFree, regTable, v);
      Unreferenced(regs, regTable, sessions, sessTable, v);
      FewerNames(regs, regTable, v);
      var h := SDBM(regs[v].name.value);
      LostHash(regs, regTable, v);
      Dropped(regChains, Hashes(regs, regTable), h, v);
      regs, regFree, regCountFree, regTable, regChains := regs[v := NO_REGISTRATION], [v] + regFree, regCountFree + 1, regTable - {v}, Drop(regChains, h, v);
    }

    static lemma LostHash(regs: seq<Registration>, table: set<nat>, v: nat)
      requires v < |regs| && v in table && regs[v].name.Some?
      ensures v in Hashes(regs, table) && Hashes(regs, table)[v] == SDBM(regs[v].name.value)
      ensures Hashes(regs[v := NO_REGISTRATION], table - {v}) == Hashes(regs, table) - {v}
    {
      hide SDBM;
    }

    static lemma FewerNames(regs: seq<Registration>, table: set<nat>, v: nat)
      requires Names(regs, table) && v < |regs|
      ensures Names(regs[v := NO_REGISTRATION], table - {v})
    {
    }

    // Deleting a registration takes the head of its chain, whichever that is, if nobody refers to it, and else nothing.
    method DeleteRegistry(r: nat) returns (ghost victim: Option<nat>)
      requires Registrations() && Counted(None) && r < |regs|
      modifies `regs, `regFree, `regCountFree, `regTable, `regChains
      ensures Registrations() && Counted(None)
      ensures Files(regs, regChains) == old(Files(regs, regChains)).Deleted(r)
      ensures victim == old(Files(regs, regChains)).Victim(r)
      ensures regTable == old(regTable) - (if victim.Some? then {victim.value} else {})
    {
      hide Pool, CountedIn, Names, Hashes, Drop, SDBM;
      victim := None;
      if regs[r].name == None { return; }
      var c := Of(regChains, SDBM(regs[r].name.value));
      HeadOfChain(regs, regTable, regChains, r);
      var v := c[0];
      if regs[v].colSession > 0 { return; }
      RecycleRegistry(v);
      victim := Some(v);
    }

    // The chain of a registration has a head, which has the same hash.
    static lemma HeadOfChain(regs: seq<Registration>, table: set<nat>, chains: Chains, r: nat)
      requires Chained(chains, Hashes(regs, table)) && r < |regs| && r in table && regs[r].name.Some?
      ensures var h := SDBM(regs[r].name.value);
              var c := Of(chains, h);
              && r in c && c != [] && c[0] in table && c[0] < |regs| && regs[c[0]].name.Some? && SDBM(regs[c[0]].name.value) == h
    {
      hide SDBM, Of;
      var h := SDBM(regs[r].name.value);
      ChainOfRegistrations(chains, regs, table, r, h);
      ChainOfRegistrations(chains, regs, table, Of(chains, h)[0], h);
    }

    // A call gives up one of its registrations.
    method Unrefer(s: nat, first: bool)
      requires Registrations() && Sessions() && Counted(None) && Calls(None, None) && s in sessTable
      modifies `regs, `sessions
      ensures Registrations() && Sessions() && Counted(None) && Calls(None, None)
      ensures sessions == old(sessions)[s := if first then old(sessions)[s].(registry0 := None) else old(sessions)[s].(registry1 := None)]
    {
      hide Pool, CountedIn, Story, CallIds, Names, Chained, Hashes, CallHashes;
      var r := if first then sessions[s].registry0 else sessions[s].registry1;
      var y := if first then sessions[s].(registry0 := None) else sessions[s].(registry1 := None);
      if r.Some? {
        ReferCounted(regs, regTable, sessions, sessTable, s, y, r.value, None, r);
        SameCallId(sessions, sessTable, s, y);
        SameCallHashes(sessions, sessTable, s, y);
        sessions := sessions[s := y];
        FreeRegistry(r.value);
      } else {
        assert sessions[s := y] == sessions;
      }
    }

    // The record of a call goes back to the pool.
    method Recycle(s: nat, closed: bool)
      requires Sessions() && Counted(None) && Calls(None, None) && Finished() && s in sessTable
      requires sessions[s].registry0 == sessions[s].registry1 == None && (closed || sessions[s].sendStop)
      modifies `sessions, `sessFree, `sessCountFree, `sessTable, `sessChains, `traces, `ended
      ensures Sessions() && Counted(None) && Calls(None, None) && Finished()
      ensures sessTable == old(sessTable) - {s} && sessions == old(sessions)[s := NO_SESSION]
      ensures ended == old(ended) + [Over(old(traces)[s], closed, old(sessions)[s].sendStop)]
    {
      hide Pool, CountedIn, Story, CallIds, Chained, CallHashes, Call, Complete;
      ended := ended + [Over(traces[s], closed, sessions[s].sendStop)];
      Concluded(sessions[s], traces[s], closed);
      Vacate(s);
    }

    method Vacate(s: nat)
      requires Sessions() && Counted(None) && Calls(None, None) && s in sessTable
      requires sessions[s].registry0 == sessions[s].registry1 == None
      modifies `sessions, `sessFree, `sessCountFree, `sessTable, `sessChains, `traces
      ensures Sessions() && Counted(None) && Calls(None, None)
      ensures sessTable == old(sessTable) - {s} && sessions == old(sessions)[s := NO_SESSION]
    {
      hide Pool, CountedIn, CallIds, Chained, CallHashes, Drop, SDBM, Call;
      Give(|sessions|, sessFree, sessTable, s);
      FewerCallIds(sessions, sessTable, s, NO_SESSION);
      LeaveCounted(regs, regTable, sessions, sessTable, s, NO_SESSION);
      LostCallHash(sessions, sessTable, s);
      Dropped(sessChains, CallHashes(sessions, sessTable), SDBM(sessions[s].callId), s);
      sessChains := Drop(sessChains, SDBM(sessions[s].callId), s);
      sessions, traces := sessions[s := NO_SESSION], traces[s := []];
      sessFree, sessCountFree, sessTable := [s] + sessFree, sessCountFree + 1, sessTable - {s};
    }

    static lemma Concluded(x: Session, t: seq<Event>, closed: bool)
      requires Call(x, t, false, false) && (closed || x.sendStop)
      ensures Complete(Over(t, closed, x.sendStop))
    {
      hide Story;
    }

    static lemma LostCallHash(sessions: seq<Session>, table: set<nat>, s: nat)
      requires s < |sessions| && s in table
      ensures s in CallHashes(sessions, table) && CallHashes(sessions, table)[s] == SDBM(sessions[s].callId)
      ensures CallHashes(sessions[s := NO_SESSION], table - {s}) == CallHashes(sessions, table) - {s}
    {
      hide SDBM;
    }

    static lemma FewerCallIds(sessions: seq<Session>, table: set<nat>, s: nat, x: Session)
      requires CallIds(sessions, table) && s < |sessions|
      ensures CallIds(sessions[s := x], table - {s})
    {
    }

    // The delete callback has found a call that nobody has in hand.
    method HdSession(s: nat, closed: bool)
      requires Valid() && s in sessTable && (closed || sessions[s].sendStop)
      modifies this
      ensures Valid() && sessTable == old(sessTable) - {s} && sessions == old(sessions)[s := NO_SESSION]
      ensures ended == old(ended) + [Over(old(traces)[s], closed, old(sessions)[s].sendStop)]
    {
      hide Pool, CountedIn, Story, CallIds, Names, Chained, Hashes, CallHashes;
      Change(s, sessions[s].(status := ST_INVITE_STOP), traces[s], None, None, None, None);
      if sessions[s].colSession > 0 { return; }
      Unrefer(s, true);
      Unrefer(s, false);
      Recycle(s, closed);
    }

    // The calls whose records have been given back since the first n have been told to be over.
    ghost predicate EndTold(n: nat)
      reads `ended
    {
      forall k | n <= k < |ended| :: CallEnd in ended[k].trace && !ended[k].closed && ended[k].told
    }

    // Delete a call, after telling that it is over.
    method DeleteSession(s: nat)
      requires Valid() && s in sessTable
      modifies this
      ensures Valid() && sessTable == old(sessTable) - {s} && sessions == old(sessions)[s := NO_SESSION]
      ensures |ended| == |old(ended)| + 1 && old(ended) <= ended && EndTold(|old(ended)|)
    {
      hide Sessions, Registrations, CountedIn, Calls, Finished, Story;
      TellEnd(s);
      HdSession(s, false);
    }

    method TellEnd(s: nat)
      requires Valid() && s in sessTable
      modifies `sessions, `traces
      ensures Valid() && sessions[s].sendStop && CallEnd in traces[s] && sessions == old(sessions)[s := sessions[s]]
    {
      hide Pool, CountedIn, Story, CallIds, Names, Chained, Hashes, CallHashes;
      var x, t := sessions[s], traces[s];
      if !x.sendStop {
        StoryEnds(t, x.side0.heard.port != 0, x.side1.heard.port != 0);
        Change(s, x.(sendStop := true), t + [EndSession(0), EndSession(1), CallEnd], None, None, None, None);
      }
      EndHeard(sessions[s], traces[s]);
    }

    static lemma EndHeard(x: Session, t: seq<Event>)
      requires Telling(x, t) && x.sendStop
      ensures CallEnd in t
    {
    }

    // The first call of a chain whose call-id another one begins with.
    static function FirstClosing(chain: seq<nat>, sessions: seq<Session>, key: Key): (r: Option<nat>)
      ensures r.Some? ==> r.value in chain && r.value < |sessions| && sessions[r.value].callId <= key
      ensures r.None? ==> forall s | s in chain && s < |sessions| :: !(sessions[s].callId <= key)
    {
      if chain == [] then None
      else if chain[0] < |sessions| && sessions[chain[0]].callId <= key then Some(chain[0])
      else FirstClosing(chain[1..], sessions, key)
    }

    method WalkToClose(chain: seq<nat>, key: Key) returns (found: Option<nat>)
      ensures found == FirstClosing(chain, sessions, key)
    {
      var i := 0;
      assert chain[0..] == chain;
      while i < |chain|
        invariant i <= |chain| && FirstClosing(chain, sessions, key) == FirstClosing(chain[i..], sessions, key)
      {
        if chain[i] < |sessions| && sessions[chain[i]].callId <= key { return Some(chain[i]); }
        assert chain[i..][1..] == chain[i + 1..];
        i := i + 1;
      }
      return None;
    }

    // Close the first call of the chain whose call-id the key begins with.  Nothing is told, so its end has been heard, once,
    // if and only if it had been told before.
    method CloseSession(key: Key) returns (ghost closed: Option<nat>)
      requires Valid()
      modifies this
      ensures Valid() && closed == FirstClosing(Of(old(sessChains), SDBM(key)), old(sessions), key)
      ensures closed.None? ==> unchanged(this)
      ensures closed.Some? ==>
                var s := closed.value;
                && s in old(sessTable) && s < |old(traces)| && sessTable == old(sessTable) - {s} && sessions == old(sessions)[s := NO_SESSION]
                && ended == old(ended) + [Over(old(traces)[s], true, old(sessions)[s].sendStop)]
                && multiset(old(traces)[s])[CallEnd] == Bit(old(sessions)[s].sendStop)
    {
      hide Registrations, CountedIn, Finished, Of, SDBM, FirstClosing, Story, Pool, CallIds, CallHashes, Chained;
      var chain := Of(sessChains, SDBM(key));
      var found := WalkToClose(chain, key);
      closed := found;
      if found.Some? {
        ChainOfCalls(sessChains, sessions, sessTable, found.value, SDBM(key));
        EndCount(sessions[found.value], traces[found.value]);
        HdSession(found.value, true);
      }
    }

    static lemma EndCount(x: Session, t: seq<Event>)
      requires Telling(x, t)
      ensures multiset(t)[CallEnd] == Bit(x.sendStop)
    {
    }

    // A call that has just begun, and is closed then, has told its start and never its end.
    static lemma ClosedUntold(m: Sip)
      requires m.Parsed()
      ensures var x, t := Final(NewCall(m)), AllEvents(NewCall(m));
              Call(x, t, false, false) && !x.sendStop && CallStart in t && CallEnd !in t
    {
    }

    // What a sweep leaves alone.
    static predicate Lasting(x: Session, now: int) {
      x.status == ST_INVITE_BELL || (x.status == ST_INVITE_START && !(x.lastMessage + MAX_TIME_CONNECT < now))
    }

    function SessionCount(): int
      reads this
    {
      |sessions| - sessCountFree
    }

    // The pool and the table agree on the number of calls.
    lemma UsageIsTable()
      requires Valid()
      ensures SessionCount() == |sessTable| && |regs| - regCountFree == |regTable|
    {
    }

    lemma Defined(s: nat)
      requires Sessions() && Calls(None, None) && s < |sessions|
      ensures sessions[s].status != ST_NOT_DEFINED <==> s in sessTable
      ensures s in sessTable ==> sessions[s].colSession == 0 && InUse(sessions[s].status)
    {
    }

    // What a sweep does to one record.
    method SweepOne(s: nat, now: int) returns (seen: bool)
      requires Valid() && s < |sessions|
      modifies this
      ensures Valid() && (seen <==> s in old(sessTable))
      ensures sessTable == if s in old(sessTable) && !Lasting(old(sessions)[s], now) then old(sessTable) - {s} else old(sessTable)
      ensures forall q | q in sessTable :: sessions[q] == old(sessions)[q]
      ensures old(ended) <= ended && EndTold(|old(ended)|)
    {
      hide Pool, CountedIn, Story, CallIds, Names, Call;
      Defined(s);
      seen := sessions[s].status != ST_NOT_DEFINED;
      if seen && sessions[s].colSession == 0 {
        if sessions[s].status == ST_INVITE_START {
          if sessions[s].lastMessage + MAX_TIME_CONNECT < now {
            DeleteSession(s);
          }
        } else if sessions[s].status == ST_INVITE_STOP || sessions[s].status == ST_CLOSE_TRANSPORT {
          DeleteSession(s);
        }
      }
    }

    // What has become of the calls of a table when the first i records have been looked at.
    static ghost predicate SweptCalls(was: seq<Session>, table: set<nat>, sessions: seq<Session>, sessTable: set<nat>, i: nat, now: int) {
      && sessTable <= table && (forall s | s in sessTable :: s < |was| && s < |sessions| && sessions[s] == was[s])
      && forall s | s in table && s < |was| :: s in sessTable <==> (s < i ==> Lasting(was[s], now))
    }

    static lemma OneSwept(was: seq<Session>, table: set<nat>, before: seq<Session>, sessions: seq<Session>, tableBefore: set<nat>,
                          sessTable: set<nat>, i: nat, now: int)
      requires SweptCalls(was, table, before, tableBefore, i, now) && i < |was| && forall s | s in table :: s < |was|
      requires sessTable == if i in tableBefore && !Lasting(before[i], now) then tableBefore - {i} else tableBefore
      requires forall s | s in sessTable :: s < |sessions| && sessions[s] == before[s]
      ensures SweptCalls(was, table, sessions, sessTable, i + 1, now)
    {
      hide Lasting;
    }

    // When none of the table is left to be looked at, the sweep is complete.
    static lemma NoneLeft(was: seq<Session>, table: set<nat>, sessions: seq<Session>, sessTable: set<nat>, i: nat, now: int)
      requires SweptCalls(was, table, sessions, sessTable, i, now) && forall s | s in table :: s < |was| && s < i
      ensures sessTable == set s | s in table && s < |was| && Lasting(was[s], now)
      ensures forall s | s in sessTable :: s < |was| && s < |sessions| && sessions[s] == was[s]
    {
      hide Lasting;
    }

    // One sweep: it looks at as many records in use as there are, and stops then.
    method Reglament(now: int)
      requires Valid()
      modifies this
      ensures Valid() && sessTable == set s | s in old(sessTable) && s < |old(sessions)| && Lasting(old(sessions)[s], now)
      ensures forall s | s in sessTable :: s < |old(sessions)| && sessions[s] == old(sessions)[s]
      ensures old(ended) <= ended && EndTold(|old(ended)|)
    {
      hide Valid, Lasting, SweptCalls;
      UsageIsTable();
      var count := SessionCount();
      ghost var table, was, rest := sessTable, sessions, sessTable;
      NoneSwept(was, table, now);
      var i := 0;
      while i < CFG_SIP_SESSIONS_TABLE_SIZE
        invariant i <= CFG_SIP_SESSIONS_TABLE_SIZE && Valid() && count == |rest| && rest == set s | s in table && s >= i
        invariant SweptCalls(was, table, sessions, sessTable, i, now)
        invariant old(ended) <= ended && EndTold(|old(ended)|)
      {
        if count <= 0 { break; }
        ghost var before, tableBefore := sessions, sessTable;
        var seen := SweepOne(i, now);
        OneSwept(was, table, before, sessions, tableBefore, sessTable, i, now);
        SeenOrNot(was, table, before, tableBefore, i, now);
        rest := rest - {i};
        if seen { count := count - 1; }
        i := i + 1;
      }
      assert forall s | s in table :: s < i by { forall s | s in table ensures s < i { assert s !in rest; } }
      NoneLeft(was, table, sessions, sessTable, i, now);
    }

    static lemma NoneSwept(was: seq<Session>, table: set<nat>, now: int)
      requires forall s | s in table :: s < |was|
      ensures SweptCalls(was, table, was, table, 0, now)
    {
    }

    // A record that is still to be looked at is as it was.
    static lemma SeenOrNot(was: seq<Session>, table: set<nat>, sessions: seq<Session>, sessTable: set<nat>, i: nat, now: int)
      requires SweptCalls(was, table, sessions, sessTable, i, now) && i < |was|
      ensures i in sessTable <==> i in table
    {
    }

    // A call never refers to a registration that has been given back.
    lemma ReferredTo(s: nat)
      requires Valid() && s in sessTable
      ensures var r := sessions[s].registry0; r.Some? ==> r.value in regTable && regs[r.value].name.Some? && regs[r.value].colSession >= 1
      ensures var r := sessions[s].registry1; r.Some? ==> r.value in regTable && regs[r.value].name.Some? && regs[r.value].colSession >= 1
    {
      if sessions[s].registry0.Some? { Split(sessions[s].registry0.value, sessions, sessTable, s); }
      if sessions[s].registry1.Some? { Split(sessions[s].registry1.value, sessions, sessTable, s); }
      hide References;
    }

    // The whole trace of a call that is over: its start came first and once, and its end once or never, and never only for a
    // call that has been closed from outside before its end was told.
    lemma WholeStory(e: Over)
      requires Valid() && e in ended
      ensures e.trace != [] && e.trace[0] == CallStart && multiset(e.trace)[CallStart] == 1 && NewFirst(e.trace)
      ensures multiset(e.trace)[CallEnd] <= 1 && (multiset(e.trace)[CallEnd] == 1 <==> !e.closed || e.told)
      ensures forall side | 0 <= side < 2 ::
                multiset(e.trace)[NewSession(side)] <= 1 && multiset(e.trace)[EndSession(side)] == multiset(e.trace)[CallEnd]
    {
      assert Finished();
      assert Complete(e);
      var sound0, sound1 :| Story(e.trace, e.told, sound0, sound1);
      StoryFacts(e.trace, e.told, sound0, sound1);
      hide Sessions, Registrations, CountedIn, Calls, Story;
    }

    // A deletion on account of a registration that has expired, which is marked first.
    method SweepExpired(r: nat, now: int)
      requires Registrations() && Counted(None) && r < |regs|
      modifies `regs, `regFree, `regCountFree, `regTable, `regChains
      ensures Registrations() && Counted(None) && regTable <= old(regTable)
      ensures Files(regs, regChains) == old(Files(regs, regChains)).Expired(r, now)
    {
      hide Pool, CountedIn, Names, Chained, Hashes, Files.Deleted, Files.Victim;
      if regs[r].expires + regs[r].lastMessage + MAX_TIME_REGISTRY < now {
        MarkExpired(r);
        var victim := DeleteRegistry(r);
      }
    }

    method MarkExpired(r: nat)
      requires Registrations() && Counted(None) && r < |regs|
      modifies `regs
      ensures Registrations() && Counted(None) && regs == old(regs)[r := old(regs)[r].(status := ST_END_EXPIRY_REGISTER)]
    {
      hide Pool, References, Chained, Hashes;
      SameHashes(regs, regTable, r, regs[r].(status := ST_END_EXPIRY_REGISTER));
      regs := regs[r := regs[r].(status := ST_END_EXPIRY_REGISTER)];
    }

    // What a sweep does to one registration.  After a deletion it falls through to the check for expiry, and looks at the
    // record again, whether it has been given back or not.
    method SweepRegistry(r: nat, now: int) returns (seen: bool)
      requires Registrations() && Counted(None) && r < |regs|
      modifies `regs, `regFree, `regCountFree, `regTable, `regChains
      ensures Registrations() && Counted(None) && (seen <==> r in old(regTable)) && regTable <= old(regTable)
      ensures Files(regs, regChains) == old(Files(regs, regChains)).Visited(r, now)
    {
      hide Pool, CountedIn, Names, Chained, Hashes, Files.Deleted, Files.Expired, Files.Victim;
      seen := regs[r].name.Some?;
      if !seen { return; }
      if regs[r].colSession == 0 {
        if regs[r].status == ST_END_USER_REGISTER || regs[r].status == ST_ERROR_REGISTER {
          var victim := DeleteRegistry(r);
          SweepExpired(r, now);
        } else if regs[r].status == ST_REGISTER {
          SweepExpired(r, now);
        }
      }
    }

    // One sweep visits every registration, although it looks at no more records than there were in use, and stops then.
    method UserReglament(now: int)
      requires Valid()
      modifies `regs, `regFree, `regCountFree, `regTable, `regChains
      ensures Valid() && old(Files(regs, regChains)).Sound() && Files(regs, regChains) == old(Files(regs, regChains)).SweptTo(CFG_SIP_REG_TABLE_SIZE, now)
    {
      hide Registrations, Sessions, Counted, Calls, Finished, Files.Visited, Files.SweptTo, Files.Sound;
      InTable();
      var count := |regs| - regCountFree;
      ghost var was, table, rest := Files(regs, regChains), regTable, regTable;
      SoundFiles();
      NoneVisited(was, now);
      var i := 0;
      while i < CFG_SIP_REG_TABLE_SIZE
        invariant i <= CFG_SIP_REG_TABLE_SIZE && Registrations() && Counted(None) && regTable <= table
        invariant Files(regs, regChains) == was.SweptTo(i, now)
        invariant count >= |rest| && rest == set q | q in table && q >= i
      {
        if count <= 0 { break; }
        OneVisited(was, i, now);
        var seen := SweepRegistry(i, now);
        rest := rest - {i};
        if seen { count := count - 1; }
        i := i + 1;
      }
      assert rest == {};
      assert forall q | q in regTable :: q < i by { forall q | q in regTable ensures q < i { assert q !in rest; } }
      InTable();
      NothingToVisit(was, i, CFG_SIP_REG_TABLE_SIZE, now);
    }

    lemma InTable()
      requires Registrations()
      ensures |regs| == CFG_SIP_REG_TABLE_SIZE && |regs| - regCountFree == |regTable|
      ensures forall q | q in regTable :: q < |regs|
      ensures forall q: nat | q < |regs| && q !in regTable :: regs[q].name.None?
    {
    }

    lemma SoundFiles()
      requires Registrations()
      ensures Files(regs, regChains).Sound()
    {
      hide Chained;
      assert Hashes(regs, regTable) == Files(regs, regChains).Hashed();
    }

    static lemma NoneVisited(was: Files, now: int)
      ensures was.SweptTo(0, now) == was
    {
    }

    static lemma OneVisited(was: Files, i: nat, now: int)
      requires i < |was.SweptTo(i, now).regs|
      ensures was.SweptTo(i + 1, now) == was.SweptTo(i, now).Visited(i, now)
    {
      hide Files.Visited;
    }

    static lemma {:induction false} NothingToVisit(was: Files, i: nat, j: nat, now: int)
      requires var f := was.SweptTo(i, now); i <= j <= |f.regs| && forall q: nat | i <= q < |f.regs| :: f.regs[q].name.None?
      ensures was.SweptTo(j, now) == was.SweptTo(i, now)
      decreases j - i
    {
      if i < j {
        NothingToVisit(was, i, j - 1, now);
        OneVisited(was, j - 1, now);
      }
    }
  }

  // The registrations and the chains in which they are filed, and what deleting and sweeping make of them.
  datatype Files = Files(regs: seq<Registration>, chains: Chains) {
    // The registration that a deletion on account of record r takes: the head of the chain, if nobody refers to it.
    ghost function Victim(r: nat): (v: Option<nat>)
      requires r < |regs|
      ensures v.Some? ==> v.value < |regs| && regs[r].name.Some?
    {
      if regs[r].name.None? then None
      else var c := Of(chains, SDBM(regs[r].name.value));
        if c == [] || c[0] >= |regs| || regs[c[0]].colSession > 0 then None else Some(c[0])
    }

    ghost function Deleted(r: nat): (f: Files)
      requires r < |regs|
      ensures |f.regs| == |regs|
    {
      match Victim(r)
      case None => this
      case Some(v) => Files(regs[v := NO_REGISTRATION], Drop(chains, SDBM(regs[r].name.value), v))
    }

    ghost function Expired(r: nat, now: int): (f: Files)
      requires r < |regs|
      ensures |f.regs| == |regs|
    {
      if regs[r].expires + regs[r].lastMessage + MAX_TIME_REGISTRY < now
      then Files(regs[r := regs[r].(status := ST_END_EXPIRY_REGISTER)], chains).Deleted(r) else this
    }

    ghost function Visited(r: nat, now: int): (f: Files)
      requires r < |regs|
      ensures |f.regs| == |regs|
    {
      if regs[r].name.None? || regs[r].colSession != 0 then this
      else match regs[r].status
           case ST_END_USER_REGISTER => Deleted(r).Expired(r, now)
           case ST_ERROR_REGISTER => Deleted(r).Expired(r, now)
           case ST_REGISTER => Expired(r, now)
           case _ => this
    }

    // After a sweep has visited the first i records.
    ghost function SweptTo(i: nat, now: int): (f: Files)
      ensures |f.regs| == |regs|
    {
      if i == 0 then this
      else var f := SweptTo(i - 1, now); if i - 1 < |regs| then f.Visited(i - 1, now) else f
    }

    ghost function Hashed(): map<nat, int> {
      map r: nat | r < |regs| && regs[r].name.Some? :: SDBM(regs[r].name.value)
    }

    ghost predicate Sound() {
      Chained(chains, Hashed())
    }
  }
}
