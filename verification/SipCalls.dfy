// A call from its beginning to its end, and a registration from one message to the next sweep.
module SipCalls {
  import opened Basics
  import opened Chains
  import opened HashTable
  import opened SipRecords
  import opened SipTables
  import opened SipSweep

  // The search finds call s if no other call has a call-id that begins with the wanted one, and none if there is no such call.
  lemma TargetIs(t: SipTables, m: Sip, s: nat)
    requires t.Valid() && s in t.sessTable && t.sessions[s].callId == m.callId
    requires forall q | q in t.sessTable && q != s :: !Matches(t.sessions[q].callId, m.callId)
    ensures SipTables.Target(t.sessChains, t.sessions, m) == Some(s)
  {
    hide SDBM, SipTables.FirstFound, Of, Chained, SipTables.CallHashes, SipTables.Registrations, SipTables.Counted, SipTables.Calls, Pool;
    var h := SDBM(m.callId);
    var r := SipTables.FirstFound(Of(t.sessChains, h), t.sessions, m.callId);
    SipTables.ChainOfCalls(t.sessChains, t.sessions, t.sessTable, s, h);
    if r.Some? { SipTables.ChainOfCalls(t.sessChains, t.sessions, t.sessTable, r.value, h); }
  }

  lemma NoTarget(t: SipTables, m: Sip)
    requires t.Valid() && forall q | q in t.sessTable :: !Matches(t.sessions[q].callId, m.callId)
    ensures SipTables.Target(t.sessChains, t.sessions, m) == None
  {
    hide SDBM, SipTables.FirstFound, Of, Chained, SipTables.CallHashes, SipTables.Registrations, SipTables.Counted, SipTables.Calls, Pool;
    var h := SDBM(m.callId);
    var r := SipTables.FirstFound(Of(t.sessChains, h), t.sessions, m.callId);
    if r.Some? { SipTables.ChainOfCalls(t.sessChains, t.sessions, t.sessTable, r.value, h); }
  }

  // A message of a call, about no registration.
  ghost predicate OfCall(m: Sip, id: Key) {
    m.Parsed() && m.urlsOk && m.callId == id && m.start != Register && m.start != Notify
  }

  // No call but s, if that is one, can be taken for one with this call-id.
  ghost predicate Alone(t: SipTables, id: Key, s: Option<nat>)
    reads t
  {
    forall q | q in t.sessTable && q < |t.sessions| && s != Some(q) :: !Matches(t.sessions[q].callId, id)
  }

  // An INVITE begins a call, to which it goes.
  method Begin(t: SipTables, invite: Sip, id: Key) returns (ghost s: nat)
    requires t.Valid() && OfCall(invite, id) && invite.command == Invite && Alone(t, id, None) && t.sessFree != [] && invite.namesFit
    modifies t
    ensures t.Valid() && s in t.sessTable && Alone(t, id, Some(s)) && s < |t.traces| && s < |t.sessions|
    ensures Opened(t.sessions[s], t.traces[s], invite)
  {
    hide SipTables.Valid, SipTables.Belongs, SipTables.Binding, SipTables.Final, SipTables.Base, SipTables.AllEvents, SipTables.Subject,
      SipTables.Reaches, SipTables.Served, SipTables.Registered, Opened, SipTables.Target, Matches;
    NoTarget(t, invite);
    InviteReaches(t.sessChains, t.sessions, t.sessFree != [], invite);
    var status;
    ghost var touched, user;
    status, touched, user := t.Worker(invite);
    s := touched.value;
    BeginsAt(old(t.sessChains), old(t.sessTable), old(t.sessions), old(t.traces), s, t.sessions[s], t.traces[s], invite);
    InTable(t);
  }

  lemma InviteReaches(chains: Chains, sessions: seq<Session>, room: bool, m: Sip)
    requires m.command == Invite && m.start != Register && room && m.namesFit
    ensures SipTables.Subject(m) == None && SipTables.Reaches(chains, sessions, room, m)
  {
    hide SipTables.Target;
  }

  lemma BeginsAt(chains: Chains, table: set<nat>, was: seq<Session>, told: seq<seq<Event>>, s: nat, y: Session, u: seq<Event>, m: Sip)
    requires s < |was| && s < |told| && SipTables.Belongs(chains, table, was, s, m) && SipTables.Target(chains, was, m) == None
    requires SipTables.Served(table, was, told, s, y, u, m)
    ensures s !in table && Opened(y, u, m)
  {
    hide SipTables.Target, Opened, Turned, Told, Sounds;
  }

  lemma InTable(t: SipTables)
    requires t.Valid()
    ensures |t.traces| == |t.sessions| && forall q | q in t.sessTable :: q < |t.sessions|
  {
  }

  // Any other message goes to the call that is there.
  method Continue(t: SipTables, m: Sip, id: Key, ghost s: nat)
    requires t.Valid() && OfCall(m, id) && s in t.sessTable && t.sessions[s].callId == id && Alone(t, id, Some(s)) && SipTables.Concerns(m)
    modifies t
    ensures t.Valid() && s in t.sessTable && Alone(t, id, Some(s)) && s < |t.traces| && s < |t.sessions|
    ensures Turned(old(t.sessions)[s], t.sessions[s], m) && Told(old(t.sessions)[s], old(t.traces)[s], t.traces[s], m)
  {
    hide SipTables.Registrations, SipTables.Sessions, SipTables.Counted, SipTables.Calls, SipTables.Finished, SipTables.Binding, SipTables.Final, SipTables.Base;
    hide Turned, Told, Opened, Sounds;
    TargetIs(t, m, s);
    var status;
    ghost var touched, user;
    status, touched, user := t.Worker(m);
  }

  lemma NoEndYet(u: seq<Event>, y: Session, m: Sip)
    requires Opened(y, u, m)
    ensures CallEnd !in u && CallStart in u
  {
  }

  lemma Counted(u: seq<Event>)
    ensures (CallEnd in u <==> multiset(u)[CallEnd] > 0) && (CallStart in u <==> multiset(u)[CallStart] > 0)
  {
    assert CallEnd in multiset(u) <==> CallEnd in u;
    assert CallStart in multiset(u) <==> CallStart in u;
  }

  // INVITE, an answer, ACK: after an answer of the 200s the call is on and its end untold, and after any other it is over and its end
  // has been told.
  method SetUp(t: SipTables, invite: Sip, answer: Sip, ack: Sip, id: Key) returns (ghost s: nat)
    requires t.Valid() && Alone(t, id, None) && t.sessFree != [] && invite.namesFit
    requires OfCall(invite, id) && invite.command == Invite && OfCall(ack, id) && ack.command == Ack
    requires OfCall(answer, id) && !IsSipCommand(answer.command) && answer.start == Invite
    modifies t
    ensures t.Valid() && s in t.sessTable && Alone(t, id, Some(s)) && s < |t.traces| && s < |t.sessions| && t.sessions[s].callId == id
    ensures CallStart in t.traces[s]
    ensures if answer.command == Message2xx
            then t.sessions[s].status == ST_INVITE_BELL && t.sessions[s].beginCall == ack.now && CallEnd !in t.traces[s]
            else t.sessions[s].status == ST_INVITE_STOP && CallEnd in t.traces[s]
  {
    hide SipTables.Valid, Alone;
    s := Begin(t, invite, id);
    NoEndYet(t.traces[s], t.sessions[s], invite);
    Counted(t.traces[s]);
    Continue(t, answer, id, s);
    Counted(t.traces[s]);
    Continue(t, ack, id, s);
    Counted(t.traces[s]);
  }

  // And after that a BYE ends it.
  method HangUp(t: SipTables, bye: Sip, id: Key, ghost s: nat)
    requires t.Valid() && OfCall(bye, id) && bye.command == Bye
    requires s in t.sessTable && t.sessions[s].callId == id && Alone(t, id, Some(s))
    modifies t
    ensures t.Valid() && s in t.sessTable && s < |t.traces| && s < |t.sessions| && t.sessions[s].status == ST_INVITE_STOP
    ensures CallEnd in t.traces[s]
  {
    hide SipTables.Valid, Alone;
    Continue(t, bye, id, s);
  }

  // When a sweep lets a call be, by the last message it has had: as long as it is on; or for 60 seconds after the message while it
  // has started only; and never once it is over.
  lemma LastsAfter(x: Session, y: Session, m: Sip, now: int)
    requires Turned(x, y, m)
    ensures SipTables.Lasting(y, now) <==> GoesOn(x, m) || (!Stops(x, m) && now <= m.now + 60)
  {
  }

  // --- Registrations ---

  // When a registration that nobody refers to is due, after a message about it: never after a REGISTER; at once after an answer of
  // the 200s that lets it expire; after one that does not, when it is past the time granted, from the answer on, and 20 seconds;
  // any other answer to a REGISTER starts the time again, and a notification changes nothing.
  lemma DueAfter(was: seq<Registration>, table: set<nat>, regs: seq<Registration>, regTable: set<nat>, m: Sip, q: nat, t: int)
    requires SipTables.Registered(was, table, regs, regTable, m, Some(q)) && q in table && q < |regs| && regs[q].colSession == 0
    ensures Due(regs[q], t) <==>
              if m.command == Register then false
              else if m.command == Message2xx && m.start == Register then m.expires == 0 || m.expires + m.now + 20 < t
              else Due(was[q], t)
  {
    hide SipTables.Subject;
    SubjectOf(m);
  }

  // The same for a registration that the message has made.
  lemma DueWhenNew(was: seq<Registration>, table: set<nat>, regs: seq<Registration>, regTable: set<nat>, m: Sip, q: nat, t: int)
    requires SipTables.Registered(was, table, regs, regTable, m, Some(q)) && q !in table && q < |regs| && regs[q].colSession == 0
    ensures Due(regs[q], t) <==> m.command == Message2xx && m.start == Register && (m.expires == 0 || m.expires + m.now + 20 < t)
  {
    hide SipTables.Subject;
    SubjectOf(m);
  }

  // A message is about a registration only if it is a REGISTER, or an answer of the 200s to one or to a NOTIFY.
  lemma SubjectOf(m: Sip)
    ensures SipTables.Subject(m).Some? ==> m.command == Register || (m.command == Message2xx && (m.start == Register || m.start == Notify))
    ensures m.command == Register && SipTables.Subject(m).Some? ==> SipTables.Subject(m) == m.from
  {
  }
}
