// The records of registrations and calls, the messages that change them and what the listeners are told.
module SipRecords {
  import opened Basics
  import opened HashTable

  const MAX_TIME_CONNECT: int := 60
  const MAX_TIME_REGISTRY: int := 20
  const CFG_SIP_REG_TABLE_SIZE: nat := 1000
  const CFG_SIP_SESSIONS_TABLE_SIZE: nat := 4000

  datatype Method =
    | Message1xx | Message2xx | Message3xx | Message4xx | Message5xx | Message6xx
    | Invite | Ack | Bye | Cancel | Register | Options | Info | Prack | Update | Subscribe | Notify | Refer | Message | Publish

  predicate IsSipCommand(c: Method) {
    !(c.Message1xx? || c.Message2xx? || c.Message3xx? || c.Message4xx? || c.Message5xx? || c.Message6xx?)
  }

  datatype Status = Ok | OK_REGISTRY_NOT_FOUND | ER_SMALL_BUFFER | ER_SIP_PARSE_URL

  datatype UserStatus =
    ST_RECEIVE_NOTIFY | ST_RECEIVE_REGISTER_EXPIRES | ST_REGISTER | ST_END_USER_REGISTER | ST_END_EXPIRY_REGISTER | ST_ERROR_REGISTER

  // A record of the registration pool; a free one has no name.
  datatype Registration = Registration(name: Option<Key>, status: UserStatus, expires: int, lastMessage: int, hasCallId: bool, colSession: int)

  const NO_REGISTRATION := Registration(None, ST_RECEIVE_NOTIFY, 0, 0, false, 0)

  datatype RtpTask = RtpTask(addr: nat, port: nat, time: nat, active: bool, codec: nat)

  const NO_TASK := RtpTask(0, 0, 0, false, 0)

  // One side of a call: who it is and where its sound comes from, now and when the listeners were last told.
  datatype Param = Param(mac: nat, task: RtpTask, heard: RtpTask)

  datatype SessionStatus = ST_NOT_DEFINED | ST_INVITE_START | ST_INVITE_BELL | ST_INVITE_STOP | ST_CLOSE_TRANSPORT

  datatype Session = Session(callId: Key, status: SessionStatus, command: Method, side0: Param, side1: Param, recv1: bool,
                             sendStart: bool, sendStop: bool, registry0: Option<nat>, registry1: Option<nat>,
                             colSession: int, lastMessage: int, beginCall: int)
  {
    function Recv(): Param {
      if recv1 then side1 else side0
    }

    function WithRecv(p: Param): Session {
      if recv1 then this.(side1 := p) else this.(side0 := p)
    }
  }

  const NO_PARAM := Param(0, NO_TASK, NO_TASK)
  const NO_SESSION := Session([], ST_NOT_DEFINED, Message1xx, NO_PARAM, NO_PARAM, false, false, false, None, None, 0, 0, 0)

  // A parsed message.  media is what the first media description gives, with a port that is not 0, or nothing when it is
  // incomplete; namesFit and detailsFit say whether the memory for copies was there, and refreshed what is left in the status
  // when a registration is found and brought up to date.
  datatype Sip = Sip(command: Method, start: Method, callId: Key, from: Option<Key>, to: Option<Key>, urlsOk: bool,
                     srcIsPbx: bool, dstIsPbx: bool, srcMac: nat, dstMac: nat, hasMedia: bool, media: Option<RtpTask>,
                     expires: int, now: int, namesFit: bool, detailsFit: bool, refreshed: Status)
  {
    ghost predicate Parsed() {
      media.Some? ==> media.value.port != 0
    }
  }

  // What a listener hears about a call; a side is 0 or 1.
  datatype Event = CallStart | CallEnd | NewSession(side: nat) | UpdateSession(side: nat) | EndSession(side: nat)

  // The trace of a call whose record has been given back: whether that was by closing it from outside, and whether its end
  // had been told.
  datatype Over = Over(trace: seq<Event>, closed: bool, told: bool)

  function Bit(b: bool): nat {
    if b then 1 else 0
  }

  // On each side the new session comes before any update.
  ghost predicate NewFirst(t: seq<Event>) {
    forall i | 0 <= i < |t| && t[i].UpdateSession? :: NewSession(t[i].side) in t[..i]
  }

  // The trace of a call that has started: the start came first and once, the end has come once or not at all and the end
  // of both sides with it, and each side has become new once or not at all.
  ghost predicate Story(t: seq<Event>, stopped: bool, sound0: bool, sound1: bool) {
    && t != [] && t[0] == CallStart && multiset(t)[CallStart] == 1
    && multiset(t)[CallEnd] == multiset(t)[EndSession(0)] == multiset(t)[EndSession(1)] == Bit(stopped)
    && multiset(t)[NewSession(0)] == Bit(sound0) && multiset(t)[NewSession(1)] == Bit(sound1)
    && NewFirst(t)
  }

  // --- What a message does to a call, by the state of the call before it ---

  // The call is over: a BYE, or an ACK that nothing of the 200s has gone before; or it was over and is not invited again.
  predicate Stops(x: Session, m: Sip) {
    || m.command == Bye
    || (m.command == Ack && x.status == ST_INVITE_START && x.command != Message2xx)
    || (x.status == ST_INVITE_STOP && m.command != Invite)
  }

  // The call is on: an ACK to an answer of the 200s, or it was on and nothing has ended it.
  predicate Connects(x: Session, m: Sip) {
    m.command == Ack && x.status == ST_INVITE_START && x.command == Message2xx
  }

  predicate GoesOn(x: Session, m: Sip) {
    Connects(x, m) || (x.status == ST_INVITE_BELL && m.command != Invite && m.command != Bye)
  }

  // Whoever sends a message speaks for one side, the first if it has the address of that, and else the second.
  function Sender(x: Session, m: Sip): (side: nat)
    ensures side < 2
  {
    if x.side0.mac == m.srcMac then 0 else 1
  }

  function SideOf(x: Session, side: nat): Param {
    if side == 0 then x.side0 else x.side1
  }

  // The sound of the sender comes from elsewhere now.
  predicate SoundMoves(x: Session, m: Sip) {
    m.hasMedia && m.media.Some? && m.media.value != SideOf(x, Sender(x, m)).task
  }

  // The state of a call after a message.
  predicate Turned(x: Session, y: Session, m: Sip) {
    && y.callId == x.callId && y.command == m.command && y.lastMessage == m.now
    && (y.status == ST_INVITE_STOP <==> Stops(x, m))
    && (y.status == ST_INVITE_BELL <==> GoesOn(x, m))
    && (y.status == ST_INVITE_START <==> !Stops(x, m) && !GoesOn(x, m))
    && y.beginCall == if Connects(x, m) then m.now else x.beginCall
  }

  // Where its sound comes from.
  predicate Sounds(x: Session, y: Session, m: Sip) {
    var i := Sender(x, m);
    var now := if SoundMoves(x, m) then m.media.value else SideOf(x, i).task;
    SideOf(y, i) == Param(SideOf(x, i).mac, now, now) && SideOf(y, 1 - i) == SideOf(x, 1 - i)
  }

  // What is told of it: its end when it stops and that has not been told, and the sender's sound when that has moved, as new the
  // first time.
  ghost predicate Told(x: Session, t: seq<Event>, u: seq<Event>, m: Sip) {
    var i := Sender(x, m);
    && t <= u && (Stops(x, m) ==> CallEnd in u)
    && multiset(u)[CallEnd] == multiset(t)[CallEnd] + Bit(CallEnd !in t && Stops(x, m))
    && multiset(u)[NewSession(i)] == multiset(t)[NewSession(i)] + Bit(SoundMoves(x, m) && SideOf(x, i).task.port == 0)
    && multiset(u)[UpdateSession(i)] == multiset(t)[UpdateSession(i)] + Bit(SoundMoves(x, m) && SideOf(x, i).task.port != 0)
    && multiset(u)[NewSession(1 - i)] == multiset(t)[NewSession(1 - i)] && multiset(u)[UpdateSession(1 - i)] == multiset(t)[UpdateSession(1 - i)]
    && multiset(u)[CallStart] == multiset(t)[CallStart]
  }

  // A call that a message has begun, and all that has been told of it.
  ghost predicate Opened(y: Session, u: seq<Event>, m: Sip) {
    var sound := m.hasMedia && m.media.Some?;
    && y.callId == m.callId && y.status == ST_INVITE_START && y.command == Message1xx && y.lastMessage == m.now
    && y.side0.mac == m.srcMac && y.side1.mac == m.dstMac && y.side1.task == NO_TASK
    && y.side0.task == (if sound then m.media.value else NO_TASK)
    && u == [CallStart] + if sound then [NewSession(0)] else []
  }

  lemma StoryStarts()
    ensures Story([CallStart], false, false, false)
  {
  }

  lemma StoryEnds(t: seq<Event>, sound0: bool, sound1: bool)
    requires Story(t, false, sound0, sound1)
    ensures Story(t + [EndSession(0), EndSession(1), CallEnd], true, sound0, sound1)
  {
    var u := t + [EndSession(0), EndSession(1), CallEnd];
    assert u == ((t + [EndSession(0)]) + [EndSession(1)]) + [CallEnd];
    forall i | 0 <= i < |u| && u[i].UpdateSession?
      ensures NewSession(u[i].side) in u[..i]
    {
      assert u[..i] == t[..i];
    }
  }

  // The listeners hear of a side for the first time, or of a change.
  lemma StoryOfSide(t: seq<Event>, stopped: bool, sound0: bool, sound1: bool, side: nat)
    requires Story(t, stopped, sound0, sound1) && side < 2
    ensures var heard := if side == 0 then sound0 else sound1;
            Story(t + [if heard then UpdateSession(side) else NewSession(side)], stopped, sound0 || side == 0, sound1 || side == 1)
  {
    var heard := if side == 0 then sound0 else sound1;
    var e := if heard then UpdateSession(side) else NewSession(side);
    var u := t + [e];
    assert heard ==> NewSession(side) in multiset(t);
    forall i | 0 <= i < |u| && u[i].UpdateSession?
      ensures NewSession(u[i].side) in u[..i]
    {
      assert u[..i] == if i < |t| then t[..i] else t;
    }
  }

  lemma StoryFacts(t: seq<Event>, stopped: bool, sound0: bool, sound1: bool)
    requires Story(t, stopped, sound0, sound1)
    ensures t != [] && t[0] == CallStart && multiset(t)[CallStart] == 1 && NewFirst(t)
    ensures multiset(t)[CallEnd] == Bit(stopped)
    ensures forall side | 0 <= side < 2 :: multiset(t)[NewSession(side)] <= 1 && multiset(t)[EndSession(side)] == multiset(t)[CallEnd]
  {
    hide NewFirst;
    assert multiset(t)[NewSession(0)] <= 1 && multiset(t)[NewSession(1)] <= 1;
  }

  // How often a call refers to registration r, and how often all the calls in a table do.
  function Uses(x: Session, r: nat): nat {
    Bit(x.registry0 == Some(r)) + Bit(x.registry1 == Some(r))
  }

  ghost function Side0(r: nat, sessions: seq<Session>, table: set<nat>): set<nat> {
    set s | s in table && s < |sessions| && sessions[s].registry0 == Some(r)
  }

  ghost function Side1(r: nat, sessions: seq<Session>, table: set<nat>): set<nat> {
    set s | s in table && s < |sessions| && sessions[s].registry1 == Some(r)
  }

  ghost function References(r: nat, sessions: seq<Session>, table: set<nat>): nat {
    |Side0(r, sessions, table)| + |Side1(r, sessions, table)|
  }

  // One call changes: the references change by its own.
  lemma Rebind(r: nat, sessions: seq<Session>, table: set<nat>, s: nat, x: Session)
    requires s in table && s < |sessions|
    ensures References(r, sessions[s := x], table) + Uses(sessions[s], r) == References(r, sessions, table) + Uses(x, r)
  {
    Split(r, sessions, table, s);
    Split(r, sessions[s := x], table, s);
    assert Side0(r, sessions, table - {s}) == Side0(r, sessions[s := x], table - {s});
    assert Side1(r, sessions, table - {s}) == Side1(r, sessions[s := x], table - {s});
  }

  lemma Split(r: nat, sessions: seq<Session>, table: set<nat>, s: nat)
    requires s in table && s < |sessions|
    ensures References(r, sessions, table) == References(r, sessions, table - {s}) + Uses(sessions[s], r)
  {
    var a, b := Side0(r, sessions, table), Side1(r, sessions, table);
    assert Side0(r, sessions, table - {s}) == a - {s};
    assert Side1(r, sessions, table - {s}) == b - {s};
  }

  lemma Outside(r: nat, sessions: seq<Session>, table: set<nat>, s: nat, x: Session)
    requires s !in table && s < |sessions|
    ensures References(r, sessions[s := x], table) == References(r, sessions, table)
  {
    assert Side0(r, sessions, table) == Side0(r, sessions[s := x], table);
    assert Side1(r, sessions, table) == Side1(r, sessions[s := x], table);
  }

  // A call enters the table.
  lemma Enter(r: nat, sessions: seq<Session>, table: set<nat>, s: nat, x: Session)
    requires s !in table && s < |sessions|
    ensures References(r, sessions[s := x], table + {s}) == References(r, sessions, table) + Uses(x, r)
  {
    Outside(r, sessions, table, s, x);
    Split(r, sessions[s := x], table + {s}, s);
    assert table + {s} - {s} == table;
  }

  // A call leaves it.
  lemma Leave(r: nat, sessions: seq<Session>, table: set<nat>, s: nat, x: Session)
    requires s in table && s < |sessions|
    ensures References(r, sessions[s := x], table - {s}) + Uses(sessions[s], r) == References(r, sessions, table)
  {
    Split(r, sessions, table, s);
    Outside(r, sessions, table - {s}, s, x);
  }
}
