/** What every event of the chat server keeps, and what that means over whole runs. */
module ChatInvariants {
  import opened ChatProtocol
  import opened ChatServer
  import opened Options

  // ---------------------------------------------------------------- members of a room

  function Sids(members: seq<Member>): set<SessionId> {
    set m | m in members :: m.sid
  }

  lemma {:induction false} SidsCons(members: seq<Member>)
    requires members != []
    ensures Sids(members) == {members[0].sid} + Sids(members[1..])
  {
    assert forall m :: m in members <==> m == members[0] || m in members[1..];
  }

  ghost predicate Distinct(members: seq<Member>) {
    forall i, j :: 0 <= i < j < |members| ==> members[i].sid != members[j].sid
  }

  lemma {:induction false} FindIsMember(members: seq<Member>, sid: SessionId)
    ensures FindMember(members, sid).Some? <==> sid in Sids(members)
    ensures FindMember(members, sid).Some? ==> FindMember(members, sid).value in members
    ensures FindMember(members, sid).Some? ==> FindMember(members, sid).value.sid == sid
    decreases |members|
  {
    if members != [] && members[0].sid != sid {
      FindIsMember(members[1..], sid);
      assert forall m :: m in members <==> m == members[0] || m in members[1..];
    }
  }

  lemma {:induction false} DistinctCons(m: Member, rest: seq<Member>)
    requires Distinct(rest) && m.sid !in Sids(rest)
    ensures Distinct([m] + rest)
  {
    forall j | 0 <= j < |rest|
      ensures rest[j].sid != m.sid
    {
      assert rest[j] in rest;
    }
  }

  lemma {:induction false} WithMemberIs(members: seq<Member>, m: Member)
    requires Distinct(members)
    ensures var r := WithMember(members, m);
            && Distinct(r) && Sids(r) == Sids(members) + {m.sid} && m in r
            && forall x :: x in r ==> x == m || x in members
    decreases |members|
  {
    if members != [] {
      var head, tail := members[0], members[1..];
      assert head.sid !in Sids(tail) && Distinct(tail);
      SidsCons(members);
      var t := if head.sid == m.sid then tail else WithMember(tail, m);
      var h := if head.sid == m.sid then m else head;
      if head.sid != m.sid { WithMemberIs(tail, m); }
      assert WithMember(members, m) == [h] + t;
      SidsCons([h] + t);
      DistinctCons(h, t);
    }
  }

  lemma {:induction false} WithoutMemberIs(members: seq<Member>, sid: SessionId)
    requires Distinct(members)
    ensures var r := WithoutMember(members, sid);
            && Distinct(r) && Sids(r) == Sids(members) - {sid}
            && forall x :: x in r ==> x in members
    decreases |members|
  {
    if members != [] {
      var head, tail := members[0], members[1..];
      assert head.sid !in Sids(tail) && Distinct(tail);
      SidsCons(members);
      if head.sid != sid {
        WithoutMemberIs(tail, sid);
        var t := WithoutMember(tail, sid);
        assert WithoutMember(members, sid) == [head] + t;
        SidsCons([head] + t);
        DistinctCons(head, t);
      }
    }
  }

  // ---------------------------------------------------------------- the invariant

  ghost predicate Authenticated(sessions: map<SessionId, Session>, m: Member) {
    m.sid in sessions && sessions[m.sid] == Session(m.nick, true)
  }

  /** `general` exists, room names are distinct, members are live authenticated sessions under their own nick,
      and no session is in two rooms or twice in one. */
  ghost predicate RoomsValid(sessions: map<SessionId, Session>, rooms: seq<Room>) {
    && (exists i :: 0 <= i < |rooms| && rooms[i].name == GENERAL)
    && (forall i, j :: 0 <= i < j < |rooms| ==> rooms[i].name != rooms[j].name)
    && (forall i :: 0 <= i < |rooms| ==> Distinct(rooms[i].members))
    && (forall i, m :: 0 <= i < |rooms| && m in rooms[i].members ==> Authenticated(sessions, m))
    && (forall i, j :: 0 <= i < j < |rooms| ==> Sids(rooms[i].members) !! Sids(rooms[j].members))
  }

  ghost predicate NicksValid(s: Server) {
    && (forall n :: n in s.nickToSession ==>
          s.nickToSession[n] in s.sessions && s.sessions[s.nickToSession[n]] == Session(n, true))
    && (forall sid :: sid in s.sessions ==> NickValid(s, s.sessions[sid]))
  }

  ghost predicate NickValid(s: Server, session: Session) {
    if session.authenticated then session.nick in s.passwords && 2 <= |session.nick| <= 20 else session.nick == ""
  }

  ghost predicate Valid(s: Server) {
    RoomsValid(s.sessions, s.rooms) && NicksValid(s)
  }

  /** `sid` is in none of the first `n` rooms. */
  ghost predicate OutOf(rooms: seq<Room>, n: nat, sid: SessionId) {
    forall i :: 0 <= i < n && i < |rooms| ==> sid !in Sids(rooms[i].members)
  }

  lemma {:induction false} UnauthenticatedOut(s: Server, sid: SessionId)
    requires RoomsValid(s.sessions, s.rooms) && sid in s.sessions && !s.sessions[sid].authenticated
    ensures OutOf(s.rooms, |s.rooms|, sid)
  {
    forall i, m | 0 <= i < |s.rooms| && m in s.rooms[i].members
      ensures m.sid != sid
    {
      assert Authenticated(s.sessions, m);
    }
  }

  lemma {:induction false} LeaveKeeps(s: Server, i: nat, sid: SessionId)
    requires RoomsValid(s.sessions, s.rooms) && i < |s.rooms| && OutOf(s.rooms, i, sid)
    ensures var r := Leave(s, i, sid); RoomsValid(s.sessions, r.rooms) && OutOf(r.rooms, i + 1, sid)
  {
    var members := s.rooms[i].members;
    FindIsMember(members, sid);
    if FindMember(members, sid).Some? {
      WithoutMemberIs(members, sid);
      var r := Leave(s, i, sid);
      var g :| 0 <= g < |s.rooms| && s.rooms[g].name == GENERAL;
      assert r.rooms[g].name == GENERAL;
    }
  }

  lemma {:induction false} RemoveFromAllKeeps(s: Server, n: nat, sid: SessionId)
    requires RoomsValid(s.sessions, s.rooms) && n <= |s.rooms|
    ensures var r := RemoveFromFirst(s, n, sid); RoomsValid(s.sessions, r.rooms) && OutOf(r.rooms, n, sid)
    decreases n
  {
    if n > 0 {
      RemoveFromAllKeeps(s, n - 1, sid);
      LeaveKeeps(RemoveFromFirst(s, n - 1, sid), n - 1, sid);
    }
  }

  lemma {:induction false} EnsureRoomKeeps(sessions: map<SessionId, Session>, rooms: seq<Room>, name: string,
                                           sid: SessionId)
    requires RoomsValid(sessions, rooms) && OutOf(rooms, |rooms|, sid)
    ensures var r := EnsureRoom(rooms, name); RoomsValid(sessions, r) && OutOf(r, |r|, sid)
  {
    var r := EnsureRoom(rooms, name);
    var g :| 0 <= g < |rooms| && rooms[g].name == GENERAL;
    assert r[g].name == GENERAL;
    assert Sids([]) == {};
  }

  lemma {:induction false} JoinKeeps(s: Server, name: string, m: Member)
    requires RoomsValid(s.sessions, s.rooms) && Authenticated(s.sessions, m) && OutOf(s.rooms, |s.rooms|, m.sid)
    ensures RoomsValid(s.sessions, Join(s, name, m).rooms)
  {
    EnsureRoomKeeps(s.sessions, s.rooms, name, m.sid);
    var rooms := EnsureRoom(s.rooms, name);
    var i := RoomIndex(rooms, name);
    WithMemberIs(rooms[i].members, m);
    var r := rooms[i := Room(name, WithMember(rooms[i].members, m))];
    var g :| 0 <= g < |rooms| && rooms[g].name == GENERAL;
    assert r[g].name == GENERAL;
    assert Join(s, name, m).rooms == r;
  }

  // ---------------------------------------------------------------- every handler keeps it

  lemma {:induction false} LoginKeepsRooms(s: Server, sid: SessionId, session: Session)
    requires RoomsValid(s.sessions, s.rooms) && sid in s.sessions && !s.sessions[sid].authenticated
    ensures RoomsValid(s.sessions[sid := session], s.rooms)
  {
    forall i, m | 0 <= i < |s.rooms| && m in s.rooms[i].members
      ensures Authenticated(s.sessions[sid := session], m)
    {
      assert Authenticated(s.sessions, m);
    }
  }

  lemma {:induction false} LoginKeepsNicks(s: Server, sid: SessionId, nick: Nick, hashed: Hash)
    requires NicksValid(s) && sid in s.sessions && !s.sessions[sid].authenticated && 2 <= |nick| <= 20
    ensures NicksValid(LogIn(s, sid, nick, hashed))
  {
    assert forall x :: x in s.sessions ==> NickValid(s, s.sessions[x]);
  }

  lemma {:induction false} LoginKeeps(s: Server, sid: SessionId, nick: Nick, hashed: Hash)
    requires Valid(s) && sid in s.sessions && !s.sessions[sid].authenticated && 2 <= |nick| <= 20
    ensures Valid(Join(SendTo(LogIn(s, sid, nick, hashed), sid, Notice(AuthenticatedAs(nick))), GENERAL,
                       Member(sid, nick)))
  {
    UnauthenticatedOut(s, sid);
    LoginKeepsRooms(s, sid, Session(nick, true));
    LoginKeepsNicks(s, sid, nick, hashed);
    JoinKeeps(SendTo(LogIn(s, sid, nick, hashed), sid, Notice(AuthenticatedAs(nick))), GENERAL, Member(sid, nick));
  }

  lemma {:induction false} AuthKeeps(hash: string -> Hash, s: Server, sid: SessionId, nick: Nick, pass: string)
    requires Valid(s) && sid in s.sessions && !s.sessions[sid].authenticated
    ensures Valid(HandleAuth(hash, s, sid, nick, pass))
  {
    if 2 <= |nick| <= 20 { LoginKeeps(s, sid, nick, hash(pass)); }
    RefusalKeeps(s, sid, BadNick);
    RefusalKeeps(s, sid, NickInUse);
    RefusalKeeps(s, sid, WrongPassword);
  }

  lemma {:induction false} RefusalKeeps(s: Server, sid: SessionId, text: Text)
    requires Valid(s)
    ensures Valid(SendTo(s, sid, Error(text)))
  {}

  lemma {:induction false} OtherKeeps(s: Server, sid: SessionId, msg: Message)
    requires Valid(s) && sid in s.sessions && s.sessions[sid].authenticated
    ensures Valid(HandleOther(s, sid, msg))
  {
    if msg.kind == "join" {
      RemoveFromAllKeeps(s, |s.rooms|, sid);
      JoinKeeps(RemoveFromAll(s, sid), if msg.room == "" then GENERAL else msg.room, Member(sid, s.sessions[sid].nick));
    } else if msg.kind == "leave" {
      LeavingKeeps(s, sid);
    }
  }

  lemma {:induction false} LeavingKeeps(s: Server, sid: SessionId)
    requires Valid(s)
    ensures Valid(HandleLeave(s, sid))
  {
    var i := FindRoom(s.rooms, sid);
    if i < |s.rooms| {
      forall j | 0 <= j < i
        ensures sid !in Sids(s.rooms[j].members)
      {
        FindIsMember(s.rooms[j].members, sid);
      }
      LeaveKeeps(s, i, sid);
    }
  }

  lemma {:induction false} MessageKeeps(hash: string -> Hash, s: Server, sid: SessionId, msg: Message)
    requires Valid(s) && sid in s.sessions
    ensures Valid(HandleMessage(hash, s, sid, msg))
    decreases if msg.kind == "msg" then 1 else 0
  {
    if !s.sessions[sid].authenticated {
      if msg.kind == "auth" { AuthKeeps(hash, s, sid, msg.nick, msg.pass); }
    } else if msg.kind == "msg" {
      var cmd := ParseCommand(msg.text);
      if msg.text != "" && cmd.Some? {
        MessageKeeps(hash, s, sid, cmd.value);
        assert HandleChat(hash, s, sid, msg.text) == HandleMessage(hash, s, sid, cmd.value);
      } else {
        var r := HandleChat(hash, s, sid, msg.text);
        assert r == s.(outbox := r.outbox);
      }
    } else {
      OtherKeeps(s, sid, msg);
    }
  }

  lemma {:induction false} MessagesKeep(hash: string -> Hash, s: Server, sid: SessionId, msgs: seq<Message>)
    requires Valid(s) && sid in s.sessions
    ensures Valid(HandleMessages(hash, s, sid, msgs))
    decreases |msgs|
  {
    if msgs != [] {
      MessagesKeep(hash, s, sid, msgs[..|msgs|-1]);
      MessageKeeps(hash, HandleMessages(hash, s, sid, msgs[..|msgs|-1]), sid, msgs[|msgs|-1]);
    }
  }

  lemma {:induction false} DisconnectKeeps(s: Server, sid: SessionId)
    requires Valid(s)
    ensures Valid(HandleDisconnect(s, sid))
  {
    if sid in s.sessions {
      RemoveFromAllKeeps(s, |s.rooms|, sid);
      var s1, r := RemoveFromAll(s, sid), HandleDisconnect(s, sid);
      forall i, m | 0 <= i < |s1.rooms| && m in s1.rooms[i].members
        ensures Authenticated(r.sessions, m)
      {
        assert m.sid in Sids(s1.rooms[i].members);
        assert Authenticated(s.sessions, m);
      }
    }
  }

  // ---------------------------------------------------------------- runs

  datatype Event =
    | Connects(sid: SessionId)
    | Delivers(sid: SessionId, msgs: seq<Message>)
    | TimesOut(sid: SessionId)
    | Disconnects(sid: SessionId)

  function Step(hash: string -> Hash, s: Server, e: Event): Server {
    match e
    case Connects(sid) => HandleConnection(s, sid)
    case Delivers(sid, msgs) => HandleData(hash, s, sid, msgs)
    case TimesOut(sid) => HandleTimeout(s, sid)
    case Disconnects(sid) => HandleDisconnect(s, sid)
  }

  function Run(hash: string -> Hash, events: seq<Event>): Server {
    if events == [] then START else Step(hash, Run(hash, events[..|events|-1]), events[|events|-1])
  }

  /** A new connection gets a session id that is not in use. */
  ghost predicate FreshConnections(hash: string -> Hash, events: seq<Event>) {
    forall i :: 0 <= i < |events| && events[i].Connects? ==> events[i].sid !in Run(hash, events[..i]).sessions
  }

  lemma {:induction false} FreshPrefix(hash: string -> Hash, events: seq<Event>, n: nat)
    requires FreshConnections(hash, events) && n <= |events|
    ensures FreshConnections(hash, events[..n])
  {
    forall i | 0 <= i < n && events[..n][i].Connects?
      ensures events[..n][i].sid !in Run(hash, events[..n][..i]).sessions
    {
      assert events[..n][..i] == events[..i];
    }
  }

  lemma {:induction false} StepKeeps(hash: string -> Hash, s: Server, e: Event)
    requires Valid(s) && (e.Connects? ==> e.sid !in s.sessions)
    ensures Valid(Step(hash, s, e))
  {
    match e
    case Connects(sid) => ConnectKeeps(s, sid);
    case Delivers(sid, msgs) => if sid in s.sessions { MessagesKeep(hash, s, sid, msgs); }
    case TimesOut(_) =>
    case Disconnects(sid) => DisconnectKeeps(s, sid);
  }

  lemma {:induction false} ConnectKeeps(s: Server, sid: SessionId)
    requires Valid(s) && sid !in s.sessions
    ensures Valid(HandleConnection(s, sid))
  {
    var r := HandleConnection(s, sid);
    forall i, m | 0 <= i < |s.rooms| && m in s.rooms[i].members
      ensures Authenticated(r.sessions, m)
    {
      assert Authenticated(s.sessions, m);
    }
  }

  /** Over every run each session is in at most one room, every member is a live authenticated session,
      `general` exists, and every nickname leads to a live session authenticated under it. */
  lemma {:induction false} RunsStayValid(hash: string -> Hash, events: seq<Event>)
    requires FreshConnections(hash, events)
    ensures Valid(Run(hash, events))
    decreases |events|
  {
    if events == [] {
      assert START.rooms[0].name == GENERAL;
    } else {
      var n := |events| - 1;
      FreshPrefix(hash, events, n);
      RunsStayValid(hash, events[..n]);
      StepKeeps(hash, Run(hash, events[..n]), events[n]);
    }
  }

  // ---------------------------------------------------------------- passwords

  /** A stored hash is never changed or removed. */
  ghost predicate HashesKept(s: Server, r: Server) {
    forall n :: n in s.passwords ==> n in r.passwords && r.passwords[n] == s.passwords[n]
  }

  /** An authentication message for `nick` whose password matches the stored hash. */
  ghost predicate Presents(hash: string -> Hash, s: Server, msg: Message, nick: Nick) {
    msg.kind == "auth" && msg.nick == nick && nick in s.passwords && s.passwords[nick] == hash(msg.pass)
  }

  /** What one message of `sid` may do: leave stored hashes and other sessions alone, and change its own session
      only to one authenticated under a nickname whose password the message presents. */
  ghost predicate Authenticates(hash: string -> Hash, s: Server, r: Server, sid: SessionId, msg: Message)
    requires sid in s.sessions && r.sessions.Keys == s.sessions.Keys
  {
    && HashesKept(s, r)
    && (forall x :: x in s.sessions && x != sid ==> r.sessions[x] == s.sessions[x])
    && (r.sessions[sid] != s.sessions[sid] ==>
          r.sessions[sid].authenticated && Presents(hash, r, msg, r.sessions[sid].nick))
  }

  lemma {:induction false} AuthAuthenticates(hash: string -> Hash, s: Server, sid: SessionId, msg: Message)
    requires sid in s.sessions && msg.kind == "auth"
    ensures Authenticates(hash, s, HandleAuth(hash, s, sid, msg.nick, msg.pass), sid, msg)
  {}

  lemma {:induction false} MessageAuthenticates(hash: string -> Hash, s: Server, sid: SessionId, msg: Message)
    requires sid in s.sessions
    ensures Authenticates(hash, s, HandleMessage(hash, s, sid, msg), sid, msg)
    decreases if msg.kind == "msg" then 1 else 0
  {
    if !s.sessions[sid].authenticated {
      if msg.kind == "auth" { AuthAuthenticates(hash, s, sid, msg); }
    } else if msg.kind == "msg" {
      var cmd := ParseCommand(msg.text);
      if msg.text != "" && cmd.Some? {
        MessageAuthenticates(hash, s, sid, cmd.value);
        assert HandleChat(hash, s, sid, msg.text) == HandleMessage(hash, s, sid, cmd.value);
      } else {
        var r := HandleChat(hash, s, sid, msg.text);
        assert r == s.(outbox := r.outbox);
      }
    }
  }

  lemma {:induction false} MessagesAuthenticate(hash: string -> Hash, s: Server, sid: SessionId, msgs: seq<Message>)
    requires sid in s.sessions
    ensures var r := HandleMessages(hash, s, sid, msgs);
            && HashesKept(s, r)
            && (forall x :: x in s.sessions && x != sid ==> r.sessions[x] == s.sessions[x])
            && (r.sessions[sid] != s.sessions[sid] ==>
                  exists m :: m in msgs && Presents(hash, r, m, r.sessions[sid].nick))
    decreases |msgs|
  {
    if msgs != [] {
      var front, last := msgs[..|msgs|-1], msgs[|msgs|-1];
      var s1 := HandleMessages(hash, s, sid, front);
      MessagesAuthenticate(hash, s, sid, front);
      MessageAuthenticates(hash, s1, sid, last);
      var r := HandleMessages(hash, s, sid, msgs);
      if r.sessions[sid] != s1.sessions[sid] {
        assert last in msgs && Presents(hash, r, last, r.sessions[sid].nick);
      } else if r.sessions[sid] != s.sessions[sid] {
        var m :| m in front && Presents(hash, s1, m, s1.sessions[sid].nick);
        assert m in msgs && Presents(hash, r, m, r.sessions[sid].nick);
      }
    }
  }

  lemma {:induction false} StepKeepsHashes(hash: string -> Hash, s: Server, e: Event)
    ensures HashesKept(s, Step(hash, s, e))
  {
    if e.Delivers? && e.sid in s.sessions { MessagesAuthenticate(hash, s, e.sid, e.msgs); }
  }

  /** `sid` was sent, in some event of the run, a password that matches the hash stored for `nick`. */
  ghost predicate Presented(hash: string -> Hash, events: seq<Event>, s: Server, sid: SessionId, nick: Nick) {
    exists i, m :: && 0 <= i < |events| && events[i].Delivers? && events[i].sid == sid
                   && m in events[i].msgs && Presents(hash, s, m, nick)
  }

  /** In every run, a session authenticated as `n` has itself presented a password whose hash equals the one
      stored for `n`. */
  lemma {:induction false} AuthenticationWasPresented(hash: string -> Hash, events: seq<Event>, sid: SessionId)
    requires var s := Run(hash, events); sid in s.sessions && s.sessions[sid].authenticated
    ensures var s := Run(hash, events); Presented(hash, events, s, sid, s.sessions[sid].nick)
    decreases |events|
  {
    var n := |events| - 1;
    var front, e := events[..n], events[n];
    var s, r := Run(hash, front), Run(hash, events);
    StepKeepsHashes(hash, s, e);
    if sid in s.sessions && s.sessions[sid] == r.sessions[sid] {
      AuthenticationWasPresented(hash, front, sid);
      var i, m :| 0 <= i < n && front[i].Delivers? && front[i].sid == sid
                  && m in front[i].msgs && Presents(hash, s, m, s.sessions[sid].nick);
      assert events[i] == front[i] && Presents(hash, r, m, r.sessions[sid].nick);
    } else if e.Delivers? {
      MessagesAuthenticate(hash, s, e.sid, e.msgs);
      var m :| m in e.msgs && Presents(hash, r, m, r.sessions[sid].nick);
      assert events[n].sid == sid;
    }
  }

  // ---------------------------------------------------------------- delivery

  function CountTo(sends: seq<Send>, sid: SessionId, msg: Outgoing): nat {
    if sends == [] then 0 else (if sends[0] == Send(sid, msg) then 1 else 0) + CountTo(sends[1..], sid, msg)
  }

  lemma {:induction false} CountTwo(a: seq<Send>, b: seq<Send>, sid: SessionId, msg: Outgoing)
    ensures CountTo(a + b, sid, msg) == CountTo(a, sid, msg) + CountTo(b, sid, msg)
    decreases |a|
  {
    if a == [] {
      assert a + b == b;
    } else {
      assert (a + b)[1..] == a[1..] + b;
      CountTwo(a[1..], b, sid, msg);
    }
  }

  /** A broadcast reaches each member with a live socket, but the excluded one, exactly once, and nobody else. */
  lemma {:induction false} BroadcastOnce(members: seq<Member>, msg: Outgoing, except: Option<SessionId>,
                                         closed: set<SessionId>, sid: SessionId)
    requires Distinct(members)
    ensures CountTo(Sends(members, msg, except, closed), sid, msg)
         == if sid in Sids(members) && sid !in closed && except != Some(sid) then 1 else 0
    decreases |members|
  {
    if members != [] {
      var m := members[0];
      var one := if except == Some(m.sid) || m.sid in closed then [] else [Send(m.sid, msg)];
      SidsCons(members);
      BroadcastOnce(members[1..], msg, except, closed, sid);
      CountTwo(one, Sends(members[1..], msg, except, closed), sid, msg);
      if m.sid == sid { assert sid !in Sids(members[1..]); }
      if one != [] { assert one[1..] == []; }
    }
  }

  /** A broadcast writes nothing but its message, to members only. */
  lemma {:induction false} SendsAre(members: seq<Member>, msg: Outgoing, except: Option<SessionId>,
                                    closed: set<SessionId>)
    ensures forall x :: x in Sends(members, msg, except, closed) ==>
              x.msg == msg && x.to in Sids(members) && x.to !in closed && except != Some(x.to)
    decreases |members|
  {
    if members != [] {
      SendsAre(members[1..], msg, except, closed);
      SidsCons(members);
    }
  }

  /** A chat line that is no command, from a session in a room, goes to each member of that room whose socket is open,
      the sender included, exactly once under the sender's nickname; nothing else is sent, and nothing else changes. */
  lemma {:induction false} ChatLineDelivered(hash: string -> Hash, s: Server, sid: SessionId, msg: Message, i: nat,
                                             to: SessionId)
    requires Valid(s) && sid in s.sessions && s.sessions[sid].authenticated
    requires msg.kind == "msg" && msg.text != "" && ParseCommand(msg.text).None?
    requires i < |s.rooms| && sid in Sids(s.rooms[i].members)
    ensures var r := HandleMessage(hash, s, sid, msg);
            var line := Chat(s.sessions[sid].nick, msg.text);
            && r == s.(outbox := r.outbox) && s.outbox <= r.outbox
            && (forall x :: x in r.outbox[|s.outbox|..] ==>
                  x.msg == line && x.to in Sids(s.rooms[i].members) && x.to !in s.closed)
            && CountTo(r.outbox[|s.outbox|..], to, line)
               == if to in Sids(s.rooms[i].members) && to !in s.closed then 1 else 0
  {
    var members := s.rooms[i].members;
    FindIsMember(members, sid);
    var f := FindRoom(s.rooms, sid);
    if f < |s.rooms| { FindIsMember(s.rooms[f].members, sid); }
    assert f == i;
    assert Authenticated(s.sessions, FindMember(members, sid).value);
    var line := Chat(s.sessions[sid].nick, msg.text);
    BroadcastOnce(members, line, None, s.closed, to);
    SendsAre(members, line, None, s.closed);
    assert HandleMessage(hash, s, sid, msg) == s.(outbox := s.outbox + Sends(members, line, None, s.closed));
  }

  /** What a message of `sid` adds to the outbox goes to `to` alone. */
  ghost predicate OnlyTo(s: Server, r: Server, to: set<SessionId>) {
    s.outbox <= r.outbox && forall x :: x in r.outbox[|s.outbox|..] ==> x.to in to
  }

  /** The message can be delivered: nothing is missing and the nickname leads somewhere. */
  predicate Deliverable(s: Server, to: Nick, text: string) {
    to != "" && text != "" && to in s.nickToSession && s.nickToSession[to] != ""
  }

  /** A private message that can be delivered reaches the live session authenticated under the nickname, and its sender
      as an echo, once each as far as their sockets are open, and nobody else. */
  lemma {:induction false} PrivateDelivered(s: Server, sid: SessionId, nick: Nick, to: Nick, text: string)
    requires Valid(s) && sid in s.sessions && Deliverable(s, to, text)
    ensures var r, target := HandlePrivate(s, sid, nick, to, text), s.nickToSession[to];
            && target in s.sessions && s.sessions[target] == Session(to, true)
            && r == s.(outbox := r.outbox) && OnlyTo(s, r, {target, sid})
            && forall x :: x in {target, sid} ==>
                 CountTo(r.outbox[|s.outbox|..], x, Private(nick, to, text))
                 == if x in s.closed then 0 else if target == sid then 2 else 1
  {
    var r, target, line := HandlePrivate(s, sid, nick, to, text), s.nickToSession[to], Private(nick, to, text);
    var first := if target in s.closed then [] else [Send(target, line)];
    var echo := if sid in s.closed then [] else [Send(sid, line)];
    assert r.outbox == s.outbox + (first + echo);
    assert r.outbox[|s.outbox|..] == first + echo;
    forall x | x in {target, sid}
      ensures CountTo(first + echo, x, line) == if x in s.closed then 0 else if target == sid then 2 else 1
    {
      CountTwo(first, echo, x, line);
      CountOne(target, line, x);
      CountOne(sid, line, x);
    }
  }

  /** One that cannot is answered to its sender alone: what the command needs, or that there is no such user.  A user
      who is not connected is never met. */
  lemma {:induction false} PrivateRefused(s: Server, sid: SessionId, nick: Nick, to: Nick, text: string)
    requires Valid(s) && sid in s.sessions && !Deliverable(s, to, text)
    ensures var r := HandlePrivate(s, sid, nick, to, text);
            && r == s.(outbox := r.outbox) && OnlyTo(s, r, {sid})
            && var answer := Error(if to == "" || text == "" then MsgUsage else UserNotFound(to));
               r.outbox == s.outbox + (if sid in s.closed then [] else [Send(sid, answer)])
  {}

  lemma {:induction false} CountOne(to: SessionId, msg: Outgoing, sid: SessionId)
    ensures CountTo([Send(to, msg)], sid, msg) == if to == sid then 1 else 0
    ensures CountTo([], sid, msg) == 0
  {
    assert [Send(to, msg)][1..] == [];
  }

  // ---------------------------------------------------------------- being found by nickname

  /** Every authenticated session's nickname leads somewhere. */
  ghost predicate Findable(s: Server) {
    forall sid :: sid in s.sessions && s.sessions[sid].authenticated ==> s.sessions[sid].nick in s.nickToSession
  }

  /** Another live session is authenticated under the nickname of `sid`. */
  ghost predicate SharesNick(s: Server, sid: SessionId) {
    && sid in s.sessions && s.sessions[sid].authenticated
    && exists x :: x in s.sessions && x != sid && s.sessions[x] == s.sessions[sid]
  }

  lemma {:induction false} MessageKeepsFindable(hash: string -> Hash, s: Server, sid: SessionId, msg: Message)
    requires sid in s.sessions && Findable(s)
    ensures Findable(HandleMessage(hash, s, sid, msg))
    decreases if msg.kind == "msg" then 1 else 0
  {
    if s.sessions[sid].authenticated && msg.kind == "msg" {
      var cmd := ParseCommand(msg.text);
      if msg.text != "" && cmd.Some? { MessageKeepsFindable(hash, s, sid, cmd.value); }
    }
  }

  lemma {:induction false} MessagesKeepFindable(hash: string -> Hash, s: Server, sid: SessionId, msgs: seq<Message>)
    requires sid in s.sessions && Findable(s)
    ensures Findable(HandleMessages(hash, s, sid, msgs))
    decreases |msgs|
  {
    if msgs != [] {
      MessagesKeepFindable(hash, s, sid, msgs[..|msgs|-1]);
      MessageKeepsFindable(hash, HandleMessages(hash, s, sid, msgs[..|msgs|-1]), sid, msgs[|msgs|-1]);
    }
  }

  /** An event loses an authenticated session's nickname exactly when it disconnects a session that shares its
      nickname with another: the entry of the survivor is deleted. */
  lemma {:induction false} FindableLostIff(hash: string -> Hash, s: Server, e: Event)
    requires Valid(s) && Findable(s) && (e.Connects? ==> e.sid !in s.sessions)
    ensures Findable(Step(hash, s, e)) <==> !(e.Disconnects? && SharesNick(s, e.sid))
  {
    match e
    case Connects(_) =>
    case Delivers(sid, msgs) => if sid in s.sessions { MessagesKeepFindable(hash, s, sid, msgs); }
    case TimesOut(_) =>
    case Disconnects(sid) =>
      if sid in s.sessions {
        var r := HandleDisconnect(s, sid);
        assert NickValid(s, s.sessions[sid]);
        if SharesNick(s, sid) {
          var x :| x in s.sessions && x != sid && s.sessions[x] == s.sessions[sid];
          assert x in r.sessions && r.sessions[x].nick !in r.nickToSession;
        } else {
          forall x | x in r.sessions && r.sessions[x].authenticated
            ensures r.sessions[x].nick in r.nickToSession
          {
            assert x in s.sessions && NickValid(s, s.sessions[x]);
          }
        }
      }
  }

  /** Two sessions do come to share a nickname: a second login with the same password is accepted. */
  lemma {:induction false} SecondLoginShares(hash: string -> Hash, s: Server, first: SessionId, second: SessionId,
                                             pass: string)
    requires Valid(s) && first in s.sessions && s.sessions[first].authenticated
    requires second in s.sessions && !s.sessions[second].authenticated
    requires s.passwords[s.sessions[first].nick] == hash(pass)
    ensures var msg := Message("auth", s.sessions[first].nick, pass, "", "", "");
            SharesNick(HandleMessage(hash, s, second, msg), first)
  {
    assert NickValid(s, s.sessions[first]);
    var msg := Message("auth", s.sessions[first].nick, pass, "", "", "");
    var r := HandleMessage(hash, s, second, msg);
    assert r.sessions[second] == r.sessions[first];
  }

  // ---------------------------------------------------------------- a run that loses a nickname

  function Login(nick: Nick, pass: string): Message {
    Message("auth", nick, pass, "", "", "")
  }

  /** Two sessions log in under one nickname, then the first disconnects. */
  function LosingRun(first: SessionId, second: SessionId, nick: Nick, pass: string): seq<Event> {
    [] + [Connects(first)] + [Delivers(first, [Login(nick, pass)])]
    + [Connects(second)] + [Delivers(second, [Login(nick, pass)])] + [Disconnects(first)]
  }

  lemma {:induction false} RunSnoc(hash: string -> Hash, events: seq<Event>, e: Event)
    ensures Run(hash, events + [e]) == Step(hash, Run(hash, events), e)
  {
    assert (events + [e])[..|events|] == events;
  }

  lemma {:induction false} LoggedIn(hash: string -> Hash, s: Server, sid: SessionId, nick: Nick, pass: string)
    requires sid in s.sessions && !s.sessions[sid].authenticated && 2 <= |nick| <= 20
    requires nick in s.passwords ==> s.passwords[nick] == hash(pass)
    ensures var r := Step(hash, s, Delivers(sid, [Login(nick, pass)]));
            && r.sessions == s.sessions[sid := Session(nick, true)]
            && r.nickToSession == s.nickToSession[nick := sid]
            && nick in r.passwords && r.passwords[nick] == hash(pass)
  {
    var msgs := [Login(nick, pass)];
    assert msgs[..0] == [] && HandleMessages(hash, s, sid, []) == s;
    assert Step(hash, s, Delivers(sid, msgs)) == HandleMessage(hash, s, sid, msgs[0]);
  }

  lemma {:induction false} RunOfFive(hash: string -> Hash, a: Event, b: Event, c: Event, d: Event, e: Event)
    ensures Run(hash, [] + [a] + [b] + [c] + [d] + [e])
         == Step(hash, Step(hash, Step(hash, Step(hash, Step(hash, START, a), b), c), d), e)
  {
    RunSnoc(hash, [], a);
    RunSnoc(hash, [] + [a], b);
    RunSnoc(hash, [] + [a] + [b], c);
    RunSnoc(hash, [] + [a] + [b] + [c], d);
    RunSnoc(hash, [] + [a] + [b] + [c] + [d], e);
  }

  /** After that run the second session is still authenticated and its nickname leads nowhere. */
  lemma {:induction false} NicknameLost(hash: string -> Hash, first: SessionId, second: SessionId, nick: Nick,
                                        pass: string)
    requires first != second && 2 <= |nick| <= 20
    ensures var s := Run(hash, LosingRun(first, second, nick, pass));
            && second in s.sessions && s.sessions[second] == Session(nick, true) && nick !in s.nickToSession
  {
    var login := Login(nick, pass);
    RunOfFive(hash, Connects(first), Delivers(first, [login]), Connects(second), Delivers(second, [login]),
              Disconnects(first));
    var s1 := HandleConnection(START, first);
    LoggedIn(hash, s1, first, nick, pass);
    var s2 := Step(hash, s1, Delivers(first, [login]));
    var s3 := HandleConnection(s2, second);
    assert s3.sessions == s2.sessions[second := Session("", false)] && s3.passwords == s2.passwords;
    LoggedIn(hash, s3, second, nick, pass);
  }
}
