/** Logging in, the rooms after every message, and the silence of sessions whose socket is closed. */
module ChatSessions {
  import opened ChatProtocol
  import opened ChatServer
  import opened ChatInvariants
  import opened ChatRooms
  import opened Options

  // ---------------------------------------------------------------- logging in

  predicate GoodLogin(hash: string -> Hash, s: Server, nick: Nick, pass: string) {
    2 <= |nick| <= 20 && (nick in s.passwords ==> s.passwords[nick] == hash(pass))
  }

  /** `auth` succeeds exactly with a nickname of 2 to 20 characters that nobody has registered, or with the password it
      was registered with; it binds the session and the nickname to each other and enters `general`. */
  lemma {:induction false} LoginIff(hash: string -> Hash, s: Server, sid: SessionId, nick: Nick, pass: string)
    requires Valid(s) && sid in s.sessions && !s.sessions[sid].authenticated
    ensures var r := HandleAuth(hash, s, sid, nick, pass);
            if GoodLogin(hash, s, nick, pass) then
              && r.sessions == s.sessions[sid := Session(nick, true)]
              && r.nickToSession == s.nickToSession[nick := sid]
              && r.passwords == s.passwords[nick := hash(pass)]
              && r.closed == s.closed
            else r == s.(outbox := r.outbox)
  {
    if GoodLogin(hash, s, nick, pass) && nick in s.passwords {
      assert s.passwords[nick := hash(pass)] == s.passwords;
    }
  }

  /** Which of the three errors a refused login gets. */
  lemma {:induction false} LoginRefused(hash: string -> Hash, s: Server, sid: SessionId, nick: Nick, pass: string)
    requires Valid(s) && sid in s.sessions && !s.sessions[sid].authenticated && !GoodLogin(hash, s, nick, pass)
    ensures var r := HandleAuth(hash, s, sid, nick, pass);
            var inUse := && nick in s.nickToSession && s.nickToSession[nick] != "" && s.nickToSession[nick] != sid
                         && nick in s.passwords && s.passwords[nick] != "";
            r.outbox == s.outbox + SendsIfOpen(s, sid, Error(
              if !(2 <= |nick| <= 20) then BadNick else if inUse then NickInUse else WrongPassword))
  {}

  lemma {:induction false} LoginMoves(hash: string -> Hash, s: Server, sid: SessionId, nick: Nick, pass: string,
                                      name: string)
    requires Valid(s) && sid in s.sessions && !s.sessions[sid].authenticated
    ensures MembersOf(HandleAuth(hash, s, sid, nick, pass).rooms, name) == MembersOf(s.rooms, name) +
            if GoodLogin(hash, s, nick, pass) && name == GENERAL then [Member(sid, nick)] else []
  {
    if GoodLogin(hash, s, nick, pass) {
      UnauthenticatedOut(s, sid);
      JoinedRoom(SendTo(LogIn(s, sid, nick, hash(pass)), sid, Notice(AuthenticatedAs(nick))), GENERAL,
                 Member(sid, nick), name);
    }
  }

  // ---------------------------------------------------------------- the rooms after a message

  /** A chat line that is a command counts as that command. */
  function Meant(msg: Message): Message {
    if msg.kind == "msg" && msg.text != "" && ParseCommand(msg.text).Some? then ParseCommand(msg.text).value else msg
  }

  /** Whatever an authenticated session sends, it moves to the room it asks to join, `general` if it names none, or out
      of its room if it asks to leave; otherwise it stays, and everybody else stays in any case. */
  lemma {:induction false} MessageMoves(hash: string -> Hash, s: Server, sid: SessionId, msg: Message, name: string)
    requires Valid(s) && sid in s.sessions && s.sessions[sid].authenticated
    ensures var now := MembersOf(HandleMessage(hash, s, sid, msg).rooms, name);
            var before, nick, asked := MembersOf(s.rooms, name), s.sessions[sid].nick, Meant(msg);
            now == if asked.kind == "join" then
                     Others(before, sid) +
                     (if name == (if asked.room == "" then GENERAL else asked.room) then [Member(sid, nick)] else [])
                   else if asked.kind == "leave" then Others(before, sid)
                   else before
    decreases if msg.kind == "msg" then 1 else 0
  {
    if msg.kind == "msg" {
      if msg.text != "" && ParseCommand(msg.text).Some? {
        MessageMoves(hash, s, sid, Meant(msg), name);
        assert HandleMessage(hash, s, sid, msg) == HandleMessage(hash, s, sid, Meant(msg));
      } else {
        assert HandleChat(hash, s, sid, msg.text).rooms == s.rooms;
      }
    } else {
      OtherMoves(s, sid, msg, name);
    }
  }

  lemma {:induction false} OtherMoves(s: Server, sid: SessionId, msg: Message, name: string)
    requires Valid(s) && sid in s.sessions && s.sessions[sid].authenticated
    ensures var now := MembersOf(HandleOther(s, sid, msg).rooms, name);
            var before, nick := MembersOf(s.rooms, name), s.sessions[sid].nick;
            now == if msg.kind == "join" then
                     Others(before, sid) +
                     (if name == (if msg.room == "" then GENERAL else msg.room) then [Member(sid, nick)] else [])
                   else if msg.kind == "leave" then Others(before, sid)
                   else before
  {
    if msg.kind == "join" {
      JoinMoves(s, sid, s.sessions[sid].nick, if msg.room == "" then GENERAL else msg.room, name);
    } else if msg.kind == "leave" {
      LeaveMoves(s, sid, name);
    } else if msg.kind == "list" {
      ListTells(s, sid);
    }
  }

  // ---------------------------------------------------------------- the remaining answers

  /** Before it has logged in, a session can do nothing but that. */
  lemma {:induction false} LoginFirst(hash: string -> Hash, s: Server, sid: SessionId, msg: Message)
    requires sid in s.sessions && !s.sessions[sid].authenticated && msg.kind != "auth"
    ensures HandleMessage(hash, s, sid, msg)
         == s.(outbox := s.outbox + SendsIfOpen(s, sid, Error(NotAuthenticated)))
  {}

  /** A chat line outside any room, and a message of an unknown kind, are errors; an empty line is nothing. */
  lemma {:induction false} NotUnderstood(hash: string -> Hash, s: Server, sid: SessionId, msg: Message)
    requires Valid(s) && sid in s.sessions && s.sessions[sid].authenticated
    ensures var r := HandleMessage(hash, s, sid, msg);
            && (msg.kind == "msg" && msg.text == "" ==> r == s)
            && (msg.kind == "msg" && msg.text != "" && ParseCommand(msg.text).None? ==>
                  (OutOf(s.rooms, |s.rooms|, sid) ==>
                     r == s.(outbox := s.outbox + SendsIfOpen(s, sid, Error(UseJoin)))))
            && (msg.kind !in {"msg", "privmsg", "join", "leave", "list", "quit"} ==>
                  r == s.(outbox := s.outbox + SendsIfOpen(s, sid, Error(UnknownCommand(msg.kind)))))
  {
    var i := FindRoom(s.rooms, sid);
    if i < |s.rooms| { FindIsMember(s.rooms[i].members, sid); }
  }

  /** Connecting makes a session that is not authenticated, and greets it. */
  lemma {:induction false} Greeted(hash: string -> Hash, s: Server, sid: SessionId)
    requires sid !in s.sessions
    ensures Step(hash, s, Connects(sid))
         == s.(sessions := s.sessions[sid := Session("", false)], closed := s.closed - {sid},
               outbox := s.outbox + [Send(sid, Notice(Welcome)), Send(sid, Notice(AskAuth))])
  {}

  // ---------------------------------------------------------------- closed sockets

  /** Nothing has been taken back, and nothing written to a closed socket. */
  ghost predicate Quiet(s: Server, r: Server) {
    && s.outbox <= r.outbox && s.closed <= r.closed
    && forall i :: |s.outbox| <= i < |r.outbox| ==> r.outbox[i].to !in s.closed
  }

  lemma {:induction false} QuietThen(a: Server, b: Server, c: Server)
    requires Quiet(a, b) && Quiet(b, c)
    ensures Quiet(a, c)
  {
    forall i | |a.outbox| <= i < |c.outbox|
      ensures c.outbox[i].to !in a.closed
    {
      if i < |b.outbox| { assert c.outbox[i] == b.outbox[i]; }
    }
  }

  lemma {:induction false} BroadcastQuiet(s: Server, members: seq<Member>, msg: Outgoing, except: Option<SessionId>)
    ensures Quiet(s, s.(outbox := s.outbox + Sends(members, msg, except, s.closed)))
  {
    var sends := Sends(members, msg, except, s.closed);
    SendsAre(members, msg, except, s.closed);
    forall i | |s.outbox| <= i < |s.outbox + sends|
      ensures (s.outbox + sends)[i].to !in s.closed
    {
      assert (s.outbox + sends)[i] in sends;
    }
  }

  lemma {:induction false} LeaveQuiet(s: Server, i: nat, sid: SessionId)
    requires i < |s.rooms|
    ensures Quiet(s, Leave(s, i, sid))
  {
    var room := s.rooms[i];
    if FindMember(room.members, sid).Some? {
      var m := FindMember(room.members, sid).value;
      BroadcastQuiet(s, WithoutMember(room.members, sid), Notice(HasLeft(m.nick, room.name)), Some(sid));
    }
  }

  lemma {:induction false} RemovalQuiet(s: Server, n: nat, sid: SessionId)
    requires n <= |s.rooms|
    ensures Quiet(s, RemoveFromFirst(s, n, sid))
    decreases n
  {
    if n > 0 {
      RemovalQuiet(s, n - 1, sid);
      LeaveQuiet(RemoveFromFirst(s, n - 1, sid), n - 1, sid);
      QuietThen(s, RemoveFromFirst(s, n - 1, sid), RemoveFromFirst(s, n, sid));
    }
  }

  lemma {:induction false} JoinQuiet(s: Server, name: string, m: Member)
    ensures Quiet(s, Join(s, name, m))
  {
    var rooms := EnsureRoom(s.rooms, name);
    var i := RoomIndex(rooms, name);
    var members := WithMember(rooms[i].members, m);
    BroadcastQuiet(s, members, Notice(HasJoined(m.nick, name)), Some(m.sid));
  }

  lemma {:induction false} OtherQuiet(s: Server, sid: SessionId, msg: Message)
    requires sid in s.sessions
    ensures Quiet(s, HandleOther(s, sid, msg))
  {
    if msg.kind == "join" {
      EntersQuiet(s, sid, s.sessions[sid].nick, if msg.room == "" then GENERAL else msg.room);
    } else if msg.kind == "leave" {
      var i := FindRoom(s.rooms, sid);
      if i < |s.rooms| { LeaveQuiet(s, i, sid); }
    } else if msg.kind == "list" {
      ListQuiet(s, sid);
    }
  }

  lemma {:induction false} EntersQuiet(s: Server, sid: SessionId, nick: Nick, room: string)
    ensures Quiet(s, HandleJoin(s, sid, nick, room))
  {
    var out := RemoveFromAll(s, sid);
    RemovalQuiet(s, |s.rooms|, sid);
    JoinQuiet(out, room, Member(sid, nick));
    QuietThen(s, out, HandleJoin(s, sid, nick, room));
  }

  lemma {:induction false} ListQuiet(s: Server, sid: SessionId)
    ensures Quiet(s, HandleList(s, sid))
  {
    ListTells(s, sid);
    var head, lines := SendsIfOpen(s, sid, Notice(RoomsHeader)), RoomLines(s, sid);
    var sends := head + lines + SendsIfOpen(s, sid, Notice(ClientCount(|s.sessions|)));
    assert HandleList(s, sid).outbox == s.outbox + sends;
    assert forall x :: x in sends ==> x.to == sid && sid !in s.closed;
  }

  lemma {:induction false} ChatQuiet(s: Server, i: nat, sid: SessionId, text: string)
    requires i < |s.rooms|
    ensures Quiet(s, SendChat(s, i, sid, text))
  {
    if FindMember(s.rooms[i].members, sid).Some? {
      BroadcastQuiet(s, s.rooms[i].members, Chat(FindMember(s.rooms[i].members, sid).value.nick, text), None);
    }
  }

  lemma {:induction false} MessageQuiet(hash: string -> Hash, s: Server, sid: SessionId, msg: Message)
    requires sid in s.sessions
    ensures Quiet(s, HandleMessage(hash, s, sid, msg))
    decreases if msg.kind == "msg" then 1 else 0
  {
    if !s.sessions[sid].authenticated {
      if msg.kind == "auth" { AuthQuiet(hash, s, sid, msg.nick, msg.pass); }
    } else if msg.kind == "msg" {
      var cmd := ParseCommand(msg.text);
      if msg.text != "" && cmd.Some? {
        MessageQuiet(hash, s, sid, cmd.value);
        assert HandleChat(hash, s, sid, msg.text) == HandleMessage(hash, s, sid, cmd.value);
      } else if msg.text != "" {
        var i := FindRoom(s.rooms, sid);
        if i < |s.rooms| { ChatQuiet(s, i, sid, msg.text); }
      }
    } else {
      OtherQuiet(s, sid, msg);
    }
  }

  lemma {:induction false} AuthQuiet(hash: string -> Hash, s: Server, sid: SessionId, nick: Nick, pass: string)
    requires sid in s.sessions
    ensures Quiet(s, HandleAuth(hash, s, sid, nick, pass))
  {
    var entered := SendTo(LogIn(s, sid, nick, hash(pass)), sid, Notice(AuthenticatedAs(nick)));
    JoinQuiet(entered, GENERAL, Member(sid, nick));
    QuietThen(s, entered, Join(entered, GENERAL, Member(sid, nick)));
  }

  lemma {:induction false} MessagesQuiet(hash: string -> Hash, s: Server, sid: SessionId, msgs: seq<Message>)
    requires sid in s.sessions
    ensures Quiet(s, HandleMessages(hash, s, sid, msgs))
    decreases |msgs|
  {
    if msgs != [] {
      var before := HandleMessages(hash, s, sid, msgs[..|msgs|-1]);
      MessagesQuiet(hash, s, sid, msgs[..|msgs|-1]);
      MessageQuiet(hash, before, sid, msgs[|msgs|-1]);
      QuietThen(s, before, HandleMessages(hash, s, sid, msgs));
    }
  }

  lemma {:induction false} StepQuiet(hash: string -> Hash, s: Server, e: Event)
    requires !e.Connects?
    ensures Quiet(s, Step(hash, s, e))
  {
    match e
    case Delivers(sid, msgs) => if sid in s.sessions { MessagesQuiet(hash, s, sid, msgs); }
    case TimesOut(_) =>
    case Disconnects(sid) => if sid in s.sessions { RemovalQuiet(s, |s.rooms|, sid); }
  }

  /** One event writes nothing to a session whose socket is closed, unless it opens a new one for it. */
  lemma {:induction false} StaysClosed(hash: string -> Hash, s: Server, e: Event, sid: SessionId)
    requires sid in s.closed && e != Connects(sid)
    ensures var r := Step(hash, s, e);
            && sid in r.closed && s.outbox <= r.outbox
            && forall i :: |s.outbox| <= i < |r.outbox| ==> r.outbox[i].to != sid
  {
    if !e.Connects? { StepQuiet(hash, s, e); }
  }

  /** Over any run: once its socket is closed nothing is written to a session, whatever it or others still send, until
      it connects again. */
  lemma {:induction false} SilentOnceClosed(hash: string -> Hash, events: seq<Event>, n: nat, sid: SessionId)
    requires n <= |events| && sid in Run(hash, events[..n]).closed
    requires forall i :: n <= i < |events| ==> events[i] != Connects(sid)
    ensures var s, r := Run(hash, events[..n]), Run(hash, events);
            && sid in r.closed && s.outbox <= r.outbox
            && forall i :: |s.outbox| <= i < |r.outbox| ==> r.outbox[i].to != sid
    decreases |events|
  {
    if n == |events| {
      assert events[..n] == events;
    } else {
      var last := |events| - 1;
      assert events[..last][..n] == events[..n];
      SilentOnceClosed(hash, events[..last], n, sid);
      StaysClosed(hash, Run(hash, events[..last]), events[last], sid);
      var s, before, r := Run(hash, events[..n]), Run(hash, events[..last]), Run(hash, events);
      forall i | |s.outbox| <= i < |r.outbox|
        ensures r.outbox[i].to != sid
      {
        if i < |before.outbox| { assert r.outbox[i] == before.outbox[i]; }
      }
    }
  }

  /** Quitting, timing out and disconnecting close the socket, quitting and timing out after a last message. */
  lemma {:induction false} ClosesSocket(hash: string -> Hash, s: Server, sid: SessionId)
    requires Valid(s) && sid in s.sessions
    ensures sid in Step(hash, s, TimesOut(sid)).closed && sid in Step(hash, s, Disconnects(sid)).closed
    ensures Step(hash, s, TimesOut(sid)).outbox == s.outbox + SendsIfOpen(s, sid, Notice(TimedOut))
    ensures s.sessions[sid].authenticated ==>
              var r := HandleMessage(hash, s, sid, Command("quit", "", "", ""));
              sid in r.closed && r.outbox == s.outbox + SendsIfOpen(s, sid, Notice(Goodbye))
  {}
}
