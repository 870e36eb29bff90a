/** The server object: maps, room lists and parsers, updated handler by handler. */
module ChatManager {
  import opened Bytes
  import opened ChatBytes
  import opened ChatInvariants
  import opened ChatProtocol
  import opened ChatServer
  import opened Framing
  import opened Options

  class ClientManager {
    const hash: string -> Hash
    const decode: Decoder
    var sessions: map<SessionId, Session>
    var nickToSession: map<Nick, SessionId>
    var passwords: map<Nick, Hash>
    var rooms: seq<Room>
    var closed: set<SessionId>
    var outbox: seq<Send>
    var parsers: map<SessionId, MessageParser<Message>>

    function Now(): Server
      reads this`sessions, this`nickToSession, this`passwords, this`rooms, this`closed, this`outbox
    {
      Server(sessions, nickToSession, passwords, rooms, closed, outbox)
    }

    function Buffers(): map<SessionId, seq<Byte>>
      reads this`parsers, parsers.Values
    {
      map sid | sid in parsers :: parsers[sid].buffer
    }

    function OnWire(): Wire
      reads this, parsers.Values
    {
      Wire(Now(), Buffers())
    }

    /** The parsers are distinct objects. */
    ghost predicate Apart()
      reads this`parsers, parsers.Values
    {
      && (forall a, b :: a in parsers && b in parsers && a != b ==> parsers[a] != parsers[b])
      && (forall a :: a in parsers ==> parsers[a].decode == decode)
    }

    /** Every session has a parser of its own. */
    ghost predicate Wired()
      reads this, parsers.Values
    {
      parsers.Keys == sessions.Keys && Apart()
    }

    constructor (hash: string -> Hash, decode: Decoder)
      ensures this.hash == hash && this.decode == decode && OnWire() == QUIET
      ensures Valid(Now()) && Wired()
    {
      this.hash, this.decode := hash, decode;
      sessions, nickToSession, passwords, closed, outbox := map[], map[], map[], {}, [];
      rooms := [Room(GENERAL, [])];
      parsers := map[];
      new;
      assert rooms[0].name == GENERAL;
    }

    method Write(sid: SessionId, msg: Outgoing)
      modifies this`outbox
      ensures Now() == SendTo(old(Now()), sid, msg)
    {
      if sid in closed { return; }
      outbox := outbox + [Send(sid, msg)];
    }

    /** `broadcastAll` (no exception) and `broadcastExcept`. */
    method Broadcast(members: seq<Member>, msg: Outgoing, except: Option<SessionId>)
      modifies this`outbox
      ensures outbox == old(outbox) + Sends(members, msg, except, closed)
    {
      for i := 0 to |members|
        invariant outbox + Sends(members[i..], msg, except, closed) == old(outbox) + Sends(members, msg, except, closed)
      {
        ghost var before, rest := outbox, Sends(members[i+1..], msg, except, closed);
        var m := members[i];
        ghost var one := if except == Some(m.sid) || m.sid in closed then [] else [Send(m.sid, msg)];
        assert Sends(members[i..], msg, except, closed) == one + rest by {
          assert members[i..][0] == m && members[i..][1..] == members[i+1..];
        }
        if except != Some(m.sid) { Write(m.sid, msg); }
        assert outbox == before + one;
        assert before + (one + rest) == before + one + rest;
      }
    }

    method FindRoomOf(sid: SessionId) returns (i: nat)
      ensures i == FindRoom(rooms, sid)
    {
      i := 0;
      while i < |rooms| && FindMember(rooms[i].members, sid).None?
        invariant i <= |rooms| && FindRoom(rooms, sid) == i + FindRoom(rooms[i..], sid)
      {
        i := i + 1;
      }
    }

    method GetOrCreate(name: string) returns (i: nat)
      modifies this`rooms
      ensures rooms == EnsureRoom(old(rooms), name) && i == RoomIndex(rooms, name) && i < |rooms|
    {
      i := RoomIndex(rooms, name);
      if i == |rooms| {
        rooms := rooms + [Room(name, [])];
        assert rooms[i].name == name;
      }
    }

    method JoinRoom(name: string, m: Member)
      modifies this`rooms, this`outbox
      ensures Now() == Join(old(Now()), name, m)
    {
      var i := GetOrCreate(name);
      var members := WithMember(rooms[i].members, m);
      rooms := rooms[i := Room(name, members)];
      Broadcast(members, Notice(HasJoined(m.nick, name)), Some(m.sid));
      Write(m.sid, Notice(WelcomeTo(name, |members|)));
    }

    method LeaveRoom(i: nat, sid: SessionId)
      requires i < |rooms|
      modifies this`rooms, this`outbox
      ensures Now() == Leave(old(Now()), i, sid)
    {
      var room := rooms[i];
      var member := FindMember(room.members, sid);
      if member.None? { return; }
      var members := WithoutMember(room.members, sid);
      rooms := rooms[i := Room(room.name, members)];
      Broadcast(members, Notice(HasLeft(member.value.nick, room.name)), Some(sid));
    }

    method RemoveFromAllRooms(sid: SessionId)
      modifies this`rooms, this`outbox
      ensures Now() == RemoveFromAll(old(Now()), sid)
    {
      var n := |rooms|;
      for i := 0 to n
        invariant |rooms| == n && Now() == RemoveFromFirst(old(Now()), i, sid)
      {
        LeaveRoom(i, sid);
      }
    }

    method OnConnection(sid: SessionId)
      requires Valid(Now()) && Wired() && sid !in sessions
      modifies this
      ensures Valid(Now()) && Wired() && HashesKept(old(Now()), Now())
      ensures OnWire() == ByteStep(decode, hash, old(OnWire()), Opens(sid))
      ensures fresh(parsers.Values - old(parsers.Values))
    {
      ByteStepKeeps(decode, hash, OnWire(), Opens(sid));
      Accept(sid);
    }

    method Accept(sid: SessionId)
      requires Wired()
      modifies this
      ensures Wired() && OnWire() == ByteStep(decode, hash, old(OnWire()), Opens(sid))
      ensures fresh(parsers.Values - old(parsers.Values))
    {
      AddParser(sid);
      Greet(sid);
    }

    method AddParser(sid: SessionId)
      requires Apart()
      modifies this`parsers
      ensures Apart() && Buffers() == old(Buffers())[sid := []] && parsers.Keys == old(parsers.Keys) + {sid}
      ensures fresh(parsers.Values - old(parsers.Values))
    {
      var parser := new MessageParser<Message>(decode);
      parsers := parsers[sid := parser];
    }

    method RemoveParser(sid: SessionId)
      requires Apart()
      modifies this`parsers
      ensures Apart() && Buffers() == old(Buffers()) - {sid} && parsers.Keys == old(parsers.Keys) - {sid}
      ensures parsers.Values <= old(parsers.Values)
    {
      parsers := parsers - {sid};
    }

    method Greet(sid: SessionId)
      modifies this`sessions, this`nickToSession, this`passwords, this`rooms, this`closed, this`outbox
      ensures Now() == HandleConnection(old(Now()), sid) && sessions.Keys == old(sessions.Keys) + {sid}
    {
      sessions := sessions[sid := Session("", false)];
      closed := closed - {sid};
      Write(sid, Notice(Welcome));
      Write(sid, Notice(AskAuth));
    }

    /** `handleData`: the session's parser takes the bytes, then each message is handled. */
    method OnData(sid: SessionId, data: seq<Byte>)
      requires Valid(Now()) && Wired()
      modifies this, parsers.Values
      ensures Valid(Now()) && Wired() && HashesKept(old(Now()), Now()) && parsers == old(parsers)
      ensures OnWire() == ByteStep(decode, hash, old(OnWire()), Receives(sid, data))
    {
      ByteStepKeeps(decode, hash, OnWire(), Receives(sid, data));
      Handle(sid, data);
    }

    method Handle(sid: SessionId, data: seq<Byte>)
      requires Wired()
      modifies this`sessions, this`nickToSession, this`passwords, this`rooms, this`closed, this`outbox, parsers.Values
      ensures Wired() && OnWire() == ByteStep(decode, hash, old(OnWire()), Receives(sid, data))
    {
      if sid !in sessions { return; }
      ghost var before := OnWire();
      var messages := ParseFor(sid, data);
      ghost var parsed := Buffers();
      OnMessages(sid, messages);
      assert Buffers() == parsed;
      ReceiveIs(decode, hash, before, sid, data, OnWire());
    }

    method ParseFor(sid: SessionId, data: seq<Byte>) returns (messages: seq<Message>)
      requires Wired() && sid in parsers
      modifies parsers[sid]
      ensures Wired()
      ensures var (msgs, kept) := Drain(decode, old(Buffers())[sid] + data);
              messages == msgs && Buffers() == old(Buffers())[sid := kept]
    {
      messages := parsers[sid].Parse(data);
    }

    method OnMessages(sid: SessionId, msgs: seq<Message>)
      requires sid in sessions
      modifies this`sessions, this`nickToSession, this`passwords, this`rooms, this`closed, this`outbox
      ensures Now() == HandleMessages(hash, old(Now()), sid, msgs) && sessions.Keys == old(sessions.Keys)
    {
      ghost var start := Now();
      for i := 0 to |msgs|
        invariant sid in sessions && Now() == HandleMessages(hash, start, sid, msgs[..i])
      {
        assert msgs[..i+1][..i] == msgs[..i];
        OnMessage(sid, msgs[i]);
      }
      assert msgs[..|msgs|] == msgs;
    }

    method OnMessage(sid: SessionId, msg: Message)
      requires sid in sessions
      modifies this`sessions, this`nickToSession, this`passwords, this`rooms, this`closed, this`outbox
      ensures Now() == HandleMessage(hash, old(Now()), sid, msg)
      decreases if msg.kind == "msg" then 1 else 0, 1
    {
      var session := sessions[sid];
      if !session.authenticated {
        if msg.kind == "auth" {
          OnAuth(sid, msg.nick, msg.pass);
        } else {
          Write(sid, Error(NotAuthenticated));
        }
      } else if msg.kind == "msg" {
        OnChat(sid, msg.text);
      } else {
        OnOther(sid, msg);
      }
    }

    method OnOther(sid: SessionId, msg: Message)
      requires sid in sessions
      modifies this`rooms, this`outbox, this`closed
      ensures Now() == HandleOther(old(Now()), sid, msg)
    {
      var nick := sessions[sid].nick;
      if msg.kind == "privmsg" {
        OnPrivate(sid, nick, msg.to, msg.text);
      } else if msg.kind == "join" {
        RemoveFromAllRooms(sid);
        JoinRoom(if msg.room == "" then GENERAL else msg.room, Member(sid, nick));
      } else if msg.kind == "leave" {
        OnLeave(sid);
      } else if msg.kind == "list" {
        OnList(sid);
      } else if msg.kind == "quit" {
        Write(sid, Notice(Goodbye));
        closed := closed + {sid};
      } else {
        Write(sid, Error(UnknownCommand(msg.kind)));
      }
    }

    method OnPrivate(sid: SessionId, nick: Nick, to: Nick, text: string)
      modifies this`outbox
      ensures Now() == HandlePrivate(old(Now()), sid, nick, to, text)
    {
      if to == "" || text == "" { Write(sid, Error(MsgUsage)); return; }
      if to !in nickToSession || nickToSession[to] == "" { Write(sid, Error(UserNotFound(to))); return; }
      if nickToSession[to] !in sessions { Write(sid, Error(UserNotConnected(to))); return; }
      Write(nickToSession[to], Private(nick, to, text));
      Write(sid, Private(nick, to, text));
    }

    method OnLeave(sid: SessionId)
      modifies this`rooms, this`outbox
      ensures Now() == HandleLeave(old(Now()), sid)
    {
      var i := FindRoomOf(sid);
      if i == |rooms| { Write(sid, Error(NotInRoom)); return; }
      var name := rooms[i].name;
      LeaveRoom(i, sid);
      Write(sid, Notice(YouLeft(name)));
    }

    method OnList(sid: SessionId)
      modifies this`outbox
      ensures Now() == HandleList(old(Now()), sid)
    {
      Write(sid, Notice(RoomsHeader));
      ghost var head := Now();
      for i := 0 to |rooms|
        invariant Now() == ListRooms(head, sid, i)
      {
        Write(sid, Notice(RoomLine(rooms[i].name, |rooms[i].members|, Nicks(rooms[i].members))));
      }
      Write(sid, Notice(ClientCount(|sessions|)));
    }

    method OnChat(sid: SessionId, text: string)
      requires sid in sessions
      modifies this`sessions, this`nickToSession, this`passwords, this`rooms, this`closed, this`outbox
      ensures Now() == HandleChat(hash, old(Now()), sid, text)
      decreases 1, 0
    {
      if text == "" { return; }
      var cmd := ParseCommand(text);
      if cmd.Some? { OnMessage(sid, cmd.value); return; }
      var i := FindRoomOf(sid);
      if i == |rooms| { Write(sid, Error(UseJoin)); return; }
      var sender := FindMember(rooms[i].members, sid);
      if sender.Some? {
        Broadcast(rooms[i].members, Chat(sender.value.nick, text), None);
      }
    }

    method OnAuth(sid: SessionId, nick: Nick, pass: string)
      requires sid in sessions
      modifies this`sessions, this`nickToSession, this`passwords, this`rooms, this`closed, this`outbox
      ensures Now() == HandleAuth(hash, old(Now()), sid, nick, pass)
    {
      if nick == "" || |nick| < 2 || |nick| > 20 { Write(sid, Error(BadNick)); return; }
      var holder := if nick in nickToSession then nickToSession[nick] else "";
      if holder != "" && holder != sid && holder in sessions
         && nick in passwords && passwords[nick] != "" && passwords[nick] != hash(pass) {
        Write(sid, Error(NickInUse));
        return;
      }
      if nick !in passwords {
        passwords := passwords[nick := hash(pass)];
      } else if passwords[nick] != hash(pass) {
        Write(sid, Error(WrongPassword));
        return;
      }
      sessions := sessions[sid := Session(nick, true)];
      nickToSession := nickToSession[nick := sid];
      Write(sid, Notice(AuthenticatedAs(nick)));
      JoinRoom(GENERAL, Member(sid, nick));
    }

    method OnTimeout(sid: SessionId)
      requires Valid(Now()) && Wired()
      modifies this`outbox, this`closed
      ensures Valid(Now()) && Wired() && HashesKept(old(Now()), Now())
      ensures OnWire() == ByteStep(decode, hash, old(OnWire()), Idles(sid))
    {
      ByteStepKeeps(decode, hash, OnWire(), Idles(sid));
      HangUp(sid);
    }

    method HangUp(sid: SessionId)
      requires Wired()
      modifies this`outbox, this`closed
      ensures Wired() && OnWire() == ByteStep(decode, hash, old(OnWire()), Idles(sid))
    {
      if sid !in sessions { return; }
      ghost var before := Buffers();
      Write(sid, Notice(TimedOut));
      closed := closed + {sid};
      assert Buffers() == before;
    }

    method OnDisconnect(sid: SessionId)
      requires Valid(Now()) && Wired()
      modifies this
      ensures Valid(Now()) && Wired() && HashesKept(old(Now()), Now()) && parsers.Values <= old(parsers.Values)
      ensures OnWire() == ByteStep(decode, hash, old(OnWire()), Closes(sid))
    {
      ByteStepKeeps(decode, hash, OnWire(), Closes(sid));
      Drop(sid);
    }

    method Drop(sid: SessionId)
      requires Wired()
      modifies this
      ensures Wired() && parsers.Values <= old(parsers.Values)
      ensures OnWire() == ByteStep(decode, hash, old(OnWire()), Closes(sid))
    {
      if sid !in sessions { return; }
      Forget(sid);
      RemoveParser(sid);
    }

    method Forget(sid: SessionId)
      requires sid in sessions
      modifies this`sessions, this`nickToSession, this`passwords, this`rooms, this`closed, this`outbox
      ensures Now() == HandleDisconnect(old(Now()), sid) && sessions.Keys == old(sessions.Keys) - {sid}
    {
      var nick := sessions[sid].nick;
      RemoveFromAllRooms(sid);
      if nick != "" { nickToSession := nickToSession - {nick}; }
      sessions := sessions - {sid};
      closed := closed + {sid};
    }
  }

  lemma {:induction false} ReceiveIs(decode: Decoder, hash: string -> Hash, w: Wire, sid: SessionId, data: seq<Byte>,
                                     w': Wire)
    requires sid in w.server.sessions && sid in w.buffers
    requires var (msgs, kept) := Drain(decode, w.buffers[sid] + data);
             w'.server == HandleData(hash, w.server, sid, msgs) && w'.buffers == w.buffers[sid := kept]
    ensures w' == ByteStep(decode, hash, w, Receives(sid, data))
  {}
}
