/** The chat server: what each event does to sessions, nicknames, passwords, rooms and the sent messages, as
    functions on values and as the server object that runs them. */
module ChatServer {
  import opened ChatProtocol
  import opened Options

  type SessionId = string
  type Nick = string
  type Hash = string

  datatype Session = Session(nick: Nick, authenticated: bool)

  datatype Member = Member(sid: SessionId, nick: Nick)

  /** Members in the order they joined. */
  datatype Room = Room(name: string, members: seq<Member>)

  /** The texts the server composes, by what they say. */
  datatype Text =
    | Welcome | AskAuth | NotAuthenticated | BadNick | NickInUse | WrongPassword | AuthenticatedAs(nick: Nick)
    | HasJoined(nick: Nick, room: string) | WelcomeTo(room: string, users: nat) | HasLeft(nick: Nick, room: string)
    | NotInRoom | UseJoin | YouLeft(room: string) | MsgUsage | UserNotFound(nick: Nick) | UserNotConnected(nick: Nick)
    | Goodbye | TimedOut | UnknownCommand(kind: string)
    | RoomsHeader | RoomLine(room: string, users: nat, nicks: seq<Nick>)
    | ClientCount(n: nat)

  datatype Outgoing =
    | Notice(text: Text)
    | Error(text: Text)
    | Chat(nick: Nick, line: string)
    | Private(nick: Nick, to: Nick, line: string)

  datatype Send = Send(to: SessionId, msg: Outgoing)

  /** `closed` are the sessions whose socket takes no more data, being ended or destroyed; `outbox` is everything the
      sockets have taken so far. */
  datatype Server = Server(
    sessions: map<SessionId, Session>,
    nickToSession: map<Nick, SessionId>,
    passwords: map<Nick, Hash>,
    rooms: seq<Room>,
    closed: set<SessionId>,
    outbox: seq<Send>)

  const START := Server(map[], map[], map[], [Room(GENERAL, [])], {}, [])

  // ---------------------------------------------------------------- sending

  function SendTo(s: Server, sid: SessionId, msg: Outgoing): Server {
    if sid in s.closed then s else s.(outbox := s.outbox + [Send(sid, msg)])
  }

  /** What a broadcast writes: one message to each member in turn, except one and those with a closed socket. */
  function Sends(members: seq<Member>, msg: Outgoing, except: Option<SessionId>, closed: set<SessionId>): seq<Send> {
    if members == [] then []
    else
      var m := members[0];
      (if except == Some(m.sid) || m.sid in closed then [] else [Send(m.sid, msg)]) +
      Sends(members[1..], msg, except, closed)
  }

  /** `socket.end()`: what is written later is lost. */
  function EndSocket(s: Server, sid: SessionId): Server {
    s.(closed := s.closed + {sid})
  }

  // ---------------------------------------------------------------- rooms

  function WithMember(members: seq<Member>, m: Member): seq<Member> {
    if members == [] then [m]
    else if members[0].sid == m.sid then [m] + members[1..]
    else [members[0]] + WithMember(members[1..], m)
  }

  function WithoutMember(members: seq<Member>, sid: SessionId): seq<Member> {
    if members == [] then []
    else if members[0].sid == sid then members[1..]
    else [members[0]] + WithoutMember(members[1..], sid)
  }

  function FindMember(members: seq<Member>, sid: SessionId): Option<Member> {
    if members == [] then None
    else if members[0].sid == sid then Some(members[0])
    else FindMember(members[1..], sid)
  }

  function RoomIndex(rooms: seq<Room>, name: string): (i: nat)
    ensures i <= |rooms|
    ensures i < |rooms| ==> rooms[i].name == name
    ensures forall j :: 0 <= j < i ==> rooms[j].name != name
  {
    if rooms == [] || rooms[0].name == name then 0 else 1 + RoomIndex(rooms[1..], name)
  }

  /** `getOrCreate`. */
  function EnsureRoom(rooms: seq<Room>, name: string): (r: seq<Room>)
    ensures RoomIndex(r, name) < |r|
  {
    if RoomIndex(rooms, name) < |rooms| then rooms
    else
      var r := rooms + [Room(name, [])];
      assert r[|rooms|].name == name;
      r
  }

  /** `findRoom`: the first room with that member. */
  function FindRoom(rooms: seq<Room>, sid: SessionId): (i: nat)
    ensures i <= |rooms|
    ensures i < |rooms| ==> FindMember(rooms[i].members, sid).Some?
    ensures forall j :: 0 <= j < i ==> FindMember(rooms[j].members, sid).None?
  {
    if rooms == [] || FindMember(rooms[0].members, sid).Some? then 0 else 1 + FindRoom(rooms[1..], sid)
  }

  /** Joining a room: the others are told first, then the joiner is welcomed. */
  function Join(s: Server, name: string, m: Member): (r: Server)
    ensures r == s.(rooms := r.rooms, outbox := r.outbox)
  {
    var rooms := EnsureRoom(s.rooms, name);
    var i := RoomIndex(rooms, name);
    var members := WithMember(rooms[i].members, m);
    var told := s.(rooms := rooms[i := Room(name, members)],
                   outbox := s.outbox + Sends(members, Notice(HasJoined(m.nick, name)), Some(m.sid), s.closed));
    SendTo(told, m.sid, Notice(WelcomeTo(name, |members|)))
  }

  /** `leave` of one room, if `sid` is in it. */
  function Leave(s: Server, i: nat, sid: SessionId): (r: Server)
    requires i < |s.rooms|
    ensures |r.rooms| == |s.rooms|
    ensures r == s.(rooms := r.rooms, outbox := r.outbox)
  {
    var room := s.rooms[i];
    match FindMember(room.members, sid)
    case None => s
    case Some(m) =>
      var members := WithoutMember(room.members, sid);
      s.(rooms := s.rooms[i := Room(room.name, members)],
         outbox := s.outbox + Sends(members, Notice(HasLeft(m.nick, room.name)), Some(sid), s.closed))
  }

  /** `removeFromAll` over the first `n` rooms. */
  function RemoveFromFirst(s: Server, n: nat, sid: SessionId): (r: Server)
    requires n <= |s.rooms|
    ensures |r.rooms| == |s.rooms|
    ensures r == s.(rooms := r.rooms, outbox := r.outbox)
  {
    if n == 0 then s else Leave(RemoveFromFirst(s, n - 1, sid), n - 1, sid)
  }

  function RemoveFromAll(s: Server, sid: SessionId): (r: Server)
    ensures r == s.(rooms := r.rooms, outbox := r.outbox)
  {
    RemoveFromFirst(s, |s.rooms|, sid)
  }

  // ---------------------------------------------------------------- handlers of an authenticated session

  function HandlePrivate(s: Server, sid: SessionId, nick: Nick, to: Nick, text: string): (r: Server)
    ensures r == s.(rooms := r.rooms, outbox := r.outbox)
  {
    if to == "" || text == "" then SendTo(s, sid, Error(MsgUsage))
    else if to !in s.nickToSession || s.nickToSession[to] == "" then SendTo(s, sid, Error(UserNotFound(to)))
    else if s.nickToSession[to] !in s.sessions then SendTo(s, sid, Error(UserNotConnected(to)))
    else SendTo(SendTo(s, s.nickToSession[to], Private(nick, to, text)), sid, Private(nick, to, text))
  }

  function HandleJoin(s: Server, sid: SessionId, nick: Nick, room: string): (r: Server)
    ensures r == s.(rooms := r.rooms, outbox := r.outbox)
  {
    Join(RemoveFromAll(s, sid), room, Member(sid, nick))
  }

  function HandleLeave(s: Server, sid: SessionId): (r: Server)
    ensures r == s.(rooms := r.rooms, outbox := r.outbox)
  {
    var i := FindRoom(s.rooms, sid);
    if i == |s.rooms| then SendTo(s, sid, Error(NotInRoom))
    else SendTo(Leave(s, i, sid), sid, Notice(YouLeft(s.rooms[i].name)))
  }

  function Nicks(members: seq<Member>): seq<Nick> {
    seq(|members|, i requires 0 <= i < |members| => members[i].nick)
  }

  function ListRooms(s: Server, sid: SessionId, n: nat): (r: Server)
    requires n <= |s.rooms|
    ensures r == s.(outbox := r.outbox)
  {
    if n == 0 then s
    else
      var room := s.rooms[n-1];
      SendTo(ListRooms(s, sid, n - 1), sid, Notice(RoomLine(room.name, |room.members|, Nicks(room.members))))
  }

  function HandleList(s: Server, sid: SessionId): (r: Server)
    ensures r == s.(rooms := r.rooms, outbox := r.outbox)
  {
    var head := SendTo(s, sid, Notice(RoomsHeader));
    SendTo(ListRooms(head, sid, |head.rooms|), sid, Notice(ClientCount(|s.sessions|)))
  }

  function SendChat(s: Server, i: nat, sid: SessionId, text: string): (r: Server)
    requires i < |s.rooms|
    ensures r == s.(outbox := r.outbox)
  {
    match FindMember(s.rooms[i].members, sid)
    case None => s
    case Some(m) => s.(outbox := s.outbox + Sends(s.rooms[i].members, Chat(m.nick, text), None, s.closed))
  }

  /** A chat line: nothing, a command, an error outside any room, or a broadcast to the sender's room. */
  function HandleChat(hash: string -> Hash, s: Server, sid: SessionId, text: string): (r: Server)
    requires sid in s.sessions
    ensures r.sessions.Keys == s.sessions.Keys
    decreases 1, 0
  {
    if text == "" then s
    else
      var cmd := ParseCommand(text);
      if cmd.Some? then HandleMessage(hash, s, sid, cmd.value)
      else
        var i := FindRoom(s.rooms, sid);
        if i == |s.rooms| then SendTo(s, sid, Error(UseJoin)) else SendChat(s, i, sid, text)
  }

  function HandleAuth(hash: string -> Hash, s: Server, sid: SessionId, nick: Nick, pass: string): (r: Server)
    requires sid in s.sessions
    ensures r.sessions.Keys == s.sessions.Keys
  {
    if nick == "" || |nick| < 2 || |nick| > 20 then SendTo(s, sid, Error(BadNick))
    else
      var holder := if nick in s.nickToSession then s.nickToSession[nick] else "";
      if holder != "" && holder != sid && holder in s.sessions
         && nick in s.passwords && s.passwords[nick] != "" && s.passwords[nick] != hash(pass)
      then SendTo(s, sid, Error(NickInUse))
      else if nick in s.passwords && s.passwords[nick] != hash(pass) then SendTo(s, sid, Error(WrongPassword))
      else
        Join(SendTo(LogIn(s, sid, nick, hash(pass)), sid, Notice(AuthenticatedAs(nick))), GENERAL, Member(sid, nick))
  }

  /** A first login stores the hash; every login binds the session and the nickname to each other. */
  function LogIn(s: Server, sid: SessionId, nick: Nick, hashed: Hash): Server {
    s.(passwords := if nick in s.passwords then s.passwords else s.passwords[nick := hashed],
       sessions := s.sessions[sid := Session(nick, true)],
       nickToSession := s.nickToSession[nick := sid])
  }

  function HandleMessage(hash: string -> Hash, s: Server, sid: SessionId, msg: Message): (r: Server)
    requires sid in s.sessions
    ensures r.sessions.Keys == s.sessions.Keys
    decreases if msg.kind == "msg" then 1 else 0, 1
  {
    if !s.sessions[sid].authenticated then
      if msg.kind == "auth" then HandleAuth(hash, s, sid, msg.nick, msg.pass)
      else SendTo(s, sid, Error(NotAuthenticated))
    else if msg.kind == "msg" then HandleChat(hash, s, sid, msg.text)
    else HandleOther(s, sid, msg)
  }

  /** The remaining message types of an authenticated session. */
  function HandleOther(s: Server, sid: SessionId, msg: Message): (r: Server)
    requires sid in s.sessions
    ensures r == s.(rooms := r.rooms, outbox := r.outbox, closed := r.closed)
  {
    if msg.kind == "privmsg" then HandlePrivate(s, sid, s.sessions[sid].nick, msg.to, msg.text)
    else if msg.kind == "join" then
      HandleJoin(s, sid, s.sessions[sid].nick, if msg.room == "" then GENERAL else msg.room)
    else if msg.kind == "leave" then HandleLeave(s, sid)
    else if msg.kind == "list" then HandleList(s, sid)
    else if msg.kind == "quit" then EndSocket(SendTo(s, sid, Notice(Goodbye)), sid)
    else SendTo(s, sid, Error(UnknownCommand(msg.kind)))
  }

  // ---------------------------------------------------------------- events

  function HandleConnection(s: Server, sid: SessionId): Server {
    var s1 := s.(sessions := s.sessions[sid := Session("", false)], closed := s.closed - {sid});
    SendTo(SendTo(s1, sid, Notice(Welcome)), sid, Notice(AskAuth))
  }

  function HandleMessages(hash: string -> Hash, s: Server, sid: SessionId, msgs: seq<Message>): (r: Server)
    requires sid in s.sessions
    ensures r.sessions.Keys == s.sessions.Keys
  {
    if msgs == [] then s
    else HandleMessage(hash, HandleMessages(hash, s, sid, msgs[..|msgs|-1]), sid, msgs[|msgs|-1])
  }

  /** Parsed messages of one chunk of data. */
  function HandleData(hash: string -> Hash, s: Server, sid: SessionId, msgs: seq<Message>): Server {
    if sid in s.sessions then HandleMessages(hash, s, sid, msgs) else s
  }

  function HandleTimeout(s: Server, sid: SessionId): Server {
    if sid !in s.sessions then s else EndSocket(SendTo(s, sid, Notice(TimedOut)), sid)
  }

  function HandleDisconnect(s: Server, sid: SessionId): Server {
    if sid !in s.sessions then s
    else
      var s1 := RemoveFromAll(s, sid);
      var nick := s.sessions[sid].nick;
      s1.(nickToSession := if nick != "" then s1.nickToSession - {nick} else s1.nickToSession,
          sessions := s1.sessions - {sid},
          closed := s1.closed + {sid})
  }
}
