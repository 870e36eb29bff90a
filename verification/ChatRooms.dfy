/** Who is in which room after each command, and who is told. */
module ChatRooms {
  import opened ChatServer
  import opened ChatInvariants
  import opened Options

  // ---------------------------------------------------------------- rooms by name

  /** The members of the room with this name, in the order they joined; none if there is no such room. */
  function MembersOf(rooms: seq<Room>, name: string): seq<Member> {
    var i := RoomIndex(rooms, name);
    if i < |rooms| then rooms[i].members else []
  }

  /** All members but one, in order. */
  function Others(members: seq<Member>, sid: SessionId): seq<Member> {
    if members == [] then []
    else (if members[0].sid == sid then [] else [members[0]]) + Others(members[1..], sid)
  }

  lemma {:induction false} OthersAbsent(members: seq<Member>, sid: SessionId)
    requires sid !in Sids(members)
    ensures Others(members, sid) == members
    decreases |members|
  {
    if members != [] {
      SidsCons(members);
      OthersAbsent(members[1..], sid);
    }
  }

  lemma {:induction false} WithoutIsOthers(members: seq<Member>, sid: SessionId)
    requires Distinct(members)
    ensures WithoutMember(members, sid) == Others(members, sid)
    decreases |members|
  {
    if members != [] {
      SidsCons(members);
      assert members[0].sid !in Sids(members[1..]);
      if members[0].sid == sid {
        OthersAbsent(members[1..], sid);
      } else {
        WithoutIsOthers(members[1..], sid);
      }
    }
  }

  lemma {:induction false} WithAbsent(members: seq<Member>, m: Member)
    requires m.sid !in Sids(members)
    ensures WithMember(members, m) == members + [m]
    decreases |members|
  {
    if members != [] {
      SidsCons(members);
      WithAbsent(members[1..], m);
      assert members == [members[0]] + members[1..];
    }
  }

  lemma {:induction false} OthersSids(members: seq<Member>, sid: SessionId)
    ensures Sids(Others(members, sid)) == Sids(members) - {sid}
    decreases |members|
  {
    if members != [] {
      SidsCons(members);
      OthersSids(members[1..], sid);
      var rest := Others(members[1..], sid);
      if members[0].sid != sid {
        SidsCons([members[0]] + rest);
      } else {
        assert [] + rest == rest;
      }
    }
  }

  lemma {:induction false} SendsToOthers(members: seq<Member>, msg: Outgoing, sid: SessionId, closed: set<SessionId>)
    ensures Sends(members, msg, Some(sid), closed) == Sends(Others(members, sid), msg, None, closed)
    decreases |members|
  {
    if members != [] {
      SendsToOthers(members[1..], msg, sid, closed);
      var rest := Others(members[1..], sid);
      if members[0].sid != sid { assert ([members[0]] + rest)[1..] == rest; } else { assert [] + rest == rest; }
    }
  }

  lemma {:induction false} IndexByName(rooms: seq<Room>, rooms': seq<Room>, name: string)
    requires |rooms| == |rooms'| && forall i :: 0 <= i < |rooms| ==> rooms[i].name == rooms'[i].name
    ensures RoomIndex(rooms, name) == RoomIndex(rooms', name)
  {}

  // ---------------------------------------------------------------- leaving

  /** `sid` is gone from the first `n` rooms; everything else about the rooms is as before. */
  ghost predicate Gone(rooms: seq<Room>, rooms': seq<Room>, n: nat, sid: SessionId) {
    && |rooms'| == |rooms|
    && forall i :: 0 <= i < |rooms| ==>
         rooms'[i] == if i < n then Room(rooms[i].name, Others(rooms[i].members, sid)) else rooms[i]
  }

  ghost predicate AllDistinct(rooms: seq<Room>) {
    forall i :: 0 <= i < |rooms| ==> Distinct(rooms[i].members)
  }

  lemma {:induction false} LeftRoom(s: Server, i: nat, sid: SessionId)
    requires i < |s.rooms| && Distinct(s.rooms[i].members)
    ensures Leave(s, i, sid).rooms
         == s.rooms[i := Room(s.rooms[i].name, Others(s.rooms[i].members, sid))]
  {
    var members := s.rooms[i].members;
    FindIsMember(members, sid);
    if sid in Sids(members) { WithoutIsOthers(members, sid); } else { OthersAbsent(members, sid); }
  }

  lemma {:induction false} GoneStep(rooms: seq<Room>, before: seq<Room>, n: nat, sid: SessionId)
    requires Gone(rooms, before, n, sid) && n < |rooms|
    ensures Gone(rooms, before[n := Room(before[n].name, Others(before[n].members, sid))], n + 1, sid)
  {}

  lemma {:induction false} GoneFromFirst(s: Server, n: nat, sid: SessionId)
    requires AllDistinct(s.rooms) && n <= |s.rooms|
    ensures Gone(s.rooms, RemoveFromFirst(s, n, sid).rooms, n, sid)
    decreases n
  {
    if n > 0 {
      var before := RemoveFromFirst(s, n - 1, sid);
      GoneFromFirst(s, n - 1, sid);
      LeftRoom(before, n - 1, sid);
      GoneStep(s.rooms, before.rooms, n - 1, sid);
    }
  }

  lemma {:induction false} GoneByName(rooms: seq<Room>, rooms': seq<Room>, sid: SessionId, name: string)
    requires Gone(rooms, rooms', |rooms|, sid)
    ensures MembersOf(rooms', name) == Others(MembersOf(rooms, name), sid)
  {
    IndexByName(rooms, rooms', name);
  }

  /** Leaving takes the session out of every room, and nobody else out of any. */
  lemma {:induction false} LeaveMoves(s: Server, sid: SessionId, name: string)
    requires Valid(s)
    ensures MembersOf(HandleLeave(s, sid).rooms, name) == Others(MembersOf(s.rooms, name), sid)
  {
    var i := FindRoom(s.rooms, sid);
    forall j | 0 <= j < |s.rooms| && j != i
      ensures Others(s.rooms[j].members, sid) == s.rooms[j].members
    {
      FindIsMember(s.rooms[j].members, sid);
      if i < |s.rooms| { FindIsMember(s.rooms[i].members, sid); }
      OthersAbsent(s.rooms[j].members, sid);
    }
    if i < |s.rooms| { LeftRoom(s, i, sid); }
    GoneByName(s.rooms, HandleLeave(s, sid).rooms, sid, name);
  }

  /** So does disconnecting. */
  lemma {:induction false} DisconnectMoves(s: Server, sid: SessionId, name: string)
    requires Valid(s) && sid in s.sessions
    ensures MembersOf(HandleDisconnect(s, sid).rooms, name) == Others(MembersOf(s.rooms, name), sid)
  {
    GoneFromFirst(s, |s.rooms|, sid);
    GoneByName(s.rooms, RemoveFromAll(s, sid).rooms, sid, name);
  }

  // ---------------------------------------------------------------- joining

  lemma {:induction false} ReplacedRoom(rooms: seq<Room>, target: string, members: seq<Member>, name: string)
    requires RoomIndex(rooms, target) < |rooms|
    ensures var r := rooms[RoomIndex(rooms, target) := Room(target, members)];
            MembersOf(r, name) == if name == target then members else MembersOf(rooms, name)
  {
    IndexByName(rooms, rooms[RoomIndex(rooms, target) := Room(target, members)], name);
  }

  lemma {:induction false} NotAmong(rooms: seq<Room>, sid: SessionId, name: string)
    requires OutOf(rooms, |rooms|, sid)
    ensures sid !in Sids(MembersOf(rooms, name))
  {
    assert Sids([]) == {};
  }

  lemma {:induction false} JoinedRoom(s: Server, target: string, m: Member, name: string)
    requires OutOf(s.rooms, |s.rooms|, m.sid)
    ensures MembersOf(Join(s, target, m).rooms, name)
         == MembersOf(s.rooms, name) + (if name == target then [m] else [])
  {
    var rooms := EnsureRoom(s.rooms, target);
    var before := MembersOf(rooms, target);
    EnsuredMembers(s.rooms, target, target);
    EnsuredMembers(s.rooms, target, name);
    NotAmong(s.rooms, m.sid, target);
    WithAbsent(before, m);
    ReplacedRoom(rooms, target, before + [m], name);
    assert Join(s, target, m).rooms == rooms[RoomIndex(rooms, target) := Room(target, before + [m])];
  }

  lemma {:induction false} EnsuredMembers(rooms: seq<Room>, target: string, name: string)
    ensures MembersOf(EnsureRoom(rooms, target), name) == MembersOf(rooms, name)
    ensures rooms <= EnsureRoom(rooms, target)
    ensures var r := EnsureRoom(rooms, target); forall i :: |rooms| <= i < |r| ==> r[i] == Room(target, [])
  {
    var r := EnsureRoom(rooms, target);
    var i, j := RoomIndex(rooms, name), RoomIndex(r, name);
    if i < |rooms| {
      assert r[i].name == name && forall k :: 0 <= k < i ==> r[k] == rooms[k];
    }
  }

  /** After `join` the session is in the room asked for, behind its other members and under its own nickname, and in no
      other; everybody else is where they were. */
  lemma {:induction false} JoinMoves(s: Server, sid: SessionId, nick: Nick, target: string, name: string)
    requires Valid(s)
    ensures MembersOf(HandleJoin(s, sid, nick, target).rooms, name)
         == Others(MembersOf(s.rooms, name), sid) + (if name == target then [Member(sid, nick)] else [])
  {
    var out := RemoveFromAll(s, sid);
    RemoveFromAllKeeps(s, |s.rooms|, sid);
    GoneFromFirst(s, |s.rooms|, sid);
    GoneByName(s.rooms, out.rooms, sid, name);
    JoinedRoom(out, target, Member(sid, nick), name);
  }

  // ---------------------------------------------------------------- who is told

  ghost function SendsIfOpen(s: Server, sid: SessionId, msg: Outgoing): seq<Send> {
    if sid in s.closed then [] else [Send(sid, msg)]
  }

  /** What the others in a room are told when the session leaves it. */
  ghost function Told(room: Room, sid: SessionId, closed: set<SessionId>): seq<Send> {
    match FindMember(room.members, sid)
    case Some(m) => Sends(Others(room.members, sid), Notice(HasLeft(m.nick, room.name)), None, closed)
    case None => []
  }

  /** What is sent when the session leaves the first `n` rooms: it is in one of them at most. */
  ghost function Farewell(s: Server, n: nat, sid: SessionId): seq<Send>
    requires n <= |s.rooms|
  {
    var i := FindRoom(s.rooms, sid);
    if i < n then Told(s.rooms[i], sid, s.closed) else []
  }

  lemma {:induction false} LeaveTellsRoom(s: Server, i: nat, sid: SessionId)
    requires i < |s.rooms| && Distinct(s.rooms[i].members)
    ensures Leave(s, i, sid).outbox == s.outbox + Told(s.rooms[i], sid, s.closed)
  {
    var members := s.rooms[i].members;
    match FindMember(members, sid)
    case Some(m) =>
      WithoutIsOthers(members, sid);
      OthersTwice(members, sid);
      SendsToOthers(Others(members, sid), Notice(HasLeft(m.nick, s.rooms[i].name)), sid, s.closed);
    case None => assert s.outbox + [] == s.outbox;
  }

  ghost predicate ToldInTurn(s: Server, n: nat, sid: SessionId)
    requires n < |s.rooms|
  {
    Farewell(s, n + 1, sid) == Farewell(s, n, sid) + Told(s.rooms[n], sid, s.closed)
  }

  lemma {:induction false} FarewellSteps(s: Server, sid: SessionId)
    requires RoomsValid(s.sessions, s.rooms)
    ensures forall n :: 0 <= n < |s.rooms| ==> ToldInTurn(s, n, sid)
  {
    forall n | 0 <= n < |s.rooms|
      ensures ToldInTurn(s, n, sid)
    {
      OnlyRoom(s, n, sid);
    }
  }

  lemma {:induction false} OthersTwice(members: seq<Member>, sid: SessionId)
    ensures Others(Others(members, sid), sid) == Others(members, sid)
  {
    OthersSids(members, sid);
    OthersAbsent(Others(members, sid), sid);
  }

  lemma {:induction false} InTurn(a: seq<Send>, b: seq<Send>, c: seq<Send>)
    ensures a + b + c == a + (b + c)
  {}

  lemma {:induction false} RemovalTells(s: Server, n: nat, sid: SessionId)
    requires AllDistinct(s.rooms) && n <= |s.rooms|
    requires forall i :: 0 <= i < |s.rooms| ==> ToldInTurn(s, i, sid)
    ensures RemoveFromFirst(s, n, sid).outbox == s.outbox + Farewell(s, n, sid)
    decreases n
  {
    if n > 0 {
      RemovalTells(s, n - 1, sid);
      var before, told := RemoveFromFirst(s, n - 1, sid), Told(s.rooms[n-1], sid, s.closed);
      GoneFromFirst(s, n - 1, sid);
      LeaveTellsRoom(before, n - 1, sid);
      assert Leave(before, n - 1, sid).outbox == before.outbox + told;
      assert ToldInTurn(s, n - 1, sid);
      assert Farewell(s, n, sid) == Farewell(s, n - 1, sid) + told;
      InTurn(s.outbox, Farewell(s, n - 1, sid), told);
    }
  }

  /** A session found in one room is in no other. */
  lemma {:induction false} OnlyRoom(s: Server, i: nat, sid: SessionId)
    requires RoomsValid(s.sessions, s.rooms) && i < |s.rooms|
    ensures FindMember(s.rooms[i].members, sid).Some? <==> FindRoom(s.rooms, sid) == i
  {
    var f := FindRoom(s.rooms, sid);
    FindIsMember(s.rooms[i].members, sid);
    if f < |s.rooms| { FindIsMember(s.rooms[f].members, sid); }
  }

  /** Joining tells the others in the room left, then those in the room joined, and then welcomes the session; in that
      order, and nothing else is sent. */
  lemma {:induction false} JoinTells(s: Server, sid: SessionId, nick: Nick, target: string)
    requires Valid(s)
    ensures var r := HandleJoin(s, sid, nick, target);
            var present := Others(MembersOf(s.rooms, target), sid);
            r.outbox == s.outbox + Farewell(s, |s.rooms|, sid)
                        + Sends(present, Notice(HasJoined(nick, target)), None, s.closed)
                        + SendsIfOpen(s, sid, Notice(WelcomeTo(target, |present| + 1)))
  {
    var out := RemoveFromAll(s, sid);
    FarewellSteps(s, sid);
    RemovalTells(s, |s.rooms|, sid);
    RemoveFromAllKeeps(s, |s.rooms|, sid);
    GoneFromFirst(s, |s.rooms|, sid);
    GoneByName(s.rooms, out.rooms, sid, target);
    WelcomeTells(out, target, Member(sid, nick));
  }

  lemma {:induction false} WelcomeTells(s: Server, target: string, m: Member)
    requires OutOf(s.rooms, |s.rooms|, m.sid)
    ensures var present := MembersOf(s.rooms, target);
            Join(s, target, m).outbox == s.outbox + Sends(present, Notice(HasJoined(m.nick, target)), None, s.closed)
                                         + SendsIfOpen(s, m.sid, Notice(WelcomeTo(target, |present| + 1)))
  {
    var present := MembersOf(EnsureRoom(s.rooms, target), target);
    EnsuredMembers(s.rooms, target, target);
    NotAmong(s.rooms, m.sid, target);
    WithAbsent(present, m);
    SendsToOthers(present + [m], Notice(HasJoined(m.nick, target)), m.sid, s.closed);
    OthersOfAppended(present, m);
  }

  lemma {:induction false} OthersOfAppended(members: seq<Member>, m: Member)
    requires m.sid !in Sids(members)
    ensures Others(members + [m], m.sid) == members
    decreases |members|
  {
    if members == [] {
      assert [m][1..] == [] && [] + [m] == [m];
    } else {
      SidsCons(members);
      OthersOfAppended(members[1..], m);
      assert (members + [m])[1..] == members[1..] + [m];
    }
  }

  /** Leaving tells the others, then confirms it; outside any room it is an error. */
  lemma {:induction false} LeaveTells(s: Server, sid: SessionId)
    requires Valid(s)
    ensures var i := FindRoom(s.rooms, sid);
            HandleLeave(s, sid).outbox ==
            if i == |s.rooms| then s.outbox + SendsIfOpen(s, sid, Error(NotInRoom))
            else s.outbox + Farewell(s, |s.rooms|, sid) + SendsIfOpen(s, sid, Notice(YouLeft(s.rooms[i].name)))
  {
    var i := FindRoom(s.rooms, sid);
    if i < |s.rooms| { LeaveTellsRoom(s, i, sid); }
  }

  ghost function RoomLines(s: Server, sid: SessionId): seq<Send> {
    seq(if sid in s.closed then 0 else |s.rooms|, i requires 0 <= i < |s.rooms| => LineOf(s.rooms[i], sid))
  }

  ghost function LineOf(room: Room, sid: SessionId): Send {
    Send(sid, Notice(RoomLine(room.name, |room.members|, Nicks(room.members))))
  }

  lemma {:induction false} LinesSent(s: Server, sid: SessionId, n: nat)
    requires n <= |s.rooms|
    ensures ListRooms(s, sid, n).outbox
         == s.outbox + (if sid in s.closed then [] else RoomLines(s, sid)[..n])
    decreases n
  {
    if n > 0 {
      LinesSent(s, sid, n - 1);
      if sid !in s.closed {
        assert RoomLines(s, sid)[..n] == RoomLines(s, sid)[..n-1] + [RoomLines(s, sid)[n-1]];
      }
    }
  }

  /** `list` answers with one line for each room, in the order the rooms were made, between a header and the number of
      sessions. */
  lemma {:induction false} ListTells(s: Server, sid: SessionId)
    ensures HandleList(s, sid) ==
            s.(outbox := s.outbox + SendsIfOpen(s, sid, Notice(RoomsHeader)) + RoomLines(s, sid)
                         + SendsIfOpen(s, sid, Notice(ClientCount(|s.sessions|))))
  {
    var head := SendTo(s, sid, Notice(RoomsHeader));
    LinesSent(head, sid, |head.rooms|);
    if sid !in s.closed {
      assert RoomLines(head, sid) == RoomLines(s, sid);
      assert RoomLines(s, sid)[..|s.rooms|] == RoomLines(s, sid);
    }
  }
}
