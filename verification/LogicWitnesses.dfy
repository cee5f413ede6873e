/** Runs of the server that reach the states in which the source falls short: a user about to
    join the room it alone occupies, rooms deleted although a member is here, a room kept
    although all members are away, and a player who is away and still in game. Whoever is away
    makes no request in them. */
module LogicWitnesses {
  import opened Basics
  import opened RoomModel
  import opened RoomInvariant
  import opened RoomGame
  import opened LogicModel
  import opened LogicSafety
  import opened LogicTheorems
  import opened LogicPresence

  /** The server has one room, number 1, with these members and offline marks, and no game runs. */
  ghost predicate OneRoom(c: Config, s: ServerState, users: set<int>, off: set<int>) {
    && c.roomSize >= 1 && ServerInv(c, s)
    && s.rooms.Keys == {1}
    && s.rooms[1].members.Keys == users
    && s.rooms[1].offline == off
    && !s.rooms[1].started
  }

  // ---- single events ----

  const CREATE := CreateRoomRequest(1, "", 0, 0)

  lemma Creates(c: Config)
    requires c.roomSize >= 1 && c.poolSize >= 1
    ensures IndexLive(Boot(c)) && Enabled(Boot(c), CREATE)
    ensures OneRoom(c, Handle(c, Boot(c), CREATE), {1}, {})
    ensures Handle(c, Boot(c), CREATE).rooms[1].host == 1
  {
    hide ServerInv, RoomInv, JoinRoom, UpTo, HandleCreateRoom;
    BootInv(c);
    FirstRoom(c);
    HandleKeepsInv(c, Boot(c), CREATE);
    FreshRoomInv(1, "", c.roomSize, 0, c.chase, 0);
    JoinEffect(Fresh(1, "", c.roomSize, 0, c.chase, 0), 1, "");
  }

  lemma FirstRoom(c: Config)
    requires c.poolSize >= 1
    ensures Boot(c).roomidPool != {}
    ensures var t := HandleCreateRoom(c, Boot(c), 1, "", 0, 0);
      && t.rooms.Keys == {1}
      && t.rooms[1] == JoinRoom(Fresh(1, "", c.roomSize, 0, c.chase, 0), 1, "").room
  {
    hide JoinRoom, Fresh;
    assert 1 in UpTo(c.poolSize);
    assert Min(UpTo(c.poolSize)) == 1;
  }

  lemma JoinEffect(s: RoomState, u: int, name: string)
    requires RoomInv(s) && Admits(s, u)
    ensures var t := JoinRoom(s, u, name).room;
      && t.members.Keys == s.members.Keys + {u}
      && t.offline == s.offline && !t.started
      && t.host == if s.host == NO_HOST then u else s.host
  {
    hide InfoToAll;
    JoinRoomIdentity(s, u, name);
  }

  lemma Facts(c: Config, s: ServerState, users: set<int>, off: set<int>)
    requires OneRoom(c, s, users, off)
    ensures IndexLive(s) && RoomInv(s.rooms[1]) && s.rooms[1].size == c.roomSize && s.rooms[1].inGame == map[]
    ensures s.roomidUsing == {1}
    ensures forall u :: u in users <==> u in s.userid2roomid
    ensures forall u | u in users :: s.userid2roomid[u] == 1
  {
    hide PidInv, RosterInv, LogInv, Lockstep;
    ServerIsLive(c, s);
    assert RoomOk(c, 1, s.rooms[1]);
  }

  lemma Enters(c: Config, s: ServerState, users: set<int>, off: set<int>, u: int)
    requires OneRoom(c, s, users, off) && u !in users && |users| < c.roomSize
    ensures IndexLive(s) && Enabled(s, JoinRoomRequest(u, 1))
    ensures OneRoom(c, Handle(c, s, JoinRoomRequest(u, 1)), users + {u}, off)
    ensures s.rooms[1].host == 1 ==> Handle(c, s, JoinRoomRequest(u, 1)).rooms[1].host == 1
  {
    hide ServerInv, RoomInv, JoinRoom;
    Facts(c, s, users, off);
    HandleKeepsInv(c, s, JoinRoomRequest(u, 1));
    JoinEffect(s.rooms[1], u, Get(s.usernames, u, ""));
  }

  lemma OfflineEffect(s: RoomState, u: int)
    requires u in s.members && u !in s.offline && s.inGame == map[]
    ensures SetUserOffline(s, u).room == s.(offline := s.offline + {u})
  {
  }

  /** The room after its member dropped out: the mark is set, and the sizes decide. */
  lemma AfterLogout(c: Config, s: ServerState, users: set<int>, off: set<int>, u: int)
    requires OneRoom(c, s, users, off) && u in users && u !in off
    ensures IndexLive(s)
    ensures var t := Act(s, 1, DoSetUserOffline(u));
      && t.rooms == map[1 := s.rooms[1].(offline := off + {u})]
      && Handle(c, s, UserLogout(u)) == if |off| + 1 == |users| then LogicModel.RemoveRoom(c, t, 1) else t
  {
    hide ServerInv, RoomInv, SetUserOffline, LogicModel.RemoveRoom;
    Facts(c, s, users, off);
    OfflineEffect(s.rooms[1], u);
    var t := Act(s, 1, DoSetUserOffline(u));
    assert |t.rooms[1].members| == |t.rooms[1].members.Keys|;
    assert t.rooms == map[1 := t.rooms[1]];
  }

  /** A user drops out, and the room does not count as dead. */
  lemma DropsOut(c: Config, s: ServerState, users: set<int>, off: set<int>, u: int)
    requires OneRoom(c, s, users, off) && u in users && u !in off && |off| + 1 != |users|
    ensures IndexLive(s) && Enabled(s, UserLogout(u))
    ensures OneRoom(c, Handle(c, s, UserLogout(u)), users, off + {u})
    ensures Handle(c, s, UserLogout(u)).rooms[1].host == s.rooms[1].host
  {
    hide ServerInv, Handle, Act;
    AfterLogout(c, s, users, off, u);
    HandleKeepsInv(c, s, UserLogout(u));
  }

  /** A user drops out, and the room counts as dead: it goes, with all its index entries. */
  lemma DropsOutLast(c: Config, s: ServerState, users: set<int>, off: set<int>, u: int)
    requires OneRoom(c, s, users, off) && u in users && u !in off && |off| + 1 == |users|
    ensures IndexLive(s) && Enabled(s, UserLogout(u))
    ensures Handle(c, s, UserLogout(u)).rooms == map[]
    ensures Handle(c, s, UserLogout(u)).userid2roomid == map[]
  {
    hide ServerInv, Handle, RoomInv, Destroy, Step;
    AfterLogout(c, s, users, off, u);
    Facts(c, s, users, off);
    var t := Act(s, 1, DoSetUserOffline(u));
    assert forall v | v in s.userid2roomid :: s.userid2roomid[v] == 1;
    assert Outside(t.userid2roomid, 1) == map[];
    assert (t.rooms - {1}).Keys == {};
  }

  lemma LeaveEffect(s: RoomState, u: int)
    requires u in s.members
    ensures var t := LeaveFromRoom(s, u).room;
      t.members.Keys == s.members.Keys - {u} && t.offline == s.offline && (t.started ==> s.started)
  {
    hide LeaveFromRoom;
    LeaveFromRoomEffect(s, u);
  }

  /** A user leaves the room and others stay; the offline mark of the user stays, too. */
  lemma Leaves(c: Config, s: ServerState, users: set<int>, off: set<int>, u: int)
    requires OneRoom(c, s, users, off) && u in users && users != {u}
    ensures IndexLive(s) && Enabled(s, LeaveRoomRequest(u, 1))
    ensures OneRoom(c, Handle(c, s, LeaveRoomRequest(u, 1)), users - {u}, off)
  {
    hide ServerInv, RoomInv, LeaveFromRoom, LogicModel.RemoveRoom;
    Facts(c, s, users, off);
    HandleKeepsInv(c, s, LeaveRoomRequest(u, 1));
    LeaveEffect(s.rooms[1], u);
    LeaverGone(s.rooms[1], u);
  }

  /** A user logs in again while no game runs: the mark stays. */
  lemma LogsIn(c: Config, s: ServerState, users: set<int>, off: set<int>, u: int)
    requires OneRoom(c, s, users, off)
    ensures IndexLive(s) && Enabled(s, LoginResponse(u, ""))
    ensures OneRoom(c, Handle(c, s, LoginResponse(u, "")), users, off)
    ensures Handle(c, s, LoginResponse(u, "")).rooms == s.rooms
  {
    hide ServerInv, ActFor;
    Facts(c, s, users, off);
    HandleKeepsInv(c, s, LoginResponse(u, ""));
  }

  // ---- runs ----

  /** The events are all handled, lead to `s`, and leave `away` away, who made no requests. */
  ghost predicate Leads(c: Config, es: seq<ServerEvent>, s: ServerState, away: set<int>) {
    && Completes(c, Boot(c), es) && ServerRun(c, Boot(c), es) == s
    && QuietRun(es) && AwayAmong(es) == away
  }

  lemma LeadsOn(c: Config, es: seq<ServerEvent>, s: ServerState, away: set<int>, e: ServerEvent)
    requires Leads(c, es, s, away) && IndexLive(s) && Enabled(s, e) && !RequestOf(e, away)
    ensures Leads(c, es + [e], Handle(c, s, e), AwayAfter(away, e))
  {
    hide Handle, Enabled, IndexLive, Completes, ServerRun, QuietRun, AwayAmong, RequestOf, AwayAfter;
    LastEvent(c, Boot(c), es, e);
    AwayNext(es, e);
    QuietNext(es, e);
  }

  lemma NothingYet(c: Config)
    ensures Leads(c, [], Boot(c), {})
  {
  }

  lemma FirstMessage(c: Config) returns (s: ServerState)
    requires c.roomSize >= 1 && c.poolSize >= 1
    ensures Leads(c, [CREATE], s, {}) && OneRoom(c, s, {1}, {}) && s.rooms[1].host == 1
  {
    hide Handle, OneRoom, Enabled, IndexLive, Leads;
    Creates(c);
    s := Handle(c, Boot(c), CREATE);
    NothingYet(c);
    LeadsOn(c, [], Boot(c), {}, CREATE);
    assert [] + [CREATE] == [CREATE];
  }

  /** One message brings a user to where joining its own room is not possible. */
  lemma SoleOccupantIsReached(c: Config) returns (s: ServerState)
    requires c.roomSize >= 1 && c.poolSize >= 1
    ensures Leads(c, [CREATE], s, {})
    ensures 1 in s.rooms && s.rooms[1].members.Keys == {1} && !Enabled(s, JoinRoomRequest(1, 1))
  {
    hide Leads, ServerInv;
    s := FirstMessage(c);
    Facts(c, s, {1}, {});
  }

  lemma TwoInARoom(c: Config) returns (es: seq<ServerEvent>, s: ServerState)
    requires c.roomSize >= 2 && c.poolSize >= 1
    ensures Leads(c, es, s, {}) && OneRoom(c, s, {1, 2}, {}) && s.rooms[1].host == 1
  {
    hide Handle, Enabled, IndexLive, Leads, ServerInv;
    es := [CREATE];
    s := FirstMessage(c);
    Enters(c, s, {1}, {}, 2);
    LeadsOn(c, es, s, {}, JoinRoomRequest(2, 1));
    es, s := es + [JoinRoomRequest(2, 1)], Handle(c, s, JoinRoomRequest(2, 1));
    assert {1} + {2} == {1, 2};
  }

  /** User 1 drops out and comes back. It is here, and marked. */
  lemma FirstComesBack(c: Config, es0: seq<ServerEvent>, s0: ServerState, users: set<int>)
    returns (es: seq<ServerEvent>, s: ServerState)
    requires Leads(c, es0, s0, {}) && OneRoom(c, s0, users, {}) && 1 in users && |users| >= 2
    ensures Leads(c, es, s, {}) && OneRoom(c, s, users, {1}) && s.rooms[1].host == s0.rooms[1].host
  {
    hide Handle, Enabled, IndexLive, Leads, ServerInv;
    DropsOut(c, s0, users, {}, 1);
    LeadsOn(c, es0, s0, {}, UserLogout(1));
    es, s := es0 + [UserLogout(1)], Handle(c, s0, UserLogout(1));
    assert {} + {1} == {1};
    LogsIn(c, s, users, {1}, 1);
    LeadsOn(c, es, s, {1}, LoginResponse(1, ""));
    es, s := es + [LoginResponse(1, "")], Handle(c, s, LoginResponse(1, ""));
    assert {1} - {1} == {};
  }

  /** User 1 has come back, in a room of two; then user 2 drops out. The room is deleted although
      user 1 is in it and here. No mark was left behind by anyone who left. */
  lemma DeadThoughSomeoneCameBack(c: Config) returns (es: seq<ServerEvent>, s: ServerState, t: ServerState)
    requires c.roomSize >= 2 && c.poolSize >= 1
    ensures Leads(c, es, s, {}) && Leads(c, es + [UserLogout(2)], t, {2})
    ensures s.rooms.Keys == {1} && s.rooms[1].members.Keys == {1, 2} && s.rooms[1].offline == {1}
    ensures t.rooms == map[] && t.userid2roomid == map[]
  {
    hide Handle, Enabled, IndexLive, Leads, ServerInv;
    es, s := TwoInARoom(c);
    es, s := FirstComesBack(c, es, s, {1, 2});
    DropsOutLast(c, s, {1, 2}, {1}, 2);
    LeadsOn(c, es, s, {}, UserLogout(2));
    t := Handle(c, s, UserLogout(2));
    assert {} + {2} == {2};
  }

  lemma FirstComesBackAndLeaves(c: Config, es0: seq<ServerEvent>, s0: ServerState, users: set<int>)
    returns (es: seq<ServerEvent>, s: ServerState)
    requires Leads(c, es0, s0, {}) && OneRoom(c, s0, users, {}) && 1 in users && |users| >= 2
    ensures Leads(c, es, s, {}) && OneRoom(c, s, users - {1}, {1})
  {
    hide Handle, Enabled, IndexLive, Leads, ServerInv;
    es, s := FirstComesBack(c, es0, s0, users);
    Leaves(c, s, users, {1}, 1);
    LeadsOn(c, es, s, {}, LeaveRoomRequest(1, 1));
    es, s := es + [LeaveRoomRequest(1, 1)], Handle(c, s, LeaveRoomRequest(1, 1));
  }

  /** Three users are in the room; the first drops out, comes back and leaves, then the second
      drops out. The room is deleted although the third never went away. */
  lemma DeadThoughSomeoneIsOnline(c: Config) returns (es: seq<ServerEvent>, s: ServerState, t: ServerState)
    requires c.roomSize >= 3 && c.poolSize >= 1
    ensures Leads(c, es, s, {}) && Leads(c, es + [UserLogout(2)], t, {2})
    ensures s.rooms.Keys == {1} && s.rooms[1].members.Keys == {2, 3} && 3 !in s.rooms[1].offline
    ensures t.rooms == map[] && t.userid2roomid == map[]
  {
    hide Handle, Enabled, IndexLive, Leads, ServerInv;
    es, s := TwoInARoom(c);
    Enters(c, s, {1, 2}, {}, 3);
    LeadsOn(c, es, s, {}, JoinRoomRequest(3, 1));
    es, s := es + [JoinRoomRequest(3, 1)], Handle(c, s, JoinRoomRequest(3, 1));
    assert {1, 2} + {3} == {1, 2, 3};
    es, s := FirstComesBackAndLeaves(c, es, s, {1, 2, 3});
    assert {1, 2, 3} - {1} == {2, 3};
    DropsOutLast(c, s, {2, 3}, {1}, 2);
    LeadsOn(c, es, s, {}, UserLogout(2));
    t := Handle(c, s, UserLogout(2));
    assert {} + {2} == {2};
  }

  /** Two users are in the room; the first drops out, comes back and leaves, then the second
      drops out. All members are away, but the room is kept. */
  lemma KeptThoughAllAreAway(c: Config) returns (es: seq<ServerEvent>, s: ServerState)
    requires c.roomSize >= 2 && c.poolSize >= 1
    ensures Leads(c, es, s, {2})
    ensures 1 in s.rooms && AllAway(s.rooms[1], {2})
  {
    hide Handle, Enabled, IndexLive, Leads, ServerInv;
    es, s := TwoInARoom(c);
    es, s := FirstComesBackAndLeaves(c, es, s, {1, 2});
    assert {1, 2} - {1} == {2};
    DropsOut(c, s, {2}, {1}, 2);
    LeadsOn(c, es, s, {}, UserLogout(2));
    es, s := es + [UserLogout(2)], Handle(c, s, UserLogout(2));
    assert {} + {2} == {2};
  }

  /** User 1 drops out, comes back, starts a game and drops out again. It stays in the game. */
  lemma AwayAndStillInGame(c: Config) returns (es: seq<ServerEvent>, s: ServerState)
    requires c.roomSize >= 2 && c.poolSize >= 1
    ensures Leads(c, es, s, {1})
    ensures 1 in s.rooms && s.rooms[1].started && 1 in s.rooms[1].inGame
  {
    hide Handle, Enabled, IndexLive, Leads, ServerInv;
    es, s := TwoInARoom(c);
    es, s := FirstComesBack(c, es, s, {1, 2});
    var t := Starts(c, s);
    LeadsOn(c, es, s, {}, StartGameRequest(1));
    LogsOutMarked(c, s, t);
    LeadsOn(c, es + [StartGameRequest(1)], t, {}, UserLogout(1));
    es, s := es + [StartGameRequest(1)] + [UserLogout(1)], Handle(c, t, UserLogout(1));
    assert {} + {1} == {1};
  }

  /** The host, who is marked, starts a game. */
  lemma Starts(c: Config, s: ServerState) returns (t: ServerState)
    requires OneRoom(c, s, {1, 2}, {1}) && s.rooms[1].host == 1
    ensures IndexLive(s) && Enabled(s, StartGameRequest(1)) && t == Handle(c, s, StartGameRequest(1))
    ensures t.userid2roomid == s.userid2roomid && t.rooms.Keys == {1}
    ensures var room := t.rooms[1];
      && room.started && 1 in room.members && 1 in room.inGame
      && |room.members| == 2 && room.offline == {1}
  {
    hide ServerInv, RoomInv, Step;
    Facts(c, s, {1, 2}, {1});
    t := Handle(c, s, StartGameRequest(1));
    assert t.rooms[1] == Step(s.rooms[1], DoStartGame(1)).room;
    StartEffect(s.rooms[1]);
  }

  lemma StartEffect(s: RoomState)
    requires RoomInv(s) && !s.started && s.host == 1 && s.members.Keys == {1, 2}
    ensures var t := Step(s, DoStartGame(1)).room;
      && t.started && 1 in t.members && 1 in t.inGame
      && |t.members| == 2 && t.offline == s.offline
  {
    hide StartGame, RoomInv;
    StartGameEffect(s, 1);
    assert |s.members.Keys| == 2;
  }

  /** Nothing happens when a marked member logs out again. */
  lemma LogsOutMarked(c: Config, s: ServerState, t: ServerState)
    requires OneRoom(c, s, {1, 2}, {1}) && t.userid2roomid == s.userid2roomid && t.rooms.Keys == {1}
    requires 1 in t.rooms[1].members && t.rooms[1].offline == {1} && |t.rooms[1].members| == 2
    ensures IndexLive(t) && Enabled(t, UserLogout(1))
    ensures Handle(c, t, UserLogout(1)).rooms == t.rooms
  {
    hide ServerInv, Step, LogicModel.RemoveRoom, OneRoom;
    Facts(c, s, {1, 2}, {1});
    assert forall u | u in s.userid2roomid :: s.userid2roomid[u] == 1;
    LogoutOfMarked(t.rooms[1]);
    assert t.rooms[1 := t.rooms[1]] == t.rooms;
  }

  lemma LogoutOfMarked(s: RoomState)
    requires 1 in s.members && s.offline == {1} && |s.members| == 2
    ensures Step(s, DoSetUserOffline(1)).room == s && !CheckRoomDead(s)
  {
  }
}
