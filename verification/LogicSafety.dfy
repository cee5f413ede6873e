/** What holds between any two messages of the logic server, over every run: the index agrees
    with the rooms, room ids are conserved, every room keeps its invariant, and every player
    in every running game is in lockstep. */
module LogicSafety {
  import opened Basics
  import opened Messages
  import opened RoomModel
  import opened RoomShutdown
  import opened RoomInvariant
  import opened RoomGame
  import opened LogicModel

  // ---- the invariant ----

  ghost predicate RoomOk(c: Config, r: int, s: RoomState) {
    RoomInv(s) && s.id == r && s.chase == c.chase && s.size == c.roomSize
  }

  ghost predicate RoomsInv(c: Config, rooms: map<int, RoomState>) {
    forall r | r in rooms :: RoomOk(c, r, rooms[r])
  }

  /** A user is indexed to a room iff that room is live and has the user as a member. */
  ghost predicate IndexAgrees(s: ServerState) {
    && (forall u | u in s.userid2roomid ::
          s.userid2roomid[u] in s.rooms && u in s.rooms[s.userid2roomid[u]].members)
    && (forall r, u | r in s.rooms && u in s.rooms[r].members :: u in s.userid2roomid && s.userid2roomid[u] == r)
  }

  ghost predicate Disjoint(rooms: map<int, RoomState>) {
    forall q, r, u | q in rooms && r in rooms && u in rooms[q].members && u in rooms[r].members :: q == r
  }

  ghost predicate IdsInv(c: Config, s: ServerState) {
    && s.roomidUsing == s.rooms.Keys
    && s.roomidPool !! s.roomidUsing
    && (forall r | r in s.roomidPool || r in s.roomidUsing :: 1 <= r <= c.poolSize)
    && (forall r | 1 <= r <= c.poolSize && r <= c.defaultRoomCount :: r in s.roomidPool || r in s.roomidUsing)
  }

  ghost predicate NoEmptyRoom(rooms: map<int, RoomState>) {
    forall r | r in rooms :: rooms[r].members != map[]
  }

  ghost predicate AllLockstep(rooms: map<int, RoomState>, log: seq<Sent>) {
    forall r | r in rooms :: Lockstep(rooms[r], log)
  }

  /** Everything but the absence of empty rooms. */
  ghost predicate Core(c: Config, s: ServerState) {
    && RoomsInv(c, s.rooms)
    && IndexAgrees(s)
    && IdsInv(c, s)
    && AllLockstep(s.rooms, s.log)
  }

  ghost predicate ServerInv(c: Config, s: ServerState) {
    Core(c, s) && NoEmptyRoom(s.rooms)
  }

  lemma BootInv(c: Config)
    ensures ServerInv(c, Boot(c))
  {
  }

  lemma CoreIsLive(c: Config, s: ServerState)
    requires Core(c, s)
    ensures IndexLive(s) && Disjoint(s.rooms)
  {
    hide RoomsInv, AllLockstep;
    forall q, r, u | q in s.rooms && r in s.rooms && u in s.rooms[q].members && u in s.rooms[r].members
      ensures q == r
    {
      assert s.userid2roomid[u] == q;
    }
  }

  // ---- one room acts ----

  predicate KeepsMembers(e: RoomEvent) {
    !e.DoJoinRoom? && !e.DoLeave? && !e.DoLeaveFromRoom? && !e.DoKickAllUserFromRoom?
  }

  ghost predicate SameRoom(s: RoomState, t: RoomState) {
    t.id == s.id && t.size == s.size && t.chase == s.chase
  }

  lemma JoinRoomIdentity(s: RoomState, u: int, name: string)
    requires RoomInv(s)
    ensures SameRoom(s, JoinRoom(s, u, name).room)
    ensures JoinRoom(s, u, name).room.members.Keys == if Admits(s, u) then s.members.Keys + {u} else s.members.Keys
  {
    hide InfoToAll;
    if Admits(s, u) {
      NotFullHasFreePid(s);
    }
  }

  lemma LeaveFromRoomIdentity(s: RoomState, u: int)
    ensures SameRoom(s, LeaveFromRoom(s, u).room)
  {
    hide LeaveFromRoom;
    LeaveFromRoomEffect(s, u);
  }

  lemma LeaveIdentity(s: RoomState, u: int)
    ensures SameRoom(s, Leave(s, u).room)
  {
    hide LeaveFromRoom, LeaveFromGame;
    LeaveFromGameEffect(s, u);
    LeaveFromRoomIdentity(AfterLeaving(s, {u}), u);
  }

  lemma StartGameIdentity(s: RoomState, u: int)
    requires RoomInv(s)
    ensures SameRoom(s, StartGame(s, u).room) && StartGame(s, u).room.members == s.members
  {
    hide StartGame;
    if Starts(s, u) { StartGameEffect(s, u); } else { NoStart(s, u); }
  }

  lemma SetUserOfflineIdentity(s: RoomState, u: int)
    ensures SameRoom(s, SetUserOffline(s, u).room) && SetUserOffline(s, u).room.members == s.members
  {
    hide LeaveFromGame;
    LeaveFromGameEffect(s.(offline := s.offline + {u}), u);
  }

  lemma UserInfoChangeIdentity(s: RoomState, u: int, role: int)
    ensures SameRoom(s, UserInfoChange(s, u, role).room) && UserInfoChange(s, u, role).room.members == s.members
  {
    hide InfoToAll;
  }

  lemma TickIdentity(s: RoomState)
    ensures SameRoom(s, Tick(s).room) && Tick(s).room.members == s.members
  {
    hide Broadcast, Ascending;
  }

  lemma ReconnectIdentity(s: RoomState, u: int)
    ensures SameRoom(s, Reconnect(s, u).room) && Reconnect(s, u).room.members == s.members
  {
  }

  /** A room keeps its identity, and most operations keep its members. */
  lemma StepKeepsIdentity(s: RoomState, e: RoomEvent)
    requires RoomInv(s) && !e.DoKickAllUserFromRoom?
    ensures SameRoom(s, Step(s, e).room)
    ensures KeepsMembers(e) ==> Step(s, e).room.members == s.members
  {
    hide RoomInv, JoinRoom, Leave, LeaveFromGame, LeaveFromRoom, EndGame, KickFromGame, StartGame, Tick, Reconnect,
         SetUserOffline, UserInfoChange;
    match e
    case DoJoinRoom(u, name) => JoinRoomIdentity(s, u, name);
    case DoLeave(u) => LeaveIdentity(s, u);
    case DoLeaveFromRoom(u) => LeaveFromRoomIdentity(s, u);
    case DoLeaveFromGame(u) => LeaveFromGameEffect(s, u);
    case DoKickAllUserFromGame => KickFromGameEffect(s, Ascending(s.inGame.Keys));
    case DoStartGame(u) => StartGameIdentity(s, u);
    case DoEndGame => EndGameEffect(s);
    case DoTick => TickIdentity(s);
    case DoReconnect(u) => ReconnectIdentity(s, u);
    case DoUserOperate(u, op) =>
    case DoNotifyUserJoinGame(u) =>
    case DoSetUserOffline(u) => SetUserOfflineIdentity(s, u);
    case DoUserInfoChange(u, role) => UserInfoChangeIdentity(s, u, role);
  }

  /** The views of a room's members are out of reach of all other rooms. */
  lemma OtherRoomsUnaffected(q: RoomState, log: seq<Sent>, sent: seq<Sent>)
    requires Lockstep(q, log)
    requires forall x | x in sent && CarriesGame(x.notice) :: x.to !in q.members
    requires GameInv(q)
    ensures Lockstep(q, log + sent)
  {
    forall u | u in q.members
      ensures View(log + sent, u) == View(log, u)
    {
      ViewUnaffected(log, sent, u);
    }
  }

  lemma ActKeepsRooms(c: Config, s: ServerState, r: int, e: RoomEvent)
    requires r in s.rooms && RoomsInv(c, s.rooms) && Legal(s.rooms[r], e) && !e.DoKickAllUserFromRoom?
    ensures RoomsInv(c, Act(s, r, e).rooms)
  {
    hide Step, RoomInv;
    StepKeepsInv(s.rooms[r], e);
    StepKeepsIdentity(s.rooms[r], e);
  }

  lemma ActKeepsLockstep(c: Config, s: ServerState, r: int, e: RoomEvent)
    requires r in s.rooms && RoomsInv(c, s.rooms) && Disjoint(s.rooms) && Legal(s.rooms[r], e)
    requires AllLockstep(s.rooms, s.log)
    ensures AllLockstep(Act(s, r, e).rooms, Act(s, r, e).log)
  {
    hide Step, RoomInv, Lockstep;
    var sent := Step(s.rooms[r], e).sent;
    StepKeepsLockstep(s.rooms[r], e, s.log);
    forall q | q in s.rooms && q != r
      ensures Lockstep(s.rooms[q], s.log + sent)
    {
      GameInvOf(s.rooms[q]);
      OtherRoomsUnaffected(s.rooms[q], s.log, sent);
    }
  }

  lemma GameInvOf(s: RoomState)
    requires RoomInv(s)
    ensures GameInv(s)
  {
  }

  /** An operation that keeps the members of its room keeps the server invariant. */
  lemma ActKeepsCore(c: Config, s: ServerState, r: int, e: RoomEvent)
    requires Core(c, s) && r in s.rooms && Legal(s.rooms[r], e) && KeepsMembers(e)
    ensures Core(c, Act(s, r, e))
    ensures Act(s, r, e).rooms.Keys == s.rooms.Keys
    ensures forall q | q in s.rooms :: Act(s, r, e).rooms[q].members == s.rooms[q].members
  {
    hide Step, RoomInv, Lockstep;
    CoreIsLive(c, s);
    StepKeepsIdentity(s.rooms[r], e);
    ActKeepsRooms(c, s, r, e);
    ActKeepsLockstep(c, s, r, e);
    assert Act(s, r, e).rooms.Keys == s.rooms.Keys;
  }

  lemma SendKeepsCore(c: Config, s: ServerState, sent: seq<Sent>)
    requires Core(c, s) && Quiet(sent)
    ensures Core(c, Send(s, sent))
  {
    hide RoomOk, Lockstep;
    QuietKeepsAll(c, s.rooms, s.log, sent);
  }

  lemma QuietKeepsAll(c: Config, rooms: map<int, RoomState>, log: seq<Sent>, sent: seq<Sent>)
    requires RoomsInv(c, rooms) && AllLockstep(rooms, log) && Quiet(sent)
    ensures AllLockstep(rooms, log + sent)
  {
    hide RoomInv, Lockstep;
    forall q | q in rooms
      ensures Lockstep(rooms[q], log + sent)
    {
      GameInvOf(rooms[q]);
      OtherRoomsUnaffected(rooms[q], log, sent);
    }
  }

  // ---- adding and removing rooms ----

  /** AddRoom hands out the smallest free id and opens an empty room under it. */
  lemma AddRoomKeepsCore(c: Config, s: ServerState, name: string, seed: int, frameId: int)
    requires Core(c, s) && s.roomidPool != {}
    ensures Core(c, AddRoom(c, s, name, seed, frameId))
    ensures var r := Min(s.roomidPool); r !in s.rooms && forall q | q in s.roomidPool :: r <= q
  {
    hide RoomOk, Lockstep, Fresh;
    var r := Min(s.roomidPool);
    FreshFacts(c, r, name, seed, frameId, s.log);
  }

  lemma FreshFacts(c: Config, r: int, name: string, seed: int, frameId: int, log: seq<Sent>)
    ensures var f := Fresh(r, name, c.roomSize, seed, c.chase, frameId);
      && RoomOk(c, r, f) && Lockstep(f, log) && f.members == map[]
  {
  }

  lemma DestroyIsQuiet(s: RoomState)
    ensures Quiet(Destroy(s).sent)
  {
    hide EndGame, KickFromRoom;
    EndGameQuiet(s);
    var e := EndGame(s);
    KickFromRoomIsQuiet(e.room, Ascending(e.room.members.Keys));
    QuietSum(e.sent, KickAllUserFromRoom(e.room).sent);
  }

  /** RemoveRoom may run with users still in the room, or right after the last one left. */
  lemma RemoveRoomKeepsCore(c: Config, s: ServerState, r: int)
    requires Core(c, s) && r in s.rooms
    ensures Core(c, RemoveRoom(c, s, r))
    ensures RemoveRoom(c, s, r).rooms == s.rooms - {r}
  {
    hide RoomOk, Lockstep, Destroy;
    DestroyIsQuiet(s.rooms[r]);
    QuietKeepsAll(c, s.rooms, s.log, Destroy(s.rooms[r]).sent);
    var t := RemoveRoom(c, s, r);
    assert t.rooms.Keys == s.rooms.Keys - {r};
    assert IdsInv(c, t);
  }

  // ---- moving users ----

  lemma TakeOutKeepsCore(c: Config, s: ServerState, u: int, r: int)
    requires Core(c, s) && r in s.rooms && u in s.userid2roomid && s.userid2roomid[u] == r
    ensures Core(c, TakeOut(s, u, r))
    ensures TakeOut(s, u, r).rooms.Keys == s.rooms.Keys
    ensures TakeOut(s, u, r).rooms[r].members == Without(s.rooms[r].members, u)
    ensures forall q | q in s.rooms && q != r :: TakeOut(s, u, r).rooms[q] == s.rooms[q]
  {
    hide RoomInv, Lockstep, LeaveFromRoom;
    var s1 := s.(userid2roomid := Without(s.userid2roomid, u));
    CoreIsLive(c, s);
    ActKeepsRooms(c, s1, r, DoLeaveFromRoom(u));
    ActKeepsLockstep(c, s1, r, DoLeaveFromRoom(u));
    LeaverGone(s.rooms[r], u);
    var t := TakeOut(s, u, r);
    assert t.rooms.Keys == s.rooms.Keys;
    assert IndexAgrees(t);
  }

  lemma RemovePlayerKeepsInv(c: Config, s: ServerState, u: int)
    requires ServerInv(c, s)
    ensures IndexLive(s) && ServerInv(c, RemovePlayerFromRoom(c, s, u))
    ensures u !in RemovePlayerFromRoom(c, s, u).userid2roomid
  {
    hide RoomOk, Lockstep, Destroy, Core;
    CoreIsLive(c, s);
    if u in s.userid2roomid {
      var r := s.userid2roomid[u];
      TakeOutKeepsCore(c, s, u, r);
      var t := TakeOut(s, u, r);
      if t.rooms[r].members == map[] {
        RemoveRoomKeepsCore(c, t, r);
      }
    }
  }

  lemma AddPlayerKeepsCore(c: Config, s: ServerState, u: int, r: int)
    requires Core(c, s) && r in s.rooms && u !in s.userid2roomid
    ensures Core(c, AddPlayerToRoom(s, u, r))
    ensures AddPlayerToRoom(s, u, r).rooms.Keys == s.rooms.Keys
    ensures forall q | q in s.rooms :: s.rooms[q].members.Keys <= AddPlayerToRoom(s, u, r).rooms[q].members.Keys
    ensures Admits(s.rooms[r], u) ==> u in AddPlayerToRoom(s, u, r).rooms[r].members
  {
    hide RoomInv, Lockstep, JoinRoom, Admits;
    var name := Get(s.usernames, u, "");
    CoreIsLive(c, s);
    ActKeepsRooms(c, s, r, DoJoinRoom(u, name));
    ActKeepsLockstep(c, s, r, DoJoinRoom(u, name));
    JoinRoomIdentity(s.rooms[r], u, name);
    var t := Act(s, r, DoJoinRoom(u, name));
    hide RoomsInv, AllLockstep, Step;
    assert t.rooms.Keys == s.rooms.Keys;
    if Admits(s.rooms[r], u) {
      IndexAfterJoin(s, t.(userid2roomid := t.userid2roomid[u := r]), u, r);
    } else {
      assert IndexAgrees(t);
    }
  }

  lemma IndexAfterJoin(s: ServerState, t: ServerState, u: int, r: int)
    requires IndexAgrees(s) && u !in s.userid2roomid && r in s.rooms
    requires t.rooms.Keys == s.rooms.Keys && t.userid2roomid == s.userid2roomid[u := r]
    requires t.rooms[r].members.Keys == s.rooms[r].members.Keys + {u}
    requires forall q | q in s.rooms && q != r :: t.rooms[q] == s.rooms[q]
    ensures IndexAgrees(t)
  {
    forall v | v in t.userid2roomid
      ensures t.userid2roomid[v] in t.rooms && v in t.rooms[t.userid2roomid[v]].members
    {
      if v != u {
        var q := s.userid2roomid[v];
        assert q in s.rooms && v in s.rooms[q].members;
        if q == r {
          assert v in t.rooms[r].members.Keys;
        }
      }
    }
    forall q, v | q in t.rooms && v in t.rooms[q].members
      ensures v in t.userid2roomid && t.userid2roomid[v] == q
    {
      if v != u {
        assert v in s.rooms[q].members;
      }
    }
  }

  // ---- whole messages ----

  lemma ActForKeepsInv(c: Config, s: ServerState, u: int, e: RoomEvent)
    requires ServerInv(c, s) && KeepsMembers(e) && (e.DoStartGame? ==> e.u == u)
    ensures ServerInv(c, ActFor(s, u, e))
  {
    hide RoomOk, Lockstep, Step;
    if InRoom(s, u) {
      ActKeepsCore(c, s, s.userid2roomid[u], e);
    }
  }

  lemma UsernameKeepsInv(c: Config, s: ServerState, u: int, username: string)
    requires ServerInv(c, s)
    ensures ServerInv(c, s.(usernames := s.usernames[u := username]))
  {
    hide RoomOk, Lockstep;
  }

  lemma HandleLoginKeepsInv(c: Config, s: ServerState, u: int, username: string)
    requires ServerInv(c, s)
    ensures ServerInv(c, HandleLogin(s, u, username))
  {
    hide ServerInv, ActFor;
    UsernameKeepsInv(c, s, u, username);
    ActForKeepsInv(c, s.(usernames := s.usernames[u := username]), u, DoReconnect(u));
  }

  lemma SendKeepsInv(c: Config, s: ServerState, x: Sent)
    requires ServerInv(c, s) && !CarriesGame(x.notice)
    ensures ServerInv(c, Send(s, [x]))
  {
    hide Core;
    SendKeepsCore(c, s, [x]);
  }

  lemma HandleJoinRoomKeepsInv(c: Config, s: ServerState, u: int, r: int)
    requires ServerInv(c, s) && (r in s.rooms ==> !SoleOccupant(s, u, r))
    ensures IndexLive(s) && (r in s.rooms ==> r in RemovePlayerFromRoom(c, s, u).rooms)
    ensures ServerInv(c, HandleJoinRoom(c, s, u, r))
  {
    hide RemovePlayerFromRoom, AddPlayerToRoom, Core;
    CoreIsLive(c, s);
    if r in s.rooms {
      TargetSurvives(c, s, u, r);
      RemovePlayerKeepsInv(c, s, u);
      AddPlayerKeepsCore(c, RemovePlayerFromRoom(c, s, u), u, r);
    } else {
      SendKeepsInv(c, s, Sent(u, JoinRoomReply(false, -1, NoSuchRoom)));
    }
  }

  lemma HandleLeaveRoomKeepsInv(c: Config, s: ServerState, u: int, r: int)
    requires ServerInv(c, s)
    ensures ServerInv(c, HandleLeaveRoom(c, s, u, r))
  {
    hide ServerInv, RemovePlayerFromRoom;
    if r !in s.rooms || u !in s.userid2roomid || s.userid2roomid[u] != r {
      SendKeepsInv(c, s, Sent(u, LeaveRoomReply(false, r)));
    } else {
      RemovePlayerKeepsInv(c, s, u);
    }
  }

  lemma HandleCreateRoomKeepsInv(c: Config, s: ServerState, u: int, name: string, seed: int, frameId: int)
    requires ServerInv(c, s) && c.roomSize >= 1
    requires u !in s.userid2roomid ==> s.roomidPool != {}
    ensures ServerInv(c, HandleCreateRoom(c, s, u, name, seed, frameId))
  {
    hide Core, AddPlayerToRoom;
    if u in s.userid2roomid {
      SendKeepsInv(c, s, Sent(u, CreateRoomReply(false, -1, "Error", false)));
    } else {
      var r := Min(s.roomidPool);
      var t := AddRoom(c, s, name, seed, frameId);
      AddRoomKeepsCore(c, s, name, seed, frameId);
      SendKeepsCore(c, t, [Sent(u, CreateRoomReply(true, r, name, true))]);
      AddPlayerKeepsCore(c, Send(t, [Sent(u, CreateRoomReply(true, r, name, true))]), u, r);
    }
  }

  lemma HandleLogoutKeepsInv(c: Config, s: ServerState, u: int)
    requires ServerInv(c, s)
    ensures IndexLive(s) && ServerInv(c, HandleLogout(c, s, u))
  {
    hide RoomOk, Lockstep, Step, Destroy;
    CoreIsLive(c, s);
    if u in s.userid2roomid {
      var r := s.userid2roomid[u];
      ActKeepsCore(c, s, r, DoSetUserOffline(u));
      RemoveRoomKeepsCore(c, Act(s, r, DoSetUserOffline(u)), r);
    }
  }

  lemma {:induction false} TickRoomsKeepsInv(c: Config, s: ServerState, ids: seq<int>)
    requires ServerInv(c, s) && forall r | r in ids :: r in s.rooms
    ensures ServerInv(c, TickRooms(s, ids))
    decreases |ids|
  {
    hide RoomOk, Lockstep, Step;
    if ids == [] {
    } else {
      ActKeepsCore(c, s, ids[0], DoTick);
      TickRoomsKeepsInv(c, Act(s, ids[0], DoTick), ids[1..]);
    }
  }

  /** Every message, and every tick of the timer, keeps the server invariant. */
  lemma HandleKeepsInv(c: Config, s: ServerState, e: ServerEvent)
    requires ServerInv(c, s) && Enabled(s, e) && c.roomSize >= 1
    ensures IndexLive(s) && ServerInv(c, Handle(c, s, e))
  {
    hide ServerInv, HandleLogin, HandleLeaveRoom, HandleCreateRoom, HandleLogout, ActFor, TickRooms, Step,
         RemovePlayerFromRoom;
    ServerIsLive(c, s);
    match e
    case LoginResponse(u, username) => HandleLoginKeepsInv(c, s, u, username);
    case JoinRoomRequest(u, r) => HandleJoinRoomKeepsInv(c, s, u, r);
    case LeaveRoomRequest(u, r) => HandleLeaveRoomKeepsInv(c, s, u, r);
    case CreateRoomRequest(u, name, seed, frameId) => HandleCreateRoomKeepsInv(c, s, u, name, seed, frameId);
    case JoinGameRequest(u) => ActForKeepsInv(c, s, u, DoNotifyUserJoinGame(u));
    case QuitGameRequest(u) => ActForKeepsInv(c, s, u, DoLeaveFromGame(u));
    case ChangeRoleRequest(u, role) => ActForKeepsInv(c, s, u, DoUserInfoChange(u, role));
    case StartGameRequest(u) => ActForKeepsInv(c, s, u, DoStartGame(u));
    case EndGameRequest(u) => ActForKeepsInv(c, s, u, DoEndGame);
    case UserOperateRequest(u, op) => ActForKeepsInv(c, s, u, DoUserOperate(u, op));
    case UserLogout(u) => HandleLogoutKeepsInv(c, s, u);
    case UpdateTimer => TickRoomsKeepsInv(c, s, Ascending(s.rooms.Keys));
  }

  lemma ServerIsLive(c: Config, s: ServerState)
    requires ServerInv(c, s)
    ensures IndexLive(s)
  {
    hide RoomOk, Lockstep;
  }
}
