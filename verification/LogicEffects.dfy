/** What the messages of users do to what others see of them: pids, names and roles on the
    server, and the replies to requests. */
module LogicEffects {
  import opened Basics
  import opened Messages
  import opened RoomModel
  import opened RoomInvariant
  import opened RoomHistory
  import opened RoomEffects
  import opened RoomRoster
  import opened LogicModel
  import opened LogicSafety
  import opened LogicTheorems
  import opened LogicTrace
  import opened LogicPresence

  // ---- names ----

  /** A login makes the name known, and nothing else does. */
  lemma HandleNames(c: Config, s: ServerState, e: ServerEvent)
    requires IndexLive(s) && Enabled(s, e)
    ensures Handle(c, s, e).usernames == if e.LoginResponse? then s.usernames[e.u := e.username] else s.usernames
  {
    hide Step, Destroy, Fresh, TickRooms, Admits;
    if e.UpdateTimer? {
      TickRoomsEffect(s, Ascending(s.rooms.Keys));
    } else if e.JoinRoomRequest? && e.roomid in s.rooms {
      TargetSurvives(c, s, e.u, e.roomid);
    }
  }

  /** The name of the last login of `u`. */
  function LoginName(es: seq<ServerEvent>, u: int): string {
    if es == [] then ""
    else
      var e := es[|es| - 1];
      if e.LoginResponse? && e.u == u then e.username else LoginName(es[..|es| - 1], u)
  }

  lemma {:induction false} NameIsOfLastLogin(c: Config, es: seq<ServerEvent>, u: int)
    requires Completes(c, Boot(c), es)
    ensures NameOf(ServerRun(c, Boot(c), es), u) == LoginName(es, u)
    decreases |es|
  {
    hide Handle, Enabled, IndexLive, Completes;
    if es == [] {
    } else {
      var before, e := es[..|es| - 1], es[|es| - 1];
      assert es == before + [e];
      LastEvent(c, Boot(c), before, e);
      hide ServerRun;
      NameIsOfLastLogin(c, before, u);
      HandleNames(c, ServerRun(c, Boot(c), before), e);
    }
  }

  // ---- the roster on the server ----

  /** The message is a request of `u` to enter room `r`, by joining it, or by creating a room
      while in none. */
  predicate Enters(s: ServerState, e: ServerEvent, u: int, r: int) {
    || (e.JoinRoomRequest? && e.u == u && e.roomid == r)
    || (e.CreateRoomRequest? && e.u == u && u !in s.userid2roomid)
  }

  /** A member that does not enter keeps its pid and its name, and its role unless it changes it
      by this message. A user that enters has its login name, and role 1. */
  ghost predicate MemberMoves(s: ServerState, e: ServerEvent, r: int, t: RoomState, u: int) {
    && u in t.members && u in t.names && u in t.roles
    && (if r in s.rooms && u in s.rooms[r].members && !Enters(s, e, u, r) then
          var room := s.rooms[r];
          && u in room.names && u in room.roles
          && t.members[u] == room.members[u] && t.names[u] == room.names[u]
          && t.roles[u] == if e.ChangeRoleRequest? && e.u == u then e.role else room.roles[u]
        else Enters(s, e, u, r) && t.names[u] == NameOf(s, u) && t.roles[u] == 1)
  }

  lemma HandleMovesMember(c: Config, s: ServerState, e: ServerEvent, r: int, u: int)
    requires ServerInv(c, s) && IndexLive(s) && Enabled(s, e) && c.roomSize >= 1
    requires r in Handle(c, s, e).rooms && u in Handle(c, s, e).rooms[r].members
    ensures MemberMoves(s, e, r, Handle(c, s, e).rooms[r], u)
  {
    hide ServerInv, Handle, Enabled, Performs, RoomInv, IndexLive, EventsFor, MemberMoves, Step, Fresh;
    var t := Handle(c, s, e).rooms[r];
    if r in s.rooms {
      HandleActs(c, s, e, r);
      MembersAreIn(c, s, if e.UpdateTimer? then 0 else e.u, r);
      MemberMovesAlong(s, e, r, t, u);
    } else {
      HandleCreates(c, s, e, r);
      NewMember(c, s, e, r, t, u);
    }
  }

  lemma NewMember(c: Config, s: ServerState, e: ServerEvent, r: int, t: RoomState, u: int)
    requires r !in s.rooms && e.CreateRoomRequest? && e.u !in s.userid2roomid && u in t.members
    requires
      t == Step(Fresh(r, e.roomname, c.roomSize, e.seed, c.chase, e.frameId), DoJoinRoom(e.u, NameOf(s, e.u))).room
    ensures MemberMoves(s, e, r, t, u)
  {
    hide Step, RoomInv;
    var empty := Fresh(r, e.roomname, c.roomSize, e.seed, c.chase, e.frameId);
    FreshRoomInv(r, e.roomname, c.roomSize, e.seed, c.chase, e.frameId);
    StepMovesRoster(empty, DoJoinRoom(e.u, NameOf(s, e.u)));
  }

  lemma MemberMovesAlong(s: ServerState, e: ServerEvent, r: int, t: RoomState, u: int)
    requires r in s.rooms && RoomInv(s.rooms[r]) && u in t.members
    requires !e.UpdateTimer? ==> (In(s, e.u, r) <==> e.u in s.rooms[r].members)
    requires Performs(s.rooms[r], EventsFor(s, e, r), t)
    ensures MemberMoves(s, e, r, t, u)
  {
    hide Performs, RoomInv, Step;
    var room, es := s.rooms[r], EventsFor(s, e, r);
    if es == [] {
      PerformedNothing(room, t);
      MemberEntries(room, u);
    } else if |es| == 1 {
      assert es == [es[0]];
      PerformedOne(room, es[0], t);
      StepMovesRoster(room, es[0]);
    } else {
      assert es == [es[0]] + [es[1]];
      PerformedTwo(room, es[0], es[1], t);
      StepKeepsInv(room, es[0]);
      StepMovesRoster(Step(room, es[0]).room, es[1]);
      StepMarks(room, es[0]);
      assert MarksOf(Step(room, es[0]).room).members == room.members.Keys - {e.u};
      StepMovesRoster(room, es[0]);
    }
  }

  lemma MemberEntries(s: RoomState, u: int)
    requires RoomInv(s) && u in s.members
    ensures u in s.names && u in s.roles
  {
    EntryOf(s, u);
  }

  /** On the server, too: a member's role is the one it last asked for since it joined, or 1. */
  lemma RoleOnServer(c: Config, es: seq<ServerEvent>, r: int, u: int)
    requires c.roomSize >= 1 && r in ServerRun(c, Boot(c), es).rooms
    requires u in ServerRun(c, Boot(c), es).rooms[r].members
    ensures r in TracesOf(c, Boot(c), map[], es)
    ensures var tr := TracesOf(c, Boot(c), map[], es)[r];
      var room := ServerRun(c, Boot(c), es).rooms[r];
      && u in room.roles && room.roles[u] == LastRole(tr.start, tr.steps, u)
      && u in room.names && room.names[u] == LastName(tr.start, tr.steps, u)
  {
    hide ServerInv, ServerRun, TracesOf, LastRole, LastName, Run, LegalRun, RoomInv;
    BootInv(c);
    TracesKeepFitting(c, Boot(c), map[], es);
    var tr := TracesOf(c, Boot(c), map[], es)[r];
    var room := tr.start.room;
    FreshRoomInv(r, room.name, c.roomSize, room.seed, c.chase, room.frameId);
    RoleIsLastAskedFor(tr.start, tr.steps, u);
  }

  // ---- replies and notices ----

  /** A request that cannot be met is answered to the user alone, and changes nothing else. */
  lemma RefusalsAreTold(c: Config, s: ServerState, e: ServerEvent)
    requires IndexLive(s) && Enabled(s, e)
    ensures e.JoinRoomRequest? && e.roomid !in s.rooms ==>
              Handle(c, s, e) == s.(log := s.log + [Sent(e.u, JoinRoomReply(false, -1, NoSuchRoom))])
    ensures e.LeaveRoomRequest? && (e.u !in s.userid2roomid || s.userid2roomid[e.u] != e.roomid) ==>
              Handle(c, s, e) == s.(log := s.log + [Sent(e.u, LeaveRoomReply(false, e.roomid))])
    ensures e.CreateRoomRequest? && e.u in s.userid2roomid ==>
              Handle(c, s, e) == s.(log := s.log + [Sent(e.u, CreateRoomReply(false, -1, "Error", false))])
  {
    hide Step, RemovePlayerFromRoom, AddPlayerToRoom, AddRoom;
  }

  /** The creator of a room is told the smallest free id, the name it chose, and that it is the
      host; then that it has entered. */
  lemma CreationIsTold(c: Config, s: ServerState, e: ServerEvent)
    requires ServerInv(c, s) && IndexLive(s) && Enabled(s, e) && c.roomSize >= 1
    requires e.CreateRoomRequest? && e.u !in s.userid2roomid
    ensures exists r :: r in s.roomidPool && (forall q | q in s.roomidPool :: r <= q)
              && s.log + [Sent(e.u, CreateRoomReply(true, r, e.roomname, true)),
                          Sent(e.u, JoinRoomReply(true, r, Entered))] <= Handle(c, s, e).log
  {
    hide Core, JoinRoom, Fresh, Admits;
    var r := Min(s.roomidPool);
    AddRoomKeepsCore(c, s, e.roomname, e.seed, e.frameId);
    var reply := Sent(e.u, CreateRoomReply(true, r, e.roomname, true));
    var t := Send(AddRoom(c, s, e.roomname, e.seed, e.frameId), [reply]);
    var o := JoinRoom(t.rooms[r], e.u, NameOf(s, e.u));
    CreatorEnters(c, r, e);
    JoinRoomLetsIn(t.rooms[r], e.u, NameOf(s, e.u));
    assert o.sent == [o.sent[0]] + o.sent[1..];
    assert Handle(c, s, e).log == s.log + [reply] + o.sent;
  }

  lemma CreatorEnters(c: Config, r: int, e: ServerEvent)
    requires e.CreateRoomRequest? && c.roomSize >= 1
    ensures var s := Fresh(r, e.roomname, c.roomSize, e.seed, c.chase, e.frameId);
      RoomInv(s) && s.id == r && !s.started && |s.members| < s.size && e.u !in s.members
  {
    FreshRoomInv(r, e.roomname, c.roomSize, e.seed, c.chase, e.frameId);
  }

  /** A message to the user's room: what the room sends is sent, and nothing else. */
  predicate ToOneRoom(e: ServerEvent) {
    e.JoinGameRequest? || e.QuitGameRequest? || e.ChangeRoleRequest? || e.StartGameRequest? || e.EndGameRequest?
    || e.UserOperateRequest? || e.LoginResponse?
  }

  lemma RoomNoticesAreSent(c: Config, s: ServerState, e: ServerEvent, r: int)
    requires IndexLive(s) && ToOneRoom(e) && r in s.rooms && In(s, e.u, r)
    ensures Handle(c, s, e).log ==
              if EventsFor(s, e, r) == [] then s.log else s.log + Step(s.rooms[r], EventsFor(s, e, r)[0]).sent
  {
    hide Step;
  }

  /** A logout is answered by what the room sends; if the room is deleted for it, by what that
      sends, too. */
  lemma LogoutNoticesAreSent(c: Config, s: ServerState, u: int, r: int)
    requires ServerInv(c, s) && IndexLive(s) && r in s.rooms && In(s, u, r)
    ensures var o := SetUserOffline(s.rooms[r], u);
      Handle(c, s, UserLogout(u)).log == s.log + o.sent + if CheckRoomDead(o.room) then Destroy(o.room).sent else []
  {
    hide RoomOk, AllLockstep, SetUserOffline, Destroy, CheckRoomDead;
    assert r in s.roomidUsing;
    var t := Act(s, r, DoSetUserOffline(u));
    assert t.log + [] == t.log;
  }

  // ---- ids of deleted rooms ----

  /** The id of a deleted room is free again iff it is at most DEFAULT_ROOM_COUNT. */
  lemma DeletedIdReturns(c: Config, s: ServerState, e: ServerEvent, r: int)
    requires ServerInv(c, s) && IndexLive(s) && Enabled(s, e)
    requires r in s.rooms && r !in Handle(c, s, e).rooms
    ensures r in Handle(c, s, e).roomidPool <==> r <= c.defaultRoomCount
  {
    hide ServerInv, Step, Destroy, HandleCreateRoom, AddPlayerToRoom, TickRooms, ActFor, HandleLogin;
    if e.CreateRoomRequest? {
      CreateActs(c, s, e.u, e.roomname, e.seed, e.frameId, r);
    } else if e.UpdateTimer? {
      TickRoomsEffect(s, Ascending(s.rooms.Keys));
    } else if e.LoginResponse? {
      LoginActs(c, s, e.u, e.username, r);
    } else if ToOneRoom(e) {
      ActForKeepsRooms(s, e);
    } else {
      UsedIdIsNotFree(c, s, r);
      if e.JoinRoomRequest? && e.roomid in s.rooms {
        TargetSurvives(c, s, e.u, e.roomid);
        AddPlayerKeepsPool(RemovePlayerFromRoom(c, s, e.u), e.u, e.roomid);
      }
    }
  }

  lemma ActForKeepsRooms(s: ServerState, e: ServerEvent)
    ensures forall f :: !e.UpdateTimer? ==> ActFor(s, e.u, f).rooms.Keys == s.rooms.Keys
  {
    hide Step;
  }

  lemma UsedIdIsNotFree(c: Config, s: ServerState, r: int)
    requires ServerInv(c, s) && r in s.rooms
    ensures r !in s.roomidPool && r in s.roomidUsing
  {
    hide RoomsInv, AllLockstep, IndexAgrees;
  }

  lemma AddPlayerKeepsPool(s: ServerState, u: int, q: int)
    requires q in s.rooms
    ensures AddPlayerToRoom(s, u, q).roomidPool == s.roomidPool
    ensures AddPlayerToRoom(s, u, q).rooms.Keys == s.rooms.Keys
  {
    hide Step, Admits;
  }
}
