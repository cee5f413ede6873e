/** Which operations the messages of a run perform on which room: every room on the server is
    the outcome of exactly its own operations, in order, since it was created. */
module LogicTrace {
  import opened Basics
  import opened Messages
  import opened RoomModel
  import opened RoomInvariant
  import opened RoomGame
  import opened RoomHistory
  import opened LogicModel
  import opened LogicSafety
  import opened LogicTheorems

  // ---- the operations of one event ----

  predicate In(s: ServerState, u: int, r: int) {
    u in s.userid2roomid && s.userid2roomid[u] == r
  }

  function NameOf(s: ServerState, u: int): string {
    Get(s.usernames, u, "")
  }

  function IfIn(s: ServerState, u: int, r: int, e: RoomEvent): seq<RoomEvent> {
    if In(s, u, r) then [e] else []
  }

  /** What handling `e` does to room `r`, which is there before and after. */
  function EventsFor(s: ServerState, e: ServerEvent, r: int): seq<RoomEvent>
    requires r in s.rooms
  {
    match e
    case LoginResponse(u, _) => if s.rooms[r].started then IfIn(s, u, r, DoReconnect(u)) else []
    case JoinRoomRequest(u, q) =>
      if q !in s.rooms then []
      else IfIn(s, u, r, DoLeaveFromRoom(u)) + if q == r then [DoJoinRoom(u, NameOf(s, u))] else []
    case LeaveRoomRequest(u, q) => if q == r then IfIn(s, u, r, DoLeaveFromRoom(u)) else []
    case CreateRoomRequest(_, _, _, _) => []
    case JoinGameRequest(u) => IfIn(s, u, r, DoNotifyUserJoinGame(u))
    case QuitGameRequest(u) => IfIn(s, u, r, DoLeaveFromGame(u))
    case ChangeRoleRequest(u, role) => IfIn(s, u, r, DoUserInfoChange(u, role))
    case StartGameRequest(u) => IfIn(s, u, r, DoStartGame(u))
    case EndGameRequest(u) => IfIn(s, u, r, DoEndGame)
    case UserOperateRequest(u, op) => IfIn(s, u, r, DoUserOperate(u, op))
    case UserLogout(u) => IfIn(s, u, r, DoSetUserOffline(u))
    case UpdateTimer => [DoTick]
  }

  /** From room `s`, the operations are legal and lead to room `t`. */
  ghost predicate Performs(s: RoomState, es: seq<RoomEvent>, t: RoomState)
    decreases |es|
  {
    if es == [] then s == t
    else Legal(s, es[0]) && Performs(Step(s, es[0]).room, es[1..], t)
  }

  lemma PerformsNothing(s: RoomState)
    ensures Performs(s, [], s)
  {
  }

  lemma PerformsOne(s: RoomState, e: RoomEvent)
    requires Legal(s, e)
    ensures Performs(s, [e], Step(s, e).room)
  {
    hide Step, Legal;
    assert [e][1..] == [];
  }

  lemma PerformsTwo(s: RoomState, e: RoomEvent, f: RoomEvent)
    requires Legal(s, e) && Legal(Step(s, e).room, f)
    ensures Performs(s, [e] + [f], Step(Step(s, e).room, f).room)
  {
    hide Step, Legal;
    assert ([e] + [f])[0] == e && ([e] + [f])[1..] == [f];
    PerformsOne(Step(s, e).room, f);
  }

  /** The members of a room have what it takes to start a game there. */
  lemma MembersAreLegal(c: Config, s: ServerState, u: int, e: RoomEvent)
    requires ServerInv(c, s) && u in s.userid2roomid && (e.DoStartGame? ==> e.u == u)
    ensures s.userid2roomid[u] in s.rooms && Legal(s.rooms[s.userid2roomid[u]], e)
  {
    hide RoomOk, Lockstep;
  }

  lemma ActForActs(c: Config, s: ServerState, u: int, e: RoomEvent, r: int)
    requires ServerInv(c, s) && r in s.rooms && (e.DoStartGame? ==> e.u == u)
    ensures ActFor(s, u, e).rooms.Keys == s.rooms.Keys
    ensures Performs(s.rooms[r], IfIn(s, u, r, e), ActFor(s, u, e).rooms[r])
  {
    hide ServerInv, Step, Legal, Performs;
    if u in s.userid2roomid {
      MembersAreLegal(c, s, u, e);
    }
    if In(s, u, r) {
      PerformsOne(s.rooms[r], e);
    } else {
      PerformsNothing(s.rooms[r]);
    }
    assert ActFor(s, u, e).rooms.Keys == s.rooms.Keys;
  }

  lemma RemovePlayerActs(c: Config, s: ServerState, u: int, r: int)
    requires ServerInv(c, s) && IndexLive(s)
    ensures var t := RemovePlayerFromRoom(c, s, u);
      && t.rooms.Keys <= s.rooms.Keys && t.usernames == s.usernames
      && (r in t.rooms ==>
            t.rooms[r] == if In(s, u, r) then Step(s.rooms[r], DoLeaveFromRoom(u)).room else s.rooms[r])
  {
    hide ServerInv, Step, Destroy;
  }

  lemma AddPlayerActs(s: ServerState, u: int, q: int, r: int)
    requires q in s.rooms && r in s.rooms
    ensures AddPlayerToRoom(s, u, q).rooms.Keys == s.rooms.Keys
    ensures AddPlayerToRoom(s, u, q).rooms[r] ==
            if q == r then Step(s.rooms[r], DoJoinRoom(u, NameOf(s, u))).room else s.rooms[r]
  {
    hide Step, Admits;
    assert AddPlayerToRoom(s, u, q).rooms.Keys == s.rooms.Keys;
  }

  lemma JoinActs(c: Config, s: ServerState, u: int, q: int, r: int)
    requires ServerInv(c, s) && Enabled(s, JoinRoomRequest(u, q)) && IndexLive(s)
    requires q in s.rooms ==> q in RemovePlayerFromRoom(c, s, u).rooms
    requires r in s.rooms && r in HandleJoinRoom(c, s, u, q).rooms
    ensures Performs(s.rooms[r], EventsFor(s, JoinRoomRequest(u, q), r), HandleJoinRoom(c, s, u, q).rooms[r])
  {
    hide ServerInv, RemovePlayerFromRoom, AddPlayerToRoom, Step, Performs;
    PerformsNothing(s.rooms[r]);
    if q in s.rooms {
      RemovePlayerActs(c, s, u, r);
      RemovePlayerActs(c, s, u, q);
      var t := RemovePlayerFromRoom(c, s, u);
      assert r in t.rooms by {
        if q != r { AddPlayerKeepsRooms(t, u, q); }
      }
      AddPlayerActs(t, u, q, r);
      var leave, join := DoLeaveFromRoom(u), DoJoinRoom(u, NameOf(s, u));
      if In(s, u, r) {
        PerformsOne(s.rooms[r], leave);
        PerformsTwo(s.rooms[r], leave, join);
        assert [leave] + [] == [leave];
      } else {
        PerformsOne(s.rooms[r], join);
        var none: seq<RoomEvent> := [];
        assert none + [join] == [join] && none + none == none;
      }
    }
  }

  lemma AddPlayerKeepsRooms(s: ServerState, u: int, q: int)
    requires q in s.rooms
    ensures AddPlayerToRoom(s, u, q).rooms.Keys == s.rooms.Keys
  {
    AddPlayerActs(s, u, q, q);
  }

  lemma LeaveActs(c: Config, s: ServerState, u: int, q: int, r: int)
    requires ServerInv(c, s) && IndexLive(s) && r in s.rooms && r in HandleLeaveRoom(c, s, u, q).rooms
    ensures Performs(s.rooms[r], EventsFor(s, LeaveRoomRequest(u, q), r), HandleLeaveRoom(c, s, u, q).rooms[r])
  {
    hide ServerInv, RemovePlayerFromRoom, Step, Performs;
    PerformsNothing(s.rooms[r]);
    PerformsOne(s.rooms[r], DoLeaveFromRoom(u));
    RemovePlayerActs(c, s, u, r);
  }

  /** Creating a room opens it for the creator, and touches no other. */
  lemma CreateActs(c: Config, s: ServerState, u: int, name: string, seed: int, frameId: int, r: int)
    requires ServerInv(c, s) && (u !in s.userid2roomid ==> s.roomidPool != {})
    ensures s.rooms.Keys <= HandleCreateRoom(c, s, u, name, seed, frameId).rooms.Keys
    ensures r in s.rooms ==> HandleCreateRoom(c, s, u, name, seed, frameId).rooms[r] == s.rooms[r]
    ensures r in HandleCreateRoom(c, s, u, name, seed, frameId).rooms && r !in s.rooms ==>
              u !in s.userid2roomid && r in s.roomidPool && forall q | q in s.roomidPool :: r <= q
    ensures r in HandleCreateRoom(c, s, u, name, seed, frameId).rooms && r !in s.rooms ==>
              HandleCreateRoom(c, s, u, name, seed, frameId).rooms[r] ==
              Step(Fresh(r, name, c.roomSize, seed, c.chase, frameId), DoJoinRoom(u, NameOf(s, u))).room
  {
    hide Core, AddPlayerToRoom, Step, Fresh;
    if u !in s.userid2roomid {
      AddRoomKeepsCore(c, s, name, seed, frameId);
      var q := Min(s.roomidPool);
      var t := Send(AddRoom(c, s, name, seed, frameId), [Sent(u, CreateRoomReply(true, q, name, true))]);
      assert RemovePlayerFromRoom(c, t, u) == t;
      AddPlayerActs(t, u, q, q);
      if r in t.rooms {
        AddPlayerActs(t, u, q, r);
      }
    }
  }

  lemma LogoutActs(c: Config, s: ServerState, u: int, r: int)
    requires ServerInv(c, s) && IndexLive(s) && r in s.rooms && r in HandleLogout(c, s, u).rooms
    ensures Performs(s.rooms[r], IfIn(s, u, r, DoSetUserOffline(u)), HandleLogout(c, s, u).rooms[r])
  {
    hide ServerInv, Step, Performs, CheckRoomDead, Destroy;
    PerformsNothing(s.rooms[r]);
    PerformsOne(s.rooms[r], DoSetUserOffline(u));
  }

  lemma LoginActs(c: Config, s: ServerState, u: int, username: string, r: int)
    requires ServerInv(c, s) && r in s.rooms
    ensures HandleLogin(s, u, username).rooms.Keys == s.rooms.Keys
    ensures Performs(s.rooms[r], EventsFor(s, LoginResponse(u, username), r), HandleLogin(s, u, username).rooms[r])
  {
    hide ServerInv, Step, Performs;
    var t := s.(usernames := s.usernames[u := username]);
    UsernameKeepsInv(c, s, u, username);
    PerformsNothing(s.rooms[r]);
    ActForActs(c, t, u, DoReconnect(u), r);
  }

  lemma UpdateActs(s: ServerState, r: int)
    requires r in s.rooms
    ensures Update(s).rooms.Keys == s.rooms.Keys
    ensures Performs(s.rooms[r], [DoTick], Update(s).rooms[r])
  {
    hide Tick, Performs, TickRooms, Step;
    TickRoomsEffect(s, Ascending(s.rooms.Keys));
    PerformsOne(s.rooms[r], DoTick);
    StepOfTick(s.rooms[r]);
  }

  lemma StepOfTick(s: RoomState)
    ensures Step(s, DoTick) == Tick(s)
  {
    hide Tick;
  }

  /** Whatever the message, a room that is there before and after has performed the operations
      listed for it, and no others. */
  lemma HandleActs(c: Config, s: ServerState, e: ServerEvent, r: int)
    requires ServerInv(c, s) && IndexLive(s) && Enabled(s, e)
    requires r in s.rooms && r in Handle(c, s, e).rooms
    ensures Performs(s.rooms[r], EventsFor(s, e, r), Handle(c, s, e).rooms[r])
  {
    hide ServerInv, Performs, HandleLogin, HandleLeaveRoom, HandleCreateRoom, HandleLogout, HandleJoinRoom, ActFor,
         Update, RemovePlayerFromRoom;
    match e
    case LoginResponse(u, username) => LoginActs(c, s, u, username, r);
    case JoinRoomRequest(u, q) => JoinEventActs(c, s, u, q, r);
    case LeaveRoomRequest(u, q) => LeaveActs(c, s, u, q, r);
    case CreateRoomRequest(u, name, seed, frameId) =>
      CreateActs(c, s, u, name, seed, frameId, r);
      PerformsNothing(s.rooms[r]);
    case JoinGameRequest(u) => ActForActs(c, s, u, DoNotifyUserJoinGame(u), r);
    case QuitGameRequest(u) => ActForActs(c, s, u, DoLeaveFromGame(u), r);
    case ChangeRoleRequest(u, role) => ActForActs(c, s, u, DoUserInfoChange(u, role), r);
    case StartGameRequest(u) => ActForActs(c, s, u, DoStartGame(u), r);
    case EndGameRequest(u) => ActForActs(c, s, u, DoEndGame, r);
    case UserOperateRequest(u, op) => ActForActs(c, s, u, DoUserOperate(u, op), r);
    case UserLogout(u) => LogoutActs(c, s, u, r);
    case UpdateTimer => UpdateActs(s, r);
  }

  lemma JoinEventActs(c: Config, s: ServerState, u: int, q: int, r: int)
    requires ServerInv(c, s) && IndexLive(s) && Enabled(s, JoinRoomRequest(u, q))
    requires r in s.rooms && r in Handle(c, s, JoinRoomRequest(u, q)).rooms
    ensures var e := JoinRoomRequest(u, q); Performs(s.rooms[r], EventsFor(s, e, r), Handle(c, s, e).rooms[r])
  {
    hide ServerInv, Performs, HandleJoinRoom, RemovePlayerFromRoom, EventsFor;
    if q in s.rooms {
      TargetSurvives(c, s, u, q);
    }
    JoinActs(c, s, u, q, r);
  }

  /** A room that was not there before has been created by this message, under the smallest
      free id, and its creator was in no room. */
  lemma HandleCreates(c: Config, s: ServerState, e: ServerEvent, r: int)
    requires ServerInv(c, s) && IndexLive(s) && Enabled(s, e)
    requires r !in s.rooms && r in Handle(c, s, e).rooms
    ensures e.CreateRoomRequest? && e.u !in s.userid2roomid
    ensures r in s.roomidPool && forall q | q in s.roomidPool :: r <= q
    ensures Handle(c, s, e).rooms[r] ==
            Step(Fresh(r, e.roomname, c.roomSize, e.seed, c.chase, e.frameId), DoJoinRoom(e.u, NameOf(s, e.u))).room
  {
    hide ServerInv, HandleCreateRoom, Step, AddPlayerToRoom, RemovePlayerFromRoom, Fresh, Destroy, TickRooms;
    match e
    case LoginResponse(u, username) =>
    case JoinRoomRequest(u, q) =>
      RemovePlayerActs(c, s, u, r);
      if q in s.rooms {
        TargetSurvives(c, s, u, q);
        AddPlayerKeepsRooms(RemovePlayerFromRoom(c, s, u), u, q);
      }
    case LeaveRoomRequest(u, q) => RemovePlayerActs(c, s, u, r);
    case CreateRoomRequest(u, name, seed, frameId) => CreateActs(c, s, u, name, seed, frameId, r);
    case UserLogout(u) =>
    case UpdateTimer => TickRoomsEffect(s, Ascending(s.rooms.Keys));
    case _ =>
  }

  // ---- traces ----

  /** A new room and the operations it has performed since. */
  datatype Trace = Trace(start: World, steps: seq<RoomEvent>)

  function Born(c: Config, s: ServerState, e: ServerEvent, r: int): Trace {
    if e.CreateRoomRequest? then
      Trace(FreshWorld(r, e.roomname, c.roomSize, e.seed, c.chase, e.frameId, []),
            [DoJoinRoom(e.u, NameOf(s, e.u))])
    else
      Trace(FreshWorld(r, "", c.roomSize, 0, c.chase, 0, []), [])
  }

  ghost function Traced(c: Config, s: ServerState, traces: map<int, Trace>, e: ServerEvent): map<int, Trace>
    requires IndexLive(s) && Enabled(s, e)
  {
    map r | r in Handle(c, s, e).rooms ::
      if r in s.rooms && r in traces then Trace(traces[r].start, traces[r].steps + EventsFor(s, e, r))
      else Born(c, s, e, r)
  }

  /** The traces of the rooms that are there after the events, made of these events alone. */
  ghost function TracesOf(c: Config, s: ServerState, traces: map<int, Trace>, es: seq<ServerEvent>): map<int, Trace>
    decreases |es|
  {
    if es == [] || !IndexLive(s) || !Enabled(s, es[0]) then traces
    else TracesOf(c, Handle(c, s, es[0]), Traced(c, s, traces, es[0]), es[1..])
  }

  /** The trace starts with a new room numbered `r`, and performing it gives `s`. */
  ghost predicate TraceFits(c: Config, r: int, tr: Trace, s: RoomState) {
    var w0 := tr.start;
    && w0 == FreshWorld(r, w0.room.name, c.roomSize, w0.room.seed, c.chase, w0.room.frameId, [])
    && LegalRun(w0, tr.steps) && Run(w0, tr.steps).room == s
  }

  ghost predicate TracesFit(c: Config, s: ServerState, traces: map<int, Trace>) {
    traces.Keys == s.rooms.Keys && forall r | r in s.rooms :: TraceFits(c, r, traces[r], s.rooms[r])
  }

  lemma {:induction false} RunPerforms(w: World, es: seq<RoomEvent>, more: seq<RoomEvent>, t: RoomState)
    requires LegalRun(w, es) && Performs(Run(w, es).room, more, t)
    ensures LegalRun(w, es + more) && Run(w, es + more).room == t
    decreases |more|
  {
    hide Legal, Step, Run, LegalRun;
    if more == [] {
      assert es + more == es;
    } else {
      RunThenNext(w, es, more[0]);
      NextRoom(Run(w, es), more[0]);
      RunPerforms(w, es + [more[0]], more[1..], t);
      assert es + [more[0]] + more[1..] == es + more;
    }
  }

  lemma NextRoom(w: World, e: RoomEvent)
    ensures Next(w, e).room == Step(w.room, e).room
  {
    hide Step, Account;
  }

  lemma TracedFits(c: Config, s: ServerState, traces: map<int, Trace>, e: ServerEvent)
    requires ServerInv(c, s) && IndexLive(s) && Enabled(s, e) && TracesFit(c, s, traces)
    ensures TracesFit(c, Handle(c, s, e), Traced(c, s, traces, e))
  {
    hide ServerInv, Handle, Enabled, EventsFor, FreshWorld, Run, LegalRun, Performs, Born, TraceFits, IndexLive;
    var t, after := Handle(c, s, e), Traced(c, s, traces, e);
    forall r | r in t.rooms
      ensures TraceFits(c, r, after[r], t.rooms[r])
    {
      if r in s.rooms {
        HandleActs(c, s, e, r);
        LongerTraceFits(c, r, traces[r], s.rooms[r], EventsFor(s, e, r), t.rooms[r]);
      } else {
        HandleCreates(c, s, e, r);
        BornFits(c, s, e, r, t.rooms[r]);
      }
    }
  }

  lemma LongerTraceFits(c: Config, r: int, tr: Trace, s: RoomState, more: seq<RoomEvent>, t: RoomState)
    requires TraceFits(c, r, tr, s) && Performs(s, more, t)
    ensures TraceFits(c, r, Trace(tr.start, tr.steps + more), t)
  {
    hide FreshWorld, Performs, Run, LegalRun;
    RunPerforms(tr.start, tr.steps, more, t);
  }

  lemma BornFits(c: Config, s: ServerState, e: ServerEvent, r: int, t: RoomState)
    requires e.CreateRoomRequest?
    requires
      t == Step(Fresh(r, e.roomname, c.roomSize, e.seed, c.chase, e.frameId), DoJoinRoom(e.u, NameOf(s, e.u))).room
    ensures TraceFits(c, r, Born(c, s, e, r), t)
  {
    hide Step, Performs;
    var tr := Born(c, s, e, r);
    PerformsOne(tr.start.room, tr.steps[0]);
    RunPerforms(tr.start, [], tr.steps, t);
    assert [] + tr.steps == tr.steps;
  }

  lemma {:induction false} TracesKeepFitting(c: Config, s: ServerState, traces: map<int, Trace>, es: seq<ServerEvent>)
    requires ServerInv(c, s) && c.roomSize >= 1 && TracesFit(c, s, traces)
    ensures TracesFit(c, ServerRun(c, s, es), TracesOf(c, s, traces, es))
    decreases |es|
  {
    hide ServerInv, Handle, Enabled, TracesFit, Traced;
    ServerIsLive(c, s);
    if es == [] || !Enabled(s, es[0]) {
    } else {
      HandleKeepsInv(c, s, es[0]);
      TracedFits(c, s, traces, es[0]);
      TracesKeepFitting(c, Handle(c, s, es[0]), Traced(c, s, traces, es[0]), es[1..]);
    }
  }

  /** Every room on the server is the outcome of the operations that the messages since its
      creation perform on it. So, with replay support on, its log holds exactly the operations
      accepted from these messages, a pid in it names one user, and the log of a running game
      begins with the opening of that game. */
  lemma EveryRoomIsItsTrace(c: Config, es: seq<ServerEvent>, r: int)
    requires c.roomSize >= 1 && c.chase && r in ServerRun(c, Boot(c), es).rooms
    ensures r in TracesOf(c, Boot(c), map[], es)
    ensures var tr := TracesOf(c, Boot(c), map[], es)[r];
      var w := Run(tr.start, tr.steps);
      && TraceFits(c, r, tr, ServerRun(c, Boot(c), es).rooms[r])
      && OpLog(w.room) == Ops(w.history) && PidIdentity(w.history)
      && (w.room.started ==> exists k :: OpenedAt(tr.start, tr.steps, k))
  {
    hide ServerInv, ServerRun, TracesOf, TraceFits;
    BootInv(c);
    TracesKeepFitting(c, Boot(c), map[], es);
    TraceIsSafe(c, r, TracesOf(c, Boot(c), map[], es)[r], ServerRun(c, Boot(c), es).rooms[r]);
  }

  lemma TraceIsSafe(c: Config, r: int, tr: Trace, s: RoomState)
    requires c.chase && TraceFits(c, r, tr, s)
    ensures var w := Run(tr.start, tr.steps);
      && OpLog(w.room) == Ops(w.history) && PidIdentity(w.history)
      && (w.room.started ==> exists k :: OpenedAt(tr.start, tr.steps, k))
  {
    hide Run, LegalRun, OpLog, Ops, PidIdentity, OpenedAt, RoomInv, Safe;
    var room := tr.start.room;
    FreshIsSafe(r, room.name, c.roomSize, room.seed, true, room.frameId, []);
    EveryRunIsSafe(r, room.name, c.roomSize, room.seed, room.frameId, [], tr.steps);
    if Run(tr.start, tr.steps).room.started {
      RunningGameWasOpened(tr.start, tr.steps);
    }
  }
}
