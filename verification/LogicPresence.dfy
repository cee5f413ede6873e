/** Who is away, by the logins and logouts the server has been told of, against the offline
    marks in the rooms, and when the test for a dead room decides rightly. */
module LogicPresence {
  import opened Basics
  import opened Messages
  import opened RoomModel
  import opened RoomShutdown
  import opened RoomInvariant
  import opened RoomGame
  import opened LogicModel
  import opened LogicSafety
  import opened LogicTheorems
  import opened LogicTrace

  // ---- who is away ----

  function AwayAfter(away: set<int>, e: ServerEvent): set<int> {
    if e.LoginResponse? then away - {e.u} else if e.UserLogout? then away + {e.u} else away
  }

  /** The users whose last login or logout is a logout. */
  function AwayAmong(es: seq<ServerEvent>): set<int> {
    if es == [] then {} else AwayAfter(AwayAmong(es[..|es| - 1]), es[|es| - 1])
  }

  lemma AwayNext(es: seq<ServerEvent>, e: ServerEvent)
    ensures AwayAmong(es + [e]) == AwayAfter(AwayAmong(es), e)
  {
    assert (es + [e])[..|es|] == es;
  }

  /** A request, which only a user who is there can make. */
  predicate RequestOf(e: ServerEvent, users: set<int>) {
    !e.LoginResponse? && !e.UserLogout? && !e.UpdateTimer? && e.u in users
  }

  /** Users who are away make no requests. */
  ghost predicate QuietRun(es: seq<ServerEvent>) {
    forall i | 0 <= i < |es| :: !RequestOf(es[i], AwayAmong(es[..i]))
  }

  lemma QuietNext(es: seq<ServerEvent>, e: ServerEvent)
    ensures QuietRun(es + [e]) <==> QuietRun(es) && !RequestOf(e, AwayAmong(es))
  {
    var more := es + [e];
    assert forall i | 0 <= i < |es| :: more[i] == es[i] && more[..i] == es[..i];
    assert more[|es|] == e && more[..|es|] == es;
  }

  // ---- when the test for a dead room is right ----

  /** What CheckRoomDead is meant to say. */
  predicate AllAway(s: RoomState, away: set<int>) {
    s.members.Keys <= away
  }

  /** Marks of users who are not members, or not away. */
  function Wrong(s: RoomState, away: set<int>): set<int> {
    s.offline - s.members.Keys * away
  }

  function Here(s: RoomState, away: set<int>): set<int> {
    s.members.Keys - away
  }

  /** If all members who are away are marked, CheckRoomDead is right iff no mark is wrong, or
      somebody is here and there are not exactly as many wrong marks. A positive answer is
      right iff no mark is wrong. */
  lemma DeadIsRightIff(s: RoomState, away: set<int>)
    requires s.members.Keys * away <= s.offline
    ensures (CheckRoomDead(s) <==> AllAway(s, away))
       <==> Wrong(s, away) == {} || (Here(s, away) != {} && |Here(s, away)| != |Wrong(s, away)|)
    ensures CheckRoomDead(s) ==> (AllAway(s, away) <==> Wrong(s, away) == {})
  {
    var wrong, here := Wrong(s, away), Here(s, away);
    hide Wrong, Here;
    DeadMeansAsManyWrong(s, away);
    AllAwayMeansNobodyHere(s, away);
    assert |here| == 0 <==> here == {};
    assert |wrong| == 0 <==> wrong == {};
  }

  lemma DeadMeansAsManyWrong(s: RoomState, away: set<int>)
    requires s.members.Keys * away <= s.offline
    ensures CheckRoomDead(s) <==> |Wrong(s, away)| == |Here(s, away)|
  {
    var both := s.members.Keys * away;
    SameSizes(s.offline, s.members.Keys, both);
    assert s.members.Keys - both == s.members.Keys - away;
    assert |s.members| == |s.members.Keys|;
  }

  lemma SameSizes(a: set<int>, b: set<int>, both: set<int>)
    requires both <= a && both <= b
    ensures |a| == |b| <==> |a - both| == |b - both|
  {
    assert a == (a - both) + both && b == (b - both) + both;
  }

  lemma AllAwayMeansNobodyHere(s: RoomState, away: set<int>)
    ensures AllAway(s, away) <==> Here(s, away) == {}
  {
    assert forall u | u in s.members.Keys :: u in away || u in Here(s, away);
  }

  // ---- marks, operation by operation ----

  datatype Marks = Marks(members: set<int>, offline: set<int>)

  function MarksOf(s: RoomState): Marks {
    Marks(s.members.Keys, s.offline)
  }

  function MarksAfter(s: RoomState, e: RoomEvent): Marks {
    var m := MarksOf(s);
    if e.DoJoinRoom? && Admits(s, e.u) then m.(members := m.members + {e.u})
    else if e.DoLeave? || e.DoLeaveFromRoom? then m.(members := m.members - {e.u})
    else if e.DoReconnect? && e.u in s.members then m.(offline := m.offline - {e.u})
    else if e.DoSetUserOffline? && e.u in s.members then m.(offline := m.offline + {e.u})
    else m
  }

  lemma StepMarks(s: RoomState, e: RoomEvent)
    requires RoomInv(s) && !e.DoKickAllUserFromRoom? && !e.DoLeave?
    ensures MarksOf(Step(s, e).room) == MarksAfter(s, e)
  {
    hide RoomInv, LeaveFromGame, LeaveFromRoom, EndGame, KickFromGame, StartGame, JoinRoom, Tick, InfoToAll, Admits,
         Reconnect, SetUserOffline, UserInfoChange, OnUserOperate, NotifyUserJoinGame;
    match e
    case DoJoinRoom(u, name) => JoinMarks(s, u, name);
    case DoLeaveFromRoom(u) => LeaveMarks(s, u);
    case DoLeaveFromGame(u) => LeaveFromGameEffect(s, u);
    case DoKickAllUserFromGame => KickFromGameEffect(s, Ascending(s.inGame.Keys));
    case DoStartGame(u) => if Starts(s, u) { StartGameEffect(s, u); } else { NoStart(s, u); }
    case DoEndGame => EndGameEffect(s);
    case DoTick => TickMarks(s);
    case DoReconnect(u) => ReconnectMarks(s, u);
    case DoUserOperate(u, op) => OperateMarks(s, u, op);
    case DoNotifyUserJoinGame(u) => OperateMarks(s, u, EMPTY);
    case DoSetUserOffline(u) => OfflineMarks(s, u);
    case DoUserInfoChange(u, role) => RoleMarks(s, u, role);
  }

  const EMPTY := UserOperate([], 0, 0)

  lemma ReconnectMarks(s: RoomState, u: int)
    ensures MarksOf(Reconnect(s, u).room) == MarksAfter(s, DoReconnect(u))
  {
  }

  lemma OperateMarks(s: RoomState, u: int, op: UserOperate)
    ensures MarksOf(OnUserOperate(s, u, op)) == MarksOf(s)
    ensures MarksOf(NotifyUserJoinGame(s, u)) == MarksOf(s)
  {
  }

  lemma OfflineMarks(s: RoomState, u: int)
    ensures MarksOf(SetUserOffline(s, u).room) == MarksAfter(s, DoSetUserOffline(u))
  {
    hide LeaveFromGame;
    LeaveFromGameEffect(s.(offline := s.offline + {u}), u);
  }

  lemma RoleMarks(s: RoomState, u: int, role: int)
    ensures MarksOf(UserInfoChange(s, u, role).room) == MarksOf(s)
  {
    hide InfoToAll;
  }

  lemma JoinMarks(s: RoomState, u: int, name: string)
    requires RoomInv(s)
    ensures MarksOf(JoinRoom(s, u, name).room) == MarksAfter(s, DoJoinRoom(u, name))
  {
    hide InfoToAll, Admits;
    JoinRoomIdentity(s, u, name);
  }

  lemma LeaveMarks(s: RoomState, u: int)
    ensures MarksOf(LeaveFromRoom(s, u).room) == MarksAfter(s, DoLeaveFromRoom(u))
  {
    hide LeaveFromRoom;
    LeaveFromRoomEffect(s, u);
  }

  lemma TickMarks(s: RoomState)
    ensures MarksOf(Tick(s).room) == MarksOf(s)
  {
    hide Broadcast, Ascending;
  }

  // ---- marks, message by message ----

  lemma PerformedNothing(s: RoomState, t: RoomState)
    requires Performs(s, [], t)
    ensures t == s
  {
  }

  lemma PerformedOne(s: RoomState, e: RoomEvent, t: RoomState)
    requires Performs(s, [e], t)
    ensures t == Step(s, e).room && Legal(s, e)
  {
    hide Step, Legal;
    assert [e][1..] == [];
    PerformedNothing(Step(s, e).room, t);
  }

  lemma PerformedTwo(s: RoomState, e: RoomEvent, f: RoomEvent, t: RoomState)
    requires Performs(s, [e] + [f], t)
    ensures t == Step(Step(s, e).room, f).room && Legal(s, e)
  {
    hide Step, Legal;
    assert ([e] + [f])[0] == e && ([e] + [f])[1..] == [f];
    PerformedOne(Step(s, e).room, f, t);
  }

  /** A user who joins the room it is in leaves it first, and is let in again unless others go
      on playing there. */
  predicate LetInAgain(s: RoomState, u: int) {
    Admits(LeaveFromRoom(s, u).room, u)
  }

  /** The message takes `u` out of room `r`, for good. */
  predicate Departs(s: ServerState, e: ServerEvent, u: int, r: int)
    requires r in s.rooms
  {
    && u in s.rooms[r].members
    && (|| (e.LeaveRoomRequest? && e.u == u && e.roomid == r)
        || (e.JoinRoomRequest? && e.u == u && e.roomid in s.rooms && !(e.roomid == r && LetInAgain(s.rooms[r], u))))
  }

  predicate Arrives(s: ServerState, e: ServerEvent, u: int, r: int)
    requires r in s.rooms
  {
    u !in s.rooms[r].members && e.JoinRoomRequest? && e.u == u && e.roomid == r && Admits(s.rooms[r], u)
  }

  /** The message is a login of a member of room `r`. */
  predicate LogsInAt(s: ServerState, e: ServerEvent, u: int, r: int)
    requires r in s.rooms
  {
    u in s.rooms[r].members && e.LoginResponse? && e.u == u
  }

  predicate LogsOutAt(s: ServerState, e: ServerEvent, u: int, r: int)
    requires r in s.rooms
  {
    u in s.rooms[r].members && e.UserLogout? && e.u == u
  }

  /** What a message does to the members and marks of a room. */
  ghost predicate MarksMove(s: ServerState, e: ServerEvent, r: int, m: Marks, n: Marks)
    requires r in s.rooms
  {
    && (forall u :: u in n.members <==> (u in m.members && !Departs(s, e, u, r)) || Arrives(s, e, u, r))
    && (forall u :: u in n.offline <==>
            (u in m.offline && !(LogsInAt(s, e, u, r) && s.rooms[r].started)) || LogsOutAt(s, e, u, r))
  }

  lemma MembersAreIn(c: Config, s: ServerState, u: int, r: int)
    requires ServerInv(c, s) && r in s.rooms
    ensures In(s, u, r) <==> u in s.rooms[r].members
    ensures RoomInv(s.rooms[r])
  {
    hide Lockstep, RoomInv;
    assert RoomOk(c, r, s.rooms[r]);
  }

  /** What a message does to the members and marks of a room that it does not delete. */
  lemma HandleMovesMarks(c: Config, s: ServerState, e: ServerEvent, r: int)
    requires ServerInv(c, s) && IndexLive(s) && Enabled(s, e)
    requires r in s.rooms && r in Handle(c, s, e).rooms
    ensures MarksMove(s, e, r, MarksOf(s.rooms[r]), MarksOf(Handle(c, s, e).rooms[r]))
  {
    hide ServerInv, Handle, Enabled, Performs, RoomInv, IndexLive, EventsFor, MarksMove;
    HandleActs(c, s, e, r);
    MembersAreIn(c, s, if e.UpdateTimer? then 0 else e.u, r);
    MarksMoveAlong(s, e, r, Handle(c, s, e).rooms[r]);
  }

  lemma MarksMoveAlong(s: ServerState, e: ServerEvent, r: int, t: RoomState)
    requires r in s.rooms && RoomInv(s.rooms[r])
    requires !e.UpdateTimer? ==> (In(s, e.u, r) <==> e.u in s.rooms[r].members)
    requires Performs(s.rooms[r], EventsFor(s, e, r), t)
    ensures MarksMove(s, e, r, MarksOf(s.rooms[r]), MarksOf(t))
  {
    hide Performs, RoomInv, Step, LetInAgain, Admits, MarksMove;
    var room, es := s.rooms[r], EventsFor(s, e, r);
    if es == [] {
      hide In;
      PerformedNothing(room, t);
      MoveOfNothing(s, e, r);
    } else if |es| == 1 {
      assert es == [es[0]];
      PerformedOne(room, es[0], t);
      StepMarks(room, es[0]);
      MoveOfOne(s, e, r, es[0]);
    } else {
      assert es == [es[0]] + [es[1]];
      PerformedTwo(room, es[0], es[1], t);
      StepMarks(room, es[0]);
      StepKeepsInv(room, es[0]);
      StepMarks(Step(room, es[0]).room, es[1]);
      RejoinAdmits(room, e.u);
      MoveOfTwo(s, e, r, Step(room, es[0]).room, MarksOf(t));
    }
  }

  lemma MoveOfNothing(s: ServerState, e: ServerEvent, r: int)
    requires r in s.rooms && EventsFor(s, e, r) == []
    requires !e.UpdateTimer? ==> (In(s, e.u, r) <==> e.u in s.rooms[r].members)
    ensures MarksMove(s, e, r, MarksOf(s.rooms[r]), MarksOf(s.rooms[r]))
  {
    hide Admits, LetInAgain;
  }

  lemma MoveOfOne(s: ServerState, e: ServerEvent, r: int, f: RoomEvent)
    requires r in s.rooms && EventsFor(s, e, r) == [f]
    requires !e.UpdateTimer? ==> (In(s, e.u, r) <==> e.u in s.rooms[r].members)
    ensures MarksMove(s, e, r, MarksOf(s.rooms[r]), MarksAfter(s.rooms[r], f))
  {
    hide Admits, LetInAgain;
    assert EventsFor(s, e, r)[0] == f;
  }

  lemma MoveOfTwo(s: ServerState, e: ServerEvent, r: int, left: RoomState, n: Marks)
    requires r in s.rooms && |EventsFor(s, e, r)| == 2
    requires !e.UpdateTimer? ==> (In(s, e.u, r) <==> e.u in s.rooms[r].members)
    requires MarksOf(left) == MarksAfter(s.rooms[r], EventsFor(s, e, r)[0])
    requires n == MarksAfter(left, EventsFor(s, e, r)[1])
    requires Admits(left, e.u) <==> LetInAgain(s.rooms[r], e.u)
    ensures MarksMove(s, e, r, MarksOf(s.rooms[r]), n)
  {
    hide Admits, LetInAgain;
  }

  lemma RejoinAdmits(s: RoomState, u: int)
    ensures Admits(Step(s, DoLeaveFromRoom(u)).room, u) == LetInAgain(s, u)
  {
    hide LeaveFromRoom, Admits;
  }

  /** A mark goes wrong exactly when a marked member who was away logs in while the room is not
      in a game, or leaves the room. */
  lemma MarkGoesWrongIff(c: Config, s: ServerState, away: set<int>, e: ServerEvent, r: int, v: int)
    requires ServerInv(c, s) && IndexLive(s) && Enabled(s, e)
    requires r in s.rooms && r in Handle(c, s, e).rooms
    ensures v in Wrong(Handle(c, s, e).rooms[r], AwayAfter(away, e)) && v !in Wrong(s.rooms[r], away)
       <==> && v in s.rooms[r].members && v in s.rooms[r].offline && v in away
            && ((LogsInAt(s, e, v, r) && !s.rooms[r].started) || Departs(s, e, v, r))
  {
    hide ServerInv, Handle, Enabled, IndexLive, LetInAgain, Admits;
    HandleMovesMarks(c, s, e, r);
  }

  /** A wrong mark stops being wrong exactly when its user logs in as a member while the room is
      in a game, which clears the mark, or logs out as a member, or is let in while away. */
  lemma MarkGoesRightIff(c: Config, s: ServerState, away: set<int>, e: ServerEvent, r: int, v: int)
    requires ServerInv(c, s) && IndexLive(s) && Enabled(s, e)
    requires r in s.rooms && r in Handle(c, s, e).rooms && v in Wrong(s.rooms[r], away)
    ensures v !in Wrong(Handle(c, s, e).rooms[r], AwayAfter(away, e))
       <==> || (LogsInAt(s, e, v, r) && s.rooms[r].started)
            || LogsOutAt(s, e, v, r)
            || (Arrives(s, e, v, r) && v in away)
  {
    hide ServerInv, Handle, Enabled, IndexLive, LetInAgain, Admits;
    HandleMovesMarks(c, s, e, r);
  }

  // ---- whole runs ----

  /** Every member who is away is marked in its room. */
  ghost predicate AwayAreMarked(rooms: map<int, RoomState>, away: set<int>) {
    forall r | r in rooms :: rooms[r].members.Keys * away <= rooms[r].offline
  }

  ghost predicate NoneWrong(rooms: map<int, RoomState>, away: set<int>) {
    forall r | r in rooms :: Wrong(rooms[r], away) == {}
  }

  /** The message is a login of a marked member whose room is not in a game. */
  predicate LeavesMark(s: ServerState, e: ServerEvent) {
    e.LoginResponse? && InRoom(s, e.u) &&
    var room := s.rooms[s.userid2roomid[e.u]];
    e.u in room.offline && !room.started
  }

  lemma NewRoomMarks(c: Config, s: ServerState, e: ServerEvent, r: int)
    requires ServerInv(c, s) && IndexLive(s) && Enabled(s, e) && c.roomSize >= 1
    requires r !in s.rooms && r in Handle(c, s, e).rooms
    ensures e.CreateRoomRequest? && MarksOf(Handle(c, s, e).rooms[r]) == Marks({e.u}, {})
  {
    hide ServerInv, Handle, Enabled, IndexLive, RoomInv, Step;
    HandleCreates(c, s, e, r);
    var empty := Fresh(r, e.roomname, c.roomSize, e.seed, c.chase, e.frameId);
    FreshRoomInv(r, e.roomname, c.roomSize, e.seed, c.chase, e.frameId);
    StepMarks(empty, DoJoinRoom(e.u, NameOf(s, e.u)));
  }

  /** Quiet messages keep all who are away marked. */
  lemma HandleKeepsAwayMarked(c: Config, s: ServerState, away: set<int>, e: ServerEvent)
    requires ServerInv(c, s) && IndexLive(s) && Enabled(s, e) && c.roomSize >= 1
    requires AwayAreMarked(s.rooms, away) && !RequestOf(e, away)
    ensures AwayAreMarked(Handle(c, s, e).rooms, AwayAfter(away, e))
  {
    hide ServerInv, Handle, Enabled, IndexLive, LetInAgain, Admits;
    var t := Handle(c, s, e);
    forall r | r in t.rooms
      ensures t.rooms[r].members.Keys * AwayAfter(away, e) <= t.rooms[r].offline
    {
      if r in s.rooms {
        HandleMovesMarks(c, s, e, r);
        MoveKeepsAwayMarked(s, away, e, r, MarksOf(s.rooms[r]), MarksOf(t.rooms[r]));
      } else {
        NewRoomMarks(c, s, e, r);
        assert MarksOf(t.rooms[r]).members == {e.u} && e.u !in AwayAfter(away, e);
      }
    }
  }

  lemma MoveKeepsAwayMarked(s: ServerState, away: set<int>, e: ServerEvent, r: int, m: Marks, n: Marks)
    requires r in s.rooms && m == MarksOf(s.rooms[r]) && MarksMove(s, e, r, m, n)
    requires m.members * away <= m.offline && !RequestOf(e, away)
    ensures n.members * AwayAfter(away, e) <= n.offline
  {
    hide LetInAgain, Admits;
    forall v | v in n.members && v in AwayAfter(away, e)
      ensures v in n.offline
    {
      if v in away && v in m.members {
        assert v in m.members * away;
      }
    }
  }

  /** Quiet messages keep all marks right, but for a login that leaves a mark. */
  lemma HandleKeepsNoneWrong(c: Config, s: ServerState, away: set<int>, e: ServerEvent)
    requires ServerInv(c, s) && IndexLive(s) && Enabled(s, e) && c.roomSize >= 1
    requires NoneWrong(s.rooms, away) && !RequestOf(e, away) && !LeavesMark(s, e)
    ensures NoneWrong(Handle(c, s, e).rooms, AwayAfter(away, e))
  {
    hide ServerInv, Handle, Enabled, IndexLive, LetInAgain, Admits;
    var t := Handle(c, s, e);
    forall r | r in t.rooms
      ensures Wrong(t.rooms[r], AwayAfter(away, e)) == {}
    {
      if r in s.rooms {
        forall v
          ensures v !in Wrong(t.rooms[r], AwayAfter(away, e))
        {
          MarkGoesWrongIff(c, s, away, e, r, v);
          MembersAreIn(c, s, v, r);
        }
      } else {
        NewRoomMarks(c, s, e, r);
      }
    }
  }

  ghost predicate NoMarkLeft(c: Config, es: seq<ServerEvent>) {
    forall i | 0 <= i < |es| :: !LeavesMark(ServerRun(c, Boot(c), es[..i]), es[i])
  }

  lemma NoMarkLeftBefore(c: Config, es: seq<ServerEvent>, e: ServerEvent)
    requires NoMarkLeft(c, es + [e])
    ensures NoMarkLeft(c, es) && !LeavesMark(ServerRun(c, Boot(c), es), e)
  {
    hide LeavesMark, ServerRun;
    var more := es + [e];
    assert forall i | 0 <= i < |es| :: more[i] == es[i] && more[..i] == es[..i];
    assert more[|es|] == e && more[..|es|] == es;
  }

  /** In every run in which users who are away make no requests, members who are away are marked;
      and if no login leaves a mark, all marks are right. */
  lemma {:induction false} RunKeepsMarks(c: Config, es: seq<ServerEvent>)
    requires c.roomSize >= 1 && Completes(c, Boot(c), es) && QuietRun(es)
    ensures AwayAreMarked(ServerRun(c, Boot(c), es).rooms, AwayAmong(es))
    ensures NoMarkLeft(c, es) ==> NoneWrong(ServerRun(c, Boot(c), es).rooms, AwayAmong(es))
    decreases |es|
  {
    hide ServerInv, Handle, Enabled, IndexLive, Completes, QuietRun, NoMarkLeft, LeavesMark, RequestOf, AwayAfter;
    if es == [] {
    } else {
      var before, e := es[..|es| - 1], es[|es| - 1];
      assert es == before + [e];
      LastEvent(c, Boot(c), before, e);
      QuietNext(before, e);
      RunKeepsMarks(c, before);
      BootInv(c);
      ServerRunKeepsInv(c, Boot(c), before);
      var s := ServerRun(c, Boot(c), before);
      hide ServerRun;
      HandleKeepsAwayMarked(c, s, AwayAmong(before), e);
      if NoMarkLeft(c, es) {
        NoMarkLeftBefore(c, before, e);
        HandleKeepsNoneWrong(c, s, AwayAmong(before), e);
      }
    }
  }

  /** So in such runs a room counts as dead iff all its members are away. */
  lemma DeadIsRightInRuns(c: Config, es: seq<ServerEvent>, r: int)
    requires c.roomSize >= 1 && Completes(c, Boot(c), es) && QuietRun(es) && NoMarkLeft(c, es)
    requires r in ServerRun(c, Boot(c), es).rooms
    ensures CheckRoomDead(ServerRun(c, Boot(c), es).rooms[r])
       <==> AllAway(ServerRun(c, Boot(c), es).rooms[r], AwayAmong(es))
  {
    hide ServerRun, Completes, QuietRun, NoMarkLeft, AwayAmong, CheckRoomDead;
    RunKeepsMarks(c, es);
    DeadIsRightIff(ServerRun(c, Boot(c), es).rooms[r], AwayAmong(es));
  }

  /** And a logout then deletes the user's room iff nobody is left there who is not away. */
  lemma LogoutDecidesRightly(c: Config, es: seq<ServerEvent>, u: int, r: int)
    requires c.roomSize >= 1 && Completes(c, Boot(c), es + [UserLogout(u)]) && QuietRun(es) && NoMarkLeft(c, es)
    requires r in ServerRun(c, Boot(c), es).rooms && u in ServerRun(c, Boot(c), es).rooms[r].members
    ensures r !in ServerRun(c, Boot(c), es + [UserLogout(u)]).rooms
       <==> AllAway(ServerRun(c, Boot(c), es).rooms[r], AwayAmong(es + [UserLogout(u)]))
  {
    hide Completes, QuietRun, NoMarkLeft, AwayAmong, CheckRoomDead, ServerInv, RoomInv, SetUserOffline, Destroy,
         ServerRun, Handle, Step;
    LastEvent(c, Boot(c), es, UserLogout(u));
    RunKeepsMarks(c, es);
    AwayNext(es, UserLogout(u));
    BootInv(c);
    ServerRunKeepsInv(c, Boot(c), es);
    var s, away := ServerRun(c, Boot(c), es), AwayAmong(es);
    MembersAreIn(c, s, u, r);
    StepMarks(s.rooms[r], DoSetUserOffline(u));
    var room := Step(s.rooms[r], DoSetUserOffline(u)).room;
    LogoutDeletesIff(c, s, u);
    assert MarksOf(room) == Marks(s.rooms[r].members.Keys, s.rooms[r].offline + {u});
    assert room.members.Keys == MarksOf(room).members;
    StillNoneWrong(s.rooms[r], room, away, u);
    DeadIsRightIff(room, away + {u});
  }

  lemma LogoutDeletesIff(c: Config, s: ServerState, u: int)
    requires ServerInv(c, s) && IndexLive(s) && u in s.userid2roomid
    ensures var r := s.userid2roomid[u];
      r !in Handle(c, s, UserLogout(u)).rooms <==> CheckRoomDead(Step(s.rooms[r], DoSetUserOffline(u)).room)
  {
    hide RoomOk, Lockstep, Step, CheckRoomDead, Destroy;
    var r := s.userid2roomid[u];
    assert r in s.roomidUsing;
  }

  lemma StillNoneWrong(s: RoomState, t: RoomState, away: set<int>, u: int)
    requires s.members.Keys * away <= s.offline && Wrong(s, away) == {} && u in s.members
    requires MarksOf(t) == Marks(s.members.Keys, s.offline + {u})
    ensures t.members.Keys * (away + {u}) <= t.offline && Wrong(t, away + {u}) == {}
  {
    assert t.members.Keys == s.members.Keys && t.offline == s.offline + {u};
    assert forall v | v in s.offline :: v in Wrong(s, away) || v in s.members.Keys * away;
  }

  // ---- leaving the game ----

  /** A member who logs out is still in game afterwards iff it was in game and marked already. */
  lemma LogoutStaysInGameIff(s: RoomState, u: int)
    requires u in s.members
    ensures u in SetUserOffline(s, u).room.inGame <==> u in s.offline && u in s.inGame
  {
    hide LeaveFromGame;
    LeaveFromGameEffect(s.(offline := s.offline + {u}), u);
  }

  /** In quiet runs in which no login leaves a mark, a user who was here and logs out is in no
      game afterwards. */
  lemma LogoutLeavesGame(c: Config, es: seq<ServerEvent>, u: int, r: int)
    requires c.roomSize >= 1 && Completes(c, Boot(c), es + [UserLogout(u)]) && QuietRun(es) && NoMarkLeft(c, es)
    requires u !in AwayAmong(es)
    requires r in ServerRun(c, Boot(c), es + [UserLogout(u)]).rooms
    ensures u !in ServerRun(c, Boot(c), es + [UserLogout(u)]).rooms[r].inGame
  {
    hide Completes, QuietRun, NoMarkLeft, AwayAmong, ServerRun, Handle, ServerInv, EventsFor, Performs, RoomInv;
    var e := UserLogout(u);
    LastEvent(c, Boot(c), es, e);
    RunKeepsMarks(c, es);
    BootInv(c);
    ServerRunKeepsInv(c, Boot(c), es);
    var s := ServerRun(c, Boot(c), es);
    OldRoom(c, s, u, r);
    HandleActs(c, s, e, r);
    MembersAreIn(c, s, u, r);
    PerformedLogout(s, u, r, Handle(c, s, e).rooms[r]);
    if u in s.rooms[r].members {
      assert u !in Wrong(s.rooms[r], AwayAmong(es));
      LogoutStaysInGameIff(s.rooms[r], u);
    } else {
      OutsidersDoNotPlay(s.rooms[r], u);
    }
  }

  lemma OldRoom(c: Config, s: ServerState, u: int, r: int)
    requires ServerInv(c, s) && IndexLive(s) && r in Handle(c, s, UserLogout(u)).rooms
    ensures r in s.rooms
  {
    hide ServerInv, Handle;
    if r !in s.rooms {
      HandleCreates(c, s, UserLogout(u), r);
    }
  }

  lemma PerformedLogout(s: ServerState, u: int, r: int, t: RoomState)
    requires r in s.rooms && Performs(s.rooms[r], EventsFor(s, UserLogout(u), r), t)
    ensures t == if In(s, u, r) then SetUserOffline(s.rooms[r], u).room else s.rooms[r]
  {
    hide Performs, SetUserOffline;
    if In(s, u, r) {
      PerformedOne(s.rooms[r], DoSetUserOffline(u), t);
    } else {
      PerformedNothing(s.rooms[r], t);
    }
  }

  lemma OutsidersDoNotPlay(s: RoomState, u: int)
    requires RoomInv(s) && u !in s.members
    ensures u !in s.inGame
  {
  }
}
