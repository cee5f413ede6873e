/** What each operation of a room does, field by field: which fields change and to what, what
    each notice says, and that everything else stays as it was. */
module RoomEffects {
  import opened Basics
  import opened Messages
  import opened RoomModel
  import opened RoomShutdown
  import opened RoomInvariant

  /** A new room has everybody's pid free and nobody in it. */
  lemma FreshRoom(id: int, name: string, size: nat, seed: int, chase: bool, frameId: int)
    ensures var s := Fresh(id, name, size, seed, chase, frameId);
      && s.id == id && s.name == name && s.size == size && s.seed == seed && s.chase == chase
      && !s.started && s.host == -1 && s.offline == {} && s.allFrames == [] && s.frame.operates == []
      && (forall p :: p in s.pool <==> 1 <= p <= size)
      && s.members == map[] && s.roles == map[] && s.names == map[] && s.inGame == map[]
  {
  }

  // ---- joining and leaving the room ----

  /** The least free pid. */
  ghost predicate Least(p: int, pool: set<int>) {
    p in pool && forall q | q in pool :: p <= q
  }

  /** A user is let in iff no game runs, fewer than `size` users are in, and it is not one of
      them. It then has the least free pid, role 1 and its name, and hosts the room if nobody
      did. */
  lemma JoinRoomLetsIn(s: RoomState, u: int, name: string)
    requires RoomInv(s) && !s.started && |s.members| < s.size && u !in s.members
    ensures var o := JoinRoom(s, u, name);
      && u in o.room.members && Least(o.room.members[u], s.pool)
      && o.room == s.(members := s.members[u := o.room.members[u]],
                      pool := s.pool - {o.room.members[u]},
                      roles := s.roles[u := 1],
                      names := s.names[u := name],
                      host := if s.host == -1 then u else s.host)
      && o.sent != [] && o.sent[0] == Sent(u, JoinRoomReply(true, s.id, Entered))
  {
    hide InfoToAll;
    NotFullHasFreePid(s);
  }

  /** Otherwise nothing happens, and the user alone is told the first reason that applies. */
  lemma JoinRoomRefuses(s: RoomState, u: int, name: string)
    requires s.started || |s.members| >= s.size || u in s.members
    ensures JoinRoom(s, u, name).room == s
    ensures JoinRoom(s, u, name).sent ==
            [Sent(u, JoinRoomReply(false, -1,
                                   if s.started then GameRunning
                                   else if |s.members| >= s.size then RoomFull
                                   else AlreadyInside))]
  {
  }

  /** A member who leaves gives back its pid and is on no list any more; if it was the host, the
      first member left is, or nobody. The game ends when the last player goes. */
  lemma LeaveFromRoomTakesOut(s: RoomState, u: int)
    requires RoomInv(s) && u in s.members
    ensures var t := LeaveFromRoom(s, u).room;
      && t == s.(members := s.members - {u},
                 pool := s.pool + {s.members[u]},
                 roles := s.roles - {u},
                 names := s.names - {u},
                 inGame := s.inGame - {u},
                 started := s.inGame.Keys - {u} != {},
                 host := t.host)
      && (s.host != u ==> t.host == s.host)
      && (s.host == u ==> if s.members.Keys == {u} then t.host == -1 else Least(t.host, s.members.Keys - {u}))
  {
    hide LeaveFromRoom, PidInv, RosterInv, LogInv, AfterLeaving;
    LeaveFromRoomEffect(s, u);
    AfterOneLeaves(s, u);
    var left := s.members - {u};
    assert left.Keys == s.members.Keys - {u};
    assert left == map[] <==> left.Keys == {};
  }

  /** The game goes on iff somebody else plays. */
  lemma AfterOneLeaves(s: RoomState, u: int)
    requires GameInv(s)
    ensures AfterLeaving(s, {u}) == s.(inGame := s.inGame - {u}, started := s.inGame.Keys - {u} != {})
  {
    assert (s.inGame - {u}).Keys == s.inGame.Keys - {u};
    assert s.inGame - {u} == map[] <==> s.inGame.Keys - {u} == {};
    assert s.inGame == map[] <==> s.inGame.Keys == {};
  }

  /** Nobody else can leave: the user is told so, and nothing happens. */
  lemma LeaveFromRoomRefuses(s: RoomState, u: int)
    requires RoomInv(s) && u !in s.members
    ensures LeaveFromRoom(s, u) == Outcome(s, [Sent(u, LeaveRoomReply(false, 0))])
  {
    assert u !in s.inGame;
    assert [] + [Sent(u, LeaveRoomReply(false, 0))] == [Sent(u, LeaveRoomReply(false, 0))];
  }

  /** Leaving the game first makes no difference to where leaving the room leads. */
  lemma LeaveIsLeaveFromRoom(s: RoomState, u: int)
    ensures Leave(s, u).room == LeaveFromRoom(s, u).room
  {
    hide LeaveFromGame, LeaveFromRoom;
    LeaveFromGameEffect(s, u);
    LeaveFromRoomEffect(s, u);
    LeaveFromRoomEffect(AfterLeaving(s, {u}), u);
    AfterLeavingTwice(s, {u}, {u});
    assert {u} + {u} == {u};
  }

  lemma {:induction false} KickFromRoomTakesOut(s: RoomState, users: seq<int>)
    requires RoomInv(s)
    ensures KickFromRoom(s, users).room.members == s.members - SetOf(users)
    decreases |users|
  {
    hide LeaveFromRoom, RoomInv, SetOf;
    if users == [] {
      assert SetOf(users) == {} by { NobodyListed(); }
      assert s.members - {} == s.members;
    } else {
      hide KickFromRoom;
      SetOfSplit(users);
      LeaveFromRoomKeepsInv(s, users[0]);
      LeaveFromRoomMembers(s, users[0]);
      KickFromRoomTakesOut(LeaveFromRoom(s, users[0]).room, users[1..]);
      KickFromRoomOnce(s, users);
      MinusBoth(s.members, {users[0]}, SetOf(users[1..]));
    }
  }

  lemma NobodyListed()
    ensures SetOf([]) == {}
  {
  }

  lemma MinusBoth(m: map<int, int>, a: set<int>, b: set<int>)
    ensures m - a - b == m - (a + b)
  {
  }

  lemma KickFromRoomOnce(s: RoomState, users: seq<int>)
    requires users != []
    ensures KickFromRoom(s, users).room == KickFromRoom(LeaveFromRoom(s, users[0]).room, users[1..]).room
  {
    hide LeaveFromRoom;
  }

  lemma LeaveFromRoomMembers(s: RoomState, u: int)
    ensures LeaveFromRoom(s, u).room.members == s.members - {u}
  {
    hide LeaveFromRoom;
    LeaveFromRoomEffect(s, u);
    if u !in s.members {
      assert s.members - {u} == s.members;
    }
  }

  /** A room that is deleted is empty then, with all pids free, and every player of its game has
      been told that it is over. */
  lemma DestroyEmpties(s: RoomState)
    requires RoomInv(s)
    ensures var t := Destroy(s).room;
      && t.members == map[] && t.roles == map[] && t.names == map[] && t.inGame == map[]
      && t.host == -1 && !t.started && t.pool == UpTo(s.size)
  {
    hide RoomInv, KickFromRoom, EndGame;
    EndGameEffect(s);
    AfterEndKeepsInv(s);
    var e := AfterEnd(s);
    var users := Ascending(e.members.Keys);
    KickFromRoomTakesOut(e, users);
    KickFromRoomKeepsInv(e, users);
    assert e.members - SetOf(users) == map[];
    KickFromRoomSize(e, users);
    EmptyRoom(KickFromRoom(e, users).room);
  }

  /** Deleting a room tells each player of a running game that it is over, once, and nobody
      when no game runs. */
  lemma DestroyNotifies(s: RoomState)
    ensures EndNotices(Destroy(s).sent) == if s.started then Ascending(s.inGame.Keys) else []
  {
    hide EndGame, KickFromRoom, EndNotices, Ascending;
    var e := EndGame(s);
    var users := Ascending(e.room.members.Keys);
    EndNoticesOfEnd(s);
    KickingOutNotifiesNobody(e.room, users);
    EndNoticesOfSum(e.sent, KickFromRoom(e.room, users).sent);
  }

  lemma EndNoticesOfEnd(s: RoomState)
    ensures EndNotices(EndGame(s).sent) == if s.started then Ascending(s.inGame.Keys) else []
  {
    if s.started {
      hide EndGame;
      EndGameNotices(s);
    }
  }

  lemma {:induction false} KickingOutNotifiesNobody(s: RoomState, users: seq<int>)
    ensures EndNotices(KickFromRoom(s, users).sent) == []
    decreases |users|
  {
    hide LeaveFromRoom;
    if users == [] {
    } else {
      var a := LeaveFromRoom(s, users[0]);
      LeavingRoomNotifiesNobody(s, users[0]);
      KickingOutNotifiesNobody(a.room, users[1..]);
      EndNoticesOfSum(a.sent, KickFromRoom(a.room, users[1..]).sent);
    }
  }

  lemma LeavingRoomNotifiesNobody(s: RoomState, u: int)
    ensures EndNotices(LeaveFromRoom(s, u).sent) == []
  {
    hide LeaveFromGame, InfoToAll;
    var g := LeaveFromGame(s, u);
    LeavingNotifiesNobody(s, u);
    if u in g.room.members {
      InfoNotifiesNobody(RemoveMember(g.room, u));
      EndNoticesOfSum(g.sent, InfoToAll(RemoveMember(g.room, u)));
    } else {
      EndNoticesOfSum(g.sent, [Sent(u, LeaveRoomReply(false, 0))]);
    }
  }

  lemma {:induction false} KickFromRoomSize(s: RoomState, users: seq<int>)
    ensures KickFromRoom(s, users).room.size == s.size
    decreases |users|
  {
    hide LeaveFromRoom;
    if users == [] {
    } else {
      LeaveFromRoomEffect(s, users[0]);
      KickFromRoomSize(LeaveFromRoom(s, users[0]).room, users[1..]);
    }
  }

  lemma EmptyRoom(s: RoomState)
    requires RoomInv(s) && s.members == map[]
    ensures s.roles == map[] && s.names == map[] && s.inGame == map[]
    ensures s.host == -1 && !s.started && s.pool == UpTo(s.size)
  {
    NobodyPlays(s);
    assert s.roles.Keys == {} && s.names.Keys == {};
    assert s.pool <= UpTo(s.size) && |s.pool| == |UpTo(s.size)|;
    SubsetOfSameSize(s.pool, {}, UpTo(s.size));
    assert s.pool + {} == s.pool;
  }

  // ---- the operations of a frame ----

  /** A member joins the frame of a running game with operation type 1, its role and its pid. */
  lemma JoinGameIsQueued(s: RoomState, u: int)
    requires RosterInv(s)
    ensures s.started && u in s.members ==>
              NotifyUserJoinGame(s, u) ==
              s.(frame := Frame(s.frame.frameId, s.frame.operates + [UserOperate([s.roles[u]], 1, s.members[u])]))
    ensures !s.started || u !in s.members ==> NotifyUserJoinGame(s, u) == s
  {
  }

  /** A player leaves it with type 2 and its pid. */
  lemma QuitGameIsQueued(s: RoomState, u: int)
    ensures s.started && u in s.inGame ==>
              NotifyUserQuitGame(s, u) ==
              s.(frame := Frame(s.frame.frameId, s.frame.operates + [UserOperate([], 2, s.inGame[u])]))
    ensures !s.started || u !in s.inGame ==> NotifyUserQuitGame(s, u) == s
  {
  }

  /** An operation keeps type and data, whatever pid its sender claims. */
  lemma OperateIsQueued(s: RoomState, u: int, op: UserOperate)
    ensures s.started && u in s.members ==>
              OnUserOperate(s, u, op) ==
              s.(frame := Frame(s.frame.frameId,
                                s.frame.operates + [UserOperate(op.data, op.opt, s.members[u])]))
    ensures !s.started || u !in s.members ==> OnUserOperate(s, u, op) == s
  {
  }

  // ---- the game ----

  /** The host of an idle room starts a game: every member plays under its pid, the counter and
      the log start over, the first frame holds one operation per member, and each is told the
      room, the seed and its pid. */
  lemma StartGameStarts(s: RoomState, u: int)
    requires RoomInv(s) && !s.started && u == s.host
    ensures var o := StartGame(s, u);
      var users := Ascending(s.members.Keys);
      && o.room == s.(started := true, frameId := 0, allFrames := [], inGame := s.members, frame := o.room.frame)
      && o.room.frame.frameId == s.frame.frameId && |o.room.frame.operates| == |users|
      && (forall i | 0 <= i < |users| :: users[i] in s.members && users[i] in s.roles
            && o.room.frame.operates[i] == UserOperate([s.roles[users[i]]], 1, s.members[users[i]]))
      && |o.sent| >= |users|
      && (forall i | 0 <= i < |users| :: users[i] in s.members
            && o.sent[i] == Sent(users[i], StartGameNotice(s.id, s.seed, s.members[users[i]])))
  {
    hide InfoToAll, JoinAll, StartNotices, JoinOperates, PidInv, GameInv, LogInv;
    var users := Ascending(s.members.Keys);
    StartGameEffect(s, u);
    SetOfAscending(s.members.Keys);
    hide SetOf, Ascending;
    MembersByIndex(s, users);
    StartNoticesByIndex(Cleared(s), users);
    JoinOperatesByIndex(s, users);
    assert StartGame(s, u).sent == StartNotices(Cleared(s), users) + InfoToAll(JoinAll(Cleared(s), users));
  }

  lemma SetOfAscending(s: set<int>)
    ensures SetOf(Ascending(s)) == s
  {
  }

  lemma MembersByIndex(s: RoomState, users: seq<int>)
    requires RosterInv(s) && SetOf(users) == s.members.Keys
    ensures forall i | 0 <= i < |users| :: users[i] in s.members && users[i] in s.roles
  {
    forall i | 0 <= i < |users|
      ensures users[i] in s.members && users[i] in s.roles
    {
      assert users[i] in SetOf(users);
      assert s.roles.Keys == s.members.Keys;
    }
  }

  lemma JoinOperatesByIndex(s: RoomState, users: seq<int>)
    requires forall i | 0 <= i < |users| :: users[i] in s.members && users[i] in s.roles
    ensures |JoinOperates(s, users)| == |users|
    ensures forall i | 0 <= i < |users| ::
              JoinOperates(s, users)[i] == UserOperate([s.roles[users[i]]], 1, s.members[users[i]])
  {
  }

  lemma StartNoticesByIndex(s: RoomState, users: seq<int>)
    requires forall i | 0 <= i < |users| :: users[i] in s.members
    ensures |StartNotices(s, users)| == |users|
    ensures forall i | 0 <= i < |users| ::
              StartNotices(s, users)[i] == Sent(users[i], StartGameNotice(s.id, s.seed, s.members[users[i]]))
  {
  }

  /** Nobody else can start one, and there is only one at a time. */
  lemma StartGameRefuses(s: RoomState, u: int)
    requires s.started || u != s.host
    ensures StartGame(s, u) == Outcome(s, [])
  {
  }

  /** A tick closes the pending frame under the next number, sends it to each player and to
      nobody else, and logs it if replays are on. */
  lemma TickSendsTheFrame(s: RoomState)
    ensures s.started ==>
      var o := Tick(s);
      var users := Ascending(s.inGame.Keys);
      var f := Frame(s.frameId + 1, s.frame.operates);
      && o.room == s.(frameId := s.frameId + 1,
                      frame := Frame(s.frameId + 1, []),
                      allFrames := if s.chase then s.allFrames + [f] else s.allFrames)
      && |o.sent| == |users|
      && (forall i | 0 <= i < |users| :: o.sent[i] == Sent(users[i], FrameNotice(f)))
    ensures !s.started ==> Tick(s) == Outcome(s, [])
  {
  }

  /** A member who reconnects is told its pid, the room, whether it is the host, and the seed;
      then that the game starts; then all frames so far. It is marked online, and if a game runs
      it plays again and is announced. */
  lemma ReconnectBringsBack(s: RoomState, u: int)
    requires RosterInv(s) && u in s.members
    ensures Reconnect(s, u).sent ==
            [Sent(u, ReconnectNotice(s.members[u], s.id, s.host == u, s.seed)),
             Sent(u, StartGameNotice(s.id, s.seed, s.members[u])),
             Sent(u, ChaseFrameNotice(GameReplay(s.allFrames)))]
    ensures Reconnect(s, u).room ==
            if s.started then
              s.(offline := s.offline - {u},
                 inGame := s.inGame[u := s.members[u]],
                 frame := Frame(s.frame.frameId,
                                s.frame.operates + [UserOperate([s.roles[u]], 1, s.members[u])]))
            else s.(offline := s.offline - {u})
  {
  }

  lemma ReconnectRefuses(s: RoomState, u: int)
    requires u !in s.members
    ensures Reconnect(s, u) == Outcome(s, [])
  {
  }

  /** Every EndGame notice of an end of game names the room. */
  lemma EndGameNamesTheRoom(s: RoomState)
    ensures forall x | x in EndGame(s).sent && x.notice.EndGameNotice? :: x.notice.roomid == s.id
  {
    EndNamesTheRoom(s);
  }

  ghost predicate NamesRoom(sent: seq<Sent>, id: int) {
    forall x | x in sent && x.notice.EndGameNotice? :: x.notice.roomid == id
  }

  lemma {:induction false} EndNamesTheRoom(s: RoomState)
    ensures NamesRoom(EndGame(s).sent, s.id)
    decreases |s.inGame.Keys|, s.started, 0
  {
    hide KickFromGame, Ascending;
    if s.started {
      var users := Ascending(s.inGame.Keys);
      var k := KickFromGame(s.(started := false), users);
      KickNamesTheRoom(s.(started := false), users);
      assert NamesRoom(Broadcast(users, EndGameNotice(s.id)), s.id) && NamesRoom(InfoToAll(k.room), s.id);
    }
  }

  lemma {:induction false} KickNamesTheRoom(s: RoomState, users: seq<int>)
    ensures NamesRoom(KickFromGame(s, users).sent, s.id)
    decreases |s.inGame.Keys|, s.started, |users| + 1
  {
    hide LeaveFromGame;
    if users == [] {
    } else {
      var a := LeaveFromGame(s, users[0]);
      LeaveNamesTheRoom(s, users[0]);
      LeaveFromGameEffect(s, users[0]);
      KickNamesTheRoom(a.room, users[1..]);
    }
  }

  lemma {:induction false} LeaveNamesTheRoom(s: RoomState, u: int)
    ensures NamesRoom(LeaveFromGame(s, u).sent, s.id)
    decreases |s.inGame.Keys|, s.started, 0
  {
    hide EndGame;
    if u in s.inGame {
      var erased := s.(inGame := Without(s.inGame, u));
      assert erased.inGame.Keys == s.inGame.Keys - {u};
      if erased.inGame == map[] {
        EndNamesTheRoom(erased);
      }
    }
  }

  /** A member who drops out is marked and plays no more; the game ends with its last player. */
  lemma SetUserOfflineMarks(s: RoomState, u: int)
    requires GameInv(s)
    ensures SetUserOffline(s, u).room ==
            if u !in s.members || u in s.offline then s
            else s.(offline := s.offline + {u}, inGame := s.inGame - {u}, started := s.inGame.Keys - {u} != {})
  {
    hide LeaveFromGame, AfterLeaving;
    var marked := s.(offline := s.offline + {u});
    LeaveFromGameEffect(marked, u);
    AfterOneLeaves(marked, u);
  }

  /** A change of role changes the role of that member, and nothing else. */
  lemma UserInfoChangeSetsRole(s: RoomState, u: int, role: int)
    ensures var t := UserInfoChange(s, u, role).room;
      && t == s.(roles := t.roles)
      && (u in s.members ==> u in t.roles && t.roles[u] == role)
      && (u !in s.members ==> t.roles == s.roles && UserInfoChange(s, u, role).sent == [])
      && (forall v | v != u :: (v in t.roles <==> v in s.roles) && (v in s.roles ==> t.roles[v] == s.roles[v]))
  {
  }
}
