/** What the members of a room are shown of it: who is told the roster and when, and that a
    member's role and name are the last ones it gave. */
module RoomRoster {
  import opened Basics
  import opened Messages
  import opened RoomModel
  import opened RoomShutdown
  import opened RoomInvariant
  import opened RoomGame
  import opened RoomHistory
  import opened RoomEffects

  // ---- what a roster says ----

  /** The entry says of its user what the room knows. */
  ghost predicate EntryShows(x: UserInfo, s: RoomState) {
    && x.userid in s.members && x.userid in s.names && x.userid in s.roles
    && x.username == s.names[x.userid]
    && x.userpid == s.members[x.userid]
    && x.roleId == s.roles[x.userid]
    && (x.isRoomHost <==> x.userid == s.host)
    && (x.inGame <==> x.userid in s.inGame)
  }

  /** The notice shows room `s`: its id, whether its game runs, and each member once, in
      ascending order. */
  ghost predicate Shows(n: Notice, s: RoomState) {
    && n.RoomInfoNotice?
    && n.roomid == s.id
    && (n.gameStart <==> s.started)
    && |n.users| == |s.members|
    && (forall i, j | 0 <= i < j < |n.users| :: n.users[i].userid < n.users[j].userid)
    && (forall i | 0 <= i < |n.users| :: EntryShows(n.users[i], s))
  }

  /** `users` lists the members, each once. */
  ghost predicate Lists(users: seq<int>, s: RoomState) {
    && |users| == |s.members| && Increasing(users)
    && (forall i | 0 <= i < |users| :: users[i] in s.members)
    && (forall u | u in s.members :: exists i :: 0 <= i < |users| && users[i] == u)
  }

  lemma KeysListMembers(s: RoomState, keys: set<int>)
    requires keys == s.members.Keys
    ensures Lists(Ascending(keys), s)
  {
    var users := Ascending(keys);
    forall i | 0 <= i < |users|
      ensures users[i] in s.members
    {
      assert users[i] in users;
    }
    forall u | u in s.members
      ensures exists i :: 0 <= i < |users| && users[i] == u
    {
      assert u in users;
    }
  }

  lemma RoomInfoShows(s: RoomState)
    requires RosterInv(s)
    ensures Shows(RoomInfo(s), s)
  {
    hide Shows, InfosOf, Lists;
    KeysListMembers(s, s.names.Keys);
    hide Ascending;
    InfosShow(s, Ascending(s.names.Keys));
  }

  lemma InfosShow(s: RoomState, users: seq<int>)
    requires RosterInv(s) && Lists(users, s)
    ensures Shows(RoomInfoNotice(s.id, s.started, InfosOf(s, users)), s)
  {
    hide EntryShows;
    forall i | 0 <= i < |users|
      ensures EntryShows(InfosOf(s, users)[i], s) && InfosOf(s, users)[i].userid == users[i]
    {
      EntryOf(s, users[i]);
    }
  }

  lemma EntryOf(s: RoomState, u: int)
    requires RosterInv(s) && u in s.members
    ensures EntryShows(InfoOf(s, u), s)
  {
    assert u in s.names.Keys && u in s.roles.Keys;
  }

  /** The broadcast reaches each member exactly once, in ascending order, nobody else, and shows
      the room. */
  lemma InfoReachesEachMemberOnce(s: RoomState)
    requires RosterInv(s)
    ensures |InfoToAll(s)| == |s.members|
    ensures forall i, j | 0 <= i < j < |InfoToAll(s)| :: InfoToAll(s)[i].to < InfoToAll(s)[j].to
    ensures forall i | 0 <= i < |InfoToAll(s)| :: InfoToAll(s)[i].to in s.members && Shows(InfoToAll(s)[i].notice, s)
    ensures forall u | u in s.members :: exists i :: 0 <= i < |InfoToAll(s)| && InfoToAll(s)[i].to == u
  {
    hide Shows, RoomInfo, Lists, Broadcast;
    RoomInfoShows(s);
    KeysListMembers(s, s.roles.Keys);
    hide Ascending, RosterInv;
    BroadcastReaches(s, Ascending(s.roles.Keys), RoomInfo(s));
  }

  lemma BroadcastReaches(s: RoomState, users: seq<int>, n: Notice)
    requires Lists(users, s)
    ensures |Broadcast(users, n)| == |s.members|
    ensures forall i, j | 0 <= i < j < |Broadcast(users, n)| :: Broadcast(users, n)[i].to < Broadcast(users, n)[j].to
    ensures forall i | 0 <= i < |Broadcast(users, n)| ::
              Broadcast(users, n)[i].to in s.members && Broadcast(users, n)[i].notice == n
    ensures forall u | u in s.members :: exists i :: 0 <= i < |Broadcast(users, n)| && Broadcast(users, n)[i].to == u
  {
    forall u | u in s.members
      ensures exists i :: 0 <= i < |Broadcast(users, n)| && Broadcast(users, n)[i].to == u
    {
      var i :| 0 <= i < |users| && users[i] == u;
      assert Broadcast(users, n)[i].to == u;
    }
  }

  // ---- the last roster a user was sent ----

  function LastInfo(log: seq<Sent>, u: int): Option<Notice> {
    if log == [] then None
    else
      var last := log[|log| - 1];
      if last.to == u && last.notice.RoomInfoNotice? then Some(last.notice) else LastInfo(log[..|log| - 1], u)
  }

  /** The last roster that each member was sent shows the room. */
  ghost predicate Informed(s: RoomState, log: seq<Sent>) {
    forall u | u in s.members :: LastInfo(log, u).Some? && Shows(LastInfo(log, u).value, s)
  }

  ghost predicate NoInfo(sent: seq<Sent>) {
    forall x | x in sent :: !x.notice.RoomInfoNotice?
  }

  lemma LastInfoNext(log: seq<Sent>, x: Sent, u: int)
    ensures LastInfo(log + [x], u) ==
            if x.to == u && x.notice.RoomInfoNotice? then Some(x.notice) else LastInfo(log, u)
  {
    assert (log + [x])[..|log|] == log;
  }

  lemma {:induction false} LastInfoUnaffected(log: seq<Sent>, tail: seq<Sent>, u: int)
    requires NoInfo(tail)
    ensures LastInfo(log + tail, u) == LastInfo(log, u)
    decreases |tail|
  {
    if tail == [] {
      assert log + tail == log;
    } else {
      var n := |tail| - 1;
      assert log + tail == (log + tail[..n]) + [tail[n]];
      LastInfoNext(log + tail[..n], tail[n], u);
      LastInfoUnaffected(log, tail[..n], u);
    }
  }

  /** Whoever is among the addressees of a broadcast has it as its last roster. */
  lemma {:induction false} LastInfoOfBroadcast(log: seq<Sent>, sent: seq<Sent>, u: int, i: nat)
    requires i < |sent| && sent[i].to == u
    requires forall j | 0 <= j < |sent| :: sent[j].notice == sent[i].notice && sent[j].notice.RoomInfoNotice?
    ensures LastInfo(log + sent, u) == Some(sent[i].notice)
    decreases |sent|
  {
    var n := |sent| - 1;
    assert log + sent == (log + sent[..n]) + [sent[n]];
    LastInfoNext(log + sent[..n], sent[n], u);
    if sent[n].to != u {
      LastInfoOfBroadcast(log, sent[..n], u, i);
    }
  }

  /** After the broadcast everybody is informed, whatever was sent before. */
  lemma BroadcastInforms(s: RoomState, log: seq<Sent>)
    requires RosterInv(s)
    ensures Informed(s, log + InfoToAll(s))
  {
    hide RoomInfo, Shows, LastInfo, InfoToAll, RosterInv;
    RoomInfoShows(s);
    InfoReachesEachMemberOnce(s);
    forall u | u in s.members
      ensures LastInfo(log + InfoToAll(s), u) == Some(RoomInfo(s))
    {
      var i :| 0 <= i < |InfoToAll(s)| && InfoToAll(s)[i].to == u;
      InfoIsRoomInfo(s);
      LastInfoOfBroadcast(log, InfoToAll(s), u, i);
    }
  }

  lemma InfoIsRoomInfo(s: RoomState)
    ensures forall i | 0 <= i < |InfoToAll(s)| :: InfoToAll(s)[i].notice == RoomInfo(s)
    ensures RoomInfo(s).RoomInfoNotice?
  {
  }

  lemma EndsInformed(s: RoomState, log: seq<Sent>, before: seq<Sent>)
    requires RosterInv(s)
    ensures Informed(s, log + (before + InfoToAll(s)))
  {
    hide Informed, InfoToAll;
    BroadcastInforms(s, log + before);
    assert log + before + InfoToAll(s) == log + (before + InfoToAll(s));
  }

  /** What is shown of a room does not depend on frames and offline marks. */
  ghost predicate LooksAlike(s: RoomState, t: RoomState) {
    && t.id == s.id && t.started == s.started && t.host == s.host
    && t.members == s.members && t.names == s.names && t.roles == s.roles && t.inGame == s.inGame
  }

  lemma StaysInformed(s: RoomState, t: RoomState, log: seq<Sent>, sent: seq<Sent>)
    requires LooksAlike(s, t) && NoInfo(sent)
    ensures Informed(s, log) <==> Informed(t, log + sent)
  {
    hide LastInfo;
    forall u
      ensures LastInfo(log + sent, u) == LastInfo(log, u)
    {
      LastInfoUnaffected(log, sent, u);
    }
    assert forall n :: Shows(n, s) <==> Shows(n, t);
  }

  // ---- which operations inform ----

  /** The operation shows the members its outcome. */
  predicate Broadcasts(s: RoomState, e: RoomEvent) {
    match e
    case DoJoinRoom(u, _) => !s.started && |s.members| < s.size && u !in s.members
    case DoLeave(u) => u in s.members
    case DoLeaveFromRoom(u) => u in s.members
    case DoLeaveFromGame(u) => u in s.inGame
    case DoStartGame(u) => !s.started && u == s.host
    case DoEndGame => s.started
    case DoSetUserOffline(u) => u in s.inGame && u !in s.offline
    case DoUserInfoChange(u, _) => u in s.members
    case _ => false
  }

  /** A member of a running game that is not playing reconnects. */
  predicate Rejoins(s: RoomState, e: RoomEvent) {
    e.DoReconnect? && s.started && e.u in s.members && e.u !in s.inGame
  }

  lemma JoinInforms(s: RoomState, u: int, name: string, log: seq<Sent>)
    requires RoomInv(s) && Broadcasts(s, DoJoinRoom(u, name))
    ensures Informed(JoinRoom(s, u, name).room, log + JoinRoom(s, u, name).sent)
  {
    hide InfoToAll, Informed, PidInv, GameInv, LogInv, Admit;
    hide RosterInv;
    JoinRoomInv(s, u, name);
    EndsInformed(Admit(s, u, name), log, [Sent(u, JoinRoomReply(true, s.id, Entered))]);
  }

  lemma JoinRoomInv(s: RoomState, u: int, name: string)
    requires RoomInv(s) && Admits(s, u)
    ensures RosterInv(Admit(s, u, name))
  {
    JoinRoomKeepsInv(s, u, name);
  }

  lemma LeaveFromGameInforms(s: RoomState, u: int, log: seq<Sent>)
    requires RosterInv(s)
    ensures u in s.inGame || Informed(s, log) ==> Informed(LeaveFromGame(s, u).room, log + LeaveFromGame(s, u).sent)
  {
    hide InfoToAll, Informed, EndGame;
    LeaveFromGameEffect(s, u);
    if u in s.inGame {
      var erased := NotifyUserQuitGame(s.(inGame := Without(s.inGame, u)), u);
      var e := if erased.inGame == map[] then EndGame(erased) else Outcome(erased, []);
      assert RosterInv(LeaveFromGame(s, u).room);
      EndsInformed(e.room, log, e.sent);
    } else {
      assert log + [] == log;
    }
  }

  lemma LeaveFromRoomInforms(s: RoomState, u: int, log: seq<Sent>)
    requires RoomInv(s)
    ensures u in s.members || Informed(s, log) ==> Informed(LeaveFromRoom(s, u).room, log + LeaveFromRoom(s, u).sent)
  {
    hide InfoToAll, Informed, LeaveFromGame, RemoveMember;
    if u in s.members {
      LeaveFromRoomKeepsInv(s, u);
      var g := LeaveFromGame(s, u);
      LeaveFromGameEffect(s, u);
      assert RosterInv(LeaveFromRoom(s, u).room);
      EndsInformed(RemoveMember(g.room, u), log, g.sent);
    } else {
      LeaveFromRoomRefuses(s, u);
      StaysInformed(s, s, log, [Sent(u, LeaveRoomReply(false, 0))]);
    }
  }

  lemma LeaveInforms(s: RoomState, u: int, log: seq<Sent>)
    requires RoomInv(s)
    ensures u in s.members || Informed(s, log) ==> Informed(Leave(s, u).room, log + Leave(s, u).sent)
  {
    hide Informed, LeaveFromGame, LeaveFromRoom;
    var g := LeaveFromGame(s, u);
    LeaveFromGameEffect(s, u);
    AfterLeavingKeepsInv(s, {u});
    LeaveFromGameInforms(s, u, log);
    LeaveFromRoomInforms(g.room, u, log + g.sent);
    assert log + g.sent + LeaveFromRoom(g.room, u).sent == log + (g.sent + LeaveFromRoom(g.room, u).sent);
  }

  lemma EndGameInforms(s: RoomState, log: seq<Sent>)
    requires RosterInv(s)
    ensures s.started || Informed(s, log) ==> Informed(EndGame(s).room, log + EndGame(s).sent)
  {
    hide InfoToAll, Informed, KickFromGame;
    EndGameEffect(s);
    if s.started {
      var users := Ascending(s.inGame.Keys);
      var k := KickFromGame(s.(started := false), users);
      assert RosterInv(EndGame(s).room);
      EndsInformed(k.room, log, Broadcast(users, EndGameNotice(s.id)) + k.sent);
    } else {
      assert log + [] == log;
    }
  }

  lemma {:induction false} KickFromGameInforms(s: RoomState, users: seq<int>, log: seq<Sent>)
    requires RosterInv(s) && Informed(s, log)
    ensures Informed(KickFromGame(s, users).room, log + KickFromGame(s, users).sent)
    decreases |users|
  {
    hide Informed, LeaveFromGame;
    if users == [] {
      assert log + [] == log;
    } else {
      var a := LeaveFromGame(s, users[0]);
      LeaveFromGameInforms(s, users[0], log);
      LeaveFromGameEffect(s, users[0]);
      var b := KickFromGame(a.room, users[1..]);
      KickFromGameInforms(a.room, users[1..], log + a.sent);
      assert log + a.sent + b.sent == log + (a.sent + b.sent);
    }
  }

  lemma {:induction false} KickFromRoomInforms(s: RoomState, users: seq<int>, log: seq<Sent>)
    requires RoomInv(s) && Informed(s, log)
    ensures Informed(KickFromRoom(s, users).room, log + KickFromRoom(s, users).sent)
    decreases |users|
  {
    hide Informed, LeaveFromRoom, RoomInv;
    if users == [] {
      assert log + [] == log;
    } else {
      var a := LeaveFromRoom(s, users[0]);
      LeaveFromRoomInforms(s, users[0], log);
      LeaveFromRoomKeepsInv(s, users[0]);
      var b := KickFromRoom(a.room, users[1..]);
      KickFromRoomInforms(a.room, users[1..], log + a.sent);
      assert log + a.sent + b.sent == log + (a.sent + b.sent);
    }
  }

  lemma StartGameInforms(s: RoomState, u: int, log: seq<Sent>)
    requires RoomInv(s)
    ensures (!s.started && u == s.host) || Informed(s, log) ==>
              Informed(StartGame(s, u).room, log + StartGame(s, u).sent)
  {
    hide InfoToAll, Informed, JoinAll, StartNotices;
    if Starts(s, u) {
      var users := Ascending(s.members.Keys);
      StartGameEffect(s, u);
      assert RosterInv(StartGame(s, u).room);
      EndsInformed(StartGame(s, u).room, log, StartNotices(Cleared(s), users));
    } else {
      assert log + [] == log;
    }
  }

  lemma UserInfoChangeInforms(s: RoomState, u: int, role: int, log: seq<Sent>)
    requires RosterInv(s)
    ensures u in s.members || Informed(s, log) ==>
              Informed(UserInfoChange(s, u, role).room, log + UserInfoChange(s, u, role).sent)
  {
    hide InfoToAll, Informed;
    if u in s.members {
      var t := s.(roles := s.roles[u := role]);
      assert t.roles.Keys == s.roles.Keys + {u} && u in s.roles.Keys;
      EndsInformed(t, log, []);
      assert [] + InfoToAll(t) == InfoToAll(t);
    } else {
      assert log + [] == log;
    }
  }

  lemma SetUserOfflineInforms(s: RoomState, u: int, log: seq<Sent>)
    requires RosterInv(s) && GameInv(s)
    ensures Broadcasts(s, DoSetUserOffline(u)) || Informed(s, log) ==>
              Informed(SetUserOffline(s, u).room, log + SetUserOffline(s, u).sent)
  {
    hide Informed, LeaveFromGame;
    var marked := s.(offline := s.offline + {u});
    StaysInformed(s, marked, log, []);
    assert log + [] == log;
    LeaveFromGameInforms(marked, u, log);
  }

  lemma TickInforms(s: RoomState, log: seq<Sent>)
    ensures Informed(s, log) ==> Informed(Tick(s).room, log + Tick(s).sent)
  {
    hide Informed, Ascending;
    StaysInformed(s, Tick(s).room, log, Tick(s).sent);
  }

  /** After each operation that broadcasts, the last roster every member was sent shows the
      room. Before and after any other operation it does alike, except that a player who
      reconnects into a running game is not shown to play: the roster is not sent then. */
  lemma StepInforms(s: RoomState, e: RoomEvent, log: seq<Sent>)
    requires RoomInv(s) && Legal(s, e)
    ensures Broadcasts(s, e) || (Informed(s, log) && !Rejoins(s, e)) ==>
              Informed(Step(s, e).room, log + Step(s, e).sent)
    ensures Informed(s, log) && Rejoins(s, e) ==> !Informed(Step(s, e).room, log + Step(s, e).sent)
  {
    hide RoomInv, Informed, LeaveFromGame, LeaveFromRoom, Leave, EndGame, KickFromGame, KickFromRoom, StartGame,
         JoinRoom, Tick, Reconnect, SetUserOffline, UserInfoChange, OnUserOperate, NotifyUserJoinGame, Ascending,
         GameInv, RosterInv;
    RoomInvParts(s);
    match e
    case DoJoinRoom(u, name) =>
      if Broadcasts(s, e) { JoinInforms(s, u, name, log); } else { RefusalInforms(s, u, name, log); }
    case DoLeave(u) => LeaveInforms(s, u, log);
    case DoLeaveFromRoom(u) => LeaveFromRoomInforms(s, u, log);
    case DoLeaveFromGame(u) => LeaveFromGameInforms(s, u, log);
    case DoKickAllUserFromGame => if Informed(s, log) { KickFromGameInforms(s, Ascending(s.inGame.Keys), log); }
    case DoKickAllUserFromRoom => if Informed(s, log) { KickFromRoomInforms(s, Ascending(s.members.Keys), log); }
    case DoStartGame(u) => StartGameInforms(s, u, log);
    case DoEndGame => EndGameInforms(s, log);
    case DoTick => TickInforms(s, log);
    case DoReconnect(u) => ReconnectInforms(s, u, log);
    case DoUserOperate(u, op) => OperateInforms(s, u, op, log);
    case DoNotifyUserJoinGame(u) => OperateInforms(s, u, UserOperate([], 0, 0), log);
    case DoSetUserOffline(u) => SetUserOfflineInforms(s, u, log);
    case DoUserInfoChange(u, role) => UserInfoChangeInforms(s, u, role, log);
  }

  lemma OperateInforms(s: RoomState, u: int, op: UserOperate, log: seq<Sent>)
    ensures Informed(s, log) ==> Informed(OnUserOperate(s, u, op), log + [])
    ensures Informed(s, log) ==> Informed(NotifyUserJoinGame(s, u), log + [])
  {
    hide Informed;
    StaysInformed(s, OnUserOperate(s, u, op), log, []);
    StaysInformed(s, NotifyUserJoinGame(s, u), log, []);
  }

  lemma RefusalInforms(s: RoomState, u: int, name: string, log: seq<Sent>)
    requires !Broadcasts(s, DoJoinRoom(u, name))
    ensures Informed(s, log) ==> Informed(JoinRoom(s, u, name).room, log + JoinRoom(s, u, name).sent)
  {
    hide Informed;
    JoinRoomRefuses(s, u, name);
    StaysInformed(s, s, log, JoinRoom(s, u, name).sent);
  }

  lemma ReconnectInforms(s: RoomState, u: int, log: seq<Sent>)
    requires RosterInv(s) && GameInv(s)
    ensures Informed(s, log) ==>
              (Informed(Reconnect(s, u).room, log + Reconnect(s, u).sent) <==> !Rejoins(s, DoReconnect(u)))
  {
    hide LastInfo;
    var o := Reconnect(s, u);
    if u !in s.members {
      assert log + [] == log;
    } else if Rejoins(s, DoReconnect(u)) {
      LastInfoUnaffected(log, o.sent, u);
      if Informed(s, log) {
        NotShownInGame(LastInfo(log, u).value, s, o.room, u);
      }
    } else {
      assert o.room.inGame == s.inGame;
      StaysInformed(s, o.room, log, o.sent);
    }
  }

  lemma NotShownInGame(n: Notice, s: RoomState, t: RoomState, u: int)
    requires RosterInv(s) && Shows(n, s) && u in s.members && u !in s.inGame && u in t.inGame
    ensures !Shows(n, t)
  {
    ShownOnce(n, s, u);
    var i :| 0 <= i < |n.users| && n.users[i].userid == u;
    assert EntryShows(n.users[i], s);
    assert !EntryShows(n.users[i], t);
  }

  /** Every member has an entry. */
  lemma ShownOnce(n: Notice, s: RoomState, u: int)
    requires Shows(n, s) && u in s.members
    ensures exists i :: 0 <= i < |n.users| && n.users[i].userid == u
  {
    var ids := seq(|n.users|, i requires 0 <= i < |n.users| => n.users[i].userid);
    assert forall i | 0 <= i < |ids| :: ids[i] == n.users[i].userid && EntryShows(n.users[i], s);
    IncreasingSize(ids);
    assert SetOf(ids) <= s.members.Keys;
    SubsetOfSameSize(SetOf(ids), {}, s.members.Keys);
    assert SetOf(ids) + {} == SetOf(ids);
    assert u in SetOf(ids);
    var i :| 0 <= i < |ids| && ids[i] == u;
  }

  lemma {:induction false} IncreasingSize(ids: seq<int>)
    requires Increasing(ids)
    ensures |SetOf(ids)| == |ids|
    decreases |ids|
  {
    if ids == [] {
      assert SetOf(ids) == {};
    } else {
      IncreasingSize(ids[1..]);
      SetOfSplit(ids);
      assert ids[0] !in ids[1..];
    }
  }

  /** Has a player reconnected into the running game since the roster was last sent? */
  function Lags(w: World, lag: bool, es: seq<RoomEvent>): bool
    decreases |es|
  {
    if es == [] then lag
    else Lags(Next(w, es[0]), !Broadcasts(w.room, es[0]) && (lag || Rejoins(w.room, es[0])), es[1..])
  }

  /** Over any run, every member was last sent the roster as it is, unless a player has
      reconnected since the roster was last sent. */
  lemma {:induction false} RunInforms(w: World, lag: bool, es: seq<RoomEvent>)
    requires RoomInv(w.room) && LegalRun(w, es) && (!lag ==> Informed(w.room, w.log))
    ensures !Lags(w, lag, es) ==> Informed(Run(w, es).room, Run(w, es).log)
    decreases |es|
  {
    hide RoomInv, Informed, Broadcasts, Rejoins, Step, Account;
    if es == [] {
    } else {
      StepKeepsInv(w.room, es[0]);
      StepInforms(w.room, es[0], w.log);
      var lags := !Broadcasts(w.room, es[0]) && (lag || Rejoins(w.room, es[0]));
      if !lags && !Broadcasts(w.room, es[0]) {
        assert Informed(w.room, w.log);
      }
      RunInforms(Next(w, es[0]), lags, es[1..]);
    }
  }

  /** In particular from a new room on. */
  lemma NewRoomInforms(
    id: int, name: string, size: nat, seed: int, chase: bool, frameId: int, log: seq<Sent>, es: seq<RoomEvent>)
    requires LegalRun(FreshWorld(id, name, size, seed, chase, frameId, log), es)
    ensures var w := FreshWorld(id, name, size, seed, chase, frameId, log);
      !Lags(w, false, es) ==> Informed(Run(w, es).room, Run(w, es).log)
  {
    hide Run, LegalRun, Lags, RoomInv, Shows;
    FreshRoomInv(id, name, size, seed, chase, frameId);
    RunInforms(FreshWorld(id, name, size, seed, chase, frameId, log), false, es);
  }

  // ---- pid, name and role of a member ----

  /** A member keeps its pid and its name while it stays, and its role but for its own changes
      of role; a new member has the name it joins with, and role 1. */
  ghost predicate RosterMoves(s: RoomState, e: RoomEvent, t: RoomState) {
    forall u | u in t.members ::
      && u in t.names && u in t.roles
      && (u in s.members ==>
            && u in s.names && u in s.roles
            && t.members[u] == s.members[u] && t.names[u] == s.names[u]
            && t.roles[u] == if e.DoUserInfoChange? && e.u == u then e.role else s.roles[u])
      && (u !in s.members ==> e.DoJoinRoom? && e.u == u && t.names[u] == e.name && t.roles[u] == 1)
  }

  ghost predicate SameRoster(s: RoomState, t: RoomState) {
    t.members == s.members && t.names == s.names && t.roles == s.roles
  }

  lemma SameRosterMoves(s: RoomState, e: RoomEvent, t: RoomState)
    requires RosterInv(s) && SameRoster(s, t) && !e.DoUserInfoChange?
    ensures RosterMoves(s, e, t)
  {
    forall u | u in s.members
      ensures u in s.names && u in s.roles
    {
      EntryOf(s, u);
    }
  }

  lemma StepMovesRoster(s: RoomState, e: RoomEvent)
    requires RoomInv(s)
    ensures RosterMoves(s, e, Step(s, e).room)
  {
    hide RoomInv, RosterMoves, LeaveFromGame, LeaveFromRoom, Leave, EndGame, KickFromGame, KickFromRoom, StartGame,
         JoinRoom, Tick, Reconnect, SetUserOffline, UserInfoChange, OnUserOperate, NotifyUserJoinGame, Ascending,
         RosterInv, GameInv;
    RoomInvParts(s);
    match e
    case DoJoinRoom(u, name) => JoinMovesRoster(s, u, name);
    case DoLeave(u) => LeaveIsLeaveFromRoom(s, u); LeaveMovesRoster(s, e, u);
    case DoLeaveFromRoom(u) => LeaveMovesRoster(s, e, u);
    case DoLeaveFromGame(u) => LeaveFromGameEffect(s, u); SameRosterMoves(s, e, Step(s, e).room);
    case DoKickAllUserFromGame =>
      KickFromGameEffect(s, Ascending(s.inGame.Keys));
      SameRosterMoves(s, e, Step(s, e).room);
    case DoKickAllUserFromRoom => KickMovesRoster(s);
    case DoStartGame(u) =>
      if Starts(s, u) { StartGameEffect(s, u); } else { NoStart(s, u); }
      SameRosterMoves(s, e, Step(s, e).room);
    case DoEndGame => EndGameEffect(s); SameRosterMoves(s, e, Step(s, e).room);
    case DoTick => TickKeepsRoster(s); SameRosterMoves(s, e, Step(s, e).room);
    case DoReconnect(u) => OthersKeepRoster(s, u, UserOperate([], 0, 0)); SameRosterMoves(s, e, Step(s, e).room);
    case DoUserOperate(u, op) => OthersKeepRoster(s, u, op); SameRosterMoves(s, e, Step(s, e).room);
    case DoNotifyUserJoinGame(u) =>
      OthersKeepRoster(s, u, UserOperate([], 0, 0));
      SameRosterMoves(s, e, Step(s, e).room);
    case DoSetUserOffline(u) => OthersKeepRoster(s, u, UserOperate([], 0, 0)); SameRosterMoves(s, e, Step(s, e).room);
    case DoUserInfoChange(u, role) => RoleMovesRoster(s, u, role);
  }

  lemma JoinMovesRoster(s: RoomState, u: int, name: string)
    requires RoomInv(s)
    ensures RosterMoves(s, DoJoinRoom(u, name), JoinRoom(s, u, name).room)
  {
    hide JoinRoom, PidInv, GameInv, LogInv;
    if !s.started && |s.members| < s.size && u !in s.members {
      JoinRoomLetsIn(s, u, name);
    } else {
      JoinRoomRefuses(s, u, name);
    }
    forall v | v in s.members
      ensures v in s.names && v in s.roles
    {
      EntryOf(s, v);
    }
  }

  lemma LeaveMovesRoster(s: RoomState, e: RoomEvent, u: int)
    requires RoomInv(s) && !e.DoUserInfoChange?
    ensures RosterMoves(s, e, LeaveFromRoom(s, u).room)
  {
    hide LeaveFromRoom, PidInv, GameInv, LogInv;
    if u in s.members {
      LeaveFromRoomTakesOut(s, u);
    } else {
      LeaveFromRoomRefuses(s, u);
    }
    forall v | v in s.members
      ensures v in s.names && v in s.roles
    {
      EntryOf(s, v);
    }
  }

  lemma KickMovesRoster(s: RoomState)
    requires RoomInv(s)
    ensures RosterMoves(s, DoKickAllUserFromRoom, KickAllUserFromRoom(s).room)
  {
    hide KickFromRoom, RoomInv;
    var users := Ascending(s.members.Keys);
    KickFromRoomTakesOut(s, users);
    assert s.members - SetOf(users) == map[];
  }

  lemma TickKeepsRoster(s: RoomState)
    ensures SameRoster(s, Tick(s).room)
  {
    hide Broadcast, Ascending;
  }

  lemma OthersKeepRoster(s: RoomState, u: int, op: UserOperate)
    ensures SameRoster(s, Reconnect(s, u).room)
    ensures SameRoster(s, OnUserOperate(s, u, op)) && SameRoster(s, NotifyUserJoinGame(s, u))
    ensures SameRoster(s, SetUserOffline(s, u).room)
  {
    hide LeaveFromGame;
    LeaveFromGameEffect(s.(offline := s.offline + {u}), u);
  }

  lemma RoleMovesRoster(s: RoomState, u: int, role: int)
    requires RosterInv(s)
    ensures RosterMoves(s, DoUserInfoChange(u, role), UserInfoChange(s, u, role).room)
  {
    hide InfoToAll;
    forall v | v in s.members
      ensures v in s.names && v in s.roles
    {
      EntryOf(s, v);
    }
  }

  /** The role that `u` last asked for since it joined, or 1 if it never did. */
  function LastRole(w: World, es: seq<RoomEvent>, u: int): int {
    if es == [] then 1
    else
      var before, e := es[..|es| - 1], es[|es| - 1];
      if e.DoUserInfoChange? && e.u == u then e.role
      else if e.DoJoinRoom? && e.u == u && u !in Run(w, before).room.members then 1
      else LastRole(w, before, u)
  }

  /** The name with which `u` last joined. */
  function LastName(w: World, es: seq<RoomEvent>, u: int): string {
    if es == [] then ""
    else
      var before, e := es[..|es| - 1], es[|es| - 1];
      if e.DoJoinRoom? && e.u == u && u !in Run(w, before).room.members then e.name
      else LastName(w, before, u)
  }

  lemma LastStep(w: World, es: seq<RoomEvent>, e: RoomEvent)
    requires LegalRun(w, es + [e])
    ensures LegalRun(w, es) && Legal(Run(w, es).room, e) && Run(w, es + [e]) == Next(Run(w, es), e)
  {
    hide Next, Legal;
    RunSplit(w, es + [e], |es|);
    assert (es + [e])[..|es|] == es && (es + [e])[|es|..] == [e] && [e][1..] == [];
    RunOfFirst(Run(w, es), [e]);
    assert Run(Next(Run(w, es), e), []) == Next(Run(w, es), e);
  }

  lemma {:induction false} RunInv(w: World, es: seq<RoomEvent>)
    requires RoomInv(w.room) && LegalRun(w, es)
    ensures RoomInv(Run(w, es).room)
    decreases |es|
  {
    hide RoomInv, Step, Account;
    if es == [] {
    } else {
      StepKeepsInv(w.room, es[0]);
      RunInv(Next(w, es[0]), es[1..]);
    }
  }

  /** Over any run, a member's role is the one it last asked for since it joined, or 1, and its
      name is the one it joined with. */
  lemma {:induction false} RoleIsLastAskedFor(w: World, es: seq<RoomEvent>, u: int)
    requires RoomInv(w.room) && w.room.members == map[] && LegalRun(w, es)
    requires u in Run(w, es).room.members
    ensures var t := Run(w, es).room;
      && u in t.roles && t.roles[u] == LastRole(w, es, u)
      && u in t.names && t.names[u] == LastName(w, es, u)
    decreases |es|
  {
    hide RoomInv, LegalRun, Run, Step, Account;
    if es == [] {
      assert Run(w, []) == w by { RunOfNone(w); }
      assert false;
    } else {
      var before, e := es[..|es| - 1], es[|es| - 1];
      assert es == before + [e];
      LastStep(w, before, e);
      RunInv(w, before);
      var s := Run(w, before).room;
      StepMovesRoster(s, e);
      if u in s.members {
        RoleIsLastAskedFor(w, before, u);
      }
    }
  }

  lemma RunOfNone(w: World)
    ensures Run(w, []) == w
  {
  }
}
