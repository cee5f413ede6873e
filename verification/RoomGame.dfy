/** Lockstep: what the players of a game have received is the log of the game, after every
    operation of the room. */
module RoomGame {
  import opened Basics
  import opened Messages
  import opened RoomModel
  import opened RoomShutdown
  import opened RoomInvariant

  // ---- lockstep ----

  /** Every player in game holds exactly the frames of the game so far, and every other
      member holds a prefix of them. */
  ghost predicate Lockstep(s: RoomState, log: seq<Sent>) {
    s.chase && s.started ==>
      && (forall u | u in s.inGame :: View(log, u) == s.allFrames)
      && (forall u | u in s.members :: View(log, u) <= s.allFrames)
  }

  /** Game traffic only goes to members of the room. */
  ghost predicate GoesToMembers(s: RoomState, sent: seq<Sent>) {
    forall x | x in sent && CarriesGame(x.notice) :: x.to in s.members
  }

  // ---- steps that carry no game traffic ----

  /** `t` follows `s` without touching the frames of the game. While a game runs nobody is
      let in, those who stay keep their pid, and the pids of those who go become free. */
  ghost predicate Calm(s: RoomState, t: RoomState) {
    && t.chase == s.chase
    && t.allFrames == s.allFrames
    && t.frame == s.frame
    && (t.started ==>
          && s.started
          && t.inGame.Keys <= s.inGame.Keys
          && t.members.Keys <= s.members.Keys
          && (forall u | u in t.members :: t.members[u] == s.members[u])
          && (forall u | u in s.members && u !in t.members :: s.members[u] in t.pool)
          && s.pool <= t.pool)
  }

  ghost predicate QuietOutcome(s: RoomState, o: Outcome) {
    Calm(s, o.room) && Quiet(o.sent)
  }

  predicate MovesGame(e: RoomEvent) {
    e.DoStartGame? || e.DoTick? || e.DoReconnect? || e.DoUserOperate? || e.DoNotifyUserJoinGame?
  }

  lemma JoinRoomIsQuiet(s: RoomState, u: int, name: string)
    ensures QuietOutcome(s, JoinRoom(s, u, name))
  {
    hide InfoToAll;
    if Admits(s, u) {
      var t := Admit(s, u, name);
      InfoIsQuiet(t);
      QuietSum([Sent(u, JoinRoomReply(true, s.id, Entered))], InfoToAll(t));
    }
  }

  lemma LeaveFromGameIsQuiet(s: RoomState, u: int)
    ensures QuietOutcome(s, LeaveFromGame(s, u))
  {
    LeaveFromGameEffect(s, u);
    LeaveFromGameQuiet(s, u);
  }

  lemma LeaveFromRoomIsQuiet(s: RoomState, u: int)
    ensures QuietOutcome(s, LeaveFromRoom(s, u))
  {
    LeaveFromRoomEffect(s, u);
    LeaveFromRoomQuiet(s, u);
  }

  lemma LeaveIsQuiet(s: RoomState, u: int)
    ensures QuietOutcome(s, Leave(s, u))
  {
    hide LeaveFromRoom, LeaveFromGame;
    var g := LeaveFromGame(s, u);
    LeaveFromGameIsQuiet(s, u);
    LeaveFromRoomIsQuiet(g.room, u);
    QuietSum(g.sent, LeaveFromRoom(g.room, u).sent);
  }

  lemma {:induction false} KickFromRoomIsQuiet(s: RoomState, users: seq<int>)
    ensures QuietOutcome(s, KickFromRoom(s, users))
    decreases |users|
  {
    hide LeaveFromRoom;
    if users == [] {
    } else {
      var a := LeaveFromRoom(s, users[0]);
      LeaveFromRoomIsQuiet(s, users[0]);
      KickFromRoomIsQuiet(a.room, users[1..]);
      QuietSum(a.sent, KickFromRoom(a.room, users[1..]).sent);
    }
  }

  lemma KickAllUserFromGameIsQuiet(s: RoomState)
    ensures QuietOutcome(s, KickAllUserFromGame(s))
  {
    hide KickFromGame;
    KickFromGameEffect(s, Ascending(s.inGame.Keys));
    KickFromGameQuiet(s, Ascending(s.inGame.Keys));
  }

  lemma EndGameIsQuiet(s: RoomState)
    ensures QuietOutcome(s, EndGame(s))
  {
    EndGameEffect(s);
    EndGameQuiet(s);
  }

  lemma SetUserOfflineIsQuiet(s: RoomState, u: int)
    ensures QuietOutcome(s, SetUserOffline(s, u))
  {
    LeaveFromGameIsQuiet(s.(offline := s.offline + {u}), u);
  }

  lemma UserInfoChangeIsQuiet(s: RoomState, u: int, role: int)
    ensures QuietOutcome(s, UserInfoChange(s, u, role))
  {
    hide InfoToAll;
    InfoIsQuiet(s.(roles := s.roles[u := role]));
  }

  /** Operations that do not move the game on leave its frames and its views alone. */
  lemma OtherStepsAreQuiet(s: RoomState, e: RoomEvent)
    requires !MovesGame(e)
    ensures QuietOutcome(s, Step(s, e))
  {
    hide JoinRoom, Leave, LeaveFromRoom, LeaveFromGame, EndGame, KickAllUserFromGame, KickFromRoom,
         SetUserOffline, UserInfoChange;
    match e
    case DoJoinRoom(u, name) => JoinRoomIsQuiet(s, u, name);
    case DoLeave(u) => LeaveIsQuiet(s, u);
    case DoLeaveFromRoom(u) => LeaveFromRoomIsQuiet(s, u);
    case DoLeaveFromGame(u) => LeaveFromGameIsQuiet(s, u);
    case DoKickAllUserFromGame => KickAllUserFromGameIsQuiet(s);
    case DoKickAllUserFromRoom => KickFromRoomIsQuiet(s, Ascending(s.members.Keys));
    case DoEndGame => EndGameIsQuiet(s);
    case DoSetUserOffline(u) => SetUserOfflineIsQuiet(s, u);
    case DoUserInfoChange(u, role) => UserInfoChangeIsQuiet(s, u, role);
  }

  lemma QuietKeepsLockstep(s: RoomState, o: Outcome, log: seq<Sent>)
    requires Lockstep(s, log) && QuietOutcome(s, o)
    ensures Lockstep(o.room, log + o.sent)
  {
    forall u
      ensures View(log + o.sent, u) == View(log, u)
    {
      ViewUnaffected(log, o.sent, u);
    }
  }

  // ---- StartGame, Tick, Reconnect ----

  /** StartGame resets the view of every member. */
  lemma StartGameKeepsLockstep(s: RoomState, u: int, log: seq<Sent>)
    requires RoomInv(s) && Starts(s, u)
    ensures Lockstep(StartGame(s, u).room, log + StartGame(s, u).sent)
  {
    hide Joined, JoinAll, InfoToAll;
    StartGameEffect(s, u);
    forall v | v in s.members
      ensures View(log + StartGame(s, u).sent, v) == []
    {
      ViewOfStartGame(s, u, log, v);
    }
  }

  lemma ViewOfStartGame(s: RoomState, u: int, log: seq<Sent>, v: int)
    requires Starts(s, u) && v in s.members
    ensures View(log + StartGame(s, u).sent, v) == []
  {
    hide InfoToAll, JoinAll, View;
    var users := Ascending(s.members.Keys);
    var t := JoinAll(Cleared(s), users);
    var starts := StartNotices(Cleared(s), users);
    ViewOfStartNotices(Cleared(s), users, log, v);
    InfoIsQuiet(t);
    ViewUnaffected(log + starts, InfoToAll(t), v);
    assert log + StartGame(s, u).sent == (log + starts) + InfoToAll(t);
  }

  lemma ViewOfStartNotices(s: RoomState, users: seq<int>, log: seq<Sent>, v: int)
    requires Increasing(users) && v in users
    ensures View(log + StartNotices(s, users), v) == []
  {
    hide View, Get;
    var i :| 0 <= i < |users| && users[i] == v;
    ViewOfSingle(log, StartNotices(s, users), i, v);
  }

  lemma StartGameSends(s: RoomState, u: int)
    ensures GoesToMembers(s, StartGame(s, u).sent)
  {
    hide InfoToAll, JoinAll;
    var users := Ascending(s.members.Keys);
    var starts := StartNotices(Cleared(s), users);
    var t := JoinAll(Cleared(s), users);
    InfoIsQuiet(t);
    assert forall x | x in starts :: x.to in users;
  }

  /** A tick appends one and the same frame to the view of every player in game. */
  lemma TickKeepsLockstep(s: RoomState, log: seq<Sent>)
    requires RoomInv(s) && Lockstep(s, log)
    ensures Lockstep(Tick(s).room, log + Tick(s).sent)
  {
    hide View, Broadcast;
    if s.started {
      var f := s.frame.(frameId := s.frameId + 1);
      forall u | u in s.members
        ensures View(log + Tick(s).sent, u) == View(log, u) + if u in s.inGame then [f] else []
      {
        ViewOfTick(s, log, u);
      }
    }
  }

  lemma ViewOfTick(s: RoomState, log: seq<Sent>, u: int)
    requires s.started
    ensures View(log + Tick(s).sent, u) ==
            View(log, u) + if u in s.inGame then [s.frame.(frameId := s.frameId + 1)] else []
  {
    hide View, Broadcast;
    ViewOfBroadcast(log, Ascending(s.inGame.Keys), FrameNotice(s.frame.(frameId := s.frameId + 1)), u);
  }

  lemma TickSends(s: RoomState)
    requires GameInv(s)
    ensures GoesToMembers(s, Tick(s).sent)
  {
    var users := Ascending(s.inGame.Keys);
    assert forall x | x in Tick(s).sent :: x.to in users;
  }

  /** A reconnecting player is handed the whole replay. */
  lemma ViewOfReconnect(s: RoomState, u: int, log: seq<Sent>, v: int)
    requires u in s.members
    ensures View(log + Reconnect(s, u).sent, v) == if u == v then s.allFrames else View(log, v)
  {
    hide JoinGame;
    var sent := Reconnect(s, u).sent;
    if u == v {
      assert log + sent == (log + sent[..2]) + [sent[2]];
      ViewOfNext(log + sent[..2], sent[2], u);
    } else {
      ViewUnaffected(log, sent, v);
    }
  }

  lemma ReconnectKeepsLockstep(s: RoomState, u: int, log: seq<Sent>)
    requires RoomInv(s) && Lockstep(s, log)
    ensures Lockstep(Reconnect(s, u).room, log + Reconnect(s, u).sent)
    ensures GoesToMembers(s, Reconnect(s, u).sent)
  {
    if u in s.members {
      forall v
        ensures View(log + Reconnect(s, u).sent, v) == if u == v then s.allFrames else View(log, v)
      {
        ViewOfReconnect(s, u, log, v);
      }
    } else {
      assert log + [] == log;
    }
  }

  /** Lockstep is kept by every operation of the room. */
  lemma StepKeepsLockstep(s: RoomState, e: RoomEvent, log: seq<Sent>)
    requires RoomInv(s) && Lockstep(s, log)
    ensures Lockstep(Step(s, e).room, log + Step(s, e).sent)
    ensures GoesToMembers(s, Step(s, e).sent)
  {
    hide RoomInv, Lockstep, Tick, Reconnect, StartGame;
    if !MovesGame(e) {
      OtherStepsAreQuiet(s, e);
      QuietKeepsLockstep(s, Step(s, e), log);
    } else if e.DoTick? {
      TickKeepsLockstep(s, log);
      assert GameInv(s) by { RoomInvParts(s); }
      TickSends(s);
    } else if e.DoReconnect? {
      ReconnectKeepsLockstep(s, e.u, log);
    } else if e.DoUserOperate? {
      FrameKeepsLockstep(s, OnUserOperate(s, e.u, e.op).frame, log);
    } else if e.DoNotifyUserJoinGame? {
      FrameKeepsLockstep(s, NotifyUserJoinGame(s, e.u).frame, log);
    } else {
      StartGameSends(s, e.u);
      if Starts(s, e.u) {
        StartGameKeepsLockstep(s, e.u, log);
      } else {
        NoStart(s, e.u);
        assert log + [] == log;
      }
    }
  }

  lemma FrameKeepsLockstep(s: RoomState, f: Frame, log: seq<Sent>)
    requires Lockstep(s, log)
    ensures Lockstep(s.(frame := f), log + [])
  {
    assert log + [] == log;
  }

  lemma RoomInvParts(s: RoomState)
    requires RoomInv(s)
    ensures PidInv(s) && RosterInv(s) && GameInv(s) && LogInv(s)
  {
  }

  lemma NoStart(s: RoomState, u: int)
    requires !Starts(s, u)
    ensures StartGame(s, u) == Outcome(s, [])
  {
  }
}
