/** The room as the object the logic server owns. Each method is proved against the
    corresponding function of RoomModel: the new state and the notices sent, in order. */
module GameRoom {
  import opened Basics
  import opened Messages
  import Model = RoomModel
  import opened RoomInvariant

  /** The way out to the clients; every send is recorded and none fails. */
  class Outbox {
    var sent: seq<Sent>

    constructor ()
      ensures sent == []
    {
      sent := [];
    }

    method SendToClient(notice: Notice, userid: int)
      modifies this
      ensures sent == old(sent) + [Sent(userid, notice)]
    {
      sent := sent + [Sent(userid, notice)];
    }
  }

  class Room {
    const net: Outbox
    const chaseFrame: bool
    const id: int
    const name: string
    const size: nat
    const seed: int
    var frame: Frame
    var frameId: int
    var gameStarted: bool
    var hostUserid: int
    var userpidPool: set<int>
    var userid2roleid: map<int, int>
    var allFrames: seq<Frame>
    var userid2userpid: map<int, int>
    var inGameId2pid: map<int, int>
    var id2name: map<int, string>
    var offlineUserid: set<int>

    function State(): Model.RoomState
      reads this
    {
      Model.RoomState(id, name, size, seed, chaseFrame, gameStarted, hostUserid, userpidPool, userid2userpid,
                      userid2roleid, id2name, inGameId2pid, offlineUserid, frame, frameId, allFrames)
    }

    /** Members, roles and names have the same keys. This holds even in the middle of the
        recursive shutdown, where the game invariant is suspended. */
    ghost predicate Consistent()
      reads this
    {
      userid2roleid.Keys == userid2userpid.Keys && id2name.Keys == userid2userpid.Keys
    }

    ghost predicate Valid()
      reads this
    {
      RoomInv(State())
    }

    lemma ValidIsConsistent()
      requires Valid()
      ensures Consistent()
    {
    }

    /** The method did what `o` says: it reached that state and sent those notices. */
    twostate predicate Did(o: Model.Outcome)
      reads this, net
    {
      State() == o.room && net.sent == old(net.sent) + o.sent
    }

    constructor (id: int, name: string, size: nat, seed: int, chaseFrame: bool, net: Outbox)
      ensures Valid()
      ensures this.net == net
      ensures State() == Model.Fresh(id, name, size, seed, chaseFrame, frameId)
    {
      this.net, this.chaseFrame, this.id, this.name, this.size, this.seed := net, chaseFrame, id, name, size, seed;
      gameStarted, hostUserid := false, -1;
      userid2userpid, userid2roleid, id2name, inGameId2pid, offlineUserid := map[], map[], map[], map[], {};
      frame, allFrames := Frame(0, []), [];
      var pids := {};
      for i := 1 to size + 1
        invariant pids == UpTo(i - 1)
      {
        pids := pids + {i};
      }
      userpidPool := pids;
      new;
      FreshRoomInv(id, name, size, seed, chaseFrame, frameId);
    }

    method PlayerCount() returns (count: nat)
      ensures count == |userid2userpid|
    {
      count := |userid2userpid|;
    }

    // ---- roster ----

    /** The vector has room for every entry, because names and members have the same keys. */
    method GetRoomUserInfos() returns (infos: array<UserInfo>)
      requires Consistent()
      ensures fresh(infos) && infos[..] == Model.Roster(State())
    {
      var users := Ascending(id2name.Keys);
      assert |users| == |userid2userpid.Keys|;
      assert forall j | 0 <= j < |users| :: users[j] in users;
      infos := new UserInfo[|userid2userpid|];
      FillInfos(infos, users);
    }

    /** `for (const auto & p : id2name) userInfo[x++] = ...` */
    method FillInfos(infos: array<UserInfo>, users: seq<int>)
      requires Consistent() && infos.Length == |users|
      requires forall j | 0 <= j < |users| :: users[j] in id2name
      modifies infos
      ensures infos[..] == Model.InfosOf(State(), users)
    {
      for x := 0 to |users|
        invariant forall j | 0 <= j < x :: infos[j] == InfoFor(users[j])
      {
        infos[x] := InfoFor(users[x]);
      }
    }

    function InfoFor(u: int): (info: UserInfo)
      reads this
      requires Consistent() && u in id2name
      ensures info == Model.InfoOf(State(), u)
    {
      UserInfo(u, id2name[u], hostUserid == u, userid2roleid[u], userid2userpid[u], u in inGameId2pid)
    }

    method SendRoomAllInfo(userid: int)
      requires Consistent()
      modifies net
      ensures net.sent == old(net.sent) + [Sent(userid, Model.RoomInfo(State()))]
    {
      var infos := GetRoomUserInfos();
      net.SendToClient(RoomInfoNotice(id, gameStarted, infos[..]), userid);
    }

    method SendRoomAllInfoToAll()
      requires Consistent()
      modifies net
      ensures net.sent == old(net.sent) + Model.InfoToAll(State())
    {
      hide Model.RoomInfo, Broadcast, Ascending;
      var users := Ascending(userid2roleid.Keys);
      ghost var info := Model.RoomInfo(State());
      assert Broadcast([], info) == [] by { EmptyBroadcast(info); }
      for i := 0 to |users|
        invariant net.sent == old(net.sent) + Broadcast(users[..i], info)
      {
        SendRoomAllInfo(users[i]);
        BroadcastNext(users, i, info);
      }
      assert users[..|users|] == users;
    }

    method BroadCastToGame(notice: Notice)
      modifies net
      ensures net.sent == old(net.sent) + Broadcast(Ascending(inGameId2pid.Keys), notice)
    {
      hide Broadcast, Ascending;
      var users := Ascending(inGameId2pid.Keys);
      assert Broadcast([], notice) == [] by { EmptyBroadcast(notice); }
      for i := 0 to |users|
        invariant net.sent == old(net.sent) + Broadcast(users[..i], notice)
      {
        net.SendToClient(notice, users[i]);
        BroadcastNext(users, i, notice);
      }
      assert users[..|users|] == users;
    }

    // ---- operations of the current frame ----

    method NotifyUserJoinGame(userid: int)
      requires Consistent()
      modifies this
      ensures State() == Model.NotifyUserJoinGame(old(State()), userid)
      ensures Consistent()
    {
      if !gameStarted || userid !in userid2userpid { return; }
      var joinGame := UserOperate([userid2roleid[userid]], JOIN_GAME, userid2userpid[userid]);
      frame := frame.(operates := frame.operates + [joinGame]);
    }

    method NotifyUserQuitGame(userid: int)
      modifies this
      ensures State() == Model.NotifyUserQuitGame(old(State()), userid)
    {
      if !gameStarted || userid !in inGameId2pid { return; }
      var quitGame := UserOperate([], LEAVE_GAME, inGameId2pid[userid]);
      frame := frame.(operates := frame.operates + [quitGame]);
    }

    method OnUserOperate(userid: int, op: UserOperate)
      modifies this
      ensures State() == Model.OnUserOperate(old(State()), userid, op)
      ensures old(Valid()) ==> Valid()
    {
      if !gameStarted { return; }
      if userid !in userid2userpid { return; }
      frame := frame.(operates := frame.operates + [op.(userpid := userid2userpid[userid])]);
    }

    // ---- the recursive shutdown ----

    method LeaveFromGame(userid: int)
      requires Consistent()
      modifies this, net
      ensures Did(Model.LeaveFromGame(old(State()), userid))
      ensures Consistent()
      decreases |inGameId2pid.Keys|, gameStarted, 0
    {
      hide Model.InfoToAll, Model.EndGame;
      if userid !in inGameId2pid { return; }
      assert (inGameId2pid - {userid}).Keys == inGameId2pid.Keys - {userid};
      inGameId2pid := inGameId2pid - {userid};
      NotifyUserQuitGame(userid);
      ghost var erased := State();
      if inGameId2pid == map[] {
        EndGame();
      }
      ghost var e := if erased.inGame == map[] then Model.EndGame(erased) else Model.Outcome(erased, []);
      assert State() == e.room && net.sent == old(net.sent) + e.sent;
      SendRoomAllInfoToAll();
      assert net.sent == old(net.sent) + (e.sent + Model.InfoToAll(e.room));
    }

    method EndGame()
      requires Consistent()
      modifies this, net
      ensures Did(Model.EndGame(old(State())))
      ensures Consistent()
      decreases |inGameId2pid.Keys|, gameStarted, 0
    {
      hide Model.InfoToAll, Model.KickFromGame, Broadcast, Ascending;
      if !gameStarted { return; }
      ghost var notices := Broadcast(Ascending(inGameId2pid.Keys), EndGameNotice(id));
      gameStarted := false;
      BroadCastToGame(EndGameNotice(id));
      ghost var k := Model.KickAllUserFromGame(State());
      KickAllUserFromGame();
      assert State() == k.room && net.sent == old(net.sent) + notices + k.sent;
      SendRoomAllInfoToAll();
      assert net.sent == old(net.sent) + (notices + k.sent + Model.InfoToAll(k.room));
    }

    method KickAllUserFromGame()
      requires Consistent()
      modifies this, net
      ensures Did(Model.KickAllUserFromGame(old(State())))
      ensures Consistent()
      decreases |inGameId2pid.Keys|, gameStarted, |inGameId2pid.Keys| + 2
    {
      KickFromGame(Ascending(inGameId2pid.Keys));
    }

    /** LeaveFromGame for each user of the copied map. */
    method KickFromGame(users: seq<int>)
      requires Consistent()
      modifies this, net
      ensures Did(Model.KickFromGame(old(State()), users))
      ensures Consistent()
      decreases |inGameId2pid.Keys|, gameStarted, |users| + 1
    {
      hide Model.LeaveFromGame, Model.KickFromGame, State;
      ghost var all := Model.KickFromGame(State(), users);
      assert users[0..] == users;
      for i := 0 to |users|
        invariant Consistent()
        invariant |inGameId2pid.Keys| <= old(|inGameId2pid.Keys|) && (gameStarted ==> old(gameStarted))
        invariant KickLeft(all, old(net.sent), State(), net.sent, users[i..])
      {
        KickNext(all, old(net.sent), State(), net.sent, users[i..]);
        assert users[i..][0] == users[i] && users[i..][1..] == users[i + 1..];
        StateFields();
        LeaveFromGame(users[i]);
        StateFields();
      }
      KickDone(all, old(net.sent), State(), net.sent);
    }

    lemma StateFields()
      ensures State().inGame == inGameId2pid && State().started == gameStarted
    {
    }

    // ---- joining and leaving the room ----

    method ChangeRoomHost(userid: int)
      modifies this`hostUserid
      ensures hostUserid == if userid == -1 || userid in userid2userpid then userid else old(hostUserid)
    {
      if userid == -1 {
        hostUserid := -1;
        return;
      }
      if userid !in userid2userpid { return; }
      hostUserid := userid;
    }

    /** Takes the least free pid and enters the user on the roster. */
    method Admit(userid: int, username: string)
      requires Consistent() && userpidPool != {}
      modifies this
      ensures State() == Model.Admit(old(State()), userid, username)
      ensures Consistent()
    {
      var pid := Min(userpidPool);
      userpidPool := userpidPool - {pid};
      userid2userpid := userid2userpid[userid := pid];
      userid2roleid := userid2roleid[userid := 1];
      id2name := id2name[userid := username];
      if hostUserid == -1 {
        ChangeRoomHost(userid);
      }
    }

    /** The branch that grows a room without free pids is dead: a room that is not full has one. */
    method JoinRoom(userid: int, username: string) returns (ok: bool)
      requires Valid()
      modifies this, net
      ensures Valid()
      ensures Did(Model.JoinRoom(old(State()), userid, username))
      ensures ok <==> Model.Admits(old(State()), userid)
    {
      hide Model.InfoToAll, RoomInv, Model.Admit;
      ghost var s, log := State(), net.sent;
      ValidIsConsistent();
      StepKeepsInv(s, DoJoinRoom(userid, username));
      if gameStarted {
        net.SendToClient(JoinRoomReply(false, -1, GameRunning), userid);
      } else if |userid2userpid| >= size {
        net.SendToClient(JoinRoomReply(false, -1, RoomFull), userid);
      } else if userid in userid2userpid {
        net.SendToClient(JoinRoomReply(false, -1, AlreadyInside), userid);
      } else {
        FreePid(s);
        if userpidPool == {} {
          assert false;
        }
        Admit(userid, username);
        net.SendToClient(JoinRoomReply(true, id, Entered), userid);
        SendRoomAllInfoToAll();
        assert net.sent == log + ([Sent(userid, JoinRoomReply(true, id, Entered))] + Model.InfoToAll(State()));
        return true;
      }
      return false;
    }

    /** Takes the user off the roster, frees its pid and hands the room to the first member left. */
    method RemoveMember(userid: int)
      requires Consistent() && userid in userid2userpid
      modifies this
      ensures State() == Model.RemoveMember(old(State()), userid)
      ensures Consistent()
    {
      hide Min;
      ghost var goal := Model.RemoveMember(State(), userid);
      userpidPool := userpidPool + {userid2userpid[userid]};
      userid2userpid := userid2userpid - {userid};
      userid2roleid := userid2roleid - {userid};
      id2name := id2name - {userid};
      assert userid2userpid == goal.members && userid2roleid == goal.roles && id2name == goal.names;
      PassHost(userid);
    }

    /** The first member left becomes the host if `userid` was. */
    method PassHost(userid: int)
      modifies this`hostUserid
      ensures hostUserid ==
        if old(hostUserid) != userid then old(hostUserid)
        else if userid2userpid == map[] then Model.NO_HOST else Min(userid2userpid.Keys)
    {
      if hostUserid == userid {
        if userid2userpid == map[] {
          ChangeRoomHost(-1);
        } else {
          ChangeRoomHost(Min(userid2userpid.Keys));
        }
      }
    }

    method LeaveFromRoom(userid: int)
      requires Consistent()
      modifies this, net
      ensures Did(Model.LeaveFromRoom(old(State()), userid))
      ensures Consistent()
    {
      hide Model.InfoToAll, Model.LeaveFromGame, Model.RemoveMember;
      ghost var g := Model.LeaveFromGame(State(), userid);
      ghost var log := net.sent;
      LeaveFromGame(userid);
      assert State() == g.room && net.sent == log + g.sent;
      if userid !in userid2userpid {
        net.SendToClient(LeaveRoomReply(false, 0), userid);
        assert net.sent == log + (g.sent + [Sent(userid, LeaveRoomReply(false, 0))]);
      } else {
        RemoveMember(userid);
        SendRoomAllInfoToAll();
        assert net.sent == log + (g.sent + Model.InfoToAll(State()));
      }
    }

    method Leave(userid: int)
      requires Consistent()
      modifies this, net
      ensures Did(Model.Leave(old(State()), userid))
      ensures Consistent()
    {
      hide Model.LeaveFromGame, Model.LeaveFromRoom;
      ghost var g := Model.LeaveFromGame(State(), userid);
      LeaveFromGame(userid);
      LeaveFromRoom(userid);
      assert net.sent == old(net.sent) + (g.sent + Model.LeaveFromRoom(g.room, userid).sent);
    }

    /** LeaveFromRoom for each user of the copied map. */
    method KickFromRoom(users: seq<int>)
      requires Consistent()
      modifies this, net
      ensures Did(Model.KickFromRoom(old(State()), users))
      ensures Consistent()
    {
      hide Model.LeaveFromRoom, Model.KickFromRoom, State;
      ghost var all := Model.KickFromRoom(State(), users);
      assert users[0..] == users;
      for i := 0 to |users|
        invariant Consistent()
        invariant RoomKickLeft(all, old(net.sent), State(), net.sent, users[i..])
      {
        RoomKickNext(all, old(net.sent), State(), net.sent, users[i..]);
        assert users[i..][0] == users[i] && users[i..][1..] == users[i + 1..];
        LeaveFromRoom(users[i]);
      }
      RoomKickDone(all, old(net.sent), State(), net.sent);
    }

    /** The destructor. */
    method Destroy()
      requires Consistent()
      modifies this, net
      ensures Did(Model.Destroy(old(State())))
    {
      hide Model.EndGame, Model.KickFromRoom, Ascending;
      ghost var e := Model.EndGame(State());
      EndGame();
      KickFromRoom(Ascending(userid2userpid.Keys));
      assert net.sent == old(net.sent) + (e.sent + Model.KickAllUserFromRoom(e.room).sent);
    }

    // ---- the game ----

    method JoinGame(userid: int)
      requires Consistent()
      modifies this
      ensures State() == Model.JoinGame(old(State()), userid)
      ensures Consistent()
    {
      if !gameStarted || userid !in userid2userpid { return; }
      NotifyUserJoinGame(userid);
      inGameId2pid := inGameId2pid[userid := userid2userpid[userid]];
    }

    method JoinAll(users: seq<int>)
      requires Consistent()
      modifies this
      ensures State() == Model.JoinAll(old(State()), users)
      ensures Consistent()
    {
      hide State, Model.JoinGame;
      assert users[0..] == users;
      for i := 0 to |users|
        invariant Consistent()
        invariant Model.JoinAll(old(State()), users) == Model.JoinAll(State(), users[i..])
      {
        assert users[i..][0] == users[i] && users[i..][1..] == users[i + 1..];
        JoinGame(users[i]);
      }
    }

    method NotifyGameStartToUser(userid: int)
      modifies net
      ensures net.sent == old(net.sent) + [Model.StartNotice(State(), userid)]
    {
      net.SendToClient(StartGameNotice(id, seed, Get(userid2userpid, userid, 0)), userid);
    }

    method NotifyGameStart(users: seq<int>)
      modifies net
      ensures net.sent == old(net.sent) + Model.StartNotices(State(), users)
    {
      hide State, Model.StartNotice;
      for i := 0 to |users|
        invariant net.sent == old(net.sent) + Model.StartNotices(State(), users[..i])
      {
        StartNoticesNext(State(), users, i);
        NotifyGameStartToUser(users[i]);
      }
      assert users[..|users|] == users;
    }

    method StartGame(userid: int)
      requires Valid()
      modifies this, net
      ensures Valid() <==> Legal(old(State()), DoStartGame(userid))
      ensures Did(Model.StartGame(old(State()), userid))
    {
      hide Model.InfoToAll, Model.JoinAll, Ascending, Model.StartNotices, RoomInv;
      StartKeepsInvIffLegal(State(), userid);
      ValidIsConsistent();
      if gameStarted || userid != hostUserid { return; }
      ghost var c := Model.Cleared(State());
      gameStarted := true;
      frameId := 0;
      frame := frame.(operates := []);
      allFrames := [];
      assert State() == c;
      var users := Ascending(userid2userpid.Keys);
      NotifyGameStart(users);
      JoinAll(users);
      SendRoomAllInfoToAll();
      assert net.sent == old(net.sent) + (Model.StartNotices(c, users) + Model.InfoToAll(State()));
    }

    method Tick() returns (ticked: bool)
      requires Valid()
      modifies this, net
      ensures Valid()
      ensures Did(Model.Tick(old(State())))
      ensures ticked == old(gameStarted)
    {
      hide Broadcast, Ascending, RoomInv;
      StepKeepsInv(State(), DoTick);
      if !gameStarted { return false; }
      frameId := frameId + 1;
      frame := frame.(frameId := frameId);
      BroadCastToGame(FrameNotice(frame));
      if chaseFrame {
        allFrames := allFrames + [frame];
      }
      frame := frame.(operates := []);
      return true;
    }

    method Reconnect(userid: int)
      requires Valid()
      modifies this, net
      ensures Valid()
      ensures Did(Model.Reconnect(old(State()), userid))
    {
      hide RoomInv;
      StepKeepsInv(State(), DoReconnect(userid));
      ValidIsConsistent();
      if userid !in userid2userpid { return; }
      SetUserOnline(userid);
      NotifyReconnect(userid);
      JoinGame(userid);
    }

    /** The room, the start of the game, and its frames so far. */
    method NotifyReconnect(userid: int)
      requires userid in userid2userpid
      modifies net
      ensures net.sent == old(net.sent) +
                [Sent(userid, ReconnectNotice(userid2userpid[userid], id, hostUserid == userid, seed)),
                 Model.StartNotice(State(), userid),
                 Sent(userid, ChaseFrameNotice(GameReplay(allFrames)))]
    {
      net.SendToClient(ReconnectNotice(userid2userpid[userid], id, hostUserid == userid, seed), userid);
      NotifyGameStartToUser(userid);
      net.SendToClient(ChaseFrameNotice(GameReplay(allFrames)), userid);
    }

    method SetUserOnline(userid: int)
      modifies this`offlineUserid
      ensures offlineUserid == if userid in userid2userpid then old(offlineUserid) - {userid} else old(offlineUserid)
    {
      if userid !in userid2userpid || userid !in offlineUserid { return; }
      offlineUserid := offlineUserid - {userid};
    }

    method SetUserOffline(userid: int)
      requires Valid()
      modifies this, net
      ensures Valid()
      ensures Did(Model.SetUserOffline(old(State()), userid))
    {
      hide Model.LeaveFromGame, RoomInv;
      StepKeepsInv(State(), DoSetUserOffline(userid));
      ValidIsConsistent();
      if userid !in userid2userpid || userid in offlineUserid { return; }
      offlineUserid := offlineUserid + {userid};
      LeaveFromGame(userid);
    }

    method CheckRoomDead() returns (dead: bool)
      ensures dead == Model.CheckRoomDead(State())
    {
      dead := |offlineUserid| == |userid2userpid|;
    }

    method UserInfoChange(userid: int, role: int)
      requires Valid()
      modifies this, net
      ensures Valid()
      ensures Did(Model.UserInfoChange(old(State()), userid, role))
    {
      hide Model.InfoToAll, RoomInv;
      StepKeepsInv(State(), DoUserInfoChange(userid, role));
      ValidIsConsistent();
      if userid !in userid2userpid { return; }
      userid2roleid := userid2roleid[userid := role];
      SendRoomAllInfoToAll();
    }
  }

  lemma EmptyBroadcast(notice: Notice)
    ensures Broadcast([], notice) == []
  {
  }

  /** What is left of KickFromGame, from room `s` and log `log`, leads to `all` from `log0`. */
  ghost predicate KickLeft(all: Model.Outcome, log0: seq<Sent>, s: Model.RoomState, log: seq<Sent>, users: seq<int>) {
    var left := Model.KickFromGame(s, users);
    all.room == left.room && log0 + all.sent == log + left.sent
  }

  lemma KickNext(all: Model.Outcome, log0: seq<Sent>, s: Model.RoomState, log: seq<Sent>, users: seq<int>)
    requires users != [] && KickLeft(all, log0, s, log, users)
    ensures var a := Model.LeaveFromGame(s, users[0]); KickLeft(all, log0, a.room, log + a.sent, users[1..])
  {
    hide Model.LeaveFromGame;
    var a := Model.LeaveFromGame(s, users[0]);
    var b := Model.KickFromGame(a.room, users[1..]);
    assert log + (a.sent + b.sent) == log + a.sent + b.sent;
  }

  lemma KickDone(all: Model.Outcome, log0: seq<Sent>, s: Model.RoomState, log: seq<Sent>)
    requires KickLeft(all, log0, s, log, [])
    ensures s == all.room && log == log0 + all.sent
  {
  }

  /** The same for KickFromRoom. */
  ghost predicate RoomKickLeft(
    all: Model.Outcome, log0: seq<Sent>, s: Model.RoomState, log: seq<Sent>, users: seq<int>)
  {
    var left := Model.KickFromRoom(s, users);
    all.room == left.room && log0 + all.sent == log + left.sent
  }

  lemma RoomKickNext(all: Model.Outcome, log0: seq<Sent>, s: Model.RoomState, log: seq<Sent>, users: seq<int>)
    requires users != [] && RoomKickLeft(all, log0, s, log, users)
    ensures var a := Model.LeaveFromRoom(s, users[0]); RoomKickLeft(all, log0, a.room, log + a.sent, users[1..])
  {
    hide Model.LeaveFromRoom;
    var a := Model.LeaveFromRoom(s, users[0]);
    var b := Model.KickFromRoom(a.room, users[1..]);
    assert log + (a.sent + b.sent) == log + a.sent + b.sent;
  }

  lemma RoomKickDone(all: Model.Outcome, log0: seq<Sent>, s: Model.RoomState, log: seq<Sent>)
    requires RoomKickLeft(all, log0, s, log, [])
    ensures s == all.room && log == log0 + all.sent
  {
  }

  lemma StartNoticesNext(s: Model.RoomState, users: seq<int>, i: nat)
    requires i < |users|
    ensures Model.StartNotices(s, users[..i + 1])
         == Model.StartNotices(s, users[..i]) + [Model.StartNotice(s, users[i])]
  {
  }

  lemma FreePid(s: Model.RoomState)
    requires RoomInv(s) && !Model.IsFull(s)
    ensures s.pool != {}
  {
    NotFullHasFreePid(s);
  }
}
