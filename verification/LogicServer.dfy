/** The logic server as an object that owns room objects. Each handler is proved against the
    corresponding function of LogicModel, on the server state read off the room objects. */
module LogicServerObject {
  import opened Basics
  import opened Messages
  import RoomModel
  import opened RoomInvariant
  import opened GameRoom
  import opened LogicModel
  import opened LogicSafety

  /** `for (int i = 1; i <= n; i++) roomid_pool.insert(i)` */
  method FirstIds(n: nat) returns (ids: set<int>)
    ensures ids == UpTo(n)
  {
    ids := {};
    for i := 1 to n + 1
      invariant ids == UpTo(i - 1)
    {
      ids := ids + {i};
    }
  }

  class LogicServer {
    const config: Config
    const net: Outbox
    var rooms: map<int, Room>
    var roomidPool: set<int>
    var roomidUsing: set<int>
    var userid2roomid: map<int, int>
    var userid2username: map<int, string>

    function Cells(): set<Room>
      reads this
    {
      set r | r in rooms :: rooms[r]
    }

    function RoomStates(): map<int, RoomModel.RoomState>
      reads this, Cells()
    {
      map r | r in rooms :: rooms[r].State()
    }

    function State(): ServerState
      reads this, net, Cells()
    {
      ServerState(RoomStates(), roomidPool, roomidUsing, userid2roomid, userid2username, net.sent)
    }

    /** No two ids share a room object, and every room sends through the server's outbox. */
    ghost predicate Shape()
      reads this, Cells()
    {
      && (forall q, r | q in rooms && r in rooms && q != r :: rooms[q] != rooms[r])
      && (forall r | r in rooms :: rooms[r].net == net)
    }

    ghost predicate Valid()
      reads this, net, Cells()
    {
      Shape() && config.roomSize >= 1 && ServerInv(config, State())
    }

    constructor (config: Config, net: Outbox)
      requires config.roomSize >= 1 && net.sent == []
      ensures Valid() && this.config == config && this.net == net
      ensures State() == Boot(config)
    {
      this.config, this.net := config, net;
      rooms, roomidUsing, userid2roomid, userid2username := map[], {}, map[], map[];
      var ids := FirstIds(config.poolSize);
      roomidPool := ids;
      new;
      BootInv(config);
      hide *;
      NoRooms();
    }

    lemma NoRooms()
      requires rooms == map[]
      ensures RoomStates() == map[] && Shape()
    {
    }

    /** From state `before`, room `r` performed `e` and the rest of the server stood still. */
    lemma RoomDid(before: ServerState, r: int, e: RoomEvent)
      requires r in rooms && rooms.Keys == before.rooms.Keys
      requires rooms[r].State() == Step(before.rooms[r], e).room
      requires forall q | q in rooms && q != r :: rooms[q].State() == before.rooms[q]
      requires State() == before.(rooms := RoomStates(), log := before.log + Step(before.rooms[r], e).sent)
      ensures State() == Act(before, r, e)
    {
      hide Step;
      assert RoomStates() == before.rooms[r := rooms[r].State()];
    }

    lemma LiveRoom(r: int)
      requires Valid() && r in rooms
      ensures rooms[r].Valid() && rooms[r].Consistent()
    {
      hide IndexAgrees, IdsInv, NoEmptyRoom, AllLockstep;
      assert RoomOk(config, r, RoomStates()[r]);
      rooms[r].ValidIsConsistent();
    }

    // ---- messages to one room ----

    method HandleJoinGame(userid: int)
      requires Valid()
      modifies this, net, Cells()
      ensures Valid()
      ensures State() == ActFor(old(State()), userid, DoNotifyUserJoinGame(userid))
    {
      hide ServerInv, Step, Act, RoomModel.NotifyUserJoinGame;
      ActForKeepsInv(config, State(), userid, DoNotifyUserJoinGame(userid));
      if userid !in userid2roomid { return; }
      var roomid := userid2roomid[userid];
      if roomid !in rooms { return; }
      LiveRoom(roomid);
      ghost var before := State();
      rooms[roomid].NotifyUserJoinGame(userid);
      StepNotifyUserJoinGame(before.rooms[roomid], userid);
      assert net.sent == before.log + [];
      RoomDid(before, roomid, DoNotifyUserJoinGame(userid));
    }

    method HandleQuitGame(userid: int)
      requires Valid()
      modifies this, net, Cells()
      ensures Valid()
      ensures State() == ActFor(old(State()), userid, DoLeaveFromGame(userid))
    {
      hide ServerInv, Step, Act, RoomModel.LeaveFromGame;
      ActForKeepsInv(config, State(), userid, DoLeaveFromGame(userid));
      if userid !in userid2roomid { return; }
      var roomid := userid2roomid[userid];
      if roomid !in rooms { return; }
      LiveRoom(roomid);
      ghost var before := State();
      rooms[roomid].LeaveFromGame(userid);
      StepLeaveFromGame(before.rooms[roomid], userid);
      RoomDid(before, roomid, DoLeaveFromGame(userid));
    }

    method HandleRoomChangeRole(userid: int, role: int)
      requires Valid()
      modifies this, net, Cells()
      ensures Valid()
      ensures State() == ActFor(old(State()), userid, DoUserInfoChange(userid, role))
    {
      hide ServerInv, Step, Act, RoomModel.UserInfoChange;
      ActForKeepsInv(config, State(), userid, DoUserInfoChange(userid, role));
      if userid !in userid2roomid { return; }
      var roomid := userid2roomid[userid];
      if roomid !in rooms { return; }
      LiveRoom(roomid);
      ghost var before := State();
      rooms[roomid].UserInfoChange(userid, role);
      StepUserInfoChange(before.rooms[roomid], userid, role);
      RoomDid(before, roomid, DoUserInfoChange(userid, role));
    }

    /** The user is a member of the room, so the request is never mistaken for the empty room's. */
    method HandleStartGame(userid: int)
      requires Valid()
      modifies this, net, Cells()
      ensures Valid()
      ensures State() == ActFor(old(State()), userid, DoStartGame(userid))
    {
      hide ServerInv, Step, Act, RoomModel.StartGame;
      ActForKeepsInv(config, State(), userid, DoStartGame(userid));
      if userid !in userid2roomid { return; }
      var roomid := userid2roomid[userid];
      if roomid !in rooms { return; }
      LiveRoom(roomid);
      ghost var before := State();
      MemberMayStart(roomid, userid);
      rooms[roomid].StartGame(userid);
      StepStartGame(before.rooms[roomid], userid);
      RoomDid(before, roomid, DoStartGame(userid));
    }

    method HandleEndGame(userid: int)
      requires Valid()
      modifies this, net, Cells()
      ensures Valid()
      ensures State() == ActFor(old(State()), userid, DoEndGame)
    {
      hide ServerInv, Step, Act, RoomModel.EndGame;
      ActForKeepsInv(config, State(), userid, DoEndGame);
      if userid !in userid2roomid { return; }
      var roomid := userid2roomid[userid];
      if roomid !in rooms { return; }
      LiveRoom(roomid);
      ghost var before := State();
      rooms[roomid].EndGame();
      StepEndGame(before.rooms[roomid]);
      RoomDid(before, roomid, DoEndGame);
    }

    method HandleUserOperate(userid: int, op: UserOperate)
      requires Valid()
      modifies this, net, Cells()
      ensures Valid()
      ensures State() == ActFor(old(State()), userid, DoUserOperate(userid, op))
    {
      hide ServerInv, Step, Act, RoomModel.OnUserOperate;
      ActForKeepsInv(config, State(), userid, DoUserOperate(userid, op));
      if userid !in userid2roomid { return; }
      var roomid := userid2roomid[userid];
      if roomid !in rooms { return; }
      LiveRoom(roomid);
      ghost var before := State();
      rooms[roomid].OnUserOperate(userid, op);
      StepOnUserOperate(before.rooms[roomid], userid, op);
      assert net.sent == before.log + [];
      RoomDid(before, roomid, DoUserOperate(userid, op));
    }

    method HandleReconnect(userid: int)
      requires Valid()
      modifies this, net, Cells()
      ensures Valid()
      ensures State() == ActFor(old(State()), userid, DoReconnect(userid))
    {
      hide ServerInv, Step, Act, RoomModel.Reconnect;
      ActForKeepsInv(config, State(), userid, DoReconnect(userid));
      if userid !in userid2roomid { return; }
      var roomid := userid2roomid[userid];
      if roomid !in rooms { return; }
      LiveRoom(roomid);
      ghost var before := State();
      rooms[roomid].Reconnect(userid);
      StepReconnect(before.rooms[roomid], userid);
      RoomDid(before, roomid, DoReconnect(userid));
    }

    lemma MemberMayStart(roomid: int, userid: int)
      requires Valid() && userid in userid2roomid && userid2roomid[userid] == roomid && roomid in rooms
      ensures Legal(rooms[roomid].State(), DoStartGame(userid))
    {
      hide RoomsInv, IdsInv, AllLockstep, NoEmptyRoom;
      assert userid in RoomStates()[roomid].members;
    }

    method HandleLogin(userid: int, username: string)
      requires Valid()
      modifies this, net, Cells()
      ensures Valid()
      ensures State() == LogicModel.HandleLogin(old(State()), userid, username)
    {
      hide ServerInv, ActFor;
      ghost var before := State();
      UsernameKeepsInv(config, before, userid, username);
      userid2username := userid2username[userid := username];
      assert State() == before.(usernames := before.usernames[userid := username]);
      if userid in userid2roomid && userid2roomid[userid] in rooms {
        assert State().rooms[userid2roomid[userid]] == rooms[userid2roomid[userid]].State();
        if rooms[userid2roomid[userid]].gameStarted {
          HandleReconnect(userid);
        }
      }
    }

    // ---- rooms ----

    method AddRoom(roomname: string, seed: int) returns (roomid: int, ghost frameId: int)
      requires Shape() && roomidPool != {} && Min(roomidPool) !in rooms
      modifies this
      ensures Shape()
      ensures fresh(Cells() - old(Cells()))
      ensures State() == LogicModel.AddRoom(config, old(State()), roomname, seed, frameId)
      ensures roomid == Min(old(roomidPool))
    {
      roomid := Min(roomidPool);
      ghost var before := State();
      roomidPool := roomidPool - {roomid};
      roomidUsing := roomidUsing + {roomid};
      var room := new Room(roomid, roomname, config.roomSize, seed, config.chase, net);
      frameId := room.frameId;
      rooms := rooms[roomid := room];
      assert RoomStates() == before.rooms[roomid := room.State()];
    }

    /** Erases the index entries of a room, walking over a copy of the index. */
    method EraseIndex(users: seq<int>, roomid: int)
      requires forall u :: u in users <==> u in userid2roomid
      modifies this`userid2roomid
      ensures userid2roomid == Outside(old(userid2roomid), roomid)
    {
      ghost var index := userid2roomid;
      for i := 0 to |users|
        invariant userid2roomid == map u | u in index && !(u in users[..i] && index[u] == roomid) :: index[u]
      {
        if users[i] in userid2roomid && userid2roomid[users[i]] == roomid {
          userid2roomid := userid2roomid - {users[i]};
        }
        assert users[..i + 1] == users[..i] + [users[i]];
      }
      assert users[..|users|] == users;
      assert forall u | u in index :: u in users;
    }

    method RemoveRoom(roomid: int)
      requires Shape() && roomid in rooms && rooms[roomid].Consistent()
      modifies this, net, rooms[roomid]
      ensures Shape() && Cells() <= old(Cells())
      ensures State() == LogicModel.RemoveRoom(config, old(State()), roomid)
    {
      hide RoomModel.Destroy, Ascending;
      if roomid !in roomidUsing { return; }
      ghost var before := State();
      roomidUsing := roomidUsing - {roomid};
      EraseIndex(Ascending(userid2roomid.Keys), roomid);
      DeleteRoom(roomid);
      if roomid <= config.defaultRoomCount {
        roomidPool := roomidPool + {roomid};
      }
      assert RoomStates() == before.rooms - {roomid};
    }

    /** `delete rooms[roomid]; rooms.erase(roomid)` */
    method DeleteRoom(roomid: int)
      requires Shape() && roomid in rooms && rooms[roomid].Consistent()
      modifies this`rooms, net, rooms[roomid]
      ensures Shape() && Cells() <= old(Cells())
      ensures RoomStates() == old(RoomStates()) - {roomid}
      ensures net.sent == old(net.sent) + RoomModel.Destroy(old(rooms[roomid].State())).sent
    {
      hide RoomModel.Destroy;
      ghost var before := RoomStates();
      rooms[roomid].Destroy();
      rooms := rooms - {roomid};
      assert forall q | q in rooms :: rooms[q].State() == before[q];
    }

    // ---- moving users ----

    method RemovePlayerFromRoom(userid: int)
      requires Valid()
      modifies this, net, Cells()
      ensures Valid() && Cells() <= old(Cells())
      ensures State() == LogicModel.RemovePlayerFromRoom(config, old(State()), userid)
    {
      hide ServerInv, TakeOut, LogicModel.RemoveRoom;
      RemovePlayerKeepsInv(config, State(), userid);
      if userid !in userid2roomid { return; }
      var roomid := userid2roomid[userid];
      LiveIndex(userid);
      LiveRoom(roomid);
      TakeOutOf(roomid, userid);
      assert State().rooms[roomid].members == rooms[roomid].userid2userpid;
      EmptyMap(rooms[roomid].userid2userpid);
      var count := rooms[roomid].PlayerCount();
      if count == 0 {
        RemoveRoom(roomid);
      }
      assert State() == LogicModel.RemovePlayerFromRoom(config, old(State()), userid);
      assert Shape();
      assert ServerInv(config, State());
    }

    /** Erases the index entry of the user, then the user leaves the room. */
    method TakeOutOf(roomid: int, userid: int)
      requires Shape() && roomid in rooms && rooms[roomid].Consistent()
      modifies this`userid2roomid, net, rooms[roomid]
      ensures Shape() && rooms[roomid].Consistent()
      ensures State() == TakeOut(old(State()), userid, roomid)
    {
      hide Act;
      userid2roomid := userid2roomid - {userid};
      assert RoomStates() == old(RoomStates());
      assert State() == old(State()).(userid2roomid := RoomModel.Without(old(userid2roomid), userid));
      LeaveRoomOf(roomid, userid);
    }

    method LeaveRoomOf(roomid: int, userid: int)
      requires Shape() && roomid in rooms && rooms[roomid].Consistent()
      modifies net, rooms[roomid]
      ensures Shape() && rooms[roomid].Consistent()
      ensures State() == Act(old(State()), roomid, DoLeaveFromRoom(userid))
    {
      hide Step, Act, RoomModel.LeaveFromRoom;
      ghost var before := State();
      rooms[roomid].LeaveFromRoom(userid);
      StepLeaveFromRoom(before.rooms[roomid], userid);
      RoomDid(before, roomid, DoLeaveFromRoom(userid));
    }

    method JoinRoomOf(roomid: int, userid: int, username: string) returns (joined: bool)
      requires Shape() && roomid in rooms && rooms[roomid].Valid()
      modifies net, rooms[roomid]
      ensures Shape()
      ensures State() == Act(old(State()), roomid, DoJoinRoom(userid, username))
      ensures joined == RoomModel.Admits(old(State()).rooms[roomid], userid)
    {
      hide Step, Act, RoomModel.JoinRoom, RoomModel.Admits, RoomInv;
      ghost var before := State();
      joined := rooms[roomid].JoinRoom(userid, username);
      StepJoinRoom(before.rooms[roomid], userid, username);
      RoomDid(before, roomid, DoJoinRoom(userid, username));
    }

    lemma LiveIndex(userid: int)
      requires Valid() && userid in userid2roomid
      ensures userid2roomid[userid] in rooms
    {
      hide RoomsInv, IdsInv, AllLockstep, NoEmptyRoom;
    }

    method AddPlayerToRoom(userid: int, roomid: int)
      requires Shape() && roomid in rooms && rooms[roomid].Valid()
      modifies this, net, rooms[roomid]
      ensures Shape() && rooms == old(rooms)
      ensures State() == LogicModel.AddPlayerToRoom(old(State()), userid, roomid)
    {
      hide Step, Act, RoomModel.JoinRoom, RoomModel.Admits, RoomInv;
      var joined := JoinRoomOf(roomid, userid, Get(userid2username, userid, ""));
      if joined {
        userid2roomid := userid2roomid[userid := roomid];
      }
    }

    method HandleJoinRoom(userid: int, roomid: int)
      requires Valid() && Enabled(State(), JoinRoomRequest(userid, roomid))
      modifies this, net, Cells()
      ensures Valid()
      ensures IndexLive(old(State())) && (roomid in old(rooms) ==>
                roomid in LogicModel.RemovePlayerFromRoom(config, old(State()), userid).rooms)
      ensures State() == LogicModel.HandleJoinRoom(config, old(State()), userid, roomid)
    {
      hide ServerInv, LogicModel.RemovePlayerFromRoom, LogicModel.AddPlayerToRoom;
      HandleJoinRoomKeepsInv(config, State(), userid, roomid);
      if roomid !in rooms {
        net.SendToClient(JoinRoomReply(false, -1, NoSuchRoom), userid);
        return;
      }
      RemovePlayerFromRoom(userid);
      LiveRoom(roomid);
      AddPlayerToRoom(userid, roomid);
    }

    method HandleLeaveRoom(userid: int, roomid: int)
      requires Valid()
      modifies this, net, Cells()
      ensures Valid()
      ensures IndexLive(old(State())) && State() == LogicModel.HandleLeaveRoom(config, old(State()), userid, roomid)
    {
      hide ServerInv, LogicModel.RemovePlayerFromRoom;
      ServerIsLive(config, State());
      HandleLeaveRoomKeepsInv(config, State(), userid, roomid);
      if roomid !in rooms || userid !in userid2roomid || userid2roomid[userid] != roomid {
        net.SendToClient(LeaveRoomReply(false, roomid), userid);
        return;
      }
      RemovePlayerFromRoom(userid);
    }

    method HandleCreateRoom(userid: int, roomname: string, seed: int) returns (ghost frameId: int)
      requires Valid() && (userid !in userid2roomid ==> roomidPool != {})
      modifies this, net, Cells()
      ensures Valid()
      ensures State() == LogicModel.HandleCreateRoom(config, old(State()), userid, roomname, seed, frameId)
    {
      hide ServerInv, LogicModel.AddPlayerToRoom, LogicModel.AddRoom;
      if userid in userid2roomid {
        frameId := 0;
        HandleCreateRoomKeepsInv(config, State(), userid, roomname, seed, frameId);
        net.SendToClient(CreateRoomReply(false, -1, "Error", false), userid);
        return;
      }
      FreeIdUnused();
      frameId := CreateRoomFor(userid, roomname, seed);
      HandleCreateRoomKeepsInv(config, old(State()), userid, roomname, seed, frameId);
    }

    /** The branch of HandleCreateRoom for a user who is in no room yet. */
    method CreateRoomFor(userid: int, roomname: string, seed: int) returns (ghost frameId: int)
      requires Shape() && userid !in userid2roomid && roomidPool != {} && Min(roomidPool) !in rooms
      modifies this, net, Cells()
      ensures Shape()
      ensures State() == LogicModel.HandleCreateRoom(config, old(State()), userid, roomname, seed, frameId)
    {
      hide LogicModel.AddPlayerToRoom, LogicModel.AddRoom, LogicModel.HandleCreateRoom, RoomInv, Min;
      ghost var before := State();
      var roomid;
      roomid, frameId := AddRoom(roomname, seed);
      NewRoomValid(before, roomid, roomname, seed, frameId);
      net.SendToClient(CreateRoomReply(true, roomid, rooms[roomid].name, true), userid);
      CreatedForNewcomer(config, before, userid, roomname, seed, frameId);
      AddPlayerToRoom(userid, roomid);
    }

    lemma FreeIdUnused()
      requires Valid() && roomidPool != {}
      ensures Min(roomidPool) !in rooms
    {
      hide RoomsInv, IndexAgrees, AllLockstep, NoEmptyRoom;
      assert rooms.Keys == RoomStates().Keys;
    }

    lemma NewRoomValid(before: ServerState, roomid: int, name: string, seed: int, frameId: int)
      requires before.roomidPool != {} && roomid == Min(before.roomidPool)
      requires State() == LogicModel.AddRoom(config, before, name, seed, frameId)
      ensures roomid in rooms && rooms[roomid].Valid() && rooms[roomid].name == name
    {
      FreshRoomInv(roomid, name, config.roomSize, seed, config.chase, frameId);
      assert roomid in RoomStates();
      assert rooms[roomid].State() == RoomModel.Fresh(roomid, name, config.roomSize, seed, config.chase, frameId);
    }

    method HandleLogout(userid: int)
      requires Valid()
      modifies this, net, Cells()
      ensures Valid()
      ensures IndexLive(old(State())) && State() == LogicModel.HandleLogout(config, old(State()), userid)
    {
      hide ServerInv, Step, Act, RoomModel.SetUserOffline, LogicModel.RemoveRoom, RoomModel.CheckRoomDead;
      HandleLogoutKeepsInv(config, State(), userid);
      if userid !in userid2roomid { return; }
      var roomid := userid2roomid[userid];
      LiveIndex(userid);
      LiveRoom(roomid);
      ghost var before := State();
      rooms[roomid].SetUserOffline(userid);
      StepSetUserOffline(before.rooms[roomid], userid);
      RoomDid(before, roomid, DoSetUserOffline(userid));
      var dead := rooms[roomid].CheckRoomDead();
      assert State().rooms[roomid] == rooms[roomid].State();
      if dead {
        rooms[roomid].ValidIsConsistent();
        RemoveRoom(roomid);
      }
      assert State() == LogicModel.HandleLogout(config, old(State()), userid);
    }

    // ---- the frame timer ----

    method Update()
      requires Valid()
      modifies this, net, Cells()
      ensures Valid()
      ensures State() == LogicModel.Update(old(State()))
    {
      hide ServerInv, LogicModel.TickRooms;
      assert rooms.Keys == RoomStates().Keys;
      var ids := Ascending(rooms.Keys);
      assert forall r | r in ids :: r in rooms;
      TickRooms(ids);
    }

    /** `room.second->Tick()` for each room. */
    method TickRooms(ids: seq<int>)
      requires Valid() && forall r | r in ids :: r in rooms
      modifies this, net, Cells()
      ensures Valid()
      ensures State() == LogicModel.TickRooms(old(State()), ids)
    {
      hide ServerInv, Step, Act, RoomModel.Tick;
      ghost var goal := LogicModel.TickRooms(State(), ids);
      assert ids[0..] == ids;
      for i := 0 to |ids|
        invariant Valid() && rooms == old(rooms)
        invariant forall r | r in ids[i..] :: r in rooms
        invariant goal == LogicModel.TickRooms(State(), ids[i..])
      {
        TickStep(ids, i);
      }
    }

    method TickStep(ids: seq<int>, i: nat)
      requires Valid() && i < |ids| && forall r | r in ids[i..] :: r in rooms
      modifies this, net, Cells()
      ensures Valid() && rooms == old(rooms)
      ensures forall r | r in ids[i + 1..] :: r in rooms
      ensures LogicModel.TickRooms(old(State()), ids[i..]) == LogicModel.TickRooms(State(), ids[i + 1..])
    {
      hide ServerInv, Step, Act, RoomModel.Tick;
      ghost var before := State();
      assert ids[i..][0] == ids[i] && ids[i..][1..] == ids[i + 1..];
      assert ids[i] in ids[i..];
      TickRoomsKeepsInv(config, before, [ids[i]]);
      OneTick(before, ids[i]);
      LiveRoom(ids[i]);
      var ticked := rooms[ids[i]].Tick();
      StepTick(before.rooms[ids[i]]);
      RoomDid(before, ids[i], DoTick);
    }
  }

  lemma EmptyMap(m: map<int, int>)
    ensures |m| == 0 <==> m == map[]
  {
  }

  lemma CreatedForNewcomer(c: Config, s: ServerState, u: int, name: string, seed: int, frameId: int)
    requires u !in s.userid2roomid && s.roomidPool != {}
    ensures var r := Min(s.roomidPool);
      LogicModel.HandleCreateRoom(c, s, u, name, seed, frameId)
      == LogicModel.AddPlayerToRoom(Send(LogicModel.AddRoom(c, s, name, seed, frameId),
                                         [Sent(u, CreateRoomReply(true, r, name, true))]), u, r)
  {
    hide LogicModel.AddPlayerToRoom;
  }

  lemma OneTick(s: ServerState, r: int)
    requires r in s.rooms
    ensures LogicModel.TickRooms(s, [r]) == Act(s, r, DoTick)
  {
    hide Act;
    assert [r][1..] == [];
  }

  // ---- what each room event stands for ----

  lemma StepNotifyUserJoinGame(s: RoomModel.RoomState, u: int)
    ensures Step(s, DoNotifyUserJoinGame(u)) == RoomModel.Outcome(RoomModel.NotifyUserJoinGame(s, u), [])
  {
  }

  lemma StepLeaveFromGame(s: RoomModel.RoomState, u: int)
    ensures Step(s, DoLeaveFromGame(u)) == RoomModel.LeaveFromGame(s, u)
  {
  }

  lemma StepUserInfoChange(s: RoomModel.RoomState, u: int, role: int)
    ensures Step(s, DoUserInfoChange(u, role)) == RoomModel.UserInfoChange(s, u, role)
  {
  }

  lemma StepStartGame(s: RoomModel.RoomState, u: int)
    ensures Step(s, DoStartGame(u)) == RoomModel.StartGame(s, u)
  {
  }

  lemma StepEndGame(s: RoomModel.RoomState)
    ensures Step(s, DoEndGame) == RoomModel.EndGame(s)
  {
  }

  lemma StepOnUserOperate(s: RoomModel.RoomState, u: int, op: UserOperate)
    ensures Step(s, DoUserOperate(u, op)) == RoomModel.Outcome(RoomModel.OnUserOperate(s, u, op), [])
  {
  }

  lemma StepReconnect(s: RoomModel.RoomState, u: int)
    ensures Step(s, DoReconnect(u)) == RoomModel.Reconnect(s, u)
  {
  }

  lemma StepLeaveFromRoom(s: RoomModel.RoomState, u: int)
    ensures Step(s, DoLeaveFromRoom(u)) == RoomModel.LeaveFromRoom(s, u)
  {
  }

  lemma StepJoinRoom(s: RoomModel.RoomState, u: int, name: string)
    ensures Step(s, DoJoinRoom(u, name)) == RoomModel.JoinRoom(s, u, name)
  {
  }

  lemma StepSetUserOffline(s: RoomModel.RoomState, u: int)
    ensures Step(s, DoSetUserOffline(u)) == RoomModel.SetUserOffline(s, u)
  {
  }

  lemma StepTick(s: RoomModel.RoomState)
    ensures Step(s, DoTick) == RoomModel.Tick(s)
  {
  }
}
