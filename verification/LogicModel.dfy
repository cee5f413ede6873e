/** The logic server as a state machine on values: the rooms, the pool of room ids, and the
    index from users to rooms, driven by the messages of the gate and by the frame timer. */
module LogicModel {
  import opened Basics
  import opened Messages
  import opened RoomModel
  import opened RoomInvariant

  datatype Config = Config(roomSize: nat, poolSize: nat, defaultRoomCount: nat, chase: bool)

  datatype ServerState = ServerState(
    rooms: map<int, RoomState>,
    roomidPool: set<int>,
    roomidUsing: set<int>,
    userid2roomid: map<int, int>,
    usernames: map<int, string>,
    log: seq<Sent>)

  datatype ServerEvent =
    | LoginResponse(u: int, username: string)
    | JoinRoomRequest(u: int, roomid: int)
    | LeaveRoomRequest(u: int, roomid: int)
    | CreateRoomRequest(u: int, roomname: string, seed: int, frameId: int)
    | JoinGameRequest(u: int)
    | QuitGameRequest(u: int)
    | ChangeRoleRequest(u: int, role: int)
    | StartGameRequest(u: int)
    | EndGameRequest(u: int)
    | UserOperateRequest(u: int, op: UserOperate)
    | UserLogout(u: int)
    | UpdateTimer

  function Boot(c: Config): ServerState {
    ServerState(map[], UpTo(c.poolSize), {}, map[], map[], [])
  }

  /** Every index entry leads to a live room. */
  ghost predicate IndexLive(s: ServerState) {
    forall u | u in s.userid2roomid :: s.userid2roomid[u] in s.rooms
  }

  function Send(s: ServerState, sent: seq<Sent>): ServerState {
    s.(log := s.log + sent)
  }

  /** One operation of room `r`, as `rooms[r]->...` performs it. */
  function Act(s: ServerState, r: int, e: RoomEvent): ServerState
    requires r in s.rooms
  {
    var o := Step(s.rooms[r], e);
    s.(rooms := s.rooms[r := o.room], log := s.log + o.sent)
  }

  // ---- rooms ----

  /** `*roomid_pool.begin()` becomes the id of a new, empty room. */
  function AddRoom(c: Config, s: ServerState, name: string, seed: int, frameId: int): ServerState
    requires s.roomidPool != {}
  {
    var r := Min(s.roomidPool);
    s.(rooms := s.rooms[r := Fresh(r, name, c.roomSize, seed, c.chase, frameId)],
       roomidPool := s.roomidPool - {r},
       roomidUsing := s.roomidUsing + {r})
  }

  /** Index entries of users who are not in room `r`. */
  function Outside(index: map<int, int>, r: int): map<int, int> {
    map u | u in index && index[u] != r :: index[u]
  }

  function RemoveRoom(c: Config, s: ServerState, r: int): ServerState
    requires r in s.roomidUsing ==> r in s.rooms
  {
    if r !in s.roomidUsing then s
    else
      ServerState(s.rooms - {r},
                  if r <= c.defaultRoomCount then s.roomidPool + {r} else s.roomidPool,
                  s.roomidUsing - {r},
                  Outside(s.userid2roomid, r),
                  s.usernames,
                  s.log + Destroy(s.rooms[r]).sent)
  }

  // ---- moving users ----

  /** Room `r` after `u` left, with the index entry of `u` gone. */
  function TakeOut(s: ServerState, u: int, r: int): ServerState
    requires r in s.rooms
  {
    Act(s.(userid2roomid := Without(s.userid2roomid, u)), r, DoLeaveFromRoom(u))
  }

  function RemovePlayerFromRoom(c: Config, s: ServerState, u: int): ServerState
    requires u in s.userid2roomid ==> s.userid2roomid[u] in s.rooms
  {
    if u !in s.userid2roomid then s
    else
      var r := s.userid2roomid[u];
      var t := TakeOut(s, u, r);
      if t.rooms[r].members == map[] then RemoveRoom(c, t, r) else t
  }

  function AddPlayerToRoom(s: ServerState, u: int, r: int): ServerState
    requires r in s.rooms
  {
    var t := Act(s, r, DoJoinRoom(u, Get(s.usernames, u, "")));
    if Admits(s.rooms[r], u) then t.(userid2roomid := t.userid2roomid[u := r]) else t
  }

  /** The target room must outlive the departure: removing its only occupant deletes it. */
  function MovePlayerToRoom(c: Config, s: ServerState, u: int, r: int): ServerState
    requires u in s.userid2roomid ==> s.userid2roomid[u] in s.rooms
    requires r in RemovePlayerFromRoom(c, s, u).rooms
  {
    AddPlayerToRoom(RemovePlayerFromRoom(c, s, u), u, r)
  }

  // ---- messages ----

  predicate InRoom(s: ServerState, u: int) {
    u in s.userid2roomid && s.userid2roomid[u] in s.rooms
  }

  function ActFor(s: ServerState, u: int, e: RoomEvent): ServerState {
    if InRoom(s, u) then Act(s, s.userid2roomid[u], e) else s
  }

  function HandleLogin(s: ServerState, u: int, username: string): ServerState {
    var t := s.(usernames := s.usernames[u := username]);
    if InRoom(t, u) && t.rooms[t.userid2roomid[u]].started then ActFor(t, u, DoReconnect(u)) else t
  }

  function HandleJoinRoom(c: Config, s: ServerState, u: int, r: int): ServerState
    requires u in s.userid2roomid ==> s.userid2roomid[u] in s.rooms
    requires r in s.rooms ==> r in RemovePlayerFromRoom(c, s, u).rooms
  {
    if r !in s.rooms then Send(s, [Sent(u, JoinRoomReply(false, -1, NoSuchRoom))])
    else MovePlayerToRoom(c, s, u, r)
  }

  function HandleLeaveRoom(c: Config, s: ServerState, u: int, r: int): ServerState {
    if r !in s.rooms || u !in s.userid2roomid || s.userid2roomid[u] != r then
      Send(s, [Sent(u, LeaveRoomReply(false, r))])
    else RemovePlayerFromRoom(c, s, u)
  }

  function HandleCreateRoom(c: Config, s: ServerState, u: int, name: string, seed: int, frameId: int): ServerState
    requires u !in s.userid2roomid ==> s.roomidPool != {}
  {
    if u in s.userid2roomid then Send(s, [Sent(u, CreateRoomReply(false, -1, "Error", false))])
    else
      var r := Min(s.roomidPool);
      var t := Send(AddRoom(c, s, name, seed, frameId), [Sent(u, CreateRoomReply(true, r, name, true))]);
      MovePlayerToRoom(c, t, u, r)
  }

  function HandleLogout(c: Config, s: ServerState, u: int): ServerState
    requires u in s.userid2roomid ==> s.userid2roomid[u] in s.rooms
  {
    if u !in s.userid2roomid then s
    else
      var r := s.userid2roomid[u];
      var t := Act(s, r, DoSetUserOffline(u));
      if CheckRoomDead(t.rooms[r]) then RemoveRoom(c, t, r) else t
  }

  /** Tick for each listed room. */
  function TickRooms(s: ServerState, ids: seq<int>): ServerState
    requires forall r | r in ids :: r in s.rooms
    decreases |ids|
  {
    if ids == [] then s else TickRooms(Act(s, ids[0], DoTick), ids[1..])
  }

  function Update(s: ServerState): ServerState {
    TickRooms(s, Ascending(s.rooms.Keys))
  }

  /** The room id pool is not exhausted, and a user does not re-join the room it alone occupies. */
  predicate Enabled(s: ServerState, e: ServerEvent) {
    match e
    case JoinRoomRequest(u, r) => r in s.rooms ==> !SoleOccupant(s, u, r)
    case CreateRoomRequest(u, _, _, _) => u !in s.userid2roomid ==> s.roomidPool != {}
    case _ => true
  }

  predicate SoleOccupant(s: ServerState, u: int, r: int) {
    u in s.userid2roomid && s.userid2roomid[u] == r && r in s.rooms && s.rooms[r].members.Keys <= {u}
  }

  /** If leaving its old room deletes room `r`, then `u` alone occupied it. */
  lemma TargetSurvives(c: Config, s: ServerState, u: int, r: int)
    requires IndexLive(s) && r in s.rooms && !SoleOccupant(s, u, r)
    ensures r in RemovePlayerFromRoom(c, s, u).rooms
  {
    if u in s.userid2roomid && s.userid2roomid[u] == r {
      LeaverGone(s.rooms[r], u);
    }
  }

  lemma LeaverGone(s: RoomState, u: int)
    ensures LeaveFromRoom(s, u).room.members == Without(s.members, u)
    ensures Without(s.members, u) == map[] <==> s.members.Keys <= {u}
  {
    hide LeaveFromRoom;
    LeaveFromRoomEffect(s, u);
    EmptyWithout(s.members, u);
  }

  lemma EmptyWithout(m: map<int, int>, u: int)
    ensures Without(m, u) == map[] <==> m.Keys <= {u}
    ensures u !in m ==> Without(m, u) == m
  {
    assert Without(m, u).Keys == m.Keys - {u};
    assert Without(m, u) == map[] <==> Without(m, u).Keys == {};
    assert m.Keys - {u} == {} <==> m.Keys <= {u};
  }

  function Handle(c: Config, s: ServerState, e: ServerEvent): ServerState
    requires IndexLive(s) && Enabled(s, e)
  {
    match e
    case LoginResponse(u, username) => HandleLogin(s, u, username)
    case JoinRoomRequest(u, r) =>
      if r in s.rooms then TargetSurvives(c, s, u, r); HandleJoinRoom(c, s, u, r) else HandleJoinRoom(c, s, u, r)
    case LeaveRoomRequest(u, r) => HandleLeaveRoom(c, s, u, r)
    case CreateRoomRequest(u, name, seed, frameId) => HandleCreateRoom(c, s, u, name, seed, frameId)
    case JoinGameRequest(u) => ActFor(s, u, DoNotifyUserJoinGame(u))
    case QuitGameRequest(u) => ActFor(s, u, DoLeaveFromGame(u))
    case ChangeRoleRequest(u, role) => ActFor(s, u, DoUserInfoChange(u, role))
    case StartGameRequest(u) => ActFor(s, u, DoStartGame(u))
    case EndGameRequest(u) => ActFor(s, u, DoEndGame)
    case UserOperateRequest(u, op) => ActFor(s, u, DoUserOperate(u, op))
    case UserLogout(u) => HandleLogout(c, s, u)
    case UpdateTimer => Update(s)
  }
}
