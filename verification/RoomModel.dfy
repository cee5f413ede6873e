/** The game room as a state machine on values: one function per operation of the
    room, giving the new state and the notices sent, in order. */
module RoomModel {
  import opened Basics
  import opened Messages

  datatype RoomState = RoomState(
    id: int,
    name: string,
    size: int,
    seed: int,
    chase: bool,
    started: bool,
    host: int,
    pool: set<int>,
    members: map<int, int>,
    roles: map<int, int>,
    names: map<int, string>,
    inGame: map<int, int>,
    offline: set<int>,
    frame: Frame,
    frameId: int,
    allFrames: seq<Frame>)

  const NO_HOST := -1

  datatype Outcome = Outcome(room: RoomState, sent: seq<Sent>)

  /** A freshly constructed room; the frame counter is not initialised before the first game. */
  function Fresh(id: int, name: string, size: nat, seed: int, chase: bool, frameId: int): RoomState {
    RoomState(id, name, size, seed, chase, false, NO_HOST, UpTo(size), map[], map[], map[], map[], {},
              Frame(0, []), frameId, [])
  }

  predicate IsFull(s: RoomState) {
    |s.members| >= s.size
  }

  // ---- roster ----

  function InfoOf(s: RoomState, u: int): UserInfo {
    UserInfo(u, Get(s.names, u, ""), s.host == u, Get(s.roles, u, 0), Get(s.members, u, 0), u in s.inGame)
  }

  function InfosOf(s: RoomState, users: seq<int>): seq<UserInfo> {
    seq(|users|, i requires 0 <= i < |users| => InfoOf(s, users[i]))
  }

  function Roster(s: RoomState): seq<UserInfo> {
    InfosOf(s, Ascending(s.names.Keys))
  }

  function RoomInfo(s: RoomState): Notice {
    RoomInfoNotice(s.id, s.started, Roster(s))
  }

  function InfoToAll(s: RoomState): seq<Sent> {
    Broadcast(Ascending(s.roles.Keys), RoomInfo(s))
  }

  // ---- operations of the current frame ----

  function AddOperate(f: Frame, op: UserOperate): Frame {
    f.(operates := f.operates + [op])
  }

  function JoinGameOperate(s: RoomState, u: int): UserOperate {
    UserOperate([Get(s.roles, u, 0)], JOIN_GAME, Get(s.members, u, 0))
  }

  function NotifyUserJoinGame(s: RoomState, u: int): RoomState {
    if !s.started || u !in s.members then s else s.(frame := AddOperate(s.frame, JoinGameOperate(s, u)))
  }

  function NotifyUserQuitGame(s: RoomState, u: int): RoomState {
    if !s.started || u !in s.inGame then s
    else s.(frame := AddOperate(s.frame, UserOperate([], LEAVE_GAME, s.inGame[u])))
  }

  function OnUserOperate(s: RoomState, u: int, op: UserOperate): RoomState {
    if !s.started || u !in s.members then s
    else s.(frame := AddOperate(s.frame, op.(userpid := s.members[u])))
  }

  // ---- joining and leaving ----

  function JoinGame(s: RoomState, u: int): RoomState {
    if !s.started || u !in s.members then s
    else NotifyUserJoinGame(s, u).(inGame := s.inGame[u := s.members[u]])
  }

  function JoinAll(s: RoomState, users: seq<int>): RoomState
    decreases |users|
  {
    if users == [] then s else JoinAll(JoinGame(s, users[0]), users[1..])
  }

  /** `Resize(m_size + 1)` */
  function Grow(s: RoomState): RoomState {
    s.(pool := s.pool + {s.size + 1}, size := s.size + 1)
  }

  predicate Admits(s: RoomState, u: int) {
    !s.started && !IsFull(s) && u !in s.members
  }

  function Admit(s: RoomState, u: int, name: string): RoomState {
    var g := if s.pool == {} then Grow(s) else s;
    var pid := Min(g.pool);
    g.(pool := g.pool - {pid},
       members := g.members[u := pid],
       roles := g.roles[u := 1],
       names := g.names[u := name],
       host := if g.host == NO_HOST then u else g.host)
  }

  /** The first reason that applies. */
  function Refusal(s: RoomState, u: int): JoinResult
    requires !Admits(s, u)
  {
    if s.started then GameRunning else if IsFull(s) then RoomFull else AlreadyInside
  }

  function JoinRoom(s: RoomState, u: int, name: string): Outcome {
    if Admits(s, u) then
      var t := Admit(s, u, name);
      Outcome(t, [Sent(u, JoinRoomReply(true, s.id, Entered))] + InfoToAll(t))
    else
      Outcome(s, [Sent(u, JoinRoomReply(false, -1, Refusal(s, u)))])
  }

  /** The in-game map without `u`. */
  function Without<V>(m: map<int, V>, u: int): map<int, V> {
    m - {u}
  }

  /** LeaveFromGame, EndGame and KickAllUserFromGame call each other. The measure is the
      number of players in game, then whether the game is marked as started. */
  function LeaveFromGame(s: RoomState, u: int): (r: Outcome)
    ensures |r.room.inGame.Keys| <= |s.inGame.Keys|
    ensures r.room.started ==> s.started
    decreases |s.inGame.Keys|, s.started, 0
  {
    if u !in s.inGame then Outcome(s, [])
    else
      var erased := NotifyUserQuitGame(s.(inGame := Without(s.inGame, u)), u);
      assert erased.inGame.Keys == s.inGame.Keys - {u};
      var e := if erased.inGame == map[] then EndGame(erased) else Outcome(erased, []);
      Outcome(e.room, e.sent + InfoToAll(e.room))
  }

  function EndGame(s: RoomState): (r: Outcome)
    ensures |r.room.inGame.Keys| <= |s.inGame.Keys|
    ensures !r.room.started
    decreases |s.inGame.Keys|, s.started, 0
  {
    if !s.started then Outcome(s, [])
    else
      var users := Ascending(s.inGame.Keys);
      var k := KickFromGame(s.(started := false), users);
      Outcome(k.room, Broadcast(users, EndGameNotice(s.id)) + k.sent + InfoToAll(k.room))
  }

  /** LeaveFromGame for each listed user. */
  function KickFromGame(s: RoomState, users: seq<int>): (r: Outcome)
    ensures |r.room.inGame.Keys| <= |s.inGame.Keys|
    ensures r.room.started ==> s.started
    decreases |s.inGame.Keys|, s.started, |users| + 1
  {
    if users == [] then Outcome(s, [])
    else
      var a := LeaveFromGame(s, users[0]);
      var b := KickFromGame(a.room, users[1..]);
      Outcome(b.room, a.sent + b.sent)
  }

  function KickAllUserFromGame(s: RoomState): Outcome {
    KickFromGame(s, Ascending(s.inGame.Keys))
  }

  function RemoveMember(s: RoomState, u: int): RoomState
    requires u in s.members
  {
    var left := Without(s.members, u);
    s.(pool := s.pool + {s.members[u]},
       members := left,
       roles := Without(s.roles, u),
       names := Without(s.names, u),
       host := if s.host != u then s.host else if left == map[] then NO_HOST else Min(left.Keys))
  }

  function LeaveFromRoom(s: RoomState, u: int): Outcome {
    var g := LeaveFromGame(s, u);
    if u !in g.room.members then Outcome(g.room, g.sent + [Sent(u, LeaveRoomReply(false, 0))])
    else
      var t := RemoveMember(g.room, u);
      Outcome(t, g.sent + InfoToAll(t))
  }

  function Leave(s: RoomState, u: int): Outcome {
    var g := LeaveFromGame(s, u);
    var r := LeaveFromRoom(g.room, u);
    Outcome(r.room, g.sent + r.sent)
  }

  function KickFromRoom(s: RoomState, users: seq<int>): Outcome
    decreases |users|
  {
    if users == [] then Outcome(s, [])
    else
      var a := LeaveFromRoom(s, users[0]);
      var b := KickFromRoom(a.room, users[1..]);
      Outcome(b.room, a.sent + b.sent)
  }

  function KickAllUserFromRoom(s: RoomState): Outcome {
    KickFromRoom(s, Ascending(s.members.Keys))
  }

  /** The destructor: everyone returns to the room, then leaves it. */
  function Destroy(s: RoomState): Outcome {
    var e := EndGame(s);
    var k := KickAllUserFromRoom(e.room);
    Outcome(k.room, e.sent + k.sent)
  }

  // ---- game ----

  function StartNotice(s: RoomState, u: int): Sent {
    Sent(u, StartGameNotice(s.id, s.seed, Get(s.members, u, 0)))
  }

  function StartNotices(s: RoomState, users: seq<int>): seq<Sent> {
    seq(|users|, i requires 0 <= i < |users| => StartNotice(s, users[i]))
  }

  /** The state StartGame sets up before anyone joins the game. */
  function Cleared(s: RoomState): RoomState {
    s.(started := true, frameId := 0, frame := s.frame.(operates := []), allFrames := [])
  }

  predicate Starts(s: RoomState, u: int) {
    !s.started && u == s.host
  }

  function StartGame(s: RoomState, u: int): Outcome {
    if !Starts(s, u) then Outcome(s, [])
    else
      var users := Ascending(s.members.Keys);
      var t := JoinAll(Cleared(s), users);
      Outcome(t, StartNotices(Cleared(s), users) + InfoToAll(t))
  }

  function Tick(s: RoomState): Outcome {
    if !s.started then Outcome(s, [])
    else
      var f := s.frame.(frameId := s.frameId + 1);
      Outcome(s.(frameId := s.frameId + 1,
                 frame := f.(operates := []),
                 allFrames := if s.chase then s.allFrames + [f] else s.allFrames),
              Broadcast(Ascending(s.inGame.Keys), FrameNotice(f)))
  }

  function Reconnect(s: RoomState, u: int): Outcome {
    if u !in s.members then Outcome(s, [])
    else
      Outcome(JoinGame(s.(offline := s.offline - {u}), u),
              [Sent(u, ReconnectNotice(s.members[u], s.id, s.host == u, s.seed)),
               StartNotice(s, u),
               Sent(u, ChaseFrameNotice(GameReplay(s.allFrames)))])
  }

  function SetUserOffline(s: RoomState, u: int): Outcome {
    if u !in s.members || u in s.offline then Outcome(s, [])
    else LeaveFromGame(s.(offline := s.offline + {u}), u)
  }

  predicate CheckRoomDead(s: RoomState) {
    |s.offline| == |s.members|
  }

  function UserInfoChange(s: RoomState, u: int, role: int): Outcome {
    if u !in s.members then Outcome(s, [])
    else
      var t := s.(roles := s.roles[u := role]);
      Outcome(t, InfoToAll(t))
  }
}
