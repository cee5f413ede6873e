/** What every reachable room satisfies: the pid allocator partitions 1..size, the roster
    maps agree, the host is a member, and a game is running exactly while somebody plays. */
module RoomInvariant {
  import opened Basics
  import opened Messages
  import opened RoomModel
  import opened RoomShutdown

  datatype RoomEvent =
    | DoJoinRoom(u: int, name: string)
    | DoLeave(u: int)
    | DoLeaveFromRoom(u: int)
    | DoLeaveFromGame(u: int)
    | DoKickAllUserFromGame
    | DoKickAllUserFromRoom
    | DoStartGame(u: int)
    | DoEndGame
    | DoTick
    | DoReconnect(u: int)
    | DoUserOperate(u: int, op: UserOperate)
    | DoNotifyUserJoinGame(u: int)
    | DoSetUserOffline(u: int)
    | DoUserInfoChange(u: int, role: int)

  function Step(s: RoomState, e: RoomEvent): Outcome {
    match e
    case DoJoinRoom(u, name) => JoinRoom(s, u, name)
    case DoLeave(u) => Leave(s, u)
    case DoLeaveFromRoom(u) => LeaveFromRoom(s, u)
    case DoLeaveFromGame(u) => LeaveFromGame(s, u)
    case DoKickAllUserFromGame => KickAllUserFromGame(s)
    case DoKickAllUserFromRoom => KickAllUserFromRoom(s)
    case DoStartGame(u) => StartGame(s, u)
    case DoEndGame => EndGame(s)
    case DoTick => Tick(s)
    case DoReconnect(u) => Reconnect(s, u)
    case DoUserOperate(u, op) => Outcome(OnUserOperate(s, u, op), [])
    case DoNotifyUserJoinGame(u) => Outcome(NotifyUserJoinGame(s, u), [])
    case DoSetUserOffline(u) => SetUserOffline(s, u)
    case DoUserInfoChange(u, role) => UserInfoChange(s, u, role)
  }

  /** The "no host" value must not be passed off as a user who starts a game in an empty room. */
  predicate Legal(s: RoomState, e: RoomEvent) {
    e.DoStartGame? && e.u == NO_HOST ==> s.members != map[]
  }

  // ---- the invariant ----

  ghost predicate PidInv(s: RoomState) {
    && 0 <= s.size
    && (forall p | p in s.pool :: 1 <= p <= s.size)
    && (forall u | u in s.members :: 1 <= s.members[u] <= s.size && s.members[u] !in s.pool)
    && (forall u, v | u in s.members && v in s.members && u != v :: s.members[u] != s.members[v])
    && |s.pool| + |s.members| == s.size
  }

  ghost predicate RosterInv(s: RoomState) {
    && s.roles.Keys == s.members.Keys
    && s.names.Keys == s.members.Keys
    && (if s.members == map[] then s.host == NO_HOST else s.host in s.members)
  }

  ghost predicate GameInv(s: RoomState) {
    && (forall u | u in s.inGame :: u in s.members && s.inGame[u] == s.members[u])
    && (s.started <==> s.inGame != map[])
  }

  /** Frames are numbered 1, 2, ... without gap or repeat. */
  ghost predicate Numbered(frames: seq<Frame>) {
    forall i | 0 <= i < |frames| :: frames[i].frameId == i + 1
  }

  ghost predicate LogInv(s: RoomState) {
    s.chase ==> Numbered(s.allFrames) && (s.started ==> |s.allFrames| == s.frameId)
  }

  ghost predicate RoomInv(s: RoomState) {
    PidInv(s) && RosterInv(s) && GameInv(s) && LogInv(s)
  }

  // ---- the invariant is kept ----

  lemma FreshRoomInv(id: int, name: string, size: nat, seed: int, chase: bool, frameId: int)
    ensures RoomInv(Fresh(id, name, size, seed, chase, frameId))
  {
  }

  /** A room that is not full always has a free pid, so JoinRoom never grows the room. */
  lemma NotFullHasFreePid(s: RoomState)
    requires PidInv(s) && !IsFull(s)
    ensures s.pool != {}
  {
    assert |s.pool| != 0;
  }

  lemma JoinRoomKeepsInv(s: RoomState, u: int, name: string)
    requires RoomInv(s) && Admits(s, u)
    ensures RoomInv(Admit(s, u, name))
  {
    NotFullHasFreePid(s);
    var t := Admit(s, u, name);
    assert t.members.Keys == s.members.Keys + {u};
    assert |t.members| == |s.members| + 1;
  }

  lemma AfterLeavingKeepsInv(s: RoomState, gone: set<int>)
    requires RoomInv(s)
    ensures RoomInv(AfterLeaving(s, gone))
  {
  }

  lemma AfterEndKeepsInv(s: RoomState)
    requires RoomInv(s)
    ensures RoomInv(AfterEnd(s))
  {
  }

  lemma RemoveMemberKeepsInv(s: RoomState, u: int)
    requires RoomInv(s) && u in s.members && u !in s.inGame
    ensures RoomInv(RemoveMember(s, u))
  {
    var t := RemoveMember(s, u);
    assert t.members.Keys == s.members.Keys - {u};
    assert |t.members.Keys| == |s.members.Keys| - 1;
    assert t.roles.Keys == s.roles.Keys - {u};
    assert t.names.Keys == s.names.Keys - {u};
    assert PidInv(t);
  }

  lemma LeaveFromRoomEffect(s: RoomState, u: int)
    ensures LeaveFromRoom(s, u).room ==
            var g := AfterLeaving(s, {u});
            if u in s.members then RemoveMember(g, u) else g
  {
    LeaveFromGameEffect(s, u);
  }

  lemma LeaveFromRoomKeepsInv(s: RoomState, u: int)
    requires RoomInv(s)
    ensures RoomInv(LeaveFromRoom(s, u).room)
  {
    LeaveFromRoomEffect(s, u);
    AfterLeavingKeepsInv(s, {u});
    if u in s.members {
      RemoveMemberKeepsInv(AfterLeaving(s, {u}), u);
    }
  }

  lemma {:induction false} KickFromRoomKeepsInv(s: RoomState, users: seq<int>)
    requires RoomInv(s)
    ensures RoomInv(KickFromRoom(s, users).room)
    decreases |users|
  {
    if users == [] {
    } else {
      LeaveFromRoomKeepsInv(s, users[0]);
      KickFromRoomKeepsInv(LeaveFromRoom(s, users[0]).room, users[1..]);
    }
  }

  // ---- starting a game ----

  function JoinOperates(s: RoomState, users: seq<int>): seq<UserOperate> {
    seq(|users|, i requires 0 <= i < |users| => JoinGameOperate(s, users[i]))
  }

  function Chosen(m: map<int, int>, users: seq<int>): map<int, int> {
    map u | u in m && u in users :: m[u]
  }

  /** `s` after the listed members joined its game. */
  function Joined(s: RoomState, users: seq<int>): RoomState {
    s.(inGame := s.inGame + Chosen(s.members, users),
       frame := s.frame.(operates := s.frame.operates + JoinOperates(s, users)))
  }

  lemma JoinedStep(s: RoomState, users: seq<int>)
    requires s.started && users != [] && users[0] in s.members
    ensures Joined(JoinGame(s, users[0]), users[1..]) == Joined(s, users)
  {
    hide Get, JoinOperates, Chosen;
    var t := JoinGame(s, users[0]);
    JoinOperatesStep(s, t, users);
    ChosenStep(s.inGame, s.members, users);
    var op, rest := JoinGameOperate(s, users[0]), JoinOperates(t, users[1..]);
    assert s.frame.operates + [op] + rest == s.frame.operates + ([op] + rest);
  }

  lemma JoinOperatesStep(s: RoomState, t: RoomState, users: seq<int>)
    requires users != [] && t.members == s.members && t.roles == s.roles
    ensures JoinOperates(s, users) == [JoinGameOperate(s, users[0])] + JoinOperates(t, users[1..])
  {
  }

  lemma ChosenStep(inGame: map<int, int>, m: map<int, int>, users: seq<int>)
    requires users != [] && users[0] in m
    ensures inGame[users[0] := m[users[0]]] + Chosen(m, users[1..]) == inGame + Chosen(m, users)
  {
  }

  lemma {:induction false} JoinAllEffect(s: RoomState, users: seq<int>)
    requires s.started && SetOf(users) <= s.members.Keys
    ensures JoinAll(s, users) == Joined(s, users)
    decreases |users|
  {
    if users == [] {
      assert s.inGame + Chosen(s.members, users) == s.inGame;
      assert s.frame.operates + JoinOperates(s, users) == s.frame.operates;
    } else {
      assert users[0] in SetOf(users);
      SetOfSplit(users);
      JoinAllEffect(JoinGame(s, users[0]), users[1..]);
      JoinedStep(s, users);
    }
  }

  /** The room right after a successful StartGame: everyone plays, and the first frame
      already holds one JoinGame operation per member. */
  function Opened(s: RoomState): RoomState {
    s.(started := true, frameId := 0, allFrames := [], inGame := s.members,
       frame := s.frame.(operates := JoinOperates(s, Ascending(s.members.Keys))))
  }

  lemma StartGameEffect(s: RoomState, u: int)
    requires RoomInv(s) && Starts(s, u)
    ensures StartGame(s, u).room == Opened(s)
  {
    var users := Ascending(s.members.Keys);
    assert s.inGame == map[];
    JoinAllEffect(Cleared(s), users);
    JoinedAll(s, users);
  }

  lemma JoinedAll(s: RoomState, users: seq<int>)
    requires s.inGame == map[] && forall k :: k in users <==> k in s.members
    ensures Joined(Cleared(s), users) ==
            s.(started := true, frameId := 0, allFrames := [], inGame := s.members,
               frame := s.frame.(operates := JoinOperates(s, users)))
  {
    var c := Cleared(s);
    assert JoinOperates(c, users) == JoinOperates(s, users);
    assert forall u | u in s.members :: u in users;
    assert Chosen(s.members, users).Keys == s.members.Keys;
    assert Chosen(s.members, users) == s.members;
    assert c.inGame + s.members == s.members;
    assert c.frame.operates + JoinOperates(s, users) == JoinOperates(s, users);
  }

  lemma StartGameKeepsInv(s: RoomState, u: int)
    requires RoomInv(s) && Legal(s, DoStartGame(u))
    ensures RoomInv(StartGame(s, u).room)
  {
    if Starts(s, u) {
      StartGameEffect(s, u);
    }
  }

  lemma TickKeepsInv(s: RoomState)
    requires RoomInv(s)
    ensures RoomInv(Tick(s).room)
  {
    hide Broadcast, Ascending;
  }

  lemma ReconnectKeepsInv(s: RoomState, u: int)
    requires RoomInv(s)
    ensures RoomInv(Reconnect(s, u).room)
  {
  }

  lemma SetUserOfflineKeepsInv(s: RoomState, u: int)
    requires RoomInv(s)
    ensures RoomInv(SetUserOffline(s, u).room)
  {
    var t := s.(offline := s.offline + {u});
    LeaveFromGameEffect(t, u);
    AfterLeavingKeepsInv(t, {u});
  }

  lemma LeaveKeepsInv(s: RoomState, u: int)
    requires RoomInv(s)
    ensures RoomInv(Leave(s, u).room)
  {
    LeaveFromGameEffect(s, u);
    AfterLeavingKeepsInv(s, {u});
    LeaveFromRoomKeepsInv(AfterLeaving(s, {u}), u);
  }

  lemma FrameKeepsInv(s: RoomState, f: Frame)
    requires RoomInv(s)
    ensures RoomInv(s.(frame := f))
  {
  }

  lemma UserInfoChangeKeepsInv(s: RoomState, u: int, role: int)
    requires RoomInv(s)
    ensures RoomInv(UserInfoChange(s, u, role).room)
  {
    hide InfoToAll;
    if u in s.members {
      assert s.roles[u := role].Keys == s.roles.Keys + {u};
    }
  }

  /** A start keeps the invariant iff it is legal: nobody can join a game in an empty room, so
      starting one with the "no host" value would leave it running without players. */
  lemma StartKeepsInvIffLegal(s: RoomState, u: int)
    requires RoomInv(s)
    ensures RoomInv(StartGame(s, u).room) <==> Legal(s, DoStartGame(u))
  {
    if Legal(s, DoStartGame(u)) {
      StartGameKeepsInv(s, u);
    } else {
      NobodyPlays(s);
      assert JoinAll(Cleared(s), Ascending(s.members.Keys)) == Cleared(s);
    }
  }

  lemma NobodyPlays(s: RoomState)
    requires GameInv(s) && s.members == map[]
    ensures s.inGame == map[] && !s.started
  {
    assert forall u | u in s.inGame :: u in s.members;
    assert forall u :: u !in s.inGame;
  }

  /** Every operation keeps the room invariant, but for the one start that is not legal. */
  lemma StepKeepsInv(s: RoomState, e: RoomEvent)
    requires RoomInv(s)
    ensures RoomInv(Step(s, e).room) <==> Legal(s, e)
  {
    hide PidInv, RosterInv, GameInv, LogInv;
    match e
    case DoJoinRoom(u, name) => if Admits(s, u) { JoinRoomKeepsInv(s, u, name); }
    case DoLeave(u) => LeaveKeepsInv(s, u);
    case DoLeaveFromRoom(u) => LeaveFromRoomKeepsInv(s, u);
    case DoLeaveFromGame(u) => LeaveFromGameEffect(s, u); AfterLeavingKeepsInv(s, {u});
    case DoKickAllUserFromGame =>
      KickFromGameEffect(s, Ascending(s.inGame.Keys));
      AfterLeavingKeepsInv(s, SetOf(Ascending(s.inGame.Keys)));
    case DoKickAllUserFromRoom => KickFromRoomKeepsInv(s, Ascending(s.members.Keys));
    case DoStartGame(u) => StartKeepsInvIffLegal(s, u);
    case DoEndGame => EndGameEffect(s); AfterEndKeepsInv(s);
    case DoTick => TickKeepsInv(s);
    case DoReconnect(u) => ReconnectKeepsInv(s, u);
    case DoUserOperate(u, op) => FrameKeepsInv(s, OnUserOperate(s, u, op).frame);
    case DoNotifyUserJoinGame(u) => FrameKeepsInv(s, NotifyUserJoinGame(s, u).frame);
    case DoSetUserOffline(u) => SetUserOfflineKeepsInv(s, u);
    case DoUserInfoChange(u, role) => UserInfoChangeKeepsInv(s, u, role);
  }

  // ---- what the invariant says ----

  /** The pids handed out to members. */
  function AssignedPids(m: map<int, int>): set<int> {
    set u | u in m :: m[u]
  }

  /** The free pids and the assigned pids split 1..size between them. */
  lemma PidsPartition(s: RoomState)
    requires PidInv(s)
    ensures s.pool !! AssignedPids(s.members)
    ensures s.pool + AssignedPids(s.members) == UpTo(s.size)
  {
    AssignedPidsSize(s.members);
    SubsetOfSameSize(s.pool, AssignedPids(s.members), UpTo(s.size));
  }

  lemma {:induction false} AssignedPidsSize(m: map<int, int>)
    requires forall u, v | u in m && v in m && u != v :: m[u] != m[v]
    ensures |AssignedPids(m)| == |m.Keys|
    decreases |m.Keys|
  {
    if m.Keys == {} {
      assert AssignedPids(m) == {};
    } else {
      var k := Min(m.Keys);
      var rest := m - {k};
      assert rest.Keys == m.Keys - {k};
      AssignedPidsSize(rest);
      assert AssignedPids(m) == AssignedPids(rest) + {m[k]} by {
        assert forall u | u in m && u != k :: u in rest && rest[u] == m[u];
      }
      assert m[k] !in AssignedPids(rest);
    }
  }

  lemma SubsetOfSameSize(a: set<int>, b: set<int>, c: set<int>)
    requires a !! b && a + b <= c && |a| + |b| == |c|
    ensures a + b == c
  {
    assert |a + b| == |a| + |b|;
    assert c == (a + b) + (c - (a + b));
    assert |c - (a + b)| == 0;
  }

  /** The roster lists each member once, in ascending order, with its own pid and role. */
  lemma RosterIsFaithful(s: RoomState)
    requires RosterInv(s)
    ensures |Roster(s)| == |s.members|
    ensures forall i, j | 0 <= i < j < |Roster(s)| :: Roster(s)[i].userid < Roster(s)[j].userid
    ensures forall x | x in Roster(s) :: x.userid in s.members && x == InfoOf(s, x.userid)
    ensures forall u | u in s.members :: InfoOf(s, u) in Roster(s)
  {
    var keys := Ascending(s.names.Keys);
    assert |keys| == |s.members.Keys|;
    InfosInOrder(s, keys);
    InfosOfAll(s, keys);
  }

  lemma InfosInOrder(s: RoomState, keys: seq<int>)
    requires Increasing(keys)
    ensures forall i, j | 0 <= i < j < |keys| :: InfosOf(s, keys)[i].userid < InfosOf(s, keys)[j].userid
  {
  }

  lemma InfosOfAll(s: RoomState, keys: seq<int>)
    ensures forall x | x in InfosOf(s, keys) :: x.userid in keys && x == InfoOf(s, x.userid)
    ensures forall u | u in keys :: InfoOf(s, u) in InfosOf(s, keys)
  {
    forall u | u in keys
      ensures InfoOf(s, u) in InfosOf(s, keys)
    {
      var i :| 0 <= i < |keys| && keys[i] == u;
      assert InfosOf(s, keys)[i] == InfoOf(s, u);
    }
  }

  /** A room that is not empty shows exactly one host, an empty room has none. */
  lemma ExactlyOneHost(s: RoomState)
    requires RosterInv(s)
    ensures s.members != map[] <==> exists x :: x in Roster(s) && x.isRoomHost
    ensures forall x, y | x in Roster(s) && y in Roster(s) && x.isRoomHost && y.isRoomHost :: x == y
  {
    RosterIsFaithful(s);
    if s.members != map[] {
      assert InfoOf(s, s.host) in Roster(s);
    }
  }
}
