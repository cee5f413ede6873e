/** The operation log of a game against an independent account of who was heard: conservation
    of operations, identity of pids, the opening of a game, and all safety over whole runs. */
module RoomHistory {
  import opened Basics
  import opened Messages
  import opened RoomModel
  import opened RoomInvariant
  import opened RoomGame

  /** An operation with the user it was accepted from. */
  datatype Stamped = Stamped(user: int, op: UserOperate)

  function Ops(h: seq<Stamped>): seq<UserOperate> {
    seq(|h|, i requires 0 <= i < |h| => h[i].op)
  }

  /** All operations of a list of frames, in order. */
  function Flatten(frames: seq<Frame>): seq<UserOperate> {
    if frames == [] then [] else Flatten(frames[..|frames| - 1]) + frames[|frames| - 1].operates
  }

  /** The operations of the game so far: those in ticked frames, then the pending ones. */
  function OpLog(s: RoomState): seq<UserOperate> {
    Flatten(s.allFrames) + s.frame.operates
  }

  // ---- the account, kept without looking at frames ----

  predicate Begins(s: RoomState, e: RoomEvent) {
    e.DoStartGame? && Starts(s, e.u)
  }

  /** What a frame says when a member joins the game: operation type 1 with the member's role,
      under the member's pid. */
  function Announcement(s: RoomState, u: int): UserOperate {
    UserOperate([Get(s.roles, u, 0)], 1, Get(s.members, u, 0))
  }

  function JoinStamps(s: RoomState, users: seq<int>): seq<Stamped> {
    seq(|users|, i requires 0 <= i < |users| => Stamped(users[i], Announcement(s, users[i])))
  }

  function Opening(s: RoomState): seq<Stamped> {
    JoinStamps(s, Ascending(s.members.Keys))
  }

  /** The operations a step adds to a running game. */
  function Accepted(s: RoomState, e: RoomEvent): seq<Stamped> {
    if !s.started then []
    else if e.DoUserOperate? && e.u in s.members then [Stamped(e.u, e.op.(userpid := s.members[e.u]))]
    else if (e.DoNotifyUserJoinGame? || e.DoReconnect?) && e.u in s.members then [Stamped(e.u, Announcement(s, e.u))]
    else []
  }

  /** What has been accepted since the last start of a game. */
  function Account(s: RoomState, h: seq<Stamped>, e: RoomEvent): seq<Stamped> {
    if Begins(s, e) then Opening(s) else h + Accepted(s, e)
  }

  ghost predicate Conserved(s: RoomState, h: seq<Stamped>) {
    s.chase ==> OpLog(s) == Ops(h)
  }

  /** While a game runs, an operation carries its author's pid, and the pid of an author who
      has left the room is still free. */
  ghost predicate PidsHeld(s: RoomState, h: seq<Stamped>) {
    s.started ==> forall x | x in h ::
        if x.user in s.members then x.op.userpid == s.members[x.user] else x.op.userpid in s.pool
  }

  /** A pid in the log names exactly one user. */
  ghost predicate PidIdentity(h: seq<Stamped>) {
    forall x, y | x in h && y in h :: x.user == y.user <==> x.op.userpid == y.op.userpid
  }

  // ---- conservation ----

  lemma FlattenNext(frames: seq<Frame>, f: Frame)
    ensures Flatten(frames + [f]) == Flatten(frames) + f.operates
  {
    assert (frames + [f])[..|frames|] == frames;
  }

  lemma AddOperateConserves(s: RoomState, h: seq<Stamped>, x: Stamped)
    requires Conserved(s, h)
    ensures Conserved(s.(frame := AddOperate(s.frame, x.op)), h + [x])
  {
    assert Flatten(s.allFrames) + (s.frame.operates + [x.op]) == OpLog(s) + [x.op];
    assert Ops(h + [x]) == Ops(h) + [x.op];
  }

  lemma TickConserves(s: RoomState, h: seq<Stamped>)
    requires Conserved(s, h)
    ensures Conserved(Tick(s).room, h)
  {
    hide Broadcast;
    if s.started && s.chase {
      var f := s.frame.(frameId := s.frameId + 1);
      FlattenNext(s.allFrames, f);
      assert OpLog(Tick(s).room) == Flatten(s.allFrames + [f]) + [];
    }
  }

  lemma StartConserves(s: RoomState, u: int)
    requires RoomInv(s) && Starts(s, u)
    ensures Conserved(StartGame(s, u).room, Opening(s))
  {
    hide StartGame, JoinOperates, JoinStamps, Ops;
    StartGameEffect(s, u);
    var users := Ascending(s.members.Keys);
    OpsOfStamps(s, users);
    assert OpLog(Opened(s)) == [] + JoinOperates(s, users);
  }

  lemma OpsOfStamps(s: RoomState, users: seq<int>)
    ensures Ops(JoinStamps(s, users)) == JoinOperates(s, users)
  {
    forall i | 0 <= i < |users|
      ensures JoinOperates(s, users)[i] == Ops(JoinStamps(s, users))[i]
    {
    }
  }

  lemma ReconnectConserves(s: RoomState, u: int, h: seq<Stamped>)
    requires Conserved(s, h)
    ensures Conserved(Reconnect(s, u).room, h + Accepted(s, DoReconnect(u)))
  {
    if s.started && u in s.members {
      AddOperateConserves(s, h, Stamped(u, Announcement(s, u)));
    } else {
      assert h + [] == h;
    }
  }

  /** No step loses, repeats or reorders an accepted operation. */
  lemma StepConserves(s: RoomState, e: RoomEvent, h: seq<Stamped>)
    requires RoomInv(s) && Conserved(s, h)
    ensures Conserved(Step(s, e).room, Account(s, h, e))
  {
    hide RoomInv, Quiet, Tick, StartGame, Reconnect, LeaveFromGame, LeaveFromRoom, EndGame, KickFromGame;
    if !MovesGame(e) {
      OtherStepsAreQuiet(s, e);
      assert Account(s, h, e) == h;
    } else if e.DoTick? {
      TickConserves(s, h);
      assert Account(s, h, e) == h;
    } else if e.DoStartGame? {
      if Starts(s, e.u) {
        StartConserves(s, e.u);
      } else {
        NoStart(s, e.u);
        assert Account(s, h, e) == h;
      }
    } else if e.DoReconnect? {
      ReconnectConserves(s, e.u, h);
    } else if !s.started || e.u !in s.members {
      assert Account(s, h, e) == h;
    } else {
      AddOperateConserves(s, h, Accepted(s, e)[0]);
    }
  }

  // ---- pids ----

  lemma CalmKeepsPids(s: RoomState, t: RoomState, h: seq<Stamped>)
    requires RoomInv(s) && Calm(s, t) && PidsHeld(s, h)
    ensures PidsHeld(t, h)
  {
  }

  /** Accepting an operation of a member keeps pids and users in step. */
  lemma AcceptKeepsPids(s: RoomState, h: seq<Stamped>, x: Stamped)
    requires RoomInv(s) && s.started && PidsHeld(s, h) && PidIdentity(h)
    requires x.user in s.members && x.op.userpid == s.members[x.user]
    ensures PidsHeld(s, h + [x]) && PidIdentity(h + [x])
  {
    forall y | y in h
      ensures y.user == x.user <==> y.op.userpid == x.op.userpid
    {
      if y.user in s.members && y.user != x.user {
        assert s.members[y.user] != s.members[x.user];
      }
    }
  }

  lemma OpeningPids(s: RoomState)
    requires RoomInv(s)
    ensures PidsHeld(Opened(s), Opening(s)) && PidIdentity(Opening(s))
  {
    hide JoinStamps, JoinOperates;
    var users := Ascending(s.members.Keys);
    forall x | x in Opening(s)
      ensures x.user in s.members && x.op.userpid == s.members[x.user]
    {
      StampsOfUsers(s, users, x);
    }
  }

  lemma StampsOfUsers(s: RoomState, users: seq<int>, x: Stamped)
    requires x in JoinStamps(s, users)
    ensures x.user in users && x.op == Announcement(s, x.user)
  {
    hide Announcement;
    var i :| 0 <= i < |users| && JoinStamps(s, users)[i] == x;
    assert users[i] in users;
  }

  lemma StepKeepsPids(s: RoomState, e: RoomEvent, h: seq<Stamped>)
    requires RoomInv(s) && PidsHeld(s, h) && PidIdentity(h)
    ensures PidsHeld(Step(s, e).room, Account(s, h, e)) && PidIdentity(Account(s, h, e))
  {
    hide RoomInv, Quiet, Opened, Opening, LeaveFromGame, LeaveFromRoom, EndGame, KickFromGame, StartGame;
    if !MovesGame(e) {
      hide PidsHeld, PidIdentity;
      OtherStepsAreQuiet(s, e);
      CalmKeepsPids(s, Step(s, e).room, h);
      assert Account(s, h, e) == h;
    } else if e.DoStartGame? {
      if Starts(s, e.u) {
        StartGameEffect(s, e.u);
        OpeningPids(s);
      } else {
        NoStart(s, e.u);
        assert Account(s, h, e) == h;
      }
    } else if e.DoTick? || !s.started || e.u !in s.members {
      assert Account(s, h, e) == h;
    } else {
      AcceptKeepsPids(s, h, Accepted(s, e)[0]);
    }
  }

  // ---- whole runs ----

  datatype World = World(room: RoomState, log: seq<Sent>, history: seq<Stamped>)

  function Next(w: World, e: RoomEvent): World {
    World(Step(w.room, e).room, w.log + Step(w.room, e).sent, Account(w.room, w.history, e))
  }

  function Run(w: World, es: seq<RoomEvent>): World
    decreases |es|
  {
    if es == [] then w else Run(Next(w, es[0]), es[1..])
  }

  predicate LegalRun(w: World, es: seq<RoomEvent>)
    decreases |es|
  {
    es == [] || (Legal(w.room, es[0]) && LegalRun(Next(w, es[0]), es[1..]))
  }

  ghost predicate Safe(w: World) {
    && RoomInv(w.room)
    && Lockstep(w.room, w.log)
    && Conserved(w.room, w.history)
    && PidsHeld(w.room, w.history)
    && PidIdentity(w.history)
  }

  lemma NextIsSafe(w: World, e: RoomEvent)
    requires Safe(w) && Legal(w.room, e)
    ensures Safe(Next(w, e))
  {
    hide RoomInv, Lockstep, Conserved, PidsHeld, PidIdentity, Step, Account;
    StepKeepsInv(w.room, e);
    StepKeepsLockstep(w.room, e, w.log);
    StepConserves(w.room, e, w.history);
    StepKeepsPids(w.room, e, w.history);
  }

  /** Every run from a safe room stays safe: lockstep, conservation, numbering, allocator,
      roster, host and pid identity hold after any sequence of operations. */
  lemma {:induction false} RunIsSafe(w: World, es: seq<RoomEvent>)
    requires Safe(w) && LegalRun(w, es)
    ensures Safe(Run(w, es))
    decreases |es|
  {
    hide Safe, Next, Legal;
    if es == [] {
    } else {
      NextIsSafe(w, es[0]);
      RunIsSafe(Next(w, es[0]), es[1..]);
    }
  }

  function FreshWorld(id: int, name: string, size: nat, seed: int, chase: bool, frameId: int, log: seq<Sent>): World {
    World(Fresh(id, name, size, seed, chase, frameId), log, [])
  }

  /** A new room is safe, whatever its clients received before. */
  lemma FreshIsSafe(id: int, name: string, size: nat, seed: int, chase: bool, frameId: int, log: seq<Sent>)
    ensures Safe(FreshWorld(id, name, size, seed, chase, frameId, log))
  {
    FreshRoomInv(id, name, size, seed, chase, frameId);
  }

  /** All that is safe holds of every run of every new room. In particular, with replay
      support on, players in game have seen exactly the numbered frames of the game, and
      those frames with the pending one hold every accepted operation exactly once. */
  lemma EveryRunIsSafe(id: int, name: string, size: nat, seed: int, frameId: int, log: seq<Sent>, es: seq<RoomEvent>)
    requires LegalRun(FreshWorld(id, name, size, seed, true, frameId, log), es)
    ensures var w := Run(FreshWorld(id, name, size, seed, true, frameId, log), es);
      && RoomInv(w.room)
      && OpLog(w.room) == Ops(w.history)
      && PidIdentity(w.history)
      && (w.room.started ==>
            && Numbered(w.room.allFrames) && |w.room.allFrames| == w.room.frameId
            && (forall u | u in w.room.inGame :: View(w.log, u) == w.room.allFrames)
            && (forall u | u in w.room.members :: View(w.log, u) <= w.room.allFrames))
  {
    var w0 := FreshWorld(id, name, size, seed, true, frameId, log);
    FreshIsSafe(id, name, size, seed, true, frameId, log);
    RunIsSafe(w0, es);
    RunKeepsChase(w0, es);
  }

  lemma {:induction false} RunKeepsChase(w: World, es: seq<RoomEvent>)
    requires RoomInv(w.room) && LegalRun(w, es)
    ensures Run(w, es).room.chase == w.room.chase
    decreases |es|
  {
    hide RoomInv, Account, Step;
    if es == [] {
    } else {
      StepKeepsInv(w.room, es[0]);
      StepKeepsChase(w.room, es[0]);
      RunKeepsChase(Next(w, es[0]), es[1..]);
    }
  }

  lemma StepKeepsChase(s: RoomState, e: RoomEvent)
    requires RoomInv(s)
    ensures Step(s, e).room.chase == s.chase
  {
    hide RoomInv, Quiet, StartGame, Tick, Reconnect;
    if !MovesGame(e) {
      hide Step;
      OtherStepsAreQuiet(s, e);
    } else if e.DoStartGame? {
      if Starts(s, e.u) { StartGameEffect(s, e.u); } else { NoStart(s, e.u); }
    } else if e.DoTick? {
      TickKeepsChase(s);
    } else if e.DoReconnect? {
      ReconnectKeepsChase(s, e.u);
    }
  }

  lemma TickKeepsChase(s: RoomState)
    ensures Tick(s).room.chase == s.chase
  {
    hide Broadcast, Ascending;
  }

  lemma ReconnectKeepsChase(s: RoomState, u: int)
    ensures Reconnect(s, u).room.chase == s.chase
  {
  }

  // ---- the opening of a game ----

  /** No game begins during the run. */
  predicate NoneBegins(w: World, es: seq<RoomEvent>)
    decreases |es|
  {
    es == [] || (!Begins(w.room, es[0]) && NoneBegins(Next(w, es[0]), es[1..]))
  }

  lemma {:induction false} HistoryGrows(w: World, es: seq<RoomEvent>)
    requires NoneBegins(w, es)
    ensures w.history <= Run(w, es).history
    decreases |es|
  {
    if es == [] {
    } else {
      HistoryGrows(Next(w, es[0]), es[1..]);
    }
  }

  /** The log begins with one operation of type 1 (JoinGame) per member of `before`, in ascending
      order of user: entry i carries the role and the pid of member i. */
  ghost predicate OpensWith(before: RoomState, log: seq<UserOperate>) {
    var users := Ascending(before.members.Keys);
    && |users| <= |log|
    && forall i | 0 <= i < |users| ::
         && users[i] in before.roles && users[i] in before.members
         && log[i].data == [before.roles[users[i]]]
         && log[i].opt == 1
         && log[i].userpid == before.members[users[i]]
  }

  /** A game's log opens with the members of the room and keeps that opening until the next game
      begins. */
  lemma GameOpening(w: World, u: int, es: seq<RoomEvent>)
    requires Safe(w) && w.room.chase && Begins(w.room, DoStartGame(u)) && Legal(w.room, DoStartGame(u))
    requires LegalRun(Next(w, DoStartGame(u)), es) && NoneBegins(Next(w, DoStartGame(u)), es)
    ensures OpensWith(w.room, OpLog(Run(Next(w, DoStartGame(u)), es).room))
  {
    var w1 := Next(w, DoStartGame(u));
    NextIsSafe(w, DoStartGame(u));
    RunIsSafe(w1, es);
    HistoryGrows(w1, es);
    StepKeepsChase(w.room, DoStartGame(u));
    RunKeepsChase(w1, es);
    OpsOfPrefix(Opening(w.room), Run(w1, es).history);
    RosterOf(w.room);
    OpeningByIndex(w.room, OpLog(Run(w1, es).room));
  }

  lemma RosterOf(s: RoomState)
    requires RoomInv(s)
    ensures RosterInv(s)
  {
  }

  lemma OpeningByIndex(s: RoomState, log: seq<UserOperate>)
    requires RosterInv(s) && Ops(Opening(s)) <= log
    ensures OpensWith(s, log)
  {
    var users := Ascending(s.members.Keys);
    hide RosterInv;
    forall i | 0 <= i < |users|
      ensures users[i] in s.members && log[i] == Announcement(s, users[i])
    {
      assert users[i] in users;
      assert log[i] == Ops(Opening(s))[i];
    }
    hide Ascending, Opening, Ops;
    assert forall i | 0 <= i < |users| :: users[i] in s.members;
    RolesOfMembers(s);
  }

  lemma RolesOfMembers(s: RoomState)
    requires RosterInv(s)
    ensures forall u | u in s.members :: u in s.roles
  {
    assert s.roles.Keys == s.members.Keys;
    forall u | u in s.members
      ensures u in s.roles
    {
      assert u in s.members.Keys;
    }
  }

  /** Event `k` of the run starts a game, and the log still begins with that game's opening:
      one JoinGame operation for each member the room had then. */
  ghost predicate OpenedAt(w: World, es: seq<RoomEvent>, k: int) {
    0 <= k < |es| &&
    var before := Run(w, es[..k]).room;
    Begins(before, es[k]) && OpensWith(before, OpLog(Run(w, es).room))
  }

  /** Whenever a game runs, its log begins with the opening of the last start. */
  lemma RunningGameWasOpened(w: World, es: seq<RoomEvent>)
    requires Safe(w) && w.room.chase && !w.room.started
    requires LegalRun(w, es) && Run(w, es).room.started
    ensures exists k :: OpenedAt(w, es, k)
  {
    hide Safe, Run, LegalRun, NoneBegins, Begins, Next, OpLog, OpensWith;
    if NoneBegins(w, es) {
      NoGameWithoutStart(w, es);
    } else {
      var k := LastStart(w, es);
      var before := Run(w, es[..k]);
      RunSplit(w, es, k);
      RunIsSafe(w, es[..k]);
      RunOfFirst(before, es[k..]);
      assert es[k..][0] == es[k] && es[k..][1..] == es[k + 1..];
      RunKeepsChaseFrom(w, es[..k]);
      assert es[k].DoStartGame? by { BeginsMeans(before.room, es[k]); }
      GameOpening(before, es[k].u, es[k + 1..]);
      assert OpenedAt(w, es, k);
    }
  }

  lemma BeginsMeans(s: RoomState, e: RoomEvent)
    requires Begins(s, e)
    ensures e.DoStartGame?
  {
  }

  lemma RunKeepsChaseFrom(w: World, es: seq<RoomEvent>)
    requires Safe(w) && LegalRun(w, es)
    ensures Run(w, es).room.chase == w.room.chase
  {
    RunKeepsChase(w, es);
  }

  lemma RunOfFirst(w: World, es: seq<RoomEvent>)
    requires es != []
    ensures Run(w, es) == Run(Next(w, es[0]), es[1..])
    ensures LegalRun(w, es) ==> Legal(w.room, es[0]) && LegalRun(Next(w, es[0]), es[1..])
  {
  }

  lemma {:induction false} RunThenNext(w: World, es: seq<RoomEvent>, e: RoomEvent)
    requires LegalRun(w, es) && Legal(Run(w, es).room, e)
    ensures LegalRun(w, es + [e]) && Run(w, es + [e]) == Next(Run(w, es), e)
    decreases |es|
  {
    hide Next, Legal;
    if es == [] {
      assert es + [e] == [e] && [e][1..] == [];
    } else {
      assert (es + [e])[1..] == es[1..] + [e];
      RunThenNext(Next(w, es[0]), es[1..], e);
    }
  }

  lemma {:induction false} RunSplit(w: World, es: seq<RoomEvent>, k: nat)
    requires k <= |es|
    ensures Run(w, es) == Run(Run(w, es[..k]), es[k..])
    ensures LegalRun(w, es) ==> LegalRun(w, es[..k]) && LegalRun(Run(w, es[..k]), es[k..])
    decreases k
  {
    hide Next, Legal;
    if k == 0 {
      assert es[k..] == es;
    } else {
      RunSplit(Next(w, es[0]), es[1..], k - 1);
      assert es[..k][1..] == es[1..][..k - 1] && es[1..][k - 1..] == es[k..];
    }
  }

  /** The last start of a game in the run. */
  lemma {:induction false} LastStart(w: World, es: seq<RoomEvent>) returns (k: nat)
    requires !NoneBegins(w, es)
    ensures k < |es| && Begins(Run(w, es[..k]).room, es[k])
    ensures NoneBegins(Next(Run(w, es[..k]), es[k]), es[k + 1..])
    decreases |es|
  {
    hide Next, Begins;
    if NoneBegins(Next(w, es[0]), es[1..]) {
      k := 0;
      assert Run(w, es[..k]) == w;
    } else {
      var i := LastStart(Next(w, es[0]), es[1..]);
      k := i + 1;
      assert es[..k][1..] == es[1..][..i] && es[1..][i + 1..] == es[k + 1..];
      assert Run(w, es[..k]) == Run(Next(w, es[0]), es[1..][..i]);
    }
  }

  /** No game runs before the first start. */
  lemma {:induction false} NoGameWithoutStart(w: World, es: seq<RoomEvent>)
    requires Safe(w) && !w.room.started && LegalRun(w, es) && NoneBegins(w, es)
    ensures !Run(w, es).room.started
    decreases |es|
  {
    hide Safe, Step, Begins, Legal, Account;
    if es == [] {
    } else {
      NextIsSafe(w, es[0]);
      OnlyAStartStarts(w, es[0]);
      NoGameWithoutStart(Next(w, es[0]), es[1..]);
    }
  }

  lemma OnlyAStartStarts(w: World, e: RoomEvent)
    requires Safe(w) && !w.room.started && !Begins(w.room, e)
    ensures !Step(w.room, e).room.started
  {
    hide RoomInv, Lockstep, Conserved, PidsHeld, PidIdentity, Quiet, LeaveFromGame, LeaveFromRoom, EndGame,
         KickFromGame, StartGame;
    if !MovesGame(e) {
      OtherStepsAreQuiet(w.room, e);
    } else if e.DoStartGame? {
      NoStart(w.room, e.u);
    }
  }

  lemma OpsOfPrefix(a: seq<Stamped>, b: seq<Stamped>)
    requires a <= b
    ensures Ops(a) <= Ops(b)
  {
    assert forall i | 0 <= i < |a| :: b[i] == a[i];
  }
}
