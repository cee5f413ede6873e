/** The main results about the logic server, over every run of messages and timer ticks. */
module LogicTheorems {
  import opened Basics
  import opened Messages
  import opened RoomModel
  import opened RoomInvariant
  import opened RoomGame
  import opened LogicModel
  import opened LogicSafety

  /** The state the events lead to. A run ends early only where the source cannot go on: at a
      disabled event, or where the index leads to a room that is not live. */
  ghost function ServerRun(c: Config, s: ServerState, es: seq<ServerEvent>): ServerState
    decreases |es|
  {
    if es == [] || !IndexLive(s) || !Enabled(s, es[0]) then s else ServerRun(c, Handle(c, s, es[0]), es[1..])
  }

  /** The run handles all its events. */
  ghost predicate Completes(c: Config, s: ServerState, es: seq<ServerEvent>)
    decreases |es|
  {
    es == [] || (IndexLive(s) && Enabled(s, es[0]) && Completes(c, Handle(c, s, es[0]), es[1..]))
  }

  ghost predicate AllEnabled(c: Config, s: ServerState, es: seq<ServerEvent>)
    decreases |es|
  {
    es == [] || (Enabled(s, es[0]) && (IndexLive(s) ==> AllEnabled(c, Handle(c, s, es[0]), es[1..])))
  }

  lemma {:induction false} ServerRunKeepsInv(c: Config, s: ServerState, es: seq<ServerEvent>)
    requires ServerInv(c, s) && c.roomSize >= 1
    ensures ServerInv(c, ServerRun(c, s, es))
    ensures Completes(c, s, es) <==> AllEnabled(c, s, es)
    decreases |es|
  {
    hide ServerInv, Handle, Enabled;
    ServerIsLive(c, s);
    if es == [] || !Enabled(s, es[0]) {
    } else {
      HandleKeepsInv(c, s, es[0]);
      ServerRunKeepsInv(c, Handle(c, s, es[0]), es[1..]);
    }
  }

  /** No run meets a dead room: every `rooms[...]->` of a handler hits a live one, and a run
      ends early only by creating a room from an exhausted pool or by a user who joins the room
      it alone occupies. */
  lemma RunCompletesIffEnabled(c: Config, es: seq<ServerEvent>)
    requires c.roomSize >= 1
    ensures IndexLive(ServerRun(c, Boot(c), es))
    ensures Completes(c, Boot(c), es) <==> AllEnabled(c, Boot(c), es)
  {
    hide ServerInv, Completes, AllEnabled;
    BootInv(c);
    ServerRunKeepsInv(c, Boot(c), es);
    ServerIsLive(c, ServerRun(c, Boot(c), es));
  }

  /** A run that handles all its events handles the last one in the state the others lead to. */
  lemma {:induction false} LastEvent(c: Config, s: ServerState, es: seq<ServerEvent>, e: ServerEvent)
    ensures Completes(c, s, es + [e]) <==>
              Completes(c, s, es) && IndexLive(ServerRun(c, s, es)) && Enabled(ServerRun(c, s, es), e)
    ensures Completes(c, s, es + [e]) ==> ServerRun(c, s, es + [e]) == Handle(c, ServerRun(c, s, es), e)
    decreases |es|
  {
    hide Handle, Enabled, IndexLive;
    if es == [] {
      assert es + [e] == [e] && [e][1..] == [];
      if IndexLive(s) && Enabled(s, e) {
        assert Completes(c, Handle(c, s, e), []) && ServerRun(c, Handle(c, s, e), []) == Handle(c, s, e);
      }
    } else {
      assert (es + [e])[1..] == es[1..] + [e];
      if IndexLive(s) && Enabled(s, es[0]) {
        LastEvent(c, Handle(c, s, es[0]), es[1..], e);
      }
    }
  }

  /** Between any two messages: `userid2roomid[u] == r` iff room r is live and has u as a
      member; nobody is in two rooms; no room is empty. */
  lemma IndexAlwaysAgrees(c: Config, es: seq<ServerEvent>)
    requires c.roomSize >= 1
    ensures var s := ServerRun(c, Boot(c), es);
      && (forall u, r ::
            (u in s.userid2roomid && s.userid2roomid[u] == r) <==> (r in s.rooms && u in s.rooms[r].members))
      && Disjoint(s.rooms)
      && (forall r | r in s.rooms :: s.rooms[r].members != map[])
  {
    hide RoomsInv, AllLockstep, IndexAgrees, Disjoint, IdsInv, Completes, AllEnabled, ServerRun;
    BootInv(c);
    ServerRunKeepsInv(c, Boot(c), es);
    var s := ServerRun(c, Boot(c), es);
    CoreIsLive(c, s);
    IndexIff(s);
  }

  lemma IndexIff(s: ServerState)
    requires IndexAgrees(s)
    ensures forall u, r ::
              (u in s.userid2roomid && s.userid2roomid[u] == r) <==> (r in s.rooms && u in s.rooms[r].members)
  {
    forall u, r
      ensures (u in s.userid2roomid && s.userid2roomid[u] == r) <==> (r in s.rooms && u in s.rooms[r].members)
    {
    }
  }

  /** With replay support on, every player of every running game on the server has received
      exactly the frames of that game, whatever else went out to whomever; every other member
      holds a prefix of them; and the frames are numbered 1, 2, ..., frame id. */
  lemma EveryPlayerInLockstep(c: Config, es: seq<ServerEvent>, r: int)
    requires c.roomSize >= 1 && c.chase
    requires r in ServerRun(c, Boot(c), es).rooms && ServerRun(c, Boot(c), es).rooms[r].started
    ensures var s := ServerRun(c, Boot(c), es);
      && (forall u | u in s.rooms[r].inGame :: View(s.log, u) == s.rooms[r].allFrames)
      && (forall u | u in s.rooms[r].members :: View(s.log, u) <= s.rooms[r].allFrames)
      && Numbered(s.rooms[r].allFrames) && |s.rooms[r].allFrames| == s.rooms[r].frameId
  {
    hide Completes, AllEnabled, ServerRun, IndexAgrees, IdsInv, View, PidInv, RosterInv, GameInv;
    BootInv(c);
    ServerRunKeepsInv(c, Boot(c), es);
    var s := ServerRun(c, Boot(c), es);
    assert RoomOk(c, r, s.rooms[r]) && Lockstep(s.rooms[r], s.log);
  }

  // ---- room ids ----

  /** Every id in 1..min(pool size, default room count) is in exactly one of the two id sets;
      the ids in use are the live rooms. */
  lemma RoomIdsConserved(c: Config, es: seq<ServerEvent>)
    requires c.roomSize >= 1
    ensures var s := ServerRun(c, Boot(c), es);
      && s.roomidUsing == s.rooms.Keys
      && (forall r | 1 <= r <= c.poolSize && r <= c.defaultRoomCount :: r in s.roomidPool <==> r !in s.roomidUsing)
      && (c.poolSize <= c.defaultRoomCount ==> |s.roomidPool| + |s.rooms| == c.poolSize)
  {
    hide Completes, AllEnabled, ServerRun, RoomsInv, AllLockstep, IndexAgrees;
    BootInv(c);
    ServerRunKeepsInv(c, Boot(c), es);
    var s := ServerRun(c, Boot(c), es);
    if c.poolSize <= c.defaultRoomCount {
      assert s.roomidPool + s.roomidUsing == UpTo(c.poolSize);
      assert |s.roomidPool + s.roomidUsing| == |s.roomidPool| + |s.roomidUsing|;
    }
  }

  /** Where removed rooms always return their id, creating a room meets an exhausted pool iff
      there are as many rooms as ids. */
  lemma PoolExhaustedIff(c: Config, es: seq<ServerEvent>)
    requires c.roomSize >= 1 && c.poolSize <= c.defaultRoomCount
    ensures var s := ServerRun(c, Boot(c), es);
      s.roomidPool == {} <==> |s.rooms| == c.poolSize
  {
    hide ServerRun;
    RoomIdsConserved(c, es);
    var s := ServerRun(c, Boot(c), es);
    assert s.roomidPool == {} <==> |s.roomidPool| == 0;
  }

  // ---- Update ----

  /** Exactly one tick for every listed room and none for the others. */
  lemma {:induction false} TickRoomsEffect(s: ServerState, ids: seq<int>)
    requires Increasing(ids) && forall r | r in ids :: r in s.rooms
    ensures TickRooms(s, ids).rooms.Keys == s.rooms.Keys
    ensures forall r | r in s.rooms ::
              TickRooms(s, ids).rooms[r] == if r in ids then Tick(s.rooms[r]).room else s.rooms[r]
    ensures TickRooms(s, ids) == s.(rooms := TickRooms(s, ids).rooms, log := TickRooms(s, ids).log)
    decreases |ids|
  {
    hide Tick;
    if ids == [] {
    } else {
      var t := Act(s, ids[0], DoTick);
      assert t.rooms.Keys == s.rooms.Keys;
      TickRoomsEffect(t, ids[1..]);
      assert ids[0] !in ids[1..];
      assert forall r :: r in ids <==> r == ids[0] || r in ids[1..];
    }
  }

  /** One Update advances every running room by exactly one frame, whose operations are the
      pending ones, and leaves all other rooms and the index as they were. */
  lemma UpdateAdvancesRunningRooms(s: ServerState)
    ensures var t := Update(s);
      && t.rooms.Keys == s.rooms.Keys
      && t.userid2roomid == s.userid2roomid
      && (forall r | r in s.rooms && !s.rooms[r].started :: t.rooms[r] == s.rooms[r])
      && (forall r | r in s.rooms && s.rooms[r].started ::
            && t.rooms[r].frameId == s.rooms[r].frameId + 1
            && t.rooms[r].frame.operates == []
            && (s.rooms[r].chase ==>
                  t.rooms[r].allFrames ==
                  s.rooms[r].allFrames + [Frame(s.rooms[r].frameId + 1, s.rooms[r].frame.operates)]))
  {
    hide TickRooms, Broadcast;
    TickRoomsEffect(s, Ascending(s.rooms.Keys));
  }

  // ---- a room deleted under the feet of a join ----

  /** Joining meets a deleted room iff the user is the sole occupant of that very room. */
  lemma JoinMeetsDeletedRoom(c: Config, s: ServerState, u: int, r: int)
    requires ServerInv(c, s) && r in s.rooms
    ensures IndexLive(s)
    ensures r !in RemovePlayerFromRoom(c, s, u).rooms <==> s.rooms[r].members.Keys == {u}
  {
    hide RoomOk, Lockstep, LeaveFromRoom, Destroy, RoomsInv, AllLockstep;
    CoreIsLive(c, s);
    LeaverGone(s.rooms[r], u);
    assert s.rooms[r].members != map[];
    if u in s.userid2roomid && s.userid2roomid[u] == r {
      assert r in s.roomidUsing;
      assert u in s.rooms[r].members;
    } else {
      assert u !in s.rooms[r].members;
    }
  }

  // ---- CheckRoomDead ----

  /** CheckRoomDead compares sizes only: it holds iff as many stale offline entries (of users
      who have left) remain as there are members online. */
  lemma DeadMeansBalanced(s: RoomState)
    ensures CheckRoomDead(s) <==> |s.offline - s.members.Keys| == |s.members.Keys - s.offline|
  {
    var both := s.offline * s.members.Keys;
    assert s.offline == (s.offline - s.members.Keys) + both;
    assert s.members.Keys == (s.members.Keys - s.offline) + both;
    assert |s.members| == |s.members.Keys|;
  }
}
