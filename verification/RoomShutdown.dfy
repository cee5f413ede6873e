/** What the mutually recursive shutdown of a game amounts to: LeaveFromGame, EndGame and
    KickAllUserFromGame in closed form, and who is told that the game is over. */
module RoomShutdown {
  import opened Basics
  import opened Messages
  import opened RoomModel

  /** `s` after the users in `gone` have left the game: nothing but the in-game map and the
      started flag changes, and the flag falls when the last player goes. */
  function AfterLeaving(s: RoomState, gone: set<int>): RoomState {
    var left := s.inGame - gone;
    s.(inGame := left, started := s.started && (left == map[] ==> s.inGame == map[]))
  }

  function AfterEnd(s: RoomState): RoomState {
    if s.started then s.(inGame := map[], started := false) else s
  }

  lemma {:induction false} LeaveFromGameEffect(s: RoomState, u: int)
    ensures LeaveFromGame(s, u).room == AfterLeaving(s, {u})
    decreases |s.inGame.Keys|, s.started, 0
  {
    hide EndGame;
    if u !in s.inGame {
      assert s.inGame - {u} == s.inGame;
    } else {
      var erased := s.(inGame := Without(s.inGame, u));
      assert erased.inGame.Keys == s.inGame.Keys - {u};
      assert NotifyUserQuitGame(erased, u) == erased;
      if erased.inGame == map[] {
        EndGameEffect(erased);
      }
    }
  }

  lemma {:induction false} EndGameEffect(s: RoomState)
    ensures EndGame(s).room == AfterEnd(s)
    decreases |s.inGame.Keys|, s.started, 0
  {
    if s.started {
      var users := Ascending(s.inGame.Keys);
      KickFromGameEffect(s.(started := false), users);
      assert s.inGame - SetOf(users) == map[];
    }
  }

  lemma {:induction false} KickFromGameEffect(s: RoomState, users: seq<int>)
    ensures KickFromGame(s, users).room == AfterLeaving(s, SetOf(users))
    decreases |s.inGame.Keys|, s.started, |users| + 1
  {
    if users == [] {
      assert s.inGame - SetOf(users) == s.inGame;
    } else {
      var a := LeaveFromGame(s, users[0]);
      LeaveFromGameEffect(s, users[0]);
      KickFromGameEffect(a.room, users[1..]);
      AfterLeavingTwice(s, {users[0]}, SetOf(users[1..]));
      SetOfSplit(users);
      assert KickFromGame(s, users).room == KickFromGame(a.room, users[1..]).room;
    }
  }

  lemma AfterLeavingTwice(s: RoomState, a: set<int>, b: set<int>)
    ensures AfterLeaving(AfterLeaving(s, a), b) == AfterLeaving(s, a + b)
  {
    assert s.inGame - a - b == s.inGame - (a + b);
  }

  /** NotifyUserQuitGame would announce the departure of a player of a running game, and of
      nobody else; but LeaveFromGame calls it after erasing the player, so no departure is ever
      put in a frame. */
  lemma DeparturesAreNotAnnounced(s: RoomState, u: int)
    ensures NotifyUserQuitGame(s, u) != s <==> s.started && u in s.inGame
    ensures LeaveFromGame(s, u).room.frame == s.frame && LeaveFromGame(s, u).room.allFrames == s.allFrames
  {
    hide LeaveFromGame;
    LeaveFromGameEffect(s, u);
    if s.started && u in s.inGame {
      assert |NotifyUserQuitGame(s, u).frame.operates| == |s.frame.operates| + 1;
    }
  }

  // ---- EndGame notices ----

  /** The addressees of the EndGame notices in `sent`, in order. */
  function EndNotices(sent: seq<Sent>): seq<int> {
    if sent == [] then []
    else (if sent[0].notice.EndGameNotice? then [sent[0].to] else []) + EndNotices(sent[1..])
  }

  lemma {:induction false} EndNoticesOfSum(a: seq<Sent>, b: seq<Sent>)
    ensures EndNotices(a + b) == EndNotices(a) + EndNotices(b)
  {
    if a == [] {
      assert a + b == b;
    } else {
      var first := if a[0].notice.EndGameNotice? then [a[0].to] else [];
      assert (a + b)[0] == a[0] && (a + b)[1..] == a[1..] + b;
      EndNoticesOfSum(a[1..], b);
      assert first + (EndNotices(a[1..]) + EndNotices(b)) == first + EndNotices(a[1..]) + EndNotices(b);
    }
  }

  lemma {:induction false} EndNoticesOfBroadcast(users: seq<int>, notice: Notice)
    ensures EndNotices(Broadcast(users, notice)) == if notice.EndGameNotice? then users else []
  {
    if users == [] {
    } else {
      assert Broadcast(users, notice)[1..] == Broadcast(users[1..], notice);
      EndNoticesOfBroadcast(users[1..], notice);
    }
  }

  lemma InfoNotifiesNobody(s: RoomState)
    ensures EndNotices(InfoToAll(s)) == []
  {
    EndNoticesOfBroadcast(Ascending(s.roles.Keys), RoomInfo(s));
  }

  /** A player who leaves hears no EndGame, and neither does anyone else: when the last one
      leaves, the game ends with nobody in it. */
  lemma {:induction false} LeavingNotifiesNobody(s: RoomState, u: int)
    ensures EndNotices(LeaveFromGame(s, u).sent) == []
  {
    if u in s.inGame {
      var erased := s.(inGame := Without(s.inGame, u));
      var e := if erased.inGame == map[] then EndGame(erased) else Outcome(erased, []);
      if erased.inGame == map[] && s.started {
        EndOfEmptyGame(erased);
      }
      EndNoticesOfSum(e.sent, InfoToAll(e.room));
      InfoNotifiesNobody(e.room);
    }
  }

  lemma EndOfEmptyGame(s: RoomState)
    requires s.started && s.inGame == map[]
    ensures EndNotices(EndGame(s).sent) == []
  {
    var over := s.(started := false);
    assert Ascending(s.inGame.Keys) == [];
    var notices := Broadcast([], EndGameNotice(s.id));
    assert EndGame(s).sent == InfoToAll(over) by {
      assert KickFromGame(over, []) == Outcome(over, []);
      assert notices + [] + InfoToAll(over) == InfoToAll(over);
    }
    InfoNotifiesNobody(over);
  }

  lemma {:induction false} KickingNotifiesNobody(s: RoomState, users: seq<int>)
    ensures EndNotices(KickFromGame(s, users).sent) == []
    decreases |users|
  {
    if users == [] {
    } else {
      var a := LeaveFromGame(s, users[0]);
      LeavingNotifiesNobody(s, users[0]);
      KickingNotifiesNobody(a.room, users[1..]);
      EndNoticesOfSum(a.sent, KickFromGame(a.room, users[1..]).sent);
    }
  }

  lemma EndGameNotices(s: RoomState)
    requires s.started
    ensures EndNotices(EndGame(s).sent) == Ascending(s.inGame.Keys)
  {
    hide EndNotices, Broadcast, InfoToAll, KickFromGame;
    var users := Ascending(s.inGame.Keys);
    var notices := Broadcast(users, EndGameNotice(s.id));
    var k := KickFromGame(s.(started := false), users);
    EndNoticesOfBroadcast(users, EndGameNotice(s.id));
    KickingNotifiesNobody(s.(started := false), users);
    InfoNotifiesNobody(k.room);
    EndNoticesOfSum(notices, k.sent);
    EndNoticesOfSum(notices + k.sent, InfoToAll(k.room));
  }

  /** EndGame empties the game and tells every player who was in it, in ascending order and
      exactly once, however deep the recursion goes. */
  lemma EndGameNotifiesEachOnce(s: RoomState)
    requires s.started
    ensures EndGame(s).room == s.(inGame := map[], started := false)
    ensures EndNotices(EndGame(s).sent) == Ascending(s.inGame.Keys)
    ensures forall u | u in s.inGame :: multiset(EndNotices(EndGame(s).sent))[u] == 1
  {
    EndGameEffect(s);
    EndGameNotices(s);
    var users := Ascending(s.inGame.Keys);
    forall u | u in s.inGame
      ensures multiset(users)[u] == 1
    {
      CountOne(users, u);
    }
  }

  lemma CountOne(users: seq<int>, u: int)
    requires Increasing(users) && u in users
    ensures multiset(users)[u] == 1
  {
    var i :| 0 <= i < |users| && users[i] == u;
    assert users == users[..i] + [u] + users[i + 1..];
    assert u !in users[..i] && u !in users[i + 1..];
  }

  // ---- no game traffic ----

  lemma QuietSum(a: seq<Sent>, b: seq<Sent>)
    requires Quiet(a) && Quiet(b)
    ensures Quiet(a + b)
  {
  }

  lemma InfoIsQuiet(s: RoomState)
    ensures Quiet(InfoToAll(s))
  {
  }

  lemma {:induction false} LeaveFromGameQuiet(s: RoomState, u: int)
    ensures Quiet(LeaveFromGame(s, u).sent)
    decreases |s.inGame.Keys|, s.started, 0
  {
    hide InfoToAll, EndGame;
    if u in s.inGame {
      var erased := s.(inGame := Without(s.inGame, u));
      assert erased.inGame.Keys == s.inGame.Keys - {u};
      if erased.inGame == map[] {
        EndGameQuiet(erased);
      }
      var e := if erased.inGame == map[] then EndGame(erased) else Outcome(erased, []);
      InfoIsQuiet(e.room);
      QuietSum(e.sent, InfoToAll(e.room));
    }
  }

  lemma {:induction false} EndGameQuiet(s: RoomState)
    ensures Quiet(EndGame(s).sent)
    decreases |s.inGame.Keys|, s.started, 0
  {
    hide InfoToAll, KickFromGame;
    if s.started {
      var users := Ascending(s.inGame.Keys);
      var notices := Broadcast(users, EndGameNotice(s.id));
      var k := KickFromGame(s.(started := false), users);
      KickFromGameQuiet(s.(started := false), users);
      InfoIsQuiet(k.room);
      assert Quiet(notices);
      hide Broadcast, Quiet;
      QuietSum(notices, k.sent);
      QuietSum(notices + k.sent, InfoToAll(k.room));
    }
  }

  lemma {:induction false} KickFromGameQuiet(s: RoomState, users: seq<int>)
    ensures Quiet(KickFromGame(s, users).sent)
    decreases |s.inGame.Keys|, s.started, |users| + 1
  {
    hide LeaveFromGame;
    if users == [] {
    } else {
      var a := LeaveFromGame(s, users[0]);
      LeaveFromGameQuiet(s, users[0]);
      KickFromGameQuiet(a.room, users[1..]);
      QuietSum(a.sent, KickFromGame(a.room, users[1..]).sent);
    }
  }

  lemma LeaveFromRoomQuiet(s: RoomState, u: int)
    ensures Quiet(LeaveFromRoom(s, u).sent)
  {
    hide InfoToAll, LeaveFromGame;
    LeaveFromGameQuiet(s, u);
    var g := LeaveFromGame(s, u);
    if u in g.room.members {
      InfoIsQuiet(RemoveMember(g.room, u));
      QuietSum(g.sent, InfoToAll(RemoveMember(g.room, u)));
    } else {
      QuietSum(g.sent, [Sent(u, LeaveRoomReply(false, 0))]);
    }
  }
}
