/** The protobuf messages that carry a game, and the notifications a room sends. */
module Messages {
  import opened Basics

  datatype UserOperate = UserOperate(data: seq<int>, opt: int, userpid: int)

  datatype Frame = Frame(frameId: int, operates: seq<UserOperate>)

  datatype GameReplay = GameReplay(frames: seq<Frame>)

  const JOIN_GAME := 1
  const LEAVE_GAME := 2

  datatype UserInfo = UserInfo(userid: int, username: string, isRoomHost: bool, roleId: int, userpid: int, inGame: bool)

  /** What the text of a JoinRoom reply tells the user. */
  datatype JoinResult = Entered | GameRunning | RoomFull | AlreadyInside | NoSuchRoom

  /** Everything the logic server sends to a client. */
  datatype Notice =
    | JoinRoomReply(ret: bool, roomid: int, result: JoinResult)
    | LeaveRoomReply(ret: bool, roomid: int)
    | CreateRoomReply(ret: bool, roomid: int, roomname: string, isRoomHost: bool)
    | RoomInfoNotice(roomid: int, gameStart: bool, users: seq<UserInfo>)
    | StartGameNotice(roomid: int, seed: int, userpid: int)
    | EndGameNotice(roomid: int)
    | FrameNotice(frame: Frame)
    | ReconnectNotice(userpid: int, roomid: int, isRoomHost: bool, seed: int)
    | ChaseFrameNotice(replay: GameReplay)

  datatype Sent = Sent(to: int, notice: Notice)

  /** One notice to each listed user, in order. */
  function Broadcast(users: seq<int>, notice: Notice): seq<Sent> {
    seq(|users|, i requires 0 <= i < |users| => Sent(users[i], notice))
  }

  lemma BroadcastNext(users: seq<int>, i: nat, notice: Notice)
    requires i < |users|
    ensures Broadcast(users[..i + 1], notice) == Broadcast(users[..i], notice) + [Sent(users[i], notice)]
  {
  }

  /** Does the notice change what a client has of the running game? */
  predicate CarriesGame(notice: Notice) {
    notice.StartGameNotice? || notice.ChaseFrameNotice? || notice.FrameNotice?
  }

  ghost predicate Quiet(sent: seq<Sent>) {
    forall x | x in sent :: !CarriesGame(x.notice)
  }

  /** A client starts afresh on StartGameNotice, loads a replay, and appends each frame. */
  function Absorb(view: seq<Frame>, notice: Notice): seq<Frame> {
    match notice
    case StartGameNotice(_, _, _) => []
    case ChaseFrameNotice(replay) => replay.frames
    case FrameNotice(frame) => view + [frame]
    case _ => view
  }

  /** The frames user `u` holds after receiving its part of `log`. */
  function View(log: seq<Sent>, u: int): seq<Frame> {
    if log == [] then []
    else
      var last := log[|log| - 1];
      var before := View(log[..|log| - 1], u);
      if last.to == u then Absorb(before, last.notice) else before
  }

  lemma ViewOfNext(log: seq<Sent>, x: Sent, u: int)
    ensures View(log + [x], u) == if x.to == u then Absorb(View(log, u), x.notice) else View(log, u)
  {
    assert (log + [x])[..|log|] == log;
  }

  /** Traffic that carries no game for `u` leaves the view of `u` alone. */
  lemma {:induction false} ViewUnaffected(log: seq<Sent>, tail: seq<Sent>, u: int)
    requires forall x | x in tail :: x.to == u ==> !CarriesGame(x.notice)
    ensures View(log + tail, u) == View(log, u)
    decreases |tail|
  {
    if tail == [] {
      assert log + tail == log;
    } else {
      var n := |tail| - 1;
      assert log + tail == (log + tail[..n]) + [tail[n]];
      assert forall x | x in tail[..n] :: x in tail;
      ViewOfNext(log + tail[..n], tail[n], u);
      ViewUnaffected(log, tail[..n], u);
    }
  }

  /** If entry `i` is the only game traffic for `u`, the view absorbs exactly that entry. */
  lemma ViewOfSingle(log: seq<Sent>, tail: seq<Sent>, i: nat, u: int)
    requires i < |tail| && tail[i].to == u
    requires forall j | 0 <= j < |tail| && j != i :: tail[j].to == u ==> !CarriesGame(tail[j].notice)
    ensures View(log + tail, u) == Absorb(View(log, u), tail[i].notice)
  {
    var a, b := tail[..i], tail[i + 1..];
    assert log + tail == ((log + a) + [tail[i]]) + b;
    ViewUnaffected(log, a, u);
    ViewOfNext(log + a, tail[i], u);
    ViewUnaffected((log + a) + [tail[i]], b, u);
  }

  /** A broadcast reaches each listed user exactly once. */
  lemma ViewOfBroadcast(log: seq<Sent>, users: seq<int>, notice: Notice, u: int)
    requires Increasing(users)
    ensures View(log + Broadcast(users, notice), u)
         == if u in users then Absorb(View(log, u), notice) else View(log, u)
  {
    hide View, Absorb;
    if u in users {
      var i :| 0 <= i < |users| && users[i] == u;
      ViewOfSingle(log, Broadcast(users, notice), i, u);
    } else {
      ViewUnaffected(log, Broadcast(users, notice), u);
    }
  }
}
