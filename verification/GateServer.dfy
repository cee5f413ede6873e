/** The gate's session maps: which socket speaks for which user, and what the logic server is
    told about it. */
module GateSessions {
  import opened Basics

  const LOGIN_REQUEST := 0
  const REGIST_REQUEST := 2

  /** What the gate sends about sessions: to the logic server that a user has logged in or is
      gone, and to the client the answer to its login. */
  datatype GateSend =
    | LoginNotice(to: int, userid: int)
    | LogoutNotice(to: int, userid: int, fd: int)
    | LoginReply(to: int, userid: int, result: bool)

  datatype Sessions = Sessions(
    userFd: map<int, int>,
    fdUser: map<int, int>,
    connections: set<int>,
    centerFd: int,
    logicFd: int,
    dbFd: int,
    sent: seq<GateSend>)

  datatype Link = CenterLink | LogicLink | DbLink

  const NO_LINK := -1

  function Links(s: Sessions): set<int> {
    {s.centerFd, s.logicFd, s.dbFd}
  }

  /** Drops the session of a socket: the logic server is told, and both entries go. */
  function Forget(s: Sessions, fd: int): Sessions {
    if fd in s.fdUser then
      s.(userFd := s.userFd - {s.fdUser[fd]},
         fdUser := s.fdUser - {fd},
         sent := s.sent + [LogoutNotice(s.logicFd, s.fdUser[fd], fd)])
    else s
  }

  /** Closes every listed socket that is not a link to a server. */
  function Disconnect(s: Sessions, fds: seq<int>): Sessions
    decreases |fds|
  {
    if fds == [] then s
    else if fds[0] in Links(s) then Disconnect(s, fds[1..])
    else Disconnect(Forget(s.(connections := s.connections - {fds[0]}), fds[0]), fds[1..])
  }

  /** Losing the logic server closes all clients; losing the database server only the link. */
  function Close(s: Sessions, fd: int): Sessions {
    var t := s.(connections := s.connections - {fd});
    if fd == s.logicFd then Disconnect(t, Ascending(t.connections)).(logicFd := NO_LINK)
    else if fd == s.dbFd then t.(dbFd := NO_LINK)
    else Forget(t, fd)
  }

  /** What the user's earlier socket leaves behind. */
  function WithoutEarlier(s: Sessions, userid: int): Sessions {
    if userid in s.userFd then Close(s, s.userFd[userid]) else s
  }

  /** A positive login answer: an earlier socket of the user is closed before the new one is
      entered. */
  function Login(s: Sessions, result: bool, fd: int, userid: int): Sessions {
    if !result then s.(sent := s.sent + [LoginReply(fd, userid, false)])
    else
      var t := WithoutEarlier(s, userid);
      t.(userFd := t.userFd[userid := fd],
         fdUser := t.fdUser[fd := userid],
         sent := t.sent + [LoginNotice(t.logicFd, userid), LoginReply(fd, userid, true)])
  }

  function Accept(s: Sessions, fd: int): Sessions {
    s.(connections := s.connections + {fd})
  }

  /** A link that is still up is kept, except that the center is always connected to anew. */
  function Connect(s: Sessions, link: Link, fd: int): Sessions {
    match link
    case CenterLink => Accept(s, fd).(centerFd := fd)
    case LogicLink => if s.logicFd != NO_LINK then s else Accept(s, fd).(logicFd := fd)
    case DbLink => if s.dbFd != NO_LINK then s else Accept(s, fd).(dbFd := fd)
  }

  /** `user_fd_record[userid]` enters 0 for an unknown user. */
  function Lookup(s: Sessions, userid: int): Sessions {
    if userid in s.userFd then s else s.(userFd := s.userFd[userid := 0])
  }

  function Check(s: Sessions, fd: int, userid: int, packageType: int): (bool, Sessions) {
    if fd in Links(s) then (true, s)
    else if userid == 0 then (packageType == LOGIN_REQUEST || packageType == REGIST_REQUEST, s)
    else
      var t := Lookup(s, userid);
      (t.userFd[userid] == fd, t)
  }

  datatype GateEvent =
    | LoginAnswer(result: bool, fd: int, userid: int)
    | SocketClosed(fd: int)
    | Incoming(fd: int, userid: int, packageType: int)
    | Addressed(userid: int)
    | Accepted(fd: int)
    | Connected(link: Link, fd: int)

  function Step(s: Sessions, e: GateEvent): Sessions {
    match e
    case LoginAnswer(result, fd, userid) => Login(s, result, fd, userid)
    case SocketClosed(fd) => Close(s, fd)
    case Incoming(fd, userid, packageType) => Check(s, fd, userid, packageType).1
    case Addressed(userid) => Lookup(s, userid)
    case Accepted(fd) => Accept(s, fd)
    case Connected(link, fd) => Connect(s, link, fd)
  }

  /** Login answers name client sockets, never the links to other servers, and a new link does
      not take the number of a socket that stands for a user. */
  predicate Legal(s: Sessions, e: GateEvent) {
    && (e.LoginAnswer? ==> e.fd !in Links(s) && e.fd != NO_LINK)
    && (e.Connected? ==> e.fd !in s.fdUser)
  }

  // ---- the invariant ----

  /** The entry of each recorded socket leads back to it. The converse does not hold: stale and
      default entries of `userFd` may point anywhere. */
  ghost predicate Trusted(s: Sessions) {
    && (forall fd | fd in s.fdUser :: s.fdUser[fd] in s.userFd && s.userFd[s.fdUser[fd]] == fd)
    && (forall fd | fd in s.fdUser :: fd !in Links(s) && fd != NO_LINK)
  }

  /** No two sockets are trusted as the same user. */
  lemma OneSocketPerUser(s: Sessions, a: int, b: int)
    requires Trusted(s) && a in s.fdUser && b in s.fdUser && s.fdUser[a] == s.fdUser[b]
    ensures a == b
  {
    assert s.userFd[s.fdUser[a]] == a;
  }

  lemma ForgetKeepsTrust(s: Sessions, fd: int)
    requires Trusted(s)
    ensures Trusted(Forget(s, fd))
  {
    if fd in s.fdUser {
      forall other | other in s.fdUser && other != fd
        ensures s.fdUser[other] != s.fdUser[fd]
      {
        if s.fdUser[other] == s.fdUser[fd] {
          OneSocketPerUser(s, other, fd);
        }
      }
    }
  }

  /** Afterwards no listed client socket is recorded, all other sockets still are, and every
      socket that is still recorded has kept its user. */
  lemma {:induction false} DisconnectForgets(s: Sessions, fds: seq<int>)
    requires Trusted(s)
    ensures var t := Disconnect(s, fds);
      && Trusted(t)
      && Links(t) == Links(s)
      && t.centerFd == s.centerFd && t.logicFd == s.logicFd && t.dbFd == s.dbFd
      && t.fdUser == s.fdUser - SetOf(fds)
    decreases |fds|
  {
    if fds == [] {
      assert s.fdUser - SetOf(fds) == s.fdUser;
    } else {
      SetOfSplit(fds);
      if fds[0] in Links(s) {
        DisconnectForgets(s, fds[1..]);
        assert s.fdUser - SetOf(fds) == s.fdUser - SetOf(fds[1..]);
      } else {
        var t := s.(connections := s.connections - {fds[0]});
        ForgetKeepsTrust(t, fds[0]);
        DisconnectForgets(Forget(t, fds[0]), fds[1..]);
        assert s.fdUser - SetOf(fds) == (s.fdUser - {fds[0]}) - SetOf(fds[1..]);
      }
    }
  }

  lemma CloseKeepsTrust(s: Sessions, fd: int)
    requires Trusted(s)
    ensures Trusted(Close(s, fd))
    ensures fd !in Close(s, fd).fdUser
    ensures Links(Close(s, fd)) <= Links(s) + {NO_LINK}
  {
    var t := s.(connections := s.connections - {fd});
    if fd == s.logicFd {
      DisconnectForgets(t, Ascending(t.connections));
    } else if fd != s.dbFd {
      ForgetKeepsTrust(t, fd);
    }
  }

  /** When the logic server goes, every connected client is forgotten, and only those. */
  lemma LogicLossLogsEveryoneOut(s: Sessions, fd: int)
    requires Trusted(s)
    ensures fd in Close(s, s.logicFd).fdUser <==> fd in s.fdUser && fd !in s.connections
  {
    hide Disconnect;
    var t := s.(connections := s.connections - {s.logicFd});
    var fds := Ascending(t.connections);
    DisconnectForgets(t, fds);
    assert fd in SetOf(fds) <==> fd in t.connections;
  }

  /** The user's earlier socket is closed, and no socket stands for the user in between. */
  lemma WithoutEarlierKeepsTrust(s: Sessions, userid: int)
    requires Trusted(s)
    ensures var t := WithoutEarlier(s, userid);
      && Trusted(t)
      && Links(t) <= Links(s) + {NO_LINK}
      && (forall fd | fd in t.fdUser :: t.fdUser[fd] != userid)
  {
    hide Close;
    if userid in s.userFd {
      CloseKeepsTrust(s, s.userFd[userid]);
      CloseOnlyShrinks(s, s.userFd[userid]);
    }
    var t := WithoutEarlier(s, userid);
    forall fd | fd in t.fdUser
      ensures t.fdUser[fd] != userid
    {
      assert t.fdUser[fd] in t.userFd && t.userFd[t.fdUser[fd]] == fd;
    }
  }

  lemma LoginKeepsTrust(s: Sessions, result: bool, fd: int, userid: int)
    requires Trusted(s) && fd !in Links(s) && fd != NO_LINK
    ensures Trusted(Login(s, result, fd, userid))
    ensures result ==> Login(s, result, fd, userid).fdUser[fd] == userid
  {
    hide WithoutEarlier;
    WithoutEarlierKeepsTrust(s, userid);
  }

  lemma CloseOnlyShrinks(s: Sessions, fd: int)
    requires Trusted(s)
    ensures forall u | u in Close(s, fd).userFd :: u in s.userFd && Close(s, fd).userFd[u] == s.userFd[u]
  {
    var t := s.(connections := s.connections - {fd});
    if fd == s.logicFd {
      DisconnectOnlyShrinks(t, Ascending(t.connections));
    }
  }

  lemma {:induction false} DisconnectOnlyShrinks(s: Sessions, fds: seq<int>)
    ensures forall u | u in Disconnect(s, fds).userFd :: u in s.userFd && Disconnect(s, fds).userFd[u] == s.userFd[u]
    decreases |fds|
  {
    if fds == [] {
    } else {
      if fds[0] in Links(s) {
        DisconnectOnlyShrinks(s, fds[1..]);
      } else {
        DisconnectOnlyShrinks(Forget(s.(connections := s.connections - {fds[0]}), fds[0]), fds[1..]);
      }
    }
  }

  lemma StepKeepsTrust(s: Sessions, e: GateEvent)
    requires Trusted(s) && Legal(s, e)
    ensures Trusted(Step(s, e))
  {
    hide Close, Login;
    match e
    case LoginAnswer(result, fd, userid) => LoginKeepsTrust(s, result, fd, userid);
    case SocketClosed(fd) => CloseKeepsTrust(s, fd);
    case Incoming(fd, userid, packageType) =>
    case Addressed(userid) =>
    case Accepted(fd) =>
    case Connected(link, fd) =>
  }

  predicate LegalRun(s: Sessions, es: seq<GateEvent>)
    decreases |es|
  {
    es == [] || (Legal(s, es[0]) && LegalRun(Step(s, es[0]), es[1..]))
  }

  function Run(s: Sessions, es: seq<GateEvent>): Sessions
    decreases |es|
  {
    if es == [] then s else Run(Step(s, es[0]), es[1..])
  }

  /** Over any run of logins, re-logins, closes, new connections, new links and default-inserting
      lookups, each recorded socket is the one its user is reached at, and no two sockets stand for one user. */
  lemma {:induction false} SessionsStayTrusted(s: Sessions, es: seq<GateEvent>)
    requires Trusted(s) && LegalRun(s, es)
    ensures var t := Run(s, es);
      && Trusted(t)
      && (forall fd | fd in t.fdUser :: t.userFd[t.fdUser[fd]] == fd)
      && (forall a, b | a in t.fdUser && b in t.fdUser && t.fdUser[a] == t.fdUser[b] :: a == b)
    decreases |es|
  {
    hide Step, Legal;
    if es == [] {
      forall a, b | a in s.fdUser && b in s.fdUser && s.fdUser[a] == s.fdUser[b]
        ensures a == b
      {
        OneSocketPerUser(s, a, b);
      }
    } else {
      StepKeepsTrust(s, es[0]);
      SessionsStayTrusted(Step(s, es[0]), es[1..]);
    }
  }

  // ---- the gate as an object ----

  class GateServer {
    var userFdRecord: map<int, int>
    var fdUserRecord: map<int, int>
    var connections: set<int>
    var centerServerClient: int
    var logicServerClient: int
    var dbServerClient: int
    var sent: seq<GateSend>

    function State(): Sessions
      reads this
    {
      Sessions(userFdRecord, fdUserRecord, connections, centerServerClient, logicServerClient, dbServerClient,
               sent)
    }

    ghost predicate Valid()
      reads this
    {
      Trusted(State())
    }

    method EraseSession(fd: int)
      modifies this
      ensures State() == Forget(old(State()), fd)
    {
      if fd in fdUserRecord {
        sent := sent + [LogoutNotice(logicServerClient, fdUserRecord[fd], fd)];
        userFdRecord := userFdRecord - {fdUserRecord[fd]};
        fdUserRecord := fdUserRecord - {fd};
      }
    }

    method CloseClientSocket(fd: int)
      requires Valid()
      modifies this
      ensures Valid() && State() == Close(old(State()), fd)
    {
      hide Trusted, Forget, Disconnect;
      CloseKeepsTrust(State(), fd);
      connections := connections - {fd};
      if fd == logicServerClient {
        DisconnectAllClients(Ascending(connections));
        logicServerClient := -1;
      } else if fd == dbServerClient {
        dbServerClient := -1;
      } else {
        EraseSession(fd);
      }
    }

    /** Walks over the connections; a client socket is neither of the links, so closing it
        ends its session. */
    method DisconnectAllClients(fds: seq<int>)
      modifies this
      ensures State() == Disconnect(old(State()), fds)
    {
      hide Forget;
      assert fds[0..] == fds;
      for i := 0 to |fds|
        invariant Disconnect(old(State()), fds) == Disconnect(State(), fds[i..])
      {
        assert fds[i..][0] == fds[i] && fds[i..][1..] == fds[i + 1..];
        if fds[i] != centerServerClient && fds[i] != logicServerClient && fds[i] != dbServerClient {
          connections := connections - {fds[i]};
          EraseSession(fds[i]);
        }
      }
    }

    method OnLoginResponse(result: bool, userFd: int, userid: int)
      requires Valid() && userFd !in Links(State()) && userFd != NO_LINK
      modifies this
      ensures Valid() && State() == Login(old(State()), result, userFd, userid)
    {
      hide Trusted, Close;
      LoginKeepsTrust(State(), result, userFd, userid);
      if result {
        if userid in userFdRecord {
          CloseClientSocket(userFdRecord[userid]);
        }
        userFdRecord := userFdRecord[userid := userFd];
        fdUserRecord := fdUserRecord[userFd := userid];
        sent := sent + [LoginNotice(logicServerClient, userid)];
      }
      sent := sent + [LoginReply(userFd, userid, result)];
      if result {
        ghost var t := WithoutEarlier(old(State()), userid);
        assert sent == t.sent + [LoginNotice(t.logicFd, userid), LoginReply(userFd, userid, true)];
      }
    }

    method OnAccept(fd: int)
      requires Valid()
      modifies this`connections
      ensures Valid() && State() == Accept(old(State()), fd)
    {
      connections := connections + {fd};
    }

    method OnConnect(link: Link, fd: int)
      requires Valid() && fd !in fdUserRecord
      modifies this
      ensures Valid() && State() == Connect(old(State()), link, fd)
    {
      match link
      case CenterLink =>
        centerServerClient := fd;
        connections := connections + {fd};
      case LogicLink =>
        if logicServerClient != -1 { return; }
        logicServerClient := fd;
        connections := connections + {fd};
      case DbLink =>
        if dbServerClient != -1 { return; }
        dbServerClient := fd;
        connections := connections + {fd};
    }

    method CheckMessageValid(fd: int, userid: int, packageType: int) returns (ok: bool)
      requires Valid()
      modifies this
      ensures Valid()
      ensures (ok, State()) == Check(old(State()), fd, userid, packageType)
    {
      if fd == centerServerClient || fd == logicServerClient || fd == dbServerClient {
        return true;
      }
      if userid == 0 {
        return packageType == LOGIN_REQUEST || packageType == REGIST_REQUEST;
      }
      if userid !in userFdRecord {
        userFdRecord := userFdRecord[userid := 0];
      }
      return fd == userFdRecord[userid];
    }
  }
}
