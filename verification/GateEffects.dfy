/** What each event at the gate does, field by field, and which messages it lets through. */
module GateEffects {
  import opened Basics
  import opened GateSessions
  import opened GatePresence

  // ---- which messages pass ----

  /** Servers are let through, whatever they send. */
  lemma CheckOfServer(s: Sessions, fd: int, u: int, packageType: int)
    requires fd == s.centerFd || fd == s.logicFd || fd == s.dbFd
    ensures Check(s, fd, u, packageType) == (true, s)
  {
  }

  /** Without a user id a client may log in (type 0) or register (type 2), and nothing else. */
  lemma CheckWithoutUser(s: Sessions, fd: int, packageType: int)
    requires fd != s.centerFd && fd != s.logicFd && fd != s.dbFd
    ensures Check(s, fd, 0, packageType) == (packageType == 0 || packageType == 2, s)
  {
  }

  /** With one it passes iff the user is recorded at its socket; an unknown user is recorded at
      socket 0 from then on. */
  lemma CheckOfUser(s: Sessions, fd: int, u: int, packageType: int)
    requires fd != s.centerFd && fd != s.logicFd && fd != s.dbFd && u != 0
    ensures Check(s, fd, u, packageType) ==
            if u in s.userFd then (s.userFd[u] == fd, s) else (fd == 0, s.(userFd := s.userFd[u := 0]))
  {
  }

  /** After any orderly run a client's socket that stands for nobody passes exactly login and
      registration requests without a user id, and both do pass. */
  lemma StrangersMayLogIn(s: Sessions, es: seq<GateEvent>, fd: int, u: int, packageType: int)
    requires Trusted(s) && InStep(s) && AllConnected(s) && MapsAgree(s) && OrderlyRun(s, es)
    requires fd !in Links(Run(s, es)) && fd != 0 && fd !in Run(s, es).fdUser
    ensures Check(Run(s, es), fd, u, packageType).0 <==> u == 0 && (packageType == 0 || packageType == 2)
  {
    hide Run, Trusted, InStep, AllConnected, MapsAgree, OrderlyRun, Check;
    if u == 0 {
      CheckWithoutUser(Run(s, es), fd, packageType);
    } else {
      CheckedMeansLoggedIn(s, es, fd, u, packageType);
    }
  }

  // ---- closing ----

  /** A client's socket, or the link to the center: it is closed, and its session goes. */
  lemma CloseOfClient(s: Sessions, fd: int)
    requires fd != s.logicFd && fd != s.dbFd
    ensures fd !in s.fdUser ==> Close(s, fd) == s.(connections := s.connections - {fd})
    ensures fd in s.fdUser ==>
              Close(s, fd) == s.(connections := s.connections - {fd},
                                 userFd := s.userFd - {s.fdUser[fd]},
                                 fdUser := s.fdUser - {fd},
                                 sent := s.sent + [LogoutNotice(s.logicFd, s.fdUser[fd], fd)])
  {
  }

  /** The link to the database server: sessions stay. */
  lemma CloseOfDb(s: Sessions, fd: int)
    requires fd == s.dbFd && fd != s.logicFd
    ensures Close(s, fd) == s.(connections := s.connections - {fd}, dbFd := -1)
  {
  }

  /** The link to the logic server: only the other links stay connected, exactly the connected
      clients lose their sessions, and what is handed over are their logouts. */
  lemma CloseOfLogic(s: Sessions)
    requires Trusted(s)
    ensures var t := Close(s, s.logicFd);
      && t.logicFd == -1 && t.centerFd == s.centerFd && t.dbFd == s.dbFd
      && t.connections == (s.connections - {s.logicFd}) * {s.centerFd, s.dbFd}
      && (forall fd :: fd in t.fdUser <==> fd in s.fdUser && fd !in s.connections)
      && (forall fd | fd in t.fdUser :: t.fdUser[fd] == s.fdUser[fd])
      && s.sent <= t.sent
      && (forall x | x in t.sent[|s.sent|..] ::
            x.LogoutNotice? && x.to == s.logicFd && x.fd in s.fdUser && x.fd in s.connections
            && x.userid == s.fdUser[x.fd])
  {
    hide Disconnect, Trusted;
    var t := s.(connections := s.connections - {s.logicFd});
    var fds := Ascending(t.connections);
    ConnectionsAfterDisconnect(t, fds);
    assert SetOf(fds) == t.connections;
    LogicLost(s, t, fds);
    DisconnectTells(t, fds);
  }

  lemma LogicLost(s: Sessions, t: Sessions, fds: seq<int>)
    requires Trusted(s) && t == s.(connections := s.connections - {s.logicFd}) && SetOf(fds) == t.connections
    ensures var d := Disconnect(t, fds);
      && d.centerFd == s.centerFd && d.dbFd == s.dbFd
      && (forall fd :: fd in d.fdUser <==> fd in s.fdUser && fd !in s.connections)
      && (forall fd | fd in d.fdUser :: d.fdUser[fd] == s.fdUser[fd])
  {
    hide Disconnect;
    DisconnectForgets(t, fds);
  }

  lemma {:induction false} DisconnectTells(s: Sessions, fds: seq<int>)
    ensures s.sent <= Disconnect(s, fds).sent
    ensures forall x | x in Disconnect(s, fds).sent[|s.sent|..] ::
              x.LogoutNotice? && x.to == s.logicFd && x.fd in s.fdUser && x.fd in fds && x.userid == s.fdUser[x.fd]
    decreases |fds|
  {
    if fds == [] {
    } else if fds[0] in Links(s) {
      DisconnectTells(s, fds[1..]);
    } else {
      var t := Forget(s.(connections := s.connections - {fds[0]}), fds[0]);
      DisconnectTells(t, fds[1..]);
      var d := Disconnect(t, fds[1..]);
      assert d.sent[|s.sent|..] == t.sent[|s.sent|..] + d.sent[|t.sent|..];
    }
  }

  // ---- logging in, connecting ----

  /** A refused login is answered to the client, and changes nothing. */
  lemma RefusedLogin(s: Sessions, fd: int, userid: int)
    ensures Login(s, false, fd, userid) == s.(sent := s.sent + [LoginReply(fd, userid, false)])
  {
  }

  /** A login records the socket both ways. The logic server is told first, then the client. */
  lemma LoginRecords(s: Sessions, fd: int, userid: int)
    ensures var t := Login(s, true, fd, userid);
      && userid in t.userFd && t.userFd[userid] == fd
      && fd in t.fdUser && t.fdUser[fd] == userid
      && |t.sent| >= 2
      && t.sent[|t.sent| - 1] == LoginReply(fd, userid, true)
      && t.sent[|t.sent| - 2] == LoginNotice(t.logicFd, userid)
  {
    hide WithoutEarlier;
  }

  /** A user's first login changes nothing else. */
  lemma FirstLogin(s: Sessions, fd: int, userid: int)
    requires userid !in s.userFd
    ensures Login(s, true, fd, userid) ==
            s.(userFd := s.userFd[userid := fd],
               fdUser := s.fdUser[fd := userid],
               sent := s.sent + [LoginNotice(s.logicFd, userid), LoginReply(fd, userid, true)])
  {
  }

  lemma AcceptConnects(s: Sessions, fd: int)
    ensures Accept(s, fd) == s.(connections := s.connections + {fd})
  {
  }

  /** A new link is connected and takes the place of one that is down. */
  lemma ConnectLinks(s: Sessions, fd: int)
    ensures Connect(s, CenterLink, fd) == s.(connections := s.connections + {fd}, centerFd := fd)
    ensures Connect(s, LogicLink, fd) ==
            if s.logicFd == -1 then s.(connections := s.connections + {fd}, logicFd := fd) else s
    ensures Connect(s, DbLink, fd) ==
            if s.dbFd == -1 then s.(connections := s.connections + {fd}, dbFd := fd) else s
  {
  }
}
