/** What the gate hands over for the logic server about who is logged in, against its own session
    maps; whether a recorded socket is still connected; and whether the two maps agree. */
module GatePresence {
  import opened Basics
  import opened GateSessions

  /** What the logic server makes of one notice. */
  function Hear(users: set<int>, x: GateSend): set<int> {
    if x.LoginNotice? then users + {x.userid}
    else if x.LogoutNotice? then users - {x.userid}
    else users
  }

  /** The users announced to the logic server and not announced as gone since. */
  function Announced(sent: seq<GateSend>): set<int> {
    if sent == [] then {} else Hear(Announced(sent[..|sent| - 1]), sent[|sent| - 1])
  }

  lemma AnnouncedNext(sent: seq<GateSend>, x: GateSend)
    ensures Announced(sent + [x]) == Hear(Announced(sent), x)
  {
    assert (sent + [x])[..|sent|] == sent;
  }

  /** The users somebody's socket stands for. */
  function Users(fdUser: map<int, int>): set<int> {
    set fd | fd in fdUser :: fdUser[fd]
  }

  /** What has been handed over for the logic server says exactly who is there. */
  ghost predicate InStep(s: Sessions) {
    Announced(s.sent) == Users(s.fdUser)
  }

  /** Every socket that stands for a user is connected. */
  ghost predicate AllConnected(s: Sessions) {
    s.fdUser.Keys <= s.connections
  }

  /** The session maps are inverse to each other, but for entries of 0. */
  ghost predicate MapsAgree(s: Sessions) {
    forall u | u in s.userFd && s.userFd[u] != 0 :: s.userFd[u] in s.fdUser && s.fdUser[s.userFd[u]] == u
  }

  /** Where the maps agree, a message of a client passes the check as user `u` iff its socket
      stands for `u`. */
  lemma CheckedMeansRecorded(s: Sessions, fd: int, u: int, packageType: int)
    requires Trusted(s) && MapsAgree(s) && fd !in Links(s) && fd != 0 && u != 0
    ensures Check(s, fd, u, packageType).0 <==> fd in s.fdUser && s.fdUser[fd] == u
  {
  }

  // ---- closing ----

  lemma ForgetKeepsPresence(s: Sessions, fd: int)
    requires Trusted(s)
    ensures InStep(s) ==> InStep(Forget(s, fd))
    ensures MapsAgree(s) ==> MapsAgree(Forget(s, fd))
  {
    hide Announced;
    if fd in s.fdUser {
      var u, t := s.fdUser[fd], Forget(s, fd);
      AnnouncedNext(s.sent, LogoutNotice(s.logicFd, u, fd));
      forall other | other in t.fdUser
        ensures t.fdUser[other] != u
      {
        if t.fdUser[other] == u {
          OneSocketPerUser(s, other, fd);
        }
      }
      forall v | v in Users(s.fdUser) && v != u
        ensures v in Users(t.fdUser)
      {
        var other :| other in s.fdUser && s.fdUser[other] == v;
        assert other in t.fdUser;
      }
    }
  }

  lemma {:induction false} DisconnectKeepsPresence(s: Sessions, fds: seq<int>)
    requires Trusted(s)
    ensures InStep(s) ==> InStep(Disconnect(s, fds))
    ensures AllConnected(s) ==> AllConnected(Disconnect(s, fds))
    ensures MapsAgree(s) ==> MapsAgree(Disconnect(s, fds))
    decreases |fds|
  {
    hide Announced, Users;
    if fds == [] {
    } else if fds[0] in Links(s) {
      DisconnectKeepsPresence(s, fds[1..]);
    } else {
      var t := s.(connections := s.connections - {fds[0]});
      ForgetKeepsTrust(t, fds[0]);
      ForgetKeepsPresence(t, fds[0]);
      DisconnectKeepsPresence(Forget(t, fds[0]), fds[1..]);
    }
  }

  lemma CloseKeepsPresence(s: Sessions, fd: int)
    requires Trusted(s)
    ensures InStep(s) ==> InStep(Close(s, fd))
    ensures AllConnected(s) ==> AllConnected(Close(s, fd))
    ensures MapsAgree(s) ==> MapsAgree(Close(s, fd))
  {
    hide Announced, Users;
    var t := s.(connections := s.connections - {fd});
    if fd == s.logicFd {
      DisconnectKeepsPresence(t, Ascending(t.connections));
    } else if fd != s.dbFd {
      ForgetKeepsPresence(t, fd);
    }
  }

  // ---- logging in ----

  /** A login on a socket that stands for another user leaves that user announced; any other
      login keeps the logic server in step. (What stood for somebody may be closed on the way:
      with the user's own earlier socket, or with the link to the logic server.) */
  lemma LoginKeepsStepIff(s: Sessions, fd: int, userid: int)
    requires Trusted(s) && InStep(s) && fd !in Links(s) && fd != NO_LINK
    ensures InStep(Login(s, true, fd, userid))
       <==> fd !in s.fdUser || (userid in s.userFd && Takes(s, s.userFd[userid], fd))
  {
    hide Announced, WithoutEarlier, Takes;
    RecordsWithoutEarlier(s, userid, fd);
    var t := WithoutEarlier(s, userid);
    WithoutEarlierKeepsTrust(s, userid);
    EarlierKeepsPresence(s, userid);
    var after := Login(s, true, fd, userid);
    var told := t.sent + [LoginNotice(t.logicFd, userid)];
    AnnouncedNext(t.sent, LoginNotice(t.logicFd, userid));
    AnnouncedNext(told, LoginReply(fd, userid, true));
    assert after.sent == told + [LoginReply(fd, userid, true)];
    assert Announced(after.sent) == Users(t.fdUser) + {userid};
    UsersAfterLogin(t, after, fd, userid);
  }

  /** Closing `closed` closes `fd`. */
  predicate Takes(s: Sessions, closed: int, fd: int) {
    closed == fd || (closed == s.logicFd && fd in s.connections)
  }

  lemma RecordsWithoutEarlier(s: Sessions, userid: int, fd: int)
    requires Trusted(s) && fd !in Links(s)
    ensures fd in WithoutEarlier(s, userid).fdUser
       <==> fd in s.fdUser && !(userid in s.userFd && Takes(s, s.userFd[userid], fd))
  {
    hide Disconnect;
    LogicLossLogsEveryoneOut(s, fd);
  }

  lemma EarlierKeepsPresence(s: Sessions, userid: int)
    requires Trusted(s)
    ensures InStep(s) ==> InStep(WithoutEarlier(s, userid))
    ensures AllConnected(s) ==> AllConnected(WithoutEarlier(s, userid))
    ensures MapsAgree(s) ==> MapsAgree(WithoutEarlier(s, userid))
  {
    hide Close, InStep, AllConnected, MapsAgree;
    if userid in s.userFd {
      CloseKeepsPresence(s, s.userFd[userid]);
    }
  }

  lemma UsersAfterLogin(t: Sessions, after: Sessions, fd: int, userid: int)
    requires Trusted(t) && after.fdUser == t.fdUser[fd := userid]
    requires forall other | other in t.fdUser :: t.fdUser[other] != userid
    ensures Users(after.fdUser) == Users(t.fdUser) + {userid} <==> fd !in t.fdUser
  {
    assert after.fdUser[fd] == userid;
    if fd in t.fdUser {
      var v := t.fdUser[fd];
      forall other | other in after.fdUser
        ensures after.fdUser[other] != v
      {
        if other != fd && t.fdUser[other] == v {
          OneSocketPerUser(t, other, fd);
        }
      }
      assert v in Users(t.fdUser);
    } else {
      forall v | v in Users(t.fdUser)
        ensures v in Users(after.fdUser)
      {
        var other :| other in t.fdUser && t.fdUser[other] == v;
        assert after.fdUser[other] == v;
      }
    }
  }

  /** The socket of a login is connected afterwards iff it was before and is not closed on the
      way, as it is when the user logs in again on the same socket. */
  lemma LoginKeepsConnectedIff(s: Sessions, fd: int, userid: int)
    requires Trusted(s) && AllConnected(s) && fd !in Links(s) && fd != NO_LINK
    ensures AllConnected(Login(s, true, fd, userid))
       <==> fd in s.connections && !(userid in s.userFd && Takes(s, s.userFd[userid], fd))
  {
    hide Disconnect;
    EarlierKeepsPresence(s, userid);
    var t := WithoutEarlier(s, userid);
    if userid in s.userFd {
      ConnectionsAfterClose(s, s.userFd[userid], fd);
    }
    assert AllConnected(Login(s, true, fd, userid)) <==> fd in t.connections;
  }

  /** A close takes away the socket itself, and with the link to the logic server all clients. */
  lemma ConnectionsAfterClose(s: Sessions, closed: int, fd: int)
    requires fd !in Links(s)
    ensures fd in Close(s, closed).connections <==> fd in s.connections && !Takes(s, closed, fd)
  {
    hide Disconnect;
    var t := s.(connections := s.connections - {closed});
    if closed == s.logicFd {
      ConnectionsAfterDisconnect(t, Ascending(t.connections));
    }
  }

  lemma {:induction false} ConnectionsAfterDisconnect(s: Sessions, fds: seq<int>)
    ensures Disconnect(s, fds).connections == s.connections - (SetOf(fds) - Links(s))
    decreases |fds|
  {
    if fds == [] {
    } else {
      SetOfSplit(fds);
      if fds[0] in Links(s) {
        ConnectionsAfterDisconnect(s, fds[1..]);
      } else {
        ConnectionsAfterDisconnect(Forget(s.(connections := s.connections - {fds[0]}), fds[0]), fds[1..]);
      }
    }
  }

  /** A login on a socket that stands for another user leaves that user's entry behind; any
      other login keeps the maps in agreement. */
  lemma LoginKeepsMapsAgreeIff(s: Sessions, fd: int, userid: int)
    requires Trusted(s) && MapsAgree(s) && fd !in Links(s) && fd != NO_LINK && fd != 0
    ensures MapsAgree(Login(s, true, fd, userid))
       <==> fd !in s.fdUser || (userid in s.userFd && Takes(s, s.userFd[userid], fd))
  {
    hide WithoutEarlier, Takes;
    RecordsWithoutEarlier(s, userid, fd);
    WithoutEarlierKeepsTrust(s, userid);
    EarlierKeepsPresence(s, userid);
    var t, after := WithoutEarlier(s, userid), Login(s, true, fd, userid);
    if fd in t.fdUser {
      var v := t.fdUser[fd];
      assert v != userid && after.userFd[v] == fd && after.fdUser[fd] == userid;
    }
  }

  // ---- whole runs ----

  /** A login comes from a connected socket that stands for nobody, and it does not close that
      socket with an earlier one of the user. */
  predicate Orderly(s: Sessions, e: GateEvent) {
    e.LoginAnswer? && e.result ==>
      && e.fd !in s.fdUser && e.fd in s.connections
      && !(e.userid in s.userFd && Takes(s, s.userFd[e.userid], e.fd))
  }

  lemma StepKeepsPresence(s: Sessions, e: GateEvent)
    requires Trusted(s) && InStep(s) && AllConnected(s) && Legal(s, e) && Orderly(s, e)
    ensures InStep(Step(s, e)) && AllConnected(Step(s, e))
    ensures MapsAgree(s) ==> MapsAgree(Step(s, e))
  {
    hide Announced, Users, Close, WithoutEarlier, Trusted;
    match e
    case LoginAnswer(result, fd, userid) =>
      if result {
        LoginKeepsStepIff(s, fd, userid);
        LoginKeepsConnectedIff(s, fd, userid);
        OrderlyLoginKeepsMapsAgree(s, fd, userid);
      } else {
        AnnouncedNext(s.sent, LoginReply(fd, userid, false));
      }
    case SocketClosed(fd) => CloseKeepsPresence(s, fd);
    case Incoming(fd, userid, packageType) =>
    case Addressed(userid) =>
    case Accepted(fd) =>
    case Connected(link, fd) =>
  }

  lemma OrderlyLoginKeepsMapsAgree(s: Sessions, fd: int, userid: int)
    requires Trusted(s) && fd !in Links(s) && fd != NO_LINK && fd !in s.fdUser
    ensures MapsAgree(s) ==> MapsAgree(Login(s, true, fd, userid))
  {
    hide WithoutEarlier;
    RecordsWithoutEarlier(s, userid, fd);
    EarlierKeepsPresence(s, userid);
  }

  predicate OrderlyRun(s: Sessions, es: seq<GateEvent>)
    decreases |es|
  {
    es == [] || (Legal(s, es[0]) && Orderly(s, es[0]) && OrderlyRun(Step(s, es[0]), es[1..]))
  }

  /** Over any orderly run, what has been handed over for the logic server says exactly who is
      logged in, every socket that stands for a user is connected, and the maps agree. */
  lemma {:induction false} PresenceIsKept(s: Sessions, es: seq<GateEvent>)
    requires Trusted(s) && InStep(s) && AllConnected(s) && MapsAgree(s) && OrderlyRun(s, es)
    ensures LegalRun(s, es) && Trusted(Run(s, es))
    ensures InStep(Run(s, es)) && AllConnected(Run(s, es)) && MapsAgree(Run(s, es))
    decreases |es|
  {
    hide Step, Legal, Orderly, Trusted, InStep, AllConnected, MapsAgree;
    if es == [] {
    } else {
      StepKeepsTrust(s, es[0]);
      StepKeepsPresence(s, es[0]);
      PresenceIsKept(Step(s, es[0]), es[1..]);
    }
  }

  /** So after any orderly run a client's message passes as user `u` iff its socket stands for `u`. */
  lemma CheckedMeansLoggedIn(s: Sessions, es: seq<GateEvent>, fd: int, u: int, packageType: int)
    requires Trusted(s) && InStep(s) && AllConnected(s) && MapsAgree(s) && OrderlyRun(s, es)
    requires fd !in Links(Run(s, es)) && fd != 0 && u != 0
    ensures Check(Run(s, es), fd, u, packageType).0 <==> fd in Run(s, es).fdUser && Run(s, es).fdUser[fd] == u
  {
    hide Run, Trusted, InStep, AllConnected, MapsAgree, OrderlyRun, Check;
    PresenceIsKept(s, es);
    CheckedMeansRecorded(Run(s, es), fd, u, packageType);
  }

  const LINKED := Sessions(map[], map[], {1, 2, 3, 5}, 1, 2, 3, [])

  /** Two runs that are not orderly. A second user logs in on socket 5: the first stays announced,
      and keeps its entry.
      The same user logs in there again: the session is recorded for a closed socket. */
  lemma LoginsOnOneSocket()
    ensures var once := [LoginAnswer(true, 5, 7)];
      && LegalRun(LINKED, once) && InStep(Run(LINKED, once)) && AllConnected(Run(LINKED, once))
      && Legal(Run(LINKED, once), LoginAnswer(true, 5, 8)) && Legal(Run(LINKED, once), LoginAnswer(true, 5, 7))
      && !InStep(Step(Run(LINKED, once), LoginAnswer(true, 5, 8)))
      && !MapsAgree(Step(Run(LINKED, once), LoginAnswer(true, 5, 8)))
      && !AllConnected(Step(Run(LINKED, once), LoginAnswer(true, 5, 7)))
  {
    var e := LoginAnswer(true, 5, 7);
    var s := Step(LINKED, e);
    assert [e][1..] == [] && Run(LINKED, [e]) == s && LegalRun(LINKED, [e]);
    assert s.userFd == map[7 := 5] && s.fdUser == map[5 := 7];
    assert Users(LINKED.fdUser) == {};
    hide Login, Announced, Users, Close;
    StepKeepsPresence(LINKED, e);
    StepKeepsTrust(LINKED, e);
    LoginKeepsStepIff(s, 5, 8);
    LoginKeepsMapsAgreeIff(s, 5, 8);
    LoginKeepsConnectedIff(s, 5, 7);
  }
}
