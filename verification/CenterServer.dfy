/** The center's registry: a record per connected server, and the records of each type in a
    group from which the least busy server is assigned. */
module CenterRegistry {
  datatype ServerType = NONE | CENTER | GATE | LOGIC | DATABASE | MATCH

  const DOWN: int := 3

  class ServerInfo {
    const ip: string
    const port: int
    const name: string
    const kind: ServerType
    var level: int
    var id: int

    constructor (ip: string, port: int, name: string, kind: ServerType)
      ensures this.ip == ip && this.port == port && this.name == name && this.kind == kind
    {
      this.ip, this.port, this.name, this.kind := ip, port, name, kind;
    }
  }

  // ---- groups ----

  ghost predicate NoDuplicates<T>(s: seq<T>) {
    forall i, j | 0 <= i < j < |s| :: s[i] != s[j]
  }

  /** `left` is `s` without the first entry that is `x`; all others stay in their order. */
  ghost predicate Cut<T>(s: seq<T>, x: T, left: seq<T>) {
    && (x !in s ==> left == s)
    && (forall k | 0 <= k < |s| && s[k] == x && x !in s[..k] :: left == s[..k] + s[k + 1..])
  }

  lemma FirstIndex<T>(s: seq<T>, x: T) returns (k: nat)
    requires x in s
    ensures k < |s| && s[k] == x && x !in s[..k]
  {
    if s[0] == x {
      k := 0;
    } else {
      assert s == [s[0]] + s[1..];
      var i := FirstIndex(s[1..], x);
      k := i + 1;
      assert s[..k] == [s[0]] + s[1..][..i];
    }
  }

  /** What is left are the other servers, each once if each was there once. */
  lemma CutFacts<T>(s: seq<T>, x: T, left: seq<T>)
    requires NoDuplicates(s) && Cut(s, x, left)
    ensures NoDuplicates(left)
    ensures forall y :: y in left <==> y in s && y != x
  {
    if x in s {
      var k := FirstIndex(s, x);
      assert s == s[..k] + [x] + s[k + 1..];
      assert left == s[..k] + s[k + 1..];
      assert x !in s[k + 1..];
    }
  }

  /** The place the scan settles on: the leftmost least level among those below `bound`, at
      index `at` or later; -1 if there is none. */
  ghost predicate IsBest(levels: seq<int>, index: int) {
    if index == -1 then forall i | 0 <= i < |levels| :: levels[i] >= DOWN
    else
      && 0 <= index < |levels| && levels[index] < DOWN
      && (forall i | 0 <= i < |levels| :: levels[index] <= levels[i])
      && (forall i | 0 <= i < index :: levels[index] < levels[i])
  }

  /** There is exactly one such place. */
  lemma BestIsUnique(levels: seq<int>, a: int, b: int)
    requires IsBest(levels, a) && IsBest(levels, b)
    ensures a == b
  {
  }

  ghost function InfosOf(m: map<int, ServerInfo>): set<ServerInfo> {
    set fd | fd in m :: m[fd]
  }

  lemma InfosAdd(m: map<int, ServerInfo>, fd: int, x: ServerInfo)
    requires fd !in m
    ensures InfosOf(m[fd := x]) == InfosOf(m) + {x}
  {
    var added := m[fd := x];
    assert added[fd] == x;
    assert forall f | f in m :: f in added && added[f] == m[f];
  }

  lemma InfosDrop(m: map<int, ServerInfo>, fd: int)
    requires fd in m && forall a, b | a in m && b in m && a != b :: m[a] != m[b]
    ensures InfosOf(m - {fd}) == InfosOf(m) - {m[fd]}
  {
    var left := m - {fd};
    assert forall f | f in m && f != fd :: f in left && left[f] == m[f];
  }

  /** `group` holds the servers of type `kind` among `infos`, each exactly once, and nothing else. */
  ghost predicate IsGroup(group: seq<ServerInfo>, kind: ServerType, infos: set<ServerInfo>) {
    && NoDuplicates(group)
    && (forall x | x in group :: x in infos && x.kind == kind)
    && (forall x | x in infos && x.kind == kind :: x in group)
  }

  lemma GroupAdd(group: seq<ServerInfo>, kind: ServerType, infos: set<ServerInfo>, x: ServerInfo)
    requires IsGroup(group, kind, infos) && x !in infos
    ensures IsGroup(if x.kind == kind then group + [x] else group, kind, infos + {x})
  {
    assert x !in group;
  }

  lemma GroupDrop(
    group: seq<ServerInfo>, kind: ServerType, infos: set<ServerInfo>, x: ServerInfo, left: seq<ServerInfo>)
    requires IsGroup(group, kind, infos)
    requires if x.kind == kind then Cut(group, x, left) else left == group
    ensures IsGroup(left, kind, infos - {x}) && Cut(group, x, left)
  {
    if x.kind == kind {
      CutFacts(group, x, left);
    }
  }

  /** A copy of a record; only the level of `NOBODY` is set by the source. */
  datatype Assigned = Assigned(ip: string, port: int, name: string, kind: ServerType, level: int, id: int)

  const NOBODY := Assigned("", 0, "", NONE, DOWN, 0)

  function CopyOf(x: ServerInfo): Assigned
    reads x
  {
    Assigned(x.ip, x.port, x.name, x.kind, x.level, x.id)
  }

  class CenterServer {
    var gateServerGroup: seq<ServerInfo>
    var logicServerGroup: seq<ServerInfo>
    var dbServerGroup: seq<ServerInfo>
    var machineRecord: map<int, ServerInfo>

    ghost function Infos(): set<ServerInfo>
      reads this
    {
      InfosOf(machineRecord)
    }

    ghost predicate Valid()
      reads this
    {
      && (forall a, b | a in machineRecord && b in machineRecord && a != b :: machineRecord[a] != machineRecord[b])
      && IsGroup(gateServerGroup, GATE, Infos())
      && IsGroup(logicServerGroup, LOGIC, Infos())
      && IsGroup(dbServerGroup, DATABASE, Infos())
    }

    constructor ()
      ensures Valid() && machineRecord == map[]
    {
      gateServerGroup, logicServerGroup, dbServerGroup, machineRecord := [], [], [], map[];
    }

    function Group(kind: ServerType): seq<ServerInfo>
      reads this
    {
      match kind
      case GATE => gateServerGroup
      case LOGIC => logicServerGroup
      case DATABASE => dbServerGroup
      case _ => []
    }

    method RegisterServer(machine: ServerInfo)
      modifies this, machine`id
      ensures machineRecord == old(machineRecord)
      ensures gateServerGroup == if machine.kind == GATE then old(gateServerGroup) + [machine] else old(gateServerGroup)
      ensures logicServerGroup ==
                if machine.kind == LOGIC then old(logicServerGroup) + [machine] else old(logicServerGroup)
      ensures dbServerGroup ==
                if machine.kind == DATABASE then old(dbServerGroup) + [machine] else old(dbServerGroup)
      ensures machine.id ==
                if machine.kind in {GATE, LOGIC, DATABASE} then |old(Group(machine.kind))| else old(machine.id)
    {
      if machine.kind == LOGIC {
        machine.id := |logicServerGroup|;
        logicServerGroup := logicServerGroup + [machine];
      } else if machine.kind == GATE {
        machine.id := |gateServerGroup|;
        gateServerGroup := gateServerGroup + [machine];
      } else if machine.kind == DATABASE {
        machine.id := |dbServerGroup|;
        dbServerGroup := dbServerGroup + [machine];
      }
    }

    /** A server registers, or refreshes its level. A new record joins the group of its type. */
    method HandleRegister(fd: int, ip: string, port: int, name: string, kind: ServerType, level: int)
      requires Valid()
      modifies this, Infos()
      ensures Valid()
      ensures fd in machineRecord && machineRecord[fd].level == level
      ensures fd in old(machineRecord) ==> machineRecord == old(machineRecord) && forall k :: Group(k) == old(Group(k))
      ensures fd !in old(machineRecord) ==>
                var machine := machineRecord[fd];
                && machineRecord == old(machineRecord)[fd := machine]
                && fresh(machine) && machine.kind == kind
                && machine.ip == ip && machine.port == port && machine.name == name
                && (kind in {GATE, LOGIC, DATABASE} ==> machine.id == |old(Group(kind))|)
                && forall k :: Group(k) ==
                     if k == kind && k in {GATE, LOGIC, DATABASE} then old(Group(k)) + [machine] else old(Group(k))
      ensures forall x | x in old(Infos()) ::
                x.id == old(x.id) && (x != machineRecord[fd] ==> x.level == old(x.level))
    {
      if fd !in machineRecord {
        var machine := new ServerInfo(ip, port, name, kind);
        machineRecord := machineRecord[fd := machine];
        InfosAdd(old(machineRecord), fd, machine);
        GroupAdd(gateServerGroup, GATE, old(Infos()), machine);
        GroupAdd(logicServerGroup, LOGIC, old(Infos()), machine);
        GroupAdd(dbServerGroup, DATABASE, old(Infos()), machine);
        RegisterServer(machine);
      }
      machineRecord[fd].level := level;
    }

    /** `info` describes the best server of the group, or says DOWN if there is none. */
    ghost predicate BestOf(group: seq<ServerInfo>, info: Assigned)
      reads group
    {
      exists index ::
        && IsBest(Levels(group), index)
        && (if index == -1 then info.level == DOWN
            else info == CopyOf(group[index]))
    }

    /** Scans one group for its least busy server. */
    method FindAvailableServerInGroup(group: seq<ServerInfo>) returns (info: Assigned)
      ensures BestOf(group, info)
    {
      info := NOBODY;
      var best := -1;
      var minlevel := DOWN;
      for i := 0 to |group|
        invariant -1 <= best < i
        invariant minlevel == if best == -1 then DOWN else group[best].level
        invariant minlevel <= DOWN && (best != -1 ==> minlevel < DOWN)
        invariant forall j | 0 <= j < i :: minlevel <= group[j].level
        invariant forall j | 0 <= j < best :: minlevel < group[j].level
      {
        if group[i].level < minlevel {
          best := i;
          minlevel := group[i].level;
        }
      }
      assert IsBest(Levels(group), best);
      if best != -1 {
        info := CopyOf(group[best]);
      }
    }

    function Levels(group: seq<ServerInfo>): seq<int>
      reads group
    {
      seq(|group|, i requires 0 <= i < |group| reads group => group[i].level)
    }

    /** The leftmost recorded server of least level of the wanted type, or DOWN if all of them
        are down or there is none. */
    method AssignServer(kind: ServerType) returns (info: Assigned)
      requires Valid()
      ensures info.level < DOWN ==>
                exists x :: x in Infos() && x.kind == kind && info == CopyOf(x)
                  && info.ip == x.ip && info.port == x.port && info.name == x.name
                  && info.level == x.level && info.kind == x.kind && info.id == x.id
      ensures kind in {GATE, LOGIC, DATABASE} ==>
                forall x | x in Infos() && x.kind == kind :: info.level <= x.level || x.level >= DOWN
      ensures info.level <= DOWN
      ensures kind !in {GATE, LOGIC, DATABASE} ==> info.level == DOWN
      ensures BestOf(Group(kind), info)
    {
      if kind == LOGIC {
        info := FindAvailableServerInGroup(logicServerGroup);
      } else if kind == GATE {
        info := FindAvailableServerInGroup(gateServerGroup);
      } else if kind == DATABASE {
        info := FindAvailableServerInGroup(dbServerGroup);
      } else {
        info := NOBODY;
        assert IsBest(Levels([]), -1);
      }
      BestIsLeast(Group(kind), info);
    }

    /** No server of the group is less busy than the best one, and that is one of them. */
    lemma BestIsLeast(group: seq<ServerInfo>, info: Assigned)
      requires BestOf(group, info)
      ensures info.level <= DOWN && forall x | x in group :: info.level <= x.level || x.level >= DOWN
      ensures info.level < DOWN ==> exists x :: x in group && info == CopyOf(x)
    {
      var levels := Levels(group);
      var index :| IsBest(levels, index)
        && (if index == -1 then info.level == DOWN
            else info == CopyOf(group[index]));
      if index != -1 {
        assert group[index] in group && levels[index] == group[index].level;
      }
      forall x | x in group
        ensures info.level <= x.level || x.level >= DOWN
      {
        var i :| 0 <= i < |group| && group[i] == x;
        assert levels[i] == x.level;
      }
    }

    /** `group.erase` of the first entry that is `info`. */
    method RemoveServerFromGroup(group: seq<ServerInfo>, info: ServerInfo) returns (left: seq<ServerInfo>)
      ensures Cut(group, info, left)
    {
      for i := 0 to |group|
        invariant info !in group[..i]
      {
        if group[i] == info {
          left := group[..i] + group[i + 1..];
          OnlyFirst(group, info, i);
          return left;
        }
        assert group[..i + 1] == group[..i] + [group[i]];
      }
      assert group[..|group|] == group;
      return group;
    }

    lemma OnlyFirst(group: seq<ServerInfo>, info: ServerInfo, i: nat)
      requires i < |group| && group[i] == info && info !in group[..i]
      ensures forall k | 0 <= k < |group| && group[k] == info && info !in group[..k] :: k == i
    {
      assert forall k | 0 <= k < i :: group[k] == group[..i][k];
      assert forall k | i < k < |group| :: group[..k][i] == info;
    }

    method RemoveServer(info: ServerInfo)
      modifies this
      ensures machineRecord == old(machineRecord)
      ensures if info.kind == GATE then Cut(old(gateServerGroup), info, gateServerGroup)
              else gateServerGroup == old(gateServerGroup)
      ensures if info.kind == LOGIC then Cut(old(logicServerGroup), info, logicServerGroup)
              else logicServerGroup == old(logicServerGroup)
      ensures if info.kind == DATABASE then Cut(old(dbServerGroup), info, dbServerGroup)
              else dbServerGroup == old(dbServerGroup)
    {
      if info.kind == LOGIC {
        logicServerGroup := RemoveServerFromGroup(logicServerGroup, info);
      } else if info.kind == GATE {
        gateServerGroup := RemoveServerFromGroup(gateServerGroup, info);
      } else if info.kind == DATABASE {
        dbServerGroup := RemoveServerFromGroup(dbServerGroup, info);
      }
    }

    /** A closed connection takes its record with it: out of the map and out of every group. The
        other servers stay in the order in which they registered. */
    method CloseClientSocket(fd: int)
      requires Valid()
      modifies this
      ensures Valid()
      ensures machineRecord == old(machineRecord) - {fd}
      ensures fd in old(machineRecord) ==>
                var gone := old(machineRecord[fd]);
                && gone !in gateServerGroup && gone !in logicServerGroup && gone !in dbServerGroup
                && Cut(old(gateServerGroup), gone, gateServerGroup)
                && Cut(old(logicServerGroup), gone, logicServerGroup)
                && Cut(old(dbServerGroup), gone, dbServerGroup)
      ensures fd !in old(machineRecord) ==> forall k :: Group(k) == old(Group(k))
      ensures forall x | x in old(Infos()) && (fd in old(machineRecord) ==> x != old(machineRecord[fd])) :: x in Infos()
    {
      if fd in machineRecord {
        hide Cut;
        var info := machineRecord[fd];
        InfosDrop(machineRecord, fd);
        RemoveServer(info);
        GroupDrop(old(gateServerGroup), GATE, old(Infos()), info, gateServerGroup);
        GroupDrop(old(logicServerGroup), LOGIC, old(Infos()), info, logicServerGroup);
        GroupDrop(old(dbServerGroup), DATABASE, old(Infos()), info, dbServerGroup);
        machineRecord := machineRecord - {fd};
      }
    }
  }
}
