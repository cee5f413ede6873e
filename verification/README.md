# Lockstep game server: a verified model

The repository is a C++ lockstep game server: gates hold the client sockets, logic servers
own the rooms and tick their games, and a center hands out servers. This project models its
stateful core in Dafny and proves what it keeps over all runs. `dafny verify dfyconfig.toml`
checks everything.

Each imperative component appears twice. A class has the fields, branches and loops of the
C++ code, and every method is proved to do exactly what a function on values says (`Did` for a
room: the state reached *and* the notices sent, in order). The theorems are lemmas about
those functions.

| files | what they hold |
|---|---|
| `Basics`, `Messages` | ordered iteration over maps; the messages clients receive, and `View`, the frames a client has rebuilt from them |
| `RoomModel`, `Room` | the operations of a room: on values, and as a class |
| `RoomShutdown` | closed form of the recursion EndGame, KickAllUserFromGame, LeaveFromGame, and who hears of it |
| `RoomInvariant`, `RoomGame`, `RoomHistory` | invariants of a room, lockstep, conservation of operations, pids, whole runs |
| `RoomEffects` | what each operation of a room does, field by field and notice by notice |
| `RoomRoster` | who is shown the roster and when it is up to date; names and roles over runs |
| `LogicModel`, `LogicServer` | the server's messages and its frame timer: on values, and as a class over many `Room` objects |
| `LogicSafety`, `LogicTheorems` | the server invariant and the theorems over every run of the server |
| `LogicTrace` | the operations that the messages of a run perform on each room |
| `LogicEffects` | names, roles, replies and notices on the server |
| `LogicPresence` | who is away, against the offline marks of the rooms, and what follows for rooms and games |
| `LogicWitnesses` | runs from boot that reach the states in which the server falls short |
| `Bytes`, `RingBuffer`, `Framing`, `Packets` | 32-bit integers on the wire, the circular buffer, cutting a stream into packets, whole messages over a chunked stream |
| `Varint`, `WireFormat`, `WireMessages`, `WireNested` | the protobuf codec of UserOperate, Frame and GameReplay |
| `WireLayout` | header, packet types, varints and fields in numbers |
| `GateServer`, `GatePresence`, `GateEffects` | session maps of the gate, what is handed over for the logic server about logins, and each event field by field |
| `CenterServer` | server groups of the center |

Conventions. `SendToClient` appends to a log of all notices; delivery succeeds. A `std::map`
is walked in ascending key order (`Ascending`). The configuration values of the rooms are
parameters with `ROOM_SIZE >= 1`; header size, buffer sizes and message types are the
constants of the repository. The varint and length-delimited helpers of the protobuf library
are not part of the repository; they are written after the Protocol Buffers Encoding guide,
sections "Base 128 Varints", "Length-Delimited Records" and "Packed Repeated Fields".

Where code and comments differ, the model follows the code:

- `Room.h` says that a player's departure is announced in a frame. It never is
  (`DeparturesAreNotAnnounced`): `LeaveFromGame` erases the player before it asks
  `NotifyUserQuitGame`, which then returns early.
- `CheckRoomDead` reads as "all members are away", but it compares the number of offline marks
  with the number of members, and a mark can be wrong: logging in again clears it only while the
  room is in a game, and leaving the room never does. `DeadIsRightIff` gives the exact condition
  under which the answer is right, `MarkGoesWrongIff` and `MarkGoesRightIff` the messages after
  which a mark becomes wrong or right, and `DeadIsRightInRuns` shows that otherwise the answer is
  right throughout a run. `DeadThoughSomeoneCameBack` and `DeadThoughSomeoneIsOnline` are runs
  of the server that delete a room with a member who is here; `KeptThoughAllAreAway` keeps a
  room without any.
- For the same reason a user who logs out may stay in its game: `LogoutStaysInGameIff` says
  exactly when, `LogoutLeavesGame` that it does not happen otherwise, and `AwayAndStillInGame`
  is a run.
- A user who joins the room it alone occupies has that room deleted before it is joined.
  `JoinMeetsDeletedRoom` shows that this is the only such case, and `SoleOccupantIsReached`
  that one message leads there.
- `HandleReceivedMsg` does not compare the announced size of a packet with the bytes left.
  `OverrunIff` says for every buffer whether that matters: iff it ends in a valid packet cut
  short behind its header.
- Starting a game as user -1, the value for "no host", in an empty room would leave a game
  running without players. `StepKeepsInv` shows that nothing else breaks a room.
- The roster shows who plays, and it is sent again whenever that changes, except when a member
  reconnects into a running game: `StepInforms` shows that it is then out of date, and never
  otherwise.
- The gate hands over notices of logins and departures for the logic server. A second user who
  logs in on a socket leaves the first one announced, with its entry in place, and a user who
  logs in again on its own socket is recorded for a socket just closed (`LoginsOnOneSocket`).
  `LoginKeepsStepIff`, `LoginKeepsMapsAgreeIff` and `LoginKeepsConnectedIff` are the exact
  conditions.

## Model

| member | source | states |
|---|---|---|
| RoomModel.LeaveFromGame | src/Logic/Room.cpp:158-167 | the mutual recursion terminates on (players in game, started flag); leaving never adds players or starts a game |
| RoomModel.EndGame | src/Logic/Room.cpp:250-261 | same measure; afterwards the game is not marked as started |
| RoomModel.KickFromGame | src/Logic/Room.cpp:187-195 | same measure; kicking never adds players or starts a game |
| RoomShutdown.LeaveFromGameEffect | src/Logic/Room.cpp:158-167 | closed form: only the in-game entry goes, and the started flag falls iff the last player left |
| RoomShutdown.EndGameEffect | src/Logic/Room.cpp:250-261 | closed form: the game is empty and not started, all else is unchanged |
| RoomShutdown.KickFromGameEffect | src/Logic/Room.cpp:187-195 | closed form for any list of kicked users, although the recursion may end the game midway |
| RoomShutdown.EndGameNotices | src/Logic/Room.cpp:250-261 | the addressees of all EndGame notices of the recursion, in order, are the players at the call |
| RoomShutdown.EndGameNotifiesEachOnce | src/Logic/Room.cpp:250-261 | each player in game at the call is notified exactly once, in ascending order |
| RoomShutdown.LeavingNotifiesNobody | src/Logic/Room.cpp:158-167 | when the last player leaves and so ends the game, nobody is sent an EndGame |
| RoomShutdown.DeparturesAreNotAnnounced | src/Logic/Room.cpp:326-335 | the announcement fires exactly for players of a running game, yet leaving never changes the pending or past frames |
| RoomInvariant.FreshRoomInv | src/Logic/Room.cpp:3-16 | a new room satisfies the invariant |
| RoomInvariant.StepKeepsInv | src/Logic/Room.cpp:44-261 | every operation keeps the allocator, roster, host, in-game and frame-log invariants iff it is not a start as "no host" in an empty room |
| RoomInvariant.StartKeepsInvIffLegal | src/Logic/Room.cpp:232-248 | a start keeps the invariant iff it is not made with the "no host" value in an empty room |
| RoomInvariant.NotFullHasFreePid | src/Logic/Room.cpp:62-79 | a room that is not full has a free pid, so the branch that grows the room is dead |
| RoomInvariant.PidsPartition | src/Logic/Room.cpp:78-81 | free pids and assigned pids are disjoint and make up 1..m_size |
| RoomInvariant.RosterIsFaithful | src/Logic/Room.cpp:337-352 | the roster lists each member once, in ascending order, with its own name, pid, role and flags |
| RoomInvariant.ExactlyOneHost | src/Logic/Room.cpp:207-217 | a roster shows a host iff the room is not empty, and never two |
| RoomInvariant.LeaveFromRoomEffect | src/Logic/Room.cpp:127-156 | leaving the room is leaving the game, then freeing pid, roster entries and host role |
| RoomInvariant.JoinAllEffect | src/Logic/Room.cpp:243-246 | the start loop puts every listed member in game with its pid and one JoinGame operation each, in order |
| RoomInvariant.StartGameEffect | src/Logic/Room.cpp:232-248 | a start leaves every member in game, frame 0, an empty log and the opening operations pending |
| RoomGame.OtherStepsAreQuiet | src/Logic/Room.cpp:51-205 | operations outside the game flow send no game traffic, leave frames alone, let nobody into a running game and free the pids of those who go |
| RoomGame.ViewOfTick | src/Logic/Room.cpp:263-272 | a tick adds its frame to the view of exactly the users in game |
| RoomGame.ViewOfReconnect | src/Logic/Room.cpp:97-118 | after a reconnect the user's view is all frames so far; nobody else's view changes |
| RoomGame.StartGameKeepsLockstep | src/Logic/Room.cpp:232-248 | a start resets every member's view to the empty log |
| RoomGame.TickKeepsLockstep | src/Logic/Room.cpp:263-288 | a tick keeps every player's view equal to the log and every member's view a prefix |
| RoomGame.ReconnectKeepsLockstep | src/Logic/Room.cpp:97-118 | a member who was away is in lockstep again at once |
| RoomGame.StepKeepsLockstep | src/Logic/Room.cpp:97-288 | every operation keeps lockstep, with replay support on |
| RoomHistory.StepConserves | src/Logic/Room.cpp:219-272 | ticked plus pending operations equal, in order, an account of accepted operations kept without looking at frames |
| RoomHistory.AcceptKeepsPids | src/Logic/Room.cpp:219-230 | stamping a member's operation keeps one user per pid |
| RoomHistory.StepKeepsPids | src/Logic/Room.cpp:57-61 | since nobody joins a running game, a pid freed in it names nobody else in its log |
| RoomHistory.NextIsSafe | src/Logic/Room.cpp:44-288 | one operation keeps all of the above together |
| RoomHistory.RunIsSafe | src/Logic/Room.cpp:44-288 | so does every finite run |
| RoomHistory.EveryRunIsSafe | src/Logic/Room.cpp:3-288 | over every run of every new room with replay on: conservation, one user per pid, frames 1..frame_id, players' views equal the log, members' views are prefixes |
| RoomHistory.GameOpening | src/Logic/Room.cpp:232-248 | a game's log opens with one operation of type 1 per member, entry i with the role and the pid of the i-th member by user id, and keeps that opening over any run until the next start |
| RoomHistory.RunningGameWasOpened | src/Logic/Room.cpp:232-248 | in any run, a running game was started by some event, and its log begins, entry by entry, with the roles and pids of the members of that moment |
| RoomHistory.HistoryGrows | src/Logic/Room.cpp:219-272 | between two starts the account only grows at its end |
| RoomEffects.FreshRoom | src/Logic/Room.cpp:3-16 | a new room field by field: pids 1..size free, nobody in, no host, no game |
| RoomEffects.JoinRoomLetsIn | src/Logic/Room.cpp:72-94 | with no game running, a place free and the user not in: it gets the least free pid, role 1, its name, and the room if that has no host; it alone is told that it entered |
| RoomEffects.JoinRoomRefuses | src/Logic/Room.cpp:57-71 | in every other case nothing changes and the user is told the first reason that applies |
| RoomEffects.LeaveFromRoomTakesOut | src/Logic/Room.cpp:127-156 | pid free again, all entries gone, the host role to the least member left or nobody, the game over with its last player; nothing else |
| RoomEffects.LeaveFromRoomRefuses | src/Logic/Room.cpp:133-137 | whoever is no member is told so, and nothing changes |
| RoomEffects.LeaveIsLeaveFromRoom | src/Logic/Room.cpp:120-125 | leaving the game first makes no difference to where it leads |
| RoomEffects.DestroyEmpties | src/Logic/Room.cpp:18-22 | a deleted room is empty, without host and game, all pids free |
| RoomEffects.DestroyNotifies | src/Logic/Room.cpp:18-22 | each player of a running game is told once that it is over, nobody if none runs |
| RoomEffects.JoinGameIsQueued | src/Logic/Room.cpp:314-324 | a member of a running game is queued with type 1, its role and its pid; otherwise nothing changes |
| RoomEffects.QuitGameIsQueued | src/Logic/Room.cpp:326-335 | a player of a running game is queued with type 2 and its pid; otherwise nothing changes |
| RoomEffects.OperateIsQueued | src/Logic/Room.cpp:219-230 | type and data as sent, the pid the member's own |
| RoomEffects.StartGameStarts | src/Logic/Room.cpp:232-248 | everybody plays under its pid, counter and log start over, one opening operation and one notice with room, seed and pid per member |
| RoomEffects.StartGameRefuses | src/Logic/Room.cpp:234-234 | nobody but the host starts a game, and none while one runs |
| RoomEffects.TickSendsTheFrame | src/Logic/Room.cpp:263-272 | the pending operations under the next number go to each player and nobody else, and to the log iff replays are on |
| RoomEffects.ReconnectBringsBack | src/Logic/Room.cpp:97-118 | three notices with pid, room, host flag, seed and all frames; online again, and in a running game playing and announced |
| RoomEffects.EndGameNamesTheRoom | src/Logic/Room.cpp:307-312 | every EndGame notice carries the id of the room |
| RoomEffects.SetUserOfflineMarks | src/Logic/Room.cpp:363-368 | marked, out of the game, the game over with its last player; nothing else |
| RoomEffects.UserInfoChangeSetsRole | src/Logic/Room.cpp:376-383 | the member's role is the one asked for; all other roles and fields stay |
| RoomRoster.RoomInfoShows | src/Logic/Room.cpp:169-177 | the notice shows id, started flag and each member once with its own name, pid, role, host and in-game flag |
| RoomRoster.InfoReachesEachMemberOnce | src/Logic/Room.cpp:179-185 | the broadcast reaches each member exactly once and nobody else, and shows the room |
| RoomRoster.StepInforms | src/Logic/Room.cpp:44-383 | after each operation that changes what is shown, the last roster every member was sent shows the room reached, and others keep that; it fails exactly when a member out of game reconnects into a running one |
| RoomRoster.RunInforms | src/Logic/Room.cpp:44-383 | over any run every member was last sent the roster as it is, unless somebody reconnected into the game since the last one |
| RoomRoster.NewRoomInforms | src/Logic/Room.cpp:3-383 | the same from a new room on |
| RoomRoster.StepMovesRoster | src/Logic/Room.cpp:51-383 | a member keeps pid and name while it stays, and its role but for its own changes; only a join brings a new one |
| RoomRoster.RoleIsLastAskedFor | src/Logic/Room.cpp:376-383 | over any run a member's role is the one it last asked for since it joined, or 1, and its name the one it joined with |
| GameRoom.Room.constructor | src/Logic/Room.cpp:3-16 | the fresh room state: pids 1..size free, nobody in, no host |
| GameRoom.Room.GetRoomUserInfos | src/Logic/Room.cpp:337-352 | the array is never indexed out of range and equals the roster |
| GameRoom.Room.SendRoomAllInfo | src/Logic/Room.cpp:169-177 | one notice with room id, started flag and roster |
| GameRoom.Room.SendRoomAllInfoToAll | src/Logic/Room.cpp:179-185 | the same notice to every member, in order |
| GameRoom.Room.BroadCastToGame | src/Logic/Room.cpp:282-288 | one notice to each user in game, in order, to nobody else |
| GameRoom.Room.NotifyUserJoinGame | src/Logic/Room.cpp:314-324 | the state after the JoinGame operation is queued, or the old one for a non-member or idle room |
| GameRoom.Room.NotifyUserQuitGame | src/Logic/Room.cpp:326-335 | the state after the LeaveGame operation is queued, or the old one if the user is not in game |
| GameRoom.Room.OnUserOperate | src/Logic/Room.cpp:219-230 | the state after the operation, stamped with the sender's pid, is queued |
| GameRoom.Room.LeaveFromGame | src/Logic/Room.cpp:158-167 | state and notices of the recursive shutdown, from any state inside it |
| GameRoom.Room.EndGame | src/Logic/Room.cpp:250-261 | state and notices of the recursive shutdown |
| GameRoom.Room.KickAllUserFromGame | src/Logic/Room.cpp:187-195 | state and notices, walking over a copy of the map the calls change |
| GameRoom.Room.ChangeRoomHost | src/Logic/Room.cpp:207-217 | -1 clears the host, a member becomes it, anybody else changes nothing |
| GameRoom.Room.JoinRoom | src/Logic/Room.cpp:51-95 | state, notices with the reason given, and result of all four branches; the growing branch is proved dead |
| GameRoom.Room.RemoveMember | src/Logic/Room.cpp:144-153 | pid back in the pool, roster entries gone, host passed to the first member left |
| GameRoom.Room.LeaveFromRoom | src/Logic/Room.cpp:127-156 | state and notices of both branches |
| GameRoom.Room.Leave | src/Logic/Room.cpp:120-125 | leaving the game twice and the room once: state and notices |
| GameRoom.Room.KickFromRoom | src/Logic/Room.cpp:197-205 | state and notices of kicking a list of members |
| GameRoom.Room.Destroy | src/Logic/Room.cpp:18-22 | state and notices of the destructor |
| GameRoom.Room.JoinGame | src/Logic/Room.cpp:44-49 | the member is in game with its pid and announced |
| GameRoom.Room.NotifyGameStart | src/Logic/Room.cpp:290-305 | each member gets its own pid with the start |
| GameRoom.Room.StartGame | src/Logic/Room.cpp:232-248 | state and notices; only the host, and only when no game runs; the invariant is kept iff the start is legal |
| GameRoom.Room.Tick | src/Logic/Room.cpp:263-272 | state, notices and result |
| GameRoom.Room.Reconnect | src/Logic/Room.cpp:97-118 | state and notices, in their order |
| GameRoom.Room.NotifyReconnect | src/Logic/Room.cpp:102-116 | the three notices of a reconnect |
| GameRoom.Room.SetUserOnline | src/Logic/Room.cpp:370-374 | the offline mark of a member goes |
| GameRoom.Room.SetUserOffline | src/Logic/Room.cpp:363-368 | the member is marked and leaves the game |
| GameRoom.Room.UserInfoChange | src/Logic/Room.cpp:376-383 | the member's role changes and everybody is told |
| LogicModel.TargetSurvives | src/Source/LogicServer.cpp:315-330 | leaving one's old room deletes the target room only if one was its sole occupant |
| LogicSafety.AddRoomKeepsCore | src/Source/LogicServer.cpp:340-348 | a new room keeps index, ids, room invariants and lockstep |
| LogicSafety.RemoveRoomKeepsCore | src/Source/LogicServer.cpp:358-373 | deleting a room, notices of its destructor included, keeps them too |
| LogicSafety.RemovePlayerKeepsInv | src/Source/LogicServer.cpp:321-330 | taking a user out keeps the server invariant, deleting the room it emptied |
| LogicSafety.AddPlayerKeepsCore | src/Source/LogicServer.cpp:332-338 | index and membership change together, or not at all when the room refuses |
| LogicSafety.HandleJoinRoomKeepsInv | src/Source/LogicServer.cpp:198-215 | the target is still live when joined, and the invariant holds after |
| LogicSafety.HandleLeaveRoomKeepsInv | src/Source/LogicServer.cpp:217-238 | keeps the server invariant |
| LogicSafety.HandleCreateRoomKeepsInv | src/Source/LogicServer.cpp:240-269 | keeps the server invariant, the new room having its creator in it |
| LogicSafety.HandleLogoutKeepsInv | src/Source/LogicServer.cpp:155-171 | keeps the server invariant, whether or not the room counts as dead |
| LogicSafety.HandleLoginKeepsInv | src/Source/LogicServer.cpp:90-104 | keeps the server invariant, reconnecting into a running game |
| LogicSafety.HandleKeepsInv | src/Source/LogicServer.cpp:69-187 | every message and every timer tick keeps the server invariant |
| LogicTheorems.ServerRunKeepsInv | src/Source/LogicServer.cpp:69-187 | so does every run |
| LogicTheorems.RunCompletesIffEnabled | src/Source/LogicServer.cpp:155-171 | no run from boot ever follows the index to a room that is not live; it stops early only at one of the two events the source cannot handle |
| LogicTheorems.IndexAlwaysAgrees | src/Source/LogicServer.cpp:198-373 | between messages the index says r iff room r is live with the user as a member; nobody is in two rooms; no room is empty |
| LogicTheorems.EveryPlayerInLockstep | src/Source/LogicServer.cpp:69-187 | across the whole server, every player of every running game holds exactly its frames, numbered 1..frame_id, and every member a prefix |
| LogicTheorems.RoomIdsConserved | src/Source/LogicServer.cpp:340-373 | every id up to min(ROOM_POOL_SIZE, DEFAULT_ROOM_COUNT) is in exactly one set; ids in use are the live rooms |
| LogicTheorems.PoolExhaustedIff | src/Source/LogicServer.cpp:340-372 | when all ids are returned, the pool is exhausted iff there are as many rooms as ids |
| LogicTheorems.TickRoomsEffect | src/Source/LogicServer.cpp:69-79 | each listed room is ticked exactly once and nothing else changes |
| LogicTheorems.UpdateAdvancesRunningRooms | src/Source/LogicServer.cpp:69-79 | one update adds exactly one frame, made of the pending operations, to each running room and leaves the others alone |
| LogicTheorems.JoinMeetsDeletedRoom | src/Source/LogicServer.cpp:315-338 | joining meets a deleted room iff the user is the sole occupant of that room |
| LogicTheorems.DeadMeansBalanced | src/Logic/Room.cpp:354-361 | dead iff stale offline marks are as many as members online |
| LogicTrace.HandleActs | src/Source/LogicServer.cpp:69-187 | a room that is there before and after a message has performed exactly the operations listed for it, all legal |
| LogicTrace.HandleCreates | src/Source/LogicServer.cpp:240-269 | a room that was not there before has the smallest free id and is the new room its creator, who was in none, asked for, with the creator in it |
| LogicTrace.TracesKeepFitting | src/Source/LogicServer.cpp:69-373 | over any run, the operations collected for each room since its creation are legal and lead to its state |
| LogicTrace.EveryRoomIsItsTrace | src/Source/LogicServer.cpp:69-400 | over any run, each room's log holds exactly the operations accepted from the messages since its creation, one user per pid, and a running game's log begins with its opening |
| LogicEffects.HandleNames | src/Source/LogicServer.cpp:95-96 | a login makes the user's name known, and no other message changes a name |
| LogicEffects.NameIsOfLastLogin | src/Source/LogicServer.cpp:402-405 | over any run the name known of a user is that of its last login |
| LogicEffects.HandleMovesMember | src/Source/LogicServer.cpp:81-187 | a member keeps pid and name, and its role but for its own ChangeRole; one who enters has its login name and role 1 |
| LogicEffects.RoleOnServer | src/Source/LogicServer.cpp:306-313 | over any run of the server, roles and names are the last ones of each room's own operations |
| LogicEffects.RefusalsAreTold | src/Source/LogicServer.cpp:203-256 | a request that cannot be met is answered to the user alone and changes nothing else |
| LogicEffects.CreationIsTold | src/Source/LogicServer.cpp:257-268 | the creator is told the smallest free id, the name and that it is the host, then that it entered |
| LogicEffects.RoomNoticesAreSent | src/Source/LogicServer.cpp:288-400 | what the user's room sends is sent, and nothing else |
| LogicEffects.LogoutNoticesAreSent | src/Source/LogicServer.cpp:162-170 | what the room sends is sent, then what its deletion sends, if it is deleted |
| LogicEffects.DeletedIdReturns | src/Source/LogicServer.cpp:358-373 | the id of a deleted room is free again iff it is at most DEFAULT_ROOM_COUNT |
| LogicPresence.DeadIsRightIff | src/Logic/Room.cpp:354-361 | with all who are away marked, the answer agrees with "all members are away" iff no mark is wrong, or somebody is here and the wrong marks are not as many; a positive answer is right iff no mark is wrong |
| LogicPresence.StepMarks | src/Logic/Room.cpp:51-374 | what each operation does to the members and the offline marks |
| LogicPresence.HandleMovesMarks | src/Source/LogicServer.cpp:69-187 | exactly which members and marks a room gains and loses by a message |
| LogicPresence.MarkGoesWrongIff | src/Source/LogicServer.cpp:98-102 | a mark goes wrong exactly when a marked member who was away logs in while its room is in no game, or leaves |
| LogicPresence.MarkGoesRightIff | src/Source/LogicServer.cpp:90-171 | a wrong mark stops being wrong exactly by a login during a game, a logout, or being let in while away |
| LogicPresence.RunKeepsMarks | src/Source/LogicServer.cpp:69-187 | in runs in which users who are away make no requests, members who are away are marked, and all marks are right if no login left one behind |
| LogicPresence.DeadIsRightInRuns | src/Source/LogicServer.cpp:155-171 | in those runs a room counts as dead iff all its members are away |
| LogicPresence.LogoutDecidesRightly | src/Source/LogicServer.cpp:155-171 | in those runs a logout deletes the room iff all its members are away then |
| LogicPresence.LogoutStaysInGameIff | src/Logic/Room.cpp:363-368 | a member who logs out is still in game iff it was in game and already marked |
| LogicPresence.LogoutLeavesGame | src/Source/LogicServer.cpp:155-171 | in those runs a user who was here and logs out is in no game afterwards |
| LogicWitnesses.SoleOccupantIsReached | src/Source/LogicServer.cpp:240-269 | after one message from boot a user alone occupies a room it may not re-join |
| LogicWitnesses.DeadThoughSomeoneCameBack | src/Source/LogicServer.cpp:98-171 | a run from boot that deletes a room although a member who logged in again is in it, with no mark of anyone who left |
| LogicWitnesses.DeadThoughSomeoneIsOnline | src/Source/LogicServer.cpp:155-171 | a run from boot whose last logout deletes a room with a member who never went away |
| LogicWitnesses.KeptThoughAllAreAway | src/Source/LogicServer.cpp:155-171 | a run from boot after which all members of a room are away and the room is kept |
| LogicWitnesses.AwayAndStillInGame | src/Logic/Room.cpp:363-368 | a run from boot after which a user who logged out is in game |
| LogicServerObject.LogicServer.constructor | src/Source/LogicServer.cpp:4-16 | the pool is 1..ROOM_POOL_SIZE, everything else is empty |
| LogicServerObject.LogicServer.HandleLogin | src/Source/LogicServer.cpp:90-104 | new server state and notices; a reconnect iff the user's room is in a game |
| LogicServerObject.LogicServer.HandleJoinRoom | src/Source/LogicServer.cpp:198-215 | new server state and notices of both branches |
| LogicServerObject.LogicServer.HandleLeaveRoom | src/Source/LogicServer.cpp:217-238 | new server state and notices of both branches |
| LogicServerObject.LogicServer.HandleCreateRoom | src/Source/LogicServer.cpp:240-269 | new server state and notices of both branches |
| LogicServerObject.LogicServer.HandleLogout | src/Source/LogicServer.cpp:155-171 | new server state and notices; the room goes iff it counts as dead |
| LogicServerObject.LogicServer.HandleJoinGame | src/Source/LogicServer.cpp:288-295 | the room queues a JoinGame operation, nothing else changes |
| LogicServerObject.LogicServer.HandleQuitGame | src/Source/LogicServer.cpp:297-304 | the user's room, and no other, performs the departure |
| LogicServerObject.LogicServer.HandleRoomChangeRole | src/Source/LogicServer.cpp:306-313 | the user's room, and no other, performs the change |
| LogicServerObject.LogicServer.HandleStartGame | src/Source/LogicServer.cpp:375-379 | the user's room, and no other, performs the start |
| LogicServerObject.LogicServer.HandleEndGame | src/Source/LogicServer.cpp:381-385 | the user's room, and no other, ends its game |
| LogicServerObject.LogicServer.HandleUserOperate | src/Source/LogicServer.cpp:387-391 | the user's room, and no other, queues the operation |
| LogicServerObject.LogicServer.HandleReconnect | src/Source/LogicServer.cpp:393-400 | the user's room, and no other, performs the reconnect |
| LogicServerObject.LogicServer.AddRoom | src/Source/LogicServer.cpp:340-348 | the new room is a fresh object under the smallest free id |
| LogicServerObject.LogicServer.RemoveRoom | src/Source/LogicServer.cpp:358-373 | room, index entries and id in use go; the id returns to the pool up to DEFAULT_ROOM_COUNT |
| LogicServerObject.LogicServer.EraseIndex | src/Source/LogicServer.cpp:362-369 | exactly the entries that lead to the room are erased |
| LogicServerObject.LogicServer.RemovePlayerFromRoom | src/Source/LogicServer.cpp:321-330 | the user is out of its room and the index, an emptied room is gone, rooms stay separate objects |
| LogicServerObject.LogicServer.AddPlayerToRoom | src/Source/LogicServer.cpp:332-338 | the index follows the result of the room |
| LogicServerObject.LogicServer.Update | src/Source/LogicServer.cpp:69-79 | every room is ticked once, in ascending order of id |
| Bytes.IntBytesRoundTrip | src/Header/Message/MessageUtils.h:268-295 | int to four bytes and back, negative values included |
| Bytes.UintBytesRoundTrip | src/Header/Message/MessageUtils.h:278-304 | uint to four bytes and back |
| Bytes.BytesOfUnsigned | src/Header/Message/MessageUtils.h:268-304 | every four bytes are the encoding of the integer read from them |
| Bytes.WrapStep | src/Header/Message/MessageUtils.h:287-304 | wrapping around at every shift is wrapping around once at the end |
| Bytes.IntToByte | src/Header/Message/MessageUtils.h:268-276 | a fresh array with the big-endian two's complement bytes |
| Bytes.UintToByte | src/Header/Message/MessageUtils.h:278-286 | a fresh array with the big-endian bytes |
| Bytes.ByteToInt | src/Header/Message/MessageUtils.h:287-295 | the accumulator loop reads the two's complement value of the first four bytes |
| Bytes.ByteToUint | src/Header/Message/MessageUtils.h:296-304 | the accumulator loop reads the unsigned value of the first four bytes |
| RingBuffers.WindowPut | src/Tool/RingBuffer.cpp:31-35 | writing the slot behind the window extends the queue by that byte, whether or not it wraps |
| RingBuffers.WindowPop | src/Tool/RingBuffer.cpp:50-53 | moving the start forward drops the front of the queue |
| RingBuffers.RingBuffer.constructor | src/Tool/RingBuffer.cpp:10-15 | an empty queue |
| RingBuffers.RingBuffer.AddBuffer | src/Tool/RingBuffer.cpp:24-41 | appends all bytes iff they fit, with no 32-bit overflow |
| RingBuffers.RingBuffer.PopBuffer | src/Tool/RingBuffer.cpp:43-55 | drops that many bytes iff there are as many |
| RingBuffers.RingBuffer.GetBuffer | src/Tool/RingBuffer.cpp:57-69 | a copy of the front of the queue for any length up to the capacity; the slots beyond it otherwise |
| RingBuffers.RingBuffer.GetCapacity | src/Tool/RingBuffer.cpp:76-79 | the length of the queue |
| Framing.HeadRoundTrip | src/Tool/Message.cpp:4-48 | a written header is read back, whatever follows it |
| Framing.HeadBytesOfParsed | src/Tool/Message.cpp:4-48 | any twelve bytes are the written form of the header read from them |
| Framing.ScanOfPackets | src/Source/ServerBase.cpp:193-229 | valid packets at the front of a buffer are all delivered, whatever follows |
| Framing.FramingRoundTrip | src/Source/ServerBase.cpp:193-229 | a stream of valid packets yields exactly those packets, nothing dropped, no overrun |
| Framing.ScanIsLossless | src/Source/ServerBase.cpp:193-229 | for every buffer: delivered packets and dropped bytes make up the buffer, and all delivered packets are valid |
| Framing.CutPacket | src/Source/ServerBase.cpp:208-221 | a packet cut short is lost: dropped if its header is incomplete, overrun iff it is complete; all is well iff the cut is on a packet boundary |
| Framing.OverrunIff | src/Source/ServerBase.cpp:199-224 | for every buffer: the loop reads past it iff it is valid packets followed by a valid packet cut short behind its header |
| Framing.BufferedWhenItFits | src/Source/ServerBase.cpp:145-155 | chunks that fit together are all appended |
| Framing.BufferedUpToTheFirstMisfit | src/Source/ServerBase.cpp:145-155 | the buffer holds the whole chunks, in order, up to the first that does not fit |
| Framing.FramingOfChunks | src/Source/ServerBase.cpp:145-155 | however a stream of valid packets is split into chunks, exactly those packets come out |
| Framing.Receiver.ParseHeadFrom | src/Tool/Message.cpp:4-19 | the three header fields at their offsets |
| Framing.Receiver.HandleReceivedMsg | src/Source/ServerBase.cpp:193-229 | delivers the packets of the scan in order, terminates, and leaves the buffer empty |
| Framing.Receiver.HandleConnEvent | src/Source/ServerBase.cpp:132-177 | appends chunks until one does not fit; keeps the connection, and delivers, iff errno is would-block and the peer has not closed or a chunk did not fit |
| Varint.VarintSizeIsLength | src/Protobuf/Frame.pb.cc:842-877 | the size computed for a varint is the number of bytes written |
| Varint.VarintFits | src/Protobuf/Frame.pb.cc:842-877 | at most five bytes for 32-bit values, ten for 64-bit values |
| Varint.RawVarintOfBytes | src/Protobuf/Frame.pb.cc:749-804 | a written varint is read back, whatever follows it |
| Varint.ReadVarintOfBytes | src/Protobuf/Frame.pb.cc:749-804 | the same through the ten-byte limit, leaving exactly what follows |
| Varint.ReadSizedOfSized | src/Protobuf/Frame.pb.cc:1348-1396 | a length-delimited record is read back, leaving exactly what follows |
| Varint.PatternRoundTrip | src/Protobuf/Frame.pb.cc:749-840 | negative integers survive their 64-bit pattern |
| WireLayout.BytesAreBigEndian | src/Header/Message/MessageUtils.h:268-286 | the four bytes, most significant first, make up the number modulo 2^32 |
| WireLayout.HeaderLayout | src/Tool/Message.cpp:28-48 | bytes 0-3 are the size, 4-7 the type, 8-11 the user id |
| WireLayout.HeaderRead | src/Tool/Message.cpp:4-19 | and are read from there |
| WireLayout.HeaderAccepted | src/Header/Message/MessageUtils.h:171-194 | accepted iff the size is 12 to 1048576 and the type 0 to 400 |
| WireLayout.EveryTypeIsDelivered | src/Header/EnumHome.h:31-74 | a packet of every type of the protocol is delivered, whatever its body |
| WireLayout.BodyTypes | src/Header/Message/MessageUtils.h:8-157 | types 70 to 73 carry the message they are named after |
| WireLayout.VarintWritten | src/Protobuf/Frame.pb.cc:806-840 | seven bits a byte, least significant first, high bit on all but the last, no byte too many |
| WireLayout.VarintRead | src/Protobuf/Frame.pb.cc:749-804 | every byte string of that form is read as that number |
| WireLayout.FieldsOfOperate | src/Protobuf/Frame.pb.cc:806-840 | data as packed field 1, type as field 2, pid as field 3, zeros left out |
| WireLayout.PackedOneMore | src/Protobuf/Frame.pb.cc:812-819 | packed values follow one another as varints of their 64-bit patterns |
| WireLayout.FieldsOfFrame | src/Protobuf/Frame.pb.cc:1398-1424 | number as field 1, each operation as a sized record of field 2, in order |
| WireLayout.FieldsOfReplay | src/Protobuf/Frame.pb.cc:1637-1657 | each frame as a sized record of field 1, in order |
| WireLayout.UnpackedValue | src/Protobuf/Frame.pb.cc:755-764 | a single value of data is read, too |
| WireFormat.PackedRoundTrip | src/Protobuf/Frame.pb.cc:749-840 | packed int64 values are read back |
| WireFormat.ReadOperateMerges | src/Protobuf/Frame.pb.cc:749-804 | parsing a written message into any message is merging into it |
| WireFormat.OperateRoundTrip | src/Protobuf/Frame.pb.cc:749-840 | a written UserOperate parses back to itself |
| WireFormat.ReadFrameMerges | src/Protobuf/Frame.pb.cc:1348-1396 | parsing a written Frame into any Frame is merging into it |
| WireFormat.FrameRoundTrip | src/Protobuf/Frame.pb.cc:1348-1424 | a written Frame parses back to itself |
| WireFormat.ReadReplayMerges | src/Protobuf/Frame.pb.cc:1595-1635 | parsing a written GameReplay into any GameReplay is merging into it |
| WireFormat.ReplayRoundTrip | src/Protobuf/Frame.pb.cc:1595-1657 | a written GameReplay parses back to itself |
| WireFormat.OperateConcatenation | src/Protobuf/Frame.pb.cc:892-906 | two messages written one after the other parse to their merge |
| WireFormat.FrameConcatenation | src/Protobuf/Frame.pb.cc:1462-1473 | two messages written one after the other parse to their merge |
| WireFormat.ReplayConcatenation | src/Protobuf/Frame.pb.cc:1690-1698 | two messages written one after the other parse to their merge |
| WireMessages.UserOperateMessage.Clear | src/Protobuf/Frame.pb.cc:736-747 | the empty message |
| WireMessages.UserOperateMessage.MergeFrom | src/Protobuf/Frame.pb.cc:892-906 | data appended, zero fields skipped |
| WireMessages.UserOperateMessage.CopyFrom | src/Protobuf/Frame.pb.cc:908-913 | an equal message, although merging skips zero fields |
| WireMessages.UserOperateMessage.ByteSizeLong | src/Protobuf/Frame.pb.cc:842-877 | exactly the number of bytes the serializer writes |
| WireMessages.UserOperateMessage.InternalSerialize | src/Protobuf/Frame.pb.cc:806-840 | writes exactly the wire form at the position, and touches nothing else |
| WireMessages.UserOperateMessage.InternalParse | src/Protobuf/Frame.pb.cc:749-804 | the loop accepts and computes exactly what the reader function does |
| WireMessages.PackedSize | src/Protobuf/Frame.pb.cc:850-862 | the sum of the varint sizes is the length of the packed bytes |
| WireNested.FrameMessage.Clear | src/Protobuf/Frame.pb.cc:1337-1346 | the empty frame |
| WireNested.FrameMessage.MergeFrom | src/Protobuf/Frame.pb.cc:1462-1473 | operations appended, a zero id skipped |
| WireNested.FrameMessage.CopyFrom | src/Protobuf/Frame.pb.cc:1475-1480 | an equal frame |
| WireNested.FrameMessage.ByteSizeLong | src/Protobuf/Frame.pb.cc:1426-1447 | exactly the number of bytes the serializer writes |
| WireNested.FrameMessage.InternalSerialize | src/Protobuf/Frame.pb.cc:1398-1424 | writes exactly the wire form at the position, and touches nothing else |
| WireNested.FrameMessage.InternalParse | src/Protobuf/Frame.pb.cc:1348-1396 | the nested loops accept and compute exactly what the reader function does |
| WireNested.GameReplayMessage.Clear | src/Protobuf/Frame.pb.cc:1585-1593 | the empty replay |
| WireNested.GameReplayMessage.MergeFrom | src/Protobuf/Frame.pb.cc:1690-1698 | frames appended |
| WireNested.GameReplayMessage.CopyFrom | src/Protobuf/Frame.pb.cc:1700-1705 | an equal replay |
| WireNested.GameReplayMessage.ByteSizeLong | src/Protobuf/Frame.pb.cc:1659-1675 | exactly the number of bytes the serializer writes |
| WireNested.GameReplayMessage.InternalSerialize | src/Protobuf/Frame.pb.cc:1637-1657 | writes exactly the wire form at the position, and touches nothing else |
| WireNested.GameReplayMessage.InternalParse | src/Protobuf/Frame.pb.cc:1595-1635 | the nested loops accept and compute exactly what the reader function does |
| WireNested.SameAfterTag | src/Protobuf/Frame.pb.cc:1362-1372 | a repeated field is read the same in the inner loop, which expects the one-byte tag, and in the outer one |
| Packets.PayloadRoundTrip | src/Header/Message/MessageUtils.h:8-157 | the body type chosen for a packet type decodes what was sent under it |
| Packets.MessageLength | src/Tool/Message.cpp:92-99 | header size plus exactly the bytes of the body |
| Packets.PutHead | src/Tool/Message.cpp:28-48 | writes exactly the header, or refuses a short buffer |
| Packets.SerializeToArray | src/Tool/Message.cpp:101-116 | refuses a buffer that is too short and otherwise writes exactly header and body |
| Packets.PacketIsValid | src/Source/LogicServer.cpp:33-39 | a sent message makes a packet that the framer accepts and whose size field is right |
| Packets.MessagesSurviveTheStream | src/Source/ServerBase.cpp:132-229 | messages sent in a row and cut into any chunks come out as the same messages to the same users |
| GateSessions.OneSocketPerUser | src/Source/GateServer.cpp:154-158 | no two sockets are trusted as the same user |
| GateSessions.CloseKeepsTrust | src/Source/GateServer.cpp:21-55 | a close keeps the maps consistent and forgets the socket |
| GateSessions.DisconnectForgets | src/Source/GateServer.cpp:75-98 | exactly the sessions of the listed sockets go, links to servers are kept |
| GateSessions.LogicLossLogsEveryoneOut | src/Source/GateServer.cpp:26-34 | when the logic server goes, a session survives iff its socket was not connected |
| GateSessions.LoginKeepsTrust | src/Source/GateServer.cpp:183-190 | a login or re-login keeps the maps consistent and enters the new socket |
| GateSessions.StepKeepsTrust | src/Source/GateServer.cpp:21-198 | so does every event, default-inserting lookups included |
| GateSessions.SessionsStayTrusted | src/Source/GateServer.cpp:21-198 | over any run, new connections and new links included, each recorded socket is where its user is reached, and no user has two |
| GateSessions.GateServer.CloseClientSocket | src/Source/GateServer.cpp:21-55 | all three branches: new maps, connections and links, and the logout told to the logic server |
| GateSessions.GateServer.DisconnectAllClients | src/Source/GateServer.cpp:75-98 | every connection but the links is closed, each session with a logout |
| GateSessions.GateServer.OnLoginResponse | src/Source/GateServer.cpp:171-198 | an earlier socket of the user is closed before the new one is entered; logic server and client are answered, in this order |
| GateSessions.GateServer.CheckMessageValid | src/Source/GateServer.cpp:118-140 | the verdict, and the entry that an unknown user id leaves behind |
| GateSessions.GateServer.OnAccept | src/Source/ServerBase.cpp:94-101 | the socket joins the connections, nothing else changes |
| GateSessions.GateServer.OnConnect | src/Source/FuncServer.cpp:136-184 | a link that is down is set and joins the connections, one that is up is kept |
| GatePresence.CheckedMeansRecorded | src/Source/GateServer.cpp:118-140 | where the maps agree, a client message passes as user u iff its socket stands for u |
| GatePresence.CloseKeepsPresence | src/Source/GateServer.cpp:21-55 | a close keeps the notices handed over exact, recorded sockets connected, and the maps in agreement |
| GatePresence.LoginKeepsStepIff | src/Source/GateServer.cpp:183-193 | a login keeps the notices handed over exact iff its socket stood for nobody, or was closed with the user's earlier one |
| GatePresence.LoginKeepsMapsAgreeIff | src/Source/GateServer.cpp:183-190 | a login keeps the two maps inverse to each other under the same condition |
| GatePresence.LoginKeepsConnectedIff | src/Source/GateServer.cpp:183-193 | a login keeps recorded sockets connected iff its own was, and was not closed with the user's earlier one |
| GatePresence.StepKeepsPresence | src/Source/GateServer.cpp:21-198 | every orderly event keeps all three |
| GatePresence.PresenceIsKept | src/Source/GateServer.cpp:21-198 | over any orderly run the notices handed over for the logic server name exactly the users with a socket as there, those sockets are connected, and the maps agree |
| GatePresence.CheckedMeansLoggedIn | src/Source/GateServer.cpp:118-140 | after any orderly run a client message passes as user u iff its socket stands for u |
| GatePresence.LoginsOnOneSocket | src/Source/GateServer.cpp:183-193 | two concrete runs: one leaves a user announced and its entry behind, the other records a closed socket |
| GateEffects.CheckOfServer | src/Source/GateServer.cpp:120-123 | the links to servers pass, whatever they send |
| GateEffects.CheckWithoutUser | src/Source/GateServer.cpp:124-131 | a client without user id passes iff the type is 0 or 2, and the maps stay |
| GateEffects.CheckOfUser | src/Source/GateServer.cpp:132-139 | a client with one passes iff the user is recorded at its socket; an unknown user is recorded at socket 0 |
| GateEffects.StrangersMayLogIn | src/Source/GateServer.cpp:118-140 | after any orderly run a socket that stands for nobody passes exactly login and registration requests, and both do pass |
| GateEffects.CloseOfClient | src/Source/GateServer.cpp:43-54 | connection and both entries go, with one logout handed over; nothing else |
| GateEffects.CloseOfDb | src/Source/GateServer.cpp:37-42 | the link is down, sessions stay |
| GateEffects.CloseOfLogic | src/Source/GateServer.cpp:26-34 | the link is down, only the other links stay connected, exactly the connected clients lose their sessions, each logout names user and socket |
| GateEffects.RefusedLogin | src/Source/GateServer.cpp:196-196 | answered to the client, nothing else |
| GateEffects.LoginRecords | src/Source/GateServer.cpp:183-196 | recorded both ways; the logic server is told, then the client |
| GateEffects.FirstLogin | src/Source/GateServer.cpp:189-196 | a user's first login changes nothing else |
| GateEffects.ConnectLinks | src/Source/FuncServer.cpp:136-184 | a new link is connected and set iff it was down |
| CenterRegistry.CutFacts | src/Source/CenterServer.cpp:93-103 | cutting the first match leaves the other servers, each once |
| CenterRegistry.BestIsUnique | src/Source/CenterServer.cpp:48-71 | there is only one leftmost server of least level |
| CenterRegistry.GroupAdd | src/Source/CenterServer.cpp:27-46 | a new record joins the group of its type and no other |
| CenterRegistry.GroupDrop | src/Source/CenterServer.cpp:105-121 | a removed record leaves the group of its type, the others did not hold it |
| CenterRegistry.CenterServer.RegisterServer | src/Source/CenterServer.cpp:27-46 | appended to the group of its type, its id the place it got |
| CenterRegistry.CenterServer.HandleRegister | src/Source/CenterServer.cpp:179-197 | a known server only has its level refreshed; a new one is recorded and appended to its group, which gives its id; every record is in exactly one group exactly once |
| CenterRegistry.CenterServer.FindAvailableServerInGroup | src/Source/CenterServer.cpp:48-71 | a copy of the leftmost server of least level below DOWN, or DOWN |
| CenterRegistry.CenterServer.BestIsLeast | src/Source/CenterServer.cpp:48-71 | nobody in the group is less busy than the answer, which is DOWN or a member |
| CenterRegistry.CenterServer.AssignServer | src/Source/CenterServer.cpp:73-91 | the answer is a copy of a recorded server of the wanted type, and none of that type is less busy |
| CenterRegistry.CenterServer.RemoveServerFromGroup | src/Source/CenterServer.cpp:93-103 | with the first match at k: the entries before k, then those after it, in their order; without a match the group itself |
| CenterRegistry.CenterServer.RemoveServer | src/Source/CenterServer.cpp:105-121 | only the group of the server's type changes |
| CenterRegistry.CenterServer.CloseClientSocket | src/Source/CenterServer.cpp:12-25 | record gone from the map and cut out of its group; all others stay, in the order in which they registered |

## Left out

- Sockets, epoll, timers, threads, MySQL, Redis, JSON configuration, logging, token hashing: I/O or libraries outside the repository.
- `user_gate` and failing sends: every notice is delivered. Of the texts of replies only the reason in a JoinRoom reply is modelled.
- `HandleGetRoomList`, `inGames`, `RemoveUser`, `CheckAllClientConn`, the object pool and the thread-safe queue: easy, unused or bookkeeping for debugging.
- The random seed of a room is a parameter, the uninitialised `frame_id` of a new room is arbitrary, and `frame_id` is an unbounded integer.
- `GetUserName` enters an empty name for an unknown user; here the name is read as empty and the map is left alone.
- The shrinking branch of `Resize` passes a pid where a user id is expected; nobody calls it, so it is not modelled. `JoinGame` and `ChangeRoomHost` are modelled as parts of the operations that call them, not as events of their own.
- LogicServerObject.LogicServer.AddRoom: the branch for an empty id pool dereferences a past-the-end iterator, so a non-empty pool is required. LogicTheorems.PoolExhaustedIff says when it is empty.
- LogicServerObject.LogicServer.HandleCreateRoom: requires a non-empty id pool for a user who is in no room, for the same reason.
- LogicServerObject.LogicServer.HandleJoinRoom: a user re-joining the room it alone occupies is excluded, because the source then uses a deleted room; LogicTheorems.JoinMeetsDeletedRoom shows that this is exactly the failing case.
- LogicSafety.HandleJoinRoomKeepsInv: the same exclusion.
- LogicSafety.HandleCreateRoomKeepsInv: requires a non-empty id pool for a user who is in no room.
- LogicSafety.HandleKeepsInv: excludes these two events, after which the source has no defined state.
- LogicTheorems.ServerRunKeepsInv: about every list of events; a run stops at the first of these two events, and nothing is claimed about what the source does from there on. The other theorems over server runs are like it.
- GameRoom.Room.LeaveFromRoom: the reply for a successful departure is built but never sent by the code, so no notice of it appears.
- Framing.Receiver.HandleReceivedMsg: requires that no header announces more bytes than the buffer holds, because the code reads past the buffer otherwise; Framing.OverrunIff says which buffers these are.
- Framing.Receiver.HandleConnEvent: the same requirement on the buffer that the chunks make up.
- Packets.SerializeToArray: the size of a message is at most INT_MAX, the limit of the protobuf library; the codec theorems have the same limit.
- Packets.PayloadRoundTrip: covers the packet types that carry one of the three modelled messages. The other protobuf messages of the repository follow the same pattern with easier fields.
- WireMessages.UserOperateMessage.InternalParse: unknown fields are refused rather than kept. Arenas, reflection, cached sizes and UTF-8 checks are left out.
- WireNested.FrameMessage.InternalParse: unknown fields are refused rather than kept; submessages are held by value.
- WireNested.GameReplayMessage.InternalParse: unknown fields are refused rather than kept; submessages are held by value.
- GateSessions.SessionsStayTrusted: assumes that login answers name client sockets and not the gate's links to other servers, and that a new link does not take the number of a recorded socket. UserInfo messages at the gate, heartbeats, the requests for new links and the pressure-test switch are left out.
- GatePresence.PresenceIsKept: about what the gate hands over for sending. Notices handed over while the link to the logic server is down are dropped by the sender, and a logic server that restarts is not told again.
- LogicPresence.RunKeepsMarks: about runs that handle all their events, and in which users who are away make no requests; requests come in through the gate, from logged-in users. LogicPresence.MarkGoesWrongIff has no such condition.
- CenterRegistry.CenterServer.CloseClientSocket: ids are positions at registration and are not renumbered, so nothing is claimed about looking up a server by id. People counts and the messages of the center are left out.
