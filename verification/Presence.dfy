/**
 Presence of sockets (realtime-state-store.service.ts): the nested local maps, the Redis scripts,
 and the set of sockets per user that both refine. Keys do not expire here.
 */
module Presence {

  type School = string
  type User = string
  type Socket = string

  datatype UserKey = UserKey(school: School, user: User)

  /** The abstract state: the open sockets of each user of each school. */
  type Sockets = map<UserKey, set<Socket>>

  /** What an increment or decrement reports. */
  datatype Report = Report(socketCount: nat, online: bool, offline: bool)

  datatype Operation =
    | Increment(school: School, user: User, socket: Socket, at: int, ttlSeconds: int)
    | Decrement(school: School, user: User, socket: Socket, at: int)

  function OpenSockets(s: Sockets, school: School, user: User): set<Socket> {
    if UserKey(school, user) in s then s[UserKey(school, user)] else {}
  }

  /** The abstract step: the socket joins or leaves its user's set. */
  function Step(s: Sockets, op: Operation): Sockets {
    var key := UserKey(op.school, op.user);
    var before := OpenSockets(s, op.school, op.user);
    match op
    case Increment(_, _, socket, _, _) => s[key := before + {socket}]
    case Decrement(_, _, socket, _) => s[key := before - {socket}]
  }

  /** The report that the set demands: a user is online while the set is nonempty. */
  function Expected(s: Sockets, op: Operation): Report {
    ReportOf(OpenSockets(s, op.school, op.user), OpenSockets(Step(s, op), op.school, op.user))
  }

  function ReportOf(before: set<Socket>, after: set<Socket>): Report {
    Report(|after|, before == {} && after != {}, before != {} && after == {})
  }

  // ----- The nested local maps -------------------------------------------------------------

  datatype Owner = Owner(updatedAt: int, ttlSeconds: int)

  type LocalUsers = map<User, map<Socket, Owner>>

  type LocalSchools = map<School, LocalUsers>

  function LocalSockets(schools: LocalSchools, school: School, user: User): set<Socket> {
    if school in schools && user in schools[school] then schools[school][user].Keys else {}
  }

  /** The maps never keep an empty inner map. */
  ghost predicate NoEmptyMaps(schools: LocalSchools) {
    forall school :: school in schools ==>
      schools[school] != map[] && forall user :: user in schools[school] ==> schools[school][user] != map[]
  }

  /** The maps hold exactly the sockets of the abstract state. */
  ghost predicate LocalRefines(schools: LocalSchools, s: Sockets) {
    forall school, user :: LocalSockets(schools, school, user) == OpenSockets(s, school, user)
  }

  /** Only the sockets of one user changed, to `sockets`. */
  ghost predicate Changes(before: LocalSchools, after: LocalSchools, school: School, user: User, sockets: set<Socket>) {
    forall c, u :: LocalSockets(after, c, u) == if c == school && u == user then sockets else LocalSockets(before, c, u)
  }

  function UsersOf(schools: LocalSchools, school: School): LocalUsers {
    if school in schools then schools[school] else map[]
  }

  function OwnersOf(schools: LocalSchools, school: School, user: User): map<Socket, Owner> {
    if user in UsersOf(schools, school) then UsersOf(schools, school)[user] else map[]
  }

  /** The maps after a local increment or decrement. */
  function LocalAfter(schools: LocalSchools, op: Operation): LocalSchools {
    var owners := OwnersOf(schools, op.school, op.user);
    match op
    case Increment(school, user, socket, at, ttlSeconds) =>
      schools[school := UsersOf(schools, school)[user := owners[socket := Owner(at, ttlSeconds)]]]
    case Decrement(school, user, socket, _) =>
      var left := owners - {socket};
      if school !in schools || user !in schools[school] then schools
      else if |left| == 0 then Without(schools, school, user)
      else schools[school := schools[school][user := left]]
  }

  /** What it reports, from the sizes of the inner map. */
  function LocalReport(schools: LocalSchools, op: Operation): Report {
    var owners := OwnersOf(schools, op.school, op.user);
    match op
    case Increment(_, _, socket, at, ttlSeconds) =>
      Report(|owners[socket := Owner(at, ttlSeconds)]|, |owners| == 0 && socket !in owners, false)
    case Decrement(_, _, socket, _) =>
      Report(|owners - {socket}|, false, socket in owners && |owners - {socket}| == 0)
  }

  class LocalPresence {
    var schools: LocalSchools

    constructor ()
      ensures schools == map[]
    {
      schools := map[];
    }

    method IncrementLocal(school: School, user: User, socket: Socket, ttlSeconds: int, at: int) returns (r: Report)
      requires NoEmptyMaps(schools)
      modifies this
      ensures var op := Increment(school, user, socket, at, ttlSeconds);
              schools == LocalAfter(old(schools), op) && r == LocalReport(old(schools), op)
      ensures NoEmptyMaps(schools)
      ensures var before := LocalSockets(old(schools), school, user);
              Changes(old(schools), schools, school, user, before + {socket}) && r == ReportOf(before, before + {socket})
    {
      LocalStepChanges(schools, Increment(school, user, socket, at, ttlSeconds));
      hide NoEmptyMaps, Changes;
      var users: LocalUsers := if school in schools then schools[school] else map[];
      var sockets := if user in users then users[user] else map[];
      var hadSockets := |sockets| > 0;
      var added := socket !in sockets;
      sockets := sockets[socket := Owner(at, ttlSeconds)];
      schools := schools[school := users[user := sockets]];
      r := Report(|sockets|, !hadSockets && added, false);
    }

    method DecrementLocal(school: School, user: User, socket: Socket, at: int) returns (r: Report)
      requires NoEmptyMaps(schools)
      modifies this
      ensures var op := Decrement(school, user, socket, at);
              schools == LocalAfter(old(schools), op) && r == LocalReport(old(schools), op)
      ensures NoEmptyMaps(schools)
      ensures var before := LocalSockets(old(schools), school, user);
              Changes(old(schools), schools, school, user, before - {socket}) && r == ReportOf(before, before - {socket})
    {
      LocalStepChanges(schools, Decrement(school, user, socket, at));
      hide NoEmptyMaps, Changes;
      if school !in schools || user !in schools[school] {
        return Report(0, false, false);
      }
      var sockets := schools[school][user];
      var removed := socket in sockets;
      sockets := sockets - {socket};
      if |sockets| == 0 {
        schools := Without(schools, school, user);
      } else {
        schools := schools[school := schools[school][user := sockets]];
      }
      r := Report(|sockets|, false, removed && |sockets| == 0);
    }
  }

  /** A local step changes only the sockets of its user, keeps no empty map, and reports that change. */
  lemma {:induction false} LocalStepChanges(schools: LocalSchools, op: Operation)
    requires NoEmptyMaps(schools)
    ensures NoEmptyMaps(LocalAfter(schools, op))
    ensures var open := LocalSockets(schools, op.school, op.user);
            && Changes(schools, LocalAfter(schools, op), op.school, op.user, SocketsOf(open, op))
            && LocalReport(schools, op) == ReportOf(open, SocketsOf(open, op))
  {
    hide NoEmptyMaps, Changes, Without;
    var owners := OwnersOf(schools, op.school, op.user);
    match op
    case Increment(school, user, socket, at, ttlSeconds) =>
      KeysAdded(owners, socket, Owner(at, ttlSeconds));
      assert socket in owners[socket := Owner(at, ttlSeconds)];
      SetSockets(schools, school, user, owners[socket := Owner(at, ttlSeconds)]);
    case Decrement(school, user, socket, _) =>
      KeysRemoved(owners, socket);
      if school !in schools || user !in schools[school] {
        NoChange(schools, school, user, socket);
      } else {
        RemoveSockets(schools, school, user, owners - {socket});
      }
  }

  lemma {:induction false} KeysAdded(sockets: map<Socket, Owner>, socket: Socket, owner: Owner)
    ensures var updated := sockets[socket := owner];
            && updated.Keys == sockets.Keys + {socket} && |updated| == |updated.Keys|
            && ReportOf(sockets.Keys, updated.Keys) == Report(|updated|, |sockets| == 0 && socket !in sockets, false)
  {
    assert |sockets| == |sockets.Keys|;
    if |sockets| == 0 {
      assert sockets.Keys == {};
    }
  }

  lemma {:induction false} KeysRemoved(sockets: map<Socket, Owner>, socket: Socket)
    ensures var updated := sockets - {socket};
            && updated.Keys == sockets.Keys - {socket} && |updated| == |updated.Keys|
            && ReportOf(sockets.Keys, updated.Keys) == Report(|updated|, false, socket in sockets && |updated| == 0)
  {
    var updated := sockets - {socket};
    assert updated.Keys == sockets.Keys - {socket};
    assert |updated| == |updated.Keys|;
    if socket !in sockets {
      assert updated.Keys == sockets.Keys;
    }
  }

  lemma {:induction false} SetSockets(schools: LocalSchools, school: School, user: User, sockets: map<Socket, Owner>)
    requires NoEmptyMaps(schools) && sockets != map[]
    ensures var after := schools[school := (if school in schools then schools[school] else map[])[user := sockets]];
            NoEmptyMaps(after) && Changes(schools, after, school, user, sockets.Keys)
  {
    var users: LocalUsers := if school in schools then schools[school] else map[];
    assert user in users[user := sockets];
  }

  function Without(schools: LocalSchools, school: School, user: User): LocalSchools
    requires school in schools
  {
    var users := schools[school] - {user};
    if |users| == 0 then schools - {school} else schools[school := users]
  }

  lemma {:induction false} RemoveSockets(schools: LocalSchools, school: School, user: User, sockets: map<Socket, Owner>)
    requires NoEmptyMaps(schools) && school in schools && user in schools[school]
    ensures var after := if |sockets| == 0 then Without(schools, school, user)
                         else schools[school := schools[school][user := sockets]];
            NoEmptyMaps(after) && Changes(schools, after, school, user, sockets.Keys)
  {
    hide NoEmptyMaps, Changes, Without;
    if |sockets| == 0 {
      assert sockets.Keys == {};
      RemoveUser(schools, school, user);
      RemoveUserKeepsNonempty(schools, school, user);
    } else {
      assert sockets != map[];
      SetSockets(schools, school, user, sockets);
    }
  }

  lemma {:induction false} RemoveUser(schools: LocalSchools, school: School, user: User)
    requires school in schools && user in schools[school]
    ensures Changes(schools, Without(schools, school, user), school, user, {})
  {
    var users := schools[school] - {user};
    if |users| == 0 {
      assert forall u :: u in schools[school] && u != user ==> u in users;
    }
  }

  lemma {:induction false} RemoveUserKeepsNonempty(schools: LocalSchools, school: School, user: User)
    requires NoEmptyMaps(schools) && school in schools
    ensures NoEmptyMaps(Without(schools, school, user))
  {
  }

  lemma {:induction false} NoChange(schools: LocalSchools, school: School, user: User, socket: Socket)
    requires school !in schools || user !in schools[school]
    ensures Changes(schools, schools, school, user, LocalSockets(schools, school, user) - {socket})
    ensures LocalSockets(schools, school, user) == {}
  {
  }

  /** A local step refines the abstract step and reports what the abstract state demands. */
  lemma {:induction false} LocalStepRefines(schools: LocalSchools, s: Sockets, op: Operation)
    requires LocalRefines(schools, s) && NoEmptyMaps(schools)
    ensures LocalRefines(LocalAfter(schools, op), Step(s, op)) && NoEmptyMaps(LocalAfter(schools, op))
    ensures LocalReport(schools, op) == Expected(s, op)
  {
    LocalStepChanges(schools, op);
    var after := LocalAfter(schools, op);
    hide LocalAfter, LocalReport, NoEmptyMaps, LocalSockets, OpenSockets, Step, SocketsOf, ReportOf;
    assert LocalSockets(schools, op.school, op.user) == OpenSockets(s, op.school, op.user);
    StepSockets(s, op, op.school, op.user);
    forall school, user
      ensures LocalSockets(after, school, user) == OpenSockets(Step(s, op), school, user)
    {
      assert LocalSockets(schools, school, user) == OpenSockets(s, school, user);
      StepSockets(s, op, school, user);
    }
  }

  // ----- The Redis scripts -----------------------------------------------------------------

  /** The socket sets, the per-user keys with their timestamps, and each school's set of user ids. */
  datatype Redis = Redis(sockets: Sockets, userKeys: map<UserKey, int>, users: map<School, set<User>>)

  function Members(users: map<School, set<User>>, school: School): set<User> {
    if school in users then users[school] else {}
  }

  /** A script's effect: the new state, the size of the socket set, how many members it added or removed. */
  datatype Scripted = Scripted(redis: Redis, count: nat, changed: nat)

  /** SADD, SCARD, SET, SADD. */
  function IncrementScript(r: Redis, school: School, user: User, socket: Socket, at: int): Scripted {
    var before := OpenSockets(r.sockets, school, user);
    var key, after := UserKey(school, user), before + {socket};
    Scripted(Redis(r.sockets[key := after], r.userKeys[key := at], r.users[school := Members(r.users, school) + {user}]),
             |after|, if socket in before then 0 else 1)
  }

  /** SREM, SCARD, and when nothing is left DEL, DEL, SREM. */
  function DecrementScript(r: Redis, school: School, user: User, socket: Socket): Scripted {
    var before := OpenSockets(r.sockets, school, user);
    var key, after := UserKey(school, user), before - {socket};
    Scripted(
      if |after| <= 0 then
        Redis(r.sockets - {key}, r.userKeys - {key}, r.users[school := Members(r.users, school) - {user}])
      else r.(sockets := r.sockets[key := after]),
      |after|, if socket in before then 1 else 0)
  }

  /** Refresh touches the user key and the user set, and only for a socket that is present. */
  function RefreshScript(r: Redis, school: School, user: User, socket: Socket, at: int): (Redis, nat) {
    if socket !in OpenSockets(r.sockets, school, user) then (r, 0)
    else (r.(userKeys := r.userKeys[UserKey(school, user) := at],
             users := r.users[school := Members(r.users, school) + {user}]), 1)
  }

  function RunScript(r: Redis, op: Operation): Scripted {
    match op
    case Increment(school, user, socket, at, _) => IncrementScript(r, school, user, socket, at)
    case Decrement(school, user, socket, _) => DecrementScript(r, school, user, socket)
  }

  /** The report the service makes of a script's two numbers. */
  function ScriptReport(r: Redis, op: Operation): Report {
    var done := RunScript(r, op);
    if op.Increment? then Report(done.count, done.count == 1 && done.changed == 1, false)
    else Report(done.count, false, done.count == 0 && done.changed == 1)
  }

  ghost predicate ConsistentAt(r: Redis, school: School, user: User) {
    var online := OpenSockets(r.sockets, school, user) != {};
    (UserKey(school, user) in r.userKeys <==> online) && (user in Members(r.users, school) <==> online)
  }

  /** A user has a key and is listed for the school exactly while a socket is open. */
  ghost predicate RedisConsistent(r: Redis) {
    forall school, user :: ConsistentAt(r, school, user)
  }

  ghost predicate RedisRefines(r: Redis, s: Sockets) {
    forall school, user :: OpenSockets(r.sockets, school, user) == OpenSockets(s, school, user)
  }

  lemma {:induction false} SingletonReport(before: set<Socket>, socket: Socket)
    ensures |before + {socket}| == 1 && socket !in before <==> before == {}
    ensures |before - {socket}| == 0 && socket in before <==> before != {} && before - {socket} == {}
  {
    if before == {} {
      assert before + {socket} == {socket};
    } else {
      var x :| x in before;
      if socket !in before {
        assert {x, socket} <= before + {socket};
        SubsetSize({x, socket}, before + {socket});
        assert |{x, socket}| == 2;
      }
      if before - {socket} == {} {
        assert x !in before - {socket};
      }
    }
  }

  lemma {:induction false} SubsetSize(a: set<Socket>, b: set<Socket>)
    requires a <= b
    ensures |a| <= |b|
    decreases a
  {
    if a != {} {
      var x :| x in a;
      SubsetSize(a - {x}, b - {x});
    }
  }

  /** A script run refines the abstract step, reports what it demands and keeps the keys consistent. */
  lemma {:induction false} ScriptRefines(r: Redis, s: Sockets, op: Operation)
    requires RedisRefines(r, s) && RedisConsistent(r)
    ensures RedisRefines(RunScript(r, op).redis, Step(s, op)) && RedisConsistent(RunScript(r, op).redis)
    ensures ScriptReport(r, op) == Expected(s, op)
  {
    hide IncrementScript, DecrementScript, Step;
    var before := OpenSockets(s, op.school, op.user);
    assert OpenSockets(r.sockets, op.school, op.user) == before;
    ReportedByScript(r, op);
    StepSockets(s, op, op.school, op.user);
    forall school, user
      ensures OpenSockets(RunScript(r, op).redis.sockets, school, user) == OpenSockets(Step(s, op), school, user)
      ensures ConsistentAt(RunScript(r, op).redis, school, user)
    {
      assert OpenSockets(r.sockets, school, user) == OpenSockets(s, school, user);
      StepSockets(s, op, school, user);
      assert ConsistentAt(r, school, user);
      ScriptSockets(r, op, school, user);
    }
  }

  /** The sockets of a user after an operation. */
  function SocketsOf(before: set<Socket>, op: Operation): set<Socket> {
    if op.Increment? then before + {op.socket} else before - {op.socket}
  }

  lemma {:induction false} StepSockets(s: Sockets, op: Operation, school: School, user: User)
    ensures var before := OpenSockets(s, school, user);
            OpenSockets(Step(s, op), school, user)
              == if op.school == school && op.user == user then SocketsOf(before, op) else before
  {
  }

  lemma {:induction false} ReportedByScript(r: Redis, op: Operation)
    ensures var before := OpenSockets(r.sockets, op.school, op.user);
            ScriptReport(r, op) == ReportOf(before, SocketsOf(before, op))
  {
    var before := OpenSockets(r.sockets, op.school, op.user);
    SingletonReport(before, op.socket);
  }

  lemma {:induction false} OpenAfter(s: Sockets, key: UserKey, sockets: set<Socket>, school: School, user: User)
    ensures OpenSockets(s[key := sockets], school, user)
         == if key == UserKey(school, user) then sockets else OpenSockets(s, school, user)
  {
  }

  lemma {:induction false} ClosedAfter(s: Sockets, key: UserKey, school: School, user: User)
    ensures OpenSockets(s - {key}, school, user) == if key == UserKey(school, user) then {} else OpenSockets(s, school, user)
  {
  }

  /** Listing or unlisting one user leaves the other users' listing alone. */
  lemma {:induction false} ListedAfter(r: Redis, s: School, u: User, school: School, user: User)
    ensures user in Members(r.users[s := Members(r.users, s) + {u}], school)
       <==> (s == school && u == user) || user in Members(r.users, school)
    ensures user in Members(r.users[s := Members(r.users, s) - {u}], school)
       <==> !(s == school && u == user) && user in Members(r.users, school)
  {
  }

  /** A command that writes: a script, a refresh, or the removal of stale ids from a school's list. */
  datatype Command =
    | Script(op: Operation)
    | Refresh(school: School, user: User, socket: Socket, at: int)
    | Unlist(school: School, users: set<User>)

  function RunCommand(r: Redis, command: Command): Redis {
    match command
    case Script(op) => RunScript(r, op).redis
    case Refresh(school, user, socket, at) => RefreshScript(r, school, user, socket, at).0
    case Unlist(school, users) => r.(users := r.users[school := Members(r.users, school) - users])
  }

  predicate Open(r: Redis, school: School, user: User) {
    OpenSockets(r.sockets, school, user) != {}
  }

  predicate Listed(r: Redis, school: School, user: User) {
    user in Members(r.users, school)
  }

  /** The user has a key exactly while a socket is open. */
  predicate KeyMatches(r: Redis, school: School, user: User) {
    UserKey(school, user) in r.userKeys <==> Open(r, school, user)
  }

  /** The command puts the user on the list: it comes or stays online, or is refreshed. */
  predicate Lists(r: Redis, command: Command, school: School, user: User) {
    match command
    case Script(op) => op.Increment? && op.school == school && op.user == user
    case Refresh(c, u, socket, _) => c == school && u == user && socket in OpenSockets(r.sockets, school, user)
    case Unlist(_, _) => false
  }

  /** The command removes the user as stale. */
  predicate Drops(command: Command, school: School, user: User) {
    command.Unlist? && command.school == school && user in command.users
  }

  /** The sockets of a user after a command. */
  function SocketsAfterCommand(r: Redis, command: Command, school: School, user: User): set<Socket> {
    var before := OpenSockets(r.sockets, school, user);
    if command.Script? && command.op.school == school && command.op.user == user then SocketsOf(before, command.op) else before
  }

  /** What one command does to one user: its sockets, its key, and whether it is listed. */
  ghost predicate Effect(r: Redis, command: Command, school: School, user: User) {
    var next := RunCommand(r, command);
    && OpenSockets(next.sockets, school, user) == SocketsAfterCommand(r, command, school, user)
    && KeyMatches(next, school, user)
    && (Lists(r, command, school, user) ==> Listed(next, school, user) && Open(next, school, user))
    && (Drops(command, school, user) ==> !Listed(next, school, user))
    && (!Lists(r, command, school, user) && !Drops(command, school, user) ==>
          (Listed(next, school, user) <==> Listed(r, school, user) && Listable(r, command, school, user)))
  }

  /** The command does not take the user's last socket away. */
  predicate Listable(r: Redis, command: Command, school: School, user: User) {
    command.Script? && command.op.Decrement? && command.op.school == school && command.op.user == user ==>
      SocketsAfterCommand(r, command, school, user) != {}
  }

  lemma {:induction false} IncrementEffect(r: Redis, op: Operation, school: School, user: User)
    requires op.Increment? && KeyMatches(r, school, user)
    ensures Effect(r, Script(op), school, user)
  {
    var key, after := UserKey(op.school, op.user), OpenSockets(r.sockets, op.school, op.user) + {op.socket};
    var next := RunCommand(r, Script(op));
    assert next.sockets == r.sockets[key := after] && next.userKeys == r.userKeys[key := op.at];
    assert next.users == r.users[op.school := Members(r.users, op.school) + {op.user}];
    hide OpenSockets, Members, RunCommand;
    assert op.socket in after;
    ListedAfter(r, op.school, op.user, school, user);
    OpenAfter(r.sockets, key, after, school, user);
  }

  lemma {:induction false} LastSocketScript(r: Redis, op: Operation)
    requires op.Decrement? && OpenSockets(r.sockets, op.school, op.user) - {op.socket} == {}
    ensures var key := UserKey(op.school, op.user);
            RunCommand(r, Script(op))
              == Redis(r.sockets - {key}, r.userKeys - {key}, r.users[op.school := Members(r.users, op.school) - {op.user}])
  {
  }

  lemma {:induction false} LastSocketEffect(r: Redis, op: Operation, school: School, user: User)
    requires op.Decrement? && KeyMatches(r, school, user) && OpenSockets(r.sockets, op.school, op.user) - {op.socket} == {}
    ensures Effect(r, Script(op), school, user)
  {
    var key := UserKey(op.school, op.user);
    var next := RunCommand(r, Script(op));
    hide Members, RunCommand, OpenSockets;
    LastSocketScript(r, op);
    ClosedAfter(r.sockets, key, school, user);
    ListedAfter(r, op.school, op.user, school, user);
  }

  lemma {:induction false} OtherSocketEffect(r: Redis, op: Operation, school: School, user: User)
    requires op.Decrement? && KeyMatches(r, school, user) && OpenSockets(r.sockets, op.school, op.user) - {op.socket} != {}
    ensures Effect(r, Script(op), school, user)
  {
    var key, after := UserKey(op.school, op.user), OpenSockets(r.sockets, op.school, op.user) - {op.socket};
    var next := RunCommand(r, Script(op));
    assert |after| > 0;
    assert next == r.(sockets := r.sockets[key := after]);
    OpenAfter(r.sockets, key, after, school, user);
    hide Members, RunCommand, OpenSockets;
  }

  lemma {:induction false} OtherEffect(r: Redis, command: Command, school: School, user: User)
    requires !command.Script? && KeyMatches(r, school, user)
    ensures Effect(r, command, school, user)
  {
  }

  lemma {:induction false} CommandEffect(r: Redis, command: Command, school: School, user: User)
    requires KeyMatches(r, school, user)
    ensures Effect(r, command, school, user)
  {
    hide Effect, KeyMatches, OpenSockets;
    if command.Script? {
      if command.op.Increment? {
        IncrementEffect(r, command.op, school, user);
      } else if OpenSockets(r.sockets, command.op.school, command.op.user) - {command.op.socket} == {} {
        LastSocketEffect(r, command.op, school, user);
      } else {
        OtherSocketEffect(r, command.op, school, user);
      }
    } else {
      OtherEffect(r, command, school, user);
    }
  }

  /** A script keeps one user's key and listing in step with its sockets. */
  lemma {:induction false} ScriptSockets(r: Redis, op: Operation, school: School, user: User)
    requires ConsistentAt(r, school, user)
    ensures ConsistentAt(RunScript(r, op).redis, school, user)
    ensures var before := OpenSockets(r.sockets, school, user);
            OpenSockets(RunScript(r, op).redis.sockets, school, user)
              == if op.school == school && op.user == user then SocketsOf(before, op) else before
  {
    CommandEffect(r, Script(op), school, user);
    hide RunScript, OpenSockets, Members;
  }

  lemma {:induction false} RefreshRefines(r: Redis, s: Sockets, school: School, user: User, socket: Socket, at: int)
    requires RedisRefines(r, s) && RedisConsistent(r)
    ensures var (after, refreshed) := RefreshScript(r, school, user, socket, at);
            && RedisRefines(after, s) && RedisConsistent(after)
            && (refreshed == 1 <==> socket in OpenSockets(s, school, user))
            && (refreshed == 1 ==> UserKey(school, user) in after.userKeys && after.userKeys[UserKey(school, user)] == at)
  {
    var (after, _) := RefreshScript(r, school, user, socket, at);
    assert OpenSockets(r.sockets, school, user) == OpenSockets(s, school, user);
    forall c, u
      ensures ConsistentAt(after, c, u)
    {
      assert ConsistentAt(r, c, u);
    }
  }

  // ----- Whole runs ------------------------------------------------------------------------

  function RunAll(ops: seq<Operation>): Redis {
    if ops == [] then Redis(map[], map[], map[])
    else RunScript(RunAll(ops[..|ops| - 1]), ops[|ops| - 1]).redis
  }

  function SocketsAfter(ops: seq<Operation>): Sockets {
    if ops == [] then map[] else Step(SocketsAfter(ops[..|ops| - 1]), ops[|ops| - 1])
  }

  datatype Transition = WentOnline | WentOffline

  /** The transitions reported so far, extended by one report. */
  function Extended(t: seq<Transition>, report: Report): seq<Transition> {
    if report.online then t + [WentOnline] else if report.offline then t + [WentOffline] else t
  }

  /** The transitions the scripts report for one user over a run, oldest first. */
  function Transitions(ops: seq<Operation>, school: School, user: User): seq<Transition> {
    if ops == [] then []
    else
      var before, op := ops[..|ops| - 1], ops[|ops| - 1];
      var earlier := Transitions(before, school, user);
      if op.school == school && op.user == user then Extended(earlier, ScriptReport(RunAll(before), op)) else earlier
  }

  /** Strictly alternating, beginning with online. */
  predicate Alternating(t: seq<Transition>) {
    forall i :: 0 <= i < |t| ==> t[i] == if i % 2 == 0 then WentOnline else WentOffline
  }

  /** Whatever the interleaving, Redis holds the set of open sockets of every user. */
  lemma {:induction false} RunRefines(ops: seq<Operation>)
    ensures RedisRefines(RunAll(ops), SocketsAfter(ops)) && RedisConsistent(RunAll(ops))
    decreases |ops|
  {
    if ops != [] {
      hide RunScript, RedisRefines, RedisConsistent, Step;
      RunRefines(ops[..|ops| - 1]);
      ScriptRefines(RunAll(ops[..|ops| - 1]), SocketsAfter(ops[..|ops| - 1]), ops[|ops| - 1]);
    }
  }

  /** The transitions reported for a user alternate, and the last one tells whether a socket is open now. */
  lemma {:induction false} TransitionsAlternate(ops: seq<Operation>, school: School, user: User)
    ensures Alternating(Transitions(ops, school, user))
    ensures |Transitions(ops, school, user)| % 2 == 1 <==> OpenSockets(SocketsAfter(ops), school, user) != {}
    decreases |ops|
  {
    if ops != [] {
      hide ScriptReport, RedisRefines, RedisConsistent, RunAll, Alternating, Step, OpenSockets, Extended, ReportOf, SocketsOf;
      var before, op := ops[..|ops| - 1], ops[|ops| - 1];
      TransitionsAlternate(before, school, user);
      RunRefines(before);
      ScriptRefines(RunAll(before), SocketsAfter(before), op);
      StepSockets(SocketsAfter(before), op, school, user);
      var open := OpenSockets(SocketsAfter(before), school, user);
      AlternatingExtends(Transitions(before, school, user), open, SocketsOf(open, op));
    } else {
      assert OpenSockets(map[], school, user) == {};
    }
  }

  lemma {:induction false} AlternatingExtends(t: seq<Transition>, before: set<Socket>, after: set<Socket>)
    requires Alternating(t) && (|t| % 2 == 1 <==> before != {})
    ensures var next := Extended(t, ReportOf(before, after));
            Alternating(next) && (|next| % 2 == 1 <==> after != {})
  {
  }

  // ----- Whole runs of the local maps ------------------------------------------------------

  function RunLocal(ops: seq<Operation>): LocalSchools {
    if ops == [] then map[] else LocalAfter(RunLocal(ops[..|ops| - 1]), ops[|ops| - 1])
  }

  /** After any increments and decrements the nested maps hold exactly the open sockets, and no empty map. */
  lemma {:induction false} LocalRunRefines(ops: seq<Operation>)
    ensures LocalRefines(RunLocal(ops), SocketsAfter(ops)) && NoEmptyMaps(RunLocal(ops))
    decreases |ops|
  {
    if ops != [] {
      hide LocalAfter, LocalRefines, NoEmptyMaps, Step;
      LocalRunRefines(ops[..|ops| - 1]);
      LocalStepRefines(RunLocal(ops[..|ops| - 1]), SocketsAfter(ops[..|ops| - 1]), ops[|ops| - 1]);
    }
  }

  /** The local maps report for every operation what Redis reports when nobody else writes. */
  lemma {:induction false} LocalReportsAsRedis(ops: seq<Operation>, op: Operation)
    ensures LocalReport(RunLocal(ops), op) == ScriptReport(RunAll(ops), op)
  {
    hide LocalReport, ScriptReport, RunLocal, RunAll, LocalRefines, NoEmptyMaps, RedisRefines, RedisConsistent, Expected;
    LocalRunRefines(ops);
    LocalStepRefines(RunLocal(ops), SocketsAfter(ops), op);
    RunRefines(ops);
    ScriptRefines(RunAll(ops), SocketsAfter(ops), op);
  }

  /** The transitions the local maps report for one user over a run, oldest first. */
  function LocalTransitions(ops: seq<Operation>, school: School, user: User): seq<Transition> {
    if ops == [] then []
    else
      var before, op := ops[..|ops| - 1], ops[|ops| - 1];
      var earlier := LocalTransitions(before, school, user);
      if op.school == school && op.user == user then Extended(earlier, LocalReport(RunLocal(before), op)) else earlier
  }

  /** Locally reported transitions alternate too, and tell whether a socket is open now. */
  lemma {:induction false} LocalTransitionsAlternate(ops: seq<Operation>, school: School, user: User)
    ensures LocalTransitions(ops, school, user) == Transitions(ops, school, user)
    ensures Alternating(LocalTransitions(ops, school, user))
    ensures |LocalTransitions(ops, school, user)| % 2 == 1 <==> LocalSockets(RunLocal(ops), school, user) != {}
    decreases |ops|
  {
    SameTransitions(ops, school, user);
    TransitionsAlternate(ops, school, user);
    LocalRunRefines(ops);
    hide RunLocal, Alternating, Transitions, LocalTransitions, NoEmptyMaps;
    assert LocalSockets(RunLocal(ops), school, user) == OpenSockets(SocketsAfter(ops), school, user);
  }

  lemma {:induction false} SameTransitions(ops: seq<Operation>, school: School, user: User)
    ensures LocalTransitions(ops, school, user) == Transitions(ops, school, user)
    decreases |ops|
  {
    if ops != [] {
      hide LocalReport, ScriptReport, RunLocal, RunAll, Extended;
      SameTransitions(ops[..|ops| - 1], school, user);
      LocalReportsAsRedis(ops[..|ops| - 1], ops[|ops| - 1]);
    }
  }
}
