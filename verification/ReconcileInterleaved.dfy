/**
 The presence half of the reconciliation (realtime-state-store.service.ts), one awaited script call at
 a time, while other processes send commands to the same Redis between any two calls.
 */
module ReconcileInterleaved {
  import opened Presence
  import opened StateReconcile
  import opened Wrappers

  /** A command and whether the reconciliation sent it. */
  datatype Sent = Sent(command: Command, own: bool)

  function RunSent(r: Redis, sent: seq<Sent>): Redis {
    if sent == [] then r else RunCommand(RunSent(r, sent[..|sent| - 1]), sent[|sent| - 1].command)
  }

  /** The reconciliation's own script calls among the commands. */
  function Own(sent: seq<Sent>): seq<Operation> {
    if sent == [] then []
    else
      var earlier, last := Own(sent[..|sent| - 1]), sent[|sent| - 1];
      if last.own && last.command.Script? then earlier + [last.command.op] else earlier
  }

  function OwnerCalls(school: School, user: User, owners: seq<OwnedSocket>): seq<Operation> {
    if owners == [] then []
    else
      var last := owners[|owners| - 1];
      OwnerCalls(school, user, owners[..|owners| - 1])
      + [Increment(school, user, last.socket, last.updatedAt, last.ttlSeconds)]
  }

  /** The script calls the two loops make, in order. */
  function ReconcileCalls(local: seq<LocalUser>): seq<Operation> {
    if local == [] then []
    else
      var last := local[|local| - 1];
      ReconcileCalls(local[..|local| - 1]) + OwnerCalls(last.school, last.user, SortByTime(last.owners))
  }

  /** The commands hold all of the reconciliation's calls in order; the others close none of these sockets. */
  ghost predicate Interleaves(sent: seq<Sent>, local: seq<LocalUser>) {
    && Own(sent) == ReconcileCalls(local)
    && (forall i :: 0 <= i < |sent| && sent[i].own ==> sent[i].command.Script?)
    && (forall i, j :: 0 <= i < |sent| && 0 <= j < |local| ==> SparesSockets(sent[i], local[j]))
  }

  /** Sockets of this process are closed by this process alone. */
  predicate SparesSockets(s: Sent, user: LocalUser) {
    var command := s.command;
    if !s.own && command.Script? && command.op.Decrement? && command.op.school == user.school && command.op.user == user.user
    then command.op.socket !in SocketSet(user.owners)
    else true
  }

  /** The calls of the reconciliation open this socket. */
  ghost predicate Opens(calls: seq<Operation>, school: School, user: User, socket: Socket) {
    exists i :: 0 <= i < |calls| && calls[i].Increment?
      && calls[i].school == school && calls[i].user == user && calls[i].socket == socket
  }

  /** The timestamp a command writes to a user's key. */
  function Stamp(r: Redis, command: Command, school: School, user: User): Option<int> {
    if !Lists(r, command, school, user) then None
    else if command.Script? then Some(command.op.at)
    else Some(command.at)
  }

  lemma {:induction false} StampEffect(r: Redis, command: Command, school: School, user: User)
    requires KeyMatches(r, school, user)
    ensures var key, next := UserKey(school, user), RunCommand(r, command);
            && (Stamp(r, command, school, user).Some? ==>
                  key in next.userKeys && next.userKeys[key] == Stamp(r, command, school, user).value)
            && (Stamp(r, command, school, user).None? && Open(next, school, user) ==>
                  key in r.userKeys && key in next.userKeys && next.userKeys[key] == r.userKeys[key])
  {
    CommandEffect(r, command, school, user);
    hide OpenSockets, Members;
  }

  // ----- Local sockets survive -------------------------------------------------------------

  lemma {:induction false} OpensAppend(calls: seq<Operation>, op: Operation, school: School, user: User, socket: Socket)
    ensures Opens(calls + [op], school, user, socket) <==>
              || Opens(calls, school, user, socket)
              || (op.Increment? && op.school == school && op.user == user && op.socket == socket)
  {
    if Opens(calls, school, user, socket) {
      var i :| 0 <= i < |calls| && calls[i].Increment?
        && calls[i].school == school && calls[i].user == user && calls[i].socket == socket;
      assert (calls + [op])[i] == calls[i];
    }
    assert (calls + [op])[|calls|] == op;
  }

  /** No command but an own increment touches this socket of the user. */
  predicate Spares(s: Sent, school: School, user: User, socket: Socket) {
    && (s.own ==> s.command.Script? && s.command.op.Increment?)
    && (s.command.Script? && s.command.op.Decrement? && s.command.op.school == school && s.command.op.user == user ==>
          s.command.op.socket != socket)
  }

  /** A socket the reconciliation has added stays, whatever the others send. */
  lemma {:induction false} SocketSurvives(r: Redis, sent: seq<Sent>, school: School, user: User, socket: Socket)
    requires KeyMatches(r, school, user) && forall i :: 0 <= i < |sent| ==> Spares(sent[i], school, user, socket)
    ensures KeyMatches(RunSent(r, sent), school, user)
    ensures Opens(Own(sent), school, user, socket) ==> socket in OpenSockets(RunSent(r, sent).sockets, school, user)
    decreases sent
  {
    if sent != [] {
      var front, last := sent[..|sent| - 1], sent[|sent| - 1];
      SocketSurvives(r, front, school, user, socket);
      CommandEffect(RunSent(r, front), last.command, school, user);
      assert Spares(last, school, user, socket);
      hide RunCommand, OpenSockets, Members, Opens;
      if last.own {
        OpensAppend(Own(front), last.command.op, school, user, socket);
      }
    }
  }

  // ----- The user key ----------------------------------------------------------------------

  /** The last command that wrote the user's key wrote `at`. */
  ghost predicate LastStamp(r: Redis, sent: seq<Sent>, school: School, user: User, at: int) {
    exists k :: 0 <= k < |sent|
      && Stamp(RunSent(r, sent[..k]), sent[k].command, school, user) == Some(at)
      && forall j :: k < j < |sent| ==> Stamp(RunSent(r, sent[..j]), sent[j].command, school, user) == None
  }

  lemma {:induction false} LastStampStep(r: Redis, sent: seq<Sent>, school: School, user: User, at: int)
    requires sent != []
    requires var front, last := sent[..|sent| - 1], sent[|sent| - 1];
             var stamp := Stamp(RunSent(r, front), last.command, school, user);
             stamp == Some(at) || (stamp == None && LastStamp(r, front, school, user, at))
    ensures LastStamp(r, sent, school, user, at)
  {
    hide Stamp, RunSent;
    var n := |sent| - 1;
    if Stamp(RunSent(r, sent[..n]), sent[n].command, school, user) == None {
      var front := sent[..n];
      var k :| 0 <= k < n && Stamp(RunSent(r, front[..k]), front[k].command, school, user) == Some(at)
        && forall j :: k < j < n ==> Stamp(RunSent(r, front[..j]), front[j].command, school, user) == None;
      assert front[..k] == sent[..k];
      forall j | k < j < |sent|
        ensures Stamp(RunSent(r, sent[..j]), sent[j].command, school, user) == None
      {
        if j < n {
          assert front[..j] == sent[..j] && front[j] == sent[j];
        }
      }
    }
  }

  /** Once the reconciliation has added a socket of the user, its key holds what was written last, by anyone. */
  lemma {:induction false} KeyHoldsLast(r: Redis, sent: seq<Sent>, school: School, user: User, socket: Socket)
    requires KeyMatches(r, school, user) && forall i :: 0 <= i < |sent| ==> Spares(sent[i], school, user, socket)
    requires Opens(Own(sent), school, user, socket)
    ensures var n, key := RunSent(r, sent), UserKey(school, user);
            key in n.userKeys && LastStamp(r, sent, school, user, n.userKeys[key])
    decreases sent
  {
    if sent != [] {
      var front, last := sent[..|sent| - 1], sent[|sent| - 1];
      SocketSurvives(r, front, school, user, socket);
      SocketSurvives(r, sent, school, user, socket);
      var before, key := RunSent(r, front), UserKey(school, user);
      StampEffect(before, last.command, school, user);
      hide RunCommand, OpenSockets, Members, Opens, LastStamp;
      if Stamp(before, last.command, school, user) == None {
        if last.own {
          OpensAppend(Own(front), last.command.op, school, user, socket);
        }
        KeyHoldsLast(r, front, school, user, socket);
      }
      LastStampStep(r, sent, school, user, RunSent(r, sent).userKeys[key]);
    }
  }

  // ----- A whole reconciliation ------------------------------------------------------------

  lemma {:induction false} OpensOwners(school: School, user: User, owners: seq<OwnedSocket>, i: nat)
    requires i < |owners|
    ensures Opens(OwnerCalls(school, user, owners), school, user, owners[i].socket)
    decreases owners
  {
    var front, last := owners[..|owners| - 1], owners[|owners| - 1];
    hide Opens;
    OpensAppend(OwnerCalls(school, user, front),
                Increment(school, user, last.socket, last.updatedAt, last.ttlSeconds), school, user, owners[i].socket);
    if i < |front| {
      OpensOwners(school, user, front, i);
    }
  }

  lemma {:induction false} OpensConcat(a: seq<Operation>, b: seq<Operation>, school: School, user: User, socket: Socket)
    ensures Opens(a, school, user, socket) || Opens(b, school, user, socket) ==> Opens(a + b, school, user, socket)
  {
    if Opens(b, school, user, socket) {
      var i :| 0 <= i < |b| && b[i].Increment? && b[i].school == school && b[i].user == user && b[i].socket == socket;
      assert (a + b)[|a| + i] == b[i];
    }
    if Opens(a, school, user, socket) {
      var i :| 0 <= i < |a| && a[i].Increment? && a[i].school == school && a[i].user == user && a[i].socket == socket;
      assert (a + b)[i] == a[i];
    }
  }

  lemma {:induction false} CallsOpen(local: seq<LocalUser>, i: nat, socket: Socket)
    requires i < |local| && socket in SocketSet(local[i].owners)
    ensures Opens(ReconcileCalls(local), local[i].school, local[i].user, socket)
    decreases local
  {
    var front, last := local[..|local| - 1], local[|local| - 1];
    OpensConcat(ReconcileCalls(front), OwnerCalls(last.school, last.user, SortByTime(last.owners)),
                local[i].school, local[i].user, socket);
    if i < |front| {
      CallsOpen(front, i, socket);
    } else {
      LastIsLatest(last.owners);
      var sorted := SortByTime(last.owners);
      hide Opens, SortByTime;
      var j :| 0 <= j < |sorted| && sorted[j].socket == socket;
      OpensOwners(last.school, last.user, sorted, j);
    }
  }

  lemma {:induction false} CallsIncrement(local: seq<LocalUser>)
    ensures forall k :: 0 <= k < |ReconcileCalls(local)| ==> ReconcileCalls(local)[k].Increment?
    decreases local
  {
    if local != [] {
      CallsIncrement(local[..|local| - 1]);
      OwnersIncrement(local[|local| - 1].school, local[|local| - 1].user, SortByTime(local[|local| - 1].owners));
    }
  }

  lemma {:induction false} OwnersIncrement(school: School, user: User, owners: seq<OwnedSocket>)
    ensures forall k :: 0 <= k < |OwnerCalls(school, user, owners)| ==> OwnerCalls(school, user, owners)[k].Increment?
    decreases owners
  {
    if owners != [] {
      OwnersIncrement(school, user, owners[..|owners| - 1]);
    }
  }

  /** An own command among them is one of the own calls. */
  lemma {:induction false} OwnCall(sent: seq<Sent>, i: nat)
    requires i < |sent| && sent[i].own && sent[i].command.Script?
    ensures sent[i].command.op in Own(sent)
    decreases sent
  {
    if i < |sent| - 1 {
      OwnCall(sent[..|sent| - 1], i);
    }
  }

  /**
   However other processes interleave with the awaited calls, at the end every local socket is in
   Redis, and the user's key holds the timestamp that was written to it last.
   */
  lemma {:induction false} ReconciledAmidOthers(r: Redis, sent: seq<Sent>, local: seq<LocalUser>, i: nat, socket: Socket)
    requires Interleaves(sent, local) && i < |local| && socket in SocketSet(local[i].owners)
    requires KeyMatches(r, local[i].school, local[i].user)
    ensures var n, key := RunSent(r, sent), UserKey(local[i].school, local[i].user);
            && socket in OpenSockets(n.sockets, local[i].school, local[i].user)
            && key in n.userKeys && LastStamp(r, sent, local[i].school, local[i].user, n.userKeys[key])
  {
    var school, user := local[i].school, local[i].user;
    CallsOpen(local, i, socket);
    CallsIncrement(local);
    forall k | 0 <= k < |sent|
      ensures Spares(sent[k], school, user, socket)
    {
      assert SparesSockets(sent[k], local[i]);
      if sent[k].own {
        OwnCall(sent, k);
      }
    }
    hide Spares, Opens, LastStamp, OpenSockets, SocketSet;
    SocketSurvives(r, sent, school, user, socket);
    KeyHoldsLast(r, sent, school, user, socket);
  }

  // ----- With nobody else writing the key --------------------------------------------------

  /** The timestamp of the last call for the user. */
  function LastAt(calls: seq<Operation>, school: School, user: User): Option<int> {
    if calls == [] then None
    else
      var last := calls[|calls| - 1];
      if last.school == school && last.user == user then Some(last.at) else LastAt(calls[..|calls| - 1], school, user)
  }

  /** The others neither bring the user online nor refresh it. */
  predicate Quiet(s: Sent, school: School, user: User) {
    match s.command
    case Script(op) => s.own || op.Decrement? || op.school != school || op.user != user
    case Refresh(c, u, _, _) => c != school || u != user
    case Unlist(_, _) => true
  }

  lemma {:induction false} LastAtAppend(calls: seq<Operation>, op: Operation, school: School, user: User)
    ensures LastAt(calls + [op], school, user) ==
            if op.school == school && op.user == user then Some(op.at) else LastAt(calls, school, user)
  {
    assert (calls + [op])[..|calls|] == calls;
  }

  lemma {:induction false} QuietStamp(r: Redis, s: Sent, school: School, user: User)
    requires Quiet(s, school, user) && (s.own ==> s.command.Script? && s.command.op.Increment?)
    ensures Stamp(r, s.command, school, user) ==
            if s.own && s.command.op.school == school && s.command.op.user == user then Some(s.command.op.at) else None
  {
  }

  lemma {:induction false} LastStampFront(r: Redis, sent: seq<Sent>, school: School, user: User, at: int)
    requires LastStamp(r, sent, school, user, at)
    ensures sent != []
    ensures var front, last := sent[..|sent| - 1], sent[|sent| - 1];
            var stamp := Stamp(RunSent(r, front), last.command, school, user);
            stamp == Some(at) || (stamp == None && LastStamp(r, front, school, user, at))
  {
    hide Stamp, RunSent;
    var n := |sent| - 1;
    var front := sent[..n];
    var k :| 0 <= k < |sent| && Stamp(RunSent(r, sent[..k]), sent[k].command, school, user) == Some(at)
      && forall j :: k < j < |sent| ==> Stamp(RunSent(r, sent[..j]), sent[j].command, school, user) == None;
    if k < n {
      assert front[..k] == sent[..k];
      forall j | k < j < n
        ensures Stamp(RunSent(r, front[..j]), front[j].command, school, user) == None
      {
        assert front[..j] == sent[..j];
      }
    }
  }

  lemma {:induction false} LastStampIsOwn(r: Redis, sent: seq<Sent>, school: School, user: User, at: int)
    requires LastStamp(r, sent, school, user, at)
    requires forall i :: 0 <= i < |sent| ==>
               Quiet(sent[i], school, user) && (sent[i].own ==> sent[i].command.Script? && sent[i].command.op.Increment?)
    ensures LastAt(Own(sent), school, user) == Some(at)
    decreases sent
  {
    LastStampFront(r, sent, school, user, at);
    hide LastStamp, Quiet, Stamp, RunSent;
    var front, last := sent[..|sent| - 1], sent[|sent| - 1];
    QuietStamp(RunSent(r, front), last, school, user);
    if last.own {
      LastAtAppend(Own(front), last.command.op, school, user);
    }
    if Stamp(RunSent(r, front), last.command, school, user) == None {
      LastStampIsOwn(r, front, school, user, at);
    }
  }

  lemma {:induction false} LastAtConcat(a: seq<Operation>, b: seq<Operation>, school: School, user: User)
    ensures LastAt(a + b, school, user) ==
            if LastAt(b, school, user).Some? then LastAt(b, school, user) else LastAt(a, school, user)
    decreases b
  {
    if b == [] {
      assert a + b == a;
    } else {
      LastAtConcat(a, b[..|b| - 1], school, user);
      assert (a + b)[..|a + b| - 1] == a + b[..|b| - 1];
    }
  }

  lemma {:induction false} LastAtOwners(s: School, u: User, owners: seq<OwnedSocket>, school: School, user: User)
    ensures LastAt(OwnerCalls(s, u, owners), school, user) ==
            if s == school && u == user && owners != [] then Some(owners[|owners| - 1].updatedAt) else None
    decreases owners
  {
    if owners != [] {
      var front, last := owners[..|owners| - 1], owners[|owners| - 1];
      LastAtOwners(s, u, front, school, user);
      LastAtAppend(OwnerCalls(s, u, front), Increment(s, u, last.socket, last.updatedAt, last.ttlSeconds), school, user);
    }
  }

  lemma {:induction false} NoCalls(local: seq<LocalUser>, school: School, user: User)
    requires forall j :: 0 <= j < |local| ==> local[j].school != school || local[j].user != user
    ensures LastAt(ReconcileCalls(local), school, user) == None
    decreases local
  {
    if local != [] {
      var front, last := local[..|local| - 1], local[|local| - 1];
      NoCalls(front, school, user);
      LastAtOwners(last.school, last.user, SortByTime(last.owners), school, user);
      LastAtConcat(ReconcileCalls(front), OwnerCalls(last.school, last.user, SortByTime(last.owners)), school, user);
    }
  }

  lemma {:induction false} LatestCall(local: seq<LocalUser>, i: nat)
    requires DistinctUsers(local) && i < |local| && local[i].owners != []
    ensures var at := LastAt(ReconcileCalls(local), local[i].school, local[i].user);
            at.Some? && IsLatest(local[i].owners, at.value)
    decreases local
  {
    var front, last := local[..|local| - 1], local[|local| - 1];
    var school, user := local[i].school, local[i].user;
    LastAtOwners(last.school, last.user, SortByTime(last.owners), school, user);
    LastAtConcat(ReconcileCalls(front), OwnerCalls(last.school, last.user, SortByTime(last.owners)), school, user);
    hide IsLatest, SortByTime, LastAt, OwnerCalls;
    if i < |front| {
      LatestCall(front, i);
    } else {
      LastIsLatest(last.owners);
    }
  }

  /** If meanwhile no other process brings a user online or refreshes it, its key ends at the latest local timestamp. */
  lemma {:induction false} ReconciledLatest(r: Redis, sent: seq<Sent>, local: seq<LocalUser>, i: nat)
    requires Interleaves(sent, local) && DistinctUsers(local) && i < |local| && local[i].owners != []
    requires KeyMatches(r, local[i].school, local[i].user)
    requires forall k :: 0 <= k < |sent| ==> Quiet(sent[k], local[i].school, local[i].user)
    ensures var n, key := RunSent(r, sent), UserKey(local[i].school, local[i].user);
            key in n.userKeys && IsLatest(local[i].owners, n.userKeys[key])
  {
    var school, user := local[i].school, local[i].user;
    assert local[i].owners[0].socket in SocketSet(local[i].owners);
    ReconciledAmidOthers(r, sent, local, i, local[i].owners[0].socket);
    CallsIncrement(local);
    forall k | 0 <= k < |sent| && sent[k].own
      ensures sent[k].command.Script? && sent[k].command.op.Increment?
    {
      OwnCall(sent, k);
    }
    hide LastStamp, Quiet, IsLatest, OpenSockets;
    LastStampIsOwn(r, sent, school, user, RunSent(r, sent).userKeys[UserKey(school, user)]);
    LatestCall(local, i);
  }
}
