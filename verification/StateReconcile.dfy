/**
 Reconciling the local state into a recovered Redis client (realtime-state-store.service.ts): local
 sockets are added user by user in time order, then active typing entries by remaining time.
 */
module StateReconcile {
  import opened Presence
  import opened StableSort

  /** One local socket of a user and when it was last updated. */
  datatype OwnedSocket = OwnedSocket(socket: Socket, updatedAt: int, ttlSeconds: int)

  /** The local sockets of one user. */
  datatype LocalUser = LocalUser(school: School, user: User, owners: seq<OwnedSocket>)

  predicate NotLater(a: OwnedSocket, b: OwnedSocket) {
    a.updatedAt <= b.updatedAt
  }

  function SortByTime(owners: seq<OwnedSocket>): seq<OwnedSocket> {
    Sort(NotLater, owners)
  }

  // ----- Presence --------------------------------------------------------------------------

  function AddOwners(r: Redis, school: School, user: User, owners: seq<OwnedSocket>): Redis {
    if owners == [] then r
    else
      var last := owners[|owners| - 1];
      IncrementScript(AddOwners(r, school, user, owners[..|owners| - 1]), school, user, last.socket, last.updatedAt).redis
  }

  function AddUsers(r: Redis, local: seq<LocalUser>): Redis {
    if local == [] then r
    else
      var last := local[|local| - 1];
      AddOwners(AddUsers(r, local[..|local| - 1]), last.school, last.user, SortByTime(last.owners))
  }

  /** The loops of the source: for each user, its owners sorted by time, one script call each. */
  method ReconcilePresence(redis: Redis, local: seq<LocalUser>) returns (r: Redis)
    ensures r == AddUsers(redis, local)
  {
    r := redis;
    for i := 0 to |local|
      invariant r == AddUsers(redis, local[..i])
    {
      var owners := SortByTime(local[i].owners);
      ghost var before := r;
      for j := 0 to |owners|
        invariant r == AddOwners(before, local[i].school, local[i].user, owners[..j])
      {
        r := IncrementScript(r, local[i].school, local[i].user, owners[j].socket, owners[j].updatedAt).redis;
        assert owners[..j + 1][..j] == owners[..j];
      }
      assert owners[..|owners|] == owners;
      assert local[..i + 1][..i] == local[..i];
    }
    assert local[..|local|] == local;
  }

  function SocketSet(owners: seq<OwnedSocket>): set<Socket> {
    set i | 0 <= i < |owners| :: owners[i].socket
  }

  /** Adding owners adds their sockets to that user's set and to no other. */
  lemma {:induction false} AddOwnersSockets(
      r: Redis, school: School, user: User, owners: seq<OwnedSocket>, s: School, u: User)
    ensures OpenSockets(AddOwners(r, school, user, owners).sockets, s, u)
         == OpenSockets(r.sockets, s, u) + (if s == school && u == user then SocketSet(owners) else {})
    decreases owners
  {
    if owners != [] {
      hide OpenSockets, SocketSet;
      var front, last := owners[..|owners| - 1], owners[|owners| - 1];
      AddOwnersSockets(r, school, user, front, s, u);
      AddOwnersSockets(r, school, user, front, school, user);
      var before := AddOwners(r, school, user, front);
      OpenAfter(before.sockets, UserKey(school, user), OpenSockets(before.sockets, school, user) + {last.socket}, s, u);
      SocketSetLast(owners);
    }
  }

  /** Adding owners leaves the user's key at the last timestamp and the other keys alone. */
  lemma {:induction false} AddOwnersKeys(r: Redis, school: School, user: User, owners: seq<OwnedSocket>, key: UserKey)
    ensures var n := AddOwners(r, school, user, owners);
            if key == UserKey(school, user) && owners != [] then
              key in n.userKeys && n.userKeys[key] == owners[|owners| - 1].updatedAt
            else key in r.userKeys ==> key in n.userKeys && n.userKeys[key] == r.userKeys[key]
    decreases owners
  {
    if owners != [] {
      hide OpenSockets, Members;
      AddOwnersKeys(r, school, user, owners[..|owners| - 1], key);
    }
  }

  lemma {:induction false} SocketSetLast(owners: seq<OwnedSocket>)
    requires owners != []
    ensures SocketSet(owners) == SocketSet(owners[..|owners| - 1]) + {owners[|owners| - 1].socket}
  {
    var front := owners[..|owners| - 1];
    forall x | x in SocketSet(owners)
      ensures x in SocketSet(front) + {owners[|owners| - 1].socket}
    {
      var i :| 0 <= i < |owners| && owners[i].socket == x;
      if i < |front| {
        assert front[i].socket == x;
      }
    }
    forall x | x in SocketSet(front)
      ensures x in SocketSet(owners)
    {
      var i :| 0 <= i < |front| && front[i].socket == x;
      assert owners[i].socket == x;
    }
    assert owners[|owners| - 1].socket in SocketSet(owners);
  }

  predicate DistinctUsers(local: seq<LocalUser>) {
    forall i, j :: 0 <= i < j < |local| ==> local[i].school != local[j].school || local[i].user != local[j].user
  }

  /** The latest timestamp among a user's local sockets. */
  predicate IsLatest(owners: seq<OwnedSocket>, at: int) {
    && (exists i :: 0 <= i < |owners| && owners[i].updatedAt == at)
    && forall i :: 0 <= i < |owners| ==> owners[i].updatedAt <= at
  }

  lemma {:induction false} LastIsLatest(owners: seq<OwnedSocket>)
    requires owners != []
    ensures var sorted := SortByTime(owners);
            sorted != [] && IsLatest(owners, sorted[|sorted| - 1].updatedAt) && SocketSet(sorted) == SocketSet(owners)
  {
    Sorts(NotLater, owners);
    var sorted := SortByTime(owners);
    assert |multiset(sorted)| == |sorted| && |multiset(owners)| == |owners|;
    var last := sorted[|sorted| - 1];
    assert last in multiset(owners);
    forall i | 0 <= i < |owners|
      ensures owners[i].updatedAt <= last.updatedAt
    {
      assert owners[i] in multiset(sorted);
      var j :| 0 <= j < |sorted| && sorted[j] == owners[i];
    }
    SameElements(owners, sorted);
    SameElements(sorted, owners);
  }

  lemma {:induction false} SameElements(a: seq<OwnedSocket>, b: seq<OwnedSocket>)
    requires multiset(a) == multiset(b)
    ensures SocketSet(a) <= SocketSet(b)
  {
    forall x | x in SocketSet(a)
      ensures x in SocketSet(b)
    {
      var i :| 0 <= i < |a| && a[i].socket == x;
      assert a[i] in multiset(b);
      var j :| 0 <= j < |b| && b[j] == a[i];
      assert b[j].socket == x;
    }
  }

  /**
   After reconciling, Redis holds every local socket besides what it held, and each local user's key
   carries the latest local timestamp.
   */
  lemma {:induction false} ReconciledPresence(r: Redis, local: seq<LocalUser>, i: nat)
    requires DistinctUsers(local) && i < |local| && local[i].owners != []
    ensures var n := AddUsers(r, local);
            && OpenSockets(n.sockets, local[i].school, local[i].user)
                 == OpenSockets(r.sockets, local[i].school, local[i].user) + SocketSet(local[i].owners)
            && UserKey(local[i].school, local[i].user) in n.userKeys
            && IsLatest(local[i].owners, n.userKeys[UserKey(local[i].school, local[i].user)])
    decreases local
  {
    hide OpenSockets, SocketSet, IsLatest, SortByTime;
    var front, last := local[..|local| - 1], local[|local| - 1];
    var before := AddUsers(r, front);
    var school, user := local[i].school, local[i].user;
    if i < |front| {
      ReconciledPresence(r, front, i);
      AddOwnersSockets(before, last.school, last.user, SortByTime(last.owners), school, user);
      AddOwnersKeys(before, last.school, last.user, SortByTime(last.owners), UserKey(school, user));
    } else {
      UntouchedUser(r, front, school, user);
      LastIsLatest(last.owners);
      AddOwnersSockets(before, last.school, last.user, SortByTime(last.owners), school, user);
      AddOwnersKeys(before, last.school, last.user, SortByTime(last.owners), UserKey(school, user));
    }
  }

  /** A user without local sockets keeps its Redis sockets: reconciling only adds. */
  lemma {:induction false} UntouchedUser(r: Redis, local: seq<LocalUser>, school: School, user: User)
    requires forall i :: 0 <= i < |local| ==> local[i].school != school || local[i].user != user
    ensures OpenSockets(AddUsers(r, local).sockets, school, user) == OpenSockets(r.sockets, school, user)
    decreases local
  {
    if local != [] {
      hide OpenSockets, SortByTime;
      var front, last := local[..|local| - 1], local[|local| - 1];
      UntouchedUser(r, front, school, user);
      AddOwnersSockets(AddUsers(r, front), last.school, last.user, SortByTime(last.owners), school, user);
    }
  }

  // ----- Typing ----------------------------------------------------------------------------

  type Conversation = string

  /** An active typing entry, with the whole seconds it has left. */
  datatype Typing = Typing(conversation: Conversation, user: User, remaining: nat)

  /** Per conversation the users listed and when the list expires; per user when the entry expires. */
  datatype TypingState = TypingState(
    members: map<Conversation, set<User>>,
    listExpiry: map<Conversation, int>,
    userExpiry: map<(Conversation, User), int>)

  function MembersOf(t: TypingState, c: Conversation): set<User> {
    if c in t.members then t.members[c] else {}
  }

  /** The transaction SET EX, SADD, EXPIRE, taking effect at `at`. */
  function WriteTyping(t: TypingState, entry: Typing, at: int): TypingState {
    var c, u, expiry := entry.conversation, entry.user, at + entry.remaining;
    TypingState(t.members[c := MembersOf(t, c) + {u}], t.listExpiry[c := expiry], t.userExpiry[(c, u) := expiry])
  }

  /** The writes in order, each at its own moment. */
  function WriteAll(t: TypingState, entries: seq<Typing>, clock: seq<int>): TypingState
    requires |clock| == |entries|
  {
    if entries == [] then t
    else
      var n := |entries| - 1;
      WriteTyping(WriteAll(t, entries[..n], clock[..n]), entries[n], clock[n])
  }

  predicate NotLonger(a: Typing, b: Typing) {
    a.remaining <= b.remaining
  }

  /** The clock does not go back between writes. */
  predicate Nondecreasing(clock: seq<int>) {
    forall i, j :: 0 <= i < j < |clock| ==> clock[i] <= clock[j]
  }

  /** The typing half of the reconciliation: entries by remaining time, then one transaction each. */
  function ReconcileTyping(t: TypingState, active: seq<Typing>, clock: seq<int>): TypingState
    requires |clock| == |active|
  {
    WriteAll(t, Sort(NotLonger, active), clock)
  }

  /** When an entry of the batch expires: no later than the last one written. */
  lemma {:induction false} WrittenBefore(t: TypingState, entries: seq<Typing>, clock: seq<int>, i: nat)
    requires |clock| == |entries| && Sorted(NotLonger, entries) && Nondecreasing(clock) && i < |entries|
    ensures var n, key := WriteAll(t, entries, clock), (entries[i].conversation, entries[i].user);
            && key in n.userExpiry
            && clock[i] + entries[i].remaining <= n.userExpiry[key] <= clock[|entries| - 1] + entries[|entries| - 1].remaining
    decreases entries
  {
    var n := |entries| - 1;
    assert NotLonger(entries[i], entries[n]) || i == n;
    if i < n {
      WrittenBefore(t, entries[..n], clock[..n], i);
      assert NotLonger(entries[n - 1], entries[n]) && clock[n - 1] <= clock[n];
    }
  }

  lemma {:induction false} WrittenTyping(t: TypingState, entries: seq<Typing>, clock: seq<int>, i: nat)
    requires |clock| == |entries| && Sorted(NotLonger, entries) && Nondecreasing(clock) && i < |entries|
    ensures var n, entry := WriteAll(t, entries, clock), entries[i];
            var key := (entry.conversation, entry.user);
            && entry.user in MembersOf(n, entry.conversation)
            && entry.conversation in n.listExpiry && key in n.userExpiry
            && n.listExpiry[entry.conversation] >= n.userExpiry[key] >= clock[i] + entry.remaining
    decreases entries
  {
    var n := |entries| - 1;
    WrittenBefore(t, entries, clock, i);
    if i < n {
      WrittenTyping(t, entries[..n], clock[..n], i);
    }
  }

  /**
   Every active entry is listed, it lasts at least as long as it had left when it was written, and its
   conversation's list expires no earlier than it.
   */
  lemma {:induction false} ReconciledTyping(t: TypingState, active: seq<Typing>, clock: seq<int>, entry: Typing)
    requires |clock| == |active| && Nondecreasing(clock) && entry in active
    ensures var n, key := ReconcileTyping(t, active, clock), (entry.conversation, entry.user);
            && entry.user in MembersOf(n, entry.conversation)
            && entry.conversation in n.listExpiry && key in n.userExpiry
            && n.listExpiry[entry.conversation] >= n.userExpiry[key] >= clock[0] + entry.remaining
            && exists i :: 0 <= i < |clock| && Sort(NotLonger, active)[i] == entry
                 && n.userExpiry[key] >= clock[i] + entry.remaining
  {
    Sorts(NotLonger, active);
    var sorted := Sort(NotLonger, active);
    assert entry in multiset(sorted);
    var i :| 0 <= i < |sorted| && sorted[i] == entry;
    WrittenTyping(t, sorted, clock, i);
    assert clock[0] <= clock[i];
  }

  /** Were the entries written longest first, the list could expire before an entry in it. */
  lemma {:induction false} OrderNeeded(c: Conversation, long: nat, short: nat, at: int, t: TypingState)
    requires short < long
    ensures var entries := [Typing(c, "a", long), Typing(c, "b", short)];
            var n := WriteAll(t, entries, [at, at]);
            c in n.listExpiry && n.listExpiry[c] < at + long
  {
    var entries := [Typing(c, "a", long), Typing(c, "b", short)];
    assert WriteAll(t, entries, [at, at]) == WriteTyping(WriteAll(t, entries[..1], [at, at][..1]), entries[1], at);
  }
}
