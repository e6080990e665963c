/**
 Presence snapshots read from Redis (realtime-state-store.service.ts) beside the scripts of any number
 of processes. A snapshot lists the users of a school, reads their keys one by one, and at last removes
 the ids it found without a key; other commands may run between any two of these.
 */
module PresenceSnapshot {
  import opened Presence
  import opened Wrappers

  // ----- Steps -----------------------------------------------------------------------------

  /** A snapshot under way: ids still to read, keys found, ids without a key, whether those were removed. */
  datatype Reader = Reader(school: School, pending: set<User>, found: map<User, int>, stale: set<User>, removed: bool)

  datatype Store = Store(redis: Redis, readers: map<nat, Reader>)

  /**
   `Write` is a script or refresh of any process; the others are the commands of snapshot `id`. A read
   that fails inside the pipeline is not told apart from a missing key.
   */
  datatype Step =
    | Write(command: Command)
    | ListUsers(id: nat, school: School)
    | ReadKey(id: nat, user: User, answered: bool)
    | RemoveStale(id: nat)

  predicate Enabled(s: Store, step: Step) {
    match step
    case Write(command) => !command.Unlist?
    case ListUsers(id, _) => id !in s.readers
    case ReadKey(id, user, _) => id in s.readers && user in s.readers[id].pending
    case RemoveStale(id) =>
      id in s.readers && s.readers[id].pending == {} && s.readers[id].stale != {} && !s.readers[id].removed
  }

  /** The reader after the answer for one id. */
  function Answered(reader: Reader, user: User, key: Option<int>): Reader {
    reader.(pending := reader.pending - {user},
            found := if key.Some? then reader.found[user := key.value] else reader.found,
            stale := if key.None? then reader.stale + {user} else reader.stale)
  }

  function KeyOf(r: Redis, school: School, user: User): Option<int> {
    if UserKey(school, user) in r.userKeys then Some(r.userKeys[UserKey(school, user)]) else None
  }

  function Next(s: Store, step: Step): Store
    requires Enabled(s, step)
  {
    match step
    case Write(command) => s.(redis := RunCommand(s.redis, command))
    case ListUsers(id, school) =>
      s.(readers := s.readers[id := Reader(school, Members(s.redis.users, school), map[], {}, false)])
    case ReadKey(id, user, answered) =>
      var reader := s.readers[id];
      var key := if answered then KeyOf(s.redis, reader.school, user) else None;
      s.(readers := s.readers[id := Answered(reader, user, key)])
    case RemoveStale(id) =>
      var reader := s.readers[id];
      Store(RunCommand(s.redis, Unlist(reader.school, reader.stale)), s.readers[id := reader.(removed := true)])
  }

  const EmptyStore := Store(Redis(map[], map[], map[]), map[])

  ghost predicate Run(states: seq<Store>, steps: seq<Step>) {
    && |states| == |steps| + 1
    && states[0] == EmptyStore
    && (forall i :: 0 <= i < |steps| ==> Enabled(states[i], steps[i]) && states[i + 1] == Next(states[i], steps[i]))
  }

  /** The command a step sends to Redis, if it writes. */
  function CommandOf(s: Store, step: Step): Option<Command>
    requires Enabled(s, step)
  {
    match step
    case Write(command) => Some(command)
    case RemoveStale(id) => Some(Unlist(s.readers[id].school, s.readers[id].stale))
    case _ => None
  }

  lemma {:induction false} NextRedis(s: Store, step: Step)
    requires Enabled(s, step)
    ensures Next(s, step).redis == match CommandOf(s, step) case Some(command) => RunCommand(s.redis, command) case None => s.redis
  {
  }

  // ----- Who is listed ---------------------------------------------------------------------

  predicate StepLists(s: Store, step: Step, school: School, user: User) {
    step.Write? && Lists(s.redis, step.command, school, user)
  }

  predicate StepDrops(s: Store, step: Step, school: School, user: User) {
    && step.RemoveStale? && step.id in s.readers
    && s.readers[step.id].school == school && user in s.readers[step.id].stale
  }

  /** Some snapshot has removed the user as stale since it was last listed. */
  ghost predicate Dropped(states: seq<Store>, steps: seq<Step>, n: nat, school: School, user: User)
    requires n <= |steps| < |states|
  {
    exists k :: 0 <= k < n && StepDrops(states[k], steps[k], school, user)
      && forall j :: k < j < n ==> !StepLists(states[j], steps[j], school, user)
  }

  lemma {:induction false} DroppedStep(states: seq<Store>, steps: seq<Step>, n: nat, school: School, user: User)
    requires n < |steps| < |states|
    ensures Dropped(states, steps, n + 1, school, user) <==>
              || StepDrops(states[n], steps[n], school, user)
              || (Dropped(states, steps, n, school, user) && !StepLists(states[n], steps[n], school, user))
  {
    hide StepDrops, StepLists;
    if Dropped(states, steps, n + 1, school, user) {
      var k :| 0 <= k < n + 1 && StepDrops(states[k], steps[k], school, user)
        && forall j :: k < j < n + 1 ==> !StepLists(states[j], steps[j], school, user);
    }
    if Dropped(states, steps, n, school, user) && !StepLists(states[n], steps[n], school, user) {
      var k :| 0 <= k < n && StepDrops(states[k], steps[k], school, user)
        && forall j :: k < j < n ==> !StepLists(states[j], steps[j], school, user);
      assert forall j :: k < j < n + 1 ==> !StepLists(states[j], steps[j], school, user);
    }
  }

  /** Listed exactly while open and not dropped. */
  ghost predicate ListedRight(states: seq<Store>, steps: seq<Step>, n: nat, school: School, user: User)
    requires n <= |steps| < |states|
  {
    Listed(states[n].redis, school, user) <==> Open(states[n].redis, school, user) && !Dropped(states, steps, n, school, user)
  }

  lemma {:induction false} ListedRightStep(states: seq<Store>, steps: seq<Step>, n: nat, school: School, user: User)
    requires Run(states, steps) && n < |steps|
    requires KeyMatches(states[n].redis, school, user) && ListedRight(states, steps, n, school, user)
    ensures KeyMatches(states[n + 1].redis, school, user) && ListedRight(states, steps, n + 1, school, user)
  {
    var s, step := states[n], steps[n];
    DroppedStep(states, steps, n, school, user);
    NextRedis(s, step);
    hide Dropped, Run, Next, RunCommand, OpenSockets, Members, Lists;
    assert states[n + 1] == Next(s, step) && Enabled(s, step) by { RunStep(states, steps, n); }
    if CommandOf(s, step).Some? {
      CommandEffect(s.redis, CommandOf(s, step).value, school, user);
      DropsAgree(s, step, school, user);
    }
  }

  lemma {:induction false} RunStep(states: seq<Store>, steps: seq<Step>, n: nat)
    requires Run(states, steps) && n < |steps|
    ensures Enabled(states[n], steps[n]) && states[n + 1] == Next(states[n], steps[n])
  {
  }

  lemma {:induction false} DropsAgree(s: Store, step: Step, school: School, user: User)
    requires Enabled(s, step) && CommandOf(s, step).Some?
    ensures StepDrops(s, step, school, user) <==> Drops(CommandOf(s, step).value, school, user)
    ensures StepLists(s, step, school, user) <==> Lists(s.redis, CommandOf(s, step).value, school, user)
  {
  }

  /**
   Whatever the interleaving, a user has a key exactly while a socket is open; it is listed exactly
   while a socket is open and no snapshot has removed it as stale since it was last listed.
   */
  lemma {:induction false} ListingIff(states: seq<Store>, steps: seq<Step>, n: nat, school: School, user: User)
    requires Run(states, steps) && n < |states|
    ensures KeyMatches(states[n].redis, school, user) && ListedRight(states, steps, n, school, user)
    decreases n
  {
    if n > 0 {
      hide Run, KeyMatches, ListedRight;
      ListingIff(states, steps, n - 1, school, user) by { RunLength(states, steps); }
      RunLength(states, steps);
      ListedRightStep(states, steps, n - 1, school, user);
    }
  }

  lemma {:induction false} RunLength(states: seq<Store>, steps: seq<Step>)
    requires Run(states, steps)
    ensures |states| == |steps| + 1
  {
  }

  // ----- Reports beside snapshots ----------------------------------------------------------

  /** The increments and decrements among the steps. */
  function Operations(steps: seq<Step>): seq<Operation> {
    if steps == [] then []
    else
      var earlier, last := Operations(steps[..|steps| - 1]), steps[|steps| - 1];
      if last.Write? && last.command.Script? then earlier + [last.command.op] else earlier
  }

  lemma {:induction false} OperationsStep(steps: seq<Step>, n: nat)
    requires n < |steps|
    ensures Operations(steps[..n + 1]) ==
            if steps[n].Write? && steps[n].command.Script? then Operations(steps[..n]) + [steps[n].command.op]
            else Operations(steps[..n])
  {
    assert steps[..n + 1][..n] == steps[..n];
  }

  lemma {:induction false} SocketsStep(ops: seq<Operation>, op: Operation)
    ensures SocketsAfter(ops + [op]) == Presence.Step(SocketsAfter(ops), op)
  {
    assert (ops + [op])[..|ops|] == ops;
  }

  /** Snapshots and refreshes leave the sockets to the increments and decrements. */
  lemma {:induction false} SocketsOfRun(states: seq<Store>, steps: seq<Step>, n: nat, school: School, user: User)
    requires Run(states, steps) && n < |states|
    ensures OpenSockets(states[n].redis.sockets, school, user) == OpenSockets(SocketsAfter(Operations(steps[..n])), school, user)
    decreases n
  {
    RunLength(states, steps);
    if n == 0 {
      assert steps[..0] == [];
    } else {
      var s, step := states[n - 1], steps[n - 1];
      SocketsOfRun(states, steps, n - 1, school, user);
      ListingIff(states, steps, n - 1, school, user);
      RunStep(states, steps, n - 1);
      OperationsStep(steps, n - 1);
      hide Run, ListedRight, OpenSockets, SocketsAfter, Operations, Presence.Step, RunCommand, Next, SocketsOf;
      NextRedis(s, step);
      if CommandOf(s, step).Some? {
        CommandEffect(s.redis, CommandOf(s, step).value, school, user);
      }
      if step.Write? && step.command.Script? {
        SocketsStep(Operations(steps[..n - 1]), step.command.op);
        StepSockets(SocketsAfter(Operations(steps[..n - 1])), step.command.op, school, user);
      }
    }
  }

  /** The transitions the scripts report for one user in a run, oldest first. */
  function Reported(states: seq<Store>, steps: seq<Step>, n: nat, school: School, user: User): seq<Transition>
    requires n <= |steps| < |states|
  {
    if n == 0 then []
    else
      var earlier, step := Reported(states, steps, n - 1, school, user), steps[n - 1];
      if step.Write? && step.command.Script? && step.command.op.school == school && step.command.op.user == user then
        Extended(earlier, ScriptReport(states[n - 1].redis, step.command.op))
      else earlier
  }

  lemma {:induction false} TransitionsOfAppend(ops: seq<Operation>, op: Operation, school: School, user: User)
    ensures Transitions(ops + [op], school, user) ==
            if op.school == school && op.user == user then
              Extended(Transitions(ops, school, user), ScriptReport(RunAll(ops), op))
            else Transitions(ops, school, user)
  {
    assert (ops + [op])[..|ops|] == ops;
  }

  /** A script reports the same beside snapshots as without them. */
  lemma {:induction false} SameReport(states: seq<Store>, steps: seq<Step>, n: nat, op: Operation)
    requires Run(states, steps) && n < |states|
    ensures ScriptReport(states[n].redis, op) == ScriptReport(RunAll(Operations(steps[..n])), op)
  {
    var ops := Operations(steps[..n]);
    SocketsOfRun(states, steps, n, op.school, op.user);
    RunRefines(ops);
    hide Run, RunAll, SocketsAfter, Operations, ScriptReport, RedisConsistent, OpenSockets;
    ReportedByScript(states[n].redis, op);
    ReportedByScript(RunAll(ops), op);
    assert OpenSockets(RunAll(ops).sockets, op.school, op.user) == OpenSockets(SocketsAfter(ops), op.school, op.user);
  }

  /** Beside snapshots and refreshes, reported transitions still alternate and tell whether a socket is open. */
  lemma {:induction false} ReportedAlternates(states: seq<Store>, steps: seq<Step>, n: nat, school: School, user: User)
    requires Run(states, steps) && n <= |steps|
    ensures n < |states| && Reported(states, steps, n, school, user) == Transitions(Operations(steps[..n]), school, user)
    ensures Alternating(Reported(states, steps, n, school, user))
    ensures |Reported(states, steps, n, school, user)| % 2 == 1 <==> Open(states[n].redis, school, user)
    decreases n
  {
    RunLength(states, steps);
    SameReports(states, steps, n, school, user);
    SocketsOfRun(states, steps, n, school, user);
    TransitionsAlternate(Operations(steps[..n]), school, user);
    hide Run, Reported, Transitions, Alternating, SocketsAfter, OpenSockets;
  }

  lemma {:induction false} ReportedStep(states: seq<Store>, steps: seq<Step>, n: nat, school: School, user: User)
    requires n < |steps| < |states|
    ensures Reported(states, steps, n + 1, school, user) ==
            var earlier, step := Reported(states, steps, n, school, user), steps[n];
            if step.Write? && step.command.Script? && step.command.op.school == school && step.command.op.user == user then
              Extended(earlier, ScriptReport(states[n].redis, step.command.op))
            else earlier
  {
    hide ScriptReport, Extended;
  }

  lemma {:induction false} SameReports(states: seq<Store>, steps: seq<Step>, n: nat, school: School, user: User)
    requires Run(states, steps) && n <= |steps| < |states|
    ensures Reported(states, steps, n, school, user) == Transitions(Operations(steps[..n]), school, user)
    decreases n
  {
    if n == 0 {
      assert steps[..0] == [];
    } else {
      hide Run, Transitions, Operations, ScriptReport, Extended, Reported;
      SameReports(states, steps, n - 1, school, user);
      OperationsStep(steps, n - 1);
      ReportedStep(states, steps, n - 1, school, user);
      var step := steps[n - 1];
      if step.Write? && step.command.Script? {
        SameReport(states, steps, n - 1, step.command.op);
        TransitionsOfAppend(Operations(steps[..n - 1]), step.command.op, school, user);
      }
    }
  }

  // ----- What a snapshot reports -----------------------------------------------------------

  predicate Reads(step: Step, id: nat, user: User) {
    step.ReadKey? && step.id == id && step.user == user
  }

  /** The read got an answer, and the user was online. */
  predicate SawOnline(s: Store, step: Step, school: School, user: User) {
    step.ReadKey? && step.answered && Open(s.redis, school, user)
  }

  /** The snapshot read the user's key between `i` and `n`. */
  ghost predicate WasRead(states: seq<Store>, steps: seq<Step>, i: nat, n: nat, id: nat, user: User)
    requires n <= |steps| < |states|
  {
    exists k :: i < k < n && Reads(steps[k], id, user)
  }

  /** Whenever it did, it saw the user online or not, as `online` says. */
  ghost predicate ReadsSay(states: seq<Store>, steps: seq<Step>, i: nat, n: nat, id: nat, school: School, user: User, online: bool)
    requires n <= |steps| < |states|
  {
    forall k :: i < k < n && Reads(steps[k], id, user) ==> SawOnline(states[k], steps[k], school, user) == online
  }

  /** Where a snapshot stands with one user: not listed when it began, unread, found online, or found stale. */
  ghost predicate UserRight(states: seq<Store>, steps: seq<Step>, i: nat, n: nat, id: nat, school: School, user: User)
    requires i < n <= |steps| < |states|
  {
    && id in states[n].readers
    && var reader := states[n].readers[id];
       var read := WasRead(states, steps, i, n, id, user);
       && reader.school == school
       && (user in reader.pending <==> Listed(states[i].redis, school, user) && !read)
       && (user in reader.found <==> Listed(states[i].redis, school, user) && read && ReadsSay(states, steps, i, n, id, school, user, true))
       && (user in reader.stale <==> Listed(states[i].redis, school, user) && read && ReadsSay(states, steps, i, n, id, school, user, false))
       && (read ==> user in reader.found || user in reader.stale)
  }

  lemma {:induction false} WasReadStep(states: seq<Store>, steps: seq<Step>, i: nat, n: nat, id: nat, user: User)
    requires i < n < |steps| < |states|
    ensures WasRead(states, steps, i, n + 1, id, user) <==> WasRead(states, steps, i, n, id, user) || Reads(steps[n], id, user)
  {
  }

  lemma {:induction false} ReadsSayStep(
      states: seq<Store>, steps: seq<Step>, i: nat, n: nat, id: nat, school: School, user: User, online: bool)
    requires i < n < |steps| < |states|
    ensures ReadsSay(states, steps, i, n + 1, id, school, user, online) <==>
              && ReadsSay(states, steps, i, n, id, school, user, online)
              && (Reads(steps[n], id, user) ==> SawOnline(states[n], steps[n], school, user) == online)
  {
    hide Open;
  }

  lemma {:induction false} NeverRead(
      states: seq<Store>, steps: seq<Step>, i: nat, n: nat, id: nat, school: School, user: User, online: bool)
    requires n <= |steps| < |states| && !WasRead(states, steps, i, n, id, user)
    ensures ReadsSay(states, steps, i, n, id, school, user, online)
  {
  }

  /** What a step does to the reader of one snapshot, for one user. */
  lemma {:induction false} ReaderNext(s: Store, step: Step, id: nat, user: User)
    requires Enabled(s, step) && id in s.readers
    ensures id in Next(s, step).readers
    ensures var reader, next := s.readers[id], Next(s, step).readers[id];
            && next.school == reader.school
            && (!Reads(step, id, user) ==>
                  && (user in next.pending <==> user in reader.pending)
                  && (user in next.found <==> user in reader.found)
                  && (user in next.stale <==> user in reader.stale))
    ensures var reader, next := s.readers[id], Next(s, step).readers[id];
            Reads(step, id, user) ==>
              var seen := step.answered && UserKey(reader.school, user) in s.redis.userKeys;
              && user in reader.pending && user !in next.pending
              && (user in next.found <==> user in reader.found || seen)
              && (user in next.stale <==> user in reader.stale || !seen)
  {
    hide RunCommand;
  }

  lemma {:induction false} UserStep(
      states: seq<Store>, steps: seq<Step>, i: nat, n: nat, id: nat, school: School, user: User)
    requires Run(states, steps) && i < n < |steps| < |states|
    requires UserRight(states, steps, i, n, id, school, user)
    ensures UserRight(states, steps, i, n + 1, id, school, user)
  {
    RunStep(states, steps, n);
    ListingIff(states, steps, n, school, user);
    ReaderNext(states[n], steps[n], id, user);
    WasReadStep(states, steps, i, n, id, user);
    ReadsSayStep(states, steps, i, n, id, school, user, true);
    ReadsSayStep(states, steps, i, n, id, school, user, false);
    if !WasRead(states, steps, i, n, id, user) {
      NeverRead(states, steps, i, n, id, school, user, true);
      NeverRead(states, steps, i, n, id, school, user, false);
    }
    hide Run, Next, Enabled, Open, Listed, WasRead, ReadsSay, ListedRight;
  }

  lemma {:induction false} UserAlways(
      states: seq<Store>, steps: seq<Step>, i: nat, n: nat, id: nat, school: School, user: User)
    requires Run(states, steps) && i < n <= |steps| < |states| && steps[i] == ListUsers(id, school)
    ensures UserRight(states, steps, i, n, id, school, user)
    decreases n
  {
    if n == i + 1 {
      RunStep(states, steps, i);
      hide Open;
    } else {
      UserAlways(states, steps, i, n - 1, id, school, user);
      hide UserRight, Run;
      UserStep(states, steps, i, n - 1, id, school, user);
    }
  }

  /**
   Once a snapshot has read every key, it reports exactly the users that were open and not dropped
   when it listed them, and seen online when it read their keys.
   */
  lemma {:induction false} SnapshotReports(
      states: seq<Store>, steps: seq<Step>, i: nat, n: nat, id: nat, school: School, user: User)
    requires Run(states, steps) && i < n <= |steps| < |states| && steps[i] == ListUsers(id, school)
    requires id in states[n].readers && states[n].readers[id].pending == {}
    ensures user in states[n].readers[id].found <==>
              && Open(states[i].redis, school, user) && !Dropped(states, steps, i, school, user)
              && ReadsSay(states, steps, i, n, id, school, user, true)
  {
    UserAlways(states, steps, i, n, id, school, user);
    ListingIff(states, steps, i, school, user);
    hide Run, Open, Dropped, WasRead, ReadsSay;
  }

  /** The timestamp reported is the one the user's key held when it was read. */
  ghost predicate ReportsKeyRead(states: seq<Store>, steps: seq<Step>, i: nat, n: nat, id: nat, school: School, user: User, at: int)
    requires n <= |steps| < |states|
  {
    exists k :: i < k < n && Reads(steps[k], id, user) && KeyOf(states[k].redis, school, user) == Some(at)
  }

  lemma {:induction false} FoundNext(s: Store, step: Step, id: nat, user: User)
    requires Enabled(s, step) && id in s.readers && user in Next(s, step).readers[id].found
    ensures var reader, next := s.readers[id], Next(s, step).readers[id];
            || (user in reader.found && next.found[user] == reader.found[user])
            || (Reads(step, id, user) && KeyOf(s.redis, reader.school, user) == Some(next.found[user]))
  {
    hide RunCommand;
  }

  lemma {:induction false} ReaderThere(
      states: seq<Store>, steps: seq<Step>, i: nat, n: nat, id: nat, school: School)
    requires Run(states, steps) && i < n <= |steps| < |states| && steps[i] == ListUsers(id, school)
    ensures id in states[n].readers && states[n].readers[id].school == school
    ensures n == i + 1 ==> states[n].readers[id].found == map[]
  {
    UserAlways(states, steps, i, n, id, school, "");
    RunStep(states, steps, i);
    hide Run, WasRead, ReadsSay, Listed;
  }

  lemma {:induction false} SnapshotTimestamps(
      states: seq<Store>, steps: seq<Step>, i: nat, n: nat, id: nat, school: School, user: User)
    requires Run(states, steps) && i < n <= |steps| < |states| && steps[i] == ListUsers(id, school)
    requires id in states[n].readers && user in states[n].readers[id].found
    ensures ReportsKeyRead(states, steps, i, n, id, school, user, states[n].readers[id].found[user])
    decreases n
  {
    ReaderThere(states, steps, i, n, id, school);
    ReaderThere(states, steps, i, n - if n > i + 1 then 1 else 0, id, school);
    RunStep(states, steps, n - 1);
    hide Next, Run, Enabled, Reads, KeyOf;
    FoundNext(states[n - 1], steps[n - 1], id, user);
    var before, at := states[n - 1].readers[id], states[n].readers[id].found[user];
    if user in before.found && before.found[user] == at {
      SnapshotTimestamps(states, steps, i, n - 1, id, school, user);
    }
  }

  // ----- When a removal of stale ids goes wrong --------------------------------------------

  predicate ComesOnline(step: Step, school: School, user: User) {
    && step.Write? && step.command.Script? && step.command.op.Increment?
    && step.command.op.school == school && step.command.op.user == user
  }

  /** The user comes online, again or not, between two moments of a run. */
  ghost predicate CameBack(steps: seq<Step>, k: nat, n: nat, school: School, user: User)
    requires n <= |steps|
  {
    exists j :: k < j < n && ComesOnline(steps[j], school, user)
  }

  lemma {:induction false} OpensByIncrement(states: seq<Store>, steps: seq<Step>, n: nat, school: School, user: User)
    requires Run(states, steps) && n < |steps| < |states|
    requires !Open(states[n].redis, school, user) && Open(states[n + 1].redis, school, user)
    ensures ComesOnline(steps[n], school, user)
  {
    RunStep(states, steps, n);
    ListingIff(states, steps, n, school, user);
    var s, step := states[n], steps[n];
    NextRedis(s, step);
    hide Run, RunCommand, Next, ListedRight, OpenSockets, Members;
    if CommandOf(s, step).Some? {
      CommandEffect(s.redis, CommandOf(s, step).value, school, user);
    }
  }

  lemma {:induction false} OpenedBetween(states: seq<Store>, steps: seq<Step>, k: nat, n: nat, school: School, user: User)
    requires Run(states, steps) && k < n <= |steps| < |states| && steps[k].ReadKey?
    requires !Open(states[k].redis, school, user) && Open(states[n].redis, school, user)
    ensures CameBack(steps, k, n, school, user)
    decreases n
  {
    hide Run, Open, ComesOnline;
    if !Open(states[n - 1].redis, school, user) {
      OpensByIncrement(states, steps, n - 1, school, user);
      assert n - 1 != k by { ReadIsNoIncrement(steps[k], school, user); }
    } else {
      OpenedBetween(states, steps, k, n - 1, school, user);
      var j :| k < j < n - 1 && ComesOnline(steps[j], school, user);
    }
  }

  lemma {:induction false} ReadIsNoIncrement(step: Step, school: School, user: User)
    requires step.ReadKey?
    ensures !ComesOnline(step, school, user)
  {
  }

  /** The snapshot got no answer for the user's key, or read it while offline and the user has come back since. */
  ghost predicate ReadTooEarly(states: seq<Store>, steps: seq<Step>, i: nat, n: nat, id: nat, school: School, user: User)
    requires n <= |steps| < |states|
  {
    exists k :: i < k < n && Reads(steps[k], id, user)
      && (!steps[k].answered || (!Open(states[k].redis, school, user) && CameBack(steps, k, n, school, user)))
  }

  /**
   The removal of stale ids takes an online user off the list exactly when that snapshot had listed
   the user and either got no answer for its key, or read it offline and the user has come back since.
   */
  lemma {:induction false} DropsOnlineIff(states: seq<Store>, steps: seq<Step>, i: nat, n: nat, school: School, user: User)
    requires Run(states, steps) && i < n < |steps| < |states|
    requires steps[n].RemoveStale? && steps[i] == ListUsers(steps[n].id, school)
    requires Open(states[n].redis, school, user)
    ensures StepDrops(states[n], steps[n], school, user) <==>
              Listed(states[i].redis, school, user) && ReadTooEarly(states, steps, i, n, steps[n].id, school, user)
  {
    var id := steps[n].id;
    UserAlways(states, steps, i, n, id, school, user);
    hide Run, Open, Listed, CameBack;
    if user in states[n].readers[id].stale {
      var k :| i < k < n && Reads(steps[k], id, user);
      if steps[k].answered {
        OpenedBetween(states, steps, k, n, school, user);
      }
    }
  }

  /** One user goes offline and comes back while a snapshot is under way. */
  function Race(school: School, user: User): seq<Step> {
    [Write(Script(Increment(school, user, "a", 0, 60))), ListUsers(0, school),
     Write(Script(Decrement(school, user, "a", 1))), ReadKey(0, user, true),
     Write(Script(Increment(school, user, "b", 2, 60))), RemoveStale(0), ListUsers(1, school)]
  }

  /** The Redis state with one socket of that user, or none, and the user listed or not. */
  function Alone(school: School, user: User, sockets: set<Socket>, at: int, listed: bool): Redis {
    var key := UserKey(school, user);
    Redis(if sockets == {} then map[] else map[key := sockets], if sockets == {} then map[] else map[key := at],
          map[school := if listed then {user} else {}])
  }

  function RaceReader(school: School, user: User, k: nat): Reader {
    Reader(school, if k < 4 then {user} else {}, map[], if k < 4 then {} else {user}, k >= 6)
  }

  function RaceRedis(school: School, user: User, k: nat): Redis {
    if k == 0 then Redis(map[], map[], map[])
    else if k <= 2 then Alone(school, user, {"a"}, 0, true)
    else if k <= 4 then Alone(school, user, {}, 0, false)
    else Alone(school, user, {"b"}, 2, k == 5)
  }

  function RaceReaders(school: School, user: User, k: nat): map<nat, Reader> {
    if k < 2 then map[]
    else if k < 7 then map[0 := RaceReader(school, user, k)]
    else map[0 := RaceReader(school, user, k), 1 := Reader(school, {}, map[], {}, false)]
  }

  function RaceStates(school: School, user: User): (states: seq<Store>)
    ensures |states| == 8
  {
    seq(8, k requires 0 <= k < 8 => Store(RaceRedis(school, user, k), RaceReaders(school, user, k)))
  }

  lemma {:induction false} RaceIncrement(school: School, user: User, k: nat)
    requires k == 0 || k == 4
    ensures RunCommand(RaceRedis(school, user, k), Race(school, user)[k].command) == RaceRedis(school, user, k + 1)
  {
    assert {} + {"a"} == {"a"} && {} + {"b"} == {"b"};
  }

  lemma {:induction false} RaceDecrement(school: School, user: User)
    ensures RunCommand(RaceRedis(school, user, 2), Script(Decrement(school, user, "a", 1))) == RaceRedis(school, user, 3)
  {
    var r, op := RaceRedis(school, user, 2), Decrement(school, user, "a", 1);
    assert OpenSockets(r.sockets, school, user) - {op.socket} == {};
    LastSocketScript(r, op);
    hide RunCommand;
    assert r.sockets - {UserKey(school, user)} == map[] && r.userKeys - {UserKey(school, user)} == map[];
    assert Members(r.users, school) - {user} == {};
    assert r.users[school := {}] == map[school := {}];
  }

  lemma {:induction false} RaceWrites(school: School, user: User, k: nat)
    requires k == 0 || k == 2 || k == 4
    ensures Next(RaceStates(school, user)[k], Race(school, user)[k]) == RaceStates(school, user)[k + 1]
  {
    hide RunCommand, RaceRedis;
    if k == 2 {
      RaceDecrement(school, user);
    } else {
      RaceIncrement(school, user, k);
    }
  }

  lemma {:induction false} RaceReads(school: School, user: User, k: nat)
    requires k == 1 || k == 3 || k == 6
    ensures Next(RaceStates(school, user)[k], Race(school, user)[k]) == RaceStates(school, user)[k + 1]
  {
    hide RunCommand;
    assert {user} - {user} == {};
    assert {} + {user} == {user};
  }

  lemma {:induction false} RaceRemoves(school: School, user: User)
    ensures Next(RaceStates(school, user)[5], RemoveStale(0)) == RaceStates(school, user)[6]
  {
    assert {user} - {user} == {};
  }

  lemma {:induction false} RaceEnabled(school: School, user: User, k: nat)
    requires k < 7
    ensures Enabled(RaceStates(school, user)[k], Race(school, user)[k])
  {
  }

  lemma {:induction false} RaceStep(school: School, user: User, k: nat)
    requires k < 7
    ensures Enabled(RaceStates(school, user)[k], Race(school, user)[k])
    ensures Next(RaceStates(school, user)[k], Race(school, user)[k]) == RaceStates(school, user)[k + 1]
  {
    RaceEnabled(school, user, k);
    hide Next, Enabled, RaceRedis, RaceReaders;
    if k % 2 == 0 && k < 6 {
      RaceWrites(school, user, k);
    } else if k == 5 {
      RaceRemoves(school, user);
    } else {
      RaceReads(school, user, k);
    }
  }

  /**
   In this run the user ends with an open socket and a key, yet unlisted, and the next snapshot
   leaves it out.
   */
  lemma {:induction false} OnlineUserUnlisted(school: School, user: User)
    ensures var states, steps := RaceStates(school, user), Race(school, user);
            && Run(states, steps)
            && Open(states[6].redis, school, user) && UserKey(school, user) in states[6].redis.userKeys
            && !Listed(states[6].redis, school, user)
            && 1 in states[7].readers && states[7].readers[1].pending == {} && user !in states[7].readers[1].found
  {
    var states, steps := RaceStates(school, user), Race(school, user);
    assert states[0] == EmptyStore;
    forall k | 0 <= k < 7
      ensures Enabled(states[k], steps[k]) && states[k + 1] == Next(states[k], steps[k])
    {
      RaceStep(school, user, k);
    }
    hide Next, Enabled;
    assert states[6].redis == RaceRedis(school, user, 6) && states[7].readers == RaceReaders(school, user, 7);
  }
}
