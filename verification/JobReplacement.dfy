/**
 Ensuring a queue job from persisted truth (bullmq.service.ts), as a state machine cut at every
 await: any number of callers, workers and producers interleave over the same Redis state.

 Assumed of the queue: adding a job whose id exists changes nothing; a finished job leaves only
 through this protocol; lock tokens are unique; and a lock lease never runs out while the call that
 took the lock is still between taking and releasing it. A command that fails may have taken effect
 before, but takes effect at most once and not later.
 */
module JobReplacement {

  type JobId = string

  /** A call, which is also the token it writes into a lock it takes. */
  type CallId = nat

  datatype Answer = Created | Preserved | Replaced | Contended | Failed

  /** Where a call stands: the command it will issue next. */
  datatype Pc =
    | FirstLookup
    | FirstAdd
    | FirstState
    | TakeLock
    | SecondLookup
    | SecondState
    | RemoveFinished
    | ThirdLookup
    | SecondAdd
    | ReleaseLock(pending: Answer)
    | Answered(answer: Answer)
    | Dead

  /** `seen` remembers whether the job was present at some moment since the call began. */
  datatype Call = Call(job: JobId, pc: Pc, seen: bool)

  /** Jobs present, each finished or not; locks held, each with its token; calls made. */
  datatype State = State(jobs: map<JobId, bool>, locks: map<JobId, CallId>, calls: map<CallId, Call>)

  datatype Step =
    | Begin(call: CallId, job: JobId)
    | Advance(call: CallId)
    | Throw(call: CallId, applied: bool)
    | Crash(call: CallId)
    | Produce(job: JobId)
    | Finish(job: JobId)
    | Expire(job: JobId)

  const Empty := State(map[], map[], map[])

  // ----- One command -----------------------------------------------------------------------

  function AddIfAbsent(jobs: map<JobId, bool>, job: JobId): map<JobId, bool> {
    if job in jobs then jobs else jobs[job := false]
  }

  predicate IsFinished(s: State, job: JobId) {
    job in s.jobs && s.jobs[job]
  }

  /** The next command of a call: new jobs, new locks, where the call continues. */
  function Command(s: State, c: CallId, call: Call): (map<JobId, bool>, map<JobId, CallId>, Pc) {
    var job := call.job;
    match call.pc
    case FirstLookup => (s.jobs, s.locks, if job in s.jobs then FirstState else FirstAdd)
    case FirstAdd => (AddIfAbsent(s.jobs, job), s.locks, Answered(Created))
    case FirstState => (s.jobs, s.locks, if IsFinished(s, job) then TakeLock else Answered(Preserved))
    case TakeLock =>
      if job in s.locks then (s.jobs, s.locks, Answered(Contended))
      else (s.jobs, s.locks[job := c], SecondLookup)
    case SecondLookup => (s.jobs, s.locks, if job in s.jobs then SecondState else ThirdLookup)
    case SecondState => (s.jobs, s.locks, if IsFinished(s, job) then RemoveFinished else ReleaseLock(Preserved))
    case RemoveFinished => (s.jobs - {job}, s.locks, ThirdLookup)
    case ThirdLookup => (s.jobs, s.locks, if job in s.jobs then ReleaseLock(Preserved) else SecondAdd)
    case SecondAdd => (AddIfAbsent(s.jobs, job), s.locks, ReleaseLock(Replaced))
    case ReleaseLock(pending) =>
      (s.jobs, if job in s.locks && s.locks[job] == c then s.locks - {job} else s.locks, Answered(pending))
    case Answered(_) => (s.jobs, s.locks, call.pc)
    case Dead => (s.jobs, s.locks, call.pc)
  }

  predicate Running(pc: Pc) {
    !pc.Answered? && !pc.Dead?
  }

  /** Between taking the lock and releasing it. */
  predicate Critical(pc: Pc) {
    pc.SecondLookup? || pc.SecondState? || pc.RemoveFinished? || pc.ThirdLookup? || pc.SecondAdd? || pc.ReleaseLock?
  }

  /**
   Where a call continues when its command fails, whether or not it was applied before the reply
   was lost: through `finally` once it holds the lock.
   */
  function AfterThrow(pc: Pc): Pc {
    if Critical(pc) && !pc.ReleaseLock? then ReleaseLock(Failed) else Answered(Failed)
  }

  predicate Holds(s: State, c: CallId, job: JobId) {
    c in s.calls && s.calls[c].job == job && Critical(s.calls[c].pc)
  }

  predicate Enabled(s: State, step: Step) {
    match step
    case Begin(c, _) => c !in s.calls
    case Advance(c) => c in s.calls && Running(s.calls[c].pc)
    case Throw(c, _) => c in s.calls && Running(s.calls[c].pc)
    case Crash(c) => c in s.calls && Running(s.calls[c].pc)
    case Produce(_) => true
    case Finish(job) => job in s.jobs
    case Expire(job) => job in s.locks && !Holds(s, s.locks[job], job)
  }

  /** A step that touches jobs lets every call on a present job notice that it was present. */
  function Witness(calls: map<CallId, Call>, before: map<JobId, bool>, after: map<JobId, bool>): map<CallId, Call> {
    map c | c in calls ::
      calls[c].(seen := calls[c].seen || calls[c].job in before || calls[c].job in after)
  }

  function Apply(s: State, step: Step): State {
    match step
    case Begin(c, job) => s.(calls := s.calls[c := Call(job, FirstLookup, false)])
    case Advance(c) =>
      if c !in s.calls then s else
      var call := s.calls[c];
      var (jobs, locks, pc) := Command(s, c, call);
      State(jobs, locks, Witness(s.calls[c := call.(pc := pc)], s.jobs, jobs))
    case Throw(c, applied) =>
      if c !in s.calls then s else
      var call := s.calls[c];
      var (jobs, locks, _) := if applied then Command(s, c, call) else (s.jobs, s.locks, call.pc);
      State(jobs, locks, Witness(s.calls[c := call.(pc := AfterThrow(call.pc))], s.jobs, jobs))
    case Crash(c) => if c !in s.calls then s else s.(calls := s.calls[c := s.calls[c].(pc := Dead)])
    case Produce(job) =>
      var jobs := AddIfAbsent(s.jobs, job);
      State(jobs, s.locks, Witness(s.calls, s.jobs, jobs))
    case Finish(job) => if job in s.jobs then s.(jobs := s.jobs[job := true]) else s
    case Expire(job) => s.(locks := s.locks - {job})
  }

  // ----- Runs ------------------------------------------------------------------------------

  /** The state after the steps. */
  function Replay(steps: seq<Step>): State {
    if steps == [] then Empty else Apply(Replay(steps[..|steps| - 1]), steps[|steps| - 1])
  }

  /** Each step was enabled when it was taken. */
  predicate Legal(steps: seq<Step>) {
    steps != [] ==>
      Legal(steps[..|steps| - 1]) && Enabled(Replay(steps[..|steps| - 1]), steps[|steps| - 1])
  }

  // ----- The invariant ---------------------------------------------------------------------

  /** A call in its critical section owns the lock, and where it relies on a finished job, there is one. */
  predicate CallInvariant(s: State, c: CallId) {
    c in s.calls ==>
      var call := s.calls[c];
      && (Critical(call.pc) ==> call.job in s.locks && s.locks[call.job] == c)
      && (call.pc.RemoveFinished? ==> IsFinished(s, call.job))
      && (call.pc.ReleaseLock? ==> call.pc.pending in {Preserved, Replaced, Failed})
      && (call.pc.FirstState? || call.pc.TakeLock? || Critical(call.pc) ==> call.seen)
      && (call.pc.Answered? && (call.pc.answer.Created? || call.pc.answer.Preserved? || call.pc.answer.Replaced?) ==> call.seen)
  }

  ghost predicate Invariant(s: State) {
    forall c :: CallInvariant(s, c)
  }

  lemma {:induction false} StepKeepsInvariant(s: State, step: Step)
    requires Invariant(s) && Enabled(s, step)
    ensures Invariant(Apply(s, step))
  {
    forall c
      ensures CallInvariant(Apply(s, step), c)
    {
      assert CallInvariant(s, c);
      match step
      case Advance(d) => AdvanceKeeps(s, d, c);
      case Throw(d, applied) => ThrowKeeps(s, d, applied, c);
      case _ =>
    }
  }

  lemma {:induction false} AdvanceKeeps(s: State, d: CallId, c: CallId)
    requires Invariant(s) && Enabled(s, Advance(d))
    ensures CallInvariant(Apply(s, Advance(d)), c)
  {
    assert CallInvariant(s, c) && CallInvariant(s, d);
  }

  lemma {:induction false} ThrowKeeps(s: State, d: CallId, applied: bool, c: CallId)
    requires Invariant(s) && Enabled(s, Throw(d, applied))
    ensures CallInvariant(Apply(s, Throw(d, applied)), c)
  {
    assert CallInvariant(s, c) && CallInvariant(s, d);
  }

  lemma {:induction false} RunsKeepInvariant(steps: seq<Step>)
    requires Legal(steps)
    ensures Invariant(Replay(steps))
    decreases |steps|
  {
    if steps != [] {
      RunsKeepInvariant(steps[..|steps| - 1]);
      StepKeepsInvariant(Replay(steps[..|steps| - 1]), steps[|steps| - 1]);
    }
  }

  // ----- Safety over whole runs ------------------------------------------------------------

  /** The call whose command a step applies. */
  predicate Commands(step: Step, c: CallId) {
    step == Advance(c) || step == Throw(c, true)
  }

  /** No step of any run removes a job that is not finished, and only its lock holder removes one. */
  lemma {:induction false} OnlyFinishedJobsRemoved(steps: seq<Step>, s: State, step: Step, job: JobId)
    requires Legal(steps) && s == Replay(steps) && Enabled(s, step)
    requires job in s.jobs && job !in Apply(s, step).jobs
    ensures s.jobs[job]
    ensures exists c :: Commands(step, c) && Holds(s, c, job) && job in s.locks && s.locks[job] == c
  {
    RunsKeepInvariant(steps);
    assert step.Advance? || step.Throw?;
    assert Commands(step, step.call);
    assert CallInvariant(s, step.call);
  }

  /** A lock leaves only by the call whose token it carries, or by its lease when nobody holds it. */
  lemma {:induction false} OnlyOwnerReleases(steps: seq<Step>, s: State, step: Step, job: JobId)
    requires Legal(steps) && s == Replay(steps) && Enabled(s, step)
    requires job in s.locks && (job !in Apply(s, step).locks || Apply(s, step).locks[job] != s.locks[job])
    ensures Commands(step, s.locks[job]) || (step == Expire(job) && !Holds(s, s.locks[job], job))
  {
    RunsKeepInvariant(steps);
    if step.Advance? || step.Throw? {
      assert CallInvariant(s, step.call);
    }
  }

  /** Two calls are never replacing the same job at once. */
  lemma {:induction false} MutualExclusion(steps: seq<Step>, s: State, c: CallId, d: CallId, job: JobId)
    requires Legal(steps) && s == Replay(steps) && Holds(s, c, job) && Holds(s, d, job)
    ensures c == d
  {
    RunsKeepInvariant(steps);
    assert CallInvariant(s, c) && CallInvariant(s, d);
  }

  // ----- Answers follow presence -----------------------------------------------------------

  predicate Promises(pc: Pc) {
    pc.Answered? && (pc.answer.Created? || pc.answer.Preserved? || pc.answer.Replaced?)
  }

  /** When a step turns `seen` on, the job is present before or after the step. */
  lemma {:induction false} SeenIsPresence(s: State, step: Step, c: CallId)
    requires Enabled(s, step) && c in s.calls && !s.calls[c].seen
    ensures c in Apply(s, step).calls
    ensures Apply(s, step).calls[c].seen ==> s.calls[c].job in s.jobs || s.calls[c].job in Apply(s, step).jobs
  {
  }

  /** A call, once begun, keeps its job; once it has ended, it stays as it is. */
  lemma {:induction false} CallKept(s: State, step: Step, c: CallId)
    requires Enabled(s, step) && c in s.calls
    ensures var t := Apply(s, step);
            && c in t.calls && t.calls[c].job == s.calls[c].job
            && (!Running(s.calls[c].pc) ==> t.calls[c].pc == s.calls[c].pc)
  {
  }

  lemma {:induction false} BegunCall(steps: seq<Step>, i: nat, c: CallId, job: JobId)
    requires Legal(steps) && i < |steps| && steps[i] == Begin(c, job)
    ensures c in Replay(steps).calls && Replay(steps).calls[c].job == job
    decreases |steps|
  {
    var front := steps[..|steps| - 1];
    if i < |front| {
      hide Apply, Enabled;
      BegunCall(front, i, c, job);
      CallKept(Replay(front), steps[|front|], c);
    }
  }

  /** A call that has seen its job has a moment since its beginning at which the job was present. */
  lemma {:induction false} SeenMoment(steps: seq<Step>, i: nat, c: CallId, job: JobId) returns (k: nat)
    requires Legal(steps) && i < |steps| && steps[i] == Begin(c, job)
    requires c in Replay(steps).calls && Replay(steps).calls[c].seen
    ensures i < k <= |steps| && job in Replay(steps[..k]).jobs
    decreases |steps|
  {
    var n := |steps| - 1;
    var front := steps[..n];
    assert i < n;
    hide Apply, Enabled;
    BegunCall(front, i, c, job);
    if Replay(front).calls[c].seen {
      k := SeenMoment(front, i, c, job);
      assert front[..k] == steps[..k];
    } else {
      SeenIsPresence(Replay(front), steps[n], c);
      assert steps[..|steps|] == steps;
      k := if job in Replay(steps).jobs then |steps| else n;
    }
  }

  /** The call is under way after the first `j` steps. */
  predicate UnderWay(steps: seq<Step>, j: nat, c: CallId)
    requires j <= |steps|
  {
    c in Replay(steps[..j]).calls && Running(Replay(steps[..j]).calls[c].pc)
  }

  /** A call under way now has been so since it began. */
  lemma {:induction false} UnderWaySince(steps: seq<Step>, i: nat, c: CallId, job: JobId, j: nat, n: nat)
    requires Legal(steps) && i < j <= n <= |steps| && steps[i] == Begin(c, job) && UnderWay(steps, n, c)
    ensures UnderWay(steps, j, c)
    decreases n - j
  {
    if j < n {
      UnderWaySince(steps, i, c, job, j + 1, n);
      var before := steps[..j];
      LegalPrefix(steps, j + 1);
      assert steps[..j + 1][..j] == before;
      BegunCall(before, i, c, job);
      hide Apply, Enabled;
      CallKept(Replay(before), steps[j], c);
    }
  }

  lemma {:induction false} LegalPrefix(steps: seq<Step>, k: nat)
    requires Legal(steps) && k <= |steps|
    ensures Legal(steps[..k])
    decreases |steps|
  {
    if k < |steps| {
      LegalPrefix(steps[..|steps| - 1], k);
      assert steps[..|steps| - 1][..k] == steps[..k];
    } else {
      assert steps[..k] == steps;
    }
  }

  /** The job was present at some moment of the call: after it began and no later than the step that answers it. */
  ghost predicate PresentDuring(steps: seq<Step>, i: nat, c: CallId, job: JobId) {
    exists k :: i < k <= |steps| && job in Replay(steps[..k]).jobs && forall j :: i < j < k ==> UnderWay(steps, j, c)
  }

  /** Every created, preserved or replaced answer follows a moment of that very call when the job was present. */
  lemma {:induction false} AnswersWitnessed(steps: seq<Step>, i: nat, c: CallId, job: JobId)
    requires Legal(steps) && i < |steps| && steps[i] == Begin(c, job)
    requires c in Replay(steps).calls && Promises(Replay(steps).calls[c].pc)
    ensures PresentDuring(steps, i, c, job)
    decreases |steps|
  {
    var n := |steps| - 1;
    var front := steps[..n];
    assert i < n;
    BegunCall(front, i, c, job);
    if Running(Replay(front).calls[c].pc) {
      RunsKeepInvariant(steps);
      assert CallInvariant(Replay(steps), c);
      hide Apply, Enabled, Running, Legal;
      var k := SeenMoment(steps, i, c, job);
      assert UnderWay(steps, n, c);
      forall j | i < j < k
        ensures UnderWay(steps, j, c)
      {
        UnderWaySince(steps, i, c, job, j, n);
      }
    } else {
      CallKept(Replay(front), steps[n], c);
      hide Apply, Enabled, Running;
      AnswersWitnessed(front, i, c, job);
      var k :| i < k <= n && job in Replay(front[..k]).jobs && forall j :: i < j < k ==> UnderWay(front, j, c);
      assert front[..k] == steps[..k];
      forall j | i < j < k
        ensures UnderWay(steps, j, c)
      {
        assert UnderWay(front, j, c);
        assert front[..j] == steps[..j];
      }
    }
  }

  // ----- The lease assumption is needed ----------------------------------------------------

  /** A holder's lease runs out. */
  predicate LeaseLost(s: State, step: Step) {
    step.Expire? && step.job in s.locks && Holds(s, s.locks[step.job], step.job)
  }

  /** When, in the run below, call 0 loses its lease. */
  const LOSS := 8

  /**
   Call 0 goes up to its removal of a finished job and loses its lease; call 1 comes, replaces the job
   up to its release; then call 0 removes the new one.
   */
  function Overtaking(job: JobId): (steps: seq<Step>)
    ensures |steps| == 19
  {
    [Produce(job), Finish(job), Begin(0, job), Advance(0), Advance(0), Advance(0), Advance(0), Advance(0),
     Expire(job), Begin(1, job), Advance(1), Advance(1), Advance(1), Advance(1), Advance(1), Advance(1), Advance(1),
     Advance(1), Advance(0)]
  }

  function FirstPc(k: nat): Pc {
    if k <= 3 then FirstLookup
    else if k == 4 then FirstState
    else if k == 5 then TakeLock
    else if k == 6 then SecondLookup
    else if k == 7 then SecondState
    else RemoveFinished
  }

  function SecondPc(k: nat): Pc
    requires k >= 10
  {
    if k <= 15 then FirstPc(k - 7)
    else if k == 16 then ThirdLookup
    else if k == 17 then SecondAdd
    else ReleaseLock(Replaced)
  }

  function JobsAt(job: JobId, k: nat): map<JobId, bool> {
    if k == 0 || k == 16 || k == 17 then map[] else map[job := 2 <= k < 16]
  }

  function LocksAt(job: JobId, k: nat): map<JobId, CallId> {
    if 6 <= k <= LOSS then map[job := 0] else if k >= 13 then map[job := 1] else map[]
  }

  function CallsAt(job: JobId, k: nat): map<CallId, Call> {
    if k < 3 then map[]
    else if k < 10 then map[0 := Call(job, FirstPc(k), k > 3)]
    else map[0 := Call(job, RemoveFinished, true), 1 := Call(job, SecondPc(k), k > 10)]
  }

  /** The state after the first `k` steps of the run. */
  function Reached(job: JobId, k: nat): State {
    State(JobsAt(job, k), LocksAt(job, k), CallsAt(job, k))
  }

  lemma {:induction false} OvertakingStep(job: JobId, k: nat)
    requires k < 18
    ensures Apply(Reached(job, k), Overtaking(job)[k]) == Reached(job, k + 1)
  {
    hide Apply, Reached;
    if k < 3 {
      Prepared(job, k);
    } else if k < LOSS {
      FirstAdvances(job, k);
    } else if k < 10 {
      TakenOver(job, k);
    } else {
      SecondAdvances(job, k);
    }
  }

  lemma {:induction false} Prepared(job: JobId, k: nat)
    requires k < 3
    ensures Apply(Reached(job, k), Overtaking(job)[k]) == Reached(job, k + 1)
  {
  }

  lemma {:induction false} TakenOver(job: JobId, k: nat)
    requires k == 8 || k == 9
    ensures Apply(Reached(job, k), Overtaking(job)[k]) == Reached(job, k + 1)
  {
  }

  /** One command of a call, on the states of this run. */
  lemma {:induction false} FirstAdvances(job: JobId, k: nat)
    requires 3 <= k < LOSS
    ensures Overtaking(job)[k] == Advance(0) && Apply(Reached(job, k), Advance(0)) == Reached(job, k + 1)
  {
    hide Overtaking;
    assert Overtaking(job)[k] == Advance(0) by { OvertakingAdvances(job, k); }
    assert Command(Reached(job, k), 0, CallsAt(job, k)[0]) == (JobsAt(job, k + 1), LocksAt(job, k + 1), FirstPc(k + 1));
    hide Command;
  }

  lemma {:induction false} OvertakingAdvances(job: JobId, k: nat)
    requires 3 <= k < LOSS || 10 <= k < 18
    ensures Overtaking(job)[k] == Advance(if k < LOSS then 0 else 1)
  {
  }

  lemma {:induction false} SecondCommand(job: JobId, k: nat)
    requires 10 <= k < 18
    ensures Command(Reached(job, k), 1, CallsAt(job, k)[1]) == (JobsAt(job, k + 1), LocksAt(job, k + 1), SecondPc(k + 1))
  {
    if k == 15 {
      assert JobsAt(job, k) - {job} == JobsAt(job, k + 1);
    }
  }

  lemma {:induction false} SecondAdvances(job: JobId, k: nat)
    requires 10 <= k < 18
    ensures Overtaking(job)[k] == Advance(1) && Apply(Reached(job, k), Advance(1)) == Reached(job, k + 1)
  {
    OvertakingAdvances(job, k);
    SecondCommand(job, k);
    hide Command, Overtaking, SecondPc;
  }

  lemma {:induction false} OvertakingReaches(job: JobId, k: nat)
    requires k <= 18
    ensures Replay(Overtaking(job)[..k]) == Reached(job, k)
  {
    if k > 0 {
      hide Apply, Reached, Overtaking;
      OvertakingReaches(job, k - 1);
      OvertakingStep(job, k - 1);
      assert Overtaking(job)[..k][..k - 1] == Overtaking(job)[..k - 1];
    } else {
      assert Overtaking(job)[..0] == [];
    }
  }

  lemma {:induction false} OvertakingEnabled(job: JobId, k: nat)
    requires k < 19 && k != LOSS
    ensures Enabled(Reached(job, k), Overtaking(job)[k])
  {
  }

  /**
   Were a lease allowed to run out under its holder, an unfinished job could be removed: in this run
   from the empty state every step but the single lost lease is enabled, and the last one removes it.
   */
  lemma {:induction false} LeaseNeeded(job: JobId)
    ensures var steps := Overtaking(job);
            && (forall k: nat :: k < |steps| && k != LOSS ==> Enabled(Replay(steps[..k]), steps[k]))
            && LeaseLost(Replay(steps[..LOSS]), steps[LOSS])
            && job in Replay(steps[..18]).jobs && !Replay(steps[..18]).jobs[job]
            && job !in Replay(steps).jobs
  {
    hide Apply, Reached, Overtaking, Enabled, Replay;
    var steps := Overtaking(job);
    forall k: nat | k < |steps| && k != LOSS
      ensures Enabled(Replay(steps[..k]), steps[k])
    {
      OvertakingReaches(job, k);
      OvertakingEnabled(job, k);
    }
    OvertakingReaches(job, LOSS);
    OvertakingReaches(job, 18);
    LastRemoves(job);
    ReplayLast(steps);
  }

  lemma {:induction false} ReplayLast(steps: seq<Step>)
    requires steps != []
    ensures Replay(steps) == Apply(Replay(steps[..|steps| - 1]), steps[|steps| - 1])
  {
  }

  lemma {:induction false} LastRemoves(job: JobId)
    ensures Overtaking(job)[LOSS] == Expire(job) && Overtaking(job)[18] == Advance(0)
    ensures LeaseLost(Reached(job, LOSS), Expire(job))
    ensures job in Reached(job, 18).jobs && !Reached(job, 18).jobs[job]
    ensures job !in Apply(Reached(job, 18), Advance(0)).jobs
  {
  }
}
