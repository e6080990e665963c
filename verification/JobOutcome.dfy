/**
 What a call achieves (bullmq.service.ts): the outcome of a call that runs alone, from any state, and
 exactly when a call that has ended leaves its lock behind.
 */
module JobOutcome {
  import opened JobReplacement

  // ----- A call that runs alone ------------------------------------------------------------

  /** The state after the call `c` has issued its next `n` commands and nothing else has happened. */
  function Alone(s: State, c: CallId, n: nat): State
    decreases n
  {
    if n == 0 then s else Alone(Apply(s, Advance(c)), c, n - 1)
  }

  /** Each of those commands was the next step of a call under way. */
  predicate AloneEnabled(s: State, c: CallId, n: nat)
    decreases n
  {
    n > 0 ==> Enabled(s, Advance(c)) && AloneEnabled(Apply(s, Advance(c)), c, n - 1)
  }

  /** The answer a caller should get, from the job and the lock as they are when the call begins. */
  function Due(s: State, job: JobId): Answer {
    if job !in s.jobs then Created
    else if !s.jobs[job] then Preserved
    else if job in s.locks then Contended
    else Replaced
  }

  /** How many commands that takes. */
  function Commanded(answer: Answer): nat {
    match answer
    case Replaced => 9
    case Contended => 3
    case _ => 2
  }

  /** The call has ended with `answer`; the job is there, unfinished if the call put it there; nothing else changed. */
  predicate Outcome(before: State, after: State, c: CallId, job: JobId, answer: Answer) {
    && c in after.calls && after.calls[c].job == job && after.calls[c].pc == Answered(answer)
    && job in after.jobs
    && after.jobs == (if answer == Created || answer == Replaced then before.jobs[job := false] else before.jobs)
    && after.locks == before.locks
  }

  /** What matters of a state to a call that runs alone. */
  predicate Stands(s: State, c: CallId, job: JobId, pc: Pc, jobs: map<JobId, bool>, locks: map<JobId, CallId>) {
    s.jobs == jobs && s.locks == locks && c in s.calls && s.calls[c].job == job && s.calls[c].pc == pc
  }

  /** One command of a call that runs alone. */
  lemma {:induction false} OneCommand(s: State, c: CallId, job: JobId, pc: Pc, next: Pc, n: nat,
                                      jobs: map<JobId, bool>, locks: map<JobId, CallId>)
    requires c in s.calls && s.calls[c].job == job && s.calls[c].pc == pc && Running(pc) && n > 0
    requires Command(s, c, s.calls[c]) == (jobs, locks, next)
    ensures Stands(Apply(s, Advance(c)), c, job, next, jobs, locks)
    ensures Alone(s, c, n) == Alone(Apply(s, Advance(c)), c, n - 1)
    ensures AloneEnabled(s, c, n) <==> AloneEnabled(Apply(s, Advance(c)), c, n - 1)
  {
    hide Command;
  }

  /** From the lock on: a free lock and a finished job end in a new job and the lock free again. */
  lemma {:induction false} ReplacesAlone(s: State, c: CallId, job: JobId, jobs: map<JobId, bool>, locks: map<JobId, CallId>)
    requires Stands(s, c, job, TakeLock, jobs, locks) && job in jobs && jobs[job] && job !in locks
    ensures AloneEnabled(s, c, 7)
    ensures Stands(Alone(s, c, 7), c, job, Answered(Replaced), jobs[job := false], locks)
  {
    hide Apply, Alone, AloneEnabled;
    var held := locks[job := c];
    OneCommand(s, c, job, TakeLock, SecondLookup, 7, jobs, held);
    var s1 := Apply(s, Advance(c));
    OneCommand(s1, c, job, SecondLookup, SecondState, 6, jobs, held);
    var s2 := Apply(s1, Advance(c));
    OneCommand(s2, c, job, SecondState, RemoveFinished, 5, jobs, held);
    var s3 := Apply(s2, Advance(c));
    RemovesAlone(s3, c, job, jobs, locks);
  }

  lemma {:induction false} RemovesAlone(s: State, c: CallId, job: JobId, jobs: map<JobId, bool>, locks: map<JobId, CallId>)
    requires Stands(s, c, job, RemoveFinished, jobs, locks[job := c]) && job !in locks
    ensures AloneEnabled(s, c, 4)
    ensures Stands(Alone(s, c, 4), c, job, Answered(Replaced), jobs[job := false], locks)
  {
    hide Apply, Alone, AloneEnabled;
    var held := locks[job := c];
    OneCommand(s, c, job, RemoveFinished, ThirdLookup, 4, jobs - {job}, held);
    var s1 := Apply(s, Advance(c));
    OneCommand(s1, c, job, ThirdLookup, SecondAdd, 3, jobs - {job}, held);
    assert (jobs - {job})[job := false] == jobs[job := false];
    AddsAlone(Apply(s1, Advance(c)), c, job, jobs - {job}, locks);
  }

  lemma {:induction false} AddsAlone(s: State, c: CallId, job: JobId, jobs: map<JobId, bool>, locks: map<JobId, CallId>)
    requires Stands(s, c, job, SecondAdd, jobs, locks[job := c]) && job !in jobs && job !in locks
    ensures AloneEnabled(s, c, 2)
    ensures Stands(Alone(s, c, 2), c, job, Answered(Replaced), jobs[job := false], locks)
  {
    hide Apply, Alone, AloneEnabled;
    OneCommand(s, c, job, SecondAdd, ReleaseLock(Replaced), 2, jobs[job := false], locks[job := c]);
    var s1 := Apply(s, Advance(c));
    assert locks[job := c] - {job} == locks;
    OneCommand(s1, c, job, ReleaseLock(Replaced), Answered(Replaced), 1, jobs[job := false], locks);
    AloneDone(Apply(s1, Advance(c)), c, 0);
  }

  /**
   From any state, a call that runs without failure or interference ends with the job present. Its
   answer is created exactly for an absent job, preserved for an unfinished one, replaced for a
   finished one with a free lock, and contended for a finished one whose lock is held.
   */
  lemma {:induction false} AloneOutcome(s: State, c: CallId, job: JobId)
    requires Enabled(s, Begin(c, job))
    ensures var begun := Apply(s, Begin(c, job));
            var n := Commanded(Due(s, job));
            AloneEnabled(begun, c, n) && Outcome(s, Alone(begun, c, n), c, job, Due(s, job))
  {
    hide Alone, AloneEnabled;
    var begun := Apply(s, Begin(c, job));
    assert Stands(begun, c, job, FirstLookup, s.jobs, s.locks);
    hide Apply;
    if job !in s.jobs {
      CreatesAlone(begun, c, job, s.jobs, s.locks);
    } else {
      FindsAlone(begun, c, job, s.jobs, s.locks);
    }
  }

  lemma {:induction false} CreatesAlone(s: State, c: CallId, job: JobId, jobs: map<JobId, bool>, locks: map<JobId, CallId>)
    requires Stands(s, c, job, FirstLookup, jobs, locks) && job !in jobs
    ensures AloneEnabled(s, c, 2)
    ensures Stands(Alone(s, c, 2), c, job, Answered(Created), jobs[job := false], locks)
  {
    hide Apply, Alone, AloneEnabled;
    OneCommand(s, c, job, FirstLookup, FirstAdd, 2, jobs, locks);
    var s1 := Apply(s, Advance(c));
    OneCommand(s1, c, job, FirstAdd, Answered(Created), 1, jobs[job := false], locks);
    AloneDone(Apply(s1, Advance(c)), c, 0);
  }

  lemma {:induction false} FindsAlone(s: State, c: CallId, job: JobId, jobs: map<JobId, bool>, locks: map<JobId, CallId>)
    requires Stands(s, c, job, FirstLookup, jobs, locks) && job in jobs
    ensures var answer := if !jobs[job] then Preserved else if job in locks then Contended else Replaced;
            && AloneEnabled(s, c, Commanded(answer))
            && Stands(Alone(s, c, Commanded(answer)), c, job, Answered(answer),
                      if answer == Replaced then jobs[job := false] else jobs, locks)
  {
    hide Apply, Alone, AloneEnabled;
    var answer := if !jobs[job] then Preserved else if job in locks then Contended else Replaced;
    var n := Commanded(answer);
    OneCommand(s, c, job, FirstLookup, FirstState, n, jobs, locks);
    var s1 := Apply(s, Advance(c));
    if !jobs[job] {
      OneCommand(s1, c, job, FirstState, Answered(Preserved), 1, jobs, locks);
      AloneDone(Apply(s1, Advance(c)), c, 0);
    } else {
      OneCommand(s1, c, job, FirstState, TakeLock, n - 1, jobs, locks);
      var s2 := Apply(s1, Advance(c));
      if job in locks {
        OneCommand(s2, c, job, TakeLock, Answered(Contended), 1, jobs, locks);
        AloneDone(Apply(s2, Advance(c)), c, 0);
      } else {
        ReplacesAlone(s2, c, job, jobs, locks);
      }
    }
  }

  lemma {:induction false} AloneDone(s: State, c: CallId, n: nat)
    ensures n == 0 ==> Alone(s, c, n) == s && AloneEnabled(s, c, n)
  {
  }

  // ----- Locks left behind -----------------------------------------------------------------

  /** The lock on the call's job carries the call's token. */
  predicate Owns(s: State, c: CallId) {
    c in s.calls && s.calls[c].job in s.locks && s.locks[s.calls[c].job] == c
  }

  /**
   The three ways to end and leave the lock: to crash while holding it, to lose the reply of the command
   that took it, or to fail in releasing it.
   */
  predicate LeavesLock(s: State, step: Step, c: CallId) {
    && c in s.calls
    && match step
       case Crash(d) => d == c && Critical(s.calls[c].pc)
       case Throw(d, applied) =>
         && d == c
         && if applied then s.calls[c].pc == TakeLock && s.calls[c].job !in s.locks else s.calls[c].pc.ReleaseLock?
       case _ => false
  }

  /** The lease of the call's lock runs out. */
  predicate LeaseEnds(s: State, step: Step, c: CallId) {
    c in s.calls && step == Expire(s.calls[c].job)
  }

  /** Every token in a lock is that of a call on that job. */
  ghost predicate TokensKnown(s: State) {
    forall job: JobId :: TokenKnown(s, job)
  }

  predicate TokenKnown(s: State, job: JobId) {
    job in s.locks ==> s.locks[job] in s.calls && s.calls[s.locks[job]].job == job
  }

  lemma {:induction false} StepKeepsTokens(s: State, step: Step)
    requires TokensKnown(s) && Enabled(s, step)
    ensures TokensKnown(Apply(s, step))
  {
    forall job: JobId
      ensures TokenKnown(Apply(s, step), job)
    {
      assert TokenKnown(s, job);
      match step
      case Advance(d) => AdvanceKeepsToken(s, d, job);
      case Throw(d, applied) => ThrowKeepsToken(s, d, applied, job);
      case _ =>
    }
  }

  lemma {:induction false} AdvanceKeepsToken(s: State, d: CallId, job: JobId)
    requires TokenKnown(s, job) && Enabled(s, Advance(d))
    ensures TokenKnown(Apply(s, Advance(d)), job)
  {
  }

  lemma {:induction false} ThrowKeepsToken(s: State, d: CallId, applied: bool, job: JobId)
    requires TokenKnown(s, job) && Enabled(s, Throw(d, applied))
    ensures TokenKnown(Apply(s, Throw(d, applied)), job)
  {
  }

  lemma {:induction false} RunKeepsTokens(steps: seq<Step>)
    requires Legal(steps)
    ensures TokensKnown(Replay(steps))
    decreases |steps|
  {
    if steps != [] {
      RunKeepsTokens(steps[..|steps| - 1]);
      StepKeepsTokens(Replay(steps[..|steps| - 1]), steps[|steps| - 1]);
    }
  }

  /** `left` says whether the call has left its lock behind: it owns the lock then, or while it replaces the job. */
  predicate Accounted(s: State, c: CallId, left: bool) {
    && (left ==> c in s.calls && !Running(s.calls[c].pc))
    && (Owns(s, c) <==> left || (c in s.calls && Critical(s.calls[c].pc)))
  }

  lemma {:induction false} StepAccounts(s: State, step: Step, c: CallId, left: bool)
    requires TokensKnown(s) && CallInvariant(s, c) && Enabled(s, step) && Accounted(s, c, left)
    ensures Accounted(Apply(s, step), c, LeavesLock(s, step, c) || (left && !LeaseEnds(s, step, c)))
  {
    match step
    case Advance(d) => AdvanceAccounts(s, d, c, left);
    case Throw(d, applied) => ThrowAccounts(s, d, applied, c, left);
    case Begin(_, job) => assert TokenKnown(s, job);
    case Expire(job) => assert TokenKnown(s, job);
    case _ =>
  }

  lemma {:induction false} AdvanceAccounts(s: State, d: CallId, c: CallId, left: bool)
    requires TokensKnown(s) && CallInvariant(s, c) && Enabled(s, Advance(d)) && Accounted(s, c, left)
    ensures Accounted(Apply(s, Advance(d)), c, left)
  {
  }

  lemma {:induction false} ThrowAccounts(s: State, d: CallId, applied: bool, c: CallId, left: bool)
    requires TokensKnown(s) && CallInvariant(s, c) && Enabled(s, Throw(d, applied)) && Accounted(s, c, left)
    ensures Accounted(Apply(s, Throw(d, applied)), c, LeavesLock(s, Throw(d, applied), c) || left)
  {
  }

  /** The last step that left the lock has not been followed by the end of its lease. */
  predicate Left(steps: seq<Step>, c: CallId) {
    steps != [] &&
      var before, last := Replay(steps[..|steps| - 1]), steps[|steps| - 1];
      LeavesLock(before, last, c) || (Left(steps[..|steps| - 1], c) && !LeaseEnds(before, last, c))
  }

  lemma {:induction false} RunAccounts(steps: seq<Step>, c: CallId)
    requires Legal(steps)
    ensures Accounted(Replay(steps), c, Left(steps, c))
    decreases |steps|
  {
    if steps != [] {
      var before := steps[..|steps| - 1];
      RunAccounts(before, c);
      RunKeepsTokens(before);
      RunsKeepInvariant(before);
      assert CallInvariant(Replay(before), c);
      StepAccounts(Replay(before), steps[|before|], c, Left(before, c));
      hide Apply, Enabled, LeavesLock, LeaseEnds, Accounted, CallInvariant;
    }
  }

  /** Step `k` left the lock, and its lease has not ended since. */
  predicate LeftAt(steps: seq<Step>, c: CallId, k: nat) {
    && k < |steps| && LeavesLock(Replay(steps[..k]), steps[k], c)
    && forall j :: k < j < |steps| ==> !LeaseEnds(Replay(steps[..j]), steps[j], c)
  }

  lemma {:induction false} LeftIff(steps: seq<Step>, c: CallId)
    ensures Left(steps, c) <==> exists k: nat :: LeftAt(steps, c, k)
    decreases |steps|
  {
    hide LeavesLock, LeaseEnds, Replay;
    if steps != [] {
      var n := |steps| - 1;
      var front := steps[..n];
      LeftIff(front, c);
      assert forall k :: 0 <= k <= n ==> front[..k] == steps[..k];
      if k: nat :| LeftAt(steps, c, k) {
        if k < n {
          assert LeftAt(front, c, k);
        }
      }
      if LeavesLock(Replay(front), steps[n], c) {
        assert LeftAt(steps, c, n);
      } else if Left(steps, c) {
        var k: nat :| LeftAt(front, c, k);
        assert LeftAt(steps, c, k);
      }
    }
  }

  /**
   A call that has ended has a lock with its token exactly when it left it: it crashed while holding the
   lock, lost the reply of taking it, or failed to release it, and the lease has not ended since. So a call
   that neither crashes nor fails leaves no lock.
   */
  lemma {:induction false} LockLeftIff(steps: seq<Step>, c: CallId)
    requires Legal(steps) && c in Replay(steps).calls && !Running(Replay(steps).calls[c].pc)
    ensures Owns(Replay(steps), c) <==> exists k: nat :: LeftAt(steps, c, k)
    ensures forall job :: job in Replay(steps).locks && Replay(steps).locks[job] == c ==> Owns(Replay(steps), c)
  {
    hide Legal, Replay, LeftAt, Left;
    RunAccounts(steps, c);
    LeftIff(steps, c);
    RunKeepsTokens(steps);
    forall job: JobId | job in Replay(steps).locks && Replay(steps).locks[job] == c
      ensures Owns(Replay(steps), c)
    {
      assert TokenKnown(Replay(steps), job);
    }
  }

  /** However calls interleave, contended is answered only at a moment when another call's lock stands on the job. */
  lemma {:induction false} ContendedOnlyUnderLock(steps: seq<Step>, s: State, step: Step, c: CallId)
    requires Legal(steps) && s == Replay(steps) && Enabled(s, step)
    requires c in s.calls && Running(s.calls[c].pc) && Apply(s, step).calls[c].pc == Answered(Contended)
    ensures step == Advance(c) && s.calls[c].job in s.locks && s.locks[s.calls[c].job] != c
  {
    hide Legal, Replay;
    RunsKeepInvariant(steps);
    RunAccounts(steps, c);
    assert CallInvariant(s, c);
  }
}
