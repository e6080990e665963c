/**
 The shutdown coordinator (graceful-shutdown.ts) beside any work the application still does. One step
 runs until the next await; timers and outcomes of awaited operations are free choices.
 */
module GracefulShutdown {
  import Lifecycle
  import opened Wrappers

  /** An awaited operation. `Absent` is an optional part the application does not have. */
  datatype Op = Absent | Idle | Running | Done | Failed

  datatype Timer = Unset | Armed | Fired | Cleared

  /** Which side settled the race first. */
  datatype Race = Open | SequenceFulfilled | SequenceRejected | TimedOut

  /** `sockets` is the continuation of the idle wait; with no realtime service it disconnects nothing. */
  datatype State = State(
    life: Lifecycle.State<nat, nat>,
    realtime: bool,
    installed: bool,
    started: bool,
    idleWait: nat,
    http: Op,
    management: Op,
    queue: Op,
    sockets: Op,
    disconnectCalled: bool,
    intakeFailed: bool,
    close: Op,
    timer: Timer,
    race: Race,
    resumed: bool,
    completed: bool,
    exitCode: Option<int>,
    exits: seq<int>
  )

  datatype Part = Http | Management | Queue | Sockets | Close

  datatype Step =
    | Work(event: Lifecycle.Event<nat, nat>)
    | Install
    | Signal(wait: nat)
    | IdleReached
    | Settle(part: Part, ok: bool)
    | IntakeDone
    | IntakeRejected
    | TimerFires
    | Resume

  ghost function Initial(realtime: bool, http: bool, queue: bool): State {
    State(Lifecycle.Initial(), realtime, false, false, 0,
          if http then Idle else Absent, Idle, if queue then Idle else Absent, Idle,
          false, false, Idle, Unset, Open, false, false, None, [])
  }

  function PartOf(s: State, part: Part): Op {
    match part
    case Http => s.http
    case Management => s.management
    case Queue => s.queue
    case Sockets => s.sockets
    case Close => s.close
  }

  predicate Over(op: Op) {
    op == Done || op == Absent
  }

  /** Every intake operation has finished well. */
  predicate IntakeOver(s: State) {
    Over(s.http) && Over(s.management) && Over(s.queue) && s.sockets == Done
  }

  predicate SomeIntakeFailed(s: State) {
    s.http == Failed || s.management == Failed || s.queue == Failed || s.sockets == Failed
  }

  ghost predicate Enabled(s: State, step: Step) {
    match step
    case Work(e) => Lifecycle.Enabled(s.life, e)
    case Install => true
    case Signal(w) => Lifecycle.Enabled(s.life, Lifecycle.WaitForIdle(w))
    case IdleReached => s.started && s.idleWait in s.life.resolved && s.sockets == Idle
    case Settle(part, _) => PartOf(s, part) == Running
    case IntakeDone => s.started && IntakeOver(s) && s.close == Idle
    case IntakeRejected => SomeIntakeFailed(s) && !s.intakeFailed
    case TimerFires => s.timer == Armed
    case Resume => s.race != Open && !s.resumed
  }

  function Begin(op: Op): Op {
    if op == Absent then Absent else Running
  }

  /** The first signal: drain, start every intake operation, then arm the timer. */
  ghost function Start(s: State, wait: nat): State {
    s.(started := true,
       life := Lifecycle.Next(Lifecycle.Next(s.life, Lifecycle.BeginDraining), Lifecycle.WaitForIdle(wait)),
       idleWait := wait,
       management := Running,
       queue := Begin(s.queue),
       http := Begin(s.http),
       timer := Armed)
  }

  /** An awaited operation ends; closing is the last thing the sequence waits for. */
  function SettlePart(s: State, part: Part, ok: bool): State {
    var outcome := if ok then Done else Failed;
    var side := if ok then SequenceFulfilled else SequenceRejected;
    s.(http := if part == Http then outcome else s.http,
       management := if part == Management then outcome else s.management,
       queue := if part == Queue then outcome else s.queue,
       sockets := if part == Sockets then outcome else s.sockets,
       close := if part == Close then outcome else s.close,
       race := if part == Close && s.race == Open then side else s.race)
  }

  function Win(s: State, side: Race): State {
    s.(race := if s.race == Open then side else s.race)
  }

  /** The rest of the bounded shutdown, after its race. */
  function AfterRace(s: State): State {
    var won := s.race == SequenceFulfilled;
    s.(resumed := true,
       installed := false,
       timer := if s.timer == Armed then Cleared else s.timer,
       completed := s.completed || won,
       exitCode := if won then Some(0) else s.exitCode,
       exits := if won then s.exits else s.exits + [1])
  }

  ghost function Next(s: State, step: Step): State {
    match step
    case Work(e) => s.(life := Lifecycle.Next(s.life, e))
    case Install => s.(installed := true)
    case Signal(w) =>
      if s.completed then s
      else if s.started then s.(installed := false, exits := s.exits + [1])
      else Start(s, w)
    case IdleReached =>
      s.(disconnectCalled := s.disconnectCalled || s.realtime, sockets := if s.realtime then Running else Done)
    case Settle(part, ok) => SettlePart(s, part, ok)
    case IntakeDone => s.(close := Running)
    case IntakeRejected => Win(s.(intakeFailed := true), SequenceRejected)
    case TimerFires => Win(s.(timer := Fired), TimedOut)
    case Resume => AfterRace(s)
  }

  // ----- What every step keeps -------------------------------------------------------------

  /** Before the first signal nothing has begun. */
  ghost predicate Untouched(s: State) {
    && (s.http == Idle || s.http == Absent) && s.management == Idle && (s.queue == Idle || s.queue == Absent)
    && s.sockets == Idle && s.close == Idle
    && s.timer == Unset && s.race == Open && s.exits == []
  }

  /** Draining from the first signal on; sockets are disconnected only at zero work. */
  ghost predicate DrainInv(s: State) {
    && (!s.started ==> Untouched(s))
    && (s.started ==> s.life.draining && s.timer != Unset && s.http != Idle && s.management != Idle && s.queue != Idle)
    && (s.started ==> s.idleWait in s.life.waiting || s.idleWait in s.life.resolved)
    && (s.started && s.idleWait in s.life.resolved ==> s.life.activeWork == 0)
    && (s.started && s.idleWait in s.life.waiting ==> s.sockets == Idle)
    && (s.disconnectCalled ==> s.started && s.sockets != Idle && s.realtime)
    && (s.sockets != Idle && s.realtime ==> s.disconnectCalled)
    && s.sockets != Absent
  }

  /** The application is closed only once the intake is over, which is then final. */
  ghost predicate CloseInv(s: State) {
    && (s.close != Idle ==> s.started && IntakeOver(s))
    && (s.intakeFailed ==> SomeIntakeFailed(s))
    && s.close != Absent
  }

  /** Who won the race, and what followed. */
  ghost predicate RaceInv(s: State) {
    && (s.race == Open ==> s.close != Done && s.close != Failed && s.timer != Fired && !s.intakeFailed)
    && (s.race == SequenceFulfilled ==> s.close == Done)
    && (s.race == SequenceRejected ==> s.close == Failed || s.intakeFailed)
    && (s.race == TimedOut ==> s.timer == Fired)
    && (s.resumed ==> s.race != Open && s.timer != Armed)
    && (!s.resumed ==> s.timer != Cleared)
  }

  /** Exit status: code 0 exactly for a completed shutdown, otherwise a call of exit with 1. */
  ghost predicate ExitInv(s: State) {
    && (s.completed <==> s.resumed && s.race == SequenceFulfilled)
    && s.exitCode == (if s.completed then Some(0) else None)
    && (forall i :: 0 <= i < |s.exits| ==> s.exits[i] == 1)
    && (s.resumed && !s.completed ==> s.exits != [])
  }

  ghost predicate Inv(s: State) {
    Lifecycle.Inv(s.life) && DrainInv(s) && CloseInv(s) && RaceInv(s) && ExitInv(s)
  }

  lemma {:induction false} InitialInv(realtime: bool, http: bool, queue: bool)
    ensures Inv(Initial(realtime, http, queue))
  {
  }

  lemma {:induction false} WorkKeepsDrain(s: State, e: Lifecycle.Event<nat, nat>)
    requires Inv(s) && Lifecycle.Enabled(s.life, e)
    ensures Inv(Next(s, Work(e)))
  {
    Lifecycle.StepKeepsInvariant(s.life, e);
  }

  lemma {:induction false} SignalKeepsInvariant(s: State, w: nat)
    requires Inv(s) && Enabled(s, Signal(w))
    ensures Inv(Next(s, Signal(w)))
  {
    if !s.started {
      Lifecycle.StepKeepsInvariant(s.life, Lifecycle.BeginDraining);
      Lifecycle.StepKeepsInvariant(Lifecycle.Next(s.life, Lifecycle.BeginDraining), Lifecycle.WaitForIdle(w));
    }
  }

  lemma {:induction false} SettleKeepsInvariant(s: State, part: Part, ok: bool)
    requires Inv(s) && Enabled(s, Settle(part, ok))
    ensures Inv(Next(s, Settle(part, ok)))
  {
    hide Lifecycle.Inv;
  }

  lemma {:induction false} StepKeepsInvariant(s: State, step: Step)
    requires Inv(s) && Enabled(s, step)
    ensures Inv(Next(s, step))
  {
    match step
    case Work(e) => WorkKeepsDrain(s, e);
    case Signal(w) => SignalKeepsInvariant(s, w);
    case Settle(part, ok) => SettleKeepsInvariant(s, part, ok);
    case _ => OtherKeepsInvariant(s, step);
  }

  lemma {:induction false} OtherKeepsInvariant(s: State, step: Step)
    requires Inv(s) && Enabled(s, step) && !step.Work? && !step.Signal? && !step.Settle?
    ensures Inv(Next(s, step))
  {
    hide Lifecycle.Next, Lifecycle.Enabled, PartOf, SettlePart, Start;
  }

  // ----- Runs ------------------------------------------------------------------------------

  ghost predicate Path(states: seq<State>, steps: seq<Step>) {
    && |states| == |steps| + 1
    && (forall i :: 0 <= i < |steps| ==> Enabled(states[i], steps[i]) && states[i + 1] == Next(states[i], steps[i]))
  }

  ghost predicate Run(states: seq<State>, steps: seq<Step>) {
    && Path(states, steps)
    && states[0] == Initial(states[0].realtime, states[0].http != Absent, states[0].queue != Absent)
  }

  lemma {:induction false} RunKeepsInvariant(states: seq<State>, steps: seq<Step>, k: nat)
    requires Run(states, steps) && k < |states|
    ensures Inv(states[k])
    decreases k
  {
    if k == 0 {
      InitialInv(states[0].realtime, states[0].http != Absent, states[0].queue != Absent);
    } else {
      hide Inv, Initial;
      RunKeepsInvariant(states, steps, k - 1);
      StepKeepsInvariant(states[k - 1], steps[k - 1]);
    }
  }

  /** What one step cannot take back. */
  ghost predicate Keeps(s: State, t: State) {
    && (s.started ==> t.started && t.life.activeWork <= s.life.activeWork)
    && (s.disconnectCalled ==> t.disconnectCalled)
    && (s.close != Idle ==> t.close != Idle)
    && (s.race != Open ==> t.race == s.race)
    && (s.resumed ==> t.resumed)
    && (s.completed ==> t.completed && t.exits == s.exits)
  }

  lemma {:induction false} StepKeeps(s: State, step: Step)
    requires Inv(s) && Enabled(s, step)
    ensures Keeps(s, Next(s, step))
  {
    match step
    case Work(e) => WorkStepKeeps(s, e);
    case Signal(wait) => SignalStepKeeps(s, wait);
    case Settle(part, ok) => SettleStepKeeps(s, part, ok);
    case _ => OtherStepKeeps(s, step);
  }

  lemma {:induction false} WorkStepKeeps(s: State, e: Lifecycle.Event<nat, nat>)
    requires DrainInv(s) && Enabled(s, Work(e))
    ensures Keeps(s, Next(s, Work(e)))
  {
    WorkKeeps(s.life, e);
    hide Lifecycle.Next;
  }

  lemma {:induction false} SignalStepKeeps(s: State, wait: nat)
    requires DrainInv(s) && CloseInv(s) && RaceInv(s) && ExitInv(s)
    ensures Keeps(s, Next(s, Signal(wait)))
  {
  }

  lemma {:induction false} OtherStepKeeps(s: State, step: Step)
    requires ExitInv(s) && CloseInv(s) && Enabled(s, step) && !step.Work? && !step.Signal? && !step.Settle?
    ensures Keeps(s, Next(s, step))
  {
    hide Lifecycle.Next, Lifecycle.Enabled, IntakeOver, SomeIntakeFailed, SettlePart, PartOf;
  }

  lemma {:induction false} SettleStepKeeps(s: State, part: Part, ok: bool)
    ensures Keeps(s, Next(s, Settle(part, ok)))
  {
    hide PartOf;
  }

  lemma {:induction false} WorkKeeps(s: Lifecycle.State<nat, nat>, e: Lifecycle.Event<nat, nat>)
    requires Lifecycle.Enabled(s, e)
    ensures s.draining ==> Lifecycle.Next(s, e).activeWork <= s.activeWork
  {
  }

  lemma {:induction false} KeepsReflexive(s: State)
    ensures Keeps(s, s)
  {
  }

  lemma {:induction false} KeepsTransitive(s: State, t: State, u: State)
    requires Keeps(s, t) && Keeps(t, u)
    ensures Keeps(s, u)
  {
  }

  /** Work never rises, sockets once told to disconnect stay so, and outcomes are final. */
  lemma {:induction false} RunKeeps(states: seq<State>, steps: seq<Step>, i: nat, j: nat)
    requires Run(states, steps) && i <= j < |states|
    ensures Keeps(states[i], states[j])
    decreases j - i
  {
    hide Inv, Enabled, Next, Initial, Keeps;
    if i == j {
      KeepsReflexive(states[i]);
    } else {
      RunKeeps(states, steps, i, j - 1);
      RunKeepsInvariant(states, steps, j - 1);
      StepKeeps(states[j - 1], steps[j - 1]);
      KeepsTransitive(states[i], states[j - 1], states[j]);
    }
  }

  // ----- The order of a shutdown -----------------------------------------------------------

  /** Sockets are disconnected, and the application closed, only with no work left, which then holds forever. */
  lemma {:induction false} DisconnectOnlyWhenIdle(states: seq<State>, steps: seq<Step>, i: nat, j: nat)
    requires Run(states, steps) && i <= j < |states|
    requires states[i].disconnectCalled || states[i].close != Idle
    ensures states[j].life.draining && states[j].life.activeWork == 0 && states[j].life.held == {}
  {
    RunKeeps(states, steps, i, j);
    RunKeepsInvariant(states, steps, i);
    RunKeepsInvariant(states, steps, j);
    hide Run, Path;
    IdleHere(states[i]);
    assert states[j].life.activeWork == |states[j].life.held|;
  }

  lemma {:induction false} IdleHere(s: State)
    requires Inv(s) && (s.disconnectCalled || s.close != Idle)
    ensures s.started && s.life.activeWork == 0
  {
  }

  /** The application is closed only after every intake operation is over, and none of them fails later. */
  lemma {:induction false} CloseAfterIntake(states: seq<State>, steps: seq<Step>, i: nat, j: nat)
    requires Run(states, steps) && i <= j < |states| && states[i].close != Idle
    ensures IntakeOver(states[i]) && IntakeOver(states[j]) && !states[j].intakeFailed
    ensures states[i].realtime ==> states[i].disconnectCalled
  {
    RunKeeps(states, steps, i, j);
    RunKeepsInvariant(states, steps, i);
    RunKeepsInvariant(states, steps, j);
    hide Run, Path, Lifecycle.Inv, RaceInv, ExitInv;
  }

  predicate IsIntake(part: Part) {
    part == Http || part == Management || part == Queue
  }

  /** An intake operation becomes done only by its own success; whether there is one never changes. */
  lemma {:induction false} DoneBySettling(s: State, step: Step, part: Part)
    requires Inv(s) && Enabled(s, step) && IsIntake(part)
    ensures PartOf(s, part) != Done && PartOf(Next(s, step), part) == Done ==> step == Settle(part, true)
    ensures PartOf(s, part) == Absent <==> PartOf(Next(s, step), part) == Absent
  {
    hide Lifecycle.Inv, Lifecycle.Next, Lifecycle.Enabled, RaceInv, ExitInv;
  }

  lemma {:induction false} DoneWasSettled(states: seq<State>, steps: seq<Step>, i: nat, part: Part)
    requires Run(states, steps) && i < |states| && IsIntake(part) && PartOf(states[i], part) == Done
    ensures exists j :: 0 <= j < i && steps[j] == Settle(part, true)
    decreases i
  {
    hide Inv, Enabled, Next;
    assert i > 0 by { InitialParts(states, steps, part); }
    RunKeepsInvariant(states, steps, i - 1);
    DoneBySettling(states[i - 1], steps[i - 1], part);
    if PartOf(states[i - 1], part) == Done {
      DoneWasSettled(states, steps, i - 1, part);
    } else {
      assert steps[i - 1] == Settle(part, true);
    }
  }

  lemma {:induction false} InitialParts(states: seq<State>, steps: seq<Step>, part: Part)
    requires Run(states, steps) && IsIntake(part)
    ensures PartOf(states[0], part) != Done
  {
  }

  lemma {:induction false} PartStays(states: seq<State>, steps: seq<Step>, i: nat, part: Part)
    requires Run(states, steps) && i < |states| && IsIntake(part)
    ensures PartOf(states[0], part) == Absent <==> PartOf(states[i], part) == Absent
    decreases i
  {
    hide Inv, Enabled, Next;
    if i > 0 {
      PartStays(states, steps, i - 1, part);
      RunKeepsInvariant(states, steps, i - 1);
      DoneBySettling(states[i - 1], steps[i - 1], part);
    }
  }

  /** Before the application is closed, every intake operation it has has ended well: each by a step of its own. */
  lemma {:induction false} CloseAfterSettled(states: seq<State>, steps: seq<Step>, i: nat, part: Part)
    requires Run(states, steps) && i < |states| && states[i].close != Idle
    requires IsIntake(part) && PartOf(states[0], part) != Absent
    ensures exists j :: 0 <= j < i && steps[j] == Settle(part, true)
  {
    CloseAfterIntake(states, steps, i, i);
    PartStays(states, steps, i, part);
    DoneWasSettled(states, steps, i, part);
  }

  /** Closing finished while the deadline timer was still armed. */
  ghost predicate ClosedInTime(states: seq<State>, steps: seq<Step>, k: nat)
    requires |states| == |steps| + 1
  {
    exists i :: 0 <= i < k && i < |steps| && steps[i] == Settle(Close, true) && states[i].timer == Armed
  }

  lemma {:induction false} FulfilledNow(s: State, step: Step)
    requires Inv(s) && Enabled(s, step) && s.race == Open && Next(s, step).race == SequenceFulfilled
    ensures step == Settle(Close, true) && s.timer == Armed
  {
    hide Lifecycle.Inv, Lifecycle.Next, Lifecycle.Enabled;
  }

  lemma {:induction false} FulfilledInTime(states: seq<State>, steps: seq<Step>, k: nat)
    requires Run(states, steps) && k < |states| && states[k].race == SequenceFulfilled
    ensures ClosedInTime(states, steps, k)
    decreases k
  {
    hide Inv, Enabled, Next, Initial;
    RunKeepsInvariant(states, steps, k);
    assert k > 0 by { InitialRace(states, steps); }
    RunKeepsInvariant(states, steps, k - 1);
    RunKeeps(states, steps, k - 1, k);
    if states[k - 1].race == Open {
      FulfilledNow(states[k - 1], steps[k - 1]);
    } else {
      FulfilledInTime(states, steps, k - 1);
    }
  }

  lemma {:induction false} InitialRace(states: seq<State>, steps: seq<Step>)
    requires Run(states, steps)
    ensures states[0].race == Open
  {
  }

  /** Closing in time wins the race: the intake had not failed and the timer had not fired. */
  lemma {:induction false} InTimeWins(s: State)
    requires Inv(s) && Enabled(s, Settle(Close, true)) && s.timer == Armed
    ensures Next(s, Settle(Close, true)).race == SequenceFulfilled
  {
    hide Lifecycle.Inv, Lifecycle.Next, Lifecycle.Enabled;
  }

  /** Exit code 0 is set exactly when closing finished before the timer fired; otherwise exit is called with 1. */
  lemma {:induction false} ExitZeroIffClosedInTime(states: seq<State>, steps: seq<Step>, k: nat)
    requires Run(states, steps) && k < |states| && states[k].resumed
    ensures states[k].exitCode == Some(0) <==> ClosedInTime(states, steps, k)
    ensures states[k].exitCode == None <==> !ClosedInTime(states, steps, k)
    ensures !ClosedInTime(states, steps, k) ==> 1 in states[k].exits
  {
    hide Enabled, Next, Initial, Lifecycle.Inv;
    RunKeepsInvariant(states, steps, k);
    assert states[k].exits != [] ==> states[k].exits[0] == 1;
    if states[k].race == SequenceFulfilled {
      FulfilledInTime(states, steps, k);
    }
    if ClosedInTime(states, steps, k) {
      var i :| 0 <= i < k && i < |steps| && steps[i] == Settle(Close, true) && states[i].timer == Armed;
      RunKeepsInvariant(states, steps, i);
      InTimeWins(states[i]);
      RunKeeps(states, steps, i + 1, k);
    }
  }

  /** Signals received after the first one and before completion. */
  ghost function ForcedExits(states: seq<State>, steps: seq<Step>, k: nat): nat
    requires |states| == |steps| + 1 && k < |states|
  {
    if k == 0 then 0
    else
      ForcedExits(states, steps, k - 1)
      + (if steps[k - 1].Signal? && states[k - 1].started && !states[k - 1].completed then 1 else 0)
  }

  lemma {:induction false} ExitsStep(s: State, step: Step)
    requires Inv(s) && Enabled(s, step)
    ensures var t := Next(s, step);
            |t.exits| - |s.exits| == (if step.Signal? && s.started && !s.completed then 1 else 0)
              + (if t.resumed && !t.completed then 1 else 0) - (if s.resumed && !s.completed then 1 else 0)
  {
    if step.Signal? || step.Resume? {
      hide Lifecycle.Inv, Lifecycle.Next, Lifecycle.Enabled, CloseInv, SettlePart, Win;
    } else {
      hide Inv;
      QuietStep(s, step);
    }
  }

  ghost predicate SameExits(s: State, t: State) {
    t.exits == s.exits && t.resumed == s.resumed && t.completed == s.completed
  }

  lemma {:induction false} QuietStep(s: State, step: Step)
    requires !step.Signal? && !step.Resume?
    ensures SameExits(s, Next(s, step))
  {
    hide Lifecycle.Next, PartOf;
  }

  /** Exit is called once for every further signal, and once more when the shutdown failed or timed out. */
  lemma {:induction false} ExitCalls(states: seq<State>, steps: seq<Step>, k: nat)
    requires Run(states, steps) && k < |states|
    ensures |states[k].exits| == ForcedExits(states, steps, k) + (if states[k].resumed && !states[k].completed then 1 else 0)
    decreases k
  {
    if k > 0 {
      hide Inv, Enabled, Next, Initial;
      ExitCalls(states, steps, k - 1);
      RunKeepsInvariant(states, steps, k - 1);
      ExitsStep(states[k - 1], steps[k - 1]);
    }
  }

  // ----- A shutdown that has not failed can still finish -----------------------------------

  function Weight(op: Op): nat {
    match op
    case Idle => 2
    case Running => 1
    case _ => 0
  }

  /** Steps left until the shutdown is over. */
  ghost function Remaining(s: State): nat {
    |s.life.held| + Weight(s.http) + Weight(s.management) + Weight(s.queue) + Weight(s.sockets) + Weight(s.close)
    + (if s.resumed then 0 else 1)
  }

  ghost predicate OnCourse(s: State) {
    && Inv(s) && s.started
    && !SomeIntakeFailed(s)
    && (s.race == Open || s.race == SequenceFulfilled)
  }

  lemma {:induction false} Finish(s: State, part: Part)
    requires OnCourse(s) && PartOf(s, part) == Running
    ensures OnCourse(Next(s, Settle(part, true))) && Remaining(Next(s, Settle(part, true))) < Remaining(s)
  {
    StepKeepsInvariant(s, Settle(part, true));
    hide Inv;
  }

  lemma {:induction false} NextOnCourse(s: State) returns (step: Step)
    requires OnCourse(s) && !s.completed
    ensures Enabled(s, step) && OnCourse(Next(s, step)) && Remaining(Next(s, step)) < Remaining(s)
  {
    if part :| PartOf(s, part) == Running {
      step := Settle(part, true);
      Finish(s, part);
    } else if s.race != Open {
      step := Resume;
      StepKeepsInvariant(s, step);
    } else if s.idleWait in s.life.waiting {
      var lease :| lease in s.life.held;
      step := Work(Lifecycle.Release(lease));
      StepKeepsInvariant(s, step);
    } else if s.sockets == Idle {
      step := IdleReached;
      StepKeepsInvariant(s, step);
    } else {
      assert PartOf(s, Http) != Running && PartOf(s, Management) != Running && PartOf(s, Queue) != Running;
      assert PartOf(s, Sockets) != Running && PartOf(s, Close) != Running;
      step := IntakeDone;
      StepKeepsInvariant(s, step);
    }
  }

  /** As long as nothing failed and the timer has not fired, the shutdown can still end with exit code 0. */
  lemma {:induction false} CanStillSucceed(s: State) returns (states: seq<State>, steps: seq<Step>)
    requires OnCourse(s)
    ensures Path(states, steps) && states[0] == s && states[|steps|].exitCode == Some(0)
    decreases Remaining(s)
  {
    if s.completed {
      states, steps := [s], [];
    } else {
      var step := NextOnCourse(s);
      var restStates, restSteps := CanStillSucceed(Next(s, step));
      states, steps := [s] + restStates, [step] + restSteps;
      PathCons(s, step, restStates, restSteps);
    }
  }

  lemma {:induction false} PathCons(s: State, step: Step, states: seq<State>, steps: seq<Step>)
    requires Path(states, steps) && Enabled(s, step) && states[0] == Next(s, step)
    ensures Path([s] + states, [step] + steps)
  {
    hide Enabled, Next;
  }

  // ----- The signal handlers ---------------------------------------------------------------

  /** The steps that take the handlers away: a forced exit and the end of the bounded shutdown. */
  predicate Removes(s: State, step: Step) {
    (step.Signal? && s.started && !s.completed) || step == Resume
  }

  lemma {:induction false} HandlersStep(s: State, step: Step)
    requires Enabled(s, step)
    ensures Next(s, step).installed <==> step == Install || (s.installed && !Removes(s, step))
  {
    hide Lifecycle.Next, Lifecycle.Enabled, PartOf;
  }

  /** The handlers stand exactly when they were installed and neither forced exit nor end has come since. */
  lemma {:induction false} HandlersIff(states: seq<State>, steps: seq<Step>, k: nat)
    requires Run(states, steps) && k < |states|
    ensures states[k].installed <==>
            exists i :: 0 <= i < k && steps[i] == Install && forall j :: i < j < k ==> !Removes(states[j], steps[j])
    decreases k
  {
    if k == 0 {
    } else {
      hide Next, Enabled, Removes, Initial;
      HandlersIff(states, steps, k - 1);
      HandlersStep(states[k - 1], steps[k - 1]);
      assert states[k - 1 + 1] == Next(states[k - 1], steps[k - 1]);
      if steps[k - 1] == Install {
        assert states[k].installed;
      }
    }
  }
}
