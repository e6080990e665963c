/**
 Recovery of the realtime state store's Redis client (realtime-state-store.service.ts), as a state
 machine cut at every await: recoveries, failing commands, fallbacks and destruction interleave.
 */
module StateStoreRecovery {
  import opened Wrappers

  datatype Life = Initializing | Ready | Fallback | Recovering | Reconciling | Unavailable | Destroying

  type Client = nat

  /** Where a recovery stands. A settled one has returned; its finalizer has not run yet. */
  datatype Phase = Connect | Ping | Reconcile | ClosePrevious | FinalPing | CloseCandidate | CloseAll | Settled

  datatype Flight = Flight(previous: Option<Client>, candidate: Client, phase: Phase)

  datatype Store = Store(
    life: Life,
    redis: Option<Client>,
    flights: map<nat, Flight>,    // recoveries whose finalizer has not run
    promise: Option<nat>,         // the recovery promise
    created: nat,                 // clients 0 .. created exist
    served: set<Client>,          // clients that were handed to operations
    retired: set<Client>,         // clients whose closing has begun
    nextFlight: nat,
    released: bool)               // destruction has let go of the client

  datatype Step =
    | EnsureReady(clientReady: bool, configured: bool, local: bool)
    | FlightStep(flight: nat, ok: bool, local: bool)
    | Finalize(flight: nat)
    | CommandFailed(client: Client, local: bool)
    | FallBack(local: bool)
    | Destroy
    | Release

  const Start := Store(Initializing, None, map[], None, 0, {}, {}, 0, false)

  // ----- Steps -----------------------------------------------------------------------------

  /** `setFallbackState`; `local` says whether local fallback is allowed and there is local state. */
  function SetFallback(s: Store, local: bool): Store {
    if s.life == Destroying then s else s.(life := if local then Fallback else Unavailable)
  }

  /** `ensureRedisReady`, which runs without awaiting up to the recovery's first await. */
  function Ensure(s: Store, clientReady: bool, configured: bool, local: bool): Store {
    if s.life == Destroying then s
    else if s.life == Ready && s.redis.Some? && clientReady then s
    else if s.promise.Some? then s
    else
      var begun := s.(life := Recovering, promise := Some(s.nextFlight), nextFlight := s.nextFlight + 1);
      if !configured then
        SetFallback(begun.(flights := s.flights[s.nextFlight := Flight(s.redis, s.created, Settled)]), local)
      else
        begun.(flights := s.flights[s.nextFlight := Flight(s.redis, s.created, Connect)], created := s.created + 1)
  }

  function Retire(retired: set<Client>, client: Option<Client>): set<Client> {
    if client.Some? then retired + {client.value} else retired
  }

  function SetPhase(s: Store, f: nat, phase: Phase): Store
    requires f in s.flights
  {
    s.(flights := s.flights[f := s.flights[f].(phase := phase)])
  }

  /** The `catch` of a recovery, up to its await. */
  function Catch(s: Store, f: nat): Store
    requires f in s.flights
  {
    var flight := s.flights[f];
    SetPhase(s, f, CloseAll).(
      redis := if s.redis == Some(flight.candidate) || s.redis == flight.previous then None else s.redis,
      retired := Retire(s.retired + {flight.candidate}, flight.previous))
  }

  /** One await of a recovery is over; `ok` says whether it succeeded and the client is still ready. */
  function Continue(s: Store, f: nat, ok: bool, local: bool): Store
    requires f in s.flights
  {
    var flight := s.flights[f];
    match flight.phase
    case Connect => if ok then SetPhase(s, f, Ping) else Catch(s, f)
    case Ping =>
      if !ok then Catch(s, f)
      else if s.life == Destroying then SetPhase(s, f, CloseCandidate).(retired := s.retired + {flight.candidate})
      else SetPhase(s, f, Reconcile).(life := Reconciling)
    case Reconcile =>
      if !ok then Catch(s, f)
      else if s.life == Destroying then SetPhase(s, f, CloseCandidate).(retired := s.retired + {flight.candidate})
      else if flight.previous.Some? then
        SetPhase(s, f, ClosePrevious).(redis := Some(flight.candidate), retired := Retire(s.retired, flight.previous))
      else SetPhase(s, f, FinalPing).(redis := Some(flight.candidate))
    case ClosePrevious =>
      if !ok || s.life == Destroying || s.redis != Some(flight.candidate) then Catch(s, f) else SetPhase(s, f, FinalPing)
    case FinalPing =>
      if !ok || s.life == Destroying || s.redis != Some(flight.candidate) then Catch(s, f)
      else SetPhase(s, f, Settled).(life := Ready, served := s.served + {flight.candidate})
    case CloseCandidate => SetPhase(s, f, Settled)
    case CloseAll => if s.redis.None? then SetFallback(SetPhase(s, f, Settled), local) else SetPhase(s, f, Settled)
    case Settled => s
  }

  /** `markRedisUnavailable` for the client an operation used. */
  function MarkUnavailable(s: Store, client: Client, local: bool): Store {
    var marked := s.(redis := if s.redis == Some(client) then None else s.redis, retired := s.retired + {client});
    if s.redis == Some(client) then SetFallback(marked, local) else marked
  }

  predicate Enabled(s: Store, step: Step) {
    match step
    case EnsureReady(_, _, _) => true
    case FlightStep(f, _, _) => f in s.flights && s.flights[f].phase != Settled
    case Finalize(f) => f in s.flights && s.flights[f].phase == Settled
    case CommandFailed(c, _) => c in s.served
    case FallBack(_) => true
    case Destroy => true
    case Release => s.life == Destroying && s.promise.None?
  }

  function Next(s: Store, step: Step): Store
    requires Enabled(s, step)
  {
    match step
    case EnsureReady(clientReady, configured, local) => Ensure(s, clientReady, configured, local)
    case FlightStep(f, ok, local) => Continue(s, f, ok, local)
    case Finalize(f) => s.(flights := s.flights - {f}, promise := if s.promise == Some(f) then None else s.promise)
    case CommandFailed(c, local) => MarkUnavailable(s, c, local)
    case FallBack(local) => SetFallback(s, local)
    case Destroy => s.(life := Destroying)
    case Release => s.(redis := None, retired := Retire(s.retired, s.redis), released := true)
  }

  ghost predicate Run(states: seq<Store>, steps: seq<Step>) {
    && |states| == |steps| + 1
    && states[0] == Start
    && forall i :: 0 <= i < |steps| ==> Enabled(states[i], steps[i]) && states[i + 1] == Next(states[i], steps[i])
  }

  // ----- The invariant ---------------------------------------------------------------------

  predicate Unsettled(s: Store, f: nat) {
    f in s.flights && s.flights[f].phase != Settled
  }

  /** The candidate is not yet owned and not yet being closed. */
  predicate Pending(phase: Phase) {
    phase == Connect || phase == Ping || phase == Reconcile
  }

  predicate FlightInvariant(s: Store, f: nat) {
    f in s.flights ==>
      var flight := s.flights[f];
      && f < s.nextFlight
      && s.promise == Some(f)
      && (flight.phase != Settled ==>
            && s.life != Ready && !s.released
            && flight.candidate < s.created && flight.candidate !in s.served
            && flight.previous != Some(flight.candidate)
            && (flight.previous.Some? ==> flight.previous.value < s.created)
            && (Pending(flight.phase) ==> flight.candidate !in s.retired)
            && (Pending(flight.phase) || flight.phase == CloseCandidate ==> s.redis == None || s.redis == flight.previous)
            && (flight.phase == ClosePrevious || flight.phase == FinalPing ==>
                  s.redis == Some(flight.candidate) && (flight.previous.Some? ==> flight.previous.value in s.retired))
            && (flight.phase == CloseCandidate ==> flight.candidate in s.retired)
            && (flight.phase == CloseAll ==> s.redis == None && flight.candidate in s.retired))
  }

  /** A client that exists is owned, a candidate under way, or being closed. */
  predicate Accounted(s: Store, c: Client) {
    c < s.created ==>
      || c in s.retired
      || s.redis == Some(c)
      || exists f :: f in s.flights && s.flights[f].candidate == c && Pending(s.flights[f].phase)
  }

  ghost predicate Invariant(s: Store) {
    && (s.life == Ready ==> s.redis.Some?)
    && (s.redis.Some? ==> s.redis.value < s.created && s.redis.value !in s.retired)
    && (forall c :: c in s.served ==> c < s.created)
    && (forall c :: c in s.retired ==> c < s.created)
    && (s.released ==> s.life == Destroying && s.redis == None && s.promise == None)
    && (s.promise.Some? ==> s.promise.value in s.flights)
    && (forall f :: FlightInvariant(s, f))
    && (forall c :: Accounted(s, c))
  }

  // ----- Every step keeps it ---------------------------------------------------------------

  lemma {:induction false} EnsureKeeps(s: Store, clientReady: bool, configured: bool, local: bool)
    requires Invariant(s)
    ensures Invariant(Ensure(s, clientReady, configured, local))
  {
    var n := Ensure(s, clientReady, configured, local);
    forall f
      ensures FlightInvariant(n, f)
    {
      assert FlightInvariant(s, f);
    }
    forall c: Client
      ensures Accounted(n, c)
    {
      assert Accounted(s, c);
      if n.created > s.created && c == s.created {
        assert n.flights[s.nextFlight].candidate == c;
      } else if c < s.created && c !in s.retired && s.redis != Some(c) {
        var f :| f in s.flights && s.flights[f].candidate == c && Pending(s.flights[f].phase);
        assert FlightInvariant(s, f);
        assert f in n.flights && n.flights[f] == s.flights[f];
      }
    }
  }

  lemma {:induction false} ContinueKeepsFlight(s: Store, f: nat, ok: bool, local: bool, g: nat)
    requires Invariant(s) && Unsettled(s, f)
    ensures FlightInvariant(Continue(s, f, ok, local), g)
  {
    assert FlightInvariant(s, f) && FlightInvariant(s, g);
  }

  lemma {:induction false} ContinueKeepsAccount(s: Store, f: nat, ok: bool, local: bool, c: Client)
    requires Invariant(s) && Unsettled(s, f)
    ensures Accounted(Continue(s, f, ok, local), c)
  {
    var n := Continue(s, f, ok, local);
    assert FlightInvariant(s, f) && Accounted(s, c);
    if c < s.created && c !in s.retired && s.redis != Some(c) {
      var g :| g in s.flights && s.flights[g].candidate == c && Pending(s.flights[g].phase);
      assert FlightInvariant(s, g);
      assert g == f;
      assert n.flights[f].candidate == c;
    }
  }

  lemma {:induction false} ContinueKeepsRest(s: Store, f: nat, ok: bool, local: bool)
    requires Invariant(s) && Unsettled(s, f)
    ensures var n := Continue(s, f, ok, local);
            && (n.life == Ready ==> n.redis.Some?)
            && (n.redis.Some? ==> n.redis.value < n.created && n.redis.value !in n.retired)
            && (forall c :: c in n.served ==> c < n.created)
            && (forall c :: c in n.retired ==> c < n.created)
            && (n.released ==> n.life == Destroying && n.redis == None && n.promise == None)
            && (n.promise.Some? ==> n.promise.value in n.flights)
  {
    assert FlightInvariant(s, f);
  }

  lemma {:induction false} ContinueKeeps(s: Store, f: nat, ok: bool, local: bool)
    requires Invariant(s) && Unsettled(s, f)
    ensures Invariant(Continue(s, f, ok, local))
  {
    hide Continue;
    ContinueKeepsRest(s, f, ok, local);
    forall g
      ensures FlightInvariant(Continue(s, f, ok, local), g)
    {
      ContinueKeepsFlight(s, f, ok, local, g);
    }
    forall c: Client
      ensures Accounted(Continue(s, f, ok, local), c)
    {
      ContinueKeepsAccount(s, f, ok, local, c);
    }
  }

  lemma {:induction false} OtherKeeps(s: Store, step: Step)
    requires Invariant(s) && Enabled(s, step) && !step.EnsureReady? && !step.FlightStep?
    ensures Invariant(Next(s, step))
  {
    var n := Next(s, step);
    forall f
      ensures FlightInvariant(n, f)
    {
      assert FlightInvariant(s, f);
      match step
      case Finalize(d) => assert FlightInvariant(s, d);
      case _ =>
    }
    forall c: Client
      ensures Accounted(n, c)
    {
      assert Accounted(s, c);
      if c < s.created && c !in s.retired && s.redis != Some(c) {
        var f :| f in s.flights && s.flights[f].candidate == c && Pending(s.flights[f].phase);
        assert FlightInvariant(s, f);
        assert f in n.flights && n.flights[f] == s.flights[f];
      }
    }
  }

  lemma {:induction false} StepKeepsInvariant(s: Store, step: Step)
    requires Invariant(s) && Enabled(s, step)
    ensures Invariant(Next(s, step))
  {
    hide Invariant, Ensure, Continue;
    match step
    case EnsureReady(clientReady, configured, local) => EnsureKeeps(s, clientReady, configured, local);
    case FlightStep(f, ok, local) => ContinueKeeps(s, f, ok, local);
    case _ => OtherKeeps(s, step);
  }

  lemma StartInvariant()
    ensures Invariant(Start)
  {
  }

  lemma {:induction false} RunInvariant(states: seq<Store>, steps: seq<Step>, i: nat)
    requires Run(states, steps) && i < |states|
    ensures Invariant(states[i])
    decreases i
  {
    hide Invariant, Next, Enabled;
    if i == 0 {
      StartInvariant();
    } else {
      RunInvariant(states, steps, i - 1);
      StepKeepsInvariant(states[i - 1], steps[i - 1]);
    }
  }

  // ----- Main results ----------------------------------------------------------------------

  /** In every reachable state: ready means an owned client that nobody is closing, and one recovery at most. */
  lemma {:induction false} ReadyAndSingle(states: seq<Store>, steps: seq<Step>, i: nat)
    requires Run(states, steps) && i < |states|
    ensures states[i].life == Ready ==> states[i].redis.Some? && states[i].redis.value !in states[i].retired
    ensures forall e, f :: e in states[i].flights && f in states[i].flights ==> e == f
    ensures forall f: nat :: Unsettled(states[i], f) ==> states[i].promise == Some(f) && states[i].life != Ready
  {
    RunInvariant(states, steps, i);
    forall e, f | e in states[i].flights && f in states[i].flights
      ensures e == f
    {
      assert FlightInvariant(states[i], e) && FlightInvariant(states[i], f);
    }
    forall f: nat | Unsettled(states[i], f)
      ensures states[i].promise == Some(f) && states[i].life != Ready
    {
      assert FlightInvariant(states[i], f);
    }
  }

  /** No client is ever lost: each one made is owned, a candidate under way, or being closed. */
  lemma {:induction false} NoClientLost(states: seq<Store>, steps: seq<Step>, i: nat, c: Client)
    requires Run(states, steps) && i < |states| && c < states[i].created
    ensures c in states[i].retired || states[i].redis == Some(c)
         || exists f :: Unsettled(states[i], f) && states[i].flights[f].candidate == c
  {
    RunInvariant(states, steps, i);
    assert Accounted(states[i], c);
    if c !in states[i].retired && states[i].redis != Some(c) {
      var f :| f in states[i].flights && states[i].flights[f].candidate == c && Pending(states[i].flights[f].phase);
      assert Unsettled(states[i], f);
    }
  }

  lemma {:induction false} DestroyingStep(s: Store, step: Step)
    requires Enabled(s, step) && s.life == Destroying
    ensures Next(s, step).life == Destroying && (s.released ==> Next(s, step).released)
    ensures Next(s, step).created == s.created
  {
  }

  /** Once the store is being destroyed it stays so and makes no further client. */
  lemma {:induction false} DestroyingIsAbsorbing(states: seq<Store>, steps: seq<Step>, i: nat, j: nat)
    requires Run(states, steps) && i <= j < |states| && states[i].life == Destroying
    ensures states[j].life == Destroying && states[j].created == states[i].created
    ensures states[i].released ==> states[j].released
    decreases j - i
  {
    if i < j {
      hide Next, Enabled;
      DestroyingIsAbsorbing(states, steps, i, j - 1);
      DestroyingStep(states[j - 1], steps[j - 1]);
      assert states[j - 1 + 1] == Next(states[j - 1], steps[j - 1]);
    }
  }

  /** After destruction has let go, no client is owned ever again, and every client made is being closed. */
  lemma {:induction false} DestroyedForGood(states: seq<Store>, steps: seq<Step>, i: nat, j: nat, c: Client)
    requires Run(states, steps) && i <= j < |states| && states[i].released && c < states[j].created
    ensures states[j].redis == None && c in states[j].retired
  {
    RunInvariant(states, steps, i);
    DestroyingIsAbsorbing(states, steps, i, j);
    RunInvariant(states, steps, j);
    NoClientLost(states, steps, j, c);
    ReadyAndSingle(states, steps, j);
  }

  // ----- An undestroyed store can become ready ---------------------------------------------

  /** A run from any state. */
  ghost predicate Path(states: seq<Store>, steps: seq<Step>) {
    && |states| == |steps| + 1
    && forall i :: 0 <= i < |steps| ==> Enabled(states[i], steps[i]) && states[i + 1] == Next(states[i], steps[i])
  }

  /** Steps left until ready, if every await succeeds. */
  function Distance(s: Store): nat {
    if s.life == Ready then 0
    else if s.promise.None? || s.promise.value !in s.flights then 6
    else
      match s.flights[s.promise.value].phase
      case Connect => 5
      case Ping => 4
      case Reconcile => 3
      case ClosePrevious => 2
      case FinalPing => 1
      case CloseCandidate => 8
      case CloseAll => 8
      case Settled => 7
  }

  lemma {:induction false} Nearer(s: Store) returns (step: Step)
    requires Invariant(s) && s.life != Destroying && s.life != Ready
    ensures Enabled(s, step) && Next(s, step).life != Destroying && Distance(Next(s, step)) < Distance(s)
  {
    if s.promise.None? {
      step := EnsureReady(false, true, false);
    } else {
      var f := s.promise.value;
      assert FlightInvariant(s, f);
      step := if s.flights[f].phase == Settled then Finalize(f) else FlightStep(f, true, false);
    }
  }

  /** Whatever has happened, a store that is not being destroyed can still become ready. */
  lemma {:induction false} CanBecomeReady(s: Store) returns (states: seq<Store>, steps: seq<Step>)
    requires Invariant(s) && s.life != Destroying
    ensures Path(states, steps) && states[0] == s && states[|steps|].life == Ready
    decreases Distance(s)
  {
    hide Invariant, Enabled, Next, Distance;
    if s.life == Ready {
      states, steps := [s], [];
    } else {
      var step := Nearer(s);
      StepKeepsInvariant(s, step);
      var restStates, restSteps := CanBecomeReady(Next(s, step));
      states, steps := [s] + restStates, [step] + restSteps;
    }
  }

  // ----- One recovery, undisturbed ---------------------------------------------------------

  /** The await of a recovery ends; the steps of one recovery in turn. */
  function Awaits(s: Store, f: nat, oks: seq<bool>, local: bool): Store
    requires f in s.flights
    decreases |oks|
  {
    if oks == [] then s
    else
      var n := Continue(s, f, oks[0], local);
      if f in n.flights then Awaits(n, f, oks[1..], local) else n
  }

  /** No recovery is under way and the store is not being destroyed. */
  predicate AtRest(s: Store) {
    s.life != Destroying && s.promise.None?
  }

  /** A request for readiness changes nothing exactly when the store is destroyed, ready, or already recovering. */
  lemma {:induction false} RecoveryStartsIff(s: Store, clientReady: bool, configured: bool, local: bool)
    requires Invariant(s)
    ensures Ensure(s, clientReady, configured, local) == s <==>
            s.life == Destroying || (s.life == Ready && clientReady) || s.promise.Some?
  {
  }

  /** How many awaits a successful recovery has. */
  function Successes(s: Store): seq<bool> {
    if s.redis.Some? then [true, true, true, true, true] else [true, true, true, true]
  }

  lemma {:induction false} OneAwait(s: Store, f: nat, oks: seq<bool>, local: bool)
    requires f in s.flights && oks != []
    ensures f in Continue(s, f, oks[0], local).flights
    ensures Awaits(s, f, oks, local) == Awaits(Continue(s, f, oks[0], local), f, oks[1..], local)
  {
  }

  /** On its way a recovery shows that it is recovering, and then that it is reconciling. */
  lemma {:induction false} RecoveryShown(s: Store, local: bool)
    requires Invariant(s) && AtRest(s)
    ensures var f := s.nextFlight;
            var begun := Next(s, EnsureReady(false, true, local));
            && f in begun.flights && begun.life == Recovering
            && Continue(begun, f, true, local).life == Recovering
            && f in Continue(begun, f, true, local).flights
            && Continue(Continue(begun, f, true, local), f, true, local).life == Reconciling
  {
  }

  /** A recovery begun at rest whose awaits all succeed ends ready on a new client, with the old one being closed. */
  lemma {:induction false} RecoverySucceeds(s: Store, local: bool)
    requires Invariant(s) && AtRest(s)
    ensures var f := s.nextFlight;
            var begun := Next(s, EnsureReady(false, true, local));
            && f in begun.flights
            && var n := Awaits(begun, f, Successes(s), local);
               && n.life == Ready && n.redis == Some(s.created) && n.created == s.created + 1
               && n.retired == Retire(s.retired, s.redis) && n.served == s.served + {s.created}
               && f in n.flights && n.flights[f].phase == Settled
  {
    var f := s.nextFlight;
    var s0 := Next(s, EnsureReady(false, true, local));
    var s1 := Continue(s0, f, true, local);
    var s2 := Continue(s1, f, true, local);
    var s3 := Continue(s2, f, true, local);
    var s4 := Continue(s3, f, true, local);
    hide Continue, Awaits, Next;
    var oks := Successes(s);
    OneAwait(s0, f, oks, local);
    OneAwait(s1, f, oks[1..], local);
    OneAwait(s2, f, oks[2..], local);
    OneAwait(s3, f, oks[3..], local);
    if s.redis.Some? {
      OneAwait(s4, f, oks[4..], local);
    }
  }

  /** A recovery that fails at any await owns no client in the end, is closing both, and falls back if it may. */
  lemma {:induction false} RecoveryFails(s: Store, f: nat, ok: bool, local: bool)
    requires Invariant(s) && Unsettled(s, f) && s.life != Destroying
    requires s.flights[f].phase != CloseCandidate && s.flights[f].phase != CloseAll
    ensures var failed := Continue(s, f, false, local);
            && Unsettled(failed, f) && failed.flights[f].phase == CloseAll
            && var n := Continue(failed, f, ok, local);
               && n.redis == None && n.life == (if local then Fallback else Unavailable)
               && n.flights[f].phase == Settled
               && n.retired == Retire(s.retired + {s.flights[f].candidate}, s.flights[f].previous)
  {
    assert FlightInvariant(s, f);
  }

  /**
   When a command fails on the client the store owns, the store lets go of that client, falls back if it
   may, and the next request for readiness recovers onto another one; on any other client it changes nothing
   but that this client is closed.
   */
  lemma {:induction false} RecoversAfterFailure(s: Store, c: Client, local: bool)
    requires Invariant(s) && AtRest(s) && c in s.served
    ensures var failed := Next(s, CommandFailed(c, local));
            && Invariant(failed) && AtRest(failed) && failed.retired == s.retired + {c}
            && (s.redis == Some(c) ==> failed.redis == None && failed.life == if local then Fallback else Unavailable)
            && (s.redis != Some(c) ==> failed.redis == s.redis && failed.life == s.life)
            && var begun := Next(failed, EnsureReady(false, true, local));
               && s.nextFlight in begun.flights
               && var n := Awaits(begun, s.nextFlight, Successes(failed), local);
                  n.life == Ready && n.redis.Some? && n.redis != Some(c) && n.redis != s.redis
  {
    hide Awaits, Ensure;
    StepKeepsInvariant(s, CommandFailed(c, local));
    RecoverySucceeds(Next(s, CommandFailed(c, local)), local);
  }

  /** From the step that destroys it on, the store is being destroyed. */
  lemma {:induction false} DestroyEnds(states: seq<Store>, steps: seq<Step>, i: nat, j: nat)
    requires Run(states, steps) && i < j < |states| && steps[i] == Destroy
    ensures states[j].life == Destroying && states[j].created == states[i + 1].created
  {
    assert states[i + 1] == Next(states[i], steps[i]);
    DestroyingIsAbsorbing(states, steps, i + 1, j);
  }

  /** Without configuration a recovery makes no client and falls back at once if it may. */
  lemma {:induction false} Unconfigured(s: Store, local: bool)
    requires Invariant(s) && AtRest(s)
    ensures var n := Next(s, EnsureReady(false, false, local));
            && n.life == (if local then Fallback else Unavailable)
            && n.created == s.created && n.redis == s.redis && n.retired == s.retired
            && Enabled(n, Finalize(s.nextFlight)) && AtRest(Next(n, Finalize(s.nextFlight)))
  {
  }

  /**
   Which steps change what is seen from outside: the life of the store, except that a request, a recovery, a
   failed command on its client, a fallback or its destruction does; and its client, except that a recovery,
   such a command or the release does.
   */
  lemma {:induction false} OnlyThese(s: Store, step: Step)
    requires Enabled(s, step)
    ensures var n := Next(s, step);
            && (n.life != s.life ==>
                  || step.EnsureReady? || step.FlightStep? || step.FallBack? || step == Destroy
                  || (step.CommandFailed? && s.redis == Some(step.client)))
            && (n.redis != s.redis ==>
                  || step.FlightStep? || step == Release
                  || (step.CommandFailed? && s.redis == Some(step.client)))
            && (step.FallBack? && s.life != Destroying ==> n == s.(life := if step.local then Fallback else Unavailable))
  {
  }
}
