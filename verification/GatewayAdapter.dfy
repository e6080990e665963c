/**
 The realtime gateway's Redis adapter (realtime.gateway.ts) after `afterInit`, as a state machine
 cut at every await: recoveries, readiness pings, socket handshakes, draining and shutdown
 interleave freely. The generation number makes a handshake notice any replacement of the adapter.
 */
module GatewayAdapter {
  import opened Wrappers

  datatype Life = Initializing | Recovering | Ready | Unavailable | Destroying

  type Client = nat

  datatype Pair = Pair(publisher: Option<Client>, subscriber: Option<Client>)

  /** Where a recovery stands. A settled one has returned; its finalizer has not run yet. */
  datatype Phase =
    | DisconnectingSockets
    | Connecting(candidate: Client)
    | Verifying(candidate: Client)
    | Abandoning
    | ClosingPrevious(candidate: Client)
    | ClosingBoth
    | ClosingFailed
    | Settled

  /** What a handshake saw when it was admitted, and whether the adapter was ever not that since. */
  datatype Handshake = Handshake(generation: nat, pair: Pair, interrupted: bool)

  datatype Gateway = Gateway(
    life: Life,
    generation: nat,
    pair: Pair,
    flights: map<nat, Phase>,       // recoveries whose finalizer has not run
    promise: Option<nat>,           // the readiness promise
    pings: map<nat, Pair>,          // readiness checks waiting for a ping
    handshakes: map<nat, Handshake>,// handshakes waiting for authentication
    nextClient: nat,
    nextFlight: nat,
    draining: bool)

  datatype Step =
    | EnsureReady(clientsReady: bool, configured: bool)
    | FlightStep(flight: nat, ok: bool)
    | Finalize(flight: nat)
    | StartPing(ping: nat)
    | PingFailed(ping: nat)
    | PingOk(ping: nat)
    | MarkCurrent
    | Admit(handshake: nat)
    | Authenticated(handshake: nat)
    | Drain
    | Destroy
    | DestroyClients

  const Start := Gateway(Initializing, 0, Pair(None, None), map[], None, map[], map[], 0, 0, false)

  // ----- Steps -----------------------------------------------------------------------------

  /** `ensureRedisAdapterReady`, which runs without awaiting up to the recovery's first await. */
  function Ensure(g: Gateway, clientsReady: bool, configured: bool): Gateway {
    if g.life == Destroying then g
    else if g.life == Ready && g.pair.publisher.Some? && g.pair.subscriber.Some? && clientsReady then g
    else if g.promise.Some? then g
    else
      g.(life := Recovering, generation := g.generation + 1,
         flights := g.flights[g.nextFlight := if configured then DisconnectingSockets else Settled],
         promise := Some(g.nextFlight), nextFlight := g.nextFlight + 1)
  }

  function SetPhase(g: Gateway, flight: nat, phase: Phase): Gateway {
    g.(flights := g.flights[flight := phase])
  }

  /** One await of a recovery is over; `ok` says whether the awaited operation succeeded. */
  function Continue(g: Gateway, flight: nat, ok: bool): Gateway
    requires flight in g.flights
  {
    match g.flights[flight]
    case DisconnectingSockets =>
      if !ok || g.life == Destroying then SetPhase(g, flight, Settled)
      else SetPhase(g, flight, Connecting(g.nextClient)).(nextClient := g.nextClient + 2)
    case Connecting(c) => SetPhase(g, flight, if ok then Verifying(c) else ClosingFailed)
    case Verifying(c) =>
      if !ok then SetPhase(g, flight, ClosingFailed)
      else if g.draining || g.life == Destroying then SetPhase(g, flight, Abandoning)
      else SetPhase(g, flight, ClosingPrevious(c)).(pair := Pair(Some(c), Some(c + 1)))
    case Abandoning => SetPhase(g, flight, Settled)
    case ClosingPrevious(_) =>
      if !ok then SetPhase(g, flight, ClosingFailed)
      else if g.life == Destroying then SetPhase(g, flight, ClosingBoth)
      else SetPhase(g, flight, Settled).(life := Ready)
    case ClosingBoth => SetPhase(g, flight, Settled).(pair := Pair(None, None))
    case ClosingFailed => SetPhase(g, flight, Settled).(pair := Pair(None, None))
    case Settled => g
  }

  /** The recovery's `finally`. */
  function RunFinalizer(g: Gateway, flight: nat): Gateway {
    g.(flights := g.flights - {flight},
       promise := if g.promise == Some(flight) then None else g.promise,
       life := if g.life != Ready && g.life != Destroying then Unavailable else g.life)
  }

  /** `markAdapterUnavailable` for a captured pair: only clients still owned are let go. */
  function MarkUnavailable(g: Gateway, seen: Pair): Gateway {
    if g.life == Destroying then g
    else g.(life := Unavailable,
            pair := Pair(if g.pair.publisher == seen.publisher then None else g.pair.publisher,
                         if g.pair.subscriber == seen.subscriber then None else g.pair.subscriber))
  }

  predicate CanAdmit(g: Gateway) {
    g.life == Ready && !g.draining
  }

  /** The check after authentication. */
  predicate PassesCheck(g: Gateway, h: Handshake) {
    CanAdmit(g) && h.generation == g.generation
  }

  predicate Enabled(g: Gateway, step: Step) {
    match step
    case EnsureReady(_, _) => true
    case FlightStep(f, _) => f in g.flights && g.flights[f] != Settled
    case Finalize(f) => f in g.flights && g.flights[f] == Settled
    case StartPing(p) => p !in g.pings && g.life == Ready
    case PingFailed(p) => p in g.pings
    case PingOk(p) => p in g.pings
    case MarkCurrent => g.life == Ready
    case Admit(h) => h !in g.handshakes && CanAdmit(g)
    case Authenticated(h) => h in g.handshakes
    case Drain => true
    case Destroy => true
    case DestroyClients => g.life == Destroying
  }

  function Act(g: Gateway, step: Step): Gateway
    requires Enabled(g, step)
  {
    match step
    case EnsureReady(clientsReady, configured) => Ensure(g, clientsReady, configured)
    case FlightStep(f, ok) => Continue(g, f, ok)
    case Finalize(f) => RunFinalizer(g, f)
    case StartPing(p) => g.(pings := g.pings[p := g.pair])
    case PingFailed(p) => Ensure(MarkUnavailable(g.(pings := g.pings - {p}), g.pings[p]), false, true)
    case PingOk(p) => g.(pings := g.pings - {p})
    case MarkCurrent => MarkUnavailable(g, g.pair)
    case Admit(h) => g.(handshakes := g.handshakes[h := Handshake(g.generation, g.pair, false)])
    case Authenticated(h) => g.(handshakes := g.handshakes - {h})
    case Drain => g.(draining := true)
    case Destroy => g.(life := Destroying)
    case DestroyClients => g.(pair := Pair(None, None))
  }

  /** Every pending handshake takes note when the adapter is not the one it was admitted on. */
  function Observe(g: Gateway): Gateway {
    g.(handshakes := map h | h in g.handshakes ::
         g.handshakes[h].(interrupted := g.handshakes[h].interrupted || g.life != Ready || g.pair != g.handshakes[h].pair))
  }

  function Next(g: Gateway, step: Step): Gateway
    requires Enabled(g, step)
  {
    Observe(Act(g, step))
  }

  /** The states of a run: it begins at the start and every step is enabled where it is taken. */
  ghost predicate Run(states: seq<Gateway>, steps: seq<Step>) {
    && |states| == |steps| + 1
    && states[0] == Start
    && forall i :: 0 <= i < |steps| ==> Enabled(states[i], steps[i]) && states[i + 1] == Next(states[i], steps[i])
  }

  // ----- The invariant ---------------------------------------------------------------------

  function Candidate(phase: Phase): Option<Client> {
    match phase
    case Connecting(c) => Some(c)
    case Verifying(c) => Some(c)
    case ClosingPrevious(c) => Some(c)
    case _ => None
  }

  predicate Below(c: Option<Client>, limit: nat) {
    c.Some? ==> c.value < limit
  }

  /** What a recovery that has not settled implies. */
  predicate FlightInvariant(g: Gateway, f: nat) {
    f in g.flights ==>
      && f < g.nextFlight
      && g.promise == Some(f)
      && (g.flights[f] != Settled ==> g.life != Ready)
      && (Candidate(g.flights[f]).Some? ==> Candidate(g.flights[f]).value + 2 <= g.nextClient)
      && (g.flights[f].ClosingPrevious? && g.life != Destroying ==>
            g.pair == Pair(Some(g.flights[f].candidate), Some(g.flights[f].candidate + 1)))
  }

  /** A waiting ping knows only clients older than any candidate. */
  predicate PingInvariant(g: Gateway, p: nat) {
    p in g.pings ==>
      && g.pings[p].publisher.Some? && g.pings[p].subscriber.Some?
      && Below(g.pings[p].publisher, g.nextClient) && Below(g.pings[p].subscriber, g.nextClient)
      && forall f :: f in g.flights && Candidate(g.flights[f]).Some? ==>
           && g.pings[p].publisher.value < Candidate(g.flights[f]).value
           && g.pings[p].subscriber.value < Candidate(g.flights[f]).value
  }

  predicate HandshakeInvariant(g: Gateway, h: nat) {
    h in g.handshakes ==>
      && g.handshakes[h].generation <= g.generation
      && g.handshakes[h].pair.publisher.Some? && g.handshakes[h].pair.subscriber.Some?
      && (g.handshakes[h].generation == g.generation ==>
            && (forall f :: f in g.flights ==> g.flights[f] == Settled)
            && (g.life == Ready ==> !g.handshakes[h].interrupted && g.pair == g.handshakes[h].pair))
  }

  ghost predicate Invariant(g: Gateway) {
    && (g.life == Ready ==> g.pair.publisher.Some? && g.pair.subscriber.Some?)
    && Below(g.pair.publisher, g.nextClient) && Below(g.pair.subscriber, g.nextClient)
    && (g.promise.Some? ==> g.promise.value in g.flights)
    && (forall f :: FlightInvariant(g, f))
    && (forall p :: PingInvariant(g, p))
    && (forall h :: HandshakeInvariant(g, h))
  }

  // ----- Every step keeps the invariant ----------------------------------------------------

  /** The three families of facts, without the handshakes' history. */
  ghost predicate Core(g: Gateway) {
    && (g.life == Ready ==> g.pair.publisher.Some? && g.pair.subscriber.Some?)
    && Below(g.pair.publisher, g.nextClient) && Below(g.pair.subscriber, g.nextClient)
    && (g.promise.Some? ==> g.promise.value in g.flights)
    && (forall f :: FlightInvariant(g, f))
    && (forall p :: PingInvariant(g, p))
  }

  lemma {:induction false} EnsureKeepsCore(g: Gateway, clientsReady: bool, configured: bool)
    requires Core(g)
    ensures Core(Ensure(g, clientsReady, configured))
  {
    var n := Ensure(g, clientsReady, configured);
    forall f
      ensures FlightInvariant(n, f)
    {
      assert FlightInvariant(g, f);
    }
    forall p
      ensures PingInvariant(n, p)
    {
      assert PingInvariant(g, p);
    }
  }

  lemma {:induction false} ContinueKeepsCore(g: Gateway, flight: nat, ok: bool)
    requires Core(g) && flight in g.flights && g.flights[flight] != Settled
    ensures Core(Continue(g, flight, ok))
  {
    var n := Continue(g, flight, ok);
    forall f
      ensures FlightInvariant(n, f)
    {
      ContinueKeepsFlight(g, flight, ok, f);
    }
    hide Continue;
    forall p
      ensures PingInvariant(n, p)
    {
      ContinueKeepsPing(g, flight, ok, p);
    }
    ContinueKeepsPair(g, flight, ok);
  }

  lemma {:induction false} ContinueKeepsFlight(g: Gateway, flight: nat, ok: bool, f: nat)
    requires Core(g) && flight in g.flights && g.flights[flight] != Settled
    ensures FlightInvariant(Continue(g, flight, ok), f)
  {
    hide PingInvariant;
    assert FlightInvariant(g, f) && FlightInvariant(g, flight);
  }

  lemma {:induction false} ContinueKeepsPing(g: Gateway, flight: nat, ok: bool, p: nat)
    requires Core(g) && flight in g.flights && g.flights[flight] != Settled
    ensures PingInvariant(Continue(g, flight, ok), p)
  {
    assert PingInvariant(g, p) && FlightInvariant(g, flight);
  }

  lemma {:induction false} ContinueKeepsPair(g: Gateway, flight: nat, ok: bool)
    requires Core(g) && flight in g.flights && g.flights[flight] != Settled
    ensures var n := Continue(g, flight, ok);
            && (n.life == Ready ==> n.pair.publisher.Some? && n.pair.subscriber.Some?)
            && Below(n.pair.publisher, n.nextClient) && Below(n.pair.subscriber, n.nextClient)
            && (n.promise.Some? ==> n.promise.value in n.flights)
  {
    assert FlightInvariant(g, flight);
  }

  lemma {:induction false} MarkKeepsCore(g: Gateway, seen: Pair)
    requires Core(g)
    requires g.life == Ready || exists p :: p in g.pings && g.pings[p] == seen
    ensures Core(MarkUnavailable(g, seen))
  {
    var n := MarkUnavailable(g, seen);
    forall f
      ensures FlightInvariant(n, f)
    {
      assert FlightInvariant(g, f);
      if g.life != Ready {
        var p :| p in g.pings && g.pings[p] == seen;
        assert PingInvariant(g, p);
      }
    }
    forall p
      ensures PingInvariant(n, p)
    {
      assert PingInvariant(g, p);
    }
  }

  lemma {:induction false} DropPingKeepsCore(g: Gateway, ping: nat)
    requires Core(g)
    ensures Core(g.(pings := g.pings - {ping}))
  {
    var n := g.(pings := g.pings - {ping});
    forall f
      ensures FlightInvariant(n, f)
    {
      assert FlightInvariant(g, f);
    }
    forall p
      ensures PingInvariant(n, p)
    {
      assert PingInvariant(g, p);
    }
  }

  lemma {:induction false} PingFailedKeepsCore(g: Gateway, ping: nat)
    requires Core(g) && ping in g.pings
    ensures Core(Act(g, PingFailed(ping)))
  {
    hide Core, Ensure;
    MarkKeepsCore(g, g.pings[ping]);
    DropPingKeepsCore(MarkUnavailable(g, g.pings[ping]), ping);
    EnsureKeepsCore(MarkUnavailable(g, g.pings[ping]).(pings := g.pings - {ping}), false, true);
  }

  lemma {:induction false} OtherKeepsCore(g: Gateway, step: Step)
    requires Core(g) && Enabled(g, step)
    requires !step.EnsureReady? && !step.FlightStep? && !step.PingFailed? && !step.MarkCurrent?
    ensures Core(Act(g, step))
  {
    var n := Act(g, step);
    forall f
      ensures FlightInvariant(n, f)
    {
      assert FlightInvariant(g, f);
      match step
      case Finalize(d) => assert FlightInvariant(g, d);
      case _ =>
    }
    forall p
      ensures PingInvariant(n, p)
    {
      assert PingInvariant(g, p);
      forall f | p in n.pings && f in n.flights && Candidate(n.flights[f]).Some?
        ensures n.pings[p].publisher.Some? && n.pings[p].subscriber.Some?
        ensures n.pings[p].publisher.value < Candidate(n.flights[f]).value
        ensures n.pings[p].subscriber.value < Candidate(n.flights[f]).value
      {
        assert FlightInvariant(g, f);
      }
    }
  }

  lemma {:induction false} ActKeepsCore(g: Gateway, step: Step)
    requires Core(g) && Enabled(g, step)
    ensures Core(Act(g, step))
  {
    hide Core, Ensure, Continue;
    match step
    case EnsureReady(clientsReady, configured) => EnsureKeepsCore(g, clientsReady, configured);
    case FlightStep(f, ok) => ContinueKeepsCore(g, f, ok);
    case PingFailed(p) => PingFailedKeepsCore(g, p);
    case MarkCurrent => MarkKeepsCore(g, g.pair);
    case _ => OtherKeepsCore(g, step);
  }

  predicate Unsettled(g: Gateway) {
    exists f :: f in g.flights && g.flights[f] != Settled
  }

  /** What a step does to the generation, the recoveries and the readiness of the adapter. */
  predicate Progress(g: Gateway, n: Gateway) {
    && n.generation >= g.generation
    && (n.generation == g.generation ==>
          && (forall f :: f in n.flights ==> f in g.flights && (g.flights[f] == Settled ==> n.flights[f] == Settled))
          && (n.life == Ready && g.life == Ready ==> n.pair == g.pair || Unsettled(g)))
    && (n.life == Ready && g.life != Ready ==> Unsettled(g))
  }

  lemma {:induction false} ActProgress(g: Gateway, step: Step)
    requires Enabled(g, step)
    ensures Progress(g, Act(g, step))
  {
    hide Progress, Ensure, Continue;
    match step
    case EnsureReady(clientsReady, configured) => EnsureProgress(g, clientsReady, configured);
    case FlightStep(f, ok) => ContinueProgress(g, f, ok);
    case PingFailed(p) =>
      var marked := MarkUnavailable(g.(pings := g.pings - {p}), g.pings[p]);
      EnsureProgress(marked, false, true);
      MarkedProgress(g, marked, Ensure(marked, false, true));
    case _ => OtherProgress(g, step);
  }

  lemma {:induction false} EnsureProgress(g: Gateway, clientsReady: bool, configured: bool)
    ensures Progress(g, Ensure(g, clientsReady, configured))
    ensures g.life != Ready ==> Ensure(g, clientsReady, configured).life != Ready
  {
  }

  lemma {:induction false} ContinueProgress(g: Gateway, f: nat, ok: bool)
    requires f in g.flights && g.flights[f] != Settled
    ensures Progress(g, Continue(g, f, ok))
  {
    assert Unsettled(g);
  }

  lemma {:induction false} MarkedProgress(g: Gateway, marked: Gateway, n: Gateway)
    requires marked.flights == g.flights && marked.generation == g.generation && marked.life != Ready
    requires Progress(marked, n) && n.life != Ready
    ensures Progress(g, n)
  {
  }

  lemma {:induction false} OtherProgress(g: Gateway, step: Step)
    requires Enabled(g, step) && !step.EnsureReady? && !step.FlightStep? && !step.PingFailed?
    ensures Progress(g, Act(g, step))
  {
  }

  lemma {:induction false} StepKeepsInvariant(g: Gateway, step: Step)
    requires Invariant(g) && Enabled(g, step)
    ensures Invariant(Next(g, step))
  {
    hide Act, Enabled;
    assert Core(g);
    ActKeepsCore(g, step);
    ObserveKeepsCore(Act(g, step));
    forall h
      ensures HandshakeInvariant(Next(g, step), h)
    {
      assert HandshakeInvariant(g, h);
      HandshakeKept(g, step, h);
    }
  }

  lemma {:induction false} ObserveKeepsCore(g: Gateway)
    requires Core(g)
    ensures Core(Observe(g))
  {
    var n := Observe(g);
    forall f
      ensures FlightInvariant(n, f)
    {
      assert FlightInvariant(g, f);
    }
    forall p
      ensures PingInvariant(n, p)
    {
      assert PingInvariant(g, p);
    }
  }

  lemma {:induction false} HandshakesOfAct(g: Gateway, step: Step, h: nat)
    requires Enabled(g, step) && h in Act(g, step).handshakes
    ensures if step == Admit(h) then CanAdmit(g) && Act(g, step) == g.(handshakes := Act(g, step).handshakes)
                 && Act(g, step).handshakes[h] == Handshake(g.generation, g.pair, false)
            else h in g.handshakes && Act(g, step).handshakes[h] == g.handshakes[h]
  {
  }

  lemma {:induction false} HandshakeKept(g: Gateway, step: Step, h: nat)
    requires Invariant(g) && Enabled(g, step)
    ensures HandshakeInvariant(Next(g, step), h)
  {
    hide Act, Enabled, Invariant;
    if h in Next(g, step).handshakes {
      HandshakesOfAct(g, step, h);
      if step == Admit(h) {
        AdmittedInvariant(g);
      } else {
        PendingInvariant(g, step, h);
      }
    }
  }

  lemma {:induction false} AdmittedInvariant(g: Gateway)
    requires Invariant(g) && CanAdmit(g)
    ensures g.pair.publisher.Some? && g.pair.subscriber.Some?
    ensures forall f :: f in g.flights ==> g.flights[f] == Settled
  {
    forall f | f in g.flights
      ensures g.flights[f] == Settled
    {
      assert FlightInvariant(g, f);
    }
  }

  lemma {:induction false} PendingInvariant(g: Gateway, step: Step, h: nat)
    requires Invariant(g) && Enabled(g, step) && h in g.handshakes && h in Act(g, step).handshakes
    requires Act(g, step).handshakes[h] == g.handshakes[h]
    ensures HandshakeInvariant(Observe(Act(g, step)), h)
  {
    hide Act, Enabled;
    assert HandshakeInvariant(g, h);
    ActProgress(g, step);
  }

  // ----- Main results ----------------------------------------------------------------------

  lemma StartInvariant()
    ensures Invariant(Start)
  {
  }

  lemma {:induction false} RunInvariant(states: seq<Gateway>, steps: seq<Step>, i: nat)
    requires Run(states, steps) && i < |states|
    ensures Invariant(states[i])
    decreases i
  {
    hide Invariant, Next, Enabled;
    if i == 0 {
      StartInvariant();
    } else {
      RunInvariant(states, steps, i - 1);
      StepKeepsInvariant(states[i - 1], steps[i - 1]);
    }
  }

  /** Once the gateway is being destroyed it stays so, whatever was in flight. */
  lemma {:induction false} DestroyingIsAbsorbing(states: seq<Gateway>, steps: seq<Step>, i: nat, j: nat)
    requires Run(states, steps) && i <= j < |states| && states[i].life == Destroying
    ensures states[j].life == Destroying
    decreases j - i
  {
    if i < j {
      hide Act, Enabled;
      DestroyingIsAbsorbing(states, steps, i, j - 1);
      DestroyingStep(states[j - 1], steps[j - 1]);
      assert states[j - 1 + 1] == Next(states[j - 1], steps[j - 1]);
    }
  }

  lemma {:induction false} DestroyingStep(g: Gateway, step: Step)
    requires Enabled(g, step) && g.life == Destroying
    ensures Act(g, step).life == Destroying
  {
  }

  /** In every reachable state: a ready adapter has both clients, and at most one recovery is in flight. */
  lemma {:induction false} ReadyAndSingle(states: seq<Gateway>, steps: seq<Step>, i: nat)
    requires Run(states, steps) && i < |states|
    ensures states[i].life == Ready ==> states[i].pair.publisher.Some? && states[i].pair.subscriber.Some?
    ensures forall e, f :: e in states[i].flights && f in states[i].flights ==> e == f
  {
    RunInvariant(states, steps, i);
    forall e, f | e in states[i].flights && f in states[i].flights
      ensures e == f
    {
      assert FlightInvariant(states[i], e) && FlightInvariant(states[i], f);
    }
  }

  /** A handshake whose record is still clean saw the same ready adapter after every step since its admission. */
  lemma {:induction false} CleanHistory(states: seq<Gateway>, steps: seq<Step>, i: nat, j: nat, h: nat)
    requires Run(states, steps) && i < j < |states| && steps[i] == Admit(h)
    requires forall k :: i < k <= j ==> h in states[k].handshakes
    requires !states[j].handshakes[h].interrupted
    ensures states[j].handshakes[h].pair == states[i].pair && states[j].handshakes[h].generation == states[i].generation
    ensures forall k :: i < k <= j ==> states[k].life == Ready && states[k].pair == states[i].pair
    decreases j
  {
    hide Act, Enabled;
    assert states[j - 1 + 1] == Next(states[j - 1], steps[j - 1]);
    HandshakesOfAct(states[j - 1], steps[j - 1], h);
    if i + 1 < j {
      assert steps[j - 1] != Admit(h) by { assert Enabled(states[j - 1], steps[j - 1]); PendingNotAdmitted(states[j - 1], h); }
      CleanHistory(states, steps, i, j - 1, h);
    }
  }

  lemma {:induction false} PendingNotAdmitted(g: Gateway, h: nat)
    requires h in g.handshakes
    ensures !Enabled(g, Admit(h))
  {
  }

  /**
   The generation check excludes ABA: if a handshake admitted at `i` passes the check at `j`, then
   between the two the adapter was ready throughout with the publisher and subscriber it has now.
   */
  lemma {:induction false} NoAba(states: seq<Gateway>, steps: seq<Step>, i: nat, j: nat, h: nat)
    requires Run(states, steps) && i < j < |states| && steps[i] == Admit(h)
    requires forall k :: i < k <= j ==> h in states[k].handshakes
    requires PassesCheck(states[j], states[j].handshakes[h])
    ensures forall k :: i < k <= j ==> states[k].life == Ready && states[k].pair == states[i].pair
    ensures states[i].pair.publisher.Some? && states[i].pair.subscriber.Some?
    ensures states[j].generation == states[i].generation
  {
    hide Next, Enabled, Invariant;
    RunInvariant(states, steps, j);
    HandshakeOf(states[j], h);
    CleanHistory(states, steps, i, j, h);
  }

  lemma {:induction false} HandshakeOf(g: Gateway, h: nat)
    requires Invariant(g) && h in g.handshakes
    ensures HandshakeInvariant(g, h)
  {
  }

  // ----- Exactly when a handshake passes ---------------------------------------------------

  /** A pending handshake keeps the generation it was admitted with. */
  lemma {:induction false} AdmittedGeneration(states: seq<Gateway>, steps: seq<Step>, i: nat, j: nat, h: nat)
    requires Run(states, steps) && i < j < |states| && steps[i] == Admit(h)
    requires forall k :: i < k <= j ==> h in states[k].handshakes
    ensures CanAdmit(states[i]) && states[j].handshakes[h].generation == states[i].generation
    decreases j
  {
    hide Act;
    assert states[j - 1 + 1] == Next(states[j - 1], steps[j - 1]);
    HandshakesOfAct(states[j - 1], steps[j - 1], h);
    if i + 1 < j {
      AdmittedGeneration(states, steps, i, j - 1, h);
      PendingNotAdmitted(states[j - 1], h);
    }
  }

  /** An adapter that is ready before and after a step has not been replaced by it. */
  lemma {:induction false} ReadyKeepsGeneration(g: Gateway, step: Step)
    requires Invariant(g) && Enabled(g, step) && g.life == Ready && Act(g, step).life == Ready
    ensures Act(g, step).generation == g.generation
  {
  }

  lemma {:induction false} ReadyThroughout(states: seq<Gateway>, steps: seq<Step>, i: nat, j: nat)
    requires Run(states, steps) && i <= j < |states|
    requires forall k :: i <= k <= j ==> states[k].life == Ready
    ensures states[j].generation == states[i].generation
    decreases j - i
  {
    hide Act, Enabled, Invariant;
    if i < j {
      ReadyThroughout(states, steps, i, j - 1);
      RunInvariant(states, steps, j - 1);
      assert states[j - 1 + 1] == Next(states[j - 1], steps[j - 1]);
      ReadyKeepsGeneration(states[j - 1], steps[j - 1]);
    }
  }

  /** A handshake passes exactly when the adapter has been ready ever since its admission and no drain has begun. */
  lemma {:induction false} PassesIff(states: seq<Gateway>, steps: seq<Step>, i: nat, j: nat, h: nat)
    requires Run(states, steps) && i < j < |states| && steps[i] == Admit(h)
    requires forall k :: i < k <= j ==> h in states[k].handshakes
    ensures PassesCheck(states[j], states[j].handshakes[h]) <==>
            !states[j].draining && forall k :: i < k <= j ==> states[k].life == Ready
  {
    hide Run, Invariant;
    AdmittedGeneration(states, steps, i, j, h);
    if PassesCheck(states[j], states[j].handshakes[h]) {
      NoAba(states, steps, i, j, h);
    } else if !states[j].draining && forall k :: i < k <= j ==> states[k].life == Ready {
      ReadyThroughout(states, steps, i, j);
    }
  }

  // ----- A gateway neither draining nor destroyed can become ready -------------------------

  /** A run from any state. */
  ghost predicate Path(states: seq<Gateway>, steps: seq<Step>) {
    && |states| == |steps| + 1
    && forall i :: 0 <= i < |steps| ==> Enabled(states[i], steps[i]) && states[i + 1] == Next(states[i], steps[i])
  }

  /** Steps left until ready, if every await succeeds. */
  function Distance(g: Gateway): nat {
    if g.life == Ready then 0
    else if g.promise.None? || g.promise.value !in g.flights then 5
    else
      match g.flights[g.promise.value]
      case DisconnectingSockets => 4
      case Connecting(_) => 3
      case Verifying(_) => 2
      case ClosingPrevious(_) => 1
      case Abandoning => 7
      case ClosingBoth => 7
      case ClosingFailed => 7
      case Settled => 6
  }

  predicate Open(g: Gateway) {
    g.life != Destroying && !g.draining
  }

  lemma {:induction false} Nearer(g: Gateway) returns (step: Step)
    requires Invariant(g) && Open(g) && g.life != Ready
    ensures Enabled(g, step) && Open(Next(g, step)) && Distance(Next(g, step)) < Distance(g)
  {
    if g.promise.None? {
      step := EnsureReady(false, true);
    } else {
      var f := g.promise.value;
      assert FlightInvariant(g, f);
      step := if g.flights[f] == Settled then Finalize(f) else FlightStep(f, true);
    }
  }

  /** Whatever has happened, such a gateway can still get a ready adapter, with both its clients. */
  lemma {:induction false} CanBecomeReady(g: Gateway) returns (states: seq<Gateway>, steps: seq<Step>)
    requires Invariant(g) && Open(g)
    ensures Path(states, steps) && states[0] == g && CanAdmit(states[|steps|])
    ensures states[|steps|].pair.publisher.Some? && states[|steps|].pair.subscriber.Some?
    decreases Distance(g)
  {
    if g.life == Ready {
      states, steps := [g], [];
    } else {
      hide Invariant, Enabled, Next, Distance;
      var step := Nearer(g);
      StepKeepsInvariant(g, step);
      var restStates, restSteps := CanBecomeReady(Next(g, step));
      states, steps := [g] + restStates, [step] + restSteps;
    }
  }

  // ----- One recovery, undisturbed ---------------------------------------------------------

  /** The awaits of one recovery in turn; `oks` says which of them succeed. */
  function Awaits(g: Gateway, f: nat, oks: seq<bool>): Gateway
    requires f in g.flights
    decreases |oks|
  {
    if oks == [] then g else Awaits(Continue(g, f, oks[0]), f, oks[1..])
  }

  lemma {:induction false} FlightStays(g: Gateway, f: nat, ok: bool)
    requires f in g.flights
    ensures f in Continue(g, f, ok).flights
  {
  }

  lemma {:induction false} OneAwait(g: Gateway, f: nat, oks: seq<bool>)
    requires f in g.flights && oks != []
    ensures f in Continue(g, f, oks[0]).flights
    ensures Awaits(g, f, oks) == Awaits(Continue(g, f, oks[0]), f, oks[1..])
  {
    FlightStays(g, f, oks[0]);
    hide Continue;
  }

  /** A recovery begun at rest whose awaits all succeed installs two new clients under a new generation. */
  lemma {:induction false} RecoverySucceeds(g: Gateway)
    requires Invariant(g) && Open(g) && g.promise.None?
    ensures var f := g.nextFlight;
            var begun := Ensure(g, false, true);
            && f in begun.flights
            && var n := Awaits(begun, f, [true, true, true, true]);
               && n.life == Ready && n.pair == Pair(Some(g.nextClient), Some(g.nextClient + 1))
               && n.nextClient == g.nextClient + 2 && n.generation == g.generation + 1
  {
    var f := g.nextFlight;
    var g0 := Ensure(g, false, true);
    var g1 := Continue(g0, f, true);
    var g2 := Continue(g1, f, true);
    var g3 := Continue(g2, f, true);
    hide Continue, Awaits, Invariant, Ensure;
    var oks := [true, true, true, true];
    OneAwait(g0, f, oks);
    OneAwait(g1, f, oks[1..]);
    OneAwait(g2, f, oks[2..]);
    OneAwait(g3, f, oks[3..]);
  }

  /**
   A recovery that fails while it connects, verifies or closes ends, after its clients are closed, with no
   adapter, and its finalizer calls the gateway unavailable; one that cannot disconnect the sockets leaves the
   adapter it found and is finalized the same way.
   */
  lemma {:induction false} RecoveryFails(g: Gateway, f: nat, ok: bool)
    requires Invariant(g) && f in g.flights && g.life != Destroying
    requires g.flights[f].Connecting? || g.flights[f].Verifying? || g.flights[f].ClosingPrevious? || g.flights[f].DisconnectingSockets?
    ensures var failed := Continue(g, f, false);
            && f in failed.flights
            && if g.flights[f].DisconnectingSockets? then
                 RunFinalizer(failed, f).pair == g.pair && RunFinalizer(failed, f).life == Unavailable
               else
                 && failed.flights[f] == ClosingFailed
                 && var n := RunFinalizer(Continue(failed, f, ok), f);
                    n.pair == Pair(None, None) && n.life == Unavailable && n.promise.None?
  {
    assert FlightInvariant(g, f);
  }

  /** A request for readiness changes nothing exactly when the gateway is destroyed, ready, or already recovering. */
  lemma {:induction false} RecoveryStartsIff(g: Gateway, clientsReady: bool, configured: bool)
    requires Invariant(g)
    ensures Ensure(g, clientsReady, configured) == g <==>
            g.life == Destroying || (g.life == Ready && clientsReady) || g.promise.Some?
  {
  }

  /** A ping that fails on the pair in use lets go of it and leaves a recovery under way; an older pair's ping does not. */
  lemma {:induction false} FailedPing(g: Gateway, p: nat)
    requires Invariant(g) && p in g.pings && g.life == Ready && g.promise.None?
    ensures var n := Next(g, PingFailed(p));
            && n.life == Recovering && n.promise == Some(g.nextFlight) && n.generation == g.generation + 1
            && (g.pings[p] == g.pair ==> n.pair == Pair(None, None))
            && (g.pings[p].publisher != g.pair.publisher && g.pings[p].subscriber != g.pair.subscriber ==> n.pair == g.pair)
  {
  }

  lemma {:induction false} DrainingStep(g: Gateway, step: Step)
    requires Enabled(g, step) && g.draining
    ensures Act(g, step).draining
  {
  }

  lemma {:induction false} DrainLasts(states: seq<Gateway>, steps: seq<Step>, i: nat, j: nat)
    requires Run(states, steps) && i < j < |states| && steps[i] == Drain
    ensures states[j].draining
    decreases j
  {
    hide Act, Enabled;
    assert states[j - 1 + 1] == Next(states[j - 1], steps[j - 1]);
    if i + 1 < j {
      DrainLasts(states, steps, i, j - 1);
      DrainingStep(states[j - 1], steps[j - 1]);
    } else {
      DrainDrains(states[i]);
    }
  }

  lemma {:induction false} DrainDrains(g: Gateway)
    ensures Enabled(g, Drain) && Next(g, Drain).draining
  {
  }

  /** From a drain on, no handshake is admitted and none passes. */
  lemma {:induction false} DrainEnds(states: seq<Gateway>, steps: seq<Step>, i: nat, j: nat)
    requires Run(states, steps) && i < j < |states| && steps[i] == Drain
    ensures states[j].draining && forall h :: !Enabled(states[j], Admit(h))
    ensures forall h :: h in states[j].handshakes ==> !PassesCheck(states[j], states[j].handshakes[h])
  {
    hide Run;
    DrainLasts(states, steps, i, j);
  }

  /** From the step that destroys it on, the gateway is being destroyed. */
  lemma {:induction false} DestroyEnds(states: seq<Gateway>, steps: seq<Step>, i: nat, j: nat)
    requires Run(states, steps) && i < j < |states| && steps[i] == Destroy
    ensures states[j].life == Destroying && forall h :: !Enabled(states[j], Admit(h))
  {
    assert states[i + 1] == Next(states[i], steps[i]);
    DestroyingIsAbsorbing(states, steps, i + 1, j);
  }

  /** A readiness check that succeeds leaves the gateway as it was. */
  lemma {:induction false} PingLeavesNoTrace(g: Gateway, p: nat)
    requires Enabled(g, StartPing(p))
    ensures var started := Act(g, StartPing(p));
            Enabled(started, PingOk(p)) && Act(started, PingOk(p)) == g
    ensures Act(g, StartPing(p)).pings[p] == g.pair
  {
    assert g.pings[p := g.pair] - {p} == g.pings;
  }

  /** An adapter marked unavailable while it is ready is let go of whole. */
  lemma {:induction false} MarkedWhole(g: Gateway)
    requires Enabled(g, MarkCurrent)
    ensures Act(g, MarkCurrent) == g.(life := Unavailable, pair := Pair(None, None))
  {
  }

  /** Without configuration a recovery makes no client, and its end leaves the gateway unavailable. */
  lemma {:induction false} Unconfigured(g: Gateway)
    requires Invariant(g) && Open(g) && g.promise.None?
    ensures var f := g.nextFlight;
            var begun := Ensure(g, false, false);
            && f in begun.flights && begun.flights[f] == Settled
            && begun.nextClient == g.nextClient && begun.pair == g.pair
            && RunFinalizer(begun, f).life == Unavailable && RunFinalizer(begun, f).promise.None?
  {
  }

  /** While draining or being destroyed no new client is installed: a step keeps the pair or lets go of parts of it. */
  predicate Shrinks(before: Pair, after: Pair) {
    && (after.publisher == before.publisher || after.publisher == None)
    && (after.subscriber == before.subscriber || after.subscriber == None)
  }

  lemma {:induction false} NothingInstalled(g: Gateway, step: Step)
    requires Enabled(g, step) && !Open(g)
    ensures Shrinks(g.pair, Act(g, step).pair)
  {
  }

  /** After its clients are destroyed, the gateway never has one again. */
  lemma {:induction false} DestroyedForGood(states: seq<Gateway>, steps: seq<Step>, i: nat, j: nat)
    requires Run(states, steps) && i < j < |states| && steps[i] == DestroyClients
    ensures states[j].life == Destroying && states[j].pair == Pair(None, None)
    decreases j
  {
    hide Act;
    assert states[j - 1 + 1] == Next(states[j - 1], steps[j - 1]);
    assert states[i + 1] == Next(states[i], steps[i]);
    DestroyingIsAbsorbing(states, steps, i, j);
    DestroyingIsAbsorbing(states, steps, i, j - 1);
    if i + 1 < j {
      DestroyedForGood(states, steps, i, j - 1);
      NothingInstalled(states[j - 1], steps[j - 1]);
    } else {
      ClientsDestroyed(states[i]);
    }
  }

  lemma {:induction false} ClientsDestroyed(g: Gateway)
    requires Enabled(g, DestroyClients)
    ensures Act(g, DestroyClients).pair == Pair(None, None)
  {
  }

  /** A recovery overtaken by destruction ends without an adapter, or leaves the one it found. */
  lemma {:induction false} OvertakenRecovery(g: Gateway, f: nat, ok: bool)
    requires Invariant(g) && f in g.flights && g.life == Destroying
    ensures g.flights[f].ClosingPrevious? ==>
              var closing := Continue(g, f, true);
              && f in closing.flights && closing.flights[f] == ClosingBoth
              && Continue(closing, f, ok).pair == Pair(None, None) && Continue(closing, f, ok).flights[f] == Settled
    ensures g.flights[f].Verifying? ==>
              var abandoned := Continue(g, f, true);
              && f in abandoned.flights && abandoned.flights[f] == Abandoning
              && Continue(abandoned, f, ok).pair == g.pair && Continue(abandoned, f, ok).flights[f] == Settled
  {
  }
}
