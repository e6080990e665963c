/**
 Work leases, draining and idle waits (application-lifecycle.state.ts): the object as it runs, the
 steps it refines, and what holds over all runs of those steps.
 */
module Lifecycle {

  /** `held` are the leases not released yet; `waiting` and `resolved` split the idle waits. */
  datatype State<L, W> = State(
    draining: bool,
    activeWork: int,
    held: set<L>,
    released: set<L>,
    waiting: set<W>,
    resolved: set<W>
  )

  datatype Event<L, W> = BeginDraining | TryAdmit(lease: L) | Release(lease: L) | WaitForIdle(wait: W)

  /** Leases and waits are new objects; only a lease that was handed out can be released. */
  ghost predicate Enabled<L, W>(s: State<L, W>, e: Event<L, W>) {
    match e
    case BeginDraining => true
    case TryAdmit(l) => l !in s.held && l !in s.released
    case Release(l) => l in s.held || l in s.released
    case WaitForIdle(w) => w !in s.waiting && w !in s.resolved
  }

  ghost function Next<L, W>(s: State<L, W>, e: Event<L, W>): State<L, W> {
    match e
    case BeginDraining => s.(draining := true)
    case TryAdmit(l) => if s.draining then s else s.(activeWork := s.activeWork + 1, held := s.held + {l})
    case Release(l) =>
      if l in s.released then s
      else if s.activeWork == 1 then
        s.(activeWork := 0, held := s.held - {l}, released := s.released + {l},
           waiting := {}, resolved := s.resolved + s.waiting)
      else
        s.(activeWork := s.activeWork - 1, held := s.held - {l}, released := s.released + {l})
    case WaitForIdle(w) =>
      if s.activeWork == 0 then s.(resolved := s.resolved + {w}) else s.(waiting := s.waiting + {w})
  }

  /** The counter is the number of unreleased leases, and somebody waits only while there is work. */
  ghost predicate Inv<L, W>(s: State<L, W>) {
    && s.activeWork == |s.held|
    && s.held !! s.released
    && s.waiting !! s.resolved
    && (s.activeWork == 0 ==> s.waiting == {})
  }

  ghost function Initial<L, W>(): (s: State<L, W>)
    ensures Inv(s)
  {
    State(false, 0, {}, {}, {}, {})
  }

  lemma {:induction false} StepKeepsInvariant<L, W>(s: State<L, W>, e: Event<L, W>)
    requires Inv(s) && Enabled(s, e)
    ensures Inv(Next(s, e))
  {
    if e.Release? && e.lease in s.held {
      assert |s.held - {e.lease}| == |s.held| - 1;
    }
  }

  // ----- Runs ------------------------------------------------------------------------------

  ghost predicate Run<L, W>(states: seq<State<L, W>>, events: seq<Event<L, W>>) {
    && |states| == |events| + 1
    && Inv(states[0])
    && (forall i :: 0 <= i < |events| ==> Enabled(states[i], events[i]) && states[i + 1] == Next(states[i], events[i]))
  }

  lemma {:induction false} RunKeepsInvariant<L, W>(states: seq<State<L, W>>, events: seq<Event<L, W>>, k: nat)
    requires Run(states, events) && k < |states|
    ensures Inv(states[k])
  {
    if k > 0 {
      RunKeepsInvariant(states, events, k - 1);
      StepKeepsInvariant(states[k - 1], events[k - 1]);
    }
  }

  /** Once draining starts it lasts, the work never rises, and waits that ended at zero saw the last work end. */
  lemma {:induction false} DrainingOnlyFalls<L, W>(states: seq<State<L, W>>, events: seq<Event<L, W>>, i: nat, j: nat)
    requires Run(states, events) && i <= j < |states| && states[i].draining
    ensures states[j].draining
    ensures states[j].activeWork <= states[i].activeWork && states[j].held <= states[i].held
    ensures states[i].activeWork == 0 ==> states[j].activeWork == 0
    ensures states[i].waiting * states[j].resolved != {} ==> states[j].activeWork == 0
    decreases j - i
  {
    RunKeepsInvariant(states, events, j);
    if i < j {
      DrainingOnlyFalls(states, events, i, j - 1);
      RunKeepsInvariant(states, events, j - 1);
    } else {
      assert states[i].waiting !! states[j].resolved;
    }
  }

  /** Releasing a lease again, whatever happened since, changes nothing. */
  lemma {:induction false} DoubleReleaseHarmless<L, W>(
      states: seq<State<L, W>>, events: seq<Event<L, W>>, i: nat, j: nat, lease: L)
    requires Run(states, events) && i < j < |states| && events[i] == Release(lease)
    ensures lease in states[j].released && Next(states[j], Release(lease)) == states[j]
    decreases j - i
  {
    if i + 1 < j {
      DoubleReleaseHarmless(states, events, i, j - 1, lease);
    }
  }

  ghost predicate StaysIdle<L(!new), W(!new)>(s: State<L, W>) {
    forall states: seq<State<L, W>>, events: seq<Event<L, W>>, k: nat ::
      Run(states, events) && states[0] == s && k < |states| ==> states[k].activeWork == 0
  }

  /** An idle moment is final exactly when it is reached while draining. */
  lemma {:induction false} IdleIsFinalIffDraining(s: State<nat, nat>)
    requires Inv(s) && s.activeWork == 0
    ensures StaysIdle(s) <==> s.draining
  {
    if s.draining {
      forall states: seq<State<nat, nat>>, events: seq<Event<nat, nat>>, k: nat
        | Run(states, events) && states[0] == s && k < |states|
        ensures states[k].activeWork == 0
      {
        DrainingOnlyFalls(states, events, 0, k);
      }
    } else {
      var lease := Unused(s.released);
      var event: Event<nat, nat> := TryAdmit(lease);
      var states := [s, Next(s, event)];
      assert Run(states, [event]);
      assert states[1].activeWork == 1;
    }
  }

  lemma {:induction false} Unused(used: set<nat>) returns (n: nat)
    ensures forall m :: m in used ==> m < n
    decreases used
  {
    n := 0;
    if used != {} {
      var m :| m in used;
      var rest := Unused(used - {m});
      n := if m < rest then rest else m + 1;
      forall k | k in used
        ensures k < n
      {
        assert k == m || k in used - {m};
      }
    }
  }

  // ----- The object ------------------------------------------------------------------------

  class Lease {
    var released: bool

    constructor ()
      ensures !released
    {
      released := false;
    }
  }

  class IdleWait {
    var resolved: bool

    constructor (resolved: bool)
      ensures this.resolved == resolved
    {
      this.resolved := resolved;
    }
  }

  class ApplicationLifecycle {
    var draining: bool
    var activeWork: int
    var idleWaiters: set<IdleWait>
    ghost var leases: set<Lease>
    ghost var waits: set<IdleWait>

    ghost function View(): State<Lease, IdleWait>
      reads this, leases, waits
    {
      State(draining, activeWork,
            (set l | l in leases && !l.released), (set l | l in leases && l.released),
            idleWaiters, (set w | w in waits && w.resolved))
    }

    ghost predicate Valid()
      reads this, leases, waits
    {
      && Inv(View())
      && idleWaiters <= waits
      && (forall w :: w in waits ==> (w.resolved <==> w !in idleWaiters))
    }

    constructor ()
      ensures Valid() && fresh(leases) && fresh(waits)
      ensures View() == Initial()
    {
      draining := false;
      activeWork := 0;
      idleWaiters := {};
      leases := {};
      waits := {};
    }

    method BeginDraining() returns (first: bool)
      requires Valid()
      modifies this`draining
      ensures Valid() && View() == Next(old(View()), Event.BeginDraining)
      ensures first == !old(draining)
    {
      if draining {
        return false;
      }
      draining := true;
      assert View().held == old(View()).held;
      return true;
    }

    method TryAdmit() returns (lease: Lease?)
      requires Valid()
      modifies this`activeWork, this`leases
      ensures Valid() && (lease == null <==> draining)
      ensures lease == null ==> View() == old(View())
      ensures lease != null ==> fresh(lease) && leases == old(leases) + {lease}
      ensures lease != null ==> View() == Next(old(View()), Event.TryAdmit(lease))
    {
      if draining {
        return null;
      }
      ghost var before := View();
      activeWork := activeWork + 1;
      lease := new Lease();
      leases := leases + {lease};
      StepKeepsInvariant(before, Event.TryAdmit(lease));
      assert View().held == before.held + {lease};
      assert View().released == before.released;
    }

    method Release(lease: Lease)
      requires Valid() && lease in leases
      modifies this`activeWork, this`idleWaiters, lease, waits
      ensures Valid() && View() == Next(old(View()), Event.Release(lease))
    {
      if lease.released {
        return;
      }
      ghost var before := View();
      StepKeepsInvariant(before, Event.Release(lease));
      lease.released := true;
      activeWork := activeWork - 1;
      if activeWork == 0 {
        ResolveWaiters();
      }
      assert View().held == before.held - {lease};
      assert View().released == before.released + {lease};
    }

    /** The loop of a release that reaches zero. */
    method ResolveWaiters()
      requires idleWaiters <= waits && forall w :: w in waits ==> (w.resolved <==> w !in idleWaiters)
      modifies this`idleWaiters, waits
      ensures idleWaiters == {} && forall w :: w in waits ==> w.resolved
    {
      var pending := idleWaiters;
      while pending != {}
        invariant pending <= idleWaiters
        invariant forall w :: w in waits ==> (w.resolved <==> w !in pending)
        modifies waits
      {
        var wait :| wait in pending;
        wait.resolved := true;
        pending := pending - {wait};
      }
      idleWaiters := {};
    }

    method WaitForIdle() returns (wait: IdleWait)
      requires Valid()
      modifies this`idleWaiters, this`waits
      ensures Valid() && fresh(wait) && waits == old(waits) + {wait}
      ensures wait.resolved <==> activeWork == 0
      ensures View() == Next(old(View()), Event.WaitForIdle(wait))
    {
      ghost var before := View();
      wait := new IdleWait(activeWork == 0);
      waits := waits + {wait};
      if activeWork != 0 {
        idleWaiters := idleWaiters + {wait};
      }
      assert View().held == before.held;
      assert View().resolved == if activeWork == 0 then before.resolved + {wait} else before.resolved;
    }
  }
}
