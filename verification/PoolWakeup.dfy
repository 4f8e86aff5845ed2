/** No lost wake-ups: while a thread waits for a connection, every idle handle and every free place in the
    pool is spoken for by a thread that is about to wake, about to notify, or creating. */
module PoolWakeup {
  import opened ConnPool
  import opened PoolMachine
  import opened PoolOwnership
  import opened PoolCapacity

  /** A notification that was sent and not used yet, or is still to be sent. */
  function Signal(th: Thread): nat
  {
    if th.phase == Waking(true) || th.phase.Notifying? then 1 else 0
  }

  function Signals(s: State): nat { Sum(s.threads, Signal) }

  function Room(c: Config, s: State): nat
  {
    if s.total < c.maxPool then c.maxPool - s.total else 0
  }

  ghost predicate Covered(c: Config, s: State)
  {
    NobodySleeps(s) || (|s.idle| <= Signals(s) && |s.idle| + Room(c, s) <= Signals(s) + Window(s))
  }

  lemma SignalsStep(c: Config, s: State, e: Event)
    requires Enabled(s, e)
    ensures e.Destroy? ==> Signals(Apply(c, s, e)) == Signals(s)
    ensures e.Notify? ==> Signals(Apply(c, s, e)) == Signals(s) - if NobodySleeps(s) then 1 else 0
    ensures !e.Notify? && !e.Destroy? ==>
      && Signals(Apply(c, s, e)) == Signals(s) - Signal(s.threads[e.t]) + Signal(Apply(c, s, e).threads[e.t])
      && Signal(s.threads[e.t]) <= Signals(s)
  {
    if e.Notify? {
      NotifySum(c, s, e, Signal);
    } else if !e.Destroy? {
      SumUpdate(s.threads, e.t, Apply(c, s, e).threads[e.t], Signal);
    }
  }

  /** Steps that put nobody to sleep leave nobody asleep who was not. */
  lemma WhoSleeps(c: Config, s: State, e: Event)
    requires Enabled(s, e) && NobodySleeps(s) && !NobodySleeps(Apply(c, s, e))
    ensures e.FallAsleep? || (e.TakeLock? && AcquirePass(s.idle, s.total, c.maxPool, e.ok).outcome.MustWait?)
  {
  }

  /** The two steps that can strand a handle, and the check before them that shows they do not: a thread
      whose creation failed goes to sleep although, without its own creation, too little is on its way; a
      notified thread reports a timeout although others sleep and its signal was needed. */
  ghost predicate Harmless(c: Config, s: State, e: Event)
    requires Enabled(s, e)
  {
    match e
    case FallAsleep(_) => |s.idle| <= Signals(s) && |s.idle| + Room(c, s) < Signals(s) + Window(s)
    case GiveUp(t) =>
      s.threads[t].phase == Waking(true) ==>
        NobodySleeps(s) || (|s.idle| < Signals(s) && |s.idle| + Room(c, s) < Signals(s) + Window(s))
    case _ => true
  }

  lemma OtherStepsKeepCovered(c: Config, s: State, e: Event)
    requires Owned(s) && Enabled(s, e) && Covered(c, s)
    requires !e.FallAsleep? && (e.GiveUp? ==> s.threads[e.t].phase != Waking(true))
    ensures Covered(c, Apply(c, s, e))
  {
    SignalsStep(c, s, e);
    WindowStep(c, s, e);
    CounterNeverWraps(c, s, e);
    if NobodySleeps(s) {
      if !NobodySleeps(Apply(c, s, e)) {
        WhoSleeps(c, s, e);
      }
    } else if !e.Notify? && !e.Destroy? {
      SumUpdate(s.threads, e.t, s.threads[e.t], InWindow);
    }
  }

  lemma FallAsleepCovered(c: Config, s: State, e: Event)
    requires Enabled(s, e) && e.FallAsleep?
    ensures Covered(c, Apply(c, s, e)) <==> Harmless(c, s, e)
  {
    SignalsStep(c, s, e);
    WindowStep(c, s, e);
    assert Apply(c, s, e).threads[e.t].phase.Sleeping?;
  }

  lemma GiveUpCovered(c: Config, s: State, e: Event)
    requires Enabled(s, e) && e.GiveUp? && s.threads[e.t].phase == Waking(true)
    ensures Covered(c, Apply(c, s, e)) <==> Harmless(c, s, e)
  {
    SignalsStep(c, s, e);
    WindowStep(c, s, e);
    var s' := Apply(c, s, e);
    assert forall t :: 0 <= t < |s.threads| ==> (s'.threads[t].phase.Sleeping? <==> s.threads[t].phase.Sleeping?);
  }

  lemma StepCoveredIff(c: Config, s: State, e: Event)
    requires Owned(s) && Enabled(s, e) && Covered(c, s)
    ensures Covered(c, Apply(c, s, e)) <==> Harmless(c, s, e)
  {
    if e.FallAsleep? {
      FallAsleepCovered(c, s, e);
    } else if e.GiveUp? && s.threads[e.t].phase == Waking(true) {
      GiveUpCovered(c, s, e);
    } else {
      OtherStepsKeepCovered(c, s, e);
    }
  }

  ghost predicate AlwaysCovered(c: Config, r: Run, n: nat)
    requires n < |r.states|
  {
    forall i :: 0 <= i <= n ==> Covered(c, r.states[i])
  }

  ghost predicate AlwaysHarmless(c: Config, r: Run, n: nat)
    requires r.Valid(c) && n < |r.states|
  {
    forall i :: 0 <= i < n ==> Harmless(c, r.states[i], r.events[i])
  }

  /** Over the first `n` steps of every run: no wake-up is ever lost exactly when every failed creation that
      falls asleep and every notified timeout is harmless. */
  lemma {:induction false} NoLostWakeUpIff(c: Config, attempts: seq<Attempt>, threads: nat, r: Run, n: nat)
    requires r.Valid(c) && Start(c, attempts, threads, r.states[0]) && n < |r.states|
    ensures AlwaysCovered(c, r, n) <==> AlwaysHarmless(c, r, n)
  {
    if n == 0 {
      assert NobodySleeps(r.states[0]);
    } else {
      var s, e := r.states[n - 1], r.events[n - 1];
      NoLostWakeUpIff(c, attempts, threads, r, n - 1);
      RunOwned(c, attempts, threads, r, n - 1);
      assert r.states[n] == Apply(c, s, e);
      hide Covered, Harmless, Apply, Start, Owned;
      if AlwaysCovered(c, r, n - 1) {
        assert Covered(c, s);
        StepCoveredIff(c, s, e);
      }
      assert AlwaysCovered(c, r, n) <==> AlwaysCovered(c, r, n - 1) && Covered(c, r.states[n]);
      assert AlwaysHarmless(c, r, n) <==> AlwaysHarmless(c, r, n - 1) && Harmless(c, s, e);
    }
  }

  /** `e` is no failing connection attempt, and no thread that was notified reports a timeout. */
  ghost predicate Smooth(s: State, e: Event)
  {
    && !e.Reject? && !e.ConnectFails?
    && (e.GiveUp? && e.t < |s.threads| ==> s.threads[e.t].phase != Waking(true))
  }

  ghost predicate Undisturbed(r: Run)
    requires |r.states| == |r.events| + 1
  {
    forall i :: 0 <= i < |r.events| ==> Smooth(r.states[i], r.events[i])
  }

  ghost predicate NobodyFailed(s: State)
  {
    forall t :: 0 <= t < |s.threads| ==> s.threads[t].phase != Creating(Failed)
  }

  lemma {:induction false} UndisturbedNobodyFailed(c: Config, r: Run, n: nat)
    requires r.Valid(c) && NobodyFailed(r.states[0]) && n < |r.states| && Undisturbed(r)
    ensures NobodyFailed(r.states[n])
  {
    if n > 0 {
      UndisturbedNobodyFailed(c, r, n - 1);
      StepNobodyFailed(c, r.states[n - 1], r.events[n - 1]);
    }
  }

  lemma StepNobodyFailed(c: Config, s: State, e: Event)
    requires Enabled(s, e) && Smooth(s, e) && NobodyFailed(s)
    ensures NobodyFailed(Apply(c, s, e))
  {
  }

  /** In particular none is lost in a run without failing creations and without notified timeouts. */
  lemma NoLostWakeUp(c: Config, attempts: seq<Attempt>, n: nat, r: Run, i: nat)
    requires r.Valid(c) && Start(c, attempts, n, r.states[0]) && i < |r.states| && Undisturbed(r)
    ensures Covered(c, r.states[i])
  {
    forall j | 0 <= j < i ensures Harmless(c, r.states[j], r.events[j]) {
      UndisturbedNobodyFailed(c, r, j);
      assert Smooth(r.states[j], r.events[j]);
    }
    NoLostWakeUpIff(c, attempts, n, r, i);
    assert AlwaysCovered(c, r, i);
  }

  /** When nothing is on its way and a thread still waits, the pool is exhausted: no handle is idle and the
      live guards alone fill it. */
  lemma QuietSleeperMeansExhausted(c: Config, attempts: seq<Attempt>, n: nat, r: Run, i: nat)
    requires r.Valid(c) && Start(c, attempts, n, r.states[0]) && i < |r.states| && Undisturbed(r)
    requires r.states[i].alive && !NobodySleeps(r.states[i]) && Signals(r.states[i]) == 0 && Window(r.states[i]) == 0
    ensures r.states[i].idle == [] && Sum(r.states[i].threads, GuardCount) == r.states[i].total >= c.maxPool
  {
    NoLostWakeUp(c, attempts, n, r, i);
    RunOwned(c, attempts, n, r, i);
  }

  // Both conditions are needed.

  /** A sleeping thread, an idle handle, and nothing on its way that would bring them together. */
  ghost predicate Stranded(s: State)
  {
    && s.idle != [] && !NobodySleeps(s)
    && forall t :: 0 <= t < |s.threads| ==> s.threads[t].phase.Sleeping? || s.threads[t].phase.Outside?
  }

  /** `r` plays `es` from a pool of `n` threads that starts with the single handle 0, and ends in `s`. */
  ghost predicate Plays(c: Config, r: Run, n: nat, es: seq<Event>, s: State)
  {
    r.Valid(c) && r.events == es && Start(c, [Allocated(0, true)], n, r.states[0]) && r.Last() == s
  }

  lemma Begin(c: Config, n: nat) returns (r: Run, s: State)
    requires c.minPool == 1
    ensures s == State([0], 1, seq(n, t => Thread(Outside, [])), true, {0}, [], [0], [])
    ensures Plays(c, r, n, [], s)
  {
    s := State([0], 1, seq(n, t => Thread(Outside, [])), true, {0}, [], [0], []);
    r := Run([s], []);
    assert [Allocated(0, true)][..0] == [];
  }

  lemma Play(c: Config, r: Run, n: nat, es: seq<Event>, s: State, e: Event)
    returns (r': Run, es': seq<Event>, s': State)
    requires Plays(c, r, n, es, s) && Enabled(s, e)
    ensures es' == es + [e] && s' == Apply(c, s, e) && Plays(c, r', n, es', s')
  {
    hide Apply, Enabled, Start;
    r' := Then(c, r, e);
    es', s' := es + [e], Apply(c, s, e);
    ThenIsValid(c, r, e);
  }

  lemma ReleaseDuringCreation() returns (r: Run, es: seq<Event>, s: State)
    ensures es == [TakeLock(0, {0}), TakeLock(1, {}), Release(0, 0, true)] && Plays(Config(1, 2), r, 2, es, s)
    ensures s.alive && s.idle == [0] && s.threads == [Thread(Notifying, []), Thread(Creating(Connecting), [])]
  {
    hide Plays;
    var c := Config(1, 2);
    var one: seq<Handle> := [0];
    assert [] + one == one && one[..0] + one[1..] == [];
    r, s := Begin(c, 2);
    r, es, s := Play(c, r, 2, [], s, TakeLock(0, {0}));
    r, es, s := Play(c, r, 2, es, s, TakeLock(1, {}));
    assert s.threads == [Thread(Outside, [0]), Thread(Creating(Connecting), [])] && s.idle == [];
    r, es, s := Play(c, r, 2, es, s, Release(0, 0, true));
  }

  /** One failing creation is enough: it goes to sleep beside a handle that was released meanwhile. */
  lemma FailedCreationStrands() returns (r: Run, es: seq<Event>, s: State)
    ensures es == [TakeLock(0, {0}), TakeLock(1, {}), Release(0, 0, true), Notify(0, 0), ConnectFails(1), FallAsleep(1)]
    ensures Plays(Config(1, 2), r, 2, es, s) && Stranded(s)
  {
    hide Plays;
    var c := Config(1, 2);
    r, es, s := ReleaseDuringCreation();
    r, es, s := Play(c, r, 2, es, s, Notify(0, 0));
    assert s.threads == [Thread(Outside, []), Thread(Creating(Connecting), [])];
    r, es, s := Play(c, r, 2, es, s, ConnectFails(1));
    r, es, s := Play(c, r, 2, es, s, FallAsleep(1));
    assert s.threads[1].phase.Sleeping?;
  }

  lemma TwoWaitForOneHandle() returns (r: Run, es: seq<Event>, s: State)
    ensures es == [TakeLock(0, {0}), TakeLock(1, {}), TakeLock(2, {})] && Plays(Config(1, 1), r, 3, es, s)
    ensures s.alive && s.idle == []
    ensures s.threads == [Thread(Outside, [0]), Thread(Sleeping, []), Thread(Sleeping, [])]
  {
    hide Plays;
    var c := Config(1, 1);
    var one: seq<Handle> := [0];
    assert [] + one == one;
    r, s := Begin(c, 3);
    r, es, s := Play(c, r, 3, [], s, TakeLock(0, {0}));
    r, es, s := Play(c, r, 3, es, s, TakeLock(1, {}));
    r, es, s := Play(c, r, 3, es, s, TakeLock(2, {}));
  }

  lemma ReleaseToTwoWaiters() returns (r: Run, es: seq<Event>, s: State)
    ensures es == [TakeLock(0, {0}), TakeLock(1, {}), TakeLock(2, {}), Release(0, 0, true)]
    ensures Plays(Config(1, 1), r, 3, es, s) && s.alive && s.idle == [0]
    ensures s.threads == [Thread(Notifying, []), Thread(Sleeping, []), Thread(Sleeping, [])]
  {
    hide Plays, AcquirePass;
    var one: seq<Handle> := [0];
    assert [] + one == one && one[..0] + one[1..] == [];
    r, es, s := TwoWaitForOneHandle();
    r, es, s := Play(Config(1, 1), r, 3, es, s, Release(0, 0, true));
  }

  /** So is one thread that is notified and reports a timeout all the same. */
  lemma NotifiedTimeoutStrands() returns (r: Run, es: seq<Event>, s: State)
    ensures es == [TakeLock(0, {0}), TakeLock(1, {}), TakeLock(2, {}), Release(0, 0, true), Notify(0, 1), GiveUp(1)]
    ensures Plays(Config(1, 1), r, 3, es, s) && Stranded(s)
  {
    hide Plays, AcquirePass;
    r, es, s := ReleaseToTwoWaiters();
    assert s.threads[1].phase.Sleeping?;
    r, es, s := Play(Config(1, 1), r, 3, es, s, Notify(0, 1));
    r, es, s := Play(Config(1, 1), r, 3, es, s, GiveUp(1));
    assert s.threads == [Thread(Outside, []), Thread(Outside, []), Thread(Sleeping, [])];
    assert s.threads[2].phase.Sleeping?;
  }
}
