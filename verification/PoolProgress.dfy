/** What the threads of the pool can do next: waiters are served, calls can return, and handles are finished
    only for the reasons the program gives. */
module PoolProgress {
  import opened ConnPool
  import opened PoolMachine
  import opened PoolOwnership
  import opened PoolWakeup

  /** `r'` continues `r` with the events `es`. */
  ghost predicate Continues(c: Config, r: Run, es: seq<Event>, r': Run)
  {
    && r.Valid(c) && r'.Valid(c)
    && r'.events == r.events + es && r'.states[..|r.states|] == r.states
  }

  lemma Continue(c: Config, r: Run, e: Event) returns (r': Run)
    requires r.Valid(c) && Enabled(r.Last(), e)
    ensures Continues(c, r, [e], r') && r'.Last() == Apply(c, r.Last(), e)
  {
    r' := Then(c, r, e);
    ThenIsValid(c, r, e);
  }

  lemma ContinueTwice(c: Config, r: Run, e: Event, f: Event) returns (r': Run)
    requires r.Valid(c) && Enabled(r.Last(), e) && Enabled(Apply(c, r.Last(), e), f)
    ensures Continues(c, r, [e, f], r') && r'.Last() == Apply(c, Apply(c, r.Last(), e), f)
  {
    hide Apply, Enabled;
    var mid := Continue(c, r, e);
    r' := Continue(c, mid, f);
    assert r.events + [e, f] == r.events + [e] + [f];
    assert r'.states[..|r.states|] == r'.states[..|mid.states|][..|r.states|];
  }

  /** Every outcome of the constructor's attempts that allocates each handle once is the start of a run, with any
      number of threads. */
  lemma EveryStart(c: Config, attempts: seq<Attempt>, n: nat) returns (r: Run)
    requires |attempts| == c.minPool
    requires forall i, j :: 0 <= i < j < |attempts| && attempts[i].Allocated? && attempts[j].Allocated? ==>
               attempts[i].conn != attempts[j].conn
    ensures r.Valid(c) && r.events == [] && Start(c, attempts, n, r.Last()) && |r.Last().threads| == n
  {
    DistinctAttempts(attempts);
    var kept := Kept(attempts);
    var threads := seq(n, i => Thread(Outside, []));
    r := Run([State(kept, |kept|, threads, true, AllocatedBy(attempts), Freed(attempts), kept, [])], []);
  }

  lemma {:induction false} DistinctAttempts(attempts: seq<Attempt>)
    requires forall i, j :: 0 <= i < j < |attempts| && attempts[i].Allocated? && attempts[j].Allocated? ==>
               attempts[i].conn != attempts[j].conn
    ensures DistinctHandles(attempts)
  {
    if attempts != [] {
      var before, last := attempts[..|attempts| - 1], attempts[|attempts| - 1];
      DistinctAttempts(before);
      if last.Allocated? {
        AttemptResults(before, last.conn);
      }
    }
  }

  /** `t` may go through the locked part of Acquire: it begins a call, or its wait has ended, however. */
  predicate AtLock(s: State, t: nat)
  {
    s.alive && t < |s.threads| && (s.threads[t].phase.Outside? || s.threads[t].phase == Waking(true)
                                   || s.threads[t].phase == Waking(false))
  }

  lemma {:induction false} PassFindsFirst(idle: seq<Handle>, total: nat, maxPool: nat, ok: set<Handle>, k: nat)
    requires k < |idle| && idle[k] in ok && forall j :: 0 <= j < k ==> idle[j] !in ok
    ensures var p := AcquirePass(idle, total, maxPool, ok);
            p.outcome == Granted(idle[k]) && p.idle == idle[k + 1..] && p.dropped == idle[..k]
  {
    if k > 0 {
      PassFindsFirst(idle[1..], Decremented(total), maxPool, ok, k - 1);
    }
  }

  lemma NotAmong(p: Pass, idle: seq<Handle>)
    requires idle == p.dropped + (if p.outcome.Granted? then [p.outcome.conn] else []) + p.idle
    ensures p.outcome.Granted? ==> p.outcome.conn in idle
  {
  }

  lemma PassFindsNone(idle: seq<Handle>, total: nat, maxPool: nat, ok: set<Handle>)
    requires |idle| <= total && forall h :: h in idle ==> h !in ok
    ensures AcquirePass(idle, total, maxPool, ok)
            == Pass([], total - |idle|, idle, if total - |idle| < maxPool then MustCreate else MustWait)
  {
    hide AcquirePass;
    var p := AcquirePass(idle, total, maxPool, ok);
    NotAmong(p, idle);
    assert p.idle == [] && idle == p.dropped;
  }

  /** A thread at the lock, a woken waiter among them, gets the first healthy handle of the queue. */
  lemma ServedFromQueue(c: Config, r: Run, t: nat, ok: set<Handle>, k: nat) returns (r': Run)
    requires r.Valid(c) && AtLock(r.Last(), t)
    requires k < |r.Last().idle| && r.Last().idle[k] in ok && forall j :: 0 <= j < k ==> r.Last().idle[j] !in ok
    ensures Continues(c, r, [TakeLock(t, ok)], r')
    ensures var s, s' := r.Last(), r'.Last();
            && s'.threads == s.threads[t := Thread(Outside, s.threads[t].guards + [s.idle[k]])]
            && s'.idle == s.idle[k + 1..] && s'.finished == s.finished + s.idle[..k]
  {
    var s := r.Last();
    PassFindsFirst(s.idle, s.total, c.maxPool, ok, k);
    r' := Continue(c, r, TakeLock(t, ok));
  }

  /** With no healthy handle it creates a connection when the handles that are left are fewer than `maxPool`,
      and goes to sleep, or back to sleep, otherwise. */
  lemma NotServedFromQueue(c: Config, attempts: seq<Attempt>, n: nat, r: Run, t: nat, ok: set<Handle>)
    returns (r': Run)
    requires r.Valid(c) && Start(c, attempts, n, r.states[0]) && AtLock(r.Last(), t)
    requires forall h :: h in r.Last().idle ==> h !in ok
    ensures Continues(c, r, [TakeLock(t, ok)], r')
    ensures var s, s' := r.Last(), r'.Last();
            && s'.idle == [] && s'.finished == s.finished + s.idle && s'.total + |s.idle| == s.total
            && s'.threads == s.threads[t := Thread(if s'.total < c.maxPool then Creating(Connecting) else Sleeping,
                                                   s.threads[t].guards)]
  {
    var s := r.Last();
    RunOwned(c, attempts, n, r, |r.states| - 1);
    hide Owned;
    PassFindsNone(s.idle, s.total, c.maxPool, ok) by {
      assert Owned(s);
      QueueIsCounted(s);
    }
    r' := Continue(c, r, TakeLock(t, ok));
  }

  lemma QueueIsCounted(s: State)
    requires Owned(s) && s.alive
    ensures |s.idle| <= s.total
  {
  }

  /** The run in which a handle goes from one thread to a waiting one: it is released, the waiter is notified,
      takes the lock back and holds the handle. */
  lemma HandOver() returns (r: Run, es: seq<Event>, s: State)
    ensures es == [TakeLock(0, {0}), TakeLock(1, {}), Release(0, 0, true), Notify(0, 1), TakeLock(1, {0})]
    ensures Plays(Config(1, 1), r, 2, es, s) && s.alive && s.idle == [] && s.total == 1 && s.finished == []
    ensures s.threads == [Thread(Outside, []), Thread(Outside, [0])]
  {
    var c := Config(1, 1);
    r, es, s := NotifiedWaiter();
    hide Plays, AcquirePass;
    PassFindsFirst([0], 1, 1, {0}, 0);
    r, es, s := Play(c, r, 2, es, s, TakeLock(1, {0}));
    assert [] + [0] == [0];
  }

  lemma OneWaits() returns (r: Run, es: seq<Event>, s: State)
    ensures es == [TakeLock(0, {0}), TakeLock(1, {})]
    ensures Plays(Config(1, 1), r, 2, es, s) && s.alive && s.idle == [] && s.total == 1 && s.finished == []
    ensures s.threads == [Thread(Outside, [0]), Thread(Sleeping, [])]
  {
    hide Plays;
    var one: seq<Handle> := [0];
    assert [] + one == one;
    r, s := Begin(Config(1, 1), 2);
    r, es, s := Play(Config(1, 1), r, 2, [], s, TakeLock(0, {0}));
    r, es, s := Play(Config(1, 1), r, 2, es, s, TakeLock(1, {}));
  }

  lemma NotifiedWaiter() returns (r: Run, es: seq<Event>, s: State)
    ensures es == [TakeLock(0, {0}), TakeLock(1, {}), Release(0, 0, true), Notify(0, 1)]
    ensures Plays(Config(1, 1), r, 2, es, s) && s.alive && s.idle == [0] && s.total == 1 && s.finished == []
    ensures s.threads == [Thread(Outside, []), Thread(Waking(true), [])]
  {
    hide Plays, AcquirePass;
    var one: seq<Handle> := [0];
    assert [] + one == one && one[..0] + one[1..] == [];
    r, es, s := OneWaits();
    r, es, s := Play(Config(1, 1), r, 2, es, s, Release(0, 0, true));
    assert s.threads == [Thread(Notifying, []), Thread(Sleeping, [])] && s.threads[1].phase.Sleeping?;
    r, es, s := Play(Config(1, 1), r, 2, es, s, Notify(0, 1));
  }

  // Every call can return.

  lemma {:induction false} Fresh(used: set<Handle>) returns (h: Handle)
    ensures forall u :: u in used ==> u < h
  {
    h := 0;
    if u :| u in used {
      var above := Fresh(used - {u});
      h := if above <= u then u + 1 else above;
      forall v | v in used ensures v < h {
        assert v == u || v in used - {u};
      }
    }
  }

  /** A connection attempt can succeed: the thread leaves with a guard for a handle that is new, and the counter
      grows by one. */
  lemma CreationCanSucceed(c: Config, r: Run, t: nat) returns (h: Handle, r': Run)
    requires r.Valid(c) && r.Last().alive && t < |r.Last().threads|
    requires r.Last().threads[t].phase == Creating(Connecting)
    ensures h !in r.Last().everOpened && Continues(c, r, [Connect(t, h), Count(t)], r')
    ensures var s, s' := r.Last(), r'.Last();
            && s'.threads == s.threads[t := Thread(Outside, s.threads[t].guards + [h])]
            && s'.total == s.total + 1 && s'.idle == s.idle && s'.finished == s.finished
  {
    h := Fresh(r.Last().everOpened);
    r' := ContinueTwice(c, r, Connect(t, h), Count(t));
  }

  /** It can fail without a context or with one that is freed; the thread goes straight to the wait and the
      counter stays. */
  lemma CreationCanFail(c: Config, r: Run, t: nat) returns (r': Run)
    requires r.Valid(c) && r.Last().alive && t < |r.Last().threads|
    requires r.Last().threads[t].phase == Creating(Connecting)
    ensures Continues(c, r, [ConnectFails(t), FallAsleep(t)], r')
    ensures r'.Last() == r.Last().(threads := r.Last().threads[t := Thread(Sleeping, r.Last().threads[t].guards)])
  {
    r' := ContinueTwice(c, r, ConnectFails(t), FallAsleep(t));
  }

  lemma RejectionFreesAndSleeps(c: Config, r: Run, t: nat, h: Handle) returns (r': Run)
    requires r.Valid(c) && r.Last().alive && t < |r.Last().threads|
    requires r.Last().threads[t].phase == Creating(Ready(h))
    ensures Continues(c, r, [Reject(t), FallAsleep(t)], r')
    ensures r'.Last() == r.Last().(threads := r.Last().threads[t := Thread(Sleeping, r.Last().threads[t].guards)],
                                   finished := r.Last().finished + [h])
  {
    r' := ContinueTwice(c, r, Reject(t), FallAsleep(t));
  }

  /** A wait can end at any time, unnotified: in nullptr, which changes nothing, or in another look at the queue. */
  lemma WaitCanEnd(c: Config, r: Run, t: nat) returns (r': Run, woken: Run)
    requires r.Valid(c) && r.Last().alive && t < |r.Last().threads| && r.Last().threads[t].phase.Sleeping?
    ensures Continues(c, r, [Stir(t), GiveUp(t)], r') && Continues(c, r, [Stir(t)], woken)
    ensures var s := r.Last();
            && r'.Last() == s.(threads := s.threads[t := Thread(Outside, s.threads[t].guards)])
            && woken.Last() == s.(threads := s.threads[t := Thread(Waking(false), s.threads[t].guards)])
            && AtLock(woken.Last(), t)
  {
    woken := Continue(c, r, Stir(t));
    r' := ContinueTwice(c, r, Stir(t), GiveUp(t));
  }

  /** A woken thread, notified or not, can find that its time is over. */
  lemma WokenCanGiveUp(c: Config, r: Run, t: nat) returns (r': Run)
    requires r.Valid(c) && r.Last().alive && t < |r.Last().threads| && r.Last().threads[t].phase.Waking?
    ensures Continues(c, r, [GiveUp(t)], r')
    ensures r'.Last() == r.Last().(threads := r.Last().threads[t := Thread(Outside, r.Last().threads[t].guards)])
  {
    r' := Continue(c, r, GiveUp(t));
  }

  /** A guard can be given up at any time; the handle goes to the back of the queue when it is healthy, and is
      finished and uncounted otherwise. Then any thread that sleeps can be woken, and a notification is lost
      only when none does. */
  lemma ReleaseAndNotify(
    c: Config, attempts: seq<Attempt>, n: nat, r: Run, t: nat, g: nat, healthy: bool, target: nat)
    returns (r': Run)
    requires r.Valid(c) && Start(c, attempts, n, r.states[0])
    requires r.Last().alive && t < |r.Last().threads| && r.Last().threads[t].phase.Outside?
    requires g < |r.Last().threads[t].guards|
    requires NobodySleeps(r.Last()) || (target < |r.Last().threads| && r.Last().threads[target].phase.Sleeping?)
    ensures Continues(c, r, [Release(t, g, healthy), Notify(t, target)], r')
    ensures var s, s' := r.Last(), r'.Last();
            var held, h := s.threads[t].guards, s.threads[t].guards[g];
            var left := s.threads[t := Thread(Outside, held[..g] + held[g + 1..])];
            && s'.idle == (if healthy then s.idle + [h] else s.idle)
            && s'.finished == (if healthy then s.finished else s.finished + [h])
            && s'.total == (if healthy then s.total else s.total - 1)
            && s'.threads == if NobodySleeps(s) then left
                             else left[target := Thread(Waking(true), s.threads[target].guards)]
  {
    var s, e := r.Last(), Release(t, g, healthy);
    RunOwned(c, attempts, n, r, |r.states| - 1);
    CounterNeverWraps(c, s, e);
    hide Owned;
    SleepersStay(c, s, e);
    r' := ContinueTwice(c, r, e, Notify(t, target));
  }

  lemma SleepersStay(c: Config, s: State, e: Event)
    requires Enabled(s, e) && e.Release?
    ensures |Apply(c, s, e).threads| == |s.threads|
    ensures forall u :: 0 <= u < |s.threads| ==>
              (Apply(c, s, e).threads[u].phase.Sleeping? <==> s.threads[u].phase.Sleeping?)
    ensures NobodySleeps(Apply(c, s, e)) <==> NobodySleeps(s)
  {
    var s' := Apply(c, s, e);
    assert forall u :: 0 <= u < |s.threads| ==> (s'.threads[u].phase.Sleeping? <==> s.threads[u].phase.Sleeping?);
  }

  /** Once all calls have returned and all guards are gone the pool can be destroyed. */
  lemma CanBeDestroyed(c: Config, r: Run) returns (r': Run)
    requires r.Valid(c) && r.Last().alive
    requires forall t :: 0 <= t < |r.Last().threads| ==> r.Last().threads[t] == Thread(Outside, [])
    ensures Continues(c, r, [Destroy], r') && !r'.Last().alive
    ensures r'.Last().finished == r.Last().finished + r.Last().idle
  {
    r' := Continue(c, r, Destroy);
  }

  // What the history says about a woken thread and about a finished handle.

  lemma StepWakes(c: Config, s: State, e: Event, t: nat)
    requires Enabled(s, e) && t < |Apply(c, s, e).threads| && Apply(c, s, e).threads[t].phase.Waking?
    ensures t < |s.threads|
    ensures if s.threads[t].phase.Sleeping? then
              && (e == Stir(t) || (e.Notify? && e.target == t))
              && Apply(c, s, e).threads[t].phase == Waking(e.Notify?)
            else Apply(c, s, e).threads[t].phase == s.threads[t].phase
  {
  }

  /** In every run: a woken thread counts as notified exactly when the step that ended its sleep was the
      notification of this thread. */
  lemma {:induction false} WokenSince(c: Config, r: Run, n: nat, t: nat) returns (i: nat)
    requires r.Valid(c) && n < |r.states| && t < |r.states[n].threads| && r.states[n].threads[t].phase.Waking?
    requires forall u :: 0 <= u < |r.states[0].threads| ==> r.states[0].threads[u].phase.Outside?
    ensures i < n && t < |r.states[i].threads| && r.states[i].threads[t].phase.Sleeping?
    ensures r.events[i] == Stir(t) || (r.events[i].Notify? && r.events[i].target == t)
    ensures forall j :: i < j <= n ==>
              t < |r.states[j].threads| && r.states[j].threads[t].phase == Waking(r.events[i].Notify?)
  {
    hide Apply, Enabled;
    StepWakes(c, r.states[n - 1], r.events[n - 1], t);
    if r.states[n - 1].threads[t].phase.Sleeping? {
      i := n - 1;
    } else {
      i := WokenSince(c, r, n - 1, t);
    }
  }

  /** `h` is in front of the first healthy handle of the queue. */
  predicate InUnhealthyFront(idle: seq<Handle>, ok: set<Handle>, h: Handle)
  {
    exists k :: 0 <= k < |idle| && idle[k] == h && forall j :: 0 <= j <= k ==> idle[j] !in ok
  }

  /** A handle is finished exactly when a health check on it fails, in Acquire or in Release, when its new
      connection is rejected, or when the pool is destroyed while it is idle. */
  lemma FinishedIff(c: Config, s: State, e: Event, h: Handle)
    requires Owned(s) && Enabled(s, e) && h !in s.finished
    ensures h in Apply(c, s, e).finished <==>
            || (e.TakeLock? && InUnhealthyFront(s.idle, e.ok, h))
            || (e.Release? && !e.healthy && s.threads[e.t].guards[e.g] == h)
            || (e.Reject? && s.threads[e.t].phase == Creating(Ready(h)))
            || (e.Destroy? && h in s.idle)
  {
    if e.TakeLock? {
      DroppedIff(s.idle, s.total, c.maxPool, e.ok, h);
    }
  }

  lemma {:induction false} DroppedIff(idle: seq<Handle>, total: nat, maxPool: nat, ok: set<Handle>, h: Handle)
    ensures h in AcquirePass(idle, total, maxPool, ok).dropped <==> InUnhealthyFront(idle, ok, h)
  {
    var p := AcquirePass(idle, total, maxPool, ok);
    if h in p.dropped {
      var k :| 0 <= k < |p.dropped| && p.dropped[k] == h;
      assert forall j :: 0 <= j <= k ==> idle[j] == p.dropped[j];
      assert idle[k] == h;
    }
    if InUnhealthyFront(idle, ok, h) {
      var k :| 0 <= k < |idle| && idle[k] == h && forall j :: 0 <= j <= k ==> idle[j] !in ok;
      assert p.outcome.Granted? ==> idle[|p.dropped|] == p.outcome.conn;
      assert k < |p.dropped| && p.dropped[k] == idle[k];
    }
  }
}
