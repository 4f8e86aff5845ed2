/** How many connections the pool can have. `maxPool` is checked before the lock is dropped to create a
    connection and not again when it is counted, so it is not a hard limit; this module proves what is. */
module PoolCapacity {
  import opened ConnPool
  import opened PoolMachine
  import opened PoolOwnership

  function InWindow(th: Thread): nat { if th.phase.Creating? then 1 else 0 }

  /** Number of threads in the unlocked window of Acquire. */
  function Window(s: State): nat { Sum(s.threads, InWindow) }

  function Max(a: int, b: int): int { if a < b then b else a }

  lemma WindowStep(c: Config, s: State, e: Event)
    requires Enabled(s, e)
    ensures e.Notify? || e.Destroy? ==> Window(Apply(c, s, e)) == Window(s)
    ensures !e.Notify? && !e.Destroy? ==>
      Window(Apply(c, s, e)) == Window(s) - InWindow(s.threads[e.t]) + InWindow(Apply(c, s, e).threads[e.t])
  {
    if e.Notify? {
      NotifySum(c, s, e, InWindow);
    } else if !e.Destroy? {
      SumUpdate(s.threads, e.t, Apply(c, s, e).threads[e.t], InWindow);
    }
  }

  lemma StepCapacity(c: Config, s: State, e: Event)
    requires Owned(s) && Enabled(s, e)
    ensures var s' := Apply(c, s, e);
            s'.total + Window(s') <= Max(s.total + Window(s), c.maxPool - 1 + Window(s'))
  {
    WindowStep(c, s, e);
    CounterNeverWraps(c, s, e);
  }

  /** In every run: counted plus in-flight connections stay within `maxPool - 1` plus the largest number
      `k` of threads that were ever in the unlocked window together (or `minPool`, if that is more). */
  lemma {:induction false} CapacityBound(c: Config, attempts: seq<Attempt>, n: nat, r: Run, k: nat, i: nat)
    requires r.Valid(c) && Start(c, attempts, n, r.states[0]) && i < |r.states|
    requires forall j :: 0 <= j < |r.states| ==> Window(r.states[j]) <= k
    ensures r.states[i].total + Window(r.states[i]) <= Max(c.minPool, c.maxPool - 1 + k)
  {
    if i == 0 {
      SumZero(r.states[0].threads, InWindow);
      KeptAtMost(attempts);
    } else {
      CapacityBound(c, attempts, n, r, k, i - 1);
      RunOwned(c, attempts, n, r, i - 1);
      StepCapacity(c, r.states[i - 1], r.events[i - 1]);
      hide Apply, Enabled, Start;
    }
  }

  lemma {:induction false} KeptAtMost(attempts: seq<Attempt>)
    ensures |Kept(attempts)| <= |attempts|
  {
    if attempts != [] {
      KeptAtMost(attempts[..|attempts| - 1]);
    }
  }

  /** `maxPool` is a limit when the window never holds two threads. */
  lemma CapacityWithoutRace(c: Config, attempts: seq<Attempt>, n: nat, r: Run, i: nat)
    requires r.Valid(c) && Start(c, attempts, n, r.states[0]) && i < |r.states|
    requires forall j :: 0 <= j < |r.states| ==> Window(r.states[j]) <= 1
    ensures r.states[i].total + Window(r.states[i]) <= Max(c.minPool, c.maxPool)
  {
    CapacityBound(c, attempts, n, r, 1, i);
  }

  // Exactly when a run keeps within its limit.

  ghost predicate InLimit(c: Config, s: State)
  {
    s.total + Window(s) <= Max(c.minPool, c.maxPool)
  }

  /** A thread that is let into the window finds room for one more, connections under way counted. */
  ghost predicate FindsRoom(c: Config, s: State, e: Event)
  {
    e.TakeLock? ==>
      var p := AcquirePass(s.idle, s.total, c.maxPool, e.ok);
      p.outcome.MustCreate? ==> p.total + Window(s) < Max(c.minPool, c.maxPool)
  }

  lemma StepInLimitIff(c: Config, s: State, e: Event)
    requires Owned(s) && Enabled(s, e) && InLimit(c, s)
    ensures InLimit(c, Apply(c, s, e)) <==> FindsRoom(c, s, e)
  {
    WindowStep(c, s, e);
    CounterNeverWraps(c, s, e);
  }

  /** Over every run: the pool has kept within its limit up to step `n` exactly when every thread that was let
      into the window before found room, which the test in Acquire does not check. */
  lemma {:induction false} InLimitIff(c: Config, attempts: seq<Attempt>, n: nat, r: Run, i: nat)
    requires r.Valid(c) && Start(c, attempts, n, r.states[0]) && i < |r.states|
    ensures (forall j :: 0 <= j <= i ==> InLimit(c, r.states[j])) <==>
            forall j :: 0 <= j < i ==> FindsRoom(c, r.states[j], r.events[j])
  {
    hide Apply, Enabled, InLimit, FindsRoom;
    if i == 0 {
      StartInLimit(c, attempts, n, r.states[0]);
    } else {
      InLimitIff(c, attempts, n, r, i - 1);
      RunOwned(c, attempts, n, r, i - 1);
      var s, e := r.states[i - 1], r.events[i - 1];
      assert r.states[i] == Apply(c, s, e) && Enabled(s, e);
      if InLimit(c, s) {
        StepInLimitIff(c, s, e);
      }
      assert (forall j :: 0 <= j < i ==> FindsRoom(c, r.states[j], r.events[j])) <==>
             FindsRoom(c, s, e) && forall j :: 0 <= j < i - 1 ==> FindsRoom(c, r.states[j], r.events[j]);
    }
  }

  lemma StartInLimit(c: Config, attempts: seq<Attempt>, n: nat, s: State)
    requires Start(c, attempts, n, s)
    ensures InLimit(c, s)
  {
    SumZero(s.threads, InWindow);
    KeptAtMost(attempts);
  }

  // The bound is reached, for every number of threads in the window.

  function Worker(t: int, a: nat, b: nat): Thread
  {
    if 0 <= t < a then Thread(Outside, [t]) else Thread(if t < b then Creating(Connecting) else Outside, [])
  }

  function Below(a: nat): (hs: set<Handle>)
    ensures forall h: Handle :: h in hs <==> h < a
  {
    if a == 0 then {}
    else
      var last: Handle := a - 1;
      Below(a - 1) + {last}
  }

  /** Threads below `a` hold one connection each, those from `a` to `b` are creating one. */
  function Front(n: nat, a: nat, b: nat): State
  {
    State([], a, seq(n, t => Worker(t, a, b)), true, Below(a), [], [], [])
  }

  /** `r` starts with `n` idle threads, ends in `Front(n, a, b)`, and never has more than `k` in the window. */
  ghost predicate Leads(c: Config, r: Run, n: nat, k: nat, a: nat, b: nat)
  {
    && r.Valid(c) && r.states[0] == Front(n, 0, 0) && r.Last() == Front(n, a, b)
    && (forall j :: 0 <= j < |r.states| ==> Window(r.states[j]) <= k)
    && a <= b && Window(r.Last()) == b - a
  }

  lemma LeadNowhere(c: Config, n: nat, k: nat) returns (r: Run)
    ensures Leads(c, r, n, k, 0, 0)
  {
    r := Run([Front(n, 0, 0)], []);
    SumZero(Front(n, 0, 0).threads, InWindow);
  }

  lemma Enter(c: Config, r: Run, n: nat, k: nat, a: nat, b: nat) returns (r': Run)
    requires Leads(c, r, n, k, a, b) && a < c.maxPool && b < n && b - a < k
    ensures Leads(c, r', n, k, a, b + 1)
  {
    var e := TakeLock(b, {});
    r' := Then(c, r, e);
    ThenIsValid(c, r, e);
    WindowStep(c, r.Last(), e);
    assert r'.Last().threads == Front(n, a, b + 1).threads;
  }

  lemma Finish(c: Config, r: Run, n: nat, k: nat, a: nat, b: nat) returns (r': Run)
    requires Leads(c, r, n, k, a, b) && a < b <= n
    ensures Leads(c, r', n, k, a + 1, b)
  {
    var mid := Then(c, r, Connect(a, a));
    ThenIsValid(c, r, Connect(a, a));
    WindowStep(c, r.Last(), Connect(a, a));
    r' := Then(c, mid, Count(a));
    ThenIsValid(c, mid, Count(a));
    WindowStep(c, mid.Last(), Count(a));
    assert [] + [a] == [a];
    assert r'.Last().threads == Front(n, a + 1, b).threads;
    assert r'.Last().everOpened == Front(n, a + 1, b).everOpened;
  }

  lemma {:induction false} LeadTo(c: Config, n: nat, k: nat, a: nat, b: nat) returns (r: Run)
    requires c.maxPool >= 1 && k >= 1 && n == c.maxPool - 1 + k && a <= b <= n
    requires (a == b < c.maxPool) || (a == c.maxPool - 1 && a <= b) || (b == n && a >= c.maxPool - 1)
    ensures Leads(c, r, n, k, a, b)
    decreases a + b
  {
    hide Apply, Enabled, Leads;
    if b == 0 {
      r := LeadNowhere(c, n, k);
    } else if a == b < c.maxPool {
      r := LeadTo(c, n, k, a - 1, a - 1);
      r := Enter(c, r, n, k, a - 1, a - 1);
      r := Finish(c, r, n, k, a - 1, a);
    } else if a == c.maxPool - 1 {
      r := LeadTo(c, n, k, a, b - 1);
      r := Enter(c, r, n, k, a, b - 1);
    } else {
      r := LeadTo(c, n, k, a - 1, b);
      r := Finish(c, r, n, k, a - 1, b);
    }
  }

  /** For every `maxPool >= 1` and every `k >= 1` some run with at most `k` threads in the window
      ends with `maxPool - 1 + k` counted connections, all of them held by guards. */
  lemma CapacityBoundReached(c: Config, k: nat) returns (attempts: seq<Attempt>, n: nat, r: Run)
    requires c.maxPool >= 1 && k >= 1
    ensures r.Valid(c) && Start(c, attempts, n, r.states[0])
    ensures forall j :: 0 <= j < |r.states| ==> Window(r.states[j]) <= k
    ensures r.Last().total == c.maxPool - 1 + k && r.Last().idle == []
  {
    n := c.maxPool - 1 + k;
    attempts := seq(c.minPool, i => NoHandle);
    NothingKept(attempts);
    r := LeadTo(c, n, k, n, n);
    assert r.states[0].threads == seq(n, i => Thread(Outside, []));
  }

  /** Every run with at most `k` threads in the window keeps within its limit. */
  ghost predicate AlwaysInLimit(c: Config, k: nat)
  {
    forall attempts, n, r: Run, i ::
      (&& r.Valid(c) && Start(c, attempts, n, r.states[0]) && 0 <= i < |r.states|
       && forall j :: 0 <= j < |r.states| ==> Window(r.states[j]) <= k)
      ==> InLimit(c, r.states[i])
  }

  /** `k` threads in the window are safe exactly when `k` is 1 or the pool started with as many as they can make. */
  lemma AlwaysInLimitIff(c: Config, k: nat)
    requires c.maxPool >= 1 && k >= 1
    ensures AlwaysInLimit(c, k) <==> k == 1 || c.maxPool - 1 + k <= c.minPool
  {
    if k == 1 || c.maxPool - 1 + k <= c.minPool {
      forall attempts, n, r: Run, i |
        r.Valid(c) && Start(c, attempts, n, r.states[0]) && 0 <= i < |r.states|
        && forall j :: 0 <= j < |r.states| ==> Window(r.states[j]) <= k
        ensures InLimit(c, r.states[i])
      {
        CapacityBound(c, attempts, n, r, k, i);
      }
    } else {
      var attempts, n, r := CapacityBoundReached(c, k);
      assert !InLimit(c, r.states[|r.states| - 1]);
    }
  }

  lemma {:induction false} NothingKept(attempts: seq<Attempt>)
    requires forall i :: 0 <= i < |attempts| ==> attempts[i] == NoHandle
    ensures DistinctHandles(attempts)
    ensures Kept(attempts) == [] && Freed(attempts) == [] && AllocatedBy(attempts) == {}
  {
    if attempts != [] {
      NothingKept(attempts[..|attempts| - 1]);
    }
  }

  // Client threads that hold at most one guard at a time.

  /** Acquire is only ever called by a thread without a guard. */
  ghost predicate OneGuardEach(r: Run)
    requires |r.states| == |r.events| + 1
  {
    forall i :: 0 <= i < |r.events| && r.events[i].TakeLock? && r.events[i].t < |r.states[i].threads| ==>
      var th := r.states[i].threads[r.events[i].t];
      th.phase.Outside? ==> th.guards == []
  }

  predicate Lean(th: Thread)
  {
    |th.guards| <= 1 && (!th.phase.Outside? ==> th.guards == [])
  }

  ghost predicate AllLean(ts: seq<Thread>)
  {
    forall t :: 0 <= t < |ts| ==> Lean(ts[t])
  }

  lemma {:induction false} LeanLoad(ts: seq<Thread>)
    requires AllLean(ts)
    ensures Sum(ts, GuardCount) + Sum(ts, InWindow) <= |ts|
  {
    if ts != [] {
      LeanLoad(ts[..|ts| - 1]);
      assert Lean(ts[|ts| - 1]);
    }
  }

  lemma StepLean(c: Config, s: State, e: Event)
    requires AllLean(s.threads) && Enabled(s, e)
    requires e.TakeLock? && s.threads[e.t].phase.Outside? ==> s.threads[e.t].guards == []
    ensures AllLean(Apply(c, s, e).threads) && |Apply(c, s, e).threads| == |s.threads|
  {
  }

  /** When no thread holds two guards, `n` threads never drive the pool above `n` connections (or above
      what it started with), however large `maxPool` is and however they race. */
  lemma {:induction false} ThreadBound(c: Config, attempts: seq<Attempt>, n: nat, r: Run, i: nat)
    requires r.Valid(c) && Start(c, attempts, n, r.states[0]) && i < |r.states| && OneGuardEach(r)
    ensures AllLean(r.states[i].threads) && |r.states[i].threads| == n
    ensures r.states[i].total + Window(r.states[i]) <= Max(c.minPool, n)
  {
    if i == 0 {
      SumZero(r.states[0].threads, InWindow);
      KeptAtMost(attempts);
    } else {
      var s, e := r.states[i - 1], r.events[i - 1];
      ThreadBound(c, attempts, n, r, i - 1);
      RunOwned(c, attempts, n, r, i - 1);
      RunOwned(c, attempts, n, r, i);
      StepLean(c, s, e);
      LeanLoad(r.states[i].threads);
      StepOnlyEntryGrows(c, s, e);
      hide Apply, Enabled, Start;
    }
  }

  /** Only a pass that leaves the queue empty makes the pool grow. */
  lemma StepOnlyEntryGrows(c: Config, s: State, e: Event)
    requires Owned(s) && Enabled(s, e)
    ensures var s' := Apply(c, s, e);
            s'.total + Window(s') > s.total + Window(s) ==> s'.idle == [] && s'.alive
  {
    WindowStep(c, s, e);
    CounterNeverWraps(c, s, e);
  }
}
