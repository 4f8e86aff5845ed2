/** Who owns each handle, in every reachable state of the pool machine. */
module PoolOwnership {
  import opened ConnPool
  import opened PoolMachine

  function GuardCount(th: Thread): nat { |th.guards| }

  /** How often thread `th` holds `h`: in a guard, or connected and not counted yet. */
  function HoldCount(th: Thread, h: Handle): nat
  {
    Occurs(th.guards, h) + if th.phase == Creating(Ready(h)) then 1 else 0
  }

  function Holds(h: Handle): Thread -> nat
  {
    (th: Thread) => HoldCount(th, h)
  }

  /** In how many places handle `h` is: finished, idle, guarded, or connected and not counted yet. */
  function Places(s: State, h: Handle): nat
  {
    Occurs(s.finished, h) + Occurs(s.idle, h) + Sum(s.threads, Holds(h))
  }

  ghost predicate InOnePlace(s: State, h: Handle)
  {
    Places(s, h) == if h in s.everOpened then 1 else 0
  }

  ghost predicate Counted(s: State)
  {
    s.total == |s.idle| + Sum(s.threads, GuardCount)
  }

  /** Every handle ever opened is in exactly one place, the counter counts the idle and guarded ones,
      and the queue is first in, first out. */
  ghost predicate Owned(s: State)
  {
    && (forall h :: InOnePlace(s, h))
    && (s.alive ==> Counted(s))
    && s.pushed == s.popped + s.idle
  }

  lemma StartOwned(c: Config, attempts: seq<Attempt>, n: nat, s: State)
    requires Start(c, attempts, n, s)
    ensures Owned(s)
  {
    SumZero(s.threads, GuardCount);
    forall h ensures InOnePlace(s, h) {
      SumZero(s.threads, Holds(h));
      AllocatedIsKeptOrFreed(attempts, h);
    }
  }

  lemma OccursSplit(s: seq<Handle>, k: nat, h: Handle)
    requires k < |s|
    ensures Occurs(s, h) == Occurs(s[..k], h) + Occurs([s[k]], h) + Occurs(s[k + 1..], h)
  {
    OccursConcat(s[..k], [s[k]], h);
    OccursConcat(s[..k] + [s[k]], s[k + 1..], h);
    assert s == s[..k] + [s[k]] + s[k + 1..];
  }

  lemma OccursWithout(s: seq<Handle>, k: nat, h: Handle)
    requires k < |s|
    ensures Occurs(s[..k] + s[k + 1..], h) + (if s[k] == h then 1 else 0) == Occurs(s, h)
  {
    OccursSplit(s, k, h);
    OccursConcat(s[..k], s[k + 1..], h);
    OccursAppend([], s[k], h);
  }

  lemma PassKeepsOccurrences(p: Pass, idle: seq<Handle>, finished: seq<Handle>, h: Handle)
    requires idle == p.dropped + (if p.outcome.Granted? then [p.outcome.conn] else []) + p.idle
    requires !p.outcome.Granted? ==> p.idle == []
    ensures Occurs(finished, h) + Occurs(idle, h) ==
            Occurs(finished + p.dropped, h) + Occurs(p.idle, h) + if p.outcome == Granted(h) then 1 else 0
  {
    OccursConcat(finished, p.dropped, h);
    if p.outcome.Granted? {
      OccursAppend(p.dropped, p.outcome.conn, h);
      OccursConcat(p.dropped + [p.outcome.conn], p.idle, h);
    } else {
      assert idle == p.dropped;
    }
  }

  lemma TakeLockInOnePlace(c: Config, s: State, e: Event, h: Handle)
    requires InOnePlace(s, h) && Enabled(s, e) && e.TakeLock?
    ensures InOnePlace(Apply(c, s, e), h)
  {
    hide AcquirePass, Occurs;
    var p, th := AcquirePass(s.idle, s.total, c.maxPool, e.ok), s.threads[e.t];
    PassKeepsOccurrences(p, s.idle, s.finished, h);
    match p.outcome
    case Granted(conn) =>
      OccursAppend(th.guards, conn, h);
      SumUpdate(s.threads, e.t, Thread(Outside, th.guards + [conn]), Holds(h));
    case MustCreate => SumUpdate(s.threads, e.t, th.(phase := Creating(Connecting)), Holds(h));
    case MustWait => SumUpdate(s.threads, e.t, th.(phase := Sleeping), Holds(h));
  }

  lemma ReleaseInOnePlace(c: Config, s: State, e: Event, h: Handle)
    requires InOnePlace(s, h) && Enabled(s, e) && e.Release?
    ensures InOnePlace(Apply(c, s, e), h)
  {
    hide Occurs;
    var held := s.threads[e.t].guards;
    var left := Thread(Notifying, held[..e.g] + held[e.g + 1..]);
    OccursWithout(held, e.g, h);
    SumUpdate(s.threads, e.t, left, Holds(h));
    if e.healthy {
      OccursAppend(s.idle, held[e.g], h);
    } else {
      OccursAppend(s.finished, held[e.g], h);
    }
  }

  lemma ConnectInOnePlace(c: Config, s: State, e: Event, h: Handle)
    requires InOnePlace(s, h) && Enabled(s, e) && e.Connect?
    ensures InOnePlace(Apply(c, s, e), h)
  {
    SumUpdate(s.threads, e.t, s.threads[e.t].(phase := Creating(Ready(e.conn))), Holds(h));
  }

  lemma RejectInOnePlace(c: Config, s: State, e: Event, h: Handle)
    requires InOnePlace(s, h) && Enabled(s, e) && e.Reject?
    ensures InOnePlace(Apply(c, s, e), h)
  {
    hide Occurs;
    var th := s.threads[e.t];
    SumUpdate(s.threads, e.t, th.(phase := Creating(Failed)), Holds(h));
    OccursAppend(s.finished, th.phase.stage.conn, h);
  }

  lemma CountInOnePlace(c: Config, s: State, e: Event, h: Handle)
    requires InOnePlace(s, h) && Enabled(s, e) && e.Count?
    ensures InOnePlace(Apply(c, s, e), h)
  {
    hide Occurs;
    var th := s.threads[e.t];
    var conn := th.phase.stage.conn;
    SumUpdate(s.threads, e.t, Thread(Outside, th.guards + [conn]), Holds(h));
    OccursAppend(th.guards, conn, h);
  }

  lemma NotifyInOnePlace(c: Config, s: State, e: Event, h: Handle)
    requires InOnePlace(s, h) && Enabled(s, e) && e.Notify?
    ensures InOnePlace(Apply(c, s, e), h)
  {
    NotifySum(c, s, e, Holds(h));
  }

  lemma StepInOnePlace(c: Config, s: State, e: Event, h: Handle)
    requires InOnePlace(s, h) && Enabled(s, e)
    requires e.Destroy? || e.ConnectFails? || e.FallAsleep? || e.Stir? || e.GiveUp?
    ensures InOnePlace(Apply(c, s, e), h)
  {
    if e.Destroy? {
      OccursConcat(s.finished, s.idle, h);
    } else {
      SumUpdate(s.threads, e.t, Apply(c, s, e).threads[e.t], Holds(h));
    }
  }

  lemma TakeLockCounted(c: Config, s: State, e: Event)
    requires Counted(s) && Enabled(s, e) && e.TakeLock?
    ensures Counted(Apply(c, s, e))
  {
    hide AcquirePass;
    var p, th := AcquirePass(s.idle, s.total, c.maxPool, e.ok), s.threads[e.t];
    match p.outcome
    case Granted(conn) => SumUpdate(s.threads, e.t, Thread(Outside, th.guards + [conn]), GuardCount);
    case MustCreate => SumUpdate(s.threads, e.t, th.(phase := Creating(Connecting)), GuardCount);
    case MustWait => SumUpdate(s.threads, e.t, th.(phase := Sleeping), GuardCount);
  }

  lemma StepCounted(c: Config, s: State, e: Event)
    requires Counted(s) && Enabled(s, e)
    ensures Apply(c, s, e).alive ==> Counted(Apply(c, s, e))
  {
    if e.TakeLock? {
      TakeLockCounted(c, s, e);
    } else if e.Notify? {
      NotifySum(c, s, e, GuardCount);
    } else if !e.Destroy? {
      SumUpdate(s.threads, e.t, Apply(c, s, e).threads[e.t], GuardCount);
    }
  }

  lemma StepFifo(c: Config, s: State, e: Event)
    requires s.pushed == s.popped + s.idle && Enabled(s, e)
    ensures Apply(c, s, e).pushed == Apply(c, s, e).popped + Apply(c, s, e).idle
  {
  }

  lemma StepOwned(c: Config, s: State, e: Event)
    requires Owned(s) && Enabled(s, e)
    ensures Owned(Apply(c, s, e))
  {
    var s' := Apply(c, s, e);
    forall h ensures InOnePlace(s', h) {
      hide Apply, Enabled;
      assert InOnePlace(s, h);
      match e
      case TakeLock(_, _) => TakeLockInOnePlace(c, s, e, h);
      case Release(_, _, _) => ReleaseInOnePlace(c, s, e, h);
      case Connect(_, _) => ConnectInOnePlace(c, s, e, h);
      case Reject(_) => RejectInOnePlace(c, s, e, h);
      case Count(_) => CountInOnePlace(c, s, e, h);
      case Notify(_, _) => NotifyInOnePlace(c, s, e, h);
      case _ => StepInOnePlace(c, s, e, h);
    }
    StepCounted(c, s, e);
    StepFifo(c, s, e);
  }

  lemma {:induction false} RunOwned(c: Config, attempts: seq<Attempt>, n: nat, r: Run, i: nat)
    requires r.Valid(c) && Start(c, attempts, n, r.states[0]) && i < |r.states|
    ensures Owned(r.states[i])
  {
    if i == 0 {
      StartOwned(c, attempts, n, r.states[0]);
    } else {
      RunOwned(c, attempts, n, r, i - 1);
      StepOwned(c, r.states[i - 1], r.events[i - 1]);
    }
  }

  // What ownership means for single states and for whole runs.

  lemma {:induction false} OccursAt(s: seq<Handle>, i: nat)
    requires i < |s|
    ensures Occurs(s, s[i]) >= 1
    ensures forall j :: 0 <= j < |s| && j != i && s[j] == s[i] ==> Occurs(s, s[i]) >= 2
  {
    OccursSplit(s, i, s[i]);
    OccursAppend([], s[i], s[i]);
    forall j | 0 <= j < |s| && j != i && s[j] == s[i] ensures Occurs(s, s[i]) >= 2 {
      if j < i {
        OccursAt(s[..i], j);
      } else {
        OccursAt(s[i + 1..], j - i - 1);
      }
    }
  }

  lemma {:induction false} OccursSome(s: seq<Handle>, h: Handle)
    ensures Occurs(s, h) >= 1 <==> h in s
  {
    if h in s {
      var i :| 0 <= i < |s| && s[i] == h;
      OccursAt(s, i);
    } else if s != [] {
      OccursSome(s[..|s| - 1], h);
    }
  }

  /** No handle is owned twice: not in the queue, not by two guards of one thread or of two, not by a guard
      and the queue, and a finished one by nobody. */
  lemma NeverShared(s: State, t: nat, u: nat, h: Handle)
    requires Owned(s) && t < |s.threads| && u < |s.threads|
    ensures forall i, j :: 0 <= i < j < |s.idle| ==> s.idle[i] != s.idle[j]
    ensures forall i, j :: 0 <= i < j < |s.threads[t].guards| ==> s.threads[t].guards[i] != s.threads[t].guards[j]
    ensures h in s.threads[t].guards ==> h !in s.idle && h !in s.finished && h in s.everOpened
    ensures h in s.threads[t].guards && h in s.threads[u].guards ==> t == u
    ensures h in s.idle ==> h !in s.finished && h in s.everOpened
    ensures Occurs(s.finished, h) <= 1
  {
    forall i, j | 0 <= i < j < |s.idle| ensures s.idle[i] != s.idle[j] {
      assert InOnePlace(s, s.idle[i]);
      OccursAt(s.idle, i);
    }
    var held := s.threads[t].guards;
    forall i, j | 0 <= i < j < |held| ensures held[i] != held[j] {
      assert InOnePlace(s, held[i]);
      OccursAt(held, i);
      SumUpdate(s.threads, t, s.threads[t], Holds(held[i]));
    }
    assert InOnePlace(s, h);
    OccursSome(s.idle, h);
    OccursSome(s.finished, h);
    OccursSome(held, h);
    OccursSome(s.threads[u].guards, h);
    SumUpdate(s.threads, t, s.threads[t], Holds(h));
    if t != u {
      SumOfTwo(s.threads, if t < u then t else u, if t < u then u else t, Holds(h));
    }
  }

  /** The decrement in the drain loop never wraps around, and the test for a positive counter in Release
      never fails. */
  lemma CounterNeverWraps(c: Config, s: State, e: Event)
    requires Owned(s) && Enabled(s, e)
    ensures e.TakeLock? ==> Apply(c, s, e).total + |AcquirePass(s.idle, s.total, c.maxPool, e.ok).dropped| == s.total
    ensures e.Release? ==> s.total > 0
  {
    if e.Release? {
      SumUpdate(s.threads, e.t, s.threads[e.t], GuardCount);
    }
  }

  /** After the destructor every handle that was ever opened has been finished exactly once. */
  lemma DestroyedFinishesAll(c: Config, s: State, h: Handle)
    requires Owned(s) && Enabled(s, Destroy)
    ensures Occurs(Apply(c, s, Destroy).finished, h) == if h in s.everOpened then 1 else 0
    ensures Apply(c, s, Destroy).total == 0 == Sum(s.threads, GuardCount)
  {
    assert InOnePlace(s, h);
    OccursConcat(s.finished, s.idle, h);
    SumZero(s.threads, Holds(h));
    SumZero(s.threads, GuardCount);
  }

  /** The histories of `s` are prefixes of those of `t`. */
  predicate Earlier(s: State, t: State)
  {
    s.finished <= t.finished && s.pushed <= t.pushed && s.popped <= t.popped
  }

  lemma EarlierTrans(s: State, t: State, u: State)
    requires Earlier(s, t) && Earlier(t, u)
    ensures Earlier(s, u)
  {
  }

  lemma StepHistoryGrows(c: Config, s: State, e: Event)
    requires Enabled(s, e)
    ensures Earlier(s, Apply(c, s, e))
  {
  }

  lemma {:induction false} HistoryGrows(c: Config, r: Run, i: nat, j: nat)
    requires r.Valid(c) && i <= j < |r.states|
    ensures Earlier(r.states[i], r.states[j])
  {
    if i < j {
      HistoryGrows(c, r, i, j - 1);
      StepHistoryGrows(c, r.states[j - 1], r.events[j - 1]);
      hide Apply, Enabled, Earlier;
      EarlierTrans(r.states[i], r.states[j - 1], r.states[j]);
    }
  }

  /** Over a whole run: a handle finished by step `i` is never again idle or in a guard. */
  lemma FinishedForGood(c: Config, attempts: seq<Attempt>, n: nat, r: Run, i: nat, j: nat, t: nat, h: Handle)
    requires r.Valid(c) && Start(c, attempts, n, r.states[0]) && i <= j < |r.states|
    requires h in r.states[i].finished && t < |r.states[j].threads|
    ensures h !in r.states[j].idle && h !in r.states[j].threads[t].guards && Occurs(r.states[j].finished, h) == 1
  {
    HistoryGrows(c, r, i, j);
    RunOwned(c, attempts, n, r, j);
    OccursSome(r.states[j].finished, h);
    NeverShared(r.states[j], t, t, h);
  }

  /** `e` hands out the idle handle `h`. */
  predicate Reuses(c: Config, s: State, e: Event, h: Handle)
  {
    e.TakeLock? && AcquirePass(s.idle, s.total, c.maxPool, e.ok).outcome == Granted(h)
  }

  /** Idle handles are handed out again in the order in which they entered the queue: the handle reused first
      has the earlier place among those that ever entered, and each place is the one just popped. */
  lemma ReuseInReleaseOrder(c: Config, attempts: seq<Attempt>, n: nat, r: Run, i: nat, j: nat, g: Handle, h: Handle)
    requires r.Valid(c) && Start(c, attempts, n, r.states[0]) && i < j < |r.events|
    requires Reuses(c, r.states[i], r.events[i], g) && Reuses(c, r.states[j], r.events[j], h)
    ensures var p, q := |r.states[i + 1].popped| - 1, |r.states[j + 1].popped| - 1;
            0 <= p < q < |r.states[j].pushed| && r.states[j].pushed[p] == g && r.states[j].pushed[q] == h
  {
    RunOwned(c, attempts, n, r, i + 1);
    RunOwned(c, attempts, n, r, j);
    HistoryGrows(c, r, i + 1, j);
    var p := |r.states[i + 1].popped| - 1;
    var q := |r.states[j + 1].popped| - 1;
    assert r.states[i + 1].pushed[p] == g;
    assert r.states[j].pushed[q] == h;
    assert r.states[j].pushed[p] == g;
  }
}
