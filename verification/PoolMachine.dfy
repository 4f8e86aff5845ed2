/** The pool shared by any number of threads, as a machine whose steps are the stretches of code that run
    under the mutex and the calls made between them. Handle health, failing connection attempts, spurious
    wake-ups, timeouts and the choice of the notified thread are choices of the environment, carried by
    the events. A run is a start state and a sequence of events. */
module PoolMachine {
  import opened ConnPool

  /** Progress of CreateConn while the lock is dropped. */
  datatype Stage = Connecting | Ready(conn: Handle) | Failed

  datatype Phase =
    | Outside                    // not in Acquire, and not owing a notification
    | Creating(stage: Stage)     // in the unlocked window of Acquire
    | Sleeping                   // in cv_.wait_until
    | Waking(notified: bool)     // left the wait set, lock not yet taken back
    | Notifying                  // in Release, after unlock and before notify_one

  /** `guards` holds the handles of the thread's live ConnGuards. */
  datatype Thread = Thread(phase: Phase, guards: seq<Handle>)

  /** `everOpened`, `finished`, `pushed` and `popped` are history: every handle ever allocated, every finish
      call, and the handles that entered and left the idle queue, in order. */
  datatype State = State(
    idle: seq<Handle>,
    total: nat,
    threads: seq<Thread>,
    alive: bool,
    everOpened: set<Handle>,
    finished: seq<Handle>,
    pushed: seq<Handle>,
    popped: seq<Handle>)

  datatype Event =
    | TakeLock(t: nat, ok: set<Handle>)            // the locked pass of Acquire
    | Connect(t: nat, conn: Handle)                // a context was allocated
    | Reject(t: nat)                               // bad status or failed AUTH: the context is freed
    | ConnectFails(t: nat)                         // no context at all
    | Count(t: nat)                                // lock taken back with a connection
    | FallAsleep(t: nat)                           // lock taken back without one: straight to the wait
    | Stir(t: nat)                                 // timeout or spurious wake-up leaves the wait set
    | GiveUp(t: nat)                               // the wait reports timeout: Acquire returns nullptr
    | Release(t: nat, g: nat, healthy: bool)         // the locked part of Release
    | Notify(t: nat, target: nat)                  // notify_one
    | Destroy

  ghost predicate NobodySleeps(s: State)
  {
    forall t :: 0 <= t < |s.threads| ==> !s.threads[t].phase.Sleeping?
  }

  ghost predicate Enabled(s: State, e: Event)
  {
    && s.alive
    && (e.Destroy? || e.t < |s.threads|)
    && match e
       case TakeLock(t, ok) => s.threads[t].phase.Outside? || s.threads[t].phase.Waking?
       case Connect(t, conn) => s.threads[t].phase == Creating(Connecting) && conn !in s.everOpened
       case Reject(t) => s.threads[t].phase.Creating? && s.threads[t].phase.stage.Ready?
       case ConnectFails(t) => s.threads[t].phase == Creating(Connecting)
       case Count(t) => s.threads[t].phase.Creating? && s.threads[t].phase.stage.Ready?
       case FallAsleep(t) => s.threads[t].phase == Creating(Failed)
       case Stir(t) => s.threads[t].phase.Sleeping?
       case GiveUp(t) => s.threads[t].phase.Waking?
       case Release(t, g, healthy) => s.threads[t].phase.Outside? && g < |s.threads[t].guards|
       case Notify(t, target) =>
         && s.threads[t].phase.Notifying?
         && (NobodySleeps(s) || (target < |s.threads| && s.threads[target].phase.Sleeping?))
       case Destroy =>
         forall t :: 0 <= t < |s.threads| ==> s.threads[t] == Thread(Outside, [])
  }

  /** `s` with thread `t` in phase `p`. */
  function Move(s: State, t: nat, p: Phase): State
    requires t < |s.threads|
  {
    s.(threads := s.threads[t := s.threads[t].(phase := p)])
  }

  ghost function Apply(c: Config, s: State, e: Event): State
    requires Enabled(s, e)
  {
    match e
    case TakeLock(t, ok) =>
      var p := AcquirePass(s.idle, s.total, c.maxPool, ok);
      var s' := s.(idle := p.idle, total := p.total, finished := s.finished + p.dropped);
      (match p.outcome
       case Granted(conn) =>
         s'.(threads := s.threads[t := Thread(Outside, s.threads[t].guards + [conn])],
             popped := s.popped + p.dropped + [conn])
       case MustCreate => Move(s', t, Creating(Connecting)).(popped := s.popped + p.dropped)
       case MustWait => Move(s', t, Sleeping).(popped := s.popped + p.dropped))
    case Connect(t, conn) => Move(s, t, Creating(Ready(conn))).(everOpened := s.everOpened + {conn})
    case Reject(t) =>
      Move(s, t, Creating(Failed)).(finished := s.finished + [s.threads[t].phase.stage.conn])
    case ConnectFails(t) => Move(s, t, Creating(Failed))
    case Count(t) =>
      s.(total := s.total + 1,
         threads := s.threads[t := Thread(Outside, s.threads[t].guards + [s.threads[t].phase.stage.conn])])
    case FallAsleep(t) => Move(s, t, Sleeping)
    case Stir(t) => Move(s, t, Waking(false))
    case GiveUp(t) => Move(s, t, Outside)
    case Release(t, g, healthy) =>
      var held := s.threads[t].guards;
      var conn := held[g];
      var s' := s.(threads := s.threads[t := Thread(Notifying, held[..g] + held[g + 1..])]);
      if healthy then s'.(idle := s.idle + [conn], pushed := s.pushed + [conn])
      else s'.(total := if s.total == 0 then 0 else s.total - 1, finished := s.finished + [conn])
    case Notify(t, target) =>
      if NobodySleeps(s) then Move(s, t, Outside) else Move(Move(s, t, Outside), target, Waking(true))
    case Destroy =>
      s.(idle := [], total := 0, alive := false, finished := s.finished + s.idle, popped := s.popped + s.idle)
  }

  /** The state the constructor leaves behind, with `n` threads that have not called the pool yet. */
  ghost predicate Start(c: Config, attempts: seq<Attempt>, n: nat, s: State)
  {
    && |attempts| == c.minPool
    && DistinctHandles(attempts)
    && s.idle == Kept(attempts) && s.total == |s.idle| && s.alive
    && s.threads == seq(n, i => Thread(Outside, []))
    && s.everOpened == AllocatedBy(attempts)
    && s.finished == Freed(attempts)
    && s.pushed == s.idle && s.popped == []
  }

  datatype Run = Run(states: seq<State>, events: seq<Event>)
  {
    ghost predicate Valid(c: Config) {
      && |states| == |events| + 1
      && forall i :: 0 <= i < |events| ==>
           Enabled(states[i], events[i]) && states[i + 1] == Apply(c, states[i], events[i])
    }

    function Last(): State
      requires states != []
    {
      states[|states| - 1]
    }

  }

  /** One more step. */
  ghost function Then(c: Config, r: Run, e: Event): Run
    requires r.Valid(c) && Enabled(r.Last(), e)
  {
    Run(r.states + [Apply(c, r.Last(), e)], r.events + [e])
  }

  lemma ThenIsValid(c: Config, r: Run, e: Event)
    requires r.Valid(c) && Enabled(r.Last(), e)
    ensures Then(c, r, e).Valid(c)
  {
  }

  /** A weight of single threads, added up over all of them. */
  function Sum(ts: seq<Thread>, w: Thread -> nat): nat
  {
    if ts == [] then 0 else Sum(ts[..|ts| - 1], w) + w(ts[|ts| - 1])
  }

  lemma {:induction false} SumUpdate(ts: seq<Thread>, t: nat, th: Thread, w: Thread -> nat)
    requires t < |ts|
    ensures Sum(ts[t := th], w) == Sum(ts, w) - w(ts[t]) + w(th)
    ensures w(ts[t]) <= Sum(ts, w)
  {
    var n := |ts| - 1;
    if t < n {
      SumUpdate(ts[..n], t, th, w);
      assert ts[t := th][..n] == ts[..n][t := th];
    } else {
      assert ts[t := th][..n] == ts[..n];
    }
  }

  lemma {:induction false} SumOfTwo(ts: seq<Thread>, t: nat, u: nat, w: Thread -> nat)
    requires t < u < |ts|
    ensures w(ts[t]) + w(ts[u]) <= Sum(ts, w)
  {
    if u < |ts| - 1 {
      SumOfTwo(ts[..|ts| - 1], t, u, w);
    } else {
      SumUpdate(ts[..|ts| - 1], t, ts[t], w);
    }
  }

  lemma {:induction false} SumZero(ts: seq<Thread>, w: Thread -> nat)
    requires forall t :: 0 <= t < |ts| ==> w(ts[t]) == 0
    ensures Sum(ts, w) == 0
  {
    if ts != [] {
      SumZero(ts[..|ts| - 1], w);
    }
  }

  /** Notify changes the phases of two threads and nothing else. */
  lemma NotifySum(c: Config, s: State, e: Event, w: Thread -> nat)
    requires Enabled(s, e) && e.Notify?
    ensures var ts, after := s.threads, Apply(c, s, e).threads;
            && after[e.t] == ts[e.t].(phase := Outside)
            && if NobodySleeps(s) then Sum(after, w) == Sum(ts, w) - w(ts[e.t]) + w(after[e.t])
               else
                 && after[e.target] == ts[e.target].(phase := Waking(true))
                 && Sum(after, w) == Sum(ts, w) - w(ts[e.t]) + w(after[e.t]) - w(ts[e.target]) + w(after[e.target])
  {
    var mid := Move(s, e.t, Outside);
    SumUpdate(s.threads, e.t, mid.threads[e.t], w);
    if !NobodySleeps(s) {
      SumUpdate(mid.threads, e.target, Move(mid, e.target, Waking(true)).threads[e.target], w);
    }
  }
}
