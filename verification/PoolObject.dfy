/** The pool as the object the source has: fields updated in place by one method per stretch of code that
    runs under the mutex. Each method takes the object from one state of `PoolMachine` to the next. */
module PoolObject {
  import opened Wrappers
  import opened ConnPool
  import opened PoolMachine

  class Pool {
    const minPool: nat
    const maxPool: nat
    var idle: seq<Handle>
    var total: nat
    /** Every handle passed to PQfinish / redisFree, in order. */
    ghost var finished: seq<Handle>

    /** The object's fields are those of machine state `s`. */
    ghost predicate Matches(s: State)
      reads this
    {
      s.idle == idle && s.total == total && s.finished == finished
    }

    ghost function Settings(): Config { Config(minPool, maxPool) }

    constructor (config: Config, attempts: seq<Attempt>)
      requires |attempts| == config.minPool
      ensures minPool == config.minPool && maxPool == config.maxPool
      ensures idle == Kept(attempts) && total == |idle| <= minPool
      ensures finished == Freed(attempts)
      ensures forall n, s :: Start(config, attempts, n, s) ==> Matches(s)
    {
      minPool, maxPool := config.minPool, config.maxPool;
      idle, total, finished := [], 0, [];
      new;
      for i := 0 to minPool
        invariant idle == Kept(attempts[..i]) && |idle| <= i
        invariant finished == Freed(attempts[..i]) && total == 0
      {
        assert attempts[..i + 1][..i] == attempts[..i];
        match attempts[i] {
          case Allocated(conn, true) => idle := idle + [conn];
          case Allocated(conn, false) => finished := finished + [conn];
          case NoHandle =>
        }
      }
      assert attempts[..minPool] == attempts;
      total := |idle|;
    }

    /** The loop body of Acquire from taking the lock until it returns, drops the lock to create,
        or waits. `ok` holds the handles whose health check passes. */
    method Acquire(ok: set<Handle>) returns (outcome: Outcome)
      modifies this
      ensures var p := AcquirePass(old(idle), old(total), maxPool, ok);
              idle == p.idle && total == p.total && outcome == p.outcome && finished == old(finished) + p.dropped
      ensures forall s, t :: old(Matches(s)) && Enabled(s, TakeLock(t, ok)) ==>
        Matches(Apply(Settings(), s, TakeLock(t, ok)))
    {
      ghost var p := AcquirePass(idle, total, maxPool, ok);
      while idle != []
        invariant var q := AcquirePass(idle, total, maxPool, ok);
                  p.idle == q.idle && p.total == q.total && p.outcome == q.outcome
                  && old(finished) + p.dropped == finished + q.dropped
        decreases |idle|
      {
        var c := idle[0];
        idle := idle[1..];
        if c in ok {
          return Granted(c);
        }
        finished := finished + [c];
        total := Decremented(total);
      }
      return if total < maxPool then MustCreate else MustWait;
    }

    /** CreateConn of RedisPool: connect, then AUTH when a password is configured. CreateConn of DbPool is
        the case without a password. A context that was allocated is either returned or freed. */
    method CreateConn(hasPassword: bool, connect: ConnectReply, auth: AuthReply) returns (conn: Option<Handle>)
      modifies this`finished
      ensures conn.Some? <==> connect.Context? && !connect.err && (hasPassword ==> auth.OkReply?)
      ensures conn.Some? ==> conn.value == connect.ctx
      ensures finished == old(finished) + if connect.Context? && conn.None? then [connect.ctx] else []
      ensures forall s, t: nat {:trigger Enabled(s, Reject(t))} ::
        (connect.Context? && conn.None? && old(Matches(s)) && Enabled(s, Reject(t))
         && s.threads[t].phase.stage.conn == connect.ctx) ==> Matches(Apply(Settings(), s, Reject(t)))
    {
      if connect.NoContext? || connect.err {
        if connect.Context? {
          finished := finished + [connect.ctx];
        }
        return None;
      }
      if hasPassword {
        if auth.NoReply? || auth.ErrorReply? {
          finished := finished + [connect.ctx];
          return None;
        }
      }
      return Some(connect.ctx);
    }

    /** Acquire after the lock is taken back with a new connection in hand. */
    method CountCreated()
      modifies this
      ensures total == old(total) + 1 && idle == old(idle) && finished == old(finished)
      ensures forall s, t :: old(Matches(s)) && Enabled(s, Count(t)) ==> Matches(Apply(Settings(), s, Count(t)))
    {
      total := total + 1;
    }

    method Release(conn: Handle, healthy: bool)
      modifies this
      ensures idle == if healthy then old(idle) + [conn] else old(idle)
      ensures total == if healthy || old(total) == 0 then old(total) else old(total) - 1
      ensures finished == if healthy then old(finished) else old(finished) + [conn]
      ensures forall s, t: nat, g: nat {:trigger Enabled(s, Event.Release(t, g, healthy))} ::
        old(Matches(s)) && Enabled(s, Event.Release(t, g, healthy)) && s.threads[t].guards[g] == conn ==>
        Matches(Apply(Settings(), s, Event.Release(t, g, healthy)))
    {
      if !healthy {
        finished := finished + [conn];
        if total > 0 {
          total := total - 1;
        }
      } else {
        idle := idle + [conn];
      }
    }

    /** The destructor: finishes every idle handle exactly once, in queue order. */
    method Destroy()
      modifies this
      ensures idle == [] && total == 0 && finished == old(finished) + old(idle)
      ensures forall s :: old(Matches(s)) && Enabled(s, Event.Destroy) ==> Matches(Apply(Settings(), s, Event.Destroy))
    {
      for i := 0 to |idle|
        invariant finished == old(finished) + idle[..i] && idle == old(idle)
      {
        finished := finished + [idle[i]];
      }
      idle, total := [], 0;
    }
  }
}
