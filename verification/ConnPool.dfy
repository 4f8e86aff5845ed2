/** The sequential parts of a connection pool (`DbPool`, `RedisPool`): one pass through the locked part of
    Acquire, and one call of CreateConn. */
module ConnPool {
  import opened Types

  /** Identity of one opened connection; never reused for a later one. */
  type Handle = nat

  datatype Config = Config(minPool: nat, maxPool: nat)

  /** One decrement of the counter: it wraps around below zero. */
  function Decremented(total: nat): (less: nat)
    ensures total < SIZE_RANGE ==> less < SIZE_RANGE && (less + 1) % SIZE_RANGE == total
  {
    if total == 0 then SIZE_RANGE - 1 else total - 1
  }

  datatype Outcome = Granted(conn: Handle) | MustCreate | MustWait

  /** Queue, counter, finished handles and decision after one pass through the locked part of Acquire. */
  datatype Pass = Pass(idle: seq<Handle>, total: nat, dropped: seq<Handle>, outcome: Outcome)

  /** The pass takes handles off the front until one passes its health check (`ok`): exactly the unhealthy
      handles before it are dropped, the counter falls by their number, and the rest keeps its order. */
  function AcquirePass(idle: seq<Handle>, total: nat, maxPool: nat, ok: set<Handle>): (p: Pass)
    ensures idle == p.dropped + (if p.outcome.Granted? then [p.outcome.conn] else []) + p.idle
    ensures forall i :: 0 <= i < |p.dropped| ==> p.dropped[i] !in ok
    ensures if p.outcome.Granted? then p.outcome.conn in ok else p.idle == []
    ensures |p.dropped| <= total ==> p.total == total - |p.dropped|
    ensures !p.outcome.Granted? ==> (p.outcome.MustCreate? <==> p.total < maxPool)
  {
    if idle == [] then Pass([], total, [], if total < maxPool then MustCreate else MustWait)
    else if idle[0] in ok then Pass(idle[1..], total, [], Granted(idle[0]))
    else
      var p := AcquirePass(idle[1..], Decremented(total), maxPool, ok);
      p.(dropped := [idle[0]] + p.dropped)
  }

  /** What one call of CreateConn did: the handle it allocated, if any, and whether it was returned. */
  datatype Attempt = NoHandle | Allocated(conn: Handle, kept: bool)

  function Kept(attempts: seq<Attempt>): seq<Handle>
  {
    if attempts == [] then []
    else
      var before, last := Kept(attempts[..|attempts| - 1]), attempts[|attempts| - 1];
      if last.Allocated? && last.kept then before + [last.conn] else before
  }

  function Freed(attempts: seq<Attempt>): seq<Handle>
  {
    if attempts == [] then []
    else
      var before, last := Freed(attempts[..|attempts| - 1]), attempts[|attempts| - 1];
      if last.Allocated? && !last.kept then before + [last.conn] else before
  }

  function AllocatedBy(attempts: seq<Attempt>): set<Handle>
  {
    if attempts == [] then {}
    else
      var last := attempts[|attempts| - 1];
      AllocatedBy(attempts[..|attempts| - 1]) + if last.Allocated? then {last.conn} else {}
  }

  /** Each allocation is a new handle. */
  predicate DistinctHandles(attempts: seq<Attempt>)
  {
    attempts != [] ==>
      var last := attempts[|attempts| - 1];
      && DistinctHandles(attempts[..|attempts| - 1])
      && (last.Allocated? ==> last.conn !in AllocatedBy(attempts[..|attempts| - 1]))
  }

  /** How often `h` occurs in `s`. */
  function Occurs(s: seq<Handle>, h: Handle): nat
  {
    if s == [] then 0 else Occurs(s[..|s| - 1], h) + if s[|s| - 1] == h then 1 else 0
  }

  lemma {:induction false} OccursConcat(a: seq<Handle>, b: seq<Handle>, h: Handle)
    ensures Occurs(a + b, h) == Occurs(a, h) + Occurs(b, h)
  {
    if b == [] {
      assert a + b == a;
    } else {
      OccursConcat(a, b[..|b| - 1], h);
      assert (a + b)[..|a + b| - 1] == a + b[..|b| - 1];
    }
  }

  lemma OccursAppend(s: seq<Handle>, x: Handle, h: Handle)
    ensures Occurs(s + [x], h) == Occurs(s, h) + if x == h then 1 else 0
  {
  }

  /** Which handles the attempts kept, which they freed, and which they allocated, attempt by attempt. */
  lemma {:induction false} AttemptResults(attempts: seq<Attempt>, h: Handle)
    ensures h in Kept(attempts) <==> Allocated(h, true) in attempts
    ensures h in Freed(attempts) <==> Allocated(h, false) in attempts
    ensures h in AllocatedBy(attempts) <==> Allocated(h, true) in attempts || Allocated(h, false) in attempts
  {
    if attempts != [] {
      var before, last := attempts[..|attempts| - 1], attempts[|attempts| - 1];
      AttemptResults(before, h);
      assert attempts == before + [last];
    }
  }

  /** Later attempts add to the back. */
  lemma {:induction false} AttemptOrder(a: seq<Attempt>, b: seq<Attempt>)
    ensures Kept(a + b) == Kept(a) + Kept(b) && Freed(a + b) == Freed(a) + Freed(b)
  {
    if b == [] {
      assert a + b == a;
    } else {
      var before, last := b[..|b| - 1], b[|b| - 1];
      AttemptOrder(a, before);
      assert (a + b)[..|a + b| - 1] == a + before && (a + b)[|a + b| - 1] == last;
    }
  }

  lemma {:induction false} AllocatedIsKeptOrFreed(attempts: seq<Attempt>, h: Handle)
    requires DistinctHandles(attempts)
    ensures Occurs(Kept(attempts), h) + Occurs(Freed(attempts), h) == if h in AllocatedBy(attempts) then 1 else 0
  {
    if attempts != [] {
      var before, last := attempts[..|attempts| - 1], attempts[|attempts| - 1];
      AllocatedIsKeptOrFreed(before, h);
      if last.Allocated? {
        OccursAppend(Kept(before), last.conn, h);
        OccursAppend(Freed(before), last.conn, h);
      }
    }
  }

  datatype AuthReply = NoReply | ErrorReply | OkReply

  datatype ConnectReply = NoContext | Context(ctx: Handle, err: bool)
}
