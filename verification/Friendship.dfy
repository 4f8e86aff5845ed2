/** Who is friends with whom after a run of the store: when a friendship is symmetric, and when a one-sided
    one can still be completed. */
module Friendship {
  import opened Types
  import opened Store

  predicate Between(x: Uid, y: Uid, a: Uid, b: Uid)
  {
    (x == a && y == b) || (x == b && y == a)
  }

  // Symmetry.

  /** Of the inserts of accept `i`, between `a` and `b`, exactly one has gone through. */
  predicate HalfDone(s: Tables, i: nat, a: Uid, b: Uid)
  {
    i < |s.accepts| &&
    var r := s.accepts[i];
    Between(r.fromUid, r.toUid, a, b) && r.first.Done? != r.second.Done?
  }

  /** The row that half-done accept `i` did not insert has been inserted all the same, by some accept. */
  ghost predicate MadeUp(s: Tables, i: nat)
    requires i < |s.accepts|
  {
    var r := s.accepts[i];
    exists j: nat ::
      if r.first.Done? then Inserted(s, j, r.toUid, r.fromUid) else Inserted(s, j, r.fromUid, r.toUid)
  }

  /** A one-sided friendship is the work of an accept that is half done, and that no other has made up for. */
  lemma OneSidedMeansHalfDone(s: Tables, a: Uid, b: Uid) returns (i: nat)
    requires RowsInserted(s) && (a, b) in s.friends && (b, a) !in s.friends
    ensures HalfDone(s, i, a, b) && !MadeUp(s, i)
  {
    i :| Inserted(s, i, a, b);
    assert !Inserted(s, i, b, a);
  }

  /** After every run: friendship between `a` and `b` is symmetric exactly when every half-done accept
      between them has been made up for. */
  lemma SymmetricIff(es: seq<Event>, a: Uid, b: Uid)
    ensures var s := After(es);
            ((a, b) in s.friends <==> (b, a) in s.friends) <==> forall i: nat :: HalfDone(s, i, a, b) ==> MadeUp(s, i)
  {
    RunSound(es);
    var s := After(es);
    if (a, b) in s.friends && (b, a) !in s.friends {
      var i := OneSidedMeansHalfDone(s, a, b);
    } else if (b, a) in s.friends && (a, b) !in s.friends {
      var i := OneSidedMeansHalfDone(s, b, a);
      assert HalfDone(s, i, a, b);
    } else {
      forall i: nat | HalfDone(s, i, a, b) ensures MadeUp(s, i) {
        var r := s.accepts[i];
        assert Inserted(s, i, r.fromUid, r.toUid) || Inserted(s, i, r.toUid, r.fromUid);
        assert (r.fromUid, r.toUid) in s.friends && (r.toUid, r.fromUid) in s.friends;
      }
    }
  }

  /** So friendship is symmetric whenever no accept is between its inserts and no insert has failed. */
  lemma QuietMeansSymmetric(es: seq<Event>, a: Uid, b: Uid)
    requires forall i :: 0 <= i < |After(es).accepts| ==>
      var r := After(es).accepts[i];
      !r.first.Error? && !r.second.Error? && (r.first.Done? ==> r.second.Done?)
    ensures (a, b) in After(es).friends <==> (b, a) in After(es).friends
  {
    RunSound(es);
    var s := After(es);
    forall i: nat ensures !HalfDone(s, i, a, b) {
      assert i < |s.accepts| ==> AcceptSound(s, i);
    }
    SymmetricIff(es, a, b);
  }

  // What accepts leave behind.

  /** In every run: once both inserts of an accept have gone through, both rows are there for good, whatever
      runs in between or later. */
  lemma DoneInsertsStay(es: seq<Event>, n: nat, i: nat)
    requires n <= |es| && i < |After(es[..n]).accepts|
    requires var r := After(es[..n]).accepts[i]; r.first.Done? && r.second.Done?
    ensures var r := After(es[..n]).accepts[i];
            (r.fromUid, r.toUid) in After(es).friends && (r.toUid, r.fromUid) in After(es).friends
  {
    RunSound(es[..n]);
    RunGrows(es, n);
    var s := After(es[..n]);
    var r := s.accepts[i];
    assert Inserted(s, i, r.fromUid, r.toUid) && Inserted(s, i, r.toUid, r.fromUid);
  }

  /** In every run: an accepted request has both friend rows, and keeps them. */
  lemma AcceptedHasBothRows(es: seq<Event>, n: nat, req: nat)
    requires n <= |es| && req < |After(es[..n]).requests| && After(es[..n]).requests[req].status == 1
    ensures var r := After(es[..n]).requests[req];
            (r.fromUid, r.toUid) in After(es).friends && (r.toUid, r.fromUid) in After(es).friends
  {
    RunSound(es[..n]);
    var s := After(es[..n]);
    assert RequestSound(s, req);
    var i: nat :| Accepted(s, req, i);
    assert AcceptSound(s, i);
    DoneInsertsStay(es, n, i);
  }

  /** In every run: an accept that gets to its update, whatever ran between its statements, leaves the
      request accepted if the update succeeds, and both rows for good. */
  lemma AcceptCompletes(es: seq<Event>, n: nat, i: nat, ok: bool)
    requires n < |es| && es[n] == MarkAccepted(i, ok) && Enabled(After(es[..n]), es[n])
    ensures var r := After(es[..n]).accepts[i];
            && r.req < |After(es[..n + 1]).requests|
            && (ok ==> After(es[..n + 1]).requests[r.req] == Request(r.fromUid, r.toUid, 1))
            && (r.fromUid, r.toUid) in After(es).friends && (r.toUid, r.fromUid) in After(es).friends
  {
    RunSound(es[..n]);
    assert AcceptSound(After(es[..n]), i);
    assert es[..n + 1][..n] == es[..n];
    DoneInsertsStay(es, n, i);
  }

  /** From every state a pending request can be accepted, which restores both rows and the status, whatever
      earlier accepts left behind. */
  lemma RetryRestores(s: Tables, req: nat)
    requires req < |s.requests| && s.requests[req].status == 0
    ensures var a := |s.accepts|;
            var t := Step(Step(Step(Step(s, FindPending(req)), FirstInsert(a, true)), SecondInsert(a, true)),
                          MarkAccepted(a, true));
            var r := s.requests[req];
            t.friends == s.friends + {(r.fromUid, r.toUid), (r.toUid, r.fromUid)} && t.requests[req].status == 1
  {
  }

  /** In every run: a friend row comes from a request between its two users. */
  lemma RowComesFromRequest(es: seq<Event>, a: Uid, b: Uid)
    requires (a, b) in After(es).friends
    ensures exists i :: 0 <= i < |After(es).requests| &&
              Between(After(es).requests[i].fromUid, After(es).requests[i].toUid, a, b)
  {
    RunSound(es);
    var s := After(es);
    var i: nat :| Inserted(s, i, a, b);
    assert AcceptSound(s, i);
    assert s.requests[s.accepts[i].req] == s.requests[s.accepts[i].req];
  }

  // When a one-sided friendship can still be completed without a new request.

  /** Accept `r` has yet to insert the row (x, y). */
  predicate WillInsert(r: Accept, x: Uid, y: Uid)
  {
    (r.first.NotRun? && r.fromUid == x && r.toUid == y) || (r.second.NotRun? && r.toUid == x && r.fromUid == y)
  }

  /** No request between the two is pending, and no accept under way has yet to insert (x, y). */
  predicate Frozen(s: Tables, x: Uid, y: Uid)
  {
    && (forall i :: 0 <= i < |s.requests| ==>
          Between(s.requests[i].fromUid, s.requests[i].toUid, x, y) ==> s.requests[i].status != 0)
    && (forall i :: 0 <= i < |s.accepts| ==> !WillInsert(s.accepts[i], x, y))
  }

  predicate NoNewRequest(more: seq<Event>, x: Uid, y: Uid)
  {
    forall k :: 0 <= k < |more| && more[k].CreateRequest? ==> !Between(more[k].fromUid, more[k].toUid, x, y)
  }

  lemma StepFrozen(s: Tables, e: Event, x: Uid, y: Uid)
    requires Frozen(s, x, y) && (x, y) !in s.friends
    requires e.CreateRequest? ==> !Between(e.fromUid, e.toUid, x, y)
    ensures Frozen(Step(s, e), x, y) && (x, y) !in Step(s, e).friends
  {
  }

  lemma {:induction false} StaysFrozen(es: seq<Event>, more: seq<Event>, x: Uid, y: Uid)
    requires Frozen(After(es), x, y) && (x, y) !in After(es).friends && NoNewRequest(more, x, y)
    ensures Frozen(After(es + more), x, y) && (x, y) !in After(es + more).friends
  {
    if more == [] {
      assert es + more == es;
    } else {
      var before, e := more[..|more| - 1], more[|more| - 1];
      StaysFrozen(es, before, x, y);
      assert es + more == es + before + [e];
      AfterThen(es + before, e);
      StepFrozen(After(es + before), e, x, y);
    }
  }

  /** Some continuation of the run, without a new request between the two, inserts (x, y). */
  ghost predicate CanBeInserted(es: seq<Event>, x: Uid, y: Uid)
  {
    exists more :: NoNewRequest(more, x, y) && (x, y) in After(es + more).friends
  }

  lemma AcceptCanInsert(es: seq<Event>, i: nat, x: Uid, y: Uid)
    requires i < |After(es).accepts| && WillInsert(After(es).accepts[i], x, y)
    requires After(es).accepts[i].first.NotRun? ==> After(es).accepts[i].second.NotRun?
    ensures (x, y) in After(es + [FirstInsert(i, true), SecondInsert(i, true)]).friends
    ensures CanBeInserted(es, x, y)
  {
    var more := [FirstInsert(i, true), SecondInsert(i, true)];
    AfterThen(es, FirstInsert(i, true));
    AfterThen(es + [FirstInsert(i, true)], SecondInsert(i, true));
    assert es + more == es + [FirstInsert(i, true)] + [SecondInsert(i, true)];
    assert NoNewRequest(more, x, y);
  }

  lemma FoundPending(es: seq<Event>, req: nat)
    requires req < |After(es).requests| && After(es).requests[req].status == 0
    ensures var s, r := After(es), After(es).requests[req];
            After(es + [FindPending(req)]).accepts
            == s.accepts + [Accept(req, r.fromUid, r.toUid, NotRun, NotRun, false)]
  {
    AfterThen(es, FindPending(req));
  }

  lemma InsertedBy(es: seq<Event>, more: seq<Event>, x: Uid, y: Uid)
    requires NoNewRequest(more, x, y) && (x, y) in After(es + more).friends
    ensures CanBeInserted(es, x, y)
  {
  }

  lemma PendingCanInsert(es: seq<Event>, req: nat, x: Uid, y: Uid)
    requires req < |After(es).requests| && After(es).requests[req].status == 0
    requires Between(After(es).requests[req].fromUid, After(es).requests[req].toUid, x, y)
    ensures CanBeInserted(es, x, y)
  {
    var i := |After(es).accepts|;
    var find, inserts := [FindPending(req)], [FirstInsert(i, true), SecondInsert(i, true)];
    FoundPending(es, req);
    assert NoNewRequest(find + inserts, x, y);
    hide After, NoNewRequest, CanBeInserted;
    AcceptCanInsert(es + find, i, x, y);
    assert es + (find + inserts) == es + find + inserts;
    InsertedBy(es, find + inserts, x, y);
  }

  /** After every run: a missing row can still appear without a new request exactly when a request between
      the two is pending or an accept under way has yet to insert it. */
  lemma CanBeInsertedIff(es: seq<Event>, x: Uid, y: Uid)
    requires (x, y) !in After(es).friends
    ensures CanBeInserted(es, x, y) <==> !Frozen(After(es), x, y)
  {
    var s := After(es);
    if Frozen(s, x, y) {
      forall more | NoNewRequest(more, x, y) ensures (x, y) !in After(es + more).friends {
        StaysFrozen(es, more, x, y);
      }
    } else if req :| 0 <= req < |s.requests| && Between(s.requests[req].fromUid, s.requests[req].toUid, x, y)
                     && s.requests[req].status == 0 {
      PendingCanInsert(es, req, x, y);
    } else {
      var i :| 0 <= i < |s.accepts| && WillInsert(s.accepts[i], x, y);
      RunSound(es);
      assert AcceptSound(s, i);
      AcceptCanInsert(es, i, x, y);
    }
  }

  /** An accept whose second insert fails, and then a reject of its request. */
  function HalfAcceptThenReject(a: Uid, b: Uid): seq<Event>
  {
    [CreateRequest(a, b)] + [FindPending(0)] + [FirstInsert(0, true)] + [SecondInsert(0, false)]
    + [MarkRejected(0, true)]
  }

  /** Rejecting does not undo anything: it leaves a one-sided friendship, the request can never be accepted
      again, and only a new request between the two users can make the friendship symmetric. */
  lemma RejectFreezesHalfFriendship(a: Uid, b: Uid, more: seq<Event>)
    requires a != b
    ensures var es := HalfAcceptThenReject(a, b);
            && After(es).friends == {(a, b)} && After(es).requests == [Request(a, b, 2)]
            && !Enabled(After(es + more), FindPending(0))
            && (NoNewRequest(more, a, b) ==> (a, b) in After(es + more).friends && (b, a) !in After(es + more).friends)
  {
    var es := HalfAcceptThenReject(a, b);
    AfterHalfAcceptThenReject(a, b);
    assert (es + more)[..|es|] == es;
    RunGrows(es + more, |es|);
    if NoNewRequest(more, a, b) {
      StaysFrozen(es, more, b, a);
    }
  }

  lemma AfterHalfAcceptThenReject(a: Uid, b: Uid)
    requires a != b
    ensures var s := After(HalfAcceptThenReject(a, b));
            s.friends == {(a, b)} && s.requests == [Request(a, b, 2)] && Frozen(s, b, a)
  {
    var es := [CreateRequest(a, b)];
    AfterThen([], CreateRequest(a, b));
    AfterThen(es, FindPending(0));
    AfterThen(es + [FindPending(0)], FirstInsert(0, true));
    AfterThen(es + [FindPending(0)] + [FirstInsert(0, true)], SecondInsert(0, false));
    AfterThen(es + [FindPending(0)] + [FirstInsert(0, true)] + [SecondInsert(0, false)], MarkRejected(0, true));
    assert [] + [CreateRequest(a, b)] == es;
    hide After;
    assert After(es) == EMPTY.(requests := [Request(a, b, 0)]);
  }
}
