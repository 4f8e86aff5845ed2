/** The tables behind friend requests, friendships and messages, as a machine whose steps are single SQL
    statements. The statements of one handler are separate steps, so handlers interleave freely, and any
    statement may fail. */
module Store {

  import opened Types

  /** The row id of a friend request is its position; `status` is 0 (pending), 1 (accepted) or 2 (rejected). */
  datatype Request = Request(fromUid: Uid, toUid: Uid, status: int)

  datatype Outcome = NotRun | Done | Error

  /** One run of AcceptFriendRequest that found a pending request, with the outcome of its two inserts. */
  datatype Accept = Accept(req: nat, fromUid: Uid, toUid: Uid, first: Outcome, second: Outcome, ended: bool)

  /** The socket a message came in on and the moment it did. */
  datatype Via = Direct | Through(w: Socket, at: nat)

  /** One run of SendMsg: the outcome of the friendship check, the row id its insert has drawn (0 before), and
      the outcome of the insert. */
  datatype Send = Send(
    fromUid: Uid, toUid: Uid, content: string, via: Via, check: Outcome, id: nat, save: Outcome)

  /** A row of t_chat_msg; `send` is the run that stored it. */
  datatype Row = Row(id: nat, fromUid: Uid, toUid: Uid, content: string, createTime: int, send: nat)

  /** `messages` holds the visible rows in id order. `nextId` is the sequence behind t_chat_msg.id: an insert
      draws its id from it when it starts, and its row is visible when it commits. */
  datatype Tables = Tables(
    users: map<Uid, string>,
    friends: set<(Uid, Uid)>,
    requests: seq<Request>,
    messages: seq<Row>,
    nextId: nat,
    accepts: seq<Accept>,
    sends: seq<Send>)

  const EMPTY := Tables(map[], {}, [], [], 1, [], [])

  /** `ok` says whether the statement succeeded. */
  datatype Event =
    | CreateUser(uid: Uid, password: string)
    | CreateRequest(fromUid: Uid, toUid: Uid)
    | FindPending(req: nat)                          // AcceptFriendRequest: SELECT ... AND status=0
    | FirstInsert(a: nat, ok: bool)                  // ... INSERT (from_uid, to_uid)
    | SecondInsert(a: nat, ok: bool)                 // ... INSERT (to_uid, from_uid)
    | MarkAccepted(a: nat, ok: bool)                 // ... UPDATE status=1
    | MarkRejected(req: nat, ok: bool)               // RespondFriendRequest: UPDATE status=2
    | BeginSend(fromUid: Uid, toUid: Uid, content: string, via: Via)
    | CheckFriends(i: nat, ok: bool)                 // SendMsg: AreFriends
    | DrawId(i: nat)                                 // ... INSERT takes the next row id
    | SaveMessage(i: nat, ok: bool, now: int)        // ... and commits or fails

  function Ran(ok: bool): Outcome { if ok then Done else Error }

  function RowOf(m: Send, i: nat, now: int): Row { Row(m.id, m.fromUid, m.toUid, m.content, now, i) }

  /** `rows`, which are in id order, with one more row. */
  function Placed(rows: seq<Row>, row: Row): (placed: seq<Row>)
    ensures forall r :: r in placed <==> r in rows || r == row
  {
    var n := |rows| - 1;
    if rows == [] || rows[n].id < row.id then rows + [row] else Placed(rows[..n], row) + [rows[n]]
  }

  predicate Enabled(s: Tables, e: Event)
  {
    match e
    case CreateUser(uid, _) => uid !in s.users
    case CreateRequest(_, _) => true
    case FindPending(req) => req < |s.requests| && s.requests[req].status == 0
    case FirstInsert(a, _) => a < |s.accepts| && s.accepts[a].first.NotRun?
    case SecondInsert(a, _) => a < |s.accepts| && !s.accepts[a].first.NotRun? && s.accepts[a].second.NotRun?
    case MarkAccepted(a, _) =>
      a < |s.accepts| && s.accepts[a].first.Done? && s.accepts[a].second.Done? && !s.accepts[a].ended
    case MarkRejected(req, _) => req < |s.requests|
    case BeginSend(_, _, _, _) => true
    case CheckFriends(i, _) => i < |s.sends| && s.sends[i].check.NotRun?
    case DrawId(i) => i < |s.sends| && s.sends[i].check.Done? && s.sends[i].id == 0 && s.sends[i].save.NotRun?
    case SaveMessage(i, ok, _) =>
      i < |s.sends| && s.sends[i].check.Done? && s.sends[i].save.NotRun? && (ok ==> s.sends[i].id != 0)
  }

  function Apply(s: Tables, e: Event): Tables
    requires Enabled(s, e)
  {
    match e
    case CreateUser(uid, password) => s.(users := s.users[uid := password])
    case CreateRequest(fromUid, toUid) => s.(requests := s.requests + [Request(fromUid, toUid, 0)])
    case FindPending(req) =>
      var r := s.requests[req];
      s.(accepts := s.accepts + [Accept(req, r.fromUid, r.toUid, NotRun, NotRun, false)])
    case FirstInsert(a, ok) =>
      var r := s.accepts[a];
      s.(accepts := s.accepts[a := r.(first := Ran(ok))],
         friends := if ok then s.friends + {(r.fromUid, r.toUid)} else s.friends)
    case SecondInsert(a, ok) =>
      var r := s.accepts[a];
      s.(accepts := s.accepts[a := r.(second := Ran(ok))],
         friends := if ok then s.friends + {(r.toUid, r.fromUid)} else s.friends)
    case MarkAccepted(a, ok) =>
      var s' := s.(accepts := s.accepts[a := s.accepts[a].(ended := true)]);
      var req := s.accepts[a].req;
      if ok && req < |s.requests| then s'.(requests := s.requests[req := s.requests[req].(status := 1)]) else s'
    case MarkRejected(req, ok) =>
      if ok then s.(requests := s.requests[req := s.requests[req].(status := 2)]) else s
    case BeginSend(fromUid, toUid, content, via) =>
      s.(sends := s.sends + [Send(fromUid, toUid, content, via, NotRun, 0, NotRun)])
    case CheckFriends(i, ok) =>
      var m := s.sends[i];
      s.(sends := s.sends[i := m.(check := Ran(ok && (m.fromUid, m.toUid) in s.friends))])
    case DrawId(i) => s.(sends := s.sends[i := s.sends[i].(id := s.nextId)], nextId := s.nextId + 1)
    case SaveMessage(i, ok, now) =>
      var m := s.sends[i];
      s.(sends := s.sends[i := m.(save := Ran(ok))],
         messages := if ok then Placed(s.messages, RowOf(m, i, now)) else s.messages)
  }

  /** A statement that a handler cannot run at this point does not happen. */
  function Step(s: Tables, e: Event): Tables
  {
    if Enabled(s, e) then Apply(s, e) else s
  }

  function After(es: seq<Event>): Tables
  {
    if es == [] then EMPTY else Step(After(es[..|es| - 1]), es[|es| - 1])
  }

  // What every run keeps.

  /** Accept `i` has inserted the row (a, b). */
  predicate Inserted(s: Tables, i: nat, a: Uid, b: Uid)
  {
    i < |s.accepts| &&
    var r := s.accepts[i];
    (r.first.Done? && r.fromUid == a && r.toUid == b) || (r.second.Done? && r.toUid == a && r.fromUid == b)
  }

  /** The friend rows are exactly those that some accept has inserted. */
  ghost predicate RowsInserted(s: Tables)
  {
    forall a, b :: (a, b) in s.friends <==> exists i: nat :: Inserted(s, i, a, b)
  }

  /** Accept `i` serves an existing request, and its second insert comes after its first. */
  predicate AcceptSound(s: Tables, i: nat)
    requires i < |s.accepts|
  {
    var r := s.accepts[i];
    && r.req < |s.requests|
    && s.requests[r.req].fromUid == r.fromUid && s.requests[r.req].toUid == r.toUid
    && (r.first.NotRun? ==> r.second.NotRun?)
  }

  ghost predicate Accepted(s: Tables, req: nat, i: nat)
  {
    i < |s.accepts| && s.accepts[i].req == req && s.accepts[i].first.Done? && s.accepts[i].second.Done?
  }

  ghost predicate RequestSound(s: Tables, req: nat)
    requires req < |s.requests|
  {
    && 0 <= s.requests[req].status <= 2
    && (s.requests[req].status == 1 ==> exists i: nat :: Accepted(s, req, i))
  }

  predicate SendSound(s: Tables, i: nat)
    requires i < |s.sends|
  {
    var m := s.sends[i];
    && (m.check.Done? ==> (m.fromUid, m.toUid) in s.friends)
    && m.id < s.nextId && (m.save.Done? ==> m.id != 0)
  }

  /** No two inserts have drawn the same id. */
  predicate DistinctDraws(s: Tables)
  {
    forall i, j :: 0 <= i < j < |s.sends| && s.sends[i].id != 0 ==> s.sends[i].id != s.sends[j].id
  }

  predicate RowSound(s: Tables, row: Row)
  {
    && row.send < |s.sends|
    && var m := s.sends[row.send];
       m.check.Done? && m.save.Done? && row == RowOf(m, row.send, row.createTime)
  }

  ghost predicate Sound(s: Tables)
  {
    && RowsInserted(s)
    && (forall i :: 0 <= i < |s.accepts| ==> AcceptSound(s, i))
    && (forall i :: 0 <= i < |s.requests| ==> RequestSound(s, i))
    && (forall i :: 0 <= i < |s.sends| ==> SendSound(s, i))
    && DistinctDraws(s) && s.nextId > 0
    && (forall row :: row in s.messages ==> RowSound(s, row))
    && IncreasingIds(s.messages)
  }

  lemma StepRowsInserted(s: Tables, e: Event)
    requires RowsInserted(s)
    ensures RowsInserted(Step(s, e))
  {
    var s' := Step(s, e);
    forall a, b ensures (a, b) in s'.friends <==> exists i: nat :: Inserted(s', i, a, b) {
      if (a, b) in s.friends {
        var i: nat :| Inserted(s, i, a, b);
        assert Inserted(s', i, a, b);
      } else if exists i: nat :: Inserted(s', i, a, b) {
        var i: nat :| Inserted(s', i, a, b);
        assert !Inserted(s, i, a, b);
      }
      if (e.FirstInsert? || e.SecondInsert?) && (a, b) in s'.friends && (a, b) !in s.friends {
        assert Inserted(s', e.a, a, b);
      }
    }
  }

  lemma StepRequestSound(s: Tables, e: Event, req: nat)
    requires req < |Step(s, e).requests|
    requires req < |s.requests| ==> RequestSound(s, req)
    ensures RequestSound(Step(s, e), req)
  {
    var s' := Step(s, e);
    if s'.requests[req].status == 1 {
      if req < |s.requests| && s.requests[req].status == 1 {
        var i: nat :| Accepted(s, req, i);
        assert Accepted(s', req, i);
      } else {
        assert Accepted(s', req, e.a);
      }
    }
  }

  lemma StepAcceptSound(s: Tables, e: Event, i: nat)
    requires i < |Step(s, e).accepts| && (i < |s.accepts| ==> AcceptSound(s, i))
    ensures AcceptSound(Step(s, e), i)
  {
  }

  lemma StepSendSound(s: Tables, e: Event, i: nat)
    requires s.nextId > 0 && i < |Step(s, e).sends| && (i < |s.sends| ==> SendSound(s, i))
    ensures SendSound(Step(s, e), i)
  {
  }

  lemma StepDistinctDraws(s: Tables, e: Event)
    requires DistinctDraws(s) && forall i :: 0 <= i < |s.sends| ==> SendSound(s, i)
    ensures DistinctDraws(Step(s, e))
  {
    forall i | 0 <= i < |s.sends| ensures s.sends[i].id < s.nextId {
      assert SendSound(s, i);
    }
  }

  lemma StepRowSound(s: Tables, e: Event, row: Row)
    requires row in Step(s, e).messages && (row in s.messages ==> RowSound(s, row))
    ensures RowSound(Step(s, e), row)
  {
  }

  predicate IncreasingIds(rows: seq<Row>)
  {
    forall j, k :: 0 <= j < k < |rows| ==> rows[j].id < rows[k].id
  }

  lemma {:induction false} PlacedIncreases(rows: seq<Row>, row: Row)
    requires IncreasingIds(rows) && forall r :: r in rows ==> r.id != row.id
    ensures IncreasingIds(Placed(rows, row))
  {
    var n := |rows| - 1;
    if rows != [] && rows[n].id >= row.id {
      var front := rows[..n];
      PlacedIncreases(front, row);
      forall j | 0 <= j < |Placed(front, row)| ensures Placed(front, row)[j].id < rows[n].id {
        var r := Placed(front, row)[j];
        assert r in front || r == row;
      }
    }
  }

  /** A row that is placed has a new id, because its insert is the only one that has drawn it. */
  lemma StepIncreasingIds(s: Tables, e: Event)
    requires Sound(s)
    ensures IncreasingIds(Step(s, e).messages)
  {
    if e.SaveMessage? && e.ok && Enabled(s, e) {
      var m := s.sends[e.i];
      forall r | r in s.messages ensures r.id != m.id {
        assert RowSound(s, r);
      }
      PlacedIncreases(s.messages, RowOf(m, e.i, e.now));
    }
  }

  lemma StepSound(s: Tables, e: Event)
    requires Sound(s)
    ensures Sound(Step(s, e))
  {
    var s' := Step(s, e);
    assert s'.nextId > 0;
    hide Step, RowsInserted, AcceptSound, RequestSound, SendSound, DistinctDraws, RowSound, IncreasingIds;
    StepRowsInserted(s, e);
    StepDistinctDraws(s, e);
    StepIncreasingIds(s, e);
    forall req | 0 <= req < |s'.requests| ensures RequestSound(s', req) {
      StepRequestSound(s, e, req);
    }
    forall i | 0 <= i < |s'.accepts| ensures AcceptSound(s', i) {
      StepAcceptSound(s, e, i);
    }
    forall i | 0 <= i < |s'.sends| ensures SendSound(s', i) {
      StepSendSound(s, e, i);
    }
    forall row | row in s'.messages ensures RowSound(s', row) {
      StepRowSound(s, e, row);
    }
  }

  lemma {:induction false} RunSound(es: seq<Event>)
    ensures Sound(After(es))
  {
    if es != [] {
      RunSound(es[..|es| - 1]);
      StepSound(After(es[..|es| - 1]), es[|es| - 1]);
    }
  }

  // What only grows.

  /** Nothing is lost from `s` to `t`: no friend row, no user, no stored message, no request, and no answer
      to a request. */
  ghost predicate Grows(s: Tables, t: Tables)
  {
    && s.friends <= t.friends && (forall row :: row in s.messages ==> row in t.messages)
    && (forall u :: u in s.users ==> u in t.users && t.users[u] == s.users[u])
    && |s.requests| <= |t.requests|
    && (forall i :: 0 <= i < |s.requests| ==>
          && t.requests[i].fromUid == s.requests[i].fromUid && t.requests[i].toUid == s.requests[i].toUid
          && (s.requests[i].status != 0 ==> t.requests[i].status != 0))
  }

  lemma StepGrows(s: Tables, e: Event)
    ensures Grows(s, Step(s, e))
  {
  }

  lemma {:induction false} RunGrows(es: seq<Event>, n: nat)
    requires n <= |es|
    ensures Grows(After(es[..n]), After(es))
  {
    if n < |es| {
      var before := es[..|es| - 1];
      assert before[..n] == es[..n];
      RunGrows(before, n);
      StepGrows(After(before), es[|es| - 1]);
    } else {
      assert es[..n] == es;
    }
  }

  lemma AfterThen(es: seq<Event>, e: Event)
    ensures After(es + [e]) == Step(After(es), e)
  {
  }
}
