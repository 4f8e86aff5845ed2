/** The database client and the handlers of the logic server that change the tables, each run from beginning to
    end without interruption: what they reply, what they store, and which steps of `Store` they are. */
module Database {
  import opened Wrappers
  import opened Types
  import opened Store
  import Text
  import Framing

  datatype ErrorCode = ERR_SUCCESS | ERR_SYS_ERROR | ERR_NOT_FRIEND

  /** A message row as the database holds it. */
  datatype Message = Message(id: nat, msgId: string, fromUid: Uid, toUid: Uid, content: string, createTime: int)

  datatype SendReply = SendReply(code: ErrorCode, msgId: int, createTime: int)

  /** A PushMsg request to a gateway. */
  datatype Push = Push(gateway: string, toUid: Uid, packet: seq<Framing.byte>)

  /** How far an insert gets: it may fail before or after it has drawn a row id. */
  datatype Insert = Stored | NoId | IdLost

  predicate SameRow(m: Message, row: Row)
  {
    m == Message(row.id, m.msgId, row.fromUid, row.toUid, row.content, row.createTime)
  }

  /** The four statements of AcceptFriendRequest, without interruption. */
  function AcceptRun(s: Tables, req: nat, firstOk: bool, secondOk: bool, updateOk: bool): (t: Tables)
    ensures t.messages == s.messages && t.nextId == s.nextId
    ensures if req < |s.requests| && s.requests[req].status == 0 then
              var r := s.requests[req];
              && t.friends == s.friends + (if firstOk then {(r.fromUid, r.toUid)} else {})
                                        + (if secondOk then {(r.toUid, r.fromUid)} else {})
              && t.requests == if firstOk && secondOk && updateOk then s.requests[req := r.(status := 1)]
                               else s.requests
            else t == s
  {
    var a := |s.accepts|;
    Step(Step(Step(Step(s, FindPending(req)), FirstInsert(a, firstOk)), SecondInsert(a, secondOk)),
         MarkAccepted(a, updateOk))
  }

  /** The statements of SendMsg, without interruption; `now` is the time of the insert. */
  function SendRun(s: Tables, fromUid: Uid, toUid: Uid, content: string, checkOk: bool, insert: Insert, now: int):
    (t: Tables)
    requires s.nextId > 0
    ensures t.friends == s.friends && t.requests == s.requests
    ensures if checkOk && (fromUid, toUid) in s.friends then
              && t.nextId == (if insert.NoId? then s.nextId else s.nextId + 1)
              && t.messages == if insert.Stored? then
                                 Placed(s.messages, Row(s.nextId, fromUid, toUid, content, now, |s.sends|))
                               else s.messages
            else t.nextId == s.nextId && t.messages == s.messages
  {
    var i := |s.sends|;
    var checked := Step(Step(s, BeginSend(fromUid, toUid, content, Direct)), CheckFriends(i, checkOk));
    Step(if insert.NoId? then checked else Step(checked, DrawId(i)), SaveMessage(i, insert.Stored?, now))
  }

  class PooledDbClient {
    var friends: set<(Uid, Uid)>
    var requests: seq<Request>
    var messages: seq<Message>
    var nextId: nat

    ghost predicate Valid()
      reads this
    {
      && nextId > 0 && (forall k :: 0 <= k < |messages| ==> messages[k].id < nextId)
      && (forall j, k :: 0 <= j < k < |messages| ==> messages[j].id < messages[k].id)
    }

    ghost predicate Matches(s: Tables)
      reads this
    {
      && s.nextId == nextId && s.friends == friends && s.requests == requests && |s.messages| == |messages|
      && forall k :: 0 <= k < |messages| ==> SameRow(messages[k], s.messages[k])
    }

    constructor ()
      ensures Valid() && Matches(EMPTY)
    {
      friends, requests, messages, nextId := {}, [], [], 1;
    }

    method CreateFriendRequest(fromUid: Uid, toUid: Uid, ok: bool) returns (created: bool, reqId: nat)
      modifies this`requests
      ensures created == ok
      ensures ok ==> reqId < |requests| && requests[reqId] == Request(fromUid, toUid, 0)
      ensures requests == if ok then old(requests) + [Request(fromUid, toUid, 0)] else old(requests)
      ensures forall s :: old(Matches(s)) && ok ==> Matches(Step(s, CreateRequest(fromUid, toUid)))
    {
      created, reqId := ok, |requests|;
      if ok {
        requests := requests + [Request(fromUid, toUid, 0)];
      }
    }

    /** It reports success once both inserts went through, even when the update of the status fails. */
    method AcceptFriendRequest(reqId: nat, selectOk: bool, firstOk: bool, secondOk: bool, updateOk: bool)
      returns (accepted: bool)
      modifies this`friends, this`requests
      ensures accepted <==>
              selectOk && reqId < |old(requests)| && old(requests)[reqId].status == 0 && firstOk && secondOk
      ensures if selectOk && reqId < |old(requests)| && old(requests)[reqId].status == 0 then
                var r := old(requests)[reqId];
                && friends == old(friends) + (if firstOk then {(r.fromUid, r.toUid)} else {})
                                           + (if secondOk then {(r.toUid, r.fromUid)} else {})
                && requests == if accepted && updateOk then old(requests)[reqId := r.(status := 1)] else old(requests)
              else friends == old(friends) && requests == old(requests)
      ensures forall s :: old(Matches(s)) && selectOk ==> Matches(AcceptRun(s, reqId, firstOk, secondOk, updateOk))
    {
      hide AcceptRun;
      if !selectOk || reqId >= |requests| || requests[reqId].status != 0 {
        return false;
      }
      var fromUid, toUid := requests[reqId].fromUid, requests[reqId].toUid;
      if firstOk {
        friends := friends + {(fromUid, toUid)};
      }
      if secondOk {
        friends := friends + {(toUid, fromUid)};
      }
      if !firstOk || !secondOk {
        return false;
      }
      if updateOk {
        requests := requests[reqId := requests[reqId].(status := 1)];
      }
      return true;
    }

    /** The statement of a reject, which does not look at the status; a failure is not reported. */
    method Reject(reqId: nat, ok: bool)
      modifies this`requests
      ensures |requests| == |old(requests)|
      ensures forall i :: 0 <= i < |requests| ==>
                requests[i] == if i == reqId && ok then old(requests)[i].(status := 2) else old(requests)[i]
      ensures forall s :: old(Matches(s)) ==> Matches(Step(s, MarkRejected(reqId, ok)))
    {
      if ok && reqId < |requests| {
        requests := requests[reqId := requests[reqId].(status := 2)];
      }
    }

    /** A failed query looks like a missing row. */
    method AreFriends(uid1: Uid, uid2: Uid, ok: bool) returns (found: bool)
      ensures found <==> ok && (uid1, uid2) in friends
    {
      found := ok && (uid1, uid2) in friends;
    }

    method SaveMessage(msgId: string, fromUid: Uid, toUid: Uid, content: string, insert: Insert, now: int)
      returns (saved: bool)
      requires Valid()
      modifies this`messages, this`nextId
      ensures Valid() && saved == insert.Stored?
      ensures messages == if saved then old(messages) + [Message(old(nextId), msgId, fromUid, toUid, content, now)]
                          else old(messages)
      ensures nextId == if insert.NoId? then old(nextId) else old(nextId) + 1
    {
      if !insert.NoId? {
        nextId := nextId + 1;
      }
      if insert.Stored? {
        messages := messages + [Message(nextId - 1, msgId, fromUid, toUid, content, now)];
      }
      saved := insert.Stored?;
    }
  }

  /** The handlers of LogicServiceImpl that change the tables. */
  class LogicService {
    const db: PooledDbClient

    constructor (db: PooledDbClient)
      ensures this.db == db
    {
      this.db := db;
    }

    /** Rejecting replies success whatever happened, and does not look at the status. */
    method RespondFriendRequest(
      reqId: nat, accept: bool, selectOk: bool, firstOk: bool, secondOk: bool, updateOk: bool)
      returns (code: ErrorCode)
      modifies db`friends, db`requests
      ensures code == ERR_SUCCESS <==>
              !accept || (&& selectOk && reqId < |old(db.requests)| && old(db.requests)[reqId].status == 0
                          && firstOk && secondOk)
      ensures code == ERR_SUCCESS || code == ERR_SYS_ERROR
      ensures !accept ==> db.friends == old(db.friends)
      ensures !accept ==> |db.requests| == |old(db.requests)| && forall i :: 0 <= i < |db.requests| ==>
                db.requests[i] == if i == reqId && updateOk then old(db.requests)[i].(status := 2)
                                  else old(db.requests)[i]
      ensures forall s :: old(db.Matches(s)) && accept && selectOk ==>
                db.Matches(AcceptRun(s, reqId, firstOk, secondOk, updateOk))
      ensures forall s :: old(db.Matches(s)) && !accept ==> db.Matches(Step(s, MarkRejected(reqId, updateOk)))
    {
      hide AcceptRun, Step;
      if accept {
        var ok := db.AcceptFriendRequest(reqId, selectOk, firstOk, secondOk, updateOk);
        code := if ok then ERR_SUCCESS else ERR_SYS_ERROR;
      } else {
        db.Reject(reqId, updateOk);
        code := ERR_SUCCESS;
      }
    }

    /** A message that was not saved is acknowledged like one that was. `clock`, `now` and `later` are the
        times read for the message id, for the row, and for the reply; `gateway` is what Redis holds for the
        addressee and `body` the serialized message. A push goes out whether or not the message was saved, and
        the reply does not depend on it. */
    method SendMsg(
      fromUid: Uid, toUid: Uid, content: string, checkOk: bool, insert: Insert,
      clock: int, now: int, later: int, gateway: Option<string>, body: seq<Framing.byte>)
      returns (reply: SendReply, push: Option<Push>)
      requires db.Valid()
      modifies db`messages, db`nextId
      ensures db.Valid()
      ensures reply == if checkOk && (fromUid, toUid) in db.friends then SendReply(ERR_SUCCESS, clock, later)
                       else SendReply(ERR_NOT_FRIEND, 0, 0)
      ensures push == if reply.code == ERR_SUCCESS && gateway.Some?
                      then Some(Push(gateway.value, toUid, Framing.Packet(1, 0x1005, 0, body))) else None
      ensures db.messages ==
              if reply.code == ERR_SUCCESS && insert.Stored? then
                old(db.messages) + [Message(old(db.nextId), Text.ToString(clock), fromUid, toUid, content, now)]
              else old(db.messages)
      ensures db.nextId == if reply.code == ERR_SUCCESS && !insert.NoId? then old(db.nextId) + 1 else old(db.nextId)
      ensures forall s :: old(db.Matches(s)) ==>
                db.Matches(SendRun(s, fromUid, toUid, content, checkOk, insert, now))
    {
      hide SendRun, Framing.Packet, Text.ToString;
      push := None;
      var found := db.AreFriends(fromUid, toUid, checkOk);
      if !found {
        return SendReply(ERR_NOT_FRIEND, 0, 0), None;
      }
      var saved := db.SaveMessage(Text.ToString(clock), fromUid, toUid, content, insert, now);
      if gateway.Some? {
        var packet := Framing.PackPushMsg(body);
        push := Some(Push(gateway.value, toUid, packet));
      }
      reply := SendReply(ERR_SUCCESS, clock, later);
    }
  }
}
