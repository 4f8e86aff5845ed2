/** Gateway and logic server together: where stored messages come from and who gets them. The gateway runs one
    handler at a time and waits for its RPC, while the statements of other requests run in between. */
module Chat {
  import opened Types
  import opened Store
  import Sync
  import G = Gateway

  datatype State = State(gateway: G.Sessions, tables: Tables, now: nat)

  datatype Event =
    | Connect(w: Socket)
    | Disconnect(w: Socket)
    | Login(w: Socket, uid: Uid, token: string, queryOk: bool)
    | SendMsg(w: Socket, toUid: Uid, content: string)       // a MsgSendReq arrives
    | Sync(w: Socket, last: int, ok: bool)                  // a SyncMsgReq; `ok`: its query succeeds
    | Statement(e: Store.Event)                             // one statement of some handler

  /** LogicService.Login: the token must be the user's stored, nonempty password. */
  predicate Accepts(t: Tables, uid: Uid, token: string, queryOk: bool)
  {
    queryOk && uid in t.users && t.users[uid] != "" && t.users[uid] == token
  }

  predicate Enabled(s: State, e: Event)
  {
    match e
    case Connect(w) => G.Enabled(s.gateway, G.Connect(w))
    case Disconnect(w) => w in s.gateway.uids
    case Login(w, _, _, _) => w in s.gateway.uids
    case SendMsg(w, _, _) => w in s.gateway.uids
    case Sync(w, _, _) => w in s.gateway.uids
    // A send that does not come through this gateway has no socket.
    case Statement(stmt) => stmt.BeginSend? ==> stmt.via.Direct?
  }

  function Apply(s: State, e: Event): State
    requires Enabled(s, e)
  {
    var later := s.(now := s.now + 1);
    match e
    case Connect(w) => later.(gateway := G.Apply(s.gateway, G.Connect(w)))
    case Disconnect(w) => later.(gateway := G.Apply(s.gateway, G.Close(w)))
    case Login(w, uid, token, queryOk) =>
      later.(gateway := G.Apply(s.gateway, G.Login(w, uid, Accepts(s.tables, uid, token, queryOk))))
    case SendMsg(w, toUid, content) =>
      // The sender is the socket's uid, whatever the request says; without one the message is dropped.
      var uid := s.gateway.uids[w];
      if uid == 0 then later
      else later.(tables := Step(s.tables, BeginSend(uid, toUid, content, Through(w, s.now))))
    case Sync(_, _, _) => later
    case Statement(stmt) => later.(tables := Step(s.tables, stmt))
  }

  /** The messages that answer a sync: the uid asked for is the socket's, 0 before a login. */
  function SyncReply(s: State, e: Event): seq<Sync.ChatMsg>
    requires e.Sync? && e.w in s.gateway.uids
  {
    if e.ok then Sync.Messages(Sync.Page(s.tables.messages, s.gateway.uids[e.w], e.last)) else []
  }

  const START := State(G.EMPTY, EMPTY, 0)

  /** The state after `es`; an event that is not possible is skipped, but counted. */
  function After(es: seq<Event>): State
  {
    if es == [] then START
    else
      var s, e := After(es[..|es| - 1]), es[|es| - 1];
      if Enabled(s, e) then Apply(s, e) else s.(now := s.now + 1)
  }

  // Histories.

  /** `e` is a statement that makes user `u`. */
  predicate Makes(e: Event, u: Uid) { e.Statement? && e.e.CreateUser? && e.e.uid == u }

  /** User `u` was made with password `p`, which is the password of the first statement that makes `u`. */
  ghost predicate PasswordOf(es: seq<Event>, u: Uid, p: string)
  {
    exists i: nat :: i < |es| && Makes(es[i], u) && es[i].e.password == p && forall k: nat :: k < i ==> !Makes(es[k], u)
  }

  /** Event `j` is a successful login of `w` as `u`: the socket is open, the query of the password works, and
      the token is the password that the user was made with, which is not empty. */
  ghost predicate LoggedIn(es: seq<Event>, j: nat, w: Socket, u: Uid)
  {
    && j < |es| && es[j].Login? && es[j].w == w && es[j].uid == u && es[j].queryOk
    && w in After(es[..j]).gateway.uids
    && es[j].token != "" && PasswordOf(es[..j], u, es[j].token)
  }

  lemma {:induction false} UsersAreHistory(es: seq<Event>, u: Uid)
    ensures var users := After(es).tables.users;
            && (u in users <==> exists k: nat :: k < |es| && Makes(es[k], u))
            && forall p :: (u in users && users[u] == p) <==> PasswordOf(es, u, p)
  {
    if es != [] {
      var n := |es| - 1;
      var before, e := es[..n], es[n];
      UsersAreHistory(before, u);
      StepUsers(before, e, u);
      assert es == before + [e];
      hide After;
      forall p ensures PasswordOf(es, u, p) <==>
        PasswordOf(before, u, p)
        || (Makes(e, u) && e.e.password == p && forall k: nat :: k < n ==> !Makes(before[k], u))
      {
        PasswordAfter(before, e, u, p);
      }
      assert (exists k: nat :: k < |es| && Makes(es[k], u)) <==>
             Makes(es[n], u) || exists k: nat :: k < n && Makes(before[k], u);
    }
  }

  lemma StepUsers(before: seq<Event>, e: Event, u: Uid)
    ensures var users, users' := After(before).tables.users, After(before + [e]).tables.users;
            if Makes(e, u) && u !in users then u in users' && users'[u] == e.e.password
            else (u in users' <==> u in users) && (u in users ==> users'[u] == users[u])
  {
    assert (before + [e])[..|before|] == before;
  }

  lemma PasswordAfter(before: seq<Event>, e: Event, u: Uid, p: string)
    ensures PasswordOf(before + [e], u, p) <==>
            PasswordOf(before, u, p)
            || (Makes(e, u) && e.e.password == p && forall k: nat :: k < |before| ==> !Makes(before[k], u))
  {
    var es, n := before + [e], |before|;
    assert forall k: nat :: k < n ==> es[k] == before[k];
    if PasswordOf(before, u, p) {
      var i: nat :| i < n && Makes(before[i], u) && before[i].e.password == p
                    && forall k: nat :: k < i ==> !Makes(before[k], u);
      assert Makes(es[i], u);
    }
    if Makes(e, u) && e.e.password == p && forall k: nat :: k < n ==> !Makes(before[k], u) {
      assert Makes(es[n], u);
    }
    if PasswordOf(es, u, p) {
      var i: nat :| i < |es| && Makes(es[i], u) && es[i].e.password == p
                    && forall k: nat :: k < i ==> !Makes(es[k], u);
      assert i < n ==> Makes(before[i], u);
    }
  }

  /** A login is taken exactly when it is successful in that sense; then it sets the socket's uid and the
      session, and otherwise it changes nothing. */
  lemma LoginTakenIff(es: seq<Event>, j: nat)
    requires j < |es| && es[j].Login?
    ensures var s, t, e := After(es[..j]), After(es[..j + 1]), es[j];
            && t.tables == s.tables
            && t.gateway == if LoggedIn(es, j, e.w, e.uid) then
                              s.gateway.(sessions := s.gateway.sessions[e.uid := e.w],
                                         uids := s.gateway.uids[e.w := e.uid])
                            else s.gateway
  {
    assert es[..j + 1][..j] == es[..j];
    UsersAreHistory(es[..j], es[j].uid);
  }

  /** `w` has connected, and has not disconnected since. */
  ghost predicate Connected(es: seq<Event>, w: Socket)
  {
    exists i: nat :: FirstConnect(es, w, i) && forall j :: i < j < |es| ==> es[j] != Disconnect(w)
  }

  ghost predicate FirstConnect(es: seq<Event>, w: Socket, i: nat)
  {
    i < |es| && es[i] == Connect(w) && forall k :: 0 <= k < i ==> es[k] != Connect(w)
  }

  lemma {:induction false} OpenIsHistory(es: seq<Event>, w: Socket)
    ensures var g := After(es).gateway;
            && (w in g.uids <==> Connected(es, w))
            && (w in g.uids || w in g.closed <==> Connect(w) in es)
  {
    if es != [] {
      var n := |es| - 1;
      var before, e := es[..n], es[n];
      assert es == before + [e];
      OpenIsHistory(before, w);
      ConnectedAfter(before, e, w);
    }
  }

  lemma ConnectedAfter(before: seq<Event>, e: Event, w: Socket)
    ensures Connected(before + [e], w) <==>
            if e == Connect(w) then Connected(before, w) || Connect(w) !in before
            else Connected(before, w) && e != Disconnect(w)
  {
    var es, n := before + [e], |before|;
    forall i: nat | i < n ensures FirstConnect(es, w, i) <==> FirstConnect(before, w, i) {
      assert forall k :: 0 <= k <= i ==> es[k] == before[k];
    }
    assert forall j :: 0 <= j < n ==> es[j] == before[j];
    if Connected(es, w) {
      var i: nat :| FirstConnect(es, w, i) && forall j :: i < j < |es| ==> es[j] != Disconnect(w);
      if i < n {
        assert FirstConnect(before, w, i);
        assert e != Disconnect(w) by {
          assert es[n] == e;
        }
      } else {
        assert forall k :: 0 <= k < n ==> before[k] != Connect(w);
      }
    }
    if Connected(before, w) && e != Disconnect(w) {
      var i: nat :| FirstConnect(before, w, i) && forall j :: i < j < n ==> before[j] != Disconnect(w);
      assert FirstConnect(es, w, i);
    }
    if e == Connect(w) && Connect(w) !in before {
      assert FirstConnect(es, w, n);
    }
  }

  /** A message that arrives on an open, logged-in socket begins a send as the socket's user; any other message
      is dropped. A sync changes nothing. */
  lemma SendBegins(es: seq<Event>, j: nat)
    requires j < |es| && (es[j].SendMsg? || es[j].Sync?)
    ensures var s, t, e := After(es[..j]), After(es[..j + 1]), es[j];
            && t.gateway == s.gateway
            && t.tables == if e.SendMsg? && e.w in s.gateway.uids && s.gateway.uids[e.w] != 0 then
                             var m := Send(s.gateway.uids[e.w], e.toUid, e.content, Through(e.w, j), NotRun, 0, NotRun);
                             s.tables.(sends := s.tables.sends + [m])
                           else s.tables
  {
    assert es[..j + 1][..j] == es[..j];
    Clock(es[..j]);
  }

  /** Every statement of every handler runs whenever its handler is at it, and changes nothing at the gateway. */
  lemma StatementRuns(es: seq<Event>, j: nat)
    requires j < |es| && es[j].Statement? && (es[j].e.BeginSend? ==> es[j].e.via.Direct?)
    ensures After(es[..j + 1]).gateway == After(es[..j]).gateway
    ensures After(es[..j + 1]).tables == Step(After(es[..j]).tables, es[j].e)
  {
    assert es[..j + 1][..j] == es[..j];
  }

  /** A joint run is a run of the store and a history of the gateway, so all that is proved of those holds. */
  lemma {:induction false} JointRun(es: seq<Event>) returns (ss: seq<Store.Event>, gs: seq<G.Event>)
    ensures After(es).tables == Store.After(ss)
    ensures G.Possible(gs) && After(es).gateway == G.After(gs)
  {
    hide Enabled, Apply, Store.After, G.After, G.Possible;
    if es == [] {
      ss, gs := NothingYet();
    } else {
      var before, e := es[..|es| - 1], es[|es| - 1];
      ss, gs := JointRun(before);
      ss := StoreStep(After(before), e, ss);
      gs := GatewayStep(After(before), e, gs);
    }
  }

  lemma NothingYet() returns (ss: seq<Store.Event>, gs: seq<G.Event>)
    ensures Store.After(ss) == START.tables && G.Possible(gs) && G.After(gs) == START.gateway
  {
    ss, gs := [], [];
  }

  lemma StoreStep(s: State, e: Event, ss: seq<Store.Event>) returns (ss': seq<Store.Event>)
    requires s.tables == Store.After(ss)
    ensures Store.After(ss') == if Enabled(s, e) then Apply(s, e).tables else s.tables
  {
    hide Step, Store.After;
    ss' := ss;
    if e.Statement? && Enabled(s, e) {
      ss' := ss + [e.e];
      Store.AfterThen(ss, e.e);
    } else if e.SendMsg? && Enabled(s, e) && s.gateway.uids[e.w] != 0 {
      var begin := BeginSend(s.gateway.uids[e.w], e.toUid, e.content, Through(e.w, s.now));
      ss' := ss + [begin];
      Store.AfterThen(ss, begin);
    }
  }

  lemma GatewayStep(s: State, e: Event, gs: seq<G.Event>) returns (gs': seq<G.Event>)
    requires G.Possible(gs) && s.gateway == G.After(gs)
    ensures G.Possible(gs') && G.After(gs') == if Enabled(s, e) then Apply(s, e).gateway else s.gateway
  {
    hide G.After, G.Possible;
    gs' := gs;
    if Enabled(s, e) && (e.Connect? || e.Disconnect? || e.Login?) {
      var g := if e.Connect? then G.Connect(e.w)
               else if e.Disconnect? then G.Close(e.w)
               else G.Login(e.w, e.uid, Accepts(s.tables, e.uid, e.token, e.queryOk));
      G.Play(gs, g);
      gs' := gs + [g];
    }
  }

  /** Among the first `n` events, the latest successful login of `w` is event `j`, as `u`. */
  ghost predicate LatestLogin(es: seq<Event>, n: nat, w: Socket, u: Uid, j: nat)
  {
    j < n && LoggedIn(es, j, w, u) && forall k: nat, v :: j < k < n ==> !LoggedIn(es, k, w, v)
  }

  lemma LoggedInBefore(es: seq<Event>, n: nat, j: nat, w: Socket, u: Uid)
    requires j < n <= |es|
    ensures LoggedIn(es[..n], j, w, u) <==> LoggedIn(es, j, w, u)
  {
    assert es[..n][..j] == es[..j];
  }

  lemma LatestLoginBefore(es: seq<Event>, n: nat, m: nat, w: Socket, u: Uid, j: nat)
    requires m <= n <= |es| && LatestLogin(es[..n], m, w, u, j)
    ensures LatestLogin(es, m, w, u, j)
  {
    hide After;
    forall k: nat, v | k < m ensures LoggedIn(es[..n], k, w, v) <==> LoggedIn(es, k, w, v) {
      LoggedInBefore(es, n, k, w, v);
    }
  }

  lemma {:induction false} Clock(es: seq<Event>)
    ensures After(es).now == |es|
  {
    if es != [] {
      Clock(es[..|es| - 1]);
    }
  }

  lemma {:induction false} LoggedInIsKnown(es: seq<Event>, j: nat, w: Socket, u: Uid)
    requires LoggedIn(es, j, w, u)
    ensures w in After(es).gateway.uids || w in After(es).gateway.closed
  {
    var n := |es| - 1;
    if j < n {
      LoggedInBefore(es, n, j, w, u);
      LoggedInIsKnown(es[..n], j, w, u);
    }
  }

  /** Among the first `n` events, `u` is the user of the latest successful login of `w`, or 0 without one. */
  ghost predicate OwnUid(es: seq<Event>, n: nat, w: Socket, u: Uid)
  {
    || (exists j: nat :: LatestLogin(es, n, w, u, j))
    || (u == 0 && forall j: nat, v :: j < n ==> !LoggedIn(es, j, w, v))
  }

  lemma OwnUidLater(es: seq<Event>, n: nat, w: Socket, u: Uid)
    requires n < |es| && OwnUid(es[..n], n, w, u) && forall v :: !LoggedIn(es, n, w, v)
    ensures OwnUid(es, n, w, u) && OwnUid(es, n + 1, w, u)
  {
    hide After;
    forall j: nat, v | j < n ensures LoggedIn(es[..n], j, w, v) <==> LoggedIn(es, j, w, v) {
      LoggedInBefore(es, n, j, w, v);
    }
    if j: nat :| LatestLogin(es[..n], n, w, u, j) {
      assert LatestLogin(es, n, w, u, j) && LatestLogin(es, n + 1, w, u, j);
    }
  }

  lemma OwnUidBefore(es: seq<Event>, n: nat, m: nat, w: Socket, u: Uid)
    requires m <= n <= |es|
    ensures OwnUid(es[..n], m, w, u) <==> OwnUid(es, m, w, u)
  {
    hide After;
    forall j: nat, v | j < m ensures LoggedIn(es[..n], j, w, v) <==> LoggedIn(es, j, w, v) {
      LoggedInBefore(es, n, j, w, v);
    }
    if j: nat :| LatestLogin(es[..n], m, w, u, j) {
      assert LatestLogin(es, m, w, u, j);
    }
    if j: nat :| LatestLogin(es, m, w, u, j) {
      assert LatestLogin(es[..n], m, w, u, j);
    }
  }

  /** The uid kept with an open socket is that of its latest successful login, 0 without one. */
  lemma {:induction false} UidIsHistory(es: seq<Event>, w: Socket)
    requires w in After(es).gateway.uids
    ensures OwnUid(es, |es|, w, After(es).gateway.uids[w])
  {
    var n := |es| - 1;
    var before, e, u := es[..n], es[n], After(es).gateway.uids[w];
    assert es[..n + 1] == es;
    if e.Login? {
      LoginTakenIff(es, n);
    }
    if e.Login? && e.w == w && LoggedIn(es, n, w, e.uid) {
      assert LatestLogin(es, |es|, w, u, n);
    } else {
      forall v ensures !LoggedIn(es, n, w, v) {
      }
      if w in After(before).gateway.uids {
        UidIsHistory(before, w);
      } else {
        forall j: nat, v | j < n ensures !LoggedIn(before, j, w, v) {
          if LoggedIn(before, j, w, v) {
            LoggedInIsKnown(before, j, w, v);
          }
        }
      }
      OwnUidLater(es, n, w, u);
    }
  }

  /** The nonzero uid kept with an open socket is that of its latest successful login. */
  lemma UidIsLatestLogin(es: seq<Event>, w: Socket)
    requires w in After(es).gateway.uids && After(es).gateway.uids[w] != 0
    ensures exists j: nat :: LatestLogin(es, |es|, w, After(es).gateway.uids[w], j)
  {
    UidIsHistory(es, w);
  }

  /** The event behind a send, and the login behind its sender when it came through the gateway. */
  ghost predicate Traced(es: seq<Event>, m: Send)
  {
    if m.via.Direct? then
      exists j: nat :: j < |es| && es[j] == Statement(BeginSend(m.fromUid, m.toUid, m.content, Direct))
    else
      && m.via.at < |es| && es[m.via.at] == SendMsg(m.via.w, m.toUid, m.content)
      && m.fromUid != 0
      && exists j: nat :: LatestLogin(es, m.via.at, m.via.w, m.fromUid, j)
  }

  /** What does not change about a send once it has begun. */
  predicate SameSend(m: Send, m': Send)
  {
    m'.via == m.via && m'.fromUid == m.fromUid && m'.toUid == m.toUid && m'.content == m.content
  }

  lemma StatementKeepsSends(t: Tables, e: Store.Event, i: nat)
    requires i < |Step(t, e).sends|
    ensures i < |t.sends| ==> SameSend(t.sends[i], Step(t, e).sends[i])
    ensures i >= |t.sends| ==>
              e.BeginSend? && Step(t, e).sends[i] == Send(e.fromUid, e.toUid, e.content, e.via, NotRun, 0, NotRun)
  {
  }

  lemma TracedLater(es: seq<Event>, n: nat, m: Send, m': Send)
    requires n <= |es| && Traced(es[..n], m) && SameSend(m, m')
    ensures Traced(es, m')
  {
    if m.via.Through? {
      var j: nat :| LatestLogin(es[..n], m.via.at, m.via.w, m.fromUid, j);
      LatestLoginBefore(es, n, m.via.at, m.via.w, m.fromUid, j);
    } else {
      var j: nat :| j < n && es[..n][j] == Statement(BeginSend(m.fromUid, m.toUid, m.content, Direct));
      assert es[j] == es[..n][j];
    }
  }

  lemma {:induction false} SendsAreTraced(es: seq<Event>, i: nat)
    requires i < |After(es).tables.sends|
    ensures Traced(es, After(es).tables.sends[i])
  {
    var n := |es| - 1;
    var before, e := es[..n], es[n];
    var t, t' := After(before).tables, After(es).tables;
    if i < |t.sends| {
      SendsAreTraced(before, i);
      if e.Statement? {
        StatementKeepsSends(t, e.e, i);
      }
      TracedLater(es, n, t.sends[i], t'.sends[i]);
    } else if e.SendMsg? {
      Clock(before);
      UidIsLatestLogin(before, e.w);
      var u := After(before).gateway.uids[e.w];
      var j: nat :| LatestLogin(before, n, e.w, u, j);
      LatestLoginBefore(es, n, n, e.w, u, j);
    } else {
      StatementKeepsSends(t, e.e, i);
      assert es[n] == Statement(BeginSend(t'.sends[i].fromUid, t'.sends[i].toUid, t'.sends[i].content, Direct));
    }
  }

  lemma {:induction false} TablesAreSound(es: seq<Event>)
    ensures Sound(After(es).tables)
  {
    if es != [] {
      var before, e := es[..|es| - 1], es[|es| - 1];
      var s := After(before);
      TablesAreSound(before);
      if e.Statement? {
        StepSound(s.tables, e.e);
      } else if e.SendMsg? && e.w in s.gateway.uids {
        StepSound(s.tables, BeginSend(s.gateway.uids[e.w], e.toUid, e.content, Through(e.w, s.now)));
      }
    }
  }

  lemma {:induction false} TablesGrow(es: seq<Event>, n: nat)
    requires n <= |es|
    ensures Grows(After(es[..n]).tables, After(es).tables)
  {
    if n < |es| {
      var before, e := es[..|es| - 1], es[|es| - 1];
      var s := After(before);
      assert before[..n] == es[..n];
      TablesGrow(before, n);
      if e.Statement? {
        StepGrows(s.tables, e.e);
      } else if e.SendMsg? && e.w in s.gateway.uids {
        StepGrows(s.tables, BeginSend(s.gateway.uids[e.w], e.toUid, e.content, Through(e.w, s.now)));
      }
    } else {
      assert es[..n] == es;
    }
  }

  /** In every run, for every stored message: sender and addressee are friends from then on, although the
      check and the insert are separate statements; and when the message came through the gateway, its
      sender is the user of the latest successful login on the socket it came in on, whose token was the
      stored password. */
  lemma StoredMessageProvenance(es: seq<Event>, n: nat, k: nat)
    requires n <= |es| && k < |After(es[..n]).tables.messages|
    ensures var row := After(es[..n]).tables.messages[k];
            && (row.fromUid, row.toUid) in After(es).tables.friends
            && row.send < |After(es[..n]).tables.sends|
            && var via := After(es[..n]).tables.sends[row.send].via;
               via.Through? ==>
                 && via.at < n && es[via.at] == SendMsg(via.w, row.toUid, row.content) && row.fromUid != 0
                 && exists j: nat :: LatestLogin(es, via.at, via.w, row.fromUid, j)
                                     && es[j].token != "" && PasswordOf(es[..j], row.fromUid, es[j].token)
  {
    var past := es[..n];
    var t := After(past).tables;
    var row := t.messages[k];
    TablesAreSound(past);
    assert RowSound(t, row);
    assert SendSound(t, row.send);
    TablesGrow(es, n);
    SendsAreTraced(past, row.send);
    var via := t.sends[row.send].via;
    if via.Through? {
      var j: nat :| LatestLogin(past, via.at, via.w, row.fromUid, j);
      LatestLoginBefore(es, n, via.at, via.w, row.fromUid, j);
    }
  }

  // What a sync returns.

  /** Event `j` stores the row of send `i`, at the time `now`. */
  predicate SavesAt(es: seq<Event>, j: nat, i: nat, now: int)
  {
    j < |es| && es[j] == Statement(SaveMessage(i, true, now))
  }

  lemma {:induction false} RowIsSaved(es: seq<Event>, row: Row) returns (j: nat)
    requires row in After(es).tables.messages
    ensures SavesAt(es, j, row.send, row.createTime)
  {
    var before, e := es[..|es| - 1], es[|es| - 1];
    if row in After(before).tables.messages {
      j := RowIsSaved(before, row);
    } else {
      j := |before|;
    }
  }

  /** Event `j` sends `content` from `u` to `v`: through the gateway, where `u` is the user of the latest
      successful login on the socket, or another way. */
  ghost predicate SendsAt(es: seq<Event>, j: nat, u: Uid, v: Uid, content: string)
  {
    && j < |es|
    && (|| es[j] == Statement(BeginSend(u, v, content, Direct))
        || (es[j].SendMsg? && es[j].toUid == v && es[j].content == content && u != 0 && OwnUid(es, j, es[j].w, u)))
  }

  lemma TracedIsSent(es: seq<Event>, m: Send)
    requires Traced(es, m)
    ensures exists j: nat :: SendsAt(es, j, m.fromUid, m.toUid, m.content)
  {
    hide After;
    if m.via.Through? {
      assert OwnUid(es, m.via.at, m.via.w, m.fromUid);
      assert SendsAt(es, m.via.at, m.fromUid, m.toUid, m.content);
    } else {
      var j: nat :| j < |es| && es[j] == Statement(BeginSend(m.fromUid, m.toUid, m.content, Direct));
      assert SendsAt(es, j, m.fromUid, m.toUid, m.content);
    }
  }

  lemma SendsBefore(es: seq<Event>, n: nat, j: nat, u: Uid, v: Uid, content: string)
    requires n <= |es| && SendsAt(es[..n], j, u, v, content)
    ensures j < n && SendsAt(es, j, u, v, content)
  {
    if es[j].SendMsg? {
      OwnUidBefore(es, n, j, es[j].w, u);
    }
  }

  lemma RowIsSent(es: seq<Event>, row: Row) returns (j: nat, i: nat)
    requires row in After(es).tables.messages
    ensures (row.fromUid, row.toUid) in After(es).tables.friends
    ensures SendsAt(es, j, row.fromUid, row.toUid, row.content)
    ensures i < |es| && es[i].Statement? && es[i].e.SaveMessage? && es[i].e.ok && es[i].e.now == row.createTime
  {
    var t := After(es).tables;
    TablesAreSound(es);
    assert RowSound(t, row) && SendSound(t, row.send);
    SendsAreTraced(es, row.send);
    TracedIsSent(es, t.sends[row.send]);
    hide After, Sound;
    j :| SendsAt(es, j, row.fromUid, row.toUid, row.content);
    i := RowIsSaved(es, row);
  }

  /** In every run, for every message a sync through the gateway returns: its addressee is the user of the
      latest successful login on the socket that asked, or user 0 when there was none, whatever the request
      says; its sender sent it to the addressee with that content, the two are friends, and its time is that
      of a statement that stored a message. */
  lemma SyncedMessageProvenance(es: seq<Event>, n: nat, k: nat) returns (j: nat, i: nat)
    requires n < |es| && es[n].Sync? && es[n].w in After(es[..n]).gateway.uids
    requires k < |SyncReply(After(es[..n]), es[n])|
    ensures var m := SyncReply(After(es[..n]), es[n])[k];
            && OwnUid(es, n, es[n].w, m.toUid)
            && (m.fromUid, m.toUid) in After(es).tables.friends
            && j < n && SendsAt(es, j, m.fromUid, m.toUid, m.content)
            && i < n && es[i].Statement? && es[i].e.SaveMessage? && es[i].e.ok && es[i].e.now == m.createTime
  {
    var past, w := es[..n], es[n].w;
    var s := After(past);
    var u := s.gateway.uids[w];
    var rows := Sync.Page(s.tables.messages, u, es[n].last);
    UidIsHistory(past, w);
    OwnUidBefore(es, n, n, w, u);
    TablesAreSound(past);
    TablesGrow(es, n);
    hide After, OwnUid, SendsAt, Sync.Page, Sync.Messages;
    Sync.PageRows(s.tables.messages, u, es[n].last);
    assert rows[k] in rows;
    j, i := RowIsSent(past, rows[k]);
    SendsBefore(es, n, j, rows[k].fromUid, rows[k].toUid, rows[k].content);
  }

  /** The messages of a reply are those of the first hundred rows for that user above the id asked for, in id
      order: `rows` are such rows, every other one has a larger id, and there is another one only when they
      are a hundred. */
  lemma SyncIsOwn(es: seq<Event>, n: nat) returns (rows: seq<Row>)
    requires n < |es| && es[n].Sync? && es[n].ok && es[n].w in After(es[..n]).gateway.uids
    ensures var s, e := After(es[..n]), es[n];
            var u, msgs := s.gateway.uids[e.w], SyncReply(s, e);
            && OwnUid(es, n, e.w, u)
            && |msgs| == |rows| <= 100 && IncreasingIds(rows)
            && (forall k :: 0 <= k < |rows| ==>
                  && rows[k] in s.tables.messages && rows[k].toUid == u && rows[k].id > e.last
                  && msgs[k].fromUid == rows[k].fromUid && msgs[k].toUid == rows[k].toUid
                  && msgs[k].content == rows[k].content && msgs[k].createTime == rows[k].createTime)
            && (forall row :: row in s.tables.messages && row.toUid == u && row.id > e.last && row !in rows ==>
                  |rows| == 100 && row.id > rows[99].id)
  {
    var past, w := es[..n], es[n].w;
    var s := After(past);
    var u := s.gateway.uids[w];
    UidIsHistory(past, w);
    OwnUidBefore(es, n, n, w, u);
    TablesAreSound(past);
    rows := Sync.Page(s.tables.messages, u, es[n].last);
    hide After, OwnUid, Sync.Page, Sync.Messages;
    Sync.PageRows(s.tables.messages, u, es[n].last);
    assert forall k :: 0 <= k < |rows| ==> rows[k] in rows;
  }
}
