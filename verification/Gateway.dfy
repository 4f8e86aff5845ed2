/** The gateway's sessions: the map from user to socket, next to the uid kept with each socket. The event
    loop runs its handlers one at a time, so a history is a sequence of connects, logins and closes. */
module Gateway {

  import opened Types

  /** Sessions by user, the uid field of every open socket (0 until it logs in), and the closed sockets. */
  datatype Sessions = Sessions(sessions: map<Uid, Socket>, uids: map<Socket, Uid>, closed: set<Socket>)

  datatype Event =
    | Connect(w: Socket)
    | Login(w: Socket, uid: Uid, accepted: bool)
    | Close(w: Socket)

  /** A connection is a new socket, and only an open socket sends or closes. */
  predicate Enabled(s: Sessions, e: Event)
  {
    match e
    case Connect(w) => w !in s.uids && w !in s.closed
    case Login(w, _, _) => w in s.uids
    case Close(w) => w in s.uids
  }

  function Apply(s: Sessions, e: Event): Sessions
  {
    match e
    case Connect(w) => s.(uids := s.uids[w := 0])
    case Login(w, uid, accepted) =>
      if accepted then s.(sessions := s.sessions[uid := w], uids := s.uids[w := uid]) else s
    case Close(w) =>
      if w in s.uids then Sessions(s.sessions - {s.uids[w]}, s.uids - {w}, s.closed + {w}) else s
  }

  const EMPTY := Sessions(map[], map[], {})

  function After(es: seq<Event>): Sessions
  {
    if es == [] then EMPTY else Apply(After(es[..|es| - 1]), es[|es| - 1])
  }

  ghost predicate Possible(es: seq<Event>)
  {
    es != [] ==> Possible(es[..|es| - 1]) && Enabled(After(es[..|es| - 1]), es[|es| - 1])
  }

  // The object.

  class SessionManager {
    var sessions: map<Uid, Socket>
    /** The PerSocketData of every open socket. */
    var uids: map<Socket, Uid>
    ghost var closed: set<Socket>

    ghost function View(): Sessions
      reads this
    {
      Sessions(sessions, uids, closed)
    }

    constructor ()
      ensures View() == EMPTY
    {
      sessions, uids, closed := map[], map[], {};
    }

    method AddSession(uid: Uid, w: Socket)
      modifies this`sessions
      ensures sessions == old(sessions)[uid := w]
    {
      sessions := sessions[uid := w];
    }

    method RemoveSession(uid: Uid)
      modifies this`sessions
      ensures sessions == old(sessions) - {uid}
    {
      if uid in sessions {
        sessions := sessions - {uid};
      }
    }

    /** The socket that `data` is sent on, if any. */
    method PushToUser(uid: Uid) returns (sent: bool, to: Socket)
      ensures sent <==> uid in sessions
      ensures sent ==> to == sessions[uid]
    {
      sent, to := false, 0;
      if uid in sessions {
        sent, to := true, sessions[uid];
      }
    }

    method OnOpen(w: Socket)
      requires Enabled(View(), Connect(w))
      modifies this
      ensures View() == Apply(old(View()), Connect(w))
    {
      uids := uids[w := 0];
    }

    method OnLogin(w: Socket, uid: Uid, accepted: bool)
      requires Enabled(View(), Login(w, uid, accepted))
      modifies this
      ensures View() == Apply(old(View()), Login(w, uid, accepted))
    {
      if accepted {
        uids := uids[w := uid];
        AddSession(uid, w);
      }
    }

    method OnClose(w: Socket)
      requires Enabled(View(), Close(w))
      modifies this
      ensures View() == Apply(old(View()), Close(w))
    {
      RemoveSession(uids[w]);
      uids := uids - {w};
      closed := closed + {w};
    }
  }

  // The map in terms of the history.

  predicate LogsIn(e: Event, w: Socket) { e.Login? && e.accepted && e.w == w }

  /** In `es`, the latest login of `w` was at `i`, as `u`. */
  ghost predicate LatestLogin(es: seq<Event>, w: Socket, u: Uid, i: nat)
  {
    i < |es| && es[i] == Login(w, u, true) && forall j :: i < j < |es| ==> !LogsIn(es[j], w)
  }

  /** The uid field of `w` after `es`. */
  ghost predicate OwnUid(es: seq<Event>, w: Socket, u: Uid)
  {
    (exists i: nat :: LatestLogin(es, w, u, i)) || (u == 0 && forall j :: 0 <= j < |es| ==> !LogsIn(es[j], w))
  }

  /** Event `j` is a login as `u`, or the close of a socket whose own uid is then `u`. */
  ghost predicate Touches(es: seq<Event>, j: nat, u: Uid)
    requires j < |es|
  {
    match es[j]
    case Connect(_) => false
    case Login(_, uid, accepted) => accepted && uid == u
    case Close(w) => OwnUid(es[..j], w, u)
  }

  /** The last event that touches `u` is the login of `w`. */
  ghost predicate LastTouchIsLogin(es: seq<Event>, u: Uid, w: Socket)
  {
    exists i: nat :: i < |es| && es[i] == Login(w, u, true) && forall j :: i < j < |es| ==> !Touches(es, j, u)
  }

  lemma OwnUidAfter(before: seq<Event>, e: Event, w: Socket, u: Uid)
    ensures OwnUid(before + [e], w, u) <==> if LogsIn(e, w) then u == e.uid else OwnUid(before, w, u)
  {
    var es, n := before + [e], |before|;
    if LogsIn(e, w) {
      assert LatestLogin(es, w, e.uid, n);
      assert es[n] == e;
    } else {
      forall i: nat ensures LatestLogin(es, w, u, i) <==> LatestLogin(before, w, u, i) {
        if i == n {
          assert es[i] == e;
        } else if i < n {
          assert es[i] == before[i] && es[n] == e;
          assert forall j :: i < j < n ==> es[j] == before[j];
        }
      }
      assert forall j :: 0 <= j < n ==> es[j] == before[j];
    }
  }

  lemma {:induction false} LoggedInSocketsAreKnown(es: seq<Event>, w: Socket, j: nat)
    requires Possible(es) && j < |es| && LogsIn(es[j], w)
    ensures w in After(es).uids || w in After(es).closed
  {
    if j < |es| - 1 {
      LoggedInSocketsAreKnown(es[..|es| - 1], w, j);
    }
  }

  lemma {:induction false} FieldIsHistory(es: seq<Event>, w: Socket, u: Uid)
    requires Possible(es) && w in After(es).uids
    ensures After(es).uids[w] == u <==> OwnUid(es, w, u)
  {
    var before, e := es[..|es| - 1], es[|es| - 1];
    assert es == before + [e];
    OwnUidAfter(before, e, w, u);
    if w in After(before).uids {
      FieldIsHistory(before, w, u);
    } else {
      forall j | 0 <= j < |before| ensures !LogsIn(before[j], w) {
        if LogsIn(before[j], w) {
          LoggedInSocketsAreKnown(before, w, j);
        }
      }
    }
  }

  lemma LastTouchAfter(before: seq<Event>, e: Event, u: Uid, w: Socket)
    ensures LastTouchIsLogin(before + [e], u, w) <==>
            e == Login(w, u, true) || (LastTouchIsLogin(before, u, w) && !Touches(before + [e], |before|, u))
  {
    var es, n := before + [e], |before|;
    forall j | 0 <= j < n ensures es[j] == before[j] && (Touches(es, j, u) <==> Touches(before, j, u)) {
      assert es[..j] == before[..j];
    }
    assert es[n] == e;
    if LastTouchIsLogin(before, u, w) && !Touches(es, n, u) {
      var i: nat :| i < n && before[i] == Login(w, u, true) && forall j :: i < j < n ==> !Touches(before, j, u);
      assert es[i] == Login(w, u, true);
    }
    if LastTouchIsLogin(es, u, w) {
      var i: nat :| i < |es| && es[i] == Login(w, u, true) && forall j :: i < j < |es| ==> !Touches(es, j, u);
      if i < n {
        assert before[i] == Login(w, u, true);
        assert forall j :: i < j < n ==> !Touches(before, j, u);
      }
    }
  }

  /** After every history the map holds `w` for `u` exactly when the last event that touches `u` is a
      successful login of `w` as `u`. */
  lemma {:induction false} SessionsAreHistory(es: seq<Event>, u: Uid, w: Socket)
    requires Possible(es)
    ensures (u in After(es).sessions && After(es).sessions[u] == w) <==> LastTouchIsLogin(es, u, w)
  {
    if es != [] {
      var before, e := es[..|es| - 1], es[|es| - 1];
      assert es == before + [e];
      SessionsAreHistory(before, u, w);
      LastTouchAfter(before, e, u, w);
      assert es[..|before|] == before;
      if e.Close? {
        FieldIsHistory(before, e.w, u);
      }
    }
  }

  // Which histories there are.

  /** `w` has connected and not closed. */
  ghost predicate Open(es: seq<Event>, w: Socket)
  {
    Connect(w) in es && Close(w) !in es
  }

  lemma {:induction false} OpenIsHistory(es: seq<Event>, w: Socket)
    requires Possible(es)
    ensures w in After(es).uids <==> Open(es, w)
    ensures w in After(es).closed <==> Close(w) in es
    ensures Close(w) in es ==> Connect(w) in es
  {
    if es != [] {
      var before, e := es[..|es| - 1], es[|es| - 1];
      assert es == before + [e];
      OpenIsHistory(before, w);
    }
  }

  /** Every socket connects once; while it is open, and only then, it can log in at any time, as any user and
      with either answer, and it can close. */
  lemma PossibleIff(es: seq<Event>, e: Event)
    requires Possible(es)
    ensures Possible(es + [e]) <==> if e.Connect? then e !in es else Open(es, e.w)
  {
    assert (es + [e])[..|es|] == es;
    OpenIsHistory(es, e.w);
  }

  // When the map is exactly the open, logged-in sockets.

  /** The map is the open sockets by their own uid: one socket for every user, one user for every socket. */
  ghost predicate Exact(s: Sessions)
  {
    forall u, w :: Agrees(s, u, w)
  }

  ghost predicate Agrees(s: Sessions, u: Uid, w: Socket)
  {
    (u in s.sessions && s.sessions[u] == w) <==> (w in s.uids && s.uids[w] == u && u != 0)
  }

  /** A login a careful caller makes: as a user, not as another user than before, and not as a user who is
      logged in on another open socket. */
  ghost predicate Careful(s: Sessions, e: Event)
  {
    e.Login? && e.accepted && e.w in s.uids ==>
      && e.uid != 0
      && (s.uids[e.w] == 0 || s.uids[e.w] == e.uid)
      && forall w :: w in s.uids && w != e.w ==> s.uids[w] != e.uid
  }

  /** One step keeps the map exact exactly when it is careful. */
  lemma StepExactIff(s: Sessions, e: Event)
    requires Exact(s) && Enabled(s, e)
    ensures Exact(Apply(s, e)) <==> Careful(s, e)
  {
    var s' := Apply(s, e);
    if e.Login? && e.accepted {
      LoginExactIff(s, e.w, e.uid);
    } else if e.Close? {
      forall u, w ensures Agrees(s', u, w) {
        assert Agrees(s, u, w) && Agrees(s, u, e.w);
      }
    } else {
      forall u, w ensures Agrees(s', u, w) {
        assert Agrees(s, u, w);
      }
    }
  }

  lemma LoginExactIff(s: Sessions, w: Socket, uid: Uid)
    requires Exact(s) && w in s.uids
    ensures Exact(Apply(s, Login(w, uid, true))) <==> Careful(s, Login(w, uid, true))
  {
    var s', was := Apply(s, Login(w, uid, true)), s.uids[w];
    if Exact(s') {
      assert Agrees(s', uid, w) && Agrees(s, was, w) && Agrees(s', was, w);
      forall v | v in s.uids && v != w ensures s.uids[v] != uid {
        assert Agrees(s', uid, v);
      }
    }
    if Careful(s, Login(w, uid, true)) {
      forall u, v ensures Agrees(s', u, v) {
        assert Agrees(s, u, v) && Agrees(s, u, w);
      }
    }
  }

  ghost predicate Disciplined(es: seq<Event>)
  {
    forall i :: 0 <= i < |es| ==> Careful(After(es[..i]), es[i])
  }

  ghost predicate AlwaysExact(es: seq<Event>)
  {
    forall i :: 0 <= i <= |es| ==> Exact(After(es[..i]))
  }

  lemma PrefixesOf(before: seq<Event>, e: Event)
    ensures AlwaysExact(before + [e]) <==> AlwaysExact(before) && Exact(After(before + [e]))
    ensures Disciplined(before + [e]) <==> Disciplined(before) && Careful(After(before), e)
  {
    hide After, Exact, Careful;
    var es := before + [e];
    forall i | 0 <= i <= |before| ensures es[..i] == before[..i] {
    }
    assert es[..|es|] == es && before[..|before|] == before;
    assert es[|before|] == e && forall i :: 0 <= i < |before| ==> es[i] == before[i];
    if AlwaysExact(before) && Exact(After(es)) {
      forall i | 0 <= i <= |es| ensures Exact(After(es[..i])) {
        if i <= |before| {
          assert Exact(After(before[..i]));
        }
      }
    }
    if AlwaysExact(es) {
      assert Exact(After(es[..|es|]));
      forall i | 0 <= i <= |before| ensures Exact(After(before[..i])) {
        assert Exact(After(es[..i]));
      }
    }
  }

  /** Over whole histories: the map is exact after every event exactly when every login was careful. */
  lemma {:induction false} AlwaysExactIff(es: seq<Event>)
    requires Possible(es)
    ensures AlwaysExact(es) <==> Disciplined(es)
  {
    if es != [] {
      var before, e := es[..|es| - 1], es[|es| - 1];
      assert es == before + [e];
      AlwaysExactIff(before);
      PrefixesOf(before, e);
      if AlwaysExact(before) {
        assert before[..|before|] == before;
        StepExactIff(After(before), e);
      }
    }
  }

  /** While every login is careful, a push goes to the user's own open socket, and to no one only when the
      user has none. */
  lemma PushReachesOwnSocket(es: seq<Event>, u: Uid)
    requires Possible(es) && Disciplined(es)
    ensures var s := After(es);
            if u in s.sessions then s.sessions[u] in s.uids && s.uids[s.sessions[u]] == u
            else u != 0 ==> forall w :: w in s.uids ==> s.uids[w] != u
  {
    hide After, Possible, Disciplined;
    AlwaysExactIff(es);
    assert es[..|es|] == es;
    var s := After(es);
    assert Exact(s);
    if u in s.sessions {
      assert Agrees(s, u, s.sessions[u]);
    } else {
      forall w | w in s.uids ensures u != 0 ==> s.uids[w] != u {
        assert Agrees(s, u, w);
      }
    }
  }

  // A history for every clause of the discipline.

  lemma Play(es: seq<Event>, e: Event)
    requires Possible(es) && Enabled(After(es), e)
    ensures Possible(es + [e]) && After(es + [e]) == Apply(After(es), e)
  {
  }

  /** A socket that logs in as two users leaves the first session behind when it closes. */
  lemma ChangingUidLeavesClosedSocket(u: Uid, v: Uid, w: Socket)
    requires u != v
    ensures var es := [Connect(w), Login(w, u, true)] + [Login(w, v, true)] + [Close(w)];
            Possible(es) && After(es).sessions == map[u := w] && w !in After(es).uids
  {
    TwoEvents(w, u);
    var es := [Connect(w), Login(w, u, true)];
    Play(es, Login(w, v, true));
    Play(es + [Login(w, v, true)], Close(w));
    assert map[u := w][v := w] - {v} == map[u := w];
  }

  lemma TwoEvents(w: Socket, u: Uid)
    ensures var es := [Connect(w), Login(w, u, true)];
            Possible(es) && After(es) == Sessions(map[u := w], map[w := u], {})
  {
    Play([], Connect(w));
    Play([Connect(w)], Login(w, u, true));
    assert [] + [Connect(w)] == [Connect(w)];
    assert [Connect(w)] + [Login(w, u, true)] == [Connect(w), Login(w, u, true)];
    assert map[w := 0][w := u] == map[w := u];
  }

  /** A user on two sockets loses the session with either, although the other is open. */
  lemma TwoSocketsLoseSession(u: Uid, w: Socket, v: Socket)
    requires v != w
    ensures var es := [Connect(w), Login(w, u, true)] + [Connect(v)] + [Login(v, u, true)] + [Close(w)];
            Possible(es) && u !in After(es).sessions && After(es).uids == map[v := u]
  {
    TwoEvents(w, u);
    var es := [Connect(w), Login(w, u, true)];
    Play(es, Connect(v));
    Play(es + [Connect(v)], Login(v, u, true));
    Play(es + [Connect(v)] + [Login(v, u, true)], Close(w));
    assert map[w := u][v := 0][v := u] - {w} == map[v := u];
  }

  /** A user 0, which has to be put into the user table by hand, loses the session when any socket closes that
      never logged in. */
  lemma UserZeroLosesSession(w: Socket, v: Socket)
    requires v != w
    ensures var es := [Connect(w), Login(w, 0, true)] + [Connect(v)] + [Close(v)];
            Possible(es) && After(es).sessions == map[] && After(es).uids == map[w := 0]
  {
    TwoEvents(w, 0);
    var es := [Connect(w), Login(w, 0, true)];
    Play(es, Connect(v));
    Play(es + [Connect(v)], Close(v));
    assert map[w := 0][v := 0] - {v} == map[w := 0];
  }
}
