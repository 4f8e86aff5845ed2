/** Message sync: `GetofflineMsgs` and a client that pages through its results. */
module Sync {
  import opened Types
  import opened Store

  const PAGE := 100

  /** Rows for `uid` with an id above `last`, in id order. */
  function Matching(rows: seq<Row>, uid: Uid, last: int): seq<Row>
  {
    if rows == [] then []
    else
      var row := rows[|rows| - 1];
      Matching(rows[..|rows| - 1], uid, last) + if row.toUid == uid && row.id > last then [row] else []
  }

  /** The result set of the query: the first hundred of them. */
  function Page(rows: seq<Row>, uid: Uid, last: int): seq<Row>
  {
    var all := Matching(rows, uid, last);
    if |all| <= PAGE then all else all[..PAGE]
  }

  /** The fields of a returned message: neither the row id nor the message id is among them. */
  datatype ChatMsg = ChatMsg(fromUid: Uid, toUid: Uid, content: string, createTime: int)

  /** The messages of a result set, row by row. */
  function Messages(rows: seq<Row>): (msgs: seq<ChatMsg>)
    ensures |msgs| == |rows|
    ensures forall i :: 0 <= i < |rows| ==>
              && msgs[i].fromUid == rows[i].fromUid && msgs[i].toUid == rows[i].toUid
              && msgs[i].content == rows[i].content && msgs[i].createTime == rows[i].createTime
  {
    seq(|rows|, i requires 0 <= i < |rows| =>
      ChatMsg(rows[i].fromUid, rows[i].toUid, rows[i].content, rows[i].createTime))
  }

  /** `ok` says whether the query succeeded. */
  method GetOfflineMsgs(rows: seq<Row>, uid: Uid, last: int, ok: bool) returns (msgs: seq<ChatMsg>)
    ensures msgs == if ok then Messages(Page(rows, uid, last)) else []
    ensures |msgs| <= 100 && forall m :: m in msgs ==> m.toUid == uid
  {
    msgs := [];
    if ok {
      var res := Page(rows, uid, last);
      MatchingMembers(rows, uid, last);
      assert forall i :: 0 <= i < |res| ==> res[i] in Matching(rows, uid, last);
      for i := 0 to |res|
        invariant msgs == Messages(res[..i])
        invariant forall m :: m in msgs ==> m.toUid == uid
      {
        var row := res[i];
        msgs := msgs + [ChatMsg(row.fromUid, row.toUid, row.content, row.createTime)];
      }
      assert res[..|res|] == res;
    }
  }

  lemma {:induction false} MatchingMember(rows: seq<Row>, uid: Uid, last: int, k: nat)
    requires k < |Matching(rows, uid, last)|
    ensures var row := Matching(rows, uid, last)[k]; row in rows && row.toUid == uid && row.id > last
  {
    var before := rows[..|rows| - 1];
    if k < |Matching(before, uid, last)| {
      MatchingMember(before, uid, last, k);
    }
  }

  lemma {:induction false} MatchingIncreases(rows: seq<Row>, uid: Uid, last: int)
    requires IncreasingIds(rows)
    ensures IncreasingIds(Matching(rows, uid, last))
  {
    if rows != [] {
      var before := rows[..|rows| - 1];
      MatchingIncreases(before, uid, last);
      forall k | 0 <= k < |Matching(before, uid, last)|
        ensures Matching(before, uid, last)[k].id < rows[|rows| - 1].id
      {
        MatchingMember(before, uid, last, k);
      }
    }
  }

  lemma MatchingMembers(rows: seq<Row>, uid: Uid, last: int)
    ensures forall row :: row in Matching(rows, uid, last) <==> row in rows && row.toUid == uid && row.id > last
  {
  }

  lemma {:induction false} MatchingNothing(rows: seq<Row>, uid: Uid, last: int)
    requires forall row :: row in rows ==> row.id <= last
    ensures Matching(rows, uid, last) == []
  {
    if rows != [] {
      assert rows[|rows| - 1] in rows;
      MatchingNothing(rows[..|rows| - 1], uid, last);
    }
  }

  lemma {:induction false} MatchingPrefix(rows: seq<Row>, more: seq<Row>, uid: Uid, last: int)
    requires rows <= more
    ensures Matching(rows, uid, last) <= Matching(more, uid, last)
  {
    if |rows| == |more| {
      assert rows == more;
    } else {
      var before := more[..|more| - 1];
      assert rows <= before;
      MatchingPrefix(rows, before, uid, last);
      assert Matching(before, uid, last) <= Matching(more, uid, last);
    }
  }

  /** Moving the cursor to the k-th result leaves exactly the results after it. */
  lemma {:induction false} MatchingFromCursor(rows: seq<Row>, uid: Uid, last: int, k: nat)
    requires IncreasingIds(rows) && 0 < k <= |Matching(rows, uid, last)|
    ensures Matching(rows, uid, Matching(rows, uid, last)[k - 1].id) == Matching(rows, uid, last)[k..]
  {
    var all, before, row := Matching(rows, uid, last), rows[..|rows| - 1], rows[|rows| - 1];
    var front := Matching(before, uid, last);
    if k <= |front| {
      MatchingFromCursor(before, uid, last, k);
      MatchingMember(before, uid, last, k - 1);
      assert all[k - 1] == front[k - 1];
    } else {
      assert all[k - 1] == row;
      MatchingNothing(rows, uid, row.id);
    }
  }

  // A client that asks for page after page. `tables[i]` is the message table at its i-th call, and its cursor
  // moves to the id of the last row of each page. It may go on after a short page.

  function Next(page: seq<Row>, last: int): int
  {
    if page == [] then last else page[|page| - 1].id
  }

  /** The rows of all its pages. */
  function Collected(tables: seq<seq<Row>>, uid: Uid, last: int): seq<Row>
  {
    if tables == [] then []
    else
      var page := Page(tables[0], uid, last);
      page + Collected(tables[1..], uid, Next(page, last))
  }

  /** Its last page was short. */
  predicate CaughtUp(tables: seq<seq<Row>>, uid: Uid, last: int)
  {
    tables != [] &&
    var page := Page(tables[0], uid, last);
    if |tables| == 1 then |page| < PAGE else CaughtUp(tables[1..], uid, Next(page, last))
  }

  /** Tables only gain rows; where their ids lie is left open. */
  ghost predicate Gaining(tables: seq<seq<Row>>)
  {
    && (forall i :: 0 <= i < |tables| ==> IncreasingIds(tables[i]))
    && (forall i, j, row :: 0 <= i < j < |tables| && row in tables[i] ==> row in tables[j])
  }

  lemma GainingTail(tables: seq<seq<Row>>)
    requires Gaining(tables) && tables != []
    ensures Gaining(tables[1..]) && IncreasingIds(tables[0])
    ensures forall row :: row in tables[0] ==> row in tables[|tables| - 1]
  {
  }

  /** `row` became visible too late: a page moved the cursor over its id while it was not in the table. */
  predicate Missed(tables: seq<seq<Row>>, uid: Uid, last: int, row: Row)
  {
    tables != [] && last < row.id &&
    var cursor := Next(Page(tables[0], uid, last), last);
    if row.id <= cursor then row !in tables[0] else Missed(tables[1..], uid, cursor, row)
  }

  /** A page holds exactly the rows up to the new cursor, in id order, and a short one all there are. */
  lemma PageRows(rows: seq<Row>, uid: Uid, last: int)
    requires IncreasingIds(rows)
    ensures var page := Page(rows, uid, last);
            && last <= Next(page, last) && IncreasingIds(page)
            && (forall row :: row in page <==> row in rows && row.toUid == uid && last < row.id <= Next(page, last))
            && |page| <= 100
            && (|page| < 100 ==> forall row :: row in rows && row.toUid == uid ==> row.id <= Next(page, last))
  {
    var all, page := Matching(rows, uid, last), Page(rows, uid, last);
    MatchingMembers(rows, uid, last);
    MatchingIncreases(rows, uid, last);
    forall row ensures row in page <==> row in all && row.id <= Next(page, last) {
      if row in all {
        var k :| 0 <= k < |all| && all[k] == row;
        assert k < |page| ==> page[k] == row;
      }
    }
    if page != [] {
      assert page[|page| - 1] in all;
    }
  }

  /** Whatever becomes visible later: a row at or below the cursor is never returned, and no row is returned
      twice or out of order. */
  lemma {:induction false} CollectedAscends(tables: seq<seq<Row>>, uid: Uid, last: int)
    requires forall i :: 0 <= i < |tables| ==> IncreasingIds(tables[i])
    ensures forall row :: row in Collected(tables, uid, last) ==> row.id > last
    ensures IncreasingIds(Collected(tables, uid, last))
  {
    if tables != [] {
      var page := Page(tables[0], uid, last);
      var cursor := Next(page, last);
      CollectedAscends(tables[1..], uid, cursor);
      var rest := Collected(tables[1..], uid, cursor);
      assert forall k :: 0 <= k < |rest| ==> rest[k] in rest;
      PageRows(tables[0], uid, last);
      assert forall k :: 0 <= k < |page| ==> page[k] in page;
      assert Collected(tables, uid, last) == page + rest;
    }
  }

  /** A row that becomes visible when a cursor has passed its id is never returned. */
  lemma LateSmallerIdIsLost(tables: seq<seq<Row>>, uid: Uid, cursor: int, late: Row)
    requires forall i :: 0 <= i < |tables| ==> IncreasingIds(tables[i])
    requires late.id <= cursor
    ensures late !in Collected(tables, uid, cursor)
  {
    CollectedAscends(tables, uid, cursor);
  }

  /** A client that has caught up has exactly the rows for `uid` above its start that it has not missed. */
  lemma {:induction false} CollectedUnlessMissed(tables: seq<seq<Row>>, uid: Uid, last: int, row: Row)
    requires Gaining(tables) && CaughtUp(tables, uid, last)
    ensures row in Collected(tables, uid, last) <==>
            row in tables[|tables| - 1] && row.toUid == uid && row.id > last && !Missed(tables, uid, last, row)
  {
    var page := Page(tables[0], uid, last);
    GainingTail(tables);
    PageRows(tables[0], uid, last);
    hide Gaining, Page, Next, IncreasingIds;
    if |tables| > 1 {
      CollectedUnlessMissed(tables[1..], uid, Next(page, last), row);
    }
  }

  lemma LastIsSame(a: seq<Row>, b: seq<Row>)
    requires IncreasingIds(a) && IncreasingIds(b) && a != [] && b != []
    requires forall row :: row in a <==> row in b
    ensures a[|a| - 1] == b[|b| - 1]
  {
    assert a[|a| - 1] in b && b[|b| - 1] in a;
  }

  lemma FrontRow(rows: seq<Row>, row: Row)
    requires IncreasingIds(rows) && rows != []
    ensures row in rows[..|rows| - 1] <==> row in rows && row != rows[|rows| - 1]
  {
    assert rows == rows[..|rows| - 1] + [rows[|rows| - 1]];
  }

  lemma {:induction false} SameIncreasing(a: seq<Row>, b: seq<Row>)
    requires IncreasingIds(a) && IncreasingIds(b) && forall row :: row in a <==> row in b
    ensures a == b
  {
    assert (a != [] ==> a[0] in b) && (b != [] ==> b[0] in a);
    if a != [] {
      var front, front' := a[..|a| - 1], b[..|b| - 1];
      LastIsSame(a, b);
      forall row ensures row in front <==> row in front' {
        FrontRow(a, row);
        FrontRow(b, row);
      }
      SameIncreasing(front, front');
      assert a == front + [a[|a| - 1]] && b == front' + [b[|b| - 1]];
    }
  }

  /** Paging is complete, which is to say that a client that has caught up has every row for `uid` above its
      start, once and in id order, exactly when it has missed none of them. */
  lemma PagingCompleteIff(tables: seq<seq<Row>>, uid: Uid, last: int)
    requires Gaining(tables) && CaughtUp(tables, uid, last)
    ensures var final := tables[|tables| - 1];
            Collected(tables, uid, last) == Matching(final, uid, last) <==>
            forall row :: row in final && row.toUid == uid ==> !Missed(tables, uid, last, row)
  {
    assert tables != [];
    hide Missed, Matching, Collected, CaughtUp;
    var final := tables[|tables| - 1];
    forall row ensures row in Collected(tables, uid, last) <==>
      row in final && row.toUid == uid && row.id > last && !Missed(tables, uid, last, row)
    {
      CollectedUnlessMissed(tables, uid, last, row);
    }
    MatchingMembers(final, uid, last);
    if forall row :: row in final && row.toUid == uid ==> !Missed(tables, uid, last, row) {
      CollectedAscends(tables, uid, last);
      MatchingIncreases(final, uid, last);
      SameIncreasing(Collected(tables, uid, last), Matching(final, uid, last));
    } else {
      var row :| row in final && row.toUid == uid && Missed(tables, uid, last, row);
      MissedIsAbove(tables, uid, last, row);
      assert row in Matching(final, uid, last);
    }
  }

  lemma MissedIsAbove(tables: seq<seq<Row>>, uid: Uid, last: int, row: Row)
    requires Missed(tables, uid, last, row)
    ensures row.id > last
  {
  }

  /** The cursor moves to the id of a row for `uid`. */
  lemma CursorRow(rows: seq<Row>, uid: Uid, last: int) returns (row: Row)
    requires IncreasingIds(rows) && last < Next(Page(rows, uid, last), last)
    ensures row in rows && row.toUid == uid && row.id == Next(Page(rows, uid, last), last)
  {
    var page := Page(rows, uid, last);
    PageRows(rows, uid, last);
    row := page[|page| - 1];
    assert row in page;
  }

  /** A row is only missed when a row for `uid` with a larger id was visible before it. */
  lemma {:induction false} MissedIsOvertaken(tables: seq<seq<Row>>, uid: Uid, last: int, row: Row)
    returns (i: nat, larger: Row)
    requires Gaining(tables) && Missed(tables, uid, last, row)
    ensures i < |tables| && row !in tables[i] && larger in tables[i] && larger.toUid == uid && larger.id >= row.id
  {
    GainingTail(tables);
    hide Gaining, Page, Next, IncreasingIds;
    var cursor := Next(Page(tables[0], uid, last), last);
    if row.id <= cursor {
      larger := CursorRow(tables[0], uid, last);
      i := 0;
    } else {
      i, larger := MissedIsOvertaken(tables[1..], uid, cursor, row);
      i := i + 1;
    }
  }

  /** Rows are only appended, with increasing ids. */
  ghost predicate Growing(tables: seq<seq<Row>>)
  {
    && (forall i :: 0 <= i < |tables| ==> IncreasingIds(tables[i]))
    && (forall i, j :: 0 <= i < j < |tables| ==> tables[i] <= tables[j])
  }

  lemma LaterIsLarger(rows: seq<Row>, more: seq<Row>, early: Row, late: Row)
    requires rows <= more && IncreasingIds(more) && early in rows && late in more && late !in rows
    ensures early.id < late.id
  {
  }

  /** When rows become visible in id order paging is complete, although rows are added between the calls. */
  lemma PagingIsComplete(tables: seq<seq<Row>>, uid: Uid, last: int)
    requires Growing(tables) && CaughtUp(tables, uid, last)
    ensures Collected(tables, uid, last) == Matching(tables[|tables| - 1], uid, last)
  {
    var final := tables[|tables| - 1];
    forall i, j, row | 0 <= i < j < |tables| && row in tables[i] ensures row in tables[j] {
      assert tables[i] <= tables[j];
    }
    forall row | row in final ensures !Missed(tables, uid, last, row) {
      if Missed(tables, uid, last, row) {
        var i, larger := MissedIsOvertaken(tables, uid, last, row);
        LaterIsLarger(tables[i], final, larger, row);
      }
    }
    PagingCompleteIff(tables, uid, last);
  }

  /** In other words: exactly the rows addressed to `uid` above the start, each once, in id order. */
  lemma EachRowOnceInOrder(tables: seq<seq<Row>>, uid: Uid, last: int)
    requires Growing(tables) && CaughtUp(tables, uid, last)
    ensures IncreasingIds(Collected(tables, uid, last))
    ensures forall row :: row in Collected(tables, uid, last) <==>
              row in tables[|tables| - 1] && row.toUid == uid && row.id > last
  {
    assert tables != [];
    hide CaughtUp, Collected, Matching, Page;
    PagingIsComplete(tables, uid, last);
    var rows := tables[|tables| - 1];
    MatchingIncreases(rows, uid, last);
    MatchingMembers(rows, uid, last);
  }

  function Repeat(rows: seq<Row>, n: nat): seq<seq<Row>>
  {
    seq(n, i => rows)
  }

  /** Without inserts it takes one call for every full hundred rows, and one more. */
  lemma {:induction false} PagingCalls(rows: seq<Row>, uid: Uid, last: int, n: nat)
    requires IncreasingIds(rows)
    ensures CaughtUp(Repeat(rows, n), uid, last) <==> n >= |Matching(rows, uid, last)| / 100 + 1
    decreases n
  {
    if n > 0 {
      var all, page := Matching(rows, uid, last), Page(rows, uid, last);
      assert Repeat(rows, n)[1..] == Repeat(rows, n - 1);
      PagingCalls(rows, uid, Next(page, last), n - 1);
      if page != [] {
        MatchingFromCursor(rows, uid, last, |page|);
        assert page[|page| - 1] == all[|page| - 1];
      }
    }
  }

  // Paging while the store runs.

  /** The tables a client meets at successive moments of one run of the store. */
  ghost predicate SeenDuring(tables: seq<seq<Row>>, es: seq<Event>, moments: seq<nat>)
  {
    && |tables| == |moments|
    && (forall i :: 0 <= i < |moments| ==> moments[i] <= |es| && tables[i] == After(es[..moments[i]]).messages)
    && (forall i, j :: 0 <= i < j < |moments| ==> moments[i] <= moments[j])
  }

  lemma RowsStay(es: seq<Event>, m: nat, n: nat)
    requires m <= n <= |es|
    ensures forall row :: row in After(es[..m]).messages ==> row in After(es[..n]).messages
  {
    assert es[..n][..m] == es[..m];
    RunGrows(es[..n], m);
  }

  /** In every run of the store the table only gains rows, and each query sees them in id order. */
  lemma SeenIsGaining(tables: seq<seq<Row>>, es: seq<Event>, moments: seq<nat>)
    requires SeenDuring(tables, es, moments)
    ensures Gaining(tables)
  {
    forall i | 0 <= i < |tables| ensures IncreasingIds(tables[i]) {
      RunSound(es[..moments[i]]);
    }
    forall i, j, row | 0 <= i < j < |tables| && row in tables[i] ensures row in tables[j] {
      RowsStay(es, moments[i], moments[j]);
    }
  }

  /** Event `n` of the run stores a row. */
  ghost predicate Saves(es: seq<Event>, n: nat)
  {
    n < |es| && es[n].SaveMessage? && es[n].ok && Enabled(After(es[..n]), es[n])
  }

  /** When event `n` stores a row, no row for the same user with a larger id is visible. */
  ghost predicate InTurn(es: seq<Event>, n: nat)
    requires Saves(es, n)
  {
    var m := After(es[..n]).sends[es[n].i];
    forall row :: row in After(es[..n]).messages && row.toUid == m.toUid ==> row.id < m.id
  }

  /** Every row for `uid` is stored in turn. */
  ghost predicate AllInTurn(es: seq<Event>, uid: Uid)
  {
    forall n: nat :: Saves(es, n) && After(es[..n]).sends[es[n].i].toUid == uid ==> InTurn(es, n)
  }

  /** Every client that asks for the messages of `uid` during the run, at whatever moments and from whatever
      start, has all of them when it has caught up. */
  ghost predicate AlwaysComplete(es: seq<Event>, uid: Uid)
  {
    forall tables, moments, last :: SeenDuring(tables, es, moments) && CaughtUp(tables, uid, last) ==>
      Collected(tables, uid, last) == Matching(tables[|tables| - 1], uid, last)
  }

  lemma PagingDuringRun(tables: seq<seq<Row>>, es: seq<Event>, moments: seq<nat>, uid: Uid, last: int)
    requires SeenDuring(tables, es, moments) && CaughtUp(tables, uid, last)
    ensures var final := tables[|tables| - 1];
            Collected(tables, uid, last) == Matching(final, uid, last) <==>
            forall row :: row in final && row.toUid == uid ==> !Missed(tables, uid, last, row)
  {
    SeenIsGaining(tables, es, moments);
    PagingCompleteIff(tables, uid, last);
  }

  /** A row that was not visible when one with a larger id was has not been stored in turn. */
  lemma {:induction false} OvertakenOutOfTurn(es: seq<Event>, m: nat, n: nat, larger: Row, row: Row)
    requires m <= n <= |es| && larger.toUid == row.toUid && larger.id >= row.id
    requires larger in After(es[..m]).messages && row in After(es[..n]).messages && row !in After(es[..m]).messages
    ensures !AllInTurn(es, row.toUid)
  {
    assert es[..n][..n - 1] == es[..n - 1];
    if row in After(es[..n - 1]).messages {
      OvertakenOutOfTurn(es, m, n - 1, larger, row);
    } else {
      RowsStay(es, m, n - 1);
      assert Saves(es, n - 1);
      assert !InTurn(es, n - 1);
    }
  }

  /** A client that meets `rows` and then, until it has caught up, `more` misses a row that came in between
      below an id it has seen. */
  lemma LateClient(rows: seq<Row>, more: seq<Row>, larger: Row, row: Row) returns (k: nat)
    requires IncreasingIds(rows) && IncreasingIds(more)
    requires larger in rows && larger.toUid == row.toUid && larger.id >= row.id && row !in rows
    ensures k > 0 && CaughtUp([rows] + Repeat(more, k), row.toUid, row.id - 1)
    ensures Missed([rows] + Repeat(more, k), row.toUid, row.id - 1, row)
  {
    var uid, last := row.toUid, row.id - 1;
    var cursor := Next(Page(rows, uid, last), last);
    PageRows(rows, uid, last);
    assert row.id <= cursor;
    k := |Matching(more, uid, cursor)| / PAGE + 1;
    PagingCalls(more, uid, cursor, k);
    assert ([rows] + Repeat(more, k))[1..] == Repeat(more, k);
  }

  lemma SeenTwice(es: seq<Event>, n: nat, k: nat) returns (tables: seq<seq<Row>>, moments: seq<nat>)
    requires n < |es|
    ensures tables == [After(es[..n]).messages] + Repeat(After(es[..n + 1]).messages, k)
    ensures SeenDuring(tables, es, moments)
  {
    tables, moments := [After(es[..n]).messages] + Repeat(After(es[..n + 1]).messages, k), [n] + seq(k, _ => n + 1);
  }

  /** A client that meets the table just before and just after a row is stored out of turn, and then goes on
      until it has caught up, misses the row. */
  lemma OutOfTurnIsMissed(es: seq<Event>, n: nat, uid: Uid)
    requires Saves(es, n) && After(es[..n]).sends[es[n].i].toUid == uid && !InTurn(es, n)
    ensures !AlwaysComplete(es, uid)
  {
    var rows, more, row := StoredRow(es, n);
    var larger :| larger in rows && larger.toUid == uid && larger.id >= row.id;
    RunSound(es[..n]);
    RunSound(es[..n + 1]);
    hide After, SeenDuring, CaughtUp, Missed, Matching, Collected;
    var k := LateClient(rows, more, larger, row);
    var tables, moments := SeenTwice(es, n, k);
    PagingDuringRun(tables, es, moments, uid, row.id - 1);
  }

  lemma StoredRow(es: seq<Event>, n: nat) returns (rows: seq<Row>, more: seq<Row>, row: Row)
    requires Saves(es, n)
    ensures rows == After(es[..n]).messages && more == After(es[..n + 1]).messages
    ensures row !in rows && row in more
    ensures var m := After(es[..n]).sends[es[n].i]; row.id == m.id && row.toUid == m.toUid
  {
    var s, i := After(es[..n]), es[n].i;
    assert es[..n + 1][..n] == es[..n];
    rows, more, row := s.messages, After(es[..n + 1]).messages, RowOf(s.sends[i], i, es[n].now);
    RunSound(es[..n]);
    assert row in s.messages ==> RowSound(s, row);
  }

  /** In every run: paging the messages of `uid` is complete for every client, whenever it asks, exactly when
      every row for `uid` is stored in turn. */
  lemma AlwaysCompleteIff(es: seq<Event>, uid: Uid)
    ensures AlwaysComplete(es, uid) <==> AllInTurn(es, uid)
  {
    if AllInTurn(es, uid) {
      forall tables, moments, last | SeenDuring(tables, es, moments) && CaughtUp(tables, uid, last)
        ensures Collected(tables, uid, last) == Matching(tables[|tables| - 1], uid, last)
      {
        InTurnIsComplete(tables, es, moments, uid, last);
      }
    } else {
      var n: nat :| Saves(es, n) && After(es[..n]).sends[es[n].i].toUid == uid && !InTurn(es, n);
      OutOfTurnIsMissed(es, n, uid);
    }
  }

  lemma InTurnIsComplete(tables: seq<seq<Row>>, es: seq<Event>, moments: seq<nat>, uid: Uid, last: int)
    requires AllInTurn(es, uid) && SeenDuring(tables, es, moments) && CaughtUp(tables, uid, last)
    ensures Collected(tables, uid, last) == Matching(tables[|tables| - 1], uid, last)
  {
    assert tables != [];
    hide CaughtUp, Missed, Collected, Matching, AllInTurn;
    SeenIsGaining(tables, es, moments);
    var final := |tables| - 1;
    forall row | row in tables[final] && row.toUid == uid ensures !Missed(tables, uid, last, row) {
      if Missed(tables, uid, last, row) {
        var i, larger := MissedIsOvertaken(tables, uid, last, row);
        OvertakenOutOfTurn(es, moments[i], moments[final], larger, row);
      }
    }
    PagingDuringRun(tables, es, moments, uid, last);
  }

  /** No insert draws its id while another one that has drawn its own is still running. */
  ghost predicate OneAtATime(es: seq<Event>)
  {
    forall n :: 0 <= n < |es| && es[n].DrawId? ==>
      forall m :: m in After(es[..n]).sends ==> m.id == 0 || !m.save.NotRun?
  }

  lemma {:induction false} OnlyLatestIsOpen(es: seq<Event>, n: nat, i: nat)
    requires OneAtATime(es) && n <= |es| && i < |After(es[..n]).sends|
    requires var m := After(es[..n]).sends[i]; m.id != 0 && m.save.NotRun?
    ensures After(es[..n]).sends[i].id == After(es[..n]).nextId - 1
  {
    assert es[..n][..n - 1] == es[..n - 1];
    var s := After(es[..n - 1]);
    if i < |s.sends| && s.sends[i].id != 0 {
      OnlyLatestIsOpen(es, n - 1, i);
      assert s.sends[i] in s.sends;
    }
  }

  lemma RowsBelowLatest(s: Tables, i: nat)
    requires Sound(s) && i < |s.sends| && s.sends[i].save.NotRun? && s.sends[i].id == s.nextId - 1 != 0
    ensures forall row :: row in s.messages ==> row.id < s.sends[i].id
  {
    forall row | row in s.messages ensures row.id < s.sends[i].id {
      assert RowSound(s, row) && SendSound(s, row.send);
      assert row.send != i;
    }
  }

  /** So paging is complete in every run whose inserts do not overlap, as those of a single connection do not. */
  lemma SerialInsertsAreComplete(es: seq<Event>, uid: Uid)
    requires OneAtATime(es)
    ensures AlwaysComplete(es, uid)
  {
    forall n: nat | Saves(es, n) ensures InTurn(es, n) {
      RunSound(es[..n]);
      OnlyLatestIsOpen(es, n, es[n].i);
      hide After, Sound;
      RowsBelowLatest(After(es[..n]), es[n].i);
    }
    AlwaysCompleteIff(es, uid);
  }

  /** Two sends of `a` to `b` whose inserts overlap: the one that draws its id first commits last. */
  function OverlappingInserts(a: Uid, b: Uid, x: string, y: string): seq<Event>
  {
    Friendly(a, b) + Drawn(a, b, x, 0) + Drawn(a, b, y, 1) + [SaveMessage(1, true, 0)] + [SaveMessage(0, true, 0)]
  }

  function Friendly(a: Uid, b: Uid): seq<Event>
  {
    [CreateRequest(a, b)] + [FindPending(0)] + [FirstInsert(0, true)]
  }

  function Drawn(a: Uid, b: Uid, content: string, i: nat): seq<Event>
  {
    [BeginSend(a, b, content, Direct)] + [CheckFriends(i, true)] + [DrawId(i)]
  }

  lemma AfterFriendly(a: Uid, b: Uid)
    ensures var s := After(Friendly(a, b)); (a, b) in s.friends && s.messages == [] && s.sends == [] && s.nextId == 1
  {
    var es := [CreateRequest(a, b)];
    AfterThen([], CreateRequest(a, b));
    AfterThen(es, FindPending(0));
    AfterThen(es + [FindPending(0)], FirstInsert(0, true));
    assert [] + es == es;
    hide After;
    assert After(es) == EMPTY.(requests := [Request(a, b, 0)]);
  }

  lemma AfterDrawn(es: seq<Event>, a: Uid, b: Uid, content: string)
    requires (a, b) in After(es).friends
    ensures var s, t := After(es), After(es + Drawn(a, b, content, |After(es).sends|));
            && t.friends == s.friends && t.messages == s.messages && t.nextId == s.nextId + 1
            && t.sends == s.sends + [Send(a, b, content, Direct, Done, s.nextId, NotRun)]
  {
    var i := |After(es).sends|;
    var begin, check := [BeginSend(a, b, content, Direct)], [CheckFriends(i, true)];
    AfterThen(es, BeginSend(a, b, content, Direct));
    AfterThen(es + begin, CheckFriends(i, true));
    AfterThen(es + begin + check, DrawId(i));
    assert es + Drawn(a, b, content, i) == es + begin + check + [DrawId(i)];
    hide After;
  }

  /** It is a run in which the client that asks in between never gets the first message. */
  lemma OverlappingInsertsLoseOne(a: Uid, b: Uid, x: string, y: string)
    ensures var es, first, second := OverlappingInserts(a, b, x, y), Row(1, a, b, x, 0, 0), Row(2, a, b, y, 0, 1);
            && After(es[..|es| - 1]).messages == [second] && After(es).messages == [first, second]
            && !AlwaysComplete(es, b)
  {
    var es, e, f := Friendly(a, b), SaveMessage(1, true, 0), SaveMessage(0, true, 0);
    AfterFriendly(a, b);
    AfterDrawn(es, a, b, x);
    AfterDrawn(es + Drawn(a, b, x, 0), a, b, y);
    es := es + Drawn(a, b, x, 0) + Drawn(a, b, y, 1);
    AfterThen(es, e);
    AfterThen(es + [e], f);
    var all, n := OverlappingInserts(a, b, x, y), |es| + 1;
    assert all[..n] == es + [e] && all[..|all|] == all;
    hide After, AlwaysComplete, Drawn, Friendly;
    SavedLast(After(es), Row(1, a, b, x, 0, 0), Row(2, a, b, y, 0, 1));
    assert Saves(all, n);
    OutOfTurnIsMissed(all, n, b);
  }

  lemma SaveStep(s: Tables, i: nat)
    requires i < |s.sends| && s.sends[i].check.Done? && s.sends[i].save.NotRun? && s.sends[i].id != 0
    ensures Step(s, SaveMessage(i, true, 0)) ==
            s.(sends := s.sends[i := s.sends[i].(save := Done)],
               messages := Placed(s.messages, RowOf(s.sends[i], i, 0)))
  {
  }

  lemma SavedLast(s: Tables, first: Row, second: Row)
    requires s.messages == [] && |s.sends| == 2 && first.id == 1 && second.id == 2
    requires s.sends[0].check.Done? && s.sends[0].save.NotRun? && RowOf(s.sends[0], 0, 0) == first
    requires s.sends[1].check.Done? && s.sends[1].save.NotRun? && RowOf(s.sends[1], 1, 0) == second
    ensures var t := Step(s, SaveMessage(1, true, 0));
            t.messages == [second] && Step(t, SaveMessage(0, true, 0)).messages == [first, second]
  {
    hide Step, Placed;
    PlacedBefore(first, second);
    SaveStep(s, 1);
    SaveStep(Step(s, SaveMessage(1, true, 0)), 0);
  }

  lemma PlacedBefore(first: Row, second: Row)
    requires first.id < second.id
    ensures Placed([], second) == [second] && Placed([second], first) == [first, second]
  {
    assert [second][..0] == [] && Placed([], first) == [first];
  }
}
