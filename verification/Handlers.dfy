/** What the handlers under way can still do, from every state of a run and whatever the others did. */
module Handlers {
  import opened Types
  import opened Store
  import opened Friendship

  lemma ThreeMore(es: seq<Event>, a: Event, b: Event, c: Event)
    ensures After(es + [a, b, c]) == Step(Step(Step(After(es), a), b), c)
  {
    AfterThen(es, a);
    AfterThen(es + [a], b);
    AfterThen(es + [a] + [b], c);
    assert es + [a, b, c] == es + [a] + [b] + [c];
  }

  /** An accept none of whose inserts has failed can finish, and leaves both rows and the status. */
  lemma AcceptCanFinish(es: seq<Event>, i: nat)
    requires i < |After(es).accepts|
    requires var r := After(es).accepts[i]; !r.first.Error? && !r.second.Error? && !r.ended
    ensures var r := After(es).accepts[i];
            var t := After(es + [FirstInsert(i, true), SecondInsert(i, true), MarkAccepted(i, true)]);
            && (r.fromUid, r.toUid) in t.friends && (r.toUid, r.fromUid) in t.friends
            && r.req < |t.requests| && t.requests[r.req] == Request(r.fromUid, r.toUid, 1)
  {
    var all := es + [FirstInsert(i, true), SecondInsert(i, true), MarkAccepted(i, true)];
    ThreeMore(es, FirstInsert(i, true), SecondInsert(i, true), MarkAccepted(i, true));
    RunSound(es);
    assert AcceptSound(After(es), i);
    var r, r' := After(es).accepts[i], After(all).accepts[i];
    assert r'.first.Done? && r'.second.Done? && r'.fromUid == r.fromUid && r'.toUid == r.toUid;
    assert all[..|all|] == all;
    hide After, Step;
    DoneInsertsStay(all, |all|, i);
  }

  /** A send between friends that has not been tried can be stored, under an id that no row has, and its row
      holds the sender, the addressee, the content and the time of the insert. */
  lemma SendCanBeStored(es: seq<Event>, i: nat, now: int)
    requires i < |After(es).sends|
    requires var m := After(es).sends[i]; m.check.NotRun? && m.save.NotRun? && (m.fromUid, m.toUid) in After(es).friends
    ensures var s, m := After(es), After(es).sends[i];
            var t := After(es + [CheckFriends(i, true), DrawId(i), SaveMessage(i, true, now)]);
            && t.messages == Placed(s.messages, Row(s.nextId, m.fromUid, m.toUid, m.content, now, i))
            && forall row :: row in s.messages ==> row.id < s.nextId
  {
    ThreeMore(es, CheckFriends(i, true), DrawId(i), SaveMessage(i, true, now));
    RunSound(es);
    var s := After(es);
    SendsNotChecked(es, i);
    forall row | row in s.messages ensures row.id < s.nextId {
      assert RowSound(s, row) && SendSound(s, row.send);
    }
    assert s.nextId > 0;
    hide After, Sound;
  }

  /** Nothing is drawn for a send before its check. */
  lemma {:induction false} SendsNotChecked(es: seq<Event>, i: nat)
    requires i < |After(es).sends| && After(es).sends[i].check.NotRun?
    ensures After(es).sends[i].id == 0
  {
    if es != [] {
      var before, e := es[..|es| - 1], es[|es| - 1];
      if i < |After(before).sends| {
        SendsNotChecked(before, i);
      }
    }
  }

  lemma StepRefused(s: Tables, e: Event, i: nat)
    requires i < |s.sends| && s.sends[i].check.Error?
    ensures i < |Step(s, e).sends| && Step(s, e).sends[i].check.Error?
  {
  }

  lemma {:induction false} StaysRefused(es: seq<Event>, i: nat, more: seq<Event>)
    requires i < |After(es).sends| && After(es).sends[i].check.Error?
    ensures i < |After(es + more).sends| && After(es + more).sends[i].check.Error?
  {
    hide After;
    if more == [] {
      assert es + more == es;
    } else {
      var before, e := more[..|more| - 1], more[|more| - 1];
      StaysRefused(es, i, before);
      AfterThen(es + before, e);
      assert es + more == es + before + [e];
      StepRefused(After(es + before), e, i);
    }
  }

  /** A check that finds no row, or fails, is the end of a send: nothing is ever stored for it. */
  lemma RefusedIsNeverStored(es: seq<Event>, i: nat, ok: bool, more: seq<Event>)
    requires i < |After(es).sends| && After(es).sends[i].check.NotRun?
    requires !ok || (After(es).sends[i].fromUid, After(es).sends[i].toUid) !in After(es).friends
    ensures forall row :: row in After(es + [CheckFriends(i, ok)] + more).messages ==> row.send != i
  {
    var checked := es + [CheckFriends(i, ok)];
    AfterThen(es, CheckFriends(i, ok));
    StaysRefused(checked, i, more);
    RunSound(checked + more);
    var t := After(checked + more);
    hide After;
    forall row | row in t.messages ensures row.send != i {
      assert RowSound(t, row);
    }
  }

  /** A failed insert is the end of a send too. */
  lemma FailedSaveStoresNothing(es: seq<Event>, i: nat, now: int)
    requires i < |After(es).sends| && After(es).sends[i].check.Done? && After(es).sends[i].save.NotRun?
    ensures var t := After(es + [SaveMessage(i, false, now)]);
            t.messages == After(es).messages && t.sends[i].save.Error?
  {
    AfterThen(es, SaveMessage(i, false, now));
  }

  /** A reject changes the status of an existing request, whatever it is, and nothing else. */
  lemma RejectIsUnconditional(es: seq<Event>, req: nat)
    requires req < |After(es).requests|
    ensures var s := After(es);
            After(es + [MarkRejected(req, true)])
            == s.(requests := s.requests[req := Request(s.requests[req].fromUid, s.requests[req].toUid, 2)])
  {
    AfterThen(es, MarkRejected(req, true));
  }
}
