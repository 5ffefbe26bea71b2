/**
 * `send_updates` of portal_scraper.py: run the update, then for each delta
 * send a notice to every confirmed subscription of the changed course. The
 * sent messages are collected in an outbox in sending order; the pause
 * between messages is not modelled.
 */
module Dispatch {
  import opened Wrappers
  import opened Text
  import opened Lists
  import opened Subscriptions
  import Deltas
  import RowParser
  import Catalog

  /** The notice for one subscriber; the keycode is the one it must reply with. */
  function NoticeText(d: Deltas.Delta, keycode: Keycode): string
  {
    "As of now, " + d.newEnrolled + " / " + d.newMax + " seats are now taken in " + d.course
    + " (previously " + d.oldEnrolled + " / " + d.oldMax + "). Reply with \"NO " + Decimal(keycode)
    + "\" to stop receiving updates."
  }

  function Notice(d: Deltas.Delta, row: Row): Sms
  {
    Sms(row.phone, NoticeText(d, row.keycode))
  }

  /** The SELECT of `send_updates`: the confirmed rows of the course, in table order. */
  function Subscribers(rows: seq<Row>, courseId: string): (r: seq<Row>)
    ensures |r| <= |rows|
  {
    if rows == [] then []
    else if rows[0].confirmed && rows[0].courseId == courseId then [rows[0]] + Subscribers(rows[1..], courseId)
    else Subscribers(rows[1..], courseId)
  }

  /** Every confirmed row of the course is selected as often as it occurs, and no other row. */
  lemma {:induction false} SubscribersCount(rows: seq<Row>, courseId: string, x: Row)
    ensures multiset(Subscribers(rows, courseId))[x]
      == if x.confirmed && x.courseId == courseId then multiset(rows)[x] else 0
  {
    if rows != [] {
      SubscribersCount(rows[1..], courseId, x);
      assert rows == [rows[0]] + rows[1..];
      assert multiset(rows) == multiset{rows[0]} + multiset(rows[1..]);
    }
  }

  /** The inner loop: one notice per subscriber, in order. */
  function Notices(d: Deltas.Delta, subscribers: seq<Row>): seq<Sms>
  {
    if subscribers == [] then []
    else Notices(d, subscribers[..|subscribers| - 1]) + [Notice(d, subscribers[|subscribers| - 1])]
  }

  /** The outer loop: the notices of each delta in turn. */
  function Notifications(deltas: seq<Deltas.Delta>, rows: seq<Row>): seq<Sms>
  {
    if deltas == [] then []
    else
      var d := deltas[|deltas| - 1];
      Notifications(deltas[..|deltas| - 1], rows) + Notices(d, Subscribers(rows, d.course))
  }

  /** The message loops of `send_updates`; returns the messages sent. */
  method Fanout(deltas: seq<Deltas.Delta>, rows: seq<Row>) returns (outbox: seq<Sms>)
    ensures outbox == Notifications(deltas, rows)
  {
    outbox := [];
    var i := 0;
    while i < |deltas|
      invariant 0 <= i <= |deltas|
      invariant outbox == Notifications(deltas[..i], rows)
    {
      var d := deltas[i];
      var numbers := Subscribers(rows, d.course);
      ghost var before := outbox;
      var j := 0;
      while j < |numbers|
        invariant 0 <= j <= |numbers|
        invariant outbox == before + Notices(d, numbers[..j])
      {
        assert numbers[..j + 1][..j] == numbers[..j];
        outbox := outbox + [Notice(d, numbers[j])];
        j := j + 1;
      }
      assert numbers[..j] == numbers;
      assert deltas[..i + 1][..i] == deltas[..i];
      i := i + 1;
    }
    assert deltas[..i] == deltas;
  }

  /** What a run sends, together with the snapshot the update writes. */
  datatype Dispatched = Dispatched(snapshot: seq<Catalog.DeptCourses>, outbox: seq<Sms>)

  function SendAll(depts: seq<string>, saved: seq<Catalog.DeptCourses>, pages: seq<seq<RowParser.Cells>>, rows: seq<Row>)
    : Result<Dispatched, Deltas.UpdateError>
    requires |depts| == |pages|
  {
    match Deltas.Update(depts, saved, pages)
    case Err(e) => Err(e)
    case Ok(refresh) => Ok(Dispatched(refresh.snapshot, Notifications(refresh.deltas, rows)))
  }

  /** `send_updates`: an update that fails sends nothing. */
  method SendUpdates(depts: seq<string>, saved: seq<Catalog.DeptCourses>, pages: seq<seq<RowParser.Cells>>, rows: seq<Row>)
    returns (r: Result<Dispatched, Deltas.UpdateError>)
    requires |depts| == |pages|
    ensures r == SendAll(depts, saved, pages, rows)
  {
    var updated := Deltas.UpdateCourseInfo(depts, saved, pages);
    if updated.Err? {
      return Err(updated.error);
    }
    var outbox := Fanout(updated.value.deltas, rows);
    r := Ok(Dispatched(updated.value.snapshot, outbox));
  }

  // ---------------------------------------------------------------------
  // Properties

  lemma {:induction false} NoticesMembers(d: Deltas.Delta, subscribers: seq<Row>)
    ensures |Notices(d, subscribers)| == |subscribers|
    ensures forall k :: 0 <= k < |subscribers| ==> Notices(d, subscribers)[k] == Notice(d, subscribers[k])
  {
    if subscribers != [] {
      NoticesMembers(d, subscribers[..|subscribers| - 1]);
    }
  }

  lemma {:induction false} NotificationsAppend(a: seq<Deltas.Delta>, b: seq<Deltas.Delta>, rows: seq<Row>)
    ensures Notifications(a + b, rows) == Notifications(a, rows) + Notifications(b, rows)
    decreases |b|
  {
    if b == [] {
      assert a + b == a;
    } else {
      var d, b' := b[|b| - 1], b[..|b| - 1];
      var tail := Notices(d, Subscribers(rows, d.course));
      assert (a + b)[..|a + b| - 1] == a + b' && (a + b)[|a + b| - 1] == d;
      calc {
        Notifications(a + b, rows);
        Notifications(a + b', rows) + tail;
        { NotificationsAppend(a, b', rows); }
        Notifications(a, rows) + Notifications(b', rows) + tail;
        { SeqAssoc(Notifications(a, rows), Notifications(b', rows), tail); }
        Notifications(a, rows) + (Notifications(b', rows) + tail);
        { assert Notifications(b, rows) == Notifications(b', rows) + tail; }
        Notifications(a, rows) + Notifications(b, rows);
      }
    }
  }

  /**
   * Each delta sends one notice per confirmed row of its course, as often
   * as the row occurs, to that row's number with that row's keycode.
   */
  lemma OneNoticePerSubscriber(d: Deltas.Delta, rows: seq<Row>)
    ensures var subscribers := Subscribers(rows, d.course);
      && Notifications([d], rows) == Notices(d, subscribers)
      && |Notifications([d], rows)| == |subscribers|
      && forall k :: 0 <= k < |subscribers| ==> Notifications([d], rows)[k] == Notice(d, subscribers[k])
  {
    assert [d][..0] == [];
    NoticesMembers(d, Subscribers(rows, d.course));
  }

  /** Each notice of a delta goes to a confirmed row of its course. */
  lemma NoticeToSubscriber(d: Deltas.Delta, rows: seq<Row>, m: Sms)
    requires m in Notices(d, Subscribers(rows, d.course))
    ensures exists row :: row in rows && row.confirmed && row.courseId == d.course && m == Notice(d, row)
  {
    var subscribers := Subscribers(rows, d.course);
    NoticesMembers(d, subscribers);
    var k :| 0 <= k < |subscribers| && Notices(d, subscribers)[k] == m;
    SubscribersCount(rows, d.course, subscribers[k]);
    assert multiset(subscribers)[subscribers[k]] > 0;
  }

  /** Every confirmed row of a delta's course gets that delta's notice. */
  lemma SubscriberNoticed(d: Deltas.Delta, rows: seq<Row>, row: Row)
    requires row in rows && row.confirmed && row.courseId == d.course
    ensures Notice(d, row) in Notices(d, Subscribers(rows, d.course))
  {
    var subscribers := Subscribers(rows, d.course);
    NoticesMembers(d, subscribers);
    SubscribersCount(rows, d.course, row);
    assert multiset(rows)[row] > 0;
    assert row in multiset(subscribers);
    var k :| 0 <= k < |subscribers| && subscribers[k] == row;
    assert Notices(d, subscribers)[k] == Notice(d, row);
  }

  /** Every message sent is the notice of some delta to a confirmed row of that delta's course. */
  lemma {:induction false} NotificationsSound(deltas: seq<Deltas.Delta>, rows: seq<Row>, m: Sms)
    requires m in Notifications(deltas, rows)
    ensures exists i, row :: (0 <= i < |deltas| && row in rows && row.confirmed && row.courseId == deltas[i].course
                              && m == Notice(deltas[i], row))
  {
    var init, d := deltas[..|deltas| - 1], deltas[|deltas| - 1];
    var block := Notices(d, Subscribers(rows, d.course));
    assert Notifications(deltas, rows) == Notifications(init, rows) + block;
    if m in Notifications(init, rows) {
      NotificationsSound(init, rows, m);
      var i, row :| 0 <= i < |init| && row in rows && row.confirmed && row.courseId == init[i].course
        && m == Notice(init[i], row);
      assert deltas[i] == init[i];
    } else {
      NoticeToSubscriber(d, rows, m);
      var row :| row in rows && row.confirmed && row.courseId == d.course && m == Notice(d, row);
      assert deltas[|deltas| - 1] == d;
    }
  }

  /** Each delta's notice reaches every confirmed row of its course. */
  lemma {:induction false} NotificationsComplete(deltas: seq<Deltas.Delta>, rows: seq<Row>, i: nat, row: Row)
    requires i < |deltas| && row in rows && row.confirmed && row.courseId == deltas[i].course
    ensures Notice(deltas[i], row) in Notifications(deltas, rows)
  {
    var init, d := deltas[..|deltas| - 1], deltas[|deltas| - 1];
    var block := Notices(d, Subscribers(rows, d.course));
    assert Notifications(deltas, rows) == Notifications(init, rows) + block;
    if i < |init| {
      assert deltas[i] == init[i];
      NotificationsComplete(init, rows, i, row);
    } else {
      SubscriberNoticed(d, rows, row);
    }
  }

  /**
   * After a number has subscribed to a course that nobody else follows, a
   * change in that course sends exactly one notice, to that number.
   */
  lemma SoleSubscriber(rows: seq<Row>, row: Row, d: Deltas.Delta)
    requires row.confirmed && row.courseId == d.course
    requires forall x :: x in rows ==> !(x.confirmed && x.courseId == d.course)
    ensures Notifications([d], rows + [row]) == [Sms(row.phone, NoticeText(d, row.keycode))]
  {
    var subscribers := Subscribers(rows + [row], d.course);
    assert multiset(subscribers) == multiset{row} by {
      forall x ensures multiset(subscribers)[x] == multiset{row}[x] {
        SubscribersCount(rows + [row], d.course, x);
        assert multiset(rows + [row]) == multiset(rows) + multiset{row};
      }
    }
    assert |subscribers| == |multiset(subscribers)| == 1;
    assert subscribers[0] in multiset(subscribers);
    OneNoticePerSubscriber(d, rows + [row]);
  }

  /** A delta reported under two departments is notified once: the merge absorbs repeats. */
  lemma CrossListedNotifiedOnce(collected: seq<Deltas.Delta>, repeats: seq<Deltas.Delta>, rows: seq<Row>)
    requires forall d :: d in repeats ==> d in collected
    ensures Notifications(Dedup(collected + repeats), rows) == Notifications(Dedup(collected), rows)
  {
    DedupAbsorbs(collected, repeats);
  }

  /** The reply a notice asks for is not understood and leaves the table as it was. */
  lemma NoticeReplyIgnored(rows: seq<Row>, phone: string, keycode: Keycode, now: int)
    ensures Handle(rows, phone, "NO " + Decimal(keycode), now)
      == Outcome(Some(Sms(phone, NotUnderstoodReply)), rows)
  {
    NoIsUnrecognised(Decimal(keycode));
  }
}
