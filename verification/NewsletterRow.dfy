/** The newsletter row of internal/db/generated/newsletters.sql.go and the services and handlers that
change it.

`Row` is the value of a row. Each UPDATE statement is a function on `Row` and a method of
`NewsletterRow`, which assigns the columns the statement names. What the functions mean together is
proved in module Plans.
*/
module NewsletterRow {
  import opened Outcomes
  import opened Schedule

  datatype Status = Active | Inactive

  datatype Row = Row(
    settings: Settings,
    zone: Zone,
    nextSendTime: int,
    originalNextSendTime: Option<int>,
    lastSentAt: Option<int>,
    status: Status,
    sendWhenEmpty: bool)

  datatype Rejection = SendTimeInPast | SendTimeAfterNext | NullNextSendTime | NewsletterNotFound

  function Coalesce(a: Option<int>, b: int): Option<int> {
    if a.Some? then a else Some(b)
  }

  /** CreateNewsletter and ImportNewsletter leave the columns that record sends NULL. */
  function Created(settings: Settings, zone: Zone, next: int, status: Status, sendWhenEmpty: bool): Row {
    Row(settings, zone, next, None, None, status, sendWhenEmpty)
  }

  /** UpdateNewsletter: both CASE expressions read the row as it was. */
  function Updated(row: Row, settings: Settings, zone: Zone, next: int): Row {
    row.(settings := settings,
         zone := zone,
         nextSendTime :=
           if row.originalNextSendTime.None? then next
           else if next < row.nextSendTime then next
           else row.nextSendTime,
         originalNextSendTime :=
           if row.originalNextSendTime.None? then None
           else if next < row.nextSendTime then None
           else Some(next))
  }

  /** UpdateNewsletterSendTime. */
  function OneOffSet(row: Row, t: int): Row {
    row.(nextSendTime := t, originalNextSendTime := Coalesce(row.originalNextSendTime, row.nextSendTime))
  }

  /** CancelAdditionalSendTime; `next_send_time` is NOT NULL, so there has to be an original time. */
  function OneOffCancelled(row: Row): Result<Row, Rejection> {
    match row.originalNextSendTime
    case None => Failure(NullNextSendTime)
    case Some(t) => Success(row.(nextSendTime := t, originalNextSendTime := None))
  }

  /** RescheduleNewsletter. */
  function Rescheduled(row: Row, t: int): Row {
    row.(nextSendTime := t, originalNextSendTime := None)
  }

  /** SkipNewsletterSend. */
  function Skipped(row: Row, next: int, windowStart: int): Row {
    row.(nextSendTime := next, lastSentAt := Coalesce(row.lastSentAt, windowStart))
  }

  /** UpdateNewsletterSendTimes. */
  function Sent(row: Row, next: int, sentAt: int): Row {
    row.(nextSendTime := next, lastSentAt := Some(sentAt), originalNextSendTime := None)
  }

  function MissedSendSkipped(row: Row, resumed: bool, now: int): Row
    requires Accepted(row.settings)
  {
    if resumed && row.nextSendTime < now then Rescheduled(row, NextIn(row.zone, row.settings, now)) else row
  }

  predicate IsResumed(row: Row, status: Status) {
    status.Active? && row.status.Inactive?
  }

  /** What a change of status does to one row, missed sends included. */
  function WithStatus(row: Row, status: Status, now: int): Row
    requires Accepted(row.settings)
  {
    MissedSendSkipped(row.(status := status), IsResumed(row, status), now)
  }

  /** The time the regular schedule is waiting for. */
  function Regular(row: Row): int {
    if row.originalNextSendTime.Some? then row.originalNextSendTime.value else row.nextSendTime
  }

  class NewsletterRow {
    var settings: Settings
    var zone: Zone
    var nextSendTime: int
    var originalNextSendTime: Option<int>
    var lastSentAt: Option<int>
    var status: Status
    var sendWhenEmpty: bool

    constructor (settings: Settings, zone: Zone, next: int, status: Status, sendWhenEmpty: bool)
      ensures View() == Created(settings, zone, next, status, sendWhenEmpty)
    {
      this.settings, this.zone := settings, zone;
      this.nextSendTime, this.originalNextSendTime := next, None;
      this.lastSentAt := None;
      this.status, this.sendWhenEmpty := status, sendWhenEmpty;
    }

    function View(): Row
      reads this
    {
      Row(settings, zone, nextSendTime, originalNextSendTime, lastSentAt, status, sendWhenEmpty)
    }

    method UpdateNewsletter(settings: Settings, zone: Zone, next: int)
      modifies this
      ensures View() == Updated(old(View()), settings, zone, next)
    {
      this.settings, this.zone := settings, zone;
      if originalNextSendTime.None? {
        nextSendTime := next;
      } else if next < nextSendTime {
        nextSendTime, originalNextSendTime := next, None;
      } else {
        originalNextSendTime := Some(next);
      }
    }

    method UpdateNewsletterSendTime(t: int)
      modifies this
      ensures View() == OneOffSet(old(View()), t)
    {
      if originalNextSendTime.None? {
        originalNextSendTime := Some(nextSendTime);
      }
      nextSendTime := t;
    }

    method CancelAdditionalSendTime() returns (result: Result<(), Rejection>)
      modifies this
      ensures match OneOffCancelled(old(View()))
              case Success(row) => result == Success(()) && View() == row
              case Failure(error) => result == Failure(error) && View() == old(View())
    {
      if originalNextSendTime.None? {
        return Failure(NullNextSendTime);
      }
      nextSendTime := originalNextSendTime.value;
      originalNextSendTime := None;
      return Success(());
    }

    method RescheduleNewsletter(t: int)
      modifies this
      ensures View() == Rescheduled(old(View()), t)
    {
      nextSendTime := t;
      originalNextSendTime := None;
    }

    method SkipNewsletterSend(next: int, windowStart: int)
      modifies this
      ensures View() == Skipped(old(View()), next, windowStart)
    {
      nextSendTime := next;
      if lastSentAt.None? {
        lastSentAt := Some(windowStart);
      }
    }

    method UpdateNewsletterSendTimes(next: int, sentAt: int)
      modifies this
      ensures View() == Sent(old(View()), next, sentAt)
    {
      nextSendTime := next;
      lastSentAt := Some(sentAt);
      originalNextSendTime := None;
    }

    /** POST one-off: a time from now up to the regular one, however often it was moved before. */
    method ScheduleOneOffSend(sendTime: int, now: int) returns (result: Result<(), Rejection>)
      modifies this
      ensures result.Success? <==> now <= sendTime <= old(Regular(View()))
      ensures result.Failure? ==> result.error == if sendTime < now then SendTimeInPast else SendTimeAfterNext
      ensures View() == if result.Success? then OneOffSet(old(View()), sendTime) else old(View())
    {
      if sendTime < now {
        return Failure(SendTimeInPast);
      }
      var next := nextSendTime;
      if originalNextSendTime.Some? {
        next := originalNextSendTime.value;
      }
      if sendTime > next {
        return Failure(SendTimeAfterNext);
      }
      UpdateNewsletterSendTime(sendTime);
      return Success(());
    }

    /** DELETE one-off: without a one-off there is nothing to do and nothing to report. */
    method CancelOneOffSend()
      modifies this
      ensures View() == old(View()).(nextSendTime := old(Regular(View())), originalNextSendTime := None)
    {
      if originalNextSendTime.Some? {
        var result := CancelAdditionalSendTime();
      }
    }
  }

  /** UpdateStatuses: all of the rows or, when an id was not found, none of them. */
  method UpdateStatuses(rows: seq<NewsletterRow>, requested: nat, status: Status, now: int)
    returns (result: Result<(), Rejection>)
    requires forall i, j :: 0 <= i < j < |rows| ==> rows[i] != rows[j]
    requires forall i :: 0 <= i < |rows| ==> Accepted(rows[i].settings)
    modifies set i | 0 <= i < |rows| :: rows[i]
    ensures result == if |rows| == requested then Success(()) else Failure(NewsletterNotFound)
    ensures forall i :: 0 <= i < |rows| ==>
      rows[i].View() == if result.Success? then WithStatus(old(rows[i].View()), status, now) else old(rows[i].View())
  {
    if |rows| != requested {
      return Failure(NewsletterNotFound);
    }
    var resumed: seq<bool> := [];
    for i := 0 to |rows|
      invariant |resumed| == i
      invariant forall k :: 0 <= k < i ==> resumed[k] == IsResumed(old(rows[k].View()), status)
      invariant forall k :: 0 <= k < i ==> rows[k].View() == old(rows[k].View()).(status := status)
      invariant forall k :: i <= k < |rows| ==> rows[k].View() == old(rows[k].View())
    {
      resumed := resumed + [IsResumed(rows[i].View(), status)];
      rows[i].status := status;
    }
    SkipMissedSends(rows, resumed, now);
    return Success(());
  }

  /** A paused newsletter whose time has passed waits for the next slot instead of sending at once. */
  method SkipMissedSends(rows: seq<NewsletterRow>, resumed: seq<bool>, now: int)
    requires |resumed| == |rows|
    requires forall i, j :: 0 <= i < j < |rows| ==> rows[i] != rows[j]
    requires forall i :: 0 <= i < |rows| ==> Accepted(rows[i].settings)
    modifies set i | 0 <= i < |rows| :: rows[i]
    ensures forall i :: 0 <= i < |rows| ==>
      rows[i].View() == MissedSendSkipped(old(rows[i].View()), resumed[i], now)
  {
    hide NextIn;
    for i := 0 to |rows|
      invariant forall k :: i <= k < |rows| ==> rows[k].View() == old(rows[k].View())
      invariant forall k :: 0 <= k < i ==> rows[k].View() == MissedSendSkipped(old(rows[k].View()), resumed[k], now)
    {
      if resumed[i] && rows[i].nextSendTime < now {
        rows[i].RescheduleNewsletter(NextIn(rows[i].zone, rows[i].settings, now));
      }
    }
  }
}
