/** What the schedule promises in a zone with a fixed offset.

`IsSlot` says which instants are send times without computing any of them. `ComputeNextSendTime` is
proved to return the least slot at or after its base and `ComputeLastSendTime` the greatest at or
before it.
*/
module Slots {
  import opened Calendar
  import opened Durations
  import opened Outcomes
  import opened Schedule

  /** The send day a month gets: the configured one, moved into the month. */
  function DayInMonth(sendDay: int, y: int, m: int): int
    requires 1 <= m <= 12
  {
    var wanted := if sendDay < 1 then 1 else sendDay;
    if wanted < MonthLength(y, m) then wanted else MonthLength(y, m)
  }

  predicate ScheduledDay(s: Settings, day: int) {
    match s.frequency
    case Daily => true
    case Weekly => Weekday(day) == s.sendDay % 7
    case Monthly =>
      var d := CivilOf(day);
      d.day == DayInMonth(s.sendDay, d.year, d.month)
    case Unknown(_) => false
  }

  /** The zone's clock shows the send hour and minute, to the nanosecond, on a scheduled day. */
  predicate IsSlot(s: Settings, c: int, t: int) {
    (t + c) % DAY == s.sendHour * HOUR + s.sendMinute * MINUTE && ScheduledDay(s, (t + c) / DAY)
  }

  lemma ClampIsDayInMonth(y: int, m: int, day: int)
    requires 1 <= m <= 12
    ensures ClampSendDayToMonth(y, m, day) == DayInMonth(day, y, m)
    ensures ValidDate(Date(y, m, DayInMonth(day, y, m)))
  {
    DayZeroOfNextMonth(y, m);
  }

  lemma FixedDate(c: int, y: int, m: int, d: int, clock: int)
    requires 1 <= m <= 12
    ensures DateIn(FixedZone(c), y, m, d, clock) == DayNumber(y, m, d) * DAY + clock - c
  {
    hide NormalizedDayNumber, DayNumber;
    SameMonth(y, m, d);
  }

  lemma FixedAddDays(c: int, t: int, n: int)
    ensures AddDays(FixedZone(c), t, n) == t + n * DAY
  {
    hide CivilOf;
    var z := FixedZone(c);
    var d := CivilOf(LocalDay(z, t));
    FixedDate(c, d.year, d.month, d.day + n, LocalClock(z, t));
    assert DayNumber(d.year, d.month, d.day + n) == LocalDay(z, t) + n;
  }

  function SlotOn(s: Settings, c: int, day: int): int {
    day * DAY + SendClock(s) - c
  }

  /** `day` carries the least slot at or after `b`. */
  ghost predicate FirstFrom(s: Settings, c: int, b: int, day: int) {
    && ScheduledDay(s, day)
    && b <= SlotOn(s, c, day)
    && forall n :: n < day && ScheduledDay(s, n) ==> SlotOn(s, c, n) < b
  }

  /** `day` carries the greatest slot at or before `b`. */
  ghost predicate LastUpTo(s: Settings, c: int, b: int, day: int) {
    && ScheduledDay(s, day)
    && SlotOn(s, c, day) <= b
    && forall n :: day < n && ScheduledDay(s, n) ==> b < SlotOn(s, c, n)
  }

  lemma SlotsAscend(s: Settings, c: int, n: int, n': int)
    ensures n < n' <==> SlotOn(s, c, n) < SlotOn(s, c, n')
    ensures SlotOn(s, c, n') == SlotOn(s, c, n) + (n' - n) * DAY
  {
  }

  /** Slots on days before the base's date are over, slots on days after it are still ahead. */
  lemma SlotAgainstBase(s: Settings, c: int, b: int, n: int)
    requires Accepted(s)
    ensures n < LocalDay(FixedZone(c), b) ==> SlotOn(s, c, n) < b
    ensures n > LocalDay(FixedZone(c), b) ==> SlotOn(s, c, n) > b
  {
  }

  lemma DailyCandidate(s: Settings, c: int, b: int)
    requires Accepted(s)
    ensures
      var d := LocalDay(FixedZone(c), b);
      var local := CivilOf(d);
      DateIn(FixedZone(c), local.year, local.month, local.day, SendClock(s)) == SlotOn(s, c, d)
  {
    var local := CivilOf(LocalDay(FixedZone(c), b));
    FixedDate(c, local.year, local.month, local.day, SendClock(s));
  }

  /** What both daily branches return, with the zone arithmetic evaluated. */
  lemma DailyResult(s: Settings, c: int, b: int)
    requires Accepted(s) && s.frequency.Daily?
    ensures
      var today := LocalDay(FixedZone(c), b);
      && ComputeNextSendTime(s, Some(FixedZone(c)), b)
         == Success(SlotOn(s, c, if SlotOn(s, c, today) < b then today + 1 else today))
      && ComputeLastSendTime(s, Some(FixedZone(c)), b)
         == Success(SlotOn(s, c, if SlotOn(s, c, today) > b then today - 1 else today))
  {
    hide CivilOf, DateIn, AddDays;
    var today := LocalDay(FixedZone(c), b);
    DailyCandidate(s, c, b);
    FixedAddDays(c, SlotOn(s, c, today), 1);
    FixedAddDays(c, SlotOn(s, c, today), -1);
  }

  lemma DailyNext(s: Settings, c: int, b: int) returns (day: int)
    requires Accepted(s) && s.frequency.Daily?
    ensures ComputeNextSendTime(s, Some(FixedZone(c)), b) == Success(SlotOn(s, c, day))
    ensures FirstFrom(s, c, b, day)
  {
    hide ComputeNextSendTime, ComputeLastSendTime, LocalDay;
    var today := LocalDay(FixedZone(c), b);
    DailyResult(s, c, b);
    day := if SlotOn(s, c, today) < b then today + 1 else today;
    forall n { SlotAgainstBase(s, c, b, n); }
  }

  lemma DailyLast(s: Settings, c: int, b: int) returns (day: int)
    requires Accepted(s) && s.frequency.Daily?
    ensures ComputeLastSendTime(s, Some(FixedZone(c)), b) == Success(SlotOn(s, c, day))
    ensures LastUpTo(s, c, b, day)
  {
    hide ComputeNextSendTime, ComputeLastSendTime, LocalDay;
    var today := LocalDay(FixedZone(c), b);
    DailyResult(s, c, b);
    day := if SlotOn(s, c, today) > b then today - 1 else today;
    forall n { SlotAgainstBase(s, c, b, n); }
  }

  /** The weekday arithmetic of both functions: the first matching day in the week from `d`. */
  lemma DaysUntilWeekday(sendDay: int, d: int)
    requires 0 <= sendDay
    ensures
      var daysUntil := GoRemainder(sendDay - Weekday(d) + 7, 7);
      && 0 <= daysUntil < 7
      && forall n :: Weekday(n) == sendDay % 7 <==> (n - (d + daysUntil)) % 7 == 0
  {
    var daysUntil := GoRemainder(sendDay - Weekday(d) + 7, 7);
    var weeks := (d + 1) / 7 + 1 - (sendDay - Weekday(d) + 7) / 7;
    assert d + daysUntil == sendDay - 1 + 7 * weeks;
    forall n ensures Weekday(n) == sendDay % 7 <==> (n - (d + daysUntil)) % 7 == 0 {
      SameWeekday(n + 1, sendDay, weeks);
    }
  }

  lemma SameWeekday(a: int, b: int, weeks: int)
    ensures a % 7 == b % 7 <==> (a - b - 7 * weeks) % 7 == 0
  {
    DivisionUnique(a - b - 7 * weeks, 7, (a - b) / 7 - weeks, (a - b) % 7);
  }

  lemma WeeklyCandidate(s: Settings, c: int, b: int)
    requires Accepted(s)
    ensures
      var z := FixedZone(c);
      var d := LocalDay(z, b);
      var local := CivilOf(d);
      var today := DateIn(z, local.year, local.month, local.day, SendClock(s));
      && LocalDay(z, today) == d
      && forall n :: AddDays(z, today, n) == SlotOn(s, c, d + n)
  {
    hide CivilOf, DateIn, AddDays;
    DailyCandidate(s, c, b);
    var d := LocalDay(FixedZone(c), b);
    WallOn(d, SendClock(s));
    forall n ensures AddDays(FixedZone(c), SlotOn(s, c, d), n) == SlotOn(s, c, d + n) {
      FixedAddDays(c, SlotOn(s, c, d), n);
    }
  }

  /** The first matching day of the week that starts on the base's date. */
  function WeeklyDay(s: Settings, today: int): int {
    today + GoRemainder(s.sendDay - Weekday(today) + 7, 7)
  }

  lemma WeeklyResult(s: Settings, c: int, b: int)
    requires Accepted(s) && s.frequency.Weekly?
    ensures
      var day := WeeklyDay(s, LocalDay(FixedZone(c), b));
      && ComputeNextSendTime(s, Some(FixedZone(c)), b)
         == Success(SlotOn(s, c, if SlotOn(s, c, day) < b then day + 7 else day))
      && ComputeLastSendTime(s, Some(FixedZone(c)), b)
         == Success(SlotOn(s, c, if SlotOn(s, c, day) > b then day - 7 else day))
  {
    hide CivilOf, DateIn, AddDays, LocalDay;
    var day := WeeklyDay(s, LocalDay(FixedZone(c), b));
    WeeklyCandidate(s, c, b);
    FixedAddDays(c, SlotOn(s, c, day), 7);
    FixedAddDays(c, SlotOn(s, c, day), -7);
  }

  lemma WeeklyNext(s: Settings, c: int, b: int) returns (day: int)
    requires Accepted(s) && s.frequency.Weekly?
    ensures ComputeNextSendTime(s, Some(FixedZone(c)), b) == Success(SlotOn(s, c, day))
    ensures FirstFrom(s, c, b, day)
  {
    hide ComputeNextSendTime, ComputeLastSendTime, LocalDay, Weekday;
    var today := LocalDay(FixedZone(c), b);
    WeeklyResult(s, c, b);
    DaysUntilWeekday(s.sendDay, today);
    var first := WeeklyDay(s, today);
    day := if SlotOn(s, c, first) < b then first + 7 else first;
    assert (day - first) % 7 == 0;
    forall n | n < day && ScheduledDay(s, n) ensures SlotOn(s, c, n) < b {
      SlotAgainstBase(s, c, b, n);
    }
    SlotAgainstBase(s, c, b, first);
    SlotAgainstBase(s, c, b, day);
  }

  lemma WeeklyLast(s: Settings, c: int, b: int) returns (day: int)
    requires Accepted(s) && s.frequency.Weekly?
    ensures ComputeLastSendTime(s, Some(FixedZone(c)), b) == Success(SlotOn(s, c, day))
    ensures LastUpTo(s, c, b, day)
  {
    hide ComputeNextSendTime, ComputeLastSendTime, LocalDay, Weekday;
    var today := LocalDay(FixedZone(c), b);
    WeeklyResult(s, c, b);
    DaysUntilWeekday(s.sendDay, today);
    var first := WeeklyDay(s, today);
    day := if SlotOn(s, c, first) > b then first - 7 else first;
    assert (day - first) % 7 == 0;
    forall n | day < n && ScheduledDay(s, n) ensures b < SlotOn(s, c, n) {
      SlotAgainstBase(s, c, b, n);
    }
    SlotAgainstBase(s, c, b, day);
  }

  function MonthIndex(d: Date): int {
    12 * d.year + d.month
  }

  /** The day a monthly schedule uses in one month. */
  function MonthlyDay(sendDay: int, y: int, m: int): int
    requires 1 <= m <= 12
  {
    DayNumber(y, m, DayInMonth(sendDay, y, m))
  }

  lemma MonthlyDayIsScheduled(s: Settings, y: int, m: int)
    requires s.frequency.Monthly? && 1 <= m <= 12
    ensures CivilOf(MonthlyDay(s.sendDay, y, m)) == Date(y, m, DayInMonth(s.sendDay, y, m))
    ensures ScheduledDay(s, MonthlyDay(s.sendDay, y, m))
  {
    ClampIsDayInMonth(y, m, s.sendDay);
    CivilOfDayNumber(Date(y, m, DayInMonth(s.sendDay, y, m)));
  }

  /** A monthly schedule has exactly one day in each month, so its days are ordered by month. */
  lemma OneDayPerMonth(s: Settings, n: int, day: int)
    requires s.frequency.Monthly? && ScheduledDay(s, n) && ScheduledDay(s, day)
    ensures n < day <==> MonthIndex(CivilOf(n)) < MonthIndex(CivilOf(day))
    ensures n == day <==> MonthIndex(CivilOf(n)) == MonthIndex(CivilOf(day))
  {
    var a, b := CivilOf(n), CivilOf(day);
    if MonthIndex(a) < MonthIndex(b) {
      DayNumberAscends(a, b);
    } else if MonthIndex(b) < MonthIndex(a) {
      DayNumberAscends(b, a);
    }
  }

  lemma MonthlyCandidate(s: Settings, c: int, y: int, m: int)
    requires Accepted(s) && 1 <= m <= 12
    ensures DateIn(FixedZone(c), y, m, ClampSendDayToMonth(y, m, s.sendDay), SendClock(s))
         == SlotOn(s, c, MonthlyDay(s.sendDay, y, m))
  {
    ClampIsDayInMonth(y, m, s.sendDay);
    FixedDate(c, y, m, DayInMonth(s.sendDay, y, m), SendClock(s));
  }

  function MonthAfter(y: int, m: int): (int, int) {
    if m + 1 > 12 then (y + 1, 1) else (y, m + 1)
  }

  function MonthBefore(y: int, m: int): (int, int) {
    if m - 1 < 1 then (y - 1, 12) else (y, m - 1)
  }

  lemma MonthlyResult(s: Settings, c: int, b: int)
    requires Accepted(s) && s.frequency.Monthly?
    ensures
      var local := CivilOf(LocalDay(FixedZone(c), b));
      var here := MonthlyDay(s.sendDay, local.year, local.month);
      var after, before := MonthAfter(local.year, local.month), MonthBefore(local.year, local.month);
      && ComputeNextSendTime(s, Some(FixedZone(c)), b)
         == Success(SlotOn(s, c, if SlotOn(s, c, here) < b then MonthlyDay(s.sendDay, after.0, after.1) else here))
      && ComputeLastSendTime(s, Some(FixedZone(c)), b)
         == Success(SlotOn(s, c, if SlotOn(s, c, here) > b then MonthlyDay(s.sendDay, before.0, before.1) else here))
  {
    hide CivilOf, DateIn, AddDays, LocalDay, ClampSendDayToMonth, MonthlyDay, SlotOn;
    var local := CivilOf(LocalDay(FixedZone(c), b));
    var after, before := MonthAfter(local.year, local.month), MonthBefore(local.year, local.month);
    MonthlyCandidate(s, c, local.year, local.month);
    MonthlyCandidate(s, c, after.0, after.1);
    MonthlyCandidate(s, c, before.0, before.1);
  }

  /** In the month of the base's date, a scheduled day in an earlier month is over and one in a later
      month is still ahead. */
  lemma OtherMonths(s: Settings, c: int, b: int, n: int)
    requires Accepted(s)
    ensures
      var today := LocalDay(FixedZone(c), b);
      && (MonthIndex(CivilOf(n)) < MonthIndex(CivilOf(today)) ==> SlotOn(s, c, n) < b)
      && (MonthIndex(CivilOf(n)) > MonthIndex(CivilOf(today)) ==> SlotOn(s, c, n) > b)
  {
    hide CivilOf, LocalDay, SlotOn;
    var today := LocalDay(FixedZone(c), b);
    SlotAgainstBase(s, c, b, n);
    if MonthIndex(CivilOf(n)) < MonthIndex(CivilOf(today)) {
      DayNumberAscends(CivilOf(n), CivilOf(today));
    } else if MonthIndex(CivilOf(n)) > MonthIndex(CivilOf(today)) {
      DayNumberAscends(CivilOf(today), CivilOf(n));
    }
  }

  lemma MonthlyNext(s: Settings, c: int, b: int) returns (day: int)
    requires Accepted(s) && s.frequency.Monthly?
    ensures ComputeNextSendTime(s, Some(FixedZone(c)), b) == Success(SlotOn(s, c, day))
    ensures FirstFrom(s, c, b, day)
  {
    hide ComputeNextSendTime, ComputeLastSendTime, CivilOf, LocalDay, MonthlyDay, ScheduledDay;
    var local := CivilOf(LocalDay(FixedZone(c), b));
    var after := MonthAfter(local.year, local.month);
    var here, there := MonthlyDay(s.sendDay, local.year, local.month), MonthlyDay(s.sendDay, after.0, after.1);
    MonthlyResult(s, c, b);
    MonthlyDayIsScheduled(s, local.year, local.month);
    MonthlyDayIsScheduled(s, after.0, after.1);
    day := if SlotOn(s, c, here) < b then there else here;
    OtherMonths(s, c, b, there);
    forall n | n < day && ScheduledDay(s, n) ensures SlotOn(s, c, n) < b {
      OneDayPerMonth(s, n, day);
      OneDayPerMonth(s, n, here);
      OtherMonths(s, c, b, n);
    }
  }

  lemma MonthlyLast(s: Settings, c: int, b: int) returns (day: int)
    requires Accepted(s) && s.frequency.Monthly?
    ensures ComputeLastSendTime(s, Some(FixedZone(c)), b) == Success(SlotOn(s, c, day))
    ensures LastUpTo(s, c, b, day)
  {
    hide ComputeNextSendTime, ComputeLastSendTime, CivilOf, LocalDay, MonthlyDay, ScheduledDay;
    var local := CivilOf(LocalDay(FixedZone(c), b));
    var before := MonthBefore(local.year, local.month);
    var here, there := MonthlyDay(s.sendDay, local.year, local.month), MonthlyDay(s.sendDay, before.0, before.1);
    MonthlyResult(s, c, b);
    MonthlyDayIsScheduled(s, local.year, local.month);
    MonthlyDayIsScheduled(s, before.0, before.1);
    day := if SlotOn(s, c, here) > b then there else here;
    OtherMonths(s, c, b, there);
    forall n | day < n && ScheduledDay(s, n) ensures b < SlotOn(s, c, n) {
      OneDayPerMonth(s, day, n);
      OneDayPerMonth(s, here, n);
      OtherMonths(s, c, b, n);
    }
  }

  lemma SlotHasDay(s: Settings, c: int, t: int)
    requires Accepted(s)
    ensures IsSlot(s, c, t) <==> exists day :: ScheduledDay(s, day) && t == SlotOn(s, c, day)
  {
    hide ScheduledDay;
    if IsSlot(s, c, t) {
      assert t == SlotOn(s, c, (t + c) / DAY);
    }
    forall day | t == SlotOn(s, c, day) ensures (t + c) / DAY == day && (t + c) % DAY == SendClock(s) {
      WallOn(day, SendClock(s));
    }
  }

  function NextSlot(s: Settings, c: int, b: int): int
    requires Accepted(s)
  {
    NextIn(FixedZone(c), s, b)
  }

  function LastSlot(s: Settings, c: int, b: int): int
    requires Accepted(s)
  {
    LastIn(FixedZone(c), s, b)
  }

  /** In a fixed-offset zone the next send time is the least slot that is not before the base. */
  lemma NextIsLeastSlot(s: Settings, c: int, b: int)
    requires Accepted(s)
    ensures ComputeNextSendTime(s, Some(FixedZone(c)), b).Success?
    ensures IsSlot(s, c, NextSlot(s, c, b))
    ensures b <= NextSlot(s, c, b)
    ensures forall t :: IsSlot(s, c, t) && b <= t ==> NextSlot(s, c, b) <= t
  {
    hide ComputeNextSendTime, ComputeLastSendTime, ScheduledDay, IsSlot;
    var day;
    match s.frequency {
      case Daily => day := DailyNext(s, c, b);
      case Weekly => day := WeeklyNext(s, c, b);
      case Monthly => day := MonthlyNext(s, c, b);
    }
    SlotHasDay(s, c, NextSlot(s, c, b));
    forall t | IsSlot(s, c, t) && b <= t ensures NextSlot(s, c, b) <= t {
      SlotHasDay(s, c, t);
    }
  }

  /** The last send time is the greatest slot that is not after the base. */
  lemma LastIsGreatestSlot(s: Settings, c: int, b: int)
    requires Accepted(s)
    ensures ComputeLastSendTime(s, Some(FixedZone(c)), b).Success?
    ensures IsSlot(s, c, LastSlot(s, c, b))
    ensures LastSlot(s, c, b) <= b
    ensures forall t :: IsSlot(s, c, t) && t <= b ==> t <= LastSlot(s, c, b)
  {
    hide ComputeNextSendTime, ComputeLastSendTime, ScheduledDay, IsSlot;
    var day;
    match s.frequency {
      case Daily => day := DailyLast(s, c, b);
      case Weekly => day := WeeklyLast(s, c, b);
      case Monthly => day := MonthlyLast(s, c, b);
    }
    SlotHasDay(s, c, LastSlot(s, c, b));
    forall t | IsSlot(s, c, t) && t <= b ensures t <= LastSlot(s, c, b) {
      SlotHasDay(s, c, t);
    }
  }

  /** A slot is its own next and last send time. Until the next slot has passed it stays the answer:
      nothing a base in between could change. */
  lemma NextIsStable(s: Settings, c: int, b: int, b': int)
    requires Accepted(s)
    requires b <= b'
    ensures NextSlot(s, c, b) <= NextSlot(s, c, b')
    ensures b' <= NextSlot(s, c, b) <==> NextSlot(s, c, b') == NextSlot(s, c, b)
    ensures LastSlot(s, c, b) <= LastSlot(s, c, b')
    ensures b >= LastSlot(s, c, b') <==> LastSlot(s, c, b') == LastSlot(s, c, b)
  {
    hide *;
    NextIsLeastSlot(s, c, b);
    NextIsLeastSlot(s, c, b');
    LastIsGreatestSlot(s, c, b);
    LastIsGreatestSlot(s, c, b');
  }

  lemma NextAndLastMeet(s: Settings, c: int, b: int)
    requires Accepted(s)
    ensures NextSlot(s, c, LastSlot(s, c, b)) == LastSlot(s, c, b)
    ensures LastSlot(s, c, NextSlot(s, c, b)) == NextSlot(s, c, b)
    ensures forall t :: IsSlot(s, c, t) && LastSlot(s, c, b) < t < NextSlot(s, c, b) ==> false
    ensures IsSlot(s, c, b) <==> NextSlot(s, c, b) == LastSlot(s, c, b)
  {
    hide *;
    NextIsLeastSlot(s, c, b);
    LastIsGreatestSlot(s, c, b);
    NextIsLeastSlot(s, c, LastSlot(s, c, b));
    LastIsGreatestSlot(s, c, NextSlot(s, c, b));
  }

  /** How far apart two sends that follow each other are, in days. */
  predicate GapFits(frequency: Frequency, days: int) {
    match frequency
    case Daily => days == 1
    case Weekly => days == 7
    case Monthly => 28 <= days <= 31
    case Unknown(_) => false
  }

  lemma MonthlyGap(s: Settings, y: int, m: int)
    requires 1 <= m <= 12
    ensures
      var after := MonthAfter(y, m);
      28 <= MonthlyDay(s.sendDay, after.0, after.1) - MonthlyDay(s.sendDay, y, m) <= 31
  {
    hide IsLeap;
    var after := MonthAfter(y, m);
    NextMonthStarts(y, m);
    SameMonth(after.0, after.1, 1);
    if m == 12 {
      assert m / 12 == 1 && m % 12 == 0;
    } else {
      assert m / 12 == 0 && m % 12 == m;
    }
    assert DayNumber(after.0, after.1, 1) == DayNumber(y, m, MonthLength(y, m) + 1);
  }

  lemma FollowingMonth(s: Settings, n: int) returns (next: int)
    requires s.frequency.Monthly? && ScheduledDay(s, n)
    ensures ScheduledDay(s, next) && n < next && GapFits(s.frequency, next - n)
    ensures forall k :: n < k && ScheduledDay(s, k) ==> next <= k
  {
    hide CivilOf, MonthlyDay, ScheduledDay;
    var d := CivilOf(n);
    var after := MonthAfter(d.year, d.month);
    next := MonthlyDay(s.sendDay, after.0, after.1);
    MonthlyDayIsScheduled(s, d.year, d.month);
    MonthlyDayIsScheduled(s, after.0, after.1);
    MonthlyGap(s, d.year, d.month);
    OneDayPerMonth(s, MonthlyDay(s.sendDay, d.year, d.month), n);
    forall k | n < k && ScheduledDay(s, k) ensures next <= k {
      OneDayPerMonth(s, n, k);
      OneDayPerMonth(s, k, next);
    }
  }

  /** The scheduled day that follows a scheduled day. */
  lemma FollowingDay(s: Settings, n: int) returns (next: int)
    requires Accepted(s) && ScheduledDay(s, n)
    ensures ScheduledDay(s, next) && n < next && GapFits(s.frequency, next - n)
    ensures forall k :: n < k && ScheduledDay(s, k) ==> next <= k
  {
    match s.frequency {
      case Daily => next := n + 1;
      case Weekly => next := n + 7;
      case Monthly => next := FollowingMonth(s, n);
    }
  }

  /** Sends that follow each other are 1 day, 7 days, or 28 to 31 days apart, to the nanosecond. */
  lemma ConsecutiveSends(s: Settings, c: int, t: int) returns (days: int)
    requires Accepted(s) && IsSlot(s, c, t)
    ensures NextSlot(s, c, t + 1) == t + days * DAY
    ensures GapFits(s.frequency, days)
  {
    hide *;
    SlotHasDay(s, c, t);
    var n :| ScheduledDay(s, n) && t == SlotOn(s, c, n);
    var next := FollowingDay(s, n);
    days := next - n;
    SlotsAscend(s, c, n, next);
    var r := NextSlot(s, c, t + 1);
    NextIsLeastSlot(s, c, t + 1);
    SlotHasDay(s, c, r);
    var k :| ScheduledDay(s, k) && r == SlotOn(s, c, k);
    SlotsAscend(s, c, n, k);
    SlotsAscend(s, c, k, next);
    SlotHasDay(s, c, SlotOn(s, c, next));
  }

  /** A create or edit request is refused exactly for a weekly send day that is not 0 to 6, a monthly one that
      is not 1 to 31, an unknown frequency or an unknown zone. Otherwise the row gets the send day asked for,
      0 if none was, and its next send time is the one of that schedule: in a fixed-offset zone, the first
      slot from now on. */
  lemma RequestsGetTheFirstSlot(frequency: Frequency, sendDay: Option<int>, hour: int, minute: int,
                                location: Option<Zone>, now: int)
    requires sendDay.Some? ==> 0 <= sendDay.value
    requires 0 <= hour < 24 && 0 <= minute < 60
    ensures
      var r := ComputeSendSchedule(frequency, sendDay, hour, minute, location, now);
      var s := Settings(frequency, if sendDay.Some? then sendDay.value else 0, hour, minute);
      && (r.Success? <==>
            && location.Some? && !frequency.Unknown?
            && (frequency.Weekly? ==> sendDay.Some? && sendDay.value <= 6)
            && (frequency.Monthly? ==> sendDay.Some? && 1 <= sendDay.value <= 31))
      && (r.Success? ==>
            && Accepted(s) && r.value.0 == s.sendDay && r.value.1 == NextIn(location.value, s, now)
            && forall c :: location == Some(FixedZone(c)) ==>
                 && IsSlot(s, c, r.value.1) && now <= r.value.1
                 && forall t :: IsSlot(s, c, t) && now <= t ==> r.value.1 <= t)
  {
    hide ComputeNextSendTime, IsSlot, FixedZone;
    var day := if sendDay.Some? then sendDay.value else 0;
    var s := Settings(frequency, day, hour, minute);
    FailuresAreBadInputs(s, location, now);
    forall c | Accepted(s) && location == Some(FixedZone(c))
      ensures IsSlot(s, c, NextSlot(s, c, now)) && now <= NextSlot(s, c, now)
      ensures forall t :: IsSlot(s, c, t) && now <= t ==> NextSlot(s, c, now) <= t
    {
      NextIsLeastSlot(s, c, now);
    }
  }

  lemma FailuresAreBadInputs(s: Settings, location: Option<Zone>, now: int)
    ensures ComputeNextSendTime(s, location, now).Failure? <==> location.None? || s.frequency.Unknown?
  {
    hide CivilOf, DateIn, AddDays;
  }

  /** Weekdays count from Sunday and follow each other; 10 March 2026 was a Tuesday. */
  lemma WeekdaysFollow(day: int)
    ensures Weekday(DayNumber(2026, 3, 10)) == 2
    ensures Weekday(day + 1) == if Weekday(day) == 6 then 0 else Weekday(day) + 1
  {
  }
}
