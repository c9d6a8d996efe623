/** The schedule in zones whose offset changes.

A send time that lies before its base leaves the newsletter due on every tick, so the base has to
stay between the last and the next send time. That is a matter of one date and its neighbours: on a date
around which civil dates run forwards it holds if no wall-clock time resolves to another date. A gap at
midnight breaks it, and `NextStaysAheadExactlyWhen` says that nothing else does. What the zone did long
before or will do long after plays no part.
*/
module Zones {
  import opened Calendar
  import opened Durations
  import opened Outcomes
  import opened Schedule

  /** The instants that computing a send time from a base on date `day` can turn on. */
  predicate Around(day: int, t: int) {
    (day - 3) * DAY <= t < (day + 10) * DAY
  }

  ghost predicate OffsetsBounded(z: Zone) {
    forall t :: -DAY <= z.offset(t) <= DAY
  }

  ghost predicate DatesInOrder(z: Zone, day: int) {
    forall t, u :: Around(day, t) && Around(day, u) && t <= u ==> LocalDay(z, t) <= LocalDay(z, u)
  }

  ghost predicate OffsetsClose(z: Zone, day: int) {
    forall t, u :: Around(day, t) && Around(day, u) ==> z.offset(t) - z.offset(u) <= DAY
  }

  /** Around date `day`, civil dates run forwards and the clock never jumps by more than a day. */
  ghost predicate Steady(z: Zone, day: int) {
    OffsetsBounded(z) && DatesInOrder(z, day) && OffsetsClose(z, day)
  }

  predicate FallsBack(z: Zone, wall: int) {
    LocalDay(z, Resolve(z, wall)) < wall / DAY
  }

  predicate MovesOn(z: Zone, wall: int) {
    wall / DAY < LocalDay(z, Resolve(z, wall))
  }

  /** No wall-clock time of date `day` resolves to an instant on an earlier date. */
  ghost predicate NoneFallsBack(z: Zone, day: int) {
    forall wall :: wall / DAY == day ==> !FallsBack(z, wall)
  }

  ghost predicate NoneMovesOn(z: Zone, day: int) {
    forall wall :: wall / DAY == day ==> !MovesOn(z, wall)
  }

  // ------------------------------------------------------------- where times land

  lemma LocalParts(z: Zone, t: int)
    ensures LocalTime(z, t) == LocalDay(z, t) * DAY + LocalClock(z, t)
    ensures 0 <= LocalClock(z, t) < DAY
  {
  }

  lemma SendClockInADay(s: Settings)
    requires Accepted(s)
    ensures 0 <= SendClock(s) < DAY && SendClock(s) % MINUTE == 0
  {
    DivisionUnique(SendClock(s), MINUTE, 60 * s.sendHour + s.sendMinute, 0);
  }

  lemma BaseAround(z: Zone, b: int)
    requires OffsetsBounded(z)
    ensures (LocalDay(z, b) - 1) * DAY <= b < (LocalDay(z, b) + 2) * DAY
    ensures Around(LocalDay(z, b), b)
  {
    LocalParts(z, b);
    assert -DAY <= z.offset(b) <= DAY;
  }

  lemma ResolveNear(z: Zone, wall: int)
    requires OffsetsBounded(z)
    ensures wall - DAY <= wall - z.offset(wall) <= wall + DAY
    ensures wall - DAY <= Resolve(z, wall) <= wall + DAY
  {
    assert -DAY <= z.offset(wall) <= DAY;
    assert -DAY <= z.offset(wall - z.offset(wall)) <= DAY;
  }

  lemma Close(z: Zone, day: int, t: int, u: int)
    requires OffsetsClose(z, day) && Around(day, t) && Around(day, u)
    ensures -DAY <= z.offset(t) - z.offset(u) <= DAY
  {
    assert z.offset(u) - z.offset(t) <= DAY;
  }

  /** A wall-clock time near `day` lands near `day`, a day off at most. */
  lemma Lands(z: Zone, day: int, wall: int)
    requires Steady(z, day) && day - 2 <= wall / DAY <= day + 8
    ensures Around(day, wall) && Around(day, wall - z.offset(wall)) && Around(day, Resolve(z, wall))
    ensures wall - DAY <= LocalTime(z, Resolve(z, wall)) <= wall + DAY
    ensures wall / DAY - 1 <= LocalDay(z, Resolve(z, wall)) <= wall / DAY + 1
  {
    hide DatesInOrder, OffsetsBounded, OffsetsClose;
    ResolveNear(z, wall);
    var guess, t := wall - z.offset(wall), Resolve(z, wall);
    Close(z, day, guess, t);
    DayOff(wall, LocalTime(z, t));
  }

  lemma DayOff(wall: int, other: int)
    requires wall - DAY <= other <= wall + DAY
    ensures wall / DAY - 1 <= other / DAY <= wall / DAY + 1
  {
  }

  lemma InOrder(z: Zone, day: int, t: int, u: int)
    requires DatesInOrder(z, day) && Around(day, t) && Around(day, u)
    ensures LocalDay(z, t) < LocalDay(z, u) ==> t < u
    ensures t <= u ==> LocalDay(z, t) <= LocalDay(z, u)
  {
  }

  /** A wall-clock time of a later date is later than the base, unless one of tomorrow falls back. */
  lemma AfterBase(z: Zone, b: int, wall: int)
    requires Steady(z, LocalDay(z, b)) && NoneFallsBack(z, LocalDay(z, b) + 1)
    requires LocalDay(z, b) < wall / DAY
    ensures b < Resolve(z, wall)
  {
    hide LocalDay, DatesInOrder, OffsetsClose;
    var day := LocalDay(z, b);
    BaseAround(z, b);
    ResolveNear(z, wall);
    if wall / DAY <= day + 2 {
      Lands(z, day, wall);
      assert wall / DAY == day + 1 ==> !FallsBack(z, wall);
      InOrder(z, day, b, Resolve(z, wall));
    }
  }

  lemma BeforeBase(z: Zone, b: int, wall: int)
    requires Steady(z, LocalDay(z, b)) && NoneMovesOn(z, LocalDay(z, b) - 1)
    requires wall / DAY < LocalDay(z, b)
    ensures Resolve(z, wall) < b
  {
    hide LocalDay, DatesInOrder, OffsetsClose;
    var day := LocalDay(z, b);
    BaseAround(z, b);
    ResolveNear(z, wall);
    if wall / DAY >= day - 2 {
      Lands(z, day, wall);
      assert wall / DAY == day - 1 ==> !MovesOn(z, wall);
      InOrder(z, day, Resolve(z, wall), b);
    }
  }

  // --------------------------------------- both functions in terms of wall-clock times

  lemma AddDaysResolves(z: Zone, t: int, n: int)
    ensures AddDays(z, t, n) == Resolve(z, (LocalDay(z, t) + n) * DAY + LocalClock(z, t))
    ensures ((LocalDay(z, t) + n) * DAY + LocalClock(z, t)) / DAY == LocalDay(z, t) + n
  {
    hide CivilOf, Resolve, NormalizedDayNumber, LocalDay, LocalClock;
    var d := CivilOf(LocalDay(z, t));
    SameMonth(d.year, d.month, d.day + n);
    LocalParts(z, t);
    WallOn(LocalDay(z, t) + n, LocalClock(z, t));
  }

  /** Today's time of day. */
  function Today(z: Zone, s: Settings, b: int): int {
    LocalDay(z, b) * DAY + SendClock(s)
  }

  lemma DailyResolves(z: Zone, s: Settings, b: int)
    requires s.frequency.Daily?
    ensures
      var candidate := Resolve(z, Today(z, s, b));
      && ComputeNextSendTime(s, Some(z), b) == Success(if candidate < b then AddDays(z, candidate, 1) else candidate)
      && ComputeLastSendTime(s, Some(z), b) == Success(if candidate > b then AddDays(z, candidate, -1) else candidate)
  {
    hide CivilOf, Resolve, NormalizedDayNumber, LocalDay, AddDays, SendClock;
    var local := CivilOf(LocalDay(z, b));
    SameMonth(local.year, local.month, local.day);
  }

  function DaysUntil(s: Settings, day: int): int {
    GoRemainder(s.sendDay - Weekday(day) + 7, 7)
  }

  lemma WeeklyResolves(z: Zone, s: Settings, b: int)
    requires s.frequency.Weekly?
    ensures
      var today := Resolve(z, Today(z, s, b));
      var candidate := AddDays(z, today, DaysUntil(s, LocalDay(z, today)));
      && ComputeNextSendTime(s, Some(z), b) == Success(if candidate < b then AddDays(z, candidate, 7) else candidate)
      && ComputeLastSendTime(s, Some(z), b) == Success(if candidate > b then AddDays(z, candidate, -7) else candidate)
  {
    hide CivilOf, Resolve, NormalizedDayNumber, LocalDay, AddDays, SendClock, GoRemainder;
    var local := CivilOf(LocalDay(z, b));
    SameMonth(local.year, local.month, local.day);
  }

  lemma WeekdayDistance(s: Settings, day: int)
    requires 0 <= s.sendDay
    ensures 0 <= DaysUntil(s, day) < 7
  {
  }

  /** The wall-clock time of a month's send day. */
  function MonthlyWall(s: Settings, y: int, m: int): int
    requires 1 <= m <= 12
  {
    DayNumber(y, m, ClampSendDayToMonth(y, m, s.sendDay)) * DAY + SendClock(s)
  }

  lemma MonthlyWallResolves(z: Zone, s: Settings, y: int, m: int)
    requires 1 <= m <= 12
    ensures DateIn(z, y, m, ClampSendDayToMonth(y, m, s.sendDay), SendClock(s)) == Resolve(z, MonthlyWall(s, y, m))
  {
    hide ClampSendDayToMonth, Resolve, SendClock, NormalizedDayNumber;
    SameMonth(y, m, ClampSendDayToMonth(y, m, s.sendDay));
  }

  lemma MonthlyWallOn(s: Settings, y: int, m: int, d: Date)
    requires Accepted(s) && 1 <= m <= 12 && ValidDate(d)
    ensures 12 * y + m > 12 * d.year + d.month ==> MonthlyWall(s, y, m) / DAY > DayNumber(d.year, d.month, d.day)
    ensures 12 * y + m < 12 * d.year + d.month ==> MonthlyWall(s, y, m) / DAY < DayNumber(d.year, d.month, d.day)
    ensures MonthlyWall(s, y, m) % MINUTE == 0
  {
    hide SendClock, CivilOf, NormalizedDayNumber;
    var day := ClampSendDayToMonth(y, m, s.sendDay);
    DayZeroOfNextMonth(y, m);
    SendClockInADay(s);
    WallOn(DayNumber(y, m, day), SendClock(s));
    DivisionUnique(MonthlyWall(s, y, m), MINUTE, 1440 * DayNumber(y, m, day) + SendClock(s) / MINUTE, 0);
    if 12 * y + m > 12 * d.year + d.month {
      DayNumberAscends(d, Date(y, m, day));
    } else if 12 * y + m < 12 * d.year + d.month {
      DayNumberAscends(Date(y, m, day), d);
    }
  }

  /** The monthly branches: this month's time, or that of a month that lies wholly after or before today. */
  lemma MonthlyResolves(z: Zone, s: Settings, b: int) returns (here: int, after: int, before: int)
    requires Accepted(s) && s.frequency.Monthly?
    ensures ComputeNextSendTime(s, Some(z), b)
         == Success(if Resolve(z, here) < b then Resolve(z, after) else Resolve(z, here))
    ensures ComputeLastSendTime(s, Some(z), b)
         == Success(if Resolve(z, here) > b then Resolve(z, before) else Resolve(z, here))
    ensures before / DAY < LocalDay(z, b) < after / DAY
    ensures before % MINUTE == 0
  {
    hide CivilOf, Resolve, DateIn, LocalDay, SendClock, ClampSendDayToMonth, MonthlyWall;
    var local := CivilOf(LocalDay(z, b));
    var (ny, nm) := if local.month + 1 > 12 then (local.year + 1, 1) else (local.year, local.month + 1);
    var (py, pm) := if local.month - 1 < 1 then (local.year - 1, 12) else (local.year, local.month - 1);
    MonthlyWallResolves(z, s, local.year, local.month);
    MonthlyWallResolves(z, s, ny, nm);
    MonthlyWallResolves(z, s, py, pm);
    MonthlyWallOn(s, ny, nm, local);
    MonthlyWallOn(s, py, pm, local);
    here := MonthlyWall(s, local.year, local.month);
    after := MonthlyWall(s, ny, nm);
    before := MonthlyWall(s, py, pm);
  }

  // ------------------------------------------------------------------- the bracket

  lemma TodayOn(z: Zone, s: Settings, b: int)
    requires Accepted(s)
    ensures Today(z, s, b) / DAY == LocalDay(z, b) && Today(z, s, b) % DAY == SendClock(s)
    ensures Today(z, s, b) % MINUTE == 0
  {
    hide LocalDay, SendClock;
    SendClockInADay(s);
    WallOn(LocalDay(z, b), SendClock(s));
    DivisionUnique(Today(z, s, b), MINUTE, 1440 * LocalDay(z, b) + SendClock(s) / MINUTE, 0);
  }

  /** The next send time is never before a base on a date whose wall-clock times, and the next date's, do
      not fall back to an earlier date. */
  lemma NextNotBeforeBase(z: Zone, s: Settings, b: int)
    requires Steady(z, LocalDay(z, b))
    requires NoneFallsBack(z, LocalDay(z, b)) && NoneFallsBack(z, LocalDay(z, b) + 1)
    requires Accepted(s)
    ensures b <= NextIn(z, s, b)
  {
    hide ComputeNextSendTime, ComputeLastSendTime, AddDays, LocalDay, LocalClock, Resolve, Steady, NoneFallsBack, Today,
         DaysUntil, SendClock;
    var day := LocalDay(z, b);
    if s.frequency.Monthly? {
      var here, after, before := MonthlyResolves(z, s, b);
      AfterBase(z, b, after);
    } else {
      var today := Resolve(z, Today(z, s, b));
      TodayOn(z, s, b);
      StaysOn(z, day, Today(z, s, b));
      if s.frequency.Daily? {
        DailyResolves(z, s, b);
        AddDaysResolves(z, today, 1);
        if today < b {
          AfterBase(z, b, (LocalDay(z, today) + 1) * DAY + LocalClock(z, today));
        }
      } else {
        WeeklyResolves(z, s, b);
        var daysUntil := DaysUntil(s, LocalDay(z, today));
        WeekdayDistance(s, LocalDay(z, today));
        WeeklyNotBeforeBase(z, b, today, daysUntil);
      }
    }
  }

  lemma StaysOn(z: Zone, day: int, wall: int)
    requires NoneFallsBack(z, day) && wall / DAY == day
    ensures day <= LocalDay(z, Resolve(z, wall))
  {
    assert !FallsBack(z, wall);
  }

  lemma WeeklyNotBeforeBase(z: Zone, b: int, today: int, daysUntil: int)
    requires Steady(z, LocalDay(z, b))
    requires NoneFallsBack(z, LocalDay(z, b)) && NoneFallsBack(z, LocalDay(z, b) + 1)
    requires LocalDay(z, b) <= LocalDay(z, today) && 0 <= daysUntil < 7
    ensures
      var candidate := AddDays(z, today, daysUntil);
      b <= if candidate < b then AddDays(z, candidate, 7) else candidate
  {
    hide AddDays, LocalDay, LocalClock, Resolve, Steady, NoneFallsBack;
    var candidate := AddDays(z, today, daysUntil);
    var wall := (LocalDay(z, today) + daysUntil) * DAY + LocalClock(z, today);
    AddDaysResolves(z, today, daysUntil);
    AddDaysResolves(z, candidate, 7);
    if wall / DAY == LocalDay(z, b) {
      StaysOn(z, LocalDay(z, b), wall);
      AfterBase(z, b, (LocalDay(z, candidate) + 7) * DAY + LocalClock(z, candidate));
    } else {
      AfterBase(z, b, wall);
    }
  }

  /** The last send time is never after a base on a date whose wall-clock times, and those of the day before
      and of six days on, do not move on to a later date. */
  lemma LastNotAfterBase(z: Zone, s: Settings, b: int)
    requires Steady(z, LocalDay(z, b))
    requires NoneMovesOn(z, LocalDay(z, b) - 1) && NoneMovesOn(z, LocalDay(z, b)) && NoneMovesOn(z, LocalDay(z, b) + 6)
    requires Accepted(s)
    ensures LastIn(z, s, b) <= b
  {
    hide ComputeNextSendTime, ComputeLastSendTime, AddDays, LocalDay, LocalClock, Resolve, Steady, NoneMovesOn, Today,
         DaysUntil, SendClock;
    var day := LocalDay(z, b);
    if s.frequency.Monthly? {
      var here, after, before := MonthlyResolves(z, s, b);
      BeforeBase(z, b, before);
    } else {
      var today := Resolve(z, Today(z, s, b));
      TodayOn(z, s, b);
      StaysUpTo(z, day, Today(z, s, b));
      if s.frequency.Daily? {
        DailyResolves(z, s, b);
        AddDaysResolves(z, today, -1);
        BeforeBase(z, b, (LocalDay(z, today) - 1) * DAY + LocalClock(z, today));
      } else {
        WeeklyResolves(z, s, b);
        var daysUntil := DaysUntil(s, LocalDay(z, today));
        WeekdayDistance(s, LocalDay(z, today));
        WeeklyNotAfterBase(z, b, Today(z, s, b), daysUntil);
      }
    }
  }

  lemma StaysUpTo(z: Zone, day: int, wall: int)
    requires NoneMovesOn(z, day) && wall / DAY == day
    ensures LocalDay(z, Resolve(z, wall)) <= day
  {
    assert !MovesOn(z, wall);
  }

  lemma WeeklyNotAfterBase(z: Zone, b: int, wall: int, daysUntil: int)
    requires Steady(z, LocalDay(z, b))
    requires NoneMovesOn(z, LocalDay(z, b) - 1) && NoneMovesOn(z, LocalDay(z, b)) && NoneMovesOn(z, LocalDay(z, b) + 6)
    requires wall / DAY == LocalDay(z, b) && 0 <= daysUntil < 7
    ensures
      var candidate := AddDays(z, Resolve(z, wall), daysUntil);
      (if candidate > b then AddDays(z, candidate, -7) else candidate) <= b
  {
    hide AddDays, LocalDay, LocalClock, Resolve, Steady, NoneMovesOn;
    var today := Resolve(z, wall);
    var candidate := AddDays(z, today, daysUntil);
    var later := (LocalDay(z, today) + daysUntil) * DAY + LocalClock(z, today);
    StaysUpTo(z, LocalDay(z, b), wall);
    Lands(z, LocalDay(z, b), wall);
    AddDaysResolves(z, today, daysUntil);
    AddDaysResolves(z, candidate, -7);
    if later / DAY == LocalDay(z, b) + 6 {
      StaysUpTo(z, LocalDay(z, b) + 6, later);
    } else {
      Lands(z, LocalDay(z, b), later);
    }
    BeforeBase(z, b, (LocalDay(z, candidate) - 7) * DAY + LocalClock(z, candidate));
  }

  /** The base lies between the last and the next send time. The clock a candidate carries to another
      day may have been shifted by a gap; that does not matter. */
  lemma SendTimesBracketTheBase(z: Zone, s: Settings, b: int)
    requires Steady(z, LocalDay(z, b)) && Accepted(s)
    requires NoneFallsBack(z, LocalDay(z, b)) && NoneFallsBack(z, LocalDay(z, b) + 1)
    requires NoneMovesOn(z, LocalDay(z, b) - 1) && NoneMovesOn(z, LocalDay(z, b)) && NoneMovesOn(z, LocalDay(z, b) + 6)
    ensures LastIn(z, s, b) <= b <= NextIn(z, s, b)
  {
    hide *;
    NextNotBeforeBase(z, s, b);
    LastNotAfterBase(z, s, b);
  }
}
