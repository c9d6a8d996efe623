/** When the next send time stays ahead of its base, for all schedules and all bases of one date.

West of UTC a gap resolves backwards, so a wall-clock time just after midnight can fall back to the date
before. `NextStaysAheadExactlyWhen` says that this and only this puts a next send time into the past.
*/
module FallingBack {
  import opened Calendar
  import opened Durations
  import opened Outcomes
  import opened Schedule
  import opened Zones

  ghost predicate NextStaysAhead(z: Zone, day: int) {
    forall s, b :: Accepted(s) && LocalDay(z, b) == day ==> b <= NextIn(z, s, b)
  }

  /** Around date `day`, offsets are whole minutes and change on whole minutes. */
  ghost predicate MinuteGrained(z: Zone, day: int) {
    forall t :: Around(day, t) ==> z.offset(t) % MINUTE == 0 && z.offset(t) == z.offset(t - t % MINUTE)
  }

  /** A wall-clock time that exists. */
  predicate Shown(z: Zone, wall: int) {
    LocalTime(z, Resolve(z, wall)) == wall
  }

  /** What falls back tomorrow exists today, and what today's falls back to exists again today. */
  ghost predicate GapsStandApart(z: Zone, day: int) {
    forall wall :: wall % MINUTE == 0 && FallsBack(z, wall) ==>
      && (wall / DAY == day + 1 ==> Shown(z, wall - DAY))
      && (wall / DAY == day ==> Shown(z, LocalTime(z, Resolve(z, wall)) + DAY))
  }

  predicate OnTheMinute(z: Zone, t: int) {
    t % MINUTE == 0 && LocalClock(z, t) % MINUTE == 0
  }

  lemma WholeMinutes(a: int, b: int)
    requires a % MINUTE == 0 && b % MINUTE == 0
    ensures (a - b) % MINUTE == 0 && (a + b) % MINUTE == 0
  {
    DivisionUnique(a - b, MINUTE, a / MINUTE - b / MINUTE, 0);
    DivisionUnique(a + b, MINUTE, a / MINUTE + b / MINUTE, 0);
  }

  lemma ClockOfWholeMinutes(wall: int)
    requires wall % MINUTE == 0
    ensures wall % DAY % MINUTE == 0
  {
    DivisionUnique(wall % DAY, MINUTE, wall / MINUTE - 1440 * (wall / DAY), 0);
  }

  lemma OffsetsOfTheMinute(z: Zone, day: int, t: int)
    requires MinuteGrained(z, day) && Around(day, t)
    ensures z.offset(t) % MINUTE == 0 && z.offset(t) == z.offset(t - t % MINUTE)
  {
  }

  lemma ResolveOnTheMinute(z: Zone, day: int, wall: int)
    requires Steady(z, day) && MinuteGrained(z, day)
    requires day - 2 <= wall / DAY <= day + 8 && wall % MINUTE == 0
    ensures OnTheMinute(z, Resolve(z, wall))
  {
    hide Steady, MinuteGrained, LocalDay;
    var guess, t := wall - z.offset(wall), Resolve(z, wall);
    Lands(z, day, wall);
    OffsetsOfTheMinute(z, day, guess);
    OffsetsOfTheMinute(z, day, t);
    WholeMinutes(wall, z.offset(guess));
    WholeMinutes(t, z.offset(t));
    ClockOfWholeMinutes(LocalTime(z, t));
  }

  lemma MinuteOf(wall: int)
    ensures
      var minute := wall - wall % MINUTE;
      minute % MINUTE == 0 && minute / DAY == wall / DAY && minute <= wall
  {
    DivisionUnique(wall - wall % MINUTE, MINUTE, wall / MINUTE, 0);
    MinuteOfDay(wall);
    DivisionUnique(wall - wall % MINUTE, DAY, wall / DAY, wall % DAY - wall % MINUTE);
  }

  lemma SameRemainder(wall: int, offset: int)
    requires offset % MINUTE == 0
    ensures (wall - offset) % MINUTE == wall % MINUTE
  {
    DivisionUnique(wall - offset, MINUTE, wall / MINUTE - offset / MINUTE, wall % MINUTE);
  }

  /** A wall-clock time resolves as its whole minute does. */
  lemma MinuteResolves(z: Zone, day: int, wall: int)
    requires Steady(z, day) && MinuteGrained(z, day) && day - 2 <= wall / DAY <= day + 8
    ensures Resolve(z, wall - wall % MINUTE) == Resolve(z, wall) - wall % MINUTE
  {
    hide Steady, MinuteGrained;
    Lands(z, day, wall);
    OffsetsOfTheMinute(z, day, wall);
    SameRemainder(wall, z.offset(wall));
    OffsetsOfTheMinute(z, day, wall - z.offset(wall));
  }

  /** A wall-clock time that falls back does so with its whole minute. */
  lemma MinuteFallsBack(z: Zone, day: int, wall: int)
    requires Steady(z, day) && MinuteGrained(z, day)
    requires day <= wall / DAY <= day + 1 && FallsBack(z, wall)
    ensures
      var minute := wall - wall % MINUTE;
      minute % MINUTE == 0 && minute / DAY == wall / DAY && FallsBack(z, minute)
  {
    hide Steady, MinuteGrained, Resolve, LocalDay;
    var minute := wall - wall % MINUTE;
    MinuteOf(wall);
    MinuteResolves(z, day, wall);
    Lands(z, day, wall);
    Lands(z, day, minute);
    SteadyInOrder(z, day);
    InOrder(z, day, Resolve(z, minute), Resolve(z, wall));
  }

  lemma SteadyInOrder(z: Zone, day: int)
    requires Steady(z, day)
    ensures DatesInOrder(z, day) && OffsetsClose(z, day) && OffsetsBounded(z)
  {
  }

  lemma MinuteOfDay(wall: int)
    ensures wall % MINUTE <= wall % DAY
  {
    var q := wall % DAY / MINUTE;
    DivisionUnique(wall, MINUTE, 1440 * (wall / DAY) + q, wall % DAY % MINUTE);
  }

  function AtClock(frequency: Frequency, sendDay: int, clock: int): Settings {
    Settings(frequency, sendDay, clock / HOUR, clock % HOUR / MINUTE)
  }

  lemma ClockIsAccepted(frequency: Frequency, sendDay: int, clock: int)
    requires 0 <= clock < DAY && clock % MINUTE == 0 && 0 <= sendDay && !frequency.Unknown?
    ensures Accepted(AtClock(frequency, sendDay, clock)) && SendClock(AtClock(frequency, sendDay, clock)) == clock
  {
    var minutes := clock / MINUTE;
    assert clock == MINUTE * minutes;
    assert clock / HOUR == minutes / 60;
    DivisionUnique(clock % HOUR, MINUTE, minutes % 60, 0) by {
      DivisionUnique(clock, HOUR, minutes / 60, MINUTE * (minutes % 60));
    }
  }

  function DailyAt(clock: int): Settings {
    AtClock(Daily, 0, clock)
  }

  lemma WholeWall(wall: int)
    requires wall % MINUTE == 0
    ensures Accepted(DailyAt(wall % DAY)) && SendClock(DailyAt(wall % DAY)) == wall % DAY
    ensures (wall - DAY) / DAY == wall / DAY - 1 && (wall - DAY) % DAY == wall % DAY
    ensures (wall + DAY) / DAY == wall / DAY + 1 && (wall + DAY) % DAY == wall % DAY
    ensures wall == wall / DAY * DAY + wall % DAY
  {
    ClockOfWholeMinutes(wall);
    ClockIsAccepted(Daily, 0, wall % DAY);
    DivisionUnique(wall - DAY, DAY, wall / DAY - 1, wall % DAY);
    DivisionUnique(wall + DAY, DAY, wall / DAY + 1, wall % DAY);
  }

  /** With today's candidate over, a daily schedule goes to the same wall-clock time tomorrow. */
  lemma DailyMovesOn(z: Zone, b: int, wall: int)
    requires wall % MINUTE == 0
    requires LocalDay(z, b) == (wall - DAY) / DAY
    requires Shown(z, wall - DAY) && Resolve(z, wall - DAY) < b
    ensures Accepted(DailyAt(wall % DAY))
    ensures ComputeNextSendTime(DailyAt(wall % DAY), Some(z), b) == Success(Resolve(z, wall))
  {
    hide ComputeNextSendTime, ComputeLastSendTime, AddDays, Resolve, SendClock, Accepted;
    WholeWall(wall);
    DailyResolves(z, DailyAt(wall % DAY), b);
    AddDaysResolves(z, Resolve(z, wall - DAY), 1);
  }

  /** With today's candidate still ahead, the last send was at the same wall-clock time yesterday. */
  lemma DailyMovesBack(z: Zone, b: int, wall: int)
    requires wall % MINUTE == 0
    requires LocalDay(z, b) == (wall + DAY) / DAY
    requires Shown(z, wall + DAY) && b < Resolve(z, wall + DAY)
    ensures Accepted(DailyAt(wall % DAY))
    ensures ComputeLastSendTime(DailyAt(wall % DAY), Some(z), b) == Success(Resolve(z, wall))
  {
    hide ComputeNextSendTime, ComputeLastSendTime, AddDays, Resolve, SendClock, Accepted;
    WholeWall(wall);
    DailyResolves(z, DailyAt(wall % DAY), b);
    AddDaysResolves(z, Resolve(z, wall + DAY), -1);
  }

  /** One nanosecond past an instant on the minute is still on the same date. */
  lemma NextNanosecond(z: Zone, day: int, t: int)
    requires MinuteGrained(z, day) && Around(day, t + 1) && OnTheMinute(z, t)
    ensures LocalDay(z, t + 1) == LocalDay(z, t)
  {
    DivisionUnique(t + 1, MINUTE, t / MINUTE, 1);
    assert z.offset(t + 1) == z.offset(t);
    var clock := LocalClock(z, t);
    assert clock == MINUTE * (clock / MINUTE) && clock / MINUTE < 1440;
    DivisionUnique(LocalTime(z, t) + 1, DAY, LocalDay(z, t), clock + 1);
  }

  /** A time of tomorrow that falls back: once today's has passed, the next send is over before it is due. */
  lemma TomorrowFallsBack(z: Zone, day: int, wall: int)
    requires Steady(z, day) && MinuteGrained(z, day) && GapsStandApart(z, day)
    requires wall % MINUTE == 0 && wall / DAY == day + 1 && FallsBack(z, wall)
    ensures !NextStaysAhead(z, day)
  {
    hide ComputeNextSendTime, ComputeLastSendTime, LocalDay, LocalClock, DailyAt, Accepted, Resolve,
         MinuteGrained, Steady, GapsStandApart;
    var t := Resolve(z, wall);
    assert Shown(z, wall - DAY) by {
      FallsApart(z, day, wall);
    }
    Lands(z, day, wall);
    ResolveOnTheMinute(z, day, wall);
    assert Around(day, t + 1);
    NextNanosecond(z, day, t);
    WholeWall(wall);
    DayBeforeIsEarlier(z, day, wall);
    DailyMovesOn(z, t + 1, wall);
    assert t + 1 > NextIn(z, DailyAt(wall % DAY), t + 1);
  }

  lemma FallsApart(z: Zone, day: int, wall: int)
    requires GapsStandApart(z, day) && wall % MINUTE == 0 && FallsBack(z, wall)
    ensures wall / DAY == day + 1 ==> Shown(z, wall - DAY)
    ensures wall / DAY == day ==> Shown(z, LocalTime(z, Resolve(z, wall)) + DAY)
  {
  }

  lemma DayBeforeIsEarlier(z: Zone, day: int, wall: int)
    requires Steady(z, day) && day - 1 <= wall / DAY <= day + 8
    ensures Resolve(z, wall - DAY) <= Resolve(z, wall)
  {
    hide DatesInOrder;
    DivisionUnique(wall - DAY, DAY, wall / DAY - 1, wall % DAY);
    Lands(z, day, wall);
    Lands(z, day, wall - DAY);
  }

  lemma ShownOn(z: Zone, wall: int)
    requires Shown(z, wall)
    ensures LocalDay(z, Resolve(z, wall)) == wall / DAY && LocalClock(z, Resolve(z, wall)) == wall % DAY
  {
  }

  /** What today shows again of a time that fell back to yesterday. */
  lemma FallenClock(z: Zone, day: int, wall: int)
    requires Steady(z, day) && MinuteGrained(z, day) && GapsStandApart(z, day)
    requires wall % MINUTE == 0 && wall / DAY == day && FallsBack(z, wall)
    ensures
      var again := day * DAY + LocalClock(z, Resolve(z, wall));
      && LocalDay(z, Resolve(z, wall)) == day - 1 && Around(day, Resolve(z, wall))
      && again / DAY == day && again % MINUTE == 0 && Shown(z, again)
  {
    hide LocalDay, LocalClock, LocalTime, Resolve, MinuteGrained, Steady, GapsStandApart, Shown;
    var t := Resolve(z, wall);
    Lands(z, day, wall);
    ResolveOnTheMinute(z, day, wall);
    LocalParts(z, t);
    WallOn(day, LocalClock(z, t));
    WholeMinutes(LocalClock(z, t), day * DAY) by {
      DivisionUnique(day * DAY, MINUTE, 1440 * day, 0);
    }
    FallsApart(z, day, wall);
  }

  /** The clock a time fell back to, once today's clock has shown it. */
  lemma ShownAgain(z: Zone, day: int, wall: int)
    requires Steady(z, day) && MinuteGrained(z, day) && GapsStandApart(z, day)
    requires wall % MINUTE == 0 && wall / DAY == day && FallsBack(z, wall)
    ensures
      var t := Resolve(z, wall);
      var b := Resolve(z, day * DAY + LocalClock(z, t)) + 1;
      LocalDay(z, t) == day - 1 && LocalDay(z, b) == day && t < b
  {
    hide LocalDay, LocalClock, Resolve, MinuteGrained, Steady, GapsStandApart, Shown, OnTheMinute;
    var t := Resolve(z, wall);
    var again := day * DAY + LocalClock(z, t);
    FallenClock(z, day, wall);
    Lands(z, day, again);
    ResolveOnTheMinute(z, day, again);
    ShownOn(z, again);
    NextNanosecond(z, day, Resolve(z, again)) by {
      ResolveNear(z, again) by { SteadyInOrder(z, day); }
    }
    SteadyInOrder(z, day);
    InOrder(z, day, t, Resolve(z, again));
  }

  /** A time of today that falls back to yesterday: it is over all day, and the next one carries the clock
      it fell back to, which is over once today's clock has shown that. */
  lemma TodayFallsBack(z: Zone, day: int, wall: int)
    requires Steady(z, day) && MinuteGrained(z, day) && GapsStandApart(z, day)
    requires wall % MINUTE == 0 && wall / DAY == day && FallsBack(z, wall)
    ensures !NextStaysAhead(z, day)
  {
    hide *;
    ShownAgain(z, day, wall);
    DailyCarriesTheClock(z, day, wall);
  }

  /** On a date whose candidate fell back, a daily schedule goes to the clock the candidate shows. */
  lemma DailyCarriesTheClock(z: Zone, day: int, wall: int)
    requires wall % MINUTE == 0 && wall / DAY == day
    requires
      var t := Resolve(z, wall);
      var b := Resolve(z, day * DAY + LocalClock(z, t)) + 1;
      LocalDay(z, t) == day - 1 && LocalDay(z, b) == day && t < b
    ensures !NextStaysAhead(z, day)
  {
    hide ComputeNextSendTime, ComputeLastSendTime, LocalDay, LocalClock, Accepted, Resolve, AddDays, SendClock;
    var t := Resolve(z, wall);
    var b := Resolve(z, day * DAY + LocalClock(z, t)) + 1;
    WholeWall(wall);
    DailyResolves(z, DailyAt(wall % DAY), b);
    AddDaysResolves(z, t, 1);
    assert b > NextIn(z, DailyAt(wall % DAY), b);
  }

  /** The next send time is never before its base, for every schedule and every base on date `day`, exactly
      if no wall-clock time of that date or the next falls back to an earlier date. */
  lemma NextStaysAheadExactlyWhen(z: Zone, day: int)
    requires Steady(z, day) && MinuteGrained(z, day) && GapsStandApart(z, day)
    ensures NextStaysAhead(z, day) <==> NoneFallsBack(z, day) && NoneFallsBack(z, day + 1)
  {
    hide NextIn, Resolve, LocalDay, Steady, MinuteGrained, GapsStandApart, FallsBack;
    if NoneFallsBack(z, day) && NoneFallsBack(z, day + 1) {
      forall s, b | Accepted(s) && LocalDay(z, b) == day ensures b <= NextIn(z, s, b) {
        NextNotBeforeBase(z, s, b);
      }
    } else {
      var wall :| day <= wall / DAY <= day + 1 && FallsBack(z, wall);
      MinuteFallsBack(z, day, wall);
      if wall / DAY == day {
        TodayFallsBack(z, day, wall - wall % MINUTE);
      } else {
        TomorrowFallsBack(z, day, wall - wall % MINUTE);
      }
    }
  }
}
