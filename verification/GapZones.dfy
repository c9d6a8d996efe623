/** Zones to try the theorems on: two that skip midnight and break the law, and one whose offset was once
an odd number of seconds and keeps it.
*/
module GapZones {
  import opened Calendar
  import opened Durations
  import opened Outcomes
  import opened Schedule
  import opened Zones
  import opened FallingBack
  import opened LateLandings

  /** One offset before the instant `change` and another from then on. */
  function ChangingZone(change: int, before: int, after: int): Zone {
    Zone((t: int) => if t < change then before else after)
  }

  lemma ForwardChangesAreSteady(change: int, before: int, after: int, day: int)
    requires -DAY <= before <= after <= DAY && after - before <= DAY
    ensures Steady(ChangingZone(change, before, after), day)
  {
    var z := ChangingZone(change, before, after);
    forall t, u | t <= u ensures LocalDay(z, t) <= LocalDay(z, u) {
      assert LocalTime(z, t) <= LocalTime(z, u);
    }
  }

  lemma WholeMinuteChanges(change: int, before: int, after: int, day: int)
    requires change % MINUTE == 0 && before % MINUTE == 0 && after % MINUTE == 0
    ensures MinuteGrained(ChangingZone(change, before, after), day)
  {
    forall t: int ensures t < change <==> t - t % MINUTE < change {
      assert t == MINUTE * (t / MINUTE) + t % MINUTE && change == MINUTE * (change / MINUTE);
    }
  }

  // ------------------------------------------------------------------- west of UTC

  /** UTC-5 until local midnight of day 100, when clocks go forward an hour. */
  function MidnightGapWest(): Zone {
    ChangingZone(100 * DAY + 5 * HOUR, -5 * HOUR, -4 * HOUR)
  }

  /** Such a zone: a daily 00:30 newsletter, at 23:45 on the evening before the change, gets a next
      send time a quarter of an hour ago. */
  lemma MidnightGapMakesNextPast()
    ensures
      var z := MidnightGapWest();
      var b := 99 * DAY + 23 * HOUR + 45 * MINUTE + 5 * HOUR;
      ComputeNextSendTime(DailyAt(30 * MINUTE), Some(z), b) == Success(b - 15 * MINUTE)
  {
    hide CivilOf, ComputeNextSendTime, DailyAt;
    var z := MidnightGapWest();
    var b := 99 * DAY + 23 * HOUR + 45 * MINUTE + 5 * HOUR;
    var wall := 100 * DAY + 30 * MINUTE;
    assert Resolve(z, wall) == b - 15 * MINUTE;
    assert Resolve(z, wall - DAY) == wall - DAY + 5 * HOUR;
    assert LocalTime(z, b) == 99 * DAY + 23 * HOUR + 45 * MINUTE;
    assert LocalDay(z, b) == 99 && (wall - DAY) / DAY == 99 && wall % DAY == 30 * MINUTE;
    DailyMovesOn(z, b, wall);
  }

  lemma WestFallsBack(wall: int)
    requires FallsBack(MidnightGapWest(), wall)
    ensures wall / DAY == 100
    ensures Shown(MidnightGapWest(), wall - DAY)
  {
  }

  /** It meets the hypotheses of `NextStaysAheadExactlyWhen` on the date before the change, and breaks the law. */
  lemma MidnightGapWestIsCovered()
    ensures
      var z := MidnightGapWest();
      && Steady(z, 99) && MinuteGrained(z, 99) && GapsStandApart(z, 99)
      && !NoneFallsBack(z, 100) && !NextStaysAhead(z, 99)
  {
    hide Steady, MinuteGrained, FallsBack, Shown, NextStaysAhead, MidnightGapWest, ChangingZone;
    var z := MidnightGapWest();
    WestIsSteady();
    forall wall | wall % MINUTE == 0 && FallsBack(z, wall) ensures wall / DAY == 100 && Shown(z, wall - DAY) {
      WestFallsBack(wall);
    }
    HalfPastMidnightFallsBack();
    NextStaysAheadExactlyWhen(z, 99);
  }

  lemma WestIsSteady()
    ensures Steady(MidnightGapWest(), 99) && MinuteGrained(MidnightGapWest(), 99)
  {
    hide Steady, MinuteGrained;
    ForwardChangesAreSteady(100 * DAY + 5 * HOUR, -5 * HOUR, -4 * HOUR, 99);
    WholeMinuteChanges(100 * DAY + 5 * HOUR, -5 * HOUR, -4 * HOUR, 99);
  }

  lemma HalfPastMidnightFallsBack()
    ensures
      var wall := 100 * DAY + 30 * MINUTE;
      wall / DAY == 100 && FallsBack(MidnightGapWest(), wall)
  {
    var wall := 100 * DAY + 30 * MINUTE;
    assert LocalTime(MidnightGapWest(), Resolve(MidnightGapWest(), wall)) == wall - HOUR;
  }

  // ------------------------------------------------------------------- east of UTC

  /** UTC+5 until 23:30 local time of day 99, when clocks go forward an hour. */
  function MidnightGapEast(): Zone {
    ChangingZone(99 * DAY + 18 * HOUR + 30 * MINUTE, 5 * HOUR, 6 * HOUR)
  }

  /** East of UTC the gap resolves forwards, and the last send time can lie after its base. */
  lemma MidnightGapMakesLastFuture()
    ensures
      var z := MidnightGapEast();
      var b := 100 * DAY + 35 * MINUTE - 6 * HOUR;
      ComputeLastSendTime(DailyAt(23 * HOUR + 45 * MINUTE), Some(z), b) == Success(b + 10 * MINUTE)
  {
    hide CivilOf, ComputeLastSendTime, DailyAt;
    var z := MidnightGapEast();
    var b := 100 * DAY + 35 * MINUTE - 6 * HOUR;
    var wall := 99 * DAY + 23 * HOUR + 45 * MINUTE;
    assert Resolve(z, wall) == b + 10 * MINUTE;
    assert Resolve(z, wall + DAY) == wall + DAY - 6 * HOUR;
    assert LocalTime(z, b) == 100 * DAY + 35 * MINUTE;
    assert LocalDay(z, b) == 100 && (wall + DAY) / DAY == 100 && wall % DAY == 23 * HOUR + 45 * MINUTE;
    DailyMovesBack(z, b, wall);
  }

  lemma EastLandsLate(wall: int)
    requires LandsLate(MidnightGapEast(), wall)
    ensures wall / DAY == 99 && LocalClock(MidnightGapEast(), Resolve(MidnightGapEast(), wall)) != 0
    ensures Shown(MidnightGapEast(), wall + DAY)
  {
    assert LocalTime(MidnightGapEast(), Resolve(MidnightGapEast(), wall)) == wall + HOUR;
  }

  lemma EastIsSteady()
    ensures Steady(MidnightGapEast(), 100) && MinuteGrained(MidnightGapEast(), 100)
  {
    hide Steady, MinuteGrained;
    ForwardChangesAreSteady(99 * DAY + 18 * HOUR + 30 * MINUTE, 5 * HOUR, 6 * HOUR, 100);
    WholeMinuteChanges(99 * DAY + 18 * HOUR + 30 * MINUTE, 5 * HOUR, 6 * HOUR, 100);
  }

  lemma QuarterToMidnightLandsLate()
    ensures
      var wall := 99 * DAY + 23 * HOUR + 45 * MINUTE;
      && wall / DAY == 99 && LandsLate(MidnightGapEast(), wall)
      && !StartsDate(MidnightGapEast(), Resolve(MidnightGapEast(), wall))
  {
    var wall := 99 * DAY + 23 * HOUR + 45 * MINUTE;
    assert LocalTime(MidnightGapEast(), Resolve(MidnightGapEast(), wall)) == wall + HOUR;
    assert LocalTime(MidnightGapEast(), Resolve(MidnightGapEast(), wall) - 1) == wall + HOUR - 1;
  }

  /** It meets the hypotheses of `LastStaysBehindExactlyWhen` on the date after the change, and breaks the law. */
  lemma MidnightGapEastIsCovered()
    ensures
      var z := MidnightGapEast();
      Orderly(z, 100) && !LandsByTheStart(z, 99) && !LastStaysBehind(z, 100)
  {
    hide Steady, MinuteGrained, LandsLate, Shown, LastStaysBehind, Regular, StartsDate, MidnightGapEast, ChangingZone,
         LandsByMidnight, LocalClock, Resolve;
    var z := MidnightGapEast();
    EastIsSteady();
    forall wall | LandsLate(z, wall) ensures QuietAround(z, 100, wall) {
      EastLandsLate(wall);
    }
    QuarterToMidnightLandsLate();
    LastStaysBehindExactlyWhen(z, 100);
  }

  // -------------------------------------------------------------------- odd seconds

  /** Local mean time, 4:56:02 behind UTC, until its noon of day 100, and five hours behind from then on. */
  function LocalMeanTime(): Zone {
    ChangingZone(100 * DAY + 17 * HOUR, -17_762 * SECOND, -18_000 * SECOND)
  }

  lemma MeanTimeIsSteady(day: int)
    ensures Steady(LocalMeanTime(), day)
  {
    var z := LocalMeanTime();
    forall t, u | t <= u ensures LocalDay(z, t) <= LocalDay(z, u) {
      MeanTimeRunsOn(t, u);
    }
  }

  lemma MeanTimeRunsOn(t: int, u: int)
    requires t <= u
    ensures LocalDay(LocalMeanTime(), t) <= LocalDay(LocalMeanTime(), u)
  {
    var z := LocalMeanTime();
    if t < 100 * DAY + 17 * HOUR <= u {
      assert LocalTime(z, t) < 101 * DAY && LocalTime(z, u) >= 100 * DAY;
    } else {
      assert LocalTime(z, t) <= LocalTime(z, u);
    }
  }

  /** Its clock goes back four minutes at midday; nothing leaves its date. */
  lemma MeanTimeKeepsDates(wall: int)
    ensures LocalDay(LocalMeanTime(), Resolve(LocalMeanTime(), wall)) == wall / DAY
  {
    assert LocalTime(LocalMeanTime(), Resolve(LocalMeanTime(), wall)) == wall;
  }

  /** So every send time brackets its base, on every date. */
  lemma MeanTimeIsBracketed(s: Settings, b: int)
    requires Accepted(s)
    ensures LastIn(LocalMeanTime(), s, b) <= b <= NextIn(LocalMeanTime(), s, b)
  {
    hide LastIn, NextIn, LocalMeanTime, LocalDay, Resolve, Steady;
    var z := LocalMeanTime();
    MeanTimeIsSteady(LocalDay(z, b));
    forall wall ensures !FallsBack(z, wall) && !MovesOn(z, wall) {
      MeanTimeKeepsDates(wall);
    }
    SendTimesBracketTheBase(z, s, b);
  }

  // ---------------------------------------------------------- times that are shown

  /** Go's two lookups find a wall-clock time wherever a zone that changes once shows it, twice included. */
  lemma ExistingTimesResolve(change: int, before: int, after: int, t: int)
    ensures
      var z := ChangingZone(change, before, after);
      Shown(z, LocalTime(z, t))
  {
  }
}
