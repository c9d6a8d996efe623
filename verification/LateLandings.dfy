/** When the last send time stays behind its base, the counterpart of module FallingBack.

East of UTC a gap resolves forwards. A wall-clock time late on one date can land on the next, and a
last send time computed from it can lie after its base. Landing exactly on midnight is harmless, and
`LastStaysBehindExactlyWhen` says which landings are not.
*/
module LateLandings {
  import opened Calendar
  import opened Durations
  import opened Schedule
  import opened Zones
  import opened FallingBack

  ghost predicate LastStaysBehind(z: Zone, day: int) {
    forall s, b :: Accepted(s) && LocalDay(z, b) == day ==> LastIn(z, s, b) <= b
  }

  predicate LandsLate(z: Zone, wall: int) {
    wall % MINUTE == 0 && MovesOn(z, wall)
  }

  /** No wall-clock time of date `day` lands past the midnight that ends it. */
  ghost predicate LandsByMidnight(z: Zone, day: int) {
    forall wall :: wall / DAY == day && LandsLate(z, wall) ==> LocalClock(z, Resolve(z, wall)) == 0
  }

  predicate StartsDate(z: Zone, t: int) {
    LocalDay(z, t - 1) < LocalDay(z, t)
  }

  /** No wall-clock time of date `day` lands past the instant at which a later date starts. */
  ghost predicate LandsByTheStart(z: Zone, day: int) {
    forall wall :: wall / DAY == day && LandsLate(z, wall) ==> StartsDate(z, Resolve(z, wall))
  }

  /** A wall-clock time that exists, and starts its date if it is midnight. */
  predicate Regular(z: Zone, wall: int) {
    Shown(z, wall) && (StartsDate(z, Resolve(z, wall)) <==> wall % DAY == 0)
  }

  /** Around a late landing the zone is regular: at the clock it lands on and on the days a daily or weekly
      schedule goes to from there. */
  ghost predicate QuietAround(z: Zone, day: int, wall: int) {
    var landing := Resolve(z, wall);
    var clock := LocalClock(z, landing);
    && (clock == 0 ==> StartsDate(z, landing))
    && (wall / DAY == day - 1 ==> Shown(z, wall + DAY))
    && (wall / DAY == day ==> Regular(z, day * DAY + clock) && (clock == 0 ==> Shown(z, (day + 7) * DAY)))
    && (wall / DAY == day + 6 ==> Regular(z, day * DAY + clock) && Shown(z, wall - 6 * DAY))
  }

  ghost predicate LateLandingsStandApart(z: Zone, day: int) {
    forall wall :: day - 2 <= wall / DAY <= day + 8 && LandsLate(z, wall) ==> QuietAround(z, day, wall)
  }

  ghost predicate Orderly(z: Zone, day: int) {
    Steady(z, day) && MinuteGrained(z, day) && LateLandingsStandApart(z, day)
  }

  /** The three ways a landing could put a last send ahead of a base on date `day`, ruled out. */
  ghost predicate LandsInTime(z: Zone, day: int) {
    LandsByTheStart(z, day - 1) && LandsByMidnight(z, day) && LandsByMidnight(z, day + 6)
  }

  // -------------------------------------------------------------------- sufficient

  lemma NotAfterStart(z: Zone, b: int, t: int)
    requires Steady(z, LocalDay(z, b)) && Around(LocalDay(z, b), t) && Around(LocalDay(z, b), t - 1)
    requires LocalDay(z, t) < LocalDay(z, b) || (LocalDay(z, t) == LocalDay(z, b) && StartsDate(z, t))
    ensures t <= b
  {
    hide LocalDay, DatesInOrder, OffsetsClose;
    BaseAround(z, b);
    InOrder(z, LocalDay(z, b), b, t - 1);
    InOrder(z, LocalDay(z, b), t, b);
  }

  /** A time of an earlier date is over by the base, which may be the instant its own date started. */
  lemma EarlierDateIsOver(z: Zone, b: int, wall: int)
    requires Orderly(z, LocalDay(z, b)) && LandsByTheStart(z, LocalDay(z, b) - 1)
    requires wall / DAY < LocalDay(z, b) && wall % MINUTE == 0
    ensures Resolve(z, wall) <= b
  {
    hide LocalDay, DatesInOrder, OffsetsClose, StartsDate, MinuteGrained, LateLandingsStandApart, Resolve;
    var day := LocalDay(z, b);
    BaseAround(z, b);
    ResolveNear(z, wall);
    if wall / DAY >= day - 2 {
      Lands(z, day, wall);
      if wall / DAY == day - 1 && MovesOn(z, wall) {
        assert LandsLate(z, wall);
        NotAfterStart(z, b, Resolve(z, wall));
      } else {
        InOrder(z, day, Resolve(z, wall), b);
      }
    }
  }

  lemma StartIsOver(z: Zone, b: int)
    requires Orderly(z, LocalDay(z, b)) && Regular(z, LocalDay(z, b) * DAY)
    ensures Resolve(z, LocalDay(z, b) * DAY) <= b
  {
    hide LocalDay, DatesInOrder, OffsetsClose, StartsDate, MinuteGrained, LateLandingsStandApart, Resolve;
    var day := LocalDay(z, b);
    DivisionUnique(day * DAY, DAY, day, 0);
    Lands(z, day, day * DAY);
    ResolveNear(z, day * DAY);
    ShownOn(z, day * DAY);
    NotAfterStart(z, b, Resolve(z, day * DAY));
  }

  /** Where a whole-minute time lands, by its date. */
  lemma LandsOnOrAtMidnight(z: Zone, day: int, wall: int)
    requires Orderly(z, day) && wall % MINUTE == 0 && day - 2 <= wall / DAY <= day + 8
    requires LandsByMidnight(z, wall / DAY)
    ensures
      var t := Resolve(z, wall);
      && LocalDay(z, t) <= wall / DAY + 1
      && (LocalDay(z, t) == wall / DAY + 1 ==> LocalClock(z, t) == 0 && QuietAround(z, day, wall))
      && OnTheMinute(z, t)
  {
    hide LocalDay, LocalClock, Steady, MinuteGrained, QuietAround, Resolve;
    Lands(z, day, wall);
    ResolveOnTheMinute(z, day, wall);
    if LocalDay(z, Resolve(z, wall)) == wall / DAY + 1 {
      assert LandsLate(z, wall);
    }
  }

  lemma CarriedWall(z: Zone, t: int, n: int)
    requires LocalClock(z, t) % MINUTE == 0
    ensures ((LocalDay(z, t) + n) * DAY + LocalClock(z, t)) % MINUTE == 0
  {
    DivisionUnique((LocalDay(z, t) + n) * DAY + LocalClock(z, t), MINUTE,
                   1440 * (LocalDay(z, t) + n) + LocalClock(z, t) / MINUTE, 0);
  }

  lemma DailyStaysBehind(z: Zone, s: Settings, b: int)
    requires Orderly(z, LocalDay(z, b)) && LandsInTime(z, LocalDay(z, b)) && Accepted(s) && s.frequency.Daily?
    ensures LastIn(z, s, b) <= b
  {
    hide ComputeNextSendTime, ComputeLastSendTime, AddDays, LocalDay, LocalClock, Resolve, Orderly, Today, SendClock,
         Regular, LandsByMidnight, LandsByTheStart;
    var day := LocalDay(z, b);
    var wall := Today(z, s, b);
    var today := Resolve(z, wall);
    TodayOn(z, s, b);
    DailyResolves(z, s, b);
    LandsOnOrAtMidnight(z, day, wall);
    AddDaysResolves(z, today, -1);
    CarriedWall(z, today, -1);
    if LocalDay(z, today) == day + 1 {
      StartIsOver(z, b);
    } else {
      EarlierDateIsOver(z, b, (LocalDay(z, today) - 1) * DAY + LocalClock(z, today));
    }
  }

  lemma WeeklyStaysBehind(z: Zone, s: Settings, b: int)
    requires Orderly(z, LocalDay(z, b)) && LandsInTime(z, LocalDay(z, b)) && Accepted(s) && s.frequency.Weekly?
    ensures LastIn(z, s, b) <= b
  {
    hide ComputeNextSendTime, ComputeLastSendTime, AddDays, LocalDay, LocalClock, Resolve, Orderly, Today, SendClock,
         LandsByMidnight, LandsByTheStart, DaysUntil;
    var today := Resolve(z, Today(z, s, b));
    TodayOn(z, s, b);
    WeeklyResolves(z, s, b);
    WeekdayDistance(s, LocalDay(z, today));
    AWeekEarlierIsOver(z, b, Today(z, s, b), DaysUntil(s, LocalDay(z, today)));
  }

  /** The candidate lands in the week from today, or, off a late landing, just as the next one starts. */
  lemma AWeekEarlierIsOver(z: Zone, b: int, wall: int, daysUntil: int)
    requires Orderly(z, LocalDay(z, b)) && LandsInTime(z, LocalDay(z, b))
    requires wall / DAY == LocalDay(z, b) && wall % MINUTE == 0 && 0 <= daysUntil < 7
    ensures
      var candidate := AddDays(z, Resolve(z, wall), daysUntil);
      (if candidate > b then AddDays(z, candidate, -7) else candidate) <= b
  {
    hide AddDays, LocalDay, LocalClock, Resolve, Orderly, LandsByMidnight, LandsByTheStart, Regular;
    var day := LocalDay(z, b);
    var today := Resolve(z, wall);
    var candidate := AddDays(z, today, daysUntil);
    LandsOnOrAtMidnight(z, day, wall);
    AddDaysResolves(z, today, daysUntil);
    CarriedWall(z, today, daysUntil);
    CandidateLands(z, day, wall, daysUntil);
    AddDaysResolves(z, candidate, -7);
    CarriedWall(z, candidate, -7);
    if LocalDay(z, candidate) == day + 7 {
      StartIsOver(z, b);
    } else {
      EarlierDateIsOver(z, b, (LocalDay(z, candidate) - 7) * DAY + LocalClock(z, candidate));
    }
  }

  /** Off a landing tomorrow at midnight, six days on is a week from today; short of that, the candidate
      lands in the week, or as the next one starts. */
  lemma CandidateLands(z: Zone, day: int, wall: int, daysUntil: int)
    requires Orderly(z, day) && LandsInTime(z, day)
    requires wall / DAY == day && wall % MINUTE == 0 && 0 <= daysUntil < 7
    ensures
      var candidate := AddDays(z, Resolve(z, wall), daysUntil);
      && LocalClock(z, candidate) % MINUTE == 0
      && LocalDay(z, candidate) <= day + 7
      && (LocalDay(z, candidate) == day + 7 ==> LocalClock(z, candidate) == 0 && Regular(z, day * DAY))
  {
    hide AddDays, LocalDay, LocalClock, Resolve, Orderly, LandsByMidnight, LandsByTheStart, QuietAround, Regular;
    var today := Resolve(z, wall);
    LandsOnOrAtMidnight(z, day, wall);
    AddDaysResolves(z, today, daysUntil);
    CarriedWall(z, today, daysUntil);
    if LocalDay(z, today) == day + 1 {
      QuietToday(z, day, wall);
    }
    CarriedLands(z, day, (LocalDay(z, today) + daysUntil) * DAY + LocalClock(z, today)) by {
      Lands(z, day, wall) by { OrderlyIsSteady(z, day); }
    }
  }

  lemma QuietToday(z: Zone, day: int, wall: int)
    requires QuietAround(z, day, wall) && wall / DAY == day && LocalClock(z, Resolve(z, wall)) == 0
    ensures Regular(z, day * DAY) && Shown(z, (day + 7) * DAY)
  {
  }

  lemma QuietNextWeek(z: Zone, day: int, wall: int)
    requires QuietAround(z, day, wall) && wall / DAY == day + 6 && LocalClock(z, Resolve(z, wall)) == 0
    ensures Regular(z, day * DAY)
  {
  }

  /** From a day before `day` to a week after it. */
  lemma CarriedLands(z: Zone, day: int, later: int)
    requires Orderly(z, day) && LandsByMidnight(z, day + 6)
    requires later % MINUTE == 0 && day - 1 <= later / DAY <= day + 7
    requires later / DAY == day + 7 ==> later == (day + 7) * DAY && Shown(z, later) && Regular(z, day * DAY)
    ensures
      var t := Resolve(z, later);
      && LocalClock(z, t) % MINUTE == 0
      && LocalDay(z, t) <= day + 7
      && (LocalDay(z, t) == day + 7 ==> LocalClock(z, t) == 0 && Regular(z, day * DAY))
  {
    hide LocalDay, LocalClock, Resolve, Orderly, LandsByMidnight, QuietAround, Regular, Shown;
    OrderlyIsSteady(z, day);
    if later / DAY == day + 7 {
      ShownOn(z, later);
      DivisionUnique(later, DAY, day + 7, 0);
    } else if later / DAY == day + 6 {
      LandsOnOrAtMidnight(z, day, later);
      if LocalDay(z, Resolve(z, later)) == day + 7 {
        QuietNextWeek(z, day, later);
      }
    } else {
      Lands(z, day, later);
      ResolveOnTheMinute(z, day, later);
    }
  }

  lemma OrderlyIsSteady(z: Zone, day: int)
    requires Orderly(z, day)
    ensures Steady(z, day) && MinuteGrained(z, day)
  {
  }

  lemma MonthlyStaysBehind(z: Zone, s: Settings, b: int)
    requires Orderly(z, LocalDay(z, b)) && LandsInTime(z, LocalDay(z, b)) && Accepted(s) && s.frequency.Monthly?
    ensures LastIn(z, s, b) <= b
  {
    hide ComputeNextSendTime, ComputeLastSendTime, LocalDay, Resolve, Orderly, LandsByMidnight, LandsByTheStart;
    var here, after, before := MonthlyResolves(z, s, b);
    EarlierDateIsOver(z, b, before);
  }

  // --------------------------------------------------------------------- necessary

  /** An instant just short of the clock a late landing shows, on the date in question. */
  lemma JustBefore(z: Zone, day: int, clock: int)
    requires Steady(z, day) && 0 < clock < DAY && Regular(z, day * DAY + clock)
    ensures LocalDay(z, Resolve(z, day * DAY + clock) - 1) == day
    ensures Around(day, Resolve(z, day * DAY + clock) - 1)
  {
    hide LocalDay, Resolve, DatesInOrder, OffsetsClose;
    var wall := day * DAY + clock;
    var t := Resolve(z, wall);
    WallOn(day, clock);
    ShownOn(z, wall);
    Lands(z, day, wall);
    ResolveNear(z, wall);
    InOrder(z, day, t - 1, t);
  }

  lemma LandingClock(z: Zone, day: int, wall: int)
    requires Orderly(z, day) && LandsLate(z, wall) && day - 2 <= wall / DAY <= day + 8
    ensures LocalDay(z, Resolve(z, wall)) == wall / DAY + 1
    ensures QuietAround(z, day, wall)
  {
    hide LocalDay, Steady, MinuteGrained, QuietAround, Resolve;
    Lands(z, day, wall);
  }

  /** A time of today that lands past midnight: the day before carries the clock it landed on. */
  lemma TodayLandsLate(z: Zone, day: int, wall: int)
    requires Orderly(z, day) && LandsLate(z, wall) && wall / DAY == day && LocalClock(z, Resolve(z, wall)) != 0
    ensures !LastStaysBehind(z, day)
  {
    hide LocalDay, LocalClock, Resolve, Orderly, Steady, Regular, LastStaysBehind;
    LandingClock(z, day, wall);
    LandsAhead(z, day, wall);
    DailyGoesBack(z, day, wall);
  }

  /** A late landing is ahead of the instant just short of the clock it shows, on the date in question. */
  lemma LandsAhead(z: Zone, day: int, wall: int)
    requires Orderly(z, day) && LandsLate(z, wall) && day <= wall / DAY <= day + 6
    requires
      var clock := LocalClock(z, Resolve(z, wall));
      clock != 0 && Regular(z, day * DAY + clock)
    ensures
      var b := Resolve(z, day * DAY + LocalClock(z, Resolve(z, wall))) - 1;
      LocalDay(z, b) == day && b < Resolve(z, wall)
  {
    hide LocalDay, LocalClock, Resolve, Orderly, Steady, Regular, LandsLate;
    OrderlyIsSteady(z, day);
    LandingClock(z, day, wall);
    LocalParts(z, Resolve(z, wall));
    JustBefore(z, day, LocalClock(z, Resolve(z, wall)));
    Lands(z, day, wall);
    SteadyInOrder(z, day);
    InOrder(z, day, Resolve(z, day * DAY + LocalClock(z, Resolve(z, wall))) - 1, Resolve(z, wall));
  }

  lemma DailyGoesBack(z: Zone, day: int, wall: int)
    requires wall % MINUTE == 0 && wall / DAY == day
    requires
      var landing := Resolve(z, wall);
      var b := Resolve(z, day * DAY + LocalClock(z, landing)) - 1;
      LocalDay(z, landing) == day + 1 && LocalDay(z, b) == day && b < landing
    ensures !LastStaysBehind(z, day)
  {
    hide ComputeNextSendTime, ComputeLastSendTime, LocalDay, LocalClock, Accepted, Resolve, AddDays, SendClock;
    var landing := Resolve(z, wall);
    var b := Resolve(z, day * DAY + LocalClock(z, landing)) - 1;
    WholeWall(wall);
    DailyResolves(z, DailyAt(wall % DAY), b);
    AddDaysResolves(z, landing, -1);
    assert LastIn(z, DailyAt(wall % DAY), b) == b + 1;
  }

  /** A time of six days on: a weekly schedule of that weekday goes back to today with the clock it landed on. */
  lemma NextWeekLandsLate(z: Zone, day: int, wall: int)
    requires Orderly(z, day) && LandsLate(z, wall) && wall / DAY == day + 6 && LocalClock(z, Resolve(z, wall)) != 0
    ensures !LastStaysBehind(z, day)
  {
    hide LocalDay, LocalClock, Resolve, Orderly, Steady, Regular, LastStaysBehind, Shown;
    LandingClock(z, day, wall);
    LandsAhead(z, day, wall);
    WeeklyGoesBack(z, day, wall);
  }

  lemma WeeklyGoesBack(z: Zone, day: int, wall: int)
    requires wall % MINUTE == 0 && wall / DAY == day + 6 && Shown(z, wall - 6 * DAY)
    requires
      var landing := Resolve(z, wall);
      var b := Resolve(z, day * DAY + LocalClock(z, landing)) - 1;
      LocalDay(z, landing) == day + 7 && LocalDay(z, b) == day && b < landing
    ensures !LastStaysBehind(z, day)
  {
    hide ComputeLastSendTime, ComputeNextSendTime, LocalDay, LocalClock, Accepted, Resolve, AddDays, SendClock,
         DaysUntil;
    var landing := Resolve(z, wall);
    var b := Resolve(z, day * DAY + LocalClock(z, landing)) - 1;
    var s := AtClock(Weekly, Weekday(day + 6), wall % DAY);
    ClockOfWholeMinutes(wall);
    ClockIsAccepted(Weekly, Weekday(day + 6), wall % DAY);
    assert wall - 6 * DAY == day * DAY + wall % DAY;
    WallOn(day, wall % DAY);
    ShownOn(z, wall - 6 * DAY);
    SixDaysUntil(s, day);
    WeeklyResolves(z, s, b);
    AddDaysResolves(z, Resolve(z, wall - 6 * DAY), 6);
    AddDaysResolves(z, landing, -7);
    assert LastIn(z, s, b) == b + 1;
  }

  lemma SixDaysUntil(s: Settings, day: int)
    requires s.sendDay == Weekday(day + 6)
    ensures DaysUntil(s, day) == 6
  {
  }

  /** A time of yesterday that lands past the start of today: it is still the last send just before that. */
  lemma YesterdayLandsLate(z: Zone, day: int, wall: int)
    requires Orderly(z, day) && LandsLate(z, wall) && wall / DAY == day - 1 && !StartsDate(z, Resolve(z, wall))
    ensures !LastStaysBehind(z, day)
  {
    hide LocalDay, LocalClock, Resolve, Orderly, Steady, Regular, Shown, DatesInOrder, LastStaysBehind, StartsDate;
    OrderlyIsSteady(z, day);
    LandingClock(z, day, wall);
    DivisionUnique(wall + DAY, DAY, day, wall % DAY);
    DayBeforeIsEarlier(z, day, wall + DAY);
    SteadyInOrder(z, day);
    Lands(z, day, wall);
    ResolveNear(z, wall);
    OnTheDateBefore(z, day, Resolve(z, wall));
    YesterdayIsStillLast(z, day, wall);
  }

  lemma YesterdayIsStillLast(z: Zone, day: int, wall: int)
    requires wall % MINUTE == 0 && wall / DAY == day - 1 && Shown(z, wall + DAY)
    requires LocalDay(z, Resolve(z, wall) - 1) == day && Resolve(z, wall) <= Resolve(z, wall + DAY)
    ensures !LastStaysBehind(z, day)
  {
    hide ComputeLastSendTime, ComputeNextSendTime, LocalDay, Accepted, Resolve, Shown, DailyAt;
    WholeWall(wall);
    DailyMovesBack(z, Resolve(z, wall) - 1, wall);
    assert LastIn(z, DailyAt(wall % DAY), Resolve(z, wall) - 1) == Resolve(z, wall);
  }

  lemma OnTheDateBefore(z: Zone, day: int, t: int)
    requires DatesInOrder(z, day) && Around(day, t - 1) && Around(day, t) && LocalDay(z, t) == day && !StartsDate(z, t)
    ensures LocalDay(z, t - 1) == day
  {
    hide LocalDay;
    InOrder(z, day, t - 1, t);
  }

  /** The last send time is never after its base, for every schedule and every base on date `day`, exactly
      if no time of the day before lands past the start of `day`, and no time of `day` or of six days on
      lands past the midnight that ends its date. */
  lemma LastStaysBehindExactlyWhen(z: Zone, day: int)
    requires Orderly(z, day)
    ensures LastStaysBehind(z, day) <==> LandsInTime(z, day)
  {
    hide LastIn, Resolve, LocalDay, LocalClock, Orderly, LandsLate, StartsDate, LastStaysBehind;
    if LandsInTime(z, day) {
      forall s, b | Accepted(s) && LocalDay(z, b) == day ensures LastIn(z, s, b) <= b {
        match s.frequency {
          case Daily => DailyStaysBehind(z, s, b);
          case Weekly => WeeklyStaysBehind(z, s, b);
          case Monthly => MonthlyStaysBehind(z, s, b);
        }
      }
      AllStayBehind(z, day);
    } else if !LandsByMidnight(z, day) {
      var wall :| wall / DAY == day && LandsLate(z, wall) && LocalClock(z, Resolve(z, wall)) != 0;
      TodayLandsLate(z, day, wall);
    } else if !LandsByMidnight(z, day + 6) {
      var wall :| wall / DAY == day + 6 && LandsLate(z, wall) && LocalClock(z, Resolve(z, wall)) != 0;
      NextWeekLandsLate(z, day, wall);
    } else {
      var wall :| wall / DAY == day - 1 && LandsLate(z, wall) && !StartsDate(z, Resolve(z, wall));
      YesterdayLandsLate(z, day, wall);
    }
  }

  lemma AllStayBehind(z: Zone, day: int)
    requires forall s, b :: Accepted(s) && LocalDay(z, b) == day ==> LastIn(z, s, b) <= b
    ensures LastStaysBehind(z, day)
  {
  }
}
