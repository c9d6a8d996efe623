/** internal/newsletters/schedule.go: when a newsletter is next due and when it was last due.

Instants are nanoseconds from an epoch at 0001-01-01T00:00Z. A time zone is its offset from UTC at
every instant. Go resolves a wall-clock time `l` by reading the offset at `l` taken as UTC, and then
the offset at the instant that guess yields; `Resolve` is that rule, for every zone.
*/
module Schedule {
  import opened Calendar
  import opened Durations
  import opened Outcomes

  datatype Zone = Zone(offset: int -> int)

  function FixedZone(c: int): Zone {
    Zone((t: int) => c)
  }

  datatype Frequency = Daily | Weekly | Monthly | Unknown(name: string)

  datatype Settings = Settings(frequency: Frequency, sendDay: int, sendHour: int, sendMinute: int)

  datatype ScheduleError = InvalidTimezone | UnknownFrequency(name: string) | BadSendDay

  function LocalTime(z: Zone, t: int): int {
    t + z.offset(t)
  }

  function LocalDay(z: Zone, t: int): int {
    LocalTime(z, t) / DAY
  }

  function LocalClock(z: Zone, t: int): int {
    LocalTime(z, t) % DAY
  }

  /** A date and a time of day make a wall-clock time of that date. */
  lemma WallOn(day: int, clock: int)
    requires 0 <= clock < DAY
    ensures (day * DAY + clock) / DAY == day && (day * DAY + clock) % DAY == clock
  {
    DivisionUnique(day * DAY + clock, DAY, day, clock);
  }

  /** The instant Go picks for a wall-clock time that may exist once, twice or not at all. */
  function Resolve(z: Zone, wall: int): int {
    wall - z.offset(wall - z.offset(wall))
  }

  /** `time.Date` in a zone. */
  function DateIn(z: Zone, y: int, m: int, d: int, clock: int): int {
    Resolve(z, NormalizedDayNumber(y, m, d) * DAY + clock)
  }

  /** `t.AddDate(0, 0, n)`: the civil date moves by `n` and the clock `t` already shows is kept. */
  function AddDays(z: Zone, t: int, n: int): int {
    var d := CivilOf(LocalDay(z, t));
    DateIn(z, d.year, d.month, d.day + n, LocalClock(z, t))
  }

  /** Sunday is 0; day 0 of the calendar was a Monday. */
  function Weekday(day: int): int {
    (day + 1) % 7
  }

  /** Go's `%`, whose result takes the sign of the dividend. */
  function GoRemainder(a: int, b: int): int
    requires b > 0
  {
    if a >= 0 then a % b else -((-a) % b)
  }

  function ClampSendDayToMonth(y: int, m: int, day: int): int {
    if day < 1 then 1
    else
      var lastDay := CivilOf(NormalizedDayNumber(y, m + 1, 0)).day;
      if day > lastDay then lastDay else day
  }

  function SendClock(s: Settings): int {
    s.sendHour * HOUR + s.sendMinute * MINUTE
  }

  function ComputeNextSendTime(s: Settings, location: Option<Zone>, base: int): Result<int, ScheduleError> {
    if location.None? then Failure(InvalidTimezone)
    else
      var z := location.value;
      var local := CivilOf(LocalDay(z, base));
      match s.frequency
      case Monthly =>
        var candidate := DateIn(z, local.year, local.month,
                                ClampSendDayToMonth(local.year, local.month, s.sendDay), SendClock(s));
        if candidate < base then
          var (nextYear, nextMonth) :=
            if local.month + 1 > 12 then (local.year + 1, 1) else (local.year, local.month + 1);
          Success(DateIn(z, nextYear, nextMonth,
                         ClampSendDayToMonth(nextYear, nextMonth, s.sendDay), SendClock(s)))
        else Success(candidate)
      case Weekly =>
        var today := DateIn(z, local.year, local.month, local.day, SendClock(s));
        var daysUntil := GoRemainder(s.sendDay - Weekday(LocalDay(z, today)) + 7, 7);
        var candidate := AddDays(z, today, daysUntil);
        Success(if candidate < base then AddDays(z, candidate, 7) else candidate)
      case Daily =>
        var candidate := DateIn(z, local.year, local.month, local.day, SendClock(s));
        Success(if candidate < base then AddDays(z, candidate, 1) else candidate)
      case Unknown(name) => Failure(UnknownFrequency(name))
  }

  function ComputeLastSendTime(s: Settings, location: Option<Zone>, base: int): Result<int, ScheduleError> {
    if location.None? then Failure(InvalidTimezone)
    else
      var z := location.value;
      var local := CivilOf(LocalDay(z, base));
      match s.frequency
      case Monthly =>
        var candidate := DateIn(z, local.year, local.month,
                                ClampSendDayToMonth(local.year, local.month, s.sendDay), SendClock(s));
        if candidate > base then
          var (prevYear, prevMonth) :=
            if local.month - 1 < 1 then (local.year - 1, 12) else (local.year, local.month - 1);
          Success(DateIn(z, prevYear, prevMonth,
                         ClampSendDayToMonth(prevYear, prevMonth, s.sendDay), SendClock(s)))
        else Success(candidate)
      case Weekly =>
        var today := DateIn(z, local.year, local.month, local.day, SendClock(s));
        var daysUntil := GoRemainder(s.sendDay - Weekday(LocalDay(z, today)) + 7, 7);
        var candidate := AddDays(z, today, daysUntil);
        Success(if candidate > base then AddDays(z, candidate, -7) else candidate)
      case Daily =>
        var candidate := DateIn(z, local.year, local.month, local.day, SendClock(s));
        Success(if candidate > base then AddDays(z, candidate, -1) else candidate)
      case Unknown(name) => Failure(UnknownFrequency(name))
  }

  /** `None` is an absent send day. */
  predicate ValidSendDay(frequency: Frequency, sendDay: Option<int>) {
    match frequency
    case Weekly => sendDay.Some? && 0 <= sendDay.value <= 6
    case Monthly => sendDay.Some? && 1 <= sendDay.value <= 31
    case _ => true
  }

  /** What the API and the import accept: a known frequency, a send day from 0, a time of day. */
  predicate Accepted(s: Settings) {
    !s.frequency.Unknown? && 0 <= s.sendDay && 0 <= s.sendHour < 24 && 0 <= s.sendMinute < 60
  }

  /** The two send times where there are no errors left to report. */
  function NextIn(z: Zone, s: Settings, b: int): int
    requires Accepted(s)
  {
    ComputeNextSendTime(s, Some(z), b).value
  }

  function LastIn(z: Zone, s: Settings, b: int): int
    requires Accepted(s)
  {
    ComputeLastSendTime(s, Some(z), b).value
  }

  /** internal/handler/newsletter.go: a request without a send day stands for day 0. */
  function ComputeSendSchedule(frequency: Frequency, sendDay: Option<int>, sendHour: int, sendMinute: int,
                               location: Option<Zone>, now: int): Result<(int, int), ScheduleError> {
    if !ValidSendDay(frequency, sendDay) then Failure(BadSendDay)
    else
      var day := if sendDay.Some? then sendDay.value else 0;
      match ComputeNextSendTime(Settings(frequency, day, sendHour, sendMinute), location, now)
      case Success(next) => Success((day, next))
      case Failure(error) => Failure(error)
  }
}
