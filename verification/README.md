# Newsletter backend: verified model

A Dafny model of the parts of the newsletter backend whose logic is time and state, with proofs of what
they promise over every input and every run.

- **The send calendar** (`Calendar`, `Schedule`, `Slots`, `Zones`, `FallingBack`, `LateLandings`,
  `GapZones`). Daily, weekly and monthly send times over the proleptic Gregorian calendar, in every time
  zone. `Slots.IsSlot` says what a send time is without computing one; the two Go functions are proved to
  return the least such instant from a base on and the greatest up to it.
- **The send protocol** (`NewsletterRow`, `SendProtocol`, `Plans`, `Deliveries`, `Windows`, `FirstWindows`,
  `Scheduler`).  The newsletter row as a class with one method per UPDATE, and the poll, fetch, send, retry and record
  steps as a state machine in which requests, crashes and lost replies come at any point. On that machine:
  what the row means as a regular time plus an optional one-off, which send times emails have, when they
  go out, and which items they hold.
- **Budgets** (`TokenBucket`, `KeyedLimiter`, `LimiterRuns`, `SendBudget`, `VerifyLockout`,
  `FeedBreaker`, `BreakerRuns`). The keyed rate limiter, the verification-email budget, the account
  lockout and the feed circuit breaker, with numeric bounds over runs of any length.
- **Refresh tokens** (`RefreshTokens`, `TokenRuns`). Claiming, rotation, reuse detection and the session
  cutoff, with requests interleaved between any two statements.
- **Queues and imports** (`JobQueue`, `FeedImport`, `ImportRuns`). The job queue's lock, close and drain
  protocol, the reading of an export, and resolvers racing with Retry and Remove.

`dafny verify dfyconfig.toml` checks the project. `Durations` and `Outcomes` hold what the modules share.

## How to read it

An object or row that the source updates in place is a class; each method's contract equates the new
state with a function of the old one, and those functions (`Sent`, `AfterAllow`, `AfterTry`, `Rotated`
and so on) are what the state machines step with and what the theorems are about. A whole-run theorem is
a lemma over a sequence of events: one lemma shows that a step keeps an invariant, a short induction
carries it along the run, and the theorem reads off what the invariant means. `Run` is the end of a run,
`Each` says something of every step and `Throughout` of every state. Where the code does not keep an
invariant, the step lemma says exactly when a step does, as a condition on the state the step meets, and
the run lemma says that the invariant holds in every state exactly if every step meets it.

Instants are whole nanoseconds, except in the limiter, whose arithmetic is over `real`. The clock, the
provider's replies, the outcome of fetches, the order of map iteration and the interleaving of
concurrent requests are parameters or events, so the theorems hold for all of them. A time zone is an
arbitrary offset function. Each SQL statement or transaction is one step.

What the theorems assume of their surroundings is said where they are stated. The main assumptions: jobs
of one newsletter do not overlap, which the 600-second tick and 300-second job limits against a
30-minute ticker give (cmd/server/main.go:76-89); the email provider delivers once per idempotency key;
a recorded feed failure leads to its pause within a day, for the report on paused feeds; and one clock
that does not run backwards.

## Where the code falls short of its promise

- **The base can lie outside the send times.** `TestComputeSendTimesBracketTheBase`
  (internal/newsletters/schedule_test.go:281-284) says why the next send time must not be in the past.
  Where clocks skip midnight it can be: `GapZones.MidnightGapMakesNextPast` has a daily newsletter whose
  next send time is a quarter of an hour ago. `FallingBack.NextStaysAheadExactlyWhen` and
  `LateLandings.LastStaysBehindExactlyWhen` say, date by date and for all schedules and all bases of the
  date, when the two halves of the law hold. Both look only at the zone around that date;
  `GapZones.MidnightGapWestIsCovered` and `GapZones.MidnightGapEastIsCovered` show that their hypotheses
  admit zones that break the law.
- **A job writes to a row it read some time ago.** A skip can meet a one-off that came while the job ran
  and push it past the regular time (`Plans.SkippingANewOneOff` is a run in which it does), and an edit
  during a job keeps its settings and loses its send time (`Deliveries.EditDuringAJobIsOverwritten`).
  `Plans.StepKeepsOrderExactlyWhen` and `Plans.StepKeepsCalendarExactlyWhen` say which writes do no harm.
- **A job does not check that its row is still due.** A resume, a one-off, its cancellation or an edit
  between a poll and the job it started can move the row's time ahead, and the job then sends at once
  under that time (`Deliveries.ResumeInQueueSendsEarly`, `Deliveries.OneOffInQueueSendsEarly`). An email
  can be early exactly when a job begins on a row that is not due (`Deliveries.QueuedJobIsEarlyExactlyWhen`,
  `Deliveries.RunsAreDueExactlyWhen`).
- **An item can be emailed twice**, even if nobody touches the schedule: a send that was delivered but not
  recorded, followed by a pause and a resume, is followed by an email with the same window
  (`Windows.UnrecordedEmailIsRepeated`). It takes an unrecorded send and another idempotency key
  (`Windows.ItemsRepeatOnlyWithoutARecord`). Before anything was recorded or skipped windows are computed
  instead of stored, and then hardly ever repeat (`FirstWindows.FirstWindowsRepeatExactlyWhen`).
- **The one-off check and its write are two statements**, and so are those of a cancel. A one-off that an
  edit overtakes ends up after the regular time (`Plans.LateOneOffLosesTheOrder`); of two cancels that
  both found a one-off, the second asks for a NULL in a NOT NULL column and fails (`Plans.RacingCancels`).
- **A stale breaker read pauses a feed that has recovered**, on its first failure since and for the
  length its old count asks for (`BreakerRuns.StaleFailureAfterRecovery`). Pauses double exactly when no
  fetch pauses the feed on a count that has come to ask for another length
  (`BreakerRuns.RunsBackOffExactlyWhen`).
- **An owner can add a feed a newsletter has**; imports and moves check, adding does not
  (`ImportRuns.NewslettersKeepOneOfEachFeed`).
- **A second `Shutdown` returns nil at once**, whatever still runs (`JobQueue.LaterShutdownsDoNotWait`);
  only the call that closed the queue reports that everything has finished.

One promise rests on the callers. The limiter's eviction scan uses the empty string for "none yet", so the
map stays within its ceiling exactly as long as no scan ends on an empty key as the oldest of its sample
(`KeyedLimiter.CeilingFailsExactlyWhen`). No caller passes an empty key: client keys are addresses or
prefixes, recipients are canonical email addresses, and sign-in keys join a user id and a client key
(internal/handler/auth.go:241-261).

## Model

| member | source | states |
|---|---|---|
| `Calendar.MonthSpan` | internal/newsletters/schedule.go:159 | the month lengths of section 5.7 of RFC 3339 are the steps of the cumulative table that day counting uses |
| `Calendar.YearOfContains` | internal/newsletters/schedule.go:55 | every day number, before or after year 1, lies in the year the 400/100/4/1-year cycles assign to it |
| `Calendar.CivilOf` | internal/newsletters/schedule.go:55-59 | the civil date of a day number is valid and counts back to that number |
| `Calendar.CivilOfDayNumber` | internal/newsletters/schedule.go:59-60 | the other direction: a valid date survives counting its days, so dates and day numbers are in bijection |
| `Calendar.DayNumberAscends` | internal/newsletters/schedule.go:62 | counting days is strictly monotone in the order of dates |
| `Calendar.NextMonthStarts` | internal/newsletters/schedule.go:159 | the first of the following month, carried over the year's end, is the day after this month's last |
| `Calendar.DayZeroOfNextMonth` | internal/newsletters/schedule.go:159 | day 0 of the next month is the last day of this one for every year and month, December included |
| `Slots.ClampIsDayInMonth` | internal/newsletters/schedule.go:154-165 | the clamp is the minimum of max(day, 1) and the month's length, and gives a valid date |
| `Slots.FixedAddDays` | internal/newsletters/schedule.go:80-82 | in a fixed-offset zone moving the civil date by n, with all carrying, adds exactly n times 24 hours |
| `Slots.DaysUntilWeekday` | internal/newsletters/schedule.go:79 | the weekday arithmetic, with Go's remainder, finds the first matching day of the coming week and no other residue |
| `Slots.DailyNext` | internal/newsletters/schedule.go:86-93 | the daily branch returns the slot of the first scheduled day not over by the base |
| `Slots.WeeklyNext` | internal/newsletters/schedule.go:76-85 | the weekly branch does |
| `Slots.MonthlyNext` | internal/newsletters/schedule.go:58-75 | the monthly branch does, across the year's end and clamped months |
| `Slots.DailyLast` | internal/newsletters/schedule.go:141-148 | the daily branch of the last send time returns the slot of the last scheduled day begun by the base |
| `Slots.WeeklyLast` | internal/newsletters/schedule.go:131-140 | the weekly branch does |
| `Slots.MonthlyLast` | internal/newsletters/schedule.go:113-130 | the monthly branch does |
| `Slots.OneDayPerMonth` | internal/newsletters/schedule.go:59 | a monthly schedule has exactly one day in each month, ordered as the months are |
| `Slots.NextIsLeastSlot` | internal/newsletters/schedule.go:44-97 | for every accepted schedule, fixed offset and base: the result is a slot, not before the base, and no slot in between is smaller |
| `Slots.LastIsGreatestSlot` | internal/newsletters/schedule.go:99-152 | the result is a slot, not after the base, and the greatest such |
| `Slots.NextIsStable` | internal/newsletters/newsletterService.go:115-120 | both functions are monotone, and the answer changes exactly when the base passes it |
| `Slots.NextAndLastMeet` | internal/newsletters/schedule.go:44-152 | next(last(b)) = last(b), last(next(b)) = next(b), no slot lies between them, and they are equal exactly on slots |
| `Slots.FollowingDay` | internal/newsletters/schedule.go:57-96 | the scheduled day after a scheduled day is 1, 7, or 28 to 31 days on, and none lies between |
| `Slots.ConsecutiveSends` | internal/newsletters/schedule.go:57-96 | sends that follow each other are that far apart to the nanosecond |
| `Slots.RequestsGetTheFirstSlot` | internal/handler/newsletter.go:145-162 | in every zone a request is refused exactly for a weekly day outside 0 to 6, a monthly one outside 1 to 31, an absent one where one is needed, an unknown frequency or an unknown zone; otherwise the row gets the day asked for, 0 if none was, and in a fixed-offset zone the least slot of that very schedule from now on |
| `Slots.WeekdaysFollow` | internal/newsletters/schedule_test.go:94 | weekdays count from Sunday and follow each other, and 10 March 2026 was a Tuesday |
| `Zones.AddDaysResolves` | internal/newsletters/schedule.go:80-82 | AddDate keeps the clock the candidate shows, gap-shifted or not, on the civil date n days on |
| `Zones.Lands` | internal/newsletters/schedule.go:60 | where a wall-clock time of a date or its neighbours lands: near that date, and a day off at most |
| `GapZones.ExistingTimesResolve` | internal/newsletters/schedule.go:60 | in a zone that changes once, a wall-clock time it shows at all resolves to an instant that shows it |
| `Zones.AfterBase` | internal/newsletters/schedule.go:62-73 | a wall-clock time of a later date lies after the base unless one of tomorrow falls back |
| `Zones.MonthlyResolves` | internal/newsletters/schedule.go:58-75 | the monthly branches of both functions choose between this month and one that lies wholly after or before the base's date |
| `Zones.WeeklyNotBeforeBase` | internal/newsletters/schedule.go:76-85 | a candidate off a shifted day, or a week on, is not before the base |
| `Zones.NextNotBeforeBase` | internal/newsletters/schedule_test.go:281-316 | in any zone, on a date whose times and the next date's do not fall back, no schedule's next send time is before its base |
| `Zones.LastNotAfterBase` | internal/newsletters/schedule_test.go:281-320 | on a date whose times, and those of the day before and six days on, do not move on, none has its last send time after its base |
| `Zones.SendTimesBracketTheBase` | internal/newsletters/schedule_test.go:281-324 | last <= base <= next for every schedule and every base on a date with both properties, whatever the zone did long before |
| `FallingBack.DailyMovesOn` | internal/newsletters/schedule.go:89-91 | with today's time over, a daily schedule goes to the resolution of the same wall-clock time tomorrow |
| `FallingBack.TomorrowFallsBack` | internal/newsletters/schedule.go:86-93 | one time of the next date that falls back is enough for a schedule and a base on this date with the next send in the past |
| `FallingBack.TodayFallsBack` | internal/newsletters/schedule.go:86-93 | so is one time of this date |
| `FallingBack.NextStaysAheadExactlyWhen` | internal/newsletters/schedule.go:44-97 | the next send time is never before its base, for all schedules and all bases of a date, if and only if no wall-clock time of that date or the next falls back to an earlier date |
| `LateLandings.DailyStaysBehind` | internal/newsletters/schedule.go:141-148 | landing exactly on midnight never puts a daily last send ahead of its base |
| `LateLandings.WeeklyStaysBehind` | internal/newsletters/schedule.go:131-140 | nor a weekly one, whose weekday is read off the landed date |
| `LateLandings.MonthlyStaysBehind` | internal/newsletters/schedule.go:113-130 | nor a monthly one |
| `LateLandings.TodayLandsLate` | internal/newsletters/schedule.go:141-148 | one time of this date that lands past midnight is enough for a daily schedule and a base with the last send in the future |
| `LateLandings.NextWeekLandsLate` | internal/newsletters/schedule.go:131-140 | one of six days on is, for a weekly schedule |
| `LateLandings.YesterdayLandsLate` | internal/newsletters/schedule.go:141-148 | one of the day before that lands past the start of this date is |
| `LateLandings.LastStaysBehindExactlyWhen` | internal/newsletters/schedule.go:99-152 | the last send time is never after its base, for all schedules and all bases of a date, if and only if none of these landings occurs |
| `GapZones.MidnightGapMakesNextPast` | internal/newsletters/schedule.go:86-93 | a west-of-UTC midnight gap with a next send time fifteen minutes before its base |
| `GapZones.MidnightGapWestIsCovered` | internal/newsletters/schedule_test.go:236-256 | that zone meets the hypotheses of the theorem on the next send time and breaks the law |
| `GapZones.MidnightGapMakesLastFuture` | internal/newsletters/schedule.go:141-148 | an east-of-UTC one with a last send time ten minutes after its base |
| `GapZones.MidnightGapEastIsCovered` | internal/newsletters/schedule_test.go:236-256 | that zone meets the hypotheses of the theorem on the last send time and breaks the law |
| `GapZones.MeanTimeIsBracketed` | internal/newsletters/schedule_test.go:281-324 | a zone that left local mean time, at an odd number of seconds, brackets every base on every date |
| `NewsletterRow.NewsletterRow.constructor` | internal/db/generated/newsletters.sql.go:33-36 | a new row has no one-off and no recorded send |
| `NewsletterRow.NewsletterRow.UpdateNewsletter` | internal/db/generated/newsletters.sql.go:438-458 | an edit's two CASE columns, both read from the row as it was |
| `NewsletterRow.NewsletterRow.UpdateNewsletterSendTime` | internal/db/generated/newsletters.sql.go:487-493 | a one-off saves the regular time only the first time |
| `NewsletterRow.NewsletterRow.CancelAdditionalSendTime` | internal/db/generated/newsletters.sql.go:15-21 | a cancel puts the saved time back, and fails on a row that has none |
| `NewsletterRow.NewsletterRow.RescheduleNewsletter` | internal/db/generated/newsletters.sql.go:394-400 | a reschedule drops any one-off |
| `NewsletterRow.NewsletterRow.SkipNewsletterSend` | internal/db/generated/newsletters.sql.go:413-419 | a skip anchors the window only on a row that was never sent and leaves the saved time alone |
| `NewsletterRow.NewsletterRow.UpdateNewsletterSendTimes` | internal/db/generated/newsletters.sql.go:506-513 | a send advances the row and ends the one-off |
| `NewsletterRow.NewsletterRow.ScheduleOneOffSend` | internal/handler/newsletter.go:390-437 | accepted exactly for times from now up to the regular time, however often a one-off was moved; which error otherwise |
| `NewsletterRow.NewsletterRow.CancelOneOffSend` | internal/handler/newsletter.go:439-468 | the row returns to its regular time; without a one-off nothing changes and nothing fails |
| `NewsletterRow.UpdateStatuses` | internal/newsletters/newsletterService.go:186-236 | all rows change or none; resumed rows with a missed send, and only those, are rescheduled |
| `NewsletterRow.SkipMissedSends` | internal/newsletters/newsletterService.go:240-266 | which rows are rescheduled and to when |
| `Plans.StepRefinesPlan` | internal/db/generated/newsletters.sql.go:394-513 | every step of the protocol, a job's late write included, is a change of (regular, one-off), and the stored next time is the earlier of the two; an edit drops a one-off exactly when it is later |
| `Plans.StepKeepsOrderExactlyWhen` | internal/db/generated/newsletters.sql.go:413-419 | one-off <= regular survives a step if and only if a skip meets no one-off, or one whose regular time is not before the job's next slot, and a one-off is written to a row it fits |
| `Plans.RunsKeepOrderExactlyWhen` | internal/db/generated/newsletters.sql.go:394-513 | over every run it holds in all states if and only if every step meets that |
| `Plans.RequestsKeepCalendar` | internal/db/generated/newsletters.sql.go:438-493 | edits, one-offs, cancels and resumes leave the regular time a next slot of the row's own schedule as of some moment not in the future |
| `Plans.StepKeepsCalendarExactlyWhen` | internal/newsletters/newsletterService.go:115-154 | a recorded or skipped send does if and only if the schedule the job read and the row's have the same next slot from now |
| `Plans.RunsKeepCalendarExactlyWhen` | internal/newsletters/newsletterService.go:115-154 | over every run in fixed-offset zones it holds in all states if and only if every such write meets that |
| `Plans.StepBetweenJobs` | internal/newsletters/scheduler.go:213-276 | a job stays current if edits and one-offs do not come while it runs, and then both conditions are met |
| `Plans.RunsKeepThePlan` | internal/db/generated/newsletters.sql.go:394-513 | in such runs order and calendar hold in every state |
| `Plans.NewRowIsOnCalendar` | internal/handler/newsletter.go:145-162 | a newly created newsletter has both |
| `Plans.SkippingANewOneOff` | internal/newsletters/scheduler.go:334-340 | a run in which a skip pushes a one-off past the regular time |
| `Plans.LateOneOffLosesTheOrder` | internal/handler/newsletter.go:417-430 | an edit between the check and the write of a one-off leaves it after the regular time |
| `Plans.RacingCancels` | internal/handler/newsletter.go:445-461 | of two cancels that both passed the guard the second statement fails and changes nothing |
| `Plans.OneOffLeavesTheRegularTime` | internal/newsletters/newsletterService.go:122-138 | recording a one-off's send puts back exactly the saved regular time if and only if that time has not passed |
| `Plans.CancelUndoesSchedules` | internal/handler/newsletter.go:390-468 | whatever one-offs are asked for and written, and however jobs run meanwhile without writing, a cancel restores the row |
| `Plans.StepWritesItsColumns` | internal/db/generated/newsletters.sql.go:394-550 | which steps change the settings, the zone, the status, the wish for empty issues and the time of the last send: each request its own columns and no other |
| `Plans.ChecksPassExactlyWhen` | internal/handler/newsletter.go:404-456 | a one-off request passes its check exactly from now up to the regular time, a cancel exactly with a one-off |
| `Plans.PausedNewslettersSendNothing` | internal/db/generated/newsletters.sql.go:216-225 | over every run: a paused newsletter with no job running delivers and records nothing until it is resumed, even if it was polled before |
| `Plans.ImportedPausedSendsNothing` | internal/db/generated/newsletters.sql.go:266-270 | nor does one that was imported as paused |
| `Plans.WishedForIssuesAreSent` | internal/newsletters/scheduler.go:334-340 | over every run: a newsletter created to be sent even when empty never has a send withheld while its owner leaves it so |
| `Plans.OneOffsAreNotWithheld` | internal/newsletters/scheduler.go:331-340 | a job may withhold its send exactly if it read no one-off and no wish for empty issues |
| `SendProtocol.StepKeepsWellFormed` | internal/newsletters/scheduler.go:213-276 | no step gives the row or a job settings the API would not accept |
| `Deliveries.StepKeepsTrack` | internal/newsletters/scheduler.go:213-276 | the row waits for a next slot as of the past, and a running job's key is a slot no later than the row's |
| `Deliveries.RunsDeliverInOrder` | internal/newsletters/scheduler.go:278-318 | that and the order of deliveries hold in every run without edits or one-offs |
| `Deliveries.EmailsFollowTheSlots` | internal/newsletters/scheduler.go:94-147 | from creation on, whatever fails, is retried, paused or resumed: emails map injectively and in increasing order into the schedule's slots |
| `Deliveries.RunsKeepKeysApart` | internal/newsletters/scheduler.go:285-287 | the assumption on the provider carried along a run, for use on windows: whatever is edited or rescheduled, no key is delivered twice |
| `Deliveries.NoTimeIsSentTwice` | internal/newsletters/scheduler.go:285-297 | the same from creation on: no two emails of a newsletter have send times in the same second |
| `Deliveries.StepIsDueExactlyWhen` | internal/db/generated/newsletters.sql.go:216-225 | a step gives a job a time still ahead if and only if the job begins on a row that is not due |
| `Deliveries.RunsAreDueExactlyWhen` | internal/db/generated/newsletters.sql.go:132-135 | over every run no job ever holds a time still ahead if and only if every job begins on a due row |
| `Deliveries.PolledRowsAreDue` | internal/db/generated/newsletters.sql.go:132-135 | what the poll's test is for: if no request writes the row while its id is queued, every job begins on a due row |
| `Deliveries.JobsAttemptThreeTimes` | internal/newsletters/scheduler.go:289-306 | over every run until the next job begins, a job attempts at most three sends, and without one there are none |
| `Deliveries.NoSkipAfterAnAttempt` | internal/newsletters/scheduler.go:234-237 | and after an attempt it does not skip |
| `Deliveries.QueuedJobIsEarlyExactlyWhen` | internal/newsletters/scheduler.go:213-218 | the job of a queued id, sending at once, is early if and only if its row is not due |
| `Deliveries.RunsDeliverOnTime` | internal/db/generated/newsletters.sql.go:132-135 | in any zone and with any edits and one-offs: if every job begins on a due row, no email precedes the time in its key |
| `Deliveries.EmailsWaitForTheirTime` | internal/newsletters/scheduler.go:119-138 | from creation on: each email then comes at or after its send time, in order of arrival |
| `Deliveries.BegunJob` | internal/newsletters/newsletterService.go:240-266 | what a job reads after a pause and a resume while its id was queued |
| `Deliveries.ResumeInQueueSendsEarly` | internal/newsletters/newsletterService.go:238-266 | that job sends at once; the email precedes its slot unless the resume happened on a slot |
| `Deliveries.OneOffInQueueSendsEarly` | internal/handler/newsletter.go:417-430 | so does one whose row gets a later one-off while its id is queued |
| `Deliveries.EditDuringAJobIsOverwritten` | internal/newsletters/scheduler.go:270-273 | an edit during a job keeps its settings and loses its send time |
| `Windows.StepKeepsTiling` | internal/newsletters/newsletterService.go:52-68 | every step, a crash or a lost reply included, keeps each recorded window starting where the last recorded one ended |
| `Windows.RunsTile` | internal/newsletters/newsletterService.go:122-154 | so does every run, with any edits, one-offs, skips and failures |
| `Windows.RecordedIssuesShareNoItem` | internal/db/generated/feeds.sql.go:333-335 | from creation on: what was out when one issue was recorded is in no later recorded issue |
| `Windows.SkippedWindowIsStillCovered` | internal/newsletters/newsletterService.go:140-154 | over every run after a skip: until a send is recorded every job has the skipped job's window, and the issue then recorded starts where that window did, so what came out since is in it |
| `Windows.FirstWindowsStartAtTheLastSlot` | internal/newsletters/newsletterService.go:55-68 | over every run from creation, in any zone: before anything is recorded or skipped, a job's window starts at the last send time of the schedule it read, as of its beginning |
| `Windows.StepKeepsWindows` | internal/newsletters/scheduler.go:246-273 | the row remembers of each email the window that recorded it, or its own |
| `Windows.RunsKeepWindows` | internal/newsletters/scheduler.go:246-273 | in every run, of two emails the later one's window starts after the earlier arrived if a send was recorded in between, and repeats the earlier one's stored window if not |
| `Windows.ItemsRepeatOnlyWithoutARecord` | internal/db/generated/feeds.sql.go:333-335 | from creation on: an item out when one email arrived is in a later one only if no send was recorded in between, and then under another key; after a stored window exactly the items of that window repeat |
| `Windows.UnrecordedEmailIsRepeated` | internal/newsletters/scheduler.go:259-273 | a delivery whose reply is lost, a pause and a resume: the next email has the same window |
| `FirstWindows.StepKeepsJobWindow` | internal/newsletters/newsletterService.go:52-68 | with nothing stored, a job's window starts at the last slot as of its beginning, and if its row moves on, then past that beginning |
| `FirstWindows.RunsKeepFirstWindows` | internal/newsletters/newsletterService.go:52-68 | without edits and one-offs and with every job beginning on a due row: of two emails with nothing stored for their windows, the later one's slot lies between the earlier job's beginning and the later window |
| `FirstWindows.FirstWindowsRepeatExactlyWhen` | internal/newsletters/newsletterService.go:52-68 | from creation on: where both windows start, and that they are the same if and only if the earlier job began on the very slot they start at |
| `FirstWindows.FirstWindowIsRepeated` | internal/newsletters/newsletterService.go:238-266 | which a resume at that very instant, after an unrecorded delivery, makes happen |
| `Scheduler.Provider.SendIdempotent` | internal/newsletters/scheduler.go:285-297 | the provider's side: one delivery per whole second of the send time, reply or no reply |
| `Scheduler.SendEmailWithRetry` | internal/newsletters/scheduler.go:278-318 | one to three attempts under one key, ending at the first confirmation, at the deadline, or after the third; what was delivered meanwhile |
| `Scheduler.RetriesDeliverOnce` | internal/newsletters/scheduler.go:285-297 | the retries of a key add one email at most, at the first attempt that got through, and the key is delivered exactly if it was before or some attempt got through |
| `Scheduler.AttemptIsAStep` | internal/newsletters/scheduler.go:289-301 | the loop's attempts are the state machine's |
| `Scheduler.FetchFeedsForNewsletter` | internal/newsletters/scheduler.go:342-399 | whatever order the fetches finish in, the three results hold the feeds of their kind in the newsletter's order |
| `Scheduler.PositionsInOrder` | internal/newsletters/scheduler.go:371-392 | exactly the feeds of a kind, each once, ascending |
| `Scheduler.SkipsOnlyQuietNewsletters` | internal/newsletters/scheduler.go:334-340 | a send is withheld if and only if it is regular, its owner wants no empty issues, and every feed was fetched and had nothing new |
| `TokenBucket.GrantedAgainstTokens` | internal/auth/rateLimit.go:36-41 | spends in an interval are at most the tokens at its start and the refill during it |
| `TokenBucket.GrantedAtMost` | internal/auth/rateLimit.go:36-41 | so at most burst + rate * T |
| `TokenBucket.TokensAreGranted` | internal/auth/rateLimit.go:49-50 | and k tokens do grant the next k spends, and no more |
| `TokenBucket.RefillIsExact` | internal/auth/rateLimit.go:78-84 | between spends tokens come back at the limit and stop at the burst |
| `TokenBucket.EmptiedBucketRefillsExactlyWhen` | internal/auth/rateLimit.go:36-41 | an emptied bucket grants again exactly once 1/limit has passed, and is full exactly once burst/limit has |
| `KeyedLimiter.KeyedLimiter.Allow` | internal/auth/rateLimit.go:36-41 | answer and new map from the old map, and whom it evicts |
| `KeyedLimiter.KeyedLimiter.WouldAllow` | internal/auth/rateLimit.go:45-51 | the answer without creating a bucket |
| `KeyedLimiter.KeyedLimiter.Reset` | internal/auth/rateLimit.go:53-58 | exactly that key goes |
| `KeyedLimiter.KeyedLimiter.LimiterFor` | internal/auth/rateLimit.go:68-85 | a known key keeps its bucket, a new one gets a full one, evicting only at the ceiling |
| `KeyedLimiter.KeyedLimiter.EvictSampled` | internal/auth/rateLimit.go:94-112 | the map loses what a scan of eight distinct keys, or all there are, in some order, is left with |
| `KeyedLimiter.KeyedLimiter.OldestOfSample` | internal/auth/rateLimit.go:95-107 | the scan loop against its specification |
| `KeyedLimiter.KeyedLimiter.CleanUp` | internal/auth/rateLimit.go:117-126 | exactly the refilled buckets go |
| `KeyedLimiter.ScannedIsOldest` | internal/auth/rateLimit.go:87-90 | the scan ends on the least recently seen key of the sample |
| `KeyedLimiter.CeilingHolds` | internal/auth/rateLimit.go:20-22 | every new key is admitted and seen now, and the map stays within ten thousand |
| `KeyedLimiter.CeilingFailsExactlyWhen` | internal/auth/rateLimit.go:94-112 | whatever the keys: a new client at the ceiling makes the map outgrow it if and only if the scan of its sample ends on the empty key as the one seen longest ago |
| `LimiterRuns.CallKeepsMatch` | internal/auth/rateLimit.go:114-126 | one call of anybody keeps a client's bucket indistinguishable from one of its own |
| `LimiterRuns.AnswersAreThoseOfABucket` | internal/auth/rateLimit.go:36-85 | with other clients, clean-ups and evictions of others at any times, a client's answers are, call by call, those of a bucket that is never dropped |
| `LimiterRuns.NewClientsStartFull` | internal/auth/rateLimit.go:78-84 | from an empty limiter, those of a full bucket |
| `LimiterRuns.WouldAllowPredictsAllow` | internal/auth/rateLimit.go:43-51 | asking changes nothing and gives the answer an allow call would get at that instant |
| `LimiterRuns.MapStaysBounded` | internal/auth/rateLimit.go:74-76 | over every run of calls the map stays within the ceiling |
| `LimiterRuns.BelowTheCeilingNobodyIsEvicted` | internal/auth/rateLimit.go:74-76 | and below it the bucket theorem applies to every client |
| `LimiterRuns.BucketsKnowWhenTheyWereSeen` | internal/auth/rateLimit.go:69-80 | over every run what eviction goes by is when the client last asked, however old its bucket |
| `LimiterRuns.CleanUpDropsTheFull` | internal/auth/rateLimit.go:114-126 | a clean-up drops exactly the buckets refilled to the burst |
| `LimiterRuns.AllowedAtMost` | internal/auth/rateLimit.go:36-41 | a client neither evicted nor reset is allowed at most burst + rate * T times in any interval, from any map |
| `SendBudget.EmailVerifyService.HasSendBudget` | internal/email/verify.go:200-202 | both limiters have a token |
| `SendBudget.EmailVerifyService.SpendSendBudget` | internal/email/verify.go:204-207 | both give one up |
| `SendBudget.SendsAreSpaced` | internal/email/verify.go:64-66 | sends from two buckets are at least a minute apart |
| `SendBudget.SendsAreCapped` | internal/email/verify.go:67-68 | and at most ten plus one for each 8640 seconds |
| `SendBudget.CooldownIsOverExactlyWhen` | internal/email/verify.go:64-66 | after an email the cooldown is over exactly once sixty seconds have passed |
| `SendBudget.FirstAskIsEmailed` | internal/email/verify.go:200-207 | a service that has just started emails whoever asks first |
| `SendBudget.EmailedAsByOwnBuckets` | internal/email/verify.go:196-207 | with other recipients and clean-ups in between, the service emails a recipient as two buckets of its own would |
| `SendBudget.RecipientsAreSpared` | internal/email/verify.go:64-68 | so a recipient's emails are 60 s apart and number at most 10 + T/8640 s, unless the ceiling evicts it |
| `VerifyLockout.FindUnexpired` | internal/db/generated/token.sql.go:84-90 | the newest unexpired code of the purpose, or none |
| `VerifyLockout.VerifyAccount.SendCode` | internal/email/verify.go:78-164 | when a code is sent, and that it replaces the old one; nothing changes otherwise |
| `VerifyLockout.VerifyAccount.RecordFailedVerifyAttempt` | internal/db/generated/user.sql.go:180-193 | the tenth wrong code resets the count and locks for fifteen minutes |
| `VerifyLockout.VerifyAccount.RecordFailedTokenAttempt` | internal/email/verify.go:259-269 | the fifth wrong code deletes the row |
| `VerifyLockout.VerifyAccount.DeleteExistingTokensWithPurpose` | internal/db/generated/token.sql.go:61-63 | codes of the purpose go, others stay in order |
| `VerifyLockout.VerifyAccount.TryToUseToken` | internal/email/verify.go:222-279 | outcome and new account for a lockout, no code, a wrong and a right code |
| `VerifyLockout.StepKeepsConsistent` | internal/email/verify.go:125-149 | a step keeps the counters in range and one code per purpose |
| `VerifyLockout.RunsStayConsistent` | internal/email/verify.go:54-62 | always 0 to 9 counted attempts, under 5 on a live code, one code per purpose |
| `VerifyLockout.StepSpendsAllowance` | internal/email/verify.go:248-257 | a wrong guess uses up one of the guesses left until any deadline, and no send gives one back |
| `VerifyLockout.GuessesAreBounded` | internal/email/verify.go:58-62 | without a success, at most 10 * (floor(T / 15 min) + 1) wrong codes are compared, whatever is resent and for whatever purpose |
| `VerifyLockout.NewCodeReplacesTheOld` | internal/email/verify.go:127-137 | a fresh code works until it expires and any other code is wrong from then on |
| `VerifyLockout.CodesWorkOnce` | internal/email/verify.go:274-278 | a right code is spent and the counters start over |
| `VerifyLockout.CodesStandFourWrongTries` | internal/email/verify.go:259-269 | over every run after a code is sent, with anything else sent and tried meanwhile: once the account is not locked the code is right after fewer than five wrong tries, there is none after five, and there are never more |
| `VerifyLockout.OtherPurposeIsLeftAlone` | internal/email/verify.go:129-132 | what is sent or tried for one purpose leaves the other's code as it was, short of a lockout |
| `VerifyLockout.RefusedSendsLeaveTheCode` | internal/email/verify.go:97-102 | a send over budget leaves the code already sent working |
| `VerifyLockout.WrongCodesAreCounted` | internal/db/generated/user.sql.go:180-193 | over every run without a right code, every wrong one is counted and the account stays open before the tenth |
| `VerifyLockout.TenthWrongCodeLocks` | internal/email/verify.go:58-62 | with the tenth it is locked for exactly fifteen minutes |
| `VerifyLockout.LockedAccountsStandStill` | internal/email/verify.go:90-95 | while it is locked nothing sent or tried changes it |
| `FeedBreaker.DisableDurationIsPauseLength` | internal/feeds/breaker.go:34-43 | the capped shift is 24 h doubled per pause up to 30 days for every count, within bounds and 64 bits |
| `FeedBreaker.Breaker.CheckBreaker` | internal/feeds/breaker.go:77-94 | the count it reads and whether the feed is paused now |
| `FeedBreaker.Breaker.DisableFeedUntil` | internal/db/generated/feeds.sql.go:143-147 | only a feed not paused now is paused and counted |
| `FeedBreaker.Breaker.RecordFailure` | internal/feeds/breaker.go:96-151 | one failure is recorded; a pause follows at once after earlier pauses, else at the threshold |
| `FeedBreaker.Breaker.ResetFeedBreaker` | internal/db/generated/feeds.sql.go:803-806 | a success clears pause and count |
| `FeedBreaker.Breaker.FetchFeed` | internal/feeds/breaker.go:45-75 | refused if and only if the feed has a row and is paused; the row afterwards for each ending |
| `FeedBreaker.Breaker.Prune` | internal/feeds/retention.go:65-81 | failures older than the retention go |
| `FeedBreaker.LastFailureAfter` | internal/db/generated/feeds.sql.go:508-514 | the newest failure after the cutoff, or none |
| `BreakerRuns.StepKeepsFaithful` | internal/db/generated/feeds.sql.go:143-147 | the guarded update keeps the columns a summary of the history, with stale fetches in flight |
| `BreakerRuns.FailuresPauseExactlyWhen` | internal/feeds/breaker.go:96-151 | a failure on a feed that is not paused pauses it exactly if earlier pauses were read or it makes five in six hours; for 24 hours the first time, for the doubled length after |
| `BreakerRuns.CountTripsExactlyWhen` | internal/feeds/breaker.go:116-142 | in the machine a fetch whose failure was recorded goes on to pause the feed exactly then |
| `BreakerRuns.PruneKeepsNinetyDays` | internal/db/generated/feeds.sql.go:107-109 | the pruner deletes exactly what is older than ninety days and touches no pause |
| `BreakerRuns.StepKeepsWarranted` | internal/feeds/breaker.go:96-151 | each pause whose fetch read no earlier one keeps the five failures of the six hours before they were counted, which was before it began |
| `BreakerRuns.PausesAreAccountedFor` | internal/feeds/breaker.go:45-94 | over all interleavings: disable_count is the pauses since the last success, pauses do not overlap, no fetch begins in one, and a pause without predecessors follows a count of five failures in the six hours up to it |
| `BreakerRuns.StepBacksOffExactlyWhen` | internal/feeds/breaker.go:34-43 | a step keeps every pause at its doubled length if and only if a fetch that pauses the feed read a count that asks for the length the stored count asks for |
| `BreakerRuns.RunsBackOffExactlyWhen` | internal/feeds/breaker.go:51-60 | over every run with any fetches in flight, the k-th pause in a row lasts min(24 h * 2^k, 30 days) for all of them if and only if every pause meets that |
| `BreakerRuns.StepKeepsSequential` | internal/feeds/breaker.go:45-75 | with one fetch at a time what a fetch read is what is stored |
| `BreakerRuns.PausesDouble` | internal/feeds/breaker.go:16-22 | so over such runs pauses double |
| `BreakerRuns.StaleFailureAfterRecovery` | internal/feeds/breaker.go:51-60 | with two at a time a stale count pauses a recovered feed on its first failure |
| `BreakerRuns.StepKeepsExplained` | internal/feeds/breaker.go:23-28 | fetches and prunes keep the failure that caused the pause in force stored and displayable |
| `BreakerRuns.DisabledIsExplained` | internal/feeds/health.go:26-63 | over all interleavings, health says "disabled" if and only if the feed is paused; the failure that caused the pause is then stored and newer than the display cutoff, and the report carries one no older |
| `BreakerRuns.FailingMeansFailedSince` | internal/feeds/health.go:33-63 | health says "failing" if and only if the feed is not paused and some displayable failure came after the last success |
| `BreakerRuns.HealthReads` | internal/feeds/health.go:33-63 | the report shows the end of a pause exactly while it is in force, the last success as it was, and the newest failure of the last 31 days, if there is one |
| `RefreshTokens.SurvivesTheCutoff` | internal/auth/middleware.go:19-29 | a token survives exactly if issued in the cutoff's second or later; none from the cutoff on is lost, and one from before outlives it only by less than a second |
| `RefreshTokens.AuthStore.ClaimRefreshToken` | internal/db/generated/token.sql.go:15-19 | claims a stored, unrevoked, unexpired token and nothing else |
| `RefreshTokens.AuthStore.RevokeToken` | internal/db/generated/token.sql.go:147-150 | the same without the expiry test |
| `RefreshTokens.AuthStore.DeleteAllRefreshTokensForUser` | internal/db/generated/token.sql.go:43-45 | exactly the user's rows go |
| `RefreshTokens.AuthStore.InvalidateUserSessions` | internal/db/generated/user.sql.go:133-135 | the user's cutoff moves to now |
| `RefreshTokens.AuthStore.RotateRefreshToken` | internal/handler/auth.go:341-369 | both or neither of claim and replacement, which stays with the user and the sign-in |
| `RefreshTokens.AuthStore.RejectUnclaimableToken` | internal/handler/auth.go:375-399 | a revoked token takes all of its user's tokens and sessions; an expired or unknown one changes nothing |
| `RefreshTokens.AuthStore.HandleTokenRefresh` | internal/handler/auth.go:314-332 | tokens are issued if and only if the presented one is claimable; presenting a revoked one is treated as reuse |
| `RefreshTokens.AuthStore.HandleRevokeToken` | internal/handler/auth.go:401-428 | signing out revokes and cuts off only with an active token, and is refused only without a token |
| `TokenRuns.StepKeepsRows` | internal/handler/auth.go:341-369 | each sign-in keeps at most one working token, and a token once dead stays dead |
| `TokenRuns.StepKeepsClaims` | internal/db/generated/token.sql.go:15-19 | a claimed token is never claimable again |
| `TokenRuns.StepKeepsReuses` | internal/handler/auth.go:388-398 | what a reuse deleted stays deleted and its cutoff is never undone |
| `TokenRuns.TokensAreClaimedOnce` | internal/handler/auth.go:334-340 | over all interleavings each token is claimed at most once and no sign-in has two working tokens |
| `TokenRuns.SecondRotationFails` | internal/handler/auth.go:334-360 | over every run: after a granted rotation another one with the same token issues nothing and goes the way of a failed claim |
| `TokenRuns.StepKeepsOwners` | internal/handler/auth.go:359 | a replacement belongs to whoever signed in when its family began |
| `TokenRuns.TokensStayWithTheirUser` | internal/handler/auth.go:341-369 | so does every stored token, over all interleavings |
| `TokenRuns.NewTokensWork` | internal/handler/auth.go:474-478 | a token just issued, by sign-in or rotation, is claimable for exactly thirty days |
| `TokenRuns.NewAccessIsAccepted` | internal/handler/auth.go:464-489 | the access token issued with it is for the user the refresh token belongs to, and no cutoff so far refuses it |
| `TokenRuns.TokensWorkUntilUsed` | internal/handler/auth.go:341-399 | over every run nothing that other users do, and no rotation of another token, changes it |
| `TokenRuns.ReuseIsFound` | internal/handler/auth.go:371-386 | presenting a stored revoked token leads to the deletion, with exactly the user's tokens on one list and exactly the sign-in's on the other |
| `TokenRuns.ReuseIsDealtWith` | internal/handler/auth.go:388-398 | whatever other requests do between its two statements, a found reuse that completes them is recorded with all it found, all stored when it deleted, and its cutoff |
| `TokenRuns.ReuseEndsTheSessions` | internal/handler/auth.go:371-399 | afterwards, whatever else runs, no token of either list is ever claimable and no access token from a second or more before the cutoff is accepted |
| `TokenRuns.LaterSessionsWork` | internal/auth/middleware.go:22-26 | while every access token from the cutoff on is |
| `TokenRuns.CutoffsEndAccess` | internal/handler/auth.go:413-420 | over every run: once a reuse or a sign-out has moved the cutoff, access tokens from a second or more before it are not accepted again |
| `TokenRuns.SigningOutEndsTheToken` | internal/handler/auth.go:401-411 | over every run: a token that was signed out with is never claimable again; one that was not revoked has its user cut off next |
| `TokenRuns.NewPasswordsEndSessions` | internal/users/userService.go:132-170 | over every run: after a new password none of the user's refresh tokens is ever claimable, nor an access token from a second or more before accepted |
| `JobQueue.StepKeepsLock` | internal/jobs/queue.go:60-88 | the lock keeps senders out once the flag is set, and the channel closes only after it |
| `JobQueue.StepKeepsJobs` | internal/jobs/queue.go:31-54 | no step loses, repeats or reorders a job |
| `JobQueue.JobsStartInOrder` | internal/jobs/queue.go:26-73 | over all interleavings: no send on the closed channel, jobs start once and in order of acceptance, accepted = buffered + running + finished |
| `JobQueue.ShutdownReturnsWhenDone` | internal/jobs/queue.go:90-110 | when the Shutdown that closed the queue has returned nil every accepted job has finished |
| `JobQueue.LaterShutdownsDoNotWait` | internal/jobs/queue.go:91-93 | any other Shutdown returns nil at once and changes nothing |
| `JobQueue.DrainShrinks` | internal/jobs/queue.go:31-54 | after the close every worker step leaves less to do and no other step adds to it |
| `JobQueue.WorkersCanMove` | internal/jobs/queue.go:31-54 | and there is such a step until all workers are gone, and while jobs wait |
| `JobQueue.QueueDrains` | internal/jobs/queue.go:97-106 | so a closed queue drains within a bounded number of worker steps |
| `JobQueue.JobQueue.constructor` | internal/jobs/queue.go:26-29 | ten places per worker, open and empty |
| `JobQueue.JobQueue.Enqueue` | internal/jobs/queue.go:63-73 | the lock-holding section is the machine's lock, check and send steps; a closed queue drops the job, full or not |
| `JobQueue.JobQueue.CloseChannel` | internal/jobs/queue.go:77-88 | the section that closes is the machine's, and only the first caller is told it closed |
| `FeedImport.NormalizeLegacySendDays` | internal/newsletters/import.go:121-139 | every newsletter of a version 1 export is normalised in place, any other export is left alone |
| `FeedImport.NormalizingKeepsSendTimes` | internal/newsletters/import.go:119-139 | normalising changes no next and no last send time, in any zone from any base, errors included |
| `FeedImport.NormalizedIsValid` | internal/newsletters/import.go:160-170 | the result passes validation, normalising is idempotent, and it changes exactly the invalid send days |
| `FeedImport.ImportFeeds` | internal/newsletters/import.go:201-244 | first occurrences with a known URL are attached, the others become import rows, both in order |
| `FeedImport.FirstOccurrencesAreFirst` | internal/newsletters/import.go:209-214 | each exported URL is handled exactly once, by the first feed that has it |
| `FeedImport.FirstOccurrencesInOrder` | internal/newsletters/import.go:209-214 | and in the order of the export |
| `FeedImport.KnownOrUnknown` | internal/newsletters/import.go:216-220 | every such feed goes exactly one of the two ways |
| `FeedImport.KnownInOrder` | internal/newsletters/import.go:216-232 | both ways in order |
| `ImportRuns.ImportTable.MarkFeedImportFailed` | internal/db/generated/feed_imports.sql.go:227-231 | a row still there becomes failed |
| `ImportRuns.ImportTable.RetryFeedImport` | internal/db/generated/feed_imports.sql.go:243-247 | only a failed row becomes pending |
| `ImportRuns.ImportTable.DeleteFeedImport` | internal/db/generated/feed_imports.sql.go:57-59 | Remove, and whether there was something to remove |
| `ImportRuns.ImportTable.AddImportedFeed` | internal/newsletters/import.go:402-435 | claim and attach together or not at all; nothing for a row that is gone |
| `ImportRuns.StepKeepsRows` | internal/newsletters/import.go:361-395 | a created row is in the table or has left it once |
| `ImportRuns.StepKeepsAttachments` | internal/newsletters/import.go:416-421 | only a claimed row attaches |
| `ImportRuns.ImportsEndOnce` | internal/newsletters/import.go:361-435 | over all interleavings of resolvers, Retry and Remove: a row leaves once, attaches at most once, never after a Remove, and is otherwise pending or failed |
| `ImportRuns.ClaimedRowsAttach` | internal/newsletters/import.go:402-435 | over all interleavings: a claim takes its row out of the table and leaves its feed in the newsletter the row was made for |
| `ImportRuns.FailureAndRetry` | internal/db/generated/feed_imports.sql.go:227-247 | a failed resolution shows on its row alone and keeps resolvers off it; a Retry lets one take it up again |
| `ImportRuns.FailedRowsWait` | internal/db/generated/feed_imports.sql.go:155-157 | over every run: a failed row nobody is resolving stays failed, and unresolved, until it is retried or removed |
| `ImportRuns.FeedsAreAccountedFor` | internal/newsletters/import.go:416-428 | over every run: feeds then = feeds before + added by the owner + one per row that attached - removed |
| `ImportRuns.MovesAndRemovals` | internal/db/generated/feeds.sql.go:676-682 | a move takes the feed from one newsletter to the other unless the target has it, and then changes nothing; a removal takes that feed alone |
| `ImportRuns.StepKeepsFeedsExactlyWhen` | internal/db/generated/feeds.sql.go:15-23 | imports, moves and removals never give a newsletter a feed twice; the owner's adding does if and only if the newsletter has the feed |
| `ImportRuns.NewslettersKeepOneOfEachFeed` | internal/db/generated/feeds.sql.go:46-48 | over every run no newsletter has a feed twice in any state if and only if every feed its owner adds is new to it |

## Left out

- Everything under web/, HTTP routing and middleware, cookies, configuration, logging: plumbing without state of its own.
- Feed fetching and parsing, the feed cache, item filters, HTML assembly: outcomes are nondeterministic, and no claim is made that every published item is delivered; the cache may be stale, and a retry after a lost reply does not replace the email already accepted.
- Password hashing, token generation, JWT signing and expiry: tokens are opaque, and new ones differ from all earlier ones.
- The contents of the time-zone database: zones are arbitrary functions, and the hypotheses of the zone theorems are stated on them. Go's rule for resolving a wall-clock time is modelled; the database's bounds on years are not.
- Postgres isolation below a statement or transaction, and timestamps stored with microseconds: each is one step over one clock with nanoseconds.
- ForceSendNewsletter and ForcePoll, which exist for development.
- The worker pool and unbuffered channel of the newsletter scheduler: the protocol is modelled for one newsletter, whose jobs do not overlap.
- How long the provider remembers an idempotency key, and what it does with a different body under the same key.
- Floating point in the limiter, unlimited rates and the limiter's own locking: buckets are over reals and calls are atomic.
- Concurrent sends that all pass the budget check before one is spent, and concurrent attempts on one code: both are atomic here.
- Message texts: why a feed or an import failed is not recorded, only that it did and when.
- Import size limits, JSON, and the grouping of resolutions into jobs.
- Bulk deletion of newsletters, feeds and accounts.
- NewsletterRow.NewsletterRow.UpdateNewsletter: the name column and updated_at are not in the model.
- NewsletterRow.UpdateStatuses: a failure of the database half way, which rolls back, is not in the model; that an unknown id rolls back is.
- VerifyLockout.VerifyAccount.SendCode: whether there is budget is a parameter; the budget itself is in `SendBudget`.
- RefreshTokens.AuthStore.HandleTokenRefresh: runs without interleaving; `TokenRuns` takes its statements apart.
- ImportRuns.ImportTable.AddImportedFeed: alias, status and filters of the attached feed are not in the model.
- JobQueue.JobQueue.Enqueue: states the section of an open queue for a buffer with room; that a blocked sender gets room is `JobQueue.WorkersCanMove`.
- Deliveries.RunsDeliverInOrder: is about runs without edits and one-offs, since an edit changes what a slot is; runs with them are the subject of `Plans.RunsKeepOrderExactlyWhen`, `Plans.RunsKeepCalendarExactlyWhen`, `Deliveries.RunsKeepKeysApart`, `Deliveries.RunsAreDueExactlyWhen` and `Windows.RunsKeepWindows`.
- NewsletterRow.NewsletterRow.ScheduleOneOffSend: runs without interleaving, as does CancelOneOffSend; `SendProtocol` takes their statements apart.
- Plans.OneOffLeavesTheRegularTime: asks that the job and the row agree on the next slot; what is recorded otherwise is in `Plans.StepRefinesPlan`.
- FallingBack.NextStaysAheadExactlyWhen: asks that offsets around the date are whole minutes and that a gap has regular dates beside it; `Zones.NextNotBeforeBase` asks for neither.
- LateLandings.LastStaysBehindExactlyWhen: asks the same of the dates its schedules go to; `Zones.LastNotAfterBase` asks for neither.
