# Verification models of the mastomini boards

This project models the parts of the repository whose correctness is hardest to see by reading, and proves what they
promise. Each module names the source files it models; a file of the repository that is not named is not part of this
model.

* **Time.** `Calendar` is the day arithmetic against the leap rule and the month lengths; `LocalTime` the POSIX daylight
  saving rules and the inversion of wall clock times; `Zones` what a zone's rules must look like for schedules to work, and
  the zones offered; `Schedules` the slots of a schedule; `SlotOrder` exactly which zones make the next slot wrong, and
  `LateChange` one of them; `IsoDates` and `MailDates` writing and reading dates.
* **Bot runs.** `BotRuns` has one bot's steps as functions, `BotService` the service object whose methods take them;
  `BotHistory`, `BotRecords`, `Rescheduling`, `Retries` and `Posting` are about every history of those steps, with any clock,
  failed writes, power cuts and lost jobs. `FileStore` is the store whose writes succeed or leave the old value.
* **Timer handoff.** `Timers` is the bots board's queue, `Handoffs` mastomini's side, and `HandoffProtocol` the two of them
  with a network that loses, delays and repeats; `Publication` is what they get done.
* **Setup.** `Enrollment` is the journaled account setup, split at every save and remote call; `EnrollmentSuccess`
  shows that it ends well when it is answered; `EnrollmentRun` is the workflow as written, proved to be a run of those steps.
* **Codecs.** `Multipart`, `PngRows` (with `Scaling`), `Templates`, `Morse`, `ZlibStored` and `Ids`: loops proved against a
  specification, and the reader that undoes the writer (`TemplateMeaning` for templates). `Text`, `Arith` and `Options` are shared.

`dafny verify dfyconfig.toml` checks everything.

Where the code differs from what is said about it, the model follows the code, and the difference is a lemma:

* `latest_at` is documented as the latest slot at or before now; for a period of more than two days it is often missing
  (`Schedules.EveryAlwaysHasLatest`, `Schedules.EveryMissesAtTwoDays`). No setting reaches this: settings limit a period to
  1 to 1440 minutes (mastomini_bots/src/settings.rs:344, 363).
* `next_after` is documented as the first slot after an instant; a zone whose clock change moves a skipped minute past
  midnight breaks this (`SlotOrder.NextAfterExactly` says exactly which do, `LateChange.NextAfterIsNotLeast` shows one). No
  setting can produce such a zone: settings take only the fourteen zones offered (mastomini_bots/src/settings.rs:172, 261),
  and these are in order (`Zones.ZonesAreTame`).
* Scheduled posts are documented to be retried through storage outages (docs/usage/scheduled-posts.md:49). When mastomini's
  storage is full at the callback it saves nothing and answers 422 - `map_store_error` makes a full store a validation
  error - which the bots board takes as final (mastomini_bots/src/scheduler.rs:175): the timer of an acknowledged post is
  dropped, and the post is not offered again before mastomini restarts or is configured anew
  (`HandoffProtocol.FinalRefusalLosesTimer`, `HandoffProtocol.TimersAreKeptExactly`).
* A change of schedule that cannot be saved still forgets the pending retry, so the slot is tried again at once and the
  back-off no longer bounds the tries (`Retries.UnsavedChangesTryAgain`).
* A change of schedule while a scheduled run is under way can be overwritten by that run
  (`Rescheduling.RescheduledWhileRunning` and `Rescheduling.RescheduledWhileRunningOnward` say exactly when an old slot is
  then run).
* The shrinker's 32-bit sums can overflow when the target is one pixel, exactly for pictures of more than 16843009 pixels
  (`PngRows.OnePixelSumsFitExactly`).
* A date from the year 10000 on is written, but not read back (`IsoDates.IsoReadsBack`); a stored zlib stream of no data has
  no final block (`ZlibStored.UnzipUndoesZip`).

## Model

| member | source | states |
|---|---|---|
| `Calendar.DaysFromCivilCounts` | mastomini_bots/src/tz.rs:7-15 | the closed formula is the count of days by the leap rule and the month lengths, for every year and every month of 1 to 12 |
| `Calendar.CivilRoundTrip` | mastomini_bots/src/tz.rs:18-28 | every day number gives a real date, and that date gives the number back |
| `Calendar.DateRoundTrip` | mastomini_bots/src/tz.rs:7-28 | every real date comes back from its day number |
| `Calendar.DaysAreMonotone` | mastomini_bots/src/tz.rs:7-15 | of two real dates the earlier one has the smaller number, and only it |
| `Calendar.DaysInMonthIsMonthLength` | mastomini_bots/src/tz.rs:35-42 | the difference of two month starts is the length the calendar gives the month, leap years included |
| `Calendar.YearOfDay` | mastomini_bots/src/tz.rs:18-28 | the year of a day is y exactly from the first day of y up to that of y + 1 |
| `LocalTime.ComputeRuleDate` | mastomini_bots/src/tz.rs:56-63 | the loop that steps back by weeks ends on the rule's date as the specification function gives it |
| `LocalTime.RuleDateIsTheNamedDay` | mastomini_bots/src/tz.rs:44-63 | a day of the month is the rule's date if and only if it has the rule's weekday and is in its week - the last such one for week 5 |
| `LocalTime.ResolveByIsFirst` | mastomini_bots/src/tz.rs:270-289 | with the offset always one of those tried, the choice is the earliest instant that reads as the wall time, or the first offset's reading when none does |
| `LocalTime.ResolveIsFirstReading` | mastomini_bots/src/tz.rs:219-289 | for every zone and wall time: the earliest instant that reads as it, and inside a gap one that reads exactly the difference of the offsets later |
| `LocalTime.UtcMsInvertsLocal` | mastomini_bots/src/tz.rs:247-289 | for every zone, real date and time of day with a non-negative result: if some instant shows it, `local` of `utc_ms` shows exactly those fields and no earlier instant does; else it reads later by the shift |
| `LocalTime.LocalAtReads` | mastomini_bots/src/tz.rs:247-265 | for every zone and millisecond: a real date and time of day, which counted in seconds are the instant moved by the offset given; the weekday of that date, Sunday 0, counted from a Thursday on 1 January 1970; and the offset and daylight saving in force |
| `Zones.DaylightPeriods` | mastomini_bots/src/tz.rs:219-238 | with changes apart, daylight time is on exactly inside the periods from a start to the next end, across the new year too |
| `Zones.LocalInDaylight` | mastomini_bots/src/tz.rs:219-265 | so the reading of an instant is marked daylight saving exactly inside the periods |
| `Zones.WellApartIsTame` | mastomini_bots/src/tz.rs:219-289 | in a zone whose changes are apart and on whole minutes, whichever way they move the clock: no period is as short as the shift, and if no skipped minute is moved past midnight, what the clock reads beside a gap is of the skipped time's day |
| `Zones.SuitableIsTame` | mastomini_bots/src/tz.rs:155-238 | the same from the rules alone: months 2 to 11, two months apart, times within a week of their dates, less than a day moved |
| `Zones.ZonesAreTame` | mastomini_bots/src/tz.rs:301-372 | all fourteen zones offered have that form |
| `Schedules.ComputeLatestAt` | mastomini_bots/src/schedule.rs:77-86 | the loop over successive slots ends, and computes the specification of the latest slot |
| `Schedules.CheckedExactly` | mastomini_bots/src/schedule.rs:29-46 | a schedule is accepted if and only if it is manual, a period of at least a minute, or one to four times of day of a zone with real rules |
| `Schedules.SlotShowsItsTime` | mastomini_bots/src/schedule.rs:47-74 | in every zone, a day's slot for a time is the first instant whose clock shows that time of that day, and in a gap the one whose clock shows it later by the shift |
| `Schedules.NextAfterIsLeast` | mastomini_bots/src/schedule.rs:47-74 | the next slot is the least slot of any day strictly after the instant, and exists unless the schedule is manual |
| `Schedules.LatestIsSlot` | mastomini_bots/src/schedule.rs:47-86 | in every zone and schedule, the latest slot is a slot at or before now |
| `Schedules.LatestAtIsGreatest` | mastomini_bots/src/schedule.rs:77-86 | the latest slot is the greatest one at or before now of the last two days, and missing exactly when those hold none |
| `Schedules.LatestIsMonotone` | mastomini_bots/src/schedule.rs:77-86 | as the clock advances the latest slot never goes back |
| `Schedules.DailyAlwaysHasLatest` | mastomini_bots/src/schedule.rs:77-86 | from two days past 1970 a daily schedule always has a latest slot |
| `Schedules.EveryAlwaysHasLatest` | mastomini_bots/src/schedule.rs:62-86 | a period always has a latest slot if and only if it is at most two days |
| `Schedules.EveryMissesAtTwoDays` | mastomini_bots/src/schedule.rs:62-86 | for every longer period, an instant at which the latest slot is lost |
| `SlotOrder.NextAfterExactly` | mastomini_bots/src/schedule.rs:47-74 | for every zone whose changes are apart and on whole minutes, with daylight time ahead of standard time or behind it: every daily schedule finds its least slot after every instant if and only if g + 2s <= 24 h 1 min, or g = 23:59 and s <= 12 h 1 min, for a clock that goes forward by s at time g of day at the start; and, when it goes forward by n at time h at the end, n <= h + 1 min and h + n <= 24 h 1 min |
| `SlotOrder.StartSkipsSlot` | mastomini_bots/src/schedule.rs:47-74 | the failing schedule for a start that moves a skipped minute past midnight: that minute alone, asked for when the clock already reads the next day |
| `SlotOrder.EndSkipsSlot` | mastomini_bots/src/schedule.rs:47-74 | the one for an end: the skipped minute and one of the day before, asked for just before the skipped minute's slot |
| `LateChange.NextAfterIsNotLeast` | mastomini_bots/src/schedule.rs:47-74 | one such zone worked out: forward at 23:30, and a schedule of two times for which the next slot found is 00:45 although 00:30 comes first |
| `BotHistory.IssuedInTime` | mastomini_bots/src/service.rs:497-601 | a scheduled job is for the latest slot, with last slot < slot <= now <= slot + grace, on an idle bot that is on, and no earlier than its pending retry |
| `BotHistory.DueExactly` | mastomini_bots/src/service.rs:497-601 | a look starts a job if and only if the clock is set, the bot is idle and has its server and key, and: the job is the first kind asked for; or nothing is asked for, the bot is on, the slot is the schedule's latest and after the last one handled, at most the grace ago, and no retry waits for a later time |
| `BotHistory.StartedState` | mastomini_bots/src/service.rs:497-561 | starting it takes its own request and marks the bot running, and changes nothing else |
| `BotHistory.LookRecords` | mastomini_bots/src/service.rs:564-601 | a look that starts nothing records the latest slot exactly when it is the first seen or is missed by more than the grace, and then clears the retry of a missed one; else it changes nothing |
| `BotHistory.FitForgetsOnlyMemory` | mastomini_bots/src/service.rs:301-333 | making a record fit changes nothing but the bot's memory, forgets only when the record is too long, and ends when it fits or has no memory |
| `BotHistory.FitForgetsTheLargest` | mastomini_bots/src/service.rs:301-333 | every value forgotten is at least as long as every value kept |
| `BotRecords.FitForgetsNoMore` | mastomini_bots/src/service.rs:301-333 | and with the value forgotten last the record would not have fitted |
| `BotHistory.ScheduledSlotEffect` | mastomini_bots/src/service.rs:564-601 | looking for a slot changes only the last slot - to the latest one, never backwards - and the retry state, and durably only if saved |
| `BotHistory.FinishEffect` | mastomini_bots/src/service.rs:603-670 | a scheduled run that ends either settles its slot and clears the retry state or sets the next try, and other runs leave both alone |
| `BotHistory.ConfigureEffect` | mastomini_bots/src/service.rs:391-457 | a change that is refused or not saved leaves the record and its stored copy alone; one that re-arms moves the last slot to the new schedule's latest one |
| `BotRecords.ChangeLands` | mastomini_bots/src/service.rs:391-457 | a change that succeeds puts the server, the key, the switch and the settings given each in its own place, saved, and leaves what was not given, the results and the memory |
| `BotRecords.ChangeSucceedsExactly` | mastomini_bots/src/service.rs:391-457 | a change succeeds if and only if each value given is acceptable, it can be saved, the schedule can be run, and a bot then on is ready and has the server and key it needs |
| `BotRecords.RearmsExactly` | mastomini_bots/src/service.rs:430-436 | the schedule is re-armed if and only if the bot is on afterwards, and was off before or had another schedule |
| `BotRecords.OnIsReady` | mastomini_bots/src/service.rs:376-457 | over every history from the first start: a bot that is on is ready, has its server and key if it posts, and has a schedule that can be run |
| `BotRecords.FinishRecords` | mastomini_bots/src/service.rs:603-664 | a check is noted as the last check only; a run as the last run, counted, as a failure too if it failed, and its memory is kept as far as it fits |
| `BotRecords.SavedSurvives` | mastomini_bots/src/service.rs:200-270 | after a power cut the bot is as it was last saved, with nothing running, asked for or waited for |
| `BotRecords.SavedCallsSurvive` | mastomini_bots/src/service.rs:301-457 | and what a saved run or change left is what survives |
| `BotRecords.RequestExactly` | mastomini_bots/src/service.rs:459-482 | a request is accepted if and only if the bot has the server and key it needs, and a model for a model check; then its own kind is asked for and nothing else changes |
| `BotHistory.PastIsNeverIssued` | mastomini_bots/src/service.rs:391-670 | over every history of clocks stepping back, failed writes, lost jobs, restarts and changes of the schedule made by a clock at or after x, no slot up to x is started once these are behind the bot |
| `BotHistory.SettledIsNeverIssued` | mastomini_bots/src/service.rs:603-670 | the same for a slot whose run ended without a retry to come and was saved |
| `BotHistory.MissedIsNeverIssued` | mastomini_bots/src/service.rs:564-601 | the same for a slot found later than the grace, and it is not started when found either |
| `BotHistory.AskedStartsInTime` | mastomini_bots/src/service.rs:459-561 | what the admin asks for is started once an idle bot has been looked at more often than there are things to start before it, asked for by then or later - over every history without a power cut, through runs, results, changes and failed writes |
| `Rescheduling.RescheduledIdle` | mastomini_bots/src/service.rs:430-445 | after an idle bot is turned on or rescheduled at n, by any schedule settings can choose, manual too, every later scheduled slot is after n, over every history and any clock |
| `Rescheduling.FirstLookStartsNothing` | mastomini_bots/src/service.rs:564-601 | turned on before the clock was set: the first look starts nothing and all later slots are after it |
| `Rescheduling.RunOverwritesChange` | mastomini_bots/src/service.rs:603-670 | when a scheduled run ends after such a change, and is not tried again, its old slot replaces the one the change chose; if it is tried again, the change stands |
| `Rescheduling.RescheduledWhileRunning` | mastomini_bots/src/service.rs:391-670 | for a change saved while a scheduled run is under way, then any looks, requests and other changes, then the end of the run, saved or not: whatever the clock does, later slots are after n if and only if the run is tried again, or its slot is no earlier than the new schedule's latest one at n |
| `Rescheduling.RescheduledWhileRunningOnward` | mastomini_bots/src/service.rs:391-670 | the same for a clock that does not step back: or the grace has passed that slot, or it is no longer the latest |
| `Rescheduling.OverdueIsIssued` | mastomini_bots/src/service.rs:497-670 | in the other case, the looks that start a slot from before the change, after whatever the admin asked for |
| `Retries.TriesAreBounded` | mastomini_bots/src/service.rs:391-670 | within one boot and with a clock that does not step back, a slot is started at most 4 + (G - 21) / 30 times for a grace of G >= 21 minutes, and 1, 2 or 3 times below, whatever retry counter is inherited, and through changes of the schedule that are saved |
| `Retries.UnsavedChangesTryAgain` | mastomini_bots/src/service.rs:430-457 | changes of the schedule that cannot be saved forget the pending retry: with them a slot is tried any number of times, at one instant of one boot |
| `Retries.TriesFit` | mastomini_bots/src/service.rs:31-31 | the waits before the n-th try fit the grace if and only if n is at most that bound |
| `Retries.TriesAreSpaced` | mastomini_bots/src/service.rs:639-657 | the waits between the tries of a slot add up to at least the back-off table's |
| `Retries.RetriesStayInGrace` | mastomini_bots/src/service.rs:639-657 | over every history, a pending retry is within slot + grace of the slot of the scheduled run that ended last |
| `Retries.RetryExactly` | mastomini_bots/src/service.rs:639-657 | a scheduled run that ends is to be tried again if and only if it failed in a way that might pass and the back-off of 1, 5, 15, then 30 minutes ends within the grace; then after exactly that, its slot staying open, else its slot is settled |
| `Retries.RetryIsStarted` | mastomini_bots/src/service.rs:497-670 | and it is tried again: in the same boot, with a clock that does not step back and no change of the schedule, by the first look at or after that time that finds the bot idle and on, nothing asked for, and the slot still the latest and within the grace |
| `Posting.KeyInjective` | mastomini_bots/src/bot.rs:202-235 | the id, the kind of run and the slot are determined by the idempotency key, for any ids without a colon, as all bots' are |
| `Posting.PublishAnswersOwnPost` | mastomini_bots/src/bot.rs:215-225 | a server that returns the first post for a known key answers every run with the one post of its own bot and slot |
| `Posting.OnePostPerDelivered` | mastomini_bots/src/service.rs:497-724 | over all runs of a bot, with other bots' posts in between, retries, lost answers, posts that arrive late or again, jobs lost between the post and its record, restarts and any clock: of each bot, kind and slot the server has exactly one post if one was delivered or already there, else none |
| `Posting.AnswersAreOwnPosts` | mastomini_bots/src/bot.rs:202-235 | every request is answered with the one post of its own bot, kind and slot, so all tries of a slot share a post and no others do |
| `Posting.DeliveredIsIssued` | mastomini_bots/src/service.rs:497-724 | every post of the bot is of a run the service started |
| `Posting.SettledSlotHasItsPosts` | mastomini_bots/src/service.rs:603-724 | once a slot's run has ended for good and that is saved, the slot and all before it keep their posts for ever: one if any try in any boot delivered it, else none |
| `BotService.Service.Open` | mastomini_bots/src/service.rs:200-270 | each record is the stored one, else a fresh one with the bot's own server, and nothing is running |
| `BotService.Service.Save` | mastomini_bots/src/service.rs:301-333 | the loop that forgets memory is `Fit`; the store changes only under the bot's own key and only if the write succeeds |
| `BotService.Service.Scheduled` | mastomini_bots/src/service.rs:564-601 | takes exactly the step of the specification for its bot and leaves every other bot as it was |
| `BotService.Service.SettleSlot` | mastomini_bots/src/service.rs:666-670 | sets the slot and clears the retry state, for its bot only |
| `BotService.Service.DueOne` | mastomini_bots/src/service.rs:497-561 | one bot's look takes the specified step, and no other bot changes |
| `BotService.Service.Due` | mastomini_bots/src/service.rs:497-561 | all bots are looked at once, each on its own state, and the jobs are those of the bots whose step issues one, in order |
| `BotService.IssuedOnce` | mastomini_bots/src/service.rs:497-561 | each bot has at most one job in the answer, in the order of the bots, exactly if its step issues it |
| `BotService.Service.Finish` | mastomini_bots/src/service.rs:603-664 | takes the specified step for the job's bot and leaves the others as they were |
| `BotService.Service.Configure` | mastomini_bots/src/service.rs:391-457 | all of the change, saved, or the record as before, and no other bot changes |
| `BotService.Service.Request` | mastomini_bots/src/service.rs:459-482 | one request is noted for an idle look later, or refused, and nothing else changes |
| `FileStore.Store.PutValue` | mastomini_bots/src/store.rs:67-80 | a value is put, in memory and in the file, or both stay as they were |
| `FileStore.Store.DeleteValue` | mastomini_bots/src/store.rs:82-90 | the same for a deletion; deleting what is not there cannot fail |
| `FileStore.Store.Save` | mastomini_bots/src/store.rs:54-59 | the file is replaced by what is in memory, whole, or not at all |
| `FileStore.LastSuccessStands` | mastomini_bots/src/store.rs:54-90 | a key reads as its last call that succeeded left it, over any calls and faults |
| `Timers.Board.ReceiveRequest` | mastomini_bots/src/scheduler.rs:53-120 | the method computes the specified queue and status, check by check, and keeps the stored copy equal |
| `Timers.Board.Collect` | mastomini_bots/src/scheduler.rs:123-148 | the copied callbacks are exactly the timers whose time has come, early or late, and none while a retry is waited for |
| `Timers.DueInOrder` | mastomini_bots/src/scheduler.rs:136-146 | each of them once, in queue order |
| `Timers.Board.TakeAnswer` | mastomini_bots/src/scheduler.rs:159-208 | an answer is applied to the queue as it is then, not as it was when the callback was made |
| `Timers.Board.Restart` | mastomini_bots/src/scheduler.rs:29-38 | after a power cut the queue is the stored one, and nothing waits |
| `Timers.Board.Open` | mastomini_bots/src/scheduler.rs:29-38 | starting from any stored queue that loading accepts |
| `Timers.ReceiveEffect` | mastomini_bots/src/scheduler.rs:53-120 | an accepted request leaves exactly its own timer for its id, or none if it cancels, and was no older than what it replaced; a refused one changes nothing; 429 only for a new id on a full queue |
| `Timers.AcceptedExactly` | mastomini_bots/src/scheduler.rs:53-120 | a request is accepted if and only if it is well formed, from the bot's own server, no older than the timer it replaces, finds room and can be stored |
| `Timers.AnswerEffect` | mastomini_bots/src/scheduler.rs:159-208 | an answer removes exactly the timer of its id and revision, if it is 2xx, 404, 410 or 422 and that can be saved; after any other, or none, the next call is thirty seconds away; an answer for a timer changed meanwhile does nothing |
| `Timers.ReceiveKeepsForm` | mastomini_bots/src/scheduler.rs:84-120 | at most sixteen timers with distinct ids, after every request |
| `Timers.AnswerKeepsForm` | mastomini_bots/src/scheduler.rs:159-208 | and after every answer |
| `Handoffs.Outbox.OfferNext` | mastomini_rs/src/scheduler_bridge.rs:20-50 | the locked first part of a transfer chooses and moves the cursor as specified |
| `Handoffs.Outbox.FindPending` | mastomini_rs/src/scheduler_bridge.rs:26-37 | the search finds the first pending job above an id |
| `Handoffs.Outbox.TakeAnswer` | mastomini_rs/src/scheduler_bridge.rs:52-78 | the locked second part counts an answer only for the same configuration and revision |
| `Handoffs.OfferIsNext` | mastomini_rs/src/scheduler_bridge.rs:20-50 | the job offered is the next pending id in cyclic order after the cursor, and none only if none is pending |
| `Handoffs.HandoffIsFair` | mastomini_rs/src/scheduler_bridge.rs:26-50 | if the pending set only shrinks, a job that stays pending is offered within as many transfers as jobs were pending, whatever the answers |
| `HandoffProtocol.HomeWork` | mastomini_rs/src/domain/scheduled.rs:223-273 | any work that only advances revisions keeps what the two boards have told each other true |
| `HandoffProtocol.FinalAnswerIsOver` | mastomini_rs/src/domain/scheduled.rs:275-331 | a final answer to a callback means that this revision is not, and will not be, to be published, unless the callback left it as it was |
| `HandoffProtocol.ArriveKeepsInv` | mastomini_bots/src/scheduler.rs:53-120 | a request that arrives - late, again, or without its answer getting back - keeps every promise made |
| `HandoffProtocol.EndTransferKeepsInv` | mastomini_rs/src/scheduler_bridge.rs:52-78 | so does counting an acknowledgement |
| `HandoffProtocol.EndCallKeepsInv` | mastomini_bots/src/scheduler.rs:159-208 | so does removing a timer |
| `HandoffProtocol.StepKeepsInv` | mastomini_bots/src/scheduler.rs:41-212 | every atomic step of both boards keeps the invariant |
| `HandoffProtocol.OnlyDoomedPostsLoseTimers` | mastomini_rs/src/scheduler_bridge.rs:52-78 | under any interleaving with lost, late and repeated requests, lost answers, failed writes and restarts: each acknowledged post still to be published has its timer, with its present time, in the durable queue, unless its callback got a final answer that left it as it was; the queue is bounded, has distinct ids and equals its stored copy |
| `HandoffProtocol.FinalRefusalLosesTimer` | mastomini_rs/src/domain/mod.rs:1302-1317 | the losing run: a post is acknowledged, its callback is answered 422 because the storage is full, and it is still to be published but has no timer |
| `HandoffProtocol.TimersAreKeptExactly` | mastomini_bots/src/scheduler.rs:159-208 | over all runs, acknowledged posts keep their timers if and only if no callback is answered finally with its job left as it was |
| `HandoffProtocol.TimersLeaveOnlyFor` | mastomini_bots/src/scheduler.rs:53-212 | over whole runs, a timer leaves the queue only by an accepted request for its id or a final answer for exactly its revision |
| `Publication.CollectedExactly` | mastomini_bots/src/scheduler.rs:123-148 | an idle board calls a timer if and only if it is in the queue, its time has come and no retry is waited for |
| `Publication.DueTimerIsCalled` | mastomini_bots/src/scheduler.rs:123-212 | over whole runs: a timer is removed by a request or a final answer, or the first collection at or after its time and the time waited for puts it among the next sixteen callbacks, which are made in turn whatever happens meanwhile |
| `Publication.DuePostIsPublished` | mastomini_rs/src/domain/scheduled.rs:275-331 | every acknowledged post still to be published, not lost to a full storage, is published within one tick once it is due, if the callbacks are answered - whatever else is due |
| `Publication.AnsweredCallbackDropsTimer` | mastomini_bots/src/scheduler.rs:159-208 | a callback that mastomini deals with, answered and noted, removes its timer: published, rejected, cancelled or moved |
| `Publication.UnansweredCallbackKeepsTimer` | mastomini_bots/src/scheduler.rs:159-208 | one that is not answered, or put off, keeps its timer and waits thirty seconds |
| `Publication.PendingExactly` | mastomini_rs/src/scheduler_bridge.rs:20-37 | what waits for the bots board: posts still to be published and cancellations, until their revision is acknowledged |
| `Publication.AcceptedHandoffIsAcknowledged` | mastomini_rs/src/scheduler_bridge.rs:52-78 | an accepted handoff whose answer counts is acknowledged: the job waits no longer, nothing else changes in what waits, and the queue has its timer, or none if it was cancelled |
| `Publication.RefusedHandoffWaits` | mastomini_rs/src/scheduler_bridge.rs:52-78 | one refused or not answered changes only the error shown, and is offered again |
| `Publication.PostStays` | mastomini_rs/src/domain/scheduled.rs:139-331 | a post that is neither done nor cancelled and handed over stays as it is through every step that is not about it |
| `Publication.MovedPostWaits` | mastomini_rs/src/domain/scheduled.rs:223-255 | a post moved by its author is a new revision that waits for the bots board, whatever was acknowledged before |
| `Publication.CancelledPostWaits` | mastomini_rs/src/domain/scheduled.rs:223-255 | and so is a cancelled one |
| `Enrollment.StepKeepsInv` | mastomini_bots/src/enrollment.rs:507-714 | every save, request, lost or late answer, power cut and stranger's account keeps the invariant of the setup |
| `Enrollment.SetupIsSafe` | mastomini_bots/src/enrollment.rs:427-714 | over any number of interrupted and resumed setups: a name has one account; each account created has the name and password of a durable draft; an account or key in a draft is proved by its password and is nobody else's |
| `Enrollment.RunGrows` | mastomini_bots/src/enrollment.rs:289-298 | accounts stay, so a name is created at most once for good, and a durable draft keeps its password and all it has got |
| `Enrollment.LostAccountIsFound` | mastomini_bots/src/enrollment.rs:545-600 | an account whose creation was never answered is adopted by the next run, which sends no further create request |
| `EnrollmentSuccess.AnsweredSetupSucceeds` | mastomini_bots/src/enrollment.rs:507-714 | from any state that interrupted setups leave, with each name free or its account proved by the draft's password: a fresh or resumed setup whose requests are answered and saves written ends, after at most thirteen of them, with the keys the bot had before and, where it had none, those of the accounts of its name - for the news bot Nana's own reading key - and no other bot's keys change |
| `EnrollmentSuccess.ResumedSetupSucceeds` | mastomini_bots/src/enrollment.rs:427-714 | so it does after any number of interrupted and resumed setups |
| `EnrollmentSuccess.NewsCreatesNoUser` | mastomini_bots/src/enrollment.rs:545-558 | the setup of the news bot creates no account on NanaCoin |
| `EnrollmentRun.Setup.Meanwhile` | mastomini_bots/src/enrollment.rs:507-714 | what others do before a request or save, late requests included, is a run of exactly their steps |
| `EnrollmentRun.Setup.FindOrCreate` | mastomini_bots/src/enrollment.rs:552-600 | listing, proving or creating the account, and noting its id, is a run of the steps from the list to the save |
| `EnrollmentRun.Setup.ConnectNana` | mastomini_bots/src/enrollment.rs:531-628 | so is getting the key for NanaCoin; a draft that comes back has one unless the bot had one |
| `EnrollmentRun.Setup.ConnectMini` | mastomini_bots/src/enrollment.rs:629-658 | so is getting the key for Mastomini, leaving the other one alone |
| `EnrollmentRun.Setup.Finish` | mastomini_bots/src/enrollment.rs:659-714 | so is trying both keys and configuring them; it succeeds exactly if the run of steps comes to its end |
| `EnrollmentRun.Setup.Connect` | mastomini_bots/src/enrollment.rs:507-714 | for every fate of each request and save and everything others do, the whole workflow is exactly the run of the steps these determine, keeps the invariant, and succeeds exactly if that run comes to its end; if nothing goes wrong from a state that can be set up, it succeeds with both keys configured |
| `Multipart.Params.AddMultipart` | mastomini_rs/src/http.rs:375-429 | for every body the parser ends, and appends exactly what the specification parses, also before an error |
| `Multipart.Params.AddParts` | mastomini_rs/src/http.rs:391-428 | its loop over the parts |
| `Multipart.Params.AddPart` | mastomini_rs/src/http.rs:407-427 | one part adds a file, a field or nothing |
| `Multipart.CollectHeaders` | mastomini_rs/src/http.rs:407-418 | the header lines are read in order, later ones replacing earlier ones |
| `MultipartRoundTrip.ParsingUndoesEncoding` | mastomini_rs/src/http.rs:375-429 | for every boundary of RFC 2046 section 5.1.1, preamble, epilogue and items with clean names and no delimiter line in their data: exactly those fields and files, in order |
| `MultipartRoundTrip.BoundaryRefusedExactly` | mastomini_rs/src/http.rs:375-384 | a body is refused for its boundary if and only if that is not 1 to 70 of the characters of RFC 2046 section 5.1.1, the last no space |
| `MultipartRoundTrip.NoDelimiterIsMalformed` | mastomini_rs/src/http.rs:385-389 | a body without a line that is its delimiter is malformed and adds nothing |
| `MultipartRoundTrip.UntypedFileReads` | mastomini_rs/src/http.rs:405-420 | a file without a type is of type application/octet-stream |
| `MultipartRoundTrip.NamelessPartAddsNothing` | mastomini_rs/src/http.rs:407-421 | a part without a disposition adds nothing |
| `MultipartRoundTrip.DataEnds` | mastomini_rs/src/http.rs:483-497 | the delimiter found is the one after the data, not one inside a line of it |
| `MultipartRoundTrip.HeaderReads` | mastomini_rs/src/http.rs:407-427 | a part's header gives back its name, file name and type |
| `MultipartRoundTrip.DispositionReads` | mastomini_rs/src/http.rs:499-504 | a quoted parameter is found by its key and unquoted |
| `MultipartRoundTrip.HeaderEnds` | mastomini_rs/src/http.rs:397-400 | the blank line found is the one after the header |
| `PngRows.Rows.Add` | mastomini_bots/src/preview.rs:100-122 | a row keeps the state of the shrinker: whole lines out, the current one summed over exactly the rows so far |
| `PngRows.Rows.AddPixels` | mastomini_bots/src/preview.rs:106-121 | the pixel loop adds to each box the row's pixels that fall on its column |
| `PngRows.Rows.Flush` | mastomini_bots/src/preview.rs:125-137 | appends the means of all boxes and clears them, or does nothing once all lines are out |
| `PngRows.Rows.NextLine` | mastomini_bots/src/preview.rs:102-105 | a line that has all its rows goes out as the batch average |
| `PngRows.ShrinkRows` | mastomini_bots/src/preview.rs:172-200 | row by row gives the batch average of the whole picture, of exactly dw * dh * 3 bytes |
| `PngRows.PngRgb` | mastomini_bots/src/preview.rs:142-202 | a picture is refused if and only if it is empty or over 24000000 pixels, 65535 a side, or 2000000 pixels interlaced; the size and bytes of the others |
| `PngRows.MeanStands` | mastomini_bots/src/preview.rs:100-137 | each output channel is the mean of exactly the source pixels with x * dw / w = X and y * dh / h = Y, of which there is at least one, and is a byte |
| `PngRows.TargetFits` | mastomini_bots/src/preview.rs:164-171 | a picture that fits keeps its size; of another the longest side becomes max_px exactly and the other is brought down in proportion, rounded down, to at least one pixel |
| `PngRows.ChannelIsColourOnWhite` | mastomini_bots/src/preview.rs:106-121 | a pixel's red, green and blue, grey standing for all three, laid on white by its transparency, rounded down |
| `PngRows.UnshrunkIsCopied` | mastomini_bots/src/preview.rs:100-202 | a picture that is not shrunk comes out pixel by pixel, line by line, each as red, green, blue |
| `PngRows.SumsFitU32` | mastomini_bots/src/preview.rs:100-122 | for max_px >= 2 and an acceptable picture no 32-bit sum overflows, also in the middle of a row |
| `PngRows.OnePixelSumsFitExactly` | mastomini_bots/src/preview.rs:100-122 | for max_px <= 1, no 32-bit sum of any picture of a size overflows if and only if it has at most 16843009 pixels |
| `Templates.Names` | mastomini_bots/src/template.rs:10-25 | the names are those of the scan of the whole text, in order, without empty ones and repeats |
| `Templates.RenderLine` | mastomini_bots/src/template.rs:28-48 | a line's text is its pieces filled in, where the pieces do not depend on the values; used exactly if there is a name |
| `Templates.Render` | mastomini_bots/src/template.rs:52-62 | lines of variables without text go, the others are joined |
| `Templates.LineLookups` | mastomini_bots/src/template.rs:10-62 | if no name of a text has a brace, every name a line looks up the scan of the whole text finds |
| `Templates.AcceptedLooksUpPlaceholders` | mastomini_bots/src/settings.rs:122-148 | rendering an accepted text looks up only its placeholders, or the empty name |
| `Templates.OnlyPlaceholdersMatter` | mastomini_bots/src/template.rs:51-62 | what an accepted text renders to depends on the placeholders' values only, whatever these contain |
| `Templates.WithoutRepeatsHasAll` | mastomini_bots/src/template.rs:18-20 | no name is lost or listed twice |
| `TemplateMeaning.FillingMeans` | mastomini_bots/src/template.rs:28-48 | for every template written as words and {{name}}s, spaces around the names or not: the text is the words in order with the value of the first variable of each name standing for it, nothing for an unknown one, whatever the values contain; the names looked up are its names |
| `TemplateMeaning.LineStays` | mastomini_bots/src/template.rs:51-60 | a line goes if and only if it has a name in it and its text is all spaces; a line of words stays, blank or not |
| `TemplateMeaning.RenderingShows` | mastomini_bots/src/template.rs:50-62 | the whole text is the lines that stay, in order, trimmed at its ends |
| `Templates.AcceptedExactly` | mastomini_bots/src/settings.rs:122-148 | a text is accepted if and only if it has text or need not, at most 4000 characters, and no names but placeholders and the empty one |
| `Templates.UnknownExactly` | mastomini_bots/src/settings.rs:136-148 | the names complained of are exactly those that are no placeholders, each once |
| `Morse.NewPattern` | mastomini_bots/src/board_status.rs:267-302 | the nested loops build the marks of the spelled phrase, or of the default phrase, and no 16-bit mark is truncated |
| `Morse.AddWord` | mastomini_bots/src/board_status.rs:281-298 | the loop over a word's letters |
| `Morse.AddCode` | mastomini_bots/src/board_status.rs:288-297 | the loop over a code's symbols |
| `Morse.CodesRead` | mastomini_bots/src/board_status.rs:195-251 | the code table can be inverted: every code reads as its character |
| `MorseReading.LightReadsBack` | mastomini_bots/src/board_status.rs:253-324 | for every phrase, reading one cycle of the light gives in capitals the words of that phrase if it can be sent, else of the default one |
| `MorseReading.ValidExactly` | mastomini_bots/src/board_status.rs:253-258 | a phrase can be sent if and only if it has at most eighty letters, digits, signs of the code and spaces, and not only spaces |
| `MorseReading.LightOverTime` | mastomini_bots/src/board_status.rs:303-324 | steps of a fifth of a second, the same in every cycle; after the message seven dark units, three green flashes of three, and seven dark ones |
| `MorseReading.SameLightSameWords` | mastomini_bots/src/board_status.rs:267-324 | phrases with the same light have the same words up to case |
| `MorseReading.GapsAreStandard` | mastomini_bots/src/board_status.rs:267-302 | marks are of one or three units, one, three or seven units apart |
| `MorseReading.MarksAreApart` | mastomini_bots/src/board_status.rs:267-302 | marks are sorted and disjoint, and end with the message |
| `MorseReading.RunsAreMarks` | mastomini_bots/src/board_status.rs:303-324 | the cyan runs of a cycle are exactly the marks |
| `ZlibStored.Zip` | mastomini_rs/src/avatar.rs:123-140 | the loops over blocks and bytes produce the framed stream |
| `ZlibStored.Checksum` | mastomini_rs/src/avatar.rs:134-138 | the reduced sums are the Adler-32 of RFC 1950 section 2.2 |
| `ZlibStored.UnzipUndoesZip` | mastomini_rs/src/avatar.rs:123-140 | for every non-empty data, inflating by RFC 1951 section 3.2.4 gives it back, with one final block and only its checksum after it; no data gives a stream that cannot be read |
| `IsoDates.ReadsWhatItNames` | mastomini_bots/src/rss.rs:226-292 | a date and time of RFC 3339 section 5.6 reads as the instant it names by the calendar's rules, for every fraction and offset, when that is not before 1970 |
| `IsoDates.ReadsOrRefuses` | mastomini_bots/src/rss.rs:226-263 | every text of that form: refused if and only if a field is out of its range or the instant is before 1970; a day its month does not have is taken for one of the next month |
| `IsoDates.IsoReadsBack` | mastomini_bots/src/rss.rs:226-263 | what `iso` writes is read back, to the second, if and only if it is before the year 10000 |
| `IsoDates.IsoHasMillis` | mastomini_bots/src/tz.rs:421-432 | and the milliseconds are written in three digits |
| `MailDates.MailReadsWhatItNames` | mastomini_bots/src/rss.rs:226-263 | the same for a date as RFC 822 writes it, with a year below 100 meaning this century, day and year in any number of digits, with or without seconds, any zone the reader knows and months in any case |
| `MailDates.MonthReads` | mastomini_bots/src/rss.rs:221-246 | a month is found by the first three letters of its name |
| `MailDates.PlainZoneReads` | mastomini_bots/src/rss.rs:266-292 | a sign and four digits read as their offset |
| `MailDates.NamedZonesRead` | mastomini_bots/src/rss.rs:266-279 | the zones RFC 822 section 5.1 names read as their hours from UTC, in any case |
| `IsoDates.SignedZone` | mastomini_bots/src/rss.rs:266-292 | a numeric zone reads as its offset |
| `Ids.IdGen.Next` | mastomini_rs/src/ids.rs:31-36 | the next id, or no id and no change |
| `Ids.IdsIncrease` | mastomini_rs/src/ids.rs:22-36 | over any clocks and observed ids, ids are strictly increasing, new, and fit 64 bits |
| `Ids.ObservedIsBelow` | mastomini_rs/src/ids.rs:22-36 | an observed id is below every id given out later |
| `Ids.LastIsGreatestForced` | mastomini_rs/src/ids.rs:22-36 | when every call succeeds, the last id is the greatest of what the start, each observed id and each clock reading force |
| `Ids.MillisIsClock` | mastomini_rs/src/ids.rs:31-42 | an id carries the millisecond it was made in exactly while the generator is not ahead of the clock |
| `Ids.EncodeB32` | mastomini_rs/src/ids.rs:45-53 | the array filled from the right holds the thirteen digits |
| `Ids.DecodeB32` | mastomini_rs/src/ids.rs:60-70 | the reading with overflow checks |
| `Ids.FromB32IsInverse` | mastomini_rs/src/ids.rs:45-70 | a string is accepted if and only if it is the key of an id, which is then the answer |
| `Ids.KeysKeepOrder` | mastomini_rs/src/ids.rs:9-53 | keys sort by their bytes as their ids do by number |

## Left out

- Integer widths in general: times, counters and ids are unbounded integers, and saturating additions are plain ones; the widths that matter are written out (ids, Adler-32, the Morse marks, the shrinker's sums).
- Parsing of zone strings and their names: a zone is its parsed rules, and two schedules are the same when their parsed rules are.
- SlotOrder.NextAfterExactly: is about zones whose changes are apart by twice the shift, which is less than a day, and on whole minutes; zones with changes closer together, or at seconds, are not characterised.
- BotHistory.IssuedInTime: jobs are looked at per bot; the copies of credentials, settings and memory that a job carries are not modelled.
- BotHistory.PastIsNeverIssued: is about changes of the schedule made by a clock that is set and no earlier than x; one made before the clock is set, or earlier, chooses its own last slot.
- Retries.TriesAreBounded: is about one boot, since a restart forgets the retry state.
- Retries.RetryIsStarted: with other things asked for, these start first (`BotHistory.AskedStartsInTime`), and the retry after them.
- Publication.DuePostIsPublished: is about posts already handed over; how soon a post is handed over depends on the network.
- BotRuns.UpdateAllowed: the checks of single settings are given as their results; the activity log, the extra memory entry of the device check bot, and validation texts are left out.
- BotService.Service.Save: whether the store takes a write is a parameter, and a record's length is an arbitrary function of it.
- Posting.OnePostPerDelivered: the Mastodon server is any that returns the first post for a key it has seen; keys with a suffix (`post_keyed`) are not modelled. Whether a run posts at all is the bot's own work.
- Posting.SettledSlotHasItsPosts: a request of the bot still under way when the run's end is saved is taken not to arrive afterwards.
- HandoffProtocol.OnlyDoomedPostsLoseTimers: the key's bot is taken to be configured with mastomini's own address, job ids are never reused, nobody else sends requests with the key, and ids are compared as numbers although the queue holds them as text.
- HandoffProtocol.Publish: the post itself, its reserved id and the reasons of a rejection are reduced to whether the job ends published, rejected or as it was, and with which status.
- Enrollment.SetupIsSafe: NanaCoin is assumed to refuse a taken name, and no account is deleted, renamed or given another password during setup; random passwords are distinct; there is one NanaCoin and one Mastomini server.
- Enrollment.StepKeepsInv: the checks before the first bot (roles, names taken, capacity, an existing read key) only stop the setup earlier, and are not modelled; neither are logins of the administrators, key names, display names and strategies.
- MultipartRoundTrip.ParsingUndoesEncoding: characters stand for bytes, and UTF-8 decoding is any function that leaves one-byte characters alone and makes none up.
- MailDates.MailReadsWhatItNames: is about dates with a weekday of three letters and single spaces; the weekday that RFC 822 section 5.1 lets a writer leave out is not covered; other texts the reader takes are modelled but not characterised. Text that is not ASCII is indexed by characters, not bytes, and dates so far away that 64 bits overflow are read as if they did not.
- PngRows.PngRgb: starts from decoded rows, already cut into pixels; JPEG, orientation, `fit` and PNG decoding are left out.
- Templates.CheckLongText: only the long text kind of setting; error texts are reduced to the unknown names.
- Morse.ColorAt: colours are dark, cyan and green; the other board states and the reset flashes are left out.
- ZlibStored.Zip: the PNG around the stream and its CRC are left out.
- FileStore.Store.Save: writing the temporary file and renaming it are each one step that succeeds or fails; JSON and paths are left out.
- Web pages, routing, HTTP clients, cryptography, XML and HTML, the bots' own work, mastomini's timelines and accounts, and the minicloud board are not part of this model.
