// How often one slot is tried (mastomini_bots/src/service.rs): failures that might pass are tried
// again after 1, 5, 15, then every 30 minutes, within the grace.
module Retries {
  import opened Options
  import opened Schedules
  import opened BotRuns
  import opened BotHistory

  function Count(jobs: seq<Job>, slot: nat): nat {
    if jobs == [] then 0
    else (if jobs[0] == Job(Scheduled, slot) then 1 else 0) + Count(jobs[1..], slot)
  }

  lemma {:induction false} CountSum(a: seq<Job>, b: seq<Job>, slot: nat)
    ensures Count(a + b, slot) == Count(a, slot) + Count(b, slot)
  {
    if a == [] {
      assert a + b == b;
    } else {
      assert (a + b)[1..] == a[1..] + b;
      CountSum(a[1..], b, slot);
    }
  }

  /** Minutes that must have passed since the slot before its n-th try. */
  function WaitedMinutes(n: nat): nat
    requires 1 <= n
  {
    if n == 1 then 0 else WaitedMinutes(n - 1) + RETRY_MINUTES[if n - 2 < 4 then n - 2 else 3]
  }

  function Waited(n: nat): nat
    requires 1 <= n
  {
    WaitedMinutes(n) * MINUTE_MS
  }

  lemma NextWait(n: nat, attempt: nat)
    requires 1 <= n && n - 1 <= attempt
    ensures Waited(n) + RetryWait(attempt) >= Waited(n + 1)
  {
  }

  /** The most tries a grace of `minutes` leaves room for. */
  function MaxTries(minutes: nat): nat {
    if minutes < 1 then 1 else if minutes < 6 then 2 else if minutes < 21 then 3 else 4 + (minutes - 21) / 30
  }

  lemma {:induction false} WaitedClosed(n: nat)
    requires 4 <= n
    ensures WaitedMinutes(n) == 21 + 30 * (n - 4)
  {
    if n > 4 { WaitedClosed(n - 1); } else {
      assert WaitedMinutes(3) == 6;
    }
  }

  /** The waits before the n-th try fit the grace exactly when n is at most the bound. */
  lemma TriesFit(n: nat, minutes: nat)
    requires 1 <= n
    ensures WaitedMinutes(n) <= minutes <==> n <= MaxTries(minutes)
  {
    if n >= 4 { WaitedClosed(n); } else {
      assert WaitedMinutes(1) == 0 && WaitedMinutes(2) == 1;
    }
  }

  // ---------------------------------------------------------------------------
  // One boot with a clock that does not step back
  // ---------------------------------------------------------------------------

  predicate OneBoot(es: seq<Event>, clock: nat) {
    es != [] ==> !es[0].Reboot? && clock <= TimeOf(es[0], clock) && OneBoot(es[1..], TimeOf(es[0], clock))
  }

  /** If the event turns the bot on or moves its schedule, the change is saved. */
  ghost predicate SavedChange(bot: Bot, w: World, e: Event) {
    Rearming(bot, w, e) ==> e.written && Lawful((bot.plan)(NewSettings(w.s.rec, e.update)))
  }

  ghost predicate AllSaved(bot: Bot, w: World, es: seq<Event>)
    decreases |es|
  {
    es != [] ==> SavedChange(bot, w, es[0]) && AllSaved(bot, Step(bot, w, es[0]), es[1..])
  }

  /** `slot` is not due any more: no slot up to it is left, or the first look at the clock will settle what is left. */
  ghost predicate Over(bot: Bot, rec: Record, slot: nat) {
    rec.config.enabled ==> rec.last.None? || NoneLeft(Plan(bot, rec), rec.last.value, slot)
  }

  /** What is known after `n` tries of `slot`: no further one is due, or the
      last is still being executed, or a retry is pending and far enough away. */
  ghost predicate Tried(bot: Bot, w: World, slot: nat, n: nat, clock: nat) {
    && (w.s.rec.config.enabled ==> Lawful(Plan(bot, w.s.rec)))
    && (w.inFlight.Some? ==> w.s.rt.running)
    && if n == 0 then w.inFlight != Some(Job(Scheduled, slot))
       else
         && WaitedMinutes(n) <= bot.graceMinutes && slot <= clock
         && (w.inFlight.Some? && w.inFlight.value.kind == Scheduled ==> slot <= w.inFlight.value.slot)
         && (Over(bot, w.s.rec, slot)
             || ((w.s.rec.config.enabled ==> Reached(Plan(bot, w.s.rec), slot, clock))
                 && (Executing(w, slot, n, clock) || RetryFarAway(w, slot, n, clock))))
  }

  predicate Executing(w: World, slot: nat, n: nat, clock: nat)
    requires 1 <= n
  {
    w.inFlight == Some(Job(Scheduled, slot)) && n - 1 <= w.s.rt.attempt && slot + Waited(n) <= clock
  }

  predicate RetryFarAway(w: World, slot: nat, n: nat, clock: nat)
    requires 1 <= n
  {
    && w.inFlight != Some(Job(Scheduled, slot)) && n <= w.s.rt.attempt
    && w.s.rt.retryAt.Some? && slot + Waited(n + 1) <= w.s.rt.retryAt.value
    && (w.inFlight.Some? && w.inFlight.value.kind == Scheduled ==> slot + Waited(n + 1) <= clock)
  }

  function Tries(bot: Bot, w: World, e: Event, slot: nat): nat {
    if Issued(bot, w, e) == Some(Job(Scheduled, slot)) then 1 else 0
  }

  /** From `clock` on, the schedule's latest slot is at least `slot`. */
  ghost predicate Reached(plan: Schedule, slot: nat, clock: nat) {
    forall now :: clock <= now && LatestAt(plan, now).Some? ==> slot <= LatestAt(plan, now).value
  }

  lemma ReachedAtLatest(plan: Schedule, slot: nat, clock: nat)
    requires Lawful(plan) && LatestAt(plan, clock) == Some(slot)
    ensures Reached(plan, slot, clock)
  {
    forall now | clock <= now && LatestAt(plan, now).Some? ensures slot <= LatestAt(plan, now).value {
      LatestIsMonotone(plan, clock, now);
    }
  }

  /** What looking for jobs does: a job of the admin's, a scheduled one, or at most a slot recorded without a run. */
  predicate Looked(s: BotState, t: BotState, job: Option<Job>, latest: Option<nat>) {
    && t.rec.config == s.rec.config && t.rec.settings == s.rec.settings
    && (if job.Some? then t.rt.running && t.rec.last == s.rec.last && t.rt.attempt == s.rt.attempt && t.rt.retryAt == s.rt.retryAt
        else t.rt.running == s.rt.running)
    && (job.Some? && job.value.kind == Scheduled ==> latest == Some(job.value.slot))
    && (job.None? ==>
          (t.rec.last == s.rec.last && t.rt == s.rt)
          || (latest.Some? && t.rec.last == latest && s.rec.config.enabled && !s.rt.running
              && (s.rec.last.Some? ==> s.rec.last.value < latest.value)))
  }

  /** A job started is for an idle bot; a scheduled one is in time, and no pending retry is later. */
  predicate InTime(bot: Bot, s: BotState, job: Option<Job>, now: nat) {
    job.Some? ==>
      && !s.rt.running
      && (job.value.kind == Scheduled ==>
            && s.rec.last.Some? && s.rec.last.value < job.value.slot <= now <= job.value.slot + Grace(bot)
            && s.rec.config.enabled && (s.rt.retryAt.Some? ==> s.rt.retryAt.value <= now))
  }

  lemma DueLooks(bot: Bot, s: BotState, now: nat, written: bool)
    ensures var (t, job) := Due(bot, s, Some(now), written);
            Looked(s, t, job, LatestAt(Plan(bot, s.rec), now)) && InTime(bot, s, job, now)
  {
    ScheduledSlotEffect(bot, s, LatestAt(Plan(bot, s.rec), now), now, written);
    IssuedInTime(bot, s, Some(now), written);
  }

  /** The latest slot of a plan at `now`. */
  ghost predicate IsLatest(plan: Schedule, now: nat, latest: Option<nat>) {
    latest.Some? ==> IsSlot(plan, latest.value) && NoneLeft(plan, latest.value, now)
  }

  lemma OverStaysOver(bot: Bot, s: BotState, t: BotState, job: Option<Job>, latest: Option<nat>, slot: nat, now: nat)
    requires Over(bot, s.rec, slot) && slot <= now
    requires Looked(s, t, job, latest) && InTime(bot, s, job, now)
    requires s.rec.config.enabled ==> IsLatest(Plan(bot, s.rec), now, latest)
    ensures Over(bot, t.rec, slot) && (job.Some? && job.value.kind == Scheduled ==> slot < job.value.slot)
  {
  }

  lemma LookedKeepsTried(bot: Bot, w: World, t: BotState, job: Option<Job>, latest: Option<nat>, slot: nat, n: nat, now: nat)
    requires Tried(bot, w, slot, n, now) && n > 0 && Looked(w.s, t, job, latest) && InTime(bot, w.s, job, now)
    requires w.s.rec.config.enabled ==> IsLatest(Plan(bot, w.s.rec), now, latest)
    requires !Over(bot, w.s.rec, slot) && latest.Some? ==> slot <= latest.value
    ensures Tried(bot, World(t, if job.Some? then job else w.inFlight), slot,
                  n + (if job == Some(Job(Scheduled, slot)) then 1 else 0), now)
  {
    if Over(bot, w.s.rec, slot) {
      OverStaysOver(bot, w.s, t, job, latest, slot, now);
    } else if job == Some(Job(Scheduled, slot)) {
      assert Waited(n + 1) <= Grace(bot);
    }
  }

  lemma FirstTry(bot: Bot, w: World, t: BotState, job: Option<Job>, latest: Option<nat>, slot: nat, now: nat)
    requires Tried(bot, w, slot, 0, now) && Looked(w.s, t, job, latest) && InTime(bot, w.s, job, now)
    requires job == Some(Job(Scheduled, slot)) ==> Reached(Plan(bot, w.s.rec), slot, now)
    ensures Tried(bot, World(t, if job.Some? then job else w.inFlight), slot,
                  if job == Some(Job(Scheduled, slot)) then 1 else 0, now)
  {
  }

  lemma LaterIsStillTried(bot: Bot, w: World, slot: nat, n: nat, clock: nat, now: nat)
    requires Tried(bot, w, slot, n, clock) && clock <= now
    ensures Tried(bot, w, slot, n, now)
  {
  }

  lemma DueSteps(bot: Bot, w: World, now: nat, written: bool, slot: nat)
    ensures var e, (t, job) := DueAt(Some(now), written), Due(bot, w.s, Some(now), written);
            && Step(bot, w, e) == World(t, if job.Some? then job else w.inFlight)
            && Tries(bot, w, e, slot) == if job == Some(Job(Scheduled, slot)) then 1 else 0
  {
  }

  lemma DueKeepsTried(bot: Bot, w: World, now: nat, written: bool, slot: nat, n: nat, latest: Option<nat>)
    requires Tried(bot, w, slot, n, now) && latest == LatestAt(Plan(bot, w.s.rec), now)
    requires w.s.rec.config.enabled ==> IsLatest(Plan(bot, w.s.rec), now, latest)
    requires n > 0 && !Over(bot, w.s.rec, slot) && latest.Some? ==> slot <= latest.value
    requires w.s.rec.config.enabled && latest == Some(slot) ==> Reached(Plan(bot, w.s.rec), slot, now)
    ensures var e := DueAt(Some(now), written);
            Tried(bot, Step(bot, w, e), slot, n + Tries(bot, w, e, slot), now)
  {
    var (t, job) := Due(bot, w.s, Some(now), written);
    DueLooks(bot, w.s, now, written);
    DueSteps(bot, w, now, written, slot);
    if n > 0 { LookedKeepsTried(bot, w, t, job, latest, slot, n, now); } else { FirstTry(bot, w, t, job, latest, slot, now); }
  }

  lemma LatestIsLatest(plan: Schedule, now: nat, latest: Option<nat>)
    requires Lawful(plan) && latest == LatestAt(plan, now)
    ensures IsLatest(plan, now, latest)
    ensures latest.Some? ==> Reached(plan, latest.value, now)
  {
    LatestAtIsGreatest(plan, now);
    if latest.Some? { ReachedAtLatest(plan, latest.value, now); }
  }

  lemma LookKeepsTried(bot: Bot, w: World, now: nat, written: bool, slot: nat, n: nat)
    requires Tried(bot, w, slot, n, now)
    ensures var e := DueAt(Some(now), written);
            Tried(bot, Step(bot, w, e), slot, n + Tries(bot, w, e, slot), now)
  {
    var latest := LatestAt(Plan(bot, w.s.rec), now);
    if w.s.rec.config.enabled { LatestIsLatest(Plan(bot, w.s.rec), now, latest); }
    DueKeepsTried(bot, w, now, written, slot, n, latest);
  }

  lemma FinishKeepsTried(bot: Bot, w: World, started: nat, now: nat, outcome: Outcome, written: bool, slot: nat, n: nat)
    requires Tried(bot, w, slot, n, now) && w.inFlight.Some?
    ensures Tried(bot, Step(bot, w, FinishAt(started, now, outcome, written)), slot, n, now)
  {
    FinishEffect(bot, w.s, w.inFlight.value, started, now, outcome, written);
    if n > 0 && n - 1 <= w.s.rt.attempt { NextWait(n, w.s.rt.attempt); }
  }

  lemma ConfigureKeepsTried(bot: Bot, w: World, e: Event, slot: nat, n: nat, now: nat)
    requires Tried(bot, w, slot, n, now) && e.ConfigureAt? && SavedChange(bot, w, e)
    requires e.clock.Some? ==> e.clock.value == now
    ensures Tried(bot, Step(bot, w, e), slot, n, now)
  {
    ConfigureEffect(bot, w.s, e.update, e.clock, e.written);
    if Rearming(bot, w, e) && e.clock.Some? {
      var plan := (bot.plan)(NewSettings(w.s.rec, e.update));
      LatestIsLatest(plan, now, LatestAt(plan, now));
    }
  }

  lemma TriedIsKept(bot: Bot, w: World, e: Event, slot: nat, n: nat, clock: nat)
    requires Tried(bot, w, slot, n, clock) && !e.Reboot? && clock <= TimeOf(e, clock) && SavedChange(bot, w, e)
    ensures Tried(bot, Step(bot, w, e), slot, n + Tries(bot, w, e, slot), TimeOf(e, clock))
  {
    var now := TimeOf(e, clock);
    LaterIsStillTried(bot, w, slot, n, clock, now);
    match e
    case DueAt(time, written) =>
      if time.Some? { LookKeepsTried(bot, w, now, written, slot, n); }
    case FinishAt(started, _, outcome, written) =>
      if w.inFlight.Some? { FinishKeepsTried(bot, w, started, now, outcome, written, slot, n); }
    case ConfigureAt(u, time, written) => ConfigureKeepsTried(bot, w, e, slot, n, now);
    case RequestOf(_) =>
  }

  /** The waits before the `n`-th try fit the grace. */
  predicate Spaced(bot: Bot, n: nat) {
    n > 0 ==> WaitedMinutes(n) <= bot.graceMinutes
  }

  /** Between two tries of a slot the waits of the back-off table pass. */
  lemma {:induction false} TriesAreSpaced(bot: Bot, w: World, es: seq<Event>, slot: nat, n: nat, clock: nat)
    requires Tried(bot, w, slot, n, clock) && OneBoot(es, clock) && AllSaved(bot, w, es)
    ensures Spaced(bot, n + Count(Jobs(bot, w, es), slot))
    decreases |es|
  {
    if es != [] {
      var next, tried := Step(bot, w, es[0]), n + Tries(bot, w, es[0], slot);
      CountFrom(bot, w, es, slot);
      TriedIsKept(bot, w, es[0], slot, n, clock);
      TriesAreSpaced(bot, next, es[1..], slot, tried, TimeOf(es[0], clock));
    }
  }

  lemma CountFrom(bot: Bot, w: World, es: seq<Event>, slot: nat)
    requires es != []
    ensures Count(Jobs(bot, w, es), slot) == Tries(bot, w, es[0], slot) + Count(Jobs(bot, Step(bot, w, es[0]), es[1..]), slot)
  {
    var job := Issued(bot, w, es[0]);
    CountSum(if job.Some? then [job.value] else [], Jobs(bot, Step(bot, w, es[0]), es[1..]), slot);
  }

  /** Within one boot and with a clock that does not step back, a slot is started at most as often as its grace leaves room
      for - whatever retry counter and pending retry the bot starts with, whatever happens in between, and through changes
      that turn the bot on or move its schedule, as long as these are saved. */
  lemma TriesAreBounded(bot: Bot, w: World, es: seq<Event>, slot: nat, clock: nat)
    requires w.inFlight != Some(Job(Scheduled, slot)) && (w.inFlight.Some? ==> w.s.rt.running)
    requires w.s.rec.config.enabled ==> Lawful(Plan(bot, w.s.rec))
    requires OneBoot(es, clock) && AllSaved(bot, w, es)
    ensures Count(Jobs(bot, w, es), slot) <= MaxTries(bot.graceMinutes)
  {
    TriesAreSpaced(bot, w, es, slot, 0, clock);
    var n := Count(Jobs(bot, w, es), slot);
    if n > 0 { TriesFit(n, bot.graceMinutes); }
  }

  // ---------------------------------------------------------------------------
  // A run that may be tried again is
  // ---------------------------------------------------------------------------

  /** Milliseconds to wait after a number of failed tries before. */
  function BackOff(failed: nat): nat {
    if failed == 0 then 60000 else if failed == 1 then 300000 else if failed == 2 then 900000 else 1800000
  }

  /** A scheduled run that failed in a way that might pass, early enough for another try within the grace. */
  predicate TryAgain(bot: Bot, job: Job, failed: nat, now: nat, outcome: Outcome) {
    job.kind == Scheduled && !outcome.ok && outcome.retryable && now + BackOff(failed) <= job.slot + bot.graceMinutes * 60000
  }

  /** A run that ends is to be tried again exactly then, after that time; its slot stays open. */
  lemma RetryExactly(bot: Bot, s: BotState, job: Job, started: nat, now: nat, outcome: Outcome, written: bool)
    requires job.kind == Scheduled
    ensures var t := Finish(bot, s, job, started, now, outcome, written);
            if TryAgain(bot, job, s.rt.attempt, now, outcome)
            then t.rt.retryAt == Some(now + BackOff(s.rt.attempt)) && t.rt.attempt == s.rt.attempt + 1 && t.rec.last == s.rec.last
            else t.rt.retryAt == None && t.rt.attempt == 0 && t.rec.last == Some(job.slot)
  {
    FinishEffect(bot, s, job, started, now, outcome, written);
  }

  /** The slot is open, and a retry is set for `at`. */
  predicate Awaiting(bot: Bot, w: World, plan: Schedule, slot: nat, at: nat) {
    && (w.inFlight.Some? ==> w.inFlight.value.kind != Scheduled)
    && w.s.rec.last.Some? && w.s.rec.last.value < slot && w.s.rt.retryAt == Some(at)
    && (w.s.rec.config.enabled ==> Plan(bot, w.s.rec) == plan)
  }

  /** `latest` is the greatest slot of the two days up to `now`, if they have one. */
  ghost predicate GreatestUpTo(plan: Schedule, now: nat, latest: Option<nat>) {
    if latest.Some? then IsSlot(plan, latest.value) && SearchFrom(now) < latest.value <= now && NoneLeft(plan, latest.value, now)
    else NoneLeft(plan, SearchFrom(now), now)
  }

  lemma LatestIsGreatest(plan: Schedule, now: nat, latest: Option<nat>)
    requires Lawful(plan) && latest == LatestAt(plan, now)
    ensures GreatestUpTo(plan, now, latest)
  {
    LatestAtIsGreatest(plan, now);
  }

  /** Between a slot and a time for which it is the latest one, it is the latest. */
  lemma LatestBetween(plan: Schedule, slot: nat, now: nat, later: nat, latest: Option<nat>)
    requires slot <= now <= later && GreatestUpTo(plan, now, latest) && GreatestUpTo(plan, later, Some(slot))
    ensures latest == Some(slot)
  {
    assert IsSlot(plan, slot);
    assert SearchFrom(now) <= SearchFrom(later);
    assert latest.Some? ==> IsSlot(plan, latest.value) && slot <= latest.value <= slot;
  }

  lemma StillLatest(plan: Schedule, slot: nat, now: nat, later: nat, latest: Option<nat>)
    requires Lawful(plan) && slot <= now <= later && latest == LatestAt(plan, now) && LatestAt(plan, later) == Some(slot)
    ensures latest == Some(slot)
  {
    LatestIsGreatest(plan, now, latest);
    LatestIsGreatest(plan, later, Some(slot));
    LatestBetween(plan, slot, now, later, latest);
  }

  /** A look before or at the retry's time either starts the slot again or leaves it waiting. */
  lemma LookAwaits(bot: Bot, w: World, now: nat, written: bool, plan: Schedule, slot: nat, at: nat)
    requires Awaiting(bot, w, plan, slot, at) && LatestAt(plan, now) == Some(slot) && now <= slot + Grace(bot)
    ensures var e := DueAt(Some(now), written);
            Issued(bot, w, e) == Some(Job(Scheduled, slot)) || Awaiting(bot, Step(bot, w, e), plan, slot, at)
  {
    var job := Due(bot, w.s, Some(now), written).1;
    if job.Some? {
      DueExactly(bot, w.s, Some(now), written, job.value);
      StartedState(bot, w.s, now, written, job.value);
    } else if !w.s.rt.running && Configured(bot, w.s.rec) && w.s.rec.config.enabled {
      LookRecords(bot, w.s, now, written);
    }
  }

  lemma EndAwaits(bot: Bot, w: World, e: Event, plan: Schedule, slot: nat, at: nat)
    requires Awaiting(bot, w, plan, slot, at) && (e.FinishAt? || e.RequestOf? || (e.ConfigureAt? && !Rearming(bot, w, e)))
    ensures Awaiting(bot, Step(bot, w, e), plan, slot, at)
  {
    match e
    case FinishAt(started, now, outcome, written) =>
      if w.inFlight.Some? { FinishEffect(bot, w.s, w.inFlight.value, started, now, outcome, written); }
    case ConfigureAt(u, time, written) => ConfigureEffect(bot, w.s, u, time, written);
    case RequestOf(_) =>
  }

  lemma AwaitingIsKept(bot: Bot, w: World, e: Event, plan: Schedule, slot: nat, at: nat, clock: nat, end: nat)
    requires Awaiting(bot, w, plan, slot, at) && Lawful(plan) && !e.Reboot? && !Rearming(bot, w, e)
    requires slot <= clock <= TimeOf(e, clock) <= end <= slot + Grace(bot) && LatestAt(plan, end) == Some(slot)
    ensures Issued(bot, w, e) == Some(Job(Scheduled, slot)) || Awaiting(bot, Step(bot, w, e), plan, slot, at)
  {
    if e.DueAt? {
      if e.clock.Some? {
        StillLatest(plan, slot, e.clock.value, end, LatestAt(plan, e.clock.value));
        LookAwaits(bot, w, e.clock.value, e.written, plan, slot, at);
      }
    } else {
      EndAwaits(bot, w, e, plan, slot, at);
    }
  }

  function EndOf(es: seq<Event>, clock: nat): nat {
    if es == [] then clock else EndOf(es[1..], TimeOf(es[0], clock))
  }

  lemma {:induction false} ClockAtMostEnd(es: seq<Event>, clock: nat)
    requires ClockRuns(es, clock)
    ensures clock <= EndOf(es, clock)
  {
    if es != [] { ClockAtMostEnd(es[1..], TimeOf(es[0], clock)); }
  }

  lemma {:induction false} RetryComes(bot: Bot, w: World, es: seq<Event>, now: nat, written: bool,
                                      plan: Schedule, slot: nat, at: nat, clock: nat)
    requires Awaiting(bot, w, plan, slot, at) && Lawful(plan) && slot <= clock
    requires OneBoot(es, clock) && Undisturbed(bot, w, es) && EndOf(es, clock) <= now
    requires LatestAt(plan, now) == Some(slot) && at <= now <= slot + Grace(bot)
    requires var v := After(bot, w, es); IdleLook(bot, v, DueAt(Some(now), written)) && v.s.rec.config.enabled && NothingAsked(v.s)
    ensures Job(Scheduled, slot) in Jobs(bot, w, es) || Issued(bot, After(bot, w, es), DueAt(Some(now), written)) == Some(Job(Scheduled, slot))
    decreases |es|
  {
    if es == [] {
      DueExactly(bot, w.s, Some(now), written, Job(Scheduled, slot));
    } else {
      OneBootRuns(es, clock);
      ClockAtMostEnd(es[1..], TimeOf(es[0], clock));
      AwaitingIsKept(bot, w, es[0], plan, slot, at, clock, now);
      if Issued(bot, w, es[0]) == Some(Job(Scheduled, slot)) {
        assert Jobs(bot, w, es)[0] == Job(Scheduled, slot);
      } else {
        RetryComes(bot, Step(bot, w, es[0]), es[1..], now, written, plan, slot, at, TimeOf(es[0], clock));
      }
    }
  }

  predicate NothingAsked(s: BotState) {
    !s.rt.checkRequested && !s.rt.modelCheckRequested && !s.rt.manualRequested
  }

  lemma {:induction false} OneBootRuns(es: seq<Event>, clock: nat)
    requires OneBoot(es, clock)
    ensures ClockRuns(es, clock)
  {
    if es != [] { OneBootRuns(es[1..], TimeOf(es[0], clock)); }
  }

  /** A scheduled run ends at `n` and is to be tried again: in the same boot, with a clock that does not step back and no change of
      the schedule, its slot has been started again by the first look at or after the back-off time that finds the bot idle and
      on, with nothing asked for, and the slot still the latest and within the grace. */
  lemma RetryIsStarted(bot: Bot, w: World, slot: nat, started: nat, n: nat, outcome: Outcome, saved: bool,
                       es: seq<Event>, now: nat, written: bool)
    requires w.inFlight == Some(Job(Scheduled, slot)) && TryAgain(bot, Job(Scheduled, slot), w.s.rt.attempt, n, outcome)
    requires w.s.rec.last.Some? && w.s.rec.last.value < slot <= n && Lawful(Plan(bot, w.s.rec))
    requires var ended := Step(bot, w, FinishAt(started, n, outcome, saved));
             && OneBoot(es, n) && Undisturbed(bot, ended, es) && EndOf(es, n) <= now
             && var v := After(bot, ended, es);
                IdleLook(bot, v, DueAt(Some(now), written)) && v.s.rec.config.enabled && NothingAsked(v.s)
    requires LatestAt(Plan(bot, w.s.rec), now) == Some(slot)
    requires n + BackOff(w.s.rt.attempt) <= now <= slot + bot.graceMinutes * 60000
    ensures var ended := Step(bot, w, FinishAt(started, n, outcome, saved));
            Job(Scheduled, slot) in Jobs(bot, ended, es)
            || Issued(bot, After(bot, ended, es), DueAt(Some(now), written)) == Some(Job(Scheduled, slot))
  {
    var ended := Step(bot, w, FinishAt(started, n, outcome, saved));
    RetryExactly(bot, w.s, Job(Scheduled, slot), started, n, outcome, saved);
    FinishEffect(bot, w.s, Job(Scheduled, slot), started, n, outcome, saved);
    RetryComes(bot, ended, es, now, written, Plan(bot, w.s.rec), slot, n + BackOff(w.s.rt.attempt), n);
  }

  // ---------------------------------------------------------------------------
  // A change that is not saved forgets the retry
  // ---------------------------------------------------------------------------

  /** A slot is due at `now`, with room in its grace for another try, and the change would turn the bot on or move its
      schedule. */
  predicate DueForRetry(bot: Bot, w: World, u: Update, now: nat, slot: nat) {
    && w.inFlight.None? && w.s.rt == IDLE && w.s.rec.config.enabled && Configured(bot, w.s.rec)
    && LatestAt(Plan(bot, w.s.rec), now) == Some(slot) && slot <= now && now + RetryWait(0) <= slot + Grace(bot)
    && w.s.rec.last.Some? && w.s.rec.last.value < slot
    && Rearming(bot, w, ConfigureAt(u, Some(now), false))
  }

  const FAILED := Outcome(false, true, None)

  /** A try that fails in a way that might pass, then the change, which cannot be saved. */
  function FailAndChange(u: Update, now: nat): seq<Event> {
    [DueAt(Some(now), true), FinishAt(now, now, FAILED, true), ConfigureAt(u, Some(now), false)]
  }

  lemma TryStarts(bot: Bot, w: World, u: Update, now: nat, slot: nat)
    requires DueForRetry(bot, w, u, now, slot)
    ensures Step(bot, w, DueAt(Some(now), true))
         == World(w.s.(rt := IDLE.(running := true)), Some(Job(Scheduled, slot)))
    ensures Issued(bot, w, DueAt(Some(now), true)) == Some(Job(Scheduled, slot))
  {
    DueLooksForSlot(bot, w.s, now, true);
  }

  lemma TryEnds(bot: Bot, w: World, u: Update, now: nat, slot: nat, before: World)
    requires DueForRetry(bot, before, u, now, slot)
    requires w == World(before.s.(rt := IDLE.(running := true)), Some(Job(Scheduled, slot)))
    ensures var t := Step(bot, Step(bot, w, FinishAt(now, now, FAILED, true)), ConfigureAt(u, Some(now), false));
            DueForRetry(bot, t, u, now, slot)
  {
    FinishEffect(bot, w.s, w.inFlight.value, now, now, FAILED, true);
    FinishKeepsAsked(bot, w.s, w.inFlight.value, now, now, FAILED, true);
    var ended := Step(bot, w, FinishAt(now, now, FAILED, true));
    ConfigureEffect(bot, ended.s, u, Some(now), false);
    ChangeKeepsAsked(bot, ended.s, u, Some(now), false);
    ForgetsRetry(bot, ended.s, u, Some(now));
  }

  /** The retry state is reset before saving fails. */
  lemma ForgetsRetry(bot: Bot, s: BotState, u: Update, clock: Option<nat>)
    requires UpdateAllowed(bot, s.rec, u) && Rearms(bot, s.rec, u)
    ensures var (t, ok) := Configure(bot, s, u, clock, false);
            !ok && t == s.(rt := s.rt.(retryAt := None, attempt := 0))
  {
  }

  lemma RoundParts(u: Update, now: nat, rest: seq<Event>)
    ensures var es, round := FailAndChange(u, now) + rest, FailAndChange(u, now);
            && es[0] == round[0] && es[1..] == [round[1], round[2]] + rest && es[1..][0] == round[1]
            && es[1..][1..] == [round[2]] + rest && es[1..][1..][0] == round[2] && es[1..][1..][1..] == rest
            && (OneBoot(rest, now) ==> OneBoot(es, now))
  {
    var es := FailAndChange(u, now) + rest;
    assert es[1..][1..][1..] == rest && es[1..][1..] == [FailAndChange(u, now)[2]] + rest;
    assert OneBoot(rest, now) ==> OneBoot(es[1..][1..], now);
    assert OneBoot(rest, now) ==> OneBoot(es[1..], now);
  }

  /** In the boot that `rest` continues from `next`, one try comes before it from `w`. */
  ghost predicate OneMoreTry(bot: Bot, w: World, next: World, now: nat, slot: nat, rest: seq<Event>, es: seq<Event>) {
    (OneBoot(rest, now) ==> OneBoot(es, now)) && Count(Jobs(bot, w, es), slot) == 1 + Count(Jobs(bot, next, rest), slot)
  }

  ghost predicate Continues(bot: Bot, w: World, next: World, now: nat, slot: nat, rest: seq<Event>) {
    exists es :: OneMoreTry(bot, w, next, now, slot, rest, es)
  }

  lemma RoundTries(bot: Bot, w: World, u: Update, now: nat, slot: nat) returns (next: World)
    requires DueForRetry(bot, w, u, now, slot)
    ensures DueForRetry(bot, next, u, now, slot)
    ensures forall rest :: Continues(bot, w, next, now, slot, rest)
  {
    var round := FailAndChange(u, now);
    TryStarts(bot, w, u, now, slot);
    var going := Step(bot, w, round[0]);
    TryEnds(bot, going, u, now, slot, w);
    var ended := Step(bot, going, round[1]);
    next := Step(bot, ended, round[2]);
    forall rest ensures Continues(bot, w, next, now, slot, rest) {
      RoundThen(bot, w, going, ended, next, u, now, slot, rest);
    }
  }

  lemma RoundThen(bot: Bot, w: World, going: World, ended: World, next: World, u: Update, now: nat, slot: nat, rest: seq<Event>)
    requires Tries(bot, w, FailAndChange(u, now)[0], slot) == 1 && going == Step(bot, w, FailAndChange(u, now)[0])
    requires ended == Step(bot, going, FailAndChange(u, now)[1]) && next == Step(bot, ended, FailAndChange(u, now)[2])
    ensures OneMoreTry(bot, w, next, now, slot, rest, FailAndChange(u, now) + rest)
  {
    var es := FailAndChange(u, now) + rest;
    RoundParts(u, now, rest);
    CountFrom(bot, w, es, slot);
    CountFrom(bot, going, es[1..], slot);
    CountFrom(bot, ended, es[1..][1..], slot);
  }

  /** Each change that cannot be saved brings the next try at once: at one instant of one boot, a slot is tried any number
      of times, whatever the bound. */
  lemma {:induction false} UnsavedChangesTryAgain(bot: Bot, w: World, u: Update, now: nat, slot: nat, k: nat)
      returns (es: seq<Event>)
    requires DueForRetry(bot, w, u, now, slot)
    ensures OneBoot(es, now) && Count(Jobs(bot, w, es), slot) == k
    decreases k
  {
    if k == 0 { es := []; } else {
      var next := RoundTries(bot, w, u, now, slot);
      var rest := UnsavedChangesTryAgain(bot, next, u, now, slot, k - 1);
      assert Continues(bot, w, next, now, slot, rest);
      es :| OneMoreTry(bot, w, next, now, slot, rest, es);
    }
  }

  // ---------------------------------------------------------------------------
  // A pending retry is within the grace of the slot it is for
  // ---------------------------------------------------------------------------

  /** The slot of the scheduled run that ended last. */
  function LastTried(bot: Bot, w: World, es: seq<Event>, last: Option<nat>): Option<nat>
    decreases |es|
  {
    if es == [] then last
    else LastTried(bot, Step(bot, w, es[0]), es[1..], TriedBy(w, es[0], last))
  }

  function TriedBy(w: World, e: Event, last: Option<nat>): Option<nat> {
    if e.FinishAt? && w.inFlight.Some? && w.inFlight.value.kind == Scheduled then Some(w.inFlight.value.slot) else last
  }

  predicate RetryInGrace(bot: Bot, w: World, last: Option<nat>) {
    w.s.rt.retryAt.Some? ==> last.Some? && w.s.rt.retryAt.value <= last.value + Grace(bot)
  }

  lemma RetryInGraceIsKept(bot: Bot, w: World, e: Event, last: Option<nat>)
    requires RetryInGrace(bot, w, last)
    ensures RetryInGrace(bot, Step(bot, w, e), TriedBy(w, e, last))
  {
    match e
    case DueAt(clock, written) =>
      if clock.Some? { DueKeepsRetry(bot, w.s, clock.value, written); }
    case FinishAt(begun, now, outcome, written) =>
      if w.inFlight.Some? { FinishEffect(bot, w.s, w.inFlight.value, begun, now, outcome, written); }
    case ConfigureAt(u, clock, written) => ConfigureKeepsRetry(bot, w.s, u, clock, written);
    case RequestOf(_) =>
    case Reboot =>
  }

  lemma DueKeepsRetry(bot: Bot, s: BotState, now: nat, written: bool)
    ensures var t := Due(bot, s, Some(now), written).0; t.rt.retryAt == s.rt.retryAt || t.rt.retryAt == None
  {
    ScheduledSlotEffect(bot, s, LatestAt(Plan(bot, s.rec), now), now, written);
  }

  lemma ConfigureKeepsRetry(bot: Bot, s: BotState, u: Update, clock: Option<nat>, written: bool)
    ensures var t := Configure(bot, s, u, clock, written).0; t.rt.retryAt == s.rt.retryAt || t.rt.retryAt == None
  {
  }

  /** Over any history: a pending retry is for the scheduled run that ended last, and within the grace of its slot. */
  lemma {:induction false} RetriesStayInGrace(bot: Bot, w: World, es: seq<Event>, last: Option<nat>)
    requires RetryInGrace(bot, w, last)
    ensures RetryInGrace(bot, After(bot, w, es), LastTried(bot, w, es, last))
    decreases |es|
  {
    if es != [] {
      RetryInGraceIsKept(bot, w, es[0], last);
      RetriesStayInGrace(bot, Step(bot, w, es[0]), es[1..], TriedBy(w, es[0], last));
    }
  }
}
