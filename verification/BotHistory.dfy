// What holds over whole histories of one bot: any clock, any configuration changes, failed writes,
// and power cuts between starting a job and finishing it (mastomini_bots/src/service.rs).
module BotHistory {
  import opened Options
  import opened Zones
  import opened Schedules
  import opened BotRuns

  /** The bot and the job being executed outside the service lock, if any. */
  datatype World = World(s: BotState, inFlight: Option<Job>)

  datatype Event =
    | DueAt(clock: Option<nat>, written: bool)
    | FinishAt(started: nat, now: nat, outcome: Outcome, written: bool)
    | ConfigureAt(update: Update, clock: Option<nat>, written: bool)
    | RequestOf(kind: JobKind)
    | Reboot

  function Step(bot: Bot, w: World, e: Event): World {
    match e
    case DueAt(clock, written) =>
      var (s, job) := Due(bot, w.s, clock, written);
      World(s, if job.Some? then job else w.inFlight)
    case FinishAt(started, now, outcome, written) =>
      if w.inFlight.None? then w
      else World(Finish(bot, w.s, w.inFlight.value, started, now, outcome, written), None)
    case ConfigureAt(update, clock, written) => w.(s := Configure(bot, w.s, update, clock, written).0)
    case RequestOf(kind) => w.(s := Request(bot, w.s, kind).0)
    case Reboot => World(Restart(bot, w.s), None)
  }

  /** The job an event starts. */
  function Issued(bot: Bot, w: World, e: Event): Option<Job> {
    if e.DueAt? then Due(bot, w.s, e.clock, e.written).1 else None
  }

  function Jobs(bot: Bot, w: World, es: seq<Event>): seq<Job>
    decreases |es|
  {
    if es == [] then []
    else (var job := Issued(bot, w, es[0]); if job.Some? then [job.value] else [])
         + Jobs(bot, Step(bot, w, es[0]), es[1..])
  }

  function After(bot: Bot, w: World, es: seq<Event>): World
    decreases |es|
  {
    if es == [] then w else After(bot, Step(bot, w, es[0]), es[1..])
  }

  /** A change that is allowed and turns the bot on or moves its schedule, saved or not. */
  predicate Rearming(bot: Bot, w: World, e: Event) {
    e.ConfigureAt? && UpdateAllowed(bot, w.s.rec, e.update) && Rearms(bot, w.s.rec, e.update)
  }

  function TimeOf(e: Event, clock: nat): nat {
    match e
    case DueAt(Some(now), _) => now
    case FinishAt(_, now, _, _) => now
    case ConfigureAt(_, Some(now), _) => now
    case _ => clock
  }

  /** The clock, at `clock` now, never steps back. */
  predicate ClockRuns(es: seq<Event>, clock: nat) {
    es != [] ==> clock <= TimeOf(es[0], clock) && ClockRuns(es[1..], TimeOf(es[0], clock))
  }

  predicate Undisturbed(bot: Bot, w: World, es: seq<Event>)
    decreases |es|
  {
    es != [] ==> !Rearming(bot, w, es[0]) && Undisturbed(bot, Step(bot, w, es[0]), es[1..])
  }

  // ---------------------------------------------------------------------------
  // Saving keeps everything but memory
  // ---------------------------------------------------------------------------

  predicate SameButMemory(a: Record, b: Record) {
    a == b.(state := a.state)
  }

  lemma {:induction false} FitForgetsOnlyMemory(bot: Bot, rec: Record)
    ensures SameButMemory(Fit(bot, rec), rec)
    ensures bot.size(Fit(bot, rec)) <= RECORD_MAX || Fit(bot, rec).state == []
    ensures bot.size(rec) <= RECORD_MAX ==> Fit(bot, rec) == rec
    decreases |rec.state|
  {
    if bot.size(rec) > RECORD_MAX && rec.state != [] {
      FitForgetsOnlyMemory(bot, rec.(state := Without(rec.state, Largest(rec.state))));
    }
  }

  /** Every value forgotten is at least as long as every value kept. */
  lemma {:induction false} FitForgetsTheLargest(bot: Bot, rec: Record, gone: Entry, kept: Entry)
    requires gone in rec.state && gone !in Fit(bot, rec).state && kept in Fit(bot, rec).state
    ensures |kept.value| <= |gone.value|
    decreases |rec.state|
  {
    var largest := Largest(rec.state);
    var rest := Without(rec.state, largest);
    assert forall e :: e in rec.state ==> e == rec.state[largest] || e in rest by {
      forall e | e in rec.state ensures e == rec.state[largest] || e in rest {
        var i :| 0 <= i < |rec.state| && rec.state[i] == e;
        if i < largest { assert rest[i] == e; } else if i > largest { assert rest[i - 1] == e; }
      }
    }
    FitKeepsASubset(bot, rec.(state := rest), kept);
    if gone in rest { FitForgetsTheLargest(bot, rec.(state := rest), gone, kept); }
  }

  lemma {:induction false} FitKeepsASubset(bot: Bot, rec: Record, kept: Entry)
    requires kept in Fit(bot, rec).state
    ensures kept in rec.state
    decreases |rec.state|
  {
    if bot.size(rec) > RECORD_MAX && rec.state != [] {
      FitKeepsASubset(bot, rec.(state := Without(rec.state, Largest(rec.state))), kept);
    }
  }

  // ---------------------------------------------------------------------------
  // A job is issued in time
  // ---------------------------------------------------------------------------

  /** A scheduled job is for the schedule's latest slot, after the last one handled, within the grace,
      with no retry pending later than now, on a bot that was idle and on. */
  lemma IssuedInTime(bot: Bot, s: BotState, clock: Option<nat>, written: bool)
    ensures var job := Due(bot, s, clock, written).1;
            job.Some? && job.value.kind == Scheduled ==>
              && clock.Some? && s.rec.last.Some? && s.rec.config.enabled && !s.rt.running
              && s.rec.last.value < job.value.slot <= clock.value <= job.value.slot + Grace(bot)
              && LatestAt(Plan(bot, s.rec), clock.value) == Some(job.value.slot)
              && (s.rt.retryAt.Some? ==> s.rt.retryAt.value <= clock.value)
  {
    if clock.Some? { LatestAtOrBefore(Plan(bot, s.rec), clock.value); }
  }

  /** What a look at `now` starts, told from the outside: at an idle bot that is set up, the first thing asked for; with nothing
      asked for, on a bot that is on, the schedule's latest slot - if it comes after the last one handled, is no more than the
      grace ago, and no retry waits for a later time. */
  predicate StartsAt(bot: Bot, s: BotState, now: nat, job: Job) {
    && !s.rt.running && (bot.needsMastodon ==> s.rec.config.instance != "" && s.rec.config.token != "")
    && match job.kind
       case Check => s.rt.checkRequested && job.slot == now
       case ModelCheck => !s.rt.checkRequested && s.rt.modelCheckRequested && job.slot == now
       case ByHand => !s.rt.checkRequested && !s.rt.modelCheckRequested && s.rt.manualRequested && job.slot == now
       case Scheduled =>
         && !s.rt.checkRequested && !s.rt.modelCheckRequested && !s.rt.manualRequested && s.rec.config.enabled
         && LatestAt(Plan(bot, s.rec), now) == Some(job.slot) && s.rec.last.Some? && s.rec.last.value < job.slot
         && now <= job.slot + bot.graceMinutes * 60000
         && (s.rt.retryAt.None? || s.rt.retryAt.value <= now)
  }

  /** A look starts a job if and only if the clock is set and that holds. */
  lemma DueExactly(bot: Bot, s: BotState, clock: Option<nat>, written: bool, job: Job)
    ensures Due(bot, s, clock, written).1 == Some(job) <==> clock.Some? && StartsAt(bot, s, clock.value, job)
  {
  }

  /** The job started is taken from what was asked for, and marks the bot running; nothing else changes. */
  lemma StartedState(bot: Bot, s: BotState, now: nat, written: bool, job: Job)
    requires StartsAt(bot, s, now, job)
    ensures Due(bot, s, Some(now), written)
         == (s.(rt := s.rt.(running := true, checkRequested := s.rt.checkRequested && job.kind != Check,
                            modelCheckRequested := s.rt.modelCheckRequested && job.kind != ModelCheck,
                            manualRequested := s.rt.manualRequested && job.kind != ByHand)), Some(job))
  {
    if job.kind == Scheduled { DueLooksForSlot(bot, s, now, written); }
  }

  /** A look that only the schedule could make start something, and that starts nothing: it records the latest slot if that is the
      first one seen, or is missed, and then no retry of a missed slot is pending; else it leaves the bot as it was. */
  lemma LookRecords(bot: Bot, s: BotState, now: nat, written: bool)
    requires !s.rt.running && s.rec.config.enabled && Configured(bot, s.rec)
    requires !s.rt.checkRequested && !s.rt.modelCheckRequested && !s.rt.manualRequested
    requires Due(bot, s, Some(now), written).1 == None
    ensures var t, latest := Due(bot, s, Some(now), written).0, LatestAt(Plan(bot, s.rec), now);
            var missed := latest.Some? && s.rec.last.Some? && s.rec.last.value < latest.value
                          && latest.value + bot.graceMinutes * 60000 < now;
            && t.rec.last == (if missed || s.rec.last.None? then latest else s.rec.last)
            && t.rt == (if missed then s.rt.(retryAt := None, attempt := 0) else s.rt)
            && SameButMemory(t.rec, s.rec.(last := t.rec.last))
            && (t.rec.last != s.rec.last ==> t.stored == if written then Some(t.rec) else s.stored)
            && (t.rec.last == s.rec.last ==> t == s)
  {
    var latest := LatestAt(Plan(bot, s.rec), now);
    DueLooksForSlot(bot, s, now, written);
    if latest.Some? {
      SaveEffect(bot, s.(rec := s.rec.(last := latest)), written);
      SaveEffect(bot, Settle(s, latest.value), written);
    }
  }

  // ---------------------------------------------------------------------------
  // A slot that was settled or missed is never issued again
  // ---------------------------------------------------------------------------

  /** Every slot of `plan` up to `x` is at or before `last`. */
  ghost predicate NoneLeft(plan: Schedule, last: nat, x: nat) {
    forall slot: nat :: IsSlot(plan, slot) && slot <= x ==> slot <= last
  }

  ghost predicate Handled(bot: Bot, rec: Record, x: nat) {
    rec.config.enabled && !Plan(bot, rec).Manual? ==> rec.last.Some? && NoneLeft(Plan(bot, rec), rec.last.value, x)
  }

  /** The slots up to `x` are behind the bot: in memory, in the stored record, and for the job being executed. */
  ghost predicate Past(bot: Bot, w: World, x: nat) {
    && Handled(bot, w.s.rec, x)
    && (w.s.stored.Some? ==> Handled(bot, w.s.stored.value, x))
    && (w.inFlight.Some? && w.inFlight.value.kind == Scheduled ==> x <= w.inFlight.value.slot)
  }

  /** If the event turns the bot on or moves its schedule, and is saved, then by a clock at or after `x`. */
  ghost predicate NoEarlier(bot: Bot, w: World, e: Event, x: nat) {
    Rearming(bot, w, e) && e.written ==>
      var plan := (bot.plan)(NewSettings(w.s.rec, e.update));
      plan.Manual? || (e.clock.Some? && x <= e.clock.value && Lawful(plan) && LatestAt(plan, e.clock.value).Some?)
  }

  ghost predicate AllNoEarlier(bot: Bot, w: World, es: seq<Event>, x: nat)
    decreases |es|
  {
    es != [] ==> NoEarlier(bot, w, es[0], x) && AllNoEarlier(bot, Step(bot, w, es[0]), es[1..], x)
  }

  lemma SaveEffect(bot: Bot, s: BotState, written: bool)
    ensures var t := Save(bot, s, written);
            && t.rt == s.rt && SameButMemory(t.rec, s.rec)
            && (if written then t.stored == Some(t.rec) else t.stored == s.stored)
  {
    FitForgetsOnlyMemory(bot, s.rec);
  }

  lemma ScheduledSlotEffect(bot: Bot, s: BotState, latest: Option<nat>, now: nat, written: bool)
    ensures var (t, slot) := ScheduledSlot(bot, s, latest, now, written);
            && t.rec.config == s.rec.config && t.rec.settings == s.rec.settings
            && t.rt == s.rt.(retryAt := t.rt.retryAt, attempt := t.rt.attempt)
            && (slot.Some? ==> t == s)
            && (t == s || (t.rec.last == latest && latest.Some?
                           && (s.rec.last.Some? ==> s.rec.last.value < latest.value)
                           && (if written then t.stored == Some(t.rec) else t.stored == s.stored)))
  {
    if latest.Some? {
      SaveEffect(bot, s.(rec := s.rec.(last := latest)), written);
      SaveEffect(bot, Settle(s, latest.value), written);
    }
  }

  lemma FinishEffect(bot: Bot, s: BotState, job: Job, started: nat, now: nat, outcome: Outcome, written: bool)
    ensures var t := Finish(bot, s, job, started, now, outcome, written);
            && t.rec.config == s.rec.config && t.rec.settings == s.rec.settings && !t.rt.running
            && (if written then t.stored == Some(t.rec) else t.stored == s.stored)
            && if job.kind != Scheduled then
                 t.rec.last == s.rec.last && t.rt == s.rt.(running := false)
               else if WillRetry(bot, s, job, now, outcome) then
                 t.rec.last == s.rec.last && t.rt.attempt == s.rt.attempt + 1
                 && t.rt.retryAt == Some(now + RetryWait(s.rt.attempt))
               else
                 t.rec.last == Some(job.slot) && t.rt.attempt == 0 && t.rt.retryAt == None
  {
    SaveEffect(bot, Finished(bot, s, job, started, now, outcome), written);
  }

  lemma ConfigureEffect(bot: Bot, s: BotState, u: Update, clock: Option<nat>, written: bool)
    ensures var (t, ok) := Configure(bot, s, u, clock, written);
            && ok == (UpdateAllowed(bot, s.rec, u) && written)
            && t.rt.running == s.rt.running
            && (!ok ==> t.rec == s.rec && t.stored == s.stored)
            && (!(UpdateAllowed(bot, s.rec, u) && Rearms(bot, s.rec, u)) ==> t.rt == s.rt && t.rec.last == s.rec.last)
            && (ok ==> t.stored == Some(t.rec) && t.rec.config == NewConfig(s.rec, u)
                       && t.rec.settings == NewSettings(s.rec, u))
            && (ok && Rearms(bot, s.rec, u) ==>
                  t.rec.last == LatestOn(Plan(bot, t.rec), clock) && t.rt.retryAt == None && t.rt.attempt == 0)
  {
    var settings := NewSettings(s.rec, u);
    var rearms := Rearms(bot, s.rec, u);
    var rec := s.rec.(config := NewConfig(s.rec, u), settings := settings,
                      last := if rearms then LatestOn((bot.plan)(settings), clock) else s.rec.last);
    var rt := if rearms then s.rt.(retryAt := None, attempt := 0) else s.rt;
    SaveEffect(bot, s.(rec := rec, rt := rt), true);
  }

  lemma DueKeepsPast(bot: Bot, w: World, clock: Option<nat>, written: bool, x: nat)
    requires Past(bot, w, x)
    ensures Past(bot, Step(bot, w, DueAt(clock, written)), x)
    ensures var job := Issued(bot, w, DueAt(clock, written)); job.Some? && job.value.kind == Scheduled ==> x < job.value.slot
  {
    IssuedInTime(bot, w.s, clock, written);
    if clock.Some? {
      var latest := LatestAt(Plan(bot, w.s.rec), clock.value);
      LatestIsSlot(Plan(bot, w.s.rec), clock.value);
      ScheduledSlotEffect(bot, w.s, latest, clock.value, written);
    }
  }

  lemma ConfigureKeepsPast(bot: Bot, w: World, e: Event, x: nat)
    requires e.ConfigureAt? && Past(bot, w, x) && NoEarlier(bot, w, e, x)
    ensures Past(bot, Step(bot, w, e), x)
  {
    ConfigureEffect(bot, w.s, e.update, e.clock, e.written);
    var plan := (bot.plan)(NewSettings(w.s.rec, e.update));
    if Rearming(bot, w, e) && e.written && !plan.Manual? { LatestAtIsGreatest(plan, e.clock.value); }
  }

  lemma PastIsKept(bot: Bot, w: World, e: Event, x: nat)
    requires Past(bot, w, x) && NoEarlier(bot, w, e, x)
    ensures Past(bot, Step(bot, w, e), x)
    ensures var job := Issued(bot, w, e); job.Some? && job.value.kind == Scheduled ==> x < job.value.slot
  {
    match e
    case DueAt(clock, written) => DueKeepsPast(bot, w, clock, written, x);
    case FinishAt(started, now, outcome, written) =>
      if w.inFlight.Some? { FinishEffect(bot, w.s, w.inFlight.value, started, now, outcome, written); }
    case ConfigureAt(update, clock, written) => ConfigureKeepsPast(bot, w, e, x);
    case RequestOf(kind) =>
    case Reboot =>
  }

  /** Whatever the clock does, across failed writes, restarts, lost jobs and changes of the schedule made by a clock at or
      after `x`: nothing at or before a slot that is behind the bot is started again. */
  lemma {:induction false} PastIsNeverIssued(bot: Bot, w: World, es: seq<Event>, x: nat)
    requires Past(bot, w, x) && AllNoEarlier(bot, w, es, x)
    ensures forall job :: job in Jobs(bot, w, es) && job.kind == Scheduled ==> x < job.slot
    decreases |es|
  {
    if es != [] {
      PastIsKept(bot, w, es[0], x);
      PastIsNeverIssued(bot, Step(bot, w, es[0]), es[1..], x);
    }
  }

  lemma SettledIsPast(bot: Bot, w: World, started: nat, now: nat, outcome: Outcome)
    requires w.inFlight.Some? && w.inFlight.value.kind == Scheduled
    requires !WillRetry(bot, w.s, w.inFlight.value, now, outcome)
    ensures Past(bot, Step(bot, w, FinishAt(started, now, outcome, true)), w.inFlight.value.slot)
  {
    FinishEffect(bot, w.s, w.inFlight.value, started, now, outcome, true);
  }

  /** A scheduled run that ends without a retry to come, and is saved, is never started again. */
  lemma SettledIsNeverIssued(bot: Bot, w: World, started: nat, now: nat, outcome: Outcome, es: seq<Event>)
    requires w.inFlight.Some? && w.inFlight.value.kind == Scheduled
    requires !WillRetry(bot, w.s, w.inFlight.value, now, outcome)
    requires AllNoEarlier(bot, Step(bot, w, FinishAt(started, now, outcome, true)), es, w.inFlight.value.slot)
    ensures forall job :: job in Jobs(bot, Step(bot, w, FinishAt(started, now, outcome, true)), es) && job.kind == Scheduled
              ==> w.inFlight.value.slot < job.slot
  {
    SettledIsPast(bot, w, started, now, outcome);
    PastIsNeverIssued(bot, Step(bot, w, FinishAt(started, now, outcome, true)), es, w.inFlight.value.slot);
  }

  /** What `Due` does when only a scheduled run can be due. */
  lemma DueLooksForSlot(bot: Bot, s: BotState, now: nat, written: bool)
    requires !s.rt.running && s.rec.config.enabled && Configured(bot, s.rec)
    requires !s.rt.checkRequested && !s.rt.modelCheckRequested && !s.rt.manualRequested
    ensures var (t, slot) := ScheduledSlot(bot, s, LatestAt(Plan(bot, s.rec), now), now, written);
            Due(bot, s, Some(now), written)
            == if slot.Some? then (t.(rt := t.rt.(running := true)), Some(Job(Scheduled, slot.value))) else (t, None)
  {
  }

  /** A slot found to be later than the grace when the bot is next looked at is recorded as missed, and,
      once that is saved, is never started. */
  lemma MissedIsNeverIssued(bot: Bot, w: World, now: nat, slot: nat, es: seq<Event>)
    requires !w.s.rt.running && w.s.rec.config.enabled && Configured(bot, w.s.rec) && w.inFlight.None?
    requires !w.s.rt.checkRequested && !w.s.rt.modelCheckRequested && !w.s.rt.manualRequested
    requires LatestAt(Plan(bot, w.s.rec), now) == Some(slot) && now - slot > Grace(bot)
    requires w.s.rec.last.Some? && w.s.rec.last.value < slot
    requires AllNoEarlier(bot, Step(bot, w, DueAt(Some(now), true)), es, slot)
    ensures Issued(bot, w, DueAt(Some(now), true)).None?
    ensures forall job :: job in Jobs(bot, Step(bot, w, DueAt(Some(now), true)), es) && job.kind == Scheduled
              ==> slot < job.slot
  {
    MissedIsPast(bot, w.s, now, slot);
    var next := Step(bot, w, DueAt(Some(now), true));
    assert Past(bot, next, slot);
    PastIsNeverIssued(bot, next, es, slot);
  }

  lemma MissedIsPast(bot: Bot, s: BotState, now: nat, slot: nat)
    requires !s.rt.running && s.rec.config.enabled && Configured(bot, s.rec)
    requires !s.rt.checkRequested && !s.rt.modelCheckRequested && !s.rt.manualRequested
    requires LatestAt(Plan(bot, s.rec), now) == Some(slot) && now - slot > Grace(bot)
    requires s.rec.last.Some? && s.rec.last.value < slot
    ensures var (t, job) := Due(bot, s, Some(now), true);
            job.None? && t.rec.last == Some(slot) && t.stored == Some(t.rec)
  {
    DueLooksForSlot(bot, s, now, true);
    MissedIsSaved(bot, s, slot, now);
  }

  lemma MissedIsSaved(bot: Bot, s: BotState, slot: nat, now: nat)
    requires now - slot > Grace(bot) && s.rec.last.Some? && s.rec.last.value < slot
    ensures var (t, found) := ScheduledSlot(bot, s, Some(slot), now, true);
            found.None? && t.rec.last == Some(slot) && t.stored == Some(t.rec)
  {
    SaveEffect(bot, Settle(s, slot), true);
  }

  // ---------------------------------------------------------------------------
  // The admin's requests
  // ---------------------------------------------------------------------------

  predicate Asked(s: BotState, kind: JobKind) {
    match kind
    case Check => s.rt.checkRequested
    case ModelCheck => s.rt.modelCheckRequested
    case ByHand => s.rt.manualRequested
    case Scheduled => false
  }

  /** Things asked for are started in the order check, model check, run. */
  function Rank(kind: JobKind): nat {
    match kind
    case Check => 0
    case ModelCheck => 1
    case _ => 2
  }

  /** How many kinds are asked for that are started before `kind`. */
  function Ahead(s: BotState, kind: JobKind): nat {
    (if s.rt.checkRequested && 0 < Rank(kind) then 1 else 0) + (if s.rt.modelCheckRequested && 1 < Rank(kind) then 1 else 0)
  }

  /** A look that finds the bot idle, set up, and the clock running. */
  predicate IdleLook(bot: Bot, w: World, e: Event) {
    e.DueAt? && e.clock.Some? && !w.s.rt.running && Configured(bot, w.s.rec)
  }

  function IdleLooks(bot: Bot, w: World, es: seq<Event>): nat
    decreases |es|
  {
    if es == [] then 0 else (if IdleLook(bot, w, es[0]) then 1 else 0) + IdleLooks(bot, Step(bot, w, es[0]), es[1..])
  }

  /** How often something is asked for that is started before `kind`. */
  function RequestsAhead(es: seq<Event>, kind: JobKind): nat {
    if es == [] then 0
    else (if es[0].RequestOf? && Rank(es[0].kind) < Rank(kind) then 1 else 0) + RequestsAhead(es[1..], kind)
  }

  predicate NoReboot(es: seq<Event>) {
    forall i :: 0 <= i < |es| ==> !es[i].Reboot?
  }

  predicate SomeOf(jobs: seq<Job>, kind: JobKind) {
    exists i :: 0 <= i < |jobs| && jobs[i].kind == kind
  }

  lemma LookServes(bot: Bot, w: World, e: Event, kind: JobKind)
    requires Asked(w.s, kind) && IdleLook(bot, w, e)
    ensures var job, t := Issued(bot, w, e), Step(bot, w, e).s;
            job.Some? && (job.value.kind == kind || (Asked(t, kind) && Ahead(t, kind) + 1 == Ahead(w.s, kind)))
  {
  }

  lemma NoLookKeepsAsked(bot: Bot, w: World, e: Event, kind: JobKind)
    requires Asked(w.s, kind) && !IdleLook(bot, w, e) && !e.Reboot?
    ensures var t := Step(bot, w, e).s; Asked(t, kind) && Ahead(t, kind) <= Ahead(w.s, kind) + RequestsAhead([e], kind)
  {
    match e
    case DueAt(_, _) =>
    case FinishAt(started, now, outcome, written) =>
      if w.inFlight.Some? { FinishKeepsAsked(bot, w.s, w.inFlight.value, started, now, outcome, written); }
    case ConfigureAt(u, clock, written) => ChangeKeepsAsked(bot, w.s, u, clock, written);
    case RequestOf(_) =>
  }

  predicate SameAsked(a: BotState, b: BotState) {
    a.rt == b.rt.(running := a.rt.running, retryAt := a.rt.retryAt, attempt := a.rt.attempt)
  }

  lemma FinishKeepsAsked(bot: Bot, s: BotState, job: Job, started: nat, now: nat, outcome: Outcome, written: bool)
    ensures SameAsked(Finish(bot, s, job, started, now, outcome, written), s)
  {
  }

  lemma ChangeKeepsAsked(bot: Bot, s: BotState, u: Update, clock: Option<nat>, written: bool)
    ensures SameAsked(Configure(bot, s, u, clock, written).0, s)
  {
  }

  /** Whatever the admin asks for is started once an idle bot has been looked at as often as there are things to start
      before it, asked for by then or later, and once more - through any runs, results, changes and failed writes. */
  lemma {:induction false} AskedStartsInTime(bot: Bot, w: World, es: seq<Event>, kind: JobKind)
    requires Asked(w.s, kind) && NoReboot(es)
    requires IdleLooks(bot, w, es) > Ahead(w.s, kind) + RequestsAhead(es, kind)
    ensures SomeOf(Jobs(bot, w, es), kind)
    decreases |es|
  {
    var e, rest, next := es[0], es[1..], Step(bot, w, es[0]);
    var first := if Issued(bot, w, e).Some? then [Issued(bot, w, e).value] else [];
    assert Jobs(bot, w, es) == first + Jobs(bot, next, rest);
    assert NoReboot(rest) && !e.Reboot?;
    if IdleLook(bot, w, e) { LookServes(bot, w, e, kind); } else {
      NoLookKeepsAsked(bot, w, e, kind);
      assert RequestsAhead(es, kind) == RequestsAhead([e], kind) + RequestsAhead(rest, kind);
    }
    if first != [] && first[0].kind == kind {
      assert Jobs(bot, w, es)[0].kind == kind;
    } else {
      AskedStartsInTime(bot, next, rest, kind);
      SomeLater(first, Jobs(bot, next, rest), kind);
    }
  }

  lemma SomeLater(a: seq<Job>, b: seq<Job>, kind: JobKind)
    requires SomeOf(b, kind)
    ensures SomeOf(a + b, kind)
  {
    var i :| 0 <= i < |b| && b[i].kind == kind;
    assert (a + b)[|a| + i] == b[i];
  }
}
