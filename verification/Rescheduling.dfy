// Turning a bot on, or moving its schedule, at time `n` does not run slots from before `n`
// (mastomini_bots/src/service.rs) - if the bot is idle at `n`, and exactly when a run is going.
module Rescheduling {
  import opened Options
  import opened Schedules
  import opened BotRuns
  import opened BotHistory

  /** While the bot is on it follows `plan`, and has handled everything up to `x`, if anything. */
  predicate Follows(bot: Bot, rec: Record, plan: Schedule, x: nat) {
    rec.config.enabled ==> Plan(bot, rec) == plan && (rec.last.Some? ==> x <= rec.last.value) && (rec.last.None? ==> x == 0)
  }

  predicate Armed(bot: Bot, w: World, plan: Schedule, x: nat) {
    && Follows(bot, w.s.rec, plan, x)
    && (w.s.stored.Some? ==> Follows(bot, w.s.stored.value, plan, x))
    && (w.inFlight.Some? && w.inFlight.value.kind == Scheduled ==> x <= w.inFlight.value.slot)
  }

  predicate IssuesAfter(bot: Bot, w: World, e: Event, plan: Schedule, x: nat) {
    var job := Issued(bot, w, e);
    job.Some? && job.value.kind == Scheduled ==>
      && x < job.value.slot && e.clock.Some? && LatestAt(plan, e.clock.value) == Some(job.value.slot)
      && e.clock.value <= job.value.slot + Grace(bot)
  }

  lemma DueKeepsArmed(bot: Bot, w: World, clock: Option<nat>, written: bool, plan: Schedule, x: nat)
    requires Armed(bot, w, plan, x)
    ensures Armed(bot, Step(bot, w, DueAt(clock, written)), plan, x)
    ensures IssuesAfter(bot, w, DueAt(clock, written), plan, x)
  {
    IssuedInTime(bot, w.s, clock, written);
    if clock.Some? {
      var latest := LatestAt(Plan(bot, w.s.rec), clock.value);
      ScheduledSlotEffect(bot, w.s, latest, clock.value, written);
      var t := Step(bot, w, DueAt(clock, written)).s;
      assert t.rec.config == w.s.rec.config && t.rec.settings == w.s.rec.settings;
      assert t.rec.last == w.s.rec.last || w.s.rec.config.enabled;
    }
  }

  lemma ArmedIsKept(bot: Bot, w: World, e: Event, plan: Schedule, x: nat)
    requires Armed(bot, w, plan, x) && !Rearming(bot, w, e)
    ensures Armed(bot, Step(bot, w, e), plan, x) && IssuesAfter(bot, w, e, plan, x)
  {
    match e
    case DueAt(clock, written) => DueKeepsArmed(bot, w, clock, written, plan, x);
    case FinishAt(started, now, outcome, written) =>
      if w.inFlight.Some? { FinishEffect(bot, w.s, w.inFlight.value, started, now, outcome, written); }
    case ConfigureAt(update, clock, written) => ConfigureEffect(bot, w.s, update, clock, written);
    case RequestOf(kind) =>
    case Reboot =>
  }

  /** Every scheduled job of the history is for the latest slot of `plan`, after `x` and within the grace, at an instant the
      clock shows; with a clock that never steps back, at or after `clock`. */
  lemma {:induction false} ArmedIssuesAfter(bot: Bot, w: World, es: seq<Event>, plan: Schedule, x: nat, clock: nat, job: Job)
      returns (at: nat)
    requires Armed(bot, w, plan, x) && Undisturbed(bot, w, es)
    requires job in Jobs(bot, w, es) && job.kind == Scheduled
    ensures x < job.slot && LatestAt(plan, at) == Some(job.slot) && at <= job.slot + Grace(bot)
    ensures ClockRuns(es, clock) ==> clock <= at
    decreases |es|
  {
    ArmedIsKept(bot, w, es[0], plan, x);
    if Issued(bot, w, es[0]) == Some(job) {
      at := es[0].clock.value;
    } else {
      assert job in Jobs(bot, Step(bot, w, es[0]), es[1..]);
      at := ArmedIssuesAfter(bot, Step(bot, w, es[0]), es[1..], plan, x, TimeOf(es[0], clock), job);
    }
  }

  predicate AllAfter(jobs: seq<Job>, n: nat) {
    forall job :: job in jobs && job.kind == Scheduled ==> n < job.slot
  }

  /** Whatever the history, only slots after `n` are started. */
  ghost predicate OnlyAfter(bot: Bot, w: World, n: nat) {
    forall es :: Undisturbed(bot, w, es) ==> AllAfter(Jobs(bot, w, es), n)
  }

  /** The same if the clock, at `now`, never steps back. */
  ghost predicate OnlyAfterSince(bot: Bot, w: World, n: nat, now: nat) {
    forall es :: Undisturbed(bot, w, es) && ClockRuns(es, now) ==> AllAfter(Jobs(bot, w, es), n)
  }

  /** If the bot has handled every slot of its plan up to `n`, only later ones are issued. */
  lemma NoneLeftMeansAfter(bot: Bot, w: World, plan: Schedule, x: nat, n: nat)
    requires Armed(bot, w, plan, x) && NoneLeft(plan, x, n)
    ensures OnlyAfter(bot, w, n)
  {
    forall es | Undisturbed(bot, w, es) ensures AllAfter(Jobs(bot, w, es), n) {
      forall job | job in Jobs(bot, w, es) && job.kind == Scheduled ensures n < job.slot {
        var at := ArmedIssuesAfter(bot, w, es, plan, x, 0, job);
        LatestIsSlot(plan, at);
      }
    }
  }

  /** A period that settings can choose, or another schedule: two days without a slot only come before 1970's third day. */
  predicate Frequent(plan: Schedule) {
    plan.Every? ==> plan.minutes <= 2 * 24 * 60
  }

  /** Without a latest slot at `n` there is none up to `n`, but for the start of 1970. */
  lemma NoLatestMeansNone(plan: Schedule, n: nat)
    requires Lawful(plan) && Frequent(plan) && LatestAt(plan, n).None?
    ensures NoneLeft(plan, 0, n)
  {
    LatestAtIsGreatest(plan, n);
    match plan
    case Daily(times, tz) => if 2 * DAY_MS <= n { DailyAlwaysHasLatest(tz, times, n); }
    case Every(minutes) => EveryAlwaysHasLatest(minutes);
    case Manual =>
  }

  /** What the change leaves as handled. */
  function HandledBy(plan: Schedule, n: nat): nat {
    if LatestAt(plan, n).Some? then LatestAt(plan, n).value else 0
  }

  lemma HandledByLeavesNone(plan: Schedule, n: nat)
    requires Lawful(plan) && Frequent(plan)
    ensures NoneLeft(plan, HandledBy(plan, n), n)
  {
    if LatestAt(plan, n).Some? { LatestAtIsGreatest(plan, n); } else { NoLatestMeansNone(plan, n); }
  }

  function NewPlan(bot: Bot, w: World, u: Update): Schedule {
    (bot.plan)(NewSettings(w.s.rec, u))
  }

  /** After an idle bot is turned on or rescheduled at `n`, every later scheduled slot is after `n`, whatever the clock does. */
  lemma RescheduledIdle(bot: Bot, w: World, u: Update, n: nat)
    requires w.inFlight.None? && Rearming(bot, w, ConfigureAt(u, Some(n), true))
    requires Lawful(NewPlan(bot, w, u)) && Frequent(NewPlan(bot, w, u))
    ensures OnlyAfter(bot, Step(bot, w, ConfigureAt(u, Some(n), true)), n)
  {
    var plan := NewPlan(bot, w, u);
    ConfigureEffect(bot, w.s, u, Some(n), true);
    HandledByLeavesNone(plan, n);
    NoneLeftMeansAfter(bot, Step(bot, w, ConfigureAt(u, Some(n), true)), plan, HandledBy(plan, n), n);
  }

  /** Turned on before the clock was set: the first look at the clock starts nothing, and afterwards every
      scheduled slot is after that instant. */
  lemma FirstLookStartsNothing(bot: Bot, w: World, n: nat)
    requires w.inFlight.None? && !w.s.rt.running && w.s.rec.config.enabled && Configured(bot, w.s.rec)
    requires !w.s.rt.checkRequested && !w.s.rt.modelCheckRequested && !w.s.rt.manualRequested
    requires w.s.rec.last.None? && Lawful(Plan(bot, w.s.rec)) && LatestAt(Plan(bot, w.s.rec), n).Some?
    ensures Issued(bot, w, DueAt(Some(n), true)).None?
    ensures OnlyAfter(bot, Step(bot, w, DueAt(Some(n), true)), n)
  {
    var plan := Plan(bot, w.s.rec);
    var latest := LatestAt(plan, n);
    FirstLook(bot, w.s, n, latest);
    var next := Step(bot, w, DueAt(Some(n), true));
    assert Armed(bot, next, plan, latest.value);
    LatestAtIsGreatest(plan, n);
    NoneLeftMeansAfter(bot, next, plan, latest.value, n);
  }

  lemma FirstLook(bot: Bot, s: BotState, n: nat, latest: Option<nat>)
    requires !s.rt.running && s.rec.config.enabled && Configured(bot, s.rec)
    requires !s.rt.checkRequested && !s.rt.modelCheckRequested && !s.rt.manualRequested
    requires s.rec.last.None? && latest == LatestAt(Plan(bot, s.rec), n) && latest.Some?
    ensures var (t, job) := Due(bot, s, Some(n), true);
            && job.None? && t.rec.last == latest && t.stored == Some(t.rec)
            && t.rec.config == s.rec.config && t.rec.settings == s.rec.settings
  {
    DueLooksForSlot(bot, s, n, true);
    FirstLookRecords(bot, s, latest, n);
  }

  lemma FirstLookRecords(bot: Bot, s: BotState, latest: Option<nat>, n: nat)
    requires s.rec.last.None? && latest.Some?
    ensures var (t, slot) := ScheduledSlot(bot, s, latest, n, true);
            && slot.None? && t.rec.last == latest && t.stored == Some(t.rec)
            && t.rec.config == s.rec.config && t.rec.settings == s.rec.settings
  {
    SaveEffect(bot, s.(rec := s.rec.(last := latest)), true);
  }


  // ---------------------------------------------------------------------------
  // Rescheduled while a scheduled run is going
  // ---------------------------------------------------------------------------

  /** Looks, requests and changes that move no schedule: what can come between the change and the end of the run. */
  predicate Quiet(bot: Bot, w: World, es: seq<Event>)
    decreases |es|
  {
    es != [] ==> !es[0].FinishAt? && !es[0].Reboot? && !Rearming(bot, w, es[0]) && Quiet(bot, Step(bot, w, es[0]), es[1..])
  }

  predicate FollowsFrom(bot: Bot, rec: Record, plan: Schedule, last: Option<nat>) {
    rec.last == last && (rec.config.enabled ==> Plan(bot, rec) == plan)
  }

  /** The run of `job` is going, and the change of the schedule stands. */
  predicate Held(bot: Bot, w: World, job: Job, plan: Schedule, last: Option<nat>) {
    && w.inFlight == Some(job) && w.s.rt.running && w.s.rt.attempt == 0 && w.s.rt.retryAt == None
    && FollowsFrom(bot, w.s.rec, plan, last)
    && w.s.stored.Some? && FollowsFrom(bot, w.s.stored.value, plan, last)
  }

  lemma {:induction false} QuietHolds(bot: Bot, w: World, es: seq<Event>, job: Job, plan: Schedule, last: Option<nat>)
    requires Held(bot, w, job, plan, last) && Quiet(bot, w, es)
    ensures Held(bot, After(bot, w, es), job, plan, last)
    decreases |es|
  {
    if es != [] {
      if es[0].ConfigureAt? { ConfigureEffect(bot, w.s, es[0].update, es[0].clock, es[0].written); }
      QuietHolds(bot, Step(bot, w, es[0]), es[1..], job, plan, last);
    }
  }

  /** A scheduled run that is going, and a change saved at `n` that turns the bot on or moves its schedule. */
  ghost predicate ChangedMeanwhile(bot: Bot, w: World, u: Update, n: nat, mid: seq<Event>) {
    && w.inFlight.Some? && w.inFlight.value.kind == Scheduled && w.s.rt.running
    && Rearming(bot, w, ConfigureAt(u, Some(n), true)) && Lawful(NewPlan(bot, w, u)) && Frequent(NewPlan(bot, w, u))
    && Quiet(bot, Step(bot, w, ConfigureAt(u, Some(n), true)), mid)
  }

  /** When the run ends. */
  function Meanwhile(bot: Bot, w: World, u: Update, n: nat, mid: seq<Event>): World {
    After(bot, Step(bot, w, ConfigureAt(u, Some(n), true)), mid)
  }

  lemma ChangeHolds(bot: Bot, w: World, u: Update, n: nat, mid: seq<Event>)
    requires ChangedMeanwhile(bot, w, u, n, mid)
    ensures Held(bot, Meanwhile(bot, w, u, n, mid), w.inFlight.value, NewPlan(bot, w, u), LatestAt(NewPlan(bot, w, u), n))
  {
    ConfigureEffect(bot, w.s, u, Some(n), true);
    QuietHolds(bot, Step(bot, w, ConfigureAt(u, Some(n), true)), mid, w.inFlight.value, NewPlan(bot, w, u),
               LatestAt(NewPlan(bot, w, u), n));
  }

  /** A run that is tried again leaves the change as it is; any other overwrites the slot the change chose. */
  lemma RunOverwritesChange(bot: Bot, w: World, job: Job, plan: Schedule, last: Option<nat>,
                            started: nat, now: nat, outcome: Outcome, written: bool)
    requires Held(bot, w, job, plan, last) && job.kind == Scheduled
    ensures var t := Step(bot, w, FinishAt(started, now, outcome, written));
            && t.inFlight.None? && !t.s.rt.running && SameAsked(t.s, w.s)
            && FollowsFrom(bot, t.s.rec, plan, if WillRetry(bot, w.s, job, now, outcome) then last else Some(job.slot))
            && (t.s.stored == Some(t.s.rec) || t.s.stored == w.s.stored)
            && (!WillRetry(bot, w.s, job, now, outcome) ==> t.s.rt.retryAt == None)
            && t.s.rec.config == w.s.rec.config
  {
    FinishEffect(bot, w.s, job, started, now, outcome, written);
    FinishKeepsAsked(bot, w.s, job, started, now, outcome, written);
  }

  /** The bot is idle and on, and has handled slots only before `latest`. */
  predicate Behind(bot: Bot, t: World, plan: Schedule, latest: nat) {
    && t.inFlight.None? && !t.s.rt.running && t.s.rt.retryAt == None
    && t.s.rec.config.enabled && Configured(bot, t.s.rec) && Plan(bot, t.s.rec) == plan
    && t.s.rec.last.Some? && t.s.rec.last.value < latest
  }

  /** And `latest` is its plan's latest slot at `at`, within the grace. */
  predicate Overdue(bot: Bot, t: World, plan: Schedule, at: nat, latest: nat) {
    Behind(bot, t, plan, latest) && LatestAt(plan, at) == Some(latest) && at <= latest + Grace(bot)
  }

  function Requests(s: BotState): nat {
    Ahead(s, ByHand) + if s.rt.manualRequested then 1 else 0
  }

  /** An admin's run at `at`, from start to end. */
  function RequestedRun(at: nat): seq<Event> {
    [DueAt(Some(at), true), FinishAt(at, at, Outcome(true, false, None), true)]
  }

  lemma RequestStarts(bot: Bot, t: World, plan: Schedule, at: nat, latest: nat)
    requires Behind(bot, t, plan, latest) && Requests(t.s) > 0
    ensures var going := Step(bot, t, RequestedRun(at)[0]);
            && going.inFlight.Some? && going.inFlight.value.kind != Scheduled && going.s.rec == t.s.rec
            && going.s.rt.retryAt == None && Requests(going.s) + 1 == Requests(t.s)
  {
  }

  lemma RequestEnds(bot: Bot, going: World, at: nat)
    requires going.inFlight.Some? && going.inFlight.value.kind != Scheduled
    ensures var t := Step(bot, going, RequestedRun(at)[1]);
            && t.inFlight.None? && t.s.rt == going.s.rt.(running := false) && t.s.rec.last == going.s.rec.last
            && t.s.rec.config == going.s.rec.config && t.s.rec.settings == going.s.rec.settings
  {
    FinishEffect(bot, going.s, going.inFlight.value, at, at, Outcome(true, false, None), true);
  }

  lemma RequestedRunEnds(bot: Bot, t: World, plan: Schedule, at: nat, latest: nat)
    requires Behind(bot, t, plan, latest) && Requests(t.s) > 0
    ensures var next := After(bot, t, RequestedRun(at));
            Behind(bot, next, plan, latest) && Requests(next.s) < Requests(t.s)
    ensures Undisturbed(bot, t, RequestedRun(at))
  {
    var es := RequestedRun(at);
    var going := Step(bot, t, es[0]);
    RequestStarts(bot, t, plan, at, latest);
    RequestEnds(bot, going, at);
    assert es[1..] == [es[1]] && es[1..][1..] == [];
    assert After(bot, t, es) == After(bot, going, es[1..]) == Step(bot, going, es[1]);
    assert Undisturbed(bot, going, es[1..]);
  }

  lemma OverdueStarts(bot: Bot, t: World, plan: Schedule, at: nat, latest: nat)
    requires Overdue(bot, t, plan, at, latest) && Requests(t.s) == 0
    ensures Issued(bot, t, DueAt(Some(at), true)) == Some(Job(Scheduled, latest))
  {
    DueLooksForSlot(bot, t.s, at, true);
  }

  lemma AfterRequestedRun(bot: Bot, t: World, at: nat, rest: seq<Event>)
    requires Undisturbed(bot, t, RequestedRun(at)) && Undisturbed(bot, After(bot, t, RequestedRun(at)), rest)
    requires ClockRuns(rest, at)
    ensures var es := RequestedRun(at) + rest;
            Undisturbed(bot, t, es) && ClockRuns(es, at)
            && forall job :: job in Jobs(bot, After(bot, t, RequestedRun(at)), rest) ==> job in Jobs(bot, t, es)
  {
    var first := RequestedRun(at);
    var es := first + rest;
    assert first[1..] == [first[1]] && first[1..][1..] == [];
    var going := Step(bot, t, first[0]);
    assert After(bot, t, first) == After(bot, going, first[1..]) == Step(bot, going, first[1]);
    assert es[0] == first[0] && es[1..] == [first[1]] + rest && es[1..][1..] == rest;
    assert Undisturbed(bot, going, es[1..]);
  }

  /** Then that slot is started, after the runs the admin asked for. */
  lemma {:induction false} OverdueIsIssued(bot: Bot, t: World, plan: Schedule, at: nat, latest: nat) returns (es: seq<Event>)
    requires Overdue(bot, t, plan, at, latest)
    ensures Undisturbed(bot, t, es) && ClockRuns(es, at) && Job(Scheduled, latest) in Jobs(bot, t, es)
    decreases Requests(t.s)
  {
    if Requests(t.s) == 0 {
      OverdueStarts(bot, t, plan, at, latest);
      es := [DueAt(Some(at), true)];
      assert Jobs(bot, t, es)[0] == Job(Scheduled, latest);
    } else {
      RequestedRunEnds(bot, t, plan, at, latest);
      var first := RequestedRun(at);
      var rest := OverdueIsIssued(bot, After(bot, t, first), plan, at, latest);
      es := first + rest;
      AfterRequestedRun(bot, t, at, rest);
    }
  }

  lemma OverdueIsNotAfter(bot: Bot, t: World, plan: Schedule, at: nat, latest: nat, n: nat)
    requires Overdue(bot, t, plan, at, latest) && latest <= n
    ensures !OnlyAfter(bot, t, n) && !OnlyAfterSince(bot, t, n, at)
  {
    var es := OverdueIsIssued(bot, t, plan, at, latest);
    assert !AllAfter(Jobs(bot, t, es), n);
  }

  lemma LatestAtItself(plan: Schedule, slot: nat, latest: Option<nat>)
    requires Lawful(plan) && IsSlot(plan, slot) && 0 < slot && latest == LatestAt(plan, slot)
    ensures latest == Some(slot)
  {
    LatestAtIsGreatest(plan, slot);
    assert SearchFrom(slot) < slot;
  }

  /** What the end of the run leaves: nothing up to `n`, or the slot the change chose. */
  lemma RunEnds(bot: Bot, during: World, job: Job, plan: Schedule, n: nat,
                started: nat, now: nat, outcome: Outcome, written: bool)
    requires Held(bot, during, job, plan, LatestAt(plan, n)) && job.kind == Scheduled && Lawful(plan) && Frequent(plan)
    ensures var t, handled := Step(bot, during, FinishAt(started, now, outcome, written)), HandledBy(plan, n);
            if WillRetry(bot, during.s, job, now, outcome) || handled <= job.slot then OnlyAfter(bot, t, n)
            else Armed(bot, t, plan, 0) && (IsOn(bot, during) ==> Behind(bot, t, plan, handled))
  {
    var t, handled := Step(bot, during, FinishAt(started, now, outcome, written)), HandledBy(plan, n);
    RunOverwritesChange(bot, during, job, plan, LatestAt(plan, n), started, now, outcome, written);
    HandledByLeavesNone(plan, n);
    if WillRetry(bot, during.s, job, now, outcome) || handled <= job.slot {
      NoneLeftMeansAfter(bot, t, plan, handled, n);
    }
  }

  predicate IsOn(bot: Bot, w: World) {
    w.s.rec.config.enabled && Configured(bot, w.s.rec)
  }

  lemma BehindIsNotAfter(bot: Bot, t: World, plan: Schedule, n: nat, latest: nat)
    requires Behind(bot, t, plan, latest) && Lawful(plan) && LatestAt(plan, n) == Some(latest)
    ensures !OnlyAfter(bot, t, n)
  {
    LatestAtIsGreatest(plan, n);
    LatestAtItself(plan, latest, LatestAt(plan, latest));
    OverdueIsNotAfter(bot, t, plan, latest, latest, n);
  }

  lemma GoneMeansAfter(bot: Bot, t: World, plan: Schedule, n: nat, now: nat, latest: nat)
    requires Armed(bot, t, plan, 0) && Lawful(plan) && LatestAt(plan, n) == Some(latest) && n <= now
    requires now > latest + Grace(bot) || LatestAt(plan, now) != Some(latest)
    ensures OnlyAfterSince(bot, t, n, now)
  {
    forall es | Undisturbed(bot, t, es) && ClockRuns(es, now) ensures AllAfter(Jobs(bot, t, es), n) {
      forall job | job in Jobs(bot, t, es) && job.kind == Scheduled ensures n < job.slot {
        var at := ArmedIssuesAfter(bot, t, es, plan, 0, now, job);
        LatestAtIsGreatest(plan, n);
        LatestAtIsGreatest(plan, now);
        LatestAtIsGreatest(plan, at);
      }
    }
  }

  lemma BehindOnward(bot: Bot, t: World, plan: Schedule, n: nat, now: nat, latest: nat)
    requires Armed(bot, t, plan, 0) && Behind(bot, t, plan, latest) && Lawful(plan)
    requires LatestAt(plan, n) == Some(latest) && n <= now
    ensures OnlyAfterSince(bot, t, n, now) <==> now > latest + Grace(bot) || LatestAt(plan, now) != Some(latest)
  {
    LatestIsSlot(plan, n);
    if now <= latest + Grace(bot) && LatestAt(plan, now) == Some(latest) {
      OverdueIsNotAfter(bot, t, plan, now, latest, n);
    } else {
      GoneMeansAfter(bot, t, plan, n, now, latest);
    }
  }

  /** The schedule is moved while a scheduled run is going. If that run is tried again, only slots after `n` are started;
      if not, exactly when its slot is no earlier than the new schedule's latest one at `n`. */
  lemma RescheduledWhileRunning(bot: Bot, w: World, u: Update, n: nat, mid: seq<Event>,
                                started: nat, now: nat, outcome: Outcome, written: bool)
    requires ChangedMeanwhile(bot, w, u, n, mid) && IsOn(bot, Meanwhile(bot, w, u, n, mid))
    ensures var during, job := Meanwhile(bot, w, u, n, mid), w.inFlight.value;
            OnlyAfter(bot, Step(bot, during, FinishAt(started, now, outcome, written)), n)
            <==> WillRetry(bot, during.s, job, now, outcome) || HandledBy(NewPlan(bot, w, u), n) <= job.slot
  {
    var during, job, plan := Meanwhile(bot, w, u, n, mid), w.inFlight.value, NewPlan(bot, w, u);
    ChangeHolds(bot, w, u, n, mid);
    RunEnds(bot, during, job, plan, n, started, now, outcome, written);
    if !WillRetry(bot, during.s, job, now, outcome) && job.slot < HandledBy(plan, n) {
      BehindIsNotAfter(bot, Step(bot, during, FinishAt(started, now, outcome, written)), plan, n, HandledBy(plan, n));
    }
  }

  /** The same for a clock that does not step back: the old slot can then also be beyond its grace, or no longer the latest. */
  lemma RescheduledWhileRunningOnward(bot: Bot, w: World, u: Update, n: nat, mid: seq<Event>,
                                      started: nat, now: nat, outcome: Outcome, written: bool)
    requires ChangedMeanwhile(bot, w, u, n, mid) && IsOn(bot, Meanwhile(bot, w, u, n, mid)) && n <= now
    ensures var during, job, plan := Meanwhile(bot, w, u, n, mid), w.inFlight.value, NewPlan(bot, w, u);
            OnlyAfterSince(bot, Step(bot, during, FinishAt(started, now, outcome, written)), n, now)
            <==> WillRetry(bot, during.s, job, now, outcome) || HandledBy(plan, n) <= job.slot
                 || now > HandledBy(plan, n) + Grace(bot) || LatestAt(plan, now) != LatestAt(plan, n)
  {
    var during, job, plan := Meanwhile(bot, w, u, n, mid), w.inFlight.value, NewPlan(bot, w, u);
    ChangeHolds(bot, w, u, n, mid);
    RunEnds(bot, during, job, plan, n, started, now, outcome, written);
    if !WillRetry(bot, during.s, job, now, outcome) && job.slot < HandledBy(plan, n) {
      BehindOnward(bot, Step(bot, during, FinishAt(started, now, outcome, written)), plan, n, now, HandledBy(plan, n));
    }
  }
}
