// What each call leaves written down of a bot (mastomini_bots/src/service.rs): its settings and keys, the results of its runs, its
// memory, and what the admin asks for - and that a bot that is on always has what it needs.
module BotRecords {
  import opened Options
  import opened Schedules
  import opened BotRuns
  import opened BotHistory

  // ---------------------------------------------------------------------------
  // Changes
  // ---------------------------------------------------------------------------

  /** A value given and accepted is the one that stands; one not given leaves the old one. */
  predicate Takes<T(==)>(change: Option<Result<T>>, was: T, now: T) {
    match change
    case None => now == was
    case Some(Ok(value)) => now == value
    case Some(Err) => false
  }

  /** A change that succeeds: the server, the key, the switch and the settings given are each in their own place, and are saved;
      what was not given, the results and the memory stay, except what had to be forgotten. */
  lemma ChangeLands(bot: Bot, s: BotState, u: Update, clock: Option<nat>, written: bool)
    requires Configure(bot, s, u, clock, written).1
    ensures var t := Configure(bot, s, u, clock, written).0;
            && Takes(u.instance, s.rec.config.instance, t.rec.config.instance)
            && Takes(u.token, s.rec.config.token, t.rec.config.token)
            && Takes(u.settings, s.rec.settings, t.rec.settings)
            && t.rec.config.enabled == (if u.enabled.Some? then u.enabled.value else s.rec.config.enabled)
            && t.rec.lastRun == s.rec.lastRun && t.rec.lastCheck == s.rec.lastCheck
            && t.rec.runs == s.rec.runs && t.rec.failures == s.rec.failures
            && t.stored == Some(t.rec) && SameAsked(t, s) && t.rt.running == s.rt.running
            && (bot.size(t.rec.(state := s.rec.state)) <= RECORD_MAX ==> t.rec.state == s.rec.state)
  {
    var settings := NewSettings(s.rec, u);
    var rearms := Rearms(bot, s.rec, u);
    var rec := s.rec.(config := NewConfig(s.rec, u), settings := settings,
                      last := if rearms then LatestOn((bot.plan)(settings), clock) else s.rec.last);
    FitForgetsOnlyMemory(bot, rec);
    ChangeKeepsAsked(bot, s, u, clock, written);
    var t := Configure(bot, s, u, clock, written).0;
    assert t.rec == Fit(bot, rec);
    assert t.rec.(state := s.rec.state) == rec;
  }

  /** A change re-arms the schedule if and only if the bot is on after it, and was off before or had another schedule. */
  lemma RearmsExactly(bot: Bot, s: BotState, u: Update, clock: Option<nat>, written: bool)
    requires Configure(bot, s, u, clock, written).1
    ensures var t := Configure(bot, s, u, clock, written).0;
            Rearms(bot, s.rec, u)
            <==> t.rec.config.enabled && (!s.rec.config.enabled || Plan(bot, t.rec) != Plan(bot, s.rec))
  {
    ConfigureEffect(bot, s, u, clock, written);
  }

  /** A change succeeds if and only if each value given is acceptable, it can be saved, the schedule is one that can be run, and a bot
      then on has a server and a key - which a bot that posts nowhere needs only together - and is ready. */
  lemma ChangeSucceedsExactly(bot: Bot, s: BotState, u: Update, clock: Option<nat>, written: bool, after: Record)
    requires after.config.enabled == (if u.enabled.Some? then u.enabled.value else s.rec.config.enabled)
    requires u.instance != Some(Err) ==> Takes(u.instance, s.rec.config.instance, after.config.instance)
    requires u.token != Some(Err) ==> Takes(u.token, s.rec.config.token, after.config.token)
    requires u.settings != Some(Err) ==> Takes(u.settings, s.rec.settings, after.settings)
    ensures Configure(bot, s, u, clock, written).1 <==>
              && u.instance != Some(Err) && u.token != Some(Err) && u.settings != Some(Err) && written
              && Checked(Plan(bot, after))
              && (after.config.enabled ==>
                    && bot.ready(after.settings)
                    && (after.config.token != "" ==> after.config.instance != "")
                    && (bot.needsMastodon ==> after.config.instance != "" && after.config.token != ""))
  {
  }

  // ---------------------------------------------------------------------------
  // A bot that is on has what it needs
  // ---------------------------------------------------------------------------

  predicate OnMeansReady(bot: Bot, rec: Record) {
    rec.config.enabled ==>
      && (bot.needsMastodon ==> rec.config.instance != "" && rec.config.token != "")
      && bot.ready(rec.settings) && Checked(Plan(bot, rec))
  }

  predicate Sound(bot: Bot, w: World) {
    OnMeansReady(bot, w.s.rec) && (w.s.stored.Some? ==> OnMeansReady(bot, w.s.stored.value))
  }

  lemma ChangeKeepsSound(bot: Bot, w: World, e: Event)
    requires Sound(bot, w) && e.ConfigureAt?
    ensures Sound(bot, Step(bot, w, e))
  {
    ConfigureEffect(bot, w.s, e.update, e.clock, e.written);
  }

  lemma StepKeepsSound(bot: Bot, w: World, e: Event)
    requires Sound(bot, w)
    ensures Sound(bot, Step(bot, w, e))
  {
    match e
    case DueAt(clock, written) =>
      if clock.Some? { ScheduledSlotEffect(bot, w.s, LatestAt(Plan(bot, w.s.rec), clock.value), clock.value, written); }
    case FinishAt(started, now, outcome, written) =>
      if w.inFlight.Some? { FinishEffect(bot, w.s, w.inFlight.value, started, now, outcome, written); }
    case ConfigureAt(_, _, _) => ChangeKeepsSound(bot, w, e);
    case RequestOf(_) =>
    case Reboot =>
  }

  /** A bot as it first starts, with nothing stored. */
  function FirstStart(bot: Bot): World {
    World(BotState(Fresh(bot), IDLE, None), None)
  }

  lemma {:induction false} RunKeepsSound(bot: Bot, w: World, es: seq<Event>)
    requires Sound(bot, w)
    ensures Sound(bot, After(bot, w, es))
    decreases |es|
  {
    if es != [] {
      StepKeepsSound(bot, w, es[0]);
      RunKeepsSound(bot, Step(bot, w, es[0]), es[1..]);
    }
  }

  /** Over every history since its first start, a bot that is on is ready, runs a schedule that can be run, and has its server and
      key if it posts; a scheduled run is only started then. */
  lemma OnIsReady(bot: Bot, es: seq<Event>)
    ensures var w := After(bot, FirstStart(bot), es);
            && OnMeansReady(bot, w.s.rec)
            && forall clock, written :: var job := Due(bot, w.s, clock, written).1;
                 job.Some? && job.value.kind == Scheduled ==> w.s.rec.config.enabled && bot.ready(w.s.rec.settings)
  {
    RunKeepsSound(bot, FirstStart(bot), es);
    var w := After(bot, FirstStart(bot), es);
    forall clock, written
      ensures var job := Due(bot, w.s, clock, written).1;
              job.Some? && job.value.kind == Scheduled ==> w.s.rec.config.enabled
    {
      IssuedInTime(bot, w.s, clock, written);
    }
  }

  // ---------------------------------------------------------------------------
  // Results
  // ---------------------------------------------------------------------------

  /** The end of a check is noted as the last check and nowhere else. That of a run is noted as the last run, counted, as a failure
      too if it failed, and the memory it hands over is the bot's memory, as far as it fits; settings and keys stay. */
  lemma FinishRecords(bot: Bot, s: BotState, job: Job, started: nat, now: nat, outcome: Outcome, written: bool)
    ensures var t := Finish(bot, s, job, started, now, outcome, written).rec;
            var run := RunRecord(job.slot, started, now, job.kind != Scheduled, outcome.ok);
            var memory := if outcome.memory.Some? then outcome.memory.value else s.rec.state;
            && t.config == s.rec.config && t.settings == s.rec.settings
            && if job.kind.Check? || job.kind.ModelCheck? then
                 && t.lastCheck == Some(run) && t.lastRun == s.rec.lastRun && t.last == s.rec.last
                 && t.runs == s.rec.runs && t.failures == s.rec.failures
                 && (bot.size(t.(state := s.rec.state)) <= RECORD_MAX ==> t.state == s.rec.state)
               else
                 && t.lastRun == Some(run) && t.lastCheck == s.rec.lastCheck
                 && t.runs == s.rec.runs + 1 && t.failures == s.rec.failures + (if outcome.ok then 0 else 1)
                 && (bot.size(t.(state := memory)) <= RECORD_MAX ==> t.state == memory)
  {
    var ended := Finished(bot, s, job, started, now, outcome).rec;
    FitForgetsOnlyMemory(bot, ended);
    var t := Finish(bot, s, job, started, now, outcome, written).rec;
    assert t == Fit(bot, ended) && t.(state := ended.state) == ended;
  }

  /** Memory is forgotten only as far as it has to be: with the value forgotten last, the record would not have fitted. */
  lemma {:induction false} FitForgetsNoMore(bot: Bot, rec: Record)
    ensures Fit(bot, rec) == rec
            || exists state: seq<Entry>, at: nat :: at < |state| && Fit(bot, rec).state == state[..at] + state[at + 1..]
                 && bot.size(rec.(state := state)) > RECORD_MAX
    decreases |rec.state|
  {
    if bot.size(rec) > RECORD_MAX && rec.state != [] {
      var at := Largest(rec.state);
      var less := rec.(state := Without(rec.state, at));
      FitForgetsNoMore(bot, less);
      if Fit(bot, less) == less {
        assert rec.(state := rec.state) == rec;
        assert Fit(bot, rec).state == rec.state[..at] + rec.state[at + 1..];
      } else {
        var state: seq<Entry>, i: nat :| i < |state| && Fit(bot, less).state == state[..i] + state[i + 1..]
                                          && bot.size(less.(state := state)) > RECORD_MAX;
        assert less.(state := state) == rec.(state := state);
      }
    }
  }

  /** After a power cut the bot is as it was last saved - keys, settings, results, memory and last slot - with nothing running, asked
      for or waited for; a bot never saved is off, with its own server and no key. */
  lemma SavedSurvives(bot: Bot, w: World)
    ensures var v := Step(bot, w, Reboot);
            && v.inFlight == None && v.s.stored == w.s.stored
            && (if w.s.stored.Some? then v.s.rec == w.s.stored.value
                else v.s.rec == Record(Config(false, bot.defaultInstance, ""), None, None, None, 0, 0, map[], []))
            && v.s.rt == Runtime(false, 0, None, false, false, false)
  {
  }

  /** What a call that is saved leaves is what survives. */
  lemma SavedCallsSurvive(bot: Bot, w: World, e: Event)
    requires (e.FinishAt? && w.inFlight.Some? && e.written) || (e.ConfigureAt? && Configure(bot, w.s, e.update, e.clock, e.written).1)
    ensures Step(bot, Step(bot, w, e), Reboot).s.rec == Step(bot, w, e).s.rec
  {
    if e.FinishAt? {
      FinishEffect(bot, w.s, w.inFlight.value, e.started, e.now, e.outcome, e.written);
    } else {
      ConfigureEffect(bot, w.s, e.update, e.clock, e.written);
    }
  }

  // ---------------------------------------------------------------------------
  // Requests
  // ---------------------------------------------------------------------------

  /** A request is accepted if and only if the bot has its server and key, if it needs them, and a language model to test; then its
      own kind is asked for, and nothing else changes. */
  lemma RequestExactly(bot: Bot, s: BotState, kind: JobKind)
    requires kind != Scheduled
    ensures var (t, ok) := Request(bot, s, kind);
            && (ok <==> (bot.needsMastodon ==> s.rec.config.instance != "" && s.rec.config.token != "")
                        && (kind == ModelCheck ==> bot.usesLlm))
            && t.rec == s.rec && t.stored == s.stored
            && t.rt.(checkRequested := s.rt.checkRequested, modelCheckRequested := s.rt.modelCheckRequested,
                     manualRequested := s.rt.manualRequested) == s.rt
            && forall other :: Asked(t, other) <==> Asked(s, other) || (ok && other == kind)
  {
  }
}
