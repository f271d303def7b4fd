// One bot's share of the device state and what each call does to it (mastomini_bots/src/service.rs).
// Times are milliseconds. The class `BotService.Service` is proved to take these steps.
module BotRuns {
  import opened Options
  import opened Schedules

  const RETRY_MINUTES: seq<nat> := [1, 5, 15, 30]
  const RECORD_MAX: nat := 4000

  datatype Result<T> = Ok(value: T) | Err

  datatype Config = Config(enabled: bool, instance: string, token: string)

  datatype RunRecord = RunRecord(slot: nat, started: nat, finished: nat, manual: bool, ok: bool)

  datatype Entry = Entry(key: string, value: string)

  /** What is stored for a bot. `state` is its memory between runs, in key order. */
  datatype Record = Record(
    config: Config, last: Option<nat>, lastRun: Option<RunRecord>, lastCheck: Option<RunRecord>,
    runs: nat, failures: nat, settings: map<string, string>, state: seq<Entry>)

  /** What is only in memory. */
  datatype Runtime = Runtime(running: bool, attempt: nat, retryAt: Option<nat>,
                             manualRequested: bool, checkRequested: bool, modelCheckRequested: bool)

  const IDLE := Runtime(false, 0, None, false, false, false)

  datatype JobKind = Scheduled | ByHand | Check | ModelCheck

  datatype Job = Job(kind: JobKind, slot: nat)

  /** A bot as compiled in: its schedule and readiness are functions of its settings, and `size` is
      the length of its record as text. */
  datatype Bot = Bot(id: string, graceMinutes: nat, needsMastodon: bool, usesLlm: bool, defaultInstance: string,
                     plan: map<string, string> -> Schedule, ready: map<string, string> -> bool, size: Record -> nat)

  function Grace(bot: Bot): nat {
    bot.graceMinutes * MINUTE_MS
  }

  function Plan(bot: Bot, rec: Record): Schedule {
    (bot.plan)(rec.settings)
  }

  function Fresh(bot: Bot): Record {
    Record(Config(false, bot.defaultInstance, ""), None, None, None, 0, 0, map[], [])
  }

  /** One bot in the running service, and its durable record. */
  datatype BotState = BotState(rec: Record, rt: Runtime, stored: Option<Record>)

  predicate Configured(bot: Bot, rec: Record) {
    !bot.needsMastodon || (rec.config.instance != "" && rec.config.token != "")
  }

  // ---------------------------------------------------------------------------
  // Saving
  // ---------------------------------------------------------------------------

  /** The last of the largest memory values. */
  function Largest(state: seq<Entry>): nat
    requires state != []
    ensures Largest(state) < |state|
    ensures forall i :: 0 <= i < |state| ==> |state[i].value| <= |state[Largest(state)].value|
    ensures forall i :: Largest(state) < i < |state| ==> |state[i].value| < |state[Largest(state)].value|
  {
    if |state| == 1 then 0
    else
      var front := state[..|state| - 1];
      var largest := Largest(front);
      assert forall i :: 0 <= i < |front| ==> state[i] == front[i];
      if |state[|state| - 1].value| >= |front[largest].value| then |state| - 1 else largest
  }

  function Without(state: seq<Entry>, i: nat): seq<Entry>
    requires i < |state|
  {
    state[..i] + state[i + 1..]
  }

  /** The record as saved: the largest memory values are forgotten until it fits. */
  function Fit(bot: Bot, rec: Record): Record
    decreases |rec.state|
  {
    if bot.size(rec) > RECORD_MAX && rec.state != []
    then Fit(bot, rec.(state := Without(rec.state, Largest(rec.state))))
    else rec
  }

  function Save(bot: Bot, s: BotState, written: bool): BotState {
    var rec := Fit(bot, s.rec);
    s.(rec := rec, stored := if written then Some(rec) else s.stored)
  }

  // ---------------------------------------------------------------------------
  // Starting and finishing jobs
  // ---------------------------------------------------------------------------

  /** The slot to run now, given the schedule's latest, if any; records slots missed beyond the grace. */
  function ScheduledSlot(bot: Bot, s: BotState, latest: Option<nat>, now: nat, written: bool): (BotState, Option<nat>) {
    if latest.None? then (s, None)
    else
      var slot := latest.value;
      if s.rec.last.None? then (Save(bot, s.(rec := s.rec.(last := Some(slot))), written), None)
      else if slot <= s.rec.last.value then (s, None)
      else if now - slot > Grace(bot) then (Save(bot, Settle(s, slot), written), None)
      else if s.rt.retryAt.Some? && s.rt.retryAt.value > now then (s, None)
      else (s, Some(slot))
  }

  /** The slot is handled: no retry is pending any more. */
  function Settle(s: BotState, slot: nat): BotState {
    s.(rec := s.rec.(last := Some(slot)), rt := s.rt.(retryAt := None, attempt := 0))
  }

  function Start(s: BotState, job: Job): (BotState, Option<Job>) {
    (s.(rt := s.rt.(running := true)), Some(job))
  }

  /** The job to start now, if any; the bot is then marked running. */
  function Due(bot: Bot, s: BotState, clock: Option<nat>, written: bool): (BotState, Option<Job>) {
    if s.rt.running || !Configured(bot, s.rec) || clock.None? then (s, None)
    else
      var now := clock.value;
      if s.rt.checkRequested then Start(s.(rt := s.rt.(checkRequested := false)), Job(Check, now))
      else if s.rt.modelCheckRequested then Start(s.(rt := s.rt.(modelCheckRequested := false)), Job(ModelCheck, now))
      else if s.rt.manualRequested then Start(s.(rt := s.rt.(manualRequested := false)), Job(ByHand, now))
      else if s.rec.config.enabled then
        var (s', slot) := ScheduledSlot(bot, s, LatestAt(Plan(bot, s.rec), now), now, written);
        if slot.Some? then Start(s', Job(Scheduled, slot.value)) else (s', None)
      else (s, None)
  }

  datatype Outcome = Outcome(ok: bool, retryable: bool, memory: Option<seq<Entry>>)

  function RetryWait(attempt: nat): nat {
    RETRY_MINUTES[if attempt < |RETRY_MINUTES| then attempt else |RETRY_MINUTES| - 1] * MINUTE_MS
  }

  /** A scheduled run that failed in a way that might pass, with its next try still within the grace. */
  predicate WillRetry(bot: Bot, s: BotState, job: Job, now: nat, outcome: Outcome) {
    job.kind == Scheduled && !outcome.ok && outcome.retryable
    && now + RetryWait(s.rt.attempt) <= job.slot + Grace(bot)
  }

  function Finished(bot: Bot, s: BotState, job: Job, started: nat, now: nat, outcome: Outcome): BotState {
    var rt := s.rt.(running := false);
    var run := RunRecord(job.slot, started, now, job.kind != Scheduled, outcome.ok);
    if job.kind == Check || job.kind == ModelCheck then s.(rec := s.rec.(lastCheck := Some(run)), rt := rt)
    else
      var rec := s.rec.(state := if outcome.memory.Some? then outcome.memory.value else s.rec.state,
                        runs := s.rec.runs + 1, failures := s.rec.failures + (if outcome.ok then 0 else 1),
                        lastRun := Some(run));
      var ran := s.(rec := rec, rt := rt);
      if job.kind != Scheduled then ran
      else if WillRetry(bot, s, job, now, outcome)
      then ran.(rt := rt.(attempt := s.rt.attempt + 1, retryAt := Some(now + RetryWait(s.rt.attempt))))
      else Settle(ran, job.slot)
  }

  function Finish(bot: Bot, s: BotState, job: Job, started: nat, now: nat, outcome: Outcome, written: bool): BotState {
    Save(bot, Finished(bot, s, job, started, now, outcome), written)
  }

  // ---------------------------------------------------------------------------
  // The admin's changes
  // ---------------------------------------------------------------------------

  /** What the admin changes; each value is given as its own check left it. */
  datatype Update = Update(enabled: Option<bool>, instance: Option<Result<string>>, token: Option<Result<string>>,
                           settings: Option<Result<map<string, string>>>)

  function Changed<T>(change: Option<Result<T>>, current: T): T {
    if change.Some? && change.value.Ok? then change.value.value else current
  }

  predicate Refused<T>(change: Option<Result<T>>) {
    change.Some? && change.value.Err?
  }

  function NewConfig(rec: Record, u: Update): Config {
    Config(if u.enabled.Some? then u.enabled.value else rec.config.enabled,
           Changed(u.instance, rec.config.instance), Changed(u.token, rec.config.token))
  }

  function NewSettings(rec: Record, u: Update): map<string, string> {
    Changed(u.settings, rec.settings)
  }

  predicate UpdateAllowed(bot: Bot, rec: Record, u: Update) {
    var config := NewConfig(rec, u);
    var settings := NewSettings(rec, u);
    && !Refused(u.instance) && !Refused(u.token) && !Refused(u.settings)
    && !(config.enabled && (config.instance == "" || config.token == "") && (bot.needsMastodon || config.token != ""))
    && (config.enabled ==> bot.ready(settings))
    && Checked((bot.plan)(settings))
  }

  /** The change turns the bot on, or moves the schedule of a bot that is on. */
  predicate Rearms(bot: Bot, rec: Record, u: Update) {
    var config := NewConfig(rec, u);
    || (u.enabled == Some(true) && !rec.config.enabled)
    || (config.enabled && (bot.plan)(NewSettings(rec, u)) != Plan(bot, rec))
  }

  function LatestOn(s: Schedule, clock: Option<nat>): Option<nat> {
    if clock.Some? then LatestAt(s, clock.value) else None
  }

  /** Applies a change, or leaves the record alone; the retry state is reset even if saving then fails. */
  function Configure(bot: Bot, s: BotState, u: Update, clock: Option<nat>, written: bool): (BotState, bool) {
    if !UpdateAllowed(bot, s.rec, u) then (s, false)
    else
      var settings := NewSettings(s.rec, u);
      var rearms := Rearms(bot, s.rec, u);
      var rec := s.rec.(config := NewConfig(s.rec, u), settings := settings,
                        last := if rearms then LatestOn((bot.plan)(settings), clock) else s.rec.last);
      var rt := if rearms then s.rt.(retryAt := None, attempt := 0) else s.rt;
      if written then (Save(bot, s.(rec := rec, rt := rt), true), true) else (s.(rt := rt), false)
  }

  function Request(bot: Bot, s: BotState, kind: JobKind): (BotState, bool) {
    if !Configured(bot, s.rec) || (kind == ModelCheck && !bot.usesLlm) then (s, false)
    else
      (s.(rt := match kind
                case ModelCheck => s.rt.(modelCheckRequested := true)
                case Check => s.rt.(checkRequested := true)
                case _ => s.rt.(manualRequested := true)), true)
  }

  /** Power lost and restored: only the stored record survives. */
  function Restart(bot: Bot, s: BotState): BotState {
    BotState(if s.stored.Some? then s.stored.value else Fresh(bot), IDLE, s.stored)
  }
}
