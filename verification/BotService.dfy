// The device's state (mastomini_bots/src/service.rs): every call is proved to take the steps of `BotRuns`
// on the bots it concerns, and to leave the others alone.
module BotService {
  import opened Options
  import opened Schedules
  import BotRuns

  type Bot = BotRuns.Bot
  type Record = BotRuns.Record
  type Runtime = BotRuns.Runtime
  type BotState = BotRuns.BotState

  datatype IndexedJob = IndexedJob(index: nat, job: BotRuns.Job)

  function StoreKey(id: string): string {
    "b." + id
  }

  predicate DistinctIds(bots: seq<Bot>) {
    forall i, j :: 0 <= i < j < |bots| ==> bots[i].id != bots[j].id
  }

  function StoredIn(store: map<string, Record>, bot: Bot): Option<Record> {
    if StoreKey(bot.id) in store then Some(store[StoreKey(bot.id)]) else None
  }

  type Look = (BotState, Option<BotRuns.Job>)

  /** What each bot does when it is looked at. */
  function Looks(bots: seq<Bot>, states: seq<BotState>, clock: Option<nat>, written: seq<bool>): (r: seq<Look>)
    requires |bots| == |states| == |written|
    ensures |r| == |bots|
  {
    if bots == [] then []
    else [BotRuns.Due(bots[0], states[0], clock, written[0])] + Looks(bots[1..], states[1..], clock, written[1..])
  }

  /** The jobs issued by the first `n` bots, in their order. */
  function IssuedJobs(looks: seq<Look>, n: nat): seq<IndexedJob>
    requires n <= |looks|
  {
    if n == 0 then []
    else IssuedJobs(looks, n - 1) + if looks[n - 1].1.Some? then [IndexedJob(n - 1, looks[n - 1].1.value)] else []
  }

  lemma {:induction false} LookOf(bots: seq<Bot>, states: seq<BotState>, clock: Option<nat>, written: seq<bool>, i: nat)
    requires |bots| == |states| == |written| && i < |bots|
    ensures Looks(bots, states, clock, written)[i] == BotRuns.Due(bots[i], states[i], clock, written[i])
  {
    if i > 0 { LookOf(bots[1..], states[1..], clock, written[1..], i - 1); }
  }

  lemma SameLook(bots: seq<Bot>, states: seq<BotState>, others: seq<BotState>, clock: Option<nat>, written: seq<bool>, i: nat)
    requires |bots| == |states| == |others| == |written| && i < |bots| && states[i] == others[i]
    ensures Looks(bots, states, clock, written)[i] == Looks(bots, others, clock, written)[i]
  {
    LookOf(bots, states, clock, written, i);
    LookOf(bots, others, clock, written, i);
  }

  /** Jobs of the first bots, at most one each and in their order, exactly for those whose step issues one. */
  ghost predicate OncePerBot(looks: seq<Look>, n: nat, jobs: seq<IndexedJob>)
    requires n <= |looks|
  {
    && (forall a, b :: 0 <= a < b < |jobs| ==> jobs[a].index < jobs[b].index)
    && (forall a :: 0 <= a < |jobs| ==> jobs[a].index < n && looks[jobs[a].index].1 == Some(jobs[a].job))
    && (forall i :: 0 <= i < n && looks[i].1.Some? ==> IndexedJob(i, looks[i].1.value) in jobs)
  }

  lemma OneMoreBot(looks: seq<Look>, n: nat, jobs: seq<IndexedJob>)
    requires n < |looks| && OncePerBot(looks, n, jobs)
    ensures looks[n].1.None? ==> OncePerBot(looks, n + 1, jobs)
    ensures looks[n].1.Some? ==> OncePerBot(looks, n + 1, jobs + [IndexedJob(n, looks[n].1.value)])
  {
    if looks[n].1.Some? {
      var more := jobs + [IndexedJob(n, looks[n].1.value)];
      assert more[|jobs|] == IndexedJob(n, looks[n].1.value);
      forall i | 0 <= i < n + 1 && looks[i].1.Some? ensures IndexedJob(i, looks[i].1.value) in more {
        if i < n { assert IndexedJob(i, looks[i].1.value) in jobs; }
      }
    }
  }

  lemma {:induction false} IssuedOnce(looks: seq<Look>, n: nat)
    requires n <= |looks|
    ensures OncePerBot(looks, n, IssuedJobs(looks, n))
  {
    if n > 0 {
      IssuedOnce(looks, n - 1);
      OneMoreBot(looks, n - 1, IssuedJobs(looks, n - 1));
      assert IssuedJobs(looks, n - 1) + [] == IssuedJobs(looks, n - 1);
    }
  }

  class Service {
    const bots: seq<Bot>
    var records: seq<Record>
    var runtime: seq<Runtime>
    /** The key-value store: what a power cut leaves. */
    var store: map<string, Record>

    ghost predicate Valid()
      reads this
    {
      |records| == |bots| && |runtime| == |bots| && DistinctIds(bots)
    }

    ghost function StateOf(i: nat): BotState
      reads this
      requires Valid() && i < |bots|
    {
      BotRuns.BotState(records[i], runtime[i], StoredIn(store, bots[i]))
    }

    ghost function States(): seq<BotState>
      reads this
      requires Valid()
    {
      seq(|bots|, i requires 0 <= i < |bots| reads this requires Valid() => StateOf(i))
    }

    /** Starting up: each record is the stored one, or a fresh one with the bot's own default server. */
    constructor Open(bots: seq<Bot>, store: map<string, Record>)
      requires DistinctIds(bots)
      ensures Valid() && this.bots == bots && this.store == store
      ensures forall i, before :: 0 <= i < |bots| && before == BotRuns.BotState(records[i], runtime[i], StoredIn(store, bots[i]))
                ==> before == BotRuns.Restart(bots[i], before)
    {
      this.bots := bots;
      this.store := store;
      var loaded: seq<Record> := [];
      for i := 0 to |bots|
        invariant |loaded| == i
        invariant forall j :: 0 <= j < i ==>
                    loaded[j] == if StoreKey(bots[j].id) in store then store[StoreKey(bots[j].id)] else BotRuns.Fresh(bots[j])
      {
        loaded := loaded + [if StoreKey(bots[i].id) in store then store[StoreKey(bots[i].id)] else BotRuns.Fresh(bots[i])];
      }
      records := loaded;
      runtime := seq(|bots|, _ => BotRuns.IDLE);
    }

    /** Saves one record; while it is too long, its largest memory value is forgotten. */
    method Save(i: nat, written: bool)
      requires Valid() && i < |bots|
      modifies this`records, this`store
      ensures Valid() && StateOf(i) == BotRuns.Save(bots[i], old(StateOf(i)), written)
      ensures forall j :: 0 <= j < |bots| && j != i ==> StateOf(j) == old(StateOf(j))
    {
      while bots[i].size(records[i]) > BotRuns.RECORD_MAX && records[i].state != []
        invariant Valid() && store == old(store)
        invariant BotRuns.Fit(bots[i], records[i]) == BotRuns.Fit(bots[i], old(records[i]))
        invariant forall j :: 0 <= j < |bots| && j != i ==> records[j] == old(records[j])
        decreases |records[i].state|
      {
        var largest := BotRuns.Largest(records[i].state);
        records := records[i := records[i].(state := BotRuns.Without(records[i].state, largest))];
      }
      if written {
        store := store[StoreKey(bots[i].id) := records[i]];
        KeysDiffer(i);
      }
    }

    lemma KeysDiffer(i: nat)
      requires Valid() && i < |bots|
      ensures forall j :: 0 <= j < |bots| && j != i ==> StoreKey(bots[j].id) != StoreKey(bots[i].id)
    {
      forall j | 0 <= j < |bots| && j != i ensures StoreKey(bots[j].id) != StoreKey(bots[i].id) {
        assert bots[j].id != bots[i].id;
        assert StoreKey(bots[j].id)[2..] == bots[j].id && StoreKey(bots[i].id)[2..] == bots[i].id;
      }
    }

    /** The slot to run now, if any; a slot missed beyond the grace is recorded. */
    method Scheduled(i: nat, now: nat, written: bool) returns (slot: Option<nat>)
      requires Valid() && i < |bots|
      modifies this
      ensures Valid()
      ensures (StateOf(i), slot)
           == BotRuns.ScheduledSlot(bots[i], old(StateOf(i)), LatestAt(BotRuns.Plan(bots[i], old(records[i])), now), now, written)
      ensures forall j :: 0 <= j < |bots| && j != i ==> StateOf(j) == old(StateOf(j))
    {
      var latest := ComputeLatestAt(BotRuns.Plan(bots[i], records[i]), now);
      if latest.None? { return None; }
      var due := latest.value;
      if records[i].last.None? {
        // Turned on before the clock was set: start from here.
        records := records[i := records[i].(last := Some(due))];
        Save(i, written);
        return None;
      }
      if due <= records[i].last.value { return None; }
      if now - due > BotRuns.Grace(bots[i]) {
        SettleSlot(i, due);
        Save(i, written);
        return None;
      }
      if runtime[i].retryAt.Some? && runtime[i].retryAt.value > now { return None; }
      return Some(due);
    }

    method SettleSlot(i: nat, slot: nat)
      requires Valid() && i < |bots|
      modifies this`records, this`runtime
      ensures Valid() && StateOf(i) == BotRuns.Settle(old(StateOf(i)), slot)
      ensures forall j :: 0 <= j < |bots| && j != i ==> StateOf(j) == old(StateOf(j))
    {
      records := records[i := records[i].(last := Some(slot))];
      runtime := runtime[i := runtime[i].(retryAt := None, attempt := 0)];
    }

    /** The job of one bot to start now, if any; the bot is then marked running. */
    method DueOne(i: nat, clock: Option<nat>, written: bool) returns (job: Option<BotRuns.Job>)
      requires Valid() && i < |bots|
      modifies this
      ensures Valid() && (StateOf(i), job) == BotRuns.Due(bots[i], old(StateOf(i)), clock, written)
      ensures forall j :: 0 <= j < |bots| && j != i ==> StateOf(j) == old(StateOf(j))
    {
      if runtime[i].running || !BotRuns.Configured(bots[i], records[i]) || clock.None? { return None; }
      var now := clock.value;
      if runtime[i].checkRequested {
        runtime := runtime[i := runtime[i].(checkRequested := false)];
        job := Some(BotRuns.Job(BotRuns.Check, now));
      } else if runtime[i].modelCheckRequested {
        runtime := runtime[i := runtime[i].(modelCheckRequested := false)];
        job := Some(BotRuns.Job(BotRuns.ModelCheck, now));
      } else if runtime[i].manualRequested {
        runtime := runtime[i := runtime[i].(manualRequested := false)];
        job := Some(BotRuns.Job(BotRuns.ByHand, now));
      } else if records[i].config.enabled {
        var slot := Scheduled(i, now, written);
        if slot.None? { return None; }
        job := Some(BotRuns.Job(BotRuns.Scheduled, slot.value));
      } else {
        return None;
      }
      runtime := runtime[i := runtime[i].(running := true)];
    }

    method LookAt(i: nat, clock: Option<nat>, written: seq<bool>) returns (job: Option<BotRuns.Job>)
      requires Valid() && |written| == |bots| && i < |bots|
      modifies this
      ensures Valid() && (StateOf(i), job) == Looks(bots, old(States()), clock, written)[i]
      ensures forall j :: 0 <= j < |bots| && j != i ==> StateOf(j) == old(StateOf(j))
    {
      LookOf(bots, States(), clock, written, i);
      job := DueOne(i, clock, written[i]);
    }

    /** Jobs to start now, bot by bot; each started bot is marked running until its job is finished. */
    method Due(clock: Option<nat>, written: seq<bool>) returns (jobs: seq<IndexedJob>)
      requires Valid() && |written| == |bots|
      modifies this
      ensures Valid() && jobs == IssuedJobs(Looks(bots, old(States()), clock, written), |bots|)
      ensures forall i :: 0 <= i < |bots| ==> StateOf(i) == Looks(bots, old(States()), clock, written)[i].0
    {
      jobs := [];
      ghost var before := States();
      ghost var looks := Looks(bots, before, clock, written);
      for i := 0 to |bots|
        invariant Valid()
        invariant jobs == IssuedJobs(looks, i)
        invariant forall j :: 0 <= j < i ==> StateOf(j) == looks[j].0
        invariant forall j :: i <= j < |bots| ==> StateOf(j) == before[j]
      {
        SameLook(bots, before, States(), clock, written, i);
        var job := LookAt(i, clock, written);
        if job.Some? { jobs := jobs + [IndexedJob(i, job.value)]; }
      }
    }

    /** Reports one job: settles its slot, or sets the next try. */
    method Finish(done: IndexedJob, started: nat, now: nat, outcome: BotRuns.Outcome, written: bool)
      requires Valid() && done.index < |bots|
      modifies this
      ensures Valid()
      ensures StateOf(done.index)
           == BotRuns.Finish(bots[done.index], old(StateOf(done.index)), done.job, started, now, outcome, written)
      ensures forall j :: 0 <= j < |bots| && j != done.index ==> StateOf(j) == old(StateOf(j))
    {
      var i, job := done.index, done.job;
      runtime := runtime[i := runtime[i].(running := false)];
      var run := BotRuns.RunRecord(job.slot, started, now, job.kind != BotRuns.Scheduled, outcome.ok);
      if job.kind == BotRuns.Check || job.kind == BotRuns.ModelCheck {
        records := records[i := records[i].(lastCheck := Some(run))];
        Save(i, written);
        return;
      }
      if outcome.memory.Some? {
        records := records[i := records[i].(state := outcome.memory.value)];
      }
      records := records[i := records[i].(runs := records[i].runs + 1,
                                          failures := records[i].failures + (if outcome.ok then 0 else 1),
                                          lastRun := Some(run))];
      if job.kind == BotRuns.Scheduled {
        if outcome.ok {
          SettleSlot(i, job.slot);
        } else {
          var wait := BotRuns.RetryWait(runtime[i].attempt);
          if outcome.retryable && now + wait <= job.slot + BotRuns.Grace(bots[i]) {
            runtime := runtime[i := runtime[i].(attempt := runtime[i].attempt + 1, retryAt := Some(now + wait))];
          } else {
            SettleSlot(i, job.slot);
          }
        }
      }
      Save(i, written);
    }

    method LatestSlot(plan: Schedule, clock: Option<nat>) returns (slot: Option<nat>)
      ensures slot == BotRuns.LatestOn(plan, clock)
    {
      if clock.None? { return None; }
      slot := ComputeLatestAt(plan, clock.value);
    }

    /** The admin's change to one bot: all of it, saved, or nothing but a reset of the retry state. */
    method Configure(i: nat, u: BotRuns.Update, clock: Option<nat>, written: bool) returns (ok: bool)
      requires Valid() && i < |bots|
      modifies this
      ensures Valid() && (StateOf(i), ok) == BotRuns.Configure(bots[i], old(StateOf(i)), u, clock, written)
      ensures forall j :: 0 <= j < |bots| && j != i ==> StateOf(j) == old(StateOf(j))
    {
      if !BotRuns.UpdateAllowed(bots[i], records[i], u) { return false; }
      var settings := BotRuns.NewSettings(records[i], u);
      var record := records[i].(config := BotRuns.NewConfig(records[i], u), settings := settings);
      if BotRuns.Rearms(bots[i], records[i], u) {
        var latest := LatestSlot((bots[i].plan)(settings), clock);
        record := record.(last := latest);
        runtime := runtime[i := runtime[i].(retryAt := None, attempt := 0)];
      }
      var previous := records[i];
      records := records[i := record];
      assert forall j :: 0 <= j < |bots| && j != i ==> StateOf(j) == old(StateOf(j));
      label saving:
      Save(i, written);
      assert forall j :: 0 <= j < |bots| && j != i ==> StateOf(j) == old@saving(StateOf(j));
      if !written { records := records[i := previous]; }
      return written;
    }

    /** The admin asks for a run or a check; it starts when the bot is next looked at. */
    method Request(i: nat, kind: BotRuns.JobKind) returns (ok: bool)
      requires Valid() && i < |bots|
      modifies this`runtime
      ensures Valid() && (StateOf(i), ok) == BotRuns.Request(bots[i], old(StateOf(i)), kind)
      ensures forall j :: 0 <= j < |bots| && j != i ==> StateOf(j) == old(StateOf(j))
    {
      if !BotRuns.Configured(bots[i], records[i]) { return false; }
      if kind == BotRuns.ModelCheck && !bots[i].usesLlm { return false; }
      match kind {
        case ModelCheck => runtime := runtime[i := runtime[i].(modelCheckRequested := true)];
        case Check => runtime := runtime[i := runtime[i].(checkRequested := true)];
        case _ => runtime := runtime[i := runtime[i].(manualRequested := true)];
      }
      return true;
    }
  }
}
