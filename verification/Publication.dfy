// What the two boards get done (scheduler_bridge.rs and domain/scheduled.rs of mastomini_rs, scheduler.rs of
// mastomini_bots): due timers are called in turn, posts that have a timer are published, timers of finished posts go, and an
// accepted handoff is not offered again.
module Publication {
  import opened Options
  import opened Timers
  import opened Handoffs
  import opened HandoffProtocol

  // ---------------------------------------------------------------------------
  // Due timers are called
  // ---------------------------------------------------------------------------

  /** A board with no callbacks left collects exactly the timers whose time has come, none while it waits. */
  lemma CollectedExactly(w: World, now: nat, t: Timer)
    requires w.toCall == []
    ensures t in Next(w, Collect(now)).toCall <==> w.retryAt <= now && t in w.queue.jobs && t.at <= now
  {
    DueAreTimersInTime(w.queue.jobs, now);
  }

  predicate NoRestart(steps: seq<Step>) {
    forall i :: 0 <= i < |steps| ==> !steps[i].RestartBoard?
  }

  function EndCalls(steps: seq<Step>): nat {
    if steps == [] then 0 else (if steps[0].EndCall? then 1 else 0) + EndCalls(steps[1..])
  }

  /** Whatever happens meanwhile, the callbacks are made in turn. */
  lemma {:induction false} InTurn(w: World, steps: seq<Step>, i: nat, t: Timer)
    requires i < |w.toCall| && w.toCall[i] == t && NoRestart(steps) && EndCalls(steps) == i
    ensures var v := Run(w, steps); v.toCall != [] && v.toCall[0] == t
    decreases |steps|
  {
    if steps != [] {
      var s, next := steps[0], Next(w, steps[0]);
      assert NoRestart(steps[1..]) && !s.RestartBoard?;
      if s.EndCall? {
        assert next.toCall == w.toCall[1..];
        InTurn(next, steps[1..], i - 1, t);
      } else {
        assert next.toCall == w.toCall;
        InTurn(next, steps[1..], i, t);
      }
    }
  }

  lemma {:induction false} DueAtMost(jobs: seq<Timer>, now: nat)
    ensures |DueTimers(jobs, now)| <= |jobs|
  {
    if jobs != [] { DueAtMost(jobs[1..], now); }
  }

  lemma Collects(w: World, now: nat, t: Timer) returns (i: nat)
    requires Inv(w) && w.toCall == [] && w.retryAt <= now && t in w.queue.jobs && t.at <= now
    ensures i < CAPACITY && i < |Next(w, Collect(now)).toCall| && Next(w, Collect(now)).toCall[i] == t
  {
    CollectedExactly(w, now, t);
    DueAtMost(w.queue.jobs, now);
    var called := Next(w, Collect(now)).toCall;
    i :| 0 <= i < |called| && called[i] == t;
  }

  /** Until the callbacks of a tick are over, the one after `i` others is for `t`. */
  ghost predicate ComesUp(w: World, steps: seq<Step>, i: nat, t: Timer) {
    forall k :: 0 <= k <= |steps| && EndCalls(steps[..k]) == i ==>
      Run(w, steps[..k]).toCall != [] && Run(w, steps[..k]).toCall[0] == t
  }

  /** Over whole runs: a timer in the queue is removed by a request or a final answer, or at the first collection of an idle
      board at or after its time and the time waited for it is among the next sixteen callbacks. */
  lemma DueTimerIsCalled(w: World, before: seq<Step>, now: nat, during: seq<Step>, t: Timer) returns (i: nat)
    requires Inv(w) && t in w.queue.jobs && t.at <= now && NoRestart(during)
    requires var idle := Run(w, before); idle.toCall == [] && idle.retryAt <= now
    ensures i < CAPACITY
    ensures (exists k :: 0 <= k < |before| && Removes(Run(w, before[..k]), before[k], t))
            || ComesUp(Next(Run(w, before), Collect(now)), during, i, t)
  {
    var idle := Run(w, before);
    i := 0;
    if t !in idle.queue.jobs { TimersLeaveOnlyFor(w, before, t); } else {
      RunKeepsInv(w, before);
      i := Collects(idle, now, t);
      var collected := Next(idle, Collect(now));
      forall k | 0 <= k <= |during| && EndCalls(during[..k]) == i
        ensures Run(collected, during[..k]).toCall != [] && Run(collected, during[..k]).toCall[0] == t
      {
        assert NoRestart(during[..k]);
        InTurn(collected, during[..k], i, t);
      }
    }
  }

  // ---------------------------------------------------------------------------
  // A post with a timer is published
  // ---------------------------------------------------------------------------

  const PUBLISH := Call(Published, true)

  /** Callbacks that reach mastomini, find its storage free, and are answered. */
  function Rounds(n: nat, now: nat): seq<Step> {
    if n == 0 then [] else [PUBLISH, EndCall(now, true)] + Rounds(n - 1, now)
  }

  ghost predicate IsDone(jobs: seq<Post>, id: nat, revision: nat) {
    exists j :: j in jobs && j.id == id && j.revision == revision && j.done
  }

  lemma RunTwo(w: World, a: Step, b: Step, rest: seq<Step>)
    ensures Run(w, [a, b] + rest) == Run(Next(Next(w, a), b), rest)
  {
    assert ([a, b] + rest)[1..] == [b] + rest && ([b] + rest)[1..] == rest;
  }

  lemma {:induction false} PutHas(jobs: seq<Post>, job: Post)
    ensures forall j :: j in jobs && j.id != job.id ==> j in Put(jobs, job)
    ensures (exists j :: j in jobs && j.id == job.id) ==> job in Put(jobs, job)
  {
    var all := Put(jobs, job);
    forall j | j in jobs ensures if j.id == job.id then job in all else j in all {
      var i :| 0 <= i < |jobs| && jobs[i] == j;
      assert all[i] == if j.id == job.id then job else j;
    }
  }

  /** A callback publishes its own post and leaves the others. */
  lemma CallbackPublishes(jobs: seq<Post>, t: Timer, j: Post)
    requires Ordered(jobs) && j in jobs && Live(j)
    ensures var (jobs', status) := Publish(jobs, t, Published);
            if t.id == j.id && t.revision == j.revision then IsDone(jobs', j.id, j.revision) && status == 200 else j in jobs'
  {
    FindJobFinds(jobs, t.id);
    var job := FindJob(jobs, t.id);
    if job.Some? {
      PutHas(jobs, job.value.(done := true));
      assert t.id == j.id ==> job.value == j;
      assert job.value.(done := true).done;
    }
  }

  /** One round of the callbacks: the head of the list is called and goes. */
  lemma RoundCalls(w: World, now: nat) returns (next: World)
    requires Inv(w) && w.toCall != [] && w.answer.None?
    ensures Inv(next) && next.toCall == w.toCall[1..] && next.answer.None?
    ensures next.home.jobs == Publish(w.home.jobs, w.toCall[0], Published).0
    ensures forall m: nat :: Run(next, Rounds(m, now)) == Run(w, Rounds(m + 1, now))
  {
    var called := Next(w, PUBLISH);
    StepKeepsInv(w, PUBLISH);
    StepKeepsInv(called, EndCall(now, true));
    next := Next(called, EndCall(now, true));
    forall m: nat ensures Run(next, Rounds(m, now)) == Run(w, Rounds(m + 1, now)) {
      RunTwo(w, PUBLISH, EndCall(now, true), Rounds(m, now));
    }
  }

  lemma {:induction false} RoundsPublish(w: World, j: Post, i: nat, now: nat) returns (n: nat)
    requires Inv(w) && w.answer.None? && j in w.home.jobs && Live(j)
    requires i < |w.toCall| && w.toCall[i].id == j.id && w.toCall[i].revision == j.revision
    ensures n <= i + 1 && IsDone(Run(w, Rounds(n, now)).home.jobs, j.id, j.revision)
    decreases i
  {
    var t := w.toCall[0];
    CallbackPublishes(w.home.jobs, t, j);
    var next := RoundCalls(w, now);
    if t.id == j.id && t.revision == j.revision {
      n := 1;
      assert Run(next, Rounds(0, now)) == next;
    } else {
      var m := RoundsPublish(next, j, i - 1, now);
      n := m + 1;
    }
  }

  /** An acknowledged post still to be published, and not doomed, is published by the callbacks of the next tick of an idle
      board at or after its time, whatever else is due. */
  lemma DuePostIsPublished(w: World, j: Post, now: nat) returns (n: nat)
    requires Inv(w) && w.home.bridge.url == w.url && j in w.home.jobs && Live(j)
    requires (j.id, j.revision) in w.home.acknowledged && (j.id, j.revision) !in w.doomed
    requires w.toCall == [] && w.retryAt <= now && j.at <= now
    ensures n <= CAPACITY && IsDone(Run(w, [Collect(now)] + Rounds(n, now)).home.jobs, j.id, j.revision)
  {
    var t, collected := Timer(j.id, j.revision, j.at), Next(w, Collect(now));
    assert Kept(w.home.jobs, w.queue.jobs, j.id, j.revision);
    var i := Collects(w, now, t);
    StepKeepsInv(w, Collect(now));
    n := RoundsPublish(collected, j, i, now);
    RunOne(w, Collect(now), Rounds(n, now));
  }

  // ---------------------------------------------------------------------------
  // Timers of finished posts go
  // ---------------------------------------------------------------------------

  /** A callback that mastomini deals with, answered and noted, removes its timer: published or rejected now, or before, or
      cancelled or moved to another revision meanwhile. */
  lemma AnsweredCallbackDropsTimer(w: World, work: Work, now: nat)
    requires Inv(w) && w.toCall != [] && w.answer.None? && !work.Refused?
    ensures var t, v := w.toCall[0], Next(Next(w, Call(work, true)), EndCall(now, true));
            !Holds(v.queue.jobs, t.id, t.revision) && v.retryAt == w.retryAt
  {
    var called := Next(w, Call(work, true));
    AnswerEffect(called.queue, called.retryAt, w.toCall[0], called.answer, now, true);
  }

  /** One that is not answered, or put off, keeps its timer and waits thirty seconds. */
  lemma UnansweredCallbackKeepsTimer(w: World, work: Work, replied: bool, now: nat, written: bool)
    requires Inv(w) && w.toCall != [] && w.answer.None? && (!replied || (work.Refused? && !Final(Some(work.status))))
    requires Holds(w.queue.jobs, w.toCall[0].id, w.toCall[0].revision)
    ensures var v := Next(Next(w, Call(work, replied)), EndCall(now, written));
            v.queue.jobs == w.queue.jobs && v.retryAt == now + 30000
  {
  }

  // ---------------------------------------------------------------------------
  // An accepted handoff is not offered again
  // ---------------------------------------------------------------------------

  /** What waits for the bots board: posts still to be published, and cancellations, until their revision is acknowledged. */
  lemma PendingExactly(s: Scheduling, j: Post)
    ensures Pending(s, j) <==>
              (Live(j) || (j.cancelled && !j.done)) && (j.id, j.revision) !in s.acknowledged
  {
  }

  /** A handoff that is accepted, and whose answer comes while its revision and configuration stand, is acknowledged: the job waits
      no longer, nothing else changes in what waits, and the queue has its timer, or none if it was cancelled. */
  lemma AcceptedHandoffIsAcknowledged(w: World, known: bool, secure: bool, j: Post)
    requires Inv(w) && w.transfer.None? && w.home.bridge.url == w.url && j in w.home.jobs
    requires Offer(w.home).1 == Some(Handoff(w.home.bridge, j.id, j.revision, j.at, j.cancelled))
    requires Receive(w.queue, RequestFor(Offer(w.home).1.value, known, secure, w.origin), true).1 == 200
    ensures var h := Offer(w.home).1.value;
            var v := Next(Next(Next(w, OfferJob), Arrive(h, known, secure, true, true)), EndTransfer);
            && v.home.acknowledged == w.home.acknowledged + {(j.id, j.revision)} && v.home.lastError == NoError
            && v.home.jobs == w.home.jobs && v.transfer.None?
            && (forall k :: k in v.home.jobs && k != j ==> Pending(v.home, k) == Pending(w.home, k)) && !Pending(v.home, j)
            && (if j.cancelled then forall t :: t in v.queue.jobs ==> t.id != j.id else Timer(j.id, j.revision, j.at) in v.queue.jobs)
  {
    var h := Offer(w.home).1.value;
    FindJobFinds(w.home.jobs, j.id);
    ReceiveEffect(w.queue, RequestFor(h, known, secure, w.origin), true);
  }

  /** One that is refused, or not answered, changes nothing but the error shown: it is offered again. */
  lemma RefusedHandoffWaits(s: Scheduling, h: Handoff, status: Option<nat>)
    requires status.None? || status.value / 100 != 2
    ensures var t := Conclude(s, h, status); t == s.(lastError := t.lastError)
    ensures s.bridge == h.bridge && FindJob(s.jobs, h.id).Some? && FindJob(s.jobs, h.id).value.revision == h.revision
            ==> Conclude(s, h, status).lastError != NoError
  {
  }

  // ---------------------------------------------------------------------------
  // No post is lost
  // ---------------------------------------------------------------------------

  lemma {:induction false} RemainingKeeps(s: Scheduling, jobs: seq<Post>, j: Post)
    ensures j in Remaining(s, jobs) <==> j in jobs && !j.done && !(j.cancelled && (j.id, j.revision) in s.acknowledged)
  {
    if jobs != [] {
      assert jobs == [jobs[0]] + jobs[1..];
      RemainingKeeps(s, jobs[1..], j);
    }
  }

  /** The steps that may change a post: its author's, and a callback for its present revision. */
  predicate Touches(w: World, s: Step, j: Post) {
    match s
    case Move(id, _) => id == j.id
    case Cancel(id) => id == j.id
    case MarkDone(id) => id == j.id
    case Call(work, _) =>
      w.toCall != [] && w.answer.None? && !work.Refused? && w.toCall[0].id == j.id && w.toCall[0].revision == j.revision
    case _ => false
  }

  /** A post that is not done, nor cancelled and handed over, stays as it is through every step that is not about it - lost and late
      requests, restarts, other posts, and tidying up. */
  lemma PostStays(w: World, s: Step, j: Post)
    requires Inv(w) && j in w.home.jobs && !Touches(w, s, j)
    requires !j.done && !(j.cancelled && (j.id, j.revision) in w.home.acknowledged)
    ensures j in Next(w, s).home.jobs
  {
    match s
    case Move(id, at) => OtherStays(w, id, j);
    case Cancel(id) => OtherStays(w, id, j);
    case MarkDone(id) => OtherStays(w, id, j);
    case Retire => RemainingKeeps(w.home, w.home.jobs, j);
    case Call(work, replied) => UncalledStays(w, work, replied, j);
    case _ =>
  }

  lemma UncalledStays(w: World, work: Work, replied: bool, j: Post)
    requires Inv(w) && j in w.home.jobs && !Touches(w, Call(work, replied), j)
    ensures j in Next(w, Call(work, replied)).home.jobs
  {
    if w.toCall != [] && w.answer.None? {
      FindJobFinds(w.home.jobs, w.toCall[0].id);
      OtherStays(w, w.toCall[0].id, j);
      assert Next(w, Call(work, replied)).home.jobs == Publish(w.home.jobs, w.toCall[0], work).0;
    }
  }

  lemma OtherStays(w: World, id: nat, j: Post)
    requires Inv(w) && j in w.home.jobs
    ensures forall other: Post :: other.id == id && j.id != id ==> j in Put(w.home.jobs, other)
    ensures FindJob(w.home.jobs, id).Some? ==> FindJob(w.home.jobs, id).value.id == id
  {
    FindJobFinds(w.home.jobs, id);
    forall other: Post | other.id == id && j.id != id ensures j in Put(w.home.jobs, other) { PutHas(w.home.jobs, other); }
  }

  /** Its author's new time for a post still to be published is a new revision, which waits for the bots board, whatever was
      acknowledged before. */
  lemma MovedPostWaits(w: World, j: Post, at: nat)
    requires Inv(w) && j in w.home.jobs && Live(j)
    ensures var moved, v := j.(at := at, revision := j.revision + 1), Next(w, Move(j.id, at)).home;
            moved in v.jobs && Pending(v, moved)
  {
    FindJobFinds(w.home.jobs, j.id);
    PutHas(w.home.jobs, j.(at := at, revision := j.revision + 1));
  }

  /** So is its cancellation. */
  lemma CancelledPostWaits(w: World, j: Post)
    requires Inv(w) && j in w.home.jobs && Live(j)
    ensures var cancelled, v := j.(cancelled := true, revision := j.revision + 1), Next(w, Cancel(j.id)).home;
            cancelled in v.jobs && Pending(v, cancelled)
  {
    FindJobFinds(w.home.jobs, j.id);
    var cancelled := j.(cancelled := true, failed := false, revision := j.revision + 1);
    PutHas(w.home.jobs, cancelled);
    assert cancelled == j.(cancelled := true, revision := j.revision + 1);
  }
}
