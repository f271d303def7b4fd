// The bots board's timer queue (mastomini_bots/src/scheduler.rs): a bounded, durable queue that another
// board fills, and callbacks made from it without holding the lock.
module Timers {
  import opened Options

  const CAPACITY: nat := 16
  const RETRY_MS: nat := 30000

  datatype Timer = Timer(id: nat, revision: nat, at: nat)

  /** What is stored: the server it is paired with, the key to call it with, and the timers. */
  datatype Queue = Queue(instance: string, token: string, jobs: seq<Timer>)

  const EMPTY := Queue("", "", [])

  /** A request, as far as its checks need it. An id that is not a positive number is `None`; a missing
      revision or time is 0. `instance` is the server of the bot configured with the request's key. */
  datatype Request = Request(post: bool, token: string, instance: Option<string>, secure: bool, readable: bool,
                             id: Option<nat>, revision: nat, at: nat, cancelled: bool)

  function FindTimer(jobs: seq<Timer>, id: nat): Option<Timer> {
    if jobs == [] then None else if jobs[0].id == id then Some(jobs[0]) else FindTimer(jobs[1..], id)
  }

  function DropId(jobs: seq<Timer>, id: nat): seq<Timer> {
    if jobs == [] then [] else (if jobs[0].id == id then [] else [jobs[0]]) + DropId(jobs[1..], id)
  }

  function DropExact(jobs: seq<Timer>, id: nat, revision: nat): seq<Timer> {
    if jobs == [] then []
    else (if jobs[0].id == id && jobs[0].revision == revision then [] else [jobs[0]]) + DropExact(jobs[1..], id, revision)
  }

  predicate Holds(jobs: seq<Timer>, id: nat, revision: nat) {
    exists i :: 0 <= i < |jobs| && jobs[i].id == id && jobs[i].revision == revision
  }

  /** The queue after a request, and the HTTP status of the answer. */
  function Receive(q: Queue, r: Request, written: bool): (Queue, nat) {
    if !r.post then (q, 405)
    else if r.token == "" || r.instance.None? then (q, 401)
    else if !r.secure then (q, 422)
    else if q.instance != "" && q.instance != r.instance.value then (q, 409)
    else if !r.readable then (q, 400)
    else if r.id.None? || r.revision == 0 || r.at == 0 then (q, 422)
    else
      var id := r.id.value;
      var known := FindTimer(q.jobs, id);
      if known.Some? && known.value.revision > r.revision then (q, 409)
      else if known.Some? && known.value.revision == r.revision && known.value.at != r.at then (q, 409)
      else
        var others := DropId(q.jobs, id);
        if !r.cancelled && |others| >= CAPACITY then (q, 429)
        else
          var jobs := if r.cancelled then others else others + [Timer(id, r.revision, r.at)];
          if written then (Queue(r.instance.value, r.token, jobs), 200) else (q, 503)
  }

  function DueTimers(jobs: seq<Timer>, now: nat): seq<Timer> {
    if jobs == [] then [] else (if jobs[0].at <= now then [jobs[0]] else []) + DueTimers(jobs[1..], now)
  }

  predicate Terminal(status: Option<nat>) {
    status.Some? && (200 <= status.value <= 299 || status.value == 404 || status.value == 410 || status.value == 422)
  }

  /** The queue and the next time to call after the answer to one callback, if any came. */
  function Answer(q: Queue, retryAt: nat, job: Timer, status: Option<nat>, now: nat, written: bool): (Queue, nat) {
    if !Holds(q.jobs, job.id, job.revision) then (q, retryAt)
    else if Terminal(status) then
      (if written then q.(jobs := DropExact(q.jobs, job.id, job.revision)) else q, retryAt)
    else (q, now + RETRY_MS)
  }

  /** Starting up: nothing stored is an empty queue, and more timers than the capacity are refused. */
  function Load(stored: Option<Queue>): Option<Queue> {
    if stored.None? then Some(EMPTY)
    else if |stored.value.jobs| > CAPACITY then None
    else stored
  }

  /** The scheduler as the service holds it: the queue, its stored copy, and the time of the next call. */
  class Board {
    var queue: Queue
    var stored: Queue
    var retryAt: nat

    ghost predicate Valid()
      reads this
    {
      queue == stored && |queue.jobs| <= CAPACITY
    }

    constructor Open(stored: Queue)
      requires Load(Some(stored)) == Some(stored)
      ensures Valid() && queue == stored && retryAt == 0
    {
      queue := stored;
      this.stored := stored;
      retryAt := 0;
    }

    method SaveQueue(next: Queue, written: bool)
      modifies this`queue, this`stored
      ensures if written then queue == next && stored == next else queue == old(queue) && stored == old(stored)
    {
      if written {
        stored := next;
        queue := next;
      }
    }

    method ReceiveRequest(r: Request, written: bool) returns (status: nat)
      requires Valid()
      modifies this`queue, this`stored
      ensures Valid() && (queue, status) == Receive(old(queue), r, written)
    {
      ReceiveFits(queue, r, written);
      if !r.post { return 405; }
      if r.token == "" || r.instance.None? { return 401; }
      if !r.secure { return 422; }
      if queue.instance != "" && queue.instance != r.instance.value { return 409; }
      if !r.readable { return 400; }
      if r.id.None? || r.revision == 0 || r.at == 0 { return 422; }
      var next := queue.(instance := r.instance.value, token := r.token);
      var known := FindTimer(next.jobs, r.id.value);
      if known.Some? {
        if known.value.revision > r.revision { return 409; }
        if known.value.revision == r.revision && known.value.at != r.at { return 409; }
      }
      next := next.(jobs := DropId(next.jobs, r.id.value));
      if !r.cancelled {
        if |next.jobs| >= CAPACITY { return 429; }
        next := next.(jobs := next.jobs + [Timer(r.id.value, r.revision, r.at)]);
      }
      SaveQueue(next, written);
      return if written then 200 else 503;
    }

    /** The callbacks to make now, copied so that they are made without the lock. */
    method Collect(now: nat) returns (due: seq<Timer>)
      ensures due == if now < retryAt then [] else DueTimers(queue.jobs, now)
      ensures forall t :: t in due <==> retryAt <= now && t in queue.jobs && t.at <= now
    {
      if now < retryAt { return []; }
      due := [];
      for i := 0 to |queue.jobs|
        invariant due + DueTimers(queue.jobs[i..], now) == DueTimers(queue.jobs, now)
      {
        assert queue.jobs[i..][1..] == queue.jobs[i + 1..];
        if queue.jobs[i].at <= now { due := due + [queue.jobs[i]]; }
      }
      DueAreTimersInTime(queue.jobs, now);
    }

    /** The answer to one callback; the timer may have been changed or cancelled since it was copied. */
    method TakeAnswer(job: Timer, status: Option<nat>, now: nat, written: bool)
      requires Valid()
      modifies this
      ensures Valid() && (queue, retryAt) == Answer(old(queue), old(retryAt), job, status, now, written)
    {
      AnswerFits(queue, retryAt, job, status, now, written);
      if !Holds(queue.jobs, job.id, job.revision) { return; }
      if Terminal(status) {
        SaveQueue(queue.(jobs := DropExact(queue.jobs, job.id, job.revision)), written);
      } else {
        retryAt := now + RETRY_MS;
      }
    }

    /** A power cut: the stored queue is read again. */
    method Restart()
      requires Valid()
      modifies this
      ensures Valid() && queue == old(queue) && retryAt == 0
    {
      queue := stored;
      retryAt := 0;
    }
  }

  // ---------------------------------------------------------------------------
  // The queue keeps its form
  // ---------------------------------------------------------------------------

  predicate DistinctIds(jobs: seq<Timer>) {
    forall i, j :: 0 <= i < j < |jobs| ==> jobs[i].id != jobs[j].id
  }

  /** At most sixteen timers, with distinct ids. */
  predicate WellFormed(jobs: seq<Timer>) {
    |jobs| <= CAPACITY && DistinctIds(jobs)
  }

  lemma {:induction false} FindTimerFinds(jobs: seq<Timer>, id: nat)
    ensures var t := FindTimer(jobs, id);
            if t.Some? then t.value in jobs && t.value.id == id else forall job :: job in jobs ==> job.id != id
  {
    if jobs != [] {
      FindTimerFinds(jobs[1..], id);
      assert jobs == [jobs[0]] + jobs[1..];
    }
  }

  lemma DistinctRest(jobs: seq<Timer>)
    requires DistinctIds(jobs) && jobs != []
    ensures DistinctIds(jobs[1..]) && forall job :: job in jobs[1..] ==> job.id != jobs[0].id
  {
  }

  lemma DistinctPrepend(job: Timer, rest: seq<Timer>)
    requires DistinctIds(rest) && forall other :: other in rest ==> other.id != job.id
    ensures DistinctIds([job] + rest)
  {
  }

  lemma {:induction false} DropIdMembers(jobs: seq<Timer>, id: nat)
    ensures forall job :: job in DropId(jobs, id) <==> job in jobs && job.id != id
  {
    if jobs != [] {
      assert jobs == [jobs[0]] + jobs[1..];
      DropIdMembers(jobs[1..], id);
    }
  }

  lemma {:induction false} DropIdKeepsOthers(jobs: seq<Timer>, id: nat)
    requires DistinctIds(jobs)
    ensures DistinctIds(DropId(jobs, id)) && |DropId(jobs, id)| <= |jobs|
    ensures forall job :: job in DropId(jobs, id) <==> job in jobs && job.id != id
    ensures (exists job :: job in jobs && job.id == id) ==> |DropId(jobs, id)| == |jobs| - 1
  {
    DropIdMembers(jobs, id);
    if jobs != [] {
      DistinctRest(jobs);
      DropIdKeepsOthers(jobs[1..], id);
      DropAbsent(jobs[1..], id);
      if jobs[0].id != id { DistinctPrepend(jobs[0], DropId(jobs[1..], id)); }
    }
  }

  lemma {:induction false} DropAbsent(jobs: seq<Timer>, id: nat)
    ensures (forall job :: job in jobs ==> job.id != id) ==> DropId(jobs, id) == jobs
  {
    if jobs != [] {
      assert jobs == [jobs[0]] + jobs[1..];
      DropAbsent(jobs[1..], id);
    }
  }

  lemma {:induction false} DropExactMembers(jobs: seq<Timer>, id: nat, revision: nat)
    ensures forall job :: job in DropExact(jobs, id, revision) <==> job in jobs && !(job.id == id && job.revision == revision)
  {
    if jobs != [] {
      assert jobs == [jobs[0]] + jobs[1..];
      DropExactMembers(jobs[1..], id, revision);
    }
  }

  lemma {:induction false} DropExactKeepsOthers(jobs: seq<Timer>, id: nat, revision: nat)
    requires DistinctIds(jobs)
    ensures DistinctIds(DropExact(jobs, id, revision)) && |DropExact(jobs, id, revision)| <= |jobs|
    ensures forall job :: job in DropExact(jobs, id, revision) <==> job in jobs && !(job.id == id && job.revision == revision)
  {
    DropExactMembers(jobs, id, revision);
    if jobs != [] {
      DistinctRest(jobs);
      DropExactKeepsOthers(jobs[1..], id, revision);
      if !(jobs[0].id == id && jobs[0].revision == revision) {
        DropExactMembers(jobs[1..], id, revision);
        DistinctPrepend(jobs[0], DropExact(jobs[1..], id, revision));
      }
    }
  }

  lemma DistinctAppend(jobs: seq<Timer>, job: Timer)
    requires DistinctIds(jobs) && forall other :: other in jobs ==> other.id != job.id
    ensures DistinctIds(jobs + [job])
  {
  }

  lemma {:induction false} DropsShorten(jobs: seq<Timer>, id: nat, revision: nat)
    ensures |DropId(jobs, id)| <= |jobs| && |DropExact(jobs, id, revision)| <= |jobs|
  {
    if jobs != [] { DropsShorten(jobs[1..], id, revision); }
  }

  /** Never more than sixteen timers, whatever their ids. */
  lemma ReceiveFits(q: Queue, r: Request, written: bool)
    requires |q.jobs| <= CAPACITY
    ensures |Receive(q, r, written).0.jobs| <= CAPACITY
  {
    if r.id.Some? { DropsShorten(q.jobs, r.id.value, r.revision); }
  }

  lemma AnswerFits(q: Queue, retryAt: nat, job: Timer, status: Option<nat>, now: nat, written: bool)
    requires |q.jobs| <= CAPACITY
    ensures |Answer(q, retryAt, job, status, now, written).0.jobs| <= CAPACITY
  {
    DropsShorten(q.jobs, job.id, job.revision);
  }

  lemma ReceiveKeepsForm(q: Queue, r: Request, written: bool)
    requires WellFormed(q.jobs)
    ensures WellFormed(Receive(q, r, written).0.jobs)
  {
    if r.id.Some? {
      DropIdKeepsOthers(q.jobs, r.id.value);
      DistinctAppend(DropId(q.jobs, r.id.value), Timer(r.id.value, r.revision, r.at));
    }
  }

  lemma AnswerKeepsForm(q: Queue, retryAt: nat, job: Timer, status: Option<nat>, now: nat, written: bool)
    requires WellFormed(q.jobs)
    ensures WellFormed(Answer(q, retryAt, job, status, now, written).0.jobs)
  {
    DropExactKeepsOthers(q.jobs, job.id, job.revision);
  }

  // ---------------------------------------------------------------------------
  // Which timers are due
  // ---------------------------------------------------------------------------

  /** `due` are the timers of `jobs` at the places `picks`, in order. */
  predicate PickedAt(jobs: seq<Timer>, due: seq<Timer>, picks: seq<nat>) {
    && |due| == |picks|
    && (forall k :: 0 <= k < |picks| ==> picks[k] < |jobs| && due[k] == jobs[picks[k]])
    && (forall j, k :: 0 <= j < k < |picks| ==> picks[j] < picks[k])
  }

  /** The timers collected are those whose time has come, early or late, and no others. */
  lemma {:induction false} DueAreTimersInTime(jobs: seq<Timer>, now: nat)
    ensures forall t :: t in DueTimers(jobs, now) <==> t in jobs && t.at <= now
  {
    if jobs != [] {
      assert jobs == [jobs[0]] + jobs[1..];
      DueAreTimersInTime(jobs[1..], now);
    }
  }

  /** Each of them once, and in queue order. */
  lemma DueInOrder(jobs: seq<Timer>, now: nat) returns (picks: seq<nat>)
    ensures PickedAt(jobs, DueTimers(jobs, now), picks)
    ensures forall i: nat :: i in picks <==> i < |jobs| && jobs[i].at <= now
  {
    picks := DueFrom(jobs, now, 0);
    assert jobs[0..] == jobs;
  }

  lemma {:induction false} DueFrom(jobs: seq<Timer>, now: nat, from: nat) returns (picks: seq<nat>)
    requires from <= |jobs|
    ensures PickedAt(jobs, DueTimers(jobs[from..], now), picks)
    ensures forall i: nat :: i in picks <==> from <= i < |jobs| && jobs[i].at <= now
    decreases |jobs| - from
  {
    if from == |jobs| { picks := []; } else {
      var rest := DueFrom(jobs, now, from + 1);
      assert jobs[from..][1..] == jobs[from + 1..];
      assert forall k :: 0 <= k < |rest| ==> rest[k] in rest;
      if jobs[from].at <= now {
        picks := [from] + rest;
        PickedFirst(jobs, DueTimers(jobs[from + 1..], now), rest, from);
      } else {
        picks := rest;
      }
    }
  }

  lemma PickedFirst(jobs: seq<Timer>, due: seq<Timer>, rest: seq<nat>, from: nat)
    requires from < |jobs| && PickedAt(jobs, due, rest) && forall k :: 0 <= k < |rest| ==> from < rest[k]
    ensures PickedAt(jobs, [jobs[from]] + due, [from] + rest)
  {
  }

  // ---------------------------------------------------------------------------
  // What a request and an answer do to each timer
  // ---------------------------------------------------------------------------

  /** An accepted request leaves exactly its own timer for its id, or none if it cancels; it was no older than the
      timer it replaced. A refused one changes nothing. A full queue refuses only a new id. */
  lemma ReceiveEffect(q: Queue, r: Request, written: bool)
    requires WellFormed(q.jobs)
    ensures var (q', status) := Receive(q, r, written);
            && (status != 200 ==> q' == q)
            && (status == 200 ==>
                  && r.id.Some? && r.instance.Some? && q' == Queue(r.instance.value, r.token, q'.jobs)
                  && (q.instance == "" || q.instance == r.instance.value)
                  && (forall job :: job in q'.jobs <==>
                        (job in q.jobs && job.id != r.id.value)
                        || (!r.cancelled && job == Timer(r.id.value, r.revision, r.at)))
                  && (forall job :: job in q.jobs && job.id == r.id.value ==>
                        job.revision < r.revision || (job.revision == r.revision && job.at == r.at)))
            && (status == 429 ==> |q.jobs| == CAPACITY && !r.cancelled && r.id.Some?
                                  && forall job :: job in q.jobs ==> job.id != r.id.value)
  {
    if r.id.Some? {
      var id := r.id.value;
      FindTimerFinds(q.jobs, id);
      DropIdKeepsOthers(q.jobs, id);
      forall a, b | a in q.jobs && b in q.jobs && a.id == b.id ensures a == b {
        var i :| 0 <= i < |q.jobs| && q.jobs[i] == a;
        var j :| 0 <= j < |q.jobs| && q.jobs[j] == b;
      }
    }
  }

  /** The statuses that end a timer: success, no such job, gone, and refused for good. */
  predicate Final(status: Option<nat>) {
    status.Some? && (status.value in {404, 410, 422} || status.value / 100 == 2)
  }

  /** An answer removes exactly the timer it is for, in that revision, when it is final and that can be saved; after any other
      answer, or none, the next calls are thirty seconds away; an answer for another revision changes nothing. */
  lemma AnswerEffect(q: Queue, retryAt: nat, job: Timer, status: Option<nat>, now: nat, written: bool)
    requires WellFormed(q.jobs)
    ensures var (q', next) := Answer(q, retryAt, job, status, now, written);
            && q' == q.(jobs := q'.jobs)
            && (forall other :: other in q'.jobs <==>
                  other in q.jobs && !(other.id == job.id && other.revision == job.revision && Final(status) && written))
            && next == if Holds(q.jobs, job.id, job.revision) && !Final(status) then now + 30000 else retryAt
  {
    DropExactKeepsOthers(q.jobs, job.id, job.revision);
  }

  /** A request is accepted exactly when it is well formed, from the bot's own server, no older than the timer it replaces,
      finds room, and can be stored. */
  lemma AcceptedExactly(q: Queue, r: Request, written: bool)
    requires WellFormed(q.jobs)
    ensures Receive(q, r, written).1 == 200 <==>
              && r.post && r.token != "" && r.instance.Some? && r.secure && r.readable
              && (q.instance == "" || q.instance == r.instance.value)
              && r.id.Some? && r.revision > 0 && r.at > 0
              && (forall job :: job in q.jobs && job.id == r.id.value ==>
                    job.revision < r.revision || (job.revision == r.revision && job.at == r.at))
              && (r.cancelled || |q.jobs| < CAPACITY || exists job :: job in q.jobs && job.id == r.id.value)
              && written
  {
    if r.id.Some? {
      FindTimerFinds(q.jobs, r.id.value);
      DropIdKeepsOthers(q.jobs, r.id.value);
      DropAbsent(q.jobs, r.id.value);
      OneTimerPerId(q.jobs, r.id.value);
    }
  }

  lemma OneTimerPerId(jobs: seq<Timer>, id: nat)
    requires DistinctIds(jobs)
    ensures forall a, b :: a in jobs && b in jobs && a.id == id && b.id == id ==> a == b
  {
    forall a, b | a in jobs && b in jobs && a.id == id && b.id == id ensures a == b {
      var i :| 0 <= i < |jobs| && jobs[i] == a;
      var j :| 0 <= j < |jobs| && jobs[j] == b;
    }
  }
}
