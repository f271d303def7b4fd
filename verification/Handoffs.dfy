// Mastomini's side of the timer handoff (mastomini_rs/src/scheduler_bridge.rs, domain/scheduled.rs):
// one pending job at a time is offered to the bots board, with no I/O under the lock.
module Handoffs {
  import opened Options

  /** Where the bots board is, and the key used with it. No key: no scheduler is configured. */
  datatype Bridge = Bridge(url: string, key: string)

  /** The metadata of a scheduled post. */
  datatype Scheduled = Scheduled(id: nat, revision: nat, at: nat, done: bool, cancelled: bool, failed: bool)

  datatype Handoff = Handoff(bridge: Bridge, id: nat, revision: nat, at: nat, cancelled: bool)

  /** What the answer to a handoff left to show the admin. */
  datatype LastError = NoError | Answered(status: nat) | NoAnswer

  /** `jobs` is in the order of the ids. */
  datatype Scheduling = Scheduling(jobs: seq<Scheduled>, acknowledged: set<(nat, nat)>, lastHandoff: nat,
                                   bridge: Bridge, lastError: LastError)

  predicate Pending(s: Scheduling, j: Scheduled) {
    !j.done && (!j.failed || j.cancelled) && (j.id, j.revision) !in s.acknowledged
  }

  /** The first pending job above an id. */
  function FirstAbove(s: Scheduling, jobs: seq<Scheduled>, above: int): Option<Scheduled> {
    if jobs == [] then None
    else if Pending(s, jobs[0]) && jobs[0].id > above then Some(jobs[0])
    else FirstAbove(s, jobs[1..], above)
  }

  /** The next job to offer: the first pending one after the last offered, else the first of all. */
  function Choose(s: Scheduling): Option<Scheduled> {
    var next := FirstAbove(s, s.jobs, s.lastHandoff);
    if next.Some? then next else FirstAbove(s, s.jobs, -1)
  }

  /** First locked step of a transfer: choose a job and move the cursor. */
  function Offer(s: Scheduling): (Scheduling, Option<Handoff>) {
    if s.bridge.key == "" then (s, None)
    else
      var job := Choose(s);
      if job.None? then (s, None)
      else
        var j := job.value;
        (s.(lastHandoff := j.id), Some(Handoff(s.bridge, j.id, j.revision, j.at, j.cancelled)))
  }

  function FindJob(jobs: seq<Scheduled>, id: nat): Option<Scheduled> {
    if jobs == [] then None else if jobs[0].id == id then Some(jobs[0]) else FindJob(jobs[1..], id)
  }

  predicate Success(status: Option<nat>) {
    status.Some? && 200 <= status.value <= 299
  }

  /** Second locked step: an answer counts only for the same configuration and revision. */
  function Conclude(s: Scheduling, h: Handoff, status: Option<nat>): Scheduling {
    if s.bridge != h.bridge then s
    else
      var job := FindJob(s.jobs, h.id);
      if job.None? || job.value.revision != h.revision then s
      else if Success(status) then s.(acknowledged := s.acknowledged + {(h.id, h.revision)}, lastError := NoError)
      else s.(lastError := if status.Some? then Answered(status.value) else NoAnswer)
  }

  /** The service's scheduling state; `Offer` and `Conclude` are the two locked parts of one transfer. */
  class Outbox {
    var jobs: seq<Scheduled>
    var acknowledged: set<(nat, nat)>
    var lastHandoff: nat
    var bridge: Bridge
    var lastError: LastError

    ghost function State(): Scheduling
      reads this
    {
      Scheduling(jobs, acknowledged, lastHandoff, bridge, lastError)
    }

    method OfferNext() returns (handoff: Option<Handoff>)
      modifies this`lastHandoff
      ensures (State(), handoff) == Offer(old(State()))
    {
      if bridge.key == "" { return None; }
      var job := FindPending(lastHandoff);
      if job.None? { job := FindPending(-1); }
      if job.None? { return None; }
      var j := job.value;
      lastHandoff := j.id;
      return Some(Handoff(bridge, j.id, j.revision, j.at, j.cancelled));
    }

    method FindPending(above: int) returns (job: Option<Scheduled>)
      ensures job == FirstAbove(State(), jobs, above)
    {
      for i := 0 to |jobs|
        invariant FirstAbove(State(), jobs[i..], above) == FirstAbove(State(), jobs, above)
      {
        assert jobs[i..][1..] == jobs[i + 1..];
        var j := jobs[i];
        if !j.done && (!j.failed || j.cancelled) && (j.id, j.revision) !in acknowledged && j.id > above {
          return Some(j);
        }
      }
      return None;
    }

    method TakeAnswer(h: Handoff, status: Option<nat>)
      modifies this`acknowledged, this`lastError
      ensures State() == Conclude(old(State()), h, status)
    {
      if bridge != h.bridge { return; }
      var job := FindJob(jobs, h.id);
      if job.Some? && job.value.revision == h.revision {
        if Success(status) {
          acknowledged := acknowledged + {(h.id, h.revision)};
          lastError := NoError;
        } else {
          lastError := if status.Some? then Answered(status.value) else NoAnswer;
        }
      }
    }
  }

  // ---------------------------------------------------------------------------
  // Which job is offered
  // ---------------------------------------------------------------------------

  ghost predicate Ordered(jobs: seq<Scheduled>) {
    forall i, j :: 0 <= i < j < |jobs| ==> jobs[i].id < jobs[j].id
  }

  ghost function PendingIds(s: Scheduling): set<nat> {
    set j | j in s.jobs && Pending(s, j) :: j.id
  }

  lemma {:induction false} FirstAboveIsLeast(s: Scheduling, jobs: seq<Scheduled>, above: int)
    requires Ordered(jobs)
    ensures var found := FirstAbove(s, jobs, above);
            if found.Some? then
              && found.value in jobs && Pending(s, found.value) && found.value.id > above
              && forall j :: j in jobs && Pending(s, j) && j.id > above ==> found.value.id <= j.id
            else forall j :: j in jobs && Pending(s, j) ==> j.id <= above
  {
    if jobs != [] {
      assert jobs == [jobs[0]] + jobs[1..];
      FirstAboveIsLeast(s, jobs[1..], above);
    }
  }

  /** The next id in the cyclic order after `cursor`: the least one above it, else the least of all. */
  ghost predicate IsNext(ids: set<nat>, cursor: nat, next: nat) {
    && next in ids
    && if next > cursor then forall id :: id in ids && id > cursor ==> next <= id
       else forall id :: id in ids ==> next <= id <= cursor
  }

  /** A transfer offers the pending job that is next in the cyclic order of ids, and none only if none is pending. */
  lemma OfferIsNext(s: Scheduling)
    requires Ordered(s.jobs) && s.bridge.key != ""
    ensures var (t, h) := Offer(s);
            && t == s.(lastHandoff := t.lastHandoff)
            && (h.None? <==> PendingIds(s) == {})
            && (h.Some? ==> h.value.id == t.lastHandoff && IsNext(PendingIds(s), s.lastHandoff, h.value.id))
            && (h.Some? ==> exists j :: j in s.jobs && Pending(s, j)
                                        && h.value == Handoff(s.bridge, j.id, j.revision, j.at, j.cancelled))
  {
    FirstAboveIsLeast(s, s.jobs, s.lastHandoff);
    FirstAboveIsLeast(s, s.jobs, -1);
    var job := Choose(s);
    if job.None? {
      assert forall j :: j in s.jobs && Pending(s, j) ==> j.id <= -1;
    } else {
      assert job.value.id in PendingIds(s);
    }
  }

  // ---------------------------------------------------------------------------
  // No pending job is starved
  // ---------------------------------------------------------------------------

  /** The pending ids from the cursor on, cyclically, up to and including `id`. */
  ghost function Ahead(ids: set<nat>, cursor: nat, id: nat): set<nat> {
    if cursor < id then set x | x in ids && cursor < x <= id
    else set x | x in ids && (cursor < x || x <= id)
  }

  /** Offering another job brings `id` closer, also if other jobs stop being pending meanwhile. */
  lemma OfferComesCloser(ids: set<nat>, cursor: nat, next: nat, later: set<nat>, id: nat)
    requires IsNext(ids, cursor, next) && next != id && id in ids && later <= ids
    ensures Ahead(later, next, id) < Ahead(ids, cursor, id)
  {
    assert next in Ahead(ids, cursor, id) && next !in Ahead(later, next, id);
  }

  /** Successive transfers: the pending set at each, and the cursor it leaves. */
  ghost predicate Transfers(pending: seq<set<nat>>, cursors: seq<nat>) {
    && |cursors| == |pending| + 1
    && (forall i :: 0 <= i < |pending| ==> pending[i] != {} ==> IsNext(pending[i], cursors[i], cursors[i + 1]))
    && (forall i :: 0 <= i < |pending| - 1 ==> pending[i + 1] <= pending[i])
  }

  lemma {:induction false} OfferedInTime(pending: seq<set<nat>>, cursors: seq<nat>, id: nat)
    requires Transfers(pending, cursors)
    requires pending != [] && |Ahead(pending[0], cursors[0], id)| <= |pending|
    requires forall i :: 0 <= i < |pending| ==> id in pending[i]
    ensures exists i :: 1 <= i <= |pending| && cursors[i] == id
    decreases |pending|
  {
    assert id in Ahead(pending[0], cursors[0], id);
    assert IsNext(pending[0], cursors[0], cursors[0 + 1]);
    if cursors[1] != id {
      var later := if |pending| == 1 then pending[0] else pending[1];
      assert later <= pending[0];
      OfferComesCloser(pending[0], cursors[0], cursors[1], later, id);
      Smaller(Ahead(later, cursors[1], id), Ahead(pending[0], cursors[0], id));
      assert id in Ahead(later, cursors[1], id);
      OfferedInTime(pending[1..], cursors[1..], id);
      var i :| 1 <= i <= |pending[1..]| && cursors[1..][i] == id;
      assert cursors[i + 1] == id;
    }
  }

  lemma Smaller(a: set<nat>, b: set<nat>)
    requires a < b
    ensures |a| < |b|
  {
    assert b == a + (b - a);
  }

  lemma OfferedWithinCount(pending: seq<set<nat>>, cursors: seq<nat>, id: nat)
    requires Transfers(pending, cursors) && pending != [] && |pending| == |pending[0]|
    requires forall i :: 0 <= i < |pending| ==> id in pending[i]
    ensures exists i :: 1 <= i <= |pending| && cursors[i] == id
  {
    var ahead := Ahead(pending[0], cursors[0], id);
    assert ahead <= pending[0];
    if ahead != pending[0] { Smaller(ahead, pending[0]); }
    OfferedInTime(pending, cursors, id);
  }

  /** Successive states at which a transfer starts: between them only the answer and the admin's and members' work,
      which leave the cursor alone; here, none of it makes another job pending. */
  ghost predicate Shrinking(states: seq<Scheduling>) {
    && (forall i :: 0 <= i < |states| ==> Ordered(states[i].jobs) && states[i].bridge.key != "")
    && (forall i, j :: 0 <= i && j == i + 1 && j < |states| ==>
          && states[j].lastHandoff == Offer(states[i]).0.lastHandoff
          && PendingIds(states[j]) <= PendingIds(states[i]))
  }

  /** If the pending set only shrinks, every job that stays pending is offered within as many transfers as jobs
      were pending at first, whatever the answers. */
  lemma HandoffIsFair(states: seq<Scheduling>, id: nat)
    requires Shrinking(states) && states != [] && |states| == |PendingIds(states[0])|
    requires forall i :: 0 <= i < |states| ==> id in PendingIds(states[i])
    ensures exists i :: 0 <= i < |states| && Offer(states[i]).1.Some? && Offer(states[i]).1.value.id == id
  {
    var n := |states|;
    var pending := seq(n, i requires 0 <= i < n => PendingIds(states[i]));
    var last := Offer(states[n - 1]).0.lastHandoff;
    var cursors := seq(n + 1, i requires 0 <= i <= n => if i < n then states[i].lastHandoff else last);
    forall i | 0 <= i < n
      ensures IsNext(pending[i], cursors[i], cursors[i + 1])
      ensures Offer(states[i]).1.Some? && Offer(states[i]).1.value.id == cursors[i + 1]
    {
      OfferIsNext(states[i]);
      if i + 1 < n { assert states[i + 1].lastHandoff == Offer(states[i]).0.lastHandoff; }
    }
    OfferedWithinCount(pending, cursors, id);
    var i :| 1 <= i <= n && cursors[i] == id;
    assert Offer(states[i - 1]).1.value.id == cursors[i - 1 + 1];
  }
}
