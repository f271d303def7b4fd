// The two boards together (scheduler_bridge.rs and domain/scheduled.rs of mastomini_rs, scheduler.rs of
// mastomini_bots). Requests and answers may be lost; a request may arrive late, or again; either board may
// restart between any two steps. Each step is what one side does under its lock.
module HandoffProtocol {
  import opened Options
  import opened Timers
  import opened Handoffs

  type Post = Handoffs.Scheduled

  /** A handoff whose answer mastomini is waiting for, and the answer if it came. */
  datatype Transfer = Transfer(handoff: Handoff, status: Option<nat>)

  /** `used` is the greatest job id given out; `url` is where the bots board is, `origin` where mastomini is;
      `toCall` are the callbacks left in the current tick, and `answer` is mastomini's to the first of them. `doomed` is history: the
      revisions that got a final answer although they were left to be published. */
  datatype World = World(
    home: Scheduling, used: nat, transfer: Option<Transfer>, sent: set<Handoff>,
    url: string, origin: string,
    queue: Queue, stored: Queue, retryAt: nat, toCall: seq<Timer>, answer: Option<nat>,
    doomed: set<(nat, nat)>)

  /** What mastomini's publish endpoint makes of a callback. `Refused` leaves the job as it was, with whatever status:
      a key that is not the scheduler's, a post not due yet, or a record that cannot be written. */
  datatype Work = Published | Rejected | Refused(status: nat)

  /** The storage is full: the job's record is not saved, and the error is reported as a validation error. */
  const STORE_FULL := Refused(422)

  datatype Step =
    // A member's or the admin's work on mastomini.
    | Create(at: nat)
    | Move(id: nat, at: nat)
    | Cancel(id: nat)
    | MarkDone(id: nat)
    | Retire
    | SetBridge(bridge: Bridge)
    | RestartHome
    // The transfer.
    | OfferJob
    | Arrive(handoff: Handoff, known: bool, secure: bool, written: bool, replied: bool)
    | AnswerElsewhere(status: nat)
    | EndTransfer
    // The timers.
    | Collect(now: nat)
    | Call(work: Work, replied: bool)
    | EndCall(now: nat, written: bool)
    | RestartBoard

  // ---------------------------------------------------------------------------
  // Steps
  // ---------------------------------------------------------------------------

  /** Still to be published. */
  predicate Live(j: Post) {
    !j.done && !j.failed && !j.cancelled
  }

  function Put(jobs: seq<Post>, job: Post): seq<Post> {
    seq(|jobs|, i requires 0 <= i < |jobs| => if jobs[i].id == job.id then job else jobs[i])
  }

  function WithoutAcks(acks: set<(nat, nat)>, id: nat): set<(nat, nat)> {
    set a | a in acks && a.0 != id
  }

  function Change(w: World, job: Post): World {
    w.(home := w.home.(jobs := Put(w.home.jobs, job), acknowledged := WithoutAcks(w.home.acknowledged, job.id)))
  }

  predicate Retired(s: Scheduling, j: Post) {
    j.done || (j.cancelled && (j.id, j.revision) in s.acknowledged)
  }

  function Remaining(s: Scheduling, jobs: seq<Post>): seq<Post> {
    if jobs == [] then [] else (if Retired(s, jobs[0]) then [] else [jobs[0]]) + Remaining(s, jobs[1..])
  }

  function RequestFor(h: Handoff, known: bool, secure: bool, origin: string): Request {
    Request(true, h.bridge.key, if known then Some(origin) else None, secure, true, Some(h.id), h.revision, h.at, h.cancelled)
  }

  /** The publish endpoint's answer to a callback, and the job after it. A failed job answers like a published
      one, without a post. */
  function Publish(jobs: seq<Post>, t: Timer, work: Work): (seq<Post>, nat) {
    var job := FindJob(jobs, t.id);
    if work.Refused? then (jobs, work.status)
    else if job.None? || job.value.cancelled || job.value.revision != t.revision then (jobs, 404)
    else if job.value.done || job.value.failed then (jobs, 200)
    else if work.Published? then (Put(jobs, job.value.(done := true)), 200)
    else (Put(jobs, job.value.(failed := true)), 200)
  }

  /** The callback gets a final answer although its revision is left to be published. */
  predicate Dooms(jobs: seq<Post>, t: Timer, work: Work) {
    var (jobs', status) := Publish(jobs, t, work);
    var job := FindJob(jobs', t.id);
    Terminal(Some(status)) && job.Some? && job.value.revision == t.revision && Live(job.value)
  }

  /** The world after a callback, with whatever it made of the jobs. */
  function Called(w: World, jobs: seq<Post>, doomed: set<(nat, nat)>, answer: Option<nat>): World {
    w.(home := w.home.(jobs := jobs), doomed := doomed, answer := answer)
  }

  function DoomedBy(w: World, work: Work): set<(nat, nat)>
    requires w.toCall != []
  {
    var t := w.toCall[0];
    if Dooms(w.home.jobs, t, work) then w.doomed + {(t.id, t.revision)} else w.doomed
  }

  function Next(w: World, s: Step): World {
    match s
    case Create(at) =>
      w.(home := w.home.(jobs := w.home.jobs + [Scheduled(w.used + 1, 1, at, false, false, false)]), used := w.used + 1)
    case Move(id, at) =>
      var j := FindJob(w.home.jobs, id);
      if j.None? || j.value.done || j.value.cancelled || j.value.failed then w
      else Change(w, j.value.(at := at, revision := j.value.revision + 1))
    case Cancel(id) =>
      var j := FindJob(w.home.jobs, id);
      if j.None? || j.value.cancelled then w
      else Change(w, j.value.(cancelled := true, failed := false, revision := j.value.revision + 1))
    case MarkDone(id) =>
      var j := FindJob(w.home.jobs, id);
      if j.None? then w else w.(home := w.home.(jobs := Put(w.home.jobs, j.value.(done := true))))
    case Retire =>
      var jobs := Remaining(w.home, w.home.jobs);
      w.(home := w.home.(jobs := jobs,
                         acknowledged := set a | a in w.home.acknowledged && FindJob(jobs, a.0).Some?))
    case SetBridge(bridge) => w.(home := w.home.(bridge := bridge, acknowledged := {}))
    case RestartHome => w.(home := w.home.(acknowledged := {}, lastHandoff := 0, lastError := NoError), transfer := None)
    case OfferJob =>
      if w.transfer.Some? then w
      else
        var (home, h) := Offer(w.home);
        if h.None? then w
        else w.(home := home, transfer := Some(Transfer(h.value, None)), sent := w.sent + {h.value})
    case Arrive(h, known, secure, written, replied) =>
      if h !in w.sent || h.bridge.url != w.url then w
      else
        var (queue, status) := Receive(w.queue, RequestFor(h, known, secure, w.origin), written);
        w.(queue := queue, stored := if status == 200 then queue else w.stored,
           transfer := if replied && w.transfer.Some? && w.transfer.value.handoff == h
                       then Some(Transfer(h, Some(status))) else w.transfer)
    case AnswerElsewhere(status) =>
      if w.transfer.Some? && w.transfer.value.handoff.bridge.url != w.url
      then w.(transfer := Some(w.transfer.value.(status := Some(status)))) else w
    case EndTransfer =>
      if w.transfer.None? then w
      else w.(home := Conclude(w.home, w.transfer.value.handoff, w.transfer.value.status), transfer := None)
    case Collect(now) =>
      if w.toCall != [] then w
      else w.(toCall := if now < w.retryAt then [] else DueTimers(w.queue.jobs, now), answer := None)
    case Call(work, replied) =>
      if w.toCall == [] || w.answer.Some? then w
      else
        var (jobs, status) := Publish(w.home.jobs, w.toCall[0], work);
        Called(w, jobs, DoomedBy(w, work), if replied then Some(status) else None)
    case EndCall(now, written) =>
      if w.toCall == [] then w
      else
        var (queue, retryAt) := Answer(w.queue, w.retryAt, w.toCall[0], w.answer, now, written);
        w.(queue := queue, stored := if written then queue else w.stored, retryAt := retryAt,
           toCall := w.toCall[1..], answer := None)
    case RestartBoard => w.(queue := w.stored, retryAt := 0, toCall := [], answer := None)
  }

  // ---------------------------------------------------------------------------
  // The invariant
  // ---------------------------------------------------------------------------

  /** Something mastomini said about a job: it was true of that revision, and revisions only grow. */
  ghost predicate Said(jobs: seq<Post>, used: nat, id: nat, revision: nat, at: nat, cancelled: bool) {
    id <= used && forall j :: j in jobs && j.id == id ==>
      revision <= j.revision && (revision == j.revision ==> at == j.at && cancelled == j.cancelled)
  }

  ghost predicate Possible(jobs: seq<Post>, used: nat, id: nat, revision: nat) {
    id <= used && forall j :: j in jobs && j.id == id ==> revision <= j.revision
  }

  /** If that revision is still to be published, its timer is in the queue. */
  ghost predicate Kept(jobs: seq<Post>, queue: seq<Timer>, id: nat, revision: nat) {
    forall j :: j in jobs && j.id == id && j.revision == revision && Live(j) ==> Timer(id, revision, j.at) in queue
  }

  /** That revision is not, and will not be, to be published. */
  ghost predicate Over(jobs: seq<Post>, used: nat, id: nat, revision: nat) {
    id <= used && forall j :: j in jobs && j.id == id ==>
      revision < j.revision || (revision == j.revision && !Live(j))
  }

  ghost predicate HomeOk(jobs: seq<Post>, used: nat) {
    Ordered(jobs) && forall j :: j in jobs ==> 1 <= j.id <= used && 1 <= j.revision
  }

  /** What is on its way, or believed, matches what mastomini has. */
  ghost predicate Truthful(w: World) {
    && (forall h :: h in w.sent ==> Said(w.home.jobs, w.used, h.id, h.revision, h.at, h.cancelled))
    && (forall t :: t in w.queue.jobs ==> Said(w.home.jobs, w.used, t.id, t.revision, t.at, false))
    && (forall t :: t in w.toCall ==> Said(w.home.jobs, w.used, t.id, t.revision, t.at, false))
    && (forall a :: a in w.home.acknowledged ==> Possible(w.home.jobs, w.used, a.0, a.1))
    && (w.transfer.Some? ==> w.transfer.value.handoff in w.sent)
  }

  /** What the two boards count on, apart from revisions that were doomed. */
  ghost predicate Promised(w: World) {
    && (w.home.bridge.url == w.url ==>
          forall a :: a in w.home.acknowledged && a !in w.doomed ==> Kept(w.home.jobs, w.queue.jobs, a.0, a.1))
    && (w.transfer.Some? && w.transfer.value.handoff.bridge.url == w.url && Success(w.transfer.value.status) ==>
          var h := w.transfer.value.handoff; (h.id, h.revision) in w.doomed || Kept(w.home.jobs, w.queue.jobs, h.id, h.revision))
    && (w.answer.Some? && Terminal(w.answer) ==>
          w.toCall != [] && var t := w.toCall[0];
                            (t.id, t.revision) in w.doomed || Over(w.home.jobs, w.used, t.id, t.revision))
  }

  ghost predicate Inv(w: World) {
    HomeOk(w.home.jobs, w.used) && w.queue == w.stored && WellFormed(w.queue.jobs) && Truthful(w) && Promised(w)
  }

  // ---------------------------------------------------------------------------
  // Work on mastomini
  // ---------------------------------------------------------------------------

  lemma {:induction false} FindJobFinds(jobs: seq<Post>, id: nat)
    requires Ordered(jobs)
    ensures var j := FindJob(jobs, id);
            if j.Some? then j.value in jobs && j.value.id == id && forall k :: k in jobs && k.id == id ==> k == j.value
            else forall k :: k in jobs ==> k.id != id
  {
    if jobs != [] {
      assert jobs == [jobs[0]] + jobs[1..];
      FindJobFinds(jobs[1..], id);
    }
  }

  /** How mastomini's jobs may change: none appears with an old id, and a revision that stays keeps its contents and
      does not come back to life. */
  ghost predicate Advances(jobs: seq<Post>, used: nat, jobs': seq<Post>) {
    forall j :: j in jobs' ==>
      || j.id > used
      || exists k :: k in jobs && k.id == j.id && k.revision <= j.revision
                     && (k.revision == j.revision ==> k.at == j.at && k.cancelled == j.cancelled && (Live(j) ==> Live(k)))
  }

  lemma AdvanceKeepsSaid(jobs: seq<Post>, used: nat, jobs': seq<Post>, used': nat, id: nat, revision: nat, at: nat, cancelled: bool)
    requires Advances(jobs, used, jobs') && used <= used' && Said(jobs, used, id, revision, at, cancelled)
    ensures Said(jobs', used', id, revision, at, cancelled)
  {
  }

  lemma AdvanceKeepsOver(jobs: seq<Post>, used: nat, jobs': seq<Post>, used': nat, id: nat, revision: nat)
    requires Advances(jobs, used, jobs') && used <= used' && Over(jobs, used, id, revision)
    ensures Over(jobs', used', id, revision)
  {
  }

  lemma AdvanceKeepsKept(jobs: seq<Post>, used: nat, jobs': seq<Post>, queue: seq<Timer>, id: nat, revision: nat)
    requires Advances(jobs, used, jobs') && Possible(jobs, used, id, revision) && Kept(jobs, queue, id, revision)
    ensures Kept(jobs', queue, id, revision)
  {
  }

  lemma AdvanceKeepsPossible(jobs: seq<Post>, used: nat, jobs': seq<Post>, used': nat, id: nat, revision: nat)
    requires Advances(jobs, used, jobs') && used <= used' && Possible(jobs, used, id, revision)
    ensures Possible(jobs', used', id, revision)
  {
  }

  /** Any work on mastomini that only advances its jobs and forgets acknowledgements. */
  lemma HomeWork(w: World, jobs: seq<Post>, used: nat, acks: set<(nat, nat)>)
    requires Inv(w) && Advances(w.home.jobs, w.used, jobs) && w.used <= used && HomeOk(jobs, used)
    requires acks <= w.home.acknowledged
    ensures Inv(w.(home := w.home.(jobs := jobs, acknowledged := acks), used := used))
  {
    var was := w.home.jobs;
    forall h | h in w.sent ensures Said(jobs, used, h.id, h.revision, h.at, h.cancelled) {
      AdvanceKeepsSaid(was, w.used, jobs, used, h.id, h.revision, h.at, h.cancelled);
    }
    forall t | t in w.queue.jobs || t in w.toCall ensures Said(jobs, used, t.id, t.revision, t.at, false) {
      AdvanceKeepsSaid(was, w.used, jobs, used, t.id, t.revision, t.at, false);
    }
    forall a | a in acks ensures Possible(jobs, used, a.0, a.1) {
      AdvanceKeepsPossible(was, w.used, jobs, used, a.0, a.1);
    }
    forall a | a in acks && Kept(was, w.queue.jobs, a.0, a.1) ensures Kept(jobs, w.queue.jobs, a.0, a.1) {
      AdvanceKeepsKept(was, w.used, jobs, w.queue.jobs, a.0, a.1);
    }
    if w.transfer.Some? && Kept(was, w.queue.jobs, w.transfer.value.handoff.id, w.transfer.value.handoff.revision) {
      AdvanceKeepsKept(was, w.used, jobs, w.queue.jobs, w.transfer.value.handoff.id, w.transfer.value.handoff.revision);
    }
    if w.toCall != [] && Over(was, w.used, w.toCall[0].id, w.toCall[0].revision) {
      AdvanceKeepsOver(was, w.used, jobs, used, w.toCall[0].id, w.toCall[0].revision);
    }
  }

  lemma PutReplaces(jobs: seq<Post>, job: Post)
    ensures forall j :: j in Put(jobs, job) ==> if j.id == job.id then j == job else j in jobs
  {
  }

  lemma PutKeepsHomeOk(jobs: seq<Post>, used: nat, job: Post)
    requires HomeOk(jobs, used) && 1 <= job.id <= used && 1 <= job.revision
    ensures HomeOk(Put(jobs, job), used)
  {
    PutReplaces(jobs, job);
    assert forall i :: 0 <= i < |jobs| ==> Put(jobs, job)[i].id == jobs[i].id;
  }

  lemma PutAdvances(jobs: seq<Post>, used: nat, k: Post, job: Post)
    requires k in jobs && k.id == job.id && k.revision <= job.revision
    requires k.revision == job.revision ==> k.at == job.at && k.cancelled == job.cancelled && (Live(job) ==> Live(k))
    ensures Advances(jobs, used, Put(jobs, job))
  {
    PutReplaces(jobs, job);
  }

  lemma {:induction false} RemainingIsSubsequence(s: Scheduling, jobs: seq<Post>)
    requires Ordered(jobs)
    ensures Ordered(Remaining(s, jobs)) && forall j :: j in Remaining(s, jobs) ==> j in jobs
  {
    if jobs != [] {
      assert jobs == [jobs[0]] + jobs[1..];
      RemainingIsSubsequence(s, jobs[1..]);
      var rest := Remaining(s, jobs[1..]);
      assert forall j :: j in jobs[1..] ==> jobs[0].id < j.id;
      assert forall i :: 0 <= i < |rest| ==> rest[i] in jobs[1..];
    }
  }

  /** A job gives way to one of the same id. */
  lemma PutKeepsInv(w: World, k: Post, job: Post, acks: set<(nat, nat)>)
    requires Inv(w) && k in w.home.jobs && k.id == job.id && k.revision <= job.revision
    requires k.revision == job.revision ==> k.at == job.at && k.cancelled == job.cancelled && (Live(job) ==> Live(k))
    requires acks <= w.home.acknowledged
    ensures Inv(w.(home := w.home.(jobs := Put(w.home.jobs, job), acknowledged := acks)))
  {
    PutAdvances(w.home.jobs, w.used, k, job);
    PutKeepsHomeOk(w.home.jobs, w.used, job);
    HomeWork(w, Put(w.home.jobs, job), w.used, acks);
  }

  lemma NewJobAdvances(jobs: seq<Post>, used: nat, job: Post)
    requires HomeOk(jobs, used) && job.id == used + 1 && 1 <= job.revision
    ensures Advances(jobs, used, jobs + [job]) && HomeOk(jobs + [job], used + 1)
  {
    assert forall j :: j in jobs + [job] ==> j == job || j in jobs;
    assert forall i :: 0 <= i < |jobs| ==> jobs[i] in jobs;
  }

  lemma CreateKeepsInv(w: World, at: nat)
    requires Inv(w)
    ensures Inv(Next(w, Create(at)))
  {
    var job := Scheduled(w.used + 1, 1, at, false, false, false);
    var jobs := w.home.jobs + [job];
    NewJobAdvances(w.home.jobs, w.used, job);
    HomeWork(w, jobs, w.used + 1, w.home.acknowledged);
    assert Next(w, Create(at)) == w.(home := w.home.(jobs := jobs, acknowledged := w.home.acknowledged), used := w.used + 1);
  }

  lemma RetireKeepsInv(w: World)
    requires Inv(w)
    ensures Inv(Next(w, Retire))
  {
    RemainingIsSubsequence(w.home, w.home.jobs);
    var left := Remaining(w.home, w.home.jobs);
    HomeWork(w, left, w.used, set a | a in w.home.acknowledged && FindJob(left, a.0).Some?);
  }

  lemma SetBridgeKeepsInv(w: World, bridge: Bridge)
    requires Inv(w)
    ensures Inv(Next(w, SetBridge(bridge)))
  {
  }

  lemma RestartHomeKeepsInv(w: World)
    requires Inv(w)
    ensures Inv(Next(w, RestartHome))
  {
  }

  lemma ChangeKeepsInv(w: World, k: Post, job: Post)
    requires Inv(w) && k in w.home.jobs && k.id == job.id && k.revision < job.revision
    ensures Inv(Change(w, job))
  {
    PutKeepsInv(w, k, job, WithoutAcks(w.home.acknowledged, job.id));
  }

  lemma MoveKeepsInv(w: World, id: nat, at: nat)
    requires Inv(w)
    ensures Inv(Next(w, Move(id, at)))
  {
    FindJobFinds(w.home.jobs, id);
    var found := FindJob(w.home.jobs, id);
    if found.Some? && !found.value.done && !found.value.cancelled && !found.value.failed {
      var job := found.value.(at := at, revision := found.value.revision + 1);
      ChangeKeepsInv(w, found.value, job);
      assert Next(w, Move(id, at)) == Change(w, job);
    } else {
      assert Next(w, Move(id, at)) == w;
    }
  }

  lemma CancelKeepsInv(w: World, id: nat)
    requires Inv(w)
    ensures Inv(Next(w, Cancel(id)))
  {
    FindJobFinds(w.home.jobs, id);
    var found := FindJob(w.home.jobs, id);
    if found.Some? && !found.value.cancelled {
      var job := found.value.(cancelled := true, failed := false, revision := found.value.revision + 1);
      ChangeKeepsInv(w, found.value, job);
      assert Next(w, Cancel(id)) == Change(w, job);
    } else {
      assert Next(w, Cancel(id)) == w;
    }
  }

  lemma MarkDoneKeepsInv(w: World, id: nat)
    requires Inv(w)
    ensures Inv(Next(w, MarkDone(id)))
  {
    FindJobFinds(w.home.jobs, id);
    var found := FindJob(w.home.jobs, id);
    if found.Some? { PutKeepsInv(w, found.value, found.value.(done := true), w.home.acknowledged); }
  }

  // ---------------------------------------------------------------------------
  // The transfer
  // ---------------------------------------------------------------------------

  lemma OfferKeepsInv(w: World)
    requires Inv(w)
    ensures Inv(Next(w, OfferJob))
  {
    if w.transfer.None? && w.home.bridge.key != "" {
      OfferIsNext(w.home);
      var (home, h) := Offer(w.home);
      if h.Some? {
        assert Said(w.home.jobs, w.used, h.value.id, h.value.revision, h.value.at, h.value.cancelled) by {
          var j :| j in w.home.jobs && h.value == Handoff(w.home.bridge, j.id, j.revision, j.at, j.cancelled);
          OneJobPerId(w.home.jobs, j);
        }
      }
    }
  }

  lemma OneJobPerId(jobs: seq<Post>, j: Post)
    requires Ordered(jobs) && j in jobs
    ensures forall k :: k in jobs && k.id == j.id ==> k == j
  {
    forall k | k in jobs && k.id == j.id ensures k == j {
      var a :| 0 <= a < |jobs| && jobs[a] == j;
      var b :| 0 <= b < |jobs| && jobs[b] == k;
    }
  }

  /** A request mastomini once sent never takes away the timer of a revision that is still to be published. */
  lemma ArrivalKeepsKept(jobs: seq<Post>, used: nat, q: Queue, h: Handoff, r: Request, written: bool, id: nat, revision: nat)
    requires WellFormed(q.jobs) && Said(jobs, used, h.id, h.revision, h.at, h.cancelled)
    requires r.id == Some(h.id) && r.revision == h.revision && r.at == h.at && r.cancelled == h.cancelled
    requires Kept(jobs, q.jobs, id, revision)
    ensures Kept(jobs, Receive(q, r, written).0.jobs, id, revision)
  {
    ReceiveEffect(q, r, written);
  }

  lemma ArrivalIsKept(jobs: seq<Post>, used: nat, q: Queue, h: Handoff, r: Request, written: bool)
    requires WellFormed(q.jobs) && Said(jobs, used, h.id, h.revision, h.at, h.cancelled)
    requires r.id == Some(h.id) && r.revision == h.revision && r.at == h.at && r.cancelled == h.cancelled
    requires Receive(q, r, written).1 == 200
    ensures Kept(jobs, Receive(q, r, written).0.jobs, h.id, h.revision)
  {
    ReceiveEffect(q, r, written);
  }

  lemma ReceiveAnswers(q: Queue, r: Request, written: bool)
    ensures var status := Receive(q, r, written).1; Success(Some(status)) ==> status == 200
  {
  }

  lemma ArriveKeepsInv(w: World, h: Handoff, known: bool, secure: bool, written: bool, replied: bool)
    requires Inv(w) && h in w.sent && h.bridge.url == w.url
    ensures Inv(Next(w, Arrive(h, known, secure, written, replied)))
  {
    var r := RequestFor(h, known, secure, w.origin);
    var (queue, status) := Receive(w.queue, r, written);
    ReceiveKeepsForm(w.queue, r, written);
    ReceiveEffect(w.queue, r, written);
    ReceiveAnswers(w.queue, r, written);
    var jobs := w.home.jobs;
    forall id, revision | Kept(jobs, w.queue.jobs, id, revision) ensures Kept(jobs, queue.jobs, id, revision) {
      ArrivalKeepsKept(jobs, w.used, w.queue, h, r, written, id, revision);
    }
    if status == 200 { ArrivalIsKept(jobs, w.used, w.queue, h, r, written); }
  }

  lemma EndTransferKeepsInv(w: World)
    requires Inv(w)
    ensures Inv(Next(w, EndTransfer))
  {
    if w.transfer.Some? {
      var h := w.transfer.value.handoff;
      FindJobFinds(w.home.jobs, h.id);
      var home := Conclude(w.home, h, w.transfer.value.status);
      assert home == w.home.(acknowledged := home.acknowledged, lastError := home.lastError);
      assert forall a :: a in home.acknowledged ==>
        a in w.home.acknowledged || (a == (h.id, h.revision) && Success(w.transfer.value.status) && w.home.bridge == h.bridge);
    }
  }

  // ---------------------------------------------------------------------------
  // The timers
  // ---------------------------------------------------------------------------

  /** A final answer means that the revision is not to be published any more, unless the callback dooms it. */
  lemma FinalAnswerIsOver(jobs: seq<Post>, used: nat, t: Timer, work: Work)
    requires HomeOk(jobs, used) && Said(jobs, used, t.id, t.revision, t.at, false)
    ensures var (jobs', status) := Publish(jobs, t, work);
            && Advances(jobs, used, jobs') && HomeOk(jobs', used)
            && (Terminal(Some(status)) ==> Dooms(jobs, t, work) || Over(jobs', used, t.id, t.revision))
  {
    FindJobFinds(jobs, t.id);
    var job := FindJob(jobs, t.id);
    if job.Some? {
      var j := job.value;
      PutAdvances(jobs, used, j, j.(done := true));
      PutKeepsHomeOk(jobs, used, j.(done := true));
      PutReplaces(jobs, j.(done := true));
      PutAdvances(jobs, used, j, j.(failed := true));
      PutKeepsHomeOk(jobs, used, j.(failed := true));
      PutReplaces(jobs, j.(failed := true));
    }
  }

  lemma CalledKeepsInv(w: World, jobs: seq<Post>, doomed: set<(nat, nat)>, answer: Option<nat>)
    requires Inv(w) && w.toCall != [] && w.doomed <= doomed
    requires Advances(w.home.jobs, w.used, jobs) && HomeOk(jobs, w.used)
    requires Terminal(answer) ==> (w.toCall[0].id, w.toCall[0].revision) in doomed || Over(jobs, w.used, w.toCall[0].id, w.toCall[0].revision)
    ensures Inv(Called(w, jobs, doomed, answer))
  {
    HomeWork(w, jobs, w.used, w.home.acknowledged);
    var worked := w.(home := w.home.(jobs := jobs));
    assert worked == w.(home := w.home.(jobs := jobs, acknowledged := w.home.acknowledged), used := w.used);
    MoreDoomed(worked, doomed);
    AnswerCame(worked.(doomed := doomed), answer);
  }

  lemma FinalAnswerDoomsOrIsOver(w: World, work: Work)
    requires Inv(w) && w.toCall != []
    ensures var t := w.toCall[0];
            var (jobs, status) := Publish(w.home.jobs, t, work);
            && Advances(w.home.jobs, w.used, jobs) && HomeOk(jobs, w.used) && w.doomed <= DoomedBy(w, work)
            && (Terminal(Some(status)) ==> (t.id, t.revision) in DoomedBy(w, work) || Over(jobs, w.used, t.id, t.revision))
  {
    FinalAnswerIsOver(w.home.jobs, w.used, w.toCall[0], work);
  }

  lemma CallIs(w: World, work: Work, replied: bool)
    requires w.toCall != [] && w.answer.None?
    ensures var (jobs, status) := Publish(w.home.jobs, w.toCall[0], work);
            Next(w, Call(work, replied)) == Called(w, jobs, DoomedBy(w, work), if replied then Some(status) else None)
  {
  }

  lemma CallKeepsInv(w: World, work: Work, replied: bool)
    requires Inv(w) && w.toCall != [] && w.answer.None?
    ensures Inv(Next(w, Call(work, replied)))
  {
    FinalAnswerDoomsOrIsOver(w, work);
    CallIs(w, work, replied);
    var (jobs, status) := Publish(w.home.jobs, w.toCall[0], work);
    CalledKeepsInv(w, jobs, DoomedBy(w, work), if replied then Some(status) else None);
  }

  lemma AnswerCame(w: World, answer: Option<nat>)
    requires Inv(w) && w.toCall != []
    requires Terminal(answer) ==> var t := w.toCall[0];
                                  (t.id, t.revision) in w.doomed || Over(w.home.jobs, w.used, t.id, t.revision)
    ensures Inv(w.(answer := answer))
  {
  }

  lemma MoreDoomed(w: World, doomed: set<(nat, nat)>)
    requires Inv(w) && w.doomed <= doomed
    ensures Inv(w.(doomed := doomed))
  {
  }

  lemma EndCallKeepsInv(w: World, now: nat, written: bool)
    requires Inv(w) && w.toCall != []
    ensures Inv(Next(w, EndCall(now, written)))
  {
    var t := w.toCall[0];
    AnswerEffect(w.queue, w.retryAt, t, w.answer, now, written);
    AnswerKeepsForm(w.queue, w.retryAt, t, w.answer, now, written);
    var queue := Answer(w.queue, w.retryAt, t, w.answer, now, written).0;
    var jobs := w.home.jobs;
    forall id: nat, revision: nat | Kept(jobs, w.queue.jobs, id, revision) && (id, revision) !in w.doomed
      ensures Kept(jobs, queue.jobs, id, revision)
    {
      AnswerKeepsKept(jobs, w.used, w.queue.jobs, queue.jobs, t, w.answer, id, revision, w.doomed);
    }
    assert !written ==> queue == w.queue;
    assert forall u :: u in w.toCall[1..] ==> u in w.toCall;
  }

  lemma AnswerKeepsKept(jobs: seq<Post>, used: nat, q: seq<Timer>, q': seq<Timer>, t: Timer, status: Option<nat>, id: nat, revision: nat,
                        doomed: set<(nat, nat)>)
    requires Kept(jobs, q, id, revision) && (id, revision) !in doomed
    requires Terminal(status) ==> (t.id, t.revision) in doomed || Over(jobs, used, t.id, t.revision)
    requires forall u :: u in q && u !in q' ==> u.id == t.id && u.revision == t.revision && Terminal(status)
    ensures Kept(jobs, q', id, revision)
  {
  }

  // ---------------------------------------------------------------------------
  // Any interleaving
  // ---------------------------------------------------------------------------

  lemma StepKeepsInv(w: World, s: Step)
    requires Inv(w)
    ensures Inv(Next(w, s))
  {
    match s
    case Create(at) => CreateKeepsInv(w, at);
    case Move(id, at) => MoveKeepsInv(w, id, at);
    case Cancel(id) => CancelKeepsInv(w, id);
    case MarkDone(id) => MarkDoneKeepsInv(w, id);
    case Retire => RetireKeepsInv(w);
    case SetBridge(bridge) => SetBridgeKeepsInv(w, bridge);
    case RestartHome => RestartHomeKeepsInv(w);
    case OfferJob => OfferKeepsInv(w);
    case Arrive(h, known, secure, written, replied) =>
      if h in w.sent && h.bridge.url == w.url { ArriveKeepsInv(w, h, known, secure, written, replied); }
    case AnswerElsewhere(status) =>
    case EndTransfer => EndTransferKeepsInv(w);
    case Collect(now) => DueAreTimersInTime(w.queue.jobs, now);
    case Call(work, replied) => if w.toCall != [] && w.answer.None? { CallKeepsInv(w, work, replied); }
    case EndCall(now, written) => if w.toCall != [] { EndCallKeepsInv(w, now, written); }
    case RestartBoard =>
  }

  function Run(w: World, steps: seq<Step>): World
    decreases |steps|
  {
    if steps == [] then w else Run(Next(w, steps[0]), steps[1..])
  }

  lemma {:induction false} RunKeepsInv(w: World, steps: seq<Step>)
    requires Inv(w)
    ensures Inv(Run(w, steps))
    decreases |steps|
  {
    if steps != [] {
      StepKeepsInv(w, steps[0]);
      RunKeepsInv(Next(w, steps[0]), steps[1..]);
    }
  }

  /** Two boards that have not met. */
  function Start(url: string, origin: string): World {
    World(Scheduling([], {}, 0, Bridge("", ""), NoError), 0, None, {}, url, origin, EMPTY, EMPTY, 0, [], None, {})
  }

  /** Every post mastomini counts as handed over, and that is still to be published, has its timer - with its present
      time - in the bots board's durable queue. */
  ghost predicate TimersKept(w: World) {
    w.home.bridge.url == w.url ==>
      forall j :: j in w.home.jobs && Live(j) && (j.id, j.revision) in w.home.acknowledged ==>
        Timer(j.id, j.revision, j.at) in w.stored.jobs
  }

  /** Under any interleaving, with lost, late and repeated requests, lost answers, failed writes and restarts: the queue
      has at most sixteen timers with distinct ids and equals its stored copy, and the timer of an acknowledged post still
      to be published is in it, unless that revision was doomed. */
  lemma OnlyDoomedPostsLoseTimers(url: string, origin: string, steps: seq<Step>)
    ensures var w := Run(Start(url, origin), steps);
            && w.queue == w.stored && WellFormed(w.queue.jobs)
            && (w.home.bridge.url == w.url ==>
                  forall j :: j in w.home.jobs && Live(j) && (j.id, j.revision) in w.home.acknowledged ==>
                    (j.id, j.revision) in w.doomed || Timer(j.id, j.revision, j.at) in w.stored.jobs)
  {
    RunKeepsInv(Start(url, origin), steps);
  }

  /** A run in which mastomini's endpoint does only what is allowed. */
  predicate Within(allowed: Work -> bool, steps: seq<Step>) {
    forall i :: 0 <= i < |steps| && steps[i].Call? ==> allowed(steps[i].work)
  }

  lemma DoomsMeansRefused(jobs: seq<Post>, used: nat, t: Timer, work: Work)
    requires HomeOk(jobs, used) && Said(jobs, used, t.id, t.revision, t.at, false) && Dooms(jobs, t, work)
    ensures work.Refused? && Terminal(Some(work.status))
  {
    FinalAnswerIsOver(jobs, used, t, work);
    var jobs' := Publish(jobs, t, work).0;
    FindJobFinds(jobs, t.id);
    FindJobFinds(jobs', t.id);
    var job := FindJob(jobs, t.id);
    if job.Some? {
      PutReplaces(jobs, job.value.(done := true));
      PutReplaces(jobs, job.value.(failed := true));
    }
  }

  lemma StepDooms(w: World, s: Step)
    requires Inv(w) && Next(w, s).doomed != w.doomed
    ensures s.Call? && s.work.Refused? && Terminal(Some(s.work.status))
  {
    match s
    case Call(work, replied) =>
      if w.toCall != [] && w.answer.None? && Dooms(w.home.jobs, w.toCall[0], work) {
        DoomsMeansRefused(w.home.jobs, w.used, w.toCall[0], work);
      }
    case _ =>
  }

  lemma {:induction false} RunDooms(w: World, steps: seq<Step>, allowed: Work -> bool)
    requires Inv(w) && Within(allowed, steps) && forall status :: Terminal(Some(status)) ==> !allowed(Refused(status))
    ensures Run(w, steps).doomed == w.doomed
    decreases |steps|
  {
    if steps != [] {
      StepKeepsInv(w, steps[0]);
      if Next(w, steps[0]).doomed != w.doomed { StepDooms(w, steps[0]); }
      RunDooms(Next(w, steps[0]), steps[1..], allowed);
    }
  }

  // ---------------------------------------------------------------------------
  // A run in which a post is doomed
  // ---------------------------------------------------------------------------

  const BRIDGE := Bridge("b", "k")
  const POST := Scheduled(1, 1, 5, false, false, false)
  const OFFER := Handoff(BRIDGE, 1, 1, 5, false)
  const TIMER := Timer(1, 1, 5)

  /** Mastomini hands over one post; when its time comes the endpoint answers `status`, and leaves it as it was. */
  function Losing(status: nat): seq<Step> {
    [SetBridge(BRIDGE), Create(5), OfferJob, Arrive(OFFER, true, true, true, true), EndTransfer, Collect(5),
     Call(Refused(status), true), EndCall(5, true)]
  }

  lemma RunOne(w: World, s: Step, rest: seq<Step>)
    ensures Run(w, [s] + rest) == Run(Next(w, s), rest)
  {
    assert ([s] + rest)[1..] == rest;
  }

  function Created(): World {
    Start("b", "m").(home := Scheduling([POST], {}, 0, BRIDGE, NoError), used := 1)
  }

  function Offered(): World {
    Created().(home := Scheduling([POST], {}, 1, BRIDGE, NoError), transfer := Some(Transfer(OFFER, None)), sent := {OFFER})
  }

  function Arrived(): World {
    Offered().(transfer := Some(Transfer(OFFER, Some(200))), queue := Queue("m", "k", [TIMER]), stored := Queue("m", "k", [TIMER]))
  }

  function HandedOver(): World {
    Arrived().(home := Scheduling([POST], {(1, 1)}, 1, BRIDGE, NoError), transfer := None)
  }

  lemma PostIsCreated()
    ensures Next(Next(Start("b", "m"), SetBridge(BRIDGE)), Create(5)) == Created()
  {
  }

  lemma PostIsOffered()
    ensures Next(Created(), OfferJob) == Offered()
  {
    assert FirstAbove(Created().home, [POST], 0) == Some(POST);
  }

  lemma OfferArrives()
    ensures Next(Offered(), Arrive(OFFER, true, true, true, true)) == Arrived()
  {
    assert FindTimer([], 1) == None && DropId([], 1) == [];
    assert [] + [TIMER] == [TIMER];
  }

  lemma PostIsHandedOver()
    ensures Next(Arrived(), EndTransfer) == HandedOver()
  {
    assert FindJob([POST], 1) == Some(POST);
  }

  lemma TimerIsDue()
    ensures Next(HandedOver(), Collect(5)) == HandedOver().(toCall := [TIMER])
  {
    assert [TIMER][1..] == [] && DueTimers([], 5) == [];
  }

  lemma PostIsDoomed(status: nat)
    requires Terminal(Some(status))
    ensures var called := HandedOver().(toCall := [TIMER]);
            Next(called, Call(Refused(status), true)) == called.(answer := Some(status), doomed := {(1, 1)})
  {
    assert FindJob([POST], 1) == Some(POST);
  }

  lemma TimerIsDropped(status: nat)
    requires Terminal(Some(status))
    ensures var answered := HandedOver().(toCall := [TIMER], answer := Some(status), doomed := {(1, 1)});
            Next(answered, EndCall(5, true)).stored.jobs == [] && Next(answered, EndCall(5, true)).home == HandedOver().home
  {
    assert [TIMER][0].id == 1;
    assert Holds([TIMER], 1, 1);
    assert [TIMER][1..] == [] && DropExact([], 1, 1) == [] && DropExact([TIMER], 1, 1) == [];
  }

  /** With mastomini's storage full when the post is due - or any other final answer that leaves it as it was - the
      acknowledged post is still to be published, and has no timer. */
  lemma FinalRefusalLosesTimer(status: nat)
    requires Terminal(Some(status))
    ensures !TimersKept(Run(Start("b", "m"), Losing(status)))
  {
    var called := HandedOver().(toCall := [TIMER]);
    var answered := called.(answer := Some(status), doomed := {(1, 1)});
    PostIsCreated();
    PostIsOffered();
    OfferArrives();
    PostIsHandedOver();
    TimerIsDue();
    PostIsDoomed(status);
    TimerIsDropped(status);
    LosingSteps(status);
    var end := Next(answered, EndCall(5, true));
    assert POST in end.home.jobs && Live(POST) && (POST.id, POST.revision) in end.home.acknowledged;
  }

  lemma LosingSteps(status: nat)
    requires Next(Next(Start("b", "m"), SetBridge(BRIDGE)), Create(5)) == Created() && Next(Created(), OfferJob) == Offered()
    requires Next(Offered(), Arrive(OFFER, true, true, true, true)) == Arrived() && Next(Arrived(), EndTransfer) == HandedOver()
    ensures Run(Start("b", "m"), Losing(status))
         == Next(Next(Next(HandedOver(), Collect(5)), Call(Refused(status), true)), EndCall(5, true))
  {
    var s := Losing(status);
    assert s == s[..5] + s[5..];
    RunJoins(Start("b", "m"), s[..5], s[5..]);
    FiveSteps(Start("b", "m"), s[0], s[1], s[2], s[3], s[4]);
    assert s[..5] == [s[0], s[1], s[2], s[3], s[4]];
    ThreeSteps(HandedOver(), s[5], s[6], s[7]);
    assert s[5..] == [s[5], s[6], s[7]];
  }

  lemma {:induction false} RunJoins(w: World, a: seq<Step>, b: seq<Step>)
    ensures Run(w, a + b) == Run(Run(w, a), b)
    decreases |a|
  {
    if a == [] {
      assert a + b == b;
    } else {
      assert (a + b)[1..] == a[1..] + b;
      RunJoins(Next(w, a[0]), a[1..], b);
    }
  }

  lemma ThreeSteps(w: World, a: Step, b: Step, c: Step)
    ensures Run(w, [a, b, c]) == Next(Next(Next(w, a), b), c)
  {
    RunOne(w, a, [b, c]);
    RunOne(Next(w, a), b, [c]);
    RunOne(Next(Next(w, a), b), c, []);
    assert [a, b, c] == [a] + [b, c] && [b, c] == [b] + [c] && [c] == [c] + [];
  }

  lemma FiveSteps(w: World, a: Step, b: Step, c: Step, d: Step, e: Step)
    ensures Run(w, [a, b, c, d, e]) == Next(Next(Next(Next(Next(w, a), b), c), d), e)
  {
    var v := Next(Next(w, a), b);
    RunOne(w, a, [b, c, d, e]);
    RunOne(Next(w, a), b, [c, d, e]);
    ThreeSteps(v, c, d, e);
    assert [a, b, c, d, e] == [a] + [b, c, d, e] && [b, c, d, e] == [b] + [c, d, e];
  }

  /** Timers are kept in every run of what the endpoint is allowed if and only if it is not allowed to answer finally and
      leave a post as it was - that is, if the storage is not full when a post is due. */
  lemma TimersAreKeptExactly(allowed: Work -> bool)
    ensures (forall url, origin, steps :: Within(allowed, steps) ==> TimersKept(Run(Start(url, origin), steps)))
       <==> (forall status :: Terminal(Some(status)) ==> !allowed(Refused(status)))
  {
    if forall status :: Terminal(Some(status)) ==> !allowed(Refused(status)) {
      forall url, origin, steps | Within(allowed, steps) ensures TimersKept(Run(Start(url, origin), steps)) {
        OnlyDoomedPostsLoseTimers(url, origin, steps);
        RunDooms(Start(url, origin), steps, allowed);
      }
    } else {
      var status :| Terminal(Some(status)) && allowed(Refused(status));
      FinalRefusalLosesTimer(status);
      assert Within(allowed, Losing(status));
    }
  }

  // ---------------------------------------------------------------------------
  // How a timer leaves
  // ---------------------------------------------------------------------------

  /** An accepted request for the timer's id, or a final answer to a callback for exactly its revision. */
  ghost predicate Removes(w: World, s: Step, t: Timer) {
    || (s.Arrive? && s.handoff.id == t.id && Receive(w.queue, RequestFor(s.handoff, s.known, s.secure, w.origin), s.written).1 == 200)
    || (s.EndCall? && w.toCall != [] && w.toCall[0].id == t.id && w.toCall[0].revision == t.revision && Terminal(w.answer))
  }

  lemma TimersLeaveFor(w: World, s: Step, t: Timer)
    requires Inv(w) && t in w.queue.jobs && t !in Next(w, s).queue.jobs
    ensures Removes(w, s, t)
  {
    match s
    case Arrive(h, known, secure, written, _) => ReceiveEffect(w.queue, RequestFor(h, known, secure, w.origin), written);
    case EndCall(now, written) =>
      if w.toCall != [] { AnswerEffect(w.queue, w.retryAt, w.toCall[0], w.answer, now, written); }
    case _ =>
  }

  /** Over whole runs, doomed posts or not: a timer that was in the queue and is not at the end was removed by such a step. */
  lemma {:induction false} TimersLeaveOnlyFor(w: World, steps: seq<Step>, t: Timer)
    requires Inv(w) && t in w.queue.jobs && t !in Run(w, steps).queue.jobs
    ensures exists k :: 0 <= k < |steps| && Removes(Run(w, steps[..k]), steps[k], t)
    decreases |steps|
  {
    var next := Next(w, steps[0]);
    if t !in next.queue.jobs {
      TimersLeaveFor(w, steps[0], t);
      assert Run(w, steps[..0]) == w;
    } else {
      StepKeepsInv(w, steps[0]);
      TimersLeaveOnlyFor(next, steps[1..], t);
      var k :| 0 <= k < |steps[1..]| && Removes(Run(next, steps[1..][..k]), steps[1..][k], t);
      LaterRemoval(w, steps, k, t);
    }
  }

  lemma LaterRemoval(w: World, steps: seq<Step>, k: nat, t: Timer)
    requires k + 1 < |steps| && Removes(Run(Next(w, steps[0]), steps[1..][..k]), steps[1..][k], t)
    ensures Removes(Run(w, steps[..k + 1]), steps[k + 1], t)
  {
    assert steps[..k + 1] == [steps[0]] + steps[1..][..k];
    RunOne(w, steps[0], steps[1..][..k]);
  }
}
